# designer-web model-document engine in Dafny

designer-web edits PowerDesigner conceptual data models (CDM files) in the
browser. Its core is a model-document engine. The `DataModel` class and its
two earlier revisions, `CDMModel` (`.ts` and `.tsx`), hold the model's XML as
a DOM document. Their methods find entities, data items, domains,
relationships and diagram symbols by name and `Id`, and rewrite them in
place. Three revisions of a reader (`modelParser.ts`, `.tsx`, `.js`) turn the
parsed XML into the JSON the diagram editor draws. Two helper classes label
data types and measure distances.

This project models that engine and proves properties about it:

- `xml.dfy` (module `Xml`) is the document tree. A node is an element with
  ordered attributes and ordered children, or a text node. An address is a
  list of child indexes. `Locate` follows a list of names, taking at each
  step the first child with that name, as `getChildNodeForName` does.
- `numbers.dfy` models the decimal text of numbers and `parseInt`.
- `geometry.dfy` models `split`, the removal of parentheses, and the
  rectangle text.
- `store.dfy` models four things:
  - the `&` placeholder around parsing and serializing;
  - the id scan done by `getNextUniqueId` and `getUsageCount`;
  - `buildBasicNode`;
  - the `getAsXml` variants.
- `ops.dfy`, `attributes.dfy`, `identifiers.dfy`, `domains.dfy`,
  `relations.dfy` and `deletion.dfy` model the engine's operations. Each
  operation is a function from the old document to the new one, and `None`
  stands for a call that throws. The lemmas beside each function say what
  the operation changes and what it leaves alone.
- `engine.dfy` (module `Engine`) holds the three classes. Each has a
  `document` field that its methods reassign by these functions. It also
  holds the loop of `findNodeByPath` and the loop of `setAttributesOnNode`,
  each proved against its specification function.
- `readers.dfy` models how xml2js presents the same tree (`obj[key]`,
  `obj['$']`, `map`, `reduce`). `modelparser.dfy`, `modelparser_tsx.dfy` and
  `modelparser_js.dfy` model the three `getAsJson` readers over that view.
- `helpers.dfy` models `DataTypeHelper` and `DistanceHelper`.

Three behaviours of the code are worth noting:

- `getNextUniqueId` scans every attribute whose key ends in `Id`, because the
  regex is unanchored. On a document without ids it yields `o-Infinity`.
- `createEntity` gives the entity and its symbol the same id. The second
  `getNextUniqueId` runs before anything is attached, so it sees the same
  document as the first.
- `buildTypeIdentifier` is called by `createAttributeForEntity`
  (src/parsers/DataModel.ts:208), but src/helpers/DataTypeHelper.ts does
  not define it. It is modelled as the code followed by the length, which
  is what src/parsers/modelParser.test.ts:127 expects (`varchar20`).

## Model

| member | source | states |
|---|---|---|
| Xml.SetAttribute | src/parsers/DataModel.ts:74 | `setAttribute` overwrites an attribute of that key in place. Otherwise it appends one. Afterwards the attribute reads the value. |
| Xml.FirstIndex | src/parsers/DataModel.ts:41-43 | `find`: the answer is the first index whose child satisfies the predicate, and no earlier child does. |
| Xml.FirstIndexUnique | src/parsers/DataModel.ts:41-43 | The first match is fixed by its two properties. |
| Xml.TryFirst | src/parsers/DataModel.ts:406-415 | `find` with a predicate that may throw: a hit, a miss, or a throw. A hit or a miss means no earlier child throws. |
| Xml.RemoveChildAt | src/parsers/DataModel.ts:229 | `removeChild` takes out exactly that child. The rest keep their order. |
| Xml.Locate | src/parsers/DataModel.ts:37-39 | A path of names that is found gives one child index per name, and the address it gives exists in the document. |
| Xml.LocateSnoc | src/parsers/DataModel.ts:27-35 | One more segment is one more `getChildNodeForName` step from the node reached so far. |
| Xml.Resolve | src/parsers/DataModel.ts:27-35 | `findNodeByPath` has three answers. It finds the node the path reaches. It answers `undefined` when the last step misses. It throws when an earlier step misses. |
| Xml.LocatePrefix | src/parsers/DataModel.ts:30-32 | A path that is found passes through the addresses of all its prefixes. |
| Xml.SetFirstText | src/parsers/DataModel.ts:588-589 | Assigning `data` changes a text first child. Assigning it to an element first child changes nothing visible. |
| Xml.SetField | src/parsers/DataModel.ts:579-589 | One key of `setAttributesOnNode`: the field is created with the text when absent, else the text of the existing field is overwritten. It throws on an empty field. |
| Xml.SetFieldReads | src/parsers/DataModel.ts:577-591 | A writable field then holds exactly the new value. Every other field keeps its text. |
| Xml.SetFieldIdempotent | src/parsers/DataModel.ts:577-591 | Setting a field twice to the same value is setting it once. |
| Xml.SetFields | src/parsers/DataModel.ts:577-591 | `setAttributesOnNode` over an object literal is one field step per key, in order. It throws if any step throws. |
| Xml.SetFieldsFresh | src/parsers/DataModel.ts:581-586 | On a node holding none of the keys, every field is created in order with its value. |
| Xml.SetFieldNames | src/parsers/DataModel.ts:579-586 | A field step adds a child of that name only when none exists, and changes no other child's name. |
| Xml.SetFieldKeeps | src/parsers/DataModel.ts:577-591 | Setting one field leaves every other field's text, even when the field set cannot take text. |
| Xml.SetThreeReads | src/parsers/DataModel.ts:425-429 | Setting three distinct writable keys: each reads its new value. |
| Xml.SetThreeKeeps | src/parsers/DataModel.ts:425-429 | Setting three keys leaves every other field's text. |
| Xml.Prune | src/parsers/DataModel.ts:229-237 | A child leaves its container. When no child of that kind is left, the container leaves the entity too. |
| Xml.PruneCount | src/parsers/DataModel.ts:229-237 | The container goes exactly when the child removed was the only one of its kind. Otherwise it holds one child of that kind fewer. |
| Xml.EnsureChild | src/parsers/DataModel.ts:188-193 | The first child of that name. When there is none, a new empty child of that name is appended and returned. |
| Numbers.NatToString | src/parsers/DataModel.ts:605 | The decimal text of a number, without leading zeros. |
| Numbers.NatToStringInjective | src/parsers/DataModel.ts:605 | Distinct numbers give distinct ids `'o' + n`. |
| Numbers.IntToString | src/parsers/DataModel.ts:209 | `length.toString()` of an integer, with a minus sign for negative values. |
| Numbers.ParseIntToString | src/parsers/DataModel.ts:601 | `parseInt` reads back the decimal text of every integer, after any leading white space. |
| Numbers.ParseIntHex | src/parsers/modelParser.ts:39 | Without a radix, `parseInt` reads a `0x` or `0X` prefix, after an optional sign, as hexadecimal. It reads the hex digits up to the first other character. |
| Numbers.ParseIntHexEmpty | src/parsers/modelParser.ts:39 | A `0x` prefix with no hex digit after it is `NaN`, not zero. |
| Numbers.ParseIntHexExample | src/parsers/modelParser.js:9 | `parseInt("0x1F")` is 31. |
| Geometry.Split | src/parsers/DataModel.ts:30 | `split(sep)` gives the pieces between separators, always at least one. |
| Geometry.ParseRectText | src/parsers/modelParser.ts:39 | The text `moveEntity` writes, with its parentheses removed and split at commas, parses back into the four coordinates in the order written. |
| Store.ToPlaceholder | src/parsers/DataModel.ts:16 | Every `&` becomes the placeholder. No `&` is left. |
| Store.FromPlaceholder | src/parsers/DataModel.ts:613 | Every placeholder becomes `&`. No placeholder is left. |
| Store.PlaceholderRoundTrip | src/parsers/DataModel.ts:612-615 | At the level of a string: undoing the placeholder after putting it in gives back any text that never held the placeholder. |
| Store.GetAsXml | src/parsers/DataModel.ts:612-615 | The preamble, then the serialized document element with the placeholder undone. |
| Store.GetAsXmlPlain | src/parsers/CDMModel.ts:502-504 | The earlier revisions return the serializer's text as it is. |
| Store.MaxValue | src/parsers/DataModel.ts:603 | `Math.max` over the scanned ids. It is at least every id number, and equals one when there is any. |
| Store.NextUniqueIdValue | src/parsers/DataModel.ts:599-606 | The next id is `o` followed by one more than the largest id number. |
| Store.NextUniqueIdAbove | src/parsers/DataModel.ts:599-606 | The allocated id is itself an `oN` id, above every id in the document. |
| Store.NextUniqueIdFresh | src/parsers/DataModel.ts:599-606 | No element of the document has the next id as its `Id`, so allocation never reuses an id. |
| Store.NextUniqueIdSame | src/parsers/DataModel.ts:599-606 | Two documents holding the same ids allocate the same next id. |
| Store.NextUniqueIdAfter | src/parsers/DataModel.ts:599-606 | Once the next id has been added, the allocation after it is the one above it. |
| Store.NextTwoFresh | src/parsers/DataModel.ts:98-104 | Two ids allocated one after the other, with the first attached in between, are new and distinct. |
| Store.BuildBasicNode | src/parsers/DataModel.ts:552-575 | `buildBasicNode` is a new element with its `Id`, then the seven basic fields set on it. |
| Store.BasicNodeShape | src/parsers/DataModel.ts:552-575 | The basic node is the element with its `Id` and the seven fields, in order, each holding its value. |
| Store.BasicLacks | src/parsers/DataModel.ts:552-575 | A basic node has no child of a name outside its seven fields. |
| Store.NewNodeFields | src/parsers/DataModel.ts:577-591 | `setAttributesOnNode` on a new element creates every field, in order. |
| Store.FieldTextOfFields | src/parsers/DataModel.ts:577-591 | Each field created in this way reads back its value. |
| Store.MatchesSetField | src/parsers/DataModel.ts:599-601 | Setting a field leaves the ids the scan sees as they were. |
| Store.MatchesAppendAt | src/parsers/DataModel.ts:599-601 | Appending a child adds exactly the child's ids to the scan. |
| Ops.Find | src/parsers/DataModel.ts:41-43 | `findChildNode` on the node at an address: the address of the first matching child. |
| Ops.AppendAt | src/parsers/DataModel.ts:129-132 | `parent.appendChild(c)` for the element at an address. It throws on a text node or a missing node. |
| Ops.AppendAtEffect | src/parsers/DataModel.ts:129-132 | The child goes last under the parent, and the ids of the document grow by the child's ids. |
| Ops.RemoveAt | src/parsers/DataModel.ts:229 | `parent.removeChild(child)` for the child at an address. |
| Ops.RemoveAtEffect | src/parsers/DataModel.ts:229 | That child leaves its parent, and nothing apart from the parent changes. |
| Ops.PutFrame | src/parsers/DataModel.ts:55 | A change in place at an address keeps every address apart from it. Above it, every node keeps its head and child count. |
| Ops.FindUnder | src/parsers/DataModel.ts:45-49 | `findChildNode(findNode(path), p)`: the first matching child of the node the path reaches. |
| Ops.EntityFound | src/parsers/DataModel.ts:45-49 | The entity found is an `o:Entity` element bearing that `Id`. |
| Ops.EntityAddress | src/parsers/DataModel.ts:45-49 | The entity found lies in the model's first `c:Entities`, two levels below the model node. |
| Ops.FindEntityPut | src/parsers/DataModel.ts:45-49 | After a change inside the entity that keeps its head, `findEntity` finds it at the same place. |
| Ops.EntityReplaced | src/parsers/DataModel.ts:45-49 | An entity put back changed but with the same head is found where it was, and nothing apart from it changes. |
| Ops.OverwriteField | src/parsers/DataModel.ts:52-55 | `firstChild.data = value` on an existing field. Nothing is created, and a missing or empty field throws. |
| Ops.OverwriteFieldReads | src/parsers/DataModel.ts:52-55 | The field then reads the new value when its first child is text. |
| Ops.OverwriteFieldKeeps | src/parsers/DataModel.ts:52-55 | Every other field keeps its text. |
| Ops.SetAttributeForEntityLocal | src/parsers/DataModel.ts:51-58 | `setAttributeForEntity` changes only the entity. The entity keeps its head and child names, and is still found under its id. |
| Ops.SetAttributeForEntityReads | src/parsers/DataModel.ts:51-58 | The entity reads the new value in that field and the old values in all others. |
| Ops.SetAttributeForEntityCreatesNothing | src/parsers/DataModel.ts:52-55 | A field the entity lacks is not created: the call throws. |
| Ops.DataItemRefAddress | src/parsers/DataModel.ts:63-77 | The reference node `c:Attributes/o:EntityAttribute[Id]/c:DataItem/o:DataItem` of the entity, where each step exists. |
| Ops.SetDataItemRefEffect | src/parsers/DataModel.ts:63-77 | `setDataItemRefForEntity` rewrites only that node's `Ref`. Its name, children and other attributes stay, and nothing apart from it changes. |
| Ops.MoveEntityLocal | src/parsers/DataModel.ts:79-92 | `moveEntity` changes only the first entity symbol that refers to the entity. |
| Ops.MoveSymbolReads | src/parsers/DataModel.ts:89-91 | The symbol's `a:Rect` then parses back into the rectangle's corners, and its other fields keep their text. |
| Ops.EntitySymbolNode | src/parsers/DataModel.ts:103-130 | The symbol `createEntity` builds: the `Id`, the eleven symbol fields, then the `c:Object/o:Entity` reference. |
| Ops.EntitySymbolRect | src/parsers/DataModel.ts:110 | The built symbol carries the default rectangle. |
| Ops.EntitySymbolRefers | src/parsers/DataModel.ts:125-130 | The built symbol is a symbol of the entity in the sense `moveEntity` searches for. |
| Ops.CreateEntityShape | src/parsers/DataModel.ts:94-133 | The basic entity goes last in `c:Entities` and its symbol last in `c:Symbols`. Both carry the one id allocated before either is attached. |
| Ops.CreateEntityKeepsPath | src/parsers/DataModel.ts:95-96 | `createEntity` leaves the path to `c:Entities` where it was. |
| Ops.CreateEntityFindable | src/parsers/DataModel.ts:94-133 | When the document holds ids, `findEntity` under the new id finds the new entity. |
| Ops.ListsApart | src/parsers/DataModel.ts:95-96 | Two lists directly under the model with different names lie in separate subtrees. |
| Ops.DomainRefAddress | src/parsers/DataModel.ts:144-148 | The `c:Domain/o:Domain` reference inside the data item, where both exist. |
| Ops.FindDataItemPut | src/parsers/DataModel.ts:135-139 | A data item changed inside but keeping its head is found where it was. |
| Ops.SetDomainForDataItemEffect | src/parsers/DataModel.ts:141-153 | `setDomainForDataItem` rewrites only the `Ref` of the existing reference. The data item is still found under its id, and nothing apart from it changes. |
| Ops.DropChild | src/parsers/DataModel.ts:157-161 | One occurrence of the name goes, the first. The rest stay. |
| Ops.DropChildKeeps | src/parsers/DataModel.ts:157-161 | Dropping a child of another name leaves a field as it was. |
| Ops.RetypeItemNeedsDataType | src/parsers/DataModel.ts:163-165 | Without an `a:DataType` field the call throws. |
| Ops.RetypeItemSucceeds | src/parsers/DataModel.ts:155-184 | An item with a text `a:DataType` and a writable `a:Length` is retyped. |
| Ops.RetypeKeepsLength | src/parsers/DataModel.ts:163-171 | Overwriting `a:DataType` keeps whether and how `a:Length` may be written. |
| Ops.RetypeItemEffect | src/parsers/DataModel.ts:155-184 | The item keeps its head, loses its `c:Domain`, and reads the new type. Where `a:Length` was writable, it reads the new length. |
| Ops.RetypeItemKeeps | src/parsers/DataModel.ts:155-184 | The text of every other field stays. |
| Ops.SetDataTypeAndLengthEffect | src/parsers/DataModel.ts:155-184 | The retyped item replaces the old one where it was and is still found under its id. Its length reads back, and nothing outside it changes. |
| Ops.RetypeItemLength | src/parsers/DataModel.ts:181 | The stored length is the decimal text of the number, and `parseInt` reads it back. |
| Attributes.EnsureChild | src/parsers/DataModel.ts:188-193 | The entity's first `c:Attributes`, or a new empty one appended to the entity. |
| Attributes.EnsureUnder | src/parsers/DataModel.ts:198-203 | `c:DataItems` as `findNode` finds it, or a new empty one appended to the model node. |
| Attributes.EnsureChildFrame | src/parsers/DataModel.ts:188-193 | Ensuring the container keeps every address apart from the entity, and the head and child count of every address above it. |
| Attributes.EnsureUnderKeeps | src/parsers/DataModel.ts:198-203 | Ensuring `c:DataItems` changes nothing inside another child of the model, and lies apart from there. |
| Attributes.AttributeStagePlace | src/parsers/DataModel.ts:188-196 | The first half appends the new basic `o:EntityAttribute` last in the entity's `c:Attributes`. |
| Attributes.AttributeStageContent | src/parsers/DataModel.ts:195-196 | The list then holds the new attribute last, and the document's ids grow by its id. |
| Attributes.AttributeStageIds | src/parsers/DataModel.ts:195-196 | The first half adds the document's next unique id to its ids, and no other id. |
| Attributes.DataItemShape | src/parsers/DataModel.ts:205-210 | The new data item is its `Id`, the seven basic fields, then `a:DataType` and `a:Length`. |
| Attributes.DataItemNamed | src/parsers/DataModel.ts:205 | The data item carries its id and reads back its name. |
| Attributes.DataItemTyped | src/parsers/DataModel.ts:207-210 | The data item reads back the type code built from the type and the length, and the length's decimal text. |
| Attributes.DataItemStagePlace | src/parsers/DataModel.ts:198-212 | The second half appends the new data item last in `c:DataItems`, with the next id of the document it was given. |
| Attributes.DataItemStageContent | src/parsers/DataModel.ts:205-212 | `c:DataItems` then holds the new item last, and the ids grow by its id. |
| Attributes.DataItemStageIds | src/parsers/DataModel.ts:205-212 | The second half adds the next unique id of the document it is given, and no other id. |
| Attributes.NewNodeIds | src/parsers/DataModel.ts:195-205 | The id scan sees exactly one id in the new attribute, and one in the new data item. |
| Attributes.CreateAttributeSteps | src/parsers/DataModel.ts:186-222 | `createAttributeForEntity` has three steps: the first half, the second half on its result, then the reference appended to the new attribute. |
| Attributes.CreateAttributeMiddle | src/parsers/DataModel.ts:186-212 | After both halves, the attribute is last in its list (still without its reference), and the data item is last in `c:DataItems`. |
| Attributes.CreateAttributeItemId | src/parsers/DataModel.ts:205-217 | The data item's id is the second id allocated on the original document, and the reference points at it. |
| Attributes.CreateAttributeIds | src/parsers/DataModel.ts:186-222 | The call adds exactly two ids, the next id and the one after it. Both are new. |
| Attributes.CreateAttributeList | src/parsers/DataModel.ts:186-222 | The entity's `c:Attributes` holds what it held, then the new attribute, whose last child refers to the new data item. |
| Attributes.CreateAttributeItems | src/parsers/DataModel.ts:198-212 | The model's `c:DataItems` holds what it held, then the new data item. |
| Attributes.DropAttribute | src/parsers/DataModel.ts:224-240 | The first `o:EntityAttribute` with that `Id` leaves `c:Attributes`. The container goes when no attribute is left. Either missing node throws. |
| Attributes.DropAttributeEffect | src/parsers/DataModel.ts:224-240 | The attribute removed is the first with that id. The container goes exactly when it was the only attribute. Otherwise it holds one fewer. |
| Attributes.RemoveAttributeForEntity | src/parsers/DataModel.ts:224-240 | `removeAttributeForEntity` on the document: the entity found is replaced by its pruned self. |
| Attributes.RemoveAttributeEffect | src/parsers/DataModel.ts:224-240 | The entity is found where it was, changed as `DropAttribute` says, and nothing apart from it changes. |
| Attributes.RemoveAttributeKeepsItems | src/parsers/DataModel.ts:224-240 | The model's `c:DataItems` is left as it was. The data item is not removed. |
| Identifiers.MissNoReferring | src/parsers/DataModel.ts:242-254 | The search misses exactly when no identifier names the attribute and no child makes the predicate throw. |
| Identifiers.HitReferring | src/parsers/DataModel.ts:242-254 | A hit is an identifier that names the attribute. |
| Identifiers.IdentifiersLeft | src/parsers/DataModel.ts:270-274 | `c:Identifiers` after the hit, if any, is removed. |
| Identifiers.SkipPrimary | src/parsers/DataModel.ts:276-278 | The entity keeps its name and attributes and its `c:Identifiers` child, which it can still locate; when `c:PrimaryIdentifier` is absent or one of its references names the attribute, nothing changes. |
| Identifiers.SkipPrimaryNames | src/parsers/DataModel.ts:276-278 | `c:PrimaryIdentifier` goes exactly when it exists and none of its references names the attribute, and no other child name comes or goes. |
| Identifiers.DropIdentifier | src/parsers/DataModel.ts:256-289 | The three steps of `removeIdentifierForEntity` on the entity element. A throw in any of them is `None`. |
| Identifiers.DropIdentifierIds | src/parsers/DataModel.ts:270-286 | When an `o:Identifier` is left, the entity keeps as its `c:Identifiers` exactly the old container less the identifier the search for the attribute hits. That leaves one fewer such identifier, and none when there was at most one. |
| Identifiers.DropIdentifierNames | src/parsers/DataModel.ts:256-289 | The entity loses `c:PrimaryIdentifier` exactly when the primary is dropped. It loses `c:Identifiers` exactly when no `o:Identifier` is left. No other child changes. |
| Identifiers.IdentifiersOrEmpty | src/parsers/DataModel.ts:304-307 | The list searched: the entity's first `c:Identifiers`, or the empty one created. |
| Identifiers.PrimaryStage | src/parsers/DataModel.ts:309-315 | A primary identifier with no `c:PrimaryIdentifier` creates one holding an `o:Identifier`. |
| Identifiers.Prepared | src/parsers/DataModel.ts:304-315 | The entity once `c:Identifiers` exists, and also `c:PrimaryIdentifier` for a primary identifier. The head stays, and the list searched is at the returned index. A primary call has a place for its reference when `c:PrimaryIdentifier` is missing, since it is then created, or when it already holds an `o:Identifier`. An existing `c:PrimaryIdentifier` without one gives no place. |
| Identifiers.SetRefAt | src/parsers/DataModel.ts:322 | `setAttribute('Ref', …)` on one grandchild changes that node alone. Every name and head stays. |
| Identifiers.AppendInto | src/parsers/DataModel.ts:347 | Appending into one child changes that child alone. Every name stays. |
| Identifiers.AddIdentifier | src/parsers/DataModel.ts:291-350 | The steps of `addIdentifierForEntity` on the entity element, using the id drawn before the call. |
| Identifiers.NewIdentifierRefers | src/parsers/DataModel.ts:335-345 | The new identifier is an `o:Identifier` with the fresh id that names the attribute. |
| Identifiers.RefersAppended | src/parsers/DataModel.ts:339-345 | An identifier without a reference list names the attribute once the list holding its reference is appended. |
| Identifiers.FindReferencingAppend | src/parsers/DataModel.ts:317 | After children that all miss, an appended identifier naming the attribute is the hit. |
| Identifiers.AddIdentifierIds | src/parsers/DataModel.ts:291-350 | Afterwards `c:Identifiers` is the list searched, with the new identifier appended exactly when the search missed. |
| Identifiers.AddIdentifierReferring | src/parsers/DataModel.ts:291-350 | Afterwards as many identifiers name the attribute as before, or one when none did. |
| Identifiers.AddIdentifierPrimary | src/parsers/DataModel.ts:319-323 | A primary identifier leaves the primary reference on the identifier that names the attribute, old or new. |
| Identifiers.AddIdentifierDemotes | src/parsers/DataModel.ts:325-330 | A non-primary identifier for the current primary one removes `c:PrimaryIdentifier`, and nothing else changes. |
| Identifiers.AddIdentifierKeepsPrimary | src/parsers/DataModel.ts:319-333 | Otherwise a non-primary identifier leaves the primary reference as it was. |
| Identifiers.RemoveIdentifierForEntity | src/parsers/DataModel.ts:256-289 | `removeIdentifierForEntity` on the document: the entity found is replaced as `DropIdentifier` says. |
| Identifiers.RemoveIdentifierEffect | src/parsers/DataModel.ts:256-289 | The entity is found where it was, changed as `DropIdentifier` says, and nothing apart from it changes. |
| Identifiers.AddIdentifierForEntity | src/parsers/DataModel.ts:291-350 | `addIdentifierForEntity` on the document, with the next id of the document before the call. |
| Identifiers.AddIdentifierEffect | src/parsers/DataModel.ts:291-350 | The entity is found where it was, changed as `AddIdentifier` says, and nothing apart from it changes. |
| Domains.Retype | src/parsers/DataModel.ts:425-429 | The three fields `a:Name`, `a:DataType` (the code with its length digits) and `a:Length` (the decimal text). |
| Domains.RetypeReads | src/parsers/DataModel.ts:425-429 | A domain whose three fields are absent or hold text takes the three values. The type reads the label of its code, and the length reads back. |
| Domains.RetypeKeeps | src/parsers/DataModel.ts:425-429 | Every other field keeps its text. |
| Domains.SetDataTypeAndLengthForDomain | src/parsers/DataModel.ts:422-432 | `setDataTypeAndLengthForDomain`: a missing domain throws. |
| Domains.SetDataTypeAndLengthForDomainEffect | src/parsers/DataModel.ts:422-432 | The retyped domain replaces the old one where it was and is still found under its id. Nothing apart from it changes. |
| Domains.RemoveDomain | src/parsers/DataModel.ts:434-445 | While any `Ref` names the domain, the answer is `false` and nothing changes. Otherwise the domain leaves `c:Domains` and the answer is `true`. A missing domain throws. |
| Domains.RemoveDomainEffect | src/parsers/DataModel.ts:434-445 | A removal takes out exactly the first `o:Domain` with that id, and nothing apart from `c:Domains` changes. |
| Domains.NewDomain | src/parsers/DataModel.ts:447-455 | The new domain: a basic `o:Domain` with the allocated id, then its three type fields. |
| Domains.CreateDomain | src/parsers/DataModel.ts:447-460 | `createDomain`: a missing `c:Domains` throws. |
| Domains.CreateDomainEffect | src/parsers/DataModel.ts:447-460 | The new domain goes last in `c:Domains`, and nothing apart from that list changes. When the document holds ids, the new domain is found under its id. |
| Relations.SetObjectRef | src/parsers/DataModel.ts:484-508 | The `objectName` child and its `o:Entity` are created when missing. Then the `o:Entity` takes the target as its `Ref`. |
| Relations.SetObjectRefReads | src/parsers/DataModel.ts:484-508 | The reference reads back as the target. |
| Relations.SetObjectRefKeeps | src/parsers/DataModel.ts:484-508 | Every other child keeps its place and content. |
| Relations.SetObjectRefFresh | src/parsers/DataModel.ts:491-503 | Without the child, a whole `<objectName><o:Entity Ref=…/></objectName>` is appended last. |
| Relations.SetObjectRefInPlace | src/parsers/DataModel.ts:496-505 | With the child and its `o:Entity` present, nothing is created and only that child changes. |
| Relations.SetRefOfObjectInRelation | src/parsers/DataModel.ts:484-508 | `setRefOfObjectInRelation`: a missing relationship throws. |
| Relations.SetRefOfObjectInRelationEffect | src/parsers/DataModel.ts:484-508 | The relationship is found where it was, and the reference reads back as the target. The other reference and every field read as before, and nothing apart from it changes. |
| Relations.SetAttributeForRelation | src/parsers/DataModel.ts:463-471 | One round of `setAttributesOnNode` on the relationship found. |
| Relations.SetAttributeForRelationEffect | src/parsers/DataModel.ts:463-471 | A writable field takes the value. The other fields and both references read as before, and nothing apart from the relationship changes. |
| Relations.SetFieldObjectKeeps | src/parsers/DataModel.ts:518-524 | Setting a cardinality leaves the references as they were. |
| Relations.CreateRelation | src/parsers/DataModel.ts:526-539 | A basic `o:Relationship` under the next id is appended. Then the four writes each find it again by id. |
| Relations.CreateRelationSteps | src/parsers/DataModel.ts:526-539 | Each write finds the relationship where it was appended, so the run is one append of the finished node. |
| Relations.CreateRelationShape | src/parsers/DataModel.ts:526-539 | The new relationship goes last in `c:Relationships`. It holds the two references and the two cardinalities after its basic fields, and nothing else changes. |
| Relations.AppendedRelationFound | src/parsers/DataModel.ts:528-533 | The appended node is the one found under the next id. |
| Relations.NewRelationReads | src/parsers/DataModel.ts:533-536 | The new relationship reads back its source, target and both cardinalities, and keeps its id and name. |
| Relations.RelationRefsAppended | src/parsers/DataModel.ts:533-534 | On a new relationship, the two reference writes each append a whole reference. |
| Relations.RelationCardinalitiesAppended | src/parsers/DataModel.ts:535-536 | The two cardinality writes then each append their field. |
| Deletion.FindSymbol | src/parsers/DataModel.ts:406-415 | `findSymbolByObjectId`: the first symbol of that name whose object reference names the id. A missing reference throws. |
| Deletion.DeleteRelation | src/parsers/DataModel.ts:541-550 | `deleteRelation` removes the relationship's symbol, then the relationship. A missing node throws. |
| Deletion.DeleteRelationEffect | src/parsers/DataModel.ts:541-550 | Each list loses exactly the child found, and nothing apart from the two lists changes. |
| Deletion.DeleteRelationKeepsLists | src/parsers/DataModel.ts:541-550 | `deleteRelation` keeps the relationship list and the symbol list where they were. |
| Deletion.DeleteRelationKeepingSymbols | src/parsers/CDMModel.ts:443-448 | The earlier `deleteRelation` removes only the relationship. |
| Deletion.DeleteRelationKeepingSymbolsEffect | src/parsers/CDMModel.ts:443-448 | The relationships lose exactly the first one with that id, and the symbols stay as they were. |
| Deletion.RelatedRelationIdsDefined | src/parsers/DataModel.ts:359-366 | The filter succeeds exactly when no child makes it throw. |
| Deletion.RelatedRelationIdsSound | src/parsers/DataModel.ts:359-366 | Every id listed is the `Id` of a relationship whose source or target is the entity. |
| Deletion.RelatedRelationIdsComplete | src/parsers/DataModel.ts:359-366 | The `Id` of every such relationship is listed. |
| Deletion.DeleteRelationsCount | src/parsers/DataModel.ts:368 | Each deleted id takes one child out of the relationships and one out of the symbols. |
| Deletion.DeleteRelationsFrame | src/parsers/DataModel.ts:368 | Deleting relationships changes nothing apart from the two lists. |
| Deletion.RemoveSymbols | src/parsers/DataModel.ts:374-378 | The entity symbol goes, then the note link when there is one, with the index shifted after the first removal. |
| Deletion.RemoveSymbolsRemoves | src/parsers/DataModel.ts:374-378 | Exactly the symbols named go: the entity's own one and, when there is one, the second, whatever their order; every other symbol stays, as often as before. |
| Deletion.SymbolsToRemove | src/parsers/DataModel.ts:370-372 | The positions of the entity's symbol and of the note link to it. |
| Deletion.SymbolsToRemoveSpec | src/parsers/DataModel.ts:370-372 | The first position is the first entity symbol referring to the entity. The second is the first note link whose source is that symbol, and is absent exactly when none is. |
| Deletion.DeleteEntity | src/parsers/DataModel.ts:352-381 | `deleteEntity` has four steps: the related relationships with their symbols, the entity symbol, its note link, then the entity. |
| Deletion.DeleteEntityStage | src/parsers/DataModel.ts:368 | Deleting the relationships leaves the entity list, the entity found, and the symbol list where they were. |
| Deletion.DeleteEntityEntities | src/parsers/DataModel.ts:380 | `c:Entities` loses exactly the first entity with that id. Every other entity stays, in order. |
| Deletion.DeleteEntitySymbols | src/parsers/DataModel.ts:368-378 | `c:Symbols` loses one symbol per relationship deleted, then the entity's symbol, then the note link when there is one. |
| Deletion.DeleteEntityRelationships | src/parsers/DataModel.ts:368 | `c:Relationships` loses one relationship per related id. |
| Deletion.DeleteEntityRemovesRelationships | src/parsers/DataModel.ts:357-368 | Where relationship ids are distinct: no relationship left refers to the entity through `c:Object1` or `c:Object2`, every other child of `c:Relationships` stays, and none is added. |
| Deletion.DeleteEntityRemovesRelationSymbols | src/parsers/DataModel.ts:357-368 | Where ids are distinct and each relationship has at most one symbol: no symbol of a relationship that referred to the entity is left, and no symbol is added. |
| Deletion.RemainingRelationUnrelated | src/parsers/DataModel.ts:357-368 | A relationship still there after `deleteEntity` does not refer to the entity. |
| Deletion.UnrelatedRelationKept | src/parsers/DataModel.ts:357-368 | A child of `c:Relationships` that is not a relationship referring to the entity is still there. |
| Deletion.RelatedIdAt | src/parsers/DataModel.ts:357-366 | Where ids are distinct, a relationship's id is collected exactly when its `c:Object1` or `c:Object2` refers to the entity. |
| Deletion.CollectedIdIsRelated | src/parsers/DataModel.ts:357-366 | Where ids are distinct, a relationship whose id is collected is one the filter keeps. |
| Deletion.RelatesToLocal | src/parsers/DataModel.ts:359-365 | Where ids are distinct, the lookups by `Id` in the filter read the relationship's own `c:Object1` and `c:Object2`. |
| Deletion.DeleteRelationsLeaveRelations | src/parsers/DataModel.ts:368 | Deleting relationships by id keeps the ids distinct, adds nothing, keeps every child not named, and leaves no relationship with a deleted id. |
| Deletion.DeleteRelationsLeaveSymbols | src/parsers/DataModel.ts:368 | Where each relationship has at most one symbol, deleting relationships by id adds no symbol and leaves none for a deleted id. |
| Deletion.DeleteEntityFrame | src/parsers/DataModel.ts:352-381 | Nothing apart from the three lists changes. |
| Engine.FindNodeByPath | src/parsers/DataModel.ts:27-35 | The loop over the dot-separated segments returns what `Resolve` specifies: the node, `undefined`, or a throw. |
| Engine.FindNodeBySegments | src/parsers/DataModel.ts:30-32 | The loop's answer is `Resolve` of the segments. |
| Engine.UndefinedStaysUndefined | src/parsers/DataModel.ts:30-32 | Once a step answers `undefined`, the next step throws. |
| Engine.ModelPathSplit | src/parsers/DataModel.ts:23-25 | The prefixed path splits into the model path followed by the segments of the relative path. |
| Engine.SetAttributesOnNode | src/parsers/DataModel.ts:577-591 | The loop over the keys returns `SetFields` of the node. |
| Engine.DataModel.constructor | src/parsers/DataModel.ts:7 | A new engine holds an empty document. |
| Engine.DataModel.LoadFromXml | src/parsers/DataModel.ts:15-17 | The document is the parse of the text with every `&` replaced by the placeholder. |
| Engine.DataModel.GetAsXml | src/parsers/DataModel.ts:612-615 | The text is `Store.GetAsXml` of the serialized document element. |
| Engine.DataModel.FindNode | src/parsers/DataModel.ts:23-25 | The answer is `Resolve` of the model path followed by the relative path. It is found exactly when `Ops.FindNode` finds it. |
| Engine.DataModel.SetAttributeForEntity | src/parsers/DataModel.ts:51-58 | The document becomes `Ops.SetAttributeForEntity` of the old one. The method is callable exactly where the source does not throw. |
| Engine.DataModel.SetDataItemRefForEntity | src/parsers/DataModel.ts:63-77 | The document becomes `Ops.SetDataItemRefForEntity` of the old one. |
| Engine.DataModel.MoveEntity | src/parsers/DataModel.ts:79-92 | The document becomes `Ops.MoveEntity` of the old one. |
| Engine.DataModel.CreateEntity | src/parsers/DataModel.ts:94-133 | The document becomes `Ops.CreateEntity` of the old one, with this revision's font list. |
| Engine.DataModel.SetDomainForDataItem | src/parsers/DataModel.ts:141-153 | The document becomes `Ops.SetDomainForDataItem` of the old one. |
| Engine.DataModel.SetDataTypeAndLengthForDataItem | src/parsers/DataModel.ts:155-184 | The document becomes `Ops.SetDataTypeAndLengthForDataItem` of the old one. |
| Engine.DataModel.CreateAttributeForEntity | src/parsers/DataModel.ts:186-222 | The document becomes `Attributes.CreateAttributeForEntity` of the old one. |
| Engine.DataModel.RemoveAttributeForEntity | src/parsers/DataModel.ts:224-240 | The document becomes `Attributes.RemoveAttributeForEntity` of the old one. |
| Engine.DataModel.RemoveIdentifierForEntity | src/parsers/DataModel.ts:256-289 | The document becomes `Identifiers.RemoveIdentifierForEntity` of the old one. |
| Engine.DataModel.AddIdentifierForEntity | src/parsers/DataModel.ts:291-350 | The document becomes `Identifiers.AddIdentifierForEntity` of the old one. |
| Engine.DataModel.DeleteEntity | src/parsers/DataModel.ts:352-381 | The document becomes `Deletion.DeleteEntity` of the old one. |
| Engine.DataModel.SetDataTypeAndLengthForDomain | src/parsers/DataModel.ts:422-432 | The document becomes `Domains.SetDataTypeAndLengthForDomain` of the old one. |
| Engine.DataModel.RemoveDomain | src/parsers/DataModel.ts:434-445 | The answer and the new document are `Domains.RemoveDomain` of the old one. |
| Engine.DataModel.CreateDomain | src/parsers/DataModel.ts:447-460 | The document becomes `Domains.CreateDomain` of the old one. |
| Engine.DataModel.SetAttributeForRelation | src/parsers/DataModel.ts:463-471 | The document becomes `Relations.SetAttributeForRelation` of the old one. |
| Engine.DataModel.SetFromRefOfRelation | src/parsers/DataModel.ts:510-512 | The document becomes `Relations.SetRefOfObjectInRelation` under `c:Object1`. |
| Engine.DataModel.SetToRefOfRelation | src/parsers/DataModel.ts:514-516 | The document becomes `Relations.SetRefOfObjectInRelation` under `c:Object2`. |
| Engine.DataModel.SetFromCardinalityOfRelation | src/parsers/DataModel.ts:518-520 | The document becomes `Relations.SetAttributeForRelation` on the Entity1-to-Entity2 cardinality. |
| Engine.DataModel.SetToCardinalityOfRelation | src/parsers/DataModel.ts:522-524 | The document becomes `Relations.SetAttributeForRelation` on the Entity2-to-Entity1 cardinality. |
| Engine.DataModel.CreateRelation | src/parsers/DataModel.ts:526-539 | The document becomes `Relations.CreateRelation` of the old one. |
| Engine.DataModel.DeleteRelation | src/parsers/DataModel.ts:541-550 | The document becomes `Deletion.DeleteRelation` of the old one. |
| Engine.CDMModel.constructor | src/parsers/CDMModel.ts:7 | A new engine holds an empty document. |
| Engine.CDMModel.LoadFromXml | src/parsers/CDMModel.ts:9-11 | The document is the parse of the text as it is. |
| Engine.CDMModel.GetAsXml | src/parsers/CDMModel.ts:502-504 | The text is the serialized document element alone. |
| Engine.CDMModel.FindNode | src/parsers/CDMModel.ts:16-28 | The answer is `Resolve` of the model path followed by the relative path. |
| Engine.CDMModel.SetAttributeForEntity | src/parsers/CDMModel.ts:44-50 | The document becomes `Ops.SetAttributeForEntity` of the old one. |
| Engine.CDMModel.SetDataItemRefForEntity | src/parsers/CDMModel.ts:52-65 | The document becomes `Ops.SetDataItemRefForEntity` of the old one. |
| Engine.CDMModel.MoveEntity | src/parsers/CDMModel.ts:67-80 | The document becomes `Ops.MoveEntity` of the old one. |
| Engine.CDMModel.CreateEntity | src/parsers/CDMModel.ts:82-121 | The document becomes `Ops.CreateEntity` of the old one, with this revision's font list. |
| Engine.CDMModel.SetDomainForDataItem | src/parsers/CDMModel.ts:129-141 | The document becomes `Ops.SetDomainForDataItem` of the old one. |
| Engine.CDMModel.SetDataTypeAndLengthForDataItem | src/parsers/CDMModel.ts:143-173 | The document becomes `Ops.SetDataTypeAndLengthForDataItem` of the old one. |
| Engine.CDMModel.CreateAttributeForEntity | src/parsers/CDMModel.ts:175-211 | The document becomes `Attributes.CreateAttributeForEntity` of the old one. |
| Engine.CDMModel.RemoveAttributeForEntity | src/parsers/CDMModel.ts:213-229 | The document becomes `Attributes.RemoveAttributeForEntity` of the old one. |
| Engine.CDMModel.RemoveIdentifierForEntity | src/parsers/CDMModel.ts:240-266 | The document becomes `Identifiers.RemoveIdentifierForEntity` of the old one. |
| Engine.CDMModel.AddIdentifierForEntity | src/parsers/CDMModel.ts:268-317 | The document becomes `Identifiers.AddIdentifierForEntity` of the old one. |
| Engine.CDMModel.SetDataTypeAndLengthForDomain | src/parsers/CDMModel.ts:334-344 | The document becomes `Domains.SetDataTypeAndLengthForDomain` of the old one. |
| Engine.CDMModel.RemoveDomain | src/parsers/CDMModel.ts:346-356 | The answer and the new document are `Domains.RemoveDomain` of the old one. |
| Engine.CDMModel.CreateDomain | src/parsers/CDMModel.ts:358-372 | The document becomes `Domains.CreateDomain` of the old one. |
| Engine.CDMModel.SetAttributeForRelation | src/parsers/CDMModel.ts:375-383 | The document becomes `Relations.SetAttributeForRelation` of the old one. |
| Engine.CDMModel.SetRefOfObjectInRelation | src/parsers/CDMModel.ts:385-409 | The document becomes `Relations.SetRefOfObjectInRelation` of the old one. This method is public in this revision. |
| Engine.CDMModel.SetFromRefOfRelation | src/parsers/CDMModel.ts:411-413 | The reference under `c:Object1` is set. |
| Engine.CDMModel.SetToRefOfRelation | src/parsers/CDMModel.ts:415-417 | The reference under `c:Object2` is set. |
| Engine.CDMModel.SetFromCardinalityOfRelation | src/parsers/CDMModel.ts:419-421 | The Entity1-to-Entity2 cardinality is set. |
| Engine.CDMModel.SetToCardinalityOfRelation | src/parsers/CDMModel.ts:423-425 | The Entity2-to-Entity1 cardinality is set. |
| Engine.CDMModel.CreateRelation | src/parsers/CDMModel.ts:427-441 | The document becomes `Relations.CreateRelation` of the old one. |
| Engine.CDMModel.DeleteRelation | src/parsers/CDMModel.ts:443-448 | The document becomes `Deletion.DeleteRelationKeepingSymbols` of the old one. |
| Engine.CDMModelFirst.constructor | src/parsers/CDMModel.tsx:4 | A new engine holds an empty document. |
| Engine.CDMModelFirst.LoadFromXml | src/parsers/CDMModel.tsx:6-8 | The document is the parse of the text as it is. |
| Engine.CDMModelFirst.GetAsXml | src/parsers/CDMModel.tsx:117-119 | The text is the serialized document element alone. |
| Engine.CDMModelFirst.FindNode | src/parsers/CDMModel.tsx:10-26 | `getNestedAttribute` is `findNodeByPath`: the answer is `Resolve` of the model path followed by the relative path. |
| Engine.CDMModelFirst.SetAttributeForEntity | src/parsers/CDMModel.tsx:38-44 | The document becomes `Ops.SetAttributeForEntity` of the old one. |
| Engine.CDMModelFirst.SetDataItemRefForEntity | src/parsers/CDMModel.tsx:46-59 | The document becomes `Ops.SetDataItemRefForEntity` of the old one. |
| Engine.CDMModelFirst.SetDomainForDataItem | src/parsers/CDMModel.tsx:67-79 | The document becomes `Ops.SetDomainForDataItem` of the old one. |
| Engine.CDMModelFirst.SetDataTypeAndLengthForDataItem | src/parsers/CDMModel.tsx:81-115 | The document becomes `Ops.SetDataTypeAndLengthForDataItem` of the old one. |
| Readers.Dollar | src/parsers/modelParser.ts:112 | `obj['$'][key]`. It throws when the element has no attributes. Otherwise it is the attribute, or `undefined`. |
| Readers.FirstIsFieldChild | src/parsers/modelParser.ts:11 | `obj[key][0]` is the child `getChildNodeForName` finds, and exists exactly when that child does. |
| Readers.GroupOfFirst | src/parsers/modelParser.ts:11 | The children that xml2js groups under a key are non-empty exactly when a child of that name exists. The first of them is the first such child. |
| Readers.FollowLocate | src/parsers/modelParser.ts:11 | Following `[key][0]` along a path reaches the node `Locate` reaches, and fails exactly when `Locate` does. |
| Readers.ValueOfField | src/parsers/modelParser.ts:113-114 | A field the engine writes reads as the value it was written with. |
| Readers.MapAll | src/parsers/modelParser.ts:110-135 | `map` succeeds exactly when every call does. The result has one element per input, in order. |
| Readers.KeyedFold | src/parsers/modelParser.ts:75-80 | The `reduce` into an object succeeds exactly when every entry does. |
| Readers.KeyedFoldKeys | src/parsers/modelParser.ts:75-80 | Every key of the object comes from an element. |
| Readers.KeyedFoldLastWins | src/parsers/modelParser.ts:76-78 | The last element with a key decides that key's value. |
| Readers.RectLocationRoundTrip | src/parsers/modelParser.ts:39-44 | Reading the text `moveEntity` writes gives back the rectangle it was moved to. |
| Readers.SymbolRectAfterMove | src/parsers/DataModel.ts:89-91 | After `moveEntity`'s write on a symbol whose `a:Rect` is absent or a single text, the readers see the new rectangle. |
| ModelParser.KeysFor | src/parsers/modelParser.ts:21-35 | The keys of each dialect. Physical models use one cardinality key for both ends, and conceptual models use two. |
| ModelParser.DialectsDiffer | src/parsers/modelParser.ts:21-35 | The two dialects differ in every key the reader uses, so the flag decides what is read. In each dialect, a symbol's object and a relation's reference share one key. |
| ModelParser.SymbolEntry | src/parsers/modelParser.ts:38-45 | One symbol gives the key of its object's `Ref` and its rectangle, and succeeds exactly when both are there. |
| ModelParser.Coordinates | src/parsers/modelParser.ts:37-48 | Without `c:Symbols` the result is `{}`. |
| ModelParser.DomainEntry | src/parsers/modelParser.ts:53-61 | The key is the domain's id. Without `a:DataType` the data type is `''`, and without `a:Length` the length is `0`. |
| ModelParser.Domains | src/parsers/modelParser.ts:53-64 | Without `c:Domains` the collection is empty. |
| ModelParser.AsAttribute | src/parsers/modelParser.ts:66-73 | Without `a:DataType` the data type is `''`, and without `a:Length` the length is `0`. The domain and data item references default to `undefined`. |
| ModelParser.DataItemEntry | src/parsers/modelParser.ts:75-79 | The key is the data item's id, and the value is `getAsAttribute` of it. |
| ModelParser.DataItems | src/parsers/modelParser.ts:75-80 | Without `c:DataItems` the collection is empty. |
| ModelParser.ReadRelation | src/parsers/modelParser.ts:90-103 | The id is the `Id` attribute and the name is `a:Name`. Each end's reference goes through the dialect's keys for that end, and each end's cardinality is the text under the dialect's cardinality key for that end. The two cardinalities are equal whenever the dialect uses one key for both. |
| ModelParser.RelationAt | src/parsers/modelParser.ts:91-103 | Relation j of a successful relations read is `ReadRelation` of the j-th relation node, and there are as many relations as nodes. |
| ModelParser.ConceptualRelationRead | src/parsers/modelParser.ts:91-103 | In a conceptual read, relation j has the id and name of the j-th `o:Relationship`. Its ends are the `Ref`s under `c:Object1` and `c:Object2`, with `a:Entity1ToEntity2RoleCardinality` at the source and `a:Entity2ToEntity1RoleCardinality` at the target. |
| ModelParser.PhysicalRelationRead | src/parsers/modelParser.ts:91-103 | In a physical read, relation j has the id and name of the j-th `o:Reference`. Its ends are the `Ref`s under `c:ParentTable` and `c:ChildTable`, and both carry its `a:Cardinality`. |
| ModelParser.Relations | src/parsers/modelParser.ts:89-104 | Without the relations collection the result is `[]`. |
| ModelParser.ReadAttribute | src/parsers/modelParser.ts:116-124 | With a reference, the attribute is the data item it names plus `dataItemId`, or only the reference when the item is unknown. Without one, it is `getAsAttribute` of the attribute. |
| ModelParser.ReadIdentifier | src/parsers/modelParser.ts:127-131 | `isPrimary` holds exactly when the entity has `c:PrimaryIdentifier` and its reference is this identifier's id. |
| ModelParser.ReadEntity | src/parsers/modelParser.ts:110-134 | The entity carries the node's id and the location stored under that id. Missing attributes or identifiers give `[]`. Otherwise the attributes are the dialect's attribute objects read one by one with `ReadAttribute`, and the identifiers are the `o:Identifier` nodes read one by one with `ReadIdentifier`. |
| ModelParser.ReadEntityAttribute | src/parsers/modelParser.ts:115-124 | Attribute k of an entity read is `ReadAttribute` of its k-th attribute object. There are as many attributes as objects. |
| ModelParser.ReadEntityIdentifier | src/parsers/modelParser.ts:126-131 | Identifier k of an entity read is `ReadIdentifier` of its k-th `o:Identifier`. There are as many identifiers as nodes. |
| ModelParser.RootModel | src/parsers/modelParser.ts:11 | The root model exists exactly when the document element is `Model` and the model path is found. It is the node there. |
| ModelParser.GetAsJsonParts | src/parsers/modelParser.ts:109-139 | A read is the relations, the data items, and the entities mapped over the symbol map. |
| ModelParser.GetAsJsonEntities | src/parsers/modelParser.ts:109-135 | There is one entity per entity node, in order, each with the node's id and its id's entry in the symbol map. Entity j is `ReadEntity` of node j against the data items of the same read. |
| ModelParser.EntityAttributeRead | src/parsers/modelParser.ts:115-124 | In a whole read, attribute k of entity j follows its `c:DataItem` reference. A known item is copied with `dataItemId` set, and an unknown one leaves only the reference. Without a reference it is `getAsAttribute` of the attribute. |
| ModelParser.EntityIdentifierPrimary | src/parsers/modelParser.ts:126-131 | In a whole read, identifier k of entity j has the id of its node. It is primary exactly when the entity's `c:PrimaryIdentifier` refers to that id. |
| ModelParser.EntityLocationLastSymbol | src/parsers/modelParser.ts:37-48 | An entity's location is the rectangle of the last symbol that refers to it. |
| ModelParser.PhysicalCardinalities | src/parsers/modelParser.ts:93-102 | In a physical model every relation has the same cardinality at both ends. |
| ModelParser.RelationsSameCardinality | src/parsers/modelParser.ts:93-102 | With one key for both ends, every relation read has equal cardinalities. |
| ModelParserConceptual.DataItemEntry | src/parsers/modelParser.tsx:37-46 | The key is the data item's id. Without `a:DataType` the data type is `''`, and without `a:Length` the length is `0`. The domain is `undefined` without `c:Domain`, and otherwise it is the `Ref` under it. |
| ModelParserConceptual.ReadAttribute | src/parsers/modelParser.tsx:69-72 | The attribute is read exactly when its id and its data item reference are both there. |
| ModelParserConceptual.ReadIdentifier | src/parsers/modelParser.tsx:74-78 | The attribute reference is required. `isPrimary` is as in the current reader. |
| ModelParserConceptual.ReadEntity | src/parsers/modelParser.tsx:64-81 | `c:Attributes` is required, and the attributes are read from it in order. The id rules, the location rules and the empty-identifier rule are as in the current reader. With `c:Identifiers`, the identifiers are its `o:Identifier` nodes read one by one with `ReadIdentifier`. |
| ModelParserConceptual.ReadEntityIdentifier | src/parsers/modelParser.tsx:73-79 | Identifier k of an entity read is `ReadIdentifier` of its k-th `o:Identifier`. There are as many identifiers as nodes. |
| ModelParserConceptual.EntityRead | src/parsers/modelParser.tsx:63-82 | In a whole read, entity j is `ReadEntity` of the j-th `o:Entity` against the symbol map. |
| ModelParserConceptual.EntityIdentifierPrimary | src/parsers/modelParser.tsx:73-79 | In a whole read, identifier k of entity j has its node's id and the `Ref` of its attribute. It is primary exactly when the entity's `c:PrimaryIdentifier` refers to that id. |
| ModelParserConceptual.RelationRead | src/parsers/modelParser.tsx:48-61 | Relation j has the id and name of the j-th `o:Relationship`. Its ends are the `Ref`s under `c:Object1` and `c:Object2`, with `a:Entity1ToEntity2RoleCardinality` at the source and `a:Entity2ToEntity1RoleCardinality` at the target. |
| ModelParserConceptual.RequiredCollections | src/parsers/modelParser.tsx:13-61 | A read succeeds only with entities, symbols, domains and data items, and with `c:Attributes` on every entity. Without relationships, the relations are `[]`. |
| ModelParserConceptual.EntitiesInOrder | src/parsers/modelParser.tsx:64-72 | There is one entity per `o:Entity`, in order, with the `Ref` of every attribute's data item, in order. |
| ModelParserFirst.DataItemEntry | src/parsers/modelParser.js:19-25 | A data item is read exactly when its id and name are there, and its key is its id. |
| ModelParserFirst.ReadEntity | src/parsers/modelParser.js:41-46 | `attributeIds` is the data item `Ref` of each attribute, in order. The location is the one stored under the id. |
| ModelParserFirst.AttributeIdsInOrder | src/parsers/modelParser.js:44 | Each entity lists the data item references of all its attributes, in order. |
| ModelParserFirst.AttributesById | src/parsers/modelParser.js:19-25 | `attributes` maps an id to that data item's id and name. The last item with that id decides. |
| ModelParserFirst.RelationsRequired | src/parsers/modelParser.js:27-38 | A read needs `c:Relationships`. It gives one relation per `o:Relationship`, in order, with its id, its name and both references. The source end's cardinality is `a:Entity1ToEntity2RoleCardinality` and the target end's is `a:Entity2ToEntity1RoleCardinality`. |
| DataTypes.AllTypes | src/helpers/DataTypeHelper.ts:26-28 | The label table's keys are exactly the listed codes, and `""` is labelled "Undefined". |
| DataTypes.TableShape | src/helpers/DataTypeHelper.ts:2-24 | The table has 21 codes. `""` is labelled "Undefined" and "DT" is labelled "Date & Time". |
| DataTypes.TableDistinct | src/helpers/DataTypeHelper.ts:2-24 | The 21 codes are distinct. |
| DataTypes.TableNoDigit | src/helpers/DataTypeHelper.ts:2-24 | No code holds a digit. |
| DataTypes.WithoutLength | src/helpers/DataTypeHelper.ts:30-32 | Every digit is removed and every other character is kept in order. |
| DataTypes.WithoutLengthNoDigit | src/helpers/DataTypeHelper.ts:30-32 | Text without digits is left as it is. |
| DataTypes.WithoutLengthIdempotent | src/helpers/DataTypeHelper.ts:30-32 | Removing the digits twice is removing them once. |
| DataTypes.WithoutLengthSuffix | src/helpers/DataTypeHelper.ts:30-32 | A code followed by length digits strips to the stripped code. |
| DataTypes.WithoutLengthExample | src/helpers/DataTypeHelper.ts:30-32 | "VA255" strips to "VA". |
| DataTypes.BuildTypeIdentifier | src/parsers/modelParser.test.ts:127 | The code followed by the length's text. The code strips back out of it and the length parses back. |
| DataTypes.LabelForDataType | src/helpers/DataTypeHelper.ts:34-36 | There is a label exactly when the stripped code is in the table. |
| DataTypes.LabelWithLength | src/helpers/DataTypeHelper.ts:34-36 | Every table code, with or without length digits, reads its own label. |
| DataTypes.LabelOfBuiltType | src/helpers/DataTypeHelper.ts:34-36 | A type code the engine builds reads the label of the code it was built from. |
| Distance.LengthX | src/helpers/DistanceHelper.ts:2-8 | The result is never negative. Left of the origin it is the distance to the left edge. Otherwise it is the left edge's magnitude plus the number. |
| Distance.LengthY | src/helpers/DistanceHelper.ts:10-16 | The result is never negative. In both branches it is the distance between the number and the top edge. |
| Distance.LengthYIsDistance | src/helpers/DistanceHelper.ts:10-16 | Both branches of the Y length measure the same distance. |
| Distance.LengthXAtZero | src/helpers/DistanceHelper.ts:2-8 | From the origin, the X length is the magnitude of the left edge. |
| Distance.LengthYAtSelf | src/helpers/DistanceHelper.ts:10-16 | A non-negative Y coordinate is at length 0 from itself. |
| Distance.LengthXGrows | src/helpers/DistanceHelper.ts:2-8 | For non-negative coordinates, the X length grows one for one. |

## Left out

- XML parsing and serializing (xmldom's `DOMParser` and `XMLSerializer`, xml2js's `parseString`) are parameters of the model. The readers start from the parsed tree, and the callback wrapper around them is not modelled.
- `getUid` and the uuids it draws are parameters of each creating operation.
- The fixed timestamps are kept as the literal texts that the source writes.
- A call that throws is `None`, and the engine's methods require success. The DOM nodes a throwing call changed before the throw are not modelled, and neither is the return of element references to callers.
- Object identity is not modelled: the engine's values are trees, so aliasing between returned elements and the document is out of scope.
- `getNextUniqueId` and `getUsageCount` scan the serialized text with regular expressions. The model scans the attributes of the tree. It does not model attribute text that only looks like an id inside a text node or a comment.
- The two `console.log` calls in `setDataTypeAndLengthForDataItem` (src/parsers/CDMModel.tsx:96 and :112) are I/O and are left out. They change no document state. The `.tsx` reader's `logger` (src/parsers/modelParser.tsx:89-92) is never called and is left out too.
- The `new Document()` of a fresh engine is an empty element. The DOM's document node, which has no `documentElement`, is not modelled.
- Numbers are unbounded integers. JavaScript doubles, `NaN` in arithmetic, and the exponent notation of huge numbers are not modelled. Where a reader parses a coordinate, a failed parse is `None`.
- `setAttributeForRelation` takes an `any` value. It is modelled as text, which is how the DOM stores it.
- `Engine.CDMModel.SetRefOfObjectInRelation`: requires that the object name is not `#text`. An element cannot have that name, and the source only passes `c:Object1` and `c:Object2`.
- xml2js is modelled over the same tree. A field with attributes or with element children is read as its text. The `_` and `$` split that xml2js makes of such fields is not modelled, and neither are its whitespace options.
- JavaScript object key order is not modelled, and neither are keys shadowed by the prototype (`__proto__`). Maps stand for the objects built by `reduce`.
- DataTypes.LabelForDataType: the source indexes a plain object. A key the prototype supplies, such as `constructor` or `toString`, gives an inherited function there. The model answers `None` for it.
- An absent `c:Domains` or `c:DataItems` yields `[]` in the source. The model treats it as an empty map, and both read as having no keys.
- Deletion.DeleteEntityRelationships: counts the relationships removed, one per related id, for any document. The full cascade (`Deletion.DeleteEntityRemovesRelationships`, `Deletion.DeleteEntityRemovesRelationSymbols`) is proved only where relationship ids are distinct, as the id allocator makes them. For the symbols, each relationship must also have at most one symbol, since `deleteRelation` removes only the first. With two relationships sharing an id, the source can delete the wrong one.
- Readers.SymbolRectAfterMove: proves the round trip at the level of one symbol. It is not proved as a whole-model `moveEntity` followed by `getAsJson`, because the writer changes the first symbol of an entity and the reader keeps the last one. `ModelParser.EntityLocationLastSymbol` states the reader's side.
- Ops.FindNode, Ops.FindEntity and the other lookups are plain functions without contracts of their own. What they find is stated by the lemmas beside them (`Ops.EntityFound`, `Ops.EntityAddress`, `Ops.FoundAt`).
- The remaining modules of the repository (React components, diagrams, editors, the download helper) are outside the engine and are not modelled.
