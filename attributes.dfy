/** Attributes of an entity: `createAttributeForEntity` (an
    `o:EntityAttribute` under the entity's `c:Attributes`, a new `o:DataItem`
    under the model's `c:DataItems`, and the reference from the first to the
    second) and `removeAttributeForEntity` (with the "no empty
    `c:Attributes`" cleanup). */
module Attributes {
  import opened Xml
  import opened Numbers
  import opened Store
  import opened Ops
  import opened DataTypes

  /** A document together with the address of a node in it. */
  datatype Placed = Placed(doc: Node, addr: seq<nat>)

  /** `findChildNode(parent, nodeName === name)`, appending a new empty element
      of that name to the parent when there is none. */
  function EnsureChild(doc: Node, a: seq<nat>, name: string): (r: Option<Placed>)
    ensures r.Some? <==> At(doc, a).Some? && At(doc, a).value.Element?
    ensures r.Some? ==> (|r.value.addr| == |a| + 1 && r.value.addr[..|a|] == a
      && At(r.value.doc, r.value.addr).Some? && NodeName(At(r.value.doc, r.value.addr).value) == name)
    ensures r.Some? && Find(doc, a, Named(name)).Some? ==> r.value == Placed(doc, Find(doc, a, Named(name)).value)
    ensures r.Some? && Find(doc, a, Named(name)).None? ==>
      (r.value.addr == a + [|Kids(At(doc, a).value)|]
       && r.value.doc == Put(doc, a, AppendChild(At(doc, a).value, Empty(name)))
       && At(r.value.doc, r.value.addr) == Some(Empty(name)))
  {
    match Find(doc, a, Named(name))
    case Some(b) => Some(Placed(doc, b))
    case None =>
      var n :- At(doc, a);
      if n.Text? then None
      else
        var d := Put(doc, a, AppendChild(n, Empty(name)));
        AtPut(doc, a, AppendChild(n, Empty(name)));
        AtConcat(d, a, [|n.children|]);
        assert (a + [|n.children|])[..|a|] == a;
        Some(Placed(d, a + [|n.children|]))
  }

  /** `findNodeByPath(up + [name])`; when that answers `undefined`, a new
      empty element `name` is appended to the node at `up` (for `c:DataItems`,
      `up` is the model path and that node is `getModelNode()`). */
  function EnsureUnder(doc: Node, up: seq<string>, name: string): (r: Option<Placed>)
    ensures r.Some? <==> Locate(doc, up).Some? && At(doc, Locate(doc, up).value).value.Element?
    ensures r.Some? ==> (var m := Locate(doc, up).value;
      |r.value.addr| == |m| + 1 && r.value.addr[..|m|] == m
      && At(r.value.doc, r.value.addr).Some? && NodeName(At(r.value.doc, r.value.addr).value) == name)
    ensures r.Some? && Locate(doc, up + [name]).Some? ==> r.value == Placed(doc, Locate(doc, up + [name]).value)
    ensures r.Some? && Locate(doc, up + [name]).None? ==>
      (var m := Locate(doc, up).value;
       var parent := At(doc, m).value;
       r.value.addr == m + [|Kids(parent)|]
       && r.value.doc == Put(doc, m, AppendChild(parent, Empty(name)))
       && At(r.value.doc, r.value.addr) == Some(Empty(name)))
  {
    var path := up + [name];
    assert path[..|path| - 1] == up;
    LocateSnoc(doc, up, name);
    match Resolve(doc, path)
    case Crash => None
    case Found(b) =>
      var m := Locate(doc, up).value;
      var i := FirstIndex(Kids(At(doc, m).value), Named(name)).value;
      assert b == m + [i];
      AtChild(doc, m, i);
      StepBelow(m, i);
      assert NodeName(At(doc, b).value) == name;
      Some(Placed(doc, b))
    case Undefined =>
      var m := Locate(doc, up).value;
      var parent := At(doc, m).value;
      if parent.Text? then None
      else
        var d := Put(doc, m, AppendChild(parent, Empty(name)));
        AtPut(doc, m, AppendChild(parent, Empty(name)));
        AtChild(d, m, |parent.children|);
        StepBelow(m, |parent.children|);
        Some(Placed(d, m + [|parent.children|]))
  }

  /** The two fields `createAttributeForEntity` sets on the new data item. */
  function ItemFields(dataType: string, length: int): seq<(string, string)>
  {
    [("a:DataType", BuildTypeIdentifier(dataType, length)), ("a:Length", IntToString(length))]
  }

  /** The first half of `createAttributeForEntity`: the entity's
      `c:Attributes` (created when missing) gets a new `o:EntityAttribute`.
      Answers the new document and the address of the new attribute. */
  function AppendAttribute(doc: Node, e: seq<nat>, name: string, objectId: string, code: string): (r: Option<Placed>)
  {
    var attributes :- EnsureChild(doc, e, "c:Attributes");
    var attribute := BuildBasicNode("o:EntityAttribute", NextUniqueId(attributes.doc), name, objectId, code);
    var list := At(attributes.doc, attributes.addr).value;
    var doc2 :- AppendAt(attributes.doc, attributes.addr, attribute);
    Some(Placed(doc2, attributes.addr + [|Kids(list)|]))
  }

  /** The second half: the `c:DataItems` of the node at `up` (created when
      `undefined`; `up` is `ModelPath`) gets a new `o:DataItem` carrying the
      type code and the length. Answers the new document and the new data item. */
  function AppendDataItem(doc: Node, up: seq<string>, name: string, dataType: string, length: int,
                          objectId: string, code: string): (r: Option<(Node, Node)>)
  {
    var items :- EnsureUnder(doc, up, "c:DataItems");
    var basic := BuildBasicNode("o:DataItem", NextUniqueId(items.doc), name, objectId, code);
    var item :- SetFields(basic, ItemFields(dataType, length));
    var doc4 :- AppendAt(items.doc, items.addr, item);
    Some((doc4, item))
  }

  /** `createAttributeForEntity(entityId, name, dataType, length)`; the four
      `getUid()` answers are parameters. The attribute ends with a
      `c:DataItem/o:DataItem` child whose `Ref` is the new data item's `Id`. */
  function CreateAttributeForEntity(doc: Node, entityId: string, name: string, dataType: string, length: int,
                                    attributeObjectId: string, attributeCode: string,
                                    itemObjectId: string, itemCode: string): Option<Node>
  {
    var e :- FindEntity(doc, entityId);
    var attribute :- AppendAttribute(doc, e, name, attributeObjectId, attributeCode);
    var added :- AppendDataItem(attribute.doc, ModelPath, name, dataType, length, itemObjectId, itemCode);
    AppendAt(added.0, attribute.addr, ObjectRef("c:DataItem", "o:DataItem", GetAttribute(added.1, "Id")))
  }

  // ---------------------------------------------------------------------
  // What `createAttributeForEntity` does to the document.

  /** Where `EnsureChild(doc, e, name)` puts its answer: the first child of
      that name, or a new one after the last child. */
  function ChildAddress(doc: Node, e: seq<nat>, name: string): (r: seq<nat>)
    requires At(doc, e).Some?
    ensures |r| == |e| + 1 && r[..|e|] == e
  {
    match Find(doc, e, Named(name))
    case Some(b) => b
    case None =>
      assert (e + [|Kids(At(doc, e).value)|])[..|e|] == e;
      e + [|Kids(At(doc, e).value)|]
  }

  /** That child before anything is appended to it. */
  function ChildBefore(doc: Node, e: seq<nat>, name: string): (r: Node)
    requires At(doc, e).Some? && name != "#text"
    ensures r.Element? && r.name == name
  {
    match Find(doc, e, Named(name))
    case Some(b) => At(doc, b).value
    case None => Empty(name)
  }

  /** Ensuring a child `name` of `e` answers `ChildAddress`, holding `ChildBefore`. */
  lemma EnsureChildPlace(doc: Node, e: seq<nat>, name: string)
    requires At(doc, e).Some? && At(doc, e).value.Element? && name != "#text"
    ensures EnsureChild(doc, e, name).value.addr == ChildAddress(doc, e, name)
    ensures At(EnsureChild(doc, e, name).value.doc, ChildAddress(doc, e, name)) == Some(ChildBefore(doc, e, name))
  {
  }

  /** An empty element carries no ids, so ensuring one leaves the matched values. */
  lemma EnsureChildIds(doc: Node, e: seq<nat>, name: string, suffix: string)
    requires At(doc, e).Some? && At(doc, e).value.Element? && name != "#text"
    ensures multiset(Matches(EnsureChild(doc, e, name).value.doc, suffix)) == multiset(Matches(doc, suffix))
  {
    if Find(doc, e, Named(name)).None? {
      AppendAtEffect(doc, e, Empty(name), suffix);
      assert Matches(Empty(name), suffix) == [];
    }
  }

  /** Ensuring a child of `e` keeps every address apart from `e` and the head
      and child count of every address above it. */
  lemma EnsureChildFrame(doc: Node, e: seq<nat>, name: string, b: seq<nat>)
    requires At(doc, e).Some? && At(doc, e).value.Element? && name != "#text"
    ensures Apart(e, b) ==> At(EnsureChild(doc, e, name).value.doc, b) == At(doc, b)
    ensures |b| < |e| && e[..|b|] == b ==> Alike(At(EnsureChild(doc, e, name).value.doc, b), At(doc, b))
  {
    if Find(doc, e, Named(name)).None? {
      PutFrame(doc, e, AppendChild(At(doc, e).value, Empty(name)), b);
    } else {
      PutFrame(doc, e, At(doc, e).value, b);
    }
  }

  /** Ensuring a child of `e` keeps the navigation of every path shorter than `e`. */
  lemma EnsureChildPaths(doc: Node, e: seq<nat>, name: string, path: seq<string>)
    requires At(doc, e).Some? && At(doc, e).value.Element? && name != "#text"
    ensures |path| < |e| ==> Locate(EnsureChild(doc, e, name).value.doc, path) == Locate(doc, path)
  {
    if Find(doc, e, Named(name)).None? && |path| < |e| {
      LocatePut(doc, path, e, AppendChild(At(doc, e).value, Empty(name)));
    }
  }

  /** The attribute `createAttributeForEntity` builds: its id is the next
      unique id of the document it was called on (an empty `c:Attributes`
      adds no id). */
  function NewAttribute(doc: Node, name: string, objectId: string, code: string): Node
  {
    BuildBasicNode("o:EntityAttribute", NextUniqueId(doc), name, objectId, code)
  }

  /** The first half appends `NewAttribute` at the end of the entity's list. */
  lemma AttributeStagePlace(doc: Node, e: seq<nat>, name: string, objectId: string, code: string)
    requires At(doc, e).Some? && At(doc, e).value.Element?
    ensures AppendAttribute(doc, e, name, objectId, code).Some?
    ensures var r := AppendAttribute(doc, e, name, objectId, code).value;
      var list := ChildAddress(doc, e, "c:Attributes");
      var before := ChildBefore(doc, e, "c:Attributes");
      r.doc == Put(EnsureChild(doc, e, "c:Attributes").value.doc, list, AppendChild(before, NewAttribute(doc, name, objectId, code)))
      && r.addr == list + [|Kids(before)|]
  {
    var p := EnsureChild(doc, e, "c:Attributes").value;
    EnsureChildPlace(doc, e, "c:Attributes");
    EnsureChildIds(doc, e, "c:Attributes", "Id");
    NextUniqueIdSame(p.doc, doc);
    AppendAtEffect(p.doc, p.addr, NewAttribute(doc, name, objectId, code), "Id");
  }

  /** After the first half the list holds the new attribute last, and the
      ids of the document grow by the attribute's. */
  lemma AttributeStageContent(doc: Node, e: seq<nat>, name: string, objectId: string, code: string)
    requires At(doc, e).Some? && At(doc, e).value.Element?
    ensures AppendAttribute(doc, e, name, objectId, code).Some?
    ensures var r := AppendAttribute(doc, e, name, objectId, code).value;
      var list := ChildAddress(doc, e, "c:Attributes");
      var before := ChildBefore(doc, e, "c:Attributes");
      var attribute := NewAttribute(doc, name, objectId, code);
      At(r.doc, list) == Some(AppendChild(before, attribute))
      && At(r.doc, r.addr) == Some(attribute)
      && multiset(Matches(r.doc, "Id")) == multiset(Matches(doc, "Id")) + multiset(Matches(attribute, "Id"))
  {
    var p := EnsureChild(doc, e, "c:Attributes").value;
    AttributeStagePlace(doc, e, name, objectId, code);
    EnsureChildPlace(doc, e, "c:Attributes");
    EnsureChildIds(doc, e, "c:Attributes", "Id");
    AppendAtEffect(p.doc, p.addr, NewAttribute(doc, name, objectId, code), "Id");
  }

  /** The first half keeps every address apart from the entity. */
  lemma AttributeStageApart(doc: Node, e: seq<nat>, name: string, objectId: string, code: string, b: seq<nat>)
    requires At(doc, e).Some? && At(doc, e).value.Element? && Apart(e, b)
    ensures AppendAttribute(doc, e, name, objectId, code).Some?
    ensures At(AppendAttribute(doc, e, name, objectId, code).value.doc, b) == At(doc, b)
  {
    var p := EnsureChild(doc, e, "c:Attributes").value;
    var list := ChildAddress(doc, e, "c:Attributes");
    AttributeStagePlace(doc, e, name, objectId, code);
    EnsureChildPlace(doc, e, "c:Attributes");
    EnsureChildFrame(doc, e, "c:Attributes", b);
    ApartBelow(e, list, b);
    PutFrame(p.doc, list, AppendChild(ChildBefore(doc, e, "c:Attributes"), NewAttribute(doc, name, objectId, code)), b);
  }

  /** The first half keeps the head and child count of every address above the entity. */
  lemma AttributeStageAbove(doc: Node, e: seq<nat>, name: string, objectId: string, code: string, b: seq<nat>)
    requires At(doc, e).Some? && At(doc, e).value.Element? && |b| < |e| && e[..|b|] == b
    ensures AppendAttribute(doc, e, name, objectId, code).Some?
    ensures Alike(At(AppendAttribute(doc, e, name, objectId, code).value.doc, b), At(doc, b))
  {
    var p := EnsureChild(doc, e, "c:Attributes").value;
    var list := ChildAddress(doc, e, "c:Attributes");
    AttributeStagePlace(doc, e, name, objectId, code);
    EnsureChildPlace(doc, e, "c:Attributes");
    EnsureChildFrame(doc, e, "c:Attributes", b);
    PrefixTrans(list, e, b);
    PutFrame(p.doc, list, AppendChild(ChildBefore(doc, e, "c:Attributes"), NewAttribute(doc, name, objectId, code)), b);
  }

  /** The first half keeps the navigation of every path shorter than the entity's address. */
  lemma AttributeStagePaths(doc: Node, e: seq<nat>, name: string, objectId: string, code: string, path: seq<string>)
    requires At(doc, e).Some? && At(doc, e).value.Element? && |path| < |e|
    ensures AppendAttribute(doc, e, name, objectId, code).Some?
    ensures Locate(AppendAttribute(doc, e, name, objectId, code).value.doc, path) == Locate(doc, path)
  {
    var p := EnsureChild(doc, e, "c:Attributes").value;
    var list := ChildAddress(doc, e, "c:Attributes");
    AttributeStagePlace(doc, e, name, objectId, code);
    EnsureChildPlace(doc, e, "c:Attributes");
    EnsureChildPaths(doc, e, "c:Attributes", path);
    LocatePut(p.doc, path, list, AppendChild(ChildBefore(doc, e, "c:Attributes"), NewAttribute(doc, name, objectId, code)));
  }

  // The second half, through the model's `c:DataItems`.

  /** Where `EnsureUnder(doc, up, name)` puts its answer: what the path finds,
      or a new child after the last child of the node at `up`. */
  function UnderAddress(doc: Node, up: seq<string>, name: string): (r: seq<nat>)
    requires Locate(doc, up).Some?
    ensures |r| == |up| + 1 && r[..|up|] == Locate(doc, up).value
  {
    var m := Locate(doc, up).value;
    LocateSnoc(doc, up, name);
    match Locate(doc, up + [name])
    case Some(x) =>
      assert x == m + [FirstIndex(Kids(At(doc, m).value), Named(name)).value];
      assert x[..|m|] == m;
      x
    case None =>
      assert (m + [|Kids(At(doc, m).value)|])[..|m|] == m;
      m + [|Kids(At(doc, m).value)|]
  }

  /** That child before anything is appended to it. */
  function UnderBefore(doc: Node, up: seq<string>, name: string): (r: Node)
    requires Locate(doc, up).Some? && name != "#text"
    ensures r.Element? && r.name == name
  {
    var m := Locate(doc, up).value;
    LocateSnoc(doc, up, name);
    match Locate(doc, up + [name])
    case Some(x) =>
      var i := FirstIndex(Kids(At(doc, m).value), Named(name)).value;
      AtConcat(doc, m, [i]);
      At(doc, x).value
    case None => Empty(name)
  }

  lemma EnsureUnderPlace(doc: Node, up: seq<string>, name: string)
    requires Locate(doc, up).Some? && At(doc, Locate(doc, up).value).value.Element? && name != "#text"
    ensures EnsureUnder(doc, up, name).Some?
    ensures EnsureUnder(doc, up, name).value.addr == UnderAddress(doc, up, name)
    ensures At(EnsureUnder(doc, up, name).value.doc, UnderAddress(doc, up, name)) == Some(UnderBefore(doc, up, name))
  {
  }

  lemma EnsureUnderIds(doc: Node, up: seq<string>, name: string, suffix: string)
    requires Locate(doc, up).Some? && At(doc, Locate(doc, up).value).value.Element?
    ensures EnsureUnder(doc, up, name).Some?
    ensures multiset(Matches(EnsureUnder(doc, up, name).value.doc, suffix)) == multiset(Matches(doc, suffix))
  {
    if Locate(doc, up + [name]).None? {
      AppendAtEffect(doc, Locate(doc, up).value, Empty(name), suffix);
      assert Matches(Empty(name), suffix) == [];
    }
  }

  lemma KeepsWhenFound(doc: Node, up: seq<string>, name: string, b: seq<nat>, i: nat)
    requires Locate(doc, up).Some? && At(doc, Locate(doc, up).value).value.Element?
    requires var m := Locate(doc, up).value;
      FirstIndex(Kids(At(doc, m).value), Named(name)) == Some(i) && |m| < |b| && b[..|m|] == m && b[|m|] != i
    ensures EnsureUnder(doc, up, name).Some?
    ensures At(EnsureUnder(doc, up, name).value.doc, b) == At(doc, b)
    ensures Apart(UnderAddress(doc, up, name), b)
  {
    var m := Locate(doc, up).value;
    LocateSnoc(doc, up, name);
    assert Locate(doc, up + [name]) == Some(m + [i]);
    ApartAfter(m + [i], b, m);
  }

  lemma KeepsWhenMissing(doc: Node, up: seq<string>, name: string, b: seq<nat>)
    requires Locate(doc, up).Some? && At(doc, Locate(doc, up).value).value.Element?
    requires var m := Locate(doc, up).value;
      FirstIndex(Kids(At(doc, m).value), Named(name)).None? && |m| < |b| && b[..|m|] == m
      && b[|m|] < |Kids(At(doc, m).value)|
    ensures EnsureUnder(doc, up, name).Some?
    ensures At(EnsureUnder(doc, up, name).value.doc, b) == At(doc, b)
    ensures Apart(UnderAddress(doc, up, name), b)
  {
    var m := Locate(doc, up).value;
    var parent := At(doc, m).value;
    LocateSnoc(doc, up, name);
    assert Locate(doc, up + [name]).None?;
    AtPutAppendBelow(doc, m, Empty(name), b);
    ApartAfter(m + [|Kids(parent)|], b, m);
  }

  /** Below the node at `up`, but inside a child of another name, `EnsureUnder`
      changes nothing, and the answer is apart from there. */
  lemma EnsureUnderKeeps(doc: Node, up: seq<string>, name: string, b: seq<nat>)
    requires Locate(doc, up).Some? && At(doc, Locate(doc, up).value).value.Element?
    requires var m := Locate(doc, up).value;
      |m| < |b| && b[..|m|] == m && At(doc, b[..|m| + 1]).Some? && NodeName(At(doc, b[..|m| + 1]).value) != name
    ensures EnsureUnder(doc, up, name).Some?
    ensures At(EnsureUnder(doc, up, name).value.doc, b) == At(doc, b)
    ensures Apart(UnderAddress(doc, up, name), b)
  {
    var m := Locate(doc, up).value;
    var parent := At(doc, m).value;
    var k := b[|m|];
    PrefixSnoc(b, |m|);
    AtChild(doc, m, k);
    assert k < |Kids(parent)| && NodeName(Kids(parent)[k]) != name;
    match FirstIndex(Kids(parent), Named(name))
    case Some(i) =>
      assert NodeName(Kids(parent)[i]) == name;
      KeepsWhenFound(doc, up, name, b, i);
    case None =>
      KeepsWhenMissing(doc, up, name, b);
  }

  /** Every field `createAttributeForEntity` gives a data item, in order. */
  function DataItemFields(objectId: string, name: string, code: string, dataType: string, length: int): seq<(string, string)>
  {
    BasicFields(objectId, name, code) + ItemFields(dataType, length)
  }

  /** The data item `createAttributeForEntity` builds, given its id. */
  function NewDataItem(id: string, name: string, dataType: string, length: int, objectId: string, code: string): Node
  {
    Element("o:DataItem", [Attr("Id", id)], Fields(DataItemFields(objectId, name, code, dataType, length)))
  }

  lemma DataItemFieldsDistinct(objectId: string, name: string, code: string, dataType: string, length: int)
    ensures DistinctKeys(DataItemFields(objectId, name, code, dataType, length))
  {
    var bs, its := BasicFields(objectId, name, code), ItemFields(dataType, length);
    BasicFieldsDistinct(objectId, name, code);
    TypeKeysNotBasic();
    BasicFieldKeys(objectId, name, code);
    assert its[0].0 == "a:DataType" && its[1].0 == "a:Length" && |its| == 2;
    assert DistinctKeys(its) by {
      assert |its[0].0| != |its[1].0|;
    }
    forall i, j | 0 <= i < |bs| && 0 <= j < |its| ensures bs[i].0 != its[j].0 {
      assert bs[i].0 == BasicKeys[i];
      if j == 0 {
        assert its[j].0 == "a:DataType";
      } else {
        assert its[j].0 == "a:Length";
      }
    }
    DistinctKeysConcat(bs, its);
  }

  /** The built data item is its `Id` followed by its nine fields. */
  lemma DataItemShape(id: string, name: string, dataType: string, length: int, objectId: string, code: string)
    ensures SetFields(BuildBasicNode("o:DataItem", id, name, objectId, code), ItemFields(dataType, length))
      == Some(NewDataItem(id, name, dataType, length, objectId, code))
  {
    BasicNodeShape("o:DataItem", id, name, objectId, code);
    DataItemFieldsDistinct(objectId, name, code, dataType, length);
    SetFieldsFresh(BuildBasicNode("o:DataItem", id, name, objectId, code), ItemFields(dataType, length),
                   BasicFields(objectId, name, code));
  }

  /** The data item carries its id and reads back its name. */
  lemma DataItemNamed(id: string, name: string, dataType: string, length: int, objectId: string, code: string)
    ensures GetAttribute(NewDataItem(id, name, dataType, length, objectId, code), "Id") == id
    ensures FieldText(NewDataItem(id, name, dataType, length, objectId, code), "a:Name") == Some(name)
  {
    DataItemFieldsDistinct(objectId, name, code, dataType, length);
    FieldTextOfFields(NewDataItem(id, name, dataType, length, objectId, code),
                      DataItemFields(objectId, name, code, dataType, length), 5);
  }

  /** The data item reads back the type code built from the type and the
      length, and the length's decimal text. */
  lemma DataItemTyped(id: string, name: string, dataType: string, length: int, objectId: string, code: string)
    ensures FieldText(NewDataItem(id, name, dataType, length, objectId, code), "a:DataType")
      == Some(BuildTypeIdentifier(dataType, length))
    ensures FieldText(NewDataItem(id, name, dataType, length, objectId, code), "a:Length") == Some(IntToString(length))
  {
    var item := NewDataItem(id, name, dataType, length, objectId, code);
    var fs := DataItemFields(objectId, name, code, dataType, length);
    DataItemFieldsDistinct(objectId, name, code, dataType, length);
    FieldTextOfFields(item, fs, 7);
    FieldTextOfFields(item, fs, 8);
  }

  /** The second half appends `NewDataItem`, with the next unique id of the
      document it was given, at the end of `c:DataItems`. */
  lemma DataItemStagePlace(doc: Node, up: seq<string>, name: string, dataType: string, length: int,
                           objectId: string, code: string)
    requires Locate(doc, up).Some? && At(doc, Locate(doc, up).value).value.Element?
    ensures AppendDataItem(doc, up, name, dataType, length, objectId, code).Some?
    ensures var r := AppendDataItem(doc, up, name, dataType, length, objectId, code).value;
      r.1 == NewDataItem(NextUniqueId(doc), name, dataType, length, objectId, code)
      && r.0 == Put(EnsureUnder(doc, up, "c:DataItems").value.doc, UnderAddress(doc, up, "c:DataItems"),
                    AppendChild(UnderBefore(doc, up, "c:DataItems"), r.1))
  {
    var p := EnsureUnder(doc, up, "c:DataItems").value;
    EnsureUnderPlace(doc, up, "c:DataItems");
    EnsureUnderIds(doc, up, "c:DataItems", "Id");
    NextUniqueIdSame(p.doc, doc);
    DataItemShape(NextUniqueId(doc), name, dataType, length, objectId, code);
    AppendAtEffect(p.doc, p.addr, NewDataItem(NextUniqueId(doc), name, dataType, length, objectId, code), "Id");
  }

  /** After the second half `c:DataItems` holds the new data item last, and
      the ids of the document grow by the data item's. */
  lemma DataItemStageContent(doc: Node, up: seq<string>, name: string, dataType: string, length: int,
                             objectId: string, code: string)
    requires Locate(doc, up).Some? && At(doc, Locate(doc, up).value).value.Element?
    ensures AppendDataItem(doc, up, name, dataType, length, objectId, code).Some?
    ensures var r := AppendDataItem(doc, up, name, dataType, length, objectId, code).value;
      At(r.0, UnderAddress(doc, up, "c:DataItems")) == Some(AppendChild(UnderBefore(doc, up, "c:DataItems"), r.1))
      && multiset(Matches(r.0, "Id")) == multiset(Matches(doc, "Id")) + multiset(Matches(r.1, "Id"))
  {
    var p := EnsureUnder(doc, up, "c:DataItems").value;
    DataItemStagePlace(doc, up, name, dataType, length, objectId, code);
    EnsureUnderPlace(doc, up, "c:DataItems");
    EnsureUnderIds(doc, up, "c:DataItems", "Id");
    AppendAtEffect(p.doc, p.addr, NewDataItem(NextUniqueId(doc), name, dataType, length, objectId, code), "Id");
  }

  /** The second half changes nothing below the node at `up` inside a child
      not named `c:DataItems`, and `c:DataItems` is apart from there. */
  lemma DataItemStageKeeps(doc: Node, up: seq<string>, name: string, dataType: string, length: int,
                           objectId: string, code: string, b: seq<nat>)
    requires Locate(doc, up).Some? && At(doc, Locate(doc, up).value).value.Element?
    requires var m := Locate(doc, up).value;
      |m| < |b| && b[..|m|] == m && At(doc, b[..|m| + 1]).Some? && NodeName(At(doc, b[..|m| + 1]).value) != "c:DataItems"
    ensures AppendDataItem(doc, up, name, dataType, length, objectId, code).Some?
    ensures At(AppendDataItem(doc, up, name, dataType, length, objectId, code).value.0, b) == At(doc, b)
    ensures Apart(UnderAddress(doc, up, "c:DataItems"), b)
  {
    var p := EnsureUnder(doc, up, "c:DataItems").value;
    DataItemStagePlace(doc, up, name, dataType, length, objectId, code);
    EnsureUnderPlace(doc, up, "c:DataItems");
    EnsureUnderKeeps(doc, up, "c:DataItems", b);
    PutFrame(p.doc, p.addr, AppendChild(UnderBefore(doc, up, "c:DataItems"),
                                        NewDataItem(NextUniqueId(doc), name, dataType, length, objectId, code)), b);
  }

  // ---------------------------------------------------------------------
  // The two halves together.

  /** After the first half, the node at `m` is still an element, and its
      child holding the entity keeps its name. Here the entity lies two
      levels below `m`. */
  lemma AttributeStageModel(doc: Node, m: seq<nat>, e: seq<nat>, name: string, objectId: string, code: string)
    requires At(doc, e).Some? && At(doc, e).value.Element? && |e| == |m| + 2 && e[..|m|] == m
    ensures AppendAttribute(doc, e, name, objectId, code).Some?
    ensures At(AppendAttribute(doc, e, name, objectId, code).value.doc, m).Some?
    ensures At(AppendAttribute(doc, e, name, objectId, code).value.doc, m).value.Element?
    ensures At(doc, e[..|m| + 1]).Some? && At(AppendAttribute(doc, e, name, objectId, code).value.doc, e[..|m| + 1]).Some?
    ensures NodeName(At(AppendAttribute(doc, e, name, objectId, code).value.doc, e[..|m| + 1]).value)
      == NodeName(At(doc, e[..|m| + 1]).value)
  {
    var top := e[..|m| + 1];
    AtPrefix(doc, e, |m|);
    AtPrefix(doc, e, |m| + 1);
    assert top[..|m|] == m;
    AttributeStageAbove(doc, e, name, objectId, code, m);
    AttributeStageAbove(doc, e, name, objectId, code, top);
    var d := AppendAttribute(doc, e, name, objectId, code).value.doc;
    AlikeFacts(At(d, m), At(doc, m));
    AlikeFacts(At(d, top), At(doc, top));
  }

  /** The second half, run on what the first half left, changes nothing below
      the entity, and its `c:DataItems` is apart from there, when the entity
      does not lie inside a `c:DataItems`. */
  lemma ItemStageKeepsEntity(doc: Node, up: seq<string>, e: seq<nat>, name: string, dataType: string, length: int,
                             attributeObjectId: string, attributeCode: string, itemObjectId: string, itemCode: string,
                             b: seq<nat>)
    requires Locate(doc, up).Some? && At(doc, e).Some? && At(doc, e).value.Element?
    requires var m := Locate(doc, up).value;
      |e| == |m| + 2 && e[..|m|] == m && At(doc, e[..|m| + 1]).Some?
      && NodeName(At(doc, e[..|m| + 1]).value) != "c:DataItems"
    requires |e| <= |b| && b[..|e|] == e
    ensures AppendAttribute(doc, e, name, attributeObjectId, attributeCode).Some?
    ensures var a := AppendAttribute(doc, e, name, attributeObjectId, attributeCode).value;
      AppendDataItem(a.doc, up, name, dataType, length, itemObjectId, itemCode).Some?
      && At(AppendDataItem(a.doc, up, name, dataType, length, itemObjectId, itemCode).value.0, b) == At(a.doc, b)
      && Apart(UnderAddress(a.doc, up, "c:DataItems"), b)
  {
    var m := Locate(doc, up).value;
    var a := AppendAttribute(doc, e, name, attributeObjectId, attributeCode).value;
    var top := e[..|m| + 1];
    AttributeStageModel(doc, m, e, name, attributeObjectId, attributeCode);
    AttributeStagePaths(doc, e, name, attributeObjectId, attributeCode, up);
    PrefixTrans(b, e, top);
    PrefixTrans(b, e, m);
    DataItemStageKeeps(a.doc, up, name, dataType, length, itemObjectId, itemCode, b);
  }

  /** A `c:DataItems` found below the node at `up` is apart from an entity
      two levels below it inside a child of another name. */
  lemma ItemsApartEntity(doc: Node, up: seq<string>, e: seq<nat>)
    requires Locate(doc, up).Some? && At(doc, e).Some? && Locate(doc, up + ["c:DataItems"]).Some?
    requires var m := Locate(doc, up).value;
      |e| == |m| + 2 && e[..|m|] == m && At(doc, e[..|m| + 1]).Some?
      && NodeName(At(doc, e[..|m| + 1]).value) != "c:DataItems"
    ensures Apart(e, Locate(doc, up + ["c:DataItems"]).value)
  {
    var m := Locate(doc, up).value;
    var parent := At(doc, m).value;
    var k := e[|m|];
    PrefixSnoc(e, |m|);
    AtChild(doc, m, k);
    assert k < |Kids(parent)| && NodeName(Kids(parent)[k]) != "c:DataItems";
    LocateSnoc(doc, up, "c:DataItems");
    var i := FirstIndex(Kids(parent), Named("c:DataItems")).value;
    assert Locate(doc, up + ["c:DataItems"]) == Some(m + [i]);
    assert NodeName(Kids(parent)[i]) == "c:DataItems";
    ApartAfter(e, m + [i], m);
  }

  /** After the first half, `c:DataItems` is sought at the same address and
      holds what it held, when the entity does not lie inside it. */
  lemma AttributeStageItems(doc: Node, up: seq<string>, e: seq<nat>, name: string, objectId: string, code: string)
    requires Locate(doc, up).Some? && At(doc, e).Some? && At(doc, e).value.Element?
    requires var m := Locate(doc, up).value;
      |e| == |m| + 2 && e[..|m|] == m && At(doc, e[..|m| + 1]).Some?
      && NodeName(At(doc, e[..|m| + 1]).value) != "c:DataItems"
    ensures AppendAttribute(doc, e, name, objectId, code).Some?
    ensures Locate(AppendAttribute(doc, e, name, objectId, code).value.doc, up).Some?
    ensures UnderAddress(AppendAttribute(doc, e, name, objectId, code).value.doc, up, "c:DataItems")
      == UnderAddress(doc, up, "c:DataItems")
    ensures UnderBefore(AppendAttribute(doc, e, name, objectId, code).value.doc, up, "c:DataItems")
      == UnderBefore(doc, up, "c:DataItems")
  {
    var m := Locate(doc, up).value;
    AttributeStagePaths(doc, e, name, objectId, code, up);
    AttributeStagePaths(doc, e, name, objectId, code, up + ["c:DataItems"]);
    if Locate(doc, up + ["c:DataItems"]).Some? {
      ItemsApartEntity(doc, up, e);
      AttributeStageApart(doc, e, name, objectId, code, Locate(doc, up + ["c:DataItems"]).value);
    } else {
      AttributeStageAbove(doc, e, name, objectId, code, m);
    }
  }

  /** An entity found by id sits two steps below the model node, under a
      child that is not `c:DataItems`. */
  lemma EntityNotInItems(doc: Node, entityId: string)
    requires FindEntity(doc, entityId).Some?
    ensures Locate(doc, ModelPath).Some?
    ensures var e := FindEntity(doc, entityId).value; var m := Locate(doc, ModelPath).value;
      && At(doc, e).Some? && At(doc, e).value.Element?
      && |e| == |m| + 2 && e[..|m|] == m && At(doc, e[..|m| + 1]).Some?
      && NodeName(At(doc, e[..|m| + 1]).value) != "c:DataItems"
  {
    EntityAddress(doc, entityId);
  }

  /** The first half leaves the model node an element where it was found. */
  lemma CreateAttributeModelKept(doc: Node, entityId: string, name: string, attributeObjectId: string, attributeCode: string)
    requires FindEntity(doc, entityId).Some?
    ensures var e := FindEntity(doc, entityId).value;
      At(doc, e).Some? && At(doc, e).value.Element? && AppendAttribute(doc, e, name, attributeObjectId, attributeCode).Some?
    ensures var e := FindEntity(doc, entityId).value;
      var a := AppendAttribute(doc, e, name, attributeObjectId, attributeCode).value;
      Locate(a.doc, ModelPath).Some? && At(a.doc, Locate(a.doc, ModelPath).value).value.Element?
  {
    var e := FindEntity(doc, entityId).value;
    EntityAddress(doc, entityId);
    var m := Locate(doc, ModelPath).value;
    AttributeStageModel(doc, m, e, name, attributeObjectId, attributeCode);
    AttributeStagePaths(doc, e, name, attributeObjectId, attributeCode, ModelPath);
  }

  /** `createAttributeForEntity` is the first half, the second half on its
      result, then the reference to the new data item's id appended to the
      new attribute. */
  lemma CreateAttributeSteps(doc: Node, entityId: string, name: string, dataType: string, length: int,
                             attributeObjectId: string, attributeCode: string, itemObjectId: string, itemCode: string)
    requires FindEntity(doc, entityId).Some?
    ensures var e := FindEntity(doc, entityId).value;
      At(doc, e).Some? && At(doc, e).value.Element? && AppendAttribute(doc, e, name, attributeObjectId, attributeCode).Some?
    ensures var e := FindEntity(doc, entityId).value;
      var a := AppendAttribute(doc, e, name, attributeObjectId, attributeCode).value;
      Locate(a.doc, ModelPath).Some? && At(a.doc, Locate(a.doc, ModelPath).value).value.Element?
      && AppendDataItem(a.doc, ModelPath, name, dataType, length, itemObjectId, itemCode).Some?
      && CreateAttributeForEntity(doc, entityId, name, dataType, length, attributeObjectId, attributeCode, itemObjectId, itemCode)
         == AppendAt(AppendDataItem(a.doc, ModelPath, name, dataType, length, itemObjectId, itemCode).value.0, a.addr,
                     ObjectRef("c:DataItem", "o:DataItem", NextUniqueId(a.doc)))
  {
    var e := FindEntity(doc, entityId).value;
    CreateAttributeModelKept(doc, entityId, name, attributeObjectId, attributeCode);
    var a := AppendAttribute(doc, e, name, attributeObjectId, attributeCode).value;
    DataItemStagePlace(a.doc, ModelPath, name, dataType, length, itemObjectId, itemCode);
    DataItemNamed(NextUniqueId(a.doc), name, dataType, length, itemObjectId, itemCode);
  }

  /** The scan sees exactly one id in the new attribute, and one in the new data item. */
  lemma NewNodeIds(id: string, name: string, dataType: string, length: int, objectId: string, code: string)
    requires IsOId(id)
    ensures Matches(BuildBasicNode("o:EntityAttribute", id, name, objectId, code), "Id") == [id]
    ensures Matches(NewDataItem(id, name, dataType, length, objectId, code), "Id") == [id]
  {
    BasicNodeShape("o:EntityAttribute", id, name, objectId, code);
    MatchesFieldNode("o:EntityAttribute", id, BasicFields(objectId, name, code));
    MatchesFieldNode("o:DataItem", id, DataItemFields(objectId, name, code, dataType, length));
  }

  /** The reference to a data item carries a `Ref`, not an `Id`. */
  lemma ObjectRefIds(objectName: string, refName: string, ref: string)
    ensures Matches(ObjectRef(objectName, refName, ref), "Id") == []
  {
    var inner := Element(refName, [Attr("Ref", ref)], []);
    assert "Ref"[1..] == "ef";
    assert inner.attrs[1..] == [];
    assert AttrMatches(inner.attrs, "Id") == [];
    assert Matches(inner, "Id") == [];
    assert [inner][1..] == [];
  }

  /** The first half adds the document's next unique id, and nothing else, to its ids. */
  lemma AttributeStageIds(doc: Node, e: seq<nat>, name: string, objectId: string, code: string)
    requires At(doc, e).Some? && At(doc, e).value.Element? && Matches(doc, "Id") != []
    ensures AppendAttribute(doc, e, name, objectId, code).Some?
    ensures multiset(Matches(AppendAttribute(doc, e, name, objectId, code).value.doc, "Id"))
      == multiset(Matches(doc, "Id")) + multiset{NextUniqueId(doc)}
  {
    AttributeStageContent(doc, e, name, objectId, code);
    NextUniqueIdValue(doc);
    NewNodeIds(NextUniqueId(doc), name, "", 0, objectId, code);
  }

  /** The second half adds the next unique id of the document it is given. */
  lemma DataItemStageIds(doc: Node, up: seq<string>, name: string, dataType: string, length: int,
                         objectId: string, code: string)
    requires Locate(doc, up).Some? && At(doc, Locate(doc, up).value).value.Element? && Matches(doc, "Id") != []
    ensures AppendDataItem(doc, up, name, dataType, length, objectId, code).Some?
    ensures multiset(Matches(AppendDataItem(doc, up, name, dataType, length, objectId, code).value.0, "Id"))
      == multiset(Matches(doc, "Id")) + multiset{NextUniqueId(doc)}
  {
    DataItemStagePlace(doc, up, name, dataType, length, objectId, code);
    DataItemStageContent(doc, up, name, dataType, length, objectId, code);
    NextUniqueIdValue(doc);
    NewNodeIds(NextUniqueId(doc), name, dataType, length, objectId, code);
  }

  /** After both halves: the new attribute sits, still without its
      reference, at the end of the entity's list, the new data item at the
      end of `c:DataItems`, and the two places are apart. Written against the
      document `createAttributeForEntity` was called on. */
  lemma CreateAttributeMiddle(doc: Node, entityId: string, name: string, dataType: string, length: int,
                              attributeObjectId: string, attributeCode: string, itemObjectId: string, itemCode: string)
    requires FindEntity(doc, entityId).Some?
    ensures Locate(doc, ModelPath).Some?
    ensures var e := FindEntity(doc, entityId).value;
      At(doc, e).Some? && AppendAttribute(doc, e, name, attributeObjectId, attributeCode).Some?
      && AppendDataItem(AppendAttribute(doc, e, name, attributeObjectId, attributeCode).value.doc, ModelPath,
                        name, dataType, length, itemObjectId, itemCode).Some?
    ensures var e := FindEntity(doc, entityId).value;
      var a := AppendAttribute(doc, e, name, attributeObjectId, attributeCode).value;
      var attribute := NewAttribute(doc, name, attributeObjectId, attributeCode);
      var d := AppendDataItem(a.doc, ModelPath, name, dataType, length, itemObjectId, itemCode).value;
      var list := ChildAddress(doc, e, "c:Attributes");
      var items := UnderAddress(doc, ModelPath, "c:DataItems");
      a.addr == list + [|Kids(ChildBefore(doc, e, "c:Attributes"))|]
      && At(d.0, a.addr) == Some(attribute)
      && At(d.0, list) == Some(AppendChild(ChildBefore(doc, e, "c:Attributes"), attribute))
      && d.1 == NewDataItem(NextUniqueId(a.doc), name, dataType, length, itemObjectId, itemCode)
      && At(d.0, items) == Some(AppendChild(UnderBefore(doc, ModelPath, "c:DataItems"), d.1))
      && Apart(items, a.addr)
  {
    var e := FindEntity(doc, entityId).value;
    EntityNotInItems(doc, entityId);
    MiddleAttributeStage(doc, entityId, name, attributeObjectId, attributeCode);
    var a := AppendAttribute(doc, e, name, attributeObjectId, attributeCode).value;
    var list := ChildAddress(doc, e, "c:Attributes");
    MiddleAttributeStage(doc, entityId, name, attributeObjectId, attributeCode);
    ItemStageKeepsEntity(doc, ModelPath, e, name, dataType, length, attributeObjectId, attributeCode,
                         itemObjectId, itemCode, list);
    ItemStageKeepsEntity(doc, ModelPath, e, name, dataType, length, attributeObjectId, attributeCode,
                         itemObjectId, itemCode, a.addr);
    DataItemStageResult(a.doc, ModelPath, name, dataType, length, itemObjectId, itemCode);
  }

  /** The attribute half of `createAttribute` on an entity found by id. */
  lemma MiddleAttributeStage(doc: Node, entityId: string, name: string, attributeObjectId: string, attributeCode: string)
    requires FindEntity(doc, entityId).Some?
    ensures Locate(doc, ModelPath).Some?
    ensures var e := FindEntity(doc, entityId).value;
      At(doc, e).Some? && At(doc, e).value.Element? && AppendAttribute(doc, e, name, attributeObjectId, attributeCode).Some?
    ensures var e := FindEntity(doc, entityId).value;
      var a := AppendAttribute(doc, e, name, attributeObjectId, attributeCode).value;
      var attribute := NewAttribute(doc, name, attributeObjectId, attributeCode);
      var list := ChildAddress(doc, e, "c:Attributes");
      a.addr == list + [|Kids(ChildBefore(doc, e, "c:Attributes"))|]
      && At(a.doc, a.addr) == Some(attribute)
      && At(a.doc, list) == Some(AppendChild(ChildBefore(doc, e, "c:Attributes"), attribute))
      && |e| <= |list| && list[..|e|] == e && |e| <= |a.addr| && a.addr[..|e|] == e
      && Locate(a.doc, ModelPath).Some?
      && UnderAddress(a.doc, ModelPath, "c:DataItems") == UnderAddress(doc, ModelPath, "c:DataItems")
      && UnderBefore(a.doc, ModelPath, "c:DataItems") == UnderBefore(doc, ModelPath, "c:DataItems")
  {
    var e := FindEntity(doc, entityId).value;
    EntityNotInItems(doc, entityId);
    AttributeStagePlace(doc, e, name, attributeObjectId, attributeCode);
    var a := AppendAttribute(doc, e, name, attributeObjectId, attributeCode).value;
    var list := ChildAddress(doc, e, "c:Attributes");
    AttributeStagePlace(doc, e, name, attributeObjectId, attributeCode);
    AttributeStageContent(doc, e, name, attributeObjectId, attributeCode);
    AttributeStageItems(doc, ModelPath, e, name, attributeObjectId, attributeCode);
    PrefixTrans(a.addr, list, e);
  }

  /** The data item half: the item built and the list that holds it last. */
  lemma DataItemStageResult(doc: Node, up: seq<string>, name: string, dataType: string, length: int,
                            objectId: string, code: string)
    requires Locate(doc, up).Some? && At(doc, Locate(doc, up).value).value.Element?
    ensures AppendDataItem(doc, up, name, dataType, length, objectId, code).Some?
    ensures var r := AppendDataItem(doc, up, name, dataType, length, objectId, code).value;
      r.1 == NewDataItem(NextUniqueId(doc), name, dataType, length, objectId, code)
      && At(r.0, UnderAddress(doc, up, "c:DataItems")) == Some(AppendChild(UnderBefore(doc, up, "c:DataItems"), r.1))
  {
    DataItemStagePlace(doc, up, name, dataType, length, objectId, code);
    DataItemStageContent(doc, up, name, dataType, length, objectId, code);
  }

  /** The data item's id is the second id allocated on the original document. */
  lemma CreateAttributeItemId(doc: Node, entityId: string, name: string, attributeObjectId: string, attributeCode: string)
    requires FindEntity(doc, entityId).Some? && Matches(doc, "Id") != []
    ensures At(doc, FindEntity(doc, entityId).value).Some?
    ensures AppendAttribute(doc, FindEntity(doc, entityId).value, name, attributeObjectId, attributeCode).Some?
    ensures var a := AppendAttribute(doc, FindEntity(doc, entityId).value, name, attributeObjectId, attributeCode).value;
      multiset(Matches(a.doc, "Id")) == multiset(Matches(doc, "Id")) + multiset{NextUniqueId(doc)}
    ensures var a := AppendAttribute(doc, FindEntity(doc, entityId).value, name, attributeObjectId, attributeCode).value;
      Matches(a.doc, "Id") != [] && NextUniqueId(a.doc) == SecondUniqueId(doc)
  {
    var e := FindEntity(doc, entityId).value;
    EntityFound(doc, entityId);
    AttributeStageIds(doc, e, name, attributeObjectId, attributeCode);
    var d2 := AppendAttribute(doc, e, name, attributeObjectId, attributeCode).value.doc;
    NextUniqueIdAfter(doc, d2);
  }

  /** After both halves the document holds the two new ids. */
  lemma CreateAttributeHalvesIds(doc: Node, entityId: string, name: string, dataType: string, length: int,
                                 attributeObjectId: string, attributeCode: string, itemObjectId: string, itemCode: string)
    requires FindEntity(doc, entityId).Some? && Matches(doc, "Id") != []
    ensures AppendAttribute(doc, FindEntity(doc, entityId).value, name, attributeObjectId, attributeCode).Some?
    ensures var a := AppendAttribute(doc, FindEntity(doc, entityId).value, name, attributeObjectId, attributeCode).value;
      AppendDataItem(a.doc, ModelPath, name, dataType, length, itemObjectId, itemCode).Some?
    ensures var a := AppendAttribute(doc, FindEntity(doc, entityId).value, name, attributeObjectId, attributeCode).value;
      var d := AppendDataItem(a.doc, ModelPath, name, dataType, length, itemObjectId, itemCode).value;
      multiset(Matches(d.0, "Id")) == multiset(Matches(doc, "Id")) + multiset{NextUniqueId(doc), SecondUniqueId(doc)}
  {
    var e := FindEntity(doc, entityId).value;
    CreateAttributeModelKept(doc, entityId, name, attributeObjectId, attributeCode);
    CreateAttributeItemId(doc, entityId, name, attributeObjectId, attributeCode);
    var a := AppendAttribute(doc, e, name, attributeObjectId, attributeCode).value;
    DataItemStageIds(a.doc, ModelPath, name, dataType, length, itemObjectId, itemCode);
    var d := AppendDataItem(a.doc, ModelPath, name, dataType, length, itemObjectId, itemCode).value;
    GrowsTwice(Matches(doc, "Id"), Matches(a.doc, "Id"), Matches(d.0, "Id"), NextUniqueId(doc), NextUniqueId(a.doc));
  }

  lemma GrowsTwice(x: seq<string>, y: seq<string>, z: seq<string>, n: string, s: string)
    requires multiset(y) == multiset(x) + multiset{n} && multiset(z) == multiset(y) + multiset{s}
    ensures multiset(z) == multiset(x) + multiset{n, s}
  {
  }

  /** `createAttributeForEntity` adds exactly two ids to the document: the
      attribute's, the next unique id, and the data item's, the one after it;
      both are new. */
  lemma CreateAttributeIds(doc: Node, entityId: string, name: string, dataType: string, length: int,
                           attributeObjectId: string, attributeCode: string, itemObjectId: string, itemCode: string)
    requires FindEntity(doc, entityId).Some? && Matches(doc, "Id") != []
    ensures var r := CreateAttributeForEntity(doc, entityId, name, dataType, length,
                                              attributeObjectId, attributeCode, itemObjectId, itemCode);
      r.Some?
      && multiset(Matches(r.value, "Id")) == multiset(Matches(doc, "Id")) + multiset{NextUniqueId(doc), SecondUniqueId(doc)}
    ensures NextUniqueId(doc) !in Matches(doc, "Id") && SecondUniqueId(doc) !in Matches(doc, "Id")
    ensures NextUniqueId(doc) != SecondUniqueId(doc)
  {
    var e := FindEntity(doc, entityId).value;
    CreateAttributeSteps(doc, entityId, name, dataType, length, attributeObjectId, attributeCode, itemObjectId, itemCode);
    CreateAttributeMiddle(doc, entityId, name, dataType, length, attributeObjectId, attributeCode, itemObjectId, itemCode);
    CreateAttributeHalvesIds(doc, entityId, name, dataType, length, attributeObjectId, attributeCode, itemObjectId, itemCode);
    var a := AppendAttribute(doc, e, name, attributeObjectId, attributeCode).value;
    var d := AppendDataItem(a.doc, ModelPath, name, dataType, length, itemObjectId, itemCode).value;
    var ref := ObjectRef("c:DataItem", "o:DataItem", NextUniqueId(a.doc));
    AppendAtEffect(d.0, a.addr, ref, "Id");
    ObjectRefIds("c:DataItem", "o:DataItem", NextUniqueId(a.doc));
    NextTwoFresh(doc);
  }

  /** After `createAttributeForEntity` the entity's `c:Attributes` holds what
      it held before, then the new attribute, whose last child refers to the
      new data item by its id. */
  lemma CreateAttributeList(doc: Node, entityId: string, name: string, dataType: string, length: int,
                            attributeObjectId: string, attributeCode: string, itemObjectId: string, itemCode: string)
    requires FindEntity(doc, entityId).Some? && Matches(doc, "Id") != []
    ensures At(doc, FindEntity(doc, entityId).value).Some?
    ensures CreateAttributeForEntity(doc, entityId, name, dataType, length,
                                     attributeObjectId, attributeCode, itemObjectId, itemCode).Some?
    ensures var e := FindEntity(doc, entityId).value;
      var r := CreateAttributeForEntity(doc, entityId, name, dataType, length,
                                        attributeObjectId, attributeCode, itemObjectId, itemCode).value;
      At(r, ChildAddress(doc, e, "c:Attributes"))
      == Some(AppendChild(ChildBefore(doc, e, "c:Attributes"),
                          AppendChild(NewAttribute(doc, name, attributeObjectId, attributeCode),
                                      ObjectRef("c:DataItem", "o:DataItem", SecondUniqueId(doc)))))
  {
    var e := FindEntity(doc, entityId).value;
    CreateAttributeSteps(doc, entityId, name, dataType, length, attributeObjectId, attributeCode, itemObjectId, itemCode);
    CreateAttributeMiddle(doc, entityId, name, dataType, length, attributeObjectId, attributeCode, itemObjectId, itemCode);
    CreateAttributeItemId(doc, entityId, name, attributeObjectId, attributeCode);
    var a := AppendAttribute(doc, e, name, attributeObjectId, attributeCode).value;
    var d := AppendDataItem(a.doc, ModelPath, name, dataType, length, itemObjectId, itemCode).value;
    AppendIntoLast(d.0, ChildAddress(doc, e, "c:Attributes"), ChildBefore(doc, e, "c:Attributes"),
                   NewAttribute(doc, name, attributeObjectId, attributeCode),
                   ObjectRef("c:DataItem", "o:DataItem", NextUniqueId(a.doc)));
  }

  /** After `createAttributeForEntity` the model's `c:DataItems` holds what it
      held before, then the new data item, carrying the second id allocated. */
  lemma CreateAttributeItems(doc: Node, entityId: string, name: string, dataType: string, length: int,
                             attributeObjectId: string, attributeCode: string, itemObjectId: string, itemCode: string)
    requires FindEntity(doc, entityId).Some? && Matches(doc, "Id") != []
    ensures Locate(doc, ModelPath).Some?
    ensures CreateAttributeForEntity(doc, entityId, name, dataType, length,
                                     attributeObjectId, attributeCode, itemObjectId, itemCode).Some?
    ensures var r := CreateAttributeForEntity(doc, entityId, name, dataType, length,
                                              attributeObjectId, attributeCode, itemObjectId, itemCode).value;
      At(r, UnderAddress(doc, ModelPath, "c:DataItems"))
      == Some(AppendChild(UnderBefore(doc, ModelPath, "c:DataItems"),
                          NewDataItem(SecondUniqueId(doc), name, dataType, length, itemObjectId, itemCode)))
  {
    var e := FindEntity(doc, entityId).value;
    CreateAttributeSteps(doc, entityId, name, dataType, length, attributeObjectId, attributeCode, itemObjectId, itemCode);
    CreateAttributeMiddle(doc, entityId, name, dataType, length, attributeObjectId, attributeCode, itemObjectId, itemCode);
    CreateAttributeItemId(doc, entityId, name, attributeObjectId, attributeCode);
    var a := AppendAttribute(doc, e, name, attributeObjectId, attributeCode).value;
    var d := AppendDataItem(a.doc, ModelPath, name, dataType, length, itemObjectId, itemCode).value;
    var ref := ObjectRef("c:DataItem", "o:DataItem", NextUniqueId(a.doc));
    var items := UnderAddress(doc, ModelPath, "c:DataItems");
    AppendAtEffect(d.0, a.addr, ref, "Id");
    ApartSym(items, a.addr);
    PutFrame(d.0, a.addr, AppendChild(At(d.0, a.addr).value, ref), items);
  }

  // ---------------------------------------------------------------------
  // `removeAttributeForEntity`.

  /** What `removeAttributeForEntity` does to the entity element: the first
      `o:EntityAttribute` with that `Id` leaves the first `c:Attributes`,
      and the container leaves the entity once no `o:EntityAttribute` is
      left in it. `None` where the source throws: no container, or no such
      attribute in it. */
  function DropAttribute(entity: Node, attributeId: string): (r: Option<Node>)
    requires entity.Element?
    ensures r.Some? <==> (FieldIndex(entity, "c:Attributes").Some?
      && FirstIndex(Kids(entity.children[FieldIndex(entity, "c:Attributes").value]),
                    NamedWith("o:EntityAttribute", "Id", attributeId)).Some?)
    ensures r.Some? ==> r.value.Element? && Head(r.value) == Head(entity)
  {
    var j :- FieldIndex(entity, "c:Attributes");
    var i :- FirstIndex(Kids(entity.children[j]), NamedWith("o:EntityAttribute", "Id", attributeId));
    Some(Prune(entity, j, i, "o:EntityAttribute"))
  }

  /** The attribute removed is the first with that `Id`; the container goes
      exactly when it was the only attribute, and stays with one attribute
      fewer otherwise; every other child of the entity stays as it was. */
  lemma DropAttributeEffect(entity: Node, attributeId: string)
    requires entity.Element? && DropAttribute(entity, attributeId).Some?
    ensures var j := FieldIndex(entity, "c:Attributes").value;
      var list := entity.children[j];
      var i := FirstIndex(list.children, NamedWith("o:EntityAttribute", "Id", attributeId)).value;
      var r := DropAttribute(entity, attributeId).value;
      && (|r.children| < |entity.children| <==> multiset(Names(list.children))["o:EntityAttribute"] == 1)
      && (|r.children| < |entity.children| ==> r == RemoveChildAt(entity, j))
      && (|r.children| == |entity.children| ==>
            r.children[j] == RemoveChildAt(list, i) && RemoveChildAt(r, j) == RemoveChildAt(entity, j)
            && multiset(Names(r.children[j].children)) == multiset(Names(list.children)) - multiset{"o:EntityAttribute"})
  {
    var j := FieldIndex(entity, "c:Attributes").value;
    var i := FirstIndex(entity.children[j].children, NamedWith("o:EntityAttribute", "Id", attributeId)).value;
    PruneCount(entity, j, i, "o:EntityAttribute");
  }

  /** `removeAttributeForEntity(entityId, attributeId)`. */
  function RemoveAttributeForEntity(doc: Node, entityId: string, attributeId: string): (r: Option<Node>)
    ensures r.Some? <==> (FindEntity(doc, entityId).Some?
      && DropAttribute(At(doc, FindEntity(doc, entityId).value).value, attributeId).Some?)
  {
    var e :- FindEntity(doc, entityId);
    var entity := DropAttribute(At(doc, e).value, attributeId);
    if entity.None? then None else Some(Put(doc, e, entity.value))
  }

  /** The entity is found where it was, changed as `DropAttribute` says, and
      nothing apart from it changes. */
  lemma RemoveAttributeEffect(doc: Node, entityId: string, attributeId: string, b: seq<nat>)
    requires RemoveAttributeForEntity(doc, entityId, attributeId).Some?
    ensures var e := FindEntity(doc, entityId).value;
      var r := RemoveAttributeForEntity(doc, entityId, attributeId).value;
      && At(r, e) == DropAttribute(At(doc, e).value, attributeId)
      && FindEntity(r, entityId) == FindEntity(doc, entityId)
      && (Apart(e, b) ==> At(r, b) == At(doc, b))
  {
    var e := FindEntity(doc, entityId).value;
    EntityReplaced(doc, entityId, DropAttribute(At(doc, e).value, attributeId).value, b);
  }

  /** The model's `c:DataItems` is left as it was. */
  lemma RemoveAttributeKeepsItems(doc: Node, entityId: string, attributeId: string)
    requires RemoveAttributeForEntity(doc, entityId, attributeId).Some?
    requires Locate(doc, ModelPath + ["c:DataItems"]).Some?
    ensures var items := Locate(doc, ModelPath + ["c:DataItems"]).value;
      At(RemoveAttributeForEntity(doc, entityId, attributeId).value, items) == At(doc, items)
  {
    var e := FindEntity(doc, entityId).value;
    var items := Locate(doc, ModelPath + ["c:DataItems"]).value;
    EntityAddress(doc, entityId);
    ItemsApartEntity(doc, ModelPath, e);
    RemoveAttributeEffect(doc, entityId, attributeId, items);
  }
}
