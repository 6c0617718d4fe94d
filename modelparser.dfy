/** `getAsJson` of src/parsers/modelParser.ts: the reader of both dialects.
    A model without `c:ConceptualDiagrams` is read as a physical model, and
    that one flag chooses every collection and object key. None is a throw
    out of `getAsJson` (a property read from `undefined`). */
module ModelParser {
  import opened Xml
  import opened Readers
  import Ops

  /** The keys `getAsJson` reads under, by dialect. */
  datatype Keys = Keys(
    entities: string, entity: string,
    symbol: string, symbolObject: string,
    domainObject: string,
    relations: string, relation: string,
    relationFirst: string, relationSecond: string, relationRef: string,
    fromCardinality: string, toCardinality: string,
    attributes: string, attributeObject: string)

  function KeysFor(isPhysical: bool): (k: Keys)
    ensures isPhysical ==> k.fromCardinality == k.toCardinality
    ensures !isPhysical ==> k.fromCardinality != k.toCardinality
  {
    if isPhysical then
      Keys("c:Tables", "o:Table", "o:TableSymbol", "o:Table", "o:PhysicalDomain",
           "c:References", "o:Reference", "c:ParentTable", "c:ChildTable", "o:Table",
           "a:Cardinality", "a:Cardinality", "c:Columns", "o:Column")
    else
      Keys("c:Entities", "o:Entity", "o:EntitySymbol", "o:Entity", "o:Domain",
           "c:Relationships", "o:Relationship", "c:Object1", "c:Object2", "o:Entity",
           "a:Entity1ToEntity2RoleCardinality", "a:Entity2ToEntity1RoleCardinality",
           "c:Attributes", "o:EntityAttribute")
  }

  /** The two dialects agree on no key, so the flag decides what is read.
      Within one dialect, a symbol and a relation end point at the same
      object key. */
  lemma DialectsDiffer()
    ensures var p, c := KeysFor(true), KeysFor(false);
      && p.entities != c.entities && p.entity != c.entity && p.symbol != c.symbol
      && p.symbolObject != c.symbolObject && p.domainObject != c.domainObject
      && p.relations != c.relations && p.relation != c.relation
      && p.relationFirst != c.relationFirst && p.relationSecond != c.relationSecond
      && p.relationRef != c.relationRef && p.fromCardinality != c.fromCardinality
      && p.toCardinality != c.toCardinality
      && p.attributes != c.attributes && p.attributeObject != c.attributeObject
      && p.symbolObject == p.relationRef && c.symbolObject == c.relationRef
  {
    var p, c := KeysFor(true), KeysFor(false);
    assert p.entities[2] != c.entities[2];
    assert p.entity[2] != c.entity[2];
    assert p.symbol[2] != c.symbol[2];
    assert p.domainObject[2] != c.domainObject[2];
    assert p.relations[4] != c.relations[4];
    assert p.relation[4] != c.relation[4];
    assert p.relationFirst[2] != c.relationFirst[2];
    assert p.relationSecond[2] != c.relationSecond[2];
    assert p.fromCardinality[2] != c.fromCardinality[2];
    assert p.toCardinality[2] != c.toCardinality[2];
    assert p.attributes[3] != c.attributes[3];
    assert p.attributeObject[2] != c.attributeObject[2];
  }

  /** `IDomain`; `length` is the text of `a:Length`, or the number 0. */
  datatype LengthValue = Given(text: string) | Zero

  datatype Domain = Domain(id: Option<string>, name: string, code: string, dataType: string, length: LengthValue)

  /** `IAttribute`. */
  datatype Item = Item(id: Option<string>, name: string, dataType: string, length: LengthValue,
                       domainId: Option<string>, dataItemId: Option<string>)

  /** An entity attribute as read: a whole attribute, or only the `dataItemId`
      where the data item it refers to is not in the map (the spread of
      `undefined` adds no field). */
  datatype Attribute = Full(item: Item) | OnlyRef(dataItemId: string)

  datatype Identifier = Identifier(id: Option<string>, attributeId: Option<string>, isPrimary: bool)

  datatype End = End(ref: Option<string>, cardinality: string)

  datatype Relation = Relation(id: Option<string>, name: string, from: End, to: End)

  datatype Entity = Entity(id: Option<string>, uid: string, name: string, attributes: seq<Attribute>,
                           identifiers: seq<Identifier>, location: Option<Location>)

  /** `IModel`. */
  datatype Model = Model(entities: seq<Entity>, domains: map<string, Domain>,
                         dataItems: map<string, Item>, relations: seq<Relation>)

  // ---------------------------------------------------------------------
  // Fields.

  /** `obj[key][0]`, a text the reader takes as it is. */
  function Leaf(n: Node, key: string): Option<string>
  {
    var f :- First(n, key);
    Some(Value(f))
  }

  /** `obj.hasOwnProperty(key) ? obj[key][0] : ''`. */
  function TextOr(n: Node, key: string): (r: string)
    ensures !Has(n, key) ==> r == ""
    ensures Has(n, key) ==> r == Value(Group(n, key)[0])
  {
    if Has(n, key) then Value(Group(n, key)[0]) else ""
  }

  /** `obj.hasOwnProperty(key) ? obj[key][0] : 0`. */
  function LengthOr(n: Node, key: string): (r: LengthValue)
    ensures !Has(n, key) ==> r == Zero
    ensures Has(n, key) ==> r == Given(Value(Group(n, key)[0]))
  {
    if Has(n, key) then Given(Value(Group(n, key)[0])) else Zero
  }

  // ---------------------------------------------------------------------
  // The maps.

  /** One symbol: the `Ref` of `c:Object`'s entity, and the rectangle. */
  function SymbolEntry(symbol: Node, keys: Keys): (r: Option<(string, Location)>)
    ensures r.Some? <==> SymbolRect(symbol).Some? && RefThrough(symbol, "c:Object", keys.symbolObject).Some?
    ensures r.Some? ==> r.value == (Key(RefThrough(symbol, "c:Object", keys.symbolObject).value), SymbolRect(symbol).value)
  {
    var location :- SymbolRect(symbol);
    var ref :- RefThrough(symbol, "c:Object", keys.symbolObject);
    Some((Key(ref), location))
  }

  /** `coordinatesByEntityId`; no `c:Symbols` in the diagram gives `{}`. */
  function Coordinates(diagram: Node, keys: Keys): (r: Option<map<string, Location>>)
    ensures !Has(diagram, "c:Symbols") ==> r == Some(map[])
  {
    if !Has(diagram, "c:Symbols") then Some(map[])
    else match Items(Group(diagram, "c:Symbols")[0], keys.symbol)
      case None => None
      case Some(symbols) => KeyedFold(symbols, SymbolReader(keys))
  }

  function SymbolReader(keys: Keys): Node -> Option<(string, Location)>
  {
    (s: Node) => SymbolEntry(s, keys)
  }

  function DomainEntry(cur: Node): (r: Option<(string, Domain)>)
    ensures r.Some? ==> r.value.0 == Key(r.value.1.id)
    ensures r.Some? ==> r.value.1.dataType == TextOr(cur, "a:DataType") && r.value.1.length == LengthOr(cur, "a:Length")
    ensures r.Some? && !Has(cur, "a:DataType") ==> r.value.1.dataType == ""
    ensures r.Some? && !Has(cur, "a:Length") ==> r.value.1.length == Zero
  {
    var id :- Dollar(cur, "Id");
    var name :- Leaf(cur, "a:Name");
    var code :- Leaf(cur, "a:Code");
    Some((Key(id), Domain(id, name, code, TextOr(cur, "a:DataType"), LengthOr(cur, "a:Length"))))
  }

  /** `domains`; no `c:Domains` gives an empty collection. */
  function Domains(root: Node, keys: Keys): (r: Option<map<string, Domain>>)
    ensures !Has(root, "c:Domains") ==> r == Some(map[])
  {
    if !Has(root, "c:Domains") then Some(map[])
    else match Items(Group(root, "c:Domains")[0], keys.domainObject)
      case None => None
      case Some(ds) => KeyedFold(ds, DomainEntry)
  }

  /** `getAsAttribute(data)`: the type fields default to `''` and 0, and the
      domain and data item references to `undefined`. */
  function AsAttribute(data: Node, keys: Keys): (r: Option<Item>)
    ensures r.Some? ==> r.value.dataType == TextOr(data, "a:DataType") && r.value.length == LengthOr(data, "a:Length")
    ensures r.Some? && !Has(data, "a:DataType") ==> r.value.dataType == ""
    ensures r.Some? && !Has(data, "a:Length") ==> r.value.length == Zero
    ensures r.Some? && !Has(data, "c:Domain") ==> r.value.domainId.None?
    ensures r.Some? && !Has(data, "c:DataItem") ==> r.value.dataItemId.None?
  {
    var id :- Dollar(data, "Id");
    var name :- Leaf(data, "a:Name");
    var domainId :- OptionalRef(data, "c:Domain", keys.domainObject);
    var dataItemId :- OptionalRef(data, "c:DataItem", "o:DataItem");
    Some(Item(id, name, TextOr(data, "a:DataType"), LengthOr(data, "a:Length"), domainId, dataItemId))
  }

  function DataItemEntry(cur: Node, keys: Keys): (r: Option<(string, Item)>)
    ensures r.Some? <==> Dollar(cur, "Id").Some? && AsAttribute(cur, keys).Some?
    ensures r.Some? ==> r.value == (Key(Dollar(cur, "Id").value), AsAttribute(cur, keys).value)
  {
    var id :- Dollar(cur, "Id");
    var item :- AsAttribute(cur, keys);
    Some((Key(id), item))
  }

  function DataItemReader(keys: Keys): Node -> Option<(string, Item)>
  {
    (c: Node) => DataItemEntry(c, keys)
  }

  /** `dataItems`; no `c:DataItems` gives an empty collection. */
  function DataItems(root: Node, keys: Keys): (r: Option<map<string, Item>>)
    ensures !Has(root, "c:DataItems") ==> r == Some(map[])
  {
    if !Has(root, "c:DataItems") then Some(map[])
    else match Items(Group(root, "c:DataItems")[0], "o:DataItem")
      case None => None
      case Some(items) => KeyedFold(items, DataItemReader(keys))
  }

  // ---------------------------------------------------------------------
  // The lists.

  /** One relation: its id and name, and at each end the entity reference
      and the cardinality under the dialect's key for that end. */
  function ReadRelation(relation: Node, keys: Keys): (r: Option<Relation>)
    ensures r.Some? ==> Dollar(relation, "Id") == Some(r.value.id) && Leaf(relation, "a:Name") == Some(r.value.name)
    ensures r.Some? ==> Leaf(relation, keys.fromCardinality) == Some(r.value.from.cardinality)
    ensures r.Some? ==> Leaf(relation, keys.toCardinality) == Some(r.value.to.cardinality)
    ensures r.Some? && keys.fromCardinality == keys.toCardinality ==> r.value.from.cardinality == r.value.to.cardinality
    ensures r.Some? ==> RefThrough(relation, keys.relationFirst, keys.relationRef) == Some(r.value.from.ref)
    ensures r.Some? ==> RefThrough(relation, keys.relationSecond, keys.relationRef) == Some(r.value.to.ref)
  {
    var id :- Dollar(relation, "Id");
    var name :- Leaf(relation, "a:Name");
    var fromRef :- RefThrough(relation, keys.relationFirst, keys.relationRef);
    var fromCardinality :- Leaf(relation, keys.fromCardinality);
    var toRef :- RefThrough(relation, keys.relationSecond, keys.relationRef);
    var toCardinality :- Leaf(relation, keys.toCardinality);
    Some(Relation(id, name, End(fromRef, fromCardinality), End(toRef, toCardinality)))
  }

  /** `relations`; no relations collection gives `[]`. */
  function Relations(root: Node, keys: Keys): (r: Option<seq<Relation>>)
    ensures !Has(root, keys.relations) ==> r == Some([])
  {
    if !Has(root, keys.relations) then Some([])
    else match Items(Group(root, keys.relations)[0], keys.relation)
      case None => None
      case Some(rs) => MapAll(rs, RelationReader(keys))
  }

  function RelationReader(keys: Keys): Node -> Option<Relation>
  {
    (n: Node) => ReadRelation(n, keys)
  }

  /** One entity attribute: the data item it refers to, with `dataItemId`
      added, or, without a reference, the attribute read in place. */
  function ReadAttribute(attribute: Node, dataItems: map<string, Item>, keys: Keys): (r: Option<Attribute>)
    ensures var ref := OptionalRef(attribute, "c:DataItem", "o:DataItem");
      r.Some? ==> ref.Some? && match ref.value
        case Some(id) =>
          if id in dataItems then r.value == Full(dataItems[id].(dataItemId := Some(id)))
          else r.value == OnlyRef(id)
        case None => r.value.Full? && Some(r.value.item) == AsAttribute(attribute, keys)
  {
    var dataItemId :- OptionalRef(attribute, "c:DataItem", "o:DataItem");
    match dataItemId
    case Some(id) =>
      if id in dataItems then Some(Full(dataItems[id].(dataItemId := Some(id)))) else Some(OnlyRef(id))
    case None =>
      var item :- AsAttribute(attribute, keys);
      Some(Full(item.(dataItemId := None)))
  }

  /** The `Ref` of `c:PrimaryIdentifier`'s identifier. */
  function PrimaryRef(entity: Node): Option<Option<string>>
  {
    RefThrough(entity, "c:PrimaryIdentifier", "o:Identifier")
  }

  function ReadIdentifier(identifier: Node, entity: Node): (r: Option<Identifier>)
    ensures r.Some? ==> (r.value.isPrimary <==> Has(entity, "c:PrimaryIdentifier") && PrimaryRef(entity) == Some(r.value.id))
    ensures r.Some? ==> Dollar(identifier, "Id") == Some(r.value.id)
  {
    var id :- Dollar(identifier, "Id");
    var attributeId :- OptionalRef(identifier, "c:Identifier.Attributes", "o:EntityAttribute");
    var isPrimary :- if Has(entity, "c:PrimaryIdentifier") then
        var p :- PrimaryRef(entity);
        Some(p == id)
      else Some(false);
    Some(Identifier(id, attributeId, isPrimary))
  }

  function ReadEntity(entity: Node, coordinates: map<string, Location>, dataItems: map<string, Item>, keys: Keys): (r: Option<Entity>)
    ensures r.Some? ==> Dollar(entity, "Id") == Some(r.value.id)
    ensures r.Some? ==> r.value.location == if Key(r.value.id) in coordinates then Some(coordinates[Key(r.value.id)]) else None
    ensures r.Some? && !Has(entity, keys.attributes) ==> r.value.attributes == []
    ensures r.Some? && !Has(entity, "c:Identifiers") ==> r.value.identifiers == []
    ensures r.Some? && Has(entity, keys.attributes) ==>
      && Items(Group(entity, keys.attributes)[0], keys.attributeObject).Some?
      && MapAll(Items(Group(entity, keys.attributes)[0], keys.attributeObject).value, AttributeReader(dataItems, keys))
         == Some(r.value.attributes)
    ensures r.Some? && Has(entity, "c:Identifiers") ==>
      && Items(Group(entity, "c:Identifiers")[0], "o:Identifier").Some?
      && MapAll(Items(Group(entity, "c:Identifiers")[0], "o:Identifier").value, IdentifierReader(entity))
         == Some(r.value.identifiers)
  {
    var id :- Dollar(entity, "Id");
    var uid :- Leaf(entity, "a:ObjectID");
    var name :- Leaf(entity, "a:Name");
    var attributes :- if Has(entity, keys.attributes) then
        var attributeNodes :- Items(Group(entity, keys.attributes)[0], keys.attributeObject);
        MapAll(attributeNodes, AttributeReader(dataItems, keys))
      else Some([]);
    var identifiers :- if Has(entity, "c:Identifiers") then
        var identifierNodes :- Items(Group(entity, "c:Identifiers")[0], "o:Identifier");
        MapAll(identifierNodes, IdentifierReader(entity))
      else Some([]);
    var location := if Key(id) in coordinates then Some(coordinates[Key(id)]) else None;
    Some(Entity(id, uid, name, attributes, identifiers, location))
  }

  function AttributeReader(dataItems: map<string, Item>, keys: Keys): Node -> Option<Attribute>
  {
    (a: Node) => ReadAttribute(a, dataItems, keys)
  }

  function IdentifierReader(entity: Node): Node -> Option<Identifier>
  {
    (i: Node) => ReadIdentifier(i, entity)
  }

  /** `model['Model']['o:RootObject'][0]['c:Children'][0]['o:Model'][0]`. */
  function RootModel(doc: Node): (r: Option<Node>)
    ensures r.Some? <==> NodeName(doc) == "Model" && Locate(doc, Ops.ModelPath).Some?
    ensures r.Some? ==> r == At(doc, Locate(doc, Ops.ModelPath).value)
  {
    FollowLocate(doc, Ops.ModelPath);
    if NodeName(doc) == "Model" then Follow(doc, Ops.ModelPath) else None
  }

  /** The diagram the symbols are read from: the first physical diagram of a
      physical model, the first conceptual one otherwise. */
  function Diagram(root: Node, isPhysical: bool): Option<Node>
  {
    if isPhysical then
      var ds :- First(root, "c:PhysicalDiagrams");
      First(ds, "o:PhysicalDiagram")
    else
      var ds :- First(root, "c:ConceptualDiagrams");
      First(ds, "o:ConceptualDiagram")
  }

  predicate IsPhysical(root: Node)
  {
    !Has(root, "c:ConceptualDiagrams")
  }

  /** `entities`: the entity (or table) nodes; none without the collection. */
  function EntityNodes(root: Node, keys: Keys): (r: Option<seq<Node>>)
    ensures !Has(root, keys.entities) ==> r == Some([])
  {
    if Has(root, keys.entities) then Items(Group(root, keys.entities)[0], keys.entity) else Some([])
  }

  /** `getAsJson(model)` over the parsed document element. */
  function GetAsJson(doc: Node): Option<Model>
  {
    match RootModel(doc)
    case None => None
    case Some(root) => ReadRoot(root)
  }

  /** `getAsJson` from `rootModel` on. Every collection is read before the
      entities, and a throw anywhere ends the read. */
  function ReadRoot(root: Node): Option<Model>
  {
    var keys := KeysFor(IsPhysical(root));
    var diagram := Diagram(root, IsPhysical(root));
    var nodes := EntityNodes(root, keys);
    var domains := Domains(root, keys);
    var dataItems := DataItems(root, keys);
    var relations := Relations(root, keys);
    if diagram.None? || nodes.None? || domains.None? || dataItems.None? || relations.None? then None
    else
      var coordinates := Coordinates(diagram.value, keys);
      if coordinates.None? then None
      else
        var read := MapAll(nodes.value, EntityReader(coordinates.value, dataItems.value, keys));
        if read.None? then None
        else Some(Model(read.value, domains.value, dataItems.value, relations.value))
  }

  function EntityReader(coordinates: map<string, Location>, dataItems: map<string, Item>, keys: Keys): Node -> Option<Entity>
  {
    (e: Node) => ReadEntity(e, coordinates, dataItems, keys)
  }

  /** What a successful read is made of. */
  lemma GetAsJsonParts(doc: Node, root: Node)
    requires GetAsJson(doc).Some? && RootModel(doc) == Some(root)
    ensures var keys := KeysFor(IsPhysical(root));
      && Diagram(root, IsPhysical(root)).Some? && EntityNodes(root, keys).Some?
      && DataItems(root, keys).Some? && Relations(root, keys).Some?
      && Coordinates(Diagram(root, IsPhysical(root)).value, keys).Some?
      && GetAsJson(doc).value.relations == Relations(root, keys).value
      && GetAsJson(doc).value.dataItems == DataItems(root, keys).value
      && Some(GetAsJson(doc).value.entities) == MapAll(EntityNodes(root, keys).value,
           EntityReader(Coordinates(Diagram(root, IsPhysical(root)).value, keys).value, DataItems(root, keys).value, keys))
  {
  }

  /** There is one entity per entity node, in document order, each with the
      node's id, and its location is its id's entry in the symbol map. */
  lemma GetAsJsonEntities(doc: Node, root: Node, diagram: Node, nodes: seq<Node>)
    requires GetAsJson(doc).Some? && RootModel(doc) == Some(root)
    requires Diagram(root, IsPhysical(root)) == Some(diagram)
    requires EntityNodes(root, KeysFor(IsPhysical(root))) == Some(nodes)
    ensures Coordinates(diagram, KeysFor(IsPhysical(root))).Some?
    ensures var es, cs := GetAsJson(doc).value.entities, Coordinates(diagram, KeysFor(IsPhysical(root))).value;
      && |es| == |nodes|
      && forall j :: 0 <= j < |nodes| ==>
           Dollar(nodes[j], "Id") == Some(es[j].id)
           && es[j].location == (if Key(es[j].id) in cs then Some(cs[Key(es[j].id)]) else None)
           && ReadEntity(nodes[j], cs, GetAsJson(doc).value.dataItems, KeysFor(IsPhysical(root))) == Some(es[j])
  {
    GetAsJsonParts(doc, root);
    var keys := KeysFor(IsPhysical(root));
    var cs := Coordinates(diagram, keys).value;
    var ds := DataItems(root, keys).value;
    var es := GetAsJson(doc).value.entities;
    forall j | 0 <= j < |nodes|
      ensures Dollar(nodes[j], "Id") == Some(es[j].id)
      ensures es[j].location == if Key(es[j].id) in cs then Some(cs[Key(es[j].id)]) else None
      ensures ReadEntity(nodes[j], cs, GetAsJson(doc).value.dataItems, keys) == Some(es[j])
    {
      assert EntityReader(cs, ds, keys)(nodes[j]) == Some(es[j]);
    }
  }

  /** Attribute k of entity j is read from the k-th attribute node against
      the data items of the whole read: the item it refers to, with
      `dataItemId` added, or the reference alone, or without a reference the
      node read in place. */
  lemma EntityAttributeRead(doc: Node, root: Node, diagram: Node, nodes: seq<Node>, j: nat, an: seq<Node>, k: nat)
    requires GetAsJson(doc).Some? && RootModel(doc) == Some(root)
    requires Diagram(root, IsPhysical(root)) == Some(diagram)
    requires EntityNodes(root, KeysFor(IsPhysical(root))) == Some(nodes) && j < |nodes|
    requires var keys := KeysFor(IsPhysical(root));
      Has(nodes[j], keys.attributes) && Items(Group(nodes[j], keys.attributes)[0], keys.attributeObject) == Some(an)
    requires k < |an|
    ensures j < |GetAsJson(doc).value.entities|
    ensures var a, ds := GetAsJson(doc).value.entities[j].attributes, GetAsJson(doc).value.dataItems;
      var ref := OptionalRef(an[k], "c:DataItem", "o:DataItem");
      && |a| == |an| && ref.Some?
      && match ref.value
        case Some(id) =>
          if id in ds then a[k] == Full(ds[id].(dataItemId := Some(id))) else a[k] == OnlyRef(id)
        case None => a[k].Full? && Some(a[k].item) == AsAttribute(an[k], KeysFor(IsPhysical(root)))
  {
    GetAsJsonEntities(doc, root, diagram, nodes);
    var keys := KeysFor(IsPhysical(root));
    var m := GetAsJson(doc).value;
    ReadEntityAttribute(nodes[j], Coordinates(diagram, keys).value, m.dataItems, keys, m.entities[j], an, k);
  }

  /** Attribute k of an entity read is `ReadAttribute` of its k-th node. */
  lemma ReadEntityAttribute(entity: Node, coordinates: map<string, Location>, dataItems: map<string, Item>, keys: Keys,
                            x: Entity, an: seq<Node>, k: nat)
    requires ReadEntity(entity, coordinates, dataItems, keys) == Some(x)
    requires Has(entity, keys.attributes) && Items(Group(entity, keys.attributes)[0], keys.attributeObject) == Some(an)
    requires k < |an|
    ensures |x.attributes| == |an| && ReadAttribute(an[k], dataItems, keys) == Some(x.attributes[k])
  {
    assert AttributeReader(dataItems, keys)(an[k]) == Some(x.attributes[k]);
  }

  /** Identifier k of entity j is primary exactly when the entity's
      `c:PrimaryIdentifier` refers to its id. */
  lemma EntityIdentifierPrimary(doc: Node, root: Node, diagram: Node, nodes: seq<Node>, j: nat, ins: seq<Node>, k: nat)
    requires GetAsJson(doc).Some? && RootModel(doc) == Some(root)
    requires Diagram(root, IsPhysical(root)) == Some(diagram)
    requires EntityNodes(root, KeysFor(IsPhysical(root))) == Some(nodes) && j < |nodes|
    requires Has(nodes[j], "c:Identifiers") && Items(Group(nodes[j], "c:Identifiers")[0], "o:Identifier") == Some(ins)
    requires k < |ins|
    ensures j < |GetAsJson(doc).value.entities|
    ensures var ids := GetAsJson(doc).value.entities[j].identifiers;
      && |ids| == |ins| && Dollar(ins[k], "Id") == Some(ids[k].id)
      && (ids[k].isPrimary <==> Has(nodes[j], "c:PrimaryIdentifier") && PrimaryRef(nodes[j]) == Some(ids[k].id))
  {
    GetAsJsonEntities(doc, root, diagram, nodes);
    var keys := KeysFor(IsPhysical(root));
    var m := GetAsJson(doc).value;
    ReadEntityIdentifier(nodes[j], Coordinates(diagram, keys).value, m.dataItems, keys, m.entities[j], ins, k);
  }

  /** Identifier k of an entity read is `ReadIdentifier` of its k-th node. */
  lemma ReadEntityIdentifier(entity: Node, coordinates: map<string, Location>, dataItems: map<string, Item>, keys: Keys,
                             x: Entity, ins: seq<Node>, k: nat)
    requires ReadEntity(entity, coordinates, dataItems, keys) == Some(x)
    requires Has(entity, "c:Identifiers") && Items(Group(entity, "c:Identifiers")[0], "o:Identifier") == Some(ins)
    requires k < |ins|
    ensures |x.identifiers| == |ins| && ReadIdentifier(ins[k], entity) == Some(x.identifiers[k])
  {
    assert IdentifierReader(entity)(ins[k]) == Some(x.identifiers[k]);
  }

  /** The location of an entity is the rectangle of the last symbol that
      refers to it. */
  lemma EntityLocationLastSymbol(doc: Node, root: Node, diagram: Node, nodes: seq<Node>, symbols: seq<Node>, j: nat, k: nat)
    requires GetAsJson(doc).Some? && RootModel(doc) == Some(root)
    requires Diagram(root, IsPhysical(root)) == Some(diagram)
    requires EntityNodes(root, KeysFor(IsPhysical(root))) == Some(nodes)
    requires Has(diagram, "c:Symbols") && Items(Group(diagram, "c:Symbols")[0], KeysFor(IsPhysical(root)).symbol) == Some(symbols)
    requires j < |nodes| && k < |symbols|
    requires SymbolEntry(symbols[k], KeysFor(IsPhysical(root))).Some? && Dollar(nodes[j], "Id").Some?
    requires SymbolEntry(symbols[k], KeysFor(IsPhysical(root))).value.0 == Key(Dollar(nodes[j], "Id").value)
    requires forall i :: k < i < |symbols| && SymbolEntry(symbols[i], KeysFor(IsPhysical(root))).Some? ==>
      SymbolEntry(symbols[i], KeysFor(IsPhysical(root))).value.0 != SymbolEntry(symbols[k], KeysFor(IsPhysical(root))).value.0
    ensures |GetAsJson(doc).value.entities| == |nodes|
    ensures GetAsJson(doc).value.entities[j].location == Some(SymbolEntry(symbols[k], KeysFor(IsPhysical(root))).value.1)
  {
    var keys := KeysFor(IsPhysical(root));
    GetAsJsonEntities(doc, root, diagram, nodes);
    KeyedFoldLastWins(symbols, SymbolReader(keys), k);
  }

  /** In a physical model every relation has the same cardinality at both ends. */
  lemma PhysicalCardinalities(doc: Node, root: Node)
    requires GetAsJson(doc).Some? && RootModel(doc) == Some(root) && IsPhysical(root)
    ensures forall rel :: rel in GetAsJson(doc).value.relations ==> rel.from.cardinality == rel.to.cardinality
  {
    GetAsJsonParts(doc, root);
    RelationsSameCardinality(root, KeysFor(true));
  }

  /** In a conceptual read, relation j is read from the j-th `o:Relationship`:
      the `Ref`s under `c:Object1` and `c:Object2`, the
      `a:Entity1ToEntity2RoleCardinality` at the source end and the
      `a:Entity2ToEntity1RoleCardinality` at the target end. */
  lemma ConceptualRelationRead(doc: Node, root: Node, nodes: seq<Node>, j: nat)
    requires GetAsJson(doc).Some? && RootModel(doc) == Some(root) && !IsPhysical(root)
    requires Has(root, "c:Relationships") && Items(Group(root, "c:Relationships")[0], "o:Relationship") == Some(nodes)
    requires j < |nodes|
    ensures |GetAsJson(doc).value.relations| == |nodes|
    ensures var rel := GetAsJson(doc).value.relations[j];
      && Dollar(nodes[j], "Id") == Some(rel.id) && Leaf(nodes[j], "a:Name") == Some(rel.name)
      && RefThrough(nodes[j], "c:Object1", "o:Entity") == Some(rel.from.ref)
      && RefThrough(nodes[j], "c:Object2", "o:Entity") == Some(rel.to.ref)
      && Leaf(nodes[j], "a:Entity1ToEntity2RoleCardinality") == Some(rel.from.cardinality)
      && Leaf(nodes[j], "a:Entity2ToEntity1RoleCardinality") == Some(rel.to.cardinality)
  {
    GetAsJsonParts(doc, root);
    RelationAt(root, KeysFor(false), nodes, j);
  }

  /** In a physical read, relation j is read from the j-th `o:Reference`:
      the `Ref`s under `c:ParentTable` and `c:ChildTable`, and the one
      `a:Cardinality` at both ends. */
  lemma PhysicalRelationRead(doc: Node, root: Node, nodes: seq<Node>, j: nat)
    requires GetAsJson(doc).Some? && RootModel(doc) == Some(root) && IsPhysical(root)
    requires Has(root, "c:References") && Items(Group(root, "c:References")[0], "o:Reference") == Some(nodes)
    requires j < |nodes|
    ensures |GetAsJson(doc).value.relations| == |nodes|
    ensures var rel := GetAsJson(doc).value.relations[j];
      && Dollar(nodes[j], "Id") == Some(rel.id) && Leaf(nodes[j], "a:Name") == Some(rel.name)
      && RefThrough(nodes[j], "c:ParentTable", "o:Table") == Some(rel.from.ref)
      && RefThrough(nodes[j], "c:ChildTable", "o:Table") == Some(rel.to.ref)
      && Leaf(nodes[j], "a:Cardinality") == Some(rel.from.cardinality)
      && Leaf(nodes[j], "a:Cardinality") == Some(rel.to.cardinality)
  {
    GetAsJsonParts(doc, root);
    RelationAt(root, KeysFor(true), nodes, j);
  }

  /** Relation j of a successful relations read is `ReadRelation` of node j. */
  lemma RelationAt(root: Node, keys: Keys, nodes: seq<Node>, j: nat)
    requires Relations(root, keys).Some?
    requires Has(root, keys.relations) && Items(Group(root, keys.relations)[0], keys.relation) == Some(nodes)
    requires j < |nodes|
    ensures |Relations(root, keys).value| == |nodes|
    ensures ReadRelation(nodes[j], keys) == Some(Relations(root, keys).value[j])
  {
    assert MapAll(nodes, RelationReader(keys)) == Relations(root, keys);
    assert RelationReader(keys)(nodes[j]) == Some(Relations(root, keys).value[j]);
  }

  lemma RelationsSameCardinality(root: Node, keys: Keys)
    requires Relations(root, keys).Some? && keys.fromCardinality == keys.toCardinality
    ensures forall rel :: rel in Relations(root, keys).value ==> rel.from.cardinality == rel.to.cardinality
  {
    var rels := Relations(root, keys).value;
    if Has(root, keys.relations) {
      var rs := Items(Group(root, keys.relations)[0], keys.relation).value;
      forall rel | rel in rels
        ensures rel.from.cardinality == rel.to.cardinality
      {
        var j :| 0 <= j < |rels| && rels[j] == rel;
        assert RelationReader(keys)(rs[j]) == Some(rel);
      }
    }
  }
}
