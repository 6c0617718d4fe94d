/** `getAsJson` of src/parsers/modelParser.tsx: the conceptual-only reader.
    Entities, symbols, domains, data items and each entity's attributes are
    read without a presence check, so a model lacking one of them throws;
    only `c:Relationships` may be absent. */
module ModelParserConceptual {
  import opened Xml
  import opened Readers
  import opened ModelParser

  /** A data item of this reader: `IAttribute` without `dataItemId`. */
  datatype DataItem = DataItem(id: Option<string>, name: string, dataType: string, length: LengthValue,
                               domainId: Option<string>)

  /** An entity attribute: its id and the data item it refers to. */
  datatype AttributeRef = AttributeRef(id: Option<string>, dataItemId: Option<string>)

  datatype Entity = Entity(id: Option<string>, uid: string, name: string, attributes: seq<AttributeRef>,
                           identifiers: seq<Identifier>, location: Option<Location>)

  datatype Model = Model(entities: seq<Entity>, domains: map<string, Domain>,
                         dataItems: map<string, DataItem>, relations: seq<Relation>)

  /** The conceptual keys, the only ones this reader knows. */
  function Conceptual(): Keys
  {
    KeysFor(false)
  }

  /** `obj[k1][0][k2]`, a list that must be there. */
  function Required(n: Node, k1: string, k2: string): Option<seq<Node>>
  {
    match First(n, k1)
    case None => None
    case Some(c) => Items(c, k2)
  }

  function DataItemEntry(cur: Node): (r: Option<(string, DataItem)>)
    ensures r.Some? ==> r.value.0 == Key(r.value.1.id)
    ensures r.Some? ==> r.value.1.dataType == TextOr(cur, "a:DataType") && r.value.1.length == LengthOr(cur, "a:Length")
    ensures r.Some? && !Has(cur, "a:DataType") ==> r.value.1.dataType == ""
    ensures r.Some? && !Has(cur, "a:Length") ==> r.value.1.length == Zero
    ensures r.Some? && !Has(cur, "c:Domain") ==> r.value.1.domainId.None?
    ensures r.Some? && Has(cur, "c:Domain") ==> RefThrough(cur, "c:Domain", "o:Domain") == Some(r.value.1.domainId)
  {
    var id :- Dollar(cur, "Id");
    var name :- Leaf(cur, "a:Name");
    var domainId :- OptionalRef(cur, "c:Domain", "o:Domain");
    Some((Key(id), DataItem(id, name, TextOr(cur, "a:DataType"), LengthOr(cur, "a:Length"), domainId)))
  }

  function ReadAttribute(attribute: Node): (r: Option<AttributeRef>)
    ensures r.Some? <==> Dollar(attribute, "Id").Some? && RefThrough(attribute, "c:DataItem", "o:DataItem").Some?
    ensures r.Some? ==> (Dollar(attribute, "Id") == Some(r.value.id)
      && RefThrough(attribute, "c:DataItem", "o:DataItem") == Some(r.value.dataItemId))
  {
    var id :- Dollar(attribute, "Id");
    var dataItemId :- RefThrough(attribute, "c:DataItem", "o:DataItem");
    Some(AttributeRef(id, dataItemId))
  }

  function ReadIdentifier(identifier: Node, entity: Node): (r: Option<Identifier>)
    ensures r.Some? ==> (r.value.isPrimary <==> Has(entity, "c:PrimaryIdentifier") && PrimaryRef(entity) == Some(r.value.id))
    ensures r.Some? ==> (Dollar(identifier, "Id") == Some(r.value.id)
      && RefThrough(identifier, "c:Identifier.Attributes", "o:EntityAttribute") == Some(r.value.attributeId))
  {
    var id :- Dollar(identifier, "Id");
    var attributeId :- RefThrough(identifier, "c:Identifier.Attributes", "o:EntityAttribute");
    var isPrimary :- if Has(entity, "c:PrimaryIdentifier") then
        var p :- PrimaryRef(entity);
        Some(p == id)
      else Some(false);
    Some(Identifier(id, attributeId, isPrimary))
  }

  function IdentifierReader(entity: Node): Node -> Option<Identifier>
  {
    (i: Node) => ReadIdentifier(i, entity)
  }

  function ReadEntity(entity: Node, coordinates: map<string, Location>): (r: Option<Entity>)
    ensures r.Some? ==> (Required(entity, "c:Attributes", "o:EntityAttribute").Some?
      && MapAll(Required(entity, "c:Attributes", "o:EntityAttribute").value, ReadAttribute) == Some(r.value.attributes))
    ensures r.Some? ==> Dollar(entity, "Id") == Some(r.value.id)
    ensures r.Some? ==> r.value.location == if Key(r.value.id) in coordinates then Some(coordinates[Key(r.value.id)]) else None
    ensures r.Some? && !Has(entity, "c:Identifiers") ==> r.value.identifiers == []
    ensures r.Some? && Has(entity, "c:Identifiers") ==>
      && Items(Group(entity, "c:Identifiers")[0], "o:Identifier").Some?
      && MapAll(Items(Group(entity, "c:Identifiers")[0], "o:Identifier").value, IdentifierReader(entity))
         == Some(r.value.identifiers)
  {
    var id :- Dollar(entity, "Id");
    var uid :- Leaf(entity, "a:ObjectID");
    var name :- Leaf(entity, "a:Name");
    var attributeNodes :- Required(entity, "c:Attributes", "o:EntityAttribute");
    var attributes :- MapAll(attributeNodes, ReadAttribute);
    var identifiers :- if Has(entity, "c:Identifiers") then
        var identifierNodes :- Items(Group(entity, "c:Identifiers")[0], "o:Identifier");
        MapAll(identifierNodes, IdentifierReader(entity))
      else Some([]);
    var location := if Key(id) in coordinates then Some(coordinates[Key(id)]) else None;
    Some(Entity.Entity(id, uid, name, attributes, identifiers, location))
  }

  function EntityReader(coordinates: map<string, Location>): Node -> Option<Entity>
  {
    (e: Node) => ReadEntity(e, coordinates)
  }

  /** The entity symbols of the first conceptual diagram, which must be there. */
  function SymbolNodes(root: Node): Option<seq<Node>>
  {
    match Follow(root, ["c:ConceptualDiagrams", "o:ConceptualDiagram", "c:Symbols"])
    case None => None
    case Some(symbols) => Items(symbols, "o:EntitySymbol")
  }

  /** `getAsJson(model)`. */
  function GetAsJson(doc: Node): Option<Model>
  {
    match RootModel(doc)
    case None => None
    case Some(root) => ReadRoot(root)
  }

  function ReadRoot(root: Node): Option<Model>
  {
    var entities := Required(root, "c:Entities", "o:Entity");
    var symbols := SymbolNodes(root);
    var domainNodes := Required(root, "c:Domains", "o:Domain");
    var itemNodes := Required(root, "c:DataItems", "o:DataItem");
    var relations := Relations(root, Conceptual());
    if entities.None? || symbols.None? || domainNodes.None? || itemNodes.None? || relations.None? then None
    else
      var coordinates := KeyedFold(symbols.value, SymbolReader(Conceptual()));
      var domains := KeyedFold(domainNodes.value, ModelParser.DomainEntry);
      var dataItems := KeyedFold(itemNodes.value, DataItemEntry);
      if coordinates.None? || domains.None? || dataItems.None? then None
      else
        var read := MapAll(entities.value, EntityReader(coordinates.value));
        if read.None? then None
        else Some(Model.Model(read.value, domains.value, dataItems.value, relations.value))
  }

  /** Relation j is read from the j-th `o:Relationship`: its id and name,
      the `Ref`s under `c:Object1` and `c:Object2`, and the
      `a:Entity1ToEntity2RoleCardinality` and
      `a:Entity2ToEntity1RoleCardinality` of its two ends. */
  lemma RelationRead(doc: Node, root: Node, nodes: seq<Node>, j: nat)
    requires GetAsJson(doc).Some? && RootModel(doc) == Some(root)
    requires Has(root, "c:Relationships") && Items(Group(root, "c:Relationships")[0], "o:Relationship") == Some(nodes)
    requires j < |nodes|
    ensures |GetAsJson(doc).value.relations| == |nodes|
    ensures var rel := GetAsJson(doc).value.relations[j];
      && Dollar(nodes[j], "Id") == Some(rel.id) && Leaf(nodes[j], "a:Name") == Some(rel.name)
      && RefThrough(nodes[j], "c:Object1", "o:Entity") == Some(rel.from.ref)
      && RefThrough(nodes[j], "c:Object2", "o:Entity") == Some(rel.to.ref)
      && Leaf(nodes[j], "a:Entity1ToEntity2RoleCardinality") == Some(rel.from.cardinality)
      && Leaf(nodes[j], "a:Entity2ToEntity1RoleCardinality") == Some(rel.to.cardinality)
  {
    assert GetAsJson(doc).value.relations == Relations(root, Conceptual()).value;
    RelationAt(root, Conceptual(), nodes, j);
  }

  /** A successful read had every collection but the relationships, and
      every entity had its attributes; without relationships there are none. */
  lemma RequiredCollections(doc: Node, root: Node)
    requires GetAsJson(doc).Some? && RootModel(doc) == Some(root)
    ensures Has(root, "c:Entities") && Has(root, "c:Domains") && Has(root, "c:DataItems")
    ensures Follow(root, ["c:ConceptualDiagrams", "o:ConceptualDiagram", "c:Symbols"]).Some?
    ensures Required(root, "c:Entities", "o:Entity").Some?
    ensures forall e :: e in Required(root, "c:Entities", "o:Entity").value ==> Has(e, "c:Attributes")
    ensures !Has(root, "c:Relationships") ==> GetAsJson(doc).value.relations == []
  {
    var nodes := Required(root, "c:Entities", "o:Entity").value;
    var m := ReadRoot(root).value;
    var cs := KeyedFold(SymbolNodes(root).value, SymbolReader(Conceptual())).value;
    assert MapAll(nodes, EntityReader(cs)) == Some(m.entities);
    forall e | e in nodes
      ensures Has(e, "c:Attributes")
    {
      var j :| 0 <= j < |nodes| && nodes[j] == e;
      assert EntityReader(cs)(nodes[j]).Some?;
    }
  }

  /** One entity per `o:Entity`, in order, each with the node's id and the
      `Ref` of every attribute's data item, in order. */
  lemma EntitiesInOrder(doc: Node, root: Node, j: nat)
    requires GetAsJson(doc).Some? && RootModel(doc) == Some(root)
    requires Required(root, "c:Entities", "o:Entity").Some? && j < |Required(root, "c:Entities", "o:Entity").value|
    ensures var nodes, es := Required(root, "c:Entities", "o:Entity").value, GetAsJson(doc).value.entities;
      var e := nodes[j];
      && |es| == |nodes| && Dollar(e, "Id") == Some(es[j].id)
      && Required(e, "c:Attributes", "o:EntityAttribute").Some?
      && var an := Required(e, "c:Attributes", "o:EntityAttribute").value;
      && |es[j].attributes| == |an|
      && forall k :: 0 <= k < |an| ==> RefThrough(an[k], "c:DataItem", "o:DataItem") == Some(es[j].attributes[k].dataItemId)
  {
    var nodes := Required(root, "c:Entities", "o:Entity").value;
    var m := ReadRoot(root).value;
    var cs := KeyedFold(SymbolNodes(root).value, SymbolReader(Conceptual())).value;
    assert MapAll(nodes, EntityReader(cs)) == Some(m.entities);
    assert EntityReader(cs)(nodes[j]) == Some(m.entities[j]);
    EntityDataItemRefs(nodes[j], cs, m.entities[j]);
  }

  /** Identifier k of entity j is primary exactly when the entity's
      `c:PrimaryIdentifier` refers to its id, and it names the attribute
      its `c:Identifier.Attributes` refers to. */
  lemma EntityIdentifierPrimary(doc: Node, root: Node, j: nat, ins: seq<Node>, k: nat)
    requires GetAsJson(doc).Some? && RootModel(doc) == Some(root)
    requires Required(root, "c:Entities", "o:Entity").Some? && j < |Required(root, "c:Entities", "o:Entity").value|
    requires var e := Required(root, "c:Entities", "o:Entity").value[j];
      Has(e, "c:Identifiers") && Items(Group(e, "c:Identifiers")[0], "o:Identifier") == Some(ins)
    requires k < |ins|
    ensures j < |GetAsJson(doc).value.entities|
    ensures var e, ids := Required(root, "c:Entities", "o:Entity").value[j], GetAsJson(doc).value.entities[j].identifiers;
      && |ids| == |ins| && Dollar(ins[k], "Id") == Some(ids[k].id)
      && RefThrough(ins[k], "c:Identifier.Attributes", "o:EntityAttribute") == Some(ids[k].attributeId)
      && (ids[k].isPrimary <==> Has(e, "c:PrimaryIdentifier") && PrimaryRef(e) == Some(ids[k].id))
  {
    var nodes := Required(root, "c:Entities", "o:Entity").value;
    EntityRead(doc, root, j);
    var cs := KeyedFold(SymbolNodes(root).value, SymbolReader(Conceptual())).value;
    ReadEntityIdentifier(nodes[j], cs, GetAsJson(doc).value.entities[j], ins, k);
  }

  /** Entity j of a successful read is `ReadEntity` of the j-th `o:Entity`. */
  lemma EntityRead(doc: Node, root: Node, j: nat)
    requires GetAsJson(doc).Some? && RootModel(doc) == Some(root)
    requires Required(root, "c:Entities", "o:Entity").Some? && j < |Required(root, "c:Entities", "o:Entity").value|
    ensures SymbolNodes(root).Some? && KeyedFold(SymbolNodes(root).value, SymbolReader(Conceptual())).Some?
    ensures j < |GetAsJson(doc).value.entities|
    ensures ReadEntity(Required(root, "c:Entities", "o:Entity").value[j],
      KeyedFold(SymbolNodes(root).value, SymbolReader(Conceptual())).value) == Some(GetAsJson(doc).value.entities[j])
  {
    var nodes := Required(root, "c:Entities", "o:Entity").value;
    var m := ReadRoot(root).value;
    var cs := KeyedFold(SymbolNodes(root).value, SymbolReader(Conceptual())).value;
    assert MapAll(nodes, EntityReader(cs)) == Some(m.entities);
    assert EntityReader(cs)(nodes[j]) == Some(m.entities[j]);
  }

  /** Identifier k of an entity read is `ReadIdentifier` of its k-th node. */
  lemma ReadEntityIdentifier(entity: Node, coordinates: map<string, Location>, x: Entity, ins: seq<Node>, k: nat)
    requires ReadEntity(entity, coordinates) == Some(x)
    requires Has(entity, "c:Identifiers") && Items(Group(entity, "c:Identifiers")[0], "o:Identifier") == Some(ins)
    requires k < |ins|
    ensures |x.identifiers| == |ins| && ReadIdentifier(ins[k], entity) == Some(x.identifiers[k])
  {
    assert IdentifierReader(entity)(ins[k]) == Some(x.identifiers[k]);
  }

  /** An entity read lists, for each of its attributes, the data item `Ref`. */
  lemma EntityDataItemRefs(entity: Node, coordinates: map<string, Location>, x: Entity)
    requires ReadEntity(entity, coordinates) == Some(x)
    ensures Dollar(entity, "Id") == Some(x.id)
    ensures Required(entity, "c:Attributes", "o:EntityAttribute").Some?
    ensures var an := Required(entity, "c:Attributes", "o:EntityAttribute").value;
      && |x.attributes| == |an|
      && forall k :: 0 <= k < |an| ==> RefThrough(an[k], "c:DataItem", "o:DataItem") == Some(x.attributes[k].dataItemId)
  {
    var an := Required(entity, "c:Attributes", "o:EntityAttribute").value;
    assert MapAll(an, ReadAttribute) == Some(x.attributes);
    forall k | 0 <= k < |an|
      ensures RefThrough(an[k], "c:DataItem", "o:DataItem") == Some(x.attributes[k].dataItemId)
    {
      assert ReadAttribute(an[k]) == Some(x.attributes[k]);
    }
  }
}
