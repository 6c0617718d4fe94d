/** `getAsJson` of src/parsers/modelParser.js: the earliest reader. It reads
    each entity's data item references (`attributeIds`), a map of data items
    by id (`attributes`) and the relationships, with no presence check at
    all. */
module ModelParserFirst {
  import opened Xml
  import opened Readers
  import opened ModelParser
  import ModelParserConceptual

  /** A data item of this reader: its id and name. */
  datatype DataItem = DataItem(id: Option<string>, name: string)

  datatype Entity = Entity(id: Option<string>, name: string, attributeIds: seq<Option<string>>,
                           location: Option<Location>)

  datatype Model = Model(entities: seq<Entity>, attributes: map<string, DataItem>, relations: seq<Relation>)

  function DataItemEntry(cur: Node): (r: Option<(string, DataItem)>)
    ensures r.Some? <==> Dollar(cur, "Id").Some? && Has(cur, "a:Name")
    ensures r.Some? ==> r.value.0 == Key(r.value.1.id) && Dollar(cur, "Id") == Some(r.value.1.id)
    ensures r.Some? ==> r.value.1.name == Value(Group(cur, "a:Name")[0])
  {
    var id :- Dollar(cur, "Id");
    var name :- Leaf(cur, "a:Name");
    Some((Key(id), DataItem(id, name)))
  }

  /** `attribute['c:DataItem'][0]['o:DataItem'][0]['$'].Ref`. */
  function DataItemRef(attribute: Node): Option<Option<string>>
  {
    RefThrough(attribute, "c:DataItem", "o:DataItem")
  }

  function ReadEntity(entity: Node, coordinates: map<string, Location>): (r: Option<Entity>)
    ensures r.Some? ==> Dollar(entity, "Id") == Some(r.value.id)
    ensures r.Some? ==> r.value.location == if Key(r.value.id) in coordinates then Some(coordinates[Key(r.value.id)]) else None
    ensures r.Some? ==> (ModelParserConceptual.Required(entity, "c:Attributes", "o:EntityAttribute").Some?
      && MapAll(ModelParserConceptual.Required(entity, "c:Attributes", "o:EntityAttribute").value, DataItemRef)
           == Some(r.value.attributeIds))
  {
    var id :- Dollar(entity, "Id");
    var name :- Leaf(entity, "a:Name");
    var attributeNodes :- ModelParserConceptual.Required(entity, "c:Attributes", "o:EntityAttribute");
    var attributeIds :- MapAll(attributeNodes, DataItemRef);
    var location := if Key(id) in coordinates then Some(coordinates[Key(id)]) else None;
    Some(Entity.Entity(id, name, attributeIds, location))
  }

  function EntityReader(coordinates: map<string, Location>): Node -> Option<Entity>
  {
    (e: Node) => ReadEntity(e, coordinates)
  }

  /** `getAsJson(model)`. */
  function GetAsJson(doc: Node): Option<Model>
  {
    match RootModel(doc)
    case None => None
    case Some(root) => ReadRoot(root)
  }

  function ReadRoot(root: Node): Option<Model>
  {
    var entities := ModelParserConceptual.Required(root, "c:Entities", "o:Entity");
    var symbols := ModelParserConceptual.SymbolNodes(root);
    var itemNodes := ModelParserConceptual.Required(root, "c:DataItems", "o:DataItem");
    var relationNodes := ModelParserConceptual.Required(root, "c:Relationships", "o:Relationship");
    if entities.None? || symbols.None? || itemNodes.None? || relationNodes.None? then None
    else
      var coordinates := KeyedFold(symbols.value, SymbolReader(KeysFor(false)));
      var attributes := KeyedFold(itemNodes.value, DataItemEntry);
      var relations := MapAll(relationNodes.value, RelationReader(KeysFor(false)));
      if coordinates.None? || attributes.None? || relations.None? then None
      else
        var read := MapAll(entities.value, EntityReader(coordinates.value));
        if read.None? then None
        else Some(Model.Model(read.value, attributes.value, relations.value))
  }

  /** Each entity lists the data item `Ref` of every one of its attributes,
      in document order. */
  lemma AttributeIdsInOrder(doc: Node, root: Node, j: nat)
    requires GetAsJson(doc).Some? && RootModel(doc) == Some(root)
    requires ModelParserConceptual.Required(root, "c:Entities", "o:Entity").Some?
    requires j < |ModelParserConceptual.Required(root, "c:Entities", "o:Entity").value|
    ensures var nodes, es := ModelParserConceptual.Required(root, "c:Entities", "o:Entity").value, GetAsJson(doc).value.entities;
      && |es| == |nodes| && Dollar(nodes[j], "Id") == Some(es[j].id)
      && ModelParserConceptual.Required(nodes[j], "c:Attributes", "o:EntityAttribute").Some?
      && var an := ModelParserConceptual.Required(nodes[j], "c:Attributes", "o:EntityAttribute").value;
      && |es[j].attributeIds| == |an|
      && forall k :: 0 <= k < |an| ==> DataItemRef(an[k]) == Some(es[j].attributeIds[k])
  {
    var nodes := ModelParserConceptual.Required(root, "c:Entities", "o:Entity").value;
    var m := ReadRoot(root).value;
    var cs := KeyedFold(ModelParserConceptual.SymbolNodes(root).value, SymbolReader(KeysFor(false))).value;
    assert MapAll(nodes, EntityReader(cs)) == Some(m.entities);
    assert EntityReader(cs)(nodes[j]) == Some(m.entities[j]);
    EntityAttributeIds(nodes[j], cs, m.entities[j]);
  }

  /** An entity read lists the data item `Ref` of each of its attributes. */
  lemma EntityAttributeIds(entity: Node, coordinates: map<string, Location>, x: Entity)
    requires ReadEntity(entity, coordinates) == Some(x)
    ensures Dollar(entity, "Id") == Some(x.id)
    ensures ModelParserConceptual.Required(entity, "c:Attributes", "o:EntityAttribute").Some?
    ensures var an := ModelParserConceptual.Required(entity, "c:Attributes", "o:EntityAttribute").value;
      && |x.attributeIds| == |an|
      && forall k :: 0 <= k < |an| ==> DataItemRef(an[k]) == Some(x.attributeIds[k])
  {
    var an := ModelParserConceptual.Required(entity, "c:Attributes", "o:EntityAttribute").value;
    assert MapAll(an, DataItemRef) == Some(x.attributeIds);
  }

  /** `attributes` maps a data item's id to its id and name, the last data
      item with that id deciding. */
  lemma AttributesById(doc: Node, root: Node, k: nat)
    requires GetAsJson(doc).Some? && RootModel(doc) == Some(root)
    requires ModelParserConceptual.Required(root, "c:DataItems", "o:DataItem").Some?
    requires var items := ModelParserConceptual.Required(root, "c:DataItems", "o:DataItem").value;
      && k < |items| && Dollar(items[k], "Id").Some?
      && forall i :: k < i < |items| && Dollar(items[i], "Id").Some? ==>
           Key(Dollar(items[i], "Id").value) != Key(Dollar(items[k], "Id").value)
    ensures var items := ModelParserConceptual.Required(root, "c:DataItems", "o:DataItem").value;
      && Key(Dollar(items[k], "Id").value) in GetAsJson(doc).value.attributes
      && |Group(items[k], "a:Name")| > 0
    ensures var items := ModelParserConceptual.Required(root, "c:DataItems", "o:DataItem").value;
      var id := Dollar(items[k], "Id").value;
      GetAsJson(doc).value.attributes[Key(id)] == DataItem(id, Value(Group(items[k], "a:Name")[0]))
  {
    var items := ModelParserConceptual.Required(root, "c:DataItems", "o:DataItem").value;
    var m := ReadRoot(root).value;
    assert KeyedFold(items, DataItemEntry) == Some(m.attributes);
    assert forall i :: 0 <= i < |items| ==> DataItemEntry(items[i]).Some?;
    KeyedFoldLastWins(items, DataItemEntry, k);
  }

  /** Unlike the later readers, this one throws on a model without
      `c:Relationships`; otherwise there is one relation per
      `o:Relationship`, in order, with its id and name, the `Ref` of both
      entities and the cardinality of each end under its own key. */
  lemma RelationsRequired(doc: Node, root: Node, j: nat)
    requires GetAsJson(doc).Some? && RootModel(doc) == Some(root)
    ensures Has(root, "c:Relationships")
    ensures ModelParserConceptual.Required(root, "c:Relationships", "o:Relationship").Some?
    ensures var nodes := ModelParserConceptual.Required(root, "c:Relationships", "o:Relationship").value;
      var rs := GetAsJson(doc).value.relations;
      && |rs| == |nodes|
      && (j < |rs| ==> (RefThrough(nodes[j], "c:Object1", "o:Entity") == Some(rs[j].from.ref)
                        && RefThrough(nodes[j], "c:Object2", "o:Entity") == Some(rs[j].to.ref)))
    ensures var nodes := ModelParserConceptual.Required(root, "c:Relationships", "o:Relationship").value;
      var rs := GetAsJson(doc).value.relations;
      j < |rs| ==>
        && Dollar(nodes[j], "Id") == Some(rs[j].id) && Leaf(nodes[j], "a:Name") == Some(rs[j].name)
        && Leaf(nodes[j], "a:Entity1ToEntity2RoleCardinality") == Some(rs[j].from.cardinality)
        && Leaf(nodes[j], "a:Entity2ToEntity1RoleCardinality") == Some(rs[j].to.cardinality)
  {
    var nodes := ModelParserConceptual.Required(root, "c:Relationships", "o:Relationship").value;
    var m := ReadRoot(root).value;
    assert MapAll(nodes, RelationReader(KeysFor(false))) == Some(m.relations);
    if j < |nodes| {
      assert RelationReader(KeysFor(false))(nodes[j]) == Some(m.relations[j]);
    }
  }
}
