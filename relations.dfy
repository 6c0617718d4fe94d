/** The relationship operations of `DataModel` and of the `CDMModel` of
    src/parsers/CDMModel.ts: reading and writing the two entity references of
    a relationship, its role cardinalities and `createRelation`. */
module Relations {
  import opened Xml
  import opened Store
  import opened Ops

  const FromObject: string := "c:Object1"
  const ToObject: string := "c:Object2"
  const FromCardinality: string := "a:Entity1ToEntity2RoleCardinality"
  const ToCardinality: string := "a:Entity2ToEntity1RoleCardinality"

  /** `findRelationById(relationId)`. */
  function FindRelation(doc: Node, relationId: string): Option<seq<nat>>
  {
    FindUnder(doc, ["c:Relationships"], NamedWith("o:Relationship", "Id", relationId))
  }

  // ---------------------------------------------------------------------
  // The entity references of one relationship.

  /** The `Ref` of the first `o:Entity` inside the first `objectName` child;
      `None` where either child is missing, since the source then searches
      the children of `undefined` and throws. */
  function ObjectRefOf(rel: Node, objectName: string): Option<string>
  {
    var i :- FieldIndex(rel, objectName);
    var k :- FieldIndex(Kids(rel)[i], "o:Entity");
    Some(GetAttribute(Kids(Kids(rel)[i])[k], "Ref"))
  }

  /** `getRefOfObjectInRelation(relationId, objectName)`. */
  function GetRefOfObjectInRelation(doc: Node, relationId: string, objectName: string): Option<string>
  {
    var a :- FindRelation(doc, relationId);
    ObjectRefOf(At(doc, a).value, objectName)
  }

  /** The relationship element after `setRefOfObjectInRelation`: the
      `objectName` child and its `o:Entity` are created when missing, then
      that `o:Entity` takes the `Ref`. */
  function SetObjectRef(rel: Node, objectName: string, target: string): (r: Node)
    requires rel.Element? && objectName != "#text"
    ensures r.Element? && Head(r) == Head(rel)
  {
    var (e1, i) := EnsureChild(rel, objectName);
    var (o1, k) := EnsureChild(e1.children[i], "o:Entity");
    var o2 := o1.(children := o1.children[k := SetAttribute(o1.children[k], "Ref", target)]);
    e1.(children := e1.children[i := o2])
  }

  /** The reference reads back as the target. */
  lemma SetObjectRefReads(rel: Node, objectName: string, target: string)
    requires rel.Element? && objectName != "#text"
    ensures ObjectRefOf(SetObjectRef(rel, objectName, target), objectName) == Some(target)
  {
    var (e1, i) := EnsureChild(rel, objectName);
    var (o1, k) := EnsureChild(e1.children[i], "o:Entity");
    var o2 := o1.(children := o1.children[k := SetAttribute(o1.children[k], "Ref", target)]);
    FieldIndexUpdate(o1.children, k, SetAttribute(o1.children[k], "Ref", target), "o:Entity");
    FieldIndexUpdate(e1.children, i, o2, objectName);
  }

  /** Every other child keeps its place and content, so other references
      and fields read as before. */
  lemma SetObjectRefKeeps(rel: Node, objectName: string, target: string, other: string)
    requires rel.Element? && objectName != "#text" && other != objectName
    ensures ObjectRefOf(SetObjectRef(rel, objectName, target), other) == ObjectRefOf(rel, other)
    ensures FieldText(SetObjectRef(rel, objectName, target), other) == FieldText(rel, other)
  {
    var r := SetObjectRef(rel, objectName, target);
    var (e1, i) := EnsureChild(rel, objectName);
    FieldIndexAppend(rel.children, Empty(objectName), other);
    assert FieldIndex(e1, other) == FieldIndex(rel, other);
    FieldIndexUpdate(e1.children, i, r.children[i], other);
    assert r.children == e1.children[i := r.children[i]];
    assert FieldIndex(r, other) == FieldIndex(rel, other);
    match FieldIndex(rel, other)
    case None =>
      SameFieldChild(r, rel, other);
    case Some(j) =>
      assert j != i;
      assert Kids(r)[j] == Kids(rel)[j];
      SameFieldChild(r, rel, other);
  }

  /** Two nodes whose first child of a name is the same read the same
      reference and the same text under it. */
  lemma SameFieldChild(n: Node, m: Node, key: string)
    requires FieldIndex(n, key) == FieldIndex(m, key)
    requires FieldIndex(n, key).Some? ==> Kids(n)[FieldIndex(n, key).value] == Kids(m)[FieldIndex(n, key).value]
    ensures ObjectRefOf(n, key) == ObjectRefOf(m, key) && FieldText(n, key) == FieldText(m, key)
  {
  }

  /** On a relationship without the child, the reference is appended last
      as a whole `<objectName><o:Entity Ref="target"/></objectName>`. */
  lemma SetObjectRefFresh(rel: Node, objectName: string, target: string)
    requires rel.Element? && objectName != "#text" && FieldIndex(rel, objectName).None?
    ensures SetObjectRef(rel, objectName, target) == AppendChild(rel, ObjectRef(objectName, "o:Entity", target))
  {
    var (e1, i) := EnsureChild(rel, objectName);
    FieldIndexAppend(rel.children, Empty(objectName), objectName);
    assert i == |rel.children| && e1.children[i] == Empty(objectName);
    var (o1, k) := EnsureChild(Empty(objectName), "o:Entity");
    assert o1.children == [Empty("o:Entity")] && k == 0;
    assert SetAttribute(Empty("o:Entity"), "Ref", target) == Element("o:Entity", [Attr("Ref", target)], []);
    assert o1 == Element(objectName, [], [Empty("o:Entity")]);
    assert o1.(children := o1.children[0 := SetAttribute(Empty("o:Entity"), "Ref", target)]) == ObjectRef(objectName, "o:Entity", target);
    assert e1.children[i := ObjectRef(objectName, "o:Entity", target)] == rel.children + [ObjectRef(objectName, "o:Entity", target)];
  }

  /** On a relationship that already holds the child and its `o:Entity`,
      nothing is created: only that child changes. */
  lemma SetObjectRefInPlace(rel: Node, objectName: string, target: string)
    requires rel.Element? && objectName != "#text" && ObjectRefOf(rel, objectName).Some?
    ensures var r, i := SetObjectRef(rel, objectName, target), FieldIndex(rel, objectName).value;
      && |r.children| == |rel.children| && Names(r.children) == Names(rel.children)
      && (forall j :: 0 <= j < |r.children| && j != i ==> r.children[j] == rel.children[j])
  {
    var r, i := SetObjectRef(rel, objectName, target), FieldIndex(rel, objectName).value;
    NamesUpdate(rel.children, i, r.children[i]);
    assert r.children == rel.children[i := r.children[i]];
  }

  /** `setRefOfObjectInRelation(relationId, objectName, targetEntityId)`;
      `None` where there is no such relationship. */
  function SetRefOfObjectInRelation(doc: Node, relationId: string, objectName: string, target: string): (r: Option<Node>)
    requires objectName != "#text"
    ensures r.Some? <==> FindRelation(doc, relationId).Some?
  {
    var a :- FindRelation(doc, relationId);
    Some(Put(doc, a, SetObjectRef(At(doc, a).value, objectName, target)))
  }

  /** `setFromRefOfRelation`: the reference under `c:Object1`. */
  function SetFromRefOfRelation(doc: Node, relationId: string, target: string): Option<Node>
  {
    SetRefOfObjectInRelation(doc, relationId, FromObject, target)
  }

  /** `setToRefOfRelation`: the reference under `c:Object2`. */
  function SetToRefOfRelation(doc: Node, relationId: string, target: string): Option<Node>
  {
    SetRefOfObjectInRelation(doc, relationId, ToObject, target)
  }

  /** After the write the relationship is found where it was, the reference
      reads back as the target, the other reference and every field read as
      before, and nothing apart from the relationship changes. */
  lemma SetRefOfObjectInRelationEffect(doc: Node, relationId: string, objectName: string, target: string,
                                       other: string, b: seq<nat>)
    requires objectName != "#text" && FindRelation(doc, relationId).Some? && other != objectName
    ensures var a, d := FindRelation(doc, relationId).value, SetRefOfObjectInRelation(doc, relationId, objectName, target).value;
      && FindRelation(d, relationId) == Some(a)
      && GetRefOfObjectInRelation(d, relationId, objectName) == Some(target)
      && ObjectRefOf(At(d, a).value, other) == ObjectRefOf(At(doc, a).value, other)
      && FieldText(At(d, a).value, other) == FieldText(At(doc, a).value, other)
      && (Apart(a, b) ==> At(d, b) == At(doc, b))
  {
    var a := FindRelation(doc, relationId).value;
    var s := SetObjectRef(At(doc, a).value, objectName, target);
    FoundReplaced(doc, ["c:Relationships"], "o:Relationship", relationId, s, b);
    SetObjectRefReads(At(doc, a).value, objectName, target);
    SetObjectRefKeeps(At(doc, a).value, objectName, target, other);
  }

  // ---------------------------------------------------------------------
  // The fields of one relationship.

  /** `setAttributeForRelation(relationId, attributeName, value)`: one round
      of `setAttributesOnNode` on the relationship. */
  function SetAttributeForRelation(doc: Node, relationId: string, key: string, value: string): (r: Option<Node>)
    ensures r.Some? <==> (FindRelation(doc, relationId).Some?
      && SetField(At(doc, FindRelation(doc, relationId).value).value, key, value).Some?)
  {
    var a :- FindRelation(doc, relationId);
    var n :- SetField(At(doc, a).value, key, value);
    Some(Put(doc, a, n))
  }

  /** `setFromCardinalityOfRelation`. */
  function SetFromCardinalityOfRelation(doc: Node, relationId: string, cardinality: string): Option<Node>
  {
    SetAttributeForRelation(doc, relationId, FromCardinality, cardinality)
  }

  /** `setToCardinalityOfRelation`. */
  function SetToCardinalityOfRelation(doc: Node, relationId: string, cardinality: string): Option<Node>
  {
    SetAttributeForRelation(doc, relationId, ToCardinality, cardinality)
  }

  /** A writable field of the relationship takes the value, every other
      field and both references read as before, the relationship is found
      where it was, and nothing apart from it changes. */
  lemma SetAttributeForRelationEffect(doc: Node, relationId: string, key: string, value: string,
                                      other: string, b: seq<nat>)
    requires FindRelation(doc, relationId).Some? && other != key
    requires Writable(At(doc, FindRelation(doc, relationId).value).value, key)
    ensures SetAttributeForRelation(doc, relationId, key, value).Some?
    ensures var a, d := FindRelation(doc, relationId).value, SetAttributeForRelation(doc, relationId, key, value).value;
      && FindRelation(d, relationId) == Some(a)
      && FieldText(At(d, a).value, key) == Some(value)
      && FieldText(At(d, a).value, other) == FieldText(At(doc, a).value, other)
      && ObjectRefOf(At(d, a).value, other) == ObjectRefOf(At(doc, a).value, other)
      && (Apart(a, b) ==> At(d, b) == At(doc, b))
  {
    var a := FindRelation(doc, relationId).value;
    var rel := At(doc, a).value;
    SetFieldReads(rel, key, value, other);
    var n := SetField(rel, key, value).value;
    FoundReplaced(doc, ["c:Relationships"], "o:Relationship", relationId, n, b);
    SetFieldObjectKeeps(rel, key, value, other);
  }

  /** Setting a field leaves the reference under any other child as it was. */
  lemma SetFieldObjectKeeps(n: Node, key: string, value: string, other: string)
    requires SetField(n, key, value).Some? && other != key
    ensures ObjectRefOf(SetField(n, key, value).value, other) == ObjectRefOf(n, other)
  {
    var r := SetField(n, key, value).value;
    match FieldIndex(n, key)
    case None =>
      FieldIndexAppend(n.children, Field(key, value), other);
    case Some(i) =>
      FieldIndexUpdate(n.children, i, r.children[i], other);
      assert r.children == n.children[i := r.children[i]];
      match FieldIndex(n, other)
      case None =>
      case Some(j) => assert j != i;
  }

  // ---------------------------------------------------------------------
  // createRelation.

  /** The source and target references `createRelation` adds. */
  function RelationRefs(src: string, tgt: string): seq<Node>
  {
    [ObjectRef(FromObject, "o:Entity", src), ObjectRef(ToObject, "o:Entity", tgt)]
  }

  /** The two role cardinalities it adds after them, `To` first. */
  function RelationCardinalities(cardinality: string): seq<Node>
  {
    [Field(ToCardinality, cardinality), Field(FromCardinality, cardinality)]
  }

  /** The four children `createRelation` adds after the basic fields, in
      the order it sets them. */
  function RelationTail(src: string, tgt: string, cardinality: string): seq<Node>
  {
    RelationRefs(src, tgt) + RelationCardinalities(cardinality)
  }

  /** The relationship `createRelation` leaves behind: the basic node with
      the allocated id, followed by its four relation children. */
  function NewRelation(id: string, name: string, src: string, tgt: string, cardinality: string,
                       objectId: string, code: string): Node
  {
    var b := BuildBasicNode("o:Relationship", id, name, objectId, code);
    b.(children := b.children + RelationTail(src, tgt, cardinality))
  }

  /** A node without any of the four relation children. */
  predicate LacksRelationChildren(b: Node)
  {
    b.Element? && FieldIndex(b, FromObject).None? && FieldIndex(b, ToObject).None?
    && FieldIndex(b, ToCardinality).None? && FieldIndex(b, FromCardinality).None?
  }

  lemma BasicLacksRelationChildren(id: string, name: string, objectId: string, code: string)
    ensures LacksRelationChildren(BuildBasicNode("o:Relationship", id, name, objectId, code))
  {
    BasicLacks("o:Relationship", id, name, objectId, code, FromObject);
    BasicLacks("o:Relationship", id, name, objectId, code, ToObject);
    BasicLacks("o:Relationship", id, name, objectId, code, ToCardinality);
    BasicLacks("o:Relationship", id, name, objectId, code, FromCardinality);
  }

  /** `createRelation(sourceEntityId, targetEntityId, name, cardinality)`:
      append a basic `o:Relationship` under the next unique id, then set,
      each time finding the relationship again by that id, its source and
      target references and its two cardinalities. `objectId` and `code`
      stand for the two `getUid()` values. */
  function CreateRelation(doc: Node, src: string, tgt: string, name: string, cardinality: string,
                          objectId: string, code: string): (r: Option<Node>)
    ensures r.Some? ==> FindNode(doc, ["c:Relationships"]).Some?
  {
    var rs :- FindNode(doc, ["c:Relationships"]);
    var id := NextUniqueId(doc);
    var d1 :- AppendAt(doc, rs, BuildBasicNode("o:Relationship", id, name, objectId, code));
    RelationWrites(d1, id, src, tgt, cardinality)
  }

  /** The four writes `createRelation` makes after appending the node. */
  function RelationWrites(d1: Node, id: string, src: string, tgt: string, cardinality: string): Option<Node>
  {
    var d2 :- SetFromRefOfRelation(d1, id, src);
    var d3 :- SetToRefOfRelation(d2, id, tgt);
    var d4 :- SetToCardinalityOfRelation(d3, id, cardinality);
    SetFromCardinalityOfRelation(d4, id, cardinality)
  }

  /** The two reference writes on a node without relation children each
      append a whole reference. */
  lemma RelationRefsAppended(b: Node, src: string, tgt: string)
    requires LacksRelationChildren(b)
    ensures SetObjectRef(SetObjectRef(b, FromObject, src), ToObject, tgt)
      == b.(children := b.children + RelationRefs(src, tgt))
  {
    var o1, o2 := ObjectRef(FromObject, "o:Entity", src), ObjectRef(ToObject, "o:Entity", tgt);
    SetObjectRefFresh(b, FromObject, src);
    ToRefFresh(b, src, tgt);
    AppendTwice(b, o1, o2);
  }

  /** After the source reference, the node still has no target reference. */
  lemma ToRefFresh(b: Node, src: string, tgt: string)
    requires LacksRelationChildren(b)
    ensures var l1 := AppendChild(b, ObjectRef(FromObject, "o:Entity", src));
      SetObjectRef(l1, ToObject, tgt) == AppendChild(l1, ObjectRef(ToObject, "o:Entity", tgt))
  {
    RelationKeysDistinct();
    FieldIndexAppend(b.children, ObjectRef(FromObject, "o:Entity", src), ToObject);
    SetObjectRefFresh(AppendChild(b, ObjectRef(FromObject, "o:Entity", src)), ToObject, tgt);
  }

  /** The two cardinality writes then each append their field. */
  lemma RelationCardinalitiesAppended(b: Node, src: string, tgt: string, cardinality: string)
    requires LacksRelationChildren(b)
    ensures var l2 := b.(children := b.children + RelationRefs(src, tgt));
      && SetField(l2, ToCardinality, cardinality).Some?
      && SetField(SetField(l2, ToCardinality, cardinality).value, FromCardinality, cardinality)
           == Some(b.(children := b.children + RelationTail(src, tgt, cardinality)))
  {
    var rs, cs := RelationRefs(src, tgt), RelationCardinalities(cardinality);
    var l2 := b.(children := b.children + rs);
    CardinalityPrefixes(src, tgt, cardinality);
    FieldIndexTail(b.children, rs, ToCardinality);
    var l3 := AppendChild(l2, cs[0]);
    assert SetField(l2, ToCardinality, cardinality) == Some(l3);
    AppendExtended(b, rs, cs[0]);
    FieldIndexTail(b.children, rs + [cs[0]], FromCardinality);
    assert SetField(l3, FromCardinality, cardinality) == Some(AppendChild(l3, cs[1]));
    AppendExtended(b, rs + [cs[0]], cs[1]);
  }

  /** Each cardinality write finds no child of its name among those before it. */
  lemma CardinalityPrefixes(src: string, tgt: string, cardinality: string)
    ensures var rs, cs := RelationRefs(src, tgt), RelationCardinalities(cardinality);
      && |cs| == 2
      && (forall m :: 0 <= m < |rs| ==> NodeName(rs[m]) != ToCardinality)
      && (forall m :: 0 <= m < |rs + [cs[0]]| ==> NodeName((rs + [cs[0]])[m]) != FromCardinality)
      && rs + [cs[0]] + [cs[1]] == RelationTail(src, tgt, cardinality)
  {
    var rs, cs := RelationRefs(src, tgt), RelationCardinalities(cardinality);
    RelationKeysDistinct();
    assert NodeName(rs[0]) == FromObject && NodeName(rs[1]) == ToObject && NodeName(cs[0]) == ToCardinality;
    assert rs + [cs[0]] == [rs[0], rs[1], cs[0]];
    assert rs + [cs[0]] + [cs[1]] == rs + cs;
  }

  /** Children of names other than `key` appended after children without
      one leave none named `key`. */
  lemma FieldIndexTail(cs: seq<Node>, ts: seq<Node>, key: string)
    requires FirstIndex(cs, Named(key)).None?
    requires forall m :: 0 <= m < |ts| ==> NodeName(ts[m]) != key
    ensures FirstIndex(cs + ts, Named(key)).None?
  {
    assert forall m :: 0 <= m < |cs + ts| ==> !Named(key)((cs + ts)[m]) by {
      forall m | 0 <= m < |cs + ts| ensures !Named(key)((cs + ts)[m]) {
        if m >= |cs| { assert (cs + ts)[m] == ts[m - |cs|]; }
      }
    }
  }

  /** The first child named `key` among appended children, after children
      without one. */
  lemma FieldIndexInTail(cs: seq<Node>, ts: seq<Node>, j: nat, key: string)
    requires FirstIndex(cs, Named(key)).None?
    requires j < |ts| && NodeName(ts[j]) == key && forall m :: 0 <= m < j ==> NodeName(ts[m]) != key
    ensures FirstIndex(cs + ts, Named(key)) == Some(|cs| + j)
  {
    forall m | 0 <= m < |cs| + j ensures !Named(key)((cs + ts)[m]) {
      if m >= |cs| { assert (cs + ts)[m] == ts[m - |cs|]; }
    }
    FirstIndexUnique(cs + ts, Named(key), |cs| + j);
  }

  /** Appended children leave the first child of a name already present
      where it was. */
  lemma FieldIndexBeforeTail(cs: seq<Node>, ts: seq<Node>, key: string)
    requires FirstIndex(cs, Named(key)).Some?
    ensures FirstIndex(cs + ts, Named(key)) == FirstIndex(cs, Named(key))
  {
    var i := FirstIndex(cs, Named(key)).value;
    FirstIndexUnique(cs + ts, Named(key), i);
  }

  /** Each write finds the relationship again where it was appended and
      replaces it there, so the whole run is one replacement of the
      appended basic node by the new relationship. */
  lemma CreateRelationSteps(d1: Node, a: seq<nat>, id: string, name: string, src: string, tgt: string,
                            cardinality: string, objectId: string, code: string)
    requires FindRelation(d1, id) == Some(a)
    requires At(d1, a) == Some(BuildBasicNode("o:Relationship", id, name, objectId, code))
    ensures RelationWrites(d1, id, src, tgt, cardinality)
      == Some(Put(d1, a, NewRelation(id, name, src, tgt, cardinality, objectId, code)))
  {
    var b := BuildBasicNode("o:Relationship", id, name, objectId, code);
    BasicLacksRelationChildren(id, name, objectId, code);
    RelationRefsAppended(b, src, tgt);
    RelationCardinalitiesAppended(b, src, tgt, cardinality);
    var l1 := SetObjectRef(b, FromObject, src);
    var l2 := SetObjectRef(l1, ToObject, tgt);
    var l3 := SetField(l2, ToCardinality, cardinality).value;
    var l4 := SetField(l3, FromCardinality, cardinality).value;
    var d2 := Put(d1, a, l1);
    FoundReplaced(d1, ["c:Relationships"], "o:Relationship", id, l1, []);
    assert SetFromRefOfRelation(d1, id, src) == Some(d2);
    var d3 := Put(d2, a, l2);
    FoundReplaced(d2, ["c:Relationships"], "o:Relationship", id, l2, []);
    assert SetToRefOfRelation(d2, id, tgt) == Some(d3);
    var d4 := Put(d3, a, l3);
    FoundReplaced(d3, ["c:Relationships"], "o:Relationship", id, l3, []);
    assert SetToCardinalityOfRelation(d3, id, cardinality) == Some(d4);
    assert SetFromCardinalityOfRelation(d4, id, cardinality) == Some(Put(d4, a, l4));
    PutPut(d1, a, l1, l2);
    AtPut(d1, a, l2);
    PutPut(d1, a, l2, l3);
    AtPut(d1, a, l3);
    PutPut(d1, a, l3, l4);
  }

  /** On a document holding ids and a `c:Relationships` list, the new
      relationship is appended last to that list, holds the source and
      target references and both cardinalities, is found under the
      allocated id, and nothing apart from the list changes. */
  lemma CreateRelationShape(doc: Node, src: string, tgt: string, name: string, cardinality: string,
                            objectId: string, code: string, b: seq<nat>)
    requires Matches(doc, "Id") != [] && FindNode(doc, ["c:Relationships"]).Some?
    requires At(doc, FindNode(doc, ["c:Relationships"]).value).Some?
    requires At(doc, FindNode(doc, ["c:Relationships"]).value).value.Element?
    ensures CreateRelation(doc, src, tgt, name, cardinality, objectId, code).Some?
    ensures var rs, r := FindNode(doc, ["c:Relationships"]).value, CreateRelation(doc, src, tgt, name, cardinality, objectId, code).value;
      var R, id := At(doc, FindNode(doc, ["c:Relationships"]).value).value, NextUniqueId(doc);
      && At(r, rs) == Some(AppendChild(R, NewRelation(id, name, src, tgt, cardinality, objectId, code)))
      && FindRelation(r, id) == Some(rs + [|R.children|])
      && (Apart(rs, b) ==> At(r, b) == At(doc, b))
  {
    var rs := FindNode(doc, ["c:Relationships"]).value;
    var R, id := At(doc, rs).value, NextUniqueId(doc);
    var bn := BuildBasicNode("o:Relationship", id, name, objectId, code);
    var n := NewRelation(id, name, src, tgt, cardinality, objectId, code);
    var a := rs + [|R.children|];
    var d1 := Put(doc, rs, AppendChild(R, bn));
    AppendedRelationFound(doc, rs, bn, id);
    CreateRelationSteps(d1, a, id, name, src, tgt, cardinality, objectId, code);
    var r := Put(d1, a, n);
    assert CreateRelation(doc, src, tgt, name, cardinality, objectId, code) == Some(r);
    ReplaceAppended(doc, rs, bn, n, b);
    FoundReplaced(d1, ["c:Relationships"], "o:Relationship", id, n, []);
  }

  /** Appending a child and then replacing it is appending the replacement. */
  lemma ReplaceAppended(doc: Node, rs: seq<nat>, c: Node, n: Node, b: seq<nat>)
    requires At(doc, rs).Some? && At(doc, rs).value.Element?
    ensures var R := At(doc, rs).value;
      var r := Put(Put(doc, rs, AppendChild(R, c)), rs + [|R.children|], n);
      && At(r, rs) == Some(AppendChild(R, n))
      && (Apart(rs, b) ==> At(r, b) == At(doc, b))
  {
    var R := At(doc, rs).value;
    var a := rs + [|R.children|];
    var d1 := Put(doc, rs, AppendChild(R, c));
    AtPut(doc, rs, AppendChild(R, c));
    AtConcat(d1, rs, [|R.children|]);
    AtPutChild(d1, rs, |R.children|, n);
    assert (R.children + [c])[|R.children| := n] == R.children + [n];
    if Apart(rs, b) {
      ApartBelow(rs, a, b);
      PutFrame(d1, a, n, b);
      PutFrame(doc, rs, AppendChild(R, c), b);
    }
  }

  /** The appended basic node is found under the next unique id. */
  lemma AppendedRelationFound(doc: Node, rs: seq<nat>, bn: Node, id: string)
    requires Matches(doc, "Id") != [] && FindNode(doc, ["c:Relationships"]) == Some(rs)
    requires At(doc, rs).Some? && At(doc, rs).value.Element?
    requires NodeName(bn) == "o:Relationship" && GetAttribute(bn, "Id") == id && id == NextUniqueId(doc)
    ensures var R := At(doc, rs).value; var d1 := Put(doc, rs, AppendChild(R, bn));
      && AppendAt(doc, rs, bn) == Some(d1)
      && At(d1, rs) == Some(AppendChild(R, bn))
      && At(d1, rs + [|R.children|]) == Some(bn)
      && FindRelation(d1, id) == Some(rs + [|R.children|])
  {
    var R := At(doc, rs).value;
    AppendAtEffect(doc, rs, bn, "Id");
    var d1 := Put(doc, rs, AppendChild(R, bn));
    LocatePut(doc, ModelPath + ["c:Relationships"], rs, AppendChild(R, bn));
    FreshAmong(doc, rs, "o:Relationship", bn);
    AtPut(doc, rs, AppendChild(R, bn));
    FoundAt(d1, ["c:Relationships"], NamedWith("o:Relationship", "Id", id), rs, |R.children|);
  }

  /** The new relationship reads its source and target and both
      cardinalities back, and keeps the id and name it was built with. */
  lemma NewRelationReads(id: string, name: string, src: string, tgt: string, cardinality: string,
                         objectId: string, code: string)
    ensures var n := NewRelation(id, name, src, tgt, cardinality, objectId, code);
      && GetAttribute(n, "Id") == id
      && ObjectRefOf(n, FromObject) == Some(src) && ObjectRefOf(n, ToObject) == Some(tgt)
      && FieldText(n, FromCardinality) == Some(cardinality) && FieldText(n, ToCardinality) == Some(cardinality)
      && FieldText(n, "a:Name") == Some(name)
  {
    var b := BuildBasicNode("o:Relationship", id, name, objectId, code);
    BasicLacksRelationChildren(id, name, objectId, code);
    TailRefsRead(b, src, tgt, cardinality);
    TailCardinalitiesRead(b, src, tgt, cardinality);
    TailKeepsField(b, RelationTail(src, tgt, cardinality), "a:Name");
  }

  /** Appended children leave the text of a field already present as it was. */
  lemma TailKeepsField(b: Node, ts: seq<Node>, key: string)
    requires b.Element? && FieldIndex(b, key).Some?
    ensures FieldText(b.(children := b.children + ts), key) == FieldText(b, key)
  {
    var i := FieldIndex(b, key).value;
    FieldIndexBeforeTail(b.children, ts, key);
    assert (b.children + ts)[i] == b.children[i];
  }

  /** The four appended children one by one, with their names. */
  lemma TailShape(src: string, tgt: string, cardinality: string)
    ensures var ts := RelationTail(src, tgt, cardinality);
      && |ts| == 4
      && ts[0] == ObjectRef(FromObject, "o:Entity", src) && ts[1] == ObjectRef(ToObject, "o:Entity", tgt)
      && ts[2] == Field(ToCardinality, cardinality) && ts[3] == Field(FromCardinality, cardinality)
      && NodeName(ts[0]) == FromObject && NodeName(ts[1]) == ToObject
      && NodeName(ts[2]) == ToCardinality && NodeName(ts[3]) == FromCardinality
  {
  }

  /** Both references read back on any node that lacked the relation children. */
  lemma TailRefsRead(b: Node, src: string, tgt: string, cardinality: string)
    requires LacksRelationChildren(b)
    ensures var n := b.(children := b.children + RelationTail(src, tgt, cardinality));
      ObjectRefOf(n, FromObject) == Some(src) && ObjectRefOf(n, ToObject) == Some(tgt)
  {
    var ts := RelationTail(src, tgt, cardinality);
    TailShape(src, tgt, cardinality);
    RelationKeysDistinct();
    TailObjectRead(b, ts, 0, FromObject, src);
    TailObjectRead(b, ts, 1, ToObject, tgt);
  }

  /** Both cardinalities read back on any node that lacked the relation children. */
  lemma TailCardinalitiesRead(b: Node, src: string, tgt: string, cardinality: string)
    requires LacksRelationChildren(b)
    ensures var n := b.(children := b.children + RelationTail(src, tgt, cardinality));
      FieldText(n, FromCardinality) == Some(cardinality) && FieldText(n, ToCardinality) == Some(cardinality)
  {
    TailToCardinalityRead(b, src, tgt, cardinality);
    TailFromCardinalityRead(b, src, tgt, cardinality);
  }

  lemma TailToCardinalityRead(b: Node, src: string, tgt: string, cardinality: string)
    requires b.Element? && FieldIndex(b, ToCardinality).None?
    ensures FieldText(b.(children := b.children + RelationTail(src, tgt, cardinality)), ToCardinality) == Some(cardinality)
  {
    var ts := RelationTail(src, tgt, cardinality);
    TailShape(src, tgt, cardinality);
    RelationKeysDistinct();
    assert forall m :: 0 <= m < 2 ==> NodeName(ts[m]) != ToCardinality;
    TailFieldRead(b, ts, 2, ToCardinality, cardinality);
  }

  lemma TailFromCardinalityRead(b: Node, src: string, tgt: string, cardinality: string)
    requires b.Element? && FieldIndex(b, FromCardinality).None?
    ensures FieldText(b.(children := b.children + RelationTail(src, tgt, cardinality)), FromCardinality) == Some(cardinality)
  {
    var ts := RelationTail(src, tgt, cardinality);
    TailShape(src, tgt, cardinality);
    RelationKeysDistinct();
    assert forall m :: 0 <= m < 3 ==> NodeName(ts[m]) != FromCardinality;
    TailFieldRead(b, ts, 3, FromCardinality, cardinality);
  }

  /** The four names of the relation children are distinct. */
  lemma RelationKeysDistinct()
    ensures FromObject != ToObject && ToCardinality != FromCardinality
    ensures FromObject != ToCardinality && FromObject != FromCardinality
    ensures ToObject != ToCardinality && ToObject != FromCardinality
  {
    assert FromObject[8] != ToObject[8] && ToCardinality[8] != FromCardinality[8];
    assert FromObject[0] != ToCardinality[0] && ToObject[0] != FromCardinality[0];
  }

  /** An appended reference reads back when nothing before it bears its name. */
  lemma TailObjectRead(b: Node, ts: seq<Node>, j: nat, key: string, target: string)
    requires b.Element? && FieldIndex(b, key).None?
    requires j < |ts| && ts[j] == ObjectRef(key, "o:Entity", target)
    requires forall m :: 0 <= m < j ==> NodeName(ts[m]) != key
    ensures ObjectRefOf(b.(children := b.children + ts), key) == Some(target)
  {
    FieldIndexInTail(b.children, ts, j, key);
    assert (b.children + ts)[|b.children| + j] == ts[j];
    assert FieldIndex(ts[j], "o:Entity") == Some(0);
  }

  /** An appended field reads back when nothing before it bears its name. */
  lemma TailFieldRead(b: Node, ts: seq<Node>, j: nat, key: string, value: string)
    requires b.Element? && FieldIndex(b, key).None?
    requires j < |ts| && ts[j] == Field(key, value)
    requires forall m :: 0 <= m < j ==> NodeName(ts[m]) != key
    ensures FieldText(b.(children := b.children + ts), key) == Some(value)
  {
    FieldIndexInTail(b.children, ts, j, key);
    assert (b.children + ts)[|b.children| + j] == ts[j];
  }
}
