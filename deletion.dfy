/** The deletions of `DataModel` and of the `CDMModel` of
    src/parsers/CDMModel.ts, and the symbol search they use to find what
    must go with a relationship or an entity. */
module Deletion {
  import opened Xml
  import opened Store
  import opened Ops
  import opened Relations

  /** The predicate of `findSymbolByObjectId`: a child named `symbolName`
      whose first `objectName` child's first `refObjectName` child has the
      `Ref`. `None` where such a symbol lacks either child: the source then
      reads the children or the attribute of `undefined` and throws. */
  function SymbolRefers(n: Node, symbolName: string, refObjectName: string, refId: string, objectName: string): Option<bool>
  {
    if NodeName(n) != symbolName then Some(false)
    else
      var i :- FieldIndex(n, objectName);
      var k :- FieldIndex(Kids(n)[i], refObjectName);
      Some(GetAttribute(Kids(Kids(n)[i])[k], "Ref") == refId)
  }

  function SymbolOf(symbolName: string, refObjectName: string, refId: string, objectName: string): Node -> Option<bool>
  {
    (n: Node) => SymbolRefers(n, symbolName, refObjectName, refId, objectName)
  }

  /** `findSymbolByObjectId(symbolName, refObjectName, refId, objectName)`
      over the diagram's `c:Symbols`: `Some(None)` for `undefined` (no
      symbol refers to `refId`); `None` where the source throws. */
  function FindSymbol(doc: Node, symbolName: string, refObjectName: string, refId: string, objectName: string): (r: Option<Option<seq<nat>>>)
    ensures r.Some? <==> (FindNode(doc, SymbolsPath).Some?
      && !TryFirst(Kids(At(doc, FindNode(doc, SymbolsPath).value).value), SymbolOf(symbolName, refObjectName, refId, objectName)).Throws?)
    ensures r.Some? && r.value.Some? ==>
      var ss := FindNode(doc, SymbolsPath).value;
      && |r.value.value| == |ss| + 1 && r.value.value[..|ss|] == ss && At(doc, r.value.value).Some?
    ensures r.Some? && r.value.Some? ==>
      var ss := FindNode(doc, SymbolsPath).value; var k := r.value.value[|ss|];
      && r.value.value == ss + [k] && k < |Kids(At(doc, ss).value)|
      && NodeName(Kids(At(doc, ss).value)[k]) == symbolName
  {
    var ss :- FindNode(doc, SymbolsPath);
    match TryFirst(Kids(At(doc, ss).value), SymbolOf(symbolName, refObjectName, refId, objectName))
    case Throws => None
    case Miss => Some(None)
    case Hit(i) =>
      AtConcat(doc, ss, [i]);
      assert (ss + [i])[..|ss|] == ss;
      Some(Some(ss + [i]))
  }

  /** `findRelationSymbolByEntityId(relationId)`. */
  function FindRelationSymbol(doc: Node, relationId: string): Option<Option<seq<nat>>>
  {
    FindSymbol(doc, "o:RelationshipSymbol", "o:Relationship", relationId, "c:Object")
  }

  /** `deleteRelation(relationId)` of `DataModel`: remove the relationship's
      symbol from `c:Symbols`, then the relationship from `c:Relationships`.
      `None` where the source throws: no such relationship or symbol, or a
      malformed relationship symbol met in the search. */
  function DeleteRelation(doc: Node, relationId: string): (r: Option<Node>)
    ensures r.Some? ==> FindRelation(doc, relationId).Some?
    ensures r.Some? ==> FindRelationSymbol(doc, relationId).Some? && FindRelationSymbol(doc, relationId).value.Some?
  {
    var ra :- FindRelation(doc, relationId);
    var found :- FindRelationSymbol(doc, relationId);
    var sa :- found;
    RemoveAt(RemoveAt(doc, sa).value, ra)
  }

  /** The relationships list and the symbol list each lose exactly the
      child found, the first relationship with the id and the first
      relationship symbol referring to it, and nothing apart from the two
      lists changes. */
  lemma DeleteRelationEffect(doc: Node, relationId: string, b: seq<nat>)
    requires DeleteRelation(doc, relationId).Some?
    ensures FindNode(doc, ["c:Relationships"]).Some? && FindNode(doc, SymbolsPath).Some?
    ensures var rs, ss := FindNode(doc, ["c:Relationships"]).value, FindNode(doc, SymbolsPath).value;
      var R, S := At(doc, rs).value, At(doc, ss).value;
      var i, k := FindRelation(doc, relationId).value[|rs|], FindRelationSymbol(doc, relationId).value.value[|ss|];
      var r := DeleteRelation(doc, relationId).value;
      && R.Element? && i < |R.children| && FirstIndex(R.children, NamedWith("o:Relationship", "Id", relationId)) == Some(i)
      && S.Element? && k < |S.children| && TryFirst(S.children, SymbolOf("o:RelationshipSymbol", "o:Relationship", relationId, "c:Object")) == Hit(k)
      && At(r, rs) == Some(RemoveChildAt(R, i))
      && At(r, ss) == Some(RemoveChildAt(S, k))
      && (Apart(rs, b) && Apart(ss, b) ==> At(r, b) == At(doc, b))
  {
    var rs, ss := FindNode(doc, ["c:Relationships"]).value, FindNode(doc, SymbolsPath).value;
    var R, S := At(doc, rs).value, At(doc, ss).value;
    var i := FirstIndex(Kids(R), NamedWith("o:Relationship", "Id", relationId)).value;
    var k := FindRelationSymbol(doc, relationId).value.value[|ss|];
    assert FindRelation(doc, relationId).value == rs + [i];
    ListApartFromSymbols(doc, "c:Relationships");
    RemoveChildEffect(doc, ss, k, rs);
    RemoveChildEffect(doc, ss, k, b);
    var d1 := RemoveAt(doc, ss + [k]).value;
    RemoveChildEffect(d1, rs, i, ss);
    RemoveChildEffect(d1, rs, i, b);
  }

  /** `deleteRelation(relationId)` of the `CDMModel` revision: only the
      relationship is removed. */
  function DeleteRelationKeepingSymbols(doc: Node, relationId: string): (r: Option<Node>)
    ensures r.Some? <==> FindRelation(doc, relationId).Some?
  {
    var ra :- FindRelation(doc, relationId);
    RemoveAt(doc, ra)
  }

  /** The relationships list loses exactly the first relationship with the
      id, and nothing apart from that list changes; in particular the
      symbols stay as they were. */
  lemma DeleteRelationKeepingSymbolsEffect(doc: Node, relationId: string, b: seq<nat>)
    requires DeleteRelationKeepingSymbols(doc, relationId).Some?
    ensures FindNode(doc, ["c:Relationships"]).Some?
    ensures var rs := FindNode(doc, ["c:Relationships"]).value;
      var R, i := At(doc, rs).value, FindRelation(doc, relationId).value[|rs|];
      var r := DeleteRelationKeepingSymbols(doc, relationId).value;
      && R.Element? && i < |R.children| && FirstIndex(R.children, NamedWith("o:Relationship", "Id", relationId)) == Some(i)
      && At(r, rs) == Some(RemoveChildAt(R, i))
      && (Apart(rs, b) ==> At(r, b) == At(doc, b))
      && (FindNode(doc, SymbolsPath).Some? ==> At(r, FindNode(doc, SymbolsPath).value) == At(doc, FindNode(doc, SymbolsPath).value))
  {
    var rs := FindNode(doc, ["c:Relationships"]).value;
    var ra := FindRelation(doc, relationId).value;
    assert ra[..|ra| - 1] == rs && ra[|ra| - 1] == ra[|rs|];
    RemoveAtEffect(doc, ra, b);
    if FindNode(doc, SymbolsPath).Some? {
      ListApartFromSymbols(doc, "c:Relationships");
      RemoveAtEffect(doc, ra, FindNode(doc, SymbolsPath).value);
    }
  }

  // ---------------------------------------------------------------------
  // `deleteEntity` of `DataModel`.

  /** A change at `up` leaves the way to the node at `p` as it was: it is
      the node itself, or lies apart from it. */
  predicate Spares(up: seq<nat>, p: seq<nat>)
  {
    up == p || Apart(up, p)
  }

  /** The filter of `deleteEntity` on one child of `c:Relationships`: an
      `o:Relationship` whose `c:Object1` or `c:Object2` refers to the entity,
      both looked up through `getRefOfObjectInRelation` under the child's
      `Id`. `None` where either lookup throws. */
  function RelatesTo(doc: Node, c: Node, entityId: string): Option<bool>
  {
    if NodeName(c) != "o:Relationship" then Some(false)
    else
      var from :- GetRefOfObjectInRelation(doc, GetAttribute(c, "Id"), FromObject);
      var to :- GetRefOfObjectInRelation(doc, GetAttribute(c, "Id"), ToObject);
      Some(from == entityId || to == entityId)
  }

  /** The `Id`s of the children `RelatesTo` keeps, in order. */
  function RelatedRelationIds(doc: Node, cs: seq<Node>, entityId: string): Option<seq<string>>
  {
    if cs == [] then Some([])
    else
      var keep :- RelatesTo(doc, cs[0], entityId);
      var rest :- RelatedRelationIds(doc, cs[1..], entityId);
      Some((if keep then [GetAttribute(cs[0], "Id")] else []) + rest)
  }

  /** The children of `c:Relationships`, none where the model holds no such list. */
  function RelationshipNodes(doc: Node): seq<Node>
  {
    match FindNode(doc, ["c:Relationships"])
    case None => []
    case Some(rs) => Kids(At(doc, rs).value)
  }

  /** `relatedRelationIds` of `deleteEntity`. */
  function RelatedIds(doc: Node, entityId: string): Option<seq<string>>
  {
    RelatedRelationIds(doc, RelationshipNodes(doc), entityId)
  }

  /** The filter succeeds exactly when no child makes it throw. */
  lemma {:induction false} RelatedRelationIdsDefined(doc: Node, cs: seq<Node>, entityId: string)
    ensures RelatedRelationIds(doc, cs, entityId).Some?
      <==> forall j :: 0 <= j < |cs| ==> RelatesTo(doc, cs[j], entityId).Some?
  {
    if cs != [] {
      RelatedRelationIdsDefined(doc, cs[1..], entityId);
      var rest := RelatedRelationIds(doc, cs[1..], entityId);
      if RelatesTo(doc, cs[0], entityId).None? {
        assert RelatedRelationIds(doc, cs, entityId).None?;
        assert 0 <= 0 < |cs| && RelatesTo(doc, cs[0], entityId).None?;
      } else if rest.None? {
        assert RelatedRelationIds(doc, cs, entityId).None?;
        var j :| 0 <= j < |cs[1..]| && RelatesTo(doc, cs[1..][j], entityId).None?;
        assert cs[1..][j] == cs[j + 1];
        assert 0 <= j + 1 < |cs| && RelatesTo(doc, cs[j + 1], entityId).None?;
      } else {
        assert RelatedRelationIds(doc, cs, entityId).Some?;
        forall j | 0 <= j < |cs| ensures RelatesTo(doc, cs[j], entityId).Some? {
          if j > 0 {
            assert cs[j] == cs[1..][j - 1];
          }
        }
      }
    }
  }

  /** Every id the filter lists is the `Id` of a child that relates to the entity. */
  lemma {:induction false} RelatedRelationIdsSound(doc: Node, cs: seq<Node>, entityId: string, id: string)
    requires RelatedRelationIds(doc, cs, entityId).Some? && id in RelatedRelationIds(doc, cs, entityId).value
    ensures exists j :: 0 <= j < |cs| && RelatesTo(doc, cs[j], entityId) == Some(true) && GetAttribute(cs[j], "Id") == id
  {
    var keep := RelatesTo(doc, cs[0], entityId).value;
    var head := if keep then [GetAttribute(cs[0], "Id")] else [];
    var rest := RelatedRelationIds(doc, cs[1..], entityId);
    assert rest.Some? && RelatedRelationIds(doc, cs, entityId).value == head + rest.value;
    if id in head {
      assert 0 <= 0 < |cs| && RelatesTo(doc, cs[0], entityId) == Some(true) && GetAttribute(cs[0], "Id") == id;
    } else {
      assert id in rest.value;
      RelatedRelationIdsSound(doc, cs[1..], entityId, id);
      var j :| 0 <= j < |cs[1..]| && RelatesTo(doc, cs[1..][j], entityId) == Some(true) && GetAttribute(cs[1..][j], "Id") == id;
      assert cs[1..][j] == cs[j + 1];
      assert 0 <= j + 1 < |cs| && RelatesTo(doc, cs[j + 1], entityId) == Some(true) && GetAttribute(cs[j + 1], "Id") == id;
    }
  }

  /** The filter lists the `Id` of every child that relates to the entity. */
  lemma {:induction false} RelatedRelationIdsComplete(doc: Node, cs: seq<Node>, entityId: string, j: nat)
    requires RelatedRelationIds(doc, cs, entityId).Some?
    requires j < |cs| && RelatesTo(doc, cs[j], entityId) == Some(true)
    ensures GetAttribute(cs[j], "Id") in RelatedRelationIds(doc, cs, entityId).value
  {
    if j > 0 {
      assert cs[1..][j - 1] == cs[j];
      RelatedRelationIdsComplete(doc, cs[1..], entityId, j - 1);
    }
  }

  /** `relatedRelationIds.forEach(deleteRelation)`. */
  function DeleteRelations(doc: Node, ids: seq<string>): Option<Node>
    decreases |ids|
  {
    if ids == [] then Some(doc)
    else
      var d :- DeleteRelation(doc, ids[0]);
      DeleteRelations(d, ids[1..])
  }

  /** `RemoveAt` replaces the parent by itself less one child, which keeps its head. */
  lemma RemoveAtAsPut(doc: Node, a: seq<nat>)
    requires RemoveAt(doc, a).Some?
    ensures var up := a[..|a| - 1];
      && At(doc, up).Some? && At(doc, up).value.Element?
      && a[|a| - 1] < |At(doc, up).value.children|
      && var s := RemoveChildAt(At(doc, up).value, a[|a| - 1]);
      && RemoveAt(doc, a) == Some(Put(doc, up, s)) && Head(s) == Head(At(doc, up).value)
  {
    var up, i := a[..|a| - 1], a[|a| - 1];
    assert a == up + [i];
    AtConcat(doc, up, [i]);
  }

  /** Removing a child under `up` keeps every model path whose node `up` spares. */
  lemma RemoveAtKeepsNode(doc: Node, a: seq<nat>, path: seq<string>)
    requires RemoveAt(doc, a).Some? && FindNode(doc, path).Some?
    requires Spares(a[..|a| - 1], FindNode(doc, path).value)
    ensures FindNode(RemoveAt(doc, a).value, path) == FindNode(doc, path)
  {
    var up := a[..|a| - 1];
    RemoveAtAsPut(doc, a);
    var s := RemoveChildAt(At(doc, up).value, a[|a| - 1]);
    if up == FindNode(doc, path).value {
      LocatePut(doc, ModelPath + path, up, s);
    } else {
      LocatePutApart(doc, ModelPath + path, up, s);
    }
  }

  /** `deleteRelation` keeps every model path whose node both lists spare. */
  lemma DeleteRelationKeepsNode(doc: Node, relationId: string, path: seq<string>)
    requires DeleteRelation(doc, relationId).Some? && FindNode(doc, path).Some?
    requires FindNode(doc, ["c:Relationships"]).Some? && FindNode(doc, SymbolsPath).Some?
    requires Spares(FindNode(doc, ["c:Relationships"]).value, FindNode(doc, path).value)
    requires Spares(FindNode(doc, SymbolsPath).value, FindNode(doc, path).value)
    ensures FindNode(DeleteRelation(doc, relationId).value, path) == FindNode(doc, path)
  {
    var rs, ss := FindNode(doc, ["c:Relationships"]).value, FindNode(doc, SymbolsPath).value;
    var ra, sa := FindRelation(doc, relationId).value, FindRelationSymbol(doc, relationId).value.value;
    ListApartFromSymbols(doc, "c:Relationships");
    var d1 := RemoveAt(doc, sa).value;
    assert sa[..|sa| - 1] == ss;
    assert ra[..|ra| - 1] == rs;
    RemoveAtKeepsNode(doc, sa, path);
    RemoveAtKeepsNode(doc, sa, ["c:Relationships"]);
    RemoveAtKeepsNode(d1, ra, path);
  }

  /** Deleting relationships keeps the relationship list and the symbol
      list where they were. */
  lemma {:induction false} DeleteRelationsKeepLists(doc: Node, ids: seq<string>)
    requires DeleteRelations(doc, ids).Some?
    ensures FindNode(DeleteRelations(doc, ids).value, ["c:Relationships"]) == FindNode(doc, ["c:Relationships"])
    ensures FindNode(DeleteRelations(doc, ids).value, SymbolsPath) == FindNode(doc, SymbolsPath)
    decreases |ids|
  {
    if ids != [] {
      var d := DeleteRelation(doc, ids[0]).value;
      DeleteRelationEffect(doc, ids[0], []);
      ListApartFromSymbols(doc, "c:Relationships");
      DeleteRelationKeepsNode(doc, ids[0], ["c:Relationships"]);
      DeleteRelationKeepsNode(doc, ids[0], SymbolsPath);
      DeleteRelationsKeepLists(d, ids[1..]);
    }
  }

  /** Deleting relationships keeps every other model path whose node both
      lists spare. */
  lemma {:induction false} DeleteRelationsKeepNode(doc: Node, ids: seq<string>, path: seq<string>)
    requires DeleteRelations(doc, ids).Some? && FindNode(doc, path).Some?
    requires FindNode(doc, ["c:Relationships"]).Some? ==> Spares(FindNode(doc, ["c:Relationships"]).value, FindNode(doc, path).value)
    requires FindNode(doc, SymbolsPath).Some? ==> Spares(FindNode(doc, SymbolsPath).value, FindNode(doc, path).value)
    ensures FindNode(DeleteRelations(doc, ids).value, path) == FindNode(doc, path)
    decreases |ids|
  {
    if ids != [] {
      var d := DeleteRelation(doc, ids[0]).value;
      DeleteRelationEffect(doc, ids[0], []);
      DeleteRelationKeepsNode(doc, ids[0], path);
      DeleteRelationsKeepLists(d, []);
      ListApartFromSymbols(doc, "c:Relationships");
      DeleteRelationKeepsNode(doc, ids[0], ["c:Relationships"]);
      DeleteRelationKeepsNode(doc, ids[0], SymbolsPath);
      DeleteRelationsKeepNode(d, ids[1..], path);
    }
  }

  /** Deleting relationships changes nothing apart from the two lists. */
  lemma {:induction false} DeleteRelationsFrame(doc: Node, ids: seq<string>, b: seq<nat>)
    requires DeleteRelations(doc, ids).Some?
    requires FindNode(doc, ["c:Relationships"]).Some? ==> Apart(FindNode(doc, ["c:Relationships"]).value, b)
    requires FindNode(doc, SymbolsPath).Some? ==> Apart(FindNode(doc, SymbolsPath).value, b)
    ensures At(DeleteRelations(doc, ids).value, b) == At(doc, b)
    decreases |ids|
  {
    if ids != [] {
      var d := DeleteRelation(doc, ids[0]).value;
      DeleteRelationEffect(doc, ids[0], b);
      ListApartFromSymbols(doc, "c:Relationships");
      DeleteRelationKeepsNode(doc, ids[0], ["c:Relationships"]);
      DeleteRelationKeepsNode(doc, ids[0], SymbolsPath);
      DeleteRelationsFrame(d, ids[1..], b);
    }
  }

  /** `deleteRelation` keeps the relationship list and the symbol list where they were. */
  lemma DeleteRelationKeepsLists(doc: Node, relationId: string)
    requires DeleteRelation(doc, relationId).Some?
    ensures FindNode(doc, ["c:Relationships"]).Some? && FindNode(doc, SymbolsPath).Some?
    ensures FindNode(DeleteRelation(doc, relationId).value, ["c:Relationships"]) == FindNode(doc, ["c:Relationships"])
    ensures FindNode(DeleteRelation(doc, relationId).value, SymbolsPath) == FindNode(doc, SymbolsPath)
  {
    DeleteRelationEffect(doc, relationId, []);
    ListApartFromSymbols(doc, "c:Relationships");
    DeleteRelationKeepsNode(doc, relationId, ["c:Relationships"]);
    DeleteRelationKeepsNode(doc, relationId, SymbolsPath);
  }

  /** Each deleted id takes one child out of the relationship list and one
      out of the symbol list. */
  lemma {:induction false} DeleteRelationsCount(doc: Node, ids: seq<string>)
    requires DeleteRelations(doc, ids).Some?
    requires FindNode(doc, ["c:Relationships"]).Some? && FindNode(doc, SymbolsPath).Some?
    ensures var r, rs, ss := DeleteRelations(doc, ids).value, FindNode(doc, ["c:Relationships"]).value, FindNode(doc, SymbolsPath).value;
      && At(r, rs).Some? && |Kids(At(r, rs).value)| == |Kids(At(doc, rs).value)| - |ids|
      && At(r, ss).Some? && |Kids(At(r, ss).value)| == |Kids(At(doc, ss).value)| - |ids|
    decreases |ids|
  {
    if ids != [] {
      var d := DeleteRelation(doc, ids[0]).value;
      DeleteRelationEffect(doc, ids[0], []);
      DeleteRelationKeepsLists(doc, ids[0]);
      DeleteRelationsCount(d, ids[1..]);
    }
  }

  /** A removal from the symbol list that takes out child `k` and, when
      there is one, child `j` of the list as it was: `j` moves down one
      place once `k` before it is gone. */
  function RemoveSymbols(S: Node, k: nat, j: Option<nat>): (r: Node)
    requires S.Element? && k < |S.children| && (j.Some? ==> j.value < |S.children| && j.value != k)
    ensures r.Element? && Head(r) == Head(S)
    ensures |r.children| == |S.children| - (if j.Some? then 2 else 1)
  {
    match j
    case None => RemoveChildAt(S, k)
    case Some(j) => RemoveChildAt(RemoveChildAt(S, k), if j < k then j else j - 1)
  }

  lemma RemoveChildAtMultiset(n: Node, i: nat)
    requires n.Element? && i < |n.children|
    ensures multiset(RemoveChildAt(n, i).children) == multiset(n.children) - multiset{n.children[i]}
  {
    var cs := n.children;
    assert cs == cs[..i] + [cs[i]] + cs[i + 1..];
    assert multiset(cs) == multiset(cs[..i]) + multiset{cs[i]} + multiset(cs[i + 1..]);
  }

  lemma RemoveTwoMultiset(S: Node, k: nat, j: nat)
    requires S.Element? && k < |S.children| && j < |S.children| && j != k
    ensures multiset(RemoveChildAt(RemoveChildAt(S, k), if j < k then j else j - 1).children)
      == multiset(S.children) - multiset{S.children[k]} - multiset{S.children[j]}
  {
    var S1 := RemoveChildAt(S, k);
    var j': nat := if j < k then j else j - 1;
    RemoveChildAtMultiset(S, k);
    assert S1.children[j'] == S.children[j];
    RemoveChildAtMultiset(S1, j');
  }

  /** Exactly the symbols named go: the one at `k`, and the one at `j` when
      there is one, whatever their order. */
  lemma RemoveSymbolsRemoves(S: Node, k: nat, j: Option<nat>)
    requires S.Element? && k < |S.children| && (j.Some? ==> j.value < |S.children| && j.value != k)
    ensures j.None? ==> multiset(RemoveSymbols(S, k, j).children) == multiset(S.children) - multiset{S.children[k]}
    ensures j.Some? ==> (multiset(RemoveSymbols(S, k, j).children)
      == multiset(S.children) - multiset{S.children[k]} - multiset{S.children[j.value]})
  {
    match j
    case None =>
      assert RemoveSymbols(S, k, j) == RemoveChildAt(S, k);
      RemoveChildAtMultiset(S, k);
    case Some(jv) =>
      var R := RemoveChildAt(RemoveChildAt(S, k), if jv < k then jv else jv - 1);
      assert RemoveSymbols(S, k, j) == R;
      RemoveTwoMultiset(S, k, jv);
  }

  /** The positions in `c:Symbols` of the entity's `o:EntitySymbol` and of
      the first `o:NoteLinkSymbol` whose `c:SourceSymbol` refers to that
      symbol's `Id`, if any. `None` where the source throws: no entity
      symbol, or a malformed symbol met in either search. */
  function SymbolsToRemove(doc: Node, entityId: string): (r: Option<(nat, Option<nat>)>)
    ensures r.Some? ==> FindNode(doc, SymbolsPath).Some?
    ensures r.Some? ==>
      var S := Kids(At(doc, FindNode(doc, SymbolsPath).value).value);
      && r.value.0 < |S| && NodeName(S[r.value.0]) == "o:EntitySymbol"
      && (r.value.1.Some? ==> r.value.1.value < |S| && NodeName(S[r.value.1.value]) == "o:NoteLinkSymbol")
  {
    var found :- FindSymbol(doc, "o:EntitySymbol", "o:Entity", entityId, "c:Object");
    var sa :- found;
    var note :- FindSymbol(doc, "o:NoteLinkSymbol", "o:EntitySymbol", GetAttribute(At(doc, sa).value, "Id"), "c:SourceSymbol");
    var ss := FindNode(doc, SymbolsPath).value;
    Some((sa[|ss|], if note.Some? then Some(note.value[|ss|]) else None))
  }

  /** The first position is that of the first entity symbol referring to
      the entity; the second that of the first note link whose source is
      that symbol, and absent exactly when no note link refers to it. */
  lemma SymbolsToRemoveSpec(doc: Node, entityId: string)
    requires SymbolsToRemove(doc, entityId).Some?
    ensures var S := Kids(At(doc, FindNode(doc, SymbolsPath).value).value);
      var ks := SymbolsToRemove(doc, entityId).value;
      && TryFirst(S, SymbolOf("o:EntitySymbol", "o:Entity", entityId, "c:Object")) == Hit(ks.0)
      && var note := TryFirst(S, SymbolOf("o:NoteLinkSymbol", "o:EntitySymbol", GetAttribute(S[ks.0], "Id"), "c:SourceSymbol"));
      && (ks.1.None? <==> note.Miss?)
      && (ks.1.Some? ==> note == Hit(ks.1.value))
  {
    var ss := FindNode(doc, SymbolsPath).value;
    var S := Kids(At(doc, ss).value);
    FindSymbolSpec(doc, "o:EntitySymbol", "o:Entity", entityId, "c:Object");
    var k := TryFirst(S, SymbolOf("o:EntitySymbol", "o:Entity", entityId, "c:Object")).index;
    var id := GetAttribute(S[k], "Id");
    FindSymbolSpec(doc, "o:NoteLinkSymbol", "o:EntitySymbol", id, "c:SourceSymbol");
  }

  /** What a symbol search found, in terms of the search over `c:Symbols`. */
  lemma FindSymbolSpec(doc: Node, symbolName: string, refObjectName: string, refId: string, objectName: string)
    requires FindSymbol(doc, symbolName, refObjectName, refId, objectName).Some?
    ensures FindNode(doc, SymbolsPath).Some? && At(doc, FindNode(doc, SymbolsPath).value).Some?
    ensures var ss := FindNode(doc, SymbolsPath).value;
      var S := Kids(At(doc, ss).value);
      var t := TryFirst(S, SymbolOf(symbolName, refObjectName, refId, objectName));
      var f := FindSymbol(doc, symbolName, refObjectName, refId, objectName).value;
      && (f.None? <==> t.Miss?)
      && (f.Some? ==> (t.Hit? && f.value == ss + [t.index] && f.value[|ss|] == t.index
                       && At(doc, f.value) == Some(S[t.index])))
  {
    var ss := FindNode(doc, SymbolsPath).value;
    var t := TryFirst(Kids(At(doc, ss).value), SymbolOf(symbolName, refObjectName, refId, objectName));
    if t.Hit? {
      AtChild(doc, ss, t.index);
      assert (ss + [t.index])[|ss|] == t.index;
    }
  }

  /** `deleteEntity(entityId)` of `DataModel`: every relationship the
      filter keeps is deleted with its symbol, then the entity's symbol and
      the note link to it leave `c:Symbols`, and the entity found at the
      start leaves `c:Entities`. `None` where the source throws. */
  function DeleteEntity(doc: Node, entityId: string): (r: Option<Node>)
    ensures r.Some? ==> (FindEntity(doc, entityId).Some? && RelatedIds(doc, entityId).Some?
      && DeleteRelations(doc, RelatedIds(doc, entityId).value).Some?
      && SymbolsToRemove(DeleteRelations(doc, RelatedIds(doc, entityId).value).value, entityId).Some?)
  {
    var ea :- FindEntity(doc, entityId);
    var ids :- RelatedIds(doc, entityId);
    var d1 :- DeleteRelations(doc, ids);
    var ks :- SymbolsToRemove(d1, entityId);
    var ss := FindNode(d1, SymbolsPath).value;
    RemoveAt(Put(d1, ss, RemoveSymbols(At(d1, ss).value, ks.0, ks.1)), ea)
  }

  /** What the relationship deletions of `deleteEntity` leave alone: the
      entity list, the entity found in it, and where the symbol list is. */
  lemma DeleteEntityStage(doc: Node, entityId: string)
    requires DeleteEntity(doc, entityId).Some?
    ensures FindNode(doc, ["c:Entities"]).Some? && FindNode(doc, SymbolsPath).Some?
    ensures var d1 := DeleteRelations(doc, RelatedIds(doc, entityId).value).value;
      var es := FindNode(doc, ["c:Entities"]).value;
      && FindNode(d1, ["c:Entities"]) == Some(es) && At(d1, es) == At(doc, es)
      && FindEntity(d1, entityId) == FindEntity(doc, entityId)
      && FindNode(d1, SymbolsPath) == FindNode(doc, SymbolsPath)
      && FindNode(d1, ["c:Relationships"]) == FindNode(doc, ["c:Relationships"])
  {
    var ids := RelatedIds(doc, entityId).value;
    var d1 := DeleteRelations(doc, ids).value;
    DeleteRelationsKeepLists(doc, ids);
    var es := FindNode(doc, ["c:Entities"]).value;
    if FindNode(doc, ["c:Relationships"]).Some? {
      ListsApart(doc, "c:Relationships", "c:Entities");
    }
    EntitiesApartFromSymbols(doc);
    DeleteRelationsKeepNode(doc, ids, ["c:Entities"]);
    DeleteRelationsFrame(doc, ids, es);
  }

  /** The last two steps of `deleteEntity`, seen from the lists. */
  lemma DeleteEntityLastSteps(doc: Node, entityId: string, b: seq<nat>)
    requires DeleteEntity(doc, entityId).Some?
    ensures FindNode(doc, ["c:Entities"]).Some? && FindNode(doc, SymbolsPath).Some?
    ensures var d1 := DeleteRelations(doc, RelatedIds(doc, entityId).value).value;
      var ks := SymbolsToRemove(d1, entityId).value;
      var es, ss := FindNode(doc, ["c:Entities"]).value, FindNode(d1, SymbolsPath).value;
      var E, i := At(doc, es).value, FindEntity(doc, entityId).value[|es|];
      var r := DeleteEntity(doc, entityId).value;
      && E.Element? && i < |E.children|
      && At(r, es) == Some(RemoveChildAt(E, i))
      && At(r, ss) == Some(RemoveSymbols(At(d1, ss).value, ks.0, ks.1))
      && (Apart(es, b) && Apart(ss, b) ==> At(r, b) == At(d1, b))
  {
    DeleteEntityStage(doc, entityId);
    var d1 := DeleteRelations(doc, RelatedIds(doc, entityId).value).value;
    var ks := SymbolsToRemove(d1, entityId).value;
    var es, ss := FindNode(doc, ["c:Entities"]).value, FindNode(doc, SymbolsPath).value;
    var ea := FindEntity(doc, entityId).value;
    var X := RemoveSymbols(At(d1, ss).value, ks.0, ks.1);
    var d2 := Put(d1, ss, X);
    EntitiesApartFromSymbols(d1);
    assert ea[..|ea| - 1] == es;
    PutEffect(d1, ss, X, es);
    PutEffect(d1, ss, X, b);
    RemoveAtEffect(d2, ea, ss);
    RemoveAtEffect(d2, ea, b);
  }

  /** `deleteEntity` takes out of `c:Entities` exactly the first entity
      with that id; every other entity stays, in order. */
  lemma DeleteEntityEntities(doc: Node, entityId: string)
    requires DeleteEntity(doc, entityId).Some?
    ensures FindNode(doc, ["c:Entities"]).Some?
    ensures var es := FindNode(doc, ["c:Entities"]).value;
      var E, i := At(doc, es).value, FindEntity(doc, entityId).value[|es|];
      && E.Element? && i < |E.children|
      && FirstIndex(E.children, NamedWith("o:Entity", "Id", entityId)) == Some(i)
      && At(DeleteEntity(doc, entityId).value, es) == Some(RemoveChildAt(E, i))
  {
    DeleteEntityLastSteps(doc, entityId, []);
  }

  /** `deleteEntity` takes one symbol out of `c:Symbols` per relationship
      it deletes, then the entity's symbol and, when there is one, the note
      link to it. */
  lemma DeleteEntitySymbols(doc: Node, entityId: string)
    requires DeleteEntity(doc, entityId).Some?
    ensures FindNode(doc, SymbolsPath).Some?
    ensures var ss := FindNode(doc, SymbolsPath).value;
      var ids := RelatedIds(doc, entityId).value;
      var ks := SymbolsToRemove(DeleteRelations(doc, ids).value, entityId).value;
      var r := DeleteEntity(doc, entityId).value;
      && At(r, ss).Some?
      && |Kids(At(r, ss).value)| == |Kids(At(doc, ss).value)| - |ids| - (if ks.1.Some? then 2 else 1)
  {
    DeleteEntityStage(doc, entityId);
    DeleteEntityLastSteps(doc, entityId, []);
    var ids := RelatedIds(doc, entityId).value;
    var d1 := DeleteRelations(doc, ids).value;
    var ss := FindNode(doc, SymbolsPath).value;
    var ks := SymbolsToRemove(d1, entityId).value;
    var X := RemoveSymbols(At(d1, ss).value, ks.0, ks.1);
    assert |Kids(At(d1, ss).value)| == |Kids(At(doc, ss).value)| - |ids| by {
      if ids != [] {
        DeleteRelationKeepsLists(doc, ids[0]);
        DeleteRelationsCount(doc, ids);
      }
    }
    assert |X.children| == |Kids(At(d1, ss).value)| - (if ks.1.Some? then 2 else 1);
  }

  /** When the model holds a relationship list, `deleteEntity` takes one
      relationship out of it per related id. */
  lemma DeleteEntityRelationships(doc: Node, entityId: string)
    requires DeleteEntity(doc, entityId).Some? && FindNode(doc, ["c:Relationships"]).Some?
    ensures var rs := FindNode(doc, ["c:Relationships"]).value;
      var r := DeleteEntity(doc, entityId).value;
      && At(r, rs).Some?
      && |Kids(At(r, rs).value)| == |Kids(At(doc, rs).value)| - |RelatedIds(doc, entityId).value|
  {
    var rs := FindNode(doc, ["c:Relationships"]).value;
    DeleteEntityStage(doc, entityId);
    DeleteEntityLastSteps(doc, entityId, rs);
    ListsApart(doc, "c:Entities", "c:Relationships");
    ListApartFromSymbols(doc, "c:Relationships");
    DeleteRelationsCount(doc, RelatedIds(doc, entityId).value);
  }

  /** Nothing apart from the three lists changes. */
  lemma DeleteEntityFrame(doc: Node, entityId: string, b: seq<nat>)
    requires DeleteEntity(doc, entityId).Some?
    requires FindNode(doc, ["c:Entities"]).Some? && FindNode(doc, SymbolsPath).Some?
    requires Apart(FindNode(doc, ["c:Entities"]).value, b) && Apart(FindNode(doc, SymbolsPath).value, b)
    requires FindNode(doc, ["c:Relationships"]).Some? ==> Apart(FindNode(doc, ["c:Relationships"]).value, b)
    ensures At(DeleteEntity(doc, entityId).value, b) == At(doc, b)
  {
    DeleteEntityStage(doc, entityId);
    DeleteEntityLastSteps(doc, entityId, b);
    DeleteRelationsFrame(doc, RelatedIds(doc, entityId).value, b);
  }

  // ---------------------------------------------------------------------
  // What `deleteEntity` leaves of the relationships, where ids are unique.

  /** No two `o:Relationship` children share an `Id`, which the engine's own
      allocations ensure (`Store.NextUniqueIdFresh`). */
  predicate DistinctRelationIds(cs: seq<Node>)
  {
    forall i, j :: 0 <= i < j < |cs| && NodeName(cs[i]) == "o:Relationship" && NodeName(cs[j]) == "o:Relationship"
      ==> GetAttribute(cs[i], "Id") != GetAttribute(cs[j], "Id")
  }

  /** The relationship a relationship symbol refers to, when it is well formed. */
  function RelationSymbolRef(n: Node): Option<string>
  {
    if NodeName(n) != "o:RelationshipSymbol" then None
    else
      var i :- FieldIndex(n, "c:Object");
      var k :- FieldIndex(Kids(n)[i], "o:Relationship");
      Some(GetAttribute(Kids(Kids(n)[i])[k], "Ref"))
  }

  /** The search of `findRelationSymbolByEntityId` hits exactly the symbols
      that refer to the relationship. */
  lemma SymbolRefersRef(n: Node, relationId: string)
    ensures SymbolOf("o:RelationshipSymbol", "o:Relationship", relationId, "c:Object")(n) == Some(true)
      <==> RelationSymbolRef(n) == Some(relationId)
  {
  }

  /** No two relationship symbols refer to the same relationship. */
  predicate SingleRelationSymbols(ss: seq<Node>)
  {
    forall i, j :: 0 <= i < j < |ss| && RelationSymbolRef(ss[i]).Some? ==> RelationSymbolRef(ss[i]) != RelationSymbolRef(ss[j])
  }

  predicate NoRelationWithId(cs: seq<Node>, relationId: string)
  {
    forall k :: 0 <= k < |cs| && NodeName(cs[k]) == "o:Relationship" ==> GetAttribute(cs[k], "Id") != relationId
  }

  predicate NoSymbolFor(ss: seq<Node>, relationId: string)
  {
    forall k :: 0 <= k < |ss| ==> RelationSymbolRef(ss[k]) != Some(relationId)
  }

  /** Every child of `ds` is one of `cs`. */
  predicate Within(ds: seq<Node>, cs: seq<Node>)
  {
    forall c :: c in ds ==> c in cs
  }

  /** Every child of `cs` other than a relationship with one of the `ids` is still in `ds`. */
  predicate KeepsOthers(cs: seq<Node>, ds: seq<Node>, ids: seq<string>)
  {
    forall k :: 0 <= k < |cs| && !(NodeName(cs[k]) == "o:Relationship" && GetAttribute(cs[k], "Id") in ids) ==> cs[k] in ds
  }

  lemma WithinTrans(x: seq<Node>, y: seq<Node>, z: seq<Node>)
    requires Within(x, y) && Within(y, z)
    ensures Within(x, z)
  {
  }

  lemma WithinNoRelation(ds: seq<Node>, cs: seq<Node>, relationId: string)
    requires Within(ds, cs) && NoRelationWithId(cs, relationId)
    ensures NoRelationWithId(ds, relationId)
  {
    forall k | 0 <= k < |ds| && NodeName(ds[k]) == "o:Relationship"
      ensures GetAttribute(ds[k], "Id") != relationId
    {
      assert ds[k] in cs;
      var m :| 0 <= m < |cs| && cs[m] == ds[k];
    }
  }

  lemma WithinNoSymbol(ds: seq<Node>, cs: seq<Node>, relationId: string)
    requires Within(ds, cs) && NoSymbolFor(cs, relationId)
    ensures NoSymbolFor(ds, relationId)
  {
    forall k | 0 <= k < |ds|
      ensures RelationSymbolRef(ds[k]) != Some(relationId)
    {
      assert ds[k] in cs;
      var m :| 0 <= m < |cs| && cs[m] == ds[k];
    }
  }

  /** A child at `i` leaves; the others keep their order. */
  lemma RemovedWithin(n: Node, i: nat)
    requires n.Element? && i < |n.children|
    ensures Within(RemoveChildAt(n, i).children, n.children)
    ensures forall k :: 0 <= k < |n.children| && k != i ==> n.children[k] in RemoveChildAt(n, i).children
  {
    var cs, ds := n.children, RemoveChildAt(n, i).children;
    forall c | c in ds ensures c in cs {
      var k :| 0 <= k < |ds| && ds[k] == c;
      if k < i {
        assert ds[k] == cs[k];
      } else {
        assert ds[k] == cs[k + 1];
      }
    }
    forall k | 0 <= k < |cs| && k != i ensures cs[k] in ds {
      if k < i {
        assert ds[k] == cs[k];
      } else {
        assert ds[k - 1] == cs[k];
      }
    }
  }

  /** Taking out the first relationship with an id, among relationships of
      distinct ids, leaves none with that id and all the others. */
  lemma RemoveFirstRelation(n: Node, relationId: string, i: nat)
    requires n.Element? && DistinctRelationIds(n.children)
    requires FirstIndex(n.children, NamedWith("o:Relationship", "Id", relationId)) == Some(i)
    ensures var ds := RemoveChildAt(n, i).children;
      && DistinctRelationIds(ds) && Within(ds, n.children) && NoRelationWithId(ds, relationId)
      && KeepsOthers(n.children, ds, [relationId])
  {
    var cs, ds := n.children, RemoveChildAt(n, i).children;
    assert NodeName(cs[i]) == "o:Relationship" && GetAttribute(cs[i], "Id") == relationId;
    RemovedWithin(n, i);
    forall a, b | 0 <= a < b < |ds| && NodeName(ds[a]) == "o:Relationship" && NodeName(ds[b]) == "o:Relationship"
      ensures GetAttribute(ds[a], "Id") != GetAttribute(ds[b], "Id")
    {
      if b < i {
        assert ds[a] == cs[a] && ds[b] == cs[b];
      } else if a < i {
        assert ds[a] == cs[a] && ds[b] == cs[b + 1];
      } else {
        assert ds[a] == cs[a + 1] && ds[b] == cs[b + 1];
      }
    }
    forall k | 0 <= k < |ds| && NodeName(ds[k]) == "o:Relationship"
      ensures GetAttribute(ds[k], "Id") != relationId
    {
      if k < i {
        assert ds[k] == cs[k];
      } else {
        assert ds[k] == cs[k + 1];
      }
    }
  }

  /** Taking out the first symbol of a relationship, where each relationship
      has at most one, leaves none for it. */
  lemma RemoveFirstSymbol(n: Node, relationId: string, k: nat)
    requires n.Element? && SingleRelationSymbols(n.children)
    requires TryFirst(n.children, SymbolOf("o:RelationshipSymbol", "o:Relationship", relationId, "c:Object")) == Hit(k)
    ensures var ds := RemoveChildAt(n, k).children;
      SingleRelationSymbols(ds) && Within(ds, n.children) && NoSymbolFor(ds, relationId)
  {
    var cs, ds := n.children, RemoveChildAt(n, k).children;
    SymbolRefersRef(cs[k], relationId);
    assert RelationSymbolRef(cs[k]) == Some(relationId);
    RemovedWithin(n, k);
    forall a, b | 0 <= a < b < |ds| && RelationSymbolRef(ds[a]).Some?
      ensures RelationSymbolRef(ds[a]) != RelationSymbolRef(ds[b])
    {
      if b < k {
        assert ds[a] == cs[a] && ds[b] == cs[b];
      } else if a < k {
        assert ds[a] == cs[a] && ds[b] == cs[b + 1];
      } else {
        assert ds[a] == cs[a + 1] && ds[b] == cs[b + 1];
      }
    }
    forall j | 0 <= j < |ds|
      ensures RelationSymbolRef(ds[j]) != Some(relationId)
    {
      if j < k {
        assert ds[j] == cs[j];
      } else {
        assert ds[j] == cs[j + 1];
      }
    }
  }

  /** The lists after one `deleteRelation`, as the two removals leave them. */
  lemma DeleteRelationLeaves(doc: Node, relationId: string)
    requires DeleteRelation(doc, relationId).Some?
    ensures FindNode(doc, ["c:Relationships"]).Some? && FindNode(doc, SymbolsPath).Some?
    ensures var d, rs, ss := DeleteRelation(doc, relationId).value, FindNode(doc, ["c:Relationships"]).value, FindNode(doc, SymbolsPath).value;
      && FindNode(d, ["c:Relationships"]) == Some(rs) && FindNode(d, SymbolsPath) == Some(ss)
      && var R, S := At(doc, rs).value, At(doc, ss).value;
      && DistinctRelationIds(Kids(R)) ==> (
        var ds := Kids(At(d, rs).value);
        DistinctRelationIds(ds) && Within(ds, Kids(R)) && NoRelationWithId(ds, relationId)
        && KeepsOthers(Kids(R), ds, [relationId]))
    ensures var d, ss := DeleteRelation(doc, relationId).value, FindNode(doc, SymbolsPath).value;
      var S := At(doc, ss).value;
      SingleRelationSymbols(Kids(S)) ==> (
        var ds := Kids(At(d, ss).value);
        SingleRelationSymbols(ds) && Within(ds, Kids(S)) && NoSymbolFor(ds, relationId))
  {
    DeleteRelationEffect(doc, relationId, []);
    DeleteRelationKeepsLists(doc, relationId);
    var rs, ss := FindNode(doc, ["c:Relationships"]).value, FindNode(doc, SymbolsPath).value;
    var R, S := At(doc, rs).value, At(doc, ss).value;
    if DistinctRelationIds(Kids(R)) {
      RemoveFirstRelation(R, relationId, FindRelation(doc, relationId).value[|rs|]);
    }
    if SingleRelationSymbols(Kids(S)) {
      RemoveFirstSymbol(S, relationId, FindRelationSymbol(doc, relationId).value.value[|ss|]);
    }
  }

  /** Deleting relationships one id after another, where the relationship
      ids are distinct, leaves no relationship with any of the ids, keeps
      every other child of the relationship list and adds nothing. */
  lemma {:induction false} DeleteRelationsLeaveRelations(doc: Node, ids: seq<string>)
    requires DeleteRelations(doc, ids).Some? && FindNode(doc, ["c:Relationships"]).Some?
    requires DistinctRelationIds(RelationshipNodes(doc))
    ensures FindNode(DeleteRelations(doc, ids).value, ["c:Relationships"]) == FindNode(doc, ["c:Relationships"])
    ensures var R0, R := RelationshipNodes(doc), RelationshipNodes(DeleteRelations(doc, ids).value);
      && DistinctRelationIds(R) && Within(R, R0) && KeepsOthers(R0, R, ids)
      && forall id :: id in ids ==> NoRelationWithId(R, id)
    decreases |ids|
  {
    DeleteRelationsKeepLists(doc, ids);
    if ids != [] {
      var d := DeleteRelation(doc, ids[0]).value;
      DeleteRelationLeaves(doc, ids[0]);
      DeleteRelationsLeaveRelations(d, ids[1..]);
      assert DeleteRelations(doc, ids) == DeleteRelations(d, ids[1..]);
      RelationStep(RelationshipNodes(doc), RelationshipNodes(d), RelationshipNodes(DeleteRelations(d, ids[1..]).value), ids);
    }
  }

  /** One id, then the rest: the two stages compose. */
  lemma RelationStep(R0: seq<Node>, R1: seq<Node>, R: seq<Node>, ids: seq<string>)
    requires ids != []
    requires Within(R1, R0) && NoRelationWithId(R1, ids[0]) && KeepsOthers(R0, R1, [ids[0]])
    requires Within(R, R1) && KeepsOthers(R1, R, ids[1..])
    requires forall id :: id in ids[1..] ==> NoRelationWithId(R, id)
    ensures Within(R, R0) && KeepsOthers(R0, R, ids)
    ensures forall id :: id in ids ==> NoRelationWithId(R, id)
  {
    WithinTrans(R, R1, R0);
    WithinNoRelation(R, R1, ids[0]);
    forall k | 0 <= k < |R0| && !(NodeName(R0[k]) == "o:Relationship" && GetAttribute(R0[k], "Id") in ids)
      ensures R0[k] in R
    {
      var x := R0[k];
      assert ids == [ids[0]] + ids[1..];
      assert !(NodeName(x) == "o:Relationship" && GetAttribute(x, "Id") in [ids[0]]);
      assert x in R1;
      var m :| 0 <= m < |R1| && R1[m] == x;
      assert !(NodeName(R1[m]) == "o:Relationship" && GetAttribute(R1[m], "Id") in ids[1..]);
    }
    forall id | id in ids
      ensures NoRelationWithId(R, id)
    {
      if id != ids[0] {
        assert id in ids[1..];
      }
    }
  }

  /** The children of the diagram's `c:Symbols`, none where there is no such list. */
  function DiagramSymbols(doc: Node): seq<Node>
  {
    match FindNode(doc, SymbolsPath)
    case None => []
    case Some(ss) => Kids(At(doc, ss).value)
  }

  /** Deleting relationships one id after another, where each relationship
      has at most one symbol, leaves no symbol of any of the ids and adds
      nothing to the symbol list. */
  lemma {:induction false} DeleteRelationsLeaveSymbols(doc: Node, ids: seq<string>)
    requires DeleteRelations(doc, ids).Some? && FindNode(doc, SymbolsPath).Some?
    requires SingleRelationSymbols(DiagramSymbols(doc))
    ensures FindNode(DeleteRelations(doc, ids).value, SymbolsPath) == FindNode(doc, SymbolsPath)
    ensures var S0, S := DiagramSymbols(doc), DiagramSymbols(DeleteRelations(doc, ids).value);
      && SingleRelationSymbols(S) && Within(S, S0)
      && forall id :: id in ids ==> NoSymbolFor(S, id)
    decreases |ids|
  {
    DeleteRelationsKeepLists(doc, ids);
    if ids != [] {
      var d := DeleteRelation(doc, ids[0]).value;
      DeleteRelationLeaves(doc, ids[0]);
      DeleteRelationsLeaveSymbols(d, ids[1..]);
      assert DeleteRelations(doc, ids) == DeleteRelations(d, ids[1..]);
      var S0, S1, S := DiagramSymbols(doc), DiagramSymbols(d), DiagramSymbols(DeleteRelations(d, ids[1..]).value);
      WithinTrans(S, S1, S0);
      WithinNoSymbol(S, S1, ids[0]);
      forall id | id in ids
        ensures NoSymbolFor(S, id)
      {
        if id != ids[0] {
          assert id in ids[1..];
        }
      }
    }
  }

  /** Among relationships of distinct ids, the lookup by `Id` in the filter of
      `deleteEntity` reads the relationship's own `c:Object1` and `c:Object2`. */
  lemma RelatesToLocal(doc: Node, entityId: string, j: nat)
    requires FindNode(doc, ["c:Relationships"]).Some? && DistinctRelationIds(RelationshipNodes(doc))
    requires j < |RelationshipNodes(doc)| && NodeName(RelationshipNodes(doc)[j]) == "o:Relationship"
    ensures var c := RelationshipNodes(doc)[j];
      var from, to := ObjectRefOf(c, FromObject), ObjectRefOf(c, ToObject);
      RelatesTo(doc, c, entityId) == if from.Some? && to.Some? then Some(from.value == entityId || to.value == entityId) else None
  {
    var rs := FindNode(doc, ["c:Relationships"]).value;
    var cs := RelationshipNodes(doc);
    var c := cs[j];
    var id := GetAttribute(c, "Id");
    var p := NamedWith("o:Relationship", "Id", id);
    assert p(c);
    forall i | 0 <= i < j
      ensures !p(cs[i])
    {
      if NodeName(cs[i]) == "o:Relationship" {
        assert GetAttribute(cs[i], "Id") != id;
      }
    }
    FirstIndexUnique(cs, p, j);
    FoundAt(doc, ["c:Relationships"], p, rs, j);
    AtChild(doc, rs, j);
    assert FindRelation(doc, id) == Some(rs + [j]) && At(doc, rs + [j]) == Some(c);
  }

  /** Removing the symbols of an entity adds none. */
  lemma RemoveSymbolsWithin(S: Node, k: nat, j: Option<nat>)
    requires S.Element? && k < |S.children| && (j.Some? ==> j.value < |S.children| && j.value != k)
    ensures Within(RemoveSymbols(S, k, j).children, S.children)
  {
    RemovedWithin(S, k);
    if j.Some? {
      var S1 := RemoveChildAt(S, k);
      RemovedWithin(S1, if j.value < k then j.value else j.value - 1);
      WithinTrans(RemoveSymbols(S, k, j).children, S1.children, S.children);
    }
  }

  /** `deleteEntity` keeps the relationship list and the symbol list where they were. */
  lemma DeleteEntityKeepsNode(doc: Node, entityId: string, path: seq<string>)
    requires DeleteEntity(doc, entityId).Some?
    requires path == ["c:Relationships"] || path == SymbolsPath
    requires FindNode(doc, path).Some?
    ensures FindNode(DeleteEntity(doc, entityId).value, path) == FindNode(doc, path)
  {
    var d2 := SymbolsRemoved(doc, entityId);
    var ea := FindEntity(doc, entityId).value;
    SymbolsRemovedKeeps(doc, entityId, path);
    EntityInList(doc, entityId);
    if path == SymbolsPath {
      EntitiesApartFromSymbols(d2);
    } else {
      ListsApart(d2, "c:Entities", "c:Relationships");
    }
    assert Spares(ea[..|ea| - 1], FindNode(d2, path).value);
    RemoveAtKeepsNode(d2, ea, path);
  }

  /** The document of `deleteEntity` once the symbols are gone and before the entity goes. */
  function SymbolsRemoved(doc: Node, entityId: string): Node
    requires DeleteEntity(doc, entityId).Some?
  {
    DeleteEntityBody(doc, entityId);
    var d1 := DeleteRelations(doc, RelatedIds(doc, entityId).value).value;
    var ks := SymbolsToRemove(d1, entityId).value;
    var ss := FindNode(d1, SymbolsPath).value;
    Put(d1, ss, RemoveSymbols(At(d1, ss).value, ks.0, ks.1))
  }

  /** Removing the symbols keeps the lists where they were. */
  lemma SymbolsRemovedKeeps(doc: Node, entityId: string, path: seq<string>)
    requires DeleteEntity(doc, entityId).Some?
    requires path == ["c:Relationships"] || path == SymbolsPath
    requires FindNode(doc, path).Some?
    ensures DeleteEntity(doc, entityId) == RemoveAt(SymbolsRemoved(doc, entityId), FindEntity(doc, entityId).value)
    ensures FindNode(SymbolsRemoved(doc, entityId), path) == FindNode(doc, path)
    ensures FindNode(SymbolsRemoved(doc, entityId), ["c:Entities"]) == FindNode(doc, ["c:Entities"])
  {
    DeleteEntityStage(doc, entityId);
    DeleteEntityBody(doc, entityId);
    var d1 := DeleteRelations(doc, RelatedIds(doc, entityId).value).value;
    var ss := FindNode(doc, SymbolsPath).value;
    var ks := SymbolsToRemove(d1, entityId).value;
    var X := RemoveSymbols(At(d1, ss).value, ks.0, ks.1);
    LocatePut(d1, ModelPath + path, ss, X);
    LocatePut(d1, ModelPath + ["c:Entities"], ss, X);
  }

  /** The steps of `deleteEntity`, unfolded once. */
  lemma DeleteEntityBody(doc: Node, entityId: string)
    requires DeleteEntity(doc, entityId).Some?
    ensures var d1 := DeleteRelations(doc, RelatedIds(doc, entityId).value).value;
      var ks := SymbolsToRemove(d1, entityId).value;
      var ss := FindNode(d1, SymbolsPath).value;
      var S := At(d1, ss).value;
      && S.Element? && ks.0 < |S.children| && (ks.1.Some? ==> ks.1.value < |S.children| && ks.1.value != ks.0)
      && DeleteEntity(doc, entityId) == RemoveAt(Put(d1, ss, RemoveSymbols(S, ks.0, ks.1)), FindEntity(doc, entityId).value)
  {
  }

  /** The entity found sits directly in the entity list. */
  lemma EntityInList(doc: Node, entityId: string)
    requires FindEntity(doc, entityId).Some?
    ensures FindNode(doc, ["c:Entities"]).Some?
    ensures var ea := FindEntity(doc, entityId).value;
      |ea| > 0 && ea[..|ea| - 1] == FindNode(doc, ["c:Entities"]).value
  {
  }

  /** After `deleteEntity` the relationship list is as the relationship
      deletions left it, and the symbol list holds no symbol they did not leave. */
  lemma DeleteEntityLists(doc: Node, entityId: string)
    requires DeleteEntity(doc, entityId).Some? && FindNode(doc, ["c:Relationships"]).Some?
    ensures FindNode(doc, SymbolsPath).Some?
    ensures var d1, r := DeleteRelations(doc, RelatedIds(doc, entityId).value).value, DeleteEntity(doc, entityId).value;
      && RelationshipNodes(r) == RelationshipNodes(d1)
      && Within(DiagramSymbols(r), DiagramSymbols(d1))
  {
    DeleteEntityStage(doc, entityId);
    var d1 := DeleteRelations(doc, RelatedIds(doc, entityId).value).value;
    var ss, rs := FindNode(doc, SymbolsPath).value, FindNode(doc, ["c:Relationships"]).value;
    var ks := SymbolsToRemove(d1, entityId).value;
    var S := At(d1, ss).value;
    assert S.Element? && ks.0 < |S.children| && (ks.1.Some? ==> ks.1.value < |S.children| && ks.1.value != ks.0);
    RemoveSymbolsWithin(S, ks.0, ks.1);
    DeleteEntityLastSteps(doc, entityId, rs);
    ListsApart(doc, "c:Entities", "c:Relationships");
    ListApartFromSymbols(doc, "c:Relationships");
    DeleteEntityKeepsNode(doc, entityId, SymbolsPath);
    DeleteEntityKeepsNode(doc, entityId, ["c:Relationships"]);
  }

  /** A relationship whose `c:Object1` or `c:Object2` refers to the entity:
      the ones the filter of `deleteEntity` selects. */
  predicate RefersTo(c: Node, entityId: string)
  {
    NodeName(c) == "o:Relationship"
    && (ObjectRefOf(c, FromObject) == Some(entityId) || ObjectRefOf(c, ToObject) == Some(entityId))
  }

  /** Where relationship ids are distinct, `deleteEntity` removes exactly
      the relationships whose `c:Object1` or `c:Object2` refers to the
      entity: none of them is left, every other child of `c:Relationships`
      stays, and nothing is added. */
  lemma DeleteEntityRemovesRelationships(doc: Node, entityId: string)
    requires DeleteEntity(doc, entityId).Some? && FindNode(doc, ["c:Relationships"]).Some?
    requires DistinctRelationIds(RelationshipNodes(doc))
    ensures var R0, R := RelationshipNodes(doc), RelationshipNodes(DeleteEntity(doc, entityId).value);
      && Within(R, R0)
      && (forall c :: c in R ==> !RefersTo(c, entityId))
      && (forall c :: c in R0 && !RefersTo(c, entityId) ==> c in R)
  {
    var R0, R := RelationshipNodes(doc), RelationshipNodes(DeleteEntity(doc, entityId).value);
    DeleteEntityRelationsWithin(doc, entityId);
    forall c | c in R
      ensures !RefersTo(c, entityId)
    {
      RemainingRelationUnrelated(doc, entityId, c);
    }
    forall c | c in R0 && !RefersTo(c, entityId)
      ensures c in R
    {
      UnrelatedRelationKept(doc, entityId, c);
    }
  }

  /** The relationships left by `deleteEntity` are among those there were. */
  lemma DeleteEntityRelationsWithin(doc: Node, entityId: string)
    requires DeleteEntity(doc, entityId).Some? && FindNode(doc, ["c:Relationships"]).Some?
    requires DistinctRelationIds(RelationshipNodes(doc))
    ensures Within(RelationshipNodes(DeleteEntity(doc, entityId).value), RelationshipNodes(doc))
  {
    DeleteEntityLists(doc, entityId);
    DeleteRelationsLeaveRelations(doc, RelatedIds(doc, entityId).value);
  }

  /** A relationship left by `deleteEntity` does not refer to the entity. */
  lemma RemainingRelationUnrelated(doc: Node, entityId: string, c: Node)
    requires DeleteEntity(doc, entityId).Some? && FindNode(doc, ["c:Relationships"]).Some?
    requires DistinctRelationIds(RelationshipNodes(doc))
    requires c in RelationshipNodes(DeleteEntity(doc, entityId).value)
    ensures !RefersTo(c, entityId)
  {
    var ids := RelatedIds(doc, entityId).value;
    var R0, R := RelationshipNodes(doc), RelationshipNodes(DeleteEntity(doc, entityId).value);
    DeleteEntityLists(doc, entityId);
    DeleteRelationsLeaveRelations(doc, ids);
    if NodeName(c) == "o:Relationship" {
      var j :| 0 <= j < |R0| && R0[j] == c;
      var m :| 0 <= m < |R| && R[m] == c;
      assert GetAttribute(c, "Id") !in ids by {
        forall id | id in ids
          ensures GetAttribute(c, "Id") != id
        {
          assert NoRelationWithId(R, id);
          assert !(NodeName(R[m]) == "o:Relationship" && GetAttribute(R[m], "Id") == id);
        }
      }
      RelatedIdAt(doc, entityId, j);
    }
  }

  /** Where ids are distinct, a relationship's id is among those the filter
      collects exactly when the relationship refers to the entity. */
  lemma RelatedIdAt(doc: Node, entityId: string, j: nat)
    requires FindNode(doc, ["c:Relationships"]).Some? && RelatedIds(doc, entityId).Some?
    requires DistinctRelationIds(RelationshipNodes(doc))
    requires j < |RelationshipNodes(doc)| && NodeName(RelationshipNodes(doc)[j]) == "o:Relationship"
    ensures GetAttribute(RelationshipNodes(doc)[j], "Id") in RelatedIds(doc, entityId).value
      <==> RefersTo(RelationshipNodes(doc)[j], entityId)
  {
    if RefersTo(RelationshipNodes(doc)[j], entityId) {
      ReferringIdCollected(doc, entityId, j);
    } else if GetAttribute(RelationshipNodes(doc)[j], "Id") in RelatedIds(doc, entityId).value {
      CollectedIdIsRelated(doc, entityId, j);
      RelatesToLocal(doc, entityId, j);
    }
  }

  /** The id of a relationship referring to the entity is collected. */
  lemma ReferringIdCollected(doc: Node, entityId: string, j: nat)
    requires FindNode(doc, ["c:Relationships"]).Some? && RelatedIds(doc, entityId).Some?
    requires DistinctRelationIds(RelationshipNodes(doc))
    requires j < |RelationshipNodes(doc)| && RefersTo(RelationshipNodes(doc)[j], entityId)
    ensures GetAttribute(RelationshipNodes(doc)[j], "Id") in RelatedIds(doc, entityId).value
  {
    var R0 := RelationshipNodes(doc);
    RelatedRelationIdsDefined(doc, R0, entityId);
    RelatesToLocal(doc, entityId, j);
    assert RelatesTo(doc, R0[j], entityId).Some?;
    RelatedRelationIdsComplete(doc, R0, entityId, j);
  }

  /** Where ids are distinct, a relationship whose id the filter collects
      is one it selects. */
  lemma CollectedIdIsRelated(doc: Node, entityId: string, j: nat)
    requires FindNode(doc, ["c:Relationships"]).Some? && RelatedIds(doc, entityId).Some?
    requires DistinctRelationIds(RelationshipNodes(doc))
    requires j < |RelationshipNodes(doc)| && NodeName(RelationshipNodes(doc)[j]) == "o:Relationship"
    requires GetAttribute(RelationshipNodes(doc)[j], "Id") in RelatedIds(doc, entityId).value
    ensures RelatesTo(doc, RelationshipNodes(doc)[j], entityId) == Some(true)
  {
    var R0 := RelationshipNodes(doc);
    RelatedRelationIdsSound(doc, R0, entityId, GetAttribute(R0[j], "Id"));
    var i :| 0 <= i < |R0| && RelatesTo(doc, R0[i], entityId) == Some(true) && GetAttribute(R0[i], "Id") == GetAttribute(R0[j], "Id");
    assert NodeName(R0[i]) == "o:Relationship";
    DistinctAt(R0, i, j);
  }

  /** Among relationships of distinct ids, two at different places have
      different ids. */
  lemma DistinctAt(cs: seq<Node>, i: nat, j: nat)
    requires DistinctRelationIds(cs) && i < |cs| && j < |cs|
    requires NodeName(cs[i]) == "o:Relationship" && NodeName(cs[j]) == "o:Relationship"
    ensures i != j ==> GetAttribute(cs[i], "Id") != GetAttribute(cs[j], "Id")
  {
    if j < i {
      assert GetAttribute(cs[j], "Id") != GetAttribute(cs[i], "Id");
    }
  }

  /** A child of `c:Relationships` that is not a relationship referring to
      the entity is still there after `deleteEntity`. */
  lemma UnrelatedRelationKept(doc: Node, entityId: string, c: Node)
    requires DeleteEntity(doc, entityId).Some? && FindNode(doc, ["c:Relationships"]).Some?
    requires DistinctRelationIds(RelationshipNodes(doc))
    requires c in RelationshipNodes(doc) && !RefersTo(c, entityId)
    ensures c in RelationshipNodes(DeleteEntity(doc, entityId).value)
  {
    var ids := RelatedIds(doc, entityId).value;
    var R0 := RelationshipNodes(doc);
    DeleteEntityLists(doc, entityId);
    DeleteRelationsLeaveRelations(doc, ids);
    var j :| 0 <= j < |R0| && R0[j] == c;
    if NodeName(c) == "o:Relationship" {
      RelatedIdAt(doc, entityId, j);
    }
    assert !(NodeName(R0[j]) == "o:Relationship" && GetAttribute(R0[j], "Id") in ids);
  }

  /** Where relationship ids are distinct and each relationship has at most
      one symbol, no symbol of a relationship that referred to the entity
      is left after `deleteEntity`, and no symbol is added. */
  lemma DeleteEntityRemovesRelationSymbols(doc: Node, entityId: string)
    requires DeleteEntity(doc, entityId).Some? && FindNode(doc, ["c:Relationships"]).Some?
    requires DistinctRelationIds(RelationshipNodes(doc)) && SingleRelationSymbols(DiagramSymbols(doc))
    ensures var R0, S := RelationshipNodes(doc), DiagramSymbols(DeleteEntity(doc, entityId).value);
      && Within(S, DiagramSymbols(doc))
      && forall c :: c in R0 && RefersTo(c, entityId) ==> NoSymbolFor(S, GetAttribute(c, "Id"))
  {
    var ids := RelatedIds(doc, entityId).value;
    var d1 := DeleteRelations(doc, ids).value;
    var R0, S := RelationshipNodes(doc), DiagramSymbols(DeleteEntity(doc, entityId).value);
    DeleteEntityLists(doc, entityId);
    DeleteRelationsLeaveSymbols(doc, ids);
    WithinTrans(S, DiagramSymbols(d1), DiagramSymbols(doc));
    forall c | c in R0 && RefersTo(c, entityId)
      ensures NoSymbolFor(S, GetAttribute(c, "Id"))
    {
      var j :| 0 <= j < |R0| && R0[j] == c;
      RelatedIdAt(doc, entityId, j);
      WithinNoSymbol(S, DiagramSymbols(d1), GetAttribute(c, "Id"));
    }
  }
}
