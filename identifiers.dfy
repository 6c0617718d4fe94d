/** The identifier operations of `DataModel`: the search for the identifier
    naming an attribute, `removeIdentifierForEntity` and
    `addIdentifierForEntity`. Each works on the entity element; the
    document-level operation puts the changed entity back where it was. */
module Identifiers {
  import opened Xml
  import opened Numbers
  import opened Store
  import opened Ops

  // ---------------------------------------------------------------------
  // `findIdentifierReferencingAttributeId`.

  /** The predicate the search applies to one child of `c:Identifiers`:
      an `o:Identifier` whose first `c:Identifier.Attributes` holds an
      `o:EntityAttribute` with that `Ref`. `None` for an `o:Identifier`
      without `c:Identifier.Attributes`, where the source reads
      `undefined.childNodes`. */
  function Refers(n: Node, attributeId: string): Option<bool>
  {
    if NodeName(n) != "o:Identifier" then Some(false)
    else match FieldIndex(n, "c:Identifier.Attributes")
      case None => None
      case Some(k) => Some(FirstIndex(Kids(Kids(n)[k]), NamedWith("o:EntityAttribute", "Ref", attributeId)).Some?)
  }

  function ReferTo(attributeId: string): Node -> Option<bool>
  {
    (n: Node) => Refers(n, attributeId)
  }

  /** `findIdentifierReferencingAttributeId(identifiers, attributeId)`. */
  function FindReferencing(cs: seq<Node>, attributeId: string): Search
  {
    TryFirst(cs, ReferTo(attributeId))
  }

  /** How many children name the attribute. */
  function Referring(cs: seq<Node>, attributeId: string): nat
  {
    if cs == [] then 0
    else (if Refers(cs[0], attributeId) == Some(true) then 1 else 0) + Referring(cs[1..], attributeId)
  }

  /** The search misses exactly when nothing names the attribute and nothing throws. */
  lemma {:induction false} MissNoReferring(cs: seq<Node>, attributeId: string)
    requires FindReferencing(cs, attributeId).Miss?
    ensures Referring(cs, attributeId) == 0
  {
    if cs != [] {
      assert Refers(cs[0], attributeId) == Some(false);
      assert forall j :: 0 <= j < |cs[1..]| ==> cs[1..][j] == cs[j + 1];
      MissNoReferring(cs[1..], attributeId);
    }
  }

  /** Removing one child takes it out of the count. */
  lemma {:induction false} ReferringRemove(cs: seq<Node>, i: nat, attributeId: string)
    requires i < |cs|
    ensures Referring(cs[..i] + cs[i + 1..], attributeId)
      == Referring(cs, attributeId) - (if Refers(cs[i], attributeId) == Some(true) then 1 else 0)
  {
    if i == 0 {
      assert cs[..0] + cs[1..] == cs[1..];
    } else {
      var t := cs[..i] + cs[i + 1..];
      assert t[0] == cs[0] && t[1..] == cs[1..][..i - 1] + cs[1..][i..];
      ReferringRemove(cs[1..], i - 1, attributeId);
    }
  }

  /** Appending one child adds it to the count. */
  lemma {:induction false} ReferringAppend(cs: seq<Node>, c: Node, attributeId: string)
    ensures Referring(cs + [c], attributeId)
      == Referring(cs, attributeId) + (if Refers(c, attributeId) == Some(true) then 1 else 0)
  {
    if cs == [] {
      assert [] + [c] == [c] && [c][1..] == [];
    } else {
      assert (cs + [c])[0] == cs[0] && (cs + [c])[1..] == cs[1..] + [c];
      ReferringAppend(cs[1..], c, attributeId);
    }
  }

  /** A hit names the attribute, so the count is at least one. */
  lemma {:induction false} HitReferring(cs: seq<Node>, attributeId: string, i: nat)
    requires i < |cs| && Refers(cs[i], attributeId) == Some(true)
    ensures Referring(cs, attributeId) >= 1
  {
    if i > 0 {
      assert cs[1..][i - 1] == cs[i];
      HitReferring(cs[1..], attributeId, i - 1);
    }
  }

  // ---------------------------------------------------------------------
  // `removeIdentifierForEntity`.

  /** `c:Identifiers` once the identifier the search hits has been removed. */
  function IdentifiersLeft(ids: Node, attributeId: string): (r: Node)
    requires ids.Element? && !FindReferencing(ids.children, attributeId).Throws?
    ensures r.Element? && Head(r) == Head(ids)
    ensures Referring(r.children, attributeId)
      == if Referring(ids.children, attributeId) == 0 then 0 else Referring(ids.children, attributeId) - 1
  {
    match FindReferencing(ids.children, attributeId)
    case Miss =>
      MissNoReferring(ids.children, attributeId);
      ids
    case Hit(i) =>
      HitRemoveReferring(ids, i, attributeId);
      RemoveChildAt(ids, i)
  }

  /** Removing the child the search hits takes one off the count. */
  lemma HitRemoveReferring(ids: Node, i: nat, attributeId: string)
    requires ids.Element? && FindReferencing(ids.children, attributeId) == Hit(i)
    ensures i < |ids.children| && Referring(ids.children, attributeId) >= 1
    ensures Referring(RemoveChildAt(ids, i).children, attributeId) == Referring(ids.children, attributeId) - 1
  {
    assert i < |ids.children| && ReferTo(attributeId)(ids.children[i]) == Some(true);
    assert Refers(ids.children[i], attributeId) == Some(true);
    assert RemoveChildAt(ids, i).children == ids.children[..i] + ids.children[i + 1..];
    ReferringRemove(ids.children, i, attributeId);
    HitReferring(ids.children, attributeId, i);
  }

  /** `c:PrimaryIdentifier` is removed when there is one and none of its
      `o:Identifier` children has `Ref` equal to the attribute id. */
  predicate PrimaryDropped(entity: Node, attributeId: string)
  {
    match FieldIndex(entity, "c:PrimaryIdentifier")
    case None => false
    case Some(jp) => FirstIndex(Kids(Kids(entity)[jp]), NamedWith("o:Identifier", "Ref", attributeId)).None?
  }

  /** The middle step of `removeIdentifierForEntity`: `c:PrimaryIdentifier`
      leaves `e` when `PrimaryDropped(entity, …)`, `entity` being the element
      before anything was removed; `e` differs from it only inside the
      `c:Identifiers` at `ji`. The answer carries where that container is
      afterwards. */
  function SkipPrimary(e: Node, entity: Node, attributeId: string, ji: nat): (r: (Node, nat))
    requires e.Element? && entity.Element? && Names(e.children) == Names(entity.children)
    requires ji < |e.children| && NodeName(e.children[ji]) == "c:Identifiers"
    ensures r.0.Element? && Head(r.0) == Head(e)
    ensures r.1 < |r.0.children| && r.0.children[r.1] == e.children[ji]
    ensures !PrimaryDropped(entity, attributeId) ==> r == (e, ji)
  {
    if !PrimaryDropped(entity, attributeId) then (e, ji)
    else
      var jp := FieldIndex(entity, "c:PrimaryIdentifier").value;
      PrimaryRemoved(e, entity, attributeId, ji, jp);
      var k: nat := if jp < ji then ji - 1 else ji;
      (RemoveChildAt(e, jp), k)
  }

  /** `c:PrimaryIdentifier` goes exactly when `PrimaryDropped`, and no other name. */
  lemma SkipPrimaryNames(e: Node, entity: Node, attributeId: string, ji: nat)
    requires e.Element? && entity.Element? && Names(e.children) == Names(entity.children)
    requires ji < |e.children| && NodeName(e.children[ji]) == "c:Identifiers"
    ensures multiset(Names(SkipPrimary(e, entity, attributeId, ji).0.children)) == multiset(Names(e.children))
      - (if PrimaryDropped(entity, attributeId) then multiset{"c:PrimaryIdentifier"} else multiset{})
  {
    if PrimaryDropped(entity, attributeId) {
      PrimaryRemoved(e, entity, attributeId, ji, FieldIndex(entity, "c:PrimaryIdentifier").value);
    } else {
      assert multiset(Names(e.children)) - multiset{} == multiset(Names(e.children));
    }
  }

  /** Taking `c:PrimaryIdentifier` out of `e` removes that one name and
      moves `c:Identifiers` down by one when it came after. */
  lemma PrimaryRemoved(e: Node, entity: Node, attributeId: string, ji: nat, jp: nat)
    requires e.Element? && entity.Element? && Names(e.children) == Names(entity.children)
    requires ji < |e.children| && NodeName(e.children[ji]) == "c:Identifiers"
    requires FieldIndex(entity, "c:PrimaryIdentifier") == Some(jp)
    ensures jp < |e.children| && jp != ji
    ensures multiset(Names(RemoveChildAt(e, jp).children)) == multiset(Names(e.children)) - multiset{"c:PrimaryIdentifier"}
    ensures Head(RemoveChildAt(e, jp)) == Head(e)
    ensures var k := if jp < ji then ji - 1 else ji;
      k < |RemoveChildAt(e, jp).children| && RemoveChildAt(e, jp).children[k] == e.children[ji]
  {
    assert jp < |Kids(entity)| && Named("c:PrimaryIdentifier")(Kids(entity)[jp]);
    assert |Names(e.children)| == |Names(entity.children)| && NodeName(entity.children[jp]) == "c:PrimaryIdentifier";
    assert NodeName(e.children[jp]) == Names(e.children)[jp] == "c:PrimaryIdentifier";
    RemoveChildNames(e, jp);
    var d := RemoveChildAt(e, jp);
    if jp < ji {
      assert jp <= ji - 1 < |d.children| && d.children[ji - 1] == e.children[ji - 1 + 1];
    } else {
      assert ji < jp && d.children[ji] == e.children[ji];
    }
  }

  /** What `removeIdentifierForEntity` does to the entity element, step by
      step: the identifier naming the attribute leaves `c:Identifiers`, then
      `c:PrimaryIdentifier` leaves when `PrimaryDropped`, then `c:Identifiers`
      leaves when no `o:Identifier` is left in it. `None` where the source
      throws: no `c:Identifiers`, or a throw out of the search. */
  function DropIdentifier(entity: Node, attributeId: string): (r: Option<Node>)
    requires entity.Element?
    ensures r.Some? <==> (FieldIndex(entity, "c:Identifiers").Some?
      && !FindReferencing(Kids(entity.children[FieldIndex(entity, "c:Identifiers").value]), attributeId).Throws?)
    ensures r.Some? ==> r.value.Element? && Head(r.value) == Head(entity)
  {
    var ji :- FieldIndex(entity, "c:Identifiers");
    var ids := entity.children[ji];
    if FindReferencing(Kids(ids), attributeId).Throws? then None
    else
      assert NodeName(ids) == "c:Identifiers";
      var left := IdentifiersLeft(ids, attributeId);
      var e1 := entity.(children := entity.children[ji := left]);
      NamesUpdate(entity.children, ji, left);
      var (e2, ji2) := SkipPrimary(e1, entity, attributeId, ji);
      if FirstIndex(Kids(left), Named("o:Identifier")).Some? then Some(e2) else Some(RemoveChildAt(e2, ji2))
  }

  /** When an `o:Identifier` is left, the entity returned holds the list
      `IdentifiersLeft` as its first `c:Identifiers`: one reference to the
      attribute fewer than before, so none where there was at most one. */
  lemma DropIdentifierIds(entity: Node, attributeId: string)
    requires entity.Element? && DropIdentifier(entity, attributeId).Some?
    ensures FieldIndex(entity, "c:Identifiers").Some?
    ensures var ids := entity.children[FieldIndex(entity, "c:Identifiers").value];
      NodeName(ids) == "c:Identifiers" && ids.Element?
    ensures var r, ids := DropIdentifier(entity, attributeId).value, entity.children[FieldIndex(entity, "c:Identifiers").value];
      var left := IdentifiersLeft(ids, attributeId);
      FirstIndex(Kids(left), Named("o:Identifier")).Some? ==>
        && FieldIndex(r, "c:Identifiers").Some?
        && r.children[FieldIndex(r, "c:Identifiers").value] == left
        && Referring(left.children, attributeId)
           == (if Referring(ids.children, attributeId) == 0 then 0 else Referring(ids.children, attributeId) - 1)
        && (Referring(ids.children, attributeId) <= 1 ==> Referring(left.children, attributeId) == 0)
  {
    var ji := FieldIndex(entity, "c:Identifiers").value;
    var ids := entity.children[ji];
    assert NodeName(ids) == "c:Identifiers";
    var left := IdentifiersLeft(ids, attributeId);
    if FirstIndex(Kids(left), Named("o:Identifier")).Some? {
      var e1 := entity.(children := entity.children[ji := left]);
      NamesUpdate(entity.children, ji, left);
      var (e2, k) := SkipPrimary(e1, entity, attributeId, ji);
      assert DropIdentifier(entity, attributeId) == Some(e2);
      forall m | 0 <= m < ji
        ensures NodeName(e1.children[m]) != "c:Identifiers"
      {
        assert !Named("c:Identifiers")(entity.children[m]);
      }
      SkipPrimaryFirst(e1, entity, attributeId, ji);
      FirstIndexUnique(e2.children, Named("c:Identifiers"), k);
    }
  }

  /** `SkipPrimary` puts no `c:Identifiers` before the container where
      there was none before it. */
  lemma SkipPrimaryFirst(e: Node, entity: Node, attributeId: string, ji: nat)
    requires e.Element? && entity.Element? && Names(e.children) == Names(entity.children)
    requires ji < |e.children| && NodeName(e.children[ji]) == "c:Identifiers"
    requires forall m :: 0 <= m < ji ==> NodeName(e.children[m]) != "c:Identifiers"
    ensures var r := SkipPrimary(e, entity, attributeId, ji);
      forall m :: 0 <= m < r.1 ==> NodeName(r.0.children[m]) != "c:Identifiers"
  {
    if PrimaryDropped(entity, attributeId) {
      var jp := FieldIndex(entity, "c:PrimaryIdentifier").value;
      assert jp < |Kids(entity)| && Named("c:PrimaryIdentifier")(Kids(entity)[jp]);
      assert |Names(e.children)| == |Names(entity.children)|;
      var d := RemoveChildAt(e, jp);
      if jp < ji {
        assert SkipPrimary(e, entity, attributeId, ji) == (d, ji - 1);
        RemovedBeforeUnnamed(e, jp, ji, "c:Identifiers");
      } else {
        assert SkipPrimary(e, entity, attributeId, ji) == (d, ji);
      }
    }
  }

  /** Taking out a child before `ji` keeps the name off the `ji - 1`
      children that remain in front. */
  lemma RemovedBeforeUnnamed(e: Node, jp: nat, ji: nat, name: string)
    requires e.Element? && jp < ji <= |e.children|
    requires forall m :: 0 <= m < ji ==> NodeName(e.children[m]) != name
    ensures forall m :: 0 <= m < ji - 1 ==> NodeName(RemoveChildAt(e, jp).children[m]) != name
  {
    var d := RemoveChildAt(e, jp);
    forall m | 0 <= m < ji - 1
      ensures NodeName(d.children[m]) != name
    {
      var m0 := if jp <= m then m + 1 else m;
      assert m0 < ji && d.children[m] == e.children[m0];
    }
  }

  /** One child less of the name it bore. */
  lemma RemoveChildNames(n: Node, i: nat)
    requires n.Element? && i < |n.children|
    ensures multiset(Names(RemoveChildAt(n, i).children)) == multiset(Names(n.children)) - multiset{NodeName(n.children[i])}
  {
    assert RemoveChildAt(n, i).children == n.children[..i] + n.children[i + 1..];
    NamesRemoveCount(n.children, i);
  }

  /** The entity loses `c:PrimaryIdentifier` exactly when `PrimaryDropped`,
      and `c:Identifiers` exactly when no `o:Identifier` is left in it; no
      other child name comes or goes. */
  lemma DropIdentifierNames(entity: Node, attributeId: string)
    requires entity.Element? && DropIdentifier(entity, attributeId).Some?
    ensures var ids := entity.children[FieldIndex(entity, "c:Identifiers").value];
      NodeName(ids) == "c:Identifiers" && ids.Element?
    ensures var ids := entity.children[FieldIndex(entity, "c:Identifiers").value];
      var left := IdentifiersLeft(ids, attributeId);
      multiset(Names(DropIdentifier(entity, attributeId).value.children))
      == multiset(Names(entity.children))
         - (if PrimaryDropped(entity, attributeId) then multiset{"c:PrimaryIdentifier"} else multiset{})
         - (if "o:Identifier" in Names(left.children) then multiset{} else multiset{"c:Identifiers"})
  {
    var ji := FieldIndex(entity, "c:Identifiers").value;
    var ids := entity.children[ji];
    assert NodeName(ids) == "c:Identifiers";
    var left := IdentifiersLeft(ids, attributeId);
    var e1 := entity.(children := entity.children[ji := left]);
    NamesUpdate(entity.children, ji, left);
    NamedAbsent(left.children, "o:Identifier");
    var (e2, ji2) := SkipPrimary(e1, entity, attributeId, ji);
    SkipPrimaryNames(e1, entity, attributeId, ji);
    if "o:Identifier" !in Names(left.children) {
      RemoveChildNames(e2, ji2);
    }
  }

  // ---------------------------------------------------------------------
  // `addIdentifierForEntity`.

  /** The `c:Identifiers` the search runs over: the entity's first, or the
      empty one `addIdentifierForEntity` creates. */
  function IdentifiersOrEmpty(entity: Node): (r: Node)
    requires entity.Element?
    ensures r.Element? && r.name == "c:Identifiers"
    ensures FieldIndex(entity, "c:Identifiers").None? ==> r.children == []
  {
    var (e1, ji) := EnsureChild(entity, "c:Identifiers");
    assert NodeName(e1.children[ji]) == "c:Identifiers";
    e1.children[ji]
  }

  /** `document.createElement('c:PrimaryIdentifier')` holding a new `o:Identifier`. */
  const PrimaryShell: Node := Element("c:PrimaryIdentifier", [], [Empty("o:Identifier")])

  /** The element after the `c:PrimaryIdentifier` step, where that child is,
      and where its `o:Identifier` child (`primaryIdentifierRefNode`) is. */
  datatype Primary = Primary(node: Node, at: Option<nat>, ref: Option<nat>)

  /** The first `c:PrimaryIdentifier` and its first `o:Identifier`; when there
      is none and `isPrimary` is set, a new one is appended. The search is
      made on `e` after `c:Identifiers` may have been appended, which finds
      what the source finds on the entity before that. */
  function PrimaryStage(e: Node, isPrimary: bool): (r: Primary)
    requires e.Element?
    ensures r.node.Element? && Head(r.node) == Head(e)
    ensures |r.node.children| >= |e.children| && r.node.children[..|e.children|] == e.children
    ensures r.at == FieldIndex(r.node, "c:PrimaryIdentifier")
    ensures r.at.Some? ==> r.node.children[r.at.value].Element?
    ensures r.ref.Some? ==> r.at.Some?
    ensures r.at.Some? ==> r.ref == FirstIndex(Kids(r.node.children[r.at.value]), Named("o:Identifier"))
    ensures r.ref.Some? ==> r.node.children[r.at.value].children[r.ref.value].Element?
    ensures r.node == e || (r.node.children == e.children + [PrimaryShell] && isPrimary)
    ensures r.ref.None? ==> r.node == e
    ensures FieldIndex(e, "c:PrimaryIdentifier").Some? ==> r.node == e
    ensures isPrimary ==> r.at.Some?
  {
    match FieldIndex(e, "c:PrimaryIdentifier")
    case Some(jp) =>
      assert NodeName(e.children[jp]) == "c:PrimaryIdentifier";
      var k := FirstIndex(Kids(e.children[jp]), Named("o:Identifier"));
      if k.Some? then
        assert NodeName(Kids(e.children[jp])[k.value]) == "o:Identifier";
        Primary(e, Some(jp), k)
      else Primary(e, Some(jp), None)
    case None =>
      if isPrimary then
        FieldIndexAppend(e.children, PrimaryShell, "c:PrimaryIdentifier");
        var n := AppendChild(e, PrimaryShell);
        assert n.children[|e.children|] == PrimaryShell;
        FirstIndexUnique(PrimaryShell.children, Named("o:Identifier"), 0);
        Primary(n, Some(|e.children|), Some(0))
      else Primary(e, None, None)
  }

  /** `refNode.setAttribute('Ref', value)` on child `k` of child `j`. */
  function SetRefAt(n: Node, j: nat, k: nat, value: string): (r: Node)
    requires n.Element? && j < |n.children| && n.children[j].Element? && k < |n.children[j].children|
    requires n.children[j].children[k].Element?
    ensures r.Element? && Head(r) == Head(n) && Names(r.children) == Names(n.children)
    ensures forall i :: 0 <= i < |n.children| && i != j ==> r.children[i] == n.children[i]
    ensures r.children[j].Element? && Head(r.children[j]) == Head(n.children[j])
    ensures Names(r.children[j].children) == Names(n.children[j].children)
    ensures r.children[j].children[k] == SetAttribute(n.children[j].children[k], "Ref", value)
  {
    var p := n.children[j];
    var c := SetAttribute(p.children[k], "Ref", value);
    NamesUpdate(p.children, k, c);
    var q := p.(children := p.children[k := c]);
    NamesUpdate(n.children, j, q);
    n.(children := n.children[j := q])
  }

  /** `identifiers.appendChild(c)` for the child at `j`. */
  function AppendInto(n: Node, j: nat, c: Node): (r: Node)
    requires n.Element? && j < |n.children| && n.children[j].Element?
    ensures r.Element? && Head(r) == Head(n) && Names(r.children) == Names(n.children)
    ensures forall i :: 0 <= i < |n.children| && i != j ==> r.children[i] == n.children[i]
    ensures r.children[j] == AppendChild(n.children[j], c)
  {
    NamesUpdate(n.children, j, AppendChild(n.children[j], c));
    n.(children := n.children[j := AppendChild(n.children[j], c)])
  }

  /** The new identifier: `buildBasicNode('o:Identifier', 'Identifier_' +
      attributeId, {identifierId})`, then its `c:Identifier.Attributes`
      naming the attribute. */
  function NewIdentifier(identifierId: string, attributeId: string, objectId: string, code: string): Node
  {
    AppendChild(BuildBasicNode("o:Identifier", identifierId, "Identifier_" + attributeId, objectId, code),
                ObjectRef("c:Identifier.Attributes", "o:EntityAttribute", attributeId))
  }

  /** `primaryIdentifierRefNode` as the source first finds it: the first
      `o:Identifier` of the first `c:PrimaryIdentifier`. */
  function PrimaryRef(n: Node): Option<Node>
  {
    match FieldIndex(n, "c:PrimaryIdentifier")
    case None => None
    case Some(j) =>
      match FirstIndex(Kids(Kids(n)[j]), Named("o:Identifier"))
      case None => None
      case Some(k) => Some(Kids(Kids(n)[j])[k])
  }

  /** The entity once `c:Identifiers` exists and, for a primary identifier,
      `c:PrimaryIdentifier` too; with the index of `c:Identifiers`. */
  function Prepared(entity: Node, isPrimary: bool): (r: (Primary, nat))
    requires entity.Element?
    ensures r.0.node.Element? && Head(r.0.node) == Head(entity)
    ensures r.1 < |r.0.node.children| && FieldIndex(r.0.node, "c:Identifiers") == Some(r.1)
    ensures r.0.node.children[r.1] == IdentifiersOrEmpty(entity)
    ensures r.0.at == FieldIndex(r.0.node, "c:PrimaryIdentifier")
    ensures r.0.at.Some? ==> r.0.at.value != r.1 && r.0.node.children[r.0.at.value].Element?
    ensures r.0.ref.Some? ==> r.0.at.Some?
    ensures r.0.at.Some? ==> r.0.ref == FirstIndex(Kids(r.0.node.children[r.0.at.value]), Named("o:Identifier"))
    ensures r.0.ref.Some? ==> r.0.node.children[r.0.at.value].children[r.0.ref.value].Element?
    ensures isPrimary && (FieldIndex(entity, "c:PrimaryIdentifier").None? || PrimaryRef(entity).Some?) ==> r.0.ref.Some?
    ensures !isPrimary && FieldIndex(entity, "c:Identifiers").Some? ==> r.0.node == entity
    ensures !isPrimary ==> PrimaryRef(r.0.node) == PrimaryRef(entity)
  {
    var (e1, ji) := EnsureChild(entity, "c:Identifiers");
    var p := PrimaryStage(e1, isPrimary);
    assert FieldIndex(p.node, "c:Identifiers") == Some(ji) by {
      if p.node != e1 {
        FieldIndexAppend(e1.children, PrimaryShell, "c:Identifiers");
      }
    }
    assert p.node.children[ji] == e1.children[ji];
    assert FieldIndex(e1, "c:PrimaryIdentifier") == FieldIndex(entity, "c:PrimaryIdentifier") by {
      if e1 != entity {
        FieldIndexAppend(entity.children, Empty("c:Identifiers"), "c:PrimaryIdentifier");
      }
    }
    (p, ji)
  }

  /** What `addIdentifierForEntity` does to the entity element, step by step.
      `identifierId` is the next unique id of the document before the call.
      `None` where the search throws. */
  function AddIdentifier(entity: Node, attributeId: string, isPrimary: bool,
                         identifierId: string, objectId: string, code: string): (r: Option<Node>)
    requires entity.Element?
    ensures r.Some? <==> !FindReferencing(IdentifiersOrEmpty(entity).children, attributeId).Throws?
    ensures r.Some? ==> r.value.Element? && Head(r.value) == Head(entity)
  {
    var (p, ji) := Prepared(entity, isPrimary);
    var ids := p.node.children[ji];
    var found := FindReferencing(ids.children, attributeId);
    if found.Throws? then None
    else
      var target := if found.Hit? then GetAttribute(ids.children[found.index], "Id") else identifierId;
      var e3 := if isPrimary && p.ref.Some? then SetRefAt(p.node, p.at.value, p.ref.value, target) else p.node;
      if found.Hit? then
        var current := p.at.Some? && p.ref.Some?
          && GetAttribute(e3.children[p.at.value].children[p.ref.value], "Ref") == GetAttribute(ids.children[found.index], "Id");
        if !isPrimary && current then Some(RemoveChildAt(e3, p.at.value)) else Some(e3)
      else
        Some(AppendInto(e3, ji, NewIdentifier(identifierId, attributeId, objectId, code)))
  }

  /** An identifier without `c:Identifier.Attributes` names the attribute once
      that list, holding the attribute's reference, is appended. */
  lemma RefersAppended(b: Node, attributeId: string)
    requires b.Element? && b.name == "o:Identifier" && FieldIndex(b, "c:Identifier.Attributes").None?
    ensures Refers(AppendChild(b, ObjectRef("c:Identifier.Attributes", "o:EntityAttribute", attributeId)), attributeId) == Some(true)
  {
    var o := ObjectRef("c:Identifier.Attributes", "o:EntityAttribute", attributeId);
    FieldIndexAppend(b.children, o, "c:Identifier.Attributes");
    FirstIndexUnique(Kids(o), NamedWith("o:EntityAttribute", "Ref", attributeId), 0);
  }

  /** The identifier a call creates is an `o:Identifier` with the fresh id
      that names the attribute. */
  lemma NewIdentifierRefers(identifierId: string, attributeId: string, objectId: string, code: string)
    ensures NodeName(NewIdentifier(identifierId, attributeId, objectId, code)) == "o:Identifier"
    ensures GetAttribute(NewIdentifier(identifierId, attributeId, objectId, code), "Id") == identifierId
    ensures Refers(NewIdentifier(identifierId, attributeId, objectId, code), attributeId) == Some(true)
  {
    BasicLacks("o:Identifier", identifierId, "Identifier_" + attributeId, objectId, code, "c:Identifier.Attributes");
    RefersAppended(BuildBasicNode("o:Identifier", identifierId, "Identifier_" + attributeId, objectId, code), attributeId);
  }

  /** After children that all miss, an appended child naming the attribute is the hit. */
  lemma {:induction false} FindReferencingAppend(cs: seq<Node>, c: Node, attributeId: string)
    requires FindReferencing(cs, attributeId).Miss? && Refers(c, attributeId) == Some(true)
    ensures FindReferencing(cs + [c], attributeId) == Hit(|cs|)
  {
    var p := ReferTo(attributeId);
    if cs == [] {
      assert [] + [c] == [c];
      assert p([c][0]) == Some(true);
    } else {
      var ds := cs + [c];
      assert ds[0] == cs[0] && ds[1..] == cs[1..] + [c];
      assert p(cs[0]) == Some(false);
      forall j | 0 <= j < |cs[1..]| ensures p(cs[1..][j]) == Some(false) {
        assert cs[1..][j] == cs[j + 1];
      }
      FindReferencingAppend(cs[1..], c, attributeId);
      assert TryFirst(ds[1..], p) == Hit(|cs| - 1);
      assert p(ds[0]) == Some(false);
    }
  }

  /** Removing a child of another name leaves the first child named `key` in place. */
  lemma FieldAfterRemove(n: Node, i: nat, key: string)
    requires n.Element? && i < |n.children| && FieldIndex(n, key).Some? && NodeName(n.children[i]) != key
    ensures FieldIndex(RemoveChildAt(n, i), key).Some?
    ensures Kids(RemoveChildAt(n, i))[FieldIndex(RemoveChildAt(n, i), key).value] == Kids(n)[FieldIndex(n, key).value]
  {
    FieldIndexRemove(n, i, key);
    var j := FieldIndex(n, key).value;
    var k: nat := if j < i then j else j - 1;
    assert RemoveChildAt(n, i).children[k] == n.children[j];
  }

  /** Appending to a child keeps the first child named `key` where it was. */
  lemma FieldAfterAppendInto(n: Node, j: nat, c: Node, key: string)
    requires n.Element? && j < |n.children| && n.children[j].Element?
    ensures FieldIndex(AppendInto(n, j, c), key) == FieldIndex(n, key)
  {
    NamedSameNames(AppendInto(n, j, c).children, n.children, key);
  }

  /** Setting the primary reference keeps the first child named `key` where it was. */
  lemma FieldAfterSetRef(n: Node, j: nat, k: nat, value: string, key: string)
    requires n.Element? && j < |n.children| && n.children[j].Element? && k < |n.children[j].children|
    requires n.children[j].children[k].Element?
    ensures FieldIndex(SetRefAt(n, j, k, value), key) == FieldIndex(n, key)
  {
    NamedSameNames(SetRefAt(n, j, k, value).children, n.children, key);
  }

  /** The first `c:Identifiers` of the entity after the call: the one searched,
      with the new identifier appended when the search missed. */
  lemma AddIdentifierIds(entity: Node, attributeId: string, isPrimary: bool,
                         identifierId: string, objectId: string, code: string)
    requires entity.Element?
    requires AddIdentifier(entity, attributeId, isPrimary, identifierId, objectId, code).Some?
    ensures var r := AddIdentifier(entity, attributeId, isPrimary, identifierId, objectId, code).value;
      var ids := IdentifiersOrEmpty(entity);
      FieldIndex(r, "c:Identifiers").Some? &&
      Kids(r)[FieldIndex(r, "c:Identifiers").value] ==
        (if FindReferencing(ids.children, attributeId).Hit? then ids
         else AppendChild(ids, NewIdentifier(identifierId, attributeId, objectId, code)))
  {
    var (p, ji) := Prepared(entity, isPrimary);
    var ids := p.node.children[ji];
    var found := FindReferencing(ids.children, attributeId);
    var target := if found.Hit? then GetAttribute(ids.children[found.index], "Id") else identifierId;
    var e3 := if isPrimary && p.ref.Some? then SetRefAt(p.node, p.at.value, p.ref.value, target) else p.node;
    if isPrimary && p.ref.Some? {
      FieldAfterSetRef(p.node, p.at.value, p.ref.value, target, "c:Identifiers");
    }
    assert e3.children[ji] == ids;
    if found.Hit? {
      var current := p.at.Some? && p.ref.Some?
        && GetAttribute(e3.children[p.at.value].children[p.ref.value], "Ref") == GetAttribute(ids.children[found.index], "Id");
      if !isPrimary && current {
        FieldAfterRemove(e3, p.at.value, "c:Identifiers");
      }
    } else {
      FieldAfterAppendInto(e3, ji, NewIdentifier(identifierId, attributeId, objectId, code), "c:Identifiers");
    }
  }


  /** Afterwards as many identifiers name the attribute as before, or one
      when none did. */
  lemma AddIdentifierReferring(entity: Node, attributeId: string, isPrimary: bool,
                               identifierId: string, objectId: string, code: string)
    requires entity.Element?
    requires AddIdentifier(entity, attributeId, isPrimary, identifierId, objectId, code).Some?
    ensures var r := AddIdentifier(entity, attributeId, isPrimary, identifierId, objectId, code).value;
      var before := Referring(IdentifiersOrEmpty(entity).children, attributeId);
      FieldIndex(r, "c:Identifiers").Some? &&
      Referring(Kids(Kids(r)[FieldIndex(r, "c:Identifiers").value]), attributeId) == (if before == 0 then 1 else before)
  {
    AddIdentifierIds(entity, attributeId, isPrimary, identifierId, objectId, code);
    var ids := IdentifiersOrEmpty(entity);
    var found := FindReferencing(ids.children, attributeId);
    if found.Hit? {
      HitReferring(ids.children, attributeId, found.index);
    } else if found.Miss? {
      MissNoReferring(ids.children, attributeId);
      NewIdentifierRefers(identifierId, attributeId, objectId, code);
      ReferringAppend(ids.children, NewIdentifier(identifierId, attributeId, objectId, code), attributeId);
    }
  }

  /** Where the first `c:PrimaryIdentifier` and its first `o:Identifier` are,
      `PrimaryRef` is that `o:Identifier`. */
  lemma PrimaryRefAt(n: Node, j: nat, k: nat)
    requires n.Element? && FieldIndex(n, "c:PrimaryIdentifier") == Some(j) && n.children[j].Element?
    requires FirstIndex(Kids(n.children[j]), Named("o:Identifier")) == Some(k)
    ensures PrimaryRef(n) == Some(n.children[j].children[k])
  {
  }

  /** Appending to another child leaves `PrimaryRef` as it was. */
  lemma PrimaryRefAppendInto(n: Node, j: nat, c: Node)
    requires n.Element? && j < |n.children| && n.children[j].Element? && NodeName(n.children[j]) != "c:PrimaryIdentifier"
    ensures PrimaryRef(AppendInto(n, j, c)) == PrimaryRef(n)
  {
    FieldAfterAppendInto(n, j, c, "c:PrimaryIdentifier");
    if FieldIndex(n, "c:PrimaryIdentifier").Some? {
      assert NodeName(n.children[FieldIndex(n, "c:PrimaryIdentifier").value]) == "c:PrimaryIdentifier";
    }
  }

  /** Setting the reference keeps `PrimaryRef` at the node whose `Ref` was set. */
  lemma PrimaryRefSet(n: Node, j: nat, k: nat, value: string)
    requires n.Element? && FieldIndex(n, "c:PrimaryIdentifier") == Some(j) && n.children[j].Element?
    requires FirstIndex(Kids(n.children[j]), Named("o:Identifier")) == Some(k) && n.children[j].children[k].Element?
    ensures PrimaryRef(SetRefAt(n, j, k, value)).Some?
    ensures GetAttribute(PrimaryRef(SetRefAt(n, j, k, value)).value, "Ref") == value
  {
    var m := SetRefAt(n, j, k, value);
    FieldAfterSetRef(n, j, k, value, "c:PrimaryIdentifier");
    NamedSameNames(m.children[j].children, n.children[j].children, "o:Identifier");
    PrimaryRefAt(m, j, k);
  }

  /** Adding a primary identifier, where a `c:PrimaryIdentifier` with its
      `o:Identifier` exists or is created, leaves the primary reference on the
      identifier that names the attribute: the one found, or the new one. */
  lemma AddIdentifierPrimary(entity: Node, attributeId: string, identifierId: string, objectId: string, code: string)
    requires entity.Element?
    requires AddIdentifier(entity, attributeId, true, identifierId, objectId, code).Some?
    requires FieldIndex(entity, "c:PrimaryIdentifier").None? || PrimaryRef(entity).Some?
    ensures var r := AddIdentifier(entity, attributeId, true, identifierId, objectId, code).value;
      FieldIndex(r, "c:Identifiers").Some? && PrimaryRef(r).Some? &&
      var ids := Kids(Kids(r)[FieldIndex(r, "c:Identifiers").value]);
      var h := FindReferencing(ids, attributeId);
      h.Hit? && GetAttribute(PrimaryRef(r).value, "Ref") == GetAttribute(ids[h.index], "Id")
  {
    AddIdentifierIds(entity, attributeId, true, identifierId, objectId, code);
    var (p, ji) := Prepared(entity, true);
    var ids := p.node.children[ji];
    var found := FindReferencing(ids.children, attributeId);
    var target := if found.Hit? then GetAttribute(ids.children[found.index], "Id") else identifierId;
    var e3 := SetRefAt(p.node, p.at.value, p.ref.value, target);
    PrimaryRefSet(p.node, p.at.value, p.ref.value, target);
    if found.Miss? {
      var c := NewIdentifier(identifierId, attributeId, objectId, code);
      PrimaryRefAppendInto(e3, ji, c);
      NewIdentifierRefers(identifierId, attributeId, objectId, code);
      FindReferencingAppend(ids.children, c, attributeId);
      assert (ids.children + [c])[|ids.children|] == c;
    }
  }

  /** Adding a non-primary identifier for an attribute whose identifier is the
      current primary one removes `c:PrimaryIdentifier`, and nothing else. */
  lemma AddIdentifierDemotes(entity: Node, attributeId: string, identifierId: string, objectId: string, code: string)
    requires entity.Element?
    requires FindReferencing(IdentifiersOrEmpty(entity).children, attributeId).Hit?
    requires PrimaryRef(entity).Some?
    requires GetAttribute(PrimaryRef(entity).value, "Ref")
      == GetAttribute(IdentifiersOrEmpty(entity).children[FindReferencing(IdentifiersOrEmpty(entity).children, attributeId).index], "Id")
    ensures AddIdentifier(entity, attributeId, false, identifierId, objectId, code).Some?
    ensures multiset(Names(AddIdentifier(entity, attributeId, false, identifierId, objectId, code).value.children))
      == multiset(Names(entity.children)) - multiset{"c:PrimaryIdentifier"}
  {
    var (p, ji) := Prepared(entity, false);
    assert FieldIndex(entity, "c:Identifiers").Some?;
    PrimaryRefAt(entity, p.at.value, p.ref.value);
    RemoveChildNames(entity, p.at.value);
  }

  /** Otherwise a non-primary identifier leaves the primary reference as it was. */
  lemma AddIdentifierKeepsPrimary(entity: Node, attributeId: string, identifierId: string, objectId: string, code: string)
    requires entity.Element?
    requires AddIdentifier(entity, attributeId, false, identifierId, objectId, code).Some?
    requires var ids := IdentifiersOrEmpty(entity).children;
      var h := FindReferencing(ids, attributeId);
      !(h.Hit? && PrimaryRef(entity).Some? && GetAttribute(PrimaryRef(entity).value, "Ref") == GetAttribute(ids[h.index], "Id"))
    ensures PrimaryRef(AddIdentifier(entity, attributeId, false, identifierId, objectId, code).value) == PrimaryRef(entity)
  {
    var (p, ji) := Prepared(entity, false);
    var ids := p.node.children[ji];
    if p.ref.Some? {
      PrimaryRefAt(p.node, p.at.value, p.ref.value);
    }
    if FindReferencing(ids.children, attributeId).Miss? {
      PrimaryRefAppendInto(p.node, ji, NewIdentifier(identifierId, attributeId, objectId, code));
    }
  }

  // ---------------------------------------------------------------------
  // The two operations on the document.

  /** `removeIdentifierForEntity(entityId, attributeId)`. */
  function RemoveIdentifierForEntity(doc: Node, entityId: string, attributeId: string): (r: Option<Node>)
    ensures r.Some? <==> (FindEntity(doc, entityId).Some?
      && DropIdentifier(At(doc, FindEntity(doc, entityId).value).value, attributeId).Some?)
  {
    var e :- FindEntity(doc, entityId);
    var entity :- DropIdentifier(At(doc, e).value, attributeId);
    Some(Put(doc, e, entity))
  }

  /** The entity is found where it was, changed as `DropIdentifier` says, and
      nothing apart from it changes. */
  lemma RemoveIdentifierEffect(doc: Node, entityId: string, attributeId: string, b: seq<nat>)
    requires RemoveIdentifierForEntity(doc, entityId, attributeId).Some?
    ensures var e := FindEntity(doc, entityId).value;
      var r := RemoveIdentifierForEntity(doc, entityId, attributeId).value;
      && At(r, e) == DropIdentifier(At(doc, e).value, attributeId)
      && FindEntity(r, entityId) == FindEntity(doc, entityId)
      && (Apart(e, b) ==> At(r, b) == At(doc, b))
  {
    var e := FindEntity(doc, entityId).value;
    EntityReplaced(doc, entityId, DropIdentifier(At(doc, e).value, attributeId).value, b);
  }

  /** `addIdentifierForEntity(entityId, attributeId, isPrimary)`; the new
      identifier takes the next unique id of the document as it was before
      the call, and `objectId` and `code` stand for its two `getUid()` values. */
  function AddIdentifierForEntity(doc: Node, entityId: string, attributeId: string, isPrimary: bool,
                                  objectId: string, code: string): (r: Option<Node>)
    ensures r.Some? <==> (FindEntity(doc, entityId).Some?
      && AddIdentifier(At(doc, FindEntity(doc, entityId).value).value, attributeId, isPrimary,
                       NextUniqueId(doc), objectId, code).Some?)
  {
    var e :- FindEntity(doc, entityId);
    var entity :- AddIdentifier(At(doc, e).value, attributeId, isPrimary, NextUniqueId(doc), objectId, code);
    Some(Put(doc, e, entity))
  }

  /** The entity is found where it was, changed as `AddIdentifier` says, and
      nothing apart from it changes. */
  lemma AddIdentifierEffect(doc: Node, entityId: string, attributeId: string, isPrimary: bool,
                            objectId: string, code: string, b: seq<nat>)
    requires AddIdentifierForEntity(doc, entityId, attributeId, isPrimary, objectId, code).Some?
    ensures var e := FindEntity(doc, entityId).value;
      var r := AddIdentifierForEntity(doc, entityId, attributeId, isPrimary, objectId, code).value;
      && At(r, e) == AddIdentifier(At(doc, e).value, attributeId, isPrimary, NextUniqueId(doc), objectId, code)
      && FindEntity(r, entityId) == FindEntity(doc, entityId)
      && (Apart(e, b) ==> At(r, b) == At(doc, b))
  {
    var e := FindEntity(doc, entityId).value;
    EntityReplaced(doc, entityId, AddIdentifier(At(doc, e).value, attributeId, isPrimary, NextUniqueId(doc), objectId, code).value, b);
  }
}
