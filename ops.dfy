/** The operations of the model-document engine (`DataModel`, and the
    `CDMModel` revisions where they agree), each as a function from the
    document element before the call to the document element after it.
    `None` stands for a call that throws: a lookup that came back
    `undefined` and was then dereferenced. A DOM reference to a node is
    its address in the tree. */
module Ops {
  import opened Xml
  import opened Numbers
  import opened Store
  import opened Geometry

  // ---------------------------------------------------------------------
  // Navigation.

  /** `o:RootObject.c:Children.o:Model`, below the document element. */
  const ModelPath: seq<string> := ["o:RootObject", "c:Children", "o:Model"]

  /** `c:ConceptualDiagrams.o:ConceptualDiagram.c:Symbols`, below the model. */
  const SymbolsPath: seq<string> := ["c:ConceptualDiagrams", "o:ConceptualDiagram", "c:Symbols"]

  /** `findNode(path)`: a path relative to the model node. */
  function FindNode(doc: Node, path: seq<string>): Option<seq<nat>>
  {
    Locate(doc, ModelPath + path)
  }

  /** `findChildNode(node, predicate)` on the node at address `a`. */
  function Find(doc: Node, a: seq<nat>, p: Node -> bool): (r: Option<seq<nat>>)
    ensures r.Some? ==> At(doc, r.value).Some? && p(At(doc, r.value).value)
    ensures r.Some? ==> |r.value| == |a| + 1 && r.value[..|a|] == a
    ensures r.Some? <==> At(doc, a).Some? && FirstIndex(Kids(At(doc, a).value), p).Some?
    ensures r.Some? ==> r.value == a + [FirstIndex(Kids(At(doc, a).value), p).value]
  {
    var n :- At(doc, a);
    var i :- FirstIndex(Kids(n), p);
    AtConcat(doc, a, [i]);
    assert (a + [i])[..|a|] == a;
    Some(a + [i])
  }

  /** `parent.appendChild(c)` for the element at address `a`. */
  function AppendAt(doc: Node, a: seq<nat>, c: Node): (r: Option<Node>)
    ensures r.Some? <==> At(doc, a).Some? && At(doc, a).value.Element?
    ensures r.Some? ==> At(r.value, a) == Some(AppendChild(At(doc, a).value, c))
  {
    var n :- At(doc, a);
    if n.Text? then None
    else
      AtPut(doc, a, AppendChild(n, c));
      Some(Put(doc, a, AppendChild(n, c)))
  }

  /** Appending a child at `a` puts it last there, and the matched attribute
      values grow by the child's. */
  lemma AppendAtEffect(doc: Node, a: seq<nat>, c: Node, suffix: string)
    requires At(doc, a).Some? && At(doc, a).value.Element?
    ensures AppendAt(doc, a, c) == Some(Put(doc, a, AppendChild(At(doc, a).value, c)))
    ensures var d := Put(doc, a, AppendChild(At(doc, a).value, c));
      At(d, a + [|Kids(At(doc, a).value)|]) == Some(c)
      && multiset(Matches(d, suffix)) == multiset(Matches(doc, suffix)) + multiset(Matches(c, suffix))
  {
    var s := AppendChild(At(doc, a).value, c);
    AtPut(doc, a, s);
    AtConcat(Put(doc, a, s), a, [|Kids(At(doc, a).value)|]);
    MatchesAppendAt(doc, a, c, suffix);
  }

  /** Replacing the node at `a` keeps every address apart from `a`, and the
      head and child count of every address above it. */
  lemma PutFrame(doc: Node, a: seq<nat>, s: Node, b: seq<nat>)
    requires At(doc, a).Some?
    ensures Apart(a, b) ==> At(Put(doc, a, s), b) == At(doc, b)
    ensures |b| < |a| && a[..|b|] == b ==> Alike(At(Put(doc, a, s), b), At(doc, b))
  {
    if Apart(a, b) {
      AtPutApart(doc, a, b, s);
    }
    if |b| < |a| && a[..|b|] == b {
      PutAbove(doc, a, s, b);
    }
  }

  /** Appending into the last child of the element at `b` leaves that
      element with the grown child last. */
  lemma AppendIntoLast(doc: Node, b: seq<nat>, p: Node, x: Node, c: Node)
    requires p.Element? && x.Element? && At(doc, b) == Some(AppendChild(p, x))
    ensures At(doc, b + [|p.children|]) == Some(x)
    ensures AppendAt(doc, b + [|p.children|], c).Some?
    ensures At(AppendAt(doc, b + [|p.children|], c).value, b) == Some(AppendChild(p, AppendChild(x, c)))
  {
    var k := |p.children|;
    AtConcat(doc, b, [k]);
    AppendAtEffect(doc, b + [k], c, "Id");
    AtPutChild(doc, b, k, AppendChild(x, c));
    assert (p.children + [x])[k := AppendChild(x, c)] == p.children + [AppendChild(x, c)];
  }

  /** `parent.removeChild(child)` for the child at address `a`. */
  function RemoveAt(doc: Node, a: seq<nat>): (r: Option<Node>)
    ensures r.Some? <==> a != [] && At(doc, a).Some?
  {
    if a == [] then None
    else
      var up, i := a[..|a| - 1], a[|a| - 1];
      assert a == up + [i];
      AtConcat(doc, up, [i]);
      var n :- At(doc, up);
      if i < |Kids(n)| then Some(Put(doc, up, RemoveChildAt(n, i))) else None
  }

  lemma PrefixSnoc(a: seq<nat>, k: nat)
    requires k < |a|
    ensures a[..k + 1] == a[..k] + [a[k]]
  {
  }

  lemma PrefixTrans(r: seq<nat>, c: seq<nat>, d: seq<nat>)
    requires |d| <= |c| <= |r| && r[..|c|] == c && c[..|d|] == d
    ensures r[..|d|] == d
  {
    assert r[..|d|] == r[..|c|][..|d|];
  }

  lemma SplitAfter(a: seq<nat>, d: seq<nat>)
    requires |d| < |a| && a[..|d|] == d
    ensures a == d + a[|d|..] && a[..|d| + 1] == d + [a[|d|]]
  {
  }

  /** `findChildNode(findNode(path), p)`. */
  function FindUnder(doc: Node, path: seq<string>, p: Node -> bool): (r: Option<seq<nat>>)
    ensures r.Some? ==> |r.value| == |ModelPath| + |path| + 1
  {
    var b :- FindNode(doc, path);
    Find(doc, b, p)
  }

  /** A search below a path finds the same node after any replacement at or
      below the node it found, when the found node keeps its head. */
  lemma FindUnderPut(doc: Node, path: seq<string>, p: Node -> bool, a: seq<nat>, s: Node)
    requires HeadOnly(p) && FindUnder(doc, path, p).Some? && At(doc, a).Some?
    requires var e := FindUnder(doc, path, p).value;
      |e| <= |a| && a[..|e|] == e && (|e| < |a| || Head(s) == Head(At(doc, a).value))
    ensures FindUnder(Put(doc, a, s), path, p) == FindUnder(doc, path, p)
  {
    var e := FindUnder(doc, path, p).value;
    var b := FindNode(doc, path).value;
    assert a[..|b|] == b by { assert a[..|b|] == a[..|e|][..|b|]; }
    LocatePut(doc, ModelPath + path, a, s);
    FindPutBelow(doc, b, a, s, p);
  }

  /** A search among the children of `b` is not disturbed by a replacement
      below one of them that keeps that child's head. */
  lemma FindPutBelow(doc: Node, b: seq<nat>, a: seq<nat>, s: Node, p: Node -> bool)
    requires HeadOnly(p) && At(doc, a).Some? && |b| < |a| && a[..|b|] == b
    requires |b| + 1 < |a| || Head(s) == Head(At(doc, a).value)
    ensures Find(Put(doc, a, s), b, p) == Find(doc, b, p)
  {
    AtPutBelow(doc, a, b, s);
    var m := At(doc, b).value;
    var rest := a[|b|..];
    AtConcat(doc, b, rest);
    assert a == b + rest;
    var i := rest[0];
    var kid := m.children[i];
    PutHead(kid, rest[1..], s);
    FirstIndexUpdate(m.children, i, Put(kid, rest[1..], s), p);
  }

  // ---------------------------------------------------------------------
  // Entities.

  /** `findEntity(entityId)`: the first `o:Entity` with that `Id` in `c:Entities`. */
  function FindEntity(doc: Node, entityId: string): Option<seq<nat>>
  {
    FindUnder(doc, ["c:Entities"], NamedWith("o:Entity", "Id", entityId))
  }

  /** The entity is found at the same place after a change inside it that keeps its head. */
  lemma FindEntityPut(doc: Node, entityId: string, a: seq<nat>, s: Node)
    requires FindEntity(doc, entityId).Some? && At(doc, a).Some?
    requires var e := FindEntity(doc, entityId).value;
      |e| <= |a| && a[..|e|] == e && (|e| < |a| || Head(s) == Head(At(doc, a).value))
    ensures FindEntity(Put(doc, a, s), entityId) == FindEntity(doc, entityId)
  {
    NamedWithHeadOnly("o:Entity", "Id", entityId);
    FindUnderPut(doc, ["c:Entities"], NamedWith("o:Entity", "Id", entityId), a, s);
  }

  lemma FindEntityPutSame(doc: Node, entityId: string, s: Node)
    requires FindEntity(doc, entityId).Some?
    requires Head(s) == Head(At(doc, FindEntity(doc, entityId).value).value)
    ensures FindEntity(Put(doc, FindEntity(doc, entityId).value, s), entityId) == FindEntity(doc, entityId)
  {
    var a := FindEntity(doc, entityId).value;
    assert a[..|a|] == a;
    FindEntityPut(doc, entityId, a, s);
  }
  /** An entity put back changed but with the same head is found where it
      was, and nothing apart from it changes. */
  lemma EntityReplaced(doc: Node, entityId: string, s: Node, b: seq<nat>)
    requires FindEntity(doc, entityId).Some?
    requires Head(s) == Head(At(doc, FindEntity(doc, entityId).value).value)
    ensures var e := FindEntity(doc, entityId).value;
      && At(Put(doc, e, s), e) == Some(s)
      && FindEntity(Put(doc, e, s), entityId) == FindEntity(doc, entityId)
      && (Apart(e, b) ==> At(Put(doc, e, s), b) == At(doc, b))
  {
    var e := FindEntity(doc, entityId).value;
    AtPut(doc, e, s);
    FindEntityPutSame(doc, entityId, s);
    PutFrame(doc, e, s, b);
  }


  /** The entity found is an element bearing that `Id`. */
  lemma EntityFound(doc: Node, entityId: string)
    requires FindEntity(doc, entityId).Some?
    ensures At(doc, FindEntity(doc, entityId).value).Some?
    ensures At(doc, FindEntity(doc, entityId).value).value.Element?
    ensures GetAttribute(At(doc, FindEntity(doc, entityId).value).value, "Id") == entityId
  {
  }

  /** An entity found lies two levels below the model node, inside the
      model's first `c:Entities` child. */
  lemma EntityAddress(doc: Node, entityId: string)
    requires FindEntity(doc, entityId).Some?
    ensures Locate(doc, ModelPath).Some?
    ensures var m := Locate(doc, ModelPath).value; var e := FindEntity(doc, entityId).value;
      |e| == |m| + 2 && e[..|m|] == m && e[..|m| + 1] == m + [e[|m|]]
      && At(doc, e).Some? && At(doc, e).value.Element? && GetAttribute(At(doc, e).value, "Id") == entityId
      && At(doc, m + [e[|m|]]).Some? && NodeName(At(doc, m + [e[|m|]]).value) == "c:Entities"
      && Locate(doc, ModelPath + ["c:Entities"]) == Some(m + [e[|m|]])
  {
    var e := FindEntity(doc, entityId).value;
    var es := FindNode(doc, ["c:Entities"]).value;
    LocateSnoc(doc, ModelPath, "c:Entities");
    var m := Locate(doc, ModelPath).value;
    var i := FirstIndex(Kids(At(doc, m).value), Named("c:Entities")).value;
    assert es == m + [i];
    AtChild(doc, m, i);
    assert NodeName(At(doc, es).value) == "c:Entities";
    var j := FirstIndex(Kids(At(doc, es).value), NamedWith("o:Entity", "Id", entityId)).value;
    assert e == es + [j];
    assert NamedWith("o:Entity", "Id", entityId)(At(doc, e).value);
    TwoBelow(m, i, j);
  }

  /** The prefixes of an address two steps below `m`. */
  lemma TwoBelow(m: seq<nat>, i: nat, j: nat)
    ensures var e := m + [i] + [j];
      |e| == |m| + 2 && e[|m|] == i && e[..|m|] == m && e[..|m| + 1] == m + [i]
  {
    var e := m + [i] + [j];
    assert e[..|m| + 1] == m + [i];
    assert e[..|m|] == m;
  }

  /** `findChildNode(node, name).firstChild.data = value`: the text of an
      existing field is overwritten in place; nothing is created, and the
      node keeps its name, its attributes and the names of its children. */
  function OverwriteField(n: Node, key: string, value: string): (r: Option<Node>)
    ensures r.Some? <==> FieldIndex(n, key).Some? && |Kids(Kids(n)[FieldIndex(n, key).value])| > 0
    ensures r.Some? ==> r.value.Element? && r.value.name == n.name && r.value.attrs == n.attrs
    ensures r.Some? ==> Names(r.value.children) == Names(n.children)
  {
    var i :- FieldIndex(n, key);
    if |Kids(n.children[i])| == 0 then None
    else
      var f := SetFirstText(n.children[i], value);
      NamesUpdate(n.children, i, f);
      Some(n.(children := n.children[i := f]))
  }

  /** The overwritten field reads the new value when its first child is text. */
  lemma OverwriteFieldReads(n: Node, key: string, value: string)
    requires OverwriteField(n, key, value).Some? && Writable(n, key)
    ensures FieldText(OverwriteField(n, key, value).value, key) == Some(value)
  {
    var i := FieldIndex(n, key).value;
    FieldIndexUpdate(n.children, i, SetFirstText(n.children[i], value), key);
  }

  /** Every other field keeps its text. */
  lemma OverwriteFieldKeeps(n: Node, key: string, value: string, other: string)
    requires OverwriteField(n, key, value).Some? && other != key
    ensures FieldText(OverwriteField(n, key, value).value, other) == FieldText(n, other)
  {
    var i := FieldIndex(n, key).value;
    FieldTextUpdate(n, i, SetFirstText(n.children[i], value), other);
  }

  /** `setAttributeForEntity`. */
  function SetAttributeForEntity(doc: Node, entityId: string, key: string, value: string): Option<Node>
  {
    var a :- FindEntity(doc, entityId);
    var e :- OverwriteField(At(doc, a).value, key, value);
    Some(Put(doc, a, e))
  }

  /** Replacing the node at `a` puts the new node there and leaves every
      subtree apart from `a` as it was. */
  lemma PutEffect(doc: Node, a: seq<nat>, s: Node, b: seq<nat>)
    requires At(doc, a).Some?
    ensures At(Put(doc, a, s), a) == Some(s)
    ensures Apart(a, b) ==> At(Put(doc, a, s), b) == At(doc, b)
  {
    AtPut(doc, a, s);
    if Apart(a, b) {
      AtPutApart(doc, a, b, s);
    }
  }

  /** `setAttributeForEntity` overwrites the existing field in place: the entity
      keeps its head and child names and is still found under its id, and
      nothing outside it changes. */
  lemma SetAttributeForEntityLocal(doc: Node, entityId: string, key: string, value: string, b: seq<nat>)
    requires SetAttributeForEntity(doc, entityId, key, value).Some?
    ensures var r, a := SetAttributeForEntity(doc, entityId, key, value).value, FindEntity(doc, entityId).value;
      At(r, a) == OverwriteField(At(doc, a).value, key, value)
      && FindEntity(r, entityId) == Some(a)
      && (Apart(a, b) ==> At(r, b) == At(doc, b))
  {
    var a := FindEntity(doc, entityId).value;
    var e' := OverwriteField(At(doc, a).value, key, value).value;
    assert SetAttributeForEntity(doc, entityId, key, value) == Some(Put(doc, a, e'));
    PutEffect(doc, a, e', b);
    FindEntityPutSame(doc, entityId, e');
  }

  /** The overwritten entity reads the new value in that field (when its first
      child is text) and the old values in all others. */
  lemma SetAttributeForEntityReads(doc: Node, entityId: string, key: string, value: string, other: string)
    requires SetAttributeForEntity(doc, entityId, key, value).Some?
    ensures var r, a := SetAttributeForEntity(doc, entityId, key, value).value, FindEntity(doc, entityId).value;
      var e := At(doc, a).value;
      At(r, a).Some?
      && (Writable(e, key) ==> FieldText(At(r, a).value, key) == Some(value))
      && (other != key ==> FieldText(At(r, a).value, other) == FieldText(e, other))
  {
    var a := FindEntity(doc, entityId).value;
    var e := At(doc, a).value;
    SetAttributeForEntityLocal(doc, entityId, key, value, []);
    if Writable(e, key) {
      OverwriteFieldReads(e, key, value);
    }
    if other != key {
      OverwriteFieldKeeps(e, key, value, other);
    }
  }

  /** A field the entity lacks is not created: the call throws. */
  lemma SetAttributeForEntityCreatesNothing(doc: Node, entityId: string, key: string, value: string)
    requires FindEntity(doc, entityId).Some?
    requires key !in Names(Kids(At(doc, FindEntity(doc, entityId).value).value))
    ensures SetAttributeForEntity(doc, entityId, key, value).None?
  {
    NamedAbsent(Kids(At(doc, FindEntity(doc, entityId).value).value), key);
  }

  /** `setDataItemRefForEntity`: the `Ref` of
      `c:Attributes/o:EntityAttribute[Id]/c:DataItem/o:DataItem` is rewritten. */
  function DataItemRefAddress(doc: Node, entityId: string, attributeId: string): (r: Option<seq<nat>>)
    ensures r.Some? ==> At(doc, r.value).Some? && NodeName(At(doc, r.value).value) == "o:DataItem"
    ensures r.Some? ==> (FindEntity(doc, entityId).Some?
      && |FindEntity(doc, entityId).value| < |r.value|
      && r.value[..|FindEntity(doc, entityId).value|] == FindEntity(doc, entityId).value)
  {
    var e :- FindEntity(doc, entityId);
    var attrs :- Find(doc, e, Named("c:Attributes"));
    var attr :- Find(doc, attrs, NamedWith("o:EntityAttribute", "Id", attributeId));
    var item :- Find(doc, attr, Named("c:DataItem"));
    var r :- Find(doc, item, Named("o:DataItem"));
    PrefixTrans(r, item, attr);
    PrefixTrans(r, attr, attrs);
    PrefixTrans(r, attrs, e);
    Some(r)
  }

  function SetDataItemRefForEntity(doc: Node, entityId: string, attributeId: string, dataItemId: string): Option<Node>
  {
    var a :- DataItemRefAddress(doc, entityId, attributeId);
    Some(Put(doc, a, SetAttribute(At(doc, a).value, "Ref", dataItemId)))
  }

  /** `setDataItemRefForEntity` rewrites the `Ref` of the reference node and
      nothing else: its name, children and other attributes stay, the entity is
      still found, and every subtree apart from it is untouched. */
  lemma SetDataItemRefEffect(doc: Node, entityId: string, attributeId: string, dataItemId: string,
                             k: string, b: seq<nat>)
    requires SetDataItemRefForEntity(doc, entityId, attributeId, dataItemId).Some?
    ensures var r, a := SetDataItemRefForEntity(doc, entityId, attributeId, dataItemId).value,
      DataItemRefAddress(doc, entityId, attributeId).value;
      var n := At(doc, a).value;
      At(r, a).Some? && At(r, a).value.Element? && NodeName(At(r, a).value) == NodeName(n)
      && Kids(At(r, a).value) == Kids(n)
      && GetAttribute(At(r, a).value, "Ref") == dataItemId
      && (k != "Ref" ==> GetAttribute(At(r, a).value, k) == GetAttribute(n, k))
      && FindEntity(r, entityId) == FindEntity(doc, entityId)
      && (Apart(a, b) ==> At(r, b) == At(doc, b))
  {
    var a := DataItemRefAddress(doc, entityId, attributeId).value;
    var n' := SetAttribute(At(doc, a).value, "Ref", dataItemId);
    PutEffect(doc, a, n', b);
    FindEntityPut(doc, entityId, a, n');
  }

  /** `moveEntity`: the `a:Rect` of the first `o:EntitySymbol` holding a
      `c:Object/o:Entity` that refers to the entity. */
  function IsSymbolOf(entityId: string): Node -> bool
  {
    (n: Node) => NodeName(n) == "o:EntitySymbol" && FirstIndex(Kids(n), ObjectRefersTo(entityId)).Some?
  }

  function ObjectRefersTo(entityId: string): Node -> bool
  {
    (c: Node) => NodeName(c) == "c:Object" && FirstIndex(Kids(c), NamedWith("o:Entity", "Ref", entityId)).Some?
  }

  function MoveEntity(doc: Node, entityId: string, r: Rectangle): Option<Node>
  {
    var s :- FindUnder(doc, SymbolsPath, IsSymbolOf(entityId));
    var moved :- SetFields(At(doc, s).value, [("a:Rect", RectText(r))]);
    Some(Put(doc, s, moved))
  }

  /** `moveEntity` changes the symbol found for the entity and nothing apart from it. */
  lemma MoveEntityLocal(doc: Node, entityId: string, rect: Rectangle, b: seq<nat>)
    requires MoveEntity(doc, entityId, rect).Some?
    ensures FindUnder(doc, SymbolsPath, IsSymbolOf(entityId)).Some?
      && var r, s := MoveEntity(doc, entityId, rect).value, FindUnder(doc, SymbolsPath, IsSymbolOf(entityId)).value;
      SetField(At(doc, s).value, "a:Rect", RectText(rect)).Some?
      && At(r, s) == SetField(At(doc, s).value, "a:Rect", RectText(rect))
      && (Apart(s, b) ==> At(r, b) == At(doc, b))
  {
    var s := FindUnder(doc, SymbolsPath, IsSymbolOf(entityId)).value;
    var sym := At(doc, s).value;
    SetFieldsOne(sym, "a:Rect", RectText(rect));
    PutEffect(doc, s, SetField(sym, "a:Rect", RectText(rect)).value, b);
  }

  /** On the symbol, `a:Rect` then holds text the model reader parses back
      into the same corners, and the other fields keep theirs. */
  lemma MoveSymbolReads(sym: Node, rect: Rectangle, other: string)
    requires Writable(sym, "a:Rect")
    ensures var moved := SetField(sym, "a:Rect", RectText(rect));
      moved.Some? && Head(moved.value) == Head(sym)
      && FieldText(moved.value, "a:Rect") == Some(RectText(rect))
      && ParseRect(FieldText(moved.value, "a:Rect").value)
         == Quad(Some(rect.topLeft.x), Some(rect.bottomRight.y), Some(rect.bottomRight.x), Some(rect.topLeft.y))
      && (other != "a:Rect" ==> FieldText(moved.value, other) == FieldText(sym, other))
  {
    SetFieldReads(sym, "a:Rect", RectText(rect), other);
    ParseRectText(rect);
  }

  // ---------------------------------------------------------------------
  // Creating an entity.

  const DefaultRect: string := "((34395,-5606), (53577,3759))"

  function Spaces(n: nat): string
  {
    if n == 0 then "" else " " + Spaces(n - 1)
  }

  /** The `a:FontList` value: six lines, every line after the first
      indented as the template literal in the source is. */
  function FontList(indent: string): string
  {
    "STRN 0 Arial,8,N\n" + indent + "DISPNAME 0 Arial,8,N\n" + indent + "Attributes 0 Arial,8,N\n"
    + indent + "EntityPrimaryAttribute 0 Arial,8,U\n" + indent + "Identifiers 0 Arial,8,N\n"
    + indent + "LABL 0 Arial,8,N"
  }

  /** The font list of `DataModel` (sixteen spaces of indentation). */
  const FontListCurrent: string := FontList(Spaces(16))

  /** The font list of the earlier `CDMModel` (thirty-six spaces). */
  const FontListEarlier: string := FontList(Spaces(36))

  function SymbolFields(fontList: string): seq<(string, string)>
  {
    [("a:CreationDate", "1556106851"), ("a:ModificationDate", "1556106851"), ("a:IconMode", "-1"),
     ("a:Rect", DefaultRect), ("a:LineColor", "11184640"), ("a:FillColor", "11184640"),
     ("a:ShadowColor", "11184640"), ("a:FontList", fontList), ("a:BrushStyle", "6"),
     ("a:GradientFillMode", "65"), ("a:GradientEndColor", "16777215")]
  }

  /** `<c:Object><o:Entity Ref="…"/></c:Object>` */
  function ObjectRef(objectName: string, refName: string, ref: string): Node
  {
    Element(objectName, [], [Element(refName, [Attr("Ref", ref)], [])])
  }

  lemma SymbolFieldsDistinct(fontList: string)
    ensures DistinctKeys(SymbolFields(fontList))
  {
  }

  /** The `o:EntitySymbol` `createEntity` builds: a new element with its `Id`,
      the symbol fields set on it, then the `c:Object` reference appended. It
      carries the default `a:Rect` and is a symbol of that entity in the sense
      `moveEntity` searches for. */
  function EntitySymbolNode(symbolId: string, entityId: string, fontList: string): (r: Node)
    ensures var s := SetFields(Element("o:EntitySymbol", [Attr("Id", symbolId)], []), SymbolFields(fontList));
      s.Some? && r == AppendChild(s.value, ObjectRef("c:Object", "o:Entity", entityId))
    ensures NodeName(r) == "o:EntitySymbol" && GetAttribute(r, "Id") == symbolId
  {
    var fs := SymbolFields(fontList);
    SymbolFieldsDistinct(fontList);
    NewNodeFields("o:EntitySymbol", [Attr("Id", symbolId)], fs);
    AppendChild(Element("o:EntitySymbol", [Attr("Id", symbolId)], Fields(fs)), ObjectRef("c:Object", "o:Entity", entityId))
  }

  /** The built symbol carries the default `a:Rect`. */
  lemma EntitySymbolRect(symbolId: string, entityId: string, fontList: string)
    ensures FieldText(EntitySymbolNode(symbolId, entityId, fontList), "a:Rect") == Some(DefaultRect)
  {
    var fs := SymbolFields(fontList);
    SymbolFieldsDistinct(fontList);
    NewNodeFields("o:EntitySymbol", [Attr("Id", symbolId)], fs);
    var s := Element("o:EntitySymbol", [Attr("Id", symbolId)], Fields(fs));
    assert fs[3] == ("a:Rect", DefaultRect);
    FieldTextOfFields(s, fs, 3);
    FieldTextAppend(s, ObjectRef("c:Object", "o:Entity", entityId), "a:Rect");
  }

  /** The built symbol is a symbol of the entity in the sense `moveEntity` searches for. */
  lemma EntitySymbolRefers(symbolId: string, entityId: string, fontList: string)
    ensures IsSymbolOf(entityId)(EntitySymbolNode(symbolId, entityId, fontList))
  {
    var r := EntitySymbolNode(symbolId, entityId, fontList);
    assert ObjectRefersTo(entityId)(r.children[|r.children| - 1]);
  }

  /** `createEntity(name)`; `objectId` and `code` are the two uuids drawn for it. */
  function CreateEntity(doc: Node, name: string, objectId: string, code: string, fontList: string): Option<Node>
  {
    var es :- FindNode(doc, ["c:Entities"]);
    var ss :- FindNode(doc, SymbolsPath);
    var entityId := NextUniqueId(doc);
    var entity := BuildBasicNode("o:Entity", entityId, name, objectId, code);
    var symbol := EntitySymbolNode(NextUniqueId(doc), entityId, fontList);
    var doc1 :- AppendAt(doc, ss, symbol);
    AppendAt(doc1, es, entity)
  }

  lemma CreateEntityUnfold(doc: Node, name: string, objectId: string, code: string, fontList: string)
    requires CreateEntity(doc, name, objectId, code, fontList).Some?
    ensures FindNode(doc, ["c:Entities"]).Some? && FindNode(doc, SymbolsPath).Some?
    ensures var es, ss, id := FindNode(doc, ["c:Entities"]).value, FindNode(doc, SymbolsPath).value, NextUniqueId(doc);
      var doc1 := AppendAt(doc, ss, EntitySymbolNode(id, id, fontList));
      doc1.Some? && CreateEntity(doc, name, objectId, code, fontList)
        == AppendAt(doc1.value, es, BuildBasicNode("o:Entity", id, name, objectId, code))
  {
  }

  /** The entity list and the symbol list lie in separate subtrees. */
  lemma EntitiesApartFromSymbols(doc: Node)
    requires FindNode(doc, ["c:Entities"]).Some? && FindNode(doc, SymbolsPath).Some?
    ensures Apart(FindNode(doc, ["c:Entities"]).value, FindNode(doc, SymbolsPath).value)
    ensures Apart(FindNode(doc, SymbolsPath).value, FindNode(doc, ["c:Entities"]).value)
  {
    assert ModelPath + ["c:Entities"] == ModelPath + ["c:Entities"] + [];
    assert ModelPath + SymbolsPath == ModelPath + ["c:ConceptualDiagrams"] + ["o:ConceptualDiagram", "c:Symbols"];
    LocateDiverge(doc, ModelPath, "c:Entities", [], "c:ConceptualDiagrams", ["o:ConceptualDiagram", "c:Symbols"]);
    ApartSym(FindNode(doc, ["c:Entities"]).value, FindNode(doc, SymbolsPath).value);
  }

  /** Any list directly under the model other than the diagrams lies apart
      from the symbol list. */
  lemma ListApartFromSymbols(doc: Node, list: string)
    requires list != "c:ConceptualDiagrams"
    requires FindNode(doc, [list]).Some? && FindNode(doc, SymbolsPath).Some?
    ensures Apart(FindNode(doc, [list]).value, FindNode(doc, SymbolsPath).value)
    ensures Apart(FindNode(doc, SymbolsPath).value, FindNode(doc, [list]).value)
  {
    assert ModelPath + [list] == ModelPath + [list] + [];
    assert ModelPath + SymbolsPath == ModelPath + ["c:ConceptualDiagrams"] + ["o:ConceptualDiagram", "c:Symbols"];
    LocateDiverge(doc, ModelPath, list, [], "c:ConceptualDiagrams", ["o:ConceptualDiagram", "c:Symbols"]);
    ApartSym(FindNode(doc, [list]).value, FindNode(doc, SymbolsPath).value);
  }

  /** Two different lists directly under the model lie apart. */
  lemma ListsApart(doc: Node, x: string, y: string)
    requires x != y && FindNode(doc, [x]).Some? && FindNode(doc, [y]).Some?
    ensures Apart(FindNode(doc, [x]).value, FindNode(doc, [y]).value)
  {
    assert ModelPath + [x] == ModelPath + [x] + [];
    assert ModelPath + [y] == ModelPath + [y] + [];
    LocateDiverge(doc, ModelPath, x, [], y, []);
  }

  /** `createEntity` appends the new entity to `c:Entities` and its symbol to
      the diagram's `c:Symbols`, both carrying the one id allocated before
      either is attached, and changes nothing apart from those two lists. */
  lemma CreateEntityShape(doc: Node, name: string, objectId: string, code: string, fontList: string, b: seq<nat>)
    requires CreateEntity(doc, name, objectId, code, fontList).Some?
    ensures FindNode(doc, ["c:Entities"]).Some? && FindNode(doc, SymbolsPath).Some?
      && var r, es, ss := CreateEntity(doc, name, objectId, code, fontList).value,
        FindNode(doc, ["c:Entities"]).value, FindNode(doc, SymbolsPath).value;
      var entity, symbol := BuildBasicNode("o:Entity", NextUniqueId(doc), name, objectId, code),
        EntitySymbolNode(NextUniqueId(doc), NextUniqueId(doc), fontList);
      At(doc, es).Some? && At(doc, ss).Some? && At(r, es).Some? && At(r, ss).Some?
      && At(doc, es).value.Element? && At(doc, ss).value.Element?
      && Kids(At(r, es).value) == Kids(At(doc, es).value) + [entity]
      && Kids(At(r, ss).value) == Kids(At(doc, ss).value) + [symbol]
      && GetAttribute(entity, "Id") == GetAttribute(symbol, "Id") == NextUniqueId(doc)
      && (Apart(es, b) && Apart(ss, b) ==> At(r, b) == At(doc, b))
  {
    CreateEntityUnfold(doc, name, objectId, code, fontList);
    EntitiesApartFromSymbols(doc);
    var es, ss, id := FindNode(doc, ["c:Entities"]).value, FindNode(doc, SymbolsPath).value, NextUniqueId(doc);
    var E, S := At(doc, es).value, At(doc, ss).value;
    var symbol, entity := EntitySymbolNode(id, id, fontList), BuildBasicNode("o:Entity", id, name, objectId, code);
    var doc1 := Put(doc, ss, AppendChild(S, symbol));
    PutEffect(doc, ss, AppendChild(S, symbol), es);
    PutEffect(doc, ss, AppendChild(S, symbol), b);
    PutEffect(doc1, es, AppendChild(E, entity), ss);
    PutEffect(doc1, es, AppendChild(E, entity), b);
  }

  /** `createEntity` leaves the path to `c:Entities` where it was. */
  lemma CreateEntityKeepsPath(doc: Node, name: string, objectId: string, code: string, fontList: string)
    requires CreateEntity(doc, name, objectId, code, fontList).Some?
    ensures FindNode(CreateEntity(doc, name, objectId, code, fontList).value, ["c:Entities"])
      == FindNode(doc, ["c:Entities"])
  {
    CreateEntityUnfold(doc, name, objectId, code, fontList);
    EntitiesApartFromSymbols(doc);
    var es, ss, id := FindNode(doc, ["c:Entities"]).value, FindNode(doc, SymbolsPath).value, NextUniqueId(doc);
    var E, S := At(doc, es).value, At(doc, ss).value;
    var symbol, entity := EntitySymbolNode(id, id, fontList), BuildBasicNode("o:Entity", id, name, objectId, code);
    var doc1 := Put(doc, ss, AppendChild(S, symbol));
    var path := ModelPath + ["c:Entities"];
    PutEffect(doc, ss, AppendChild(S, symbol), es);
    LocatePut(doc, path, ss, AppendChild(S, symbol));
    LocatePut(doc1, path, es, AppendChild(E, entity));
  }

  /** When the document holds ids, the new entity is the one `findEntity` finds
      under the allocated id: no earlier entity carries it. */
  lemma CreateEntityFindable(doc: Node, name: string, objectId: string, code: string, fontList: string)
    requires CreateEntity(doc, name, objectId, code, fontList).Some? && Matches(doc, "Id") != []
    ensures FindNode(doc, ["c:Entities"]).Some? && At(doc, FindNode(doc, ["c:Entities"]).value).Some?
    ensures var es := FindNode(doc, ["c:Entities"]).value;
      FindEntity(CreateEntity(doc, name, objectId, code, fontList).value, NextUniqueId(doc))
        == Some(es + [|Kids(At(doc, es).value)|])
  {
    var r := CreateEntity(doc, name, objectId, code, fontList).value;
    CreateEntityShape(doc, name, objectId, code, fontList, []);
    CreateEntityKeepsPath(doc, name, objectId, code, fontList);
    var es := FindNode(doc, ["c:Entities"]).value;
    var id := NextUniqueId(doc);
    FreshAmong(doc, es, "o:Entity", BuildBasicNode("o:Entity", id, name, objectId, code));
    FoundAt(r, ["c:Entities"], NamedWith("o:Entity", "Id", id), es, |Kids(At(doc, es).value)|);
  }

  /** The search below a path answers the first matching child of the node the path reaches. */
  lemma FoundAt(doc: Node, path: seq<string>, p: Node -> bool, b: seq<nat>, k: nat)
    requires FindNode(doc, path) == Some(b) && At(doc, b).Some? && FirstIndex(Kids(At(doc, b).value), p) == Some(k)
    ensures FindUnder(doc, path, p) == Some(b + [k])
  {
  }

  /** Appended after children none of which carries the next id, a node with
      that id is the first one found under it. */
  lemma FreshAmong(doc: Node, es: seq<nat>, tag: string, c: Node)
    requires Matches(doc, "Id") != [] && At(doc, es).Some? && At(doc, es).value.Element?
    requires NodeName(c) == tag && GetAttribute(c, "Id") == NextUniqueId(doc)
    ensures FirstIndex(Kids(At(doc, es).value) + [c], NamedWith(tag, "Id", NextUniqueId(doc)))
      == Some(|Kids(At(doc, es).value)|)
  {
    var E := At(doc, es).value;
    var p := NamedWith(tag, "Id", NextUniqueId(doc));
    var cs := E.children + [c];
    forall j | 0 <= j < |E.children| ensures !p(cs[j]) {
      AtConcat(doc, es, [j]);
      NextUniqueIdFresh(doc, es + [j]);
    }
    FirstIndexUnique(cs, p, |E.children|);
  }

  /** A node found by its `Id` below a path and put back changed but with the
      same head is found where it was, and nothing apart from it changes. */
  lemma FoundReplaced(doc: Node, path: seq<string>, tag: string, id: string, s: Node, b: seq<nat>)
    requires FindUnder(doc, path, NamedWith(tag, "Id", id)).Some?
    requires Head(s) == Head(At(doc, FindUnder(doc, path, NamedWith(tag, "Id", id)).value).value)
    ensures var a := FindUnder(doc, path, NamedWith(tag, "Id", id)).value;
      && At(Put(doc, a, s), a) == Some(s)
      && FindUnder(Put(doc, a, s), path, NamedWith(tag, "Id", id)) == Some(a)
      && (Apart(a, b) ==> At(Put(doc, a, s), b) == At(doc, b))
  {
    var a := FindUnder(doc, path, NamedWith(tag, "Id", id)).value;
    assert a[..|a|] == a;
    NamedWithHeadOnly(tag, "Id", id);
    FindUnderPut(doc, path, NamedWith(tag, "Id", id), a, s);
    PutEffect(doc, a, s, b);
  }

  /** Removing the node at `a` removes that child of its parent, and nothing
      apart from the parent changes. */
  lemma RemoveAtEffect(doc: Node, a: seq<nat>, b: seq<nat>)
    requires RemoveAt(doc, a).Some?
    ensures var up, i := a[..|a| - 1], a[|a| - 1];
      && At(doc, up).Some? && At(doc, up).value.Element? && i < |At(doc, up).value.children|
      && At(RemoveAt(doc, a).value, up) == Some(RemoveChildAt(At(doc, up).value, i))
      && (Apart(up, b) ==> At(RemoveAt(doc, a).value, b) == At(doc, b))
  {
    var up, i := a[..|a| - 1], a[|a| - 1];
    assert a == up + [i];
    AtConcat(doc, up, [i]);
    PutEffect(doc, up, RemoveChildAt(At(doc, up).value, i), b);
  }

  /** `removeChild` of the child `i` of the node at `up`, seen from `up` and from elsewhere. */
  lemma RemoveChildEffect(doc: Node, up: seq<nat>, i: nat, b: seq<nat>)
    requires At(doc, up).Some? && At(doc, up).value.Element? && i < |At(doc, up).value.children|
    ensures RemoveAt(doc, up + [i]).Some?
    ensures At(RemoveAt(doc, up + [i]).value, up) == Some(RemoveChildAt(At(doc, up).value, i))
    ensures Apart(up, b) ==> At(RemoveAt(doc, up + [i]).value, b) == At(doc, b)
  {
    var a := up + [i];
    assert a[..|a| - 1] == up && a[|a| - 1] == i;
    AtConcat(doc, up, [i]);
    RemoveAtEffect(doc, a, b);
  }

  // ---------------------------------------------------------------------
  // Data items.

  /** `findDataItem(dataItemId)`. */
  function FindDataItem(doc: Node, dataItemId: string): Option<seq<nat>>
  {
    FindUnder(doc, ["c:DataItems"], NamedWith("o:DataItem", "Id", dataItemId))
  }

  /** The `c:Domain/o:Domain` reference inside a data item. */
  function DomainRefAddress(doc: Node, dataItemId: string): (r: Option<seq<nat>>)
    ensures r.Some? ==> At(doc, r.value).Some? && NodeName(At(doc, r.value).value) == "o:Domain"
    ensures r.Some? ==> (FindDataItem(doc, dataItemId).Some?
      && var d := FindDataItem(doc, dataItemId).value;
      |r.value| == |d| + 2 && r.value[..|d|] == d && At(doc, r.value[..|d| + 1]).Some?
      && NodeName(At(doc, r.value[..|d| + 1]).value) == "c:Domain")
  {
    var d :- FindDataItem(doc, dataItemId);
    var c :- Find(doc, d, Named("c:Domain"));
    var r :- Find(doc, c, Named("o:Domain"));
    PrefixTrans(r, c, d);
    Some(r)
  }

  /** The data item is found at the same place after a change inside it that keeps its head. */
  lemma FindDataItemPut(doc: Node, dataItemId: string, a: seq<nat>, s: Node)
    requires FindDataItem(doc, dataItemId).Some? && At(doc, a).Some?
    requires var d := FindDataItem(doc, dataItemId).value;
      |d| <= |a| && a[..|d|] == d && (|d| < |a| || Head(s) == Head(At(doc, a).value))
    ensures FindDataItem(Put(doc, a, s), dataItemId) == FindDataItem(doc, dataItemId)
  {
    NamedWithHeadOnly("o:DataItem", "Id", dataItemId);
    FindUnderPut(doc, ["c:DataItems"], NamedWith("o:DataItem", "Id", dataItemId), a, s);
  }

  lemma FindDataItemPutSame(doc: Node, dataItemId: string, s: Node)
    requires FindDataItem(doc, dataItemId).Some?
    requires Head(s) == Head(At(doc, FindDataItem(doc, dataItemId).value).value)
    ensures FindDataItem(Put(doc, FindDataItem(doc, dataItemId).value, s), dataItemId) == FindDataItem(doc, dataItemId)
  {
    var a := FindDataItem(doc, dataItemId).value;
    assert a[..|a|] == a;
    FindDataItemPut(doc, dataItemId, a, s);
  }

  /** `setDomainForDataItem`. */
  function SetDomainForDataItem(doc: Node, dataItemId: string, domainId: string): Option<Node>
  {
    var a :- DomainRefAddress(doc, dataItemId);
    Some(Put(doc, a, SetAttribute(At(doc, a).value, "Ref", domainId)))
  }

  /** `setDomainForDataItem` rewrites only the `Ref` of the existing
      `c:Domain/o:Domain`: the node keeps its name, children and other
      attributes, the data item is still found and keeps the text of every
      field other than `c:Domain` (its `a:DataType` and `a:Length` among them),
      and every subtree apart from the reference is untouched. */
  lemma SetDomainForDataItemEffect(doc: Node, dataItemId: string, domainId: string,
                                   k: string, other: string, b: seq<nat>)
    requires SetDomainForDataItem(doc, dataItemId, domainId).Some?
    ensures var r, a := SetDomainForDataItem(doc, dataItemId, domainId).value, DomainRefAddress(doc, dataItemId).value;
      var n, d := At(doc, a).value, FindDataItem(doc, dataItemId).value;
      At(r, a).Some? && At(r, a).value.Element? && NodeName(At(r, a).value) == NodeName(n)
      && Kids(At(r, a).value) == Kids(n)
      && GetAttribute(At(r, a).value, "Ref") == domainId
      && (k != "Ref" ==> GetAttribute(At(r, a).value, k) == GetAttribute(n, k))
      && FindDataItem(r, dataItemId) == Some(d)
      && (other != "c:Domain" ==> FieldText(At(r, d).value, other) == FieldText(At(doc, d).value, other))
      && (Apart(a, b) ==> At(r, b) == At(doc, b))
  {
    var a := DomainRefAddress(doc, dataItemId).value;
    var d := FindDataItem(doc, dataItemId).value;
    var n' := SetAttribute(At(doc, a).value, "Ref", domainId);
    PutEffect(doc, a, n', b);
    FindDataItemPut(doc, dataItemId, a, n');
    if other != "c:Domain" {
      var rest := a[|d|..];
      SplitAfter(a, d);
      DomainFieldsKept(doc, d, rest, n', other);
    }
  }

  /** A change strictly inside the `c:Domain` child of a node leaves the text of its other fields. */
  lemma DomainFieldsKept(doc: Node, d: seq<nat>, rest: seq<nat>, s: Node, other: string)
    requires |rest| == 2 && At(doc, d + rest).Some?
    requires At(doc, d + [rest[0]]).Some? && NodeName(At(doc, d + [rest[0]]).value) == "c:Domain"
    requires other != "c:Domain"
    ensures At(doc, d).Some? && At(Put(doc, d + rest, s), d).Some?
    ensures FieldText(At(Put(doc, d + rest, s), d).value, other) == FieldText(At(doc, d).value, other)
  {
    assert (d + rest)[..|d|] == d && (d + rest)[|d|..] == rest;
    AtPutBelow(doc, d + rest, d, s);
    AtConcat(doc, d, rest);
    AtConcat(doc, d, [rest[0]]);
    FieldTextPutInside(At(doc, d).value, rest, s, other);
  }

  /** A change strictly inside one child keeps that child's name, so every field
      of another name keeps its text. */
  lemma FieldTextPutInside(n: Node, rest: seq<nat>, s: Node, other: string)
    requires |rest| >= 2 && At(n, rest).Some? && NodeName(Kids(n)[rest[0]]) != other
    ensures FieldText(Put(n, rest, s), other) == FieldText(n, other)
  {
    var c := n.children[rest[0]];
    PutHead(c, rest[1..], s);
    FieldTextUpdate(n, rest[0], Put(c, rest[1..], s), other);
  }

  /** `if (child !== undefined) node.removeChild(child)` for the first child
      of that name: one occurrence of the name goes, nothing else. */
  function DropChild(d: Node, name: string): (r: Node)
    ensures Head(r) == Head(d)
    ensures multiset(Names(Kids(r))) == multiset(Names(Kids(d))) - multiset{name}
  {
    match FieldIndex(d, name)
    case None =>
      NamedAbsent(Kids(d), name);
      d
    case Some(i) =>
      NamesRemoveCount(d.children, i);
      RemoveChildAt(d, i)
  }

  /** Dropping a child of another name leaves the field `key` as it was. */
  lemma DropChildKeeps(d: Node, name: string, key: string)
    requires d.Element? && key != name
    ensures FieldText(DropChild(d, name), key) == FieldText(d, key)
    ensures FieldIndex(DropChild(d, name), key).None? <==> FieldIndex(d, key).None?
    ensures Writable(DropChild(d, name), key) <==> Writable(d, key)
  {
    match FieldIndex(d, name)
    case None =>
    case Some(i) => FieldTextRemove(d, i, key);
  }

  /** The data-item part of `setDataTypeAndLengthForDataItem`: drop the first
      `c:Domain`, overwrite the existing `a:DataType`, then set `a:Length`
      (creating it when absent). */
  function RetypeItem(d: Node, dataType: string, lengthText: string): Option<Node>
  {
    var d2 :- OverwriteField(DropChild(d, "c:Domain"), "a:DataType", dataType);
    SetField(d2, "a:Length", lengthText)
  }

  /** Without an `a:DataType` field the call throws. */
  lemma RetypeItemNeedsDataType(d: Node, dataType: string, lengthText: string)
    requires "a:DataType" !in Names(Kids(d))
    ensures RetypeItem(d, dataType, lengthText).None?
  {
    var d1 := DropChild(d, "c:Domain");
    assert "a:DataType" !in multiset(Names(Kids(d1)));
    NamedAbsent(Kids(d1), "a:DataType");
  }

  /** An item with a text `a:DataType` and a writable `a:Length` is retyped. */
  lemma RetypeItemSucceeds(d: Node, dataType: string, lengthText: string)
    requires d.Element? && FieldText(d, "a:DataType").Some? && Writable(d, "a:Length")
    ensures RetypeItem(d, dataType, lengthText).Some?
  {
    var d1 := DropChild(d, "c:Domain");
    DropChildKeeps(d, "c:Domain", "a:DataType");
    DropChildKeeps(d, "c:Domain", "a:Length");
    var d2 := OverwriteField(d1, "a:DataType", dataType).value;
    RetypeKeepsLength(d1, dataType);
  }

  /** Overwriting `a:DataType` keeps whether and how `a:Length` may be written. */
  lemma RetypeKeepsLength(d1: Node, dataType: string)
    requires OverwriteField(d1, "a:DataType", dataType).Some?
    ensures var d2 := OverwriteField(d1, "a:DataType", dataType).value;
      FieldText(d2, "a:Length") == FieldText(d1, "a:Length")
      && (Writable(d2, "a:Length") <==> Writable(d1, "a:Length"))
  {
    var d2 := OverwriteField(d1, "a:DataType", dataType).value;
    OverwriteFieldKeeps(d1, "a:DataType", dataType, "a:Length");
    NamedSameNames(d2.children, d1.children, "a:Length");
    WritableSame(d1, d2, "a:Length");
  }

  /** After retyping, the item keeps its head, holds no `c:Domain` when it held
      at most one, reads the new type and, when `a:Length` was writable, the new
      length. */
  lemma RetypeItemEffect(d: Node, dataType: string, lengthText: string)
    requires RetypeItem(d, dataType, lengthText).Some?
    ensures var r := RetypeItem(d, dataType, lengthText).value;
      Head(r) == Head(d)
      && (multiset(Names(Kids(d)))["c:Domain"] <= 1 ==> "c:Domain" !in Names(Kids(r)))
      && (FieldText(d, "a:DataType").Some? ==> FieldText(r, "a:DataType") == Some(dataType))
      && (Writable(d, "a:Length") ==> FieldText(r, "a:Length") == Some(lengthText))
  {
    var d1 := DropChild(d, "c:Domain");
    var d2 := OverwriteField(d1, "a:DataType", dataType).value;
    var r := SetField(d2, "a:Length", lengthText).value;
    assert d.Element?;
    DropChildKeeps(d, "c:Domain", "a:DataType");
    DropChildKeeps(d, "c:Domain", "a:Length");
    RetypeKeepsLength(d1, dataType);
    SetFieldNames(d2, "a:Length", lengthText);
    SetFieldKeeps(d2, "a:Length", lengthText, "a:DataType");
    if FieldText(d, "a:DataType").Some? {
      OverwriteFieldReads(d1, "a:DataType", dataType);
    }
    if Writable(d, "a:Length") {
      SetFieldReads(d2, "a:Length", lengthText, "a:DataType");
    }
    if multiset(Names(Kids(d)))["c:Domain"] <= 1 {
      assert "c:Domain" !in multiset(Names(Kids(d1)));
      assert "c:Domain" !in Names(d2.children);
    }
  }

  /** The text of every other field stays. */
  lemma RetypeItemKeeps(d: Node, dataType: string, lengthText: string, other: string)
    requires RetypeItem(d, dataType, lengthText).Some?
    requires other != "c:Domain" && other != "a:DataType" && other != "a:Length"
    ensures FieldText(RetypeItem(d, dataType, lengthText).value, other) == FieldText(d, other)
  {
    var d1 := DropChild(d, "c:Domain");
    var d2 := OverwriteField(d1, "a:DataType", dataType).value;
    assert d.Element?;
    DropChildKeeps(d, "c:Domain", other);
    OverwriteFieldKeeps(d1, "a:DataType", dataType, other);
    SetFieldKeeps(d2, "a:Length", lengthText, other);
  }

  function SetDataTypeAndLengthForDataItem(doc: Node, dataItemId: string, dataType: string, length: int): Option<Node>
  {
    var a :- FindDataItem(doc, dataItemId);
    var d :- RetypeItem(At(doc, a).value, dataType, IntToString(length));
    Some(Put(doc, a, d))
  }

  lemma SetDataTypeAndLengthUnfold(doc: Node, dataItemId: string, dataType: string, length: int)
    requires SetDataTypeAndLengthForDataItem(doc, dataItemId, dataType, length).Some?
    ensures FindDataItem(doc, dataItemId).Some?
    ensures var a := FindDataItem(doc, dataItemId).value;
      var d := RetypeItem(At(doc, a).value, dataType, IntToString(length));
      d.Some? && SetDataTypeAndLengthForDataItem(doc, dataItemId, dataType, length) == Some(Put(doc, a, d.value))
  {
  }

  /** The retyped item replaces the old one where it was, is still found under
      its id, its `a:Length` text reads back as the length, and nothing outside
      it changes. */
  lemma SetDataTypeAndLengthEffect(doc: Node, dataItemId: string, dataType: string, length: int, b: seq<nat>)
    requires SetDataTypeAndLengthForDataItem(doc, dataItemId, dataType, length).Some?
    ensures FindDataItem(doc, dataItemId).Some?
      && var r, a := SetDataTypeAndLengthForDataItem(doc, dataItemId, dataType, length).value,
        FindDataItem(doc, dataItemId).value;
      var item := At(doc, a).value;
      RetypeItem(item, dataType, IntToString(length)).Some?
      && At(r, a) == RetypeItem(item, dataType, IntToString(length))
      && FindDataItem(r, dataItemId) == Some(a)
      && (Apart(a, b) ==> At(r, b) == At(doc, b))
  {
    SetDataTypeAndLengthUnfold(doc, dataItemId, dataType, length);
    var a := FindDataItem(doc, dataItemId).value;
    var item := At(doc, a).value;
    var d := RetypeItem(item, dataType, IntToString(length)).value;
    PutEffect(doc, a, d, b);
    RetypeItemEffect(item, dataType, IntToString(length));
    FindDataItemPutSame(doc, dataItemId, d);
  }

  /** The stored length is the decimal text of the number, which `parseInt` reads back. */
  lemma RetypeItemLength(item: Node, dataType: string, length: int)
    requires RetypeItem(item, dataType, IntToString(length)).Some? && Writable(item, "a:Length")
    ensures var r := RetypeItem(item, dataType, IntToString(length)).value;
      FieldText(r, "a:Length") == Some(IntToString(length))
      && ParseInt(FieldText(r, "a:Length").value) == Some(length)
  {
    RetypeItemEffect(item, dataType, IntToString(length));
    ParseIntToString([], length);
    assert [] + IntToString(length) == IntToString(length);
  }
}
