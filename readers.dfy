/** What the readers see of a document. The readers of src/parsers/modelParser.ts,
    src/parsers/modelParser.tsx and src/parsers/modelParser.js walk the object
    that xml2js builds from the same XML text the model class serializes: an
    element becomes an object whose key `name` holds its element children of
    that name, in document order, and whose key `$` holds its attributes (and
    is absent when it has none). This module states that view over the tree of
    `Xml`, the folds the readers build their maps and lists with, and the
    `a:Rect` reading. */
module Readers {
  import opened Xml
  import opened Geometry

  // ---------------------------------------------------------------------
  // The xml2js view.

  function GroupOf(cs: seq<Node>, key: string): (r: seq<Node>)
    ensures |r| <= |cs|
    ensures forall c :: c in r ==> c in cs && c.Element? && c.name == key
  {
    if cs == [] then []
    else (if cs[0].Element? && cs[0].name == key then [cs[0]] else []) + GroupOf(cs[1..], key)
  }

  /** `obj[key]`: the element children named `key`, in order; empty where
      xml2js leaves the key out (`hasOwnProperty(key)` is false). */
  function Group(n: Node, key: string): seq<Node>
  {
    GroupOf(Kids(n), key)
  }

  predicate Has(n: Node, key: string)
  {
    Group(n, key) != []
  }

  /** `obj[key][0]`; None where `obj[key]` is undefined and indexing it throws. */
  function First(n: Node, key: string): Option<Node>
  {
    if Has(n, key) then Some(Group(n, key)[0]) else None
  }

  /** `obj[key]` as a list a reader goes on to `map` or `reduce`; None where
      it is undefined and the call throws. */
  function Items(n: Node, key: string): Option<seq<Node>>
  {
    if Has(n, key) then Some(Group(n, key)) else None
  }

  /** `obj['$'][key]`: None where the element has no attributes (`obj['$']`
      is undefined and reading from it throws); Some(None) is `undefined`. */
  function Dollar(n: Node, key: string): (r: Option<Option<string>>)
    ensures r.None? <==> (n.Text? || n.attrs == [])
    ensures r.Some? && r.value.Some? ==> r.value.value == GetAttribute(n, key)
    ensures r.Some? ==> (r.value.Some? <==> AttrIndex(n.attrs, key).Some?)
  {
    if n.Text? || n.attrs == [] then None
    else match AttrIndex(n.attrs, key)
      case None => Some(None)
      case Some(i) => Some(Some(n.attrs[i].value))
  }

  /** The string xml2js makes of a leaf element: its text, in one piece. */
  function TextOf(cs: seq<Node>): string
  {
    if cs == [] then "" else (if cs[0].Text? then cs[0].data else "") + TextOf(cs[1..])
  }

  function Value(f: Node): string
  {
    TextOf(Kids(f))
  }

  /** The property name a value becomes when an object is indexed by it:
      `undefined` becomes the text "undefined". */
  function Key(v: Option<string>): string
  {
    if v.Some? then v.value else "undefined"
  }

  /** `obj[k1][0][k2][0]['$'].Ref`: the reference an object holds through
      two levels of single children. */
  function RefThrough(n: Node, k1: string, k2: string): Option<Option<string>>
  {
    var a :- First(n, k1);
    var b :- First(a, k2);
    Dollar(b, "Ref")
  }

  /** `obj.hasOwnProperty(k1) ? obj[k1][0][k2][0]['$'].Ref : undefined`. */
  function OptionalRef(n: Node, k1: string, k2: string): (r: Option<Option<string>>)
    ensures !Has(n, k1) ==> r == Some(None)
    ensures Has(n, k1) ==> r == RefThrough(n, k1, k2)
  {
    if Has(n, k1) then RefThrough(n, k1, k2) else Some(None)
  }

  // ---------------------------------------------------------------------
  // The view agrees with the DOM the model class works on.

  lemma {:induction false} GroupOfFirst(cs: seq<Node>, key: string)
    requires key != "#text"
    ensures GroupOf(cs, key) != [] <==> FirstIndex(cs, Named(key)).Some?
    ensures GroupOf(cs, key) != [] ==> GroupOf(cs, key)[0] == cs[FirstIndex(cs, Named(key)).value]
  {
    if cs != [] {
      GroupOfFirst(cs[1..], key);
      if !(cs[0].Element? && cs[0].name == key) {
        assert !Named(key)(cs[0]);
        assert GroupOf(cs, key) == GroupOf(cs[1..], key);
      }
    }
  }

  /** `obj[key][0]` is the child `getChildNodeForName(node, key)` finds. */
  lemma FirstIsFieldChild(n: Node, key: string)
    requires key != "#text"
    ensures First(n, key).Some? <==> FieldIndex(n, key).Some?
    ensures First(n, key).Some? ==> First(n, key).value == Kids(n)[FieldIndex(n, key).value]
  {
    GroupOfFirst(Kids(n), key);
  }

  /** Following `obj[k][0]` along a path is `Locate` along it. */
  function Follow(n: Node, path: seq<string>): (r: Option<Node>)
    decreases |path|
  {
    if path == [] then Some(n)
    else
      var c :- First(n, path[0]);
      Follow(c, path[1..])
  }

  lemma {:induction false} FollowLocate(n: Node, path: seq<string>)
    requires forall j :: 0 <= j < |path| ==> path[j] != "#text"
    ensures Follow(n, path).Some? <==> Locate(n, path).Some?
    ensures Follow(n, path).Some? ==> Follow(n, path) == At(n, Locate(n, path).value)
    decreases |path|
  {
    if path != [] {
      FirstIsFieldChild(n, path[0]);
      if First(n, path[0]).Some? {
        var i := FieldIndex(n, path[0]).value;
        FollowLocate(Kids(n)[i], path[1..]);
        if Locate(n, path).Some? {
          var rest := Locate(Kids(n)[i], path[1..]).value;
          assert Locate(n, path).value == [i] + rest;
          assert ([i] + rest)[0] == i && ([i] + rest)[1..] == rest;
        }
      }
    }
  }

  /** A leaf field reads as the value it was written with. */
  lemma ValueOfField(key: string, v: string)
    ensures Value(Field(key, v)) == v
  {
    assert TextOf([Text(v)]) == v + TextOf([]);
  }

  // ---------------------------------------------------------------------
  // `list.map(f)` and `list.reduce((acc, x) => { acc[k(x)] = v(x); return acc }, {})`,
  // where any step may throw.

  function MapAll<V>(xs: seq<Node>, f: Node -> Option<V>): (r: Option<seq<V>>)
    ensures r.Some? <==> forall j :: 0 <= j < |xs| ==> f(xs[j]).Some?
    ensures r.Some? ==> |r.value| == |xs| && forall j :: 0 <= j < |xs| ==> r.value[j] == f(xs[j]).value
  {
    if xs == [] then Some([])
    else
      assert forall j :: 0 < j < |xs| ==> xs[1..][j - 1] == xs[j];
      var h :- f(xs[0]);
      var t :- MapAll(xs[1..], f);
      Some([h] + t)
  }

  /** The map a `reduce` over `xs` builds, each element setting one key; a
      later element overwrites an earlier one with the same key. */
  function KeyedFold<V>(xs: seq<Node>, entry: Node -> Option<(string, V)>): (r: Option<map<string, V>>)
    ensures r.Some? <==> forall j :: 0 <= j < |xs| ==> entry(xs[j]).Some?
    decreases |xs|
  {
    if xs == [] then Some(map[])
    else
      var init := xs[..|xs| - 1];
      assert forall j :: 0 <= j < |init| ==> init[j] == xs[j];
      var acc :- KeyedFold(init, entry);
      var e :- entry(xs[|xs| - 1]);
      Some(acc[e.0 := e.1])
  }

  /** Every key of the map comes from an element. */
  lemma {:induction false} KeyedFoldKeys<V>(xs: seq<Node>, entry: Node -> Option<(string, V)>, k: string)
    requires KeyedFold(xs, entry).Some? && k in KeyedFold(xs, entry).value
    ensures exists j :: 0 <= j < |xs| && entry(xs[j]).value.0 == k
    decreases |xs|
  {
    var init := xs[..|xs| - 1];
    var e := entry(xs[|xs| - 1]).value;
    if e.0 != k {
      assert forall j :: 0 <= j < |init| ==> init[j] == xs[j];
      KeyedFoldKeys(init, entry, k);
      var j :| 0 <= j < |init| && entry(init[j]).value.0 == k;
      assert init[j] == xs[j];
    }
  }

  /** The last element with a key decides its value. */
  lemma {:induction false} KeyedFoldLastWins<V>(xs: seq<Node>, entry: Node -> Option<(string, V)>, j: nat)
    requires KeyedFold(xs, entry).Some? && j < |xs|
    requires forall i :: j < i < |xs| ==> entry(xs[i]).value.0 != entry(xs[j]).value.0
    ensures entry(xs[j]).value.0 in KeyedFold(xs, entry).value
    ensures KeyedFold(xs, entry).value[entry(xs[j]).value.0] == entry(xs[j]).value.1
    decreases |xs|
  {
    var init := xs[..|xs| - 1];
    assert forall i :: 0 <= i < |init| ==> init[i] == xs[i];
    if j < |xs| - 1 {
      assert init[j] == xs[j];
      KeyedFoldLastWins(init, entry, j);
    }
  }

  // ---------------------------------------------------------------------
  // `a:Rect`: `const [x1, y2, x2, y1] = rect.replace(/\(|\)/g, '').split(',').map(parseInt)`
  // and `{topLeft: {x: x1, y: y1}, bottomRight: {x: x2, y: y2}}`. A
  // coordinate is None where it is `NaN` or `undefined`.

  datatype Spot = Spot(x: Option<int>, y: Option<int>)

  datatype Location = Location(topLeft: Spot, bottomRight: Spot)

  function RectLocation(s: string): (l: Location)
    ensures var q := ParseRect(s);
      l.topLeft == Spot(q.x1, q.y1) && l.bottomRight == Spot(q.x2, q.y2)
  {
    var q := ParseRect(s);
    Location(Spot(q.x1, q.y1), Spot(q.x2, q.y2))
  }

  /** The location of a rectangle, every coordinate a number. */
  function LocationOf(r: Rectangle): Location
  {
    Location(Spot(Some(r.topLeft.x), Some(r.topLeft.y)), Spot(Some(r.bottomRight.x), Some(r.bottomRight.y)))
  }

  /** Reading the text `moveEntity` writes gives back the rectangle it was moved to. */
  lemma RectLocationRoundTrip(r: Rectangle)
    ensures RectLocation(RectText(r)) == LocationOf(r)
  {
    ParseRectText(r);
  }

  /** A symbol's `a:Rect`, as the readers take it. */
  function SymbolRect(symbol: Node): Option<Location>
  {
    var rect :- First(symbol, "a:Rect");
    Some(RectLocation(Value(rect)))
  }

  /** After `setAttributesOnNode(symbol, {'a:Rect': rectText(r)})` on a symbol
      whose `a:Rect` is absent or a single text, the readers see `r`. */
  lemma SymbolRectAfterMove(symbol: Node, r: Rectangle)
    requires Writable(symbol, "a:Rect")
    requires FieldIndex(symbol, "a:Rect").Some? ==> |Kids(Kids(symbol)[FieldIndex(symbol, "a:Rect").value])| == 1
    ensures SetField(symbol, "a:Rect", RectText(r)).Some?
    ensures SymbolRect(SetField(symbol, "a:Rect", RectText(r)).value) == Some(LocationOf(r))
  {
    SetFieldReads(symbol, "a:Rect", RectText(r), "a:Rect");
    var s := SetField(symbol, "a:Rect", RectText(r)).value;
    SingleTextField(symbol, "a:Rect", RectText(r));
    FirstIsFieldChild(s, "a:Rect");
    RectLocationRoundTrip(r);
  }

  /** Writing a field that is absent or a single text leaves it a single text. */
  lemma SingleTextField(n: Node, key: string, v: string)
    requires Writable(n, key)
    requires FieldIndex(n, key).Some? ==> |Kids(Kids(n)[FieldIndex(n, key).value])| == 1
    ensures SetField(n, key, v).Some?
    ensures var s := SetField(n, key, v).value;
      FieldIndex(s, key).Some? && Value(Kids(s)[FieldIndex(s, key).value]) == v
  {
    SetFieldReads(n, key, v, key);
    var s := SetField(n, key, v).value;
    match FieldIndex(n, key)
    case None =>
      FieldIndexAppend(n.children, Field(key, v), key);
      ValueOfField(key, v);
    case Some(i) =>
      FieldIndexUpdate(n.children, i, SetFirstText(n.children[i], v), key);
      assert Kids(s.children[i]) == [Text(v)];
      assert TextOf([Text(v)]) == v + TextOf([]);
  }
}
