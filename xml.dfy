/** The generic document tree the model engine works on: elements with ordered
    attributes and ordered children, and text nodes. Whitespace between
    elements is kept as real text children, as the XML parser keeps it. */
module Xml {

  datatype Option<T> = None | Some(value: T)
  {
    predicate IsFailure() { None? }
    function PropagateFailure<U>(): Option<U>
      requires None?
    {
      None
    }
    function Extract(): T
      requires Some?
    {
      value
    }
  }

  datatype Attr = Attr(key: string, value: string)

  datatype Node =
    | Element(name: string, attrs: seq<Attr>, children: seq<Node>)
    | Text(data: string)

  /** The DOM `nodeName`: the tag of an element, "#text" for a text node. */
  function NodeName(n: Node): string
  {
    if n.Element? then n.name else "#text"
  }

  /** `childNodes`: a text node has none. */
  function Kids(n: Node): seq<Node>
  {
    if n.Element? then n.children else []
  }

  /** A leaf field such as `<a:Name>BLOCK</a:Name>`. */
  function Field(key: string, value: string): Node
  {
    Element(key, [], [Text(value)])
  }

  // ---------------------------------------------------------------------
  // Attributes: `getAttribute` of the XML library answers "" when absent.

  function AttrIndex(attrs: seq<Attr>, key: string): (r: Option<nat>)
    ensures r.Some? ==> (r.value < |attrs| && attrs[r.value].key == key
      && forall j :: 0 <= j < r.value ==> attrs[j].key != key)
    ensures r.None? ==> forall j :: 0 <= j < |attrs| ==> attrs[j].key != key
  {
    if |attrs| == 0 then None
    else if attrs[0].key == key then Some(0)
    else match AttrIndex(attrs[1..], key)
      case None => None
      case Some(i) => Some(i + 1)
  }

  function GetAttribute(n: Node, key: string): string
  {
    if n.Text? then ""
    else match AttrIndex(n.attrs, key)
      case None => ""
      case Some(i) => n.attrs[i].value
  }

  /** `setAttribute`: overwrite the attribute in place, or append it. */
  function SetAttribute(n: Node, key: string, value: string): (r: Node)
    requires n.Element?
    ensures r.Element? && r.name == n.name && r.children == n.children
    ensures GetAttribute(r, key) == value
    ensures forall k :: k != key ==> GetAttribute(r, k) == GetAttribute(n, k)
  {
    match AttrIndex(n.attrs, key)
    case None =>
      var r := n.(attrs := n.attrs + [Attr(key, value)]);
      assert AttrIndex(r.attrs, key) == Some(|n.attrs|) by { AttrIndexAppend(n.attrs, Attr(key, value), key); }
      forall k | k != key ensures GetAttribute(r, k) == GetAttribute(n, k) {
        AttrIndexAppend(n.attrs, Attr(key, value), k);
      }
      r
    case Some(i) =>
      var r := n.(attrs := n.attrs[i := Attr(key, value)]);
      assert AttrIndex(r.attrs, key) == Some(i) by { AttrIndexUpdate(n.attrs, i, value, key); }
      forall k | k != key ensures GetAttribute(r, k) == GetAttribute(n, k) {
        AttrIndexUpdate(n.attrs, i, value, k);
      }
      r
  }

  lemma {:induction false} AttrIndexAppend(attrs: seq<Attr>, a: Attr, key: string)
    ensures AttrIndex(attrs + [a], key) ==
      match AttrIndex(attrs, key)
      case Some(i) => Some(i)
      case None => if a.key == key then Some(|attrs|) else None
  {
    if |attrs| > 0 {
      assert (attrs + [a])[1..] == attrs[1..] + [a];
      AttrIndexAppend(attrs[1..], a, key);
    }
  }

  lemma {:induction false} AttrIndexUpdate(attrs: seq<Attr>, i: nat, value: string, key: string)
    requires i < |attrs|
    ensures AttrIndex(attrs[i := Attr(attrs[i].key, value)], key) == AttrIndex(attrs, key)
  {
    if i > 0 {
      assert attrs[i := Attr(attrs[i].key, value)][1..] == attrs[1..][i - 1 := Attr(attrs[i].key, value)];
      AttrIndexUpdate(attrs[1..], i - 1, value, key);
    }
  }

  // ---------------------------------------------------------------------
  // `Array.from(node.childNodes).find(predicate)`, as an index.

  function FirstIndex(cs: seq<Node>, p: Node -> bool): (r: Option<nat>)
    ensures r.Some? ==> (r.value < |cs| && p(cs[r.value])
      && forall j :: 0 <= j < r.value ==> !p(cs[j]))
    ensures r.None? ==> forall j :: 0 <= j < |cs| ==> !p(cs[j])
  {
    if |cs| == 0 then None
    else if p(cs[0]) then Some(0)
    else match FirstIndex(cs[1..], p)
      case None => None
      case Some(i) => Some(i + 1)
  }

  /** The answer of `FirstIndex` is fixed by its two postconditions. */
  lemma FirstIndexUnique(cs: seq<Node>, p: Node -> bool, i: nat)
    requires i < |cs| && p(cs[i]) && forall j :: 0 <= j < i ==> !p(cs[j])
    ensures FirstIndex(cs, p) == Some(i)
  {
  }

  /** What a `findChildNode` whose predicate may throw ends with: the index
      of the first child accepted, none accepted, or a throw out of the
      predicate (`None` from `p`), which ends the search. */
  datatype Search = Hit(index: nat) | Miss | Throws

  function TryFirst(cs: seq<Node>, p: Node -> Option<bool>): (r: Search)
    ensures r.Hit? ==> r.index < |cs| && p(cs[r.index]) == Some(true)
    ensures r.Hit? ==> forall j :: 0 <= j < r.index ==> p(cs[j]) == Some(false)
    ensures r.Miss? <==> forall j :: 0 <= j < |cs| ==> p(cs[j]) == Some(false)
    ensures r.Throws? ==> exists j :: 0 <= j < |cs| && p(cs[j]).None?
  {
    if cs == [] then Miss
    else match p(cs[0])
      case None => Throws
      case Some(true) => Hit(0)
      case Some(false) =>
        assert forall j :: 0 < j < |cs| ==> cs[j] == cs[1..][j - 1];
        match TryFirst(cs[1..], p)
        case Hit(i) => Hit(i + 1)
        case Miss => Miss
        case Throws => Throws
  }

  function Named(name: string): Node -> bool
  {
    (n: Node) => NodeName(n) == name
  }

  /** `nodeName === name && getAttribute(key) === value` */
  function NamedWith(name: string, key: string, value: string): Node -> bool
  {
    (n: Node) => NodeName(n) == name && GetAttribute(n, key) == value
  }

  function AppendChild(n: Node, c: Node): (r: Node)
    requires n.Element?
    ensures r.Element? && r.name == n.name && r.attrs == n.attrs
    ensures r.children == n.children + [c]
  {
    n.(children := n.children + [c])
  }

  /** Two appends in a row append both children. */
  lemma AppendTwice(n: Node, x: Node, y: Node)
    requires n.Element?
    ensures AppendChild(AppendChild(n, x), y) == n.(children := n.children + [x, y])
  {
    assert n.children + [x] + [y] == n.children + [x, y];
  }

  /** Appending to an element already extended by `ts` extends it by `ts + [c]`. */
  lemma AppendExtended(n: Node, ts: seq<Node>, c: Node)
    requires n.Element?
    ensures AppendChild(n.(children := n.children + ts), c) == n.(children := n.children + (ts + [c]))
  {
    assert n.children + ts + [c] == n.children + (ts + [c]);
  }

  /** `document.createElement(name)`. */
  function Empty(name: string): Node
  {
    Element(name, [], [])
  }

  function RemoveChildAt(n: Node, i: nat): (r: Node)
    requires n.Element? && i < |n.children|
    ensures r.Element? && r.name == n.name && r.attrs == n.attrs
    ensures |r.children| == |n.children| - 1
    ensures forall j :: 0 <= j < i ==> r.children[j] == n.children[j]
    ensures forall j :: i <= j < |r.children| ==> r.children[j] == n.children[j + 1]
  {
    n.(children := n.children[..i] + n.children[i + 1..])
  }

  // ---------------------------------------------------------------------
  // Addresses: the child indices from a node down to one of its descendants.
  // A DOM reference to a node is modelled by its address.

  function At(n: Node, a: seq<nat>): Option<Node>
    decreases |a|
  {
    if a == [] then Some(n)
    else if a[0] < |Kids(n)| then At(Kids(n)[a[0]], a[1..])
    else None
  }

  /** Following `a + b` is following `a`, then `b` from there. */
  lemma {:induction false} AtConcat(n: Node, a: seq<nat>, b: seq<nat>)
    ensures At(n, a + b) == if At(n, a).None? then None else At(At(n, a).value, b)
    decreases |a|
  {
    if a == [] {
      assert a + b == b;
    } else {
      assert (a + b)[0] == a[0] && (a + b)[1..] == a[1..] + b;
      if a[0] < |Kids(n)| {
        AtConcat(Kids(n)[a[0]], a[1..], b);
      }
    }
  }

  /** Replace the node at address `a` (nothing changes when `a` is not an address of `n`). */
  function Put(n: Node, a: seq<nat>, s: Node): Node
    decreases |a|
  {
    if a == [] then s
    else if a[0] < |Kids(n)| then n.(children := n.children[a[0] := Put(n.children[a[0]], a[1..], s)])
    else n
  }

  lemma {:induction false} AtPut(n: Node, a: seq<nat>, s: Node)
    requires At(n, a).Some?
    ensures At(Put(n, a, s), a) == Some(s)
    decreases |a|
  {
    if a != [] {
      AtPut(n.children[a[0]], a[1..], s);
    }
  }

  /** A second replacement at the same address overrides the first. */
  lemma {:induction false} PutPut(n: Node, a: seq<nat>, s: Node, t: Node)
    requires At(n, a).Some?
    ensures Put(Put(n, a, s), a, t) == Put(n, a, t)
    decreases |a|
  {
    if a != [] {
      PutPut(n.children[a[0]], a[1..], s, t);
    }
  }

  /** Two addresses neither of which lies inside the other. */
  predicate Apart(a: seq<nat>, b: seq<nat>)
  {
    exists k :: 0 <= k < |a| && k < |b| && a[..k] == b[..k] && a[k] != b[k]
  }

  /** Replacing one subtree leaves every subtree apart from it unchanged. */
  lemma {:induction false} AtPutApart(n: Node, a: seq<nat>, b: seq<nat>, s: Node)
    requires Apart(a, b)
    ensures At(Put(n, a, s), b) == At(n, b)
    decreases |a|
  {
    var k :| 0 <= k < |a| && k < |b| && a[..k] == b[..k] && a[k] != b[k];
    if k > 0 {
      assert a[0] == a[..k][0] == b[..k][0] == b[0];
      if a[0] < |Kids(n)| {
        assert a[1..][..k - 1] == a[..k][1..] && b[1..][..k - 1] == b[..k][1..];
        AtPutApart(n.children[a[0]], a[1..], b[1..], s);
      }
    }
  }

  /** Replacing a node by one with the same name keeps it where it was. */
  lemma {:induction false} PutKeepsAddress(n: Node, a: seq<nat>, b: seq<nat>, s: Node)
    requires At(n, b).Some?
    ensures At(Put(n, a, s), b).Some? || (|a| <= |b| && a == b[..|a|])
    decreases |a|
  {
    if a != [] && b != [] && a[0] < |Kids(n)| && a[0] == b[0] {
      PutKeepsAddress(n.children[a[0]], a[1..], b[1..], s);
    }
  }

  // ---------------------------------------------------------------------
  // Path navigation: take the first child with the given name, segment by segment.

  function Locate(n: Node, path: seq<string>): (r: Option<seq<nat>>)
    ensures r.Some? ==> |r.value| == |path| && At(n, r.value).Some?
    decreases |path|
  {
    if path == [] then Some([])
    else match FirstIndex(Kids(n), Named(path[0]))
      case None => None
      case Some(i) =>
        match Locate(Kids(n)[i], path[1..])
        case None => None
        case Some(rest) => Some([i] + rest)
  }

  /** One more step below the node at address `a`. */
  function StepFrom(n: Node, a: seq<nat>, name: string): Option<seq<nat>>
  {
    match At(n, a)
    case None => None
    case Some(m) =>
      match FirstIndex(Kids(m), Named(name))
      case None => None
      case Some(i) => Some(a + [i])
  }

  /** A path is followed segment by segment, each time taking the first child
      bearing the segment's name. */
  lemma {:induction false} LocateSnoc(n: Node, p: seq<string>, x: string)
    ensures Locate(n, p + [x]) ==
      if Locate(n, p).None? then None else StepFrom(n, Locate(n, p).value, x)
    decreases |p|
  {
    if p == [] {
      assert p + [x] == [x];
      assert [x][1..] == [];
      match FirstIndex(Kids(n), Named(x))
      case None =>
      case Some(i) =>
        assert Locate(Kids(n)[i], []) == Some([]);
        assert [i] + [] == [i] && [] + [i] == [i];
    } else {
      var px := p + [x];
      assert px[0] == p[0] && px[1..] == p[1..] + [x];
      var fi := FirstIndex(Kids(n), Named(p[0]));
      if fi.Some? {
        var i := fi.value;
        var kid := Kids(n)[i];
        LocateSnoc(kid, p[1..], x);
        var lr := Locate(kid, p[1..]);
        if lr.Some? {
          var rest := lr.value;
          assert Locate(n, p) == Some([i] + rest);
          assert ([i] + rest)[0] == i && ([i] + rest)[1..] == rest;
          assert At(n, [i] + rest) == At(kid, rest);
          StepFromCons(n, i, rest, x);
        }
      }
    }
  }

  /** What `findNodeByPath` ends with: the node found, `undefined` (only the
      last segment was missing), or a TypeError (an earlier segment was
      missing, and `undefined.childNodes` was read). */
  datatype Lookup = Found(addr: seq<nat>) | Undefined | Crash

  /** `findNodeByPath` over a non-empty list of segments (`split` never
      yields an empty list). */
  function Resolve(n: Node, path: seq<string>): (r: Lookup)
    requires path != []
    ensures r.Found? <==> Locate(n, path).Some?
    ensures r.Found? ==> r.addr == Locate(n, path).value
    ensures r.Crash? <==> Locate(n, path[..|path| - 1]).None?
  {
    var up, last := path[..|path| - 1], path[|path| - 1];
    assert up + [last] == path;
    LocateSnoc(n, up, last);
    match Locate(n, up)
    case None => Crash
    case Some(b) =>
      match StepFrom(n, b, last)
      case None => Undefined
      case Some(a) => Found(a)
  }

  lemma StepFromCons(n: Node, i: nat, rest: seq<nat>, x: string)
    requires i < |Kids(n)|
    ensures StepFrom(n, [i] + rest, x) ==
      match StepFrom(Kids(n)[i], rest, x)
      case None => None
      case Some(b) => Some([i] + b)
  {
    assert ([i] + rest)[0] == i && ([i] + rest)[1..] == rest;
    assert At(n, [i] + rest) == At(Kids(n)[i], rest);
    match At(Kids(n)[i], rest)
    case None =>
    case Some(m) =>
      match FirstIndex(Kids(m), Named(x))
      case None =>
      case Some(j) => assert [i] + rest + [j] == [i] + (rest + [j]);
  }

  /** A located path passes through the addresses of all its prefixes. */
  lemma {:induction false} LocatePrefix(n: Node, p: seq<string>, q: seq<string>)
    requires Locate(n, p + q).Some?
    ensures Locate(n, p).Some? && Locate(n, p).value == Locate(n, p + q).value[..|p|]
    decreases |p|
  {
    if p != [] {
      assert (p + q)[0] == p[0] && (p + q)[1..] == p[1..] + q;
      var i := FirstIndex(Kids(n), Named(p[0])).value;
      LocatePrefix(Kids(n)[i], p[1..], q);
    }
  }

  // ---------------------------------------------------------------------
  // Fields: the value of a field is the data of its first child when that is text.

  function FieldIndex(n: Node, key: string): Option<nat>
  {
    FirstIndex(Kids(n), Named(key))
  }

  function FieldText(n: Node, key: string): Option<string>
  {
    match FieldIndex(n, key)
    case None => None
    case Some(i) =>
      var f := Kids(n)[i];
      if |Kids(f)| > 0 && Kids(f)[0].Text? then Some(Kids(f)[0].data) else None
  }

  /** `(node.firstChild as Text).data = value`; on an element first child the
      assignment only sets an unrelated property, so nothing visible changes. */
  function SetFirstText(f: Node, value: string): (r: Node)
    requires |Kids(f)| > 0
    ensures NodeName(r) == NodeName(f) && |Kids(r)| == |Kids(f)| && Kids(r)[1..] == Kids(f)[1..]
    ensures Kids(f)[0].Text? ==> Kids(r)[0] == Text(value)
    ensures Kids(f)[0].Element? ==> r == f
  {
    if f.children[0].Text? then f.(children := f.children[0 := Text(value)]) else f
  }

  /** One step of `setAttributesOnNode`: create the field if absent, else
      overwrite the text of the existing one. None where the source throws
      (an existing field with no child, or a text node as target). */
  function SetField(n: Node, key: string, value: string): (r: Option<Node>)
    ensures r.Some? <==> n.Element? && (FieldIndex(n, key).Some? ==> |Kids(n.children[FieldIndex(n, key).value])| > 0)
    ensures r.Some? ==> r.value.Element? && r.value.name == n.name && r.value.attrs == n.attrs
  {
    if n.Text? then None
    else match FieldIndex(n, key)
      case None => Some(AppendChild(n, Field(key, value)))
      case Some(i) =>
        if |Kids(n.children[i])| == 0 then None
        else Some(n.(children := n.children[i := SetFirstText(n.children[i], value)]))
  }

  /** The field children may be written: absent, or headed by a text node. */
  predicate Writable(n: Node, key: string)
  {
    n.Element? &&
    match FieldIndex(n, key)
    case None => true
    case Some(i) => |Kids(n.children[i])| > 0 && Kids(n.children[i])[0].Text?
  }

  /** A field that reads as text may be written. */
  lemma TextWritable(n: Node, key: string)
    requires n.Element? && FieldText(n, key).Some?
    ensures Writable(n, key)
  {
    var i := FieldIndex(n, key).value;
    assert |Kids(n.children[i])| > 0 && Kids(n.children[i])[0].Text?;
  }

  /** An element without the field may write it. */
  lemma AbsentWritable(n: Node, key: string)
    requires n.Element? && FieldIndex(n, key).None?
    ensures Writable(n, key)
  {
  }

  lemma FieldIndexUpdate(cs: seq<Node>, i: nat, c: Node, key: string)
    requires i < |cs| && NodeName(c) == NodeName(cs[i])
    ensures FirstIndex(cs[i := c], Named(key)) == FirstIndex(cs, Named(key))
  {
    var r := FirstIndex(cs, Named(key));
    var cs' := cs[i := c];
    if r.Some? {
      FirstIndexUnique(cs', Named(key), r.value);
    } else {
      assert forall j :: 0 <= j < |cs'| ==> !Named(key)(cs'[j]);
    }
  }

  lemma FieldIndexAppend(cs: seq<Node>, c: Node, key: string)
    ensures FirstIndex(cs + [c], Named(key)) ==
      match FirstIndex(cs, Named(key))
      case Some(i) => Some(i)
      case None => if NodeName(c) == key then Some(|cs|) else None
  {
    var cs' := cs + [c];
    match FirstIndex(cs, Named(key))
    case Some(i) => FirstIndexUnique(cs', Named(key), i);
    case None =>
      if NodeName(c) == key {
        FirstIndexUnique(cs', Named(key), |cs|);
      } else {
        assert forall j :: 0 <= j < |cs'| ==> !Named(key)(cs'[j]);
      }
  }

  /** After setting a writable field it holds exactly the new value, and the
      other fields keep theirs. */
  lemma SetFieldReads(n: Node, key: string, value: string, other: string)
    requires Writable(n, key)
    ensures SetField(n, key, value).Some?
    ensures FieldText(SetField(n, key, value).value, key) == Some(value)
    ensures other != key ==> FieldText(SetField(n, key, value).value, other) == FieldText(n, other)
    ensures Writable(SetField(n, key, value).value, key)
  {
    var r := SetField(n, key, value).value;
    match FieldIndex(n, key)
    case None =>
      FieldIndexAppend(n.children, Field(key, value), key);
      FieldIndexAppend(n.children, Field(key, value), other);
    case Some(i) =>
      var f := SetFirstText(n.children[i], value);
      FieldIndexUpdate(n.children, i, f, key);
      FieldIndexUpdate(n.children, i, f, other);
      if other != key {
        match FieldIndex(n, other)
        case None =>
        case Some(j) => assert j != i;
      }
  }

  /** Setting a field twice to the same value is setting it once. */
  lemma SetFieldIdempotent(n: Node, key: string, value: string)
    requires SetField(n, key, value).Some?
    ensures SetField(SetField(n, key, value).value, key, value) == SetField(n, key, value)
  {
    var r := SetField(n, key, value).value;
    match FieldIndex(n, key)
    case None =>
      FieldIndexAppend(n.children, Field(key, value), key);
      assert r.children[|n.children|] == Field(key, value);
      assert [Text(value)][0 := Text(value)] == [Text(value)];
      assert r.children[|n.children| := SetFirstText(Field(key, value), value)] == r.children;
    case Some(i) =>
      var f := SetFirstText(n.children[i], value);
      FieldIndexUpdate(n.children, i, f, key);
      assert SetFirstText(f, value) == f;
      assert r.children[i := f] == r.children;
  }

  /** `setAttributesOnNode` over a whole object literal: its keys in order. */
  function SetFields(n: Node, fields: seq<(string, string)>): (r: Option<Node>)
    ensures r.Some? ==> NodeName(r.value) == NodeName(n)
    ensures r.Some? && n.Element? ==> r.value.Element? && r.value.attrs == n.attrs
    decreases |fields|
  {
    if fields == [] then Some(n)
    else match SetField(n, fields[0].0, fields[0].1)
      case None => None
      case Some(m) => SetFields(m, fields[1..])
  }

  predicate DistinctKeys(fields: seq<(string, string)>)
  {
    forall i, j :: 0 <= i < j < |fields| ==> fields[i].0 != fields[j].0
  }

  /** Two lists of distinct keys sharing no key join into one. */
  lemma DistinctKeysConcat(a: seq<(string, string)>, b: seq<(string, string)>)
    requires DistinctKeys(a) && DistinctKeys(b)
    requires forall i, j :: 0 <= i < |a| && 0 <= j < |b| ==> a[i].0 != b[j].0
    ensures DistinctKeys(a + b)
  {
    forall i, j | 0 <= i < j < |a + b| ensures (a + b)[i].0 != (a + b)[j].0 {
      if j < |a| {
        assert (a + b)[i] == a[i] && (a + b)[j] == a[j];
      } else if i < |a| {
        assert (a + b)[i] == a[i] && (a + b)[j] == b[j - |a|];
      } else {
        assert (a + b)[i] == b[i - |a|] && (a + b)[j] == b[j - |a|];
      }
    }
  }

  /** The field nodes `setAttributesOnNode` creates on a node that has none of them. */
  function Fields(fields: seq<(string, string)>): (r: seq<Node>)
    ensures |r| == |fields|
  {
    if fields == [] then [] else [Field(fields[0].0, fields[0].1)] + Fields(fields[1..])
  }

  lemma {:induction false} FieldsAppend(a: seq<(string, string)>, b: seq<(string, string)>)
    ensures Fields(a + b) == Fields(a) + Fields(b)
  {
    if a != [] {
      assert (a + b)[1..] == a[1..] + b;
      FieldsAppend(a[1..], b);
    } else {
      assert a + b == b;
    }
  }

  lemma {:induction false} FieldsAt(fields: seq<(string, string)>, j: nat)
    requires j < |fields|
    ensures Fields(fields)[j] == Field(fields[j].0, fields[j].1)
  {
    if j > 0 { FieldsAt(fields[1..], j - 1); }
  }

  /** On a node holding only earlier fields, every listed field is created in order. */
  lemma {:induction false} SetFieldsFresh(n: Node, fields: seq<(string, string)>, done: seq<(string, string)>)
    requires n.Element? && DistinctKeys(done + fields)
    requires n.children == Fields(done)
    ensures SetFields(n, fields) == Some(n.(children := Fields(done + fields)))
    decreases |fields|
  {
    if fields == [] {
      assert done + fields == done;
    } else {
      var all := done + fields;
      var k := fields[0].0;
      forall j | 0 <= j < |n.children| ensures !Named(k)(n.children[j]) {
        FieldsAt(done, j);
        assert all[j] == done[j] && all[|done|] == fields[0];
      }
      var m := AppendChild(n, Field(k, fields[0].1));
      FieldsAppend(done, [fields[0]]);
      assert Fields([fields[0]]) == [Field(k, fields[0].1)];
      assert all == (done + [fields[0]]) + fields[1..];
      SetFieldsFresh(m, fields[1..], done + [fields[0]]);
    }
  }

  // ---------------------------------------------------------------------
  // The names of a child list: all that a search by name looks at.

  function Names(cs: seq<Node>): (r: seq<string>)
    ensures |r| == |cs| && forall j :: 0 <= j < |cs| ==> r[j] == NodeName(cs[j])
  {
    if cs == [] then [] else [NodeName(cs[0])] + Names(cs[1..])
  }

  /** A search by name finds nothing exactly when no child bears that name. */
  lemma NamedAbsent(cs: seq<Node>, key: string)
    ensures FirstIndex(cs, Named(key)).None? <==> key !in Names(cs)
  {
    if FirstIndex(cs, Named(key)).Some? {
      assert Names(cs)[FirstIndex(cs, Named(key)).value] == key;
    }
  }

  /** A search by name depends on the names alone. */
  lemma NamedSameNames(cs: seq<Node>, ds: seq<Node>, key: string)
    requires Names(cs) == Names(ds)
    ensures FirstIndex(cs, Named(key)) == FirstIndex(ds, Named(key))
  {
    var r := FirstIndex(cs, Named(key));
    assert forall j :: 0 <= j < |cs| ==> NodeName(cs[j]) == NodeName(ds[j]) by {
      forall j | 0 <= j < |cs| ensures NodeName(cs[j]) == NodeName(ds[j]) {
        assert Names(cs)[j] == Names(ds)[j];
      }
    }
    if r.Some? {
      FirstIndexUnique(ds, Named(key), r.value);
    } else {
      assert forall j :: 0 <= j < |ds| ==> !Named(key)(ds[j]);
    }
  }

  lemma NamesRemove(cs: seq<Node>, i: nat)
    requires i < |cs|
    ensures Names(cs[..i] + cs[i + 1..]) == Names(cs)[..i] + Names(cs)[i + 1..]
  {
    var l, r := Names(cs[..i] + cs[i + 1..]), Names(cs)[..i] + Names(cs)[i + 1..];
    assert |l| == |r|;
    forall j | 0 <= j < |l| ensures l[j] == r[j] {
      if j < i {
        assert (cs[..i] + cs[i + 1..])[j] == cs[j];
      } else {
        assert (cs[..i] + cs[i + 1..])[j] == cs[j + 1];
      }
    }
  }

  /** Removing one child removes one occurrence of its name. */
  lemma NamesRemoveCount(cs: seq<Node>, i: nat)
    requires i < |cs|
    ensures multiset(Names(cs[..i] + cs[i + 1..])) == multiset(Names(cs)) - multiset{NodeName(cs[i])}
  {
    NamesRemove(cs, i);
    MultisetRemove(Names(cs), i);
  }

  lemma MultisetRemove(ns: seq<string>, i: nat)
    requires i < |ns|
    ensures multiset(ns[..i] + ns[i + 1..]) == multiset(ns) - multiset{ns[i]}
  {
    assert ns == ns[..i] + [ns[i]] + ns[i + 1..];
    assert multiset(ns) == multiset(ns[..i]) + multiset{ns[i]} + multiset(ns[i + 1..]);
  }

  lemma NamesAppend(cs: seq<Node>, c: Node)
    ensures Names(cs + [c]) == Names(cs) + [NodeName(c)]
  {
    var l, r := Names(cs + [c]), Names(cs) + [NodeName(c)];
    assert |l| == |r|;
    forall j | 0 <= j < |l| ensures l[j] == r[j] {
      assert (cs + [c])[j] == if j < |cs| then cs[j] else c;
    }
  }

  lemma NamesUpdate(cs: seq<Node>, i: nat, c: Node)
    requires i < |cs| && NodeName(c) == NodeName(cs[i])
    ensures Names(cs[i := c]) == Names(cs)
  {
    var l, r := Names(cs[i := c]), Names(cs);
    forall j | 0 <= j < |l| ensures l[j] == r[j] {
    }
  }

  /** Replacing a child by one of the same name that is not the `key` field
      leaves the text of `key` as it was. */
  lemma FieldTextUpdate(n: Node, i: nat, c: Node, key: string)
    requires n.Element? && i < |n.children| && NodeName(c) == NodeName(n.children[i])
    requires NodeName(c) != key
    ensures FieldText(n.(children := n.children[i := c]), key) == FieldText(n, key)
  {
    var m := n.(children := n.children[i := c]);
    FieldIndexUpdate(n.children, i, c, key);
    match FieldIndex(n, key)
    case None =>
    case Some(j) =>
      assert m.children[j] == n.children[j];
  }

  // ---------------------------------------------------------------------
  // Heads: the name and the attributes of a node, all that a search by name
  // or by attribute looks at.

  function Head(n: Node): (string, seq<Attr>)
  {
    if n.Element? then (n.name, n.attrs) else ("#text", [])
  }

  /** A predicate on nodes that looks at their heads only. */
  ghost predicate HeadOnly(p: Node -> bool)
  {
    forall m: Node, m': Node :: Head(m) == Head(m') ==> p(m) == p(m')
  }

  lemma NamedHeadOnly(name: string)
    ensures HeadOnly(Named(name))
  {
  }

  lemma NamedWithHeadOnly(name: string, key: string, value: string)
    ensures HeadOnly(NamedWith(name, key, value))
  {
  }

  /** Replacing a node strictly below `n`, or by one of the same head, keeps the head of `n`. */
  lemma PutHead(n: Node, a: seq<nat>, s: Node)
    requires At(n, a).Some? && (a != [] || Head(s) == Head(At(n, a).value))
    ensures Head(Put(n, a, s)) == Head(n)
  {
  }

  /** Seen from an ancestor `b` of `a`, a replacement at `a` is a replacement below `b`. */
  lemma {:induction false} AtPutBelow(n: Node, a: seq<nat>, b: seq<nat>, s: Node)
    requires At(n, a).Some? && |b| <= |a| && a[..|b|] == b
    ensures At(n, b).Some? && At(Put(n, a, s), b) == Some(Put(At(n, b).value, a[|b|..], s))
    decreases |b|
  {
    if b != [] {
      assert b[0] == a[0];
      assert a[1..][..|b| - 1] == b[1..] && a[1..][|b| - 1..] == a[|b|..];
      AtPutBelow(n.children[a[0]], a[1..], b[1..], s);
    }
  }

  /** Above the replaced node, every node keeps its head and its number of children. */
  lemma PutAbove(n: Node, a: seq<nat>, s: Node, b: seq<nat>)
    requires At(n, a).Some? && |b| < |a| && a[..|b|] == b
    ensures At(n, b).Some? && At(Put(n, a, s), b).Some?
    ensures Head(At(Put(n, a, s), b).value) == Head(At(n, b).value)
    ensures |Kids(At(Put(n, a, s), b).value)| == |Kids(At(n, b).value)|
  {
    AtPutBelow(n, a, b, s);
    var m := At(n, b).value;
    assert a == b + a[|b|..];
    AtConcat(n, b, a[|b|..]);
    PutHead(m, a[|b|..], s);
  }

  /** Two lookups that both find a node, with the same head and as many children. */
  predicate Alike(x: Option<Node>, y: Option<Node>)
  {
    x.Some? && y.Some? && Head(x.value) == Head(y.value) && |Kids(x.value)| == |Kids(y.value)|
  }

  /** Alike nodes bear the same name, and one is an element with children
      when the other is. */
  lemma AlikeFacts(x: Option<Node>, y: Option<Node>)
    requires Alike(x, y)
    ensures NodeName(x.value) == NodeName(y.value)
    ensures y.value.Element? && |y.value.children| > 0 ==> x.value.Element?
  {
  }

  /** Every proper prefix of an address is an element with a child where the address goes on. */
  lemma AtPrefix(n: Node, a: seq<nat>, k: nat)
    requires At(n, a).Some? && k < |a|
    ensures At(n, a[..k]).Some? && At(n, a[..k]).value.Element? && a[k] < |At(n, a[..k]).value.children|
    ensures At(n, a[..k + 1]).Some?
  {
    assert a == a[..k] + a[k..];
    AtConcat(n, a[..k], a[k..]);
    assert a[..k + 1] == a[..k] + [a[k]];
    AtConcat(n, a[..k], [a[k]]);
  }

  /** The address one step below `m`. */
  lemma StepBelow(m: seq<nat>, i: nat)
    ensures |m + [i]| == |m| + 1 && (m + [i])[..|m|] == m && (m + [i])[|m|] == i
  {
    assert (m + [i])[..|m|] == m;
  }

  lemma ApartAfter(x: seq<nat>, y: seq<nat>, m: seq<nat>)
    requires |m| < |x| && |m| < |y| && x[..|m|] == m && y[..|m|] == m && x[|m|] != y[|m|]
    ensures Apart(x, y)
  {
    assert x[..|m|] == y[..|m|];
  }

  /** One step below an address that exists. */
  lemma AtChild(n: Node, m: seq<nat>, k: nat)
    requires At(n, m).Some?
    ensures At(n, m + [k]) == if k < |Kids(At(n, m).value)| then Some(Kids(At(n, m).value)[k]) else None
  {
    AtConcat(n, m, [k]);
  }

  /** An address apart from `a` is apart from everything below `a`. */
  lemma ApartBelow(a: seq<nat>, a': seq<nat>, b: seq<nat>)
    requires Apart(a, b) && |a| <= |a'| && a'[..|a|] == a
    ensures Apart(a', b)
  {
    var k :| 0 <= k < |a| && k < |b| && a[..k] == b[..k] && a[k] != b[k];
    assert a'[..k] == a[..k];
    assert a'[k] == a[k];
  }

  /** Appending a child leaves every address that does not name the new child as it was. */
  lemma AtAppendChild(n: Node, c: Node, rest: seq<nat>)
    requires n.Element? && rest != [] && rest[0] != |n.children|
    ensures At(AppendChild(n, c), rest) == At(n, rest)
  {
    if rest[0] < |n.children| {
      assert AppendChild(n, c).children[rest[0]] == n.children[rest[0]];
    }
  }

  /** Seen from its parent, a replacement of the child `k`. */
  lemma AtPutChild(n: Node, b: seq<nat>, k: nat, s: Node)
    requires At(n, b + [k]).Some?
    ensures At(n, b).Some? && At(n, b).value.Element? && k < |At(n, b).value.children|
    ensures At(Put(n, b + [k], s), b) == Some(At(n, b).value.(children := At(n, b).value.children[k := s]))
  {
    AtConcat(n, b, [k]);
    assert (b + [k])[..|b|] == b && (b + [k])[|b|..] == [k];
    AtPutBelow(n, b + [k], b, s);
  }

  /** Giving the node at `m` one more child leaves every address strictly
      below `m` that does not name the new child as it was. */
  lemma AtPutAppendBelow(doc: Node, m: seq<nat>, c: Node, b: seq<nat>)
    requires At(doc, m).Some? && At(doc, m).value.Element?
    requires |m| < |b| && b[..|m|] == m && b[|m|] != |At(doc, m).value.children|
    ensures At(Put(doc, m, AppendChild(At(doc, m).value, c)), b) == At(doc, b)
  {
    var s := AppendChild(At(doc, m).value, c);
    var rest := b[|m|..];
    assert b == m + rest;
    AtConcat(doc, m, rest);
    AtPut(doc, m, s);
    AtConcat(Put(doc, m, s), m, rest);
    AtAppendChild(At(doc, m).value, c, rest);
  }

  /** A search is not disturbed by replacing a child with one it judges alike. */
  lemma FirstIndexUpdate(cs: seq<Node>, i: nat, c: Node, p: Node -> bool)
    requires i < |cs| && p(c) == p(cs[i])
    ensures FirstIndex(cs[i := c], p) == FirstIndex(cs, p)
  {
    var r := FirstIndex(cs, p);
    var cs' := cs[i := c];
    if r.Some? {
      FirstIndexUnique(cs', p, r.value);
    } else {
      assert forall j :: 0 <= j < |cs'| ==> !p(cs'[j]);
    }
  }

  /** A head-preserving replacement at depth at least `|path|` leaves the
      navigation of `path` as it was. */
  lemma {:induction false} LocatePut(n: Node, path: seq<string>, a: seq<nat>, s: Node)
    requires At(n, a).Some? && |path| <= |a| && (|path| < |a| || Head(s) == Head(At(n, a).value))
    ensures Locate(Put(n, a, s), path) == Locate(n, path)
    decreases |path|
  {
    if path != [] {
      var kid := n.children[a[0]];
      var n' := Put(n, a, s);
      PutChildren(n, a, s);
      PutHead(kid, a[1..], s);
      assert Named(path[0])(Put(kid, a[1..], s)) == Named(path[0])(kid);
      FirstIndexUpdate(n.children, a[0], Put(kid, a[1..], s), Named(path[0]));
      match FirstIndex(Kids(n), Named(path[0]))
      case None =>
        LocateCongruent(n, n', path);
      case Some(i) =>
        if i == a[0] {
          LocatePut(kid, path[1..], a[1..], s);
        }
        LocateCongruent(n, n', path);
    }
  }

  /** Replacing below the first step replaces one child of the element. */
  lemma PutChildren(n: Node, a: seq<nat>, s: Node)
    requires At(n, a).Some? && a != []
    ensures n.Element? && a[0] < |n.children| && At(n.children[a[0]], a[1..]) == At(n, a)
    ensures Put(n, a, s).Element? && Kids(Put(n, a, s)) == n.children[a[0] := Put(n.children[a[0]], a[1..], s)]
  {
  }

  /** Two nodes whose first child of the path's first name sits at the same
      place, with the rest of the path leading alike from it, locate the
      path alike. */
  lemma LocateCongruent(n: Node, m: Node, path: seq<string>)
    requires path != []
    requires FirstIndex(Kids(m), Named(path[0])) == FirstIndex(Kids(n), Named(path[0]))
    requires FirstIndex(Kids(n), Named(path[0])).Some? ==>
      Locate(Kids(m)[FirstIndex(Kids(n), Named(path[0])).value], path[1..])
      == Locate(Kids(n)[FirstIndex(Kids(n), Named(path[0])).value], path[1..])
    ensures Locate(m, path) == Locate(n, path)
  {
  }

  /** A head-preserving replacement apart from where `path` leads leaves the
      navigation of `path` as it was. */
  lemma {:induction false} LocatePutApart(n: Node, path: seq<string>, a: seq<nat>, s: Node)
    requires At(n, a).Some? && Head(s) == Head(At(n, a).value)
    requires Locate(n, path).Some? && Apart(a, Locate(n, path).value)
    ensures Locate(Put(n, a, s), path) == Locate(n, path)
    decreases |path|
  {
    var kid := n.children[a[0]];
    var kid' := Put(kid, a[1..], s);
    PutHead(kid, a[1..], s);
    FirstIndexUpdate(n.children, a[0], kid', Named(path[0]));
    var i := FirstIndex(Kids(n), Named(path[0])).value;
    if i == a[0] {
      ApartTail(a, Locate(n, path).value);
      LocatePutApart(kid, path[1..], a[1..], s);
    }
  }

  /** Two apart addresses that start alike stay apart without their first step. */
  lemma ApartTail(a: seq<nat>, b: seq<nat>)
    requires Apart(a, b) && a != [] && b != [] && a[0] == b[0]
    ensures Apart(a[1..], b[1..])
  {
    var k :| 0 <= k < |a| && k < |b| && a[..k] == b[..k] && a[k] != b[k];
    assert k > 0;
    assert a[1..][..k - 1] == a[..k][1..] && b[1..][..k - 1] == b[..k][1..];
  }

  lemma ApartSym(a: seq<nat>, b: seq<nat>)
    requires Apart(a, b)
    ensures Apart(b, a)
  {
    var k :| 0 <= k < |a| && k < |b| && a[..k] == b[..k] && a[k] != b[k];
    assert b[..k] == a[..k] && b[k] != a[k];
  }

  /** Two paths that part at a segment of different names lead to separate subtrees. */
  lemma LocateDiverge(n: Node, p: seq<string>, x: string, q: seq<string>, y: string, r: seq<string>)
    requires x != y && Locate(n, p + [x] + q).Some? && Locate(n, p + [y] + r).Some?
    ensures Apart(Locate(n, p + [x] + q).value, Locate(n, p + [y] + r).value)
  {
    var A, B := Locate(n, p + [x] + q).value, Locate(n, p + [y] + r).value;
    LocatePrefix(n, p + [x], q);
    LocatePrefix(n, p + [y], r);
    LocateSnoc(n, p, x);
    LocateSnoc(n, p, y);
    LocatePrefix(n, p, [x]);
    var L := Locate(n, p).value;
    var m := At(n, L).value;
    var ix, iy := FirstIndex(Kids(m), Named(x)).value, FirstIndex(Kids(m), Named(y)).value;
    assert A[..|p| + 1] == L + [ix] && B[..|p| + 1] == L + [iy];
    assert A[..|p|] == L == B[..|p|] by {
      assert A[..|p|] == A[..|p| + 1][..|p|];
      assert B[..|p|] == B[..|p| + 1][..|p|];
    }
    assert A[|p|] == ix && B[|p|] == iy by {
      assert A[|p|] == A[..|p| + 1][|p|];
      assert B[|p|] == B[..|p| + 1][|p|];
    }
  }

  /** Removing a child of another name leaves the field `key` as it was. */
  lemma FieldTextRemove(n: Node, i: nat, key: string)
    requires n.Element? && i < |n.children| && NodeName(n.children[i]) != key
    ensures FieldText(RemoveChildAt(n, i), key) == FieldText(n, key)
    ensures FieldIndex(RemoveChildAt(n, i), key).None? <==> FieldIndex(n, key).None?
    ensures Writable(RemoveChildAt(n, i), key) <==> Writable(n, key)
  {
    var m := RemoveChildAt(n, i);
    match FieldIndex(n, key)
    case None =>
      assert forall j :: 0 <= j < |m.children| ==> !Named(key)(m.children[j]);
    case Some(j) =>
      var j' := if j < i then j else j - 1;
      assert m.children[j'] == n.children[j];
      FirstIndexUnique(m.children, Named(key), j');
  }

  /** `setAttributesOnNode` for one key creates a child of that name only when none exists. */
  lemma SetFieldNames(n: Node, key: string, value: string)
    requires SetField(n, key, value).Some?
    ensures Names(SetField(n, key, value).value.children) ==
      if key in Names(n.children) then Names(n.children) else Names(n.children) + [key]
  {
    NamedAbsent(n.children, key);
    match FieldIndex(n, key)
    case None => NamesAppend(n.children, Field(key, value));
    case Some(i) => NamesUpdate(n.children, i, SetFirstText(n.children[i], value));
  }

  /** Whether a field may be written depends only on where it is and what it reads. */
  lemma WritableSame(n: Node, m: Node, key: string)
    requires n.Element? && m.Element?
    requires FieldIndex(n, key) == FieldIndex(m, key) && FieldText(n, key) == FieldText(m, key)
    ensures Writable(n, key) <==> Writable(m, key)
  {
  }

  /** Setting one field, even where it cannot take text, leaves every other field's text. */
  lemma SetFieldKeeps(n: Node, key: string, value: string, other: string)
    requires SetField(n, key, value).Some? && other != key
    ensures FieldText(SetField(n, key, value).value, other) == FieldText(n, other)
    ensures FieldIndex(SetField(n, key, value).value, other) == FieldIndex(n, other)
  {
    match FieldIndex(n, key)
    case None =>
      FieldIndexAppend(n.children, Field(key, value), other);
    case Some(i) =>
      var f := SetFirstText(n.children[i], value);
      FieldTextUpdate(n, i, f, other);
      FieldIndexUpdate(n.children, i, f, other);
  }
  /** Setting one field keeps whether another may be written. */
  lemma SetFieldWritable(n: Node, key: string, value: string, other: string)
    requires SetField(n, key, value).Some? && other != key
    ensures Writable(SetField(n, key, value).value, other) <==> Writable(n, other)
  {
    SetFieldKeeps(n, key, value, other);
    if n.Element? {
      WritableSame(n, SetField(n, key, value).value, other);
    }
  }

  /** `setAttributesOnNode` with three distinct writable keys: each reads its new value. */
  lemma SetThreeReads(n: Node, k1: string, v1: string, k2: string, v2: string, k3: string, v3: string)
    requires k1 != k2 && k1 != k3 && k2 != k3
    requires Writable(n, k1) && Writable(n, k2) && Writable(n, k3)
    ensures SetFields(n, [(k1, v1), (k2, v2), (k3, v3)]).Some?
    ensures var r := SetFields(n, [(k1, v1), (k2, v2), (k3, v3)]).value;
      FieldText(r, k1) == Some(v1) && FieldText(r, k2) == Some(v2) && FieldText(r, k3) == Some(v3)
  {
    SetFieldReads(n, k1, v1, k2);
    var m1 := SetField(n, k1, v1).value;
    SetFieldWritable(n, k1, v1, k2);
    SetFieldWritable(n, k1, v1, k3);
    SetFieldReads(m1, k2, v2, k1);
    var m2 := SetField(m1, k2, v2).value;
    SetFieldWritable(m1, k2, v2, k3);
    SetFieldReads(m2, k3, v3, k1);
    SetFieldReads(m2, k3, v3, k2);
    SetThreeUnfold(n, k1, v1, k2, v2, k3, v3);
  }

  lemma SetThreeUnfold(n: Node, k1: string, v1: string, k2: string, v2: string, k3: string, v3: string)
    ensures SetFields(n, [(k1, v1), (k2, v2), (k3, v3)]) ==
      match SetField(n, k1, v1)
      case None => None
      case Some(m1) =>
        match SetField(m1, k2, v2)
        case None => None
        case Some(m2) => SetField(m2, k3, v3)
  {
    var fs := [(k1, v1), (k2, v2), (k3, v3)];
    assert fs[1..] == [(k2, v2), (k3, v3)] && fs[1..][1..] == [(k3, v3)] && [(k3, v3)][1..] == [];
    match SetField(n, k1, v1)
    case None =>
    case Some(m1) =>
      assert SetFields(n, fs) == SetFields(m1, [(k2, v2), (k3, v3)]);
      match SetField(m1, k2, v2)
      case None =>
      case Some(m2) =>
        assert SetFields(m1, [(k2, v2), (k3, v3)]) == SetFields(m2, [(k3, v3)]);
        match SetField(m2, k3, v3)
        case None =>
        case Some(m3) =>
          assert SetFields(m2, [(k3, v3)]) == SetFields(m3, []);
  }

  /** The three keys set, every other field keeps its text. */
  lemma SetThreeKeeps(n: Node, k1: string, v1: string, k2: string, v2: string, k3: string, v3: string, other: string)
    requires SetFields(n, [(k1, v1), (k2, v2), (k3, v3)]).Some?
    requires other != k1 && other != k2 && other != k3
    ensures FieldText(SetFields(n, [(k1, v1), (k2, v2), (k3, v3)]).value, other) == FieldText(n, other)
  {
    SetThreeUnfold(n, k1, v1, k2, v2, k3, v3);
    var m1 := SetField(n, k1, v1).value;
    var m2 := SetField(m1, k2, v2).value;
    SetFieldKeeps(n, k1, v1, other);
    SetFieldKeeps(m1, k2, v2, other);
    SetFieldKeeps(m2, k3, v3, other);
  }


  /** Appending a child of another name leaves the field `key` as it was. */
  lemma FieldTextAppend(n: Node, c: Node, key: string)
    requires n.Element? && NodeName(c) != key
    ensures FieldText(AppendChild(n, c), key) == FieldText(n, key)
  {
    FieldIndexAppend(n.children, c, key);
  }

  /** `setAttributesOnNode` with a single key is one field step. */
  lemma SetFieldsOne(n: Node, key: string, value: string)
    ensures SetFields(n, [(key, value)]) == SetField(n, key, value)
  {
    assert [(key, value)][1..] == [];
  }

  // ---------------------------------------------------------------------
  // Removal from a container, and of the container once it holds nothing
  // of the kind that lives there.

  /** Child `i` leaves the container `n.children[j]`; when no child named
      `kind` is left in the container, the container leaves `n` as well. */
  function Prune(n: Node, j: nat, i: nat, kind: string): (r: Node)
    requires n.Element? && j < |n.children| && n.children[j].Element? && i < |n.children[j].children|
    ensures r.Element? && r.name == n.name && r.attrs == n.attrs
    ensures |r.children| == |n.children| <==> kind in Names(RemoveChildAt(n.children[j], i).children)
    ensures |r.children| == |n.children| ==>
      r.children[j] == RemoveChildAt(n.children[j], i) && RemoveChildAt(r, j) == RemoveChildAt(n, j)
    ensures |r.children| != |n.children| ==> r == RemoveChildAt(n, j)
  {
    var rest := RemoveChildAt(n.children[j], i);
    NamedAbsent(rest.children, kind);
    if FirstIndex(rest.children, Named(kind)).Some? then
      var r := n.(children := n.children[j := rest]);
      assert r.children[..j] == n.children[..j] && r.children[j + 1..] == n.children[j + 1..];
      r
    else RemoveChildAt(n, j)
  }

  /** The container is dropped exactly when the child removed was the only
      one of its kind there; when it stays, it holds one child of that kind
      fewer. */
  lemma PruneCount(n: Node, j: nat, i: nat, kind: string)
    requires n.Element? && j < |n.children| && n.children[j].Element? && i < |n.children[j].children|
    requires NodeName(n.children[j].children[i]) == kind
    ensures |Prune(n, j, i, kind).children| < |n.children| <==> multiset(Names(n.children[j].children))[kind] == 1
    ensures |Prune(n, j, i, kind).children| == |n.children| ==>
      multiset(Names(Prune(n, j, i, kind).children[j].children)) == multiset(Names(n.children[j].children)) - multiset{kind}
  {
    var cs := n.children[j].children;
    var rs := Names(RemoveChildAt(n.children[j], i).children);
    NamesRemoveCount(cs, i);
    assert cs[..i] + cs[i + 1..] == RemoveChildAt(n.children[j], i).children;
    assert Names(cs)[i] == kind;
    assert multiset(Names(cs))[kind] >= 1;
    assert multiset(rs)[kind] == multiset(Names(cs))[kind] - 1;
    assert (kind in rs) == (kind in multiset(rs));
  }

  /** Removing a child of another name shifts the first child named `key`
      down by one if it came after. */
  lemma FieldIndexRemove(n: Node, i: nat, key: string)
    requires n.Element? && i < |n.children| && NodeName(n.children[i]) != key
    ensures FieldIndex(RemoveChildAt(n, i), key) ==
      match FieldIndex(n, key)
      case None => None
      case Some(j) => Some(if j < i then j else j - 1)
  {
    var r := RemoveChildAt(n, i);
    match FieldIndex(n, key)
    case None =>
      forall j | 0 <= j < |r.children| ensures !Named(key)(r.children[j]) {
        if j < i {
          assert r.children[j] == n.children[j];
        } else {
          assert r.children[j] == n.children[j + 1];
        }
      }
    case Some(j) =>
      assert j != i;
      var k: nat := if j < i then j else j - 1;
      if j < i {
        assert r.children[j] == n.children[j];
      } else {
        assert r.children[j - 1] == n.children[j - 1 + 1];
      }
      assert r.children[k] == n.children[j];
      forall m | 0 <= m < k ensures !Named(key)(r.children[m]) {
        if m < i {
          assert r.children[m] == n.children[m];
        } else {
          assert r.children[m] == n.children[m + 1];
        }
      }
      FirstIndexUnique(r.children, Named(key), k);
  }

  /** `findChildNode(n, name)`, appending a new empty child of that name
      when there is none; with the index of the child. */
  function EnsureChild(n: Node, name: string): (r: (Node, nat))
    requires n.Element? && name != "#text"
    ensures r.0.Element? && Head(r.0) == Head(n)
    ensures r.1 < |r.0.children| && r.0.children[r.1].Element? && FieldIndex(r.0, name) == Some(r.1)
    ensures FieldIndex(n, name).Some? ==> r.0 == n
    ensures FieldIndex(n, name).None? ==> r.0.children == n.children + [Empty(name)]
  {
    match FieldIndex(n, name)
    case Some(j) =>
      assert NodeName(n.children[j]) == name;
      (n, j)
    case None =>
      FieldIndexAppend(n.children, Empty(name), name);
      (AppendChild(n, Empty(name)), |n.children|)
  }

}
