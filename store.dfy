/** The document store primitives: the ampersand placeholder applied on load
    and undone on output, the fixed preamble, id allocation by scanning for
    `Id="oN"`, reference counting by scanning for `Ref="oN"`, and the
    "basic node" every created object starts from. */
module Store {
  import opened Xml
  import opened Numbers

  // ---------------------------------------------------------------------
  // Load and output text.

  /** The private-use character that stands in for `&` while the document is loaded. */
  const Placeholder: char := '\U{1F3A8}'

  /** `xml.replace(/&/g, placeholder)`, done before parsing. */
  function ToPlaceholder(s: string): (r: string)
    ensures |r| == |s|
    ensures forall i :: 0 <= i < |s| ==> r[i] == if s[i] == '&' then Placeholder else s[i]
    ensures '&' !in r
  {
    if s == [] then [] else [if s[0] == '&' then Placeholder else s[0]] + ToPlaceholder(s[1..])
  }

  /** `xml.replace(new RegExp(placeholder, "g"), '&')`, done after serializing. */
  function FromPlaceholder(s: string): (r: string)
    ensures |r| == |s|
    ensures forall i :: 0 <= i < |s| ==> r[i] == if s[i] == Placeholder then '&' else s[i]
  {
    if s == [] then [] else [if s[0] == Placeholder then '&' else s[0]] + FromPlaceholder(s[1..])
  }

  /** Text that never held the placeholder comes back unchanged. */
  lemma PlaceholderRoundTrip(s: string)
    requires Placeholder !in s
    ensures FromPlaceholder(ToPlaceholder(s)) == s
  {
    var r := FromPlaceholder(ToPlaceholder(s));
    assert forall i :: 0 <= i < |s| ==> r[i] == s[i];
  }

  /** The banner `getAsXml` writes in front of the serialized document. */
  const Preamble: string :=
    "<?xml version=\"1.0\" encoding=\"UTF-8\"?>\n"
    + "<?PowerDesigner AppLocale=\"UTF16\" ID=\"{13453C9B-E125-4B37-9A2E-133025BBAEA1}\" Label=\"\" LastModificationDate=\"1560423936\" Name=\"CDM\" Objects=\"319\" Symbols=\"86\" Type=\"{1E597170-9350-11D1-AB3C-0020AF71E433}\" signature=\"CDM_DATA_MODEL_XML\" version=\"16.0.0.3488\"?>\n"
    + "<!-- do not edit this file -->"

  /** `getAsXml` of the current engine, given what the serializer wrote for the
      document element: preamble first, then the placeholder undone. */
  function GetAsXml(serialized: string): (r: string)
    ensures |r| == |Preamble| + |serialized| && r[..|Preamble|] == Preamble
    ensures Placeholder !in serialized ==> r[|Preamble|..] == serialized
  {
    var body := FromPlaceholder(serialized);
    assert Placeholder !in serialized ==> body == serialized by {
      if Placeholder !in serialized {
        assert forall i :: 0 <= i < |serialized| ==> body[i] == serialized[i];
      }
    }
    Preamble + body
  }

  /** `getAsXml` of the earlier revisions: the serializer's text as it is. */
  function GetAsXmlPlain(serialized: string): (r: string)
    ensures r == serialized && (GetAsXml(serialized) == Preamble + r <== Placeholder !in serialized)
  {
    serialized
  }

  // ---------------------------------------------------------------------
  // Scanning for `Id="oN"` and `Ref="oN"`. The pattern is not anchored, so
  // every attribute whose name ends in `Id` (or `Ref`) is seen.

  predicate EndsWith(s: string, suffix: string)
  {
    |suffix| <= |s| && s[|s| - |suffix|..] == suffix
  }

  /** An attribute value the pattern `o[0-9]+` matches as a whole. */
  predicate IsOId(v: string)
  {
    |v| >= 2 && v[0] == 'o' && AllDigits(v[1..])
  }

  /** The number of an `oN` id (0 for any other text, which the scan never yields). */
  function OIdValue(v: string): nat
  {
    if IsOId(v) then DigitsValue(v[1..]) else 0
  }

  function AttrMatches(attrs: seq<Attr>, suffix: string): (r: seq<string>)
  {
    if attrs == [] then []
    else
      var here := if EndsWith(attrs[0].key, suffix) && IsOId(attrs[0].value) then [attrs[0].value] else [];
      here + AttrMatches(attrs[1..], suffix)
  }

  /** The matched values in document order. */
  function Matches(n: Node, suffix: string): (r: seq<string>)
    decreases n
  {
    if n.Text? then [] else AttrMatches(n.attrs, suffix) + MatchesList(n.children, suffix)
  }

  function MatchesList(cs: seq<Node>, suffix: string): (r: seq<string>)
    decreases cs
  {
    if cs == [] then [] else Matches(cs[0], suffix) + MatchesList(cs[1..], suffix)
  }

  function Count(s: seq<string>, x: string): nat
  {
    if s == [] then 0 else (if s[0] == x then 1 else 0) + Count(s[1..], x)
  }

  /** `getUsageCount(id)`: how many `Ref` attributes hold exactly `id`. */
  function UsageCount(doc: Node, id: string): nat
  {
    Count(Matches(doc, "Ref"), id)
  }

  function MaxValue(ms: seq<string>): (m: nat)
    requires |ms| > 0
    ensures forall k :: 0 <= k < |ms| ==> OIdValue(ms[k]) <= m
    ensures exists k :: 0 <= k < |ms| && OIdValue(ms[k]) == m
  {
    if |ms| == 1 then OIdValue(ms[0])
    else
      var rest := MaxValue(ms[1..]);
      assert forall k :: 1 <= k < |ms| ==> ms[k] == ms[1..][k - 1];
      if OIdValue(ms[0]) >= rest then OIdValue(ms[0]) else rest
  }

  /** `getNextUniqueId`: "o" followed by one more than the largest id number;
      `Math.max()` of no numbers is -Infinity. */
  function NextUniqueId(doc: Node): string
  {
    var ms := Matches(doc, "Id");
    if ms == [] then "o-Infinity" else "o" + NatToString(MaxValue(ms) + 1)
  }

  /** The id allocated after `NextUniqueId(doc)` has been added. */
  function SecondUniqueId(doc: Node): string
    requires Matches(doc, "Id") != []
  {
    "o" + NatToString(MaxValue(Matches(doc, "Id")) + 2)
  }

  /** The two ids allocated one after the other are new and distinct. */
  lemma NextTwoFresh(doc: Node)
    requires Matches(doc, "Id") != []
    ensures NextUniqueId(doc) !in Matches(doc, "Id")
    ensures SecondUniqueId(doc) !in Matches(doc, "Id")
    ensures NextUniqueId(doc) != SecondUniqueId(doc)
  {
    var ms := Matches(doc, "Id");
    var m := MaxValue(ms);
    var second := SecondUniqueId(doc);
    NextUniqueIdValue(doc);
    assert second[1..] == NatToString(m + 2);
    DigitsValueOfNat(m + 2);
    assert OIdValue(second) == m + 2;
    forall v | v in ms ensures OIdValue(v) <= m {
      var k :| 0 <= k < |ms| && ms[k] == v;
    }
  }

  /** The allocated id is itself an `oN` id, above every id in the document. */
  lemma NextUniqueIdAbove(doc: Node)
    requires Matches(doc, "Id") != []
    ensures IsOId(NextUniqueId(doc))
    ensures forall v :: v in Matches(doc, "Id") ==> OIdValue(v) < OIdValue(NextUniqueId(doc))
  {
    var ms := Matches(doc, "Id");
    var m := MaxValue(ms);
    var r := NextUniqueId(doc);
    assert r[1..] == NatToString(m + 1);
    DigitsValueOfNat(m + 1);
    forall v | v in ms ensures OIdValue(v) < OIdValue(r) {
      var k :| 0 <= k < |ms| && ms[k] == v;
    }
  }

  lemma {:induction false} AttrMatchesHas(attrs: seq<Attr>, suffix: string, i: nat)
    requires i < |attrs| && EndsWith(attrs[i].key, suffix) && IsOId(attrs[i].value)
    ensures attrs[i].value in AttrMatches(attrs, suffix)
  {
    if i > 0 {
      AttrMatchesHas(attrs[1..], suffix, i - 1);
    }
  }

  lemma {:induction false} MatchesListHas(cs: seq<Node>, suffix: string, i: nat, v: string)
    requires i < |cs| && v in Matches(cs[i], suffix)
    ensures v in MatchesList(cs, suffix)
  {
    if i > 0 {
      MatchesListHas(cs[1..], suffix, i - 1, v);
    }
  }

  /** What the scan sees in a subtree it also sees in the whole document. */
  lemma {:induction false} MatchesAt(n: Node, a: seq<nat>, suffix: string, v: string)
    requires At(n, a).Some? && v in Matches(At(n, a).value, suffix)
    ensures v in Matches(n, suffix)
    decreases |a|
  {
    if a != [] {
      MatchesAt(n.children[a[0]], a[1..], suffix, v);
      MatchesListHas(n.children, suffix, a[0], v);
    }
  }

  /** The `Id` attribute of every element in the document differs from the
      next allocated id: allocation never reuses an id. */
  lemma NextUniqueIdFresh(doc: Node, a: seq<nat>)
    requires Matches(doc, "Id") != [] && At(doc, a).Some?
    ensures GetAttribute(At(doc, a).value, "Id") != NextUniqueId(doc)
  {
    var e := At(doc, a).value;
    var next := NextUniqueId(doc);
    NextUniqueIdAbove(doc);
    if e.Element? && GetAttribute(e, "Id") == next {
      var i := AttrIndex(e.attrs, "Id").value;
      assert EndsWith(e.attrs[i].key, "Id");
      AttrMatchesHas(e.attrs, "Id", i);
      MatchesAt(doc, a, "Id", next);
      assert false;
    }
  }

  // ---------------------------------------------------------------------
  // How the scan changes when the tree changes.

  lemma {:induction false} MatchesListAppend(cs: seq<Node>, c: Node, suffix: string)
    ensures MatchesList(cs + [c], suffix) == MatchesList(cs, suffix) + Matches(c, suffix)
  {
    if cs == [] {
      assert [c][1..] == [];
    } else {
      assert (cs + [c])[1..] == cs[1..] + [c];
      MatchesListAppend(cs[1..], c, suffix);
    }
  }

  lemma {:induction false} MatchesListConcat(xs: seq<Node>, ys: seq<Node>, suffix: string)
    ensures MatchesList(xs + ys, suffix) == MatchesList(xs, suffix) + MatchesList(ys, suffix)
  {
    if xs == [] {
      assert xs + ys == ys;
    } else {
      assert (xs + ys)[1..] == xs[1..] + ys;
      MatchesListConcat(xs[1..], ys, suffix);
    }
  }

  /** The scan of a child list around its `i`th child. */
  lemma MatchesListSplice(cs: seq<Node>, i: nat, c: Node, suffix: string)
    requires i < |cs|
    ensures MatchesList(cs, suffix)
      == MatchesList(cs[..i], suffix) + Matches(cs[i], suffix) + MatchesList(cs[i + 1..], suffix)
    ensures MatchesList(cs[i := c], suffix)
      == MatchesList(cs[..i], suffix) + Matches(c, suffix) + MatchesList(cs[i + 1..], suffix)
  {
    assert cs == cs[..i] + [cs[i]] + cs[i + 1..];
    assert cs[i := c] == cs[..i] + [c] + cs[i + 1..];
    MatchesListConcat(cs[..i] + [cs[i]], cs[i + 1..], suffix);
    MatchesListConcat(cs[..i] + [c], cs[i + 1..], suffix);
    MatchesListAppend(cs[..i], cs[i], suffix);
    MatchesListAppend(cs[..i], c, suffix);
  }

  lemma MultisetFrame(h: seq<string>, p: seq<string>, k: seq<string>, t: seq<string>, x: seq<string>, y: seq<string>)
    requires multiset(p) + multiset(x) == multiset(k) + multiset(y)
    ensures multiset(h + p + t) + multiset(x) == multiset(h + k + t) + multiset(y)
  {
    assert multiset(h + p + t) == multiset(h) + multiset(p) + multiset(t);
    assert multiset(h + k + t) == multiset(h) + multiset(k) + multiset(t);
    forall v ensures (multiset(h + p + t) + multiset(x))[v] == (multiset(h + k + t) + multiset(y))[v] {
      assert (multiset(p) + multiset(x))[v] == (multiset(k) + multiset(y))[v];
    }
  }

  lemma MultisetCancel(p: multiset<string>, n: multiset<string>, d: multiset<string>, c: multiset<string>)
    requires p + n == d + (n + c)
    ensures p == d + c
  {
    forall v ensures p[v] == (d + c)[v] {
      assert (p + n)[v] == (d + (n + c))[v];
    }
  }

  lemma MultisetChain(p: multiset<string>, k: multiset<string>, n: multiset<string>,
                      k': multiset<string>, x: multiset<string>, y: multiset<string>)
    requires p + k == n + k' && k' + x == k + y
    ensures p + x == n + y
  {
    forall v ensures (p + x)[v] == (n + y)[v] {
      assert (p + k)[v] == (n + k')[v];
      assert (k' + x)[v] == (k + y)[v];
    }
  }

  lemma MatchesListReplace(cs: seq<Node>, i: nat, c: Node, suffix: string)
    requires i < |cs|
    ensures multiset(MatchesList(cs[i := c], suffix)) + multiset(Matches(cs[i], suffix))
      == multiset(MatchesList(cs, suffix)) + multiset(Matches(c, suffix))
  {
    MatchesListSplice(cs, i, c, suffix);
    MultisetFrame(MatchesList(cs[..i], suffix), Matches(c, suffix), Matches(cs[i], suffix),
      MatchesList(cs[i + 1..], suffix), Matches(cs[i], suffix), Matches(c, suffix));
  }

  /** Replacing one child trades its matches for those of the new child. */
  lemma MatchesReplaceChild(n: Node, i: nat, c: Node, suffix: string)
    requires n.Element? && i < |n.children|
    ensures multiset(Matches(n.(children := n.children[i := c]), suffix)) + multiset(Matches(n.children[i], suffix))
      == multiset(Matches(n, suffix)) + multiset(Matches(c, suffix))
  {
    var nc := n.(children := n.children[i := c]);
    MatchesListReplace(n.children, i, c, suffix);
    var am := multiset(AttrMatches(n.attrs, suffix));
    assert multiset(Matches(nc, suffix)) == am + multiset(MatchesList(n.children[i := c], suffix));
    assert multiset(Matches(n, suffix)) == am + multiset(MatchesList(n.children, suffix));
    MultisetChain(multiset(Matches(nc, suffix)), multiset(MatchesList(n.children, suffix)),
      multiset(Matches(n, suffix)), multiset(MatchesList(n.children[i := c], suffix)),
      multiset(Matches(n.children[i], suffix)), multiset(Matches(c, suffix)));
  }

  /** Replacing a subtree trades its matches for those of the replacement. */
  lemma {:induction false} MatchesPut(n: Node, a: seq<nat>, s: Node, suffix: string)
    requires At(n, a).Some?
    ensures multiset(Matches(Put(n, a, s), suffix)) + multiset(Matches(At(n, a).value, suffix))
      == multiset(Matches(n, suffix)) + multiset(Matches(s, suffix))
    decreases |a|
  {
    if a != [] {
      var kid := n.children[a[0]];
      var kid' := Put(kid, a[1..], s);
      assert Put(n, a, s) == n.(children := n.children[a[0] := kid']);
      assert At(n, a) == At(kid, a[1..]);
      MatchesPut(kid, a[1..], s, suffix);
      MatchesReplaceChild(n, a[0], kid', suffix);
      MultisetChain(multiset(Matches(Put(n, a, s), suffix)), multiset(Matches(kid, suffix)),
        multiset(Matches(n, suffix)), multiset(Matches(kid', suffix)),
        multiset(Matches(At(n, a).value, suffix)), multiset(Matches(s, suffix)));
    }
  }

  /** Appending a child below `a` adds exactly the child's matches. */
  lemma MatchesAppendAt(doc: Node, a: seq<nat>, c: Node, suffix: string)
    requires At(doc, a).Some? && At(doc, a).value.Element?
    ensures multiset(Matches(Put(doc, a, AppendChild(At(doc, a).value, c)), suffix))
      == multiset(Matches(doc, suffix)) + multiset(Matches(c, suffix))
  {
    var n := At(doc, a).value;
    MatchesPut(doc, a, AppendChild(n, c), suffix);
    MatchesListAppend(n.children, c, suffix);
    var p := multiset(Matches(Put(doc, a, AppendChild(n, c)), suffix));
    var mn := multiset(Matches(n, suffix));
    var mc := multiset(Matches(c, suffix));
    assert multiset(Matches(AppendChild(n, c), suffix)) == mn + mc by {
      assert Matches(AppendChild(n, c), suffix)
        == AttrMatches(n.attrs, suffix) + (MatchesList(n.children, suffix) + Matches(c, suffix));
    }
    MultisetCancel(p, mn, multiset(Matches(doc, suffix)), mc);
  }

  /** Field nodes carry no attributes. */
  lemma {:induction false} MatchesFields(fs: seq<(string, string)>, suffix: string)
    ensures MatchesList(Fields(fs), suffix) == []
  {
    if fs != [] {
      var f := Field(fs[0].0, fs[0].1);
      assert Fields(fs)[0] == f && Fields(fs)[1..] == Fields(fs[1..]);
      assert Matches(f, suffix) == [] by {
        assert AttrMatches(f.attrs, suffix) == [];
        assert f.children[1..] == [];
        assert MatchesList(f.children, suffix) == Matches(Text(fs[0].1), suffix) + MatchesList([], suffix);
      }
      MatchesFields(fs[1..], suffix);
    }
  }

  /** Setting a field leaves the scan as it was. */
  lemma MatchesSetField(n: Node, key: string, value: string, suffix: string)
    requires SetField(n, key, value).Some?
    ensures Matches(SetField(n, key, value).value, suffix) == Matches(n, suffix)
  {
    match FieldIndex(n, key)
    case None =>
      MatchesListAppend(n.children, Field(key, value), suffix);
      MatchesFields([(key, value)], suffix);
      assert Fields([(key, value)]) == [Field(key, value)];
      assert MatchesList([Field(key, value)], suffix) == Matches(Field(key, value), suffix);
    case Some(i) =>
      var f := n.children[i];
      var f' := SetFirstText(f, value);
      assert Matches(f', suffix) == Matches(f, suffix) by {
        if f.Element? && f.children[0].Text? {
          MatchesListSplice(f.children, 0, Text(value), suffix);
        }
      }
      MatchesListSplice(n.children, i, f', suffix);
  }

  lemma {:induction false} MatchesSetFields(n: Node, fs: seq<(string, string)>, suffix: string)
    requires SetFields(n, fs).Some?
    ensures Matches(SetFields(n, fs).value, suffix) == Matches(n, suffix)
    decreases |fs|
  {
    if fs != [] {
      var m := SetField(n, fs[0].0, fs[0].1).value;
      MatchesSetField(n, fs[0].0, fs[0].1, suffix);
      MatchesSetFields(m, fs[1..], suffix);
    }
  }

  /** The largest id depends only on which ids occur. */
  lemma MaxValueSame(ms: seq<string>, ns: seq<string>)
    requires |ms| > 0 && multiset(ms) == multiset(ns)
    ensures |ns| > 0 && MaxValue(ns) == MaxValue(ms)
  {
    assert ms[0] in multiset(ns);
    var m, n := MaxValue(ms), MaxValue(ns);
    var i :| 0 <= i < |ms| && OIdValue(ms[i]) == m;
    var j :| 0 <= j < |ns| && OIdValue(ns[j]) == n;
    assert ms[i] in multiset(ns);
    var j' :| 0 <= j' < |ns| && ns[j'] == ms[i];
    assert ns[j] in multiset(ms);
    var i' :| 0 <= i' < |ms| && ms[i'] == ns[j];
  }

  /** Adding one id just above the largest raises the largest by one. */
  lemma MaxValueNext(ms: seq<string>, ns: seq<string>, v: string)
    requires |ms| > 0 && OIdValue(v) == MaxValue(ms) + 1
    requires multiset(ns) == multiset(ms) + multiset{v}
    ensures |ns| > 0 && MaxValue(ns) == MaxValue(ms) + 1
  {
    assert v in multiset(ns);
    var iv :| 0 <= iv < |ns| && ns[iv] == v;
    var n := MaxValue(ns);
    var j :| 0 <= j < |ns| && OIdValue(ns[j]) == n;
    assert OIdValue(ns[iv]) <= n;
    assert multiset(ns)[ns[j]] > 0;
  }

  /** Two documents with the same ids allocate the same next id. */
  lemma NextUniqueIdSame(d1: Node, d2: Node)
    requires multiset(Matches(d1, "Id")) == multiset(Matches(d2, "Id"))
    ensures NextUniqueId(d1) == NextUniqueId(d2)
  {
    var m1, m2 := Matches(d1, "Id"), Matches(d2, "Id");
    if m1 != [] {
      assert m1[0] in multiset(m2);
      MaxValueSame(m1, m2);
    }
  }

  /** The next id is an `oN` id numbered one above the largest. */
  lemma NextUniqueIdValue(doc: Node)
    requires Matches(doc, "Id") != []
    ensures IsOId(NextUniqueId(doc)) && OIdValue(NextUniqueId(doc)) == MaxValue(Matches(doc, "Id")) + 1
  {
    var r := NextUniqueId(doc);
    NextUniqueIdAbove(doc);
    assert r[1..] == NatToString(MaxValue(Matches(doc, "Id")) + 1);
    DigitsValueOfNat(MaxValue(Matches(doc, "Id")) + 1);
    assert OIdValue(r) == DigitsValue(r[1..]);
  }

  /** Allocating after the next id was added allocates the one after it. */
  lemma NextUniqueIdAfter(d1: Node, d2: Node)
    requires Matches(d1, "Id") != []
    requires multiset(Matches(d2, "Id")) == multiset(Matches(d1, "Id")) + multiset{NextUniqueId(d1)}
    ensures Matches(d2, "Id") != []
    ensures NextUniqueId(d2) == SecondUniqueId(d1)
  {
    NextUniqueIdValue(d1);
    MaxValueNext(Matches(d1, "Id"), Matches(d2, "Id"), NextUniqueId(d1));
    var ms := Matches(d2, "Id");
    assert MaxValue(ms) + 1 == MaxValue(Matches(d1, "Id")) + 2;
    assert NextUniqueId(d2) == "o" + NatToString(MaxValue(ms) + 1);
  }

  // ---------------------------------------------------------------------
  // The basic node.

  /** The identity fields `buildBasicNode` stamps, in order; `objectId` and
      `code` are the two fresh upper-case uuids the source draws. */
  function BasicFields(objectId: string, name: string, code: string): seq<(string, string)>
  {
    [("a:ObjectID", objectId), ("a:CreationDate", "1556190897"), ("a:Creator", "webversion"),
     ("a:ModificationDate", "1556190923"), ("a:Modifier", "webversion"), ("a:Name", name),
     ("a:Code", code)]
  }

  /** `buildBasicNode`: a new element with its `Id`, then the basic fields set on it. */
  function BuildBasicNode(tag: string, id: string, name: string, objectId: string, code: string): (r: Node)
    ensures SetFields(Element(tag, [Attr("Id", id)], []), BasicFields(objectId, name, code)) == Some(r)
    ensures NodeName(r) == tag && GetAttribute(r, "Id") == id && FieldText(r, "a:Name") == Some(name)
  {
    var fs := BasicFields(objectId, name, code);
    var r := Element(tag, [Attr("Id", id)], Fields(fs));
    BasicFieldsDistinct(objectId, name, code);
    NewNodeFields(tag, [Attr("Id", id)], fs);
    FieldTextOfFields(r, fs, 5);
    r
  }

  /** The basic node is the element with its `Id` and the seven fields in order. */
  lemma BasicNodeShape(tag: string, id: string, name: string, objectId: string, code: string)
    ensures BuildBasicNode(tag, id, name, objectId, code)
      == Element(tag, [Attr("Id", id)], Fields(BasicFields(objectId, name, code)))
  {
    BasicFieldsDistinct(objectId, name, code);
    NewNodeFields(tag, [Attr("Id", id)], BasicFields(objectId, name, code));
  }

  /** The keys of the basic fields, in order. */
  const BasicKeys: seq<string> := ["a:ObjectID", "a:CreationDate", "a:Creator", "a:ModificationDate",
                                   "a:Modifier", "a:Name", "a:Code"]

  /** The keys of the basic fields are `BasicKeys`. */
  lemma BasicFieldKeys(objectId: string, name: string, code: string)
    ensures |BasicFields(objectId, name, code)| == |BasicKeys|
    ensures forall i :: 0 <= i < |BasicKeys| ==> BasicFields(objectId, name, code)[i].0 == BasicKeys[i]
  {
  }

  /** The two type fields are not among the basic ones. */
  lemma TypeKeysNotBasic()
    ensures "a:DataType" !in BasicKeys && "a:Length" !in BasicKeys
  {
  }

  /** A basic node has no child of a name outside its seven fields. */
  lemma BasicLacks(tag: string, id: string, name: string, objectId: string, code: string, key: string)
    requires key !in BasicKeys
    ensures FieldIndex(BuildBasicNode(tag, id, name, objectId, code), key).None?
  {
    var fs := BasicFields(objectId, name, code);
    BasicNodeShape(tag, id, name, objectId, code);
    var keys := seq(|fs|, j requires 0 <= j < |fs| => fs[j].0);
    assert keys == BasicKeys;
    forall j | 0 <= j < |fs| ensures !Named(key)(Fields(fs)[j]) {
      FieldsAt(fs, j);
      assert keys[j] == fs[j].0;
    }
  }

  /** The scan sees exactly the `Id` of a node made of its `Id` and fields. */
  lemma MatchesFieldNode(tag: string, id: string, fs: seq<(string, string)>)
    requires IsOId(id)
    ensures Matches(Element(tag, [Attr("Id", id)], Fields(fs)), "Id") == [id]
  {
    MatchesFields(fs, "Id");
    assert EndsWith("Id", "Id");
    assert [Attr("Id", id)][1..] == [];
    assert AttrMatches([Attr("Id", id)], "Id") == [id] + AttrMatches([], "Id");
  }

  lemma BasicFieldsDistinct(objectId: string, name: string, code: string)
    ensures DistinctKeys(BasicFields(objectId, name, code))
  {
  }

  /** `setAttributesOnNode` on a new element creates every field in order. */
  lemma NewNodeFields(tag: string, attrs: seq<Attr>, fs: seq<(string, string)>)
    requires DistinctKeys(fs)
    ensures SetFields(Element(tag, attrs, []), fs) == Some(Element(tag, attrs, Fields(fs)))
  {
    assert [] + fs == fs;
    SetFieldsFresh(Element(tag, attrs, []), fs, []);
  }

  /** On a node whose children are exactly the created fields, each field reads back its value. */
  lemma {:induction false} FieldTextOfFields(n: Node, fs: seq<(string, string)>, j: nat)
    requires n.Element? && n.children == Fields(fs) && DistinctKeys(fs) && j < |fs|
    ensures FieldText(n, fs[j].0) == Some(fs[j].1)
    decreases j
  {
    var key := fs[j].0;
    if j > 0 {
      var m := n.(children := Fields(fs[1..]));
      FieldTextOfFields(m, fs[1..], j - 1);
      assert NodeName(n.children[0]) != key;
      assert n.children[1..] == m.children;
      assert FieldIndex(n, key) == Some(FieldIndex(m, key).value + 1);
    }
  }
}
