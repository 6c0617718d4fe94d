/** Rectangles as the diagram stores them: the `a:Rect` text
    `((x1,y2), (x2,y1))`, written by `moveEntity` and read back by the readers. */
module Geometry {
  import opened Xml
  import opened Numbers

  datatype Point = Point(x: int, y: int)

  /** `IRectangleCoordinates`. */
  datatype Rectangle = Rectangle(topLeft: Point, bottomRight: Point)

  /** The text `moveEntity` writes into `a:Rect`:
      `((topLeft.x,bottomRight.y), (bottomRight.x,topLeft.y))`. */
  function RectText(r: Rectangle): string
  {
    "((" + (IntToString(r.topLeft.x) + "," + IntToString(r.bottomRight.y)) + "), ("
      + (IntToString(r.bottomRight.x) + "," + IntToString(r.topLeft.y)) + "))"
  }

  // ---------------------------------------------------------------------
  // `rect.replace(/\(|\)/g, '').split(',').map(parseInt)`

  function RemoveParens(s: string): (r: string)
    ensures '(' !in r && ')' !in r
  {
    if s == [] then []
    else (if s[0] == '(' || s[0] == ')' then [] else [s[0]]) + RemoveParens(s[1..])
  }

  function IndexOf(s: string, c: char): (i: nat)
    requires c in s
    ensures i < |s| && s[i] == c && c !in s[..i]
  {
    if s[0] == c then 0 else 1 + IndexOf(s[1..], c)
  }

  /** `s.split(sep)`: the pieces between separators, at least one. */
  function Split(s: string, sep: char): (r: seq<string>)
    ensures |r| > 0
    decreases |s|
  {
    if sep !in s then [s]
    else
      var i := IndexOf(s, sep);
      [s[..i]] + Split(s[i + 1..], sep)
  }

  /** The coordinates a reader takes from the first four pieces; None is
      `NaN` or a missing piece (`undefined`). */
  datatype Quad = Quad(x1: Option<int>, y2: Option<int>, x2: Option<int>, y1: Option<int>)

  function Piece(ps: seq<string>, k: nat): Option<int>
  {
    if k < |ps| then ParseInt(ps[k]) else None
  }

  function ParseRect(s: string): (q: Quad)
  {
    var ps := Split(RemoveParens(s), ',');
    Quad(Piece(ps, 0), Piece(ps, 1), Piece(ps, 2), Piece(ps, 3))
  }

  // ---------------------------------------------------------------------
  // The round trip.

  lemma {:induction false} RemoveParensConcat(a: string, b: string)
    ensures RemoveParens(a + b) == RemoveParens(a) + RemoveParens(b)
  {
    if a == [] {
      assert a + b == b;
    } else {
      assert (a + b)[0] == a[0] && (a + b)[1..] == a[1..] + b;
      RemoveParensConcat(a[1..], b);
    }
  }

  lemma {:induction false} RemoveParensPlain(s: string)
    requires '(' !in s && ')' !in s
    ensures RemoveParens(s) == s
  {
    if s != [] {
      RemoveParensPlain(s[1..]);
    }
  }

  lemma IntToStringPlain(i: int)
    ensures '(' !in IntToString(i) && ')' !in IntToString(i) && ',' !in IntToString(i)
  {
    var s := IntToString(i);
    forall k | 0 <= k < |s| ensures s[k] == '-' || IsDigit(s[k]) {
      if i < 0 {
        assert k > 0 ==> s[k] == NatToString(-i)[k - 1];
      }
    }
  }

  lemma SplitCons(a: string, b: string, sep: char)
    requires sep !in a
    ensures Split(a + [sep] + b, sep) == [a] + Split(b, sep)
  {
    var s := a + [sep] + b;
    assert s[..|a|] == a && s[|a|] == sep;
    assert IndexOf(s, sep) == |a|;
    assert s[|a| + 1..] == b;
  }

  lemma StripAround(p: string, x: string, q: string, y: string, z: string, m: string)
    requires RemoveParens(p) == [] && RemoveParens(q) == m && RemoveParens(z) == []
    requires '(' !in x && ')' !in x && '(' !in y && ')' !in y
    ensures RemoveParens(p + x + q + y + z) == x + m + y
  {
    RemoveParensPlain(x);
    RemoveParensPlain(y);
    RemoveParensConcat(p, x);
    assert RemoveParens(p + x) == x;
    RemoveParensConcat(p + x, q);
    assert RemoveParens(p + x + q) == x + m;
    RemoveParensConcat(p + x + q, y);
    assert RemoveParens(p + x + q + y) == x + m + y;
    RemoveParensConcat(p + x + q + y, z);
    assert (x + m + y) + [] == x + m + y;
  }

  lemma StripLiterals()
    ensures RemoveParens("((") == [] && RemoveParens("))") == [] && RemoveParens("), (") == ", "
  {
  }

  lemma StripRect(ab: string, cd: string)
    requires '(' !in ab && ')' !in ab && '(' !in cd && ')' !in cd
    ensures RemoveParens("((" + ab + "), (" + cd + "))") == ab + ", " + cd
  {
    StripLiterals();
    StripAround("((", ab, "), (", cd, "))", ", ");
  }

  lemma Regroup(a: string, b: string, c: string, d: string)
    ensures (a + [','] + b) + ", " + (c + [','] + d) == a + [','] + (b + [','] + ((" " + c) + [','] + d))
  {
  }

  lemma SplitThree(b: string, c: string, d: string)
    requires ',' !in b && ',' !in c && ',' !in d
    ensures Split(b + [','] + (c + [','] + d), ',') == [b, c, d]
  {
    SplitCons(c, d, ',');
    assert Split(d, ',') == [d];
    SplitCons(b, c + [','] + d, ',');
  }

  lemma SplitRect(a: string, b: string, c: string, d: string)
    requires ',' !in a && ',' !in b && ',' !in c && ',' !in d
    ensures Split(a + [','] + (b + [','] + (c + [','] + d)), ',') == [a, b, c, d]
  {
    SplitThree(b, c, d);
    SplitCons(a, b + [','] + (c + [','] + d), ',');
  }

  lemma ParseIntPlain(i: int)
    ensures ParseInt(IntToString(i)) == Some(i)
  {
    ParseIntToString([], i);
    assert [] + IntToString(i) == IntToString(i);
  }

  /** The four pieces of the text `moveEntity` writes, once its parentheses are gone. */
  lemma RectPieces(r: Rectangle)
    ensures Split(RemoveParens(RectText(r)), ',') == [IntToString(r.topLeft.x), IntToString(r.bottomRight.y),
      " " + IntToString(r.bottomRight.x), IntToString(r.topLeft.y)]
  {
    var a, b, c, d := IntToString(r.topLeft.x), IntToString(r.bottomRight.y),
      IntToString(r.bottomRight.x), IntToString(r.topLeft.y);
    IntToStringPlain(r.topLeft.x);
    IntToStringPlain(r.bottomRight.y);
    IntToStringPlain(r.bottomRight.x);
    IntToStringPlain(r.topLeft.y);
    assert RectText(r) == "((" + (a + [','] + b) + "), (" + (c + [','] + d) + "))";
    StripRect(a + [','] + b, c + [','] + d);
    Regroup(a, b, c, d);
    SplitRect(a, b, " " + c, d);
  }

  lemma PiecesParse(ps: seq<string>, x1: int, y2: int, x2: int, y1: int)
    requires ps == [IntToString(x1), IntToString(y2), " " + IntToString(x2), IntToString(y1)]
    ensures Piece(ps, 0) == Some(x1) && Piece(ps, 1) == Some(y2)
    ensures Piece(ps, 2) == Some(x2) && Piece(ps, 3) == Some(y1)
  {
    PieceParses(ps, 0, "", x1);
    PieceParses(ps, 1, "", y2);
    PieceParses(ps, 2, " ", x2);
    PieceParses(ps, 3, "", y1);
  }

  /** A piece that is white space and then the decimal text of a number reads as that number. */
  lemma PieceParses(ps: seq<string>, k: nat, w: string, i: int)
    requires k < |ps| && ps[k] == w + IntToString(i)
    requires forall n :: 0 <= n < |w| ==> IsSpace(w[n])
    ensures Piece(ps, k) == Some(i)
  {
    ParseIntToString(w, i);
  }

  /** Reading the text `moveEntity` writes gives back the rectangle it was given. */
  lemma ParseRectText(r: Rectangle)
    ensures ParseRect(RectText(r)) ==
      Quad(Some(r.topLeft.x), Some(r.bottomRight.y), Some(r.bottomRight.x), Some(r.topLeft.y))
  {
    RectPieces(r);
    PiecesParse(Split(RemoveParens(RectText(r)), ','), r.topLeft.x, r.bottomRight.y, r.bottomRight.x, r.topLeft.y);
  }
}
