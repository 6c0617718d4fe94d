/** Decimal text of integers: JavaScript's `toString` / template
    interpolation of an integer and `parseInt` (radix 10). */
module Numbers {
  import opened Xml

  predicate IsDigit(c: char)
  {
    '0' <= c <= '9'
  }

  predicate AllDigits(s: string)
  {
    forall i :: 0 <= i < |s| ==> IsDigit(s[i])
  }

  function DigitChar(d: nat): (c: char)
    requires d < 10
    ensures IsDigit(c)
  {
    ('0' as int + d) as char
  }

  function DigitValue(c: char): (d: nat)
    requires IsDigit(c)
    ensures d < 10
  {
    c as int - '0' as int
  }

  /** The decimal digits of `n`, most significant first, without leading zeros. */
  function NatToString(n: nat): (s: string)
    ensures |s| > 0 && AllDigits(s)
    ensures |s| > 1 ==> s[0] != '0'
  {
    if n < 10 then [DigitChar(n)] else NatToString(n / 10) + [DigitChar(n % 10)]
  }

  function DigitsValue(s: string): nat
    requires AllDigits(s)
  {
    if s == [] then 0 else DigitsValue(s[..|s| - 1]) * 10 + DigitValue(s[|s| - 1])
  }

  lemma {:induction false} DigitsValueOfNat(n: nat)
    ensures DigitsValue(NatToString(n)) == n
  {
    if n >= 10 {
      var s := NatToString(n);
      assert s[..|s| - 1] == NatToString(n / 10);
      DigitsValueOfNat(n / 10);
    }
  }

  /** Distinct numbers have distinct decimal text. */
  lemma NatToStringInjective(m: nat, n: nat)
    requires NatToString(m) == NatToString(n)
    ensures m == n
  {
    DigitsValueOfNat(m);
    DigitsValueOfNat(n);
  }

  /** `String(i)` for an integer `i` (exponent notation of huge values is not modelled). */
  function IntToString(i: int): (s: string)
    ensures |s| > 0
  {
    if i < 0 then "-" + NatToString(-i) else NatToString(i)
  }

  /** The white space `parseInt` skips first: the ECMAScript white space and
      line terminators, every Unicode space separator included. */
  predicate IsSpace(c: char)
  {
    c == ' ' || c == '\t' || c == '\n' || c == '\r' || c == '\U{000B}' || c == '\U{000C}'
    || c == '\U{00A0}' || c == '\U{FEFF}' || c == '\U{2028}' || c == '\U{2029}'
    || c == '\U{1680}' || ('\U{2000}' <= c <= '\U{200A}') || c == '\U{202F}' || c == '\U{205F}'
    || c == '\U{3000}'
  }

  function TrimStart(s: string): (r: string)
    ensures |r| <= |s| && (r != [] ==> !IsSpace(r[0]))
  {
    if s != [] && IsSpace(s[0]) then TrimStart(s[1..]) else s
  }

  function DigitPrefix(s: string): (r: string)
    ensures AllDigits(r) && |r| <= |s| && r == s[..|r|]
    ensures |r| < |s| ==> !IsDigit(s[|r|])
  {
    if s != [] && IsDigit(s[0]) then [s[0]] + DigitPrefix(s[1..]) else []
  }

  predicate IsHexDigit(c: char)
  {
    IsDigit(c) || 'a' <= c <= 'f' || 'A' <= c <= 'F'
  }

  predicate AllHexDigits(s: string)
  {
    forall i :: 0 <= i < |s| ==> IsHexDigit(s[i])
  }

  function HexValue(c: char): (d: nat)
    requires IsHexDigit(c)
    ensures d < 16
  {
    if IsDigit(c) then DigitValue(c)
    else if 'a' <= c <= 'f' then c as int - 'a' as int + 10
    else c as int - 'A' as int + 10
  }

  function HexDigitsValue(s: string): nat
    requires AllHexDigits(s)
  {
    if s == [] then 0 else HexDigitsValue(s[..|s| - 1]) * 16 + HexValue(s[|s| - 1])
  }

  function HexPrefix(s: string): (r: string)
    ensures AllHexDigits(r) && |r| <= |s| && r == s[..|r|]
    ensures |r| < |s| ==> !IsHexDigit(s[|r|])
  {
    if s != [] && IsHexDigit(s[0]) then [s[0]] + HexPrefix(s[1..]) else []
  }

  /** `0x` or `0X`, which makes `parseInt` without a radix read hexadecimal. */
  predicate HexMarked(body: string)
  {
    |body| >= 2 && body[0] == '0' && (body[1] == 'x' || body[1] == 'X')
  }

  /** `parseInt(s)` without a radix: skip white space, read an optional sign,
      then, after a `0x` or `0X` prefix, the longest run of hexadecimal
      digits, otherwise the longest run of decimal digits; None is NaN (no
      digit at all). */
  function ParseInt(s: string): Option<int>
  {
    var t := TrimStart(s);
    var neg := t != [] && t[0] == '-';
    var body := if t != [] && (t[0] == '-' || t[0] == '+') then t[1..] else t;
    var hex := HexMarked(body);
    var ds := if hex then HexPrefix(body[2..]) else DigitPrefix(body);
    if ds == [] then None
    else
      var v: nat := if hex then HexDigitsValue(ds) else DigitsValue(ds);
      if neg then Some(-(v as int)) else Some(v)
  }

  lemma {:induction false} DigitPrefixAll(s: string)
    requires AllDigits(s)
    ensures DigitPrefix(s) == s
  {
    if s != [] {
      DigitPrefixAll(s[1..]);
    }
  }

  lemma {:induction false} TrimStartSpaces(w: string, s: string)
    requires forall i :: 0 <= i < |w| ==> IsSpace(w[i])
    requires s != [] && !IsSpace(s[0])
    ensures TrimStart(w + s) == s
  {
    if w != [] {
      assert (w + s)[1..] == w[1..] + s;
      TrimStartSpaces(w[1..], s);
    } else {
      assert w + s == s;
    }
  }

  /** `parseInt` reads back the text of any integer, after any leading white space. */
  lemma ParseIntToString(w: string, i: int)
    requires forall k :: 0 <= k < |w| ==> IsSpace(w[k])
    ensures ParseInt(w + IntToString(i)) == Some(i)
  {
    var s := IntToString(i);
    var digits := if i < 0 then NatToString(-i) else NatToString(i);
    DigitPrefixAll(digits);
    DigitsValueOfNat(if i < 0 then -i else i);
    assert !IsSpace(s[0]) by {
      if i >= 0 { assert IsDigit(s[0]); }
    }
    TrimStartSpaces(w, s);
    assert s[0] == '-' <==> i < 0 by {
      if i >= 0 { assert IsDigit(s[0]); }
    }
    assert s[0] == '+' ==> false by {
      if i >= 0 { assert IsDigit(s[0]); }
    }
    if i < 0 {
      assert s[1..] == digits;
    }
    assert !HexMarked(digits) by {
      if |digits| >= 2 { assert IsDigit(digits[1]); }
    }
  }

  lemma {:induction false} HexPrefixAll(s: string)
    requires AllHexDigits(s)
    ensures HexPrefix(s) == s
  {
    if s != [] {
      HexPrefixAll(s[1..]);
    }
  }

  /** After a `0x` or `0X` prefix `parseInt` reads hexadecimal: the run of hex
      digits up to the first other character, with the sign before the prefix. */
  lemma ParseIntHex(sign: string, x: char, ds: string, rest: string)
    requires sign == "" || sign == "-" || sign == "+"
    requires x == 'x' || x == 'X'
    requires ds != [] && AllHexDigits(ds)
    requires rest == [] || !IsHexDigit(rest[0])
    ensures ParseInt(sign + (['0', x] + (ds + rest)))
      == Some(if sign == "-" then -(HexDigitsValue(ds) as int) else HexDigitsValue(ds))
  {
    var t := ds + rest;
    var body := ['0', x] + t;
    var s := sign + body;
    assert body[2..] == t;
    assert s[0] == (if sign == "" then '0' else sign[0]);
    TrimStartSpaces([], s);
    assert [] + s == s;
    assert (if s[0] == '-' || s[0] == '+' then s[1..] else s) == body by {
      if sign != "" {
        assert s[1..] == body;
      }
    }
    HexPrefixAll(ds);
    HexPrefixConcat(ds, rest);
    ParseIntHexBody(s, body, ds);
  }

  /** The hexadecimal branch of `ParseInt`, once the prefix is found. */
  lemma ParseIntHexBody(s: string, body: string, ds: string)
    requires TrimStart(s) == s && s != []
    requires (if s[0] == '-' || s[0] == '+' then s[1..] else s) == body
    requires HexMarked(body) && HexPrefix(body[2..]) == ds && ds != []
    ensures ParseInt(s) == Some(if s[0] == '-' then -(HexDigitsValue(ds) as int) else HexDigitsValue(ds))
  {
  }

  lemma {:induction false} HexPrefixConcat(ds: string, rest: string)
    requires AllHexDigits(ds)
    requires rest == [] || !IsHexDigit(rest[0])
    ensures HexPrefix(ds + rest) == ds
  {
    if ds == [] {
      assert ds + rest == rest;
    } else {
      assert (ds + rest)[1..] == ds[1..] + rest;
      HexPrefixConcat(ds[1..], rest);
    }
  }

  /** `parseInt("0x1F")` is 31, where a decimal reading would give 0. */
  lemma ParseIntHexExample()
    ensures ParseInt("0x1F") == Some(31)
  {
    HexTwoDigits('1', 'F');
    ParseIntHex("", 'x', "1F", "");
    assert "" + (['0', 'x'] + ("1F" + "")) == "0x1F";
  }

  lemma HexTwoDigits(a: char, b: char)
    requires IsHexDigit(a) && IsHexDigit(b)
    ensures AllHexDigits([a, b]) && HexDigitsValue([a, b]) == HexValue(a) * 16 + HexValue(b)
  {
    var s := [a, b];
    assert s[..|s| - 1] == [a] && s[|s| - 1] == b;
    assert [a][..0] == [];
    assert HexDigitsValue([a]) == HexValue(a);
  }

  /** A `0x` prefix with no hexadecimal digit after it is NaN. */
  lemma ParseIntHexEmpty(x: char, rest: string)
    requires x == 'x' || x == 'X'
    requires rest == [] || !IsHexDigit(rest[0])
    ensures ParseInt(['0', x] + rest).None?
  {
    var s := ['0', x] + rest;
    TrimStartSpaces([], s);
    assert [] + s == s;
    assert s[2..] == rest;
    assert HexMarked(s);
  }
}
