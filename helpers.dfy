/** `DataTypeHelper`: the table of conceptual data-type codes, removal of the
    length digits from a stored type code, and the label lookup. */
module DataTypes {
  import opened Xml
  import opened Numbers

  /** `dataTypesById`. */
  const DataTypesById: map<string, string> := map[
    "I" := "Integer",
    "N" := "Number",
    "DC" := "Decimal",
    "F" := "Float",
    "MN" := "Money",
    "BL" := "Boolean",
    "A" := "Characters",
    "VA" := "Variable Characters",
    "LA" := "Long Characters",
    "LVA" := "Long Variable Characters",
    "TXT" := "Text",
    "BT" := "Bytes",
    "MBT" := "Multibyte",
    "D" := "Date",
    "T" := "Time",
    "DT" := "Date & Time",
    "TS" := "Timestamp",
    "BIN" := "Binary",
    "VBIN" := "Variable Binary",
    "LBIN" := "Long Binary",
    "" := "Undefined"
  ]

  /** The codes of the table, in the order they are written. */
  const TypeCodes: seq<string> := [
    "I", "N", "DC", "F", "MN", "BL", "A", "VA", "LA", "LVA", "TXT",
    "BT", "MBT", "D", "T", "DT", "TS", "BIN", "VBIN", "LBIN", ""
  ]

  predicate NoDigit(s: string)
  {
    forall i :: 0 <= i < |s| ==> !IsDigit(s[i])
  }

  /** `allTypes()`: the table itself. */
  function AllTypes(): (m: map<string, string>)
    ensures m.Keys == set c | c in TypeCodes
    ensures "" in m && m[""] == "Undefined"
  {
    DataTypesById
  }

  /** The table's codes are the 21 codes listed; the empty code reads
      "Undefined" and "DT" reads "Date & Time". */
  lemma TableShape()
    ensures |TypeCodes| == 21
    ensures DataTypesById.Keys == set c | c in TypeCodes
    ensures DataTypesById[""] == "Undefined" && DataTypesById["DT"] == "Date & Time"
  {
  }

  /** The 21 listed codes are distinct, so the table has 21 entries. */
  lemma TableDistinct()
    ensures forall i, j :: 0 <= i < j < |TypeCodes| ==> TypeCodes[i] != TypeCodes[j]
  {
    forall i, j | 0 <= i < j < |TypeCodes| ensures TypeCodes[i] != TypeCodes[j] {
    }
  }

  /** No code of the table holds a digit. */
  lemma TableNoDigit()
    ensures forall k :: k in DataTypesById ==> NoDigit(k)
  {
    TableShape();
    forall k | k in DataTypesById ensures NoDigit(k) {
      assert k in TypeCodes;
      var i :| 0 <= i < |TypeCodes| && TypeCodes[i] == k;
      CodeNoDigit(i);
    }
  }

  lemma CodeNoDigit(i: nat)
    requires i < |TypeCodes|
    ensures NoDigit(TypeCodes[i])
  {
  }

  /** `getDataTypeWithoutLength`: `dataType.replace(/[0-9]/g, '')`. */
  function WithoutLength(s: string): (r: string)
    ensures NoDigit(r) && |r| <= |s|
    ensures forall c :: c in r <==> c in s && !IsDigit(c)
  {
    if s == [] then []
    else if IsDigit(s[0]) then WithoutLength(s[1..])
    else [s[0]] + WithoutLength(s[1..])
  }

  /** Text without digits is left as it is. */
  lemma {:induction false} WithoutLengthNoDigit(s: string)
    requires NoDigit(s)
    ensures WithoutLength(s) == s
  {
    if s != [] {
      WithoutLengthNoDigit(s[1..]);
    }
  }

  /** Removing the digits twice is removing them once. */
  lemma WithoutLengthIdempotent(s: string)
    ensures WithoutLength(WithoutLength(s)) == WithoutLength(s)
  {
    WithoutLengthNoDigit(WithoutLength(s));
  }

  lemma {:induction false} WithoutLengthConcat(a: string, b: string)
    ensures WithoutLength(a + b) == WithoutLength(a) + WithoutLength(b)
  {
    if a == [] {
      assert a + b == b;
    } else {
      assert (a + b)[1..] == a[1..] + b;
      WithoutLengthConcat(a[1..], b);
    }
  }

  lemma {:induction false} WithoutLengthDigits(d: string)
    requires AllDigits(d)
    ensures WithoutLength(d) == []
  {
    if d != [] {
      WithoutLengthDigits(d[1..]);
    }
  }

  /** A code with a run of length digits appended strips to the code alone. */
  lemma WithoutLengthSuffix(k: string, d: string)
    requires AllDigits(d)
    ensures WithoutLength(k + d) == WithoutLength(k)
  {
    WithoutLengthConcat(k, d);
    WithoutLengthDigits(d);
    assert WithoutLength(k) + [] == WithoutLength(k);
  }

  /** "VA255" strips to "VA". */
  lemma WithoutLengthExample()
    ensures WithoutLength("VA255") == "VA"
  {
    assert "VA255" == "VA" + "255";
    assert AllDigits("255");
    WithoutLengthSuffix("VA", "255");
    WithoutLengthNoDigit("VA");
  }

  /** `buildTypeIdentifier(dataType, length)`: the code followed by the length's decimal text. */
  function BuildTypeIdentifier(dataType: string, length: int): (r: string)
    ensures length >= 0 ==> WithoutLength(r) == WithoutLength(dataType)
    ensures |r| >= |dataType| && r[..|dataType|] == dataType && ParseInt(r[|dataType|..]) == Some(length)
  {
    var r := dataType + IntToString(length);
    assert r[|dataType|..] == [] + IntToString(length);
    ParseIntToString([], length);
    assert length >= 0 ==> WithoutLength(r) == WithoutLength(dataType) by {
      if length >= 0 {
        WithoutLengthSuffix(dataType, IntToString(length));
      }
    }
    r
  }

  /** `getLabelForDataType`: the label of the stripped code; None for
      `undefined`, a code outside the table. */
  function LabelForDataType(dataType: string): (r: Option<string>)
    ensures r.Some? <==> WithoutLength(dataType) in DataTypesById
  {
    var k := WithoutLength(dataType);
    if k in DataTypesById then Some(DataTypesById[k]) else None
  }

  /** Every table code, with or without length digits, reads its own label. */
  lemma LabelWithLength(k: string, d: string)
    requires k in DataTypesById && AllDigits(d)
    ensures LabelForDataType(k + d) == Some(DataTypesById[k])
  {
    TableNoDigit();
    WithoutLengthSuffix(k, d);
    WithoutLengthNoDigit(k);
  }

  /** A type code built by the engine reads the label of the code it was built from. */
  lemma LabelOfBuiltType(k: string, length: int)
    requires k in DataTypesById && length >= 0
    ensures LabelForDataType(BuildTypeIdentifier(k, length)) == Some(DataTypesById[k])
  {
    LabelWithLength(k, IntToString(length));
  }
}

/** `DistanceHelper`: lengths between diagram coordinates. */
module Distance {
  function Abs(x: int): (r: int)
    ensures r >= 0 && (r == x || r == -x)
  {
    if x < 0 then -x else x
  }

  /** `calculateLengthBetweenXCoordinates(number, leftX)`. */
  function LengthX(number: int, leftX: int): (r: int)
    ensures r >= 0
    ensures number < 0 ==> r == Abs(number - leftX)
    ensures number >= 0 ==> r == Abs(leftX) + number
  {
    if number < 0 then Abs(number - leftX) else Abs(Abs(leftX) + number)
  }

  /** `calculateLengthBetweenYCoordinates(number, topY)`. */
  function LengthY(number: int, topY: int): (r: int)
    ensures r >= 0
    ensures number < 0 ==> r == Abs(topY - number)
    ensures number >= 0 ==> r == Abs(topY - number)
  {
    if number < 0 then Abs(topY + Abs(number)) else Abs(topY - number)
  }

  /** Both branches of the Y length measure the same distance. */
  lemma LengthYIsDistance(number: int, topY: int)
    ensures LengthY(number, topY) == Abs(number - topY)
  {
  }

  /** From the origin, the X length is the magnitude of the left edge. */
  lemma LengthXAtZero(leftX: int)
    ensures LengthX(0, leftX) == Abs(leftX)
  {
  }

  /** A non-negative Y coordinate is at length 0 from itself. */
  lemma LengthYAtSelf(topY: int)
    requires topY >= 0
    ensures LengthY(topY, topY) == 0
  {
  }

  /** For non-negative coordinates, the X length grows one for one. */
  lemma LengthXGrows(number: int, leftX: int, d: nat)
    requires number >= 0
    ensures LengthX(number + d, leftX) == LengthX(number, leftX) + d
  {
  }
}
