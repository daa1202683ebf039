/** Field values and field references.

    A field reference names one field of one document. It is serialised as
    `field_name/doc_ref` and parsed back by splitting at the first `/`. */
module Fields {
  import opened Results
  import opened Integers

  /** `FieldValue`: what a document stores under a field name. */
  datatype FieldValue = U64(u: U64) | I64(i: I64) | Text(text: string)

  /** `Field`: a named value of a document. */
  datatype Field = Field(name: string, value: FieldValue)

  // ---- decimal rendering -----------------------------------------------------

  predicate IsDigit(c: char) {
    '0' <= c <= '9'
  }

  predicate AllDigits(s: string) {
    forall i | 0 <= i < |s| :: IsDigit(s[i])
  }

  function DigitChar(d: nat): (c: char)
    requires d < 10
    ensures IsDigit(c) && c as int - '0' as int == d
  {
    ('0' as int + d) as char
  }

  /** The decimal digits of `n`, most significant first, without leading
      zeros: Rust's `Display` for unsigned integers. */
  function Decimal(n: nat): (s: string)
    ensures 0 < |s| && AllDigits(s)
    ensures s[0] == '0' ==> n == 0 && s == "0"
  {
    if n < 10 then [DigitChar(n)] else Decimal(n / 10) + [DigitChar(n % 10)]
  }

  /** The number a string of decimal digits denotes. */
  function DigitsValue(s: string): nat
    requires AllDigits(s)
  {
    if |s| == 0 then 0 else DigitsValue(s[..|s| - 1]) * 10 + (s[|s| - 1] as int - '0' as int)
  }

  /** Reading the rendered digits back gives the number. */
  lemma {:induction false} DecimalRoundTrip(n: nat)
    ensures DigitsValue(Decimal(n)) == n
  {
    if n >= 10 {
      DecimalRoundTrip(n / 10);
      var s := Decimal(n);
      assert s[..|s| - 1] == Decimal(n / 10);
    }
  }

  /** Distinct numbers render differently. */
  lemma DecimalInjective(m: nat, n: nat)
    requires Decimal(m) == Decimal(n)
    ensures m == n
  {
    DecimalRoundTrip(m);
    DecimalRoundTrip(n);
  }

  /** Rust's `Display` for signed integers: a minus sign before the digits of
      the absolute value. */
  function SignedDecimal(i: int): (s: string)
    ensures 0 < |s|
    ensures i < 0 <==> s[0] == '-'
    ensures i < 0 ==> s[1..] == Decimal(-i)
    ensures 0 <= i ==> s == Decimal(i)
  {
    if i < 0 then "-" + Decimal(-i) else Decimal(i)
  }

  /** The inverse of `SignedDecimal` on its outputs. */
  function SignedValue(s: string): int
    requires 0 < |s|
    requires AllDigits(if s[0] == '-' then s[1..] else s)
  {
    if s[0] == '-' then 0 - DigitsValue(s[1..]) else DigitsValue(s)
  }

  lemma SignedDecimalRoundTrip(i: int)
    ensures SignedValue(SignedDecimal(i)) == i
  {
    if i < 0 {
      DecimalRoundTrip(-i);
    } else {
      DecimalRoundTrip(i);
      assert Decimal(i)[0] != '-';
    }
  }

  /** `FieldValue::to_string`: text is returned as is, integers in decimal. */
  function ValueString(v: FieldValue): (s: string)
    ensures v.Text? ==> s == v.text
    ensures v.U64? ==> AllDigits(s) && DigitsValue(s) == v.u
    ensures v.I64? ==> 0 < |s| && AllDigits(if s[0] == '-' then s[1..] else s)
    ensures v.I64? ==> SignedValue(s) == v.i
  {
    match v
    case U64(u) => DecimalRoundTrip(u); Decimal(u)
    case I64(i) => SignedDecimalRoundTrip(i); SignedDecimal(i)
    case Text(t) => t
  }

  /** The stringification forgets the variant: `U64(7)` and `I64(7)` both
      render as "7", so they reach the tokenizer as the same text. */
  lemma ValueStringForgetsVariant()
    ensures ValueString(U64(7)) == ValueString(I64(7)) == ValueString(Text("7")) == "7"
  {
  }

  // ---- field references ------------------------------------------------------

  /** `FieldParseError`. */
  datatype FieldParseError = FieldParseError

  /** `FIELD_REF_JOINER`. */
  const Joiner: char := '/'

  /** `FieldRef`: the document reference and the field name. Equality is by
      value. */
  datatype FieldRef = FieldRef(docRef: string, fieldName: string)

  /** The position of the first joiner in `s`, if any. */
  function FirstJoiner(s: string): (r: Option<nat>)
    ensures r.None? <==> Joiner !in s
    ensures r.Some? ==> r.value < |s| && s[r.value] == Joiner && Joiner !in s[..r.value]
  {
    if |s| == 0 then None
    else if s[0] == Joiner then Some(0)
    else
      match FirstJoiner(s[1..])
      case None => None
      case Some(p) =>
        assert s[..p + 1] == [s[0]] + s[1..][..p];
        Some(p + 1)
  }

  /** `FieldRef::from_string`: split at the first joiner (`splitn(2, "/")`);
      the part before is the field name, the rest the document reference. */
  function FromString(s: string): (r: Result<FieldRef, FieldParseError>)
    ensures r.Err? <==> Joiner !in s
    ensures r.Ok? ==> Joiner !in r.value.fieldName
    ensures r.Ok? ==> s == r.value.fieldName + [Joiner] + r.value.docRef
  {
    match FirstJoiner(s)
    case None => Err(FieldParseError)
    case Some(p) =>
      assert s == s[..p] + [Joiner] + s[p + 1..];
      Ok(FieldRef(s[p + 1..], s[..p]))
  }

  /** `FieldRef::to_str`: the field name, the joiner, the document reference. */
  function ToStr(r: FieldRef): (s: string)
    ensures |s| == |r.fieldName| + 1 + |r.docRef|
    ensures s[..|r.fieldName|] == r.fieldName && s[|r.fieldName|] == Joiner
    ensures s[|r.fieldName| + 1..] == r.docRef
  {
    r.fieldName + [Joiner] + r.docRef
  }

  /** Splitting `name/doc` at its first joiner recovers `name` exactly when
      the name has no joiner of its own. */
  lemma SplitAtFirstJoiner(name: string, doc: string)
    requires Joiner !in name
    ensures FromString(name + [Joiner] + doc) == Ok(FieldRef(doc, name))
  {
    var s := name + [Joiner] + doc;
    var r := FromString(s);
    var n := r.value.fieldName;
    assert s[|name|] == Joiner;
    if |n| < |name| {
      assert false;
    }
    if |name| < |n| {
      assert false;
    }
    assert n == s[..|n|] == name;
    assert r.value.docRef == s[|n| + 1..] == doc;
  }

  /** Serialising then parsing gives back the reference if and only if its
      field name contains no joiner. */
  lemma FromStringToStr(r: FieldRef)
    ensures FromString(ToStr(r)) == Ok(r) <==> Joiner !in r.fieldName
  {
    if Joiner !in r.fieldName {
      SplitAtFirstJoiner(r.fieldName, r.docRef);
    }
  }

  /** Parsing then serialising gives back the string whenever parsing
      succeeds. */
  lemma ToStrFromString(s: string)
    requires FromString(s).Ok?
    ensures ToStr(FromString(s).value) == s
  {
  }

  /** A field name with a joiner, such as "author/age", does not survive the
      round trip: the part after its joiner moves into the document reference. */
  lemma JoinerInFieldName()
    ensures FromString(ToStr(FieldRef("1", "author/age"))) == Ok(FieldRef("age/1", "author"))
  {
    assert ToStr(FieldRef("1", "author/age")) == "author" + [Joiner] + "age/1";
    SplitAtFirstJoiner("author", "age/1");
  }
}
