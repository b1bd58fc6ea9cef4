/**
 One event attribute on its way to the server: the OTLP value the client builds, its JSON form
 with empty fields left out, and what the server makes of it. Integers travel as decimal
 strings (OTLP specification, section "JSON Protobuf Encoding").
 */
module Wire {
  import opened Common

  // ---------------------------------------------------------------- decimal integers

  const MIN_INT64: int := -0x8000_0000_0000_0000
  const MAX_INT64: int := 0x7fff_ffff_ffff_ffff

  predicate InInt64(n: int) {
    MIN_INT64 <= n <= MAX_INT64
  }

  predicate IsDigit(c: char) {
    '0' <= c <= '9'
  }

  function Digit(d: nat): (c: char)
    requires d < 10
    ensures IsDigit(c) && DigitValue(c) == d
  {
    '0' + d as char
  }

  function DigitValue(c: char): nat
    requires IsDigit(c)
  {
    (c - '0') as nat
  }

  function FormatNat(n: nat): (s: string)
    ensures |s| > 0 && forall i :: 0 <= i < |s| ==> IsDigit(s[i])
  {
    if n < 10 then [Digit(n)] else FormatNat(n / 10) + [Digit(n % 10)]
  }

  /** fmt.Sprintf("%d", n) */
  function FormatInt(n: int): string {
    if n < 0 then "-" + FormatNat(-n) else FormatNat(n)
  }

  function ParseDigits(s: string): Option<nat> {
    if s == [] then Some(0)
    else
      var last := s[|s| - 1];
      match ParseDigits(s[..|s| - 1])
      case None => None
      case Some(n) => if IsDigit(last) then Some(10 * n + DigitValue(last)) else None
  }

  function Signed(negative: bool, n: nat): int {
    if negative then -1 * n else n
  }

  /** strconv.ParseInt(s, 10, 64) */
  function ParseInt64(s: string): Option<int> {
    var signed := s != [] && (s[0] == '-' || s[0] == '+');
    var digits := if signed then s[1..] else s;
    match ParseDigits(digits)
    case None => None
    case Some(n) =>
      var value := Signed(signed && s[0] == '-', n);
      if digits == [] || !InInt64(value) then None else Some(value)
  }

  lemma {:induction false} ParseFormatNat(n: nat)
    ensures ParseDigits(FormatNat(n)) == Some(n)
  {
    if n < 10 {
      assert FormatNat(n)[..0] == [];
    } else {
      ParseFormatNat(n / 10);
      var s := FormatNat(n);
      assert s[..|s| - 1] == FormatNat(n / 10);
    }
  }

  /** A printed integer reads back as itself exactly when it fits 64 bits. */
  lemma ParseFormatInt(n: int)
    ensures ParseInt64(FormatInt(n)) == if InInt64(n) then Some(n) else None
  {
    if n < 0 {
      ParseFormatNat(-n);
      var s := "-" + FormatNat(-n);
      assert s[0] == '-' && s[1..] == FormatNat(-n);
      assert ParseInt64(s) == if InInt64(n) then Some(n) else None;
    } else {
      ParseFormatNat(n);
      assert IsDigit(FormatNat(n)[0]);
    }
  }

  // ---------------------------------------------------------------- one value

  /** A decoded JSON attribute value; JOther is null, an array or an object, as its JSON text. */
  datatype Json = JBool(b: bool) | JNum(x: real) | JStr(s: string) | JOther(text: string)

  datatype OtlpValue = OtlpValue(str: string, digits: string, bit: bool)

  datatype Attr = Attr(key: string, value: OtlpValue)

  function StringAttr(key: string, s: string): Attr { Attr(key, OtlpValue(s, "", false)) }
  function IntAttr(key: string, n: int): Attr { Attr(key, OtlpValue("", FormatInt(n), false)) }
  function BoolAttr(key: string, b: bool): Attr { Attr(key, OtlpValue("", "", b)) }

  /** Rounds toward zero. */
  function Truncate(x: real): int {
    if x >= 0.0 then x.Floor else -((-x).Floor)
  }

  /** Go's int64(x); a value that does not fit becomes the smallest integer, as on amd64. */
  function ToInt64(x: real): (n: int)
    ensures InInt64(n)
  {
    if InInt64(Truncate(x)) then Truncate(x) else MIN_INT64
  }

  /** anyAttr */
  function AnyAttr(key: string, v: Json): Attr {
    match v
    case JBool(b) => BoolAttr(key, b)
    case JNum(x) => IntAttr(key, ToInt64(x))
    case JStr(s) => StringAttr(key, s)
    case JOther(text) => StringAttr(key, text)
  }

  /** The JSON object of a value: empty fields are left out. */
  datatype WireValue = WireValue(stringValue: Option<string>, intValue: Option<string>, boolValue: Option<bool>)

  function ToWire(v: OtlpValue): WireValue {
    WireValue(if v.str == "" then None else Some(v.str),
              if v.digits == "" then None else Some(v.digits),
              if v.bit then Some(true) else None)
  }

  datatype AttrValue = AStr(s: string) | AInt(n: int) | ABool(b: bool)

  /** How the server types a value it received as JSON. */
  function ServerValue(w: WireValue): AttrValue {
    if w.intValue.Some? && w.intValue.value != "" then
      match ParseInt64(w.intValue.value)
      case Some(n) => AInt(n)
      case None => AStr(w.intValue.value)
    else if w.boolValue.Some? then ABool(w.boolValue.value)
    else AStr(if w.stringValue.Some? then w.stringValue.value else "")
  }

  /** toProtoAnyValue */
  function ProtoValue(v: OtlpValue): AttrValue {
    if v.digits != "" && ParseInt64(v.digits).Some? then AInt(ParseInt64(v.digits).value)
    else if v.bit then ABool(true)
    else AStr(v.str)
  }

  /** Both encodings give an attribute the same typed value, except for digits that are no integer. */
  lemma EncodingsAgreeExactly(v: OtlpValue)
    ensures ServerValue(ToWire(v)) == ProtoValue(v) <==>
            v.digits == "" || ParseInt64(v.digits).Some? || (!v.bit && v.digits == v.str)
  {
  }

  /** What the server stores for an attribute the client read as v. */
  function Stored(v: Json): AttrValue {
    match v
    case JBool(b) => if b then ABool(true) else AStr("")
    case JNum(x) => AInt(ToInt64(x))
    case JStr(s) => AStr(s)
    case JOther(text) => AStr(text)
  }

  /** JSON and protobuf both carry every attribute value of an event, and agree on it. */
  lemma ValueTravels(key: string, v: Json)
    ensures ServerValue(ToWire(AnyAttr(key, v).value)) == Stored(v)
    ensures ProtoValue(AnyAttr(key, v).value) == Stored(v)
  {
    if v.JNum? {
      ParseFormatInt(ToInt64(v.x));
    }
  }

  /** Fractions are cut off toward zero, and numbers beyond 64 bits become the smallest integer. */
  lemma TruncatesTowardZero(x: real)
    ensures x >= 0.0 ==> Truncate(x) as real <= x < Truncate(x) as real + 1.0
    ensures x < 0.0 ==> Truncate(x) as real - 1.0 < x <= Truncate(x) as real
    ensures ToInt64(x) == if InInt64(Truncate(x)) then Truncate(x) else -0x8000_0000_0000_0000
  {
  }

  /** What a value arrives as: text as itself, true as true, false as the empty string, a number cut to an integer. */
  lemma ArrivesAs(key: string, v: Json)
    ensures var arrived := ServerValue(ToWire(AnyAttr(key, v).value));
            && AnyAttr(key, v).key == key
            && (v.JStr? ==> arrived == AStr(v.s)) && (v.JOther? ==> arrived == AStr(v.text))
            && (v.JBool? && v.b ==> arrived == ABool(true)) && (v.JBool? && !v.b ==> arrived == AStr(""))
            && (v.JNum? && InInt64(Truncate(v.x)) ==> arrived == AInt(Truncate(v.x)))
            && (v.JNum? && !InInt64(Truncate(v.x)) ==> arrived == AInt(-0x8000_0000_0000_0000))
  {
    ValueTravels(key, v);
  }

  predicate SameValue(v: Json, a: AttrValue) {
    match v
    case JBool(b) => a == ABool(b)
    case JNum(x) => a.AInt? && a.n as real == x
    case JStr(s) => a == AStr(s)
    case JOther(_) => false
  }

  predicate IsInt64(x: real) {
    x.Floor as real == x && InInt64(x.Floor)
  }

  lemma FloorOfNegation(x: real)
    requires x.Floor as real == x
    ensures (-x).Floor == -(x.Floor)
  {
    assert (-x) == (-(x.Floor)) as real;
  }

  lemma TruncateExact(x: real)
    ensures Truncate(x) as real == x <==> x.Floor as real == x
    ensures x.Floor as real == x ==> Truncate(x) == x.Floor
  {
    if x < 0.0 {
      if x.Floor as real == x {
        FloorOfNegation(x);
      }
      if Truncate(x) as real == x {
        assert (Truncate(x) as real).Floor == Truncate(x);
      }
    }
  }

  /** Exactly the strings, true, and the integers of 64 bits survive; false and fractions do not. */
  lemma SurvivesExactly(v: Json)
    ensures SameValue(v, Stored(v)) <==> v.JStr? || v == JBool(true) || (v.JNum? && IsInt64(v.x))
  {
    if v.JNum? {
      TruncateExact(v.x);
    }
  }
}
