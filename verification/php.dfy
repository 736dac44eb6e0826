/** The PHP values the logger handles and the language conversions it relies on. */
module Php {

  /**
   * A PHP value. Arrays are maps from string keys to values: an integer key is
   * written as its decimal form, as PHP itself normalises "0" and 0 to one key.
   * Floats and objects are not modelled.
   */
  datatype Value =
    | VNull
    | VBool(b: bool)
    | VInt(i: int)
    | VStr(s: string)
    | VArray(entries: map<string, Value>)

  /** A handler's options array. */
  type Options = map<string, Value>

  const EmptyArray: Value := VArray(map[])

  predicate IsScalar(v: Value) {
    v.VBool? || v.VInt? || v.VStr?
  }

  /** A non-empty run of decimal digits. */
  predicate DigitString(s: string) {
    |s| > 0 && forall i :: 0 <= i < |s| ==> '0' <= s[i] <= '9'
  }

  /** The number a run of decimal digits denotes, most significant first. */
  function DigitValue(s: string): nat
    requires forall i :: 0 <= i < |s| ==> '0' <= s[i] <= '9'
  {
    if s == [] then 0 else DigitValue(s[..|s| - 1]) * 10 + (s[|s| - 1] as int - '0' as int)
  }

  /** Decimal digits of a natural number, most significant first, with no leading zero. */
  function Digits(n: nat): (r: string)
    ensures DigitString(r)
    ensures DigitValue(r) == n
    ensures r[0] == '0' <==> n == 0
  {
    var d := ['0' + (n % 10) as char];
    if n < 10 then d
    else
      var r := Digits(n / 10) + d;
      assert r[..|r| - 1] == Digits(n / 10);
      r
  }

  /** A digit string without a leading zero is the decimal form of the number it denotes. */
  lemma {:induction false} DigitsOfValue(s: string)
    requires DigitString(s) && (s[0] != '0' || s == "0")
    ensures Digits(DigitValue(s)) == s
    decreases |s|
  {
    if |s| > 1 {
      var init := s[..|s| - 1];
      var d := LastDigit(s);
      LeadingDigitPositive(init);
      DigitsOfValue(init);
      DigitsAppend(DigitValue(init), d);
    }
  }

  /** A digit string of two or more digits is its initial digits followed by the last one. */
  lemma LastDigit(s: string) returns (d: nat)
    requires DigitString(s) && |s| > 1
    ensures var init := s[..|s| - 1];
      && d < 10 && DigitString(init) && init[0] == s[0]
      && DigitValue(s) == DigitValue(init) * 10 + d
      && s == init + ['0' + d as char]
  {
    d := s[|s| - 1] as int - '0' as int;
    assert s == s[..|s| - 1] + [s[|s| - 1]];
  }

  /** Appending a digit to a positive number appends it to its decimal form. */
  lemma DigitsAppend(a: nat, d: nat)
    requires 0 < a && d < 10
    ensures Digits(a * 10 + d) == Digits(a) + ['0' + d as char]
  {
    assert (a * 10 + d) / 10 == a && (a * 10 + d) % 10 == d;
  }

  lemma {:induction false} LeadingDigitPositive(s: string)
    requires DigitString(s) && s[0] != '0'
    ensures DigitValue(s) > 0
    decreases |s|
  {
    if |s| > 1 {
      var init := s[..|s| - 1];
      assert init[0] == s[0];
      LeadingDigitPositive(init);
    }
  }

  /** Bounds of PHP's 64-bit integers. */
  const IntMin: int := -0x8000_0000_0000_0000
  const IntMax: int := 0x7fff_ffff_ffff_ffff

  /**
   * A string key PHP stores as an integer key: the canonical decimal form of a
   * 64-bit integer ("0", "12", "-3"; not "012", "-0", "+1" or " 1").
   */
  predicate IntKey(k: string) {
    if |k| > 0 && k[0] == '-' then
      DigitString(k[1..]) && k[1] != '0' && DigitValue(k[1..]) <= -IntMin
    else
      DigitString(k) && (k[0] != '0' || k == "0") && DigitValue(k) <= IntMax
  }

  /** The (string) cast of an integer. */
  function IntToString(i: int): string {
    if i < 0 then "-" + Digits(-i) else Digits(i)
  }

  /** Exactly the (string) casts of 64-bit integers are integer keys. */
  lemma IntKeyIsIntToString(k: string)
    ensures IntKey(k) <==> exists i :: IntMin <= i <= IntMax && IntToString(i) == k
  {
    if IntKey(k) {
      var i := IntKeyValue(k);
    }
    if exists i :: IntMin <= i <= IntMax && IntToString(i) == k {
      var i :| IntMin <= i <= IntMax && IntToString(i) == k;
      IntToStringIsIntKey(i);
    }
  }

  lemma IntKeyValue(k: string) returns (i: int)
    requires IntKey(k)
    ensures IntMin <= i <= IntMax && IntToString(i) == k
  {
    if k[0] == '-' {
      var m := k[1..];
      DigitsOfValue(m);
      LeadingDigitPositive(m);
      i := -(DigitValue(m) as int);
      assert k == "-" + m;
    } else {
      DigitsOfValue(k);
      i := DigitValue(k);
    }
  }

  lemma IntToStringIsIntKey(i: int)
    requires IntMin <= i <= IntMax
    ensures IntKey(IntToString(i))
  {
    var k := IntToString(i);
    if i < 0 {
      assert k[1..] == Digits(-i);
    } else {
      assert k[0] != '-';
    }
  }

  /** The (string) cast: null and false give "", true gives "1", an array gives "Array". */
  function ToStr(v: Value): string {
    match v
    case VNull => ""
    case VBool(b) => if b then "1" else ""
    case VInt(i) => IntToString(i)
    case VStr(s) => s
    case VArray(_) => "Array"
  }

  /** PHP's conversion to bool. */
  predicate Truthy(v: Value) {
    match v
    case VNull => false
    case VBool(b) => b
    case VInt(i) => i != 0
    case VStr(s) => s != "" && s != "0"
    case VArray(m) => m != map[]
  }

  /** The (array) cast: null gives [], an array stays, any other value x gives [x]. */
  function CastArray(v: Value): (r: Value)
    ensures r.VArray?
    ensures v.VArray? ==> r == v
    ensures !v.VArray? && !v.VNull? ==> r.entries.Values == {v}
  {
    match v
    case VNull => EmptyArray
    case VArray(_) => v
    case _ =>
      var m := map["0" := v];
      assert m.Keys == {"0"} && m["0"] == v;
      VArray(m)
  }

  /** strtoupper: ASCII letters only, locale-independent. */
  function Upper(s: string): (r: string)
    ensures |r| == |s|
    ensures forall i :: 0 <= i < |s| ==>
      r[i] == if 'a' <= s[i] <= 'z' then (s[i] as int - 32) as char else s[i]
  {
    if s == [] then []
    else [if 'a' <= s[0] <= 'z' then (s[0] as int - 32) as char else s[0]] + Upper(s[1..])
  }
}
