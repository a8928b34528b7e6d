/**
 The small slice of JavaScript value semantics the sign-in resolver relies on:
 optional fields, truthiness, the short-circuiting `||` operator, and the
 rendering of an id (a string or an integral number) inside a template literal.
 */
module JsValues {

  /** An optional field: `Absent` models both `undefined` and `null`. */
  datatype Option<+T> = Absent | Present(value: T)

  /** A user id as an OAuth provider may deliver it: either text or an integral number. */
  datatype Id = IdText(text: string) | IdNumber(number: int)

  /** JavaScript truthiness of an optional string: absent values and `""` are falsy. */
  predicate Truthy(s: Option<string>) {
    s.Present? && s.value != ""
  }

  /** JavaScript truthiness of an optional id: absent, `""` and the number `0` are falsy. */
  predicate IdTruthy(i: Option<Id>) {
    match i
    case Absent => false
    case Present(IdText(t)) => t != ""
    case Present(IdNumber(n)) => n != 0
  }

  /** `a || b` on optional strings: the left operand if it is truthy, otherwise the right one. */
  function Or(a: Option<string>, b: Option<string>): (r: Option<string>)
    ensures Truthy(r) <==> Truthy(a) || Truthy(b)
    ensures Truthy(a) ==> r == a
    ensures !Truthy(a) ==> r == b
  {
    if Truthy(a) then a else b
  }

  /** `a || b` on optional ids. */
  function IdOr(a: Option<Id>, b: Option<Id>): (r: Option<Id>)
    ensures IdTruthy(r) <==> IdTruthy(a) || IdTruthy(b)
    ensures IdTruthy(a) ==> r == a
    ensures !IdTruthy(a) ==> r == b
  {
    if IdTruthy(a) then a else b
  }

  // ---------------------------------------------------------------------------
  // Decimal rendering of integers, as `${n}` does for an integral number.

  predicate IsDigit(c: char) {
    '0' <= c <= '9'
  }

  function DigitChar(d: nat): (c: char)
    requires d < 10
    ensures IsDigit(c)
    ensures c as int - '0' as int == d
  {
    ('0' as int + d) as char
  }

  /** The decimal digits of `n`, most significant first, with no leading zero. */
  function Digits(n: nat): (s: string)
    ensures |s| >= 1
    ensures forall i :: 0 <= i < |s| ==> IsDigit(s[i])
    ensures s[0] == '0' ==> n == 0
    decreases n
  {
    if n < 10 then [DigitChar(n)] else Digits(n / 10) + [DigitChar(n % 10)]
  }

  function DigitValue(c: char): nat
    requires IsDigit(c)
  {
    c as int - '0' as int
  }

  /** The value of a string of decimal digits: the reference reading of `Digits`. */
  function DigitsValue(s: string): nat
    requires forall i :: 0 <= i < |s| ==> IsDigit(s[i])
  {
    if s == [] then 0 else 10 * DigitsValue(s[..|s| - 1]) + DigitValue(s[|s| - 1])
  }

  /** Reading back the digits of `n` gives `n`. */
  lemma {:induction false} DigitsRoundTrip(n: nat)
    ensures DigitsValue(Digits(n)) == n
    decreases n
  {
    var s := Digits(n);
    if n >= 10 {
      DigitsRoundTrip(n / 10);
      assert s[..|s| - 1] == Digits(n / 10);
    }
  }

  /** `d` is the canonical decimal text of `m`: digits only, no leading zero, and value `m`. */
  predicate CanonicalDigits(d: string, m: nat) {
    && |d| >= 1
    && (forall k :: 0 <= k < |d| ==> IsDigit(d[k]))
    && (d[0] == '0' ==> d == "0")
    && DigitsValue(d) == m
  }

  /**
   `s` is how a template literal writes the integer `n`: a minus sign exactly
   when `n` is negative, followed by the canonical digits of its magnitude.
   */
  predicate IsDecimalOf(s: string, n: int) {
    if n < 0 then |s| >= 2 && s[0] == '-' && CanonicalDigits(s[1..], -n)
    else CanonicalDigits(s, n)
  }

  /** `Digits` produces canonical digits. */
  lemma DigitsCanonical(n: nat)
    ensures CanonicalDigits(Digits(n), n)
  {
    DigitsRoundTrip(n);
  }

  /** A digit string with a non-zero leading digit has a positive value. */
  lemma {:induction false} DigitsValuePositive(d: string)
    requires |d| >= 1 && (forall k :: 0 <= k < |d| ==> IsDigit(d[k])) && d[0] != '0'
    ensures DigitsValue(d) > 0
    decreases |d|
  {
    if |d| >= 2 {
      var p := d[..|d| - 1];
      assert p[0] == d[0];
      DigitsValuePositive(p);
    }
  }

  /** Canonical digits are unique: the only canonical text of `m` is `Digits(m)`. */
  lemma {:induction false} CanonicalDigitsUnique(d: string, m: nat)
    requires CanonicalDigits(d, m)
    ensures d == Digits(m)
    decreases |d|
  {
    if |d| == 1 {
      assert d[..0] == [];
      assert DigitChar(m) == d[0];
    } else {
      var p := d[..|d| - 1];
      var c := d[|d| - 1];
      assert p[0] == d[0];
      DigitsValuePositive(p);
      assert m / 10 == DigitsValue(p) && m % 10 == DigitValue(c);
      CanonicalDigitsUnique(p, m / 10);
      assert d == p + [c];
    }
  }

  /** The text an integer renders to: an optional minus sign followed by its digits. */
  function DecimalString(n: int): (s: string)
    ensures |s| >= 1
    ensures IsDecimalOf(s, n)
    ensures s[0] == '-' <==> n < 0
  {
    if n < 0 then
      DigitsCanonical(-n);
      assert ("-" + Digits(-n))[1..] == Digits(-n);
      "-" + Digits(-n)
    else
      DigitsCanonical(n);
      Digits(n)
  }

  /** `DecimalString` gives the one text that writes `n` in canonical decimal. */
  lemma DecimalTextExactly(s: string, n: int)
    ensures IsDecimalOf(s, n) <==> s == DecimalString(n)
  {
    if IsDecimalOf(s, n) {
      if n < 0 {
        CanonicalDigitsUnique(s[1..], -n);
        assert s == [s[0]] + s[1..];
      } else {
        CanonicalDigitsUnique(s, n);
      }
    }
  }

  /** Distinct integers render to distinct texts. */
  lemma DecimalStringInjective(m: int, n: int)
    requires DecimalString(m) == DecimalString(n)
    ensures m == n
  {
  }

  /**
   The text a present id contributes to a template literal: a text id as is, a
   number in canonical decimal (optional minus sign, digits with no leading
   zero that read back as its magnitude).
   */
  function IdString(i: Id): (s: string)
    ensures i.IdText? ==> s == i.text
    ensures i.IdNumber? ==> |s| >= 1 && (s[0] == '-' <==> i.number < 0) && IsDecimalOf(s, i.number)
  {
    match i
    case IdText(t) => t
    case IdNumber(n) => DecimalString(n)
  }
}
