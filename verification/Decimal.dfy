/** Decimal text as Rust prints and parses it, over ASCII bytes. */
module Decimal {
  import opened Base

  const I64_MAX: int := 0x7fff_ffff_ffff_ffff

  predicate IsDigit(c: byte) { 48 <= c <= 57 }

  predicate AllDigits(s: Bytes) {
    forall i :: 0 <= i < |s| ==> IsDigit(s[i])
  }

  /** The digits `{n}` prints. */
  function Digits(n: nat): (s: Bytes)
    ensures s != [] && AllDigits(s)
  {
    if n < 10 then [48 + n] else Digits(n / 10) + [48 + n % 10]
  }

  function DigitsValue(s: Bytes): (n: int)
    requires AllDigits(s)
    ensures n >= 0
  {
    if s == [] then 0 else DigitsValue(s[..|s| - 1]) * 10 + (s[|s| - 1] - 48)
  }

  /** `str::parse::<i64>`: an optional sign, at least one digit, and a value that fits. */
  function ParseI64(s: Bytes): Option<int> {
    var signed := s != [] && (s[0] == 43 || s[0] == 45);
    var digits := if signed then s[1..] else s;
    if digits == [] || !AllDigits(digits) then None
    else if signed && s[0] == 45 then
      if DigitsValue(digits) <= I64_MAX + 1 then Some(0 - DigitsValue(digits)) else None
    else if DigitsValue(digits) <= I64_MAX then Some(DigitsValue(digits))
    else None
  }

  lemma {:induction false} DigitsRoundTrip(n: nat)
    ensures DigitsValue(Digits(n)) == n
  {
    if n >= 10 {
      DigitsRoundTrip(n / 10);
      var s := Digits(n);
      assert s[..|s| - 1] == Digits(n / 10);
    } else {
      assert Digits(n)[..0] == [];
    }
  }

  lemma ParseOfDigits(n: nat)
    requires n <= I64_MAX
    ensures ParseI64(Digits(n)) == Some(n)
  {
    DigitsRoundTrip(n);
    assert IsDigit(Digits(n)[0]);
  }

  /** A plus sign is allowed, and a number that does not fit is none. */
  lemma SignsAndRange(n: nat)
    ensures ParseI64([43] + Digits(n)) == ParseI64(Digits(n)) == if n <= I64_MAX then Some(n) else None
    ensures var r := ParseI64([45] + Digits(n)); if n <= I64_MAX + 1 then r.Some? && r.value + n == 0 else r.None?
  {
    DigitsRoundTrip(n);
    assert IsDigit(Digits(n)[0]);
    assert ([43] + Digits(n))[1..] == Digits(n) && ([45] + Digits(n))[1..] == Digits(n);
  }

  /** Nothing but digits may follow the sign, and at least one must. */
  lemma NoNumber(s: Bytes)
    ensures s in {[], [43], [45]} || (exists i :: 1 <= i < |s| && !IsDigit(s[i])) ==> ParseI64(s).None?
  {
    if i :| 1 <= i < |s| && !IsDigit(s[i]) {
      assert s[1..][i - 1] == s[i];
    }
  }
}
