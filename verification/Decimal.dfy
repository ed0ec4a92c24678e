/** Decimal text of integers as the shell variables hold it, with the bounds of
    the machine types it is parsed into. */
module Decimal {
  import opened Options

  const I32_MIN: int := -0x8000_0000
  const I32_MAX: int := 0x7FFF_FFFF
  const USIZE_MAX: int := 0xFFFF_FFFF_FFFF_FFFF

  function Digit(d: nat): (c: char)
    requires d < 10
  {
    '0' + d as char
  }

  function NatToString(n: nat): (s: string)
    ensures s != [] && s[0] != '+' && s[0] != '-'
  {
    if n < 10 then [Digit(n)] else NatToString(n / 10) + [Digit(n % 10)]
  }

  /** Value of a run of decimal digits; None at any other character. */
  function DigitsValue(s: string): Option<nat> {
    if s == [] then Some(0) else
    var last := s[|s| - 1];
    match DigitsValue(s[..|s| - 1])
    case None => None
    case Some(v) => if '0' <= last <= '9' then Some(10 * v + (last as int - '0' as int)) else None
  }

  function ParseNat(s: string): Option<nat> {
    if s == [] then None else DigitsValue(s)
  }

  /** `i32` from text: one optional sign, at least one digit, no overflow. */
  function ParseI32(s: string): (r: Option<int>)
    ensures r.Some? ==> I32_MIN <= r.value <= I32_MAX
  {
    var negative := s != [] && s[0] == '-';
    var digits := if s != [] && (s[0] == '-' || s[0] == '+') then s[1..] else s;
    match ParseNat(digits)
    case None => None
    case Some(v) =>
      var n: int := if negative then -(v as int) else v;
      if I32_MIN <= n <= I32_MAX then Some(n) else None
  }

  /** `usize` from text: an optional plus sign, at least one digit, no overflow. */
  function ParseUsize(s: string): Option<nat> {
    var digits := if s != [] && s[0] == '+' then s[1..] else s;
    match ParseNat(digits)
    case None => None
    case Some(v) => if v <= USIZE_MAX then Some(v) else None
  }

  lemma {:induction false} DigitsRoundTrip(n: nat)
    ensures DigitsValue(NatToString(n)) == Some(n)
  {
    var s := NatToString(n);
    if n < 10 {
      assert s[..0] == [];
    } else {
      DigitsRoundTrip(n / 10);
      assert s[..|s| - 1] == NatToString(n / 10);
    }
  }

  lemma ParseBack(n: nat)
    ensures n <= I32_MAX ==> ParseI32(NatToString(n)) == Some(n)
    ensures n <= USIZE_MAX ==> ParseUsize(NatToString(n)) == Some(n)
  {
    DigitsRoundTrip(n);
  }
}
