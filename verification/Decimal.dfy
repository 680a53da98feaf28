/** strconv.ParseInt and %d for 64-bit integers. */
module Decimal {
  import opened Text

  const MAX_INT64: int := 0x7fff_ffff_ffff_ffff

  predicate IsDigit(c: char) {
    '0' <= c <= '9'
  }

  predicate AllDigits(s: string) {
    forall k :: 0 <= k < |s| ==> IsDigit(s[k])
  }

  function DigitsValue(s: string): nat
    requires AllDigits(s)
  {
    if s == "" then 0
    else 10 * DigitsValue(s[..|s| - 1]) + (s[|s| - 1] as int - '0' as int)
  }

  /** strconv.ParseInt(s, 10, 64); None stands for its error. */
  function ParseInt64(s: string): (r: Option<int>)
    ensures r.Some? ==> -MAX_INT64 - 1 <= r.value <= MAX_INT64
  {
    var negative := s != "" && s[0] == '-';
    var digits := if s != "" && (s[0] == '-' || s[0] == '+') then s[1..] else s;
    if digits == "" || !AllDigits(digits) then None
    else
      var magnitude: int := DigitsValue(digits);
      if negative then
        if magnitude <= MAX_INT64 + 1 then Some(-magnitude) else None
      else if magnitude <= MAX_INT64 then Some(magnitude)
      else None
  }

  /** A number in base 10, as %d prints it. */
  function Format(n: nat): (s: string)
    ensures s != "" && AllDigits(s)
    decreases n
  {
    var last := [(n % 10 + '0' as int) as char];
    if n < 10 then last else Format(n / 10) + last
  }

  lemma {:induction false} DigitsOfFormat(n: nat)
    ensures DigitsValue(Format(n)) == n
    decreases n
  {
    var s := Format(n);
    if n < 10 {
      assert s[..0] == "";
      assert DigitsValue(s) == 10 * DigitsValue(s[..0]) + n;
    } else {
      DigitsOfFormat(n / 10);
      assert s[..|s| - 1] == Format(n / 10);
    }
  }

  /** A printed number is parsed back exactly when it fits 64 bits. */
  lemma FormatRoundTrip(n: nat)
    ensures ParseInt64(Format(n)) == if n <= MAX_INT64 then Some(n) else None
  {
    DigitsOfFormat(n);
    assert IsDigit(Format(n)[0]);
  }

  /** A sign in front of a printed number. */
  lemma ParseSigned(n: nat)
    ensures ParseInt64("-" + Format(n)) == if n <= MAX_INT64 + 1 then Some(-(n as int)) else None
    ensures ParseInt64("+" + Format(n)) == if n <= MAX_INT64 then Some(n) else None
  {
    DigitsOfFormat(n);
    assert ("-" + Format(n))[1..] == Format(n) && ("+" + Format(n))[1..] == Format(n);
  }

  /** A sign alone, or a character that is no digit, is no number. */
  lemma NoNumber(front: string, c: char, back: string)
    requires !IsDigit(c) && (front != "" || (c != '-' && c != '+'))
    ensures ParseInt64("") == ParseInt64("-") == ParseInt64("+") == None
    ensures ParseInt64(front + [c] + back) == None
  {
    var s := front + [c] + back;
    assert "-"[1..] == "" && "+"[1..] == "";
    assert s[|front|] == c && (front != "" ==> s[1..][|front| - 1] == c);
  }
}
