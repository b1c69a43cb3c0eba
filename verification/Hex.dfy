/** Hexadecimal text of unsigned integers: what strconv.ParseUint(s, 16, _) accepts and what
    the %x and %016x verbs print. */
module Hex {
  import opened Wrappers

  const MAX_UINT16 := 0xFFFF
  const MAX_UINT64 := 0xFFFF_FFFF_FFFF_FFFF

  const DIGITS := "0123456789abcdef"

  function Digit(d: nat): char
    requires d < 16
  {
    DIGITS[d]
  }

  function DigitValue(c: char): (d: Option<nat>)
    ensures d.Some? ==> d.value < 16
  {
    if '0' <= c <= '9' then Some(c as int - '0' as int)
    else if 'a' <= c <= 'f' then Some(c as int - 'a' as int + 10)
    else if 'A' <= c <= 'F' then Some(c as int - 'A' as int + 10)
    else None
  }

  /** Empty text, a stray character and a value above `max` are all errors. */
  function ParseUint(s: string, max: nat): (v: Option<nat>)
    ensures v.Some? ==> v.value <= max
  {
    if s == "" then None else ParseDigits(s, max)
  }

  function ParseDigits(s: string, max: nat): (v: Option<nat>)
    ensures v.Some? ==> v.value <= max
  {
    if s == "" then Some(0)
    else
      match (ParseDigits(s[..|s| - 1], max), DigitValue(s[|s| - 1]))
      case (Some(v), Some(d)) => if v * 16 + d > max then None else Some(v * 16 + d)
      case _ => None
  }

  /** %x: no leading zeros. */
  function Print(v: nat): (s: string)
    ensures |s| >= 1
  {
    (if v < 16 then "" else Print(v / 16)) + [Digit(v % 16)]
  }

  /** %0nx, for a value of at most n digits. */
  function PrintPadded(v: nat, n: nat): (s: string)
    ensures |s| == n
    decreases n, v
  {
    if n == 0 then "" else PrintPadded(v / 16, n - 1) + [Digit(v % 16)]
  }

  /** `v` has no digits beyond the low `n`. */
  predicate Fits(v: nat, n: nat)
    decreases n, v
  {
    if n == 0 then v == 0 else Fits(v / 16, n - 1)
  }

  lemma DigitRoundTrip(d: nat)
    requires d < 16
    ensures DigitValue(Digit(d)) == Some(d)
  {
  }

  lemma LastDigitParses(init: string, v: nat, max: nat)
    requires v <= max && ParseDigits(init, max) == Some(v / 16)
    ensures ParseDigits(init + [Digit(v % 16)], max) == Some(v)
  {
    var s := init + [Digit(v % 16)];
    assert s[..|s| - 1] == init && s[|s| - 1] == Digit(v % 16);
    DigitRoundTrip(v % 16);
  }

  /** Printing without padding parses back to the same value. */
  lemma {:induction false} PrintParses(v: nat, max: nat)
    requires v <= max
    ensures ParseUint(Print(v), max) == Some(v)
  {
    if v >= 16 {
      PrintParses(v / 16, max);
      LastDigitParses(Print(v / 16), v, max);
    } else {
      LastDigitParses("", v, max);
    }
  }

  /** So does printing with padding. */
  lemma {:induction false} PrintPaddedParses(v: nat, n: nat, max: nat)
    requires v <= max && Fits(v, n)
    ensures ParseDigits(PrintPadded(v, n), max) == Some(v)
    decreases n
  {
    if n > 0 {
      PrintPaddedParses(v / 16, n - 1, max);
      LastDigitParses(PrintPadded(v / 16, n - 1), v, max);
    }
  }

  lemma {:induction false} PrintIsShort(v: nat, n: nat)
    requires n >= 1 && Fits(v, n)
    ensures |Print(v)| <= n
    decreases n
  {
    if v >= 16 {
      PrintIsShort(v / 16, n - 1);
    }
  }

  lemma FitsFourMore(v: nat, n: nat)
    ensures Fits(v, n + 4) == Fits(v / 65536, n)
  {
    assert Fits(v, n + 4) == Fits(v / 16 / 16, n + 2) == Fits(v / 16 / 16 / 16 / 16, n);
  }

  lemma EveryUint64Fits(v: nat)
    requires v <= MAX_UINT64
    ensures Fits(v, 16)
  {
    FitsFourMore(v, 12);
    FitsFourMore(v / 65536, 8);
    FitsFourMore(v / 65536 / 65536, 4);
    FitsFourMore(v / 65536 / 65536 / 65536, 0);
  }

  // -- What parses ---------------------------------------------------------------------

  predicate IsHexDigit(c: char) {
    '0' <= c <= '9' || 'a' <= c <= 'f' || 'A' <= c <= 'F'
  }

  predicate AllHexDigits(s: string) {
    forall i :: 0 <= i < |s| ==> IsHexDigit(s[i])
  }

  function Pow16(n: nat): nat {
    if n == 0 then 1 else 16 * Pow16(n - 1)
  }

  /** Digits parse, and nothing else does; as many as there are fit. */
  lemma {:induction false} DigitsParseIff(s: string, max: nat)
    requires Pow16(|s|) <= max + 1
    ensures ParseDigits(s, max).Some? <==> AllHexDigits(s)
    ensures ParseDigits(s, max).Some? ==> ParseDigits(s, max).value < Pow16(|s|)
  {
    if s != "" {
      var init, last := s[..|s| - 1], s[|s| - 1];
      DigitsParseIff(init, max);
      assert IsHexDigit(last) <==> DigitValue(last).Some?;
      assert AllHexDigits(s) <==> AllHexDigits(init) && IsHexDigit(last) by {
        assert s == init + [last];
        assert AllHexDigits(s) ==> forall i :: 0 <= i < |init| ==> init[i] == s[i];
      }
      hide DigitValue, IsHexDigit, AllHexDigits;
    }
  }

  lemma {:induction false} Pow16Grows(m: nat, n: nat)
    requires m <= n
    ensures Pow16(m) <= Pow16(n)
    decreases n - m
  {
    if m < n {
      Pow16Grows(m + 1, n);
    }
  }

  lemma SixteenDigits()
    ensures Pow16(16) == MAX_UINT64 + 1 && Pow16(4) == MAX_UINT16 + 1
  {
    assert Pow16(4) == 65536;
    assert Pow16(8) == 65536 * Pow16(4);
    assert Pow16(12) == 65536 * Pow16(8);
    assert Pow16(16) == 65536 * Pow16(12);
  }
}
