/**
 * Decimal text of unsigned 64-bit integers: the `u64::from_str` parser that
 * `parse_mem` relies on, and the `{}` formatting that produces the payloads
 * written into cgroup control files.
 */
module Decimal {
  import opened Wrappers

  const U64_MAX: int := 0xFFFF_FFFF_FFFF_FFFF

  /** A value of Rust's `u64`. */
  type U64 = n: int | 0 <= n <= U64_MAX

  /** The kinds of `std::num::ParseIntError` an unsigned parse can report. */
  datatype ParseError = Empty | InvalidDigit | PosOverflow

  predicate IsDigit(c: char) {
    '0' <= c <= '9'
  }

  predicate AllDigits(s: string) {
    forall i :: 0 <= i < |s| ==> IsDigit(s[i])
  }

  function DigitValue(c: char): nat
    requires IsDigit(c)
  {
    (c as int) - ('0' as int)
  }

  function DigitChar(d: nat): (c: char)
    requires d < 10
    ensures IsDigit(c) && DigitValue(c) == d
  {
    ('0' as int + d) as char
  }

  /** The number a string of decimal digits denotes (most significant digit first). */
  function Value(s: string): nat
    requires AllDigits(s)
  {
    if s == [] then 0 else Value(s[..|s| - 1]) * 10 + DigitValue(s[|s| - 1])
  }

  /**
   * The digit loop of `u64::from_str`: digits are consumed left to right; a
   * non-digit stops it with InvalidDigit, and an accumulator that would leave
   * the u64 range (`checked_mul` or `checked_add` failing) with PosOverflow.
   * The digit test comes before the overflow test at each position.
   */
  function Scan(s: string, acc: U64): Result<U64, ParseError>
    decreases |s|
  {
    if s == [] then Ok(acc)
    else if !IsDigit(s[0]) then Err(InvalidDigit)
    else if acc * 10 + DigitValue(s[0]) > U64_MAX then Err(PosOverflow)
    else Scan(s[1..], acc * 10 + DigitValue(s[0]))
  }

  /**
   * `s.parse::<u64>()`: the empty string is Empty, one leading `+` is
   * skipped, a lone `+` is InvalidDigit, then the digit loop.
   */
  function ParseU64(s: string): Result<U64, ParseError> {
    if s == [] then Err(Empty)
    else if s == "+" then Err(InvalidDigit)
    else if s[0] == '+' then Scan(s[1..], 0)
    else Scan(s, 0)
  }

  /** The digits of a well-formed u64 literal: `s` without its optional leading `+`. */
  function Unsigned(s: string): string {
    if |s| > 0 && s[0] == '+' then s[1..] else s
  }

  /** `format!("{}", n)`: the shortest decimal digits of `n`. */
  function Format(n: nat): (s: string)
    ensures |s| > 0 && AllDigits(s)
  {
    (if n < 10 then "" else Format(n / 10)) + [DigitChar(n % 10)]
  }

  lemma {:induction false} ValueOfFormat(n: nat)
    ensures Value(Format(n)) == n
  {
    var s := Format(n);
    assert s[..|s| - 1] == (if n < 10 then "" else Format(n / 10));
    if n >= 10 {
      ValueOfFormat(n / 10);
    }
  }

  /** A digit string never denotes less than any of its prefixes. */
  lemma {:induction false} ValueMonotone(p: string, q: string)
    requires AllDigits(p) && AllDigits(q)
    ensures AllDigits(p + q) && Value(p) <= Value(p + q)
  {
    if q == [] {
      assert p + q == p;
    } else {
      var q' := q[..|q| - 1];
      assert (p + q)[..|p + q| - 1] == p + q';
      ValueMonotone(p, q');
    }
  }

  /**
   * The digit loop, started after a prefix `p` it has already accepted,
   * succeeds exactly when the rest is all digits and the whole number fits.
   */
  lemma {:induction false} ScanAfter(p: string, s: string)
    requires AllDigits(p) && Value(p) <= U64_MAX
    ensures Scan(s, Value(p)).Ok? <==> AllDigits(s) && Value(p + s) <= U64_MAX
    ensures Scan(s, Value(p)).Ok? ==> Scan(s, Value(p)).value == Value(p + s)
    decreases |s|
  {
    if s == [] {
      assert p + s == p;
    } else if IsDigit(s[0]) {
      var p' := p + [s[0]];
      assert p'[..|p'| - 1] == p;
      assert p' + s[1..] == p + s;
      if Value(p') <= U64_MAX {
        ScanAfter(p', s[1..]);
        if AllDigits(s) {
          assert AllDigits(s[1..]);
        }
      } else if AllDigits(s) {
        assert AllDigits(s[1..]);
        ValueMonotone(p', s[1..]);
      }
    }
  }

  /** `u64::from_str` accepts exactly an optional `+` and one or more digits denoting at most 2^64 - 1. */
  lemma ParseU64Accepts(s: string)
    ensures ParseU64(s).Ok? <==>
      |Unsigned(s)| > 0 && AllDigits(Unsigned(s)) && Value(Unsigned(s)) <= U64_MAX
    ensures ParseU64(s).Ok? ==> ParseU64(s).value == Value(Unsigned(s))
  {
    assert [] + Unsigned(s) == Unsigned(s);
    if s != [] && s != "+" {
      ScanAfter([], Unsigned(s));
    }
  }

  /** The error kinds: only "" is Empty, and an all-digit string can fail only by overflowing. */
  lemma ParseU64Errors(s: string)
    ensures ParseU64(s) == Err(Empty) <==> s == []
    ensures |Unsigned(s)| > 0 && AllDigits(Unsigned(s)) && Value(Unsigned(s)) > U64_MAX ==>
      ParseU64(s) == Err(PosOverflow)
  {
    if s != [] && s != "+" {
      ScanErrors(Unsigned(s), 0);
      ParseU64Accepts(s);
    }
  }

  lemma {:induction false} ScanErrors(s: string, acc: U64)
    ensures Scan(s, acc) != Err(Empty)
    ensures AllDigits(s) && Scan(s, acc).Err? ==> Scan(s, acc) == Err(PosOverflow)
    decreases |s|
  {
    if s != [] && IsDigit(s[0]) && acc * 10 + DigitValue(s[0]) <= U64_MAX {
      ScanErrors(s[1..], acc * 10 + DigitValue(s[0]));
    }
  }

  /** Formatting and parsing are inverse: the decimal text of a u64 parses back to it. */
  lemma ParseFormat(n: U64)
    ensures ParseU64(Format(n)) == Ok(n)
  {
    var s := Format(n);
    ValueOfFormat(n);
    assert s[0] != '+' by { assert IsDigit(s[0]); }
    ParseU64Accepts(s);
  }
}
