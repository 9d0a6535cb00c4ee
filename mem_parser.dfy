/**
 * `parse_mem` (src/main.rs): a memory size such as "2G" becomes a byte count.
 * A final upper-case K, M, G or T is stripped and selects a left shift of
 * 10, 20, 30 or 40 bits; the rest is parsed as a u64 and shifted, dropping
 * the bits shifted out of the 64-bit word.
 */
module MemParser {
  import opened Wrappers
  import opened Decimal

  const U64_MODULUS: int := U64_MAX + 1

  /** The size token used when no `-m`/`--memory` option is given. */
  const DEFAULT_MEMORY: string := "2G"

  function Pow2(n: nat): (r: nat)
    ensures r >= 1
  {
    if n == 0 then 1 else 2 * Pow2(n - 1)
  }

  lemma {:induction false} Pow2Add(a: nat, b: nat)
    ensures Pow2(a + b) == Pow2(a) * Pow2(b)
  {
    if b > 0 {
      Pow2Add(a, b - 1);
    }
  }

  /** The multipliers of the four suffixes. */
  lemma SuffixMultipliers()
    ensures Pow2(10) == 1024
    ensures Pow2(20) == 1048576
    ensures Pow2(30) == 1073741824
    ensures Pow2(40) == 1099511627776
  {
    assert Pow2(10) == 1024;
    Pow2Add(10, 10);
    Pow2Add(20, 10);
    Pow2Add(30, 10);
  }

  /** Rust's `x << shift` on u64 for a shift below 64: the high bits are discarded. */
  function ShiftLeft(x: U64, shift: nat): U64
    requires shift < 64
  {
    (x * Pow2(shift)) % U64_MODULUS
  }

  /** The shift a final character selects; 0 when it is not a suffix letter. */
  function SuffixShift(c: char): (shift: nat)
    ensures shift in {0, 10, 20, 30, 40}
  {
    match c
    case 'K' => 10
    case 'M' => 20
    case 'G' => 30
    case 'T' => 40
    case _ => 0
  }

  predicate IsSuffix(c: char) {
    c in {'K', 'M', 'G', 'T'}
  }

  /** The shift selected by the last character of `s` (none for ""). */
  function Shift(s: string): nat {
    if s == [] then 0 else SuffixShift(s[|s| - 1])
  }

  /** What is handed to the integer parser: `s` without a recognised suffix. */
  function Number(s: string): string {
    if Shift(s) == 0 then s else s[..|s| - 1]
  }

  /**
   * `parse_mem`. The empty string is Err(Empty): `mem.len() - 1` wraps in a
   * release build, `get` then yields None, and "" reaches the integer parser.
   */
  function ParseMem(s: string): Result<U64, ParseError> {
    match ParseU64(Number(s))
    case Ok(x) => Ok(ShiftLeft(x, Shift(s)))
    case Err(e) => Err(e)
  }

  lemma ShiftOfSuffix(c: char)
    ensures SuffixShift(c) != 0 <==> IsSuffix(c)
  {
  }

  /**
   * Only the integer parse can fail: the result is Ok exactly when the
   * unsuffixed part is an optional `+` and digits denoting a u64, and then it
   * is that number times 2^shift modulo 2^64; otherwise it is the integer
   * parser's own error.
   */
  lemma ParseMemAccepts(s: string)
    ensures var u := Unsigned(Number(s));
      ParseMem(s).Ok? <==> |u| > 0 && AllDigits(u) && Value(u) <= U64_MAX
    ensures var u := Unsigned(Number(s));
      ParseMem(s).Ok? ==> ParseMem(s).value == (Value(u) * Pow2(Shift(s))) % U64_MODULUS
    ensures ParseMem(s).Err? ==> ParseMem(s) == Err(ParseU64(Number(s)).error)
  {
    ParseU64Accepts(Number(s));
  }

  /** The text of the k-th suffix: none, K, M, G, T for k = 0 to 4. */
  function SuffixText(k: nat): string
    requires k < 5
  {
    ["", "K", "M", "G", "T"][k]
  }

  /**
   * For a digit string N and a suffix of none, K, M, G or T, the byte count is
   * N shifted left by 0, 10, 20, 30 or 40 bits, high bits discarded.
   */
  lemma ParseMemSuffix(n: string, k: nat)
    requires |n| > 0 && AllDigits(n) && Value(n) <= U64_MAX
    requires k < 5
    ensures ParseMem(n + SuffixText(k)) == Ok((Value(n) * Pow2(10 * k)) % U64_MODULUS)
  {
    var s := n + SuffixText(k);
    if k == 0 {
      assert s == n;
      ShiftOfSuffix(n[|n| - 1]);
      assert Shift(s) == 0 && Number(s) == n;
    } else {
      var c := ["K", "M", "G", "T"][k - 1][0];
      assert SuffixText(k) == [c];
      assert s[|s| - 1] == c && s[..|s| - 1] == n;
      assert Shift(s) == 10 * k && Number(s) == n;
    }
    assert Unsigned(n) == n by { assert IsDigit(n[0]); }
    ParseMemAccepts(s);
  }

  /**
   * A final character that is neither a digit nor an upper-case suffix is not
   * stripped, so the integer parser sees it and fails ("2g", "1k").
   */
  lemma OtherFinalCharFails(s: string)
    requires |s| > 0 && !IsDigit(s[|s| - 1]) && !IsSuffix(s[|s| - 1])
    ensures ParseMem(s).Err?
  {
    ShiftOfSuffix(s[|s| - 1]);
    var u := Unsigned(s);
    if |u| > 0 {
      assert u[|u| - 1] == s[|s| - 1];
    }
    ParseMemAccepts(s);
  }

  /**
   * Only one suffix letter is stripped: a suffix letter preceded by a
   * non-digit other than a leading '+' fails ("2GK", "x1G"). A bare suffix
   * fails too: "K" as Empty (`BareSuffixIsEmpty`), "+K" as InvalidDigit
   * (`SignedBareSuffixFails`).
   */
  lemma SuffixNeedsDigits(s: string, i: nat)
    requires |s| > 0 && IsSuffix(s[|s| - 1])
    requires i < |s| - 1 && !IsDigit(s[i]) && !(i == 0 && s[i] == '+')
    ensures ParseMem(s).Err?
  {
    ShiftOfSuffix(s[|s| - 1]);
    var u := Unsigned(Number(s));
    if |u| > 0 {
      if s[0] == '+' {
        assert u[i - 1] == s[i];
      } else {
        assert u[i] == s[i];
      }
    }
    ParseMemAccepts(s);
  }

  /** A lone suffix letter leaves nothing to parse. */
  lemma BareSuffixIsEmpty(c: char)
    requires IsSuffix(c)
    ensures ParseMem([c]) == Err(Empty)
  {
    ShiftOfSuffix(c);
    assert Number([c]) == [];
  }

  /** A sign and a suffix letter with no digits between them: u64 parsing rejects a lone "+" as InvalidDigit. */
  lemma SignedBareSuffixFails(c: char)
    requires IsSuffix(c)
    ensures ParseMem(['+', c]) == Err(InvalidDigit)
  {
    ShiftOfSuffix(c);
    assert Number(['+', c]) == "+";
  }

  /** The empty token is rejected as Empty rather than read as 0. */
  lemma EmptyTokenFails()
    ensures ParseMem("") == Err(Empty)
  {
  }

  /**
   * The byte count of the token made of the decimal text of `n` and the k-th
   * suffix; the examples below go through it.
   */
  lemma ParseFormatted(n: U64, k: nat)
    requires k < 5
    ensures ParseMem(Format(n) + SuffixText(k)) == Ok((n * Pow2(10 * k)) % U64_MODULUS)
  {
    ValueOfFormat(n);
    ParseMemSuffix(Format(n), k);
  }

  /** The default "2G" is 2 GiB. */
  lemma DefaultIsTwoGiB()
    ensures ParseMem(DEFAULT_MEMORY) == Ok(2147483648)
  {
    ParseFormatted(2, 3);
    assert Format(2) + SuffixText(3) == DEFAULT_MEMORY;
    SuffixMultipliers();
    assert (2 * Pow2(30)) % U64_MODULUS == 2147483648;
  }

  /** "512M" is 512 MiB. */
  lemma MebibyteExample()
    ensures ParseMem("512M") == Ok(536870912)
  {
    ParseFormatted(512, 2);
    assert Format(5) == "5";
    assert Format(51) == "51";
    assert Format(512) == "512";
    assert Format(512) + SuffixText(2) == "512M";
    SuffixMultipliers();
    assert (512 * Pow2(20)) % U64_MODULUS == 536870912;
  }

  /** "100" has no suffix and is 100 bytes. */
  lemma PlainBytesExample()
    ensures ParseMem("100") == Ok(100)
  {
    ParseFormatted(100, 0);
    assert Format(1) == "1";
    assert Format(10) == "10";
    assert Format(100) == "100";
    assert Format(100) + SuffixText(0) == "100";
    assert Pow2(10 * 0) == 1;
    assert (100 * 1) % U64_MODULUS == 100;
  }

  lemma Pow2Is64Bit()
    ensures Pow2(64) == U64_MODULUS
  {
    SuffixMultipliers();
    Pow2Add(40, 24);
    Pow2Add(20, 4);
    assert Pow2(4) == 16;
  }

  lemma MulAtLeast(d: int, m: int)
    requires d >= 1 && m > 0
    ensures d * m >= m
  {
  }

  /** Euclidean division has only one quotient and remainder. */
  lemma DivModUnique(n: int, m: int, q: int, r: int)
    requires m > 0 && n == q * m + r && 0 <= r < m
    ensures n % m == r
  {
    var q', r' := n / m, n % m;
    assert (q - q') * m == r' - r;
    if q > q' {
      MulAtLeast(q - q', m);
    } else if q' > q {
      MulAtLeast(q' - q, m);
    }
  }

  lemma ProductSplit(x: nat, q: nat, p: nat)
    requires q > 0
    ensures x * p == (x / q) * (q * p) + (x % q) * p
  {
    assert x == (x / q) * q + x % q;
    assert x * p == ((x / q) * q) * p + (x % q) * p;
  }

  lemma ProductBelow(lo: nat, q: nat, p: nat)
    requires lo < q
    ensures lo * p <= (q - 1) * p < q * p || p == 0
  {
  }

  /** Multiplying by p and reducing modulo q * p keeps the remainder of x modulo q, times p. */
  lemma MulMod(x: nat, q: nat, p: nat)
    requires q > 0 && p > 0
    ensures (x * p) % (q * p) == (x % q) * p
  {
    ProductSplit(x, q, p);
    ProductBelow(x % q, q, p);
    DivModUnique(x * p, q * p, x / q, (x % q) * p);
  }

  /**
   * Shifting never fails: the bits shifted past bit 63 are simply lost, so
   * the result is the low 64 - shift bits of the number, moved up by shift.
   */
  lemma ShiftKeepsLowBits(x: U64, shift: nat)
    requires shift < 64
    ensures ShiftLeft(x, shift) == (x % Pow2(64 - shift)) * Pow2(shift)
  {
    var p, q := Pow2(shift), Pow2(64 - shift);
    Pow2Add(64 - shift, shift);
    assert 64 - shift + shift == 64;
    Pow2Is64Bit();
    assert U64_MODULUS == q * p;
    MulMod(x, q, p);
  }
}
