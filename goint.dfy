/** Go's 64-bit `int` arithmetic and the two `strconv` conversions the
    core relies on (`Atoi` with its error dropped, and `Itoa`). Every
    operator is written out on mathematical integers, so that the
    wrap-around of the source is explicit. */
module GoInt {

  const TwoTo31: int := 0x8000_0000
  const TwoTo32: int := 0x1_0000_0000
  const TwoTo63: int := 0x8000_0000_0000_0000
  const TwoTo64: int := 0x1_0000_0000_0000_0000

  /** The values of Go's `int` on a 64-bit platform. */
  type Int64 = x: int | -TwoTo63 <= x < TwoTo63

  function Pow2(n: nat): (r: nat)
    ensures r >= 1
  {
    if n == 0 then 1 else 2 * Pow2(n - 1)
  }

  lemma {:induction false} Pow2Add(m: nat, n: nat)
    ensures Pow2(m + n) == Pow2(m) * Pow2(n)
  {
    if m > 0 {
      Pow2Add(m - 1, n);
    }
  }

  lemma Pow2Facts()
    ensures Pow2(31) == TwoTo31 && Pow2(32) == TwoTo32
  {
    assert Pow2(16) == 0x1_0000 && Pow2(15) == 0x8000;
    Pow2Add(16, 15);
    Pow2Add(16, 16);
  }

  /** The int64 whose two's-complement bits are those of `x` modulo 2^64. */
  function Wrap64(x: int): (r: Int64)
    ensures (r - x) % TwoTo64 == 0
    ensures -TwoTo63 <= x < TwoTo63 ==> r == x
  {
    (x + TwoTo63) % TwoTo64 - TwoTo63
  }

  /** `a << n`: the product wraps around (and is 0 once n >= 64). */
  function Shl(a: Int64, n: nat): (r: Int64)
    ensures (r - a * Pow2(n)) % TwoTo64 == 0
    ensures 0 <= a && a * Pow2(n) < TwoTo63 ==> r == a * Pow2(n)
  {
    Wrap64(a * Pow2(n))
  }

  lemma MulMono(d: int, q: int)
    requires d >= 1
    ensures q >= 0 ==> d * q >= q
    ensures q < 0 ==> d * q <= q
  {
  }

  /** Dividing by a positive number moves toward zero without crossing it. */
  lemma DivShrinks(a: int, d: int)
    requires d >= 1
    ensures a >= 0 ==> 0 <= a / d <= a
    ensures a < 0 ==> a <= a / d < 0
  {
    var q, r := a / d, a % d;
    assert a == d * q + r && 0 <= r < d;
    MulMono(d, q);
    if q < 0 {
      MulMono(d, q + 1);
    }
  }

  /** `a >> n` on a signed integer: an arithmetic shift, which is the
      quotient rounded toward minus infinity (Dafny's `/` by a positive
      divisor). */
  function Shr(a: Int64, n: nat): (r: Int64)
    ensures r * Pow2(n) <= a < r * Pow2(n) + Pow2(n)
    ensures a >= 0 ==> 0 <= r <= a
  {
    DivShrinks(a, Pow2(n));
    a / Pow2(n)
  }

  /** `a % m` for m > 0: Go's remainder has the sign of the dividend. */
  function Rem(a: Int64, m: int): (r: Int64)
    requires m > 0
    ensures a == Quot(a, m) * m + r
    ensures a >= 0 ==> 0 <= r < m && r == a % m
    ensures a < 0 ==> -m < r <= 0
  {
    if a >= 0 then a % m
    else
      DivShrinks(-(a as int), m);
      -((-(a as int)) % m)
  }

  /** Euclidean division by a positive divisor has one quotient. */
  lemma DivUnique(a: int, m: int, q: int, r: int)
    requires m > 0 && a == m * q + r && 0 <= r < m
    ensures a / m == q && a % m == r
  {
    var q', r' := a / m, a % m;
    assert m * (q - q') == r' - r;
    if q' < q {
      MulMono(q - q', m);
    } else if q < q' {
      MulMono(q' - q, m);
    }
  }

  /** `a / m` for m > 0: Go's quotient is truncated toward zero. */
  function Quot(a: Int64, m: int): (q: Int64)
    requires m > 0
    ensures var rest := a - q * m; -m < rest < m && (a >= 0 ==> rest >= 0) && (a < 0 ==> rest <= 0)
  {
    if a >= 0 then
      DivShrinks(a, m);
      a / m
    else
      DivShrinks(-(a as int), m);
      -((-(a as int)) / m)
  }

  /** `a & (2^k - 1)`: the low k bits of a's two's-complement bits. */
  function LowBits(a: int, k: nat): (r: nat)
    ensures r < Pow2(k)
  {
    a % Pow2(k)
  }

  /** `x | y` where every bit of `y` lies above the low k bits that hold
      `x`: the two bit sets are disjoint, so the union is the sum. */
  function OrDisjoint(x: nat, y: nat, k: nat): nat
    requires x < Pow2(k) && y % Pow2(k) == 0
  {
    x + y
  }

  /** The two's-complement bit pattern of an int64. */
  function ToBits(a: Int64): bv64
  {
    if a >= 0 then a as bv64 else (a + TwoTo64) as bv64
  }

  /** The int64 a two's-complement bit pattern stands for. */
  function FromBits(b: bv64): Int64
  {
    if b < 0x8000_0000_0000_0000 then b as int else b as int - TwoTo64
  }

  /** `a ^ b` on int64, computed on the two's-complement bit patterns: the
      sign bit of two non-negative values stays clear, and no bit above
      the 32 low ones is set when none was. */
  function Xor(a: Int64, b: Int64): (r: Int64)
    ensures 0 <= a && 0 <= b ==> 0 <= r
    ensures 0 <= a < TwoTo32 && 0 <= b < TwoTo32 ==> r < TwoTo32
  {
    FromBits(ToBits(a) ^ ToBits(b))
  }

  // ---------------------------------------------------------- strings, strconv

  /** `strings.IndexByte(s, c)`, with |s| standing for "absent". */
  function IndexOf(s: string, c: char): (i: nat)
    ensures i <= |s|
    ensures i < |s| ==> s[i] == c
    ensures forall j :: 0 <= j < i ==> s[j] != c
  {
    if s == [] then 0
    else if s[0] == c then 0
    else 1 + IndexOf(s[1..], c)
  }

  predicate IsDigit(c: char)
  {
    '0' <= c <= '9'
  }

  predicate AllDigits(s: string)
  {
    forall i :: 0 <= i < |s| ==> IsDigit(s[i])
  }

  /** The value of a string of decimal digits, most significant first. */
  function DigitsValue(s: string): nat
    requires AllDigits(s)
  {
    if s == [] then 0
    else 10 * DigitsValue(s[..|s| - 1]) + (s[|s| - 1] as int - '0' as int)
  }

  /** The number of decimal digits s starts with. */
  function LeadingDigits(s: string): (k: nat)
    ensures k <= |s| && AllDigits(s[..k])
    ensures k < |s| ==> !IsDigit(s[k])
  {
    if s == [] || !IsDigit(s[0]) then 0
    else
      var k := 1 + LeadingDigits(s[1..]);
      assert s[..k] == [s[0]] + s[1..][..k - 1];
      k
  }

  /** s without one leading '+' or '-'. */
  function Unsigned(s: string): string
  {
    if |s| > 0 && (s[0] == '+' || s[0] == '-') then s[1..] else s
  }

  /** The decimal digits that follow the optional sign of s, up to the
      first other character: what `ParseUint` accumulates before it meets
      either the end or a syntax error. */
  function LeadingRun(s: string): (run: string)
    ensures AllDigits(run)
    ensures AllDigits(Unsigned(s)) ==> run == Unsigned(s)
  {
    var u := Unsigned(s);
    assert AllDigits(u) ==> LeadingDigits(u) == |u|;
    u[..LeadingDigits(u)]
  }

  /** What `strconv.Atoi(s)` returns as its int when its error is
      ignored. An optional sign followed by at least one decimal digit
      gives the value, saturated to the int64 range. A sign followed by a
      run of digits whose value reaches 2^64 saturates the same way
      whatever follows the run, because `ParseUint` reports the overflow
      as soon as its accumulator passes 2^64 - 1, before it reads further.
      Anything else gives 0. */
  function S2Int(s: string): (r: Int64)
    ensures r < 0 ==> |s| > 1 && s[0] == '-'
    ensures AllDigits(s) && s != [] && DigitsValue(s) < TwoTo63 ==> r == DigitsValue(s)
    ensures AllDigits(s) && s != [] && DigitsValue(s) >= TwoTo63 ==> r == TwoTo63 - 1
    ensures |s| > 1 && s[0] == '+' && AllDigits(s[1..]) ==>
      r == if DigitsValue(s[1..]) < TwoTo63 then DigitsValue(s[1..]) else TwoTo63 - 1
    ensures |s| > 1 && s[0] == '-' && AllDigits(s[1..]) ==>
      r == if DigitsValue(s[1..]) <= TwoTo63 then -(DigitsValue(s[1..]) as int) else -TwoTo63
    ensures DigitsValue(LeadingRun(s)) >= TwoTo64 ==>
      r == if s[0] == '-' then -TwoTo63 else TwoTo63 - 1
    ensures (DigitsValue(LeadingRun(s)) < TwoTo64 &&
             !(|s| > 0 && (AllDigits(s) || ((s[0] == '+' || s[0] == '-') && AllDigits(s[1..]) && |s| > 1))))
      ==> r == 0
  {
    var neg := |s| > 0 && s[0] == '-';
    var u, run := Unsigned(s), LeadingRun(s);
    var m: int := DigitsValue(run);
    if m >= TwoTo64 then (if neg then -TwoTo63 else TwoTo63 - 1)
    else if run == u && u != [] then
      if neg then (if m > TwoTo63 then -TwoTo63 else -m)
      else (if m >= TwoTo63 then TwoTo63 - 1 else m)
    else 0
  }

  /** A run of digits worth 2^64 or more saturates `Atoi` even when a
      non-digit follows it, so "99999999999999999999e5" gives 2^63 - 1
      and "-99999999999999999999e5" gives -2^63, where a shorter run
      would give 0. */
  lemma OverflowBeforeSyntax(sign: string, run: string, rest: string)
    requires sign == "" || sign == "+" || sign == "-"
    requires AllDigits(run) && DigitsValue(run) >= TwoTo64
    requires rest != [] && !IsDigit(rest[0])
    ensures S2Int(sign + run + rest) == if sign == "-" then -TwoTo63 else TwoTo63 - 1
  {
    var s := run + rest;
    RunBeforeNonDigit(run, rest);
    assert LeadingRun(s) == run by {
      assert s[0] == run[0];
    }
    var x := sign + s;
    assert sign + run + rest == x;
    if sign != "" {
      SignedRun(sign, s);
      assert x[0] == sign[0];
    } else {
      assert x == s && x[0] == run[0];
    }
    assert LeadingRun(x) == run;
  }

  /** A sign does not change the digits that follow it. */
  lemma SignedRun(sign: string, s: string)
    requires sign == "-" || sign == "+"
    requires s != [] && IsDigit(s[0])
    ensures LeadingRun(sign + s) == LeadingRun(s)
  {
    assert (sign + s)[1..] == s;
  }

  /** The leading digits of run + rest are run when rest starts with a
      non-digit. */
  lemma RunBeforeNonDigit(run: string, rest: string)
    requires AllDigits(run)
    requires rest != [] && !IsDigit(rest[0])
    ensures LeadingDigits(run + rest) == |run|
    ensures (run + rest)[..|run|] == run
  {
  }

  function DigitChar(d: nat): (c: char)
    requires d < 10
    ensures IsDigit(c) && c as int - '0' as int == d
  {
    (d + '0' as int) as char
  }

  /** The decimal numeral of n, without leading zeros. */
  function NatString(n: nat): (s: string)
    ensures AllDigits(s) && s != []
    ensures |s| > 1 ==> s[0] != '0'
  {
    if n < 10 then [DigitChar(n)] else NatString(n / 10) + [DigitChar(n % 10)]
  }

  /** `strconv.Itoa`: an optional '-' and the digits of |n|. */
  function Itoa(n: int): (s: string)
    ensures n >= 0 ==> AllDigits(s) && s != [] && DigitsValue(s) == n
    ensures n < 0 ==> |s| > 1 && s[0] == '-' && AllDigits(s[1..]) && DigitsValue(s[1..]) == -n
  {
    if n < 0 then
      NatStringValue(-n);
      assert ("-" + NatString(-n))[1..] == NatString(-n);
      "-" + NatString(-n)
    else
      NatStringValue(n);
      NatString(n)
  }

  /** Reading back the numeral of n gives n. */
  lemma {:induction false} NatStringValue(n: nat)
    ensures DigitsValue(NatString(n)) == n
  {
    var s := NatString(n);
    if n >= 10 {
      NatStringValue(n / 10);
      assert s[..|s| - 1] == NatString(n / 10);
    }
  }

  /** `Atoi(Itoa(n)) == n` for every int64 n. */
  lemma ItoaRoundTrip(n: Int64)
    ensures S2Int(Itoa(n)) == n
  {
  }
}
