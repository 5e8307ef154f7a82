/** The request token ("tk") that the translation endpoint demands with
    every query: a fold of the UTF-8 bytes of the text into a 32-bit
    accumulator, keyed by the session secret "tkk" = "A.B". */
module Tk {
  import opened Common
  import opened GoInt

  // ------------------------------------------------------------ UTF-16 units

  /** A UTF-16 code unit. */
  type Unit = x: int | 0 <= x < 0x10000

  /** The units one code point becomes: itself below 0x10000, otherwise a
      surrogate pair, high unit first. */
  function CharUnits(c: char): (u: seq<Unit>)
    ensures c as int < 0x10000 ==> u == [c as int]
    ensures c as int >= 0x10000 ==>
      |u| == 2 && 0xD800 <= u[0] <= 0xDBFF && 0xDC00 <= u[1] <= 0xDFFF &&
      0x10000 + (u[0] as int - 0xD800) * 0x400 + (u[1] as int - 0xDC00) == c as int
  {
    var v := c as int;
    if v < 0x10000 then [v]
    else [(v - 0x10000) / 0x400 + 0xD800, (v - 0x10000) % 0x400 + 0xDC00]
  }

  /** The UTF-16 form of a text, code point by code point. */
  function Units(s: string): (a: seq<Unit>)
  {
    if s == [] then [] else CharUnits(s[0]) + Units(s[1..])
  }

  lemma {:induction false} UnitsAppend(s: string, c: char)
    ensures Units(s + [c]) == Units(s) + CharUnits(c)
  {
    if s != [] {
      assert (s + [c])[1..] == s[1..] + [c];
      UnitsAppend(s[1..], c);
    } else {
      assert (s + [c])[1..] == [];
    }
  }

  // ------------------------------------------------------------------ bytes

  /** `l & 64512` (0xFC00) for a unit, which has no bit above bit 15: the
      unit with its low ten bits cleared. */
  function Mask64512(l: Unit): int
  {
    l - LowBits(l, 10)
  }

  lemma Mask64512Range(l: Unit)
    ensures Mask64512(l) == 55296 <==> 0xD800 <= l <= 0xDBFF
    ensures Mask64512(l) == 56320 <==> 0xDC00 <= l <= 0xDFFF
  {
    assert Pow2(10) == 1024;
  }

  predicate IsByteSeq(e: seq<int>)
  {
    forall i :: 0 <= i < |e| ==> 0 <= e[i] < 256
  }

  /** The four bytes of a surrogate pair recombined into code point `p`. */
  function FourBytes(p: int): (e: seq<int>)
    requires 0x10000 <= p <= 0x10FFFF
    ensures |e| == 4 && IsByteSeq(e)
  {
    assert Pow2(4) == 16 && Pow2(6) == 64 && Pow2(12) == 4096 && Pow2(18) == 262144;
    [OrDisjoint(Shr(p, 18), 240, 4), OrDisjoint(LowBits(Shr(p, 12), 6), 128, 6),
     OrDisjoint(LowBits(Shr(p, 6), 6), 128, 6), OrDisjoint(LowBits(p, 6), 128, 6)]
  }

  /** The code point a high and a low unit stand for. */
  function Combine(high: Unit, low: Unit): (p: int)
    ensures 0x10000 <= p <= 0x10FFFF
  {
    assert Pow2(10) == 1024;
    65536 + Shl(LowBits(high, 10), 10) + LowBits(low, 10)
  }

  /** The three bytes of a unit that is neither below 2048 nor the start
      of a surrogate pair. */
  function ThreeBytes(l: Unit): (e: seq<int>)
    requires l >= 2048
    ensures |e| == 3 && IsByteSeq(e)
  {
    assert Pow2(5) == 32 && Pow2(6) == 64 && Pow2(12) == 4096;
    [OrDisjoint(Shr(l, 12), 224, 5), OrDisjoint(LowBits(Shr(l, 6), 6), 128, 6),
     OrDisjoint(LowBits(l, 6), 128, 6)]
  }

  function TwoBytes(l: Unit): (e: seq<int>)
    requires 128 <= l < 2048
    ensures |e| == 2 && IsByteSeq(e)
  {
    assert Pow2(6) == 64;
    [OrDisjoint(Shr(l, 6), 192, 6), OrDisjoint(LowBits(l, 6), 128, 6)]
  }

  predicate IsPairAt(a: seq<Unit>, g: nat)
    requires g < |a|
  {
    Mask64512(a[g]) == 55296 && g + 1 < |a| && Mask64512(a[g + 1]) == 56320
  }

  /** The byte sequence the second loop of Get builds from the units. */
  function Encode(a: seq<Unit>): seq<int>
    decreases |a|
  {
    if a == [] then []
    else
      var l := a[0];
      if l < 128 then [l] + Encode(a[1..])
      else if l < 2048 then TwoBytes(l) + Encode(a[1..])
      else if IsPairAt(a, 0) then FourBytes(Combine(l, a[1])) + Encode(a[2..])
      else ThreeBytes(l) + Encode(a[1..])
  }

  /** Every element of the byte sequence is a byte. */
  lemma {:induction false} EncodeBytes(a: seq<Unit>)
    ensures IsByteSeq(Encode(a))
    decreases |a|
  {
    if a != [] {
      var l := a[0];
      if l < 128 {
        EncodeBytes(a[1..]);
      } else if l < 2048 || !IsPairAt(a, 0) {
        EncodeBytes(a[1..]);
      } else {
        EncodeBytes(a[2..]);
      }
    }
  }

  /** UTF-8 of one scalar value, by the table of section 3 of RFC 3629. */
  function Utf8Char(c: char): seq<int>
  {
    var v := c as int;
    if v < 0x80 then [v]
    else if v < 0x800 then [0xC0 + v / 0x40, 0x80 + v % 0x40]
    else if v < 0x10000 then [0xE0 + v / 0x1000, 0x80 + v / 0x40 % 0x40, 0x80 + v % 0x40]
    else [0xF0 + v / 0x40000, 0x80 + v / 0x1000 % 0x40, 0x80 + v / 0x40 % 0x40, 0x80 + v % 0x40]
  }

  function Utf8(s: string): seq<int>
  {
    if s == [] then [] else Utf8Char(s[0]) + Utf8(s[1..])
  }

  /** The encoding of a text is the encodings of its parts, in order. */
  lemma {:induction false} Utf8Append(s: string, t: string)
    ensures Utf8(s + t) == Utf8(s) + Utf8(t)
  {
    if s == [] {
      assert s + t == t;
    } else {
      assert (s + t)[0] == s[0] && (s + t)[1..] == s[1..] + t;
      Utf8Append(s[1..], t);
      ConcatAssoc(Utf8Char(s[0]), Utf8(s[1..]), Utf8(t));
    }
  }

  lemma TwoBytesTable(l: Unit)
    requires 128 <= l < 2048
    ensures TwoBytes(l) == [0xC0 + l / 0x40, 0x80 + l % 0x40]
  {
    assert Pow2(6) == 64;
  }

  lemma ThreeBytesTable(l: Unit)
    requires l >= 2048
    ensures ThreeBytes(l) == [0xE0 + l / 0x1000, 0x80 + l / 0x40 % 0x40, 0x80 + l % 0x40]
  {
    assert Pow2(6) == 64 && Pow2(12) == 4096;
  }

  lemma FourBytesTable(p: int)
    requires 0x10000 <= p <= 0x10FFFF
    ensures FourBytes(p)
         == [0xF0 + p / 0x40000, 0x80 + p / 0x1000 % 0x40, 0x80 + p / 0x40 % 0x40, 0x80 + p % 0x40]
  {
    assert Pow2(6) == 64 && Pow2(12) == 4096 && Pow2(18) == 262144;
  }

  /** The bytes of one code point's units are its UTF-8 bytes. */
  lemma EncodeChar(c: char, rest: seq<Unit>)
    ensures Encode(CharUnits(c) + rest) == Utf8Char(c) + Encode(rest)
  {
    if c as int < 0x10000 {
      EncodeBmpChar(c, rest);
    } else {
      EncodeAstralChar(c, rest);
    }
  }

  lemma EncodeBmpChar(c: char, rest: seq<Unit>)
    requires c as int < 0x10000
    ensures Encode(CharUnits(c) + rest) == Utf8Char(c) + Encode(rest)
  {
    var v := c as int;
    var a := [v] + rest;
    assert CharUnits(c) == [v];
    assert a[0] == v && a[1..] == rest;
    if v < 128 {
    } else if v < 2048 {
      TwoBytesTable(v);
    } else {
      Mask64512Range(v);
      assert !IsPairAt(a, 0);
      ThreeBytesTable(v);
    }
  }

  /** The two units of a code point above 0xFFFF are recognised as a
      pair and recombine into it. */
  lemma SurrogatePair(c: char)
    requires c as int >= 0x10000
    ensures Mask64512(CharUnits(c)[0]) == 55296 && Mask64512(CharUnits(c)[1]) == 56320
    ensures Combine(CharUnits(c)[0], CharUnits(c)[1]) == c as int
  {
    var u := CharUnits(c);
    Mask64512Range(u[0]);
    Mask64512Range(u[1]);
    assert Pow2(10) == 1024;
  }

  lemma Utf8CharAstral(c: char)
    requires c as int >= 0x10000
    ensures Utf8Char(c) == FourBytes(c as int)
  {
    FourBytesTable(c as int);
  }

  lemma EncodeAstralChar(c: char, rest: seq<Unit>)
    requires c as int >= 0x10000
    ensures Encode(CharUnits(c) + rest) == Utf8Char(c) + Encode(rest)
  {
    var u := CharUnits(c);
    var a := u + rest;
    assert a[0] == u[0] && a[1] == u[1] && a[2..] == rest && a[0..] == a;
    SurrogatePair(c);
    EncodeAt(a, 0);
    Utf8CharAstral(c);
  }

  /** For every text, the bytes are exactly its UTF-8 encoding. */
  lemma {:induction false} EncodeIsUtf8(s: string)
    ensures Encode(Units(s)) == Utf8(s)
  {
    if s != [] {
      EncodeChar(s[0], Units(s[1..]));
      EncodeIsUtf8(s[1..]);
    }
  }

  /** ASCII text passes through unchanged. */
  lemma {:induction false} AsciiPassesThrough(s: string)
    requires forall i :: 0 <= i < |s| ==> s[i] as int < 128
    ensures Encode(Units(s)) == seq(|s|, i requires 0 <= i < |s| => s[i] as int)
  {

    if s != [] {
      AsciiPassesThrough(s[1..]);
    }
  }

  // ---------------------------------------------------------- the tkk secret

  /** `strings.Split(s, ".")`. */
  function Split(s: string): (parts: seq<string>)
    ensures |parts| >= 1
    ensures forall i :: 0 <= i < |parts| ==> '.' !in parts[i]
  {
    if s == [] then [""]
    else
      var rest := Split(s[1..]);
      if s[0] == '.' then [""] + rest
      else [[s[0]] + rest[0]] + rest[1..]
  }

  function Join(parts: seq<string>): string
    requires |parts| >= 1
  {
    if |parts| == 1 then parts[0] else parts[0] + "." + Join(parts[1..])
  }

  /** Joining the parts with "." gives the secret back. */
  lemma {:induction false} SplitJoin(s: string)
    ensures Join(Split(s)) == s
  {
    if s != [] {
      SplitJoin(s[1..]);
      var rest := Split(s[1..]);
      if s[0] != '.' && |rest| > 1 {
        assert Join(rest) == rest[0] + "." + Join(rest[1..]);
        assert Join([[s[0]] + rest[0]] + rest[1..])
            == ([s[0]] + rest[0]) + "." + Join(rest[1..]);
      }
      if s[0] != '.' && |rest| == 1 {
        assert Join([[s[0]] + rest[0]] + rest[1..]) == [s[0]] + rest[0];
      }
    }
  }

  lemma SplitAt(d1: string, d2: string)
    requires '.' !in d1 && '.' !in d2
    ensures Split(d1 + "." + d2) == [d1, d2]
  {
    if d1 == [] {
      assert (d1 + "." + d2)[1..] == d2;
      SplitNoDot(d2);
    } else {
      assert (d1 + "." + d2)[1..] == d1[1..] + "." + d2;
      SplitAt(d1[1..], d2);
      assert [d1[0]] + d1[1..] == d1;
    }
  }

  lemma SplitNoDot(s: string)
    requires '.' !in s
    ensures Split(s) == [s]
  {
    if s != [] {
      SplitNoDot(s[1..]);
      assert [s[0]] + s[1..] == s;
    }
  }

  /** An exponent: an optional sign and at least one digit. */
  predicate IsExponent(x: string)
  {
    if |x| > 0 && (x[0] == '+' || x[0] == '-') then |x| > 1 && AllDigits(x[1..])
    else |x| > 0 && AllDigits(x)
  }

  /** Digits with at most one '.', at least one digit. */
  predicate IsMantissa(m: string)
  {
    var dot := IndexOf(m, '.');
    if dot == |m| then m != [] && AllDigits(m)
    else |m| > 1 && AllDigits(m[..dot]) && AllDigits(m[dot + 1..])
  }

  /** The decimal literals strconv.ParseFloat accepts: an optional sign, a
      mantissa, and an optional exponent after 'e' or 'E'. */
  predicate IsDecimalFloat(s: string)
  {
    var body := if |s| > 0 && (s[0] == '+' || s[0] == '-') then s[1..] else s;
    var e := Min(IndexOf(body, 'e'), IndexOf(body, 'E'));
    IsMantissa(body[..e]) && (e == |body| || IsExponent(body[e + 1..]))
  }

  function Min(x: nat, y: nat): nat
  {
    if x < y then x else y
  }

  /** "digits.digits" is a decimal literal. */
  lemma DigitsAreDecimalFloat(d1: string, d2: string)
    requires d1 != [] && d2 != [] && AllDigits(d1) && AllDigits(d2)
    ensures IsDecimalFloat(d1 + "." + d2)
  {
    var s := d1 + "." + d2;
    assert s[0] == d1[0] && IsDigit(s[0]);
    assert IndexOf(s, 'e') == |s| by { NoLetter(s, 'e'); }
    assert IndexOf(s, 'E') == |s| by { NoLetter(s, 'E'); }
    assert s[..|s|] == s;
    assert IsMantissa(s) by {
      assert IndexOf(s, '.') == |d1| by {
        assert s[|d1|] == '.';
        assert forall j :: 0 <= j < |d1| ==> s[j] == d1[j];
      }
      assert s[..|d1|] == d1 && s[|d1| + 1..] == d2;
    }
  }

  /** "0", the value the tkk cache starts from, is a decimal literal. */
  lemma ZeroIsDecimalFloat()
    ensures IsDecimalFloat("0")
  {
    assert IndexOf("0", 'e') == 1 && IndexOf("0", 'E') == 1 && IndexOf("0", '.') == 1;
  }

  /** Every mantissa on its own (no sign, no exponent) is a decimal
      literal. */
  lemma MantissaIsDecimalFloat(m: string)
    requires IsMantissa(m)
    ensures IsDecimalFloat(m)
  {
    var dot := IndexOf(m, '.');
    forall i | 0 <= i < |m|
      ensures IsDigit(m[i]) || m[i] == '.'
    {
      if dot < |m| {
        if i < dot {
          assert m[..dot][i] == m[i];
        } else if i > dot {
          assert m[dot + 1..][i - dot - 1] == m[i];
        }
      } else {
        assert IsDigit(m[i]);
      }
    }
    NoLetter(m, 'e');
    NoLetter(m, 'E');
    assert m[..|m|] == m;
  }

  lemma NoLetter(s: string, c: char)
    requires c !in s
    ensures IndexOf(s, c) == |s|
  {
  }

  /** The numbers A and B of a secret "A.B": every dot-separated part goes
      through s2int, A is the first part when there are at least two, and
      B the second; both are 0 otherwise. */
  function TkkTerms(tkk: string): (ab: (Int64, Int64))
  {
    var parts := Split(tkk);
    if |parts| > 1 then (S2Int(parts[0]), S2Int(parts[1])) else (0, 0)
  }

  /** A secret "d1.d2" of digits yields A = d1 and B = d2 (short of int64
      saturation); a secret with no '.' yields A = B = 0. */
  lemma TkkTermsOf(d1: string, d2: string)
    requires d1 != [] && d2 != [] && AllDigits(d1) && AllDigits(d2)
    requires DigitsValue(d1) < TwoTo63 && DigitsValue(d2) < TwoTo63
    ensures TkkTerms(d1 + "." + d2) == (DigitsValue(d1), DigitsValue(d2))
    ensures forall s :: '.' !in s ==> TkkTerms(s) == (0, 0)
  {
    assert '.' !in d1 && '.' !in d2 by {
      assert forall i :: 0 <= i < |d1| ==> IsDigit(d1[i]);
      assert forall i :: 0 <= i < |d2| ==> IsDigit(d2[i]);
    }
    SplitAt(d1, d2);
    forall s | '.' !in s
      ensures TkkTerms(s) == (0, 0)
    {
      SplitNoDot(s);
    }
  }

  // ------------------------------------------------------------ the fold

  /** The program interpreter's shift amount: a letter from 'a' on stands
      for ord - 87 ('a' = 10, 'b' = 11, 'f' = 15), anything else goes
      through s2int (a digit is its value). */
  function ShiftAmount(d: char): (n: nat)
    ensures 'a' <= d ==> n == d as int - 87
    ensures IsDigit(d) ==> n == d as int - '0' as int
  {
    if 'a' <= d then d as int - 87
    else
      assert IsDigit(d) ==> AllDigits([d]) && DigitsValue([d]) == d as int - '0' as int by {
        if IsDigit(d) {
          assert [d][..0] == [];
        }
      }
      S2Int([d])
  }

  predicate IsAscii(b: string)
  {
    forall i :: 0 <= i < |b| ==> b[i] as int < 128
  }

  /** One three-character group of a program: the second character picks
      a right shift of `a mod 2^32` ('+') or a left shift (anything else),
      the first picks addition modulo 2^32 ('+') or exclusive or. */
  function XrGroup(a: Int64, op: char, dir: char, amount: char): (r: Int64)
    ensures op == '+' ==> 0 <= r < TwoTo32
  {
    Pow2Facts();
    var n := ShiftAmount(amount);
    var shifted := if dir == '+' then Shr(Rem(a, TwoTo32), n) else Shl(a, n);
    if op == '+' then LowBits(Wrap64(a + shifted), 32) else Xor(a, shifted)
  }

  /** The value `xr(a, b)` returns: the groups of b applied left to right;
      a trailing group of fewer than three characters is ignored. */
  function XrSpec(a: Int64, b: string): Int64
    decreases |b|
  {
    if |b| < 3 then a else XrSpec(XrGroup(a, b[0], b[1], b[2]), b[3..])
  }

  method Xr(a: Int64, b: string) returns (r: Int64)
    requires IsAscii(b)
    ensures r == XrSpec(a, b)
  {
    r := a;
    var c := 0;
    while c < |b| - 2
      invariant 0 <= c <= |b|
      invariant XrSpec(r, b[c..]) == XrSpec(a, b)
    {
      assert b[c..][3..] == b[c + 3..];
      r := XrGroup(r, b[c], b[c + 1], b[c + 2]);
      c := c + 3;
    }
  }

  const FoldProgram: string := "+-a^+6"
  const FinalProgram: string := "+-3^+b+-f"

  lemma ProgramsAscii()
    ensures IsAscii(FoldProgram) && IsAscii(FinalProgram)
  {
  }

  lemma FoldProgramGroups(a: Int64)
    ensures XrSpec(a, FoldProgram) == XrGroup(XrGroup(a, '+', '-', 'a'), '^', '+', '6')
  {
    assert FoldProgram[3..] == "^+6";
    assert FoldProgram[3..][3..] == [];
  }

  lemma FinalProgramGroups(a: Int64)
    ensures XrSpec(a, FinalProgram)
         == XrGroup(XrGroup(XrGroup(a, '+', '-', '3'), '^', '+', 'b'), '+', '-', 'f')
  {
    assert FinalProgram[3..] == "^+b+-f";
    assert FinalProgram[3..][3..] == "+-f";
    assert FinalProgram[3..][3..][3..] == [];
  }

  /** An exclusive-or group with a right shift keeps a 32-bit value in 32 bits. */
  lemma XorShiftGroupBound(a: Int64, amount: char)
    requires 0 <= a < TwoTo32
    ensures 0 <= XrGroup(a, '^', '+', amount) < TwoTo32
  {
    var n := ShiftAmount(amount);
    assert 0 <= Shr(Rem(a, TwoTo32), n) <= a;
  }

  /** Whatever the accumulator was, the fold program leaves it in [0, 2^32). */
  lemma FoldProgramRange(a: Int64)
    ensures 0 <= XrSpec(a, FoldProgram) < TwoTo32
  {
    FoldProgramGroups(a);
    XorShiftGroupBound(XrGroup(a, '+', '-', 'a'), '6');
  }

  /** Whatever the accumulator was, the final program leaves it in [0, 2^32). */
  lemma FinalProgramRange(a: Int64)
    ensures 0 <= XrSpec(a, FinalProgram) < TwoTo32
  {
    FinalProgramGroups(a);
  }

  /** One byte folded into the accumulator. */
  function FoldByte(acc: Int64, b: int): (r: Int64)
    ensures 0 <= r < TwoTo32
  {
    FoldProgramRange(Wrap64(acc + b));
    XrSpec(Wrap64(acc + b), FoldProgram)
  }

  function Fold(acc: Int64, e: seq<int>): Int64
    decreases |e|
  {
    if e == [] then acc else Fold(FoldByte(acc, e[0]), e[1..])
  }

  /** After at least one byte, the accumulator is a 32-bit unsigned value. */
  lemma {:induction false} FoldRange(acc: Int64, e: seq<int>)
    requires e != [] || 0 <= acc < TwoTo32
    ensures 0 <= Fold(acc, e) < TwoTo32
    decreases |e|
  {
    if e != [] {
      FoldRange(FoldByte(acc, e[0]), e[1..]);
    }
  }

  /** `(x & 2147483647) + 2147483648` for a negative x: its low 31 bits
      with bit 31 set, a non-negative number. */
  function Unsign(x: Int64): (y: Int64)
    ensures 0 <= y
    ensures x >= 0 ==> y == x
    ensures x < 0 ==> TwoTo31 <= y < TwoTo32 && (y - x) % TwoTo31 == 0
  {
    Pow2Facts();
    if x < 0 then LowBits(x, 31) + TwoTo31 else x
  }

  /** The number the token is made of, from the accumulator after the
      final program: the exclusive or with B, the sign correction and the
      reduction modulo 10^6. */
  function Reduce(x: Int64, b: Int64): (z: Int64)
    ensures 0 <= z < 1000000
  {
    Rem(Unsign(Xor(x, b)), 1000000)
  }

  /** "<n>.<n xor A>" for the reduced number n. */
  function Finish(x: Int64, a: Int64, b: Int64): string
  {
    Format(Reduce(x, b), a)
  }

  /** `strconv.Itoa(a) + "." + strconv.Itoa(a^b)`: the number, a dot, and
      the number xor A. */
  function Format(z: Int64, a: Int64): string
  {
    Itoa(z) + "." + Itoa(Xor(z, a))
  }

  /** What `tk.Get(s, tkk)` returns. */
  function Token(s: string, tkk: string): (r: Result<string>)
    ensures r.Err? <==> !IsDecimalFloat(tkk)
    ensures r.Err? ==> r.error == InvalidTkk
  {
    if !IsDecimalFloat(tkk) then Err(InvalidTkk)
    else
      var (a, b) := TkkTerms(tkk);
      Ok(Finish(XrSpec(Fold(a, Encode(Units(s))), FinalProgram), a, b))
  }

  /** An accepted secret always gives "<n>.<n xor A>" for some n with
      0 <= n < 10^6, returned as `n`. */
  lemma TokenShape(s: string, tkk: string) returns (n: Int64)
    requires IsDecimalFloat(tkk)
    ensures 0 <= n < 1000000 && Token(s, tkk) == Ok(Format(n, TkkTerms(tkk).0))
  {
    var ab := TkkTerms(tkk);
    var x := XrSpec(Fold(ab.0, Encode(Units(s))), FinalProgram);
    n := Reduce(x, ab.1);
  }

  /** The first loop of Get: the UTF-16 units of the text. */
  method ExpandUnits(s: string) returns (a: seq<Unit>)
    ensures a == Units(s)
  {
    a := [];
    for i := 0 to |s|
      invariant a == Units(s[..i])
    {
      UnitsAppend(s[..i], s[i]);
      assert s[..i + 1] == s[..i] + [s[i]];
      var v := s[i] as int;
      if v < 0x10000 {
        a := a + [v];
      } else {
        a := a + [(v - 0x10000) / 0x400 + 0xD800];
        a := a + [(v - 0x10000) % 0x400 + 0xDC00];
      }
    }
    assert s[..|s|] == s;
  }

  /** Encode unrolled once at position g of the units. */
  lemma EncodeAt(a: seq<Unit>, g: nat)
    requires g < |a|
    ensures a[g] < 128 ==> Encode(a[g..]) == [a[g]] + Encode(a[g + 1..])
    ensures 128 <= a[g] < 2048 ==> Encode(a[g..]) == TwoBytes(a[g]) + Encode(a[g + 1..])
    ensures 2048 <= a[g] && IsPairAt(a, g) ==>
      Encode(a[g..]) == FourBytes(Combine(a[g], a[g + 1])) + Encode(a[g + 2..])
    ensures 2048 <= a[g] && !IsPairAt(a, g) ==>
      Encode(a[g..]) == ThreeBytes(a[g]) + Encode(a[g + 1..])
  {
    var t := a[g..];
    assert t[0] == a[g] && t[1..] == a[g + 1..];
    if g + 1 < |a| {
      assert t[1] == a[g + 1] && t[2..] == a[g + 2..];
    }
    assert IsPairAt(t, 0) == IsPairAt(a, g);
  }

  lemma ConcatAssoc(x: seq<int>, y: seq<int>, z: seq<int>)
    ensures (x + y) + z == x + (y + z)
  {
  }

  /** The second loop of Get: the bytes of the units; a surrogate pair is
      consumed in one step by advancing the index inside the body. */
  method EncodeUnits(a: seq<Unit>) returns (e: seq<int>)
    ensures e == Encode(a)
  {
    e := [];
    var g := 0;
    while g < |a|
      invariant 0 <= g <= |a|
      invariant e + Encode(a[g..]) == Encode(a)
    {
      var l := a[g];
      EncodeAt(a, g);
      var bytes;
      if l < 128 {
        bytes := [l];
      } else if l < 2048 {
        bytes := TwoBytes(l);
      } else if IsPairAt(a, g) {
        bytes := FourBytes(Combine(l, a[g + 1]));
        g := g + 1;
      } else {
        bytes := ThreeBytes(l);
      }
      ConcatAssoc(e, bytes, Encode(a[g + 1..]));
      e := e + bytes;
      g := g + 1;
    }
    assert a[|a|..] == [];
  }

  /** The third loop of Get: every byte folded into the accumulator. */
  method FoldBytes(seed: Int64, e: seq<int>) returns (acc: Int64)
    ensures acc == Fold(seed, e)
  {
    acc := seed;
    ProgramsAscii();
    for i := 0 to |e|
      invariant Fold(acc, e[i..]) == Fold(seed, e)
    {
      assert e[i..][1..] == e[i + 1..];
      acc := Wrap64(acc + e[i]);
      acc := Xr(acc, FoldProgram);
    }
  }

  /** tk.Get: the text's units, their bytes, the fold and the final mix. */
  method Get(s: string, tkk: string) returns (r: Result<string>)
    ensures r == Token(s, tkk)
  {
    if !IsDecimalFloat(tkk) {
      return Err(InvalidTkk);
    }
    var a := ExpandUnits(s);
    var e := EncodeUnits(a);
    var tkkl, b := SplitTkk(tkk);
    var acc := FoldBytes(tkkl, e);
    ProgramsAscii();
    acc := Xr(acc, FinalProgram);
    acc := Mix(acc, b);
    r := Ok(Itoa(acc) + "." + Itoa(Xor(acc, tkkl)));
  }

  /** The loop of Get over the dot-separated parts of the secret: every
      part goes through s2int; A and B are the first two when there are at
      least two parts, and 0 otherwise. */
  method SplitTkk(tkk: string) returns (tkkl: Int64, b: Int64)
    ensures (tkkl, b) == TkkTerms(tkk)
  {
    var parts := Split(tkk);
    var pairs: seq<Int64> := [];
    for i := 0 to |parts|
      invariant |pairs| == i
      invariant forall j :: 0 <= j < i ==> pairs[j] == S2Int(parts[j])
    {
      pairs := pairs + [S2Int(parts[i])];
    }
    tkkl := 0;
    if |pairs| > 1 {
      tkkl := pairs[0];
    }
    b := if |pairs| > 1 then pairs[1] else 0;
  }

  /** The tail of Get after the final program: the exclusive or with B,
      the sign correction and the reduction modulo 10^6. */
  method Mix(x: Int64, b: Int64) returns (acc: Int64)
    ensures acc == Reduce(x, b)
  {
    acc := Xor(x, b);
    if acc < 0 {
      Pow2Facts();
      acc := LowBits(acc, 31) + TwoTo31;
    }
    assert acc == Unsign(Xor(x, b));
    acc := Rem(acc, 1000000);
  }
}
