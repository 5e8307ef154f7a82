/** The token of the package's own example, worked out on the model:
    tk.Get("hello\u00A0world", "443916.547221231") is "68957.510801".
    Every lemma takes the example's values as parameters pinned by its
    requires clause, and each arithmetic step is given as a hint. */
module TkVector {
  import opened Common
  import opened GoInt
  import opened Tk

  const Text: string := "hello\U{A0}world"
  const Secret: string := "443916.547221231"
  /** The UTF-8 of the text: the ASCII codes of "hello", then the two bytes
      of the no-break space and the ASCII codes of "world". */
  const TextBytes: seq<int> := [104, 101, 108, 108, 111] + [194, 160, 119, 111, 114, 108, 100]

  /** Folding one byte is the two groups of the fold program. */
  lemma FoldByteAt(acc: Int64, b: int, x: Int64, y: Int64, r: Int64)
    requires x == Wrap64(acc + b)
    requires XrGroup(x, '+', '-', 'a') == y
    requires XrGroup(y, '^', '+', '6') == r
    ensures FoldByte(acc, b) == r
  {
    FoldProgramGroups(x);
  }

  /** Byte k of the text folded into the accumulator after bytes 0..k-1;
      the hints are the shifted value, the 32-bit sum, the right shift and
      the exclusive or of the two groups. */
  lemma Byte0(acc: Int64, b: int)
    requires acc == 443916 && b == 104
    ensures FoldByte(acc, b) == 457970733
  {
    Pow2Facts();
    assert ShiftAmount('a') == 10 && ShiftAmount('6') == 6;
    assert Shl(444020, 10) == 454676480;
    assert LowBits(Wrap64(444020 + 454676480), 32) == 455120500;
    assert Shr(Rem(455120500, TwoTo32), 6) == 7111257;
    assert Xor(455120500, 7111257) == 457970733;
    FoldByteAt(acc, b, 444020, 455120500, 457970733);
  }

  lemma Byte1(acc: Int64, b: int)
    requires acc == 457970733 && b == 101
    ensures FoldByte(acc, b) == 1253058016
  {
    Pow2Facts();
    assert ShiftAmount('a') == 10 && ShiftAmount('6') == 6;
    assert Shl(457970834, 10) == 468962134016;
    assert LowBits(Wrap64(457970834 + 468962134016), 32) == 1268669586;
    assert Shr(Rem(1268669586, TwoTo32), 6) == 19822962;
    assert Xor(1268669586, 19822962) == 1253058016;
    FoldByteAt(acc, b, 457970834, 1268669586, 1253058016);
  }

  lemma Byte2(acc: Int64, b: int)
    requires acc == 1253058016 && b == 108
    ensures FoldByte(acc, b) == 191132437
  {
    Pow2Facts();
    assert ShiftAmount('a') == 10 && ShiftAmount('6') == 6;
    assert Shl(1253058124, 10) == 1283131518976;
    assert LowBits(Wrap64(1253058124 + 1283131518976), 32) == 189355596;
    assert Shr(Rem(189355596, TwoTo32), 6) == 2958681;
    assert Xor(189355596, 2958681) == 191132437;
    FoldByteAt(acc, b, 1253058124, 189355596, 191132437);
  }

  lemma Byte3(acc: Int64, b: int)
    requires acc == 191132437 && b == 108
    ensures FoldByte(acc, b) == 2672213599
  {
    Pow2Facts();
    assert ShiftAmount('a') == 10 && ShiftAmount('6') == 6;
    assert Shl(191132545, 10) == 195719726080;
    assert LowBits(Wrap64(191132545 + 195719726080), 32) == 2637330305;
    assert Shr(Rem(2637330305, TwoTo32), 6) == 41208286;
    assert Xor(2637330305, 41208286) == 2672213599;
    FoldByteAt(acc, b, 191132545, 2637330305, 2672213599);
  }

  lemma Byte4(acc: Int64, b: int)
    requires acc == 2672213599 && b == 111
    ensures FoldByte(acc, b) == 3098079509
  {
    Pow2Facts();
    assert ShiftAmount('a') == 10 && ShiftAmount('6') == 6;
    assert Shl(2672213710, 10) == 2736346839040;
    assert LowBits(Wrap64(2672213710 + 2736346839040), 32) == 3124885198;
    assert Shr(Rem(3124885198, TwoTo32), 6) == 48826331;
    assert Xor(3124885198, 48826331) == 3098079509;
    FoldByteAt(acc, b, 2672213710, 3124885198, 3098079509);
  }

  lemma Byte5(acc: Int64, b: int)
    requires acc == 3098079509 && b == 194
    ensures FoldByte(acc, b) == 1560382688
  {
    Pow2Facts();
    assert ShiftAmount('a') == 10 && ShiftAmount('6') == 6;
    assert Shl(3098079703, 10) == 3172433615872;
    assert LowBits(Wrap64(3098079703 + 3172433615872), 32) == 1550863831;
    assert Shr(Rem(1550863831, TwoTo32), 6) == 24232247;
    assert Xor(1550863831, 24232247) == 1560382688;
    FoldByteAt(acc, b, 3098079703, 1550863831, 1560382688);
  }

  lemma Byte6(acc: Int64, b: int)
    requires acc == 1560382688 && b == 160
    ensures FoldByte(acc, b) == 1656443830
  {
    Pow2Facts();
    assert ShiftAmount('a') == 10 && ShiftAmount('6') == 6;
    assert Shl(1560382848, 10) == 1597832036352;
    assert LowBits(Wrap64(1560382848 + 1597832036352), 32) == 1664585088;
    assert Shr(Rem(1664585088, TwoTo32), 6) == 26009142;
    assert Xor(1664585088, 26009142) == 1656443830;
    FoldByteAt(acc, b, 1560382848, 1664585088, 1656443830);
  }

  lemma Byte7(acc: Int64, b: int)
    requires acc == 1656443830 && b == 119
    ensures FoldByte(acc, b) == 1363949581
  {
    Pow2Facts();
    assert ShiftAmount('a') == 10 && ShiftAmount('6') == 6;
    assert Shl(1656443949, 10) == 1696198603776;
    assert LowBits(Wrap64(1656443949 + 1696198603776), 32) == 1342965805;
    assert Shr(Rem(1342965805, TwoTo32), 6) == 20983840;
    assert Xor(1342965805, 20983840) == 1363949581;
    FoldByteAt(acc, b, 1656443949, 1342965805, 1363949581);
  }

  lemma Byte8(acc: Int64, b: int)
    requires acc == 1363949581 && b == 111
    ensures FoldByte(acc, b) == 2150011101
  {
    Pow2Facts();
    assert ShiftAmount('a') == 10 && ShiftAmount('6') == 6;
    assert Shl(1363949692, 10) == 1396684484608;
    assert LowBits(Wrap64(1363949692 + 1396684484608), 32) == 2184063100;
    assert Shr(Rem(2184063100, TwoTo32), 6) == 34125985;
    assert Xor(2184063100, 34125985) == 2150011101;
    FoldByteAt(acc, b, 1363949692, 2184063100, 2150011101);
  }

  lemma Byte9(acc: Int64, b: int)
    requires acc == 2150011101 && b == 114
    ensures FoldByte(acc, b) == 436363898
  {
    Pow2Facts();
    assert ShiftAmount('a') == 10 && ShiftAmount('6') == 6;
    assert Shl(2150011215, 10) == 2201611484160;
    assert LowBits(Wrap64(2150011215 + 2201611484160), 32) == 443272527;
    assert Shr(Rem(443272527, TwoTo32), 6) == 6926133;
    assert Xor(443272527, 6926133) == 436363898;
    FoldByteAt(acc, b, 2150011215, 443272527, 436363898);
  }

  lemma Byte10(acc: Int64, b: int)
    requires acc == 436363898 && b == 108
    ensures FoldByte(acc, b) == 587451661
  {
    Pow2Facts();
    assert ShiftAmount('a') == 10 && ShiftAmount('6') == 6;
    assert Shl(436364006, 10) == 446836742144;
    assert LowBits(Wrap64(436364006 + 446836742144), 32) == 596507366;
    assert Shr(Rem(596507366, TwoTo32), 6) == 9320427;
    assert Xor(596507366, 9320427) == 587451661;
    FoldByteAt(acc, b, 436364006, 596507366, 587451661);
  }

  lemma Byte11(acc: Int64, b: int)
    requires acc == 587451661 && b == 100
    ensures FoldByte(acc, b) == 854685492
  {
    Pow2Facts();
    assert ShiftAmount('a') == 10 && ShiftAmount('6') == 6;
    assert Shl(587451761, 10) == 601550603264;
    assert LowBits(Wrap64(587451761 + 601550603264), 32) == 842633585;
    assert Shr(Rem(842633585, TwoTo32), 6) == 13166149;
    assert Xor(842633585, 13166149) == 854685492;
    FoldByteAt(acc, b, 587451761, 842633585, 854685492);
  }

  /** One step of Fold over a suffix of the bytes. */
  lemma StepAt(e: seq<int>, k: nat, acc: Int64, r: Int64)
    requires k < |e| && FoldByte(acc, e[k]) == r
    ensures Fold(acc, e[k..]) == Fold(r, e[k + 1..])
  {
    assert e[k..][0] == e[k] && e[k..][1..] == e[k + 1..];
  }

  lemma Step0(e: seq<int>)
    requires e == TextBytes
    ensures Fold(443916, e[0..]) == Fold(457970733, e[1..])
  {
    Byte0(443916, e[0]);
    StepAt(e, 0, 443916, 457970733);
  }

  lemma Step1(e: seq<int>)
    requires e == TextBytes
    ensures Fold(457970733, e[1..]) == Fold(1253058016, e[2..])
  {
    Byte1(457970733, e[1]);
    StepAt(e, 1, 457970733, 1253058016);
  }

  lemma Step2(e: seq<int>)
    requires e == TextBytes
    ensures Fold(1253058016, e[2..]) == Fold(191132437, e[3..])
  {
    Byte2(1253058016, e[2]);
    StepAt(e, 2, 1253058016, 191132437);
  }

  lemma Step3(e: seq<int>)
    requires e == TextBytes
    ensures Fold(191132437, e[3..]) == Fold(2672213599, e[4..])
  {
    Byte3(191132437, e[3]);
    StepAt(e, 3, 191132437, 2672213599);
  }

  lemma Step4(e: seq<int>)
    requires e == TextBytes
    ensures Fold(2672213599, e[4..]) == Fold(3098079509, e[5..])
  {
    Byte4(2672213599, e[4]);
    StepAt(e, 4, 2672213599, 3098079509);
  }

  lemma Step5(e: seq<int>)
    requires e == TextBytes
    ensures Fold(3098079509, e[5..]) == Fold(1560382688, e[6..])
  {
    Byte5(3098079509, e[5]);
    StepAt(e, 5, 3098079509, 1560382688);
  }

  lemma Step6(e: seq<int>)
    requires e == TextBytes
    ensures Fold(1560382688, e[6..]) == Fold(1656443830, e[7..])
  {
    Byte6(1560382688, e[6]);
    StepAt(e, 6, 1560382688, 1656443830);
  }

  lemma Step7(e: seq<int>)
    requires e == TextBytes
    ensures Fold(1656443830, e[7..]) == Fold(1363949581, e[8..])
  {
    Byte7(1656443830, e[7]);
    StepAt(e, 7, 1656443830, 1363949581);
  }

  lemma Step8(e: seq<int>)
    requires e == TextBytes
    ensures Fold(1363949581, e[8..]) == Fold(2150011101, e[9..])
  {
    Byte8(1363949581, e[8]);
    StepAt(e, 8, 1363949581, 2150011101);
  }

  lemma Step9(e: seq<int>)
    requires e == TextBytes
    ensures Fold(2150011101, e[9..]) == Fold(436363898, e[10..])
  {
    Byte9(2150011101, e[9]);
    StepAt(e, 9, 2150011101, 436363898);
  }

  lemma Step10(e: seq<int>)
    requires e == TextBytes
    ensures Fold(436363898, e[10..]) == Fold(587451661, e[11..])
  {
    Byte10(436363898, e[10]);
    StepAt(e, 10, 436363898, 587451661);
  }

  lemma Step11(e: seq<int>)
    requires e == TextBytes
    ensures Fold(587451661, e[11..]) == Fold(854685492, e[12..])
  {
    Byte11(587451661, e[11]);
    StepAt(e, 11, 587451661, 854685492);
  }

  /** The twelve bytes folded from A = 443916. */
  lemma FoldValue(e: seq<int>)
    requires e == TextBytes
    ensures Fold(443916, e) == 854685492
  {
    assert e[0..] == e && e[12..] == [];
    Step0(e);
    Step1(e);
    Step2(e);
    Step3(e);
    Step4(e);
    Step5(e);
    Step6(e);
    Step7(e);
    Step8(e);
    Step9(e);
    Step10(e);
    Step11(e);
  }

  /** The three groups of the final program on the folded accumulator. */
  lemma FinalGroup1(a: Int64)
    requires a == 854685492
    ensures XrGroup(a, '+', '-', '3') == 3397202132
  {
    Pow2Facts();
    assert ShiftAmount('3') == 3;
    assert Shl(854685492, 3) == 6837483936;
    assert LowBits(Wrap64(854685492 + 6837483936), 32) == 3397202132;
  }

  lemma FinalGroup2(a: Int64)
    requires a == 3397202132
    ensures XrGroup(a, '^', '+', 'b') == 3395583858
  {
    Pow2Facts();
    assert ShiftAmount('b') == 11;
    assert Shr(Rem(3397202132, TwoTo32), 11) == 1658790;
    assert Xor(3397202132, 1658790) == 3395583858;
  }

  lemma FinalGroup3(a: Int64)
    requires a == 3395583858
    ensures XrGroup(a, '+', '-', 'f') == 169705330
  {
    Pow2Facts();
    assert ShiftAmount('f') == 15 && Pow2(15) == 32768;
    assert Shl(3395583858, 15) == 111266491858944;
    assert LowBits(Wrap64(3395583858 + 111266491858944), 32) == 169705330;
  }

  lemma FinalValue(x: Int64)
    requires x == 854685492
    ensures XrSpec(x, FinalProgram) == 169705330
  {
    FinalProgramGroups(x);
    var y := XrGroup(x, '+', '-', '3');
    FinalGroup1(x);
    var z := XrGroup(y, '^', '+', 'b');
    FinalGroup2(y);
    FinalGroup3(z);
  }

  lemma Numeral443916()
    ensures NatString(443916) == "443916"
  {
    assert NatString(4439) == "4439";
  }

  lemma Numeral547221231()
    ensures NatString(547221231) == "547221231"
  {
    assert NatString(5472) == "5472";
    assert NatString(547221) == "547221";
  }

  lemma Numeral68957()
    ensures NatString(68957) == "68957"
  {
    assert NatString(689) == "689";
  }

  lemma Numeral510801()
    ensures NatString(510801) == "510801"
  {
    assert NatString(5108) == "5108";
  }

  /** The secret is the numerals of its two terms around a dot. */
  lemma SecretParts(tkk: string)
    requires tkk == Secret
    ensures tkk == NatString(443916) + "." + NatString(547221231)
  {
    Numeral443916();
    Numeral547221231();
  }

  /** The secret's two terms, and its acceptance as a float. */
  lemma SecretTerms(tkk: string)
    requires tkk == Secret
    ensures TkkTerms(tkk) == (443916, 547221231)
    ensures IsDecimalFloat(tkk)
  {
    var d1, d2 := NatString(443916), NatString(547221231);
    SecretParts(tkk);
    NatStringValue(443916);
    NatStringValue(547221231);
    TkkTermsOf(d1, d2);
    DigitsAreDecimalFloat(d1, d2);
  }

  lemma Utf8At(s: string, k: nat)
    requires k < |s|
    ensures Utf8(s[k..]) == Utf8Char(s[k]) + Utf8(s[k + 1..])
  {
    assert s[k..][0] == s[k] && s[k..][1..] == s[k + 1..];
  }

  /** "hello" is its five ASCII codes. */
  lemma HelloBytes(s: string)
    requires s == Text
    ensures Utf8(s[..5]) == [104, 101, 108, 108, 111]
  {
    var h := s[..5];
    assert h == "hello";
    assert h[5..] == [];
    Utf8At(h, 4);
    Utf8At(h, 3);
    Utf8At(h, 2);
    Utf8At(h, 1);
    Utf8At(h, 0);
    assert h[0..] == h;
  }

  /** "\U{A0}world" is 0xC2 0xA0 and then the ASCII letters. */
  lemma TailBytes(s: string)
    requires s == Text
    ensures Utf8(s[5..]) == [194, 160, 119, 111, 114, 108, 100]
  {
    assert s[11..] == [];
    Utf8At(s, 10);
    Utf8At(s, 9);
    Utf8At(s, 8);
    Utf8At(s, 7);
    Utf8At(s, 6);
    Utf8At(s, 5);
    assert Utf8Char(s[5]) == [194, 160];
  }

  /** The UTF-8 of the text: "hello", the two bytes of the no-break space,
      "world". */
  lemma AllBytes(s: string)
    requires s == Text
    ensures Utf8(s) == TextBytes
  {
    assert s == s[..5] + s[5..];
    Utf8Append(s[..5], s[5..]);
    HelloBytes(s);
    TailBytes(s);
  }

  /** The no-break space becomes the two bytes 0xC2 0xA0; the rest is ASCII. */
  lemma TextBytesValue(s: string)
    requires s == Text
    ensures Encode(Units(s)) == TextBytes
  {
    EncodeIsUtf8(s);
    AllBytes(s);
  }

  /** The reduction modulo 10^6 of the example's accumulator. */
  lemma ReduceValue(x: Int64, b: Int64)
    requires x == 169705330 && b == 547221231
    ensures Reduce(x, b) == 68957
  {
    assert Xor(169705330, 547221231) == 713068957;
    assert Unsign(713068957) == 713068957;
    assert Rem(713068957, 1000000) == 68957;
  }

  /** The last steps: the reduction and the two numerals. */
  lemma FinishValue(x: Int64, a: Int64, b: Int64)
    requires x == 169705330 && a == 443916 && b == 547221231
    ensures Finish(x, a, b) == "68957.510801"
  {
    ReduceValue(x, b);
    var z := Reduce(x, b);
    assert Xor(68957, 443916) == 510801;
    Numeral68957();
    Numeral510801();
    assert Itoa(z) == "68957" && Itoa(Xor(z, a)) == "510801";
  }

  /** The token of the example text under the example secret. */
  lemma GetExample(s: string, tkk: string)
    requires s == Text && tkk == Secret
    ensures Token(s, tkk) == Ok("68957.510801")
  {
    SecretTerms(tkk);
    TextBytesValue(s);
    var e := Encode(Units(s));
    FoldValue(e);
    var x := XrSpec(Fold(443916, e), FinalProgram);
    FinalValue(Fold(443916, e));
    FinishValue(x, 443916, 547221231);
  }
}
