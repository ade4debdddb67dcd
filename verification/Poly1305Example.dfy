/** What clamping does to the bytes of a key, and the example of section 2.5.2 of RFC 7539. */
module Poly1305Example {
  import opened Words
  import opened Bytes
  import opened Poly1305

  function Sixteen(a: nat, b: nat, c: nat, d: nat, e: nat, f: nat, g: nat, h: nat,
                   i: nat, j: nat, k: nat, l: nat, m: nat, n: nat, o: nat, p: nat): (s: seq<nat>)
    ensures |s| == 16
  {
    [a, b, c, d] + [e, f, g, h] + [i, j, k, l] + [m, n, o, p]
  }

  function Word(a: nat, b: nat, c: nat, d: nat): nat {
    a + 0x100 * b + 0x1_0000 * c + 0x100_0000 * d
  }

  lemma NumOfFour(a: nat, b: nat, c: nat, d: nat)
    ensures Num([a, b, c, d]) == Word(a, b, c, d)
  {
    var s := [a, b, c, d];
    assert s[1..] == [b, c, d] && s[1..][1..] == [c, d] && s[1..][1..][1..] == [d] && s[1..][1..][1..][1..] == [];
    assert Num([d]) == d && Num([c, d]) == c + 256 * d && Num([b, c, d]) == b + 256 * (c + 256 * d);
  }

  lemma NumOfSixteen(a: nat, b: nat, c: nat, d: nat, e: nat, f: nat, g: nat, h: nat,
                     i: nat, j: nat, k: nat, l: nat, m: nat, n: nat, o: nat, p: nat)
    ensures Num(Sixteen(a, b, c, d, e, f, g, h, i, j, k, l, m, n, o, p)) ==
            FourWords(Word(a, b, c, d), Word(e, f, g, h), Word(i, j, k, l), Word(m, n, o, p))
  {
    var s := Sixteen(a, b, c, d, e, f, g, h, i, j, k, l, m, n, o, p);
    assert s[..4] == [a, b, c, d] && s[4..8] == [e, f, g, h] && s[8..12] == [i, j, k, l] && s[12..] == [m, n, o, p];
    NumWords(s);
    NumOfFour(a, b, c, d);
    NumOfFour(e, f, g, h);
    NumOfFour(i, j, k, l);
    NumOfFour(m, n, o, p);
    hide Num, Word, FourWords, Sixteen;
  }

  //////////////////////////////// Clamping ////////////////////////////////

  function AndEach(s: seq<nat>, t: seq<nat>): (r: seq<nat>)
    requires |s| == |t|
    ensures |r| == |s| && forall i :: 0 <= i < |s| ==> r[i] == And(s[i], t[i])
  {
    if s == [] then [] else [And(s[0], t[0])] + AndEach(s[1..], t[1..])
  }

  /** And works byte by byte. */
  lemma {:induction false} AndNum(s: seq<nat>, t: seq<nat>)
    requires |s| == |t| && AllBytes(s) && AllBytes(t)
    ensures And(Num(s), Num(t)) == Num(AndEach(s, t))
  {
    if s != [] {
      AndNum(s[1..], t[1..]);
      Pow2Values();
      AndJoins(s[0], Num(s[1..]), t[0], Num(t[1..]), 8);
      ShlIs(Num(s[1..]));
      ShlIs(Num(t[1..]));
      ShlIs(And(Num(s[1..]), Num(t[1..])));
      assert AndEach(s, t)[1..] == AndEach(s[1..], t[1..]);
      hide And, Shl, AndEach;
    }
  }

  lemma ShlIs(y: nat)
    ensures Shl(y, 8) == 256 * y
  {
    Pow2Values();
    hide Pow2;
  }

  function ClampBytes(): (s: seq<nat>)
    ensures |s| == 16
  {
    Sixteen(0xff, 0xff, 0xff, 0x0f, 0xfc, 0xff, 0xff, 0x0f, 0xfc, 0xff, 0xff, 0x0f, 0xfc, 0xff, 0xff, 0x0f)
  }

  lemma ClampIs()
    ensures Num(ClampBytes()) == CLAMP
  {
    NumOfSixteen(0xff, 0xff, 0xff, 0x0f, 0xfc, 0xff, 0xff, 0x0f, 0xfc, 0xff, 0xff, 0x0f, 0xfc, 0xff, 0xff, 0x0f);
    hide Num, Sixteen;
  }

  lemma ClampByte(i: nat)
    requires i < 16
    ensures ClampBytes()[i] == if i % 4 == 3 then 0x0f else if i % 4 == 0 && i > 0 then 0xfc else 0xff
  {
  }

  lemma SmallPowers()
    ensures Pow2(2) == 4 && Pow2(4) == 16 && Pow2(6) == 64 && Pow2(8) == 256
  {
    Pow2Values();
    assert Pow2(4) == 16;
  }

  lemma LowMasks(b: nat)
    requires b < 256
    ensures And(b, 0xff) == b && And(b, 0x0f) == b % 16
  {
    hide And, Pow2;
    SmallPowers();
    MaskIsMod(b, 8);
    MaskIsMod(b, 4);
  }

  lemma ShlByTwo(y: nat)
    ensures Shl(y, 2) == 4 * y
  {
    SmallPowers();
    hide Pow2;
  }

  lemma AndNothing(x: nat)
    ensures And(x, 0) == 0
  {
  }

  lemma HighPart(low: nat, high: nat)
    requires low < 4 && high < 64
    ensures And(low + 4 * high, 0xfc) == 4 * high
  {
    hide And, Pow2, Shl;
    AndNothing(low);
    SmallPowers();
    MaskIsMod(high, 6);
    AndJoins(low, high, 0, 0x3f, 2);
    ShlByTwo(high);
    ShlByTwo(0x3f);
  }

  lemma HighMask(b: nat)
    requires b < 256
    ensures And(b, 0xfc) == b - b % 4
  {
    hide And;
    HighPart(b % 4, b / 4);
  }

  /** Section 2.5.1 of RFC 7539: bytes 3, 7, 11 and 15 lose their upper four bits, bytes 4, 8 and 12 their lower two. */
  predicate IsClamped(key32: seq<nat>, r: seq<nat>)
    requires |key32| == 32 && |r| == 16
  {
    forall i :: 0 <= i < 16 ==>
      r[i] == if i == 3 || i == 7 || i == 11 || i == 15 then key32[i] % 16
              else if i == 4 || i == 8 || i == 12 then key32[i] - key32[i] % 4 else key32[i]
  }

  lemma MaskedByte(b: nat, i: nat)
    requires b < 256 && i < 16
    ensures And(b, ClampBytes()[i]) ==
            if i == 3 || i == 7 || i == 11 || i == 15 then b % 16
            else if i == 4 || i == 8 || i == 12 then b - b % 4 else b
  {
    hide And, ClampBytes;
    ClampByte(i);
    LowMasks(b);
    HighMask(b);
  }

  lemma MaskedAre(key32: seq<nat>, r: seq<nat>)
    requires |key32| == 32 && AllBytes(key32) && |r| == 16 && IsClamped(key32, r)
    ensures AndEach(key32[..16], ClampBytes()) == r
  {
    hide And, ClampBytes;
    var t := AndEach(key32[..16], ClampBytes());
    hide AndEach;
    forall i | 0 <= i < 16 ensures t[i] == r[i] {
      MaskedByte(key32[i], i);
    }
  }

  lemma ClampClears(key32: seq<nat>, r: seq<nat>)
    requires |key32| == 32 && AllBytes(key32) && |r| == 16 && IsClamped(key32, r)
    ensures R(key32) == Num(r)
  {
    MaskedAre(key32, r);
    ClampIs();
    AllAreBytes();
    AndNum(key32[..16], ClampBytes());
    hide And, Num, ClampBytes, AndEach, IsClamped;
  }

  lemma AllAreBytes()
    ensures AllBytes(ClampBytes())
  {
    forall i | 0 <= i < 16 ensures ClampBytes()[i] < 256 {
      ClampByte(i);
    }
    hide ClampBytes;
  }

  //////////////////////////////// The example ////////////////////////////////

  /** The key. */
  function FirstHalf(): (s: seq<nat>)
    ensures |s| == 16
  {
    Sixteen(0x85, 0xd6, 0xbe, 0x78, 0x57, 0x55, 0x6d, 0x33, 0x7f, 0x44, 0x52, 0xfe, 0x42, 0xd5, 0x06, 0xa8)
  }

  function SecondHalf(): (s: seq<nat>)
    ensures |s| == 16
  {
    Sixteen(0x01, 0x03, 0x80, 0x8a, 0xfb, 0x0d, 0xb2, 0xfd, 0x4a, 0xbf, 0xf6, 0xaf, 0x41, 0x49, 0xf5, 0x1b)
  }

  function ClampedHalf(): (s: seq<nat>)
    ensures |s| == 16
  {
    Sixteen(0x85, 0xd6, 0xbe, 0x08, 0x54, 0x55, 0x6d, 0x03, 0x7c, 0x44, 0x52, 0x0e, 0x40, 0xd5, 0x06, 0x08)
  }

  /** "Cryptographic Forum Research Group", block by block. */
  function Block1(): (s: seq<nat>)
    ensures |s| == 16
  {
    Sixteen(0x43, 0x72, 0x79, 0x70, 0x74, 0x6f, 0x67, 0x72, 0x61, 0x70, 0x68, 0x69, 0x63, 0x20, 0x46, 0x6f)
  }

  function Block2(): (s: seq<nat>)
    ensures |s| == 16
  {
    Sixteen(0x72, 0x75, 0x6d, 0x20, 0x52, 0x65, 0x73, 0x65, 0x61, 0x72, 0x63, 0x68, 0x20, 0x47, 0x72, 0x6f)
  }

  function Block3(): (s: seq<nat>)
    ensures |s| == 2
  {
    [0x75, 0x70]
  }

  lemma SecondHalfIs()
    ensures Num(SecondHalf()) == 0x1bf5_4941_aff6_bf4a_fdb2_0dfb_8a80_0301
  {
    NumOfSixteen(0x01, 0x03, 0x80, 0x8a, 0xfb, 0x0d, 0xb2, 0xfd, 0x4a, 0xbf, 0xf6, 0xaf, 0x41, 0x49, 0xf5, 0x1b);
    hide Num, Sixteen;
  }

  lemma ClampedHalfIs()
    ensures Num(ClampedHalf()) == 0x806_d540_0e52_447c_036d_5554_08be_d685
  {
    NumOfSixteen(0x85, 0xd6, 0xbe, 0x08, 0x54, 0x55, 0x6d, 0x03, 0x7c, 0x44, 0x52, 0x0e, 0x40, 0xd5, 0x06, 0x08);
    hide Num, Sixteen;
  }

  lemma Block1Is()
    ensures Num(Block1()) == 0x6f46_2063_6968_7061_7267_6f74_7079_7243
  {
    NumOfSixteen(0x43, 0x72, 0x79, 0x70, 0x74, 0x6f, 0x67, 0x72, 0x61, 0x70, 0x68, 0x69, 0x63, 0x20, 0x46, 0x6f);
    hide Num, Sixteen;
  }

  lemma Block2Is()
    ensures Num(Block2()) == 0x6f72_4720_6863_7261_6573_6552_206d_7572
  {
    NumOfSixteen(0x72, 0x75, 0x6d, 0x20, 0x52, 0x65, 0x73, 0x65, 0x61, 0x72, 0x63, 0x68, 0x20, 0x47, 0x72, 0x6f);
    hide Num, Sixteen;
  }

  lemma Block3Is()
    ensures Num(Block3()) == 0x7075
  {
    assert Block3()[1..] == [0x70] && [0x70][1..] == [];
    assert Num([0x70]) == 0x70;
  }

  lemma ExampleClamps(key32: seq<nat>)
    requires key32 == FirstHalf() + SecondHalf()
    ensures |key32| == 32 && AllBytes(key32) && IsClamped(key32, ClampedHalf())
  {
    forall i | 0 <= i < 16 ensures key32[i] == FirstHalf()[i] && key32[16 + i] == SecondHalf()[i] {
    }
    HalvesAreBytes();
    hide FirstHalf, SecondHalf, ClampedHalf;
    forall i | 0 <= i < 32 ensures key32[i] < 256 {
      assert i >= 16 ==> key32[i] == SecondHalf()[i - 16];
    }
  }

  lemma HalvesAreBytes()
    ensures AllBytes(FirstHalf()) && AllBytes(SecondHalf())
    ensures forall i :: 0 <= i < 16 ==>
              ClampedHalf()[i] == if i == 3 || i == 7 || i == 11 || i == 15 then FirstHalf()[i] % 16
                                  else if i == 4 || i == 8 || i == 12 then FirstHalf()[i] - FirstHalf()[i] % 4
                                  else FirstHalf()[i]
  {
  }

  const R_KEY: nat := 0x806_d540_0e52_447c_036d_5554_08be_d685
  const S_KEY: nat := 0x1bf5_4941_aff6_bf4a_fdb2_0dfb_8a80_0301

  lemma ExampleKey(key32: seq<nat>)
    requires key32 == FirstHalf() + SecondHalf()
    ensures R(key32) == R_KEY && S(key32) == S_KEY
  {
    ExampleClamps(key32);
    ClampClears(key32, ClampedHalf());
    ClampedHalfIs();
    SecondHalfIs();
    assert key32[16..] == SecondHalf();
    hide Num, And, FirstHalf, SecondHalf, ClampedHalf, R;
  }

  lemma Product(x: nat, r: nat, q: nat, rest: nat)
    requires x * r == q * P + rest && rest < P
    ensures MulMod(x, r) == rest
  {
    DivModUnique(x * r, P, q, rest);
  }

  lemma Powers()
    ensures Pow256(16) == TWO128 && Pow256(2) == 0x1_0000
  {
    assert Pow256(1) == 256 && Pow256(4) == WORD;
    Pow256Adds(4, 4);
    Pow256Adds(8, 8);
  }

  lemma LastBlock(acc: nat, r: nat, data: seq<nat>)
    requires 0 < |data| <= 16
    ensures Accumulate(acc, r, data) == MulMod(acc + BlockNum(data), r)
  {
    assert data[..|data|] == data && data[|data|..] == [];
    hide MulMod, BlockNum;
  }

  lemma Step1()
    ensures Accumulate(0x0, R_KEY, Block1()) ==
            0x2_c88c_7784_9d64_ae91_47dd_eb88_e69c_83fc
  {
    Block1Is();
    Powers();
    Product(0x1_6f46_2063_6968_7061_7267_6f74_7079_7243, R_KEY,
            0x2e0_ffa6_4729_9a00_1224_5577_35a7_a109, 0x2_c88c_7784_9d64_ae91_47dd_eb88_e69c_83fc);
    LastBlock(0x0, R_KEY, Block1());
    hide Num, Pow256, Accumulate, MulMod, Block1;
  }

  lemma Step2()
    ensures Accumulate(0x2_c88c_7784_9d64_ae91_47dd_eb88_e69c_83fc, R_KEY, Block2()) ==
            0x2_d8ad_af23_b033_7fa7_cccf_b4ea_344b_30de
  {
    Block2Is();
    Powers();
    Product(0x4_37fe_bea5_05c8_20f2_ad51_50db_0709_f96e, R_KEY,
            0x877_3264_b431_966e_900d_bd96_edfe_2158, 0x2_d8ad_af23_b033_7fa7_cccf_b4ea_344b_30de);
    LastBlock(0x2_c88c_7784_9d64_ae91_47dd_eb88_e69c_83fc, R_KEY, Block2());
    hide Num, Pow256, Accumulate, MulMod, Block2;
  }

  lemma Step3()
    ensures Accumulate(0x2_d8ad_af23_b033_7fa7_cccf_b4ea_344b_30de, R_KEY, Block3()) ==
            0x2_8d31_b7ca_ff94_6c77_c884_4335_369d_03a7
  {
    Block3Is();
    Powers();
    Product(0x2_d8ad_af23_b033_7fa7_cccf_b4ea_344c_a153, R_KEY,
            0x5b6_3822_83cf_f877_93f9_2855_21ab_29e8, 0x2_8d31_b7ca_ff94_6c77_c884_4335_369d_03a7);
    LastBlock(0x2_d8ad_af23_b033_7fa7_cccf_b4ea_344b_30de, R_KEY, Block3());
    hide Num, Pow256, Accumulate, MulMod, Block3;
  }

  lemma Added()
    ensures Mod128(0x2_8d31_b7ca_ff94_6c77_c884_4335_369d_03a7 + S_KEY) == 0xa927_010c_af8b_2bc2_c636_5130_c11d_06a8
  {
    DivModUnique(0x2_a927_010c_af8b_2bc2_c636_5130_c11d_06a8, TWO128, 2, 0xa927_010c_af8b_2bc2_c636_5130_c11d_06a8);
  }

  /** The tag of the example is a8 06 1d c1 30 51 36 c6 c2 2b 8b af 0c 01 27 a9, the last byte the highest. */
  lemma ExampleIsRight()
    ensures Tag(FirstHalf() + SecondHalf(), Block1() + (Block2() + Block3())) ==
            0xa927_010c_af8b_2bc2_c636_5130_c11d_06a8
  {
    hide FirstHalf, SecondHalf, Block1, Block2, Block3, Accumulate, R, S, Mod128;
    ExampleKey(FirstHalf() + SecondHalf());
    AccumulateSplits(0, R_KEY, Block1(), Block2() + Block3());
    Step1();
    AccumulateSplits(0x2_c88c_7784_9d64_ae91_47dd_eb88_e69c_83fc, R_KEY, Block2(), Block3());
    Step2();
    Step3();
    Added();
  }
}
