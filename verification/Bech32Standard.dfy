/** The checksum and the example that BIP 173 gives. */
module Bech32Standard {
  import opened Options
  import opened Bech32

  //////////////////////////////// The checksum code ////////////////////////////////

  /** Coefficient k of the checksum as a polynomial over the field of 32 elements. */
  function Coefficient(x: bv32, k: nat): bv32
    requires k < 6
  {
    if k == 0 then x & 0x1f else if k == 1 then (x >> 5) & 0x1f else if k == 2 then (x >> 10) & 0x1f
    else if k == 3 then (x >> 15) & 0x1f else if k == 4 then (x >> 20) & 0x1f else (x >> 25) & 0x1f
  }

  /** Twice an element, modulo a^5 + a^3 + 1. */
  function Twice(a: bv32): bv32 {
    if a & 0x10 == 0 then a << 1 else (a << 1) ^ 0x29
  }

  /** An element times the power i of two. */
  function Doubled(a: bv32, i: nat): bv32 {
    if i == 0 then a else Twice(Doubled(a, i - 1))
  }

  /** The element, if bit i of b is set. */
  function Where(b: bv32, i: nat, a: bv32): bv32
    requires i < 5
  {
    if (if i == 0 then b else if i == 1 then b >> 1 else if i == 2 then b >> 2 else if i == 3 then b >> 3 else b >> 4)
       & 1 == 0 then 0 else a
  }

  /** The product of two elements. */
  function Times(a: bv32, b: bv32): bv32 {
    Plus(Plus(Plus(Plus(Where(b, 0, a), Where(b, 1, Doubled(a, 1))), Where(b, 2, Doubled(a, 2))),
              Where(b, 3, Doubled(a, 3))), Where(b, 4, Doubled(a, 4)))
  }

  /** The coefficients of the generator x^6 + 29x^5 + 22x^4 + 20x^3 + 21x^2 + 29x + 18. */
  function Generator(k: nat): bv32
    requires k < 6
  {
    if k == 0 then 18 else if k == 1 then 29 else if k == 2 then 21 else if k == 3 then 20 else if k == 4 then 22
    else 29
  }

  lemma Doubles()
    ensures Twice(18) == 13 && Twice(13) == 26 && Twice(26) == 29 && Twice(29) == 19
    ensures Twice(21) == 3 && Twice(3) == 6 && Twice(6) == 12 && Twice(12) == 24
    ensures Twice(20) == 1 && Twice(1) == 2 && Twice(2) == 4 && Twice(4) == 8
    ensures Twice(22) == 5 && Twice(5) == 10 && Twice(10) == 20 && Twice(19) == 15 && Twice(15) == 30
    ensures Twice(30) == 21
  {
  }

  /** The word that bit i adds is the one before with every coefficient doubled. */
  lemma WordsDouble(k: nat)
    requires k < 6
    ensures Coefficient(0x3b6a57b2, k) == Doubled(Generator(k), 0)
    ensures Coefficient(0x26508e6d, k) == Doubled(Generator(k), 1)
    ensures Coefficient(0x1ea119fa, k) == Doubled(Generator(k), 2)
    ensures Coefficient(0x3d4233dd, k) == Doubled(Generator(k), 3)
    ensures Coefficient(0x2a1462b3, k) == Doubled(Generator(k), 4)
  {
    Doubles();
    hide Twice;
    var g := Generator(k);
    assert Doubled(g, 0) == g && Doubled(g, 1) == Twice(g) && Doubled(g, 2) == Twice(Twice(g));
    assert Doubled(g, 3) == Twice(Twice(Twice(g))) && Doubled(g, 4) == Twice(Twice(Twice(Twice(g))));
  }

  function WordOf(i: nat): bv32
    requires i < 5
  {
    if i == 0 then 0x3b6a57b2 else if i == 1 then 0x26508e6d else if i == 2 then 0x1ea119fa
    else if i == 3 then 0x3d4233dd else 0x2a1462b3
  }

  lemma TapIs(x: bv32, i: nat)
    requires x < LIMIT && i < 5
    ensures Tap(x, i) == Where(Coefficient(x, 5), i, WordOf(i))
  {
    if i == 0 {
    } else if i == 1 {
    } else if i == 2 {
    } else if i == 3 {
    }
  }

  lemma WhereCoefficient(b: bv32, i: nat, word: bv32, k: nat)
    requires i < 5 && k < 6
    ensures Coefficient(Where(b, i, word), k) == Where(b, i, Coefficient(word, k))
  {
    assert Coefficient(0, k) == 0;
    hide Coefficient;
  }

  lemma TapCoefficient(x: bv32, i: nat, k: nat)
    requires x < LIMIT && i < 5 && k < 6
    ensures Coefficient(Tap(x, i), k) == Where(Coefficient(x, 5), i, Doubled(Generator(k), i))
  {
    TapIs(x, i);
    WordsDouble(k);
    WhereCoefficient(Coefficient(x, 5), i, WordOf(i), k);
    hide Tap, Coefficient, Where, Doubled, Generator;
  }

  /** What the highest coefficient adds to the others. */
  function Taps(x: bv32): bv32 {
    Plus(Plus(Plus(Plus(Tap(x, 0), Tap(x, 1)), Tap(x, 2)), Tap(x, 3)), Tap(x, 4))
  }

  lemma TapsCoefficient(x: bv32, k: nat)
    requires x < LIMIT && k < 6
    ensures Coefficient(Taps(x), k) == Times(Generator(k), Coefficient(x, 5))
  {
    hide Tap, Coefficient, Plus, Where, Generator;
    var a, b, c, d, e := Tap(x, 0), Tap(x, 1), Tap(x, 2), Tap(x, 3), Tap(x, 4);
    CoefficientAdds(a, b, k);
    CoefficientAdds(Plus(a, b), c, k);
    CoefficientAdds(Plus(Plus(a, b), c), d, k);
    CoefficientAdds(Plus(Plus(Plus(a, b), c), d), e, k);
    TapCoefficient(x, 0, k);
    TapCoefficient(x, 1, k);
    TapCoefficient(x, 2, k);
    TapCoefficient(x, 3, k);
    TapCoefficient(x, 4, k);
    assert Doubled(Generator(k), 0) == Generator(k);
    hide Doubled;
  }

  lemma StepParts(x: bv32)
    ensures Poly(x) == Plus(Shifted(x), Taps(x))
  {
    hide Tap, Shifted, Plus;
    SumOfSix(Shifted(x), Tap(x, 0), Tap(x, 1), Tap(x, 2), Tap(x, 3), Tap(x, 4));
  }

  lemma SumOfSix(a: bv32, b: bv32, c: bv32, d: bv32, e: bv32, f: bv32)
    ensures Plus(Plus(Plus(Plus(Plus(a, b), c), d), e), f) == Plus(a, Plus(Plus(Plus(Plus(b, c), d), e), f))
  {
    hide Plus;
    PlusJoins(a, b, c);
    PlusJoins(a, Plus(b, c), d);
    PlusJoins(a, Plus(Plus(b, c), d), e);
    PlusJoins(a, Plus(Plus(Plus(b, c), d), e), f);
  }

  lemma CoefficientAdds(x: bv32, t: bv32, k: nat)
    requires k < 6
    ensures Coefficient(Plus(x, t), k) == Plus(Coefficient(x, k), Coefficient(t, k))
  {
    if k == 0 {
    } else if k == 1 {
    } else if k == 2 {
    } else if k == 3 {
    } else if k == 4 {
    }
  }

  function Below(x: bv32, k: nat): bv32
    requires k < 6
  {
    if k == 0 then 0 else Coefficient(x, k - 1)
  }

  lemma CoefficientMoves(x: bv32, k: nat)
    requires k < 6
    ensures Coefficient(Shifted(x), k) == Below(x, k)
  {
    if k == 0 {
    } else if k == 1 {
    } else if k == 2 {
    } else if k == 3 {
    } else if k == 4 {
    }
  }

  /** One step multiplies by x modulo the generator. */
  lemma StepIsMultiplication(x: bv32, k: nat)
    requires x < LIMIT && k < 6
    ensures Coefficient(Poly(x), k) == Plus(Below(x, k), Times(Generator(k), Coefficient(x, 5)))
  {
    StepParts(x);
    TapsCoefficient(x, k);
    CoefficientAdds(Shifted(x), Taps(x), k);
    CoefficientMoves(x, k);
    hide Poly, Taps, Shifted, Times, Coefficient, Plus, Below, Generator;
  }

  //////////////////////////////// An address of the standard ////////////////////////////////

  const PART: seq<bv8> := [0x62, 0x63]
  const PROGRAM: seq<bv8> := [0x75, 0x1e]
  const ADDRESS: seq<bv8> := [0x62, 0x63, 0x31, 0x73, 0x77, 0x35, 0x30, 0x71, 0x61, 0x33, 0x6a, 0x78, 0x33, 0x73]

  lemma ExampleExpands()
    ensures Expand(PART) == [3, 3, 0, 2, 3]
  {
    assert TopBits(0x62) == 3 && TopBits(0x63) == 3 && LowBits(0x62) == 2 && LowBits(0x63) == 3;
    assert HighPart(PART) == [3, 3] && LowPart(PART) == [2, 3];
  }

  lemma ExampleGroups()
    ensures Groups(PROGRAM, 4) == [14, 20, 15, 0]
  {
    assert Five(PROGRAM, 0) == 14 && Five(PROGRAM, 1) == 20 && Five(PROGRAM, 2) == 15 && Five(PROGRAM, 3) == 0;
    hide Five;
    assert Groups(PROGRAM, 0) == [] && Groups(PROGRAM, 1) == [14] && Groups(PROGRAM, 2) == [14, 20];
    assert Groups(PROGRAM, 3) == [14, 20, 15];
  }

  function Step(x: bv32, v: bv32): bv32 {
    Plus(Poly(x), v)
  }

  lemma OneStep(chk: bv32, values: seq<bv8>, v: bv8)
    ensures Fold(chk, values + [v]) == Step(Fold(chk, values), Wide(v))
  {
    assert (values + [v])[..|values|] == values;
    hide Poly, Plus, Wide;
  }

  lemma StepsOfPart()
    ensures Step(1, 3) == 0x23 && Step(0x23, 3) == 0x463 && Step(0x463, 0) == 0x8c60
    ensures Step(0x8c60, 2) == 0x11_8c02 && Step(0x11_8c02, 3) == 0x231_8043
  {
  }

  lemma StepsOfData()
    ensures Step(0x231_8043, 16) == 0x3d5a_5fc2 && Step(0x3d5a_5fc2, 14) == 0x4ec_3eb7
    ensures Step(0x4ec_3eb7, 20) == 0x3bd7_5899 && Step(0x3bd7_5899, 15) == 0x876_0c09
    ensures Step(0x876_0c09, 0) == 0x1060_98da
  {
  }

  lemma ExampleFolds()
    ensures Fold(1, [3, 3, 0, 2, 3] + [16, 14, 20, 15, 0]) == 0x1060_98da
  {
    StepsOfPart();
    StepsOfData();
    assert Wide(3) == 3 && Wide(0) == 0 && Wide(2) == 2 && Wide(16) == 16 && Wide(14) == 14 && Wide(20) == 20;
    assert Wide(15) == 15;
    hide Step, Wide;
    assert Fold(1, []) == 1;
    hide Fold;
    var s: seq<bv8> := [];
    OneStep(1, s, 3);
    OneStep(1, s + [3], 3);
    OneStep(1, s + [3] + [3], 0);
    OneStep(1, s + [3] + [3] + [0], 2);
    OneStep(1, s + [3] + [3] + [0] + [2], 3);
    var t := s + [3] + [3] + [0] + [2] + [3];
    OneStep(1, t, 16);
    OneStep(1, t + [16], 14);
    OneStep(1, t + [16] + [14], 20);
    OneStep(1, t + [16] + [14] + [20], 15);
    OneStep(1, t + [16] + [14] + [20] + [15], 0);
    assert t + [16] + [14] + [20] + [15] + [0] == [3, 3, 0, 2, 3] + [16, 14, 20, 15, 0];
  }

  lemma ExampleChecksum()
    ensures Checksum(0x1060_98da) == [29, 17, 18, 6, 17, 16]
  {
    ExampleRun();
    var t: bv32 := 0x3b19_1a30;
    assert High(t, 6) == t && High(t, 5) == t >> 5 && High(t, 4) == t >> 5 >> 5;
    assert High(t, 3) == t >> 5 >> 5 >> 5 && High(t, 2) == t >> 5 >> 5 >> 5 >> 5;
    assert High(t, 1) == t >> 5 >> 5 >> 5 >> 5 >> 5;
    assert CheckValue(t, 0) == 29 && CheckValue(t, 1) == 17 && CheckValue(t, 2) == 18 && CheckValue(t, 3) == 6;
    assert CheckValue(t, 4) == 17 && CheckValue(t, 5) == 16;
    hide CheckValue, Run, Plus;
    assert CheckValues(t, 0) == [] && CheckValues(t, 1) == [29] && CheckValues(t, 2) == [29, 17];
    assert CheckValues(t, 3) == [29, 17, 18] && CheckValues(t, 4) == [29, 17, 18, 6];
    assert CheckValues(t, 5) == [29, 17, 18, 6, 17];
  }

  lemma RunSteps()
    ensures Poly(0x1060_98da) == 0x3151_289d && Poly(0x3151_289d) == 0x3d73_42ce && Poly(0x3d73_42ce) == 0x1cf_9f39
    ensures Poly(0x1cf_9f39) == 0x39f3_e720 && Poly(0x39f3_e720) == 0x378b_ac94 && Poly(0x378b_ac94) == 0x3b19_1a31
  {
  }

  lemma ExampleRun()
    ensures Plus(Run(0x1060_98da, 6), 1) == 0x3b19_1a30
  {
    var x: bv32 := 0x1060_98da;
    RunSteps();
    hide Poly;
    assert Run(x, 0) == x && Run(x, 1) == 0x3151_289d && Run(x, 2) == 0x3d73_42ce && Run(x, 3) == 0x1cf_9f39;
    assert Run(x, 4) == 0x39f3_e720 && Run(x, 5) == 0x378b_ac94 && Run(x, 6) == 0x3b19_1a31;
  }

  /** The letters sw50qa3jx3s. */
  lemma ExampleChars()
    ensures Chars([16, 14, 20, 15, 0, 29, 17, 18, 6, 17, 16]) ==
            [0x73, 0x77, 0x35, 0x30, 0x71, 0x61, 0x33, 0x6a, 0x78, 0x33, 0x73]
  {
    assert CharOf(16) == 0x73 && CharOf(14) == 0x77 && CharOf(20) == 0x35 && CharOf(15) == 0x30 && CharOf(0) == 0x71;
    assert CharOf(29) == 0x61 && CharOf(17) == 0x33 && CharOf(18) == 0x6a && CharOf(6) == 0x78;
    hide CharOf;
  }

  lemma ExampleValues()
    ensures EncodedValues(PART, 16, PROGRAM) == [16, 14, 20, 15, 0, 29, 17, 18, 6, 17, 16]
  {
    ExampleExpands();
    ExampleGroups();
    ExampleFolds();
    ExampleChecksum();
    hide Fold, Expand, Groups, Checksum;
    assert GroupCount(|PROGRAM|) == 4;
    assert [16] + Groups(PROGRAM, 4) == [16, 14, 20, 15, 0];
  }

  lemma AddressParts()
    ensures PART + [SEPARATOR] + [0x73, 0x77, 0x35, 0x30, 0x71, 0x61, 0x33, 0x6a, 0x78, 0x33, 0x73] == ADDRESS
  {
  }

  lemma ExampleEncodes()
    ensures Encoded(PART, 0x60, PROGRAM) == Some(ADDRESS)
  {
    ExampleValues();
    ExampleChars();
    assert VersionOf(0x60) == 16;
    assert Encodable(PART, 0x60, 2);
    hide EncodedValues, Chars, Encodable, VersionOf;
    AddressParts();
  }

  /** The part "bc" with version 16 and the program 751e is the address "bc1sw50qa3jx3s", and comes back. */
  lemma ExampleIsRight()
    ensures Encoded(PART, 0x60, PROGRAM) == Some(ADDRESS)
    ensures Decoded(ADDRESS) == Some(Decoding(PART, [0x60, 2, 0x75, 0x1e]))
  {
    ExampleEncodes();
    RoundTrip(PART, 0x60, PROGRAM);
    assert LengthByte(2) == 2;
    hide Encoded, Decoded;
    assert [0x60, LengthByte(2)] + PROGRAM == [0x60, 2, 0x75, 0x1e];
  }

  //////////////////////////////// What is refused /////////////////////////////////

  /** An upper-case letter, and a lower-case one. */
  predicate Mixes(addr: seq<bv8>) {
    && (exists i :: 0 <= i < |addr| && 0x41 <= addr[i] <= 0x5a)
    && exists i :: 0 <= i < |addr| && 0x61 <= addr[i] <= 0x7a
  }

  /** What is decoded has 8 to 90 printable characters of one case, a version up to 16 and a program of 2 to 40
      bytes. */
  lemma DecodedNeeds(addr: seq<bv8>)
    requires Decoded(addr).Some?
    ensures 8 <= |addr| <= 90 && !Mixes(addr) && forall i :: 0 <= i < |addr| ==> 33 <= addr[i] <= 126
    ensures var data := Decoded(addr).value.data;
            && 4 <= |data| <= 42 && (data[0] == 0 || 0x51 <= data[0] <= 0x60) && data[1] == LengthByte(|data| - 2)
  {
    hide Fold, Expand, Program, Lowered, SeparatorFrom, LengthByte;
    VersionIs(DigitsOf(addr[SeparatorFrom(addr, |addr|) + 1..])[0]);
  }

  lemma VersionIs(ver: bv8)
    ensures ver <= 16 && ver != 0 ==> 0x51 <= ver + OP_1 - 1 <= 0x60
  {
  }

  /** What is encoded has a part of at most 84 printable characters without upper case, a version opcode, and a
      program of 2 to 40 bytes; and the part with the program is short enough. */
  lemma EncodedIff(hrp: seq<bv8>, op: bv8, program: seq<bv8>)
    ensures Encoded(hrp, op, program).Some? <==>
              && |hrp| <= 84 && (forall i :: 0 <= i < |hrp| ==> 33 <= hrp[i] <= 126 && !(0x41 <= hrp[i] <= 0x5a))
              && (op == 0 || 0x51 <= op <= 0x60) && 2 <= |program| <= 40 && |hrp| + 2 + |program| + 6 < 91
  {
    VersionOfIs(op);
    hide EncodedValues, VersionOf;
  }

  lemma VersionOfIs(op: bv8)
    ensures !(OP_0 < op < OP_1) && VersionOf(op) <= 16 <==> op == 0 || 0x51 <= op <= 0x60
  {
  }
}
