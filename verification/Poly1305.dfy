/** The Poly1305 authenticator on five 26-bit limbs, against its definition on integers. */
module Poly1305 {
  import opened Words
  import opened Bytes

  /** The prime 2^130 - 5. */
  const P: nat := 0x3_ffff_ffff_ffff_ffff_ffff_ffff_ffff_fffb

  const TWO128: nat := 0x1_0000_0000_0000_0000_0000_0000_0000_0000
  const CLAMP: nat := 0x0fff_fffc_0fff_fffc_0fff_fffc_0fff_ffff
  const M26: nat := 0x3ff_ffff
  const B: nat := 0x400_0000
  const WORD: nat := 0x1_0000_0000
  const DWORD: nat := 0x1_0000_0000_0000_0000

  ///////////////////////// RFC 7539, section 2.5 /////////////////////////

  /** A block of up to 16 bytes as a number, with a one added beyond its last byte. */
  function BlockNum(block: seq<nat>): nat {
    MulNat(Pow256(|block|), 1);
    Num(block) + Pow256(|block|)
  }

  /** The accumulator after adding in each 16-byte block of data and multiplying by r. */
  function Accumulate(acc: nat, r: nat, data: seq<nat>): nat
    decreases |data|
  {
    if data == [] then acc
    else
      var n := if |data| < 16 then |data| else 16;
      Accumulate(MulMod(acc + BlockNum(data[..n]), r), r, data[n..])
  }

  function ModP(x: nat): nat {
    x % P
  }

  function Mod128(x: nat): nat {
    x % TWO128
  }

  function MulMod(x: nat, r: nat): nat {
    MulNat(x, r);
    ModP(x * r)
  }

  function R(key32: seq<nat>): nat
    requires |key32| == 32
  {
    And(Num(key32[..16]), CLAMP)
  }

  function S(key32: seq<nat>): nat
    requires |key32| == 32
  {
    Num(key32[16..])
  }

  /** The tag as a number. */
  function Tag(key32: seq<nat>, data: seq<nat>): nat
    requires |key32| == 32
  {
    Mod128(Accumulate(0, R(key32), data) + S(key32))
  }

  lemma NoBlock(acc: nat, r: nat)
    ensures Accumulate(acc, r, []) == acc
  {
  }

  lemma OneBlock(acc: nat, r: nat, data: seq<nat>)
    requires |data| >= 16
    ensures Accumulate(acc, r, data) == Accumulate(MulMod(acc + BlockNum(data[..16]), r), r, data[16..])
  {
    hide MulMod, BlockNum;
  }

  /** Data may be processed in several pieces, if all but the last end at a block boundary. */
  lemma {:induction false} AccumulateSplits(acc: nat, r: nat, a: seq<nat>, b: seq<nat>)
    requires |a| % 16 == 0
    ensures Accumulate(acc, r, a + b) == Accumulate(Accumulate(acc, r, a), r, b)
    decreases |a|
  {
    hide Accumulate, MulMod, BlockNum;
    if a == [] {
      assert a + b == b;
      NoBlock(acc, r);
    } else {
      var next := MulMod(acc + BlockNum(a[..16]), r);
      assert (a + b)[..16] == a[..16] && (a + b)[16..] == a[16..] + b;
      AccumulateSplits(next, r, a[16..], b);
      OneBlock(acc, r, a);
      OneBlock(acc, r, a + b);
    }
  }

  /////////////////////////////// Limbs ///////////////////////////////

  /** A number in five limbs of radix 2^26; a limb may be a little wider than 26 bits. */
  datatype Limbs = Limbs(l0: nat, l1: nat, l2: nat, l3: nat, l4: nat)

  function Value(h: Limbs): nat {
    h.l0 + B * (h.l1 + B * (h.l2 + B * (h.l3 + B * h.l4)))
  }

  /** Four 32-bit words cut into limbs. */
  function Cut(t0: nat, t1: nat, t2: nat, t3: nat): Limbs {
    Limbs(t0 % B, t0 / B + t1 % 0x10_0000 * 0x40, t1 / 0x10_0000 + t2 % 0x4000 * 0x1000,
          t2 / 0x4000 + t3 % 0x100 * 0x4_0000, t3 / 0x100)
  }

  lemma CutValue(t0: nat, t1: nat, t2: nat, t3: nat)
    requires t0 < WORD && t1 < WORD && t2 < WORD && t3 < WORD
    ensures var c := Cut(t0, t1, t2, t3);
            && Value(c) == t0 + WORD * (t1 + WORD * (t2 + WORD * t3))
            && c.l0 < B && c.l1 < B && c.l2 < B && c.l3 < B && c.l4 < 0x100_0000
  {
  }

  function U32(x: nat): nat {
    x % WORD
  }

  /** Masking with at most 26 bits looks at the low 26 bits only. */
  lemma LowBits(x: nat, mask: nat)
    requires mask <= M26
    ensures And(x, mask) == And(x % B, mask)
  {
    Pow2Values();
    ShlIs(x / B, 26, B);
    ShlIs(0, 26, B);
    hide And, Shl, Pow2;
    AndJoins(x % B, x / B, mask, 0, 26);
    AndStep(x / B, 0);
    ShlIs(And(x / B, 0), 26, B);
    AndZero(x / B);
  }

  lemma AndZero(x: nat)
    ensures And(x, 0) == 0
  {
  }

  lemma ShlIs(x: nat, k: nat, p: nat)
    requires p == Pow2(k)
    ensures Shl(x, k) == x * p
  {
  }

  /** The shifts in use: left by k, that is times p, keeping m words or n limbs of what is shifted. */
  predicate IsShift(k: nat, p: nat, m: nat, n: nat) {
    || (k == 6 && p == 0x40 && m == 0x400_0000 && n == 0x10_0000)
    || (k == 12 && p == 0x1000 && m == 0x10_0000 && n == 0x4000)
    || (k == 18 && p == 0x4_0000 && m == 0x4000 && n == 0x100)
  }

  lemma ShiftFacts(k: nat, p: nat, m: nat, n: nat)
    requires IsShift(k, p, m, n)
    ensures Pow2(k) == p && k <= 32 && Pow2(32 - k) == m && m * p == WORD && n * p == B && m == n * 0x40
  {
    ShiftPowers();
  }

  /** The low bits of a word shifted left by k, next to k bits a. */
  lemma JoinedBits(a: nat, hi: nat, p: nat, m: nat, n: nat)
    requires a < p && n >= 1 && m * p == WORD && n * p == B && m == n * 0x40
    ensures U32(hi * p) == hi % m * p
    ensures (a + hi % m * p) % B == a + hi % n * p
  {
    ScaledRem(hi, m, p, 0);
    ScaledRem(hi % m, n, p, a);
    RemRem(hi, n, 0x40);
  }

  /** A limb taken with shifts and a mask from the high bits of one word and the low bits of the next. */
  lemma Straddle(lo: nat, hi: nat, k: nat, p: nat, m: nat, n: nat, mask: nat)
    requires lo < WORD && mask <= M26 && IsShift(k, p, m, n)
    ensures And(Or(Shr(lo, 32 - k), U32(Shl(hi, k))), mask) == And(lo / m + hi % n * p, mask)
  {
    ShiftFacts(k, p, m, n);
    WholeBounds(lo, m, lo / m);
    hide IsShift, And, Or, U32;
    if lo / m >= p {
      MulAscends(p, lo / m, m);
    }
    ShlIs(hi, k, p);
    hide Shl;
    JoinedBits(lo / m, hi, p, m, n);
    OrAdds(lo / m, hi % m, k);
    hide Pow2;
    StraddleLow(lo / m, hi, p, m, n, mask);
  }

  lemma StraddleLow(a: nat, hi: nat, p: nat, m: nat, n: nat, mask: nat)
    requires mask <= M26 && a < p && n >= 1 && m * p == WORD && n * p == B && m == n * 0x40
    ensures a + hi % m * p >= 0 && a + hi % n * p >= 0
    ensures And(a + hi % m * p, mask) == And(a + hi % n * p, mask)
  {
    hide And;
    MulNat(hi % m, p);
    MulNat(hi % n, p);
    JoinedBits(a, hi, p, m, n);
    LowBits(a + hi % m * p, mask);
    LowBits((a + hi % m * p) % B, mask);
    assert (a + hi % m * p) % B % B == (a + hi % m * p) % B;
  }

  /////////////////////////////// One block ///////////////////////////////

  function Plus(h: Limbs, c: Limbs): Limbs {
    Limbs(h.l0 + c.l0, h.l1 + c.l1, h.l2 + c.l2, h.l3 + c.l3, h.l4 + c.l4)
  }

  /** The five column sums of h times r, with the columns beyond the fifth folded back five-fold. */
  function Columns(h: Limbs, r: Limbs): Limbs {
    var d0 := h.l0 * r.l0 + h.l1 * r.l4 * 5 + h.l2 * r.l3 * 5 + h.l3 * r.l2 * 5 + h.l4 * r.l1 * 5;
    var d1 := h.l0 * r.l1 + h.l1 * r.l0 + h.l2 * r.l4 * 5 + h.l3 * r.l3 * 5 + h.l4 * r.l2 * 5;
    var d2 := h.l0 * r.l2 + h.l1 * r.l1 + h.l2 * r.l0 + h.l3 * r.l4 * 5 + h.l4 * r.l3 * 5;
    var d3 := h.l0 * r.l3 + h.l1 * r.l2 + h.l2 * r.l1 + h.l3 * r.l0 + h.l4 * r.l4 * 5;
    var d4 := h.l0 * r.l4 + h.l1 * r.l3 + h.l2 * r.l2 + h.l3 * r.l1 + h.l4 * r.l0;
    Limbs(d0, d1, d2, d3, d4)
  }

  /** What folding back the high columns leaves out, in units of the prime. */
  function Folded(h: Limbs, r: Limbs): int {
    h.l1 * r.l4 + h.l2 * r.l3 + h.l3 * r.l2 + h.l4 * r.l1
    + B * (h.l2 * r.l4 + h.l3 * r.l3 + h.l4 * r.l2)
    + B * B * (h.l3 * r.l4 + h.l4 * r.l3) + B * B * B * (h.l4 * r.l4)
  }

  lemma ColumnsValue(h: Limbs, r: Limbs)
    ensures Value(h) * Value(r) == Value(Columns(h, r)) + P * Folded(h, r)
  {
    Expand(h.l0, h.l1, h.l2, h.l3, h.l4, r.l0, r.l1, r.l2, r.l3, r.l4);
  }

  lemma Expand(a0: int, a1: int, a2: int, a3: int, a4: int, b0: int, b1: int, b2: int, b3: int, b4: int)
    ensures (a0 + B * (a1 + B * (a2 + B * (a3 + B * a4)))) * (b0 + B * (b1 + B * (b2 + B * (b3 + B * b4)))) ==
      (a0 * b0 + a1 * b4 * 5 + a2 * b3 * 5 + a3 * b2 * 5 + a4 * b1 * 5)
      + B * ((a0 * b1 + a1 * b0 + a2 * b4 * 5 + a3 * b3 * 5 + a4 * b2 * 5)
      + B * ((a0 * b2 + a1 * b1 + a2 * b0 + a3 * b4 * 5 + a4 * b3 * 5)
      + B * ((a0 * b3 + a1 * b2 + a2 * b1 + a3 * b0 + a4 * b4 * 5)
      + B * (a0 * b4 + a1 * b3 + a2 * b2 + a3 * b1 + a4 * b0))))
      + P * (a1 * b4 + a2 * b3 + a3 * b2 + a4 * b1 + B * (a2 * b4 + a3 * b3 + a4 * b2)
             + B * B * (a3 * b4 + a4 * b3) + B * B * B * (a4 * b4))
  {
  }

  /** Limbs between blocks. */
  predicate Small(h: Limbs) {
    h.l0 < B && h.l1 < B + 0x40 && h.l2 < B && h.l3 < B && h.l4 < B
  }

  /** Limbs after a block was added to small ones. */
  predicate Summed(h: Limbs) {
    h.l0 < 2 * B && h.l1 < 2 * B + 0x40 && h.l2 < 2 * B && h.l3 < 2 * B && h.l4 < B + 0x200_0000
  }

  predicate Clamped(r: Limbs) {
    r.l0 < B && r.l1 < B && r.l2 < B && r.l3 < B && r.l4 < 0x10_0000
  }

  /** Column sums that neither overflow 64 bits nor carry more than 32 bits. */
  predicate InRange(d: Limbs) {
    && d.l0 < 0x1e0_0000_0000_0000 && d.l1 < 0x1e0_0000_0000_0000 && d.l2 < 0x1e0_0000_0000_0000
    && d.l3 < 0x1e0_0000_0000_0000 && d.l4 < 0x80_0000_0000_0000
  }

  lemma ProductAtMost(a: int, b: int, ma: int, mb: int)
    requires 0 <= a < ma && 0 <= b < mb
    ensures 0 <= a * b < ma * mb
  {
    assert a * b <= a * mb < ma * mb;
  }

  /** All products of one limb of h with the limbs of r. */
  lemma RowAtMost(a: nat, r: Limbs, m: nat)
    requires a < m && Clamped(r)
    ensures 0 <= a * r.l0 < m * B && 0 <= a * r.l1 < m * B && 0 <= a * r.l2 < m * B && 0 <= a * r.l3 < m * B
    ensures 0 <= a * r.l4 < m * 0x10_0000
  {
    ProductAtMost(a, r.l0, m, B);
    ProductAtMost(a, r.l1, m, B);
    ProductAtMost(a, r.l2, m, B);
    ProductAtMost(a, r.l3, m, B);
    ProductAtMost(a, r.l4, m, 0x10_0000);
  }

  lemma ColumnsInRange(h: Limbs, r: Limbs)
    requires Summed(h) && Clamped(r)
    ensures InRange(Columns(h, r))
  {
    RowAtMost(h.l0, r, 2 * B);
    RowAtMost(h.l1, r, 2 * B + 0x40);
    RowAtMost(h.l2, r, 2 * B);
    RowAtMost(h.l3, r, 2 * B);
    RowAtMost(h.l4, r, B + 0x200_0000);
  }

  function Lo(x: nat): nat {
    x % B
  }

  function Hi(x: nat): nat {
    x / B
  }

  /** The carry chain after the column sums, and what leaves it at the top. */
  function Carried(d: Limbs): (Limbs, nat) {
    var d1 := d.l1 + Hi(d.l0);
    var d2 := d.l2 + Hi(d1);
    var d3 := d.l3 + Hi(d2);
    var d4 := d.l4 + Hi(d3);
    var h0 := Lo(d.l0) + Hi(d4) * 5;
    (Limbs(Lo(h0), Lo(d1) + Hi(h0), Lo(d2), Lo(d3), Lo(d4)), Hi(d4))
  }

  lemma CarriedValue(d: Limbs)
    ensures var (h, out) := Carried(d); Value(d) == Value(h) + P * out
  {
  }

  lemma CarriedSmall(d: Limbs)
    requires InRange(d)
    ensures Small(Carried(d).0)
  {
  }

  ////////////////////////////// The final reduction //////////////////////////////

  predicate Tight(h: Limbs) {
    h.l0 < B && h.l1 < B && h.l2 < B && h.l3 < B && h.l4 < B
  }

  function FullCarry(h: Limbs): (Limbs, nat) {
    var h2 := h.l2 + Hi(h.l1);
    var h3 := h.l3 + Hi(h2);
    var h4 := h.l4 + Hi(h3);
    var h0 := h.l0 + Hi(h4) * 5;
    (Limbs(Lo(h0), Lo(h.l1) + Hi(h0), Lo(h2), Lo(h3), Lo(h4)), Hi(h4))
  }

  lemma FullCarryIsTight(h: Limbs)
    requires Small(h)
    ensures var (c, out) := FullCarry(h); Tight(c) && Value(h) == Value(c) + P * out
  {
  }

  /** h plus 5, with the carry out of the top limb taken off: h - P, negative when h is below P. */
  function MinusP(h: Limbs): (Limbs, int) {
    var t0 := h.l0 + 5;
    var t1 := h.l1 + Hi(t0);
    var t2 := h.l2 + Hi(t1);
    var t3 := h.l3 + Hi(t2);
    (Limbs(Lo(t0), Lo(t1), Lo(t2), Lo(t3), 0), h.l4 + Hi(t3) - B)
  }

  lemma MinusPValue(h: Limbs)
    requires Tight(h)
    ensures var (t, top) := MinusP(h);
            && 0 <= top + B && top <= 0 && (top == 0 <==> Value(h) >= P) && (top == 0 ==> Value(t) == Value(h) - P)
  {
  }

  /** The low 128 bits of five limbs as four words. */
  function Pack(h: Limbs): (nat, nat, nat, nat) {
    (h.l0 + h.l1 % 0x40 * B, h.l1 / 0x40 + h.l2 % 0x1000 * 0x10_0000,
     h.l2 / 0x1000 + h.l3 % 0x4_0000 * 0x4000, h.l3 / 0x4_0000 + h.l4 % 0x100_0000 * 0x100)
  }

  function FourWords(w0: nat, w1: nat, w2: nat, w3: nat): nat {
    w0 + WORD * (w1 + WORD * (w2 + WORD * w3))
  }

  lemma PackValue(h: Limbs)
    requires Tight(h)
    ensures var (w0, w1, w2, w3) := Pack(h);
            && w0 < WORD && w1 < WORD && w2 < WORD && w3 < WORD
            && FourWords(w0, w1, w2, w3) == Mod128(Value(h))
  {
    var (w0, w1, w2, w3) := Pack(h);
    assert FourWords(w0, w1, w2, w3) + TWO128 * (h.l4 / 0x100_0000) == Value(h);
    DivModUnique(Value(h), TWO128, h.l4 / 0x100_0000, FourWords(w0, w1, w2, w3));
  }

  function Carry32(x: nat): nat {
    x / WORD
  }

  /** Adding two four-word numbers word by word, the last carry dropped. */
  lemma WordSum(a0: nat, a1: nat, a2: nat, a3: nat, b0: nat, b1: nat, b2: nat, b3: nat)
    requires a0 < WORD && a1 < WORD && a2 < WORD && a3 < WORD
    requires b0 < WORD && b1 < WORD && b2 < WORD && b3 < WORD
    ensures var d0 := a0 + b0;
            var d1 := a1 + b1 + Carry32(d0);
            var d2 := a2 + b2 + Carry32(d1);
            var d3 := a3 + b3 + Carry32(d2);
            && d0 < DWORD && d1 < DWORD && d2 < DWORD && d3 < DWORD
            && FourWords(U32(d0), U32(d1), U32(d2), U32(d3)) ==
               Mod128(FourWords(a0, a1, a2, a3) + FourWords(b0, b1, b2, b3))
  {
    hide U32, Carry32;
    var d0 := a0 + b0;
    WordParts(d0);
    var d1 := a1 + b1 + Carry32(d0);
    WordParts(d1);
    var d2 := a2 + b2 + Carry32(d1);
    WordParts(d2);
    var d3 := a3 + b3 + Carry32(d2);
    WordParts(d3);
    SumModulo(FourWords(a0, a1, a2, a3) + FourWords(b0, b1, b2, b3), Carry32(d3), U32(d0), U32(d1), U32(d2), U32(d3));
  }

  lemma WordParts(d: nat)
    ensures d == U32(d) + WORD * Carry32(d) && U32(d) < WORD
  {
  }

  lemma SumModulo(sum: nat, out: nat, w0: nat, w1: nat, w2: nat, w3: nat)
    requires w0 < WORD && w1 < WORD && w2 < WORD && w3 < WORD && sum == FourWords(w0, w1, w2, w3) + TWO128 * out
    ensures FourWords(w0, w1, w2, w3) == Mod128(sum)
  {
    DivModUnique(sum, TWO128, out, FourWords(w0, w1, w2, w3));
  }

  lemma {:induction false} NumWords(s: seq<nat>)
    requires |s| == 16
    ensures Num(s) == FourWords(Num(s[..4]), Num(s[4..8]), Num(s[8..12]), Num(s[12..]))
  {
    assert Pow256(4) == WORD;
    NumAppends(s[..4], s[4..]);
    NumAppends(s[4..8], s[8..]);
    NumAppends(s[8..12], s[12..]);
    assert s == s[..4] + s[4..] && s[4..] == s[4..8] + s[8..] && s[8..] == s[8..12] + s[12..];
  }

  lemma {:induction false} NumBound(s: seq<nat>)
    requires AllBytes(s)
    ensures Num(s) < Pow256(|s|)
  {
    if s != [] {
      NumBound(s[1..]);
    }
  }

  //////////////////////////// The code, step by step ////////////////////////////

  function Of(h: array<nat>): Limbs
    requires h.Length == 5
    reads h
  {
    Limbs(h[0], h[1], h[2], h[3], h[4])
  }

  /** Four little-endian words loaded from 16 bytes. */
  method LoadWords(s: seq<nat>) returns (t0: nat, t1: nat, t2: nat, t3: nat)
    requires |s| == 16 && AllBytes(s)
    ensures t0 < WORD && t1 < WORD && t2 < WORD && t3 < WORD && FourWords(t0, t1, t2, t3) == Num(s)
  {
    hide Num;
    t0, t1, t2, t3 := Num(s[..4]), Num(s[4..8]), Num(s[8..12]), Num(s[12..]);
    assert Pow256(4) == WORD;
    NumBound(s[..4]);
    NumBound(s[4..8]);
    NumBound(s[8..12]);
    NumBound(s[12..]);
    NumWords(s);
  }

  /** Clamping limb by limb clamps the whole number. */
  lemma ClampLimbs(c: Limbs)
    requires Tight(c)
    ensures var r := Limbs(And(c.l0, 0x3ff_ffff), And(c.l1, 0x3ff_ff03), And(c.l2, 0x3ff_c0ff), And(c.l3, 0x3f0_3fff),
                           And(c.l4, 0xf_ffff));
            Clamped(r) && Value(r) == And(Value(c), CLAMP)
  {
    Pow2Values();
    var v4, v3 := c.l4, c.l3 + B * c.l4;
    var v2 := c.l2 + B * v3;
    var v1 := c.l1 + B * v2;
    var m3 := 0x3f0_3fff + B * 0xf_ffff;
    var m2 := 0x3ff_c0ff + B * m3;
    var m1 := 0x3ff_ff03 + B * m2;
    hide And, Pow2;
    JoinedAnd(c.l3, v4, 0x3f0_3fff, 0xf_ffff);
    JoinedAnd(c.l2, v3, 0x3ff_c0ff, m3);
    JoinedAnd(c.l1, v2, 0x3ff_ff03, m2);
    JoinedAnd(c.l0, v1, 0x3ff_ffff, m1);
  }

  lemma JoinedAnd(x: nat, y: nat, m: nat, n: nat)
    requires x < B && m < B
    ensures And(x + B * y, m + B * n) == And(x, m) + B * And(y, n)
  {
    Pow2Values();
    ShlIs(y, 26, B);
    ShlIs(n, 26, B);
    ShlIs(And(y, n), 26, B);
    hide And, Shl, Pow2;
    AndJoins(x, y, m, n, 26);
  }

  /** The clamped multiplier in limbs. */
  method LoadKey(key32: seq<nat>) returns (r: Limbs)
    requires |key32| == 32 && AllBytes(key32)
    ensures Clamped(r) && Value(r) == R(key32)
  {
    hide And, Or, Shr, Shl, U32, Num, Clamped;
    var t0, t1, t2, t3 := LoadWords(key32[..16]);
    var r0 := And(t0, 0x3ff_ffff);
    var r1 := And(Or(Shr(t0, 26), U32(Shl(t1, 6))), 0x3ff_ff03);
    var r2 := And(Or(Shr(t1, 20), U32(Shl(t2, 12))), 0x3ff_c0ff);
    var r3 := And(Or(Shr(t2, 14), U32(Shl(t3, 18))), 0x3f0_3fff);
    var r4 := And(Shr(t3, 8), 0xf_ffff);
    CutWords(t0, t1, t2, t3, 0x3ff_ffff, 0x3ff_ff03, 0x3ff_c0ff, 0x3f0_3fff);
    CutValue(t0, t1, t2, t3);
    hide Cut, Value;
    ClampLimbs(Cut(t0, t1, t2, t3));
    r := Limbs(r0, r1, r2, r3, r4);
  }

  /** The code's shifts and masks cut four words into limbs and mask each limb. */
  lemma CutWords(t0: nat, t1: nat, t2: nat, t3: nat, m0: nat, m1: nat, m2: nat, m3: nat)
    requires t0 < WORD && t1 < WORD && t2 < WORD && t3 < WORD && m0 <= M26 && m1 <= M26 && m2 <= M26 && m3 <= M26
    ensures var c := Cut(t0, t1, t2, t3);
            && And(t0, m0) == And(c.l0, m0)
            && And(Or(Shr(t0, 26), U32(Shl(t1, 6))), m1) == And(c.l1, m1)
            && And(Or(Shr(t1, 20), U32(Shl(t2, 12))), m2) == And(c.l2, m2)
            && And(Or(Shr(t2, 14), U32(Shl(t3, 18))), m3) == And(c.l3, m3)
            && Shr(t3, 8) == c.l4
  {
    hide And, Or, Shr, Shl, U32;
    TopWord(t3);
    LowBits(t0, m0);
    Straddle(t0, t1, 6, 0x40, 0x400_0000, 0x10_0000, m1);
    Straddle(t1, t2, 12, 0x1000, 0x10_0000, 0x4000, m2);
    Straddle(t2, t3, 18, 0x4_0000, 0x4000, 0x100, m3);
  }

  lemma TopWord(t3: nat)
    ensures Shr(t3, 8) == t3 / 0x100
  {
    assert Pow2(8) == 0x100;
  }

  /** Adds a 16-byte block to the limbs, with the bit beyond it if the block is a full one. */
  method AddBlock(h: array<nat>, x: seq<nat>, full: bool)
    requires h.Length == 5 && Small(Of(h)) && |x| == 16 && AllBytes(x)
    modifies h
    ensures Summed(Of(h))
    ensures Value(Of(h)) == old(Value(Of(h))) + Num(x) + if full then TWO128 else 0
  {
    hide And, Or, Shr, Shl, U32, Num;
    var t0, t1, t2, t3 := LoadWords(x);
    CutWords(t0, t1, t2, t3, M26, M26, M26, M26);
    CutValue(t0, t1, t2, t3);
    ghost var c := Cut(t0, t1, t2, t3);
    hide Cut;
    TopBit(c.l4);
    h[0] := h[0] + And(t0, M26);
    h[1] := h[1] + And(Or(Shr(t0, 26), U32(Shl(t1, 6))), M26);
    h[2] := h[2] + And(Or(Shr(t1, 20), U32(Shl(t2, 12))), M26);
    h[3] := h[3] + And(Or(Shr(t2, 14), U32(Shl(t3, 18))), M26);
    h[4] := h[4] + Or(Shr(t3, 8), if full then 0x100_0000 else 0);
    MaskTight(c);
    assert h[0] < WORD && h[1] < WORD && h[2] < WORD && h[3] < WORD && h[4] < WORD;  // fit 32 bits
  }

  lemma TopBit(x: nat)
    requires x < 0x100_0000
    ensures Or(x, 0x100_0000) == x + 0x100_0000 && Or(x, 0) == x
  {
    Pow2Values();
    OrAdds(x, 1, 24);
  }

  lemma MaskTight(c: Limbs)
    requires Tight(c)
    ensures And(c.l0, M26) == c.l0 && And(c.l1, M26) == c.l1 && And(c.l2, M26) == c.l2 && And(c.l3, M26) == c.l3
  {
    Pow2Values();
    hide And, Pow2;
    MaskIsMod(c.l0, 26);
    MaskIsMod(c.l1, 26);
    MaskIsMod(c.l2, 26);
    MaskIsMod(c.l3, 26);
  }

  /** Multiplies the limbs by r and carries, which leaves a value congruent to the product. */
  method MultiplyBy(h: array<nat>, r: Limbs)
    requires h.Length == 5 && Summed(Of(h)) && Clamped(r)
    modifies h
    ensures Small(Of(h))
    ensures ModP(Value(Of(h))) == MulMod(old(Value(Of(h))), Value(r))
  {
    ghost var was := Of(h);
    var d0 := h[0] * r.l0 + h[1] * r.l4 * 5 + h[2] * r.l3 * 5 + h[3] * r.l2 * 5 + h[4] * r.l1 * 5;
    var d1 := h[0] * r.l1 + h[1] * r.l0 + h[2] * r.l4 * 5 + h[3] * r.l3 * 5 + h[4] * r.l2 * 5;
    var d2 := h[0] * r.l2 + h[1] * r.l1 + h[2] * r.l0 + h[3] * r.l4 * 5 + h[4] * r.l3 * 5;
    var d3 := h[0] * r.l3 + h[1] * r.l2 + h[2] * r.l1 + h[3] * r.l0 + h[4] * r.l4 * 5;
    var d4 := h[0] * r.l4 + h[1] * r.l3 + h[2] * r.l2 + h[3] * r.l1 + h[4] * r.l0;
    ghost var d := Columns(was, r);
    assert d == Limbs(d0, d1, d2, d3, d4);
    ColumnsInRange(was, r);
    hide Columns, Value, Folded;
    CarryInto(h, d0, d1, d2, d3, d4);
    ColumnsValue(was, r);
    Congruent(Value(was), Value(r), Value(d), Folded(was, r), Value(Of(h)), Carried(d).1);
  }

  lemma Congruent(x: nat, r: nat, d: int, k: int, y: nat, out: int)
    requires x * r == d + P * k && d == y + P * out
    ensures ModP(y) == MulMod(x, r)
  {
    DivModUnique(x * r, P, y / P + out + k, y % P);
  }

  /** The partial reduction: the carry chain on 64-bit sums with 32-bit carries. It leaves small limbs, and a value
      less by a multiple of the prime. */
  method CarryInto(h: array<nat>, c0: nat, c1: nat, c2: nat, c3: nat, c4: nat)
    requires h.Length == 5 && InRange(Limbs(c0, c1, c2, c3, c4))
    modifies h
    ensures Small(Of(h)) && Of(h) == Carried(Limbs(c0, c1, c2, c3, c4)).0
    ensures Value(Limbs(c0, c1, c2, c3, c4)) == Value(Of(h)) + P * Carried(Limbs(c0, c1, c2, c3, c4)).1
  {
    hide And, Shr, U32, Hi, Lo, Value, Small;
    CarriedSmall(Limbs(c0, c1, c2, c3, c4));
    CarriedValue(Limbs(c0, c1, c2, c3, c4));
    var d0, d1, d2, d3, d4 := c0, c1, c2, c3, c4;
    LimbOps(d0);
    d1 := d1 + U32(Shr(d0, 26));
    LimbOps(d1);
    h[1] := And(d1, M26);
    d2 := d2 + U32(Shr(d1, 26));
    LimbOps(d2);
    h[2] := And(d2, M26);
    d3 := d3 + U32(Shr(d2, 26));
    LimbOps(d3);
    h[3] := And(d3, M26);
    d4 := d4 + U32(Shr(d3, 26));
    LimbOps(d4);
    h[4] := And(d4, M26);
    assert d1 < DWORD && d2 < DWORD && d3 < DWORD && d4 < DWORD;
    h[0] := And(d0, M26) + U32(Shr(d4, 26)) * 5;
    FoldCarry(h);
  }

  /** The carry out of the lowest limb. */
  method FoldCarry(h: array<nat>)
    requires h.Length == 5 && h[0] < WORD && h[1] < B
    modifies h
    ensures h[0] == old(Lo(h[0])) && h[1] == old(h[1] + Hi(h[0]))
    ensures h[2] == old(h[2]) && h[3] == old(h[3]) && h[4] == old(h[4])
  {
    hide And, Shr, Hi, Lo;
    LimbOps(h[0]);
    h[1] := h[1] + Shr(h[0], 26);
    assert h[1] < WORD;
    h[0] := And(h[0], M26);
  }

  lemma LimbOps(x: nat)
    ensures And(x, M26) == Lo(x) < B && Shr(x, 26) == Hi(x)
    ensures x < B * WORD ==> U32(Shr(x, 26)) == Hi(x) < WORD
    ensures x < 0x80_0000_0000_0000 + WORD ==> Hi(x) * 5 < WORD - B
  {
    Pow2Values();
    hide And, Pow2;
    MaskIsMod(x, 26);
  }

  /** One word from the low limb's rest a and the next limb shifted up. */
  lemma OrShift(a: nat, hi: nat, k: nat, p: nat, m: nat)
    requires p == Pow2(k) && a < p && m >= 1 && m * p == WORD
    ensures Or(a, U32(Shl(hi, k))) == a + hi % m * p
  {
    ShlIs(hi, k, p);
    ScaledRem(hi, m, p, 0);
    hide Or, Shl, Pow2;
    OrAdds(a, hi % m, k);
  }

  lemma PackOps(h: Limbs)
    requires Tight(h)
    ensures var (w0, w1, w2, w3) := Pack(h);
            && And(Or(h.l0, U32(Shl(h.l1, 26))), WORD - 1) == w0
            && And(Or(Shr(h.l1, 6), U32(Shl(h.l2, 20))), WORD - 1) == w1
            && And(Or(Shr(h.l2, 12), U32(Shl(h.l3, 14))), WORD - 1) == w2
            && And(Or(Shr(h.l3, 18), U32(Shl(h.l4, 8))), WORD - 1) == w3
  {
    PackShifts(h);
    hide And, Or, Shl, Shr, U32;
    PackValue(h);
    var (w0, w1, w2, w3) := Pack(h);
    AllOnes(w0);
    AllOnes(w1);
    AllOnes(w2);
    AllOnes(w3);
  }

  lemma PackShifts(h: Limbs)
    requires Tight(h)
    ensures var (w0, w1, w2, w3) := Pack(h);
            && Or(h.l0, U32(Shl(h.l1, 26))) == w0 && Or(Shr(h.l1, 6), U32(Shl(h.l2, 20))) == w1
            && Or(Shr(h.l2, 12), U32(Shl(h.l3, 14))) == w2 && Or(Shr(h.l3, 18), U32(Shl(h.l4, 8))) == w3
  {
    ShiftPowers();
    ShrIs(h.l1, 6, 0x40);
    ShrIs(h.l2, 12, 0x1000);
    ShrIs(h.l3, 18, 0x4_0000);
    hide Or, Shl, Shr, U32, Pow2;
    OrShift(h.l0, h.l1, 26, B, 0x40);
    OrShift(h.l1 / 0x40, h.l2, 20, 0x10_0000, 0x1000);
    OrShift(h.l2 / 0x1000, h.l3, 14, 0x4000, 0x4_0000);
    OrShift(h.l3 / 0x4_0000, h.l4, 8, 0x100, 0x100_0000);
  }

  lemma ShrIs(x: nat, k: nat, p: nat)
    requires p == Pow2(k)
    ensures Shr(x, k) == x / p
  {
  }

  lemma ShiftPowers()
    ensures Pow2(6) == 0x40 && Pow2(12) == 0x1000 && Pow2(14) == 0x4000 && Pow2(18) == 0x4_0000
    ensures Pow2(8) == 0x100 && Pow2(20) == 0x10_0000 && Pow2(26) == B
  {
    Pow2Values();
    Pow2Adds(6, 6);
    Pow2Adds(6, 8);
    Pow2Adds(6, 12);
    Pow2Adds(8, 12);
  }

  lemma AllOnes(x: nat)
    requires x < WORD
    ensures And(x, WORD - 1) == x && And(x, 0) == 0
  {
    Pow2Values();
    hide Pow2;
    MaskIsMod(x, 32);
  }

  /** The branch-free choice between x and y by a mask of all zeros or all ones. */
  lemma Chooses(x: nat, y: nat, b: nat)
    requires x < WORD && y < WORD && (b == 0 || b == WORD - 1)
    ensures Or(And(x, WORD - 1 - b), And(y, b)) == if b == 0 then x else y
  {
    AllOnes(x);
    AllOnes(y);
    hide And;
  }

  /** Fully carries the limbs: they become tight, and the value less by a multiple of the prime. */
  method CarryFully(h: array<nat>)
    requires h.Length == 5 && Small(Of(h))
    modifies h
    ensures Tight(Of(h)) && Of(h) == old(FullCarry(Of(h)).0)
    ensures old(Value(Of(h))) == Value(Of(h)) + P * old(FullCarry(Of(h)).1)
  {
    hide And, Shr, Hi, Lo, Value;
    FullCarryFits(Of(h));
    FullCarryIsTight(Of(h));
    LimbOps(h[1]);
    h[2], h[1] := h[2] + Shr(h[1], 26), And(h[1], M26);
    assert h[2] < WORD;
    LimbOps(h[2]);
    h[3], h[2] := h[3] + Shr(h[2], 26), And(h[2], M26);
    assert h[3] < WORD;
    LimbOps(h[3]);
    h[4], h[3] := h[4] + Shr(h[3], 26), And(h[3], M26);
    assert h[4] < WORD;
    LimbOps(h[4]);
    h[0], h[4] := h[0] + Shr(h[4], 26) * 5, And(h[4], M26);
    FoldCarry(h);
  }

  /** The sums of the full carry fit 32 bits. */
  lemma FullCarryFits(h: Limbs)
    requires Small(h)
    ensures var h2 := h.l2 + Hi(h.l1);
            var h3 := h.l3 + Hi(h2);
            var h4 := h.l4 + Hi(h3);
            h2 < WORD && h3 < WORD && h4 < WORD && h.l0 + Hi(h4) * 5 < WORD
  {
  }

  /** Subtracts the prime once if the value is not below it, without a branch. */
  method SubtractP(h: array<nat>)
    requires h.Length == 5 && Tight(Of(h))
    modifies h
    ensures Tight(Of(h)) && Value(Of(h)) == ModP(old(Value(Of(h))))
  {
    hide And, Or, Shr, Hi, Lo;
    ghost var was := Of(h);
    var t0 := h[0] + 5;
    LimbOps(t0);
    var t1 := h[1] + Shr(t0, 26);
    t0 := And(t0, M26);
    LimbOps(t1);
    var t2 := h[2] + Shr(t1, 26);
    t1 := And(t1, M26);
    LimbOps(t2);
    var t3 := h[3] + Shr(t2, 26);
    t2 := And(t2, M26);
    LimbOps(t3);
    var t4 := U32(h[4] + Shr(t3, 26) + WORD - B);
    assert t0 < WORD && t1 < WORD && t2 < WORD && t3 < WORD;
    t3 := And(t3, M26);
    MinusPValue(was);
    var b := U32(Shr(t4, 31) + WORD - 1);
    SignMask(t4, MinusP(was).1);
    Chooses(h[0], t0, b);
    Chooses(h[1], t1, b);
    Chooses(h[2], t2, b);
    Chooses(h[3], t3, b);
    Chooses(h[4], t4, b);
    h[0] := Or(And(h[0], WORD - 1 - b), And(t0, b));
    h[1] := Or(And(h[1], WORD - 1 - b), And(t1, b));
    h[2] := Or(And(h[2], WORD - 1 - b), And(t2, b));
    h[3] := Or(And(h[3], WORD - 1 - b), And(t3, b));
    h[4] := Or(And(h[4], WORD - 1 - b), And(t4, b));
    assert Of(h) == if MinusP(was).1 == 0 then MinusP(was).0 else was;
    OnceReduced(was);
  }

  lemma SignMask(t4: nat, top: int)
    requires 0 <= top + B && top <= 0 && t4 == U32(top + WORD)
    ensures U32(Shr(t4, 31) + WORD - 1) == if top == 0 then WORD - 1 else 0
  {
    assert Pow2(31) == 0x8000_0000 by { Pow2Values(); assert Pow2(32) == 2 * Pow2(31); }
  }

  lemma OnceReduced(h: Limbs)
    requires Tight(h)
    ensures Value(if MinusP(h).1 == 0 then MinusP(h).0 else h) == ModP(Value(h))
  {
    MinusPValue(h);
    var v := Value(h);
    assert v < 2 * P;
    DivModUnique(v, P, if v >= P then 1 else 0, if v >= P then v - P else v);
  }

  /** Packs the low 128 bits of the limbs into words. */
  method PackWords(h: array<nat>)
    requires h.Length == 5 && Tight(Of(h))
    modifies h
    ensures (h[0], h[1], h[2], h[3]) == old(Pack(Of(h)))
  {
    hide And, Or, Shl, Shr, U32, Pack;
    PackOps(Of(h));
    h[0] := And(Or(h[0], U32(Shl(h[1], 26))), WORD - 1);
    h[1] := And(Or(Shr(h[1], 6), U32(Shl(h[2], 20))), WORD - 1);
    h[2] := And(Or(Shr(h[2], 12), U32(Shl(h[3], 14))), WORD - 1);
    h[3] := And(Or(Shr(h[3], 18), U32(Shl(h[4], 8))), WORD - 1);
  }

  /** Adds the second half of the key to the packed words. */
  method AddPad(h: array<nat>, key32: seq<nat>)
    requires h.Length == 5 && |key32| == 32 && AllBytes(key32)
    requires h[0] < WORD && h[1] < WORD && h[2] < WORD && h[3] < WORD
    modifies h
    ensures h[0] < WORD && h[1] < WORD && h[2] < WORD && h[3] < WORD
    ensures FourWords(h[0], h[1], h[2], h[3]) == Mod128(old(FourWords(h[0], h[1], h[2], h[3])) + S(key32))
  {
    hide Num, FourWords;
    var x0, x1, x2, x3 := LoadWords(key32[16..]);
    WordSum(h[0], h[1], h[2], h[3], x0, x1, x2, x3);
    var d0 := h[0] + x0;
    var d1 := h[1] + x1 + Carry32(d0);
    var d2 := h[2] + x2 + Carry32(d1);
    var d3 := h[3] + x3 + Carry32(d2);
    assert d0 < DWORD && d1 < DWORD && d2 < DWORD && d3 < DWORD;
    h[0], h[1], h[2], h[3] := U32(d0), U32(d1), U32(d2), U32(d3);
  }

  /** Leaves the limbs tight and their value reduced modulo the prime. */
  method ReduceFully(h: array<nat>)
    requires h.Length == 5 && Small(Of(h))
    modifies h
    ensures Tight(Of(h)) && Value(Of(h)) == ModP(old(Value(Of(h))))
  {
    hide Value, ModP, FullCarry;
    ghost var was := Of(h);
    CarryFully(h);
    SameResidue(Value(was), Value(Of(h)), FullCarry(was).1);
    SubtractP(h);
  }

  /** Turns the final limbs into the tag's words. */
  method Finish(h: array<nat>, key32: seq<nat>)
    requires h.Length == 5 && Small(Of(h)) && |key32| == 32 && AllBytes(key32)
    modifies h
    ensures h[0] < WORD && h[1] < WORD && h[2] < WORD && h[3] < WORD
    ensures FourWords(h[0], h[1], h[2], h[3]) == Mod128(ModP(old(Value(Of(h)))) + S(key32))
  {
    hide FourWords, Value, Pack, S, ModP, Mod128, Small, AllBytes;
    ghost var v := Value(Of(h));
    ReduceFully(h);
    PackValue(Of(h));
    PackWords(h);
    AddPad(h, key32);
    SumsModulo(ModP(v), S(key32));
  }

  lemma SameResidue(v: nat, w: nat, out: nat)
    requires v == w + P * out
    ensures ModP(v) == ModP(w)
  {
    DivModUnique(v, P, w / P + out, w % P);
  }

  lemma SumsModulo(x: nat, y: nat)
    ensures Mod128(Mod128(x) + y) == Mod128(x + y)
  {
  }

  /** The 16 bytes of the block of data at i, padded if it is the last and short. */
  function PaddedBlock(data: seq<nat>, i: nat): (x: seq<nat>)
    requires i < |data| && AllBytes(data)
    ensures |x| == 16 && AllBytes(x)
  {
    if i + 16 > |data| then data[i..] + [1] + Zeros(15 - (|data| - i)) else data[i..i + 16]
  }

  lemma NumOne(k: nat)
    ensures Num([1] + Zeros(k)) == 1
  {
    NumZeros(k);
    assert ([1] + Zeros(k))[1..] == Zeros(k);
  }

  lemma ShortBlockNum(b: seq<nat>, k: nat)
    ensures Num(b + [1] + Zeros(k)) == BlockNum(b)
  {
    hide Num, Pow256;
    NumOne(k);
    NumAppends(b, [1] + Zeros(k));
    assert b + ([1] + Zeros(k)) == b + [1] + Zeros(k);
  }

  lemma PaddedNum(data: seq<nat>, i: nat)
    requires i < |data| && AllBytes(data)
    ensures var n := if i + 16 > |data| then |data| else i + 16;
            BlockNum(data[i..n]) == Num(PaddedBlock(data, i)) + if i + 16 <= |data| then TWO128 else 0
  {
    hide Num;
    assert Pow256(8) == DWORD;
    Pow256Adds(8, 8);
    hide Pow256;
    if i + 16 > |data| {
      assert data[i..|data|] == data[i..];
      ShortBlockNum(data[i..], 15 - (|data| - i));
    }
  }

  /** Adds data into the limbs; at the end of the data, turns them into the tag's words. */
  method Compress(h: array<nat>, key32: seq<nat>, data: seq<nat>, final: bool)
    requires h.Length == 5 && Small(Of(h)) && |key32| == 32 && AllBytes(key32) && AllBytes(data)
    modifies h
    ensures !final ==> Small(Of(h)) && ModP(Value(Of(h))) == Accumulate(ModP(old(Value(Of(h)))), R(key32), data)
    ensures final ==>
      && h[0] < WORD && h[1] < WORD && h[2] < WORD && h[3] < WORD
      && FourWords(h[0], h[1], h[2], h[3]) ==
         Mod128(Accumulate(ModP(old(Value(Of(h)))), R(key32), data) + S(key32))
  {
    hide Value, R, S, FourWords, Num, BlockNum, Accumulate, MulMod, Clamped, ModP, Mod128;
    var r := LoadKey(key32);
    ghost var start := ModP(Value(Of(h)));
    var i := 0;
    assert data[0..] == data;
    while i < |data|
      invariant Small(Of(h))
      invariant Accumulate(ModP(Value(Of(h))), R(key32), Rest(data, i)) == Accumulate(start, R(key32), data)
    {
      ghost var v := Value(Of(h));
      AddBlock(h, PaddedBlock(data, i), i + 16 <= |data|);
      MultiplyBy(h, r);
      BlockStep(v, R(key32), data, i);
      i := i + 16;
    }
    assert Rest(data, i) == [];
    AccumulateNone(ModP(Value(Of(h))), R(key32));
    if final {
      Finish(h, key32);
    }
  }

  function Rest(data: seq<nat>, i: nat): seq<nat> {
    if i <= |data| then data[i..] else []
  }

  lemma AccumulateNone(acc: nat, r: nat)
    ensures Accumulate(acc, r, []) == acc
  {
  }

  lemma BlockStep(v: nat, r: nat, data: seq<nat>, i: nat)
    requires i < |data| && AllBytes(data)
    ensures var n := Num(PaddedBlock(data, i)) + if i + 16 <= |data| then TWO128 else 0;
            Accumulate(ModP(v), r, Rest(data, i)) == Accumulate(MulMod(v + n, r), r, Rest(data, i + 16))
  {
    var n := if i + 16 > |data| then |data| else i + 16;
    PaddedNum(data, i);
    assert data[i..][..n - i] == data[i..n] && data[i..][n - i..] == Rest(data, i + 16);
    MulModCongruent(v, BlockNum(data[i..n]), r);
  }

  lemma MulModCongruent(v: nat, n: nat, r: nat)
    ensures MulMod(ModP(v) + n, r) == MulMod(v + n, r)
  {
    var q := v / P;
    MulNat(v % P + n, r);
    assert (v + n) * r == (v % P + n) * r + (q * r) * P;
    var x := (v % P + n) * r;
    DivModUnique((v + n) * r, P, x / P + q * r, x % P);
  }

  /** The tag of a message under a 32-byte key. */
  method Authenticate(key32: seq<nat>, data: seq<nat>) returns (mac16: seq<nat>)
    requires |key32| == 32 && AllBytes(key32) && AllBytes(data)
    ensures |mac16| == 16 && AllBytes(mac16) && Num(mac16) == Tag(key32, data)
  {
    var h := new nat[5](_ => 0);
    hide Num, FourWords, Accumulate, R, S;
    assert Value(Of(h)) == 0;
    Compress(h, key32, data, true);
    mac16 := LE32(h[0]) + LE32(h[1]) + LE32(h[2]) + LE32(h[3]);
    WordBytes(h[0], h[1], h[2], h[3]);
  }

  lemma WordBytes(w0: nat, w1: nat, w2: nat, w3: nat)
    requires w0 < WORD && w1 < WORD && w2 < WORD && w3 < WORD
    ensures Num(LE32(w0) + LE32(w1) + LE32(w2) + LE32(w3)) == FourWords(w0, w1, w2, w3)
  {
    hide Num, LE32;
    var s := LE32(w0) + LE32(w1) + LE32(w2) + LE32(w3);
    assert s[..4] == LE32(w0) && s[4..8] == LE32(w1) && s[8..12] == LE32(w2) && s[12..] == LE32(w3);
    LE32IsNum(w0);
    LE32IsNum(w1);
    LE32IsNum(w2);
    LE32IsNum(w3);
    NumWords(s);
  }
}
