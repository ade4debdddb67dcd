/** Compact difficulty targets: the proof-of-work test and the retargeting rule. */
module Difficulty {
  import opened Words
  import opened Bytes

  const TARGET_TIMESPAN: nat := 14 * 24 * 60 * 60
  const BLOCK_DIFFICULTY_INTERVAL: nat := 2016
  const MAX_SIZE: nat := 0x1d
  const MAX_TARGET: nat := 0x00ffff
  const LIMIT: nat := MAX_TARGET * Pow256(MAX_SIZE - 3)

  /** The number a compact target stands for: its low three bytes scaled by its top byte. */
  function Expand(compact: nat): nat {
    Scaled(compact % 0x100_0000, compact / 0x100_0000)
  }

  function Scaled(mantissa: nat, size: nat): nat {
    if size > 3 then MulNat(mantissa, Pow256(size - 3)); mantissa * Pow256(size - 3)
    else DivNat(mantissa, Pow256(3 - size)); mantissa / Pow256(3 - size)
  }

  function ByteLen(v: nat): nat {
    if v == 0 then 0 else 1 + ByteLen(v / 256)
  }

  /** The compact form of a number: its three highest bytes, or two when the highest bit would read as a sign. */
  function Compact(v: nat): nat {
    var size := ByteLen(v);
    var mantissa := if size <= 3 then v * Pow256(3 - size) else v / Pow256(size - 3);
    if mantissa >= 0x80_0000 then mantissa / 256 + (size + 1) * 0x100_0000 else mantissa + size * 0x100_0000
  }

  function Min(x: nat, y: nat): nat {
    if x < y then x else y
  }

  function Clamp(timespan: int): nat {
    if timespan < TARGET_TIMESPAN / 4 then TARGET_TIMESPAN / 4
    else if timespan > TARGET_TIMESPAN * 4 then TARGET_TIMESPAN * 4 else timespan
  }

  /** The value of x kept in a 32-bit signed integer. */
  function ToInt32(x: int): int {
    var r := x % 0x1_0000_0000;
    if r >= 0x8000_0000 then r - 0x1_0000_0000 else r
  }

  /** The header fields the difficulty check reads. */
  datatype Header = Header(blockHash: nat, prevBlock: nat, height: nat, timestamp: nat, target: nat)

  /** The target scaled by the time the last interval took, over the time it should take. */
  function TimesOver(target: nat, timespan: nat): nat {
    MulNat(target, timespan);
    target * timespan / TARGET_TIMESPAN
  }

  /** The retargeting rule in unbounded integers. */
  function Retargeted(previous: Header, transitionTime: nat): nat {
    var timespan := Clamp(previous.timestamp - transitionTime);
    Compact(Min(LIMIT, TimesOver(Expand(previous.target), timespan)))
  }

  /** What is left of a mantissa when a byte count of one divides it adds no whole number once scaled. */
  predicate NothingCarries(mantissa: nat, unit: nat, timespan: nat)
    requires unit >= 1
  {
    unit * Rem(mantissa / unit * timespan, TARGET_TIMESPAN) + Rem(mantissa, unit) * timespan < unit * TARGET_TIMESPAN
  }

  /** When scaling the mantissa alone is exact. Above size three it is if the scaled mantissa fills two bytes, or if
      both ways are above the limit. Up to size three the mantissa after normalising must fill two bytes, and neither
      the bytes it has below the whole number nor those that the previous target had there may count. */
  predicate Lossless(target: nat, timespan: nat) {
    var mantissa, size := target % 0x100_0000, target / 0x100_0000;
    var scaled := ScaleMantissa(mantissa, timespan);
    if size > 3 then scaled >= 0x8000 || (size > MAX_SIZE + 1 && TimesOver(Expand(target), timespan) >= LIMIT)
    else
      var (normal, size') := Normalise(scaled, size - 1);
      && normal >= 0x8000 && (size' < 3 ==> Rem(normal, Pow256(3 - size')) == 0)
      && NothingCarries(mantissa, Pow256(3 - size), timespan)
  }

  lemma CompactParts(x: nat)
    ensures And(x, 0x00ff_ffff) == x % 0x100_0000 && Shr(x, 24) == x / 0x100_0000 && Shr(x, 8) == x / 256
  {
    Pow2Values();
    hide Pow2, And;
    MaskIsMod(x, 24);
  }

  lemma CompactJoins(target: nat, size: nat)
    requires target < 0x100_0000
    ensures Or(target, Shl(size, 24)) == target + size * 0x100_0000
  {
    Pow2Values();
    hide Pow2, Or;
    OrAdds(target, size, 24);
  }

  /** Shifts a target right by whole bytes until its size is positive and its sign bit is clear. */
  function Normalise(target: nat, size: int): (r: (nat, nat))
    ensures 1 <= r.1 && r.0 <= 0x7f_ffff && size <= r.1
    decreases target, 1 - size
  {
    if size < 1 || target > 0x7f_ffff then Normalise(target / 256, size + 1) else (target, size)
  }

  /** The mantissa scaled by the timespan, one byte short of the full division. */
  function ScaleMantissa(mantissa: nat, timespan: nat): nat {
    MulNat(mantissa, timespan);
    mantissa * timespan / (TARGET_TIMESPAN / 256)
  }

  /** A mantissa and a size put together, no easier than the limit. */
  function Capped(r: (nat, nat)): nat {
    if r.1 > MAX_SIZE || (r.1 == MAX_SIZE && r.0 > MAX_TARGET) then MAX_TARGET + MAX_SIZE * 0x100_0000
    else r.0 + r.1 * 0x100_0000
  }

  /** The target that the code expects after previous, at a difficulty transition. */
  function NextTarget(previous: Header, transitionTime: nat): nat {
    var timespan := Clamp(ToInt32(previous.timestamp - transitionTime));
    Capped(Normalise(ScaleMantissa(previous.target % 0x100_0000, timespan), previous.target / 0x100_0000 - 1))
  }

  lemma ProductFits(mantissa: nat, timespan: nat)
    requires mantissa < 0x100_0000 && timespan <= TARGET_TIMESPAN * 4
    ensures mantissa * timespan < 0x1_0000_0000_0000_0000
  {
    MulAscends(mantissa, 0xff_ffff, timespan);
  }

  /** The retargeting arithmetic, on a 64-bit product. */
  method ComputeTarget(previous: Header, transitionTime: nat) returns (r: nat)
    requires previous.target < 0x1_0000_0000
    ensures r == NextTarget(previous, transitionTime)
    ensures Retargets(r, previous.target, previous.timestamp - transitionTime)
  {
    hide And, Or, Shr, Shl, ScaleMantissa, Retargets;
    var timespan := ToInt32(previous.timestamp - transitionTime);
    var size: int := Shr(previous.target, 24);
    var target: nat := And(previous.target, 0x00ff_ffff);
    CompactParts(previous.target);
    if timespan < TARGET_TIMESPAN / 4 {
      timespan := TARGET_TIMESPAN / 4;
    }
    if timespan > TARGET_TIMESPAN * 4 {
      timespan := TARGET_TIMESPAN * 4;
    }
    ProductFits(target, timespan);
    target := ScaleMantissa(target, timespan);
    size := size - 1;
    ghost var normal := Normalise(target, size);
    while size < 1 || target > 0x7f_ffff
      invariant Normalise(target, size) == normal
      decreases target, 1 - size
    {
      CompactParts(target);
      target, size := Shr(target, 8), size + 1;
    }
    if size > MAX_SIZE || (size == MAX_SIZE && target > MAX_TARGET) {
      target, size := MAX_TARGET, MAX_SIZE;
    }
    CompactJoins(target, size);
    r := Or(target, Shl(size, 24));
    NextTargetRetargets(previous, transitionTime);
  }

  predicate Linked(block: Header, previous: Header) {
    block.prevBlock == previous.blockHash && block.height == previous.height + 1
  }

  /** Whether block may follow previous. */
  predicate Follows(block: Header, previous: Header, transitionTime: nat) {
    && Linked(block, previous)
    && if block.height % BLOCK_DIFFICULTY_INTERVAL != 0 then block.target == previous.target
       else transitionTime != 0 && block.target == NextTarget(previous, transitionTime)
  }

  /** The two times are less than 2^31 apart. */
  predicate Near(previous: Header, transitionTime: nat) {
    -0x8000_0000 < previous.timestamp - transitionTime < 0x8000_0000
  }

  /** The target is the old one times the timespan over two weeks, no easier than 0xffff * 256^26, in compact form. */
  predicate ByRule(target: nat, was: nat, timespan: nat) {
    MulNat(Expand(was), timespan);
    target == Compact(Min(0xffff * Pow256(26), Expand(was) * timespan / 1209600))
  }

  /** Whether a verdict on a target agrees with the rule for a timespan: exactly where nothing is lost, and only
      there. */
  predicate Agrees(r: bool, target: nat, was: nat, timespan: nat) {
    if Lossless(was, timespan) then r <==> ByRule(target, was, timespan) else r ==> !ByRule(target, was, timespan)
  }

  /** The target is that of the rule where nothing is lost, and another one elsewhere, if the time elapsed is less than
      2^31. The time counts as three and a half days if it is less, and as eight weeks if it is more. */
  predicate Retargets(target: nat, was: nat, elapsed: int) {
    && (302400 <= elapsed <= 4838400 ==> Agrees(true, target, was, elapsed))
    && (-0x8000_0000 < elapsed < 302400 ==> Agrees(true, target, was, 302400))
    && (4838400 < elapsed < 0x8000_0000 ==> Agrees(true, target, was, 4838400))
  }

  lemma NextTargetRetargets(previous: Header, transitionTime: nat)
    requires previous.target < 0x1_0000_0000
    ensures Retargets(NextTarget(previous, transitionTime), previous.target, previous.timestamp - transitionTime)
  {
    hide NextTarget, Agrees;
    if Near(previous, transitionTime) {
      var elapsed := previous.timestamp - transitionTime;
      NextTargetByRule(previous, transitionTime, NextTarget(previous, transitionTime),
                       if elapsed < 302400 then 302400 else if elapsed > 4838400 then 4838400 else elapsed);
    }
  }

  /** Whether block may follow previous, given the time of the last difficulty transition. At a transition the target
      of the rule is the one accepted if and only if nothing is lost; the time that has passed counts as three and a
      half days if it is less, and as eight weeks if it is more. */
  method VerifyDifficulty(block: Header, previous: Header, transitionTime: nat) returns (r: bool)
    requires previous.target < 0x1_0000_0000
    ensures r <==> Follows(block, previous, transitionTime)
    ensures r ==> block.prevBlock == previous.blockHash && block.height == previous.height + 1
    ensures r && block.height % 2016 == 0 ==> transitionTime != 0
    ensures Linked(block, previous) && block.height % 2016 != 0 ==> (r <==> block.target == previous.target)
    ensures Linked(block, previous) && block.height % 2016 == 0 && transitionTime != 0 ==>
              var elapsed := previous.timestamp - transitionTime;
              && (302400 <= elapsed <= 4838400 ==> Agrees(r, block.target, previous.target, elapsed))
              && (-0x8000_0000 < elapsed < 302400 ==> Agrees(r, block.target, previous.target, 302400))
              && (4838400 < elapsed < 0x8000_0000 ==> Agrees(r, block.target, previous.target, 4838400))
  {
    hide NextTarget, ByRule, Lossless;
    if Near(previous, transitionTime) {
      var elapsed := previous.timestamp - transitionTime;
      NextTargetByRule(previous, transitionTime, block.target,
                       if elapsed < 302400 then 302400 else if elapsed > 4838400 then 4838400 else elapsed);
    }
    r := true;
    if block.prevBlock != previous.blockHash || block.height != previous.height + 1 {
      r := false;
    }
    if r && block.height % BLOCK_DIFFICULTY_INTERVAL == 0 && transitionTime == 0 {
      r := false;
    }
    if r && block.height % BLOCK_DIFFICULTY_INTERVAL == 0 {
      var target := ComputeTarget(previous, transitionTime);
      if block.target != target {
        r := false;
      }
    } else if r && block.target != previous.target {
      r := false;
    }
  }

  ////////////////////////////// Exact retargeting //////////////////////////////

  lemma {:induction false} ByteLenScaled(v: nat, q: nat, e: nat)
    requires v / Pow256(e) == q > 0
    ensures ByteLen(v) == ByteLen(q) + e
  {
    if e > 0 {
      DivDiv(v, 256, Pow256(e - 1));
      ByteLenScaled(v / 256, q, e - 1);
    }
  }

  lemma ByteLenOfScaled(q: nat)
    requires 0x8000 <= q < 0x4_0000_0000
    ensures ByteLen(q) == if q < 0x1_0000 then 2 else if q < 0x100_0000 then 3 else if q < 0x1_0000_0000 then 4 else 5
  {
    var a, b, c, d := q / 256, q / 256 / 256, q / 256 / 256 / 256, q / 256 / 256 / 256 / 256;
    assert ByteLen(d) == if d == 0 then 0 else 1;
    assert ByteLen(c) == if c == 0 then 0 else 1 + ByteLen(d);
    assert ByteLen(b) == if b == 0 then 0 else 1 + ByteLen(c);
    assert ByteLen(a) == 1 + ByteLen(b);
  }

  /** A number whose whole part over 256^e is q, as large as a scaled target gets, has the compact form
      that q normalised at size e + 3 has. */
  lemma CompactOf(v: nat, q: nat, e: nat)
    requires v / Pow256(e) == q && 0x8000 <= q < 0x4_0000_0000
    ensures var (target, size) := Normalise(q, e + 3); Compact(v) == target + size * 0x100_0000
  {
    if q < 0x1_0000 {
      CompactOfTwo(v, q, e);
    } else {
      var n := ByteLen(q);
      ByteLenOfScaled(q);
      ByteLenScaled(v, q, e);
      Pow256Adds(e, n - 3);
      DivDiv(v, Pow256(e), Pow256(n - 3));
      assert v / Pow256(n + e - 3) == q / Pow256(n - 3);
      CompactOfLong(v, n + e);
      CompactOfParts(q, e);
      hide ByteLen, Normalise, Pow256, Compact;
    }
  }

  lemma CompactOfLong(v: nat, n: nat)
    requires ByteLen(v) == n >= 3
    ensures var m := v / Pow256(n - 3);
            Compact(v) == if m >= 0x80_0000 then m / 256 + (n + 1) * 0x100_0000 else m + n * 0x100_0000
  {
    assert Pow256(0) == 1;
    hide ByteLen, Pow256;
  }

  lemma CompactOfTwo(v: nat, q: nat, e: nat)
    requires v / Pow256(e) == q && 0x8000 <= q < 0x1_0000
    ensures Compact(v) == q + (e + 3) * 0x100_0000
  {
    hide ByteLen;
    ByteLenOfScaled(q);
    ByteLenScaled(v, q, e);
    assert Pow256(0) == 1 && Pow256(1) == 256;
    if e > 1 {
      Pow256Adds(e - 1, 1);
      DivDiv(v, Pow256(e - 1), 256);
      var x := v / Pow256(e - 1);
      assert x / 256 == q;
      assert ByteLen(v) - 3 == e - 1;
      hide Pow256;
      assert Compact(v) == if x >= 0x80_0000 then x / 256 + (e + 3) * 0x100_0000 else x + (e + 2) * 0x100_0000;
      hide Compact;
    } else if e == 1 {
      assert v / 256 == q && Compact(v) == if v >= 0x80_0000 then v / 256 + 4 * 0x100_0000 else v + 3 * 0x100_0000;
      hide Compact, Pow256;
    } else {
      assert v == q;
      assert Compact(v) == if v * 256 >= 0x80_0000 then v * 256 / 256 + 3 * 0x100_0000 else v * 256 + 2 * 0x100_0000;
      hide Compact, Pow256;
    }
  }

  lemma CompactOfParts(q: nat, e: nat)
    requires 0x1_0000 <= q < 0x4_0000_0000
    ensures var n := if q < 0x100_0000 then 3 else if q < 0x1_0000_0000 then 4 else 5;
            var m := q / Pow256(n - 3);
            var (target, size) := Normalise(q, e + 3);
            target == (if m >= 0x80_0000 then m / 256 else m) && size == (if m >= 0x80_0000 then n + e + 1 else n + e)
  {
    assert Pow256(0) == 1 && Pow256(1) == 256 && Pow256(2) == 0x1_0000;
    assert q / 0x1_0000 == q / 256 / 256;
    assert Normalise(q / 256 / 256, e + 5) == (q / 256 / 256, e + 5);
  }

  /** Normalising keeps a number's whole part and leaves a mantissa of at least two bytes. */
  lemma NormaliseKeeps(v: nat, q: nat, e: nat)
    requires v / Pow256(e) == q && 0x8000 <= q < 0x4_0000_0000
    ensures var (target, size) := Normalise(q, e + 3);
            size >= 3 && 0x8000 <= target && v / Pow256(size - 3) == target
  {
    assert Pow256(0) == 1 && Pow256(1) == 256 && Pow256(2) == 0x1_0000;
    assert q / 0x1_0000 == q / 256 / 256;
    assert q > 0x7f_ffff ==> Normalise(q, e + 3) == Normalise(q / 256, e + 4);
    assert q / 256 > 0x7f_ffff ==> Normalise(q / 256, e + 4) == (q / 256 / 256, e + 5);
    Pow256Adds(e, 1);
    Pow256Adds(e, 2);
    DivDiv(v, Pow256(e), Pow256(1));
    DivDiv(v, Pow256(e), Pow256(2));
  }

  /** The capping rule on sizes and mantissas is the comparison with the limit itself. */
  lemma CapIsLimit(v: nat, target: nat, size: nat)
    requires size >= 3 && 0x8000 <= target <= 0x7f_ffff && v / Pow256(size - 3) == target
    ensures v > LIMIT ==> size > MAX_SIZE || (size == MAX_SIZE && target >= MAX_TARGET)
    ensures size > MAX_SIZE || (size == MAX_SIZE && target > MAX_TARGET) ==> v > LIMIT
  {
    var p := Pow256(size - 3);
    WholeBounds(v, p, target);
    if size > MAX_SIZE {
      Pow256Ascends(MAX_SIZE - 3, size - 3);
      MulAscends(0x8000, target, p);
    } else if size < MAX_SIZE {
      Pow256Ascends(size - 3, MAX_SIZE - 3);
      MulAscends(target + 1, 0x80_0000, p);
    } else if target > MAX_TARGET {
      MulAscends(MAX_TARGET + 1, target, p);
    } else if target < MAX_TARGET {
      MulAscends(target + 1, MAX_TARGET, p);
    }
  }

  lemma CompactLimit()
    ensures Compact(LIMIT) == MAX_TARGET + MAX_SIZE * 0x100_0000
  {
    DivModUnique(LIMIT, Pow256(25), 0xff_ff00, 0);
    CompactOf(LIMIT, 0xff_ff00, 25);
  }

  /** Scaling the mantissa by timespan/4725 gives the whole part of the scaled target, one byte lower. */
  lemma ScaledWhole(m: nat, e: nat, timespan: nat)
    ensures m * Pow256(e + 1) * timespan / TARGET_TIMESPAN / Pow256(e) == ScaleMantissa(m, timespan)
  {
    var p, a, k: nat := Pow256(e), m * timespan, TARGET_TIMESPAN / 256;
    calc {
      m * Pow256(e + 1) * timespan / TARGET_TIMESPAN / p;
      { assert m * Pow256(e + 1) * timespan == 256 * (a * p); MulNat(a, p); }
      256 * (a * p) / (256 * k) / p;
      { DivDiv(256 * (a * p), 256, k); DivModUnique(256 * (a * p), 256, a * p, 0); }
      a * p / k / p;
      { DivDiv(a * p, k, p); DivDiv(a * p, p, k); assert k * p == p * k; }
      a * p / p / k;
      { DivModUnique(a * p, p, a, 0); }
      a / k;
    }
  }

  lemma NextTargetOf(v: nat, q: nat, e: nat)
    requires v / Pow256(e) == q && 0x8000 <= q < 0x4_0000_0000
    ensures Compact(Min(LIMIT, v)) == Capped(Normalise(q, e + 3))
  {
    hide Normalise, Pow256, Compact;
    var (target, size) := Normalise(q, e + 3);
    CompactOf(v, q, e);
    NormaliseKeeps(v, q, e);
    CapIsLimit(v, target, size);
    CompactLimit();
  }

  lemma ScaledBound(mantissa: nat, timespan: nat)
    requires mantissa < 0x100_0000 && timespan <= TARGET_TIMESPAN * 4
    ensures ScaleMantissa(mantissa, timespan) < 0x4_0000_0000
  {
    MulAscends(mantissa, 0xff_ffff, timespan);
  }

  ///////////////////////////// Compact forms in general /////////////////////////////

  lemma {:induction false} ByteLenBounds(v: nat)
    requires v > 0
    ensures 1 <= v / Pow256(ByteLen(v) - 1) < 256 && v < Pow256(ByteLen(v))
  {
    if v >= 256 {
      ByteLenBounds(v / 256);
      var p := Pow256(ByteLen(v) - 2);
      DivDiv(v, 256, p);
    } else {
      assert ByteLen(v / 256) == 0;
      assert Pow256(0) == 1 && Pow256(1) == 256;
    }
  }

  /** A compact form has a mantissa of at least two bytes, except that of zero; it stands for no more than the number,
      and up to size three for exactly the number, the bytes below being zero. */
  lemma CompactShape(v: nat)
    requires v > 0
    ensures var c := Compact(v); var m, size := c % 0x100_0000, c / 0x100_0000;
            && 0x8000 <= m <= 0x7f_ffff && size > 0 && Scaled(m, size) <= v
            && (size <= 3 ==> Scaled(m, size) == v && Rem(m, Pow256(3 - size)) == 0)
  {
    var n := ByteLen(v);
    ByteLenBounds(v);
    assert Pow256(0) == 1 && Pow256(1) == 256 && Pow256(2) == 0x1_0000 && Pow256(3) == 0x100_0000;
    if n <= 3 {
      ShortShape(v, n);
    } else {
      LongShape(v, n);
    }
  }

  lemma ShortShape(v: nat, n: nat)
    requires 1 <= n <= 3 && ByteLen(v) == n && 1 <= v / Pow256(n - 1) < 256
    ensures var c := Compact(v); var m, size := c % 0x100_0000, c / 0x100_0000;
            && 0x8000 <= m <= 0x7f_ffff && size > 0 && Scaled(m, size) <= v
            && (size <= 3 ==> Scaled(m, size) == v && Rem(m, Pow256(3 - size)) == 0)
  {
    hide ByteLen;
    var x := v * Pow256(3 - n);
    assert Compact(v) == if x >= 0x80_0000 then x / 256 + (n + 1) * 0x100_0000 else x + n * 0x100_0000;
    hide Compact;
    ShortTop(v, n);
    CompactPartsAre(x, n);
    CompactPartsAre(x / 256, n + 1);
    Exactly(v, 3 - n);
    if n < 3 {
      Exactly(v, 2 - n);
    } else {
      assert Pow256(0) == 1 && Pow256(1) == 256;
    }
    hide Scaled, Rem, Pow256;
  }

  lemma ShortTop(v: nat, n: nat)
    requires 1 <= n <= 3 && 1 <= v / Pow256(n - 1) < 256
    ensures var x := v * Pow256(3 - n);
            && 0x1_0000 <= x < 0x100_0000 && (x >= 0x80_0000 ==> 0x8000 <= x / 256 < 0x1_0000)
            && (n < 3 ==> x / 256 == v * Pow256(2 - n))
  {
    assert Pow256(0) == 1 && Pow256(1) == 256 && Pow256(2) == 0x1_0000;
    hide Pow256;
  }

  /** A mantissa written with k more zero bytes stands for the same whole number. */
  lemma Exactly(v: nat, k: nat)
    requires k <= 3
    ensures Scaled(v * Pow256(k), 3 - k) == v && Rem(v * Pow256(k), Pow256(k)) == 0
  {
    DivModUnique(v * Pow256(k), Pow256(k), v, 0);
  }

  lemma LongShape(v: nat, n: nat)
    requires n > 3 && ByteLen(v) == n && 1 <= v / Pow256(n - 1) < 256
    ensures var c := Compact(v); var m, size := c % 0x100_0000, c / 0x100_0000;
            && 0x8000 <= m <= 0x7f_ffff && size > 3 && Scaled(m, size) <= v
  {
    hide ByteLen;
    var p := Pow256(n - 3);
    DivNat(v, p);
    var top: nat := v / p;
    assert Compact(v) == if top >= 0x80_0000 then top / 256 + (n + 1) * 0x100_0000 else top + n * 0x100_0000;
    hide Compact;
    assert Pow256(2) == 0x1_0000;
    Pow256Adds(n - 3, 2);
    DivDiv(v, p, 0x1_0000);
    WholeBounds(v, p, top);
    LongFits(v, n, top);
    hide Pow256, Scaled;
    ThreeByteTop(top);
    CompactPartsAre(top, n);
    CompactPartsAre(top / 256, n + 1);
  }

  lemma ThreeByteTop(top: nat)
    requires 1 <= top / 0x1_0000 < 256
    ensures 0x1_0000 <= top < 0x100_0000 && (top >= 0x80_0000 ==> 0x8000 <= top / 256 < 0x1_0000)
  {
  }

  lemma CompactPartsAre(mantissa: nat, size: nat)
    ensures mantissa < 0x100_0000 ==>
              var c := mantissa + size * 0x100_0000; c % 0x100_0000 == mantissa && c / 0x100_0000 == size
  {
  }

  lemma LongFits(v: nat, n: nat, top: nat)
    requires n > 3 && top * Pow256(n - 3) <= v
    ensures Scaled(top, n) <= v && Scaled(top / 256, n + 1) <= v
  {
    var p := Pow256(n - 3);
    assert Pow256(n - 2) == 256 * p;
    hide Pow256;
    MulAscends(top / 256 * 256, top, p);
    assert top / 256 * (256 * p) == top / 256 * 256 * p;
  }

  ///////////////////////////// Exactly when nothing is lost /////////////////////////////

  /** Where a number is written from its byte e on, normalising divides by whole bytes. */
  lemma {:induction false} NormaliseDivides(q: nat, size: int)
    ensures var (target, s) := Normalise(q, size); target == q / Pow256(s - size)
    decreases q, 1 - size
  {
    if size < 1 || q > 0x7f_ffff {
      NormaliseDivides(q / 256, size + 1);
      var (target, s) := Normalise(q, size);
      DivDiv(q, 256, Pow256(s - size - 1));
    } else {
      assert Pow256(0) == 1;
    }
  }

  /** Normalising goes through every size up to the last. */
  lemma {:induction false} NormaliseSteps(q: nat, size: int, i: nat, w: nat)
    requires Normalise(q, size).1 >= size + i && w == q / Pow256(i)
    ensures Normalise(q, size) == Normalise(w, size + i)
    decreases i
  {
    if i > 0 {
      assert size < 1 || q > 0x7f_ffff;
      DivDiv(q, 256, Pow256(i - 1));
      NormaliseSteps(q / 256, size + 1, i - 1, w);
    } else {
      assert Pow256(0) == 1;
    }
  }

  lemma NormaliseSmall(q: nat, size: nat)
    requires q < 0x4_0000_0000 && size <= 3
    ensures Normalise(q, size - 1).1 <= if size == 3 then 4 else 3
  {
    var a, b := q / 256, q / 256 / 256;
    assert b <= 0x7f_ffff;
    assert Normalise(b, 1) == (b, 1) && Normalise(b, 2) == (b, 2);
    assert Normalise(b, 3) == (b, 3) && Normalise(b, 4) == (b, 4);
    assert Normalise(a, 0) == Normalise(b, 1);
  }

  /** Above size three. */
  lemma LargeIff(mantissa: nat, size: nat, timespan: nat)
    requires mantissa < 0x100_0000 && size > 3 && timespan <= TARGET_TIMESPAN * 4
    ensures var q, v := ScaleMantissa(mantissa, timespan), TimesOver(Scaled(mantissa, size), timespan);
            Capped(Normalise(q, size - 1)) == Compact(Min(LIMIT, v)) <==>
              q >= 0x8000 || (size > MAX_SIZE + 1 && v >= LIMIT)
  {
    hide Pow256, Compact;
    var q, v := ScaleMantissa(mantissa, timespan), TimesOver(Scaled(mantissa, size), timespan);
    ScaledBound(mantissa, timespan);
    ScaledWhole(mantissa, size - 4, timespan);
    hide ScaleMantissa, Scaled, TimesOver;
    if q >= 0x8000 {
      NextTargetOf(v, q, size - 4);
    } else if v >= LIMIT {
      CompactLimit();
    } else {
      SmallMantissa(v, q, size - 1);
    }
  }

  /** A mantissa of less than two bytes is no compact form, and below the limit none is that of the limit. */
  lemma SmallMantissa(v: nat, q: nat, size: nat)
    requires v < LIMIT && q < 0x8000 && size >= 3
    ensures Capped((q, size)) != Compact(v)
  {
    hide Pow256, Compact;
    if v > 0 {
      CompactShape(v);
    } else {
      CompactZero();
    }
  }

  lemma CompactZero()
    ensures Compact(0) == 0
  {
  }

  /** Up to size three, on the number the mantissa scales to with nothing lost. */
  lemma SmallIff(q: nat, size: nat, v: nat)
    requires size <= 3 && q < 0x4_0000_0000 && (size == 3 ==> v == q / Pow256(1))
    ensures var (a, z) := Normalise(q, size - 1);
            Capped((a, z)) == Compact(v) <==>
              a >= 0x8000 && (z < 3 ==> Rem(a, Pow256(3 - z)) == 0) && v == q / Pow256(4 - size)
  {
    hide Compact, Pow256, Normalise, Scaled;
    var w := q / Pow256(4 - size);
    var (a, z) := Normalise(q, size - 1);
    NormaliseSmall(q, size);
    NormaliseDivides(q, size - 1);
    if z <= 3 {
      Pow256Adds(z - size + 1, 3 - z);
      DivDiv(q, Pow256(z - size + 1), Pow256(3 - z));
      assert w == a / Pow256(3 - z);
    }
    if a >= 0x8000 && (z < 3 ==> Rem(a, Pow256(3 - z)) == 0) && v == w {
      ExactIsCompact(q, size);
    }
    if a + z * 0x100_0000 == Compact(v) {
      CompactIsExact(a, z, v);
    }
  }

  /** A normal mantissa whose lower bytes are zero is the compact form of its whole number. */
  lemma ExactIsCompact(q: nat, size: nat)
    requires size <= 3 && q < 0x4_0000_0000
    requires var (a, z) := Normalise(q, size - 1);
             && a >= 0x8000 && z <= 4 && a == q / Pow256(z - size + 1) && (z == 4 ==> size == 3)
             && (z < 3 ==> Rem(a, Pow256(3 - z)) == 0 && q / Pow256(4 - size) == a / Pow256(3 - z))
    ensures var (a, z) := Normalise(q, size - 1); Compact(q / Pow256(4 - size)) == a + z * 0x100_0000
  {
    hide Compact, Normalise, Pow256;
    var w := q / Pow256(4 - size);
    var (a, z) := Normalise(q, size - 1);
    if z >= 3 {
      NormaliseSteps(q, size - 1, 4 - size, w);
      NormaliseDivides(w, 3);
      FirstPower(w, z);
      CompactOf(w, w, 0);
    } else {
      LowCompact(a, z);
    }
  }

  lemma FirstPower(w: nat, z: nat)
    requires 3 <= z
    ensures w / Pow256(0) == w && w / Pow256(z - 3) <= w
  {
    assert Pow256(0) == 1;
    DivLess(w, Pow256(z - 3));
  }

  lemma DivLess(w: nat, p: nat)
    requires p >= 1
    ensures w / p <= w
  {
  }

  lemma LowCompact(a: nat, z: nat)
    requires 0x8000 <= a <= 0x7f_ffff && 1 <= z < 3 && Rem(a, Pow256(3 - z)) == 0
    ensures Compact(a / Pow256(3 - z)) == a + z * 0x100_0000
  {
    assert Pow256(0) == 1 && Pow256(1) == 256 && Pow256(2) == 0x1_0000;
    hide Pow256;
    var w := a / Pow256(3 - z);
    assert w * Pow256(3 - z) == a;
    assert ByteLen(w / 256) == if w / 256 == 0 then 0 else 1 + ByteLen(w / 256 / 256);
    assert ByteLen(w) == 1 + ByteLen(w / 256);
    hide ByteLen;
    if z == 1 {
      assert w < 256 && Compact(w) == a + 0x100_0000;
    } else if w >= 256 {
      assert Compact(w) == a + 2 * 0x100_0000;
    } else {
      assert Compact(w) == w * 0x1_0000 / 256 + 2 * 0x100_0000;
    }
  }

  lemma CompactIsExact(a: nat, z: nat, v: nat)
    requires a <= 0x7f_ffff && z >= 1 && a + z * 0x100_0000 == Compact(v)
    ensures a >= 0x8000 && (z <= 3 ==> v == a / Pow256(3 - z) && Rem(a, Pow256(3 - z)) == 0)
  {
    hide Compact, Pow256;
    if v > 0 {
      CompactShape(v);
      assert z == 3 ==> a / 1 == a;
      FirstPower(a, 3);
    } else {
      CompactZero();
    }
  }

  /** Dividing by the unit before scaling gives the same if and only if what is left does not carry. */
  lemma CarryIff(m: nat, unit: nat, t: nat)
    requires unit >= 1
    ensures TimesOver(m / unit, t) == m * t / (unit * TARGET_TIMESPAN) <==> NothingCarries(m, unit, t)
  {
    var whole, rest: nat := m / unit, m % unit;
    MulNat(whole, t);
    MulNat(rest, t);
    var left: nat := whole * t % TARGET_TIMESPAN;
    var v: nat := TimesOver(whole, t);
    RemIs(whole * t, TARGET_TIMESPAN);
    RemIs(m, unit);
    hide Rem;
    assert whole * t == TARGET_TIMESPAN * v + left;
    assert m == unit * whole + rest;
    hide TimesOver;
    Expands(m, unit, whole, rest, t, v, left);
    MulNat(unit, left);
    CarryDecides(m * t, unit * TARGET_TIMESPAN, v, unit * left + rest * t);
  }

  lemma CarryDecides(x: int, d: nat, v: nat, sum: nat)
    requires d >= 1 && x == v * d + sum
    ensures v == x / d <==> sum < d
  {
    MulNat(v, d);
    if sum < d {
      DivModUnique(x, d, v, sum);
    } else {
      DivAbove(x, d, v);
    }
  }

  lemma RemIs(x: nat, m: nat)
    requires m >= 1
    ensures Rem(x, m) == x % m
  {
  }

  lemma Expands(m: nat, unit: nat, whole: nat, rest: nat, t: nat, v: nat, left: nat)
    requires m == unit * whole + rest && whole * t == TARGET_TIMESPAN * v + left
    ensures m * t == v * (unit * TARGET_TIMESPAN) + (unit * left + rest * t)
  {
    calc {
      m * t;
      (unit * whole + rest) * t;
      unit * (whole * t) + rest * t;
      unit * (TARGET_TIMESPAN * v + left) + rest * t;
      unit * (TARGET_TIMESPAN * v) + unit * left + rest * t;
      { assert unit * (TARGET_TIMESPAN * v) == v * (unit * TARGET_TIMESPAN); }
      v * (unit * TARGET_TIMESPAN) + (unit * left + rest * t);
    }
  }

  lemma DivAbove(x: nat, d: nat, v: nat)
    requires d >= 1 && x >= (v + 1) * d
    ensures x / d > v
  {
    WholeBounds(x, d, x / d);
    if x / d <= v {
      MulAscends(x / d + 1, v + 1, d);
    }
  }

  /** The number the scaled mantissa stands for has nothing lost but what is below one. */
  lemma WholeScaled(m: nat, size: nat, t: nat)
    requires size <= 3
    ensures ScaleMantissa(m, t) / Pow256(4 - size) == m * t / (Pow256(3 - size) * TARGET_TIMESPAN)
  {
    var d: nat, k: nat := Pow256(3 - size), TARGET_TIMESPAN / 256;
    MulNat(m, t);
    assert Pow256(4 - size) == 256 * d;
    DivDiv(m * t, k, 256 * d);
    assert k * (256 * d) == d * TARGET_TIMESPAN;
  }

  /** The code's next target is that of the rule in unbounded integers if and only if nothing is lost. */
  lemma RetargetIsExactIff(previous: Header, transitionTime: nat)
    requires previous.target < 0x1_0000_0000 && Near(previous, transitionTime)
    ensures NextTarget(previous, transitionTime) == Retargeted(previous, transitionTime) <==>
              Lossless(previous.target, Clamp(previous.timestamp - transitionTime))
  {
    hide Normalise, Pow256, Compact, TimesOver, ScaleMantissa, NothingCarries;
    var t := Clamp(previous.timestamp - transitionTime);
    var m, size := previous.target % 0x100_0000, previous.target / 0x100_0000;
    if size > 3 {
      hide Scaled;
      LargeIff(m, size, t);
    } else {
      ScaledBound(m, t);
      CarryIff(m, Pow256(3 - size), t);
      WholeScaled(m, size, t);
      NoCapNeeded(m, size, t);
      ThreeBytes(m, t);
      SmallIff(ScaleMantissa(m, t), size, TimesOver(m / Pow256(3 - size), t));
    }
  }

  lemma NoCapNeeded(m: nat, size: nat, t: nat)
    requires m < 0x100_0000 && size <= 3 && t <= TARGET_TIMESPAN * 4
    ensures TimesOver(m / Pow256(3 - size), t) <= LIMIT
  {
    var x := m / Pow256(3 - size);
    DivLess(m, Pow256(3 - size));
    MulAscends(x, 0xff_ffff, t);
    Pow256Ascends(4, MAX_SIZE - 3);
    assert Pow256(4) == 0x1_0000_0000;
  }

  lemma ThreeBytes(m: nat, t: nat)
    ensures TimesOver(m / Pow256(0), t) == ScaleMantissa(m, t) / Pow256(1)
  {
    assert Pow256(0) == 1 && Pow256(1) == 256;
    MulNat(m, t);
    DivDiv(m * t, TARGET_TIMESPAN / 256, 256);
  }

  lemma LimitIs()
    ensures LIMIT == 0xffff * Pow256(26)
    ensures LIMIT == 0xffff_0000_0000_0000_0000_0000_0000_0000_0000_0000_0000_0000_0000_0000
  {
    Pow256Adds(13, 13);
    SmallPowers();
  }

  lemma SmallPowers()
    ensures Pow256(13) == 0x100_0000_0000_0000_0000_0000_0000
  {
    Pow256Adds(6, 7);
    assert Pow256(1) == 256 && Pow256(3) == 0x100_0000;
    Pow256Adds(3, 3);
    Pow256Adds(1, 6);
  }

  /** The code's next target is that of the rule, for the time that counts, if and only if nothing is lost. */
  lemma NextTargetByRule(previous: Header, transitionTime: nat, target: nat, timespan: nat)
    requires previous.target < 0x1_0000_0000 && Near(previous, transitionTime)
    requires var elapsed := previous.timestamp - transitionTime;
             timespan == if elapsed < 302400 then 302400 else if elapsed > 4838400 then 4838400 else elapsed
    ensures Agrees(target == NextTarget(previous, transitionTime), target, previous.target, timespan)
  {
    RetargetIsExactIff(previous, transitionTime);
    RuleIs(target, previous, transitionTime);
    assert timespan == Clamp(previous.timestamp - transitionTime);
    hide NextTarget, Lossless, ByRule, Retargeted, Clamp;
  }

  lemma RuleIs(target: nat, previous: Header, transitionTime: nat)
    ensures ByRule(target, previous.target, Clamp(previous.timestamp - transitionTime)) <==>
              target == Retargeted(previous, transitionTime)
  {
    LimitIs();
    hide Compact, Expand, Pow256, Clamp;
  }

  /** Times 2^31 or more apart wrap around: one much later than the transition counts as three and a half days. */
  lemma FarTimes(previous: Header, transitionTime: nat)
    requires previous.target < 0x1_0000_0000 && previous.timestamp < 0x1_0000_0000 && transitionTime < 0x1_0000_0000
    requires !Near(previous, transitionTime)
    ensures var elapsed := previous.timestamp - transitionTime;
            && (elapsed >= 0x8000_0000 || elapsed == -0x8000_0000 ==>
                  NextTarget(previous, transitionTime) == NextTarget(previous.(timestamp := 302400), 0))
            && (elapsed < -0x8000_0000 ==>
                  NextTarget(previous, transitionTime) ==
                  NextTarget(previous.(timestamp := elapsed + 0x1_0000_0000), 0))
  {
    hide ScaleMantissa, Normalise, Capped;
  }

  /** Six weeks after the transition: three times the target. */
  lemma SixWeeks()
    ensures NextTarget(Header(1, 0, 2015, 3628801, 0x1b04_04cb), 1) == 0x1b0c_0e61
  {
    assert ScaleMantissa(0x0404cb, 3628800) == 0xc0e_6100;
    assert Normalise(0xc0e_6100, 0x1a) == Normalise(0xc_0e61, 0x1b) == (0xc_0e61, 0x1b);
  }

  /** A target that is normal above size three is retargeted exactly. */
  lemma NormalIsLossless(target: nat, timespan: nat)
    requires target / 0x100_0000 > 3 && target % 0x100_0000 >= 0x8000 && timespan >= TARGET_TIMESPAN / 4
    ensures Lossless(target, timespan)
  {
    MulAscends(0x8000, target % 0x100_0000, timespan);
    MulAscends(TARGET_TIMESPAN / 4, timespan, 0x8000);
    ScaledAtLeast(target % 0x100_0000 * timespan);
  }

  lemma ScaledAtLeast(x: nat)
    requires x >= 0x8000 * (TARGET_TIMESPAN / 4)
    ensures x / (TARGET_TIMESPAN / 256) >= 0x20_0000
  {
  }

  /** At size three the bytes below the whole number are kept, so the block with the target of the rule is refused and
      another one accepted: the claim that no precision is lost needs a larger size. */
  lemma SmallTargetsAreInexact()
    ensures var previous := Header(1, 0, 2015, 302401, 0x0300_8001);
            && Retargeted(previous, 1) == 0x0220_0000
            && !Follows(Header(2, 1, 2016, 302402, 0x0220_0000), previous, 1)
            && Follows(Header(2, 1, 2016, 302402, 0x0220_0040), previous, 1)
  {
    hide Retargeted, NextTarget;
    SmallByRule();
    SmallByCode();
  }

  lemma SmallByRule()
    ensures Retargeted(Header(1, 0, 2015, 302401, 0x0300_8001), 1) == 0x0220_0000
  {
    assert Pow256(1) == 256 && Pow256(0) == 1;
    hide Pow256;
    assert Expand(0x0300_8001) == 0x8001;
    assert TimesOver(0x8001, 302400) == 0x2000;
    assert ByteLen(0x2000) == 2;
    assert Compact(0x2000) == 0x0220_0000;
    hide Compact, TimesOver;
    Pow256Ascends(2, MAX_SIZE - 3);
    Pow256Adds(1, 1);
  }

  lemma SmallByCode()
    ensures NextTarget(Header(1, 0, 2015, 302401, 0x0300_8001), 1) == 0x0220_0040
  {
    assert ScaleMantissa(0x8001, 302400) == 0x20_0040;
    assert Normalise(0x20_0040, 2) == (0x20_0040, 2);
  }
}
