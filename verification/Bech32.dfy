/** Bech32 addresses: a human-readable part, a witness version and program in five-bit groups, and a checksum. */
module Bech32 {
  import opened Options

  function Plus(a: bv32, b: bv32): bv32 {
    a ^ b
  }

  /** What bit 25 + i of the checksum contributes to the next one. */
  function Tap(x: bv32, i: nat): bv32
    requires i < 5
  {
    if i == 0 then (0 - ((x >> 25) & 1)) & 0x3b6a57b2
    else if i == 1 then (0 - ((x >> 26) & 1)) & 0x26508e6d
    else if i == 2 then (0 - ((x >> 27) & 1)) & 0x1ea119fa
    else if i == 3 then (0 - ((x >> 28) & 1)) & 0x3d4233dd
    else (0 - ((x >> 29) & 1)) & 0x2a1462b3
  }

  function Shifted(x: bv32): bv32 {
    (x & 0x1ffffff) << 5
  }

  /** One step of the checksum. */
  function Poly(x: bv32): bv32 {
    Plus(Plus(Plus(Plus(Plus(Shifted(x), Tap(x, 0)), Tap(x, 1)), Tap(x, 2)), Tap(x, 3)), Tap(x, 4))
  }

  const LIMIT: bv32 := 0x4000_0000

  lemma TapIsLinear(x: bv32, y: bv32, i: nat)
    requires i < 5
    ensures Tap(Plus(x, y), i) == Plus(Tap(x, i), Tap(y, i))
  {
    if i == 0 {
      TapBits((x >> 25) & 1, (y >> 25) & 1, 0x3b6a57b2);
    } else if i == 1 {
      TapBits((x >> 26) & 1, (y >> 26) & 1, 0x26508e6d);
    } else if i == 2 {
      TapBits((x >> 27) & 1, (y >> 27) & 1, 0x1ea119fa);
    } else if i == 3 {
      TapBits((x >> 28) & 1, (y >> 28) & 1, 0x3d4233dd);
    } else {
      TapBits((x >> 29) & 1, (y >> 29) & 1, 0x2a1462b3);
    }
  }

  lemma TapBits(a: bv32, b: bv32, generator: bv32)
    requires a <= 1 && b <= 1
    ensures (0 - (a ^ b)) & generator == ((0 - a) & generator) ^ ((0 - b) & generator)
  {
  }

  lemma ShiftedIsLinear(x: bv32, y: bv32)
    ensures Shifted(Plus(x, y)) == Plus(Shifted(x), Shifted(y))
  {
  }

  lemma Exchange(a: bv32, b: bv32, c: bv32, d: bv32)
    ensures Plus(Plus(a, b), Plus(c, d)) == Plus(Plus(a, c), Plus(b, d))
  {
    PlusJoins(Plus(a, b), c, d);
    PlusSwaps(a, b, c);
    PlusJoins(Plus(a, c), b, d);
    hide Plus;
  }

  lemma PlusJoins(a: bv32, b: bv32, c: bv32)
    ensures Plus(Plus(a, b), c) == Plus(a, Plus(b, c))
  {
  }

  lemma PolyIsLinear(x: bv32, y: bv32)
    ensures Poly(Plus(x, y)) == Plus(Poly(x), Poly(y))
  {
    hide Tap, Shifted, Plus;
    ShiftedIsLinear(x, y);
    TapIsLinear(x, y, 0);
    TapIsLinear(x, y, 1);
    TapIsLinear(x, y, 2);
    TapIsLinear(x, y, 3);
    TapIsLinear(x, y, 4);
    var a, b := Shifted(x), Shifted(y);
    Exchange(a, b, Tap(x, 0), Tap(y, 0));
    a, b := Plus(a, Tap(x, 0)), Plus(b, Tap(y, 0));
    Exchange(a, b, Tap(x, 1), Tap(y, 1));
    a, b := Plus(a, Tap(x, 1)), Plus(b, Tap(y, 1));
    Exchange(a, b, Tap(x, 2), Tap(y, 2));
    a, b := Plus(a, Tap(x, 2)), Plus(b, Tap(y, 2));
    Exchange(a, b, Tap(x, 3), Tap(y, 3));
    a, b := Plus(a, Tap(x, 3)), Plus(b, Tap(y, 3));
    Exchange(a, b, Tap(x, 4), Tap(y, 4));
  }

  lemma PolyIsBounded(x: bv32)
    ensures Poly(x) < LIMIT
  {
  }

  /** No nonzero word of 30 bits is mapped to zero. */
  lemma PolyIsInjective(x: bv32)
    requires x < LIMIT && Poly(x) == 0
    ensures x == 0
  {
  }

  function Up(x: bv32): bv32 {
    x << 5
  }

  lemma PolyOfSmall(x: bv32)
    requires x < 0x200_0000
    ensures Poly(x) == Up(x)
  {
    assert (x >> 25) & 1 == 0 && (x >> 26) & 1 == 0 && (x >> 27) & 1 == 0 && (x >> 28) & 1 == 0 && (x >> 29) & 1 == 0;
    assert Tap(x, 0) == 0 && Tap(x, 1) == 0 && Tap(x, 2) == 0 && Tap(x, 3) == 0 && Tap(x, 4) == 0;
    hide Tap;
    PlusZero(Shifted(x));
  }

  lemma PlusZero(x: bv32)
    ensures Plus(x, 0) == x
  {
  }

  function Wide(v: bv8): bv32 {
    v as bv32
  }

  /** The checksum after some values. */
  function Fold(chk: bv32, values: seq<bv8>): bv32 {
    if values == [] then chk
    else Plus(Poly(Fold(chk, values[..|values| - 1])), Wide(values[|values| - 1]))
  }

  function Run(x: bv32, n: nat): bv32 {
    if n == 0 then x else Poly(Run(x, n - 1))
  }

  lemma {:induction false} FoldJoins(chk: bv32, a: seq<bv8>, b: seq<bv8>)
    ensures Fold(chk, a + b) == Fold(Fold(chk, a), b)
  {
    hide Poly, Plus, Wide;
    if b == [] {
      assert a + b == a;
    } else {
      assert (a + b)[..|a + b| - 1] == a + b[..|b| - 1];
      FoldJoins(chk, a, b[..|b| - 1]);
    }
  }

  lemma StepCarries(a: bv32, b: bv32, v: bv32)
    ensures Plus(Poly(Plus(a, b)), v) == Plus(Plus(Poly(a), v), Poly(b))
  {
    PolyIsLinear(a, b);
    hide Poly;
    PlusSwaps(Poly(a), Poly(b), v);
  }

  lemma PlusSwaps(a: bv32, b: bv32, v: bv32)
    ensures Plus(Plus(a, b), v) == Plus(Plus(a, v), b)
  {
  }

  /** A difference in the checksum is carried along independently of the values. */
  lemma {:induction false} FoldCarries(chk: bv32, d: bv32, values: seq<bv8>)
    ensures Fold(Plus(chk, d), values) == Plus(Fold(chk, values), Run(d, |values|))
  {
    hide Poly, Plus, Wide;
    if values != [] {
      var init := values[..|values| - 1];
      FoldCarries(chk, d, init);
      StepCarries(Fold(chk, init), Run(d, |init|), Wide(values[|values| - 1]));
    }
  }

  lemma {:induction false} RunIsNotZero(d: bv32, n: nat)
    requires d != 0 && d < LIMIT
    ensures Run(d, n) != 0 && Run(d, n) < LIMIT
  {
    hide Poly;
    if n > 0 {
      RunIsNotZero(d, n - 1);
      PolyIsBounded(Run(d, n - 1));
      if Poly(Run(d, n - 1)) == 0 {
        PolyIsInjective(Run(d, n - 1));
      }
    }
  }

  //////////////////////////////// The six checksum values ////////////////////////////////

  /** The i highest groups of five of the 30 bits of t: t shifted right by five for each group left out. */
  function High(t: bv32, i: nat): bv32
    requires i <= 6
    decreases 6 - i
  {
    if i == 6 then t else High(t, i + 1) >> 5
  }

  function CheckValue(t: bv32, i: nat): bv8
    requires i < 6
  {
    (High(t, i + 1) & 0x1f) as bv8
  }

  function CheckValues(t: bv32, n: nat): (s: seq<bv8>)
    requires n <= 6
    ensures |s| == n
  {
    if n == 0 then [] else CheckValues(t, n - 1) + [CheckValue(t, n - 1)]
  }

  lemma HighStep(t: bv32, i: nat)
    requires t < LIMIT && i < 6
    ensures High(t, i) < 0x200_0000 && Plus(Up(High(t, i)), Wide(CheckValue(t, i))) == High(t, i + 1)
  {
    hide Wide, Plus, Up;
    HighBounded(t, i + 1);
    HighDigit(High(t, i + 1));
  }

  lemma {:induction false} HighBounded(t: bv32, i: nat)
    requires t < LIMIT && i <= 6
    ensures High(t, i) < LIMIT
    decreases 6 - i
  {
    if i < 6 {
      HighBounded(t, i + 1);
      ShiftBounded(High(t, i + 1));
    }
  }

  lemma ShiftBounded(x: bv32)
    requires x < LIMIT
    ensures x >> 5 < LIMIT
  {
  }

  lemma HighDigit(h: bv32)
    requires h < LIMIT
    ensures h >> 5 < 0x200_0000 && Plus(Up(h >> 5), Wide((h & 0x1f) as bv8)) == h
  {
  }

  lemma HighPoly(t: bv32, i: nat)
    requires t < LIMIT && i < 6
    ensures Plus(Poly(High(t, i)), Wide(CheckValue(t, i))) == High(t, i + 1)
  {
    hide High, Wide, Plus, Up, Poly, CheckValue;
    HighStep(t, i);
    PolyOfSmall(High(t, i));
  }

  /** Appending the groups of t to the checked values adds t to the checksum. */
  lemma {:induction false} CheckValuesAdd(chk: bv32, t: bv32, n: nat)
    requires t < LIMIT && n <= 6
    ensures Fold(chk, CheckValues(t, n)) == Plus(Run(chk, n), High(t, n))
  {
    hide Poly, Plus, Wide, High, CheckValue;
    if n == 0 {
      HighOfNone(t);
      PlusZero(chk);
    } else {
      CheckValuesAdd(chk, t, n - 1);
      var values, v := CheckValues(t, n - 1), CheckValue(t, n - 1);
      assert (values + [v])[..|values|] == values;
      HighPoly(t, n - 1);
      StepCarries(High(t, n - 1), Run(chk, n - 1), Wide(v));
      PlusCommutes(High(t, n - 1), Run(chk, n - 1));
      PlusCommutes(High(t, n), Poly(Run(chk, n - 1)));
    }
  }

  lemma HighOfNone(t: bv32)
    requires t < LIMIT
    ensures High(t, 0) == 0 && High(t, 6) == t
  {
    assert High(t, 3) == High(t, 4) >> 5 == ((t >> 5) >> 5) >> 5;
    ShiftedOut(t);
  }

  lemma ShiftedOut(t: bv32)
    requires t < LIMIT
    ensures (((((t >> 5) >> 5) >> 5) >> 5) >> 5) >> 5 == 0
  {
  }

  lemma PlusCommutes(a: bv32, b: bv32)
    ensures Plus(a, b) == Plus(b, a)
  {
  }

  /** The checksum values of some values: what makes the whole fold to one. */
  function Checksum(chk: bv32): seq<bv8> {
    CheckValues(Plus(Run(chk, 6), 1), 6)
  }

  lemma {:induction false} FoldBounded(chk: bv32, values: seq<bv8>)
    requires chk < LIMIT
    ensures Fold(chk, values) < LIMIT
  {
    if values != [] {
      var p, v := Poly(Fold(chk, values[..|values| - 1])), Wide(values[|values| - 1]);
      PolyIsBounded(Fold(chk, values[..|values| - 1]));
      hide Poly, Wide;
      WideIsSmall(values[|values| - 1]);
      PlusBounded(p, v);
    }
  }

  lemma WideIsSmall(v: bv8)
    ensures Wide(v) < LIMIT
  {
  }

  lemma PlusBounded(a: bv32, b: bv32)
    requires a < LIMIT && b < LIMIT
    ensures Plus(a, b) < LIMIT
  {
  }

  lemma ChecksumIsRight(chk: bv32)
    requires chk < LIMIT
    ensures Fold(chk, Checksum(chk)) == 1 && |Checksum(chk)| == 6
  {
    hide Poly, Plus, Wide, High, CheckValue;
    var t := Plus(Run(chk, 6), 1);
    PolyIsBounded(Run(chk, 5));
    assert Run(chk, 6) == Poly(Run(chk, 5));
    hide Run, CheckValues;
    PlusBounded(Run(chk, 6), 1);
    CheckValuesAdd(chk, t, 6);
    HighOfNone(t);
    PlusTwice(Run(chk, 6), 1);
  }

  lemma PlusTwice(a: bv32, b: bv32)
    ensures Plus(a, Plus(a, b)) == b
  {
  }

  /** A different value anywhere makes the fold different. */
  lemma OneChange(chk: bv32, a: seq<bv8>, v: bv8, w: bv8, b: seq<bv8>)
    requires v != w
    ensures Fold(chk, a + [v] + b) != Fold(chk, a + [w] + b)
  {
    hide Poly, Plus, Wide, Run;
    var p, d := Poly(Fold(chk, a)), Plus(Wide(v), Wide(w));
    FoldJoins(chk, a + [v], b);
    FoldJoins(chk, a + [w], b);
    OneMoreValue(chk, a, v);
    OneMoreValue(chk, a, w);
    PlusJoins(p, Wide(v), d);
    PlusTwice(Wide(v), Wide(w));
    FoldCarries(Plus(p, Wide(v)), d, b);
    DifferentWide(v, w);
    RunIsNotZero(d, |b|);
    PlusDiffers(Fold(Plus(p, Wide(v)), b), Run(d, |b|));
  }

  lemma OneMoreValue(chk: bv32, a: seq<bv8>, v: bv8)
    ensures Fold(chk, a + [v]) == Plus(Poly(Fold(chk, a)), Wide(v))
  {
    hide Poly, Plus, Wide;
    assert (a + [v])[..|a|] == a;
  }

  lemma DifferentWide(v: bv8, w: bv8)
    requires v != w
    ensures Plus(Wide(v), Wide(w)) != 0 && Plus(Wide(v), Wide(w)) < LIMIT
  {
  }

  lemma PlusDiffers(a: bv32, b: bv32)
    requires b != 0
    ensures Plus(a, b) != a
  {
  }

  //////////////////////////////// Bytes and groups of five bits ////////////////////////////////

  function Left(a: bv8, n: nat): bv8
    requires n <= 8
  {
    if n == 0 then a else if n == 1 then a << 1 else if n == 2 then a << 2 else if n == 3 then a << 3
    else if n == 4 then a << 4 else if n == 5 then a << 5 else if n == 6 then a << 6 else if n == 7 then a << 7 else 0
  }

  function Right(a: bv8, n: nat): bv8
    requires n <= 8
  {
    if n == 0 then a else if n == 1 then a >> 1 else if n == 2 then a >> 2 else if n == 3 then a >> 3
    else if n == 4 then a >> 4 else if n == 5 then a >> 5 else if n == 6 then a >> 6 else if n == 7 then a >> 7 else 0
  }

  /** A byte, or zero past the end. */
  function At(d: seq<bv8>, j: nat): bv8 {
    if j < |d| then d[j] else 0
  }

  /** How many groups of five bits the bytes fill, the last one padded. */
  function GroupCount(n: nat): nat {
    (8 * n + 4) / 5
  }

  /** Group number p of five bits: those from bit 5p on, past the end zero. */
  function Five(d: seq<bv8>, p: nat): bv8 {
    var j, x := 5 * p / 8, 5 * p % 8;
    if x <= 3 then Right(At(d, j), 3 - x) & 0x1f
    else (Left(At(d, j), x - 3) | Right(At(d, j + 1), 11 - x)) & 0x1f
  }

  function Groups(d: seq<bv8>, n: nat): (s: seq<bv8>)
    ensures |s| == n
  {
    if n == 0 then [] else Groups(d, n - 1) + [Five(d, n - 1)]
  }

  /** The two groups the encoder makes at byte j, from what is left of the byte before and from the byte. */
  function FirstGroup(a: bv8, b: bv8, x: nat): bv8
    requires x <= 4
  {
    (Left(a, 5 - x) | Right(b, 3 + x)) & 0x1f
  }

  function SecondGroup(b: bv8, x: nat): bv8
    requires 2 <= x <= 4
  {
    Right(b, x - 2) & 0x1f
  }

  lemma EncoderPlace(j: nat)
    ensures var x, p := 8 * j % 5, 8 * j / 5;
            && j % 5 * 8 - j % 5 * 8 / 5 * 5 == x
            && (x == 0 ==> 5 * p / 8 == j && 5 * p % 8 == 0)
            && (x > 0 ==> j > 0 && 5 * p / 8 == j - 1 && 5 * p % 8 == 8 - x)
            && (x >= 2 ==> 5 * (p + 1) / 8 == j && 5 * (p + 1) % 8 == 5 - x)
            && 8 * (j + 1) / 5 == p + (if x >= 2 then 2 else 1)
            && (x == 0 <==> j % 5 == 0)
            && GroupCount(j) == p + (if x > 0 then 1 else 0)
  {
    var g, r := j / 5, j % 5;
    assert j == 5 * g + r;
  }

  lemma EncoderStep(d: seq<bv8>, j: nat)
    requires j <= |d|
    ensures var x, p := 8 * j % 5, 8 * j / 5;
            && (x == 0 && j < |d| ==> FirstGroup(if j > 0 then d[j - 1] else 0, At(d, j), 0) == Five(d, p))
            && (x > 0 ==> j > 0 && FirstGroup(d[j - 1], At(d, j), x) == Five(d, p))
            && (x >= 2 && j < |d| ==> SecondGroup(d[j], x) == Five(d, p + 1))
  {
    EncoderPlace(j);
    hide Left, Right;
    var x := 8 * j % 5;
    if x == 0 && j < |d| {
      NoneLeft(if j > 0 then d[j - 1] else 0, d[j]);
    }
  }

  lemma NoneLeft(a: bv8, b: bv8)
    ensures FirstGroup(a, b, 0) == Right(b, 3) & 0x1f
  {
  }

  /** What value number p contributes to byte q. */
  function Part(c: bv8, p: nat, q: nat): bv8 {
    var j, x := 5 * p / 8, 5 * p % 8;
    if j == q then Right(Left(c, 3), x) else if j + 1 == q && x > 3 then Left(c, 11 - x) else 0
  }

  function Either(a: bv8, b: bv8): bv8 {
    a | b
  }

  /** Byte q as put together from the first n values. */
  function Joined(values: seq<bv8>, n: nat, q: nat): bv8
    requires n <= |values|
  {
    if n == 0 then 0 else Either(Joined(values, n - 1, q), Part(values[n - 1], n - 1, q))
  }

  lemma {:induction false} GroupsAt(d: seq<bv8>, n: nat, p: nat)
    requires p < n
    ensures Groups(d, n)[p] == Five(d, p)
  {
    hide Five;
    if p < n - 1 {
      GroupsAt(d, n - 1, p);
    }
  }

  lemma {:induction false} NothingBefore(values: seq<bv8>, n: nat, q: nat)
    requires n <= |values| && 5 * n <= 8 * q
    ensures Joined(values, n, q) == 0
  {
    if n > 0 {
      NothingBefore(values, n - 1, q);
    }
  }

  lemma {:induction false} NothingAfter(values: seq<bv8>, m: nat, n: nat, q: nat)
    requires m <= n <= |values| && 8 * q + 8 <= 5 * m
    ensures Joined(values, n, q) == Joined(values, m, q)
  {
    if m < n {
      NothingAfter(values, m, n - 1, q);
      OrZero(Joined(values, n - 1, q));
    }
  }

  lemma OrZero(a: bv8)
    ensures Either(a, 0) == a && Either(0, a) == a
  {
  }

  lemma Byte0(b: bv8, n: bv8)
    ensures (((b >> 3) & 0x1f) << 3) | (((((b << 2) | (n >> 6)) & 0x1f) << 3) >> 5) == b
  {
  }

  lemma Byte1(m: bv8, b: bv8, n: bv8)
    ensures ((((m << 2) | (b >> 6)) & 0x1f) << 6) | ((((b >> 1) & 0x1f) << 3) >> 2)
            | (((((b << 4) | (n >> 4)) & 0x1f) << 3) >> 7) == b
  {
  }

  lemma Byte2(m: bv8, b: bv8, n: bv8)
    ensures ((((m << 4) | (b >> 4)) & 0x1f) << 4) | (((((b << 1) | (n >> 7)) & 0x1f) << 3) >> 4) == b
  {
  }

  lemma Byte3(m: bv8, b: bv8, n: bv8)
    ensures ((((m << 1) | (b >> 7)) & 0x1f) << 7) | ((((b >> 2) & 0x1f) << 3) >> 1)
            | (((((b << 3) | (n >> 5)) & 0x1f) << 3) >> 6) == b
  {
  }

  lemma Byte4(m: bv8, b: bv8)
    ensures ((((m << 3) | (b >> 5)) & 0x1f) << 5) | (((b & 0x1f) << 3) >> 3) == b
  {
  }

  /** The values in which byte q has bits are the number first, one more, and in three cases another. */
  predicate Covers(d: seq<bv8>, q: nat, first: nat, two: bool) {
    && 5 * first <= 8 * q && 8 * q + 8 <= 5 * (first + if two then 2 else 3)
    && var start := Either(Part(Five(d, first), first, q), Part(Five(d, first + 1), first + 1, q));
       At(d, q) == if two then start else Either(start, Part(Five(d, first + 2), first + 2, q))
  }

  lemma Covers0(d: seq<bv8>, g: nat)
    ensures Covers(d, 5 * g, 8 * g, true)
  {
    Byte0(At(d, 5 * g), At(d, 5 * g + 1));
    assert 5 * (8 * g + 1) / 8 == 5 * g && 5 * (8 * g + 1) % 8 == 5;
  }

  lemma Covers1(d: seq<bv8>, g: nat)
    ensures Covers(d, 5 * g + 1, 8 * g + 1, false)
  {
    Byte1(At(d, 5 * g), At(d, 5 * g + 1), At(d, 5 * g + 2));
    assert 5 * (8 * g + 1) / 8 == 5 * g && 5 * (8 * g + 1) % 8 == 5;
    assert 5 * (8 * g + 2) / 8 == 5 * g + 1 && 5 * (8 * g + 2) % 8 == 2;
    assert 5 * (8 * g + 3) / 8 == 5 * g + 1 && 5 * (8 * g + 3) % 8 == 7;
  }

  lemma Covers2(d: seq<bv8>, g: nat)
    ensures Covers(d, 5 * g + 2, 8 * g + 3, true)
  {
    Byte2(At(d, 5 * g + 1), At(d, 5 * g + 2), At(d, 5 * g + 3));
    assert 5 * (8 * g + 3) / 8 == 5 * g + 1 && 5 * (8 * g + 3) % 8 == 7;
    assert 5 * (8 * g + 4) / 8 == 5 * g + 2 && 5 * (8 * g + 4) % 8 == 4;
  }

  lemma Covers3(d: seq<bv8>, g: nat)
    ensures Covers(d, 5 * g + 3, 8 * g + 4, false)
  {
    Byte3(At(d, 5 * g + 2), At(d, 5 * g + 3), At(d, 5 * g + 4));
    assert 5 * (8 * g + 4) / 8 == 5 * g + 2 && 5 * (8 * g + 4) % 8 == 4;
    assert 5 * (8 * g + 5) / 8 == 5 * g + 3 && 5 * (8 * g + 5) % 8 == 1;
    assert 5 * (8 * g + 6) / 8 == 5 * g + 3 && 5 * (8 * g + 6) % 8 == 6;
  }

  lemma Covers4(d: seq<bv8>, g: nat)
    ensures Covers(d, 5 * g + 4, 8 * g + 6, true)
  {
    Byte4(At(d, 5 * g + 3), At(d, 5 * g + 4));
    assert 5 * (8 * g + 6) / 8 == 5 * g + 3 && 5 * (8 * g + 6) % 8 == 6;
    assert 5 * (8 * g + 7) / 8 == 5 * g + 4 && 5 * (8 * g + 7) % 8 == 3;
  }

  lemma SomeCover(d: seq<bv8>, q: nat) returns (first: nat, two: bool)
    ensures Covers(d, q, first, two) && first == 8 * q / 5 && 5 * (first + if two then 1 else 2) <= 8 * q + 7
  {
    hide Covers;
    var g := q / 5;
    if q % 5 == 0 {
      Covers0(d, g);
      first, two := 8 * g, true;
    } else if q % 5 == 1 {
      Covers1(d, g);
      first, two := 8 * g + 1, false;
    } else if q % 5 == 2 {
      Covers2(d, g);
      first, two := 8 * g + 3, true;
    } else if q % 5 == 3 {
      Covers3(d, g);
      first, two := 8 * g + 4, false;
    } else {
      Covers4(d, g);
      first, two := 8 * g + 6, true;
    }
  }

  /** Putting the groups of some bytes together gives the bytes. */
  lemma JoinedIsByte(d: seq<bv8>, q: nat)
    requires q < |d|
    ensures Joined(Groups(d, GroupCount(|d|)), GroupCount(|d|), q) == d[q]
  {
    hide Five, Part, Groups, Either;
    var values := Groups(d, GroupCount(|d|));
    var first, two := SomeCover(d, q);
    NothingBefore(values, first, q);
    GroupsAt(d, |values|, first);
    GroupsAt(d, |values|, first + 1);
    OrZero(Part(Five(d, first), first, q));
    assert Joined(values, first + 1, q) == Part(Five(d, first), first, q);
    if two {
      NothingAfter(values, first + 2, |values|, q);
    } else {
      GroupsAt(d, |values|, first + 2);
      NothingAfter(values, first + 3, |values|, q);
    }
  }

  //////////////////////////////// Characters ////////////////////////////////

  const SEPARATOR: bv8 := 0x31
  const OP_0: bv8 := 0x00
  const OP_1: bv8 := 0x51

  predicate IsUpper(c: bv8) {
    0x41 <= c <= 0x5a
  }

  predicate IsLower(c: bv8) {
    0x61 <= c <= 0x7a
  }

  function Lower(c: bv8): bv8 {
    if IsUpper(c) then c + 0x20 else c
  }

  /** The character of a value, from "qpzry9x8gf2tvdw0s3jn54khce6mua7l". */
  function CharOf(v: bv8): bv8 {
    if v == 0 then 0x71 else if v == 1 then 0x70 else if v == 2 then 0x7a else if v == 3 then 0x72 else
    if v == 4 then 0x79 else if v == 5 then 0x39 else if v == 6 then 0x78 else if v == 7 then 0x38 else
    if v == 8 then 0x67 else if v == 9 then 0x66 else if v == 10 then 0x32 else if v == 11 then 0x74 else
    if v == 12 then 0x76 else if v == 13 then 0x64 else if v == 14 then 0x77 else if v == 15 then 0x30 else
    if v == 16 then 0x73 else if v == 17 then 0x33 else if v == 18 then 0x6a else if v == 19 then 0x6e else
    if v == 20 then 0x35 else if v == 21 then 0x34 else if v == 22 then 0x6b else if v == 23 then 0x68 else
    if v == 24 then 0x63 else if v == 25 then 0x65 else if v == 26 then 0x36 else if v == 27 then 0x6d else
    if v == 28 then 0x75 else if v == 29 then 0x61 else if v == 30 then 0x37 else 0x6c
  }

  /** The value of a character of either case. */
  function DigitOf(c: bv8): Option<bv8> {
    var l := Lower(c);
    if l == 0x71 then Some(0) else if l == 0x70 then Some(1) else if l == 0x7a then Some(2) else
    if l == 0x72 then Some(3) else if l == 0x79 then Some(4) else if l == 0x39 then Some(5) else
    if l == 0x78 then Some(6) else if l == 0x38 then Some(7) else if l == 0x67 then Some(8) else
    if l == 0x66 then Some(9) else if l == 0x32 then Some(10) else if l == 0x74 then Some(11) else
    if l == 0x76 then Some(12) else if l == 0x64 then Some(13) else if l == 0x77 then Some(14) else
    if l == 0x30 then Some(15) else if l == 0x73 then Some(16) else if l == 0x33 then Some(17) else
    if l == 0x6a then Some(18) else if l == 0x6e then Some(19) else if l == 0x35 then Some(20) else
    if l == 0x34 then Some(21) else if l == 0x6b then Some(22) else if l == 0x68 then Some(23) else
    if l == 0x63 then Some(24) else if l == 0x65 then Some(25) else if l == 0x36 then Some(26) else
    if l == 0x6d then Some(27) else if l == 0x75 then Some(28) else if l == 0x61 then Some(29) else
    if l == 0x37 then Some(30) else if l == 0x6c then Some(31) else None
  }

  lemma CharIsPlain(v: bv8)
    requires v < 32
    ensures 33 <= CharOf(v) <= 126 && !IsUpper(CharOf(v)) && CharOf(v) != SEPARATOR
  {
  }

  lemma DigitTable()
    ensures DigitOf(0x71) == Some(0) && DigitOf(0x70) == Some(1) && DigitOf(0x7a) == Some(2) && DigitOf(0x72) == Some(3)
    ensures DigitOf(0x79) == Some(4) && DigitOf(0x39) == Some(5) && DigitOf(0x78) == Some(6) && DigitOf(0x38) == Some(7)
    ensures DigitOf(0x67) == Some(8) && DigitOf(0x66) == Some(9)
    ensures DigitOf(0x32) == Some(10) && DigitOf(0x74) == Some(11)
    ensures DigitOf(0x76) == Some(12) && DigitOf(0x64) == Some(13)
    ensures DigitOf(0x77) == Some(14) && DigitOf(0x30) == Some(15)
  {
  }

  lemma DigitTableEnd()
    ensures DigitOf(0x73) == Some(16) && DigitOf(0x33) == Some(17)
    ensures DigitOf(0x6a) == Some(18) && DigitOf(0x6e) == Some(19)
    ensures DigitOf(0x35) == Some(20) && DigitOf(0x34) == Some(21)
    ensures DigitOf(0x6b) == Some(22) && DigitOf(0x68) == Some(23)
    ensures DigitOf(0x63) == Some(24) && DigitOf(0x65) == Some(25)
    ensures DigitOf(0x36) == Some(26) && DigitOf(0x6d) == Some(27)
    ensures DigitOf(0x75) == Some(28) && DigitOf(0x61) == Some(29)
    ensures DigitOf(0x37) == Some(30) && DigitOf(0x6c) == Some(31)
  {
  }

  lemma CharIsListed(v: bv8)
    requires v < 32
    ensures (v == 0 ==> CharOf(v) == 0x71) && (v == 1 ==> CharOf(v) == 0x70)
    ensures (v == 2 ==> CharOf(v) == 0x7a) && (v == 3 ==> CharOf(v) == 0x72)
    ensures (v == 4 ==> CharOf(v) == 0x79) && (v == 5 ==> CharOf(v) == 0x39)
    ensures (v == 6 ==> CharOf(v) == 0x78) && (v == 7 ==> CharOf(v) == 0x38)
    ensures (v == 8 ==> CharOf(v) == 0x67) && (v == 9 ==> CharOf(v) == 0x66)
    ensures (v == 10 ==> CharOf(v) == 0x32) && (v == 11 ==> CharOf(v) == 0x74)
    ensures (v == 12 ==> CharOf(v) == 0x76) && (v == 13 ==> CharOf(v) == 0x64)
    ensures (v == 14 ==> CharOf(v) == 0x77) && (v == 15 ==> CharOf(v) == 0x30)
    ensures (v == 16 ==> CharOf(v) == 0x73) && (v == 17 ==> CharOf(v) == 0x33)
    ensures (v == 18 ==> CharOf(v) == 0x6a) && (v == 19 ==> CharOf(v) == 0x6e)
    ensures (v == 20 ==> CharOf(v) == 0x35) && (v == 21 ==> CharOf(v) == 0x34)
    ensures (v == 22 ==> CharOf(v) == 0x6b) && (v == 23 ==> CharOf(v) == 0x68)
    ensures (v == 24 ==> CharOf(v) == 0x63) && (v == 25 ==> CharOf(v) == 0x65)
    ensures (v == 26 ==> CharOf(v) == 0x36) && (v == 27 ==> CharOf(v) == 0x6d)
    ensures (v == 28 ==> CharOf(v) == 0x75) && (v == 29 ==> CharOf(v) == 0x61)
    ensures (v == 30 ==> CharOf(v) == 0x37) && (v == 31 ==> CharOf(v) == 0x6c)
  {
  }

  lemma SmallValue(v: bv8)
    requires v < 32
    ensures v == 0 || v == 1 || v == 2 || v == 3 || v == 4 || v == 5 || v == 6 || v == 7 || v == 8 || v == 9 || v == 10
         || v == 11 || v == 12 || v == 13 || v == 14 || v == 15 || v == 16 || v == 17 || v == 18 || v == 19 || v == 20
         || v == 21 || v == 22 || v == 23 || v == 24 || v == 25 || v == 26 || v == 27 || v == 28 || v == 29 || v == 30
         || v == 31
  {
  }

  lemma DigitOfChar(v: bv8)
    requires v < 32
    ensures DigitOf(CharOf(v)) == Some(v)
    ensures 33 <= CharOf(v) <= 126 && !IsUpper(CharOf(v)) && CharOf(v) != SEPARATOR
  {
    hide CharOf, DigitOf;
    CharIsPlain(v);
    DigitTable();
    DigitTableEnd();
    CharIsListed(v);
    SmallValue(v);
  }

  lemma DigitIsNoSeparator(c: bv8)
    ensures DigitOf(c).Some? ==> c != SEPARATOR && DigitOf(c).value < 32
  {
  }

  function Chars(values: seq<bv8>): (s: seq<bv8>)
    ensures |s| == |values|
  {
    seq(|values|, i requires 0 <= i < |values| => CharOf(values[i]))
  }

  predicate AllDigits(s: seq<bv8>) {
    forall i :: 0 <= i < |s| ==> DigitOf(s[i]).Some?
  }

  function DigitsOf(s: seq<bv8>): (values: seq<bv8>)
    requires AllDigits(s)
    ensures |values| == |s|
  {
    seq(|s|, i requires 0 <= i < |s| => DigitOf(s[i]).value)
  }

  predicate AllFive(values: seq<bv8>) {
    forall i :: 0 <= i < |values| ==> values[i] < 32
  }

  lemma DigitsOfChars(values: seq<bv8>)
    requires AllFive(values)
    ensures AllDigits(Chars(values)) && DigitsOf(Chars(values)) == values
    ensures forall i :: 0 <= i < |values| ==>
              33 <= Chars(values)[i] <= 126 && !IsUpper(Chars(values)[i]) && Chars(values)[i] != SEPARATOR
  {
    hide DigitOf, CharOf, IsUpper;
    forall i | 0 <= i < |values|
      ensures DigitOf(CharOf(values[i])) == Some(values[i])
      ensures 33 <= CharOf(values[i]) <= 126 && !IsUpper(CharOf(values[i])) && CharOf(values[i]) != SEPARATOR
    {
      DigitOfChar(values[i]);
    }
  }

  function TopBits(c: bv8): bv8 {
    Lower(c) >> 5
  }

  function LowBits(c: bv8): bv8 {
    c & 0x1f
  }

  function HighPart(hrp: seq<bv8>): seq<bv8> {
    seq(|hrp|, i requires 0 <= i < |hrp| => TopBits(hrp[i]))
  }

  function LowPart(hrp: seq<bv8>): seq<bv8> {
    seq(|hrp|, i requires 0 <= i < |hrp| => LowBits(hrp[i]))
  }

  /** The values the human-readable part puts into the checksum. */
  function Expand(hrp: seq<bv8>): seq<bv8> {
    HighPart(hrp) + [0] + LowPart(hrp)
  }

  //////////////////////////////// What the codec promises ////////////////////////////////

  datatype Decoding = Decoding(hrp: seq<bv8>, data: seq<bv8>)

  /** The place of the last separator from some place down, or zero. */
  function SeparatorFrom(addr: seq<bv8>, sep: nat): (r: nat)
    ensures r <= sep
  {
    if sep == 0 || (sep < |addr| && addr[sep] == SEPARATOR) then sep else SeparatorFrom(addr, sep - 1)
  }

  predicate Printable(addr: seq<bv8>) {
    && (forall i :: 0 <= i < |addr| ==> 33 <= addr[i] <= 126)
    && !((exists i :: 0 <= i < |addr| && IsLower(addr[i])) && (exists i :: 0 <= i < |addr| && IsUpper(addr[i])))
  }

  predicate WellFormed(addr: seq<bv8>) {
    var sep := SeparatorFrom(addr, |addr|);
    && Printable(addr) && 8 <= |addr| <= 90 && 1 <= sep && sep + 8 <= |addr| && AllDigits(addr[sep + 1..])
  }

  function ByteCount(groups: nat): nat {
    groups * 5 / 8
  }

  function Program(groups: seq<bv8>): (s: seq<bv8>)
    ensures |s| == ByteCount(|groups|)
  {
    seq(ByteCount(|groups|), q requires 0 <= q < ByteCount(|groups|) => Joined(groups, |groups|, q))
  }

  function Lowered(hrp: seq<bv8>): seq<bv8> {
    seq(|hrp|, i requires 0 <= i < |hrp| => Lower(hrp[i]))
  }

  function LengthByte(n: nat): bv8
    requires n < 256
  {
    n as bv8
  }

  function ByteValue(b: bv8): nat {
    b as nat
  }

  /** The human-readable part and the data of a valid address: the opcode of the version, the length of the program
      and the program. */
  function Decoded(addr: seq<bv8>): Option<Decoding> {
    if !WellFormed(addr) then None
    else
      var sep := SeparatorFrom(addr, |addr|);
      var values := DigitsOf(addr[sep + 1..]);
      var ver, groups := values[0], values[1..|values| - 6];
      if Fold(1, Expand(addr[..sep]) + values) != 1 || ver > 16 || !(2 <= ByteCount(|groups|) <= 40) then None
      else
        Some(Decoding(Lowered(addr[..sep]),
                      [if ver == 0 then OP_0 else ver + OP_1 - 1, LengthByte(ByteCount(|groups|))] + Program(groups)))
  }

  predicate GoodHrp(hrp: seq<bv8>) {
    |hrp| <= 84 && forall i :: 0 <= i < |hrp| ==> 33 <= hrp[i] <= 126 && !IsUpper(hrp[i])
  }

  function VersionOf(op: bv8): bv8 {
    if op >= OP_1 then op + 1 - OP_1 else 0
  }

  /** Whether a human-readable part, an opcode and a length are encoded. */
  predicate Encodable(hrp: seq<bv8>, op: bv8, len: nat) {
    && GoodHrp(hrp) && !(OP_0 < op < OP_1) && VersionOf(op) <= 16 && 2 <= len <= 40 && |hrp| + 2 + len + 6 < 91
  }

  function EncodedValues(hrp: seq<bv8>, ver: bv8, program: seq<bv8>): seq<bv8> {
    var values := [ver] + Groups(program, GroupCount(|program|));
    values + Checksum(Fold(1, Expand(hrp) + values))
  }

  /** The address for a version opcode and a program. */
  function Encoded(hrp: seq<bv8>, op: bv8, program: seq<bv8>): Option<seq<bv8>> {
    if !Encodable(hrp, op, |program|) then None
    else Some(hrp + [SEPARATOR] + Chars(EncodedValues(hrp, VersionOf(op), program)))
  }

  /** The buffer the encoder puts the address into, with a zero after it. */
  const BUFFER_SIZE: nat := 91

  /** An address and the zero after it stay inside the buffer if and only if the address has at most 90 characters. */
  lemma FitsBufferIff(hrp: seq<bv8>, op: bv8, program: seq<bv8>)
    requires Encoded(hrp, op, program).Some?
    ensures |Encoded(hrp, op, program).value| + 1 <= BUFFER_SIZE <==> |hrp| + 8 + GroupCount(|program|) <= 90
  {
    hide Groups, Checksum, Fold, Expand, CharOf, Encodable;
    ChecksumLength(Fold(1, Expand(hrp) + ([VersionOf(op)] + Groups(program, GroupCount(|program|)))));
  }

  lemma ChecksumLength(chk: bv32)
    ensures |Checksum(chk)| == 6
  {
    hide Run, Plus;
  }

  /** The encoder's test counts the program's bytes, not its groups: with a human-readable part of 42 letters and a
      program of 40 bytes it goes on, and the address does not fit. */
  lemma LongAddress()
    ensures var hrp: seq<bv8>, program: seq<bv8> := seq(42, _ => 0x61), seq(40, _ => 0);
            Encoded(hrp, OP_1, program).Some? && |Encoded(hrp, OP_1, program).value| + 1 > BUFFER_SIZE
  {
    hide Groups, Checksum, Fold, Expand, CharOf, EncodedValues, Chars;
    var hrp: seq<bv8>, program: seq<bv8> := seq(42, _ => 0x61), seq(40, _ => 0);
    assert Encodable(hrp, OP_1, 40);
    FitsBufferIff(hrp, OP_1, program);
  }

  lemma {:induction false} SeparatorIs(addr: seq<bv8>, sep: nat, at: nat)
    requires at <= sep && at < |addr| && addr[at] == SEPARATOR
    requires forall i :: at < i < |addr| ==> addr[i] != SEPARATOR
    ensures SeparatorFrom(addr, sep) == at
  {
    if at < sep {
      SeparatorIs(addr, sep - 1, at);
    }
  }

  lemma GroupCountBack(n: nat)
    ensures ByteCount(GroupCount(n)) == n
  {
  }

  lemma {:induction false} GroupsAreFive(d: seq<bv8>, n: nat)
    ensures AllFive(Groups(d, n))
  {
    if n > 0 {
      GroupsAreFive(d, n - 1);
      FiveIsSmall(d, n - 1);
    }
    hide Five;
  }

  lemma FiveIsSmall(d: seq<bv8>, p: nat)
    ensures Five(d, p) < 32
  {
    hide Left, Right, At;
    Masked(Right(At(d, 5 * p / 8), 8 - 5));
    var j, x := 5 * p / 8, 5 * p % 8;
    if x <= 3 {
      Masked(Right(At(d, j), 3 - x));
    } else {
      Masked(Left(At(d, j), x - 3) | Right(At(d, j + 1), 11 - x));
    }
  }

  lemma Masked(a: bv8)
    ensures a & 0x1f < 32
  {
  }

  lemma {:induction false} CheckValuesAreFive(t: bv32, n: nat)
    requires n <= 6
    ensures AllFive(CheckValues(t, n))
  {
    if n > 0 {
      CheckValuesAreFive(t, n - 1);
      CheckValueIsSmall(High(t, n));
    }
    hide High;
  }

  lemma CheckValueIsSmall(h: bv32)
    ensures (h & 0x1f) as bv8 < 32
  {
  }

  lemma ValuesAreRight(hrp: seq<bv8>, ver: bv8, program: seq<bv8>)
    requires ver <= 16
    ensures var values, n := EncodedValues(hrp, ver, program), GroupCount(|program|);
            && AllFive(values) && |values| == n + 7 && values[0] == ver
            && values[1..|values| - 6] == Groups(program, n) && Fold(1, Expand(hrp) + values) == 1
  {
    hide Fold, Expand, Groups, CheckValues, Plus, Run;
    var n := GroupCount(|program|);
    var vals := [ver] + Groups(program, n);
    var chk := Fold(1, Expand(hrp) + vals);
    GroupsAreFive(program, n);
    FoldBounded(1, Expand(hrp) + vals);
    ChecksumIsRight(chk);
    CheckValuesAreFive(Plus(Run(chk, 6), 1), 6);
    FoldJoins(1, Expand(hrp) + vals, Checksum(chk));
    assert Expand(hrp) + (vals + Checksum(chk)) == (Expand(hrp) + vals) + Checksum(chk);
    SmallVersion(ver);
  }

  lemma SmallVersion(ver: bv8)
    requires ver <= 16
    ensures ver < 32
  {
  }

  lemma VersionBack(op: bv8)
    requires !(OP_0 < op < OP_1)
    ensures var ver := VersionOf(op); op == if ver == 0 then OP_0 else ver + OP_1 - 1
  {
  }

  lemma LoweredBack(hrp: seq<bv8>)
    requires GoodHrp(hrp)
    ensures Lowered(hrp) == hrp
  {
  }

  lemma ProgramBack(program: seq<bv8>)
    ensures Program(Groups(program, GroupCount(|program|))) == program
  {
    hide Joined, Groups;
    var groups := Groups(program, GroupCount(|program|));
    GroupCountBack(|program|);
    forall q | 0 <= q < |program| ensures Joined(groups, |groups|, q) == program[q] {
      JoinedIsByte(program, q);
    }
  }

  /** The address is well-formed and its parts are those it was made of. */
  lemma PartsBack(hrp: seq<bv8>, values: seq<bv8>)
    requires hrp != [] && GoodHrp(hrp) && AllFive(values) && 7 <= |values| && 8 <= |hrp| + 1 + |values| <= 90
    ensures var addr := hrp + [SEPARATOR] + Chars(values);
            && SeparatorFrom(addr, |addr|) == |hrp| && WellFormed(addr)
            && addr[..|hrp|] == hrp && DigitsOf(addr[|hrp| + 1..]) == values
  {
    hide DigitOf, CharOf, IsUpper, IsLower, Chars, DigitsOf, Lower;
    var addr := hrp + [SEPARATOR] + Chars(values);
    DigitsOfChars(values);
    assert addr[|hrp| + 1..] == Chars(values);
    SeparatorIs(addr, |addr|, |hrp|);
    SeparatorIsPlain();
    assert forall i :: 0 <= i < |addr| ==> 33 <= addr[i] <= 126 && !IsUpper(addr[i]);
  }

  lemma SeparatorIsPlain()
    ensures 33 <= SEPARATOR <= 126 && !IsUpper(SEPARATOR)
  {
  }

  /** Decoding undoes encoding: every non-empty human-readable part and every program whose address fits in 90
      characters come back. */
  lemma RoundTrip(hrp: seq<bv8>, op: bv8, program: seq<bv8>)
    requires hrp != [] && Encoded(hrp, op, program).Some? && |Encoded(hrp, op, program).value| <= 90
    ensures Decoded(Encoded(hrp, op, program).value) ==
            Some(Decoding(hrp, [op, LengthByte(|program|)] + program))
  {
    hide Fold, Expand, Groups, CheckValues, Program, Chars, DigitsOf, WellFormed, VersionOf, LengthByte, Lowered;
    hide SeparatorFrom;
    var ver, n := VersionOf(op), GroupCount(|program|);
    var values := EncodedValues(hrp, ver, program);
    ValuesAreRight(hrp, ver, program);
    hide EncodedValues;
    PartsBack(hrp, values);
    GroupCountBack(|program|);
    ProgramBack(program);
    VersionBack(op);
    LoweredBack(hrp);
  }

  lemma LengthBack(b: bv8)
    ensures ByteValue(b) < 256 && LengthByte(ByteValue(b)) == b
  {
  }

  /** The same on the bytes the encoder takes: what is decoded is what was encoded. */
  lemma RoundTripOfData(hrp: seq<bv8>, data: seq<bv8>)
    requires |data| >= 2 && |data| == 2 + ByteValue(data[1]) && hrp != []
    requires Encoded(hrp, data[0], data[2..]).Some? && |Encoded(hrp, data[0], data[2..]).value| <= 90
    ensures Decoded(Encoded(hrp, data[0], data[2..]).value) == Some(Decoding(hrp, data))
  {
    hide Encoded, Decoded, ByteValue, LengthByte;
    RoundTrip(hrp, data[0], data[2..]);
    LengthBack(data[1]);
    assert data == [data[0], data[1]] + data[2..];
  }

  //////////////////////////////// One wrong character ////////////////////////////////

  lemma {:induction false} SeparatorSame(a: seq<bv8>, b: seq<bv8>, sep: nat, i: nat)
    requires |a| == |b| && sep <= |a| && i < |a| && a[i] != SEPARATOR && b[i] != SEPARATOR
    requires forall k :: 0 <= k < |a| && k != i ==> a[k] == b[k]
    ensures SeparatorFrom(a, sep) == SeparatorFrom(b, sep)
  {
    if sep > 0 {
      SeparatorSame(a, b, sep - 1, i);
    }
  }

  lemma {:induction false} SeparatorLast(addr: seq<bv8>, sep: nat, i: nat)
    requires SeparatorFrom(addr, sep) < i < |addr| && i <= sep
    ensures addr[i] != SEPARATOR
  {
    if i < sep {
      SeparatorLast(addr, sep - 1, i);
    }
  }

  /** Replacing one data character by another alphabet character of a different value is always detected. */
  lemma SubstitutionDetected(addr: seq<bv8>, i: nat, c: bv8)
    requires Decoded(addr).Some? && SeparatorFrom(addr, |addr|) < i < |addr|
    requires DigitOf(c).Some? && DigitOf(c) != DigitOf(addr[i])
    ensures Decoded(addr[i := c]) == None
  {
    hide DigitOf, Lower, Fold, Expand, Program, LengthByte, Lowered, Printable, SeparatorFrom;
    var sep, wrong := SeparatorFrom(addr, |addr|), addr[i := c];
    SeparatorLast(addr, |addr|, i);
    DigitIsNoSeparator(c);
    SeparatorSame(addr, wrong, |addr|, i);
    if WellFormed(wrong) {
      var values, others := DigitsOf(addr[sep + 1..]), DigitsOf(wrong[sep + 1..]);
      assert wrong[..sep] == addr[..sep];
      ChangedDigit(addr[sep + 1..], wrong[sep + 1..], i - sep - 1);
      hide WellFormed, DigitsOf;
      OneChangeAt(Expand(addr[..sep]), values, others, i - sep - 1);
    }
  }

  lemma ChangedDigit(a: seq<bv8>, b: seq<bv8>, k: nat)
    requires AllDigits(a) && AllDigits(b) && |a| == |b| && k < |a| && DigitOf(a[k]) != DigitOf(b[k])
    requires forall i :: 0 <= i < |a| && i != k ==> a[i] == b[i]
    ensures DigitsOf(a)[k] != DigitsOf(b)[k] && DigitsOf(a)[..k] == DigitsOf(b)[..k]
    ensures DigitsOf(a)[k + 1..] == DigitsOf(b)[k + 1..]
  {
    hide DigitOf;
  }

  lemma OneChangeAt(start: seq<bv8>, values: seq<bv8>, others: seq<bv8>, k: nat)
    requires |values| == |others| && k < |values| && values[k] != others[k]
    requires values[..k] == others[..k] && values[k + 1..] == others[k + 1..]
    ensures Fold(1, start + values) != Fold(1, start + others)
  {
    hide Fold;
    var a, b := values[..k], values[k + 1..];
    assert values == a + [values[k]] + b && others == a + [others[k]] + b;
    assert start + values == (start + a) + [values[k]] + b && start + others == (start + a) + [others[k]] + b;
    OneChange(1, start + a, values[k], others[k], b);
  }

  //////////////////////////////// The methods ////////////////////////////////

  lemma FoldZero(chk: bv32, a: seq<bv8>)
    ensures Fold(chk, a + [0]) == Poly(Fold(chk, a))
  {
    hide Poly, Plus;
    OneMoreValue(chk, a, 0);
    PlusZero(Poly(Fold(chk, a)));
    assert Wide(0) == 0;
  }

  /** The checksum of a human-readable part, its letters taken as lower-case. */
  method FoldHrp(hrp: seq<bv8>) returns (chk: bv32)
    ensures chk == Fold(1, Expand(hrp))
  {
    hide Fold, Poly, Plus, Wide, TopBits, LowBits;
    chk := 1;
    FoldNone(1);
    ghost var seen: seq<bv8> := [];
    for i := 0 to |hrp|
      invariant chk == Fold(1, seen) && seen == HighPart(hrp)[..i]
    {
      OneMoreValue(1, seen, TopBits(hrp[i]));
      seen := seen + [TopBits(hrp[i])];
      chk := Plus(Poly(chk), Wide(TopBits(hrp[i])));
    }
    FoldZero(1, seen);
    seen := seen + [0];
    chk := Poly(chk);
    ghost var high := HighPart(hrp) + [0];
    for i := 0 to |hrp|
      invariant chk == Fold(1, seen) && seen == high + LowPart(hrp)[..i]
    {
      OneMoreValue(1, seen, LowBits(hrp[i]));
      seen := seen + [LowBits(hrp[i])];
      chk := Plus(Poly(chk), Wide(LowBits(hrp[i])));
    }
    assert LowPart(hrp)[..|hrp|] == LowPart(hrp);
    assert seen == Expand(hrp);
  }

  lemma FoldNone(chk: bv32)
    ensures Fold(chk, []) == chk
  {
  }

  method CheckHrp(hrp: seq<bv8>) returns (ok: bool)
    ensures ok == GoodHrp(hrp)
  {
    for i := 0 to |hrp|
      invariant i <= 84 && forall k :: 0 <= k < i ==> 33 <= hrp[k] <= 126 && !IsUpper(hrp[k])
    {
      if i > 83 || hrp[i] < 33 || hrp[i] > 126 || IsUpper(hrp[i]) {
        return false;
      }
    }
    return true;
  }

  lemma CharsAppend(a: seq<bv8>, c: bv8)
    ensures Chars(a + [c]) == Chars(a) + [CharOf(c)]
  {
    hide CharOf;
  }

  /** Appends the groups of a program to an address and puts them into the checksum. */
  method AppendGroups(program: seq<bv8>, chk0: bv32, addr0: seq<bv8>, ghost before: seq<bv8>)
    returns (chk: bv32, addr: seq<bv8>)
    requires chk0 == Fold(1, before)
    ensures chk == Fold(1, before + Groups(program, GroupCount(|program|)))
    ensures addr == addr0 + Chars(Groups(program, GroupCount(|program|)))
  {
    hide Fold, Poly, Plus, Wide, CharOf, Five, FirstGroup, SecondGroup, Groups, Chars;
    var len := |program|;
    var a: bv8, b: bv8 := 0, 0;
    chk, addr := chk0, addr0;
    ghost var groups: seq<bv8> := [];
    NoGroups(program, before, addr0);
    for j := 0 to len + 1
      invariant groups == Groups(program, if j <= len then 8 * j / 5 else GroupCount(len))
      invariant chk == Fold(1, before + groups) && addr == addr0 + Chars(groups)
      invariant b == if 0 < j <= len then program[j - 1] else 0
    {
      a, b := b, if j < len then program[j] else 0;
      var x := j % 5 * 8 - j % 5 * 8 / 5 * 5;
      EncoderPlace(j);
      EncoderStep(program, j);
      var c := FirstGroup(a, b, x);
      if j < len || j % 5 > 0 {
        OneMoreGroup(program, 8 * j / 5, before, groups, addr0, c);
        groups := groups + [c];
        chk := Plus(Poly(chk), Wide(c));
        addr := addr + [CharOf(c)];
      }
      if x >= 2 && j < len {
        c := SecondGroup(b, x);
        OneMoreGroup(program, 8 * j / 5 + 1, before, groups, addr0, c);
        groups := groups + [c];
        chk := Plus(Poly(chk), Wide(c));
        addr := addr + [CharOf(c)];
      }
    }
  }

  lemma NoGroups(program: seq<bv8>, before: seq<bv8>, addr: seq<bv8>)
    ensures Groups(program, 0) == [] && before + [] == before && addr + Chars([]) == addr
  {
  }

  lemma OneMoreGroup(program: seq<bv8>, p: nat, before: seq<bv8>, groups: seq<bv8>, addr: seq<bv8>, c: bv8)
    requires groups == Groups(program, p) && c == Five(program, p)
    ensures groups + [c] == Groups(program, p + 1)
    ensures Fold(1, before + (groups + [c])) == Plus(Poly(Fold(1, before + groups)), Wide(c))
    ensures addr + Chars(groups + [c]) == addr + Chars(groups) + [CharOf(c)]
  {
    hide Fold, Poly, Plus, Wide, CharOf, Five;
    CharsAppend(groups, c);
    OneMoreValue(1, before + groups, c);
    assert before + (groups + [c]) == before + groups + [c];
  }

  lemma RunSteps(chk: bv32, n: nat)
    ensures Run(chk, n + 1) == Poly(Run(chk, n)) && Run(chk, 0) == chk
  {
  }

  /** The encoder: the data is the opcode of the version, the length of the program and the program. */
  method Encode(hrp: seq<bv8>, data: seq<bv8>) returns (r: Option<seq<bv8>>)
    requires |data| >= 2 && 2 + ByteValue(data[1]) <= |data|
    ensures r == Encoded(hrp, data[0], data[2..2 + ByteValue(data[1])])
    ensures r.Some? ==> (|r.value| + 1 <= BUFFER_SIZE <==> |hrp| + 8 + GroupCount(ByteValue(data[1])) <= 90)
  {
    hide Fold, Poly, Plus, Wide, CharOf, Groups, Chars, CheckValue, GoodHrp, Expand, Run, ByteValue, GroupCount;
    var ok := CheckHrp(hrp);
    if !ok {
      return None;
    }
    var chk := FoldHrp(hrp);
    var addr := hrp + [SEPARATOR];
    if OP_0 < data[0] < OP_1 {
      return None;
    }
    var ver := VersionOf(data[0]);
    var len := ByteValue(data[1]);
    if ver > 16 || len < 2 || len > 40 || |addr| + 1 + len + 6 >= 91 {
      return None;
    }
    ghost var before := Expand(hrp);
    OneMoreValue(1, before, ver);
    chk := Plus(Poly(chk), Wide(ver));
    addr := addr + [CharOf(ver)];
    chk, addr := AppendGroups(data[2..2 + len], chk, addr, before + [ver]);
    addr := AppendChecksum(chk, addr);
    AddressParts(hrp, ver, data[2..2 + len]);
    r := Some(addr);
    FitsBufferIff(hrp, data[0], data[2..2 + len]);
  }

  method AppendChecksum(chk0: bv32, addr0: seq<bv8>) returns (addr: seq<bv8>)
    ensures addr == addr0 + Chars(Checksum(chk0))
  {
    hide Poly, Plus, CharOf, CheckValue, Run, Chars;
    var chk := chk0;
    RunSteps(chk0, 0);
    for j := 0 to 6
      invariant chk == Run(chk0, j)
    {
      RunSteps(chk0, j);
      chk := Poly(chk);
    }
    chk := Plus(chk, 1);
    addr := addr0;
    NoGroups([], [], addr0);
    for j := 0 to 6
      invariant addr == addr0 + Chars(CheckValues(chk, j))
    {
      CharsAppend(CheckValues(chk, j), CheckValue(chk, j));
      addr := addr + [CharOf(CheckValue(chk, j))];
    }
  }

  lemma AddressParts(hrp: seq<bv8>, ver: bv8, program: seq<bv8>)
    ensures var groups := Groups(program, GroupCount(|program|));
            var chk := Fold(1, Expand(hrp) + [ver] + groups);
            hrp + [SEPARATOR] + Chars(EncodedValues(hrp, ver, program)) ==
            hrp + [SEPARATOR] + [CharOf(ver)] + Chars(groups) + Chars(Checksum(chk))
  {
    hide Fold, CharOf, Groups, Checksum, Expand, Chars;
    var groups := Groups(program, GroupCount(|program|));
    assert Expand(hrp) + ([ver] + groups) == Expand(hrp) + [ver] + groups;
    var checks := Checksum(Fold(1, Expand(hrp) + [ver] + groups));
    CharsJoin([ver] + groups, checks);
    CharsJoin([ver], groups);
    CharsOfOne(ver);
    Regroup(hrp + [SEPARATOR], [CharOf(ver)], Chars(groups), Chars(checks));
    assert EncodedValues(hrp, ver, program) == ([ver] + groups) + checks;
    hide EncodedValues;
  }

  lemma Regroup(a: seq<bv8>, b: seq<bv8>, c: seq<bv8>, d: seq<bv8>)
    ensures a + ((b + c) + d) == a + b + c + d
  {
  }

  lemma CharsJoin(a: seq<bv8>, b: seq<bv8>)
    ensures Chars(a + b) == Chars(a) + Chars(b)
  {
    hide CharOf;
  }

  lemma CharsOfOne(v: bv8)
    ensures Chars([v]) == [CharOf(v)]
  {
    hide CharOf;
  }

  //////////////////////////////// Decoding ////////////////////////////////

  method IsPrintable(addr: seq<bv8>) returns (ok: bool)
    ensures ok == Printable(addr)
  {
    hide IsUpper, IsLower;
    var upper, lower := false, false;
    for i := 0 to |addr|
      invariant forall k :: 0 <= k < i ==> 33 <= addr[k] <= 126
      invariant lower <==> exists k :: 0 <= k < i && IsLower(addr[k])
      invariant upper <==> exists k :: 0 <= k < i && IsUpper(addr[k])
    {
      if addr[i] < 33 || addr[i] > 126 {
        return false;
      }
      if IsLower(addr[i]) {
        lower := true;
      }
      if IsUpper(addr[i]) {
        upper := true;
      }
    }
    ok := !(upper && lower);
  }

  method FindSeparator(addr: seq<bv8>) returns (sep: nat)
    ensures sep == SeparatorFrom(addr, |addr|)
  {
    sep := |addr|;
    while sep > 0 && !(sep < |addr| && addr[sep] == SEPARATOR)
      invariant sep <= |addr| && SeparatorFrom(addr, |addr|) == SeparatorFrom(addr, sep)
    {
      sep := sep - 1;
    }
  }

  lemma {:induction false} JoinedSame(a: seq<bv8>, b: seq<bv8>, n: nat, q: nat)
    requires n <= |a| && n <= |b| && a[..n] == b[..n]
    ensures Joined(a, n, q) == Joined(b, n, q)
  {
    hide Part, Either;
    if n > 0 {
      assert a[n - 1] == a[..n][n - 1] == b[n - 1];
      assert a[..n - 1] == a[..n][..n - 1] == b[..n - 1];
      JoinedSame(a, b, n - 1, q);
    }
  }

  /** The buffer holds what the first n values put together. */
  predicate Holds(buf: seq<bv8>, values: seq<bv8>, n: nat)
    requires n <= |values|
  {
    forall q :: 0 <= q < |buf| ==> buf[q] == Joined(values, n, q)
  }

  /** The buffer after one more value. */
  function Added(buf: seq<bv8>, c: bv8, j: nat): seq<bv8> {
    seq(|buf|, q requires 0 <= q < |buf| => Either(buf[q], Part(c, j, q)))
  }

  lemma HoldsMore(buf: seq<bv8>, values: seq<bv8>, n: nat)
    requires n < |values| && Holds(buf, values, n)
    ensures Holds(Added(buf, values[n], n), values, n + 1)
  {
    hide Part, Either;
  }

  /** Puts one value into the bytes it has bits in. */
  method AddValue(buf: array<bv8>, c: bv8, j: nat)
    requires 5 * j / 8 + 1 < buf.Length
    modifies buf
    ensures buf[..] == Added(old(buf[..]), c, j)
  {
    hide Left, Right, Either;
    ghost var was := buf[..];
    var x := j % 8 * 5 - j % 8 * 5 / 8 * 8;
    var k := j / 8 * 5 + j % 8 * 5 / 8;
    ValuePlace(j);
    buf[k] := Either(buf[k], Right(Left(c, 3), x));
    if x > 3 {
      buf[k + 1] := Either(buf[k + 1], Left(c, 11 - x));
    }
    forall q | 0 <= q < |was| ensures buf[q] == Either(was[q], Part(c, j, q)) {
      OrZero(was[q]);
    }
  }

  lemma ValuePlace(j: nat)
    ensures j % 8 * 5 - j % 8 * 5 / 8 * 8 == 5 * j % 8 && j / 8 * 5 + j % 8 * 5 / 8 == 5 * j / 8
  {
    var g, r := j / 8, j % 8;
    assert 5 * j == 8 * (5 * g) + 5 * r;
    WholeEights(5 * g, 5 * r);
  }

  lemma WholeEights(g: nat, s: nat)
    ensures (8 * g + s) % 8 == s % 8 == s - s / 8 * 8 && (8 * g + s) / 8 == g + s / 8
  {
  }

  lemma HoldsAppend(buf: seq<bv8>, groups: seq<bv8>, c: bv8)
    requires Holds(buf, groups, |groups|)
    ensures Holds(Added(buf, c, |groups|), groups + [c], |groups| + 1)
  {
    hide Joined, Added;
    var more := groups + [c];
    forall q | 0 <= q < |buf| ensures buf[q] == Joined(more, |groups|, q) {
      JoinedSame(groups, more, |groups|, q);
    }
    HoldsMore(buf, more, |groups|);
  }

  lemma EmptyBuffer(buf: seq<bv8>)
    requires forall q :: 0 <= q < |buf| ==> buf[q] == 0
    ensures Holds(buf, [], 0)
  {
  }

  /** Reads the characters after the separator: their checksum, the version and the bytes they put together. */
  method ReadData(addr: seq<bv8>, sep: nat, chk0: bv32, ghost before: seq<bv8>)
    returns (ok: bool, chk: bv32, ver: bv8, buf: array<bv8>)
    requires 1 <= sep && sep + 8 <= |addr| <= 90 && chk0 == Fold(1, before)
    ensures fresh(buf) && buf.Length == 52
    ensures ok <==> AllDigits(addr[sep + 1..])
    ensures ok ==>
              var values := DigitsOf(addr[sep + 1..]);
              && chk == Fold(1, before + values) && ver == values[0]
              && Holds(buf[..], values[1..|values| - 6], |values| - 7)
  {
    hide Fold, Poly, Plus, Wide, DigitOf, Joined, Holds, Added;
    var n := |addr| - sep - 8;
    chk, ver := chk0, 0xff;
    buf := new bv8[52](_ => 0);
    EmptyBuffer(buf[..]);
    ghost var seen: seq<bv8>, groups: seq<bv8> := [], [];
    assert before + [] == before;
    var i, j: int := sep + 1, -1;
    while i < |addr|
      invariant sep + 1 <= i <= |addr| && j == i - sep - 2 && |seen| == i - sep - 1
      invariant forall k :: 0 <= k < |seen| ==> DigitOf(addr[sep + 1 + k]) == Some(seen[k])
      invariant chk == Fold(1, before + seen) && (seen != [] ==> ver == seen[0])
      invariant groups == if seen == [] then [] else if |seen| <= n + 1 then seen[1..] else seen[1..n + 1]
      invariant fresh(buf) && Holds(buf[..], groups, |groups|)
    {
      var digit := DigitOf(addr[i]);
      if digit.None? {
        assert addr[sep + 1..][i - sep - 1] == addr[i];
        return false, chk, ver, buf;
      }
      var c := digit.value;
      OneMoreDigit(before, seen, c);
      chk := Plus(Poly(chk), Wide(c));
      seen := seen + [c];
      if j == -1 {
        ver := c;
      } else if i + 6 < |addr| {
        HoldsAppend(buf[..], groups, c);
        AddValue(buf, c, j);
        groups := groups + [c];
      }
      i := i + 1;
      j := j + 1;
    }
    SeenAll(addr[sep + 1..], seen);
    ok := true;
  }

  lemma OneMoreDigit(before: seq<bv8>, seen: seq<bv8>, c: bv8)
    ensures Fold(1, before + (seen + [c])) == Plus(Poly(Fold(1, before + seen)), Wide(c))
  {
    hide Fold, Poly, Plus, Wide;
    OneMoreValue(1, before + seen, c);
    assert before + (seen + [c]) == before + seen + [c];
  }

  lemma SeenAll(s: seq<bv8>, seen: seq<bv8>)
    requires |seen| == |s| && forall k :: 0 <= k < |s| ==> DigitOf(s[k]) == Some(seen[k])
    ensures AllDigits(s) && DigitsOf(s) == seen
  {
    hide DigitOf;
  }

  /** The decoder. */
  method Decode(addr: seq<bv8>) returns (r: Option<Decoding>)
    ensures r == Decoded(addr)
  {
    hide Fold, Poly, Plus, Wide, DigitOf, Printable, Expand, SeparatorFrom, Joined, DigitsOf, AllDigits, LengthByte;
    var ok := IsPrintable(addr);
    if !ok {
      return None;
    }
    var sep := FindSeparator(addr);
    if |addr| < 8 || |addr| > 90 || sep < 1 || sep + 2 + 6 > |addr| {
      return None;
    }
    var hrp := addr[..sep];
    var chk := FoldHrp(hrp);
    var ver, buf;
    ok, chk, ver, buf := ReadData(addr, sep, chk, Expand(hrp));
    if !ok {
      return None;
    }
    var bufLen := (|addr| - (sep + 2 + 6)) * 5 / 8;
    if chk != 1 || ver > 16 || bufLen < 2 || bufLen > 40 {
      return None;
    }
    var op := if ver == 0 then OP_0 else ver + OP_1 - 1;
    BufferIsProgram(buf[..], DigitsOf(addr[sep + 1..])[1..|addr| - sep - 7]);
    r := Some(Decoding(Lowered(hrp), [op, LengthByte(bufLen)] + buf[..bufLen]));
  }

  lemma BufferIsProgram(buf: seq<bv8>, groups: seq<bv8>)
    requires Holds(buf, groups, |groups|) && ByteCount(|groups|) <= |buf|
    ensures buf[..ByteCount(|groups|)] == Program(groups)
  {
    hide Joined;
  }
}
