/** Whether a block's tree, time and proof of work are valid. */
module BlockValidity {
  import opened Words
  import opened Bytes
  import opened Difficulty
  import MB = MerkleBlock

  const BLOCK_MAX_TIME_DRIFT: nat := 2 * 60 * 60

  /** The highest differing byte decides which number is smaller. */
  lemma {:induction false} NumCompares(a: seq<nat>, b: seq<nat>, i: nat)
    requires AllBytes(a) && AllBytes(b) && |a| == |b| && i < |a| && a[i] < b[i]
    requires forall j :: i < j < |a| ==> a[j] == b[j]
    ensures Num(a) < Num(b)
  {
    if i > 0 {
      NumCompares(a[1..], b[1..], i - 1);
    } else {
      assert a[1..] == b[1..];
    }
  }

  /** The byte-by-byte proof-of-work test, from the most significant byte down. */
  method AtMost(hash: seq<nat>, t: seq<nat>) returns (r: bool)
    requires AllBytes(hash) && AllBytes(t) && |hash| == |t|
    ensures r <==> Num(hash) <= Num(t)
  {
    hide Num;
    r := true;
    var i: int := |hash| - 1;
    while r && i >= 0
      invariant -1 <= i < |hash|
      invariant r ==> forall j :: i < j < |hash| ==> hash[j] == t[j]
      invariant !r ==> Num(t) < Num(hash)
    {
      if hash[i] < t[i] {
        NumCompares(hash, t, i);
        return;
      }
      if hash[i] > t[i] {
        NumCompares(t, hash, i);
        r := false;
      }
      i := i - 1;
    }
    if r {
      assert hash == t;
    }
  }

  /** A word shifted up by whole bytes. */
  lemma NumPadded(low: nat, x: nat, high: nat)
    requires x < 0x1_0000_0000
    ensures Num(Zeros(low) + LE32(x) + Zeros(high)) == x * Pow256(low)
  {
    hide Num, LE32, Zeros, Pow256;
    LE32IsNum(x);
    NumZeros(low);
    NumZeros(high);
    NumAppends(Zeros(low), LE32(x));
    NumAppends(Zeros(low) + LE32(x), Zeros(high));
    assert Pow256(low + 4) * 0 == 0;
  }

  /** Writes the four bytes of a word from a place of a buffer on, as far as the buffer goes; says whether they are all
      inside it. */
  method SetLE32(t: array<nat>, at: nat, x: nat) returns (inBounds: bool)
    requires x < 0x1_0000_0000
    modifies t
    ensures inBounds <==> at + 4 <= t.Length
    ensures inBounds ==> t[..] == old(t[..at]) + LE32(x) + old(t[at + 4..])
  {
    hide LE32;
    inBounds := true;
    for k := 0 to 4
      invariant inBounds <==> k == 0 || at + k <= t.Length
      invariant at <= t.Length ==> t[..at] == old(t[..at])
      invariant inBounds ==> forall i :: 0 <= i < k ==> t[at + i] == LE32(x)[i]
      invariant at + 4 <= t.Length ==> t[at + 4..] == old(t[at + 4..])
    {
      if at + k < t.Length {
        t[at + k] := LE32(x)[k];
      } else {
        inBounds := false;
      }
    }
    if inBounds {
      assert t[at..at + 4] == LE32(x);
      assert t[..] == t[..at] + t[at..at + 4] + t[at + 4..];
    }
  }

  /** The number that a compact target stands for, put into a buffer of 32 zero bytes; says whether it fits. It does if
      and only if it has at most 31 bytes. */
  method TargetBytes(compact: nat) returns (t: array<nat>, inBounds: bool)
    requires compact < 0x1_0000_0000
    ensures fresh(t) && t.Length == 32
    ensures inBounds <==> compact / 0x100_0000 <= 31
    ensures inBounds ==> AllBytes(t[..]) && Num(t[..]) == Expand(compact)
  {
    hide Num, LE32, Zeros;
    t := new nat[32](_ => 0);
    ghost var size: nat, target: nat := compact / 0x100_0000, compact % 0x100_0000;
    AllZero(t[..]);
    if compact / 0x100_0000 > 3 {
      inBounds := SetLE32(t, compact / 0x100_0000 - 3, compact % 0x100_0000);
      if inBounds {
        assert t[..] == Zeros(size - 3) + LE32(target) + Zeros(31 - size) by {
          ZerosSplit(32, size - 3);
          ZerosSplit(32, size + 1);
        }
        NumPadded(size - 3, target, 31 - size);
      }
    } else {
      ShiftsDown(target, Pow256(3 - size));
      inBounds := SetLE32(t, 0, compact % 0x100_0000 / Pow256(3 - compact / 0x100_0000));
      assert t[..] == Zeros(0) + LE32(target / Pow256(3 - size)) + Zeros(28) by {
        ZerosSplit(32, 0);
        ZerosSplit(32, 4);
      }
      NumPadded(0, target / Pow256(3 - size), 28);
      assert Pow256(0) == 1;
    }
  }

  lemma {:induction false} AllZero(s: seq<nat>)
    requires forall i :: 0 <= i < |s| ==> s[i] == 0
    ensures s == Zeros(|s|)
  {
    if s != [] {
      AllZero(s[1..]);
    }
  }

  lemma {:induction false} ZerosSplit(n: nat, k: nat)
    requires k <= n
    ensures Zeros(n)[..k] == Zeros(k) && Zeros(n)[k..] == Zeros(n - k)
  {
    if k > 0 {
      ZerosSplit(n - 1, k - 1);
      assert Zeros(n) == [0] + Zeros(n - 1);
      assert Zeros(n)[k..] == Zeros(n - 1)[k - 1..];
    }
  }

  lemma ShiftsDown(x: nat, p: nat)
    requires p >= 1
    ensures 0 <= x / p <= x
  {
  }

  /** A target in range stands for no more than 0xffff * 256^26. */
  lemma InRangeIsBelowLimit(mantissa: nat, size: nat)
    requires mantissa < 0x80_0000 && (size < 0x1d || (size == 0x1d && mantissa <= 0xffff))
    ensures Scaled(mantissa, size) <= 0xffff * Pow256(26)
  {
    assert Pow256(0) == 1;
    if size > 3 {
      if size < 0x1d {
        Pow256Ascends(size - 3, 25);
        MulAscends(mantissa, 0x80_0000, Pow256(size - 3));
        MulAscends(Pow256(size - 3), Pow256(25), 0x80_0000);
        assert Pow256(26) == 256 * Pow256(25);
      } else {
        MulAscends(mantissa, 0xffff, Pow256(26));
      }
    } else {
      ShiftsDown(mantissa, Pow256(3 - size));
      Pow256Ascends(3, 26);
      assert Pow256(3) == 0x100_0000;
    }
  }

  /** Whether a block's tree gives its root, its time is not too far ahead of currentTime, and its hash meets
      its target, which must be in range. Words are 32 bits wide, so the time limit wraps. The target is written to a
      buffer of 32 bytes before its range matters: inBounds says whether it fits there. */
  method IsValid(H: MB.Combine, b: MB.Block, merkleRoot: MB.Hash, timestamp: nat, compact: nat, blockHash: seq<nat>,
                 currentTime: nat) returns (r: bool, inBounds: bool)
    requires b.totalTx < 0x8000_0000 && AllBytes(blockHash) && |blockHash| == 32 && compact < 0x1_0000_0000
    ensures inBounds <==> compact / 0x100_0000 <= 31
    ensures inBounds ==> (r <==>
      && (b.totalTx > 0 ==> MB.RootWalk(H, b, 0, 0, 0).0 == merkleRoot)
      && timestamp <= (currentTime + 7200) % 0x1_0000_0000
      && 0 < compact % 0x100_0000 < 0x80_0000
      && (compact / 0x100_0000 < 0x1d || (compact / 0x100_0000 == 0x1d && compact % 0x100_0000 <= 0xffff))
      && Num(blockHash) <= Expand(compact))
    ensures inBounds && r ==> Num(blockHash) <= 0xffff * Pow256(26)
  {
    hide MB.RootWalk, Num, Pow256;
    if compact % 0x100_0000 < 0x80_0000 &&
       (compact / 0x100_0000 < 0x1d || (compact / 0x100_0000 == 0x1d && compact % 0x100_0000 <= 0xffff)) {
      InRangeIsBelowLimit(compact % 0x100_0000, compact / 0x100_0000);
    }
    hide Scaled;
    var size, target := compact / 0x100_0000, compact % 0x100_0000;
    var walk := new MB.Walk(H, b);
    var root := walk.RootR(0);
    r := true;
    if b.totalTx > 0 && root != merkleRoot {
      r := false;
    }
    if timestamp > (currentTime + BLOCK_MAX_TIME_DRIFT) % 0x1_0000_0000 {
      r := false;
    }
    if target == 0 || target >= 0x80_0000 || size > MAX_SIZE || (size == MAX_SIZE && target > MAX_TARGET) {
      r := false;
    }
    var t;
    t, inBounds := TargetBytes(compact);
    if inBounds && r {
      r := AtMost(blockHash, t[..]);
    }
  }
}
