/** Partial Merkle trees: the depth-first walks that recompute a block's root and list its matched transactions. */
module MerkleBlock {
  import opened Words

  /** A 256-bit digest as a number; zero is the value the walks use for "no node here". */
  type Hash = nat

  /** The hash of two concatenated digests. */
  type Combine = (Hash, Hash) -> Hash

  const ZERO: Hash := 0
  const SIZE_MAX: nat := 0xffff_ffff_ffff_ffff

  /** The merkleblock fields the walks read; each flag byte holds eight flags, lowest bit first. */
  datatype Block = Block(totalTx: nat, hashes: seq<Hash>, flags: seq<bv8>) {
    /** The hash count is a machine word below the value that marks a broken walk. */
    predicate Sized() {
      |hashes| < SIZE_MAX
    }

    predicate More(hashIdx: nat, flagIdx: nat) {
      flagIdx / 8 < |flags| && hashIdx < |hashes|
    }

    predicate Flag(i: nat)
      requires i / 8 < |flags|
    {
      flags[i / 8] & (1 << (i % 8)) != 0
    }

    function Depth(): nat {
      CeilLog2(totalTx)
    }
  }

  ///////////////////////////////// Tree depth /////////////////////////////////

  /** The number of tree levels above n leaves. */
  function CeilLog2(n: nat): nat {
    if n <= 1 then 0 else 1 + CeilLog2((n + 1) / 2)
  }

  function FloorLog2(n: nat): nat {
    if n <= 1 then 0 else 1 + FloorLog2(n / 2)
  }

  lemma {:induction false} CeilLog2IsLeast(n: nat)
    requires 1 <= n
    ensures n <= Pow2(CeilLog2(n))
    ensures 1 < n ==> Pow2(CeilLog2(n) - 1) < n
  {
    if n > 1 {
      CeilLog2IsLeast((n + 1) / 2);
    }
  }

  lemma {:induction false} FloorLog2IsGreatest(n: nat)
    requires 1 <= n
    ensures Pow2(FloorLog2(n)) <= n < 2 * Pow2(FloorLog2(n))
  {
    if n > 1 {
      FloorLog2IsGreatest(n / 2);
    }
  }

  lemma {:induction false} Log2Unique(n: nat, d: nat)
    requires 1 <= n <= Pow2(d) && (d > 0 ==> Pow2(d - 1) < n)
    ensures d == CeilLog2(n)
  {
    CeilLog2IsLeast(n);
    var c := CeilLog2(n);
    if c < d {
      Pow2Ascends(c, d - 1);
    } else if d < c {
      Pow2Ascends(d, c - 1);
    }
  }

  lemma CeilFromFloor(n: nat)
    requires n > 0
    ensures CeilLog2(n) == FloorLog2(n) + if And(n, n - 1) != 0 then 1 else 0
  {
    var f := FloorLog2(n);
    FloorLog2IsGreatest(n);
    ClearLowestBit(n);
    if And(n, n - 1) == 0 {
      var k: nat :| n == Pow2(k);
      if k < f {
        Pow2Ascends(k + 1, f);
      } else if f < k {
        Pow2Ascends(f + 1, k);
      }
      Log2Unique(n, f);
    } else {
      assert n != Pow2(f);
      Log2Unique(n, f + 1);
    }
  }

  /** The shift loop that finds the depth of a block's tree. */
  method CeilLog2Loop(n: nat) returns (r: nat)
    requires n < 0x8000_0000
    ensures r == CeilLog2(n)
  {
    var x := n;
    r := if x > 0 && And(x, x - 1) != 0 then 1 else 0;
    ghost var first := r;
    x := x / 2;
    while x != 0
      invariant r + (if x == 0 then 0 else 1 + FloorLog2(x)) == first + FloorLog2(n)
    {
      r := r + 1;
      x := x / 2;
    }
    if n > 0 {
      CeilFromFloor(n);
    }
  }

  /////////////////////////// What the walks compute ///////////////////////////

  /** The part of the tree that a block's flags and hashes describe, as the walks meet it. */
  datatype Tree = Missing | Leaf(hash: Hash, matched: bool) | Inner(left: Tree, right: Tree)

  /** The tree read at the given depth, and the hash and flag positions after it. */
  function Parse(b: Block, hashIdx: nat, flagIdx: nat, depth: nat): (r: (Tree, nat, nat))
    requires depth <= b.Depth()
    ensures hashIdx <= |b.hashes| ==> hashIdx <= r.1 <= |b.hashes|
    decreases b.Depth() - depth
  {
    if !b.More(hashIdx, flagIdx) then (Missing, hashIdx, flagIdx)
    else if b.Flag(flagIdx) && depth != b.Depth() then
      var (left, h, f) := Parse(b, hashIdx, flagIdx + 1, depth + 1);
      var (right, h', f') := Parse(b, h, f, depth + 1);
      (Inner(left, right), h', f')
    else (Leaf(b.hashes[hashIdx], b.Flag(flagIdx)), hashIdx + 1, flagIdx + 1)
  }

  /** The hash at the top of a parsed tree; a missing right branch repeats the left one. */
  function Fold(H: Combine, t: Tree): Hash {
    match t
    case Missing => ZERO
    case Leaf(hash, _) => hash
    case Inner(left, right) =>
      var l, r := Fold(H, left), Fold(H, right);
      H(l, if r == ZERO then l else r)
  }

  /** No node of the tree has a missing left branch or two equal branches. */
  predicate Sound(H: Combine, t: Tree) {
    match t
    case Missing => true
    case Leaf(_, _) => true
    case Inner(left, right) =>
      && Sound(H, left) && Sound(H, right)
      && Fold(H, left) != ZERO && Fold(H, left) != Fold(H, right)
  }

  function Matched(t: Tree): seq<Hash> {
    match t
    case Missing => []
    case Leaf(hash, matched) => if matched then [hash] else []
    case Inner(left, right) => Matched(left) + Matched(right)
  }

  /** The root walk on values: the hash found, and the positions after it. */
  function RootWalk(H: Combine, b: Block, hashIdx: nat, flagIdx: nat, depth: nat): (Hash, nat, nat)
    requires depth <= b.Depth()
    decreases b.Depth() - depth
  {
    if !b.More(hashIdx, flagIdx) then (ZERO, hashIdx, flagIdx)
    else if b.Flag(flagIdx) && depth != b.Depth() then
      var (left, h, f) := RootWalk(H, b, hashIdx, flagIdx + 1, depth + 1);
      var (right, h', f') := RootWalk(H, b, h, f, depth + 1);
      if left != ZERO && left != right then (H(left, if right == ZERO then left else right), h', f')
      else (ZERO, SIZE_MAX, f')
    else (b.hashes[hashIdx], hashIdx + 1, flagIdx + 1)
  }

  /** The root walk folds the parsed tree, unless some node is unsound: exactly then it ends broken. */
  lemma {:induction false} RootWalkFolds(H: Combine, b: Block, hashIdx: nat, flagIdx: nat, depth: nat)
    requires b.Sized() && hashIdx <= |b.hashes| && depth <= b.Depth()
    ensures var (t, h, f) := Parse(b, hashIdx, flagIdx, depth);
            && (Sound(H, t) ==> RootWalk(H, b, hashIdx, flagIdx, depth) == (Fold(H, t), h, f))
            && (!Sound(H, t) <==> RootWalk(H, b, hashIdx, flagIdx, depth).1 == SIZE_MAX)
    decreases b.Depth() - depth
  {
    hide Block.Flag, Block.Depth;
    if b.More(hashIdx, flagIdx) && b.Flag(flagIdx) && depth != b.Depth() {
      RootWalkFolds(H, b, hashIdx, flagIdx + 1, depth + 1);
      var (left, h, f) := Parse(b, hashIdx, flagIdx + 1, depth + 1);
      RootWalkFolds(H, b, h, f, depth + 1);
    }
  }

  /** The transaction walk on values: the matched hashes, and the positions after it. */
  function TxWalk(b: Block, hashIdx: nat, flagIdx: nat, depth: nat): (seq<Hash>, nat, nat)
    requires depth <= b.Depth()
    decreases b.Depth() - depth
  {
    if !b.More(hashIdx, flagIdx) then ([], hashIdx, flagIdx)
    else if !b.Flag(flagIdx) || depth == b.Depth() then
      (if b.Flag(flagIdx) then [b.hashes[hashIdx]] else [], hashIdx + 1, flagIdx + 1)
    else
      var (left, h, f) := TxWalk(b, hashIdx, flagIdx + 1, depth + 1);
      var (right, h', f') := TxWalk(b, h, f, depth + 1);
      (left + right, h', f')
  }

  /** The transaction walk meets the very nodes that were parsed and lists the matched ones in order. */
  lemma {:induction false} TxWalkLists(b: Block, hashIdx: nat, flagIdx: nat, depth: nat)
    requires depth <= b.Depth()
    ensures var (t, h, f) := Parse(b, hashIdx, flagIdx, depth);
            TxWalk(b, hashIdx, flagIdx, depth) == (Matched(t), h, f)
    decreases b.Depth() - depth
  {
    hide Block.Flag, Block.Depth;
    if b.More(hashIdx, flagIdx) && b.Flag(flagIdx) && depth != b.Depth() {
      TxWalkLists(b, hashIdx, flagIdx + 1, depth + 1);
      var (left, h, f) := Parse(b, hashIdx, flagIdx + 1, depth + 1);
      TxWalkLists(b, h, f, depth + 1);
    }
  }

  ///////////////////////////////// The walks /////////////////////////////////

  /** Where the walks of one block stand: the next hash and flag, and the matches written so far. */
  class Walk {
    const H: Combine
    const b: Block
    var hashIdx: nat
    var flagIdx: nat
    var txHashes: seq<Hash>

    constructor (H: Combine, b: Block)
      ensures this.H == H && this.b == b && hashIdx == 0 && flagIdx == 0 && txHashes == []
    {
      this.H, this.b := H, b;
      hashIdx, flagIdx, txHashes := 0, 0, [];
    }

    /** Walks the tree to calculate the Merkle root. */
    method RootR(depth: nat) returns (md: Hash)
      requires depth <= b.Depth() && b.totalTx < 0x8000_0000
      modifies this`hashIdx, this`flagIdx
      ensures (md, hashIdx, flagIdx) == RootWalk(H, b, old(hashIdx), old(flagIdx), depth)
      decreases b.Depth() - depth
    {
      hide Block.Flag, CeilLog2;
      md := ZERO;
      if b.More(hashIdx, flagIdx) {
        var flag := b.Flag(flagIdx);
        var bottom := CeilLog2Loop(b.totalTx);
        flagIdx := flagIdx + 1;
        if flag && depth != bottom {
          var left := RootR(depth + 1);
          var right := RootR(depth + 1);
          if left != ZERO && left != right {
            if right == ZERO {
              right := left;
            }
            md := H(left, right);
          } else {
            hashIdx := SIZE_MAX;
          }
        } else {
          md := b.hashes[hashIdx];
          hashIdx := hashIdx + 1;
        }
      }
    }

    /** Walks the tree to write out the hashes of the matched transactions, at most capacity of them. */
    method TxHashesR(depth: nat, capacity: nat)
      requires depth <= b.Depth() && b.totalTx < 0x8000_0000 && |txHashes| <= capacity
      modifies this
      ensures var (found, h, f) := TxWalk(b, old(hashIdx), old(flagIdx), depth);
              && hashIdx == h && flagIdx == f
              && txHashes == Upto(old(txHashes) + found, capacity)
      decreases b.Depth() - depth
    {
      hide Block.Flag, CeilLog2;
      if b.More(hashIdx, flagIdx) {
        var flag := b.Flag(flagIdx);
        var bottom := CeilLog2Loop(b.totalTx);
        flagIdx := flagIdx + 1;
        if !flag || depth == bottom {
          if flag && |txHashes| < capacity {
            txHashes := txHashes + [b.hashes[hashIdx]];
          }
          hashIdx := hashIdx + 1;
        } else {
          ghost var was := txHashes;
          ghost var (left, h, f) := TxWalk(b, hashIdx, flagIdx, depth + 1);
          TxHashesR(depth + 1, capacity);
          TxHashesR(depth + 1, capacity);
          ghost var (right, h', f') := TxWalk(b, h, f, depth + 1);
          assert was + left + right == was + (left + right);
        }
      }
    }
  }

  /** The first n elements, or all of them. */
  function Upto<T>(s: seq<T>, n: nat): seq<T> {
    if |s| <= n then s else s[..n]
  }

  ///////////////////////////////// Soundness /////////////////////////////////

  /** One step from a node to its parent: the sibling's hash and whether it stands on the left. */
  datatype Step = Step(sibling: Hash, onLeft: bool)

  /** The hash reached from a leaf by climbing a Merkle branch, lowest step first. */
  function Climb(H: Combine, leaf: Hash, branch: seq<Step>): Hash {
    if branch == [] then leaf
    else
      var s := branch[|branch| - 1];
      var below := Climb(H, leaf, branch[..|branch| - 1]);
      if s.onLeft then H(s.sibling, below) else H(below, s.sibling)
  }

  ghost predicate HasBranch(H: Combine, leaf: Hash, length: nat, root: Hash) {
    exists branch: seq<Step> :: |branch| == length && Climb(H, leaf, branch) == root
  }

  lemma BranchGrows(H: Combine, leaf: Hash, length: nat, below: Hash, s: Step)
    requires HasBranch(H, leaf, length, below)
    ensures HasBranch(H, leaf, length + 1, if s.onLeft then H(s.sibling, below) else H(below, s.sibling))
  {
    var branch: seq<Step> :| |branch| == length && Climb(H, leaf, branch) == below;
    assert (branch + [s])[..length] == branch;
    assert Climb(H, leaf, branch + [s]) == if s.onLeft then H(s.sibling, below) else H(below, s.sibling);
  }

  /** No hash of the block, and no hash that combining can produce, is zero. */
  ghost predicate NonZero(H: Combine, b: Block) {
    && (forall i :: 0 <= i < |b.hashes| ==> b.hashes[i] != ZERO)
    && (forall l: Hash, r: Hash :: H(l, r) != ZERO)
  }

  lemma {:induction false} PresentIsNonZero(H: Combine, b: Block, hashIdx: nat, flagIdx: nat, depth: nat)
    requires NonZero(H, b) && hashIdx <= |b.hashes| && depth <= b.Depth()
    ensures var t := Parse(b, hashIdx, flagIdx, depth).0; Fold(H, t) == ZERO <==> t == Missing
  {
  }

  /** Every matched hash of a sound tree has a branch, one step for each level, to the tree's top. */
  lemma {:induction false} MatchedHaveBranches(H: Combine, b: Block, hashIdx: nat, flagIdx: nat, depth: nat, x: Hash)
    requires NonZero(H, b) && hashIdx <= |b.hashes| && depth <= b.Depth()
    requires Sound(H, Parse(b, hashIdx, flagIdx, depth).0) && x in Matched(Parse(b, hashIdx, flagIdx, depth).0)
    ensures HasBranch(H, x, b.Depth() - depth, Fold(H, Parse(b, hashIdx, flagIdx, depth).0))
    decreases b.Depth() - depth
  {
    hide Block.Flag, Block.Depth, NonZero;
    if b.Flag(flagIdx) && depth != b.Depth() {
      var (left, h, f) := Parse(b, hashIdx, flagIdx + 1, depth + 1);
      var (right, h', f') := Parse(b, h, f, depth + 1);
      var l, r := Fold(H, left), Fold(H, right);
      if x in Matched(left) {
        MatchedHaveBranches(H, b, hashIdx, flagIdx + 1, depth + 1, x);
        BranchGrows(H, x, b.Depth() - depth - 1, l, Step(if r == ZERO then l else r, false));
      } else {
        MatchedHaveBranches(H, b, h, f, depth + 1, x);
        PresentIsNonZero(H, b, h, f, depth + 1);
        BranchGrows(H, x, b.Depth() - depth - 1, r, Step(l, true));
      }
    } else {
      assert Climb(H, x, []) == x;
    }
  }

  /** Decoding is sound: if the root walk does not end broken, then both walks end at the same place and
      every reported transaction has a branch of full depth to the root found. */
  lemma DecodingIsSound(H: Combine, b: Block)
    requires b.Sized() && NonZero(H, b) && RootWalk(H, b, 0, 0, 0).1 != SIZE_MAX
    ensures TxWalk(b, 0, 0, 0).1 == RootWalk(H, b, 0, 0, 0).1 && TxWalk(b, 0, 0, 0).2 == RootWalk(H, b, 0, 0, 0).2
    ensures forall x :: x in TxWalk(b, 0, 0, 0).0 ==> HasBranch(H, x, CeilLog2(b.totalTx), RootWalk(H, b, 0, 0, 0).0)
  {
    hide Block.Flag, NonZero, HasBranch, Parse, RootWalk, TxWalk;
    RootWalkFolds(H, b, 0, 0, 0);
    TxWalkLists(b, 0, 0, 0);
    var t := Parse(b, 0, 0, 0).0;
    forall x | x in Matched(t) ensures HasBranch(H, x, b.Depth(), Fold(H, t)) {
      MatchedHaveBranches(H, b, 0, 0, 0, x);
    }
  }

  /** Both walks end at the same place if and only if the root walk does not end broken. */
  lemma WalksAgreeIff(H: Combine, b: Block)
    requires b.Sized()
    ensures TxWalk(b, 0, 0, 0).1 == RootWalk(H, b, 0, 0, 0).1 <==> RootWalk(H, b, 0, 0, 0).1 != SIZE_MAX
  {
    hide Parse, RootWalk, TxWalk;
    RootWalkFolds(H, b, 0, 0, 0);
    TxWalkLists(b, 0, 0, 0);
    assert Parse(b, 0, 0, 0).1 <= |b.hashes|;
  }

  /** A hash function for examples, under which a branch never leads down. */
  function Adds(l: Hash, r: Hash): Hash {
    l + r + 1
  }

  lemma {:induction false} ClimbGrows(leaf: Hash, branch: seq<Step>)
    ensures Climb(Adds, leaf, branch) >= leaf
  {
    if branch != [] {
      ClimbGrows(leaf, branch[..|branch| - 1]);
    }
  }

  /** A tree of five transactions, the last alone on the right of its row, with two equal hashes in place of nothing. */
  function LoneLeaf(H: Combine, txs: seq<Hash>, x: Hash): Block
    requires |txs| == 5
  {
    Block(5, [H(H(txs[0], txs[1]), H(txs[2], txs[3])), H(txs[4], txs[4]), x, x], [0x35])
  }

  /** The root of the five transactions, from its two halves. */
  function LeftHalf(H: Combine, txs: seq<Hash>): Hash
    requires |txs| == 5
  {
    H(H(txs[0], txs[1]), H(txs[2], txs[3]))
  }

  function RightHalf(H: Combine, txs: seq<Hash>): Hash
    requires |txs| == 5
  {
    H(H(txs[4], txs[4]), H(txs[4], txs[4]))
  }

  /** The root itself does not show that the walk did not end broken, whatever the hash function is. The two equal
      hashes break the walk, which reads that as a missing branch and still finds the true root; yet one of them is
      reported. */
  lemma RootIsNotEnough(H: Combine, txs: seq<Hash>, x: Hash)
    requires |txs| == 5 && (forall l: Hash, r: Hash :: H(l, r) != ZERO) && LeftHalf(H, txs) != RightHalf(H, txs)
    ensures var b := LoneLeaf(H, txs, x);
            && b.Sized() && RootWalk(H, b, 0, 0, 0).0 == MerkleRoot(H, txs) && RootWalk(H, b, 0, 0, 0).1 == SIZE_MAX
            && TxWalk(b, 0, 0, 0).0 == [x]
  {
    hide RootWalk, TxWalk, MerkleRoot;
    var b := LoneLeaf(H, txs, x);
    FiveLeaves(H, txs);
    ExampleFlags(H, txs, x);
    ExampleRoot(H, b, LeftHalf(H, txs), H(txs[4], txs[4]), x);
    ExampleMatches(b, x);
  }

  /** With a hash function under which no branch leads down, what is reported has no branch to the root. */
  lemma ReportedWithoutBranch()
    ensures var txs: seq<Hash> := [1, 2, 3, 4, 5]; var b := LoneLeaf(Adds, txs, 1000);
            && NonZero(Adds, b) && RootWalk(Adds, b, 0, 0, 0).0 == MerkleRoot(Adds, txs)
            && TxWalk(b, 0, 0, 0).0 == [1000] && !HasBranch(Adds, 1000, CeilLog2(5), MerkleRoot(Adds, txs))
  {
    var txs: seq<Hash> := [1, 2, 3, 4, 5];
    hide RootWalk, TxWalk, MerkleRoot, HasBranch;
    RootIsNotEnough(Adds, txs, 1000);
    FiveLeaves(Adds, txs);
    NoBranchDown(1000, CeilLog2(5), MerkleRoot(Adds, txs));
  }

  lemma NoBranchDown(leaf: Hash, length: nat, root: Hash)
    requires root < leaf
    ensures !HasBranch(Adds, leaf, length, root)
  {
    forall branch: seq<Step> ensures Climb(Adds, leaf, branch) >= leaf {
      ClimbGrows(leaf, branch);
    }
  }

  ghost predicate IsExample(b: Block, left: Hash, low: Hash, x: Hash) {
    && b.hashes == [left, low, x, x] && |b.flags| == 1 && b.Depth() == 3
    && b.Flag(0) && !b.Flag(1) && b.Flag(2) && !b.Flag(3) && b.Flag(4) && b.Flag(5) && !b.Flag(6)
  }

  lemma ExampleRoot(H: Combine, b: Block, left: Hash, low: Hash, x: Hash)
    requires IsExample(b, left, low, x) && (forall l: Hash, r: Hash :: H(l, r) != ZERO)
    requires low != ZERO && left != ZERO && left != H(low, low)
    ensures RootWalk(H, b, 0, 0, 0).0 == H(left, H(low, low)) && RootWalk(H, b, 0, 0, 0).1 == SIZE_MAX
  {
    hide Block.Flag, Block.Depth;
    assert RootWalk(H, b, 2, 5, 3) == (x, 3, 6);
    assert RootWalk(H, b, 3, 6, 3) == (x, 4, 7);
    assert RootWalk(H, b, 2, 4, 2) == (ZERO, SIZE_MAX, 7);
    assert RootWalk(H, b, 1, 3, 2) == (low, 2, 4);
    assert RootWalk(H, b, 1, 2, 1) == (H(low, low), SIZE_MAX, 7);
    assert RootWalk(H, b, 0, 1, 1) == (left, 1, 2);
  }

  lemma ExampleMatches(b: Block, x: Hash)
    requires |b.hashes| == 4 && IsExample(b, b.hashes[0], b.hashes[1], x)
    ensures TxWalk(b, 0, 0, 0).0 == [x]
  {
    hide Block.Flag, Block.Depth;
    assert forall s: seq<Hash> :: s + [] == s && [] + s == s;
    assert TxWalk(b, 2, 5, 3) == ([x], 3, 6);
    assert TxWalk(b, 3, 6, 3) == ([], 4, 7);
    assert TxWalk(b, 2, 4, 2) == ([x], 4, 7);
    assert TxWalk(b, 1, 3, 2) == ([], 2, 4);
    assert TxWalk(b, 1, 2, 1) == ([x], 4, 7);
    assert TxWalk(b, 0, 1, 1) == ([], 1, 2);
  }

  lemma ExampleFlags(H: Combine, txs: seq<Hash>, x: Hash)
    requires |txs| == 5
    ensures IsExample(LoneLeaf(H, txs, x), LeftHalf(H, txs), H(txs[4], txs[4]), x)
  {
    assert CeilLog2(3) == 1 + CeilLog2(2) && CeilLog2(2) == 1 + CeilLog2(1);
  }

  lemma FiveLeaves(H: Combine, txs: seq<Hash>)
    requires |txs| == 5
    ensures MerkleRoot(H, txs) == H(LeftHalf(H, txs), RightHalf(H, txs))
  {
    var ab, cd, ee := H(txs[0], txs[1]), H(txs[2], txs[3]), H(txs[4], txs[4]);
    var l, r := LeftHalf(H, txs), RightHalf(H, txs);
    assert txs[4..] == [txs[4]] && txs[2..][2..] == txs[4..];
    assert RowAbove(H, txs[4..]) == [ee] && RowAbove(H, txs[2..]) == [cd, ee] && RowAbove(H, txs) == [ab, cd, ee];
    assert [ab, cd, ee][2..] == [ee] && RowAbove(H, [ee]) == [r] && RowAbove(H, [ab, cd, ee]) == [l, r];
    assert [l, r][2..] == [] && RowAbove(H, [l, r]) == [H(l, r)];
    assert MerkleRoot(H, [H(l, r)]) == H(l, r) && MerkleRoot(H, [l, r]) == H(l, r);
    assert MerkleRoot(H, [ab, cd, ee]) == H(l, r);
  }

  //////////////////////////// Reference tree and encoder ////////////////////////////

  /** The row above: neighbours combined in pairs, an odd last element with itself. */
  function RowAbove(H: Combine, row: seq<Hash>): (above: seq<Hash>)
    ensures |above| == (|row| + 1) / 2
  {
    if row == [] then []
    else if |row| == 1 then [H(row[0], row[0])]
    else [H(row[0], row[1])] + RowAbove(H, row[2..])
  }

  /** The Merkle root as Bitcoin defines it: rows are formed until one hash remains. */
  function MerkleRoot(H: Combine, row: seq<Hash>): Hash
    requires row != []
    decreases |row|
  {
    if |row| == 1 then row[0] else MerkleRoot(H, RowAbove(H, row))
  }

  /** The hash of the subtree of the given height over a run of leaves, its right part possibly missing. */
  function NodeHash(H: Combine, leaves: seq<Hash>, height: nat): Hash
    requires 1 <= |leaves| <= Pow2(height)
  {
    if height == 0 then leaves[0]
    else
      var half := Pow2(height - 1);
      if |leaves| <= half then var l := NodeHash(H, leaves, height - 1); H(l, l)
      else H(NodeHash(H, leaves[..half], height - 1), NodeHash(H, leaves[half..], height - 1))
  }

  lemma {:induction false} RowAboveSplits(H: Combine, row: seq<Hash>, n: nat)
    requires 2 * n <= |row|
    ensures RowAbove(H, row) == RowAbove(H, row[..2 * n]) + RowAbove(H, row[2 * n..])
  {
    if n > 0 {
      RowAboveSplits(H, row[2..], n - 1);
      assert row[2..][..2 * (n - 1)] == row[..2 * n][2..];
      assert row[2..][2 * (n - 1)..] == row[2 * n..];
    } else {
      assert row[0..] == row;
    }
  }

  /** A subtree over a row of leaves has the hash of the next lower subtree over the row above. */
  lemma {:induction false} NodeHashOfRow(H: Combine, leaves: seq<Hash>, height: nat)
    requires 1 <= |leaves| <= Pow2(height + 1)
    ensures NodeHash(H, leaves, height + 1) == NodeHash(H, RowAbove(H, leaves), height)
  {
    if height == 0 {
      if |leaves| == 2 {
        assert RowAbove(H, leaves[2..]) == [];
      }
    } else {
      var half := Pow2(height);
      if |leaves| <= half {
        NodeHashOfRow(H, leaves, height - 1);
      } else {
        var quarter := Pow2(height - 1);
        RowAboveSplits(H, leaves, quarter);
        NodeHashOfRow(H, leaves[..half], height - 1);
        NodeHashOfRow(H, leaves[half..], height - 1);
        assert RowAbove(H, leaves)[..quarter] == RowAbove(H, leaves[..half]);
        assert RowAbove(H, leaves)[quarter..] == RowAbove(H, leaves[half..]);
      }
    }
  }

  /** The recursive tree of just enough levels has Bitcoin's Merkle root. */
  lemma {:induction false} NodeHashIsMerkleRoot(H: Combine, leaves: seq<Hash>)
    requires leaves != []
    ensures |leaves| <= Pow2(CeilLog2(|leaves|))
    ensures NodeHash(H, leaves, CeilLog2(|leaves|)) == MerkleRoot(H, leaves)
    decreases |leaves|
  {
    CeilLog2IsLeast(|leaves|);
    if |leaves| > 1 {
      NodeHashOfRow(H, leaves, CeilLog2(|leaves|) - 1);
      NodeHashIsMerkleRoot(H, RowAbove(H, leaves));
    }
  }

  predicate AnyMatch(matches: seq<bool>) {
    exists i :: 0 <= i < |matches| && matches[i]
  }

  /** A run of leaves with their match marks, as the subtree of the given height over them. */
  datatype Part = Part(leaves: seq<Hash>, matches: seq<bool>, height: nat) {
    predicate Ok() {
      1 <= |leaves| == |matches| && |leaves| <= Pow2(height)
    }

    /** The subtree has a right branch. */
    predicate Forks()
      requires height > 0
    {
      |leaves| > Pow2(height - 1)
    }

    function Lower(): (p: Part)
      requires Ok() && height > 0 && !Forks()
      ensures p.Ok() && p.height == height - 1
    {
      Part(leaves, matches, height - 1)
    }

    function Left(): (p: Part)
      requires Ok() && height > 0 && Forks()
      ensures p.Ok() && p.height == height - 1 && |p.leaves| == Pow2(height - 1)
    {
      Part(leaves[..Pow2(height - 1)], matches[..Pow2(height - 1)], height - 1)
    }

    function Right(): (p: Part)
      requires Ok() && height > 0 && Forks()
      ensures p.Ok() && p.height == height - 1 && |p.leaves| == |leaves| - Pow2(height - 1)
    {
      Part(leaves[Pow2(height - 1)..], matches[Pow2(height - 1)..], height - 1)
    }

    predicate Any() {
      AnyMatch(matches)
    }
  }

  /** What the format of BIP 37, section "Partial Merkle branch format", stores for a subtree. */
  datatype Encoding = Encoding(bits: seq<bool>, hashes: seq<Hash>)

  function Encode(H: Combine, p: Part): (e: Encoding)
    requires p.Ok()
    ensures |e.hashes| >= 1 && |e.bits| >= 1 && e.bits[0] == p.Any()
    decreases p.height
  {
    if p.height == 0 || !p.Any() then Encoding([p.Any()], [NodeHash(H, p.leaves, p.height)])
    else if !p.Forks() then
      var l := Encode(H, p.Lower());
      Encoding([true] + l.bits, l.hashes)
    else
      var l, r := Encode(H, p.Left()), Encode(H, p.Right());
      Encoding([true] + l.bits + r.bits, l.hashes + r.hashes)
  }

  function Selected(leaves: seq<Hash>, matches: seq<bool>): seq<Hash>
    requires |leaves| == |matches|
  {
    if leaves == [] then [] else (if matches[0] then [leaves[0]] else []) + Selected(leaves[1..], matches[1..])
  }

  lemma {:induction false} SelectedSplits(leaves: seq<Hash>, matches: seq<bool>, n: nat)
    requires |leaves| == |matches| && n <= |leaves|
    ensures Selected(leaves, matches) == Selected(leaves[..n], matches[..n]) + Selected(leaves[n..], matches[n..])
  {
    if n > 0 {
      SelectedSplits(leaves[1..], matches[1..], n - 1);
      assert leaves[1..][..n - 1] == leaves[..n][1..] && matches[1..][..n - 1] == matches[..n][1..];
      assert leaves[1..][n - 1..] == leaves[n..] && matches[1..][n - 1..] == matches[n..];
    } else {
      assert leaves[0..] == leaves && matches[0..] == matches;
    }
  }

  lemma {:induction false} NoneSelected(leaves: seq<Hash>, matches: seq<bool>)
    requires |leaves| == |matches| && !AnyMatch(matches)
    ensures Selected(leaves, matches) == []
  {
    if leaves != [] {
      NoneSelected(leaves[1..], matches[1..]);
    }
  }

  /** No node hash of the tree is zero, and no two distinct sibling nodes have equal hashes. */
  predicate Clean(H: Combine, leaves: seq<Hash>, height: nat)
    requires 1 <= |leaves| <= Pow2(height)
  {
    && NodeHash(H, leaves, height) != ZERO
    && (height > 0 ==>
          var half := Pow2(height - 1);
          if |leaves| <= half then Clean(H, leaves, height - 1)
          else
            && Clean(H, leaves[..half], height - 1) && Clean(H, leaves[half..], height - 1)
            && NodeHash(H, leaves[..half], height - 1) != NodeHash(H, leaves[half..], height - 1))
  }

  /** The block holds the encoding e from the given positions on. */
  predicate HoldsAt(b: Block, e: Encoding, hashIdx: nat, flagIdx: nat) {
    && hashIdx + |e.hashes| <= |b.hashes| && b.hashes[hashIdx..hashIdx + |e.hashes|] == e.hashes
    && flagIdx + |e.bits| <= 8 * |b.flags|
    && forall i :: 0 <= i < |e.bits| ==> b.Flag(flagIdx + i) == e.bits[i]
  }

  lemma SliceOfSlice(s: seq<Hash>, part: seq<Hash>, from: nat, skip: nat, piece: seq<Hash>)
    requires from + |part| <= |s| && s[from..from + |part|] == part
    requires skip + |piece| <= |part| && part[skip..skip + |piece|] == piece
    ensures s[from + skip..from + skip + |piece|] == piece
  {
    forall i | 0 <= i < |piece| ensures s[from + skip + i] == piece[i] {
      assert part[skip..skip + |piece|][i] == part[skip + i]
      && s[from..from + |part|][skip + i] == s[from + (skip + i)];
    }
  }

  lemma HoldsPart(b: Block, e: Encoding, part: Encoding, hashIdx: nat, flagIdx: nat, hs: nat, fs: nat)
    requires HoldsAt(b, e, hashIdx, flagIdx)
    requires hs + |part.hashes| <= |e.hashes| && e.hashes[hs..hs + |part.hashes|] == part.hashes
    requires fs + |part.bits| <= |e.bits| && e.bits[fs..fs + |part.bits|] == part.bits
    ensures HoldsAt(b, part, hashIdx + hs, flagIdx + fs)
  {
    hide Block.Flag;
    SliceOfSlice(b.hashes, e.hashes, hashIdx, hs, part.hashes);
    forall i | 0 <= i < |part.bits| ensures b.Flag(flagIdx + fs + i) == part.bits[i] {
      assert b.Flag(flagIdx + (fs + i)) == e.bits[fs + i];
    }
  }

  /** The encoding of a subtree lies at the given positions. The subtree is full, or it is the last thing
      stored: then the right branches it lacks are met with no hash left. */
  ghost predicate Placed(H: Combine, b: Block, p: Part, hashIdx: nat, flagIdx: nat) {
    && p.Ok() && p.height <= b.Depth() && Clean(H, p.leaves, p.height)
    && HoldsAt(b, Encode(H, p), hashIdx, flagIdx)
    && (|p.leaves| == Pow2(p.height) || hashIdx + |Encode(H, p).hashes| == |b.hashes|)
  }

  /** Parsing there gives a sound tree with the subtree's hash and matched leaves, and ends behind the encoding. */
  ghost predicate Decodes(H: Combine, b: Block, p: Part, hashIdx: nat, flagIdx: nat)
    requires p.Ok() && p.height <= b.Depth()
  {
    var e := Encode(H, p);
    var (t, h, f) := Parse(b, hashIdx, flagIdx, b.Depth() - p.height);
    && h == hashIdx + |e.hashes| && f == flagIdx + |e.bits|
    && Sound(H, t) && Fold(H, t) == NodeHash(H, p.leaves, p.height) && Matched(t) == Selected(p.leaves, p.matches)
  }

  /** The first flag of a subtree is found where it is placed, with a hash to go with it. */
  lemma PlacedFlag(H: Combine, b: Block, p: Part, hashIdx: nat, flagIdx: nat)
    requires Placed(H, b, p, hashIdx, flagIdx)
    ensures b.More(hashIdx, flagIdx) && b.Flag(flagIdx) == p.Any()
    ensures b.hashes[hashIdx] == Encode(H, p).hashes[0]
  {
    hide Block.Flag, Clean;
    var e := Encode(H, p);
    assert b.Flag(flagIdx + 0) == e.bits[0];
    assert b.hashes[hashIdx..hashIdx + |e.hashes|][0] == e.hashes[0];
  }

  lemma DecodesTop(H: Combine, b: Block, p: Part, hashIdx: nat, flagIdx: nat)
    requires Placed(H, b, p, hashIdx, flagIdx) && (p.height == 0 || !p.Any())
    ensures Decodes(H, b, p, hashIdx, flagIdx)
  {
    PlacedFlag(H, b, p, hashIdx, flagIdx);
    hide Block.Flag, Block.Depth;
    if p.Any() {
      assert p.matches[0] && Selected(p.leaves[1..], p.matches[1..]) == [];
    } else {
      NoneSelected(p.leaves, p.matches);
    }
  }

  lemma LowerPlaced(H: Combine, b: Block, p: Part, hashIdx: nat, flagIdx: nat)
    requires Placed(H, b, p, hashIdx, flagIdx) && p.height > 0 && p.Any() && !p.Forks()
    ensures Placed(H, b, p.Lower(), hashIdx, flagIdx + 1)
  {
    HoldsPart(b, Encode(H, p), Encode(H, p.Lower()), hashIdx, flagIdx, 0, 1);
  }

  lemma DecodesLower(H: Combine, b: Block, p: Part, hashIdx: nat, flagIdx: nat)
    requires Placed(H, b, p, hashIdx, flagIdx) && p.height > 0 && p.Any() && !p.Forks()
    requires Decodes(H, b, p.Lower(), hashIdx, flagIdx + 1)
    ensures Decodes(H, b, p, hashIdx, flagIdx)
  {
    hide Block.Flag, Block.Depth, HoldsAt, Clean, NodeHash, Selected, Encode, Part.Any;
    PlacedFlag(H, b, p, hashIdx, flagIdx);
    EncodeLower(H, p);
    ParseInner(b, hashIdx, flagIdx, b.Depth() - p.height);
    CleanLower(H, p);
    var (left, h, f) := Parse(b, hashIdx, flagIdx + 1, b.Depth() - p.height + 1);
    LowerIsNotFull(p);
    assert h == |b.hashes|;
    ParseNothing(b, h, f, b.Depth() - p.height + 1);
    hide Parse;
    var t := Parse(b, hashIdx, flagIdx, b.Depth() - p.height).0;
    assert t == Inner(left, Missing);
    LoneBranch(H, left);
    hide Sound, Matched, Fold;
  }

  /** A sound branch without a sibling stands for the node above it. */
  lemma LoneBranch(H: Combine, left: Tree)
    requires Sound(H, left) && Fold(H, left) != ZERO
    ensures var t := Inner(left, Missing);
            Sound(H, t) && Matched(t) == Matched(left) && Fold(H, t) == H(Fold(H, left), Fold(H, left))
  {
    assert Fold(H, Missing) == ZERO && Matched(Missing) == [];
    assert Matched(left) + [] == Matched(left);
  }

  lemma ParseNothing(b: Block, hashIdx: nat, flagIdx: nat, depth: nat)
    requires depth <= b.Depth() && hashIdx >= |b.hashes|
    ensures Parse(b, hashIdx, flagIdx, depth) == (Missing, hashIdx, flagIdx)
  {
  }

  lemma LowerIsNotFull(p: Part)
    requires p.Ok() && p.height > 0 && !p.Forks()
    ensures |p.leaves| < Pow2(p.height)
  {
  }

  lemma CleanLower(H: Combine, p: Part)
    requires p.Ok() && p.height > 0 && !p.Forks() && Clean(H, p.leaves, p.height)
    ensures Clean(H, p.leaves, p.height - 1)
    ensures var l := NodeHash(H, p.leaves, p.height - 1); l != ZERO && NodeHash(H, p.leaves, p.height) == H(l, l)
  {
  }

  lemma EncodeLower(H: Combine, p: Part)
    requires p.Ok() && p.height > 0 && p.Any() && !p.Forks()
    ensures var e, l := Encode(H, p), Encode(H, p.Lower()); e.bits == [true] + l.bits && e.hashes == l.hashes
  {
  }

  lemma EncodeForks(H: Combine, p: Part)
    requires p.Ok() && p.height > 0 && p.Any() && p.Forks()
    ensures var e, l, r := Encode(H, p), Encode(H, p.Left()), Encode(H, p.Right());
            e.bits == [true] + l.bits + r.bits && e.hashes == l.hashes + r.hashes
  {
  }

  lemma ParseInner(b: Block, hashIdx: nat, flagIdx: nat, depth: nat)
    requires b.More(hashIdx, flagIdx) && b.Flag(flagIdx) && depth < b.Depth()
    ensures var (left, h, f) := Parse(b, hashIdx, flagIdx + 1, depth + 1);
            var (right, h', f') := Parse(b, h, f, depth + 1);
            Parse(b, hashIdx, flagIdx, depth) == (Inner(left, right), h', f')
  {
    hide Block.Flag;
  }

  lemma Pieces<T>(x: T, a: seq<T>, b: seq<T>)
    ensures (a + b)[0..|a|] == a && (a + b)[|a|..|a| + |b|] == b
    ensures ([x] + a + b)[1..1 + |a|] == a && ([x] + a + b)[1 + |a|..1 + |a| + |b|] == b
  {
  }

  lemma BranchesPlaced(H: Combine, b: Block, p: Part, hashIdx: nat, flagIdx: nat)
    requires Placed(H, b, p, hashIdx, flagIdx) && p.height > 0 && p.Any() && p.Forks()
    ensures var l := Encode(H, p.Left());
            && Placed(H, b, p.Left(), hashIdx, flagIdx + 1)
            && Placed(H, b, p.Right(), hashIdx + |l.hashes|, flagIdx + 1 + |l.bits|)
  {
    hide HoldsAt, Clean, Encode, Block.Depth, Part.Any;
    var e, l, r := Encode(H, p), Encode(H, p.Left()), Encode(H, p.Right());
    EncodeForks(H, p);
    CleanParts(H, p);
    Pieces(true, l.bits, r.bits);
    Pieces(ZERO, l.hashes, r.hashes);
    HoldsPart(b, e, l, hashIdx, flagIdx, 0, 1);
    HoldsPart(b, e, r, hashIdx, flagIdx, |l.hashes|, 1 + |l.bits|);
  }

  lemma CleanParts(H: Combine, p: Part)
    requires p.Ok() && p.height > 0 && p.Forks() && Clean(H, p.leaves, p.height)
    ensures Clean(H, p.Left().leaves, p.height - 1) && Clean(H, p.Right().leaves, p.height - 1)
    ensures var l, r := NodeHash(H, p.Left().leaves, p.height - 1), NodeHash(H, p.Right().leaves, p.height - 1);
            l != ZERO && r != ZERO && l != r && NodeHash(H, p.leaves, p.height) == H(l, r)
  {
  }

  lemma DecodesBranches(H: Combine, b: Block, p: Part, hashIdx: nat, flagIdx: nat)
    requires Placed(H, b, p, hashIdx, flagIdx) && p.height > 0 && p.Any() && p.Forks()
    requires Decodes(H, b, p.Left(), hashIdx, flagIdx + 1)
    requires var l := Encode(H, p.Left()); Decodes(H, b, p.Right(), hashIdx + |l.hashes|, flagIdx + 1 + |l.bits|)
    ensures Decodes(H, b, p, hashIdx, flagIdx)
  {
    hide Block.Flag, Block.Depth, Block.More, HoldsAt, Clean, NodeHash, Selected, Encode, Parse, Part.Any;
    PlacedFlag(H, b, p, hashIdx, flagIdx);
    EncodeForks(H, p);
    ParseInner(b, hashIdx, flagIdx, b.Depth() - p.height);
    SelectedSplits(p.leaves, p.matches, Pow2(p.height - 1));
    CleanParts(H, p);
  }

  lemma {:induction false} ParseDecodes(H: Combine, b: Block, p: Part, hashIdx: nat, flagIdx: nat)
    requires Placed(H, b, p, hashIdx, flagIdx)
    ensures Decodes(H, b, p, hashIdx, flagIdx)
    decreases p.height
  {
    hide Decodes, Clean, HoldsAt, Encode;
    if p.height == 0 || !p.Any() {
      DecodesTop(H, b, p, hashIdx, flagIdx);
    } else if !p.Forks() {
      LowerPlaced(H, b, p, hashIdx, flagIdx);
      ParseDecodes(H, b, p.Lower(), hashIdx, flagIdx + 1);
      DecodesLower(H, b, p, hashIdx, flagIdx);
    } else {
      var l := Encode(H, p.Left());
      BranchesPlaced(H, b, p, hashIdx, flagIdx);
      ParseDecodes(H, b, p.Left(), hashIdx, flagIdx + 1);
      ParseDecodes(H, b, p.Right(), hashIdx + |l.hashes|, flagIdx + 1 + |l.bits|);
      DecodesBranches(H, b, p, hashIdx, flagIdx);
    }
  }

  /** Flags packed into bytes, the last byte padded with zeros. */
  function Pack(bits: seq<bool>): (bytes: seq<bv8>)
    ensures |bytes| == (|bits| + 7) / 8
    decreases |bits|
  {
    if bits == [] then []
    else
      var padded := if |bits| < 8 then bits + seq(8 - |bits|, _ => false) else bits;
      [PackByte(padded[..8])] + Pack(if |bits| < 8 then [] else bits[8..])
  }

  function PackByte(bits: seq<bool>): bv8
    requires |bits| == 8
  {
    (if bits[0] then 1 else 0) | (if bits[1] then 2 else 0) | (if bits[2] then 4 else 0) | (if bits[3] then 8 else 0) |
    (if bits[4] then 16 else 0) | (if bits[5] then 32 else 0) | (if bits[6] then 64 else 0) |
      (if bits[7] then 128 else 0)
  }

  lemma PackedBit(bits: seq<bool>, k: nat)
    requires |bits| == 8 && k < 8
    ensures PackByte(bits) & (1 << k) != 0 <==> bits[k]
  {
  }

  lemma {:induction false} PackedFlags(b: Block, bits: seq<bool>, i: nat)
    requires i < |bits| && b.flags == Pack(bits)
    ensures b.Flag(i) == bits[i]
    decreases i
  {
    if i < 8 {
      FirstFlags(b, bits, i);
    } else {
      var rest := b.(flags := Pack(bits[8..]));
      assert |bits| > 8 && b.flags[1..] == rest.flags;
      hide Pack, Block.Flag;
      PackedFlags(rest, bits[8..], i - 8);
      FlagMoves(b, rest, i);
    }
  }

  lemma FirstFlags(b: Block, bits: seq<bool>, i: nat)
    requires i < |bits| && i < 8 && b.flags == Pack(bits)
    ensures b.Flag(i) == bits[i]
  {
    var padded := if |bits| < 8 then bits + seq(8 - |bits|, _ => false) else bits;
    assert b.flags[0] == PackByte(padded[..8]);
    hide Pack, PackByte;
    assert padded[..8][i] == bits[i];
    PackedBit(padded[..8], i);
  }

  lemma FlagMoves(b: Block, rest: Block, i: nat)
    requires 8 <= i && i / 8 < |b.flags| && rest.flags == b.flags[1..]
    ensures rest.Flag(i - 8) == b.Flag(i)
  {
    assert (i - 8) / 8 == i / 8 - 1 && (i - 8) % 8 == i % 8;
  }

  /** The block that carries the encoding of the given transactions and matches. */
  function EncodedBlock(H: Combine, txs: seq<Hash>, matches: seq<bool>): Block
    requires Part(txs, matches, CeilLog2(|txs|)).Ok()
  {
    var e := Encode(H, Part(txs, matches, CeilLog2(|txs|)));
    Block(|txs|, e.hashes, Pack(e.bits))
  }

  lemma EncodedPlaced(H: Combine, txs: seq<Hash>, matches: seq<bool>)
    requires Part(txs, matches, CeilLog2(|txs|)).Ok() && Clean(H, txs, CeilLog2(|txs|))
    ensures Placed(H, EncodedBlock(H, txs, matches), Part(txs, matches, CeilLog2(|txs|)), 0, 0)
  {
    hide Block.Flag, Encode, Pack, Clean;
    var b, e := EncodedBlock(H, txs, matches), Encode(H, Part(txs, matches, CeilLog2(|txs|)));
    forall i | 0 <= i < |e.bits| ensures b.Flag(0 + i) == e.bits[i] {
      PackedFlags(b, e.bits, i);
    }
    assert b.hashes[0..|e.hashes|] == e.hashes;
  }

  lemma WalksDecode(H: Combine, b: Block, p: Part)
    requires b.Sized() && p.Ok() && p.height == b.Depth() && Decodes(H, b, p, 0, 0)
    ensures var n := |Encode(H, p).hashes|;
            && RootWalk(H, b, 0, 0, 0).0 == NodeHash(H, p.leaves, p.height) && RootWalk(H, b, 0, 0, 0).1 == n
            && TxWalk(b, 0, 0, 0).0 == Selected(p.leaves, p.matches) && TxWalk(b, 0, 0, 0).1 == n
  {
    hide Block.Depth, Parse, RootWalk, TxWalk, Encode, NodeHash, Selected;
    RootWalkFolds(H, b, 0, 0, 0);
    TxWalkLists(b, 0, 0, 0);
  }

  /** Decoding is complete: from the encoding of any transactions and matches, the root walk returns the true
      Merkle root, the transaction walk returns the matched transactions in order, and both use up all hashes. */
  lemma DecodingIsComplete(H: Combine, txs: seq<Hash>, matches: seq<bool>)
    requires 1 <= |txs| == |matches|
    ensures Part(txs, matches, CeilLog2(|txs|)).Ok()
    ensures var b := EncodedBlock(H, txs, matches);
            Clean(H, txs, CeilLog2(|txs|)) && b.Sized() ==>
              && RootWalk(H, b, 0, 0, 0).0 == MerkleRoot(H, txs) && RootWalk(H, b, 0, 0, 0).1 == |b.hashes|
              && TxWalk(b, 0, 0, 0).0 == Selected(txs, matches) && TxWalk(b, 0, 0, 0).1 == |b.hashes|
  {
    CeilLog2IsLeast(|txs|);
    var p, b := Part(txs, matches, CeilLog2(|txs|)), EncodedBlock(H, txs, matches);
    hide RootWalk, TxWalk, Encode, Pack, MerkleRoot, NodeHash, Clean, Placed, Decodes, Selected, CeilLog2;
    if Clean(H, txs, p.height) && b.Sized() {
      EncodedPlaced(H, txs, matches);
      ParseDecodes(H, b, p, 0, 0);
      WalksDecode(H, b, p);
      NodeHashIsMerkleRoot(H, txs);
    }
  }
}
