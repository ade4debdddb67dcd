/** The peer manager: it keeps the chain of block headers and tells the wallet what the chain confirms. */
module PeerManager {
  import opened Options
  import opened Transaction
  import opened Ledger
  import opened Chain
  import opened Reorg
  import Difficulty
  import Wallet
  import Words

  /** The length of the longest start of a line, up to n, that ends in a transition block. */
  function SaveLength(line: seq<Block>, n: nat): (i: nat)
    requires n <= |line|
    ensures i <= n && (i > 0 ==> line[i - 1].height % INTERVAL == 0)
    ensures forall k :: i <= k < n ==> line[k].height % INTERVAL != 0
  {
    if n == 0 || line[n - 1].height % INTERVAL == 0 then n else SaveLength(line, n - 1)
  }

  /** The map holds the blocks of the list under their heights. */
  ghost predicate IndexedBy(index: map<nat, Block>, list: seq<Block>) {
    && (forall height :: height in index ==> index[height] in list && index[height].height == height)
    && forall b :: b in list ==> b.height in index && index[b.height] == b
  }

  /** The map holds the blocks of the list under their hashes. */
  ghost predicate StoredFrom(blocks: map<Hash, Block>, list: seq<Block>) {
    && (forall h :: h in blocks ==> blocks[h] in list && blocks[h].hash == h)
    && forall b :: b in list ==> b.hash in blocks && blocks[b.hash] == b
  }

  lemma NoCheckpoints()
    ensures forall list :: list == [] ==> StoredFrom(map[], list) && IndexedBy(map[], list)
  {
  }

  lemma CheckpointsStored(blocks: map<Hash, Block>, list: seq<Block>)
    requires StoredFrom(blocks, list)
    ensures forall c :: c in list ==> c.hash in blocks && blocks[c.hash] == c
  {
  }

  lemma SomeCheckpoint(th: Heights, p: Params)
    requires RootedParams(th, p)
    ensures |p.checkpoints| > 0
  {
  }

  lemma OneMoreCheckpoint(th: Heights, p: Params, blocks: map<Hash, Block>, index: map<nat, Block>, i: nat)
    requires RootedParams(th, p) && DistinctHeights(p.checkpoints) && i < |p.checkpoints|
    requires StoredFrom(blocks, p.checkpoints[..i]) && IndexedBy(index, p.checkpoints[..i])
    ensures var b := p.checkpoints[i];
            StoredFrom(blocks[b.hash := b], p.checkpoints[..i + 1])
            && IndexedBy(index[b.height := b], p.checkpoints[..i + 1])
  {
    var b := p.checkpoints[i];
    assert p.checkpoints[..i + 1] == p.checkpoints[..i] + [b];
    forall c | c in p.checkpoints[..i] ensures c.height != b.height && c.hash != b.hash {
      OthersDiffer(th, p, i, c);
    }
    hide RootedParams, DistinctHeights;
    StoreOneMore(blocks, p.checkpoints[..i], b);
    IndexOneMore(index, p.checkpoints[..i], b);
  }

  lemma OthersDiffer(th: Heights, p: Params, i: nat, c: Block)
    requires RootedParams(th, p) && DistinctHeights(p.checkpoints) && i < |p.checkpoints| && c in p.checkpoints[..i]
    ensures c.height != p.checkpoints[i].height && c.hash != p.checkpoints[i].hash
  {
    var k :| 0 <= k < i && p.checkpoints[k] == c;
  }

  lemma StoreOneMore(blocks: map<Hash, Block>, list: seq<Block>, b: Block)
    requires StoredFrom(blocks, list) && forall c :: c in list ==> c.hash != b.hash
    ensures StoredFrom(blocks[b.hash := b], list + [b])
  {
  }

  lemma IndexOneMore(index: map<nat, Block>, list: seq<Block>, b: Block)
    requires IndexedBy(index, list) && forall c :: c in list ==> c.height != b.height
    ensures IndexedBy(index[b.height := b], list + [b])
  {
  }

  /** With nothing but the checkpoints stored the state is well-formed. */
  lemma CheckpointsWell(th: Heights, p: Params, blocks: map<Hash, Block>)
    requires RootedParams(th, p) && StoredFrom(blocks, p.checkpoints)
    ensures StoredWell(th, blocks) && forall h :: h in blocks ==> IsCheckpoint(p, h)
  {
    hide Rooted;
    assert ZERO in blocks ==> Rooted(th, blocks[ZERO]);
    if ZERO in blocks {
      RootedIsNotZero(th, blocks[ZERO]);
    }
  }

  lemma RootedIsNotZero(th: Heights, b: Block)
    requires Rooted(th, b)
    ensures b.hash != ZERO
  {
  }

  lemma NoneAboveCheckpoints(p: Params, blocks: map<Hash, Block>, b: Block)
    requires forall h :: h in blocks ==> IsCheckpoint(p, h)
    ensures NoneAbove(p, blocks, b)
  {
  }

  lemma LoadOne(th: Heights, p: Params, blocks: map<Hash, Block>, orphans: map<Hash, Block>, b: Block)
    requires StoredWell(th, blocks) && WaitingWell(th, orphans) && NoneAbove(p, blocks, b)
    requires Rooted(th, b) && b.height == th(b.hash) && b.prevBlock in orphans
    ensures var more, rest := blocks[b.hash := b], orphans - {b.prevBlock};
            && StoredWell(th, more) && WaitingWell(th, rest) && NoneAbove(p, more, b) && |rest| < |orphans|
            && (b.hash in rest && rest[b.hash].height == th(rest[b.hash].hash) ==>
                  rest[b.hash].prevBlock == b.hash && rest[b.hash].height > b.height
                  && NoneAbove(p, more, rest[b.hash]))
  {
    hide IsCheckpoint;
    var rest := orphans - {b.prevBlock};
    assert rest.Keys == orphans.Keys - {b.prevBlock};
  }

  /** How many blocks relaying a block wants to save. */
  function SaveCount(estimate: nat, b: Block, v: Verdict): nat {
    if (v == Extended || v == Reorganised) && b.height == estimate then b.height % INTERVAL + INTERVAL + 1
    else if v == Extended && b.height % INTERVAL == 0 then 1
    else 0
  }

  /** How far back locator number i is: ten single steps, then each step twice the one before. */
  function Offset(i: nat): nat {
    if i < 10 then i else 7 + Words.Pow2(i - 8)
  }

  /** The locators of a line from number i on, ending above height 0. */
  function LocatorsFrom(line: seq<Block>, i: nat): seq<Hash>
    decreases |line| - Offset(i)
  {
    if Offset(i) >= |line| || line[Offset(i)].height == 0 then []
    else
      OffsetGrows(i);
      [line[Offset(i)].hash] + LocatorsFrom(line, i + 1)
  }

  /** The first ten locators are consecutive blocks; from then on each step is twice the one before. */
  lemma OffsetIs(i: nat)
    ensures i <= 9 ==> Offset(i) == i
    ensures Offset(10) == 11
    ensures i >= 10 ==> Offset(i + 1) - Offset(i) == 2 * (Offset(i) - Offset(i - 1))
  {
    assert Words.Pow2(2) == 4 && Words.Pow2(1) == 2;
  }

  lemma OffsetGrows(i: nat)
    ensures Offset(i) < Offset(i + 1)
    ensures Offset(i + 1) == Offset(i) + if i < 9 then 1 else Words.Pow2(i - 8)
  {
  }

  lemma LocatorAt(line: seq<Block>, i: nat)
    requires Offset(i) < |line| && line[Offset(i)].height > 0
    ensures LocatorsFrom(line, i) == [line[Offset(i)].hash] + LocatorsFrom(line, i + 1)
    ensures Offset(i) < Offset(i + 1)
  {
    OffsetGrows(i);
  }

  lemma NoLocator(line: seq<Block>, i: nat)
    requires Offset(i) < |line| ==> line[Offset(i)].height == 0
    ensures LocatorsFrom(line, i) == []
  {
  }

  lemma FirstLocator(blocks: map<Hash, Block>, b: Block, line: seq<Block>)
    requires IsAncestry(blocks, b, line)
    ensures Offset(0) == 0 && line != [] && line[0] == b && IsAncestry(blocks, line[0], line)
  {
  }

  predicate DistinctHeights(blocks: seq<Block>) {
    forall i, j :: 0 <= i < j < |blocks| ==> blocks[i].height != blocks[j].height
  }

  function Min(a: nat, b: nat): nat {
    if a < b then a else b
  }

  /** The last of the first n checkpoints that is a week older than the earliest key, or else the first. */
  function StartCheckpoint(p: Params, n: nat): Block
    requires 0 < n <= |p.checkpoints|
  {
    if n == 1 || AWeekOn(p.checkpoints[n - 1].timestamp) < p.earliestKeyTime then p.checkpoints[n - 1]
    else StartCheckpoint(p, n - 1)
  }

  /** Of the checkpoints more than a week older than the earliest key the last one, and without any the first. */
  lemma {:induction false} StartCheckpointIs(p: Params, n: nat) returns (i: nat)
    requires 0 < n <= |p.checkpoints|
    ensures i < n && StartCheckpoint(p, n) == p.checkpoints[i]
    ensures i == 0 || (p.checkpoints[i].timestamp + 604800) % 0x1_0000_0000 < p.earliestKeyTime
    ensures forall k :: i < k < n ==> (p.checkpoints[k].timestamp + 604800) % 0x1_0000_0000 >= p.earliestKeyTime
  {
    if n == 1 || AWeekOn(p.checkpoints[n - 1].timestamp) < p.earliestKeyTime {
      i := n - 1;
    } else {
      i := StartCheckpointIs(p, n - 1);
    }
  }

  /** The highest transition block among the saved blocks, if there is one. */
  predicate HighestTransition(saved: seq<Block>, start: Option<Block>) {
    && (start.Some? ==> start.value in saved && start.value.height % INTERVAL == 0)
    && forall b :: b in saved && b.height % INTERVAL == 0 ==> start.Some? && b.height <= start.value.height
  }

  /** A saved block that is the one started from, or follows a stored block. */
  predicate ContinuesSaved(start: Option<Block>, saved: seq<Block>, blocks: map<Hash, Block>, b: Block) {
    b in saved && (start == Some(b) || b.prevBlock in blocks)
  }

  class BRPeerManager {
    const params: Params
    const wallet: Wallet.BRWallet
    ghost const th: Heights

    var blocks: map<Hash, Block>
    var orphans: map<Hash, Block>
    var checkpoints: map<nat, Block>
    var lastBlock: Block
    var lastOrphan: Option<Block>
    var estimatedHeight: nat

    /** The manager at start: the checkpoints are stored, and the saved blocks from the highest saved transition
        block on. The heights of saved blocks are saved with them. */
    constructor (params: Params, wallet: Wallet.BRWallet, saved: seq<Block>, ghost th: Heights)
      requires RootedParams(th, params) && DistinctHeights(params.checkpoints)
      requires forall b :: b in saved ==> Rooted(th, b) && b.height == th(b.hash)
      ensures Valid() && this.params == params && this.wallet == wallet && this.th == th
      ensures estimatedHeight == 0 && lastOrphan == None
      ensures forall c :: c in params.checkpoints ==> c.hash in blocks
      ensures exists start :: HighestTransition(saved, start) && LoadedFrom(start, saved)
      ensures saved == [] ==> orphans == map[] && StoredFrom(blocks, params.checkpoints)
    {
      this.params, this.wallet, this.th := params, wallet, th;
      blocks, orphans, checkpoints, lastOrphan, estimatedHeight := map[], map[], map[], None, 0;
      lastBlock := params.checkpoints[0];
      new;
      hide *;
      Start(saved);
    }

    /** Stores the checkpoints and loads the saved blocks. */
    method Start(saved: seq<Block>)
      requires RootedParams(th, params) && DistinctHeights(params.checkpoints)
      requires blocks == map[] && orphans == map[] && checkpoints == map[]
      requires forall b :: b in saved ==> Rooted(th, b) && b.height == th(b.hash)
      modifies this`blocks, this`orphans, this`checkpoints, this`lastBlock
      ensures Valid()
      ensures forall c :: c in params.checkpoints ==> c.hash in blocks
      ensures exists start :: HighestTransition(saved, start) && LoadedFrom(start, saved)
      ensures saved == [] ==> orphans == map[] && StoredFrom(blocks, params.checkpoints)
    {
      hide RootedParams, ValidState, StoredWell, WaitingWell, Rooted, DistinctHeights, StoredFrom, IndexedBy;
      hide IsCheckpoint;
      AddCheckpoints();
      CheckpointsWell(th, params, blocks);
      CheckpointsStored(blocks, params.checkpoints);
      var block := AddSaved(saved);
      Load(saved, block);
    }

    method AddCheckpoints()
      requires RootedParams(th, params) && DistinctHeights(params.checkpoints)
      requires blocks == map[] && checkpoints == map[]
      modifies this`blocks, this`checkpoints, this`lastBlock
      ensures StoredFrom(blocks, params.checkpoints) && IndexedBy(checkpoints, params.checkpoints)
      ensures lastBlock in params.checkpoints && lastBlock == StartCheckpoint(params, |params.checkpoints|)
    {
      hide StoredFrom, IndexedBy, RootedParams, DistinctHeights;
      NoCheckpoints();
      for i := 0 to |params.checkpoints|
        invariant StoredFrom(blocks, params.checkpoints[..i]) && IndexedBy(checkpoints, params.checkpoints[..i])
        invariant i > 0 ==> lastBlock in params.checkpoints && lastBlock == StartCheckpoint(params, i)
      {
        var block := params.checkpoints[i];
        OneMoreCheckpoint(th, params, blocks, checkpoints, i);
        checkpoints := checkpoints[block.height := block];
        blocks := blocks[block.hash := block];
        if i == 0 || AWeekOn(block.timestamp) < params.earliestKeyTime {
          lastBlock := block;
        }
      }
      assert params.checkpoints[..|params.checkpoints|] == params.checkpoints;
      SomeCheckpoint(th, params);
    }

    /** Keeps the saved blocks as orphans; returns the highest transition block among them. */
    method AddSaved(saved: seq<Block>) returns (block: Option<Block>)
      requires forall b :: b in saved ==> Rooted(th, b) && b.height == th(b.hash)
      requires orphans == map[]
      modifies this`orphans
      ensures WaitingWell(th, orphans) && forall q :: q in orphans ==> orphans[q] in saved
      ensures block.Some? ==> block.value in saved && block.value.prevBlock in orphans
      ensures HighestTransition(saved, block)
    {
      hide Rooted;
      block := None;
      for i := 0 to |saved|
        invariant WaitingWell(th, orphans) && forall q :: q in orphans ==> orphans[q] in saved
        invariant block.Some? ==> block.value in saved && block.value.prevBlock in orphans
        invariant block.Some? ==> block.value.height % INTERVAL == 0
        invariant forall k :: 0 <= k < i && saved[k].height % INTERVAL == 0 ==>
                                block.Some? && saved[k].height <= block.value.height
      {
        orphans := orphans[saved[i].prevBlock := saved[i]];
        if saved[i].height % INTERVAL == 0 && (block.None? || saved[i].height > block.value.height) {
          block := Some(saved[i]);
        }
      }
    }

    /** Without a saved transition block the last block is the checkpoint to start from; otherwise it is where the saved
        blocks that follow one another from that transition block end. */
    ghost predicate LoadedFrom(start: Option<Block>, saved: seq<Block>)
      reads this
    {
      && params.checkpoints != []
      && (forall h :: h in blocks ==> IsCheckpoint(params, h) || ContinuesSaved(start, saved, blocks, blocks[h]))
      && if start.None? then lastBlock == StartCheckpoint(params, |params.checkpoints|)
         else
           && start.value.hash in blocks && lastBlock in saved
           && start.value.height <= lastBlock.height && lastBlock.hash !in orphans
    }

    /** Moves the saved blocks that follow one another from the given one on to the stored blocks. */
    method Load(saved: seq<Block>, start: Option<Block>)
      requires StoredWell(th, blocks) && WaitingWell(th, orphans)
      requires lastBlock.hash in blocks && blocks[lastBlock.hash] == lastBlock
      requires forall h :: h in blocks ==> IsCheckpoint(params, h)
      requires forall q :: q in orphans ==> orphans[q] in saved
      requires forall b :: b in saved ==> Rooted(th, b) && b.height == th(b.hash)
      requires start.Some? ==> start.value in saved && start.value.prevBlock in orphans
      modifies this`orphans, this`blocks, this`lastBlock
      ensures ValidState(th, params, TheState())
      ensures forall q :: q in orphans ==> orphans[q] in saved
      ensures forall h :: h in old(blocks) ==> h in blocks
      ensures if start.None? then lastBlock == old(lastBlock) && blocks == old(blocks)
              else lastBlock in saved && lastBlock.hash !in orphans && start.value.height <= lastBlock.height
      ensures start.Some? ==> start.value.hash in blocks
      ensures forall h :: h in blocks ==> IsCheckpoint(params, h) || ContinuesSaved(start, saved, blocks, blocks[h])
    {
      hide IsCheckpoint, StoredWell, WaitingWell, Rooted, NoneAbove;
      var block := start;
      NoneAboveCheckpoints(params, blocks, if start.Some? then start.value else lastBlock);
      while block.Some?
        invariant StoredWell(th, blocks) && WaitingWell(th, orphans)
        invariant lastBlock.hash in blocks && blocks[lastBlock.hash] == lastBlock
        invariant forall h :: h in old(blocks) ==> h in blocks
        invariant forall h :: h in blocks ==> IsCheckpoint(params, h) || ContinuesSaved(start, saved, blocks, blocks[h])
        invariant if start.None? then block.None? && lastBlock == old(lastBlock) && blocks == old(blocks)
                  else if block.None? then lastBlock in saved && lastBlock.hash !in orphans
                  else block == start || block.value.prevBlock in blocks
        invariant start.Some? && block != start ==> start.value.hash in blocks
        invariant forall q :: q in orphans ==> orphans[q] in saved
        invariant block.Some? ==> block.value in saved && block.value.prevBlock in orphans
        invariant NoneAbove(params, blocks, if block.Some? then block.value else lastBlock)
        invariant start.Some? ==> start.value.height <= if block.Some? then block.value.height else lastBlock.height
        decreases |orphans|, block.Some?
      {
        var b := block.value;
        LoadOne(th, params, blocks, orphans, b);
        blocks := blocks[b.hash := b];
        lastBlock := b;
        orphans := orphans - {b.prevBlock};
        block := if b.hash in orphans then Some(orphans[b.hash]) else None;
      }
    }

    function TheState(): State
      reads this
    {
      State(blocks, orphans, lastBlock, lastOrphan, estimatedHeight)
    }

    ghost predicate Valid()
      reads this
    {
      RootedParams(th, params) && ValidState(th, params, TheState()) && IndexedBy(checkpoints, params.checkpoints)
    }

    function Get(h: Hash): Option<Block>
      reads this`blocks
    {
      if h in blocks then Some(blocks[h]) else None
    }

    /** Walks back n blocks, or until there are no more. */
    method WalkBack(block: Block, n: nat) returns (b: Option<Block>)
      requires Linked(blocks) && LinkedTo(blocks, block)
      ensures b == if n < |Ancestry(blocks, block)| then Some(Ancestry(blocks, block)[n]) else None
    {
      hide Ancestry, Linked;
      ghost var line := Ancestry(blocks, block);
      AncestryIs(blocks, block);
      b := Some(block);
      var i := 0;
      while b.Some? && i < n
        invariant i <= n
        invariant b == if i < |line| then Some(line[i]) else None
        invariant b.None? ==> |line| <= n
      {
        assert i + 1 < |line| ==> ParentIs(blocks, line[i], line[i + 1]);
        b := Get(b.value.prevBlock);
        i := i + 1;
      }
    }

    /** The main network's difficulty check: it walks back to the last transition itself. */
    method MainNetVerifyDifficulty(block: Block) returns (r: bool)
      requires Linked(blocks) && LinkedTo(blocks, block) && block.prevBlock in blocks
      ensures var transition := Transition(blocks, block);
              r <==> RightTarget(block, blocks[block.prevBlock],
                                 if block.height % INTERVAL == 0 && transition.Some?
                                 then transition.value.timestamp else 0)
    {
      hide Ancestry, Difficulty.NextTarget;
      var b: Option<Block> := None;
      if block.height % INTERVAL == 0 {
        b := WalkBack(block, INTERVAL);
      }
      var previous := blocks[block.prevBlock];
      r := Difficulty.VerifyDifficulty(HeaderOf(block), HeaderOf(previous), if b.Some? then b.value.timestamp else 0);
    }

    /** Frees the blocks before the transition block, transition blocks excepted. */
    method FreeBefore(transition: Block, ghost block: Block)
      requires Linked(blocks) && LinkedTo(blocks, block) && block.height % INTERVAL == 0
      requires Transition(blocks, block) == Some(transition)
      modifies this`blocks
      ensures blocks == Pruned(old(blocks), block)
    {
      hide Ancestry, Linked, Stale;
      ghost var line := Ancestry(blocks, block);
      AncestryIs(blocks, block);
      ghost var k := INTERVAL;
      var b := Some(transition);
      var prevBlock := transition.prevBlock;
      NothingStale(blocks, line);
      while b.Some?
        invariant INTERVAL <= k < |line| && prevBlock == line[k].prevBlock
        invariant blocks == FreedTo(old(blocks), line, k)
        invariant b.None? ==> k == |line| - 1
        decreases |line| - k, b.Some?
      {
        NextToFree(old(blocks), block, line, k);
        b := Get(prevBlock);
        if b.Some? {
          k := k + 1;
          prevBlock := b.value.prevBlock;
          if b.value.height % INTERVAL != 0 {
            blocks := blocks - {b.value.hash};
          }
        }
      }
      assert line[..|line|] == line;
    }

    /** Whether the block is allowed by its predecessors. Looking at a transition frees old blocks. */
    method VerifyBlock(block: Block, prev: Option<Block>) returns (r: bool)
      requires Valid() && prev == Get(block.prevBlock) && prev.Some? && LinkedTo(blocks, block)
      modifies this`blocks
      ensures Linked(old(blocks))
      ensures r <==> Accepts(params, old(blocks), block)
      ensures blocks == Pruned(old(blocks), block)
    {
      hide Ancestry, Pruned, RightTarget, Rooted, NoneAbove, WaitingWell, RootedParams;
      WellIsLinked(th, blocks);
      r := true;
      if prev.None? || block.prevBlock != prev.value.hash || block.height != prev.value.height + 1 {
        r := false;
      }
      ghost var transition := Transition(blocks, block);
      if r && block.height % INTERVAL == 0 {
        var b := WalkBack(block, INTERVAL);
        if b.None? {
          r := false;
          NothingPruned(blocks, block);
        } else {
          TransitionSpared(blocks, block, block);
          FreeBefore(b.value, block);
        }
      } else {
        NotPruned(blocks, block);
      }
      PrunedLinked(old(blocks), block);
      ParentSpared(old(blocks), block);
      if r && params.mainNet {
        r := MainNetVerifyDifficulty(block);
      }
      if r {
        var differs := DiffersFromCheckpoint(block);
        if differs {
          r := false;
        }
      }
    }

    method DiffersFromCheckpoint(block: Block) returns (differs: bool)
      requires IndexedBy(checkpoints, params.checkpoints)
      ensures differs == params.Differs(block)
    {
      differs := block.height in checkpoints && checkpoints[block.height].hash != block.hash;
    }

    /** The main chain's block at the height, or its last block if that is not above the height. */
    method MainAt(height: nat) returns (b: Option<Block>)
      requires Linked(blocks) && LinkedTo(blocks, lastBlock)
      ensures b.None? <==> Bottom(blocks, lastBlock) > height
      ensures b.Some? ==> b.value in Ancestry(blocks, lastBlock) && b.value.height == Min(height, lastBlock.height)
    {
      hide Ancestry, Linked, Bottom;
      ghost var line := Ancestry(blocks, lastBlock);
      AncestryIs(blocks, lastBlock);
      BottomIs(blocks, lastBlock);
      ghost var k := 0;
      b := Some(lastBlock);
      while b.Some? && b.value.height > height
        invariant k <= |line| && b == if k < |line| then Some(line[k]) else None
        invariant k > 0 ==> line[k - 1].height > height
        decreases |line| - k
      {
        assert k + 1 < |line| ==> ParentIs(blocks, line[k], line[k + 1]);
        b := Get(b.value.prevBlock);
        k := k + 1;
      }
    }

    /** Walks back to where the chain of block joins the main chain. */
    method FindJoin(block: Block) returns (b: Option<Block>, b2: Option<Block>)
      requires TheState().Usable() && block.hash in blocks && blocks[block.hash] == block
      requires block.height > lastBlock.height
      ensures match JoinOf(Ancestry(blocks, block), Ancestry(blocks, lastBlock))
              case Meets(at) => b == Some(at) && b2 == Some(at)
              case NewFallsShort => b == None
              case OldFallsShort(at) => b == Some(at) && b2 == None
    {
      hide Ancestry;
      ghost var line, main := Ancestry(blocks, block), Ancestry(blocks, lastBlock);
      AncestryIs(blocks, block);
      AncestryIs(blocks, lastBlock);
      StoredAncestry(blocks, block);
      StoredAncestry(blocks, lastBlock);
      hide Linked;
      ghost var lead, i, j := block.height - lastBlock.height, 0, 0;
      b, b2 := Some(block), Some(lastBlock);
      while b.Some? && b2.Some? && b.value.hash != b2.value.hash
        invariant i <= |line| && j <= |main|
        invariant b == (if i < |line| then Some(line[i]) else None)
        invariant b2 == (if j < |main| then Some(main[j]) else None)
        invariant b.Some? ==> i == lead + j || (j == 0 && i < lead)
        invariant b.None? ==> JoinOf(line, main).NewFallsShort?
        invariant b2.None? ==> b.None? || i >= lead
        invariant b.Some? && i >= lead ==> JoinOf(line, main) == JoinFrom(line, main, lead, j)
        decreases |line| - i
      {
        assert i + 1 < |line| ==> ParentIs(blocks, line[i], line[i + 1]);
        assert j + 1 < |main| ==> ParentIs(blocks, main[j], main[j + 1]);
        b := Get(b.value.prevBlock);
        i := i + 1;
        if b.Some? && b.value.height < b2.value.height {
          b2 := Get(b2.value.prevBlock);
          j := j + 1;
        }
      }
    }

    function WalletEnv(): Env
      reads wallet
    {
      Env(wallet.allTx, wallet.allAddrs, 0, 0)
    }

    /** Tells the wallet what a block matched. */
    method Confirm(txHashes: seq<Hash>, height: nat, txTime: nat, now: nat)
      requires wallet.Valid()
      modifies wallet
      ensures wallet.Valid() && wallet.allAddrs == old(wallet.allAddrs)
      ensures Wallet.SameMembers(wallet.transactions, old(wallet.transactions))
      ensures wallet.allTx == Wallet.Recorded(old(WalletEnv()), Wallet.SetOf(txHashes), height, txTime)
    {
      hide Wallet.Recorded, Wallet.Concerns, Wallet.Changes, Recompute, Wallet.BRWallet.Valid;
      ghost var env, was := wallet.EnvAt(now), WalletEnv();
      if |txHashes| > 0 {
        var hashes := wallet.UpdateTransactions(txHashes, height, txTime, now);
        RecordedAlike(env, was, Wallet.SetOf(txHashes), height, txTime);
      } else {
        NoneMatched(WalletEnv(), txHashes, height, txTime);
      }
    }

    /** Sets the heights of what the blocks of the new main chain matched, down to the join. */
    method Replay(block: Block, at: Block, now: nat)
      requires wallet.Valid() && Linked(blocks) && LinkedTo(blocks, block)
      requires 0 < block.height - at.height < |Ancestry(blocks, block)|
      modifies wallet
      ensures wallet.Valid() && wallet.allAddrs == old(wallet.allAddrs)
      ensures Wallet.SameMembers(wallet.transactions, old(wallet.transactions))
      ensures wallet.allTx == Replayed(old(WalletEnv()), Ancestry(blocks, block), block.height - at.height)
    {
      hide Ancestry, Linked, Wallet.Recorded, Wallet.Concerns, Wallet.BRWallet.Valid;
      ghost var line, i := Ancestry(blocks, block), 0;
      AncestryIs(blocks, block);
      var b := Some(block);
      while b.Some? && b.value.height > at.height
        invariant i <= block.height - at.height && b == Some(line[i])
        invariant wallet.Valid() && wallet.allAddrs == old(wallet.allAddrs)
        invariant Wallet.SameMembers(wallet.transactions, old(wallet.transactions))
        invariant wallet.allTx == Replayed(old(WalletEnv()), line, i)
        decreases |line| - i
      {
        var hashes, height, timestamp := b.value.txHashes, b.value.height, b.value.timestamp;
        assert ParentIs(blocks, line[i], line[i + 1]);
        b := Get(b.value.prevBlock);
        if b.Some? {
          timestamp := timestamp / 2 + b.value.timestamp / 2;
        }
        Confirm(hashes, height, timestamp, now);
        i := i + 1;
      }
    }

    /** Makes the stored block the last one: the transactions above the join become unconfirmed and those matched in
        the new chain confirmed. */
    method Reorganise(block: Block, now: nat) returns (crashed: bool)
      requires wallet.Valid() && TheState().Usable() && block.hash in blocks && blocks[block.hash] == block
      requires lastBlock.height < block.height < UNKNOWN_HEIGHT
      modifies wallet, this`lastBlock
      ensures var join := JoinOf(Ancestry(blocks, block), Ancestry(blocks, old(lastBlock)));
              && crashed == Severed(blocks, block, old(lastBlock))
              && (crashed == join.NewFallsShort?)
              && (!crashed ==>
                    && lastBlock == block && wallet.Valid() && wallet.allAddrs == old(wallet.allAddrs)
                    && Wallet.SameMembers(wallet.transactions, old(wallet.transactions))
                    && (join.Meets? ==> 0 <= block.height - join.at.height < |Ancestry(blocks, block)|)
                    && wallet.allTx ==
                      Followed(old(WalletEnv()), old(wallet.transactions), Ancestry(blocks, block), join))
    {
      hide Ancestry, Wallet.Recorded, Wallet.RolledBack, Wallet.Concerns, Replayed, JoinOf;
      hide Wallet.BRWallet.Valid;
      var b, b2 := FindJoin(block);
      JoinBelow(blocks, block, lastBlock);
      SeveredIff(blocks, block, lastBlock);
      hide Severed;
      if b.None? {
        return true;
      }
      ghost var env, order, line := WalletEnv(), wallet.transactions, Ancestry(blocks, block);
      assert line[0] == block && Ancestry(blocks, lastBlock)[0] == lastBlock;
      ghost var join := JoinOf(line, Ancestry(blocks, lastBlock));
      var hashes := wallet.SetTxUnconfirmedAfter(b.value.height, now);
      assert wallet.allTx == Wallet.RolledBack(env.allTx, order, join.at.height);
      if b2.Some? {
        assert WalletEnv() == env.(allTx := Wallet.RolledBack(env.allTx, order, join.at.height));
        Replay(block, b2.value, now);
      }
      assert wallet.allTx == Followed(env, order, line, join);
      lastBlock := block;
      crashed := false;
    }

    /** Deals with a block that its predecessors allow. */
    method Place(block: Block, txTime: nat, r: Relay) returns (v: Verdict, saveCount: nat)
      requires Valid() && wallet.Valid() && Rooted(th, block) && block.height == th(block.hash)
      requires block.prevBlock in blocks && LinkedTo(blocks, block) && txTime == TxTime(block, blocks[block.prevBlock])
      modifies this`blocks, this`orphans, this`lastBlock, this`lastOrphan, wallet
      ensures old(TheState()).Usable()
      ensures v == JudgeAllowed(params, old(lastBlock), r, old(blocks), block)
      ensures v != Crashed ==>
                && saveCount == SaveCount(old(estimatedHeight), block, v)
                && blocks == (if v in {Deferred, OldFork} then old(blocks) else old(blocks)[block.hash := block])
                && orphans == (if v == Deferred then old(orphans)[block.prevBlock := block] else old(orphans))
                && lastOrphan == (if v == Deferred then Some(block) else old(lastOrphan))
                && lastBlock == (if BecomesLast(old(lastBlock), block, v) then block else old(lastBlock))
                && wallet.Valid() && wallet.allAddrs == old(wallet.allAddrs)
                && Wallet.SameMembers(wallet.transactions, old(wallet.transactions))
                && wallet.allTx ==
                  TxAllowed(old(blocks), old(lastBlock), block, v, old(WalletEnv()), old(wallet.transactions))
    {
      hide Ancestry, JoinOf, Wallet.Recorded, Wallet.Concerns, Followed, Bottom, OnMain, Rooted, NoneAbove, WaitingWell;
      hide IndexedBy, RootedParams, Wallet.BRWallet.Valid;
      WellIsLinked(th, blocks);
      SomeCheckpoint(th, params);
      saveCount := 0;
      if block.prevBlock == lastBlock.hash {
        v := Extended;
        blocks := blocks[block.hash := block];
        lastBlock := block;
        Confirm(block.txHashes, block.height, txTime, r.now);
        if block.height % INTERVAL == 0 {
          saveCount := 1;
        }
        if block.height == estimatedHeight {
          saveCount := block.height % INTERVAL + INTERVAL + 1;
        }
      } else if block.hash in blocks {
        v := PlaceKnown(block, txTime, r.now);
      } else if lastBlock.height < r.peerHeight && block.height > lastBlock.height + 1 {
        v := Deferred;
        orphans := orphans[block.prevBlock := block];
        lastOrphan := Some(block);
      } else if block.height <= params.checkpoints[|params.checkpoints| - 1].height {
        v := OldFork;
      } else {
        v, saveCount := PlaceFork(block, r.now);
      }
    }

    /** A block that is stored already: if it is in the main chain its transactions have its height. */
    method PlaceKnown(block: Block, txTime: nat, now: nat) returns (v: Verdict)
      requires Valid() && wallet.Valid() && block.height == th(block.hash)
      requires block.prevBlock in blocks && LinkedTo(blocks, block) && txTime == TxTime(block, blocks[block.prevBlock])
      requires block.hash in blocks
      modifies this`blocks, this`lastBlock, wallet
      ensures old(TheState()).Usable()
      ensures v == if Bottom(old(blocks), old(lastBlock)) <= block.height then Known else Crashed
      ensures v != Crashed ==>
                && blocks == old(blocks)[block.hash := block]
                && lastBlock == (if BecomesLast(old(lastBlock), block, v) then block else old(lastBlock))
                && wallet.Valid() && wallet.allAddrs == old(wallet.allAddrs)
                && Wallet.SameMembers(wallet.transactions, old(wallet.transactions))
                && wallet.allTx ==
                  TxAllowed(old(blocks), old(lastBlock), block, v, old(WalletEnv()), old(wallet.transactions))
    {
      hide Ancestry, JoinOf, Wallet.Recorded, Wallet.Concerns, Followed, Bottom, Rooted, NoneAbove, WaitingWell;
      hide IndexedBy, RootedParams, Wallet.BRWallet.Valid, OnMain;
      WellIsLinked(th, blocks);
      var b := MainAt(block.height);
      if b.None? {
        return Crashed;
      }
      v := Known;
      MainHas(th, blocks, lastBlock, block, b.value);
      if b.value.hash == block.hash {
        Confirm(block.txHashes, block.height, txTime, now);
        if block.height == lastBlock.height {
          lastBlock := block;
        }
      }
      blocks := blocks[block.hash := block];
    }

    /** A new block on a fork: if its chain is longer than the main chain it becomes the main chain. */
    method PlaceFork(block: Block, now: nat) returns (v: Verdict, saveCount: nat)
      requires Valid() && wallet.Valid() && Rooted(th, block) && block.height == th(block.hash)
      requires block.prevBlock in blocks && LinkedTo(blocks, block) && block.hash !in blocks
      modifies this`blocks, this`lastBlock, wallet
      ensures old(TheState()).Usable()
      ensures v == if block.height <= old(lastBlock).height then Forked
                   else if JoinOf(Ancestry(old(blocks), block), Ancestry(old(blocks), old(lastBlock))).NewFallsShort?
                   then Crashed else Reorganised
      ensures v != Crashed ==>
                && saveCount == SaveCount(old(estimatedHeight), block, v)
                && blocks == old(blocks)[block.hash := block]
                && lastBlock == (if v == Reorganised then block else old(lastBlock))
                && wallet.Valid() && wallet.allAddrs == old(wallet.allAddrs)
                && Wallet.SameMembers(wallet.transactions, old(wallet.transactions))
                && wallet.allTx ==
                  TxAllowed(old(blocks), old(lastBlock), block, v, old(WalletEnv()), old(wallet.transactions))
    {
      hide Ancestry, JoinOf, Wallet.Recorded, Wallet.Concerns, Followed, NoneAbove, WaitingWell;
      hide IndexedBy, RootedParams, Wallet.BRWallet.Valid;
      WellIsLinked(th, blocks);
      v, saveCount := Forked, 0;
      if block.height <= lastBlock.height {
        blocks := blocks[block.hash := block];
      } else {
        AddingSparesLines(th, blocks, block, block);
        AddingSparesLines(th, blocks, block, lastBlock);
        blocks := blocks[block.hash := block];
        var crashed := Reorganise(block, now);
        if crashed {
          return Crashed, 0;
        }
        v := Reorganised;
        if block.height == estimatedHeight {
          saveCount := block.height % INTERVAL + INTERVAL + 1;
        }
      }
    }

    /** A block whose parent is stored: it is dealt with if its predecessors allow it. */
    method VerifyAndPlace(r: Relay, block: Block, prev: Option<Block>, txTime: nat) returns (v: Verdict, saveCount: nat)
      requires Valid() && wallet.Valid() && Relayable(th, block) && block.height == th(block.hash)
      requires prev == Get(block.prevBlock) && prev.Some?
      requires LinkedTo(blocks, block) && txTime == TxTime(block, prev.value)
      modifies this`blocks, this`orphans, this`lastBlock, this`lastOrphan, wallet
      ensures old(TheState()).Usable() && params.checkpoints != []
      ensures var kept := Pruned(old(blocks), block);
              && Linked(kept) && LinkedTo(kept, block) && LinkedTo(kept, old(lastBlock)) && block.prevBlock in kept
              && v == (if Accepts(params, old(blocks), block)
                       then JudgeAllowed(params, old(lastBlock), r, kept, block) else Invalid)
              && (v != Crashed ==>
                blocks == if v in {Invalid, Deferred, OldFork} then kept else kept[block.hash := block])
              && (v != Crashed ==>
                    wallet.allTx == if v == Invalid then old(wallet.allTx)
                    else TxAllowed(kept, old(lastBlock), block, v, old(WalletEnv()), old(wallet.transactions)))
      ensures v !in {Ignored, Orphaned}
      ensures v != Crashed ==>
                && saveCount == SaveCount(old(estimatedHeight), block, v)
                && orphans == (if v == Deferred then old(orphans)[block.prevBlock := block] else old(orphans))
                && lastOrphan == (if v == Deferred then Some(block) else old(lastOrphan))
                && lastBlock == (if BecomesLast(old(lastBlock), block, v) then block else old(lastBlock))
                && wallet.Valid() && wallet.allAddrs == old(wallet.allAddrs)
                && Wallet.SameMembers(wallet.transactions, old(wallet.transactions))
    {
      hide JudgeAllowed, Accepts, Ancestry, TxAllowed, Rooted, WaitingWell, NoneAbove, RootedParams, IndexedBy;
      hide Wallet.BRWallet.Valid, SaveCount, Pruned, StoredWell;
      ghost var s := TheState();
      WellIsLinked(th, blocks);
      SomeCheckpoint(th, params);
      var ok := VerifyBlock(block, prev);
      StoredAfter(th, params, s, block, Invalid);
      WellIsLinked(th, blocks);
      PrunedLinked(s.blocks, block);
      ParentSpared(s.blocks, block);
      AllowedIsPlaced(params, lastBlock, r, blocks, block);
      if ok {
        v, saveCount := Place(block, txTime, r);
      } else {
        v, saveCount := Invalid, 0;
        SavedNone(estimatedHeight, block);
      }
    }

    /** Decides what becomes of a relayed block and does it. */
    method Receive(r: Relay, block: Block, prev: Option<Block>, txTime: nat) returns (v: Verdict, saveCount: nat)
      requires Valid() && wallet.Valid() && Relayable(th, r.block)
      requires block == Placed(blocks, r.block) && prev == Get(block.prevBlock)
      requires prev.Some? ==> txTime == TxTime(block, prev.value)
      modifies this`blocks, this`orphans, this`lastBlock, this`lastOrphan, wallet
      ensures old(TheState()).Usable() && LinkedTo(old(blocks), block) && params.checkpoints != []
      ensures v == Judge(params, old(TheState()), r)
      ensures v != Crashed ==>
                && saveCount == SaveCount(old(estimatedHeight), block, v)
                && blocks == BlocksAfter(old(TheState()), block, v)
                && orphans == (if v == Orphaned || v == Deferred then old(orphans)[block.prevBlock := block]
                               else old(orphans))
                && lastOrphan == (if v == Orphaned || v == Deferred then Some(block) else old(lastOrphan))
                && lastBlock == (if BecomesLast(old(lastBlock), block, v) then block else old(lastBlock))
                && wallet.Valid() && wallet.allAddrs == old(wallet.allAddrs)
                && Wallet.SameMembers(wallet.transactions, old(wallet.transactions))
                && wallet.allTx == TxAfter(params, old(TheState()), r, old(WalletEnv()), old(wallet.transactions))
    {
      hide Judge, JudgeAllowed, Accepts, Ancestry, TxAllowed, Rooted, WaitingWell, NoneAbove, RootedParams, IndexedBy;
      hide Wallet.BRWallet.Valid, SaveCount, Pruned, StoredWell;
      ghost var s := TheState();
      WellIsLinked(th, blocks);
      PlacedWell(th, blocks, r.block);
      SomeCheckpoint(th, params);
      JudgeMeans(params, s, r);
      SavedNone(estimatedHeight, block);
      saveCount := 0;
      if block.totalTx == 0 && AWeekOn(block.timestamp) > TwoHoursOn(params.earliestKeyTime) {
        v := Ignored;
      } else if r.filterPending {
        v := Ignored;
      } else if prev.None? {
        if AWeekOn(block.timestamp) < r.now {
          v := Ignored;
        } else {
          v := Orphaned;
          orphans := orphans[block.prevBlock := block];
          lastOrphan := Some(block);
        }
      } else {
        v, saveCount := VerifyAndPlace(r, block, prev, txTime);
      }
    }

    /** Takes note of the height of a block that is not dropped, and takes out the orphan that waits for it. */
    method TakeNext(block: Block, v: Verdict) returns (next: Option<Block>)
      modifies this`orphans, this`estimatedHeight
      ensures next == NextOf(old(orphans), block, v)
      ensures orphans == if next.Some? then old(orphans) - {block.hash} else old(orphans)
      ensures estimatedHeight ==
                if v !in {Ignored, Invalid, OldFork} && block.height != UNKNOWN_HEIGHT
                   && block.height > old(estimatedHeight)
                then block.height else old(estimatedHeight)
    {
      next := None;
      if v != Ignored && v != Invalid && v != OldFork && block.height != UNKNOWN_HEIGHT {
        if block.height > estimatedHeight {
          estimatedHeight := block.height;
        }
        if block.hash in orphans {
          next := Some(orphans[block.hash]);
          orphans := orphans - {block.hash};
        }
      }
    }

    /** One relayed block: where it goes, what the wallet learns from it, which orphan is to be relayed next and
        which blocks are to be saved. */
    method RelayOne(r: Relay) returns (v: Verdict, next: Option<Block>, saved: seq<Block>)
      requires Valid() && wallet.Valid() && Relayable(th, r.block)
      modifies this`blocks, this`orphans, this`lastBlock, this`lastOrphan, this`estimatedHeight, wallet
      ensures Ready(old(TheState()), r)
      ensures v == Judge(params, old(TheState()), r)
      ensures v != Crashed ==> Valid() && TheState() == Settle(params, old(TheState()), r)
      ensures v != Crashed ==>
                && wallet.Valid() && wallet.allAddrs == old(wallet.allAddrs)
                && Wallet.SameMembers(wallet.transactions, old(wallet.transactions))
                && wallet.allTx == TxAfter(params, old(TheState()), r, old(WalletEnv()), old(wallet.transactions))
      ensures v != Crashed ==> NextIs(params, old(TheState()), r, next)
      ensures v != Crashed ==>
                Linked(blocks) && SavedIs(old(estimatedHeight), Placed(old(blocks), r.block), v, blocks, saved)
    {
      hide Judge, Ancestry, TxAfter, Rooted, WaitingWell, NoneAbove, RootedParams, IndexedBy, BlocksAfter;
      hide Wallet.BRWallet.Valid, Wallet.SameMembers, SaveCount, StoredWell, BecomesLast, Linked, LinkedTo;
      hide State.Usable;
      hide NextOf;
      ghost var s := TheState();
      RelayKeeps(th, params, s, r);
      IsReady(th, params, s, r);
      hide Ready;
      SomeCheckpoint(th, params);
      var prev, block, txTime := Get(r.block.prevBlock), r.block, 0;
      next, saved := None, [];
      if prev.Some? {
        txTime := block.timestamp / 2 + prev.value.timestamp / 2;
        block := block.(height := prev.value.height + 1);
      }
      var saveCount;
      v, saveCount := Receive(r, block, prev, txTime);
      if v == Crashed {
        return;
      }
      next := TakeNext(block, v);
      SavedNone(s.estimatedHeight, block);
      SettleIs(params, s, r, TheState());
      IsNext(params, s, r, next);
      hide Settle, ValidState, NextOf, NextIs;
      ValidIsWell(th, params, TheState());
      WellIsLinked(th, blocks);
      if saveCount > 0 {
        SavedStored(th, s.estimatedHeight, s, block, v, blocks);
        saved := BlocksToSave(block, saveCount);
      }
    }

    /** A relayed block and then, one after the other, all the orphans that were waiting for it, up to a crash if there
        is one. What happened without a crash is a run. */
    method RelayedBlock(r: Relay) returns (crashed: bool, ghost states: seq<State>, ghost relays: seq<Relay>)
      requires Valid() && wallet.Valid() && Relayable(th, r.block)
      modifies this`blocks, this`orphans, this`lastBlock, this`lastOrphan, this`estimatedHeight, wallet
      ensures Unfolds(params, old(TheState()), r, crashed, states, relays)
      ensures !crashed ==> Valid() && wallet.Valid()
      ensures !crashed ==> lastBlock.height >= old(lastBlock).height
      ensures !crashed ==> IsRun(params, states, relays) && relays != [] && relays[0] == r
      ensures !crashed ==> states[0] == old(TheState()) && states[|relays|] == TheState()
      ensures !crashed ==> forall i :: 0 <= i < |relays| ==> Relayable(th, relays[i].block)
      ensures !crashed ==>
                && wallet.allAddrs == old(wallet.allAddrs)
                && Wallet.SameMembers(wallet.transactions, old(wallet.transactions))
                && wallet.allTx == TxAfterRun(params, states, relays, old(WalletEnv()), old(wallet.transactions))
      decreases |Higher(th, orphans, th(r.block.hash))|
    {
      hide Judge, Settle, TxAfter, SavedIs, Rooted, WaitingWell, NoneAbove, RootedParams, IndexedBy, StoredWell, Higher;
      hide Wallet.BRWallet.Valid, Wallet.SameMembers, NextIs, Placed, Linked, ValidState, Unfolds;
      ghost var s := TheState();
      SomeCheckpoint(th, params);
      LastNotLower(th, params, s, r);
      ghost var env, order := WalletEnv(), wallet.transactions;
      var v, next, saved := RelayOne(r);
      if v == Crashed {
        UnfoldsCrash(params, s, r);
        return true, [s], [r];
      }
      states, relays := [s, TheState()], [r];
      assert IsStep(params, s, r, TheState());
      crashed := false;
      if next.None? {
        UnfoldsLast(params, s, r);
        TxAfterOne(params, s, r, TheState(), env, order);
      } else {
        NextIsHigher(th, params, s, r, next.value);
        ghost var midEnv, midOrder := WalletEnv(), wallet.transactions;
        ghost var later, more;
        crashed, later, more := RelayedBlock(r.(block := next.value));
        states, relays := [s] + later, [r] + more;
        UnfoldsOn(params, s, r, next.value, crashed, later, more);
        if !crashed {
          RunJoins(params, s, r, later, more);
          TxAfterJoins(params, s, r, later, more, env, order);
          TxAfterSameMembers(params, later, more, midEnv, order, midOrder);
          SameMembersThrough(wallet.transactions, midOrder, order);
        }
      }
    }

    /** The blocks to save: of the last saveCount ones, those from a transition block on. */
    method BlocksToSave(block: Block, saveCount: nat) returns (saved: seq<Block>)
      requires Linked(blocks) && LinkedTo(blocks, block)
      ensures var line := Ancestry(blocks, block);
              saved == line[..SaveLength(line, Min(saveCount, |line|))]
    {
      hide Ancestry, Linked, SaveLength;
      ghost var line := Ancestry(blocks, block);
      AncestryIs(blocks, block);
      SavePrefix(line, Min(saveCount, |line|));
      saved := [];
      var b := Some(block);
      while b.Some? && |saved| < saveCount
        invariant |saved| <= saveCount && |saved| <= |line| && saved == line[..|saved|]
        invariant b == if |saved| < |line| then Some(line[|saved|]) else None
        decreases saveCount - |saved|
      {
        assert |saved| + 1 < |line| ==> ParentIs(blocks, line[|saved|], line[|saved| + 1]);
        saved := saved + [b.value];
        b := Get(b.value.prevBlock);
      }
      var i := CutBack(saved);
      assert saved == line[..Min(saveCount, |line|)];
      saved := saved[..i];
    }

    /** Steps back from one place of a line to another, or to its end. */
    method StepBack(from: Block, step: nat, ghost line: seq<Block>, ghost place: nat) returns (block: Option<Block>)
      requires line != [] && IsAncestry(blocks, line[0], line) && place < |line| && line[place] == from
      ensures block == if place + step < |line| then Some(line[place + step]) else None
    {
      block := Some(from);
      var j := 0;
      while block.Some? && j < step
        invariant j <= step && block == if place + j < |line| then Some(line[place + j]) else None
        invariant block.None? ==> |line| <= place + step
      {
        assert place + j + 1 < |line| ==> ParentIs(blocks, line[place + j], line[place + j + 1]);
        block := Get(block.value.prevBlock);
        j := j + 1;
      }
    }

    /** The block locators, as many as there is room for; returns how many there are. */
    method BlockLocators(room: nat) returns (count: nat, locators: seq<Hash>)
      requires Linked(blocks) && LinkedTo(blocks, lastBlock) && params.checkpoints != []
      ensures var all := LocatorsFrom(Ancestry(blocks, lastBlock), 0) + [params.checkpoints[0].hash];
              count == |all| && locators == all[..Min(room, count)]
    {
      hide Ancestry, Linked, Offset, LocatorsFrom, IsAncestry;
      ghost var line, all := Ancestry(blocks, lastBlock), [];
      AncestryIs(blocks, lastBlock);
      FirstLocator(blocks, lastBlock, line);
      var block: Option<Block>, step, i := Some(lastBlock), 1, 0;
      ghost var place: nat := 0;
      locators := [];
      while block.Some? && block.value.height > 0
        invariant place == Offset(i) && block == if place < |line| then Some(line[place]) else None
        invariant step == if i < 10 then 1 else Words.Pow2(i - 9)
        invariant |all| == i && locators == all[..Min(room, i)]
        invariant LocatorsFrom(line, 0) == all + LocatorsFrom(line, i)
        decreases |line| - place
      {
        all := all + [block.value.hash];
        if i < room {
          locators := locators + [block.value.hash];
        }
        LocatorAt(line, i);
        i := i + 1;
        if i >= 10 {
          step := step * 2;
        }
        OffsetGrows(i - 1);
        block := StepBack(block.value, step, line, place);
        place := place + step;
      }
      NoLocator(line, i);
      if i < room {
        locators := locators + [params.checkpoints[0].hash];
      }
      count := i + 1;
    }

    /** How many of the blocks to keep, so that the last one is a transition block. */
    static method CutBack(saved: seq<Block>) returns (i: nat)
      requires Consecutive(saved)
      ensures i == SaveLength(saved, |saved|)
    {
      hide SaveLength;
      i := |saved|;
      var j := if i > 0 then saved[i - 1].height % INTERVAL else 0;
      TrimLength(saved, i);
      if j > 0 {
        i := i - if i > INTERVAL - j then INTERVAL - j else i;
      }
      assert i == 0 || saved[i - 1].height % INTERVAL == 0;
    }
  }

  /** The known transactions after a block has been relayed. */
  ghost function TxAfter(p: Params, s: State, r: Relay, env: Env, order: seq<Hash>): map<Hash, Tx>
    requires s.Usable() && p.checkpoints != [] && Judge(p, s, r) != Crashed
  {
    var b, v := Placed(s.blocks, r.block), Judge(p, s, r);
    if v in {Ignored, Orphaned, Invalid} then env.allTx
    else
      PrunedLinked(s.blocks, b);
      ParentSpared(s.blocks, b);
      TxAllowed(Pruned(s.blocks, b), s.lastBlock, b, v, env, order)
  }

  /** The known transactions after a run. */
  ghost function TxAfterRun(p: Params, states: seq<State>, relays: seq<Relay>, env: Env,
                            order: seq<Hash>): map<Hash, Tx>
    requires IsRun(p, states, relays)
    decreases |relays|
  {
    if relays == [] then env.allTx
    else
      assert IsStep(p, states[0], relays[0], states[1]);
      RunContinues(p, states, relays);
      TxAfterRun(p, states[1..], relays[1..], env.(allTx := TxAfter(p, states[0], relays[0], env, order)), order)
  }

  lemma RunContinues(p: Params, states: seq<State>, relays: seq<Relay>)
    requires IsRun(p, states, relays) && relays != []
    ensures IsRun(p, states[1..], relays[1..])
  {
    hide IsStep;
  }

  lemma TxAfterOne(p: Params, s: State, r: Relay, t: State, env: Env, order: seq<Hash>)
    requires p.checkpoints != [] && IsStep(p, s, r, t)
    ensures IsRun(p, [s, t], [r]) && TxAfterRun(p, [s, t], [r], env, order) == TxAfter(p, s, r, env, order)
  {
    assert [s, t][1..] == [t] && [r][1..] == [];
    hide TxAfter, Judge, Settle;
  }

  lemma TxAfterJoins(p: Params, s: State, r: Relay, states: seq<State>, relays: seq<Relay>, env: Env, order: seq<Hash>)
    requires IsRun(p, states, relays) && IsStep(p, s, r, states[0])
    ensures IsRun(p, [s] + states, [r] + relays)
    ensures TxAfterRun(p, [s] + states, [r] + relays, env, order) ==
            TxAfterRun(p, states, relays, env.(allTx := TxAfter(p, s, r, env, order)), order)
  {
    RunJoins(p, s, r, states, relays);
    assert ([s] + states)[1..] == states && ([r] + relays)[1..] == relays;
    hide TxAfter, Judge, Settle, IsRun;
  }

  /** Only which transactions are listed matters for what becomes of them. */
  lemma {:induction false} TxAfterSameMembers(p: Params, states: seq<State>, relays: seq<Relay>, env: Env, a: seq<Hash>,
                                              b: seq<Hash>)
    requires IsRun(p, states, relays) && Wallet.SameMembers(b, a)
    ensures TxAfterRun(p, states, relays, env, a) == TxAfterRun(p, states, relays, env, b)
    decreases |relays|
  {
    if relays != [] {
      assert IsStep(p, states[0], relays[0], states[1]);
      RunContinues(p, states, relays);
      OneAfterSameMembers(p, states[0], relays[0], env, a, b);
      hide TxAfter, Judge, Settle, IsRun, Wallet.SameMembers;
      TxAfterSameMembers(p, states[1..], relays[1..], env.(allTx := TxAfter(p, states[0], relays[0], env, a)), a, b);
    }
  }

  lemma SameMembersThrough(a: seq<Hash>, b: seq<Hash>, c: seq<Hash>)
    requires Wallet.SameMembers(a, b) && Wallet.SameMembers(b, c)
    ensures Wallet.SameMembers(a, c)
  {
  }

  lemma OneAfterSameMembers(p: Params, s: State, r: Relay, env: Env, a: seq<Hash>, b: seq<Hash>)
    requires s.Usable() && p.checkpoints != [] && Judge(p, s, r) != Crashed && Wallet.SameMembers(b, a)
    ensures TxAfter(p, s, r, env, a) == TxAfter(p, s, r, env, b)
  {
    forall height: nat ensures Wallet.RolledBack(env.allTx, a, height) == Wallet.RolledBack(env.allTx, b, height) {
    }
    hide Judge, Ancestry, JoinOf, Pruned, Linked, Matched, Replayed, Wallet.RolledBack;
  }

  lemma ValidIsWell(th: Heights, p: Params, s: State)
    requires ValidState(th, p, s)
    ensures StoredWell(th, s.blocks)
  {
  }

  /** A state is the one after a relay if each of its parts is. */
  lemma SettleIs(p: Params, s: State, r: Relay, t: State)
    requires Ready(s, r) && p.checkpoints != []
    requires var b, v := Placed(s.blocks, r.block), Judge(p, s, r);
             var orphans := if v == Orphaned || v == Deferred then s.orphans[b.prevBlock := b] else s.orphans;
             && t.blocks == BlocksAfter(s, b, v)
             && t.lastOrphan == (if v == Orphaned || v == Deferred then Some(b) else s.lastOrphan)
             && t.lastBlock == (if BecomesLast(s.lastBlock, b, v) then b else s.lastBlock)
             && t.orphans == (if NextOf(orphans, b, v).Some? then orphans - {b.hash} else orphans)
             && t.estimatedHeight ==
                  if v !in {Ignored, Invalid, OldFork} && b.height != UNKNOWN_HEIGHT && b.height > s.estimatedHeight
                  then b.height else s.estimatedHeight
    ensures t == Settle(p, s, r)
  {
    hide Judge, BlocksAfter, BecomesLast, NextOf, Linked;
  }

  lemma IsNext(p: Params, s: State, r: Relay, next: Option<Block>)
    requires Ready(s, r) && p.checkpoints != []
    requires var b, v := Placed(s.blocks, r.block), Judge(p, s, r);
             next == NextOf(if v == Orphaned || v == Deferred then s.orphans[b.prevBlock := b] else s.orphans, b, v)
    ensures NextIs(p, s, r, next)
  {
    hide Judge, NextOf, Linked;
  }

  predicate Ready(s: State, r: Relay) {
    s.Usable() && LinkedTo(s.blocks, Placed(s.blocks, r.block))
  }

  lemma IsReady(th: Heights, p: Params, s: State, r: Relay)
    requires ValidState(th, p, s) && Relayable(th, r.block)
    ensures Ready(s, r)
  {
    hide NoneAbove, WaitingWell;
    WellIsLinked(th, s.blocks);
    PlacedWell(th, s.blocks, r.block);
  }

  ghost predicate NextIs(p: Params, s: State, r: Relay, next: Option<Block>)
    requires s.Usable() && p.checkpoints != []
  {
    var b, v := Placed(s.blocks, r.block), Judge(p, s, r);
    next == NextOf(if v == Orphaned || v == Deferred then s.orphans[b.prevBlock := b] else s.orphans, b, v)
  }

  /** What relaying a block goes through: the states before each block relayed, and the last one. Each block is the
      orphan that waited for the one before; it ends with the first that nothing waits for, or with a crash. */
  ghost predicate Unfolds(p: Params, s: State, r: Relay, crashed: bool, states: seq<State>, relays: seq<Relay>)
    decreases |relays|
  {
    && p.checkpoints != [] && s.Usable() && relays != [] && relays[0] == r && states != [] && states[0] == s
    && if Judge(p, s, r) == Crashed then crashed && |relays| == |states| == 1
       else if NextIs(p, s, r, None) then !crashed && relays == [r] && states == [s, Settle(p, s, r)]
       else
         exists next :: NextIs(p, s, r, Some(next)) &&
                        Unfolds(p, Settle(p, s, r), r.(block := next), crashed, states[1..], relays[1..])
  }

  /** Relaying ends only when nothing waits for the block relayed last, if that one is stored. */
  lemma {:induction false} NoneLeftWaiting(th: Heights, p: Params, s: State, r: Relay, states: seq<State>,
                                           relays: seq<Relay>)
    requires Unfolds(p, s, r, false, states, relays) && ValidState(th, p, s) && RootedParams(th, p)
    requires Relayable(th, r.block) && th(r.block.hash) < UNKNOWN_HEIGHT
    ensures |states| == |relays| + 1 && relays != []
    ensures var t, h := states[|relays|], relays[|relays| - 1].block.hash;
            h in t.blocks && h !in states[|relays| - 1].blocks ==> h !in t.orphans
    decreases |relays|
  {
    hide Judge, Settle, Relayable, ValidState, RootedParams;
    if NextIs(p, s, r, None) {
      LastTaken(th, p, s, r);
    } else {
      var next :| NextIs(p, s, r, Some(next))
                  && Unfolds(p, Settle(p, s, r), r.(block := next), false, states[1..], relays[1..]);
      RelayKeeps(th, p, s, r);
      NextIsRelayable(th, p, s, r, next);
      NoneLeftWaiting(th, p, Settle(p, s, r), r.(block := next), states[1..], relays[1..]);
    }
  }

  lemma NextIsRelayable(th: Heights, p: Params, s: State, r: Relay, next: Block)
    requires ValidState(th, p, s) && Relayable(th, r.block) && s.Usable() && p.checkpoints != []
    requires NextIs(p, s, r, Some(next))
    ensures Relayable(th, next) && th(next.hash) < UNKNOWN_HEIGHT
  {
    hide Judge, StoredWell, NoneAbove;
  }

  /** A block that is stored anew has its waiting orphan taken out. */
  lemma LastTaken(th: Heights, p: Params, s: State, r: Relay)
    requires ValidState(th, p, s) && RootedParams(th, p) && Relayable(th, r.block) && s.Usable()
    requires NextIs(p, s, r, None)
    ensures var t, h := Settle(p, s, r), r.block.hash; h in t.blocks && h !in s.blocks ==> h !in t.orphans
  {
    var b := Placed(s.blocks, r.block);
    PlacedWell(th, s.blocks, r.block);
    if LinkedTo(s.blocks, b) {
      PrunedPart(s.blocks, b);
    }
    JudgedHeight(th, p, s, r);
    hide Judge, Pruned, StoredWell, NoneAbove, WaitingWell, RootedParams, Linked;
  }

  lemma UnfoldsCrash(p: Params, s: State, r: Relay)
    requires p.checkpoints != [] && s.Usable() && Judge(p, s, r) == Crashed
    ensures Unfolds(p, s, r, true, [s], [r])
  {
    hide Judge, Settle, NextIs;
  }

  lemma UnfoldsLast(p: Params, s: State, r: Relay)
    requires p.checkpoints != [] && s.Usable() && Judge(p, s, r) != Crashed && NextIs(p, s, r, None)
    ensures Unfolds(p, s, r, false, [s, Settle(p, s, r)], [r])
  {
    hide Judge, Settle, NextIs;
  }

  lemma UnfoldsOn(p: Params, s: State, r: Relay, next: Block, crashed: bool, states: seq<State>, relays: seq<Relay>)
    requires p.checkpoints != [] && s.Usable() && Judge(p, s, r) != Crashed && NextIs(p, s, r, Some(next))
    requires Unfolds(p, Settle(p, s, r), r.(block := next), crashed, states, relays)
    ensures Unfolds(p, s, r, crashed, [s] + states, [r] + relays)
  {
    hide Judge, Settle, NextOf, Placed;
    assert ([s] + states)[1..] == states && ([r] + relays)[1..] == relays;
  }

  /** The saved blocks are the last ones of the chain of b, from a transition block on. */
  ghost predicate SavedIs(estimate: nat, b: Block, v: Verdict, blocks: map<Hash, Block>, saved: seq<Block>)
    requires Linked(blocks)
  {
    var n := SaveCount(estimate, b, v);
    if n == 0 then saved == []
    else
      && LinkedTo(blocks, b)
      && var line := Ancestry(blocks, b);
         saved == line[..SaveLength(line, Min(n, |line|))]
  }

  /** When the chain is complete, what is saved goes down to the second transition block below, if that is stored: a
      manager that loads it has the block that the next retargeting measures from. Before, a transition block is saved
      on its own, and nothing else. */
  lemma SavedServes(estimate: nat, b: Block, v: Verdict, blocks: map<Hash, Block>, saved: seq<Block>)
    requires Linked(blocks) && LinkedTo(blocks, b) && SavedIs(estimate, b, v, blocks, saved)
    ensures forall k: nat :: k < |saved| ==> Below(blocks, b, k, saved[k])
    ensures v in {Extended, Reorganised} && b.height == estimate ==>
              if |Ancestry(blocks, b)| > b.height % 2016 + 2016
              then |saved| == b.height % 2016 + 2017 && saved[|saved| - 1].height == b.height / 2016 * 2016 - 2016
              else saved == [] || saved[|saved| - 1].height % 2016 == 0
    ensures v in {Extended, Reorganised} && b.height != estimate ==>
              saved == if v == Extended && b.height % 2016 == 0 then [b] else []
    ensures v !in {Extended, Reorganised} ==> saved == []
  {
    AncestryIs(blocks, b);
    var line := Ancestry(blocks, b);
    var n := SaveCount(estimate, b, v);
    SavedBelow(estimate, b, v, blocks, saved);
    hide Ancestry, Linked, LinkedTo, Below, SaveLength;
    if 0 < n <= |line| {
      LastSaved(line, b, n);
    }
  }

  lemma LastSaved(line: seq<Block>, b: Block, n: nat)
    requires 0 < n <= |line| && line[n - 1].height == b.height + 1 - n
    ensures line[n - 1].height % INTERVAL == 0 ==> SaveLength(line, n) == n
    ensures n == b.height % INTERVAL + INTERVAL + 1 ==>
              line[n - 1].height == b.height / 2016 * 2016 - 2016 && line[n - 1].height % INTERVAL == 0
  {
  }

  lemma SavedBelow(estimate: nat, b: Block, v: Verdict, blocks: map<Hash, Block>, saved: seq<Block>)
    requires Linked(blocks) && LinkedTo(blocks, b) && SavedIs(estimate, b, v, blocks, saved)
    ensures forall k: nat :: k < |saved| ==> Below(blocks, b, k, saved[k])
  {
    hide Ancestry, Linked, Below, SaveLength;
    forall k: nat | k < |saved| ensures Below(blocks, b, k, saved[k]) {
      BelowIs(blocks, b, k, saved[k]);
    }
  }

  lemma SavedNone(estimate: nat, b: Block)
    ensures forall v :: v !in {Extended, Reorganised} ==> SaveCount(estimate, b, v) == 0
  {
  }

  lemma SavedStored(th: Heights, estimate: nat, s: State, b: Block, v: Verdict, blocks: map<Hash, Block>)
    requires s.Usable() && LinkedTo(s.blocks, b) && SaveCount(estimate, b, v) > 0
    requires blocks == BlocksAfter(s, b, v) && StoredWell(th, blocks)
    ensures Linked(blocks) && LinkedTo(blocks, b)
  {
    hide Rooted, Pruned;
    WellIsLinked(th, blocks);
    assert b.hash in blocks && blocks[b.hash] == b;
  }

  lemma AllowedIsPlaced(p: Params, tip: Block, r: Relay, kept: map<Hash, Block>, b: Block)
    requires Linked(kept) && LinkedTo(kept, b) && LinkedTo(kept, tip) && p.checkpoints != []
    ensures JudgeAllowed(p, tip, r, kept, b) !in {Ignored, Orphaned, Invalid}
    ensures JudgeAllowed(p, tip, r, kept, b) == Reorganised ==>
              b.height > tip.height && !JoinOf(Ancestry(kept, b), Ancestry(kept, tip)).NewFallsShort?
  {
    hide Bottom, JoinOf;
  }

  /** The verdict by the order of the tests. */
  lemma JudgeMeans(p: Params, s: State, r: Relay)
    requires s.Usable() && p.checkpoints != []
    ensures var b, v := Placed(s.blocks, r.block), Judge(p, s, r);
            if (b.totalTx == 0 && AWeekOn(b.timestamp) > TwoHoursOn(p.earliestKeyTime)) || r.filterPending
              then v == Ignored
            else if b.prevBlock !in s.blocks then v == if AWeekOn(b.timestamp) < r.now then Ignored else Orphaned
            else if !Accepts(p, s.blocks, b) then v == Invalid
            else
              && Linked(Pruned(s.blocks, b)) && LinkedTo(Pruned(s.blocks, b), b)
              && v == JudgeAllowed(p, s.lastBlock, r, Pruned(s.blocks, b), b)
  {
    hide Accepts, JudgeAllowed, Pruned;
    var b := Placed(s.blocks, r.block);
    PrunedLinked(s.blocks, b);
  }

  /** The orphans above a height. */
  ghost function Higher(th: Heights, orphans: map<Hash, Block>, height: nat): set<Hash> {
    set q | q in orphans && th(orphans[q].hash) > height
  }

  lemma LastNotLower(th: Heights, p: Params, s: State, r: Relay)
    requires RootedParams(th, p) && ValidState(th, p, s) && Relayable(th, r.block)
    ensures s.Usable() && (Judge(p, s, r) != Crashed ==> Settle(p, s, r).lastBlock.height >= s.lastBlock.height)
  {
    hide Judge, Settle;
    RelayKeeps(th, p, s, r);
  }

  /** The orphan relayed next is one above the block, and fewer orphans are above it. */
  lemma NextIsHigher(th: Heights, p: Params, s: State, r: Relay, next: Block)
    requires RootedParams(th, p) && ValidState(th, p, s) && Relayable(th, r.block) && s.Usable()
    requires Judge(p, s, r) != Crashed && NextIs(p, s, r, Some(next))
    ensures Relayable(th, next)
    ensures |Higher(th, Settle(p, s, r).orphans, th(next.hash))| < |Higher(th, s.orphans, th(r.block.hash))|
  {
    hide Judge, BlocksAfter, BecomesLast, Linked, StoredWell, NoneAbove;
    var b, v := Placed(s.blocks, r.block), Judge(p, s, r);
    PlacedWell(th, s.blocks, r.block);
    var orphans := if v == Orphaned || v == Deferred then s.orphans[b.prevBlock := b] else s.orphans;
    WaitingAfter(th, s.orphans, b, v);
    WaitingAfter(th, orphans, b, v);
    HigherFewer(th, s.orphans, orphans, b, next);
  }

  lemma HigherFewer(th: Heights, was: map<Hash, Block>, orphans: map<Hash, Block>, b: Block, next: Block)
    requires WaitingWell(th, orphans) && b.hash in orphans && orphans[b.hash] == next && b.hash != ZERO
    requires orphans == was || (orphans == was[b.prevBlock := b] && b.prevBlock != b.hash)
    ensures |Higher(th, orphans - {b.hash}, th(next.hash))| < |Higher(th, was, th(b.hash))|
  {
    var more, less := Higher(th, was, th(b.hash)), Higher(th, orphans - {b.hash}, th(next.hash));
    assert th(next.hash) == th(b.hash) + 1;
    assert b.hash in more;
    assert less <= more - {b.hash};
    Fewer(less, more - {b.hash});
  }

  lemma Fewer(a: set<Hash>, b: set<Hash>)
    requires a <= b
    ensures |a| <= |b|
  {
    assert b == a + (b - a);
  }

  lemma RunJoins(p: Params, s: State, r: Relay, states: seq<State>, relays: seq<Relay>)
    requires IsRun(p, states, relays) && IsStep(p, s, r, states[0])
    ensures IsRun(p, [s] + states, [r] + relays)
  {
    hide IsStep;
  }

  /** The main chain's block at the height of a stored block is that block if and only if the main chain contains it. */
  lemma MainHas(th: Heights, blocks: map<Hash, Block>, tip: Block, block: Block, b: Block)
    requires StoredWell(th, blocks) && tip.hash in blocks && blocks[tip.hash] == tip
    requires Linked(blocks) && block.hash in blocks && block.height == th(block.hash)
    requires b in Ancestry(blocks, tip) && b.height == Min(block.height, tip.height)
    ensures b.hash == block.hash <==> OnMain(blocks, tip, block.hash)
    ensures b.hash == block.hash && block.height == tip.height <==> block.hash == tip.hash
  {
    hide Rooted, Ancestry;
    StoredAncestry(blocks, tip);
    var line := Ancestry(blocks, tip);
    var k: nat :| k < |line| && line[k] == b;
    if OnMain(blocks, tip, block.hash) {
      var i: nat :| i < |line| && line[i].hash == block.hash;
    }
  }

  lemma RecordedAlike(a: Env, b: Env, hashes: set<Hash>, height: nat, timestamp: nat)
    requires a.allTx == b.allTx && a.allAddrs == b.allAddrs
    ensures Wallet.Recorded(a, hashes, height, timestamp) == Wallet.Recorded(b, hashes, height, timestamp)
  {
    hide Wallet.Concerns;
  }

  lemma NoneMatched(env: Env, txHashes: seq<Hash>, height: nat, timestamp: nat)
    requires txHashes == []
    ensures Wallet.Recorded(env, Wallet.SetOf(txHashes), height, timestamp) == env.allTx
  {
    Wallet.RecordedNone(env, height, timestamp);
  }

  lemma JoinBelow(blocks: map<Hash, Block>, block: Block, last: Block)
    requires Linked(blocks) && block.hash in blocks && blocks[block.hash] == block
    requires last.hash in blocks && blocks[last.hash] == last && last.height < block.height
    ensures [block] <= Ancestry(blocks, block) && [last] <= Ancestry(blocks, last)
    ensures var line, join := Ancestry(blocks, block), JoinOf(Ancestry(blocks, block), Ancestry(blocks, last));
            && (join.Meets? ==>
              0 < block.height - join.at.height < |line| && line[block.height - join.at.height] == join.at)
            && (!join.NewFallsShort? ==> join.at.height < block.height)
  {
    hide Ancestry, JoinOf, InBoth;
    var line, main := Ancestry(blocks, block), Ancestry(blocks, last);
    StoredAncestry(blocks, block);
    StoredAncestry(blocks, last);
    JoinIsHighest(blocks, line, main);
    LineHeights(blocks, line);
    LineHeights(blocks, main);
    hide StoredLine;
    if JoinOf(line, main).Meets? {
      JoinPlace(line, main);
    }
  }

  lemma LineHeights(blocks: map<Hash, Block>, line: seq<Block>)
    requires StoredLine(blocks, line)
    ensures line != [] && forall k :: 0 <= k < |line| ==> line[k].height == line[0].height - k
  {
  }

  predicate Consecutive(line: seq<Block>) {
    forall k :: 0 <= k < |line| ==> line[k].height == line[0].height - k
  }

  /** How much of a line to save is seen from the part looked at. */
  lemma {:induction false} SavePrefix(line: seq<Block>, n: nat)
    requires n <= |line|
    ensures SaveLength(line[..n], n) == SaveLength(line, n)
  {
    SaveLengthIs(line, line[..n], n);
  }

  lemma {:induction false} SaveLengthIs(a: seq<Block>, b: seq<Block>, n: nat)
    requires n <= |a| && n <= |b| && a[..n] == b[..n]
    ensures SaveLength(a, n) == SaveLength(b, n)
  {
    if n > 0 {
      assert a[n - 1] == a[..n][n - 1] == b[n - 1];
      assert a[..n - 1] == a[..n][..n - 1] == b[..n - 1];
      SaveLengthIs(a, b, n - 1);
    }
  }

  lemma NextRem(m: nat)
    requires m % INTERVAL != 0
    ensures (m + 1) % INTERVAL == if m % INTERVAL == INTERVAL - 1 then 0 else m % INTERVAL + 1
  {
  }

  /** Cutting a line of consecutive heights back to its last transition block in one go. */
  lemma {:induction false} TrimLength(line: seq<Block>, i: nat)
    requires i <= |line| && Consecutive(line)
    ensures var j := if i > 0 then line[i - 1].height % INTERVAL else 0;
            SaveLength(line, i) == if j == 0 then i else if i > INTERVAL - j then i - (INTERVAL - j) else 0
  {
    if i > 1 && line[i - 1].height % INTERVAL != 0 {
      TrimLength(line, i - 1);
      NextRem(line[i - 1].height);
      assert line[i - 2].height == line[i - 1].height + 1;
    }
  }

  lemma NotPruned(blocks: map<Hash, Block>, b: Block)
    requires Linked(blocks) && LinkedTo(blocks, b) && b.height % INTERVAL != 0
    ensures Pruned(blocks, b) == blocks
  {
  }

  lemma NothingPruned(blocks: map<Hash, Block>, b: Block)
    requires Linked(blocks) && LinkedTo(blocks, b) && Transition(blocks, b).None?
    ensures Pruned(blocks, b) == blocks
  {
    hide Ancestry, Linked;
    assert forall h :: !Stale(Ancestry(blocks, b), h);
  }

  lemma ParentSpared(blocks: map<Hash, Block>, b: Block)
    requires Linked(blocks) && LinkedTo(blocks, b) && b.prevBlock in blocks
    ensures b.prevBlock in Pruned(blocks, b) && Pruned(blocks, b)[b.prevBlock] == blocks[b.prevBlock]
  {
    PrunedPart(blocks, b);
    hide Pruned;
    if b.prevBlock !in Pruned(blocks, b) {
      PrunedAreLow(blocks, b, b.prevBlock);
    }
  }

  /** The stored blocks when the line has been freed up to and including place k. */
  ghost function FreedTo(blocks: map<Hash, Block>, line: seq<Block>, k: nat): map<Hash, Block>
    requires k < |line|
  {
    map h | h in blocks && !Stale(line[..k + 1], h) :: blocks[h]
  }

  lemma NothingStale(blocks: map<Hash, Block>, line: seq<Block>)
    requires |line| > INTERVAL
    ensures FreedTo(blocks, line, INTERVAL) == blocks
  {
    var short := line[..INTERVAL + 1];
    assert forall h :: !Stale(short, h);
  }

  /** What freeing finds next: the block at the next place of the line, if there is one. */
  lemma NextToFree(blocks: map<Hash, Block>, block: Block, line: seq<Block>, k: nat)
    requires Linked(blocks) && IsAncestry(blocks, block, line) && INTERVAL <= k < |line|
    ensures var freed := FreedTo(blocks, line, k);
            if k + 1 < |line| then
              && line[k].prevBlock in freed && freed[line[k].prevBlock] == line[k + 1]
              && FreedTo(blocks, line, k + 1) ==
                 (if line[k + 1].height % INTERVAL != 0 then freed - {line[k + 1].hash} else freed)
            else line[k].prevBlock !in freed
  {
    if k + 1 < |line| {
      assert ParentIs(blocks, line[k], line[k + 1]);
      forall j | 0 < j < |line| ensures line[j].hash in blocks && blocks[line[j].hash] == line[j] {
        assert ParentIs(blocks, line[j - 1], line[j]);
      }
      assert !Stale(line[..k + 1], line[k + 1].hash);
      var more, less := line[..k + 2], line[..k + 1];
      forall h ensures Stale(more, h) <==>
                       Stale(less, h) || (line[k + 1].hash == h && line[k + 1].height % INTERVAL != 0) {
        StaleStep(line, k, h);
      }
      hide Stale;
    }
  }

  lemma StaleStep(line: seq<Block>, k: nat, h: Hash)
    requires INTERVAL <= k && k + 1 < |line|
    ensures Stale(line[..k + 2], h) <==>
            Stale(line[..k + 1], h) || (line[k + 1].hash == h && line[k + 1].height % INTERVAL != 0)
  {
    var more, less := line[..k + 2], line[..k + 1];
    if Stale(more, h) {
      var j :| INTERVAL < j < |more| && more[j].hash == h && more[j].height % INTERVAL != 0;
      assert j <= k ==> less[j] == more[j];
    }
    if Stale(less, h) {
      var j :| INTERVAL < j < |less| && less[j].hash == h && less[j].height % INTERVAL != 0;
      assert less[j] == more[j];
    }
    assert more[k + 1] == line[k + 1];
  }
}
