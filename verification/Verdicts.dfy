/** What one relayed block does to the state, told from its header and the stored blocks. */
module Verdicts {
  import opened Options
  import opened Transaction
  import opened Chain
  import Difficulty

  /** A mere header from later than a week before the keys, or any block while a filter update is pending. */
  predicate Unwanted(p: Params, r: Relay) {
    || r.filterPending
    || (r.block.totalTx == 0
        && (r.block.timestamp + 604800) % 0x1_0000_0000 > (p.earliestKeyTime + 7200) % 0x1_0000_0000)
  }

  /** By the rule, and where nothing is lost from the target. */
  predicate SoundTarget(target: nat, was: nat, elapsed: int) {
    && -0x8000_0000 < elapsed < 0x8000_0000
    && var timespan := if elapsed < 302400 then 302400 else if elapsed > 4838400 then 4838400 else elapsed;
       Difficulty.Lossless(was, timespan) && Difficulty.ByRule(target, was, timespan)
  }

  /** A block that the protocol allows: its parent is stored, and at a transition the block 2016 below; its target is
      the right one; no checkpoint at its height is another block. */
  ghost predicate Proper(p: Params, blocks: map<Hash, Block>, b: Block) {
    && b.prevBlock in blocks
    && (forall c :: c in p.checkpoints && c.height == b.height ==> c.hash == b.hash)
    && if b.height % 2016 != 0 then p.mainNet ==> b.target == blocks[b.prevBlock].target
       else exists a :: Below(blocks, b, 2016, a) && (p.mainNet ==>
                          && a.timestamp != 0
                          && SoundTarget(b.target, blocks[b.prevBlock].target,
                                         blocks[b.prevBlock].timestamp - a.timestamp))
  }

  lemma ProperIsAccepted(p: Params, blocks: map<Hash, Block>, b: Block)
    requires Linked(blocks) && LinkedTo(blocks, b) && Proper(p, blocks, b)
    ensures Accepts(p, blocks, b)
  {
    hide Below, Ancestry, Difficulty.NextTarget, SoundTarget, Linked;
    TransitionIs(blocks, b);
    if b.height % 2016 == 0 && p.mainNet {
      var parent := blocks[b.prevBlock];
      var a :| Below(blocks, b, 2016, a) && a.timestamp != 0
               && SoundTarget(b.target, parent.target, parent.timestamp - a.timestamp);
      SoundIsNext(b.target, HeaderOf(parent), a.timestamp);
    }
  }

  lemma SoundIsNext(target: nat, previous: Difficulty.Header, transitionTime: nat)
    requires previous.target < 0x1_0000_0000
    requires SoundTarget(target, previous.target, previous.timestamp - transitionTime)
    ensures target == Difficulty.NextTarget(previous, transitionTime)
  {
    hide Difficulty.NextTarget, Difficulty.Lossless, Difficulty.ByRule;
    var elapsed := previous.timestamp - transitionTime;
    var timespan := if elapsed < 302400 then 302400 else if elapsed > 4838400 then 4838400 else elapsed;
    Difficulty.NextTargetByRule(previous, transitionTime, target, timespan);
  }

  /** The block is stored and, as far as said, the last one. */
  predicate Stored(t: State, b: Block, last: Block) {
    b.hash in t.blocks && t.blocks[b.hash] == b && t.lastBlock == last
  }

  /** A proper block goes on top of the last one; or it takes the place of its stored copy; or it waits, while the
      peer's chain is higher, if it is more than one above the last block; or it is dropped, if it is not above the
      last checkpoint; or it is put on a fork, which becomes the main chain if it is higher. */
  ghost predicate Placing(p: Params, s: State, r: Relay, b: Block, t: State)
    requires p.checkpoints != []
  {
    var last := s.lastBlock;
    if b.prevBlock == last.hash then Stored(t, b, b)
    else if b.hash in s.blocks then Stored(t, b, if b.hash == last.hash then b else last)
    else if last.height < r.peerHeight && b.height > last.height + 1 then
      b.hash !in t.blocks && t.lastBlock == last && b.prevBlock in t.orphans && t.orphans[b.prevBlock] == b
    else if b.height <= p.checkpoints[|p.checkpoints| - 1].height then b.hash !in t.blocks && t.lastBlock == last
    else Stored(t, b, if b.height > last.height then b else last)
  }

  lemma ProperIsPlaced(th: Heights, p: Params, s: State, r: Relay)
    requires RootedParams(th, p) && ValidState(th, p, s) && Relayable(th, r.block) && s.Usable()
    requires !Unwanted(p, r) && Proper(p, s.blocks, Placed(s.blocks, r.block)) && Judge(p, s, r) != Crashed
    ensures Placing(p, s, r, Placed(s.blocks, r.block), Settle(p, s, r))
  {
    var b := Placed(s.blocks, r.block);
    PlacedWell(th, s.blocks, r.block);
    ProperIsAccepted(p, s.blocks, b);
    PrunedPart(s.blocks, b);
    CopyIsKept(th, s, b);
    NotItsOwnParent(th, b);
    hide Accepts, Proper, Pruned, Ancestry, JoinOf, Bottom, ValidState, RootedParams, Linked;
  }

  /** Pruning for a block does not free a stored copy of it. */
  lemma CopyIsKept(th: Heights, s: State, b: Block)
    requires StoredWell(th, s.blocks) && Linked(s.blocks) && LinkedTo(s.blocks, b) && b.prevBlock in s.blocks
    requires b.height == th(b.hash)
    ensures b.hash in s.blocks <==> b.hash in Pruned(s.blocks, b)
  {
    PrunedPart(s.blocks, b);
    if b.hash in s.blocks && b.hash !in Pruned(s.blocks, b) {
      PrunedAreLow(s.blocks, b, b.hash);
    }
  }

  lemma NotItsOwnParent(th: Heights, b: Block)
    requires Rooted(th, b)
    ensures b.prevBlock != b.hash
  {
  }

  /** A block that is unwanted, without a stored parent, or against the rules is not stored and moves nothing. Without a
      parent it waits, unless it is older than a week. */
  lemma OthersAreNot(p: Params, s: State, r: Relay)
    requires s.Usable() && p.checkpoints != []
    requires var b := Placed(s.blocks, r.block); Unwanted(p, r) || !Ruled(p, s, b) || b.prevBlock !in s.blocks
    requires Judge(p, s, r) != Crashed
    ensures var b, t := Placed(s.blocks, r.block), Settle(p, s, r);
            && t.lastBlock == s.lastBlock && (forall h :: h in t.blocks ==> h in s.blocks && t.blocks[h] == s.blocks[h])
            && (Unwanted(p, r) ==> t == s)
            && (!Unwanted(p, r) && b.prevBlock !in s.blocks ==>
                  && t.blocks == s.blocks
                  && if (b.timestamp + 604800) % 0x1_0000_0000 < r.now then t == s
                     else b.prevBlock == b.hash || (b.prevBlock in t.orphans && t.orphans[b.prevBlock] == b))
  {
    var b := Placed(s.blocks, r.block);
    PrunedPart(s.blocks, b);
    hide Accepts, Pruned, Ancestry, JoinOf, Bottom, Linked, Ruled;
    if Judge(p, s, r) in {Extended, Known, Forked, Reorganised} {
      StoredIsRuled(p, s, r);
    }
  }

  /** What relaying a block frees: the ancestors more than 2016 below a wanted block at a height that 2016 divides,
      but none at such a height. */
  lemma FreedExactly(p: Params, s: State, r: Relay, h: Hash)
    requires s.Usable() && p.checkpoints != [] && h in s.blocks && h != r.block.hash
    ensures var b := Placed(s.blocks, r.block);
            h !in Settle(p, s, r).blocks <==>
              !Unwanted(p, r) && b.prevBlock in s.blocks && b.height % 2016 == 0 && Far(s.blocks, b, h)
  {
    var b := Placed(s.blocks, r.block);
    PrunedIff(s.blocks, b, h);
    PrunedPart(s.blocks, b);
    hide Accepts, Pruned, JudgeAllowed, Linked, Far;
  }

  lemma PrunedIff(blocks: map<Hash, Block>, b: Block, h: Hash)
    requires Linked(blocks) && LinkedTo(blocks, b) && h in blocks
    ensures h !in Pruned(blocks, b) <==> b.height % 2016 == 0 && Far(blocks, b, h)
  {
    FarIsStale(blocks, b, h);
    hide Ancestry, Linked, Far, Stale;
  }

  ghost predicate Far(blocks: map<Hash, Block>, b: Block, h: Hash) {
    exists n: nat, a :: n > 2016 && Below(blocks, b, n, a) && a.hash == h && a.height % 2016 != 0
  }

  lemma FarIsStale(blocks: map<Hash, Block>, b: Block, h: Hash)
    requires Linked(blocks) && LinkedTo(blocks, b)
    ensures Far(blocks, b, h) <==> Stale(Ancestry(blocks, b), h)
  {
    hide Below, Ancestry, Linked;
    var line := Ancestry(blocks, b);
    if Far(blocks, b, h) {
      var n: nat, a :| n > 2016 && Below(blocks, b, n, a) && a.hash == h && a.height % 2016 != 0;
      BelowIs(blocks, b, n, a);
    }
    if Stale(line, h) {
      var k :| INTERVAL < k < |line| && line[k].hash == h && line[k].height % INTERVAL != 0;
      BelowIs(blocks, b, k, line[k]);
    }
  }
}
