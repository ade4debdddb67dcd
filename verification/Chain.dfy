/** The stored blocks, and what relaying one more block does to them. */
module Chain {
  import opened Options
  import opened Transaction
  import Difficulty

  type Word = n: nat | n < 0x1_0000_0000

  const ZERO: Hash := 0
  const UNKNOWN_HEIGHT: nat := 0x7fff_ffff
  const INTERVAL: nat := Difficulty.BLOCK_DIFFICULTY_INTERVAL
  const WEEK: nat := 7 * 24 * 60 * 60

  /** A time a week later, in a word of 32 bits. */
  function AWeekOn(time: nat): nat {
    (time + WEEK) % 0x1_0000_0000
  }

  function TwoHoursOn(time: nat): nat {
    (time + 2 * 60 * 60) % 0x1_0000_0000
  }

  /** A block as kept by the peer manager, with the matched transactions its partial Merkle tree shows. */
  datatype Block = Block(hash: Hash, prevBlock: Hash, height: nat, timestamp: nat, target: Word, totalTx: nat,
                         txHashes: seq<Hash>)

  predicate LinkedTo(blocks: map<Hash, Block>, b: Block) {
    b.prevBlock in blocks ==> b.height == blocks[b.prevBlock].height + 1
  }

  /** Every stored block is one above its parent, if that is stored. */
  predicate Linked(blocks: map<Hash, Block>) {
    forall h :: h in blocks ==> blocks[h].hash == h && LinkedTo(blocks, blocks[h])
  }

  /** A block and its stored ancestors, the block first. */
  function Ancestry(blocks: map<Hash, Block>, b: Block): seq<Block>
    requires Linked(blocks) && LinkedTo(blocks, b)
    decreases b.height
  {
    [b] + if b.prevBlock in blocks then Ancestry(blocks, blocks[b.prevBlock]) else []
  }

  predicate ParentIs(blocks: map<Hash, Block>, b: Block, parent: Block) {
    b.prevBlock in blocks && blocks[b.prevBlock] == parent
  }

  predicate IsAncestry(blocks: map<Hash, Block>, b: Block, line: seq<Block>) {
    && line != [] && line[0] == b && line[|line| - 1].prevBlock !in blocks
    && (forall k :: 0 <= k < |line| ==> line[k].height == b.height - k)
    && forall k :: 0 <= k < |line| - 1 ==> ParentIs(blocks, line[k], line[k + 1])
  }

  lemma {:induction false} AncestryIs(blocks: map<Hash, Block>, b: Block)
    requires Linked(blocks) && LinkedTo(blocks, b)
    ensures IsAncestry(blocks, b, Ancestry(blocks, b))
    ensures forall k :: 0 < k < |Ancestry(blocks, b)| ==> Ancestry(blocks, b)[k].hash in blocks
    decreases b.height
  {
    if b.prevBlock in blocks {
      AncestryIs(blocks, blocks[b.prevBlock]);
      var rest := Ancestry(blocks, blocks[b.prevBlock]);
      assert Ancestry(blocks, b) == [b] + rest;
    } else {
      assert Ancestry(blocks, b) == [b];
    }
  }

  lemma {:induction false} AncestryIsUnique(blocks: map<Hash, Block>, b: Block, line: seq<Block>)
    requires Linked(blocks) && LinkedTo(blocks, b) && IsAncestry(blocks, b, line)
    ensures line == Ancestry(blocks, b)
    decreases b.height
  {
    if |line| > 1 {
      assert ParentIs(blocks, line[0], line[1]);
      assert IsAncestry(blocks, line[1], line[1..]);
      AncestryIsUnique(blocks, line[1], line[1..]);
    }
  }

  ///////////////////////////////// Difficulty and pruning /////////////////////////////////

  /** The block one interval before, where the last difficulty transition was. */
  function Transition(blocks: map<Hash, Block>, b: Block): Option<Block>
    requires Linked(blocks) && LinkedTo(blocks, b)
  {
    var line := Ancestry(blocks, b);
    if |line| > INTERVAL then Some(line[INTERVAL]) else None
  }

  predicate Stale(line: seq<Block>, h: Hash) {
    exists k :: INTERVAL < k < |line| && line[k].hash == h && line[k].height % INTERVAL != 0
  }

  /** The blocks kept once a transition block has been looked at: the ancestors more than an interval back go,
      except transition blocks. */
  ghost function Pruned(blocks: map<Hash, Block>, b: Block): map<Hash, Block>
    requires Linked(blocks) && LinkedTo(blocks, b)
  {
    if b.height % INTERVAL != 0 then blocks
    else map h | h in blocks && !Stale(Ancestry(blocks, b), h) :: blocks[h]
  }

  function HeaderOf(b: Block): Difficulty.Header {
    Difficulty.Header(b.hash, b.prevBlock, b.height, b.timestamp, b.target)
  }

  /** Whether the target of b is the one its predecessors require. */
  predicate RightTarget(b: Block, previous: Block, transitionTime: nat) {
    if b.height % INTERVAL != 0 then b.target == previous.target
    else transitionTime != 0 && b.target == Difficulty.NextTarget(HeaderOf(previous), transitionTime)
  }

  datatype Params = Params(mainNet: bool, checkpoints: seq<Block>, earliestKeyTime: nat) {
    ghost predicate Differs(b: Block) {
      exists c :: c in checkpoints && c.height == b.height && c.hash != b.hash
    }
  }

  ghost predicate Accepts(p: Params, blocks: map<Hash, Block>, b: Block)
    requires Linked(blocks) && LinkedTo(blocks, b) && b.prevBlock in blocks
  {
    && (b.height % INTERVAL == 0 ==> Transition(blocks, b).Some?)
    && (p.mainNet ==> RightTarget(b, blocks[b.prevBlock],
                                  if b.height % INTERVAL == 0 then Transition(blocks, b).value.timestamp else 0))
    && !p.Differs(b)
  }

  ///////////////////////////////// The rules of the protocol /////////////////////////////////

  /** Block a is n stored steps below b. */
  ghost predicate Below(blocks: map<Hash, Block>, b: Block, n: nat, a: Block)
    decreases n
  {
    if n == 0 then a == b else b.prevBlock in blocks && Below(blocks, blocks[b.prevBlock], n - 1, a)
  }

  /** The target is that of the parent, or, at every height that 2016 divides, the one retargeted after the time
      since the block 2016 below. */
  ghost predicate TargetFollows(blocks: map<Hash, Block>, b: Block) {
    && b.prevBlock in blocks
    && var parent := blocks[b.prevBlock];
       if b.height % 2016 != 0 then b.target == parent.target
       else exists a :: Below(blocks, b, 2016, a) && a.timestamp != 0
                        && Difficulty.Retargets(b.target, parent.target, parent.timestamp - a.timestamp)
  }

  /** What holds of every block that is stored: its parent and, at a transition, the block 2016 below are stored, on the
      main net it has the right target, no checkpoint of its height is another block, and it is not a mere header from
      later than a week before the keys. Off the main chain it is above every checkpoint. */
  ghost predicate Ruled(p: Params, s: State, b: Block) {
    && b.prevBlock in s.blocks && (b.height % 2016 == 0 ==> exists a :: Below(s.blocks, b, 2016, a))
    && (p.mainNet ==> TargetFollows(s.blocks, b))
    && (forall c :: c in p.checkpoints && c.height == b.height ==> c.hash == b.hash)
    && (b.totalTx == 0 ==> (b.timestamp + 604800) % 0x1_0000_0000 <= (p.earliestKeyTime + 7200) % 0x1_0000_0000)
    && (b.prevBlock == s.lastBlock.hash || b.hash in s.blocks
        || (p.checkpoints != [] && b.height > p.checkpoints[|p.checkpoints| - 1].height))
  }

  ///////////////////////////////// Where two chains join /////////////////////////////////

  /** Meets: both chains come to the same block. NewFallsShort: the new chain runs out of stored blocks first.
      OldFallsShort: the old one does, when the new one is at the given block. */
  datatype Join = Meets(at: Block) | NewFallsShort | OldFallsShort(at: Block)

  /** Comparing two lines at equal heights, from place j of the lower one. */
  function JoinFrom(line: seq<Block>, main: seq<Block>, lead: nat, j: nat): Join
    decreases |main| - j
  {
    if lead + j >= |line| then NewFallsShort
    else if j >= |main| then OldFallsShort(line[lead + j])
    else if line[lead + j].hash == main[j].hash then Meets(line[lead + j])
    else JoinFrom(line, main, lead, j + 1)
  }

  function JoinOf(line: seq<Block>, main: seq<Block>): Join
    requires line != [] && main != [] && line[0].height > main[0].height
  {
    JoinFrom(line, main, line[0].height - main[0].height, 0)
  }

  predicate InBoth(line: seq<Block>, main: seq<Block>, i: nat, j: nat) {
    i < |line| && j < |main| && line[i].hash == main[j].hash
  }

  predicate SameAt(line: seq<Block>, main: seq<Block>, lead: nat, i: nat) {
    InBoth(line, main, lead + i, i)
  }

  predicate NoneFrom(line: seq<Block>, main: seq<Block>, lead: nat, j: nat, k: nat) {
    forall i: nat :: j <= i < k ==> !SameAt(line, main, lead, i)
  }

  predicate FirstAt(line: seq<Block>, main: seq<Block>, lead: nat, j: nat, k: nat) {
    j <= k && SameAt(line, main, lead, k) && NoneFrom(line, main, lead, j, k)
  }

  lemma {:induction false} JoinFromIsFirst(line: seq<Block>, main: seq<Block>, lead: nat, j: nat)
    requires lead + j <= |line| && j <= |main|
    ensures var r := JoinFrom(line, main, lead, j);
            && (r.Meets? ==> exists k: nat :: FirstAt(line, main, lead, j, k) && r.at == line[lead + k])
            && (r.NewFallsShort? ==> |line| - lead <= |main| && NoneFrom(line, main, lead, j, |main|))
            && (r.OldFallsShort? ==> |main| < |line| - lead && NoneFrom(line, main, lead, j, |main|) &&
                                     r.at == line[lead + |main|])
    decreases |main| - j
  {
    if lead + j < |line| && j < |main| {
      if line[lead + j].hash == main[j].hash {
        assert FirstAt(line, main, lead, j, j);
      } else {
        JoinFromIsFirst(line, main, lead, j + 1);
        var r := JoinFrom(line, main, lead, j);
        if r.Meets? {
          var k: nat :| FirstAt(line, main, lead, j + 1, k) && r.at == line[lead + k];
          assert FirstAt(line, main, lead, j, k);
        }
      }
    }
  }

  /** b is a stored block from which the line of its stored ancestors starts. */
  predicate StoredLine(blocks: map<Hash, Block>, line: seq<Block>) {
    && line != [] && (forall k :: 0 <= k < |line| ==> line[k].hash in blocks && blocks[line[k].hash] == line[k])
    && forall k :: 0 <= k < |line| ==> line[k].height == line[0].height - k
  }

  lemma StoredAncestry(blocks: map<Hash, Block>, b: Block)
    requires Linked(blocks) && b.hash in blocks && blocks[b.hash] == b
    ensures StoredLine(blocks, Ancestry(blocks, b)) && Ancestry(blocks, b)[0] == b
  {
    hide Ancestry;
    AncestryIs(blocks, b);
    var line := Ancestry(blocks, b);
    forall k | 0 <= k < |line| ensures line[k].hash in blocks && blocks[line[k].hash] == line[k] {
      if k > 0 {
        assert ParentIs(blocks, line[k - 1], line[k]);
      }
    }
  }

  /** The walk back stops at the highest block the two chains share if they share one. Otherwise it stops where the
      chain whose stored part ends higher runs out. */
  lemma JoinIsHighest(blocks: map<Hash, Block>, line: seq<Block>, main: seq<Block>)
    requires StoredLine(blocks, line) && StoredLine(blocks, main) && line[0].height > main[0].height
    ensures var r := JoinOf(line, main);
            && (r.Meets? <==> exists i: nat, j: nat :: InBoth(line, main, i, j))
            && (r.Meets? ==> r.at in line && r.at in main)
            && (r.Meets? ==> forall i: nat, j: nat :: InBoth(line, main, i, j) ==> line[i].height <= r.at.height)
            && (r.NewFallsShort? ==> line[|line| - 1].height >= main[|main| - 1].height)
            && (r.OldFallsShort? ==> line[|line| - 1].height < main[|main| - 1].height == r.at.height + 1)
  {
    var lead := line[0].height - main[0].height;
    var r := JoinOf(line, main);
    forall i: nat, j: nat | InBoth(line, main, i, j) ensures i == lead + j && SameAt(line, main, lead, j) {
      assert line[i] == main[j];
    }
    if lead > |line| {
      assert line[|line| - 1].height >= main[0].height >= main[|main| - 1].height;
    } else {
      JoinFromIsFirst(line, main, lead, 0);
      if r.Meets? {
        var k: nat :| FirstAt(line, main, lead, 0, k) && r.at == line[lead + k];
        assert line[lead + k] == main[k];
        assert InBoth(line, main, lead + k, k);
      }
    }
  }

  /** The join is the block of the line as far down as its height says. */
  lemma JoinPlace(line: seq<Block>, main: seq<Block>)
    requires line != [] && main != [] && line[0].height > main[0].height
    requires forall k :: 0 <= k < |line| ==> line[k].height == line[0].height - k
    requires JoinOf(line, main).Meets?
    ensures var at := JoinOf(line, main).at;
            0 < line[0].height - at.height < |line| && line[line[0].height - at.height] == at
  {
    var lead := line[0].height - main[0].height;
    if lead <= |line| {
      JoinFromIsFirst(line, main, lead, 0);
    }
  }

  ///////////////////////////////// Relaying a block /////////////////////////////////

  datatype State = State(blocks: map<Hash, Block>, orphans: map<Hash, Block>, lastBlock: Block,
                         lastOrphan: Option<Block>, estimatedHeight: nat) {
    predicate Usable() {
      Linked(blocks) && lastBlock.hash in blocks && blocks[lastBlock.hash] == lastBlock
    }
  }

  /** A block relayed by a peer, the height of that peer's chain, the time, and whether a filter update is pending. */
  datatype Relay = Relay(block: Block, peerHeight: nat, now: nat, filterPending: bool)

  datatype Verdict = Ignored | Orphaned | Invalid | Extended | Known | Deferred | OldFork | Forked | Reorganised
                    | Crashed

  /** The block with its height, if its parent is stored. */
  function Placed(blocks: map<Hash, Block>, b: Block): Block {
    if b.prevBlock in blocks then b.(height := blocks[b.prevBlock].height + 1) else b
  }

  lemma PrunedLinked(blocks: map<Hash, Block>, b: Block)
    requires Linked(blocks) && LinkedTo(blocks, b)
    ensures Linked(Pruned(blocks, b)) && LinkedTo(Pruned(blocks, b), b)
  {
    hide Stale, Ancestry;
  }

  /** The lowest height the stored chain of b goes down to. */
  function Bottom(blocks: map<Hash, Block>, b: Block): nat
    requires Linked(blocks) && LinkedTo(blocks, b)
    decreases b.height
  {
    if b.prevBlock in blocks then Bottom(blocks, blocks[b.prevBlock]) else b.height
  }

  /** What becomes of a relayed block that its predecessors allow. */
  ghost function JudgeAllowed(p: Params, tip: Block, r: Relay, kept: map<Hash, Block>, b: Block): Verdict
    requires Linked(kept) && LinkedTo(kept, b) && LinkedTo(kept, tip) && p.checkpoints != []
  {
    if b.prevBlock == tip.hash then Extended
    else if b.hash in kept then if Bottom(kept, tip) <= b.height then Known else Crashed
    else if tip.height < r.peerHeight && b.height > tip.height + 1 then Deferred
    else if b.height <= p.checkpoints[|p.checkpoints| - 1].height then OldFork
    else if b.height <= tip.height then Forked
    else if JoinOf(Ancestry(kept, b), Ancestry(kept, tip)).NewFallsShort? then Crashed
    else Reorganised
  }

  /** What becomes of a relayed block. */
  ghost function Judge(p: Params, s: State, r: Relay): Verdict
    requires s.Usable() && p.checkpoints != []
  {
    var b := Placed(s.blocks, r.block);
    if (b.totalTx == 0 && AWeekOn(b.timestamp) > TwoHoursOn(p.earliestKeyTime)) || r.filterPending then Ignored
    else if b.prevBlock !in s.blocks then if AWeekOn(b.timestamp) < r.now then Ignored else Orphaned
    else if !Accepts(p, s.blocks, b) then Invalid
    else
      PrunedLinked(s.blocks, b);
      JudgeAllowed(p, s.lastBlock, r, Pruned(s.blocks, b), b)
  }

  /** The stored blocks afterwards: pruned if the block got as far as being verified, with the block if it was added. */
  ghost function BlocksAfter(s: State, b: Block, v: Verdict): map<Hash, Block>
    requires s.Usable() && LinkedTo(s.blocks, b)
  {
    match v
    case Ignored | Orphaned => s.blocks
    case Extended | Known | Forked | Reorganised => Pruned(s.blocks, b)[b.hash := b]
    case Invalid | Deferred | OldFork | Crashed => Pruned(s.blocks, b)
  }

  predicate BecomesLast(tip: Block, b: Block, v: Verdict) {
    v == Extended || v == Reorganised || (v == Known && b.hash == tip.hash)
  }

  /** The orphan next to be relayed, if the block is not dropped and its height is known. */
  function NextOf(orphans: map<Hash, Block>, b: Block, v: Verdict): Option<Block> {
    if v in {Ignored, Invalid, OldFork} || b.height == UNKNOWN_HEIGHT || b.hash !in orphans then None
    else Some(orphans[b.hash])
  }

  /** The state after relaying a block that does not crash the manager. */
  ghost function Settle(p: Params, s: State, r: Relay): State
    requires s.Usable() && p.checkpoints != []
  {
    var b, v := Placed(s.blocks, r.block), Judge(p, s, r);
    var waits := v == Orphaned || v == Deferred;
    var orphans := if waits then s.orphans[b.prevBlock := b] else s.orphans;
    var dropped := v in {Ignored, Invalid, OldFork};
    State(BlocksAfter(s, b, v),
          if NextOf(orphans, b, v).Some? then orphans - {b.hash} else orphans,
          if BecomesLast(s.lastBlock, b, v) then b else s.lastBlock,
          if waits then Some(b) else s.lastOrphan,
          if !dropped && b.height != UNKNOWN_HEIGHT && b.height > s.estimatedHeight then b.height
          else s.estimatedHeight)
  }

  ///////////////////////////////// What every run keeps /////////////////////////////////

  /** The height a block hash stands for, as given by the links between headers. */
  type Heights = Hash -> nat

  /** A block whose header is one above the header it links to. Checkpoints carry no link. */
  ghost predicate Rooted(th: Heights, b: Block) {
    b.hash != ZERO && th(b.hash) < UNKNOWN_HEIGHT && (b.prevBlock != ZERO ==> th(b.hash) == th(b.prevBlock) + 1)
  }

  ghost predicate RootedParams(th: Heights, p: Params) {
    && p.checkpoints != []
    && forall c :: c in p.checkpoints ==>
         Rooted(th, c) && c.prevBlock == ZERO && c.height == th(c.hash) && c.height % INTERVAL == 0
  }

  ghost predicate StoredWell(th: Heights, blocks: map<Hash, Block>) {
    && ZERO !in blocks
    && forall h :: h in blocks ==> blocks[h].hash == h && blocks[h].height == th(h) && Rooted(th, blocks[h])
  }

  ghost predicate WaitingWell(th: Heights, orphans: map<Hash, Block>) {
    forall q :: q in orphans ==> orphans[q].prevBlock == q && Relayable(th, orphans[q])
  }

  ghost predicate Relayable(th: Heights, b: Block) {
    Rooted(th, b) && (b.height == UNKNOWN_HEIGHT || b.height == th(b.hash))
  }

  predicate IsCheckpoint(p: Params, h: Hash) {
    exists c :: c in p.checkpoints && c.hash == h
  }

  /** Only checkpoints are stored above the last block. */
  predicate NoneAbove(p: Params, blocks: map<Hash, Block>, last: Block) {
    forall h :: h in blocks ==> blocks[h].height <= last.height || IsCheckpoint(p, h)
  }

  ghost predicate ValidState(th: Heights, p: Params, s: State) {
    && StoredWell(th, s.blocks) && WaitingWell(th, s.orphans)
    && s.lastBlock.hash in s.blocks && s.blocks[s.lastBlock.hash] == s.lastBlock
    && NoneAbove(p, s.blocks, s.lastBlock)
  }

  lemma WellIsLinked(th: Heights, blocks: map<Hash, Block>)
    requires StoredWell(th, blocks)
    ensures Linked(blocks)
  {
  }

  lemma PlacedWell(th: Heights, blocks: map<Hash, Block>, block: Block)
    requires StoredWell(th, blocks) && Relayable(th, block)
    ensures var b := Placed(blocks, block);
            Relayable(th, b) && LinkedTo(blocks, b) && (b.prevBlock in blocks ==> b.height == th(b.hash))
  {
  }

  lemma CheckpointHeight(th: Heights, p: Params, h: Hash)
    requires RootedParams(th, p) && IsCheckpoint(p, h)
    ensures th(h) % INTERVAL == 0
  {
  }

  /** Pruning removes only blocks more than an interval below the block, and no transition block. */
  lemma PrunedAreLow(blocks: map<Hash, Block>, b: Block, h: Hash)
    requires Linked(blocks) && LinkedTo(blocks, b) && h in blocks && h !in Pruned(blocks, b)
    ensures b.height % INTERVAL == 0 && blocks[h].height + INTERVAL < b.height && blocks[h].height % INTERVAL != 0
  {
    hide Ancestry;
    AncestryIs(blocks, b);
    var line := Ancestry(blocks, b);
    var k :| INTERVAL < k < |line| && line[k].hash == h && line[k].height % INTERVAL != 0;
    assert ParentIs(blocks, line[k - 1], line[k]);
  }

  /** Pruning never removes the last block. */
  lemma PruningKeepsLast(th: Heights, p: Params, s: State, b: Block)
    requires RootedParams(th, p) && ValidState(th, p, s)
    requires b.prevBlock in s.blocks && b.height == s.blocks[b.prevBlock].height + 1
    ensures Linked(s.blocks) && s.lastBlock.hash in Pruned(s.blocks, b)
  {
    hide Pruned;
    WellIsLinked(th, s.blocks);
    var parent := s.blocks[b.prevBlock];
    if s.lastBlock.hash !in Pruned(s.blocks, b) {
      PrunedAreLow(s.blocks, b, s.lastBlock.hash);
      assert IsCheckpoint(p, parent.hash);
      CheckpointHeight(th, p, parent.hash);
      assert false;
    }
  }

  lemma PrunedPart(blocks: map<Hash, Block>, b: Block)
    requires Linked(blocks) && LinkedTo(blocks, b)
    ensures forall h :: h in Pruned(blocks, b) ==> h in blocks && Pruned(blocks, b)[h] == blocks[h]
  {
    hide Stale;
  }

  /** What the verdict says of the height of the block. */
  lemma JudgedHeight(th: Heights, p: Params, s: State, r: Relay)
    requires RootedParams(th, p) && ValidState(th, p, s) && Relayable(th, r.block) && s.Usable()
    ensures HeightFits(s, Placed(s.blocks, r.block), Judge(p, s, r))
  {
    if r.block.prevBlock in s.blocks {
      PruningKeepsLast(th, p, s, Placed(s.blocks, r.block));
    }
    hide Pruned, ValidState, Accepts, Stale, Bottom, JoinOf, Ancestry;
  }

  predicate HeightFits(s: State, b: Block, v: Verdict) {
    && (v !in {Ignored, Orphaned} ==> b.prevBlock in s.blocks && b.height == s.blocks[b.prevBlock].height + 1)
    && (v == Extended ==> b.height == s.lastBlock.height + 1)
    && (v == Known ==> b.hash in s.blocks)
    && (v == Forked ==> b.height <= s.lastBlock.height && b.hash != s.lastBlock.hash)
    && (v == Reorganised ==> b.height > s.lastBlock.height)
  }

  lemma StoredAfter(th: Heights, p: Params, s: State, b: Block, v: Verdict)
    requires RootedParams(th, p) && ValidState(th, p, s) && s.Usable() && Relayable(th, b) && LinkedTo(s.blocks, b)
    requires HeightFits(s, b, v) && (b.prevBlock in s.blocks ==> b.height == th(b.hash))
    ensures var blocks, last := BlocksAfter(s, b, v), if BecomesLast(s.lastBlock, b, v) then b else s.lastBlock;
            && StoredWell(th, blocks) && last.hash in blocks && blocks[last.hash] == last
            && last.height >= s.lastBlock.height
            && NoneAbove(p, blocks, last)
            && forall h :: h in blocks && h !in s.blocks ==> h == b.hash && blocks[h] == b && b.height <= last.height
                                                             && v !in {Ignored, Orphaned}
  {
    hide IsCheckpoint, Pruned, Linked;
    if v !in {Ignored, Orphaned} {
      PrunedPart(s.blocks, b);
      PruningKeepsLast(th, p, s, b);
    }
  }

  lemma WaitingAfter(th: Heights, orphans: map<Hash, Block>, b: Block, v: Verdict)
    requires WaitingWell(th, orphans) && Relayable(th, b)
    ensures WaitingWell(th, orphans[b.prevBlock := b])
    ensures NextOf(orphans, b, v).Some? ==>
              WaitingWell(th, orphans - {b.hash}) && Relayable(th, NextOf(orphans, b, v).value)
  {
    hide Relayable;
  }

  /** Relaying a block keeps the state well-formed; the last block does not get lower; a block not stored before is
      one above a stored parent and not above the last block. */
  lemma RelayKeeps(th: Heights, p: Params, s: State, r: Relay)
    requires RootedParams(th, p) && ValidState(th, p, s) && Relayable(th, r.block)
    ensures s.Usable()
    ensures Judge(p, s, r) != Crashed ==> SafeStep(th, p, s, Settle(p, s, r))
  {
    hide Judge, BlocksAfter, Relayable, NoneAbove, WaitingWell, StoredWell;
    WellIsLinked(th, s.blocks);
    var b, v := Placed(s.blocks, r.block), Judge(p, s, r);
    PlacedWell(th, s.blocks, r.block);
    JudgedHeight(th, p, s, r);
    StoredAfter(th, p, s, b, v);
    WaitingAfter(th, s.orphans, b, v);
    WaitingAfter(th, s.orphans[b.prevBlock := b], b, v);
  }

  ghost predicate SafeStep(th: Heights, p: Params, s: State, t: State) {
    && ValidState(th, p, t) && t.lastBlock.height >= s.lastBlock.height
    && forall h :: h in t.blocks && h !in s.blocks ==>
         var b := t.blocks[h];
         && b.prevBlock in s.blocks && b.height == s.blocks[b.prevBlock].height + 1
         && b.height <= t.lastBlock.height
  }

  ///////////////////////////////// What is stored obeys the rules /////////////////////////////////

  /** The line of a block lists the blocks below it. */
  lemma {:induction false} BelowIs(blocks: map<Hash, Block>, b: Block, n: nat, a: Block)
    requires Linked(blocks) && LinkedTo(blocks, b)
    ensures Below(blocks, b, n, a) <==> n < |Ancestry(blocks, b)| && Ancestry(blocks, b)[n] == a
    decreases n
  {
    if b.prevBlock in blocks {
      var parent := blocks[b.prevBlock];
      assert Ancestry(blocks, b) == [b] + Ancestry(blocks, parent);
      if n > 0 {
        BelowIs(blocks, parent, n - 1, a);
      }
    } else {
      assert Ancestry(blocks, b) == [b];
    }
  }

  lemma TransitionIs(blocks: map<Hash, Block>, b: Block)
    requires Linked(blocks) && LinkedTo(blocks, b)
    ensures forall a :: Below(blocks, b, 2016, a) <==> Transition(blocks, b) == Some(a)
  {
    forall a ensures Below(blocks, b, 2016, a) <==> Transition(blocks, b) == Some(a) {
      BelowIs(blocks, b, 2016, a);
    }
  }

  /** What the test of a block's header says in terms of the protocol. */
  lemma AcceptsIs(p: Params, blocks: map<Hash, Block>, b: Block)
    requires Linked(blocks) && LinkedTo(blocks, b) && b.prevBlock in blocks && Accepts(p, blocks, b)
    ensures b.height % 2016 == 0 ==> exists a :: Below(blocks, b, 2016, a)
    ensures p.mainNet ==> TargetFollows(blocks, b)
    ensures forall c :: c in p.checkpoints && c.height == b.height ==> c.hash == b.hash
  {
    hide Below, Ancestry, Difficulty.NextTarget, Difficulty.Retargets, Linked;
    TransitionIs(blocks, b);
    if b.height % 2016 == 0 {
      var a, parent := Transition(blocks, b).value, blocks[b.prevBlock];
      assert Below(blocks, b, 2016, a);
      Difficulty.NextTargetRetargets(HeaderOf(parent), a.timestamp);
    }
  }

  lemma StoredIsRuled(p: Params, s: State, r: Relay)
    requires s.Usable() && p.checkpoints != [] && Judge(p, s, r) in {Extended, Known, Forked, Reorganised}
    ensures Ruled(p, s, Placed(s.blocks, r.block))
  {
    var b := Placed(s.blocks, r.block);
    PrunedPart(s.blocks, b);
    hide Accepts, TargetFollows, Below, Pruned, Ancestry, JoinOf, Bottom;
    AcceptsIs(p, s.blocks, b);
  }

  /** What a relay changes among the stored blocks obeys the rules. */
  lemma ChangedIsRuled(p: Params, s: State, r: Relay, h: Hash)
    requires s.Usable() && p.checkpoints != []
    requires var t := Settle(p, s, r); h in t.blocks && (h !in s.blocks || t.blocks[h] != s.blocks[h])
    ensures var b := Settle(p, s, r).blocks[h]; b.hash == h && Ruled(p, s, b)
  {
    var b := Placed(s.blocks, r.block);
    PrunedPart(s.blocks, b);
    hide Judge, Ruled, Pruned;
    if Judge(p, s, r) in {Extended, Known, Forked, Reorganised} {
      StoredIsRuled(p, s, r);
    }
  }

  /** The stored block obeyed the rules in one of the first n states. */
  ghost predicate RuledOnce(p: Params, states: seq<State>, n: nat, b: Block)
    requires n <= |states|
  {
    exists i: nat :: i < n && Ruled(p, states[i], b)
  }

  ghost predicate New(states: seq<State>, n: nat, h: Hash)
    requires 0 < |states| && n < |states|
  {
    h in states[n].blocks && (h !in states[0].blocks || states[n].blocks[h] != states[0].blocks[h])
  }

  lemma RuledLater(p: Params, states: seq<State>, n: nat, b: Block)
    requires n < |states| && RuledOnce(p, states, n, b)
    ensures RuledOnce(p, states, n + 1, b)
  {
    hide Ruled;
  }

  lemma NewIsRuled(p: Params, states: seq<State>, relays: seq<Relay>, n: nat, h: Hash)
    requires IsRun(p, states, relays) && 0 < n < |states| && New(states, n, h)
    requires New(states, n - 1, h) ==>
               states[n - 1].blocks[h].hash == h && RuledOnce(p, states, n - 1, states[n - 1].blocks[h])
    ensures states[n].blocks[h].hash == h && RuledOnce(p, states, n, states[n].blocks[h])
  {
    hide Ruled, Settle, Judge, RuledOnce;
    var s, r, t := states[n - 1], relays[n - 1], states[n];
    assert IsStep(p, s, r, t);
    if h !in s.blocks || t.blocks[h] != s.blocks[h] {
      ChangedIsRuled(p, s, r, h);
      RuledNow(p, states, n, t.blocks[h]);
    } else {
      RuledLater(p, states, n - 1, t.blocks[h]);
    }
  }

  lemma RuledNow(p: Params, states: seq<State>, n: nat, b: Block)
    requires 0 < n <= |states| && Ruled(p, states[n - 1], b)
    ensures RuledOnce(p, states, n, b)
  {
    hide Ruled;
  }

  ///////////////////////////////// Runs /////////////////////////////////

  /** A run of relayed blocks, none of which crashes the manager. */
  ghost predicate IsRun(p: Params, states: seq<State>, relays: seq<Relay>) {
    && |states| == |relays| + 1 && p.checkpoints != []
    && forall i :: 0 <= i < |relays| ==> IsStep(p, states[i], relays[i], states[i + 1])
  }

  ghost predicate IsStep(p: Params, s: State, r: Relay, t: State)
    requires p.checkpoints != []
  {
    s.Usable() && Judge(p, s, r) != Crashed && t == Settle(p, s, r)
  }

  /** Over every run the last block stays stored, its height never falls, and it is at least the height of every
      stored block that the run has added. Every stored block that the run has added or replaced obeyed the rules of the
      protocol when it came, and contradicts no checkpoint. The estimate never falls. */
  lemma {:induction false} EveryRunIsSafe(th: Heights, p: Params, states: seq<State>, relays: seq<Relay>, n: nat)
    requires RootedParams(th, p) && IsRun(p, states, relays) && ValidState(th, p, states[0])
    requires forall i :: 0 <= i < |relays| ==> Relayable(th, relays[i].block)
    requires n < |states|
    ensures ValidState(th, p, states[n])
    ensures forall i :: 0 <= i <= n ==> states[i].lastBlock.height <= states[n].lastBlock.height
    ensures forall h :: h in states[n].blocks && h !in states[0].blocks ==>
                          states[n].blocks[h].height <= states[n].lastBlock.height
    ensures forall h :: New(states, n, h) ==>
                          && RuledOnce(p, states, n, states[n].blocks[h])
                          && forall c :: c in p.checkpoints && c.height == states[n].blocks[h].height ==> c.hash == h
    ensures forall i :: 0 <= i <= n ==> states[i].estimatedHeight <= states[n].estimatedHeight
    decreases n
  {
    hide ValidState, Settle, Judge, RootedParams, Relayable, RuledOnce;
    if n > 0 {
      EveryRunIsSafe(th, p, states, relays, n - 1);
      assert IsStep(p, states[n - 1], relays[n - 1], states[n]);
      RelayKeeps(th, p, states[n - 1], relays[n - 1]);
      HeightStays(th, p, states[n - 1], states[n]);
      EstimateStays(p, states[n - 1], relays[n - 1]);
      forall h | New(states, n, h)
        ensures RuledOnce(p, states, n, states[n].blocks[h]) && states[n].blocks[h].hash == h
        ensures forall c :: c in p.checkpoints && c.height == states[n].blocks[h].height ==> c.hash == h
      {
        KnownHash(th, p, states[n - 1], h);
        NewIsRuled(p, states, relays, n, h);
        OnceObeys(p, states, n, states[n].blocks[h]);
      }
    }
  }

  lemma KnownHash(th: Heights, p: Params, s: State, h: Hash)
    requires ValidState(th, p, s)
    ensures h in s.blocks ==> s.blocks[h].hash == h
  {
  }

  lemma OnceObeys(p: Params, states: seq<State>, n: nat, b: Block)
    requires n <= |states| && RuledOnce(p, states, n, b)
    ensures forall c :: c in p.checkpoints && c.height == b.height ==> c.hash == b.hash
  {
    hide TargetFollows, Below;
  }

  lemma EstimateStays(p: Params, s: State, r: Relay)
    requires s.Usable() && p.checkpoints != []
    ensures s.estimatedHeight <= Settle(p, s, r).estimatedHeight
  {
    hide Judge, BlocksAfter;
  }

  lemma HeightStays(th: Heights, p: Params, s: State, t: State)
    requires ValidState(th, p, s) && ValidState(th, p, t)
    ensures forall h :: h in s.blocks && h in t.blocks ==> s.blocks[h].height == t.blocks[h].height
  {
    hide Rooted, NoneAbove, WaitingWell;
  }

  ///////////////////////////////// What pruning and adding leave alone /////////////////////////////////

  /** However far a walk goes without passing more than an interval below the pruning block, pruning does not
      change it. */
  lemma {:induction false} PruningSparesWalks(blocks: map<Hash, Block>, b: Block, c: Block, k: nat)
    requires Linked(blocks) && LinkedTo(blocks, b) && LinkedTo(blocks, c)
    requires k < |Ancestry(blocks, c)| && c.height + INTERVAL >= b.height + k
    ensures var kept := Pruned(blocks, b);
            && Linked(kept) && LinkedTo(kept, c)
            && k < |Ancestry(kept, c)| && Ancestry(kept, c)[k] == Ancestry(blocks, c)[k]
    decreases k
  {
    var kept := Pruned(blocks, b);
    PrunedLinked(blocks, b);
    PrunedPart(blocks, b);
    hide Pruned;
    if k > 0 {
      assert c.prevBlock in blocks;
      if c.prevBlock !in kept {
        PrunedAreLow(blocks, b, c.prevBlock);
      }
      PruningSparesWalks(blocks, b, blocks[c.prevBlock], k - 1);
    }
  }

  /** The block the difficulty of b, or of any block as high as b, is measured from survives the pruning for b. */
  lemma TransitionSpared(blocks: map<Hash, Block>, b: Block, c: Block)
    requires Linked(blocks) && LinkedTo(blocks, b) && LinkedTo(blocks, c) && c.height >= b.height
    requires Transition(blocks, c).Some?
    ensures var kept := Pruned(blocks, b);
            Linked(kept) && LinkedTo(kept, c) && Transition(kept, c) == Transition(blocks, c)
  {
    hide Pruned;
    PruningSparesWalks(blocks, b, c, INTERVAL);
  }

  /** What is left of a line when blocks are dropped: its start, up to the first that was dropped. */
  lemma {:induction false} KeptLine(blocks: map<Hash, Block>, kept: map<Hash, Block>, c: Block)
    requires Linked(blocks) && Linked(kept) && LinkedTo(blocks, c) && LinkedTo(kept, c)
    requires forall h :: h in kept ==> h in blocks && kept[h] == blocks[h]
    ensures var line, left := Ancestry(blocks, c), Ancestry(kept, c);
            && left <= line && left != [] && (forall k :: 0 < k < |left| ==> line[k].hash in kept)
            && (|left| < |line| ==> line[|left|].hash !in kept)
    decreases c.height
  {
    if c.prevBlock in kept {
      KeptLine(blocks, kept, blocks[c.prevBlock]);
      var line, left := Ancestry(blocks, blocks[c.prevBlock]), Ancestry(kept, blocks[c.prevBlock]);
      assert Ancestry(blocks, c) == [c] + line && Ancestry(kept, c) == [c] + left;
      forall k | 0 < k < |left| + 1 ensures ([c] + line)[k].hash in kept {
        if k == 1 {
          assert line[0] == blocks[c.prevBlock];
        } else {
          assert line[k - 1].hash in kept;
        }
      }
    } else {
      assert Ancestry(kept, c) == [c];
      if c.prevBlock in blocks {
        assert Ancestry(blocks, c)[1] == blocks[c.prevBlock];
      }
    }
  }

  /** The chain of c parted from that of b above the block that the difficulty of c is measured from and below c. */
  ghost predicate PartsWithin(blocks: map<Hash, Block>, c: Block, b: Block)
    requires Linked(blocks) && LinkedTo(blocks, b) && LinkedTo(blocks, c)
  {
    exists i: nat, j: nat :: 0 < i < INTERVAL && 0 < j && InBoth(Ancestry(blocks, c), Ancestry(blocks, b), i, j)
  }

  /** A lower transition block: the block its difficulty is measured from is found after the pruning for b if and only
      if its chain did not leave that of b in between. */
  lemma LowerSparedIff(blocks: map<Hash, Block>, b: Block, c: Block)
    requires Linked(blocks) && LinkedTo(blocks, b) && LinkedTo(blocks, c) && c.height < b.height
    requires b.height % INTERVAL == 0 && c.height % INTERVAL == 0 && Transition(blocks, c).Some?
    ensures var kept := Pruned(blocks, b);
            && Linked(kept) && LinkedTo(kept, c)
            && (Transition(kept, c) == Transition(blocks, c) <==> !PartsWithin(blocks, c, b))
            && (Transition(kept, c) != Transition(blocks, c) <==> Transition(kept, c).None?)
  {
    var kept := Pruned(blocks, b);
    PrunedLinked(blocks, b);
    PrunedPart(blocks, b);
    KeptLine(blocks, kept, c);
    FreedNever(blocks, b, c);
    hide Ancestry, Pruned, Linked, LinkedTo;
    var line, left := Ancestry(blocks, c), Ancestry(kept, c);
    if |left| <= INTERVAL {
      assert line[|left|].hash !in kept;
      FreedIff(blocks, b, c, |left|);
      assert PartsWithin(blocks, c, b);
    } else if PartsWithin(blocks, c, b) {
      var i: nat, j: nat :| 0 < i < INTERVAL && 0 < j && InBoth(line, Ancestry(blocks, b), i, j);
      FreedIff(blocks, b, c, i);
      assert false;
    }
  }

  /** An ancestor is stored, and lower by its place in the line. */
  lemma AncestorIs(blocks: map<Hash, Block>, b: Block, i: nat)
    requires Linked(blocks) && LinkedTo(blocks, b) && 0 < i < |Ancestry(blocks, b)|
    ensures var a := Ancestry(blocks, b)[i];
            a.hash in blocks && blocks[a.hash] == a && a.height == b.height - i
  {
    hide Ancestry;
    AncestryIs(blocks, b);
    assert ParentIs(blocks, Ancestry(blocks, b)[i - 1], Ancestry(blocks, b)[i]);
  }

  ghost predicate SharedAt(blocks: map<Hash, Block>, c: Block, b: Block, i: nat)
    requires Linked(blocks) && LinkedTo(blocks, b) && LinkedTo(blocks, c)
  {
    exists j: nat :: 0 < j && InBoth(Ancestry(blocks, c), Ancestry(blocks, b), i, j)
  }

  /** An ancestor of c above the block its difficulty is measured from is freed if and only if it is one of b, too. */
  lemma FreedIff(blocks: map<Hash, Block>, b: Block, c: Block, i: nat)
    requires Linked(blocks) && LinkedTo(blocks, b) && LinkedTo(blocks, c) && c.height < b.height
    requires b.height % INTERVAL == 0 && c.height % INTERVAL == 0
    requires 0 < i < INTERVAL && i < |Ancestry(blocks, c)|
    ensures Ancestry(blocks, c)[i].hash !in Pruned(blocks, b) <==> SharedAt(blocks, c, b, i)
  {
    hide Ancestry, Linked, LinkedTo;
    AncestorIs(blocks, c, i);
    var line, main := Ancestry(blocks, c), Ancestry(blocks, b);
    if SharedAt(blocks, c, b, i) {
      var j: nat :| 0 < j && InBoth(line, main, i, j);
      AncestorIs(blocks, b, j);
      Between(c.height, b.height, i, j);
      assert Stale(main, line[i].hash);
    }
    if Stale(main, line[i].hash) {
      var j: nat :| INTERVAL < j < |main| && main[j].hash == line[i].hash;
      assert InBoth(line, main, i, j);
    }
  }

  /** The block that the difficulty is measured from is itself a transition block and never freed. */
  lemma FreedNever(blocks: map<Hash, Block>, b: Block, c: Block)
    requires Linked(blocks) && LinkedTo(blocks, b) && LinkedTo(blocks, c)
    requires c.height % INTERVAL == 0 && INTERVAL < |Ancestry(blocks, c)|
    ensures Ancestry(blocks, c)[INTERVAL].hash in Pruned(blocks, b)
  {
    hide Ancestry, Pruned;
    AncestorIs(blocks, c, INTERVAL);
    var h := Ancestry(blocks, c)[INTERVAL].hash;
    if h !in Pruned(blocks, b) {
      PrunedAreLow(blocks, b, h);
      OneIntervalDown(c.height);
      assert false;
    }
  }

  lemma OneIntervalDown(height: nat)
    requires height % INTERVAL == 0 && height >= INTERVAL
    ensures (height - INTERVAL) % INTERVAL == 0
  {
  }

  lemma Between(c: nat, b: nat, i: nat, j: nat)
    requires c < b && b % INTERVAL == 0 && c % INTERVAL == 0 && 0 < i < INTERVAL && c - i == b - j && i <= c
    ensures j > INTERVAL && (c - i) % INTERVAL != 0
  {
    var x, y := c / INTERVAL, b / INTERVAL;
    assert c == INTERVAL * x && b == INTERVAL * y && x < y;
    assert c - i == INTERVAL * (x - 1) + (INTERVAL - i);
  }

  /** Adding a block changes no line that does not start above it. */
  lemma {:induction false} AddingSparesLines(th: Heights, blocks: map<Hash, Block>, b: Block, c: Block)
    requires StoredWell(th, blocks) && Rooted(th, b)
    requires b.height == th(b.hash) && b.hash !in blocks && LinkedTo(blocks, b)
    requires Rooted(th, c) && c.height == th(c.hash) && LinkedTo(blocks, c) && c.height <= b.height
    ensures var more := blocks[b.hash := b];
            Linked(blocks) && Linked(more) && LinkedTo(more, c) && Ancestry(more, c) == Ancestry(blocks, c)
    decreases c.height
  {
    var more := blocks[b.hash := b];
    WellIsLinked(th, blocks);
    assert StoredWell(th, more);
    WellIsLinked(th, more);
    if c.prevBlock in blocks {
      AddingSparesLines(th, blocks, b, blocks[c.prevBlock]);
    }
  }

  lemma {:induction false} BottomIs(blocks: map<Hash, Block>, b: Block)
    requires Linked(blocks) && LinkedTo(blocks, b)
    ensures Bottom(blocks, b) == Ancestry(blocks, b)[|Ancestry(blocks, b)| - 1].height
    decreases b.height
  {
    if b.prevBlock in blocks {
      BottomIs(blocks, blocks[b.prevBlock]);
    }
  }

  ///////////////////////////////// When a null block is dereferenced /////////////////////////////////

  /** No stored block belongs to both chains. */
  ghost predicate Apart(line: seq<Block>, main: seq<Block>) {
    forall i: nat, j: nat :: !InBoth(line, main, i, j)
  }

  /** The chains of two blocks share no stored block, and that of b does not go down further. */
  ghost predicate Severed(blocks: map<Hash, Block>, b: Block, tip: Block)
    requires Linked(blocks) && LinkedTo(blocks, b) && LinkedTo(blocks, tip)
  {
    Apart(Ancestry(blocks, b), Ancestry(blocks, tip)) && Bottom(blocks, b) >= Bottom(blocks, tip)
  }

  predicate Falling(line: seq<Block>) {
    line != [] && forall k :: 0 <= k < |line| ==> line[k].height == line[0].height - k
  }

  /** Blocks of the same hash in both lines are as high. */
  ghost predicate SameHeights(line: seq<Block>, main: seq<Block>) {
    forall i: nat, j: nat :: InBoth(line, main, i, j) ==> line[i].height == main[j].height
  }

  /** The walk back runs out of the new chain first if and only if the chains are apart and it ends no lower. */
  lemma RunsOutIff(line: seq<Block>, main: seq<Block>)
    requires Falling(line) && Falling(main) && SameHeights(line, main) && line[0].height > main[0].height
    ensures JoinOf(line, main).NewFallsShort? <==>
              Apart(line, main) && line[|line| - 1].height >= main[|main| - 1].height
  {
    var lead, r := line[0].height - main[0].height, JoinOf(line, main);
    forall i: nat, j: nat | InBoth(line, main, i, j) ensures i == lead + j && SameAt(line, main, lead, j) {
      assert line[i].height == main[j].height;
    }
    if lead <= |line| {
      JoinFromIsFirst(line, main, lead, 0);
      if r.Meets? {
        var k: nat :| FirstAt(line, main, lead, 0, k) && r.at == line[lead + k];
        assert InBoth(line, main, lead + k, k);
      }
    }
  }

  lemma StoredSameHeights(blocks: map<Hash, Block>, b: Block, tip: Block)
    requires Linked(blocks) && LinkedTo(blocks, b) && (b.hash in blocks ==> blocks[b.hash] == b)
    requires tip.hash in blocks && blocks[tip.hash] == tip
    ensures var line, main := Ancestry(blocks, b), Ancestry(blocks, tip);
            Falling(line) && Falling(main) && line[0] == b && main[0] == tip && SameHeights(line, main)
  {
    hide Ancestry;
    AncestryIs(blocks, b);
    AncestryIs(blocks, tip);
    StoredAncestry(blocks, tip);
    var line, main := Ancestry(blocks, b), Ancestry(blocks, tip);
    forall i: nat, j: nat | InBoth(line, main, i, j) ensures line[i].height == main[j].height {
      if i > 0 {
        assert ParentIs(blocks, line[i - 1], line[i]);
      }
    }
  }

  lemma SeveredIff(blocks: map<Hash, Block>, b: Block, tip: Block)
    requires Linked(blocks) && LinkedTo(blocks, b) && (b.hash in blocks ==> blocks[b.hash] == b)
    requires tip.hash in blocks && blocks[tip.hash] == tip && b.height > tip.height
    ensures [b] <= Ancestry(blocks, b) && [tip] <= Ancestry(blocks, tip)
    ensures JoinOf(Ancestry(blocks, b), Ancestry(blocks, tip)).NewFallsShort? <==> Severed(blocks, b, tip)
  {
    hide Ancestry, JoinOf, Bottom, Apart, SameHeights;
    StoredSameHeights(blocks, b, tip);
    BottomIs(blocks, b);
    BottomIs(blocks, tip);
    RunsOutIff(Ancestry(blocks, b), Ancestry(blocks, tip));
  }

  /** A block that gets as far as being compared with the main chain. */
  ghost predicate Compared(p: Params, s: State, r: Relay)
    requires s.Usable()
  {
    var b := Placed(s.blocks, r.block);
    && !(b.totalTx == 0 && AWeekOn(b.timestamp) > TwoHoursOn(p.earliestKeyTime)) && !r.filterPending
    && b.prevBlock in s.blocks && Accepts(p, s.blocks, b) && b.prevBlock != s.lastBlock.hash
  }

  /** A null block is dereferenced if and only if a stored block is relayed again that is lower than all that is stored
      of the main chain, or a new block makes a higher chain that is severed from it. */
  lemma CrashesIff(th: Heights, p: Params, s: State, r: Relay)
    requires RootedParams(th, p) && ValidState(th, p, s) && Relayable(th, r.block)
    ensures s.Usable()
    ensures Judge(p, s, r) == Crashed <==>
              var b, last := Placed(s.blocks, r.block), s.lastBlock;
              && Compared(p, s, r)
              && var kept := Pruned(s.blocks, b);
                 && Linked(kept) && LinkedTo(kept, b) && LinkedTo(kept, last)
                 && if b.hash in kept then b.height < Bottom(kept, last)
                    else
                      && b.height > last.height && b.height > p.checkpoints[|p.checkpoints| - 1].height
                      && !(last.height < r.peerHeight && b.height > last.height + 1)
                      && Severed(kept, b, last)
  {
    hide Pruned, Accepts, Bottom, Severed, JoinOf, Ancestry, StoredWell, NoneAbove, WaitingWell, RootedParams;
    WellIsLinked(th, s.blocks);
    SomeCheckpoints(th, p);
    var b := Placed(s.blocks, r.block);
    PlacedIsLinked(s.blocks, r.block);
    PrunedLinked(s.blocks, b);
    if b.prevBlock in s.blocks {
      PruningKeepsLast(th, p, s, b);
      PrunedPart(s.blocks, b);
      var kept := Pruned(s.blocks, b);
      if b.hash !in kept && b.height > s.lastBlock.height {
        SeveredIff(kept, b, s.lastBlock);
      }
    }
  }

  lemma SomeCheckpoints(th: Heights, p: Params)
    requires RootedParams(th, p)
    ensures p.checkpoints != []
  {
  }

  lemma PlacedIsLinked(blocks: map<Hash, Block>, b: Block)
    ensures LinkedTo(blocks, Placed(blocks, b))
  {
  }

  const GENESIS: Block := Block(1, ZERO, 0, 10, 7, 1, [])
  const CHECKPOINT: Block := Block(2, ZERO, INTERVAL, 20, 7, 1, [])
  const SAVED: Block := Block(4, 5, 2 * INTERVAL, 50, 7, 1, [])
  const TWO_CHECKPOINTS: Params := Params(true, [GENESIS, CHECKPOINT], 0)

  /** A block on the second checkpoint. */
  const ON_CHECKPOINT: Relay := Relay(Block(3, 2, UNKNOWN_HEIGHT, 30, 7, 1, []), 0, 40, false)

  /** Nothing was saved and the keys are old, so the last block is the first checkpoint. */
  const STARTED: State := State(map[1 := GENESIS, 2 := CHECKPOINT], map[], GENESIS, None, 0)

  /** A transition block was saved and is the last block; its parent is not stored. */
  const LOADED: State := State(map[1 := GENESIS, 2 := CHECKPOINT, 4 := SAVED], map[], SAVED, None, 0)

  ghost function ExampleHeights(): Heights {
    h => if h == 1 then 0 else if h == 2 then INTERVAL else if h == 3 then INTERVAL + 1
         else if h == 4 then 2 * INTERVAL else 2 * INTERVAL - 1
  }

  lemma ExamplesAreValid()
    ensures RootedParams(ExampleHeights(), TWO_CHECKPOINTS) && Relayable(ExampleHeights(), ON_CHECKPOINT.block)
    ensures ValidState(ExampleHeights(), TWO_CHECKPOINTS, STARTED) && STARTED.Usable()
    ensures ValidState(ExampleHeights(), TWO_CHECKPOINTS, LOADED) && LOADED.Usable()
  {
    StartedIsValid();
    LoadedIsValid();
  }

  lemma StartedIsValid()
    ensures RootedParams(ExampleHeights(), TWO_CHECKPOINTS) && Relayable(ExampleHeights(), ON_CHECKPOINT.block)
    ensures ValidState(ExampleHeights(), TWO_CHECKPOINTS, STARTED) && STARTED.Usable()
  {
    assert IsCheckpoint(TWO_CHECKPOINTS, 2) by { assert CHECKPOINT in TWO_CHECKPOINTS.checkpoints; }
    hide IsCheckpoint;
  }

  lemma LoadedIsValid()
    ensures ValidState(ExampleHeights(), TWO_CHECKPOINTS, LOADED) && LOADED.Usable()
  {
    hide IsCheckpoint;
  }

  /** The block on the second checkpoint is higher than the last block, and its stored chain ends at that checkpoint. */
  lemma ForkCrashes()
    ensures STARTED.Usable() && Judge(TWO_CHECKPOINTS, STARTED, ON_CHECKPOINT) == Crashed
  {
    ExamplesAreValid();
    var b := Placed(STARTED.blocks, ON_CHECKPOINT.block);
    assert b.height == INTERVAL + 1;
    assert Ancestry(STARTED.blocks, b) == [b, CHECKPOINT] && Ancestry(STARTED.blocks, GENESIS) == [GENESIS];
    assert Bottom(STARTED.blocks, b) == INTERVAL && Bottom(STARTED.blocks, GENESIS) == 0;
    hide Ancestry, Bottom, ValidState, RootedParams, Relayable;
    CrashesIff(ExampleHeights(), TWO_CHECKPOINTS, STARTED, ON_CHECKPOINT);
  }

  /** The block is put on a fork. */
  lemma ForkIsStored()
    ensures LOADED.Usable() && Judge(TWO_CHECKPOINTS, LOADED, ON_CHECKPOINT) == Forked
    ensures var t := Settle(TWO_CHECKPOINTS, LOADED, ON_CHECKPOINT);
            && t.lastBlock == SAVED && t.estimatedHeight == INTERVAL + 1
            && t.blocks == LOADED.blocks[3 := ON_CHECKPOINT.block.(height := INTERVAL + 1)]
  {
    ExamplesAreValid();
    hide ValidState, RootedParams, Relayable;
    assert Placed(LOADED.blocks, ON_CHECKPOINT.block) == ON_CHECKPOINT.block.(height := INTERVAL + 1);
  }

  /** Relayed again, it is looked for on the main chain, which is not stored that far down. */
  lemma KnownBlockCrashes()
    ensures LOADED.Usable() && Judge(TWO_CHECKPOINTS, LOADED, ON_CHECKPOINT) == Forked
    ensures var t := Settle(TWO_CHECKPOINTS, LOADED, ON_CHECKPOINT);
            t.Usable() && Judge(TWO_CHECKPOINTS, t, ON_CHECKPOINT) == Crashed
  {
    var t := Settle(TWO_CHECKPOINTS, LOADED, ON_CHECKPOINT);
    ExamplesAreValid();
    hide ValidState, RootedParams, Relayable;
    ForkIsStored();
    RelayKeeps(ExampleHeights(), TWO_CHECKPOINTS, LOADED, ON_CHECKPOINT);
    hide Judge, Settle;
    CrashesIff(ExampleHeights(), TWO_CHECKPOINTS, t, ON_CHECKPOINT);
    FoundLow(t.blocks);
  }

  lemma FoundLow(blocks: map<Hash, Block>)
    requires blocks == LOADED.blocks[3 := ON_CHECKPOINT.block.(height := INTERVAL + 1)]
    ensures Linked(blocks) && LinkedTo(blocks, SAVED) && Bottom(blocks, SAVED) == 2 * INTERVAL
    ensures Placed(blocks, ON_CHECKPOINT.block) == blocks[3] && Pruned(blocks, blocks[3]) == blocks
    ensures Accepts(TWO_CHECKPOINTS, blocks, blocks[3])
  {
  }

  ///////////////////////////////// A walk that pruning breaks /////////////////////////////////

  /** The block with hash h, of height h - 1, of a chain without matches. */
  function MainBlock(h: Hash): Block
    requires h > 0
  {
    Block(h, h - 1, h - 1, 10, 7, 1, [])
  }

  const ONE_CHECKPOINT: Params := Params(false, [MainBlock(1)], 0)

  /** A block on the main chain's block two below its second transition, and the transition block on it. */
  const FORK: Block := Block(10 * INTERVAL, 2 * INTERVAL - 1, 2 * INTERVAL - 1, 10, 7, 1, [])
  const LOWER: Block := Block(10 * INTERVAL + 1, 10 * INTERVAL, 2 * INTERVAL, 10, 7, 1, [])

  /** The block that makes the main chain reach its third transition. */
  const HIGHER: Block := MainBlock(3 * INTERVAL + 1)

  const LOWER_RELAYED: Relay := Relay(LOWER, 0, 40, false)
  const HIGHER_RELAYED: Relay := Relay(HIGHER, 0, 40, false)

  ghost function ForkedBlocks(): map<Hash, Block> {
    (map h: Hash | 1 <= h <= 3 * INTERVAL :: MainBlock(h))[FORK.hash := FORK]
  }

  ghost function ForkedState(): State {
    State(ForkedBlocks(), map[], MainBlock(3 * INTERVAL), None, 0)
  }

  ghost function ForkedHeights(): Heights {
    h => if h == FORK.hash then FORK.height else if h == LOWER.hash then LOWER.height else if h == 0 then 0 else h - 1
  }

  lemma ForkedBlocksAre()
    ensures forall h: Hash :: h in ForkedBlocks() <==> h == FORK.hash || 1 <= h <= 3 * INTERVAL
    ensures forall h: Hash :: 1 <= h <= 3 * INTERVAL ==> ForkedBlocks()[h] == MainBlock(h)
    ensures ForkedBlocks()[FORK.hash] == FORK
  {
  }

  lemma ForkedWell()
    ensures StoredWell(ForkedHeights(), ForkedBlocks())
    ensures Linked(ForkedBlocks()) && LinkedTo(ForkedBlocks(), LOWER) && LinkedTo(ForkedBlocks(), HIGHER)
  {
    ForkedBlocksAre();
    hide ForkedBlocks;
    assert StoredWell(ForkedHeights(), ForkedBlocks());
    WellIsLinked(ForkedHeights(), ForkedBlocks());
  }

  lemma ForkedIsValid()
    ensures RootedParams(ForkedHeights(), ONE_CHECKPOINT) && ONE_CHECKPOINT.checkpoints != []
    ensures Relayable(ForkedHeights(), LOWER) && Relayable(ForkedHeights(), HIGHER)
    ensures ValidState(ForkedHeights(), ONE_CHECKPOINT, ForkedState()) && ForkedState().Usable()
  {
    ForkedBlocksAre();
    ForkedWell();
    hide ForkedBlocks, IsCheckpoint, StoredWell, Linked;
  }

  lemma {:induction false} MainLine(blocks: map<Hash, Block>, h: Hash)
    requires h > 0 && Linked(blocks) && LinkedTo(blocks, MainBlock(h)) && ZERO !in blocks
    requires forall g: Hash :: 1 <= g < h ==> g in blocks && blocks[g] == MainBlock(g)
    ensures |Ancestry(blocks, MainBlock(h))| == h
    ensures forall i: nat :: i < h ==> Ancestry(blocks, MainBlock(h))[i] == MainBlock(h - i)
  {
    if h > 1 {
      assert blocks[h - 1] == MainBlock(h - 1);
      MainLine(blocks, h - 1);
    }
  }

  /** The line of the lower transition block. */
  lemma LowerLine()
    ensures Linked(ForkedBlocks()) && LinkedTo(ForkedBlocks(), LOWER)
    ensures var line := Ancestry(ForkedBlocks(), LOWER);
            |line| == 2 * INTERVAL + 1 && line[1] == FORK && line[2] == MainBlock(2 * INTERVAL - 1)
  {
    ForkedBlocksAre();
    ForkedWell();
    hide StoredWell, ForkedBlocks;
    var blocks, top := ForkedBlocks(), MainBlock(2 * INTERVAL - 1);
    assert blocks[2 * INTERVAL - 1] == top;
    MainLine(blocks, 2 * INTERVAL - 1);
    assert Ancestry(blocks, FORK) == [FORK] + Ancestry(blocks, top);
    assert Ancestry(blocks, LOWER) == [LOWER] + Ancestry(blocks, FORK);
  }

  lemma HigherLine()
    ensures Linked(ForkedBlocks()) && LinkedTo(ForkedBlocks(), HIGHER)
    ensures var line := Ancestry(ForkedBlocks(), HIGHER);
            && |line| == 3 * INTERVAL + 1
            && forall i: nat :: i <= 3 * INTERVAL ==> line[i] == MainBlock(3 * INTERVAL + 1 - i)
  {
    ForkedBlocksAre();
    ForkedWell();
    hide StoredWell, ForkedBlocks;
    MainLine(ForkedBlocks(), 3 * INTERVAL + 1);
  }

  /** The chains of the two transition blocks part two blocks below the lower one. */
  lemma ForkedPartsWithin()
    ensures Linked(ForkedBlocks()) && LinkedTo(ForkedBlocks(), LOWER) && LinkedTo(ForkedBlocks(), HIGHER)
    ensures Transition(ForkedBlocks(), LOWER).Some? && Transition(ForkedBlocks(), HIGHER).Some?
    ensures PartsWithin(ForkedBlocks(), LOWER, HIGHER)
  {
    ForkedWell();
    LowerLine();
    HigherLine();
    hide Ancestry, ForkedBlocks, StoredWell;
    assert InBoth(Ancestry(ForkedBlocks(), LOWER), Ancestry(ForkedBlocks(), HIGHER), 2, INTERVAL + 2);
  }

  lemma KeptWell(th: Heights, blocks: map<Hash, Block>, b: Block)
    requires StoredWell(th, blocks) && Linked(blocks) && LinkedTo(blocks, b)
    ensures StoredWell(th, Pruned(blocks, b))
  {
    hide Rooted, Stale;
  }

  lemma ForkedJudged()
    ensures ForkedState().Usable()
    ensures Judge(ONE_CHECKPOINT, ForkedState(), LOWER_RELAYED) == Forked
    ensures Judge(ONE_CHECKPOINT, ForkedState(), HIGHER_RELAYED) == Extended
  {
    ForkedBlocksAre();
    ForkedIsValid();
    ForkedPartsWithin();
    hide Ancestry, Transition, RootedParams, ValidState, StoredWell, ForkedBlocks, PartsWithin, Linked;
    assert Placed(ForkedBlocks(), LOWER) == LOWER && Placed(ForkedBlocks(), HIGHER) == HIGHER;
    PrunedPart(ForkedBlocks(), LOWER);
    hide Pruned;
  }

  /** Without its transition block stored, a transition block is refused. */
  lemma RefusedUnmeasured(p: Params, s: State, r: Relay)
    requires s.Usable() && p.checkpoints != [] && !r.filterPending && r.block.totalTx > 0
    requires r.block.prevBlock in s.blocks && Placed(s.blocks, r.block) == r.block && r.block.height % INTERVAL == 0
    requires LinkedTo(s.blocks, r.block) && Transition(s.blocks, r.block).None?
    ensures Judge(p, s, r) == Invalid
  {
  }

  lemma ForkKept()
    ensures Linked(ForkedBlocks()) && LinkedTo(ForkedBlocks(), HIGHER)
    ensures FORK.hash in Pruned(ForkedBlocks(), HIGHER)
  {
    ForkedBlocksAre();
    HigherLine();
    hide Ancestry, ForkedBlocks, Linked;
    var line := Ancestry(ForkedBlocks(), HIGHER);
    assert forall k :: 0 <= k < |line| ==> line[k].hash != FORK.hash;
  }

  /** What is kept once the main chain's third transition has been looked at. */
  ghost predicate KeptFork(kept: map<Hash, Block>) {
    && StoredWell(ForkedHeights(), kept) && Linked(kept) && LinkedTo(kept, LOWER) && LinkedTo(kept, HIGHER)
    && Transition(kept, LOWER).None?
    && FORK.hash in kept && kept[FORK.hash] == FORK && HIGHER.hash !in kept
  }

  lemma ForkIsKept()
    ensures Linked(ForkedBlocks()) && LinkedTo(ForkedBlocks(), HIGHER) && KeptFork(Pruned(ForkedBlocks(), HIGHER))
  {
    ForkedBlocksAre();
    ForkedWell();
    ForkedPartsWithin();
    ForkKept();
    var blocks := ForkedBlocks();
    hide ForkedBlocks, PartsWithin, Ancestry, Transition, StoredWell;
    LowerSparedIff(blocks, HIGHER, LOWER);
    KeptWell(ForkedHeights(), blocks, HIGHER);
    PrunedPart(blocks, HIGHER);
    PrunedLinked(blocks, HIGHER);
    hide Pruned, Linked;
  }

  /** What is stored then, and how the lower transition block stands. */
  lemma HigherStored(kept: map<Hash, Block>)
    requires KeptFork(kept)
    ensures var after := kept[HIGHER.hash := HIGHER];
            && Linked(after) && LinkedTo(after, LOWER) && FORK.hash in after && Placed(after, LOWER) == LOWER
            && Transition(after, LOWER).None?
  {
    hide Ancestry, StoredWell, Linked;
    assert Rooted(ForkedHeights(), HIGHER) && Rooted(ForkedHeights(), LOWER);
    AddingSparesLines(ForkedHeights(), kept, HIGHER, LOWER);
  }

  lemma ValidIsUsable(th: Heights, p: Params, s: State)
    requires ValidState(th, p, s)
    ensures s.Usable()
  {
    WellIsLinked(th, s.blocks);
  }

  /** Relayed before the main chain reaches its next transition, the lower transition block is stored on the fork;
      relayed after that, it is refused, since its chain now ends before the block its difficulty is measured from. */
  lemma PruningBreaksWalk()
    ensures ForkedState().Usable()
    ensures Judge(ONE_CHECKPOINT, ForkedState(), LOWER_RELAYED) == Forked
    ensures Judge(ONE_CHECKPOINT, ForkedState(), HIGHER_RELAYED) == Extended
    ensures var after := Settle(ONE_CHECKPOINT, ForkedState(), HIGHER_RELAYED);
            after.Usable() && Judge(ONE_CHECKPOINT, after, LOWER_RELAYED) == Invalid
  {
    hide *;
    ForkedIsValid();
    ForkedJudged();
    ForkIsKept();
    HigherStored(Pruned(ForkedBlocks(), HIGHER));
    SettledBlocks();
    SettledUsable();
    RefusedNow(Settle(ONE_CHECKPOINT, ForkedState(), HIGHER_RELAYED));
  }

  lemma SettledUsable()
    requires ForkedState().Usable() && Judge(ONE_CHECKPOINT, ForkedState(), HIGHER_RELAYED) == Extended
    ensures Settle(ONE_CHECKPOINT, ForkedState(), HIGHER_RELAYED).Usable()
  {
    ForkedIsValid();
    hide Judge, Settle, ForkedBlocks, RootedParams, ValidState;
    RelayKeeps(ForkedHeights(), ONE_CHECKPOINT, ForkedState(), HIGHER_RELAYED);
    ValidIsUsable(ForkedHeights(), ONE_CHECKPOINT, Settle(ONE_CHECKPOINT, ForkedState(), HIGHER_RELAYED));
  }

  lemma RefusedNow(after: State)
    requires after.Usable() && LinkedTo(after.blocks, LOWER) && FORK.hash in after.blocks
    requires Placed(after.blocks, LOWER) == LOWER && Transition(after.blocks, LOWER).None?
    ensures Judge(ONE_CHECKPOINT, after, LOWER_RELAYED) == Invalid
  {
    hide Transition, Judge;
    RefusedUnmeasured(ONE_CHECKPOINT, after, LOWER_RELAYED);
  }

  lemma SettledBlocks()
    requires ForkedState().Usable() && Judge(ONE_CHECKPOINT, ForkedState(), HIGHER_RELAYED) == Extended
    requires Linked(ForkedBlocks()) && LinkedTo(ForkedBlocks(), HIGHER)
    ensures Settle(ONE_CHECKPOINT, ForkedState(), HIGHER_RELAYED).blocks ==
            Pruned(ForkedBlocks(), HIGHER)[HIGHER.hash := HIGHER]
  {
    hide Judge, Pruned;
    ForkedBlocksAre();
    hide ForkedBlocks, Linked;
    assert Placed(ForkedBlocks(), HIGHER) == HIGHER;
  }
}
