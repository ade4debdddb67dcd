/** A run from a new manager after which a transaction has its height from a block that is not on the chain. */
module OutOfStep {
  import opened Options
  import opened Transaction
  import opened Ledger
  import opened Chain
  import opened Reorg
  import opened InStep
  import PeerManager
  import Wallet

  ///////////////////////////////// The blocks /////////////////////////////////

  /** The first block has hash 1. Hashes 3, 5, 7 and so on are the main chain on it, 2, 4, 6 and so on the fork. */
  function Height(h: Hash): nat {
    h / 2
  }

  function Parent(h: Hash): Hash {
    if h == 2 then 1 else if h > 2 then h - 2 else ZERO
  }

  /** The first block of the main chain matches the transaction. */
  function BlockOf(h: Hash): Block {
    Block(h, Parent(h), Height(h), 10, 7, 1, if h == 3 then [TX] else [])
  }

  const TX: Hash := 77
  const PARAMS: Params := Params(false, [BlockOf(1)], 0)
  const LENGTH: nat := 5 * INTERVAL

  /** The main chain up to its second transition, the fork as far, the lower part of the fork again, and the next block
      of the fork. */
  function HashAt(i: nat): Hash {
    if i < 2 * INTERVAL then 2 * i + 3
    else if i < 4 * INTERVAL then 2 * (i - 2 * INTERVAL) + 2
    else if i < 5 * INTERVAL - 1 then 2 * (i - 4 * INTERVAL) + 2
    else 4 * INTERVAL + 2
  }

  function Relayed(h: Hash): Relay {
    Relay(BlockOf(h).(height := UNKNOWN_HEIGHT), 0, 40, false)
  }

  function RelayAt(i: nat): Relay {
    Relayed(HashAt(i))
  }

  /** Whether a block is stored after i relays. The second transition block of a chain frees the blocks below the first,
      but not the one that both chains start from. */
  predicate Has(i: nat, h: Hash) {
    || h == 1
    || (h % 2 == 1 && 3 <= h <= 4 * INTERVAL + 1 && if i < 2 * INTERVAL then h <= 2 * i + 1 else 2 * INTERVAL < h)
    || (h % 2 == 0 && 2 <= h && if i < 4 * INTERVAL then h + 4 * INTERVAL <= 2 * i
                                else h <= 2 * (i - 4 * INTERVAL) || 2 * INTERVAL <= h <= 4 * INTERVAL)
  }

  ghost function BlocksAt(i: nat): map<Hash, Block> {
    map h: Hash | h <= 4 * INTERVAL + 1 && Has(i, h) :: BlockOf(h)
  }

  function LastAt(i: nat): Hash {
    if i < 2 * INTERVAL then 2 * i + 1 else 4 * INTERVAL + 1
  }

  ghost function StateAt(i: nat): State {
    State(BlocksAt(i), map[], BlockOf(LastAt(i)), None, Height(LastAt(i)))
  }

  ghost predicate OfRun(blocks: map<Hash, Block>) {
    forall h :: h in blocks ==> 0 < h <= 4 * INTERVAL + 2 && blocks[h] == BlockOf(h)
  }

  lemma RunIsWell(blocks: map<Hash, Block>)
    requires OfRun(blocks)
    ensures StoredWell(Height, blocks) && Linked(blocks) && LinksAre(Parent, blocks)
    ensures forall h: Hash :: h > 0 ==> LinkedTo(blocks, BlockOf(h)) && LinkIs(Parent, BlockOf(h))
  {
    assert StoredWell(Height, blocks);
    WellIsLinked(Height, blocks);
  }

  lemma BlocksAre(i: nat)
    ensures OfRun(BlocksAt(i)) && forall h: Hash :: h in BlocksAt(i) <==> h <= 4 * INTERVAL + 1 && Has(i, h)
  {
  }

  ///////////////////////////////// Lines /////////////////////////////////

  /** The block n below a block. */
  function Up(h: Hash, n: nat): Hash {
    if 2 * n < h then h - 2 * n else 1
  }

  lemma UpFrom(h: Hash)
    requires h > 1
    ensures Up(h, 0) == h && Up(h, 1) == Parent(h) && 0 < Parent(h) < h && Height(Parent(h)) == Height(h) - 1
    ensures forall k: nat :: k < Height(h) ==> Up(Parent(h), k) == Up(h, k + 1)
  {
  }

  /** The line of a block that goes n blocks down. */
  lemma {:induction false} LineOf(blocks: map<Hash, Block>, h: Hash, n: nat)
    requires OfRun(blocks) && Linked(blocks) && h > 0 && n <= Height(h) && LinkedTo(blocks, BlockOf(h))
    requires (forall k: nat :: 1 <= k <= n ==> Up(h, k) in blocks) && Parent(Up(h, n)) !in blocks
    ensures var line := Ancestry(blocks, BlockOf(h));
            |line| == n + 1 && forall k: nat :: k <= n ==> line[k] == BlockOf(Up(h, k))
    decreases n
  {
    if n == 0 {
      assert Up(h, 0) == h;
    } else {
      UpFrom(h);
      hide Up, Linked;
      assert blocks[Parent(h)] == BlockOf(Parent(h));
      assert forall k: nat :: k < n ==> Up(Parent(h), k) == Up(h, k + 1);
      LineOf(blocks, Parent(h), n - 1);
      LineGrows(blocks, h, n);
    }
  }

  lemma LineGrows(blocks: map<Hash, Block>, h: Hash, n: nat)
    requires OfRun(blocks) && Linked(blocks) && h > 1 && 0 < n <= Height(h) && LinkedTo(blocks, BlockOf(h))
    requires Parent(h) in blocks && blocks[Parent(h)] == BlockOf(Parent(h)) && LinkedTo(blocks, BlockOf(Parent(h)))
    requires var rest := Ancestry(blocks, BlockOf(Parent(h)));
             |rest| == n && forall k: nat :: k < n ==> rest[k] == BlockOf(Up(Parent(h), k))
    ensures var line := Ancestry(blocks, BlockOf(h));
            |line| == n + 1 && forall k: nat :: k <= n ==> line[k] == BlockOf(Up(h, k))
  {
    UpFrom(h);
    var line, rest := Ancestry(blocks, BlockOf(h)), Ancestry(blocks, BlockOf(Parent(h)));
    assert line == [BlockOf(h)] + rest;
    hide Ancestry, Linked, LinkedTo, Up, OfRun;
    forall k: nat | k <= n ensures line[k] == BlockOf(Up(h, k)) {
      if k > 0 {
        assert line[k] == rest[k - 1] == BlockOf(Up(Parent(h), k - 1));
      }
    }
  }

  lemma {:induction false} BackIs(h: Hash, n: nat)
    requires h > 0 && n <= Height(h)
    ensures Back(Parent, h, n) == Up(h, n)
    decreases n
  {
    if n > 0 {
      BackIs(Parent(h), n - 1);
    }
  }

  /** Nothing is freed from a line that is no longer than an interval. */
  lemma PrunedNothing(blocks: map<Hash, Block>, b: Block)
    requires Linked(blocks) && LinkedTo(blocks, b) && |Ancestry(blocks, b)| <= INTERVAL + 1
    ensures Pruned(blocks, b) == blocks
  {
    hide Ancestry, Linked;
  }

  /** The hashes that pruning takes from the line of a block at the second transition. */
  predicate Between(h: Hash, g: Hash) {
    g % 2 == h % 2 && 1 < g < 2 * INTERVAL
  }

  lemma StaleIs(line: seq<Block>, h: Hash, g: Hash)
    requires Height(h) == 2 * INTERVAL && |line| == 2 * INTERVAL + 1 && g > 0
    requires forall k: nat :: k <= 2 * INTERVAL ==> line[k] == BlockOf(Up(h, k))
    ensures Stale(line, g) <==> Between(h, g)
  {
    if Between(h, g) {
      var k := (h - g) / 2;
      assert Up(h, k) == g && line[k] == BlockOf(g);
      assert Height(g) == 2 * INTERVAL - k;
    }
    if Stale(line, g) {
      var k: nat :| INTERVAL < k < |line| && line[k].hash == g && line[k].height % INTERVAL != 0;
      assert line[k] == BlockOf(Up(h, k)) && g == Up(h, k);
      StaleBetween(h, k);
    }
  }

  lemma StaleBetween(h: Hash, k: nat)
    requires Height(h) == 2 * INTERVAL && INTERVAL < k <= 2 * INTERVAL && Height(Up(h, k)) % INTERVAL != 0
    ensures Between(h, Up(h, k))
  {
  }

  lemma SecondTransition(h: Hash)
    requires Height(h) == 2 * INTERVAL
    ensures BlockOf(h).height % INTERVAL == 0
  {
  }

  /** From a line of two intervals the blocks of the lower one are freed, but not its ends. */
  lemma PrunedMiddle(blocks: map<Hash, Block>, h: Hash)
    requires OfRun(blocks) && Linked(blocks) && Height(h) == 2 * INTERVAL && LinkedTo(blocks, BlockOf(h))
    requires forall k: nat :: 1 <= k <= 2 * INTERVAL ==> Up(h, k) in blocks
    ensures var kept := Pruned(blocks, BlockOf(h));
            OfRun(kept) && forall g :: g in kept <==> g in blocks && !Between(h, g)
  {
    assert Up(h, 2 * INTERVAL) == 1;
    LineOf(blocks, h, 2 * INTERVAL);
    hide Ancestry, Linked, LinkedTo, Up, Between, Stale, BlockOf;
    assert BlockOf(h).height % INTERVAL == 0 by {
      SecondTransition(h);
    }
    var line := Ancestry(blocks, BlockOf(h));
    forall g | g in blocks ensures Stale(line, g) <==> Between(h, g) {
      StaleIs(line, h, g);
    }
  }

  ///////////////////////////////// Verdicts /////////////////////////////////

  /** The state of a manager that has only blocks of the run. */
  ghost predicate StateOfRun(s: State, last: Hash) {
    && OfRun(s.blocks) && last in s.blocks && s.lastBlock == BlockOf(last) && s.orphans == map[] && s.lastOrphan == None
    && Linked(s.blocks)
  }

  /** The block may be put on its parent: with its transition block stored if it is one itself. */
  ghost predicate MayCome(blocks: map<Hash, Block>, h: Hash) {
    && Linked(blocks) && 1 < h && Parent(h) in blocks && LinkedTo(blocks, BlockOf(h))
    && (Height(h) % INTERVAL == 0 ==> |Ancestry(blocks, BlockOf(h))| > INTERVAL)
  }

  lemma PlacedOf(blocks: map<Hash, Block>, h: Hash)
    requires OfRun(blocks) && Parent(h) in blocks && 1 < h
    ensures Placed(blocks, Relayed(h).block) == BlockOf(h)
  {
  }

  lemma Allowed(s: State, last: Hash, h: Hash)
    requires StateOfRun(s, last) && MayCome(s.blocks, h)
    ensures s.Usable() && Placed(s.blocks, Relayed(h).block) == BlockOf(h)
    ensures var kept := Pruned(s.blocks, BlockOf(h));
            && Linked(kept) && LinkedTo(kept, BlockOf(h)) && LinkedTo(kept, BlockOf(last))
            && Judge(PARAMS, s, Relayed(h)) == JudgeAllowed(PARAMS, BlockOf(last), Relayed(h), kept, BlockOf(h))
  {
    PlacedOf(s.blocks, h);
    PrunedLinked(s.blocks, BlockOf(h));
    PrunedPart(s.blocks, BlockOf(h));
    assert Accepts(PARAMS, s.blocks, BlockOf(h)) by {
      hide Ancestry, Linked, Pruned;
    }
    hide Ancestry, Linked, Pruned, Accepts, JudgeAllowed;
  }

  lemma OnTop(s: State, last: Hash, h: Hash)
    requires StateOfRun(s, last) && MayCome(s.blocks, h) && Parent(h) == last
    ensures s.Usable() && Judge(PARAMS, s, Relayed(h)) == Extended
  {
    Allowed(s, last, h);
    hide Judge, Pruned, MayCome, Linked, State.Usable;
  }

  lemma Beside(s: State, last: Hash, h: Hash)
    requires StateOfRun(s, last) && MayCome(s.blocks, h) && Parent(h) != last && h !in s.blocks
    requires Height(h) <= Height(last)
    ensures s.Usable() && Judge(PARAMS, s, Relayed(h)) == Forked
  {
    Allowed(s, last, h);
    PrunedPart(s.blocks, BlockOf(h));
    assert BlockOf(h).height > 0 && |PARAMS.checkpoints| == 1;
    hide Judge, Pruned, MayCome, Linked, State.Usable;
  }

  lemma SettledAs(s: State, last: Hash, h: Hash, v: Verdict)
    requires StateOfRun(s, last) && MayCome(s.blocks, h) && Judge(PARAMS, s, Relayed(h)) == v
    requires v == Extended || v == Forked || v == Reorganised
    requires s.estimatedHeight == Height(last) && (v == Extended || v == Reorganised <==> Height(h) > Height(last))
    ensures Settle(PARAMS, s, Relayed(h)) ==
            State(Pruned(s.blocks, BlockOf(h))[h := BlockOf(h)], map[],
                  BlockOf(if v == Forked then last else h), None, Height(if v == Forked then last else h))
  {
    PlacedOf(s.blocks, h);
    hide Judge, Pruned, Linked, MayCome;
  }

  ///////////////////////////////// Steps /////////////////////////////////

  lemma StateIsOfRun(i: nat)
    requires i < LENGTH
    ensures StateOfRun(StateAt(i), LastAt(i))
  {
    BlocksAre(i);
    RunIsWell(BlocksAt(i));
    hide BlocksAt, Linked, OfRun, StoredWell;
  }

  /** What a transition block, or any other, leaves stored. */
  lemma Kept(blocks: map<Hash, Block>, h: Hash)
    requires OfRun(blocks) && Linked(blocks) && 1 < h <= 4 * INTERVAL + 1 && LinkedTo(blocks, BlockOf(h))
    requires Height(h) % INTERVAL == 0 ==> forall k: nat :: 1 <= k <= Height(h) ==> Up(h, k) in blocks
    ensures Height(h) % INTERVAL == 0 ==> |Ancestry(blocks, BlockOf(h))| > INTERVAL
    ensures Height(h) != 2 * INTERVAL ==> Pruned(blocks, BlockOf(h)) == blocks
    ensures Height(h) == 2 * INTERVAL ==>
              forall g :: g in Pruned(blocks, BlockOf(h)) <==> g in blocks && !Between(h, g)
  {
    hide Ancestry, Pruned, Between, Linked;
    if Height(h) % INTERVAL == 0 {
      assert Height(h) == INTERVAL || Height(h) == 2 * INTERVAL;
      assert Up(h, Height(h)) == 1;
      LineOf(blocks, h, Height(h));
      if Height(h) == INTERVAL {
        PrunedNothing(blocks, BlockOf(h));
      } else {
        PrunedMiddle(blocks, h);
      }
    } else {
      NoPruning(blocks, h);
    }
  }

  lemma NoPruning(blocks: map<Hash, Block>, h: Hash)
    requires Linked(blocks) && LinkedTo(blocks, BlockOf(h)) && Height(h) % INTERVAL != 0
    ensures Pruned(blocks, BlockOf(h)) == blocks
  {
    hide Linked;
  }

  lemma ParentThere(i: nat)
    requires i < LENGTH - 1
    ensures 1 < HashAt(i) <= 4 * INTERVAL + 1 && Has(i, Parent(HashAt(i)))
  {
  }

  lemma LineThere(i: nat, k: nat)
    requires i < LENGTH - 1 && Height(HashAt(i)) % INTERVAL == 0 && 1 <= k <= Height(HashAt(i))
    ensures Has(i, Up(HashAt(i), k)) && Up(HashAt(i), k) <= 4 * INTERVAL + 1
  {
  }

  lemma HasNext(i: nat, g: Hash)
    requires i < LENGTH - 1 && g <= 4 * INTERVAL + 1
    ensures Has(i + 1, g) <==>
              g == HashAt(i) || (Has(i, g) && !(Height(HashAt(i)) == 2 * INTERVAL && Between(HashAt(i), g)))
  {
  }

  lemma LineStored(i: nat)
    requires i < LENGTH - 1
    ensures var blocks, h := BlocksAt(i), HashAt(i);
            && OfRun(blocks) && Linked(blocks) && 1 < h <= 4 * INTERVAL + 1 && LinkedTo(blocks, BlockOf(h))
            && Parent(h) in blocks
            && (Height(h) % INTERVAL == 0 ==> forall k: nat :: 1 <= k <= Height(h) ==> Up(h, k) in blocks)
  {
    var blocks, h := BlocksAt(i), HashAt(i);
    BlocksAre(i);
    RunIsWell(blocks);
    ParentThere(i);
    hide BlocksAt, Linked, StoredWell, HashAt, Has, Up, LinkedTo, LinksAre, LinkIs, Height, OfRun;
    if Height(h) % INTERVAL == 0 {
      forall k: nat | 1 <= k <= Height(h) ensures Up(h, k) in blocks {
        LineThere(i, k);
      }
    }
  }

  lemma Keeps(i: nat)
    requires i < LENGTH - 1
    ensures var blocks, h := BlocksAt(i), HashAt(i);
            && MayCome(blocks, h)
            && forall g :: g in Pruned(blocks, BlockOf(h)) <==>
                             g in blocks && !(Height(h) == 2 * INTERVAL && Between(h, g))
  {
    LineStored(i);
    hide BlocksAt, Linked, Ancestry, Pruned, HashAt, Up, Between, LinkedTo, Height, OfRun;
    Kept(BlocksAt(i), HashAt(i));
  }

  /** The block relayed may come, and with it is stored what the description says. */
  lemma Comes(i: nat)
    requires i < LENGTH - 1
    ensures var blocks, h := BlocksAt(i), HashAt(i);
            MayCome(blocks, h) && Pruned(blocks, BlockOf(h))[h := BlockOf(h)] == BlocksAt(i + 1)
  {
    BlocksAre(i);
    Keeps(i);
    hide BlocksAt, Pruned, HashAt, Has, Between, Height, MayCome, Linked, Parent, BlockOf, OfRun;
    PrunedPart(BlocksAt(i), BlockOf(HashAt(i)));
    Grows(BlocksAt(i), Pruned(BlocksAt(i), BlockOf(HashAt(i))), i);
  }

  lemma Grows(blocks: map<Hash, Block>, kept: map<Hash, Block>, i: nat)
    requires i < LENGTH - 1 && OfRun(blocks) && forall h :: h in kept ==> h in blocks && kept[h] == blocks[h]
    requires forall g: Hash :: g in blocks <==> g <= 4 * INTERVAL + 1 && Has(i, g)
    requires forall g :: g in kept <==>
                           g in blocks && !(Height(HashAt(i)) == 2 * INTERVAL && Between(HashAt(i), g))
    ensures kept[HashAt(i) := BlockOf(HashAt(i))] == BlocksAt(i + 1)
  {
    BlocksAre(i + 1);
    ParentThere(i);
    hide BlocksAt, HashAt, Has, Between, Height, Parent, BlockOf;
    var after := kept[HashAt(i) := BlockOf(HashAt(i))];
    forall g: Hash ensures g in after <==> g in BlocksAt(i + 1) {
      if g <= 4 * INTERVAL + 1 {
        HasNext(i, g);
      }
    }
    SameBlocks(after, BlocksAt(i + 1));
  }

  lemma SameBlocks(a: map<Hash, Block>, b: map<Hash, Block>)
    requires OfRun(b) && (forall g :: g in a ==> a[g] == BlockOf(g)) && forall g :: g in a <==> g in b
    ensures a == b
  {
    hide BlockOf;
  }

  /** The block relayed is put on the last block, or lies beside the main chain. */
  lemma Lies(i: nat)
    requires i < LENGTH - 1
    ensures if i < 2 * INTERVAL
            then
              && Parent(HashAt(i)) == LastAt(i) && LastAt(i + 1) == HashAt(i)
              && Height(HashAt(i)) > Height(LastAt(i))
            else
              && Parent(HashAt(i)) != LastAt(i) && LastAt(i + 1) == LastAt(i) && !Has(i, HashAt(i))
              && Height(HashAt(i)) <= Height(LastAt(i))
  {
  }

  lemma Verdicts(i: nat)
    requires i < LENGTH - 1
    ensures StateAt(i).Usable()
    ensures Judge(PARAMS, StateAt(i), RelayAt(i)) == if i < 2 * INTERVAL then Extended else Forked
    ensures Settle(PARAMS, StateAt(i), RelayAt(i)) == StateAt(i + 1)
  {
    StateIsOfRun(i);
    Comes(i);
    BlocksAre(i);
    Lies(i);
    hide BlocksAt, Linked, MayCome, Pruned, Judge, Settle, StateOfRun, State.Usable, OfRun;
    hide HashAt, LastAt, Height, Parent, Has, BlockOf;
    if i < 2 * INTERVAL {
      OnTop(StateAt(i), LastAt(i), HashAt(i));
      SettledAs(StateAt(i), LastAt(i), HashAt(i), Extended);
    } else {
      Beside(StateAt(i), LastAt(i), HashAt(i));
      SettledAs(StateAt(i), LastAt(i), HashAt(i), Forked);
    }
  }

  ///////////////////////////////// The last step /////////////////////////////////

  /** The last block of the main chain, and the block that makes the fork the higher chain. */
  const TIP: Hash := 4 * INTERVAL + 1
  const OVERTAKING: Hash := 4 * INTERVAL + 2

  ghost function LastBlocks(): map<Hash, Block> {
    BlocksAt(LENGTH - 1)
  }

  /** What the lines of the two chains are at the last step. */
  ghost predicate LinesAre(blocks: map<Hash, Block>) {
    && Linked(blocks) && LinkedTo(blocks, BlockOf(OVERTAKING)) && LinkedTo(blocks, BlockOf(TIP))
    && var line, main := Ancestry(blocks, BlockOf(OVERTAKING)), Ancestry(blocks, BlockOf(TIP));
       && |line| == 2 * INTERVAL + 2 && (forall k: nat :: k < |line| ==> line[k] == BlockOf(Up(OVERTAKING, k)))
       && |main| == INTERVAL + 1 && (forall k: nat :: k < |main| ==> main[k] == BlockOf(Up(TIP, k)))
  }

  lemma ForkThere(k: nat)
    requires 1 <= k <= 2 * INTERVAL + 1
    ensures Has(LENGTH - 1, Up(OVERTAKING, k)) && Up(OVERTAKING, k) <= 4 * INTERVAL + 1
  {
  }

  lemma MainThere(k: nat)
    requires 1 <= k <= INTERVAL
    ensures Has(LENGTH - 1, Up(TIP, k)) && Up(TIP, k) <= 4 * INTERVAL + 1
  {
  }

  /** By then the fork is stored down to the first block, and the main chain down to its first transition. */
  lemma LastLines()
    ensures LinesAre(LastBlocks())
  {
    BlocksAre(LENGTH - 1);
    RunIsWell(LastBlocks());
    assert Up(OVERTAKING, 2 * INTERVAL + 1) == 1 && Up(TIP, INTERVAL) == 2 * INTERVAL + 1;
    assert Parent(1) !in LastBlocks() && Parent(2 * INTERVAL + 1) !in LastBlocks();
    hide BlocksAt, LastBlocks, Linked, LinkedTo, StoredWell, Ancestry, Up, Has, OfRun, LinksAre, LinkIs;
    forall k: nat | 1 <= k <= 2 * INTERVAL + 1 ensures Up(OVERTAKING, k) in LastBlocks() {
      ForkThere(k);
    }
    forall k: nat | 1 <= k <= INTERVAL ensures Up(TIP, k) in LastBlocks() {
      MainThere(k);
    }
    LineOf(LastBlocks(), OVERTAKING, 2 * INTERVAL + 1);
    LineOf(LastBlocks(), TIP, INTERVAL);
  }

  lemma LastStored()
    ensures OfRun(LastBlocks()) && OVERTAKING !in LastBlocks() && Parent(OVERTAKING) in LastBlocks()
    ensures Linked(LastBlocks()) && LinkedTo(LastBlocks(), BlockOf(OVERTAKING))
  {
    BlocksAre(LENGTH - 1);
    RunIsWell(LastBlocks());
    ForkThere(1);
    assert Parent(OVERTAKING) == Up(OVERTAKING, 1);
    hide BlocksAt, Linked, LinkedTo, StoredWell, OfRun, LinksAre, LinkIs, BlockOf, Up, Parent, Height;
  }

  lemma LinesRunOut(blocks: map<Hash, Block>)
    requires LinesAre(blocks)
    ensures RunsOut(blocks, BlockOf(TIP), BlockOf(OVERTAKING))
    ensures EndOfWalk(blocks, BlockOf(TIP), BlockOf(OVERTAKING)) == INTERVAL - 1
  {
    hide Linked, LinkedTo, Ancestry, JoinOf, RunsOut, Up;
    JoinRunsOut(Ancestry(blocks, BlockOf(OVERTAKING)), Ancestry(blocks, BlockOf(TIP)));
    RunsOutIf(blocks, BlockOf(TIP), BlockOf(OVERTAKING));
  }

  lemma NoNewFalls(blocks: map<Hash, Block>)
    requires RunsOut(blocks, BlockOf(TIP), BlockOf(OVERTAKING))
    ensures Linked(blocks) && LinkedTo(blocks, BlockOf(OVERTAKING)) && LinkedTo(blocks, BlockOf(TIP))
    ensures Ancestry(blocks, BlockOf(OVERTAKING))[0].height > Ancestry(blocks, BlockOf(TIP))[0].height
    ensures !JoinOf(Ancestry(blocks, BlockOf(OVERTAKING)), Ancestry(blocks, BlockOf(TIP))).NewFallsShort?
  {
  }

  lemma JoinRunsOut(line: seq<Block>, main: seq<Block>)
    requires |line| == 2 * INTERVAL + 2 && forall k: nat :: k < |line| ==> line[k] == BlockOf(Up(OVERTAKING, k))
    requires |main| == INTERVAL + 1 && forall k: nat :: k < |main| ==> main[k] == BlockOf(Up(TIP, k))
    ensures line[0].height == 2 * INTERVAL + 1 && main[0].height == 2 * INTERVAL
    ensures JoinOf(line, main) == OldFallsShort(BlockOf(2 * INTERVAL - 2))
  {
    assert line[0] == BlockOf(OVERTAKING) && main[0] == BlockOf(TIP);
    JoinFromIsFirst(line, main, 1, 0);
    hide JoinFrom, Up;
    forall k: nat | k <= INTERVAL ensures line[1 + k].hash != main[k].hash {
      Beneath(k);
    }
    assert JoinOf(line, main) == JoinFrom(line, main, 1, 0);
    Beneath(INTERVAL);
  }

  lemma Beneath(k: nat)
    requires k <= INTERVAL
    ensures Up(OVERTAKING, 1 + k) == 4 * INTERVAL - 2 * k && Up(TIP, k) == 4 * INTERVAL + 1 - 2 * k
    ensures Up(OVERTAKING, 1 + INTERVAL + 1) == 2 * INTERVAL - 2
  {
  }

  /** How the overtaking block stands to what is stored. */
  ghost predicate LastStands(blocks: map<Hash, Block>) {
    && OfRun(blocks) && MayCome(blocks, OVERTAKING) && OVERTAKING !in blocks
    && Pruned(blocks, BlockOf(OVERTAKING)) == blocks
    && RunsOut(blocks, BlockOf(TIP), BlockOf(OVERTAKING))
    && EndOfWalk(blocks, BlockOf(TIP), BlockOf(OVERTAKING)) == INTERVAL - 1
  }

  lemma StandsIf(blocks: map<Hash, Block>)
    requires OfRun(blocks) && Linked(blocks) && LinkedTo(blocks, BlockOf(OVERTAKING)) && LinesAre(blocks)
    requires OVERTAKING !in blocks && Parent(OVERTAKING) in blocks
    ensures LastStands(blocks)
  {
    assert Height(OVERTAKING) % INTERVAL != 0;
    hide Linked, LinkedTo, Ancestry, OfRun, Pruned, BlockOf, Parent, LinesAre, Height;
    NoPruning(blocks, OVERTAKING);
    LinesRunOut(blocks);
    hide RunsOut, EndOfWalk;
  }

  lemma LastIs()
    ensures LastStands(LastBlocks())
  {
    LastStored();
    LastLines();
    hide LastBlocks, Linked, LinkedTo, OfRun, BlockOf, Parent, LinesAre, LastStands;
    StandsIf(LastBlocks());
  }

  lemma Overtakes(s: State)
    requires StateOfRun(s, TIP) && LastStands(s.blocks) && s.estimatedHeight == Height(TIP)
    ensures s.Usable() && Judge(PARAMS, s, Relayed(OVERTAKING)) == Reorganised
    ensures Settle(PARAMS, s, Relayed(OVERTAKING)).lastBlock == BlockOf(OVERTAKING)
  {
    hide Linked, Pruned, Judge, Settle, State.Usable, OfRun, Ancestry, JoinOf, MayCome, RunsOut, EndOfWalk, LinkedTo;
    Allowed(s, TIP, OVERTAKING);
    NoNewFalls(s.blocks);
    assert Height(OVERTAKING) == 2 * INTERVAL + 1 && Height(TIP) == 2 * INTERVAL;
    SettledAs(s, TIP, OVERTAKING, Reorganised);
  }

  lemma LastVerdict()
    ensures StateAt(LENGTH - 1).Usable()
    ensures Judge(PARAMS, StateAt(LENGTH - 1), RelayAt(LENGTH - 1)) == Reorganised
    ensures Settle(PARAMS, StateAt(LENGTH - 1), RelayAt(LENGTH - 1)).lastBlock == BlockOf(OVERTAKING)
  {
    StateIsOfRun(LENGTH - 1);
    LastIs();
    hide BlocksAt, StateOfRun, LastStands, Judge, Settle, State.Usable;
    Overtakes(StateAt(LENGTH - 1));
  }

  ///////////////////////////////// The run /////////////////////////////////

  /** The transaction pays the wallet. It is unconfirmed, and confirmed by the first block relayed. */
  function TxAt(i: nat): Tx {
    Tx(TX, [], [Output("mine", 10000, 25)], 0, if i == 0 then TX_UNCONFIRMED else 1, if i == 0 then 0 else 10)
  }

  function EnvAt(i: nat): Env {
    Env(map[TX := TxAt(i)], {"mine"}, 0, 0)
  }

  ghost function MomentAt(i: nat): Moment {
    Moment(if i == LENGTH then EndState() else StateAt(i), EnvAt(i), [TX], if i == 0 then {} else {(3, TX)})
  }

  ghost function EndState(): State {
    LastVerdict();
    Settle(PARAMS, StateAt(LENGTH - 1), RelayAt(LENGTH - 1))
  }

  lemma TxConcerns()
    ensures Wallet.Concerns(EnvAt(0).allTx, EnvAt(0).allAddrs, TxAt(0))
  {
    assert TxAt(0).outputs[0].address in EnvAt(0).allAddrs;
  }

  lemma RecordsOne(env: Env, tx: Tx, height: nat, timestamp: nat)
    requires env.allTx == map[TX := tx] && Wallet.Concerns(env.allTx, env.allAddrs, tx)
    ensures Wallet.Recorded(env, {TX}, height, timestamp) ==
            map[TX := tx.(blockHeight := height, timestamp := timestamp)]
  {
    hide Wallet.Concerns;
  }

  lemma FirstRecords()
    ensures Matched(EnvAt(0), BlockOf(3), BlockOf(1)) == EnvAt(1).allTx
  {
    hide Wallet.Concerns, Wallet.Recorded, Wallet.SetOf, TxTime, BlockOf, TxAt;
    TxConcerns();
    RecordsOne(EnvAt(0), TxAt(0), 1, 10);
    FirstMatch();
  }

  lemma FirstMatch()
    ensures Wallet.SetOf(BlockOf(3).txHashes) == {TX} && BlockOf(3).height == 1 && TxTime(BlockOf(3), BlockOf(1)) == 10
    ensures TxAt(1) == TxAt(0).(blockHeight := 1, timestamp := 10)
  {
    assert BlockOf(3).txHashes == [TX];
  }

  lemma OthersRecordNothing(env: Env, h: Hash, parent: Block)
    requires h != 3
    ensures Matched(env, BlockOf(h), parent) == env.allTx
  {
    assert Wallet.SetOf(BlockOf(h).txHashes) == {};
    Wallet.RecordedNone(env, BlockOf(h).height, TxTime(BlockOf(h), parent));
    hide Wallet.Recorded, Wallet.SetOf;
  }

  lemma SightingsAre(i: nat)
    ensures Sightings(RelayAt(i).block) == if i == 0 then {(3, TX)} else {}
  {
  }

  lemma MatchesAre(i: nat, parent: Block)
    requires i < LENGTH - 1 && (i == 0 ==> parent == BlockOf(1))
    ensures Matched(EnvAt(i), BlockOf(HashAt(i)), parent) == EnvAt(i + 1).allTx
  {
    if i == 0 {
      FirstRecords();
    } else {
      hide Matched;
      OthersRecordNothing(EnvAt(i), HashAt(i), parent);
    }
  }

  /** What the wallet learns before the last step. */
  lemma Learns(i: nat)
    requires i < LENGTH - 1
    ensures StateAt(i).Usable() && Judge(PARAMS, StateAt(i), RelayAt(i)) != Crashed
    ensures PeerManager.TxAfter(PARAMS, StateAt(i), RelayAt(i), EnvAt(i), [TX]) == EnvAt(i + 1).allTx
  {
    Verdicts(i);
    LineStored(i);
    PlacedOf(BlocksAt(i), HashAt(i));
    hide BlocksAt, Linked, LinkedTo, Pruned, Judge, Settle, State.Usable, Ancestry, Matched, HashAt, OfRun;
    TxAllowedAfter(PARAMS, StateAt(i), RelayAt(i), EnvAt(i), [TX]);
    var kept := Pruned(BlocksAt(i), BlockOf(HashAt(i)));
    PrunedPart(BlocksAt(i), BlockOf(HashAt(i)));
    hide PeerManager.TxAfter, JoinOf, Followed, EnvAt;
    if i < 2 * INTERVAL {
      FirstParent(BlocksAt(i), kept, i);
      MatchesAre(i, kept[BlockOf(HashAt(i)).prevBlock]);
    } else {
      SameEnv(i);
    }
  }

  lemma FirstParent(blocks: map<Hash, Block>, kept: map<Hash, Block>, i: nat)
    requires OfRun(blocks) && forall h :: h in kept ==> h in blocks && kept[h] == blocks[h]
    requires BlockOf(HashAt(i)).prevBlock in kept
    ensures i == 0 ==> kept[BlockOf(HashAt(i)).prevBlock] == BlockOf(1)
  {
  }

  lemma SameEnv(i: nat)
    requires i > 0
    ensures EnvAt(i) == EnvAt(i + 1)
  {
  }

  /** In the last step the wallet goes back to the end of the walk, which is above the transaction. */
  lemma LastLearns()
    ensures StateAt(LENGTH - 1).Usable() && Judge(PARAMS, StateAt(LENGTH - 1), RelayAt(LENGTH - 1)) != Crashed
    ensures PeerManager.TxAfter(PARAMS, StateAt(LENGTH - 1), RelayAt(LENGTH - 1), EnvAt(1), [TX]) == EnvAt(1).allTx
  {
    LastVerdict();
    StateIsOfRun(LENGTH - 1);
    LastIs();
    hide BlocksAt, StateOfRun, LastStands, Judge, Settle, State.Usable, PeerManager.TxAfter, EnvAt;
    LearnsNothing(StateAt(LENGTH - 1));
  }

  lemma LearnsNothing(s: State)
    requires StateOfRun(s, TIP) && LastStands(s.blocks) && s.Usable()
    requires Judge(PARAMS, s, Relayed(OVERTAKING)) == Reorganised
    ensures PeerManager.TxAfter(PARAMS, s, Relayed(OVERTAKING), EnvAt(1), [TX]) == EnvAt(1).allTx
  {
    hide Linked, LinkedTo, Pruned, Judge, Settle, State.Usable, Ancestry, OfRun, MayCome, EnvAt, JoinOf;
    MayComeParent(s.blocks);
    PlacedOf(s.blocks, OVERTAKING);
    TxAllowedAfter(PARAMS, s, Relayed(OVERTAKING), EnvAt(1), [TX]);
    hide PeerManager.TxAfter;
    LowStays(INTERVAL - 1);
  }

  lemma MayComeParent(blocks: map<Hash, Block>)
    requires MayCome(blocks, OVERTAKING)
    ensures Parent(OVERTAKING) in blocks
  {
  }

  lemma LowStays(height: nat)
    requires height > 0
    ensures Wallet.RolledBack(EnvAt(1).allTx, [TX], height) == EnvAt(1).allTx
  {
  }

  ghost function Moments(): seq<Moment> {
    seq(LENGTH + 1, i requires 0 <= i => MomentAt(i))
  }

  function Relays(): seq<Option<Relay>> {
    seq(LENGTH, i requires 0 <= i => Some(RelayAt(i)))
  }

  lemma StepAt(i: nat)
    requires i < LENGTH
    ensures RelayStep(PARAMS, MomentAt(i), RelayAt(i), MomentAt(i + 1))
  {
    SightingsAre(i);
    hide BlocksAt, Judge, Settle, State.Usable, PeerManager.TxAfter, Sightings, StateAt, RelayAt, EnvAt;
    if i < LENGTH - 1 {
      Verdicts(i);
      Learns(i);
    } else {
      LastVerdict();
      LastLearns();
      EnvStays();
    }
  }

  lemma EnvStays()
    ensures EnvAt(LENGTH - 1) == EnvAt(LENGTH) == EnvAt(1)
  {
  }

  lemma StartIsSane()
    ensures RootedParams(Height, PARAMS) && Sane(Height, Parent, PARAMS, MomentAt(0))
    ensures MomentAt(0).state == State(map[1 := BlockOf(1)], map[], BlockOf(1), None, 0)
  {
    FirstStored();
    RunIsWell(BlocksAt(0));
    NothingMatched();
    RootIsGiven();
    hide BlocksAt, StoredWell, LinksAre, SeenStored, NoneAbove, RootedParams, OfRun, Linked, LinkedTo, LinkIs;
  }

  lemma FirstStored()
    ensures OfRun(BlocksAt(0)) && BlocksAt(0) == map[1 := BlockOf(1)] && LastAt(0) == 1
    ensures NoneAbove(PARAMS, BlocksAt(0), BlockOf(1))
  {
    BlocksAre(0);
    assert BlocksAt(0) == map[1 := BlockOf(1)];
    hide BlocksAt, IsCheckpoint;
  }

  /** A manager created without saved blocks is in the state that the run starts from. */
  method NewManager(wallet: Wallet.BRWallet) returns (manager: PeerManager.BRPeerManager)
    ensures fresh(manager) && manager.Valid() && manager.params == PARAMS && manager.th == Height
    ensures manager.TheState() == MomentAt(0).state
  {
    RootIsGiven();
    manager := new PeerManager.BRPeerManager(PARAMS, wallet, [], Height);
    StartIsSane();
    StartIsStored(manager.blocks, manager.lastBlock);
    hide MomentAt, Sane, RootedParams, ValidState;
  }

  lemma StartIsStored(blocks: map<Hash, Block>, last: Block)
    requires PeerManager.StoredFrom(blocks, PARAMS.checkpoints)
    ensures blocks == map[1 := BlockOf(1)]
    ensures PeerManager.StartCheckpoint(PARAMS, |PARAMS.checkpoints|) == BlockOf(1)
  {
    assert BlockOf(1) in PARAMS.checkpoints;
  }

  lemma NothingMatched()
    ensures SeenStored({}, map[1 := BlockOf(1)]) && Sightings(BlockOf(1)) == {}
  {
  }

  lemma RootIsGiven()
    ensures RootedParams(Height, PARAMS)
  {
  }

  lemma RelayablesAre(i: nat)
    requires i < LENGTH
    ensures Relayable(Height, RelayAt(i).block) && LinkIs(Parent, RelayAt(i).block)
  {
  }

  lemma RunIsHistory()
    ensures IsHistory(PARAMS, Moments(), Relays()) && AllRelayable(Height, Parent, Relays())
  {
    hide MomentAt, RelayAt, RelayStep, Relayable, LinkIs;
    forall i: nat | i < LENGTH
      ensures IsStepOf(PARAMS, Moments()[i], Relays()[i], Moments()[i + 1])
      ensures Relayable(Height, Relays()[i].value.block) && LinkIs(Parent, Relays()[i].value.block)
    {
      StepAt(i);
      RelayablesAre(i);
    }
  }

  /** No reorganisation happens before the last step. */
  lemma SparedBefore()
    ensures AllSpared(Parent, PARAMS, Moments(), Relays(), LENGTH - 1)
  {
    hide BlocksAt, RelayAt, Judge, SparedHere, State.Usable;
    forall k: nat | k < LENGTH - 1 ensures Spares(Parent, PARAMS, EnvAt(0).allTx, Moments()[k], Relays()[k].value) {
      Verdicts(k);
    }
  }

  /** From a new manager for which nothing was saved, and a wallet with one unconfirmed transaction, through blocks
      whose chains all share the first block: up to the last step everything is in step, and then the transaction is
      confirmed at height 1 by a block that is not on the chain of the last block. */
  lemma RunOutOfStep()
    ensures RootedParams(Height, PARAMS) && Sane(Height, Parent, PARAMS, MomentAt(0))
    ensures IsHistory(PARAMS, Moments(), Relays()) && AllRelayable(Height, Parent, Relays())
    ensures MomentAt(0).state == State(map[1 := BlockOf(1)], map[], BlockOf(1), None, 0) && TxAt(0).Unconfirmed()
    ensures InStepUpTo(Parent, Moments(), LENGTH - 1)
    ensures var m := MomentAt(LENGTH);
            && !AllFit(Parent, EnvAt(0).allTx, m) && m.env.allTx[TX].blockHeight == 1 && m.seen == {(3, TX)}
            && m.state.lastBlock.hash == OVERTAKING && Back(Parent, OVERTAKING, 2 * INTERVAL) == 2
  {
    StartIsSane();
    RunIsHistory();
    SparedBefore();
    LastVerdict();
    EndIsOut();
    hide Sane, IsHistory, AllRelayable, RootedParams, AllFit, StateAt, AllSpared;
    EveryRunInStepIff(Height, Parent, PARAMS, Moments(), Relays(), LENGTH - 1);
  }

  /** The chain of the overtaking block has the first block of the fork at height 1. */
  lemma TxIsOut()
    ensures Back(Parent, OVERTAKING, 2 * INTERVAL) == 2
    ensures !Fits(Parent, {(3, TX)}, BlockOf(OVERTAKING), EnvAt(0).allTx, TxAt(LENGTH), TX)
  {
    BackIs(OVERTAKING, 2 * INTERVAL);
    assert Up(OVERTAKING, 2 * INTERVAL) == 2;
    assert BlockOf(OVERTAKING).height - TxAt(LENGTH).blockHeight == 2 * INTERVAL;
    hide Back;
  }

  lemma EndIsOut()
    ensures MomentAt(LENGTH).state.lastBlock.hash == OVERTAKING && Back(Parent, OVERTAKING, 2 * INTERVAL) == 2
    ensures !AllFit(Parent, EnvAt(0).allTx, MomentAt(LENGTH))
  {
    LastVerdict();
    TxIsOut();
    hide Judge, Settle, StateAt, Back, Fits, TxAt, State.Usable, RelayAt;
    assert MomentAt(LENGTH).env.allTx[TX] == TxAt(LENGTH);
  }
}
