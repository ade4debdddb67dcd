/** The wallet and the main chain over whole runs: what confirms a transaction stays in the chain of the last block. */
module InStep {
  import opened Options
  import opened Transaction
  import opened Ledger
  import opened Chain
  import opened Reorg
  import PeerManager
  import Wallet

  /** The parent of a block, as its header gives it. */
  type Links = Hash -> Hash

  /** The block n below a block. */
  ghost function Back(parent: Links, h: Hash, n: nat): Hash
    decreases n
  {
    if n == 0 then h else Back(parent, parent(h), n - 1)
  }

  lemma {:induction false} BackAdds(parent: Links, h: Hash, m: nat, n: nat)
    ensures Back(parent, Back(parent, h, m), n) == Back(parent, h, m + n)
    decreases m
  {
    if m > 0 {
      BackAdds(parent, parent(h), m - 1, n);
    }
  }

  predicate LinkIs(parent: Links, b: Block) {
    b.prevBlock == ZERO || b.prevBlock == parent(b.hash)
  }

  ghost predicate LinksAre(parent: Links, blocks: map<Hash, Block>) {
    ZERO !in blocks && forall h :: h in blocks ==> blocks[h].hash == h && LinkIs(parent, blocks[h])
  }

  /** A line of stored ancestors is a chain of headers. */
  lemma {:induction false} LineGoesBack(parent: Links, blocks: map<Hash, Block>, b: Block, i: nat)
    requires Linked(blocks) && LinkedTo(blocks, b) && LinksAre(parent, blocks) && LinkIs(parent, b)
    requires i < |Ancestry(blocks, b)|
    ensures Ancestry(blocks, b)[i].hash == Back(parent, b.hash, i) && Ancestry(blocks, b)[i].height == b.height - i
    decreases i
  {
    if i > 0 {
      LineGoesBack(parent, blocks, blocks[b.prevBlock], i - 1);
    }
  }

  /** A block and a transaction that some relayed copy of it matched. */
  type Sighting = (Hash, Hash)

  function Sightings(b: Block): set<Sighting> {
    set h | h in b.txHashes :: (b.hash, h)
  }

  /** The transaction is confirmed at a height of the last block's chain, by a block there that matched it. */
  ghost predicate Confirmed(parent: Links, seen: set<Sighting>, last: Block, tx: Tx, h: Hash) {
    tx.blockHeight <= last.height && (Back(parent, last.hash, last.height - tx.blockHeight), h) in seen
  }

  /** The transaction is unconfirmed, or as it was at the start, or confirmed by the chain. */
  ghost predicate Fits(parent: Links, seen: set<Sighting>, last: Block, start: map<Hash, Tx>, tx: Tx, h: Hash) {
    tx.Unconfirmed() || (h in start && tx == start[h]) || Confirmed(parent, seen, last, tx, h)
  }

  /** The manager, the wallet's view, its list, and what has been seen so far. */
  datatype Moment = Moment(state: State, env: Env, order: seq<Hash>, seen: set<Sighting>)

  ghost predicate SeenStored(seen: set<Sighting>, blocks: map<Hash, Block>) {
    forall g :: g in blocks ==> Sightings(blocks[g]) <= seen
  }

  ghost predicate Sane(th: Heights, parent: Links, p: Params, m: Moment) {
    && ValidState(th, p, m.state) && LinksAre(parent, m.state.blocks) && SeenStored(m.seen, m.state.blocks)
  }

  /** Every listed transaction fits the main chain. */
  ghost predicate AllFit(parent: Links, start: map<Hash, Tx>, m: Moment) {
    forall h :: h in m.order && h in m.env.allTx ==> Fits(parent, m.seen, m.state.lastBlock, start, m.env.allTx[h], h)
  }

  ///////////////////////////////// What may become of one transaction /////////////////////////////////

  /** A block of the line above place n matched the transaction, and gave it its height. */
  predicate GivenBy(line: seq<Block>, n: nat, tx: Tx, h: Hash) {
    exists i :: 0 <= i < n && i < |line| && h in line[i].txHashes && tx.blockHeight == line[i].height
  }

  lemma {:induction false} ReplayedFrom(env: Env, line: seq<Block>, n: nat, h: Hash)
    requires n < |line| && h in Replayed(env, line, n)
    ensures h in env.allTx
    ensures Replayed(env, line, n)[h] == env.allTx[h] || GivenBy(line, n, Replayed(env, line, n)[h], h)
  {
    hide Wallet.Forgotten;
    if n > 0 {
      var was, b := Replayed(env, line, n - 1), line[n - 1];
      assert h in was;
      ReplayedFrom(env, line, n - 1, h);
      assert h in Wallet.SetOf(b.txHashes) <==> h in b.txHashes;
    }
  }

  /** After a reorganisation whose chains meet a listed transaction is unconfirmed, as before at or below the join, or
      has the height of a block above the join that matched it. */
  lemma FollowedFrom(env: Env, order: seq<Hash>, line: seq<Block>, join: Join, h: Hash)
    requires line != [] && join.Meets? && 0 <= line[0].height - join.at.height < |line|
    requires h in order && h in Followed(env, order, line, join)
    ensures var tx := Followed(env, order, line, join)[h];
            && h in env.allTx
            && (tx.Unconfirmed() || (tx == env.allTx[h] && tx.blockHeight <= join.at.height)
                || GivenBy(line, line[0].height - join.at.height, tx, h))
  {
    hide Replayed, GivenBy;
    var back := Wallet.RolledBack(env.allTx, order, join.at.height);
    ReplayedFrom(env.(allTx := back), line, line[0].height - join.at.height, h);
  }

  ///////////////////////////////// One relayed block /////////////////////////////////

  /** What fits the last block fits a block whose chain passes through it. */
  lemma FitsOn(parent: Links, seen: set<Sighting>, last: Block, now: Block, tx: Tx, h: Hash)
    requires Confirmed(parent, seen, last, tx, h)
    requires now.height >= last.height && Back(parent, now.hash, now.height - last.height) == last.hash
    ensures Confirmed(parent, seen, now, tx, h)
  {
    BackAdds(parent, now.hash, now.height - last.height, last.height - tx.blockHeight);
  }

  /** A transaction matched by a block of the last block's stored line is confirmed by the chain. */
  lemma MatchedOnLine(parent: Links, seen: set<Sighting>, blocks: map<Hash, Block>, last: Block, i: nat, g: Hash,
                      tx: Tx, h: Hash)
    requires Linked(blocks) && LinkedTo(blocks, last) && LinksAre(parent, blocks) && LinkIs(parent, last)
    requires i < |Ancestry(blocks, last)| && Ancestry(blocks, last)[i].hash == g
    requires tx.blockHeight == Ancestry(blocks, last)[i].height && (g, h) in seen
    ensures Confirmed(parent, seen, last, tx, h)
  {
    hide Ancestry;
    LineGoesBack(parent, blocks, last, i);
  }

  lemma StoredSeen(seen: set<Sighting>, blocks: map<Hash, Block>, g: Hash, h: Hash)
    requires SeenStored(seen, blocks) && g in blocks && blocks[g].hash == g && h in blocks[g].txHashes
    ensures (g, h) in seen
  {
    assert (g, h) in Sightings(blocks[g]);
  }

  /** A transaction that a block of the new line gave its height. */
  lemma GivenFits(parent: Links, seen: set<Sighting>, blocks: map<Hash, Block>, b: Block, n: nat, tx: Tx, h: Hash)
    requires Linked(blocks) && LinkedTo(blocks, b) && LinksAre(parent, blocks) && LinkIs(parent, b)
    requires SeenStored(seen, blocks) && Sightings(b) <= seen && GivenBy(Ancestry(blocks, b), n, tx, h)
    ensures Confirmed(parent, seen, b, tx, h)
  {
    hide Ancestry, SeenStored;
    var line := Ancestry(blocks, b);
    var i :| 0 <= i < n && i < |line| && h in line[i].txHashes && tx.blockHeight == line[i].height;
    LineStarts(blocks, b);
    if i == 0 {
      assert (b.hash, h) in Sightings(b);
    } else {
      AncestorIs(blocks, b, i);
      StoredSeen(seen, blocks, line[i].hash, h);
    }
    MatchedOnLine(parent, seen, blocks, b, i, line[i].hash, tx, h);
  }

  lemma LineStarts(blocks: map<Hash, Block>, b: Block)
    requires Linked(blocks) && LinkedTo(blocks, b)
    ensures |Ancestry(blocks, b)| > 0 && Ancestry(blocks, b)[0] == b
  {
  }

  /** What is confirmed at or below the join by the old chain is confirmed by the new one. */
  lemma JoinFits(parent: Links, seen: set<Sighting>, blocks: map<Hash, Block>, b: Block, last: Block, at: Block,
                 tx: Tx, h: Hash)
    requires Linked(blocks) && LinkedTo(blocks, b) && LinkedTo(blocks, last)
    requires LinksAre(parent, blocks) && LinkIs(parent, b) && LinkIs(parent, last)
    requires at in Ancestry(blocks, b) && at in Ancestry(blocks, last)
    requires Confirmed(parent, seen, last, tx, h) && tx.blockHeight <= at.height
    ensures Confirmed(parent, seen, b, tx, h)
  {
    hide Ancestry;
    var i :| 0 <= i < |Ancestry(blocks, b)| && Ancestry(blocks, b)[i] == at;
    var j :| 0 <= j < |Ancestry(blocks, last)| && Ancestry(blocks, last)[j] == at;
    LineGoesBack(parent, blocks, b, i);
    LineGoesBack(parent, blocks, last, j);
    BackAdds(parent, b.hash, i, at.height - tx.blockHeight);
    BackAdds(parent, last.hash, j, at.height - tx.blockHeight);
  }

  /** Taking note of the matches of a block of the main chain, or of one on top of it. */
  lemma MatchedFits(parent: Links, seen: set<Sighting>, start: map<Hash, Tx>, blocks: map<Hash, Block>, now: Block,
                    b: Block, i: nat, env: Env, prev: Block, h: Hash)
    requires Linked(blocks) && LinkedTo(blocks, now) && LinksAre(parent, blocks) && LinkIs(parent, now)
    requires i < |Ancestry(blocks, now)| && Ancestry(blocks, now)[i].hash == b.hash
    requires Ancestry(blocks, now)[i].height == b.height
    requires Sightings(b) <= seen && h in Matched(env, b, prev)
    requires h in env.allTx && Fits(parent, seen, now, start, env.allTx[h], h)
    ensures Fits(parent, seen, now, start, Matched(env, b, prev)[h], h)
  {
    hide Ancestry, Wallet.Forgotten, Linked, LinksAre;
    if h in b.txHashes {
      assert (b.hash, h) in Sightings(b);
      var tx := Matched(env, b, prev)[h];
      hide Confirmed;
      MatchedOnLine(parent, seen, blocks, now, i, b.hash, tx, h);
    }
  }

  lemma MatchedWasKnown(env: Env, b: Block, prev: Block, h: Hash)
    requires h in Matched(env, b, prev)
    ensures h in env.allTx
  {
  }

  /** On top of the last block. */
  lemma ExtendedFits(parent: Links, seen: set<Sighting>, start: map<Hash, Tx>, blocks: map<Hash, Block>, last: Block,
                     b: Block, env: Env, h: Hash)
    requires Linked(blocks) && LinkedTo(blocks, b) && LinksAre(parent, blocks) && LinkIs(parent, b)
    requires last.hash in blocks && blocks[last.hash] == last && b.prevBlock == last.hash && Sightings(b) <= seen
    requires h in env.allTx && Fits(parent, seen, last, start, env.allTx[h], h) && h in Matched(env, b, last)
    ensures Fits(parent, seen, b, start, Matched(env, b, last)[h], h)
  {
    assert Back(parent, b.hash, 1) == Back(parent, last.hash, 0);
    if Confirmed(parent, seen, last, env.allTx[h], h) {
      hide Confirmed, Linked;
      FitsOn(parent, seen, last, b, env.allTx[h], h);
    }
    LineStarts(blocks, b);
    hide Ancestry, Linked, Matched;
    MatchedFits(parent, seen, start, blocks, b, b, 0, env, last, h);
  }

  /** A reorganisation to a chain that meets the old one. */
  lemma ReorganisedFits(parent: Links, seen: set<Sighting>, start: map<Hash, Tx>, blocks: map<Hash, Block>, last: Block,
                        b: Block, join: Join, env: Env, order: seq<Hash>, h: Hash)
    requires Linked(blocks) && LinkedTo(blocks, b) && LinkedTo(blocks, last)
    requires LinksAre(parent, blocks) && LinkIs(parent, b) && LinkIs(parent, last)
    requires SeenStored(seen, blocks) && Sightings(b) <= seen && b.height > last.height
    requires var line := Ancestry(blocks, b);
             && line != [] && line[0] == b && join.Meets? && join.at in line && join.at in Ancestry(blocks, last)
             && 0 <= line[0].height - join.at.height < |line|
    requires h in order && h in Followed(env, order, Ancestry(blocks, b), join)
    requires h in env.allTx ==> Fits(parent, seen, last, start, env.allTx[h], h)
    ensures Fits(parent, seen, b, start, Followed(env, order, Ancestry(blocks, b), join)[h], h)
  {
    hide Ancestry, Followed, Linked, LinkedTo, SeenStored, LinksAre, Confirmed, GivenBy;
    var line := Ancestry(blocks, b);
    var tx, n := Followed(env, order, line, join)[h], line[0].height - join.at.height;
    FollowedFrom(env, order, line, join, h);
    if GivenBy(line, n, tx, h) {
      GivenFits(parent, seen, blocks, b, n, tx, h);
    } else if !tx.Unconfirmed() && Confirmed(parent, seen, last, env.allTx[h], h) {
      JoinFits(parent, seen, blocks, b, last, join.at, tx, h);
    }
  }

  lemma MeetsJoin(kept: map<Hash, Block>, b: Block, last: Block)
    requires Linked(kept) && LinkedTo(kept, b) && (b.hash in kept ==> kept[b.hash] == b)
    requires last.hash in kept && kept[last.hash] == last && b.height > last.height
    requires JoinOf(Ancestry(kept, b), Ancestry(kept, last)).Meets?
    ensures [b] <= Ancestry(kept, b) && [last] <= Ancestry(kept, last)
    ensures var line, join := Ancestry(kept, b), JoinOf(Ancestry(kept, b), Ancestry(kept, last));
            && join.Meets? && join.at in line && join.at in Ancestry(kept, last)
            && 0 <= line[0].height - join.at.height < |line|
  {
    hide Ancestry, InBoth, SameHeights, JoinOf;
    StoredSameHeights(kept, b, last);
    var line, main := Ancestry(kept, b), Ancestry(kept, last);
    var k := SharedMeets(line, main);
    JoinPlace(line, main);
    SharedIsOne(kept, b, last, line[0].height - main[0].height + k, k);
  }

  /** Two lines meet at a block of the first whose hash is in the other. */
  lemma SharedMeets(line: seq<Block>, main: seq<Block>) returns (k: nat)
    requires Falling(line) && Falling(main) && SameHeights(line, main) && line[0].height > main[0].height
    requires JoinOf(line, main).Meets?
    ensures k < |main| && line[0].height - main[0].height + k < |line|
    ensures JoinOf(line, main).at == line[line[0].height - main[0].height + k]
    ensures line[line[0].height - main[0].height + k].hash == main[k].hash
  {
    var lead, r := line[0].height - main[0].height, JoinOf(line, main);
    LeadWithin(line, main);
    JoinFromIsFirst(line, main, lead, 0);
    k :| FirstAt(line, main, lead, 0, k) && r.at == line[lead + k];
  }

  /** Lines that are compared at all are compared from a place of the first on. */
  lemma LeadWithin(line: seq<Block>, main: seq<Block>)
    requires line != [] && main != [] && line[0].height > main[0].height && !JoinOf(line, main).NewFallsShort?
    ensures line[0].height - main[0].height < |line|
  {
  }

  /** A block that has the same hash in both lines is the same stored block. */
  lemma SharedIsOne(kept: map<Hash, Block>, b: Block, last: Block, i: nat, j: nat)
    requires Linked(kept) && LinkedTo(kept, b) && last.hash in kept && kept[last.hash] == last
    requires 0 < i < |Ancestry(kept, b)| && j < |Ancestry(kept, last)|
    requires Ancestry(kept, b)[i].hash == Ancestry(kept, last)[j].hash
    ensures Ancestry(kept, b)[i] == Ancestry(kept, last)[j]
  {
    LineStarts(kept, last);
    hide Ancestry;
    AncestorIs(kept, b, i);
    if j > 0 {
      AncestorIs(kept, last, j);
    }
  }

  ///////////////////////////////// What the blocks allowed do /////////////////////////////////

  /** How a block that its predecessors allow stands to what is stored. */
  ghost predicate Standing(kept: map<Hash, Block>, last: Block, b: Block, v: Verdict) {
    && Linked(kept) && LinkedTo(kept, b) && last.hash in kept && kept[last.hash] == last && b.prevBlock in kept
    && (b.hash in kept ==> kept[b.hash].height == b.height)
    && (v == Extended ==> b.prevBlock == last.hash)
    && (v == Known ==> b.hash in kept)
    && (v == Reorganised ==> b.hash !in kept && b.height > last.height)
  }

  /** The main chain's block of the same hash is as high. */
  lemma OnMainAt(kept: map<Hash, Block>, last: Block, b: Block, i: nat)
    requires Standing(kept, last, b, Known) && i < |Ancestry(kept, last)| && Ancestry(kept, last)[i].hash == b.hash
    ensures Ancestry(kept, last)[i].height == b.height
  {
    LineStarts(kept, last);
    hide Ancestry;
    if i > 0 {
      AncestorIs(kept, last, i);
    }
  }

  lemma KnownFits(parent: Links, seen: set<Sighting>, start: map<Hash, Tx>, kept: map<Hash, Block>, last: Block,
                  b: Block, env: Env, h: Hash)
    requires Standing(kept, last, b, Known) && LinksAre(parent, kept) && Sightings(b) <= seen
    requires OnMain(kept, last, b.hash) && h in Matched(env, b, kept[b.prevBlock])
    requires h in env.allTx && Fits(parent, seen, last, start, env.allTx[h], h)
    ensures Fits(parent, seen, last, start, Matched(env, b, kept[b.prevBlock])[h], h)
  {
    hide Ancestry, Matched, Fits;
    var i :| 0 <= i < |Ancestry(kept, last)| && Ancestry(kept, last)[i].hash == b.hash;
    OnMainAt(kept, last, b, i);
    MatchedFits(parent, seen, start, kept, last, b, i, env, kept[b.prevBlock], h);
  }

  lemma CopyFits(parent: Links, seen: set<Sighting>, start: map<Hash, Tx>, last: Block, b: Block, tx: Tx, h: Hash)
    requires Fits(parent, seen, last, start, tx, h) && b.hash == last.hash && b.height == last.height
    ensures Fits(parent, seen, b, start, tx, h)
  {
  }

  /** Whatever a block that its predecessors allow does, a listed transaction goes on fitting the last block. */
  lemma AllowedFits(parent: Links, seen: set<Sighting>, start: map<Hash, Tx>, kept: map<Hash, Block>, last: Block,
                    b: Block, v: Verdict, env: Env, order: seq<Hash>, h: Hash)
    requires Standing(kept, last, b, v) && LinksAre(parent, kept) && LinkIs(parent, b)
    requires SeenStored(seen, kept) && Sightings(b) <= seen
    requires v == Reorganised ==> JoinOf(Ancestry(kept, b), Ancestry(kept, last)).Meets?
    requires h in order && h in TxAllowed(kept, last, b, v, env, order)
    requires h in env.allTx ==> Fits(parent, seen, last, start, env.allTx[h], h)
    ensures h in env.allTx
    ensures Fits(parent, seen, if BecomesLast(last, b, v) then b else last, start,
                 TxAllowed(kept, last, b, v, env, order)[h], h)
  {
    var tx := TxAllowed(kept, last, b, v, env, order)[h];
    match v
    case Extended =>
      MatchedWasKnown(env, b, kept[b.prevBlock], h);
      hide Fits, Matched, Ancestry, Linked;
      ExtendedFits(parent, seen, start, kept, last, b, env, h);
    case Known =>
      if OnMain(kept, last, b.hash) {
        MatchedWasKnown(env, b, kept[b.prevBlock], h);
        hide Fits, Matched, Ancestry, Linked;
        KnownFits(parent, seen, start, kept, last, b, env, h);
      }
      if b.hash == last.hash {
        CopyFits(parent, seen, start, last, b, tx, h);
      }
    case Reorganised =>
      hide Fits, Followed, Ancestry, Linked;
      MeetsJoin(kept, b, last);
      var line, join := Ancestry(kept, b), JoinOf(Ancestry(kept, b), Ancestry(kept, last));
      FollowedFrom(env, order, line, join, h);
      ReorganisedFits(parent, seen, start, kept, last, b, join, env, order, h);
    case _ =>
  }

  ///////////////////////////////// Where the stored chains do not meet /////////////////////////////////

  /** The block at the height on the chain of the first of a line was seen to match the transaction. The line says which
      block that is, if it goes down that far. */
  ghost predicate MatchedAt(parent: Links, seen: set<Sighting>, line: seq<Block>, height: nat, h: Hash)
    requires line != [] && height <= line[0].height
  {
    var i := line[0].height - height;
    if i < |line| then (line[i].hash, h) in seen else (Back(parent, line[0].hash, i), h) in seen
  }

  /** When the old chain runs out of stored blocks above the given height, what is confirmed up to there is as at the
      start or matched on the new chain, too. */
  ghost predicate Spared(parent: Links, seen: set<Sighting>, start: map<Hash, Tx>, line: seq<Block>, height: nat,
                         tx: Tx, h: Hash)
    requires line != [] && height <= line[0].height
  {
    || tx.Unconfirmed() || tx.blockHeight > height || (h in start && tx == start[h])
    || MatchedAt(parent, seen, line, tx.blockHeight, h)
  }

  /** How the line of a new last block and that of the old one stand, if the old one runs out. */
  ghost predicate RunsOut(kept: map<Hash, Block>, last: Block, b: Block) {
    && Linked(kept) && LinkedTo(kept, b) && LinkedTo(kept, last) && b.height > last.height
    && var line, main := Ancestry(kept, b), Ancestry(kept, last);
       JoinOf(line, main).OldFallsShort? && line[0] == b && JoinOf(line, main).at.height <= b.height
  }

  /** The height of the block of the new chain at which the walk back ended. */
  ghost function EndOfWalk(kept: map<Hash, Block>, last: Block, b: Block): nat
    requires RunsOut(kept, last, b)
  {
    JoinOf(Ancestry(kept, b), Ancestry(kept, last)).at.height
  }

  lemma RunsOutIf(kept: map<Hash, Block>, last: Block, b: Block)
    requires Linked(kept) && LinkedTo(kept, b) && LinkedTo(kept, last) && b.height > last.height
    requires JoinOf(Ancestry(kept, b), Ancestry(kept, last)).OldFallsShort?
    ensures RunsOut(kept, last, b)
  {
    AncestryIs(kept, b);
    LineStarts(kept, b);
    LineStarts(kept, last);
    hide Ancestry, Linked, LinkedTo;
    var line, main := Ancestry(kept, b), Ancestry(kept, last);
    LeadWithin(line, main);
    JoinFromIsFirst(line, main, line[0].height - main[0].height, 0);
  }

  ghost predicate SparedHere(parent: Links, seen: set<Sighting>, start: map<Hash, Tx>, kept: map<Hash, Block>,
                             last: Block, b: Block, tx: Tx, h: Hash)
  {
    RunsOut(kept, last, b) ==> Spared(parent, seen, start, Ancestry(kept, b), EndOfWalk(kept, last, b), tx, h)
  }

  /** A block is where the line of stored ancestors says, or the header chain. */
  lemma MatchedIsConfirmed(parent: Links, seen: set<Sighting>, kept: map<Hash, Block>, b: Block, tx: Tx, h: Hash)
    requires Linked(kept) && LinkedTo(kept, b) && LinksAre(parent, kept)
    requires LinkIs(parent, b) && tx.blockHeight <= b.height
    ensures Ancestry(kept, b) != [] && Ancestry(kept, b)[0] == b
    ensures MatchedAt(parent, seen, Ancestry(kept, b), tx.blockHeight, h) <==> Confirmed(parent, seen, b, tx, h)
  {
    LineStarts(kept, b);
    hide Ancestry, Back;
    var i := b.height - tx.blockHeight;
    if i < |Ancestry(kept, b)| {
      LineGoesBack(parent, kept, b, i);
    }
  }

  /** When the old chain runs out of stored blocks, a transaction goes on fitting if and only if it is above the place
      where the walk back ended, or as it was at the start, or the block that the new chain has at its height was
      seen to match it. */
  lemma GapFitsIff(parent: Links, seen: set<Sighting>, start: map<Hash, Tx>, kept: map<Hash, Block>, last: Block,
                   b: Block, env: Env, order: seq<Hash>, h: Hash)
    requires RunsOut(kept, last, b) && LinksAre(parent, kept) && LinkIs(parent, b) && h in order && h in env.allTx
    ensures var line, join := Ancestry(kept, b), JoinOf(Ancestry(kept, b), Ancestry(kept, last));
            Fits(parent, seen, b, start, Followed(env, order, line, join)[h], h) <==>
              Spared(parent, seen, start, line, EndOfWalk(kept, last, b), env.allTx[h], h)
  {
    var tx := env.allTx[h];
    hide Ancestry, JoinOf, Confirmed, MatchedAt, Linked, LinksAre, LinkIs;
    if tx.blockHeight <= b.height {
      MatchedIsConfirmed(parent, seen, kept, b, tx, h);
    }
  }

  ///////////////////////////////// What is matched is recorded /////////////////////////////////

  /** Of a wallet transaction that a relayed block matches, the height and time are recorded, if the block has become
      the last one on top of the old last one; and nothing else changes. */
  lemma MatchesAreRecorded(p: Params, s: State, r: Relay, env: Env, order: seq<Hash>, h: Hash)
    requires s.Usable() && p.checkpoints != [] && Judge(p, s, r) != Crashed
    requires var b := Placed(s.blocks, r.block);
             Settle(p, s, r).lastBlock == b && b != s.lastBlock && b.prevBlock == s.lastBlock.hash
    requires OfConcern(env.allTx, env.allAddrs, h)
    ensures var b, after := Placed(s.blocks, r.block), PeerManager.TxAfter(p, s, r, env, order);
            && h in after
            && after[h] == if h in b.txHashes
                           then env.allTx[h].(blockHeight := b.height,
                                              timestamp := b.timestamp / 2 + s.lastBlock.timestamp / 2)
                           else env.allTx[h]
  {
    var b := Placed(s.blocks, r.block);
    PrunedPart(s.blocks, b);
    RecordedOne(env, Wallet.SetOf(b.txHashes), b.height, TxTime(b, s.lastBlock), h);
    TopExtends(p, s, r);
    TxAllowedAfter(p, s, r, env, order);
    hide Judge, Settle, Pruned, Wallet.Recorded, Wallet.Concerns, PeerManager.TxAfter, Ancestry, JoinOf, Linked;
  }

  lemma TopExtends(p: Params, s: State, r: Relay)
    requires s.Usable() && p.checkpoints != []
    requires var b := Placed(s.blocks, r.block);
             Settle(p, s, r).lastBlock == b && b != s.lastBlock && b.prevBlock == s.lastBlock.hash
    ensures Judge(p, s, r) == Extended
  {
    hide BlocksAfter, Accepts, Ancestry, JoinOf, Bottom, Pruned;
  }

  /** The same for a stored block of the main chain that is relayed again; one of a fork, or a block that is not
      stored and does not become the last one, changes nothing. */
  lemma OtherMatches(p: Params, s: State, r: Relay, env: Env, order: seq<Hash>, h: Hash)
    requires s.Usable() && p.checkpoints != [] && Judge(p, s, r) !in {Crashed, Extended, Reorganised}
    requires OfConcern(env.allTx, env.allAddrs, h)
    ensures var b, after := Placed(s.blocks, r.block), PeerManager.TxAfter(p, s, r, env, order);
            && h in after
            && if Judge(p, s, r) == Known && h in b.txHashes && OnStoredMain(s, b)
               then after[h].blockHeight == b.height else after[h] == env.allTx[h]
  {
    var b := Placed(s.blocks, r.block);
    if Judge(p, s, r) !in {Ignored, Orphaned, Invalid} {
      TxAllowedAfter(p, s, r, env, order);
      var kept := Pruned(s.blocks, b);
      RecordedOne(env, Wallet.SetOf(b.txHashes), b.height, TxTime(b, kept[b.prevBlock]), h);
    }
    hide Judge, Pruned, Wallet.Recorded, Wallet.Concerns, PeerManager.TxAfter, Ancestry, JoinOf, Linked;
  }

  /** The block is one of the last block's stored line, once the old blocks have been freed. */
  ghost predicate OnStoredMain(s: State, b: Block)
    requires s.Usable()
  {
    && LinkedTo(s.blocks, b) && Linked(Pruned(s.blocks, b)) && LinkedTo(Pruned(s.blocks, b), s.lastBlock)
    && OnMain(Pruned(s.blocks, b), s.lastBlock, b.hash)
  }

  ///////////////////////////////// Runs /////////////////////////////////

  /** A block is relayed, and the wallet learns from it what the specification says. */
  ghost predicate RelayStep(p: Params, m: Moment, r: Relay, n: Moment) {
    && p.checkpoints != [] && m.state.Usable() && Judge(p, m.state, r) != Crashed
    && n.state == Settle(p, m.state, r) && n.seen == m.seen + Sightings(r.block)
    && n.env.allTx == PeerManager.TxAfter(p, m.state, r, m.env, m.order) && Wallet.SameMembers(n.order, m.order)
  }

  /** The wallet adds unconfirmed transactions to its list or removes some. */
  ghost predicate WalletStep(m: Moment, n: Moment) {
    && n.state == m.state && n.seen == m.seen
    && forall h :: h in n.order && h in n.env.allTx ==>
         n.env.allTx[h].Unconfirmed() || (h in m.order && h in m.env.allTx && n.env.allTx[h] == m.env.allTx[h])
  }

  lemma StandsFirm(th: Heights, p: Params, s: State, r: Relay)
    requires RootedParams(th, p) && ValidState(th, p, s) && Relayable(th, r.block) && s.Usable()
    requires Judge(p, s, r) !in {Ignored, Orphaned, Invalid, Crashed}
    ensures var b := Placed(s.blocks, r.block);
            LinkedTo(s.blocks, b) && Standing(Pruned(s.blocks, b), s.lastBlock, b, Judge(p, s, r))
  {
    WellIsLinked(th, s.blocks);
    PlacedWell(th, s.blocks, r.block);
    var b := Placed(s.blocks, r.block);
    PrunedLinked(s.blocks, b);
    PruningKeepsLast(th, p, s, b);
    PrunedPart(s.blocks, b);
    PeerManager.ParentSpared(s.blocks, b);
    StoredHeights(th, s.blocks);
    hide Pruned, StoredWell, NoneAbove, WaitingWell, Rooted, RootedParams, Accepts, Bottom, Ancestry, JoinOf;
  }

  lemma StoredHeights(th: Heights, blocks: map<Hash, Block>)
    requires StoredWell(th, blocks)
    ensures forall h :: h in blocks ==> blocks[h].height == th(h)
  {
  }

  /** What has been seen and how blocks are linked goes on holding. */
  lemma RelaySane(th: Heights, parent: Links, p: Params, m: Moment, r: Relay, n: Moment)
    requires RootedParams(th, p) && Relayable(th, r.block) && LinkIs(parent, r.block)
    requires Sane(th, parent, p, m) && RelayStep(p, m, r, n)
    ensures Sane(th, parent, p, n)
  {
    hide Judge, ValidState, RootedParams, Pruned;
    RelayKeeps(th, p, m.state, r);
    PeerManager.IsReady(th, p, m.state, r);
    RelayablesNotZero(th, r.block);
    PrunedPart(m.state.blocks, Placed(m.state.blocks, r.block));
    hide Relayable;
    StoredLinks(parent, m.seen, n.seen, m.state, r.block, Judge(p, m.state, r));
  }

  lemma RelayablesNotZero(th: Heights, b: Block)
    requires Relayable(th, b)
    ensures b.hash != ZERO
  {
  }

  lemma StoredLinks(parent: Links, seen: set<Sighting>, more: set<Sighting>, s: State, block: Block, v: Verdict)
    requires s.Usable() && LinksAre(parent, s.blocks) && SeenStored(seen, s.blocks) && LinkIs(parent, block)
    requires block.hash != ZERO && more == seen + Sightings(block) && LinkedTo(s.blocks, Placed(s.blocks, block))
    requires var kept := Pruned(s.blocks, Placed(s.blocks, block));
             forall h :: h in kept ==> h in s.blocks && kept[h] == s.blocks[h]
    ensures LinksAre(parent, BlocksAfter(s, Placed(s.blocks, block), v))
    ensures SeenStored(more, BlocksAfter(s, Placed(s.blocks, block), v))
  {
    hide Pruned, Linked;
    assert Sightings(Placed(s.blocks, block)) == Sightings(block);
    hide Sightings;
  }

  /** A block that is not allowed changes nothing for the wallet. */
  lemma RefusedFits(parent: Links, p: Params, start: map<Hash, Tx>, m: Moment, r: Relay, n: Moment, h: Hash)
    requires RelayStep(p, m, r, n) && Judge(p, m.state, r) in {Ignored, Orphaned, Invalid}
    requires AllFit(parent, start, m) && h in n.order && h in n.env.allTx
    ensures Fits(parent, n.seen, n.state.lastBlock, start, n.env.allTx[h], h)
  {
    SettledLast(p, m.state, r);
    hide Judge, Settle, Fits, State.Usable, Linked;
    assert h in m.order && n.env.allTx == m.env.allTx;
    FitsMore(parent, m.seen, n.seen, m.state.lastBlock, start, m.env.allTx[h], h);
  }

  /** What the specification says of the wallet when a block is allowed. */
  lemma TxAllowedAfter(p: Params, s: State, r: Relay, env: Env, order: seq<Hash>)
    requires s.Usable() && p.checkpoints != [] && Judge(p, s, r) !in {Ignored, Orphaned, Invalid, Crashed}
    ensures var b := Placed(s.blocks, r.block);
            && LinkedTo(s.blocks, b) && Linked(Pruned(s.blocks, b)) && LinkedTo(Pruned(s.blocks, b), b)
            && LinkedTo(Pruned(s.blocks, b), s.lastBlock) && b.prevBlock in Pruned(s.blocks, b)
            && (Judge(p, s, r) == Reorganised ==>
                  && b.height > s.lastBlock.height
                  && !JoinOf(Ancestry(Pruned(s.blocks, b), b),
                             Ancestry(Pruned(s.blocks, b), s.lastBlock)).NewFallsShort?)
            && PeerManager.TxAfter(p, s, r, env, order) ==
               TxAllowed(Pruned(s.blocks, b), s.lastBlock, b, Judge(p, s, r), env, order)
  {
    var b := Placed(s.blocks, r.block);
    PrunedLinked(s.blocks, b);
    PeerManager.ParentSpared(s.blocks, b);
    hide TxAllowed, Pruned, Ancestry, JoinOf, Accepts, Bottom;
  }

  /** Whether an allowed block leaves the transaction in step: a reorganisation whose chains do not meet may not. */
  lemma AllowedFitsIff(parent: Links, seen: set<Sighting>, start: map<Hash, Tx>, kept: map<Hash, Block>, last: Block,
                       b: Block, v: Verdict, env: Env, order: seq<Hash>, h: Hash)
    requires Standing(kept, last, b, v) && LinksAre(parent, kept) && LinkIs(parent, b)
    requires SeenStored(seen, kept) && Sightings(b) <= seen
    requires v == Reorganised ==> !JoinOf(Ancestry(kept, b), Ancestry(kept, last)).NewFallsShort?
    requires h in order && h in TxAllowed(kept, last, b, v, env, order)
    requires h in env.allTx ==> Fits(parent, seen, last, start, env.allTx[h], h)
    ensures h in env.allTx
    ensures Fits(parent, seen, if BecomesLast(last, b, v) then b else last, start,
                 TxAllowed(kept, last, b, v, env, order)[h], h) <==>
              (v == Reorganised ==> SparedHere(parent, seen, start, kept, last, b, env.allTx[h], h))
  {
    if v == Reorganised && JoinOf(Ancestry(kept, b), Ancestry(kept, last)).OldFallsShort? {
      RunsOutIf(kept, last, b);
      hide Ancestry, JoinOf, Fits, Spared, RunsOut, Linked, LinkedTo;
      GapKnown(kept, last, b, env, order, h);
      GapFitsIff(parent, seen, start, kept, last, b, env, order, h);
    } else {
      hide Ancestry, JoinOf, Fits, Spared, TxAllowed, Linked, LinkedTo;
      AllowedFits(parent, seen, start, kept, last, b, v, env, order, h);
    }
  }

  lemma GapKnown(kept: map<Hash, Block>, last: Block, b: Block, env: Env, order: seq<Hash>, h: Hash)
    requires RunsOut(kept, last, b)
    requires h in Followed(env, order, Ancestry(kept, b), JoinOf(Ancestry(kept, b), Ancestry(kept, last)))
    ensures h in env.allTx
  {
    hide Ancestry, JoinOf, Linked;
  }

  /** The relayed block, in the manager's state and with its sightings, spares the transaction. */
  ghost predicate SparesTx(parent: Links, p: Params, start: map<Hash, Tx>, m: Moment, r: Relay, h: Hash) {
    h in m.env.allTx && p.checkpoints != [] && m.state.Usable() && Judge(p, m.state, r) == Reorganised ==>
      var b := Placed(m.state.blocks, r.block);
      LinkedTo(m.state.blocks, b) &&
      SparedHere(parent, m.seen + Sightings(r.block), start, Pruned(m.state.blocks, b), m.state.lastBlock, b,
                 m.env.allTx[h], h)
  }

  /** If the relayed block leads to a reorganisation in which the old chain runs out of stored blocks, each listed
      transaction is above the end of the old chain, as it was at the start, or matched on the new chain as well. */
  ghost predicate Spares(parent: Links, p: Params, start: map<Hash, Tx>, m: Moment, r: Relay) {
    forall h :: h in m.order && h in m.env.allTx ==> SparesTx(parent, p, start, m, r, h)
  }

  lemma AllowedBlockFitsIff(th: Heights, parent: Links, p: Params, start: map<Hash, Tx>, m: Moment, r: Relay, n: Moment,
                            h: Hash)
    requires RootedParams(th, p) && Relayable(th, r.block) && LinkIs(parent, r.block)
    requires Sane(th, parent, p, m) && RelayStep(p, m, r, n) && Judge(p, m.state, r) !in {Ignored, Orphaned, Invalid}
    requires AllFit(parent, start, m) && h in n.order && h in n.env.allTx
    ensures h in m.env.allTx
    ensures Fits(parent, n.seen, n.state.lastBlock, start, n.env.allTx[h], h) <==> SparesTx(parent, p, start, m, r, h)
  {
    var s, v, b := m.state, Judge(p, m.state, r), Placed(m.state.blocks, r.block);
    SettledLast(p, s, r);
    StandsFirm(th, p, s, r);
    TxAllowedAfter(p, s, r, m.env, m.order);
    PrunedPart(s.blocks, b);
    var kept := Pruned(s.blocks, b);
    KeptSane(parent, n.seen, s.blocks, kept, m.seen);
    assert Sightings(b) == Sightings(r.block) && LinkIs(parent, b);
    assert h in m.order;
    hide Judge, Settle, ValidState, Pruned, Fits, TxAllowed, Standing, RootedParams, Sightings, Linked, SeenStored;
    hide LinksAre, BecomesLast, Relayable, LinkedTo, JoinOf, Ancestry, PeerManager.TxAfter, State.Usable, SparedHere;
    if h in m.env.allTx {
      FitsMore(parent, m.seen, n.seen, s.lastBlock, start, m.env.allTx[h], h);
    }
    AllowedFitsIff(parent, n.seen, start, kept, s.lastBlock, b, v, m.env, m.order, h);
  }

  /** One relayed block keeps every listed transaction in step with the chain if and only if it spares them. */
  lemma RelayFitsIff(th: Heights, parent: Links, p: Params, start: map<Hash, Tx>, m: Moment, r: Relay, n: Moment)
    requires RootedParams(th, p) && Relayable(th, r.block) && LinkIs(parent, r.block)
    requires Sane(th, parent, p, m) && RelayStep(p, m, r, n) && AllFit(parent, start, m)
    ensures AllFit(parent, start, n) <==> Spares(parent, p, start, m, r)
  {
    forall h | h in n.order && h in n.env.allTx
      ensures h in m.env.allTx
      ensures Fits(parent, n.seen, n.state.lastBlock, start, n.env.allTx[h], h) <==> SparesTx(parent, p, start, m, r, h)
    {
      hide Fits, Sane, AllFit, RootedParams, Relayable, LinkIs;
      if Judge(p, m.state, r) in {Ignored, Orphaned, Invalid} {
        RefusedFits(parent, p, start, m, r, n, h);
      } else {
        AllowedBlockFitsIff(th, parent, p, start, m, r, n, h);
      }
    }
    forall h | h in m.order && h in m.env.allTx && !SparesTx(parent, p, start, m, r, h) ensures h in n.env.allTx {
      UnsparedStays(th, parent, p, start, m, r, n, h);
    }
    assert forall h :: h in n.order <==> h in m.order;
    hide Fits, Sane, RelayStep, RootedParams, Relayable, LinkIs, SparesTx;
  }

  /** A transaction that is not spared stays known. */
  lemma UnsparedStays(th: Heights, parent: Links, p: Params, start: map<Hash, Tx>, m: Moment, r: Relay, n: Moment,
                      h: Hash)
    requires RootedParams(th, p) && Relayable(th, r.block) && Sane(th, parent, p, m) && RelayStep(p, m, r, n)
    requires h in m.env.allTx && !SparesTx(parent, p, start, m, r, h)
    ensures h in n.env.allTx
  {
    TxAllowedAfter(p, m.state, r, m.env, m.order);
    StandsFirm(th, p, m.state, r);
    hide Judge, Settle, Ancestry, JoinOf, PeerManager.TxAfter, Spared, Pruned, Linked, Sane, RootedParams;
  }

  lemma SettledLast(p: Params, s: State, r: Relay)
    requires s.Usable() && p.checkpoints != []
    ensures var b := Placed(s.blocks, r.block);
            Settle(p, s, r).lastBlock == if BecomesLast(s.lastBlock, b, Judge(p, s, r)) then b else s.lastBlock
  {
    hide Judge, BlocksAfter;
  }

  lemma KeptSane(parent: Links, more: set<Sighting>, blocks: map<Hash, Block>, kept: map<Hash, Block>,
                 seen: set<Sighting>)
    requires LinksAre(parent, blocks) && SeenStored(seen, blocks) && seen <= more
    requires forall h :: h in kept ==> h in blocks && kept[h] == blocks[h]
    ensures LinksAre(parent, kept) && SeenStored(more, kept)
  {
    hide Sightings;
  }

  lemma FitsMore(parent: Links, seen: set<Sighting>, more: set<Sighting>, last: Block, start: map<Hash, Tx>, tx: Tx,
                 h: Hash)
    requires Fits(parent, seen, last, start, tx, h) && seen <= more
    ensures Fits(parent, more, last, start, tx, h)
  {
  }

  lemma WalletFits(parent: Links, start: map<Hash, Tx>, m: Moment, n: Moment)
    requires WalletStep(m, n) && AllFit(parent, start, m)
    ensures AllFit(parent, start, n)
  {
    hide Confirmed;
  }

  /** What happens between two moments: a block is relayed, or the wallet's list changes. */
  ghost predicate IsStepOf(p: Params, m: Moment, r: Option<Relay>, n: Moment) {
    if r.Some? then RelayStep(p, m, r.value, n) else WalletStep(m, n)
  }

  ghost predicate AllSpared(parent: Links, p: Params, moments: seq<Moment>, relays: seq<Option<Relay>>, n: nat)
    requires |moments| == |relays| + 1 && n < |moments|
  {
    forall k :: 0 <= k < n && relays[k].Some? ==> Spares(parent, p, moments[0].env.allTx, moments[k], relays[k].value)
  }

  ghost predicate InStepUpTo(parent: Links, moments: seq<Moment>, n: nat)
    requires n < |moments|
  {
    forall k :: 0 <= k <= n ==> AllFit(parent, moments[0].env.allTx, moments[k])
  }

  ghost predicate IsHistory(p: Params, moments: seq<Moment>, relays: seq<Option<Relay>>) {
    && |moments| == |relays| + 1
    && forall i :: 0 <= i < |relays| ==> IsStepOf(p, moments[i], relays[i], moments[i + 1])
  }

  ghost predicate AllRelayable(th: Heights, parent: Links, relays: seq<Option<Relay>>) {
    forall i :: 0 <= i < |relays| && relays[i].Some? ==>
                  Relayable(th, relays[i].value.block) && LinkIs(parent, relays[i].value.block)
  }

  /** Over every run of relayed blocks and changes of the wallet's list: at every moment each listed transaction is
      unconfirmed, or as it was at the start, or confirmed at a height at which the last block's chain has a block that
      a relayed copy showed to match it, if and only if every relayed block spares the listed transactions. */
  lemma {:induction false} EveryRunInStepIff(th: Heights, parent: Links, p: Params, moments: seq<Moment>,
                                             relays: seq<Option<Relay>>, n: nat)
    requires RootedParams(th, p) && IsHistory(p, moments, relays) && AllRelayable(th, parent, relays)
    requires n < |moments| && Sane(th, parent, p, moments[0])
    ensures Sane(th, parent, p, moments[n])
    ensures InStepUpTo(parent, moments, n) <==> AllSpared(parent, p, moments, relays, n)
    decreases n
  {
    hide Sane, RelayStep, WalletStep, RootedParams, Relayable, LinkIs, Confirmed, Spares;
    var start := moments[0].env.allTx;
    if n > 0 {
      hide AllFit;
      EveryRunInStepIff(th, parent, p, moments, relays, n - 1);
      var m, now := moments[n - 1], moments[n];
      assert IsStepOf(p, m, relays[n - 1], now);
      assert InStepUpTo(parent, moments, n) <==> InStepUpTo(parent, moments, n - 1) && AllFit(parent, start, now);
      if relays[n - 1].Some? {
        RelaySane(th, parent, p, m, relays[n - 1].value, now);
        if AllFit(parent, start, m) {
          RelayFitsIff(th, parent, p, start, m, relays[n - 1].value, now);
        }
      } else {
        WalletSane(th, parent, p, m, now);
        if AllFit(parent, start, m) {
          WalletFits(parent, start, m, now);
        }
      }
    }
  }

  ///////////////////////////////// What the manager runs /////////////////////////////////

  /** The moments of a run of relayed blocks from a given one on. */
  ghost function MomentsAlong(p: Params, m: Moment, states: seq<State>, relays: seq<Relay>): (moments: seq<Moment>)
    requires IsRun(p, states, relays) && m.state == states[0]
    ensures |moments| == |relays| + 1
    decreases |relays|
  {
    [m] + if relays == [] then [] else MomentsAlong(p, After(p, m, states, relays), states[1..], relays[1..])
  }

  /** The moment after the first relay of a run. */
  ghost function After(p: Params, m: Moment, states: seq<State>, relays: seq<Relay>): (n: Moment)
    requires IsRun(p, states, relays) && m.state == states[0] && relays != []
    ensures IsRun(p, states[1..], relays[1..]) && n.state == states[1]
  {
    PeerManager.RunContinues(p, states, relays);
    assert IsStep(p, states[0], relays[0], states[1]);
    var allTx := PeerManager.TxAfter(p, m.state, relays[0], m.env, m.order);
    Moment(states[1], m.env.(allTx := allTx), m.order, m.seen + Sightings(relays[0].block))
  }

  function AllRelays(relays: seq<Relay>): (steps: seq<Option<Relay>>)
    ensures |steps| == |relays| && forall i :: 0 <= i < |relays| ==> steps[i] == Some(relays[i])
  {
    seq(|relays|, i requires 0 <= i < |relays| => Some(relays[i]))
  }

  /** A run that relaying a block and the orphans that wait for it leads to is a history of single steps, and the known
      transactions at its end are those that the manager leaves in the wallet. */
  lemma {:induction false} RunIsHistory(p: Params, m: Moment, states: seq<State>, relays: seq<Relay>)
    requires IsRun(p, states, relays) && m.state == states[0]
    ensures var moments := MomentsAlong(p, m, states, relays);
            && IsHistory(p, moments, AllRelays(relays)) && moments[0] == m
            && moments[|relays|].state == states[|relays|] && moments[|relays|].order == m.order
            && moments[|relays|].env.allTx == PeerManager.TxAfterRun(p, states, relays, m.env, m.order)
    decreases |relays|
  {
    if relays == [] {
      hide Judge, Settle, PeerManager.TxAfter, IsRun, RelayStep;
    } else {
      AlongStarts(p, m, states, relays);
      var n := After(p, m, states, relays);
      RunIsHistory(p, n, states[1..], relays[1..]);
      hide RelayStep, IsRun, MomentsAlong, PeerManager.TxAfterRun, After, IsStep, AllRelays;
      HistoryJoins(p, m, relays, MomentsAlong(p, n, states[1..], relays[1..]));
    }
  }

  lemma AlongStarts(p: Params, m: Moment, states: seq<State>, relays: seq<Relay>)
    requires IsRun(p, states, relays) && m.state == states[0] && relays != []
    ensures var n := After(p, m, states, relays);
            && RelayStep(p, m, relays[0], n) && n.order == m.order
            && MomentsAlong(p, m, states, relays) == [m] + MomentsAlong(p, n, states[1..], relays[1..])
            && PeerManager.TxAfterRun(p, states, relays, m.env, m.order) ==
               PeerManager.TxAfterRun(p, states[1..], relays[1..], n.env, n.order)
  {
    assert IsStep(p, states[0], relays[0], states[1]);
    hide Judge, Settle, PeerManager.TxAfter, Sightings;
  }

  lemma HistoryJoins(p: Params, m: Moment, relays: seq<Relay>, later: seq<Moment>)
    requires relays != [] && IsHistory(p, later, AllRelays(relays[1..])) && RelayStep(p, m, relays[0], later[0])
    ensures IsHistory(p, [m] + later, AllRelays(relays))
  {
    hide RelayStep;
    var moments := [m] + later;
    forall i | 0 <= i < |relays| ensures IsStepOf(p, moments[i], AllRelays(relays)[i], moments[i + 1]) {
      if i > 0 {
        assert IsStepOf(p, later[i - 1], AllRelays(relays[1..])[i - 1], later[i]);
      }
    }
  }

  /** A reorganisation between chains that share a stored block spares every transaction. */
  lemma SharedSpares(kept: map<Hash, Block>, last: Block, b: Block, i: nat, j: nat)
    requires Linked(kept) && LinkedTo(kept, b) && (b.hash in kept ==> kept[b.hash] == b)
    requires last.hash in kept && kept[last.hash] == last
    requires InBoth(Ancestry(kept, b), Ancestry(kept, last), i, j)
    ensures !RunsOut(kept, last, b)
  {
    StoredSameHeights(kept, b, last);
    if RunsOut(kept, last, b) {
      hide Ancestry, Linked, LinkedTo, JoinOf, SameHeights, Falling;
      SharedIsFound(Ancestry(kept, b), Ancestry(kept, last), i, j);
      assert false;
    }
  }

  lemma SharedIsFound(line: seq<Block>, main: seq<Block>, i: nat, j: nat)
    requires Falling(line) && Falling(main) && SameHeights(line, main) && line[0].height > main[0].height
    requires InBoth(line, main, i, j)
    ensures !JoinOf(line, main).OldFallsShort?
  {
    var lead := line[0].height - main[0].height;
    assert line[i].height == main[j].height;
    assert i == lead + j && SameAt(line, main, lead, j);
    JoinFromIsFirst(line, main, lead, 0);
  }

  lemma WalletSane(th: Heights, parent: Links, p: Params, m: Moment, n: Moment)
    requires WalletStep(m, n) && Sane(th, parent, p, m)
    ensures Sane(th, parent, p, n)
  {
    hide ValidState, LinksAre, SeenStored;
  }

  /** If the last block's stored chain goes down to the height of a transaction that it confirms, the block stored there
      is the one that was seen to match it; otherwise that block has been freed. */
  lemma StoredAtHeight(parent: Links, blocks: map<Hash, Block>, seen: set<Sighting>, last: Block, tx: Tx, h: Hash)
    requires Linked(blocks) && LinkedTo(blocks, last) && LinksAre(parent, blocks) && LinkIs(parent, last)
    requires Confirmed(parent, seen, last, tx, h)
    ensures var line, i := Ancestry(blocks, last), last.height - tx.blockHeight;
            if i < |line| then line[i].height == tx.blockHeight && (line[i].hash, h) in seen
            else line[|line| - 1].prevBlock !in blocks
  {
    hide Ancestry;
    AncestryIs(blocks, last);
    if last.height - tx.blockHeight < |Ancestry(blocks, last)| {
      LineGoesBack(parent, blocks, last, last.height - tx.blockHeight);
    }
  }
}
