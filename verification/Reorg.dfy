/** How the wallet follows the main chain when blocks are relayed. */
module Reorg {
  import opened Transaction
  import opened Ledger
  import opened Chain
  import Wallet

  function TxTime(b: Block, parent: Block): nat {
    b.timestamp / 2 + parent.timestamp / 2
  }

  /** The known transactions after the matches of the first n blocks of a line have been recorded, from the top down. */
  function Replayed(env: Env, line: seq<Block>, n: nat): map<Hash, Tx>
    requires n < |line|
  {
    if n == 0 then env.allTx
    else
      var b := line[n - 1];
      Wallet.Recorded(env.(allTx := Replayed(env, line, n - 1)), Wallet.SetOf(b.txHashes), b.height, TxTime(b, line[n]))
  }

  /** The known transactions after the chain has been reorganised to a new line. */
  function Followed(env: Env, order: seq<Hash>, line: seq<Block>, join: Join): map<Hash, Tx>
    requires line != [] && !join.NewFallsShort? && (join.Meets? ==> 0 <= line[0].height - join.at.height < |line|)
  {
    var back := Wallet.RolledBack(env.allTx, order, join.at.height);
    if join.Meets? then Replayed(env.(allTx := back), line, line[0].height - join.at.height) else back
  }

  /** None of the blocks numbered from i up to n of the line matched the transaction. */
  predicate NoMatch(line: seq<Block>, h: Hash, i: nat, n: nat)
    requires n <= |line|
  {
    forall k :: i <= k < n ==> h !in line[k].txHashes
  }

  predicate OfConcern(allTx: map<Hash, Tx>, addrs: set<Address>, h: Hash) {
    h in allTx && Wallet.Concerns(allTx, addrs, allTx[h])
  }

  lemma RecordedOne(env: Env, hashes: set<Hash>, height: nat, timestamp: nat, h: Hash)
    requires OfConcern(env.allTx, env.allAddrs, h)
    ensures var now := Wallet.Recorded(env, hashes, height, timestamp);
            && OfConcern(now, env.allAddrs, h)
            && now[h] == if h in hashes then env.allTx[h].(blockHeight := height, timestamp := timestamp)
              else env.allTx[h]
  {
    hide Wallet.Concerns;
    var now := Wallet.Recorded(env, hashes, height, timestamp);
    Wallet.ConcernsRecorded(env, hashes, height, timestamp, now[h]);
    Wallet.ConcernsRetimed(env.allTx, env.allAddrs, env.allTx[h], height, timestamp);
  }

  /** A wallet transaction ends up with the height of the lowest block of the line that matched it, or unchanged. */
  lemma {:induction false} ReplayedHeight(env: Env, line: seq<Block>, n: nat, h: Hash)
    requires n < |line| && OfConcern(env.allTx, env.allAddrs, h)
    ensures OfConcern(Replayed(env, line, n), env.allAddrs, h)
    ensures NoMatch(line, h, 0, n) ==> Replayed(env, line, n)[h] == env.allTx[h]
    ensures forall i: nat :: i < n && h in line[i].txHashes && NoMatch(line, h, i + 1, n) ==>
                               Replayed(env, line, n)[h].blockHeight == line[i].height
  {
    hide Wallet.Recorded, OfConcern;
    if n > 0 {
      ReplayedHeight(env, line, n - 1, h);
      var b := line[n - 1];
      RecordedOne(env.(allTx := Replayed(env, line, n - 1)), Wallet.SetOf(b.txHashes), b.height, TxTime(b, line[n]), h);
      assert h in Wallet.SetOf(b.txHashes) <==> h in b.txHashes;
    }
  }

  lemma RolledBackOne(allTx: map<Hash, Tx>, addrs: set<Address>, order: seq<Hash>, height: nat, h: Hash)
    requires OfConcern(allTx, addrs, h)
    ensures var now := Wallet.RolledBack(allTx, order, height);
            && OfConcern(now, addrs, h)
            && now[h] == if h in order && allTx[h].blockHeight > height
                         then allTx[h].(blockHeight := TX_UNCONFIRMED) else allTx[h]
  {
    hide Wallet.Concerns;
    var now := Wallet.RolledBack(allTx, order, height);
    Wallet.ConcernsSameOutputs(allTx, now, addrs, allTx[h]);
    Wallet.ConcernsRetimed(now, addrs, allTx[h], now[h].blockHeight, now[h].timestamp);
  }

  /** After a reorganisation whose chains meet, each listed transaction matched in a block of the new chain above the
      join has the height of the lowest such block; one not matched there is unchanged if it was confirmed at or below
      the join and unconfirmed otherwise. */
  lemma ReorganisationInStep(env: Env, order: seq<Hash>, line: seq<Block>, join: Join, h: Hash)
    requires line != [] && join.Meets? && 0 <= line[0].height - join.at.height < |line|
    requires h in order && OfConcern(env.allTx, env.allAddrs, h)
    ensures var now, n := Followed(env, order, line, join), line[0].height - join.at.height;
            && h in now
            && (forall i: nat :: i < n && h in line[i].txHashes && NoMatch(line, h, i + 1, n) ==>
                                   now[h].blockHeight == line[i].height)
            && (NoMatch(line, h, 0, n) && env.allTx[h].blockHeight <= join.at.height ==> now[h] == env.allTx[h])
            && (NoMatch(line, h, 0, n) && env.allTx[h].blockHeight > join.at.height ==> now[h].Unconfirmed())
  {
    hide Wallet.RolledBack, Replayed, Wallet.Concerns;
    RolledBackOne(env.allTx, env.allAddrs, order, join.at.height, h);
    ReplayedHeight(env.(allTx := Wallet.RolledBack(env.allTx, order, join.at.height)), line,
                   line[0].height - join.at.height, h);
  }

  /** With each transaction matched at most once on the new chain, the height is that of the block that matched it. */
  lemma MatchedOnce(env: Env, order: seq<Hash>, line: seq<Block>, join: Join, h: Hash, i: nat)
    requires line != [] && join.Meets? && i < line[0].height - join.at.height < |line|
    requires h in order && OfConcern(env.allTx, env.allAddrs, h) && h in line[i].txHashes
    requires forall k :: 0 <= k < line[0].height - join.at.height && k != i ==> h !in line[k].txHashes
    ensures h in Followed(env, order, line, join)
    ensures Followed(env, order, line, join)[h].blockHeight == line[i].height
  {
    hide Followed;
    ReorganisationInStep(env, order, line, join, h);
  }

  /** The known transactions after a block that the main chain contains has been relayed. */
  function Matched(env: Env, b: Block, parent: Block): map<Hash, Tx> {
    Wallet.Recorded(env, Wallet.SetOf(b.txHashes), b.height, TxTime(b, parent))
  }

  /** Whether a block is in the chain of the last block. */
  ghost predicate OnMain(blocks: map<Hash, Block>, tip: Block, h: Hash)
    requires Linked(blocks) && LinkedTo(blocks, tip)
  {
    exists k :: 0 <= k < |Ancestry(blocks, tip)| && Ancestry(blocks, tip)[k].hash == h
  }

  /** The known transactions after a block that its predecessors allow has been relayed. */
  ghost function TxAllowed(kept: map<Hash, Block>, tip: Block, b: Block, v: Verdict, env: Env,
                           order: seq<Hash>): map<Hash, Tx>
    requires Linked(kept) && LinkedTo(kept, b) && LinkedTo(kept, tip) && b.prevBlock in kept
    requires v == Reorganised ==>
               b.height > tip.height && !JoinOf(Ancestry(kept, b), Ancestry(kept, tip)).NewFallsShort?
  {
    match v
    case Extended => Matched(env, b, kept[b.prevBlock])
    case Known => if OnMain(kept, tip, b.hash) then Matched(env, b, kept[b.prevBlock]) else env.allTx
    case Reorganised =>
      var line, main := Ancestry(kept, b), Ancestry(kept, tip);
      AncestryIs(kept, b);
      if JoinOf(line, main).Meets? then
        JoinPlace(line, main);
        Followed(env, order, line, JoinOf(line, main))
      else Followed(env, order, line, JoinOf(line, main))
    case _ => env.allTx
  }
}
