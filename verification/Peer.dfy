/** A connection to a peer: how merkleblocks are put together and when callbacks fire. */
module Peer {
  import opened Options
  import opened Transaction

  const MAX_GETDATA_HASHES: nat := 50000

  /** A merkleblock with the transactions its partial Merkle tree matches. */
  datatype MerkleBlock = MerkleBlock(hash: Hash, matched: seq<Hash>)

  type Callback = nat

  /** What happens on a connection, in order. Asked: somebody wants a callback for a ping or a mempool request. Queued
      and Unqueued: the callback of a ping, if it has one, joins and leaves the queue; leaving, it is called. Called: a
      callback is called without having been queued. */
  datatype Entry =
    | GotMerkleblock(block: MerkleBlock, known: set<Hash>)
    | GotTx(txHash: Hash)
    | RelayedBlock(relayed: MerkleBlock)
    | GaveUp
    | RelayedHeader(header: Hash)
    | Asked(asker: Callback)
    | Queued(ping: Option<Callback>)
    | Unqueued(pong: Option<Callback>, success: bool)
    | Called(callback: Callback, succeeded: bool)

  //////////////////////////////// What the log says ////////////////////////////////

  function QueuedIn(log: seq<Entry>): seq<Option<Callback>> {
    if log == [] then []
    else
      var last := log[|log| - 1];
      QueuedIn(log[..|log| - 1]) + if last.Queued? then [last.ping] else []
  }

  function UnqueuedIn(log: seq<Entry>): seq<Option<Callback>> {
    if log == [] then []
    else
      var last := log[|log| - 1];
      UnqueuedIn(log[..|log| - 1]) + if last.Unqueued? then [last.pong] else []
  }

  function AskedIn(log: seq<Entry>): multiset<Callback> {
    if log == [] then multiset{}
    else
      var last := log[|log| - 1];
      AskedIn(log[..|log| - 1]) + if last.Asked? then multiset{last.asker} else multiset{}
  }

  /** The callbacks called so far, with how often. */
  function FiredIn(log: seq<Entry>): multiset<Callback> {
    if log == [] then multiset{}
    else
      var last := log[|log| - 1];
      FiredIn(log[..|log| - 1]) +
      match last
      case Unqueued(pong, _) => if pong.Some? then multiset{pong.value} else multiset{}
      case Called(callback, _) => multiset{callback}
      case _ => multiset{}
  }

  function Waiting(queue: seq<Option<Callback>>): multiset<Callback> {
    if queue == [] then multiset{}
    else (if queue[0].Some? then multiset{queue[0].value} else multiset{}) + Waiting(queue[1..])
  }

  function OneWaiting(callback: Option<Callback>): multiset<Callback> {
    if callback.Some? then multiset{callback.value} else multiset{}
  }

  /** A transaction arrived after place j of the log and before place i. */
  predicate Arrived(log: seq<Entry>, j: nat, i: nat, h: Hash) {
    exists k :: j < k < i <= |log| && log[k] == GotTx(h)
  }

  /** The merkleblock at place j of the log had every matched hash known, still missing, or arrived before place i. */
  predicate Accounted(log: seq<Entry>, j: nat, i: nat, block: MerkleBlock, missing: seq<Hash>) {
    && j < i <= |log| && log[j].GotMerkleblock? && log[j].block == block
    && forall h :: h in block.matched ==> h in log[j].known || h in missing || Arrived(log, j, i, h)
  }

  predicate Collecting(log: seq<Entry>, block: MerkleBlock, missing: seq<Hash>) {
    exists j :: 0 <= j < |log| && Accounted(log, j, |log|, block, missing)
  }

  /** Every block relayed had each matched hash known on arrival or received before the block was relayed. */
  predicate RelayedComplete(log: seq<Entry>) {
    forall i :: 0 <= i < |log| && log[i].RelayedBlock? ==> Complete(log, i)
  }

  predicate Complete(log: seq<Entry>, i: nat)
    requires i < |log| && log[i].RelayedBlock?
  {
    exists j :: 0 <= j < i && Accounted(log, j, i, log[i].relayed, [])
  }

  lemma OneMoreEntry(log: seq<Entry>, e: Entry)
    ensures QueuedIn(log + [e]) == QueuedIn(log) + if e.Queued? then [e.ping] else []
    ensures UnqueuedIn(log + [e]) == UnqueuedIn(log) + if e.Unqueued? then [e.pong] else []
    ensures AskedIn(log + [e]) == AskedIn(log) + if e.Asked? then multiset{e.asker} else multiset{}
    ensures FiredIn(log + [e]) == FiredIn(log) +
            if e.Unqueued? then OneWaiting(e.pong) else if e.Called? then multiset{e.callback} else multiset{}
  {
    assert (log + [e])[..|log|] == log;
  }

  lemma AccountedLater(log: seq<Entry>, e: Entry, j: nat, i: nat, block: MerkleBlock, missing: seq<Hash>)
    requires Accounted(log, j, i, block, missing)
    ensures Accounted(log + [e], j, i, block, missing)
  {
    forall h | h in block.matched ensures h in log[j].known || h in missing || Arrived(log + [e], j, i, h) {
      if Arrived(log, j, i, h) {
        var k :| j < k < i <= |log| && log[k] == GotTx(h);
        assert (log + [e])[k] == GotTx(h);
      }
    }
  }

  lemma CompleteLater(log: seq<Entry>, e: Entry)
    requires RelayedComplete(log) && !e.RelayedBlock?
    ensures RelayedComplete(log + [e])
  {
    hide Accounted;
    var more := log + [e];
    forall i | 0 <= i < |more| && more[i].RelayedBlock? ensures Complete(more, i) {
      assert Complete(log, i);
      var j :| 0 <= j < i && Accounted(log, j, i, log[i].relayed, []);
      AccountedLater(log, e, j, i, log[i].relayed, []);
    }
  }

  /** Whatever else happens, what is being collected stays accounted for. */
  lemma CollectingLater(log: seq<Entry>, e: Entry, block: MerkleBlock, missing: seq<Hash>)
    requires Collecting(log, block, missing)
    ensures Collecting(log + [e], block, missing)
  {
    hide Accounted;
    var j :| 0 <= j < |log| && Accounted(log, j, |log|, block, missing);
    AccountedLater(log, e, j, |log|, block, missing);
    AccountedOneOn(log + [e], j, |log|, block, missing);
  }

  lemma AccountedOneOn(log: seq<Entry>, j: nat, i: nat, block: MerkleBlock, missing: seq<Hash>)
    requires Accounted(log, j, i, block, missing) && i < |log|
    ensures Accounted(log, j, i + 1, block, missing)
  {
    forall h | h in block.matched ensures h in log[j].known || h in missing || Arrived(log, j, i + 1, h) {
      if Arrived(log, j, i, h) {
        var k :| j < k < i <= |log| && log[k] == GotTx(h);
        assert log[k] == GotTx(h) && j < k < i + 1;
      }
    }
  }

  /** A transaction that arrives is no longer missing. */
  lemma CollectedOne(log: seq<Entry>, block: MerkleBlock, missing: seq<Hash>, fewer: seq<Hash>, h: Hash)
    requires Collecting(log, block, missing) && forall x :: x in missing ==> x == h || x in fewer
    ensures Collecting(log + [GotTx(h)], block, fewer)
  {
    CollectingLater(log, GotTx(h), block, missing);
    var more := log + [GotTx(h)];
    var j :| 0 <= j < |log| && Accounted(log, j, |log|, block, missing);
    AccountedLater(log, GotTx(h), j, |log|, block, missing);
    AccountedOneOn(more, j, |log|, block, missing);
    assert more[|log|] == GotTx(h);
    assert Arrived(more, j, |more|, h);
    assert Accounted(more, j, |more|, block, fewer);
  }

  /** A block with nothing missing is complete when it is relayed. */
  lemma RelayIsComplete(log: seq<Entry>, block: MerkleBlock)
    requires RelayedComplete(log) && Collecting(log, block, [])
    ensures RelayedComplete(log + [RelayedBlock(block)])
  {
    hide Accounted;
    var e := RelayedBlock(block);
    var more := log + [e];
    var j :| 0 <= j < |log| && Accounted(log, j, |log|, block, []);
    AccountedLater(log, e, j, |log|, block, []);
    assert Complete(more, |log|);
    forall i | 0 <= i < |more| && more[i].RelayedBlock? ensures Complete(more, i) {
      if i < |log| {
        assert Complete(log, i);
        var k :| 0 <= k < i && Accounted(log, k, i, log[i].relayed, []);
        AccountedLater(log, e, k, i, log[i].relayed, []);
      }
    }
  }

  lemma StartCollecting(log: seq<Entry>, block: MerkleBlock, known: set<Hash>, missing: seq<Hash>)
    requires forall h :: h in block.matched ==> h in known || h in missing
    ensures Collecting(log + [GotMerkleblock(block, known)], block, missing)
  {
    var more := log + [GotMerkleblock(block, known)];
    assert Accounted(more, |log|, |more|, block, missing);
  }

  lemma {:induction false} WaitingAppends(queue: seq<Option<Callback>>, c: Option<Callback>)
    ensures Waiting(queue + [c]) == Waiting(queue) + OneWaiting(c)
  {
    if queue == [] {
      assert [] + [c] == [c] && [c][1..] == [];
    } else {
      assert (queue + [c])[1..] == queue[1..] + [c];
      WaitingAppends(queue[1..], c);
    }
  }

  //////////////////////////////// What every step keeps ////////////////////////////////

  /** Transactions are missing exactly while a block is being collected, and every relayed block was complete. */
  ghost predicate BlockOk(log: seq<Entry>, current: Option<MerkleBlock>, missing: seq<Hash>) {
    && (current.None? <==> missing == [])
    && (current.Some? ==> Collecting(log, current.value, missing))
    && RelayedComplete(log)
  }

  /** The pings queued are those answered followed by those in the queue, and every callback asked for has been
      called, waits in the queue or is one of some others. */
  ghost predicate QueueOk(log: seq<Entry>, queue: seq<Option<Callback>>, others: multiset<Callback>) {
    && QueuedIn(log) == UnqueuedIn(log) + queue
    && AskedIn(log) == FiredIn(log) + Waiting(queue) + others
  }

  lemma BlockStays(log: seq<Entry>, e: Entry, current: Option<MerkleBlock>, missing: seq<Hash>)
    requires BlockOk(log, current, missing) && !e.RelayedBlock?
    ensures BlockOk(log + [e], current, missing)
  {
    hide Collecting, RelayedComplete;
    CompleteLater(log, e);
    if current.Some? {
      CollectingLater(log, e, current.value, missing);
    }
  }

  lemma QueueStays(log: seq<Entry>, e: Entry, queue: seq<Option<Callback>>, others: multiset<Callback>)
    requires QueueOk(log, queue, others)
    requires e.GotMerkleblock? || e.GotTx? || e.RelayedBlock? || e.RelayedHeader? || e.GaveUp?
    ensures QueueOk(log + [e], queue, others)
  {
    hide QueuedIn, UnqueuedIn, AskedIn, FiredIn, Waiting;
    OneMoreEntry(log, e);
  }

  lemma QueueAsks(log: seq<Entry>, c: Callback, queue: seq<Option<Callback>>, others: multiset<Callback>)
    requires QueueOk(log, queue, others)
    ensures QueueOk(log + [Asked(c)], queue, others + multiset{c})
  {
    hide QueuedIn, UnqueuedIn, AskedIn, FiredIn, Waiting;
    OneMoreEntry(log, Asked(c));
  }

  lemma QueueGrows(log: seq<Entry>, c: Option<Callback>, queue: seq<Option<Callback>>, others: multiset<Callback>)
    requires QueueOk(log, queue, others + OneWaiting(c))
    ensures QueueOk(log + [Queued(c)], queue + [c], others)
  {
    hide QueuedIn, UnqueuedIn, AskedIn, FiredIn, Waiting, OneWaiting;
    OneMoreEntry(log, Queued(c));
    WaitingAppends(queue, c);
    assert UnqueuedIn(log) + queue + [c] == UnqueuedIn(log) + (queue + [c]);
  }

  lemma QueueShrinks(log: seq<Entry>, queue: seq<Option<Callback>>, others: multiset<Callback>, success: bool)
    requires QueueOk(log, queue, others) && queue != []
    ensures QueueOk(log + [Unqueued(queue[0], success)], queue[1..], others)
  {
    hide QueuedIn, UnqueuedIn, AskedIn, FiredIn;
    OneMoreEntry(log, Unqueued(queue[0], success));
    assert queue == [queue[0]] + queue[1..];
    assert UnqueuedIn(log) + [queue[0]] + queue[1..] == UnqueuedIn(log) + queue;
  }

  lemma QueueCalls(log: seq<Entry>, c: Callback, success: bool, queue: seq<Option<Callback>>,
                   others: multiset<Callback>)
    requires QueueOk(log, queue, others + multiset{c})
    ensures QueueOk(log + [Called(c, success)], queue, others)
  {
    hide QueuedIn, UnqueuedIn, AskedIn, FiredIn, Waiting;
    OneMoreEntry(log, Called(c, success));
  }

  /** The list without its last entry for h. */
  function WithoutLast(s: seq<Hash>, h: Hash): seq<Hash> {
    if s == [] then []
    else if s[|s| - 1] == h then s[..|s| - 1]
    else WithoutLast(s[..|s| - 1], h) + [s[|s| - 1]]
  }

  lemma {:induction false} WithoutLastHas(s: seq<Hash>, h: Hash)
    ensures forall x :: x in s ==> x == h || x in WithoutLast(s, h)
  {
    if s != [] {
      WithoutLastHas(s[..|s| - 1], h);
    }
  }

  lemma {:induction false} WithoutLastAt(s: seq<Hash>, h: Hash, i: nat)
    requires i < |s| && s[i] == h && h !in s[i + 1..]
    ensures WithoutLast(s, h) == s[..i] + s[i + 1..]
  {
    var last := |s| - 1;
    if i < last {
      assert s[last] in s[i + 1..];
      assert s[..last][i + 1..] + [s[last]] == s[i + 1..];
      WithoutLastAt(s[..last], h, i);
      assert s[..last][..i] == s[..i];
    }
  }

  lemma {:induction false} WithoutLastAbsent(s: seq<Hash>, h: Hash)
    requires h !in s
    ensures WithoutLast(s, h) == s
  {
    if s != [] {
      assert s[|s| - 1] in s;
      WithoutLastAbsent(s[..|s| - 1], h);
    }
  }

  /** The end of the list from its last entry for h on; nothing without one. */
  function FromLast(s: seq<Hash>, h: Hash): seq<Hash> {
    if s == [] then []
    else if s[|s| - 1] == h then [h]
    else
      var end := FromLast(s[..|s| - 1], h);
      if end == [] then [] else end + [s[|s| - 1]]
  }

  lemma {:induction false} FromLastAt(s: seq<Hash>, h: Hash, i: nat)
    requires i < |s| && s[i] == h && h !in s[i + 1..]
    ensures FromLast(s, h) == s[i..]
  {
    var last := |s| - 1;
    if i < last {
      assert s[last] in s[i + 1..];
      assert s[..last][i + 1..] + [s[last]] == s[i + 1..];
      FromLastAt(s[..last], h, i);
    }
  }

  lemma {:induction false} FromLastAbsent(s: seq<Hash>, h: Hash)
    requires h !in s
    ensures FromLast(s, h) == []
  {
    if s != [] {
      assert s[|s| - 1] in s;
      FromLastAbsent(s[..|s| - 1], h);
    }
  }

  /** The matched transactions that are not known, from the last to the first. */
  function Missing(matched: seq<Hash>, known: set<Hash>): seq<Hash> {
    if matched == [] then []
    else Missing(matched[1..], known) + if matched[0] in known then [] else [matched[0]]
  }

  lemma {:induction false} MissingHas(matched: seq<Hash>, known: set<Hash>)
    ensures forall h :: h in Missing(matched, known) <==> h in matched && h !in known
  {
    if matched != [] {
      MissingHas(matched[1..], known);
    }
  }

  /** The transactions that are not known, in order. */
  function Unknown(txs: seq<Hash>, known: set<Hash>): seq<Hash> {
    if txs == [] then []
    else
      var last := txs[|txs| - 1];
      Unknown(txs[..|txs| - 1], known) + if last in known then [] else [last]
  }

  lemma {:induction false} UnknownHas(txs: seq<Hash>, known: set<Hash>)
    ensures forall h :: h in Unknown(txs, known) <==> h in txs && h !in known
  {
    if txs != [] {
      UnknownHas(txs[..|txs| - 1], known);
    }
  }

  /** Block hashes without the oldest third, as often as there are too many. */
  function Trimmed(s: seq<Hash>): seq<Hash> {
    if |s| <= MAX_GETDATA_HASHES then s else Trimmed(s[|s| / 3..])
  }

  //////////////////////////////// What happens on a connection ////////////////////////////////

  /** What an inventory announces: transactions, blocks, and how many items of other kinds. */
  datatype Inventory = Inventory(txs: seq<Hash>, blocks: seq<Hash>, others: nat)

  /** The header of a block, and whether it is valid. */
  datatype Header = Header(hash: Hash, valid: bool)

  /** A message; its content is absent if it is malformed, if a merkleblock is not valid, if a version is not supported
      or if headers are fewer than expected. */
  datatype Message =
    | Inv(inventory: Option<Inventory>)
    | TxMessage(tx: Option<Hash>)
    | MerkleblockMessage(block: Option<MerkleBlock>)
    | PongMessage(nonce: Option<nat>)
    | HeadersMessage(headers: Option<seq<Header>>)
    | VersionMessage(lastblock: Option<nat>)
    | OtherMessage(accepted: bool)

  /** What the program may ask of a connection at any time, also from a callback. */
  datatype Request =
    | Ping(callback: Option<Callback>)
    | Mempool(known: seq<Hash>, completion: Option<Callback>, now: nat)
    | Filterload
    | Getdata(count: nat)
    | Announce(txs: seq<Hash>)
    | Rerequest(fromBlock: Hash)
    | SetHeight(height: nat)
    | SetNeedsFilterUpdate(needs: bool)

  /** The clock is looked at; a message arrives, and callbacks make requests while it is handled; or somebody makes a
      request. */
  datatype Event =
    | Tick(time: nat)
    | Received(message: Message, during: seq<Request>)
    | Requested(request: Request)

  function AskedFor(callback: Option<Callback>): seq<Entry> {
    if callback.Some? then [Asked(callback.value)] else []
  }

  function FailedAtOnce(callback: Option<Callback>): seq<Entry> {
    if callback.Some? then [Called(callback.value, false)] else []
  }

  /** The pings among some requests. */
  function PingsIn(requests: seq<Request>): seq<Option<Callback>> {
    if requests == [] then []
    else
      var last := requests[|requests| - 1];
      PingsIn(requests[..|requests| - 1]) + if last.Ping? then [last.callback] else []
  }

  /** The state of a connection, with what has happened on it. */
  datatype Context = Context(sentFilter: bool, sentGetdata: bool, sentMempool: bool, sentGetblocks: bool,
                             needsFilterUpdate: bool, lastblock: nat, currentBlockHeight: nat, nonce: nat,
                             lastBlockHash: Hash, block: Option<MerkleBlock>, missing: seq<Hash>,
                             knownBlocks: seq<Hash>, known: set<Hash>, queue: seq<Option<Callback>>,
                             mempool: Option<Callback>, mempoolTime: Option<nat>, log: seq<Entry>) {
    predicate Asking() {
      sentFilter || sentGetdata
    }

    /** A request for the memory pool: the first one waits, a further one fails at once. */
    function AfterMempool(hashes: seq<Hash>, completion: Option<Callback>, now: nat): Context {
      var asked := this.(sentMempool := true, log := log + AskedFor(completion));
      if sentMempool || mempool.Some? then asked.(log := asked.log + FailedAtOnce(completion))
      else if completion.None? then asked.(known := known + set h | h in hashes)
      else asked.(known := known + (set h | h in hashes), mempool := completion, mempoolTime := Some(now + 10))
    }

    function AfterRequest(request: Request): Context {
      match request
      case Ping(callback) => this.(queue := queue + [callback], log := log + AskedFor(callback) + [Queued(callback)])
      case Mempool(hashes, completion, now) => AfterMempool(hashes, completion, now)
      case Filterload => this.(sentFilter := true, sentMempool := false)
      case Getdata(count) => this.(sentGetdata := sentGetdata || 0 < count <= MAX_GETDATA_HASHES)
      case Announce(txs) => this.(known := known + set h | h in txs)
      case Rerequest(fromBlock) =>
        var rest := FromLast(knownBlocks, fromBlock);
        if rest == [] then this
        else this.(knownBlocks := rest, sentGetdata := sentGetdata || |rest| <= MAX_GETDATA_HASHES)
      case SetHeight(height) => this.(currentBlockHeight := height)
      case SetNeedsFilterUpdate(needs) => this.(needsFilterUpdate := needs)
    }

    function AfterRequests(requests: seq<Request>): Context {
      if requests == [] then this
      else AfterRequests(requests[..|requests| - 1]).AfterRequest(requests[|requests| - 1])
    }

    /** An inventory is refused if transactions come too early or too many, or suspiciously few blocks. */
    predicate Standard(txs: seq<Hash>, blocks: seq<Hash>) {
      && (txs == [] || sentFilter || sentMempool || sentGetblocks) && |txs| <= 10000
      && !(currentBlockHeight > 0 && 2 < |blocks| < 500 && currentBlockHeight + |knownBlocks| + |blocks| < lastblock)
    }

    /** The announced blocks worth remembering: all or none. */
    function Wanted(blocks: seq<Hash>): seq<Hash> {
      if (!sentFilter && !sentGetblocks) || (|blocks| == 1 && lastBlockHash == blocks[0]) then [] else blocks
    }

    function Remembering(wanted: seq<Hash>): Context {
      this.(lastBlockHash := if |wanted| == 1 then wanted[0] else lastBlockHash,
            knownBlocks := Trimmed(knownBlocks + wanted))
    }

    /** The unknown transactions become known and are asked for with some number of blocks. */
    function AskingFor(txs: seq<Hash>, blockCount: nat): Context {
      this.(known := known + (set h | h in txs),
            sentGetdata := sentGetdata || 0 < |Unknown(txs, known)| + blockCount <= MAX_GETDATA_HASHES)
    }

    /** The callback of the mempool request goes with a ping. */
    function Pinged(): Context {
      this.(queue := queue + [mempool], mempool := None, mempoolTime := None, log := log + [Queued(mempool)])
    }

    /** What an inventory that is not refused changes, a waiting mempool request being answered. */
    function AfterStandard(txs: seq<Hash>, blocks: seq<Hash>, during: seq<Request>): Context {
      var wanted := Wanted(blocks);
      var asking := Remembering(wanted).AfterRequests(during).AskingFor(txs, if needsFilterUpdate then 0 else |wanted|);
      if txs != [] && asking.mempool.Some? then asking.Pinged() else asking
    }

    /** An inventory: dropped as too long, refused or asked for. */
    function AfterInv(inventory: Inventory, during: seq<Request>): (Context, bool) {
      var Inventory(txs, blocks, others) := inventory;
      if |txs| + |blocks| + others > MAX_GETDATA_HASHES then (this, true)
      else if !Standard(txs, blocks) then (this, false)
      else (AfterStandard(txs, blocks, during), true)
    }

    /** A transaction is no longer missing, and when nothing is missing the block is relayed. */
    function TickedOff(h: Hash): Context {
      var fewer := WithoutLast(missing, h);
      if block.None? then this
      else if fewer == [] then this.(block := None, missing := [], log := log + [RelayedBlock(block.value)])
      else this.(missing := fewer)
    }

    /** A transaction is handed on and then ticked off. */
    function AfterTx(h: Hash, during: seq<Request>): Context {
      this.(log := log + [GotTx(h)]).AfterRequests(during).TickedOff(h)
    }

    /** A merkleblock: relayed at once or collected, with what is not known missing. */
    function AfterMerkleblock(block: MerkleBlock): Context {
      var got := this.(missing := missing + Missing(block.matched, known), log := log + [GotMerkleblock(block, known)]);
      if got.missing == [] then got.(log := got.log + [RelayedBlock(block)]) else got.(block := Some(block))
    }

    /** A pong calls back whoever pinged first; it is refused if nobody did or the nonce is wrong. */
    function AfterPong(received: Option<nat>, during: seq<Request>): (Context, bool) {
      if received != Some(nonce) || queue == [] then (this, false)
      else (this.(queue := queue[1..], log := log + [Unqueued(queue[0], true)]).AfterRequests(during), true)
    }

    /** Headers are handed on up to the first that is not valid. */
    function AfterHeaders(headers: seq<Header>): (Context, bool) {
      if headers == [] then (this, true)
      else
        var last := headers[|headers| - 1];
        var (c, ok) := AfterHeaders(headers[..|headers| - 1]);
        if !ok || !last.valid then (c, false) else (c.(log := c.log + [RelayedHeader(last.hash)]), true)
    }

    /** Any message, and whether it is accepted. Anything but a transaction gives up the block being collected. */
    function After(message: Message, during: seq<Request>): (Context, bool) {
      if block.Some? && !message.TxMessage? then (this.(block := None, missing := [], log := log + [GaveUp]), false)
      else
        match message
        case Inv(inventory) => if inventory.None? then (this, false) else AfterInv(inventory.value, during)
        case TxMessage(tx) => if tx.None? || !Asking() then (this, false) else (AfterTx(tx.value, during), true)
        case MerkleblockMessage(b) =>
          if b.None? || !Asking() then (this, false) else (AfterMerkleblock(b.value).AfterRequests(during), true)
        case PongMessage(received) => AfterPong(received, during)
        case HeadersMessage(headers) =>
          if headers.None? then (this, false)
          else
            var (c, ok) := AfterHeaders(headers.value);
            (c.AfterRequests(during), ok)
        case VersionMessage(height) => if height.None? then (this, false) else (this.(lastblock := height.value), true)
        case OtherMessage(accepted) => (AfterRequests(during), accepted)
    }

    /** A mempool request that has waited too long is answered by a ping. */
    function AfterTick(time: nat): Context {
      if mempoolTime.Some? && time >= mempoolTime.value then Pinged() else this
    }

    function AfterEvent(event: Event): (Context, bool) {
      match event
      case Tick(time) => (AfterTick(time), true)
      case Received(message, during) => After(message, during)
      case Requested(request) => (AfterRequest(request), true)
    }

    /** What happens on a connection, up to the first message that is not accepted. */
    function AfterEvents(events: seq<Event>): Context
      decreases |events|
    {
      if events == [] then this
      else
        var (c, ok) := AfterEvent(events[0]);
        if ok then c.AfterEvents(events[1..]) else c
    }

    /** On disconnecting the pings' callbacks fail in turn. Each may make requests: those of the first one called are
        words[0], and so on. */
    function Drained(words: seq<seq<Request>>): Context
      decreases |words|, |queue|
    {
      if queue == [] then this
      else
        var c := this.(queue := queue[1..], log := log + [Unqueued(queue[0], false)]);
        if queue[0].None? || words == [] then c.Drained(words) else c.AfterRequests(words[0]).Drained(words[1..])
    }

    /** The callback of the mempool request fails, making its own requests while it still counts as waiting. */
    function MempoolFailed(lastWords: seq<Request>): Context {
      if mempool.None? then this
      else this.(log := log + [Called(mempool.value, false)]).AfterRequests(lastWords).(mempool := None)
    }

    function Disconnected(words: seq<seq<Request>>, lastWords: seq<Request>): Context {
      Drained(words).MempoolFailed(lastWords)
    }

    /** A connection from the handshake, which picks the nonce, to the end. */
    function Life(nonce: nat, events: seq<Event>, words: seq<seq<Request>>, lastWords: seq<Request>): Context {
      this.(nonce := nonce).AfterEvents(events).Disconnected(words, lastWords)
    }

    /** The mempool callback that still has to be called; while it is being called it only counts as waiting. */
    ghost function Others(called: bool): multiset<Callback> {
      if called then multiset{} else OneWaiting(mempool)
    }

    /** What every step keeps. */
    ghost predicate Ok(called: bool) {
      BlockOk(log, block, missing) && QueueOk(log, queue, Others(called)) && (called ==> mempool.Some?)
    }
  }

  /** A connection nothing has happened on. */
  function Fresh(): Context {
    Context(false, false, false, false, false, 0, 0, 0, 0, None, [], [], {}, [], None, None, [])
  }

  //////////////////////////////// Over every life of a connection ////////////////////////////////

  /** What is being collected stays so whatever is added to the log. */
  lemma CollectingStays(log: seq<Entry>, more: seq<Entry>, block: MerkleBlock, missing: seq<Hash>)
    requires Collecting(log, block, missing) && log <= more
    ensures Collecting(more, block, missing)
    decreases |more| - |log|
  {
    hide Collecting;
    if log != more {
      CollectingLater(log, more[|log|], block, missing);
      assert log + [more[|log|]] <= more;
      CollectingStays(log + [more[|log|]], more, block, missing);
    } else {
      assert log == more;
    }
  }

  /** An entry that is none of a callback. */
  lemma Notes(c: Context, e: Entry, called: bool)
    requires c.Ok(called) && (e.GotTx? || e.RelayedHeader?)
    ensures c.(log := c.log + [e]).Ok(called)
  {
    hide BlockOk, QueueOk;
    BlockStays(c.log, e, c.block, c.missing);
    QueueStays(c.log, e, c.queue, c.Others(called));
  }

  lemma AsksFor(c: Context, callback: Option<Callback>, called: bool)
    requires c.Ok(called)
    ensures BlockOk(c.log + AskedFor(callback), c.block, c.missing)
    ensures QueueOk(c.log + AskedFor(callback), c.queue, c.Others(called) + OneWaiting(callback))
  {
    hide BlockOk, QueueOk;
    NobodyWaits(c.Others(called), callback);
    if callback.Some? {
      BlockStays(c.log, Asked(callback.value), c.block, c.missing);
      QueueAsks(c.log, callback.value, c.queue, c.Others(called));
    } else {
      assert c.log + [] == c.log;
    }
  }

  lemma PingKeeps(c: Context, callback: Option<Callback>, called: bool)
    requires c.Ok(called)
    ensures c.AfterRequest(Ping(callback)).Ok(called)
  {
    hide BlockOk, QueueOk, AskedFor;
    AsksFor(c, callback, called);
    var asked := c.log + AskedFor(callback);
    BlockStays(asked, Queued(callback), c.block, c.missing);
    QueueGrows(asked, callback, c.queue, c.Others(called));
  }

  /** A callback that was asked for and is not in the queue is called. */
  lemma CallKeeps(log: seq<Entry>, block: Option<MerkleBlock>, missing: seq<Hash>, queue: seq<Option<Callback>>,
                  callback: Option<Callback>, others: multiset<Callback>)
    requires BlockOk(log, block, missing) && QueueOk(log, queue, others + OneWaiting(callback))
    ensures BlockOk(log + FailedAtOnce(callback), block, missing)
    ensures QueueOk(log + FailedAtOnce(callback), queue, others)
  {
    hide BlockOk, QueueOk;
    NobodyWaits(others, callback);
    if callback.Some? {
      BlockStays(log, Called(callback.value, false), block, missing);
      QueueCalls(log, callback.value, false, queue, others);
    } else {
      assert log + [] == log;
    }
  }

  lemma MempoolKeeps(c: Context, hashes: seq<Hash>, completion: Option<Callback>, now: nat, called: bool)
    requires c.Ok(called)
    ensures c.AfterMempool(hashes, completion, now).Ok(called)
  {
    hide BlockOk, QueueOk, AskedFor, FailedAtOnce, OneWaiting;
    AsksFor(c, completion, called);
    if c.sentMempool || c.mempool.Some? {
      CallKeeps(c.log + AskedFor(completion), c.block, c.missing, c.queue, completion, c.Others(called));
    } else {
      NobodyWaits(multiset{}, None);
      NobodyWaits(multiset{}, completion);
    }
  }

  lemma RequestKeeps(c: Context, request: Request, called: bool)
    requires c.Ok(called)
    ensures c.AfterRequest(request).Ok(called) && c.log <= c.AfterRequest(request).log
    ensures c.AfterRequest(request).block == c.block && c.AfterRequest(request).missing == c.missing
  {
    hide BlockOk, QueueOk, FromLast, AskedFor, FailedAtOnce, OneWaiting;
    match request
    case Ping(callback) => PingKeeps(c, callback, called);
    case Mempool(hashes, completion, now) => MempoolKeeps(c, hashes, completion, now, called);
    case _ =>
  }

  lemma {:induction false} RequestsKeep(c: Context, requests: seq<Request>, called: bool)
    requires c.Ok(called)
    ensures c.AfterRequests(requests).Ok(called) && c.log <= c.AfterRequests(requests).log
    ensures c.AfterRequests(requests).block == c.block && c.AfterRequests(requests).missing == c.missing
  {
    hide Context.Ok, Context.AfterRequest;
    if requests != [] {
      RequestsKeep(c, requests[..|requests| - 1], called);
      RequestKeeps(c.AfterRequests(requests[..|requests| - 1]), requests[|requests| - 1], called);
    }
  }

  lemma PingedKeeps(c: Context)
    requires c.Ok(false)
    ensures c.Pinged().Ok(false)
  {
    hide BlockOk, QueueOk;
    NobodyWaits(multiset{}, c.mempool);
    NobodyWaits(multiset{}, None);
    BlockStays(c.log, Queued(c.mempool), c.block, c.missing);
    QueueGrows(c.log, c.mempool, c.queue, multiset{});
  }

  lemma StandardKeeps(c: Context, txs: seq<Hash>, blocks: seq<Hash>, during: seq<Request>)
    requires c.Ok(false)
    ensures c.AfterStandard(txs, blocks, during).Ok(false)
  {
    hide BlockOk, QueueOk, OneWaiting, Trimmed, Unknown, Context.AfterRequests, Context.Pinged;
    var remembering := c.Remembering(c.Wanted(blocks));
    RequestsKeep(remembering, during, false);
    var asking := remembering.AfterRequests(during)
      .AskingFor(txs, if c.needsFilterUpdate then 0 else |c.Wanted(blocks)|);
    PingedKeeps(asking);
  }

  /** The transaction a block is ticked off for has arrived since the block did. */
  lemma TickKeeps(c: Context, h: Hash)
    requires c.Ok(false) && (c.block.Some? ==> Collecting(c.log, c.block.value, WithoutLast(c.missing, h)))
    ensures c.TickedOff(h).Ok(false)
  {
    hide Collecting, RelayedComplete, QueueOk, WithoutLast;
    if c.block.Some? && WithoutLast(c.missing, h) == [] {
      RelayIsComplete(c.log, c.block.value);
      QueueStays(c.log, RelayedBlock(c.block.value), c.queue, c.Others(false));
    }
  }

  lemma TxKeeps(c: Context, h: Hash, during: seq<Request>)
    requires c.Ok(false)
    ensures c.AfterTx(h, during).Ok(false)
  {
    hide QueueOk, Collecting, RelayedComplete, Context.AfterRequests, Context.TickedOff, WithoutLast;
    var got := c.(log := c.log + [GotTx(h)]);
    Notes(c, GotTx(h), false);
    RequestsKeep(got, during, false);
    var later := got.AfterRequests(during);
    if c.block.Some? {
      WithoutLastHas(c.missing, h);
      CollectedOne(c.log, c.block.value, c.missing, WithoutLast(c.missing, h), h);
      CollectingStays(got.log, later.log, c.block.value, WithoutLast(c.missing, h));
    }
    TickKeeps(later, h);
  }

  lemma MerkleblockKeeps(c: Context, block: MerkleBlock)
    requires c.Ok(false) && c.block.None?
    ensures c.AfterMerkleblock(block).Ok(false)
  {
    hide QueueOk, Collecting, RelayedComplete, Missing;
    var e, missing := GotMerkleblock(block, c.known), Missing(block.matched, c.known);
    MissingHas(block.matched, c.known);
    assert c.missing + missing == missing;
    QueueStays(c.log, e, c.queue, c.Others(false));
    BlockStarts(c.log, block, c.known, missing);
    if missing == [] {
      QueueStays(c.log + [e], RelayedBlock(block), c.queue, c.Others(false));
    }
  }

  lemma UnqueueKeeps(c: Context, success: bool, called: bool)
    requires c.Ok(called) && c.queue != []
    ensures c.(queue := c.queue[1..], log := c.log + [Unqueued(c.queue[0], success)]).Ok(called)
  {
    hide BlockOk, QueueOk;
    BlockStays(c.log, Unqueued(c.queue[0], success), c.block, c.missing);
    QueueShrinks(c.log, c.queue, c.Others(called), success);
  }

  lemma {:induction false} HeadersKeep(c: Context, headers: seq<Header>)
    requires c.Ok(false)
    ensures c.AfterHeaders(headers).0.Ok(false)
  {
    hide Context.Ok;
    if headers != [] {
      HeadersKeep(c, headers[..|headers| - 1]);
      Notes(c.AfterHeaders(headers[..|headers| - 1]).0, RelayedHeader(headers[|headers| - 1].hash), false);
    }
  }

  lemma MessageKeeps(c: Context, message: Message, during: seq<Request>)
    requires c.Ok(false)
    ensures c.After(message, during).0.Ok(false)
  {
    hide QueueOk, Collecting, RelayedComplete, Context.AfterRequests, Context.AfterStandard, Context.AfterTx;
    hide Context.AfterMerkleblock, Context.AfterHeaders;
    if c.block.None? || message.TxMessage? {
      match message
      case Inv(inventory) =>
        if inventory.Some? {
          StandardKeeps(c, inventory.value.txs, inventory.value.blocks, during);
        }
      case TxMessage(tx) =>
        if tx.Some? {
          TxKeeps(c, tx.value, during);
        }
      case MerkleblockMessage(block) =>
        if block.Some? {
          MerkleblockKeeps(c, block.value);
          RequestsKeep(c.AfterMerkleblock(block.value), during, false);
        }
      case PongMessage(received) =>
        if c.queue != [] {
          UnqueueKeeps(c, true, false);
          RequestsKeep(c.(queue := c.queue[1..], log := c.log + [Unqueued(c.queue[0], true)]), during, false);
        }
      case HeadersMessage(headers) =>
        if headers.Some? {
          HeadersKeep(c, headers.value);
          RequestsKeep(c.AfterHeaders(headers.value).0, during, false);
        }
      case VersionMessage(height) =>
      case OtherMessage(accepted) => RequestsKeep(c, during, false);
    } else {
      CompleteLater(c.log, GaveUp);
      QueueStays(c.log, GaveUp, c.queue, c.Others(false));
    }
  }

  lemma EventKeeps(c: Context, event: Event)
    requires c.Ok(false)
    ensures c.AfterEvent(event).0.Ok(false)
  {
    hide Context.Ok, Context.After, Context.AfterRequest, Context.Pinged;
    match event
    case Tick(time) => PingedKeeps(c);
    case Received(message, during) => MessageKeeps(c, message, during);
    case Requested(request) => RequestKeeps(c, request, false);
  }

  lemma {:induction false} EventsKeep(c: Context, events: seq<Event>)
    requires c.Ok(false)
    ensures c.AfterEvents(events).Ok(false)
    decreases |events|
  {
    hide Context.Ok, Context.AfterEvent;
    if events != [] {
      EventKeeps(c, events[0]);
      if c.AfterEvent(events[0]).1 {
        EventsKeep(c.AfterEvent(events[0]).0, events[1..]);
      }
    }
  }

  lemma {:induction false} DrainKeeps(c: Context, words: seq<seq<Request>>)
    requires c.Ok(false)
    ensures c.Drained(words).Ok(false) && c.Drained(words).queue == []
    decreases |words|, |c.queue|
  {
    hide Context.Ok, Context.AfterRequests;
    if c.queue != [] {
      UnqueueKeeps(c, false, false);
      var d := c.(queue := c.queue[1..], log := c.log + [Unqueued(c.queue[0], false)]);
      if c.queue[0].None? || words == [] {
        DrainKeeps(d, words);
      } else {
        RequestsKeep(d, words[0], false);
        DrainKeeps(d.AfterRequests(words[0]), words[1..]);
      }
    }
  }

  lemma {:induction false} PingsQueue(c: Context, requests: seq<Request>)
    ensures c.AfterRequests(requests).queue == c.queue + PingsIn(requests)
    ensures c.mempool.Some? ==> c.AfterRequests(requests).mempool == c.mempool
  {
    if requests != [] {
      PingsQueue(c, requests[..|requests| - 1]);
      assert c.queue + PingsIn(requests[..|requests| - 1]) + [] == c.queue + PingsIn(requests[..|requests| - 1]);
    }
  }

  /** What is left at the end: nothing waits but the pings that a failing mempool callback asks for. */
  lemma LastKeeps(c: Context, lastWords: seq<Request>)
    requires c.Ok(false) && c.queue == [] && c.mempool.Some?
    ensures var end := c.(log := c.log + [Called(c.mempool.value, false)]).AfterRequests(lastWords).(mempool := None);
            end.Ok(false) && end.queue == PingsIn(lastWords)
  {
    hide BlockOk, QueueOk, Context.AfterRequests, PingsIn;
    NobodyWaits(multiset{}, c.mempool);
    NobodyWaits(multiset{}, None);
    CallKeeps(c.log, c.block, c.missing, c.queue, c.mempool, multiset{});
    var d := c.(log := c.log + [Called(c.mempool.value, false)]);
    RequestsKeep(d, lastWords, true);
    PingsQueue(d, lastWords);
    assert [] + PingsIn(lastWords) == PingsIn(lastWords);
  }

  /** Over every life of a connection: each merkleblock relayed had every matched transaction known or received, and
      each that had is relayed before anything else happens to a block; the pings are answered in order; and every
      callback has been called exactly once, except those of pings that the mempool callback asks for when it fails. */
  lemma EveryLife(c: Context, nonce: nat, events: seq<Event>, words: seq<seq<Request>>, lastWords: seq<Request>)
    requires c.Ok(false)
    ensures var end := c.Life(nonce, events, words, lastWords);
            var called := c.(nonce := nonce).AfterEvents(events).Drained(words).mempool.Some?;
            && end.Ok(false) && end.mempool.None? && RelayedComplete(end.log)
            && end.queue == (if called then PingsIn(lastWords) else [])
            && QueuedIn(end.log) == UnqueuedIn(end.log) + end.queue
            && AskedIn(end.log) == FiredIn(end.log) + Waiting(end.queue)
            && (Told(c) ==> AllDue(end.log))
  {
    if Told(c) {
      LifeTold(c, nonce, events, words, lastWords);
    }
    hide AllDue, Tracks;
    hide Context.AfterEvents, Context.AfterRequests, Context.Drained, PingsIn, QueuedIn, UnqueuedIn, AskedIn, FiredIn;
    hide Waiting, Collecting, RelayedComplete;
    EventsKeep(c.(nonce := nonce), events);
    var open := c.(nonce := nonce).AfterEvents(events);
    DrainKeeps(open, words);
    var drained := open.Drained(words);
    if drained.mempool.Some? {
      LastKeeps(drained, lastWords);
    }
    NobodyWaits(multiset{}, None);
  }

  /** From the start: every callback is called exactly once if and only if no ping with a callback is asked for by a
      mempool callback that fails on disconnecting. */
  lemma ExactlyOnceIff(nonce: nat, events: seq<Event>, words: seq<seq<Request>>, lastWords: seq<Request>)
    ensures var end := Fresh().Life(nonce, events, words, lastWords);
            var called := Fresh().(nonce := nonce).AfterEvents(events).Drained(words).mempool.Some?;
            && RelayedComplete(end.log)
            && (AskedIn(end.log) == FiredIn(end.log) <==>
                  !called || Silent(lastWords))
            && (QueuedIn(end.log) == UnqueuedIn(end.log) <==> !called || NoPing(lastWords))
  {
    hide Context.Life, Context.AfterEvents, Context.Drained, QueuedIn, UnqueuedIn, AskedIn, FiredIn, Waiting, PingsIn;
    hide RelayedComplete;
    FreshIsOk();
    EveryLife(Fresh(), nonce, events, words, lastWords);
    SilentPings(lastWords);
    NothingWaits();
  }

  lemma FreshIsOk()
    ensures Fresh().Ok(false) && Told(Fresh())
  {
  }

  lemma NothingWaits()
    ensures Waiting([]) == multiset{}
  {
  }

  predicate Silent(requests: seq<Request>) {
    forall r :: r in requests && r.Ping? ==> r.callback.None?
  }

  predicate NoPing(requests: seq<Request>) {
    forall r :: r in requests ==> !r.Ping?
  }

  /** No callback waits in the queue of some requests if and only if no ping among them has one. */
  lemma {:induction false} SilentPings(requests: seq<Request>)
    ensures Waiting(PingsIn(requests)) == multiset{} <==> Silent(requests)
    ensures PingsIn(requests) == [] <==> NoPing(requests)
  {
    hide Waiting, OneWaiting;
    if requests != [] {
      var rest, last := requests[..|requests| - 1], requests[|requests| - 1];
      SilentPings(rest);
      assert requests == rest + [last];
      if last.Ping? {
        WaitingAppends(PingsIn(rest), last.callback);
        NoneOfBoth(Waiting(PingsIn(rest)), last.callback);
      } else {
        assert PingsIn(requests) == PingsIn(rest);
      }
    } else {
      NothingWaits();
    }
  }

  lemma NoneOfBoth(waiting: multiset<Callback>, c: Option<Callback>)
    ensures waiting + OneWaiting(c) == multiset{} <==> waiting == multiset{} && c.None?
  {
    if c.Some? {
      assert (waiting + OneWaiting(c))[c.value] > 0;
    } else {
      assert waiting + OneWaiting(c) == waiting;
    }
  }

  /** A ping whose callback is never called: the mempool callback asks for it when it fails. */
  lemma LostPing()
    ensures var end := Fresh().Life(0, [Requested(Mempool([], Some(1), 0))], [], [Ping(Some(2))]);
            AskedIn(end.log)[2] == FiredIn(end.log)[2] + 1
  {
    hide AskedIn, FiredIn, QueuedIn, UnqueuedIn, Context.Life, Waiting, PingsIn;
    FreshIsOk();
    MempoolWaits();
    EveryLife(Fresh(), 0, [Requested(Mempool([], Some(1), 0))], [], [Ping(Some(2))]);
    OnePing();
  }

  lemma MempoolWaits()
    ensures Fresh().(nonce := 0).AfterEvents([Requested(Mempool([], Some(1), 0))]).Drained([]).mempool.Some?
  {
    var event := Requested(Mempool([], Some(1), 0));
    assert [event][1..] == [];
    OneEvent(Fresh(), [event], 0);
    assert [event][0..] == [event];
  }

  lemma OnePing()
    ensures Waiting(PingsIn([Ping(Some(2))])) == multiset{2}
  {
    assert [Ping(Some(2))][..0] == [];
    assert PingsIn([Ping(Some(2))]) == [Some(2)];
  }

  //////////////////////////////// Every complete block is relayed ////////////////////////////////

  /** The place of the merkleblock that is being collected after the entries of the log. */
  function Open(log: seq<Entry>): Option<nat> {
    if log == [] then None
    else
      match log[|log| - 1]
      case GotMerkleblock(_, _) => Some(|log| - 1)
      case RelayedBlock(_) => None
      case GaveUp => None
      case _ => Open(log[..|log| - 1])
  }

  /** How often the transaction arrives after place j of the log and before place i. */
  function Arrivals(log: seq<Entry>, j: nat, i: nat, h: Hash): nat
    requires i <= |log|
    decreases i
  {
    if i <= j + 1 then 0 else Arrivals(log, j, i - 1, h) + if log[i - 1] == GotTx(h) then 1 else 0
  }

  /** How often the block at place j matches the transaction, if it is not known. */
  function Wanting(log: seq<Entry>, j: nat, h: Hash): nat
    requires j < |log| && log[j].GotMerkleblock?
  {
    if h in log[j].known then 0 else multiset(log[j].block.matched)[h]
  }

  /** Before place i every transaction that the block at place j matches was known or has arrived as often as it
      does. */
  ghost predicate AllHere(log: seq<Entry>, j: nat, i: nat)
    requires j < i <= |log| && log[j].GotMerkleblock?
  {
    forall h :: Wanting(log, j, h) <= Arrivals(log, j, i, h)
  }

  lemma {:induction false} OpenIs(log: seq<Entry>)
    ensures Open(log).Some? ==> Open(log).value < |log| && log[Open(log).value].GotMerkleblock?
  {
    if log != [] {
      OpenIs(log[..|log| - 1]);
    }
  }

  /** Place i of the log is as it should be: a merkleblock comes when none is being collected; the one being
      collected is relayed only when everything is here, and given up only when not; and when everything is here
      nothing comes before it is relayed but what callbacks ask for. */
  ghost predicate Due(log: seq<Entry>, i: nat)
    requires i < |log|
  {
    OpenIs(log[..i]);
    var open, e := Open(log[..i]), log[i];
    && (e.GotMerkleblock? || e.RelayedHeader? ==> open.None?)
    && (e.RelayedBlock? || e.GaveUp? ==> open.Some?)
    && (open.Some? ==>
          if AllHere(log, open.value, i) then e == RelayedBlock(log[open.value].block) || Quiet(e)
          else !e.RelayedBlock?)
  }

  /** An entry that requests make. */
  predicate Quiet(e: Entry) {
    e.Asked? || e.Queued? || e.Called?
  }

  ghost predicate AllDue(log: seq<Entry>) {
    forall i :: 0 <= i < |log| ==> Due(log, i)
  }

  /** The block being collected is the open one of the log, and what is missing is what has not arrived. */
  ghost predicate Tracks(log: seq<Entry>, block: Option<MerkleBlock>, missing: seq<Hash>) {
    OpenIs(log);
    && (block.None? <==> Open(log).None?)
    && (block.Some? ==>
          var j := Open(log).value;
          && block.value == log[j].block
          && forall h :: multiset(missing)[h] == Left(Wanting(log, j, h), Arrivals(log, j, |log|, h)))
  }

  function Left(a: nat, b: nat): nat {
    if a <= b then 0 else a - b
  }

  ghost predicate Told(c: Context) {
    AllDue(c.log) && Tracks(c.log, c.block, c.missing) && (c.block.None? <==> c.missing == [])
  }

  lemma {:induction false} ArrivalsOf(log: seq<Entry>, more: seq<Entry>, j: nat, i: nat, h: Hash)
    requires i <= |log| && log <= more
    ensures Arrivals(more, j, i, h) == Arrivals(log, j, i, h)
    decreases i
  {
    if i > j + 1 {
      ArrivalsOf(log, more, j, i - 1, h);
    }
  }

  lemma DueStays(log: seq<Entry>, e: Entry, i: nat)
    requires i < |log| && Due(log, i)
    ensures Due(log + [e], i)
  {
    var more := log + [e];
    assert more[..i] == log[..i];
    OpenIs(log[..i]);
    if Open(log[..i]).Some? {
      var j := Open(log[..i]).value;
      forall h ensures Arrivals(more, j, i, h) == Arrivals(log, j, i, h) && Wanting(more, j, h) == Wanting(log, j, h) {
        ArrivalsOf(log, more, j, i, h);
      }
    }
  }

  /** One more entry that is as it should be. */
  lemma DueNext(log: seq<Entry>, e: Entry)
    requires AllDue(log) && Due(log + [e], |log|)
    ensures AllDue(log + [e])
  {
    hide Due;
    forall i | 0 <= i < |log + [e]| ensures Due(log + [e], i) {
      if i < |log| {
        DueStays(log, e, i);
      }
    }
  }

  lemma OpenNext(log: seq<Entry>, e: Entry)
    ensures Open(log + [e]) ==
            if e.GotMerkleblock? then Some(|log|) else if e.RelayedBlock? || e.GaveUp? then None else Open(log)
    ensures (log + [e])[..|log|] == log
  {
    assert (log + [e])[..|log|] == log;
  }

  lemma ArrivalsNext(log: seq<Entry>, e: Entry, j: nat, h: Hash)
    requires j < |log|
    ensures Arrivals(log + [e], j, |log|, h) == Arrivals(log, j, |log|, h)
    ensures Arrivals(log + [e], j, |log| + 1, h) == Arrivals(log, j, |log|, h) + if e == GotTx(h) then 1 else 0
  {
    ArrivalsOf(log, log + [e], j, |log|, h);
  }

  /** Nothing missing means that everything is here. */
  lemma NothingLeft(log: seq<Entry>, block: MerkleBlock, missing: seq<Hash>)
    requires Tracks(log, Some(block), missing)
    ensures Open(log).Some? && Open(log).value < |log| && log[Open(log).value].GotMerkleblock?
    ensures log[Open(log).value].block == block && (missing == [] <==> AllHere(log, Open(log).value, |log|))
  {
    OpenIs(log);
    var j := Open(log).value;
    hide Open, Arrivals, Wanting;
    forall h ensures multiset(missing)[h] == Left(Wanting(log, j, h), Arrivals(log, j, |log|, h)) {
    }
    if missing != [] {
      assert multiset(missing)[missing[0]] > 0;
    }
  }

  lemma AllHereNext(log: seq<Entry>, e: Entry, j: nat)
    requires j < |log| && log[j].GotMerkleblock?
    ensures AllHere(log + [e], j, |log|) <==> AllHere(log, j, |log|)
  {
    forall h ensures Arrivals(log + [e], j, |log|, h) == Arrivals(log, j, |log|, h) {
      ArrivalsNext(log, e, j, h);
    }
    hide Arrivals;
  }

  /** An entry that is no relay, at a moment when something is missing or nothing is collected. */
  lemma DueIfOpen(log: seq<Entry>, e: Entry, block: Option<MerkleBlock>, missing: seq<Hash>)
    requires AllDue(log) && Tracks(log, block, missing) && !e.RelayedBlock?
    requires block.Some? ==> missing != [] || Quiet(e)
    requires e.GotMerkleblock? || e.RelayedHeader? ==> block.None?
    requires e.GaveUp? ==> block.Some?
    ensures AllDue(log + [e])
  {
    OpenNext(log, e);
    OpenIs(log);
    if block.Some? {
      NothingLeft(log, block.value, missing);
      AllHereNext(log, e, Open(log).value);
    }
    hide AllHere, Open, AllDue;
    DueNext(log, e);
  }

  lemma TracksStay(log: seq<Entry>, e: Entry, block: Option<MerkleBlock>, missing: seq<Hash>)
    requires Tracks(log, block, missing) && !e.GotMerkleblock? && !e.RelayedBlock? && !e.GaveUp? && !e.GotTx?
    ensures Tracks(log + [e], block, missing)
  {
    OpenNext(log, e);
    OpenIs(log);
    if block.Some? {
      var j := Open(log).value;
      forall h
        ensures Wanting(log + [e], j, h) == Wanting(log, j, h)
        ensures Arrivals(log + [e], j, |log| + 1, h) == Arrivals(log, j, |log|, h)
      {
        ArrivalsNext(log, e, j, h);
      }
      hide Arrivals, Wanting, Open;
    }
  }

  lemma QuietStays(log: seq<Entry>, e: Entry, block: Option<MerkleBlock>, missing: seq<Hash>)
    requires AllDue(log) && Tracks(log, block, missing) && Quiet(e)
    ensures AllDue(log + [e]) && Tracks(log + [e], block, missing)
  {
    hide AllDue, Tracks;
    DueIfOpen(log, e, block, missing);
    TracksStay(log, e, block, missing);
  }

  lemma CallbackStays(log: seq<Entry>, callback: Option<Callback>, block: Option<MerkleBlock>, missing: seq<Hash>)
    requires AllDue(log) && Tracks(log, block, missing)
    ensures AllDue(log + AskedFor(callback)) && Tracks(log + AskedFor(callback), block, missing)
    ensures AllDue(log + FailedAtOnce(callback)) && Tracks(log + FailedAtOnce(callback), block, missing)
  {
    hide AllDue, Tracks;
    if callback.Some? {
      QuietStays(log, Asked(callback.value), block, missing);
      QuietStays(log, Called(callback.value, false), block, missing);
    } else {
      assert log + [] == log;
    }
  }

  lemma RequestTold(c: Context, request: Request, missing: seq<Hash>)
    requires AllDue(c.log) && Tracks(c.log, c.block, missing)
    ensures var d := c.AfterRequest(request); AllDue(d.log) && Tracks(d.log, c.block, missing)
    ensures var d := c.AfterRequest(request); d.block == c.block && d.missing == c.missing
  {
    hide AllDue, Tracks, AskedFor, FailedAtOnce, FromLast;
    match request
    case Ping(callback) =>
      CallbackStays(c.log, callback, c.block, missing);
      QuietStays(c.log + AskedFor(callback), Queued(callback), c.block, missing);
    case Mempool(_, callback, _) =>
      CallbackStays(c.log, callback, c.block, missing);
      CallbackStays(c.log + AskedFor(callback), callback, c.block, missing);
    case _ =>
  }

  lemma {:induction false} RequestsTold(c: Context, requests: seq<Request>, missing: seq<Hash>)
    requires AllDue(c.log) && Tracks(c.log, c.block, missing)
    ensures var d := c.AfterRequests(requests); AllDue(d.log) && Tracks(d.log, c.block, missing)
    ensures var d := c.AfterRequests(requests); d.block == c.block && d.missing == c.missing
  {
    hide AllDue, Tracks, Context.AfterRequest;
    if requests != [] {
      RequestsTold(c, requests[..|requests| - 1], missing);
      RequestTold(c.AfterRequests(requests[..|requests| - 1]), requests[|requests| - 1], missing);
    }
  }

  lemma {:induction false} WithoutLastCounts(s: seq<Hash>, h: Hash, x: Hash)
    ensures multiset(WithoutLast(s, h))[x] == Left(multiset(s)[x], if x == h then 1 else 0)
  {
    if s != [] {
      WithoutLastCounts(s[..|s| - 1], h, x);
      assert s == s[..|s| - 1] + [s[|s| - 1]];
    }
  }

  lemma {:induction false} MissingCounts(matched: seq<Hash>, known: set<Hash>, h: Hash)
    ensures multiset(Missing(matched, known))[h] == if h in known then 0 else multiset(matched)[h]
  {
    if matched != [] {
      MissingCounts(matched[1..], known, h);
      assert matched == [matched[0]] + matched[1..];
    }
  }

  /** A transaction arrives: one time less is missing. */
  lemma TxArrives(log: seq<Entry>, h: Hash, block: Option<MerkleBlock>, missing: seq<Hash>)
    requires AllDue(log) && Tracks(log, block, missing) && (block.None? <==> missing == [])
    ensures AllDue(log + [GotTx(h)]) && Tracks(log + [GotTx(h)], block, WithoutLast(missing, h))
  {
    hide AllDue, WithoutLast;
    DueIfOpen(log, GotTx(h), block, missing);
    OpenNext(log, GotTx(h));
    OpenIs(log);
    if block.Some? {
      var j := Open(log).value;
      forall x
        ensures multiset(WithoutLast(missing, h))[x] ==
                Left(Wanting(log, j, x), Arrivals(log + [GotTx(h)], j, |log| + 1, x))
      {
        ArrivalsNext(log, GotTx(h), j, x);
        WithoutLastCounts(missing, h, x);
      }
      hide Arrivals, Open;
    }
  }

  /** The block being collected is relayed, once everything is here. */
  lemma RelayIsDue(log: seq<Entry>, block: MerkleBlock)
    requires AllDue(log) && Tracks(log, Some(block), [])
    ensures AllDue(log + [RelayedBlock(block)]) && Tracks(log + [RelayedBlock(block)], None, [])
  {
    var e := RelayedBlock(block);
    NothingLeft(log, block, []);
    OpenNext(log, e);
    AllHereNext(log, e, Open(log).value);
    hide AllHere, Open, AllDue;
    DueNext(log, e);
  }

  lemma TxTold(c: Context, h: Hash, during: seq<Request>)
    requires Told(c)
    ensures Told(c.AfterTx(h, during))
  {
    var got := c.(log := c.log + [GotTx(h)]);
    TxArrives(c.log, h, c.block, c.missing);
    hide AllDue, Tracks, Context.AfterRequests, WithoutLast;
    RequestsTold(got, during, WithoutLast(c.missing, h));
    var later := got.AfterRequests(during);
    if c.block.Some? && WithoutLast(c.missing, h) == [] {
      RelayIsDue(later.log, c.block.value);
    }
    NoneTracked(later.log, WithoutLast(c.missing, h), c.missing);
  }

  lemma NoneTracked(log: seq<Entry>, a: seq<Hash>, b: seq<Hash>)
    ensures Tracks(log, None, a) ==> Tracks(log, None, b)
  {
    hide Open;
  }

  lemma MerkleblockTold(c: Context, block: MerkleBlock)
    requires Told(c) && c.block.None?
    ensures Told(c.AfterMerkleblock(block))
  {
    var e, missing := GotMerkleblock(block, c.known), Missing(block.matched, c.known);
    assert c.missing + missing == missing;
    DueIfOpen(c.log, e, None, []);
    BlockOpens(c.log, block, c.known);
    hide AllDue, Tracks, Missing;
    if missing == [] {
      RelayIsDue(c.log + [e], block);
    }
  }

  lemma BlockOpens(log: seq<Entry>, block: MerkleBlock, known: set<Hash>)
    ensures Tracks(log + [GotMerkleblock(block, known)], Some(block), Missing(block.matched, known))
  {
    var more := log + [GotMerkleblock(block, known)];
    OpenNext(log, GotMerkleblock(block, known));
    forall h ensures multiset(Missing(block.matched, known))[h] ==
                     Left(Wanting(more, |log|, h), Arrivals(more, |log|, |more|, h)) {
      MissingCounts(block.matched, known, h);
    }
    hide Missing, Open, Arrivals;
  }

  /** An entry that has nothing to do with blocks, at a moment between messages. */
  lemma OtherStays(c: Context, e: Entry)
    requires Told(c) && (e.Unqueued? || Quiet(e) || (e.RelayedHeader? && c.block.None?))
    ensures AllDue(c.log + [e]) && Tracks(c.log + [e], c.block, c.missing)
  {
    hide AllDue, Tracks;
    DueIfOpen(c.log, e, c.block, c.missing);
    TracksStay(c.log, e, c.block, c.missing);
  }

  lemma {:induction false} HeadersTold(c: Context, headers: seq<Header>)
    requires Told(c) && c.block.None?
    ensures Told(c.AfterHeaders(headers).0) && c.AfterHeaders(headers).0.block.None?
  {
    hide AllDue, Tracks;
    if headers != [] {
      HeadersTold(c, headers[..|headers| - 1]);
      OtherStays(c.AfterHeaders(headers[..|headers| - 1]).0, RelayedHeader(headers[|headers| - 1].hash));
    }
  }

  lemma StandardTold(c: Context, txs: seq<Hash>, blocks: seq<Hash>, during: seq<Request>)
    requires Told(c)
    ensures Told(c.AfterStandard(txs, blocks, during))
  {
    hide AllDue, Tracks, Trimmed, Unknown, Context.AfterRequests;
    var remembering := c.Remembering(c.Wanted(blocks));
    RequestsTold(remembering, during, c.missing);
    var asking := remembering.AfterRequests(during)
      .AskingFor(txs, if c.needsFilterUpdate then 0 else |c.Wanted(blocks)|);
    OtherStays(asking, Queued(asking.mempool));
  }

  lemma GivingUpTold(c: Context)
    requires Told(c) && c.block.Some?
    ensures Told(c.(block := None, missing := [], log := c.log + [GaveUp]))
  {
    DueIfOpen(c.log, GaveUp, c.block, c.missing);
    OpenNext(c.log, GaveUp);
    hide AllDue, Open;
  }

  lemma MessageTold(c: Context, message: Message, during: seq<Request>)
    requires Told(c)
    ensures Told(c.After(message, during).0)
  {
    hide AllDue, Tracks, Context.AfterRequests, Context.AfterStandard, Context.AfterTx, Context.AfterMerkleblock;
    hide Context.AfterHeaders;
    if c.block.Some? && !message.TxMessage? {
      GivingUpTold(c);
    } else {
      match message
      case Inv(inventory) =>
        if inventory.Some? {
          StandardTold(c, inventory.value.txs, inventory.value.blocks, during);
        }
      case TxMessage(tx) =>
        if tx.Some? {
          TxTold(c, tx.value, during);
        }
      case MerkleblockMessage(block) =>
        if block.Some? {
          MerkleblockTold(c, block.value);
          var d := c.AfterMerkleblock(block.value);
          RequestsTold(d, during, d.missing);
        }
      case PongMessage(received) =>
        if c.queue != [] {
          OtherStays(c, Unqueued(c.queue[0], true));
          RequestsTold(c.(queue := c.queue[1..], log := c.log + [Unqueued(c.queue[0], true)]), during, c.missing);
        }
      case HeadersMessage(headers) =>
        if headers.Some? {
          HeadersTold(c, headers.value);
          var d := c.AfterHeaders(headers.value).0;
          RequestsTold(d, during, d.missing);
        }
      case VersionMessage(height) =>
      case OtherMessage(accepted) => RequestsTold(c, during, c.missing);
    }
  }

  lemma EventTold(c: Context, event: Event)
    requires Told(c)
    ensures Told(c.AfterEvent(event).0)
  {
    hide AllDue, Tracks, Context.After, Context.AfterRequest;
    match event
    case Tick(time) => OtherStays(c, Queued(c.mempool));
    case Received(message, during) => MessageTold(c, message, during);
    case Requested(request) => RequestTold(c, request, c.missing);
  }

  lemma {:induction false} EventsTold(c: Context, events: seq<Event>)
    requires Told(c)
    ensures Told(c.AfterEvents(events))
    decreases |events|
  {
    hide Told, Context.AfterEvent;
    if events != [] {
      EventTold(c, events[0]);
      if c.AfterEvent(events[0]).1 {
        EventsTold(c.AfterEvent(events[0]).0, events[1..]);
      }
    }
  }

  lemma {:induction false} DrainTold(c: Context, words: seq<seq<Request>>)
    requires Told(c)
    ensures Told(c.Drained(words))
    decreases |words|, |c.queue|
  {
    hide AllDue, Tracks, Context.AfterRequests;
    if c.queue != [] {
      OtherStays(c, Unqueued(c.queue[0], false));
      var d := c.(queue := c.queue[1..], log := c.log + [Unqueued(c.queue[0], false)]);
      if c.queue[0].None? || words == [] {
        DrainTold(d, words);
      } else {
        RequestsTold(d, words[0], d.missing);
        DrainTold(d.AfterRequests(words[0]), words[1..]);
      }
    }
  }

  lemma LifeTold(c: Context, nonce: nat, events: seq<Event>, words: seq<seq<Request>>, lastWords: seq<Request>)
    requires Told(c)
    ensures Told(c.Life(nonce, events, words, lastWords))
  {
    hide AllDue, Tracks, Context.AfterEvents, Context.Drained, Context.AfterRequests;
    EventsTold(c.(nonce := nonce), events);
    DrainTold(c.(nonce := nonce).AfterEvents(events), words);
    var drained := c.(nonce := nonce).AfterEvents(events).Drained(words);
    if drained.mempool.Some? {
      OtherStays(drained, Called(drained.mempool.value, false));
      RequestsTold(drained.(log := drained.log + [Called(drained.mempool.value, false)]), lastWords, drained.missing);
    }
  }

  /** Between places j and i no block is relayed, given up or begun. */
  predicate NothingBetween(log: seq<Entry>, j: nat, i: nat)
    requires i <= |log|
  {
    forall k :: j < k < i ==> !log[k].GotMerkleblock? && !log[k].RelayedBlock? && !log[k].GaveUp?
  }

  lemma {:induction false} OpenBetween(log: seq<Entry>, j: nat, i: nat)
    requires j < i <= |log| && log[j].GotMerkleblock? && NothingBetween(log, j, i)
    ensures Open(log[..i]) == Some(j)
    decreases i
  {
    assert log[..i][..i - 1] == log[..i - 1];
    if i > j + 1 {
      OpenBetween(log, j, i - 1);
    }
  }

  /** What follows a merkleblock, told from the log alone: if everything it matches was known or arrives, as often as
      it is matched, before the block is given up, then the next thing that happens to a block is that it is relayed;
      if it is relayed, everything was here; and if not, it is given up or still open at the end. */
  lemma RelayedIff(c: Context, nonce: nat, events: seq<Event>, words: seq<seq<Request>>, lastWords: seq<Request>,
                   j: nat, i: nat)
    requires Told(c)
    requires var log := c.Life(nonce, events, words, lastWords).log;
             && j < i <= |log| && log[j].GotMerkleblock? && NothingBetween(log, j, i)
             && (i < |log| ==> log[i].GotMerkleblock? || log[i].RelayedBlock? || log[i].GaveUp?)
    ensures var log := c.Life(nonce, events, words, lastWords).log;
            && (AllHere(log, j, i) <==> i < |log| && log[i] == RelayedBlock(log[j].block))
            && (!AllHere(log, j, i) <==> i == |log| || log[i].GaveUp?)
  {
    var end := c.Life(nonce, events, words, lastWords);
    var log := end.log;
    hide Context.Life, Arrivals;
    LifeTold(c, nonce, events, words, lastWords);
    OpenBetween(log, j, i);
    if i == |log| {
      assert log[..i] == log;
      OpenIs(log);
      NothingLeft(log, end.block.value, end.missing);
    } else {
      assert Due(log, i);
      AllHereBefore(log, j, i);
    }
  }

  lemma AllHereBefore(log: seq<Entry>, j: nat, i: nat)
    requires j < i <= |log| && log[j].GotMerkleblock?
    ensures AllHere(log[..i], j, i) <==> AllHere(log, j, i)
  {
    forall h ensures Arrivals(log[..i], j, i, h) == Arrivals(log, j, i, h) {
      ArrivalsOf(log[..i], log, j, i, h);
    }
    hide Arrivals;
  }

  //////////////////////////////// What single messages do ////////////////////////////////

  /** Exactly the headers before the first that is not valid are handed on, in order. */
  lemma {:induction false} HeadersHandedOn(c: Context, headers: seq<Header>) returns (n: nat)
    ensures n <= |headers| && (forall k :: 0 <= k < n ==> headers[k].valid) && (n < |headers| ==> !headers[n].valid)
    ensures var (d, ok) := c.AfterHeaders(headers);
            && (ok <==> n == |headers|) && |d.log| == |c.log| + n && c.log <= d.log
            && (forall k :: 0 <= k < n ==> d.log[|c.log| + k] == RelayedHeader(headers[k].hash))
  {
    if headers == [] {
      n := 0;
    } else {
      var last := |headers| - 1;
      n := HeadersHandedOn(c, headers[..last]);
      assert n < last ==> headers[..last][n] == headers[n];
      if n == last && headers[last].valid {
        n := n + 1;
      }
    }
  }

  /** The hashes that requests may make known. */
  function ToldBy(requests: seq<Request>): set<Hash> {
    if requests == [] then {}
    else
      ToldBy(requests[..|requests| - 1]) +
      match requests[|requests| - 1]
      case Announce(txs) => set h | h in txs
      case Mempool(hashes, _, _) => set h | h in hashes
      case _ => {}
  }

  lemma OneRequest(c: Context, request: Request)
    ensures var d := c.AfterRequest(request);
            && c.log <= d.log && c.known <= d.known
            && match request
               case Announce(txs) => d.known == c.known + set h | h in txs
               case Mempool(hashes, _, _) => d.known <= c.known + set h | h in hashes
               case _ => d.known == c.known
  {
    hide FromLast, AskedFor, FailedAtOnce;
  }

  lemma {:induction false} RequestsMakeKnown(c: Context, requests: seq<Request>)
    ensures c.known <= c.AfterRequests(requests).known <= c.known + ToldBy(requests)
    ensures forall r, h :: r in requests && r.Announce? && h in r.txs ==> h in c.AfterRequests(requests).known
  {
    hide Context.AfterRequest;
    if requests != [] {
      var rest, last := requests[..|requests| - 1], requests[|requests| - 1];
      RequestsMakeKnown(c, rest);
      OneRequest(c.AfterRequests(rest), last);
      assert requests == rest + [last];
    }
  }

  /** After an inventory that is neither refused nor dropped, what it announces is known, and nothing else new but
      what the program tells of. Refused are transactions before there is a filter or more than 10000, and between 3
      and 499 blocks that end below the height the peer claims. */
  lemma InventoryMakesKnown(c: Context, inventory: Inventory, during: seq<Request>)
    requires c.block.None?
    ensures var (d, ok) := c.After(Inv(Some(inventory)), during);
            var Inventory(txs, blocks, others) := inventory;
            if |txs| + |blocks| + others > 50000 then d == c && ok
            else
              && (ok <==>
                    && !(txs != [] && !c.sentFilter && !c.sentMempool && !c.sentGetblocks) && |txs| <= 10000
                    && !(c.currentBlockHeight > 0 && 3 <= |blocks| <= 499
                         && c.currentBlockHeight + |c.knownBlocks| + |blocks| < c.lastblock))
              && if ok then
                   && c.known + (set h | h in txs) <= d.known <= c.known + (set h | h in txs) + ToldBy(during)
                   && (txs != [] ==> d.mempool.None?)
                 else d == c
  {
    hide Trimmed, Unknown, Context.AfterRequests, ToldBy;
    RequestsMakeKnown(c.Remembering(c.Wanted(inventory.blocks)), during);
  }

  /** Remembered are the newest block hashes: all while they are at most 50000, and otherwise at least 33334. */
  lemma {:induction false} TrimmedIs(s: seq<Hash>)
    ensures |Trimmed(s)| <= 50000 && |Trimmed(s)| <= |s| && Trimmed(s) == s[|s| - |Trimmed(s)|..]
    ensures if |s| <= 50000 then Trimmed(s) == s else |Trimmed(s)| >= 33334
    decreases |s|
  {
    if |s| > 50000 {
      TrimmedIs(s[|s| / 3..]);
    }
  }

  /** Only a pong with the nonce of the connection, while a ping waits, is accepted; it answers the ping that has waited
      longest and no other. */
  lemma PongAnswers(c: Context, nonce: Option<nat>, during: seq<Request>)
    requires c.block.None?
    ensures var (d, ok) := c.After(PongMessage(nonce), during);
            && (ok <==> nonce == Some(c.nonce) && c.queue != [])
            && if ok then c.log + [Unqueued(c.queue[0], true)] <= d.log && d.queue == c.queue[1..] + PingsIn(during)
               else d == c
  {
    if c.queue != [] {
      var e := c.(queue := c.queue[1..], log := c.log + [Unqueued(c.queue[0], true)]);
      PingsQueue(e, during);
      LogGrows(e, during);
    }
    hide Context.AfterRequests, PingsIn;
  }

  lemma {:induction false} LogGrows(c: Context, requests: seq<Request>)
    ensures c.log <= c.AfterRequests(requests).log
  {
    hide Context.AfterRequest;
    if requests != [] {
      LogGrows(c, requests[..|requests| - 1]);
      OneRequest(c.AfterRequests(requests[..|requests| - 1]), requests[|requests| - 1]);
    }
  }

  /** A mempool request with a callback is answered by a ping at the first look at the clock ten seconds later or
      more. */
  lemma MempoolTimesOut(c: Context, hashes: seq<Hash>, callback: Callback, now: nat, time: nat)
    requires !c.sentMempool && c.mempool.None?
    ensures var d := c.AfterMempool(hashes, Some(callback), now);
            && d.mempool == Some(callback) && c.known + (set h | h in hashes) == d.known
            && d.AfterTick(time) == if time < now + 10 then d
                                    else d.(queue := d.queue + [Some(callback)], mempool := None, mempoolTime := None,
                                            log := d.log + [Queued(Some(callback))])
  {
  }

  /** Transactions and blocks are refused until a filter is loaded or some hashes, at most 50000, are asked for. */
  lemma RefusedUntilAsked(c: Context, tx: Hash, block: MerkleBlock, count: nat, during: seq<Request>)
    requires !c.sentFilter && !c.sentGetdata && c.block.None?
    ensures c.After(TxMessage(Some(tx)), during) == (c, false)
    ensures c.After(MerkleblockMessage(Some(block)), during) == (c, false)
    ensures c.AfterRequest(Filterload).After(TxMessage(Some(tx)), during).1
    ensures c.AfterRequest(Filterload).After(MerkleblockMessage(Some(block)), during).1
    ensures c.AfterRequest(Getdata(count)).After(TxMessage(Some(tx)), during).1 <==> 1 <= count <= 50000
  {
    hide Context.AfterTx, Context.AfterMerkleblock, Context.AfterRequests;
  }

  //////////////////////////////// The connection ////////////////////////////////

  class BRPeer {
    var sentFilter: bool
    var sentGetdata: bool
    var sentMempool: bool
    var sentGetblocks: bool
    var needsFilterUpdate: bool
    var lastblock: nat
    var currentBlockHeight: nat
    var nonce: nat
    var lastBlockHash: Hash
    var currentBlock: Option<MerkleBlock>
    var currentBlockTxHashes: seq<Hash>
    var knownBlockHashes: seq<Hash>
    var knownTxHashSet: set<Hash>
    var pongCallback: seq<Option<Callback>>
    var mempoolCallback: Option<Callback>
    var mempoolTime: Option<nat>
    ghost var log: seq<Entry>

    constructor ()
      ensures TheContext() == Fresh()
    {
      nonce := 0;
      sentFilter, sentGetdata, sentMempool, sentGetblocks, needsFilterUpdate := false, false, false, false, false;
      lastblock, currentBlockHeight, lastBlockHash := 0, 0, 0;
      currentBlock, currentBlockTxHashes, knownBlockHashes, knownTxHashSet := None, [], [], {};
      pongCallback, mempoolCallback, mempoolTime := [], None, None;
      log := [];
    }

    ghost function TheContext(): Context
      reads this
    {
      Context(sentFilter, sentGetdata, sentMempool, sentGetblocks, needsFilterUpdate, lastblock, currentBlockHeight,
              nonce, lastBlockHash, currentBlock, currentBlockTxHashes, knownBlockHashes, knownTxHashSet, pongCallback,
              mempoolCallback, mempoolTime, log)
    }

    //////////////////////////////// Requests ////////////////////////////////

    /** Sends a ping; its callback joins the queue. */
    method SendPing(callback: Option<Callback>)
      modifies this`pongCallback, this`log
      ensures TheContext() ==
                old(TheContext()).(queue := old(pongCallback) + [callback], log := old(log) + [Queued(callback)])
    {
      pongCallback := pongCallback + [callback];
      log := log + [Queued(callback)];
    }

    method AddKnownTxHashes(txHashes: seq<Hash>)
      modifies this`knownTxHashSet
      ensures knownTxHashSet == old(knownTxHashSet) + set h | h in txHashes
    {
      for i := 0 to |txHashes|
        invariant knownTxHashSet == old(knownTxHashSet) + set h | h in txHashes[..i]
      {
        assert txHashes[..i + 1] == txHashes[..i] + [txHashes[i]];
        if txHashes[i] !in knownTxHashSet {
          knownTxHashSet := knownTxHashSet + {txHashes[i]};
        }
      }
      assert txHashes[..|txHashes|] == txHashes;
    }

    /** Asks for the memory pool; a second request is refused at once. */
    method SendMempool(knownTxHashes: seq<Hash>, completionCallback: Option<Callback>, now: nat)
      modifies this`sentMempool, this`knownTxHashSet, this`mempoolTime, this`mempoolCallback, this`log
      ensures TheContext() == old(TheContext()).AfterMempool(knownTxHashes, completionCallback, now)
    {
      hide AskedFor, FailedAtOnce;
      var sent := sentMempool;
      sentMempool := true;
      log := log + AskedFor(completionCallback);
      if !sent && mempoolCallback.None? {
        AddKnownTxHashes(knownTxHashes);
        if completionCallback.Some? {
          mempoolTime := Some(now + 10);
          mempoolCallback := completionCallback;
        }
      } else {
        log := log + FailedAtOnce(completionCallback);
      }
    }

    /** Asks again for the blocks announced since a block. */
    method RerequestBlocks(fromBlock: Hash)
      modifies this`knownBlockHashes, this`sentGetdata
      ensures TheContext() == old(TheContext()).AfterRequest(Rerequest(fromBlock))
    {
      hide FromLast;
      var i := FindBlock(fromBlock);
      if i > 0 {
        knownBlockHashes := knownBlockHashes[i - 1..];
        SendGetdata(|knownBlockHashes|);
      }
    }

    /** The number of block hashes up to the last one that is the given one. */
    method FindBlock(h: Hash) returns (i: nat)
      ensures i <= |knownBlockHashes|
      ensures FromLast(knownBlockHashes, h) == if i > 0 then knownBlockHashes[i - 1..] else []
    {
      i := |knownBlockHashes|;
      while i > 0 && knownBlockHashes[i - 1] != h
        invariant i <= |knownBlockHashes| && h !in knownBlockHashes[i..]
      {
        assert knownBlockHashes[i - 1..] == [knownBlockHashes[i - 1]] + knownBlockHashes[i..];
        i := i - 1;
      }
      assert knownBlockHashes[0..] == knownBlockHashes;
      if i > 0 {
        FromLastAt(knownBlockHashes, h, i - 1);
      } else {
        FromLastAbsent(knownBlockHashes, h);
      }
    }

    method SendGetdata(count: nat)
      modifies this`sentGetdata
      ensures sentGetdata == (old(sentGetdata) || 0 < count <= MAX_GETDATA_HASHES)
    {
      if 0 < count <= MAX_GETDATA_HASHES {
        sentGetdata := true;
      }
    }

    /** Loads a bloom filter; the memory pool may be asked for again. */
    method SendFilterload()
      modifies this`sentFilter, this`sentMempool
      ensures sentFilter && !sentMempool
    {
      sentFilter := true;
      sentMempool := false;
    }

    method Make(request: Request)
      modifies this`sentFilter, this`sentGetdata, this`sentMempool, this`needsFilterUpdate, this`currentBlockHeight,
               this`knownBlockHashes, this`knownTxHashSet, this`pongCallback, this`mempoolCallback, this`mempoolTime,
               this`log
      ensures TheContext() == old(TheContext()).AfterRequest(request)
    {
      hide AskedFor, FailedAtOnce, FromLast;
      match request
      case Ping(callback) =>
        log := log + AskedFor(callback);
        SendPing(callback);
      case Mempool(hashes, completion, now) => SendMempool(hashes, completion, now);
      case Filterload => SendFilterload();
      case Getdata(count) => SendGetdata(count);
      case Announce(txs) => AddKnownTxHashes(txs);
      case Rerequest(fromBlock) => RerequestBlocks(fromBlock);
      case SetHeight(height) => currentBlockHeight := height;
      case SetNeedsFilterUpdate(needs) => needsFilterUpdate := needs;
    }

    /** The requests that callbacks make, or others at the same time. */
    method MakeAll(requests: seq<Request>)
      modifies this`sentFilter, this`sentGetdata, this`sentMempool, this`needsFilterUpdate, this`currentBlockHeight,
               this`knownBlockHashes, this`knownTxHashSet, this`pongCallback, this`mempoolCallback, this`mempoolTime,
               this`log
      ensures TheContext() == old(TheContext()).AfterRequests(requests)
    {
      hide Context.AfterRequest;
      for i := 0 to |requests|
        invariant TheContext() == old(TheContext()).AfterRequests(requests[..i])
      {
        assert requests[..i + 1][..i] == requests[..i];
        Make(requests[i]);
      }
      assert requests[..|requests|] == requests;
    }

    //////////////////////////////// Messages ////////////////////////////////

    /** The memory pool has answered or has taken too long: its callback goes with a ping. */
    method PingForMempool()
      modifies this`pongCallback, this`log, this`mempoolCallback, this`mempoolTime
      ensures TheContext() == old(TheContext()).Pinged()
    {
      SendPing(mempoolCallback);
      mempoolCallback := None;
      mempoolTime := None;
    }

    /** A pong calls back whoever pinged first. */
    method AcceptPong(received: Option<nat>, during: seq<Request>) returns (r: bool)
      modifies this
      ensures (TheContext(), r) == old(TheContext()).AfterPong(received, during)
    {
      hide Context.AfterRequests;
      if received.None? || received.value != nonce || |pongCallback| == 0 {
        return false;
      }
      Unqueue(true);
      MakeAll(during);
      r := true;
    }

    /** Takes the first callback out of the queue and calls it. */
    method Unqueue(success: bool)
      requires pongCallback != []
      modifies this`pongCallback, this`log
      ensures TheContext() ==
              old(TheContext()).(queue := old(pongCallback)[1..],
                                 log := old(log) + [Unqueued(old(pongCallback)[0], success)])
    {
      log := log + [Unqueued(pongCallback[0], success)];
      pongCallback := pongCallback[1..];
    }

    /** A transaction is handed on; if a block is being collected it is ticked off, and the complete block is
        relayed. */
    method AcceptTx(tx: Option<Hash>, during: seq<Request>) returns (r: bool)
      modifies this
      ensures r <==> tx.Some? && old(sentFilter || sentGetdata)
      ensures TheContext() == if r then old(TheContext()).AfterTx(tx.value, during) else old(TheContext())
    {
      hide Context.AfterRequests, WithoutLast;
      r := tx.Some? && (sentFilter || sentGetdata);
      if r {
        log := log + [GotTx(tx.value)];
        MakeAll(during);
        if currentBlock.Some? {
          TickOff(tx.value);
          if |currentBlockTxHashes| == 0 {
            log := log + [RelayedBlock(currentBlock.value)];
            currentBlock := None;
          }
        }
      }
    }

    /** Removes the last entry for a transaction from those missing. */
    method TickOff(h: Hash)
      modifies this`currentBlockTxHashes
      ensures currentBlockTxHashes == WithoutLast(old(currentBlockTxHashes), h)
    {
      var i := |currentBlockTxHashes|;
      while i > 0 && currentBlockTxHashes[i - 1] != h
        invariant 0 <= i <= |currentBlockTxHashes| && h !in currentBlockTxHashes[i..]
      {
        assert currentBlockTxHashes[i - 1..] == [currentBlockTxHashes[i - 1]] + currentBlockTxHashes[i..];
        i := i - 1;
      }
      assert currentBlockTxHashes[0..] == currentBlockTxHashes;
      if i > 0 {
        WithoutLastAt(currentBlockTxHashes, h, i - 1);
        currentBlockTxHashes := currentBlockTxHashes[..i - 1] + currentBlockTxHashes[i..];
      } else {
        WithoutLastAbsent(currentBlockTxHashes, h);
      }
    }

    /** A merkleblock: relayed at once if all its matched transactions are known, collected otherwise. */
    method AcceptMerkleblock(block: Option<MerkleBlock>, during: seq<Request>) returns (r: bool)
      modifies this
      ensures r <==> block.Some? && old(sentFilter || sentGetdata)
      ensures TheContext() ==
              if r then old(TheContext()).AfterMerkleblock(block.value).AfterRequests(during) else old(TheContext())
    {
      hide Context.AfterRequests, Missing;
      r := block.Some? && (sentFilter || sentGetdata);
      if r {
        log := log + [GotMerkleblock(block.value, knownTxHashSet)];
        FindMissing(block.value.matched);
        if |currentBlockTxHashes| > 0 {
          currentBlock := block;
        } else {
          log := log + [RelayedBlock(block.value)];
        }
        MakeAll(during);
      }
    }

    /** Lists the matched transactions that are not known, from the last to the first. */
    method FindMissing(matched: seq<Hash>)
      modifies this`currentBlockTxHashes
      ensures currentBlockTxHashes == old(currentBlockTxHashes) + Missing(matched, knownTxHashSet)
    {
      var i := |matched|;
      while i > 0
        invariant 0 <= i <= |matched|
        invariant currentBlockTxHashes == old(currentBlockTxHashes) + Missing(matched[i..], knownTxHashSet)
      {
        assert matched[i - 1..] == [matched[i - 1]] + matched[i..];
        if matched[i - 1] !in knownTxHashSet {
          currentBlockTxHashes := currentBlockTxHashes + [matched[i - 1]];
        }
        i := i - 1;
      }
      assert matched[0..] == matched;
    }

    /** An inventory: unknown transactions and blocks are asked for, and a waiting mempool request is answered. */
    method AcceptInv(inventory: Option<Inventory>, during: seq<Request>) returns (r: bool)
      modifies this
      ensures (TheContext(), r) ==
              if inventory.None? then (old(TheContext()), false)
              else old(TheContext()).AfterInv(inventory.value, during)
    {
      hide Context.AfterStandard;
      if inventory.None? {
        return false;
      }
      var Inventory(txs, blocks, others) := inventory.value;
      r := true;
      if |txs| + |blocks| + others <= MAX_GETDATA_HASHES {
        if |txs| > 0 && !sentFilter && !sentMempool && !sentGetblocks {
          r := false;
        } else if |txs| > 10000 {
          r := false;
        } else if currentBlockHeight > 0 && |blocks| > 2 && |blocks| < 500 &&
                  currentBlockHeight + |knownBlockHashes| + |blocks| < lastblock {
          r := false;
        } else {
          AskFor(txs, blocks, during);
        }
      }
    }

    /** Asks for the unknown transactions and the blocks of an inventory. */
    method AskFor(txs: seq<Hash>, blockHashes: seq<Hash>, during: seq<Request>)
      modifies this
      ensures TheContext() == old(TheContext()).AfterStandard(txs, blockHashes, during)
    {
      hide Unknown, Trimmed, Context.AfterRequests, Context.Remembering, Context.Wanted;
      var blocks := WantedBlocks(blockHashes);
      MakeAll(during);
      AskForUnknown(txs, |blocks|);
      if |txs| > 0 && mempoolCallback.Some? {
        PingForMempool();
      }
    }

    method AskForUnknown(txs: seq<Hash>, blockCount: nat)
      modifies this`knownTxHashSet, this`sentGetdata
      ensures TheContext() == old(TheContext()).AskingFor(txs, blockCount)
    {
      hide Unknown;
      var unknown := FindUnknown(txs);
      UnknownHas(txs, knownTxHashSet);
      AddKnownTxHashes(unknown);
      SendGetdata(|unknown| + blockCount);
    }

    /** The announced blocks to ask for; they are remembered in case the filter changes. */
    method WantedBlocks(blockHashes: seq<Hash>) returns (blocks: seq<Hash>)
      modifies this`lastBlockHash, this`knownBlockHashes
      ensures var wanted := old(TheContext()).Wanted(blockHashes);
              && blocks == (if needsFilterUpdate then [] else wanted)
              && TheContext() == old(TheContext()).Remembering(wanted)
    {
      blocks := blockHashes;
      if !sentFilter && !sentGetblocks {
        blocks := [];
      }
      if |blocks| == 1 && lastBlockHash == blocks[0] {
        blocks := [];
      }
      if |blocks| == 1 {
        lastBlockHash := blocks[0];
      }
      RememberBlocks(blocks);
      if needsFilterUpdate {
        blocks := [];
      }
    }

    /** Remembers block hashes, forgetting the oldest third while there are too many. */
    method RememberBlocks(blocks: seq<Hash>)
      modifies this`knownBlockHashes
      ensures knownBlockHashes == Trimmed(old(knownBlockHashes) + blocks)
    {
      knownBlockHashes := knownBlockHashes + blocks;
      while |knownBlockHashes| > MAX_GETDATA_HASHES
        invariant Trimmed(knownBlockHashes) == Trimmed(old(knownBlockHashes) + blocks)
        decreases |knownBlockHashes|
      {
        knownBlockHashes := knownBlockHashes[|knownBlockHashes| / 3..];
      }
    }

    method FindUnknown(txs: seq<Hash>) returns (unknown: seq<Hash>)
      ensures unknown == Unknown(txs, knownTxHashSet)
    {
      unknown := [];
      for i := 0 to |txs|
        invariant unknown == Unknown(txs[..i], knownTxHashSet)
      {
        assert txs[..i + 1][..i] == txs[..i];
        if txs[i] !in knownTxHashSet {
          unknown := unknown + [txs[i]];
        }
      }
      assert txs[..|txs|] == txs;
    }

    /** Headers are handed on up to the first that is not valid. */
    method AcceptHeaders(headers: Option<seq<Header>>, during: seq<Request>) returns (r: bool)
      modifies this
      ensures (TheContext(), r) ==
              if headers.None? then (old(TheContext()), false)
              else (old(TheContext()).AfterHeaders(headers.value).0.AfterRequests(during),
                    old(TheContext()).AfterHeaders(headers.value).1)
    {
      hide Context.AfterRequests;
      r := headers.Some?;
      if r {
        for i := 0 to |headers.value|
          invariant (TheContext(), r) == old(TheContext()).AfterHeaders(headers.value[..i])
        {
          assert headers.value[..i + 1][..i] == headers.value[..i];
          r := r && headers.value[i].valid;
          if r {
            log := log + [RelayedHeader(headers.value[i].hash)];
          }
        }
        assert headers.value[..|headers.value|] == headers.value;
        MakeAll(during);
      }
    }

    /** One message. Anything but a transaction while a block is being collected gives the block up. */
    method AcceptMessage(message: Message, during: seq<Request>) returns (r: bool)
      modifies this
      ensures (TheContext(), r) == old(TheContext()).After(message, during)
    {
      hide Context.AfterInv, Context.AfterTx, Context.AfterMerkleblock, Context.AfterPong, Context.AfterRequests;
      hide Context.AfterHeaders;
      if currentBlock.Some? && !message.TxMessage? {
        currentBlockTxHashes := [];
        currentBlock := None;
        log := log + [GaveUp];
        return false;
      }
      match message
      case Inv(inventory) => r := AcceptInv(inventory, during);
      case TxMessage(tx) => r := AcceptTx(tx, during);
      case MerkleblockMessage(block) => r := AcceptMerkleblock(block, during);
      case PongMessage(received) => r := AcceptPong(received, during);
      case HeadersMessage(headers) => r := AcceptHeaders(headers, during);
      case VersionMessage(height) =>
        r := height.Some?;
        if r {
          lastblock := height.value;
        }
      case OtherMessage(accepted) =>
        MakeAll(during);
        r := accepted;
    }

    //////////////////////////////// The thread ////////////////////////////////

    /** On disconnecting every callback still waiting is called, the pings in order. */
    method Drain(words: seq<seq<Request>>, lastWords: seq<Request>)
      modifies this
      ensures TheContext() == old(TheContext()).Disconnected(words, lastWords)
    {
      hide Context.AfterRequests;
      var spoken := 0;
      assert words[0..] == words;
      while |pongCallback| > 0
        invariant spoken <= |words|
        invariant TheContext().Drained(words[spoken..]) == old(TheContext()).Drained(words)
        decreases |words| - spoken, |pongCallback|
      {
        var callback := pongCallback[0];
        Unqueue(false);
        if callback.Some? && spoken < |words| {
          assert words[spoken..][1..] == words[spoken + 1..];
          MakeAll(words[spoken]);
          spoken := spoken + 1;
        }
      }
      FailMempool(lastWords);
    }

    /** The callback of the mempool request fails, if it still waits. */
    method FailMempool(lastWords: seq<Request>)
      modifies this
      ensures TheContext() == old(TheContext()).MempoolFailed(lastWords)
    {
      hide Context.AfterRequests;
      if mempoolCallback.Some? {
        log := log + [Called(mempoolCallback.value, false)];
        MakeAll(lastWords);
      }
      mempoolCallback := None;
    }

    /** The life of a connection: what happens on it until a message is refused or there is no more, and then what the
        callbacks that fail still ask for. */
    method ThreadRoutine(nonce: nat, events: seq<Event>, words: seq<seq<Request>>, lastWords: seq<Request>)
      modifies this
      ensures TheContext() == old(TheContext()).Life(nonce, events, words, lastWords)
    {
      hide Context.After, Context.Pinged, Context.AfterRequest, Context.Disconnected;
      this.nonce := nonce;
      var i, error := 0, false;
      ghost var start := TheContext();
      assert events[0..] == events;
      while i < |events| && !error
        invariant i <= |events|
        invariant start.AfterEvents(events) == if error then TheContext() else TheContext().AfterEvents(events[i..])
      {
        OneEvent(TheContext(), events, i);
        match events[i] {
          case Tick(time) =>
            if mempoolTime.Some? && time >= mempoolTime.value {
              PingForMempool();
            }
          case Received(message, during) =>
            var r := AcceptMessage(message, during);
            error := !r;
          case Requested(request) =>
            Make(request);
        }
        i := i + 1;
      }
      Drain(words, lastWords);
    }
  }

  lemma OneEvent(c: Context, events: seq<Event>, i: nat)
    requires i < |events|
    ensures var (d, ok) := c.AfterEvent(events[i]);
            c.AfterEvents(events[i..]) == if ok then d.AfterEvents(events[i + 1..]) else d
  {
    hide Context.AfterEvent;
    assert events[i..][1..] == events[i + 1..];
  }

  /** A merkleblock starts to be collected, or is relayed if nothing is missing. */
  lemma BlockStarts(log: seq<Entry>, block: MerkleBlock, known: set<Hash>, missing: seq<Hash>)
    requires BlockOk(log, None, []) && forall h :: h in block.matched ==> h in known || h in missing
    ensures var got := log + [GotMerkleblock(block, known)];
            if missing != [] then BlockOk(got, Some(block), missing)
            else BlockOk(got + [RelayedBlock(block)], None, [])
  {
    hide Collecting, RelayedComplete;
    CompleteLater(log, GotMerkleblock(block, known));
    StartCollecting(log, block, known, missing);
    if missing == [] {
      RelayIsComplete(log + [GotMerkleblock(block, known)], block);
    }
  }

  lemma NobodyWaits(others: multiset<Callback>, c: Option<Callback>)
    ensures c.None? ==> others + OneWaiting(c) == others
    ensures multiset{} + OneWaiting(c) == OneWaiting(c)
  {
  }
}
