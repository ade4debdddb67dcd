/** The wallet: its transactions in order of height, and the books kept on them. */
module Wallet {
  import opened Transaction
  import opened Ledger
  import opened Descendants

  lemma {:induction false} TotalAppends(env: Env, a: seq<Outpoint>, b: seq<Outpoint>)
    ensures Total(env, a + b) == Total(env, a) + Total(env, b)
  {
    if b == [] {
      assert a + b == a;
    } else {
      assert (a + b)[..|a + b| - 1] == a + b[..|b| - 1];
      TotalAppends(env, a, b[..|b| - 1]);
    }
  }

  lemma {:induction false} UnspentAppends(a: seq<Outpoint>, b: seq<Outpoint>, spent: set<Outpoint>)
    ensures Unspent(a + b, spent) == Unspent(a, spent) + Unspent(b, spent)
  {
    if b == [] {
      assert a + b == a;
    } else {
      assert (a + b)[..|a + b| - 1] == a + b[..|b| - 1];
      UnspentAppends(a, b[..|b| - 1], spent);
    }
  }

  lemma OneMoreInput(inputs: seq<Input>, j: nat)
    requires j < |inputs|
    ensures InputSet(inputs[..j + 1]) == InputSet(inputs[..j]) + {Spends(inputs[j])}
  {
    assert inputs[..j + 1] == inputs[..j] + [inputs[j]];
  }

  lemma OneMoreAddress(outputs: seq<Output>, j: nat)
    requires j < |outputs|
    ensures Addresses(outputs[..j + 1]) ==
            Addresses(outputs[..j]) + if outputs[j].address != "" then {outputs[j].address} else {}
  {
    assert outputs[..j + 1] == outputs[..j] + [outputs[j]];
  }

  lemma NoOutput(env: Env, tx: Tx)
    ensures OwnOutputs(env, tx, 0) == [] && Total(env, []) == 0 && Addresses(tx.outputs[..0]) == {}
  {
  }

  lemma OneMoreOutput(env: Env, tx: Tx, j: nat)
    requires j < |tx.outputs| && tx.hash in env.allTx && env.allTx[tx.hash] == tx
    ensures var address := tx.outputs[j].address;
            if address != "" && address in env.allAddrs then
              && OwnOutputs(env, tx, j + 1) == OwnOutputs(env, tx, j) + [Outpoint(tx.hash, j)]
              && Total(env, OwnOutputs(env, tx, j + 1)) == Total(env, OwnOutputs(env, tx, j)) + tx.outputs[j].amount
            else
              OwnOutputs(env, tx, j + 1) == OwnOutputs(env, tx, j)
  {
    var before := OwnOutputs(env, tx, j);
    TotalAppends(env, before, [Outpoint(tx.hash, j)]);
    assert Total(env, [Outpoint(tx.hash, j)]) == tx.outputs[j].amount;
  }

  predicate AllExist(allTx: map<Hash, Tx>, utxos: seq<Outpoint>) {
    forall o :: o in utxos ==> o.hash in allTx && o.n < |allTx[o.hash].outputs|
  }

  lemma Exists(allTx: map<Hash, Tx>, utxos: seq<Outpoint>, j: nat)
    requires AllExist(allTx, utxos) && j < |utxos|
    ensures utxos[j].hash in allTx && utxos[j].n < |allTx[utxos[j].hash].outputs|
  {
  }

  lemma UnspentOne(was: seq<Outpoint>, spent: set<Outpoint>)
    ensures Unspent([], spent) == [] && was[..|was|] + [] == was
  {
  }

  /** What dropping a spent output from the end of the part not yet looked at leaves. */
  lemma DropOne(was: seq<Outpoint>, utxos: seq<Outpoint>, spent: set<Outpoint>, j: nat)
    requires 0 < j <= |was| && utxos == was[..j] + Unspent(was[j..], spent)
    ensures j <= |utxos| && utxos[j - 1] == was[j - 1]
    ensures (if was[j - 1] in spent then utxos[..j - 1] + utxos[j..] else utxos)
         == was[..j - 1] + Unspent(was[j - 1..], spent)
  {
    assert was[j - 1..] == [was[j - 1]] + was[j..];
    UnspentAppends([was[j - 1]], was[j..], spent);
    assert Unspent([was[j - 1]], spent) == if was[j - 1] in spent then [] else [was[j - 1]];
    hide Unspent;
    assert was[..j] == was[..j - 1] + [was[j - 1]];
  }

  lemma InvalidMeans(b: Books, c: Books, tx: Tx)
    requires tx.Unconfirmed() && b.spentOutputs == c.spentOutputs && b.invalidTx == c.invalidTx
    ensures IsInvalid(b, tx) <==> exists j :: 0 <= j < |tx.inputs| && InvalidInput(c, tx.inputs[j])
  {
  }

  lemma PendingMeans(env: Env, b: Books, c: Books, tx: Tx)
    requires b.pendingTx == c.pendingTx
    ensures IsPending(env, b, tx) <==> IsPending(env, c, tx)
  {
  }

  lemma ConfirmedIsNeither(env: Env, b: Books, c: Books, tx: Tx)
    ensures !tx.Unconfirmed() ==> !IsInvalid(b, tx) && !IsPending(env, c, tx)
  {
  }

  lemma AddedExist(env: Env, utxos: seq<Outpoint>, tx: Tx)
    requires tx.hash in env.allTx && env.allTx[tx.hash] == tx && AllExist(env.allTx, utxos)
    ensures AllExist(env.allTx, utxos + OwnOutputs(env, tx, |tx.outputs|))
  {
    OwnOutputsAre(env, tx, |tx.outputs|);
  }

  lemma OneMoreTx(env: Env, order: seq<Hash>, n: nat)
    requires Listed(env, order) && n < |order|
    ensures Recompute(env, order, n + 1) == Step(env, Recompute(env, order, n), env.allTx[order[n]])
    ensures AllExist(env.allTx, Recompute(env, order, n).utxos)
    ensures Recompute(env, order, n).balance == Total(env, Recompute(env, order, n).utxos)
    ensures order[n] in env.allTx && env.allTx[order[n]].hash == order[n]
  {
    BooksBalance(env, order, n);
    hide Step, Total, Recompute;
    forall o | o in Recompute(env, order, n).utxos ensures o.hash in env.allTx && o.n < |env.allTx[o.hash].outputs| {
      assert Available(env, order, n, o);
    }
  }

  function Height(allTx: map<Hash, Tx>, h: Hash): nat {
    if h in allTx then allTx[h].blockHeight else 0
  }

  predicate Sorted(allTx: map<Hash, Tx>, order: seq<Hash>) {
    forall i, j :: 0 <= i < j < |order| ==> Height(allTx, order[i]) <= Height(allTx, order[j])
  }

  predicate Keyed(allTx: map<Hash, Tx>) {
    forall h :: h in allTx ==> allTx[h].hash == h
  }

  predicate Pays(tx: Tx, addrs: set<Address>) {
    exists i :: 0 <= i < |tx.outputs| && tx.outputs[i].address in addrs
  }

  predicate Draws(allTx: map<Hash, Tx>, addrs: set<Address>, input: Input) {
    && input.txHash in allTx && input.index < |allTx[input.txHash].outputs|
    && allTx[input.txHash].outputs[input.index].address in addrs
  }

  /** A transaction concerns the wallet if it pays one of its addresses or spends an output paying one. */
  predicate Concerns(allTx: map<Hash, Tx>, addrs: set<Address>, tx: Tx) {
    Pays(tx, addrs) || exists i :: 0 <= i < |tx.inputs| && Draws(allTx, addrs, tx.inputs[i])
  }

  /** Whether an output of the transaction pays an address of the wallet, or an input spends an output of the wallet. */
  predicate Involves(env: Env, tx: Tx) {
    || (exists i :: 0 <= i < |tx.outputs| && tx.outputs[i].address in env.allAddrs)
    || exists i :: 0 <= i < |tx.inputs| && env.IsWalletOutput(Outpoint(tx.inputs[i].txHash, tx.inputs[i].index))
  }

  /** What concerns the wallet is what pays it or spends from it. */
  lemma ConcernsIff(env: Env, tx: Tx)
    requires "" !in env.allAddrs
    ensures Concerns(env.allTx, env.allAddrs, tx) <==> Involves(env, tx)
  {
    forall i | 0 <= i < |tx.inputs|
      ensures Draws(env.allTx, env.allAddrs, tx.inputs[i]) <==>
                env.IsWalletOutput(Outpoint(tx.inputs[i].txHash, tx.inputs[i].index))
    {
    }
    hide Draws, Env.IsWalletOutput;
  }

  /** Once a confirmed transaction is listed, nothing that it spends counts as unspent. */
  lemma ConfirmedSpends(env: Env, order: seq<Hash>, tx: Tx)
    requires Listed(env, order) && tx.hash in order && env.allTx[tx.hash] == tx && !tx.Unconfirmed()
    ensures forall i :: 0 <= i < |tx.inputs| ==>
                          Outpoint(tx.inputs[i].txHash, tx.inputs[i].index) !in Recompute(env, order, |order|).utxos
  {
    hide Recompute;
    var k: nat :| k < |order| && order[k] == tx.hash;
    KindsAre(env, order, k, |order|);
    forall i | 0 <= i < |tx.inputs|
      ensures Outpoint(tx.inputs[i].txHash, tx.inputs[i].index) !in Recompute(env, order, |order|).utxos
    {
      assert SpentBy(env, order[k], Outpoint(tx.inputs[i].txHash, tx.inputs[i].index));
      NothingSpentIsLeft(env, order, k, Outpoint(tx.inputs[i].txHash, tx.inputs[i].index));
    }
  }

  predicate AllConcern(allTx: map<Hash, Tx>, addrs: set<Address>, order: seq<Hash>) {
    forall h :: h in order ==> h in allTx && Concerns(allTx, addrs, allTx[h])
  }

  ghost predicate SameMembers(a: seq<Hash>, b: seq<Hash>) {
    forall h :: h in a <==> h in b
  }

  ghost predicate InsertedIn(was: seq<Hash>, h: Hash, now: seq<Hash>) {
    exists i :: 0 <= i <= |was| && now == was[..i] + [h] + was[i..]
  }

  /** The entries from place i on have been moved up by one. */
  predicate Shifted(was: seq<Hash>, i: nat, now: seq<Hash>)
    requires i <= |was|
  {
    |now| == |was| + 1 && now[..i] == was[..i] && now[i + 1..] == was[i..]
  }

  lemma OneUp(was: seq<Hash>, i: nat, now: seq<Hash>)
    requires 0 < i <= |was| && Shifted(was, i, now)
    ensures now[i - 1] == was[i - 1] && Shifted(was, i - 1, now[i := now[i - 1]])
  {
    assert now[i - 1] == now[..i][i - 1];
    assert was[i - 1..] == [was[i - 1]] + was[i..];
  }

  lemma ShiftedInserts(was: seq<Hash>, i: nat, now: seq<Hash>, h: Hash)
    requires i <= |was| && Shifted(was, i, now)
    ensures now[i := h] == was[..i] + [h] + was[i..] && InsertedIn(was, h, now[i := h])
  {
    assert now[i := h] == now[..i] + [h] + now[i + 1..];
  }

  lemma HeightsOf(allTx: map<Hash, Tx>, a: Hash, b: Hash)
    requires a in allTx && b in allTx
    ensures Height(allTx, a) == allTx[a].blockHeight && Height(allTx, b) == allTx[b].blockHeight
  {
  }

  lemma InsertionSorts(allTx: map<Hash, Tx>, was: seq<Hash>, h: Hash, i: nat)
    requires i <= |was| && Sorted(allTx, was)
    requires forall j :: i <= j < |was| ==> Height(allTx, h) <= Height(allTx, was[j])
    requires i > 0 ==> Height(allTx, was[i - 1]) <= Height(allTx, h)
    ensures Sorted(allTx, was[..i] + [h] + was[i..])
  {
    hide Height;
    assert forall j :: 0 <= j < i ==> Height(allTx, was[j]) <= Height(allTx, h);
  }

  /** Knowing one more transaction keeps every listed one in its place and of concern. */
  lemma KnowingMore(allTx: map<Hash, Tx>, addrs: set<Address>, tx: Tx, order: seq<Hash>)
    requires tx.hash !in allTx && Keyed(allTx) && Sorted(allTx, order) && AllConcern(allTx, addrs, order)
    ensures var more := allTx[tx.hash := tx];
            && Keyed(more) && Sorted(more, order) && AllConcern(more, addrs, order)
            && (Concerns(allTx, addrs, tx) ==> Concerns(more, addrs, tx))
  {
    var more := allTx[tx.hash := tx];
    assert forall h :: h in order ==> Height(more, h) == Height(allTx, h);
    hide Height;
    forall h | h in order ensures h in more && Concerns(more, addrs, more[h]) {
      ConcernsStill(allTx, more, addrs, allTx[h]);
    }
    if Concerns(allTx, addrs, tx) {
      ConcernsStill(allTx, more, addrs, tx);
    }
  }

  lemma ConcernsStill(allTx: map<Hash, Tx>, more: map<Hash, Tx>, addrs: set<Address>, tx: Tx)
    requires Concerns(allTx, addrs, tx) && forall h :: h in allTx ==> h in more && more[h] == allTx[h]
    ensures Concerns(more, addrs, tx)
  {
    if !Pays(tx, addrs) {
      var i :| 0 <= i < |tx.inputs| && Draws(allTx, addrs, tx.inputs[i]);
      assert Draws(more, addrs, tx.inputs[i]);
    }
  }

  lemma InsertionKeeps(allTx: map<Hash, Tx>, addrs: set<Address>, was: seq<Hash>, h: Hash, now: seq<Hash>)
    requires InsertedIn(was, h, now) && h !in was && NoDuplicates(was) && AllConcern(allTx, addrs, was)
    requires h in allTx && Concerns(allTx, addrs, allTx[h])
    ensures NoDuplicates(now) && AllConcern(allTx, addrs, now)
  {
    hide Concerns;
  }

  predicate SortedWithout(allTx: map<Hash, Tx>, order: seq<Hash>, h: Hash) {
    forall i, j :: 0 <= i < j < |order| && order[i] != h && order[j] != h ==>
      Height(allTx, order[i]) <= Height(allTx, order[j])
  }

  lemma Reinserted(was: seq<Hash>, h: Hash, k: nat, rest: seq<Hash>, now: seq<Hash>)
    requires NoDuplicates(was) && k < |was| && was[k] == h && rest == was[..k] + was[k + 1..]
    requires InsertedIn(rest, h, now)
    ensures NoDuplicates(now) && SameMembers(now, was)
  {
    assert was == was[..k] + [h] + was[k + 1..];
    assert forall i :: 0 <= i < |rest| ==> rest[i] == was[if i < k then i else i + 1];
    assert h !in rest && NoDuplicates(rest);
    forall x ensures x in was <==> x == h || x in rest {
      if x in was {
        var i :| 0 <= i < |was| && was[i] == x;
        assert i < k ==> rest[i] == x;
        assert i > k ==> rest[i - 1] == x;
      }
    }
  }

  lemma RestSorted(allTx: map<Hash, Tx>, order: seq<Hash>, h: Hash, k: nat)
    requires SortedWithout(allTx, order, h) && NoDuplicates(order) && k <= |order|
    requires if k > 0 then order[k - 1] == h else h !in order
    ensures Sorted(allTx, if k > 0 then order[..k - 1] + order[k..] else order)
    ensures k > 0 ==> forall x :: x in order[..k - 1] + order[k..] ==> x in order
  {
    hide Height;
    if k > 0 {
      var rest := order[..k - 1] + order[k..];
      assert forall i :: 0 <= i < |rest| ==> rest[i] == order[if i < k - 1 then i else i + 1];
    }
  }

  lemma MembersConcern(allTx: map<Hash, Tx>, addrs: set<Address>, was: seq<Hash>, now: seq<Hash>)
    requires AllConcern(allTx, addrs, was) && SameMembers(was, now)
    ensures AllConcern(allTx, addrs, now)
  {
    hide Concerns;
  }

  lemma DrawnConcern(allTx: map<Hash, Tx>, addrs: set<Address>, input: Input)
    requires Draws(allTx, addrs, input)
    ensures Concerns(allTx, addrs, allTx[input.txHash])
  {
  }

  /** Forgetting a transaction of no concern leaves the listed ones as they are. */
  lemma Forgetting(allTx: map<Hash, Tx>, addrs: set<Address>, order: seq<Hash>, h: Hash)
    requires Keyed(allTx) && AllConcern(allTx, addrs, order) && SortedWithout(allTx, order, h)
    requires h in allTx && !Concerns(allTx, addrs, allTx[h])
    ensures Keyed(allTx - {h}) && AllConcern(allTx - {h}, addrs, order) && Sorted(allTx - {h}, order)
  {
    assert h !in order;
    forall input ensures Draws(allTx - {h}, addrs, input) <==> Draws(allTx, addrs, input) {
      if Draws(allTx, addrs, input) {
        DrawnConcern(allTx, addrs, input);
      }
    }
    assert forall x :: x != h ==> Height(allTx - {h}, x) == Height(allTx, x);
    hide Height;
  }

  lemma KeyedIsListed(env: Env, order: seq<Hash>)
    requires Keyed(env.allTx) && NoDuplicates(order) && AllConcern(env.allTx, env.allAddrs, order)
    ensures Listed(env, order)
  {
  }

  function SetOf(hashes: seq<Hash>): set<Hash> {
    set h | h in hashes
  }

  lemma OneMoreHash(hashes: seq<Hash>, i: nat)
    requires i < |hashes|
    ensures SetOf(hashes[..i + 1]) == SetOf(hashes[..i]) + {hashes[i]}
  {
    assert hashes[..i + 1] == hashes[..i] + [hashes[i]];
  }

  predicate Differs(env: Env, h: Hash, height: nat, timestamp: nat) {
    h in env.allTx && !(env.allTx[h].blockHeight == height && env.allTx[h].timestamp == timestamp)
  }

  /** Whether h is a transaction of the wallet that is not recorded with this height and time. */
  predicate Changes(env: Env, h: Hash, height: nat, timestamp: nat) {
    Differs(env, h, height, timestamp) && Concerns(env.allTx, env.allAddrs, env.allTx[h])
  }

  /** Whether h is a transaction of no concern that is forgotten on being confirmed. */
  predicate Forgotten(env: Env, h: Hash, height: nat, timestamp: nat) {
    && Differs(env, h, height, timestamp) && height != TX_UNCONFIRMED
    && !Concerns(env.allTx, env.allAddrs, env.allTx[h])
  }

  /** The known transactions once some have been recorded with a height and time. */
  function Recorded(env: Env, hashes: set<Hash>, height: nat, timestamp: nat): map<Hash, Tx> {
    map h | h in env.allTx && !(h in hashes && Forgotten(env, h, height, timestamp)) ::
      if h in hashes then env.allTx[h].(blockHeight := height, timestamp := timestamp) else env.allTx[h]
  }

  /** Recording forgets exactly the transactions given that become confirmed, differ and do not involve the wallet; the
      other ones given get the height and time, and the rest stay as they are. */
  lemma RecordedIs(env: Env, hashes: set<Hash>, height: nat, timestamp: nat, h: Hash)
    requires "" !in env.allAddrs && h in env.allTx
    ensures var tx, after := env.allTx[h], Recorded(env, hashes, height, timestamp);
            if h in hashes && height != 0x7fff_ffff && !Involves(env, tx)
               && (tx.blockHeight != height || tx.timestamp != timestamp)
            then h !in after
            else
              && h in after
              && after[h] == if h in hashes then tx.(blockHeight := height, timestamp := timestamp) else tx
  {
    ConcernsIff(env, env.allTx[h]);
    hide Concerns, Involves;
  }

  lemma RecordedNone(env: Env, height: nat, timestamp: nat)
    ensures Recorded(env, {}, height, timestamp) == env.allTx
  {
    hide Forgotten;
  }

  lemma ConcernsRecorded(env: Env, hashes: set<Hash>, height: nat, timestamp: nat, tx: Tx)
    ensures Concerns(Recorded(env, hashes, height, timestamp), env.allAddrs, tx) <==>
            Concerns(env.allTx, env.allAddrs, tx)
  {
    var now := Recorded(env, hashes, height, timestamp);
    forall input ensures Draws(now, env.allAddrs, input) <==> Draws(env.allTx, env.allAddrs, input) {
      var h := input.txHash;
      if Draws(env.allTx, env.allAddrs, input) {
        assert Pays(env.allTx[h], env.allAddrs);
        assert h in now;
      }
    }
  }

  lemma ConcernsRetimed(allTx: map<Hash, Tx>, addrs: set<Address>, tx: Tx, height: nat, timestamp: nat)
    ensures Concerns(allTx, addrs, tx.(blockHeight := height, timestamp := timestamp)) <==> Concerns(allTx, addrs, tx)
  {
    var t := tx.(blockHeight := height, timestamp := timestamp);
    assert Pays(t, addrs) == Pays(tx, addrs);
    hide Draws;
  }

  lemma OneMoreRecorded(env: Env, seen: set<Hash>, h: Hash, height: nat, timestamp: nat)
    ensures var was, now := Recorded(env, seen, height, timestamp), Recorded(env, seen + {h}, height, timestamp);
            if h in was && !(was[h].blockHeight == height && was[h].timestamp == timestamp) then
              var set1 := was[h := was[h].(blockHeight := height, timestamp := timestamp)];
              && h !in seen
              && (Concerns(set1, env.allAddrs, set1[h]) <==> Changes(env, h, height, timestamp))
              && now == (if Concerns(set1, env.allAddrs, set1[h]) || height == TX_UNCONFIRMED then set1 else set1 - {h})
            else now == was && (h in seen || !Changes(env, h, height, timestamp))
  {
    var was := Recorded(env, seen, height, timestamp);
    if h in was && !(was[h].blockHeight == height && was[h].timestamp == timestamp) {
      var t := was[h].(blockHeight := height, timestamp := timestamp);
      var set1 := was[h := t];
      ConcernsSameOutputs(was, set1, env.allAddrs, t);
      ConcernsRecorded(env, seen, height, timestamp, t);
      ConcernsRetimed(env.allTx, env.allAddrs, was[h], height, timestamp);
      hide Concerns;
    }
  }

  /** When a height is recorded for transactions of which the listed ones are neither pending nor invalid, the list
      keeps its order, and neither the wallet's height nor the time goes back, the books stay what recomputing
      gives if and only if every pending transaction is still pending. */
  lemma ConfirmingKeepsBooksIff(env: Env, order: seq<Hash>, hashes: set<Hash>, height: nat, timestamp: nat,
                                tip: nat, now: nat)
    requires Keyed(env.allTx) && NoDuplicates(order) && AllConcern(env.allTx, env.allAddrs, order)
    requires env.tip <= tip && env.now <= now && height != TX_UNCONFIRMED && Listed(env, order)
    requires var books := Recompute(env, order, |order|);
             forall h :: h in hashes && h in order && Changes(env, h, height, timestamp) ==>
                           h !in books.pendingTx && h !in books.invalidTx
    ensures var later := Env(Recorded(env, hashes, height, timestamp), env.allAddrs, tip, now);
            var books := Recompute(env, order, |order|);
            && Listed(later, order)
            && (Recompute(later, order, |order|) == books <==>
                  forall i: nat :: i < |order| && order[i] in books.pendingTx ==>
                                     IsPending(later, Spending(env, order, i), env.allTx[order[i]]))
  {
    hide Recompute, Concerns, Keyed, IsPending, InvalidAt, PendingAt, Spending, SameKind;
    var later := Env(Recorded(env, hashes, height, timestamp), env.allAddrs, tip, now);
    forall i: nat | i < |order|
      ensures SameKind(env, later, order, i) <==>
                (PendingAt(env, order, i) ==> IsPending(later, Spending(env, order, i), env.allTx[order[i]]))
    {
      KindsAre(env, order, i, |order|);
      if InvalidAt(env, order, i) || PendingAt(env, order, i) {
        assert later.allTx[order[i]] == env.allTx[order[i]];
      }
      KindAfterRecording(env, later, order, i);
    }
    forall i: nat | i < |order|
      ensures order[i] in Recompute(env, order, |order|).pendingTx <==> PendingAt(env, order, i)
    {
      KindsAre(env, order, i, |order|);
    }
    StillRightIff(env, later, order);
  }

  lemma KindAfterRecording(a: Env, b: Env, order: seq<Hash>, i: nat)
    requires SameButHeights(a, b, order) && a.tip <= b.tip && a.now <= b.now && i < |order|
    requires InvalidAt(a, order, i) || PendingAt(a, order, i) ==> b.allTx[order[i]] == a.allTx[order[i]]
    requires b.allTx[order[i]] == a.allTx[order[i]] || !b.allTx[order[i]].Unconfirmed()
    ensures SameKind(a, b, order, i) <==>
              (PendingAt(a, order, i) ==> IsPending(b, Spending(a, order, i), a.allTx[order[i]]))
  {
    hide Recompute, Size, InputSet;
  }

  function Receipt(h: Hash, amount: nat, height: nat): Tx {
    Tx(h, [Input(h + 10, 0, SEQUENCE_FINAL, Signed(107))], [Output("mine", amount, 25)], 0, height, 0)
  }

  lemma ReceiptIsSmall(h: Hash, amount: nat, height: nat)
    ensures Size(Receipt(h, amount, height)) <= TX_MAX_SIZE
  {
    var tx := Receipt(h, amount, height);
    assert InputSizes(tx.inputs[..0]) == 0 && OutputSizes(tx.outputs[..0]) == 0;
    assert InputSizes(tx.inputs) == InputSize(tx.inputs[0]) && OutputSizes(tx.outputs) == OutputSize(tx.outputs[0]);
  }

  lemma ReceiptIsNeither(env: Env, b: Books, h: Hash, amount: nat, height: nat)
    requires amount >= TX_MIN_OUTPUT_AMOUNT
    requires Outpoint(h + 10, 0) !in b.spentOutputs && h + 10 !in b.invalidTx && h + 10 !in b.pendingTx
    ensures var tx := Receipt(h, amount, height);
            var spent := b.spentOutputs + InputSet(tx.inputs);
            !IsInvalid(b, tx) && !IsPending(env, b.(spentOutputs := spent), tx)
  {
    ReceiptIsSmall(h, amount, height);
    hide Size, InputSet;
  }

  lemma FirstReceipt(env: Env, order: seq<Hash>, amount: nat, height: nat)
    requires Listed(env, order) && |order| > 0 && env.allTx[order[0]] == Receipt(order[0], amount, height)
    requires "mine" in env.allAddrs && amount >= TX_MIN_OUTPUT_AMOUNT
    ensures Accepted(env, order, 0)
    ensures var b := Recompute(env, order, 1);
            && b.balanceHist == [amount] && b.spentOutputs == InputSet(env.allTx[order[0]].inputs)
            && b.invalidTx == b.pendingTx == {}
  {
    var tx := env.allTx[order[0]];
    ReceiptIsNeither(env, EMPTY, order[0], amount, height);
    OneReceived(env, order[0], amount, height);
    hide IsInvalid, IsPending, OwnOutputs, Unspent, Total, InputSet;
    NoTx(env, order);
    assert EMPTY.utxos + OwnOutputs(env, tx, 1) == [Outpoint(order[0], 0)];
    assert EMPTY.spentOutputs + InputSet(tx.inputs) == InputSet(tx.inputs);
  }

  lemma OneReceived(env: Env, h: Hash, amount: nat, height: nat)
    requires h in env.allTx && env.allTx[h] == Receipt(h, amount, height) && "mine" in env.allAddrs
    ensures var tx := Receipt(h, amount, height);
            && OwnOutputs(env, tx, 1) == [Outpoint(h, 0)]
            && Unspent([Outpoint(h, 0)], InputSet(tx.inputs)) == [Outpoint(h, 0)]
            && Total(env, [Outpoint(h, 0)]) == amount
  {
    var tx := Receipt(h, amount, height);
    assert OwnOutputs(env, tx, 0) == [];
    assert Unspent([Outpoint(h, 0)][..0], InputSet(tx.inputs)) == [];
    assert Total(env, [Outpoint(h, 0)][..0]) == 0;
  }

  /** Two payments that are not confirmed, the second of height other. */
  function TwoReceipts(other: nat): map<Hash, Tx> {
    map[1 := Receipt(1, 10000, TX_UNCONFIRMED), 2 := Receipt(2, 20000, other)]
  }

  lemma RecordingSecond(env: Env)
    requires env.allTx == TwoReceipts(TX_UNCONFIRMED) && env.allAddrs == {"mine"}
    ensures Recorded(env, {2}, 101, 0) == TwoReceipts(101)
  {
    assert Concerns(env.allTx, env.allAddrs, env.allTx[2]) by {
      assert env.allTx[2].outputs[0].address in env.allAddrs;
    }
  }

  lemma BothAccepted(env: Env)
    requires env.allTx == TwoReceipts(TX_UNCONFIRMED) && env.allAddrs == {"mine"} && Listed(env, [1, 2])
    ensures Accepted(env, [1, 2], 0) && Accepted(env, [1, 2], 1)
  {
    hide Recompute, Step, IsInvalid, IsPending, InputSet;
    FirstReceipt(env, [1, 2], 10000, TX_UNCONFIRMED);
    var first := env.allTx[1];
    NotFirstSpent(first);
    ReceiptIsNeither(env, Recompute(env, [1, 2], 1), 2, 20000, TX_UNCONFIRMED);
  }

  lemma NotFirstSpent(first: Tx)
    requires first == Receipt(1, 10000, TX_UNCONFIRMED)
    ensures Outpoint(12, 0) !in InputSet(first.inputs)
  {
  }

  lemma HistoryStarts(env: Env, order: seq<Hash>, amount: nat, height: nat)
    requires Listed(env, order) && |order| == 2 && env.allTx[order[0]] == Receipt(order[0], amount, height)
    requires "mine" in env.allAddrs && amount >= TX_MIN_OUTPUT_AMOUNT
    ensures var history := Recompute(env, order, 2).balanceHist; |history| == 2 && history[0] == amount
  {
    hide Recompute, Step, IsInvalid, IsPending, InputSet, OwnOutputs, Unspent, Total, Accepted, Receipt;
    FirstReceipt(env, order, amount, height);
    StepEffect(env, order, 2);
  }

  /** Two payments are received, and the later one is confirmed first. Neither is pending or invalid, so the books
      stay, but the list is reordered and its history of balances would now be another. */
  lemma ReorderingOutdatesHistory(env: Env, later: Env)
    requires env == Env(TwoReceipts(TX_UNCONFIRMED), {"mine"}, 100, 0)
    requires later == Env(Recorded(env, {2}, 101, 0), env.allAddrs, 101, 0)
    ensures Listed(env, [1, 2]) && Accepted(env, [1, 2], 0) && Accepted(env, [1, 2], 1) && Sorted(env.allTx, [1, 2])
    ensures Listed(later, [2, 1]) && Sorted(later.allTx, [2, 1]) && !Sorted(later.allTx, [1, 2])
    ensures Recompute(env, [1, 2], 2).balanceHist != Recompute(later, [2, 1], 2).balanceHist
  {
    hide Recompute, Accepted, Recorded;
    RecordingSecond(env);
    BothAccepted(env);
    assert Height(later.allTx, [1, 2][0]) > Height(later.allTx, [1, 2][1]);
    HistoryStarts(env, [1, 2], 10000, TX_UNCONFIRMED);
    HistoryStarts(later, [2, 1], 20000, 101);
  }

  lemma ConcernsSameOutputs(a: map<Hash, Tx>, b: map<Hash, Tx>, addrs: set<Address>, tx: Tx)
    requires a.Keys == b.Keys && forall h :: h in a ==> a[h].outputs == b[h].outputs
    ensures Concerns(a, addrs, tx) <==> Concerns(b, addrs, tx)
  {
    forall input ensures Draws(a, addrs, input) <==> Draws(b, addrs, input) {
    }
  }

  /** Giving one transaction another height and time leaves the rest in order and all of the same concern. */
  lemma Retimed(was: map<Hash, Tx>, now: map<Hash, Tx>, addrs: set<Address>, order: seq<Hash>, h: Hash)
    requires Keyed(was) && Sorted(was, order) && AllConcern(was, addrs, order)
    requires h in was && now.Keys == was.Keys && forall x :: x in was && x != h ==> now[x] == was[x]
    requires now[h] == was[h].(blockHeight := now[h].blockHeight, timestamp := now[h].timestamp)
    ensures Keyed(now) && SortedWithout(now, order, h) && AllConcern(now, addrs, order)
    ensures h !in order ==> Sorted(now, order)
  {
    assert forall x :: x != h ==> Height(now, x) == Height(was, x);
    hide Height;
    forall x | x in order ensures x in now && Concerns(now, addrs, now[x]) {
      ConcernsSameOutputs(was, now, addrs, was[x]);
      ConcernsRetimed(now, addrs, was[x], now[x].blockHeight, now[x].timestamp);
    }
  }

  /** The known transactions once those of the order above a height have been marked unconfirmed. */
  function RolledBack(allTx: map<Hash, Tx>, order: seq<Hash>, height: nat): map<Hash, Tx> {
    map h | h in allTx :: if h in order && allTx[h].blockHeight > height then allTx[h].(blockHeight := TX_UNCONFIRMED)
                          else allTx[h]
  }

  lemma RolledBackIs(allTx: map<Hash, Tx>, order: seq<Hash>, height: nat)
    ensures RolledBack(allTx, order, height).Keys == allTx.Keys
    ensures forall h :: h in allTx ==>
              RolledBack(allTx, order, height)[h] ==
              if h in order && allTx[h].blockHeight > height then allTx[h].(blockHeight := 0x7fff_ffff) else allTx[h]
  {
  }

  lemma RolledBackNone(allTx: map<Hash, Tx>, height: nat)
    ensures forall order :: order == [] ==> RolledBack(allTx, order, height) == allTx
  {
  }

  lemma OneMoreRolledBack(allTx: map<Hash, Tx>, order: seq<Hash>, height: nat, j: nat)
    requires j < |order| && NoDuplicates(order) && Height(allTx, order[j]) > height
    ensures var was, now := RolledBack(allTx, order[..j], height), RolledBack(allTx, order[..j + 1], height);
            order[j] in was && now == was[order[j] := was[order[j]].(blockHeight := TX_UNCONFIRMED)]
  {
    assert order[..j + 1] == order[..j] + [order[j]];
  }

  lemma TailMembers(allTx: map<Hash, Tx>, order: seq<Hash>, height: nat, i: nat)
    requires NoDuplicates(order) && i <= |order| && forall h :: h in order ==> h in allTx
    requires forall k :: 0 <= k < i ==> Height(allTx, order[k]) <= height
    requires forall k :: i <= k < |order| ==> Height(allTx, order[k]) > height
    ensures forall h :: h in order[i..] <==> h in order && allTx[h].blockHeight > height
  {
    assert order == order[..i] + order[i..];
  }

  /** In an order sorted by height the transactions above a height are a tail of it, and marking them unconfirmed
      keeps the order sorted. */
  lemma TailRollsBack(allTx: map<Hash, Tx>, order: seq<Hash>, height: nat, i: nat)
    requires Keyed(allTx) && Sorted(allTx, order) && NoDuplicates(order) && height <= TX_UNCONFIRMED && i <= |order|
    requires forall h :: h in order ==> h in allTx
    requires i > 0 ==> Height(allTx, order[i - 1]) <= height
    requires forall k :: i <= k < |order| ==> Height(allTx, order[k]) > height
    ensures forall h :: h in order[i..] <==> h in order && allTx[h].blockHeight > height
    ensures var now := RolledBack(allTx, order, height);
            RolledBack(allTx, order[i..], height) == now && Keyed(now) && Sorted(now, order)
  {
    forall k | 0 <= k < i ensures Height(allTx, order[k]) <= height {
    }
    TailMembers(allTx, order, height, i);
    var now := RolledBack(allTx, order, height);
    assert forall k :: 0 <= k < i ==> Height(now, order[k]) == Height(allTx, order[k]);
    assert forall k :: i <= k < |order| ==> Height(now, order[k]) == TX_UNCONFIRMED;
  }

  lemma TailIsAbove(allTx: map<Hash, Tx>, order: seq<Hash>, height: nat, i: nat)
    requires i <= |order| && forall k :: i <= k < |order| ==> Height(allTx, order[k]) > height
    ensures forall h :: h in order[i..] ==> Height(allTx, h) > height
  {
  }

  lemma RollbackConcerns(allTx: map<Hash, Tx>, addrs: set<Address>, order: seq<Hash>, height: nat)
    requires AllConcern(allTx, addrs, order)
    ensures AllConcern(RolledBack(allTx, order, height), addrs, order)
  {
    var now := RolledBack(allTx, order, height);
    forall x | x in order ensures x in now && Concerns(now, addrs, now[x]) {
      ConcernsSameOutputs(allTx, now, addrs, allTx[x]);
      ConcernsRetimed(now, addrs, allTx[x], now[x].blockHeight, now[x].timestamp);
    }
  }

  /** No listed transaction is lower than one it spends from. */
  predicate NoneLower(allTx: map<Hash, Tx>, order: seq<Hash>) {
    forall t, p :: t in order && p in allTx && IsChild(allTx, t, p) ==> Height(allTx, p) <= Height(allTx, t)
  }

  /** Spending runs in no circle: the rank falls from each transaction to those that spend from it. */
  ghost predicate Ranked(allTx: map<Hash, Tx>, rank: Hash -> nat) {
    forall t, p :: IsChild(allTx, t, p) ==> rank(t) < rank(p)
  }

  lemma NoSelfSpend(allTx: map<Hash, Tx>, rank: Hash -> nat, h: Hash)
    requires Ranked(allTx, rank)
    ensures !IsChild(allTx, h, h)
  {
  }

  lemma ChildIsKnown(allTx: map<Hash, Tx>, rank: Hash -> nat, c: Hash, h: Hash)
    requires Ranked(allTx, rank) && IsChild(allTx, c, h)
    ensures c in allTx && rank(c) < rank(h)
  {
  }

  lemma ChildSpends(allTx: map<Hash, Tx>, t: Hash, h: Hash)
    requires t in allTx
    ensures IsChild(allTx, t, h) <==> exists j :: 0 <= j < |allTx[t].inputs| && allTx[t].inputs[j].txHash == h
  {
  }

  lemma LowerAreNoChildren(allTx: map<Hash, Tx>, order: seq<Hash>, h: Hash, i: nat)
    requires Sorted(allTx, order) && NoneLower(allTx, order) && h in allTx && i <= |order|
    requires i > 0 ==> Height(allTx, order[i - 1]) < Height(allTx, h)
    ensures forall t :: t in order[..i] ==> !IsChild(allTx, t, h)
  {
    hide Height, IsChild;
  }

  lemma RootGoes(allTx: map<Hash, Tx>, list: seq<Hash>, roots: set<Hash>, t: Hash)
    requires t in roots
    ensures !Survives(allTx, list, roots, t)
  {
    assert ReachedIn(allTx, list, t, t, 0);
  }

  /** With its children and what depends on them gone, nothing left in the list spends from h. */
  lemma WithoutChildren(allTx: map<Hash, Tx>, list: seq<Hash>, now: seq<Hash>, h: Hash, children: seq<Hash>)
    requires now == Survivors(allTx, list, list, SetOf(children)) && children != []
    requires forall t :: t in children <==> t in list && IsChild(allTx, t, h)
    ensures |now| < |list| && forall t :: t in now ==> t in list && !IsChild(allTx, t, h)
  {
    hide IsChild, Survives, Survivors;
    SurvivorsAre(allTx, list, list, SetOf(children));
    forall t | t in children ensures !Survives(allTx, list, SetOf(children), t) {
      RootGoes(allTx, list, SetOf(children), t);
    }
    assert children[0] in children;
  }

  lemma RemovedInTurn(allTx: map<Hash, Tx>, list: seq<Hash>, h: Hash, children: set<Hash>)
    requires forall t :: t in children ==> t in list && IsChild(allTx, t, h)
    ensures var now := Survivors(allTx, list, list, children);
            Survivors(allTx, now, now, {h}) == Survivors(allTx, list, list, {h})
  {
    hide Survivors, Descends, IsChild;
    SurvivorsTwice(allTx, list, list, children, {h});
    forall t | t in children ensures Descends(allTx, list, h, t) {
      ChildDescends(allTx, list, h, t);
    }
    DependentRoots(allTx, list, list, h, children);
  }

  lemma DescendsInLarger(allTx: map<Hash, Tx>, list: seq<Hash>, now: seq<Hash>, h: Hash, x: Hash)
    requires (forall t :: t in now ==> t in list) && Descends(allTx, now, h, x)
    ensures Descends(allTx, list, h, x)
  {
    var n: nat :| ReachedIn(allTx, now, h, x, n);
    ChainInLarger(allTx, now, list, h, x, n);
  }

  lemma DeletedDescend(allTx: map<Hash, Tx>, list: seq<Hash>, now: seq<Hash>, h: Hash, deleted: seq<Hash>)
    requires (forall t :: t in now ==> t in list) && forall x :: x in deleted ==> Descends(allTx, now, h, x)
    ensures forall x :: x in deleted ==> Descends(allTx, list, h, x)
  {
    hide Descends;
    forall x | x in deleted ensures Descends(allTx, list, h, x) {
      DescendsInLarger(allTx, list, now, h, x);
    }
  }

  lemma ChildrenDescend(allTx: map<Hash, Tx>, list: seq<Hash>, before: seq<Hash>, h: Hash, c: Hash, deleted: seq<Hash>)
    requires c in list && IsChild(allTx, c, h) && forall t :: t in before ==> t in list
    requires forall x :: x in deleted ==> Descends(allTx, before, c, x)
    ensures forall x :: x in deleted ==> Descends(allTx, list, h, x)
  {
    hide Descends, IsChild;
    ChildDescends(allTx, list, h, c);
    forall x | x in deleted ensures Descends(allTx, list, h, x) {
      DescendsInLarger(allTx, list, before, c, x);
      DescendsJoins(allTx, list, h, c, x);
    }
  }

  lemma OneMoreGone(allTx: map<Hash, Tx>, list: seq<Hash>, before: seq<Hash>, now: seq<Hash>, children: seq<Hash>,
                    k: nat)
    requires 0 < k <= |children| && children[k - 1] in list
    requires before == Survivors(allTx, list, list, SetOf(children[k..]))
    requires now == Survivors(allTx, before, before, {children[k - 1]})
    ensures now == Survivors(allTx, list, list, SetOf(children[k - 1..]))
    ensures |now| < |list| && forall t :: t in before ==> t in list
  {
    var c := children[k - 1];
    assert children[k - 1..] == [c] + children[k..];
    assert SetOf(children[k - 1..]) == SetOf(children[k..]) + {c};
    SurvivorsTwice(allTx, list, list, SetOf(children[k..]), {c});
    SurvivorsAre(allTx, list, list, SetOf(children[k..]));
    SurvivorsAre(allTx, list, list, SetOf(children[k - 1..]));
    assert ReachedIn(allTx, list, c, c, 0);
    assert !Survives(allTx, list, SetOf(children[k - 1..]), c);
  }

  lemma {:induction false} SurvivorsInOrder(allTx: map<Hash, Tx>, list: seq<Hash>, from: seq<Hash>, roots: set<Hash>)
    requires Sorted(allTx, from) && NoDuplicates(from)
    ensures var now := Survivors(allTx, list, from, roots); Sorted(allTx, now) && NoDuplicates(now)
  {
    hide Survives, Height;
    if from != [] {
      var init, last := from[..|from| - 1], from[|from| - 1];
      SurvivorsInOrder(allTx, list, init, roots);
      SurvivorsAre(allTx, list, init, roots);
      var rest := Survivors(allTx, list, init, roots);
      forall i | 0 <= i < |rest| ensures Height(allTx, rest[i]) <= Height(allTx, last) && rest[i] != last {
        assert rest[i] in init;
      }
    }
  }

  /** The survivors keep the order and everything else the list promises. */
  lemma SurvivorsKeep(env: Env, order: seq<Hash>, roots: set<Hash>)
    requires Keyed(env.allTx) && NoDuplicates(order) && Sorted(env.allTx, order)
    requires AllConcern(env.allTx, env.allAddrs, order) && NoneLower(env.allTx, order)
    ensures var now := Survivors(env.allTx, order, order, roots);
            && Sorted(env.allTx, now) && NoDuplicates(now) && Listed(env, now)
            && AllConcern(env.allTx, env.allAddrs, now) && NoneLower(env.allTx, now)
  {
    SurvivorsInOrder(env.allTx, order, order, roots);
    SurvivorsAre(env.allTx, order, order, roots);
    hide Survivors, Concerns, Sorted, Height, IsChild;
  }

  lemma GoneIsItself(allTx: map<Hash, Tx>, list: seq<Hash>, h: Hash)
    requires forall t :: t in list ==> !IsChild(allTx, t, h)
    ensures Descends(allTx, list, h, h)
    ensures forall x :: x in list && x !in Survivors(allTx, list, list, {h}) ==> x == h
  {
    assert ReachedIn(allTx, list, h, h, 0);
    SurvivorsAre(allTx, list, list, {h});
    hide Survivors, Descends, Survives, IsChild;
    forall x ensures Survives(allTx, list, {h}, x) <==> x != h {
      ChildlessReachesItself(allTx, list, h, x);
    }
  }

  class BRWallet {
    const goesAfter: (Tx, Tx) -> bool

    var allTx: map<Hash, Tx>
    var transactions: seq<Hash>
    var allAddrs: set<Address>
    var blockHeight: nat

    var utxos: seq<Outpoint>
    var balance: nat
    var totalReceived: nat
    var totalSent: nat
    var balanceHist: seq<nat>
    var spentOutputs: set<Outpoint>
    var invalidTx: set<Hash>
    var pendingTx: set<Hash>
    var usedAddrs: set<Address>

    /** A wallet with no transactions. The order goesAfter ranks transactions of the same height. */
    constructor (addrs: set<Address>, goesAfter: (Tx, Tx) -> bool)
      ensures Valid() && transactions == [] && allTx == map[] && allAddrs == addrs
      ensures forall now :: TheBooks(balance) == Recompute(EnvAt(now), transactions, |transactions|)
    {
      this.goesAfter := goesAfter;
      allTx, transactions, allAddrs, blockHeight := map[], [], addrs, 0;
      utxos, balance, totalReceived, totalSent, balanceHist := [], 0, 0, 0, [];
      spentOutputs, invalidTx, pendingTx, usedAddrs := {}, {}, {}, {};
    }

    predicate Valid()
      reads this
    {
      && Keyed(allTx) && NoDuplicates(transactions) && Sorted(allTx, transactions)
      && AllConcern(allTx, allAddrs, transactions)
    }

    function EnvAt(now: nat): Env
      reads this
    {
      Env(allTx, allAddrs, blockHeight, now)
    }

    function TheBooks(balance: nat): Books
      reads this
    {
      Books(utxos, balance, totalReceived, totalSent, balanceHist, spentOutputs, invalidTx, pendingTx, usedAddrs)
    }

    method HasInvalidInput(tx: Tx) returns (isInvalid: bool)
      ensures isInvalid <==> exists j :: 0 <= j < |tx.inputs| && InvalidInput(TheBooks(balance), tx.inputs[j])
    {
      isInvalid := false;
      var j := 0;
      while !isInvalid && j < |tx.inputs|
        invariant j <= |tx.inputs|
        invariant !isInvalid ==> forall i :: 0 <= i < j ==> !InvalidInput(TheBooks(balance), tx.inputs[i])
        invariant isInvalid ==> exists i :: 0 <= i < |tx.inputs| && InvalidInput(TheBooks(balance), tx.inputs[i])
      {
        if Spends(tx.inputs[j]) in spentOutputs || tx.inputs[j].txHash in invalidTx {
          isInvalid := true;
          assert InvalidInput(TheBooks(balance), tx.inputs[j]);
        }
        j := j + 1;
      }
    }

    method SpendInputs(tx: Tx)
      modifies this`spentOutputs
      ensures spentOutputs == old(spentOutputs) + InputSet(tx.inputs)
    {
      for j := 0 to |tx.inputs|
        invariant spentOutputs == old(spentOutputs) + InputSet(tx.inputs[..j])
      {
        OneMoreInput(tx.inputs, j);
        spentOutputs := spentOutputs + {Spends(tx.inputs[j])};
      }
      assert tx.inputs[..|tx.inputs|] == tx.inputs;
    }

    /** Whether an unconfirmed transaction is pending. */
    method IsPendingNow(tx: Tx, now: nat) returns (isPending: bool)
      requires tx.Unconfirmed()
      ensures isPending <==> IsPending(EnvAt(now), TheBooks(balance), tx)
    {
      var size := ComputeSize(tx.inputs, tx.outputs);
      isPending := size > TX_MAX_SIZE;
      var j := 0;
      while !isPending && j < |tx.outputs|
        invariant j <= |tx.outputs|
        invariant isPending ==> IsPending(EnvAt(now), TheBooks(balance), tx)
        invariant !isPending ==> forall i :: 0 <= i < j ==> tx.outputs[i].amount >= TX_MIN_OUTPUT_AMOUNT
      {
        if tx.outputs[j].amount < TX_MIN_OUTPUT_AMOUNT {
          isPending := true;
        }
        j := j + 1;
      }
      j := 0;
      while !isPending && j < |tx.inputs|
        invariant j <= |tx.inputs|
        invariant isPending ==> IsPending(EnvAt(now), TheBooks(balance), tx)
        invariant !isPending ==>
                    forall i :: 0 <= i < j ==> !PendingInput(EnvAt(now), TheBooks(balance), tx, tx.inputs[i])
      {
        var input := tx.inputs[j];
        if input.sequence < SEQUENCE_FINAL - 1 {
          isPending := true;
        }
        if input.sequence < SEQUENCE_FINAL && tx.lockTime < TX_MAX_LOCK_HEIGHT && tx.lockTime > blockHeight + 1 {
          isPending := true;
        }
        if input.sequence < SEQUENCE_FINAL && tx.lockTime > now {
          isPending := true;
        }
        if input.txHash in pendingTx {
          isPending := true;
        }
        assert isPending == PendingInput(EnvAt(now), TheBooks(balance), tx, tx.inputs[j]);
        j := j + 1;
      }
    }

    /** Adds the wallet's outputs of tx to the unspent ones; returns the balance with them. */
    method AddOutputs(tx: Tx, before: nat, ghost env: Env) returns (after: nat)
      requires env.allTx == allTx && env.allAddrs == allAddrs
      requires tx.hash in allTx && allTx[tx.hash] == tx
      modifies this`utxos, this`usedAddrs
      ensures utxos == old(utxos) + OwnOutputs(env, tx, |tx.outputs|)
      ensures usedAddrs == old(usedAddrs) + Addresses(tx.outputs)
      ensures after == before + Total(env, OwnOutputs(env, tx, |tx.outputs|))
    {
      hide OwnOutputs, Total, Addresses;
      after := before;
      NoOutput(env, tx);
      for j := 0 to |tx.outputs|
        invariant utxos == old(utxos) + OwnOutputs(env, tx, j)
        invariant usedAddrs == old(usedAddrs) + Addresses(tx.outputs[..j])
        invariant after == before + Total(env, OwnOutputs(env, tx, j))
      {
        OneMoreAddress(tx.outputs, j);
        OneMoreOutput(env, tx, j);
        if tx.outputs[j].address != "" {
          usedAddrs := usedAddrs + {tx.outputs[j].address};
          if tx.outputs[j].address in allAddrs {
            utxos := utxos + [Outpoint(tx.hash, j)];
            after := after + tx.outputs[j].amount;
          }
        }
      }
      assert tx.outputs[..|tx.outputs|] == tx.outputs;
    }

    /** Drops the spent ones from the unspent outputs, from the last to the first; returns the balance without them. */
    method DropSpent(before: nat, ghost env: Env) returns (after: nat)
      requires env.allTx == allTx && before == Total(env, utxos)
      requires AllExist(allTx, utxos)
      modifies this`utxos
      ensures utxos == Unspent(old(utxos), spentOutputs) && after == Total(env, utxos)
    {
      hide Unspent, Total, AllExist;
      after := before;
      ghost var was := utxos;
      var j := |utxos|;
      assert was[j..] == [];
      UnspentOne(was, spentOutputs);
      while j > 0
        invariant j <= |was|
        invariant utxos == was[..j] + Unspent(was[j..], spentOutputs)
        invariant after == Total(env, utxos)
        decreases j
      {
        Exists(allTx, was, j - 1);
        DropOne(was, utxos, spentOutputs, j);
        if utxos[j - 1] in spentOutputs {
          var t := allTx[utxos[j - 1].hash];
          TotalWithout(env, utxos, j - 1);
          after := after - t.outputs[utxos[j - 1].n].amount;
          utxos := utxos[..j - 1] + utxos[j..];
        }
        j := j - 1;
      }
      assert was[0..] == was;
    }

    /** Recomputes the books from the transactions in their order. */
    method UpdateBalance(now: nat)
      requires Listed(EnvAt(now), transactions)
      modifies this`utxos, this`balance, this`totalReceived, this`totalSent, this`balanceHist, this`spentOutputs,
               this`invalidTx, this`pendingTx, this`usedAddrs
      ensures TheBooks(balance) == Recompute(EnvAt(now), transactions, |transactions|)
    {
      hide IsInvalid, IsPending, Unspent, OwnOutputs, Total, InputSet, Addresses, Step, Recompute, AllExist, Listed;
      ghost var env := EnvAt(now);
      var total, prevBalance := 0, 0;
      utxos, balanceHist, spentOutputs, invalidTx, pendingTx, usedAddrs := [], [], {}, {}, {}, {};
      totalSent, totalReceived := 0, 0;
      NoTx(env, transactions);
      for i := 0 to |transactions|
        invariant EnvAt(now) == env
        invariant TheBooks(total) == Recompute(env, transactions, i) && prevBalance == total
      {
        OneMoreTx(env, transactions, i);
        var tx := allTx[transactions[i]];
        total := Account(tx, now, total, prevBalance);
        prevBalance := total;
      }
      balance := total;
    }

    /** Brings one more transaction to account; returns the balance after it. */
    method Account(tx: Tx, now: nat, before: nat, prevBalance: nat) returns (after: nat)
      requires tx.hash in allTx && allTx[tx.hash] == tx && prevBalance == before == Total(EnvAt(now), utxos)
      requires AllExist(allTx, utxos)
      modifies this`utxos, this`totalReceived, this`totalSent, this`balanceHist, this`spentOutputs,
               this`invalidTx, this`pendingTx, this`usedAddrs
      ensures TheBooks(after) == Step(EnvAt(now), old(TheBooks(before)), tx)
    {
      hide IsInvalid, IsPending, Unspent, OwnOutputs, Total, InputSet, Addresses, AllExist;
      ghost var env, books := EnvAt(now), TheBooks(before);
      after := before;
      if tx.Unconfirmed() {
        var isInvalid := HasInvalidInput(tx);
        InvalidMeans(books, TheBooks(balance), tx);
        if isInvalid {
          invalidTx, balanceHist := invalidTx + {tx.hash}, balanceHist + [after];
          return;
        }
      }
      ConfirmedIsNeither(env, books, TheBooks(after), tx);
      SpendInputs(tx);
      if tx.Unconfirmed() {
        var isPending := IsPendingNow(tx, now);
        PendingMeans(env, TheBooks(after), TheBooks(balance), tx);
        if isPending {
          pendingTx, balanceHist := pendingTx + {tx.hash}, balanceHist + [after];
          return;
        }
      }
      ConfirmedIsNeither(env, books, TheBooks(after), tx);
      AddedExist(env, utxos, tx);
      TotalAppends(env, utxos, OwnOutputs(env, tx, |tx.outputs|));
      after := AddOutputs(tx, after, env);
      after := DropSpent(after, env);
      totalReceived := totalReceived + if prevBalance < after then after - prevBalance else 0;
      totalSent := totalSent + if after < prevBalance then prevBalance - after else 0;
      balanceHist := balanceHist + [after];
    }

    /** Inserts a transaction by shifting the later ones up, from the end. */
    method InsertTx(h: Hash)
      requires h in allTx && Sorted(allTx, transactions)
      requires forall x :: x in transactions ==> x in allTx
      modifies this`transactions
      ensures InsertedIn(old(transactions), h, transactions) && Sorted(allTx, transactions)
    {
      hide Sorted, Height;
      ghost var was := transactions;
      var i := |transactions|;
      transactions := transactions + [h];
      while i > 0 && ComesAfter(allTx[transactions[i - 1]], allTx[h])
        invariant 0 <= i <= |was| && Shifted(was, i, transactions)
        invariant forall j :: i <= j < |was| ==> Height(allTx, h) <= Height(allTx, was[j])
      {
        OneUp(was, i, transactions);
        HeightsOf(allTx, was[i - 1], h);
        transactions := transactions[i := transactions[i - 1]];
        i := i - 1;
      }
      if i > 0 {
        OneUp(was, i, transactions);
        HeightsOf(allTx, was[i - 1], h);
      }
      InsertionSorts(allTx, was, h, i);
      ShiftedInserts(was, i, transactions, h);
      transactions := transactions[i := h];
    }

    predicate ComesAfter(a: Tx, b: Tx) {
      a.blockHeight > b.blockHeight || (a.blockHeight == b.blockHeight && goesAfter(a, b))
    }

    /** Adds a signed transaction that concerns the wallet; keeps an unconfirmed one that does not, unlisted. The
        result says whether the transaction is signed, and in the wallet or known already. Nothing that a confirmed
        one spends counts as unspent afterwards. */
    method RegisterTransaction(tx: Tx, now: nat) returns (r: bool)
      requires Valid()
      modifies this
      ensures Valid() && allAddrs == old(allAddrs) && blockHeight == old(blockHeight)
      ensures r <==> tx.IsSigned() && (tx.hash in old(allTx) || Concerns(old(allTx), allAddrs, tx))
      ensures if tx.IsSigned() && tx.hash !in old(allTx) && (r || tx.Unconfirmed())
              then allTx == old(allTx)[tx.hash := tx]
              else allTx == old(allTx)
      ensures if tx.hash !in old(allTx) && r then
                && InsertedIn(old(transactions), tx.hash, transactions)
                && TheBooks(balance) == Recompute(EnvAt(now), transactions, |transactions|)
              else transactions == old(transactions) && TheBooks(balance) == old(TheBooks(balance))
      ensures tx.hash !in old(allTx) && "" !in allAddrs ==>
                (tx.hash in transactions <==> tx.IsSigned() && Involves(old(EnvAt(now)), tx))
      ensures tx.hash in transactions && tx.hash !in old(allTx) && !tx.Unconfirmed() ==>
                forall i :: 0 <= i < |tx.inputs| ==> Outpoint(tx.inputs[i].txHash, tx.inputs[i].index) !in utxos
    {
      hide Recompute, Concerns, Height, Involves;
      ghost var env := EnvAt(now);
      if "" !in allAddrs {
        ConcernsIff(env, tx);
      }
      if !tx.IsSigned() {
        return false;
      }
      if tx.hash in allTx {
        return true;
      }
      r := Concerns(allTx, allAddrs, tx);
      if r {
        KnowingMore(allTx, allAddrs, tx, transactions);
        allTx := allTx[tx.hash := tx];
        InsertTx(tx.hash);
        InsertionKeeps(allTx, allAddrs, old(transactions), tx.hash, transactions);
        UpdateBalance(now);
        KeyedIsListed(EnvAt(now), transactions);
        if !tx.Unconfirmed() {
          ConfirmedSpends(EnvAt(now), transactions, tx);
        }
      } else if tx.Unconfirmed() {
        KnowingMore(allTx, allAddrs, tx, transactions);
        allTx := allTx[tx.hash := tx];
      }
    }

    /** Takes a listed transaction out and inserts it again. */
    method Reinsert(h: Hash)
      requires h in allTx && (forall x :: x in transactions ==> x in allTx) && NoDuplicates(transactions)
      requires SortedWithout(allTx, transactions, h)
      modifies this`transactions
      ensures Sorted(allTx, transactions) && NoDuplicates(transactions) && SameMembers(transactions, old(transactions))
    {
      hide Height, Sorted, SortedWithout, InsertedIn, NoDuplicates;
      var k := |transactions|;
      while k > 0 && transactions[k - 1] != h
        invariant 0 <= k <= |transactions| && h !in transactions[k..]
      {
        assert transactions[k - 1..] == [transactions[k - 1]] + transactions[k..];
        k := k - 1;
      }
      assert transactions[0..] == transactions;
      RestSorted(allTx, transactions, h, k);
      if k > 0 {
        ghost var was := transactions;
        transactions := transactions[..k - 1] + transactions[k..];
        ghost var rest := transactions;
        InsertTx(h);
        Reinserted(was, h, k - 1, rest, transactions);
      }
    }

    /** Records the height and time of one transaction; says whether that changed one of the wallet. */
    method Record(h: Hash, height: nat, timestamp: nat) returns (changed: bool)
      requires Valid()
      modifies this`allTx, this`transactions
      ensures Valid() && SameMembers(transactions, old(transactions))
      ensures if Differs(old(EnvAt(0)), h, height, timestamp) then
                var now := old(allTx)[h := old(allTx)[h].(blockHeight := height, timestamp := timestamp)];
                && changed == Concerns(now, allAddrs, now[h])
                && allTx == (if changed || height == TX_UNCONFIRMED then now else now - {h})
              else allTx == old(allTx) && !changed
    {
      hide Concerns, Height, Sorted, SortedWithout, Keyed;
      changed := false;
      if h in allTx && !(allTx[h].blockHeight == height && allTx[h].timestamp == timestamp) {
        allTx := allTx[h := allTx[h].(blockHeight := height, timestamp := timestamp)];
        Retimed(old(allTx), allTx, allAddrs, transactions, h);
        if Concerns(allTx, allAddrs, allTx[h]) {
          changed := true;
          Reinsert(h);
          MembersConcern(allTx, allAddrs, old(transactions), transactions);
        } else if height != TX_UNCONFIRMED {
          Forgetting(allTx, allAddrs, transactions, h);
          allTx := allTx - {h};
        }
      }
    }

    /** Records the height and time of some transactions; returns those of the wallet that this changed. */
    method UpdateTransactions(txHashes: seq<Hash>, height: nat, timestamp: nat, now: nat) returns (hashes: seq<Hash>)
      requires Valid()
      modifies this
      ensures Valid() && allAddrs == old(allAddrs) && SameMembers(transactions, old(transactions))
      ensures blockHeight == if height > old(blockHeight) then height else old(blockHeight)
      ensures allTx == Recorded(old(EnvAt(now)), SetOf(txHashes), height, timestamp)
      ensures NoDuplicates(hashes)
      ensures forall h :: h in hashes <==> h in txHashes && Changes(old(EnvAt(now)), h, height, timestamp)
      ensures if exists h :: h in hashes && (h in old(pendingTx) || h in old(invalidTx))
              then TheBooks(balance) == Recompute(EnvAt(now), transactions, |transactions|)
              else TheBooks(balance) == old(TheBooks(balance))
    {
      hide Recompute, Recorded, Changes, Concerns, Height, Sorted, AllConcern, Keyed, Step;
      ghost var env, seen := EnvAt(now), {};
      if height > blockHeight {
        blockHeight := height;
      }
      hashes := [];
      var needsUpdate := false;
      RecordedNone(env, height, timestamp);
      for i := 0 to |txHashes|
        invariant Valid() && allAddrs == env.allAddrs && SameMembers(transactions, old(transactions))
        invariant blockHeight == if height > old(blockHeight) then height else old(blockHeight)
        invariant TheBooks(balance) == old(TheBooks(balance))
        invariant seen == SetOf(txHashes[..i]) && allTx == Recorded(env, seen, height, timestamp)
        invariant NoDuplicates(hashes)
        invariant forall h :: h in hashes <==> h in seen && Changes(env, h, height, timestamp)
        invariant needsUpdate <==> exists h :: h in hashes && (h in pendingTx || h in invalidTx)
      {
        var h := txHashes[i];
        OneMoreHash(txHashes, i);
        OneMoreRecorded(env, seen, h, height, timestamp);
        seen := seen + {h};
        var changed := Record(h, height, timestamp);
        if changed {
          hashes := hashes + [h];
          assert h in hashes;
          if h in pendingTx || h in invalidTx {
            needsUpdate := true;
          }
        }
      }
      assert txHashes[..|txHashes|] == txHashes;
      if needsUpdate {
        KeyedIsListed(EnvAt(now), transactions);
        UpdateBalance(now);
      }
    }

    /** The position from which on the listed transactions are above the height. */
    method Above(height: nat) returns (i: nat)
      requires Valid()
      ensures i <= |transactions| && (i > 0 ==> Height(allTx, transactions[i - 1]) <= height)
      ensures forall k :: i <= k < |transactions| ==> Height(allTx, transactions[k]) > height
    {
      hide Concerns, Sorted, Keyed, NoDuplicates;
      i := |transactions|;
      while i > 0 && allTx[transactions[i - 1]].blockHeight > height
        invariant i <= |transactions|
        invariant forall k :: i <= k < |transactions| ==> Height(allTx, transactions[k]) > height
      {
        i := i - 1;
      }
    }

    method MarkUnconfirmed(hashes: seq<Hash>, height: nat)
      requires NoDuplicates(hashes) && forall h :: h in hashes ==> Height(allTx, h) > height
      modifies this`allTx
      ensures allTx == RolledBack(old(allTx), hashes, height)
    {
      hide RolledBack, NoDuplicates;
      RolledBackNone(allTx, height);
      for j := 0 to |hashes|
        invariant allTx == RolledBack(old(allTx), hashes[..j], height)
      {
        OneMoreRolledBack(old(allTx), hashes, height, j);
        allTx := allTx[hashes[j] := allTx[hashes[j]].(blockHeight := TX_UNCONFIRMED)];
      }
      assert hashes[..|hashes|] == hashes;
    }

    /** Marks every listed transaction confirmed after the height as unconfirmed; returns those transactions. */
    method SetTxUnconfirmedAfter(height: nat, now: nat) returns (hashes: seq<Hash>)
      requires Valid() && height <= TX_UNCONFIRMED
      modifies this
      ensures Valid() && transactions == old(transactions) && allAddrs == old(allAddrs) && blockHeight == height
      ensures allTx == RolledBack(old(allTx), transactions, height)
      ensures forall h :: h in hashes <==> h in transactions && old(allTx)[h].blockHeight > height
      ensures allTx.Keys == old(allTx).Keys
      ensures forall h :: h in allTx ==>
                allTx[h] == if h in transactions && old(allTx)[h].blockHeight > height
                            then old(allTx)[h].(blockHeight := 0x7fff_ffff) else old(allTx)[h]
      ensures if hashes != [] then TheBooks(balance) == Recompute(EnvAt(now), transactions, |transactions|)
              else TheBooks(balance) == old(TheBooks(balance))
    {
      hide Recompute, Concerns, Step, Keyed, RolledBack, Sorted, Height;
      blockHeight := height;
      var i := Above(height);
      hashes := transactions[i..];
      TailRollsBack(allTx, transactions, height, i);
      TailIsAbove(allTx, transactions, height, i);
      RollbackConcerns(allTx, allAddrs, transactions, height);
      ghost var was := allTx;
      MarkUnconfirmed(hashes, height);
      RolledBackIs(was, transactions, height);
      if |hashes| > 0 {
        KeyedIsListed(EnvAt(now), transactions);
        UpdateBalance(now);
      }
    }

    /** The listed transactions that spend from h, the last first. Those below it need not be looked at. */
    method ChildrenOf(h: Hash) returns (children: seq<Hash>)
      requires Valid() && h in allTx && NoneLower(allTx, transactions) && !IsChild(allTx, h, h)
      ensures forall t :: t in children <==> t in transactions && IsChild(allTx, t, h)
    {
      hide Concerns, Keyed, NoneLower, IsChild, Sorted;
      children := [];
      var i := |transactions|;
      while i > 0 && !(allTx[transactions[i - 1]].blockHeight < allTx[h].blockHeight)
        invariant 0 <= i <= |transactions|
        invariant forall t :: t in children <==> t in transactions[i..] && IsChild(allTx, t, h)
      {
        var t := transactions[i - 1];
        assert transactions[i - 1..] == [t] + transactions[i..];
        if t != h {
          var spends := SpendsFrom(allTx[t], h);
          ChildSpends(allTx, t, h);
          if spends {
            children := children + [t];
          }
        }
        i := i - 1;
      }
      LowerAreNoChildren(allTx, transactions, h, i);
      assert transactions == transactions[..i] + transactions[i..];
    }

    static method SpendsFrom(t: Tx, h: Hash) returns (spends: bool)
      ensures spends <==> exists j :: 0 <= j < |t.inputs| && t.inputs[j].txHash == h
    {
      for j := 0 to |t.inputs|
        invariant forall i :: 0 <= i < j ==> t.inputs[i].txHash != h
      {
        if t.inputs[j].txHash == h {
          return true;
        }
      }
      return false;
    }

    /** Takes h, which no listed transaction spends from, out of the list. */
    method TakeOut(h: Hash)
      requires NoDuplicates(transactions) && forall t :: t in transactions ==> !IsChild(allTx, t, h)
      modifies this`transactions
      ensures transactions == Survivors(allTx, old(transactions), old(transactions), {h})
    {
      hide IsChild, Survivors;
      var k := |transactions|;
      while k > 0 && transactions[k - 1] != h
        invariant 0 <= k <= |transactions| && h !in transactions[k..]
      {
        assert transactions[k - 1..] == [transactions[k - 1]] + transactions[k..];
        k := k - 1;
      }
      assert transactions[0..] == transactions;
      if k > 0 {
        ChildlessGoesAlone(allTx, transactions, transactions, h, k - 1);
        transactions := transactions[..k - 1] + transactions[k..];
      } else {
        AbsentGoes(allTx, transactions, transactions, h);
      }
    }

    /** Removes a transaction and whatever depends on it from the list, the dependent ones first; returns the
        hashes reported as deleted. The rank falls along every spend. */
    method RemoveTransaction(h: Hash, now: nat, ghost rank: Hash -> nat) returns (deleted: seq<Hash>)
      requires Valid() && NoneLower(allTx, transactions) && Ranked(allTx, rank)
      modifies this
      ensures Valid() && NoneLower(allTx, transactions)
      ensures allTx == old(allTx) && allAddrs == old(allAddrs) && blockHeight == old(blockHeight)
      ensures if h in allTx then
                && transactions == Survivors(allTx, old(transactions), old(transactions), {h})
                && TheBooks(balance) == Recompute(EnvAt(now), transactions, |transactions|)
                && deleted != [] && deleted[|deleted| - 1] == h
              else transactions == old(transactions) && TheBooks(balance) == old(TheBooks(balance)) && deleted == []
      ensures forall x :: x in deleted ==> Descends(allTx, old(transactions), h, x)
      ensures forall x :: x in old(transactions) && x !in transactions ==> x in deleted
      decreases |transactions|, rank(h)
    {
      hide Recompute, Step, Concerns, Survivors, Descends, IsChild, Sorted, Keyed, NoneLower, Ranked, AllConcern;
      deleted := [];
      if h !in allTx {
        return;
      }
      NoSelfSpend(allTx, rank, h);
      var children := ChildrenOf(h);
      ghost var list := transactions;
      if |children| > 0 {
        deleted := RemoveAll(h, children, now, rank);
        WithoutChildren(allTx, list, transactions, h, children);
        ghost var rest := transactions;
        var more := RemoveTransaction(h, now, rank);
        RemovedInTurn(allTx, list, h, SetOf(children));
        DeletedDescend(allTx, list, rest, h, more);
        deleted := deleted + more;
      } else {
        TakeOut(h);
        SurvivorsKeep(EnvAt(now), list, {h});
        GoneIsItself(allTx, list, h);
        UpdateBalance(now);
        deleted := [h];
      }
    }

    /** Removes the children of h from the last found to the first. */
    method RemoveAll(h: Hash, children: seq<Hash>, now: nat, ghost rank: Hash -> nat) returns (deleted: seq<Hash>)
      requires Valid() && NoneLower(allTx, transactions) && Ranked(allTx, rank) && children != []
      requires forall t :: t in children <==> t in transactions && IsChild(allTx, t, h)
      modifies this
      ensures Valid() && NoneLower(allTx, transactions)
      ensures allTx == old(allTx) && allAddrs == old(allAddrs) && blockHeight == old(blockHeight)
      ensures transactions == Survivors(allTx, old(transactions), old(transactions), SetOf(children))
      ensures forall x :: x in deleted ==> Descends(allTx, old(transactions), h, x)
      ensures forall x :: x in old(transactions) && x !in transactions ==> x in deleted
      decreases |transactions|, rank(h), 0
    {
      hide Recompute, Step, Concerns, Survivors, Descends, IsChild, Sorted, Keyed, NoneLower, Ranked, AllConcern;
      ghost var list := transactions;
      deleted := [];
      var k := |children|;
      NothingGoes(allTx, list, list);
      assert SetOf(children[k..]) == {};
      while k > 0
        invariant 0 <= k <= |children|
        invariant Valid() && NoneLower(allTx, transactions)
        invariant allTx == old(allTx) && allAddrs == old(allAddrs) && blockHeight == old(blockHeight)
        invariant transactions == Survivors(allTx, list, list, SetOf(children[k..]))
        invariant forall x :: x in deleted ==> Descends(allTx, list, h, x)
        invariant forall x :: x in list && x !in transactions ==> x in deleted
        invariant k == |children| || |transactions| < |list|
        invariant k == |children| ==> transactions == list
      {
        var c := children[k - 1];
        ghost var before := transactions;
        assert c in children;
        ChildIsKnown(allTx, rank, c, h);
        var more := RemoveTransaction(c, now, rank);
        OneMoreGone(allTx, list, before, transactions, children, k);
        ChildrenDescend(allTx, list, before, h, c, more);
        deleted := deleted + more;
        k := k - 1;
      }
      assert children[0..] == children;
    }
  }
}
