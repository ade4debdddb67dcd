/** What recomputing the wallet's balance yields, as a fold over its transactions. */
module Ledger {
  import opened Transaction

  datatype Outpoint = Outpoint(hash: Hash, n: nat)

  /** What the recomputation reads beside the transactions: all transactions by hash, the wallet's addresses,
      the wallet's block height and the current time. */
  datatype Env = Env(allTx: map<Hash, Tx>, allAddrs: set<Address>, tip: nat, now: nat) {
    predicate IsWalletOutput(o: Outpoint) {
      && o.hash in allTx && o.n < |allTx[o.hash].outputs|
      && var address := allTx[o.hash].outputs[o.n].address;
         address != "" && address in allAddrs
    }

    function Amount(o: Outpoint): nat {
      if o.hash in allTx && o.n < |allTx[o.hash].outputs| then allTx[o.hash].outputs[o.n].amount else 0
    }
  }

  datatype Books = Books(utxos: seq<Outpoint>, balance: nat, totalReceived: nat, totalSent: nat, balanceHist: seq<nat>,
                         spentOutputs: set<Outpoint>, invalidTx: set<Hash>, pendingTx: set<Hash>,
                         usedAddrs: set<Address>)

  const EMPTY: Books := Books([], 0, 0, 0, [], {}, {}, {}, {})

  function Spends(input: Input): Outpoint {
    Outpoint(input.txHash, input.index)
  }

  predicate InvalidInput(b: Books, input: Input) {
    Spends(input) in b.spentOutputs || input.txHash in b.invalidTx
  }

  predicate PendingInput(env: Env, b: Books, tx: Tx, input: Input) {
    || input.sequence < SEQUENCE_FINAL - 1
    || (input.sequence < SEQUENCE_FINAL && tx.lockTime < TX_MAX_LOCK_HEIGHT && tx.lockTime > env.tip + 1)
    || (input.sequence < SEQUENCE_FINAL && tx.lockTime > env.now)
    || input.txHash in b.pendingTx
  }

  /** An unconfirmed transaction with an input already spent or of an invalid transaction. */
  predicate IsInvalid(b: Books, tx: Tx) {
    tx.Unconfirmed() && exists j :: 0 <= j < |tx.inputs| && InvalidInput(b, tx.inputs[j])
  }

  /** An unconfirmed transaction that cannot be relied on yet. */
  predicate IsPending(env: Env, b: Books, tx: Tx) {
    tx.Unconfirmed() && (
      || Size(tx) > TX_MAX_SIZE
      || (exists j :: 0 <= j < |tx.outputs| && tx.outputs[j].amount < TX_MIN_OUTPUT_AMOUNT)
      || (exists j :: 0 <= j < |tx.inputs| && PendingInput(env, b, tx, tx.inputs[j])))
  }

  function InputSet(inputs: seq<Input>): set<Outpoint> {
    set i | i in inputs :: Spends(i)
  }

  /** The wallet's own among the first n outputs of tx, in order. */
  function OwnOutputs(env: Env, tx: Tx, n: nat): seq<Outpoint>
    requires n <= |tx.outputs|
  {
    if n == 0 then []
    else
      var address := tx.outputs[n - 1].address;
      OwnOutputs(env, tx, n - 1) +
      if address != "" && address in env.allAddrs then [Outpoint(tx.hash, n - 1)] else []
  }

  function Unspent(utxos: seq<Outpoint>, spent: set<Outpoint>): seq<Outpoint> {
    if utxos == [] then []
    else Unspent(utxos[..|utxos| - 1], spent) + if utxos[|utxos| - 1] in spent then [] else [utxos[|utxos| - 1]]
  }

  /** The sum of the amounts of some outputs. */
  function Total(env: Env, utxos: seq<Outpoint>): nat {
    if utxos == [] then 0 else Total(env, utxos[..|utxos| - 1]) + env.Amount(utxos[|utxos| - 1])
  }

  function Addresses(outputs: seq<Output>): set<Address> {
    set o | o in outputs && o.address != "" :: o.address
  }

  /** The books after one more transaction. */
  function Step(env: Env, b: Books, tx: Tx): Books {
    if IsInvalid(b, tx) then b.(invalidTx := b.invalidTx + {tx.hash}, balanceHist := b.balanceHist + [b.balance])
    else
      var c := b.(spentOutputs := b.spentOutputs + InputSet(tx.inputs));
      if IsPending(env, c, tx) then c.(pendingTx := c.pendingTx + {tx.hash}, balanceHist := c.balanceHist + [c.balance])
      else
        var utxos := Unspent(c.utxos + OwnOutputs(env, tx, |tx.outputs|), c.spentOutputs);
        var balance := Total(env, utxos);
        c.(utxos := utxos, balance := balance, balanceHist := c.balanceHist + [balance],
           totalReceived := c.totalReceived + if c.balance < balance then balance - c.balance else 0,
           totalSent := c.totalSent + if balance < c.balance then c.balance - balance else 0,
           usedAddrs := c.usedAddrs + Addresses(tx.outputs))
  }

  predicate Listed(env: Env, order: seq<Hash>) {
    && (forall i :: 0 <= i < |order| ==> order[i] in env.allTx && env.allTx[order[i]].hash == order[i])
    && forall i, j :: 0 <= i < j < |order| ==> order[i] != order[j]
  }

  /** The books after the first n transactions of the order. */
  function Recompute(env: Env, order: seq<Hash>, n: nat): Books
    requires Listed(env, order) && n <= |order|
  {
    if n == 0 then EMPTY else Step(env, Recompute(env, order, n - 1), env.allTx[order[n - 1]])
  }

  /** Whether transaction number i of the order is accepted: neither invalid nor pending. */
  predicate Accepted(env: Env, order: seq<Hash>, i: nat)
    requires Listed(env, order) && i < |order|
  {
    var b, tx := Recompute(env, order, i), env.allTx[order[i]];
    !IsInvalid(b, tx) && !IsPending(env, b.(spentOutputs := b.spentOutputs + InputSet(tx.inputs)), tx)
  }

  /** The spent outputs known when the last of the first n transactions to be accepted was accepted. */
  function Settled(env: Env, order: seq<Hash>, n: nat): set<Outpoint>
    requires Listed(env, order) && n <= |order|
  {
    if n == 0 then {} else if Accepted(env, order, n - 1) then Recompute(env, order, n).spentOutputs
    else Settled(env, order, n - 1)
  }

  predicate NoDuplicates<T(==)>(s: seq<T>) {
    forall i, j :: 0 <= i < j < |s| ==> s[i] != s[j]
  }

  lemma {:induction false} OwnOutputsAre(env: Env, tx: Tx, n: nat)
    requires n <= |tx.outputs| && tx.hash in env.allTx && env.allTx[tx.hash] == tx
    ensures NoDuplicates(OwnOutputs(env, tx, n))
    ensures forall o :: o in OwnOutputs(env, tx, n) <==> o.hash == tx.hash && o.n < n && env.IsWalletOutput(o)
  {
    if n > 0 {
      OwnOutputsAre(env, tx, n - 1);
    }
  }

  lemma {:induction false} UnspentAre(utxos: seq<Outpoint>, spent: set<Outpoint>)
    ensures forall o :: o in Unspent(utxos, spent) <==> o in utxos && o !in spent
    ensures NoDuplicates(utxos) ==> NoDuplicates(Unspent(utxos, spent))
  {
    if utxos != [] {
      UnspentAre(utxos[..|utxos| - 1], spent);
      assert utxos == utxos[..|utxos| - 1] + [utxos[|utxos| - 1]];
    }
  }

  /** What one more transaction changes, if it is accepted and if it is not. */
  lemma StepEffect(env: Env, order: seq<Hash>, n: nat)
    requires Listed(env, order) && 0 < n <= |order|
    ensures var b, c, tx := Recompute(env, order, n - 1), Recompute(env, order, n), env.allTx[order[n - 1]];
            var spent := b.spentOutputs + InputSet(tx.inputs);
            if Accepted(env, order, n - 1) then
              && c.utxos == Unspent(b.utxos + OwnOutputs(env, tx, |tx.outputs|), spent) && c.spentOutputs == spent
              && c.balance == Total(env, c.utxos)
              && c.totalReceived - c.totalSent == b.totalReceived - b.totalSent + c.balance - b.balance
              && c.balanceHist == b.balanceHist + [c.balance]
            else
              && c.utxos == b.utxos && (c.spentOutputs == b.spentOutputs || c.spentOutputs == spent)
              && c.balance == b.balance && c.totalReceived == b.totalReceived && c.totalSent == b.totalSent
              && c.balanceHist == b.balanceHist + [b.balance]
  {
    hide IsInvalid, IsPending, Unspent, OwnOutputs, Total, InputSet;
  }

  lemma {:induction false} SettledAreSpent(env: Env, order: seq<Hash>, n: nat)
    requires Listed(env, order) && n <= |order|
    ensures Settled(env, order, n) <= Recompute(env, order, n).spentOutputs
  {
    hide Step, Accepted, InputSet;
    if n > 0 {
      SettledAreSpent(env, order, n - 1);
      StepEffect(env, order, n);
    }
  }

  ghost predicate AcceptedBefore(env: Env, order: seq<Hash>, n: nat, h: Hash)
    requires Listed(env, order) && n <= |order|
  {
    exists i: nat :: i < n && order[i] == h && Accepted(env, order, i)
  }

  lemma AcceptedSteps(env: Env, order: seq<Hash>, n: nat, h: Hash)
    requires Listed(env, order) && 0 < n <= |order|
    ensures AcceptedBefore(env, order, n, h) <==>
              AcceptedBefore(env, order, n - 1, h) || (order[n - 1] == h && Accepted(env, order, n - 1))
  {
    hide Accepted;
  }

  /** An output of the wallet, of an accepted one of the first n transactions, not settled as spent. */
  ghost predicate Available(env: Env, order: seq<Hash>, n: nat, o: Outpoint)
    requires Listed(env, order) && n <= |order|
  {
    env.IsWalletOutput(o) && o !in Settled(env, order, n) && AcceptedBefore(env, order, n, o.hash)
  }

  lemma AvailableSteps(env: Env, order: seq<Hash>, n: nat, o: Outpoint)
    requires Listed(env, order) && 0 < n <= |order|
    requires o in Recompute(env, order, n - 1).utxos <==> Available(env, order, n - 1, o)
    ensures o in Recompute(env, order, n).utxos <==> Available(env, order, n, o)
  {
    hide Step, Accepted, AcceptedBefore, InputSet, Recompute, Unspent, OwnOutputs, Env.IsWalletOutput;
    var b, tx := Recompute(env, order, n - 1), env.allTx[order[n - 1]];
    StepEffect(env, order, n);
    AcceptedSteps(env, order, n, o.hash);
    SettledAreSpent(env, order, n - 1);
    OwnHas(env, tx, o);
    UnspentHas(b.utxos + OwnOutputs(env, tx, |tx.outputs|), b.spentOutputs + InputSet(tx.inputs), o);
  }

  lemma OwnHas(env: Env, tx: Tx, o: Outpoint)
    requires tx.hash in env.allTx && env.allTx[tx.hash] == tx
    ensures o in OwnOutputs(env, tx, |tx.outputs|) <==> o.hash == tx.hash && env.IsWalletOutput(o)
  {
    OwnOutputsAre(env, tx, |tx.outputs|);
  }

  lemma UnspentHas(utxos: seq<Outpoint>, spent: set<Outpoint>, o: Outpoint)
    ensures o in Unspent(utxos, spent) <==> o in utxos && o !in spent
  {
    UnspentAre(utxos, spent);
  }

  /** At every step the unspent outputs are exactly the wallet's outputs of the accepted transactions that are
      not among the outputs settled as spent, each listed once; the balance is their total and the difference
      between everything received and everything sent. */
  lemma {:induction false} BooksBalance(env: Env, order: seq<Hash>, n: nat)
    requires Listed(env, order) && n <= |order|
    ensures var b := Recompute(env, order, n);
            && NoDuplicates(b.utxos)
            && (forall o :: o in b.utxos <==> Available(env, order, n, o))
            && b.balance == Total(env, b.utxos) == b.totalReceived - b.totalSent
            && |b.balanceHist| == n && (n > 0 ==> b.balanceHist[n - 1] == b.balance)
  {
    if n > 0 {
      BooksBalance(env, order, n - 1);
      forall o ensures o in Recompute(env, order, n).utxos <==> Available(env, order, n, o) {
        AvailableSteps(env, order, n, o);
      }
      NewUtxosDistinct(env, order, n);
      StepEffect(env, order, n);
      hide Available, Step, Accepted;
    }
  }

  ghost predicate AllAvailable(env: Env, order: seq<Hash>, n: nat, utxos: seq<Outpoint>)
    requires Listed(env, order) && n <= |order|
  {
    forall o :: o in utxos ==> Available(env, order, n, o)
  }

  lemma AvailableBefore(env: Env, order: seq<Hash>, n: nat, o: Outpoint)
    requires Listed(env, order) && n < |order| && Available(env, order, n, o)
    ensures o.hash != order[n]
  {
    hide Accepted, Settled;
  }

  lemma NewUtxosDistinct(env: Env, order: seq<Hash>, n: nat)
    requires Listed(env, order) && 0 < n <= |order|
    requires NoDuplicates(Recompute(env, order, n - 1).utxos)
    requires AllAvailable(env, order, n - 1, Recompute(env, order, n - 1).utxos)
    ensures NoDuplicates(Recompute(env, order, n).utxos)
  {
    hide Step, Accepted, InputSet, Recompute, Available, Unspent, OwnOutputs, NoDuplicates, Env.IsWalletOutput;
    var b, tx := Recompute(env, order, n - 1), env.allTx[order[n - 1]];
    var own := OwnOutputs(env, tx, |tx.outputs|);
    StepEffect(env, order, n);
    OwnOutputsAre(env, tx, |tx.outputs|);
    forall o | o in b.utxos ensures o !in own {
      AvailableBefore(env, order, n - 1, o);
    }
    JoinedDistinct(b.utxos, own);
    UnspentAre(b.utxos + own, b.spentOutputs + InputSet(tx.inputs));
  }

  lemma JoinedDistinct(a: seq<Outpoint>, b: seq<Outpoint>)
    requires NoDuplicates(a) && NoDuplicates(b) && forall o :: o in a ==> o !in b
    ensures NoDuplicates(a + b)
  {
    forall i, j | 0 <= i < j < |a + b| ensures (a + b)[i] != (a + b)[j] {
      assert i < |a| ==> a[i] in a;
    }
  }

  ///////////////////////// When everything is confirmed /////////////////////////

  predicate AllConfirmed(env: Env, order: seq<Hash>)
    requires Listed(env, order)
  {
    forall i :: 0 <= i < |order| ==> !env.allTx[order[i]].Unconfirmed()
  }

  /** Everything the first n transactions spend. */
  function AllSpent(env: Env, order: seq<Hash>, n: nat): set<Outpoint>
    requires Listed(env, order) && n <= |order|
  {
    if n == 0 then {} else AllSpent(env, order, n - 1) + InputSet(env.allTx[order[n - 1]].inputs)
  }

  predicate SpentBy(env: Env, h: Hash, o: Outpoint)
    requires h in env.allTx
  {
    exists j :: 0 <= j < |env.allTx[h].inputs| && Spends(env.allTx[h].inputs[j]) == o
  }

  lemma {:induction false} AllSpentAre(env: Env, order: seq<Hash>, n: nat, o: Outpoint)
    requires Listed(env, order) && n <= |order|
    ensures o in AllSpent(env, order, n) <==> exists i: nat :: i < n && SpentBy(env, order[i], o)
  {
    if n > 0 {
      AllSpentAre(env, order, n - 1, o);
    }
  }

  lemma ConfirmedAccepted(env: Env, order: seq<Hash>, i: nat)
    requires Listed(env, order) && i < |order| && AllConfirmed(env, order)
    ensures Accepted(env, order, i)
  {
    hide Recompute;
  }

  lemma SpentSteps(env: Env, order: seq<Hash>, n: nat)
    requires Listed(env, order) && 0 < n <= |order| && Accepted(env, order, n - 1)
    ensures AllSpent(env, order, n) == AllSpent(env, order, n - 1) + InputSet(env.allTx[order[n - 1]].inputs)
    ensures Settled(env, order, n) == Recompute(env, order, n).spentOutputs
  {
    hide Accepted, Recompute, InputSet;
  }

  lemma {:induction false} ConfirmedSpent(env: Env, order: seq<Hash>, n: nat)
    requires Listed(env, order) && n <= |order| && AllConfirmed(env, order)
    ensures Recompute(env, order, n).spentOutputs == AllSpent(env, order, n) == Settled(env, order, n)
  {
    if n > 0 {
      hide InputSet, Step, Accepted, Recompute, AllConfirmed, AllSpent, Settled;
      ConfirmedSpent(env, order, n - 1);
      ConfirmedAccepted(env, order, n - 1);
      StepEffect(env, order, n);
      SpentSteps(env, order, n);
    } else {
      hide Step, Accepted, AllConfirmed;
    }
  }

  /** No transaction of the list spends the output. */
  ghost predicate Untouched(env: Env, order: seq<Hash>, o: Outpoint)
    requires Listed(env, order)
  {
    forall i: nat :: i < |order| ==> !SpentBy(env, order[i], o)
  }

  /** With every transaction confirmed, the unspent outputs are all the wallet's outputs that nothing spends. */
  lemma ConfirmedUtxos(env: Env, order: seq<Hash>, o: Outpoint)
    requires Listed(env, order) && AllConfirmed(env, order)
    ensures o in Recompute(env, order, |order|).utxos <==>
              o.hash in order && env.IsWalletOutput(o) && Untouched(env, order, o)
  {
    hide Accepted, SpentBy, Recompute, AllConfirmed;
    BooksBalance(env, order, |order|);
    ConfirmedSpent(env, order, |order|);
    AllSpentAre(env, order, |order|, o);
    if o.hash in order {
      var i: nat :| i < |order| && order[i] == o.hash;
      ConfirmedAccepted(env, order, i);
    }
  }

  lemma {:induction false} TotalWithout(env: Env, utxos: seq<Outpoint>, k: nat)
    requires k < |utxos|
    ensures Total(env, utxos) == Total(env, utxos[..k] + utxos[k + 1..]) + env.Amount(utxos[k])
  {
    var last := |utxos| - 1;
    if k == last {
      assert utxos[..k] + utxos[k + 1..] == utxos[..last];
    } else {
      TotalWithout(env, utxos[..last], k);
      assert (utxos[..k] + utxos[k + 1..])[..last - 1] == utxos[..last][..k] + utxos[..last][k + 1..];
    }
  }

  /** The total depends only on which outputs are listed. */
  lemma {:induction false} TotalOfSameSet(env: Env, a: seq<Outpoint>, b: seq<Outpoint>)
    requires NoDuplicates(a) && NoDuplicates(b) && forall o :: o in a <==> o in b
    ensures Total(env, a) == Total(env, b)
    decreases |a|
  {
    assert b != [] ==> b[0] in b;
    if a != [] {
      var last := |a| - 1;
      assert a[last] in b;
      var k: nat :| k < |b| && b[k] == a[last];
      TotalWithout(env, b, k);
      var rest := b[..k] + b[k + 1..];
      assert forall o :: o in rest <==> o in b && o != a[last];
      assert forall o :: o in a[..last] <==> o in a && o != a[last];
      TotalOfSameSet(env, a[..last], rest);
    }
  }

  /** With every transaction confirmed, neither the unspent outputs nor the balance depend on their order. */
  lemma OrderDoesNotMatter(env: Env, a: seq<Hash>, b: seq<Hash>)
    requires Listed(env, a) && Listed(env, b) && AllConfirmed(env, a) && forall h :: h in a <==> h in b
    ensures forall o :: o in Recompute(env, a, |a|).utxos <==> o in Recompute(env, b, |b|).utxos
    ensures Recompute(env, a, |a|).balance == Recompute(env, b, |b|).balance
  {
    hide Recompute, SpentBy, Untouched;
    forall i | 0 <= i < |b| ensures !env.allTx[b[i]].Unconfirmed() {
      assert b[i] in a;
    }
    forall o ensures o in Recompute(env, a, |a|).utxos <==> o in Recompute(env, b, |b|).utxos {
      ConfirmedUtxos(env, a, o);
      ConfirmedUtxos(env, b, o);
      if Untouched(env, a, o) {
        SameUntouched(env, a, b, o);
      } else if Untouched(env, b, o) {
        SameUntouched(env, b, a, o);
      }
    }
    BooksBalance(env, a, |a|);
    BooksBalance(env, b, |b|);
    TotalOfSameSet(env, Recompute(env, a, |a|).utxos, Recompute(env, b, |b|).utxos);
  }

  lemma SameUntouched(env: Env, a: seq<Hash>, b: seq<Hash>, o: Outpoint)
    requires Listed(env, a) && Listed(env, b) && (forall h :: h in b ==> h in a) && Untouched(env, a, o)
    ensures Untouched(env, b, o)
  {
    forall i: nat | i < |b| ensures !SpentBy(env, b[i], o) {
      assert b[i] in a;
    }
  }

  ///////////////////////// When books stay right /////////////////////////

  /** Two states of the wallet whose listed transactions differ at most in heights and times. */
  ghost predicate SameButHeights(a: Env, b: Env, order: seq<Hash>) {
    && Listed(a, order) && Listed(b, order) && a.allAddrs == b.allAddrs
    && forall i :: 0 <= i < |order| ==>
         b.allTx[order[i]] == a.allTx[order[i]].(blockHeight := b.allTx[order[i]].blockHeight,
                                                 timestamp := b.allTx[order[i]].timestamp)
  }

  /** What transaction number i is judged by, once it is not invalid. */
  function Spending(env: Env, order: seq<Hash>, i: nat): Books
    requires Listed(env, order) && i < |order|
  {
    var b := Recompute(env, order, i);
    b.(spentOutputs := b.spentOutputs + InputSet(env.allTx[order[i]].inputs))
  }

  predicate InvalidAt(env: Env, order: seq<Hash>, i: nat)
    requires Listed(env, order) && i < |order|
  {
    IsInvalid(Recompute(env, order, i), env.allTx[order[i]])
  }

  predicate PendingAt(env: Env, order: seq<Hash>, i: nat)
    requires Listed(env, order) && i < |order|
  {
    !InvalidAt(env, order, i) && IsPending(env, Spending(env, order, i), env.allTx[order[i]])
  }

  /** Whether the later state judges transaction number i by the books of the earlier one as the earlier did. */
  ghost predicate SameKind(a: Env, b: Env, order: seq<Hash>, i: nat)
    requires SameButHeights(a, b, order) && i < |order|
  {
    var books, tx := Recompute(a, order, i), b.allTx[order[i]];
    && (IsInvalid(books, tx) <==> InvalidAt(a, order, i))
    && (InvalidAt(a, order, i) || (IsPending(b, Spending(a, order, i), tx) <==> PendingAt(a, order, i)))
  }

  lemma {:induction false} TotalOfSameAmounts(a: Env, b: Env, utxos: seq<Outpoint>)
    requires forall o :: o in utxos ==> a.Amount(o) == b.Amount(o)
    ensures Total(a, utxos) == Total(b, utxos)
  {
    if utxos != [] {
      TotalOfSameAmounts(a, b, utxos[..|utxos| - 1]);
    }
  }

  lemma {:induction false} OwnOfSameAddrs(a: Env, b: Env, s: Tx, t: Tx, n: nat)
    requires a.allAddrs == b.allAddrs && s.outputs == t.outputs && s.hash == t.hash && n <= |s.outputs|
    ensures OwnOutputs(a, s, n) == OwnOutputs(b, t, n)
  {
    if n > 0 {
      OwnOfSameAddrs(a, b, s, t, n - 1);
    }
  }

  lemma SameAmount(a: Env, b: Env, order: seq<Hash>, n: nat, o: Outpoint)
    requires SameButHeights(a, b, order) && n <= |order| && Available(a, order, n, o)
    ensures a.Amount(o) == b.Amount(o)
  {
    hide Recompute, Accepted, Settled;
    var i: nat :| i < n && order[i] == o.hash && Accepted(a, order, i);
  }

  /** The unspent outputs after transaction number i if it is accepted. */
  function UtxosAfter(env: Env, order: seq<Hash>, i: nat): seq<Outpoint>
    requires Listed(env, order) && i < |order|
  {
    var c, tx := Spending(env, order, i), env.allTx[order[i]];
    Unspent(c.utxos + OwnOutputs(env, tx, |tx.outputs|), c.spentOutputs)
  }

  /** Transactions of the same kind take equal books to equal books. */
  lemma SameStep(a: Env, b: Env, order: seq<Hash>, i: nat)
    requires SameButHeights(a, b, order) && i < |order|
    requires Recompute(a, order, i) == Recompute(b, order, i) && SameKind(a, b, order, i)
    ensures Recompute(a, order, i + 1) == Recompute(b, order, i + 1)
  {
    var s, t := a.allTx[order[i]], b.allTx[order[i]];
    OwnOfSameAddrs(a, b, s, t, |s.outputs|);
    if !InvalidAt(a, order, i) && !PendingAt(a, order, i) {
      SameTotal(a, b, order, i);
    }
    hide Available, IsInvalid, IsPending, Total, Unspent, OwnOutputs, InputSet, Recompute, Accepted;
    StepOf(a, order, i);
    StepOf(b, order, i);
  }

  lemma StepOf(env: Env, order: seq<Hash>, i: nat)
    requires Listed(env, order) && i < |order|
    ensures Recompute(env, order, i + 1) == Step(env, Recompute(env, order, i), env.allTx[order[i]])
  {
    hide Step;
  }

  lemma SameTotal(a: Env, b: Env, order: seq<Hash>, i: nat)
    requires SameButHeights(a, b, order) && i < |order| && !InvalidAt(a, order, i) && !PendingAt(a, order, i)
    ensures Total(a, UtxosAfter(a, order, i)) == Total(b, UtxosAfter(a, order, i))
  {
    hide Recompute, Available, InvalidAt, PendingAt, UtxosAfter;
    BooksBalance(a, order, i + 1);
    AcceptedUtxos(a, order, i);
    forall o | o in UtxosAfter(a, order, i) ensures a.Amount(o) == b.Amount(o) {
      SameAmount(a, b, order, i + 1, o);
    }
    TotalOfSameAmounts(a, b, UtxosAfter(a, order, i));
  }

  lemma AcceptedUtxos(env: Env, order: seq<Hash>, i: nat)
    requires Listed(env, order) && i < |order| && !InvalidAt(env, order, i) && !PendingAt(env, order, i)
    ensures Recompute(env, order, i + 1).utxos == UtxosAfter(env, order, i)
  {
    hide IsInvalid, IsPending, Total, Unspent, OwnOutputs, InputSet;
  }

  lemma KindShows(env: Env, order: seq<Hash>, i: nat)
    requires Listed(env, order) && i < |order|
    requires order[i] !in Recompute(env, order, i).invalidTx && order[i] !in Recompute(env, order, i).pendingTx
    ensures order[i] in Recompute(env, order, i + 1).invalidTx <==> InvalidAt(env, order, i)
    ensures order[i] in Recompute(env, order, i + 1).pendingTx <==> PendingAt(env, order, i)
  {
    hide IsInvalid, IsPending, Total, Unspent, OwnOutputs, InputSet;
  }

  lemma KindStays(env: Env, order: seq<Hash>, i: nat, n: nat)
    requires Listed(env, order) && i < n < |order|
    ensures order[i] in Recompute(env, order, n + 1).invalidTx <==> order[i] in Recompute(env, order, n).invalidTx
    ensures order[i] in Recompute(env, order, n + 1).pendingTx <==> order[i] in Recompute(env, order, n).pendingTx
  {
    hide IsInvalid, IsPending, Total, Unspent, OwnOutputs, InputSet;
    assert order[i] != order[n];
  }

  lemma {:induction false} NotYet(env: Env, order: seq<Hash>, i: nat, n: nat)
    requires Listed(env, order) && n <= i < |order|
    ensures order[i] !in Recompute(env, order, n).invalidTx && order[i] !in Recompute(env, order, n).pendingTx
  {
    hide IsInvalid, IsPending, Total, Unspent, OwnOutputs, InputSet;
    if n > 0 {
      NotYet(env, order, i, n - 1);
      assert order[i] != order[n - 1];
    }
  }

  /** The sets of invalid and pending transactions are those that were judged so in their turn. */
  lemma {:induction false} KindsAre(env: Env, order: seq<Hash>, i: nat, n: nat)
    requires Listed(env, order) && i < n <= |order|
    ensures order[i] in Recompute(env, order, n).invalidTx <==> InvalidAt(env, order, i)
    ensures order[i] in Recompute(env, order, n).pendingTx <==> PendingAt(env, order, i)
  {
    hide Recompute, InvalidAt, PendingAt;
    if n == i + 1 {
      NotYet(env, order, i, i);
      KindShows(env, order, i);
    } else {
      KindsAre(env, order, i, n - 1);
      KindStays(env, order, i, n - 1);
    }
  }

  lemma KindMatters(a: Env, b: Env, order: seq<Hash>, i: nat)
    requires SameButHeights(a, b, order) && i < |order|
    requires Recompute(a, order, i) == Recompute(b, order, i) && !SameKind(a, b, order, i)
    ensures Recompute(a, order, |order|) != Recompute(b, order, |order|)
  {
    KindsAre(a, order, i, |order|);
    KindsAre(b, order, i, |order|);
    hide Recompute, IsInvalid, IsPending, InputSet;
  }

  lemma NoTx(env: Env, order: seq<Hash>)
    requires Listed(env, order)
    ensures Recompute(env, order, 0) == EMPTY
  {
    hide Step;
  }

  lemma {:induction false} SameSoFar(a: Env, b: Env, order: seq<Hash>, n: nat)
    requires SameButHeights(a, b, order) && n <= |order| && forall i: nat :: i < n ==> SameKind(a, b, order, i)
    ensures Recompute(a, order, n) == Recompute(b, order, n)
  {
    hide Recompute, SameKind;
    if n == 0 {
      NoTx(a, order);
      NoTx(b, order);
    } else {
      SameSoFar(a, b, order, n - 1);
      SameStep(a, b, order, n - 1);
    }
  }

  lemma {:induction false} FirstDiffers(a: Env, b: Env, order: seq<Hash>, n: nat)
    requires SameButHeights(a, b, order) && n <= |order| && exists i: nat :: i < n && !SameKind(a, b, order, i)
    ensures Recompute(a, order, |order|) != Recompute(b, order, |order|)
  {
    hide Recompute, SameKind;
    if i: nat :| i < n - 1 && !SameKind(a, b, order, i) {
      FirstDiffers(a, b, order, n - 1);
    } else {
      SameSoFar(a, b, order, n - 1);
      KindMatters(a, b, order, n - 1);
    }
  }

  /** After changes of heights and times that keep the order, recomputing would change nothing if and only if every
      transaction, judged by the books before it, is still invalid, pending or neither as it was. */
  lemma StillRightIff(a: Env, b: Env, order: seq<Hash>)
    requires SameButHeights(a, b, order)
    ensures Recompute(a, order, |order|) == Recompute(b, order, |order|) <==>
              forall i: nat :: i < |order| ==> SameKind(a, b, order, i)
  {
    hide Recompute, SameKind, Listed;
    if forall i: nat :: i < |order| ==> SameKind(a, b, order, i) {
      SameSoFar(a, b, order, |order|);
    } else {
      FirstDiffers(a, b, order, |order|);
    }
  }

  ///////////////////////// What the books mean /////////////////////////

  /** Which outputs are known as spent: those that an earlier transaction spends which is not invalid. */
  lemma {:induction false} SpentAre(env: Env, order: seq<Hash>, n: nat, o: Outpoint)
    requires Listed(env, order) && n <= |order|
    ensures o in Recompute(env, order, n).spentOutputs <==>
              exists k: nat :: k < n && SpentBy(env, order[k], o) && !InvalidAt(env, order, k)
  {
    if n > 0 {
      SpentAre(env, order, n - 1, o);
      SpentStep(env, order, n, o);
      hide Recompute, SpentBy, InvalidAt;
    }
  }

  lemma SpentStep(env: Env, order: seq<Hash>, n: nat, o: Outpoint)
    requires Listed(env, order) && 0 < n <= |order|
    ensures o in Recompute(env, order, n).spentOutputs <==>
              || o in Recompute(env, order, n - 1).spentOutputs
              || (SpentBy(env, order[n - 1], o) && !InvalidAt(env, order, n - 1))
  {
    var tx := env.allTx[order[n - 1]];
    assert o in InputSet(tx.inputs) <==> SpentBy(env, order[n - 1], o);
    hide IsInvalid, IsPending, Unspent, OwnOutputs, Total, InputSet, SpentBy;
  }

  /** An earlier transaction that is not among the given ones spends the output. */
  predicate SpentBefore(env: Env, order: seq<Hash>, i: nat, invalid: set<Hash>, o: Outpoint)
    requires Listed(env, order) && i <= |order|
  {
    exists k: nat :: k < i && SpentBy(env, order[k], o) && order[k] !in invalid
  }

  predicate Earlier(order: seq<Hash>, i: nat, some: set<Hash>, h: Hash)
    requires i <= |order|
  {
    h in some && exists k: nat :: k < i && order[k] == h
  }

  predicate BadInput(env: Env, order: seq<Hash>, i: nat, invalid: set<Hash>, input: Input)
    requires Listed(env, order) && i <= |order|
  {
    SpentBefore(env, order, i, invalid, Outpoint(input.txHash, input.index)) || Earlier(order, i, invalid, input.txHash)
  }

  /** The invalid transactions are the unconfirmed ones with an input that an earlier valid transaction spends, or from
      an earlier invalid one. */
  lemma InvalidIff(env: Env, order: seq<Hash>, i: nat)
    requires Listed(env, order) && i < |order|
    ensures var invalid, tx := Recompute(env, order, |order|).invalidTx, env.allTx[order[i]];
            order[i] in invalid <==>
              && tx.blockHeight == 0x7fff_ffff
              && exists j :: 0 <= j < |tx.inputs| && BadInput(env, order, i, invalid, tx.inputs[j])
  {
    var invalid, tx := Recompute(env, order, |order|).invalidTx, env.allTx[order[i]];
    KindsAre(env, order, i, |order|);
    forall j | 0 <= j < |tx.inputs|
      ensures InvalidInput(Recompute(env, order, i), tx.inputs[j]) <==> BadInput(env, order, i, invalid, tx.inputs[j])
    {
      InvalidInputIs(env, order, i, tx.inputs[j]);
    }
    hide Recompute, BadInput, InvalidInput;
  }

  lemma InvalidInputIs(env: Env, order: seq<Hash>, i: nat, input: Input)
    requires Listed(env, order) && i < |order|
    ensures var invalid := Recompute(env, order, |order|).invalidTx;
            InvalidInput(Recompute(env, order, i), input) <==>
              SpentBefore(env, order, i, invalid, Spends(input)) || Earlier(order, i, invalid, input.txHash)
  {
    hide Recompute, SpentBy, InvalidAt, PendingAt;
    SpentAre(env, order, i, Spends(input));
    forall k: nat | k < i
      ensures order[k] in Recompute(env, order, |order|).invalidTx <==> InvalidAt(env, order, k)
      ensures order[k] in Recompute(env, order, i).invalidTx <==> InvalidAt(env, order, k)
    {
      KindsAre(env, order, k, |order|);
      KindsAre(env, order, k, i);
    }
    KindsListed(env, order, i);
  }

  lemma {:induction false} KindsListed(env: Env, order: seq<Hash>, n: nat)
    requires Listed(env, order) && n <= |order|
    ensures forall h :: h in Recompute(env, order, n).invalidTx || h in Recompute(env, order, n).pendingTx ==>
                          exists k: nat :: k < n && order[k] == h
  {
    hide IsInvalid, IsPending, Unspent, OwnOutputs, Total, InputSet;
    if n > 0 {
      KindsListed(env, order, n - 1);
    }
  }

  predicate DoubtfulInput(env: Env, order: seq<Hash>, i: nat, pending: set<Hash>, input: Input)
    requires Listed(env, order) && i < |order|
  {
    var lockTime := env.allTx[order[i]].lockTime;
    || input.sequence < 0xffff_fffe || Earlier(order, i, pending, input.txHash)
    || (input.sequence == 0xffff_fffe && (lockTime > env.now || env.tip + 1 < lockTime < 500000000))
  }

  /** The pending transactions are the unconfirmed ones that are not invalid, and that are larger than 100000 bytes, or
      pay less than 546 to somebody, or have an input that can be replaced, is not final yet, or is of an earlier
      pending one. */
  lemma PendingIff(env: Env, order: seq<Hash>, i: nat)
    requires Listed(env, order) && i < |order|
    ensures var b, tx := Recompute(env, order, |order|), env.allTx[order[i]];
            order[i] in b.pendingTx <==>
              && tx.blockHeight == 0x7fff_ffff && order[i] !in b.invalidTx
              && (|| Size(tx) > 100000
                  || (exists j :: 0 <= j < |tx.outputs| && tx.outputs[j].amount < 546)
                  || exists j :: 0 <= j < |tx.inputs| && DoubtfulInput(env, order, i, b.pendingTx, tx.inputs[j]))
  {
    var b, tx := Recompute(env, order, |order|), env.allTx[order[i]];
    KindsAre(env, order, i, |order|);
    forall j | 0 <= j < |tx.inputs|
      ensures PendingInput(env, Spending(env, order, i), tx, tx.inputs[j]) <==>
                DoubtfulInput(env, order, i, b.pendingTx, tx.inputs[j])
    {
      PendingInputIs(env, order, i, tx.inputs[j].txHash);
      hide Recompute, InputSet, Earlier;
    }
    hide Recompute, Size, Spending, DoubtfulInput, PendingInput, InvalidAt;
  }

  lemma PendingInputIs(env: Env, order: seq<Hash>, i: nat, h: Hash)
    requires Listed(env, order) && i < |order|
    ensures h in Recompute(env, order, i).pendingTx <==>
              Earlier(order, i, Recompute(env, order, |order|).pendingTx, h)
  {
    hide Recompute, InvalidAt, PendingAt;
    forall k: nat | k < i
      ensures order[k] in Recompute(env, order, |order|).pendingTx <==> order[k] in Recompute(env, order, i).pendingTx
    {
      KindsAre(env, order, k, |order|);
      KindsAre(env, order, k, i);
    }
    KindsListed(env, order, i);
  }

  /** What an accepted transaction spends is no longer unspent. */
  lemma {:induction false} AcceptedIsSettled(env: Env, order: seq<Hash>, i: nat, n: nat)
    requires Listed(env, order) && i < n <= |order| && Accepted(env, order, i)
    ensures InputSet(env.allTx[order[i]].inputs) <= Settled(env, order, n)
  {
    hide Accepted, InputSet, Recompute;
    if n == i + 1 {
      StepEffect(env, order, n);
    } else {
      AcceptedIsSettled(env, order, i, n - 1);
      SettledAreSpent(env, order, n - 1);
      SpentGrow(env, order, n);
    }
  }

  lemma SpentGrow(env: Env, order: seq<Hash>, n: nat)
    requires Listed(env, order) && 0 < n <= |order|
    ensures Recompute(env, order, n - 1).spentOutputs <= Recompute(env, order, n).spentOutputs
  {
    StepEffect(env, order, n);
    hide Step, Accepted, InputSet;
  }

  lemma NothingSpentIsLeft(env: Env, order: seq<Hash>, i: nat, o: Outpoint)
    requires Listed(env, order) && i < |order| && SpentBy(env, order[i], o)
    requires order[i] !in Recompute(env, order, |order|).invalidTx
    requires order[i] !in Recompute(env, order, |order|).pendingTx
    ensures o !in Recompute(env, order, |order|).utxos
  {
    KindsAre(env, order, i, |order|);
    assert o in InputSet(env.allTx[order[i]].inputs);
    hide Recompute, InputSet, SpentBy, IsInvalid, IsPending;
    AcceptedIsSettled(env, order, i, |order|);
    BooksBalance(env, order, |order|);
    hide Accepted, AcceptedBefore, Settled, Env.IsWalletOutput;
  }

  /** The sum of all rises of a balance that starts at zero. */
  function Rises(history: seq<nat>): nat {
    var n := |history|;
    if n == 0 then 0
    else
      var before := if n == 1 then 0 else history[n - 2];
      Rises(history[..n - 1]) + if before < history[n - 1] then history[n - 1] - before else 0
  }

  function Falls(history: seq<nat>): nat {
    var n := |history|;
    if n == 0 then 0
    else
      var before := if n == 1 then 0 else history[n - 2];
      Falls(history[..n - 1]) + if history[n - 1] < before then before - history[n - 1] else 0
  }

  /** What was received are the rises of the balance from one transaction to the next, what was sent its falls. */
  lemma {:induction false} TotalsAre(env: Env, order: seq<Hash>, n: nat)
    requires Listed(env, order) && n <= |order|
    ensures var b := Recompute(env, order, n);
            b.totalReceived == Rises(b.balanceHist) && b.totalSent == Falls(b.balanceHist)
  {
    if n > 0 {
      TotalsAre(env, order, n - 1);
      BooksBalance(env, order, n - 1);
      TotalsStep(env, order, n);
      var h, was := Recompute(env, order, n).balanceHist, Recompute(env, order, n - 1).balanceHist;
      assert h[..n - 1] == was && (n > 1 ==> h[n - 2] == was[n - 2]);
      hide Recompute;
    }
  }

  lemma TotalsStep(env: Env, order: seq<Hash>, n: nat)
    requires Listed(env, order) && 0 < n <= |order|
    ensures var b, c := Recompute(env, order, n - 1), Recompute(env, order, n);
            && c.balanceHist == b.balanceHist + [c.balance]
            && c.totalReceived == b.totalReceived + (if b.balance < c.balance then c.balance - b.balance else 0)
            && c.totalSent == b.totalSent + (if c.balance < b.balance then b.balance - c.balance else 0)
            && (n == 1 ==> b.balance == 0)
  {
    hide IsInvalid, IsPending, Unspent, OwnOutputs, Total, InputSet;
  }

  /** The used addresses are those that accepted transactions pay. */
  lemma {:induction false} UsedAre(env: Env, order: seq<Hash>, n: nat, a: Address)
    requires Listed(env, order) && n <= |order|
    ensures a in Recompute(env, order, n).usedAddrs <==>
              a != "" && exists i: nat :: i < n && Accepted(env, order, i) && PaidBy(env, order[i], a)
  {
    if n > 0 {
      UsedAre(env, order, n - 1, a);
      UsedStep(env, order, n, a);
      hide Recompute, Accepted, PaidBy;
    }
  }

  predicate PaidBy(env: Env, h: Hash, a: Address)
    requires h in env.allTx
  {
    exists j :: 0 <= j < |env.allTx[h].outputs| && env.allTx[h].outputs[j].address == a
  }

  lemma UsedStep(env: Env, order: seq<Hash>, n: nat, a: Address)
    requires Listed(env, order) && 0 < n <= |order|
    ensures a in Recompute(env, order, n).usedAddrs <==>
              || a in Recompute(env, order, n - 1).usedAddrs
              || (a != "" && Accepted(env, order, n - 1) && PaidBy(env, order[n - 1], a))
  {
    assert a in Addresses(env.allTx[order[n - 1]].outputs) <==> a != "" && PaidBy(env, order[n - 1], a);
    hide IsInvalid, IsPending, Unspent, OwnOutputs, Total, InputSet, PaidBy, Addresses;
  }
}
