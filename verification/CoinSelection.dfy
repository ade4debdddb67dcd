/** Choosing the inputs of a payment, its fee and its change. */
module CoinSelection {
  import opened Transaction
  import opened Ledger
  import opened Words

  const MIN_FEE_PER_KB: nat := TX_FEE_PER_KB
  const TXIN_SEQUENCE: nat := SEQUENCE_FINAL

  //////////////////////////////// Fees ////////////////////////////////

  /** The fee for a size: the standard one, or by the rate rounded up to a hundred if that is more. */
  function TxFee(feePerKb: nat, size: nat): (fee: nat)
    ensures fee >= size
  {
    var standardFee := size * TX_FEE_PER_KB / 1000;
    var fee := (PerKb(size, feePerKb) + 99) / 100 * 100;
    if fee > standardFee then fee else standardFee
  }

  function PerKb(size: nat, feePerKb: nat): (r: nat)
  {
    MulNat(size, feePerKb);
    size * feePerKb / 1000
  }

  lemma FeeAscends(feePerKb: nat, a: nat, b: nat)
    requires a <= b
    ensures TxFee(feePerKb, a) <= TxFee(feePerKb, b)
  {
    PerKbAscends(feePerKb, a, b);
    hide PerKb;
  }

  lemma PerKbAscends(feePerKb: nat, a: nat, b: nat)
    requires a <= b
    ensures PerKb(a, feePerKb) <= PerKb(b, feePerKb)
  {
    assert b * feePerKb - a * feePerKb == (b - a) * feePerKb;
    MulNat(b - a, feePerKb);
  }

  /** The fee is at least one for each byte, and at least the rate; it is either exactly the former, or a multiple of a
      hundred and less than a hundred above the whole part of the latter. */
  lemma FeeIs(feePerKb: nat, size: nat)
    ensures var fee, rate := TxFee(feePerKb, size), PerKb(size, feePerKb);
            && rate * 1000 <= size * feePerKb < rate * 1000 + 1000
            && fee >= size && fee >= rate && (fee == size || (fee % 100 == 0 && fee < rate + 100))
  {
    MulNat(size, feePerKb);
    hide PerKb;
    RateIs(size, feePerKb);
  }

  lemma RateIs(size: nat, feePerKb: nat)
    ensures PerKb(size, feePerKb) * 1000 <= size * feePerKb < PerKb(size, feePerKb) * 1000 + 1000
  {
  }

  /** The smallest output worth its fee. */
  function MinOutputAmount(feePerKb: nat): nat {
    var amount := (TX_MIN_OUTPUT_AMOUNT * feePerKb + MIN_FEE_PER_KB - 1) / MIN_FEE_PER_KB;
    if amount > TX_MIN_OUTPUT_AMOUNT then amount else TX_MIN_OUTPUT_AMOUNT
  }

  /** At least 546, and at least 546 scaled by the rate over a thousand; and no more than it takes for that. */
  lemma MinOutputIs(feePerKb: nat)
    ensures var least := MinOutputAmount(feePerKb);
            && least >= 546 && least * 1000 >= 546 * feePerKb
            && (least == 546 || (least - 1) * 1000 < 546 * feePerKb)
  {
  }

  //////////////////////////////// The transaction being built ////////////////////////////////

  class BRTransaction {
    var inputs: seq<Input>
    var outputs: seq<Output>

    constructor ()
      ensures inputs == [] && outputs == []
    {
      inputs, outputs := [], [];
    }

    method AddInput(txHash: Hash, index: nat, sequence: nat)
      modifies this`inputs
      ensures inputs == old(inputs) + [Input(txHash, index, sequence, Unsigned)]
    {
      inputs := inputs + [Input(txHash, index, sequence, Unsigned)];
    }

    method AddOutput(output: Output)
      modifies this`outputs
      ensures outputs == old(outputs) + [output]
    {
      outputs := outputs + [output];
    }

    /** A Fisher-Yates shuffle; rand(i, n) is the random number below n drawn at step i. */
    method ShuffleOutputs(rand: (nat, nat) -> nat)
      requires forall i: nat, n: nat :: 0 < n ==> rand(i, n) < n
      modifies this`outputs
      ensures multiset(outputs) == multiset(old(outputs)) && |outputs| == |old(outputs)|
    {
      var i := 0;
      while i + 1 < |outputs|
        invariant multiset(outputs) == multiset(old(outputs)) && |outputs| == |old(outputs)|
      {
        var j := i + rand(i, |outputs| - i);
        if j != i {
          outputs := outputs[i := outputs[j]][j := outputs[i]];
        }
        i := i + 1;
      }
    }
  }

  function Amounts(outputs: seq<Output>): nat {
    if outputs == [] then 0 else Amounts(outputs[..|outputs| - 1]) + outputs[|outputs| - 1].amount
  }

  lemma OneMoreAmount(outputs: seq<Output>, i: nat)
    requires i < |outputs|
    ensures Amounts(outputs[..i + 1]) == Amounts(outputs[..i]) + outputs[i].amount
  {
    assert outputs[..i + 1][..i] == outputs[..i];
  }

  /** An unspent output whose transaction is known. */
  predicate Spendable(env: Env, o: Outpoint) {
    o.hash in env.allTx && o.n < |env.allTx[o.hash].outputs|
  }

  function InputFor(o: Outpoint): Input {
    Input(o.hash, o.n, TXIN_SEQUENCE, Unsigned)
  }

  /** The inputs for the spendable ones of some outputs. */
  function InputsFor(env: Env, utxos: seq<Outpoint>): seq<Input> {
    if utxos == [] then []
    else
      var last := utxos[|utxos| - 1];
      InputsFor(env, utxos[..|utxos| - 1]) + if Spendable(env, last) then [InputFor(last)] else []
  }

  /** The size of an unsigned transaction depends only on how many inputs it has. */
  lemma {:induction false} UnsignedSizes(inputs: seq<Input>)
    requires forall i :: 0 <= i < |inputs| ==> inputs[i].signature == Unsigned
    ensures InputSizes(inputs) == TX_INPUT_SIZE * |inputs|
  {
    if inputs != [] {
      UnsignedSizes(inputs[..|inputs| - 1]);
    }
  }

  lemma {:induction false} InputsAreUnsigned(env: Env, utxos: seq<Outpoint>)
    ensures forall i :: 0 <= i < |InputsFor(env, utxos)| ==> InputsFor(env, utxos)[i].signature == Unsigned
  {
    if utxos != [] {
      InputsAreUnsigned(env, utxos[..|utxos| - 1]);
    }
  }

  lemma OneMoreUtxo(env: Env, utxos: seq<Outpoint>, i: nat)
    requires i < |utxos|
    ensures InputsFor(env, utxos[..i + 1]) ==
            InputsFor(env, utxos[..i]) + if Spendable(env, utxos[i]) then [InputFor(utxos[i])] else []
    ensures Total(env, utxos[..i + 1]) == Total(env, utxos[..i]) + env.Amount(utxos[i])
    ensures !Spendable(env, utxos[i]) ==> env.Amount(utxos[i]) == 0
  {
    assert utxos[..i + 1][..i] == utxos[..i];
  }

  //////////////////////////////// Selecting ////////////////////////////////

  /** Oversize: with the inputs needed the transaction would be too large. */
  datatype Selection = Failed | Oversize | Selected

  /** The fee set after an input has been added: for a transaction with a change output, rounded so that what is
      left of the wallet's balance is a multiple of a hundred. */
  function RoundedFee(feePerKb: nat, size: nat, walletBalance: nat, amount: nat): (fee: nat)
    ensures TxFee(feePerKb, size + TX_OUTPUT_SIZE) <= fee
  {
    var fee := TxFee(feePerKb, size + TX_OUTPUT_SIZE);
    if walletBalance > amount + fee then fee + (walletBalance - (amount + fee)) % 100 else fee
  }

  /** The fee exceeds the one for the size with a change output by less than a hundred, and by that much leaves a
      multiple of a hundred in the wallet. */
  lemma RoundedLeaves(feePerKb: nat, size: nat, walletBalance: nat, amount: nat)
    ensures var least, fee := TxFee(feePerKb, size + 34), RoundedFee(feePerKb, size, walletBalance, amount);
            && least <= fee < least + 100
            && if walletBalance > amount + least
               then walletBalance >= amount + fee && (walletBalance - amount - fee) % 100 == 0 else fee == least
  {
    hide TxFee;
  }

  /** What the selection works with: the known transactions, the unspent outputs, the wallet's balance and fee rate. */
  datatype Funds = Funds(env: Env, utxos: seq<Outpoint>, balance: nat, feePerKb: nat)

  lemma {:induction false} WithoutOne(outputs: seq<Output>, k: nat)
    requires k < |outputs|
    ensures var rest := outputs[..k] + outputs[k + 1..];
            && Amounts(outputs) == Amounts(rest) + outputs[k].amount
            && OutputSizes(outputs) == OutputSizes(rest) + OutputSize(outputs[k])
  {
    hide OutputSize;
    var last := |outputs| - 1;
    var rest := outputs[..k] + outputs[k + 1..];
    if k == last {
      assert rest == outputs[..last];
    } else {
      WithoutOne(outputs[..last], k);
      assert rest[..last - 1] == outputs[..last][..k] + outputs[..last][k + 1..];
    }
  }

  /** Neither the sum of the amounts nor the size depends on the order of the outputs. */
  lemma {:induction false} Permuted(a: seq<Output>, b: seq<Output>)
    requires multiset(a) == multiset(b)
    ensures Amounts(a) == Amounts(b) && OutputSizes(a) == OutputSizes(b) && |a| == |b|
    decreases |a|
  {
    assert |a| == |multiset(a)| == |multiset(b)| == |b|;
    hide OutputSize;
    if a != [] {
      var last := |a| - 1;
      var k := SamePlace(a, b);
      WithoutOne(b, k);
      TakeOut(a, last);
      TakeOut(b, k);
      assert a[..last] + a[last + 1..] == a[..last];
      Permuted(a[..last], b[..k] + b[k + 1..]);
    }
  }

  lemma SamePlace(a: seq<Output>, b: seq<Output>) returns (k: nat)
    requires multiset(a) == multiset(b) && a != []
    ensures k < |b| && b[k] == a[|a| - 1]
  {
    assert a[|a| - 1] in multiset(b);
    k :| 0 <= k < |b| && b[k] == a[|a| - 1];
  }

  lemma TakeOut(s: seq<Output>, k: nat)
    requires k < |s|
    ensures multiset(s[..k] + s[k + 1..]) == multiset(s) - multiset{s[k]}
  {
    assert s == s[..k] + [s[k]] + s[k + 1..];
  }

  lemma OneMoreOutput(outputs: seq<Output>, o: Output)
    ensures Amounts(outputs + [o]) == Amounts(outputs) + o.amount
    ensures OutputSizes(outputs + [o]) == OutputSizes(outputs) + OutputSize(o)
  {
    assert (outputs + [o])[..|outputs|] == outputs;
  }

  /** The fee set after the spendable ones of the first n unspent outputs have been added. */
  function FeeAfter(f: Funds, outputs: seq<Output>, n: nat): nat
    requires n <= |f.utxos|
  {
    var inputs := InputsFor(f.env, f.utxos[..n]);
    if inputs == [] then TxFee(f.feePerKb, SizeOf([], outputs) + TX_OUTPUT_SIZE)
    else RoundedFee(f.feePerKb, SizeOf(inputs, outputs), f.balance, Amounts(outputs))
  }

  /** The selection after the first n unspent outputs. */
  ghost predicate After(f: Funds, outputs: seq<Output>, n: nat, inputs: seq<Input>, balance: nat, fee: nat) {
    && n <= |f.utxos| && inputs == InputsFor(f.env, f.utxos[..n]) && balance == Total(f.env, f.utxos[..n])
    && fee == FeeAfter(f, outputs, n)
  }

  /** The first n unspent outputs pay for everything, exactly or with enough for a change output. */
  predicate Enough(f: Funds, outputs: seq<Output>, n: nat)
    requires n <= |f.utxos|
  {
    var balance, needed := Total(f.env, f.utxos[..n]), Amounts(outputs) + FeeAfter(f, outputs, n);
    balance == needed || balance >= needed + MinOutputAmount(f.feePerKb)
  }

  /** No spendable output before number n - 1 was the last one needed. */
  predicate NotSooner(f: Funds, outputs: seq<Output>, n: nat)
    requires n <= |f.utxos|
  {
    forall k :: 0 < k < n && Spendable(f.env, f.utxos[k - 1]) ==> !Enough(f, outputs, k)
  }

  lemma EnoughAfter(f: Funds, outputs: seq<Output>, n: nat, inputs: seq<Input>, balance: nat, fee: nat)
    requires After(f, outputs, n, inputs, balance, fee)
    ensures Enough(f, outputs, n) <==>
              var needed := Amounts(outputs) + fee;
              balance == needed || balance >= needed + MinOutputAmount(f.feePerKb)
  {
    hide Total, FeeAfter, MinOutputAmount;
  }

  lemma StartsAfterNone(f: Funds, outputs: seq<Output>)
    ensures After(f, outputs, 0, [], 0, TxFee(f.feePerKb, SizeOf([], outputs) + TX_OUTPUT_SIZE))
  {
    hide TxFee, SizeOf;
  }

  lemma SkipOne(f: Funds, outputs: seq<Output>, n: nat, inputs: seq<Input>, balance: nat, fee: nat)
    requires After(f, outputs, n, inputs, balance, fee) && n < |f.utxos| && !Spendable(f.env, f.utxos[n])
    ensures After(f, outputs, n + 1, inputs, balance, fee)
  {
    hide RoundedFee, TxFee, SizeOf;
    OneMoreUtxo(f.env, f.utxos, n);
    assert InputsFor(f.env, f.utxos[..n + 1]) == InputsFor(f.env, f.utxos[..n]);
  }

  lemma AddOne(f: Funds, outputs: seq<Output>, n: nat, inputs: seq<Input>, balance: nat, fee: nat)
    requires After(f, outputs, n, inputs, balance, fee) && n < |f.utxos| && Spendable(f.env, f.utxos[n])
    ensures var more := inputs + [InputFor(f.utxos[n])];
            After(f, outputs, n + 1, more, balance + f.env.Amount(f.utxos[n]),
                  RoundedFee(f.feePerKb, SizeOf(more, outputs), f.balance, Amounts(outputs)))
  {
    hide RoundedFee, TxFee, SizeOf;
    OneMoreUtxo(f.env, f.utxos, n);
  }

  lemma AfterInputs(f: Funds, outputs: seq<Output>, n: nat, inputs: seq<Input>, balance: nat, fee: nat)
    requires After(f, outputs, n, inputs, balance, fee)
    ensures n <= |f.utxos| && inputs == InputsFor(f.env, f.utxos[..n])
  {
  }

  /** The outputs that some inputs spend. */
  function SpentPoints(inputs: seq<Input>): seq<Outpoint> {
    if inputs == [] then []
    else
      var last := inputs[|inputs| - 1];
      SpentPoints(inputs[..|inputs| - 1]) + [Outpoint(last.txHash, last.index)]
  }

  /** The inputs spend exactly the spendable ones of the outputs, each once, and are final and not signed. */
  lemma {:induction false} InputsSpend(env: Env, utxos: seq<Outpoint>)
    requires NoDuplicates(utxos)
    ensures var spent := SpentPoints(InputsFor(env, utxos));
            && NoDuplicates(spent) && |spent| == |InputsFor(env, utxos)|
            && forall o :: o in spent <==> o in utxos && o.hash in env.allTx && o.n < |env.allTx[o.hash].outputs|
    ensures forall i :: 0 <= i < |InputsFor(env, utxos)| ==>
                          var input := InputsFor(env, utxos)[i];
                          input.sequence == 0xffff_ffff && input.signature == Unsigned
  {
    if utxos != [] {
      var rest, last := utxos[..|utxos| - 1], utxos[|utxos| - 1];
      assert utxos == rest + [last] && last !in rest;
      InputsSpend(env, rest);
      var before, inputs := InputsFor(env, rest), InputsFor(env, utxos);
      if Spendable(env, last) {
        assert inputs[..|before|] == before;
        assert SpentPoints(inputs) == SpentPoints(before) + [last];
      } else {
        assert inputs == before;
      }
    }
  }

  lemma {:induction false} InputsAscend(env: Env, utxos: seq<Outpoint>, n: nat)
    requires n <= |utxos|
    ensures InputsFor(env, utxos[..n]) <= InputsFor(env, utxos)
    decreases |utxos| - n
  {
    if n < |utxos| {
      InputsAscend(env, utxos, n + 1);
      assert utxos[..n + 1][..n] == utxos[..n];
    } else {
      assert utxos[..n] == utxos;
    }
  }

  /** More inputs make the transaction larger. */
  lemma SizeAscends(env: Env, utxos: seq<Outpoint>, outputs: seq<Output>, n: nat)
    requires n <= |utxos|
    ensures SizeOf(InputsFor(env, utxos[..n]), outputs) <= SizeOf(InputsFor(env, utxos), outputs)
  {
    InputsAscend(env, utxos, n);
    UnsignedSizesOf(env, utxos[..n]);
    UnsignedSizesOf(env, utxos);
    hide InputsFor, InputSizes, OutputSizes;
  }

  lemma UnsignedSizesOf(env: Env, utxos: seq<Outpoint>)
    ensures InputSizes(InputsFor(env, utxos)) == TX_INPUT_SIZE * |InputsFor(env, utxos)|
  {
    InputsAreUnsigned(env, utxos);
    UnsignedSizes(InputsFor(env, utxos));
  }

  lemma RoundedIs(f: Funds, size: nat, amount: nat, fee: nat)
    requires fee == TxFee(f.feePerKb, size + TX_OUTPUT_SIZE) +
                    if f.balance > amount + TxFee(f.feePerKb, size + TX_OUTPUT_SIZE)
                    then (f.balance - (amount + TxFee(f.feePerKb, size + TX_OUTPUT_SIZE))) % 100 else 0
    ensures fee == RoundedFee(f.feePerKb, size, f.balance, amount)
  {
    hide TxFee;
  }

  /** Adds unspent outputs until they pay for the outputs and the fee, exactly or with enough for a change output. */
  method SelectInputs(f: Funds, transaction: BRTransaction, amount: nat)
    returns (oversize: bool, balance: nat, fee: nat, ghost n: nat)
    requires amount == Amounts(transaction.outputs) && transaction.inputs == []
    modifies transaction`inputs
    ensures !oversize ==> After(f, transaction.outputs, n, transaction.inputs, balance, fee)
    ensures n <= |f.utxos| && NotSooner(f, transaction.outputs, n)
    ensures !oversize && n < |f.utxos| ==> Enough(f, transaction.outputs, n) && balance >= amount + fee
    ensures oversize ==> SizeOf(InputsFor(f.env, f.utxos[..n]), transaction.outputs) + TX_OUTPUT_SIZE > TX_MAX_SIZE
    ensures oversize ==>
              SizeOf(InputsFor(f.env, f.utxos), transaction.outputs) + TX_OUTPUT_SIZE > TX_MAX_SIZE
  {
    hide RoundedFee, TxFee, SizeOf, After, InputsFor, Total, Enough, MinOutputAmount;
    var minAmount := MinOutputAmount(f.feePerKb);
    var size := ComputeSize(transaction.inputs, transaction.outputs);
    balance, fee, oversize, n := 0, TxFee(f.feePerKb, size + TX_OUTPUT_SIZE), false, 0;
    StartsAfterNone(f, transaction.outputs);
    for i := 0 to |f.utxos|
      invariant After(f, transaction.outputs, i, transaction.inputs, balance, fee) && n == i
      invariant NotSooner(f, transaction.outputs, i)
      invariant i > 0 && Spendable(f.env, f.utxos[i - 1]) ==> !Enough(f, transaction.outputs, i)
    {
      n := i + 1;
      var o := f.utxos[i];
      if !Spendable(f.env, o) {
        SkipOne(f, transaction.outputs, i, transaction.inputs, balance, fee);
        continue;
      }
      AddOne(f, transaction.outputs, i, transaction.inputs, balance, fee);
      transaction.AddInput(o.hash, o.n, TXIN_SEQUENCE);
      size := ComputeSize(transaction.inputs, transaction.outputs);
      if size + TX_OUTPUT_SIZE > TX_MAX_SIZE {
        SizeAscends(f.env, f.utxos, transaction.outputs, i + 1);
        AfterInputs(f, transaction.outputs, i + 1, transaction.inputs, balance + f.env.Amount(o),
                    RoundedFee(f.feePerKb, size, f.balance, amount));
        return true, balance, fee, n;
      }
      balance := balance + f.env.allTx[o.hash].outputs[o.n].amount;
      fee := TxFee(f.feePerKb, size + TX_OUTPUT_SIZE);
      if f.balance > amount + fee {
        fee := fee + (f.balance - (amount + fee)) % 100;
      }
      RoundedIs(f, size, amount, fee);
      EnoughAfter(f, transaction.outputs, i + 1, transaction.inputs, balance, fee);
      if balance == amount + fee || balance >= amount + fee + minAmount {
        return false, balance, fee, n;
      }
    }
  }

  /** What a successful selection has built. Spent is the total of the inputs. */
  ghost predicate Balanced(f: Funds, requested: seq<Output>, inputs: seq<Input>, outputs: seq<Output>, spent: nat,
                           fee: nat, change: nat)
  {
    var minAmount := MinOutputAmount(f.feePerKb);
    && spent == Amounts(requested) + change + fee
    && TxFee(f.feePerKb, SizeOf(inputs, requested)) <= fee
    && (change == 0 || change > minAmount)
    && Amounts(outputs) == Amounts(requested) + change
    && (VarIntSize(|requested| + 1) == VarIntSize(|requested|) ==> TxFee(f.feePerKb, SizeOf(inputs, outputs)) <= fee)
  }

  /** Builds a payment of the outputs. A change output goes to a script of 25 bytes. */
  method CreateTxForOutputs(f: Funds, outputs: seq<Output>, changeAddress: Address, rand: (nat, nat) -> nat)
    returns (r: Selection, transaction: BRTransaction, ghost fee: nat, ghost change: nat, ghost n: nat)
    requires outputs != [] && forall i: nat, n: nat :: 0 < n ==> rand(i, n) < n
    ensures fresh(transaction)
    ensures r.Selected? ==>
              && n <= |f.utxos| && transaction.inputs == InputsFor(f.env, f.utxos[..n])
              && Balanced(f, outputs, transaction.inputs, transaction.outputs, Total(f.env, f.utxos[..n]), fee, change)
              && NotSooner(f, outputs, n) && (n < |f.utxos| ==> Enough(f, outputs, n))
              && (if change == 0
                  then transaction.outputs == outputs
                       && 0 <= fee - FeeAfter(f, outputs, n) <= MinOutputAmount(f.feePerKb)
                  else fee == FeeAfter(f, outputs, n) &&
                       multiset(transaction.outputs) == multiset(outputs + [Output(changeAddress, change, 25)]))
    ensures r.Failed? ==> Total(f.env, f.utxos) < Amounts(outputs) + FeeAfter(f, outputs, |f.utxos|)
    ensures r.Oversize? ==>
              && n <= |f.utxos| && NotSooner(f, outputs, n)
              && SizeOf(InputsFor(f.env, f.utxos[..n]), outputs) + TX_OUTPUT_SIZE > TX_MAX_SIZE
              && SizeOf(InputsFor(f.env, f.utxos), outputs) + TX_OUTPUT_SIZE > TX_MAX_SIZE
  {
    hide RoundedFee, TxFee, SizeOf, InputsFor, Total, FeeAfter, MinOutputAmount, Balanced, Enough, NotSooner;
    transaction := new BRTransaction();
    var amount := 0;
    for i := 0 to |outputs|
      invariant amount == Amounts(outputs[..i]) && transaction.outputs == outputs[..i] && transaction.inputs == []
    {
      OneMoreAmount(outputs, i);
      transaction.AddOutput(outputs[i]);
      amount := amount + outputs[i].amount;
    }
    assert outputs[..|outputs|] == outputs;
    var minAmount := MinOutputAmount(f.feePerKb);
    var oversize, balance, feeAmount;
    oversize, balance, feeAmount, n := SelectInputs(f, transaction, amount);
    fee, change := 0, 0;
    if oversize {
      return Oversize, transaction, fee, change, n;
    }
    if balance < amount + feeAmount {
      assert f.utxos[..|f.utxos|] == f.utxos;
      return Failed, transaction, fee, change, n;
    }
    if balance - (amount + feeAmount) > minAmount {
      fee, change := feeAmount, balance - (amount + feeAmount);
      var output := Output(changeAddress, balance - (amount + feeAmount), 25);
      transaction.AddOutput(output);
      transaction.ShuffleOutputs(rand);
      WithChange(f, outputs, n, transaction.inputs, transaction.outputs, output, fee);
    } else {
      fee := balance - amount;
      WithoutChange(f, outputs, n, transaction.inputs, feeAmount, fee);
    }
    r := Selected;
  }

  /** The fee set covers the transaction with one more output of the usual size. */
  lemma FeeCovers(f: Funds, outputs: seq<Output>, n: nat)
    requires n <= |f.utxos|
    ensures TxFee(f.feePerKb, SizeOf(InputsFor(f.env, f.utxos[..n]), outputs) + TX_OUTPUT_SIZE)
            <= FeeAfter(f, outputs, n)
  {
    hide TxFee, SizeOf;
  }

  lemma WithChange(f: Funds, requested: seq<Output>, n: nat, inputs: seq<Input>, outputs: seq<Output>, output: Output,
                   fee: nat)
    requires n <= |f.utxos| && inputs == InputsFor(f.env, f.utxos[..n]) && fee == FeeAfter(f, requested, n)
    requires Total(f.env, f.utxos[..n]) == Amounts(requested) + output.amount + fee
    requires output.amount > MinOutputAmount(f.feePerKb) && output.scriptLen == 25
    requires multiset(outputs) == multiset(requested + [output])
    ensures Balanced(f, requested, inputs, outputs, Total(f.env, f.utxos[..n]), fee, output.amount)
  {
    hide TxFee, InputsFor, Total, FeeAfter, MinOutputAmount, OutputSizes, InputSizes;
    FeeCovers(f, requested, n);
    FeeAscends(f.feePerKb, SizeOf(inputs, requested), SizeOf(inputs, requested) + TX_OUTPUT_SIZE);
    Permuted(outputs, requested + [output]);
    OneMoreOutput(requested, output);
    assert OutputSize(output) == TX_OUTPUT_SIZE;
  }

  lemma WithoutChange(f: Funds, requested: seq<Output>, n: nat, inputs: seq<Input>, feeAmount: nat, fee: nat)
    requires n <= |f.utxos| && inputs == InputsFor(f.env, f.utxos[..n]) && feeAmount == FeeAfter(f, requested, n)
    requires Total(f.env, f.utxos[..n]) == Amounts(requested) + fee && feeAmount <= fee
    ensures Balanced(f, requested, inputs, requested, Total(f.env, f.utxos[..n]), fee, 0)
  {
    hide TxFee, InputsFor, Total, FeeAfter, MinOutputAmount, SizeOf;
    FeeCovers(f, requested, n);
    FeeAscends(f.feePerKb, SizeOf(inputs, requested), SizeOf(inputs, requested) + TX_OUTPUT_SIZE);
  }

  //////////////////////////////// The largest payment ////////////////////////////////

  /** The size of a transaction that spends everything to one output and change. */
  function SizeOfAll(inCount: nat): nat {
    8 + VarIntSize(inCount) + TX_INPUT_SIZE * inCount + VarIntSize(2) + TX_OUTPUT_SIZE * 2
  }

  /** It is the size of a transaction with so many unsigned inputs and two outputs with scripts of 25 bytes. */
  lemma SizeOfAllIs(inputs: seq<Input>, a: Output, b: Output)
    requires (forall i :: 0 <= i < |inputs| ==> inputs[i].signature == Unsigned) && a.scriptLen == b.scriptLen == 25
    ensures SizeOfAll(|inputs|) == SizeOf(inputs, [a, b])
  {
    UnsignedSizes(inputs);
    OneMoreOutput([], a);
    OneMoreOutput([a], b);
    assert [] + [a] == [a] && [a] + [b] == [a, b];
  }

  /** The largest amount leaves exactly the fee of a transaction that spends everything, if there is more than that. */
  lemma MaximumIs(f: Funds, a: Output, b: Output)
    requires a.scriptLen == b.scriptLen == 25
    ensures var fee := TxFee(f.feePerKb, SizeOf(InputsFor(f.env, f.utxos), [a, b]));
            MaxAmount(f) == if Total(f.env, f.utxos) <= fee then 0 else Total(f.env, f.utxos) - fee
  {
    InputsAreUnsigned(f.env, f.utxos);
    SizeOfAllIs(InputsFor(f.env, f.utxos), a, b);
    hide TxFee, Total, InputsFor, SizeOf, SizeOfAll;
  }

  function MaxAmount(f: Funds): nat {
    var amount, fee := Total(f.env, f.utxos), TxFee(f.feePerKb, SizeOfAll(|InputsFor(f.env, f.utxos)|));
    if amount > fee then amount - fee else 0
  }

  lemma {:induction false} JoinUtxos(env: Env, a: seq<Outpoint>, b: seq<Outpoint>)
    ensures |InputsFor(env, a + b)| == |InputsFor(env, a)| + |InputsFor(env, b)|
    ensures Total(env, a + b) == Total(env, a) + Total(env, b)
  {
    if b == [] {
      assert a + b == a;
    } else {
      assert (a + b)[..|a + b| - 1] == a + b[..|b| - 1];
      JoinUtxos(env, a, b[..|b| - 1]);
    }
  }

  lemma OneUtxo(env: Env, o: Outpoint)
    ensures |InputsFor(env, [o])| == if Spendable(env, o) then 1 else 0
    ensures Total(env, [o]) == env.Amount(o)
  {
    OneMoreUtxo(env, [o], 0);
    assert [o][..1] == [o] && [o][..0] == [];
  }

  /** The most that can be sent to one address. */
  method MaxOutputAmount(f: Funds) returns (r: nat)
    ensures r == MaxAmount(f)
  {
    hide InputsFor, Total, TxFee;
    var amount, inCount := 0, 0;
    var i := |f.utxos|;
    assert f.utxos[i..] == [];
    NoUtxos(f.env);
    while i > 0
      invariant 0 <= i <= |f.utxos|
      invariant inCount == |InputsFor(f.env, f.utxos[i..])| && amount == Total(f.env, f.utxos[i..])
    {
      var o := f.utxos[i - 1];
      assert f.utxos[i - 1..] == [o] + f.utxos[i..];
      JoinUtxos(f.env, [o], f.utxos[i..]);
      OneUtxo(f.env, o);
      OneMoreUtxo(f.env, f.utxos, i - 1);
      i := i - 1;
      if !Spendable(f.env, o) {
        continue;
      }
      inCount := inCount + 1;
      amount := amount + f.env.allTx[o.hash].outputs[o.n].amount;
    }
    assert f.utxos[0..] == f.utxos;
    var txSize := 8 + VarIntSize(inCount) + TX_INPUT_SIZE * inCount + VarIntSize(2) + TX_OUTPUT_SIZE * 2;
    var fee := TxFee(f.feePerKb, txSize);
    r := if amount > fee then amount - fee else 0;
  }

  lemma NoUtxos(env: Env)
    ensures InputsFor(env, []) == [] && Total(env, []) == 0
  {
  }

  /** Everything together pays for the largest amount and its fee, the rounding of the fee included. */
  lemma MaximumIsPayable(f: Funds, o: Output)
    requires o.amount == MaxAmount(f) > 0 && o.scriptLen <= 25 && f.balance == Total(f.env, f.utxos)
    ensures Amounts([o]) + FeeAfter(f, [o], |f.utxos|) <= Total(f.env, f.utxos)
  {
    hide TxFee, Total, InputsFor;
    var inputs := InputsFor(f.env, f.utxos);
    assert f.utxos[..|f.utxos|] == f.utxos;
    UnsignedSizesOf(f.env, f.utxos);
    OneMoreOutput([], o);
    assert [] + [o] == [o];
    var size := SizeOf(inputs, [o]);
    assert OutputSize(o) <= TX_OUTPUT_SIZE;
    assert size + TX_OUTPUT_SIZE <= SizeOfAll(|inputs|);
    FeeAscends(f.feePerKb, size + TX_OUTPUT_SIZE, SizeOfAll(|inputs|));
    if inputs == [] {
      NothingToSpend(f.env, f.utxos);
    }
  }

  lemma {:induction false} NothingToSpend(env: Env, utxos: seq<Outpoint>)
    ensures InputsFor(env, utxos) == [] ==> Total(env, utxos) == 0
  {
    if utxos != [] {
      NothingToSpend(env, utxos[..|utxos| - 1]);
      OneMoreUtxo(env, utxos, |utxos| - 1);
      assert utxos[..|utxos| - 1 + 1] == utxos;
    }
  }

  /** Whether a transaction of all the inputs to one output and change is within the size limit. */
  predicate FitsWithAll(f: Funds, o: Output) {
    SizeOf(InputsFor(f.env, f.utxos), [o]) + TX_OUTPUT_SIZE <= TX_MAX_SIZE
  }

  /** Paying the largest amount to a usual script never fails for lack of funds; and it succeeds if a transaction with
      all the inputs is not too large. */
  method PayMaximum(f: Funds, address: Address, scriptLen: nat, changeAddress: Address, rand: (nat, nat) -> nat)
    returns (max: nat, r: Selection)
    requires scriptLen <= 25 && f.balance == Total(f.env, f.utxos)
    requires forall i: nat, n: nat :: 0 < n ==> rand(i, n) < n
    ensures max == MaxAmount(f)
    ensures max > 0 ==> !r.Failed?
    ensures max > 0 && FitsWithAll(f, Output(address, max, scriptLen)) ==> r.Selected?
  {
    hide TxFee, Total, InputsFor, FeeAfter, SizeOf, Amounts, Balanced, MaxAmount;
    max := MaxOutputAmount(f);
    r := Failed;
    if max > 0 {
      var o := Output(address, max, scriptLen);
      MaximumIsPayable(f, o);
      var transaction;
      ghost var fee, change, n;
      r, transaction, fee, change, n := CreateTxForOutputs(f, [o], changeAddress, rand);
    }
  }
}
