/** How a transaction is written out in bytes, and what its estimated size has to do with it. */
module Serialisation {
  import opened Options
  import opened Transaction
  import opened Bytes

  /** The n little-endian bytes of a number. */
  function LE(x: nat, n: nat): (s: seq<nat>)
    ensures |s| == n && AllBytes(s)
  {
    if n == 0 then [] else [x % 256] + LE(x / 256, n - 1)
  }

  lemma {:induction false} LEIsNum(x: nat, n: nat)
    requires x < Pow256(n)
    ensures Num(LE(x, n)) == x
  {
    if n > 0 {
      LEIsNum(x / 256, n - 1);
      assert LE(x, n)[1..] == LE(x / 256, n - 1);
    }
  }

  /** A number of up to 64 bits with a header that tells how long it is. */
  function VarInt(i: nat): (s: seq<nat>)
    ensures |s| == VarIntSize(i)
  {
    if i < 0xfd then [i]
    else if i <= 0xffff then [0xfd] + LE(i, 2)
    else if i <= 0xffff_ffff then [0xfe] + LE(i, 4)
    else [0xff] + LE(i, 8)
  }

  /** Reading such a number: it and its length. */
  function ReadVarInt(s: seq<nat>): Option<(nat, nat)> {
    if s == [] then None
    else
      var n := if s[0] == 0xfd then 2 else if s[0] == 0xfe then 4 else if s[0] == 0xff then 8 else 0;
      if |s| < n + 1 then None
      else Some((if n == 0 then s[0] else Num(s[1..n + 1]), n + 1))
  }

  /** What is written is read back, whatever follows it. */
  lemma ReadWritten(i: nat, rest: seq<nat>)
    requires i < 0x1_0000_0000_0000_0000
    ensures ReadVarInt(VarInt(i) + rest) == Some((i, VarIntSize(i)))
  {
    assert Pow256(0) == 1 && Pow256(1) == 256 && Pow256(2) == 0x1_0000 && Pow256(3) == 0x100_0000;
    assert Pow256(4) == 0x1_0000_0000 && Pow256(5) == 0x100_0000_0000 && Pow256(6) == 0x1_0000_0000_0000;
    assert Pow256(7) == 0x100_0000_0000_0000 && Pow256(8) == 0x1_0000_0000_0000_0000;
    var n := if i < 0xfd then 0 else if i <= 0xffff then 2 else if i <= 0xffff_ffff then 4 else 8;
    if n > 0 {
      LEIsNum(i, n);
      assert (VarInt(i) + rest)[1..n + 1] == LE(i, n);
    }
    hide Pow256, LE, Num;
  }

  /** An input with its signature script. */
  function InputBytes(input: Input, script: seq<nat>): seq<nat> {
    LE(input.txHash, 32) + LE(input.index, 4) + VarInt(|script|) + script + LE(input.sequence, 4)
  }

  function OutputBytes(output: Output, script: seq<nat>): seq<nat> {
    LE(output.amount, 8) + VarInt(|script|) + script
  }

  /** The scripts that go with some inputs, or with some outputs. */
  predicate Sign(inputs: seq<Input>, scripts: seq<seq<nat>>) {
    |scripts| == |inputs| && forall i :: 0 <= i < |inputs| ==> inputs[i].signature == Signed(|scripts[i]|)
  }

  predicate Lock(outputs: seq<Output>, scripts: seq<seq<nat>>) {
    |scripts| == |outputs| && forall i :: 0 <= i < |outputs| ==> outputs[i].scriptLen == |scripts[i]|
  }

  function AllInputs(inputs: seq<Input>, scripts: seq<seq<nat>>): seq<nat>
    requires |scripts| == |inputs|
  {
    if inputs == [] then []
    else
      var last := |inputs| - 1;
      AllInputs(inputs[..last], scripts[..last]) + InputBytes(inputs[last], scripts[last])
  }

  function AllOutputs(outputs: seq<Output>, scripts: seq<seq<nat>>): seq<nat>
    requires |scripts| == |outputs|
  {
    if outputs == [] then []
    else
      var last := |outputs| - 1;
      AllOutputs(outputs[..last], scripts[..last]) + OutputBytes(outputs[last], scripts[last])
  }

  /** A transaction in bytes. */
  function Serialised(version: nat, tx: Tx, signatures: seq<seq<nat>>, locks: seq<seq<nat>>): seq<nat>
    requires |signatures| == |tx.inputs| && |locks| == |tx.outputs|
  {
    LE(version, 4) + VarInt(|tx.inputs|) + AllInputs(tx.inputs, signatures) +
    VarInt(|tx.outputs|) + AllOutputs(tx.outputs, locks) + LE(tx.lockTime, 4)
  }

  lemma {:induction false} InputsLength(inputs: seq<Input>, scripts: seq<seq<nat>>)
    requires Sign(inputs, scripts)
    ensures |AllInputs(inputs, scripts)| == InputSizes(inputs)
  {
    if inputs != [] {
      var last := |inputs| - 1;
      InputsLength(inputs[..last], scripts[..last]);
      assert inputs[last].signature == Signed(|scripts[last]|);
    }
  }

  lemma {:induction false} OutputsLength(outputs: seq<Output>, scripts: seq<seq<nat>>)
    requires Lock(outputs, scripts)
    ensures |AllOutputs(outputs, scripts)| == OutputSizes(outputs)
  {
    if outputs != [] {
      var last := |outputs| - 1;
      OutputsLength(outputs[..last], scripts[..last]);
    }
  }

  /** The size of a signed transaction is the length of its bytes. */
  lemma SizeIsLength(version: nat, tx: Tx, signatures: seq<seq<nat>>, locks: seq<seq<nat>>)
    requires Sign(tx.inputs, signatures) && Lock(tx.outputs, locks)
    ensures |Serialised(version, tx, signatures, locks)| == Size(tx)
  {
    InputsLength(tx.inputs, signatures);
    OutputsLength(tx.outputs, locks);
    hide AllInputs, AllOutputs, InputSizes, OutputSizes, Sign, Lock;
  }

  /** An input that is not signed counts as one with a signature script of 107 bytes. */
  lemma UnsignedIsTypical(input: Input)
    ensures InputSize(input.(signature := Unsigned)) == InputSize(input.(signature := Signed(107)))
  {
  }
}
