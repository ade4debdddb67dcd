/** Transactions as the wallet reads them, and the size estimate every fee is based on. */
module Transaction {

  type Hash = nat
  type Address = string

  const TX_FEE_PER_KB: nat := 1000
  const TX_OUTPUT_SIZE: nat := 34
  const TX_INPUT_SIZE: nat := 148
  const TX_MIN_OUTPUT_AMOUNT: nat := TX_FEE_PER_KB * 3 * (TX_OUTPUT_SIZE + TX_INPUT_SIZE) / 1000
  const TX_MAX_SIZE: nat := 100000
  const TX_UNCONFIRMED: nat := 0x7fff_ffff
  const TX_MAX_LOCK_HEIGHT: nat := 500000000
  const SEQUENCE_FINAL: nat := 0xffff_ffff

  datatype SigLen = Unsigned | Signed(len: nat)

  /** An input spends output number index of the transaction txHash. */
  datatype Input = Input(txHash: Hash, index: nat, sequence: nat, signature: SigLen)

  /** The address is empty when the script has none. */
  datatype Output = Output(address: Address, amount: nat, scriptLen: nat)

  datatype Tx = Tx(hash: Hash, inputs: seq<Input>, outputs: seq<Output>, lockTime: nat,
                   blockHeight: nat, timestamp: nat)
  {
    predicate Unconfirmed() {
      blockHeight == TX_UNCONFIRMED
    }

    predicate IsSigned() {
      forall i :: 0 <= i < |inputs| ==> inputs[i].signature.Signed?
    }
  }

  function VarIntSize(i: nat): (n: nat)
    ensures 1 <= n <= 9
  {
    if i < 0xfd then 1 else if i <= 0xffff then 3 else if i <= 0xffff_ffff then 5 else 9
  }

  function InputSize(input: Input): nat {
    match input.signature
    case Unsigned => TX_INPUT_SIZE
    case Signed(len) => 32 + 4 + VarIntSize(len) + len + 4
  }

  function OutputSize(output: Output): nat {
    8 + VarIntSize(output.scriptLen) + output.scriptLen
  }

  function InputSizes(inputs: seq<Input>): nat {
    if inputs == [] then 0 else InputSizes(inputs[..|inputs| - 1]) + InputSize(inputs[|inputs| - 1])
  }

  function OutputSizes(outputs: seq<Output>): nat {
    if outputs == [] then 0 else OutputSizes(outputs[..|outputs| - 1]) + OutputSize(outputs[|outputs| - 1])
  }

  /** The size in bytes of a transaction with these parts, an unsigned input counting as a typical signed one. */
  function SizeOf(inputs: seq<Input>, outputs: seq<Output>): nat {
    8 + VarIntSize(|inputs|) + VarIntSize(|outputs|) + InputSizes(inputs) + OutputSizes(outputs)
  }

  function Size(tx: Tx): nat {
    SizeOf(tx.inputs, tx.outputs)
  }

  method ComputeSize(inputs: seq<Input>, outputs: seq<Output>) returns (size: nat)
    ensures size == SizeOf(inputs, outputs)
  {
    size := 8 + VarIntSize(|inputs|) + VarIntSize(|outputs|);
    ghost var head := size;
    for i := 0 to |inputs|
      invariant size == head + InputSizes(inputs[..i])
    {
      assert inputs[..i + 1][..i] == inputs[..i];
      size := size + InputSize(inputs[i]);
    }
    assert inputs[..|inputs|] == inputs;
    for i := 0 to |outputs|
      invariant size == head + InputSizes(inputs) + OutputSizes(outputs[..i])
    {
      assert outputs[..i + 1][..i] == outputs[..i];
      size := size + OutputSize(outputs[i]);
    }
    assert outputs[..|outputs|] == outputs;
  }
}
