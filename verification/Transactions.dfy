/** The transaction model both wallets share, and the bytes it prints to (BIP 144, "Serialization"). */
module Transactions {
  import opened Bytes

  /** `txid` is the 32-byte id in display order; `witness` is the item stack. */
  datatype TxInput = TxInput(txid: bytes, vout: nat, sequence: nat, scriptSig: bytes, stack: seq<bytes>)

  datatype TxOutput = TxOutput(value: nat, script: bytes)

  datatype Transaction = Transaction(version: int, inputs: seq<TxInput>, outputs: seq<TxOutput>, locktime: nat)

  datatype Outpoint = Outpoint(txid: bytes, vout: nat)

  function OutpointOf(i: TxInput): Outpoint {
    Outpoint(i.txid, i.vout)
  }

  /** The supply limit, in satoshis, that the single-key wallet applies to every amount. */
  const MAX_MONEY: nat := 21_000_000 * 100_000_000

  function OutputTotal(outputs: seq<TxOutput>): nat {
    if outputs == [] then 0 else outputs[0].value + OutputTotal(outputs[1..])
  }

  /** No two inputs spend the same outpoint. */
  predicate DistinctOutpoints(inputs: seq<TxInput>) {
    forall i, j :: 0 <= i < j < |inputs| ==> OutpointOf(inputs[i]) != OutpointOf(inputs[j])
  }

  predicate WfInput(i: TxInput) {
    && |i.txid| == 32 && i.vout <= U32_MAX && i.sequence <= U32_MAX
    && |i.scriptSig| <= U64_MAX && WfStack(i.stack)
  }

  predicate WfStack(items: seq<bytes>) {
    |items| <= U64_MAX && forall k :: 0 <= k < |items| ==> |items[k]| <= U64_MAX
  }

  predicate WfOutput(o: TxOutput) {
    o.value <= U64_MAX && |o.script| <= U64_MAX
  }

  predicate WfHeader(version: int, locktime: nat) {
    -0x8000_0000 <= version < 0x8000_0000 && locktime <= U32_MAX
  }

  /** What the constructors of the model classes check, and that every length fits a CompactSize. */
  predicate WfTx(t: Transaction) {
    && WfHeader(t.version, t.locktime)
    && |t.inputs| <= U64_MAX && |t.outputs| <= U64_MAX
    && (forall k :: 0 <= k < |t.inputs| ==> WfInput(t.inputs[k]))
    && (forall k :: 0 <= k < |t.outputs| ==> WfOutput(t.outputs[k]))
    && DistinctOutpoints(t.inputs)
  }

  predicate HasWitness(inputs: seq<TxInput>) {
    exists k :: 0 <= k < |inputs| && inputs[k].stack != []
  }

  /** The shortest prefix-coded form; the source refuses values above 64 bits. */
  function CompactSize(n: nat): (s: bytes)
    ensures 1 <= |s| <= 9
  {
    if n < 253 then [n]
    else if n <= U16_MAX then [253] + LE(n, 2)
    else if n <= U32_MAX then [254] + LE(n, 4)
    else [255] + LE(n, 8)
  }

  function VarBytes(s: bytes): bytes {
    CompactSize(|s|) + s
  }

  function PrintMany<T>(print1: T -> bytes, xs: seq<T>): bytes {
    if xs == [] then [] else print1(xs[0]) + PrintMany(print1, xs[1..])
  }

  function PrintOutpoint(i: TxInput): (s: bytes) {
    Reverse(i.txid) + LE(i.vout, 4)
  }

  function PrintInput(i: TxInput): bytes {
    PrintOutpoint(i) + VarBytes(i.scriptSig) + LE(i.sequence, 4)
  }

  function PrintOutput(o: TxOutput): bytes {
    LE(o.value, 8) + VarBytes(o.script)
  }

  function PrintStack(items: seq<bytes>): bytes {
    CompactSize(|items|) + PrintMany(VarBytes, items)
  }

  function Stacks(inputs: seq<TxInput>): (r: seq<seq<bytes>>)
    ensures |r| == |inputs|
  {
    seq(|inputs|, k requires 0 <= k < |inputs| => inputs[k].stack)
  }

  /** Marker and flag of a SegWit serialization. */
  const MARKER: bytes := [0, 1]

  function PrintBody(inputs: seq<TxInput>, outputs: seq<TxOutput>): bytes {
    CompactSize(|inputs|) + PrintMany(PrintInput, inputs) + (CompactSize(|outputs|) + PrintMany(PrintOutput, outputs))
  }

  function Print(t: Transaction, includeWitness: bool): bytes
    requires WfHeader(t.version, t.locktime)
  {
    if includeWitness && HasWitness(t.inputs) then
      LEInt32(t.version) + (MARKER + (PrintBody(t.inputs, t.outputs) + (PrintMany(PrintStack, Stacks(t.inputs)) + LE(t.locktime, 4))))
    else
      LEInt32(t.version) + (PrintBody(t.inputs, t.outputs) + LE(t.locktime, 4))
  }

  /** The same input without its witness, as the reader first builds it. */
  function Bare(i: TxInput): TxInput {
    i.(stack := [])
  }

  function BareInputs(inputs: seq<TxInput>): (r: seq<TxInput>)
    ensures |r| == |inputs|
    ensures forall k :: 0 <= k < |inputs| ==> r[k] == Bare(inputs[k])
  {
    seq(|inputs|, k requires 0 <= k < |inputs| => Bare(inputs[k]))
  }

  lemma {:induction false} PrintBareInputs(inputs: seq<TxInput>)
    ensures PrintMany(PrintInput, BareInputs(inputs)) == PrintMany(PrintInput, inputs)
  {
    if inputs != [] {
      assert BareInputs(inputs)[1..] == BareInputs(inputs[1..]);
      PrintBareInputs(inputs[1..]);
    }
  }

  lemma CompactSizeFirst(n: nat)
    ensures n == 0 <==> CompactSize(n)[0] == 0
    ensures n == 1 <==> CompactSize(n)[0] == 1
  {
  }

  /** A zero count byte on a transaction with inputs can only be the marker. */
  lemma ZeroByteIsMarker(t: Transaction)
    requires WfHeader(t.version, t.locktime) && t.inputs != [] && Print(t, true)[4] == 0
    ensures HasWitness(t.inputs)
  {
    hide LE, LEInt32, PrintMany;
    CompactSizeFirst(|t.inputs|);
  }
}
