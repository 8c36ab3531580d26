/** The serializing loops of `tx/codec.py`, which build the bytes piece by piece. */
module Printer {
  import opened Bytes
  import opened Transactions

  lemma {:induction false} PrintManyAppend<T>(print1: T -> bytes, xs: seq<T>, x: T)
    ensures PrintMany(print1, xs + [x]) == PrintMany(print1, xs) + print1(x)
  {
    if xs == [] {
      assert [x][1..] == [] && print1(x) + [] == print1(x);
    } else {
      assert (xs + [x])[1..] == xs[1..] + [x];
      PrintManyAppend(print1, xs[1..], x);
    }
  }

  method PrintInputs(inputs: seq<TxInput>) returns (out: bytes)
    ensures out == CompactSize(|inputs|) + PrintMany(PrintInput, inputs)
  {
    hide CompactSize, PrintInput, PrintMany;
    out := CompactSize(|inputs|);
    NothingPrinted(PrintInput, out);
    for i := 0 to |inputs|
      invariant out == CompactSize(|inputs|) + PrintMany(PrintInput, inputs[..i])
    {
      out := out + PrintInput(inputs[i]);
      assert inputs[..i + 1] == inputs[..i] + [inputs[i]];
      PrintManyAppend(PrintInput, inputs[..i], inputs[i]);
    }
    assert inputs[..|inputs|] == inputs;
  }

  lemma NothingPrinted<T>(print1: T -> bytes, out: bytes)
    ensures out + PrintMany(print1, []) == out
  {
  }

  method PrintOutputs(outputs: seq<TxOutput>) returns (out: bytes)
    ensures out == CompactSize(|outputs|) + PrintMany(PrintOutput, outputs)
  {
    hide CompactSize, PrintOutput, PrintMany;
    out := CompactSize(|outputs|);
    NothingPrinted(PrintOutput, out);
    for i := 0 to |outputs|
      invariant out == CompactSize(|outputs|) + PrintMany(PrintOutput, outputs[..i])
    {
      out := out + PrintOutput(outputs[i]);
      assert outputs[..i + 1] == outputs[..i] + [outputs[i]];
      PrintManyAppend(PrintOutput, outputs[..i], outputs[i]);
    }
    assert outputs[..|outputs|] == outputs;
  }

  method PrintWitnesses(inputs: seq<TxInput>) returns (out: bytes)
    ensures out == PrintMany(PrintStack, Stacks(inputs))
  {
    hide PrintStack, PrintMany;
    out := [];
    NothingPrinted(PrintStack, out);
    assert Stacks(inputs)[..0] == [] && [] + PrintMany(PrintStack, []) == PrintMany(PrintStack, []);
    for i := 0 to |inputs|
      invariant out == PrintMany(PrintStack, Stacks(inputs)[..i])
    {
      out := out + PrintStack(inputs[i].stack);
      assert Stacks(inputs)[..i + 1] == Stacks(inputs)[..i] + [inputs[i].stack];
      PrintManyAppend(PrintStack, Stacks(inputs)[..i], inputs[i].stack);
    }
    assert Stacks(inputs)[..|inputs|] == Stacks(inputs);
  }

  /** `serialize_transaction`. */
  method SerializeTransaction(t: Transaction, includeWitness: bool) returns (raw: bytes)
    requires WfHeader(t.version, t.locktime)
    ensures raw == Print(t, includeWitness)
  {
    hide CompactSize, PrintMany, LE, LEInt32, Stacks;
    var useWitness := includeWitness && HasWitness(t.inputs);
    var inputs := PrintInputs(t.inputs);
    var outputs := PrintOutputs(t.outputs);
    assert inputs + outputs == PrintBody(t.inputs, t.outputs);
    raw := LEInt32(t.version);
    if useWitness {
      raw := raw + MARKER;
    }
    raw := raw + inputs + outputs;
    if useWitness {
      var witnesses := PrintWitnesses(t.inputs);
      raw := raw + witnesses;
    }
    raw := raw + LE(t.locktime, 4);
  }
}
