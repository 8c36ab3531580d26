/** `tx/codec.py`: the reader of the HD wallet, and that it and the printer undo each other. */
module Codec {
  import opened Wrappers
  import opened Bytes
  import opened Transactions

  /** Why a reading fails; the last five are the single-key decoder's own. */
  datatype CodecError =
    | Truncated
    | NonCanonicalSize
    | InvalidSegwitFlag
    | UnsupportedFlag
    | SuperfluousMarker
    | TrailingBytes
    | DuplicateInputs
    | InvalidEncoding
    | InvalidCompactSize
    | NoInputs
    | OutOfRange
    | NonCanonicalTransaction

  /** What a reader returns: the value and the bytes it left unread. */
  datatype Parsed<+T> = Parsed(value: T, rest: bytes)

  type Reading<+T> = Result<Parsed<T>, CodecError>

  // ----- The reading functions, as specifications over the unread bytes -----

  function Take(data: bytes, n: nat): Reading<bytes> {
    if |data| < n then Err(Truncated) else Ok(Parsed(data[..n], data[n..]))
  }

  function ReadLE(data: bytes, n: nat): Reading<nat> {
    var t :- Take(data, n);
    Ok(Parsed(FromLE(t.value), t.rest))
  }

  function ReadSizeAbove(data: bytes, width: nat, minimum: nat): Reading<nat> {
    var t :- ReadLE(data, width);
    if t.value < minimum then Err(NonCanonicalSize) else Ok(t)
  }

  function ReadCompactSize(data: bytes): Reading<nat> {
    var p :- Take(data, 1);
    if p.value[0] < 253 then Ok(Parsed(p.value[0], p.rest))
    else if p.value[0] == 253 then ReadSizeAbove(p.rest, 2, 253)
    else if p.value[0] == 254 then ReadSizeAbove(p.rest, 4, U16_MAX + 1)
    else ReadSizeAbove(p.rest, 8, U32_MAX + 1)
  }

  function ReadVarBytes(data: bytes): Reading<bytes> {
    var n :- ReadCompactSize(data);
    Take(n.rest, n.value)
  }

  function ReadMany<T>(read1: bytes -> Reading<T>, data: bytes, count: nat): Reading<seq<T>>
    decreases count
  {
    if count == 0 then Ok(Parsed([], data)) else
    var x :- read1(data);
    var xs :- ReadMany(read1, x.rest, count - 1);
    Ok(Parsed([x.value] + xs.value, xs.rest))
  }

  function ReadInput(data: bytes): Reading<TxInput> {
    var txid :- Take(data, 32);
    var vout :- ReadLE(txid.rest, 4);
    var script :- ReadVarBytes(vout.rest);
    var sequence :- ReadLE(script.rest, 4);
    Ok(Parsed(TxInput(Reverse(txid.value), vout.value, sequence.value, script.value, []), sequence.rest))
  }

  function ReadOutput(data: bytes): Reading<TxOutput> {
    var value :- ReadLE(data, 8);
    var script :- ReadVarBytes(value.rest);
    Ok(Parsed(TxOutput(value.value, script.value), script.rest))
  }

  function ReadStack(data: bytes): Reading<seq<bytes>> {
    var n :- ReadCompactSize(data);
    ReadMany(ReadVarBytes, n.rest, n.value)
  }

  function WithStacks(inputs: seq<TxInput>, stacks: seq<seq<bytes>>): (r: seq<TxInput>)
    requires |inputs| == |stacks|
    ensures |r| == |inputs|
  {
    seq(|inputs|, k requires 0 <= k < |inputs| => inputs[k].(stack := stacks[k]))
  }

  predicate AllEmpty(stacks: seq<seq<bytes>>) {
    forall k :: 0 <= k < |stacks| ==> stacks[k] == []
  }

  function Finish(version: int, inputs: seq<TxInput>, outputs: seq<TxOutput>, data: bytes): Result<Transaction, CodecError> {
    var lock :- ReadLE(data, 4);
    if lock.rest != [] then Err(TrailingBytes)
    else if !DistinctOutpoints(inputs) then Err(DuplicateInputs)
    else Ok(Transaction(version, inputs, outputs, lock.value))
  }

  function ParseBody(version: int, data: bytes, inputCount: nat, segwit: bool): Result<Transaction, CodecError> {
    var ins :- ReadMany(ReadInput, data, inputCount);
    var outCount :- ReadCompactSize(ins.rest);
    var outs :- ReadMany(ReadOutput, outCount.rest, outCount.value);
    if segwit then
      var stacks :- ReadMany(ReadStack, outs.rest, inputCount);
      ReadManyLength(ReadInput, data, inputCount);
      ReadManyLength(ReadStack, outs.rest, inputCount);
      if AllEmpty(stacks.value) then Err(SuperfluousMarker)
      else Finish(version, WithStacks(ins.value, stacks.value), outs.value, stacks.rest)
    else Finish(version, ins.value, outs.value, outs.rest)
  }

  /** The input count, and whether a SegWit marker and flag stood before it. */
  datatype Layout = Layout(count: nat, segwit: bool)

  function ReadLayout(data: bytes, forceLegacy: bool): Reading<Layout> {
    var count :- ReadCompactSize(data);
    if !forceLegacy && count.value == 0 && count.rest != [] then
      var flag :- Take(count.rest, 1);
      if flag.value[0] == 0 then Err(InvalidSegwitFlag)
      else if flag.value[0] != 1 then Err(UnsupportedFlag)
      else
        var inputCount :- ReadCompactSize(flag.rest);
        Ok(Parsed(Layout(inputCount.value, true), inputCount.rest))
    else Ok(Parsed(Layout(count.value, false), count.rest))
  }

  /** `_deserialize`. */
  function ParseAs(data: bytes, forceLegacy: bool): Result<Transaction, CodecError> {
    var head :- Take(data, 4);
    var layout :- ReadLayout(head.rest, forceLegacy);
    ParseBody(FromLEInt32(head.value), layout.rest, layout.value.count, layout.value.segwit)
  }

  /** `deserialize_transaction`: a failed reading with a zero count byte is retried as a template. */
  function Parse(data: bytes): Result<Transaction, CodecError> {
    var first := ParseAs(data, false);
    if first.Err? && 6 <= |data| && data[4] == 0 then
      var second := ParseAs(data, true);
      if second.Ok? then second else first
    else first
  }

  lemma {:induction false} ReadManyLength<T>(read1: bytes -> Reading<T>, data: bytes, count: nat)
    ensures ReadMany(read1, data, count).Ok? ==> |ReadMany(read1, data, count).value.value| == count
    decreases count
  {
    if count > 0 && read1(data).Ok? {
      ReadManyLength(read1, read1(data).value.rest, count - 1);
    }
  }

  // ----- Printing then reading -----

  lemma TakeFirst(s: bytes, rest: bytes)
    ensures Take(s + rest, |s|) == Ok(Parsed(s, rest))
  {
  }

  lemma ReadLEOfLE(n: nat, k: nat, rest: bytes)
    requires n < Pow256(k)
    ensures ReadLE(LE(n, k) + rest, k) == Ok(Parsed(n, rest))
  {
    TakeFirst(LE(n, k), rest);
    FromLEOfLE(n, k);
  }

  lemma ReadCompactSizeOfPrint(n: nat, rest: bytes)
    requires n <= U64_MAX
    ensures ReadCompactSize(CompactSize(n) + rest) == Ok(Parsed(n, rest))
  {
    PowConstants();
    var width := |CompactSize(n)| - 1;
    var s := CompactSize(n)[1..];
    assert (CompactSize(n) + rest)[1..] == s + rest;
    if n >= 253 {
      assert s == LE(n, width);
      ReadLEOfLE(n, width, rest);
    }
  }

  lemma ReadVarBytesOfPrint(s: bytes, rest: bytes)
    requires |s| <= U64_MAX
    ensures ReadVarBytes(VarBytes(s) + rest) == Ok(Parsed(s, rest))
  {
    assert VarBytes(s) + rest == CompactSize(|s|) + (s + rest);
    ReadCompactSizeOfPrint(|s|, s + rest);
    TakeFirst(s, rest);
  }

  /** A reader that inverts a printer item by item inverts it on whole lists. */
  lemma {:induction false} ReadManyOfPrint<T>(print1: T -> bytes, read1: bytes -> Reading<T>, xs: seq<T>, rest: bytes)
    requires forall k, r :: 0 <= k < |xs| ==> read1(print1(xs[k]) + r) == Ok(Parsed(xs[k], r))
    ensures ReadMany(read1, PrintMany(print1, xs) + rest, |xs|) == Ok(Parsed(xs, rest))
  {
    if xs != [] {
      var tail := PrintMany(print1, xs[1..]) + rest;
      assert PrintMany(print1, xs) + rest == print1(xs[0]) + tail;
      var data := PrintMany(print1, xs) + rest;
      assert read1(data) == Ok(Parsed(xs[0], tail));
      ReadManyOfPrint(print1, read1, xs[1..], rest);
      assert [xs[0]] + xs[1..] == xs;
    } else {
      assert PrintMany(print1, xs) + rest == rest;
    }
  }

  lemma ReadInputOfPrint(i: TxInput, rest: bytes)
    requires WfInput(i)
    ensures ReadInput(PrintInput(i) + rest) == Ok(Parsed(Bare(i), rest))
  {
    PowConstants();
    var r3 := LE(i.sequence, 4) + rest;
    var r2 := VarBytes(i.scriptSig) + r3;
    var r1 := LE(i.vout, 4) + r2;
    assert PrintInput(i) + rest == Reverse(i.txid) + r1;
    TakeFirst(Reverse(i.txid), r1);
    ReverseTwice(i.txid);
    ReadLEOfLE(i.vout, 4, r2);
    ReadVarBytesOfPrint(i.scriptSig, r3);
    ReadLEOfLE(i.sequence, 4, rest);
  }

  lemma ReadOutputOfPrint(o: TxOutput, rest: bytes)
    requires WfOutput(o)
    ensures ReadOutput(PrintOutput(o) + rest) == Ok(Parsed(o, rest))
  {
    PowConstants();
    assert PrintOutput(o) + rest == LE(o.value, 8) + (VarBytes(o.script) + rest);
    ReadLEOfLE(o.value, 8, VarBytes(o.script) + rest);
    ReadVarBytesOfPrint(o.script, rest);
  }

  lemma ReadStackOfPrint(items: seq<bytes>, rest: bytes)
    requires WfStack(items)
    ensures ReadStack(PrintStack(items) + rest) == Ok(Parsed(items, rest))
  {
    assert PrintStack(items) + rest == CompactSize(|items|) + (PrintMany(VarBytes, items) + rest);
    ReadCompactSizeOfPrint(|items|, PrintMany(VarBytes, items) + rest);
    forall k, r | 0 <= k < |items| ensures ReadVarBytes(VarBytes(items[k]) + r) == Ok(Parsed(items[k], r)) {
      ReadVarBytesOfPrint(items[k], r);
    }
    ReadManyOfPrint(VarBytes, ReadVarBytes, items, rest);
  }

  lemma ReadInputsOfPrint(inputs: seq<TxInput>, rest: bytes)
    requires forall k :: 0 <= k < |inputs| ==> WfInput(inputs[k])
    ensures ReadMany(ReadInput, PrintMany(PrintInput, inputs) + rest, |inputs|) == Ok(Parsed(BareInputs(inputs), rest))
  {
    PrintBareInputs(inputs);
    var bare := BareInputs(inputs);
    forall k, r | 0 <= k < |bare| ensures ReadInput(PrintInput(bare[k]) + r) == Ok(Parsed(bare[k], r)) {
      assert WfInput(inputs[k]);
      ReadInputOfPrint(bare[k], r);
    }
    ReadManyOfPrint(PrintInput, ReadInput, bare, rest);
  }

  lemma ReadOutputsOfPrint(outputs: seq<TxOutput>, rest: bytes)
    requires forall k :: 0 <= k < |outputs| ==> WfOutput(outputs[k])
    ensures ReadMany(ReadOutput, PrintMany(PrintOutput, outputs) + rest, |outputs|) == Ok(Parsed(outputs, rest))
  {
    forall k, r | 0 <= k < |outputs| ensures ReadOutput(PrintOutput(outputs[k]) + r) == Ok(Parsed(outputs[k], r)) {
      ReadOutputOfPrint(outputs[k], r);
    }
    ReadManyOfPrint(PrintOutput, ReadOutput, outputs, rest);
  }

  /** Inputs and outputs come back, the inputs without their witnesses. */
  lemma ReadBodyOfPrint(inputs: seq<TxInput>, outputs: seq<TxOutput>, rest: bytes)
    requires forall k :: 0 <= k < |inputs| ==> WfInput(inputs[k])
    requires forall k :: 0 <= k < |outputs| ==> WfOutput(outputs[k])
    requires |inputs| <= U64_MAX && |outputs| <= U64_MAX
    ensures var count := ReadCompactSize(PrintBody(inputs, outputs) + rest);
      && count.Ok? && count.value.value == |inputs|
      && var ins := ReadMany(ReadInput, count.value.rest, |inputs|);
      && ins.Ok? && ins.value.value == BareInputs(inputs)
      && var outCount := ReadCompactSize(ins.value.rest);
      && outCount.Ok? && outCount.value.value == |outputs|
      && ReadMany(ReadOutput, outCount.value.rest, |outputs|) == Ok(Parsed(outputs, rest))
  {
    hide ReadCompactSize, CompactSize, ReadMany, PrintMany, WfInput, WfOutput, BareInputs;
    var r3 := PrintMany(PrintOutput, outputs) + rest;
    var r2 := CompactSize(|outputs|) + r3;
    var r1 := PrintMany(PrintInput, inputs) + r2;
    assert PrintBody(inputs, outputs) + rest == CompactSize(|inputs|) + r1;
    ReadCompactSizeOfPrint(|inputs|, r1);
    ReadInputsOfPrint(inputs, r2);
    ReadCompactSizeOfPrint(|outputs|, r3);
    ReadOutputsOfPrint(outputs, rest);
  }

  lemma DistinctIgnoresWitness(a: seq<TxInput>, b: seq<TxInput>)
    requires |a| == |b| && forall k :: 0 <= k < |a| ==> OutpointOf(a[k]) == OutpointOf(b[k])
    ensures DistinctOutpoints(a) == DistinctOutpoints(b)
  {
  }

  lemma FinishOfPrint(t: Transaction)
    requires WfTx(t)
    ensures Finish(t.version, t.inputs, t.outputs, LE(t.locktime, 4)) == Ok(t)
  {
    PowConstants();
    ReadLEOfLE(t.locktime, 4, []);
    assert LE(t.locktime, 4) + [] == LE(t.locktime, 4);
  }

  lemma ParseBodyOfPrint(t: Transaction)
    requires WfTx(t) && !HasWitness(t.inputs)
    ensures var count := ReadCompactSize(PrintBody(t.inputs, t.outputs) + LE(t.locktime, 4));
      && count.Ok? && count.value.value == |t.inputs|
      && ParseBody(t.version, count.value.rest, |t.inputs|, false) == Ok(t)
  {
    ReadBodyOfPrint(t.inputs, t.outputs, LE(t.locktime, 4));
    assert BareInputs(t.inputs) == t.inputs;
    FinishOfPrint(t);
  }

  lemma ParseSegwitBodyOfPrint(t: Transaction)
    requires WfTx(t) && HasWitness(t.inputs)
    ensures var tail := PrintMany(PrintStack, Stacks(t.inputs)) + LE(t.locktime, 4);
      var count := ReadCompactSize(PrintBody(t.inputs, t.outputs) + tail);
      && count.Ok? && count.value.value == |t.inputs|
      && ParseBody(t.version, count.value.rest, |t.inputs|, true) == Ok(t)
  {
    var stacks := Stacks(t.inputs);
    ReadBodyOfPrint(t.inputs, t.outputs, PrintMany(PrintStack, stacks) + LE(t.locktime, 4));
    forall k, r | 0 <= k < |stacks| ensures ReadStack(PrintStack(stacks[k]) + r) == Ok(Parsed(stacks[k], r)) {
      assert WfInput(t.inputs[k]);
      ReadStackOfPrint(stacks[k], r);
    }
    ReadManyOfPrint(PrintStack, ReadStack, stacks, LE(t.locktime, 4));
    var k :| 0 <= k < |t.inputs| && t.inputs[k].stack != [];
    assert stacks[k] != [];
    assert WithStacks(BareInputs(t.inputs), stacks) == t.inputs;
    FinishOfPrint(t);
  }

  /** How `ParseAs` reads a version followed by a nonzero count, or by the marker. */
  lemma ParseAsAfterVersion(version: int, body: bytes, count: nat, rest: bytes)
    requires -0x8000_0000 <= version < 0x8000_0000 && ReadCompactSize(body) == Ok(Parsed(count, rest))
    ensures count > 0 ==> ParseAs(LEInt32(version) + body, false) == ParseBody(version, rest, count, false)
    ensures ParseAs(LEInt32(version) + (MARKER + body), false) == ParseBody(version, rest, count, true)
  {
    Int32RoundTrip(version, LEInt32(version));
    TakeFirst(LEInt32(version), body);
    TakeFirst(LEInt32(version), MARKER + body);
    assert MARKER + body == CompactSize(0) + ([1] + body);
    ReadCompactSizeOfPrint(0, [1] + body);
    TakeFirst([1], body);
    hide ReadCompactSize, ParseBody, LEInt32, FromLEInt32, CompactSize;
  }

  /** A transaction with an input reads back as itself, with or without witnesses. */
  lemma ParseAsOfPrint(t: Transaction)
    requires WfTx(t) && t.inputs != []
    ensures ParseAs(Print(t, true), false) == Ok(t)
  {
    hide ReadCompactSize, ParseBody, ParseAs, PrintMany, PrintBody, LE, LEInt32, FromLEInt32;
    var tail := LE(t.locktime, 4);
    if HasWitness(t.inputs) {
      tail := PrintMany(PrintStack, Stacks(t.inputs)) + tail;
      ParseSegwitBodyOfPrint(t);
    } else {
      ParseBodyOfPrint(t);
    }
    var body := PrintBody(t.inputs, t.outputs) + tail;
    ParseAsAfterVersion(t.version, body, |t.inputs|, ReadCompactSize(body).value.rest);
  }

  lemma ParseOfPrint(t: Transaction)
    requires WfTx(t) && t.inputs != []
    ensures Parse(Print(t, true)) == Ok(t)
  {
    ParseAsOfPrint(t);
  }

  // ----- Reading then printing -----

  lemma ReadLESound(data: bytes, k: nat)
    requires ReadLE(data, k).Ok?
    ensures var p := ReadLE(data, k).value; p.value < Pow256(k) && data == LE(p.value, k) + p.rest
  {
    LEOfFromLE(data[..k]);
  }

  lemma ReadCompactSizeSound(data: bytes)
    requires ReadCompactSize(data).Ok?
    ensures var p := ReadCompactSize(data).value; p.value <= U64_MAX && data == CompactSize(p.value) + p.rest
  {
    PowConstants();
    if data[0] == 253 {
      ReadLESound(data[1..], 2);
    } else if data[0] == 254 {
      ReadLESound(data[1..], 4);
    } else if data[0] == 255 {
      ReadLESound(data[1..], 8);
    }
  }

  lemma ReadVarBytesSound(data: bytes)
    requires ReadVarBytes(data).Ok?
    ensures var p := ReadVarBytes(data).value; |p.value| <= U64_MAX && data == VarBytes(p.value) + p.rest
  {
    ReadCompactSizeSound(data);
  }

  /** If each item read is well formed and re-prints to the bytes consumed, so does the list. */
  lemma {:induction false} ReadManySound<T(!new)>(print1: T -> bytes, wf: T -> bool, read1: bytes -> Reading<T>, data: bytes, count: nat)
    requires ReadMany(read1, data, count).Ok?
    requires forall d :: read1(d).Ok? ==> wf(read1(d).value.value) && d == print1(read1(d).value.value) + read1(d).value.rest
    ensures var p := ReadMany(read1, data, count).value;
      && |p.value| == count && (forall k :: 0 <= k < |p.value| ==> wf(p.value[k]))
      && data == PrintMany(print1, p.value) + p.rest
    decreases count
  {
    if count > 0 {
      var x := read1(data).value;
      ReadManySound(print1, wf, read1, x.rest, count - 1);
      var p := ReadMany(read1, data, count).value;
      assert p.value[1..] == ReadMany(read1, x.rest, count - 1).value.value;
    }
  }

  lemma ReadInputSound(data: bytes)
    requires ReadInput(data).Ok?
    ensures var p := ReadInput(data).value;
      WfInput(p.value) && p.value.stack == [] && data == PrintInput(p.value) + p.rest
  {
    PowConstants();
    var d1 := data[32..];
    ReverseTwice(data[..32]);
    ReadLESound(d1, 4);
    var d2 := ReadLE(d1, 4).value.rest;
    ReadVarBytesSound(d2);
    ReadLESound(ReadVarBytes(d2).value.rest, 4);
  }

  predicate WfBareInput(i: TxInput) {
    WfInput(i) && i.stack == []
  }

  lemma ReadOutputSound(data: bytes)
    requires ReadOutput(data).Ok?
    ensures var p := ReadOutput(data).value; WfOutput(p.value) && data == PrintOutput(p.value) + p.rest
  {
    PowConstants();
    ReadLESound(data, 8);
    ReadVarBytesSound(ReadLE(data, 8).value.rest);
  }

  predicate WfItem(s: bytes) {
    |s| <= U64_MAX
  }

  lemma ReadStackSound(data: bytes)
    requires ReadStack(data).Ok?
    ensures var p := ReadStack(data).value; WfStack(p.value) && data == PrintStack(p.value) + p.rest
  {
    hide ReadCompactSize, CompactSize, ReadVarBytes, VarBytes, ReadMany, PrintMany;
    ReadCompactSizeSound(data);
    var n := ReadCompactSize(data).value;
    forall d | ReadVarBytes(d).Ok?
      ensures WfItem(ReadVarBytes(d).value.value) && d == VarBytes(ReadVarBytes(d).value.value) + ReadVarBytes(d).value.rest
    {
      ReadVarBytesSound(d);
    }
    ReadManySound(VarBytes, WfItem, ReadVarBytes, n.rest, n.value);
    var p := ReadStack(data).value;
    forall k | 0 <= k < |p.value| ensures |p.value[k]| <= U64_MAX {
      assert WfItem(p.value[k]);
    }
  }

  lemma ReadInputsSound(data: bytes, count: nat)
    requires ReadMany(ReadInput, data, count).Ok?
    ensures var p := ReadMany(ReadInput, data, count).value;
      && |p.value| == count && (forall k :: 0 <= k < count ==> WfInput(p.value[k]) && p.value[k].stack == [])
      && data == PrintMany(PrintInput, p.value) + p.rest
  {
    forall d | ReadInput(d).Ok?
      ensures WfBareInput(ReadInput(d).value.value) && d == PrintInput(ReadInput(d).value.value) + ReadInput(d).value.rest
    {
      ReadInputSound(d);
    }
    ReadManySound(PrintInput, WfBareInput, ReadInput, data, count);
    var p := ReadMany(ReadInput, data, count).value;
    forall k | 0 <= k < count ensures WfInput(p.value[k]) && p.value[k].stack == [] {
      assert WfBareInput(p.value[k]);
    }
  }

  lemma ReadOutputsSound(data: bytes, count: nat)
    requires ReadMany(ReadOutput, data, count).Ok?
    ensures var p := ReadMany(ReadOutput, data, count).value;
      && |p.value| == count && (forall k :: 0 <= k < count ==> WfOutput(p.value[k]))
      && data == PrintMany(PrintOutput, p.value) + p.rest
  {
    forall d | ReadOutput(d).Ok?
      ensures WfOutput(ReadOutput(d).value.value) && d == PrintOutput(ReadOutput(d).value.value) + ReadOutput(d).value.rest
    {
      ReadOutputSound(d);
    }
    ReadManySound(PrintOutput, WfOutput, ReadOutput, data, count);
  }

  lemma ReadStacksSound(data: bytes, count: nat)
    requires ReadMany(ReadStack, data, count).Ok?
    ensures var p := ReadMany(ReadStack, data, count).value;
      && |p.value| == count && (forall k :: 0 <= k < count ==> WfStack(p.value[k]))
      && data == PrintMany(PrintStack, p.value) + p.rest
  {
    forall d | ReadStack(d).Ok?
      ensures WfStack(ReadStack(d).value.value) && d == PrintStack(ReadStack(d).value.value) + ReadStack(d).value.rest
    {
      ReadStackSound(d);
    }
    ReadManySound(PrintStack, WfStack, ReadStack, data, count);
  }

  lemma FinishSound(version: int, inputs: seq<TxInput>, outputs: seq<TxOutput>, data: bytes)
    requires Finish(version, inputs, outputs, data).Ok?
    ensures var t := Finish(version, inputs, outputs, data).value;
      && t == Transaction(version, inputs, outputs, t.locktime) && t.locktime <= U32_MAX
      && DistinctOutpoints(inputs) && data == LE(t.locktime, 4)
  {
    PowConstants();
    ReadLESound(data, 4);
  }

  lemma WithStacksFields(ins: seq<TxInput>, stacks: seq<seq<bytes>>)
    requires |ins| == |stacks|
    requires forall k :: 0 <= k < |ins| ==> WfInput(ins[k]) && ins[k].stack == [] && WfStack(stacks[k])
    ensures var r := WithStacks(ins, stacks);
      && Stacks(r) == stacks && BareInputs(r) == ins && (forall k :: 0 <= k < |r| ==> WfInput(r[k]))
      && HasWitness(r) == !AllEmpty(stacks)
  {
    var r := WithStacks(ins, stacks);
    assert Stacks(r) == stacks;
    assert BareInputs(r) == ins;
    if !AllEmpty(stacks) {
      var k :| 0 <= k < |stacks| && stacks[k] != [];
      assert r[k].stack != [];
    }
  }

  /** The parts a successful reading of a body passes through. */
  lemma ParseBodySound(version: int, data: bytes, count: nat, segwit: bool)
    requires -0x8000_0000 <= version < 0x8000_0000 && count <= U64_MAX
    requires ParseBody(version, data, count, segwit).Ok?
    ensures var t := ParseBody(version, data, count, segwit).value;
      && WfTx(t) && t.version == version && |t.inputs| == count && HasWitness(t.inputs) == segwit
      && CompactSize(count) + data ==
         PrintBody(t.inputs, t.outputs) + ((if segwit then PrintMany(PrintStack, Stacks(t.inputs)) else []) + LE(t.locktime, 4))
  {
    hide ReadCompactSize, CompactSize, ReadMany, PrintMany, WithStacks, Finish, LE, AllEmpty;
    ReadInputsSound(data, count);
    var ins := ReadMany(ReadInput, data, count).value;
    ReadCompactSizeSound(ins.rest);
    var outCount := ReadCompactSize(ins.rest).value;
    ReadOutputsSound(outCount.rest, outCount.value);
    var outs := ReadMany(ReadOutput, outCount.rest, outCount.value).value;
    assert CompactSize(count) + data == PrintBody(ins.value, outs.value) + outs.rest;
    if segwit {
      ReadStacksSound(outs.rest, count);
      var stacks := ReadMany(ReadStack, outs.rest, count).value;
      FinishSound(version, WithStacks(ins.value, stacks.value), outs.value, stacks.rest);
      WithStacksFields(ins.value, stacks.value);
      PrintBareInputs(WithStacks(ins.value, stacks.value));
    } else {
      FinishSound(version, ins.value, outs.value, outs.rest);
      assert [] + outs.rest == outs.rest;
    }
  }

  /** Which bodies a successful reading read. */
  lemma ParseAsPath(data: bytes, forceLegacy: bool)
    requires ParseAs(data, forceLegacy).Ok?
    ensures |data| >= 4 && ReadCompactSize(data[4..]).Ok?
    ensures var count := ReadCompactSize(data[4..]).value;
      var version := FromLEInt32(data[..4]);
      if !forceLegacy && count.value == 0 then
        && count.rest != [] && count.rest[0] == 1 && ReadCompactSize(count.rest[1..]).Ok?
        && var n := ReadCompactSize(count.rest[1..]).value;
        ParseAs(data, forceLegacy) == ParseBody(version, n.rest, n.value, true)
      else ParseAs(data, forceLegacy) == ParseBody(version, count.rest, count.value, false)
  {
    assert !ParseBody(FromLEInt32(data[..4]), [], 0, false).Ok?;
    hide ParseBody, ReadCompactSize, FromLEInt32;
  }

  /** A body read after a version and `marker` prints back to the bytes it was read from. */
  lemma BodyPrintsBack(data: bytes, d: bytes, segwit: bool)
    requires |data| >= 4 && data[4..] == (if segwit then MARKER else []) + d && ReadCompactSize(d).Ok?
    requires var n := ReadCompactSize(d).value; ParseBody(FromLEInt32(data[..4]), n.rest, n.value, segwit).Ok?
    ensures var n := ReadCompactSize(d).value;
      var t := ParseBody(FromLEInt32(data[..4]), n.rest, n.value, segwit).value;
      WfTx(t) && Print(t, true) == data && |t.inputs| == n.value && HasWitness(t.inputs) == segwit
  {
    hide ReadCompactSize, CompactSize, ParseBody, PrintBody, PrintMany, LE, FromLE, FromLEInt32, LEInt32, WfTx, HasWitness;
    var n := ReadCompactSize(d).value;
    var version := FromLEInt32(data[..4]);
    ReadCompactSizeSound(d);
    ParseBodySound(version, n.rest, n.value, segwit);
    Int32RoundTrip(0, data[..4]);
    assert data == data[..4] + data[4..];
  }

  lemma ParseAsSound(data: bytes, forceLegacy: bool)
    requires ParseAs(data, forceLegacy).Ok?
    ensures var t := ParseAs(data, forceLegacy).value;
      WfTx(t) && Print(t, true) == data && (forceLegacy ==> !HasWitness(t.inputs)) && (!forceLegacy ==> t.inputs != [])
  {
    ParseAsPath(data, forceLegacy);
    var count := ReadCompactSize(data[4..]).value;
    if !forceLegacy && count.value == 0 {
      assert CompactSize(0) == [0];
      ReadCompactSizeSound(data[4..]);
      assert data[4..] == MARKER + count.rest[1..];
      hide *;
      BodyPrintsBack(data, count.rest[1..], true);
    } else {
      hide *;
      assert data[4..] == [] + data[4..];
      BodyPrintsBack(data, data[4..], false);
    }
  }

  /** Every accepted byte string prints back to itself, so no two byte strings decode alike. */
  lemma PrintOfParse(data: bytes)
    requires Parse(data).Ok?
    ensures WfTx(Parse(data).value) && Print(Parse(data).value, true) == data
  {
    if ParseAs(data, false).Ok? {
      ParseAsSound(data, false);
    } else {
      ParseAsSound(data, true);
    }
  }
}
