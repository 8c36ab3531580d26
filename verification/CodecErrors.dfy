/** What the transaction parser refuses: the errors of strings that are almost a serialization. */
module CodecErrors {
  import opened Wrappers
  import opened Bytes
  import opened Transactions
  import opened Codec
  import opened SingleKeyCodec
  import MessageVectors

  /** Every field is in range; the inputs may repeat an outpoint. */
  predicate InRange(t: Transaction) {
    && WfHeader(t.version, t.locktime) && |t.inputs| <= U64_MAX && |t.outputs| <= U64_MAX
    && (forall k :: 0 <= k < |t.inputs| ==> WfInput(t.inputs[k]))
    && (forall k :: 0 <= k < |t.outputs| ==> WfOutput(t.outputs[k]))
  }

  function Outcome(t: Transaction, extra: bytes): Result<Transaction, CodecError> {
    if extra != [] then Err(TrailingBytes)
    else if exists i, j :: 0 <= i < j < |t.inputs| && t.inputs[i].txid == t.inputs[j].txid && t.inputs[i].vout == t.inputs[j].vout then
      Err(DuplicateInputs)
    else Ok(t)
  }

  lemma FinishGives(t: Transaction, extra: bytes)
    requires InRange(t)
    ensures Finish(t.version, t.inputs, t.outputs, LE(t.locktime, 4) + extra) == Outcome(t, extra)
  {
    PowConstants();
    ReadLEOfLE(t.locktime, 4, extra);
    assert DistinctOutpoints(t.inputs) <==>
      !exists i, j :: 0 <= i < j < |t.inputs| && t.inputs[i].txid == t.inputs[j].txid && t.inputs[i].vout == t.inputs[j].vout;
    hide ReadLE, LE;
  }

  lemma LegacyBodyGives(t: Transaction, extra: bytes)
    requires InRange(t) && !HasWitness(t.inputs)
    ensures var count := ReadCompactSize(PrintBody(t.inputs, t.outputs) + (LE(t.locktime, 4) + extra));
      && count.Ok? && count.value.value == |t.inputs|
      && ParseBody(t.version, count.value.rest, |t.inputs|, false) == Outcome(t, extra)
  {
    ReadBodyOfPrint(t.inputs, t.outputs, LE(t.locktime, 4) + extra);
    assert BareInputs(t.inputs) == t.inputs;
    FinishGives(t, extra);
    hide Outcome, Finish;
  }

  lemma SegwitBodyGives(t: Transaction, extra: bytes)
    requires InRange(t) && HasWitness(t.inputs)
    ensures var tail := PrintMany(PrintStack, Stacks(t.inputs)) + (LE(t.locktime, 4) + extra);
      var count := ReadCompactSize(PrintBody(t.inputs, t.outputs) + tail);
      && count.Ok? && count.value.value == |t.inputs|
      && ParseBody(t.version, count.value.rest, |t.inputs|, true) == Outcome(t, extra)
  {
    var stacks := Stacks(t.inputs);
    ReadBodyOfPrint(t.inputs, t.outputs, PrintMany(PrintStack, stacks) + (LE(t.locktime, 4) + extra));
    forall k, r | 0 <= k < |stacks| ensures ReadStack(PrintStack(stacks[k]) + r) == Ok(Parsed(stacks[k], r)) {
      assert WfInput(t.inputs[k]);
      ReadStackOfPrint(stacks[k], r);
    }
    ReadManyOfPrint(PrintStack, ReadStack, stacks, LE(t.locktime, 4) + extra);
    var k :| 0 <= k < |t.inputs| && t.inputs[k].stack != [];
    assert stacks[k] != [];
    assert WithStacks(BareInputs(t.inputs), stacks) == t.inputs;
    FinishGives(t, extra);
    hide Outcome, Finish;
  }

  /** A serialization followed by anything is refused for the rest, and one that spends an outpoint twice for that. */
  lemma SerializationWithRest(t: Transaction, extra: bytes)
    requires InRange(t) && t.inputs != []
    ensures ParseAs(Print(t, true) + extra, false) == Outcome(t, extra)
  {
    hide ReadCompactSize, ParseBody, ParseAs, PrintMany, PrintBody, LE, LEInt32, FromLEInt32, Outcome;
    var tail := LE(t.locktime, 4) + extra;
    var version, printed := LEInt32(t.version), PrintBody(t.inputs, t.outputs);
    if HasWitness(t.inputs) {
      var stacks := PrintMany(PrintStack, Stacks(t.inputs));
      SegwitBodyGives(t, extra);
      assert Print(t, true) + extra == version + (MARKER + (printed + (stacks + tail)));
      tail := stacks + tail;
    } else {
      LegacyBodyGives(t, extra);
      assert Print(t, true) + extra == version + (printed + tail);
    }
    ParseAsAfterVersion(t.version, printed + tail, |t.inputs|, ReadCompactSize(printed + tail).value.rest);
  }

  /** What follows the version decides the reading: a zero count followed by anything must be the marker 0, 1. */
  lemma MarkerErrors(data: bytes)
    requires |data| >= 6 && data[4] == 0
    ensures data[5] == 0 ==> ParseAs(data, false) == Err(InvalidSegwitFlag)
    ensures data[5] > 1 ==> ParseAs(data, false) == Err(UnsupportedFlag)
  {
    var rest := data[4..];
    assert ReadCompactSize(rest) == Ok(Parsed(0, rest[1..]));
    assert Take(rest[1..], 1).value.value == [data[5]];
    hide ReadCompactSize, ParseBody;
  }

  /** Fewer than four bytes are no version. */
  lemma TooShort(data: bytes, forceLegacy: bool)
    requires |data| < 4
    ensures ParseAs(data, forceLegacy) == Err(Truncated)
  {
  }

  /** A count must be written in its shortest form. */
  lemma LongCountRefused(n: nat, width: nat, prefix: byte, rest: bytes)
    requires (prefix == 253 && width == 2 && n < 253) || (prefix == 254 && width == 4 && n < 0x1_0000)
          || (prefix == 255 && width == 8 && n < 0x1_0000_0000)
    ensures ReadCompactSize([prefix] + (LE(n, width) + rest)) == Err(NonCanonicalSize)
  {
    PowConstants();
    ReadLEOfLE(n, width, rest);
    var data := [prefix] + (LE(n, width) + rest);
    assert data[1..] == LE(n, width) + rest;
    hide LE, ReadLE;
  }

  /** The error reported is that of the first reading, unless the legacy one that follows it succeeds. */
  lemma FallbackExactly(data: bytes)
    ensures
      var first, second := ParseAs(data, false), ParseAs(data, true);
      Parse(data) == if first.Err? && |data| >= 6 && data[4] == 0 && second.Ok? then second else first
  {
    hide ParseAs;
  }

  // ----- The single-key decoder -----

  /** More than 400,000 bytes are refused unread, and so is a transaction without inputs once its count is read. */
  lemma KeyRefusedEarly(raw: bytes)
    ensures |raw| > 400_000 ==> ParseSingleKey(raw) == Err(InvalidEncoding)
    ensures |raw| < 4 ==> ParseSingleKey(raw) == Err(Truncated)
    ensures 5 <= |raw| <= 400_000 && raw[4] == 0 && (|raw| == 5 || raw[5] != 1) ==> ParseSingleKey(raw) == Err(NoInputs)
  {
    if 5 <= |raw| <= 400_000 && raw[4] == 0 && (|raw| == 5 || raw[5] != 1) {
      var rest := raw[4..];
      assert 2 <= |rest| ==> rest[..2][1] == raw[5];
      assert ReadSizeWithin(|raw|, rest) == Ok(Parsed(0, rest[1..]));
      hide FromLEInt32, ReadSizeWithin;
    }
  }

  /** What a transaction read to its end is refused for: repeated inputs, then too much money, then any other spelling. */
  lemma KeyRefusedAtEnd(t: Transaction, extra: bytes, raw: bytes)
    requires InRange(t)
    ensures
      var r := FinishWithin(t.version, t.inputs, t.outputs, LE(t.locktime, 4) + extra, raw);
      if exists i, j :: 0 <= i < j < |t.inputs| && t.inputs[i].txid == t.inputs[j].txid && t.inputs[i].vout == t.inputs[j].vout then
        r == Err(DuplicateInputs)
      else if OutputTotal(t.outputs) > 2_100_000_000_000_000 then r == Err(OutOfRange)
      else if extra != [] || Print(t, true) != raw then r == Err(NonCanonicalTransaction)
      else r == Ok(t)
  {
    PowConstants();
    ReadLEOfLE(t.locktime, 4, extra);
    hide ReadLE, LE, Print, OutputTotal;
  }

  // ----- Witness vectors -----

  /** A vector followed by anything is refused for the rest, one of more than a hundred items for their number. */
  lemma VectorWithRest(items: seq<bytes>, extra: bytes)
    requires |items| <= U64_MAX && forall k :: 0 <= k < |items| ==> |items[k]| <= U64_MAX
    ensures
      MessageVectors.Deserialize(PrintStack(items) + extra) ==
        if |items| > 100 then Err(OutOfRange) else if extra != [] then Err(TrailingBytes) else Ok(items)
  {
    var tail := PrintMany(VarBytes, items) + extra;
    assert PrintStack(items) + extra == CompactSize(|items|) + tail;
    ReadCompactSizeOfPrint(|items|, tail);
    hide ReadCompactSize, CompactSize;
    forall k, r | 0 <= k < |items| ensures ReadVarBytes(VarBytes(items[k]) + r) == Ok(Parsed(items[k], r)) {
      ReadVarBytesOfPrint(items[k], r);
    }
    ReadManyOfPrint(VarBytes, ReadVarBytes, items, extra);
  }
}
