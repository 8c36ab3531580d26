/**
 * The loops of `single_key_wallet/codec.py`. Its nested functions share one local `position`;
 * here each takes it and returns where it stands afterwards.
 */
module RawReader {
  import opened Wrappers
  import opened Bytes
  import opened Transactions
  import opened Codec
  import opened Reader
  import opened SingleKeyCodec

  method Read(raw: bytes, position: nat, count: nat) returns (r: Result<bytes, CodecError>, next: nat)
    requires position <= |raw|
    ensures next <= |raw| && r == Outcome(Take(raw[position..], count))
    ensures r.Ok? ==> raw[next..] == Take(raw[position..], count).value.rest
  {
    next := position;
    if position + count > |raw| {
      r := Err(Truncated);
    } else {
      r := Ok(raw[position..position + count]);
      next := position + count;
      assert raw[position..][..count] == r.value;
    }
  }

  method ReadInteger(raw: bytes, position: nat, width: nat) returns (r: Result<nat, CodecError>, next: nat)
    requires position <= |raw|
    ensures next <= |raw| && r == Outcome(ReadLE(raw[position..], width))
    ensures r.Ok? ==> raw[next..] == ReadLE(raw[position..], width).value.rest
  {
    var s;
    s, next := Read(raw, position, width);
    r := if s.Ok? then Ok(FromLE(s.value)) else Err(s.error);
  }

  method Size(raw: bytes, position: nat) returns (r: Result<nat, CodecError>, next: nat)
    requires position <= |raw|
    ensures next <= |raw| && r == Outcome(ReadSizeWithin(|raw|, raw[position..]))
    ensures r.Ok? ==> raw[next..] == ReadSizeWithin(|raw|, raw[position..]).value.rest
  {
    var marker;
    marker, next := Read(raw, position, 1);
    if marker.Err? {
      return Err(marker.error), next;
    }
    if marker.value[0] < 253 {
      return Ok(marker.value[0]), next;
    }
    var width, minimum := 8, 0x1_0000_0000;
    if marker.value[0] == 253 {
      width, minimum := 2, 253;
    } else if marker.value[0] == 254 {
      width, minimum := 4, 65536;
    }
    r, next := ReadInteger(raw, next, width);
    if r.Ok? && (r.value < minimum || r.value > |raw|) {
      r := Err(InvalidCompactSize);
    }
  }

  method ReadSized(raw: bytes, position: nat) returns (r: Result<bytes, CodecError>, next: nat)
    requires position <= |raw|
    ensures next <= |raw| && r == Outcome(ReadBytesWithin(|raw|, raw[position..]))
    ensures r.Ok? ==> raw[next..] == ReadBytesWithin(|raw|, raw[position..]).value.rest
  {
    hide ReadSizeWithin;
    var length;
    length, next := Size(raw, position);
    if length.Err? {
      return Err(length.error), next;
    }
    r, next := Read(raw, next, length.value);
  }

  method ReadOneInput(raw: bytes, position: nat) returns (r: Result<TxInput, CodecError>, next: nat)
    requires position <= |raw|
    ensures next <= |raw| && r == Outcome(ReadInputWithin(|raw|, raw[position..]))
    ensures r.Ok? ==> raw[next..] == ReadInputWithin(|raw|, raw[position..]).value.rest
  {
    hide ReadBytesWithin, ReadLE, Take;
    var identifier, vout, script, sequence;
    identifier, next := Read(raw, position, 32);
    if identifier.Err? {
      return Err(identifier.error), next;
    }
    vout, next := ReadInteger(raw, next, 4);
    if vout.Err? {
      return Err(vout.error), next;
    }
    script, next := ReadSized(raw, next);
    if script.Err? {
      return Err(script.error), next;
    }
    sequence, next := ReadInteger(raw, next, 4);
    r := if sequence.Err? then Err(sequence.error)
         else Ok(TxInput(Reverse(identifier.value), vout.value, sequence.value, script.value, []));
  }

  method ReadOneOutput(raw: bytes, position: nat) returns (r: Result<TxOutput, CodecError>, next: nat)
    requires position <= |raw|
    ensures next <= |raw| && r == Outcome(ReadOutputWithin(|raw|, raw[position..]))
    ensures r.Ok? ==> raw[next..] == ReadOutputWithin(|raw|, raw[position..]).value.rest
  {
    hide ReadBytesWithin, ReadLE;
    var value, script;
    value, next := ReadInteger(raw, position, 8);
    if value.Err? {
      return Err(value.error), next;
    }
    script, next := ReadSized(raw, next);
    r := if script.Err? then Err(script.error)
         else if value.value > MAX_MONEY then Err(OutOfRange)
         else Ok(TxOutput(value.value, script.value));
  }

  method ReadInputs(raw: bytes, position: nat, count: nat) returns (r: Result<seq<TxInput>, CodecError>, next: nat)
    requires position <= |raw|
    ensures var spec := ReadMany(d => ReadInputWithin(|raw|, d), raw[position..], count);
      next <= |raw| && r == Outcome(spec) && (r.Ok? ==> raw[next..] == spec.value.rest)
  {
    hide ReadMany, ReadInputWithin, Prepend;
    ghost var read1 := d => ReadInputWithin(|raw|, d);
    ghost var whole := ReadMany(read1, raw[position..], count);
    PrependNothing(whole);
    var inputs := [];
    next := position;
    for i := 0 to count
      invariant next <= |raw|
      invariant whole == Prepend(inputs, ReadMany(read1, raw[next..], count - i))
    {
      ReadManyStep(read1, raw[next..], count - i, inputs, whole);
      var input;
      input, next := ReadOneInput(raw, next);
      if input.Err? {
        return Err(input.error), next;
      }
      inputs := inputs + [input.value];
    }
    PrependDone(inputs, read1, raw[next..]);
    r := Ok(inputs);
  }

  method ReadOutputs(raw: bytes, position: nat, count: nat) returns (r: Result<seq<TxOutput>, CodecError>, next: nat)
    requires position <= |raw|
    ensures var spec := ReadMany(d => ReadOutputWithin(|raw|, d), raw[position..], count);
      next <= |raw| && r == Outcome(spec) && (r.Ok? ==> raw[next..] == spec.value.rest)
  {
    hide ReadMany, ReadOutputWithin, Prepend;
    ghost var read1 := d => ReadOutputWithin(|raw|, d);
    ghost var whole := ReadMany(read1, raw[position..], count);
    PrependNothing(whole);
    var outputs := [];
    next := position;
    for i := 0 to count
      invariant next <= |raw|
      invariant whole == Prepend(outputs, ReadMany(read1, raw[next..], count - i))
    {
      ReadManyStep(read1, raw[next..], count - i, outputs, whole);
      var output;
      output, next := ReadOneOutput(raw, next);
      if output.Err? {
        return Err(output.error), next;
      }
      outputs := outputs + [output.value];
    }
    PrependDone(outputs, read1, raw[next..]);
    r := Ok(outputs);
  }

  method ReadItems(raw: bytes, position: nat, count: nat) returns (r: Result<seq<bytes>, CodecError>, next: nat)
    requires position <= |raw|
    ensures var spec := ReadMany(d => ReadBytesWithin(|raw|, d), raw[position..], count);
      next <= |raw| && r == Outcome(spec) && (r.Ok? ==> raw[next..] == spec.value.rest)
  {
    hide ReadMany, ReadBytesWithin, Prepend;
    ghost var read1 := d => ReadBytesWithin(|raw|, d);
    ghost var whole := ReadMany(read1, raw[position..], count);
    PrependNothing(whole);
    var items := [];
    next := position;
    for i := 0 to count
      invariant next <= |raw|
      invariant whole == Prepend(items, ReadMany(read1, raw[next..], count - i))
    {
      ReadManyStep(read1, raw[next..], count - i, items, whole);
      var item;
      item, next := ReadSized(raw, next);
      if item.Err? {
        return Err(item.error), next;
      }
      items := items + [item.value];
    }
    PrependDone(items, read1, raw[next..]);
    r := Ok(items);
  }

  method ReadWitness(raw: bytes, position: nat) returns (r: Result<seq<bytes>, CodecError>, next: nat)
    requires position <= |raw|
    ensures next <= |raw| && r == Outcome(ReadStackWithin(|raw|, raw[position..]))
    ensures r.Ok? ==> raw[next..] == ReadStackWithin(|raw|, raw[position..]).value.rest
  {
    hide ReadMany, ReadSizeWithin;
    var count;
    count, next := Size(raw, position);
    if count.Err? {
      return Err(count.error), next;
    }
    r, next := ReadItems(raw, next, count.value);
  }

  /** Reads one stack per input and attaches it. */
  method ReadWitnesses(raw: bytes, position: nat, bare: seq<TxInput>) returns (r: Result<seq<TxInput>, CodecError>, next: nat)
    requires position <= |raw|
    ensures var spec := ReadMany(d => ReadStackWithin(|raw|, d), raw[position..], |bare|);
      && next <= |raw| && (r.Err? ==> spec == Err(r.error))
      && (r.Ok? ==> |r.value| == |bare| && r.value == WithStacks(bare, Stacks(r.value))
                    && spec == Ok(Parsed(Stacks(r.value), raw[next..])))
  {
    hide ReadMany, ReadStackWithin, Prepend, Stacks, WithStacks;
    ghost var read1 := d => ReadStackWithin(|raw|, d);
    ghost var whole := ReadMany(read1, raw[position..], |bare|);
    PrependNothing(whole);
    var inputs := bare;
    ghost var stacks := [];
    next := position;
    for i := 0 to |bare|
      invariant next <= |raw| && |stacks| == i && |inputs| == |bare|
      invariant forall k :: 0 <= k < i ==> inputs[k] == bare[k].(stack := stacks[k])
      invariant forall k :: i <= k < |bare| ==> inputs[k] == bare[k]
      invariant whole == Prepend(stacks, ReadMany(read1, raw[next..], |bare| - i))
    {
      ReadManyStep(read1, raw[next..], |bare| - i, stacks, whole);
      var items;
      items, next := ReadWitness(raw, next);
      if items.Err? {
        return Err(items.error), next;
      }
      inputs := inputs[i := inputs[i].(stack := items.value)];
      stacks := stacks + [items.value];
    }
    PrependDone(stacks, read1, raw[next..]);
    StacksAttached(bare, stacks, inputs);
    r := Ok(inputs);
  }

  method DeserializeRest(raw: bytes, start: nat, version: int, segwit: bool) returns (r: Result<Transaction, CodecError>)
    requires start <= |raw|
    ensures r == ParseBodyWithin(version, raw[start..], segwit, raw)
  {
    hide ReadMany, ReadInputWithin, ReadOutputWithin, ReadStackWithin, ReadSizeWithin, DistinctOutpoints, Print, LE, FromLE;
    var count, position := Size(raw, start);
    if count.Err? {
      return Err(count.error);
    }
    if count.value == 0 {
      return Err(NoInputs);
    }
    ReadManyLength(d => ReadInputWithin(|raw|, d), raw[position..], count.value);
    var inputs, outputCount, outputs;
    inputs, position := ReadInputs(raw, position, count.value);
    if inputs.Err? {
      return Err(inputs.error);
    }
    outputCount, position := Size(raw, position);
    if outputCount.Err? {
      return Err(outputCount.error);
    }
    outputs, position := ReadOutputs(raw, position, outputCount.value);
    if outputs.Err? {
      return Err(outputs.error);
    }
    if segwit {
      inputs, position := ReadWitnesses(raw, position, inputs.value);
      if inputs.Err? {
        return Err(inputs.error);
      }
    }
    r := FinishReading(raw, position, version, inputs.value, outputs.value);
  }

  method FinishReading(raw: bytes, position: nat, version: int, inputs: seq<TxInput>, outputs: seq<TxOutput>)
    returns (r: Result<Transaction, CodecError>)
    requires position <= |raw|
    ensures r == FinishWithin(version, inputs, outputs, raw[position..], raw)
  {
    hide DistinctOutpoints, Print, LE;
    var locktime, next := ReadInteger(raw, position, 4);
    if locktime.Err? {
      return Err(locktime.error);
    }
    var tx := Transaction(version, inputs, outputs, locktime.value);
    if !DistinctOutpoints(inputs) {
      return Err(DuplicateInputs);
    }
    if OutputTotal(outputs) > MAX_MONEY {
      return Err(OutOfRange);
    }
    if next != |raw| || !WfHeader(version, locktime.value) || Print(tx, true) != raw {
      return Err(NonCanonicalTransaction);
    }
    r := Ok(tx);
  }

  /** `deserialize`. */
  method Deserialize(raw: bytes) returns (r: Result<Transaction, CodecError>)
    ensures r == ParseSingleKey(raw)
  {
    hide ParseBodyWithin, FromLEInt32;
    if |raw| > MAX_RAW_BYTES {
      return Err(InvalidEncoding);
    }
    var head, position := Read(raw, 0, 4);
    if head.Err? {
      return Err(head.error);
    }
    assert raw[0..] == raw;
    var segwit := position + 2 <= |raw| && raw[position..position + 2] == MARKER;
    assert segwit == (2 <= |raw[position..]| && raw[position..][..2] == MARKER);
    if segwit {
      var skipped;
      skipped, position := Read(raw, position, 2);
    }
    r := DeserializeRest(raw, position, FromLEInt32(head.value), segwit);
  }
}
