/** The reader object of `tx/codec.py` and the decoding loops that drive it. */
module Reader {
  import opened Wrappers
  import opened Bytes
  import opened Transactions
  import opened Codec

  /** A list reading continued by `r`. */
  function Prepend<T>(xs: seq<T>, r: Reading<seq<T>>): Reading<seq<T>> {
    var p :- r;
    Ok(Parsed(xs + p.value, p.rest))
  }

  /** The value or error of a reading, without the bytes left over. */
  function Outcome<T>(spec: Reading<T>): Result<T, CodecError> {
    var p :- spec;
    Ok(p.value)
  }

  class ByteReader {
    const data: bytes
    var offset: nat

    ghost predicate Valid()
      reads this
    {
      offset <= |data|
    }

    function Rest(): bytes
      requires Valid()
      reads this
    {
      data[offset..]
    }

    constructor (data: bytes)
      ensures Valid() && this.data == data && Rest() == data
    {
      this.data := data;
      this.offset := 0;
    }

    method Read(length: nat) returns (r: Result<bytes, CodecError>)
      requires Valid()
      modifies this
      ensures Valid() && r == Outcome(Take(old(Rest()), length))
      ensures r.Ok? ==> Rest() == Take(old(Rest()), length).value.rest
    {
      if |data| - offset < length {
        return Err(Truncated);
      }
      r := Ok(data[offset..offset + length]);
      offset := offset + length;
      assert old(Rest())[..length] == r.value;
    }

    method ReadInteger(width: nat) returns (r: Result<nat, CodecError>)
      requires Valid()
      modifies this
      ensures Valid() && r == Outcome(ReadLE(old(Rest()), width))
      ensures r.Ok? ==> Rest() == ReadLE(old(Rest()), width).value.rest
    {
      var s :- Read(width);
      r := Ok(FromLE(s));
    }

    method ReadSize() returns (r: Result<nat, CodecError>)
      requires Valid()
      modifies this
      ensures Valid() && r == Outcome(ReadCompactSize(old(Rest())))
      ensures r.Ok? ==> Rest() == ReadCompactSize(old(Rest())).value.rest
    {
      var prefix :- Read(1);
      if prefix[0] < 253 {
        return Ok(prefix[0]);
      }
      var width := if prefix[0] == 253 then 2 else if prefix[0] == 254 then 4 else 8;
      var value :- ReadInteger(width);
      if value < (if prefix[0] == 253 then 253 else if prefix[0] == 254 then U16_MAX + 1 else U32_MAX + 1) {
        return Err(NonCanonicalSize);
      }
      r := Ok(value);
    }

    method ReadSized() returns (r: Result<bytes, CodecError>)
      requires Valid()
      modifies this
      ensures Valid() && r == Outcome(ReadVarBytes(old(Rest())))
      ensures r.Ok? ==> Rest() == ReadVarBytes(old(Rest())).value.rest
    {
      var length :- ReadSize();
      r := Read(length);
    }

    method ReadMarker(forceLegacy: bool) returns (r: Result<Layout, CodecError>)
      requires Valid()
      modifies this
      ensures Valid() && r == Outcome(ReadLayout(old(Rest()), forceLegacy))
      ensures r.Ok? ==> Rest() == ReadLayout(old(Rest()), forceLegacy).value.rest
    {
      hide ReadCompactSize;
      var count :- ReadSize();
      if forceLegacy || count != 0 || offset == |data| {
        return Ok(Layout(count, false));
      }
      var flag := Read(1);
      if flag.value[0] == 0 {
        return Err(InvalidSegwitFlag);
      }
      if flag.value[0] != 1 {
        return Err(UnsupportedFlag);
      }
      count :- ReadSize();
      r := Ok(Layout(count, true));
    }

    method ReadOneInput() returns (r: Result<TxInput, CodecError>)
      requires Valid()
      modifies this
      ensures Valid() && r == Outcome(ReadInput(old(Rest())))
      ensures r.Ok? ==> Rest() == ReadInput(old(Rest())).value.rest
    {
      var txid :- Read(32);
      var vout :- ReadInteger(4);
      var script :- ReadSized();
      var sequence :- ReadInteger(4);
      r := Ok(TxInput(Reverse(txid), vout, sequence, script, []));
    }

    method ReadOneOutput() returns (r: Result<TxOutput, CodecError>)
      requires Valid()
      modifies this
      ensures Valid() && r == Outcome(ReadOutput(old(Rest())))
      ensures r.Ok? ==> Rest() == ReadOutput(old(Rest())).value.rest
    {
      var value :- ReadInteger(8);
      var script :- ReadSized();
      r := Ok(TxOutput(value, script));
    }

    method ReadInputs(count: nat) returns (r: Result<seq<TxInput>, CodecError>)
      requires Valid()
      modifies this
      ensures Valid() && r == Outcome(ReadMany(ReadInput, old(Rest()), count))
      ensures r.Ok? ==> Rest() == ReadMany(ReadInput, old(Rest()), count).value.rest
    {
      hide ReadMany, ReadInput, Prepend;
      ghost var whole := ReadMany(ReadInput, Rest(), count);
      PrependNothing(whole);
      var inputs := [];
      for i := 0 to count
        invariant Valid()
        invariant whole == Prepend(inputs, ReadMany(ReadInput, Rest(), count - i))
      {
        ReadManyStep(ReadInput, Rest(), count - i, inputs, whole);
        var input :- ReadOneInput();
        inputs := inputs + [input];
      }
      PrependDone(inputs, ReadInput, Rest());
      r := Ok(inputs);
    }

    method ReadOutputs(count: nat) returns (r: Result<seq<TxOutput>, CodecError>)
      requires Valid()
      modifies this
      ensures Valid() && r == Outcome(ReadMany(ReadOutput, old(Rest()), count))
      ensures r.Ok? ==> Rest() == ReadMany(ReadOutput, old(Rest()), count).value.rest
    {
      hide ReadMany, ReadOutput, Prepend;
      ghost var whole := ReadMany(ReadOutput, Rest(), count);
      PrependNothing(whole);
      var outputs := [];
      for i := 0 to count
        invariant Valid()
        invariant whole == Prepend(outputs, ReadMany(ReadOutput, Rest(), count - i))
      {
        ReadManyStep(ReadOutput, Rest(), count - i, outputs, whole);
        var output :- ReadOneOutput();
        outputs := outputs + [output];
      }
      PrependDone(outputs, ReadOutput, Rest());
      r := Ok(outputs);
    }

    method ReadItems(count: nat) returns (r: Result<seq<bytes>, CodecError>)
      requires Valid()
      modifies this
      ensures Valid() && r == Outcome(ReadMany(ReadVarBytes, old(Rest()), count))
      ensures r.Ok? ==> Rest() == ReadMany(ReadVarBytes, old(Rest()), count).value.rest
    {
      hide ReadMany, ReadVarBytes, Prepend;
      ghost var whole := ReadMany(ReadVarBytes, Rest(), count);
      PrependNothing(whole);
      var items := [];
      for i := 0 to count
        invariant Valid()
        invariant whole == Prepend(items, ReadMany(ReadVarBytes, Rest(), count - i))
      {
        ReadManyStep(ReadVarBytes, Rest(), count - i, items, whole);
        var item :- ReadSized();
        items := items + [item];
      }
      PrependDone(items, ReadVarBytes, Rest());
      r := Ok(items);
    }

    method ReadWitness() returns (r: Result<seq<bytes>, CodecError>)
      requires Valid()
      modifies this
      ensures Valid() && r == Outcome(ReadStack(old(Rest())))
      ensures r.Ok? ==> Rest() == ReadStack(old(Rest())).value.rest
    {
      hide ReadMany, ReadVarBytes, ReadCompactSize;
      var count :- ReadSize();
      r := ReadItems(count);
    }

    /** Reads one stack per input and attaches it. */
    method ReadWitnesses(bare: seq<TxInput>) returns (r: Result<seq<TxInput>, CodecError>)
      requires Valid()
      modifies this
      ensures Valid()
      ensures r.Err? ==> ReadMany(ReadStack, old(Rest()), |bare|) == Err(r.error)
      ensures r.Ok? ==> |r.value| == |bare| && r.value == WithStacks(bare, Stacks(r.value))
                        && ReadMany(ReadStack, old(Rest()), |bare|) == Ok(Parsed(Stacks(r.value), Rest()))
    {
      hide ReadMany, ReadStack, Prepend, Stacks, WithStacks;
      ghost var whole := ReadMany(ReadStack, Rest(), |bare|);
      PrependNothing(whole);
      var inputs := bare;
      ghost var stacks := [];
      for i := 0 to |bare|
        invariant Valid() && |stacks| == i && |inputs| == |bare|
        invariant forall k :: 0 <= k < i ==> inputs[k] == bare[k].(stack := stacks[k])
        invariant forall k :: i <= k < |bare| ==> inputs[k] == bare[k]
        invariant whole == Prepend(stacks, ReadMany(ReadStack, Rest(), |bare| - i))
      {
        ReadManyStep(ReadStack, Rest(), |bare| - i, stacks, whole);
        var items :- ReadWitness();
        inputs := inputs[i := inputs[i].(stack := items)];
        stacks := stacks + [items];
      }
      PrependDone(stacks, ReadStack, Rest());
      StacksAttached(bare, stacks, inputs);
      r := Ok(inputs);
    }
  }

  lemma StacksAttached(bare: seq<TxInput>, stacks: seq<seq<bytes>>, inputs: seq<TxInput>)
    requires |inputs| == |bare| == |stacks| && forall k :: 0 <= k < |bare| ==> inputs[k] == bare[k].(stack := stacks[k])
    ensures Stacks(inputs) == stacks && inputs == WithStacks(bare, stacks)
  {
  }

  lemma PrependNothing<T>(r: Reading<seq<T>>)
    ensures Prepend([], r) == r
  {
    if r.Ok? {
      assert [] + r.value.value == r.value.value;
    }
  }

  lemma PrependDone<T>(xs: seq<T>, read1: bytes -> Reading<T>, rest: bytes)
    ensures Prepend(xs, ReadMany(read1, rest, 0)) == Ok(Parsed(xs, rest))
  {
    assert xs + [] == xs;
  }

  /** One turn of a reading loop. */
  lemma ReadManyStep<T>(read1: bytes -> Reading<T>, data: bytes, count: nat, xs: seq<T>, whole: Reading<seq<T>>)
    requires count > 0 && whole == Prepend(xs, ReadMany(read1, data, count))
    ensures var x := read1(data);
      whole == if x.Err? then Err(x.error) else Prepend(xs + [x.value.value], ReadMany(read1, x.value.rest, count - 1))
  {
    var x := read1(data);
    if x.Ok? {
      var more := ReadMany(read1, x.value.rest, count - 1);
      if more.Ok? {
        assert xs + ([x.value.value] + more.value.value) == xs + [x.value.value] + more.value.value;
      }
    }
  }

  /** The part of `_deserialize` that follows the marker. */
  method DeserializeBody(reader: ByteReader, version: int, inputCount: nat, segwit: bool)
    returns (r: Result<Transaction, CodecError>)
    requires reader.Valid()
    modifies reader
    ensures r == ParseBody(version, old(reader.Rest()), inputCount, segwit)
  {
    hide ReadMany, ReadInput, ReadOutput, ReadStack, ReadCompactSize, DistinctOutpoints;
    ghost var body := reader.Rest();
    var inputs :- reader.ReadInputs(inputCount);
    ReadManyLength(ReadInput, body, inputCount);
    var outputCount :- reader.ReadSize();
    var outputs :- reader.ReadOutputs(outputCount);
    if segwit {
      inputs :- reader.ReadWitnesses(inputs);
      if forall k :: 0 <= k < |inputs| ==> inputs[k].stack == [] {
        assert AllEmpty(Stacks(inputs));
        return Err(SuperfluousMarker);
      }
      assert !AllEmpty(Stacks(inputs));
    }
    assert ParseBody(version, body, inputCount, segwit) == Finish(version, inputs, outputs, reader.Rest());
    var locktime :- reader.ReadInteger(4);
    if reader.offset < |reader.data| {
      return Err(TrailingBytes);
    }
    if !DistinctOutpoints(inputs) {
      return Err(DuplicateInputs);
    }
    r := Ok(Transaction(version, inputs, outputs, locktime));
  }

  /** `_deserialize`. */
  method DeserializeAs(data: bytes, forceLegacy: bool) returns (r: Result<Transaction, CodecError>)
    ensures r == ParseAs(data, forceLegacy)
  {
    hide ParseBody, ReadLayout;
    var reader := new ByteReader(data);
    var head :- reader.Read(4);
    var layout :- reader.ReadMarker(forceLegacy);
    r := DeserializeBody(reader, FromLEInt32(head), layout.count, layout.segwit);
  }

  /** `deserialize_transaction`. */
  method Deserialize(data: bytes) returns (r: Result<Transaction, CodecError>)
    ensures r == Parse(data)
  {
    r := DeserializeAs(data, false);
    if r.Err? && 6 <= |data| && data[4] == 0 {
      var second := DeserializeAs(data, true);
      if second.Ok? {
        r := second;
      }
    }
  }
}
