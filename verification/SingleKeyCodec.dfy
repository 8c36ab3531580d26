/** `single_key_wallet/codec.py`: the second, independent decoder, and where it agrees with the first. */
module SingleKeyCodec {
  import opened Wrappers
  import opened Bytes
  import opened Transactions
  import opened Codec

  const MAX_RAW_BYTES: nat := 400_000

  /** The value limits of the single-key model classes. */
  predicate WithinMoney(outputs: seq<TxOutput>) {
    EachWithinMoney(outputs) && OutputTotal(outputs) <= MAX_MONEY
  }

  // ----- The readings, over the unread bytes of a raw string of `limit` bytes -----

  function SizeWithin(limit: nat, data: bytes, width: nat, minimum: nat): Reading<nat> {
    var t :- ReadLE(data, width);
    if t.value < minimum || t.value > limit then Err(InvalidCompactSize) else Ok(t)
  }

  function ReadSizeWithin(limit: nat, data: bytes): Reading<nat> {
    var p :- Take(data, 1);
    if p.value[0] < 253 then Ok(Parsed(p.value[0], p.rest))
    else if p.value[0] == 253 then SizeWithin(limit, p.rest, 2, 253)
    else if p.value[0] == 254 then SizeWithin(limit, p.rest, 4, 65536)
    else SizeWithin(limit, p.rest, 8, 0x1_0000_0000)
  }

  function ReadBytesWithin(limit: nat, data: bytes): Reading<bytes> {
    var n :- ReadSizeWithin(limit, data);
    Take(n.rest, n.value)
  }

  function ReadInputWithin(limit: nat, data: bytes): Reading<TxInput> {
    var txid :- Take(data, 32);
    var vout :- ReadLE(txid.rest, 4);
    var script :- ReadBytesWithin(limit, vout.rest);
    var sequence :- ReadLE(script.rest, 4);
    Ok(Parsed(TxInput(Reverse(txid.value), vout.value, sequence.value, script.value, []), sequence.rest))
  }

  function ReadOutputWithin(limit: nat, data: bytes): Reading<TxOutput> {
    var value :- ReadLE(data, 8);
    var script :- ReadBytesWithin(limit, value.rest);
    if value.value > MAX_MONEY then Err(OutOfRange)
    else Ok(Parsed(TxOutput(value.value, script.value), script.rest))
  }

  function ReadStackWithin(limit: nat, data: bytes): Reading<seq<bytes>> {
    var n :- ReadSizeWithin(limit, data);
    ReadMany(d => ReadBytesWithin(limit, d), n.rest, n.value)
  }

  function FinishWithin(version: int, inputs: seq<TxInput>, outputs: seq<TxOutput>, data: bytes, raw: bytes): Result<Transaction, CodecError> {
    var lock :- ReadLE(data, 4);
    LEOfFromLE(data[..4]);
    PowConstants();
    var t := Transaction(version, inputs, outputs, lock.value);
    if !DistinctOutpoints(inputs) then Err(DuplicateInputs)
    else if OutputTotal(outputs) > MAX_MONEY then Err(OutOfRange)
    else if lock.rest != [] || !WfHeader(version, lock.value) || Print(t, true) != raw then Err(NonCanonicalTransaction)
    else Ok(t)
  }

  function ParseBodyWithin(version: int, data: bytes, segwit: bool, raw: bytes): Result<Transaction, CodecError> {
    var count :- ReadSizeWithin(|raw|, data);
    if count.value == 0 then Err(NoInputs) else
    var ins :- ReadMany(d => ReadInputWithin(|raw|, d), count.rest, count.value);
    var outCount :- ReadSizeWithin(|raw|, ins.rest);
    var outs :- ReadMany(d => ReadOutputWithin(|raw|, d), outCount.rest, outCount.value);
    if segwit then
      var stacks :- ReadMany(d => ReadStackWithin(|raw|, d), outs.rest, count.value);
      ReadManyLength(d => ReadInputWithin(|raw|, d), count.rest, count.value);
      ReadManyLength(d => ReadStackWithin(|raw|, d), outs.rest, count.value);
      FinishWithin(version, WithStacks(ins.value, stacks.value), outs.value, stacks.rest, raw)
    else FinishWithin(version, ins.value, outs.value, outs.rest, raw)
  }

  /** `deserialize`, on the bytes its hexadecimal argument spells. */
  function ParseSingleKey(raw: bytes): Result<Transaction, CodecError> {
    if |raw| > MAX_RAW_BYTES then Err(InvalidEncoding) else
    var head :- Take(raw, 4);
    var version := FromLEInt32(head.value);
    if 2 <= |head.rest| && head.rest[..2] == MARKER then ParseBodyWithin(version, head.rest[2..], true, raw)
    else ParseBodyWithin(version, head.rest, false, raw)
  }

  // ----- The two families of readings agree -----

  /** `r` reads whatever `q` reads from at most `limit` bytes, and `q` consumes something. */
  ghost predicate Follows<T(!new)>(q: bytes -> Reading<T>, r: bytes -> Reading<T>, limit: nat) {
    forall d :: |d| <= limit && q(d).Ok? ==> r(d) == q(d) && |q(d).value.rest| < |d|
  }

  lemma {:induction false} ManyFollows<T(!new)>(q: bytes -> Reading<T>, r: bytes -> Reading<T>, limit: nat, data: bytes, count: nat)
    requires Follows(q, r, limit) && |data| <= limit && ReadMany(q, data, count).Ok?
    ensures ReadMany(r, data, count) == ReadMany(q, data, count)
    ensures |ReadMany(q, data, count).value.rest| + count <= |data|
    decreases count
  {
    if count > 0 {
      ManyFollows(q, r, limit, q(data).value.rest, count - 1);
    }
  }

  lemma SizeAgrees(limit: nat, data: bytes)
    ensures ReadSizeWithin(limit, data).Ok? ==>
              ReadCompactSize(data) == ReadSizeWithin(limit, data) && |ReadCompactSize(data).value.rest| < |data|
    ensures ReadCompactSize(data).Ok? ==>
              |ReadCompactSize(data).value.rest| < |data|
              && (ReadCompactSize(data).value.value <= limit ==> ReadSizeWithin(limit, data) == ReadCompactSize(data))
  {
    hide FromLE;
  }

  lemma BytesAgree(limit: nat, data: bytes)
    requires |data| <= limit
    ensures ReadBytesWithin(limit, data).Ok? <==> ReadVarBytes(data).Ok?
    ensures ReadVarBytes(data).Ok? ==>
              ReadBytesWithin(limit, data) == ReadVarBytes(data) && |ReadVarBytes(data).value.rest| < |data|
  {
    SizeAgrees(limit, data);
    hide ReadCompactSize, ReadSizeWithin;
  }

  lemma InputsAgree(limit: nat)
    ensures Follows(ReadInput, d => ReadInputWithin(limit, d), limit)
    ensures Follows(d => ReadInputWithin(limit, d), ReadInput, limit)
  {
    forall d: bytes | |d| <= limit && (ReadInput(d).Ok? || ReadInputWithin(limit, d).Ok?)
      ensures ReadInput(d).Ok? && ReadInputWithin(limit, d) == ReadInput(d) && |ReadInput(d).value.rest| < |d|
    {
      BytesAgree(limit, d[36..]);
      hide ReadVarBytes, ReadBytesWithin, FromLE;
      assert d[32..][4..] == d[36..];
    }
  }

  /** Outputs agree but for the money limit the single-key reader puts on each value. */
  lemma OutputAgrees(limit: nat, d: bytes)
    requires |d| <= limit
    ensures ReadOutputWithin(limit, d).Ok? <==> ReadOutput(d).Ok? && ReadOutput(d).value.value.value <= MAX_MONEY
    ensures ReadOutput(d).Ok? ==> |ReadOutput(d).value.rest| < |d|
    ensures ReadOutputWithin(limit, d).Ok? ==> ReadOutputWithin(limit, d) == ReadOutput(d)
  {
    if |d| >= 8 {
      BytesAgree(limit, d[8..]);
    }
    hide ReadVarBytes, ReadBytesWithin, FromLE;
  }

  lemma StacksAgree(limit: nat)
    ensures Follows(ReadStack, d => ReadStackWithin(limit, d), limit)
    ensures Follows(d => ReadStackWithin(limit, d), ReadStack, limit)
  {
    var within := d => ReadBytesWithin(limit, d);
    assert Follows(ReadVarBytes, within, limit) && Follows(within, ReadVarBytes, limit) by {
      forall d: bytes | |d| <= limit && (ReadVarBytes(d).Ok? || within(d).Ok?)
        ensures ReadVarBytes(d).Ok? && within(d) == ReadVarBytes(d) && |ReadVarBytes(d).value.rest| < |d|
      {
        BytesAgree(limit, d);
      }
    }
    forall d: bytes | |d| <= limit && (ReadStack(d).Ok? || ReadStackWithin(limit, d).Ok?)
      ensures ReadStack(d).Ok? && ReadStackWithin(limit, d) == ReadStack(d) && |ReadStack(d).value.rest| < |d|
    {
      SizeAgrees(limit, d);
      hide ReadCompactSize, ReadSizeWithin, Follows;
      if ReadStack(d).Ok? {
        var n := ReadCompactSize(d).value;
        ManyFollows(ReadVarBytes, within, limit, n.rest, n.value);
      } else {
        var n := ReadSizeWithin(limit, d).value;
        ManyFollows(within, ReadVarBytes, limit, n.rest, n.value);
      }
    }
  }

  lemma {:induction false} OutputsAgree(limit: nat, read1: bytes -> Reading<TxOutput>, data: bytes, count: nat)
    requires |data| <= limit && forall d :: read1(d) == ReadOutputWithin(limit, d)
    ensures var q := ReadMany(ReadOutput, data, count);
      var r := ReadMany(read1, data, count);
      && (r.Ok? <==> q.Ok? && EachWithinMoney(q.value.value))
      && (r.Ok? ==> r == q)
      && (q.Ok? ==> |q.value.rest| + count <= |data|)
    decreases count
  {
    hide EachWithinMoney, ReadOutputWithin, ReadOutput;
    if count > 0 {
      assert read1(data) == ReadOutputWithin(limit, data);
      OutputAgrees(limit, data);
      var q1 := ReadOutput(data);
      if q1.Ok? {
        OutputsAgree(limit, read1, q1.value.rest, count - 1);
        var more := ReadMany(ReadOutput, q1.value.rest, count - 1);
        if more.Ok? {
          EachWithinMoneyFirst(q1.value.value, more.value.value);
        }
      }
    } else {
      EachWithinMoneyNone();
    }
  }

  predicate EachWithinMoney(outputs: seq<TxOutput>) {
    forall k :: 0 <= k < |outputs| ==> outputs[k].value <= MAX_MONEY
  }

  lemma EachWithinMoneyNone()
    ensures EachWithinMoney([])
  {
  }

  lemma EachWithinMoneyFirst(o: TxOutput, rest: seq<TxOutput>)
    ensures EachWithinMoney([o] + rest) == (o.value <= MAX_MONEY && EachWithinMoney(rest))
  {
    var all := [o] + rest;
    assert all[0] == o && all[1..] == rest;
    forall k | EachWithinMoney(all) && 0 <= k < |rest| ensures rest[k].value <= MAX_MONEY {
      assert all[k + 1] == rest[k];
    }
  }

  // ----- The two decoders agree -----

  /** Where `raw` stands after its version and optional marker. */
  predicate AfterVersion(raw: bytes, data: bytes, segwit: bool) {
    4 <= |raw| && raw[4..] == (if segwit then MARKER else []) + data
  }

  lemma FinishAgrees(version: int, inputs: seq<TxInput>, outputs: seq<TxOutput>, data: bytes, raw: bytes)
    ensures FinishWithin(version, inputs, outputs, data, raw).Ok? ==>
              Finish(version, inputs, outputs, data) == FinishWithin(version, inputs, outputs, data, raw)
    ensures Finish(version, inputs, outputs, data).Ok? && OutputTotal(outputs) <= MAX_MONEY
            && WfHeader(version, Finish(version, inputs, outputs, data).value.locktime)
            && Print(Finish(version, inputs, outputs, data).value, true) == raw ==>
              FinishWithin(version, inputs, outputs, data, raw) == Finish(version, inputs, outputs, data)
    ensures FinishWithin(version, inputs, outputs, data, raw).Ok? ==>
              OutputTotal(outputs) <= MAX_MONEY && WfHeader(version, FinishWithin(version, inputs, outputs, data, raw).value.locktime)
              && Print(FinishWithin(version, inputs, outputs, data, raw).value, true) == raw
              && var t := FinishWithin(version, inputs, outputs, data, raw).value;
              t == Transaction(version, inputs, outputs, t.locktime)
  {
    hide Print, DistinctOutpoints, FromLE, LE;
  }

  /** What the single-key decoder accepts, the HD decoder reads to the same fields. */
  lemma SingleKeyBodyIsHd(raw: bytes, data: bytes, segwit: bool)
    requires AfterVersion(raw, data, segwit)
    requires ParseBodyWithin(FromLEInt32(raw[..4]), data, segwit, raw).Ok?
    ensures var n := ReadCompactSize(data);
      && n.Ok? && n.value.value > 0
      && ParseBody(FromLEInt32(raw[..4]), n.value.rest, n.value.value, segwit) == ParseBodyWithin(FromLEInt32(raw[..4]), data, segwit, raw)
      && WithinMoney(ParseBodyWithin(FromLEInt32(raw[..4]), data, segwit, raw).value.outputs)
  {
    hide ReadCompactSize, ReadSizeWithin, ReadInput, ReadInputWithin, ReadOutput, ReadOutputWithin, ReadStack, ReadStackWithin,
      ReadMany, Finish, FinishWithin, FromLEInt32, Follows, WithStacks;
    var version := FromLEInt32(raw[..4]);
    var inWithin := d => ReadInputWithin(|raw|, d);
    var outWithin := d => ReadOutputWithin(|raw|, d);
    var stackWithin := d => ReadStackWithin(|raw|, d);
    SizeAgrees(|raw|, data);
    var n := ReadSizeWithin(|raw|, data).value;
    InputsAgree(|raw|);
    ManyFollows(inWithin, ReadInput, |raw|, n.rest, n.value);
    var ins := ReadMany(inWithin, n.rest, n.value).value;
    SizeAgrees(|raw|, ins.rest);
    var outCount := ReadSizeWithin(|raw|, ins.rest).value;
    OutputsAgree(|raw|, outWithin, outCount.rest, outCount.value);
    var outs := ReadMany(outWithin, outCount.rest, outCount.value).value;
    if segwit {
      StacksAgree(|raw|);
      ManyFollows(stackWithin, ReadStack, |raw|, outs.rest, n.value);
      var stacks := ReadMany(stackWithin, outs.rest, n.value).value;
      ReadManyLength(inWithin, n.rest, n.value);
      ReadManyLength(stackWithin, outs.rest, n.value);
      FinishAgrees(version, WithStacks(ins.value, stacks.value), outs.value, stacks.rest, raw);
      MarkerNeedsWitness(ParseBodyWithin(version, data, segwit, raw).value, ins.value, stacks.value, raw);
    } else {
      FinishAgrees(version, ins.value, outs.value, outs.rest, raw);
    }
  }

  /** Printed with a marker, a transaction with inputs has a witness. */
  lemma MarkerNeedsWitness(t: Transaction, ins: seq<TxInput>, stacks: seq<seq<bytes>>, raw: bytes)
    requires WfHeader(t.version, t.locktime) && ins != [] && |ins| == |stacks| && t.inputs == WithStacks(ins, stacks)
    requires 5 <= |raw| && raw[4] == 0 && Print(t, true) == raw
    ensures !AllEmpty(stacks)
  {
    ZeroByteIsMarker(t);
    hide Print;
    var k :| 0 <= k < |t.inputs| && t.inputs[k].stack != [];
    assert stacks[k] != [];
  }

  /** What the HD decoder reads within the money limits, the single-key decoder accepts. */
  lemma HdBodyIsSingleKey(raw: bytes, data: bytes, segwit: bool)
    requires AfterVersion(raw, data, segwit) && ReadCompactSize(data).Ok? && ReadCompactSize(data).value.value > 0
    requires var n := ReadCompactSize(data).value;
      var hd := ParseBody(FromLEInt32(raw[..4]), n.rest, n.value, segwit);
      hd.Ok? && WithinMoney(hd.value.outputs)
    ensures var n := ReadCompactSize(data).value;
      ParseBodyWithin(FromLEInt32(raw[..4]), data, segwit, raw) == ParseBody(FromLEInt32(raw[..4]), n.rest, n.value, segwit)
  {
    hide ReadCompactSize, ReadSizeWithin, ReadInput, ReadInputWithin, ReadOutput, ReadOutputWithin, ReadStack, ReadStackWithin,
      ReadMany, Finish, FinishWithin, FromLEInt32, Follows, WithStacks, Print, AllEmpty, HasWitness, CompactSize, DistinctOutpoints, LE;
    BodyPrintsBack(raw, data, segwit);
    var version := FromLEInt32(raw[..4]);
    var inWithin := d => ReadInputWithin(|raw|, d);
    var outWithin := d => ReadOutputWithin(|raw|, d);
    var stackWithin := d => ReadStackWithin(|raw|, d);
    SizeAgrees(|raw|, data);
    var n := ReadCompactSize(data).value;
    InputsAgree(|raw|);
    ManyFollows(ReadInput, inWithin, |raw|, n.rest, n.value);
    var ins := ReadMany(ReadInput, n.rest, n.value).value;
    SizeAgrees(|raw|, ins.rest);
    var outCount := ReadCompactSize(ins.rest).value;
    OutputsAgree(|raw|, outWithin, outCount.rest, outCount.value);
    var outs := ReadMany(ReadOutput, outCount.rest, outCount.value).value;
    if segwit {
      StacksAgree(|raw|);
      ManyFollows(ReadStack, stackWithin, |raw|, outs.rest, n.value);
      var stacks := ReadMany(ReadStack, outs.rest, n.value).value;
      ReadManyLength(ReadInput, n.rest, n.value);
      ReadManyLength(ReadStack, outs.rest, n.value);
      FinishSound(version, WithStacks(ins.value, stacks.value), outs.value, stacks.rest);
      FinishAgrees(version, WithStacks(ins.value, stacks.value), outs.value, stacks.rest, raw);
    } else {
      FinishSound(version, ins.value, outs.value, outs.rest);
      FinishAgrees(version, ins.value, outs.value, outs.rest, raw);
    }
  }

  /**
   * The single-key decoder accepts exactly the strings of at most 400,000 bytes that the HD
   * decoder reads directly (not as a template) within the money limits, and to the same fields.
   */
  lemma DecodersAgree(raw: bytes)
    ensures ParseSingleKey(raw).Ok? <==>
            |raw| <= 400_000 && ParseAs(raw, false).Ok? && WithinMoney(ParseAs(raw, false).value.outputs)
    ensures ParseSingleKey(raw).Ok? ==> Parse(raw) == ParseSingleKey(raw)
  {
    if ParseSingleKey(raw).Ok? {
      SingleKeyIsHd(raw);
    } else if |raw| <= MAX_RAW_BYTES && ParseAs(raw, false).Ok? && WithinMoney(ParseAs(raw, false).value.outputs) {
      HdIsSingleKey(raw);
    }
  }

  /** Within the money range: every output, and their sum, is at most 21 million coins of 100 million satoshis. */
  lemma WithinMoneyExactly(outputs: seq<TxOutput>)
    ensures WithinMoney(outputs) <==>
      (forall o :: o in outputs ==> o.value <= 2_100_000_000_000_000) && OutputTotal(outputs) <= 2_100_000_000_000_000
  {
  }

  lemma SingleKeyIsHd(raw: bytes)
    requires ParseSingleKey(raw).Ok?
    ensures ParseAs(raw, false) == ParseSingleKey(raw) && WithinMoney(ParseSingleKey(raw).value.outputs)
  {
    var head := raw[4..];
    if 2 <= |head| && head[..2] == MARKER {
      assert head == MARKER + head[2..];
      SingleKeyBodyIsHd(raw, head[2..], true);
      var n := ReadCompactSize(head[2..]).value;
      assert raw == raw[..4] + (MARKER + head[2..]);
      ParseAsAtVersion(raw, head[2..], n.value, n.rest, true);
    } else {
      assert head == [] + head;
      SingleKeyBodyIsHd(raw, head, false);
      var n := ReadCompactSize(head).value;
      ParseAsAtVersion(raw, head, n.value, n.rest, false);
    }
  }

  lemma ParseAsAtVersion(raw: bytes, data: bytes, count: nat, rest: bytes, segwit: bool)
    requires AfterVersion(raw, data, segwit) && ReadCompactSize(data) == Ok(Parsed(count, rest)) && count > 0
    ensures ParseAs(raw, false) == ParseBody(FromLEInt32(raw[..4]), rest, count, segwit)
  {
    Int32RoundTrip(0, raw[..4]);
    ParseAsAfterVersion(FromLEInt32(raw[..4]), data, count, rest);
    hide ParseAs, ReadCompactSize, ParseBody, FromLEInt32, LEInt32;
    assert raw == raw[..4] + raw[4..];
    assert !segwit ==> raw[4..] == data;
  }

  lemma HdIsSingleKey(raw: bytes)
    requires |raw| <= MAX_RAW_BYTES && ParseAs(raw, false).Ok? && WithinMoney(ParseAs(raw, false).value.outputs)
    ensures ParseSingleKey(raw) == ParseAs(raw, false)
  {
    hide ReadCompactSize, ParseBody, FromLEInt32, Print, ParseBodyWithin, ParseAs, WfTx, WithinMoney, HasWitness;
    ParseAsPath(raw, false);
    var head := raw[4..];
    var count := ReadCompactSize(head).value;
    SizePrefix(head);
    if count.value == 0 {
      var data := count.rest[1..];
      assert head == MARKER + data && head[..2] == MARKER && head[2..] == data;
      BodyPrintsBack(raw, data, true);
      ParseAsSound(raw, false);
      HdBodyIsSingleKey(raw, data, true);
    } else {
      assert head == [] + head;
      HdBodyIsSingleKey(raw, head, false);
    }
  }

  lemma SizePrefix(data: bytes)
    requires ReadCompactSize(data).Ok?
    ensures var n := ReadCompactSize(data).value;
      |data| >= 1 && (data[0] == 0 <==> n.value == 0) && (n.value == 0 ==> n.rest == data[1..])
  {
    hide FromLE;
  }

  /** The single-key decoder inverts its printer on all that fits its limits. */
  lemma ParseSingleKeyOfPrint(t: Transaction)
    requires WfTx(t) && t.inputs != [] && WithinMoney(t.outputs) && |Print(t, true)| <= MAX_RAW_BYTES
    ensures ParseSingleKey(Print(t, true)) == Ok(t)
  {
    ParseAsOfPrint(t);
    DecodersAgree(Print(t, true));
  }
}
