/**
 * Unsigned templates without inputs: their zero count byte looks like the SegWit marker
 * (`tx/codec.py`, the retry in `deserialize_transaction`).
 */
module Templates {
  import opened Wrappers
  import opened Bytes
  import opened Transactions
  import opened Codec

  /** A template always has a legacy reading, and it is the template. */
  lemma LegacyReadsTemplate(t: Transaction)
    requires WfTx(t) && t.inputs == []
    ensures ParseAs(Print(t, true), true) == Ok(t)
    ensures |Print(t, true)| >= 10 && Print(t, true)[4] == 0
  {
    Int32RoundTrip(t.version, LEInt32(t.version));
    var data := Print(t, true);
    assert data[4..] == PrintBody(t.inputs, t.outputs) + LE(t.locktime, 4);
    TakeFirst(LEInt32(t.version), data[4..]);
    ParseBodyOfPrint(t);
  }

  /** Other than one output: the flag byte is wrong, so the SegWit reading fails. */
  lemma SegwitFlagRefused(t: Transaction)
    requires WfTx(t) && t.inputs == [] && |t.outputs| != 1
    ensures ParseAs(Print(t, true), false).Err?
  {
    var data := Print(t, true);
    TakeFirst(LEInt32(t.version), data[4..]);
    CompactSizeFirst(|t.outputs|);
    var tail := PrintMany(PrintOutput, t.outputs) + LE(t.locktime, 4);
    assert data[4..] == CompactSize(0) + (CompactSize(|t.outputs|) + tail);
    ReadCompactSizeOfPrint(0, CompactSize(|t.outputs|) + tail);
    assert (CompactSize(|t.outputs|) + tail)[0] == CompactSize(|t.outputs|)[0];
  }

  /** A printed input takes 41 bytes or more, and a printed item at least one. */
  lemma {:induction false} PrintManyLength<T>(print1: T -> bytes, xs: seq<T>, least: nat)
    requires forall k :: 0 <= k < |xs| ==> |print1(xs[k])| >= least
    ensures |PrintMany(print1, xs)| >= least * |xs|
  {
    if xs != [] {
      PrintManyLength(print1, xs[1..], least);
    }
  }

  /** Each input costs 41 bytes and a stack count, and one stack has an item. */
  lemma SegwitLength(t: Transaction)
    requires WfTx(t) && HasWitness(t.inputs)
    ensures |Print(t, true)| >= 13 + 42 * |t.inputs|
  {
    hide PrintMany, LE, LEInt32, CompactSize, DistinctOutpoints;
    var k :| 0 <= k < |t.inputs| && t.inputs[k].stack != [];
    PrintManyLength(PrintInput, t.inputs, 41);
    StackPrinted(Stacks(t.inputs), k);
    assert |PrintBody(t.inputs, t.outputs)| >= 2 + 41 * |t.inputs|;
  }

  /** Every stack costs its count byte, and a nonempty one a length byte more. */
  lemma {:induction false} StackPrinted(stacks: seq<seq<bytes>>, k: nat)
    requires k < |stacks| && stacks[k] != []
    ensures |PrintMany(PrintStack, stacks)| >= |stacks| + 1
  {
    hide CompactSize;
    if k > 0 {
      StackPrinted(stacks[1..], k - 1);
    } else {
      PrintManyLength(PrintStack, stacks[1..], 1);
      assert |PrintMany(VarBytes, stacks[0])| >= |VarBytes(stacks[0][0])|;
    }
  }

  /** The first byte of a count never exceeds the count. */
  lemma CompactSizeAtLeastFirst(n: nat)
    ensures CompactSize(n)[0] <= n
  {
  }

  /** The byte where a SegWit reading would find its input count: the low byte of the first output's value. */
  function CountByte(t: Transaction): nat
    requires |t.outputs| == 1
  {
    t.outputs[0].value % 256
  }

  /** The template is too short for a SegWit reading with that many inputs, or that reading has none. */
  predicate TooShortForSegwit(t: Transaction)
    requires |t.outputs| == 1
  {
    var script := t.outputs[0].script;
    CountByte(t) == 0 || |VarBytes(script)| < 42 * CountByte(t) - 5
  }

  /** The count a SegWit reading of a one-output template would use, and the room it would have. */
  lemma TemplateLayout(t: Transaction)
    requires WfTx(t) && t.inputs == [] && |t.outputs| == 1
    ensures |Print(t, true)| == 18 + |VarBytes(t.outputs[0].script)| && Print(t, true)[6] == CountByte(t)
  {
    assert PrintMany(PrintOutput, t.outputs) == PrintOutput(t.outputs[0]);
    assert LE(t.outputs[0].value, 8)[0] == t.outputs[0].value % 256;
    hide LE, LEInt32;
  }

  lemma SegwitLayout(t: Transaction)
    requires WfTx(t) && HasWitness(t.inputs)
    ensures |Print(t, true)| >= 7 && Print(t, true)[6] == CompactSize(|t.inputs|)[0]
  {
    hide PrintMany, LE, LEInt32, CompactSize;
  }

  /**
   * A template reads back as itself when it has other than one output, or when the low byte of the
   * output's value calls for more inputs than the script leaves room for, or for none. For a low
   * byte of one these are the scripts of at most 35 bytes.
   */
  lemma ParseOfTemplate(t: Transaction)
    requires WfTx(t) && t.inputs == []
    requires |t.outputs| == 1 ==> TooShortForSegwit(t)
    ensures Parse(Print(t, true)) == Ok(t)
  {
    LegacyReadsTemplate(t);
    if |t.outputs| != 1 {
      SegwitFlagRefused(t);
    } else if ParseAs(Print(t, true), false).Ok? {
      ParseAsSound(Print(t, true), false);
      var other := ParseAs(Print(t, true), false).value;
      hide Print, CompactSize, VarBytes, ParseAs;
      ZeroByteIsMarker(other);
      TemplateLayout(t);
      SegwitLayout(other);
      SegwitLength(other);
      CompactSizeAtLeastFirst(|other.inputs|);
      CompactSizeFirst(|other.inputs|);
    }
  }

  /** In particular every template whose one script has at most 35 bytes. */
  lemma ShortTemplateParses(t: Transaction)
    requires WfTx(t) && t.inputs == [] && |t.outputs| == 1 && |t.outputs[0].script| <= 35
    ensures Parse(Print(t, true)) == Ok(t)
  {
    assert |VarBytes(t.outputs[0].script)| <= 36;
    ParseOfTemplate(t);
  }

  /**
   * In general a template reads back as itself exactly when the first, SegWit attempt at its bytes is
   * refused; and that is so exactly when no witnessed transaction prints alike.
   */
  lemma TemplateMisreadExactly(t: Transaction)
    requires WfTx(t) && t.inputs == []
    ensures Parse(Print(t, true)) == Ok(t) <==> ParseAs(Print(t, true), false).Err?
    ensures ParseAs(Print(t, true), false).Err? <==>
              !exists s :: WfTx(s) && HasWitness(s.inputs) && Print(s, true) == Print(t, true)
  {
    LegacyReadsTemplate(t);
    var data := Print(t, true);
    if ParseAs(data, false).Ok? {
      ParseAsSound(data, false);
      var s := ParseAs(data, false).value;
      ZeroByteIsMarker(s);
      assert WfTx(s) && HasWitness(s.inputs) && Print(s, true) == data;
    }
    forall s | WfTx(s) && HasWitness(s.inputs) && Print(s, true) == data
      ensures ParseAs(data, false) == Ok(s) && s != t
    {
      ParseAsOfPrint(s);
    }
  }

  lemma PrintWitnessed(version: int, i: TxInput, locktime: nat)
    requires WfHeader(version, locktime) && i.stack == [[]] && i.scriptSig == []
    ensures Print(Transaction(version, [i], [], locktime), true) ==
            LEInt32(version) + (MARKER + (([1] + (Reverse(i.txid) + LE(i.vout, 4) + [0] + LE(i.sequence, 4)) + [0]) + ([1, 0] + LE(locktime, 4))))
  {
    hide LE, LEInt32, Reverse;
    var s := Transaction(version, [i], [], locktime);
    assert s.inputs[0].stack != [];
    assert VarBytes([]) == [0];
    assert PrintMany(PrintInput, [i]) == PrintInput(i) == Reverse(i.txid) + LE(i.vout, 4) + [0] + LE(i.sequence, 4);
    assert PrintBody([i], []) == [1] + PrintInput(i) + [0];
    assert Stacks(s.inputs) == [[[]]];
    assert PrintMany(VarBytes, [[]]) == [0];
    assert PrintMany(PrintStack, [[[]]]) == [1, 0];
  }

  lemma PrintOneOutput(version: int, o: TxOutput, locktime: nat)
    requires WfHeader(version, locktime) && |o.script| < 253
    ensures Print(Transaction(version, [], [o], locktime), true) ==
            LEInt32(version) + ([0] + ([1] + (LE(o.value, 8) + ([|o.script|] + o.script))) + LE(locktime, 4))
  {
    hide LE, LEInt32;
    assert PrintMany(PrintOutput, [o]) == PrintOutput(o);
    assert PrintBody([], [o]) == [0] + ([1] + PrintOutput(o));
  }

  /** The same bytes grouped as a witnessed input and as one output. */
  lemma Regroup(a: bytes, n: byte, b: bytes, vout: bytes, sequence: bytes, lock: bytes)
    ensures MARKER + (([1] + ((a + [n] + b) + vout + [0] + sequence) + [0]) + ([1, 0] + lock))
         == [0] + ([1] + (([1] + a) + ([n] + (b + vout + [0] + sequence + [0] + [1, 0])))) + lock
  {
  }

  /** The bound is tight: with 36 bytes of script there are templates read as something else. */
  lemma MisreadTemplate(id: bytes, vout: nat, sequence: nat, version: int, locktime: nat)
    returns (t: Transaction, s: Transaction)
    requires |id| == 32 && Reverse(id)[7] == 36
    requires vout <= U32_MAX && sequence <= U32_MAX && WfHeader(version, locktime)
    ensures WfTx(t) && t.inputs == [] && |t.outputs| == 1 && |t.outputs[0].script| == 36
    ensures s != t && Parse(Print(t, true)) == Ok(s)
  {
    hide Print, PrintMany, PrintBody, LE, FromLE, LEInt32, Parse, Reverse, HasWitness;
    var i := TxInput(id, vout, sequence, [], [[]]);
    s := Transaction(version, [i], [], locktime);
    var wire := Reverse(id);
    var value := [1] + wire[..7];
    var script := wire[8..] + LE(vout, 4) + [0] + LE(sequence, 4) + [0] + [1, 0];
    LEOfFromLE(value);
    PowConstants();
    t := Transaction(version, [], [TxOutput(FromLE(value), script)], locktime);
    PrintWitnessed(version, i, locktime);
    PrintOneOutput(version, t.outputs[0], locktime);
    ParseOfPrint(s);
    assert wire == wire[..7] + [36] + wire[8..];
    Regroup(wire[..7], 36, wire[8..], LE(vout, 4), LE(sequence, 4), LE(locktime, 4));
  }
}
