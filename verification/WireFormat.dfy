/**
 * The wire format of transactions stated position by position (BIP 144, "Serialization"), and that the
 * printers produce exactly it and the parsers read exactly it.
 */
module WireFormat {
  import opened Wrappers
  import opened Bytes
  import opened Transactions
  import opened Codec

  // ----- What stands where -----

  /** Byte `k` of `n`, counted from the least significant one; of a negative number in two's complement. */
  function Byte(n: int, k: nat): byte {
    n / Pow256(k) % 256
  }

  /** The low `width` bytes of `n` stand at `at`, least significant first. */
  predicate NumberAt(s: bytes, at: nat, n: int, width: nat) {
    at + width <= |s| && forall k :: 0 <= k < width ==> s[at + k] == Byte(n, k)
  }

  predicate BytesAt(s: bytes, at: nat, b: bytes) {
    at + |b| <= |s| && forall k :: 0 <= k < |b| ==> s[at + k] == b[k]
  }

  /** An id in display order stands at `at`, last byte first. */
  predicate IdAt(s: bytes, at: nat, id: bytes) {
    at + |id| <= |s| && forall k :: 0 <= k < |id| ==> id[k] == s[at + |id| - 1 - k]
  }

  function SizeWidth(n: nat): nat {
    if n < 253 then 1 else if n < 0x1_0000 then 3 else if n < 0x1_0000_0000 then 5 else 9
  }

  /** A CompactSize: one byte, or one of three prefixes and as many bytes as needed. */
  predicate SizeAt(s: bytes, at: nat, n: nat) {
    && at + SizeWidth(n) <= |s|
    && if n < 253 then s[at] == n
       else s[at] == (if n < 0x1_0000 then 253 else if n < 0x1_0000_0000 then 254 else 255) && NumberAt(s, at + 1, n, SizeWidth(n) - 1)
  }

  function VarWidth(b: bytes): nat {
    SizeWidth(|b|) + |b|
  }

  predicate VarAt(s: bytes, at: nat, b: bytes) {
    SizeAt(s, at, |b|) && BytesAt(s, at + SizeWidth(|b|), b)
  }

  predicate OutpointAt(s: bytes, at: nat, i: TxInput) {
    IdAt(s, at, i.txid) && NumberAt(s, at + |i.txid|, i.vout, 4)
  }

  predicate InputAt(s: bytes, at: nat, i: TxInput) {
    var script := at + |i.txid| + 4;
    OutpointAt(s, at, i) && VarAt(s, script, i.scriptSig) && NumberAt(s, script + VarWidth(i.scriptSig), i.sequence, 4)
  }

  function InputWidth(i: TxInput): nat {
    |i.txid| + 8 + VarWidth(i.scriptSig)
  }

  predicate OutputAt(s: bytes, at: nat, o: TxOutput) {
    NumberAt(s, at, o.value, 8) && VarAt(s, at + 8, o.script)
  }

  function OutputWidth(o: TxOutput): nat {
    8 + VarWidth(o.script)
  }

  /** One after the other, each as wide as `width` says. */
  ghost predicate ManyAt<T>(at1: (bytes, nat, T) -> bool, width: T -> nat, s: bytes, at: nat, xs: seq<T>)
    decreases |xs|
  {
    xs == [] || (at1(s, at, xs[0]) && ManyAt(at1, width, s, at + width(xs[0]), xs[1..]))
  }

  ghost function ManyWidth<T>(width: T -> nat, xs: seq<T>): nat {
    if xs == [] then 0 else width(xs[0]) + ManyWidth(width, xs[1..])
  }

  ghost predicate StackAt(s: bytes, at: nat, items: seq<bytes>) {
    SizeAt(s, at, |items|) && ManyAt(VarAt, VarWidth, s, at + SizeWidth(|items|), items)
  }

  ghost function StackWidth(items: seq<bytes>): nat {
    SizeWidth(|items|) + ManyWidth(VarWidth, items)
  }

  /** The fields of a transaction in the order of BIP 144, from the first byte of `s` to the last. */
  ghost predicate LaidOut(s: bytes, t: Transaction, segwit: bool) {
    var ins := if segwit then 6 else 4;
    var inputs := ins + SizeWidth(|t.inputs|);
    var outs := inputs + ManyWidth(InputWidth, t.inputs);
    var outputs := outs + SizeWidth(|t.outputs|);
    var stacks := outputs + ManyWidth(OutputWidth, t.outputs);
    var lock := stacks + if segwit then ManyWidth(StackWidth, Stacks(t.inputs)) else 0;
    && NumberAt(s, 0, t.version, 4) && (segwit ==> BytesAt(s, 4, [0, 1]))
    && SizeAt(s, ins, |t.inputs|) && ManyAt(InputAt, InputWidth, s, inputs, t.inputs)
    && SizeAt(s, outs, |t.outputs|) && ManyAt(OutputAt, OutputWidth, s, outputs, t.outputs)
    && (segwit ==> ManyAt(StackAt, StackWidth, s, stacks, Stacks(t.inputs)))
    && NumberAt(s, lock, t.locktime, 4) && |s| == lock + 4
  }

  // ----- Each printer writes what should stand there -----

  lemma MulAtMost(a: int, b: int, k: nat)
    requires a <= b
    ensures a * k <= b * k
  {
  }

  lemma QuotientIs(n: nat, d: nat, q: nat, r: nat)
    requires n == q * d + r && r < d
    ensures n / d == q
  {
    var q', r' := n / d, n % d;
    assert n == q' * d + r';
    if q < q' {
      MulAtMost(q + 1, q', d);
    } else if q > q' {
      MulAtMost(q' + 1, q, d);
    }
  }

  lemma DivTwice(n: nat, b: nat)
    requires b > 0
    ensures n / 256 / b == n / (256 * b)
  {
    var m := n / 256;
    var q, u, r := m / b, m % b, n % 256;
    assert m == q * b + u;
    assert 256 * (q * b) == q * (256 * b);
    QuotientIs(n, 256 * b, q, 256 * u + r);
  }

  lemma {:induction false} LEDigit(n: nat, width: nat, k: nat)
    requires k < width
    ensures LE(n, width)[k] == Byte(n, k)
  {
    if k > 0 {
      LEDigit(n / 256, width - 1, k - 1);
      DivTwice(n, Pow256(k - 1));
      assert LE(n, width)[k] == LE(n / 256, width - 1)[k - 1];
    }
  }

  lemma Shift(v: int, d: int, q: int)
    requires d > 0
    ensures (v + q * d) / d == v / d + q
  {
    var a, r := v / d, v % d;
    assert v == a * d + r && v + q * d == (a + q) * d + r;
    var a' := (v + q * d) / d;
    if a' < a + q {
      MulAtMost(a' + 1, a + q, d);
    } else if a' > a + q {
      MulAtMost(a + q + 1, a', d);
    }
  }

  /** Adding 2^32 does not change the low four bytes. */
  lemma TwosComplement(v: int, k: nat)
    requires k < 4
    ensures Byte(v + 0x1_0000_0000, k) == Byte(v, k)
  {
    assert Pow256(0) == 1 && Pow256(1) == 0x100 && Pow256(2) == 0x1_0000 && Pow256(3) == 0x100_0000 by {
      PowConstants();
      assert Pow256(3) == 256 * Pow256(2);
    }
    var q := if k == 0 then 0x1_0000_0000 else if k == 1 then 0x100_0000 else if k == 2 then 0x1_0000 else 0x100;
    var d := if k == 0 then 1 else if k == 1 then 0x100 else if k == 2 then 0x1_0000 else 0x100_0000;
    Shift(v, d, q);
    LowByte(v / d, q / 256);
  }

  lemma LowByte(n: int, m: int)
    ensures (n + 256 * m) % 256 == n % 256
  {
  }

  lemma NumberPrinted(s: bytes, at: nat, n: nat, width: nat)
    ensures NumberAt(s, at, n, width) <==> BytesAt(s, at, LE(n, width))
  {
    hide Byte;
    forall k | 0 <= k < width ensures LE(n, width)[k] == Byte(n, k) {
      LEDigit(n, width, k);
    }
    hide LE;
    assert BytesAt(s, at, LE(n, width)) ==> forall k :: 0 <= k < width ==> s[at + k] == LE(n, width)[k];
  }

  lemma VersionPrinted(s: bytes, at: nat, v: int)
    requires -0x8000_0000 <= v < 0x8000_0000
    ensures NumberAt(s, at, v, 4) <==> BytesAt(s, at, LEInt32(v))
  {
    var n: nat := if v < 0 then v + 0x1_0000_0000 else v;
    NumberPrinted(s, at, n, 4);
    assert LEInt32(v) == LE(n, 4);
    hide Byte, LE, LEInt32, BytesAt;
    forall k | 0 <= k < 4 ensures Byte(n, k) == Byte(v, k) {
      TwosComplement(v, k);
    }
  }

  lemma BytesAtAppend(s: bytes, at: nat, a: bytes, b: bytes)
    ensures BytesAt(s, at, a + b) <==> BytesAt(s, at, a) && BytesAt(s, at + |a|, b)
  {
    if BytesAt(s, at, a + b) {
      forall k | 0 <= k < |a| ensures s[at + k] == a[k] {
        assert (a + b)[k] == a[k];
      }
      forall k | 0 <= k < |b| ensures s[at + |a| + k] == b[k] {
        assert s[at + (|a| + k)] == (a + b)[|a| + k] == b[k];
      }
    }
    if BytesAt(s, at, a) && BytesAt(s, at + |a|, b) {
      forall k | 0 <= k < |a + b| ensures s[at + k] == (a + b)[k] {
        if k >= |a| {
          assert s[at + |a| + (k - |a|)] == b[k - |a|];
        }
      }
    }
  }

  lemma IdPrinted(s: bytes, at: nat, id: bytes)
    ensures IdAt(s, at, id) <==> BytesAt(s, at, Reverse(id))
  {
    var r, n := Reverse(id), |id|;
    if IdAt(s, at, id) {
      forall k | 0 <= k < n ensures s[at + k] == r[k] {
        assert id[n - 1 - k] == s[at + n - 1 - (n - 1 - k)];
      }
    }
    if BytesAt(s, at, r) {
      forall k | 0 <= k < n ensures id[k] == s[at + n - 1 - k] {
        assert s[at + (n - 1 - k)] == r[n - 1 - k];
      }
    }
  }

  lemma OneByteAt(s: bytes, at: nat, b: byte)
    ensures BytesAt(s, at, [b]) <==> at < |s| && s[at] == b
  {
    if BytesAt(s, at, [b]) {
      assert s[at + 0] == [b][0];
    }
  }

  lemma SizePrinted(s: bytes, at: nat, n: nat)
    ensures |CompactSize(n)| == SizeWidth(n)
    ensures SizeAt(s, at, n) <==> BytesAt(s, at, CompactSize(n))
  {
    var width := SizeWidth(n) - 1;
    hide LE, NumberAt;
    if n < 253 {
      assert CompactSize(n) == [n];
      OneByteAt(s, at, n);
    } else {
      var prefix: bytes := [if n < 0x1_0000 then 253 else if n < 0x1_0000_0000 then 254 else 255];
      assert CompactSize(n) == prefix + LE(n, width);
      hide CompactSize;
      BytesAtAppend(s, at, prefix, LE(n, width));
      NumberPrinted(s, at + 1, n, width);
      OneByteAt(s, at, prefix[0]);
      hide BytesAt;
    }
  }

  lemma VarPrinted(s: bytes, at: nat, b: bytes)
    ensures |VarBytes(b)| == VarWidth(b)
    ensures VarAt(s, at, b) <==> BytesAt(s, at, VarBytes(b))
  {
    SizePrinted(s, at, |b|);
    BytesAtAppend(s, at, CompactSize(|b|), b);
  }

  lemma OutpointPrinted(s: bytes, at: nat, i: TxInput)
    ensures |PrintOutpoint(i)| == |i.txid| + 4
    ensures OutpointAt(s, at, i) <==> BytesAt(s, at, PrintOutpoint(i))
  {
    IdPrinted(s, at, i.txid);
    NumberPrinted(s, at + |i.txid|, i.vout, 4);
    hide LE, Reverse, NumberAt, IdAt, BytesAt;
    BytesAtAppend(s, at, Reverse(i.txid), LE(i.vout, 4));
  }

  lemma InputPrinted(s: bytes, at: nat, i: TxInput)
    ensures |PrintInput(i)| == InputWidth(i)
    ensures InputAt(s, at, i) <==> BytesAt(s, at, PrintInput(i))
  {
    var script := at + |i.txid| + 4;
    OutpointPrinted(s, at, i);
    VarPrinted(s, script, i.scriptSig);
    NumberPrinted(s, script + VarWidth(i.scriptSig), i.sequence, 4);
    hide LE, PrintOutpoint, VarBytes, NumberAt, OutpointAt, VarAt, BytesAt, VarWidth;
    BytesAtAppend(s, at, PrintOutpoint(i) + VarBytes(i.scriptSig), LE(i.sequence, 4));
    BytesAtAppend(s, at, PrintOutpoint(i), VarBytes(i.scriptSig));
  }

  lemma OutputPrinted(s: bytes, at: nat, o: TxOutput)
    ensures |PrintOutput(o)| == OutputWidth(o)
    ensures OutputAt(s, at, o) <==> BytesAt(s, at, PrintOutput(o))
  {
    NumberPrinted(s, at, o.value, 8);
    VarPrinted(s, at + 8, o.script);
    hide LE, VarBytes, NumberAt, VarAt, BytesAt, VarWidth;
    BytesAtAppend(s, at, LE(o.value, 8), VarBytes(o.script));
  }

  lemma {:induction false} ManyPrinted<T>(at1: (bytes, nat, T) -> bool, width: T -> nat, print1: T -> bytes, s: bytes, at: nat, xs: seq<T>)
    requires forall x :: x in xs ==> |print1(x)| == width(x)
    requires forall a: nat, x :: x in xs ==> (at1(s, a, x) <==> BytesAt(s, a, print1(x)))
    ensures |PrintMany(print1, xs)| == ManyWidth(width, xs)
    ensures at <= |s| ==> (ManyAt(at1, width, s, at, xs) <==> BytesAt(s, at, PrintMany(print1, xs)))
    decreases |xs|
  {
    if xs == [] {
      assert BytesAt(s, at, []) <==> at <= |s|;
    } else {
      var x, rest := xs[0], xs[1..];
      var next := at + width(x);
      assert x in xs && forall y :: y in rest ==> y in xs;
      assert forall a: nat, y :: y in rest ==> (at1(s, a, y) <==> BytesAt(s, a, print1(y)));
      ManyPrinted(at1, width, print1, s, next, rest);
      BytesAtAppend(s, at, print1(x), PrintMany(print1, rest));
      BytesAtFits(s, at, print1(x));
      hide BytesAt;
      assert at1(s, at, x) <==> BytesAt(s, at, print1(x));
      assert PrintMany(print1, xs) == print1(x) + PrintMany(print1, rest);
      assert ManyAt(at1, width, s, at, xs) <==> at1(s, at, x) && ManyAt(at1, width, s, next, rest);
    }
  }

  lemma BytesAtFits(s: bytes, at: nat, b: bytes)
    ensures BytesAt(s, at, b) ==> at + |b| <= |s|
  {
  }


  lemma StackPrinted(s: bytes, at: nat, items: seq<bytes>)
    ensures |PrintStack(items)| == StackWidth(items)
    ensures StackAt(s, at, items) <==> BytesAt(s, at, PrintStack(items))
  {
    var next := at + SizeWidth(|items|);
    SizePrinted(s, at, |items|);
    forall x | x in items ensures |VarBytes(x)| == VarWidth(x) {
      VarPrinted(s, 0, x);
    }
    forall a: nat, x | x in items ensures VarAt(s, a, x) <==> BytesAt(s, a, VarBytes(x)) {
      VarPrinted(s, a, x);
    }
    ManyPrinted(VarAt, VarWidth, VarBytes, s, next, items);
    BytesAtAppend(s, at, CompactSize(|items|), PrintMany(VarBytes, items));
    BytesAtFits(s, at, CompactSize(|items|));
    hide BytesAt, SizeAt, CompactSize, ManyAt, PrintMany;
    assert BytesAt(s, next, PrintMany(VarBytes, items)) ==> next <= |s| by { BytesAtFits(s, next, PrintMany(VarBytes, items)); }
  }

  lemma InputsPrinted(s: bytes, at: nat, inputs: seq<TxInput>)
    ensures |PrintMany(PrintInput, inputs)| == ManyWidth(InputWidth, inputs)
    ensures at <= |s| ==> (ManyAt(InputAt, InputWidth, s, at, inputs) <==> BytesAt(s, at, PrintMany(PrintInput, inputs)))
  {
    hide InputAt, InputWidth, PrintInput, BytesAt;
    forall a: nat, x | x in inputs ensures |PrintInput(x)| == InputWidth(x) && (InputAt(s, a, x) <==> BytesAt(s, a, PrintInput(x))) {
      InputPrinted(s, a, x);
    }
    forall x | x in inputs ensures |PrintInput(x)| == InputWidth(x) {
      InputPrinted(s, 0, x);
    }
    ManyPrinted(InputAt, InputWidth, PrintInput, s, at, inputs);
  }

  lemma OutputsPrinted(s: bytes, at: nat, outputs: seq<TxOutput>)
    ensures |PrintMany(PrintOutput, outputs)| == ManyWidth(OutputWidth, outputs)
    ensures at <= |s| ==> (ManyAt(OutputAt, OutputWidth, s, at, outputs) <==> BytesAt(s, at, PrintMany(PrintOutput, outputs)))
  {
    hide OutputAt, OutputWidth, PrintOutput, BytesAt;
    forall a: nat, x | x in outputs ensures OutputAt(s, a, x) <==> BytesAt(s, a, PrintOutput(x)) {
      OutputPrinted(s, a, x);
    }
    forall x | x in outputs ensures |PrintOutput(x)| == OutputWidth(x) {
      OutputPrinted(s, 0, x);
    }
    ManyPrinted(OutputAt, OutputWidth, PrintOutput, s, at, outputs);
  }

  lemma StacksPrinted(s: bytes, at: nat, stacks: seq<seq<bytes>>)
    ensures |PrintMany(PrintStack, stacks)| == ManyWidth(StackWidth, stacks)
    ensures at <= |s| ==> (ManyAt(StackAt, StackWidth, s, at, stacks) <==> BytesAt(s, at, PrintMany(PrintStack, stacks)))
  {
    hide StackAt, StackWidth, PrintStack, BytesAt;
    forall a: nat, x | x in stacks ensures StackAt(s, a, x) <==> BytesAt(s, a, PrintStack(x)) {
      StackPrinted(s, a, x);
    }
    forall x | x in stacks ensures |PrintStack(x)| == StackWidth(x) {
      StackPrinted(s, 0, x);
    }
    ManyPrinted(StackAt, StackWidth, PrintStack, s, at, stacks);
  }

  lemma BodyPrinted(s: bytes, at: nat, t: Transaction)
    ensures |PrintBody(t.inputs, t.outputs)| ==
      SizeWidth(|t.inputs|) + ManyWidth(InputWidth, t.inputs) + SizeWidth(|t.outputs|) + ManyWidth(OutputWidth, t.outputs)
    ensures
      var inputs := at + SizeWidth(|t.inputs|);
      var outs := inputs + ManyWidth(InputWidth, t.inputs);
      var outputs := outs + SizeWidth(|t.outputs|);
      BytesAt(s, at, PrintBody(t.inputs, t.outputs)) <==>
        && SizeAt(s, at, |t.inputs|) && ManyAt(InputAt, InputWidth, s, inputs, t.inputs)
        && SizeAt(s, outs, |t.outputs|) && ManyAt(OutputAt, OutputWidth, s, outputs, t.outputs)
  {
    hide InputAt, InputWidth, OutputAt, OutputWidth, PrintInput, PrintOutput, BytesAt, SizeAt, CompactSize, ManyAt, ManyWidth, PrintMany;
    var a, b, c, d := CompactSize(|t.inputs|), PrintMany(PrintInput, t.inputs), CompactSize(|t.outputs|), PrintMany(PrintOutput, t.outputs);
    var inputs := at + |a|;
    var outs := inputs + |b|;
    var outputs := outs + |c|;
    SizePrinted(s, at, |t.inputs|);
    SizePrinted(s, outs, |t.outputs|);
    InputsPrinted(s, inputs, t.inputs);
    OutputsPrinted(s, outputs, t.outputs);
    BytesAtAppend(s, at, a + b, c + d);
    BytesAtAppend(s, at, a, b);
    BytesAtAppend(s, outs, c, d);
    BytesAtFits(s, at, a);
    BytesAtFits(s, outs, c);
    BytesAtFits(s, inputs, b);
    BytesAtFits(s, outputs, d);
  }

  lemma WholeIsAt(s: bytes, b: bytes)
    ensures s == b <==> BytesAt(s, 0, b) && |s| == |b|
  {
    if BytesAt(s, 0, b) && |s| == |b| {
      forall k | 0 <= k < |s| ensures s[k] == b[k] {
        assert s[0 + k] == b[k];
      }
    }
  }

  /** The legacy form is printed exactly as laid out, and no other string is laid out so. */
  lemma LegacyLaidOut(s: bytes, t: Transaction)
    requires WfHeader(t.version, t.locktime)
    ensures LaidOut(s, t, false) <==> s == Print(t, false)
  {
    hide LEInt32, LE, PrintBody, BytesAt, NumberAt, SizeAt, ManyAt, ManyWidth, HasWitness;
    var body := PrintBody(t.inputs, t.outputs);
    var lock := 4 + |body|;
    WholeIsAt(s, Print(t, false));
    VersionPrinted(s, 0, t.version);
    BodyPrinted(s, 4, t);
    NumberPrinted(s, lock, t.locktime, 4);
    BytesAtAppend(s, 0, LEInt32(t.version), body + LE(t.locktime, 4));
    BytesAtAppend(s, 4, body, LE(t.locktime, 4));
  }

  lemma SegwitLaidOut(s: bytes, t: Transaction)
    requires WfHeader(t.version, t.locktime) && HasWitness(t.inputs)
    ensures LaidOut(s, t, true) <==> s == Print(t, true)
  {
    hide LEInt32, LE, PrintBody, BytesAt, NumberAt, SizeAt, ManyAt, ManyWidth, HasWitness;
    var body, stacks := PrintBody(t.inputs, t.outputs), PrintMany(PrintStack, Stacks(t.inputs));
    hide PrintMany;
    var lock := 6 + |body| + |stacks|;
    WholeIsAt(s, Print(t, true));
    VersionPrinted(s, 0, t.version);
    BodyPrinted(s, 6, t);
    StacksPrinted(s, 6 + |body|, Stacks(t.inputs));
    NumberPrinted(s, lock, t.locktime, 4);
    BytesAtAppend(s, 0, LEInt32(t.version), MARKER + (body + (stacks + LE(t.locktime, 4))));
    BytesAtAppend(s, 4, MARKER, body + (stacks + LE(t.locktime, 4)));
    BytesAtAppend(s, 6, body, stacks + LE(t.locktime, 4));
    BytesAtAppend(s, 6 + |body|, stacks, LE(t.locktime, 4));
    BytesAtFits(s, 6, body);
  }

  /** The printer writes exactly the layout of BIP 144, with the witness if it is asked for and there is one. */
  lemma PrintIsLaidOut(s: bytes, t: Transaction, includeWitness: bool)
    requires WfHeader(t.version, t.locktime)
    ensures s == Print(t, includeWitness) <==> LaidOut(s, t, includeWitness && HasWitness(t.inputs))
  {
    hide LaidOut, PrintBody, LEInt32, LE;
    if includeWitness && HasWitness(t.inputs) {
      SegwitLaidOut(s, t);
    } else {
      LegacyLaidOut(s, t);
    }
  }

  /** The parser reads exactly that layout: what it accepts stands there, and what stands there it accepts. */
  lemma ParseReadsLayout(s: bytes, t: Transaction)
    requires t.inputs != []
    ensures Parse(s) == Ok(t) <==> WfTx(t) && LaidOut(s, t, HasWitness(t.inputs))
  {
    hide Parse, Print, LaidOut, WfTx, DistinctOutpoints, HasWitness;
    if Parse(s) == Ok(t) {
      PrintOfParse(s);
      HeaderOfWf(t);
      PrintIsLaidOut(s, t, true);
    }
    if WfTx(t) && LaidOut(s, t, HasWitness(t.inputs)) {
      HeaderOfWf(t);
      PrintIsLaidOut(s, t, true);
      ParseOfPrint(t);
    }
  }

  lemma HeaderOfWf(t: Transaction)
    ensures WfTx(t) ==> WfHeader(t.version, t.locktime)
  {
  }

  /** Where the first input begins: after the version, the marker if there is one, and the count. */
  function FirstInput(t: Transaction): nat {
    (if HasWitness(t.inputs) then 6 else 4) + SizeWidth(|t.inputs|)
  }

  lemma FirstInputLaidOut(s: bytes, t: Transaction)
    requires t.inputs != [] && WfTx(t) && LaidOut(s, t, HasWitness(t.inputs))
    ensures |t.inputs[0].txid| == 32 && InputAt(s, FirstInput(t), t.inputs[0])
  {
    hide HasWitness, DistinctOutpoints, ManyWidth, StackAt, OutputAt, InputAt, SizeAt, NumberAt, BytesAt;
    assert WfInput(t.inputs[0]);
  }

  /** In particular the parser takes the id of the first input from its 32 bytes in reverse. */
  lemma FirstIdOnWire(s: bytes, t: Transaction)
    requires Parse(s) == Ok(t) && t.inputs != []
    ensures
      var at, id := FirstInput(t), t.inputs[0].txid;
      |id| == 32 && at + 32 <= |s| && forall k :: 0 <= k < 32 ==> id[k] == s[at + 31 - k]
  {
    hide Parse, LaidOut, HasWitness, WfTx, ManyWidth, VarAt, SizeAt, NumberAt;
    ParseReadsLayout(s, t);
    FirstInputLaidOut(s, t);
  }
}
