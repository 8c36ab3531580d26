/** Transaction sizes (BIP 141, "Transaction size calculations"), their estimates and fees. */
module FeeEstimate {
  import opened Bytes
  import opened Transactions
  import opened Addresses

  // ----- Fees -----

  /** A fee rate in satoshis per virtual byte, as an exact fraction. */
  datatype Rate = Rate(num: nat, den: nat)

  predicate ValidRate(r: Rate) {
    0 < r.num && 0 < r.den && r.num <= 10_000 * r.den
  }

  /** `rate * vsize`, rounded up. */
  function Fee(vsize: nat, r: Rate): (fee: nat)
    requires 0 < r.den
  {
    (r.num * vsize + r.den - 1) / r.den
  }

  lemma DivBounds(a: nat, d: nat)
    requires 0 < d
    ensures d * (a / d) <= a < d * (a / d) + d
  {
  }

  lemma MulMonotone(a: int, b: int, k: nat)
    requires a <= b
    ensures k * a <= k * b
  {
  }

  lemma CeilingIsLeast(a: nat, d: nat, paid: nat)
    requires 0 < d
    ensures paid >= (a + d - 1) / d <==> d * paid >= a
  {
    var q := (a + d - 1) / d;
    DivBounds(a + d - 1, d);
    if paid >= q {
      MulMonotone(q, paid, d);
    } else {
      MulMonotone(paid, q - 1, d);
      assert d * (q - 1) == d * q - d;
    }
  }

  /** The fee is the least whole number of satoshis that pays the rate. */
  lemma FeeIsLeast(vsize: nat, r: Rate, paid: nat)
    requires 0 < r.den
    ensures paid >= Fee(vsize, r) <==> r.den * paid >= r.num * vsize
  {
    CeilingIsLeast(r.num * vsize, r.den, paid);
  }

  lemma FeeMonotone(a: nat, b: nat, r: Rate)
    requires 0 < r.den && a <= b
    ensures Fee(a, r) <= Fee(b, r)
  {
    FeeIsLeast(b, r, Fee(b, r));
    MulMonotone(a, b, r.num);
    FeeIsLeast(a, r, Fee(b, r));
  }

  // ----- Sizes -----

  /** A rate is allowed exactly when one virtual byte costs between 1 and 10,000 satoshis, rounded up. */
  lemma RateLimits(r: Rate)
    requires 0 < r.den
    ensures ValidRate(r) <==> 1 <= Fee(1, r) <= 10_000
  {
    FeeIsLeast(1, r, 0);
    FeeIsLeast(1, r, 10_000);
    hide Fee;
  }

  /** The stripped bytes three times, plus all bytes. */
  function Weight(t: Transaction): nat
    requires WfHeader(t.version, t.locktime)
  {
    3 * |Print(t, false)| + |Print(t, true)|
  }

  function VSize(t: Transaction): nat
    requires WfHeader(t.version, t.locktime)
  {
    (Weight(t) + 3) / 4
  }

  function OutputSize(o: TxOutput): (n: nat)
    ensures n == |PrintOutput(o)|
  {
    8 + |CompactSize(|o.script|)| + |o.script|
  }

  function OutputsSize(outputs: seq<TxOutput>): nat {
    if outputs == [] then 0 else OutputSize(outputs[0]) + OutputsSize(outputs[1..])
  }

  /** `estimate_signed_vsize` of the HD wallet. */
  function Estimate(count: nat, kind: AddressType, outputs: seq<TxOutput>): nat
    requires Spendable(kind)
  {
    if kind.P2PKH? then
      4 + |CompactSize(count)| + 149 * count + |CompactSize(|outputs|)| + OutputsSize(outputs) + 4
    else
      ((4 + |CompactSize(count)| + 41 * count + |CompactSize(|outputs|)| + OutputsSize(outputs) + 4) * 4 + (2 + 109 * count) + 3) / 4
  }

  /** The key forms the single-key wallet spends. */
  datatype SpendType = CompressedP2PKH | UncompressedP2PKH | NativeP2WPKH

  /** `estimate_signed_vsize` of the single-key wallet. */
  function SingleKeyEstimate(count: nat, kind: SpendType, outputs: seq<TxOutput>): nat {
    var overhead := 8 + |CompactSize(count)| + |CompactSize(|outputs|)|;
    if kind.NativeP2WPKH? then ((overhead + count * 41 + OutputsSize(outputs)) * 4 + 2 + 109 * count + 3) / 4
    else overhead + (if kind.UncompressedP2PKH? then 181 else 149) * count + OutputsSize(outputs)
  }

  // ----- The estimate bounds the signed size -----

  /** A signature with its type byte, and the public key, as an input of this kind carries them. */
  datatype Unlock = Unlock(signature: bytes, key: bytes)

  predicate WfUnlock(u: Unlock, kind: SpendType) {
    && |u.signature| <= 73
    && |u.key| == if kind.UncompressedP2PKH? then 65 else 33
  }

  /** The input carries the signature and key: pushed in its script, or as its witness stack. */
  predicate Carries(i: TxInput, u: Unlock, kind: SpendType) {
    if kind.NativeP2WPKH? then i.scriptSig == [] && i.stack == [u.signature, u.key]
    else i.stack == [] && |i.scriptSig| == 2 + |u.signature| + |u.key|
  }

  /** Every input is signed with one of these unlocking pairs. */
  ghost predicate SignedBy(inputs: seq<TxInput>, kind: SpendType) {
    forall k :: 0 <= k < |inputs| ==> SignedInput(inputs[k], kind)
  }

  ghost predicate SignedInput(i: TxInput, kind: SpendType) {
    |i.txid| == 32 && exists u :: WfUnlock(u, kind) && Carries(i, u, kind)
  }

  lemma {:induction false} OutputsPrintSize(outputs: seq<TxOutput>)
    ensures |PrintMany(PrintOutput, outputs)| == OutputsSize(outputs)
  {
    if outputs != [] {
      OutputsPrintSize(outputs[1..]);
    }
  }

  function InputBound(kind: SpendType): nat {
    if kind.NativeP2WPKH? then 41 else if kind.UncompressedP2PKH? then 181 else 149
  }

  lemma InputSize(i: TxInput, kind: SpendType)
    requires SignedInput(i, kind)
    ensures |PrintInput(i)| <= InputBound(kind)
    ensures kind.NativeP2WPKH? ==> |PrintStack(i.stack)| <= 109
  {
    hide LE;
    var u :| WfUnlock(u, kind) && Carries(i, u, kind);
    if kind.NativeP2WPKH? {
      assert i.stack[1..] == [u.key] && i.stack[1..][1..] == [];
      assert PrintMany(VarBytes, [u.key]) == VarBytes(u.key) + PrintMany(VarBytes, []);
    }
  }

  lemma {:induction false} InputsSize(inputs: seq<TxInput>, kind: SpendType)
    requires SignedBy(inputs, kind)
    ensures |PrintMany(PrintInput, inputs)| <= InputBound(kind) * |inputs|
    ensures kind.NativeP2WPKH? ==> |PrintMany(PrintStack, Stacks(inputs))| <= 109 * |inputs|
  {
    if inputs != [] {
      InputsSize(inputs[1..], kind);
      InputSize(inputs[0], kind);
      assert Stacks(inputs)[1..] == Stacks(inputs[1..]);
      hide SignedBy, SignedInput, PrintInput, PrintStack;
    }
  }

  /** BIP 141: the virtual size of a signed transaction never exceeds its estimate. */
  lemma EstimateBoundsSize(t: Transaction, kind: SpendType)
    requires WfHeader(t.version, t.locktime) && SignedBy(t.inputs, kind)
    ensures VSize(t) <= SingleKeyEstimate(|t.inputs|, kind, t.outputs)
  {
    InputsSize(t.inputs, kind);
    OutputsPrintSize(t.outputs);
    hide CompactSize, PrintMany, OutputsSize;
    assert |Print(t, false)| == 8 + |PrintBody(t.inputs, t.outputs)|;
    if !kind.NativeP2WPKH? {
      assert !HasWitness(t.inputs);
    }
  }

  /** The two wallets estimate the kinds they share alike. */
  lemma EstimatesAgree(count: nat, outputs: seq<TxOutput>)
    ensures Estimate(count, P2PKH, outputs) == SingleKeyEstimate(count, CompressedP2PKH, outputs)
    ensures Estimate(count, P2WPKH, outputs) == SingleKeyEstimate(count, NativeP2WPKH, outputs)
  {
    hide CompactSize, OutputsSize;
  }

  /** The estimate is attained: no smaller bound holds of every signed transaction of the kind. */
  lemma EstimateIsTight(t: Transaction, kind: SpendType, signature: bytes, key: bytes)
    requires WfHeader(t.version, t.locktime) && t.inputs != []
    requires |signature| == 73 && WfUnlock(Unlock(signature, key), kind)
    requires forall k :: 0 <= k < |t.inputs| ==> |t.inputs[k].txid| == 32 && Carries(t.inputs[k], Unlock(signature, key), kind)
    ensures VSize(t) == SingleKeyEstimate(|t.inputs|, kind, t.outputs)
  {
    ExactInputsSize(t.inputs, kind, signature, key);
    OutputsPrintSize(t.outputs);
    hide CompactSize, PrintMany, OutputsSize;
    assert |Print(t, false)| == 8 + |PrintBody(t.inputs, t.outputs)|;
    if !kind.NativeP2WPKH? {
      assert !HasWitness(t.inputs);
    } else {
      assert t.inputs[0].stack != [];
    }
  }

  lemma {:induction false} ExactInputsSize(inputs: seq<TxInput>, kind: SpendType, signature: bytes, key: bytes)
    requires |signature| == 73 && WfUnlock(Unlock(signature, key), kind)
    requires forall k :: 0 <= k < |inputs| ==> |inputs[k].txid| == 32 && Carries(inputs[k], Unlock(signature, key), kind)
    ensures |PrintMany(PrintInput, inputs)| == InputBound(kind) * |inputs|
    ensures kind.NativeP2WPKH? ==> |PrintMany(PrintStack, Stacks(inputs))| == 109 * |inputs|
  {
    if inputs != [] {
      ExactInputsSize(inputs[1..], kind, signature, key);
      ExactInputSize(inputs[0], kind, signature, key);
      assert Stacks(inputs)[1..] == Stacks(inputs[1..]);
      hide PrintInput, PrintStack;
    }
  }

  lemma ExactInputSize(i: TxInput, kind: SpendType, signature: bytes, key: bytes)
    requires |signature| == 73 && WfUnlock(Unlock(signature, key), kind) && |i.txid| == 32 && Carries(i, Unlock(signature, key), kind)
    ensures |PrintInput(i)| == InputBound(kind)
    ensures kind.NativeP2WPKH? ==> |PrintStack(i.stack)| == 109
  {
    hide LE;
    if kind.NativeP2WPKH? {
      assert i.stack[1..] == [key] && i.stack[1..][1..] == [];
      assert PrintMany(VarBytes, [key]) == VarBytes(key) + PrintMany(VarBytes, []);
    }
  }
}
