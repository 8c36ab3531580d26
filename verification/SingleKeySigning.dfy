/** Signing and verifying of the single-key wallet (`single_key_wallet/signing.py`), uncompressed keys included. */
module SingleKeySigning {
  import opened Wrappers
  import opened Bytes
  import opened Transactions
  import opened Addresses
  import opened Scripts
  import opened Sighash
  import opened FeeEstimate
  import Signing

  datatype KeyPrevout = KeyPrevout(point: Outpoint, value: nat, script: bytes, form: SpendType)

  datatype KeySigningError =
    | BadInputs
    | NoSuchInput
    | PushOverflow
    | WrongPrevout
    | WrongScript
    | NotControlled
    | VerificationFailed

  // ----- The digest -----

  function UnsignedInputs(inputs: seq<TxInput>, index: nat, script: bytes): (r: seq<TxInput>)
    ensures |r| == |inputs|
  {
    seq(|inputs|, k requires 0 <= k < |inputs| => inputs[k].(scriptSig := if k == index then script else [], stack := []))
  }

  /** `sighash_all`. */
  function KeyDigest(c: Crypto, t: Transaction, index: nat, p: KeyPrevout): Result<bytes, KeySigningError>
    requires WfHeader(t.version, t.locktime)
  {
    if index >= |t.inputs| then Err(NoSuchInput)
    else if OutpointOf(t.inputs[index]) != p.point then Err(WrongPrevout)
    else if p.form.NativeP2WPKH? then
      if !IsP2WPKH(p.script) then Err(WrongScript)
      else
        Ok(c.doubleSha(
          LEInt32(t.version) + c.doubleSha(PrintMany(PrintOutpoint, t.inputs)) + c.doubleSha(PrintMany(PrintSequence, t.inputs))
          + PrintOutpoint(t.inputs[index]) + VarBytes([0x76, 0xA9, 20] + p.script[2..] + [0x88, 0xAC]) + LE(p.value, 8)
          + LE(t.inputs[index].sequence, 4) + c.doubleSha(PrintMany(PrintOutput, t.outputs)) + LE(t.locktime, 4) + LE(1, 4)))
    else if !IsP2PKH(p.script) then Err(WrongScript)
    else Ok(c.doubleSha(Print(t.(inputs := UnsignedInputs(t.inputs, index, p.script)), false) + LE(1, 4)))
  }

  /** The prevout as the HD wallet describes it. */
  function AsHd(p: KeyPrevout): Prevout {
    Prevout(p.point, p.value, p.script, if p.form.NativeP2WPKH? then P2WPKH else P2PKH, "")
  }

  /** The two wallets compute one digest, or both refuse. */
  lemma DigestsAgree(c: Crypto, t: Transaction, index: nat, p: KeyPrevout)
    requires WfHeader(t.version, t.locktime)
    ensures KeyDigest(c, t, index, p).Ok? == Digest(c, t, index, AsHd(p)).Ok?
    ensures KeyDigest(c, t, index, p).Ok? ==> KeyDigest(c, t, index, p).value == Digest(c, t, index, AsHd(p)).value
  {
    assert UnsignedInputs(t.inputs, index, p.script) == LegacyInputs(t.inputs, index, p.script);
    hide LE, LEInt32, PrintMany, CompactSize, Print;
  }

  lemma KeyDigestIgnoresUnlocking(c: Crypto, t: Transaction, u: Transaction, index: nat, p: KeyPrevout)
    requires WfHeader(t.version, t.locktime) && SameSkeleton(t, u)
    ensures KeyDigest(c, t, index, p) == KeyDigest(c, u, index, p)
  {
    DigestsAgree(c, t, index, p);
    DigestsAgree(c, u, index, p);
    DigestIgnoresUnlocking(c, t, u, index, AsHd(p));
    if index < |t.inputs| {
      assert SameOutline(t.inputs[index], u.inputs[index]);
    }
    if KeyDigest(c, t, index, p).Err? {
      hide LE, LEInt32, PrintMany, CompactSize, Print, Digest;
    } else {
      hide KeyDigest, Digest;
    }
  }

  // ----- Verifying -----

  function KeyScript(c: Crypto, form: SpendType, public: bytes): bytes {
    if form.NativeP2WPKH? then PayToWitnessKeyHash(c.hash160(public)) else PayToKeyHash(c.hash160(public))
  }

  predicate KeyAccepts(c: Crypto, t: Transaction, index: nat, p: KeyPrevout, signature: bytes, public: bytes)
    requires WfHeader(t.version, t.locktime)
  {
    && |public| == (if p.form.UncompressedP2PKH? then 65 else 33)
    && signature != [] && signature[|signature| - 1] == 1
    && c.canonicalKey(public, !p.form.UncompressedP2PKH?)
    && KeyScript(c, p.form, public) == p.script
    && var digest := KeyDigest(c, t, index, p);
    && digest.Ok? && c.verify(public, signature[..|signature| - 1], digest.value)
  }

  predicate KeyVerifyInput(c: Crypto, t: Transaction, index: nat, p: KeyPrevout)
    requires WfHeader(t.version, t.locktime)
  {
    index < |t.inputs| &&
    var i := t.inputs[index];
    if p.form.NativeP2WPKH? then i.scriptSig == [] && |i.stack| == 2 && KeyAccepts(c, t, index, p, i.stack[0], i.stack[1])
    else
      && i.stack == []
      && var items := DirectPushes(i.scriptSig);
      && items.Ok? && |items.value| == 2 && KeyAccepts(c, t, index, p, items.value[0], items.value[1])
  }

  predicate OneForm(prevouts: seq<KeyPrevout>) {
    prevouts != [] && forall p :: p in prevouts ==> p.form == prevouts[0].form
  }

  /** `verify_all_inputs`. */
  predicate KeyVerifyAll(c: Crypto, t: Transaction, prevouts: seq<KeyPrevout>)
    requires WfHeader(t.version, t.locktime)
  {
    && |t.inputs| == |prevouts| && OneForm(prevouts)
    && forall k :: 0 <= k < |prevouts| ==> KeyVerifyInput(c, t, k, prevouts[k])
  }

  // ----- Signing -----

  function KeySignedInput(c: Crypto, key: bytes, t: Transaction, index: nat, p: KeyPrevout): Result<TxInput, KeySigningError>
    requires WfHeader(t.version, t.locktime) && index < |t.inputs|
  {
    var public := c.publicKey(key, !p.form.UncompressedP2PKH?);
    if KeyScript(c, p.form, public) != p.script then Err(NotControlled)
    else
      var i := t.inputs[index].(scriptSig := [], stack := []);
      var digest :- KeyDigest(c, t.(inputs := t.inputs[index := i]), index, p);
      var signature := c.sign(key, digest) + [1];
      if p.form.NativeP2WPKH? then Ok(i.(stack := [signature, public]))
      else if |signature| > 255 || |public| > 255 then Err(PushOverflow)
      else Ok(i.(scriptSig := [|signature|] + signature + [|public|] + public))
  }

  function KeySignFrom(c: Crypto, key: bytes, t: Transaction, prevouts: seq<KeyPrevout>, index: nat): Result<Transaction, KeySigningError>
    requires WfHeader(t.version, t.locktime) && |t.inputs| == |prevouts| && index <= |t.inputs|
    decreases |t.inputs| - index
  {
    if index == |t.inputs| then Ok(t)
    else
      var i :- KeySignedInput(c, key, t, index, prevouts[index]);
      KeySignFrom(c, key, t.(inputs := t.inputs[index := i]), prevouts, index + 1)
  }

  /** `sign_transaction`. */
  function KeySign(c: Crypto, key: bytes, t: Transaction, prevouts: seq<KeyPrevout>): (r: Result<Transaction, KeySigningError>)
    requires WfHeader(t.version, t.locktime)
    ensures r.Ok? ==> WfHeader(r.value.version, r.value.locktime)
  {
    if |t.inputs| != |prevouts| || !OneForm(prevouts) then Err(BadInputs)
    else
      var signed :- KeySignFrom(c, key, t, prevouts, 0);
      if !WfHeader(signed.version, signed.locktime) || !KeyVerifyAll(c, signed, prevouts) then Err(VerificationFailed)
      else Ok(signed)
  }

  // ----- Signing closes -----

  lemma KeySignedInputIgnoresUnlocking(c: Crypto, key: bytes, t: Transaction, u: Transaction, index: nat, p: KeyPrevout)
    requires WfHeader(t.version, t.locktime) && SameSkeleton(t, u) && index < |t.inputs|
    ensures KeySignedInput(c, key, t, index, p) == KeySignedInput(c, key, u, index, p)
  {
    assert SameOutline(t.inputs[index], u.inputs[index]);
    var i := t.inputs[index].(scriptSig := [], stack := []);
    var t', u' := t.(inputs := t.inputs[index := i]), u.(inputs := u.inputs[index := i]);
    assert SameSkeleton(t', u');
    hide SameSkeleton, KeyDigest;
    KeyDigestIgnoresUnlocking(c, t', u', index, p);
  }

  lemma KeySignedInputVerifies(c: Crypto, key: bytes, t: Transaction, u: Transaction, index: nat, p: KeyPrevout)
    requires Signing.Sound(c) && WfHeader(t.version, t.locktime) && index < |t.inputs|
    requires KeySignedInput(c, key, t, index, p).Ok?
    requires SameSkeleton(t, u) && u.inputs[index] == KeySignedInput(c, key, t, index, p).value
    ensures KeyVerifyInput(c, u, index, p)
  {
    var i := t.inputs[index].(scriptSig := [], stack := []);
    var cleared := t.(inputs := t.inputs[index := i]);
    Signing.SkeletonUpdate(t, index, i);
    assert SameSkeleton(cleared, u);
    hide SameSkeleton, KeyDigest, PushAll, DirectPushes;
    KeyDigestIgnoresUnlocking(c, cleared, u, index, p);
    var public := c.publicKey(key, !p.form.UncompressedP2PKH?);
    var der := c.sign(key, KeyDigest(c, cleared, index, p).value);
    var signature := der + [1];
    assert signature[..|signature| - 1] == der;
    DirectTwo(signature, public);
  }

  lemma DirectTwo(a: bytes, b: bytes)
    requires 1 <= |a| <= 75 && 1 <= |b| <= 75
    ensures DirectPushes([|a|] + a + [|b|] + b) == Ok([a, b])
  {
    hide PushAll, DirectPushes;
    Signing.PushTwo(a, b);
    assert [|a|] + a + [|b|] + b == [|a|] + a + ([|b|] + b);
    DirectPushesExactly([|a|] + a + [|b|] + b, [a, b]);
  }

  lemma KeySignedInputShape(c: Crypto, key: bytes, t: Transaction, index: nat, p: KeyPrevout)
    requires Signing.Sound(c) && WfHeader(t.version, t.locktime) && index < |t.inputs| && WfInput(t.inputs[index])
    requires KeySignedInput(c, key, t, index, p).Ok?
    ensures SameOutline(t.inputs[index], KeySignedInput(c, key, t, index, p).value)
    ensures SignedInput(KeySignedInput(c, key, t, index, p).value, p.form)
  {
    var i := t.inputs[index].(scriptSig := [], stack := []);
    var digest := KeyDigest(c, t.(inputs := t.inputs[index := i]), index, p).value;
    hide KeyDigest;
    var unlock := Unlock(c.sign(key, digest) + [1], c.publicKey(key, !p.form.UncompressedP2PKH?));
    assert WfUnlock(unlock, p.form) && Carries(KeySignedInput(c, key, t, index, p).value, unlock, p.form);
  }

  lemma {:induction false} KeySignFromMeans(c: Crypto, key: bytes, t: Transaction, prevouts: seq<KeyPrevout>, index: nat)
    requires WfHeader(t.version, t.locktime) && |t.inputs| == |prevouts| && index <= |t.inputs|
    requires KeySignFrom(c, key, t, prevouts, index).Ok?
    ensures
      var r := KeySignFrom(c, key, t, prevouts, index).value;
      && SameSkeleton(t, r)
      && (forall k :: 0 <= k < index ==> r.inputs[k] == t.inputs[k])
      && (forall k :: index <= k < |t.inputs| ==> KeySignedInput(c, key, t, k, prevouts[k]) == Ok(r.inputs[k]))
    decreases |t.inputs| - index
  {
    if index < |t.inputs| {
      var i := KeySignedInput(c, key, t, index, prevouts[index]).value;
      var next := t.(inputs := t.inputs[index := i]);
      Signing.SkeletonUpdate(t, index, i);
      KeySignFromMeans(c, key, next, prevouts, index + 1);
      var r := KeySignFrom(c, key, t, prevouts, index).value;
      Signing.SkeletonTransitive(t, next, r);
      hide KeySignedInput, SameSkeleton;
      forall k | index <= k < |t.inputs| ensures KeySignedInput(c, key, t, k, prevouts[k]) == Ok(r.inputs[k]) {
        KeySignedInputIgnoresUnlocking(c, key, t, next, k, prevouts[k]);
      }
    }
  }

  /** "local signature verification failed" is unreachable after the loop, for all three key forms. */
  lemma KeySigningCloses(c: Crypto, key: bytes, t: Transaction, prevouts: seq<KeyPrevout>)
    requires Signing.Sound(c) && WfHeader(t.version, t.locktime) && |t.inputs| == |prevouts| && OneForm(prevouts)
    requires KeySignFrom(c, key, t, prevouts, 0).Ok?
    ensures KeySign(c, key, t, prevouts) == KeySignFrom(c, key, t, prevouts, 0)
  {
    KeySignFromMeans(c, key, t, prevouts, 0);
    var signed := KeySignFrom(c, key, t, prevouts, 0).value;
    hide KeySignFrom, KeySignedInput, KeyVerifyInput;
    forall k | 0 <= k < |prevouts| ensures KeyVerifyInput(c, signed, k, prevouts[k]) {
      KeySignedInputVerifies(c, key, t, signed, k, prevouts[k]);
    }
  }

  lemma {:induction false} KeySignFromNeverVerifies(c: Crypto, key: bytes, t: Transaction, prevouts: seq<KeyPrevout>, index: nat)
    requires WfHeader(t.version, t.locktime) && |t.inputs| == |prevouts| && index <= |t.inputs|
    ensures KeySignFrom(c, key, t, prevouts, index) != Err(VerificationFailed)
    decreases |t.inputs| - index
  {
    if index < |t.inputs| && KeySignedInput(c, key, t, index, prevouts[index]).Ok? {
      KeySignFromNeverVerifies(c, key, t.(inputs := t.inputs[index := KeySignedInput(c, key, t, index, prevouts[index]).value]), prevouts, index + 1);
    }
  }

  lemma KeyVerificationNeverFails(c: Crypto, key: bytes, t: Transaction, prevouts: seq<KeyPrevout>)
    requires Signing.Sound(c) && WfHeader(t.version, t.locktime)
    ensures KeySign(c, key, t, prevouts) != Err(VerificationFailed)
  {
    hide KeySignFrom, KeyVerifyAll;
    if |t.inputs| == |prevouts| && OneForm(prevouts) {
      KeySignFromNeverVerifies(c, key, t, prevouts, 0);
      if KeySignFrom(c, key, t, prevouts, 0).Ok? {
        KeySigningCloses(c, key, t, prevouts);
      }
    }
  }

  /** A transaction whose prevouts all pay this key, matched in order, is always signed. */
  lemma {:induction false} KeySignSucceeds(c: Crypto, key: bytes, t: Transaction, prevouts: seq<KeyPrevout>, index: nat)
    requires Signing.Sound(c) && WfHeader(t.version, t.locktime) && |t.inputs| == |prevouts| && index <= |t.inputs|
    requires forall k :: 0 <= k < |prevouts| ==> Controls(c, key, t.inputs[k], prevouts[k])
    ensures KeySignFrom(c, key, t, prevouts, index).Ok?
    decreases |t.inputs| - index
  {
    if index < |t.inputs| {
      ControlledInputIsSigned(c, key, t, index, prevouts[index]);
      var i := KeySignedInput(c, key, t, index, prevouts[index]).value;
      hide KeySignedInput;
      KeySignSucceeds(c, key, t.(inputs := t.inputs[index := i]), prevouts, index + 1);
    }
  }

  predicate Controls(c: Crypto, key: bytes, i: TxInput, p: KeyPrevout) {
    OutpointOf(i) == p.point && KeyScript(c, p.form, c.publicKey(key, !p.form.UncompressedP2PKH?)) == p.script
  }

  lemma ControlledInputIsSigned(c: Crypto, key: bytes, t: Transaction, index: nat, p: KeyPrevout)
    requires Signing.Sound(c) && WfHeader(t.version, t.locktime) && index < |t.inputs| && Controls(c, key, t.inputs[index], p)
    ensures KeySignedInput(c, key, t, index, p).Ok? && SameOutline(t.inputs[index], KeySignedInput(c, key, t, index, p).value)
  {
    StandardScripts(c.hash160(c.publicKey(key, !p.form.UncompressedP2PKH?)));
    hide LE, LEInt32, PrintMany, CompactSize, Print;
  }

  /** What a signed transaction looks like: its skeleton, and inputs the size estimate counts. */
  lemma KeySignedShape(c: Crypto, key: bytes, t: Transaction, prevouts: seq<KeyPrevout>)
    requires Signing.Sound(c) && WfTx(t) && KeySign(c, key, t, prevouts).Ok?
    ensures SameSkeleton(t, KeySign(c, key, t, prevouts).value) && prevouts != []
    ensures SignedBy(KeySign(c, key, t, prevouts).value.inputs, prevouts[0].form)
  {
    KeySignFromMeans(c, key, t, prevouts, 0);
    var signed := KeySign(c, key, t, prevouts).value;
    hide KeySignFrom, KeyVerifyAll;
    forall k | 0 <= k < |signed.inputs| ensures SignedInput(signed.inputs[k], prevouts[0].form) {
      assert prevouts[k] in prevouts && WfInput(t.inputs[k]);
      KeySignedInputShape(c, key, t, k, prevouts[k]);
      hide KeySignedInput;
    }
  }
}
