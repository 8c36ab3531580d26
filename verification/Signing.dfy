/** Signing and verifying of the HD wallet (`tx/signer.py`, `tx/verifier.py`): the specification and its closure. */
module Signing {
  import opened Wrappers
  import opened Bytes
  import opened Transactions
  import opened Addresses
  import opened Scripts
  import opened Sighash
  import FeeEstimate

  datatype SigningError =
    | CountMismatch
    | UnsupportedTypes
    | OrderMismatch
    | NoDigest(cause: SighashError)
    | NotIssued
    | TypeMismatch
    | MetadataMismatch
    | KeyMismatch
    | SignatureTooLarge
    | VerificationFailed
    | OutputsExceedInputs

  /** An issued address of the open wallet, with the key its path derives. */
  datatype Issued = Issued(kind: AddressType, script: bytes, key: bytes)

  /** The signing session: issued addresses by derivation path. */
  type Session = map<string, Issued>

  /** What is assumed of the hash functions and of ECDSA. */
  ghost predicate Sound(c: Crypto) {
    && (forall x :: |c.hash160(x)| == 20)
    && (forall key :: |c.publicKey(key, true)| == 33 && c.publicKey(key, true)[0] in {2, 3})
    && (forall key :: |c.publicKey(key, false)| == 65)
    && (forall key, compressed :: c.canonicalKey(c.publicKey(key, compressed), compressed))
    && (forall key, d :: 1 <= |c.sign(key, d)| <= 72)
    && (forall key, d, compressed :: c.verify(c.publicKey(key, compressed), c.sign(key, d), d))
  }

  /** The standard script of a public key, for the two types that can be spent. */
  function ScriptOf(c: Crypto, kind: AddressType, public: bytes): bytes {
    if kind.P2WPKH? then PayToWitnessKeyHash(c.hash160(public)) else PayToKeyHash(c.hash160(public))
  }

  // ----- Verifying -----

  /** The key and signature are shaped as the verifier demands and pay to the hash of the script. */
  predicate Acceptable(c: Crypto, signature: bytes, public: bytes, hash: bytes) {
    && |public| == 33 && public[0] in {2, 3}
    && |signature| >= 2 && signature[|signature| - 1] == SIGHASH_ALL
    && c.hash160(public) == hash
  }

  predicate VerifiesDigest(c: Crypto, t: Transaction, index: nat, p: Prevout, signature: bytes, public: bytes)
    requires WfHeader(t.version, t.locktime) && |signature| >= 1
  {
    var digest := Digest(c, t, index, p);
    digest.Ok? && c.verify(public, signature[..|signature| - 1], digest.value)
  }

  /** `verify_transaction_input`. */
  predicate VerifyInput(c: Crypto, t: Transaction, index: nat, p: Prevout)
    requires WfHeader(t.version, t.locktime)
  {
    index < |t.inputs| &&
    var i := t.inputs[index];
    if p.kind.P2WPKH? then
      && i.scriptSig == [] && |i.stack| == 2
      && Acceptable(c, i.stack[0], i.stack[1], if |p.script| >= 2 then p.script[2..] else [])
      && VerifiesDigest(c, t, index, p, i.stack[0], i.stack[1])
    else if p.kind.P2PKH? then
      && i.stack == []
      && var items := ParsePushes(i.scriptSig);
      && items.Ok? && |items.value| == 2
      && Acceptable(c, items.value[0], items.value[1], if |p.script| >= 23 then p.script[3..23] else [])
      && VerifiesDigest(c, t, index, p, items.value[0], items.value[1])
    else false
  }

  // ----- Signing -----

  /** `WalletSigningSession.sign_digest`: the signature and public key, if the wallet issued the output. */
  function SignDigest(c: Crypto, session: Session, p: Prevout, digest: bytes): Result<(bytes, bytes), SigningError> {
    if p.path !in session then Err(NotIssued)
    else
      var entry := session[p.path];
      var public := c.publicKey(entry.key, true);
      if p.kind != entry.kind then Err(TypeMismatch)
      else if p.script != entry.script then Err(MetadataMismatch)
      else if ScriptOf(c, entry.kind, public) != entry.script then Err(KeyMismatch)
      else Ok((c.sign(entry.key, digest), public))
  }

  /** The input with its unlocking data cleared and then filled in. */
  function SignedInput(c: Crypto, session: Session, t: Transaction, index: nat, p: Prevout): Result<TxInput, SigningError>
    requires WfHeader(t.version, t.locktime) && index < |t.inputs|
  {
    var i := t.inputs[index].(scriptSig := [], stack := []);
    if OutpointOf(i) != p.point then Err(OrderMismatch)
    else
      match Digest(c, t.(inputs := t.inputs[index := i]), index, p)
      case Err(e) => Err(NoDigest(e))
      case Ok(digest) =>
        var (der, public) :- SignDigest(c, session, p, digest);
        var signature := der + [SIGHASH_ALL];
        if p.kind.P2WPKH? then Ok(i.(stack := [signature, public]))
        else
          match PushAll([signature, public])
          case Err(_) => Err(SignatureTooLarge)
          case Ok(script) => Ok(i.(scriptSig := script))
  }

  /** The loop, from input `index` on. */
  function SignFrom(c: Crypto, session: Session, t: Transaction, prevouts: seq<Prevout>, index: nat): Result<Transaction, SigningError>
    requires WfHeader(t.version, t.locktime) && |t.inputs| == |prevouts| && index <= |t.inputs|
    decreases |t.inputs| - index
  {
    if index == |t.inputs| then Ok(t)
    else
      var i :- SignedInput(c, session, t, index, prevouts[index]);
      SignFrom(c, session, t.(inputs := t.inputs[index := i]), prevouts, index + 1)
  }

  predicate OneSpendableKind(prevouts: seq<Prevout>) {
    && prevouts != [] && Spendable(prevouts[0].kind)
    && forall p :: p in prevouts ==> p.kind == prevouts[0].kind
  }

  predicate VerifyAll(c: Crypto, t: Transaction, prevouts: seq<Prevout>)
    requires WfHeader(t.version, t.locktime)
  {
    forall k :: 0 <= k < |prevouts| ==> VerifyInput(c, t, k, prevouts[k])
  }

  function ValueIn(prevouts: seq<Prevout>): nat {
    if prevouts == [] then 0 else prevouts[0].value + ValueIn(prevouts[1..])
  }

  /** `sign_transaction`. */
  function Sign(c: Crypto, session: Session, t: Transaction, prevouts: seq<Prevout>): (r: Result<Transaction, SigningError>)
    requires WfHeader(t.version, t.locktime)
    ensures r.Ok? ==> WfHeader(r.value.version, r.value.locktime)
  {
    if |t.inputs| != |prevouts| then Err(CountMismatch)
    else if !OneSpendableKind(prevouts) then Err(UnsupportedTypes)
    else
      var signed :- SignFrom(c, session, t, prevouts, 0);
      if !WfHeader(signed.version, signed.locktime) || !VerifyAll(c, signed, prevouts) then Err(VerificationFailed)
      else if ValueIn(prevouts) < OutputTotal(t.outputs) then Err(OutputsExceedInputs)
      else Ok(signed)
  }

  // ----- Signing closes -----

  lemma SkeletonUpdate(t: Transaction, index: nat, i: TxInput)
    requires index < |t.inputs| && SameOutline(t.inputs[index], i)
    ensures SameSkeleton(t, t.(inputs := t.inputs[index := i]))
  {
  }

  lemma SkeletonTransitive(t: Transaction, u: Transaction, v: Transaction)
    requires SameSkeleton(t, u) && SameSkeleton(u, v)
    ensures SameSkeleton(t, v)
  {
    forall k | 0 <= k < |t.inputs| ensures SameOutline(t.inputs[k], v.inputs[k]) {
      assert SameOutline(t.inputs[k], u.inputs[k]) && SameOutline(u.inputs[k], v.inputs[k]);
    }
  }

  /** Signing one input of a transaction gives the same result whatever scripts and witnesses it holds. */
  lemma SignedInputIgnoresUnlocking(c: Crypto, session: Session, t: Transaction, u: Transaction, index: nat, p: Prevout)
    requires WfHeader(t.version, t.locktime) && SameSkeleton(t, u) && index < |t.inputs|
    ensures SignedInput(c, session, t, index, p) == SignedInput(c, session, u, index, p)
  {
    assert SameOutline(t.inputs[index], u.inputs[index]);
    var i := t.inputs[index].(scriptSig := [], stack := []);
    var t', u' := t.(inputs := t.inputs[index := i]), u.(inputs := u.inputs[index := i]);
    assert SameSkeleton(t', u');
    hide SameSkeleton, Digest;
    DigestIgnoresUnlocking(c, t', u', index, p);
  }

  /** A freshly signed input verifies, in any transaction with the same skeleton that holds it. */
  lemma SignedInputVerifies(c: Crypto, session: Session, t: Transaction, u: Transaction, index: nat, p: Prevout)
    requires Sound(c) && WfHeader(t.version, t.locktime) && index < |t.inputs| && Spendable(p.kind)
    requires SignedInput(c, session, t, index, p).Ok?
    requires SameSkeleton(t, u) && u.inputs[index] == SignedInput(c, session, t, index, p).value
    ensures VerifyInput(c, u, index, p)
  {
    var i := t.inputs[index].(scriptSig := [], stack := []);
    var cleared := t.(inputs := t.inputs[index := i]);
    SkeletonUpdate(t, index, i);
    assert SameSkeleton(cleared, u);
    hide SameSkeleton, Digest;
    DigestIgnoresUnlocking(c, cleared, u, index, p);
    var digest := Digest(c, cleared, index, p).value;
    var (der, public) := SignDigest(c, session, p, digest).value;
    var key := session[p.path].key;
    var signature := der + [SIGHASH_ALL];
    assert der == c.sign(key, digest) && public == c.publicKey(key, true);
    assert signature[..|signature| - 1] == der;
    StandardScripts(c.hash160(public));
    if p.kind.P2PKH? {
      ParseOfPushAll([signature, public]);
    }
    hide PushAll, ParsePushes, SignDigest;
  }

  lemma SignedInputOutline(c: Crypto, session: Session, t: Transaction, index: nat, p: Prevout)
    requires WfHeader(t.version, t.locktime) && index < |t.inputs| && SignedInput(c, session, t, index, p).Ok?
    ensures SameOutline(t.inputs[index], SignedInput(c, session, t, index, p).value)
  {
  }

  /** What the loop leaves: the skeleton, the inputs before `index`, and each later input as signed alone. */
  lemma {:induction false} SignFromMeans(c: Crypto, session: Session, t: Transaction, prevouts: seq<Prevout>, index: nat)
    requires WfHeader(t.version, t.locktime) && |t.inputs| == |prevouts| && index <= |t.inputs|
    requires SignFrom(c, session, t, prevouts, index).Ok?
    ensures
      var r := SignFrom(c, session, t, prevouts, index).value;
      && SameSkeleton(t, r)
      && (forall k :: 0 <= k < index ==> r.inputs[k] == t.inputs[k])
      && (forall k :: index <= k < |t.inputs| ==> SignedInput(c, session, t, k, prevouts[k]) == Ok(r.inputs[k]))
    decreases |t.inputs| - index
  {
    if index < |t.inputs| {
      var i := SignedInput(c, session, t, index, prevouts[index]).value;
      var next := t.(inputs := t.inputs[index := i]);
      SignedInputOutline(c, session, t, index, prevouts[index]);
      SkeletonUpdate(t, index, i);
      SignFromMeans(c, session, next, prevouts, index + 1);
      var r := SignFrom(c, session, t, prevouts, index).value;
      SkeletonTransitive(t, next, r);
      hide SignedInput, SameSkeleton;
      forall k | index <= k < |t.inputs| ensures SignedInput(c, session, t, k, prevouts[k]) == Ok(r.inputs[k]) {
        SignedInputIgnoresUnlocking(c, session, t, next, k, prevouts[k]);
      }
    }
  }

  /** After the loop every input verifies. */
  lemma SigningCloses(c: Crypto, session: Session, t: Transaction, prevouts: seq<Prevout>)
    requires Sound(c) && WfHeader(t.version, t.locktime) && |t.inputs| == |prevouts| && OneSpendableKind(prevouts)
    requires SignFrom(c, session, t, prevouts, 0).Ok?
    ensures
      var signed := SignFrom(c, session, t, prevouts, 0).value;
      WfHeader(signed.version, signed.locktime) && VerifyAll(c, signed, prevouts)
  {
    SignFromMeans(c, session, t, prevouts, 0);
    var signed := SignFrom(c, session, t, prevouts, 0).value;
    hide SignFrom, SignedInput, VerifyInput;
    forall k | 0 <= k < |prevouts| ensures VerifyInput(c, signed, k, prevouts[k]) {
      assert prevouts[k] in prevouts;
      SignedInputVerifies(c, session, t, signed, k, prevouts[k]);
    }
  }

  /** The branch "local verification failed" is unreachable, whatever is signed. */
  lemma VerificationNeverFails(c: Crypto, session: Session, t: Transaction, prevouts: seq<Prevout>)
    requires Sound(c) && WfHeader(t.version, t.locktime)
    ensures Sign(c, session, t, prevouts) != Err(VerificationFailed)
  {
    hide SignedInput, VerifyAll;
    if |t.inputs| == |prevouts| && OneSpendableKind(prevouts) {
      SignFromNeverVerifies(c, session, t, prevouts, 0);
      if SignFrom(c, session, t, prevouts, 0).Ok? {
        SigningCloses(c, session, t, prevouts);
      }
    }
  }

  lemma {:induction false} SignFromNeverVerifies(c: Crypto, session: Session, t: Transaction, prevouts: seq<Prevout>, index: nat)
    requires WfHeader(t.version, t.locktime) && |t.inputs| == |prevouts| && index <= |t.inputs|
    ensures SignFrom(c, session, t, prevouts, index) != Err(VerificationFailed)
    decreases |t.inputs| - index
  {
    if index < |t.inputs| && SignedInput(c, session, t, index, prevouts[index]).Ok? {
      var i := SignedInput(c, session, t, index, prevouts[index]).value;
      SignFromNeverVerifies(c, session, t.(inputs := t.inputs[index := i]), prevouts, index + 1);
    }
  }

  /**
   * Signing again after a change-value correction is like signing for the first time: stale scripts
   * and witnesses have no influence on success or on the result.
   */
  lemma ResigningStartsAfresh(c: Crypto, session: Session, t: Transaction, u: Transaction, prevouts: seq<Prevout>)
    requires WfHeader(t.version, t.locktime) && SameSkeleton(t, u)
    ensures Sign(c, session, t, prevouts) == Sign(c, session, u, prevouts)
  {
    hide SignedInput, VerifyInput, SignFrom;
    if |t.inputs| == |prevouts| && OneSpendableKind(prevouts) {
      SignFromStartsAfresh(c, session, t, u, prevouts, 0);
    }
  }

  lemma {:induction false} SignFromStartsAfresh(c: Crypto, session: Session, t: Transaction, u: Transaction, prevouts: seq<Prevout>, index: nat)
    requires WfHeader(t.version, t.locktime) && SameSkeleton(t, u) && |t.inputs| == |prevouts| && index <= |t.inputs|
    requires t.inputs[..index] == u.inputs[..index]
    ensures SignFrom(c, session, t, prevouts, index) == SignFrom(c, session, u, prevouts, index)
    decreases |t.inputs| - index
  {
    hide SignedInput;
    if index == |t.inputs| {
      assert t.inputs == t.inputs[..index] && u.inputs == u.inputs[..index];
    } else {
      SignedInputIgnoresUnlocking(c, session, t, u, index, prevouts[index]);
      var i := SignedInput(c, session, t, index, prevouts[index]);
      if i.Ok? {
        SignedInputOutline(c, session, t, index, prevouts[index]);
        var t', u' := t.(inputs := t.inputs[index := i.value]), u.(inputs := u.inputs[index := i.value]);
        assert t'.inputs[..index + 1] == t.inputs[..index] + [i.value] && u'.inputs[..index + 1] == u.inputs[..index] + [i.value];
        SignFromStartsAfresh(c, session, t', u', prevouts, index + 1);
      }
    }
  }

  /** A signed transaction is the one asked for, its inputs carrying what the size estimate counts. */
  lemma SignedShape(c: Crypto, session: Session, t: Transaction, prevouts: seq<Prevout>)
    requires Sound(c) && WfTx(t) && Sign(c, session, t, prevouts).Ok?
    ensures
      var signed := Sign(c, session, t, prevouts).value;
      && SameSkeleton(t, signed) && |prevouts| == |t.inputs| > 0
      && (prevouts[0].kind.P2WPKH? ==> FeeEstimate.SignedBy(signed.inputs, FeeEstimate.NativeP2WPKH))
      && (prevouts[0].kind.P2PKH? ==> FeeEstimate.SignedBy(signed.inputs, FeeEstimate.CompressedP2PKH))
  {
    SignFromMeans(c, session, t, prevouts, 0);
    var signed := Sign(c, session, t, prevouts).value;
    hide SignFrom, VerifyAll;
    forall k | 0 <= k < |signed.inputs|
      ensures FeeEstimate.SignedInput(signed.inputs[k], if prevouts[0].kind.P2WPKH? then FeeEstimate.NativeP2WPKH else FeeEstimate.CompressedP2PKH)
    {
      assert prevouts[k] in prevouts && WfInput(t.inputs[k]);
      SignedInputShape(c, session, t, k, prevouts[k]);
    }
  }

  lemma SignedInputShape(c: Crypto, session: Session, t: Transaction, index: nat, p: Prevout)
    requires Sound(c) && WfHeader(t.version, t.locktime) && index < |t.inputs| && WfInput(t.inputs[index])
    requires SignedInput(c, session, t, index, p).Ok? && Spendable(p.kind)
    ensures FeeEstimate.SignedInput(SignedInput(c, session, t, index, p).value,
              if p.kind.P2WPKH? then FeeEstimate.NativeP2WPKH else FeeEstimate.CompressedP2PKH)
  {
    var i := t.inputs[index].(scriptSig := [], stack := []);
    var digest := Digest(c, t.(inputs := t.inputs[index := i]), index, p).value;
    var (der, public) := SignDigest(c, session, p, digest).value;
    var unlock := FeeEstimate.Unlock(der + [SIGHASH_ALL], public);
    var kind := if p.kind.P2WPKH? then FeeEstimate.NativeP2WPKH else FeeEstimate.CompressedP2PKH;
    assert FeeEstimate.WfUnlock(unlock, kind);
    var pushed := PushAll([unlock.signature, unlock.key]);
    PushTwo(unlock.signature, unlock.key);
    hide Digest, SignDigest, PushAll;
    assert FeeEstimate.Carries(SignedInput(c, session, t, index, p).value, unlock, kind);
  }

  lemma PushTwo(a: bytes, b: bytes)
    requires |a| <= 75 && |b| <= 75
    ensures PushAll([a, b]) == Ok([|a|] + a + ([|b|] + b))
  {
    assert [a, b][1..] == [b] && [b][1..] == [];
    assert PushAll([b]) == Ok([|b|] + b + []);
    assert [|b|] + b + [] == [|b|] + b;
  }
}
