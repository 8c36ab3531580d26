/**
 * Signing and verifying described from outside, for both wallets: exactly which unlocked inputs verify,
 * exactly which transactions are signed, and why one is refused.
 */
module SigningExact {
  import opened Wrappers
  import opened Bytes
  import opened Transactions
  import opened Addresses
  import opened FeeEstimate
  import opened Scripts
  import opened Sighash
  import Signing
  import opened SingleKeySigning

  // ----- Digests -----

  /** The script is of the kind it is spent as: a key hash in its legacy or its witness form. */
  predicate PaysKeyHash(script: bytes, segwit: bool, hash: bytes) {
    |hash| == 20 && script == if segwit then [0, 20] + hash else [0x76, 0xA9, 20] + hash + [0x88, 0xAC]
  }

  ghost predicate Standard(script: bytes, segwit: bool) {
    exists hash :: PaysKeyHash(script, segwit, hash)
  }

  lemma StandardForms(script: bytes)
    ensures IsP2WPKH(script) <==> |script| == 22 && PaysKeyHash(script, true, script[2..])
    ensures IsP2PKH(script) <==> |script| == 25 && PaysKeyHash(script, false, script[3..23])
  {
    if |script| == 22 {
      assert script == script[..2] + script[2..];
    }
    if |script| == 25 {
      assert script == script[..3] + script[3..23] + script[23..];
    }
  }

  lemma HashOfForm(script: bytes, segwit: bool, hash: bytes)
    requires PaysKeyHash(script, segwit, hash)
    ensures hash == if segwit then script[2..] else script[3..23]
    ensures if segwit then IsP2WPKH(script) else IsP2PKH(script)
  {
    StandardScripts(hash);
  }

  /** A digest exists exactly for an input that spends the given key-hash output; the first failing check decides the error. */
  lemma DigestExactly(c: Crypto, t: Transaction, index: nat, p: Prevout)
    requires WfHeader(t.version, t.locktime)
    ensures
      var r := Digest(c, t, index, p);
      var standard := p.kind in {P2PKH, P2WPKH} && Standard(p.script, p.kind == P2WPKH);
      && (r == Err(SighashError.IndexOutOfRange) <==> index >= |t.inputs|)
      && (r == Err(WrongKind) <==> index < |t.inputs| && !standard)
      && (r == Err(PrevoutMismatch) <==>
            index < |t.inputs| && standard && (t.inputs[index].txid != p.point.txid || t.inputs[index].vout != p.point.vout))
      && (r.Ok? ==> r.value == c.doubleSha(Preimage(c, t, index, p)))
  {
    StandardForms(p.script);
    hide Preimage, PaysKeyHash, IsP2PKH, IsP2WPKH;
    var segwit := p.kind == P2WPKH;
    if hash :| PaysKeyHash(p.script, segwit, hash) {
      HashOfForm(p.script, segwit, hash);
    }
  }

  // ----- Verifying -----

  /** This signature and compressed key unlock the input: of the right hash, over the right digest, marked SIGHASH_ALL. */
  predicate Unlocks(c: Crypto, t: Transaction, index: nat, p: Prevout, der: bytes, public: bytes)
    requires WfHeader(t.version, t.locktime) && index < |t.inputs|
  {
    var i := t.inputs[index];
    && |public| == 33 && public[0] in {2, 3} && der != []
    && (if p.kind.P2WPKH? then i.scriptSig == [] && i.stack == [der + [1], public]
        else i.stack == [] && ParsePushes(i.scriptSig) == Ok([der + [1], public]))
    && p.kind in {P2PKH, P2WPKH} && PaysKeyHash(p.script, p.kind == P2WPKH, c.hash160(public))
    && Digest(c, t, index, p).Ok? && c.verify(public, der, Digest(c, t, index, p).value)
  }

  /** An input verifies exactly when some signature and key in it unlock it. */
  lemma VerifyInputExactly(c: Crypto, t: Transaction, index: nat, p: Prevout)
    requires WfHeader(t.version, t.locktime) && forall x :: |c.hash160(x)| == 20
    ensures Signing.VerifyInput(c, t, index, p) <==> index < |t.inputs| && exists der, public :: Unlocks(c, t, index, p, der, public)
  {
    if Signing.VerifyInput(c, t, index, p) {
      VerifiedIsUnlocked(c, t, index, p);
    }
    if index < |t.inputs| && exists der, public :: Unlocks(c, t, index, p, der, public) {
      var der, public :| Unlocks(c, t, index, p, der, public);
      UnlockedVerifies(c, t, index, p, der, public);
    }
  }

  lemma SignatureParts(signature: bytes)
    requires |signature| >= 2 && signature[|signature| - 1] == 1
    ensures signature == signature[..|signature| - 1] + [1] && signature[..|signature| - 1] != []
  {
  }

  lemma Pair<T>(s: seq<T>)
    requires |s| == 2
    ensures s == [s[0], s[1]]
  {
  }

  lemma VerifiedIsUnlocked(c: Crypto, t: Transaction, index: nat, p: Prevout)
    requires WfHeader(t.version, t.locktime) && Signing.VerifyInput(c, t, index, p) && forall x :: |c.hash160(x)| == 20
    ensures exists der, public :: Unlocks(c, t, index, p, der, public)
  {
    hide ParsePushes;
    var i := t.inputs[index];
    var items := if p.kind.P2WPKH? then i.stack else ParsePushes(i.scriptSig).value;
    var signature, public := items[0], items[1];
    SignatureParts(signature);
    var der := signature[..|signature| - 1];
    Pair(items);
    assert Digest(c, t, index, p).Ok?;
    StandardForms(p.script);
    assert Signable(p);
    hide Digest;
    assert Unlocks(c, t, index, p, der, public);
  }

  lemma UnlockedVerifies(c: Crypto, t: Transaction, index: nat, p: Prevout, der: bytes, public: bytes)
    requires WfHeader(t.version, t.locktime) && index < |t.inputs| && Unlocks(c, t, index, p, der, public)
    ensures Signing.VerifyInput(c, t, index, p)
  {
    hide ParsePushes, Digest;
    var signature := der + [1];
    assert signature[..|signature| - 1] == der;
    HashOfForm(p.script, p.kind == P2WPKH, c.hash160(public));
  }

  // ----- Signing, HD wallet -----

  /** The session holds the key of this output, and the input spends it. */
  predicate Controls(c: Crypto, session: Signing.Session, i: TxInput, p: Prevout) {
    && i.txid == p.point.txid && i.vout == p.point.vout && p.kind in {P2PKH, P2WPKH}
    && p.path in session && session[p.path].kind == p.kind && session[p.path].script == p.script
    && PaysKeyHash(p.script, p.kind == P2WPKH, c.hash160(c.publicKey(session[p.path].key, true)))
  }

  /** Why one input is refused, in the order of the checks. */
  lemma SignedInputExactly(c: Crypto, session: Signing.Session, t: Transaction, index: nat, p: Prevout)
    requires Signing.Sound(c) && WfHeader(t.version, t.locktime) && index < |t.inputs| && Spendable(p.kind)
    ensures
      var r := Signing.SignedInput(c, session, t, index, p);
      var standard := Standard(p.script, p.kind == P2WPKH);
      if t.inputs[index].txid != p.point.txid || t.inputs[index].vout != p.point.vout then r == Err(Signing.OrderMismatch)
      else if !standard then r == Err(Signing.NoDigest(WrongKind))
      else if p.path !in session then r == Err(Signing.NotIssued)
      else if session[p.path].kind != p.kind then r == Err(Signing.TypeMismatch)
      else if session[p.path].script != p.script then r == Err(Signing.MetadataMismatch)
      else if !PaysKeyHash(p.script, p.kind == P2WPKH, c.hash160(c.publicKey(session[p.path].key, true))) then r == Err(Signing.KeyMismatch)
      else r.Ok?
  {
    var i := t.inputs[index].(scriptSig := [], stack := []);
    var u := t.(inputs := t.inputs[index := i]);
    DigestExactly(c, u, index, p);
    if p.path in session {
      var public := c.publicKey(session[p.path].key, true);
      StandardScripts(c.hash160(public));
      var digest := Digest(c, u, index, p);
      if digest.Ok? {
        Signing.PushTwo(c.sign(session[p.path].key, digest.value) + [SIGHASH_ALL], public);
      }
    }
    hide Digest, PushAll, Preimage;
  }

  lemma SignedInputControlled(c: Crypto, session: Signing.Session, t: Transaction, index: nat, p: Prevout)
    requires Signing.Sound(c) && WfHeader(t.version, t.locktime) && index < |t.inputs| && Spendable(p.kind)
    ensures Signing.SignedInput(c, session, t, index, p).Ok? <==> Controls(c, session, t.inputs[index], p)
  {
    SignedInputExactly(c, session, t, index, p);
    hide Signing.SignedInput, PaysKeyHash;
    if Controls(c, session, t.inputs[index], p) {
      assert PaysKeyHash(p.script, p.kind == P2WPKH, c.hash160(c.publicKey(session[p.path].key, true)));
    }
  }

  lemma {:induction false} SignFromSucceeds(c: Crypto, session: Signing.Session, t: Transaction, prevouts: seq<Prevout>, index: nat)
    requires Signing.Sound(c) && WfHeader(t.version, t.locktime) && |t.inputs| == |prevouts| && index <= |t.inputs|
    requires forall k :: 0 <= k < |prevouts| ==> Spendable(prevouts[k].kind) && Controls(c, session, t.inputs[k], prevouts[k])
    ensures Signing.SignFrom(c, session, t, prevouts, index).Ok?
    decreases |t.inputs| - index
  {
    hide Signing.SignedInput, Signing.Sound, PaysKeyHash, SameOutline;
    if index < |t.inputs| {
      SignedInputControlled(c, session, t, index, prevouts[index]);
      Signing.SignedInputOutline(c, session, t, index, prevouts[index]);
      var i := Signing.SignedInput(c, session, t, index, prevouts[index]).value;
      OutlineControls(c, session, t.inputs[index], i, prevouts[index]);
      SignFromSucceeds(c, session, t.(inputs := t.inputs[index := i]), prevouts, index + 1);
    }
  }

  lemma OutlineControls(c: Crypto, session: Signing.Session, i: TxInput, j: TxInput, p: Prevout)
    requires SameOutline(i, j) && Controls(c, session, i, p)
    ensures Controls(c, session, j, p)
  {
  }

  predicate AllControlled(c: Crypto, session: Signing.Session, t: Transaction, prevouts: seq<Prevout>) {
    |t.inputs| == |prevouts| && forall k :: 0 <= k < |prevouts| ==> Controls(c, session, t.inputs[k], prevouts[k])
  }

  /**
   * A transaction is signed exactly when its prevouts are of one spendable kind, the session holds the key
   * of each, in the order of the inputs, and they are worth at least the outputs.
   */
  lemma SignExactly(c: Crypto, session: Signing.Session, t: Transaction, prevouts: seq<Prevout>)
    requires Signing.Sound(c) && WfHeader(t.version, t.locktime)
    ensures
      Signing.Sign(c, session, t, prevouts).Ok? <==>
        && prevouts != [] && (forall p :: p in prevouts ==> p.kind == prevouts[0].kind) && prevouts[0].kind in {P2PKH, P2WPKH}
        && AllControlled(c, session, t, prevouts) && Signing.ValueIn(prevouts) >= OutputTotal(t.outputs)
  {
    hide Signing.SignedInput, Signing.Sound, Signing.VerifyAll, Signing.SignFrom, Controls, SameOutline, Signing.ValueIn, OutputTotal;
    if |t.inputs| == |prevouts| && Signing.OneSpendableKind(prevouts) {
      forall k | 0 <= k < |prevouts| ensures Spendable(prevouts[k].kind) {
        assert prevouts[k] in prevouts;
      }
      if AllControlled(c, session, t, prevouts) {
        SignFromSucceeds(c, session, t, prevouts, 0);
      }
      if Signing.SignFrom(c, session, t, prevouts, 0).Ok? {
        Signing.SigningCloses(c, session, t, prevouts);
        Signing.SignFromMeans(c, session, t, prevouts, 0);
        forall k | 0 <= k < |prevouts| ensures Controls(c, session, t.inputs[k], prevouts[k]) {
          SignedInputControlled(c, session, t, k, prevouts[k]);
        }
      }
    }
  }

  /** Why a transaction is refused: the count, the kinds, the first input that cannot be signed, the value. */
  lemma SignInOrder(c: Crypto, session: Signing.Session, t: Transaction, prevouts: seq<Prevout>)
    requires Signing.Sound(c) && WfHeader(t.version, t.locktime)
    ensures
      var r := Signing.Sign(c, session, t, prevouts);
      if |t.inputs| != |prevouts| then r == Err(Signing.CountMismatch)
      else if !Signing.OneSpendableKind(prevouts) then r == Err(Signing.UnsupportedTypes)
      else if Signing.SignFrom(c, session, t, prevouts, 0).Err? then
        r.Err? && exists k :: FirstRefused(c, session, t, prevouts, 0, k, r.error)
      else r == if Signing.ValueIn(prevouts) < OutputTotal(t.outputs) then Err(Signing.OutputsExceedInputs) else Signing.SignFrom(c, session, t, prevouts, 0)
  {
    if |t.inputs| == |prevouts| && Signing.OneSpendableKind(prevouts) {
      if Signing.SignFrom(c, session, t, prevouts, 0).Ok? {
        Signing.SigningCloses(c, session, t, prevouts);
      } else {
        FirstRefusal(c, session, t, prevouts, 0);
      }
    }
    hide Signing.SignFrom, Signing.VerifyAll, Signing.Sound, FirstRefused, Signing.ValueIn, OutputTotal;
  }

  /** From `from` on, input `k` is the first that is not signed, and this is why. */
  predicate FirstRefused(c: Crypto, session: Signing.Session, t: Transaction, prevouts: seq<Prevout>, from: nat, k: int, error: Signing.SigningError)
    requires WfHeader(t.version, t.locktime) && |t.inputs| == |prevouts|
  {
    && from <= k < |prevouts| && Signing.SignedInput(c, session, t, k, prevouts[k]) == Err(error)
    && forall i :: from <= i < k ==> Signing.SignedInput(c, session, t, i, prevouts[i]).Ok?
  }

  lemma {:induction false} FirstRefusal(c: Crypto, session: Signing.Session, t: Transaction, prevouts: seq<Prevout>, index: nat)
    requires WfHeader(t.version, t.locktime) && |t.inputs| == |prevouts| && index <= |t.inputs|
    requires Signing.SignFrom(c, session, t, prevouts, index).Err?
    ensures exists k :: FirstRefused(c, session, t, prevouts, index, k, Signing.SignFrom(c, session, t, prevouts, index).error)
    decreases |t.inputs| - index
  {
    hide Signing.SignedInput, SameSkeleton;
    var first := Signing.SignedInput(c, session, t, index, prevouts[index]);
    var error := Signing.SignFrom(c, session, t, prevouts, index).error;
    if first.Err? {
      assert FirstRefused(c, session, t, prevouts, index, index, error);
    } else {
      var next := t.(inputs := t.inputs[index := first.value]);
      Signing.SignedInputOutline(c, session, t, index, prevouts[index]);
      Signing.SkeletonUpdate(t, index, first.value);
      FirstRefusal(c, session, next, prevouts, index + 1);
      var k :| FirstRefused(c, session, next, prevouts, index + 1, k, error);
      forall i | index + 1 <= i <= k ensures Signing.SignedInput(c, session, t, i, prevouts[i]) == Signing.SignedInput(c, session, next, i, prevouts[i]) {
        Signing.SignedInputIgnoresUnlocking(c, session, t, next, i, prevouts[i]);
      }
      assert FirstRefused(c, session, t, prevouts, index, k, error);
    }
  }

  // ----- The single-key wallet -----

  /** The single-key digest: the first failing check decides the error. */
  lemma KeyDigestExactly(c: Crypto, t: Transaction, index: nat, p: KeyPrevout)
    requires WfHeader(t.version, t.locktime)
    ensures
      var r := KeyDigest(c, t, index, p);
      if index >= |t.inputs| then r == Err(NoSuchInput)
      else if t.inputs[index].txid != p.point.txid || t.inputs[index].vout != p.point.vout then r == Err(WrongPrevout)
      else if !Standard(p.script, p.form.NativeP2WPKH?) then r == Err(WrongScript)
      else r == Ok(c.doubleSha(Preimage(c, t, index, AsHd(p))))
  {
    DigestsAgree(c, t, index, p);
    DigestExactly(c, t, index, AsHd(p));
    StandardForms(p.script);
    if hash :| PaysKeyHash(p.script, p.form.NativeP2WPKH?, hash) {
      HashOfForm(p.script, p.form.NativeP2WPKH?, hash);
    }
    hide Digest, Preimage, Print, PrintMany, LE, LEInt32, PaysKeyHash, IsP2PKH, IsP2WPKH;
  }

  predicate KeyUnlocks(c: Crypto, t: Transaction, index: nat, p: KeyPrevout, der: bytes, public: bytes)
    requires WfHeader(t.version, t.locktime) && index < |t.inputs|
  {
    var i, segwit := t.inputs[index], p.form.NativeP2WPKH?;
    && |public| == (if p.form.UncompressedP2PKH? then 65 else 33) && c.canonicalKey(public, !p.form.UncompressedP2PKH?)
    && (if segwit then i.scriptSig == [] && i.stack == [der + [1], public]
        else i.stack == [] && DirectPushes(i.scriptSig) == Ok([der + [1], public]))
    && PaysKeyHash(p.script, segwit, c.hash160(public))
    && KeyDigest(c, t, index, p).Ok? && c.verify(public, der, KeyDigest(c, t, index, p).value)
  }

  /** An input of the single-key wallet verifies exactly when some signature and canonical key of its form unlock it. */
  lemma KeyVerifyInputExactly(c: Crypto, t: Transaction, index: nat, p: KeyPrevout)
    requires WfHeader(t.version, t.locktime) && forall x :: |c.hash160(x)| == 20
    ensures KeyVerifyInput(c, t, index, p) <==> index < |t.inputs| && exists der, public :: KeyUnlocks(c, t, index, p, der, public)
  {
    hide DirectPushes, KeyDigest;
    if KeyVerifyInput(c, t, index, p) {
      var i := t.inputs[index];
      var items := if p.form.NativeP2WPKH? then i.stack else DirectPushes(i.scriptSig).value;
      var signature := items[0];
      Pair(items);
      assert signature == signature[..|signature| - 1] + [1];
      assert KeyUnlocks(c, t, index, p, signature[..|signature| - 1], items[1]);
    }
    if index < |t.inputs| && exists der, public :: KeyUnlocks(c, t, index, p, der, public) {
      var der, public :| KeyUnlocks(c, t, index, p, der, public);
      assert (der + [1])[..|der + [1]| - 1] == der;
    }
  }

  /** All inputs verify exactly when there is one prevout for each, of one form, and each verifies. */
  lemma KeyVerifyAllExactly(c: Crypto, t: Transaction, prevouts: seq<KeyPrevout>)
    requires WfHeader(t.version, t.locktime)
    ensures
      KeyVerifyAll(c, t, prevouts) <==>
        && |t.inputs| == |prevouts| > 0 && (forall p, q :: p in prevouts && q in prevouts ==> p.form == q.form)
        && forall k :: 0 <= k < |prevouts| ==> KeyVerifyInput(c, t, k, prevouts[k])
  {
    hide KeyVerifyInput;
  }

  /** The key owns this output and the input spends it. */
  predicate KeyControls(c: Crypto, key: bytes, i: TxInput, p: KeyPrevout) {
    && i.txid == p.point.txid && i.vout == p.point.vout
    && PaysKeyHash(p.script, p.form.NativeP2WPKH?, c.hash160(c.publicKey(key, p.form != UncompressedP2PKH)))
  }

  lemma KeySignedIsControlled(c: Crypto, key: bytes, t: Transaction, index: nat, p: KeyPrevout)
    requires Signing.Sound(c) && WfHeader(t.version, t.locktime) && index < |t.inputs| && KeySignedInput(c, key, t, index, p).Ok?
    ensures KeyControls(c, key, t.inputs[index], p)
  {
    var i := t.inputs[index].(scriptSig := [], stack := []);
    var u := t.(inputs := t.inputs[index := i]);
    assert KeyDigest(c, u, index, p).Ok?;
    assert OutpointOf(u.inputs[index]) == p.point by {
      hide Print, LE, LEInt32, PrintMany;
    }
    hide KeyDigest;
  }

  /** A transaction is signed by the single key exactly when every prevout pays it, in the order of the inputs, in one form. */
  lemma KeySignExactly(c: Crypto, key: bytes, t: Transaction, prevouts: seq<KeyPrevout>)
    requires Signing.Sound(c) && WfHeader(t.version, t.locktime)
    ensures
      KeySign(c, key, t, prevouts).Ok? <==>
        && |t.inputs| == |prevouts| > 0 && (forall p :: p in prevouts ==> p.form == prevouts[0].form)
        && forall k :: 0 <= k < |prevouts| ==> KeyControls(c, key, t.inputs[k], prevouts[k])
  {
    hide KeySignedInput, Signing.Sound, KeyVerifyAll, KeySignFrom;
    if |t.inputs| == |prevouts| && OneForm(prevouts) {
      if forall k :: 0 <= k < |prevouts| ==> KeyControls(c, key, t.inputs[k], prevouts[k]) {
        KeySignSucceeds(c, key, t, prevouts, 0);
      }
      if KeySignFrom(c, key, t, prevouts, 0).Ok? {
        KeySigningCloses(c, key, t, prevouts);
        KeySignFromMeans(c, key, t, prevouts, 0);
        forall k | 0 <= k < |prevouts| ensures KeyControls(c, key, t.inputs[k], prevouts[k]) {
          KeySignedIsControlled(c, key, t, k, prevouts[k]);
        }
      }
    }
  }

  /** Why one input is not signed by the single key: it does not own the output, or the input spends another one. */
  lemma KeySignedInputInOrder(c: Crypto, key: bytes, t: Transaction, index: nat, p: KeyPrevout)
    requires Signing.Sound(c) && WfHeader(t.version, t.locktime) && index < |t.inputs|
    ensures
      var r := KeySignedInput(c, key, t, index, p);
      if !PaysKeyHash(p.script, p.form.NativeP2WPKH?, c.hash160(c.publicKey(key, p.form != UncompressedP2PKH))) then r == Err(NotControlled)
      else if t.inputs[index].txid != p.point.txid || t.inputs[index].vout != p.point.vout then r == Err(WrongPrevout)
      else r.Ok?
  {
    var public := c.publicKey(key, p.form != UncompressedP2PKH);
    StandardScripts(c.hash160(public));
    if PaysKeyHash(p.script, p.form.NativeP2WPKH?, c.hash160(public)) && t.inputs[index].txid == p.point.txid && t.inputs[index].vout == p.point.vout {
      ControlledInputIsSigned(c, key, t, index, p);
    }
    hide Print, LE, LEInt32, PrintMany, CompactSize, PrintOutpoint;
  }

  /** The single key refuses a wrong number or mixed forms of prevouts at once. */
  lemma KeySignRefusesMixed(c: Crypto, key: bytes, t: Transaction, prevouts: seq<KeyPrevout>)
    requires WfHeader(t.version, t.locktime)
    requires |t.inputs| != |prevouts| || prevouts == [] || exists p :: p in prevouts && p.form != prevouts[0].form
    ensures KeySign(c, key, t, prevouts) == Err(BadInputs)
  {
    hide KeySignFrom, KeyVerifyAll;
  }

  /** What signing assumes of the primitives can be met. */
  lemma SoundIsPossible() returns (c: Crypto)
    ensures Signing.Sound(c)
  {
    c := Crypto(
      x => seq(32, _ => 0),
      x => seq(20, _ => 0),
      (key, compressed) => if compressed then [2] + seq(32, _ => 0) else [4] + seq(64, _ => 0),
      (key, digest) => [0],
      (public, signature, digest) => true,
      (public, compressed) => true);
  }
}
