/** The in-place signing loop of `single_key_wallet/signing.py`. */
module SingleKeySigner {
  import opened Wrappers
  import opened Bytes
  import opened Transactions
  import opened Sighash
  import opened FeeEstimate
  import opened Signer
  import opened SingleKeySigning

  method SignOne(tx: TransactionObject, c: Crypto, key: bytes, index: nat, p: KeyPrevout) returns (r: Option<KeySigningError>)
    requires WfHeader(tx.version, tx.locktime) && index < |tx.inputs|
    modifies tx`inputs
    ensures
      match KeySignedInput(c, key, old(tx.Contents()), index, p)
      case Ok(i) => r == None && tx.inputs == old(tx.inputs)[index := i]
      case Err(e) => r == Some(e)
  {
    hide KeyDigest;
    var public := c.publicKey(key, !p.form.UncompressedP2PKH?);
    if KeyScript(c, p.form, public) != p.script {
      return Some(NotControlled);
    }
    tx.inputs := tx.inputs[index := tx.inputs[index].(scriptSig := [], stack := [])];
    var digest := KeyDigest(c, tx.Contents(), index, p);
    if digest.Err? {
      return Some(digest.error);
    }
    var signature := c.sign(key, digest.value) + [1];
    if p.form.NativeP2WPKH? {
      tx.inputs := tx.inputs[index := tx.inputs[index].(stack := [signature, public])];
    } else {
      if |signature| > 255 || |public| > 255 {
        return Some(PushOverflow);
      }
      tx.inputs := tx.inputs[index := tx.inputs[index].(scriptSig := [|signature|] + signature + [|public|] + public)];
    }
    r := None;
  }

  method SignTransaction(tx: TransactionObject, c: Crypto, key: bytes, prevouts: seq<KeyPrevout>) returns (r: Option<KeySigningError>)
    requires WfHeader(tx.version, tx.locktime)
    modifies tx`inputs
    ensures
      match KeySign(c, key, old(tx.Contents()), prevouts)
      case Ok(t) => r == None && tx.Contents() == t
      case Err(e) => r == Some(e)
  {
    hide KeySignedInput, KeyVerifyAll;
    if |tx.inputs| != |prevouts| || !OneForm(prevouts) {
      return Some(BadInputs);
    }
    ghost var unsigned := tx.Contents();
    for index := 0 to |prevouts|
      invariant |tx.inputs| == |prevouts|
      invariant KeySignFrom(c, key, unsigned, prevouts, 0) == KeySignFrom(c, key, tx.Contents(), prevouts, index)
    {
      r := SignOne(tx, c, key, index, prevouts[index]);
      if r.Some? {
        return;
      }
    }
    var valid := VerifyAllInputs(tx.Contents(), c, prevouts);
    r := if valid then None else Some(VerificationFailed);
  }

  /** `verify_all_inputs` stops at the first input that fails. */
  method VerifyAllInputs(t: Transaction, c: Crypto, prevouts: seq<KeyPrevout>) returns (valid: bool)
    requires WfHeader(t.version, t.locktime)
    ensures valid == KeyVerifyAll(c, t, prevouts)
  {
    hide KeyVerifyInput;
    if |t.inputs| != |prevouts| || !OneForm(prevouts) {
      return false;
    }
    for index := 0 to |prevouts|
      invariant forall k :: 0 <= k < index ==> KeyVerifyInput(c, t, k, prevouts[k])
    {
      if !KeyVerifyInput(c, t, index, prevouts[index]) {
        return false;
      }
    }
    valid := true;
  }
}
