/** The in-place signing loop of `tx/signer.py`, over a transaction object whose inputs it rewrites. */
module Signer {
  import opened Wrappers
  import opened Transactions
  import opened Addresses
  import opened Scripts
  import opened Sighash
  import opened Signing

  class TransactionObject {
    var version: int
    var inputs: seq<TxInput>
    var outputs: seq<TxOutput>
    var locktime: nat

    function Contents(): Transaction
      reads this
    {
      Transaction(version, inputs, outputs, locktime)
    }

    constructor (t: Transaction)
      ensures Contents() == t
    {
      version, inputs, outputs, locktime := t.version, t.inputs, t.outputs, t.locktime;
    }

    /** Clear input `index`, sign what is then there, and fill the input in. */
    method SignOne(c: Crypto, session: Session, index: nat, p: Prevout) returns (r: Option<SigningError>)
      requires WfHeader(version, locktime) && index < |inputs|
      modifies this`inputs
      ensures
        match SignedInput(c, session, old(Contents()), index, p)
        case Ok(i) => r == None && inputs == old(inputs)[index := i]
        case Err(e) => r == Some(e) && (inputs == old(inputs) || inputs == old(inputs)[index := old(inputs)[index].(scriptSig := [], stack := [])])
    {
      if OutpointOf(inputs[index]) != p.point {
        return Some(OrderMismatch);
      }
      inputs := inputs[index := inputs[index].(scriptSig := [], stack := [])];
      hide Digest, SignDigest, PushAll;
      var digest := Digest(c, Contents(), index, p);
      if digest.Err? {
        return Some(NoDigest(digest.error));
      }
      var signed := SignDigest(c, session, p, digest.value);
      if signed.Err? {
        return Some(signed.error);
      }
      var (der, public) := signed.value;
      var signature := der + [SIGHASH_ALL];
      if p.kind.P2WPKH? {
        inputs := inputs[index := inputs[index].(stack := [signature, public])];
      } else {
        var script := PushAll([signature, public]);
        if script.Err? {
          return Some(SignatureTooLarge);
        }
        inputs := inputs[index := inputs[index].(scriptSig := script.value)];
      }
      r := None;
    }

    /** `sign_transaction`: on success the object holds the signed transaction; otherwise its skeleton is kept. */
    method SignTransaction(c: Crypto, session: Session, prevouts: seq<Prevout>) returns (r: Option<SigningError>)
      requires WfHeader(version, locktime)
      modifies this`inputs
      ensures
        match Sign(c, session, old(Contents()), prevouts)
        case Ok(t) => r == None && Contents() == t
        case Err(e) => r == Some(e)
      ensures SameSkeleton(old(Contents()), Contents())
    {
      if |inputs| != |prevouts| {
        return Some(CountMismatch);
      }
      if !OneSpendableKind(prevouts) {
        return Some(UnsupportedTypes);
      }
      hide SignedInput, VerifyInput;
      ghost var unsigned := Contents();
      for index := 0 to |prevouts|
        invariant |inputs| == |prevouts| && SameSkeleton(unsigned, Contents())
        invariant SignFrom(c, session, unsigned, prevouts, 0) == SignFrom(c, session, Contents(), prevouts, index)
      {
        ghost var before := Contents();
        r := SignOne(c, session, index, prevouts[index]);
        SkeletonKept(c, session, before, Contents(), index, prevouts[index]);
        SkeletonTransitive(unsigned, before, Contents());
        if r.Some? {
          return;
        }
      }
      var verified := VerifyAllInputs(c, prevouts);
      var results := verified.value;
      if exists k :: 0 <= k < |results| && !results[k] {
        return Some(VerificationFailed);
      }
      if ValueIn(prevouts) < OutputTotal(outputs) {
        return Some(OutputsExceedInputs);
      }
      r := None;
    }

    /** `verify_all_inputs`: one answer for each input. */
    method VerifyAllInputs(c: Crypto, prevouts: seq<Prevout>) returns (r: Result<seq<bool>, SigningError>)
      requires WfHeader(version, locktime)
      ensures r.Err? <==> |prevouts| != |inputs|
      ensures r.Err? ==> r.error == CountMismatch
      ensures r.Ok? ==> |r.value| == |prevouts| && forall k :: 0 <= k < |prevouts| ==> r.value[k] == VerifyInput(c, Contents(), k, prevouts[k])
    {
      if |prevouts| != |inputs| {
        return Err(CountMismatch);
      }
      hide VerifyInput;
      var results := [];
      for index := 0 to |prevouts|
        invariant |results| == index && forall k :: 0 <= k < index ==> results[k] == VerifyInput(c, Contents(), k, prevouts[k])
      {
        results := results + [VerifyInput(c, Contents(), index, prevouts[index])];
      }
      r := Ok(results);
    }
  }

  lemma SkeletonKept(c: Crypto, session: Session, t: Transaction, u: Transaction, index: nat, p: Prevout)
    requires WfHeader(t.version, t.locktime) && index < |t.inputs|
    requires u == t.(inputs := u.inputs)
    requires
      match SignedInput(c, session, t, index, p)
      case Ok(i) => u.inputs == t.inputs[index := i]
      case Err(_) => u.inputs == t.inputs || u.inputs == t.inputs[index := t.inputs[index].(scriptSig := [], stack := [])]
    ensures SameSkeleton(t, u)
  {
    if SignedInput(c, session, t, index, p).Ok? {
      SignedInputOutline(c, session, t, index, p);
    }
  }
}
