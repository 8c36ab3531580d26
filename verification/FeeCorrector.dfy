/** The correction loops as written: sign in place, measure, lower one output in place, try again. */
module FeeCorrector {
  import opened Wrappers
  import opened Transactions
  import opened Addresses
  import opened FeeEstimate
  import opened FeeCorrection
  import opened SingleKeyFeeCorrection
  import opened Signer
  import Sighash
  import Signing
  import SingleKeySelection
  import SingleKeySigning
  import SingleKeySigner

  /** One pass of the HD loop; `done` when the fee suffices. */
  method AttemptOnce(tx: TransactionObject, j: Job) returns (r: Option<CorrectionError>, done: bool)
    requires WfHeader(tx.version, tx.locktime) && 0 < j.rate.den
    modifies tx`inputs, tx`outputs
    ensures
      match Attempt(j, old(tx.Contents()))
      case Err(e) => r == Some(e)
      case Ok((signed, None)) => r == None && done && tx.Contents() == signed
      case Ok((_, Some(next))) => r == None && !done && tx.Contents() == next
  {
    hide Fee, VSize, Signing.Sign, Signing.ValueIn, OutputTotal, Sighash.SameSkeleton;
    done := false;
    var failed := tx.SignTransaction(j.crypto, j.session, j.prevouts);
    if failed.Some? {
      return Some(SigningFailed(failed.value)), false;
    }
    var fee := Paid(j, tx.Contents());
    var minimum := Fee(VSize(tx.Contents()), j.rate);
    if fee >= minimum {
      return None, true;
    }
    if j.change.None? || j.change.value >= |tx.outputs| {
      return Some(NoChange), false;
    }
    var value := tx.outputs[j.change.value].value - (minimum - fee);
    if j.prevouts == [] || value < Dust(j.prevouts[0].kind) {
      return Some(BecameDust), false;
    }
    tx.outputs := tx.outputs[j.change.value := tx.outputs[j.change.value].(value := value)];
    r := None;
  }

  /** The three tries of `_sign_funded_transaction`. */
  method CorrectFee(tx: TransactionObject, j: Job) returns (r: Option<CorrectionError>)
    requires WfHeader(tx.version, tx.locktime) && 0 < j.rate.den
    modifies tx`inputs, tx`outputs
    ensures
      match Correct(j, old(tx.Contents()), 3)
      case Ok(t) => r == None && tx.Contents() == t
      case Err(e) => r == Some(e)
  {
    hide Attempt;
    ghost var funded := tx.Contents();
    for i := 0 to 3
      invariant Correct(j, funded, 3) == Correct(j, tx.Contents(), 3 - i)
    {
      ghost var before := tx.Contents();
      var failed, done := AttemptOnce(tx, j);
      assert Correct(j, before, 3 - i) == CorrectStep(j, before, 3 - i);
      if failed.Some? || done {
        return failed;
      }
    }
    r := Some(RateNotReached);
  }

  ghost function CorrectStep(j: Job, t: Transaction, tries: nat): Result<Transaction, CorrectionError>
    requires WfHeader(t.version, t.locktime) && 0 < j.rate.den && tries > 0
  {
    match Attempt(j, t)
    case Err(e) => Err(e)
    case Ok((signed, None)) => Ok(signed)
    case Ok((_, Some(next))) => Correct(j, next, tries - 1)
  }

  /** One pass of the single-key loop. */
  method KeyAttemptOnce(tx: TransactionObject, j: KeyJob) returns (r: Option<CorrectionError>, done: bool)
    requires WfHeader(tx.version, tx.locktime) && 0 < j.rate.den
    modifies tx`inputs, tx`outputs
    ensures
      match KeyAttempt(j, old(tx.Contents()))
      case Err(e) => r == Some(e)
      case Ok((signed, None)) => r == None && done && tx.Contents() == signed
      case Ok((_, Some(next))) => r == None && !done && tx.Contents() == next
  {
    hide Fee, VSize, SingleKeySelection.DustOf, SingleKeySigning.KeySign, OutputTotal;
    done := false;
    var failed := SingleKeySigner.SignTransaction(tx, j.crypto, j.key, j.prevouts);
    if failed.Some? {
      return Some(KeySigningFailed(failed.value)), false;
    }
    var fee := KeyPaid(j, tx.Contents());
    var vsize := VSize(tx.Contents());
    if !(1 <= vsize <= 400_000) {
      return Some(RateNotReached), false;
    }
    var required := Fee(vsize, j.rate);
    if j.maxFee.Some? && (fee > j.maxFee.value || required > j.maxFee.value) {
      return Some(FeeAboveLimit), false;
    }
    if fee >= required {
      return None, true;
    }
    var position := Adjustable(j, tx.outputs);
    if position.None? {
      return Some(NoChange), false;
    }
    var output := tx.outputs[position.value];
    var value := output.value - (required - fee);
    var dust := SingleKeySelection.DustOf(output.script);
    if dust.None? || value < dust.value {
      return Some(BecameDust), false;
    }
    tx.outputs := tx.outputs[position.value := output.(value := value)];
    r := None;
  }

  /** The eight tries of `prepare_send`. */
  method KeyCorrectFee(tx: TransactionObject, j: KeyJob) returns (r: Option<CorrectionError>)
    requires WfHeader(tx.version, tx.locktime) && 0 < j.rate.den
    modifies tx`inputs, tx`outputs
    ensures
      match KeyCorrect(j, old(tx.Contents()), 8)
      case Ok(t) => r == None && tx.Contents() == t
      case Err(e) => r == Some(e)
  {
    hide KeyAttempt;
    ghost var funded := tx.Contents();
    for i := 0 to 8
      invariant KeyCorrect(j, funded, 8) == KeyCorrect(j, tx.Contents(), 8 - i)
    {
      ghost var before := tx.Contents();
      var failed, done := KeyAttemptOnce(tx, j);
      assert KeyCorrect(j, before, 8 - i) == KeyCorrectStep(j, before, 8 - i);
      if failed.Some? || done {
        return failed;
      }
    }
    r := Some(RateNotReached);
  }

  ghost function KeyCorrectStep(j: KeyJob, t: Transaction, tries: nat): Result<Transaction, CorrectionError>
    requires WfHeader(t.version, t.locktime) && 0 < j.rate.den && tries > 0
  {
    match KeyAttempt(j, t)
    case Err(e) => Err(e)
    case Ok((signed, None)) => Ok(signed)
    case Ok((_, Some(next))) => KeyCorrect(j, next, tries - 1)
  }
}
