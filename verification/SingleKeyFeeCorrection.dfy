/** The fee-correction loop of `prepare_send` (`single_key_wallet/transaction.py`). */
module SingleKeyFeeCorrection {
  import opened Wrappers
  import opened Bytes
  import opened Transactions
  import opened FeeEstimate
  import opened CoinSelection
  import opened FeeCorrection
  import opened SingleKeySelection
  import opened SingleKeySigning
  import Coins
  import Sighash
  import Signing

  /** What the loop holds fixed. */
  datatype KeyJob = KeyJob(
    crypto: Sighash.Crypto,
    key: bytes,
    prevouts: seq<KeyPrevout>,
    rate: Rate,
    inputTotal: int,
    sendAll: bool,
    maxFee: Option<int>)

  function KeyPaid(j: KeyJob, t: Transaction): int {
    j.inputTotal - OutputTotal(t.outputs)
  }

  /** The output that pays for a correction: the destination when sending all, else the change. */
  function Adjustable(j: KeyJob, outputs: seq<TxOutput>): Option<nat> {
    if j.sendAll && outputs != [] then Some(0)
    else if !j.sendAll && |outputs| == 2 then Some(1)
    else None
  }

  /** One pass: sign, measure, and either finish or lower the adjustable output. */
  function KeyAttempt(j: KeyJob, t: Transaction): (r: Result<(Transaction, Option<Transaction>), CorrectionError>)
    requires WfHeader(t.version, t.locktime) && 0 < j.rate.den
    ensures r.Ok? ==> WfHeader(r.value.0.version, r.value.0.locktime)
    ensures r.Ok? && r.value.1.Some? ==> WfHeader(r.value.1.value.version, r.value.1.value.locktime)
  {
    match KeySign(j.crypto, j.key, t, j.prevouts)
    case Err(e) => Err(KeySigningFailed(e))
    case Ok(signed) =>
      var fee, vsize := KeyPaid(j, signed), VSize(signed);
      if !(1 <= vsize <= 400_000) then Err(RateNotReached)
      else
        var required := Fee(vsize, j.rate);
        if j.maxFee.Some? && (fee > j.maxFee.value || required > j.maxFee.value) then Err(FeeAboveLimit)
        else if fee >= required then Ok((signed, None))
        else
          match Adjustable(j, signed.outputs)
          case None => Err(NoChange)
          case Some(position) =>
            var value := signed.outputs[position].value - (required - fee);
            var dust := DustOf(signed.outputs[position].script);
            if dust.None? || value < dust.value then Err(BecameDust)
            else Ok((signed, Some(WithOutputValue(signed, position, value))))
  }

  function KeyCorrect(j: KeyJob, t: Transaction, tries: nat): Result<Transaction, CorrectionError>
    requires WfHeader(t.version, t.locktime) && 0 < j.rate.den
    decreases tries
  {
    if tries == 0 then Err(RateNotReached)
    else
      var (signed, retry) :- KeyAttempt(j, t);
      match retry
      case None => Ok(signed)
      case Some(next) => KeyCorrect(j, next, tries - 1)
  }

  /** Only the adjustable output may shrink. */
  predicate OnlyAdjustableShrank(j: KeyJob, before: seq<TxOutput>, after: seq<TxOutput>) {
    || after == before
    || (var a := Adjustable(j, before);
        && a.Some? && |before| == |after|
        && after == before[a.value := before[a.value].(value := after[a.value].value)]
        && after[a.value].value < before[a.value].value
        && DustOf(before[a.value].script).Some? && after[a.value].value >= DustOf(before[a.value].script).value)
  }

  lemma KeySignKeepsSkeleton(j: KeyJob, t: Transaction)
    requires WfHeader(t.version, t.locktime) && KeySign(j.crypto, j.key, t, j.prevouts).Ok?
    ensures Sighash.SameSkeleton(t, KeySign(j.crypto, j.key, t, j.prevouts).value)
  {
    KeySignFromMeans(j.crypto, j.key, t, j.prevouts, 0);
    hide KeySignFrom, KeyVerifyAll, KeySignedInput;
  }

  /**
   * One pass of the single-key loop: within the fee limit, a transaction that pays the rate is final;
   * otherwise the one adjustable output, the change or the only output when everything is sent, is lowered
   * so that the fee is exactly what the size demands, unless it would fall below its dust limit.
   */
  lemma KeyAttemptExactly(j: KeyJob, t: Transaction)
    requires WfHeader(t.version, t.locktime) && 0 < j.rate.den
    ensures
      match KeySign(j.crypto, j.key, t, j.prevouts)
      case Err(e) => KeyAttempt(j, t) == Err(KeySigningFailed(e))
      case Ok(signed) =>
        var r, n := KeyAttempt(j, t), |signed.outputs|;
        var demanded, paid := Fee(VSize(signed), j.rate), j.inputTotal - OutputTotal(signed.outputs);
        var position := if j.sendAll then 0 else 1;
        if !(1 <= VSize(signed) <= 400_000) then r == Err(RateNotReached)
        else if j.maxFee.Some? && (paid > j.maxFee.value || demanded > j.maxFee.value) then r == Err(FeeAboveLimit)
        else if paid >= demanded then r == Ok((signed, None))
        else if (j.sendAll && n == 0) || (!j.sendAll && n != 2) then r == Err(NoChange)
        else
          var o := signed.outputs[position];
          if DustOf(o.script).None? || o.value < demanded - paid + DustOf(o.script).value then r == Err(BecameDust)
          else
            && r.Ok? && r.value.0 == signed && r.value.1.Some?
            && Lowers(signed, r.value.1.value, position) && j.inputTotal - OutputTotal(r.value.1.value.outputs) == demanded
  {
    hide KeySign, Fee, VSize, OutputTotal, DustOf;
    if KeySign(j.crypto, j.key, t, j.prevouts).Ok? {
      var signed := KeySign(j.crypto, j.key, t, j.prevouts).value;
      var a := Adjustable(j, signed.outputs);
      if a.Some? {
        var lowered := signed.outputs[a.value].value - (Fee(VSize(signed), j.rate) - KeyPaid(j, signed));
        if lowered >= 0 {
          TotalOfUpdate(signed.outputs, a.value, signed.outputs[a.value].(value := lowered));
        }
      }
    }
  }

  /** The passes follow one another until one is final or fails, and after the last one the rate was not reached. */
  lemma KeyTriesExactly(j: KeyJob, t: Transaction, tries: nat)
    requires WfHeader(t.version, t.locktime) && 0 < j.rate.den
    ensures KeyCorrect(j, t, 0) == Err(RateNotReached)
    ensures
      var pass := KeyAttempt(j, t);
      KeyCorrect(j, t, tries + 1) ==
        if pass.Err? then Err(pass.error)
        else if pass.value.1 == None then Ok(pass.value.0)
        else KeyCorrect(j, pass.value.1.value, tries)
  {
    hide KeyAttempt;
  }

  /** Whatever the loop returns pays the rate within the limit, and only the adjustable output paid for it. */
  lemma {:induction false} KeyCorrectMeans(j: KeyJob, t: Transaction, tries: nat)
    requires WfHeader(t.version, t.locktime) && 0 < j.rate.den && KeyCorrect(j, t, tries).Ok?
    ensures
      var r := KeyCorrect(j, t, tries).value;
      && WfHeader(r.version, r.locktime) && KeyPaid(j, r) >= Fee(VSize(r), j.rate)
      && (j.maxFee.Some? ==> KeyPaid(j, r) <= j.maxFee.value)
      && OnlyAdjustableShrank(j, t.outputs, r.outputs)
    decreases tries
  {
    hide KeySign, Fee, VSize, DustOf;
    KeySignKeepsSkeleton(j, t);
    var (signed, retry) := KeyAttempt(j, t).value;
    if retry.Some? {
      var next := retry.value;
      KeyCorrectMeans(j, next, tries - 1);
      var r := KeyCorrect(j, t, tries).value;
      hide KeyAttempt, KeyCorrect;
      AdjustedTwice(j, t.outputs, next.outputs, r.outputs);
    }
  }

  lemma AdjustedTwice(j: KeyJob, a: seq<TxOutput>, b: seq<TxOutput>, c: seq<TxOutput>)
    requires OnlyAdjustableShrank(j, a, b) && OnlyAdjustableShrank(j, b, c)
    ensures OnlyAdjustableShrank(j, a, c)
  {
    hide DustOf;
  }

  // ----- From coin selection to the signed fee -----

  /** The outputs `prepare_send` builds from a selection. */
  function Outputs(k: KeyRequest, s: Selection): seq<TxOutput> {
    [TxOutput(if s.target >= 0 then s.target else 0, k.destination)] + if s.plan.change > 0 then [TxOutput(s.plan.change, k.source)] else []
  }

  /** What both modes of the selector promise about sizes and fees, for every key form. */
  predicate PaysEstimate(k: KeyRequest, s: Selection)
    requires 0 < k.rate.den
  {
    && s.coins != [] && s.target >= 0 && s.total == s.target + s.plan.change + s.plan.fee
    && s.plan.vsize == SingleKeyEstimate(|s.coins|, k.form, Outputs(k, s))
    && s.plan.fee >= Fee(s.plan.vsize, k.rate)
    && s.plan.vsize * 4 <= 400_000 && (k.maxFee.Some? ==> s.plan.fee <= k.maxFee.value)
  }

  lemma SizeIgnoresValues(count: nat, form: SpendType, a: seq<TxOutput>, b: seq<TxOutput>)
    requires |a| == |b| && forall i :: 0 <= i < |a| ==> a[i].script == b[i].script
    ensures SingleKeyEstimate(count, form, a) == SingleKeyEstimate(count, form, b)
  {
    OutputsSizeIgnoresValues(a, b);
    hide OutputsSize, CompactSize;
  }

  lemma {:induction false} OutputsSizeIgnoresValues(a: seq<TxOutput>, b: seq<TxOutput>)
    requires |a| == |b| && forall i :: 0 <= i < |a| ==> a[i].script == b[i].script
    ensures OutputsSize(a) == OutputsSize(b)
  {
    if a != [] {
      OutputsSizeIgnoresValues(a[1..], b[1..]);
    }
  }

  lemma TryPays(count: nat, total: int, amount: nat, k: KeyRequest)
    requires ValidRate(k.rate) && Try(count, total, amount, k).Ok? && Try(count, total, amount, k).value.Some?
    ensures
      var plan := Try(count, total, amount, k).value.value;
      && total == amount + plan.change + plan.fee && plan.fee >= Fee(plan.vsize, k.rate)
      && plan.vsize == SingleKeyEstimate(count, k.form,
           [TxOutput(amount, k.destination)] + if plan.change > 0 then [TxOutput(0, k.source)] else [])
  {
    var pay, own := TxOutput(amount, k.destination), TxOutput(0, k.source);
    assert [pay, own][..1] == [pay] && [pay] + [own] == [pay, own] && [pay] + [] == [pay];
    assert DustOf(k.source).Some? ==> DustOf(k.source).value > 0;
    hide SingleKeyEstimate, Fee, DustOf;
  }

  lemma {:induction false} TakePays(selected: seq<Coins.Coin>, candidates: seq<Coins.Coin>, amount: nat, k: KeyRequest)
    requires ValidRate(k.rate) && Take(selected, candidates, amount, k).Ok?
    ensures
      var (coins, plan) := Take(selected, candidates, amount, k).value;
      coins != [] && Try(|coins|, Coins.Total(coins), amount, k) == Ok(Some(plan))
    decreases |candidates|
  {
    hide Try, Coins.Total;
    if candidates != [] && Try(|selected| + 1, Coins.Total(selected + [candidates[0]]), amount, k) == Ok(None) {
      TakePays(selected + [candidates[0]], candidates[1..], amount, k);
    }
  }

  lemma SelectAmountPays(utxos: seq<KeyCoin>, k: KeyRequest, amount: int)
    requires ValidRate(k.rate) && SelectAmount(utxos, k, amount).Ok?
    ensures PaysEstimate(k, SelectAmount(utxos, k, amount).value)
  {
    hide KeyRefusal, Spendables, Coins.Sorted, Try, Fee, SingleKeyEstimate, DustOf;
    var candidates := Coins.Sorted(Spendables(utxos, k));
    TakePays([], candidates, amount, k);
    var (coins, plan) := Take([], candidates, amount, k).value;
    hide Take;
    TryPays(|coins|, Coins.Total(coins), amount, k);
    var s := SelectAmount(utxos, k, amount).value;
    SizeIgnoresValues(|coins|, k.form, Outputs(k, s), [TxOutput(amount, k.destination)] + if plan.change > 0 then [TxOutput(0, k.source)] else []);
  }

  lemma SelectEverythingPays(utxos: seq<KeyCoin>, k: KeyRequest)
    requires ValidRate(k.rate) && SelectEverything(utxos, k).Ok?
    ensures PaysEstimate(k, SelectEverything(utxos, k).value)
  {
    hide KeyRefusal, Spendables, Coins.Sorted, Fee, SingleKeyEstimate, DustOf;
    var s := SelectEverything(utxos, k).value;
    SizeIgnoresValues(|s.coins|, k.form, Outputs(k, s), [TxOutput(0, k.destination)]);
  }

  /** The prevouts of the transaction to sign are the selected coins, all of the requested form. */
  predicate KeyFunded(k: KeyRequest, s: Selection, t: Transaction, j: KeyJob) {
    && |t.inputs| == |j.prevouts| == |s.coins| && t.outputs == Outputs(k, s)
    && j.rate == k.rate && j.maxFee == k.maxFee && j.inputTotal == s.total
    && forall p :: p in j.prevouts ==> p.form == k.form
  }

  lemma OutputsTotal(k: KeyRequest, s: Selection)
    requires s.target >= 0
    ensures OutputTotal(Outputs(k, s)) == s.target + s.plan.change
  {
    var pay := TxOutput(s.target, k.destination);
    OutputTotalAppend([], pay);
    assert [] + [pay] == [pay] && [pay] + [] == [pay];
    if s.plan.change > 0 {
      OutputTotalAppend([pay], TxOutput(s.plan.change, k.source));
    }
  }

  /**
   * What the single-key selector funded is signed in one pass, for all three key forms: the fee paid is
   * the fee estimated, and the signed weight stays within the standard limit.
   */
  lemma KeyFundedFeeIsFinal(k: KeyRequest, s: Selection, t: Transaction, j: KeyJob)
    requires Signing.Sound(j.crypto) && WfTx(t) && ValidRate(k.rate)
    requires PaysEstimate(k, s) && KeyFunded(k, s, t, j) && KeySign(j.crypto, j.key, t, j.prevouts).Ok?
    ensures
      var signed := KeySign(j.crypto, j.key, t, j.prevouts).value;
      && KeyCorrect(j, t, 8) == Ok(signed) && signed.outputs == t.outputs
      && KeyPaid(j, signed) == s.plan.fee && Weight(signed) <= 400_000
  {
    hide Signing.Sound, KeySign, SingleKeyEstimate, Fee, OutputTotal, Print, Outputs, SignedBy;
    var signed := KeySign(j.crypto, j.key, t, j.prevouts).value;
    KeySignKeepsSkeleton(j, t);
    KeySignedShape(j.crypto, j.key, t, j.prevouts);
    assert j.prevouts[0] in j.prevouts;
    EstimateBoundsSize(signed, k.form);
    FeeMonotone(VSize(signed), s.plan.vsize, k.rate);
    OutputsTotal(k, s);
    SizeIsPositive(signed);
  }

  lemma SizeIsPositive(t: Transaction)
    requires WfHeader(t.version, t.locktime)
    ensures VSize(t) >= 1
  {
    hide LE, LEInt32, PrintMany, CompactSize;
  }
}
