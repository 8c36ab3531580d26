/**
 * The fee-correction loops after signing (`tx/workflow.py`, `single_key_wallet/transaction.py`): what
 * they may change, and that on a funded transaction they change nothing.
 */
module FeeCorrection {
  import opened Wrappers
  import opened Bytes
  import opened Transactions
  import opened Addresses
  import opened FeeEstimate
  import opened CoinSelection
  import Coins
  import Sighash
  import Signing
  import SingleKeySigning

  datatype CorrectionError =
    | SigningFailed(cause: Signing.SigningError)
    | KeySigningFailed(reason: SingleKeySigning.KeySigningError)
    | NoChange
    | BecameDust
    | FeeAboveLimit
    | RateNotReached

  function WithOutputValue(t: Transaction, position: nat, value: nat): Transaction
    requires position < |t.outputs|
  {
    t.(outputs := t.outputs[position := t.outputs[position].(value := value)])
  }

  // ----- The HD loop -----

  /** What the HD signer holds fixed while it corrects the fee. */
  datatype Job = Job(
    crypto: Sighash.Crypto,
    session: Signing.Session,
    prevouts: seq<Sighash.Prevout>,
    rate: Rate,
    change: Option<nat>)

  function Paid(j: Job, t: Transaction): int {
    Signing.ValueIn(j.prevouts) - OutputTotal(t.outputs)
  }

  /** One signing, and the transaction to try next when the fee is short of the rate. */
  function Attempt(j: Job, t: Transaction): (r: Result<(Transaction, Option<Transaction>), CorrectionError>)
    requires WfHeader(t.version, t.locktime) && 0 < j.rate.den
    ensures r.Ok? ==> WfHeader(r.value.0.version, r.value.0.locktime)
    ensures r.Ok? && r.value.1.Some? ==> WfHeader(r.value.1.value.version, r.value.1.value.locktime)
  {
    match Signing.Sign(j.crypto, j.session, t, j.prevouts)
    case Err(e) => Err(SigningFailed(e))
    case Ok(signed) =>
      var minimum := Fee(VSize(signed), j.rate);
      if Paid(j, signed) >= minimum then Ok((signed, None))
      else if j.change.None? || j.change.value >= |signed.outputs| then Err(NoChange)
      else
        var value := signed.outputs[j.change.value].value - (minimum - Paid(j, signed));
        if j.prevouts == [] || value < Dust(j.prevouts[0].kind) then Err(BecameDust)
        else Ok((signed, Some(WithOutputValue(signed, j.change.value, value))))
  }

  /** `for _ in range(tries)` around one attempt. */
  function Correct(j: Job, t: Transaction, tries: nat): Result<Transaction, CorrectionError>
    requires WfHeader(t.version, t.locktime) && 0 < j.rate.den
    decreases tries
  {
    if tries == 0 then Err(RateNotReached)
    else
      var (signed, retry) :- Attempt(j, t);
      match retry
      case None => Ok(signed)
      case Some(next) => Correct(j, next, tries - 1)
  }

  /** Only the change may shrink, and it stays above dust. */
  predicate OnlyChangeShrank(j: Job, before: seq<TxOutput>, after: seq<TxOutput>) {
    || after == before
    || (&& j.change.Some? && j.change.value < |before| == |after| && j.prevouts != []
        && after == before[j.change.value := before[j.change.value].(value := after[j.change.value].value)]
        && Dust(j.prevouts[0].kind) <= after[j.change.value].value < before[j.change.value].value)
  }

  lemma SignKeepsSkeleton(j: Job, t: Transaction)
    requires WfHeader(t.version, t.locktime) && Signing.Sign(j.crypto, j.session, t, j.prevouts).Ok?
    ensures Sighash.SameSkeleton(t, Signing.Sign(j.crypto, j.session, t, j.prevouts).value)
  {
    Signing.SignFromMeans(j.crypto, j.session, t, j.prevouts, 0);
    hide Signing.SignFrom, Signing.VerifyAll, Signing.SignedInput;
  }

  lemma {:induction false} TotalOfUpdate(outputs: seq<TxOutput>, position: nat, o: TxOutput)
    requires position < |outputs|
    ensures OutputTotal(outputs[position := o]) == OutputTotal(outputs) - outputs[position].value + o.value
  {
    if position > 0 {
      assert outputs[position := o][1..] == outputs[1..][position - 1 := o];
      TotalOfUpdate(outputs[1..], position - 1, o);
    } else {
      assert outputs[0 := o][1..] == outputs[1..];
    }
  }

  /** The transaction to sign next: as signed, only the change output is worth less. */
  predicate Lowers(signed: Transaction, next: Transaction, position: nat) {
    && position < |signed.outputs| == |next.outputs|
    && next.version == signed.version && next.inputs == signed.inputs && next.locktime == signed.locktime
    && next.outputs[position].script == signed.outputs[position].script && next.outputs[position].value < signed.outputs[position].value
    && forall k :: 0 <= k < |signed.outputs| && k != position ==> next.outputs[k] == signed.outputs[k]
  }

  /**
   * One pass: a signed transaction that pays the rate for its size is final; otherwise its change is
   * lowered so that the fee is exactly what its size demands, unless there is no change or it would fall
   * below the dust limit of the spent type.
   */
  lemma AttemptExactly(j: Job, t: Transaction)
    requires WfHeader(t.version, t.locktime) && 0 < j.rate.den
    ensures
      match Signing.Sign(j.crypto, j.session, t, j.prevouts)
      case Err(e) => Attempt(j, t) == Err(SigningFailed(e))
      case Ok(signed) =>
        var demanded, paid := Fee(VSize(signed), j.rate), Signing.ValueIn(j.prevouts) - OutputTotal(signed.outputs);
        var r := Attempt(j, t);
        if paid >= demanded then r == Ok((signed, None))
        else if j.change.None? || j.change.value >= |signed.outputs| then r == Err(NoChange)
        else if signed.outputs[j.change.value].value < demanded - paid + Dust(j.prevouts[0].kind) then r == Err(BecameDust)
        else
          && r.Ok? && r.value.0 == signed && r.value.1.Some?
          && Lowers(signed, r.value.1.value, j.change.value)
          && Signing.ValueIn(j.prevouts) - OutputTotal(r.value.1.value.outputs) == demanded
  {
    hide Signing.Sign, Fee, VSize, Signing.ValueIn, OutputTotal, Dust;
    if Signing.Sign(j.crypto, j.session, t, j.prevouts).Ok? {
      var signed := Signing.Sign(j.crypto, j.session, t, j.prevouts).value;
      SignedHasPrevouts(j, t);
      if j.change.Some? && j.change.value < |signed.outputs| {
        var lowered := signed.outputs[j.change.value].value - (Fee(VSize(signed), j.rate) - Paid(j, signed));
        if lowered >= 0 {
          TotalOfUpdate(signed.outputs, j.change.value, signed.outputs[j.change.value].(value := lowered));
        }
      }
    }
  }

  lemma SignedHasPrevouts(j: Job, t: Transaction)
    requires WfHeader(t.version, t.locktime) && Signing.Sign(j.crypto, j.session, t, j.prevouts).Ok?
    ensures j.prevouts != []
  {
    hide Signing.SignFrom, Signing.VerifyAll;
  }

  /** The passes follow one another until one is final or fails, and after the last one the rate was not reached. */
  lemma TriesExactly(j: Job, t: Transaction, tries: nat)
    requires WfHeader(t.version, t.locktime) && 0 < j.rate.den
    ensures Correct(j, t, 0) == Err(RateNotReached)
    ensures
      var pass := Attempt(j, t);
      Correct(j, t, tries + 1) ==
        if pass.Err? then Err(pass.error)
        else if pass.value.1 == None then Ok(pass.value.0)
        else Correct(j, pass.value.1.value, tries)
  {
    hide Attempt;
  }

  /** Whatever the loop returns pays the requested rate, and no destination lost value to it. */
  lemma {:induction false} CorrectMeans(j: Job, t: Transaction, tries: nat)
    requires WfHeader(t.version, t.locktime) && 0 < j.rate.den && Correct(j, t, tries).Ok?
    ensures
      var r := Correct(j, t, tries).value;
      && WfHeader(r.version, r.locktime) && Paid(j, r) >= Fee(VSize(r), j.rate)
      && OnlyChangeShrank(j, t.outputs, r.outputs)
    decreases tries
  {
    hide Signing.Sign, Fee, VSize;
    SignKeepsSkeleton(j, t);
    var (signed, retry) := Attempt(j, t).value;
    if retry.Some? {
      var next := retry.value;
      CorrectMeans(j, next, tries - 1);
      var r := Correct(j, t, tries).value;
      hide Attempt, Correct;
      ShrankTwice(j, t.outputs, next.outputs, r.outputs);
    }
  }

  lemma ShrankTwice(j: Job, a: seq<TxOutput>, b: seq<TxOutput>, c: seq<TxOutput>)
    requires OnlyChangeShrank(j, a, b) && OnlyChangeShrank(j, b, c)
    ensures OnlyChangeShrank(j, a, c)
  {
  }

  function FormOf(kind: AddressType): SpendType {
    if kind.P2WPKH? then NativeP2WPKH else CompressedP2PKH
  }

  /** A transaction that pays its estimate is signed once and never corrected. */
  lemma EstimateSuffices(j: Job, t: Transaction, tries: nat)
    requires Signing.Sound(j.crypto) && WfTx(t) && ValidRate(j.rate) && tries > 0
    requires Signing.Sign(j.crypto, j.session, t, j.prevouts).Ok?
    requires j.prevouts != [] && Spendable(j.prevouts[0].kind)
    requires Paid(j, t) >= Fee(Estimate(|j.prevouts|, j.prevouts[0].kind, t.outputs), j.rate)
    ensures Correct(j, t, tries) == Ok(Signing.Sign(j.crypto, j.session, t, j.prevouts).value)
  {
    hide Signing.Sound, Signing.Sign, Fee, VSize, Estimate, SingleKeyEstimate, SignedBy, OutputTotal, Signing.ValueIn;
    var kind := j.prevouts[0].kind;
    var signed := Signing.Sign(j.crypto, j.session, t, j.prevouts).value;
    Signing.SignedShape(j.crypto, j.session, t, j.prevouts);
    EstimateBoundsSize(signed, FormOf(kind));
    EstimatesAgree(|j.prevouts|, t.outputs);
    FeeMonotone(VSize(signed), Estimate(|j.prevouts|, kind, t.outputs), j.rate);
  }

  // ----- From coin selection to the signed fee -----

  /** The document was funded with this selection: its coins are the prevouts, its change is the plan's. */
  predicate FundedWith(s: Selection, q: Request, destinations: seq<TxOutput>, t: Transaction, prevouts: seq<Sighash.Prevout>) {
    && |prevouts| == |s.coins| == |t.inputs|
    && (forall k :: 0 <= k < |prevouts| ==> prevouts[k].value == s.coins[k].value && prevouts[k].kind == q.kind)
    && if s.plan.change == 0 then t.outputs == destinations
       else |t.outputs| == |destinations| + 1 && t.outputs[..|destinations|] == destinations
            && t.outputs[|destinations|].value == s.plan.change
            && |t.outputs[|destinations|].script| == |ChangeTemplate(q.kind).script|
  }

  lemma {:induction false} OutputTotalAppend(outputs: seq<TxOutput>, o: TxOutput)
    ensures OutputTotal(outputs + [o]) == OutputTotal(outputs) + o.value
  {
    if outputs == [] {
      assert [o][1..] == [];
    } else {
      assert (outputs + [o])[1..] == outputs[1..] + [o];
      OutputTotalAppend(outputs[1..], o);
    }
  }

  lemma {:induction false} ValuesMatch(coins: seq<Coins.Coin>, prevouts: seq<Sighash.Prevout>)
    requires |coins| == |prevouts| && forall k :: 0 <= k < |coins| ==> prevouts[k].value == coins[k].value
    ensures Signing.ValueIn(prevouts) == Coins.Total(coins)
  {
    if coins != [] {
      assert coins == [coins[0]] + coins[1..];
      Coins.TotalAppend([coins[0]], coins[1..]);
      assert [coins[0]][..0] == [];
      ValuesMatch(coins[1..], prevouts[1..]);
    }
  }

  lemma SameSizeChange(destinations: seq<TxOutput>, change: TxOutput, template: TxOutput, count: nat, kind: AddressType)
    requires Spendable(kind) && |change.script| == |template.script|
    ensures Estimate(count, kind, destinations + [change]) == Estimate(count, kind, destinations + [template])
  {
    OutputsSizeAppend(destinations, change);
    OutputsSizeAppend(destinations, template);
    hide CompactSize, OutputsSize;
  }

  lemma FundedTotals(s: Selection, q: Request, destinations: seq<TxOutput>, t: Transaction, prevouts: seq<Sighash.Prevout>)
    requires Spendable(q.kind) && FundedWith(s, q, destinations, t, prevouts)
    ensures OutputTotal(t.outputs) == OutputTotal(destinations) + s.plan.change
    ensures Estimate(|prevouts|, q.kind, t.outputs) ==
              if s.plan.change == 0 then Estimate(|s.coins|, q.kind, destinations)
              else Estimate(|s.coins|, q.kind, destinations + [ChangeTemplate(q.kind)])
  {
    if s.plan.change > 0 {
      var change := t.outputs[|destinations|];
      assert t.outputs == destinations + [change];
      OutputTotalAppend(destinations, change);
      SameSizeChange(destinations, change, ChangeTemplate(q.kind), |s.coins|, q.kind);
    }
    hide Estimate, OutputTotal, ChangeTemplate;
  }

  lemma FundedPaysEstimate(s: Selection, q: Request, destinations: seq<TxOutput>, utxos: seq<Coins.Coin>, t: Transaction, j: Job)
    requires ValidRate(q.rate) && j.rate == q.rate
    requires Select(utxos, destinations, q) == Ok(s) && FundedWith(s, q, destinations, t, j.prevouts)
    ensures Spendable(q.kind) && Paid(j, t) == s.plan.fee >= Fee(Estimate(|j.prevouts|, q.kind, t.outputs), q.rate)
    ensures j.prevouts != []
  {
    SelectConservesValue(utxos, destinations, q);
    SelectedNotEmpty(s, q, destinations, utxos);
    SelectTotals(s, q, destinations, utxos);
    ValuesMatch(s.coins, j.prevouts);
    FundedTotals(s, q, destinations, t, j.prevouts);
    hide *;
    FeeOfPlan(s, q, destinations, t, j);
  }

  lemma FeeOfPlan(s: Selection, q: Request, destinations: seq<TxOutput>, t: Transaction, j: Job)
    requires ValidRate(q.rate) && j.rate == q.rate && Spendable(q.kind) && s.coins != []
    requires FundedWith(s, q, destinations, t, j.prevouts) && KeepsLittle(s.plan, |s.coins|, destinations, q)
    requires s.total == s.target + s.plan.change + s.plan.fee == Coins.Total(s.coins) == Signing.ValueIn(j.prevouts)
    requires s.target == OutputTotal(destinations) && OutputTotal(t.outputs) == OutputTotal(destinations) + s.plan.change
    requires Estimate(|j.prevouts|, q.kind, t.outputs) ==
               if s.plan.change == 0 then Estimate(|s.coins|, q.kind, destinations)
               else Estimate(|s.coins|, q.kind, destinations + [ChangeTemplate(q.kind)])
    ensures Paid(j, t) == s.plan.fee >= Fee(Estimate(|j.prevouts|, q.kind, t.outputs), q.rate)
    ensures j.prevouts != []
  {
    hide Estimate, Fee, OutputTotal, Coins.Total, Signing.ValueIn, ChangeTemplate;
  }

  lemma SelectTotals(s: Selection, q: Request, destinations: seq<TxOutput>, utxos: seq<Coins.Coin>)
    requires ValidRate(q.rate) && Select(utxos, destinations, q) == Ok(s)
    ensures s.total == Coins.Total(s.coins) && s.target == OutputTotal(destinations)
  {
    hide Refusal, Chosen;
  }

  lemma SelectedNotEmpty(s: Selection, q: Request, destinations: seq<TxOutput>, utxos: seq<Coins.Coin>)
    requires ValidRate(q.rate) && Select(utxos, destinations, q) == Ok(s)
    ensures s.coins != []
  {
    ChosenIsAdmissible(utxos, destinations, q);
    hide Refusal, Chosen;
  }

  /**
   * A transaction funded by `select_coins` is signed in one pass of the correction loop, with the very
   * outputs it was funded with; so the fee it pays is the fee that was estimated.
   */
  lemma FundedFeeIsFinal(s: Selection, q: Request, destinations: seq<TxOutput>, utxos: seq<Coins.Coin>, t: Transaction, j: Job)
    requires Signing.Sound(j.crypto) && WfTx(t) && ValidRate(q.rate) && j.rate == q.rate
    requires Select(utxos, destinations, q) == Ok(s) && FundedWith(s, q, destinations, t, j.prevouts)
    requires Signing.Sign(j.crypto, j.session, t, j.prevouts).Ok?
    ensures
      var signed := Signing.Sign(j.crypto, j.session, t, j.prevouts).value;
      && Correct(j, t, 3) == Ok(signed) && signed.outputs == t.outputs
      && Paid(j, signed) == s.plan.fee
  {
    hide Signing.Sound, Select, Signing.Sign, Correct;
    FundedPaysEstimate(s, q, destinations, utxos, t, j);
    SignKeepsSkeleton(j, t);
    assert j.prevouts[0].kind == q.kind;
    EstimateSuffices(j, t, 3);
  }

  /** The same of a transaction that sends everything: the estimated fee is the fee. */
  lemma FundedAllFeeIsFinal(s: Selection, q: Request, script: bytes, utxos: seq<Coins.Coin>, t: Transaction, j: Job)
    requires Signing.Sound(j.crypto) && WfTx(t) && ValidRate(q.rate) && j.rate == q.rate
    requires SelectAll(utxos, script, q) == Ok(s) && s.target >= 0 && t.outputs == [TxOutput(s.target, script)]
    requires |j.prevouts| == |s.coins|
    requires forall k :: 0 <= k < |s.coins| ==> j.prevouts[k].value == s.coins[k].value && j.prevouts[k].kind == q.kind
    requires Signing.Sign(j.crypto, j.session, t, j.prevouts).Ok?
    ensures
      var signed := Signing.Sign(j.crypto, j.session, t, j.prevouts).value;
      && Correct(j, t, 3) == Ok(signed) && signed.outputs == t.outputs && Paid(j, signed) == s.plan.fee
  {
    hide Signing.Sound, Signing.Sign, Correct, Estimate, Fee, Coins.Total, Signing.ValueIn;
    SelectAllTakesAll(utxos, script, q);
    AllSelected(s, q, script, utxos);
    hide SelectAll, Qualifies;
    ValuesMatch(s.coins, j.prevouts);
    OutputTotalAppend([], t.outputs[0]);
    assert [] + t.outputs == t.outputs && t.outputs == [t.outputs[0]];
    SignKeepsSkeleton(j, t);
    EstimateSuffices(j, t, 3);
  }

  lemma AllSelected(s: Selection, q: Request, script: bytes, utxos: seq<Coins.Coin>)
    requires ValidRate(q.rate) && SelectAll(utxos, script, q) == Ok(s)
    ensures Spendable(q.kind) && s.coins != [] && s.total == Coins.Total(s.coins)
  {
    hide Estimate, Fee, Coins.Total, Coins.Sorted, AllSpendable, Classify;
  }
}
