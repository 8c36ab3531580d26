/** Largest-first coin selection of the HD wallet (`tx/coin_selection.py`): what it computes. */
module CoinSelection {
  import opened Wrappers
  import opened Bytes
  import opened Transactions
  import opened Addresses
  import opened FeeEstimate
  import opened Coins
  import opened Scripts

  datatype SelectionError =
    | NoOutputs
    | BadOutputValue
    | BadMinConfirmations
    | UnsupportedType
    | IncludedAndExcluded
    | InvalidUtxo
    | AlreadyReserved
    | NotSpendable
    | InsufficientFunds
    | FeeAboveMaximum
    | NothingToSend
    | WouldBeDust
    | UnsupportedDestination

  /** What a selection request fixes besides the coins; `wanted` is in the order asked for. */
  datatype Request = Request(
    kind: AddressType,
    rate: Rate,
    minConfirmations: int,
    wanted: seq<Outpoint>,
    excluded: set<Outpoint>,
    reserved: set<Outpoint>,
    maxFee: Option<nat>)

  datatype Plan = Plan(change: nat, fee: nat, vsize: nat)

  datatype Selection = Selection(coins: seq<Coin>, plan: Plan, total: int, target: nat)

  // ----- Coins -----

  /** A coin of a type the wallet spends must have a usable value and outpoint. */
  predicate ValidCoin(c: Coin) {
    Spendable(c.kind) ==> c.value > 0 && c.point.vout <= U32_MAX && |c.point.txid| == 32
  }

  predicate Qualifies(c: Coin, q: Request) {
    c.kind == q.kind && c.confirmed && c.confirmations >= q.minConfirmations && c.point !in q.excluded
  }

  function Without(coins: seq<Coin>, p: Outpoint): (r: seq<Coin>)
    ensures |r| <= |coins|
    ensures forall c :: c in r <==> c in coins && c.point != p
    ensures OnePerPoint(coins) ==> OnePerPoint(r)
  {
    if coins == [] then []
    else
      var rest := Without(coins[1..], p);
      assert coins == [coins[0]] + coins[1..];
      if coins[0].point == p then rest else [coins[0]] + rest
  }

  /** The qualifying coins, keyed by outpoint: of several with one outpoint the last counts. */
  function Eligible(utxos: seq<Coin>, q: Request): (r: seq<Coin>)
    ensures OnePerPoint(r)
    ensures forall c :: c in r ==> c in utxos && Qualifies(c, q)
    ensures forall c :: c in utxos && Qualifies(c, q) ==> c.point in Points(r)
  {
    if utxos == [] then []
    else
      var last, before := utxos[|utxos| - 1], Eligible(utxos[..|utxos| - 1], q);
      assert utxos == utxos[..|utxos| - 1] + [last];
      if Qualifies(last, q) then
        var rest := Without(before, last.point);
        assert forall c :: c in before ==> c.point == last.point || c in rest;
        assert last in rest + [last];
        rest + [last]
      else before
  }

  function Find(coins: seq<Coin>, p: Outpoint): (c: Coin)
    requires p in Points(coins)
    ensures c in coins && c.point == p
  {
    if coins[0].point == p then coins[0]
    else
      assert coins == [coins[0]] + coins[1..];
      Find(coins[1..], p)
  }

  // ----- Selecting -----

  /** What the request and the cached coins are refused for before any selecting. */
  function Refusal(utxos: seq<Coin>, outputs: seq<TxOutput>, q: Request): Option<SelectionError> {
    if outputs == [] then Some(NoOutputs)
    else if exists o :: o in outputs && o.value == 0 then Some(BadOutputValue)
    else if q.minConfirmations < 1 then Some(BadMinConfirmations)
    else if !Spendable(q.kind) then Some(UnsupportedType)
    else if exists p :: p in q.wanted && p in q.excluded then Some(IncludedAndExcluded)
    else if exists c :: c in utxos && !ValidCoin(c) then Some(InvalidUtxo)
    else WantedRefusal(Eligible(utxos, q), q.reserved, q.wanted)
  }

  /** The first outpoint asked for that cannot be spent. */
  function WantedRefusal(eligible: seq<Coin>, reserved: set<Outpoint>, wanted: seq<Outpoint>): (r: Option<SelectionError>)
    ensures r == None <==> forall p :: p in wanted ==> p !in reserved && p in Points(eligible)
  {
    if wanted == [] then None
    else
      assert wanted == [wanted[0]] + wanted[1..];
      if wanted[0] in reserved then Some(AlreadyReserved)
      else if wanted[0] !in Points(eligible) then Some(NotSpendable)
      else WantedRefusal(eligible, reserved, wanted[1..])
  }

  /** The coins asked for, each once, in the order asked. */
  function Mandatory(eligible: seq<Coin>, wanted: seq<Outpoint>): (r: seq<Coin>)
    requires forall p :: p in wanted ==> p in Points(eligible)
    ensures OnePerPoint(r) && Points(r) == (set p | p in wanted)
    ensures forall c :: c in r ==> c in eligible
  {
    if wanted == [] then []
    else
      var before, last := Mandatory(eligible, wanted[..|wanted| - 1]), wanted[|wanted| - 1];
      assert wanted == wanted[..|wanted| - 1] + [last];
      if last in Points(before) then before
      else
        PointsAppend(before, Find(eligible, last));
        before + [Find(eligible, last)]
  }

  /** The rest of the unreserved coins, best first. */
  function Candidates(eligible: seq<Coin>, q: Request): seq<Coin> {
    Sorted(Unblocked(eligible, (set p | p in q.wanted) + q.reserved))
  }

  function Unblocked(coins: seq<Coin>, blocked: set<Outpoint>): (r: seq<Coin>)
    ensures forall c :: c in r <==> c in coins && c.point !in blocked
    ensures OnePerPoint(coins) ==> OnePerPoint(r)
  {
    if coins == [] then []
    else
      var rest := Unblocked(coins[1..], blocked);
      assert coins == [coins[0]] + coins[1..];
      if coins[0].point in blocked then rest else [coins[0]] + rest
  }

  function ChangeTemplate(kind: AddressType): TxOutput {
    TxOutput(0, if kind.P2WPKH? then [0, 20] + seq(20, _ => 0) else [0x76, 0xA9, 20] + seq(20, _ => 0) + [0x88, 0xAC])
  }

  /** With these inputs: pay change if it is not dust, else let the fee absorb it, else give up. */
  function Evaluate(count: nat, total: int, outputs: seq<TxOutput>, q: Request): (r: Option<Plan>)
    requires Spendable(q.kind) && 0 < q.rate.den
  {
    if count == 0 then None
    else
      var withChange := Estimate(count, q.kind, outputs + [ChangeTemplate(q.kind)]);
      var change := total - OutputTotal(outputs) - Fee(withChange, q.rate);
      if change >= Dust(q.kind) then Some(Plan(change, Fee(withChange, q.rate), withChange))
      else
        var without := Estimate(count, q.kind, outputs);
        var remainder := total - OutputTotal(outputs);
        if remainder >= Fee(without, q.rate) then Some(Plan(0, remainder, without)) else None
  }

  /** Take candidates one at a time until the selection pays for itself. */
  function Grow(selected: seq<Coin>, candidates: seq<Coin>, outputs: seq<TxOutput>, q: Request): Option<(seq<Coin>, Plan)>
    requires Spendable(q.kind) && 0 < q.rate.den
    decreases |candidates|
  {
    var plan := Evaluate(|selected|, Total(selected), outputs, q);
    if plan.Some? then Some((selected, plan.value))
    else if candidates == [] then None
    else Grow(selected + [candidates[0]], candidates[1..], outputs, q)
  }

  function Chosen(utxos: seq<Coin>, outputs: seq<TxOutput>, q: Request): Option<(seq<Coin>, Plan)>
    requires ValidRate(q.rate) && Refusal(utxos, outputs, q) == None
  {
    var eligible := Eligible(utxos, q);
    Grow(Mandatory(eligible, q.wanted), Candidates(eligible, q), outputs, q)
  }

  /** `select_coins`. */
  function Select(utxos: seq<Coin>, outputs: seq<TxOutput>, q: Request): Result<Selection, SelectionError>
    requires ValidRate(q.rate)
  {
    var refusal := Refusal(utxos, outputs, q);
    if refusal.Some? then Err(refusal.value)
    else
      match Chosen(utxos, outputs, q)
      case None => Err(InsufficientFunds)
      case Some((coins, plan)) =>
        if q.maxFee.Some? && plan.fee > q.maxFee.value then Err(FeeAboveMaximum)
        else Ok(Selection(coins, plan, Total(coins), OutputTotal(outputs)))
  }

  // ----- What the pieces mean -----

  /** A coin is eligible if and only if it qualifies and no later qualifying coin has its outpoint. */
  lemma {:induction false} EligibleIsLast(utxos: seq<Coin>, q: Request, c: Coin)
    ensures c in Eligible(utxos, q) <==> IsLastOfPoint(utxos, q, c)
  {
    if utxos != [] {
      EligibleIsLast(utxos[..|utxos| - 1], q, c);
      EligibleStep(utxos, q, c);
      LastStep(utxos, q, c);
      hide *;
    }
  }

  predicate IsLastOfPoint(utxos: seq<Coin>, q: Request, c: Coin) {
    exists i :: 0 <= i < |utxos| && utxos[i] == c && LastOfPoint(utxos, q, i)
  }

  lemma LastStep(utxos: seq<Coin>, q: Request, c: Coin)
    requires utxos != []
    ensures
      var n := |utxos| - 1;
      IsLastOfPoint(utxos, q, c) <==> (c == utxos[n] && Qualifies(c, q)) || (IsLastOfPoint(utxos[..n], q, c) && !Shadows(utxos[n], c, q))
  {
    hide Qualifies;
    var n := |utxos| - 1;
    var before := utxos[..n];
    if c == utxos[n] && Qualifies(c, q) {
      assert LastOfPoint(utxos, q, n);
    }
    if IsLastOfPoint(before, q, c) && !Shadows(utxos[n], c, q) {
      var i :| 0 <= i < n && before[i] == c && LastOfPoint(before, q, i);
      assert LastOfPoint(utxos, q, i);
    }
    if IsLastOfPoint(utxos, q, c) {
      var i :| 0 <= i <= n && utxos[i] == c && LastOfPoint(utxos, q, i);
      if i < n {
        assert LastOfPoint(before, q, i);
      }
    }
  }

  predicate Shadows(last: Coin, c: Coin, q: Request) {
    Qualifies(last, q) && last.point == c.point
  }

  lemma EligibleStep(utxos: seq<Coin>, q: Request, c: Coin)
    requires utxos != []
    ensures
      var n := |utxos| - 1;
      c in Eligible(utxos, q) <==> (c == utxos[n] && Qualifies(c, q)) || (c in Eligible(utxos[..n], q) && !Shadows(utxos[n], c, q))
  {
    hide OnePerPoint, Points;
  }

  predicate LastOfPoint(utxos: seq<Coin>, q: Request, i: nat)
    requires i < |utxos|
  {
    && Qualifies(utxos[i], q)
    && forall j :: i < j < |utxos| && Qualifies(utxos[j], q) ==> utxos[j].point != utxos[i].point
  }

  lemma {:induction false} OutputsSizeAppend(outputs: seq<TxOutput>, o: TxOutput)
    ensures OutputsSize(outputs + [o]) == OutputsSize(outputs) + OutputSize(o)
  {
    if outputs != [] {
      assert (outputs + [o])[1..] == outputs[1..] + [o];
      OutputsSizeAppend(outputs[1..], o);
    } else {
      assert OutputsSize([o]) == OutputSize(o) + OutputsSize([o][1..]);
    }
  }

  /** An extra output can only raise the estimate. */
  lemma EstimateGrowsWithOutput(count: nat, kind: AddressType, outputs: seq<TxOutput>, o: TxOutput)
    requires Spendable(kind)
    ensures Estimate(count, kind, outputs) <= Estimate(count, kind, outputs + [o])
  {
    OutputsSizeAppend(outputs, o);
    assert |CompactSize(|outputs|)| <= |CompactSize(|outputs| + 1)| by { hide LE; }
    hide CompactSize, OutputsSize, OutputSize;
  }

  /** The inputs pay for themselves: target plus the fee of a transaction without change. */
  predicate Covers(count: nat, total: int, outputs: seq<TxOutput>, q: Request)
    requires Spendable(q.kind) && 0 < q.rate.den
  {
    total >= OutputTotal(outputs) + Fee(Estimate(count, q.kind, outputs), q.rate)
  }

  /** A plan exists exactly when the inputs cover; it accounts for every satoshi. */
  lemma EvaluateMeans(count: nat, total: int, outputs: seq<TxOutput>, q: Request)
    requires Spendable(q.kind) && 0 < q.rate.den
    ensures Evaluate(count, total, outputs, q).Some? <==> count > 0 && Covers(count, total, outputs, q)
    ensures Evaluate(count, total, outputs, q).Some? ==>
      var plan := Evaluate(count, total, outputs, q).value;
      && total == OutputTotal(outputs) + plan.change + plan.fee
      && plan.fee >= Fee(plan.vsize, q.rate)
      && (plan.change > 0 ==> plan.fee == Fee(plan.vsize, q.rate))
  {
    var change := ChangeTemplate(q.kind);
    EstimateGrowsWithOutput(count, q.kind, outputs, change);
    FeeMonotone(Estimate(count, q.kind, outputs), Estimate(count, q.kind, outputs + [change]), q.rate);
    hide Estimate, Fee, OutputTotal;
  }

  /** Change is worth its output; otherwise what the fee absorbs is less than change would cost. */
  predicate KeepsLittle(plan: Plan, count: nat, outputs: seq<TxOutput>, q: Request)
    requires Spendable(q.kind) && 0 < q.rate.den
  {
    var without, with := Estimate(count, q.kind, outputs), Estimate(count, q.kind, outputs + [ChangeTemplate(q.kind)]);
    if plan.change > 0 then plan.change >= Dust(q.kind) && plan.vsize == with && plan.fee == Fee(with, q.rate)
    else plan.vsize == without && Fee(without, q.rate) <= plan.fee < Fee(with, q.rate) + Dust(q.kind)
  }

  lemma EvaluateKeepsLittle(count: nat, total: int, outputs: seq<TxOutput>, q: Request)
    requires Spendable(q.kind) && 0 < q.rate.den && Evaluate(count, total, outputs, q).Some?
    ensures KeepsLittle(Evaluate(count, total, outputs, q).value, count, outputs, q)
  {
    hide Estimate, Fee, OutputTotal;
  }

  lemma {:induction false} GrowMeans(selected: seq<Coin>, candidates: seq<Coin>, outputs: seq<TxOutput>, q: Request) returns (k: nat)
    requires Spendable(q.kind) && 0 < q.rate.den
    ensures k <= |candidates|
    ensures
      match Grow(selected, candidates, outputs, q)
      case None => k == |candidates| && !Pays(selected, candidates, k, outputs, q)
      case Some((coins, plan)) =>
        && coins == selected + candidates[..k]
        && Evaluate(|coins|, Total(coins), outputs, q) == Some(plan)
    ensures forall j :: 0 <= j < k ==> !Pays(selected, candidates, j, outputs, q)
    decreases |candidates|
  {
    hide Evaluate;
    assert selected + candidates[..0] == selected;
    if Evaluate(|selected|, Total(selected), outputs, q).Some? || candidates == [] {
      k := 0;
    } else {
      var rest := candidates[1..];
      var r := GrowMeans(selected + [candidates[0]], rest, outputs, q);
      k := r + 1;
      forall j | 0 <= j <= |rest| ensures selected + candidates[..j + 1] == selected + [candidates[0]] + rest[..j] {
        assert candidates == [candidates[0]] + rest;
      }
      forall j | 0 <= j < k ensures !Pays(selected, candidates, j, outputs, q) {
        if j > 0 {
          assert !Pays(selected + [candidates[0]], rest, j - 1, outputs, q);
          assert selected + candidates[..j - 1 + 1] == selected + [candidates[0]] + rest[..j - 1];
        }
      }
    }
  }

  /** The selection with the first `k` candidates pays for itself. */
  predicate Pays(selected: seq<Coin>, candidates: seq<Coin>, k: nat, outputs: seq<TxOutput>, q: Request)
    requires Spendable(q.kind) && 0 < q.rate.den && k <= |candidates|
  {
    Evaluate(|selected| + k, Total(selected + candidates[..k]), outputs, q).Some?
  }

  // ----- The request, field by field -----

  /** Entry `i` is the coin, and no later usable entry has its outpoint. */
  predicate NotReplaced(utxos: seq<Coin>, q: Request, c: Coin, i: int) {
    && 0 <= i < |utxos| && utxos[i] == c
    && forall j :: i < j < |utxos| && utxos[j].point == c.point ==>
         utxos[j].kind != q.kind || !utxos[j].confirmed || utxos[j].confirmations < q.minConfirmations
  }

  /** A coin is eligible exactly when it is a confirmed, deep enough coin of the type that was not excluded, and the last such entry of its outpoint. */
  lemma EligibleExactly(utxos: seq<Coin>, q: Request, c: Coin)
    ensures
      c in Eligible(utxos, q) <==>
        && c.kind == q.kind && c.confirmed && c.confirmations >= q.minConfirmations && c.point !in q.excluded
        && exists i :: NotReplaced(utxos, q, c, i)
  {
    EligibleIsLast(utxos, q, c);
    hide Eligible;
    if IsLastOfPoint(utxos, q, c) {
      var i :| 0 <= i < |utxos| && utxos[i] == c && LastOfPoint(utxos, q, i);
      assert NotReplaced(utxos, q, c, i);
    }
    if c.kind == q.kind && c.confirmed && c.confirmations >= q.minConfirmations && c.point !in q.excluded {
      if i :| NotReplaced(utxos, q, c, i) {
        assert LastOfPoint(utxos, q, i);
      }
    }
  }

  /** A request is let through exactly when it asks for something payable, and for coins that can be spent. */
  lemma RefusalExactly(utxos: seq<Coin>, outputs: seq<TxOutput>, q: Request)
    ensures
      Refusal(utxos, outputs, q) == None <==>
        && outputs != [] && (forall o :: o in outputs ==> o.value > 0) && q.minConfirmations >= 1
        && q.kind in {P2PKH, P2WPKH}
        && (forall c :: c in utxos && c.kind in {P2PKH, P2WPKH} ==> c.value > 0 && c.point.vout <= 0xFFFF_FFFF && |c.point.txid| == 32)
        && forall p :: p in q.wanted ==> p !in q.excluded && p !in q.reserved && exists c :: c in Eligible(utxos, q) && c.point == p
  {
    hide Eligible;
    forall p ensures p in Points(Eligible(utxos, q)) <==> exists c :: c in Eligible(utxos, q) && c.point == p {
    }
  }

  predicate Malformed(c: Coin) {
    c.kind in {P2PKH, P2WPKH} && (c.value <= 0 || c.point.vout > 0xFFFF_FFFF || |c.point.txid| != 32)
  }

  /** The first check that fails decides the error, and of the outpoints asked for the first that cannot be had. */
  lemma RefusalInOrder(utxos: seq<Coin>, outputs: seq<TxOutput>, q: Request)
    ensures
      var r := Refusal(utxos, outputs, q);
      if outputs == [] then r == Some(NoOutputs)
      else if exists o :: o in outputs && o.value == 0 then r == Some(BadOutputValue)
      else if q.minConfirmations < 1 then r == Some(BadMinConfirmations)
      else if q.kind in {P2SH_P2WPKH, P2TR} then r == Some(UnsupportedType)
      else if exists p :: p in q.wanted && p in q.excluded then r == Some(IncludedAndExcluded)
      else if exists c :: c in utxos && Malformed(c) then r == Some(InvalidUtxo)
      else r.Some? ==> exists k :: WantedFails(utxos, q, k, r.value)
  {
    hide Eligible;
    if Refusal(utxos, outputs, q) == WantedRefusal(Eligible(utxos, q), q.reserved, q.wanted) {
      WantedInOrder(utxos, q, 0);
      assert q.wanted[0..] == q.wanted;
    }
    hide WantedRefusal, WantedFails;
  }

  /** Number `k` is the first outpoint asked for that cannot be had, because it is reserved or else not spendable. */
  predicate WantedFails(utxos: seq<Coin>, q: Request, k: nat, error: SelectionError) {
    && k < |q.wanted| && (forall i :: 0 <= i < k ==> q.wanted[i] !in q.reserved && q.wanted[i] in Points(Eligible(utxos, q)))
    && (q.wanted[k] in q.reserved || q.wanted[k] !in Points(Eligible(utxos, q)))
    && error == if q.wanted[k] in q.reserved then AlreadyReserved else NotSpendable
  }

  lemma {:induction false} WantedInOrder(utxos: seq<Coin>, q: Request, from: nat)
    requires from <= |q.wanted|
    requires forall i :: 0 <= i < from ==> q.wanted[i] !in q.reserved && q.wanted[i] in Points(Eligible(utxos, q))
    ensures
      var r := WantedRefusal(Eligible(utxos, q), q.reserved, q.wanted[from..]);
      r.Some? ==> exists k :: WantedFails(utxos, q, k, r.value)
    decreases |q.wanted| - from
  {
    hide Eligible, Points;
    if from < |q.wanted| {
      var rest := q.wanted[from..];
      assert rest[0] == q.wanted[from] && rest[1..] == q.wanted[from + 1..];
      var r := WantedRefusal(Eligible(utxos, q), q.reserved, rest);
      if q.wanted[from] in q.reserved || q.wanted[from] !in Points(Eligible(utxos, q)) {
        assert WantedFails(utxos, q, from, r.value);
      } else {
        WantedInOrder(utxos, q, from + 1);
      }
    }
  }

  /** Outpoint `k` of a list is named there for the first time. */
  predicate FirstAsked(wanted: seq<Outpoint>, k: int) {
    0 <= k < |wanted| && forall i :: 0 <= i < k ==> wanted[i] != wanted[k]
  }

  /** The coins asked for come in the order in which they were first asked for. */
  lemma {:induction false} MandatoryInOrder(eligible: seq<Coin>, wanted: seq<Outpoint>, i: nat, j: nat) returns (k: nat, l: nat)
    requires forall p :: p in wanted ==> p in Points(eligible)
    requires i < j < |Mandatory(eligible, wanted)|
    ensures k < l && FirstAsked(wanted, k) && FirstAsked(wanted, l)
    ensures wanted[k] == Mandatory(eligible, wanted)[i].point && wanted[l] == Mandatory(eligible, wanted)[j].point
  {
    var n := |wanted| - 1;
    var front, last := wanted[..n], wanted[n];
    var before := Mandatory(eligible, front);
    assert wanted == front + [last];
    if j < |before| {
      k, l := MandatoryInOrder(eligible, front, i, j);
      assert FirstAsked(front, k) && FirstAsked(front, l);
    } else {
      assert last !in Points(before);
      l := n;
      k := AskedOnce(eligible, front, i);
      assert FirstAsked(front, k);
    }
  }

  lemma {:induction false} AskedOnce(eligible: seq<Coin>, wanted: seq<Outpoint>, i: nat) returns (k: nat)
    requires forall p :: p in wanted ==> p in Points(eligible)
    requires i < |Mandatory(eligible, wanted)|
    ensures FirstAsked(wanted, k) && wanted[k] == Mandatory(eligible, wanted)[i].point
  {
    var n := |wanted| - 1;
    var front, last := wanted[..n], wanted[n];
    var before := Mandatory(eligible, front);
    assert wanted == front + [last];
    if i < |before| {
      k := AskedOnce(eligible, front, i);
      assert FirstAsked(front, k);
    } else {
      assert last !in Points(before);
      k := n;
    }
  }

  // ----- Completeness and optimality -----

  /** Any way to choose coins the request allows: eligible, unreserved, with the ones asked for. */
  predicate Admissible(coins: seq<Coin>, utxos: seq<Coin>, q: Request) {
    && coins != [] && OnePerPoint(coins)
    && (forall c :: c in coins ==> c in Eligible(utxos, q) && c.point !in q.reserved)
    && (forall p :: p in q.wanted ==> p in Points(coins))
  }

  /** The order of trial: the mandatory coins, then every other unreserved eligible coin, best first. */
  ghost predicate TrialOrder(all: seq<Coin>, m: nat, utxos: seq<Coin>, q: Request) {
    && m <= |all| && OnePerPoint(all)
    && (forall i, j :: m <= i < j < |all| ==> all[i].value >= all[j].value)
    && (forall i :: 0 <= i < m ==> all[i].point in q.wanted)
    && (forall p :: p in q.wanted ==> p in Points(all[..m]))
    && (forall c :: c in all <==> c in Eligible(utxos, q) && c.point !in q.reserved)
  }

  lemma AllCoinsTried(utxos: seq<Coin>, outputs: seq<TxOutput>, q: Request)
    requires Refusal(utxos, outputs, q) == None
    ensures
      var mandatory, candidates := Mandatory(Eligible(utxos, q), q.wanted), Candidates(Eligible(utxos, q), q);
      TrialOrder(mandatory + candidates, |mandatory|, utxos, q)
  {
    var eligible := Eligible(utxos, q);
    var mandatory, candidates := Mandatory(eligible, q.wanted), Candidates(eligible, q);
    CandidatesMean(utxos, q);
    MandatoryMeans(utxos, outputs, q);
    hide *;
    AppendOnePerPoint(mandatory, candidates);
    assert (mandatory + candidates)[..|mandatory|] == mandatory;
    TrialOrderFrom(mandatory, candidates, utxos, q);
  }

  lemma TrialOrderFrom(mandatory: seq<Coin>, candidates: seq<Coin>, utxos: seq<Coin>, q: Request)
    requires OnePerPoint(mandatory + candidates)
    requires forall i, j :: 0 <= i < j < |candidates| ==> candidates[i].value >= candidates[j].value
    requires Points(mandatory) == (set p | p in q.wanted)
    requires forall c :: c in mandatory <==> c in Eligible(utxos, q) && c.point in q.wanted
    requires forall p :: p in q.wanted ==> p !in q.reserved
    requires forall c :: c in candidates <==> c in Eligible(utxos, q) && c.point !in q.wanted && c.point !in q.reserved
    ensures TrialOrder(mandatory + candidates, |mandatory|, utxos, q)
  {
    hide Eligible, OnePerPoint, Points;
    var all, m := mandatory + candidates, |mandatory|;
    assert all[..m] == mandatory;
    forall i | 0 <= i < m ensures all[i].point in q.wanted {
      assert all[i] in mandatory;
    }
  }

  /** No admissible choice of as many coins is worth more than the prefix of the trial order. */
  lemma TrialPrefixIsBest(all: seq<Coin>, m: nat, utxos: seq<Coin>, q: Request, other: seq<Coin>)
    requires TrialOrder(all, m, utxos, q) && Admissible(other, utxos, q)
    ensures m <= |other| <= |all| && Total(other) <= Total(all[..|other|])
  {
    var eligible := Eligible(utxos, q);
    hide Eligible, Total;
    forall i | 0 <= i < m ensures all[i] in other {
      assert all[i] in all;
      var d :| d in other && d.point == all[i].point;
      SamePointSameCoin(eligible, all[i], d);
    }
    PrefixIsBest(all, m, other);
  }

  /** A long enough prefix of the trial order is an admissible choice. */
  lemma TrialPrefixIsAdmissible(all: seq<Coin>, m: nat, utxos: seq<Coin>, q: Request, n: nat)
    requires TrialOrder(all, m, utxos, q) && m <= n <= |all| && n > 0
    ensures Admissible(all[..n], utxos, q)
  {
    hide Eligible;
    assert all[..m] <= all[..n];
    PrefixPoints(all[..m], all[..n]);
  }

  lemma PrefixPoints(a: seq<Coin>, b: seq<Coin>)
    requires a <= b
    ensures Points(a) <= Points(b)
  {
    forall p | p in Points(a) ensures p in Points(b) {
      var i :| 0 <= i < |a| && a[i].point == p;
      assert b[i] in b;
    }
  }

  lemma AppendOnePerPoint(a: seq<Coin>, b: seq<Coin>)
    requires OnePerPoint(a) && OnePerPoint(b) && forall c, d :: c in a && d in b ==> c.point != d.point
    ensures OnePerPoint(a + b)
  {
  }

  lemma WantedFree(utxos: seq<Coin>, outputs: seq<TxOutput>, q: Request)
    requires Refusal(utxos, outputs, q) == None
    ensures forall p :: p in q.wanted ==> p !in q.reserved && p in Points(Eligible(utxos, q))
  {
    hide Eligible, Points;
  }

  lemma MandatoryMember(eligible: seq<Coin>, mandatory: seq<Coin>, wanted: seq<Outpoint>, c: Coin)
    requires OnePerPoint(eligible) && Points(mandatory) == (set p | p in wanted) && forall d :: d in mandatory ==> d in eligible
    ensures c in mandatory <==> c in eligible && c.point in wanted
  {
    if c in mandatory {
      assert c.point in Points(mandatory);
    }
    if c in eligible && c.point in wanted {
      assert c.point in Points(mandatory);
      var d :| d in mandatory && d.point == c.point;
      SamePointSameCoin(eligible, c, d);
    }
  }

  lemma MandatoryMeans(utxos: seq<Coin>, outputs: seq<TxOutput>, q: Request)
    requires Refusal(utxos, outputs, q) == None
    ensures
      var mandatory := Mandatory(Eligible(utxos, q), q.wanted);
      && OnePerPoint(mandatory) && Points(mandatory) == (set p | p in q.wanted)
      && (forall c :: c in mandatory <==> c in Eligible(utxos, q) && c.point in q.wanted)
      && (forall p :: p in q.wanted ==> p !in q.reserved)
  {
    WantedFree(utxos, outputs, q);
    hide Refusal, Qualifies, Eligible;
    var eligible := Eligible(utxos, q);
    var mandatory := Mandatory(eligible, q.wanted);
    hide Mandatory;
    forall c ensures c in mandatory <==> c in eligible && c.point in q.wanted {
      MandatoryMember(eligible, mandatory, q.wanted, c);
    }
  }

  lemma CandidatesMean(utxos: seq<Coin>, q: Request)
    ensures
      var candidates := Candidates(Eligible(utxos, q), q);
      && OnePerPoint(candidates) && InOrder(candidates)
      && (forall i, j :: 0 <= i < j < |candidates| ==> candidates[i].value >= candidates[j].value)
      && (forall c :: c in candidates <==> c in Eligible(utxos, q) && c.point !in q.wanted && c.point !in q.reserved)
  {
    var blocked := (set p | p in q.wanted) + q.reserved;
    var rest := Unblocked(Eligible(utxos, q), blocked);
    var candidates := Sorted(rest);
    hide Sorted, Eligible, Unblocked;
    SortedContents(rest);
    SortedInOrder(rest);
    OnePerPointMultiset(rest, candidates);
    forall c ensures c in candidates <==> c in rest {
      assert c in candidates <==> c in multiset(candidates);
      assert c in rest <==> c in multiset(rest);
    }
    forall i, j | 0 <= i < j < |candidates| ensures candidates[i].value >= candidates[j].value {
      assert !Before(candidates[j], candidates[i]);
    }
  }

  /** The first `n` coins of the trial order pay for themselves. */
  predicate Enough(all: seq<Coin>, n: nat, outputs: seq<TxOutput>, q: Request)
    requires Spendable(q.kind) && 0 < q.rate.den && n <= |all|
  {
    n > 0 && Covers(n, Total(all[..n]), outputs, q)
  }

  /** The loop stops at the first prefix that is enough. */
  lemma GrowIsFirstEnough(mandatory: seq<Coin>, candidates: seq<Coin>, outputs: seq<TxOutput>, q: Request) returns (n: nat)
    requires Spendable(q.kind) && 0 < q.rate.den
    ensures |mandatory| <= n <= |mandatory + candidates|
    ensures
      var all, grown := mandatory + candidates, Grow(mandatory, candidates, outputs, q);
      if grown.None? then n == |all| && !Enough(all, n, outputs, q)
      else grown.value.0 == all[..n] && Enough(all, n, outputs, q) && Evaluate(n, Total(all[..n]), outputs, q) == Some(grown.value.1)
    ensures forall j :: |mandatory| <= j < n ==> !Enough(mandatory + candidates, j, outputs, q)
  {
    hide Total, Evaluate, Grow, Covers;
    var all, m := mandatory + candidates, |mandatory|;
    var k := GrowMeans(mandatory, candidates, outputs, q);
    n := m + k;
    forall j | m <= j <= |all| ensures Enough(all, j, outputs, q) <==> Pays(mandatory, candidates, j - m, outputs, q) {
      assert all[..j] == mandatory + candidates[..j - m];
      EvaluateMeans(j, Total(all[..j]), outputs, q);
    }
    forall j | m <= j < n ensures !Enough(all, j, outputs, q) {
      assert !Pays(mandatory, candidates, j - m, outputs, q);
    }
    if Grow(mandatory, candidates, outputs, q).Some? {
      assert all[..n] == mandatory + candidates[..k];
      assert Pays(mandatory, candidates, k, outputs, q);
    }
  }

  /** An admissible choice that pays for the target and its own fee. */
  predicate Solves(coins: seq<Coin>, utxos: seq<Coin>, outputs: seq<TxOutput>, q: Request)
    requires ValidRate(q.rate) && Spendable(q.kind)
  {
    Admissible(coins, utxos, q) && Covers(|coins|, Total(coins), outputs, q)
  }

  lemma MandatoryDefined(utxos: seq<Coin>, outputs: seq<TxOutput>, q: Request)
    requires Refusal(utxos, outputs, q) == None
    ensures Spendable(q.kind) && forall p :: p in q.wanted ==> p in Points(Eligible(utxos, q))
  {
  }

  /** Enough coins are found whenever there are enough, and no choice that covers uses fewer inputs. */
  lemma ChosenIsComplete(utxos: seq<Coin>, outputs: seq<TxOutput>, q: Request, other: seq<Coin>)
    requires ValidRate(q.rate) && Refusal(utxos, outputs, q) == None
    requires Solves(other, utxos, outputs, q)
    ensures Chosen(utxos, outputs, q).Some? && |Chosen(utxos, outputs, q).value.0| <= |other|
  {
    hide Refusal, TrialOrder, Eligible, Points, Mandatory, Candidates, Total, Evaluate, Grow, OutputTotal, Estimate, Fee;
    MandatoryDefined(utxos, outputs, q);
    AllCoinsTried(utxos, outputs, q);
    var mandatory, candidates := Mandatory(Eligible(utxos, q), q.wanted), Candidates(Eligible(utxos, q), q);
    var all := mandatory + candidates;
    TrialPrefixIsBest(all, |mandatory|, utxos, q, other);
    var n := GrowIsFirstEnough(mandatory, candidates, outputs, q);
    assert Enough(all, |other|, outputs, q);
  }

  /** What is chosen is itself admissible and covers the target. */
  lemma ChosenIsAdmissible(utxos: seq<Coin>, outputs: seq<TxOutput>, q: Request)
    requires ValidRate(q.rate) && Refusal(utxos, outputs, q) == None && Chosen(utxos, outputs, q).Some?
    ensures
      var (coins, plan) := Chosen(utxos, outputs, q).value;
      && Solves(coins, utxos, outputs, q)
      && Evaluate(|coins|, Total(coins), outputs, q) == Some(plan)
  {
    hide Refusal, TrialOrder, Eligible, Points, Mandatory, Candidates, Total, Evaluate, Grow, Covers, Admissible;
    MandatoryDefined(utxos, outputs, q);
    AllCoinsTried(utxos, outputs, q);
    var mandatory, candidates := Mandatory(Eligible(utxos, q), q.wanted), Candidates(Eligible(utxos, q), q);
    var all := mandatory + candidates;
    var n := GrowIsFirstEnough(mandatory, candidates, outputs, q);
    TrialPrefixIsAdmissible(all, |mandatory|, utxos, q, n);
  }

  /**
   * Unless the request is refused outright, `select_coins` without a fee limit succeeds if and only if
   * some admissible choice covers the target and its fee, and it uses the fewest inputs of any.
   */
  lemma SelectIsCompleteAndOptimal(utxos: seq<Coin>, outputs: seq<TxOutput>, q: Request)
    requires ValidRate(q.rate) && Refusal(utxos, outputs, q) == None && q.maxFee == None
    ensures Select(utxos, outputs, q).Ok? <==> exists coins :: Solves(coins, utxos, outputs, q)
    ensures Select(utxos, outputs, q).Err? ==> Select(utxos, outputs, q) == Err(InsufficientFunds)
    ensures Select(utxos, outputs, q).Ok? ==>
      var chosen := Select(utxos, outputs, q).value.coins;
      && Solves(chosen, utxos, outputs, q)
      && forall coins :: Solves(coins, utxos, outputs, q) ==> |chosen| <= |coins|
  {
    if Chosen(utxos, outputs, q).Some? {
      ChosenIsAdmissible(utxos, outputs, q);
    }
    forall coins | Solves(coins, utxos, outputs, q)
      ensures Chosen(utxos, outputs, q).Some? && |Chosen(utxos, outputs, q).value.0| <= |coins|
    {
      ChosenIsComplete(utxos, outputs, q, coins);
    }
    hide Refusal, Chosen, Solves, OutputTotal, Total, Mandatory, Eligible, Evaluate;
  }

  /** The fee limit only turns a selection into an error; it never changes one. */
  lemma FeeLimitOnlyRefuses(utxos: seq<Coin>, outputs: seq<TxOutput>, q: Request, limit: nat)
    requires ValidRate(q.rate)
    ensures
      var free, capped := Select(utxos, outputs, q.(maxFee := None)), Select(utxos, outputs, q.(maxFee := Some(limit)));
      capped == if free.Ok? && free.value.plan.fee > limit then Err(FeeAboveMaximum) else free
  {
    RequestLimit(utxos, outputs, q.(maxFee := None), q.(maxFee := Some(limit)));
    hide Refusal, Chosen;
  }

  lemma {:induction false} EligibleLimit(utxos: seq<Coin>, a: Request, b: Request)
    requires a.(maxFee := b.maxFee) == b
    ensures Eligible(utxos, a) == Eligible(utxos, b)
  {
    if utxos != [] {
      EligibleLimit(utxos[..|utxos| - 1], a, b);
    }
  }

  lemma {:induction false} GrowLimit(selected: seq<Coin>, candidates: seq<Coin>, outputs: seq<TxOutput>, a: Request, b: Request)
    requires a.(maxFee := b.maxFee) == b && Spendable(a.kind) && 0 < a.rate.den
    ensures Grow(selected, candidates, outputs, a) == Grow(selected, candidates, outputs, b)
    decreases |candidates|
  {
    hide Total, Estimate, Fee, OutputTotal;
    if candidates != [] {
      GrowLimit(selected + [candidates[0]], candidates[1..], outputs, a, b);
    }
  }

  lemma RequestLimit(utxos: seq<Coin>, outputs: seq<TxOutput>, a: Request, b: Request)
    requires ValidRate(a.rate) && a.(maxFee := b.maxFee) == b
    ensures Refusal(utxos, outputs, a) == Refusal(utxos, outputs, b)
    ensures Refusal(utxos, outputs, a) == None ==> Chosen(utxos, outputs, a) == Chosen(utxos, outputs, b)
  {
    EligibleLimit(utxos, a, b);
    if Refusal(utxos, outputs, a) == None {
      var eligible := Eligible(utxos, a);
      GrowLimit(Mandatory(eligible, a.wanted), Candidates(eligible, a), outputs, a, b);
    }
  }

  /** Every satoshi is accounted for, change is worth its output, and no blocked coin is touched. */
  lemma SelectConservesValue(utxos: seq<Coin>, outputs: seq<TxOutput>, q: Request)
    requires ValidRate(q.rate) && Select(utxos, outputs, q).Ok?
    ensures
      var s := Select(utxos, outputs, q).value;
      && s.total == s.target + s.plan.change + s.plan.fee
      && Spendable(q.kind) && KeepsLittle(s.plan, |s.coins|, outputs, q)
      && (forall c :: c in s.coins ==> c in utxos && Qualifies(c, q) && c.point !in q.reserved && c.point !in q.excluded)
  {
    assert Spendable(q.kind) by {
      hide Eligible, WantedRefusal;
    }
    hide Mandatory, Candidates, Refusal, Total, Evaluate, Chosen, Fee, Estimate, OutputTotal, KeepsLittle, OnePerPoint, Points;
    ChosenIsAdmissible(utxos, outputs, q);
    var (coins, plan) := Chosen(utxos, outputs, q).value;
    EvaluateMeans(|coins|, Total(coins), outputs, q);
    EvaluateKeepsLittle(|coins|, Total(coins), outputs, q);
  }

  // ----- Determinism -----

  lemma {:induction false} MandatoryIgnoresOrder(a: seq<Coin>, b: seq<Coin>, wanted: seq<Outpoint>)
    requires OnePerPoint(a) && OnePerPoint(b) && forall c :: c in a <==> c in b
    requires forall p :: p in wanted ==> p in Points(a)
    ensures forall p :: p in wanted ==> p in Points(b)
    ensures Mandatory(a, wanted) == Mandatory(b, wanted)
  {
    assert Points(a) == Points(b);
    if wanted != [] {
      var last := wanted[|wanted| - 1];
      MandatoryIgnoresOrder(a, b, wanted[..|wanted| - 1]);
      SamePointSameCoin(a, Find(a, last), Find(b, last));
    }
  }

  lemma {:induction false} WantedRefusalIgnoresOrder(a: seq<Coin>, b: seq<Coin>, reserved: set<Outpoint>, wanted: seq<Outpoint>)
    requires Points(a) == Points(b)
    ensures WantedRefusal(a, reserved, wanted) == WantedRefusal(b, reserved, wanted)
  {
    if wanted != [] {
      WantedRefusalIgnoresOrder(a, b, reserved, wanted[1..]);
    }
  }

  lemma EligibleOfDistinct(utxos: seq<Coin>, q: Request, c: Coin)
    requires OnePerPoint(utxos)
    ensures c in Eligible(utxos, q) <==> c in utxos && Qualifies(c, q)
  {
    EligibleIsLast(utxos, q, c);
    hide Eligible, Qualifies;
    if c in utxos && Qualifies(c, q) {
      var i :| 0 <= i < |utxos| && utxos[i] == c;
      assert LastOfPoint(utxos, q, i);
    }
  }

  lemma EligibleIgnoresOrder(a: seq<Coin>, b: seq<Coin>, q: Request)
    requires OnePerPoint(a) && multiset(a) == multiset(b)
    ensures forall c :: c in a <==> c in b
    ensures forall c :: c in Eligible(a, q) <==> c in Eligible(b, q)
  {
    OnePerPointMultiset(a, b);
    hide Eligible, OnePerPoint, Qualifies;
    forall c ensures c in a <==> c in b {
      assert c in a <==> c in multiset(a);
      assert c in b <==> c in multiset(b);
    }
    forall c ensures c in Eligible(a, q) <==> c in Eligible(b, q) {
      EligibleOfDistinct(a, q, c);
      EligibleOfDistinct(b, q, c);
    }
  }

  lemma CandidatesIgnoreOrder(x: seq<Coin>, y: seq<Coin>, q: Request)
    requires OnePerPoint(x) && OnePerPoint(y) && forall c :: c in x <==> c in y
    ensures Candidates(x, q) == Candidates(y, q)
  {
    hide Sorted, Unblocked, OnePerPoint;
    var blocked := (set p | p in q.wanted) + q.reserved;
    SortedIgnoresOrder(Unblocked(x, blocked), Unblocked(y, blocked));
  }

  lemma RefusalIgnoresOrder(a: seq<Coin>, b: seq<Coin>, outputs: seq<TxOutput>, q: Request)
    requires OnePerPoint(a) && multiset(a) == multiset(b)
    ensures Refusal(a, outputs, q) == Refusal(b, outputs, q)
  {
    hide Eligible, WantedRefusal, ValidCoin, OnePerPoint;
    EligibleIgnoresOrder(a, b, q);
    assert Points(Eligible(a, q)) == Points(Eligible(b, q));
    WantedRefusalIgnoresOrder(Eligible(a, q), Eligible(b, q), q.reserved, q.wanted);
  }

  lemma ChosenIgnoresOrder(a: seq<Coin>, b: seq<Coin>, outputs: seq<TxOutput>, q: Request)
    requires ValidRate(q.rate) && OnePerPoint(a) && multiset(a) == multiset(b)
    requires Refusal(a, outputs, q) == None && Refusal(b, outputs, q) == None
    ensures Chosen(a, outputs, q) == Chosen(b, outputs, q)
  {
    hide Eligible, Refusal, OnePerPoint, Grow, Candidates, Mandatory, Points;
    EligibleIgnoresOrder(a, b, q);
    MandatoryDefined(a, outputs, q);
    MandatoryDefined(b, outputs, q);
    CandidatesIgnoreOrder(Eligible(a, q), Eligible(b, q), q);
    MandatoryIgnoresOrder(Eligible(a, q), Eligible(b, q), q.wanted);
  }

  /** The outcome does not depend on the order in which the cache lists the coins. */
  lemma SelectIgnoresCacheOrder(a: seq<Coin>, b: seq<Coin>, outputs: seq<TxOutput>, q: Request)
    requires ValidRate(q.rate) && OnePerPoint(a) && multiset(a) == multiset(b)
    ensures Select(a, outputs, q) == Select(b, outputs, q)
  {
    hide Refusal, Chosen, OnePerPoint;
    RefusalIgnoresOrder(a, b, outputs, q);
    if Refusal(a, outputs, q) == None {
      ChosenIgnoresOrder(a, b, outputs, q);
    }
  }

  // ----- Sending everything -----

  /** `classify_script_pubkey`. */
  function Classify(script: bytes): Option<AddressType> {
    if IsP2PKH(script) then Some(P2PKH) else if IsP2WPKH(script) then Some(P2WPKH) else None
  }

  function AllSpendable(utxos: seq<Coin>, q: Request): (r: seq<Coin>)
    ensures forall c :: c in r <==> c in utxos && Qualifies(c, q) && c.point !in q.reserved
    ensures OnePerPoint(utxos) ==> OnePerPoint(r)
  {
    if utxos == [] then []
    else
      var rest := AllSpendable(utxos[1..], q);
      assert utxos == [utxos[0]] + utxos[1..];
      if Qualifies(utxos[0], q) && utxos[0].point !in q.reserved then [utxos[0]] + rest else rest
  }

  function AllRefusal(utxos: seq<Coin>, script: bytes, q: Request): Option<SelectionError> {
    if q.minConfirmations < 1 then Some(BadMinConfirmations)
    else if !Spendable(q.kind) then Some(UnsupportedType)
    else if script == [] then Some(UnsupportedDestination)
    else if exists c :: c in utxos && !ValidCoin(c) then Some(InvalidUtxo)
    else None
  }

  /** `select_all_coins`: everything spendable, the fee taken from the one destination. */
  function SelectAll(utxos: seq<Coin>, script: bytes, q: Request): Result<Selection, SelectionError>
    requires ValidRate(q.rate)
  {
    if AllRefusal(utxos, script, q).Some? then Err(AllRefusal(utxos, script, q).value)
    else
      var coins := Sorted(AllSpendable(utxos, q));
      if coins == [] then Err(NothingToSend)
      else
        var vsize := Estimate(|coins|, q.kind, [TxOutput(0, script)]);
        var fee := Fee(vsize, q.rate);
        if q.maxFee.Some? && fee > q.maxFee.value then Err(FeeAboveMaximum)
        else if Total(coins) - fee <= 0 then Err(InsufficientFunds)
        else if Classify(script).None? then Err(UnsupportedDestination)
        else if Total(coins) - fee < Dust(Classify(script).value) then Err(WouldBeDust)
        else Ok(Selection(coins, Plan(0, fee, vsize), Total(coins), Total(coins) - fee))
  }

  lemma AllSpendableSorted(utxos: seq<Coin>, q: Request, c: Coin)
    ensures c in Sorted(AllSpendable(utxos, q)) <==> c in utxos && Qualifies(c, q) && c.point !in q.reserved
  {
    var rest := AllSpendable(utxos, q);
    SortedContents(rest);
    hide Sorted, AllSpendable;
    assert c in Sorted(rest) <==> c in multiset(Sorted(rest));
    assert c in rest <==> c in multiset(rest);
  }

  lemma SizeIgnoresValue(script: bytes, value: nat)
    ensures OutputsSize([TxOutput(value, script)]) == OutputSize(TxOutput(value, script))
    ensures OutputSize(TxOutput(value, script)) == OutputSize(TxOutput(0, script))
  {
    assert [TxOutput(value, script)][1..] == [];
  }

  /** Sending everything leaves no spendable coin behind and pays exactly the fee of its size. */
  lemma SelectAllTakesAll(utxos: seq<Coin>, script: bytes, q: Request)
    requires ValidRate(q.rate) && SelectAll(utxos, script, q).Ok?
    ensures
      var s := SelectAll(utxos, script, q).value;
      && (forall c :: c in s.coins <==> c in utxos && Qualifies(c, q) && c.point !in q.reserved)
      && s.total == s.target + s.plan.fee && s.plan.change == 0
      && s.plan.fee == Fee(s.plan.vsize, q.rate) && s.plan.vsize == Estimate(|s.coins|, q.kind, [TxOutput(s.target, script)])
      && Classify(script).Some? && s.target >= Dust(Classify(script).value)
  {
    forall c ensures c in Sorted(AllSpendable(utxos, q)) <==> c in utxos && Qualifies(c, q) && c.point !in q.reserved {
      AllSpendableSorted(utxos, q, c);
    }
    hide Sorted, AllSpendable, OutputSize, OutputsSize, CompactSize, Qualifies, Total, Fee;
    SizeIgnoresValue(script, SelectAll(utxos, script, q).value.target);
    SizeIgnoresValue(script, 0);
  }

  /**
   * Sending everything succeeds exactly for a P2PKH or P2WPKH destination that is left at least its dust
   * limit after the fee, within the fee limit, from coins all of which are well formed.
   */
  lemma SelectAllExactly(utxos: seq<Coin>, script: bytes, q: Request)
    requires ValidRate(q.rate)
    ensures
      SelectAll(utxos, script, q).Ok? <==>
        && q.minConfirmations >= 1 && q.kind in {P2PKH, P2WPKH} && (IsP2PKH(script) || IsP2WPKH(script))
        && (forall c :: c in utxos && c.kind in {P2PKH, P2WPKH} ==> c.value > 0 && c.point.vout <= 0xFFFF_FFFF && |c.point.txid| == 32)
        && var coins := AllSpendable(utxos, q);
        && coins != []
        && var fee := Fee(Estimate(|coins|, q.kind, [TxOutput(0, script)]), q.rate);
        && (q.maxFee.Some? ==> fee <= q.maxFee.value) && Total(coins) - fee >= if IsP2PKH(script) then 546 else 294
  {
    TotalSorted(AllSpendable(utxos, q));
    SortedLength(AllSpendable(utxos, q));
    hide AllSpendable, Sorted, Total, Fee, Estimate;
  }

  lemma SortedLength(coins: seq<Coin>)
    ensures |Sorted(coins)| == |coins|
  {
  }

  /** Why sending everything is refused, in the order of the checks. */
  lemma SelectAllRefusals(utxos: seq<Coin>, script: bytes, q: Request)
    requires ValidRate(q.rate)
    ensures
      var r, coins := SelectAll(utxos, script, q), AllSpendable(utxos, q);
      var fee := if q.kind in {P2PKH, P2WPKH} then Fee(Estimate(|coins|, q.kind, [TxOutput(0, script)]), q.rate) else 0;
      var malformed := exists c :: c in utxos && c.kind in {P2PKH, P2WPKH} && !(c.value > 0 && c.point.vout <= 0xFFFF_FFFF && |c.point.txid| == 32);
      var reason :=
        if q.minConfirmations < 1 then BadMinConfirmations
        else if q.kind !in {P2PKH, P2WPKH} then UnsupportedType
        else if script == [] then UnsupportedDestination
        else if malformed then InvalidUtxo
        else if coins == [] then NothingToSend
        else if q.maxFee.Some? && fee > q.maxFee.value then FeeAboveMaximum
        else if Total(coins) <= fee then InsufficientFunds
        else if !IsP2PKH(script) && !IsP2WPKH(script) then UnsupportedDestination
        else WouldBeDust;
      r.Err? ==> r.error == reason
  {
    TotalSorted(AllSpendable(utxos, q));
    SortedLength(AllSpendable(utxos, q));
    hide AllSpendable, Sorted, Total, Fee, Estimate, IsP2PKH, IsP2WPKH;
  }
}
