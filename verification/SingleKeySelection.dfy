/** The single-key wallet's own coin selector, and its agreement with the HD wallet's. */
module SingleKeySelection {
  import opened Wrappers
  import opened Bytes
  import opened Transactions
  import opened Addresses
  import opened FeeEstimate
  import opened Coins
  import opened Scripts
  import opened CoinSelection

  /** The address types a single-key wallet watches; only the first three are spent. */
  datatype KeyType = Spent(form: SpendType) | NestedP2WPKH | Taproot

  datatype KeyCoin = KeyCoin(point: Outpoint, value: int, kind: KeyType, confirmed: bool, confirmations: nat)

  datatype KeyError =
    | OutOfRange
    | InvalidCoin
    | DuplicateCoins
    | NoCoins
    | Dusty
    | UnknownScript
    | NotEnough
    | TooLarge
    | FeeTooHigh

  datatype KeyRequest = KeyRequest(
    form: SpendType,
    rate: Rate,
    destination: bytes,
    source: bytes,
    minConfirmations: int,
    unavailable: set<Outpoint>,
    maxFee: Option<int>)

  predicate InRange(n: int, low: int, high: int) {
    low <= n <= high
  }

  /** `normalize_utxo` accepts the coin. */
  predicate ValidKeyCoin(c: KeyCoin) {
    && |c.point.txid| == 32 && c.point.vout <= U32_MAX
    && InRange(c.value, 1, MAX_MONEY) && c.confirmations <= MAX_MONEY
  }

  /** `dust_threshold`. */
  function DustOf(script: bytes): Option<nat> {
    if IsP2PKH(script) then Some(546)
    else if |script| == 23 && script[..2] == [0xA9, 20] && script[22..] == [0x87] then Some(540)
    else if IsP2WPKH(script) then Some(294)
    else if |script| == 34 && (script[..2] == [0, 0x20] || script[..2] == [0x51, 0x20]) then Some(330)
    else None
  }

  predicate DistinctPoints(utxos: seq<KeyCoin>) {
    forall i, j :: 0 <= i < j < |utxos| ==> utxos[i].point != utxos[j].point
  }

  function Family(kind: KeyType): AddressType {
    match kind
    case Spent(NativeP2WPKH) => P2WPKH
    case Spent(_) => P2PKH
    case NestedP2WPKH => P2SH_P2WPKH
    case Taproot => P2TR
  }

  /** The coin as the HD selector describes it. */
  function View(c: KeyCoin): Coin {
    Coin(c.point, c.value, Family(c.kind), c.confirmed, c.confirmations)
  }

  function ViewAll(utxos: seq<KeyCoin>): (r: seq<Coin>)
    ensures |r| == |utxos| && forall i :: 0 <= i < |utxos| ==> r[i] == View(utxos[i])
  {
    seq(|utxos|, i requires 0 <= i < |utxos| => View(utxos[i]))
  }

  function Spendables(utxos: seq<KeyCoin>, k: KeyRequest): seq<Coin> {
    if utxos == [] then []
    else
      var c, rest := utxos[0], Spendables(utxos[1..], k);
      if c.kind == Spent(k.form) && c.confirmed && c.confirmations >= k.minConfirmations && c.point !in k.unavailable then [View(c)] + rest
      else rest
  }

  /** What both modes check of the request and the cached coins before choosing. */
  function KeyRefusal(utxos: seq<KeyCoin>, k: KeyRequest): Option<KeyError> {
    if !InRange(k.minConfirmations, 1, MAX_MONEY) then Some(OutOfRange)
    else if k.maxFee.Some? && !InRange(k.maxFee.value, 0, MAX_MONEY) then Some(OutOfRange)
    else if exists c :: c in utxos && !ValidKeyCoin(c) then Some(InvalidCoin)
    else if !DistinctPoints(utxos) then Some(DuplicateCoins)
    else if Spendables(utxos, k) == [] then Some(NoCoins)
    else None
  }

  /** `fee_for_vsize(estimate_signed_vsize(...))`, which refuses sizes out of range. */
  function SizeAndFee(count: nat, k: KeyRequest, outputs: seq<TxOutput>): Result<(nat, nat), KeyError>
    requires 0 < k.rate.den
  {
    if !InRange(count, 1, 10_000) then Err(OutOfRange)
    else
      var vsize := SingleKeyEstimate(count, k.form, outputs);
      if !InRange(vsize, 1, 400_000) then Err(OutOfRange) else Ok((vsize, Fee(vsize, k.rate)))
  }

  /** One pass of the loop: what the coins chosen so far allow, if anything. */
  function Try(count: nat, total: int, amount: nat, k: KeyRequest): Result<Option<Plan>, KeyError>
    requires 0 < k.rate.den
  {
    var outputs := [TxOutput(amount, k.destination), TxOutput(0, k.source)];
    var (with, fee) :- SizeAndFee(count, k, outputs);
    if DustOf(k.source).None? then Err(UnknownScript)
    else
      var change := total - amount - fee;
      if change >= DustOf(k.source).value then Ok(Some(Plan(change, fee, with)))
      else
        var (without, minimum) :- SizeAndFee(count, k, outputs[..1]);
        if total - amount >= minimum then Ok(Some(Plan(0, total - amount, without))) else Ok(None)
  }

  function Take(selected: seq<Coin>, candidates: seq<Coin>, amount: nat, k: KeyRequest): Result<(seq<Coin>, Plan), KeyError>
    requires 0 < k.rate.den
    decreases |candidates|
  {
    if candidates == [] then Err(NotEnough)
    else
      var taken := selected + [candidates[0]];
      var plan :- Try(|taken|, Total(taken), amount, k);
      if plan.Some? then Ok((taken, plan.value)) else Take(taken, candidates[1..], amount, k)
  }

  /** The checks after the choice, in both modes. */
  function Settle(coins: seq<Coin>, plan: Plan, destination: int, k: KeyRequest): Result<Selection, KeyError> {
    if k.maxFee.Some? && plan.fee > k.maxFee.value then Err(FeeTooHigh)
    else if !InRange(Total(coins), 1, MAX_MONEY) then Err(OutOfRange)
    else if destination <= 0 then Err(NotEnough)
    else if DustOf(k.destination).None? then Err(UnknownScript)
    else if destination < DustOf(k.destination).value then Err(Dusty)
    else if plan.vsize * 4 > 400_000 then Err(TooLarge)
    else Ok(Selection(coins, plan, Total(coins), destination))
  }

  /** `select_coins` with an amount. */
  function SelectAmount(utxos: seq<KeyCoin>, k: KeyRequest, amount: int): Result<Selection, KeyError>
    requires ValidRate(k.rate)
  {
    var refusal := KeyRefusal(utxos, k);
    if refusal.Some? then Err(refusal.value)
    else if !InRange(amount, 1, MAX_MONEY) then Err(OutOfRange)
    else if DustOf(k.destination).None? then Err(UnknownScript)
    else if amount < DustOf(k.destination).value then Err(Dusty)
    else
      var (coins, plan) :- Take([], Sorted(Spendables(utxos, k)), amount, k);
      Settle(coins, plan, amount, k)
  }

  /** `select_coins` with `send_all`. */
  function SelectEverything(utxos: seq<KeyCoin>, k: KeyRequest): Result<Selection, KeyError>
    requires ValidRate(k.rate)
  {
    var refusal := KeyRefusal(utxos, k);
    if refusal.Some? then Err(refusal.value)
    else
      var coins := Sorted(Spendables(utxos, k));
      var (vsize, fee) :- SizeAndFee(|coins|, k, [TxOutput(0, k.destination)]);
      Settle(coins, Plan(0, fee, vsize), Total(coins) - fee, k)
  }

  // ----- Agreement with the HD selector -----

  /** The key form and its own script are ones the HD wallet also spends. */
  predicate Comparable(k: KeyRequest) {
    match k.form
    case CompressedP2PKH => IsP2PKH(k.source)
    case UncompressedP2PKH => false
    case NativeP2WPKH => IsP2WPKH(k.source)
  }

  function HdRequest(k: KeyRequest): Request {
    Request(Family(Spent(k.form)), k.rate, k.minConfirmations, [], {}, k.unavailable,
      if k.maxFee.Some? && k.maxFee.value >= 0 then Some(k.maxFee.value) else None)
  }

  /** No cached coin is locked to the uncompressed form of the key. */
  predicate NoUncompressed(utxos: seq<KeyCoin>) {
    forall c :: c in utxos ==> c.kind != Spent(UncompressedP2PKH)
  }

  function Pay(amount: nat, k: KeyRequest): seq<TxOutput> {
    [TxOutput(amount, k.destination)]
  }

  lemma CompactSizeGrows(a: nat, b: nat)
    requires a <= b
    ensures 1 <= |CompactSize(a)| <= |CompactSize(b)| <= 9
  {
    hide LE;
  }

  lemma EstimateGrowsWithCount(a: nat, b: nat, kind: AddressType, outputs: seq<TxOutput>)
    requires Spendable(kind) && a <= b
    ensures Estimate(a, kind, outputs) <= Estimate(b, kind, outputs)
  {
    CompactSizeGrows(a, b);
    hide CompactSize, OutputsSize;
  }

  /** The wallet's own change output has the size of the template. */
  lemma WithChange(count: nat, amount: nat, k: KeyRequest)
    requires Comparable(k)
    ensures
      var kind := Family(Spent(k.form));
      && Estimate(count, kind, Pay(amount, k) + [ChangeTemplate(kind)])
           == SingleKeyEstimate(count, k.form, [TxOutput(amount, k.destination), TxOutput(0, k.source)])
      && Estimate(count, kind, Pay(amount, k)) == SingleKeyEstimate(count, k.form, Pay(amount, k))
      && DustOf(k.source) == Some(Dust(kind))
  {
    var kind := Family(Spent(k.form));
    var change := ChangeTemplate(kind);
    var own := [TxOutput(amount, k.destination), TxOutput(0, k.source)];
    EstimatesAgree(count, Pay(amount, k));
    EstimatesAgree(count, own);
    assert own == Pay(amount, k) + [TxOutput(0, k.source)];
    OutputsSizeAppend(Pay(amount, k), change);
    OutputsSizeAppend(Pay(amount, k), TxOutput(0, k.source));
    assert |change.script| == |k.source|;
    hide CompactSize, OutputsSize;
  }

  /** The size limits of the single-key selector do not bite. */
  predicate Small(count: nat, amount: nat, k: KeyRequest)
    requires Comparable(k)
  {
    var kind := Family(Spent(k.form));
    1 <= count <= 10_000 && Estimate(count, kind, Pay(amount, k) + [ChangeTemplate(kind)]) <= 400_000
  }

  lemma EstimatePositive(count: nat, kind: AddressType, outputs: seq<TxOutput>)
    requires Spendable(kind)
    ensures Estimate(count, kind, outputs) >= 1 && Estimate(count, kind, outputs) >= 68 * count
  {
    hide CompactSize, OutputsSize;
  }

  /** Each pass decides as the HD selector does, unless a size limit is hit. */
  lemma TryIsEvaluate(count: nat, total: int, amount: nat, k: KeyRequest)
    requires Comparable(k) && ValidRate(k.rate) && count > 0
    ensures
      var r := Try(count, total, amount, k);
      && (r.Ok? ==> r.value == Evaluate(count, total, Pay(amount, k), HdRequest(k)))
      && (Small(count, amount, k) ==> r.Ok?)
  {
    var kind := Family(Spent(k.form));
    WithChange(count, amount, k);
    EstimateGrowsWithOutput(count, kind, Pay(amount, k), ChangeTemplate(kind));
    EstimatePositive(count, kind, Pay(amount, k));
    assert [TxOutput(amount, k.destination), TxOutput(0, k.source)][..1] == Pay(amount, k);
    assert OutputTotal(Pay(amount, k)) == amount;
    hide Estimate, SingleKeyEstimate, Fee, OutputTotal, DustOf;
  }

  lemma SmallShrinks(a: nat, b: nat, amount: nat, k: KeyRequest)
    requires Comparable(k) && 1 <= a <= b && Small(b, amount, k)
    ensures Small(a, amount, k)
  {
    var kind := Family(Spent(k.form));
    EstimateGrowsWithCount(a, b, kind, Pay(amount, k) + [ChangeTemplate(kind)]);
  }

  lemma {:induction false} GrowOnlyAdds(selected: seq<Coin>, candidates: seq<Coin>, outputs: seq<TxOutput>, q: Request)
    requires Spendable(q.kind) && 0 < q.rate.den
    ensures var g := Grow(selected, candidates, outputs, q); g.Some? ==> |g.value.0| >= |selected|
    decreases |candidates|
  {
    hide Evaluate;
    if candidates != [] {
      GrowOnlyAdds(selected + [candidates[0]], candidates[1..], outputs, q);
    }
  }

  lemma {:induction false} TakeIsGrow(selected: seq<Coin>, candidates: seq<Coin>, amount: nat, k: KeyRequest)
    requires Comparable(k) && ValidRate(k.rate)
    requires Evaluate(|selected|, Total(selected), Pay(amount, k), HdRequest(k)) == None
    ensures
      var taken, grown := Take(selected, candidates, amount, k), Grow(selected, candidates, Pay(amount, k), HdRequest(k));
      && (taken.Ok? ==> grown == Some(taken.value))
      && (grown.Some? && Small(|grown.value.0|, amount, k) ==> taken.Ok?)
    decreases |candidates|
  {
    hide Evaluate, Try, Small, Total;
    if candidates != [] {
      var taken := selected + [candidates[0]];
      TryIsEvaluate(|taken|, Total(taken), amount, k);
      var grown := Grow(taken, candidates[1..], Pay(amount, k), HdRequest(k));
      GrowOnlyAdds(taken, candidates[1..], Pay(amount, k), HdRequest(k));
      if grown.Some? && Small(|grown.value.0|, amount, k) {
        SmallShrinks(|taken|, |grown.value.0|, amount, k);
      }
      if Evaluate(|taken|, Total(taken), Pay(amount, k), HdRequest(k)) == None {
        TakeIsGrow(taken, candidates[1..], amount, k);
      }
    }
  }

  lemma {:induction false} SpendablesMean(utxos: seq<KeyCoin>, k: KeyRequest, c: Coin)
    requires NoUncompressed(utxos) && Comparable(k)
    ensures c in Spendables(utxos, k) <==> c in ViewAll(utxos) && Qualifies(c, HdRequest(k)) && c.point !in k.unavailable
  {
    if utxos != [] {
      var rest := utxos[1..];
      assert utxos == [utxos[0]] + rest;
      assert ViewAll(utxos) == [View(utxos[0])] + ViewAll(rest);
      SpendablesMean(rest, k, c);
    }
  }

  lemma {:induction false} SpendablesDistinct(utxos: seq<KeyCoin>, k: KeyRequest)
    requires DistinctPoints(utxos)
    ensures OnePerPoint(Spendables(utxos, k))
    ensures forall c :: c in Spendables(utxos, k) ==> exists i :: 0 <= i < |utxos| && utxos[i].point == c.point
  {
    if utxos != [] {
      var rest := utxos[1..];
      SpendablesDistinct(rest, k);
      forall c | c in Spendables(utxos, k) ensures exists i :: 0 <= i < |utxos| && utxos[i].point == c.point {
        if c in Spendables(rest, k) {
          var i :| 0 <= i < |rest| && rest[i].point == c.point;
          assert utxos[i + 1].point == c.point;
        } else {
          assert c == View(utxos[0]);
        }
      }
    }
  }

  /** Both selectors try the same coins in the same order. */
  lemma SameCandidates(utxos: seq<KeyCoin>, k: KeyRequest)
    requires NoUncompressed(utxos) && Comparable(k) && DistinctPoints(utxos)
    ensures Candidates(Eligible(ViewAll(utxos), HdRequest(k)), HdRequest(k)) == Sorted(Spendables(utxos, k))
  {
    var q, all := HdRequest(k), ViewAll(utxos);
    var eligible := Eligible(all, q);
    var blocked := (set p | p in q.wanted) + q.reserved;
    assert OnePerPoint(all);
    SpendablesDistinct(utxos, k);
    hide Eligible, Spendables, Sorted, Qualifies, OnePerPoint;
    forall c ensures c in Unblocked(eligible, blocked) <==> c in Spendables(utxos, k) {
      SpendablesMean(utxos, k, c);
      EligibleOfDistinct(all, q, c);
    }
    SortedIgnoresOrder(Unblocked(eligible, blocked), Spendables(utxos, k));
  }

  /** What only the single-key selector demands, of the request, the coins and the result. */
  predicate WithinLimits(utxos: seq<KeyCoin>, k: KeyRequest, amount: nat, s: Selection) {
    && KeyRefusal(utxos, k) == None
    && InRange(amount, 1, MAX_MONEY) && DustOf(k.destination).Some? && amount >= DustOf(k.destination).value
    && s.total <= MAX_MONEY && s.plan.vsize * 4 <= 400_000
  }

  /** Nothing the HD selector checks first stands in the way of a request the single-key one accepts. */
  lemma NotRefused(utxos: seq<KeyCoin>, k: KeyRequest, amount: nat)
    requires Comparable(k) && KeyRefusal(utxos, k) == None && amount >= 1
    ensures Refusal(ViewAll(utxos), Pay(amount, k), HdRequest(k)) == None
  {
    hide Spendables, Eligible, DistinctPoints;
    forall c | c in ViewAll(utxos) ensures ValidCoin(c) {
      var i :| 0 <= i < |utxos| && ViewAll(utxos)[i] == c;
      assert ValidKeyCoin(utxos[i]);
    }
  }

  lemma VSizeSmall(count: nat, total: int, amount: nat, k: KeyRequest)
    requires Comparable(k) && ValidRate(k.rate) && count > 0
    requires Evaluate(count, total, Pay(amount, k), HdRequest(k)).Some?
    requires Evaluate(count, total, Pay(amount, k), HdRequest(k)).value.vsize * 4 <= 400_000
    ensures Small(count, amount, k)
  {
    var kind := Family(Spent(k.form));
    var q := HdRequest(k);
    EvaluateKeepsLittle(count, total, Pay(amount, k), q);
    EstimateGrowsWithOutput(count, kind, Pay(amount, k), ChangeTemplate(kind));
    EstimatePositive(count, kind, Pay(amount, k));
    ChangeAddsLittle(count, kind, Pay(amount, k));
    hide Estimate, Fee, Evaluate;
  }

  lemma ChangeAddsLittle(count: nat, kind: AddressType, outputs: seq<TxOutput>)
    requires Spendable(kind)
    ensures Estimate(count, kind, outputs + [ChangeTemplate(kind)]) <= Estimate(count, kind, outputs) + 100
  {
    OutputsSizeAppend(outputs, ChangeTemplate(kind));
    assert OutputSize(ChangeTemplate(kind)) <= 34;
    CompactSizeGrows(0, |outputs|);
    CompactSizeGrows(0, |outputs| + 1);
    hide CompactSize, OutputsSize, OutputSize;
  }

  lemma {:induction false} TotalPositive(coins: seq<Coin>)
    requires forall c :: c in coins ==> c.value >= 1
    ensures Total(coins) >= |coins|
  {
    if coins != [] {
      TotalPositive(coins[..|coins| - 1]);
    }
  }

  /** On the same coins both selectors take the same ones, or neither takes any for lack of funds. */
  lemma SameChoice(utxos: seq<KeyCoin>, k: KeyRequest, amount: nat)
    requires Comparable(k) && ValidRate(k.rate) && NoUncompressed(utxos) && KeyRefusal(utxos, k) == None && amount >= 1
    ensures
      && Refusal(ViewAll(utxos), Pay(amount, k), HdRequest(k)) == None
      && var chosen, taken := Chosen(ViewAll(utxos), Pay(amount, k), HdRequest(k)), Take([], Sorted(Spendables(utxos, k)), amount, k);
      && (taken.Ok? ==> chosen == Some(taken.value))
      && (chosen.Some? && chosen.value.1.vsize * 4 <= 400_000 ==> taken.Ok?)
  {
    NotRefused(utxos, k, amount);
    SameCandidates(utxos, k);
    var all, q := ViewAll(utxos), HdRequest(k);
    assert Mandatory(Eligible(all, q), q.wanted) == [];
    hide Refusal, KeyRefusal, Eligible, Candidates, Sorted, Spendables, Grow, Take, Small, Mandatory;
    TakeIsGrow([], Sorted(Spendables(utxos, k)), amount, k);
    var chosen := Chosen(all, Pay(amount, k), q);
    if chosen.Some? && chosen.value.1.vsize * 4 <= 400_000 {
      ChosenIsAdmissible(all, Pay(amount, k), q);
      var coins := chosen.value.0;
      assert coins != [];
      hide Evaluate, Solves;
      VSizeSmall(|coins|, Total(coins), amount, k);
    }
  }

  /**
   * The two selectors agree: the single-key one succeeds if and only if the HD one does within the
   * single-key limits, and then with the same coins, change, fee, size and totals.
   */
  lemma SelectorsAgree(utxos: seq<KeyCoin>, k: KeyRequest, amount: nat)
    requires Comparable(k) && ValidRate(k.rate) && NoUncompressed(utxos)
    ensures
      var own, hd := SelectAmount(utxos, k, amount), Select(ViewAll(utxos), Pay(amount, k), HdRequest(k));
      && (own.Ok? <==> hd.Ok? && WithinLimits(utxos, k, amount, hd.value))
      && (own.Ok? ==> own.value == hd.value)
  {
    hide KeyRefusal, Refusal, Chosen, Sorted, Spendables, Take, OutputTotal, DustOf, Total, Pay, HdRequest, ViewAll, Comparable, NoUncompressed;
    RequestsMatch(utxos, k, amount);
    if KeyRefusal(utxos, k) == None && amount >= 1 {
      SameChoice(utxos, k, amount);
      if Chosen(ViewAll(utxos), Pay(amount, k), HdRequest(k)).Some? {
        ChosenIsPositive(utxos, k, amount);
      }
    }
  }

  lemma RequestsMatch(utxos: seq<KeyCoin>, k: KeyRequest, amount: nat)
    ensures HdRequest(k).rate == k.rate && OutputTotal(Pay(amount, k)) == amount
    ensures
      var own, hd := k.maxFee, HdRequest(k).maxFee;
      KeyRefusal(utxos, k) == None ==> own.Some? == hd.Some? && (own.Some? ==> own.value == hd.value)
  {
  }

  lemma ChosenIsPositive(utxos: seq<KeyCoin>, k: KeyRequest, amount: nat)
    requires Comparable(k) && ValidRate(k.rate) && KeyRefusal(utxos, k) == None && amount >= 1
    requires Refusal(ViewAll(utxos), Pay(amount, k), HdRequest(k)) == None && Chosen(ViewAll(utxos), Pay(amount, k), HdRequest(k)).Some?
    ensures Total(Chosen(ViewAll(utxos), Pay(amount, k), HdRequest(k)).value.0) >= 1
  {
    var all, q := ViewAll(utxos), HdRequest(k);
    ChosenIsAdmissible(all, Pay(amount, k), q);
    var coins := Chosen(all, Pay(amount, k), q).value.0;
    forall c | c in coins ensures c.value >= 1 {
      assert c in all;
      var i :| 0 <= i < |utxos| && all[i] == c;
      assert ValidKeyCoin(utxos[i]);
    }
    TotalPositive(coins);
  }

  predicate WithinLimitsAll(utxos: seq<KeyCoin>, k: KeyRequest, s: Selection) {
    KeyRefusal(utxos, k) == None && s.total <= MAX_MONEY && s.plan.vsize * 4 <= 400_000
  }

  lemma SameEverything(utxos: seq<KeyCoin>, k: KeyRequest)
    requires NoUncompressed(utxos) && Comparable(k) && DistinctPoints(utxos)
    ensures Sorted(AllSpendable(ViewAll(utxos), HdRequest(k))) == Sorted(Spendables(utxos, k))
  {
    var q, all := HdRequest(k), ViewAll(utxos);
    assert OnePerPoint(all);
    SpendablesDistinct(utxos, k);
    hide Spendables, AllSpendable, Sorted, Qualifies, OnePerPoint;
    forall c ensures c in AllSpendable(all, q) <==> c in Spendables(utxos, k) {
      SpendablesMean(utxos, k, c);
    }
    SortedIgnoresOrder(AllSpendable(all, q), Spendables(utxos, k));
  }

  lemma DustAgrees(script: bytes)
    requires Classify(script).Some?
    ensures DustOf(script) == Some(Dust(Classify(script).value)) && script != []
  {
  }

  lemma SpendablesPositive(utxos: seq<KeyCoin>, k: KeyRequest)
    requires KeyRefusal(utxos, k) == None && NoUncompressed(utxos) && Comparable(k)
    ensures var coins := Sorted(Spendables(utxos, k)); coins != [] && Total(coins) >= |coins|
  {
    var coins := Sorted(Spendables(utxos, k));
    SortedContents(Spendables(utxos, k));
    hide Sorted, Spendables;
    forall c | c in coins ensures c.value >= 1 {
      assert c in multiset(coins) && c in Spendables(utxos, k);
      SpendablesMean(utxos, k, c);
      var i :| 0 <= i < |utxos| && ViewAll(utxos)[i] == c;
      assert ValidKeyCoin(utxos[i]);
    }
    TotalPositive(coins);
  }

  lemma KnownDestinationAgrees(utxos: seq<KeyCoin>, k: KeyRequest)
    requires Comparable(k) && ValidRate(k.rate) && NoUncompressed(utxos) && Classify(k.destination).Some?
    ensures
      var own, hd := SelectEverything(utxos, k), SelectAll(ViewAll(utxos), k.destination, HdRequest(k));
      && (own.Ok? <==> hd.Ok? && WithinLimitsAll(utxos, k, hd.value))
      && (own.Ok? ==> own.value == hd.value)
  {
    hide KeyRefusal, AllRefusal, Sorted, Spendables, AllSpendable, DustOf, Total, ViewAll, NoUncompressed, Comparable;
    hide Estimate, SingleKeyEstimate, Classify, Fee;
    if KeyRefusal(utxos, k) == None {
      RequestsMatch(utxos, k, 1);
      DustAgrees(k.destination);
      AllNotRefused(utxos, k);
      SameEverything(utxos, k);
      SpendablesPositive(utxos, k);
      SizesMatch(|Sorted(Spendables(utxos, k))|, k, [TxOutput(0, k.destination)]);
      hide HdRequest;
    }
  }

  lemma UnknownDestinationRefused(utxos: seq<Coin>, script: bytes, q: Request)
    requires ValidRate(q.rate) && Classify(script).None?
    ensures SelectAll(utxos, script, q).Err?
  {
    hide AllRefusal, AllSpendable, Sorted, Estimate, Fee, Total;
  }

  /**
   * Sending everything, the single-key wallet succeeds towards a destination the HD wallet knows exactly
   * when the HD wallet does and the stricter limits hold, and both then select alike.
   */
  lemma SendAllAgrees(utxos: seq<KeyCoin>, k: KeyRequest)
    requires Comparable(k) && ValidRate(k.rate) && NoUncompressed(utxos)
    ensures
      var own, hd := SelectEverything(utxos, k), SelectAll(ViewAll(utxos), k.destination, HdRequest(k));
      && (own.Ok? && Classify(k.destination).Some? <==> hd.Ok? && WithinLimitsAll(utxos, k, hd.value))
      && (own.Ok? && Classify(k.destination).Some? ==> own.value == hd.value)
  {
    hide SelectEverything, SelectAll, Classify, WithinLimitsAll, NoUncompressed, Comparable;
    if Classify(k.destination).Some? {
      KnownDestinationAgrees(utxos, k);
    } else {
      UnknownDestinationRefused(ViewAll(utxos), k.destination, HdRequest(k));
    }
  }

  lemma SizesMatch(count: nat, k: KeyRequest, outputs: seq<TxOutput>)
    requires Comparable(k)
    ensures
      var vsize := Estimate(count, HdRequest(k).kind, outputs);
      vsize == SingleKeyEstimate(count, k.form, outputs) && 1 <= vsize && 68 * count <= vsize
  {
    EstimatesAgree(count, outputs);
    EstimatePositive(count, HdRequest(k).kind, outputs);
  }

  lemma AllNotRefused(utxos: seq<KeyCoin>, k: KeyRequest)
    requires Comparable(k) && KeyRefusal(utxos, k) == None && k.destination != []
    ensures DistinctPoints(utxos) && AllRefusal(ViewAll(utxos), k.destination, HdRequest(k)) == None
  {
    ValidView(utxos, k);
    hide ViewAll, Spendables;
  }

  lemma ValidView(utxos: seq<KeyCoin>, k: KeyRequest)
    requires KeyRefusal(utxos, k) == None
    ensures k.minConfirmations >= 1 && forall c :: c in ViewAll(utxos) ==> ValidCoin(c)
  {
    forall c | c in ViewAll(utxos) ensures ValidCoin(c) {
      var i :| 0 <= i < |utxos| && ViewAll(utxos)[i] == c;
      assert ValidKeyCoin(utxos[i]);
    }
  }

  /** The loop over candidates, with its two sizes per pass and its early exits. */
  method TakeCandidates(candidates: seq<Coin>, amount: nat, k: KeyRequest) returns (r: Result<(seq<Coin>, Plan), KeyError>)
    requires ValidRate(k.rate)
    ensures r == Take([], candidates, amount, k)
  {
    hide SingleKeyEstimate, Fee, DustOf, SizeAndFee;
    var total: int, selected: seq<Coin> := 0, [];
    var outputs := [TxOutput(amount, k.destination), TxOutput(0, k.source)];
    for i := 0 to |candidates|
      invariant total == Total(selected)
      invariant Take([], candidates, amount, k) == Take(selected, candidates[i..], amount, k)
    {
      var before := selected;
      assert candidates[i..][0] == candidates[i] && candidates[i..][1..] == candidates[i + 1..];
      selected := selected + [candidates[i]];
      total := total + candidates[i].value;
      assert selected[..|selected| - 1] == before;
      var sized := SizeAndFee(|selected|, k, outputs);
      if sized.Err? {
        return Err(sized.error);
      }
      var (estimate, fee) := sized.value;
      if DustOf(k.source).None? {
        return Err(UnknownScript);
      }
      var change := total - amount - fee;
      if change >= DustOf(k.source).value {
        return Ok((selected, Plan(change, fee, estimate)));
      }
      var bare := SizeAndFee(|selected|, k, outputs[..1]);
      if bare.Err? {
        return Err(bare.error);
      }
      if total - amount >= bare.value.1 {
        return Ok((selected, Plan(0, total - amount, bare.value.0)));
      }
    }
    r := Err(NotEnough);
  }
}
