/** The loops of `tx/coin_selection.py`, each proved to compute its specification. */
module CoinSelector {
  import opened Wrappers
  import opened Transactions
  import opened Addresses
  import opened FeeEstimate
  import opened Coins
  import opened CoinSelection

  /** The dictionary of eligible coins, filled in cache order. */
  method CollectEligible(utxos: seq<Coin>, q: Request) returns (eligible: seq<Coin>)
    ensures eligible == Eligible(utxos, q)
  {
    eligible := [];
    for i := 0 to |utxos|
      invariant eligible == Eligible(utxos[..i], q)
    {
      assert utxos[..i + 1][..i] == utxos[..i];
      if Qualifies(utxos[i], q) {
        eligible := Without(eligible, utxos[i].point) + [utxos[i]];
      }
    }
    assert utxos[..|utxos|] == utxos;
  }

  method CheckWanted(eligible: seq<Coin>, q: Request) returns (r: Option<SelectionError>)
    ensures r == WantedRefusal(eligible, q.reserved, q.wanted)
  {
    for i := 0 to |q.wanted|
      invariant WantedRefusal(eligible, q.reserved, q.wanted) == WantedRefusal(eligible, q.reserved, q.wanted[i..])
    {
      if q.wanted[i] in q.reserved {
        return Some(AlreadyReserved);
      }
      if q.wanted[i] !in Points(eligible) {
        return Some(NotSpendable);
      }
    }
    r := None;
  }

  method CollectMandatory(eligible: seq<Coin>, wanted: seq<Outpoint>) returns (selected: seq<Coin>)
    requires forall p :: p in wanted ==> p in Points(eligible)
    ensures selected == Mandatory(eligible, wanted)
  {
    selected := [];
    for i := 0 to |wanted|
      invariant selected == Mandatory(eligible, wanted[..i])
    {
      assert wanted[..i + 1][..i] == wanted[..i];
      if wanted[i] !in Points(selected) {
        selected := selected + [Find(eligible, wanted[i])];
      }
    }
    assert wanted[..|wanted|] == wanted;
  }

  /** The greedy loop: pop the best candidate until the selection pays for itself. */
  method GrowSelection(mandatory: seq<Coin>, sorted: seq<Coin>, outputs: seq<TxOutput>, q: Request)
    returns (result: Option<(seq<Coin>, Plan)>)
    requires Spendable(q.kind) && 0 < q.rate.den
    ensures result == Grow(mandatory, sorted, outputs, q)
  {
    hide Evaluate;
    var selected, candidates := mandatory, sorted;
    var plan := Evaluate(|selected|, Total(selected), outputs, q);
    while plan.None? && candidates != []
      invariant plan == Evaluate(|selected|, Total(selected), outputs, q)
      invariant Grow(mandatory, sorted, outputs, q) == Grow(selected, candidates, outputs, q)
      decreases |candidates|
    {
      selected, candidates := selected + [candidates[0]], candidates[1..];
      plan := Evaluate(|selected|, Total(selected), outputs, q);
    }
    result := if plan.Some? then Some((selected, plan.value)) else None;
  }

  method SelectCoins(utxos: seq<Coin>, outputs: seq<TxOutput>, q: Request) returns (r: Result<Selection, SelectionError>)
    requires ValidRate(q.rate)
    ensures r == Select(utxos, outputs, q)
  {
    if outputs == [] {
      return Err(NoOutputs);
    }
    if exists o :: o in outputs && o.value == 0 {
      return Err(BadOutputValue);
    }
    if q.minConfirmations < 1 {
      return Err(BadMinConfirmations);
    }
    if !Spendable(q.kind) {
      return Err(UnsupportedType);
    }
    if exists p :: p in q.wanted && p in q.excluded {
      return Err(IncludedAndExcluded);
    }
    if exists c :: c in utxos && !ValidCoin(c) {
      return Err(InvalidUtxo);
    }
    hide Eligible, WantedRefusal, Mandatory, Grow, Sorted, Unblocked, ValidCoin;
    var eligible := CollectEligible(utxos, q);
    var refusal := CheckWanted(eligible, q);
    if refusal.Some? {
      return Err(refusal.value);
    }
    var selected := CollectMandatory(eligible, q.wanted);
    var grown := GrowSelection(selected, Candidates(eligible, q), outputs, q);
    if grown.None? {
      return Err(InsufficientFunds);
    }
    var (coins, plan) := grown.value;
    if q.maxFee.Some? && plan.fee > q.maxFee.value {
      return Err(FeeAboveMaximum);
    }
    r := Ok(Selection(coins, plan, Total(coins), OutputTotal(outputs)));
  }
}
