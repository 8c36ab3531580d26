/** What the coin selectors choose is what the reserving sections accept. */
module Funding {
  import opened Wrappers
  import opened Bytes
  import opened Transactions
  import opened Addresses
  import opened FeeEstimate
  import opened Coins
  import opened CoinSelection
  import SingleKeySelection
  import HdProtocol
  import SingleKeyProtocol

  /** The cached coins as the HD workflow model keeps them. */
  ghost predicate CacheHolds(utxos: map<Outpoint, AddressType>, coins: seq<Coin>) {
    forall c :: c in coins ==> c.point in utxos && utxos[c.point] == c.kind
  }

  /** A successful HD selection against the locked cache is always reserved. */
  lemma HdSelectionIsReserved(f: HdProtocol.Files, coins: seq<Coin>, outputs: seq<TxOutput>, q: Request, draft: string)
    requires ValidRate(q.rate) && f.cache.Some? && CacheHolds(f.cache.value.utxos, coins)
    requires f.cache.value.reserved == map[] && f.cache.value.change == None && q.reserved == f.cache.value.spent.Keys
    requires Select(coins, outputs, q).Ok?
    ensures
      var points := Points(Select(coins, outputs, q).value.coins);
      var r := HdProtocol.Fund(f, draft, q.kind, points);
      && r.Ok? && r.value.cache.Some? && r.value.cache.value.reserved.Keys == points
      && forall p :: p in points ==> r.value.cache.value.reserved[p] == draft
  {
    var selected := Select(coins, outputs, q).value.coins;
    SelectedQualify(coins, outputs, q);
    hide Select, ValidRate, Points;
    forall c | c in selected ensures c.point in f.cache.value.utxos && f.cache.value.utxos[c.point] == q.kind && c.point !in f.cache.value.spent {
    }
    FundAccepts(f, draft, q.kind, selected);
  }

  /** A successful send-everything selection is reserved too. */
  lemma HdSendAllIsReserved(f: HdProtocol.Files, coins: seq<Coin>, script: bytes, q: Request, draft: string)
    requires ValidRate(q.rate) && f.cache.Some? && CacheHolds(f.cache.value.utxos, coins)
    requires f.cache.value.reserved == map[] && f.cache.value.change == None && q.reserved == f.cache.value.spent.Keys
    requires SelectAll(coins, script, q).Ok?
    ensures
      var points := Points(SelectAll(coins, script, q).value.coins);
      var r := HdProtocol.Fund(f, draft, q.kind, points);
      && r.Ok? && r.value.cache.Some? && r.value.cache.value.reserved.Keys == points
      && forall p :: p in points ==> r.value.cache.value.reserved[p] == draft
  {
    var selected := SelectAll(coins, script, q).value.coins;
    SelectAllTakesAll(coins, script, q);
    assert selected != [] by {
      hide AllRefusal, AllSpendable, Estimate, Fee, Dust, Total;
    }
    hide SelectAll, ValidRate, Points;
    forall c | c in selected ensures c.point in f.cache.value.utxos && f.cache.value.utxos[c.point] == q.kind && c.point !in f.cache.value.spent {
    }
    FundAccepts(f, draft, q.kind, selected);
  }

  lemma SelectedQualify(coins: seq<Coin>, outputs: seq<TxOutput>, q: Request)
    requires ValidRate(q.rate) && Select(coins, outputs, q).Ok?
    ensures Select(coins, outputs, q).value.coins != []
    ensures forall c :: c in Select(coins, outputs, q).value.coins ==> c in coins && c.kind == q.kind && c.point !in q.reserved
  {
    hide Refusal, Chosen, Eligible, Total, KeepsLittle, OutputTotal, Estimate, Fee;
    SelectConservesValue(coins, outputs, q);
    ChosenIsAdmissible(coins, outputs, q);
  }

  lemma FundAccepts(f: HdProtocol.Files, draft: string, kind: AddressType, selected: seq<Coin>)
    requires f.cache.Some? && f.cache.value.reserved == map[] && f.cache.value.change == None && selected != []
    requires forall c :: c in selected ==>
      c.point in f.cache.value.utxos && f.cache.value.utxos[c.point] == kind && c.point !in f.cache.value.spent
    ensures
      var r := HdProtocol.Fund(f, draft, kind, Points(selected));
      && r.Ok? && r.value.cache.Some? && r.value.cache.value.reserved.Keys == Points(selected)
      && forall p :: p in Points(selected) ==> r.value.cache.value.reserved[p] == draft
  {
    assert selected[0] in selected && selected[0].point in Points(selected);
  }

  /** The cached coins as the single-key protocol model keeps them. */
  ghost predicate EntryHolds(e: SingleKeyProtocol.Entry, coins: seq<SingleKeySelection.KeyCoin>) {
    forall c :: c in coins ==> c.point in e.utxos
  }

  lemma {:induction false} SpendablesAvailable(utxos: seq<SingleKeySelection.KeyCoin>, k: SingleKeySelection.KeyRequest, c: Coin)
    requires c in SingleKeySelection.Spendables(utxos, k)
    ensures c.point !in k.unavailable && exists u :: u in utxos && u.point == c.point
  {
    if c in SingleKeySelection.Spendables(utxos[1..], k) {
      SpendablesAvailable(utxos[1..], k, c);
      var u :| u in utxos[1..] && u.point == c.point;
      assert u in utxos;
    } else {
      assert utxos[0] in utxos;
    }
  }

  lemma {:induction false} TakeIsFromCandidates(selected: seq<Coin>, candidates: seq<Coin>, amount: nat, k: SingleKeySelection.KeyRequest)
    requires ValidRate(k.rate) && SingleKeySelection.Take(selected, candidates, amount, k).Ok?
    ensures forall c :: c in SingleKeySelection.Take(selected, candidates, amount, k).value.0 ==> c in selected || c in candidates
    decreases |candidates|
  {
    hide SingleKeySelection.Try, Total;
    if candidates != [] {
      var taken := selected + [candidates[0]];
      assert forall c :: c in taken ==> c in selected || c in candidates;
      if SingleKeySelection.Try(|taken|, Total(taken), amount, k) == Ok(None) {
        TakeIsFromCandidates(taken, candidates[1..], amount, k);
      }
    }
  }

  function PointsInOrder(coins: seq<Coin>): (r: seq<Outpoint>)
    ensures |r| == |coins| && forall i :: 0 <= i < |coins| ==> r[i] == coins[i].point
  {
    seq(|coins|, i requires 0 <= i < |coins| => coins[i].point)
  }

  lemma SortedSpendablesFree(f: SingleKeyProtocol.Files, name: string, coins: seq<SingleKeySelection.KeyCoin>, k: SingleKeySelection.KeyRequest)
    requires name in f.cache && EntryHolds(f.cache[name], coins) && k.unavailable == SingleKeyProtocol.Unavailable(f.cache)
    ensures forall c :: c in Sorted(SingleKeySelection.Spendables(coins, k)) ==>
      c.point in f.cache[name].utxos && c.point !in SingleKeyProtocol.Unavailable(f.cache)
  {
    var spendables := SingleKeySelection.Spendables(coins, k);
    var candidates := Sorted(spendables);
    SortedContents(spendables);
    hide SingleKeySelection.Spendables, Sorted, SingleKeyProtocol.Unavailable;
    forall c | c in candidates ensures c.point in f.cache[name].utxos && c.point !in k.unavailable {
      assert c in multiset(candidates) && c in spendables;
      SpendablesAvailable(coins, k, c);
    }
  }

  lemma ReserveAccepts(f: SingleKeyProtocol.Files, name: string, walletId: string, operation: string, selected: seq<Coin>)
    requires SingleKeyProtocol.Matches(f, name, walletId)
    requires forall c :: c in selected ==> c.point in f.cache[name].utxos && c.point !in SingleKeyProtocol.Unavailable(f.cache)
    ensures
      var points := PointsInOrder(selected);
      var r := SingleKeyProtocol.Reserve(f, name, walletId, operation, points);
      && r.Ok? && name in r.value.cache
      && forall p :: p in points ==>
           p in r.value.cache[name].reservations && r.value.cache[name].reservations[p] == SingleKeyProtocol.Reservation(operation, false)
  {
    var points := PointsInOrder(selected);
    forall p | p in points ensures p in f.cache[name].utxos && p !in SingleKeyProtocol.Unavailable(f.cache) {
      var i :| 0 <= i < |points| && points[i] == p;
      assert selected[i] in selected;
    }
  }

  /** A successful single-key selection that avoids every wallet's blocked coins is always reserved. */
  lemma SingleKeySelectionIsReserved(f: SingleKeyProtocol.Files, name: string, walletId: string, operation: string,
      coins: seq<SingleKeySelection.KeyCoin>, k: SingleKeySelection.KeyRequest, amount: int)
    requires ValidRate(k.rate) && SingleKeyProtocol.Matches(f, name, walletId) && EntryHolds(f.cache[name], coins)
    requires k.unavailable == SingleKeyProtocol.Unavailable(f.cache) && SingleKeySelection.SelectAmount(coins, k, amount).Ok?
    ensures
      var points := PointsInOrder(SingleKeySelection.SelectAmount(coins, k, amount).value.coins);
      var r := SingleKeyProtocol.Reserve(f, name, walletId, operation, points);
      && r.Ok? && name in r.value.cache
      && forall p :: p in points ==>
           p in r.value.cache[name].reservations && r.value.cache[name].reservations[p] == SingleKeyProtocol.Reservation(operation, false)
  {
    var candidates := Sorted(SingleKeySelection.Spendables(coins, k));
    SortedSpendablesFree(f, name, coins, k);
    hide SingleKeySelection.KeyRefusal, SingleKeySelection.Spendables, Sorted, Total, SingleKeySelection.DustOf;
    TakeIsFromCandidates([], candidates, amount, k);
    hide SingleKeySelection.Take, SingleKeyProtocol.Unavailable;
    var selected := SingleKeySelection.SelectAmount(coins, k, amount).value.coins;
    assert forall c :: c in selected ==> c in candidates;
    hide SingleKeySelection.SelectAmount, SingleKeyProtocol.Reserve;
    ReserveAccepts(f, name, walletId, operation, selected);
  }

  /** A successful send-everything selection is reserved too. */
  lemma SingleKeySendAllIsReserved(f: SingleKeyProtocol.Files, name: string, walletId: string, operation: string,
      coins: seq<SingleKeySelection.KeyCoin>, k: SingleKeySelection.KeyRequest)
    requires ValidRate(k.rate) && SingleKeyProtocol.Matches(f, name, walletId) && EntryHolds(f.cache[name], coins)
    requires k.unavailable == SingleKeyProtocol.Unavailable(f.cache) && SingleKeySelection.SelectEverything(coins, k).Ok?
    ensures
      var points := PointsInOrder(SingleKeySelection.SelectEverything(coins, k).value.coins);
      var r := SingleKeyProtocol.Reserve(f, name, walletId, operation, points);
      && r.Ok? && name in r.value.cache
      && forall p :: p in points ==>
           p in r.value.cache[name].reservations && r.value.cache[name].reservations[p] == SingleKeyProtocol.Reservation(operation, false)
  {
    SortedSpendablesFree(f, name, coins, k);
    hide SingleKeySelection.KeyRefusal, SingleKeySelection.Spendables, Sorted, Total, SingleKeySelection.DustOf;
    hide SingleKeySelection.SizeAndFee, SingleKeyProtocol.Unavailable;
    assert SingleKeySelection.SelectEverything(coins, k).value.coins == Sorted(SingleKeySelection.Spendables(coins, k));
    hide SingleKeySelection.SelectEverything, SingleKeyProtocol.Reserve;
    ReserveAccepts(f, name, walletId, operation, SingleKeySelection.SelectEverything(coins, k).value.coins);
  }
}
