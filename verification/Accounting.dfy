/** Balances over the life of a payment (`wallet/transaction_accounting.py`, `tx/workflow.py`). */
module Accounting {
  import opened Wrappers
  import opened Bytes
  import opened Transactions
  import opened Addresses
  import opened FeeEstimate
  import opened Coins
  import opened CoinSelection
  import opened HdProtocol

  /** A recorded broadcast; `delta` is its effect on the wallet, when the wallet file was known. */
  datatype Pending = Pending(txid: bytes, delta: Option<int>, observed: bool)

  /** What the balance is computed from; `chain` is the confirmed and unconfirmed amount of the last sync, if stored. */
  datatype Ledger = Ledger(
    chain: Option<(nat, nat)>,
    coins: seq<Coin>,
    reserved: map<Outpoint, string>,
    spent: map<Outpoint, bytes>,
    pending: seq<Pending>)

  datatype Balance = Balance(authoritative: int, pendingDelta: int, effective: int, available: int)

  // ----- The balance -----

  function Blocked(l: Ledger): set<Outpoint> {
    l.reserved.Keys + l.spent.Keys
  }

  predicate Counts(c: Coin, blocked: set<Outpoint>) {
    c.confirmed && c.point !in blocked && c.value > 0
  }

  function Available(coins: seq<Coin>, blocked: set<Outpoint>): nat {
    if coins == [] then 0
    else Available(coins[..|coins| - 1], blocked) + var c := coins[|coins| - 1]; if Counts(c, blocked) then c.value else 0
  }

  function DeltaOf(p: Pending): int {
    if p.observed || p.delta.None? then 0 else p.delta.value
  }

  function PendingDelta(pending: seq<Pending>): int {
    if pending == [] then 0 else PendingDelta(pending[..|pending| - 1]) + DeltaOf(pending[|pending| - 1])
  }

  /** `_chain_balance_from_utxos`: the confirmed and the unconfirmed value of the cached coins. */
  function Held(coins: seq<Coin>): (nat, nat) {
    if coins == [] then (0, 0)
    else
      var (confirmed, unconfirmed) := Held(coins[..|coins| - 1]);
      var c := coins[|coins| - 1];
      if c.value < 0 then (confirmed, unconfirmed)
      else if c.confirmed then (confirmed + c.value, unconfirmed)
      else (confirmed, unconfirmed + c.value)
  }

  function ChainBalance(l: Ledger): (nat, nat) {
    if l.chain.Some? then l.chain.value else Held(l.coins)
  }

  /** `calculate_wallet_balance`. */
  function BalanceOf(l: Ledger): Balance {
    var authoritative, delta := ChainBalance(l).0 + ChainBalance(l).1, PendingDelta(l.pending);
    Balance(authoritative, delta, authoritative + delta, Available(l.coins, Blocked(l)))
  }

  method SumHeld(coins: seq<Coin>) returns (sums: (nat, nat))
    ensures sums == Held(coins)
  {
    var confirmed, unconfirmed := 0, 0;
    for i := 0 to |coins|
      invariant (confirmed, unconfirmed) == Held(coins[..i])
    {
      assert coins[..i + 1][..i] == coins[..i];
      if coins[i].value >= 0 {
        if coins[i].confirmed {
          confirmed := confirmed + coins[i].value;
        } else {
          unconfirmed := unconfirmed + coins[i].value;
        }
      }
    }
    assert coins[..|coins|] == coins;
    sums := (confirmed, unconfirmed);
  }

  method CalculateBalance(l: Ledger) returns (b: Balance)
    ensures b == BalanceOf(l)
  {
    var delta := 0;
    for i := 0 to |l.pending|
      invariant delta == PendingDelta(l.pending[..i])
    {
      assert l.pending[..i + 1][..i] == l.pending[..i];
      if !l.pending[i].observed && l.pending[i].delta.Some? {
        delta := delta + l.pending[i].delta.value;
      }
    }
    var blocked := l.spent.Keys + l.reserved.Keys;
    assert blocked == Blocked(l);
    var available := 0;
    for i := 0 to |l.coins|
      invariant available == Available(l.coins[..i], blocked)
    {
      assert l.coins[..i + 1][..i] == l.coins[..i];
      if l.coins[i].confirmed && l.coins[i].point !in blocked && l.coins[i].value > 0 {
        available := available + l.coins[i].value;
      }
    }
    assert l.pending[..|l.pending|] == l.pending && l.coins[..|l.coins|] == l.coins;
    var chain := if l.chain.Some? then l.chain.value else (0, 0);
    if l.chain.None? {
      chain := SumHeld(l.coins);
    }
    var authoritative := chain.0 + chain.1;
    b := Balance(authoritative, delta, authoritative + delta, available);
  }

  // ----- The life of a draft -----

  function Fund(l: Ledger, draft: string, selected: seq<Coin>): Ledger {
    l.(reserved := l.reserved + map p | p in Points(selected) :: draft)
  }

  function Cancel(l: Ledger, draft: string): Ledger {
    l.(reserved := Unreserved(l.reserved, draft))
  }

  /** An output of the signed transaction, with the address it pays. */
  datatype Paid = Paid(value: nat, address: string)

  datatype Signed = Signed(draft: string, txid: bytes, inputs: seq<Coin>, outputs: seq<Paid>, fee: int)

  function Outgoing(outputs: seq<Paid>): nat {
    if outputs == [] then 0 else outputs[0].value + Outgoing(outputs[1..])
  }

  function Received(outputs: seq<Paid>, owned: set<string>): nat {
    if outputs == [] then 0 else (if outputs[0].address in owned then outputs[0].value else 0) + Received(outputs[1..], owned)
  }

  function Foreign(outputs: seq<Paid>, owned: set<string>): nat {
    if outputs == [] then 0 else (if outputs[0].address in owned then 0 else outputs[0].value) + Foreign(outputs[1..], owned)
  }

  datatype Direction = Incoming | Sent | Self

  /** `transaction_direction`. */
  function DirectionOf(sent: int, received: int, net: int, external: bool): Direction {
    if sent != 0 && received != 0 then if !external then Self else if net > 0 then Incoming else Sent
    else if sent != 0 then Sent else Incoming
  }

  /** `pending_summary_from_signed`: the change in the wallet's own coins, and its direction. */
  function Summary(s: Signed, owned: set<string>): (int, Direction) {
    var sent, received := Total(s.inputs), Received(s.outputs, owned);
    var external := exists o :: o in s.outputs && o.value > 0 && o.address !in owned;
    (received - sent, DirectionOf(sent, received, received - sent, external))
  }

  function WithoutTxid(pending: seq<Pending>, txid: bytes): seq<Pending> {
    if pending == [] then []
    else
      var rest, last := WithoutTxid(pending[..|pending| - 1], txid), pending[|pending| - 1];
      if last.txid == txid then rest else rest + [last]
  }

  /** `record_successful_broadcast`; `owned` is known when the wallet file is. */
  function Record(l: Ledger, s: Signed, owned: Option<set<string>>): Ledger {
    var delta := if owned.Some? then Some(Summary(s, owned.value).0) else None;
    Cancel(l, s.draft).(
      spent := l.spent + SpentBy(Points(s.inputs), s.txid),
      pending := WithoutTxid(l.pending, s.txid) + [Pending(s.txid, delta, false)])
  }

  // ----- What the balance counts -----

  /** The coins that pass a test, in their order. */
  function Only(coins: seq<Coin>, keep: Coin -> bool): seq<Coin> {
    if coins == [] then []
    else
      var n := |coins| - 1;
      Only(coins[..n], keep) + if keep(coins[n]) then [coins[n]] else []
  }

  lemma {:induction false} HeldIsTotal(coins: seq<Coin>)
    ensures Held(coins).0 == Total(Only(coins, (c: Coin) => c.value >= 0 && c.confirmed))
    ensures Held(coins).0 + Held(coins).1 == Total(Only(coins, (c: Coin) => c.value >= 0))
  {
    if coins != [] {
      var n := |coins| - 1;
      var confirmed, all := (c: Coin) => c.value >= 0 && c.confirmed, (c: Coin) => c.value >= 0;
      HeldIsTotal(coins[..n]);
      TotalAppend(Only(coins[..n], confirmed), if confirmed(coins[n]) then [coins[n]] else []);
      TotalAppend(Only(coins[..n], all), if all(coins[n]) then [coins[n]] else []);
      assert Total([coins[n]]) == Total([coins[n]][..0]) + coins[n].value;
    }
  }

  /** The test of a coin that can be spent now: confirmed, worth something, neither reserved nor pending-spent. */
  function SpendableNow(l: Ledger): Coin -> bool {
    (c: Coin) => c.confirmed && c.value > 0 && c.point !in l.reserved && c.point !in l.spent
  }

  lemma {:induction false} AvailableIsTotal(l: Ledger, coins: seq<Coin>)
    ensures Available(coins, Blocked(l)) == Total(Only(coins, SpendableNow(l)))
  {
    if coins != [] {
      var n := |coins| - 1;
      AvailableIsTotal(l, coins[..n]);
      TotalAppend(Only(coins[..n], SpendableNow(l)), if SpendableNow(l)(coins[n]) then [coins[n]] else []);
      assert Total([coins[n]]) == Total([coins[n]][..0]) + coins[n].value;
    }
  }

  /**
   * The authoritative balance is what the last sync stored, confirmed and unconfirmed, or without that the
   * value of all cached coins; what is available is the value of the coins that can be spent now.
   */
  lemma BalanceExactly(l: Ledger)
    ensures
      var b := BalanceOf(l);
      && (l.chain.Some? ==> b.authoritative == l.chain.value.0 + l.chain.value.1)
      && (l.chain.None? ==> b.authoritative == Total(Only(l.coins, (c: Coin) => c.value >= 0)))
      && b.available == Total(Only(l.coins, SpendableNow(l)))
      && b.effective == b.authoritative + b.pendingDelta
  {
    HeldIsTotal(l.coins);
    AvailableIsTotal(l, l.coins);
    hide Held, Available, Only, PendingDelta;
  }

  /** Each recorded broadcast adds its effect to the pending delta until a sync has seen it, or if it is unknown nothing. */
  lemma DeltaExactly(l: Ledger, p: Pending)
    ensures BalanceOf(l.(pending := [])).pendingDelta == 0
    ensures
      BalanceOf(l.(pending := l.pending + [p])).pendingDelta ==
        BalanceOf(l).pendingDelta + if !p.observed && p.delta.Some? then p.delta.value else 0
  {
    assert (l.pending + [p])[..|l.pending|] == l.pending;
  }

  /** Received on balance, paid out, or moved within the wallet. */
  lemma DirectionExactly(sent: int, received: int, external: bool)
    ensures
      var d := DirectionOf(sent, received, received - sent, external);
      && (d == Self <==> sent != 0 && received != 0 && !external)
      && (d == Incoming <==> sent == 0 || (received != 0 && external && received > sent))
  {
  }

  lemma {:induction false} WithoutTxidMeans(pending: seq<Pending>, txid: bytes, p: Pending)
    ensures p in WithoutTxid(pending, txid) <==> p in pending && p.txid != txid
    ensures forall q :: q in WithoutTxid(pending, txid) ==> q.txid != txid
  {
    if pending != [] {
      var n := |pending| - 1;
      assert pending == pending[..n] + [pending[n]];
      WithoutTxidMeans(pending[..n], txid, p);
    }
  }

  /** Recording leaves one entry for the transaction, not yet observed, with its effect if the wallet file is known, and all others. */
  lemma RecordedOnce(l: Ledger, s: Signed, owned: Option<set<string>>, p: Pending)
    ensures
      var g := Record(l, s, owned);
      && g.chain == l.chain && g.coins == l.coins
      && (p in g.pending <==>
            if p.txid == s.txid then
              p == Pending(s.txid, if owned.Some? then Some(Received(s.outputs, owned.value) - Total(s.inputs)) else None, false)
            else p in l.pending)
  {
    WithoutTxidMeans(l.pending, s.txid, p);
    hide WithoutTxid, Total;
  }

  // ----- Available -----

  lemma {:induction false} AvailableAppend(coins: seq<Coin>, a: set<Outpoint>, b: set<Outpoint>)
    requires forall c :: c in coins ==> (c.point in a <==> c.point in b)
    ensures Available(coins, a) == Available(coins, b)
  {
    if coins != [] {
      AvailableAppend(coins[..|coins| - 1], a, b);
    }
  }

  lemma {:induction false} AvailableWithout(coins: seq<Coin>, blocked: set<Outpoint>, c: Coin)
    requires OnePerPoint(coins) && c in coins && Counts(c, blocked)
    ensures Available(coins, blocked) == Available(coins, blocked + {c.point}) + c.value
  {
    var n := |coins| - 1;
    var front, last := coins[..n], coins[n];
    assert coins == front + [last];
    if last == c {
      assert forall d :: d in front ==> d.point != c.point;
      AvailableAppend(front, blocked, blocked + {c.point});
    } else {
      AvailableWithout(front, blocked, c);
      SamePointSameCoin(coins, last, c);
    }
  }

  lemma PointsOfPrefix(coins: seq<Coin>, c: Coin)
    requires OnePerPoint(coins + [c])
    ensures OnePerPoint(coins) && c.point !in Points(coins)
  {
    var all := coins + [c];
    assert forall i :: 0 <= i < |coins| ==> all[i] == coins[i];
    assert all[|coins|] == c;
  }

  /** Blocking distinct counted coins takes exactly their total away. */
  lemma {:induction false} BlockingLowersAvailable(coins: seq<Coin>, blocked: set<Outpoint>, selected: seq<Coin>)
    requires OnePerPoint(coins) && OnePerPoint(selected)
    requires forall c :: c in selected ==> c in coins && Counts(c, blocked)
    ensures Available(coins, blocked) == Available(coins, blocked + Points(selected)) + Total(selected)
  {
    if selected == [] {
      assert blocked + Points([]) == blocked;
    } else {
      var n := |selected| - 1;
      var front, last := selected[..n], selected[n];
      assert selected == front + [last];
      PointsOfPrefix(front, last);
      PointsAppend(front, last);
      BlockingLowersAvailable(coins, blocked, front);
      AvailableWithout(coins, blocked + Points(front), last);
      assert blocked + Points(front) + {last.point} == blocked + Points(selected);
    }
  }

  lemma {:induction false} AvailableWithinHeld(coins: seq<Coin>, blocked: set<Outpoint>)
    ensures Available(coins, blocked) <= Held(coins).0
  {
    if coins != [] {
      AvailableWithinHeld(coins[..|coins| - 1], blocked);
    }
  }

  /** Without a stored chain balance, what is available is within what is confirmed. */
  lemma AvailableWithinConfirmed(l: Ledger)
    requires l.chain.None?
    ensures BalanceOf(l).available <= ChainBalance(l).0 <= BalanceOf(l).authoritative
  {
    AvailableWithinHeld(l.coins, Blocked(l));
  }

  /** What the workflow passes to coin selection: nothing reserved or pending-spent may be taken. */
  predicate RequestFor(l: Ledger, q: Request) {
    q.reserved == Blocked(l)
  }

  /** Distinct cached coins that all count as available. */
  predicate Takes(l: Ledger, selected: seq<Coin>) {
    OnePerPoint(selected) && forall c :: c in selected ==> c in l.coins && Counts(c, Blocked(l))
  }

  lemma SelectedCount(l: Ledger, outputs: seq<TxOutput>, q: Request)
    requires ValidRate(q.rate) && RequestFor(l, q) && Select(l.coins, outputs, q).Ok?
    ensures var s := Select(l.coins, outputs, q).value; Takes(l, s.coins) && s.total == Total(s.coins)
  {
    SelectConservesValue(l.coins, outputs, q);
    ChosenIsAdmissible(l.coins, outputs, q);
    SelectedAreValid(l, outputs, q);
    hide Refusal, Chosen, Eligible, Estimate, Fee, KeepsLittle;
  }

  lemma SelectedAreValid(l: Ledger, outputs: seq<TxOutput>, q: Request)
    requires Refusal(l.coins, outputs, q) == None
    ensures Spendable(q.kind) && forall c :: c in l.coins && c.kind == q.kind ==> c.value > 0
  {
    hide Eligible, WantedRefusal;
    forall c | c in l.coins && c.kind == q.kind ensures c.value > 0 {
      assert ValidCoin(c);
    }
  }

  /** The inputs selected are never worth more than the available balance shows. */
  lemma SelectionWithinAvailable(l: Ledger, outputs: seq<TxOutput>, q: Request)
    requires ValidRate(q.rate) && RequestFor(l, q) && Select(l.coins, outputs, q).Ok?
    ensures Select(l.coins, outputs, q).value.total <= BalanceOf(l).available
  {
    SelectedCount(l, outputs, q);
    hide Select, Counts;
    DistinctWithinAvailable(l.coins, Blocked(l), Select(l.coins, outputs, q).value.coins);
  }

  lemma {:induction false} DistinctWithinAvailable(coins: seq<Coin>, blocked: set<Outpoint>, selected: seq<Coin>)
    requires OnePerPoint(selected) && forall c :: c in selected ==> c in coins && Counts(c, blocked)
    ensures Total(selected) <= Available(coins, blocked)
  {
    if coins == [] {
      NoneFromNone(selected, coins);
    } else {
      var n := |coins| - 1;
      var front, last := coins[..n], coins[n];
      assert coins == front + [last];
      if i :| 0 <= i < |selected| && selected[i] == last {
        var others := selected[..i] + selected[i + 1..];
        WithoutOne(selected, i);
        TotalRemove(selected, i);
        forall c | c in others ensures c in front && Counts(c, blocked) {
          assert c in selected && c != last;
        }
        hide OnePerPoint, Counts;
        DistinctWithinAvailable(front, blocked, others);
        AvailableLast(front, last, blocked);
      } else {
        DistinctWithinAvailable(front, blocked, selected);
        AvailableLast(front, last, blocked);
      }
    }
  }

  lemma NoneFromNone(selected: seq<Coin>, coins: seq<Coin>)
    requires forall c :: c in selected ==> c in coins
    ensures coins == [] ==> selected == []
  {
    if selected != [] {
      assert selected[0] in coins;
    }
  }

  lemma AvailableLast(front: seq<Coin>, last: Coin, blocked: set<Outpoint>)
    ensures Available(front + [last], blocked) == Available(front, blocked) + if Counts(last, blocked) then last.value else 0
  {
    assert (front + [last])[..|front|] == front;
  }

  /** Funding a draft lowers what is available by exactly its inputs, and nothing else changes. */
  lemma FundingLowersAvailable(l: Ledger, draft: string, outputs: seq<TxOutput>, q: Request)
    requires ValidRate(q.rate) && RequestFor(l, q) && OnePerPoint(l.coins) && Select(l.coins, outputs, q).Ok?
    ensures
      var s := Select(l.coins, outputs, q).value;
      var before, after := BalanceOf(l), BalanceOf(Fund(l, draft, s.coins));
      after == before.(available := before.available - s.total)
  {
    SelectedCount(l, outputs, q);
    hide *;
    ReservingLowersAvailable(l, draft, Select(l.coins, outputs, q).value.coins);
  }

  lemma ReservingLowersAvailable(l: Ledger, draft: string, coins: seq<Coin>)
    requires OnePerPoint(l.coins) && Takes(l, coins)
    ensures BalanceOf(Fund(l, draft, coins)) == BalanceOf(l).(available := BalanceOf(l).available - Total(coins))
  {
    BlockingLowersAvailable(l.coins, Blocked(l), coins);
    assert Blocked(Fund(l, draft, coins)) == Blocked(l) + Points(coins);
  }

  // ----- Sending everything -----

  lemma AllSpendableCount(l: Ledger, script: bytes, q: Request)
    requires ValidRate(q.rate) && RequestFor(l, q) && SelectAll(l.coins, script, q).Ok?
    ensures forall c :: c in AllSpendable(l.coins, q) ==> c in l.coins && Counts(c, Blocked(l))
  {
    hide AllSpendable, Sorted, Estimate, Fee, Total;
    forall c | c in AllSpendable(l.coins, q) ensures Counts(c, Blocked(l)) {
      assert ValidCoin(c);
    }
  }

  lemma {:induction false} AvailableFirst(c: Coin, coins: seq<Coin>, blocked: set<Outpoint>)
    ensures Available([c] + coins, blocked) == (if Counts(c, blocked) then c.value else 0) + Available(coins, blocked)
  {
    if coins == [] {
      assert [c] + coins == [c] && Available([c][..0], blocked) == 0;
    } else {
      var n := |coins| - 1;
      assert ([c] + coins)[..|coins|] == [c] + coins[..n];
      AvailableFirst(c, coins[..n], blocked);
    }
  }

  lemma {:induction false} SpendableWithinAvailable(coins: seq<Coin>, q: Request)
    requires forall c :: c in AllSpendable(coins, q) ==> Counts(c, q.reserved)
    ensures Total(AllSpendable(coins, q)) <= Available(coins, q.reserved)
  {
    if coins != [] {
      var rest := AllSpendable(coins[1..], q);
      assert coins == [coins[0]] + coins[1..];
      AvailableFirst(coins[0], coins[1..], q.reserved);
      TotalAppend([coins[0]], rest);
      assert Total([coins[0]]) == coins[0].value;
      SpendableWithinAvailable(coins[1..], q);
    }
  }

  lemma SelectAllTotal(coins: seq<Coin>, script: bytes, q: Request)
    requires ValidRate(q.rate) && SelectAll(coins, script, q).Ok?
    ensures var s := SelectAll(coins, script, q).value; s.coins == Sorted(AllSpendable(coins, q)) && s.total == Total(s.coins)
  {
    hide AllRefusal, AllSpendable, Sorted, Total, Estimate, Fee, Dust;
  }

  /** Sending everything never counts more than the available balance shows, however often a coin is cached. */
  lemma SendAllWithinAvailable(l: Ledger, script: bytes, q: Request)
    requires ValidRate(q.rate) && RequestFor(l, q) && SelectAll(l.coins, script, q).Ok?
    ensures SelectAll(l.coins, script, q).value.total <= BalanceOf(l).available
  {
    AllSpendableCount(l, script, q);
    SelectAllTotal(l.coins, script, q);
    hide SelectAll, AllSpendable, Sorted;
    SpendableWithinAvailable(l.coins, q);
    TotalSorted(AllSpendable(l.coins, q));
  }

  lemma SendAllCounts(l: Ledger, script: bytes, q: Request)
    requires ValidRate(q.rate) && RequestFor(l, q) && OnePerPoint(l.coins) && SelectAll(l.coins, script, q).Ok?
    ensures var s := SelectAll(l.coins, script, q).value; Takes(l, s.coins) && s.total == Total(s.coins)
  {
    AllSpendableCount(l, script, q);
    SelectAllTotal(l.coins, script, q);
    var spendable := AllSpendable(l.coins, q);
    assert OnePerPoint(spendable);
    SortedContents(spendable);
    hide SelectAll, AllSpendable, Sorted, Counts, OnePerPoint;
    OnePerPointMultiset(spendable, Sorted(spendable));
    forall c | c in Sorted(spendable) ensures c in spendable {
      assert c in multiset(Sorted(spendable));
    }
  }

  /** Funding a send-everything draft lowers what is available by exactly its inputs, and nothing else changes. */
  lemma SendAllLowersAvailable(l: Ledger, draft: string, script: bytes, q: Request)
    requires ValidRate(q.rate) && RequestFor(l, q) && OnePerPoint(l.coins) && SelectAll(l.coins, script, q).Ok?
    ensures
      var s := SelectAll(l.coins, script, q).value;
      var before, after := BalanceOf(l), BalanceOf(Fund(l, draft, s.coins));
      after == before.(available := before.available - s.total)
  {
    SendAllCounts(l, script, q);
    hide *;
    ReservingLowersAvailable(l, draft, SelectAll(l.coins, script, q).value.coins);
  }

  // ----- Cancelling and recording -----

  /** Cancelling before the broadcast restores the ledger, so every balance with it. */
  lemma CancelRestores(l: Ledger, draft: string, selected: seq<Coin>)
    requires draft !in l.reserved.Values && forall c :: c in selected ==> c.point !in Blocked(l)
    ensures Cancel(Fund(l, draft, selected), draft) == l
  {
    var f := Fund(l, draft, selected);
    var c := Cancel(f, draft);
    forall p ensures p in c.reserved <==> p in l.reserved {
      if p in l.reserved {
        assert l.reserved[p] in l.reserved.Values;
        assert p !in Points(selected);
      }
    }
    assert c.reserved == l.reserved;
  }

  /** The signed transaction spends exactly the inputs its draft reserved. */
  ghost predicate SpendsReserved(l: Ledger, s: Signed) {
    forall p :: p in Points(s.inputs) <==> p in l.reserved && l.reserved[p] == s.draft
  }

  /** Recording a broadcast only turns reserved inputs into spent ones: what is available stays. */
  lemma RecordingKeepsAvailable(l: Ledger, s: Signed, owned: Option<set<string>>)
    requires SpendsReserved(l, s)
    ensures BalanceOf(Record(l, s, owned)).available == BalanceOf(l).available
    ensures BalanceOf(Record(l, s, owned)).authoritative == BalanceOf(l).authoritative
  {
    var g := Record(l, s, owned);
    assert Blocked(g) == Blocked(l);
  }

  // ----- Effective -----

  lemma {:induction false} OutputsSplit(outputs: seq<Paid>, owned: set<string>)
    ensures Outgoing(outputs) == Received(outputs, owned) + Foreign(outputs, owned)
  {
    if outputs != [] {
      OutputsSplit(outputs[1..], owned);
    }
  }

  lemma {:induction false} NewTxidStays(pending: seq<Pending>, txid: bytes)
    requires forall p :: p in pending ==> p.txid != txid
    ensures WithoutTxid(pending, txid) == pending
  {
    if pending != [] {
      assert pending == pending[..|pending| - 1] + [pending[|pending| - 1]];
      NewTxidStays(pending[..|pending| - 1], txid);
    }
  }

  /**
   * Recording a broadcast, with the wallet file known and the transaction new, lowers the effective
   * balance by exactly the fee and what was paid to others.
   */
  lemma RecordingLowersEffective(l: Ledger, s: Signed, owned: set<string>)
    requires s.fee == Total(s.inputs) - Outgoing(s.outputs) && forall p :: p in l.pending ==> p.txid != s.txid
    ensures BalanceOf(Record(l, s, Some(owned))).effective == BalanceOf(l).effective - (s.fee + Foreign(s.outputs, owned))
  {
    OutputsSplit(s.outputs, owned);
    NewTxidStays(l.pending, s.txid);
    var added := Pending(s.txid, Some(Summary(s, owned).0), false);
    assert (l.pending + [added])[..|l.pending|] == l.pending;
  }

  lemma {:induction false} ForeignMeans(outputs: seq<Paid>, owned: set<string>)
    ensures Foreign(outputs, owned) > 0 <==> exists o :: o in outputs && o.value > 0 && o.address !in owned
  {
    if outputs != [] {
      ForeignMeans(outputs[1..], owned);
      assert outputs == [outputs[0]] + outputs[1..];
    }
  }

  /** A signed transaction is a payment, or a payment to oneself when no output leaves the wallet. */
  lemma SignedDirection(s: Signed, owned: set<string>)
    requires Total(s.inputs) > 0 && Outgoing(s.outputs) <= Total(s.inputs)
    ensures Summary(s, owned).1 == if Received(s.outputs, owned) > 0 && Foreign(s.outputs, owned) == 0 then Self else Sent
  {
    OutputsSplit(s.outputs, owned);
    ForeignMeans(s.outputs, owned);
  }

  /** What a whole payment does to the balances: funding, then recording its broadcast. */
  ghost predicate Accounted(l: Ledger, s: Signed, owned: set<string>) {
    var funded := Fund(l, s.draft, s.inputs);
    var a, b, c := BalanceOf(l), BalanceOf(funded), BalanceOf(Record(funded, s, Some(owned)));
    && b.available == c.available == a.available - Total(s.inputs) >= 0
    && b.effective == a.effective && c.effective == a.effective - (s.fee + Foreign(s.outputs, owned))
  }

  lemma TakenAccounts(l: Ledger, s: Signed, owned: set<string>)
    requires OnePerPoint(l.coins) && Takes(l, s.inputs) && s.draft !in l.reserved.Values
    requires s.fee == Total(s.inputs) - Outgoing(s.outputs) && forall p :: p in l.pending ==> p.txid != s.txid
    ensures Accounted(l, s, owned)
  {
    ReservingLowersAvailable(l, s.draft, s.inputs);
    DistinctWithinAvailable(l.coins, Blocked(l), s.inputs);
    var funded := Fund(l, s.draft, s.inputs);
    FundedSpendsReserved(l, s);
    hide BalanceOf, Fund, Record, SpendsReserved;
    RecordingKeepsAvailable(funded, s, Some(owned));
    FundKeepsPending(l, s.draft, s.inputs);
    RecordingLowersEffective(funded, s, owned);
  }

  /**
   * A whole payment: funding takes the selected total out of what is available and leaves the effective
   * balance alone; recording its broadcast leaves what is available alone and takes the fee and the
   * amounts paid to others out of the effective balance.
   */
  lemma PaymentAccounts(l: Ledger, outputs: seq<TxOutput>, q: Request, s: Signed, owned: set<string>)
    requires ValidRate(q.rate) && RequestFor(l, q) && OnePerPoint(l.coins) && Select(l.coins, outputs, q).Ok?
    requires s.inputs == Select(l.coins, outputs, q).value.coins && s.draft !in l.reserved.Values
    requires s.fee == Total(s.inputs) - Outgoing(s.outputs) && forall p :: p in l.pending ==> p.txid != s.txid
    ensures Accounted(l, s, owned)
  {
    SelectedCount(l, outputs, q);
    hide *;
    TakenAccounts(l, s, owned);
  }

  /** The same accounts for a payment that sends everything. */
  lemma SendAllAccounts(l: Ledger, script: bytes, q: Request, s: Signed, owned: set<string>)
    requires ValidRate(q.rate) && RequestFor(l, q) && OnePerPoint(l.coins) && SelectAll(l.coins, script, q).Ok?
    requires s.inputs == SelectAll(l.coins, script, q).value.coins && s.draft !in l.reserved.Values
    requires s.fee == Total(s.inputs) - Outgoing(s.outputs) && forall p :: p in l.pending ==> p.txid != s.txid
    ensures Accounted(l, s, owned)
  {
    SendAllCounts(l, script, q);
    hide *;
    TakenAccounts(l, s, owned);
  }

  lemma FundKeepsPending(l: Ledger, draft: string, selected: seq<Coin>)
    ensures Fund(l, draft, selected).pending == l.pending
  {
  }

  lemma FundedSpendsReserved(l: Ledger, s: Signed)
    requires s.draft !in l.reserved.Values
    ensures SpendsReserved(Fund(l, s.draft, s.inputs), s)
  {
    forall p | p in l.reserved ensures l.reserved[p] != s.draft {
      assert l.reserved[p] in l.reserved.Values;
    }
  }

  // ----- The same sections as in the workflow -----

  function PendingIds(pending: seq<Pending>): set<bytes> {
    set p | p in pending :: p.txid
  }

  /** The ledger and the cache of the workflow model are two views of one cache entry. */
  predicate Views(l: Ledger, f: HdProtocol.Files) {
    && f.cache.Some?
    && var c := f.cache.value; l.reserved == c.reserved && l.spent == c.spent && PendingIds(l.pending) == c.pending
  }

  lemma {:induction false} WithoutTxidIds(pending: seq<Pending>, txid: bytes)
    ensures PendingIds(WithoutTxid(pending, txid)) == PendingIds(pending) - {txid}
  {
    if pending != [] {
      var front, last := pending[..|pending| - 1], pending[|pending| - 1];
      assert pending == front + [last];
      WithoutTxidIds(front, txid);
      PendingIdsAppend(front, last);
      PendingIdsAppend(WithoutTxid(front, txid), last);
    }
  }

  lemma PendingIdsAppend(pending: seq<Pending>, p: Pending)
    ensures PendingIds(pending + [p]) == PendingIds(pending) + {p.txid}
  {
  }

  /** Funding, cancelling and recording change the ledger as the workflow's lock sections change the cache. */
  lemma LedgerFollowsWorkflow(l: Ledger, f: HdProtocol.Files, draft: string, kind: AddressType, selected: seq<Coin>,
      s: Signed, d: Funded, owned: Option<set<string>>)
    requires Views(l, f) && d.draft == s.draft && d.inputs == Points(s.inputs)
    ensures var r := HdProtocol.Fund(f, draft, kind, Points(selected)); r.Ok? ==> Views(Fund(l, draft, selected), r.value)
    ensures Views(Cancel(l, draft), HdProtocol.Release(f, draft))
    ensures var r := HdProtocol.RecordBroadcast(f, d, s.txid); r.Ok? && Views(Record(l, s, owned), r.value)
  {
    WithoutTxidIds(l.pending, s.txid);
    var delta := if owned.Some? then Some(Summary(s, owned.value).0) else None;
    PendingIdsAppend(WithoutTxid(l.pending, s.txid), Pending(s.txid, delta, false));
    hide PendingIds, Summary, WithoutTxid, Points;
  }

  // ----- The cache entry in place -----

  class CacheEntry {
    var chain: Option<(nat, nat)>
    var coins: seq<Coin>
    var reserved: map<Outpoint, string>
    var spent: map<Outpoint, bytes>
    var pending: seq<Pending>
    var balance: Balance

    function Contents(): Ledger
      reads this
    {
      Ledger(chain, coins, reserved, spent, pending)
    }

    constructor (l: Ledger)
      ensures Contents() == l && balance == BalanceOf(l)
    {
      chain, coins, reserved, spent, pending := l.chain, l.coins, l.reserved, l.spent, l.pending;
      balance := BalanceOf(l);
    }

    /** The writing part of `record_successful_broadcast`, ending with a fresh balance. */
    method RecordBroadcast(s: Signed, owned: Option<set<string>>)
      modifies this
      ensures Contents() == Record(old(Contents()), s, owned) && balance == BalanceOf(Contents())
    {
      reserved := Unreserved(reserved, s.draft);
      var kept := [];
      for i := 0 to |pending|
        invariant kept == WithoutTxid(pending[..i], s.txid)
        invariant unchanged(`chain, `coins, `spent, `pending) && reserved == Cancel(old(Contents()), s.draft).reserved
      {
        assert pending[..i + 1][..i] == pending[..i];
        if pending[i].txid != s.txid {
          kept := kept + [pending[i]];
        }
      }
      assert pending[..|pending|] == pending;
      pending := kept + [Pending(s.txid, if owned.Some? then Some(Summary(s, owned.value).0) else None, false)];
      SpendInputs(s);
      balance := CalculateBalance(Contents());
    }

    method SpendInputs(s: Signed)
      modifies this`spent
      ensures spent == old(spent) + SpentBy(Points(s.inputs), s.txid)
    {
      assert Points(s.inputs[..0]) == {} && spent + SpentBy({}, s.txid) == spent;
      hide SpentBy, Points;
      for i := 0 to |s.inputs|
        invariant spent == old(spent) + SpentBy(Points(s.inputs[..i]), s.txid)
      {
        assert s.inputs[..i + 1] == s.inputs[..i] + [s.inputs[i]];
        PointsAppend(s.inputs[..i], s.inputs[i]);
        SpentByOneMore(old(spent), Points(s.inputs[..i]), s.inputs[i].point, s.txid);
        spent := spent[s.inputs[i].point := s.txid];
      }
      assert s.inputs[..|s.inputs|] == s.inputs;
    }
  }
}
