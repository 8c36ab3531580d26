/**
 * What the single-key selector chooses, for every key form and destination: which requests it takes, which
 * coins it spends, and that it stops at the first choice that pays for itself.
 */
module SingleKeyChoice {
  import opened Wrappers
  import opened Bytes
  import opened Transactions
  import opened FeeEstimate
  import opened Coins
  import opened CoinSelection
  import opened SingleKeySelection

  /** A coin that may be spent: of the key form, confirmed and deep enough, and blocked by no wallet. */
  predicate MaySpend(c: KeyCoin, k: KeyRequest) {
    c.kind == Spent(k.form) && c.confirmed && c.confirmations >= k.minConfirmations && c.point !in k.unavailable
  }

  lemma {:induction false} SpendablesExactly(utxos: seq<KeyCoin>, k: KeyRequest, p: Outpoint, value: int)
    ensures
      (exists c :: c in Spendables(utxos, k) && c.point == p && c.value == value)
      <==> exists u :: u in utxos && MaySpend(u, k) && u.point == p && u.value == value
  {
    if utxos != [] {
      var rest := utxos[1..];
      assert utxos == [utxos[0]] + rest;
      SpendablesExactly(rest, k, p, value);
      if u :| u in utxos && MaySpend(u, k) && u.point == p && u.value == value {
        if u == utxos[0] {
          assert View(u) in Spendables(utxos, k);
        } else {
          assert u in rest;
          var c :| c in Spendables(rest, k) && c.point == p && c.value == value;
          assert c in Spendables(utxos, k);
        }
      }
      if c :| c in Spendables(utxos, k) && c.point == p && c.value == value {
        if c in Spendables(rest, k) {
          var u :| u in rest && MaySpend(u, k) && u.point == p && u.value == value;
          assert u in utxos;
        } else {
          assert utxos[0] in utxos && MaySpend(utxos[0], k);
        }
      }
    }
  }

  predicate WellFormed(u: KeyCoin) {
    |u.point.txid| == 32 && u.point.vout <= 0xFFFF_FFFF && 1 <= u.value <= MAX_MONEY && u.confirmations <= MAX_MONEY
  }

  /** A cache is refused for a malformed coin, a repeated outpoint or nothing to spend; a request for limits out of range. */
  lemma KeyRefusalExactly(utxos: seq<KeyCoin>, k: KeyRequest)
    ensures
      KeyRefusal(utxos, k) == None <==>
        && 1 <= k.minConfirmations <= MAX_MONEY && (k.maxFee.Some? ==> 0 <= k.maxFee.value <= MAX_MONEY)
        && (forall u :: u in utxos ==> WellFormed(u))
        && (forall i, j :: 0 <= i < j < |utxos| ==> utxos[i].point != utxos[j].point)
        && exists u :: u in utxos && MaySpend(u, k)
  {
    if u :| u in utxos && MaySpend(u, k) {
      SpendablesExactly(utxos, k, u.point, u.value);
    }
    if Spendables(utxos, k) != [] {
      var c := Spendables(utxos, k)[0];
      SpendablesExactly(utxos, k, c.point, c.value);
    }
    hide Spendables;
  }

  /** The dust limit of every script of a known kind, and of no other. */
  lemma DustTable(script: bytes, hash: bytes)
    ensures |hash| == 20 ==>
      && DustOf([0x76, 0xA9, 20] + hash + [0x88, 0xAC]) == Some(546) && DustOf([0xA9, 20] + hash + [0x87]) == Some(540)
      && DustOf([0, 20] + hash) == Some(294)
    ensures |hash| == 32 ==> DustOf([0, 32] + hash) == Some(330) && DustOf([0x51, 32] + hash) == Some(330)
    ensures DustOf(script).Some? ==> exists h: bytes ::
      || (|h| == 20 && script in {[0x76, 0xA9, 20] + h + [0x88, 0xAC], [0xA9, 20] + h + [0x87], [0, 20] + h})
      || (|h| == 32 && script in {[0, 32] + h, [0x51, 32] + h})
  {
    if |hash| == 20 {
      var a, b := [0x76, 0xA9, 20] + hash + [0x88, 0xAC], [0xA9, 20] + hash + [0x87];
      assert a[..3] == [0x76, 0xA9, 20] && a[23..] == [0x88, 0xAC];
      assert b[..2] == [0xA9, 20] && b[22..] == [0x87];
    }
    if |script| == 25 {
      assert script == script[..3] + script[3..23] + script[23..];
    } else if |script| == 23 {
      assert script == script[..2] + script[2..22] + script[22..];
    } else if |script| >= 2 {
      assert script == script[..2] + script[2..];
    }
  }

  /** The size of a transaction with these inputs, paying the amount, with or without change. */
  function Sized(count: nat, amount: nat, change: bool, k: KeyRequest): nat {
    SingleKeyEstimate(count, k.form, [TxOutput(amount, k.destination)] + if change then [TxOutput(0, k.source)] else [])
  }

  /** The fee limits of one pass: sizes are estimated for at most 10,000 inputs and 400,000 bytes. */
  predicate Computable(count: nat, vsize: nat) {
    1 <= count <= 10_000 && 1 <= vsize <= 400_000
  }

  /**
   * One pass over the coins chosen so far: change if it is worth at least its dust limit after the fee of
   * the size with change; else everything over the amount is the fee, if that pays for the size without.
   */
  lemma TryExactly(count: nat, total: int, amount: nat, k: KeyRequest)
    requires 0 < k.rate.den && DustOf(k.source).Some?
    requires Computable(count, Sized(count, amount, true, k)) && Computable(count, Sized(count, amount, false, k))
    ensures
      var with, without := Sized(count, amount, true, k), Sized(count, amount, false, k);
      var dust := DustOf(k.source).value;
      Try(count, total, amount, k) == Ok(
        if total >= amount + Fee(with, k.rate) + dust then Some(Plan(total - amount - Fee(with, k.rate), Fee(with, k.rate), with))
        else if total >= amount + Fee(without, k.rate) then Some(Plan(0, total - amount, without))
        else None)
  {
    hide Fee, SingleKeyEstimate, DustOf;
    assert [TxOutput(amount, k.destination), TxOutput(0, k.source)] == [TxOutput(amount, k.destination)] + [TxOutput(0, k.source)];
    assert [TxOutput(amount, k.destination), TxOutput(0, k.source)][..1] == [TxOutput(amount, k.destination)] + [];
  }

  predicate Passed(candidates: seq<Coin>, j: nat, amount: nat, k: KeyRequest)
    requires j <= |candidates| && 0 < k.rate.den
  {
    Try(j, Total(candidates[..j]), amount, k) == Ok(None)
  }

  lemma {:induction false} TakeMeans(candidates: seq<Coin>, m: nat, amount: nat, k: KeyRequest)
    requires 0 < k.rate.den && m <= |candidates| && forall j :: 1 <= j <= m ==> Passed(candidates, j, amount, k)
    ensures
      var r := Take(candidates[..m], candidates[m..], amount, k);
      if r.Ok? then exists n: nat :: StopsAt(candidates, n, amount, k, r.value.0, r.value.1)
      else (r == Err(NotEnough) && forall j :: 1 <= j <= |candidates| ==> Passed(candidates, j, amount, k))
           || exists n: nat :: FailsAt(candidates, n, amount, k, r.error)
    decreases |candidates| - m
  {
    hide Try, Total;
    if m < |candidates| {
      assert candidates[m..][0] == candidates[m] && candidates[m..][1..] == candidates[m + 1..];
      assert candidates[..m] + [candidates[m]] == candidates[..m + 1];
      var plan := Try(m + 1, Total(candidates[..m + 1]), amount, k);
      if plan == Ok(None) {
        TakeMeans(candidates, m + 1, amount, k);
      } else if plan.Ok? {
        assert StopsAt(candidates, m + 1, amount, k, candidates[..m + 1], plan.value.value);
      } else {
        assert FailsAt(candidates, m + 1, amount, k, plan.error);
      }
    } else {
      assert candidates[m..] == [];
    }
  }

  /** The first `n` candidates allow this plan, and no fewer allow any. */
  predicate StopsAt(candidates: seq<Coin>, n: nat, amount: nat, k: KeyRequest, coins: seq<Coin>, plan: Plan)
    requires 0 < k.rate.den
  {
    && 1 <= n <= |candidates| && coins == candidates[..n] && Try(n, Total(coins), amount, k) == Ok(Some(plan))
    && forall j :: 1 <= j < n ==> Passed(candidates, j, amount, k)
  }

  predicate FailsAt(candidates: seq<Coin>, n: nat, amount: nat, k: KeyRequest, error: KeyError)
    requires 0 < k.rate.den
  {
    && 1 <= n <= |candidates| && Try(n, Total(candidates[..n]), amount, k) == Err(error)
    && forall j :: 1 <= j < n ==> Passed(candidates, j, amount, k)
  }

  lemma {:induction false} TakeStops(candidates: seq<Coin>, m: nat, n: nat, amount: nat, k: KeyRequest, coins: seq<Coin>, plan: Plan)
    requires 0 < k.rate.den && m < n && StopsAt(candidates, n, amount, k, coins, plan)
    ensures Take(candidates[..m], candidates[m..], amount, k) == Ok((coins, plan))
    decreases n - m
  {
    hide Try, Total;
    assert candidates[m..][0] == candidates[m] && candidates[m..][1..] == candidates[m + 1..];
    assert candidates[..m] + [candidates[m]] == candidates[..m + 1];
    if m + 1 < n {
      assert Passed(candidates, m + 1, amount, k);
      TakeStops(candidates, m + 1, n, amount, k, coins, plan);
    }
  }

  /** The loop answers with the shortest prefix of the candidates that pays for itself, if all passes before it went through. */
  lemma TakeExactly(candidates: seq<Coin>, amount: nat, k: KeyRequest, coins: seq<Coin>, plan: Plan)
    requires 0 < k.rate.den
    ensures Take([], candidates, amount, k) == Ok((coins, plan)) <==> exists n: nat :: StopsAt(candidates, n, amount, k, coins, plan)
  {
    TakeMeans(candidates, 0, amount, k);
    assert candidates[..0] == [] && candidates[0..] == candidates;
    hide Take;
    if n: nat :| StopsAt(candidates, n, amount, k, coins, plan) {
      TakeStops(candidates, 0, n, amount, k, coins, plan);
    }
  }

  /** What both modes demand of the result: fee limit, money range, a destination above dust, standard weight. */
  predicate Acceptable(s: Selection, k: KeyRequest) {
    && (k.maxFee.Some? ==> s.plan.fee <= k.maxFee.value) && 1 <= s.total <= MAX_MONEY
    && s.target > 0 && DustOf(k.destination).Some? && s.target >= DustOf(k.destination).value && s.plan.vsize * 4 <= 400_000
  }

  lemma SettleExactly(coins: seq<Coin>, plan: Plan, destination: int, k: KeyRequest, s: Selection)
    ensures
      Settle(coins, plan, destination, k) == Ok(s) <==>
        Acceptable(s, k) && s.coins == coins && s.plan == plan && s.total == Total(coins) && s.target == destination
  {
    hide Total, DustOf;
  }

  ghost predicate AmountChosen(utxos: seq<KeyCoin>, k: KeyRequest, amount: int, s: Selection)
    requires ValidRate(k.rate)
  {
    && KeyRefusal(utxos, k) == None && 1 <= amount <= MAX_MONEY && Acceptable(s, k)
    && s.target == amount && s.total == Total(s.coins)
    && exists n: nat :: StopsAt(Sorted(Spendables(utxos, k)), n, amount, k, s.coins, s.plan)
  }

  lemma SelectAmountSound(utxos: seq<KeyCoin>, k: KeyRequest, amount: int, s: Selection)
    requires ValidRate(k.rate) && SelectAmount(utxos, k, amount) == Ok(s)
    ensures AmountChosen(utxos, k, amount, s)
  {
    hide Take, StopsAt, Total, KeyRefusal, Spendables, Sorted, DustOf, Settle;
    var candidates := Sorted(Spendables(utxos, k));
    var (coins, plan) := Take([], candidates, amount, k).value;
    SettleExactly(coins, plan, amount, k, s);
    TakeExactly(candidates, amount, k, s.coins, s.plan);
  }

  lemma SelectAmountComplete(utxos: seq<KeyCoin>, k: KeyRequest, amount: int, s: Selection)
    requires ValidRate(k.rate) && AmountChosen(utxos, k, amount, s)
    ensures SelectAmount(utxos, k, amount) == Ok(s)
  {
    hide Take, StopsAt, Total, KeyRefusal, Spendables, Sorted, DustOf, Settle;
    TakeExactly(Sorted(Spendables(utxos, k)), amount, k, s.coins, s.plan);
    SettleExactly(s.coins, s.plan, amount, k, s);
  }

  /**
   * An amount is selected exactly when the request and the amount are in range and above dust, some prefix
   * of the candidates in order pays for itself before any pass fails, and the shortest such prefix gives an
   * acceptable result; it is then what is selected.
   */
  lemma SelectAmountExactly(utxos: seq<KeyCoin>, k: KeyRequest, amount: int, s: Selection)
    requires ValidRate(k.rate)
    ensures SelectAmount(utxos, k, amount) == Ok(s) <==> AmountChosen(utxos, k, amount, s)
  {
    hide SelectAmount, AmountChosen;
    if SelectAmount(utxos, k, amount) == Ok(s) {
      SelectAmountSound(utxos, k, amount, s);
    }
    if AmountChosen(utxos, k, amount, s) {
      SelectAmountComplete(utxos, k, amount, s);
    }
  }

  /** Sending everything takes all candidates and is let through exactly when what the fee leaves is acceptable. */
  lemma SelectEverythingExactly(utxos: seq<KeyCoin>, k: KeyRequest, s: Selection)
    requires ValidRate(k.rate)
    ensures
      SelectEverything(utxos, k) == Ok(s) <==>
        && KeyRefusal(utxos, k) == None && Acceptable(s, k)
        && s.coins == Sorted(Spendables(utxos, k)) && s.total == Total(s.coins)
        && s.plan.change == 0 && s.plan.vsize == Sized(|s.coins|, 0, false, k) && Computable(|s.coins|, s.plan.vsize)
        && s.plan.fee == Fee(s.plan.vsize, k.rate) && s.target == s.total - s.plan.fee
  {
    hide Total, DustOf, KeyRefusal, Spendables, Sorted, Fee, SingleKeyEstimate;
    assert [TxOutput(0, k.destination)] + [] == [TxOutput(0, k.destination)];
  }

  // ----- Why a request is refused -----

  /** The first failing check of the request and the cache decides the error. */
  lemma KeyRefusalInOrder(utxos: seq<KeyCoin>, k: KeyRequest)
    ensures
      var r := KeyRefusal(utxos, k);
      if !(1 <= k.minConfirmations <= MAX_MONEY) || (k.maxFee.Some? && !(0 <= k.maxFee.value <= MAX_MONEY)) then r == Some(OutOfRange)
      else if exists u :: u in utxos && !WellFormed(u) then r == Some(InvalidCoin)
      else if exists i, j :: 0 <= i < j < |utxos| && utxos[i].point == utxos[j].point then r == Some(DuplicateCoins)
      else if !exists u :: u in utxos && MaySpend(u, k) then r == Some(NoCoins)
      else r == None
  {
    KeyRefusalExactly(utxos, k);
    hide Spendables, MaySpend;
  }

  /** Then the amount, then the first pass that fails, then the first demand on the result that is not met. */
  lemma SelectAmountInOrder(utxos: seq<KeyCoin>, k: KeyRequest, amount: int)
    requires ValidRate(k.rate)
    ensures
      var r, refusal, dust := SelectAmount(utxos, k, amount), KeyRefusal(utxos, k), DustOf(k.destination);
      if refusal.Some? then r == Err(refusal.value)
      else if !(1 <= amount <= MAX_MONEY) then r == Err(OutOfRange)
      else if dust.None? then r == Err(UnknownScript)
      else if amount < dust.value then r == Err(Dusty)
      else
        var taken := Take([], Sorted(Spendables(utxos, k)), amount, k);
        if taken.Err? then r == Err(taken.error) else r.Err? ==> SettleRefuses(taken.value.0, taken.value.1, amount, k, r.error)
  {
    hide Take, KeyRefusal, Spendables, Sorted, DustOf, Total;
  }

  predicate SettleRefuses(coins: seq<Coin>, plan: Plan, destination: int, k: KeyRequest, error: KeyError) {
    var dust := DustOf(k.destination);
    if k.maxFee.Some? && plan.fee > k.maxFee.value then error == FeeTooHigh
    else if !(1 <= Total(coins) <= MAX_MONEY) then error == OutOfRange
    else if destination <= 0 then error == NotEnough
    else if dust.None? then error == UnknownScript
    else if destination < dust.value then error == Dusty
    else plan.vsize * 4 > 400_000 && error == TooLarge
  }

  /** A pass fails when its sizes cannot be computed, or when the kind of its own script is unknown. */
  lemma TryFails(count: nat, total: int, amount: nat, k: KeyRequest)
    requires 0 < k.rate.den
    ensures
      var r := Try(count, total, amount, k);
      if !Computable(count, Sized(count, amount, true, k)) then r == Err(OutOfRange)
      else if DustOf(k.source).None? then r == Err(UnknownScript)
      else r.Err? ==> r.error == OutOfRange && !Computable(count, Sized(count, amount, false, k))
  {
    hide Fee, SingleKeyEstimate, DustOf;
    assert [TxOutput(amount, k.destination), TxOutput(0, k.source)] == [TxOutput(amount, k.destination)] + [TxOutput(0, k.source)];
    assert [TxOutput(amount, k.destination), TxOutput(0, k.source)][..1] == [TxOutput(amount, k.destination)] + [];
  }

  lemma SelectEverythingInOrder(utxos: seq<KeyCoin>, k: KeyRequest)
    requires ValidRate(k.rate)
    ensures
      var r, refusal := SelectEverything(utxos, k), KeyRefusal(utxos, k);
      var coins := Sorted(Spendables(utxos, k));
      var vsize := Sized(|coins|, 0, false, k);
      if refusal.Some? then r == Err(refusal.value)
      else if !Computable(|coins|, vsize) then r == Err(OutOfRange)
      else r.Err? ==> SettleRefuses(coins, Plan(0, Fee(vsize, k.rate), vsize), Total(coins) - Fee(vsize, k.rate), k, r.error)
  {
    hide Total, DustOf, KeyRefusal, Spendables, Sorted, Fee, SingleKeyEstimate;
    assert [TxOutput(0, k.destination)] + [] == [TxOutput(0, k.destination)];
  }
}
