/** The two files of the single-key wallet as the lock sections update them, step by step. */
module SingleKeyStore {
  import opened Wrappers
  import opened Bytes
  import opened Transactions
  import opened SingleKeyProtocol

  class Store {
    var wallets: map<string, string>
    var cache: map<string, Entry>

    function Contents(): Files
      reads this
    {
      Files(wallets, cache)
    }

    /** The section did what `spec` says: the new files, or an error and nothing written. */
    ghost predicate Wrote(r: Option<ProtocolError>, spec: Result<Files, ProtocolError>, before: Files)
      reads this
    {
      match spec
      case Ok(f) => r == None && Contents() == f
      case Err(e) => r == Some(e) && Contents() == before
    }

    constructor ()
      ensures Contents() == Files(map[], map[])
    {
      wallets, cache := map[], map[];
    }

    method CreateWallet(name: string, walletId: string) returns (r: Option<ProtocolError>)
      modifies this
      ensures Wrote(r, Create(old(Contents()), name, walletId), old(Contents()))
    {
      if name in wallets {
        return Some(WalletExists);
      }
      wallets := wallets[name := walletId];
      r := None;
    }

    method ReserveInputs(name: string, walletId: string, operation: string, selected: seq<Outpoint>)
      returns (r: Option<ProtocolError>)
      modifies this
      ensures Wrote(r, Reserve(old(Contents()), name, walletId, operation, selected), old(Contents()))
    {
      if name !in cache || cache[name].walletId != walletId {
        return Some(NoMatchingCache);
      }
      var entry := cache[name];
      var unavailable := Unavailable(cache);
      if exists p :: p in selected && (p !in entry.utxos || p in unavailable) {
        return Some(NotEligible);
      }
      var reservations := entry.reservations;
      for i := 0 to |selected|
        invariant reservations == entry.reservations + map p | p in selected[..i] :: Reservation(operation, false)
      {
        reservations := reservations[selected[i] := Reservation(operation, false)];
        assert selected[..i + 1] == selected[..i] + [selected[i]];
      }
      assert selected[..|selected|] == selected;
      cache := cache[name := entry.(reservations := reservations)];
      r := None;
    }

    method ReleaseOperation(name: string, operation: string) returns (r: Option<ProtocolError>)
      modifies this
      ensures Wrote(r, Release(old(Contents()), name, operation), old(Contents()))
    {
      if name in cache {
        var entry := cache[name];
        cache := cache[name := entry.(reservations := WithoutOperation(entry.reservations, operation))];
      }
      r := None;
    }

    method CancelDraft(name: string, walletId: string, operation: string) returns (r: Option<ProtocolError>)
      modifies this
      ensures Wrote(r, Cancel(old(Contents()), name, walletId, operation), old(Contents()))
    {
      if name !in cache || cache[name].walletId != walletId {
        return Some(NoMatchingCache);
      }
      var entry := cache[name];
      var matching := map p | p in entry.reservations && entry.reservations[p].operation == operation :: entry.reservations[p];
      if matching == map[] {
        return Some(NoSuchDraft);
      }
      if exists p :: p in matching && matching[p].attempted {
        return Some(BroadcastAttempted);
      }
      cache := cache[name := entry.(reservations := WithoutOperation(entry.reservations, operation))];
      r := None;
    }

    /** Checks every input in order, then marks them and stores the document, all before the POST. */
    method PersistIntent(d: Document) returns (r: Option<ProtocolError>)
      modifies this
      ensures Wrote(r, Intend(old(Contents()), d), old(Contents()))
    {
      if d.wallet !in cache || cache[d.wallet].walletId != d.walletId {
        return Some(NoMatchingCache);
      }
      var entry := cache[d.wallet];
      for i := 0 to |d.inputs|
        invariant Refusal(entry, d, d.inputs) == Refusal(entry, d, d.inputs[i..])
      {
        var item := d.inputs[i];
        assert d.inputs[i..][0] == item && d.inputs[i..][1..] == d.inputs[i + 1..];
        if !StillReserved(entry, d, item) {
          return Some(NotReserved);
        }
        if !SameAttempt(entry, d, item.point) {
          return Some(AlreadyAttempted);
        }
      }
      RefusalAccepts(entry, d, d.inputs);
      var reservations, spent := MarkAttempted(entry, d);
      assert entry.(reservations := reservations, spent := spent, pending := entry.pending[d.txid := Pending(d.operation, BroadcastUnknown, d)])
          == Intended(entry, d);
      cache := cache[d.wallet := entry.(
        reservations := reservations, spent := spent,
        pending := entry.pending[d.txid := Pending(d.operation, BroadcastUnknown, d)])];
      r := None;
    }

    method SettleBroadcast(d: Document) returns (r: Option<ProtocolError>)
      modifies this
      ensures Wrote(r, Settle(old(Contents()), d), old(Contents()))
    {
      if d.wallet !in cache || cache[d.wallet].walletId != d.walletId {
        return Some(NoMatchingCache);
      }
      var entry := cache[d.wallet];
      if d.txid !in entry.pending {
        return Some(NoPendingTransaction);
      }
      entry := entry.(pending := entry.pending[d.txid := entry.pending[d.txid].(status := Broadcast)]);
      entry := entry.(reservations := WithoutOperation(entry.reservations, d.operation));
      cache := cache[d.wallet := entry];
      r := None;
    }

    /** Both files are locked; the fetched history is folded in one transaction at a time. */
    method MergeSnapshot(name: string, walletId: string, s: Snapshot) returns (r: Option<ProtocolError>)
      modifies this
      ensures Wrote(r, Merge(old(Contents()), name, walletId, s), old(Contents()))
    {
      if name !in wallets {
        return Some(WalletMissing);
      }
      if wallets[name] != walletId {
        return Some(WalletChanged);
      }
      var entry := Entry(walletId, s.utxos, map[], map[], map[]);
      if name in cache && cache[name].walletId == walletId {
        var previous := cache[name];
        var reservations, pending := FoldHistory(previous, s.history);
        entry := entry.(reservations := reservations, pending := pending, spent := StillSpent(previous, s));
      }
      cache := cache[name := entry];
      r := None;
    }

    /** Two writes; the process may die between them (`torn`). */
    method RemoveWallet(name: string, torn: bool) returns (r: Option<ProtocolError>)
      modifies this
      ensures Wrote(r, Remove(old(Contents()), name, torn), old(Contents()))
    {
      if name !in wallets {
        return Some(WalletMissing);
      }
      if name in cache && (cache[name].reservations != map[] || cache[name].spent != map[]) {
        assert Blocked(cache[name]) != {} by {
          if cache[name].reservations != map[] {
            var p :| p in cache[name].reservations;
            assert p in Blocked(cache[name]);
          } else {
            var p :| p in cache[name].spent;
            assert p in Blocked(cache[name]);
          }
        }
        return Some(WalletInUse);
      }
      wallets := wallets - {name};
      if !torn {
        cache := cache - {name};
      }
      r := None;
    }
  }

  lemma {:induction false} RefusalAccepts(e: Entry, d: Document, inputs: seq<Prevout>)
    requires Refusal(e, d, inputs) == None
    ensures forall v :: v in inputs ==> v.point in e.reservations
  {
    if inputs != [] {
      RefusalAccepts(e, d, inputs[1..]);
      assert inputs == [inputs[0]] + inputs[1..];
    }
  }

  lemma MarkOneMore(d: Document, reservations: map<Outpoint, Reservation>, spent: map<Outpoint, Spent>, points: set<Outpoint>, p: Outpoint)
    requires p in reservations
    ensures Marked(reservations, points + {p}) == Marked(reservations, points)[p := reservations[p].(attempted := true)]
    ensures spent + SpentFor(d, points + {p}) == (spent + SpentFor(d, points))[p := Spent(d.txid, d.operation)]
  {
  }

  /** The marking loop of `broadcast`. */
  method MarkAttempted(e: Entry, d: Document) returns (reservations: map<Outpoint, Reservation>, spent: map<Outpoint, Spent>)
    requires forall v :: v in d.inputs ==> v.point in e.reservations
    ensures reservations == Intended(e, d).reservations && spent == Intended(e, d).spent
  {
    reservations, spent := e.reservations, e.spent;
    ghost var marked := {};
    assert Marked(e.reservations, {}) == e.reservations && e.spent + SpentFor(d, {}) == e.spent;
    for i := 0 to |d.inputs|
      invariant marked == PointsOf(d.inputs[..i])
      invariant reservations == Marked(e.reservations, marked) && spent == e.spent + SpentFor(d, marked)
    {
      var point := d.inputs[i].point;
      MarkOneMore(d, e.reservations, e.spent, marked, point);
      assert d.inputs[..i + 1] == d.inputs[..i] + [d.inputs[i]];
      hide Marked, SpentFor;
      assert Marked(e.reservations, marked).Keys == e.reservations.Keys by {
        MarkedKeys(e.reservations, marked);
      }
      MarkedValue(e.reservations, marked, point);
      reservations := reservations[point := reservations[point].(attempted := true)];
      spent := spent[point := Spent(d.txid, d.operation)];
      marked := marked + {point};
    }
    assert d.inputs[..|d.inputs|] == d.inputs;
  }

  lemma MarkedKeys(reservations: map<Outpoint, Reservation>, points: set<Outpoint>)
    ensures Marked(reservations, points).Keys == reservations.Keys
  {
  }

  lemma MarkedValue(reservations: map<Outpoint, Reservation>, points: set<Outpoint>, p: Outpoint)
    requires p in reservations
    ensures p in Marked(reservations, points) && Marked(reservations, points)[p].(attempted := true) == reservations[p].(attempted := true)
  {
  }

  lemma FoldOneMore(e: Entry, done: map<bytes, bool>, t: bytes, confirmed: bool)
    requires t !in done
    ensures var pending := Observed(e.pending, done);
      Observed(e.pending, done[t := confirmed]) ==
        (if t in pending then pending[t := pending[t].(status := if confirmed then Confirmed else InMempool)] else pending)
    ensures Unresolved(e, done[t := confirmed]) ==
        (if t in e.pending then WithoutOperation(Unresolved(e, done), e.pending[t].operation) else Unresolved(e, done))
    ensures t in Observed(e.pending, done) <==> t in e.pending
    ensures t in e.pending ==> Observed(e.pending, done)[t].operation == e.pending[t].operation
  {
    var more := done[t := confirmed];
    forall p | p in e.reservations
      ensures p in Unresolved(e, more) <==>
              p in Unresolved(e, done) && !(t in e.pending && e.pending[t].operation == e.reservations[p].operation)
    {
      if p !in Unresolved(e, done) {
        var u :| u in done && u in e.pending && e.pending[u].operation == e.reservations[p].operation;
        assert u in more;
      } else if t in e.pending && e.pending[t].operation == e.reservations[p].operation {
        assert t in more;
      }
    }
  }

  /** The loop of `sync_wallet` over the fetched history; its order does not matter. */
  method FoldHistory(e: Entry, history: map<bytes, bool>) returns (reservations: map<Outpoint, Reservation>, pending: map<bytes, Pending>)
    ensures reservations == Unresolved(e, history) && pending == Observed(e.pending, history)
  {
    reservations, pending := e.reservations, e.pending;
    var left := history.Keys;
    ghost var done := map[];
    assert Observed(e.pending, done) == pending && Unresolved(e, done) == reservations;
    hide Observed, Unresolved, WithoutOperation;
    while left != {}
      invariant left + done.Keys == history.Keys && left !! done.Keys
      invariant forall t :: t in done ==> t in history && done[t] == history[t]
      invariant pending == Observed(e.pending, done) && reservations == Unresolved(e, done)
      decreases left
    {
      var identifier :| identifier in left;
      left := left - {identifier};
      FoldOneMore(e, done, identifier, history[identifier]);
      done := done[identifier := history[identifier]];
      if identifier in pending {
        var item := pending[identifier];
        pending := pending[identifier := item.(status := if history[identifier] then Confirmed else InMempool)];
        reservations := WithoutOperation(reservations, item.operation);
      }
    }
    assert done == history;
  }
}
