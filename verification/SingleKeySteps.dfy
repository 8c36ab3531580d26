/**
 * Each lock section of the single-key wallet described from outside: exactly when it goes through, and
 * what it leaves in every field of both files. Stated over the fields alone.
 */
module SingleKeySteps {
  import opened Wrappers
  import opened Bytes
  import opened Transactions
  import opened SingleKeyProtocol

  /** No wallet file entry and no other wallet's cache entry changes. */
  predicate OnlyEntry(f: Files, g: Files, name: string) {
    && g.wallets == f.wallets && name in g.cache && g.cache.Keys == f.cache.Keys + {name}
    && forall n :: n in f.cache && n != name ==> g.cache[n] == f.cache[n]
  }

  predicate Owns(f: Files, name: string, walletId: string) {
    name in f.cache && f.cache[name].walletId == walletId
  }

  /** Some wallet of the cache has reserved or pending-spent `p`. */
  predicate Taken(f: Files, p: Outpoint) {
    exists n :: n in f.cache && (p in f.cache[n].reservations || p in f.cache[n].spent)
  }

  /** Reserving goes through exactly when every coin asked for is cached and no wallet has taken it. */
  lemma ReserveExactly(f: Files, name: string, walletId: string, operation: string, selected: seq<Outpoint>)
    ensures
      var r := Reserve(f, name, walletId, operation, selected);
      && (r.Ok? <==> Owns(f, name, walletId) && forall p :: p in selected ==> p in f.cache[name].utxos && !Taken(f, p))
      && (r.Err? ==> r.error == if Owns(f, name, walletId) then NotEligible else NoMatchingCache)
      && (r.Ok? ==> OnlyEntry(f, r.value, name) && ReservedIn(f.cache[name], r.value.cache[name], operation, selected))
  {
    if Owns(f, name, walletId) {
      forall p | p in selected ensures p in Unavailable(f.cache) <==> Taken(f, p) {
        if Taken(f, p) {
          var n :| n in f.cache && (p in f.cache[n].reservations || p in f.cache[n].spent);
          assert p in Blocked(f.cache[n]);
        }
      }
    }
  }

  ghost predicate ReservedIn(e: Entry, e': Entry, operation: string, selected: seq<Outpoint>) {
    && e'.walletId == e.walletId && e'.utxos == e.utxos && e'.pending == e.pending && e'.spent == e.spent
    && (forall p :: p in e'.reservations <==> p in e.reservations || p in selected)
    && (forall p :: p in e'.reservations ==>
          e'.reservations[p] == if p in selected then Reservation(operation, false) else e.reservations[p])
  }

  /** Giving an operation's reservations back: exactly these go, and nothing else changes. */
  ghost predicate ReleasedIn(e: Entry, e': Entry, operation: string) {
    && e'.walletId == e.walletId && e'.utxos == e.utxos && e'.pending == e.pending && e'.spent == e.spent
    && (forall p :: p in e'.reservations <==> p in e.reservations && e.reservations[p].operation != operation)
    && (forall p :: p in e'.reservations ==> e'.reservations[p] == e.reservations[p])
  }

  lemma ReleaseExactly(f: Files, name: string, operation: string)
    ensures
      var r := Release(f, name, operation);
      && r.Ok? && (name !in f.cache ==> r.value == f)
      && (name in f.cache ==> OnlyEntry(f, r.value, name) && ReleasedIn(f.cache[name], r.value.cache[name], operation))
  {
  }

  /** A draft can be cancelled exactly when it has reservations and was never offered for broadcast. */
  lemma CancelExactly(f: Files, name: string, walletId: string, operation: string)
    ensures
      var r := Cancel(f, name, walletId, operation);
      var own := Owns(f, name, walletId);
      && (r == Err(NoMatchingCache) <==> !own)
      && (r == Err(NoSuchDraft) <==>
            own && forall p :: p in f.cache[name].reservations ==> f.cache[name].reservations[p].operation != operation)
      && (r == Err(BroadcastAttempted) <==>
            own && exists p :: p in f.cache[name].reservations && f.cache[name].reservations[p] == Reservation(operation, true))
      && (r.Ok? || r.error in {NoMatchingCache, NoSuchDraft, BroadcastAttempted})
      && (r.Ok? ==> OnlyEntry(f, r.value, name) && ReleasedIn(f.cache[name], r.value.cache[name], operation))
  {
    if Owns(f, name, walletId) {
      var e := f.cache[name];
      var matching := map p | p in e.reservations && e.reservations[p].operation == operation :: e.reservations[p];
      forall p | p in e.reservations && e.reservations[p] == Reservation(operation, true) ensures p in matching && matching[p].attempted {
      }
      if matching != map[] {
        var p :| p in matching;
        assert p in e.reservations && e.reservations[p].operation == operation;
      } else {
        forall p | p in e.reservations ensures e.reservations[p].operation != operation {
          assert p !in matching;
        }
      }
      if p :| p in matching && matching[p].attempted {
        assert e.reservations[p] == Reservation(operation, true);
      }
    }
  }

  /** The cached coin is still the one the document was signed for. */
  predicate SameCoin(cached: Utxo, signed: Utxo) {
    && cached.confirmed && cached.confirmations >= 1
    && cached.value == signed.value && cached.address == signed.address && cached.kind == signed.kind && cached.script == signed.script
  }

  /** No attempt was made on `p`, or one of the same transaction and bytes whose outcome is unknown. */
  predicate Retriable(e: Entry, d: Document, p: Outpoint) {
    p in e.spent ==>
      && e.spent[p].txid == d.txid && d.txid in e.pending
      && e.pending[d.txid].document.hex == d.hex && e.pending[d.txid].status == BroadcastUnknown
  }

  predicate MayBroadcast(e: Entry, d: Document, v: Prevout) {
    && v.point in e.utxos && SameCoin(e.utxos[v.point], v.utxo)
    && v.point in e.reservations && e.reservations[v.point].operation == d.operation
    && Retriable(e, d, v.point)
  }

  lemma {:induction false} RefusalMeans(e: Entry, d: Document, inputs: seq<Prevout>)
    ensures Refusal(e, d, inputs) == None <==> forall v :: v in inputs ==> MayBroadcast(e, d, v)
    ensures Refusal(e, d, inputs).Some? ==> exists k: nat :: RefusedAt(e, d, inputs, k, Refusal(e, d, inputs).value)
  {
    if inputs != [] {
      var rest := inputs[1..];
      assert inputs == [inputs[0]] + rest;
      assert StillReserved(e, d, inputs[0]) && SameAttempt(e, d, inputs[0].point) <==> MayBroadcast(e, d, inputs[0]);
      RefusalMeans(e, d, rest);
      if !MayBroadcast(e, d, inputs[0]) {
        assert RefusedAt(e, d, inputs, 0, Refusal(e, d, inputs).value);
      } else if Refusal(e, d, rest).Some? {
        var k: nat :| RefusedAt(e, d, rest, k, Refusal(e, d, rest).value);
        assert inputs[k + 1] == rest[k];
        forall i | 0 <= i < k + 1 ensures MayBroadcast(e, d, inputs[i]) {
          assert i > 0 ==> inputs[i] == rest[i - 1];
        }
        assert RefusedAt(e, d, inputs, k + 1, Refusal(e, d, inputs).value);
      }
    }
  }

  /** Input `k` is the first that may not be broadcast, and the error tells why. */
  predicate RefusedAt(e: Entry, d: Document, inputs: seq<Prevout>, k: nat, error: ProtocolError) {
    && k < |inputs| && !MayBroadcast(e, d, inputs[k]) && (forall i :: 0 <= i < k ==> MayBroadcast(e, d, inputs[i]))
    && error == if Retriable(e, d, inputs[k].point) || !Signed(e, d, inputs[k]) then NotReserved else AlreadyAttempted
  }

  predicate Signed(e: Entry, d: Document, v: Prevout) {
    && v.point in e.utxos && SameCoin(e.utxos[v.point], v.utxo)
    && v.point in e.reservations && e.reservations[v.point].operation == d.operation
  }

  /**
   * An intent is persisted, and so the document POSTed, exactly when every input is still cached as the
   * confirmed coin it was signed for, is still reserved by this operation, and has seen no attempt but
   * one of these very bytes whose outcome is unknown. The first input that fails decides the error.
   */
  lemma IntendExactly(f: Files, d: Document)
    ensures
      var r := Intend(f, d);
      var own := Owns(f, d.wallet, d.walletId);
      && (r.Ok? <==> own && forall v :: v in d.inputs ==> MayBroadcast(f.cache[d.wallet], d, v))
      && (!own ==> r == Err(NoMatchingCache))
      && (own && r.Err? ==> exists k: nat :: RefusedAt(f.cache[d.wallet], d, d.inputs, k, r.error))
      && (r.Ok? ==> OnlyEntry(f, r.value, d.wallet) && IntendedIn(f.cache[d.wallet], r.value.cache[d.wallet], d))
  {
    if Owns(f, d.wallet, d.walletId) {
      RefusalMeans(f.cache[d.wallet], d, d.inputs);
      hide Refusal;
      if Intend(f, d).Ok? {
        IntendLeaves(f.cache[d.wallet], d);
        hide Intended;
      }
    }
  }

  predicate Spends(d: Document, p: Outpoint) {
    exists v :: v in d.inputs && v.point == p
  }

  /** Every input is flagged attempted and pending-spent by the document, which is stored; the rest stays. */
  ghost predicate IntendedIn(e: Entry, e': Entry, d: Document) {
    && e'.walletId == e.walletId && e'.utxos == e.utxos
    && e'.pending == e.pending[d.txid := Pending(d.operation, BroadcastUnknown, d)]
    && e'.reservations.Keys == e.reservations.Keys
    && (forall p :: p in e.reservations ==>
          e'.reservations[p] == Reservation(e.reservations[p].operation, e.reservations[p].attempted || Spends(d, p)))
    && (forall p :: p in e'.spent <==> p in e.spent || Spends(d, p))
    && (forall p :: p in e'.spent ==> e'.spent[p] == if Spends(d, p) then Spent(d.txid, d.operation) else e.spent[p])
  }

  lemma IntendLeaves(e: Entry, d: Document)
    ensures IntendedIn(e, Intended(e, d), d)
  {
    forall p ensures p in Points(d) <==> Spends(d, p) {
      if Spends(d, p) {
        var v :| v in d.inputs && v.point == p;
      }
    }
  }

  /** An answered broadcast: its stored status says so and its reservations are given back. */
  lemma SettleExactly(f: Files, d: Document)
    ensures
      var r := Settle(f, d);
      && (r.Ok? <==> Owns(f, d.wallet, d.walletId) && d.txid in f.cache[d.wallet].pending)
      && (r.Err? ==> r.error == if Owns(f, d.wallet, d.walletId) then NoPendingTransaction else NoMatchingCache)
      && (r.Ok? ==>
            var e, e' := f.cache[d.wallet], r.value.cache[d.wallet];
            && OnlyEntry(f, r.value, d.wallet) && ReleasedIn(e, e'.(pending := e.pending), d.operation)
            && e'.pending.Keys == e.pending.Keys
            && forall t :: t in e.pending ==>
                 e'.pending[t] == if t == d.txid then Pending(e.pending[t].operation, Broadcast, e.pending[t].document) else e.pending[t])
  {
  }

  /** What a merge leaves: the fetched coins, and of the rest only what the fetched history leaves open. */
  ghost predicate MergedIn(e: Entry, e': Entry, s: Snapshot) {
    && e'.walletId == e.walletId && e'.utxos == s.utxos
    && e'.pending.Keys == e.pending.Keys
    && (forall t :: t in e.pending ==>
          && e'.pending[t].operation == e.pending[t].operation && e'.pending[t].document == e.pending[t].document
          && e'.pending[t].status ==
               if t !in s.history then e.pending[t].status else if s.history[t] then Confirmed else InMempool)
    && (forall p :: p in e'.reservations <==> p in e.reservations && !Resolved(e, s, e.reservations[p].operation))
    && (forall p :: p in e'.reservations ==> e'.reservations[p] == e.reservations[p])
    && (forall p :: p in e'.spent <==> p in e.spent && (p in s.utxos || e.spent[p].txid !in s.history))
    && (forall p :: p in e'.spent ==> e'.spent[p] == e.spent[p])
  }

  /** The history shows a stored transaction of this operation. */
  predicate Resolved(e: Entry, s: Snapshot, operation: string) {
    exists t :: t in e.pending && t in s.history && e.pending[t].operation == operation
  }

  /** A sync goes through exactly for a wallet that still has the id it started from. */
  lemma MergeExactly(f: Files, name: string, walletId: string, s: Snapshot)
    ensures
      var r := Merge(f, name, walletId, s);
      && (r.Ok? <==> name in f.wallets && f.wallets[name] == walletId)
      && (r.Err? ==> r.error == if name in f.wallets then WalletChanged else WalletMissing)
      && (r.Ok? ==> OnlyEntry(f, r.value, name))
      && (r.Ok? && Owns(f, name, walletId) ==> MergedIn(f.cache[name], r.value.cache[name], s))
      && (r.Ok? && !Owns(f, name, walletId) ==> r.value.cache[name] == Entry(walletId, s.utxos, map[], map[], map[]))
  {
    if Owns(f, name, walletId) {
      MergeLeavesReservations(f.cache[name], s);
    }
    hide Unresolved;
  }

  lemma MergeLeavesReservations(e: Entry, s: Snapshot)
    ensures
      var left := Unresolved(e, s.history);
      && (forall p :: p in left <==> p in e.reservations && !Resolved(e, s, e.reservations[p].operation))
      && (forall p :: p in left ==> left[p] == e.reservations[p])
  {
  }

  /** A name can be given to a new wallet exactly once. */
  lemma CreateExactly(f: Files, name: string, walletId: string)
    ensures
      var r := Create(f, name, walletId);
      && (r.Ok? <==> name !in f.wallets) && (r.Err? ==> r.error == WalletExists)
      && (r.Ok? ==> r.value.cache == f.cache && r.value.wallets == f.wallets[name := walletId])
  {
  }

  /** A wallet is removed exactly when nothing of it is reserved or pending-spent, and unless torn its cache entry with it. */
  lemma RemoveExactly(f: Files, name: string, torn: bool)
    ensures
      var r := Remove(f, name, torn);
      && (r.Ok? <==>
            name in f.wallets && (name in f.cache ==> forall p :: p !in f.cache[name].reservations && p !in f.cache[name].spent))
      && (r.Err? ==> r.error == if name in f.wallets then WalletInUse else WalletMissing)
      && (r.Ok? ==>
            && r.value.wallets.Keys == f.wallets.Keys - {name} && (forall n :: n in r.value.wallets ==> r.value.wallets[n] == f.wallets[n])
            && (name in r.value.cache <==> torn && name in f.cache)
            && (forall n :: n in f.cache && (torn || n != name) ==> n in r.value.cache && r.value.cache[n] == f.cache[n])
            && (forall n :: n in r.value.cache ==> n in f.cache))
  {
    if name in f.cache {
      forall p ensures p in Blocked(f.cache[name]) <==> p in f.cache[name].reservations || p in f.cache[name].spent {
      }
    }
  }

  // ----- The trace -----

  /** The outpoints that were pending-spent in the entry before a section and are not after it. */
  predicate StoppedSpending(f: Files, g: Files, name: string, walletId: string, p: Outpoint) {
    && Owns(f, name, walletId) && p in f.cache[name].spent
    && name in g.cache && p !in g.cache[name].spent
  }

  /**
   * The trace of a run tells the truth: an intent is recorded exactly when one is persisted, a POST when
   * one is made, and with each sync the outpoints that stopped being pending-spent, no more and no fewer.
   */
  lemma TraceMeans(chain: Chain, s: State, a: Action)
    requires Enabled(chain, s, a)
    ensures
      var t := Step(s, a);
      match a
      case DoIntend(d) => t.history == s.history + (if Intend(s.files, d).Ok? then [Intent(d)] else [])
      case DoPost(d) => t.history == s.history + [Posted(d)] && t.files == s.files
      case DoMerge(name, walletId, snapshot) =>
        if Merge(s.files, name, walletId, snapshot).Err? then t.history == s.history
        else
          && |t.history| == |s.history| + 1 && s.history <= t.history && t.history[|s.history|].Cleared?
          && forall p :: p in t.history[|s.history|].points <==> StoppedSpending(s.files, t.files, name, walletId, p)
      case _ => t.history == s.history
  {
  }

  /** What a section does to the files is what its step does, and nothing else changes them. */
  lemma StepWrites(s: State, a: Action)
    ensures
      var g := Step(s, a).files;
      match a
      case DoCreate(name, walletId) => Writes(s.files, Create(s.files, name, walletId), g)
      case DoReserve(name, walletId, operation, selected) => Writes(s.files, Reserve(s.files, name, walletId, operation, selected), g)
      case DoRelease(name, operation) => Writes(s.files, Release(s.files, name, operation), g)
      case DoCancel(name, walletId, operation) => Writes(s.files, Cancel(s.files, name, walletId, operation), g)
      case DoBegin(d) => g == s.files && Step(s, a).begun == s.begun + {d}
      case DoIntend(d) => Writes(s.files, Intend(s.files, d), g) && Step(s, a).armed == s.armed + if Intend(s.files, d).Ok? then {d} else {}
      case DoPost(d) => g == s.files
      case DoSettle(d) => Writes(s.files, Settle(s.files, d), g)
      case DoMerge(name, walletId, snapshot) => Writes(s.files, Merge(s.files, name, walletId, snapshot), g)
      case DoRemove(name, torn) => Writes(s.files, Remove(s.files, name, torn), g)
  {
    hide Create, Reserve, Release, Cancel, Intend, Settle, Merge, Remove;
  }

  predicate Writes(f: Files, r: Result<Files, ProtocolError>, g: Files) {
    if r.Ok? then g == r.value else g == f
  }

  /**
   * What may happen when: fresh identifiers; a broadcast begins with a document of a live wallet that spends
   * exactly the inputs of its transaction; it persists only what it began with, POSTs only what was
   * persisted, however late, and settles only what was POSTed. Everything else may happen at any time.
   */
  lemma EnabledExactly(chain: Chain, s: State, a: Action)
    ensures
      Enabled(chain, s, a) <==>
        match a
        case DoCreate(_, walletId) => walletId !in s.walletIds
        case DoReserve(_, _, operation, _) => operation !in s.operations
        case DoBegin(d) =>
          && (forall p :: p in chain(d.txid) <==> Spends(d, p)) && |d.inputs| > 0
          && d.wallet in s.files.wallets && s.files.wallets[d.wallet] == d.walletId
        case DoIntend(d) => d in s.begun
        case DoPost(d) => d in s.armed
        case DoSettle(d) => exists k :: 0 <= k < |s.history| && s.history[k] == Posted(d)
        case DoRelease(_, _) => true
        case DoCancel(_, _, _) => true
        case DoMerge(_, _, _) => true
        case DoRemove(_, _) => true
  {
    if a.DoBegin? {
      var d := a.doc;
      forall p ensures p in Points(d) <==> Spends(d, p) {
        if Spends(d, p) {
          var v :| v in d.inputs && v.point == p;
        }
      }
      if forall p :: p in chain(d.txid) <==> Spends(d, p) {
        assert Points(d) == chain(d.txid);
      }
    }
  }

  /** Runs begin with no files at all, and go on by whatever may happen next, one step at a time. */
  lemma RunsExactly(chain: Chain, actions: seq<Action>, states: seq<State>, a: Action, s: State)
    ensures IsRun(chain, [], [s]) <==> s == State(Files(map[], map[]), {}, {}, {}, {}, [])
    ensures |states| == |actions| + 1 ==>
      (IsRun(chain, actions + [a], states + [s]) <==>
         IsRun(chain, actions, states) && Enabled(chain, states[|actions|], a) && s == Step(states[|actions|], a))
  {
    hide Enabled, Step;
    if |states| == |actions| + 1 {
      var more, after := actions + [a], states + [s];
      assert forall i :: 0 <= i < |actions| ==> more[i] == actions[i];
      assert forall i :: 0 <= i < |states| ==> after[i] == states[i];
      assert more[|actions|] == a && after[|actions|] == states[|actions|] && after[|actions| + 1] == s;
    }
  }
}
