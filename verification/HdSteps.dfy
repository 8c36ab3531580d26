/**
 * Each lock section of the HD workflow described from outside: exactly when it goes through, and what it
 * leaves in every field of the wallet file and the cache entry. Stated over the fields alone.
 */
module HdSteps {
  import opened Wrappers
  import opened Bytes
  import opened Transactions
  import opened Addresses
  import opened HdProtocol

  /** The cached coins, the pending transactions and their spends are as before. */
  predicate SameChain(c: Cache, c': Cache) {
    c'.utxos == c.utxos && c'.pending == c.pending && c'.spent == c.spent
  }

  /** The next index of a branch, absent entries counting as none issued. */
  predicate NextIs(indexes: map<AddressType, nat>, kind: AddressType, n: nat) {
    if kind in indexes then indexes[kind] == n else n == 0
  }

  /** Only this account's counter changes, to `n`. */
  predicate OnlyNext(before: map<AddressType, nat>, after: map<AddressType, nat>, kind: AddressType, n: nat) {
    && after.Keys == before.Keys + {kind} && after[kind] == n
    && forall k :: k in before && k != kind ==> after[k] == before[k]
  }

  /**
   * Funding goes through exactly when no draft is active and every coin chosen is cached, of the account's
   * type and not pending-spent; it then reserves exactly these coins for the draft.
   */
  lemma FundExactly(f: Files, draft: string, kind: AddressType, selected: set<Outpoint>)
    ensures
      var r := Fund(f, draft, kind, selected);
      && (r.Ok? <==>
            && f.cache.Some?
            && var c := f.cache.value;
            && (forall p :: p !in c.reserved) && c.change.None? && selected != {}
            && forall p :: p in selected ==> p in c.utxos && c.utxos[p] == kind && p !in c.spent)
      && (r == Err(CacheMissing) <==> f.cache.None?)
      && (r == Err(ActiveDraft) <==> f.cache.Some? && (f.cache.value.change.Some? || exists p :: p in f.cache.value.reserved))
      && (r.Err? ==> r.error in {CacheMissing, ActiveDraft, NotEligible})
      && (r.Ok? ==>
            && r.value.wallet == f.wallet && r.value.cache.Some?
            && var c, c' := f.cache.value, r.value.cache.value;
            && SameChain(c, c') && c'.change.None?
            && (forall p :: p in c'.reserved <==> p in selected) && forall p :: p in selected ==> c'.reserved[p] == draft)
  {
  }

  /** A change index is reserved exactly for a draft with inputs while none is: the next one of its account. */
  lemma ReserveChangeExactly(f: Files, draft: string, kind: AddressType, n: nat)
    requires NextIs(f.wallet.nextChange, kind, n)
    ensures
      var r := ReserveChange(f, draft, kind);
      && (r.Ok? <==>
            && f.cache.Some? && f.cache.value.change.None?
            && exists p :: p in f.cache.value.reserved && f.cache.value.reserved[p] == draft)
      && (r.Err? ==> r.error == if f.cache.None? then CacheMissing else if f.cache.value.change.Some? then ChangeAlreadyReserved else NoReservedInputs)
      && (r.Ok? ==> r.value == Files(f.wallet, Some(f.cache.value.(change := Some(ReservedChange(draft, kind, n))))))
  {
  }

  ghost predicate ReleasedIn(c: Cache, c': Cache, draft: string) {
    && (forall p :: p in c'.reserved <==> p in c.reserved && c.reserved[p] != draft)
    && (forall p :: p in c'.reserved ==> c'.reserved[p] == c.reserved[p])
  }

  /** Releasing drops exactly the draft's reservations and its reserved change. */
  lemma ReleaseExactly(f: Files, draft: string)
    ensures
      var g := Release(f, draft);
      && g.wallet == f.wallet && (f.cache.None? ==> g.cache.None?)
      && (f.cache.Some? ==>
            && g.cache.Some?
            && var c, c' := f.cache.value, g.cache.value;
            && SameChain(c, c') && ReleasedIn(c, c', draft)
            && c'.change == if c.change.Some? && c.change.value.draft == draft then None else c.change)
  {
  }

  /**
   * Finishing signs off a document without change as it is; otherwise exactly the document's own reserved
   * change is issued, or nothing is reserved and its change was issued before.
   */
  lemma FinishSigningExactly(f: Files, d: Funded, torn: bool, n: nat)
    requires NextIs(f.wallet.nextChange, d.kind, n)
    ensures
      var r := FinishSigning(f, d, torn);
      && (d.change.None? ==> r == Ok(f))
      && (d.change.Some? ==>
            var index := d.change.value;
            && (r.Ok? <==>
                  && f.cache.Some?
                  && if f.cache.value.change.None? then index < n
                     else f.cache.value.change.value == ReservedChange(d.draft, d.kind, index) && index <= n)
            && (r.Err? ==> r.error == if f.cache.None? then CacheMissing else if f.cache.value.change.None? then ChangeNotIssued else ChangeMismatch)
            && (r.Ok? ==>
                  && r.value.wallet.nextReceive == f.wallet.nextReceive
                  && (if index < n then r.value.wallet == f.wallet
                      else OnlyNext(f.wallet.nextChange, r.value.wallet.nextChange, d.kind, n + 1))
                  && r.value.cache == Some(f.cache.value.(change := if torn then f.cache.value.change else None))))
  {
  }

  /** The check before signing: inputs cached and reserved, the change reserved or, if none is, issued. */
  lemma MaySignExactly(f: Files, d: Funded, n: nat)
    requires NextIs(f.wallet.nextChange, d.kind, n)
    ensures
      MaySign(f, d) <==>
        && f.cache.Some?
        && var c := f.cache.value;
        && (forall p :: p in d.inputs ==> p in c.utxos && p in c.reserved && c.reserved[p] == d.draft)
        && (d.change.None? || c.change == Some(ReservedChange(d.draft, d.kind, d.change.value)) || (c.change.None? && d.change.value < n))
  {
  }

  /** The check before broadcasting accepts exactly a document whose inputs are all reserved by its draft. */
  lemma CheckBroadcastExactly(f: Files, d: Funded)
    ensures
      CheckBroadcast(f, d) ==
        if f.cache.Some? && forall p :: p in d.inputs ==> p in f.cache.value.reserved && f.cache.value.reserved[p] == d.draft then Ok(f)
        else if f.cache.None? then Err(CacheMissing)
        else Err(NotReservedByDraft)
  {
  }

  /** Recording turns the document's inputs into spends of the transaction and drops the draft's reservations. */
  lemma RecordExactly(f: Files, d: Funded, txid: bytes)
    ensures
      var r := RecordBroadcast(f, d, txid);
      && (r.Ok? <==> f.cache.Some?) && (r.Err? ==> r.error == CacheMissing)
      && (r.Ok? ==>
            && r.value.wallet == f.wallet && r.value.cache.Some?
            && var c, c' := f.cache.value, r.value.cache.value;
            && c'.utxos == c.utxos && c'.change == c.change && ReleasedIn(c, c', d.draft)
            && c'.pending == c.pending + {txid}
            && (forall p :: p in c'.spent <==> p in c.spent || p in d.inputs)
            && (forall p :: p in c'.spent ==> c'.spent[p] == if p in d.inputs then txid else c.spent[p]))
  {
  }

  /** New addresses advance their own counter by one; a change address only while no draft holds one. */
  lemma NewAddressesExactly(f: Files, kind: AddressType, n: nat, m: nat)
    requires NextIs(f.wallet.nextReceive, kind, n) && NextIs(f.wallet.nextChange, kind, m)
    ensures
      var g := IssueReceive(f, kind);
      && g.cache == f.cache && g.wallet.nextChange == f.wallet.nextChange
      && OnlyNext(f.wallet.nextReceive, g.wallet.nextReceive, kind, n + 1)
    ensures
      var r := IssueManualChange(f, kind);
      && (r.Ok? <==> f.cache.None? || f.cache.value.change.None?) && (r.Err? ==> r.error == ChangeReserved)
      && (r.Ok? ==>
            && r.value.cache == f.cache && r.value.wallet.nextReceive == f.wallet.nextReceive
            && OnlyNext(f.wallet.nextChange, r.value.wallet.nextChange, kind, m + 1))
  {
  }

  /** Discovery commits exactly into an account without issued addresses, with one receive address more than found. */
  lemma CommitExactly(f: Files, kind: AddressType, received: nat, changed: nat)
    ensures
      var r := CommitDiscovered(f, kind, received, changed);
      && (r.Ok? <==> NextIs(f.wallet.nextReceive, kind, 0) && NextIs(f.wallet.nextChange, kind, 0))
      && (r.Err? ==> r.error == AddressBookNotEmpty)
      && (r.Ok? ==>
            && r.value.cache == f.cache
            && OnlyNext(f.wallet.nextReceive, r.value.wallet.nextReceive, kind, received + 1)
            && OnlyNext(f.wallet.nextChange, r.value.wallet.nextChange, kind, changed))
  {
  }

  /**
   * A sync replaces the cached coins by the fetched ones, keeps every reservation, and drops exactly the
   * pending transactions the history confirms, with their spends.
   */
  lemma SyncExactly(f: Files, utxos: map<Outpoint, AddressType>, confirmed: set<bytes>)
    ensures
      var g := Sync(f, utxos, confirmed);
      && g.wallet == f.wallet && g.cache.Some?
      && var c' := g.cache.value;
      && c'.utxos == utxos
      && (f.cache.None? ==> c' == Cache(utxos, map[], None, {}, map[]))
      && (f.cache.Some? ==>
            var c := f.cache.value;
            && c'.reserved == c.reserved && c'.change == c.change
            && (forall t :: t in c'.pending <==> t in c.pending && t !in confirmed)
            && (forall p :: p in c'.spent <==> p in c.spent && c.spent[p] in c.pending && c.spent[p] !in confirmed)
            && (forall p :: p in c'.spent ==> c'.spent[p] == c.spent[p]))
  {
  }

  // ----- What can be funded after a sync -----

  /** Still recorded as spent after a sync that confirms `confirmed`. */
  predicate StillPending(f: Files, confirmed: set<bytes>, p: Outpoint) {
    && f.cache.Some? && p in f.cache.value.spent
    && f.cache.value.spent[p] in f.cache.value.pending && f.cache.value.spent[p] !in confirmed
  }

  predicate Unreserving(f: Files) {
    f.cache.Some? ==> f.cache.value.reserved == map[] && f.cache.value.change.None?
  }

  /** Right after a sync exactly the fetched coins of the account that are not still pending-spent can be funded. */
  lemma FundAfterSync(f: Files, utxos: map<Outpoint, AddressType>, confirmed: set<bytes>, draft: string, kind: AddressType, selected: set<Outpoint>)
    ensures
      Fund(Sync(f, utxos, confirmed), draft, kind, selected).Ok? <==>
        && Unreserving(f) && selected != {}
        && forall p :: p in selected ==> p in utxos && utxos[p] == kind && !StillPending(f, confirmed, p)
  {
    FundExactly(Sync(f, utxos, confirmed), draft, kind, selected);
    SyncExactly(f, utxos, confirmed);
    hide Fund, Sync;
    if f.cache.Some? && Unreserving(f) {
      assert forall p :: p !in f.cache.value.reserved;
    }
    if f.cache.Some? && forall p :: p !in f.cache.value.reserved {
      assert f.cache.value.reserved == map[];
    }
  }

  lemma CoinsFetched(s: State, a: Action)
    requires a.DoSync?
    ensures Step(s, a).files.cache.Some? && Step(s, a).files.cache.value.utxos == a.utxos
  {
  }

  /** The cached coins at any point of a run are those of the last sync before it. */
  lemma {:induction false} CoinsOfLastSync(actions: seq<Action>, states: seq<State>, m: nat, n: nat)
    requires IsRun(actions, states) && m < n < |states| && actions[m].DoSync?
    requires forall k :: m < k < n ==> !actions[k].DoSync?
    ensures states[n].files.cache.Some? && states[n].files.cache.value.utxos == actions[m].utxos
  {
    hide Step, CanHappen;
    if n == m + 1 {
      CoinsFetched(states[m], actions[m]);
      assert states[m + 1] == Step(states[m], actions[m]);
    } else {
      CoinsOfLastSync(actions, states, m, n - 1);
      CoinsKept(states[n - 1], actions[n - 1]);
      assert states[n - 1 + 1] == Step(states[n - 1], actions[n - 1]);
    }
  }

  lemma CoinsKept(s: State, a: Action)
    requires !a.DoSync? && s.files.cache.Some?
    ensures Step(s, a).files.cache.Some? && Step(s, a).files.cache.value.utxos == s.files.cache.value.utxos
  {
  }

  /** Over every run, what a draft is funded with was fetched, as a coin of its account, by the last sync. */
  lemma FundedCoinsWereFetched(actions: seq<Action>, states: seq<State>, m: nat, n: nat, draft: string, kind: AddressType, selected: set<Outpoint>)
    requires IsRun(actions, states) && m < n < |states| && actions[m].DoSync?
    requires forall k :: m < k < n ==> !actions[k].DoSync?
    requires Fund(states[n].files, draft, kind, selected).Ok?
    ensures forall p :: p in selected ==> p in actions[m].utxos && actions[m].utxos[p] == kind
  {
    CoinsOfLastSync(actions, states, m, n);
    hide IsRun;
    FundExactly(states[n].files, draft, kind, selected);
  }

  // ----- The processes around the files -----

  predicate Writes(f: Files, r: Result<Files, WorkflowError>, g: Files) {
    if r.Ok? then g == r.value else g == f
  }

  /**
   * What a step does to the files is what its section does, and the drafts, marks and trace of a run tell
   * the truth: each is extended exactly when its section goes through.
   */
  lemma StepMeans(s: State, a: Action)
    requires CanHappen(s, a)
    ensures
      var t, f := Step(s, a), s.files;
      match a
      case DoFund(draft, kind, selected, withChange) =>
        var r := Fund(f, draft, kind, selected);
        && Writes(f, r, t.files) && (r.Err? ==> t == s)
        && (r.Ok? ==> draft in t.drafts && t.drafts[draft] == Funded(draft, kind, selected, None) && (draft in t.wantsChange <==> withChange || draft in s.wantsChange))
      case DoReserveChange(draft) =>
        var r := ReserveChange(f, draft, s.drafts[draft].kind);
        && Writes(f, r, t.files)
        && (r.Ok? ==> draft in t.drafts && t.drafts[draft].change == Some(t.files.cache.value.change.value.index))
      case DoRelease(draft) => t == s.(files := Release(f, draft))
      case DoFinishSigning(draft, torn) =>
        var r := FinishSigning(f, s.drafts[draft], torn);
        Writes(f, r, t.files) && (draft in t.signed <==> draft in s.signed || (r.Ok? && !torn))
      case DoCheckBroadcast(draft) =>
        t.files == f && (draft in t.passed <==> draft in s.passed || CheckBroadcast(f, s.drafts[draft]).Ok?)
      case DoRecord(draft, txid) =>
        var r := RecordBroadcast(f, s.drafts[draft], txid);
        Writes(f, r, t.files) && t.history == s.history + if r.Ok? then [Recorded(s.drafts[draft].inputs, txid)] else []
      case DoManualChange(kind) =>
        var r := IssueManualChange(f, kind);
        Writes(f, r, t.files) && (r.Ok? ==> exists n: nat :: NextIs(f.wallet.nextChange, kind, n) && (kind, n) in t.handed)
      case DoReceive(kind) => t == s.(files := IssueReceive(f, kind))
      case DoDiscover(kind, received, changed) => Writes(f, CommitDiscovered(f, kind, received, changed), t.files)
      case DoSync(utxos, confirmed) => t == s.(files := Sync(f, utxos, confirmed), history := s.history + [Synced(confirmed)])
  {
    hide Fund, Release, FinishSigning, CheckBroadcast, RecordBroadcast, IssueManualChange, IssueReceive, CommitDiscovered, Sync;
    if a.DoManualChange? {
      assert NextIs(s.files.wallet.nextChange, a.kind, Next(s.files.wallet.nextChange, a.kind));
    }
  }

  /** An address of this account was issued. */
  predicate Opened(w: WalletFile, kind: AddressType) {
    !NextIs(w.nextReceive, kind, 0) || !NextIs(w.nextChange, kind, 0)
  }

  /**
   * What may happen when: draft ids are fresh; change is reserved once, for a draft that wants it; signing
   * finishes a complete document, checking needs a finished signing and recording a passed check; a sync
   * asks only for addresses of accounts that have some. Everything else may happen at any time.
   */
  lemma CanHappenExactly(s: State, a: Action)
    ensures
      CanHappen(s, a) <==>
        match a
        case DoFund(draft, _, _, _) => draft !in s.drafts
        case DoReserveChange(draft) => draft in s.drafts && draft in s.wantsChange && s.drafts[draft].change == None
        case DoRelease(_) => true
        case DoFinishSigning(draft, _) => draft in s.drafts && (draft !in s.wantsChange || s.drafts[draft].change != None)
        case DoCheckBroadcast(draft) => draft in s.drafts && draft in s.signed
        case DoRecord(draft, _) => draft in s.drafts && draft in s.passed
        case DoManualChange(_) => true
        case DoReceive(_) => true
        case DoDiscover(_, _, _) => true
        case DoSync(utxos, _) => forall p :: p in utxos ==> Opened(s.files.wallet, utxos[p])
  {
    forall kind ensures Enabled(s.files.wallet, kind) <==> Opened(s.files.wallet, kind) {
    }
    hide Enabled, Opened;
  }

  /** Runs begin with no wallet and no cache entry, and go on by whatever may happen next, one step at a time. */
  lemma RunsExactly(actions: seq<Action>, states: seq<State>, a: Action, s: State)
    ensures IsRun([], [s]) <==> s == State(Files(WalletFile(map[], map[]), None), map[], {}, {}, {}, {}, [])
    ensures |states| == |actions| + 1 ==>
      (IsRun(actions + [a], states + [s]) <==> IsRun(actions, states) && CanHappen(states[|actions|], a) && s == Step(states[|actions|], a))
  {
    hide CanHappen, Step;
    if |states| == |actions| + 1 {
      var more, after := actions + [a], states + [s];
      assert forall i :: 0 <= i < |actions| ==> more[i] == actions[i];
      assert forall i :: 0 <= i < |states| ==> after[i] == states[i];
      assert more[|actions|] == a && after[|actions|] == states[|actions|] && after[|actions| + 1] == s;
    }
  }
}
