/** What every interleaving of the HD lock sections keeps, crashes included, and the safety that follows. */
module HdSafety {
  import opened Wrappers
  import opened Bytes
  import opened Transactions
  import opened Addresses
  import opened HdProtocol

  // ----- The invariant -----

  /** The draft still has inputs reserved in the cache. */
  predicate Active(cache: Option<Cache>, draft: string) {
    cache.Some? && HasDraft(cache.value, draft)
  }

  /** All reserved outpoints, and the reserved change, name one draft; its change has reserved inputs. */
  predicate OneDraft(cache: Option<Cache>) {
    cache.Some? ==>
      && (forall p, q :: p in cache.value.reserved && q in cache.value.reserved ==> cache.value.reserved[p] == cache.value.reserved[q])
      && (cache.value.change.Some? ==> HasDraft(cache.value, cache.value.change.value.draft))
  }

  /** Every reservation is of a known draft, on an input of its document. */
  predicate ReservedKnown(cache: Option<Cache>, drafts: map<string, Funded>) {
    cache.Some? ==>
      forall p :: p in cache.value.reserved ==>
        cache.value.reserved[p] in drafts && p in drafts[cache.value.reserved[p]].inputs
  }

  /** The reserved index is the next one, or the one below it when a crash fell between issue and save. */
  predicate ChangeCurrent(f: Files, drafts: map<string, Funded>) {
    f.cache.Some? && f.cache.value.change.Some? ==>
      var r := f.cache.value.change.value;
      && r.draft in drafts && Carries(drafts[r.draft], r.kind, r.index)
      && (r.index == Next(f.wallet.nextChange, r.kind) || r.index + 1 == Next(f.wallet.nextChange, r.kind))
  }

  /** The document pays change to this index of this account. */
  predicate Carries(d: Funded, kind: AddressType, index: nat) {
    d.kind == kind && d.change == Some(index)
  }

  predicate Issued(w: WalletFile, d: Funded) {
    d.change.Some? ==> d.change.value < Next(w.nextChange, d.kind)
  }

  predicate HoldsChange(cache: Option<Cache>, draft: string) {
    cache.Some? && cache.value.change.Some? && cache.value.change.value.draft == draft
  }

  /** An active draft's change is reserved or already issued. */
  predicate ActiveCovered(f: Files, drafts: map<string, Funded>) {
    forall d :: d in drafts && Active(f.cache, d) ==> HoldsChange(f.cache, d) || Issued(f.wallet, drafts[d])
  }

  /** A signed draft is complete, its change is issued and no longer reserved. */
  predicate SignedIssued(s: State) {
    forall d :: d in s.signed ==> Documented(s, d) && Issued(s.files.wallet, s.drafts[d]) && !HoldsChange(s.files.cache, d)
  }

  predicate SameChange(a: Funded, b: Funded) {
    a.kind == b.kind && a.change.Some? && a.change == b.change
  }

  /** No other draft that could still be broadcast shares the change index of one that passed. */
  predicate PassedAlone(s: State) {
    && (forall d :: d in s.passed ==> d in s.signed && d in s.drafts)
    && (forall d, e :: d in s.passed && e in s.drafts && d in s.drafts && e != d && SameChange(s.drafts[d], s.drafts[e]) ==>
          !Active(s.files.cache, e) && e !in s.passed)
  }

  /** An index handed out by hand is issued, and no draft that carries it is active or has passed. */
  predicate HandedAlone(s: State) {
    && (forall h :: h in s.handed ==> h.1 < Next(s.files.wallet.nextChange, h.0))
    && (forall h, d :: h in s.handed && d in s.drafts && Carries(s.drafts[d], h.0, h.1) ==>
          !Active(s.files.cache, d) && d !in s.passed)
  }

  predicate WellFormed(drafts: map<string, Funded>) {
    forall d :: d in drafts ==> drafts[d].draft == d && drafts[d].inputs != {}
  }

  /** Coins and drafts are of accounts with issued addresses. */
  predicate AccountsEnabled(f: Files, drafts: map<string, Funded>) {
    && (f.cache.Some? ==> forall p :: p in f.cache.value.utxos ==> Enabled(f.wallet, f.cache.value.utxos[p]))
    && (forall d :: d in drafts ==> Enabled(f.wallet, drafts[d].kind))
  }

  ghost predicate Inv(s: State) {
    && OneDraft(s.files.cache) && ReservedKnown(s.files.cache, s.drafts) && ChangeCurrent(s.files, s.drafts)
    && ActiveCovered(s.files, s.drafts) && SignedIssued(s)
    && PassedAlone(s) && HandedAlone(s) && WellFormed(s.drafts) && AccountsEnabled(s.files, s.drafts)
    && SpentBacked(s.files.cache) && SpendsHold(s.files.cache, s.history)
  }

  // ----- Recorded spends -----

  /** A pending-spent outpoint names a stored pending transaction. */
  predicate SpentBacked(cache: Option<Cache>) {
    cache.Some? ==> forall p :: p in cache.value.spent ==> cache.value.spent[p] in cache.value.pending
  }

  predicate Records(e: Event, p: Outpoint, txid: bytes) {
    e.Recorded? && p in e.inputs && e.txid == txid
  }

  /** Since event `i` a spender of `p` was recorded, and a later sync reported it confirmed. */
  ghost predicate ConfirmedSince(h: seq<Event>, i: nat, p: Outpoint) {
    exists j, k :: ConfirmedAt(h, i, j, k, p)
  }

  predicate ConfirmedAt(h: seq<Event>, i: nat, j: nat, k: nat, p: Outpoint) {
    i <= j < k < |h| && h[k].Synced? && h[j].Recorded? && p in h[j].inputs && h[j].txid in h[k].confirmed
  }

  predicate RecordedSince(h: seq<Event>, i: nat, p: Outpoint, txid: bytes) {
    exists j :: i <= j < |h| && Records(h[j], p, txid)
  }

  ghost predicate StillHeld(cache: Option<Cache>, h: seq<Event>, i: nat, p: Outpoint) {
    cache.Some? && p in cache.value.spent && RecordedSince(h, i, p, cache.value.spent[p])
  }

  ghost predicate SpendsHold(cache: Option<Cache>, h: seq<Event>) {
    forall i, p :: 0 <= i < |h| && h[i].Recorded? && p in h[i].inputs ==> StillHeld(cache, h, i, p) || ConfirmedSince(h, i, p)
  }

  lemma HistoryGrows(h: seq<Event>, e: Event, i: nat, p: Outpoint)
    ensures ConfirmedSince(h, i, p) ==> ConfirmedSince(h + [e], i, p)
    ensures forall t :: RecordedSince(h, i, p, t) ==> RecordedSince(h + [e], i, p, t)
  {
    var g := h + [e];
    if ConfirmedSince(h, i, p) {
      var j, k :| ConfirmedAt(h, i, j, k, p);
      assert ConfirmedAt(g, i, j, k, p);
    }
    forall t | RecordedSince(h, i, p, t) ensures RecordedSince(g, i, p, t) {
      var j :| i <= j < |h| && Records(h[j], p, t);
      assert Records(g[j], p, t);
    }
  }

  lemma RecordKeepsSpends(f: Files, h: seq<Event>, d: Funded, txid: bytes)
    requires SpendsHold(f.cache, h) && f.cache.Some?
    ensures SpendsHold(RecordBroadcast(f, d, txid).value.cache, h + [Recorded(d.inputs, txid)])
  {
    var g, l := RecordBroadcast(f, d, txid).value, h + [Recorded(d.inputs, txid)];
    forall i, p | 0 <= i < |l| && l[i].Recorded? && p in l[i].inputs ensures StillHeld(g.cache, l, i, p) || ConfirmedSince(l, i, p) {
      HistoryGrows(h, Recorded(d.inputs, txid), i, p);
      if p in d.inputs {
        assert Records(l[|h|], p, txid);
      } else if !ConfirmedSince(h, i, p) {
        assert StillHeld(f.cache, h, i, p);
      }
    }
  }

  lemma SyncKeepsSpends(f: Files, h: seq<Event>, utxos: map<Outpoint, AddressType>, confirmed: set<bytes>)
    requires SpendsHold(f.cache, h) && SpentBacked(f.cache)
    ensures SpendsHold(Sync(f, utxos, confirmed).cache, h + [Synced(confirmed)])
  {
    var g, l := Sync(f, utxos, confirmed), h + [Synced(confirmed)];
    forall i, p | 0 <= i < |l| && l[i].Recorded? && p in l[i].inputs ensures StillHeld(g.cache, l, i, p) || ConfirmedSince(l, i, p) {
      HistoryGrows(h, Synced(confirmed), i, p);
      if !ConfirmedSince(h, i, p) {
        assert StillHeld(f.cache, h, i, p);
        var t := f.cache.value.spent[p];
        if t in confirmed {
          var j :| i <= j < |h| && Records(h[j], p, t);
          assert ConfirmedAt(l, i, j, |h|, p);
        }
      }
    }
  }

  // ----- What each section keeps -----

  /** Sections that leave recorded spends alone keep what is known of them. */
  lemma SpendsUntouched(f: Files, g: Files, h: seq<Event>)
    requires SpendsHold(f.cache, h) && SpentBacked(f.cache) && f.cache.Some? == g.cache.Some?
    requires f.cache.Some? ==> g.cache.value.spent == f.cache.value.spent && g.cache.value.pending == f.cache.value.pending
    ensures SpendsHold(g.cache, h) && SpentBacked(g.cache)
  {
    forall i, p | 0 <= i < |h| && h[i].Recorded? && p in h[i].inputs ensures StillHeld(g.cache, h, i, p) || ConfirmedSince(h, i, p) {
      assert StillHeld(f.cache, h, i, p) || ConfirmedSince(h, i, p);
    }
  }

  /** A new document without change carries no index yet. */
  lemma DraftAdded(s: State, d: Funded, wants: set<string>)
    requires Inv(s) && d.draft !in s.drafts && d.change.None? && d.inputs != {} && Enabled(s.files.wallet, d.kind)
    requires s.wantsChange <= wants <= s.wantsChange + {d.draft}
    ensures Inv(s.(drafts := s.drafts[d.draft := d], wantsChange := wants))
  {
    hide OneDraft, SpentBacked, SpendsHold, HasDraft, Enabled, Next;
  }

  /** The only draft becomes active when nothing was reserved before. */
  lemma OnlyDraftReserves(s: State, draft: string, selected: set<Outpoint>)
    requires Inv(s) && s.files.cache.Some? && s.files.cache.value.change.None? && s.files.cache.value.reserved == map[]
    requires draft in s.drafts && s.drafts[draft].change.None? && selected == s.drafts[draft].inputs
    ensures Inv(s.(files := WithCache(s.files, s.files.cache.value.(reserved := map p | p in selected :: draft))))
  {
    var g := WithCache(s.files, s.files.cache.value.(reserved := map p | p in selected :: draft));
    SpendsUntouched(s.files, g, s.history);
    hide SpentBacked, SpendsHold, Next, Enabled, WellFormed;
    assert forall d :: Active(g.cache, d) ==> d == draft;
  }

  lemma FundKeeps(s: State, draft: string, kind: AddressType, selected: set<Outpoint>, withChange: bool)
    requires Inv(s) && draft !in s.drafts
    ensures Inv(Step(s, DoFund(draft, kind, selected, withChange)))
  {
    if Fund(s.files, draft, kind, selected).Ok? {
      var p :| p in selected;
      assert s.files.cache.value.utxos[p] == kind;
      var d := Funded(draft, kind, selected, None);
      var wants := if withChange then s.wantsChange + {draft} else s.wantsChange;
      assert Enabled(s.files.wallet, kind);
      hide Inv;
      DraftAdded(s, d, wants);
      OnlyDraftReserves(s.(drafts := s.drafts[draft := d], wantsChange := wants), draft, selected);
    }
  }

  lemma SameReserved(c: Cache, c': Cache)
    requires c'.reserved == c.reserved
    ensures forall d :: HasDraft(c', d) <==> HasDraft(c, d)
  {
  }

  lemma ReserveChangeKeeps(s: State, draft: string)
    requires Inv(s) && CanHappen(s, DoReserveChange(draft))
    ensures Inv(Step(s, DoReserveChange(draft)))
  {
    hide SpendsHold, SpentBacked, HasDraft, Next, Enabled;
    var t := Step(s, DoReserveChange(draft));
    if ReserveChange(s.files, draft, s.drafts[draft].kind).Ok? {
      SameReserved(s.files.cache.value, t.files.cache.value);
      assert HasDraft(s.files.cache.value, draft);
      SpendsUntouched(s.files, t.files, s.history);
    }
  }

  /** Only the wallet file changes: indexes are issued, none is taken back. */
  lemma WalletGrows(s: State, w: WalletFile)
    requires Inv(s)
    requires forall kind :: Next(w.nextChange, kind) >= Next(s.files.wallet.nextChange, kind)
    requires forall kind :: Enabled(s.files.wallet, kind) ==> Enabled(w, kind)
    requires ChangeCurrent(s.files.(wallet := w), s.drafts)
    ensures Inv(s.(files := s.files.(wallet := w)))
  {
    hide OneDraft, ReservedKnown, ChangeCurrent, SpentBacked, SpendsHold, WellFormed, HasDraft, Next, Enabled;
  }

  /** Only the cache changes, and nothing becomes active or reserved. */
  ghost predicate Quieter(s: State, c: Cache) {
    && s.files.cache.Some? && OneDraft(Some(c)) && ReservedKnown(Some(c), s.drafts)
    && (forall d :: Active(Some(c), d) ==> Active(s.files.cache, d))
    && (forall d :: Active(Some(c), d) && HoldsChange(s.files.cache, d) ==> HoldsChange(Some(c), d))
    && (c.change.Some? ==> c.change == s.files.cache.value.change)
    && (forall p :: p in c.utxos ==> Enabled(s.files.wallet, c.utxos[p]))
  }

  lemma CacheQuiets(s: State, c: Cache, h: seq<Event>)
    requires Inv(s) && Quieter(s, c) && SpentBacked(Some(c)) && SpendsHold(Some(c), h)
    ensures Inv(s.(files := s.files.(cache := Some(c)), history := h))
  {
    hide OneDraft, ReservedKnown, SpentBacked, SpendsHold, WellFormed, HasDraft, Next, Enabled;
  }

  /** Dropping one draft's reservations leaves the others as they were. */
  lemma UnreservedQuiets(s: State, draft: string, c: Cache)
    requires Inv(s) && s.files.cache.Some? && c.utxos == s.files.cache.value.utxos
    requires c.reserved == Unreserved(s.files.cache.value.reserved, draft)
    requires c.change == if HoldsChange(s.files.cache, draft) then None else s.files.cache.value.change
    ensures Quieter(s, c)
  {
    var before := s.files.cache.value;
    hide ActiveCovered, SignedIssued, PassedAlone, HandedAlone, SpentBacked, SpendsHold, ChangeCurrent, Next, Enabled;
    forall d | Active(Some(c), d) ensures Active(s.files.cache, d) && d != draft {
      var p :| p in c.reserved && c.reserved[p] == d;
      assert p in before.reserved && before.reserved[p] == d;
    }
    if c.change.Some? {
      var p :| p in before.reserved && before.reserved[p] == c.change.value.draft;
      assert p in c.reserved;
    }
  }

  lemma ReleaseKeeps(s: State, draft: string)
    requires Inv(s)
    ensures Inv(Step(s, DoRelease(draft)))
  {
    if s.files.cache.Some? {
      var t := Step(s, DoRelease(draft));
      hide Inv;
      UnreservedQuiets(s, draft, t.files.cache.value);
      InvSpends(s);
      SpendsUntouched(s.files, t.files, s.history);
      CacheQuiets(s, t.files.cache.value, s.history);
    }
  }

  lemma InvSpends(s: State)
    requires Inv(s)
    ensures SpentBacked(s.files.cache) && SpendsHold(s.files.cache, s.history)
  {
  }

  /** A draft whose change is issued and not reserved may count as signed. */
  lemma SigningKeeps(s: State, draft: string)
    requires Inv(s) && Documented(s, draft) && Issued(s.files.wallet, s.drafts[draft]) && !HoldsChange(s.files.cache, draft)
    ensures Inv(s.(signed := s.signed + {draft}))
  {
    hide OneDraft, ReservedKnown, ChangeCurrent, ActiveCovered, AccountsEnabled, SpentBacked, SpendsHold, WellFormed;
  }

  /** Issuing the reserved index keeps the invariant, reserved (a crash) or no longer reserved. */
  lemma IssueKeeps(s: State, r: ReservedChange, torn: bool)
    requires Inv(s) && s.files.cache.Some? && s.files.cache.value.change == Some(r)
    requires IssueChange(s.files.wallet, r.kind, r.index).Ok?
    ensures
      var w := IssueChange(s.files.wallet, r.kind, r.index).value;
      var c := s.files.cache.value;
      Inv(s.(files := Files(w, Some(if torn then c else c.(change := None)))))
  {
    hide SpendsHold, SpentBacked;
    var w := IssueChange(s.files.wallet, r.kind, r.index).value;
    var c := s.files.cache.value;
    var t := s.(files := Files(w, Some(if torn then c else c.(change := None))));
    assert forall d :: Active(t.files.cache, d) <==> Active(s.files.cache, d);
    assert forall kind :: Next(w.nextChange, kind) >= Next(s.files.wallet.nextChange, kind);
    hide IssueChange, HasDraft;
    assert r.index + 1 == Next(w.nextChange, r.kind) by {
      IssueChangeIsExact(s.files.wallet, r);
    }
    SpendsUntouched(s.files, t.files, s.history);
  }

  lemma IssueChangeIsExact(w: WalletFile, r: ReservedChange)
    requires r.index == Next(w.nextChange, r.kind) || r.index + 1 == Next(w.nextChange, r.kind)
    ensures IssueChange(w, r.kind, r.index).Ok? && Next(IssueChange(w, r.kind, r.index).value.nextChange, r.kind) == r.index + 1
  {
  }

  lemma FinishSigningKeeps(s: State, draft: string, torn: bool)
    requires Inv(s) && CanHappen(s, DoFinishSigning(draft, torn))
    ensures Inv(Step(s, DoFinishSigning(draft, torn)))
  {
    hide OneDraft, ReservedKnown, ActiveCovered, AccountsEnabled, SpentBacked, SpendsHold, SignedIssued, PassedAlone, HandedAlone;
    var t := Step(s, DoFinishSigning(draft, torn));
    var d := s.drafts[draft];
    var c := s.files.cache;
    if FinishSigning(s.files, d, torn).Ok? {
      if d.change.Some? && c.value.change.Some? {
        var r := c.value.change.value;
        IssueKeeps(s, r, torn);
        IssueChangeIsExact(s.files.wallet, r);
        if !torn {
          SigningKeeps(s.(files := t.files), draft);
        }
      } else if !torn {
        SigningKeeps(s, draft);
      }
    }
  }

  lemma CheckBroadcastKeeps(s: State, draft: string)
    requires Inv(s) && CanHappen(s, DoCheckBroadcast(draft))
    ensures Inv(Step(s, DoCheckBroadcast(draft)))
  {
    hide SpendsHold, SpentBacked;
    var d := s.drafts[draft];
    var t := Step(s, DoCheckBroadcast(draft));
    if CheckBroadcast(s.files, d).Ok? {
      var p :| p in d.inputs;
      assert p in s.files.cache.value.reserved;
      assert Active(s.files.cache, draft);
    }
  }

  lemma RecordKeeps(s: State, draft: string, txid: bytes)
    requires Inv(s) && CanHappen(s, DoRecord(draft, txid))
    ensures Inv(Step(s, DoRecord(draft, txid)))
  {
    if s.files.cache.Some? {
      var t := Step(s, DoRecord(draft, txid));
      assert s.drafts[draft].draft == draft && !HoldsChange(s.files.cache, draft);
      hide Inv, OneDraft, ReservedKnown, HasDraft;
      UnreservedQuiets(s, draft, t.files.cache.value);
      InvSpends(s);
      RecordKeepsSpends(s.files, s.history, s.drafts[draft], txid);
      RecordKeepsBacked(s.files, s.drafts[draft], txid);
      CacheQuiets(s, t.files.cache.value, t.history);
    }
  }

  lemma RecordKeepsBacked(f: Files, d: Funded, txid: bytes)
    requires SpentBacked(f.cache) && f.cache.Some?
    ensures SpentBacked(RecordBroadcast(f, d, txid).value.cache)
  {
  }

  lemma ManualChangeKeeps(s: State, kind: AddressType)
    requires Inv(s)
    ensures Inv(Step(s, DoManualChange(kind)))
  {
    var index := Next(s.files.wallet.nextChange, kind);
    if IssueManualChange(s.files, kind).Ok? {
      var w := IssueManualChange(s.files, kind).value.wallet;
      hide OneDraft, ReservedKnown, SpentBacked, SpendsHold, HasDraft;
      WalletGrows(s, w);
      HandedGrows(s.(files := s.files.(wallet := w)), (kind, index));
    }
  }

  /** An index nobody active or past the check carries may be handed out. */
  lemma HandedGrows(s: State, h: (AddressType, nat))
    requires Inv(s) && h.1 < Next(s.files.wallet.nextChange, h.0)
    requires forall d :: d in s.drafts && Carries(s.drafts[d], h.0, h.1) ==> !Active(s.files.cache, d) && d !in s.passed
    ensures Inv(s.(handed := s.handed + {h}))
  {
    hide OneDraft, ReservedKnown, SpentBacked, SpendsHold, HasDraft, ChangeCurrent, ActiveCovered, AccountsEnabled, WellFormed, Next;
  }

  lemma ReceiveKeeps(s: State, kind: AddressType)
    requires Inv(s)
    ensures Inv(Step(s, DoReceive(kind)))
  {
    hide OneDraft, ReservedKnown, SpentBacked, SpendsHold, HasDraft, ActiveCovered, SignedIssued, PassedAlone, HandedAlone;
    WalletGrows(s, IssueReceive(s.files, kind).wallet);
  }

  lemma DiscoverKeeps(s: State, kind: AddressType, received: nat, changed: nat)
    requires Inv(s)
    ensures Inv(Step(s, DoDiscover(kind, received, changed)))
  {
    hide OneDraft, ReservedKnown, SpentBacked, SpendsHold, HasDraft, ActiveCovered, SignedIssued, PassedAlone, HandedAlone;
    var r := CommitDiscovered(s.files, kind, received, changed);
    if r.Ok? {
      WalletGrows(s, r.value.wallet);
    }
  }

  lemma SyncKeeps(s: State, utxos: map<Outpoint, AddressType>, confirmed: set<bytes>)
    requires Inv(s) && CanHappen(s, DoSync(utxos, confirmed))
    ensures Inv(Step(s, DoSync(utxos, confirmed)))
  {
    var t := Step(s, DoSync(utxos, confirmed));
    SyncKeepsSpends(s.files, s.history, utxos, confirmed);
    assert SpentBacked(t.files.cache);
    if s.files.cache.Some? {
      assert forall d :: Active(t.files.cache, d) <==> Active(s.files.cache, d);
      assert Quieter(s, t.files.cache.value) by { hide ChangeCurrent, ActiveCovered, SignedIssued, PassedAlone, HandedAlone, SpendsHold, Enabled; }
      hide Inv, Quieter, SpendsHold, SpentBacked;
      CacheQuiets(s, t.files.cache.value, t.history);
    } else {
      hide SpendsHold, SpentBacked, Enabled, Next;
    }
  }

  lemma StepKeepsInv(s: State, a: Action)
    requires Inv(s) && CanHappen(s, a)
    ensures Inv(Step(s, a))
  {
    hide Inv, Step;
    match a
    case DoFund(draft, kind, selected, withChange) => assert draft !in s.drafts; FundKeeps(s, draft, kind, selected, withChange);
    case DoReserveChange(draft) => ReserveChangeKeeps(s, draft);
    case DoRelease(draft) => ReleaseKeeps(s, draft);
    case DoFinishSigning(draft, torn) => FinishSigningKeeps(s, draft, torn);
    case DoCheckBroadcast(draft) => CheckBroadcastKeeps(s, draft);
    case DoRecord(draft, txid) => RecordKeeps(s, draft, txid);
    case DoManualChange(kind) => ManualChangeKeeps(s, kind);
    case DoReceive(kind) => ReceiveKeeps(s, kind);
    case DoDiscover(kind, received, changed) => DiscoverKeeps(s, kind, received, changed);
    case DoSync(utxos, confirmed) => SyncKeeps(s, utxos, confirmed);
  }

  /** The draft invariant holds in every state of every run. */
  lemma {:induction false} RunKeepsInv(actions: seq<Action>, states: seq<State>, n: nat)
    requires IsRun(actions, states) && n < |states|
    ensures Inv(states[n])
  {
    if n > 0 {
      RunKeepsInv(actions, states, n - 1);
      StepKeepsInv(states[n - 1], actions[n - 1]);
      assert states[n - 1 + 1] == Step(states[n - 1], actions[n - 1]);
    }
  }

  // ----- What holds over every run -----

  /** No step takes back an issued index, a hand-out, a passed check or a finished document. */
  lemma StepMonotone(s: State, a: Action)
    requires Inv(s) && CanHappen(s, a)
    ensures forall kind :: Next(Step(s, a).files.wallet.nextChange, kind) >= Next(s.files.wallet.nextChange, kind)
    ensures s.passed <= Step(s, a).passed && s.handed <= Step(s, a).handed
    ensures forall d :: Documented(s, d) ==>
              Documented(Step(s, a), d) && Step(s, a).drafts[d] == s.drafts[d]
  {
    hide OneDraft, ReservedKnown, ActiveCovered, SpentBacked, SpendsHold, SignedIssued, PassedAlone, HandedAlone, ChangeCurrent;
  }

  lemma {:induction false} RunMonotone(actions: seq<Action>, states: seq<State>, i: nat, j: nat)
    requires IsRun(actions, states) && i <= j < |states|
    ensures forall kind :: Next(states[j].files.wallet.nextChange, kind) >= Next(states[i].files.wallet.nextChange, kind)
    ensures states[i].passed <= states[j].passed && states[i].handed <= states[j].handed
    ensures forall d :: Documented(states[i], d) ==> Documented(states[j], d) && states[j].drafts[d] == states[i].drafts[d]
  {
    if i < j {
      hide Inv, Step, Next;
      RunMonotone(actions, states, i, j - 1);
      RunKeepsInv(actions, states, j - 1);
      StepMonotone(states[j - 1], actions[j - 1]);
      assert states[j - 1 + 1] == Step(states[j - 1], actions[j - 1]);
    }
  }

  /**
   * Two drafts that pass the broadcast check, at any points of a run, never pay change to the same
   * index of the same account, nor to an index handed out by hand at any point.
   */
  lemma BroadcastChangeIsUnique(actions: seq<Action>, states: seq<State>, i: nat, j: nat, d: string, e: string)
    requires IsRun(actions, states) && i < |states| && j < |states|
    requires d in states[i].passed && e in states[j].passed && d != e
    ensures d in states[i].drafts && e in states[j].drafts && !SameChange(states[i].drafts[d], states[j].drafts[e])
  {
    var n := if i < j then j else i;
    RunKeepsInv(actions, states, i);
    RunKeepsInv(actions, states, j);
    RunKeepsInv(actions, states, n);
    RunMonotone(actions, states, i, n);
    RunMonotone(actions, states, j, n);
    hide IsRun, OneDraft, ReservedKnown, ActiveCovered, SpentBacked, SpendsHold, HandedAlone, ChangeCurrent;
  }

  lemma BroadcastChangeIsNotHandedOut(actions: seq<Action>, states: seq<State>, i: nat, j: nat, d: string, kind: AddressType, index: nat)
    requires IsRun(actions, states) && i < |states| && j < |states|
    requires d in states[i].passed && (kind, index) in states[j].handed
    ensures d in states[i].drafts && !Carries(states[i].drafts[d], kind, index)
  {
    var n := if i < j then j else i;
    RunKeepsInv(actions, states, i);
    RunKeepsInv(actions, states, n);
    RunMonotone(actions, states, i, n);
    RunMonotone(actions, states, j, n);
    hide IsRun, OneDraft, ReservedKnown, ActiveCovered, SpentBacked, SpendsHold, ChangeCurrent;
  }

  /** At most one draft is active; its change index is the next one, or was issued just before a crash. */
  lemma OneActiveDraft(actions: seq<Action>, states: seq<State>, n: nat, d: string, e: string)
    requires IsRun(actions, states) && n < |states|
    requires Active(states[n].files.cache, d) || HoldsChange(states[n].files.cache, d)
    requires Active(states[n].files.cache, e) || HoldsChange(states[n].files.cache, e)
    ensures d == e && Active(states[n].files.cache, d)
    ensures HoldsChange(states[n].files.cache, d) ==>
              var index := states[n].files.cache.value.change.value.index;
              var next := Next(states[n].files.wallet.nextChange, states[n].files.cache.value.change.value.kind);
              index == next || index + 1 == next
  {
    RunKeepsInv(actions, states, n);
  }

  /** Cancelling the active draft always makes room for the next one. */
  lemma CancelMakesRoom(actions: seq<Action>, states: seq<State>, n: nat, d: string)
    requires IsRun(actions, states) && n < |states|
    requires Active(states[n].files.cache, d) || HoldsChange(states[n].files.cache, d)
    ensures var g := Release(states[n].files, d); g.cache.Some? && g.cache.value.reserved == map[] && g.cache.value.change == None
  {
    RunKeepsInv(actions, states, n);
  }

  // ----- Reservations between the steps of a draft -----

  predicate Ends(a: Action, draft: string) {
    match a
    case DoRelease(d) => d == draft
    case DoRecord(d, _) => d == draft
    case _ => false
  }

  predicate ReservedBy(cache: Option<Cache>, p: Outpoint, draft: string) {
    cache.Some? && p in cache.value.reserved && cache.value.reserved[p] == draft
  }

  lemma RunLength(actions: seq<Action>, states: seq<State>)
    requires IsRun(actions, states)
    ensures |states| == |actions| + 1
  {
    hide Step, CanHappen;
  }

  lemma RunStep(actions: seq<Action>, states: seq<State>, k: nat)
    requires IsRun(actions, states) && k < |actions|
    ensures CanHappen(states[k], actions[k]) && states[k + 1] == Step(states[k], actions[k])
  {
    hide Step, CanHappen;
  }

  lemma StepKeepsReservation(s: State, a: Action, p: Outpoint, draft: string)
    requires Inv(s) && CanHappen(s, a) && ReservedBy(s.files.cache, p, draft) && !Ends(a, draft)
    ensures ReservedBy(Step(s, a).files.cache, p, draft)
  {
    hide OneDraft, ReservedKnown, ActiveCovered, SpentBacked, SpendsHold, SignedIssued, PassedAlone, HandedAlone, ChangeCurrent;
  }

  /** Over every stretch of a run only its own cancellation or recorded broadcast takes a reservation away; no sync does. */
  lemma {:induction false} ReservationSurvives(actions: seq<Action>, states: seq<State>, m: nat, n: nat, p: Outpoint, draft: string)
    requires IsRun(actions, states) && m <= n < |states| && ReservedBy(states[m].files.cache, p, draft)
    requires forall k :: m <= k < n ==> !Ends(actions[k], draft)
    ensures ReservedBy(states[n].files.cache, p, draft)
  {
    hide *;
    if m < n {
      RunLength(actions, states);
      ReservationSurvives(actions, states, m, n - 1, p, draft);
      var s, a := states[n - 1], actions[n - 1];
      RunStep(actions, states, n - 1);
      RunKeepsInv(actions, states, n - 1);
      StepKeepsReservation(s, a, p, draft);
    }
  }

  predicate EndsChange(a: Action, draft: string) {
    a == DoRelease(draft) || a == DoFinishSigning(draft, false)
  }

  predicate Holds(cache: Option<Cache>, r: ReservedChange) {
    cache.Some? && cache.value.change == Some(r)
  }

  lemma StepKeepsChange(s: State, a: Action, r: ReservedChange)
    requires Inv(s) && CanHappen(s, a) && Holds(s.files.cache, r) && !EndsChange(a, r.draft)
    ensures Holds(Step(s, a).files.cache, r)
  {
    hide OneDraft, ReservedKnown, ActiveCovered, SpentBacked, SpendsHold, PassedAlone, HandedAlone;
  }

  lemma {:induction false} ChangeStays(actions: seq<Action>, states: seq<State>, m: nat, n: nat, r: ReservedChange)
    requires IsRun(actions, states) && m <= n < |states| && Holds(states[m].files.cache, r)
    requires forall k :: m <= k < n ==> !EndsChange(actions[k], r.draft)
    ensures Holds(states[n].files.cache, r)
  {
    hide *;
    if m < n {
      RunLength(actions, states);
      ChangeStays(actions, states, m, n - 1, r);
      var s, a := states[n - 1], actions[n - 1];
      RunStep(actions, states, n - 1);
      RunKeepsInv(actions, states, n - 1);
      StepKeepsChange(s, a, r);
    }
  }

  /** Nor does anything but its own cancellation or finished signing take its change reservation away. */
  lemma ChangeReservationSurvives(actions: seq<Action>, states: seq<State>, m: nat, n: nat, draft: string)
    requires IsRun(actions, states) && m <= n < |states| && HoldsChange(states[m].files.cache, draft)
    requires forall k :: m <= k < n ==> !EndsChange(actions[k], draft)
    ensures HoldsChange(states[n].files.cache, draft) && states[n].files.cache.value.change == states[m].files.cache.value.change
  {
    hide IsRun;
    ChangeStays(actions, states, m, n, states[m].files.cache.value.change.value);
  }

  // ----- Signing over two lock sections -----

  /** An active, complete draft can finish signing, and its own change, if any is reserved, is the one reserved. */
  lemma ActiveFinishes(s: State, d: string, torn: bool)
    requires Inv(s) && Documented(s, d) && Active(s.files.cache, d)
    ensures FinishSigning(s.files, s.drafts[d], torn).Ok?
    ensures s.files.cache.value.change.Some? ==>
              s.drafts[d].change.Some? && s.files.cache.value.change.value == ReservedChange(d, s.drafts[d].kind, s.drafts[d].change.value)
  {
    hide ReservedKnown, SpentBacked, SpendsHold, SignedIssued, PassedAlone, HandedAlone;
    if s.files.cache.value.change.Some? {
      IssueChangeIsExact(s.files.wallet, s.files.cache.value.change.value);
    }
  }

  lemma CheckedIsActive(s: State, d: string)
    requires Inv(s) && Documented(s, d) && MaySign(s.files, s.drafts[d])
    ensures Active(s.files.cache, d) && forall p :: p in s.drafts[d].inputs ==> ReservedBy(s.files.cache, p, d)
  {
    hide OneDraft, ReservedKnown, ActiveCovered, SpentBacked, SpendsHold, SignedIssued, PassedAlone, HandedAlone, ChangeCurrent;
    var p :| p in s.drafts[d].inputs;
    assert ReservedBy(s.files.cache, p, d);
  }

  /** Once checked, a draft keeps its inputs and document until its own cancellation or recorded broadcast. */
  lemma CheckedStaysActive(actions: seq<Action>, states: seq<State>, m: nat, n: nat, d: string)
    requires IsRun(actions, states) && m <= n < |states|
    requires Documented(states[m], d) && MaySign(states[m].files, states[m].drafts[d])
    requires forall k :: m <= k < n ==> !Ends(actions[k], d)
    ensures Documented(states[n], d) && states[n].drafts[d] == states[m].drafts[d] && Active(states[n].files.cache, d)
    ensures forall p :: p in states[n].drafts[d].inputs ==> ReservedBy(states[n].files.cache, p, d)
  {
    RunKeepsInv(actions, states, m);
    CheckedIsActive(states[m], d);
    RunMonotone(actions, states, m, n);
    forall p | p in states[m].drafts[d].inputs ensures ReservedBy(states[n].files.cache, p, d) {
      ReservationSurvives(actions, states, m, n, p, d);
    }
    assert states[m].drafts[d].inputs != {};
    hide IsRun, Inv, MaySign, Documented;
    var p :| p in states[m].drafts[d].inputs;
    assert ReservedBy(states[n].files.cache, p, d);
  }

  /**
   * A draft that passed the first check of signing can finish it in a later lock section, whatever ran
   * between, as long as it was not cancelled and its broadcast not recorded.
   */
  lemma SigningFinishes(actions: seq<Action>, states: seq<State>, m: nat, n: nat, d: string, torn: bool)
    requires IsRun(actions, states) && m <= n < |states|
    requires Documented(states[m], d) && MaySign(states[m].files, states[m].drafts[d])
    requires forall k :: m <= k < n ==> !Ends(actions[k], d)
    ensures Documented(states[n], d) && states[n].drafts[d] == states[m].drafts[d]
    ensures FinishSigning(states[n].files, states[m].drafts[d], torn).Ok?
  {
    CheckedStaysActive(actions, states, m, n, d);
    RunKeepsInv(actions, states, n);
    hide IsRun, Inv, MaySign, FinishSigning;
    ActiveFinishes(states[n], d, torn);
  }

  /**
   * A crash between the wallet and the cache write is repaired by signing again at once: the second attempt
   * passes its check and leaves exactly what an uninterrupted one leaves; a third changes nothing.
   */
  lemma ResigningCompletes(actions: seq<Action>, states: seq<State>, n: nat, d: string)
    requires IsRun(actions, states) && n < |states|
    requires Documented(states[n], d) && MaySign(states[n].files, states[n].drafts[d])
    ensures
      var doc, f := states[n].drafts[d], states[n].files;
      var torn, whole := FinishSigning(f, doc, true), FinishSigning(f, doc, false);
      && torn.Ok? && whole.Ok? && MaySign(torn.value, doc)
      && FinishSigning(torn.value, doc, false) == whole
      && MaySign(whole.value, doc) && FinishSigning(whole.value, doc, false) == whole
      && Issued(whole.value.wallet, doc)
  {
    SigningFinishes(actions, states, n, n, d, false);
    RunKeepsInv(actions, states, n);
    var f := states[n].files;
    if f.cache.value.change.Some? {
      IssueChangeIsExact(f.wallet, f.cache.value.change.value);
    }
  }

  lemma FinishedIsIssued(s: State, d: string)
    requires Inv(s) && Documented(s, d) && Active(s.files.cache, d)
    ensures FinishSigning(s.files, s.drafts[d], true).Ok? && Issued(FinishSigning(s.files, s.drafts[d], true).value.wallet, s.drafts[d])
  {
    ActiveFinishes(s, d, true);
    hide OneDraft, ReservedKnown, ActiveCovered, SpentBacked, SpendsHold, SignedIssued, PassedAlone, HandedAlone;
  }

  /** What signing leaves when the draft is active and its change already issued: no change reserved, no index used up. */
  ghost predicate Completes(f: Files, d: Funded) {
    var whole := FinishSigning(f, d, false);
    && f.cache.Some? && whole.Ok? && whole.value == Files(f.wallet, Some(f.cache.value.(change := None)))
    && FinishSigning(whole.value, d, false) == whole
    && (MaySign(f, d) <==> forall p :: p in d.inputs ==> p in f.cache.value.utxos)
    && (MaySign(whole.value, d) <==> MaySign(f, d))
  }

  lemma IssuedCompletes(s: State, d: string)
    requires Inv(s) && Documented(s, d) && Active(s.files.cache, d) && Issued(s.files.wallet, s.drafts[d])
    requires forall p :: p in s.drafts[d].inputs ==> ReservedBy(s.files.cache, p, d)
    ensures Completes(s.files, s.drafts[d])
  {
    ActiveFinishes(s, d, false);
    assert s.drafts[d].draft == d;
    hide Inv, HasDraft;
  }

  /**
   * A crash between the two writes is repaired by signing again at any later time before the draft ends,
   * whatever ran between: the change index stays issued, the second attempt uses up no other one and
   * clears the reservation, a third changes nothing, and each passes the first check unless a sync
   * forgot one of the inputs.
   */
  lemma ResigningCompletesLater(actions: seq<Action>, states: seq<State>, l: nat, m: nat, n: nat, d: string)
    requires IsRun(actions, states) && l <= m < n < |states| && actions[m] == DoFinishSigning(d, true)
    requires Documented(states[l], d) && MaySign(states[l].files, states[l].drafts[d])
    requires forall k :: l <= k < n ==> !Ends(actions[k], d)
    ensures Issued(states[n].files.wallet, states[l].drafts[d]) && Completes(states[n].files, states[l].drafts[d])
  {
    CheckedStaysActive(actions, states, l, m, d);
    CheckedStaysActive(actions, states, l, n, d);
    RunKeepsInv(actions, states, m);
    RunKeepsInv(actions, states, n);
    FinishedIsIssued(states[m], d);
    assert states[m + 1] == Step(states[m], actions[m]);
    RunMonotone(actions, states, m + 1, n);
    hide IsRun, Inv, MaySign, FinishSigning, Active, Completes;
    assert states[m + 1].files == FinishSigning(states[m].files, states[m].drafts[d], true).value;
    IssuedCompletes(states[n], d);
  }

  /** A recorded spend blocks its coins from every later draft until some sync confirms its spender. */
  lemma RecordedSpendBlocks(actions: seq<Action>, states: seq<State>, n: nat, i: nat, p: Outpoint, draft: string,
      kind: AddressType, selected: set<Outpoint>)
    requires IsRun(actions, states) && n < |states| && i < |states[n].history|
    requires states[n].history[i].Recorded? && p in states[n].history[i].inputs && p in selected
    requires Fund(states[n].files, draft, kind, selected).Ok?
    ensures ConfirmedSince(states[n].history, i, p)
  {
    RunKeepsInv(actions, states, n);
    assert StillHeld(states[n].files.cache, states[n].history, i, p) || ConfirmedSince(states[n].history, i, p);
  }

  /** Recording hands every input over from its draft's reservation to the pending spend, and touches no other. */
  lemma RecordingMovesInputs(f: Files, d: Funded, txid: bytes)
    requires f.cache.Some?
    ensures
      var g := RecordBroadcast(f, d, txid);
      && g.Ok? && g.value.cache.Some? && g.value.wallet == f.wallet && !Active(g.value.cache, d.draft)
      && var c, e := f.cache.value, g.value.cache.value;
      && txid in e.pending && c.pending <= e.pending
      && (forall p :: p in d.inputs ==> p in e.spent && e.spent[p] == txid)
      && (forall p :: p in c.spent && p !in d.inputs ==> p in e.spent && e.spent[p] == c.spent[p])
      && (forall p :: p in c.reserved && c.reserved[p] != d.draft ==> p in e.reserved && e.reserved[p] == c.reserved[p])
  {
  }

  /** The change of a draft that passed the check has been issued: the later test of its address succeeds. */
  lemma BroadcastChangeIsIssued(actions: seq<Action>, states: seq<State>, n: nat, d: string)
    requires IsRun(actions, states) && n < |states| && d in states[n].passed
    ensures d in states[n].drafts && Documented(states[n], d) && Issued(states[n].files.wallet, states[n].drafts[d])
  {
    RunKeepsInv(actions, states, n);
    hide IsRun, OneDraft, ReservedKnown, ActiveCovered, SpentBacked, SpendsHold, HandedAlone, ChangeCurrent;
    assert d in states[n].signed;
  }
}
