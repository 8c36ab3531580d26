/** What every interleaving of the single-key lock sections keeps, and the safety that follows. */
module SingleKeySafety {
  import opened Wrappers
  import opened Bytes
  import opened Transactions
  import opened SingleKeyProtocol

  // ----- The invariant -----

  /** Every outpoint is blocked (reserved or pending-spent) by at most one wallet. */
  ghost predicate BlockedOnce(cache: map<string, Entry>) {
    forall a, b :: a in cache && b in cache && a != b ==> Blocked(cache[a]) !! Blocked(cache[b])
  }

  /** A pending-spent outpoint names a stored pending transaction that spends it. */
  ghost predicate SpentBacked(chain: Chain, e: Entry) {
    forall p :: p in e.spent ==> SpentHasPending(chain, e, p)
  }

  ghost predicate SpentHasPending(chain: Chain, e: Entry, p: Outpoint)
    requires p in e.spent
  {
    && e.spent[p].txid in e.pending && e.pending[e.spent[p].txid].document.txid == e.spent[p].txid
    && p in chain(e.spent[p].txid)
  }

  /** The cache entry outlived its wallet, or a wallet of the same name replaced it. */
  predicate Orphan(f: Files, name: string) {
    name in f.cache && (name in f.wallets ==> f.wallets[name] != f.cache[name].walletId)
  }

  /** No orphan has a pending spend, and no running broadcast could give it one. */
  ghost predicate OrphansIdle(f: Files, begun: set<Document>) {
    forall name :: Orphan(f, name) ==> OrphanIdle(f.cache[name], name, begun)
  }

  ghost predicate OrphanIdle(e: Entry, name: string, begun: set<Document>) {
    && e.spent == map[]
    && forall d, p :: d in begun && d.wallet == name && d.walletId == e.walletId && p in e.reservations ==>
         e.reservations[p].operation != d.operation
  }

  ghost predicate FilesInv(chain: Chain, f: Files, begun: set<Document>) {
    && BlockedOnce(f.cache)
    && (forall n :: n in f.cache ==> SpentBacked(chain, f.cache[n]))
    && OrphansIdle(f, begun)
  }

  ghost predicate IdsKnown(f: Files, walletIds: set<string>) {
    && (forall n :: n in f.wallets ==> f.wallets[n] in walletIds)
    && (forall n :: n in f.cache ==> f.cache[n].walletId in walletIds)
  }

  ghost predicate BegunKnown(chain: Chain, begun: set<Document>, operations: set<string>) {
    forall d :: d in begun ==> ValidDocument(chain, d) && d.operation in operations
  }

  predicate ClearedBetween(h: seq<Event>, i: int, j: int, p: Outpoint) {
    exists k :: 0 <= k < |h| && i < k < j && h[k].Cleared? && p in h[k].points
  }

  predicate HeldBy(e: Entry, p: Outpoint, d: Document) {
    p in e.spent && e.spent[p].txid == d.txid && d.txid in e.pending && e.pending[d.txid].document.hex == d.hex
  }

  /** Some wallet still blocks `p` for exactly this transaction and these bytes. */
  ghost predicate Held(cache: map<string, Entry>, p: Outpoint, d: Document) {
    exists n :: n in cache && HeldBy(cache[n], p, d)
  }

  /** A persisted intent keeps its inputs blocked until a sync clears them. */
  ghost predicate IntentsHold(cache: map<string, Entry>, h: seq<Event>) {
    forall i, p :: 0 <= i < |h| && h[i].Intent? && p in Points(h[i].doc) ==>
      ClearedBetween(h, i, |h|, p) || Held(cache, p, h[i].doc)
  }

  /** Two transactions, or two signed versions of one. */
  predicate Differ(a: Document, b: Document) {
    a.txid != b.txid || a.hex != b.hex
  }

  predicate Conflict(a: Event, b: Event, p: Outpoint) {
    a.Intent? && b.Intent? && p in Points(a.doc) && p in Points(b.doc) && Differ(a.doc, b.doc)
  }

  /** Two intents that share an input and differ in transaction or bytes have a clearing of that input between them. */
  ghost predicate IntentsSeparated(h: seq<Event>) {
    forall i, j, p :: 0 <= i < j < |h| && Conflict(h[i], h[j], p) ==> ClearedBetween(h, i, j, p)
  }

  predicate HasIntent(h: seq<Event>, j: int, d: Document) {
    exists i :: 0 <= i < |h| && i < j && h[i] == Intent(d)
  }

  /** Nothing is POSTed that was not persisted before, and intents are of valid documents. */
  ghost predicate HistoryLegal(chain: Chain, armed: set<Document>, h: seq<Event>) {
    && (forall d :: d in armed ==> HasIntent(h, |h|, d))
    && (forall j :: 0 <= j < |h| && h[j].Posted? ==> HasIntent(h, j, h[j].doc))
    && (forall i :: 0 <= i < |h| && h[i].Intent? ==> ValidDocument(chain, h[i].doc))
  }

  ghost predicate Inv(chain: Chain, s: State) {
    && FilesInv(chain, s.files, s.begun)
    && IdsKnown(s.files, s.walletIds)
    && BegunKnown(chain, s.begun, s.operations)
    && IntentsHold(s.files.cache, s.history) && IntentsSeparated(s.history)
    && HistoryLegal(chain, s.armed, s.history)
  }

  // ----- The history only grows -----

  lemma ClearedStays(h: seq<Event>, e: Event, i: int, j: int, p: Outpoint)
    requires j <= |h|
    ensures ClearedBetween(h + [e], i, j, p) == ClearedBetween(h, i, j, p)
    ensures ClearedBetween(h, i, j, p) ==> ClearedBetween(h + [e], i, j + 1, p)
  {
    var g := h + [e];
    assert forall k :: 0 <= k < |h| ==> g[k] == h[k];
    if ClearedBetween(h, i, j, p) {
      var k :| 0 <= k < |h| && i < k < j && h[k].Cleared? && p in h[k].points;
      assert g[k].Cleared? && p in g[k].points;
    }
  }

  lemma HasIntentStays(h: seq<Event>, e: Event, j: int, d: Document)
    requires HasIntent(h, j, d)
    ensures HasIntent(h + [e], j, d) && HasIntent(h + [e], j + 1, d)
  {
    var i :| 0 <= i < |h| && i < j && h[i] == Intent(d);
    assert (h + [e])[i] == Intent(d);
  }

  /** Appending an event keeps the history legal if the event itself is. */
  lemma HistoryGrows(chain: Chain, armed: set<Document>, h: seq<Event>, e: Event)
    requires HistoryLegal(chain, armed, h)
    requires e.Intent? ==> ValidDocument(chain, e.doc)
    requires e.Posted? ==> e.doc in armed
    ensures HistoryLegal(chain, if e.Intent? then armed + {e.doc} else armed, h + [e])
  {
    var g := h + [e];
    forall d | d in (if e.Intent? then armed + {e.doc} else armed) ensures HasIntent(g, |g|, d) {
      if d in armed {
        HasIntentStays(h, e, |h|, d);
      } else {
        assert g[|h|] == Intent(d);
      }
    }
    forall j | 0 <= j < |g| && g[j].Posted? ensures HasIntent(g, j, g[j].doc) {
      if j < |h| {
        HasIntentStays(h, e, j, h[j].doc);
      } else {
        HasIntentStays(h, e, |h|, e.doc);
      }
    }
  }

  /** Appending an event that conflicts with no intent still in force keeps intents separated. */
  lemma SeparationGrows(h: seq<Event>, e: Event)
    requires IntentsSeparated(h)
    requires forall i, p :: 0 <= i < |h| && Conflict(h[i], e, p) ==> ClearedBetween(h, i, |h|, p)
    ensures IntentsSeparated(h + [e])
  {
    var g := h + [e];
    forall i, j, p | 0 <= i < j < |g| && Conflict(g[i], g[j], p) ensures ClearedBetween(g, i, j, p) {
      ClearedStays(h, e, i, j, p);
      assert g[i] == h[i];
    }
  }

  /** What a section may do to the intents in force: give some up, but only what it reports cleared. */
  ghost predicate HeldKept(f: Files, g: Files, cleared: set<Outpoint>) {
    forall p, d :: Held(f.cache, p, d) && p !in cleared ==> Held(g.cache, p, d)
  }

  lemma HoldingGrows(f: Files, g: Files, h: seq<Event>, e: Event)
    requires IntentsHold(f.cache, h)
    requires HeldKept(f, g, if e.Cleared? then e.points else {})
    requires e.Intent? ==> forall p :: p in Points(e.doc) ==> Held(g.cache, p, e.doc)
    ensures IntentsHold(g.cache, h + [e])
  {
    var l := h + [e];
    forall i, p | 0 <= i < |l| && l[i].Intent? && p in Points(l[i].doc)
      ensures ClearedBetween(l, i, |l|, p) || Held(g.cache, p, l[i].doc)
    {
      if i < |h| {
        ClearedStays(h, e, i, |h|, p);
        if e.Cleared? && p in e.points {
          assert l[|h|] == e;
        }
      }
    }
  }

  // ----- What each section does to the files -----

  /** One entry changes, blocking nothing new and keeping its pending spends and their transactions. */
  predicate Shrinks(f: Files, g: Files, name: string) {
    && g.wallets == f.wallets && name in f.cache && name in g.cache
    && g.cache == f.cache[name := g.cache[name]]
    && EntryShrinks(f.cache[name], g.cache[name])
  }

  predicate EntryShrinks(e: Entry, e': Entry) {
    && e'.walletId == e.walletId && e'.spent == e.spent
    && e'.pending.Keys == e.pending.Keys && (forall t :: t in e.pending ==> e'.pending[t].document == e.pending[t].document)
    && (forall p :: p in e'.reservations ==> p in e.reservations && e'.reservations[p].operation == e.reservations[p].operation)
  }

  /** One entry is replaced by one that blocks nothing other wallets block and keeps the entry rules. */
  lemma ReplaceKeepsFiles(chain: Chain, f: Files, g: Files, name: string, begun: set<Document>)
    requires FilesInv(chain, f, begun) && name in g.cache && g == f.(cache := f.cache[name := g.cache[name]])
    requires forall n :: n in f.cache && n != name ==> Blocked(g.cache[name]) !! Blocked(f.cache[n])
    requires SpentBacked(chain, g.cache[name])
    requires Orphan(g, name) ==> OrphanIdle(g.cache[name], name, begun)
    ensures FilesInv(chain, g, begun)
  {
    hide Blocked, SpentBacked, OrphanIdle;
    forall n | Orphan(g, n) ensures OrphanIdle(g.cache[n], n, begun) {
      assert n != name ==> Orphan(f, n);
    }
  }

  /** What one entry goes on holding is still held. */
  lemma ReplaceKeepsHeld(f: Files, g: Files, name: string, cleared: set<Outpoint>)
    requires name in g.cache && g.cache == f.cache[name := g.cache[name]]
    requires name in f.cache ==>
               forall p, o :: HeldBy(f.cache[name], p, o) && p !in cleared ==> HeldBy(g.cache[name], p, o)
    ensures HeldKept(f, g, cleared)
  {
    hide HeldBy;
    forall p, o | Held(f.cache, p, o) && p !in cleared ensures Held(g.cache, p, o) {
      var n :| n in f.cache && HeldBy(f.cache[n], p, o);
      assert HeldBy(g.cache[n], p, o);
    }
  }

  lemma ShrinkKeepsFiles(chain: Chain, f: Files, g: Files, name: string, begun: set<Document>)
    requires FilesInv(chain, f, begun) && Shrinks(f, g, name)
    ensures FilesInv(chain, g, begun) && HeldKept(f, g, {})
  {
    var e, e' := f.cache[name], g.cache[name];
    assert Blocked(e') <= Blocked(e);
    forall p | p in e'.spent ensures SpentHasPending(chain, e', p) {
      assert SpentBacked(chain, e) && SpentHasPending(chain, e, p);
    }
    assert Orphan(g, name) ==> Orphan(f, name) && OrphanIdle(e, name, begun);
    ReplaceKeepsFiles(chain, f, g, name, begun);
    ReplaceKeepsHeld(f, g, name, {});
  }

  lemma CreateKeepsFiles(chain: Chain, f: Files, name: string, walletId: string, begun: set<Document>, walletIds: set<string>)
    requires FilesInv(chain, f, begun) && IdsKnown(f, walletIds) && walletId !in walletIds && name !in f.wallets
    ensures var g := Create(f, name, walletId).value; FilesInv(chain, g, begun) && HeldKept(f, g, {})
  {
    var g := Create(f, name, walletId).value;
    forall n | Orphan(g, n) ensures OrphanIdle(g.cache[n], n, begun) {
      assert Orphan(f, n);
    }
  }

  /** Reserving is refused for anything blocked anywhere, so the blocks stay disjoint. */
  lemma ReserveKeepsFiles(chain: Chain, f: Files, name: string, walletId: string, operation: string, selected: seq<Outpoint>, begun: set<Document>)
    requires FilesInv(chain, f, begun) && Reserve(f, name, walletId, operation, selected).Ok?
    requires forall d :: d in begun ==> d.operation != operation
    ensures var g := Reserve(f, name, walletId, operation, selected).value; FilesInv(chain, g, begun) && HeldKept(f, g, {})
  {
    var g := Reserve(f, name, walletId, operation, selected).value;
    var e, e' := f.cache[name], g.cache[name];
    forall n | n in f.cache && n != name ensures Blocked(e') !! Blocked(f.cache[n]) {
      assert Blocked(e) !! Blocked(f.cache[n]);
      assert forall p :: p in Blocked(e') ==> p in Blocked(e) || p !in Unavailable(f.cache);
    }
    forall p | p in e'.spent ensures SpentHasPending(chain, e', p) {
      assert SpentBacked(chain, e) && SpentHasPending(chain, e, p);
    }
    assert Orphan(g, name) ==> Orphan(f, name) && OrphanIdle(e, name, begun);
    ReplaceKeepsFiles(chain, f, g, name, begun);
    ReplaceKeepsHeld(f, g, name, {});
  }

  lemma {:induction false} RefusalExactly(e: Entry, d: Document, inputs: seq<Prevout>)
    ensures Refusal(e, d, inputs) == None <==> forall v :: v in inputs ==> StillReserved(e, d, v) && SameAttempt(e, d, v.point)
  {
    if inputs != [] {
      RefusalExactly(e, d, inputs[1..]);
      assert inputs == [inputs[0]] + inputs[1..];
    }
  }

  /** What an accepted intent says of each input. */
  predicate Acceptable(e: Entry, d: Document, p: Outpoint) {
    p in e.reservations && e.reservations[p].operation == d.operation && SameAttempt(e, d, p)
  }

  lemma IntendAccepted(f: Files, d: Document)
    requires Intend(f, d).Ok?
    ensures Matches(f, d.wallet, d.walletId) && Intend(f, d).value == f.(cache := f.cache[d.wallet := Intended(f.cache[d.wallet], d)])
    ensures forall p :: p in Points(d) ==> Acceptable(f.cache[d.wallet], d, p)
  {
    var e := f.cache[d.wallet];
    RefusalExactly(e, d, d.inputs);
    forall p | p in Points(d) ensures Acceptable(e, d, p) {
      var v :| v in d.inputs && v.point == p;
      assert StillReserved(e, d, v);
    }
  }

  /** An orphan never accepts an intent: its operations are unknown to every running broadcast. */
  lemma OrphanRefuses(chain: Chain, f: Files, d: Document, begun: set<Document>)
    requires FilesInv(chain, f, begun) && Intend(f, d).Ok? && d in begun && d.inputs != []
    ensures !Orphan(f, d.wallet)
  {
    IntendAccepted(f, d);
    assert d.inputs[0].point in Points(d);
    assert Acceptable(f.cache[d.wallet], d, d.inputs[0].point);
    assert Orphan(f, d.wallet) ==> OrphanIdle(f.cache[d.wallet], d.wallet, begun);
  }

  lemma IntendedEntry(chain: Chain, e: Entry, d: Document)
    requires SpentBacked(chain, e) && ValidDocument(chain, d) && forall p :: p in Points(d) ==> Acceptable(e, d, p)
    ensures SpentBacked(chain, Intended(e, d)) && Blocked(Intended(e, d)) == Blocked(e)
    ensures forall p :: p in Points(d) ==> HeldBy(Intended(e, d), p, d)
    ensures forall p, o :: HeldBy(e, p, o) ==> HeldBy(Intended(e, d), p, o)
  {
    var e' := Intended(e, d);
    forall p | p in e'.spent ensures SpentHasPending(chain, e', p) {
      assert p in e.spent ==> SpentHasPending(chain, e, p);
    }
    forall p, o | HeldBy(e, p, o) ensures HeldBy(e', p, o) {
      assert SpentHasPending(chain, e, p);
      assert p in Points(d) ==> Acceptable(e, d, p);
    }
  }

  /**
   * A persisted intent: its inputs are now held by it, every intent in force stays in force, and
   * any intent in force on one of its inputs was for the same bytes.
   */
  lemma IntendKeepsFiles(chain: Chain, f: Files, d: Document, begun: set<Document>)
    requires FilesInv(chain, f, begun) && Intend(f, d).Ok? && d in begun && ValidDocument(chain, d)
    ensures FilesInv(chain, Intend(f, d).value, begun) && HeldKept(f, Intend(f, d).value, {})
    ensures forall p :: p in Points(d) ==> Held(Intend(f, d).value.cache, p, d)
    ensures forall p, o :: p in Points(d) && Held(f.cache, p, o) ==> !Differ(o, d)
  {
    var g := Intend(f, d).value;
    IntendAccepted(f, d);
    OrphanRefuses(chain, f, d, begun);
    IntendedEntry(chain, f.cache[d.wallet], d);
    hide Intend, Intended;
    ReplaceKeepsFiles(chain, f, g, d.wallet, begun);
    ReplaceKeepsHeld(f, g, d.wallet, {});
    forall p, o | p in Points(d) && Held(f.cache, p, o) ensures !Differ(o, d) {
      var n :| n in f.cache && HeldBy(f.cache[n], p, o);
      assert Acceptable(f.cache[d.wallet], d, p);
      assert p in Blocked(f.cache[n]) && p in Blocked(f.cache[d.wallet]);
      assert n == d.wallet;
    }
    forall p | p in Points(d) ensures Held(g.cache, p, d) {
      assert HeldBy(g.cache[d.wallet], p, d);
    }
  }

  lemma MergedEntry(chain: Chain, e: Entry, s: Snapshot)
    requires SpentBacked(chain, e)
    ensures var e' := Entry(e.walletId, s.utxos, Unresolved(e, s.history), Observed(e.pending, s.history), StillSpent(e, s));
      && SpentBacked(chain, e') && Blocked(e') <= Blocked(e)
      && forall p, o :: HeldBy(e, p, o) && p in StillSpent(e, s) ==> HeldBy(e', p, o)
  {
    var e' := Entry(e.walletId, s.utxos, Unresolved(e, s.history), Observed(e.pending, s.history), StillSpent(e, s));
    forall p | p in e'.spent ensures SpentHasPending(chain, e', p) {
      assert SpentHasPending(chain, e, p);
    }
  }

  /** A merge gives up only the pending spends it reports; a replaced entry had none to lose. */
  lemma MergeKeepsFiles(chain: Chain, f: Files, name: string, walletId: string, s: Snapshot, begun: set<Document>)
    requires FilesInv(chain, f, begun) && Merge(f, name, walletId, s).Ok?
    ensures FilesInv(chain, Merge(f, name, walletId, s).value, begun)
    ensures HeldKept(f, Merge(f, name, walletId, s).value, ClearedBy(f, name, walletId, s))
  {
    var g := Merge(f, name, walletId, s).value;
    if Matches(f, name, walletId) {
      MergedEntry(chain, f.cache[name], s);
      hide Unresolved, Observed, StillSpent;
    } else {
      assert name in f.cache ==> Orphan(f, name) && OrphanIdle(f.cache[name], name, begun);
    }
    ReplaceKeepsFiles(chain, f, g, name, begun);
    ReplaceKeepsHeld(f, g, name, ClearedBy(f, name, walletId, s));
  }

  /** Removal, torn or not, happens only when nothing is blocked, so it loses nothing. */
  lemma RemoveKeepsFiles(chain: Chain, f: Files, name: string, torn: bool, begun: set<Document>)
    requires FilesInv(chain, f, begun) && Remove(f, name, torn).Ok?
    ensures var g := Remove(f, name, torn).value; FilesInv(chain, g, begun) && HeldKept(f, g, {})
  {
    var g := Remove(f, name, torn).value;
    forall a, b | a in g.cache && b in g.cache && a != b ensures Blocked(g.cache[a]) !! Blocked(g.cache[b]) {
      assert Blocked(f.cache[a]) !! Blocked(f.cache[b]);
    }
    forall n | Orphan(g, n) ensures OrphanIdle(g.cache[n], n, begun) {
      if n == name {
        assert g.cache[n] == f.cache[n] && Blocked(f.cache[n]) == {};
        assert f.cache[n].spent.Keys <= Blocked(f.cache[n]) && f.cache[n].reservations.Keys <= Blocked(f.cache[n]);
        assert f.cache[n].spent == map[];
      } else {
        assert Orphan(f, n) && OrphanIdle(f.cache[n], n, begun);
      }
    }
    forall p, o | Held(f.cache, p, o) ensures Held(g.cache, p, o) {
      var n :| n in f.cache && HeldBy(f.cache[n], p, o);
      assert p in Blocked(f.cache[n]);
      assert HeldBy(g.cache[n], p, o);
    }
  }

  // ----- Every step, every run -----

  lemma HoldingSame(f: Files, g: Files, h: seq<Event>)
    requires IntentsHold(f.cache, h) && HeldKept(f, g, {})
    ensures IntentsHold(g.cache, h)
  {
  }

  lemma QuietStepKeepsInv(chain: Chain, s: State, a: Action)
    requires Inv(chain, s) && Enabled(chain, s, a)
    requires a.DoCreate? || a.DoReserve? || a.DoRelease? || a.DoCancel? || a.DoSettle? || a.DoRemove? || a.DoBegin?
    ensures Inv(chain, Step(s, a))
  {
    var f, g := s.files, Step(s, a).files;
    match a
    case DoCreate(name, walletId) =>
      if name !in f.wallets {
        CreateKeepsFiles(chain, f, name, walletId, s.begun, s.walletIds);
        HoldingSame(f, g, s.history);
      }
    case DoReserve(name, walletId, operation, selected) =>
      if Reserve(f, name, walletId, operation, selected).Ok? {
        ReserveKeepsFiles(chain, f, name, walletId, operation, selected, s.begun);
        HoldingSame(f, g, s.history);
      }
    case DoRelease(name, operation) =>
      if name in f.cache {
        ShrinkKeepsFiles(chain, f, g, name, s.begun);
        HoldingSame(f, g, s.history);
      }
    case DoCancel(name, walletId, operation) =>
      if Cancel(f, name, walletId, operation).Ok? {
        ShrinkKeepsFiles(chain, f, g, name, s.begun);
        HoldingSame(f, g, s.history);
      }
    case DoSettle(d) =>
      if Settle(f, d).Ok? {
        ShrinkKeepsFiles(chain, f, g, d.wallet, s.begun);
        HoldingSame(f, g, s.history);
      }
    case DoRemove(name, torn) =>
      if Remove(f, name, torn).Ok? {
        RemoveKeepsFiles(chain, f, name, torn, s.begun);
        HoldingSame(f, g, s.history);
      }
    case DoBegin(d) =>
      BeginKeepsFiles(chain, f, s.begun, d);
  }

  /** A broadcast that starts now reads a live wallet, so no orphan is its target. */
  lemma BeginKeepsFiles(chain: Chain, f: Files, begun: set<Document>, d: Document)
    requires FilesInv(chain, f, begun) && d.wallet in f.wallets && f.wallets[d.wallet] == d.walletId
    ensures FilesInv(chain, f, begun + {d})
  {
    forall n | Orphan(f, n) ensures OrphanIdle(f.cache[n], n, begun + {d}) {
      assert OrphanIdle(f.cache[n], n, begun);
    }
  }

  lemma StepKeepsInv(chain: Chain, s: State, a: Action)
    requires Inv(chain, s) && Enabled(chain, s, a)
    ensures Inv(chain, Step(s, a))
  {
    var f, g, h := s.files, Step(s, a).files, s.history;
    match a
    case DoIntend(d) =>
      if Intend(f, d).Ok? {
        IntendKeepsFiles(chain, f, d, s.begun);
        HoldingGrows(f, g, h, Intent(d));
        HistoryGrows(chain, s.armed, h, Intent(d));
        SeparationGrows(h, Intent(d));
      }
    case DoPost(d) =>
      HoldingGrows(f, f, h, Posted(d));
      HistoryGrows(chain, s.armed, h, Posted(d));
      SeparationGrows(h, Posted(d));
    case DoMerge(name, walletId, snapshot) =>
      if Merge(f, name, walletId, snapshot).Ok? {
        MergeKeepsFiles(chain, f, name, walletId, snapshot, s.begun);
        var e := Cleared(ClearedBy(f, name, walletId, snapshot));
        HoldingGrows(f, g, h, e);
        HistoryGrows(chain, s.armed, h, e);
        SeparationGrows(h, e);
      }
    case _ =>
      QuietStepKeepsInv(chain, s, a);
  }

  lemma {:induction false} RunKeepsInv(chain: Chain, actions: seq<Action>, states: seq<State>, i: nat)
    requires IsRun(chain, actions, states) && i < |states|
    ensures Inv(chain, states[i])
  {
    if i > 0 {
      RunKeepsInv(chain, actions, states, i - 1);
      StepKeepsInv(chain, states[i - 1], actions[i - 1]);
    }
  }

  // ----- What follows for every run -----

  /** The intents of two documents, with a clearing of `p` between them, whichever came first. */
  ghost predicate ClearedBetweenIntents(h: seq<Event>, a: Document, before: int, b: Document, until: int, p: Outpoint) {
    exists i, j :: 0 <= i < |h| && i < before && 0 <= j < |h| && j < until && h[i] == Intent(a) && h[j] == Intent(b)
      && (ClearedBetween(h, i, j, p) || ClearedBetween(h, j, i, p))
  }

  lemma SeparatedIntents(h: seq<Event>, a: nat, b: nat, p: Outpoint)
    requires IntentsSeparated(h) && a < |h| && b < |h| && h[a].Posted? && h[b].Posted?
    requires HasIntent(h, a, h[a].doc) && HasIntent(h, b, h[b].doc)
    requires p in Points(h[a].doc) && p in Points(h[b].doc) && Differ(h[a].doc, h[b].doc)
    ensures ClearedBetweenIntents(h, h[a].doc, a, h[b].doc, b, p)
  {
    var i :| 0 <= i < |h| && i < a && h[i] == Intent(h[a].doc);
    var j :| 0 <= j < |h| && j < b && h[j] == Intent(h[b].doc);
    hide ClearedBetween, Points;
    if i < j {
      assert Conflict(h[i], h[j], p);
    } else {
      assert Conflict(h[j], h[i], p);
    }
  }

  /**
   * Whatever is POSTed was persisted first; and if two POSTs share an input but are of two transactions,
   * or of two versions of one that differ in bytes, a sync cleared that input between their intents.
   */
  lemma PostsAreSafe(chain: Chain, actions: seq<Action>, states: seq<State>, a: nat, b: nat, p: Outpoint)
    requires IsRun(chain, actions, states)
    requires var h := states[|actions|].history;
      a < |h| && b < |h| && h[a].Posted? && h[b].Posted?
      && p in Points(h[a].doc) && p in Points(h[b].doc) && Differ(h[a].doc, h[b].doc)
    ensures var h := states[|actions|].history;
      && HasIntent(h, a, h[a].doc) && HasIntent(h, b, h[b].doc)
      && ClearedBetweenIntents(h, h[a].doc, a, h[b].doc, b, p)
  {
    RunKeepsInv(chain, actions, states, |actions|);
    var h := states[|actions|].history;
    hide IsRun, FilesInv, IdsKnown, BegunKnown, IntentsHold, IntentsSeparated, HasIntent, ClearedBetweenIntents, Differ;
    SeparatedIntents(h, a, b, p);
  }

  /** Two POSTs of one transaction id carry the same bytes unless every input was cleared between. */
  lemma PostsOfOneTransaction(chain: Chain, actions: seq<Action>, states: seq<State>, a: nat, b: nat)
    requires IsRun(chain, actions, states)
    requires var h := states[|actions|].history;
      a < |h| && b < |h| && h[a].Posted? && h[b].Posted? && h[a].doc.txid == h[b].doc.txid
    ensures var h := states[|actions|].history;
      h[a].doc.hex == h[b].doc.hex
      || forall p :: p in chain(h[a].doc.txid) ==> ClearedBetweenIntents(h, h[a].doc, a, h[b].doc, b, p)
  {
    RunKeepsInv(chain, actions, states, |actions|);
    var h := states[|actions|].history;
    var i :| 0 <= i < |h| && i < a && h[i] == Intent(h[a].doc);
    var j :| 0 <= j < |h| && j < b && h[j] == Intent(h[b].doc);
    assert Points(h[i].doc) == chain(h[a].doc.txid) == Points(h[j].doc);
    if h[a].doc.hex != h[b].doc.hex {
      forall p | p in chain(h[a].doc.txid) ensures ClearedBetweenIntents(h, h[a].doc, a, h[b].doc, b, p) {
        PostsAreSafe(chain, actions, states, a, b, p);
      }
    }
  }

  /** In every reachable state a persisted intent's input is offered to no selection until a sync clears it. */
  lemma IntentBlocksInputs(chain: Chain, actions: seq<Action>, states: seq<State>, i: nat, p: Outpoint)
    requires IsRun(chain, actions, states)
    requires var h := states[|actions|].history; i < |h| && h[i].Intent? && p in Points(h[i].doc)
    ensures var s := states[|actions|];
      ClearedBetween(s.history, i, |s.history|, p) || p in Unavailable(s.files.cache)
  {
    RunKeepsInv(chain, actions, states, |actions|);
    var s := states[|actions|];
    if Held(s.files.cache, p, s.history[i].doc) {
      var n :| n in s.files.cache && HeldBy(s.files.cache[n], p, s.history[i].doc);
      assert p in Blocked(s.files.cache[n]);
    }
  }

  /**
   * Exactly when a merge into a matching entry frees an outpoint: nothing of it remains reserved
   * (each operation reserving it is resolved by the fetched history) and nothing pending-spent
   * (its spender is in the history and the coin is not among the fetched coins).
   */
  lemma MergeFreesExactly(f: Files, name: string, walletId: string, s: Snapshot, p: Outpoint)
    requires Merge(f, name, walletId, s).Ok? && Matches(f, name, walletId) && p in Blocked(f.cache[name])
    ensures var e := f.cache[name];
      p !in Blocked(Merge(f, name, walletId, s).value.cache[name]) <==>
        && (p in e.spent ==> p !in s.utxos && e.spent[p].txid in s.history)
        && (p in e.reservations ==>
              exists t :: t in s.history && t in e.pending && e.pending[t].operation == e.reservations[p].operation)
  {
  }

  /** After an intent: the same bytes may be retried, other bytes on its inputs are refused, and it cannot be cancelled. */
  lemma AfterIntent(f: Files, d: Document, o: Document)
    requires Intend(f, d).Ok? && d.inputs != []
    ensures var g := Intend(f, d).value;
      && Intend(g, d).Ok?
      && Cancel(g, d.wallet, d.walletId, d.operation) == Err(BroadcastAttempted)
      && (o.wallet == d.wallet && Points(o) * Points(d) != {} && Differ(o, d) ==> Intend(g, o).Err?)
  {
    var g := Intend(f, d).value;
    var e, e' := f.cache[d.wallet], g.cache[d.wallet];
    RefusalExactly(e, d, d.inputs);
    forall v | v in d.inputs ensures StillReserved(e', d, v) && SameAttempt(e', d, v.point) {
      assert StillReserved(e, d, v) && v.point in Points(d);
    }
    RefusalExactly(e', d, d.inputs);
    var first := d.inputs[0].point;
    assert first in Points(d) && StillReserved(e, d, d.inputs[0]);
    var matching := map p | p in e'.reservations && e'.reservations[p].operation == d.operation :: e'.reservations[p];
    assert first in matching && matching[first].attempted;
    if o.wallet == d.wallet && Points(o) * Points(d) != {} && Differ(o, d) {
      var p :| p in Points(o) && p in Points(d);
      var v :| v in o.inputs && v.point == p;
      assert !SameAttempt(e', o, v.point);
      RefusalExactly(e', o, o.inputs);
    }
  }

  /** Cancelling or releasing a draft that was only reserved puts the files back as they were. */
  lemma CancelUndoesReserve(f: Files, name: string, walletId: string, operation: string, selected: seq<Outpoint>)
    requires Reserve(f, name, walletId, operation, selected).Ok? && selected != []
    requires forall p :: p in f.cache[name].reservations ==> f.cache[name].reservations[p].operation != operation
    ensures
      var g := Reserve(f, name, walletId, operation, selected).value;
      Cancel(g, name, walletId, operation) == Ok(f) && Release(g, name, operation) == Ok(f)
  {
    var e := f.cache[name];
    var g := Reserve(f, name, walletId, operation, selected).value;
    var e' := g.cache[name];
    forall p | p in e.reservations ensures p in Unavailable(f.cache) {
      assert p in Blocked(e);
    }
    assert selected[0] in selected && selected[0] in e'.reservations;
    var matching := map p | p in e'.reservations && e'.reservations[p].operation == operation :: e'.reservations[p];
    assert selected[0] in matching;
    assert WithoutOperation(e'.reservations, operation) == e.reservations;
    assert g.cache[name := e] == f.cache;
  }

  /** A broadcast that was answered gives its reservations back but keeps every pending spend. */
  lemma SettleKeepsSpends(f: Files, d: Document)
    requires Settle(f, d).Ok?
    ensures
      var e, e' := f.cache[d.wallet], Settle(f, d).value.cache[d.wallet];
      && e'.spent == e.spent && e'.pending.Keys == e.pending.Keys && e'.pending[d.txid].status == Broadcast
      && (forall p :: p in e'.reservations <==> p in e.reservations && e.reservations[p].operation != d.operation)
      && (d.inputs != [] && (forall v :: v in d.inputs ==> v.point in e.spent) ==> Intend(Settle(f, d).value, d).Err?)
  {
    var g := Settle(f, d).value;
    if d.inputs != [] {
      assert d.inputs[0] in d.inputs;
    }
  }

  /** Once a sync has seen a transaction, its bytes are not offered for another broadcast attempt. */
  lemma SeenIsNotRetried(f: Files, d: Document, s: Snapshot)
    requires Merge(f, d.wallet, d.walletId, s).Ok? && Matches(f, d.wallet, d.walletId) && d.txid in s.history
    requires d.inputs != [] && d.txid in f.cache[d.wallet].pending
    requires f.cache[d.wallet].pending[d.txid].operation == d.operation
    ensures Intend(Merge(f, d.wallet, d.walletId, s).value, d).Err?
  {
    var e := f.cache[d.wallet];
    var kept := Unresolved(e, s.history);
    forall p | p in kept ensures kept[p].operation != d.operation {
      assert d.txid in s.history && d.txid in e.pending;
    }
  }
}
