/**
 * The order of POSTs themselves. A POST happens outside the lock, so it can be arbitrarily late; when
 * POSTs of conflicting documents still have a clearing sync between them, and exactly when not.
 */
module SingleKeyPosts {
  import opened Wrappers
  import opened Bytes
  import opened Transactions
  import opened SingleKeyProtocol
  import opened SingleKeySafety

  // ----- Prompt POSTs are ordered -----

  predicate LiveIntentAt(h: seq<Event>, i: int, until: int, p: Outpoint, d: Document) {
    0 <= i < |h| && i < until && h[i].Intent? && !Differ(h[i].doc, d) && p in Points(h[i].doc) && !ClearedBetween(h, i, until, p)
  }

  /** An intent of these bytes on `p` was persisted and no sync cleared `p` since. */
  ghost predicate Live(h: seq<Event>, until: int, p: Outpoint, d: Document) {
    exists i :: LiveIntentAt(h, i, until, p, d)
  }

  /** The POST at `a` came before any sync cleared `p` of its intent. */
  ghost predicate Prompt(h: seq<Event>, a: nat, p: Outpoint) {
    a < |h| && h[a].Posted? && Live(h, a, p, h[a].doc)
  }

  lemma PromptHistoryIsOrdered(h: seq<Event>, a: nat, b: nat, p: Outpoint)
    requires IntentsSeparated(h) && a < b && Prompt(h, a, p) && Prompt(h, b, p) && Differ(h[a].doc, h[b].doc)
    ensures ClearedBetween(h, a, b, p)
  {
    var i :| LiveIntentAt(h, i, a, p, h[a].doc);
    var j :| LiveIntentAt(h, j, b, p, h[b].doc);
    ClearedWider(h, j, i, b, p);
    assert j < i ==> Conflict(h[j], h[i], p);
    assert i < j && Conflict(h[i], h[j], p);
    var k :| 0 <= k < |h| && i < k < j && h[k].Cleared? && p in h[k].points;
    assert k > a;
  }

  lemma ClearedWider(h: seq<Event>, i: int, j: int, until: int, p: Outpoint)
    ensures ClearedBetween(h, i, j, p) && j <= until ==> ClearedBetween(h, i, until, p)
  {
  }

  /**
   * Over every run: of two POSTs that share an input and differ in transaction or bytes, each made
   * before a sync cleared that input of its intent, the later follows a sync that cleared it after the earlier.
   */
  lemma PromptPostsAreOrdered(chain: Chain, actions: seq<Action>, states: seq<State>, a: nat, b: nat, p: Outpoint)
    requires IsRun(chain, actions, states)
    requires var h := states[|actions|].history; a < b && Prompt(h, a, p) && Prompt(h, b, p) && Differ(h[a].doc, h[b].doc)
    ensures ClearedBetween(states[|actions|].history, a, b, p)
  {
    RunKeepsInv(chain, actions, states, |actions|);
    hide IsRun, FilesInv, IdsKnown, BegunKnown, IntentsHold, HistoryLegal, Prompt, Differ, ClearedBetween, IntentsSeparated;
    PromptHistoryIsOrdered(states[|actions|].history, a, b, p);
  }

  // ----- Promptness can be checked before the POST -----

  /** Whatever a wallet holds, an intent not cleared since accounts for it. */
  ghost predicate HeldIsLive(cache: map<string, Entry>, h: seq<Event>) {
    forall p, d :: Held(cache, p, d) ==> Live(h, |h|, p, d)
  }

  /** A stored transaction was persisted as an intent. */
  ghost predicate PendingArmed(cache: map<string, Entry>, armed: set<Document>) {
    forall n, t :: n in cache && t in cache[n].pending ==> cache[n].pending[t].document in armed
  }

  lemma LiveGrows(h: seq<Event>, e: Event, p: Outpoint, d: Document)
    requires Live(h, |h|, p, d) && !(e.Cleared? && p in e.points)
    ensures Live(h + [e], |h| + 1, p, d)
  {
    var i :| LiveIntentAt(h, i, |h|, p, d);
    var g := h + [e];
    forall k | 0 <= k < |g| && i < k && g[k].Cleared? ensures p !in g[k].points {
      if k < |h| {
        assert h[k] == g[k];
      }
    }
    assert LiveIntentAt(g, i, |g|, p, d);
  }

  /** A section that holds nothing new and reports what it gives up. */
  ghost predicate HeldBefore(f: Files, g: Files, cleared: set<Outpoint>) {
    forall p, d :: Held(g.cache, p, d) ==> Held(f.cache, p, d) && p !in cleared
  }

  lemma EventKeepsLive(f: Files, g: Files, h: seq<Event>, e: Event)
    requires HeldIsLive(f.cache, h) && HeldBefore(f, g, if e.Cleared? then e.points else {})
    ensures HeldIsLive(g.cache, h + [e])
  {
    forall p, d | Held(g.cache, p, d) ensures Live(h + [e], |h + [e]|, p, d) {
      LiveGrows(h, e, p, d);
    }
  }

  lemma ReplacedHeldBefore(f: Files, g: Files, name: string)
    requires name in g.cache && g.cache == f.cache[name := g.cache[name]]
    requires forall p, d :: HeldBy(g.cache[name], p, d) ==> name in f.cache && HeldBy(f.cache[name], p, d)
    ensures HeldBefore(f, g, {})
  {
    hide HeldBy;
    forall p, d | Held(g.cache, p, d) ensures Held(f.cache, p, d) {
      var n :| n in g.cache && HeldBy(g.cache[n], p, d);
      assert n in f.cache && HeldBy(f.cache[n], p, d);
    }
  }

  lemma ShrinkHeldBefore(f: Files, g: Files, name: string)
    requires Shrinks(f, g, name)
    ensures HeldBefore(f, g, {})
  {
    ReplacedHeldBefore(f, g, name);
  }

  lemma MergeHeldBefore(f: Files, name: string, walletId: string, s: Snapshot)
    requires BlockedOnce(f.cache) && Merge(f, name, walletId, s).Ok?
    ensures HeldBefore(f, Merge(f, name, walletId, s).value, ClearedBy(f, name, walletId, s))
  {
    var g := Merge(f, name, walletId, s).value;
    forall p, d | Held(g.cache, p, d) ensures Held(f.cache, p, d) && p !in ClearedBy(f, name, walletId, s) {
      var n :| n in g.cache && HeldBy(g.cache[n], p, d);
      if n != name {
        assert HeldBy(f.cache[n], p, d) && p in Blocked(f.cache[n]);
        assert p in ClearedBy(f, name, walletId, s) ==> p in Blocked(f.cache[name]);
      } else {
        assert HeldBy(f.cache[name], p, d);
      }
    }
  }

  lemma IntendHeldBefore(chain: Chain, f: Files, d: Document, begun: set<Document>, p: Outpoint, o: Document)
    requires FilesInv(chain, f, begun) && Intend(f, d).Ok? && ValidDocument(chain, d) && Held(Intend(f, d).value.cache, p, o)
    ensures Held(f.cache, p, o) || (p in Points(d) && !Differ(d, o))
  {
    IntendAccepted(f, d);
    var e, g := f.cache[d.wallet], Intend(f, d).value;
    var n :| n in g.cache && HeldBy(g.cache[n], p, o);
    if n != d.wallet {
      assert HeldBy(f.cache[n], p, o);
    } else if p !in Points(d) {
      assert SpentBacked(chain, e) && SpentHasPending(chain, e, p);
      assert HeldBy(e, p, o);
    }
  }

  lemma IntendKeepsLive(chain: Chain, f: Files, d: Document, begun: set<Document>, h: seq<Event>)
    requires FilesInv(chain, f, begun) && Intend(f, d).Ok? && ValidDocument(chain, d) && HeldIsLive(f.cache, h)
    ensures HeldIsLive(Intend(f, d).value.cache, h + [Intent(d)])
  {
    var g, l := Intend(f, d).value, h + [Intent(d)];
    hide Intend, FilesInv, Held;
    forall p, o | Held(g.cache, p, o) ensures Live(l, |l|, p, o) {
      IntendHeldBefore(chain, f, d, begun, p, o);
      if Held(f.cache, p, o) {
        LiveGrows(h, Intent(d), p, o);
      } else {
        assert l[|h|] == Intent(d);
        assert LiveIntentAt(l, |h|, |l|, p, o);
      }
    }
  }

  lemma QuietHeldBefore(chain: Chain, s: State, a: Action)
    requires Enabled(chain, s, a)
    requires a.DoCreate? || a.DoReserve? || a.DoRelease? || a.DoCancel? || a.DoSettle? || a.DoRemove? || a.DoBegin?
    ensures HeldBefore(s.files, Step(s, a).files, {}) && Step(s, a).history == s.history
  {
    var f, g := s.files, Step(s, a).files;
    match a
    case DoReserve(name, walletId, operation, selected) =>
      if Reserve(f, name, walletId, operation, selected).Ok? {
        ReplacedHeldBefore(f, g, name);
      }
    case DoRelease(name, operation) =>
      if name in f.cache {
        ShrinkHeldBefore(f, g, name);
      }
    case DoCancel(name, walletId, operation) =>
      if Cancel(f, name, walletId, operation).Ok? {
        ShrinkHeldBefore(f, g, name);
      }
    case DoSettle(d) =>
      if Settle(f, d).Ok? {
        ShrinkHeldBefore(f, g, d.wallet);
      }
    case DoRemove(name, torn) =>
      forall p, d | Held(g.cache, p, d) ensures Held(f.cache, p, d) {
        var n :| n in g.cache && HeldBy(g.cache[n], p, d);
        assert HeldBy(f.cache[n], p, d);
      }
    case _ =>
  }

  lemma StepKeepsLive(chain: Chain, s: State, a: Action)
    requires Inv(chain, s) && Enabled(chain, s, a) && HeldIsLive(s.files.cache, s.history)
    ensures HeldIsLive(Step(s, a).files.cache, Step(s, a).history)
  {
    hide HeldIsLive, HeldBefore, IntentsHold, IntentsSeparated, HistoryLegal;
    var f, g, h := s.files, Step(s, a).files, s.history;
    match a
    case DoIntend(d) =>
      if Intend(f, d).Ok? {
        IntendKeepsLive(chain, f, d, s.begun, h);
      }
    case DoPost(d) =>
      SameHeldBefore(f);
      EventKeepsLive(f, g, h, Posted(d));
    case DoMerge(name, walletId, snapshot) =>
      if Merge(f, name, walletId, snapshot).Ok? {
        MergeHeldBefore(f, name, walletId, snapshot);
        EventKeepsLive(f, g, h, Cleared(ClearedBy(f, name, walletId, snapshot)));
      }
    case _ =>
      QuietHeldBefore(chain, s, a);
      LiveFollowsHeld(f, g, h);
  }

  lemma SameHeldBefore(f: Files)
    ensures HeldBefore(f, f, {})
  {
  }

  lemma LiveFollowsHeld(f: Files, g: Files, h: seq<Event>)
    requires HeldIsLive(f.cache, h) && HeldBefore(f, g, {})
    ensures HeldIsLive(g.cache, h)
  {
  }

  lemma StepKeepsArmed(chain: Chain, s: State, a: Action)
    requires PendingArmed(s.files.cache, s.armed)
    ensures PendingArmed(Step(s, a).files.cache, Step(s, a).armed)
  {
    hide Refusal, Unavailable, Unresolved, StillSpent;
  }

  lemma {:induction false} RunKeepsLive(chain: Chain, actions: seq<Action>, states: seq<State>, n: nat)
    requires IsRun(chain, actions, states) && n < |states|
    ensures HeldIsLive(states[n].files.cache, states[n].history) && PendingArmed(states[n].files.cache, states[n].armed)
  {
    if n > 0 {
      RunKeepsLive(chain, actions, states, n - 1);
      RunKeepsInv(chain, actions, states, n - 1);
      hide Inv, HeldIsLive, PendingArmed, Step;
      StepKeepsLive(chain, states[n - 1], actions[n - 1]);
      StepKeepsArmed(chain, states[n - 1], actions[n - 1]);
      assert states[n - 1 + 1] == Step(states[n - 1], actions[n - 1]);
    }
  }

  lemma HeldIsAlike(cache: map<string, Entry>, p: Outpoint, a: Document, b: Document)
    requires Held(cache, p, a) && !Differ(a, b)
    ensures Held(cache, p, b)
  {
    var n :| n in cache && HeldBy(cache[n], p, a);
    assert HeldBy(cache[n], p, b);
  }

  /** While nothing cleared it, a live intent is held, and the other way round. */
  lemma LiveIsHeld(chain: Chain, actions: seq<Action>, states: seq<State>, n: nat, p: Outpoint, d: Document)
    requires IsRun(chain, actions, states) && n < |states|
    ensures Live(states[n].history, |states[n].history|, p, d) <==> Held(states[n].files.cache, p, d)
  {
    RunKeepsInv(chain, actions, states, n);
    RunKeepsLive(chain, actions, states, n);
    var s := states[n];
    hide IsRun, FilesInv, IdsKnown, BegunKnown, IntentsSeparated, HistoryLegal, Held, ClearedBetween;
    if Live(s.history, |s.history|, p, d) {
      var i :| LiveIntentAt(s.history, i, |s.history|, p, d);
      HeldIsAlike(s.files.cache, p, s.history[i].doc, d);
    }
  }

  lemma PrefixLive(h: seq<Event>, g: seq<Event>, a: nat, p: Outpoint, d: Document)
    requires h <= g && a <= |h|
    ensures Live(h, a, p, d) <==> Live(g, a, p, d)
  {
    assert forall k :: 0 <= k < |h| ==> h[k] == g[k];
    forall i | 0 <= i < a ensures LiveIntentAt(h, i, a, p, d) <==> LiveIntentAt(g, i, a, p, d) {
      if ClearedBetween(g, i, a, p) {
        var k :| 0 <= k < |g| && i < k < a && g[k].Cleared? && p in g[k].points;
        assert h[k] == g[k];
      }
      if ClearedBetween(h, i, a, p) {
        var k :| 0 <= k < |h| && i < k < a && h[k].Cleared? && p in h[k].points;
        assert h[k] == g[k];
      }
    }
    if Live(h, a, p, d) {
      var i :| LiveIntentAt(h, i, a, p, d);
      assert LiveIntentAt(g, i, a, p, d);
    }
    if Live(g, a, p, d) {
      var i :| LiveIntentAt(g, i, a, p, d);
      assert LiveIntentAt(h, i, a, p, d);
    }
  }

  lemma {:induction false} HistoryPrefix(chain: Chain, actions: seq<Action>, states: seq<State>, i: nat, j: nat)
    requires IsRun(chain, actions, states) && i <= j < |states|
    ensures states[i].history <= states[j].history
  {
    if i < j {
      HistoryPrefix(chain, actions, states, i, j - 1);
      assert states[j - 1 + 1] == Step(states[j - 1], actions[j - 1]);
      assert states[j - 1].history <= Step(states[j - 1], actions[j - 1]).history;
    }
  }

  /** Exactly the POSTs made while the cache still holds their intent on `p` are prompt: a test of the cache. */
  lemma PromptExactly(chain: Chain, actions: seq<Action>, states: seq<State>, n: nat, p: Outpoint, d: Document)
    requires IsRun(chain, actions, states) && n < |actions| && actions[n] == DoPost(d)
    ensures Prompt(states[|actions|].history, |states[n].history|, p) <==> Held(states[n].files.cache, p, d)
  {
    LiveIsHeld(chain, actions, states, n, p, d);
    HistoryPrefix(chain, actions, states, n + 1, |actions|);
    var h, g, a := states[n].history, states[|actions|].history, |states[n].history|;
    assert states[n + 1].history == h + [Posted(d)];
    assert g[a] == Posted(d) && h <= g;
    hide IsRun, Live;
    PrefixLive(h, g, a, p, d);
  }
}
