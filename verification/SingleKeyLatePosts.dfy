/**
 * What a late POST risks: a POST made while the cache no longer holds its intent can be followed, with no
 * clearing between, by a prompt POST of a conflicting document; one made while it is held cannot.
 */
module SingleKeyLatePosts {
  import opened Wrappers
  import opened Bytes
  import opened Transactions
  import opened SingleKeyProtocol
  import opened SingleKeySafety
  import opened SingleKeyPosts

  /** After the POST at `a` comes a prompt, conflicting one on `p`, and no sync cleared `p` between. */
  ghost predicate OvertakenAt(h: seq<Event>, a: nat, b: nat, p: Outpoint) {
    && a < b < |h| && h[a].Posted? && Prompt(h, b, p)
    && Differ(h[a].doc, h[b].doc) && p in Points(h[b].doc) && !ClearedBetween(h, a, b, p)
  }

  /** Some continuation of the run POSTs `x` next and later has it overtaken on `p`. */
  ghost predicate CanBeOvertaken(chain: Chain, actions: seq<Action>, states: seq<State>, x: Document, p: Outpoint)
    requires |states| == |actions| + 1
  {
    exists more, after, b :: IsOvertaken(chain, actions, states, x, p, more, after, b)
  }

  ghost predicate IsOvertaken(chain: Chain, actions: seq<Action>, states: seq<State>, x: Document, p: Outpoint,
      more: seq<Action>, after: seq<State>, b: nat)
    requires |states| == |actions| + 1
  {
    && IsRun(chain, more, after) && actions + [DoPost(x)] <= more && states <= after
    && OvertakenAt(after[|more|].history, |states[|actions|].history|, b, p)
  }

  // ----- A prompt POST is not overtaken -----

  lemma HeldIsNotOvertaken(chain: Chain, actions: seq<Action>, states: seq<State>, x: Document, p: Outpoint)
    requires IsRun(chain, actions, states) && Held(states[|actions|].files.cache, p, x)
    ensures !CanBeOvertaken(chain, actions, states, x, p)
  {
    forall more, after, b | IsOvertaken(chain, actions, states, x, p, more, after, b) ensures false {
      var n := |actions|;
      assert more[n] == DoPost(x) && after[n] == states[n];
      PromptExactly(chain, more, after, n, p, x);
      PromptPostsAreOrdered(chain, more, after, |states[n].history|, b, p);
    }
  }

  // ----- Continuations -----

  const FUNDS := Utxo(1000, "address", "p2wpkh", [0], true, 1)

  lemma {:induction false} LengthBound(s: set<string>) returns (n: nat)
    ensures forall t :: t in s ==> |t| < n
  {
    n := 0;
    if s != {} {
      var t :| t in s;
      var m := LengthBound(s - {t});
      n := if |t| < m then m else |t| + 1;
    }
  }

  lemma FreshString(s: set<string>) returns (t: string)
    ensures t !in s
  {
    var n := LengthBound(s);
    t := seq(n, _ => 'x');
  }

  lemma Extend(chain: Chain, actions: seq<Action>, states: seq<State>, a: Action) returns (actions': seq<Action>, states': seq<State>)
    requires IsRun(chain, actions, states) && Enabled(chain, states[|actions|], a)
    ensures IsRun(chain, actions', states') && actions' == actions + [a] && states <= states' && |states'| == |actions'| + 1
    ensures states'[|actions'|] == Step(states[|actions|], a)
  {
    actions', states' := actions + [a], states + [Step(states[|actions|], a)];
  }

  /** The wallet of `d` is live and its entry caches the coin `q` it spends. */
  predicate Ready(f: Files, d: Document, q: Outpoint) {
    && d.wallet in f.wallets && f.wallets[d.wallet] == d.walletId && Matches(f, d.wallet, d.walletId)
    && q in f.cache[d.wallet].utxos && f.cache[d.wallet].utxos[q] == FUNDS && q !in f.cache[d.wallet].spent
    && d.inputs == [Prevout(q, FUNDS)]
  }

  /** The entry after `d`, reserved by its operation, was persisted as an intent. */
  function Sent(e: Entry, d: Document, q: Outpoint): Entry {
    e.(reservations := e.reservations[q := Reservation(d.operation, true)],
       spent := e.spent[q := Spent(d.txid, d.operation)],
       pending := e.pending[d.txid := Pending(d.operation, BroadcastUnknown, d)])
  }

  lemma IntendReady(f: Files, d: Document, q: Outpoint)
    requires Ready(f, d, q) && q in f.cache[d.wallet].reservations && f.cache[d.wallet].reservations[q].operation == d.operation
    ensures Points(d) == {q}
    ensures Intend(f, d) == Ok(f.(cache := f.cache[d.wallet := Sent(f.cache[d.wallet], d, q)]))
  {
    var e := f.cache[d.wallet];
    assert Points(d) == {q};
    assert Refusal(e, d, d.inputs) == Refusal(e, d, []) == None;
    assert Intended(e, d).reservations == Sent(e, d, q).reservations;
    assert Intended(e, d).spent == Sent(e, d, q).spent;
  }

  lemma ReserveReady(f: Files, d: Document, q: Outpoint)
    requires Ready(f, d, q) && q !in Unavailable(f.cache)
    ensures
      var e := f.cache[d.wallet];
      Reserve(f, d.wallet, d.walletId, d.operation, [q]) ==
        Ok(f.(cache := f.cache[d.wallet := e.(reservations := e.reservations[q := Reservation(d.operation, false)])]))
  {
    var e := f.cache[d.wallet];
    assert e.reservations + (map p | p in [q] :: Reservation(d.operation, false)) == e.reservations[q := Reservation(d.operation, false)];
  }

  /** Persist and POST a document whose coin its operation has reserved. */
  lemma SendReserved(chain: Chain, actions: seq<Action>, states: seq<State>, d: Document, q: Outpoint)
    returns (actions': seq<Action>, states': seq<State>)
    requires IsRun(chain, actions, states) && chain(d.txid) == {q}
    requires var f := states[|actions|].files;
      Ready(f, d, q) && q in f.cache[d.wallet].reservations && f.cache[d.wallet].reservations[q].operation == d.operation
    ensures IsRun(chain, actions', states') && actions <= actions' && states <= states'
    ensures var s, s' := states[|actions|], states'[|actions'|];
      && s'.history == s.history + [Intent(d), Posted(d)] && s'.armed == s.armed + {d}
      && s'.files == s.files.(cache := s.files.cache[d.wallet := Sent(s.files.cache[d.wallet], d, q)])
      && s'.operations == s.operations + {d.operation}
  {
    IntendReady(states[|actions|].files, d, q);
    hide Intend;
    actions', states' := Extend(chain, actions, states, DoBegin(d));
    actions', states' := Extend(chain, actions', states', DoIntend(d));
    actions', states' := Extend(chain, actions', states', DoPost(d));
  }

  /** Reserve, persist and POST a document on a coin nobody blocks. */
  lemma Send(chain: Chain, actions: seq<Action>, states: seq<State>, d: Document, q: Outpoint)
    returns (actions': seq<Action>, states': seq<State>)
    requires IsRun(chain, actions, states) && chain(d.txid) == {q}
    requires var s := states[|actions|];
      Ready(s.files, d, q) && q !in Unavailable(s.files.cache) && d.operation !in s.operations
    ensures IsRun(chain, actions', states') && actions <= actions' && states <= states'
    ensures var s, s' := states[|actions|], states'[|actions'|];
      && s'.history == s.history + [Intent(d), Posted(d)] && s'.armed == s.armed + {d}
      && s'.files == s.files.(cache := s.files.cache[d.wallet := Sent(s.files.cache[d.wallet], d, q)])
      && s'.operations == s.operations + {d.operation}
  {
    ReserveReady(states[|actions|].files, d, q);
    hide Reserve;
    var e := states[|actions|].files.cache[d.wallet];
    actions', states' := Extend(chain, actions, states, DoReserve(d.wallet, d.walletId, d.operation, [q]));
    var reserved := e.(reservations := e.reservations[q := Reservation(d.operation, false)]);
    assert Sent(reserved, d, q) == Sent(e, d, q);
    actions', states' := SendReserved(chain, actions', states', d, q);
  }

  /** A conflicting document persisted and POSTed right after `x` overtakes it. */
  lemma SentOvertakes(h: seq<Event>, x: Document, mid: seq<Event>, o: Document, p: Outpoint)
    requires Differ(x, o) && p in Points(o) && forall e :: e in mid ==> e == Cleared({})
    ensures OvertakenAt(h + [Posted(x)] + mid + [Intent(o), Posted(o)], |h|, |h| + |mid| + 2, p)
  {
    var g := h + [Posted(x)] + mid + [Intent(o), Posted(o)];
    var a, b := |h|, |h| + |mid| + 2;
    assert g[a] == Posted(x) && g[b - 1] == Intent(o) && g[b] == Posted(o);
    forall k | a < k < b && g[k].Cleared? ensures p !in g[k].points {
      assert g[k] in mid;
    }
    assert LiveIntentAt(g, b - 1, b, p, o);
  }

  /** A stale sync of a wallet that has no entry of its own yet: the coin is offered, nothing is blocked. */
  lemma OpenWallet(chain: Chain, actions: seq<Action>, states: seq<State>, name: string, q: Outpoint)
    returns (actions': seq<Action>, states': seq<State>, walletId: string)
    requires IsRun(chain, actions, states)
    requires name in states[|actions|].files.cache ==> Orphan(states[|actions|].files, name)
    ensures IsRun(chain, actions', states') && actions <= actions' && states <= states'
    ensures var s, s' := states[|actions|], states'[|actions'|];
      && s'.history == s.history + [Cleared({})] && s'.operations == s.operations
      && s'.files == Files(s.files.wallets[name := walletId],
                           s.files.cache[name := Entry(walletId, map[q := FUNDS], map[], map[], map[])])
  {
    RunKeepsInv(chain, actions, states, |actions|);
    var s := states[|actions|];
    hide Inv, FilesInv;
    if name in s.files.wallets {
      walletId := s.files.wallets[name];
      actions', states' := actions, states;
      assert s.files.wallets[name := walletId] == s.files.wallets;
    } else {
      walletId := FreshString(s.walletIds);
      actions', states' := Extend(chain, actions, states, DoCreate(name, walletId));
      EntryIdsKnown(chain, s, name, walletId);
    }
    actions', states' := Extend(chain, actions', states', DoMerge(name, walletId, Snapshot(map[q := FUNDS], map[])));
  }

  lemma EntryIdsKnown(chain: Chain, s: State, name: string, walletId: string)
    requires Inv(chain, s) && walletId !in s.walletIds
    ensures name in s.files.cache ==> s.files.cache[name].walletId != walletId
  {
  }

  // ----- A POST that is not held can be overtaken -----

  /** Another document holds the input: it was persisted, so it can be POSTed at any time. */
  lemma TakenIsOvertaken(chain: Chain, actions: seq<Action>, states: seq<State>, x: Document, p: Outpoint, n: string)
    requires IsRun(chain, actions, states) && x in states[|actions|].armed
    requires var f := states[|actions|].files; n in f.cache && p in f.cache[n].spent && !Held(f.cache, p, x)
    ensures CanBeOvertaken(chain, actions, states, x, p)
  {
    var s := states[|actions|];
    var y := HolderIsArmed(chain, actions, states, n, p);
    if !Differ(y, x) {
      HeldIsAlike(s.files.cache, p, y, x);
    }
    var more, after := Extend(chain, actions, states, DoPost(x));
    var last, final := Extend(chain, more, after, DoPost(y));
    var h, a := s.history, |s.history|;
    var g := final[|last|].history;
    assert g == h + [Posted(x)] + [Posted(y)];
    LiveIsHeld(chain, actions, states, |actions|, p, y);
    hide IsRun, Held, Live;
    LiveGrows(h, Posted(x), p, y);
    PrefixLive(h + [Posted(x)], g, a + 1, p, y);
    assert g[a] == Posted(x) && g[a + 1] == Posted(y);
    assert Prompt(g, a + 1, p);
    assert OvertakenAt(g, a, a + 1, p);
    assert actions + [DoPost(x)] <= last && states <= final;
    assert IsOvertaken(chain, actions, states, x, p, last, final, a + 1);
  }

  lemma HolderIsArmed(chain: Chain, actions: seq<Action>, states: seq<State>, n: string, p: Outpoint) returns (y: Document)
    requires IsRun(chain, actions, states)
    requires var f := states[|actions|].files; n in f.cache && p in f.cache[n].spent
    ensures y in states[|actions|].armed && p in Points(y) && Held(states[|actions|].files.cache, p, y)
  {
    var s := states[|actions|];
    RunKeepsInv(chain, actions, states, |actions|);
    RunKeepsLive(chain, actions, states, |actions|);
    var e := s.files.cache[n];
    assert SpentBacked(chain, e) && SpentHasPending(chain, e, p);
    y := e.pending[e.spent[p].txid].document;
    assert HeldBy(e, p, y);
    assert HasIntent(s.history, |s.history|, y);
  }

  function Spending(wallet: string, walletId: string, operation: string, txid: bytes, q: Outpoint): Document {
    Document(wallet, walletId, operation, txid, [], [Prevout(q, FUNDS)])
  }

  /** No wallet blocks the input once this one's entry is opened afresh: reserve it and send. */
  lemma FreeIsOvertaken(chain: Chain, actions: seq<Action>, states: seq<State>, x: Document, p: Outpoint, txid: bytes, name: string)
    requires IsRun(chain, actions, states) && x in states[|actions|].armed && txid != x.txid && chain(txid) == {p}
    requires var f := states[|actions|].files;
      && (name in f.cache ==> Orphan(f, name))
      && forall n :: n in f.cache && n != name ==> p !in Blocked(f.cache[n])
    ensures CanBeOvertaken(chain, actions, states, x, p)
  {
    var h := states[|actions|].history;
    var more, after := Extend(chain, actions, states, DoPost(x));
    var id;
    more, after, id := OpenWallet(chain, more, after, name, p);
    var s := after[|more|];
    var operation := FreshString(s.operations);
    var o := Spending(name, id, operation, txid, p);
    hide IsRun;
    more, after := Send(chain, more, after, o, p);
    assert Points(o) == {p};
    SentOvertakes(h, x, [Cleared({})], o, p);
    assert IsOvertaken(chain, actions, states, x, p, more, after, |h| + 3);
  }

  /** The input is only reserved, by an operation of a live wallet: that operation may go on to send. */
  lemma ReservedIsOvertaken(chain: Chain, actions: seq<Action>, states: seq<State>, x: Document, p: Outpoint, txid: bytes, name: string)
    requires IsRun(chain, actions, states) && x in states[|actions|].armed && txid != x.txid && chain(txid) == {p}
    requires var f := states[|actions|].files;
      name in f.cache && !Orphan(f, name) && p in f.cache[name].reservations && p !in f.cache[name].spent
    ensures CanBeOvertaken(chain, actions, states, x, p)
  {
    var h, f := states[|actions|].history, states[|actions|].files;
    var e := f.cache[name];
    var stale := Snapshot(map[p := FUNDS], map[]);
    assert Unresolved(e, stale.history) == e.reservations && StillSpent(e, stale) == e.spent;
    var more, after := Extend(chain, actions, states, DoPost(x));
    more, after := Extend(chain, more, after, DoMerge(name, e.walletId, stale));
    assert ClearedBy(f, name, e.walletId, stale) == {};
    var o := Spending(name, e.walletId, e.reservations[p].operation, txid, p);
    hide IsRun, Unresolved, StillSpent;
    more, after := SendReserved(chain, more, after, o, p);
    assert Points(o) == {p};
    SentOvertakes(h, x, [Cleared({})], o, p);
    assert IsOvertaken(chain, actions, states, x, p, more, after, |h| + 3);
  }

  /**
   * In every reachable state the POST of a persisted document can be overtaken on one of its inputs if and
   * only if the cache no longer holds the document on that input, a test the caller could make just before
   * the POST. It is assumed only that some other transaction spends exactly that input.
   */
  lemma OvertakenExactly(chain: Chain, actions: seq<Action>, states: seq<State>, x: Document, p: Outpoint, txid: bytes)
    requires IsRun(chain, actions, states) && x in states[|actions|].armed && p in Points(x)
    requires txid != x.txid && chain(txid) == {p}
    ensures CanBeOvertaken(chain, actions, states, x, p) <==> !Held(states[|actions|].files.cache, p, x)
  {
    var f := states[|actions|].files;
    if Held(f.cache, p, x) {
      HeldIsNotOvertaken(chain, actions, states, x, p);
    } else if n :| n in f.cache && p in f.cache[n].spent {
      TakenIsOvertaken(chain, actions, states, x, p, n);
    } else if n :| n in f.cache && p in f.cache[n].reservations {
      if Orphan(f, n) {
        BlockedElsewhere(chain, actions, states, n, p);
        FreeIsOvertaken(chain, actions, states, x, p, txid, n);
      } else {
        ReservedIsOvertaken(chain, actions, states, x, p, txid, n);
      }
    } else {
      var name := FreshString(f.cache.Keys + f.wallets.Keys);
      FreeIsOvertaken(chain, actions, states, x, p, txid, name);
    }
  }

  lemma BlockedElsewhere(chain: Chain, actions: seq<Action>, states: seq<State>, n: string, p: Outpoint)
    requires IsRun(chain, actions, states)
    requires var f := states[|actions|].files; n in f.cache && p in Blocked(f.cache[n])
    ensures var f := states[|actions|].files; forall m :: m in f.cache && m != n ==> p !in Blocked(f.cache[m])
  {
    RunKeepsInv(chain, actions, states, |actions|);
  }
}
