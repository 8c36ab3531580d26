/**
 * Runs that show which provisos are needed: one transaction id POSTed with different bytes, and POSTs of
 * conflicting documents without a clearing between them when either of the two is late.
 */
module SingleKeyWitness {
  import opened Wrappers
  import opened Bytes
  import opened Transactions
  import opened SingleKeyProtocol
  import opened SingleKeySafety
  import opened SingleKeyPosts
  import opened SingleKeyLatePosts

  const COIN := Outpoint([], 0)
  const TXID: bytes := [7]

  function OneInput(txid: bytes): set<Outpoint> {
    {COIN}
  }

  const SEEN := Snapshot(map[], map[TXID := true])
  const STALE := Snapshot(map[COIN := FUNDS], map[])

  /** One live wallet, with an entry that caches `utxos` and blocks nothing. */
  predicate Idle(f: Files, walletId: string, utxos: map<Outpoint, Utxo>) {
    && "w" in f.wallets && f.wallets["w"] == walletId && (forall n :: n in f.cache ==> n == "w")
    && Matches(f, "w", walletId) && f.cache["w"].utxos == utxos && Blocked(f.cache["w"]) == {}
  }

  lemma ResolvedByHistory(e: Entry, history: map<bytes, bool>, t: bytes)
    requires t in history && t in e.pending
    requires forall p :: p in e.reservations ==> e.reservations[p].operation == e.pending[t].operation
    ensures forall p :: p !in Unresolved(e, history)
  {
  }

  lemma SeenIsNotSpent(e: Entry, s: Snapshot)
    requires forall p :: p in e.spent ==> p !in s.utxos && e.spent[p].txid in s.history
    ensures forall p :: p !in StillSpent(e, s)
  {
  }

  /** The sync that sees the transaction forgets its coin. */
  lemma SeenMerge(f: Files, d: Document)
    requires Idle(f, d.walletId, map[COIN := FUNDS]) && d.txid == TXID
    ensures
      var g := f.(cache := f.cache["w" := Sent(f.cache["w"], d, COIN)]);
      var r := Merge(g, "w", d.walletId, SEEN);
      r.Ok? && Idle(r.value, d.walletId, map[]) && COIN in ClearedBy(g, "w", d.walletId, SEEN)
  {
    hide Unresolved, StillSpent;
    var e := f.cache["w"];
    var sent := Sent(e, d, COIN);
    forall p ensures p in Blocked(sent) ==> p == COIN {
      assert p !in Blocked(e);
    }
    assert TXID in SEEN.history && TXID in sent.pending && sent.spent[COIN].txid == TXID;
    ResolvedByHistory(sent, SEEN.history, TXID);
    SeenIsNotSpent(sent, SEEN);
  }

  lemma UnresolvedBefore(e: Entry, history: map<bytes, bool>)
    ensures forall p :: p in Unresolved(e, history) ==> p in Blocked(e)
  {
  }

  lemma StillSpentBefore(e: Entry, s: Snapshot)
    ensures forall p :: p in StillSpent(e, s) ==> p in Blocked(e)
  {
  }

  /** The stale sync after it offers the coin again. */
  lemma StaleMerge(f: Files, walletId: string)
    requires Idle(f, walletId, map[])
    ensures var r := Merge(f, "w", walletId, STALE); r.Ok? && Idle(r.value, walletId, map[COIN := FUNDS])
  {
    hide Unresolved, StillSpent;
    UnresolvedBefore(f.cache["w"], STALE.history);
    StillSpentBefore(f.cache["w"], STALE);
  }

  lemma IdleIsFree(f: Files, walletId: string, utxos: map<Outpoint, Utxo>)
    requires Idle(f, walletId, utxos)
    ensures Unavailable(f.cache) == {}
  {
  }

  /** The first document is POSTed, a sync clears its coin and a stale one offers it again. */
  lemma FirstCleared() returns (actions: seq<Action>, states: seq<State>, first: Document)
    ensures IsRun(OneInput, actions, states) && first == Spending("w", first.walletId, "op1", TXID, COIN)
    ensures var s := states[|actions|];
      && |s.history| == 5 && s.history[1] == Intent(first) && s.history[2] == Posted(first)
      && s.history[3].Cleared? && COIN in s.history[3].points && s.history[4].Cleared?
      && first in s.armed && s.operations == {"op1"} && Idle(s.files, first.walletId, map[COIN := FUNDS])
  {
    var id;
    actions, states, id := OpenWallet(OneInput, [], [START], "w", COIN);
    first := Spending("w", id, "op1", TXID, COIN);
    var before := states[|actions|].files;
    IdleIsFree(before, id, map[COIN := FUNDS]);
    hide IsRun, Merge, ClearedBy, Sent, Unavailable;
    actions, states := Send(OneInput, actions, states, first, COIN);
    SeenMerge(before, first);
    actions, states := Extend(OneInput, actions, states, DoMerge("w", id, SEEN));
    StaleMerge(states[|actions|].files, id);
    hide Idle;
    actions, states := Extend(OneInput, actions, states, DoMerge("w", id, STALE));
  }

  /** Another operation's document spending the same coin. */
  function Second(first: Document, txid: bytes, hex: bytes): Document {
    first.(operation := "op2", txid := txid, hex := hex)
  }

  /** POSTs of conflicting documents at `a` and `b` with no clearing between them. */
  ghost predicate Unordered(h: seq<Event>, a: nat, b: nat, x: Document, y: Document) {
    && a < b < |h| && h[a] == Posted(x) && h[b] == Posted(y) && Differ(x, y)
    && COIN in Points(x) && COIN in Points(y) && !ClearedBetween(h, a, b, COIN)
  }

  lemma PointsOfOne(d: Document)
    requires d.inputs == [Prevout(COIN, FUNDS)]
    ensures Points(d) == {COIN}
  {
    assert Points(d) == {COIN};
  }

  /** All intents of the first document precede the clearing at 3. */
  lemma FirstIsLate(h: seq<Event>, b: nat, first: Document)
    requires 4 < b < |h| && h[b] == Posted(first) && h[3].Cleared? && COIN in h[3].points
    requires forall i :: 3 < i < b && h[i].Intent? ==> Differ(h[i].doc, first)
    ensures !Prompt(h, b, COIN)
  {
  }

  /** The later of the two POSTs is late: the second document is persisted and POSTed before the first is POSTed again. */
  lemma LaterPostUnordered(txid: bytes, hex: bytes) returns (actions: seq<Action>, states: seq<State>, first: Document, b: nat)
    requires txid != TXID || hex != []
    ensures IsRun(OneInput, actions, states) && first.txid == TXID && first.hex == [] && b > 0
    ensures var h := states[|actions|].history;
      Unordered(h, b - 1, b, Second(first, txid, hex), first) && Prompt(h, b - 1, COIN) && !Prompt(h, b, COIN)
  {
    actions, states, first := FirstCleared();
    var second := Second(first, txid, hex);
    PointsOfOne(first);
    PointsOfOne(second);
    IdleIsFree(states[|actions|].files, first.walletId, map[COIN := FUNDS]);
    hide IsRun, Unavailable;
    actions, states := Send(OneInput, actions, states, second, COIN);
    actions, states := Extend(OneInput, actions, states, DoPost(first));
    b := 7;
    var h := states[|actions|].history;
    assert LiveIntentAt(h, 5, 6, COIN, second);
    FirstIsLate(h, b, first);
  }

  /** The earlier of the two POSTs is late: the first document is POSTed again before the second is persisted. */
  lemma EarlierPostUnordered(txid: bytes, hex: bytes) returns (actions: seq<Action>, states: seq<State>, first: Document, b: nat)
    requires txid != TXID || hex != []
    ensures IsRun(OneInput, actions, states) && first.txid == TXID && first.hex == [] && b > 1
    ensures var h := states[|actions|].history;
      Unordered(h, b - 2, b, first, Second(first, txid, hex)) && !Prompt(h, b - 2, COIN) && Prompt(h, b, COIN)
  {
    actions, states, first := FirstCleared();
    var second := Second(first, txid, hex);
    PointsOfOne(first);
    PointsOfOne(second);
    IdleIsFree(states[|actions|].files, first.walletId, map[COIN := FUNDS]);
    hide IsRun, Unavailable;
    actions, states := Extend(OneInput, actions, states, DoPost(first));
    actions, states := Send(OneInput, actions, states, second, COIN);
    b := 7;
    var h := states[|actions|].history;
    assert LiveIntentAt(h, 6, 7, COIN, second);
    FirstIsLate(h, b - 2, first);
  }

  /** One transaction id is POSTed with two byte strings: the proviso of `PostsOfOneTransaction` is needed. */
  lemma OneIdTwoByteStrings() returns (actions: seq<Action>, states: seq<State>, first: Document, second: Document)
    ensures IsRun(OneInput, actions, states)
    ensures var h := states[|actions|].history;
      Posted(first) in h && Posted(second) in h && first.txid == second.txid && first.hex != second.hex
  {
    var b;
    actions, states, first, b := LaterPostUnordered(TXID, [1]);
    second := Second(first, TXID, [1]);
    var h := states[|actions|].history;
    assert h[b - 1] == Posted(second) && h[b] == Posted(first);
  }
}
