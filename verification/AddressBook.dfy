/** The address book of one HD account (`wallet/wallet.py`): issued indexes stay contiguous. */
module AddressBook {
  import opened Wrappers
  import opened Bytes
  import opened Discovery

  datatype Side = Receive | Change

  /** What a path derives: address text, script and path. */
  datatype Derived = Derived(address: string, script: bytes, path: string)

  type Derive = (Side, nat) -> Derived

  /** `note` is the label a user gave the address. */
  datatype Entry = Entry(
    side: Side,
    index: nat,
    derived: Derived,
    used: bool,
    note: string,
    created: Option<string>,
    recovered: Option<string>)

  datatype Book = Book(entries: seq<Entry>, nextReceive: nat, nextChange: nat)

  datatype BookError = IndexOutOfRange | EntryMissing | DoesNotDerive | AlreadyPresent | NotNextIndex | NotEmpty | InvalidUsage | CannotResolve

  /** Non-hardened indexes end here. */
  const INDEX_LIMIT: nat := 0x8000_0000

  const EMPTY: Book := Book([], 0, 0)

  function Next(b: Book, side: Side): nat {
    if side.Receive? then b.nextReceive else b.nextChange
  }

  function WithNext(b: Book, side: Side, next: nat): Book {
    if side.Receive? then b.(nextReceive := next) else b.(nextChange := next)
  }

  function Fresh(derive: Derive, side: Side, index: nat, created: Option<string>): Entry {
    Entry(side, index, derive(side, index), false, "", created, None)
  }

  /** The first entry of a branch with this index, if any. */
  function Find(entries: seq<Entry>, side: Side, index: nat): (k: nat)
    ensures k <= |entries|
    ensures k < |entries| ==> entries[k].side == side && entries[k].index == index
    ensures forall i :: 0 <= i < k ==> entries[i].side != side || entries[i].index != index
  {
    if entries == [] || (entries[0].side == side && entries[0].index == index) then 0 else 1 + Find(entries[1..], side, index)
  }

  predicate Has(entries: seq<Entry>, side: Side, index: nat) {
    Find(entries, side, index) < |entries|
  }

  // ----- The operations -----

  /** `issue_change_address`: exactly this index, and the same entry again when repeated. */
  function IssueChange(derive: Derive, b: Book, index: nat, now: string): Result<(Book, Entry), BookError> {
    if index >= INDEX_LIMIT || b.nextChange >= INDEX_LIMIT then Err(IndexOutOfRange)
    else
      var k := Find(b.entries, Change, index);
      var found := k < |b.entries|;
      if index < b.nextChange then
        if !found then Err(EntryMissing)
        else if b.entries[k].derived != derive(Change, index) then Err(DoesNotDerive)
        else Ok((b, b.entries[k]))
      else if index == b.nextChange then
        if !found then
          var entry := Fresh(derive, Change, index, Some(now));
          Ok((b.(entries := b.entries + [entry], nextChange := index + 1), entry))
        else if b.entries[k].derived != derive(Change, index) then Err(DoesNotDerive)
        else
          var entry := b.entries[k].(created := if b.entries[k].created.Some? then b.entries[k].created else Some(now));
          Ok((b.(entries := b.entries[k := entry], nextChange := index + 1), entry))
      else Err(NotNextIndex)
  }

  /** `_issue_next_address`. */
  function IssueNext(derive: Derive, b: Book, side: Side, now: string): Result<(Book, Entry), BookError> {
    var index := Next(b, side);
    if index >= INDEX_LIMIT then Err(IndexOutOfRange)
    else
      var k := Find(b.entries, side, index);
      if k == |b.entries| then
        var entry := Fresh(derive, side, index, Some(now));
        Ok((WithNext(b.(entries := b.entries + [entry]), side, index + 1), entry))
      else if b.entries[k].created.Some? then Err(AlreadyPresent)
      else if b.entries[k].derived != derive(side, index) then Err(DoesNotDerive)
      else
        var entry := b.entries[k].(created := Some(now));
        Ok((WithNext(b.(entries := b.entries[k := entry]), side, index + 1), entry))
  }

  function Discovered(derive: Derive, side: Side, usage: map<nat, bool>, n: nat): (r: seq<Entry>)
    ensures |r| == n
  {
    if n == 0 then []
    else Discovered(derive, side, usage, n - 1) + [Fresh(derive, side, n - 1, None).(used := n - 1 in usage && usage[n - 1])]
  }

  /** `commit_discovered_addresses`: the discovered entries and one new receive address. */
  function Commit(derive: Derive, b: Book, receive: map<nat, bool>, change: map<nat, bool>, now: string): Result<Book, BookError> {
    if b != EMPTY then Err(NotEmpty)
    else if !WellShaped(receive) || !WellShaped(change) then Err(InvalidUsage)
    else if |receive| >= INDEX_LIMIT || |change| > INDEX_LIMIT then Err(IndexOutOfRange)
    else Ok(Book(
      Discovered(derive, Receive, receive, |receive|) + Discovered(derive, Change, change, |change|)
      + [Fresh(derive, Receive, |receive|, Some(now))], |receive| + 1, |change|))
  }

  /** `mark_wallet_addresses_used`. */
  function MarkUsed(entries: seq<Entry>, addresses: set<string>): (r: seq<Entry>)
    ensures |r| == |entries|
    ensures forall k :: 0 <= k < |entries| ==> r[k] == entries[k].(used := entries[k].used || entries[k].derived.address in addresses)
  {
    seq(|entries|, k requires 0 <= k < |entries| => entries[k].(used := entries[k].used || entries[k].derived.address in addresses))
  }

  /** How many entries `MarkUsed` changes. */
  function NewlyUsed(entries: seq<Entry>, addresses: set<string>): nat {
    if entries == [] then 0
    else
      var last := entries[|entries| - 1];
      NewlyUsed(entries[..|entries| - 1], addresses) + if last.derived.address in addresses && !last.used then 1 else 0
  }

  /** Nothing is saved exactly when nothing changed. */
  lemma {:induction false} NoneNewlyUsed(entries: seq<Entry>, addresses: set<string>)
    ensures NewlyUsed(entries, addresses) == 0 <==> MarkUsed(entries, addresses) == entries
  {
    if entries != [] {
      var front, last := entries[..|entries| - 1], entries[|entries| - 1];
      NoneNewlyUsed(front, addresses);
      assert entries == front + [last];
      assert MarkUsed(entries, addresses) == MarkUsed(front, addresses) + MarkUsed([last], addresses);
    }
  }

  /** The last entry of a branch with this index: the one the rebuilding dictionary keeps. */
  function Existing(entries: seq<Entry>, side: Side, index: nat): Option<Entry> {
    if entries == [] then None
    else
      var last := entries[|entries| - 1];
      if last.side == side && last.index == index then Some(last) else Existing(entries[..|entries| - 1], side, index)
  }

  /** An entry derived anew that keeps what cannot be derived. */
  function Restored(derive: Derive, entries: seq<Entry>, side: Side, index: nat, now: string): Entry {
    match Existing(entries, side, index)
    case None => Fresh(derive, side, index, None).(recovered := Some(now))
    case Some(e) => Entry(side, index, derive(side, index), e.used, e.note, e.created, if e.created.None? then Some(now) else None)
  }

  function RestoredAll(derive: Derive, entries: seq<Entry>, side: Side, n: nat, now: string): (r: seq<Entry>)
    ensures |r| == n && forall i :: 0 <= i < n ==> r[i] == Restored(derive, entries, side, i, now)
  {
    seq(n, i requires 0 <= i < n => Restored(derive, entries, side, i, now))
  }

  /** How many entries have no creation time. */
  function Undated(entries: seq<Entry>): nat {
    if entries == [] then 0
    else Undated(entries[..|entries| - 1]) + if entries[|entries| - 1].created.None? then 1 else 0
  }

  lemma {:induction false} UndatedAppend(a: seq<Entry>, b: seq<Entry>)
    ensures Undated(a + b) == Undated(a) + Undated(b)
  {
    if b == [] {
      assert a + b == a;
    } else {
      assert (a + b)[..|a + b| - 1] == a + b[..|b| - 1];
      UndatedAppend(a, b[..|b| - 1]);
    }
  }

  /** `rebuild_address_book` for one account. */
  function Rebuild(derive: Derive, b: Book, now: string): Result<Book, BookError> {
    if b.nextReceive >= INDEX_LIMIT || b.nextChange >= INDEX_LIMIT then Err(IndexOutOfRange)
    else Ok(b.(entries := RestoredAll(derive, b.entries, Receive, b.nextReceive, now) + RestoredAll(derive, b.entries, Change, b.nextChange, now)))
  }

  // ----- Contiguity -----

  predicate Proper(derive: Derive, b: Book, e: Entry) {
    e.index < Next(b, e.side) && e.derived == derive(e.side, e.index)
  }

  predicate EachOnce(entries: seq<Entry>) {
    forall i, j :: 0 <= i < j < |entries| ==> entries[i].side != entries[j].side || entries[i].index != entries[j].index
  }

  /** Per branch, the issued entries are exactly the indexes below the next one, each once and as derived. */
  predicate Contiguous(derive: Derive, b: Book) {
    && (forall k :: 0 <= k < |b.entries| ==> Proper(derive, b, b.entries[k]))
    && EachOnce(b.entries)
    && (forall i :: 0 <= i < b.nextReceive ==> Has(b.entries, Receive, i))
    && (forall i :: 0 <= i < b.nextChange ==> Has(b.entries, Change, i))
  }

  lemma FindAppend(entries: seq<Entry>, e: Entry, side: Side, index: nat)
    ensures Has(entries + [e], side, index) <==> Has(entries, side, index) || (e.side == side && e.index == index)
  {
    var all := entries + [e];
    var k := Find(entries, side, index);
    assert all[|entries|] == e && forall i :: 0 <= i < |entries| ==> all[i] == entries[i];
  }

  lemma NextIsFree(derive: Derive, b: Book, side: Side, index: nat)
    requires Contiguous(derive, b)
    ensures Has(b.entries, side, index) <==> index < Next(b, side)
  {
    if Has(b.entries, side, index) {
      var k := Find(b.entries, side, index);
      assert Proper(derive, b, b.entries[k]);
    }
  }

  lemma AppendContiguous(derive: Derive, b: Book, side: Side, created: Option<string>)
    requires Contiguous(derive, b)
    ensures Contiguous(derive, WithNext(b.(entries := b.entries + [Fresh(derive, side, Next(b, side), created)]), side, Next(b, side) + 1))
  {
    var e := Fresh(derive, side, Next(b, side), created);
    var g := WithNext(b.(entries := b.entries + [e]), side, Next(b, side) + 1);
    forall k | 0 <= k < |g.entries| ensures Proper(derive, g, g.entries[k]) {
      if k < |b.entries| {
        assert Proper(derive, b, b.entries[k]);
      }
    }
    forall i, j | 0 <= i < j < |g.entries| ensures g.entries[i].side != g.entries[j].side || g.entries[i].index != g.entries[j].index {
      assert Proper(derive, b, b.entries[i]);
    }
    forall i | 0 <= i < g.nextReceive ensures Has(g.entries, Receive, i) {
      FindAppend(b.entries, e, Receive, i);
    }
    forall i | 0 <= i < g.nextChange ensures Has(g.entries, Change, i) {
      FindAppend(b.entries, e, Change, i);
    }
  }

  /** Issuing on a contiguous book succeeds below the index limit and appends the next index. */
  lemma IssueNextAppends(derive: Derive, b: Book, side: Side, now: string)
    requires Contiguous(derive, b)
    ensures
      var index := Next(b, side);
      var entry := Fresh(derive, side, index, Some(now));
      IssueNext(derive, b, side, now) ==
        if index >= INDEX_LIMIT then Err(IndexOutOfRange)
        else Ok((WithNext(b.(entries := b.entries + [entry]), side, index + 1), entry))
  {
    NextIsFree(derive, b, side, Next(b, side));
  }

  /**
   * On a contiguous book an index is issued if and only if it is the next one or an earlier one; it
   * yields the derived address, advances at most by one, and repeating it changes nothing.
   */
  lemma IssueChangeIsIdempotent(derive: Derive, b: Book, index: nat, now: string, later: string)
    requires Contiguous(derive, b) && b.nextChange < INDEX_LIMIT - 1
    ensures IssueChange(derive, b, index, now).Ok? <==> index <= b.nextChange
    ensures index <= b.nextChange ==>
      var (g, e) := IssueChange(derive, b, index, now).value;
      && Contiguous(derive, g) && g.nextReceive == b.nextReceive
      && g.nextChange == (if index == b.nextChange then index + 1 else b.nextChange)
      && e.derived == derive(Change, index) && e in g.entries
      && IssueChange(derive, g, index, later) == Ok((g, e))
  {
    NextIsFree(derive, b, Change, index);
    if index < b.nextChange {
      assert Proper(derive, b, b.entries[Find(b.entries, Change, index)]);
    } else if index == b.nextChange {
      AppendContiguous(derive, b, Change, Some(now));
      var (g, e) := IssueChange(derive, b, index, now).value;
      assert g == WithNext(b.(entries := b.entries + [e]), Change, index + 1);
      NextIsFree(derive, g, Change, index);
      var k := Find(g.entries, Change, index);
      assert g.entries[|b.entries|] == e;
      assert k == |b.entries|;
    }
  }

  // ----- Runs -----

  datatype Action =
    | DoIssueChange(index: nat)
    | DoIssueNext(side: Side)
    | DoCommit(receive: map<nat, bool>, change: map<nat, bool>)
    | DoMarkUsed(addresses: set<string>)
    | DoRebuild

  /** A call that raises changes nothing. */
  function Step(derive: Derive, b: Book, a: Action, now: string): Book {
    match a
    case DoIssueChange(index) => var r := IssueChange(derive, b, index, now); if r.Ok? then r.value.0 else b
    case DoIssueNext(side) => var r := IssueNext(derive, b, side, now); if r.Ok? then r.value.0 else b
    case DoCommit(receive, change) => var r := Commit(derive, b, receive, change, now); if r.Ok? then r.value else b
    case DoMarkUsed(addresses) => b.(entries := MarkUsed(b.entries, addresses))
    case DoRebuild => var r := Rebuild(derive, b, now); if r.Ok? then r.value else b
  }

  function Run(derive: Derive, actions: seq<(Action, string)>): Book {
    if actions == [] then EMPTY
    else Step(derive, Run(derive, actions[..|actions| - 1]), actions[|actions| - 1].0, actions[|actions| - 1].1)
  }

  lemma {:induction false} DiscoveredContiguous(derive: Derive, b: Book, side: Side, usage: map<nat, bool>, n: nat)
    requires Contiguous(derive, b) && Next(b, side) == 0
    ensures Contiguous(derive, WithNext(b.(entries := b.entries + Discovered(derive, side, usage, n)), side, n))
  {
    hide Contiguous;
    if n == 0 {
      assert b.entries + [] == b.entries;
    } else {
      DiscoveredContiguous(derive, b, side, usage, n - 1);
      var before := WithNext(b.(entries := b.entries + Discovered(derive, side, usage, n - 1)), side, n - 1);
      AppendContiguous(derive, before, side, None);
      var e := Fresh(derive, side, n - 1, None);
      var appended := WithNext(before.(entries := before.entries + [e]), side, n);
      var marked := e.(used := n - 1 in usage && usage[n - 1]);
      assert b.entries + Discovered(derive, side, usage, n) == appended.entries[|appended.entries| - 1 := marked];
      ReplaceContiguous(derive, appended, |appended.entries| - 1, marked);
    }
  }

  lemma ReplaceContiguous(derive: Derive, b: Book, k: nat, e: Entry)
    requires Contiguous(derive, b) && k < |b.entries|
    requires e.side == b.entries[k].side && e.index == b.entries[k].index && e.derived == b.entries[k].derived
    ensures Contiguous(derive, b.(entries := b.entries[k := e]))
  {
    var g := b.(entries := b.entries[k := e]);
    SameKeysContiguous(derive, b, g);
  }

  /** Flags and labels do not matter to contiguity. */
  lemma SameKeysContiguous(derive: Derive, b: Book, g: Book)
    requires Contiguous(derive, b) && |g.entries| == |b.entries| && g.nextReceive == b.nextReceive && g.nextChange == b.nextChange
    requires forall k :: 0 <= k < |b.entries| ==>
      g.entries[k].side == b.entries[k].side && g.entries[k].index == b.entries[k].index && g.entries[k].derived == b.entries[k].derived
    ensures Contiguous(derive, g)
  {
    forall k | 0 <= k < |g.entries| ensures Proper(derive, g, g.entries[k]) {
      assert Proper(derive, b, b.entries[k]);
    }
    forall side: Side, i | 0 <= i < Next(g, side) ensures Has(g.entries, side, i) {
      assert Has(b.entries, side, i);
      var k := Find(b.entries, side, i);
      assert g.entries[k].side == side && g.entries[k].index == i;
    }
    forall i | 0 <= i < g.nextReceive ensures Has(g.entries, Receive, i) {
      assert i < Next(g, Receive);
    }
    forall i | 0 <= i < g.nextChange ensures Has(g.entries, Change, i) {
      assert i < Next(g, Change);
    }
  }

  lemma CommitContiguous(derive: Derive, b: Book, receive: map<nat, bool>, change: map<nat, bool>, now: string)
    requires Commit(derive, b, receive, change, now).Ok?
    ensures Contiguous(derive, Commit(derive, b, receive, change, now).value)
  {
    var first := Discovered(derive, Receive, receive, |receive|);
    var second := Discovered(derive, Change, change, |change|);
    DiscoveredContiguous(derive, EMPTY, Receive, receive, |receive|);
    assert [] + first == first;
    DiscoveredContiguous(derive, Book(first, |receive|, 0), Change, change, |change|);
    AppendContiguous(derive, Book(first + second, |receive|, |change|), Receive, Some(now));
    hide Contiguous, Discovered, WellShaped;
  }

  /** Rebuilding makes any list of entries contiguous for its counters. */
  lemma RebuildRestores(derive: Derive, b: Book, now: string)
    requires Rebuild(derive, b, now).Ok?
    ensures
      var g := Rebuild(derive, b, now).value;
      && Contiguous(derive, g) && g.nextReceive == b.nextReceive && g.nextChange == b.nextChange
      && forall e :: e in g.entries ==> e == Restored(derive, b.entries, e.side, e.index, now)
  {
    var g := Rebuild(derive, b, now).value;
    var r, n := b.nextReceive, b.nextChange;
    forall k | 0 <= k < |g.entries|
      ensures g.entries[k] == if k < r then Restored(derive, b.entries, Receive, k, now) else Restored(derive, b.entries, Change, k - r, now)
    {
    }
    hide RestoredAll, Restored;
    RestoredKeys(derive, b.entries, now);
    forall i | 0 <= i < r ensures Has(g.entries, Receive, i) {
      assert g.entries[i] == Restored(derive, b.entries, Receive, i, now);
    }
    forall i | 0 <= i < n ensures Has(g.entries, Change, i) {
      assert g.entries[r + i] == Restored(derive, b.entries, Change, i, now);
    }
  }

  lemma RestoredKeys(derive: Derive, entries: seq<Entry>, now: string)
    ensures forall side, index :: 0 <= index ==>
      var e := Restored(derive, entries, side, index, now);
      e.side == side && e.index == index && e.derived == derive(side, index)
  {
  }

  /** Rebuilding a contiguous book loses no label, usage flag or creation time. */
  lemma RebuildKeepsMetadata(derive: Derive, b: Book, now: string, e: Entry)
    requires Contiguous(derive, b) && e in b.entries && Rebuild(derive, b, now).Ok?
    ensures
      exists r :: r in Rebuild(derive, b, now).value.entries &&
        r.(recovered := e.recovered) == e && (e.created.Some? ==> r.recovered.None?)
  {
    var g := Rebuild(derive, b, now).value;
    var k :| 0 <= k < |b.entries| && b.entries[k] == e;
    assert Proper(derive, b, b.entries[k]);
    ExistingIsEntry(b.entries, k);
    var r := Restored(derive, b.entries, e.side, e.index, now);
    var at := if e.side.Receive? then e.index else b.nextReceive + e.index;
    assert g.entries[at] == r;
  }

  lemma {:induction false} ExistingIsEntry(entries: seq<Entry>, k: nat)
    requires EachOnce(entries) && k < |entries|
    ensures Existing(entries, entries[k].side, entries[k].index) == Some(entries[k])
  {
    if k < |entries| - 1 {
      ExistingIsEntry(entries[..|entries| - 1], k);
    }
  }

  lemma StepKeepsContiguous(derive: Derive, b: Book, a: Action, now: string)
    requires Contiguous(derive, b)
    ensures Contiguous(derive, Step(derive, b, a, now))
  {
    hide Contiguous;
    match a
    case DoIssueChange(index) =>
      NextIsFree(derive, b, Change, index);
      AppendContiguous(derive, b, Change, Some(now));
    case DoIssueNext(side) =>
      NextIsFree(derive, b, side, Next(b, side));
      AppendContiguous(derive, b, side, Some(now));
    case DoCommit(receive, change) =>
      if Commit(derive, b, receive, change, now).Ok? {
        CommitContiguous(derive, b, receive, change, now);
      }
    case DoMarkUsed(addresses) => SameKeysContiguous(derive, b, Step(derive, b, a, now));
    case DoRebuild =>
      if Rebuild(derive, b, now).Ok? {
        RebuildRestores(derive, b, now);
      }
  }

  /** Contiguity holds in every reachable state of the book. */
  lemma {:induction false} RunIsContiguous(derive: Derive, actions: seq<(Action, string)>)
    ensures Contiguous(derive, Run(derive, actions))
  {
    if actions != [] {
      var front, last := actions[..|actions| - 1], actions[|actions| - 1];
      RunIsContiguous(derive, front);
      StepKeepsContiguous(derive, Run(derive, front), last.0, last.1);
      hide Contiguous, Step;
    }
  }

  /** With derivations that differ by index, an address is in the book exactly when its index is issued. */
  lemma IssuedIsPresent(derive: Derive, b: Book, side: Side, index: nat)
    requires Contiguous(derive, b)
    requires forall s, i, t, j :: derive(s, i) == derive(t, j) ==> s == t && i == j
    ensures (exists e :: e in b.entries && e.side == side && e.derived == derive(side, index)) <==> index < Next(b, side)
  {
    NextIsFree(derive, b, side, index);
    if index < Next(b, side) {
      var k := Find(b.entries, side, index);
      assert Proper(derive, b, b.entries[k]);
      assert b.entries[k] in b.entries;
    }
    forall e | e in b.entries && e.side == side && e.derived == derive(side, index) ensures index < Next(b, side) {
      var k :| 0 <= k < |b.entries| && b.entries[k] == e;
      assert Proper(derive, b, b.entries[k]);
    }
  }

  /** A discovery result always commits to a fresh account, and leaves its first unused address issued. */
  lemma DiscoveryCommits(derive: Derive, receive: Stats, change: Stats, gap: nat, limit: nat, now: string)
    requires 0 < gap <= limit < INDEX_LIMIT && Answered(receive, limit) && Answered(change, limit)
    requires Discover(receive, gap, limit).Ok? && Discover(change, gap, limit).Ok?
    ensures
      var r, c := Discover(receive, gap, limit).value, Discover(change, gap, limit).value;
      var committed := Commit(derive, EMPTY, r.usage, c.usage, now);
      && committed.Ok? && Contiguous(derive, committed.value)
      && committed.value.nextReceive == r.scanned - gap + 1 && committed.value.nextChange == c.scanned - gap
  {
    DiscoverMeans(receive, gap, limit);
    DiscoverMeans(change, gap, limit);
    var r, c := Discover(receive, gap, limit).value, Discover(change, gap, limit).value;
    DiscoveredIsWellShaped(receive, AfterLastUsed(receive, r.scanned));
    DiscoveredIsWellShaped(change, AfterLastUsed(change, c.scanned));
    ScanMeans(receive, gap, limit, 0, 0);
    ScanMeans(change, gap, limit, 0, 0);
    hide Contiguous, WellShaped, Scan;
    CommitContiguous(derive, EMPTY, r.usage, c.usage, now);
  }
}
