/**
 * What each operation on an address book answers and leaves, entry by entry and field by field, on any
 * book, contiguous or not.
 */
module AddressBookFormat {
  import opened Wrappers
  import opened Bytes
  import opened Discovery
  import opened AddressBook

  /** A new entry: derived, unused, unlabelled. */
  predicate IsNew(derive: Derive, e: Entry, side: Side, index: nat, created: Option<string>) {
    && e.side == side && e.index == index && e.derived == derive(side, index)
    && !e.used && e.note == "" && e.created == created && e.recovered == None
  }

  /** Entry `k` is the first of this branch and index. */
  predicate FirstAt(entries: seq<Entry>, side: Side, index: nat, k: nat) {
    && k < |entries| && entries[k].side == side && entries[k].index == index
    && forall i :: 0 <= i < k ==> entries[i].side != side || entries[i].index != index
  }

  lemma FindFirst(entries: seq<Entry>, side: Side, index: nat, k: nat)
    ensures FirstAt(entries, side, index, k) ==> Find(entries, side, index) == k
    ensures (forall i: nat :: !FirstAt(entries, side, index, i)) ==> Find(entries, side, index) == |entries|
  {
    var found := Find(entries, side, index);
    if found < |entries| {
      assert FirstAt(entries, side, index, found);
    }
  }

  /** The next index of one branch is one higher, the other branch's is as before. */
  predicate Advanced(b: Book, g: Book, side: Side) {
    if side == Receive then g.nextReceive == b.nextReceive + 1 && g.nextChange == b.nextChange
    else g.nextChange == b.nextChange + 1 && g.nextReceive == b.nextReceive
  }

  /** The book has one more entry at the end, new and created now, or entry `k` got its creation time. */
  predicate Issues(derive: Derive, b: Book, g: Book, e: Entry, side: Side, index: nat, k: nat, now: string) {
    && Advanced(b, g, side)
    && if k == |b.entries| then g.entries == b.entries + [e] && IsNew(derive, e, side, index, Some(now))
       else k < |b.entries| && g.entries == b.entries[k := e] && e == b.entries[k].(created := e.created) && e.created.Some?
  }

  /**
   * Issuing the next address appends a new entry, or dates the undated entry a restored book may already
   * hold there; an entry that is dated, or not the derived one, is refused.
   */
  lemma IssueNextExactly(derive: Derive, b: Book, side: Side, now: string, index: nat, k: nat)
    requires index == if side == Receive then b.nextReceive else b.nextChange
    requires FirstAt(b.entries, side, index, k) || (k == |b.entries| && forall i: nat :: !FirstAt(b.entries, side, index, i))
    ensures
      var r := IssueNext(derive, b, side, now);
      if index >= 0x8000_0000 then r == Err(IndexOutOfRange)
      else if k < |b.entries| && b.entries[k].created != None then r == Err(AlreadyPresent)
      else if k < |b.entries| && b.entries[k].derived != derive(side, index) then r == Err(DoesNotDerive)
      else r.Ok? && Issues(derive, b, r.value.0, r.value.1, side, index, k, now) && r.value.1.created == Some(now)
  {
    FindFirst(b.entries, side, index, k);
  }

  /**
   * Issuing a given change index: one that was issued before is answered from the book, the next one is
   * appended, or completed if a restored book holds it, and any later one is refused.
   */
  lemma IssueChangeExactly(derive: Derive, b: Book, index: nat, now: string, k: nat)
    requires FirstAt(b.entries, Change, index, k) || (k == |b.entries| && forall i: nat :: !FirstAt(b.entries, Change, index, i))
    ensures
      var r, found := IssueChange(derive, b, index, now), k < |b.entries|;
      if index >= 0x8000_0000 || b.nextChange >= 0x8000_0000 then r == Err(IndexOutOfRange)
      else if index > b.nextChange then r == Err(NotNextIndex)
      else if index < b.nextChange && !found then r == Err(EntryMissing)
      else if found && b.entries[k].derived != derive(Change, index) then r == Err(DoesNotDerive)
      else if index < b.nextChange then r == Ok((b, b.entries[k]))
      else
        && r.Ok? && Issues(derive, b, r.value.0, r.value.1, Change, index, k, now)
        && (found && b.entries[k].created.Some? ==> r.value.1.created == b.entries[k].created)
        && (found && b.entries[k].created.None? ==> r.value.1.created == Some(now))
  {
    FindFirst(b.entries, Change, index, k);
  }

  /** Usage was recorded for every index below some number and for no other. */
  predicate Unbroken(usage: map<nat, bool>) {
    forall i :: 0 <= i < |usage| ==> i in usage
  }

  lemma {:induction false} DiscoveredAt(derive: Derive, side: Side, usage: map<nat, bool>, n: nat, k: nat)
    requires k < n
    ensures
      var e := Discovered(derive, side, usage, n)[k];
      IsNew(derive, e.(used := false), side, k, None) && (e.used <==> k in usage && usage[k])
  {
    if k < n - 1 {
      DiscoveredAt(derive, side, usage, n - 1, k);
    }
  }

  /** One undated entry for each index in turn, marked used exactly if it was. */
  predicate FoundAll(derive: Derive, side: Side, usage: map<nat, bool>, found: seq<Entry>) {
    && |found| == |usage|
    && forall k :: 0 <= k < |found| ==>
         IsNew(derive, found[k].(used := false), side, k, None) && (found[k].used <==> k in usage && usage[k])
  }

  lemma DiscoveredIsFound(derive: Derive, side: Side, usage: map<nat, bool>)
    ensures FoundAll(derive, side, usage, Discovered(derive, side, usage, |usage|))
  {
    forall k | 0 <= k < |usage|
      ensures var e := Discovered(derive, side, usage, |usage|)[k];
        IsNew(derive, e.(used := false), side, k, None) && (e.used <==> k in usage && usage[k])
    {
      DiscoveredAt(derive, side, usage, |usage|, k);
    }
    hide Discovered, IsNew;
  }

  /**
   * A discovery is committed exactly into an untouched book and from unbroken usage: what was found of the
   * receive branch, what was found of the change branch, and one new receive address created now.
   */
  lemma CommitExactly(derive: Derive, b: Book, receive: map<nat, bool>, change: map<nat, bool>, now: string)
    ensures
      var r, n, m := Commit(derive, b, receive, change, now), |receive|, |change|;
      && (r.Ok? <==> b == Book([], 0, 0) && Unbroken(receive) && Unbroken(change) && n < 0x8000_0000 && m <= 0x8000_0000)
      && (r.Ok? ==>
            var g := r.value;
            && g.nextReceive == n + 1 && g.nextChange == m && |g.entries| == n + m + 1
            && FoundAll(derive, Receive, receive, g.entries[..n]) && FoundAll(derive, Change, change, g.entries[n..n + m])
            && IsNew(derive, g.entries[n + m], Receive, n, Some(now)))
  {
    WellShapedIsUnbroken(receive);
    WellShapedIsUnbroken(change);
    DiscoveredIsFound(derive, Receive, receive);
    DiscoveredIsFound(derive, Change, change);
    hide WellShaped, Unbroken, Discovered, FoundAll;
    if Commit(derive, b, receive, change, now).Ok? {
      var n, m := |receive|, |change|;
      var g := Commit(derive, b, receive, change, now).value;
      assert g.entries[..n] == Discovered(derive, Receive, receive, n);
      assert g.entries[n..n + m] == Discovered(derive, Change, change, m);
    }
  }

  lemma WellShapedIsUnbroken(usage: map<nat, bool>)
    ensures WellShaped(usage) <==> Unbroken(usage)
  {
    if Unbroken(usage) {
      assert Below(|usage|) <= usage.Keys;
      Fills(usage.Keys, |usage|);
    }
  }

  lemma Fills(s: set<nat>, n: nat)
    requires Below(n) <= s && |s| == n
    ensures s == Below(n)
  {
    assert |s - Below(n)| == |s| - |Below(n)|;
  }

  /** Entry `k` is the last of this branch and index. */
  predicate LastAt(entries: seq<Entry>, side: Side, index: nat, k: nat) {
    && k < |entries| && entries[k].side == side && entries[k].index == index
    && forall i :: k < i < |entries| ==> entries[i].side != side || entries[i].index != index
  }

  lemma {:induction false} ExistingIsLast(entries: seq<Entry>, side: Side, index: nat)
    ensures
      match Existing(entries, side, index)
      case Some(e) => exists k: nat :: LastAt(entries, side, index, k) && entries[k] == e
      case None => forall k: nat :: !LastAt(entries, side, index, k) && (k < |entries| ==> entries[k].side != side || entries[k].index != index)
  {
    if entries != [] {
      var n := |entries| - 1;
      var front := entries[..n];
      ExistingIsLast(front, side, index);
      if entries[n].side == side && entries[n].index == index {
        assert LastAt(entries, side, index, n);
      } else if Existing(front, side, index).Some? {
        var k: nat :| LastAt(front, side, index, k) && front[k] == Existing(front, side, index).value;
        assert LastAt(entries, side, index, k);
      } else {
        forall k: nat | k < |entries| ensures entries[k].side != side || entries[k].index != index {
          assert k < n ==> entries[k] == front[k];
        }
      }
    }
  }

  /** What rebuilding leaves for one index: derived anew, with what the last old entry knew; undated ones are marked recovered. */
  ghost predicate RebuiltFrom(derive: Derive, before: seq<Entry>, side: Side, index: nat, e: Entry, now: string) {
    && e.side == side && e.index == index && e.derived == derive(side, index)
    && (e.recovered == if e.created == None then Some(now) else None)
    && (if exists k: nat :: LastAt(before, side, index, k) then
          exists k: nat :: LastAt(before, side, index, k) && e.used == before[k].used && e.note == before[k].note && e.created == before[k].created
        else !e.used && e.note == "" && e.created == None)
  }

  lemma RestoredMeans(derive: Derive, entries: seq<Entry>, side: Side, index: nat, now: string)
    ensures RebuiltFrom(derive, entries, side, index, Restored(derive, entries, side, index, now), now)
  {
    ExistingIsLast(entries, side, index);
    hide Existing;
  }

  ghost predicate RebuiltAll(derive: Derive, before: seq<Entry>, side: Side, rebuilt: seq<Entry>, now: string) {
    forall k :: 0 <= k < |rebuilt| ==> RebuiltFrom(derive, before, side, k, rebuilt[k], now)
  }

  lemma RestoredAllMeans(derive: Derive, before: seq<Entry>, side: Side, n: nat, now: string)
    ensures RebuiltAll(derive, before, side, RestoredAll(derive, before, side, n, now), now)
  {
    hide Restored, RebuiltFrom;
    forall k: nat ensures RebuiltFrom(derive, before, side, k, Restored(derive, before, side, k, now), now) {
      RestoredMeans(derive, before, side, k, now);
    }
  }

  /** Rebuilding leaves one entry for every index below the counters, receive branch first, and the counters as they are. */
  lemma RebuildExactly(derive: Derive, b: Book, now: string)
    ensures
      var r, n, m := Rebuild(derive, b, now), b.nextReceive, b.nextChange;
      && (r.Ok? <==> n < 0x8000_0000 && m < 0x8000_0000)
      && (r.Ok? ==>
            && r.value.nextReceive == n && r.value.nextChange == m && |r.value.entries| == n + m
            && RebuiltAll(derive, b.entries, Receive, r.value.entries[..n], now)
            && RebuiltAll(derive, b.entries, Change, r.value.entries[n..], now))
  {
    RestoredAllMeans(derive, b.entries, Receive, b.nextReceive, now);
    RestoredAllMeans(derive, b.entries, Change, b.nextChange, now);
    hide RestoredAll, RebuiltAll;
    if Rebuild(derive, b, now).Ok? {
      var g := Rebuild(derive, b, now).value;
      assert g.entries[..b.nextReceive] == RestoredAll(derive, b.entries, Receive, b.nextReceive, now);
      assert g.entries[b.nextReceive..] == RestoredAll(derive, b.entries, Change, b.nextChange, now);
    }
  }
}
