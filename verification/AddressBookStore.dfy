/** The account record of the wallet file, updated in place, and the service's receive address. */
module AddressBookStore {
  import opened Wrappers
  import opened Discovery
  import opened AddressBook

  /** One more than the highest used receive index: `_next_receive_index`. */
  function TargetIndex(entries: seq<Entry>): nat {
    if entries == [] then 0
    else
      var rest, last := TargetIndex(entries[..|entries| - 1]), entries[|entries| - 1];
      if last.side.Receive? && last.used && last.index + 1 > rest then last.index + 1 else rest
  }

  /** One more than the highest receive index present. */
  function AfterHighest(entries: seq<Entry>): nat {
    if entries == [] then 0
    else
      var rest, last := AfterHighest(entries[..|entries| - 1]), entries[|entries| - 1];
      if last.side.Receive? && last.index + 1 > rest then last.index + 1 else rest
  }

  lemma {:induction false} TargetBelow(entries: seq<Entry>, bound: nat)
    requires forall k :: 0 <= k < |entries| && entries[k].side.Receive? ==> entries[k].index < bound
    ensures TargetIndex(entries) <= AfterHighest(entries) <= bound
  {
    if entries != [] {
      TargetBelow(entries[..|entries| - 1], bound);
    }
  }

  lemma {:induction false} HighestAbove(entries: seq<Entry>, k: nat)
    requires k < |entries| && entries[k].side.Receive?
    ensures entries[k].index < AfterHighest(entries)
  {
    if k < |entries| - 1 {
      HighestAbove(entries[..|entries| - 1], k);
    }
  }

  /** In a contiguous book the highest receive index is the one before the next. */
  lemma HighestIsLast(derive: Derive, b: Book)
    requires Contiguous(derive, b)
    ensures TargetIndex(b.entries) <= AfterHighest(b.entries) == b.nextReceive
  {
    forall k | 0 <= k < |b.entries| && b.entries[k].side.Receive? ensures b.entries[k].index < b.nextReceive {
      assert Proper(derive, b, b.entries[k]);
    }
    TargetBelow(b.entries, b.nextReceive);
    if b.nextReceive > 0 {
      assert Has(b.entries, Receive, b.nextReceive - 1);
      HighestAbove(b.entries, Find(b.entries, Receive, b.nextReceive - 1));
    }
  }

  /** The target is right after the highest used receive index, or zero when none is used. */
  lemma {:induction false} TargetFollowsUse(entries: seq<Entry>)
    ensures forall e :: e in entries && e.side.Receive? && e.used ==> e.index < TargetIndex(entries)
    ensures TargetIndex(entries) > 0 ==> exists e :: e in entries && e.side.Receive? && e.used && e.index + 1 == TargetIndex(entries)
  {
    if entries != [] {
      var front, last := entries[..|entries| - 1], entries[|entries| - 1];
      TargetFollowsUse(front);
      assert entries == front + [last] && last in entries;
      if TargetIndex(front) > 0 {
        var e :| e in front && e.side.Receive? && e.used && e.index + 1 == TargetIndex(front);
        assert e in entries;
      }
    }
  }

  class AccountRecord {
    const derive: Derive
    var entries: seq<Entry>
    var nextReceive: nat
    var nextChange: nat

    function Contents(): Book
      reads this
    {
      Book(entries, nextReceive, nextChange)
    }

    constructor (derive: Derive)
      ensures Contents() == EMPTY && this.derive == derive
    {
      this.derive := derive;
      entries, nextReceive, nextChange := [], 0, 0;
    }

    method IssueChangeAddress(index: nat, now: string) returns (r: Result<Entry, BookError>)
      modifies this`entries, this`nextChange
      ensures
        match IssueChange(derive, old(Contents()), index, now)
        case Ok((b, e)) => r == Ok(e) && Contents() == b
        case Err(e) => r == Err(e) && Contents() == old(Contents())
    {
      if index >= INDEX_LIMIT || nextChange >= INDEX_LIMIT {
        return Err(IndexOutOfRange);
      }
      var expected := Fresh(derive, Change, index, None);
      var k := Find(entries, Change, index);
      if index < nextChange {
        if k == |entries| {
          return Err(EntryMissing);
        }
        return if entries[k].derived != expected.derived then Err(DoesNotDerive) else Ok(entries[k]);
      }
      if index > nextChange {
        return Err(NotNextIndex);
      }
      var entry := expected.(created := Some(now));
      if k == |entries| {
        entries := entries + [entry];
      } else {
        if entries[k].derived != expected.derived {
          return Err(DoesNotDerive);
        }
        entry := entries[k].(created := if entries[k].created.Some? then entries[k].created else Some(now));
        entries := entries[k := entry];
      }
      nextChange := index + 1;
      r := Ok(entry);
    }

    method IssueNextAddress(side: Side, now: string) returns (r: Result<Entry, BookError>)
      modifies this`entries, this`nextReceive, this`nextChange
      ensures
        match IssueNext(derive, old(Contents()), side, now)
        case Ok((b, e)) => r == Ok(e) && Contents() == b
        case Err(e) => r == Err(e) && Contents() == old(Contents())
    {
      var index := Next(Contents(), side);
      if index >= INDEX_LIMIT {
        return Err(IndexOutOfRange);
      }
      var k := Find(entries, side, index);
      var entry: Entry;
      if k == |entries| {
        entry := Fresh(derive, side, index, Some(now));
        entries := entries + [entry];
      } else {
        if entries[k].created.Some? {
          return Err(AlreadyPresent);
        }
        if entries[k].derived != derive(side, index) {
          return Err(DoesNotDerive);
        }
        entry := entries[k].(created := Some(now));
        entries := entries[k := entry];
      }
      if side.Receive? {
        nextReceive := index + 1;
      } else {
        nextChange := index + 1;
      }
      r := Ok(entry);
    }

    /** The entries of one branch, index by index. */
    method DeriveDiscovered(side: Side, usage: map<nat, bool>) returns (derived: seq<Entry>)
      requires WellShaped(usage)
      ensures derived == Discovered(derive, side, usage, |usage|)
    {
      derived := [];
      for index := 0 to |usage|
        invariant derived == Discovered(derive, side, usage, index)
      {
        derived := derived + [Fresh(derive, side, index, None).(used := index in usage && usage[index])];
      }
    }

    method CommitDiscovery(receive: map<nat, bool>, change: map<nat, bool>, now: string) returns (r: Option<BookError>)
      modifies this`entries, this`nextReceive, this`nextChange
      ensures
        match Commit(derive, old(Contents()), receive, change, now)
        case Ok(b) => r == None && Contents() == b
        case Err(e) => r == Some(e) && Contents() == old(Contents())
    {
      if entries != [] || nextReceive != 0 || nextChange != 0 {
        return Some(NotEmpty);
      }
      if !WellShaped(receive) || !WellShaped(change) {
        return Some(InvalidUsage);
      }
      if |receive| >= INDEX_LIMIT || |change| > INDEX_LIMIT {
        return Some(IndexOutOfRange);
      }
      var received := DeriveDiscovered(Receive, receive);
      var changed := DeriveDiscovered(Change, change);
      entries := received + changed + [Fresh(derive, Receive, |receive|, Some(now))];
      nextReceive, nextChange := |receive| + 1, |change|;
      r := None;
    }

    method MarkAddressesUsed(addresses: set<string>) returns (changed: nat)
      modifies this`entries
      ensures entries == MarkUsed(old(entries), addresses)
      ensures changed == NewlyUsed(old(entries), addresses)
    {
      changed := 0;
      for k := 0 to |entries|
        invariant |entries| == |old(entries)|
        invariant forall i :: 0 <= i < k ==> entries[i] == MarkUsed(old(entries), addresses)[i]
        invariant forall i :: k <= i < |entries| ==> entries[i] == old(entries)[i]
        invariant changed == NewlyUsed(old(entries)[..k], addresses)
      {
        assert old(entries)[..k + 1][..k] == old(entries)[..k];
        if entries[k].derived.address in addresses && !entries[k].used {
          entries := entries[k := entries[k].(used := true)];
          changed := changed + 1;
        }
      }
      assert old(entries)[..|old(entries)|] == old(entries);
    }

    /** One branch of the rebuilding loop, with the number of entries it had to date anew. */
    method RebuildBranch(side: Side, n: nat, now: string) returns (rebuilt: seq<Entry>, recovered: nat)
      ensures rebuilt == RestoredAll(derive, entries, side, n, now) && recovered == Undated(rebuilt)
    {
      rebuilt, recovered := [], 0;
      for index := 0 to n
        invariant rebuilt == RestoredAll(derive, entries, side, index, now) && recovered == Undated(rebuilt)
      {
        var entry := Restored(derive, entries, side, index, now);
        UndatedAppend(rebuilt, [entry]);
        rebuilt := rebuilt + [entry];
        if entry.created.None? {
          recovered := recovered + 1;
        }
      }
    }

    /** Answers how many entries had to be dated anew. */
    method RebuildBook(now: string) returns (r: Result<nat, BookError>)
      modifies this`entries
      ensures
        match Rebuild(derive, old(Contents()), now)
        case Ok(b) => Contents() == b && r == Ok(Undated(b.entries))
        case Err(e) => Contents() == old(Contents()) && r == Err(e)
    {
      if nextReceive >= INDEX_LIMIT || nextChange >= INDEX_LIMIT {
        return Err(IndexOutOfRange);
      }
      var received, receivedAnew := RebuildBranch(Receive, nextReceive, now);
      var changed, changedAnew := RebuildBranch(Change, nextChange, now);
      UndatedAppend(received, changed);
      entries := received + changed;
      r := Ok(receivedAnew + changedAnew);
    }

    /** `get_receive_address`, on any book. */
    method GetReceiveAddress(now: string) returns (r: Result<string, BookError>)
      modifies this`entries, this`nextReceive, this`nextChange
      ensures (Contents(), r) == ReceiveAddress(derive, old(Contents()), now)
    {
      if AfterHighest(entries) == 0 {
        var first := IssueNextAddress(Receive, now);
        return if first.Ok? then Ok(first.value.derived.address) else Err(first.error);
      }
      var target := TargetIndex(entries);
      var k := Find(entries, Receive, target);
      if k < |entries| {
        return Ok(entries[k].derived.address);
      }
      var highest := AfterHighest(entries) - 1;
      while highest < target
        invariant ReceiveAddress(derive, old(Contents()), now) == IssueUntil(derive, Contents(), highest, target, now)
        decreases INDEX_LIMIT - nextReceive
      {
        var created := IssueNextAddress(Receive, now);
        if created.Err? {
          return Err(created.error);
        }
        highest := created.value.index;
        if highest == target {
          return Ok(created.value.derived.address);
        }
      }
      r := Err(CannotResolve);
    }
  }

  /** The issuing loop: one address after another until the target index comes up. */
  function IssueUntil(derive: Derive, b: Book, highest: int, target: nat, now: string): (Book, Result<string, BookError>)
    decreases INDEX_LIMIT - b.nextReceive
  {
    if highest >= target then (b, Err(CannotResolve))
    else
      match IssueNext(derive, b, Receive, now)
      case Err(e) => (b, Err(e))
      case Ok((g, created)) =>
        if created.index == target then (g, Ok(created.derived.address)) else IssueUntil(derive, g, created.index, target, now)
  }

  /** The receive address after the last used one, and the book it leaves. */
  function ReceiveAddress(derive: Derive, b: Book, now: string): (Book, Result<string, BookError>) {
    if AfterHighest(b.entries) == 0 then
      match IssueNext(derive, b, Receive, now)
      case Err(e) => (b, Err(e))
      case Ok((g, created)) => (g, Ok(created.derived.address))
    else
      var target := TargetIndex(b.entries);
      var k := Find(b.entries, Receive, target);
      if k < |b.entries| then (b, Ok(b.entries[k].derived.address)) else IssueUntil(derive, b, AfterHighest(b.entries) - 1, target, now)
  }

  /**
   * On a contiguous book the answer is the derived address after the last used index; at most that one
   * address is issued, and the final error is never reached.
   */
  lemma ReceiveAddressMeans(derive: Derive, b: Book, now: string)
    requires Contiguous(derive, b)
    ensures
      var target := TargetIndex(b.entries);
      var (g, r) := ReceiveAddress(derive, b, now);
      && Contiguous(derive, g) && target <= b.nextReceive
      && if target < b.nextReceive then g == b && r == Ok(derive(Receive, target).address)
         else if target >= INDEX_LIMIT then g == b && r == Err(IndexOutOfRange)
         else g == b.(entries := b.entries + [Fresh(derive, Receive, target, Some(now))], nextReceive := target + 1)
              && r == Ok(derive(Receive, target).address)
  {
    var target := TargetIndex(b.entries);
    HighestIsLast(derive, b);
    IssueNextAppends(derive, b, Receive, now);
    AppendContiguous(derive, b, Receive, Some(now));
    NextIsFree(derive, b, Receive, target);
    ProperAt(derive, b, Receive, target);
    hide Contiguous, IssueNext, TargetIndex, AfterHighest;
  }

  lemma ProperAt(derive: Derive, b: Book, side: Side, index: nat)
    requires Contiguous(derive, b)
    ensures Has(b.entries, side, index) ==> b.entries[Find(b.entries, side, index)].derived == derive(side, index)
  {
    if Has(b.entries, side, index) {
      assert Proper(derive, b, b.entries[Find(b.entries, side, index)]);
    }
  }
}
