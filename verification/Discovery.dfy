/** Gap-limit discovery of used addresses (`wallet/service.py`; BIP 44, "Address gap limit"). */
module Discovery {
  import opened Wrappers

  datatype DiscoveryError = SafetyLimit | BackendFailed(index: nat)

  /** Whether an address has history, or that the backend could not tell. */
  datatype Answer = Used | Unused | Failed

  type Stats = nat -> Answer

  /** How many addresses were looked at, and the usage of each up to the last used one. */
  datatype Branch = Branch(scanned: nat, usage: map<nat, bool>)

  function UsageUpTo(stats: Stats, n: nat): map<nat, bool> {
    map i | 0 <= i < n :: stats(i).Used?
  }

  /** One more than the last used index below `n`. */
  function AfterLastUsed(stats: Stats, n: nat): (k: nat)
    ensures k <= n && (k > 0 ==> stats(k - 1).Used?)
    ensures forall i :: k <= i < n ==> !stats(i).Used?
  {
    if n == 0 || stats(n - 1).Used? then n else AfterLastUsed(stats, n - 1)
  }

  /** The loop: `run` unused addresses in a row lie just below `index`. */
  function Scan(stats: Stats, gap: nat, limit: nat, index: nat, run: nat): Result<nat, DiscoveryError>
    requires index <= limit || run >= gap
    decreases limit - index
  {
    if run >= gap then Ok(index)
    else if index >= limit then Err(SafetyLimit)
    else
      match stats(index)
      case Failed => Err(BackendFailed(index))
      case Used => Scan(stats, gap, limit, index + 1, 0)
      case Unused => Scan(stats, gap, limit, index + 1, run + 1)
  }

  /** `_discover_branch`. */
  function Discover(stats: Stats, gap: nat, limit: nat): Result<Branch, DiscoveryError> {
    var scanned :- Scan(stats, gap, limit, 0, 0);
    Ok(Branch(scanned, UsageUpTo(stats, AfterLastUsed(stats, scanned))))
  }

  /** `gap` unused addresses in a row, from `start` on. */
  predicate GapAt(stats: Stats, start: nat, gap: nat) {
    forall i :: start <= i < start + gap ==> stats(i).Unused?
  }

  /** The backend answered for every address below `n`. */
  predicate Answered(stats: Stats, n: nat) {
    forall i :: 0 <= i < n ==> !stats(i).Failed?
  }

  /** What the loop knows: everything below was answered, and its current run is the longest suffix. */
  predicate Scanned(stats: Stats, gap: nat, index: nat, run: nat) {
    && run <= index && Answered(stats, index) && GapAt(stats, index - run, run)
    && (index > run ==> stats(index - run - 1).Used?)
    && forall start :: 0 <= start && start + gap < index + (if run < gap then 1 else 0) ==> !GapAt(stats, start, gap)
  }

  lemma NoGapOver(stats: Stats, start: nat, gap: nat, i: nat)
    requires start <= i < start + gap && stats(i).Used?
    ensures !GapAt(stats, start, gap)
  {
  }

  lemma ScannedStep(stats: Stats, gap: nat, index: nat, run: nat)
    requires gap > 0 && run < gap && Scanned(stats, gap, index, run) && !stats(index).Failed?
    ensures Scanned(stats, gap, index + 1, if stats(index).Used? then 0 else run + 1)
  {
    var next := if stats(index).Used? then 0 else run + 1;
    forall start | 0 <= start && start + gap < index + 1 + (if next < gap then 1 else 0) ensures !GapAt(stats, start, gap) {
      if start + gap == index + 1 {
        if stats(index).Used? {
          NoGapOver(stats, start, gap, index);
        } else {
          NoGapOver(stats, start, gap, index - run - 1);
        }
      }
    }
  }

  /** The scan ends at the first gap, or shows that there is none within the limit. */
  lemma {:induction false} ScanMeans(stats: Stats, gap: nat, limit: nat, index: nat, run: nat)
    requires gap > 0 && index <= limit && run <= gap && Scanned(stats, gap, index, run)
    ensures
      match Scan(stats, gap, limit, index, run)
      case Ok(end) => gap <= end <= limit && Answered(stats, end) && FirstGap(stats, end - gap, gap)
      case Err(SafetyLimit) => Answered(stats, limit) && forall start :: 0 <= start && start + gap <= limit ==> !GapAt(stats, start, gap)
      case Err(BackendFailed(i)) =>
        i < limit && stats(i).Failed? && Answered(stats, i) && forall start :: 0 <= start && start + gap <= i ==> !GapAt(stats, start, gap)
    decreases limit - index
  {
    if run < gap && index < limit && !stats(index).Failed? {
      ScannedStep(stats, gap, index, run);
      hide Scanned;
      ScanMeans(stats, gap, limit, index + 1, if stats(index).Used? then 0 else run + 1);
    }
  }

  /** `start` begins a gap and no earlier index does. */
  predicate FirstGap(stats: Stats, start: nat, gap: nat) {
    GapAt(stats, start, gap) && forall t :: 0 <= t < start ==> !GapAt(stats, t, gap)
  }

  /**
   * Against a backend that answers, discovery finds the first run of `gap` unused addresses: it scans up
   * to its end, which is the last used index plus one plus the gap, and returns the usage of every
   * address below it. It fails exactly when no such run ends within the limit.
   */
  lemma DiscoverMeans(stats: Stats, gap: nat, limit: nat)
    requires 0 < gap <= limit && Answered(stats, limit)
    ensures Discover(stats, gap, limit).Ok? <==> exists start :: 0 <= start && start + gap <= limit && FirstGap(stats, start, gap)
    ensures Discover(stats, gap, limit).Err? ==> Discover(stats, gap, limit) == Err(SafetyLimit)
    ensures Discover(stats, gap, limit).Ok? ==>
      var b := Discover(stats, gap, limit).value;
      var start := AfterLastUsed(stats, b.scanned);
      && FirstGap(stats, start, gap) && b.scanned == start + gap
      && b.usage == UsageUpTo(stats, start) && (start > 0 ==> stats(start - 1).Used?)
  {
    ScanMeans(stats, gap, limit, 0, 0);
    match Scan(stats, gap, limit, 0, 0)
    case Ok(end) => GapEndsUse(stats, end, gap);
    case Err(_) =>
  }

  /** The usage returned covers an unbroken run of indexes from zero and says of each whether it was used. */
  lemma DiscoveredUsage(stats: Stats, gap: nat, limit: nat)
    requires Discover(stats, gap, limit).Ok?
    ensures
      var usage := Discover(stats, gap, limit).value.usage;
      && (forall i: nat :: i in usage <==> i < |usage|)
      && (forall i :: i in usage ==> (usage[i] <==> stats(i) == Used))
  {
    var scanned := Scan(stats, gap, limit, 0, 0).value;
    DiscoveredIsWellShaped(stats, AfterLastUsed(stats, scanned));
    hide Scan, AfterLastUsed;
  }

  /** The first gap starts right after a used address. */
  lemma GapEndsUse(stats: Stats, end: nat, gap: nat)
    requires 0 < gap <= end && Answered(stats, end) && FirstGap(stats, end - gap, gap)
    ensures AfterLastUsed(stats, end) == end - gap
  {
    var start: nat := end - gap;
    var k := AfterLastUsed(stats, end);
    assert GapAt(stats, start, gap);
    assert forall i :: start <= i < end ==> stats(i).Unused?;
    if start > 0 {
      GapFollowsUse(stats, start, gap);
    }
  }

  lemma GapFollowsUse(stats: Stats, start: nat, gap: nat)
    requires 0 < start && Answered(stats, start) && GapAt(stats, start, gap) && !GapAt(stats, start - 1, gap)
    ensures stats(start - 1).Used?
  {
    var i :| start - 1 <= i < start - 1 + gap && !stats(i).Unused?;
    assert i == start - 1;
  }

  /** No used address is missed unless a gap precedes it; nothing above the first gap is reported. */
  lemma UsedAddressFound(stats: Stats, gap: nat, limit: nat, i: nat)
    requires 0 < gap <= limit && Answered(stats, limit) && stats(i).Used? && Discover(stats, gap, limit).Ok?
    ensures
      var usage := Discover(stats, gap, limit).value.usage;
      (i in usage && usage[i]) <==> forall start :: 0 <= start < i ==> !GapAt(stats, start, gap)
  {
    DiscoverMeans(stats, gap, limit);
    var start := AfterLastUsed(stats, Discover(stats, gap, limit).value.scanned);
    if i >= start {
      assert GapAt(stats, start, gap);
      assert i != start;
    }
  }

  function Below(n: nat): (r: set<nat>)
    ensures |r| == n && forall i: nat :: i in r <==> i < n
  {
    if n == 0 then {} else Below(n - 1) + {n - 1}
  }

  /** The keys are 0, 1, 2, ... without a hole: what `commit_discovered_addresses` demands. */
  predicate WellShaped(usage: map<nat, bool>) {
    usage.Keys == Below(|usage|)
  }

  /** What is discovered always passes the shape check, with one entry per index up to the last used. */
  lemma DiscoveredIsWellShaped(stats: Stats, n: nat)
    ensures WellShaped(UsageUpTo(stats, n)) && |UsageUpTo(stats, n)| == n
  {
    var usage := UsageUpTo(stats, n);
    assert usage.Keys == Below(n);
    assert |usage| == |usage.Keys|;
  }

  /** The scanning loop, with its usage dictionary and its run of unused addresses. */
  method DiscoverBranch(stats: Stats, gap: nat, limit: nat) returns (r: Result<Branch, DiscoveryError>)
    requires 0 < gap
    ensures r == Discover(stats, gap, limit)
  {
    var usage: map<nat, bool> := map[];
    var consecutiveUnused, index := 0, 0;
    while consecutiveUnused < gap
      invariant index <= limit && usage == UsageUpTo(stats, index)
      invariant Scan(stats, gap, limit, 0, 0) == Scan(stats, gap, limit, index, consecutiveUnused)
      decreases limit - index
    {
      if index >= limit {
        return Err(SafetyLimit);
      }
      var answer := stats(index);
      if answer.Failed? {
        return Err(BackendFailed(index));
      }
      usage := usage[index := answer.Used?];
      consecutiveUnused := if answer.Used? then 0 else consecutiveUnused + 1;
      index := index + 1;
    }
    var lastUsed := LastUsed(usage, index);
    SameLastUsed(stats, index);
    var committed := map i: nat | 0 <= i < lastUsed + 1 && i in usage :: usage[i];
    assert committed == UsageUpTo(stats, AfterLastUsed(stats, index));
    r := Ok(Branch(index, committed));
  }

  /** `max(used_indexes, default=-1)`. */
  function LastUsed(usage: map<nat, bool>, n: nat): (k: int)
    ensures -1 <= k < n
  {
    if n == 0 then -1 else if n - 1 in usage && usage[n - 1] then n - 1 else LastUsed(usage, n - 1)
  }

  lemma {:induction false} SameLastUsed(stats: Stats, n: nat)
    ensures LastUsed(UsageUpTo(stats, n), n) + 1 == AfterLastUsed(stats, n)
    decreases n
  {
    LastUsedOfPrefix(stats, n, n);
  }

  lemma {:induction false} LastUsedOfPrefix(stats: Stats, n: nat, k: nat)
    requires k <= n
    ensures LastUsed(UsageUpTo(stats, n), k) + 1 == AfterLastUsed(stats, k)
  {
    if k > 0 {
      LastUsedOfPrefix(stats, n, k - 1);
    }
  }
}
