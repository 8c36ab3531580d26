/** Complete address history from a paged backend (`network/esplora_backend.py`). */
module Pagination {
  import opened Wrappers
  import opened Bytes

  const MAX_PAGES: nat := 10_000

  /** A history record; `body` is whatever else the backend sent with it. */
  datatype Record = Record(txid: bytes, confirmed: bool, body: bytes)

  /** An element of a response: a record, or something that fails validation. */
  datatype Item = Good(record: Record) | Bad

  datatype HistoryError = RequestFailed | InvalidRecord | UnconfirmedInChain | DidNotAdvance | LimitReached | NoCursor

  /** The backend: its answer to request number `n`, the first page or the one after a cursor. */
  type Backend = (nat, Option<bytes>) -> Result<seq<Item>, HistoryError>

  // ----- Collecting records -----

  function Txids(records: seq<Record>): (r: seq<bytes>)
    ensures |r| == |records| && forall k :: 0 <= k < |records| ==> r[k] == records[k].txid
  {
    seq(|records|, k requires 0 <= k < |records| => records[k].txid)
  }

  predicate Distinct(records: seq<Record>) {
    forall i, j :: 0 <= i < j < |records| ==> records[i].txid != records[j].txid
  }

  /** Where a transaction was first put, or the length if it is new. */
  function Place(records: seq<Record>, txid: bytes): (k: nat)
    ensures k <= |records|
    ensures k < |records| ==> records[k].txid == txid
    ensures forall i :: 0 <= i < k ==> records[i].txid != txid
  {
    if records == [] || records[0].txid == txid then 0 else 1 + Place(records[1..], txid)
  }

  /** New transactions go last; a confirmed record replaces a mempool one in place. */
  function Add(ordered: seq<Record>, r: Record): seq<Record> {
    var k := Place(ordered, r.txid);
    if k == |ordered| then ordered + [r]
    else if r.confirmed && !ordered[k].confirmed then ordered[k := r]
    else ordered
  }

  function AddAll(ordered: seq<Record>, records: seq<Record>): seq<Record> {
    if records == [] then ordered else Add(AddAll(ordered, records[..|records| - 1]), records[|records| - 1])
  }

  /** The transactions in the order first seen. */
  function FirstSeen(records: seq<Record>): seq<bytes> {
    if records == [] then []
    else
      var front, txid := records[..|records| - 1], records[|records| - 1].txid;
      if Place(front, txid) < |front| then FirstSeen(front) else FirstSeen(front) + [txid]
  }

  /** `best` is the first confirmed record of its transaction, or else the first record of it. */
  predicate IsBest(records: seq<Record>, best: Record) {
    exists k :: 0 <= k < |records| && records[k] == best && BestAt(records, k)
  }

  predicate BestAt(records: seq<Record>, k: nat)
    requires k < |records|
  {
    if records[k].confirmed then forall j :: 0 <= j < k ==> records[j].txid != records[k].txid || !records[j].confirmed
    else
      && (forall j :: 0 <= j < k ==> records[j].txid != records[k].txid)
      && (forall j :: 0 <= j < |records| ==> records[j].txid != records[k].txid || !records[j].confirmed)
  }

  lemma PlaceOfMember(records: seq<Record>, txid: bytes)
    ensures Place(records, txid) < |records| <==> txid in Txids(records)
  {
    if txid in Txids(records) {
      var i :| 0 <= i < |records| && Txids(records)[i] == txid;
    }
    if Place(records, txid) < |records| {
      assert Txids(records)[Place(records, txid)] == txid;
    }
  }

  lemma {:induction false} FirstSeenHas(records: seq<Record>, txid: bytes)
    ensures txid in FirstSeen(records) <==> txid in Txids(records)
  {
    if records != [] {
      var front, last := records[..|records| - 1], records[|records| - 1];
      FirstSeenHas(front, txid);
      PlaceOfMember(front, last.txid);
      assert records == front + [last];
      TxidsAppend(front, last);
      hide Txids, Place;
    }
  }

  lemma BestGrows(front: seq<Record>, r: Record, best: Record)
    requires IsBest(front, best) && (best.txid != r.txid || best.confirmed || !r.confirmed)
    ensures IsBest(front + [r], best)
  {
    var k :| 0 <= k < |front| && front[k] == best && BestAt(front, k);
    assert BestAt(front + [r], k);
  }

  lemma BestIsNew(front: seq<Record>, r: Record)
    requires forall j :: 0 <= j < |front| ==> front[j].txid != r.txid || (r.confirmed && !front[j].confirmed)
    ensures IsBest(front + [r], r)
  {
    var k := |front|;
    assert (front + [r])[k] == r && BestAt(front + [r], k);
  }

  lemma BestOfUnconfirmed(records: seq<Record>, best: Record)
    requires IsBest(records, best) && !best.confirmed
    ensures forall j :: 0 <= j < |records| ==> records[j].txid != best.txid || !records[j].confirmed
  {
  }

  lemma TxidsUpdate(a: seq<Record>, k: nat, r: Record)
    requires k < |a| && a[k].txid == r.txid
    ensures Txids(a[k := r]) == Txids(a)
  {
  }

  lemma TxidsAppend(a: seq<Record>, r: Record)
    ensures Txids(a + [r]) == Txids(a) + [r.txid]
  {
  }

  /** Each transaction appears once, in the order first seen, with its best record. */
  lemma {:induction false} AddAllMeans(records: seq<Record>)
    ensures
      var ordered := AddAll([], records);
      && Distinct(ordered) && Txids(ordered) == FirstSeen(records)
      && forall r :: r in ordered ==> IsBest(records, r)
  {
    if records != [] {
      var n := |records| - 1;
      var front, last := records[..n], records[n];
      var before, ordered := AddAll([], front), AddAll([], records);
      AddAllMeans(front);
      assert records == front + [last];
      FirstSeenHas(front, last.txid);
      PlaceOfMember(front, last.txid);
      var k := Place(before, last.txid);
      if k == |before| {
        assert last.txid !in Txids(before);
        TxidsAppend(before, last);
        BestIsNew(front, last);
      } else if last.confirmed && !before[k].confirmed {
        assert Txids(before)[k] == last.txid;
        assert before[k] in before;
        TxidsUpdate(before, k, last);
        BestOfUnconfirmed(front, before[k]);
        BestIsNew(front, last);
      } else {
        assert Txids(before)[k] == last.txid;
      }
      hide IsBest, FirstSeen, Txids;
      forall r | r in ordered ensures IsBest(records, r) {
        if r != last || r in before {
          BestStays(front, before, last, k, ordered, r);
        }
      }
    }
  }

  lemma BestStays(front: seq<Record>, before: seq<Record>, last: Record, k: nat, ordered: seq<Record>, r: Record)
    requires Distinct(before) && k == Place(before, last.txid) && ordered == Add(before, last)
    requires r in ordered && r in before && forall b :: b in before ==> IsBest(front, b)
    requires k < |before| && last.confirmed && !before[k].confirmed ==> IsBest(front + [last], last)
    ensures IsBest(front + [last], r)
  {
    var i :| 0 <= i < |before| && before[i] == r;
    if i == k && last.confirmed && !before[k].confirmed {
      var j :| 0 <= j < |ordered| && ordered[j] == r;
    } else {
      BestGrows(front, last, r);
    }
  }

  // ----- Pages -----

  datatype Progress = Progress(ordered: seq<Record>, last: Option<bytes>)

  /** `add_page`: every record of a page in turn; the last confirmed one gives the next cursor. */
  function AddPage(ordered: seq<Record>, page: seq<Item>, chain: bool): Result<Progress, HistoryError> {
    if page == [] then Ok(Progress(ordered, None))
    else
      var p :- AddPage(ordered, page[..|page| - 1], chain);
      match page[|page| - 1]
      case Bad => Err(InvalidRecord)
      case Good(r) =>
        if chain && !r.confirmed then Err(UnconfirmedInChain)
        else Ok(Progress(Add(p.ordered, r), if r.confirmed then Some(r.txid) else p.last))
  }

  /** The records of the valid items of a page. */
  function Records(page: seq<Item>): seq<Record> {
    if page == [] then []
    else Records(page[..|page| - 1]) + match page[|page| - 1] case Good(r) => [r] case Bad => []
  }

  lemma {:induction false} AddAllAppend(ordered: seq<Record>, a: seq<Record>, b: seq<Record>)
    ensures AddAll(AddAll(ordered, a), b) == AddAll(ordered, a + b)
  {
    hide Add;
    if b == [] {
      assert a + b == a;
    } else {
      var n := |b| - 1;
      AddAllAppend(ordered, a, b[..n]);
      assert (a + b)[..|a + b| - 1] == a + b[..n];
    }
  }

  lemma {:induction false} AddPageMeans(ordered: seq<Record>, page: seq<Item>, chain: bool)
    requires AddPage(ordered, page, chain).Ok?
    ensures AddPage(ordered, page, chain).value.ordered == AddAll(ordered, Records(page))
  {
    if page != [] {
      var n := |page| - 1;
      AddPageMeans(ordered, page[..n], chain);
      var front, r := Records(page[..n]), page[n].record;
      assert (front + [r])[..|front|] == front;
    }
  }

  /** The loop: what it returns, after `requests` requests, from this cursor on. */
  function Walk(b: Backend, ordered: seq<Record>, cursor: Option<bytes>, seen: set<bytes>, requests: nat): Result<seq<Record>, HistoryError>
    requires requests <= MAX_PAGES
    decreases MAX_PAGES - requests
  {
    if cursor.None? then Ok(ordered)
    else if cursor.value in seen then Err(DidNotAdvance)
    else if requests >= MAX_PAGES then Err(LimitReached)
    else
      match b(requests, cursor)
      case Err(e) => Err(e)
      case Ok(page) =>
        if page == [] then Ok(ordered)
        else
          var p :- AddPage(ordered, page, true);
          if p.last.None? then Err(NoCursor)
          else Walk(b, p.ordered, p.last, seen + {cursor.value}, requests + 1)
  }

  /** `get_all_address_transactions`. */
  function History(b: Backend): Result<seq<Record>, HistoryError> {
    var page :- b(0, None);
    var p :- AddPage([], page, false);
    Walk(b, p.ordered, p.last, {}, 1)
  }

  // ----- Any backend -----

  function LastConfirmed(page: seq<Item>): Option<bytes> {
    if page == [] then None
    else
      var item := page[|page| - 1];
      if item.Good? && item.record.confirmed then Some(item.record.txid) else LastConfirmed(page[..|page| - 1])
  }

  /** Everything the backend sends along the walk, page after page. */
  function Received(b: Backend, cursor: Option<bytes>, requests: nat): seq<Item>
    requires requests <= MAX_PAGES
    decreases MAX_PAGES - requests
  {
    if cursor.None? || requests == MAX_PAGES then []
    else
      match b(requests, cursor)
      case Err(_) => []
      case Ok(page) => if page == [] then [] else page + Received(b, LastConfirmed(page), requests + 1)
  }

  lemma {:induction false} RecordsAppend(a: seq<Item>, b: seq<Item>)
    ensures Records(a + b) == Records(a) + Records(b)
  {
    if b == [] {
      assert a + b == a;
    } else {
      assert (a + b)[..|a + b| - 1] == a + b[..|b| - 1];
      RecordsAppend(a, b[..|b| - 1]);
    }
  }

  lemma {:induction false} AddPageLast(ordered: seq<Record>, page: seq<Item>, chain: bool)
    requires AddPage(ordered, page, chain).Ok?
    ensures AddPage(ordered, page, chain).value.last == LastConfirmed(page)
  {
    if page != [] {
      AddPageLast(ordered, page[..|page| - 1], chain);
    }
  }

  lemma {:induction false} WalkCollects(b: Backend, ordered: seq<Record>, cursor: Option<bytes>, seen: set<bytes>, requests: nat)
    requires requests <= MAX_PAGES && Walk(b, ordered, cursor, seen, requests).Ok?
    ensures Walk(b, ordered, cursor, seen, requests).value == AddAll(ordered, Records(Received(b, cursor, requests)))
    decreases MAX_PAGES - requests
  {
    if cursor.Some? {
      var page := b(requests, cursor).value;
      if page != [] {
        var p := AddPage(ordered, page, true).value;
        AddPageMeans(ordered, page, true);
        AddPageLast(ordered, page, true);
        WalkCollects(b, p.ordered, p.last, seen + {cursor.value}, requests + 1);
        var rest := Received(b, p.last, requests + 1);
        RecordsAppend(page, rest);
        AddAllAppend(ordered, Records(page), Records(rest));
      }
    }
  }

  /**
   * Against any backend, a history that is returned covers every page received: each transaction once,
   * in the order first seen, a confirmed record in place of a mempool one.
   */
  lemma HistoryCoversEveryPage(b: Backend)
    requires History(b).Ok?
    ensures
      var first := b(0, None).value;
      var records := Records(first + Received(b, LastConfirmed(first), 1));
      && Distinct(History(b).value) && Txids(History(b).value) == FirstSeen(records)
      && forall r :: r in History(b).value ==> IsBest(records, r)
  {
    var first := b(0, None).value;
    AddPageMeans([], first, false);
    AddPageLast([], first, false);
    var p := AddPage([], first, false).value;
    WalkCollects(b, p.ordered, p.last, {}, 1);
    var rest := Received(b, p.last, 1);
    RecordsAppend(first, rest);
    AddAllAppend([], Records(first), Records(rest));
    AddAllMeans(Records(first + rest));
  }

  // ----- What is refused -----

  predicate Accepted(item: Item, chain: bool) {
    item.Good? && (chain ==> item.record.confirmed)
  }

  /** Item `k` is the first that is not accepted, and the error says why. */
  predicate RefusedAt(page: seq<Item>, chain: bool, k: int, error: HistoryError) {
    && 0 <= k < |page| && (forall i :: 0 <= i < k ==> Accepted(page[i], chain)) && !Accepted(page[k], chain)
    && error == if page[k].Bad? then InvalidRecord else UnconfirmedInChain
  }

  /** A page is taken exactly when every record is valid and, after a cursor, confirmed; the first other one decides the error. */
  lemma {:induction false} AddPageExactly(ordered: seq<Record>, page: seq<Item>, chain: bool)
    ensures var r := AddPage(ordered, page, chain);
      if r.Ok? then forall i :: 0 <= i < |page| ==> Accepted(page[i], chain)
      else exists k :: RefusedAt(page, chain, k, r.error)
  {
    if page != [] {
      var n := |page| - 1;
      var front := page[..n];
      AddPageExactly(ordered, front, chain);
      hide Add;
      var r := AddPage(ordered, page, chain);
      if AddPage(ordered, front, chain).Err? {
        var k :| RefusedAt(front, chain, k, r.error);
        assert RefusedAt(page, chain, k, r.error);
      } else {
        forall i | 0 <= i < n ensures Accepted(page[i], chain) {
          assert front[i] == page[i];
        }
        if r.Err? {
          assert RefusedAt(page, chain, n, r.error);
        }
      }
    }
  }

  /** The cursors asked for along the walk. */
  function Asked(b: Backend, cursor: Option<bytes>, requests: nat): seq<bytes>
    requires requests <= MAX_PAGES
    decreases MAX_PAGES - requests
  {
    if cursor.None? || requests == MAX_PAGES then []
    else
      match b(requests, cursor)
      case Err(_) => [cursor.value]
      case Ok(page) => [cursor.value] + if page == [] then [] else Asked(b, LastConfirmed(page), requests + 1)
  }

  lemma {:induction false} WalkTrusts(b: Backend, ordered: seq<Record>, cursor: Option<bytes>, seen: set<bytes>, requests: nat)
    requires requests <= MAX_PAGES && Walk(b, ordered, cursor, seen, requests).Ok?
    ensures forall item :: item in Received(b, cursor, requests) ==> Accepted(item, true)
    ensures var asked := Asked(b, cursor, requests);
      && |asked| <= MAX_PAGES - requests
      && (forall i :: 0 <= i < |asked| ==> asked[i] !in seen)
      && (forall i, j :: 0 <= i < j < |asked| ==> asked[i] != asked[j])
    decreases MAX_PAGES - requests
  {
    hide AddPage;
    if cursor.Some? {
      var page := b(requests, cursor).value;
      if page != [] {
        AddPageExactly(ordered, page, true);
        AddPageLast(ordered, page, true);
        var p := AddPage(ordered, page, true).value;
        WalkTrusts(b, p.ordered, p.last, seen + {cursor.value}, requests + 1);
      }
    }
  }

  /**
   * A history is returned only if every record of the first page was valid, every record after it valid
   * and confirmed, no cursor was asked for twice, and at most 10,000 requests were made.
   */
  lemma HistoryTrusts(b: Backend)
    requires History(b).Ok?
    ensures
      var first := b(0, None).value;
      var asked := Asked(b, LastConfirmed(first), 1);
      && (forall item :: item in first ==> item.Good?)
      && (forall item :: item in Received(b, LastConfirmed(first), 1) ==> item.Good? && item.record.confirmed)
      && (forall i, j :: 0 <= i < j < |asked| ==> asked[i] != asked[j]) && 1 + |asked| <= 10_000
  {
    var first := b(0, None).value;
    AddPageExactly([], first, false);
    AddPageLast([], first, false);
    var p := AddPage([], first, false).value;
    hide AddPage;
    WalkTrusts(b, p.ordered, p.last, {}, 1);
  }

  /** Why a walk is refused at one request, in the order of the checks. */
  lemma WalkRefusals(b: Backend, ordered: seq<Record>, cursor: bytes, seen: set<bytes>, requests: nat)
    requires requests <= MAX_PAGES
    ensures
      var r := Walk(b, ordered, Some(cursor), seen, requests);
      if cursor in seen then r == Err(DidNotAdvance)
      else if requests == 10_000 then r == Err(LimitReached)
      else
        var answer := b(requests, Some(cursor));
        if answer.Err? then r == Err(answer.error)
        else (exists i :: 0 <= i < |answer.value| && !Accepted(answer.value[i], true)) ==>
          r.Err? && exists k :: RefusedAt(answer.value, true, k, r.error)
  {
    if requests < MAX_PAGES && b(requests, Some(cursor)).Ok? {
      AddPageExactly(ordered, b(requests, Some(cursor)).value, true);
    }
    hide AddPage, RefusedAt;
  }

  // ----- A faithful backend -----

  function AsPage(records: seq<Record>): (page: seq<Item>)
    ensures |page| == |records| && forall k :: 0 <= k < |records| ==> page[k] == Good(records[k])
  {
    seq(|records|, k requires 0 <= k < |records| => Good(records[k]))
  }

  /** A snapshot of the chain: mempool transactions, then confirmed ones, newest first. */
  predicate Snapshot(mempool: seq<Record>, confirmed: seq<Record>) {
    && Distinct(mempool + confirmed)
    && (forall r :: r in mempool ==> !r.confirmed) && (forall r :: r in confirmed ==> r.confirmed)
  }

  /** Pages of any nonempty sizes: the page asked for at request `n` after confirmed[i] ends at `ends(n, i)`. */
  predicate PageEnd(confirmed: seq<Record>, i: nat, end: nat) {
    i + 1 <= end <= |confirmed| && (i + 1 < |confirmed| ==> i + 1 < end)
  }

  ghost predicate Faithful(b: Backend, mempool: seq<Record>, confirmed: seq<Record>, first: nat, ends: (nat, nat) -> nat) {
    && first <= |confirmed|
    && b(0, None) == Ok(AsPage(mempool + confirmed[..first]))
    && forall n, i :: 0 <= i < |confirmed| ==> AnswersAfter(b, confirmed, ends, n, i)
  }

  ghost predicate AnswersAfter(b: Backend, confirmed: seq<Record>, ends: (nat, nat) -> nat, n: nat, i: nat)
    requires i < |confirmed|
  {
    PageEnd(confirmed, i, ends(n, i)) && b(n, Some(confirmed[i].txid)) == Ok(AsPage(confirmed[i + 1..ends(n, i)]))
  }

  /** How many more requests the walk needs after confirmed[i], the last, empty page included. */
  function Needed(confirmed: seq<Record>, ends: (nat, nat) -> nat, n: nat, i: nat): nat
    decreases |confirmed| - i
  {
    if i + 1 >= |confirmed| || ends(n, i) <= i + 1 then 1 else 1 + Needed(confirmed, ends, n + 1, ends(n, i) - 1)
  }

  lemma NewPlace(ordered: seq<Record>, r: Record)
    requires forall k :: 0 <= k < |ordered| ==> ordered[k].txid != r.txid
    ensures Add(ordered, r) == ordered + [r]
  {
  }

  lemma DistinctParts(a: seq<Record>, b: seq<Record>)
    requires Distinct(a + b)
    ensures Distinct(a) && Distinct(b)
    ensures forall i, j :: 0 <= i < |a| && 0 <= j < |b| ==> a[i].txid != b[j].txid
  {
    var all := a + b;
    assert forall i :: 0 <= i < |a| ==> all[i] == a[i];
    forall i, j | 0 <= i < j < |b| ensures b[i].txid != b[j].txid {
      assert all[|a| + i] == b[i] && all[|a| + j] == b[j];
    }
    forall i, j | 0 <= i < |a| && 0 <= j < |b| ensures a[i].txid != b[j].txid {
      assert all[i] == a[i] && all[|a| + j] == b[j];
    }
  }

  lemma DistinctLast(a: seq<Record>, r: Record)
    requires Distinct(a + [r])
    ensures Distinct(a) && forall k :: 0 <= k < |a| ==> a[k].txid != r.txid
  {
    DistinctParts(a, [r]);
    assert [r][0] == r;
  }

  /** A page of new, confirmed or first-page records is simply appended. */
  lemma {:induction false} AddPageOfNew(ordered: seq<Record>, records: seq<Record>, chain: bool)
    requires Distinct(ordered + records) && (chain ==> forall r :: r in records ==> r.confirmed)
    ensures AddPage(ordered, AsPage(records), chain) == Ok(Progress(ordered + records, LastConfirmed(AsPage(records))))
  {
    if records == [] {
      assert ordered + records == ordered;
    } else {
      var n := |records| - 1;
      var front := records[..n];
      assert ordered + records == ordered + front + [records[n]];
      DistinctLast(ordered + front, records[n]);
      assert AsPage(records)[..n] == AsPage(front);
      AddPageOfNew(ordered, front, chain);
      NewPlace(ordered + front, records[n]);
    }
  }

  lemma CursorOf(mempool: seq<Record>, some: seq<Record>)
    requires (forall r :: r in mempool ==> !r.confirmed) && (forall r :: r in some ==> r.confirmed)
    ensures LastConfirmed(AsPage(mempool + some)) == if some == [] then None else Some(some[|some| - 1].txid)
  {
    if some == [] {
      assert mempool + some == mempool;
      NoCursorOf(mempool);
    }
  }

  lemma {:induction false} NoCursorOf(mempool: seq<Record>)
    requires forall r :: r in mempool ==> !r.confirmed
    ensures LastConfirmed(AsPage(mempool)) == None
  {
    if mempool != [] {
      assert AsPage(mempool)[..|mempool| - 1] == AsPage(mempool[..|mempool| - 1]);
      NoCursorOf(mempool[..|mempool| - 1]);
    }
  }

  predicate SeenBefore(seen: set<bytes>, confirmed: seq<Record>, i: nat) {
    forall txid :: txid in seen ==> exists k :: 0 <= k < i && k < |confirmed| && confirmed[k].txid == txid
  }

  lemma Cut(mempool: seq<Record>, confirmed: seq<Record>, from: nat, end: nat)
    requires from <= end <= |confirmed|
    ensures mempool + confirmed == mempool + confirmed[..from] + confirmed[from..end] + confirmed[end..]
    ensures mempool + confirmed[..from] + confirmed[from..end] == mempool + confirmed[..end]
  {
    var a, b, c := confirmed[..from], confirmed[from..end], confirmed[end..];
    assert confirmed[..end] == a + b && confirmed == confirmed[..end] + c;
    assert mempool + (a + b) == mempool + a + b;
    assert mempool + ((a + b) + c) == mempool + (a + b) + c;
  }

  lemma SliceConfirmed(confirmed: seq<Record>, from: nat, end: nat)
    requires from <= end <= |confirmed| && forall r :: r in confirmed ==> r.confirmed
    ensures forall r :: r in confirmed[from..end] ==> r.confirmed
  {
  }

  lemma AppendConfirmed(ordered: seq<Record>, page: seq<Record>)
    requires Distinct(ordered + page) && page != [] && forall r :: r in page ==> r.confirmed
    ensures AddPage(ordered, AsPage(page), true) == Ok(Progress(ordered + page, Some(page[|page| - 1].txid)))
  {
    hide Distinct, AddPage, AsPage, LastConfirmed;
    AddPageOfNew(ordered, page, true);
    CursorOf([], page);
    assert [] + page == page;
  }

  lemma NextPage(mempool: seq<Record>, confirmed: seq<Record>, i: nat, end: nat)
    requires Snapshot(mempool, confirmed) && i + 1 < end <= |confirmed|
    ensures AddPage(mempool + confirmed[..i + 1], AsPage(confirmed[i + 1..end]), true)
              == Ok(Progress(mempool + confirmed[..end], Some(confirmed[end - 1].txid)))
  {
    Cut(mempool, confirmed, i + 1, end);
    SliceConfirmed(confirmed, i + 1, end);
    var ordered, page := mempool + confirmed[..i + 1], confirmed[i + 1..end];
    assert page[|page| - 1] == confirmed[end - 1];
    hide *;
    DistinctSnapshot(mempool, confirmed);
    DistinctParts(ordered + page, confirmed[end..]);
    AppendConfirmed(ordered, page);
  }

  lemma DistinctSnapshot(mempool: seq<Record>, confirmed: seq<Record>)
    requires Snapshot(mempool, confirmed)
    ensures Distinct(mempool + confirmed)
  {
  }

  lemma Answer(b: Backend, mempool: seq<Record>, confirmed: seq<Record>, first: nat, ends: (nat, nat) -> nat, n: nat, i: nat)
    requires Faithful(b, mempool, confirmed, first, ends) && i < |confirmed|
    ensures PageEnd(confirmed, i, ends(n, i)) && b(n, Some(confirmed[i].txid)) == Ok(AsPage(confirmed[i + 1..ends(n, i)]))
  {
    assert AnswersAfter(b, confirmed, ends, n, i);
  }

  lemma {:induction false} WalkOfFaithful(b: Backend, mempool: seq<Record>, confirmed: seq<Record>, first: nat, ends: (nat, nat) -> nat,
      i: nat, seen: set<bytes>, n: nat)
    requires Snapshot(mempool, confirmed) && Faithful(b, mempool, confirmed, first, ends)
    requires i < |confirmed| && n <= MAX_PAGES && SeenBefore(seen, confirmed, i)
    ensures Walk(b, mempool + confirmed[..i + 1], Some(confirmed[i].txid), seen, n) ==
              if n + Needed(confirmed, ends, n, i) <= MAX_PAGES then Ok(mempool + confirmed) else Err(LimitReached)
    decreases |confirmed| - i
  {
    hide Snapshot, Faithful, SeenBefore, AddPage;
    NotSeen(mempool, confirmed, seen, i);
    if n < MAX_PAGES {
      Answer(b, mempool, confirmed, first, ends, n, i);
      var end := ends(n, i);
      if i + 1 == |confirmed| {
        assert confirmed[..i + 1] == confirmed && confirmed[i + 1..end] == [];
      } else {
        NextPage(mempool, confirmed, i, end);
        SeenMore(confirmed, seen, i, end);
        WalkOfFaithful(b, mempool, confirmed, first, ends, end - 1, seen + {confirmed[i].txid}, n + 1);
      }
    }
  }

  lemma NotSeen(mempool: seq<Record>, confirmed: seq<Record>, seen: set<bytes>, i: nat)
    requires Snapshot(mempool, confirmed) && i < |confirmed| && SeenBefore(seen, confirmed, i)
    ensures confirmed[i].txid !in seen
  {
    DistinctParts(mempool, confirmed);
  }

  lemma SeenMore(confirmed: seq<Record>, seen: set<bytes>, i: nat, end: nat)
    requires i + 1 < end <= |confirmed| && SeenBefore(seen, confirmed, i)
    ensures SeenBefore(seen + {confirmed[i].txid}, confirmed, end - 1)
  {
    forall txid | txid in seen + {confirmed[i].txid} ensures exists k :: 0 <= k < end - 1 && k < |confirmed| && confirmed[k].txid == txid {
      if txid in seen {
        var k :| 0 <= k < i && k < |confirmed| && confirmed[k].txid == txid;
      } else {
        assert confirmed[i].txid == txid;
      }
    }
  }

  /**
   * Against a faithful backend, with any nonempty page sizes, the result is the mempool followed by the
   * whole confirmed history, unless more than 10,000 requests would be needed (then the safety limit
   * is reported) or the first page holds no confirmed record to continue from (then the rest is missed).
   */
  lemma HistoryOfFaithful(b: Backend, mempool: seq<Record>, confirmed: seq<Record>, first: nat, ends: (nat, nat) -> nat)
    requires Snapshot(mempool, confirmed) && Faithful(b, mempool, confirmed, first, ends)
    ensures History(b) ==
      if first == 0 then Ok(mempool)
      else if 1 + Needed(confirmed, ends, 1, first - 1) <= 10_000 then Ok(mempool + confirmed)
      else Err(LimitReached)
  {
    hide Snapshot, Walk, AddPage, Needed, AnswersAfter;
    FirstPage(mempool, confirmed, first);
    if first == 0 {
      assert mempool + confirmed[..first] == mempool;
      WalkDone(b, mempool, {}, 1);
    } else {
      assert SeenBefore({}, confirmed, first - 1);
      WalkOfFaithful(b, mempool, confirmed, first, ends, first - 1, {}, 1);
    }
  }

  /** So the history is complete exactly when it is short enough and the first page reaches into it. */
  lemma HistoryCompleteExactly(b: Backend, mempool: seq<Record>, confirmed: seq<Record>, first: nat, ends: (nat, nat) -> nat)
    requires Snapshot(mempool, confirmed) && Faithful(b, mempool, confirmed, first, ends)
    ensures History(b) == Ok(mempool + confirmed) <==>
      confirmed == [] || (first > 0 && 1 + Needed(confirmed, ends, 1, first - 1) <= 10_000)
  {
    HistoryOfFaithful(b, mempool, confirmed, first, ends);
    assert confirmed == [] ==> mempool + confirmed == mempool;
    assert confirmed != [] ==> |mempool + confirmed| > |mempool|;
    hide Snapshot, Faithful, Needed, History;
  }

  /** What a backend whose first page is all mempool answers about one older confirmed record. */
  function MempoolOnly(unconfirmed: Record): Backend {
    (n, cursor) => if cursor == None then Ok([Good(unconfirmed)]) else Ok([])
  }

  /** A faithful backend whose first page is full of mempool transactions: its history is missed. */
  lemma HistoryCutShort(unconfirmed: Record, older: Record)
    requires !unconfirmed.confirmed && older.confirmed && unconfirmed.txid != older.txid
    ensures
      var b, ends := MempoolOnly(unconfirmed), (n: nat, i: nat) => i + 1;
      && Snapshot([unconfirmed], [older]) && Faithful(b, [unconfirmed], [older], 0, ends)
      && History(b) == Ok([unconfirmed]) && History(b) != Ok([unconfirmed] + [older])
  {
    var b, ends := MempoolOnly(unconfirmed), (n: nat, i: nat) => i + 1;
    assert [unconfirmed] + [older][..0] == [unconfirmed] && [older][1..1] == [];
    assert AsPage([unconfirmed]) == [Good(unconfirmed)] && AsPage([]) == [];
    assert Snapshot([unconfirmed], [older]);
    forall n: nat, i | 0 <= i < 1 ensures AnswersAfter(b, [older], ends, n, i) {
    }
    HistoryOfFaithful(b, [unconfirmed], [older], 0, ends);
    assert |[unconfirmed] + [older]| == 2;
  }

  lemma WalkDone(b: Backend, ordered: seq<Record>, seen: set<bytes>, requests: nat)
    requires requests <= MAX_PAGES
    ensures Walk(b, ordered, None, seen, requests) == Ok(ordered)
  {
  }

  lemma FirstPage(mempool: seq<Record>, confirmed: seq<Record>, first: nat)
    requires Snapshot(mempool, confirmed) && first <= |confirmed|
    ensures AddPage([], AsPage(mempool + confirmed[..first]), false)
              == Ok(Progress(mempool + confirmed[..first], if first == 0 then None else Some(confirmed[first - 1].txid)))
  {
    hide Distinct, AddPage, AsPage, LastConfirmed;
    var some := confirmed[..first];
    Cut(mempool, confirmed, first, first);
    assert confirmed[first..first] == [] && mempool + some + [] == mempool + some;
    DistinctParts(mempool + some, confirmed[first..]);
    assert [] + (mempool + some) == mempool + some;
    assert forall r :: r in some ==> r in confirmed;
    AddPageOfNew([], mempool + some, false);
    CursorOf(mempool, some);
  }

  // ----- The loop -----

  /** The position map mirrors the list. */
  predicate Indexed(ordered: seq<Record>, positions: map<bytes, nat>) {
    && (forall t :: t in positions ==> positions[t] < |ordered| && ordered[positions[t]].txid == t)
    && (forall k :: 0 <= k < |ordered| ==> ordered[k].txid in positions && positions[ordered[k].txid] == k)
  }

  lemma IndexedPlace(ordered: seq<Record>, positions: map<bytes, nat>, txid: bytes)
    requires Indexed(ordered, positions)
    ensures Place(ordered, txid) == if txid in positions then positions[txid] else |ordered|
  {
  }

  /** One record through the map: appended, put in place of its mempool record, or dropped. */
  lemma AddIndexed(ordered: seq<Record>, positions: map<bytes, nat>, r: Record)
    requires Indexed(ordered, positions)
    ensures
      if r.txid !in positions then
        Add(ordered, r) == ordered + [r] && Indexed(ordered + [r], positions[r.txid := |ordered|])
      else
        var k := positions[r.txid];
        && k < |ordered|
        && Add(ordered, r) == (if r.confirmed && !ordered[k].confirmed then ordered[k := r] else ordered)
        && Indexed(Add(ordered, r), positions)
  {
    IndexedPlace(ordered, positions, r.txid);
  }

  /** `add_page` over the shared list and position map. */
  method AddPageLoop(before: seq<Record>, index: map<bytes, nat>, page: seq<Item>, chain: bool)
    returns (r: Result<Option<bytes>, HistoryError>, ordered: seq<Record>, positions: map<bytes, nat>)
    requires Indexed(before, index)
    ensures Indexed(ordered, positions)
    ensures
      match AddPage(before, page, chain)
      case Ok(p) => r == Ok(p.last) && ordered == p.ordered
      case Err(e) => r == Err(e)
  {
    hide Indexed, Add;
    ordered, positions := before, index;
    var last := None;
    for i := 0 to |page|
      invariant Indexed(ordered, positions)
      invariant AddPage(before, page[..i], chain) == Ok(Progress(ordered, last))
    {
      assert page[..i + 1][..i] == page[..i];
      if page[i].Bad? || (chain && !page[i].record.confirmed) {
        BadPage(before, page, chain, i + 1);
        return Err(if page[i].Bad? then InvalidRecord else UnconfirmedInChain), ordered, positions;
      }
      var record := page[i].record;
      AddIndexed(ordered, positions, record);
      if record.txid !in positions {
        positions := positions[record.txid := |ordered|];
        ordered := ordered + [record];
      } else if record.confirmed && !ordered[positions[record.txid]].confirmed {
        ordered := ordered[positions[record.txid] := record];
      }
      if record.confirmed {
        last := Some(record.txid);
      }
    }
    assert page[..|page|] == page;
    r := Ok(last);
  }

  lemma {:induction false} BadPage(ordered: seq<Record>, page: seq<Item>, chain: bool, k: nat)
    requires k <= |page| && AddPage(ordered, page[..k], chain).Err?
    ensures AddPage(ordered, page, chain) == Err(AddPage(ordered, page[..k], chain).error)
    decreases |page| - k
  {
    if k < |page| {
      assert page[..k + 1][..k] == page[..k];
      BadPage(ordered, page, chain, k + 1);
    } else {
      assert page[..k] == page;
    }
  }

  /** The whole request loop; it never makes more than 10,000 requests. */
  method GetHistory(b: Backend) returns (r: Result<seq<Record>, HistoryError>, requests: nat)
    ensures r == History(b) && 1 <= requests <= MAX_PAGES
  {
    assert Indexed([], map[]);
    hide Indexed, AddPage;
    requests := 1;
    var first := b(0, None);
    if first.Err? {
      return Err(first.error), requests;
    }
    var added, ordered, positions := AddPageLoop([], map[], first.value, false);
    if added.Err? {
      return Err(added.error), requests;
    }
    var cursor := added.value;
    var seen: set<bytes> := {};
    var pages := 1;
    while cursor.Some?
      invariant Indexed(ordered, positions) && 1 <= pages == requests <= MAX_PAGES
      invariant History(b) == Walk(b, ordered, cursor, seen, pages)
      decreases MAX_PAGES - pages
    {
      if cursor.value in seen {
        return Err(DidNotAdvance), requests;
      }
      if pages >= MAX_PAGES {
        return Err(LimitReached), requests;
      }
      var answer := b(pages, cursor);
      requests := requests + 1;
      if answer.Err? {
        return Err(answer.error), requests;
      }
      if answer.value == [] {
        return Ok(ordered), requests;
      }
      added, ordered, positions := AddPageLoop(ordered, positions, answer.value, true);
      if added.Err? {
        return Err(added.error), requests;
      }
      if added.value.None? {
        return Err(NoCursor), requests;
      }
      seen := seen + {cursor.value};
      cursor := added.value;
      pages := pages + 1;
    }
    r := Ok(ordered);
  }
}
