/**
 * The lock sections of the single-key wallet (`single_key_wallet/transaction.py`, `wallet_sync.py`,
 * `wallet_cache.py`, `service.py`, `wallet.py`) and every interleaving of them, crashes included.
 */
module SingleKeyProtocol {
  import opened Wrappers
  import opened Bytes
  import opened Transactions

  // ----- The two files -----

  datatype Utxo = Utxo(value: nat, address: string, kind: string, script: bytes, confirmed: bool, confirmations: nat)

  datatype Prevout = Prevout(point: Outpoint, utxo: Utxo)

  /** A signed document; `hex` stands for the bytes that are POSTed. */
  datatype Document = Document(wallet: string, walletId: string, operation: string, txid: bytes, hex: bytes, inputs: seq<Prevout>)

  datatype Reservation = Reservation(operation: string, attempted: bool)

  datatype Status = BroadcastUnknown | Broadcast | InMempool | Confirmed

  datatype Pending = Pending(operation: string, status: Status, document: Document)

  datatype Spent = Spent(txid: bytes, operation: string)

  /** One wallet's entry of the cache file. */
  datatype Entry = Entry(
    walletId: string,
    utxos: map<Outpoint, Utxo>,
    reservations: map<Outpoint, Reservation>,
    pending: map<bytes, Pending>,
    spent: map<Outpoint, Spent>)

  /** The wallet file (name to wallet id) and the cache file. */
  datatype Files = Files(wallets: map<string, string>, cache: map<string, Entry>)

  datatype ProtocolError =
    | WalletExists
    | NoMatchingCache
    | NotEligible
    | NoSuchDraft
    | BroadcastAttempted
    | NotReserved
    | AlreadyAttempted
    | NoPendingTransaction
    | WalletChanged
    | WalletMissing
    | WalletInUse

  function PointsOf(inputs: seq<Prevout>): set<Outpoint> {
    set v | v in inputs :: v.point
  }

  function Points(d: Document): set<Outpoint> {
    PointsOf(d.inputs)
  }

  function Blocked(e: Entry): set<Outpoint> {
    e.reservations.Keys + e.spent.Keys
  }

  /** `unavailable_outpoints`: blocked in any wallet of the cache. */
  function Unavailable(cache: map<string, Entry>): set<Outpoint> {
    set n, p | n in cache && p in Blocked(cache[n]) :: p
  }

  predicate Matches(f: Files, name: string, walletId: string) {
    name in f.cache && f.cache[name].walletId == walletId
  }

  // ----- What each lock section does to the files -----

  function WithoutOperation(reservations: map<Outpoint, Reservation>, operation: string): map<Outpoint, Reservation> {
    map p | p in reservations && reservations[p].operation != operation :: reservations[p]
  }

  function Create(f: Files, name: string, walletId: string): Result<Files, ProtocolError> {
    if name in f.wallets then Err(WalletExists) else Ok(f.(wallets := f.wallets[name := walletId]))
  }

  /** The reserving section of `prepare_send`; `selected` is what the coin selector chose. */
  function Reserve(f: Files, name: string, walletId: string, operation: string, selected: seq<Outpoint>): Result<Files, ProtocolError> {
    if !Matches(f, name, walletId) then Err(NoMatchingCache)
    else
      var e := f.cache[name];
      if exists p :: p in selected && (p !in e.utxos || p in Unavailable(f.cache)) then Err(NotEligible)
      else
        var reserved := map p | p in selected :: Reservation(operation, false);
        Ok(f.(cache := f.cache[name := e.(reservations := e.reservations + reserved)]))
  }

  /** `_release`, after a failed preparation. */
  function Release(f: Files, name: string, operation: string): Result<Files, ProtocolError> {
    if name !in f.cache then Ok(f)
    else
      var e := f.cache[name];
      Ok(f.(cache := f.cache[name := e.(reservations := WithoutOperation(e.reservations, operation))]))
  }

  /** `cancel_draft`. */
  function Cancel(f: Files, name: string, walletId: string, operation: string): Result<Files, ProtocolError> {
    if !Matches(f, name, walletId) then Err(NoMatchingCache)
    else
      var e := f.cache[name];
      var matching := map p | p in e.reservations && e.reservations[p].operation == operation :: e.reservations[p];
      if matching == map[] then Err(NoSuchDraft)
      else if exists p :: p in matching && matching[p].attempted then Err(BroadcastAttempted)
      else Ok(f.(cache := f.cache[name := e.(reservations := WithoutOperation(e.reservations, operation))]))
  }

  /** An input is still cached as this document says and reserved by its operation. */
  predicate StillReserved(e: Entry, d: Document, v: Prevout) {
    && v.point in e.utxos && v.point in e.reservations
    && var u := e.utxos[v.point];
    && u.confirmed && u.confirmations >= 1
    && u.value == v.utxo.value && u.address == v.utxo.address && u.kind == v.utxo.kind && u.script == v.utxo.script
    && e.reservations[v.point].operation == d.operation
  }

  /** An earlier broadcast attempt on this input, if any, was of these very bytes and is unresolved. */
  predicate SameAttempt(e: Entry, d: Document, p: Outpoint) {
    p in e.spent ==>
      && e.spent[p].txid == d.txid && d.txid in e.pending
      && e.pending[d.txid].document.hex == d.hex && e.pending[d.txid].status == BroadcastUnknown
  }

  /** The first input that forbids the broadcast, in document order. */
  function Refusal(e: Entry, d: Document, inputs: seq<Prevout>): Option<ProtocolError> {
    if inputs == [] then None
    else if !StillReserved(e, d, inputs[0]) then Some(NotReserved)
    else if !SameAttempt(e, d, inputs[0].point) then Some(AlreadyAttempted)
    else Refusal(e, d, inputs[1..])
  }

  function Marked(reservations: map<Outpoint, Reservation>, points: set<Outpoint>): map<Outpoint, Reservation> {
    map p | p in reservations :: if p in points then reservations[p].(attempted := true) else reservations[p]
  }

  function SpentFor(d: Document, points: set<Outpoint>): map<Outpoint, Spent> {
    map p | p in points :: Spent(d.txid, d.operation)
  }

  function Intended(e: Entry, d: Document): Entry {
    e.(reservations := Marked(e.reservations, Points(d)),
       spent := e.spent + SpentFor(d, Points(d)),
       pending := e.pending[d.txid := Pending(d.operation, BroadcastUnknown, d)])
  }

  /** The section of `broadcast` before the POST. */
  function Intend(f: Files, d: Document): Result<Files, ProtocolError> {
    if !Matches(f, d.wallet, d.walletId) then Err(NoMatchingCache)
    else
      var e := f.cache[d.wallet];
      var refusal := Refusal(e, d, d.inputs);
      if refusal.Some? then Err(refusal.value)
      else Ok(f.(cache := f.cache[d.wallet := Intended(e, d)]))
  }

  /** The section of `broadcast` after a POST that answered with the expected id. */
  function Settle(f: Files, d: Document): Result<Files, ProtocolError> {
    if !Matches(f, d.wallet, d.walletId) then Err(NoMatchingCache)
    else
      var e := f.cache[d.wallet];
      if d.txid !in e.pending then Err(NoPendingTransaction)
      else Ok(f.(cache := f.cache[d.wallet := e.(
        pending := e.pending[d.txid := e.pending[d.txid].(status := Broadcast)],
        reservations := WithoutOperation(e.reservations, d.operation))]))
  }

  /** What a sync fetched: coins, and for each transaction in the history whether it is confirmed. */
  datatype Snapshot = Snapshot(utxos: map<Outpoint, Utxo>, history: map<bytes, bool>)

  function Observed(pending: map<bytes, Pending>, history: map<bytes, bool>): map<bytes, Pending> {
    map t | t in pending ::
      if t in history then pending[t].(status := if history[t] then Confirmed else InMempool) else pending[t]
  }

  /** The reservations of every operation whose transaction the history shows are dropped. */
  function Unresolved(e: Entry, history: map<bytes, bool>): map<Outpoint, Reservation> {
    map p | p in e.reservations && !exists t :: t in history && t in e.pending && e.pending[t].operation == e.reservations[p].operation
      :: e.reservations[p]
  }

  function StillSpent(e: Entry, s: Snapshot): map<Outpoint, Spent> {
    map p | p in e.spent && (p in s.utxos || e.spent[p].txid !in s.history) :: e.spent[p]
  }

  /** The merge at the end of `sync_wallet`. */
  function Merge(f: Files, name: string, walletId: string, s: Snapshot): Result<Files, ProtocolError> {
    if name !in f.wallets then Err(WalletMissing)
    else if f.wallets[name] != walletId then Err(WalletChanged)
    else if Matches(f, name, walletId) then
      var e := f.cache[name];
      Ok(f.(cache := f.cache[name := Entry(walletId, s.utxos, Unresolved(e, s.history), Observed(e.pending, s.history), StillSpent(e, s))]))
    else Ok(f.(cache := f.cache[name := Entry(walletId, s.utxos, map[], map[], map[])]))
  }

  /** The outpoints a merge stops blocking as spent, by its own rule. */
  function ClearedBy(f: Files, name: string, walletId: string, s: Snapshot): set<Outpoint> {
    if Matches(f, name, walletId) then f.cache[name].spent.Keys - StillSpent(f.cache[name], s).Keys else {}
  }

  /** `remove_wallet`; a crash between its two writes leaves the cache entry behind (`torn`). */
  function Remove(f: Files, name: string, torn: bool): Result<Files, ProtocolError> {
    if name !in f.wallets then Err(WalletMissing)
    else if name in f.cache && Blocked(f.cache[name]) != {} then Err(WalletInUse)
    else Ok(Files(f.wallets - {name}, if torn then f.cache else f.cache - {name}))
  }

  // ----- Runs -----

  /** What a run leaves a trace of. */
  datatype Event =
    | Intent(doc: Document)
    | Posted(doc: Document)
    | Cleared(points: set<Outpoint>)

  /**
   * The files and the processes around them: documents some `broadcast` has validated (`begun`),
   * documents whose intent is persisted (`armed`), and the random identifiers already drawn.
   */
  datatype State = State(
    files: Files,
    begun: set<Document>,
    armed: set<Document>,
    operations: set<string>,
    walletIds: set<string>,
    history: seq<Event>)

  datatype Action =
    | DoCreate(name: string, walletId: string)
    | DoReserve(name: string, walletId: string, operation: string, selected: seq<Outpoint>)
    | DoRelease(name: string, operation: string)
    | DoCancel(name: string, walletId: string, operation: string)
    | DoBegin(doc: Document)
    | DoIntend(doc: Document)
    | DoPost(doc: Document)
    | DoSettle(doc: Document)
    | DoMerge(name: string, walletId: string, snapshot: Snapshot)
    | DoRemove(name: string, torn: bool)

  /** A transaction id fixes the inputs spent (the id hashes them). */
  type Chain = bytes -> set<Outpoint>

  /** What `validate_signed_document` leaves of a document: it spends the inputs of its transaction. */
  predicate ValidDocument(chain: Chain, d: Document) {
    Points(d) == chain(d.txid) && d.inputs != []
  }

  const START := State(Files(map[], map[]), {}, {}, {}, {}, [])

  function Update(s: State, r: Result<Files, ProtocolError>): State {
    match r
    case Ok(f) => s.(files := f)
    case Err(_) => s
  }

  /** When an action can happen at all; a section that raises changes nothing. */
  predicate Enabled(chain: Chain, s: State, a: Action) {
    match a
    case DoCreate(_, walletId) => walletId !in s.walletIds
    case DoReserve(_, _, operation, _) => operation !in s.operations
    case DoBegin(d) => ValidDocument(chain, d) && d.wallet in s.files.wallets && s.files.wallets[d.wallet] == d.walletId
    case DoIntend(d) => d in s.begun
    case DoPost(d) => d in s.armed
    case DoSettle(d) => Posted(d) in s.history
    case _ => true
  }

  function Step(s: State, a: Action): State {
    match a
    case DoCreate(name, walletId) =>
      Update(s.(walletIds := s.walletIds + {walletId}), Create(s.files, name, walletId))
    case DoReserve(name, walletId, operation, selected) =>
      Update(s.(operations := s.operations + {operation}), Reserve(s.files, name, walletId, operation, selected))
    case DoRelease(name, operation) => Update(s, Release(s.files, name, operation))
    case DoCancel(name, walletId, operation) => Update(s, Cancel(s.files, name, walletId, operation))
    case DoBegin(d) => s.(begun := s.begun + {d}, operations := s.operations + {d.operation})
    case DoIntend(d) =>
      var r := Intend(s.files, d);
      if r.Ok? then s.(files := r.value, armed := s.armed + {d}, history := s.history + [Intent(d)]) else s
    case DoPost(d) => s.(history := s.history + [Posted(d)])
    case DoSettle(d) => Update(s, Settle(s.files, d))
    case DoMerge(name, walletId, snapshot) =>
      var r := Merge(s.files, name, walletId, snapshot);
      if r.Ok? then s.(files := r.value, history := s.history + [Cleared(ClearedBy(s.files, name, walletId, snapshot))]) else s
    case DoRemove(name, torn) => Update(s, Remove(s.files, name, torn))
  }

  /** The states some interleaving reaches from no files at all. */
  predicate IsRun(chain: Chain, actions: seq<Action>, states: seq<State>) {
    && |states| == |actions| + 1 && states[0] == START
    && forall i :: 0 <= i < |actions| ==> Enabled(chain, states[i], actions[i]) && states[i + 1] == Step(states[i], actions[i])
  }
}
