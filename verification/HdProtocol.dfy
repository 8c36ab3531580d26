/**
 * The lock sections of the HD payment workflow (`tx/workflow.py`, `wallet/wallet.py`,
 * `wallet/wallet_sync.py`) for one wallet, and every interleaving of them, crashes included.
 */
module HdProtocol {
  import opened Wrappers
  import opened Bytes
  import opened Transactions
  import opened Addresses

  /** The next index of each account and branch; every smaller one is issued (see AddressBook). */
  datatype WalletFile = WalletFile(nextReceive: map<AddressType, nat>, nextChange: map<AddressType, nat>)

  function Next(indexes: map<AddressType, nat>, t: AddressType): nat {
    if t in indexes then indexes[t] else 0
  }

  datatype ReservedChange = ReservedChange(draft: string, kind: AddressType, index: nat)

  /** The wallet's entry of the cache file; `pending` holds the ids of recorded transactions. */
  datatype Cache = Cache(
    utxos: map<Outpoint, AddressType>,
    reserved: map<Outpoint, string>,
    change: Option<ReservedChange>,
    pending: set<bytes>,
    spent: map<Outpoint, bytes>)

  datatype Files = Files(wallet: WalletFile, cache: Option<Cache>)

  /** A funded document: its draft, the inputs it was funded with and its change index, if any. */
  datatype Funded = Funded(draft: string, kind: AddressType, inputs: set<Outpoint>, change: Option<nat>)

  datatype WorkflowError =
    | CacheMissing
    | ActiveDraft
    | NotEligible
    | ChangeAlreadyReserved
    | NoReservedInputs
    | ChangeMismatch
    | ChangeNotIssued
    | NotReservedByDraft
    | ChangeReserved
    | AddressBookNotEmpty

  predicate HasDraft(c: Cache, draft: string) {
    exists p :: p in c.reserved && c.reserved[p] == draft
  }

  function Unreserved(reserved: map<Outpoint, string>, draft: string): map<Outpoint, string> {
    map p | p in reserved && reserved[p] != draft :: reserved[p]
  }

  function WithCache(f: Files, c: Cache): Files {
    f.(cache := Some(c))
  }

  // ----- What each lock section does to the files -----

  /** The reserving section of `fund_transaction` and `fund_all_transaction`. */
  function Fund(f: Files, draft: string, kind: AddressType, selected: set<Outpoint>): Result<Files, WorkflowError> {
    if f.cache.None? then Err(CacheMissing)
    else
      var c := f.cache.value;
      if c.reserved != map[] || c.change.Some? then Err(ActiveDraft)
      else if selected == {} || exists p :: p in selected && (p !in c.utxos || c.utxos[p] != kind || p in c.spent) then Err(NotEligible)
      else Ok(WithCache(f, c.(reserved := map p | p in selected :: draft)))
  }

  /** `_reserve_change_address`, with the wallet lock inside the cache lock. */
  function ReserveChange(f: Files, draft: string, kind: AddressType): Result<Files, WorkflowError> {
    if f.cache.None? then Err(CacheMissing)
    else
      var c := f.cache.value;
      if c.change.Some? then Err(ChangeAlreadyReserved)
      else if !HasDraft(c, draft) then Err(NoReservedInputs)
      else Ok(WithCache(f, c.(change := Some(ReservedChange(draft, kind, Next(f.wallet.nextChange, kind))))))
  }

  /** `_release_draft` and `cancel_transaction_draft`. */
  function Release(f: Files, draft: string): Files {
    if f.cache.None? then f
    else
      var c := f.cache.value;
      WithCache(f, c.(reserved := Unreserved(c.reserved, draft),
                      change := if c.change.Some? && c.change.value.draft == draft then None else c.change))
  }

  /** `_validate_prevouts_against_wallet_and_cache`: what signing checks before it signs. */
  predicate MaySign(f: Files, d: Funded) {
    && f.cache.Some?
    && var c := f.cache.value;
    && (forall p :: p in d.inputs ==> p in c.utxos && p in c.reserved && c.reserved[p] == d.draft)
    && (d.change.Some? ==>
          if c.change.Some? then c.change.value == ReservedChange(d.draft, d.kind, d.change.value)
          else d.change.value < Next(f.wallet.nextChange, d.kind))
  }

  /** `issue_change_address`: exactly the reserved index, idempotently. */
  function IssueChange(w: WalletFile, kind: AddressType, index: nat): Result<WalletFile, WorkflowError> {
    if index < Next(w.nextChange, kind) then Ok(w)
    else if index == Next(w.nextChange, kind) then Ok(w.(nextChange := w.nextChange[kind := index + 1]))
    else Err(ChangeMismatch)
  }

  /**
   * The last section of `sign_funded_transaction`. It writes the wallet file, then the cache file;
   * the process may die between the two (`torn`).
   */
  function FinishSigning(f: Files, d: Funded, torn: bool): Result<Files, WorkflowError> {
    if d.change.None? then Ok(f)
    else if f.cache.None? then Err(CacheMissing)
    else
      var c := f.cache.value;
      if c.change.None? then
        if d.change.value < Next(f.wallet.nextChange, d.kind) then Ok(f) else Err(ChangeNotIssued)
      else
        var r := c.change.value;
        if r.draft != d.draft || r.kind != d.kind || r.index != d.change.value then Err(ChangeMismatch)
        else
          var w :- IssueChange(f.wallet, d.kind, r.index);
          Ok(Files(w, Some(if torn then c else c.(change := None))))
  }

  /** The reservation check of `broadcast_signed_transaction`. */
  function CheckBroadcast(f: Files, d: Funded): Result<Files, WorkflowError> {
    if f.cache.None? then Err(CacheMissing)
    else if exists p :: p in d.inputs && (p !in f.cache.value.reserved || f.cache.value.reserved[p] != d.draft) then Err(NotReservedByDraft)
    else Ok(f)
  }

  function SpentBy(points: set<Outpoint>, txid: bytes): map<Outpoint, bytes> {
    map p | p in points :: txid
  }

  lemma SpentByOneMore(spent: map<Outpoint, bytes>, points: set<Outpoint>, p: Outpoint, txid: bytes)
    ensures spent + SpentBy(points + {p}, txid) == (spent + SpentBy(points, txid))[p := txid]
  {
  }

  /** `record_successful_broadcast`. */
  function RecordBroadcast(f: Files, d: Funded, txid: bytes): Result<Files, WorkflowError> {
    if f.cache.None? then Err(CacheMissing)
    else
      var c := f.cache.value;
      Ok(WithCache(f, c.(reserved := Unreserved(c.reserved, d.draft), pending := c.pending + {txid},
                         spent := c.spent + SpentBy(d.inputs, txid))))
  }

  /** `get_new_address(change=True)`, under the cache lock. */
  function IssueManualChange(f: Files, kind: AddressType): Result<Files, WorkflowError> {
    if f.cache.Some? && f.cache.value.change.Some? then Err(ChangeReserved)
    else Ok(f.(wallet := f.wallet.(nextChange := f.wallet.nextChange[kind := Next(f.wallet.nextChange, kind) + 1])))
  }

  /** `get_new_address` for the receiving branch. */
  function IssueReceive(f: Files, kind: AddressType): Files {
    f.(wallet := f.wallet.(nextReceive := f.wallet.nextReceive[kind := Next(f.wallet.nextReceive, kind) + 1]))
  }

  predicate Enabled(w: WalletFile, kind: AddressType) {
    Next(w.nextReceive, kind) > 0 || Next(w.nextChange, kind) > 0
  }

  /** `commit_discovered_addresses`: only into an empty address book. */
  function CommitDiscovered(f: Files, kind: AddressType, received: nat, changed: nat): Result<Files, WorkflowError> {
    if Enabled(f.wallet, kind) then Err(AddressBookNotEmpty)
    else Ok(f.(wallet := WalletFile(f.wallet.nextReceive[kind := received + 1], f.wallet.nextChange[kind := changed])))
  }

  /** The merge at the end of `sync_wallet`; `confirmed` are the ids the fetched history confirms. */
  function Sync(f: Files, utxos: map<Outpoint, AddressType>, confirmed: set<bytes>): Files {
    match f.cache
    case None => WithCache(f, Cache(utxos, map[], None, {}, map[]))
    case Some(c) =>
      var pending := c.pending - confirmed;
      WithCache(f, c.(utxos := utxos, pending := pending, spent := map p | p in c.spent && c.spent[p] in pending :: c.spent[p]))
  }

  // ----- Runs -----

  datatype Event = Recorded(inputs: set<Outpoint>, txid: bytes) | Synced(confirmed: set<bytes>)

  /**
   * The files, and the processes around them: each draft's document as far as it is built, the
   * drafts signed, those that passed the broadcast check, and the change indexes handed out by hand.
   */
  datatype State = State(
    files: Files,
    drafts: map<string, Funded>,
    wantsChange: set<string>,
    signed: set<string>,
    passed: set<string>,
    handed: set<(AddressType, nat)>,
    history: seq<Event>)

  datatype Action =
    | DoFund(draft: string, kind: AddressType, selected: set<Outpoint>, withChange: bool)
    | DoReserveChange(draft: string)
    | DoRelease(draft: string)
    | DoFinishSigning(draft: string, torn: bool)
    | DoCheckBroadcast(draft: string)
    | DoRecord(draft: string, txid: bytes)
    | DoManualChange(kind: AddressType)
    | DoReceive(kind: AddressType)
    | DoDiscover(kind: AddressType, received: nat, changed: nat)
    | DoSync(utxos: map<Outpoint, AddressType>, confirmed: set<bytes>)

  const START := State(Files(WalletFile(map[], map[]), None), map[], {}, {}, {}, {}, [])

  /** The funded document of a draft is finished: its change, if it needs one, is reserved. */
  predicate Documented(s: State, draft: string) {
    draft in s.drafts && (draft in s.wantsChange ==> s.drafts[draft].change.Some?)
  }

  predicate CanHappen(s: State, a: Action) {
    match a
    case DoFund(draft, _, _, _) => draft !in s.drafts
    case DoReserveChange(draft) => draft in s.drafts && draft in s.wantsChange && s.drafts[draft].change.None?
    case DoFinishSigning(draft, _) => Documented(s, draft)
    case DoCheckBroadcast(draft) => draft in s.drafts && draft in s.signed
    case DoRecord(draft, _) => draft in s.drafts && draft in s.passed
    case DoSync(utxos, _) => forall p :: p in utxos ==> Enabled(s.files.wallet, utxos[p])
    case _ => true
  }

  function Step(s: State, a: Action): State {
    match a
    case DoFund(draft, kind, selected, withChange) =>
      var r := Fund(s.files, draft, kind, selected);
      if r.Ok? then s.(files := r.value, drafts := s.drafts[draft := Funded(draft, kind, selected, None)],
                       wantsChange := if withChange then s.wantsChange + {draft} else s.wantsChange) else s
    case DoReserveChange(draft) =>
      if draft !in s.drafts then s else
      var d := s.drafts[draft];
      var r := ReserveChange(s.files, draft, d.kind);
      if r.Ok? then s.(files := r.value, drafts := s.drafts[draft := d.(change := Some(Next(s.files.wallet.nextChange, d.kind)))]) else s
    case DoRelease(draft) => s.(files := Release(s.files, draft))
    case DoFinishSigning(draft, torn) =>
      if draft !in s.drafts then s else
      var r := FinishSigning(s.files, s.drafts[draft], torn);
      if r.Ok? then s.(files := r.value, signed := if torn then s.signed else s.signed + {draft}) else s
    case DoCheckBroadcast(draft) =>
      if draft in s.drafts && CheckBroadcast(s.files, s.drafts[draft]).Ok? then s.(passed := s.passed + {draft}) else s
    case DoRecord(draft, txid) =>
      if draft !in s.drafts then s else
      var r := RecordBroadcast(s.files, s.drafts[draft], txid);
      if r.Ok? then s.(files := r.value, history := s.history + [Recorded(s.drafts[draft].inputs, txid)]) else s
    case DoManualChange(kind) =>
      var r := IssueManualChange(s.files, kind);
      if r.Ok? then s.(files := r.value, handed := s.handed + {(kind, Next(s.files.wallet.nextChange, kind))}) else s
    case DoReceive(kind) => s.(files := IssueReceive(s.files, kind))
    case DoDiscover(kind, received, changed) =>
      var r := CommitDiscovered(s.files, kind, received, changed);
      if r.Ok? then s.(files := r.value) else s
    case DoSync(utxos, confirmed) => s.(files := Sync(s.files, utxos, confirmed), history := s.history + [Synced(confirmed)])
  }

  predicate IsRun(actions: seq<Action>, states: seq<State>) {
    && |states| == |actions| + 1 && states[0] == START
    && forall i :: 0 <= i < |actions| ==> CanHappen(states[i], actions[i]) && states[i + 1] == Step(states[i], actions[i])
  }
}
