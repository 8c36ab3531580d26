/** The wallet file and the cache entry of the HD wallet as the lock sections update them in place. */
module HdStore {
  import opened Wrappers
  import opened Bytes
  import opened Transactions
  import opened Addresses
  import opened HdProtocol

  class Store {
    var nextReceive: map<AddressType, nat>
    var nextChange: map<AddressType, nat>
    var cached: bool
    var utxos: map<Outpoint, AddressType>
    var reserved: map<Outpoint, string>
    var change: Option<ReservedChange>
    var pending: set<bytes>
    var spent: map<Outpoint, bytes>

    function Contents(): Files
      reads this
    {
      Files(WalletFile(nextReceive, nextChange), if cached then Some(Cache(utxos, reserved, change, pending, spent)) else None)
    }

    /** The section did what `spec` says: the new files, or an error and nothing written. */
    ghost predicate Wrote(r: Option<WorkflowError>, spec: Result<Files, WorkflowError>, before: Files)
      reads this
    {
      match spec
      case Ok(f) => r == None && Contents() == f
      case Err(e) => r == Some(e) && Contents() == before
    }

    constructor ()
      ensures Contents() == START.files
    {
      nextReceive, nextChange, cached := map[], map[], false;
      utxos, reserved, change, pending, spent := map[], map[], None, {}, map[];
    }

    method FundDraft(draft: string, kind: AddressType, selected: seq<Outpoint>) returns (r: Option<WorkflowError>)
      modifies this
      ensures Wrote(r, Fund(old(Contents()), draft, kind, ToSet(selected)), old(Contents()))
    {
      if !cached {
        return Some(CacheMissing);
      }
      if reserved != map[] || change.Some? {
        return Some(ActiveDraft);
      }
      if |selected| == 0 || exists p :: p in selected && (p !in utxos || utxos[p] != kind || p in spent) {
        if |selected| != 0 {
          var p :| p in selected && (p !in utxos || utxos[p] != kind || p in spent);
          assert p in ToSet(selected);
        }
        return Some(NotEligible);
      }
      assert selected[0] in ToSet(selected);
      var reservations := map[];
      for i := 0 to |selected|
        invariant reservations == map p | p in ToSet(selected[..i]) :: draft
      {
        reservations := reservations[selected[i] := draft];
        assert selected[..i + 1] == selected[..i] + [selected[i]];
      }
      assert selected[..|selected|] == selected;
      reserved := reservations;
      r := None;
    }

    method ReserveChangeIndex(draft: string, kind: AddressType) returns (r: Option<WorkflowError>)
      modifies this`change
      ensures Wrote(r, ReserveChange(old(Contents()), draft, kind), old(Contents()))
    {
      if !cached {
        return Some(CacheMissing);
      }
      if change.Some? {
        return Some(ChangeAlreadyReserved);
      }
      if !exists p :: p in reserved && reserved[p] == draft {
        return Some(NoReservedInputs);
      }
      change := Some(ReservedChange(draft, kind, Next(nextChange, kind)));
      r := None;
    }

    method ReleaseDraft(draft: string)
      modifies this`reserved, this`change
      ensures Contents() == Release(old(Contents()), draft)
    {
      if cached {
        reserved := Unreserved(reserved, draft);
        if change.Some? && change.value.draft == draft {
          change := None;
        }
      }
    }

    /** The wallet file is saved first; the process may die before the cache is (`torn`). */
    method FinishSigningDraft(d: Funded, torn: bool) returns (r: Option<WorkflowError>)
      modifies this`nextChange, this`change
      ensures Wrote(r, FinishSigning(old(Contents()), d, torn), old(Contents()))
    {
      if d.change.None? {
        return None;
      }
      if !cached {
        return Some(CacheMissing);
      }
      if change.None? {
        return if d.change.value < Next(nextChange, d.kind) then None else Some(ChangeNotIssued);
      }
      var reservation := change.value;
      if reservation.draft != d.draft || reservation.kind != d.kind || reservation.index != d.change.value {
        return Some(ChangeMismatch);
      }
      r := IssueReserved(d.kind, reservation.index);
      if r == None && !torn {
        change := None;
      }
    }

    /** `issue_change_address`. */
    method IssueReserved(kind: AddressType, index: nat) returns (r: Option<WorkflowError>)
      modifies this`nextChange
      ensures
        match IssueChange(WalletFile(nextReceive, old(nextChange)), kind, index)
        case Ok(w) => r == None && nextChange == w.nextChange
        case Err(e) => r == Some(e) && nextChange == old(nextChange)
    {
      var next := Next(nextChange, kind);
      if index > next {
        return Some(ChangeMismatch);
      }
      if index == next {
        nextChange := nextChange[kind := index + 1];
      }
      r := None;
    }

    /** The check of `broadcast_signed_transaction`, input by input. */
    method CheckReservations(d: Funded, inputs: seq<Outpoint>) returns (r: Option<WorkflowError>)
      requires ToSet(inputs) == d.inputs
      ensures Wrote(r, CheckBroadcast(Contents(), d), Contents())
    {
      if !cached {
        return Some(CacheMissing);
      }
      for i := 0 to |inputs|
        invariant forall k :: 0 <= k < i ==> inputs[k] in reserved && reserved[inputs[k]] == d.draft
      {
        if inputs[i] !in reserved || reserved[inputs[i]] != d.draft {
          assert inputs[i] in d.inputs;
          return Some(NotReservedByDraft);
        }
      }
      r := None;
    }

    method RecordBroadcastOf(d: Funded, inputs: seq<Outpoint>, txid: bytes) returns (r: Option<WorkflowError>)
      requires ToSet(inputs) == d.inputs
      modifies this`reserved, this`pending, this`spent
      ensures Wrote(r, RecordBroadcast(old(Contents()), d, txid), old(Contents()))
    {
      if !cached {
        return Some(CacheMissing);
      }
      reserved := Unreserved(reserved, d.draft);
      pending := pending + {txid};
      SpendInputs(inputs, txid);
      r := None;
    }

    method SpendInputs(inputs: seq<Outpoint>, txid: bytes)
      modifies this`spent
      ensures spent == old(spent) + SpentBy(ToSet(inputs), txid)
    {
      assert ToSet(inputs[..0]) == {} && spent + SpentBy({}, txid) == spent;
      hide SpentBy;
      for i := 0 to |inputs|
        invariant spent == old(spent) + SpentBy(ToSet(inputs[..i]), txid)
      {
        assert inputs[..i + 1] == inputs[..i] + [inputs[i]];
        assert ToSet(inputs[..i + 1]) == ToSet(inputs[..i]) + {inputs[i]};
        SpentByOneMore(old(spent), ToSet(inputs[..i]), inputs[i], txid);
        spent := spent[inputs[i] := txid];
      }
      assert inputs[..|inputs|] == inputs;
    }

    method NewChangeAddress(kind: AddressType) returns (r: Option<WorkflowError>)
      modifies this`nextChange
      ensures Wrote(r, IssueManualChange(old(Contents()), kind), old(Contents()))
    {
      if cached && change.Some? {
        return Some(ChangeReserved);
      }
      nextChange := nextChange[kind := Next(nextChange, kind) + 1];
      r := None;
    }

    method NewReceiveAddress(kind: AddressType)
      modifies this`nextReceive
      ensures Contents() == IssueReceive(old(Contents()), kind)
    {
      nextReceive := nextReceive[kind := Next(nextReceive, kind) + 1];
    }

    method CommitDiscovery(kind: AddressType, received: nat, changed: nat) returns (r: Option<WorkflowError>)
      modifies this`nextReceive, this`nextChange
      ensures Wrote(r, CommitDiscovered(old(Contents()), kind, received, changed), old(Contents()))
    {
      if Next(nextReceive, kind) > 0 || Next(nextChange, kind) > 0 {
        return Some(AddressBookNotEmpty);
      }
      nextReceive := nextReceive[kind := received + 1];
      nextChange := nextChange[kind := changed];
      r := None;
    }

    /** The merge of `sync_wallet`: what the cache holds now wins over what it held when the sync began. */
    method MergeSync(fetched: map<Outpoint, AddressType>, confirmed: set<bytes>)
      modifies this
      ensures Contents() == Sync(old(Contents()), fetched, confirmed)
    {
      if cached {
        pending := pending - confirmed;
        spent := map p | p in spent && spent[p] in pending :: spent[p];
      } else {
        reserved, change, pending, spent := map[], None, {}, map[];
      }
      cached, utxos := true, fetched;
    }
  }

  function ToSet(points: seq<Outpoint>): set<Outpoint> {
    set p | p in points
  }
}
