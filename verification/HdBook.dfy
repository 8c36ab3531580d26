/** The HD workflow's index counters are those of a contiguous address book. */
module HdBook {
  import opened Wrappers
  import opened Addresses
  import opened AddressBook
  import HdProtocol

  /** The wallet file as the workflow model sees it: this account's counters. */
  function Counters(w: HdProtocol.WalletFile, kind: AddressType, b: Book): HdProtocol.WalletFile {
    HdProtocol.WalletFile(w.nextReceive[kind := b.nextReceive], w.nextChange[kind := b.nextChange])
  }

  /** `issue_change_address` on the book moves the counters exactly as the workflow model says. */
  lemma IssueChangeRefines(derive: Derive, b: Book, w: HdProtocol.WalletFile, kind: AddressType, index: nat, now: string)
    requires Contiguous(derive, b) && b.nextChange < INDEX_LIMIT && index < INDEX_LIMIT
    ensures
      var r, m := IssueChange(derive, b, index, now), HdProtocol.IssueChange(Counters(w, kind, b), kind, index);
      && r.Ok? == m.Ok?
      && (r.Ok? ==> m.value.nextChange == Counters(w, kind, r.value.0).nextChange && r.value.0.nextReceive == b.nextReceive)
      && (r.Ok? ==> r.value.1.derived == derive(Change, index))
  {
    NextIsFree(derive, b, Change, index);
    if index < b.nextChange {
      assert Proper(derive, b, b.entries[Find(b.entries, Change, index)]);
    }
  }

  /** A manually issued change address is the one at the counter the workflow model hands out. */
  lemma ManualChangeRefines(derive: Derive, b: Book, f: HdProtocol.Files, kind: AddressType, now: string)
    requires Contiguous(derive, b) && b.nextChange < INDEX_LIMIT && HdProtocol.IssueManualChange(f, kind).Ok?
    requires f.wallet == Counters(f.wallet, kind, b)
    ensures
      var r, m := IssueNext(derive, b, Change, now), HdProtocol.IssueManualChange(f, kind).value;
      && r.Ok? && r.value.1.derived == derive(Change, HdProtocol.Next(f.wallet.nextChange, kind))
      && m.wallet.nextChange == Counters(f.wallet, kind, r.value.0).nextChange && r.value.0.nextReceive == b.nextReceive
  {
    IssueNextAppends(derive, b, Change, now);
    assert HdProtocol.Next(f.wallet.nextChange, kind) == b.nextChange by {
      assert kind in f.wallet.nextChange && f.wallet.nextChange[kind] == b.nextChange;
    }
  }

  /** The workflow's "already issued" test by address is its test by counter. */
  lemma IssuedTestRefines(derive: Derive, b: Book, w: HdProtocol.WalletFile, kind: AddressType, index: nat)
    requires Contiguous(derive, b) && forall s, i, t, j :: derive(s, i) == derive(t, j) ==> s == t && i == j
    ensures (exists e :: e in b.entries && e.side == Change && e.derived == derive(Change, index)) <==>
              index < HdProtocol.Next(Counters(w, kind, b).nextChange, kind)
  {
    IssuedIsPresent(derive, b, Change, index);
  }
}
