/**
 * The strings the signature digests hash, position by position: BIP 143, "Specification", and the legacy
 * serialization with the scripts of the other inputs emptied.
 */
module DigestFormat {
  import opened Wrappers
  import opened Bytes
  import opened Transactions
  import opened Addresses
  import opened Scripts
  import opened Sighash
  import opened WireFormat

  function OutpointWidth(i: TxInput): nat {
    |i.txid| + 4
  }

  predicate SequenceAt(s: bytes, at: nat, i: TxInput) {
    NumberAt(s, at, i.sequence, 4)
  }

  function SequenceWidth(i: TxInput): nat {
    4
  }

  /** The three strings BIP 143 hashes first: all outpoints, all sequence numbers, all outputs. */
  ghost predicate Listed(t: Transaction, outpoints: bytes, sequences: bytes, outputs: bytes) {
    && |outpoints| == ManyWidth(OutpointWidth, t.inputs) && ManyAt(OutpointAt, OutpointWidth, outpoints, 0, t.inputs)
    && |sequences| == ManyWidth(SequenceWidth, t.inputs) && ManyAt(SequenceAt, SequenceWidth, sequences, 0, t.inputs)
    && |outputs| == ManyWidth(OutputWidth, t.outputs) && ManyAt(OutputAt, OutputWidth, outputs, 0, t.outputs)
  }

  lemma ListedIsPrinted(t: Transaction, outpoints: bytes, sequences: bytes, outputs: bytes)
    requires Listed(t, outpoints, sequences, outputs)
    ensures outpoints == PrintMany(PrintOutpoint, t.inputs)
    ensures sequences == PrintMany(PrintSequence, t.inputs)
    ensures outputs == PrintMany(PrintOutput, t.outputs)
  {
    hide OutpointAt, SequenceAt, OutputAt, PrintOutpoint, PrintSequence, PrintOutput, OutputWidth, BytesAt;
    forall a: nat, i | i in t.inputs ensures OutpointAt(outpoints, a, i) <==> BytesAt(outpoints, a, PrintOutpoint(i)) {
      OutpointPrinted(outpoints, a, i);
    }
    forall i | i in t.inputs ensures |PrintOutpoint(i)| == OutpointWidth(i) {
      OutpointPrinted(outpoints, 0, i);
    }
    ManyPrinted(OutpointAt, OutpointWidth, PrintOutpoint, outpoints, 0, t.inputs);
    SequencesPrinted(sequences, t.inputs);
    OutputsPrinted(outputs, 0, t.outputs);
    WholeIsAt(outpoints, PrintMany(PrintOutpoint, t.inputs));
    WholeIsAt(sequences, PrintMany(PrintSequence, t.inputs));
    WholeIsAt(outputs, PrintMany(PrintOutput, t.outputs));
  }

  lemma SequencesPrinted(s: bytes, inputs: seq<TxInput>)
    ensures |PrintMany(PrintSequence, inputs)| == ManyWidth(SequenceWidth, inputs)
    ensures ManyAt(SequenceAt, SequenceWidth, s, 0, inputs) <==> BytesAt(s, 0, PrintMany(PrintSequence, inputs))
  {
    hide LE, BytesAt, NumberAt;
    forall a: nat, i | i in inputs ensures SequenceAt(s, a, i) <==> BytesAt(s, a, PrintSequence(i)) {
      NumberPrinted(s, a, i.sequence, 4);
    }
    ManyPrinted(SequenceAt, SequenceWidth, PrintSequence, s, 0, inputs);
  }

  /** The 182 bytes of BIP 143 for a witness key hash: `code` is the script of the key hash it stands for. */
  ghost predicate Bip143LaidOut(c: Crypto, s: bytes, t: Transaction, index: nat, p: Prevout, outpoints: bytes, sequences: bytes, outputs: bytes)
    requires index < |t.inputs| && |p.script| == 22
  {
    && |s| == 182
    && NumberAt(s, 0, t.version, 4)
    && BytesAt(s, 4, c.doubleSha(outpoints)) && BytesAt(s, 36, c.doubleSha(sequences))
    && OutpointAt(s, 68, t.inputs[index])
    && BytesAt(s, 104, [25, 0x76, 0xA9, 20]) && BytesAt(s, 108, p.script[2..]) && BytesAt(s, 128, [0x88, 0xAC])
    && NumberAt(s, 130, p.value, 8) && NumberAt(s, 138, t.inputs[index].sequence, 4)
    && BytesAt(s, 142, c.doubleSha(outputs))
    && NumberAt(s, 174, t.locktime, 4) && NumberAt(s, 178, 1, 4)
  }

  lemma CodePrinted(s: bytes, at: nat, hash: bytes)
    requires |hash| == 20
    ensures |VarBytes(PayToKeyHash(hash))| == 26
    ensures BytesAt(s, at, VarBytes(PayToKeyHash(hash))) <==>
      BytesAt(s, at, [25, 0x76, 0xA9, 20]) && BytesAt(s, at + 4, hash) && BytesAt(s, at + 24, [0x88, 0xAC])
  {
    hide BytesAt;
    assert VarBytes(PayToKeyHash(hash)) == [25, 0x76, 0xA9, 20] + hash + [0x88, 0xAC];
    BytesAtAppend(s, at, [25, 0x76, 0xA9, 20] + hash, [0x88, 0xAC]);
    BytesAtAppend(s, at, [25, 0x76, 0xA9, 20], hash);
  }

  lemma Three(s: bytes, at: nat, a: bytes, b: bytes, c: bytes)
    ensures BytesAt(s, at, a + b + c) <==> BytesAt(s, at, a) && BytesAt(s, at + |a|, b) && BytesAt(s, at + |a| + |b|, c)
  {
    hide BytesAt;
    BytesAtAppend(s, at, a + b, c);
    BytesAtAppend(s, at, a, b);
  }

  /** Ten strings of these widths one after the other. */
  lemma TenParts(s: bytes, a: bytes, b: bytes, d: bytes, e: bytes, code: bytes, f: bytes, g: bytes, h: bytes, l: bytes, n: bytes)
    requires |a| == |g| == |l| == |n| == 4 && |b| == |d| == |h| == 32 && |e| == 36 && |code| == 26 && |f| == 8
    ensures s == (a + b + d) + ((e + code + f) + (g + h + (l + n))) <==>
      && |s| == 182 && BytesAt(s, 0, a) && BytesAt(s, 4, b) && BytesAt(s, 36, d) && BytesAt(s, 68, e) && BytesAt(s, 104, code)
      && BytesAt(s, 130, f) && BytesAt(s, 138, g) && BytesAt(s, 142, h) && BytesAt(s, 174, l) && BytesAt(s, 178, n)
  {
    hide BytesAt;
    WholeIsAt(s, (a + b + d) + ((e + code + f) + (g + h + (l + n))));
    BytesAtAppend(s, 0, a + b + d, (e + code + f) + (g + h + (l + n)));
    BytesAtAppend(s, 68, e + code + f, g + h + (l + n));
    Three(s, 0, a, b, d);
    Three(s, 68, e, code, f);
    Three(s, 138, g, h, l + n);
    BytesAtAppend(s, 174, l, n);
  }

  /** What the SegWit digest hashes is exactly what BIP 143 lays out. */
  lemma PreimageIsBip143(c: Crypto, s: bytes, t: Transaction, index: nat, p: Prevout, outpoints: bytes, sequences: bytes, outputs: bytes)
    requires WfHeader(t.version, t.locktime) && index < |t.inputs| && |t.inputs[index].txid| == 32
    requires Signable(p) && p.kind.P2WPKH? && Listed(t, outpoints, sequences, outputs)
    requires forall x :: |c.doubleSha(x)| == 32
    ensures s == Preimage(c, t, index, p) <==> Bip143LaidOut(c, s, t, index, p, outpoints, sequences, outputs)
  {
    hide Listed, PrintMany, BytesAt, NumberAt, OutpointAt, PrintOutpoint, LE, LEInt32, VarBytes, PayToKeyHash;
    ListedIsPrinted(t, outpoints, sequences, outputs);
    var i, code := t.inputs[index], VarBytes(PayToKeyHash(p.script[2..]));
    var a, b, d := LEInt32(t.version), c.doubleSha(outpoints), c.doubleSha(sequences);
    var e, f, g := PrintOutpoint(i), LE(p.value, 8), LE(i.sequence, 4);
    var h, l, n := c.doubleSha(outputs), LE(t.locktime, 4), LE(SIGHASH_ALL, 4);
    Regroup(a, b, d, e, code, f, g, h, l, n);
    assert Preimage(c, t, index, p) == (a + b + d) + ((e + code + f) + (g + h + (l + n)));
    hide Preimage;
    CodePrinted(s, 104, p.script[2..]);
    OutpointPrinted(s, 68, i);
    VersionPrinted(s, 0, t.version);
    NumberPrinted(s, 130, p.value, 8);
    NumberPrinted(s, 138, i.sequence, 4);
    NumberPrinted(s, 174, t.locktime, 4);
    NumberPrinted(s, 178, 1, 4);
    TenParts(s, a, b, d, e, code, f, g, h, l, n);
  }

  lemma Regroup(a: bytes, b: bytes, d: bytes, e: bytes, code: bytes, f: bytes, g: bytes, h: bytes, l: bytes, n: bytes)
    ensures a + b + d + e + code + f + g + h + l + n == (a + b + d) + ((e + code + f) + (g + h + (l + n)))
  {
  }

  /** The same inputs in the same order, only the signed one with a script, and nothing else changed. */
  predicate OnlyScriptKept(t: Transaction, index: nat, script: bytes, u: Transaction) {
    && u.version == t.version && u.outputs == t.outputs && u.locktime == t.locktime && |u.inputs| == |t.inputs|
    && forall k :: 0 <= k < |t.inputs| ==>
         && u.inputs[k].txid == t.inputs[k].txid && u.inputs[k].vout == t.inputs[k].vout && u.inputs[k].sequence == t.inputs[k].sequence
         && u.inputs[k].scriptSig == (if k == index then script else []) && u.inputs[k].stack == []
  }

  /** What the legacy digest hashes: that transaction as it is laid out, followed by the four bytes of SIGHASH_ALL. */
  lemma PreimageIsLegacy(c: Crypto, s: bytes, t: Transaction, index: nat, p: Prevout, u: Transaction)
    requires WfHeader(t.version, t.locktime) && index < |t.inputs| && Signable(p) && p.kind.P2PKH?
    requires OnlyScriptKept(t, index, p.script, u)
    ensures s == Preimage(c, t, index, p) <==> |s| >= 4 && LaidOut(s[..|s| - 4], u, false) && BytesAt(s, |s| - 4, [1, 0, 0, 0])
  {
    var v := LegacyTransaction(t, index, p.script);
    assert u.inputs == v.inputs;
    assert u == v;
    hide LaidOut, Print, LegacyTransaction;
    assert LE(SIGHASH_ALL, 4) == [1, 0, 0, 0] by {
      assert LE(1, 4) == [1] + LE(0, 3) && LE(0, 3) == [0] + LE(0, 2) && LE(0, 2) == [0] + LE(0, 1) && LE(0, 1) == [0] + LE(0, 0);
    }
    if |s| >= 4 {
      PrintIsLaidOut(s[..|s| - 4], u, false);
      assert s == s[..|s| - 4] + s[|s| - 4..];
      LastFour(s);
    }
  }

  lemma LastFour(s: bytes)
    requires |s| >= 4
    ensures BytesAt(s, |s| - 4, [1, 0, 0, 0]) <==> s[|s| - 4..] == [1, 0, 0, 0]
  {
    var tail := s[|s| - 4..];
    if BytesAt(s, |s| - 4, [1, 0, 0, 0]) {
      forall k | 0 <= k < 4 ensures tail[k] == [1, 0, 0, 0][k] {
        assert s[|s| - 4 + k] == [1, 0, 0, 0][k];
      }
      assert tail == [1, 0, 0, 0];
    }
    if tail == [1, 0, 0, 0] {
      forall k | 0 <= k < 4 ensures s[|s| - 4 + k] == [1, 0, 0, 0][k] {
        assert s[|s| - 4 + k] == tail[k];
      }
    }
  }
}
