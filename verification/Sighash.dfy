/**
 * The SIGHASH_ALL digests of both wallets (`tx/sighash.py`, `single_key_wallet/signing.py`): BIP 143,
 * "Specification", and the legacy digest. What they ignore, and what they commit to.
 */
module Sighash {
  import opened Wrappers
  import opened Bytes
  import opened Transactions
  import opened Addresses
  import opened Scripts
  import opened Codec

  /** The hash functions and the signature scheme the wallets call. */
  datatype Crypto = Crypto(
    doubleSha: bytes -> bytes,
    hash160: bytes -> bytes,
    publicKey: (bytes, bool) -> bytes,
    sign: (bytes, bytes) -> bytes,
    verify: (bytes, bytes, bytes) -> bool,
    canonicalKey: (bytes, bool) -> bool)

  /** The output an input spends. */
  datatype Prevout = Prevout(point: Outpoint, value: nat, script: bytes, kind: AddressType, path: string)

  datatype SighashError = IndexOutOfRange | WrongKind | PrevoutMismatch

  const SIGHASH_ALL: byte := 1

  function PrintSequence(i: TxInput): bytes {
    LE(i.sequence, 4)
  }

  /** BIP 143: `code` is the script code, `value` the amount spent. */
  function Bip143Preimage(c: Crypto, t: Transaction, index: nat, code: bytes, value: nat): bytes
    requires WfHeader(t.version, t.locktime) && index < |t.inputs|
  {
    LEInt32(t.version) + c.doubleSha(PrintMany(PrintOutpoint, t.inputs)) + c.doubleSha(PrintMany(PrintSequence, t.inputs))
    + PrintOutpoint(t.inputs[index]) + VarBytes(code) + LE(value, 8) + LE(t.inputs[index].sequence, 4)
    + c.doubleSha(PrintMany(PrintOutput, t.outputs)) + LE(t.locktime, 4) + LE(SIGHASH_ALL, 4)
  }

  /** The inputs as the legacy digest signs them: the spent script in place, every other one empty. */
  function LegacyInputs(inputs: seq<TxInput>, index: nat, script: bytes): (r: seq<TxInput>)
    ensures |r| == |inputs|
  {
    seq(|inputs|, k requires 0 <= k < |inputs| =>
      TxInput(inputs[k].txid, inputs[k].vout, inputs[k].sequence, if k == index then script else [], []))
  }

  function LegacyTransaction(t: Transaction, index: nat, script: bytes): Transaction {
    Transaction(t.version, LegacyInputs(t.inputs, index, script), t.outputs, t.locktime)
  }

  function LegacyPreimage(t: Transaction, index: nat, script: bytes): bytes
    requires WfHeader(t.version, t.locktime)
  {
    Print(LegacyTransaction(t, index, script), false) + LE(SIGHASH_ALL, 4)
  }

  function Preimage(c: Crypto, t: Transaction, index: nat, p: Prevout): bytes
    requires WfHeader(t.version, t.locktime) && index < |t.inputs| && Signable(p)
  {
    if p.kind.P2WPKH? then Bip143Preimage(c, t, index, PayToKeyHash(p.script[2..]), p.value) else LegacyPreimage(t, index, p.script)
  }

  /** The script is the standard one of the prevout's type. */
  predicate Signable(p: Prevout) {
    (p.kind.P2WPKH? && IsP2WPKH(p.script)) || (p.kind.P2PKH? && IsP2PKH(p.script))
  }

  /** `bip143_sighash_all` or `legacy_sighash_all`, by the prevout's type. */
  function Digest(c: Crypto, t: Transaction, index: nat, p: Prevout): Result<bytes, SighashError>
    requires WfHeader(t.version, t.locktime)
  {
    if index >= |t.inputs| then Err(IndexOutOfRange)
    else if !Signable(p) then Err(WrongKind)
    else if OutpointOf(t.inputs[index]) != p.point then Err(PrevoutMismatch)
    else Ok(c.doubleSha(Preimage(c, t, index, p)))
  }

  // ----- What the digests ignore -----

  /** The same transaction up to scripts and witnesses of the inputs. */
  predicate SameSkeleton(t: Transaction, u: Transaction) {
    && t.version == u.version && t.outputs == u.outputs && t.locktime == u.locktime
    && |t.inputs| == |u.inputs|
    && forall k :: 0 <= k < |t.inputs| ==> SameOutline(t.inputs[k], u.inputs[k])
  }

  predicate SameOutline(i: TxInput, j: TxInput) {
    i.txid == j.txid && i.vout == j.vout && i.sequence == j.sequence
  }

  lemma {:induction false} OutlinesPrintAlike(a: seq<TxInput>, b: seq<TxInput>)
    requires |a| == |b| && forall k :: 0 <= k < |a| ==> SameOutline(a[k], b[k])
    ensures PrintMany(PrintOutpoint, a) == PrintMany(PrintOutpoint, b)
    ensures PrintMany(PrintSequence, a) == PrintMany(PrintSequence, b)
  {
    if a != [] {
      OutlinesPrintAlike(a[1..], b[1..]);
    }
  }

  /** Both digests depend only on the skeleton: not on any input's current script or witness. */
  lemma DigestIgnoresUnlocking(c: Crypto, t: Transaction, u: Transaction, index: nat, p: Prevout)
    requires WfHeader(t.version, t.locktime) && SameSkeleton(t, u)
    ensures Digest(c, t, index, p) == Digest(c, u, index, p)
  {
    OutlinesPrintAlike(t.inputs, u.inputs);
    assert LegacyInputs(t.inputs, index, p.script) == LegacyInputs(u.inputs, index, p.script);
    if index < |t.inputs| {
      assert SameOutline(t.inputs[index], u.inputs[index]);
    }
    hide LE, LEInt32, PrintMany, CompactSize, LegacyInputs, Print;
  }

  // ----- What the digests commit to -----

  /** Two different byte strings with one hash. */
  ghost predicate Collision(h: bytes -> bytes, a: bytes, b: bytes) {
    a != b && h(a) == h(b)
  }

  lemma SomethingPrinted<T>(print1: T -> bytes, xs: seq<T>)
    requires forall k :: 0 <= k < |xs| ==> |print1(xs[k])| > 0
    ensures xs != [] ==> PrintMany(print1, xs) != []
  {
    if xs != [] {
      assert |print1(xs[0])| > 0;
    }
  }

  lemma {:induction false} FixedWidthInjective<T>(print1: T -> bytes, width: nat, a: seq<T>, b: seq<T>)
    requires width > 0
    requires forall k :: 0 <= k < |a| ==> |print1(a[k])| == width
    requires forall k :: 0 <= k < |b| ==> |print1(b[k])| == width
    requires PrintMany(print1, a) == PrintMany(print1, b)
    ensures |a| == |b| && forall k :: 0 <= k < |a| ==> print1(a[k]) == print1(b[k])
  {
    SomethingPrinted(print1, a);
    SomethingPrinted(print1, b);
    if a != [] {
      var x, y := PrintMany(print1, a), PrintMany(print1, b);
      assert print1(a[0]) == x[..width] && print1(b[0]) == y[..width];
      assert PrintMany(print1, a[1..]) == x[width..] && PrintMany(print1, b[1..]) == y[width..];
      FixedWidthInjective(print1, width, a[1..], b[1..]);
      forall k | 0 <= k < |a| ensures print1(a[k]) == print1(b[k]) {
        if k > 0 {
          assert a[k] == a[1..][k - 1] && b[k] == b[1..][k - 1];
        }
      }
    }
  }

  lemma LEInjective(a: nat, b: nat, k: nat)
    requires a < Pow256(k) && b < Pow256(k) && LE(a, k) == LE(b, k)
    ensures a == b
  {
    FromLEOfLE(a, k);
    FromLEOfLE(b, k);
  }

  lemma OutpointInjective(i: TxInput, j: TxInput)
    requires WfInput(i) && WfInput(j) && PrintOutpoint(i) == PrintOutpoint(j)
    ensures OutpointOf(i) == OutpointOf(j)
  {
    var x, y := PrintOutpoint(i), PrintOutpoint(j);
    hide LE;
    assert Reverse(i.txid) == x[..32] && Reverse(j.txid) == y[..32];
    assert LE(i.vout, 4) == x[32..] && LE(j.vout, 4) == y[32..];
    ReverseTwice(i.txid);
    ReverseTwice(j.txid);
    PowConstants();
    LEInjective(i.vout, j.vout, 4);
  }

  /** Concatenated outputs decode in one way only, though nothing counts them. */
  lemma {:induction false} OutputsInjective(a: seq<TxOutput>, b: seq<TxOutput>)
    requires forall k :: 0 <= k < |a| ==> WfOutput(a[k])
    requires forall k :: 0 <= k < |b| ==> WfOutput(b[k])
    requires PrintMany(PrintOutput, a) == PrintMany(PrintOutput, b)
    ensures a == b
  {
    SomethingPrinted(PrintOutput, a);
    SomethingPrinted(PrintOutput, b);
    if a != [] {
      ReadOutputOfPrint(a[0], PrintMany(PrintOutput, a[1..]));
      ReadOutputOfPrint(b[0], PrintMany(PrintOutput, b[1..]));
      OutputsInjective(a[1..], b[1..]);
      assert a == [a[0]] + a[1..] && b == [b[0]] + b[1..];
    }
  }

  /** All that a BIP 143 signature should pin down. */
  predicate Bip143SameContent(t: Transaction, i: nat, p: Prevout, u: Transaction, j: nat, q: Prevout)
    requires i < |t.inputs| && j < |u.inputs|
  {
    && t.version == u.version && t.locktime == u.locktime && t.outputs == u.outputs
    && |t.inputs| == |u.inputs|
    && (forall k :: 0 <= k < |t.inputs| ==> SameOutline(t.inputs[k], u.inputs[k]))
    && p.point == q.point && p.value == q.value && p.script == q.script && i == j
  }

  /** One of the four byte strings hashed on the way collides with its counterpart. */
  ghost predicate Bip143Collision(c: Crypto, t: Transaction, i: nat, p: Prevout, u: Transaction, j: nat, q: Prevout)
    requires WfTx(t) && WfTx(u) && i < |t.inputs| && j < |u.inputs| && Signable(p) && Signable(q)
  {
    || Collision(c.doubleSha, Preimage(c, t, i, p), Preimage(c, u, j, q))
    || Collision(c.doubleSha, PrintMany(PrintOutpoint, t.inputs), PrintMany(PrintOutpoint, u.inputs))
    || Collision(c.doubleSha, PrintMany(PrintSequence, t.inputs), PrintMany(PrintSequence, u.inputs))
    || Collision(c.doubleSha, PrintMany(PrintOutput, t.outputs), PrintMany(PrintOutput, u.outputs))
  }

  /** The parts of a BIP 143 preimage, in order. */
  lemma Bip143Parts(c: Crypto, t: Transaction, i: nat, code: bytes, value: nat, u: Transaction, j: nat, other: bytes, amount: nat)
    requires WfTx(t) && WfTx(u) && i < |t.inputs| && j < |u.inputs| && |code| == |other| == 25
    requires forall x :: |c.doubleSha(x)| == 32
    requires Bip143Preimage(c, t, i, code, value) == Bip143Preimage(c, u, j, other, amount)
    ensures LEInt32(t.version) == LEInt32(u.version) && LE(t.locktime, 4) == LE(u.locktime, 4)
    ensures c.doubleSha(PrintMany(PrintOutpoint, t.inputs)) == c.doubleSha(PrintMany(PrintOutpoint, u.inputs))
    ensures c.doubleSha(PrintMany(PrintSequence, t.inputs)) == c.doubleSha(PrintMany(PrintSequence, u.inputs))
    ensures PrintOutpoint(t.inputs[i]) == PrintOutpoint(u.inputs[j])
    ensures code == other && LE(value, 8) == LE(amount, 8) && LE(t.inputs[i].sequence, 4) == LE(u.inputs[j].sequence, 4)
    ensures c.doubleSha(PrintMany(PrintOutput, t.outputs)) == c.doubleSha(PrintMany(PrintOutput, u.outputs))
  {
    hide PrintMany, LE, LEInt32;
    assert WfInput(t.inputs[i]) && WfInput(u.inputs[j]);
    var x, y := Bip143Preimage(c, t, i, code, value), Bip143Preimage(c, u, j, other, amount);
    Slices(c, t, i, code, value);
    Slices(c, u, j, other, amount);
  }

  lemma Slices(c: Crypto, t: Transaction, i: nat, code: bytes, value: nat)
    requires WfTx(t) && i < |t.inputs| && |code| == 25 && |t.inputs[i].txid| == 32
    requires forall x :: |c.doubleSha(x)| == 32
    ensures
      var x := Bip143Preimage(c, t, i, code, value);
      && |x| == 182
      && x[..4] == LEInt32(t.version) && x[4..36] == c.doubleSha(PrintMany(PrintOutpoint, t.inputs))
      && x[36..68] == c.doubleSha(PrintMany(PrintSequence, t.inputs)) && x[68..104] == PrintOutpoint(t.inputs[i])
      && x[105..130] == code && x[130..138] == LE(value, 8) && x[138..142] == LE(t.inputs[i].sequence, 4)
      && x[142..174] == c.doubleSha(PrintMany(PrintOutput, t.outputs)) && x[174..178] == LE(t.locktime, 4)
  {
    hide PrintMany, LE, LEInt32;
    assert |VarBytes(code)| == 26 && VarBytes(code)[1..] == code;
  }

  /**
   * Equal BIP 143 digests mean equal version, outpoints, sequences, outputs, lock time, signed input,
   * spent value and script, unless one of four named pairs of byte strings is a hash collision.
   */
  lemma Bip143Commits(c: Crypto, t: Transaction, i: nat, p: Prevout, u: Transaction, j: nat, q: Prevout)
    requires WfTx(t) && WfTx(u) && p.value <= U64_MAX && q.value <= U64_MAX
    requires forall x :: |c.doubleSha(x)| == 32
    requires p.kind == q.kind == P2WPKH && Digest(c, t, i, p).Ok? && Digest(c, u, j, q).Ok?
    requires Digest(c, t, i, p) == Digest(c, u, j, q)
    ensures Bip143SameContent(t, i, p, u, j, q) || Bip143Collision(c, t, i, p, u, j, q)
  {
    var code, other := PayToKeyHash(p.script[2..]), PayToKeyHash(q.script[2..]);
    if !Bip143Collision(c, t, i, p, u, j, q) {
      Bip143Parts(c, t, i, code, p.value, u, j, other, q.value);
      Int32RoundTrip(t.version, LEInt32(t.version));
      Int32RoundTrip(u.version, LEInt32(u.version));
      PowConstants();
      LEInjective(p.value, q.value, 8);
      LEInjective(t.locktime, u.locktime, 4);
      OutlinesFromPrints(t, u);
      OutputsInjective(t.outputs, u.outputs);
      OutpointInjective(t.inputs[i], u.inputs[j]);
      LEInjective(t.inputs[i].sequence, u.inputs[j].sequence, 4);
      assert OutpointOf(t.inputs[j]) == OutpointOf(u.inputs[j]) by { assert SameOutline(t.inputs[j], u.inputs[j]); }
      assert p.script == [0, 20] + code[3..23] && q.script == [0, 20] + other[3..23];
      assert i == j;
      hide *;
    }
  }

  lemma OutlinesFromPrints(t: Transaction, u: Transaction)
    requires WfTx(t) && WfTx(u)
    requires PrintMany(PrintOutpoint, t.inputs) == PrintMany(PrintOutpoint, u.inputs)
    requires PrintMany(PrintSequence, t.inputs) == PrintMany(PrintSequence, u.inputs)
    ensures |t.inputs| == |u.inputs| && forall k :: 0 <= k < |t.inputs| ==> SameOutline(t.inputs[k], u.inputs[k])
  {
    FixedWidthInjective(PrintOutpoint, 36, t.inputs, u.inputs);
    FixedWidthInjective(PrintSequence, 4, t.inputs, u.inputs);
    PowConstants();
    forall k | 0 <= k < |t.inputs| ensures SameOutline(t.inputs[k], u.inputs[k]) {
      var i, j := t.inputs[k], u.inputs[k];
      assert WfInput(i) && WfInput(j);
      hide LE;
      OutpointInjective(i, j);
      assert PrintSequence(i) == PrintSequence(j);
      LEInjective(i.sequence, j.sequence, 4);
    }
  }

  lemma LegacyTransactionWf(t: Transaction, i: nat, p: Prevout)
    requires WfTx(t) && p.kind.P2PKH? && Signable(p)
    ensures WfTx(LegacyTransaction(t, i, p.script)) && !HasWitness(LegacyTransaction(t, i, p.script).inputs)
  {
    var signing := LegacyTransaction(t, i, p.script).inputs;
    forall k | 0 <= k < |signing| ensures WfInput(signing[k]) {
      assert WfInput(t.inputs[k]);
    }
    DistinctIgnoresWitness(t.inputs, signing);
  }

  /** All that a legacy signature pins down: not the value spent. */
  predicate LegacySameContent(t: Transaction, i: nat, p: Prevout, u: Transaction, j: nat, q: Prevout)
    requires i < |t.inputs| && j < |u.inputs|
  {
    && t.version == u.version && t.locktime == u.locktime && t.outputs == u.outputs
    && |t.inputs| == |u.inputs| && i == j
    && (forall k :: 0 <= k < |t.inputs| ==> SameOutline(t.inputs[k], u.inputs[k]))
    && p.point == q.point && p.script == q.script
  }

  /** Equal legacy digests mean equal content and the same input signed, unless the preimages collide. */
  lemma LegacyCommits(c: Crypto, t: Transaction, i: nat, p: Prevout, u: Transaction, j: nat, q: Prevout)
    requires WfTx(t) && WfTx(u)
    requires p.kind == q.kind == P2PKH && Digest(c, t, i, p).Ok? && Digest(c, u, j, q).Ok?
    requires Digest(c, t, i, p) == Digest(c, u, j, q)
    ensures LegacySameContent(t, i, p, u, j, q) || Collision(c.doubleSha, Preimage(c, t, i, p), Preimage(c, u, j, q))
  {
    var a, b := LegacyTransaction(t, i, p.script), LegacyTransaction(u, j, q.script);
    if !Collision(c.doubleSha, Preimage(c, t, i, p), Preimage(c, u, j, q)) {
      LegacyTransactionWf(t, i, p);
      LegacyTransactionWf(u, j, q);
      assert Print(a, true) == Print(b, true) by {
        var x, y := LegacyPreimage(t, i, p.script), LegacyPreimage(u, j, q.script);
        assert Print(a, false) == x[..|x| - 4] && Print(b, false) == y[..|y| - 4];
      }
      ParseOfPrint(a);
      ParseOfPrint(b);
      assert a == b;
      hide *;
      SameLegacyInputs(t.inputs, i, p.script, u.inputs, j, q.script);
    }
  }

  lemma SameLegacyInputs(a: seq<TxInput>, i: nat, s: bytes, b: seq<TxInput>, j: nat, r: bytes)
    requires i < |a| && j < |b| && s != [] && r != []
    requires LegacyInputs(a, i, s) == LegacyInputs(b, j, r)
    ensures |a| == |b| && i == j && s == r && forall k :: 0 <= k < |a| ==> SameOutline(a[k], b[k])
  {
    var x, y := LegacyInputs(a, i, s), LegacyInputs(b, j, r);
    assert x[i].scriptSig == s && y[j].scriptSig == r;
    forall k | 0 <= k < |a| ensures SameOutline(a[k], b[k]) {
      assert x[k] == y[k];
    }
  }
}
