/** Script data pushes (`tx/script.py`, `single_key_wallet/signing.py`) and the standard scripts. */
module Scripts {
  import opened Wrappers
  import opened Bytes

  datatype ScriptError = PushTooLarge | Truncated | NonPushOpcode

  /** `push_data`: the shortest push of the data. */
  function PushData(data: bytes): Result<bytes, ScriptError> {
    if |data| <= 75 then Ok([|data|] + data)
    else if |data| <= 0xFF then Ok([0x4C, |data|] + data)
    else if |data| <= U16_MAX then Ok([0x4D] + LE(|data|, 2) + data)
    else if |data| <= U32_MAX then Ok([0x4E] + LE(|data|, 4) + data)
    else Err(PushTooLarge)
  }

  /** How many bytes the opcode and its length field take, and the length they announce. */
  function PushHeader(script: bytes): Result<(nat, nat), ScriptError>
    requires script != []
    ensures var r := PushHeader(script); r.Ok? ==> 1 <= r.value.0 <= |script|
  {
    var opcode := script[0];
    var width := if opcode == 0x4C then 1 else if opcode == 0x4D then 2 else 4;
    if opcode <= 75 then Ok((1, opcode))
    else if opcode > 0x4E then Err(NonPushOpcode)
    else if 1 + width > |script| then Err(Truncated)
    else Ok((1 + width, FromLE(script[1..1 + width])))
  }

  /** `parse_pushes`: the items pushed by a script of pushes only. */
  function ParsePushes(script: bytes): Result<seq<bytes>, ScriptError>
    decreases |script|
  {
    if script == [] then Ok([])
    else
      var (start, length) :- PushHeader(script);
      if start + length > |script| then Err(Truncated)
      else
        var rest :- ParsePushes(script[start + length..]);
        Ok([script[start..start + length]] + rest)
  }

  function PushAll(items: seq<bytes>): Result<bytes, ScriptError> {
    if items == [] then Ok([])
    else
      var first :- PushData(items[0]);
      var rest :- PushAll(items[1..]);
      Ok(first + rest)
  }

  lemma HeaderOfPush(data: bytes, rest: bytes)
    requires PushData(data).Ok?
    ensures
      var script := PushData(data).value + rest;
      var r := PushHeader(script);
      && r.Ok? && r.value.0 + |data| <= |script| && r.value.1 == |data|
      && script[r.value.0..r.value.0 + |data|] == data && script[r.value.0 + |data|..] == rest
  {
    var script := PushData(data).value + rest;
    if |data| > 75 {
      var width := if |data| <= 0xFF then 1 else if |data| <= U16_MAX then 2 else 4;
      PowConstants();
      FromLEOfLE(|data|, width);
      assert LE(|data|, 1) == [|data| % 256];
      assert script == [script[0]] + LE(|data|, width) + data + rest;
      hide LE, FromLE;
      assert script[1..1 + width] == LE(|data|, width);
    }
  }

  lemma ParseOfPush(data: bytes, rest: bytes)
    requires PushData(data).Ok? && ParsePushes(rest).Ok?
    ensures ParsePushes(PushData(data).value + rest) == Ok([data] + ParsePushes(rest).value)
  {
    HeaderOfPush(data, rest);
  }

  /** `parse_pushes` undoes any sequence of `push_data`. */
  lemma {:induction false} ParseOfPushAll(items: seq<bytes>)
    requires PushAll(items).Ok?
    ensures ParsePushes(PushAll(items).value) == Ok(items)
  {
    hide PushData, ParsePushes;
    if items == [] {
      ParseOfNothing();
    } else {
      ParseOfPushAll(items[1..]);
      ParseOfPush(items[0], PushAll(items[1..]).value);
      assert items == [items[0]] + items[1..];
    }
  }

  lemma ParseOfNothing()
    ensures ParsePushes([]) == Ok([])
  {
  }

  /** `_script_pushes` of the single-key wallet: direct pushes of 1 to 75 bytes, nothing else. */
  function DirectPushes(script: bytes): Result<seq<bytes>, ScriptError>
    decreases |script|
  {
    if script == [] then Ok([])
    else
      var length := script[0];
      if !(1 <= length <= 75) || 1 + length > |script| then Err(NonPushOpcode)
      else
        var rest :- DirectPushes(script[1 + length..]);
        Ok([script[1..1 + length]] + rest)
  }

  /** Whatever the strict parser refuses it refuses as not a plain push. */
  lemma {:induction false} DirectRefusal(script: bytes)
    ensures DirectPushes(script).Err? ==> DirectPushes(script) == Err(NonPushOpcode)
    decreases |script|
  {
    if script != [] && 1 <= script[0] <= 75 && 1 + script[0] <= |script| {
      DirectRefusal(script[1 + script[0]..]);
    }
  }

  predicate AllDirect(items: seq<bytes>) {
    forall k :: 0 <= k < |items| ==> 1 <= |items[k]| <= 75
  }

  lemma DirectStep(script: bytes) returns (item: bytes, tail: bytes)
    requires script != [] && DirectPushes(script).Ok?
    ensures 1 <= |item| <= 75 && script == PushData(item).value + tail && |tail| < |script|
    ensures DirectPushes(tail).Ok? && DirectPushes(script).value == [item] + DirectPushes(tail).value
  {
    var length := script[0];
    item, tail := script[1..1 + length], script[1 + length..];
    assert script == [length] + item + tail;
  }

  lemma {:induction false} DirectPushesSound(script: bytes)
    requires DirectPushes(script).Ok?
    ensures AllDirect(DirectPushes(script).value) && PushAll(DirectPushes(script).value) == Ok(script)
    decreases |script|
  {
    if script != [] {
      var item, tail := DirectStep(script);
      hide DirectPushes;
      DirectPushesSound(tail);
      var items := DirectPushes(script).value;
      assert items[0] == item && items[1..] == DirectPushes(tail).value;
    }
  }

  lemma {:induction false} DirectPushesComplete(items: seq<bytes>)
    requires AllDirect(items)
    ensures PushAll(items).Ok? && DirectPushes(PushAll(items).value) == Ok(items)
  {
    if items != [] {
      DirectPushesComplete(items[1..]);
      var first, rest := PushData(items[0]).value, PushAll(items[1..]).value;
      var script := first + rest;
      assert script[0] == |items[0]| && script[1..1 + script[0]] == items[0] && script[1 + script[0]..] == rest;
      assert items == [items[0]] + items[1..];
    }
  }

  /** The strict parser accepts exactly the scripts that push such items in their shortest form. */
  lemma DirectPushesExactly(script: bytes, items: seq<bytes>)
    ensures DirectPushes(script) == Ok(items) <==> AllDirect(items) && PushAll(items) == Ok(script)
  {
    if DirectPushes(script) == Ok(items) {
      DirectPushesSound(script);
    }
    if AllDirect(items) {
      DirectPushesComplete(items);
    }
  }

  /** Whatever the strict parser accepts, the other one reads alike. */
  lemma StrictParserAgrees(script: bytes)
    requires DirectPushes(script).Ok?
    ensures ParsePushes(script) == Ok(DirectPushes(script).value)
  {
    DirectPushesExactly(script, DirectPushes(script).value);
    ParseOfPushAll(DirectPushes(script).value);
  }

  /** The items already read, followed by what the rest of the script gives. */
  function Then(items: seq<bytes>, rest: Result<seq<bytes>, ScriptError>): Result<seq<bytes>, ScriptError> {
    match rest
    case Ok(more) => Ok(items + more)
    case Err(e) => Err(e)
  }

  lemma ThenStep(items: seq<bytes>, item: bytes, rest: Result<seq<bytes>, ScriptError>)
    ensures Then([], rest) == rest && Then(items, Ok([])) == Ok(items)
    ensures Then(items, Then([item], rest)) == Then(items + [item], rest)
  {
    if rest.Ok? {
      assert [] + rest.value == rest.value;
      assert items + ([item] + rest.value) == items + [item] + rest.value;
    }
    assert items + [] == items;
  }

  lemma PushesAt(script: bytes, offset: nat)
    requires offset < |script|
    ensures
      var header := PushHeader(script[offset..]);
      ParsePushes(script[offset..]) ==
        if header.Err? then Err(header.error)
        else
          var start := offset + header.value.0;
          var end := start + header.value.1;
          if end > |script| then Err(Truncated) else Then([script[start..end]], ParsePushes(script[end..]))
  {
    hide PushHeader;
    var unread := script[offset..];
    if PushHeader(unread).Ok? {
      var (start, length) := PushHeader(unread).value;
      if start + length <= |unread| {
        assert unread[start..start + length] == script[offset + start..offset + start + length];
        assert unread[start + length..] == script[offset + start + length..];
      }
    }
  }

  lemma NoPushesLeft(script: bytes)
    ensures ParsePushes(script[|script|..]) == Ok([])
  {
  }

  /** The loop of `parse_pushes`. */
  method ParsePushLoop(script: bytes) returns (r: Result<seq<bytes>, ScriptError>)
    ensures r == ParsePushes(script)
  {
    hide PushHeader, ParsePushes, Then;
    var offset, items := 0, [];
    assert script[0..] == script;
    ThenStep([], [], ParsePushes(script));
    while offset < |script|
      invariant 0 <= offset <= |script|
      invariant ParsePushes(script) == Then(items, ParsePushes(script[offset..]))
    {
      PushesAt(script, offset);
      var header := PushHeader(script[offset..]);
      if header.Err? {
        ThenFails(items, header.error);
        return Err(header.error);
      }
      var (start, length) := header.value;
      offset := offset + start;
      if offset + length > |script| {
        ThenFails(items, Truncated);
        return Err(Truncated);
      }
      ThenStep(items, script[offset..offset + length], ParsePushes(script[offset + length..]));
      items := items + [script[offset..offset + length]];
      offset := offset + length;
    }
    NoPushesLeft(script);
    ThenStep(items, [], Ok([]));
    r := Ok(items);
  }

  lemma DirectAt(script: bytes, position: nat)
    requires position < |script|
    ensures
      var length := script[position];
      var start := position + 1;
      DirectPushes(script[position..]) ==
        if !(1 <= length <= 75) || start + length > |script| then Err(NonPushOpcode)
        else Then([script[start..start + length]], DirectPushes(script[start + length..]))
  {
    var unread := script[position..];
    var length := script[position];
    if 1 <= length <= 75 && position + 1 + length <= |script| {
      assert unread[1..1 + length] == script[position + 1..position + 1 + length];
      assert unread[1 + length..] == script[position + 1 + length..];
    }
  }

  /** The loop of `_script_pushes`. */
  method DirectPushLoop(script: bytes) returns (r: Result<seq<bytes>, ScriptError>)
    ensures r == DirectPushes(script)
  {
    hide DirectPushes, Then;
    var items, position := [], 0;
    assert script[0..] == script;
    ThenStep([], [], DirectPushes(script));
    while position < |script|
      invariant 0 <= position <= |script|
      invariant DirectPushes(script) == Then(items, DirectPushes(script[position..]))
    {
      DirectAt(script, position);
      var length := script[position];
      position := position + 1;
      if !(1 <= length <= 75) || position + length > |script| {
        ThenFails(items, NonPushOpcode);
        return Err(NonPushOpcode);
      }
      ThenStep(items, script[position..position + length], DirectPushes(script[position + length..]));
      items := items + [script[position..position + length]];
      position := position + length;
    }
    NothingLeft(script);
    ThenStep(items, [], Ok([]));
    r := Ok(items);
  }

  lemma NothingLeft(script: bytes)
    ensures DirectPushes(script[|script|..]) == Ok([])
  {
  }

  lemma ThenFails(items: seq<bytes>, e: ScriptError)
    ensures Then(items, Err(e)) == Err(e)
  {
  }

  // ----- Standard scripts -----

  predicate IsP2PKH(script: bytes) {
    |script| == 25 && script[..3] == [0x76, 0xA9, 20] && script[23..] == [0x88, 0xAC]
  }

  predicate IsP2WPKH(script: bytes) {
    |script| == 22 && script[..2] == [0, 20]
  }

  function PayToKeyHash(hash: bytes): bytes {
    [0x76, 0xA9, 20] + hash + [0x88, 0xAC]
  }

  function PayToWitnessKeyHash(hash: bytes): bytes {
    [0, 20] + hash
  }

  lemma StandardScripts(hash: bytes)
    requires |hash| == 20
    ensures IsP2PKH(PayToKeyHash(hash)) && PayToKeyHash(hash)[3..23] == hash
    ensures IsP2WPKH(PayToWitnessKeyHash(hash)) && PayToWitnessKeyHash(hash)[2..] == hash
  {
  }

  // ----- The forms of a push -----

  /** The four forms: the length itself, or one of three opcodes and a length of one, two or four bytes. */
  lemma PushForms(data: bytes)
    ensures
      var n := |data|;
      PushData(data) ==
        if n <= 75 then Ok([n] + data)
        else if n <= 255 then Ok([76, n] + data)
        else if n <= 65_535 then Ok([77, n % 256, n / 256] + data)
        else if n <= 4_294_967_295 then Ok([78, n % 256, n / 256 % 256, n / 65_536 % 256, n / 16_777_216] + data)
        else Err(PushTooLarge)
  {
    var n := |data|;
    if 255 < n <= 65_535 {
      assert LE(n / 256, 1) == [n / 256 % 256] + LE(n / 256 / 256, 0);
      assert LE(n, 2) == [n % 256, n / 256];
      assert [0x4D] + LE(n, 2) + data == [77, n % 256, n / 256] + data;
    } else if 65_535 < n <= 4_294_967_295 {
      assert LE(n, 4) == [n % 256] + LE(n / 256, 3);
      assert LE(n / 256, 3) == [n / 256 % 256] + LE(n / 256 / 256, 2);
      assert LE(n / 256 / 256, 2) == [n / 256 / 256 % 256] + LE(n / 256 / 256 / 256, 1);
      assert LE(n / 256 / 256 / 256, 1) == [n / 256 / 256 / 256 % 256] + LE(n / 256 / 256 / 256 / 256, 0);
      assert LE(n / 256 / 256 / 256 / 256, 0) == [];
      assert n / 256 / 256 == n / 65_536 && n / 256 / 256 / 256 == n / 16_777_216;
      assert LE(n, 4) == [n % 256, n / 256 % 256, n / 65_536 % 256, n / 16_777_216];
      assert [0x4E] + LE(n, 4) + data == [78, n % 256, n / 256 % 256, n / 65_536 % 256, n / 16_777_216] + data;
    }
  }

  function Four(a: nat, b: nat, c: nat, d: nat): nat {
    a + 256 * b + 65_536 * c + 16_777_216 * d
  }

  /** Reading accepts each form with any length, shortest or not, and no other opcode. */
  lemma HeaderForms(script: bytes)
    requires script != []
    ensures
      var r, op, n := PushHeader(script), script[0], |script|;
      && (op <= 75 ==> r == Ok((1, op)))
      && (op == 76 ==> r == if n < 2 then Err(Truncated) else Ok((2, script[1])))
      && (op == 77 ==> r == if n < 3 then Err(Truncated) else Ok((3, Four(script[1], script[2], 0, 0))))
      && (op == 78 ==> r == if n < 5 then Err(Truncated)
            else Ok((5, Four(script[1], script[2], script[3], script[4]))))
      && (op > 78 ==> r == Err(NonPushOpcode))
  {
    var op, n := script[0], |script|;
    if op == 76 && n >= 2 {
      var s := script[1..2];
      assert FromLE(s) == s[0] + 256 * FromLE(s[1..]) && FromLE(s[1..]) == 0;
    } else if op == 77 && n >= 3 {
      var s := script[1..3];
      assert FromLE(s) == s[0] + 256 * FromLE(s[1..]) && FromLE(s[1..]) == s[1] + 256 * FromLE(s[1..][1..]) && s[1..][1..] == [];
    } else if op == 78 && n >= 5 {
      FourBytes(script[1..5]);
    }
  }

  lemma FourBytes(s: bytes)
    requires |s| == 4
    ensures FromLE(s) == Four(s[0], s[1], s[2], s[3])
  {
    var a, b, c := s[1..], s[2..], s[3..];
    assert a[1..] == b && b[1..] == c && c[1..] == [];
    assert FromLE(c) == c[0] && FromLE(b) == b[0] + 256 * FromLE(c) && FromLE(a) == a[0] + 256 * FromLE(b);
    assert FromLE(s) == s[0] + 256 * FromLE(a);
  }

  function HeaderWidth(n: nat): nat {
    if n <= 75 then 1 else if n <= 255 then 2 else if n <= 65_535 then 3 else 5
  }

  lemma NarrowestHeader(script: bytes)
    requires script != [] && PushHeader(script).Ok?
    ensures PushHeader(script).value.0 >= HeaderWidth(PushHeader(script).value.1)
  {
    HeaderForms(script);
    hide PushHeader;
  }

  lemma OneItem(data: bytes, script: bytes)
    requires ParsePushes(script) == Ok([data])
    ensures script != [] && PushHeader(script).Ok? && PushHeader(script).value.1 == |data|
    ensures PushHeader(script).value.0 + |data| <= |script|
  {
    hide PushHeader;
    var (start, length) := PushHeader(script).value;
    var rest := ParsePushes(script[start + length..]).value;
    assert ParsePushes(script).value == [script[start..start + length]] + rest;
    hide ParsePushes;
    assert ([script[start..start + length]] + rest)[0] == [data][0];
  }

  /** A push is printed in the fewest bytes that any script reading as that one item has. */
  lemma PushIsShortest(data: bytes, script: bytes)
    requires PushData(data).Ok? && ParsePushes(script) == Ok([data])
    ensures |PushData(data).value| <= |script|
  {
    PushForms(data);
    assert |PushData(data).value| == HeaderWidth(|data|) + |data|;
    hide PushHeader, PushData, ParsePushes;
    OneItem(data, script);
    NarrowestHeader(script);
  }
}
