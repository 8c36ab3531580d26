/** Base58 and Base58Check (`btc/btc_address_gen.py`, `single_key_wallet/wif.py`, `tx/script.py`). */
module Base58 {
  import opened Wrappers
  import opened Bytes

  // ----- Positional numerals, most significant digit first -----

  predicate DigitsIn(s: seq<nat>, base: nat) {
    forall k :: 0 <= k < |s| ==> s[k] < base
  }

  function Value(s: seq<nat>, base: nat): nat {
    if s == [] then 0 else Value(s[..|s| - 1], base) * base + s[|s| - 1]
  }

  /** The shortest numeral of `n`; zero has no digits. */
  function Numeral(n: nat, base: nat): (s: seq<nat>)
    requires base >= 2
    ensures DigitsIn(s, base)
    ensures s != [] ==> s[0] != 0
    ensures s == [] <==> n == 0
  {
    if n == 0 then [] else Numeral(n / base, base) + [n % base]
  }

  function Zeros(k: nat): (s: seq<nat>)
    ensures |s| == k && forall i :: 0 <= i < k ==> s[i] == 0
  {
    seq(k, _ => 0)
  }

  /** How many zeros a sequence starts with. */
  function LeadingZeros(s: seq<nat>): (k: nat)
    ensures k <= |s| && s[..k] == Zeros(k)
    ensures k < |s| ==> s[k] != 0
  {
    if s == [] || s[0] != 0 then 0
    else
      var rest := LeadingZeros(s[1..]);
      assert s[..rest + 1] == [0] + s[1..][..rest];
      1 + rest
  }

  lemma DivMod(a: nat, b: nat, base: nat)
    requires b < base
    ensures (a * base + b) / base == a && (a * base + b) % base == b
  {
    var n := a * base + b;
    var q, r := n / base, n % base;
    DivModBack(n, base);
    if q < a {
      MulAtMost(q + 1, a, base);
    } else if q > a {
      MulAtMost(a + 1, q, base);
    }
  }

  lemma MulAtMost(a: nat, b: nat, k: nat)
    requires a <= b
    ensures a * k <= b * k
  {
  }

  lemma DivModBack(n: nat, base: nat)
    requires base >= 1
    ensures n / base * base + n % base == n
  {
  }

  lemma ValueAppend(s: seq<nat>, digit: nat, base: nat)
    ensures Value(s + [digit], base) == Value(s, base) * base + digit
  {
    assert (s + [digit])[..|s|] == s;
  }

  lemma {:induction false} ValueOfNumeral(n: nat, base: nat)
    requires base >= 2
    ensures Value(Numeral(n, base), base) == n
    decreases n
  {
    if n == 0 {
      assert Numeral(n, base) == [];
    } else {
      DivSmaller(n, base);
      DivModBack(n, base);
      var q, last := n / base, n % base;
      assert Numeral(n, base) == Numeral(q, base) + [last];
      hide *;
      ValueOfNumeral(q, base);
      ValueAppend(Numeral(q, base), last, base);
    }
  }

  lemma MulPositive(a: nat, base: nat)
    requires a > 0 && base >= 1
    ensures a * base > 0
  {
  }

  lemma {:induction false} NumeralOfValue(s: seq<nat>, base: nat)
    requires base >= 2 && DigitsIn(s, base) && (s != [] ==> s[0] != 0)
    ensures Numeral(Value(s, base), base) == s
    ensures s != [] ==> Value(s, base) > 0
  {
    if s != [] {
      var n := |s| - 1;
      var front, last := s[..n], s[n];
      assert s == front + [last];
      NumeralOfValue(front, base);
      if front != [] {
        MulPositive(Value(front, base), base);
      }
      DivMod(Value(front, base), last, base);
    }
  }

  lemma {:induction false} ValueAfterZeros(k: nat, s: seq<nat>, base: nat)
    ensures Value(Zeros(k) + s, base) == Value(s, base)
  {
    if s == [] {
      if k > 0 {
        assert Zeros(k)[..k - 1] == Zeros(k - 1) + [];
        ValueAfterZeros(k - 1, [], base);
      }
      assert Zeros(k) + [] == Zeros(k);
    } else {
      var n := |s| - 1;
      assert (Zeros(k) + s)[..k + n] == Zeros(k) + s[..n];
      ValueAfterZeros(k, s[..n], base);
    }
  }

  lemma {:induction false} LeadingZerosOf(k: nat, s: seq<nat>)
    requires s != [] ==> s[0] != 0
    ensures LeadingZeros(Zeros(k) + s) == k
  {
    if k > 0 {
      assert (Zeros(k) + s)[1..] == Zeros(k - 1) + s;
      LeadingZerosOf(k - 1, s);
    }
  }

  /** Leading zeros kept one for one, the rest read in one base and written in the other. */
  function Convert(s: seq<nat>, from: nat, to: nat): (r: seq<nat>)
    requires to >= 2
    ensures DigitsIn(r, to)
  {
    Zeros(LeadingZeros(s)) + Numeral(Value(s, from), to)
  }

  /** Converting there and back is the identity, leading zeros included. */
  lemma ConvertBack(s: seq<nat>, from: nat, to: nat)
    requires from >= 2 && to >= 2 && DigitsIn(s, from)
    ensures Convert(Convert(s, from, to), to, from) == s
  {
    var k := LeadingZeros(s);
    var rest := s[k..];
    assert s == Zeros(k) + rest;
    ValueAfterZeros(k, rest, from);
    NumeralOfValue(rest, from);
    var written := Numeral(Value(s, from), to);
    LeadingZerosOf(k, written);
    ValueAfterZeros(k, written, to);
    ValueOfNumeral(Value(s, from), to);
  }

  // ----- The alphabet -----

  const DIGITS: string := "123456789"
  const CAPITALS: string := "ABCDEFGH"
  const MORE_CAPITALS: string := "JKLMNPQRSTUVWXYZ"
  const LETTERS: string := "abcdefghijk"
  const MORE_LETTERS: string := "mnopqrstuvwxyz"

  /** The Bitcoin alphabet: no zero, capital I, capital O or small L. */
  const ALPHABET: string := DIGITS + CAPITALS + MORE_CAPITALS + LETTERS + MORE_LETTERS

  function Find(alphabet: string, c: char): (k: nat)
    ensures k <= |alphabet|
    ensures k < |alphabet| ==> alphabet[k] == c
    ensures forall i :: 0 <= i < k ==> alphabet[i] != c
  {
    if alphabet == [] || alphabet[0] == c then 0 else 1 + Find(alphabet[1..], c)
  }

  /** The alphabet lists its characters in ascending order, so each has one place. */
  predicate Ascending(s: string) {
    forall i :: 0 < i < |s| ==> s[i - 1] < s[i]
  }

  lemma DigitsAscend()
    ensures |DIGITS| == 9 && Ascending(DIGITS) && DIGITS[0] == '1' && DIGITS[8] == '9'
  {
  }

  lemma CapitalsAscend()
    ensures |CAPITALS| == 8 && Ascending(CAPITALS) && CAPITALS[0] == 'A' && CAPITALS[7] == 'H'
  {
  }

  lemma MoreCapitalsAscend()
    ensures |MORE_CAPITALS| == 16 && Ascending(MORE_CAPITALS) && MORE_CAPITALS[0] == 'J' && MORE_CAPITALS[15] == 'Z'
  {
  }

  lemma LettersAscend()
    ensures |LETTERS| == 11 && Ascending(LETTERS) && LETTERS[0] == 'a' && LETTERS[10] == 'k'
  {
  }

  lemma MoreLettersAscend()
    ensures |MORE_LETTERS| == 14 && Ascending(MORE_LETTERS) && MORE_LETTERS[0] == 'm' && MORE_LETTERS[13] == 'z'
  {
  }

  lemma AscendingAppend(a: string, b: string)
    requires Ascending(a) && Ascending(b) && a != [] && b != [] && a[|a| - 1] < b[0]
    ensures Ascending(a + b) && (a + b)[0] == a[0] && (a + b)[|a + b| - 1] == b[|b| - 1]
  {
  }

  lemma AlphabetAscends()
    ensures |ALPHABET| == 58 && Ascending(ALPHABET) && ALPHABET[0] == '1'
  {
    DigitsAscend();
    CapitalsAscend();
    MoreCapitalsAscend();
    LettersAscend();
    MoreLettersAscend();
    AlphabetBlocks(DIGITS, CAPITALS, MORE_CAPITALS, LETTERS, MORE_LETTERS);
  }

  lemma AlphabetBlocks(a: string, b: string, c: string, d: string, e: string)
    requires Ascending(a) && Ascending(b) && Ascending(c) && Ascending(d) && Ascending(e)
    requires |a| > 0 && |b| > 0 && |c| > 0 && |d| > 0 && |e| > 0
    requires a[|a| - 1] < b[0] && b[|b| - 1] < c[0] && c[|c| - 1] < d[0] && d[|d| - 1] < e[0]
    ensures Ascending(a + b + c + d + e) && (a + b + c + d + e)[0] == a[0]
  {
    hide Ascending;
    AscendingAppend(a, b);
    AscendingAppend(a + b, c);
    AscendingAppend(a + b + c, d);
    AscendingAppend(a + b + c + d, e);
  }

  lemma {:induction false} AscendingApart(s: string, i: nat, j: nat)
    requires Ascending(s) && i < j < |s|
    ensures s[i] < s[j]
    decreases j
  {
    if i < j - 1 {
      AscendingApart(s, i, j - 1);
    }
    assert s[j - 1] < s[j];
  }

  lemma FindAt(d: nat)
    requires d < 58
    ensures |ALPHABET| == 58 && Find(ALPHABET, ALPHABET[d]) == d
  {
    AlphabetAscends();
    hide *;
    var k := Find(ALPHABET, ALPHABET[d]);
    if k < d {
      AscendingApart(ALPHABET, k, d);
    }
  }

  function Text(digits: seq<nat>): (text: string)
    requires DigitsIn(digits, 58)
    ensures |text| == |digits|
  {
    AlphabetAscends();
    seq(|digits|, k requires 0 <= k < |digits| => ALPHABET[digits[k]])
  }

  datatype Base58Error = BadLength | BadCharacter | BadChecksum | WrongNetwork | BadPayload | BadScalar

  /** The digit of each character, or an error if one is not in the alphabet. */
  function Digits(text: string): (r: Result<seq<nat>, Base58Error>)
    ensures r.Ok? ==> |r.value| == |text| && DigitsIn(r.value, 58)
  {
    if text == [] then Ok([])
    else
      AlphabetAscends();
      var front :- Digits(text[..|text| - 1]);
      var digit := Find(ALPHABET, text[|text| - 1]);
      if digit == 58 then Err(BadCharacter) else Ok(front + [digit])
  }

  lemma {:induction false} DigitsOfText(digits: seq<nat>)
    requires DigitsIn(digits, 58)
    ensures Digits(Text(digits)) == Ok(digits)
  {
    if digits != [] {
      var n := |digits| - 1;
      DigitsOfText(digits[..n]);
      assert Text(digits)[..n] == Text(digits[..n]);
      FindAt(digits[n]);
      assert digits == digits[..n] + [digits[n]];
    }
  }

  lemma TextAppend(digits: seq<nat>, digit: nat)
    requires DigitsIn(digits, 58) && digit < 58
    ensures |ALPHABET| == 58 && Text(digits + [digit]) == Text(digits) + [ALPHABET[digit]]
  {
    AlphabetAscends();
    hide Text, ALPHABET;
    assert (digits + [digit])[|digits|] == digit;
    TextAt(digits + [digit]);
    TextAt(digits);
  }

  lemma TextAt(digits: seq<nat>)
    requires DigitsIn(digits, 58)
    ensures |ALPHABET| == 58 && forall k :: 0 <= k < |digits| ==> Text(digits)[k] == ALPHABET[digits[k]]
  {
    AlphabetAscends();
  }

  lemma DigitsStep(text: string)
    requires text != [] && Digits(text).Ok?
    ensures
      var front, digit := Digits(text[..|text| - 1]), Find(ALPHABET, text[|text| - 1]);
      && front.Ok? && digit < 58 == |ALPHABET| && ALPHABET[digit] == text[|text| - 1]
      && Digits(text) == Ok(front.value + [digit])
  {
    AlphabetAscends();
    hide ALPHABET, Find;
  }

  lemma {:induction false} TextOfDigits(text: string)
    requires Digits(text).Ok?
    ensures Text(Digits(text).value) == text
  {
    hide Find, Text, Digits, DigitsIn;
    if text != [] {
      var front := text[..|text| - 1];
      DigitsStep(text);
      TextOfDigits(front);
      TextAppend(Digits(front).value, Find(ALPHABET, text[|text| - 1]));
    }
  }

  // ----- Base58 -----

  function AsDigits(b: bytes): (s: seq<nat>)
    ensures |s| == |b| && DigitsIn(s, 256) && forall k :: 0 <= k < |b| ==> s[k] == b[k]
  {
    seq(|b|, k requires 0 <= k < |b| => b[k])
  }

  function AsBytes(s: seq<nat>): (b: bytes)
    requires DigitsIn(s, 256)
    ensures |b| == |s| && forall k :: 0 <= k < |s| ==> b[k] == s[k]
  {
    seq(|s|, k requires 0 <= k < |s| => s[k])
  }

  /** `base58_encode`. */
  function Encode(b: bytes): string {
    Text(Convert(AsDigits(b), 256, 58))
  }

  /** The decoding all three decoders share, before their length and checksum rules. */
  function Decode(text: string): Result<bytes, Base58Error> {
    var digits :- Digits(text);
    Ok(AsBytes(Convert(digits, 58, 256)))
  }

  /** Every byte string is decoded from its encoding, leading zeros included. */
  lemma DecodeOfEncode(b: bytes)
    ensures Decode(Encode(b)) == Ok(b)
  {
    var digits := Convert(AsDigits(b), 256, 58);
    DigitsOfText(digits);
    ConvertBack(AsDigits(b), 256, 58);
    hide Convert, Digits, Text, DigitsIn;
    assert AsBytes(AsDigits(b)) == b;
  }

  /** Every string over the alphabet is the encoding of what it decodes to. */
  lemma EncodeOfDecode(text: string)
    requires Decode(text).Ok?
    ensures Encode(Decode(text).value) == text
  {
    var digits := Digits(text).value;
    TextOfDigits(text);
    ConvertBack(digits, 58, 256);
    var converted := Convert(digits, 58, 256);
    hide Convert, Digits, Text, DigitsIn;
    assert AsDigits(AsBytes(converted)) == converted;
  }

  // ----- The length the decoder gives `to_bytes` -----

  function BitLength(n: nat): nat {
    if n == 0 then 0 else 1 + BitLength(n / 2)
  }

  /** `n.to_bytes(k, "big")`, for an `n` that fits. */
  function ToBytes(n: nat, k: nat): seq<nat> {
    if k == 0 then [] else ToBytes(n / 256, k - 1) + [n % 256]
  }

  lemma BitLengthStep(n: nat)
    ensures n >= 256 ==> BitLength(n) == 8 + BitLength(n / 256)
    ensures 0 < n < 256 ==> 1 <= BitLength(n) <= 8
  {
    var a, b, c, d := n / 2, n / 4, n / 8, n / 16;
    var e, f, g, h := n / 32, n / 64, n / 128, n / 256;
    assert a / 2 == b && b / 2 == c && c / 2 == d && d / 2 == e && e / 2 == f && f / 2 == g && g / 2 == h;
    assert BitLength(d) == if d == 0 then 0 else 1 + BitLength(e);
    assert BitLength(e) == if e == 0 then 0 else 1 + BitLength(f);
    assert BitLength(f) == if f == 0 then 0 else 1 + BitLength(g);
    assert BitLength(g) == if g == 0 then 0 else 1 + BitLength(h);
    assert BitLength(c) == if c == 0 then 0 else 1 + BitLength(d);
    assert BitLength(b) == if b == 0 then 0 else 1 + BitLength(c);
    assert BitLength(a) == if a == 0 then 0 else 1 + BitLength(b);
  }

  /** `(n.bit_length() + 7) // 8` bytes are exactly the shortest numeral. */
  lemma {:induction false} ToBytesIsNumeral(n: nat)
    ensures ToBytes(n, (BitLength(n) + 7) / 8) == Numeral(n, 256)
    decreases n
  {
    if n > 0 {
      BitLengthStep(n);
      ToBytesIsNumeral(n / 256);
      if n < 256 {
        assert ToBytes(n / 256, 0) == [];
      } else {
        assert (BitLength(n) + 7) / 8 == (BitLength(n / 256) + 7) / 8 + 1;
      }
    }
  }

  // ----- Base58Check and WIF -----

  /** `doubleSha` stands for SHA-256 applied twice. */
  function Checksum(doubleSha: bytes -> bytes, data: bytes): bytes {
    var hash := doubleSha(data);
    if |hash| >= 4 then hash[..4] else hash
  }

  /** `base58check`. */
  function EncodeCheck(doubleSha: bytes -> bytes, data: bytes): string {
    Encode(data + Checksum(doubleSha, data))
  }

  /** `decode_base58check`. */
  function DecodeCheck(doubleSha: bytes -> bytes, text: string): Result<bytes, Base58Error> {
    if !(1 <= |text| <= 120) then Err(BadLength)
    else
      var raw :- Decode(text);
      if |raw| < 5 || Checksum(doubleSha, raw[..|raw| - 4]) != raw[|raw| - 4..] then Err(BadChecksum)
      else Ok(raw[..|raw| - 4])
  }

  lemma DivTwice(n: nat)
    ensures n / 58 / 58 <= n / 256
  {
  }

  /** Base 58 needs at most two digits for each byte. */
  lemma {:induction false} NumeralLength(n: nat, k: nat)
    requires n < Pow256(k)
    ensures |Numeral(n, 58)| <= 2 * k
  {
    if n > 0 {
      DivTwice(n);
      NumeralLength(n / 58 / 58, k - 1);
      assert Numeral(n, 58) == Numeral(n / 58, 58) + [n % 58];
      assert n / 58 > 0 ==> Numeral(n / 58, 58) == Numeral(n / 58 / 58, 58) + [n / 58 % 58];
    }
  }

  lemma {:induction false} ValueBelow(s: seq<nat>)
    requires DigitsIn(s, 256)
    ensures Value(s, 256) < Pow256(|s|)
  {
    if s != [] {
      ValueBelow(s[..|s| - 1]);
    }
  }

  lemma EncodeLength(b: bytes)
    ensures |Encode(b)| <= 2 * |b|
    ensures b != [] ==> Encode(b) != []
  {
    var s := AsDigits(b);
    var k := LeadingZeros(s);
    assert s == Zeros(k) + s[k..];
    ValueAfterZeros(k, s[k..], 256);
    ValueBelow(s[k..]);
    NumeralLength(Value(s, 256), |s| - k);
    NumeralOfValue(s[k..], 256);
  }

  /**
   * Base58Check decoding undoes encoding exactly for the payloads with a byte whose text fits the
   * decoder's 120 characters; payloads of up to 56 bytes do.
   */
  lemma DecodeOfEncodeCheck(doubleSha: bytes -> bytes, data: bytes)
    requires |doubleSha(data)| >= 4
    ensures DecodeCheck(doubleSha, EncodeCheck(doubleSha, data)) == Ok(data) <==> data != [] && |EncodeCheck(doubleSha, data)| <= 120
    ensures |data| <= 56 ==> |EncodeCheck(doubleSha, data)| <= 120
  {
    var raw := data + Checksum(doubleSha, data);
    EncodeLength(raw);
    DecodeOfEncode(raw);
    hide Encode, Decode;
    assert raw[..|raw| - 4] == data;
  }

  /** Whatever the decoder accepts is the encoding of its result: no second spelling. */
  lemma EncodeOfDecodeCheck(doubleSha: bytes -> bytes, text: string)
    requires DecodeCheck(doubleSha, text).Ok?
    ensures EncodeCheck(doubleSha, DecodeCheck(doubleSha, text).value) == text
  {
    EncodeOfDecode(text);
    var raw := Decode(text).value;
    hide Encode, Decode;
    assert raw == raw[..|raw| - 4] + raw[|raw| - 4..];
  }

  datatype Network = Mainnet | Testnet

  function WifVersion(network: Network): byte {
    if network.Mainnet? then 0x80 else 0xEF
  }

  const CURVE_ORDER: nat := 0xFFFFFFFF_FFFFFFFF_FFFFFFFF_FFFFFFFE_BAAEDCE6_AF48A03B_BFD25E8C_D0364141

  /** `validate_private_key`. */
  predicate ValidKey(key: bytes) {
    |key| == 32 && 1 <= Value(AsDigits(key), 256) < CURVE_ORDER
  }

  function WifPayload(key: bytes, network: Network, compressed: bool): bytes {
    [WifVersion(network)] + key + if compressed then [1] else []
  }

  function EncodeWif(doubleSha: bytes -> bytes, key: bytes, network: Network, compressed: bool): Result<string, Base58Error> {
    if !ValidKey(key) then Err(BadScalar) else Ok(EncodeCheck(doubleSha, WifPayload(key, network, compressed)))
  }

  function DecodeWif(doubleSha: bytes -> bytes, text: string, network: Network): Result<(bytes, bool), Base58Error> {
    var payload :- DecodeCheck(doubleSha, text);
    if payload[..1] != [WifVersion(network)] then Err(WrongNetwork)
    else if |payload| != 33 && !(|payload| == 34 && payload[33] == 1) then Err(BadPayload)
    else if !ValidKey(payload[1..33]) then Err(BadScalar)
    else Ok((payload[1..33], |payload| == 34))
  }

  /**
   * A WIF text decodes to a key and its compression flag if and only if it is the encoding of them:
   * every valid scalar survives the round trip, and each has one spelling per network and flag.
   */
  lemma WifRoundTrip(doubleSha: bytes -> bytes, key: bytes, network: Network, compressed: bool, text: string)
    requires forall x :: |doubleSha(x)| == 32
    ensures DecodeWif(doubleSha, text, network) == Ok((key, compressed)) <==> EncodeWif(doubleSha, key, network, compressed) == Ok(text)
  {
    hide EncodeCheck, DecodeCheck, ValidKey;
    if EncodeWif(doubleSha, key, network, compressed) == Ok(text) {
      var payload := WifPayload(key, network, compressed);
      assert |key| == 32 by { KeyLength(key); }
      DecodeOfEncodeCheck(doubleSha, payload);
      assert payload[1..33] == key;
    }
    if DecodeWif(doubleSha, text, network) == Ok((key, compressed)) {
      var payload := DecodeCheck(doubleSha, text).value;
      EncodeOfDecodeCheck(doubleSha, text);
      assert payload == WifPayload(key, network, compressed);
    }
  }

  lemma KeyLength(key: bytes)
    requires ValidKey(key)
    ensures |key| == 32
  {
  }

  /** `_base58check_decode` of the HD wallet: exactly a version byte and twenty bytes. */
  function DecodeAddress(doubleSha: bytes -> bytes, text: string): Result<(bytes, bytes), Base58Error> {
    if text == [] then Err(BadLength)
    else
      var raw :- Decode(text);
      if |raw| != 25 then Err(BadLength)
      else if Checksum(doubleSha, raw[..21]) != raw[21..] then Err(BadChecksum)
      else Ok((raw[..1], raw[1..21]))
  }

  /** An address decodes to its version and hash, and to nothing else. */
  lemma AddressRoundTrip(doubleSha: bytes -> bytes, version: bytes, hash: bytes, text: string)
    requires forall x :: |doubleSha(x)| == 32
    ensures DecodeAddress(doubleSha, text) == Ok((version, hash)) <==>
              |version| == 1 && |hash| == 20 && EncodeCheck(doubleSha, version + hash) == text
  {
    hide Encode, Decode;
    if |version| == 1 && |hash| == 20 && EncodeCheck(doubleSha, version + hash) == text {
      var raw := version + hash + Checksum(doubleSha, version + hash);
      EncodeLength(raw);
      DecodeOfEncode(raw);
      assert raw[..21] == version + hash && raw[..1] == version && raw[1..21] == hash;
    }
    if DecodeAddress(doubleSha, text) == Ok((version, hash)) {
      var raw := Decode(text).value;
      EncodeOfDecode(text);
      assert raw[..21] == version + hash && raw == raw[..21] + raw[21..];
    }
  }

  // ----- The loops -----

  lemma NumeralStep(n: nat, base: nat, tail: seq<nat>)
    requires base >= 2 && n > 0
    ensures Numeral(n, base) + tail == Numeral(n / base, base) + ([n % base] + tail)
  {
    var front, last := Numeral(n / base, base), [n % base];
    assert Numeral(n, base) == front + last;
    hide *;
    assert front + last + tail == front + (last + tail);
  }

  lemma DivSmaller(n: nat, base: nat)
    requires base >= 2 && n > 0
    ensures n / base < n
  {
  }

  /** `base58_encode`, digit by digit from the right, then one '1' for each leading zero byte. */
  method EncodeLoop(b: bytes) returns (text: string)
    ensures text == Encode(b)
  {
    var num := Value(AsDigits(b), 256);
    var digits: seq<nat> := [];
    while num > 0
      invariant Numeral(num, 58) + digits == Numeral(Value(AsDigits(b), 256), 58)
      decreases num
    {
      NumeralStep(num, 58, digits);
      DivSmaller(num, 58);
      num, digits := num / 58, [num % 58] + digits;
    }
    var pad := 0;
    while pad < |b| && b[pad] == 0
      invariant pad <= |b| && forall i :: 0 <= i < pad ==> b[i] == 0
    {
      pad := pad + 1;
    }
    var s := AsDigits(b);
    assert s == Zeros(pad) + s[pad..];
    LeadingZerosOf(pad, s[pad..]);
    assert [] + digits == digits;
    text := Text(Zeros(pad) + digits);
  }

  lemma DigitsGrow(text: string, i: nat)
    requires i < |text| && Digits(text[..i]).Ok?
    ensures
      var digit := Find(ALPHABET, text[i]);
      Digits(text[..i + 1]) == if digit == 58 then Err(BadCharacter) else Ok(Digits(text[..i]).value + [digit])
  {
    AlphabetAscends();
    hide Find;
    assert text[..i + 1][..i] == text[..i];
  }

  /** The accumulating loop of the decoders. */
  method ReadNumber(text: string) returns (r: Result<nat, Base58Error>)
    ensures r.Ok? == Digits(text).Ok?
    ensures match Digits(text) case Ok(digits) => r == Ok(Value(digits, 58)) case Err(e) => r == Err(e)
  {
    hide Find, Digits;
    var number := 0;
    ghost var digits: seq<nat> := [];
    DigitsOfNothing();
    for i := 0 to |text|
      invariant Digits(text[..i]) == Ok(digits) && number == Value(digits, 58)
    {
      var digit := Find(ALPHABET, text[i]);
      DigitsGrow(text, i);
      if digit == 58 {
        BadPrefix(text, i + 1);
        return Err(BadCharacter);
      }
      number := number * 58 + digit;
      assert (digits + [digit])[..|digits|] == digits;
      digits := digits + [digit];
    }
    assert text[..|text|] == text;
    r := Ok(number);
  }

  lemma DigitsOfNothing()
    ensures Digits("") == Ok([])
  {
  }

  /** A whole decoder; the bytes are as many as the bit length needs. */
  method DecodeLoop(text: string) returns (r: Result<bytes, Base58Error>)
    ensures r == Decode(text)
  {
    hide Digits, Numeral, Value, ToBytes, BitLength;
    var number := ReadNumber(text);
    if number.Err? {
      return Err(number.error);
    }
    ToBytesIsNumeral(number.value);
    var ones := 0;
    while ones < |text| && text[ones] == '1'
      invariant ones <= |text| && forall i :: 0 <= i < ones ==> text[i] == '1'
    {
      ones := ones + 1;
    }
    OnesAreZeros(text, Digits(text).value, ones);
    r := Ok(AsBytes(Zeros(ones) + ToBytes(number.value, (BitLength(number.value) + 7) / 8)));
  }

  lemma {:induction false} BadPrefix(text: string, k: nat)
    requires k <= |text| && Digits(text[..k]).Err?
    ensures Digits(text) == Err(BadCharacter)
    decreases |text| - k
  {
    if k < |text| {
      assert text[..k + 1][..k] == text[..k];
      BadPrefix(text, k + 1);
    } else {
      assert text[..k] == text;
      BadOnlyByCharacter(text);
    }
  }

  lemma {:induction false} BadOnlyByCharacter(text: string)
    ensures Digits(text).Err? ==> Digits(text) == Err(BadCharacter)
  {
    if text != [] {
      BadOnlyByCharacter(text[..|text| - 1]);
    }
  }

  /** Leading ones of the text are the leading zeros of its digits. */
  lemma OnesAreZeros(text: string, digits: seq<nat>, ones: nat)
    requires Digits(text) == Ok(digits) && ones <= |text|
    requires forall i :: 0 <= i < ones ==> text[i] == '1'
    requires ones < |text| ==> text[ones] != '1'
    ensures LeadingZeros(digits) == ones
  {
    TextOfDigits(text);
    AlphabetAscends();
    hide Digits, Find;
    forall i | 0 <= i < |digits| ensures digits[i] == 0 <==> text[i] == '1' {
      assert Text(digits)[i] == ALPHABET[digits[i]];
      if digits[i] > 0 {
        AscendingApart(ALPHABET, 0, digits[i]);
      }
    }
    assert digits == Zeros(ones) + digits[ones..];
    LeadingZerosOf(ones, digits[ones..]);
  }
}
