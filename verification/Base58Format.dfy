/** What Base58 texts, WIF keys and addresses say, independently of how they are computed. */
module Base58Format {
  import opened Wrappers
  import opened Bytes
  import opened Base58

  // ----- The alphabet and the numerals -----

  predicate Between(c: char, low: char, high: char) {
    low <= c <= high
  }

  lemma DigitsCover(c: char)
    ensures c in DIGITS <==> Between(c, '1', '9')
  {
    if Between(c, '1', '9') {
      assert DIGITS[c as int - 49] == c;
    }
  }

  lemma CapitalsCover(c: char)
    ensures c in CAPITALS <==> Between(c, 'A', 'H')
    ensures c in MORE_CAPITALS <==> Between(c, 'J', 'Z') && c != 'O'
  {
    if Between(c, 'A', 'H') {
      assert CAPITALS[c as int - 65] == c;
    }
    if Between(c, 'J', 'N') {
      assert MORE_CAPITALS[c as int - 74] == c;
    }
    if Between(c, 'P', 'Z') {
      assert MORE_CAPITALS[c as int - 75] == c;
    }
  }

  lemma LettersCover(c: char)
    ensures c in LETTERS <==> Between(c, 'a', 'k')
    ensures c in MORE_LETTERS <==> Between(c, 'm', 'z')
  {
    if Between(c, 'a', 'k') {
      assert LETTERS[c as int - 97] == c;
    }
    if Between(c, 'm', 'z') {
      assert MORE_LETTERS[c as int - 109] == c;
    }
  }

  /** The alphabet is all digits and letters but 0, I, O and l, in ascending order. */
  lemma AlphabetExactly(c: char)
    ensures c in ALPHABET <==>
      (Between(c, '1', '9') || Between(c, 'A', 'Z') || Between(c, 'a', 'z')) && c != 'I' && c != 'O' && c != 'l'
    ensures |ALPHABET| == 58 && forall i :: 0 < i < 58 ==> ALPHABET[i - 1] < ALPHABET[i]
  {
    AlphabetAscends();
    DigitsCover(c);
    CapitalsCover(c);
    LettersCover(c);
    hide DIGITS, CAPITALS, MORE_CAPITALS, LETTERS, MORE_LETTERS;
    assert c in ALPHABET <==> c in DIGITS || c in CAPITALS || c in MORE_CAPITALS || c in LETTERS || c in MORE_LETTERS;
  }

  function Power(base: nat, k: nat): nat {
    if k == 0 then 1 else base * Power(base, k - 1)
  }

  /** Numerals are read with the first digit the most significant. */
  lemma {:induction false} FirstDigitWeighsMost(digit: nat, s: seq<nat>, base: nat)
    ensures Value([digit] + s, base) == digit * Power(base, |s|) + Value(s, base)
  {
    if s == [] {
      assert [digit] + s == [digit] && Value([digit], base) == Value([digit][..0], base) * base + digit;
    } else {
      var n := |s| - 1;
      var front, p := s[..n], Power(base, n);
      assert ([digit] + s)[..|s|] == [digit] + front;
      FirstDigitWeighsMost(digit, front, base);
      Spread(digit, p, Value(front, base), base);
    }
  }

  lemma Spread(a: nat, p: nat, v: nat, base: nat)
    ensures (a * p + v) * base == a * (base * p) + v * base
  {
    assert (a * p + v) * base == a * p * base + v * base;
    assert a * p * base == a * (base * p);
  }

  /**
   * An encoding is the number the bytes stand for, written in base 58 with the alphabet's digits, after
   * one '1' for each leading zero byte.
   */
  lemma EncodeMeans(b: bytes)
    ensures
      var d := Digits(Encode(b));
      && d.Ok? && Value(d.value, 58) == Value(AsDigits(b), 256) && LeadingZeros(d.value) == LeadingZeros(AsDigits(b))
      && forall k :: 0 <= k < |d.value| ==> Encode(b)[k] == ALPHABET[d.value[k]]
  {
    var s := AsDigits(b);
    var zeros, n := LeadingZeros(s), Value(s, 256);
    var digits := Convert(s, 256, 58);
    DigitsOfText(digits);
    ValueAfterZeros(zeros, Numeral(n, 58), 58);
    ValueOfNumeral(n, 58);
    LeadingZerosOf(zeros, Numeral(n, 58));
    AlphabetAscends();
    hide Digits, Numeral, Value, LeadingZeros;
  }

  // ----- WIF and addresses -----

  /** The four bytes after the payload are the first four of its double hash. */
  lemma CheckedForm(doubleSha: bytes -> bytes, data: bytes)
    requires |doubleSha(data)| == 32
    ensures EncodeCheck(doubleSha, data) == Encode(data + doubleSha(data)[..4])
  {
  }

  /** A key is a 32-byte number from 1 to the order of secp256k1 less one, written after its network's prefix. */
  lemma WifForm(doubleSha: bytes -> bytes, key: bytes, network: Network, compressed: bool)
    requires forall x :: |doubleSha(x)| == 32
    ensures
      var prefix: byte := if network == Mainnet then 128 else 239;
      var payload := [prefix] + key + if compressed then [1] else [];
      var n := Value(AsDigits(key), 256);
      EncodeWif(doubleSha, key, network, compressed) ==
        if |key| == 32 && 0 < n < 115792089237316195423570985008687907852837564279074904382605163141518161494337
        then Ok(Encode(payload + doubleSha(payload)[..4])) else Err(BadScalar)
  {
    CheckedForm(doubleSha, WifPayload(key, network, compressed));
    hide Encode, EncodeCheck, Value;
  }

  /** Why a WIF text is refused, in the order of the checks. */
  lemma WifRefusals(doubleSha: bytes -> bytes, text: string, network: Network)
    requires DecodeCheck(doubleSha, text).Ok?
    ensures
      var payload, r := DecodeCheck(doubleSha, text).value, DecodeWif(doubleSha, text, network);
      && (r == Err(WrongNetwork) <==> payload[0] != if network == Mainnet then 128 else 239)
      && (r == Err(BadPayload) ==> |payload| !in {33, 34} || (|payload| == 34 && payload[33] != 1))
      && (r.Ok? ==> |payload| == if r.value.1 then 34 else 33)
  {
    hide Decode, Checksum, Value;
    var payload := DecodeCheck(doubleSha, text).value;
    assert payload[..1] == [payload[0]];
  }

  // ----- What is refused -----

  lemma {:induction false} DigitsExactly(text: string)
    ensures Digits(text).Ok? <==> forall c :: c in text ==> c in ALPHABET
    ensures Digits(text).Err? ==> Digits(text).error == BadCharacter
  {
    if text != [] {
      AlphabetAscends();
      var front, last := text[..|text| - 1], text[|text| - 1];
      assert text == front + [last];
      DigitsExactly(front);
      assert Find(ALPHABET, last) < 58 <==> last in ALPHABET;
      hide ALPHABET;
    }
  }

  /** A checked text is refused for its length, then for a character outside the alphabet, then for its checksum. */
  lemma CheckedRefusals(doubleSha: bytes -> bytes, text: string)
    ensures
      var r := DecodeCheck(doubleSha, text);
      if |text| == 0 || |text| > 120 then r == Err(BadLength)
      else if exists c :: c in text && c !in ALPHABET then r == Err(BadCharacter)
      else r.Err? ==> r.error == BadChecksum
  {
    DigitsExactly(text);
    hide Digits, Convert, ALPHABET;
  }

  /** An address is refused for its characters, then for its length of 25 bytes, then for its checksum. */
  lemma AddressRefusals(doubleSha: bytes -> bytes, text: string)
    ensures
      var r := DecodeAddress(doubleSha, text);
      if text == [] then r == Err(BadLength)
      else if exists c :: c in text && c !in ALPHABET then r == Err(BadCharacter)
      else
        var raw := Decode(text);
        raw.Ok? && if |raw.value| != 25 then r == Err(BadLength) else r.Err? ==> r.error == BadChecksum
  {
    DigitsExactly(text);
    hide Digits, Convert, ALPHABET;
  }
}
