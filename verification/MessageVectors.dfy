/** The witness vectors of message signatures (`sign/message.py`). */
module MessageVectors {
  import opened Wrappers
  import opened Bytes
  import opened Transactions
  import opened Codec
  import opened Reader

  const MAX_ITEMS: nat := 100

  /** `_serialize_vector`. */
  function Serialize(items: seq<bytes>): bytes {
    PrintStack(items)
  }

  /** `_deserialize_vector`. */
  function Deserialize(data: bytes): Result<seq<bytes>, CodecError> {
    var count :- ReadCompactSize(data);
    if count.value > MAX_ITEMS then Err(OutOfRange)
    else
      var items :- ReadMany(ReadVarBytes, count.rest, count.value);
      if items.rest != [] then Err(TrailingBytes) else Ok(items.value)
  }

  /** A vector is accepted exactly when it is the serialization of at most a hundred items, and yields them. */
  lemma DeserializeExactly(data: bytes, items: seq<bytes>)
    requires |data| <= U64_MAX
    ensures Deserialize(data) == Ok(items) <==> |items| <= 100 && Serialize(items) == data
  {
    if |items| <= MAX_ITEMS && Serialize(items) == data {
      ItemsFit(items);
      SerializedReads(items);
    }
    if Deserialize(data) == Ok(items) {
      hide ReadCompactSize, ReadVarBytes;
      ReadStackSound(data);
      assert Serialize(items) + [] == Serialize(items);
    }
  }

  lemma SerializedReads(items: seq<bytes>)
    requires WfStack(items) && |items| <= MAX_ITEMS
    ensures Deserialize(Serialize(items)) == Ok(items)
  {
    hide ReadCompactSize, ReadVarBytes, CompactSize;
    var data := Serialize(items);
    assert data + [] == data;
    ReadStackOfPrint(items, []);
    ReadCompactSizeOfPrint(|items|, PrintMany(VarBytes, items));
  }

  /** No item is longer than the data it is part of. */
  lemma {:induction false} ItemLength(items: seq<bytes>, k: nat)
    requires k < |items|
    ensures |items[k]| <= |PrintMany(VarBytes, items)|
  {
    if k > 0 {
      ItemLength(items[1..], k - 1);
    }
  }

  lemma ItemsFit(items: seq<bytes>)
    requires |items| <= MAX_ITEMS && |Serialize(items)| <= U64_MAX
    ensures WfStack(items)
  {
    forall k | 0 <= k < |items| ensures |items[k]| <= U64_MAX {
      ItemLength(items, k);
    }
  }

  /** The decoding loop with its explicit offset. */
  method DeserializeLoop(data: bytes) returns (r: Result<seq<bytes>, CodecError>)
    ensures r == Deserialize(data)
  {
    hide ReadMany, ReadVarBytes, ReadCompactSize, Prepend;
    var count := ReadCompactSize(data);
    if count.Err? {
      return Err(count.error);
    }
    if count.value.value > MAX_ITEMS {
      return Err(OutOfRange);
    }
    var items, unread := [], count.value.rest;
    ghost var all := ReadMany(ReadVarBytes, unread, count.value.value);
    PrependNothing(all);
    for i := 0 to count.value.value
      invariant all == Prepend(items, ReadMany(ReadVarBytes, unread, count.value.value - i))
    {
      ReadManyStep(ReadVarBytes, unread, count.value.value - i, items, all);
      var length := ReadCompactSize(unread);
      VarBytesBySize(unread);
      if length.Err? {
        return Err(length.error);
      }
      if length.value.value > |length.value.rest| {
        return Err(Truncated);
      }
      items, unread := items + [length.value.rest[..length.value.value]], length.value.rest[length.value.value..];
    }
    PrependDone(items, ReadVarBytes, unread);
    r := if unread != [] then Err(TrailingBytes) else Ok(items);
  }

  lemma VarBytesBySize(data: bytes)
    ensures
      ReadVarBytes(data) == match ReadCompactSize(data)
        case Err(e) => Err(e)
        case Ok(n) => Take(n.rest, n.value)
  {
    hide ReadCompactSize;
  }
}
