/** The decoder's loop: a pass takes whole entries out of the bytes behind those the passes
    before it consumed. */
module Decoder {
  import opened Bytes
  import opened Collections
  import opened Codec

  lemma TailOfTail(batch: seq<byte>, base: nat, k: nat)
    requires base + k <= |batch|
    ensures batch[base..][k..] == batch[base + k..]
  {
  }

  /** `bytes` begins `base` bytes into `batch`. The pass is the pure reading of the whole
      batch from `at` on, panic and all. */
  method Decode(tx: TxCodec, bytes: seq<byte>, base: nat, at: nat, owed: Option<nat>, ghost batch: seq<byte>)
    returns (consumed: nat, remaining: Option<nat>, out: seq<Entry>, status: Status)
    requires base <= at && base <= |batch| && bytes == batch[base..]
    ensures Reading(out, consumed, remaining, status) == Read(tx, batch, at, owed)
  {
    hide ReadEntries, FromLE;
    consumed, remaining, out := at, owed, [];
    if remaining.None? {
      var start := consumed - base;
      if start + ENTRY_COUNT > |bytes| {
        return consumed, remaining, out, Waiting;
      }
      assert bytes[start..start + ENTRY_COUNT] == batch[at..at + ENTRY_COUNT];
      var count := FromLE(bytes[start..start + ENTRY_COUNT]);
      if count * MIN_ENTRY_BYTES > MAX_BATCH_BYTES {
        return consumed, remaining, out, Invalid;
      }
      remaining := Some(count);
      consumed := consumed + ENTRY_COUNT;
    }
    out, consumed, remaining, status := DecodeEntries(tx, bytes, base, consumed, remaining.value, batch);
  }

  method DecodeEntries(tx: TxCodec, bytes: seq<byte>, base: nat, at: nat, owed: nat, ghost batch: seq<byte>)
    returns (out: seq<Entry>, consumed: nat, remaining: Option<nat>, status: Status)
    requires base <= at && base <= |batch| && bytes == batch[base..]
    ensures Reading(out, consumed, remaining, status) == ReadEntries(tx, batch, at, owed)
  {
    hide ParseEntry, ReadEntries;
    var left := owed;
    consumed, out := at, [];
    AfterNothing(ReadEntries(tx, batch, at, owed));
    while left > 0
      invariant base <= consumed
      invariant After(out, ReadEntries(tx, batch, consumed, left)) == ReadEntries(tx, batch, at, owed)
    {
      if consumed - base > |bytes| {
        ReadsPastTheEnd(tx, batch, consumed, left);
        return out, consumed, Some(left), OutOfRange;
      }
      var rest := bytes[consumed - base..];
      TailOfTail(batch, base, consumed - base);
      var parsed := ParseEntry(tx, rest);
      if rest == [] || !parsed.Parsed? {
        ReadsNothing(tx, batch, consumed, left);
        return out, consumed, Some(left), if rest != [] && parsed.Bad? then Invalid else Waiting;
      }
      ReadsOne(tx, batch, consumed, left);
      AfterAfter(out, [parsed.value], ReadEntries(tx, batch, consumed + parsed.size, left - 1));
      consumed := consumed + parsed.size;
      left := left - 1;
      out := out + [parsed.value];
    }
    ReadsNoneOwed(tx, batch, consumed);
    return out, consumed, Some(left), Done;
  }
}
