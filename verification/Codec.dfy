/** The bytes of a batch and what reading them yields.

    A batch is eight little-endian bytes of entry count followed by that many entries.
    Each of those has eight bytes for the count of hashes, thirty-two for the last one, and a
    vector of transactions with its length in front. How one transaction is laid out is left to a
    function that need only be prefix stable. */
module Codec {
  import opened Bytes
  import opened Collections

  type Address = nat
  type Signature = nat

  datatype Transaction = Transaction(payer: Option<Address>, signature: Option<Signature>)
  datatype Entry = Entry(numHashes: nat, hash: seq<byte>, transactions: seq<Transaction>)

  /** What a deserializer makes of the bytes in front of it: a value and where it ended,
      bytes that stop short of one, or bytes that are not one. */
  datatype Parsed<+T> = Parsed(value: T, size: nat) | NeedMore | Bad

  const ENTRY_COUNT := 8
  const MIN_ENTRY_BYTES := 48
  const MAX_BATCH_BYTES := 256 * 1024

  // ---------------------------------------------------------------- transactions

  /** A decoder that takes at least a byte, never more than it was given, and whose answer
      no further byte can change once it has one. */
  ghost predicate PrefixStable(c: seq<byte> -> Parsed<Transaction>) {
    && (forall b :: c(b).Parsed? ==> 1 <= c(b).size <= |b|)
    && (forall b, more :: !c(b).NeedMore? ==> c(b + more) == c(b))
  }

  function TwoByteTransaction(b: seq<byte>): Parsed<Transaction> {
    if b == [] then NeedMore
    else if b[0] >= 128 then Bad
    else if |b| < 2 then NeedMore
    else Parsed(Transaction(Some(b[0] as nat), Some(b[1] as nat)), 2)
  }

  /** The laws can be met: one byte of payer, one of signature, high bit refused. */
  lemma TwoByteTransactionIsPrefixStable()
    ensures PrefixStable(TwoByteTransaction)
  {
    forall b: seq<byte>, more: seq<byte> | !TwoByteTransaction(b).NeedMore?
      ensures TwoByteTransaction(b + more) == TwoByteTransaction(b)
    {
      assert (b + more)[0] == b[0];
      if |b| >= 2 { assert (b + more)[1] == b[1]; }
    }
  }

  function Witness(): (c: seq<byte> -> Parsed<Transaction>)
    ensures PrefixStable(c)
  {
    TwoByteTransactionIsPrefixStable();
    TwoByteTransaction
  }

  type TxCodec = c: seq<byte> -> Parsed<Transaction> | PrefixStable(c) witness Witness()

  // ---------------------------------------------------------------- entries

  function ParseTransactions(tx: TxCodec, b: seq<byte>, left: nat): (r: Parsed<seq<Transaction>>)
    ensures r.Parsed? ==> r.size <= |b| && |r.value| == left
  {
    if left == 0 then Parsed([], 0) else
      match tx(b)
      case NeedMore => NeedMore
      case Bad => Bad
      case Parsed(first, n) =>
        match ParseTransactions(tx, b[n..], left - 1)
        case NeedMore => NeedMore
        case Bad => Bad
        case Parsed(rest, m) => Parsed([first] + rest, n + m)
  }

  function ParseEntry(tx: TxCodec, b: seq<byte>): (r: Parsed<Entry>)
    ensures r.Parsed? ==> MIN_ENTRY_BYTES <= r.size <= |b|
  {
    if |b| < MIN_ENTRY_BYTES then NeedMore else
      match ParseTransactions(tx, b[48..], FromLE(b[40..48]))
      case NeedMore => NeedMore
      case Bad => Bad
      case Parsed(transactions, n) =>
        Parsed(Entry(FromLE(b[..8]), b[8..40], transactions), 48 + n)
  }

  lemma {:induction false} TransactionsPrefixStable(tx: TxCodec, b: seq<byte>, more: seq<byte>, left: nat)
    requires !ParseTransactions(tx, b, left).NeedMore?
    ensures ParseTransactions(tx, b + more, left) == ParseTransactions(tx, b, left)
    decreases left
  {
    if left > 0 {
      assert tx(b + more) == tx(b);
      if tx(b).Parsed? {
        var n := tx(b).size;
        assert (b + more)[n..] == b[n..] + more;
        TransactionsPrefixStable(tx, b[n..], more, left - 1);
      }
    }
  }

  /** Once an entry has parsed, or been refused, the bytes behind it cannot change that. */
  lemma EntryPrefixStable(tx: TxCodec, b: seq<byte>, more: seq<byte>)
    requires !ParseEntry(tx, b).NeedMore?
    ensures ParseEntry(tx, b + more) == ParseEntry(tx, b)
  {
    var all := b + more;
    assert all[..8] == b[..8] && all[8..40] == b[8..40] && all[40..48] == b[40..48];
    assert all[48..] == b[48..] + more;
    TransactionsPrefixStable(tx, b[48..], more, FromLE(b[40..48]));
  }

  // ---------------------------------------------------------------- batches

  /** `OutOfRange` is a slice past the end of the bytes held, which the program would
      panic on. */
  datatype Status = Waiting | Done | Invalid | OutOfRange

  datatype Reading = Reading(entries: seq<Entry>, consumed: nat, remaining: Option<nat>, status: Status)

  function After(entries: seq<Entry>, r: Reading): Reading {
    r.(entries := entries + r.entries)
  }

  function ReadEntries(tx: TxCodec, bytes: seq<byte>, at: nat, left: nat): (r: Reading)
    ensures r.consumed >= at && (at <= |bytes| ==> r.consumed <= |bytes|)
    ensures r.remaining == Some(left - |r.entries|) && |r.entries| <= left
    ensures r.status.Done? <==> |r.entries| == left
    ensures r.status.OutOfRange? <==> left > 0 && at > |bytes|
    decreases left
  {
    hide ParseEntry;
    if left == 0 then Reading([], at, Some(0), Done)
    else if at > |bytes| then Reading([], at, Some(left), OutOfRange)
    else if at == |bytes| then Reading([], at, Some(left), Waiting)
    else
      match ParseEntry(tx, bytes[at..])
      case NeedMore => Reading([], at, Some(left), Waiting)
      case Bad => Reading([], at, Some(left), Invalid)
      case Parsed(entry, n) => After([entry], ReadEntries(tx, bytes, at + n, left - 1))
  }

  /** One pass over the batch `bytes`, beginning `at` bytes in with `remaining` entries owed. */
  function Read(tx: TxCodec, bytes: seq<byte>, at: nat, remaining: Option<nat>): (r: Reading)
    ensures r.consumed >= at && (at <= |bytes| ==> r.consumed <= |bytes|)
    ensures r.remaining.None? ==> r.consumed == at && r.entries == []
    ensures r.status.Done? <==> r.remaining == Some(0)
    ensures r.status.OutOfRange? ==> at > |bytes|
  {
    match remaining
    case Some(left) => ReadEntries(tx, bytes, at, left)
    case None =>
      if at + ENTRY_COUNT > |bytes| then Reading([], at, None, Waiting) else
        var count := FromLE(bytes[at..at + ENTRY_COUNT]);
        if count * MIN_ENTRY_BYTES > MAX_BATCH_BYTES then Reading([], at, None, Invalid)
        else ReadEntries(tx, bytes, at + ENTRY_COUNT, count)
  }

  /** The reference: everything a batch's bytes hold, read once from the front. */
  function OneShot(tx: TxCodec, bytes: seq<byte>): (r: Reading)
    ensures r.consumed <= |bytes| && !r.status.OutOfRange?
  {
    Read(tx, bytes, 0, None)
  }

  lemma AfterNothing(r: Reading)
    ensures After([], r) == r
  {
    assert [] + r.entries == r.entries;
  }

  lemma AfterAfter(a: seq<Entry>, b: seq<Entry>, r: Reading)
    ensures After(a, After(b, r)) == After(a + b, r)
  {
    assert a + (b + r.entries) == (a + b) + r.entries;
  }

  lemma ReadsNothing(tx: TxCodec, bytes: seq<byte>, at: nat, left: nat)
    requires at <= |bytes|
    requires left == 0 || at == |bytes| || !ParseEntry(tx, bytes[at..]).Parsed?
    ensures ReadEntries(tx, bytes, at, left) ==
            Reading([], at, Some(left),
                    if left == 0 then Done
                    else if at < |bytes| && ParseEntry(tx, bytes[at..]).Bad? then Invalid
                    else Waiting)
  {
    hide ParseEntry;
  }

  lemma ReadsPastTheEnd(tx: TxCodec, bytes: seq<byte>, at: nat, left: nat)
    requires left > 0 && at > |bytes|
    ensures ReadEntries(tx, bytes, at, left) == Reading([], at, Some(left), OutOfRange)
  {
  }

  lemma ReadsNoneOwed(tx: TxCodec, bytes: seq<byte>, at: nat)
    ensures ReadEntries(tx, bytes, at, 0) == Reading([], at, Some(0), Done)
  {
  }

  lemma ReadsOne(tx: TxCodec, bytes: seq<byte>, at: nat, left: nat)
    requires left > 0 && at < |bytes| && ParseEntry(tx, bytes[at..]).Parsed?
    ensures var first := ParseEntry(tx, bytes[at..]);
            ReadEntries(tx, bytes, at, left) ==
            After([first.value], ReadEntries(tx, bytes, at + first.size, left - 1))
  {
    hide ParseEntry;
  }

  /** What is left of a reading that ran out of bytes, with more of them at hand. */
  ghost predicate Resumes(tx: TxCodec, bytes: seq<byte>, more: seq<byte>, at: nat, left: nat)
    requires at <= |bytes|
  {
    var r := ReadEntries(tx, bytes, at, left);
    && (!r.status.Waiting? ==> ReadEntries(tx, bytes + more, at, left) == r)
    && (r.status.Waiting? ==>
          ReadEntries(tx, bytes + more, at, left) ==
          After(r.entries, ReadEntries(tx, bytes + more, r.consumed, left - |r.entries|)))
  }

  lemma ResumesBehindOne(tx: TxCodec, bytes: seq<byte>, more: seq<byte>, at: nat, left: nat, first: Entry, n: nat)
    requires 0 < left && at + n <= |bytes| && Resumes(tx, bytes, more, at + n, left - 1)
    requires ReadEntries(tx, bytes, at, left) == After([first], ReadEntries(tx, bytes, at + n, left - 1))
    requires ReadEntries(tx, bytes + more, at, left) == After([first], ReadEntries(tx, bytes + more, at + n, left - 1))
    ensures Resumes(tx, bytes, more, at, left)
  {
    hide ReadEntries;
    var r := ReadEntries(tx, bytes, at + n, left - 1);
    if r.status.Waiting? {
      AfterAfter([first], r.entries, ReadEntries(tx, bytes + more, r.consumed, left - 1 - |r.entries|));
    }
  }

  lemma ResumesWhereItStopped(tx: TxCodec, bytes: seq<byte>, more: seq<byte>, at: nat, left: nat)
    requires at <= |bytes|
    requires left == 0 || at == |bytes| || !ParseEntry(tx, bytes[at..]).Parsed?
    ensures Resumes(tx, bytes, more, at, left)
  {
    hide ParseEntry, ReadEntries;
    var all := bytes + more;
    assert all[at..] == bytes[at..] + more;
    ReadsNothing(tx, bytes, at, left);
    AfterNothing(ReadEntries(tx, all, at, left));
    if left == 0 {
      ReadsNothing(tx, all, at, left);
    } else if at < |bytes| && ParseEntry(tx, bytes[at..]).Bad? {
      EntryPrefixStable(tx, bytes[at..], more);
      ReadsNothing(tx, all, at, left);
    }
  }

  lemma {:induction false} ReadEntriesResumes(tx: TxCodec, bytes: seq<byte>, more: seq<byte>, at: nat, left: nat)
    requires at <= |bytes|
    ensures Resumes(tx, bytes, more, at, left)
    decreases left
  {
    hide ParseEntry, ReadEntries, Resumes;
    if left == 0 || at == |bytes| || !ParseEntry(tx, bytes[at..]).Parsed? {
      ResumesWhereItStopped(tx, bytes, more, at, left);
    } else {
      var all := bytes + more;
      assert all[at..] == bytes[at..] + more;
      EntryPrefixStable(tx, bytes[at..], more);
      var first := ParseEntry(tx, bytes[at..]);
      ReadsOne(tx, bytes, at, left);
      ReadsOne(tx, all, at, left);
      ReadEntriesResumes(tx, bytes, more, at + first.size, left - 1);
      ResumesBehindOne(tx, bytes, more, at, left, first.value, first.size);
    }
  }

  /** Reading in pieces is reading at once. A pass that ran out of bytes, picked up where
      it stopped when more arrive, yields what one pass over all of them yields; a pass
      that reached a verdict reaches the same one however many bytes follow. */
  lemma ReadResumes(tx: TxCodec, bytes: seq<byte>, more: seq<byte>, at: nat, remaining: Option<nat>)
    requires at <= |bytes|
    ensures var r := Read(tx, bytes, at, remaining);
            Read(tx, bytes + more, at, remaining) ==
            if r.status.Waiting? then After(r.entries, Read(tx, bytes + more, r.consumed, r.remaining)) else r
  {
    hide ReadEntries;
    match remaining
    case Some(left) => ReadEntriesResumes(tx, bytes, more, at, left);
    case None =>
      AfterNothing(Read(tx, bytes + more, at, remaining));
      if at + ENTRY_COUNT <= |bytes| {
        assert (bytes + more)[at..at + ENTRY_COUNT] == bytes[at..at + ENTRY_COUNT];
        var count := FromLE(bytes[at..at + ENTRY_COUNT]);
        ReadEntriesResumes(tx, bytes, more, at + ENTRY_COUNT, count);
      }
  }

  lemma {:induction false} EntriesFillTheirBytes(tx: TxCodec, bytes: seq<byte>, at: nat, left: nat)
    requires at <= |bytes|
    ensures var r := ReadEntries(tx, bytes, at, left);
            r.consumed >= at + MIN_ENTRY_BYTES * |r.entries|
    decreases left
  {
    hide ParseEntry, ReadEntries;
    if left == 0 || at == |bytes| || !ParseEntry(tx, bytes[at..]).Parsed? {
      ReadsNothing(tx, bytes, at, left);
    } else {
      ReadsOne(tx, bytes, at, left);
      EntriesFillTheirBytes(tx, bytes, at + ParseEntry(tx, bytes[at..]).size, left - 1);
    }
  }

  /** Refusing a count at once loses nothing: no batch that stays within its bound could
      ever have delivered that many entries. */
  lemma RefusedCountsNeverComplete(tx: TxCodec, bytes: seq<byte>, count: nat)
    requires ENTRY_COUNT <= |bytes| <= MAX_BATCH_BYTES
    requires count * MIN_ENTRY_BYTES > MAX_BATCH_BYTES
    ensures !ReadEntries(tx, bytes, ENTRY_COUNT, count).status.Done?
  {
    EntriesFillTheirBytes(tx, bytes, ENTRY_COUNT, count);
  }
}
