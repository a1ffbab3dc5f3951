/** The bytes of a batch as its leader writes them, and that reading them gives back what was
    written. */
module Encodings {
  import opened Bytes
  import opened Collections
  import opened Codec
  import opened Runs
  import opened Batches

  type Encoder = Transaction -> seq<byte>

  function EncodeTransactions(enc: Encoder, transactions: seq<Transaction>): seq<byte> {
    if transactions == [] then [] else enc(transactions[0]) + EncodeTransactions(enc, transactions[1..])
  }

  function EncodeEntry(enc: Encoder, e: Entry): seq<byte> {
    ToLE(e.numHashes, 8) + e.hash + ToLE(|e.transactions|, 8) + EncodeTransactions(enc, e.transactions)
  }

  function EncodeEntries(enc: Encoder, entries: seq<Entry>): seq<byte> {
    if entries == [] then [] else EncodeEntry(enc, entries[0]) + EncodeEntries(enc, entries[1..])
  }

  /** A count, and that many entries behind it. */
  function EncodeBatch(enc: Encoder, entries: seq<Entry>): seq<byte> {
    ToLE(|entries|, ENTRY_COUNT) + EncodeEntries(enc, entries)
  }

  /** The reader takes the transaction's bytes for the transaction, all of them. */
  ghost predicate Writes(tx: TxCodec, enc: Encoder, t: Transaction) {
    tx(enc(t)) == Parsed(t, |enc(t)|)
  }

  /** An entry whose fields fit the widths they are written in. */
  ghost predicate Fits(tx: TxCodec, enc: Encoder, e: Entry) {
    && e.numHashes < Power256(8) && |e.hash| == 32 && |e.transactions| < Power256(8)
    && forall t :: t in e.transactions ==> Writes(tx, enc, t)
  }

  ghost predicate AllFit(tx: TxCodec, enc: Encoder, entries: seq<Entry>) {
    forall e :: e in entries ==> Fits(tx, enc, e)
  }

  // ---------------------------------------------------------------- one entry

  lemma {:induction false} TransactionsComeBack(tx: TxCodec, enc: Encoder, transactions: seq<Transaction>)
    requires forall t :: t in transactions ==> Writes(tx, enc, t)
    ensures var b := EncodeTransactions(enc, transactions);
            ParseTransactions(tx, b, |transactions|) == Parsed(transactions, |b|)
    decreases |transactions|
  {
    if transactions != [] {
      var first, rest := transactions[0], transactions[1..];
      var b, behind := EncodeTransactions(enc, transactions), EncodeTransactions(enc, rest);
      assert Writes(tx, enc, first);
      assert tx(enc(first) + behind) == tx(enc(first));
      assert b[|enc(first)|..] == behind;
      TransactionsComeBack(tx, enc, rest);
      assert [first] + rest == transactions;
    }
  }

  lemma EntryFields(a: seq<byte>, hash: seq<byte>, b: seq<byte>, rest: seq<byte>)
    requires |a| == 8 && |hash| == 32 && |b| == 8
    ensures var all := a + hash + b + rest;
            |all| == 48 + |rest| && all[..8] == a && all[8..40] == hash && all[40..48] == b && all[48..] == rest
  {
  }

  lemma EntryComesBack(tx: TxCodec, enc: Encoder, e: Entry)
    requires Fits(tx, enc, e)
    ensures ParseEntry(tx, EncodeEntry(enc, e)) == Parsed(e, |EncodeEntry(enc, e)|)
    ensures |EncodeEntry(enc, e)| >= MIN_ENTRY_BYTES
  {
    hide FromLE, ToLE, Power256, ParseTransactions, EncodeTransactions, Writes;
    FromToLE(e.numHashes, 8);
    FromToLE(|e.transactions|, 8);
    EntryFields(ToLE(e.numHashes, 8), e.hash, ToLE(|e.transactions|, 8), EncodeTransactions(enc, e.transactions));
    TransactionsComeBack(tx, enc, e.transactions);
  }

  // ---------------------------------------------------------------- a batch

  /** Entries written one behind the other are read one behind the other, whatever is owed besides
      and whatever follows. */
  lemma {:induction false} EntriesComeBack(tx: TxCodec, enc: Encoder, entries: seq<Entry>, bytes: seq<byte>, at: nat,
                                           owed: nat)
    requires AllFit(tx, enc, entries) && at <= |bytes| && EncodeEntries(enc, entries) <= bytes[at..]
    ensures ReadEntries(tx, bytes, at, |entries| + owed) ==
            After(entries, ReadEntries(tx, bytes, at + |EncodeEntries(enc, entries)|, owed))
    decreases |entries|
  {
    hide ParseEntry, ReadEntries, EncodeEntry, Fits;
    if entries == [] {
      AfterNothing(ReadEntries(tx, bytes, at, owed));
    } else {
      var first, rest := entries[0], entries[1..];
      var b, behind := EncodeEntry(enc, first), EncodeEntries(enc, rest);
      EntryComesBack(tx, enc, first);
      CutBehind(bytes, at, b, behind);
      EntryPrefixStable(tx, b, bytes[at + |b|..]);
      ReadsOne(tx, bytes, at, |entries| + owed);
      EntriesComeBack(tx, enc, rest, bytes, at + |b|, owed);
      AfterAfter([first], rest, ReadEntries(tx, bytes, at + |EncodeEntries(enc, entries)|, owed));
      assert [first] + rest == entries;
    }
  }

  lemma CutBehind(bytes: seq<byte>, at: nat, b: seq<byte>, behind: seq<byte>)
    requires at <= |bytes| && b + behind <= bytes[at..]
    ensures at + |b| <= |bytes| && bytes[at..] == b + bytes[at + |b|..] && behind <= bytes[at + |b|..]
  {
    assert bytes[at..][..|b|] == (b + behind)[..|b|] == b;
    assert bytes[at..][|b|..] == bytes[at + |b|..];
    assert bytes[at..][|b|..|b| + |behind|] == (b + behind)[|b|..] == behind;
  }

  lemma {:induction false} EntriesTakeRoom(tx: TxCodec, enc: Encoder, entries: seq<Entry>)
    requires AllFit(tx, enc, entries)
    ensures |EncodeEntries(enc, entries)| >= MIN_ENTRY_BYTES * |entries|
    decreases |entries|
  {
    hide EncodeEntry, Fits;
    if entries != [] {
      EntryComesBack(tx, enc, entries[0]);
      EntriesTakeRoom(tx, enc, entries[1..]);
    }
  }

  /** Reading inverts writing. Whatever a leader puts behind a batch of its, one reading gives
      back the entries written, stops where they end, and owes nothing; unless the batch has more
      entries than could ever have stayed within the bound, of which nothing is read. */
  lemma ReadInvertsBatch(tx: TxCodec, enc: Encoder, entries: seq<Entry>, padding: seq<byte>)
    requires AllFit(tx, enc, entries) && |entries| < Power256(ENTRY_COUNT)
    ensures OneShot(tx, EncodeBatch(enc, entries) + padding) ==
            if |entries| * MIN_ENTRY_BYTES <= MAX_BATCH_BYTES
            then Reading(entries, |EncodeBatch(enc, entries)|, Some(0), Done)
            else Reading([], 0, None, Invalid)
    ensures |EncodeBatch(enc, entries)| <= MAX_BATCH_BYTES ==> |entries| * MIN_ENTRY_BYTES <= MAX_BATCH_BYTES
  {
    hide FromLE, ToLE, Power256, ReadEntries, EncodeEntries, AllFit;
    var count := ToLE(|entries|, ENTRY_COUNT);
    var bytes := EncodeBatch(enc, entries) + padding;
    FromToLE(|entries|, ENTRY_COUNT);
    assert bytes[0..0 + ENTRY_COUNT] == count;
    assert bytes[ENTRY_COUNT..] == EncodeEntries(enc, entries) + padding;
    EntriesTakeRoom(tx, enc, entries);
    EntriesComeBack(tx, enc, entries, bytes, ENTRY_COUNT, 0);
    ReadsNoneOwed(tx, bytes, ENTRY_COUNT + |EncodeEntries(enc, entries)|);
    assert entries + [] == entries;
  }

  /** The first of a batch's bytes, with `n` entries announced: all the entries that are whole in
      them come out, and what is behind those decides. */
  lemma ReadsWhatIsWhole(tx: TxCodec, enc: Encoder, entries: seq<Entry>, n: nat, rest: seq<byte>)
    requires AllFit(tx, enc, entries) && |entries| <= n && n * MIN_ENTRY_BYTES <= MAX_BATCH_BYTES
    ensures var front := ToLE(n, ENTRY_COUNT) + EncodeEntries(enc, entries);
            OneShot(tx, front + rest) ==
            After(entries, ReadEntries(tx, front + rest, |front|, n - |entries|))
  {
    hide FromLE, ToLE, Power256, ReadEntries, EncodeEntries, AllFit;
    var count := ToLE(n, ENTRY_COUNT);
    var front := count + EncodeEntries(enc, entries);
    var bytes := front + rest;
    CountFits(n);
    FromToLE(n, ENTRY_COUNT);
    assert bytes[0..0 + ENTRY_COUNT] == count;
    assert bytes[ENTRY_COUNT..] == EncodeEntries(enc, entries) + rest;
    EntriesComeBack(tx, enc, entries, bytes, ENTRY_COUNT, n - |entries|);
  }

  lemma CountFits(n: nat)
    requires n * MIN_ENTRY_BYTES <= MAX_BATCH_BYTES
    ensures n < Power256(ENTRY_COUNT)
  {
    assert Power256(4) == 256 * Power256(3) == 256 * 256 * Power256(2);
  }

  /** A batch cut short anywhere is waited for, never refused, with every entry out that is whole
      in the part that has come. */
  lemma PartOfABatchWaits(tx: TxCodec, enc: Encoder, entries: seq<Entry>, part: seq<byte>, whole: nat)
    requires AllFit(tx, enc, entries) && |entries| * MIN_ENTRY_BYTES <= MAX_BATCH_BYTES
    requires part < EncodeBatch(enc, entries) && whole <= |entries|
    requires ENTRY_COUNT + |EncodeEntries(enc, entries[..whole])| <= |part| || whole == 0
    ensures var r := OneShot(tx, part); r.status.Waiting? && entries[..whole] <= r.entries <= entries
  {
    hide ToLE, Power256, ReadEntries, EncodeEntries, AllFit, OneShot;
    CountFits(|entries|);
    ReadInvertsBatch(tx, enc, entries, []);
    assert EncodeBatch(enc, entries) + [] == EncodeBatch(enc, entries);
    OneShotGrows(tx, part, EncodeBatch(enc, entries));
    if whole > 0 {
      var count, some := ToLE(|entries|, ENTRY_COUNT), EncodeEntries(enc, entries[..whole]);
      SomeFit(tx, enc, entries, whole);
      EntriesSplit(enc, entries, whole);
      var front := count + some;
      assert front <= EncodeBatch(enc, entries);
      assert part[..|front|] == front;
      assert part == front + part[|front|..];
      ReadsWhatIsWhole(tx, enc, entries[..whole], |entries|, part[|front|..]);
    }
  }

  lemma SomeFit(tx: TxCodec, enc: Encoder, entries: seq<Entry>, k: nat)
    requires AllFit(tx, enc, entries) && k <= |entries|
    ensures AllFit(tx, enc, entries[..k]) && AllFit(tx, enc, entries[k..])
  {
  }

  lemma {:induction false} EntriesSplit(enc: Encoder, entries: seq<Entry>, k: nat)
    requires k <= |entries|
    ensures EncodeEntries(enc, entries) == EncodeEntries(enc, entries[..k]) + EncodeEntries(enc, entries[k..])
    decreases k
  {
    hide EncodeEntry;
    if k > 0 {
      var rest := entries[1..];
      EntriesSplit(enc, rest, k - 1);
      assert entries[..k][1..] == rest[..k - 1] && rest[k - 1..] == entries[k..];
    } else {
      assert entries[..0] == [] && entries[0..] == entries;
    }
  }

  /** Bytes that are no transaction, where the next one owed should be, fail the batch at once, with
      the entries in front of them out, however much is still to come. */
  lemma NoTransactionIsRefused(tx: TxCodec, enc: Encoder, entries: seq<Entry>, n: nat, next: Entry, k: nat,
                               junk: seq<byte>)
    requires AllFit(tx, enc, entries) && |entries| < n && n * MIN_ENTRY_BYTES <= MAX_BATCH_BYTES
    requires Fits(tx, enc, next) && k < |next.transactions| && tx(junk).Bad?
    ensures var front := ToLE(n, ENTRY_COUNT) + EncodeEntries(enc, entries);
            var header := ToLE(next.numHashes, 8) + next.hash + ToLE(|next.transactions|, 8);
            var r := OneShot(tx, front + (header + EncodeTransactions(enc, next.transactions[..k]) + junk));
            r.status.Invalid? && r.entries == entries
  {
    hide FromLE, ToLE, Power256, ReadEntries, EncodeEntries, EncodeTransactions, AllFit, ParseEntry, ParseTransactions;
    var front := ToLE(n, ENTRY_COUNT) + EncodeEntries(enc, entries);
    var header := ToLE(next.numHashes, 8) + next.hash + ToLE(|next.transactions|, 8);
    var rest := header + EncodeTransactions(enc, next.transactions[..k]) + junk;
    ReadsWhatIsWhole(tx, enc, entries, n, rest);
    assert (front + rest)[|front|..] == rest;
    EntryIsRefused(tx, enc, next, k, junk);
    ReadsNothing(tx, front + rest, |front|, n - |entries|);
    assert entries + [] == entries;
  }

  lemma EntryIsRefused(tx: TxCodec, enc: Encoder, e: Entry, k: nat, junk: seq<byte>)
    requires Fits(tx, enc, e) && k < |e.transactions| && tx(junk).Bad?
    ensures var header := ToLE(e.numHashes, 8) + e.hash + ToLE(|e.transactions|, 8);
            ParseEntry(tx, header + EncodeTransactions(enc, e.transactions[..k]) + junk).Bad?
  {
    hide FromLE, ToLE, Power256, ParseTransactions, EncodeTransactions, Writes;
    var some := EncodeTransactions(enc, e.transactions[..k]);
    var header := ToLE(e.numHashes, 8) + e.hash + ToLE(|e.transactions|, 8);
    FromToLE(|e.transactions|, 8);
    EntryFields(ToLE(e.numHashes, 8), e.hash, ToLE(|e.transactions|, 8), some + junk);
    assert header + some + junk == header + (some + junk);
    TransactionsAreRefused(tx, enc, e.transactions[..k], |e.transactions|, junk);
  }

  lemma {:induction false} TransactionsAreRefused(tx: TxCodec, enc: Encoder, some: seq<Transaction>, n: nat,
                                                  junk: seq<byte>)
    requires (forall t :: t in some ==> Writes(tx, enc, t)) && |some| < n && tx(junk).Bad?
    ensures ParseTransactions(tx, EncodeTransactions(enc, some) + junk, n).Bad?
    decreases |some|
  {
    if some == [] {
      assert EncodeTransactions(enc, some) + junk == junk;
    } else {
      var first, rest := some[0], some[1..];
      var all := EncodeTransactions(enc, some) + junk;
      var behind := EncodeTransactions(enc, rest) + junk;
      assert all == enc(first) + behind;
      assert Writes(tx, enc, first);
      assert tx(enc(first) + behind) == tx(enc(first));
      assert all[|enc(first)|..] == behind;
      TransactionsAreRefused(tx, enc, rest, n - 1, junk);
    }
  }

  /** No batch is waited for that announces more than could stay within the bound. */
  lemma WaitsForWhatFits(tx: TxCodec, bytes: seq<byte>)
    ensures var r := OneShot(tx, bytes);
            r.remaining.Some? ==> (|r.entries| + r.remaining.value) * MIN_ENTRY_BYTES <= MAX_BATCH_BYTES
  {
    hide ReadEntries, FromLE;
  }

  // ---------------------------------------------------------------- what it comes to

  /** The verdict on a batch so written: decoded if it has an entry, else a marker. */
  lemma WrittenDeserves(tx: TxCodec, enc: Encoder, entries: seq<Entry>, run: Run)
    requires AllFit(tx, enc, entries) && |EncodeBatch(enc, entries)| <= MAX_BATCH_BYTES
    requires EncodeBatch(enc, entries) <= run.data
    ensures OneShot(tx, run.data).entries == entries && OneShot(tx, run.data).status.Done?
    ensures Deserved(tx, run) == Some(if entries == [] then Marker else Decoded)
  {
    hide OneShot, AllFit, EncodeEntries, ToLE, Power256;
    var padding := run.data[|EncodeBatch(enc, entries)|..];
    assert run.data == EncodeBatch(enc, entries) + padding;
    FewEnough(tx, enc, entries);
    ReadInvertsBatch(tx, enc, entries, padding);
  }

  lemma FewEnough(tx: TxCodec, enc: Encoder, entries: seq<Entry>)
    requires AllFit(tx, enc, entries) && |EncodeBatch(enc, entries)| <= MAX_BATCH_BYTES
    ensures |entries| < Power256(ENTRY_COUNT)
  {
    hide AllFit, EncodeEntries;
    EntriesTakeRoom(tx, enc, entries);
    assert Power256(4) == 256 * Power256(3) == 256 * 256 * Power256(2);
  }

  // ---------------------------------------------------------------- the laws can be met

  function TwoBytes(t: Transaction): seq<byte> {
    if t.payer.Some? && t.payer.value < 128 && t.signature.Some? && t.signature.value < 256
    then [t.payer.value as byte, t.signature.value as byte] else []
  }

  lemma TwoBytesWrite(tx: TxCodec, payer: nat, signature: nat)
    requires tx == TwoByteTransaction && payer < 128 && signature < 256
    ensures Writes(tx, TwoBytes, Transaction(Some(payer), Some(signature)))
  {
    var t := Transaction(Some(payer), Some(signature));
    assert tx(TwoBytes(t)) == TwoByteTransaction(TwoBytes(t));
  }
}
