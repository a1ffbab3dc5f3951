/** A slot from the entries its leader wrote to what the race is told of them. */
module WrittenSlots {
  import opened Bytes
  import opened Collections
  import opened Codec
  import opened Runs
  import opened Batches
  import opened Pieces
  import opened SlotBuffers
  import opened Races
  import opened Watches
  import opened Limits
  import opened LateRaces
  import opened Encodings

  /** The batch's bytes, cut into shreds wherever the leader liked, padded or not. */
  ghost predicate WrittenBatch(tx: TxCodec, enc: Encoder, run: Run, entries: seq<Entry>) {
    && AllFit(tx, enc, entries) && |EncodeBatch(enc, entries)| <= MAX_BATCH_BYTES
    && EncodeBatch(enc, entries) <= run.data && run.openLen <= MAX_BATCH_BYTES
  }

  /** A slot without a gap, its last shred closing a batch, and every batch the leader's writing. */
  ghost predicate WrittenSlot(tx: TxCodec, enc: Encoder, leader: Held, entries: map<nat, seq<Entry>>) {
    && 0 < |leader| <= INDEX_LIMIT
    && (forall i: nat :: i in leader <==> i < |leader|)
    && leader[|leader| - 1].complete
    && forall s {:trigger s in StartsOf(leader)} ::
         s in StartsOf(leader) && s in leader ==>
           s in entries && WrittenBatch(tx, enc, RunOf(leader, s), entries[s])
  }

  /** The verdict a batch of these entries should come to. */
  function Earned(entries: seq<Entry>): BatchOutcome {
    if entries == [] then Marker else Decoded
  }

  /** Such a slot is well formed, and the leader's order is that of the entries written. */
  lemma WrittenIsALeaders(tx: TxCodec, enc: Encoder, leader: Held, entries: map<nat, seq<Entry>>)
    requires WrittenSlot(tx, enc, leader, entries)
    ensures LeaderSlot(tx, leader)
    ensures forall s :: s in LeaderSpans(tx, leader) ==>
              && s in entries && LeaderSpans(tx, leader)[s].entries == CountsOf(entries[s])
              && OneShot(tx, RunOf(leader, s).data).entries == entries[s]
              && Deserved(tx, RunOf(leader, s)) == Some(Earned(entries[s]))
  {
    hide OneShot, RunOf, Deserved, StartsOf, EncodeBatch, AllFit, RunEnd;
    forall s | s in StartsOf(leader) && s in leader
      ensures s in entries && WellFormed(tx, RunOf(leader, s))
      ensures OneShot(tx, RunOf(leader, s).data).entries == entries[s]
      ensures Deserved(tx, RunOf(leader, s)) == Some(Earned(entries[s]))
    {
      WrittenDeserves(tx, enc, entries[s], RunOf(leader, s));
    }
  }

  /** At any time, whatever has come of the slot and in whatever order: what was handed over for a
      batch is the first of the entries written, and no batch is ever called anything but what it
      earned. */
  lemma NothingButTheWritten(w: SlotWatch, enc: Encoder, entries: map<nat, seq<Entry>>, s: nat)
    requires w.Valid() && w.honest && WrittenSlot(w.tx, enc, w.leader, entries)
    requires s in LeaderSpans(w.tx, w.leader)
    ensures s in entries && w.buffer.AccountOf(s).emitted <= entries[s]
    ensures w.buffer.AccountOf(s).verdicts == [] || w.buffer.AccountOf(s).verdicts == [Earned(entries[s])]
  {
    hide OneShot, RunOf, Deserved, StartsOf, SlotWatch.Valid, WrittenSlot, BatchSound, LeaderSlot, RunEnd, Booked;
    WrittenIsALeaders(w.tx, enc, w.leader, entries);
    w.HonestyAgrees();
    w.ValidIsTold();
    ToldFacts(w.tx, w.buffer.held, w.buffer.starts, w.buffer.progress, w.buffer.accounts, w.reported, w.current);
    ToldAt(w.tx, w.buffer.held, w.buffer.starts, w.buffer.progress, w.buffer.accounts, w.reported, w.current, s);
    if s in w.buffer.accounts {
      LeaderStretches(w.tx, w.leader, s);
      AgreeingRunExtends(w.buffer.held, w.leader, s);
      SoundOfPart(w.tx, RunOf(w.buffer.held, s), RunOf(w.leader, s), w.buffer.ProgressOf(s), w.buffer.AccountOf(s));
    }
  }

  lemma LeaderStretches(tx: TxCodec, leader: Held, s: nat)
    requires LeaderSlot(tx, leader) && s in LeaderSpans(tx, leader)
    ensures Bounded(leader) && WellFormed(tx, RunOf(leader, s))
  {
    hide OneShot, RunOf;
  }

  lemma SoundOfPart(tx: TxCodec, run: Run, whole: Run, p: Progress, account: Account)
    requires Extends(run, whole) && WellFormed(tx, whole) && BatchSound(tx, run, p, account)
    ensures account.emitted <= OneShot(tx, whole.data).entries
    ensures account.verdicts == [] || account.verdicts == Listed(Deserved(tx, whole))
  {
    hide OneShot;
    OneShotGrows(tx, run.data, whole.data);
  }

  /** Once every shred has come, in whatever order and with whatever came twice, what was handed
      over for each batch is just what the leader wrote, the batch is called what it earned, and
      the race has every watched transaction of it where it was written. */
  lemma WrittenIsRead(w: SlotWatch, enc: Encoder, entries: map<nat, seq<Entry>>, s: nat)
    requires w.Valid() && w.honest && WrittenSlot(w.tx, enc, w.leader, entries)
    requires w.leader.Keys <= w.buffer.held.Keys && s in LeaderSpans(w.tx, w.leader)
    ensures s in entries && EntriesOf(w.reported + w.current, s) == entries[s]
    ensures w.buffer.AccountOf(s).emitted == entries[s]
    ensures w.buffer.AccountOf(s).verdicts == [Earned(entries[s])]
    ensures w.Unbroken() ==>
              && s in w.race.batches && w.race.batches[s].entries == CountsOf(entries[s])
              && HitsAt(w.race.hits, s) == HitsIn(w.wallets, s, entries[s])
  {
    hide OneShot, RunOf, Deserved, StartsOf, SlotWatch.Valid, WrittenSlot, LeaderSlot, LeaderSpans, EntriesOf, EndsOf,
         HitsAt, HitsIn, AgreesWith;
    WrittenIsALeaders(w.tx, enc, w.leader, entries);
    HeldWhole(w, s);
    w.buffer.HandedOverIsTheReading(s);
    Reckoned(w, s);
    PiecesSum(w.reported, w.current, s);
    if w.Unbroken() { w.DeliveredRaceIsExact(); }
  }

  lemma HeldWhole(w: SlotWatch, s: nat)
    requires w.Valid() && w.honest && LeaderSlot(w.tx, w.leader)
    requires w.leader.Keys <= w.buffer.held.Keys && s in LeaderSpans(w.tx, w.leader)
    ensures w.buffer.Valid() && w.buffer.agreed && w.buffer.tx == w.tx && s in w.buffer.starts
    ensures s in StartsOf(w.buffer.held) && RunOf(w.buffer.held, s) == RunOf(w.leader, s)
    ensures RunOf(w.buffer.held, s).openLen <= MAX_BATCH_BYTES
  {
    hide OneShot, RunOf, LeaderSlot, AgreesWith;
    w.HonestyAgrees();
    LeaderStretches(w.tx, w.leader, s);
    w.buffer.StoredFacts();
    LeaderStartIsHeldStart(w.leader, w.buffer.held, s);
    AgreesBack(w.buffer.held, w.leader);
    SameShredsSameRun(w.leader, w.buffer.held, s);
  }

  // ---------------------------------------------------------------- there are such slots

  lemma RaceEntryFits(tx: TxCodec)
    requires tx == TwoByteTransaction
    ensures AllFit(tx, TwoBytes, [RaceEntry()])
  {
    TwoBytesWrite(tx, 1, 7);
    TwoBytesWrite(tx, 2, 8);
    Large();
  }

  lemma Large()
    ensures Power256(8) > 2
  {
    assert Power256(7) > 0;
  }

  lemma RaceEntryIsWritten()
    ensures EncodeBatch(TwoBytes, [RaceEntry()]) == RaceBytes()
  {
    var e := RaceEntry();
    assert ToLE(0, 8) == Zeros(8) && ToLE(1, 8) == [1] + Zeros(7) && ToLE(2, 8) == [2] + Zeros(7);
    var first, second := e.transactions[0], e.transactions[1];
    assert e.transactions[1..] == [second];
    assert EncodeTransactions(TwoBytes, [second]) == TwoBytes(second) + [];
    assert EncodeTransactions(TwoBytes, e.transactions) == [1, 7, 2, 8];
    assert EncodeEntries(TwoBytes, [e]) == EncodeEntry(TwoBytes, e) + [];
    assert EncodeEntry(TwoBytes, e) == Zeros(40) + RacePair();
  }

  /** The slot of one shred whose race has a hit of either side is written so. */
  lemma SomeSlotIsWritten(tx: TxCodec, leader: Held)
    requires tx == TwoByteTransaction && leader == map[0 := Shred(RaceBytes(), true, 0, false)]
    ensures WrittenSlot(tx, TwoBytes, leader, map[0 := [RaceEntry()]])
  {
    hide OneShot, ExtentOf, RunOf, RaceBytes, RaceEntry, AllFit, EncodeBatch;
    assert leader.Keys == {0};
    assert |leader| == 1;
    RaceEntryFits(tx);
    RaceEntryIsWritten();
    LoneRun(leader, Shred(RaceBytes(), true, 0, false));
    ExtentIsTheRun(leader, 0);
  }
}
