/** A slot that is reported too soon, in the program's own steps: what comes after the report
    makes a race of its own, and that race claims as exact a gap that is not. */
module LateRaces {
  import opened Bytes
  import opened Collections
  import opened Codec
  import opened Runs
  import opened Arenas
  import opened Batches
  import opened Pieces
  import opened SlotBuffers
  import opened Races
  import opened Limits
  import opened Watches

  // ---------------------------------------------------------------- the slot as its leader wrote it

  /** A batch of one entry closed by an empty shred, and behind it one of two entries with a
      shred each. Every entry has two transactions, of wallet one and of wallet two. */
  function LeaderShreds(): (leader: Held) {
    map[0 := Shred(RaceBytes(), false, 0, false), 1 := Shred([], true, 0, false),
        2 := Shred(HeadBytes(), false, 0, false), 3 := Shred(TailBytes(), true, 0, false)]
  }

  function HeadBytes(): (b: seq<byte>)
    ensures |b| == 60
  {
    [2] + Zeros(7) + TailBytes()
  }

  function TailBytes(): (b: seq<byte>)
    ensures |b| == 52
  {
    Zeros(40) + RacePair()
  }

  ghost predicate IsLeader(leader: Held) {
    && leader.Keys == {0, 1, 2, 3}
    && leader[0].data == RaceBytes() && !leader[0].complete
    && leader[1].data == [] && leader[1].complete
    && leader[2].data == HeadBytes() && !leader[2].complete
    && leader[3].data == TailBytes() && leader[3].complete
  }

  lemma HeadReads(tx: TxCodec)
    requires tx == TwoByteTransaction
    ensures OneShot(tx, HeadBytes()) == Reading([RaceEntry()], 60, Some(1), Waiting)
    ensures OneShot(tx, HeadBytes() + TailBytes()) == Reading([RaceEntry(), RaceEntry()], 112, Some(0), Done)
  {
    hide ParseEntry, FromLE, ReadEntries, RaceEntry;
    var head, whole := HeadBytes(), HeadBytes() + TailBytes();
    assert head[0..0 + ENTRY_COUNT] == whole[0..0 + ENTRY_COUNT] == [2] + Zeros(7);
    LowByte([2] + Zeros(7), 2);
    EntryReads(tx, head, 8, 2);
    EntryReads(tx, whole, 8, 2);
    EntryReads(tx, whole, 60, 1);
    OutOfBytes(tx, head, 60, 1);
    ReadsNoneOwed(tx, whole, 112);
    assert [RaceEntry()] + [] == [RaceEntry()];
    assert [RaceEntry()] + [RaceEntry()] == [RaceEntry(), RaceEntry()];
  }

  lemma OutOfBytes(tx: TxCodec, b: seq<byte>, at: nat, left: nat)
    requires at == |b| && left > 0
    ensures ReadEntries(tx, b, at, left) == Reading([], at, Some(left), Waiting)
  {
  }

  lemma EntryReads(tx: TxCodec, b: seq<byte>, at: nat, left: nat)
    requires tx == TwoByteTransaction && left > 0 && at + 52 <= |b| && b[at..at + 52] == TailBytes()
    ensures ReadEntries(tx, b, at, left) == After([RaceEntry()], ReadEntries(tx, b, at + 52, left - 1))
  {
    hide ParseEntry, ReadEntries, RaceEntry;
    RaceEntryParses(tx, TailBytes());
    var rest := b[at..];
    assert rest == TailBytes() + b[at + 52..];
    EntryPrefixStable(tx, TailBytes(), b[at + 52..]);
    ReadsOne(tx, b, at, left);
  }

  // ---------------------------------------------------------------- what is held of it

  lemma StartsAre(leader: Held, h: Held)
    requires IsLeader(leader) && AgreesWith(h, leader) && 1 in h
    ensures StartsOf(h) == if 3 in h then {0, 2, 4} else {0, 2}
  {
    hide RaceBytes, HeadBytes, TailBytes;
    assert h.Keys <= {0, 1, 2, 3};
  }

  /** The first batch, all of it or nothing. */
  lemma FirstRun(leader: Held, h: Held)
    requires IsLeader(leader) && AgreesWith(h, leader) && 1 in h
    ensures 0 in h ==> RunOf(h, 0) == Run(RaceBytes(), true, 2, 60)
    ensures 0 !in h ==> RunOf(h, 0) == Run([], false, 0, 0)
  {
    hide RaceBytes, HeadBytes, TailBytes;
    if 0 in h {
      WholeIsRun(h, 0, 2);
      assert Cat(h, 0, 0) == [];
      assert Cat(h, 0, 1) == RaceBytes();
      assert Cat(h, 0, 2) == RaceBytes();
    } else {
      WholeIsRun(h, 0, 0);
    }
  }

  /** The second, up to its first entry or to its end. */
  lemma SecondRun(leader: Held, h: Held)
    requires IsLeader(leader) && AgreesWith(h, leader) && 2 in h
    ensures 3 in h ==> RunOf(h, 2) == Run(HeadBytes() + TailBytes(), true, 4, 60)
    ensures 3 !in h ==> RunOf(h, 2) == Run(HeadBytes(), false, 3, 60)
  {
    hide RaceBytes, HeadBytes, TailBytes;
    assert Cat(h, 2, 2) == [];
    assert Cat(h, 2, 3) == HeadBytes();
    if 3 in h {
      WholeIsRun(h, 2, 4);
    } else {
      WholeIsRun(h, 2, 3);
    }
  }

  /** What is to be had of both batches, by what is held of them. */
  lemma BatchesRead(tx: TxCodec, leader: Held, h: Held)
    requires tx == TwoByteTransaction && IsLeader(leader) && AgreesWith(h, leader) && {1, 2} <= h.Keys
    ensures var first, second := RunOf(h, 0), RunOf(h, 2);
            && first.openLen <= MAX_BATCH_BYTES && second.openLen <= MAX_BATCH_BYTES
            && OneShot(tx, first.data).entries == (if 0 in h then [RaceEntry()] else [])
            && OneShot(tx, second.data).entries == (if 3 in h then [RaceEntry(), RaceEntry()] else [RaceEntry()])
            && (0 in h ==> WellFormed(tx, first))
            && (3 in h ==> WellFormed(tx, second))
  {
    hide OneShot, RunOf, RaceBytes, HeadBytes, TailBytes, RaceEntry;
    FirstRun(leader, h);
    SecondRun(leader, h);
    HeadReads(tx);
    RaceBytesRead(tx);
    NothingReads(tx);
  }

  lemma NothingReads(tx: TxCodec)
    ensures OneShot(tx, []).entries == []
  {
  }

  lemma SlotIsALeaders(tx: TxCodec, leader: Held)
    requires tx == TwoByteTransaction && IsLeader(leader)
    ensures LeaderSlot(tx, leader)
    ensures LeaderSpans(tx, leader).Keys == {0, 2}
    ensures LeaderSpans(tx, leader)[0] == Span(1, [2]) && LeaderSpans(tx, leader)[2] == Span(3, [2, 2])
  {
    hide OneShot, RunOf, RaceBytes, HeadBytes, TailBytes, StartsOf, WellFormed, RaceEntry;
    StartsAre(leader, leader);
    BatchesRead(tx, leader, leader);
    assert |leader| == |leader.Keys| == 4;
    RunsEnd(leader);
    PairCounts();
  }

  lemma RunsEnd(leader: Held)
    requires IsLeader(leader)
    ensures RunEnd(leader, 0) == 2 && RunEnd(leader, 2) == 4
  {
    WholeIsRun(leader, 0, 2);
    WholeIsRun(leader, 2, 4);
  }

  lemma PairCounts()
    ensures CountsOf([RaceEntry()]) == [2] && CountsOf([RaceEntry(), RaceEntry()]) == [2, 2]
  {
  }

  // ---------------------------------------------------------------- what the race comes to

  /** Everything ever told of a batch is one reading of what is held of it. */
  lemma Reckoned(w: SlotWatch, s: nat)
    requires w.Valid() && w.honest && s in StartsOf(w.buffer.held)
    requires RunOf(w.buffer.held, s).openLen <= MAX_BATCH_BYTES
    ensures EntriesOf(w.reported, s) + EntriesOf(w.current, s) == OneShot(w.tx, RunOf(w.buffer.held, s).data).entries
  {
    hide OneShot, RunOf, StartsOf, Logged, AgreesWith, EntriesOf, EndsOf;
    w.ValidIsTold();
    ToldFacts(w.tx, w.buffer.held, w.buffer.starts, w.buffer.progress, w.buffer.accounts, w.reported, w.current);
    ToldAt(w.tx, w.buffer.held, w.buffer.starts, w.buffer.progress, w.buffer.accounts, w.reported, w.current, s);
    w.buffer.HandedOverIsTheReading(s);
  }

  /** Before the report: of the second batch its first entry, of the first nothing. */
  lemma EarlyBooks(w: SlotWatch)
    requires w.Valid() && w.honest && w.tx == TwoByteTransaction
    requires IsLeader(w.leader) && w.buffer.held.Keys == {1, 2}
    ensures EntriesOf(w.reported + w.current, 0) == [] && EntriesOf(w.reported + w.current, 2) == [RaceEntry()]
  {
    hide OneShot, RunOf, StartsOf, RaceEntry, AgreesWith, EntriesOf, EndsOf, SlotWatch.Valid, IsLeader, RaceBytes,
         HeadBytes, TailBytes, WellFormed;
    w.HonestyAgrees();
    StartsAre(w.leader, w.buffer.held);
    BatchesRead(w.tx, w.leader, w.buffer.held);
    Reckoned(w, 0);
    Reckoned(w, 2);
    PiecesSum(w.reported, w.current, 0);
    PiecesSum(w.reported, w.current, 2);
  }

  /** The race after the report: of the first batch everything, of the second what was left. */
  lemma LateBooks(w: SlotWatch)
    requires w.Valid() && w.honest && w.dropped == [] && w.tx == TwoByteTransaction && w.wallets == RACE_WALLETS
    requires IsLeader(w.leader) && w.buffer.held.Keys == {0, 1, 2, 3}
    requires EntriesOf(w.reported, 0) == [] && EntriesOf(w.reported, 2) == [RaceEntry()]
    ensures FullSpans(w.buffer.accounts) == LeaderSpans(w.tx, w.leader)
    ensures w.race.batches.Keys == {0, 2}
    ensures w.race.batches[0] == Span(1, [2]) && w.race.batches[2] == Span(3, [2])
    ensures Hit(Target, 0, 0, 0, Some(7)) in w.race.hits && Hit(Searcher, 2, 0, 1, Some(8)) in w.race.hits
  {
    hide OneShot, RunOf, StartsOf, Logged, RaceEntry, AgreesWith, EntriesOf, EndsOf, SlotWatch.Valid, HitsIn, HitsAt,
         LeaderSlot, LeaderSpans, FullSpans, IsLeader, Booked, Tallies;
    w.HonestyAgrees();
    w.ValidIsTold();
    AllHeld(w.leader, w.buffer.held);
    SlotIsALeaders(w.tx, w.leader);
    BatchesRead(w.tx, w.leader, w.buffer.held);
    Reckoned(w, 0);
    Reckoned(w, 2);
    PairSplits(RaceEntry());
    Cancels([], EntriesOf(w.current, 0), [RaceEntry()]);
    Cancels([RaceEntry()], EntriesOf(w.current, 2), [RaceEntry()]);
    DeliveredIsFull(w);
    TalliedOne(w, 0);
    TalliedOne(w, 2);
    BooksAreFull(w);
    TwoKeys(w.race.batches, FullSpans(w.buffer.accounts));
  }

  lemma TwoKeys(batches: map<nat, Span>, full: map<nat, Span>)
    requires 0 in batches && 2 in batches && full.Keys == {0, 2} && forall s :: s in batches ==> s in full
    ensures batches.Keys == {0, 2}
  {
    assert forall s :: s in batches.Keys <==> s in {0, 2};
  }

  lemma PairSplits(e: Entry)
    ensures [e, e] == [e] + [e] && [] + [e] == [e]
  {
  }

  lemma Cancels(a: seq<Entry>, b: seq<Entry>, c: seq<Entry>)
    requires a + b == a + c
    ensures b == c
  {
    assert (a + b)[|a|..] == b && (a + c)[|a|..] == c;
  }

  lemma AllHeld(leader: Held, h: Held)
    requires IsLeader(leader) && AgreesWith(h, leader) && h.Keys == {0, 1, 2, 3}
    ensures StartsOf(h) == {0, 2, 4} && leader.Keys <= h.Keys && leader.Keys == {0, 1, 2, 3}
  {
    StartsAre(leader, h);
  }

  /** With every shred in, what was told of all batches together is the leader's order. */
  lemma DeliveredIsFull(w: SlotWatch)
    requires w.Valid() && w.honest && LeaderSlot(w.tx, w.leader) && w.leader.Keys <= w.buffer.held.Keys
    ensures FullSpans(w.buffer.accounts) == LeaderSpans(w.tx, w.leader)
  {
    hide OneShot, RunOf, StartsOf, Logged, AgreesWith, EntriesOf, EndsOf, LeaderSlot, LeaderSpan, SlotWatch.Valid,
         BatchSound, Booked;
    w.HonestyAgrees();
    w.ValidIsTold();
    ToldFacts(w.tx, w.buffer.held, w.buffer.starts, w.buffer.progress, w.buffer.accounts, w.reported, w.current);
    ToldIsWithin(w.tx, w.leader, w.buffer.held, w.buffer.starts, w.buffer.progress, w.buffer.accounts,
                 w.reported, w.current);
    var whole, full := LeaderSpans(w.tx, w.leader), FullSpans(w.buffer.accounts);
    forall s | s in whole
      ensures s in full && full[s] == whole[s]
    {
      LeaderStartIsHeldStart(w.leader, w.buffer.held, s);
      ToldAt(w.tx, w.buffer.held, w.buffer.starts, w.buffer.progress, w.buffer.accounts, w.reported, w.current, s);
      DeliveredIsWhole(w.tx, w.buffer.held, w.leader, s, w.buffer.ProgressOf(s), w.buffer.AccountOf(s));
    }
  }

  /** A batch of which this race was told the entry. */
  lemma TalliedOne(w: SlotWatch, s: nat)
    requires w.Valid() && w.dropped == [] && w.wallets == RACE_WALLETS && EntriesOf(w.current, s) == [RaceEntry()]
    ensures s in w.race.batches && w.race.batches[s].entries == [2]
    ensures Hit(Target, s, 0, 0, Some(7)) in w.race.hits && Hit(Searcher, s, 0, 1, Some(8)) in w.race.hits
  {
    hide Logged, EntriesOf, EndsOf, HitsIn, HitsAt, RaceEntry;
    assert w.race.log == w.current;
    assert TalliedAt(w.wallets, w.race.batches, w.race.hits, w.current, s);
    if EndsOf(w.current, s) == [] { NoEndsNoEntries(w.current, s); }
    PairCounts();
    RaceHits(s);
    var found := HitsAt(w.race.hits, s);
    assert found[0] in found && found[1] in found;
    HitsAtAreHits(w.race.hits, s, found[0]);
    HitsAtAreHits(w.race.hits, s, found[1]);
  }

  lemma BooksAreFull(w: SlotWatch)
    requires w.Valid() && w.honest && w.dropped == []
    ensures forall s :: s in w.race.batches ==>
              && s in FullSpans(w.buffer.accounts)
              && w.race.batches[s].lastShred == FullSpans(w.buffer.accounts)[s].lastShred
  {
    hide Booked, Tallies, SlotWatch.Valid, FullSpans;
    w.ValidIsTold();
    RestIsLate(w.tx, w.buffer.held, w.buffer.starts, w.buffer.progress, w.buffer.accounts, w.reported, w.current,
               w.wallets, w.race.batches, w.race.hits);
  }

  /** The second batch's first entry is told, and the slot is quiet and reported. */
  method FirstReport() returns (w: SlotWatch)
    ensures fresh(w) && fresh(w.buffer) && fresh(w.race)
    ensures w.Valid() && w.honest && w.dropped == [] && w.tx == TwoByteTransaction && w.wallets == RACE_WALLETS
    ensures w.leader == LeaderShreds() && w.buffer.held.Keys == {1, 2}
    ensures EntriesOf(w.reported, 0) == [] && EntriesOf(w.reported, 2) == [RaceEntry()]
  {
    hide RaceBytes, HeadBytes, TailBytes, RaceEntry, SlotWatch.Valid, EntriesOf, AllLocated, ReportOf,
         Tells;
    var tx: TxCodec := Witness();
    ghost var leader := LeaderShreds();
    assert IsLeader(leader);
    w := new SlotWatch(tx, RACE_WALLETS, 0, leader);
    var crashed := w.Receive(1, [], true, false, 0, false);
    crashed := w.Receive(2, HeadBytes(), false, false, 0, false);
    EarlyBooks(w);
    var report := w.Settle();
  }

  /** The first batch and the rest of the second come after all. */
  method ReportedTooSoon() returns (w: SlotWatch)
    ensures w.Valid() && w.honest && w.dropped == [] && w.tx == TwoByteTransaction && w.wallets == RACE_WALLETS
    ensures IsLeader(w.leader) && w.buffer.held.Keys == {0, 1, 2, 3}
    ensures EntriesOf(w.reported, 0) == [] && EntriesOf(w.reported, 2) == [RaceEntry()]
  {
    hide RaceBytes, HeadBytes, TailBytes, RaceEntry, SlotWatch.Valid, EntriesOf;
    w := FirstReport();
    var crashed := w.Receive(0, RaceBytes(), false, false, 0, false);
    crashed := w.Receive(3, TailBytes(), true, true, 0, false);
  }

  /** And the race that makes claims three transactions for five, and claims it as exact. */
  method ALateLineComesBack() returns (w: SlotWatch, ghost target: Hit, ghost searcher: Hit)
    ensures w.Valid() && w.honest && LeaderSlot(w.tx, w.leader)
    ensures target in w.race.hits && searcher in w.race.hits
    ensures Located(w.race.batches, target) && Located(w.race.batches, searcher)
    ensures var line := LineOf(w.race.batches, target, searcher); line.exact && line.txGap == 3
    ensures var full, whole := FullSpans(w.buffer.accounts), LeaderSpans(w.tx, w.leader);
            && Late(w.race.batches, full)
            && var x, y := Moved(w.race.batches, full, target), Moved(w.race.batches, full, searcher);
               && w.IsTheLeaders(x) && w.IsTheLeaders(y) && Located(whole, x) && Located(whole, y)
               && TransactionsBefore(whole, y) - TransactionsBefore(whole, x) == 5
  {
    hide RaceEntry, SlotWatch.Valid, LeaderSlot, LeaderSpans, FullSpans, RunOf, OneShot, EntriesOf, Located, Late,
         Moved, Tiled, TransactionsBefore, EntriesBefore, Faithful, IsLeader;
    w := ReportedTooSoon();
    SlotIsALeaders(w.tx, w.leader);
    LateBooks(w);
    target, searcher := Hit(Target, 0, 0, 0, Some(7)), Hit(Searcher, 2, 0, 1, Some(8));
    ALateLineFallsShort(w.race.batches, FullSpans(w.buffer.accounts), target, searcher);
    w.LateRaceFallsShort(target, searcher);
  }
}
