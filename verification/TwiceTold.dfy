/** A race that outlives its buffer, step by step: the buffer is dropped, shreds come again, entries
    are decoded a second time and told to the same race. */
module TwiceTold {
  import opened Bytes
  import opened Collections
  import opened Codec
  import opened Runs
  import opened Arenas
  import opened Batches
  import opened Pieces
  import opened SlotBuffers
  import opened Races
  import opened Limits
  import opened Watches
  import opened LateRaces
  import opened AnyRaces

  lemma PairHits(s: nat)
    ensures var e := RaceEntry();
            HitsIn(RACE_WALLETS, s, [e, e]) ==
            [Hit(Target, s, 0, 0, Some(7)), Hit(Searcher, s, 0, 1, Some(8)),
             Hit(Target, s, 1, 0, Some(7)), Hit(Searcher, s, 1, 1, Some(8))]
  {
    var e := RaceEntry();
    RaceHits(s);
    assert [e, e][..1] == [e];
    assert HitsInEntry(RACE_WALLETS, s, 1, e.transactions[..1][..0]) == [];
    assert HitsInEntry(RACE_WALLETS, s, 1, e.transactions[..1]) == [Hit(Target, s, 1, 0, Some(7))];
    assert HitsIn(RACE_WALLETS, s, [e, e]) ==
           HitsIn(RACE_WALLETS, s, [e]) + HitsInEntry(RACE_WALLETS, s, 1, e.transactions);
  }

  lemma PairAt(w: SlotWatch, s: nat)
    requires w.Valid() && w.honest && w.Entire() && w.wallets == RACE_WALLETS
    requires EntriesOf(Flat(LogsOf(w)), s) == [RaceEntry(), RaceEntry()]
    ensures Hit(Target, s, 0, 0, Some(7)) in w.race.hits && Hit(Searcher, s, 1, 1, Some(8)) in w.race.hits
  {
    hide AllFair, Flat, EntriesOf, EndsOf, HitsIn, HitsAt, RaceEntry, SlotWatch.Valid, Tallies;
    WatchIsFair(w);
    if EndsOf(Flat(LogsOf(w)), s) == [] { NoEndsNoEntries(Flat(LogsOf(w)), s); }
    TalliedFor(w.wallets, w.race.batches, w.race.hits, Flat(LogsOf(w)), s);
    PairHits(s);
    var found := HitsAt(w.race.hits, s);
    assert found[0] in found && found[3] in found;
    HitsAtAreHits(w.race.hits, s, found[0]);
    HitsAtAreHits(w.race.hits, s, found[3]);
  }

  /** A buffer dropped with the first batch told, and a new one told everything. */
  ghost predicate DroppedOnce(w: SlotWatch)
    reads w, w.buffer, w.race
  {
    && w.Valid() && w.honest && w.Entire()
    && w.tx == TwoByteTransaction && w.wallets == RACE_WALLETS
    && IsLeader(w.leader) && w.buffer.held.Keys == {0, 1, 2, 3}
    && |w.dropped| == 1
    && EntriesOf(w.dropped[0], 0) == [RaceEntry()] && EntriesOf(w.dropped[0], 2) == []
  }

  lemma DroppedLog(logs: seq<seq<DecodedBatch>>)
    requires |logs| == 1
    ensures Flat(logs) == logs[0]
  {
    assert Flat(logs[..0]) == [];
  }

  /** The first batch has been told twice, the second once. */
  lemma TwiceBooks(w: SlotWatch)
    requires DroppedOnce(w)
    ensures LeaderSlot(w.tx, w.leader) && LeaderSpans(w.tx, w.leader).Keys == {0, 2}
    ensures EntriesOf(Flat(LogsOf(w)), 0) == [RaceEntry(), RaceEntry()] == EntriesOf(Flat(LogsOf(w)), 2)
  {
    hide OneShot, RunOf, StartsOf, RaceEntry, AgreesWith, EntriesOf, SlotWatch.Valid, LeaderSlot, LeaderSpans, IsLeader,
         Flat;
    w.HonestyAgrees();
    AllHeld(w.leader, w.buffer.held);
    SlotIsALeaders(w.tx, w.leader);
    BatchesRead(w.tx, w.leader, w.buffer.held);
    Reckoned(w, 0);
    Reckoned(w, 2);
    NothingTold(0);
    NothingTold(2);
    DroppedLog(w.dropped);
    LogsEnd(w, 0);
    LogsEnd(w, 2);
    PairSplits(RaceEntry());
    assert [] + EntriesOf(w.current, 0) == EntriesOf(w.current, 0);
    assert [] + EntriesOf(w.current, 2) == EntriesOf(w.current, 2);
  }

  lemma TwiceSpans(w: SlotWatch)
    requires DroppedOnce(w)
    ensures w.race.batches.Keys == {0, 2}
    ensures w.race.batches[0] == Span(1, [2, 2]) && w.race.batches[2] == Span(3, [2, 2])
    ensures LeaderSpans(w.tx, w.leader).Keys == {0, 2}
    ensures LeaderSpans(w.tx, w.leader)[0] == Span(1, [2]) && LeaderSpans(w.tx, w.leader)[2] == Span(3, [2, 2])
  {
    hide RaceEntry, EntriesOf, SlotWatch.Valid, LeaderSlot, LeaderSpans, IsLeader, Flat, AllFair, Tallies, AgreesWith,
         StartsOf, Longest;
    TwiceBooks(w);
    SlotIsALeaders(w.tx, w.leader);
    w.HonestyAgrees();
    AllHeld(w.leader, w.buffer.held);
    DeliveredReaches(w, 0);
    DeliveredReaches(w, 2);
    PairCounts();
    OnlyLeaders(w);
  }

  /** From the first transaction of all to the last it is five on, and seven is claimed. */
  lemma SevenForFive(batches: map<nat, Span>, whole: map<nat, Span>, target: Hit, searcher: Hit)
    requires batches.Keys == whole.Keys == {0, 2}
    requires batches[0] == Span(1, [2, 2]) && whole[0] == Span(1, [2]) && batches[2] == whole[2] == Span(3, [2, 2])
    requires target == Hit(Target, 0, 0, 0, target.signature) && searcher == Hit(Searcher, 2, 1, 1, searcher.signature)
    ensures Located(batches, target) && Located(batches, searcher) && Tiled(batches, 0, 2)
    ensures Located(whole, target) && Located(whole, searcher)
    ensures TransactionsBefore(batches, searcher) - TransactionsBefore(batches, target) == 7
    ensures TransactionsBefore(whole, searcher) - TransactionsBefore(whole, target) == 5
  {
    hide Total, SumOver, Tiled, TransactionsBefore;
    NextIsTiled(batches);
    BehindNone(batches, target);
    BehindNone(whole, target);
    BehindOne(batches, searcher);
    BehindOne(whole, searcher);
    assert [2, 2][..1] == [2];
    TotalOfOne(2);
    TotalOfTwo(2, 2);
  }

  lemma TotalOfTwo(m: nat, n: nat)
    ensures Total([m, n]) == m + n
  {
    TotalSplits([m], [n]);
    TotalOfOne(m);
    TotalOfOne(n);
    assert [m] + [n] == [m, n];
  }

  lemma NoHeads(w: SlotWatch, s: nat)
    requires w.Entire()
    ensures forall k :: 0 <= k < |HeadsOf(w)| ==> EntriesOf(HeadsOf(w)[k], s) == []
  {
    NothingTold(s);
  }

  /** The race's very first hit, and one of the batch told once, stand where the race has them. */
  lemma BothStand(w: SlotWatch, target: Hit, searcher: Hit)
    requires DroppedOnce(w) && target in w.race.hits && searcher in w.race.hits
    requires target.firstShred == 0 == target.entry && searcher.firstShred == 2
    ensures |HeadsOf(w)| == |LogsOf(w)|
    ensures Standing(HeadsOf(w), LogsOf(w), target) == target && Standing(HeadsOf(w), LogsOf(w), searcher) == searcher
  {
    hide EntriesOf, SlotWatch.Valid, IsLeader, RaceEntry, LeaderSlot, LeaderSpans, AllFair, Tallies, Flat, Longest,
         Head, ToldBefore;
    TwiceBooks(w);
    WatchIsFair(w);
    DroppedLog(w.dropped);
    LogsEnd(w, 2);
    LongestGrows(LogsOf(w), 2);
    LongestFits(LogsOf(w), 2);
    NoHeads(w, 0);
    NoHeads(w, 2);
    OneTellingStands(w.wallets, w.race.batches, w.race.hits, HeadsOf(w), LogsOf(w), searcher);
    OnceHasNoneBefore(HeadsOf(w), LogsOf(w), 0, 0);
  }

  /** The first batch is told, and the buffer dropped. */
  method FirstBuffer() returns (w: SlotWatch)
    ensures fresh(w) && fresh(w.buffer) && fresh(w.race)
    ensures w.Valid() && w.honest && w.Entire()
    ensures w.tx == TwoByteTransaction && w.wallets == RACE_WALLETS && w.leader == LeaderShreds()
    ensures w.buffer.held == map[] && |w.dropped| == 1
    ensures EntriesOf(w.dropped[0], 0) == [RaceEntry()] && EntriesOf(w.dropped[0], 2) == []
  {
    hide RaceBytes, HeadBytes, TailBytes, RaceEntry, SlotWatch.Valid, EntriesOf;
    var tx: TxCodec := Codec.Witness();
    ghost var leader := LeaderShreds();
    assert IsLeader(leader);
    w := new SlotWatch(tx, RACE_WALLETS, 0, leader);
    var crashed := w.Receive(1, [], true, false, 0, false);
    crashed := w.Receive(0, RaceBytes(), false, false, 0, false);
    FirstBooks(w);
    w.Drop();
  }

  /** And then everything comes, again or at last. */
  method BufferDropped() returns (w: SlotWatch)
    ensures DroppedOnce(w)
  {
    hide RaceBytes, HeadBytes, TailBytes, RaceEntry, SlotWatch.Valid, EntriesOf;
    w := FirstBuffer();
    var crashed := w.Receive(0, RaceBytes(), false, false, 0, false);
    crashed := w.Receive(1, [], true, false, 0, false);
    crashed := w.Receive(2, HeadBytes(), false, false, 0, false);
    crashed := w.Receive(3, TailBytes(), true, true, 0, false);
  }

  lemma FirstBooks(w: SlotWatch)
    requires w.Valid() && w.honest && w.reported == [] && w.tx == TwoByteTransaction
    requires IsLeader(w.leader) && w.buffer.held.Keys == {0, 1}
    ensures EntriesOf(w.current, 0) == [RaceEntry()] && EntriesOf(w.current, 2) == []
  {
    hide OneShot, StartsOf, RaceEntry, AgreesWith, EntriesOf, EndsOf, SlotWatch.Valid, RaceBytes, HeadBytes, TailBytes;
    w.HonestyAgrees();
    StartsAre(w.leader, w.buffer.held);
    FirstRun(w.leader, w.buffer.held);
    RaceBytesRead(w.tx);
    NothingReads(w.tx);
    assert Whole(w.buffer.held, 2, 2);
    WholeIsRun(w.buffer.held, 2, 2);
    Reckoned(w, 0);
    Reckoned(w, 2);
    NothingTold(0);
    NothingTold(2);
    assert [] + EntriesOf(w.current, 0) == EntriesOf(w.current, 0);
    assert [] + EntriesOf(w.current, 2) == EntriesOf(w.current, 2);
  }

  /** It happens: a gap of seven, claimed to be exact, where the leader put five. */
  method ATwiceToldLineComesBack() returns (w: SlotWatch, ghost target: Hit, ghost searcher: Hit)
    ensures w.Valid() && w.honest && w.Entire() && LeaderSlot(w.tx, w.leader)
    ensures target in w.race.hits && searcher in w.race.hits
    ensures Located(w.race.batches, target) && Located(w.race.batches, searcher)
    ensures var line := LineOf(w.race.batches, target, searcher); line.exact && line.txGap == 7
    ensures w.IsTheLeaders(target) && w.IsTheLeaders(searcher)
    ensures var whole := LeaderSpans(w.tx, w.leader);
            && Located(whole, target) && Located(whole, searcher)
            && TransactionsBefore(whole, searcher) - TransactionsBefore(whole, target) == 5
  {
    hide RaceEntry, SlotWatch.Valid, LeaderSlot, LeaderSpans, RunOf, OneShot, EntriesOf, Located, Tiled, Flat, Head,
         ToldBefore, TransactionsBefore, EntriesBefore, Faithful, IsLeader, Extra, Precedes, FallsShort;
    w := BufferDropped();
    target, searcher := Hit(Target, 0, 0, 0, Some(7)), Hit(Searcher, 2, 1, 1, Some(8));
    TwiceBooks(w);
    TwiceSpans(w);
    PairAt(w, 0);
    PairAt(w, 2);
    SevenForFive(w.race.batches, LeaderSpans(w.tx, w.leader), target, searcher);
    BothStand(w, target, searcher);
    AnyLineIsRightExactlyWhen(w, target, searcher);
  }
}
