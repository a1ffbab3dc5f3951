/** What no race vouches for: a batch that comes to nothing, in any slot, well formed or not. */
module Vouchings {
  import opened Bytes
  import opened Collections
  import opened Codec
  import opened Runs
  import opened Batches
  import opened Pieces
  import opened SlotBuffers
  import opened Races
  import opened Limits
  import opened Watches
  import opened AnyRaces

  /** One reading of the leader's batch yields an entry, or comes to the end of what it announces. */
  ghost predicate Yields(tx: TxCodec, leader: Held, s: nat) {
    var r := OneShot(tx, RunOf(leader, s).data);
    r.entries != [] || r.status.Done?
  }

  ghost predicate ToldWithin(tx: TxCodec, leader: Held, ends: seq<nat>, s: nat) {
    ends != [] ==> s in StartsOf(leader) && Greatest(ends) < RunEnd(leader, s) && Yields(tx, leader, s)
  }

  lemma OneIsWithin(tx: TxCodec, leader: Held, head: seq<DecodedBatch>, log: seq<DecodedBatch>, s: nat)
    requires BackedAt(tx, leader, head + log, s)
    ensures ToldWithin(tx, leader, EndsOf(log, s), s)
  {
    hide OneShot, RunOf, RunEnd, StartsOf, EntriesOf, EndsOf, Greatest;
    PiecesSum(head, log, s);
    if EndsOf(log, s) != [] { GreatestOfBoth(EndsOf(head, s), EndsOf(log, s)); }
  }

  lemma {:induction false} AllAreWithin(tx: TxCodec, leader: Held, heads: seq<seq<DecodedBatch>>,
                                        logs: seq<seq<DecodedBatch>>, s: nat)
    requires Bounded(leader) && AllFair(tx, leader, heads, logs)
    ensures ToldWithin(tx, leader, EndsOf(Flat(logs), s), s)
    decreases |logs|
  {
    hide OneShot, RunOf, RunEnd, StartsOf, EntriesOf, EndsOf, Greatest, FairAt, BackedAt, Yields, LeaderSlot;
    if logs == [] {
      NothingTold(s);
    } else {
      var k := |logs| - 1;
      AllAreWithin(tx, leader, heads[..k], logs[..k], s);
      assert Fair(tx, leader, heads[k] + logs[k]);
      OneIsWithin(tx, leader, heads[k], logs[k], s);
      LastOf(logs, s);
      if EndsOf(Flat(logs), s) != [] { GreatestOfBoth(EndsOf(Flat(logs[..k]), s), EndsOf(logs[k], s)); }
    }
  }

  /** Every batch a race has a span of, whatever was reported and dropped before: it begins where a
      batch of the leader's does, its span stays within that batch, and it is one that yields. */
  lemma SpansAreVouchedFor(w: SlotWatch, s: nat)
    requires w.Valid() && w.honest && Bounded(w.leader) && s in w.race.batches
    ensures s in StartsOf(w.leader) && w.race.batches[s].lastShred < RunEnd(w.leader, s) && Yields(w.tx, w.leader, s)
  {
    hide Tallies, AllFair, Flat, Yields, RunEnd, StartsOf, EndsOf, EntriesOf, SlotWatch.Valid, Greatest;
    WatchIsFair(w);
    AllAreWithin(w.tx, w.leader, HeadsOf(w), LogsOf(w), s);
    KnownByItsEnds(w.wallets, w.race.batches, w.race.hits, Flat(LogsOf(w)), s);
  }

  lemma KnownByItsEnds(wallets: Wallets, batches: map<nat, Span>, hits: seq<Hit>, log: seq<DecodedBatch>, s: nat)
    requires Tallies(wallets, batches, hits, log)
    ensures s in batches <==> EndsOf(log, s) != []
    ensures s in batches ==> batches[s].lastShred == Greatest(EndsOf(log, s))
  {
    assert TalliedAt(wallets, batches, hits, log, s);
  }

  /** No range is called tiled across a batch the race has no span of. */
  lemma NoneIsTiledAcross(w: SlotWatch, s: nat, low: nat, high: nat)
    requires w.Valid() && w.honest && Bounded(w.leader)
    requires s in StartsOf(w.leader) && s !in w.race.batches && low <= s <= high
    ensures !Tiled(w.race.batches, low, high)
  {
    hide RunEnd, StartsOf, Yields, SlotWatch.Valid, Adjacent;
    var batches := w.race.batches;
    if Tiled(batches, low, high) {
      var j := GreatestBelow(batches, low, s);
      SpansAreVouchedFor(w, j);
      BatchStopsShortOf(w.leader, j, s);
      NextIsKnown(batches, j, batches[j].lastShred + 1);
    }
  }

  lemma NextIsKnown(spans: map<nat, Span>, k: nat, next: nat)
    requires Adjacent(spans, k, next)
    ensures next in spans && k < next
  {
  }

  /** A batch the leader wrote that comes to nothing is never on a race's books, and no line between
      two hits on either side of it claims to be exact. */
  lemma NothingIsVouchedFor(w: SlotWatch, s: nat, target: Hit, searcher: Hit)
    requires w.Valid() && w.honest && Bounded(w.leader) && s in StartsOf(w.leader) && !Yields(w.tx, w.leader, s)
    requires target in w.race.hits && searcher in w.race.hits
    ensures s !in w.race.batches && Located(w.race.batches, target) && Located(w.race.batches, searcher)
    ensures Min(target.firstShred, searcher.firstShred) <= s <= Max(target.firstShred, searcher.firstShred) ==>
              !LineOf(w.race.batches, target, searcher).exact
  {
    hide StartsOf, Yields, SlotWatch.Valid, Tallies, Located, Tiled, TransactionsBefore, EntriesBefore;
    HitsAreSomewhere(w, target);
    HitsAreSomewhere(w, searcher);
    if s in w.race.batches { SpansAreVouchedFor(w, s); }
    var low, high := Min(searcher.firstShred, target.firstShred), Max(searcher.firstShred, target.firstShred);
    if low <= s <= high { NoneIsTiledAcross(w, s, low, high); }
  }

  lemma HitsAreSomewhere(w: SlotWatch, hit: Hit)
    requires w.Valid() && w.honest && hit in w.race.hits
    ensures Located(w.race.batches, hit)
  {
    hide Located, Tallies, AllFair, Flat;
    WatchIsFair(w);
    HitsAreWhereTheySay(w.wallets, w.race.batches, w.race.hits, Flat(LogsOf(w)), hit);
  }

  /** Nor, while the buffer in place is the race's only one, is any batch it failed with no entry. */
  lemma FailedIsNotVouchedFor(w: SlotWatch, s: nat)
    requires w.Valid() && w.honest && w.dropped == []
    requires w.buffer.AccountOf(s).verdicts == [Failed] && w.buffer.AccountOf(s).emitted == []
    ensures s in StartsOf(w.leader) && s !in w.race.batches
  {
    hide Booked, Tallies, SlotWatch.Valid, RunOf, OneShot, StartsOf, EndsOf, EntriesOf;
    w.HonestyAgrees();
    w.ValidIsTold();
    ToldFacts(w.tx, w.buffer.held, w.buffer.starts, w.buffer.progress, w.buffer.accounts, w.reported, w.current);
    ToldAt(w.tx, w.buffer.held, w.buffer.starts, w.buffer.progress, w.buffer.accounts, w.reported, w.current, s);
    AgreeingStarts(w.buffer.held, w.leader, s);
    FailedHasNoEnd(w.tx, RunOf(w.buffer.held, s), w.buffer.ProgressOf(s), w.buffer.AccountOf(s));
    KnownByItsEnds(w.wallets, w.race.batches, w.race.hits, w.race.log, s);
  }

  lemma FailedHasNoEnd(tx: TxCodec, run: Run, p: Progress, account: Account)
    requires BatchSound(tx, run, p, account) && account.verdicts == [Failed] && account.emitted == []
    ensures account.ends == []
  {
  }

  // ---------------------------------------------------------------- such a batch

  function NoBatch(): (b: seq<byte>)
    ensures |b| == ENTRY_COUNT && forall i :: 0 <= i < ENTRY_COUNT ==> b[i] == 255
  {
    seq(ENTRY_COUNT, _ => 255)
  }

  lemma NoBatchReads(tx: TxCodec)
    ensures OneShot(tx, NoBatch()) == Reading([], 0, None, Invalid)
  {
    var b := NoBatch();
    assert b[0..0 + ENTRY_COUNT] == b;
    assert FromLE(b) == 255 + 256 * FromLE(b[1..]);
    assert FromLE(b[1..]) == 255 + 256 * FromLE(b[1..][1..]);
  }

  /** It comes, closed by its own shred: given up on, and the race has no span of it. */
  method AFailedBatchIsNotBooked(tx: TxCodec, wallets: Wallets) returns (w: SlotWatch)
    ensures w.Valid() && w.honest && Bounded(w.leader) && 0 in StartsOf(w.leader) && !Yields(w.tx, w.leader, 0)
    ensures w.buffer.AccountOf(0).verdicts == [Failed] && w.buffer.AccountOf(0).emitted == []
    ensures 0 in w.buffer.held && 0 !in w.race.batches
  {
    hide OneShot, RunOf, ExtentOf, NoBatch, SlotWatch.Valid, StartsOf;
    ghost var leader: Held := map[0 := Shred(NoBatch(), true, 0, false)];
    LoneRun(leader, Shred(NoBatch(), true, 0, false));
    ExtentIsTheRun(leader, 0);
    NoBatchReads(tx);
    w := new SlotWatch(tx, wallets, 0, leader);
    var crashed := w.Receive(0, NoBatch(), true, true, 0, false);
    FailedWhole(w);
    FailedIsNotVouchedFor(w, 0);
  }

  lemma FailedWhole(w: SlotWatch)
    requires w.Valid() && w.honest && w.buffer.held == w.leader && Bounded(w.leader)
    requires RunOf(w.leader, 0).openLen <= MAX_BATCH_BYTES
    requires OneShot(w.tx, RunOf(w.leader, 0).data) == Reading([], 0, None, Invalid)
    ensures w.buffer.AccountOf(0).verdicts == [Failed] && w.buffer.AccountOf(0).emitted == []
  {
    hide OneShot, RunOf;
    w.buffer.StoredFacts();
    w.buffer.HandedOverIsTheReading(0);
  }
}
