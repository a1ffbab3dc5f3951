/** One slot from the wire to the race: every shred taken in by the slot's buffer, every piece
    it hands over tallied, against the slot as its leader wrote it. */
module Watches {
  import opened Bytes
  import opened Collections
  import opened Codec
  import opened Runs
  import opened Arenas
  import opened Batches
  import opened Caches
  import opened Pieces
  import opened SlotBuffers
  import opened Races
  import opened Limits

  // ---------------------------------------------------------------- the leader's side

  /** A batch that stays within the bound and holds all the entries it announces. */
  ghost predicate WellFormed(tx: TxCodec, run: Run) {
    run.openLen <= MAX_BATCH_BYTES && OneShot(tx, run.data).status.Done?
  }

  /** A slot as its leader wrote it: no index missing, the last one closing a batch, every batch
      well formed. */
  ghost predicate LeaderSlot(tx: TxCodec, leader: Held) {
    && 0 < |leader| <= INDEX_LIMIT
    && (forall i: nat :: i in leader <==> i < |leader|)
    && leader[|leader| - 1].complete
    && forall s {:trigger s in StartsOf(leader)} ::
         s in StartsOf(leader) && s in leader ==> WellFormed(tx, RunOf(leader, s))
  }

  /** The leader's own running order: a span for every batch, with every entry in it. */
  ghost function LeaderSpan(tx: TxCodec, leader: Held, s: nat): Span {
    var end := RunEnd(leader, s);
    Span(if end == 0 then 0 else end - 1, CountsOf(OneShot(tx, RunOf(leader, s).data).entries))
  }

  ghost function LeaderSpans(tx: TxCodec, leader: Held): map<nat, Span> {
    map s | s in StartsOf(leader) && s in leader :: LeaderSpan(tx, leader, s)
  }

  lemma LeaderHolds(tx: TxCodec, leader: Held, i: nat, j: nat)
    requires LeaderSlot(tx, leader) && i in leader && j <= i
    ensures j in leader
  {
  }

  lemma LeaderBatchCloses(tx: TxCodec, leader: Held, s: nat)
    requires LeaderSlot(tx, leader) && s in leader
    ensures var e := RunEnd(leader, s); s < e && e - 1 in leader && leader[e - 1].complete && RunOf(leader, s).complete
  {
    hide OneShot, Cat, RunEnd;
    var e := RunEnd(leader, s);
    assert Whole(leader, s, e);
    assert e > s ==> e - 1 in leader;
  }

  /** The leader's batches do not overlap, and behind each the next begins at once. */
  lemma LeaderBatchesTile(tx: TxCodec, leader: Held)
    requires LeaderSlot(tx, leader)
    ensures Partition(LeaderSpans(tx, leader))
  {
    hide LeaderSlot, OneShot, RunOf, RunEnd, StartsOf;
    var whole := LeaderSpans(tx, leader);
    forall j, k | j in whole && k in whole && j < k
      ensures whole[j].lastShred < k
    {
      LeaderSpanReaches(tx, leader, j);
      BatchStopsShortOf(leader, j, k);
    }
  }

  lemma LeaderSpanReaches(tx: TxCodec, leader: Held, s: nat)
    requires LeaderSlot(tx, leader) && s in leader
    ensures var last := LeaderSpan(tx, leader, s).lastShred;
            s <= last && last + 1 == RunEnd(leader, s) && (last + 1 in leader ==> last + 1 in LeaderSpans(tx, leader))
  {
    hide OneShot, RunOf, RunEnd;
    LeaderBatchCloses(tx, leader, s);
  }

  lemma BatchStopsShortOf(leader: Held, j: nat, k: nat)
    requires k in StartsOf(leader) && j < k
    ensures RunEnd(leader, j) <= k
  {
    hide RunEnd;
    assert k - 1 in leader && leader[k - 1].complete;
    assert Stretch(leader, j, RunEnd(leader, j));
  }

  /** Every index of the slot belongs to the batch containing it. */
  lemma EveryShredHasItsBatch(tx: TxCodec, leader: Held, i: nat)
    requires LeaderSlot(tx, leader) && i in leader
    ensures var s := Containing(StartsOf(leader), i); var whole := LeaderSpans(tx, leader);
            s in whole && s <= i <= whole[s].lastShred
  {
    hide OneShot, RunOf, RunEnd;
    var s := Containing(StartsOf(leader), i);
    LeaderBatchCloses(tx, leader, s);
    var e := RunEnd(leader, s);
    assert e in StartsOf(leader);
    assert e <= i ==> e <= s;
  }

  // ---------------------------------------------------------------- the buffer's side

  lemma RisingEndsAtLast(ends: seq<nat>, limit: nat)
    requires Rising(ends, limit) && ends != []
    ensures Greatest(ends) == ends[|ends| - 1] < limit
  {
    if |ends| > 1 {
      RisingEndsAtLast(ends[..|ends| - 1], limit);
    }
  }

  lemma SameEndSameRun(held: Held, leader: Held, s: nat)
    requires Bounded(held) && Bounded(leader) && AgreesWith(held, leader) && RunEnd(held, s) == RunEnd(leader, s)
    ensures RunOf(held, s).data == RunOf(leader, s).data
  {
    CatSame(held, leader, s, RunEnd(held, s));
  }

  lemma EntriesOfPrefix(a: seq<Entry>, b: seq<Entry>)
    requires a <= b
    ensures CountsOf(a) <= CountsOf(b)
  {
  }

  /** A batch level with its run is known as far as its run goes, and no further. */
  lemma LevelIsWithin(tx: TxCodec, held: Held, leader: Held, s: nat, p: Progress, account: Account)
    requires LeaderSlot(tx, leader) && Bounded(held) && AgreesWith(held, leader)
    requires s in StartsOf(held) && account.ends != []
    requires BatchSound(tx, RunOf(held, s), p, account)
    ensures s in LeaderSpans(tx, leader)
    ensures var span := LeaderSpan(tx, leader, s);
            && CountsOf(account.emitted) <= span.entries
            && Greatest(account.ends) <= span.lastShred
            && (Greatest(account.ends) == span.lastShred ==> CountsOf(account.emitted) == span.entries)
    ensures account.emitted <= OneShot(tx, RunOf(leader, s).data).entries
  {
    hide OneShot, RunEnd, Cat;
    var run, whole := RunOf(held, s), RunOf(leader, s);
    AgreeingRunExtends(held, leader, s);
    AgreeingStarts(held, leader, s);
    EmptyRunReportsNothing(tx, held, s, p, account);
    assert s in leader;
    OneShotGrows(tx, run.data, whole.data);
    assert CaughtUp(tx, run, p, account);
    EntriesOfPrefix(account.emitted, OneShot(tx, whole.data).entries);
    RisingEndsAtLast(account.ends, run.end);
    LeaderBatchCloses(tx, leader, s);
    if run.end == whole.end { SameEndSameRun(held, leader, s); }
  }

  /** Of any slot, well formed or not: a range is told of a batch only within the leader's run of
      it, and only if one reading of that run yields an entry or comes to its end. */
  lemma LevelIsBacked(tx: TxCodec, held: Held, leader: Held, s: nat, p: Progress, account: Account)
    requires Bounded(leader) && Bounded(held) && AgreesWith(held, leader)
    requires s in StartsOf(held) && account.ends != []
    requires BatchSound(tx, RunOf(held, s), p, account)
    ensures s in StartsOf(leader) && Greatest(account.ends) < RunEnd(leader, s)
    ensures var r := OneShot(tx, RunOf(leader, s).data);
            account.emitted <= r.entries && (account.emitted != [] || r.status.Done?)
  {
    hide OneShot, RunEnd, Cat;
    var run, whole := RunOf(held, s), RunOf(leader, s);
    AgreeingRunExtends(held, leader, s);
    AgreeingStarts(held, leader, s);
    OneShotGrows(tx, run.data, whole.data);
    RisingEndsAtLast(account.ends, run.end);
  }

  lemma AgreeingStarts(held: Held, leader: Held, s: nat)
    requires AgreesWith(held, leader) && s in StartsOf(held)
    ensures s in StartsOf(leader)
  {
    if s != 0 { assert s - 1 in leader && leader[s - 1].complete; }
  }

  lemma NothingHeldNothingDue(tx: TxCodec, held: Held, s: nat)
    requires Bounded(held)
    ensures s !in held ==>
              var run := RunOf(held, s);
              |run.data| == run.openLen == 0 && Deserved(tx, run).None? && OneShot(tx, run.data).entries == []
  {
    if s !in held {
      WholeIsRun(held, s, s);
      assert RunOf(held, s).data == [];
    }
  }

  lemma EmptyRunReportsNothing(tx: TxCodec, held: Held, s: nat, p: Progress, account: Account)
    requires Bounded(held) && BatchSound(tx, RunOf(held, s), p, account) && account.ends != []
    ensures s in held
  {
    hide OneShot, RunOf, Deserved;
    NothingHeldNothingDue(tx, held, s);
  }

  lemma CompleteIsReported(tx: TxCodec, run: Run, p: Progress, account: Account)
    requires BatchSound(tx, run, p, account) && run.complete && run.openLen <= MAX_BATCH_BYTES
    requires OneShot(tx, run.data).status.Done?
    ensures account.emitted == OneShot(tx, run.data).entries
    ensures account.ends != [] && Greatest(account.ends) == run.end - 1
  {
    hide OneShot;
    RisingEndsAtLast(account.ends, run.end);
  }

  lemma AgreesBack(held: Held, leader: Held)
    requires AgreesWith(held, leader) && leader.Keys <= held.Keys
    ensures AgreesWith(leader, held)
  {
  }

  /** A batch whose shreds are all in has been reported over its whole range, entries and all. */
  lemma DeliveredIsWhole(tx: TxCodec, held: Held, leader: Held, s: nat, p: Progress, account: Account)
    requires LeaderSlot(tx, leader) && Bounded(held) && AgreesWith(held, leader) && leader.Keys <= held.Keys
    requires s in StartsOf(leader) && s in leader && BatchSound(tx, RunOf(held, s), p, account)
    ensures account.ends != []
    ensures account.emitted == OneShot(tx, RunOf(leader, s).data).entries
    ensures Span(Greatest(account.ends), CountsOf(account.emitted)) == LeaderSpan(tx, leader, s)
  {
    hide OneShot, RunOf, StartsOf, AgreesWith, BatchSound;
    AgreesBack(held, leader);
    SameShredsSameRun(leader, held, s);
    LeaderBatchCloses(tx, leader, s);
    CompleteIsReported(tx, RunOf(held, s), p, account);
    EndOfRun(leader, s);
  }

  lemma EndOfRun(h: Held, s: nat)
    ensures RunOf(h, s).end == RunEnd(h, s)
  {
  }

  /** There are such slots: eight zero bytes in one shred, a batch that announces no entries. */
  lemma SomeSlotIsALeaders(tx: TxCodec, leader: Held)
    requires leader == map[0 := Shred(Zeros(ENTRY_COUNT), true, 0, false)]
    ensures LeaderSlot(tx, leader)
  {
    hide OneShot, ExtentOf, RunOf, Zeros;
    assert leader.Keys == {0};
    LoneRun(leader, Shred(Zeros(ENTRY_COUNT), true, 0, false));
    ZerosAreAMarker(tx, RunOf(leader, 0).data);
    ExtentIsTheRun(leader, 0);
    assert |leader| == 1;
    assert WellFormed(tx, RunOf(leader, 0));
  }

  // ---------------------------------------------------------------- a whole slot, as values

  ghost predicate Logged(accounts: map<nat, Account>, log: seq<DecodedBatch>) {
    forall s: nat :: LoggedAt(accounts, log, s)
  }

  ghost predicate LoggedAt(accounts: map<nat, Account>, log: seq<DecodedBatch>, s: nat) {
    && Looked(accounts, s, NOTHING_YET).emitted == EntriesOf(log, s)
    && Looked(accounts, s, NOTHING_YET).ends == EndsOf(log, s)
  }

  lemma {:induction false} PiecesSum(a: seq<DecodedBatch>, b: seq<DecodedBatch>, s: nat)
    ensures EntriesOf(a + b, s) == EntriesOf(a, s) + EntriesOf(b, s)
    ensures EndsOf(a + b, s) == EndsOf(a, s) + EndsOf(b, s)
    decreases |b|
  {
    if b == [] {
      assert a + b == a;
    } else {
      assert (a + b)[..|a + b| - 1] == a + b[..|b| - 1];
      PiecesSum(a, b[..|b| - 1], s);
    }
  }

  lemma TakingOneMore(log: seq<DecodedBatch>, pieces: seq<DecodedBatch>, k: nat)
    requires k < |pieces|
    ensures (log + pieces[..k]) + [pieces[k]] == log + pieces[..k + 1]
  {
  }

  lemma NothingLogged(accounts: map<nat, Account>, log: seq<DecodedBatch>)
    requires accounts == map[] && log == []
    ensures Logged(accounts, log)
  {
    forall s: nat
      ensures LoggedAt(accounts, log, s)
    {
    }
  }

  lemma LoggingMore(before: map<nat, Account>, after: map<nat, Account>, log: seq<DecodedBatch>,
                    pieces: seq<DecodedBatch>)
    requires Logged(before, log) && Handed(before, after, pieces)
    ensures Logged(after, log + pieces)
  {
    hide EntriesOf, EndsOf;
    var logged := log + pieces;
    forall s: nat
      ensures LoggedAt(after, logged, s)
    {
      assert LoggedAt(before, log, s);
      PiecesSum(log, pieces, s);
    }
  }

  /** A slot's buffer between shreds, with every piece it ever handed over in the race's books. */
  ghost predicate Tracked(tx: TxCodec, held: Held, starts: set<nat>, progress: map<nat, Progress>,
                          accounts: map<nat, Account>,
                          wallets: Wallets, batches: map<nat, Span>, hits: seq<Hit>, log: seq<DecodedBatch>)
  {
    && Bounded(held) && starts == StartsOf(held)
    && accounts.Keys <= progress.Keys <= starts
    && LevelBut(tx, held, starts, progress, accounts, [])
    && Logged(accounts, log)
    && Tallies(wallets, batches, hits, log)
  }

  lemma TrackedAt(tx: TxCodec, held: Held, starts: set<nat>, progress: map<nat, Progress>, accounts: map<nat, Account>,
                  wallets: Wallets, batches: map<nat, Span>, hits: seq<Hit>, log: seq<DecodedBatch>, s: nat)
    requires Tracked(tx, held, starts, progress, accounts, wallets, batches, hits, log)
    ensures var account := Looked(accounts, s, NOTHING_YET);
            && (s in batches <==> account.ends != [])
            && (s in batches ==> s in starts && batches[s] == Span(Greatest(account.ends), CountsOf(account.emitted)))
            && HitsAt(hits, s) == HitsIn(wallets, s, account.emitted)
            && (s in starts ==> BatchSound(tx, RunOf(held, s), Looked(progress, s, UNREAD), account))
  {
    hide BatchSound, EntriesOf, EndsOf, HitsAt, HitsIn;
    assert LoggedAt(accounts, log, s);
    assert TalliedAt(wallets, batches, hits, log, s);
  }

  /** However much of the slot has come in, and in whatever order, what the race has on its
      books is part of the leader's own order. */
  lemma BooksAreWithin(tx: TxCodec, leader: Held, held: Held, starts: set<nat>, progress: map<nat, Progress>,
                       accounts: map<nat, Account>, wallets: Wallets, batches: map<nat, Span>, hits: seq<Hit>,
                       log: seq<DecodedBatch>)
    requires LeaderSlot(tx, leader) && AgreesWith(held, leader)
    requires Tracked(tx, held, starts, progress, accounts, wallets, batches, hits, log)
    ensures Within(batches, LeaderSpans(tx, leader)) && Partition(LeaderSpans(tx, leader))
  {
    hide LeaderSlot, LevelBut, Logged, Tallies, LeaderSpan, BatchSound, HitsAt, StartsOf, RunOf, Partition;
    LeaderBatchesTile(tx, leader);
    forall s | s in batches
      ensures s in LeaderSpans(tx, leader)
      ensures var span := LeaderSpan(tx, leader, s);
              && batches[s].entries <= span.entries && batches[s].lastShred <= span.lastShred
              && (batches[s].lastShred == span.lastShred ==> batches[s].entries == span.entries)
    {
      TrackedAt(tx, held, starts, progress, accounts, wallets, batches, hits, log, s);
      LevelIsWithin(tx, held, leader, s, Looked(progress, s, UNREAD), Looked(accounts, s, NOTHING_YET));
    }
  }

  lemma FaithfulGrows(wallets: Wallets, first: nat, small: seq<Entry>, big: seq<Entry>, hit: Hit)
    requires small <= big && Faithful(wallets, first, small, hit)
    ensures Faithful(wallets, first, big, hit)
  {
  }

  /** Every hit on the books is a watched wallet's transaction, at the place in the slot where
      the leader put it. */
  lemma HitsAreTheLeaders(tx: TxCodec, leader: Held, held: Held, starts: set<nat>, progress: map<nat, Progress>,
                          accounts: map<nat, Account>, wallets: Wallets, batches: map<nat, Span>, hits: seq<Hit>,
                          log: seq<DecodedBatch>, hit: Hit)
    requires LeaderSlot(tx, leader) && AgreesWith(held, leader)
    requires Tracked(tx, held, starts, progress, accounts, wallets, batches, hits, log) && hit in hits
    ensures Located(batches, hit)
    ensures Faithful(wallets, hit.firstShred, OneShot(tx, RunOf(leader, hit.firstShred).data).entries, hit)
  {
    hide LeaderSlot, LevelBut, Tallies, BatchSound, HitsAt, StartsOf, RunOf, Located, Faithful, OneShot, EntriesOf,
         EndsOf;
    var s := hit.firstShred;
    HitsAreWhereTheySay(wallets, batches, hits, log, hit);
    assert LoggedAt(accounts, log, s);
    LocatedIn(batches, hit);
    TrackedAt(tx, held, starts, progress, accounts, wallets, batches, hits, log, s);
    var account := Looked(accounts, s, NOTHING_YET);
    LevelIsWithin(tx, held, leader, s, Looked(progress, s, UNREAD), account);
    FaithfulGrows(wallets, s, account.emitted, OneShot(tx, RunOf(leader, s).data).entries, hit);
  }

  lemma LocatedIn(spans: map<nat, Span>, hit: Hit)
    requires Located(spans, hit)
    ensures hit.firstShred in spans
  {
  }

  /** Every shred in, the books are the leader's order itself: each batch over its whole range
      with every entry, each watched transaction once, and no hole anywhere. */
  lemma DeliveredBooksAreWhole(tx: TxCodec, leader: Held, held: Held, starts: set<nat>, progress: map<nat, Progress>,
                               accounts: map<nat, Account>, wallets: Wallets, batches: map<nat, Span>, hits: seq<Hit>,
                               log: seq<DecodedBatch>)
    requires LeaderSlot(tx, leader) && AgreesWith(held, leader) && leader.Keys <= held.Keys
    requires Tracked(tx, held, starts, progress, accounts, wallets, batches, hits, log)
    ensures batches == LeaderSpans(tx, leader)
    ensures forall s :: s in batches ==>
              HitsAt(hits, s) == HitsIn(wallets, s, OneShot(tx, RunOf(leader, s).data).entries)
    ensures forall low, high :: low in batches && high in batches && low <= high ==> Tiled(batches, low, high)
  {
    hide LeaderSlot, LevelBut, Logged, Tallies, LeaderSpan, BatchSound, HitsAt, HitsIn, StartsOf, RunOf, OneShot, Tiled,
         Partition, Within;
    var whole := LeaderSpans(tx, leader);
    BooksAreWithin(tx, leader, held, starts, progress, accounts, wallets, batches, hits, log);
    WithinKeys(batches, whole);
    forall s | s in whole
      ensures s in batches && batches[s] == whole[s]
      ensures HitsAt(hits, s) == HitsIn(wallets, s, OneShot(tx, RunOf(leader, s).data).entries)
    {
      LeaderStartIsHeldStart(leader, held, s);
      TrackedAt(tx, held, starts, progress, accounts, wallets, batches, hits, log, s);
      DeliveredIsWhole(tx, held, leader, s, Looked(progress, s, UNREAD), Looked(accounts, s, NOTHING_YET));
    }
    assert batches == whole;
    forall low, high | low in batches && high in batches && low <= high
      ensures Tiled(batches, low, high)
    {
      WholeIsTiled(tx, leader, low, high);
    }
  }

  lemma LeaderStartIsHeldStart(leader: Held, held: Held, s: nat)
    requires AgreesWith(held, leader) && leader.Keys <= held.Keys && s in StartsOf(leader)
    ensures s in StartsOf(held)
  {
    if s != 0 { assert s - 1 in held && held[s - 1].complete; }
  }

  lemma NextFollows(tx: TxCodec, leader: Held, k: nat, high: nat)
    requires LeaderSlot(tx, leader) && k < high
    requires k in LeaderSpans(tx, leader) && high in LeaderSpans(tx, leader)
    ensures var whole := LeaderSpans(tx, leader);
            whole[k].lastShred < high && Adjacent(whole, k, whole[k].lastShred + 1)
  {
    hide LeaderSlot, LeaderSpan, StartsOf;
    var whole := LeaderSpans(tx, leader);
    LeaderBatchesTile(tx, leader);
    LeaderSpanReaches(tx, leader, k);
    LeaderHolds(tx, leader, high, whole[k].lastShred + 1);
  }

  lemma WholeIsTiled(tx: TxCodec, leader: Held, low: nat, high: nat)
    requires LeaderSlot(tx, leader) && low <= high
    requires low in LeaderSpans(tx, leader) && high in LeaderSpans(tx, leader)
    ensures Tiled(LeaderSpans(tx, leader), low, high)
  {
    hide LeaderSlot, LeaderSpans, Adjacent;
    var whole := LeaderSpans(tx, leader);
    forall k | k in whole && low <= k < high
      ensures whole[k].lastShred < high && Adjacent(whole, k, whole[k].lastShred + 1)
    {
      NextFollows(tx, leader, k, high);
    }
  }

  lemma NothingAgrees(held: Held, leader: Held)
    requires held == map[]
    ensures AgreesWith(held, leader)
  {
  }

  lemma StillAgrees(held: Held, leader: Held, index: nat, shred: Shred)
    requires AgreesWith(held, leader) && index in leader
    requires shred.data == leader[index].data && shred.complete == leader[index].complete
    ensures AgreesWith(held[index := shred], leader)
    ensures index in held ==> shred.data == held[index].data && shred.complete == held[index].complete
  {
  }

  /** The race's share of an insert: each piece in turn. */
  method TallyAll(race: Slot, pieces: seq<DecodedBatch>)
    requires race.Valid()
    modifies race
    ensures race.Valid() && race.log == old(race.log) + pieces
  {
    hide Tallies, HitsIn;
    assert old(race.log) + [] == old(race.log);
    for k := 0 to |pieces|
      invariant race.Valid() && race.log == old(race.log) + pieces[..k]
    {
      var found := FindHits(race.wallets, pieces[k]);
      race.Add(pieces[k], found);
      TakingOneMore(old(race.log), pieces, k);
    }
    assert pieces[..|pieces|] == pieces;
  }

  // ---------------------------------------------------------------- a slot reported and heard of again

  /** A gap measured, the leader's own, and what was missed: never more than is left, and all of
      that when it claims to be exact. */
  ghost predicate FallsShort(gap: int, leaders: int, missed: nat, exact: bool) {
    0 <= gap <= leaders - missed && (exact ==> gap == leaders - missed)
  }

  /** Everything ever handed over for the slot, as spans. */
  ghost function FullSpans(accounts: map<nat, Account>): map<nat, Span> {
    map s | s in accounts && accounts[s].ends != [] :: Span(Greatest(accounts[s].ends), CountsOf(accounts[s].emitted))
  }

  /** A slot's buffer between shreds, its pieces told first to races reported and then to this. */
  ghost predicate Booked(tx: TxCodec, held: Held, starts: set<nat>, progress: map<nat, Progress>,
                       accounts: map<nat, Account>, reported: seq<DecodedBatch>, log: seq<DecodedBatch>)
  {
    && Bounded(held) && starts == StartsOf(held)
    && accounts.Keys <= progress.Keys <= starts
    && LevelBut(tx, held, starts, progress, accounts, [])
    && Logged(accounts, reported + log)
  }

  lemma ToldAt(tx: TxCodec, held: Held, starts: set<nat>, progress: map<nat, Progress>, accounts: map<nat, Account>,
               reported: seq<DecodedBatch>, log: seq<DecodedBatch>, s: nat)
    requires Booked(tx, held, starts, progress, accounts, reported, log)
    ensures var account := Looked(accounts, s, NOTHING_YET);
            && account.emitted == EntriesOf(reported, s) + EntriesOf(log, s)
            && account.ends == EndsOf(reported, s) + EndsOf(log, s)
            && (s in accounts ==> s in starts)
            && (s in starts ==> BatchSound(tx, RunOf(held, s), Looked(progress, s, UNREAD), account))
  {
    hide BatchSound, EntriesOf, EndsOf;
    assert LoggedAt(accounts, reported + log, s);
    PiecesSum(reported, log, s);
  }

  lemma ToldIsWithin(tx: TxCodec, leader: Held, held: Held, starts: set<nat>, progress: map<nat, Progress>,
                     accounts: map<nat, Account>, reported: seq<DecodedBatch>, log: seq<DecodedBatch>)
    requires LeaderSlot(tx, leader) && AgreesWith(held, leader)
    requires Booked(tx, held, starts, progress, accounts, reported, log)
    ensures Within(FullSpans(accounts), LeaderSpans(tx, leader)) && Partition(LeaderSpans(tx, leader))
  {
    hide LeaderSlot, LevelBut, Logged, LeaderSpan, BatchSound, StartsOf, RunOf, Partition;
    LeaderBatchesTile(tx, leader);
    var full := FullSpans(accounts);
    forall s | s in full
      ensures s in LeaderSpans(tx, leader)
      ensures var span := LeaderSpan(tx, leader, s);
              && full[s].entries <= span.entries && full[s].lastShred <= span.lastShred
              && (full[s].lastShred == span.lastShred ==> full[s].entries == span.entries)
    {
      ToldAt(tx, held, starts, progress, accounts, reported, log, s);
      LevelIsWithin(tx, held, leader, s, Looked(progress, s, UNREAD), Looked(accounts, s, NOTHING_YET));
    }
  }

  lemma RisingTail(a: seq<nat>, b: seq<nat>, limit: nat)
    requires Rising(a + b, limit) && b != []
    ensures Greatest(a + b) == Greatest(b)
  {
    var all := a + b;
    RisingEndsAtLast(all, limit);
    forall j, k | 0 <= j < k < |b|
      ensures b[j] <= b[k]
    {
      assert all[|a| + j] <= all[|a| + k];
    }
    forall k | 0 <= k < |b|
      ensures b[k] < limit
    {
      assert all[|a| + k] < limit;
    }
    RisingEndsAtLast(b, limit);
  }

  lemma SoundEndsRise(tx: TxCodec, run: Run, p: Progress, account: Account)
    requires BatchSound(tx, run, p, account)
    ensures Rising(account.ends, run.end)
  {
  }

  /** How many of a batch's entries this race was told of comes behind those told before. */
  lemma RestAt(tx: TxCodec, held: Held, starts: set<nat>, progress: map<nat, Progress>, accounts: map<nat, Account>,
               reported: seq<DecodedBatch>, log: seq<DecodedBatch>, wallets: Wallets, batches: map<nat, Span>,
               hits: seq<Hit>, s: nat)
    requires Booked(tx, held, starts, progress, accounts, reported, log)
    requires Tallies(wallets, batches, hits, log) && s in batches
    ensures var full := FullSpans(accounts);
            && s in full && batches[s].lastShred == full[s].lastShred
            && full[s].entries == CountsOf(EntriesOf(reported, s)) + batches[s].entries
            && batches[s].entries == CountsOf(EntriesOf(log, s))
  {
    hide BatchSound, EntriesOf, EndsOf, LevelBut, Logged, RunOf, StartsOf;
    assert TalliedAt(wallets, batches, hits, log, s);
    ToldAt(tx, held, starts, progress, accounts, reported, log, s);
    var account := Looked(accounts, s, NOTHING_YET);
    SoundEndsRise(tx, RunOf(held, s), Looked(progress, s, UNREAD), account);
    RisingTail(EndsOf(reported, s), EndsOf(log, s), RunOf(held, s).end);
    assert CountsOf(account.emitted) == CountsOf(EntriesOf(reported, s)) + CountsOf(EntriesOf(log, s));
  }

  lemma RestIsLate(tx: TxCodec, held: Held, starts: set<nat>, progress: map<nat, Progress>, accounts: map<nat, Account>,
                   reported: seq<DecodedBatch>, log: seq<DecodedBatch>, wallets: Wallets, batches: map<nat, Span>,
                   hits: seq<Hit>)
    requires Booked(tx, held, starts, progress, accounts, reported, log) && Tallies(wallets, batches, hits, log)
    ensures Late(batches, FullSpans(accounts))
  {
    hide Booked, Tallies, FullSpans, EntriesOf;
    var full := FullSpans(accounts);
    forall s | s in batches
      ensures s in full && batches[s].lastShred == full[s].lastShred
      ensures |batches[s].entries| <= |full[s].entries|
      ensures batches[s].entries == full[s].entries[|full[s].entries| - |batches[s].entries|..]
    {
      RestAt(tx, held, starts, progress, accounts, reported, log, wallets, batches, hits, s);
    }
  }

  lemma FaithfulBehind(wallets: Wallets, first: nat, head: seq<Entry>, rest: seq<Entry>, all: seq<Entry>, hit: Hit)
    requires Faithful(wallets, first, rest, hit) && head + rest <= all
    ensures Faithful(wallets, first, all, hit.(entry := |head| + hit.entry))
  {
    assert all[|head| + hit.entry] == (head + rest)[|head| + hit.entry];
  }

  lemma LateHitIsTheLeaders(tx: TxCodec, leader: Held, held: Held, starts: set<nat>, progress: map<nat, Progress>,
                            accounts: map<nat, Account>, reported: seq<DecodedBatch>, log: seq<DecodedBatch>,
                            wallets: Wallets, batches: map<nat, Span>, hits: seq<Hit>, hit: Hit)
    requires LeaderSlot(tx, leader) && AgreesWith(held, leader)
    requires Booked(tx, held, starts, progress, accounts, reported, log)
    requires Tallies(wallets, batches, hits, log) && hit in hits
    ensures Located(batches, hit) && Late(batches, FullSpans(accounts))
    ensures Faithful(wallets, hit.firstShred, OneShot(tx, RunOf(leader, hit.firstShred).data).entries,
                     Moved(batches, FullSpans(accounts), hit))
  {
    hide LeaderSlot, Tallies, BatchSound, StartsOf, RunOf, Located, Faithful, OneShot, EntriesOf, EndsOf, Booked,
         FullSpans, Late, Moved, AgreesWith;
    var s := hit.firstShred;
    HitsAreWhereTheySay(wallets, batches, hits, log, hit);
    LocatedIn(batches, hit);
    RestIsLate(tx, held, starts, progress, accounts, reported, log, wallets, batches, hits);
    RestAt(tx, held, starts, progress, accounts, reported, log, wallets, batches, hits, s);
    BatchOnBooks(accounts, s);
    ToldAt(tx, held, starts, progress, accounts, reported, log, s);
    ToldFacts(tx, held, starts, progress, accounts, reported, log);
    var account := Looked(accounts, s, NOTHING_YET);
    LevelIsWithin(tx, held, leader, s, Looked(progress, s, UNREAD), account);
    FaithfulBehind(wallets, s, EntriesOf(reported, s), EntriesOf(log, s), OneShot(tx, RunOf(leader, s).data).entries,
                   hit);
    MovedBy(batches, FullSpans(accounts), hit, |EntriesOf(reported, s)|);
  }

  lemma MovedBy(late: map<nat, Span>, full: map<nat, Span>, hit: Hit, told: nat)
    requires Late(late, full) && hit.firstShred in late
    requires |full[hit.firstShred].entries| == told + |late[hit.firstShred].entries|
    ensures Moved(late, full, hit) == hit.(entry := told + hit.entry)
  {
  }

  lemma BatchOnBooks(accounts: map<nat, Account>, s: nat)
    requires s in FullSpans(accounts)
    ensures s in accounts && accounts[s].ends != []
  {
  }

  lemma ToldFacts(tx: TxCodec, held: Held, starts: set<nat>, progress: map<nat, Progress>, accounts: map<nat, Account>,
                  reported: seq<DecodedBatch>, log: seq<DecodedBatch>)
    requires Booked(tx, held, starts, progress, accounts, reported, log)
    ensures Bounded(held) && starts == StartsOf(held)
  {
  }

  // ---------------------------------------------------------------- a slot whose buffer was dropped

  /** What each of these buffers told, one behind the other. */
  ghost function Flat(logs: seq<seq<DecodedBatch>>): seq<DecodedBatch> {
    if logs == [] then [] else Flat(logs[..|logs| - 1]) + logs[|logs| - 1]
  }

  /** All one buffer told of a slot, from the beginning, is the leader's as far as it goes. */
  ghost predicate FairAt(tx: TxCodec, leader: Held, log: seq<DecodedBatch>, s: nat) {
    EndsOf(log, s) != [] ==>
      && s in LeaderSpans(tx, leader)
      && EntriesOf(log, s) <= OneShot(tx, RunOf(leader, s).data).entries
      && var span := LeaderSpan(tx, leader, s);
         && CountsOf(EntriesOf(log, s)) <= span.entries
         && Greatest(EndsOf(log, s)) <= span.lastShred
         && (Greatest(EndsOf(log, s)) == span.lastShred ==> CountsOf(EntriesOf(log, s)) == span.entries)
  }

  /** Whatever kind of slot it is, no range one buffer told is of a batch that comes to nothing. */
  ghost predicate BackedAt(tx: TxCodec, leader: Held, log: seq<DecodedBatch>, s: nat) {
    EndsOf(log, s) != [] ==>
      && s in StartsOf(leader) && Greatest(EndsOf(log, s)) < RunEnd(leader, s)
      && var r := OneShot(tx, RunOf(leader, s).data);
         EntriesOf(log, s) <= r.entries && (EntriesOf(log, s) != [] || r.status.Done?)
  }

  ghost predicate Backed(tx: TxCodec, leader: Held, log: seq<DecodedBatch>) {
    Bounded(leader) ==> forall s: nat :: BackedAt(tx, leader, log, s)
  }

  ghost predicate Fair(tx: TxCodec, leader: Held, log: seq<DecodedBatch>) {
    Backed(tx, leader, log) && (LeaderSlot(tx, leader) ==> forall s: nat :: FairAt(tx, leader, log, s))
  }

  /** Each of these buffers told its head to races reported before, and then its log to this. */
  ghost predicate AllFair(tx: TxCodec, leader: Held, heads: seq<seq<DecodedBatch>>, logs: seq<seq<DecodedBatch>>) {
    |heads| == |logs| && forall k :: 0 <= k < |logs| ==> Fair(tx, leader, heads[k] + logs[k])
  }

  lemma LogIsFair(tx: TxCodec, leader: Held, held: Held, starts: set<nat>, progress: map<nat, Progress>,
                  accounts: map<nat, Account>, head: seq<DecodedBatch>, log: seq<DecodedBatch>)
    requires AgreesWith(held, leader) && Booked(tx, held, starts, progress, accounts, head, log)
    ensures Fair(tx, leader, head + log)
  {
    hide LeaderSlot, Booked, FairAt, BackedAt, AgreesWith;
    if Bounded(leader) {
      forall s: nat
        ensures BackedAt(tx, leader, head + log, s)
      {
        BatchIsBacked(tx, leader, held, starts, progress, accounts, head, log, s);
      }
    }
    if LeaderSlot(tx, leader) {
      forall s: nat
        ensures FairAt(tx, leader, head + log, s)
      {
        BatchIsFair(tx, leader, held, starts, progress, accounts, head, log, s);
      }
    }
  }

  lemma BatchIsFair(tx: TxCodec, leader: Held, held: Held, starts: set<nat>, progress: map<nat, Progress>,
                    accounts: map<nat, Account>, head: seq<DecodedBatch>, log: seq<DecodedBatch>, s: nat)
    requires LeaderSlot(tx, leader) && AgreesWith(held, leader)
    requires Booked(tx, held, starts, progress, accounts, head, log)
    ensures FairAt(tx, leader, head + log, s)
  {
    hide LeaderSlot, Booked, StartsOf, RunOf, OneShot, BatchSound, LeaderSpan, LeaderSpans, EntriesOf, EndsOf,
         AgreesWith;
    ToldFacts(tx, held, starts, progress, accounts, head, log);
    ToldAt(tx, held, starts, progress, accounts, head, log, s);
    PiecesSum(head, log, s);
    if EndsOf(head + log, s) != [] {
      EndsAreOfABatch(accounts, s);
      LevelIsWithin(tx, held, leader, s, Looked(progress, s, UNREAD), Looked(accounts, s, NOTHING_YET));
    }
  }

  lemma BatchIsBacked(tx: TxCodec, leader: Held, held: Held, starts: set<nat>, progress: map<nat, Progress>,
                      accounts: map<nat, Account>, head: seq<DecodedBatch>, log: seq<DecodedBatch>, s: nat)
    requires Bounded(leader) && AgreesWith(held, leader)
    requires Booked(tx, held, starts, progress, accounts, head, log)
    ensures BackedAt(tx, leader, head + log, s)
  {
    hide Booked, StartsOf, RunOf, RunEnd, OneShot, BatchSound, EntriesOf, EndsOf, AgreesWith;
    ToldFacts(tx, held, starts, progress, accounts, head, log);
    ToldAt(tx, held, starts, progress, accounts, head, log, s);
    PiecesSum(head, log, s);
    if EndsOf(head + log, s) != [] {
      EndsAreOfABatch(accounts, s);
      LevelIsBacked(tx, held, leader, s, Looked(progress, s, UNREAD), Looked(accounts, s, NOTHING_YET));
    }
  }

  lemma EndsAreOfABatch(accounts: map<nat, Account>, s: nat)
    requires Looked(accounts, s, NOTHING_YET).ends != []
    ensures s in accounts
  {
  }

  lemma NothingTold(s: nat)
    ensures EntriesOf([], s) == [] && EndsOf([], s) == []
  {
  }

  lemma AllFairMore(tx: TxCodec, leader: Held, heads: seq<seq<DecodedBatch>>, logs: seq<seq<DecodedBatch>>,
                    head: seq<DecodedBatch>, log: seq<DecodedBatch>)
    requires AllFair(tx, leader, heads, logs) && Fair(tx, leader, head + log)
    ensures AllFair(tx, leader, heads + [head], logs + [log])
  {
    hide Fair;
  }

  lemma NothingDropped(tx: TxCodec, leader: Held, heads: seq<seq<DecodedBatch>>, logs: seq<seq<DecodedBatch>>)
    requires heads == logs == []
    ensures AllFair(tx, leader, heads, logs) && Flat(logs) == []
  {
  }

  lemma FlatMore(logs: seq<seq<DecodedBatch>>, log: seq<DecodedBatch>)
    ensures Flat(logs + [log]) == Flat(logs) + log
  {
    assert (logs + [log])[..|logs|] == logs;
  }

  // ---------------------------------------------------------------- the slot itself

  /** A slot's buffer and its race, with nothing between them but the pieces. Either can go before
      the other: the race when it is reported, the buffer when its map ages it out or is full. */
  class SlotWatch {
    const tx: TxCodec
    const wallets: Wallets
    var buffer: SlotBuffer
    var race: Slot
    ghost const leader: Held
    /** Every copy of a shred delivered was the leader's own. */
    ghost var honest: bool
    /** The pieces this buffer told to races of the slot already reported, and to this one. */
    ghost var reported: seq<DecodedBatch>
    ghost var current: seq<DecodedBatch>
    /** What each buffer dropped before told to races reported, and what then to this. */
    ghost var heads: seq<seq<DecodedBatch>>
    ghost var dropped: seq<seq<DecodedBatch>>

    constructor (tx: TxCodec, wallets: Wallets, ghost slot: nat, ghost leader: Held)
      ensures Valid() && fresh(buffer) && fresh(race) && honest && Unbroken()
      ensures this.leader == leader && this.tx == tx && this.wallets == wallets && buffer.held == map[]
    {
      buffer := new SlotBuffer(tx, slot);
      race := new Slot(wallets, slot);
      this.tx, this.wallets, this.leader := tx, wallets, leader;
      honest, reported, current, heads, dropped := true, [], [], [], [];
      new;
      hide Logged, LevelBut, Accounted, CoherentWith, Tallies, AllFair, Flat;
      NothingLogged(buffer.accounts, reported + current);
      NothingDropped(tx, leader, heads, dropped);
      NothingAgrees(buffer.held, leader);
    }

    ghost predicate Valid()
      reads this, buffer, race
    {
      && buffer.Valid() && buffer.tx == tx && race.Valid() && race.wallets == wallets
      && race.log == Flat(dropped) + current
      && Logged(buffer.accounts, reported + current)
      && (honest ==> buffer.agreed && AgreesWith(buffer.held, leader))
      && |heads| == |dropped| && (honest ==> AllFair(tx, leader, heads, dropped))
    }

    /** The race has all its buffer ever told, and no other buffer told it anything. */
    ghost predicate Unbroken()
      reads this
    {
      reported == [] && heads == dropped == []
    }

    /** No buffer that told this race had told another before. */
    ghost predicate Entire()
      reads this
    {
      reported == [] && forall k :: 0 <= k < |heads| ==> heads[k] == []
    }

    lemma ValidIsTracked()
      requires Valid() && honest && Unbroken()
      ensures Tracked(tx, buffer.held, buffer.starts, buffer.progress, buffer.accounts,
                      wallets, race.batches, race.hits, race.log)
    {
      hide LevelBut, Logged, Tallies, AgreesWith, AllFair;
      buffer.StoredFacts();
      assert reported + current == current == race.log;
    }

    lemma ValidIsTold()
      requires Valid() && honest
      ensures Booked(tx, buffer.held, buffer.starts, buffer.progress, buffer.accounts, reported, current)
      ensures Tallies(wallets, race.batches, race.hits, race.log) && race.log == Flat(dropped) + current
      ensures dropped == [] ==> race.log == current
    {
      hide LevelBut, Logged, Tallies, AgreesWith, AllFair;
      buffer.StoredFacts();
    }

    /** One copy of one shred, whenever it comes: taken in, decoded as far as it lets the slot
        be, and every piece that yields tallied in order. */
    method Receive(index: nat, data: seq<byte>, complete: bool, lastInSlot: bool, received: nat, recovered: bool)
      returns (crashed: bool)
      requires Valid() && index < INDEX_LIMIT
      modifies this`honest, this`current, buffer, race
      ensures Valid()
      ensures honest == (old(honest) && index in leader
                         && data == leader[index].data && complete == leader[index].complete)
      ensures honest ==> !crashed
      ensures buffer.held == old(buffer.held)[index := Shred(data, complete, received, recovered)]
    {
      hide Logged, LevelBut, Accounted, CoherentWith, Tallies, Handed, AgreesWith, AllFair, Flat, PassedOver,
           AnyCrashes, Forgotten, Candidates;
      assert (buffer as object) != this && (race as object) != this && (buffer as object) != race;
      ghost var still := honest && index in leader && data == leader[index].data && complete == leader[index].complete;
      if still { StillAgrees(buffer.held, leader, index, Shred(data, complete, received, recovered)); }
      var duplicate, pieces;
      duplicate, pieces, crashed := buffer.Take(index, data, complete, lastInSlot, received, recovered);
      LoggingMore(old(buffer.accounts), buffer.accounts, reported + current, pieces);
      Regrouped(reported, current, pieces);
      Regrouped(Flat(dropped), current, pieces);
      TallyAll(race, pieces);
      honest, current := still, current + pieces;
    }

    /** The slot has been quiet: its race is reported and gone, and what still comes begins
        another. The buffer, which is kept far longer, goes on where it was. */
    method Settle() returns (report: Report)
      requires Valid()
      modifies this`race, this`reported, this`current, this`heads, this`dropped
      ensures Valid() && fresh(race) && race.log == [] && reported == old(reported + current) && current == []
      ensures heads == dropped == []
      ensures AllLocated(old(race.batches), old(race.hits)) && report == ReportOf(old(race.batches), old(race.hits))
      ensures Tells(old(race.batches), old(race.hits), report)
    {
      hide Tells, Logged, LevelBut, Accounted, CoherentWith, Tallies, AgreesWith, ReportOf, AllLocated, AllFair;
      report := race.Report();
      ghost var told := reported + current;
      race := new Slot(wallets, race.slot);
      reported, current, heads, dropped := told, [], [], [];
      NothingDropped(tx, leader, heads, dropped);
      assert reported + current == told;
    }

    /** The buffer is dropped with the race unsettled: shreds that come again fill a new one, and
        what it decodes again is told to the same race again. */
    method Drop()
      requires Valid()
      modifies this`buffer, this`reported, this`current, this`heads, this`dropped
      ensures Valid() && fresh(buffer) && buffer.held == map[]
      ensures reported == [] && current == [] && dropped == old(dropped + [current])
      ensures heads == old(heads + [reported])
    {
      hide Logged, LevelBut, Accounted, CoherentWith, Tallies, AgreesWith, AllFair, Fair, Booked, Flat;
      if honest {
        ValidIsTold();
        LogIsFair(tx, leader, buffer.held, buffer.starts, buffer.progress, buffer.accounts, reported, current);
        AllFairMore(tx, leader, heads, dropped, reported, current);
      }
      FlatMore(dropped, current);
      heads, dropped := heads + [reported], dropped + [current];
      reported, current := [], [];
      buffer := new SlotBuffer(tx, buffer.slot);
      NothingLogged(buffer.accounts, reported + current);
      NothingAgrees(buffer.held, leader);
    }

    /** Race exactness at any moment of any delivery, of a slot not reported before: each hit is
        the leader's transaction, and the line for any two of them never says more than the
        leader's own order, and says exactly that when it claims to. */
    lemma RaceIsHonest(target: Hit, searcher: Hit)
      requires Valid() && honest && Unbroken() && LeaderSlot(tx, leader)
      requires target in race.hits && searcher in race.hits
      ensures var whole := LeaderSpans(tx, leader);
              && Located(race.batches, target) && Located(race.batches, searcher)
              && Located(whole, target) && Located(whole, searcher)
              && HonestLine(LineOf(race.batches, target, searcher), whole, target, searcher)
      ensures IsTheLeaders(target) && IsTheLeaders(searcher)
    {
      hide Tracked, LeaderSlot, LeaderSpans, Located, Valid, Within, Partition, HonestLine, LineOf, Faithful;
      ValidIsTracked();
      HonestyAgrees();
      HitsAreTheLeaders(tx, leader, buffer.held, buffer.starts, buffer.progress, buffer.accounts,
                        wallets, race.batches, race.hits, race.log, target);
      HitsAreTheLeaders(tx, leader, buffer.held, buffer.starts, buffer.progress, buffer.accounts,
                        wallets, race.batches, race.hits, race.log, searcher);
      BooksAreWithin(tx, leader, buffer.held, buffer.starts, buffer.progress, buffer.accounts,
                     wallets, race.batches, race.hits, race.log);
      LinesAreHonest(race.batches, LeaderSpans(tx, leader), target, searcher);
    }

    /** The hit is a watched wallet's transaction, standing where the leader put it. */
    ghost predicate IsTheLeaders(hit: Hit)
    {
      Faithful(wallets, hit.firstShred, OneShot(tx, RunOf(leader, hit.firstShred).data).entries, hit)
    }

    /** So of every line a report of the slot holds. */
    lemma ReportIsHonest(line: Line) returns (target: Hit, searcher: Hit)
      requires Valid() && honest && Unbroken() && LeaderSlot(tx, leader)
      requires AllLocated(race.batches, race.hits) && ReportOf(race.batches, race.hits).Raced?
      requires line in ReportOf(race.batches, race.hits).lines
      ensures target in race.hits && searcher in race.hits && target.role == Target && searcher.role == Searcher
      ensures IsTheLeaders(target) && IsTheLeaders(searcher)
      ensures var whole := LeaderSpans(tx, leader);
              && Located(whole, target) && Located(whole, searcher)
              && HonestLine(line, whole, target, searcher)
    {
      hide LeaderSlot, LeaderSpans, Valid, Located, HonestLine, LineOf, LinesOf, Faithful;
      var targets, searchers := SideOf(race.hits, Target), SideOf(race.hits, Searcher);
      LinesArePairs(race.batches, targets, searchers, line);
      target, searcher :| target in targets && searcher in searchers && line == LineOf(race.batches, target, searcher);
      RaceIsHonest(target, searcher);
    }

    /** Once every shred has come, by whatever route, the race is the leader's order itself. */
    lemma DeliveredRaceIsExact()
      requires Valid() && honest && Unbroken()
      requires LeaderSlot(tx, leader) && leader.Keys <= buffer.held.Keys
      ensures race.batches == LeaderSpans(tx, leader)
      ensures forall s :: s in race.batches ==>
                HitsAt(race.hits, s) == HitsIn(wallets, s, OneShot(tx, RunOf(leader, s).data).entries)
      ensures forall low, high ::
                low in race.batches && high in race.batches && low <= high ==> Tiled(race.batches, low, high)
    {
      hide Tracked, LeaderSlot, LeaderSpans, Tiled, Valid, HitsAt, HitsIn, OneShot;
      ValidIsTracked();
      HonestyAgrees();
      DeliveredBooksAreWhole(tx, leader, buffer.held, buffer.starts, buffer.progress, buffer.accounts,
                             wallets, race.batches, race.hits, race.log);
    }

    /** And of a race that began after a report: a hit stands where the leader put it once what
        was told before is counted, a gap never says more than the leader's less what it missed,
        and where it claims to be exact it is that. So it is exact if and only if nothing that
        was told before lies between the two hits. */
    lemma LateRaceFallsShort(a: Hit, b: Hit)
      requires Valid() && honest && dropped == [] && LeaderSlot(tx, leader)
      requires a in race.hits && b in race.hits && Precedes(a, b)
      ensures Located(race.batches, a) && Located(race.batches, b)
      ensures var full, whole := FullSpans(buffer.accounts), LeaderSpans(tx, leader);
              && Late(race.batches, full)
              && var x, y := Moved(race.batches, full, a), Moved(race.batches, full, b);
                 && IsTheLeaders(x) && IsTheLeaders(y) && Located(whole, x) && Located(whole, y)
                 && FallsShort(TransactionsBefore(race.batches, b) - TransactionsBefore(race.batches, a),
                               TransactionsBefore(whole, y) - TransactionsBefore(whole, x),
                               Missed(race.batches, full, a, b, Transactions),
                               Tiled(race.batches, a.firstShred, b.firstShred))
                 && FallsShort(EntriesBefore(race.batches, b) - EntriesBefore(race.batches, a),
                               EntriesBefore(whole, y) - EntriesBefore(whole, x),
                               Missed(race.batches, full, a, b, Entries),
                               Tiled(race.batches, a.firstShred, b.firstShred))
    {
      hide Booked, LeaderSlot, LeaderSpans, FullSpans, Located, Valid, Within, Partition, Faithful, Late, Tallies,
           TransactionsBefore, EntriesBefore, Missed, Tiled, OneShot, RunOf;
      ValidIsTold();
      HonestyAgrees();
      var full := FullSpans(buffer.accounts);
      ToldIsWithin(tx, leader, buffer.held, buffer.starts, buffer.progress, buffer.accounts, reported, current);
      RestIsLate(tx, buffer.held, buffer.starts, buffer.progress, buffer.accounts, reported, current,
                 wallets, race.batches, race.hits);
      LateHitIsTheLeaders(tx, leader, buffer.held, buffer.starts, buffer.progress, buffer.accounts, reported,
                          current, wallets, race.batches, race.hits, a);
      LateHitIsTheLeaders(tx, leader, buffer.held, buffer.starts, buffer.progress, buffer.accounts, reported,
                          current, wallets, race.batches, race.hits, b);
      LateGapsFallShort(race.batches, full, LeaderSpans(tx, leader), a, b);
    }

    lemma HonestyAgrees()
      requires Valid() && honest
      ensures AgreesWith(buffer.held, leader)
    {
    }
  }

  // ---------------------------------------------------------------- a slot with a race in it

  /** One entry with two transactions, the first paid for by wallet one and the second by two. */
  function RaceBytes(): (b: seq<byte>)
    ensures |b| == 60
  {
    RaceCount() + Zeros(40) + RacePair()
  }

  function RaceCount(): (b: seq<byte>)
    ensures |b| == 8
  {
    [1] + Zeros(7)
  }

  function RacePair(): (b: seq<byte>)
    ensures |b| == 12
  {
    [2] + Zeros(7) + [1, 7, 2, 8]
  }

  function RaceEntry(): Entry {
    Entry(0, Zeros(32), [Transaction(Some(1), Some(7)), Transaction(Some(2), Some(8))])
  }

  const RACE_WALLETS := Wallets({2}, {1})

  lemma LowByte(b: seq<byte>, low: byte)
    requires |b| == 8 && b[0] == low && forall i :: 1 <= i < 8 ==> b[i] == 0
    ensures FromLE(b) == low as nat
  {
    ZerosAreZero(b[1..]);
  }

  lemma PairParses(tx: TxCodec, b: seq<byte>)
    requires tx == TwoByteTransaction && b == [1, 7, 2, 8]
    ensures ParseTransactions(tx, b, 2) == Parsed(RaceEntry().transactions, 4)
  {
    var first, second := Transaction(Some(1), Some(7)), Transaction(Some(2), Some(8));
    var rest := b[2..];
    assert rest == [2, 8];
    assert tx(b) == TwoByteTransaction(b) == Parsed(first, 2);
    assert tx(rest) == TwoByteTransaction(rest) == Parsed(second, 2);
    assert [second] + [] == [second];
    assert ParseTransactions(tx, rest, 1) == Parsed([second], 2);
    assert [first] + [second] == [first, second];
  }

  lemma RaceEntryParses(tx: TxCodec, b: seq<byte>)
    requires tx == TwoByteTransaction && b == Zeros(40) + RacePair()
    ensures ParseEntry(tx, b) == Parsed(RaceEntry(), 52)
  {
    hide ParseTransactions, FromLE;
    ZerosAreZero(b[..8]);
    assert b[8..40] == Zeros(32);
    LowByte(b[40..48], 2);
    assert b[48..] == [1, 7, 2, 8];
    PairParses(tx, b[48..]);
  }

  lemma RaceBytesRead(tx: TxCodec)
    requires tx == TwoByteTransaction
    ensures OneShot(tx, RaceBytes()) == Reading([RaceEntry()], 60, Some(0), Done)
  {
    hide ParseEntry, FromLE, ReadEntries;
    var b := RaceBytes();
    assert b[0..0 + ENTRY_COUNT] == RaceCount();
    LowByte(RaceCount(), 1);
    assert b[8..] == Zeros(40) + RacePair();
    RaceEntryParses(tx, b[8..]);
    ReadsOne(tx, b, 8, 1);
    ReadsNoneOwed(tx, b, 60);
  }

  lemma RaceSlotIsALeaders(tx: TxCodec, leader: Held)
    requires tx == TwoByteTransaction && leader == map[0 := Shred(RaceBytes(), true, 0, false)]
    ensures LeaderSlot(tx, leader) && OneShot(tx, RunOf(leader, 0).data).entries == [RaceEntry()]
    ensures 0 in LeaderSpans(tx, leader)
  {
    hide OneShot, ExtentOf, RunOf, RaceBytes, RaceEntry;
    assert leader.Keys == {0};
    LoneRun(leader, Shred(RaceBytes(), true, 0, false));
    RaceBytesRead(tx);
    ExtentIsTheRun(leader, 0);
    assert |leader| == 1;
    assert WellFormed(tx, RunOf(leader, 0));
  }

  lemma RaceHits(s: nat)
    ensures HitsIn(RACE_WALLETS, s, [RaceEntry()]) == [Hit(Target, s, 0, 0, Some(7)), Hit(Searcher, s, 0, 1, Some(8))]
  {
    var transactions := RaceEntry().transactions;
    assert HitsInEntry(RACE_WALLETS, s, 0, transactions[..1][..0]) == [];
    assert HitsInEntry(RACE_WALLETS, s, 0, transactions[..1]) == [Hit(Target, s, 0, 0, Some(7))];
    assert [RaceEntry()][..0] == [];
  }

  lemma {:induction false} HitsAtAreHits(hits: seq<Hit>, s: nat, hit: Hit)
    requires hit in HitsAt(hits, s)
    ensures hit in hits
    decreases |hits|
  {
    if hit in HitsAt(hits[..|hits| - 1], s) { HitsAtAreHits(hits[..|hits| - 1], s, hit); }
  }

  /** There are watches with hits of both sides on their books, as `RaceIsHonest` asks for. */
  method SomeRaceHasHits() returns (w: SlotWatch, ghost target: Hit, ghost searcher: Hit)
    ensures w.Valid() && w.honest && w.Unbroken() && LeaderSlot(w.tx, w.leader)
    ensures target in w.race.hits && searcher in w.race.hits
    ensures target.role == Target && searcher.role == Searcher && Precedes(target, searcher)
  {
    hide LeaderSlot, LeaderSpans, SlotWatch.Valid, HitsAt, HitsIn, OneShot, RunOf, RaceBytes, RaceEntry;
    var tx: TxCodec := Witness();
    ghost var leader: Held := map[0 := Shred(RaceBytes(), true, 0, false)];
    RaceSlotIsALeaders(tx, leader);
    w := new SlotWatch(tx, RACE_WALLETS, 0, leader);
    var crashed := w.Receive(0, RaceBytes(), true, true, 0, false);
    w.DeliveredRaceIsExact();
    RaceHits(0);
    target, searcher := Hit(Target, 0, 0, 0, Some(7)), Hit(Searcher, 0, 0, 1, Some(8));
    ghost var found := HitsAt(w.race.hits, 0);
    assert found[0] in found && found[1] in found;
    HitsAtAreHits(w.race.hits, 0, target);
    HitsAtAreHits(w.race.hits, 0, searcher);
  }
}
