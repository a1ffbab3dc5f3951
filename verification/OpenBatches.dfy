/** What depends on the order of delivery for a batch that is still open when every shred is in,
    and with it for every batch there is. */
module OpenBatches {
  import opened Collections
  import opened Codec
  import opened Runs
  import opened Batches
  import opened Limits
  import opened Orders

  /** With the batch's shreds up to `k` held and no more, it is within the bound and there is
      something to be had of it. */
  ghost predicate HadAt(tx: TxCodec, h: Held, s: nat, k: nat) {
    s <= k && Stretch(h, s, k) && |Cat(h, s, k)| <= MAX_BATCH_BYTES && !NothingToLose(tx, Cat(h, s, k))
  }

  /** Something is to be had of the batch in some order: of a closed one by reading it whole, of
      an open one by reading a part of it that is within the bound. */
  ghost predicate ToBeHad(tx: TxCodec, h: Held, s: nat) {
    if RunOf(h, s).complete then !NothingToLose(tx, RunOf(h, s).data)
    else exists k: nat :: HadAt(tx, h, s, k)
  }

  // ---------------------------------------------------------------- nothing comes of nothing

  ghost predicate Bare(account: Account) {
    account.emitted == [] && (account.verdicts == [] || account.verdicts == [Failed])
  }

  /** What is held of an open batch is a stretch of it. */
  lemma PartIsStretch(h: Held, g: Held, s: nat)
    requires Bounded(h) && Bounded(g) && AgreesWith(g, h) && !RunOf(h, s).complete
    ensures !RunOf(g, s).complete && RunOf(g, s).openLen == |RunOf(g, s).data|
    ensures Stretch(h, s, RunOf(g, s).end) && RunOf(g, s).data == Cat(h, s, RunOf(g, s).end)
  {
    var e := RunEnd(g, s);
    AgreeingRunExtends(g, h, s);
    CatSame(g, h, s, e);
  }

  /** Within the bound a level batch has what its bytes yield, so nothing if they yield nothing. */
  lemma LevelIsBare(tx: TxCodec, run: Run, p: Progress, account: Account)
    requires BatchSound(tx, run, p, account) && run.openLen <= MAX_BATCH_BYTES && !run.complete
    requires NothingToLose(tx, run.data)
    ensures Bare(account)
  {
    hide Read;
  }

  /** Past it a pass gives the batch up, or finds it closed, and adds no entry either way. */
  lemma OutgrownPassIsBare(tx: TxCodec, g: Held, s: nat, p: Progress, account: Account)
    requires Bounded(g) && Outgrown(g, s) && Bare(account) && (!p.closed ==> account.verdicts == [])
    ensures Bare(Followed(account, Step(tx, g, s, p).advance))
  {
    hide RunOf, ExtentOf;
    if !p.closed { OutgrownIsGivenUp(tx, g, s, p); }
  }

  lemma OpenHasNoVerdict(tx: TxCodec, held: Held, s: nat, x: History)
    requires Bounded(held) && LevelAfter(tx, held, s, x)
    ensures !x.progress.closed ==> x.account.verdicts == []
  {
    hide OneShot, StartsOf, RunOf, CacheTrue;
  }

  lemma {:induction false} NothingComes(tx: TxCodec, h: Held, s: nat, order: seq<Copy>)
    requires Deliverable(h, order) && !RunOf(h, s).complete && !ToBeHad(tx, h, s)
    ensures Bare(Passes(tx, h, s, order).account)
    decreases |order|
  {
    hide Passed, Passes, RunOf, LevelAfter, ToBeHad, StartsOf, Deliverable, Bare, Part, Came;
    if order == [] {
      NothingPassed(tx, h, s);
    } else {
      var k := |order| - 1;
      var before, c := order[..k], order[k];
      assert order == before + [c];
      DeliverableBefore(h, before, c);
      NothingComes(tx, h, s, before);
      PassesGrow(tx, h, s, before, c);
      PassesKeepLevel(tx, h, s, before);
      PassesKeepLevel(tx, h, s, order);
      OpenHasNoVerdict(tx, Part(h, before), s, Passes(tx, h, s, before));
      BarePass(tx, h, s, order, Passes(tx, h, s, before), c.index, Came(before, c.index));
    }
  }

  lemma NothingPassed(tx: TxCodec, h: Held, s: nat)
    requires Deliverable(h, [])
    ensures Bare(Passes(tx, h, s, []).account)
  {
  }

  lemma DeliverableBefore(h: Held, before: seq<Copy>, c: Copy)
    requires Deliverable(h, before + [c])
    ensures Deliverable(h, before)
  {
    assert forall k :: 0 <= k < |before| ==> before[k] == (before + [c])[k];
  }

  lemma BarePass(tx: TxCodec, h: Held, s: nat, order: seq<Copy>, x: History, i: nat, again: bool)
    requires Deliverable(h, order) && !RunOf(h, s).complete && !ToBeHad(tx, h, s)
    requires Bare(x.account) && (!x.progress.closed ==> x.account.verdicts == [])
    requires var g := Part(h, order); LevelAfter(tx, g, s, Passed(tx, g, s, x, i, again))
    ensures Bare(Passed(tx, Part(h, order), s, x, i, again).account)
  {
    hide Part, RunOf, Step, Bare, StartsOf, Candidates, Cat, NothingToLose, BatchSound, CacheTrue, Settled, Followed;
    var g := Part(h, order);
    PartIsStretch(h, g, s);
    if s in Candidates(StartsOf(g), i) {
      CandidatesStart(StartsOf(g), i, s);
      if |RunOf(g, s).data| <= MAX_BATCH_BYTES {
        var n := Passed(tx, g, s, x, i, again);
        assert !HadAt(tx, h, s, RunOf(g, s).end);
        LevelIsBare(tx, RunOf(g, s), n.progress, n.account);
      } else {
        var p := if again then x.progress.(extent := None, resume := None) else x.progress;
        OutgrownPassIsBare(tx, g, s, p, x.account);
      }
    }
  }

  // ---------------------------------------------------------------- what every order comes to

  /** An open batch past the bound is failed, once, in every order. */
  lemma OutgrownIsFailed(tx: TxCodec, h: Held, s: nat, order: seq<Copy>)
    requires Covers(h, order) && s in StartsOf(h) && Outgrown(h, s) && !ToBeHad(tx, h, s)
    ensures Deliverable(h, order) && Outcome(tx, h, s, order) == ([], [Failed])
  {
    hide Passes, RunOf, ToBeHad, StartsOf, BatchSound, Part, Came;
    CoveredIsWhole(h, order, s);
    NothingComes(tx, h, s, order);
    PassesKeepLevel(tx, h, s, order);
    var x := Passes(tx, h, s, order);
    OutgrownHasVerdict(tx, RunOf(h, s), x.progress, x.account);
  }

  lemma OutgrownHasVerdict(tx: TxCodec, run: Run, p: Progress, account: Account)
    requires BatchSound(tx, run, p, account) && !run.complete && |run.data| > MAX_BATCH_BYTES
    ensures account.verdicts != []
  {
    hide Read;
  }

  /** A batch within the bound comes to the same in every order. */
  lemma WithinIsFixed(tx: TxCodec, h: Held, s: nat, order: seq<Copy>)
    requires Covers(h, order) && s in StartsOf(h) && RunOf(h, s).openLen <= MAX_BATCH_BYTES
    ensures Deliverable(h, order)
    ensures var run := RunOf(h, s);
            Outcome(tx, h, s, order) == (OneShot(tx, run.data).entries, Listed(Deserved(tx, run)))
  {
    hide Passes, RunOf, StartsOf, BatchSound, OneShot, Deserved, Part, Came;
    CoveredIsWhole(h, order, s);
    PassesKeepLevel(tx, h, s, order);
    var x := Passes(tx, h, s, order);
    WithinIsRead(tx, RunOf(h, s), x.progress, x.account);
  }

  lemma WithinIsRead(tx: TxCodec, run: Run, p: Progress, account: Account)
    requires BatchSound(tx, run, p, account) && run.openLen <= MAX_BATCH_BYTES
    ensures account.emitted == OneShot(tx, run.data).entries && account.verdicts == Listed(Deserved(tx, run))
  {
    hide Read;
  }

  /** A batch that never begins comes to nothing. */
  lemma NeverBegun(tx: TxCodec, h: Held, s: nat, order: seq<Copy>)
    requires Covers(h, order) && s !in StartsOf(h)
    ensures Deliverable(h, order) && Outcome(tx, h, s, order) == ([], [])
  {
    hide Passes, Part, Came;
    CoveredIsWhole(h, order, s);
    PassesKeepLevel(tx, h, s, order);
  }

  // ---------------------------------------------------------------- two orders that differ

  /** Everything else first and the batch's first shred last: it is given up on unread. */
  lemma GivenUpAtOnce(tx: TxCodec, h: Held, s: nat, before: seq<Copy>, c: Copy)
    requires Covers(h, before + [c]) && c.index == s && s in StartsOf(h) && Outgrown(h, s)
    requires Deliverable(h, before) && s !in Part(h, before)
    ensures Outcome(tx, h, s, before + [c]) == ([], [Failed])
  {
    hide Passes, Step, StartsOf, Followed, Part, Came, RunOf;
    var held := Part(h, before + [c]);
    CoveredIsWhole(h, before + [c], s);
    BeginsWith(tx, h, s, before, c);
    OutgrownIsGivenUp(tx, held, s, UNREAD);
    GivingUpUnread(Step(tx, held, s, UNREAD).advance);
  }

  lemma GivingUpUnread(advance: Option<Advance>)
    requires advance.Some? && advance.value.entries == [] && advance.value.finished == Some(Failed)
    ensures Followed(NOTHING_YET, advance).emitted == [] && Followed(NOTHING_YET, advance).verdicts == [Failed]
  {
  }

  /** With shred `k` last of all, what the part in front of it yields has been read by then. */
  lemma ReadBefore(tx: TxCodec, h: Held, s: nat, k: nat, open: seq<Copy>, d: Copy)
    requires Bounded(h) && s in StartsOf(h) && !RunOf(h, s).complete && HadAt(tx, h, s, k) && k in h && k != s
    requires Covers(h, open + [d]) && d.index == k && Deliverable(h, open) && k !in Part(h, open)
    ensures Outcome(tx, h, s, open + [d]) != ([], [Failed])
  {
    hide Passes, Passed, RunOf, StartsOf, Cat, NothingToLose, BatchSound, CacheTrue, Settled, Part, Came;
    var g := Part(h, open);
    AllButTheLast(h, open, d);
    StillBegun(h, g, s, k);
    RunUpTo(h, g, s, k);
    PassesKeepLevel(tx, h, s, open);
    var x := Passes(tx, h, s, open);
    WithinIsRead(tx, RunOf(g, s), x.progress, x.account);
    SomethingHad(tx, RunOf(g, s), x.account);
    PartGrows(h, open, d);
    PassesGrow(tx, h, s, open, d);
    StillHad(tx, Part(h, open + [d]), s, x, k);
  }

  lemma AllButTheLast(h: Held, open: seq<Copy>, d: Copy)
    requires Covers(h, open + [d]) && Deliverable(h, open)
    ensures forall i: nat :: i in h && i != d.index ==> i in Part(h, open)
  {
    hide Came, Part;
    forall i: nat | i in h && i != d.index
      ensures i in Part(h, open)
    {
      CameOn(open, d, i);
      PartHas(h, open, i);
    }
  }

  lemma StillBegun(h: Held, g: Held, s: nat, k: nat)
    requires AgreesWith(g, h) && s in StartsOf(h) && s <= k
    requires forall i: nat :: i in h && i != k ==> i in g
    ensures s in StartsOf(g)
  {
    if s != 0 { assert s - 1 in h && s - 1 in g && g[s - 1].complete; }
  }

  lemma OpenStretch(h: Held, s: nat, k: nat)
    requires Bounded(h) && Stretch(h, s, k) && !RunOf(h, s).complete
    ensures s < k ==> !h[k - 1].complete
  {
    hide Cat;
    StretchWithinRun(h, s, k);
  }

  lemma RunUpTo(h: Held, g: Held, s: nat, k: nat)
    requires Bounded(h) && Bounded(g) && Stretch(h, s, k) && k !in g && !RunOf(h, s).complete
    requires AgreesWith(g, h) && forall i: nat :: i in h && i != k ==> i in g
    ensures RunOf(g, s) == Run(Cat(h, s, k), false, k, |Cat(h, s, k)|)
  {
    hide Cat, RunOf, RunEnd;
    OpenStretch(h, s, k);
    WholeIsRun(g, s, k);
    CatSame(g, h, s, k);
    OpenRunIs(g, s, k);
  }

  lemma OpenRunIs(g: Held, s: nat, k: nat)
    requires Bounded(g) && RunEnd(g, s) == k && (s < k ==> !g[k - 1].complete)
    ensures RunOf(g, s) == Run(Cat(g, s, k), false, k, |Cat(g, s, k)|)
  {
    hide Cat;
  }

  ghost predicate Had(account: Account) {
    account.emitted != [] || (account.verdicts != [] && account.verdicts[0] != Failed)
  }

  lemma SomethingHad(tx: TxCodec, run: Run, account: Account)
    requires account.emitted == OneShot(tx, run.data).entries && account.verdicts == Listed(Deserved(tx, run))
    requires !NothingToLose(tx, run.data)
    ensures Had(account)
  {
    hide OneShot;
  }

  /** What was had is had for good. */
  lemma StillHad(tx: TxCodec, held: Held, s: nat, x: History, i: nat)
    requires Bounded(held) && Had(x.account)
    ensures var account := Passed(tx, held, s, x, i, false).account;
            (account.emitted, account.verdicts) != ([], [Failed])
  {
    hide Step;
    var account := Passed(tx, held, s, x, i, false).account;
    assert x.account.emitted <= account.emitted && x.account.verdicts <= account.verdicts;
  }

  // ---------------------------------------------------------------- exactly when

  lemma OpenOrderMatters(tx: TxCodec, h: Held, s: nat, k: nat)
    requires Bounded(h) && s in StartsOf(h) && Outgrown(h, s) && HadAt(tx, h, s, k)
    ensures OrderMatters(tx, h, s)
  {
    hide Outcome, RunOf, StartsOf, Cat, NothingToLose, Covers, HadAt, Outgrown, Part, Came;
    NextIsHeld(tx, h, s, k);
    var whole, first := AllBut(h, s);
    var open, c, d := AllButTwo(h, s, k);
    CoversDelivers(h, whole + [first]);
    CoversDelivers(h, open + [c] + [d]);
    GivenUpAtOnce(tx, h, s, whole, first);
    DeliverableBefore(h, open + [c], d);
    PartGrows(h, open, c);
    ReadBefore(tx, h, s, k, open + [c], d);
  }

  lemma NextIsHeld(tx: TxCodec, h: Held, s: nat, k: nat)
    requires Bounded(h) && Outgrown(h, s) && HadAt(tx, h, s, k)
    ensures s in h && k in h && k != s && !RunOf(h, s).complete
  {
    hide NothingToLose;
    var e := RunEnd(h, s);
    StretchWithinRun(h, s, k);
    assert k != e && s != e;
    if k == s { NothingIsHad(tx); }
  }

  lemma NothingIsHad(tx: TxCodec)
    ensures NothingToLose(tx, [])
  {
  }

  lemma OrderIsNoMatter(tx: TxCodec, h: Held, s: nat)
    requires Bounded(h) && !(s in StartsOf(h) && RunOf(h, s).openLen > MAX_BATCH_BYTES && ToBeHad(tx, h, s))
    ensures !OrderMatters(tx, h, s)
  {
    hide Outcome, RunOf, StartsOf, ToBeHad, Covers;
    forall one, other | Covers(h, one) && Covers(h, other)
      ensures Deliverable(h, one) && Deliverable(h, other)
      ensures Outcome(tx, h, s, one) == Outcome(tx, h, s, other)
    {
      SameOutcome(tx, h, s, one, other);
    }
  }

  lemma SameOutcome(tx: TxCodec, h: Held, s: nat, one: seq<Copy>, other: seq<Copy>)
    requires Bounded(h) && !(s in StartsOf(h) && RunOf(h, s).openLen > MAX_BATCH_BYTES && ToBeHad(tx, h, s))
    requires Covers(h, one) && Covers(h, other)
    ensures Deliverable(h, one) && Deliverable(h, other)
    ensures Outcome(tx, h, s, one) == Outcome(tx, h, s, other)
  {
    hide Outcome, RunOf, StartsOf, Cat, NothingToLose, Covers, Stretch;
    CoversDelivers(h, one);
    CoversDelivers(h, other);
    if s !in StartsOf(h) {
      NeverBegun(tx, h, s, one);
      NeverBegun(tx, h, s, other);
    } else if RunOf(h, s).openLen <= MAX_BATCH_BYTES {
      WithinIsFixed(tx, h, s, one);
      WithinIsFixed(tx, h, s, other);
    } else if RunOf(h, s).complete {
      RunCloses(h, s);
      OutcomeIsFixed(tx, h, s, RunEnd(h, s), one);
      OutcomeIsFixed(tx, h, s, RunEnd(h, s), other);
    } else {
      OpenIsOpen(h, s);
      OutgrownIsFailed(tx, h, s, one);
      OutgrownIsFailed(tx, h, s, other);
    }
  }

  lemma RunCloses(h: Held, s: nat)
    requires Bounded(h) && s in StartsOf(h) && RunOf(h, s).complete
    ensures ClosedBatch(h, s, RunEnd(h, s)) && |Cat(h, s, RunEnd(h, s) - 1)| == RunOf(h, s).openLen
  {
  }

  lemma OpenIsOpen(h: Held, s: nat)
    requires !RunOf(h, s).complete
    ensures RunOf(h, s).openLen == |RunOf(h, s).data|
  {
  }

  /** Order dependence of any batch of any slot, open or closed, decided beforehand. Two deliveries
      of the same shreds can leave it with different entries or verdicts exactly if it is begun
      at all, its bytes before the shred that closes it, or all of them if none does, are more
      than the bound, and there was something to be had of it. */
  lemma BatchOrderMattersExactlyWhen(tx: TxCodec, h: Held, s: nat)
    requires Bounded(h)
    ensures OrderMatters(tx, h, s) <==>
            s in StartsOf(h) && RunOf(h, s).openLen > MAX_BATCH_BYTES && ToBeHad(tx, h, s)
  {
    hide OrderMatters, RunOf, StartsOf, Cat, NothingToLose, HadAt, Stretch;
    if !(s in StartsOf(h) && RunOf(h, s).openLen > MAX_BATCH_BYTES && ToBeHad(tx, h, s)) {
      OrderIsNoMatter(tx, h, s);
    } else if RunOf(h, s).complete {
      RunCloses(h, s);
      OrderMattersExactlyWhen(tx, h, s, RunEnd(h, s));
    } else {
      OpenIsOpen(h, s);
      var k: nat :| HadAt(tx, h, s, k);
      OpenOrderMatters(tx, h, s, k);
    }
  }
}
