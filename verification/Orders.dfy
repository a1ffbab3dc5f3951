/** One slot's shreds delivered in some order, with any of them any number of times: the passes a
    batch then goes through, that the slot buffer takes just those, and what of the outcome
    depends on the order. */
module Orders {
  import opened Bytes
  import opened Collections
  import opened Codec
  import opened Runs
  import opened Batches
  import opened Caches
  import opened Arenas
  import opened Pieces
  import opened SlotBuffers
  import opened Limits

  /** One copy of a shred, in what may differ from copy to copy: its bytes and whether it closes a
      batch are its index's own. */
  datatype Copy = Copy(index: nat, last: bool, received: nat, recovered: bool)

  ghost predicate Came(order: seq<Copy>, i: nat) {
    exists k :: 0 <= k < |order| && order[k].index == i
  }

  ghost predicate Deliverable(h: Held, order: seq<Copy>) {
    Bounded(h) && forall k :: 0 <= k < |order| ==> order[k].index in h
  }

  function CopyOf(h: Held, c: Copy): Shred
    requires c.index in h
  {
    Shred(h[c.index].data, h[c.index].complete, c.received, c.recovered)
  }

  /** What of `h` is held by the time `order` has come: of each shred the copy that came last. */
  ghost function Part(h: Held, order: seq<Copy>): (part: Held)
    requires Deliverable(h, order)
    ensures Bounded(part) && AgreesWith(part, h)
  {
    if order == [] then map[] else
      var k := |order| - 1;
      Part(h, order[..k])[order[k].index := CopyOf(h, order[k])]
  }

  lemma CameOn(order: seq<Copy>, c: Copy, i: nat)
    ensures Came(order + [c], i) <==> Came(order, i) || c.index == i
  {
    var all := order + [c];
    if k :| 0 <= k < |order| && order[k].index == i { assert all[k].index == i; }
    assert all[|order|] == c;
  }

  lemma {:induction false} PartHas(h: Held, order: seq<Copy>, i: nat)
    requires Deliverable(h, order)
    ensures i in Part(h, order) <==> Came(order, i)
    decreases |order|
  {
    if order != [] {
      var k := |order| - 1;
      PartHas(h, order[..k], i);
      CameOn(order[..k], order[k], i);
      assert order == order[..k] + [order[k]];
    }
  }

  datatype History = History(progress: Progress, account: Account)

  /** What a batch goes through: a pass whenever a shred comes that it is a candidate of, with its
      caches gone if the shred had come before. */
  ghost function Passes(tx: TxCodec, h: Held, s: nat, order: seq<Copy>): History
    requires Deliverable(h, order)
    decreases |order|
  {
    if order == [] then History(UNREAD, NOTHING_YET) else
      var k := |order| - 1;
      Passed(tx, Part(h, order), s, Passes(tx, h, s, order[..k]), order[k].index, Came(order[..k], order[k].index))
  }

  ghost function Passed(tx: TxCodec, held: Held, s: nat, x: History, i: nat, again: bool): History
    requires Bounded(held)
  {
    if s !in Candidates(StartsOf(held), i) then x else
      var p := if again then x.progress.(extent := None, resume := None) else x.progress;
      var n := Step(tx, held, s, p);
      History(n.progress, Followed(x.account, n.advance))
  }

  lemma PassesGrow(tx: TxCodec, h: Held, s: nat, order: seq<Copy>, c: Copy)
    requires Deliverable(h, order + [c])
    ensures Deliverable(h, order) && c.index in h
    ensures Passes(tx, h, s, order + [c]) ==
            Passed(tx, Part(h, order + [c]), s, Passes(tx, h, s, order), c.index, Came(order, c.index))
  {
    hide Passed, Came;
    PartGrows(h, order, c);
    assert (order + [c])[..|order|] == order;
  }

  lemma PartGrows(h: Held, order: seq<Copy>, c: Copy)
    requires Deliverable(h, order + [c])
    ensures Deliverable(h, order) && c.index in h
    ensures Part(h, order + [c]) == Part(h, order)[c.index := CopyOf(h, c)]
    ensures Came(order, c.index) <==> c.index in Part(h, order)
  {
    hide Came;
    var all := order + [c];
    assert all[..|order|] == order && all[|order|] == c;
    assert forall k :: 0 <= k < |order| ==> all[k] == order[k];
    PartHas(h, order, c.index);
  }

  // ---------------------------------------------------------------- a batch keeps level

  ghost predicate LevelAfter(tx: TxCodec, held: Held, s: nat, x: History)
    requires Bounded(held)
  {
    if s in StartsOf(held) then
      && BatchSound(tx, RunOf(held, s), x.progress, x.account) && Settled(RunOf(held, s), x.progress)
      && CacheTrue(held, s, x.progress) && x.progress.resume.None?
    else x == History(UNREAD, NOTHING_YET)
  }

  lemma StepKeepsCache(tx: TxCodec, held: Held, s: nat, p: Progress)
    requires Bounded(held) && CacheTrue(held, s, p) && p.resume.None?
    ensures CacheTrue(held, s, Step(tx, held, s, p).progress) && Step(tx, held, s, p).progress.resume.None?
  {
    hide Read, ExtentOf, CacheTrue;
    var q := Step(tx, held, s, p).progress;
    if q.extent != p.extent {
      FreshExtentIsTrue(held, s, p, q.extent.value);
      ClosingKeepsCaches(held, s, p.(extent := q.extent), q);
    } else {
      ClosingKeepsCaches(held, s, p, q);
    }
  }

  lemma PassingIsLevel(tx: TxCodec, held: Held, s: nat, p: Progress, account: Account)
    requires Bounded(held) && s in StartsOf(held) && CacheTrue(held, s, p) && p.resume.None?
    requires Behind(tx, RunOf(held, s), p, account)
    ensures var n := Step(tx, held, s, p);
            LevelAfter(tx, held, s, History(n.progress, Followed(account, n.advance)))
  {
    hide Step, Behind, BatchSound, Settled, RunOf, CacheTrue, StartsOf;
    AdvancingCatchesUp(tx, held, s, p, account);
    StepKeepsCache(tx, held, s, p);
  }

  lemma AgreeingCopyKeepsLevel(tx: TxCodec, g: Held, i: nat, shred: Shred, s: nat, x: History)
    requires Bounded(g) && i in g && shred.data == g[i].data && shred.complete == g[i].complete
    requires LevelAfter(tx, g, s, x)
    ensures LevelAfter(tx, g[i := shred], s, Passed(tx, g[i := shred], s, x, i, true))
  {
    hide Step, Behind, BatchSound, Settled, RunOf, Candidates, StartsOf, CacheTrue;
    var after := g[i := shred];
    SameStarts(g, i, shred);
    if s in StartsOf(g) {
      AgreeingCopyLeavesLevel(tx, g, i, shred, s, x.progress, x.account);
      if s in Candidates(StartsOf(after), i) {
        UncachedIsTrue(after, s, x.progress);
        PassingIsLevel(tx, after, s, x.progress.(extent := None, resume := None), x.account);
      } else {
        CacheOutlivesShred(g, i, shred, s, x.progress);
      }
    } else if s in Candidates(StartsOf(after), i) {
      CandidatesStart(StartsOf(after), i, s);
    }
  }

  lemma SameStarts(g: Held, i: nat, shred: Shred)
    requires i in g && shred.complete == g[i].complete
    ensures StartsOf(g[i := shred]) == StartsOf(g)
  {
    hide StartsOf;
    StartsAfter(g, i, shred);
    if !shred.complete { assert i + 1 !in StartsOf(g) || i + 1 == 0; }
  }

  lemma UncachedIsTrue(h: Held, s: nat, p: Progress)
    ensures CacheTrue(h, s, p.(extent := None, resume := None))
  {
  }

  lemma CandidatesStart(starts: set<nat>, i: nat, s: nat)
    requires 0 in starts && s in Candidates(starts, i)
    ensures s in starts
  {
  }

  lemma FreshShredKeepsLevel(tx: TxCodec, g: Held, i: nat, shred: Shred, s: nat, x: History)
    requires Bounded(g) && i !in g && i < INDEX_LIMIT && LevelAfter(tx, g, s, x)
    ensures LevelAfter(tx, g[i := shred], s, Passed(tx, g[i := shred], s, x, i, false))
  {
    hide Step, Behind, BatchSound, Settled, RunOf, Candidates, StartsOf, CacheTrue;
    var after := g[i := shred];
    StartsAfter(g, i, shred);
    if s in Candidates(StartsOf(after), i) {
      if s in StartsOf(g) {
        CacheOutlivesShred(g, i, shred, s, x.progress);
        FreshShredLeavesBehind(tx, g, i, shred, s, x.progress, x.account);
      } else {
        UnreadCaches(after, s);
        NewStartIsBehind(tx, after, s);
      }
      PassingIsLevel(tx, after, s, x.progress, x.account);
    } else if s in StartsOf(after) {
      OnlyCandidatesChange(g, i, shred, s);
      CacheOutlivesShred(g, i, shred, s, x.progress);
    }
  }

  lemma UnreadCaches(held: Held, s: nat)
    ensures CacheTrue(held, s, UNREAD)
  {
  }

  /** After any delivery every batch begun is level with its run. */
  lemma {:induction false} PassesKeepLevel(tx: TxCodec, h: Held, s: nat, order: seq<Copy>)
    requires Deliverable(h, order)
    ensures LevelAfter(tx, Part(h, order), s, Passes(tx, h, s, order))
    decreases |order|
  {
    hide Passed, LevelAfter, Passes, Came;
    if order == [] {
      NothingIsLevelAfter(tx, h, s, order);
    } else {
      var k := |order| - 1;
      var before, c := order[..k], order[k];
      assert order == before + [c];
      PassesGrow(tx, h, s, before, c);
      PartGrows(h, before, c);
      PassesKeepLevel(tx, h, s, before);
      if c.index in Part(h, before) {
        AgreeingCopyKeepsLevel(tx, Part(h, before), c.index, CopyOf(h, c), s, Passes(tx, h, s, before));
      } else {
        FreshShredKeepsLevel(tx, Part(h, before), c.index, CopyOf(h, c), s, Passes(tx, h, s, before));
      }
    }
  }

  lemma NothingIsLevelAfter(tx: TxCodec, h: Held, s: nat, order: seq<Copy>)
    requires Deliverable(h, order) && order == []
    ensures LevelAfter(tx, Part(h, order), s, Passes(tx, h, s, order))
  {
    var held := Part(h, order);
    assert held == map[];
    if s in StartsOf(held) {
      UnreadIsSound(tx, s);
      assert RunOf(held, s) == Run([], false, s, 0);
    }
  }

  // ---------------------------------------------------------------- what depends on the order

  /** Every shred of `h` comes, in this order, once or more often. */
  ghost predicate Covers(h: Held, order: seq<Copy>) {
    Deliverable(h, order) && forall i: nat :: i in h ==> Came(order, i)
  }

  /** What a batch came to in the end. */
  ghost function Outcome(tx: TxCodec, h: Held, s: nat, order: seq<Copy>): (seq<Entry>, seq<BatchOutcome>)
    requires Deliverable(h, order)
  {
    var account := Passes(tx, h, s, order).account;
    (account.emitted, account.verdicts)
  }

  /** Two deliveries of the same shreds leave a batch with different entries or verdicts. */
  ghost predicate OrderMatters(tx: TxCodec, h: Held, s: nat) {
    exists one, other :: Covers(h, one) && Covers(h, other) && Outcome(tx, h, s, one) != Outcome(tx, h, s, other)
  }

  /** A batch whose every shred is in `h`, the last of them closing it. */
  ghost predicate ClosedBatch(h: Held, s: nat, e: nat) {
    Bounded(h) && s in StartsOf(h) && s < e && Stretch(h, s, e) && h[e - 1].complete
  }

  /** In the end the batches are those of `h`, whichever copies came last. */
  lemma CoveredIsWhole(h: Held, order: seq<Copy>, s: nat)
    requires Covers(h, order)
    ensures var part := Part(h, order);
            && Bounded(part) && AgreesWith(part, h) && AgreesWith(h, part)
            && RunOf(part, s) == RunOf(h, s) && (s in StartsOf(part) <==> s in StartsOf(h))
  {
    hide RunOf, Came;
    var part := Part(h, order);
    forall i: nat | i in h
      ensures i in part
    {
      PartHas(h, order, i);
    }
    AgreeingRunExtends(part, h, s);
    AgreeingRunExtends(h, part, s);
    if s in StartsOf(h) { SameEnds(h, part, s); }
    if s in StartsOf(part) { SameEnds(part, h, s); }
  }

  lemma SameEnds(h: Held, g: Held, s: nat)
    requires AgreesWith(h, g) && s in StartsOf(h)
    ensures s in StartsOf(g)
  {
    if s != 0 { assert s - 1 in g && g[s - 1].complete; }
  }

  lemma ClosedRun(h: Held, s: nat, e: nat)
    requires ClosedBatch(h, s, e)
    ensures RunOf(h, s) == Run(Cat(h, s, e), true, e, |Cat(h, s, e - 1)|)
  {
    WholeIsRun(h, s, e);
  }

  /** Giving a batch up and failing it leave the same, if there was nothing to be had of it. */
  ghost predicate NothingToLose(tx: TxCodec, data: seq<byte>) {
    var r := OneShot(tx, data);
    r.entries == [] && !r.status.Done?
  }

  lemma LevelOutcome(tx: TxCodec, run: Run, p: Progress, account: Account)
    requires BatchSound(tx, run, p, account) && run.complete
    requires run.openLen <= MAX_BATCH_BYTES || NothingToLose(tx, run.data)
    ensures account.emitted == OneShot(tx, run.data).entries && account.verdicts == Listed(Deserved(tx, run))
  {
    hide Read;
  }

  lemma OutcomeIsFixed(tx: TxCodec, h: Held, s: nat, e: nat, order: seq<Copy>)
    requires ClosedBatch(h, s, e) && Covers(h, order)
    requires |Cat(h, s, e - 1)| <= MAX_BATCH_BYTES || NothingToLose(tx, RunOf(h, s).data)
    ensures var run := RunOf(h, s);
            Outcome(tx, h, s, order) == (OneShot(tx, run.data).entries, Listed(Deserved(tx, run)))
  {
    hide Passes, BatchSound, OneShot, Deserved, NothingToLose, RunOf, StartsOf, Cat, Covers;
    CoversDelivers(h, order);
    CoveredIsWhole(h, order, s);
    ClosedRun(h, s, e);
    PassesKeepLevel(tx, h, s, order);
    var x := Passes(tx, h, s, order);
    LevelOutcome(tx, RunOf(h, s), x.progress, x.account);
  }

  /** As long as its first shred is missing a batch is as it was. */
  lemma {:induction false} NotBegun(tx: TxCodec, h: Held, s: nat, order: seq<Copy>)
    requires Deliverable(h, order) && s !in Part(h, order)
    ensures Passes(tx, h, s, order) == History(UNREAD, NOTHING_YET)
    decreases |order|
  {
    hide Passed, Came;
    if order != [] {
      var k := |order| - 1;
      NotBegun(tx, h, s, order[..k]);
      NothingToPass(tx, Part(h, order), s, order[k].index, Came(order[..k], order[k].index));
    }
  }

  lemma NothingToPass(tx: TxCodec, held: Held, s: nat, i: nat, again: bool)
    requires Bounded(held) && s !in held
    ensures Passed(tx, held, s, History(UNREAD, NOTHING_YET), i, again) == History(UNREAD, NOTHING_YET)
  {
    WholeIsRun(held, s, s);
  }

  /** The pass a batch's first shred makes possible, when it comes behind all of `before`. */
  lemma BeginsWith(tx: TxCodec, h: Held, s: nat, before: seq<Copy>, c: Copy)
    requires Deliverable(h, before + [c]) && c.index == s
    requires Deliverable(h, before) && s !in Part(h, before) && s in StartsOf(Part(h, before + [c]))
    ensures var n := Step(tx, Part(h, before + [c]), s, UNREAD);
            Passes(tx, h, s, before + [c]) == History(n.progress, Followed(NOTHING_YET, n.advance))
  {
    hide Passes, StartsOf, Step, Came;
    PassesGrow(tx, h, s, before, c);
    PartGrows(h, before, c);
    NotBegun(tx, h, s, before);
    ItsOwnCandidate(StartsOf(Part(h, before + [c])), s);
  }

  lemma ItsOwnCandidate(starts: set<nat>, i: nat)
    requires 0 in starts && i in starts
    ensures i in Candidates(starts, i)
  {
  }

  /** Everything else first and the batch's first shred last: the batch is read whole. */
  lemma ReadWhole(tx: TxCodec, h: Held, s: nat, e: nat, before: seq<Copy>, c: Copy)
    requires ClosedBatch(h, s, e) && Covers(h, before + [c]) && c.index == s
    requires Deliverable(h, before) && s !in Part(h, before)
    ensures var run := RunOf(h, s);
            Outcome(tx, h, s, before + [c]) == (OneShot(tx, run.data).entries, Listed(Deserved(tx, run)))
  {
    hide Passes, StartsOf, RunOf, Read, ExtentOf, Cat, Conclude, Followed, Came, Part;
    var held := Part(h, before + [c]);
    CoveredIsWhole(h, before + [c], s);
    ClosedRun(h, s, e);
    ExtentIsTheRun(held, s);
    BeginsWith(tx, h, s, before, c);
    var x := ExtentOf(held, s).value;
    WholeReading(UNREAD.(extent := Some(x)), x, OneShot(tx, RunOf(h, s).data));
  }

  lemma WholeReading(p: Progress, x: Extent, r: Reading)
    requires !p.hasOpened && x.complete && !r.status.OutOfRange?
    ensures var account := Followed(NOTHING_YET, Conclude(p, x, r).advance);
            account.emitted == r.entries && account.verdicts == Listed(Verdict(r.status, r.entries != [], true))
  {
    assert [] + r.entries == r.entries;
    var verdicts := Listed(Verdict(r.status, r.entries != [], true));
    assert [] + verdicts == verdicts;
  }

  /** All but the closing shred, the batch's first shred behind all the rest: the batch is given
      up on with nothing read. */
  lemma GivenUpOpen(tx: TxCodec, h: Held, s: nat, e: nat, before: seq<Copy>, c: Copy)
    requires ClosedBatch(h, s, e) && s < e - 1 && |Cat(h, s, e - 1)| > MAX_BATCH_BYTES
    requires Deliverable(h, before) && Deliverable(h, before + [c]) && c.index == s && s !in Part(h, before)
    requires e - 1 !in Part(h, before + [c])
    requires forall i: nat :: i in h && i != e - 1 ==> i in Part(h, before + [c])
    ensures var x := Passes(tx, h, s, before + [c]);
            && x.progress.closed && !x.progress.padded
            && x.account.emitted == [] && x.account.verdicts == [Failed]
  {
    hide Passes, Cat, Step, Outgrown, ClosedBatch, StartsOf, Part;
    var held := Part(h, before + [c]);
    StillStarts(h, held, s, e);
    WithoutItsEnd(h, held, s, e);
    BeginsWith(tx, h, s, before, c);
    OutgrownIsGivenUp(tx, held, s, UNREAD);
  }

  /** And the closing shred, coming last, makes no difference. */
  lemma GivenUpUnread(tx: TxCodec, h: Held, s: nat, e: nat, before: seq<Copy>, c: Copy, d: Copy)
    requires ClosedBatch(h, s, e) && s < e - 1 && |Cat(h, s, e - 1)| > MAX_BATCH_BYTES
    requires Covers(h, before + [c] + [d]) && c.index == s && d.index == e - 1
    requires Deliverable(h, before) && s !in Part(h, before) && e - 1 !in Part(h, before)
    ensures Outcome(tx, h, s, before + [c] + [d]) == ([], [Failed])
  {
    hide Passes, Passed, Cat, ClosedBatch, Came, Part, StartsOf, RunOf;
    var open := before + [c];
    CoveredIsWhole(h, open + [d], s);
    PartGrows(h, open, d);
    PartGrows(h, before, c);
    GivenUpOpen(tx, h, s, e, before, c);
    PassesGrow(tx, h, s, open, d);
    ClosedForGood(tx, Part(h, open + [d]), s, Passes(tx, h, s, open), d.index);
  }

  lemma StillStarts(h: Held, held: Held, s: nat, e: nat)
    requires ClosedBatch(h, s, e) && s < e - 1 && AgreesWith(held, h)
    requires forall i: nat :: i in h && i != e - 1 ==> i in held
    ensures s in StartsOf(held)
  {
    if s != 0 { assert s - 1 in h && h[s - 1].complete && s - 1 in held && held[s - 1].complete; }
  }

  lemma WithoutItsEnd(h: Held, held: Held, s: nat, e: nat)
    requires ClosedBatch(h, s, e) && s < e - 1 && |Cat(h, s, e - 1)| > MAX_BATCH_BYTES
    requires Bounded(held) && e - 1 !in held && AgreesWith(held, h)
    requires forall i: nat :: i in h && i != e - 1 ==> i in held
    ensures Outgrown(held, s)
  {
    hide Cat;
    assert Whole(held, s, e - 1);
    WholeIsRun(held, s, e - 1);
    CatSame(h, held, s, e - 1);
  }

  lemma ClosedForGood(tx: TxCodec, held: Held, s: nat, x: History, i: nat)
    requires Bounded(held) && x.progress.closed && !x.progress.padded
    ensures Passed(tx, held, s, x, i, false) == x
  {
  }

  /** The shreds of `h` in the order of `keys`, each just as it is there. */
  function Sent(h: Held, keys: seq<nat>): (order: seq<Copy>)
    requires forall i :: i in keys ==> i in h
    ensures |order| == |keys| && forall k :: 0 <= k < |keys| ==> order[k].index == keys[k]
  {
    seq(|keys|, k requires 0 <= k < |keys| =>
      assert keys[k] in keys; Copy(keys[k], false, h[keys[k]].received, h[keys[k]].recovered))
  }

  lemma SentCame(h: Held, keys: seq<nat>, i: nat)
    requires forall i :: i in keys ==> i in h
    ensures Came(Sent(h, keys), i) <==> i in keys
  {
    var order := Sent(h, keys);
    if i in keys {
      var k :| 0 <= k < |keys| && keys[k] == i;
      assert order[k].index == i;
    }
  }

  /** Everything but `i` first, and then `i`. */
  lemma AllBut(h: Held, i: nat) returns (rest: seq<Copy>, c: Copy)
    requires Bounded(h) && i in h
    ensures Covers(h, rest + [c]) && c.index == i && Deliverable(h, rest) && i !in Part(h, rest)
  {
    hide Ascending, Part, Came;
    var keys := SortedKeys(h.Keys - {i});
    rest, c := Sent(h, keys), Copy(i, false, 0, false);
    SentDelivers(h, keys);
    PartHas(h, rest, i);
    SentCame(h, keys, i);
    forall j: nat | j in h
      ensures Came(rest + [c], j)
    {
      SentCame(h, keys, j);
      CameOn(rest, c, j);
    }
  }

  lemma SentDelivers(h: Held, keys: seq<nat>)
    requires Bounded(h) && forall i :: i in keys ==> i in h
    ensures Deliverable(h, Sent(h, keys))
  {
    assert forall k :: 0 <= k < |keys| ==> keys[k] in keys;
  }

  /** Everything but `i` and `j` first, then those. */
  lemma AllButTwo(h: Held, i: nat, j: nat) returns (rest: seq<Copy>, c: Copy, d: Copy)
    requires Bounded(h) && i in h && j in h
    ensures Covers(h, rest + [c] + [d]) && c.index == i && d.index == j
    ensures Deliverable(h, rest) && i !in Part(h, rest) && j !in Part(h, rest)
  {
    hide Ascending, Part, Came;
    var keys := SortedKeys(h.Keys - {i, j});
    rest, c, d := Sent(h, keys), Copy(i, false, 0, false), Copy(j, false, 0, false);
    SentDelivers(h, keys);
    PartHas(h, rest, i);
    PartHas(h, rest, j);
    SentCame(h, keys, i);
    SentCame(h, keys, j);
    forall k: nat | k in h
      ensures Came(rest + [c] + [d], k)
    {
      SentCame(h, keys, k);
      CameOn(rest, c, k);
      CameOn(rest + [c], d, k);
    }
  }

  /** Order dependence, decided beforehand. Two deliveries of a closed batch's slot can end with
      different entries or verdicts for it exactly if its bytes before the shred that closes it
      are more than the bound, and there was something to be had of it. */
  lemma OrderMattersExactlyWhen(tx: TxCodec, h: Held, s: nat, e: nat)
    requires ClosedBatch(h, s, e)
    ensures OrderMatters(tx, h, s) <==>
            |Cat(h, s, e - 1)| > MAX_BATCH_BYTES && !NothingToLose(tx, RunOf(h, s).data)
  {
    hide Outcome, Cat, NothingToLose, Covers, RunOf, StartsOf, Part;
    if |Cat(h, s, e - 1)| <= MAX_BATCH_BYTES || NothingToLose(tx, RunOf(h, s).data) {
      forall one, other | Covers(h, one) && Covers(h, other)
        ensures Deliverable(h, one) && Deliverable(h, other)
        ensures Outcome(tx, h, s, one) == Outcome(tx, h, s, other)
      {
        CoversDelivers(h, one);
        CoversDelivers(h, other);
        OutcomeIsFixed(tx, h, s, e, one);
        OutcomeIsFixed(tx, h, s, e, other);
      }
    } else {
      LongerThanOne(h, s, e);
      EndsAreHeld(h, s, e);
      var whole, first := AllBut(h, s);
      var open, c, d := AllButTwo(h, s, e - 1);
      CoversDelivers(h, whole + [first]);
      CoversDelivers(h, open + [c] + [d]);
      ReadWhole(tx, h, s, e, whole, first);
      GivenUpUnread(tx, h, s, e, open, c, d);
      SomethingToLose(tx, h, s, e);
    }
  }

  lemma CoversDelivers(h: Held, order: seq<Copy>)
    requires Covers(h, order)
    ensures Deliverable(h, order)
  {
  }

  lemma LongerThanOne(h: Held, s: nat, e: nat)
    requires ClosedBatch(h, s, e) && |Cat(h, s, e - 1)| > MAX_BATCH_BYTES
    ensures s < e - 1
  {
  }

  lemma EndsAreHeld(h: Held, s: nat, e: nat)
    requires ClosedBatch(h, s, e)
    ensures Bounded(h) && s in h && e - 1 in h
  {
  }

  lemma SomethingToLose(tx: TxCodec, h: Held, s: nat, e: nat)
    requires ClosedBatch(h, s, e) && !NothingToLose(tx, RunOf(h, s).data)
    ensures var run := RunOf(h, s);
            (OneShot(tx, run.data).entries, Listed(Deserved(tx, run))) != ([], [Failed])
  {
    hide Read, OneShot;
    ClosedRun(h, s, e);
  }

  // ---------------------------------------------------------------- the buffer takes these passes

  /** The buffer's history of a batch is that of the passes; it only remembers besides where
      reading resumes. */
  ghost predicate Follows(p: Progress, account: Account, x: History) {
    p.(resume := None) == x.progress && account == x.account
  }

  lemma ResumeIsNoMatter(tx: TxCodec, held: Held, s: nat, p: Progress)
    requires Bounded(held)
    ensures var n, m := Step(tx, held, s, p), Step(tx, held, s, p.(resume := None));
            m == n.(progress := n.progress.(resume := None))
  {
    hide Read, ExtentOf, RunOf;
  }

  lemma FollowingOne(tx: TxCodec, held: Held, s: nat, p: Progress, q: Progress, told: Account, tells: Account,
                     x: History, i: nat, again: bool)
    requires Bounded(held) && Follows(p, told, x)
    requires var touched := s in Candidates(StartsOf(held), i);
             var left := if again && touched then p.(extent := None, resume := None) else p;
             PassedAt(tx, held, left, q, told, tells, s, touched)
    ensures Follows(q, tells, Passed(tx, held, s, x, i, again))
  {
    hide Step, StartsOf, Candidates, Followed;
    if s in Candidates(StartsOf(held), i) {
      ResumeIsNoMatter(tx, held, s, if again then p.(extent := None, resume := None) else p);
    }
  }

  /** The buffer's own code, given these copies of the shreds of `h`, comes to what the passes do
      for every batch, and no agreeing copy makes it slice out of range. */
  method Deliver(tx: TxCodec, h: Held, order: seq<Copy>) returns (b: SlotBuffer, crashed: bool)
    requires Deliverable(h, order)
    ensures fresh(b) && b.Valid() && b.agreed && !crashed && b.held == Part(h, order)
    ensures forall s: nat :: Follows(b.ProgressOf(s), b.AccountOf(s), Passes(tx, h, s, order))
  {
    hide Passes, Accounted, CoherentWith, LevelBut, StartsOf, PassedOver, AnyCrashes, Forgotten, Handed, Came,
         ArenaBound, Candidates;
    b := new SlotBuffer(tx, 0);
    crashed := false;
    assert order[..0] == [];
    NothingFollowed(tx, h);
    for k := 0 to |order|
      invariant b.Valid() && b.agreed && !crashed && b.tx == tx && fresh(b)
      invariant b.held == Part(h, order[..k])
      invariant forall s: nat :: Follows(b.ProgressOf(s), b.AccountOf(s), Passes(tx, h, s, order[..k]))
    {
      var c := order[k];
      OneMore(order, k);
      PartGrows(h, order[..k], c);
      ghost var before, told := b.progress, b.accounts;
      ghost var was := order[..k];
      var duplicate, pieces;
      var shred := h[c.index];
      duplicate, pieces, crashed := b.Take(c.index, shred.data, shred.complete, c.last, c.received, c.recovered);
      StartsNow(b);
      FollowingAll(tx, h, was, c, duplicate, before, b.progress, told, b.accounts);
    }
    assert order[..|order|] == order;
  }

  lemma OneMore(order: seq<Copy>, k: nat)
    requires k < |order|
    ensures order[..k + 1] == order[..k] + [order[k]]
  {
  }

  lemma StartsNow(b: SlotBuffer)
    requires b.Valid()
    ensures b.starts == StartsOf(b.held) && Bounded(b.held)
  {
    b.StoredFacts();
  }

  lemma NothingFollowed(tx: TxCodec, h: Held)
    requires Bounded(h)
    ensures forall s: nat :: Passes(tx, h, s, []) == History(UNREAD, NOTHING_YET)
  {
  }

  lemma FollowingAll(tx: TxCodec, h: Held, order: seq<Copy>, c: Copy, duplicate: bool, before: map<nat, Progress>,
                     after: map<nat, Progress>, told: map<nat, Account>, tells: map<nat, Account>)
    requires Deliverable(h, order) && Deliverable(h, order + [c]) && duplicate == (c.index in Part(h, order))
    requires forall s: nat ::
               Follows(Looked(before, s, UNREAD), Looked(told, s, NOTHING_YET), Passes(tx, h, s, order))
    requires var held := Part(h, order + [c]); var touched := Candidates(StartsOf(held), c.index);
             PassedOver(tx, held, if duplicate then Forgotten(before, touched) else before, after, told, tells, touched)
    ensures forall s: nat ::
              Follows(Looked(after, s, UNREAD), Looked(tells, s, NOTHING_YET), Passes(tx, h, s, order + [c]))
  {
    hide Passes, Passed, StartsOf, Candidates, PassedAt, Follows, Came, Part;
    var held := Part(h, order + [c]);
    var touched := Candidates(StartsOf(held), c.index);
    var left := if duplicate then Forgotten(before, touched) else before;
    PartGrows(h, order, c);
    forall s: nat
      ensures Follows(Looked(after, s, UNREAD), Looked(tells, s, NOTHING_YET), Passes(tx, h, s, order + [c]))
    {
      PassesGrow(tx, h, s, order, c);
      ForgottenAt(before, touched, s);
      assert PassedAt(tx, held, Looked(left, s, UNREAD), Looked(after, s, UNREAD),
                      Looked(told, s, NOTHING_YET), Looked(tells, s, NOTHING_YET), s, s in touched);
      FollowingOne(tx, held, s, Looked(before, s, UNREAD), Looked(after, s, UNREAD),
                   Looked(told, s, NOTHING_YET), Looked(tells, s, NOTHING_YET), Passes(tx, h, s, order), c.index,
                   duplicate);
    }
  }

  lemma ForgottenAt(progress: map<nat, Progress>, starts: seq<nat>, s: nat)
    ensures Looked(Forgotten(progress, starts), s, UNREAD) ==
            var p := Looked(progress, s, UNREAD);
            if s in starts then p.(extent := None, resume := None) else p
  {
  }

  // ---------------------------------------------------------------- a copy that differs

  lemma PassedOnce(tx: TxCodec, held: Held, after: map<nat, Progress>, tells: map<nat, Account>, touched: seq<nat>,
                   s: nat)
    requires Bounded(held) && s in touched && PassedOver(tx, held, map[], after, map[], tells, touched)
    ensures var p := Step(tx, held, s, UNREAD).progress;
            Looked(after, s, UNREAD) == p.(resume := Looked(after, s, UNREAD).resume)
  {
    hide Step;
    assert PassedAt(tx, held, Looked(map[], s, UNREAD), Looked(after, s, UNREAD), Looked(map[], s, NOTHING_YET),
                    Looked(tells, s, NOTHING_YET), s, s in touched);
  }

  lemma CandidateCrashes(tx: TxCodec, held: Held, progress: map<nat, Progress>, touched: seq<nat>, s: nat, p: Progress)
    requires Bounded(held) && s in touched && Looked(progress, s, UNREAD).(resume := None) == p.(resume := None)
    requires Step(tx, held, s, p.(extent := None, resume := None)).crashed
    ensures AnyCrashes(tx, held, Forgotten(progress, touched), touched)
  {
    hide Step;
    ForgottenAt(progress, touched, s);
  }

  /** On the buffer's own code: the first copy of a shred is read as far as it goes, a second one,
      empty and closing the batch, has the decoder slice out of range. */
  method AShorterCopyComes(tx: TxCodec) returns (b: SlotBuffer, first: bool, second: bool)
    ensures b.Valid() && !first && second && !b.agreed
  {
    hide Step, StartsOf, Candidates, PassedOver, AnyCrashes, Handed, OneOfTwo, Forgotten;
    b := new SlotBuffer(tx, 0);
    var duplicate, pieces;
    duplicate, pieces, first := b.Take(0, OneOfTwo(), false, false, 0, false);
    ghost var h: Held := map[0 := Shred(OneOfTwo(), false, 0, false)];
    assert b.held == h;
    StartsNow(b);
    ItsOwnCandidate(b.starts, 0);
    ghost var progress := b.progress;
    PassedOnce(tx, h, b.progress, b.accounts, Candidates(b.starts, 0), 0);
    duplicate, pieces, second := b.Take(0, [], true, false, 1, false);
    ghost var g := h[0 := Shred([], true, 1, false)];
    StartsNow(b);
    ItsOwnCandidate(b.starts, 0);
    AShorterCopyCrashes(tx, h, g);
    CandidateCrashes(tx, g, progress, Candidates(b.starts, 0), 0, Step(tx, h, 0, UNREAD).progress);
  }
}
