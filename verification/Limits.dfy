/** Where the promises stop: what a copy that differs can do, and what a batch that outgrows its
    bound depends on. */
module Limits {
  import opened Bytes
  import opened Collections
  import opened Codec
  import opened Runs
  import opened Batches

  // ---------------------------------------------------------------- copies that differ

  /** A pass slices past the end of the bytes it holds exactly when a batch that still owes
      entries, and has read further than its run now goes, finds that run closed. */
  lemma CrashesExactlyWhen(tx: TxCodec, h: Held, s: nat, p: Progress)
    requires Bounded(h)
    ensures var run := RunOf(h, s);
            Step(tx, h, s, p).crashed <==>
              !p.closed && run.complete && |run.data| < p.consumed && p.remaining.Some? && p.remaining.value > 0
  {
    hide RunOf, ExtentOf, Read;
    ExtentIsTheRun(h, s);
    var run := RunOf(h, s);
    ReadsOutOfRange(tx, run.data, p.consumed, p.remaining);
  }

  lemma ReadsOutOfRange(tx: TxCodec, bytes: seq<byte>, at: nat, remaining: Option<nat>)
    ensures Read(tx, bytes, at, remaining).status.OutOfRange? <==>
              at > |bytes| && remaining.Some? && remaining.value > 0
  {
    hide ReadEntries;
  }

  /** A count of two, and one entry with no transactions in it. */
  function OneOfTwo(): (b: seq<byte>)
    ensures |b| == ENTRY_COUNT + MIN_ENTRY_BYTES
  {
    [2] + Zeros(7 + MIN_ENTRY_BYTES)
  }

  lemma OneOfTwoReads(tx: TxCodec)
    ensures var r := OneShot(tx, OneOfTwo());
            r.consumed == 56 && r.remaining == Some(1) && r.status.Waiting? && |r.entries| == 1
  {
    hide FromLE, ReadEntries, ParseEntry;
    var b := OneOfTwo();
    CountOfTwo(b[..8]);
    assert b[0..0 + ENTRY_COUNT] == b[..8];
    EmptyEntryParses(tx, b[8..]);
    ReadsOne(tx, b, 8, 2);
    ReadsNothing(tx, b, 56, 1);
  }

  lemma CountOfTwo(b: seq<byte>)
    requires |b| == 8 && b[0] == 2 && forall i :: 1 <= i < 8 ==> b[i] == 0
    ensures FromLE(b) == 2
  {
    ZerosAreZero(b[1..]);
  }

  lemma EmptyEntryParses(tx: TxCodec, b: seq<byte>)
    requires |b| == MIN_ENTRY_BYTES && forall i :: 0 <= i < |b| ==> b[i] == 0
    ensures ParseEntry(tx, b).Parsed? && ParseEntry(tx, b).size == 48
  {
    ZerosAreZero(b[40..48]);
  }

  lemma LoneRun(h: Held, shred: Shred)
    requires h == map[0 := shred]
    ensures Bounded(h) && RunOf(h, 0).data == shred.data && RunOf(h, 0).complete == shred.complete
            && ExtentOf(h, 0).Some?
  {
    assert Whole(h, 0, 1);
    WholeIsRun(h, 0, 1);
    assert Cat(h, 0, 1) == [] + shred.data;
  }

  /** It can happen: one entry of two is read out of shred 0, and then a second copy of shred 0
      arrives that is empty and says it closes the batch. */
  lemma AShorterCopyCrashes(tx: TxCodec, h: Held, g: Held)
    requires h == map[0 := Shred(OneOfTwo(), false, 0, false)]
    requires g == h[0 := Shred([], true, 1, false)]
    ensures Bounded(h) && Bounded(g)
    ensures var p := Step(tx, h, 0, UNREAD).progress;
            !Step(tx, h, 0, UNREAD).crashed && Step(tx, g, 0, p.(extent := None, resume := None)).crashed
  {
    hide RunOf, ExtentOf, Read, OneOfTwo;
    LoneRun(h, Shred(OneOfTwo(), false, 0, false));
    assert g == map[0 := Shred([], true, 1, false)];
    LoneRun(g, Shred([], true, 1, false));
    ExtentIsTheRun(h, 0);
    OneOfTwoReads(tx);
    CrashesExactlyWhen(tx, h, 0, UNREAD);
    var p := Step(tx, h, 0, UNREAD).progress;
    CrashesExactlyWhen(tx, g, 0, p.(extent := None, resume := None));
  }

  // ---------------------------------------------------------------- batches past the bound

  ghost predicate PartOf(g: Held, h: Held) {
    forall i :: i in g ==> i in h && g[i] == h[i]
  }

  /** An open run longer than any batch may be. */
  ghost predicate Outgrown(h: Held, s: nat) {
    !RunOf(h, s).complete && |RunOf(h, s).data| > MAX_BATCH_BYTES
  }

  /** A batch that finds its run outgrown is given up on, whatever it has read. */
  lemma OutgrownIsGivenUp(tx: TxCodec, h: Held, s: nat, p: Progress)
    requires Bounded(h) && Outgrown(h, s) && !p.closed
    ensures var n := Step(tx, h, s, p);
            && n.progress == p.(extent := n.progress.extent, closed := true)
            && n.advance.Some? && n.advance.value.finished == Some(Failed) && n.advance.value.entries == []
  {
    hide RunOf, ExtentOf;
    ExtentIsTheRun(h, s);
  }

  /** Some part of a closed batch is an open run past the bound exactly if its bytes before the
      shred that closes it are more than the bound. */
  lemma OutgrownExactlyWhen(h: Held, s: nat, e: nat)
    requires Bounded(h) && s < e && Stretch(h, s, e) && h[e - 1].complete
    ensures (exists g :: PartOf(g, h) && Outgrown(g, s)) <==> |Cat(h, s, e - 1)| > MAX_BATCH_BYTES
  {
    hide Cat;
    WholeIsRun(h, s, e);
    assert RunOf(h, s).openLen == |Cat(h, s, e - 1)|;
    forall g: Held | PartOf(g, h) && Outgrown(g, s)
      ensures |Cat(h, s, e - 1)| > MAX_BATCH_BYTES
    {
      AgreeingRunExtends(g, h, s);
    }
    var short := h - {e - 1};
    assert PartOf(short, h);
    assert Whole(short, s, e - 1);
    WholeIsRun(short, s, e - 1);
    CatSame(h, short, s, e - 1);
  }

  lemma ZerosAreAMarker(tx: TxCodec, bytes: seq<byte>)
    requires |bytes| >= ENTRY_COUNT && forall i :: 0 <= i < |bytes| ==> bytes[i] == 0
    ensures OneShot(tx, bytes) == Reading([], ENTRY_COUNT, Some(0), Done)
  {
    ZerosAreZero(bytes[0..0 + ENTRY_COUNT]);
  }

  lemma RunOfTwo(both: Held, first: Shred, last: Shred)
    requires both == map[0 := first, 1 := last] && !first.complete && last == Shred([], true, 0, false)
    ensures Bounded(both) && RunOf(both, 0).data == first.data && RunOf(both, 0).complete
  {
    assert Whole(both, 0, 2);
    WholeIsRun(both, 0, 2);
    assert Cat(both, 0, 1) == [] + first.data;
    assert Cat(both, 0, 2) == Cat(both, 0, 1) + [];
  }

  /** It does matter: two shreds, a first longer than the bound and an empty one that closes the
      batch. In order the batch fails; the other way round it is a marker. */
  lemma ALongBatchDependsOnOrder(tx: TxCodec, first: Shred, last: Shred, one: Held, other: Held, both: Held)
    requires first == Shred(Zeros(MAX_BATCH_BYTES + 1), false, 0, false) && last == Shred([], true, 0, false)
    requires one == map[0 := first] && other == map[1 := last] && both == map[0 := first, 1 := last]
    ensures Bounded(one) && Bounded(other) && Bounded(both)
    ensures var pass := Step(tx, one, 0, UNREAD); var next := Step(tx, both, 0, pass.progress);
            Followed(Followed(NOTHING_YET, pass.advance), next.advance).verdicts == [Failed]
    ensures var pass := Step(tx, other, 0, UNREAD); var next := Step(tx, both, 0, pass.progress);
            Followed(Followed(NOTHING_YET, pass.advance), next.advance).verdicts == [Marker]
  {
    hide RunOf, ExtentOf, Read, Zeros;
    LoneRun(one, first);
    ExtentIsTheRun(one, 0);
    RunOfTwo(both, first, last);
    ExtentIsTheRun(both, 0);
    ZerosAreAMarker(tx, first.data);
    assert RunEnd(other, 0) == 0 && ExtentOf(other, 0).None? by { NothingAtZero(other); }
  }

  lemma NothingAtZero(h: Held)
    requires 0 !in h
    ensures RunEnd(h, 0) == 0 && ExtentOf(h, 0).None?
  {
  }
}
