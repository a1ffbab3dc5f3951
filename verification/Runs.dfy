/** The shreds one slot holds, as values: runs of consecutive indices, the bytes they
    carry, where batches begin, and which of all that one more shred can change. */
module Runs {
  import opened Bytes
  import opened Collections
  import opened Codec

  /** One copy of a shred, with when it came and whether erasure recovery produced it. */
  datatype Shred = Shred(data: seq<byte>, complete: bool, received: nat, recovered: bool)

  type Held = map<nat, Shred>

  /** `MAX_SHREDS_PER_SLOT`: parsing refuses any index at or past it. */
  const INDEX_LIMIT := 32768

  ghost predicate Bounded(h: Held) {
    forall i :: i in h ==> i < INDEX_LIMIT
  }

  /** Every index in `[s, e)` is held and none but the last closes a batch. */
  ghost predicate Stretch(h: Held, s: nat, e: nat) {
    && s <= e
    && (forall i :: s <= i < e ==> i in h)
    && (forall i :: s <= i < e - 1 ==> !h[i].complete)
  }

  /** A stretch that cannot go on: it ends in a terminator or in front of a gap. */
  ghost predicate Whole(h: Held, s: nat, e: nat) {
    && Stretch(h, s, e)
    && ((s < e && h[e - 1].complete) || e !in h)
  }

  ghost function RunEnd(h: Held, s: nat): (e: nat)
    ensures Stretch(h, s, e)
    ensures Bounded(h) ==> Whole(h, s, e)
    decreases INDEX_LIMIT - s
  {
    if s < INDEX_LIMIT && s in h then
      if h[s].complete then s + 1 else RunEnd(h, s + 1)
    else s
  }

  lemma StretchWithinRun(h: Held, s: nat, e: nat)
    requires Bounded(h) && Stretch(h, s, e)
    ensures e <= RunEnd(h, s)
    ensures s < e && h[e - 1].complete ==> RunEnd(h, s) == e
  {
    var end := RunEnd(h, s);
    assert Whole(h, s, end);
    assert end < e ==> end in h;
    assert s < e < end ==> !h[e - 1].complete;
  }

  lemma WholeIsRun(h: Held, s: nat, e: nat)
    requires Bounded(h) && Whole(h, s, e)
    ensures RunEnd(h, s) == e
  {
    StretchWithinRun(h, s, e);
  }

  // ---------------------------------------------------------------- bytes of a stretch

  ghost function Cat(h: Held, s: nat, e: nat): (r: seq<byte>)
    requires s <= e && forall i :: s <= i < e ==> i in h
    decreases e - s
  {
    if s == e then [] else Cat(h, s, e - 1) + h[e - 1].data
  }

  lemma CatGrows(h: Held, s: nat, e: nat)
    requires s <= e && forall i :: s <= i <= e ==> i in h
    ensures Cat(h, s, e + 1) == Cat(h, s, e) + h[e].data
  {
  }

  lemma {:induction false} CatSplit(h: Held, s: nat, m: nat, e: nat)
    requires s <= m <= e && forall i :: s <= i < e ==> i in h
    ensures Cat(h, s, e) == Cat(h, s, m) + Cat(h, m, e)
    decreases e - m
  {
    if m < e {
      CatSplit(h, s, m, e - 1);
      assert (Cat(h, s, m) + Cat(h, m, e - 1)) + h[e - 1].data == Cat(h, s, m) + (Cat(h, m, e - 1) + h[e - 1].data);
    } else {
      assert Cat(h, s, m) + [] == Cat(h, s, m);
    }
  }

  lemma {:induction false} CatSame(h: Held, g: Held, s: nat, e: nat)
    requires s <= e
    requires forall i :: s <= i < e ==> i in h && i in g && h[i].data == g[i].data
    ensures Cat(h, s, e) == Cat(g, s, e)
    decreases e - s
  {
    if s < e { CatSame(h, g, s, e - 1); }
  }

  // ---------------------------------------------------------------- extents

  datatype Extent = Extent(last: nat, complete: bool, firstReceived: nat, recovered: bool, len: nat)

  ghost function FirstReceived(h: Held, s: nat, e: nat): nat
    requires s < e && forall i :: s <= i < e ==> i in h
    decreases e - s
  {
    if e == s + 1 then h[s].received else
      var before := FirstReceived(h, s, e - 1);
      if before <= h[e - 1].received then before else h[e - 1].received
  }

  ghost predicate AnyRecovered(h: Held, s: nat, e: nat)
    requires forall i :: s <= i < e ==> i in h
  {
    exists i :: s <= i < e && h[i].recovered
  }

  /** What a walk over the stretch `[s, e)` measures. */
  ghost function Measure(h: Held, s: nat, e: nat): Extent
    requires s < e && forall i :: s <= i < e ==> i in h
  {
    Extent(e - 1, h[e - 1].complete, FirstReceived(h, s, e), AnyRecovered(h, s, e), |Cat(h, s, e)|)
  }

  /** The walk from scratch: all of the run beginning at `s`, if there is any. */
  ghost function ExtentOf(h: Held, s: nat): Option<Extent> {
    var e := RunEnd(h, s);
    if e == s then None else Some(Measure(h, s, e))
  }

  lemma {:induction false} MeasureSame(h: Held, g: Held, s: nat, e: nat)
    requires s < e
    requires forall i :: s <= i < e ==> i in h && i in g && h[i] == g[i]
    ensures Measure(h, s, e) == Measure(g, s, e)
    decreases e - s
  {
    CatSame(h, g, s, e);
    FirstReceivedSame(h, g, s, e);
    assert AnyRecovered(h, s, e) == AnyRecovered(g, s, e);
  }

  /** It is the earliest receipt of them all. */
  lemma {:induction false} FirstIsEarliest(h: Held, s: nat, e: nat, i: nat)
    requires s <= i < e && forall j :: s <= j < e ==> j in h
    ensures FirstReceived(h, s, e) <= h[i].received
    ensures exists j :: s <= j < e && h[j].received == FirstReceived(h, s, e)
    decreases e - s
  {
    if s + 1 < e {
      FirstIsEarliest(h, s, e - 1, Min(i, e - 2));
      var j :| s <= j < e - 1 && h[j].received == FirstReceived(h, s, e - 1);
      assert s <= j < e;
    }
  }

  lemma {:induction false} FirstReceivedSame(h: Held, g: Held, s: nat, e: nat)
    requires s < e
    requires forall i :: s <= i < e ==> i in h && i in g && h[i] == g[i]
    ensures FirstReceived(h, s, e) == FirstReceived(g, s, e)
    decreases e - s
  {
    if s + 1 < e { FirstReceivedSame(h, g, s, e - 1); }
  }

  /** A walk from `s` that has crossed the shreds before `index` and met no terminator. */
  ghost predicate Walked(h: Held, s: nat, index: nat, len: nat, first: Option<nat>, recovered: bool) {
    && Stretch(h, s, index)
    && (s < index ==> !h[index - 1].complete)
    && len == |Cat(h, s, index)|
    && first == (if s == index then None else Some(FirstReceived(h, s, index)))
    && recovered == AnyRecovered(h, s, index)
  }

  function Earlier(first: Option<nat>, received: nat): nat {
    match first
    case Some(earliest) => if earliest <= received then earliest else received
    case None => received
  }

  lemma WalkingOne(h: Held, s: nat, index: nat, len: nat, first: Option<nat>, recovered: bool)
    requires Walked(h, s, index, len, first, recovered) && index in h
    ensures Stretch(h, s, index + 1)
    ensures Measure(h, s, index + 1) ==
            Extent(index, h[index].complete, Earlier(first, h[index].received), recovered || h[index].recovered,
                   len + |h[index].data|)
    ensures !h[index].complete ==>
              Walked(h, s, index + 1, len + |h[index].data|, Some(Earlier(first, h[index].received)),
                     recovered || h[index].recovered)
  {
    if AnyRecovered(h, s, index) {
      var i :| s <= i < index && h[i].recovered;
      assert s <= i < index + 1 && h[i].recovered;
    }
  }

  lemma StartingWalk(h: Held, s: nat)
    ensures Walked(h, s, s, 0, None, false)
  {
  }

  lemma ResumingWalk(h: Held, s: nat, x: Extent)
    requires s <= x.last && Stretch(h, s, x.last + 1) && x == Measure(h, s, x.last + 1) && !x.complete
    ensures Walked(h, s, x.last + 1, x.len, Some(x.firstReceived), x.recovered)
  {
  }

  lemma MeasureFlag(h: Held, s: nat, e: nat)
    requires s < e && forall i :: s <= i < e ==> i in h
    ensures Measure(h, s, e).complete == h[e - 1].complete
  {
  }

  lemma WalkedStretch(h: Held, s: nat, index: nat, len: nat, first: Option<nat>, recovered: bool)
    requires Walked(h, s, index, len, first, recovered)
    ensures Stretch(h, s, index) && (s < index ==> first.Some?)
  {
  }

  lemma WalkedSoFar(h: Held, s: nat, index: nat, len: nat, first: Option<nat>, recovered: bool)
    requires Walked(h, s, index, len, first, recovered) && s < index
    ensures Measure(h, s, index) == Extent(index - 1, false, first.value, recovered, len)
  {
  }

  // ---------------------------------------------------------------- batches of a slot

  /** Where batches begin: index zero, and one past every terminator held. */
  ghost function StartsOf(h: Held): (starts: set<nat>)
    ensures 0 in starts
  {
    {0} + set i | i in h && h[i].complete :: i + 1
  }

  /** The greatest start at or below `index`. */
  function Containing(starts: set<nat>, index: nat): (c: nat)
    requires 0 in starts
    ensures c in starts && c <= index
    ensures forall s :: s in starts && s <= index ==> s <= c
  {
    if index in starts then index else Containing(starts, index - 1)
  }

  /** The only batches whose run a shred at `index` can change: the one it lies in, and the one
      that begins behind it. */
  function Candidates(starts: set<nat>, index: nat): (r: seq<nat>)
    requires 0 in starts
    ensures forall s :: s in r <==> s == Containing(starts, index) || (s == index + 1 && s in starts)
    ensures forall s :: s in r ==> s in starts
    ensures |r| <= 2 && forall j, k :: 0 <= j < k < |r| ==> r[j] != r[k]
  {
    [Containing(starts, index)] + if index + 1 in starts then [index + 1] else []
  }

  /** A stretch from a start that takes in `i` belongs to the batch containing `i`. */
  lemma StretchNamesItsBatch(h: Held, i: nat, s: nat)
    requires s in StartsOf(h) && s <= i
    requires forall j :: s <= j < i ==> j in h && !h[j].complete
    ensures Containing(StartsOf(h), i) == s
  {
    var c := Containing(StartsOf(h), i);
    assert c != 0 ==> exists j :: j in h && h[j].complete && c == j + 1;
  }

  lemma RunNamesItsBatch(h: Held, i: nat, s: nat)
    requires s in StartsOf(h)
    ensures s <= i < RunEnd(h, s) ==> s in Candidates(StartsOf(h), i)
  {
    if s <= i < RunEnd(h, s) { StretchNamesItsBatch(h, i, s); }
  }

  /** A batch's run as one value: what its bytes are, whether they are all of it, one past the
      index they reach, and how many of them come before the shred that closes it. */
  datatype Run = Run(data: seq<byte>, complete: bool, end: nat, openLen: nat)

  ghost function RunOf(h: Held, s: nat): Run {
    var e := RunEnd(h, s);
    var complete := s < e && h[e - 1].complete;
    Run(Cat(h, s, e), complete, e, |Cat(h, s, if complete then e - 1 else e)|)
  }

  ghost predicate Extends(small: Run, big: Run) {
    && small.data <= big.data
    && small.end <= big.end
    && small.openLen <= big.openLen
    && (small.complete ==> big == small)
  }

  /** Delivered shreds agree with those of `whole`: same bytes, same boundaries. */
  ghost predicate AgreesWith(h: Held, whole: Held) {
    forall i :: i in h ==> i in whole && h[i].data == whole[i].data && h[i].complete == whole[i].complete
  }

  lemma AgreeingRunExtends(h: Held, whole: Held, s: nat)
    requires Bounded(h) && Bounded(whole) && AgreesWith(h, whole)
    ensures Extends(RunOf(h, s), RunOf(whole, s))
  {
    var e := RunEnd(h, s);
    var end := RunEnd(whole, s);
    assert Stretch(whole, s, e);
    StretchWithinRun(whole, s, e);
    CatSame(h, whole, s, e);
    CatSplit(whole, s, e, end);
  }

  /** Locality: whatever copy of shred `i` arrives, of the batches then known only the
      candidates of `i` have a run it can have changed. */
  lemma OnlyCandidatesChange(h: Held, i: nat, shred: Shred, s: nat)
    requires Bounded(h) && i < INDEX_LIMIT
    requires var g := h[i := shred]; s in StartsOf(g) && s !in Candidates(StartsOf(g), i)
    ensures var g := h[i := shred];
            && s in StartsOf(h)
            && RunOf(g, s) == RunOf(h, s) && ExtentOf(g, s) == ExtentOf(h, s)
  {
    hide RunEnd, Cat, Measure, Candidates;
    var g := h[i := shred];
    OtherStartsStay(h, i, shred, s);
    RunNamesItsBatch(g, i, s);
    SameStretchSameRun(h, i, shred, s);
  }

  lemma OtherStartsStay(h: Held, i: nat, shred: Shred, s: nat)
    requires s in StartsOf(h[i := shred]) && s !in Candidates(StartsOf(h[i := shred]), i)
    ensures s in StartsOf(h)
  {
    var g := h[i := shred];
    if s != 0 {
      assert s - 1 in g && g[s - 1].complete && s != i + 1;
      assert s - 1 in h && h[s - 1].complete;
    }
  }

  lemma SameStretchSameRun(h: Held, i: nat, shred: Shred, s: nat)
    requires Bounded(h) && i < INDEX_LIMIT
    requires var g := h[i := shred]; !(s <= i < RunEnd(g, s))
    ensures var g := h[i := shred];
            RunOf(g, s) == RunOf(h, s) && ExtentOf(g, s) == ExtentOf(h, s)
  {
    hide Cat, Measure, RunEnd;
    var g := h[i := shred];
    var e := RunEnd(g, s);
    forall j | s <= j < e ensures j in h && h[j] == g[j] { assert j in g && j != i; }
    assert Whole(h, s, e);
    WholeIsRun(h, s, e);
    CatSame(g, h, s, e);
    if s < e {
      MeasureSame(g, h, s, e);
      CatSame(g, h, s, e - 1);
    }
  }
}
