/** What one batch goes through between its first shred and its last.

    `Step` is one pass over a batch with every cache taken away: it walks the run from its
    first shred and reads the concatenated bytes. `SlotBuffer` is proved to do the same
    with its caches; the lemmas here say that, pass after pass and however the shreds
    arrive, what comes out is what `OneShot` reads from the run held. */
module Batches {
  import opened Bytes
  import opened Collections
  import opened Codec
  import opened Runs

  datatype BatchOutcome = Decoded | Marker | Failed

  datatype Progress = Progress(
    consumed: nat,
    remaining: Option<nat>,
    hasOpened: bool,
    closed: bool,
    padded: bool,
    extent: Option<Extent>,
    resume: Option<(nat, nat)>)

  const UNREAD := Progress(0, None, false, false, false, None, None)

  datatype Advance = Advance(
    lastShred: nat,
    entries: seq<Entry>,
    firstReceived: nat,
    opens: bool,
    finished: Option<BatchOutcome>,
    recovered: bool)

  datatype Stepped = Stepped(progress: Progress, advance: Option<Advance>, crashed: bool)

  // ---------------------------------------------------------------- one pass, no caches

  function Verdict(status: Status, any: bool, complete: bool): Option<BatchOutcome> {
    match status
    case Done => Some(if any then Decoded else Marker)
    case Invalid => Some(Failed)
    case Waiting => if complete then Some(Failed) else None
    case OutOfRange => None
  }

  /** What a pass makes of the entries it read. */
  function Conclude(p: Progress, x: Extent, r: Reading): (n: Stepped)
    ensures !n.crashed && n.progress.extent == p.extent && n.progress.resume == p.resume
  {
    var any := p.hasOpened || r.entries != [];
    var finished := Verdict(r.status, any, x.complete);
    var after := p.(consumed := r.consumed, remaining := r.remaining, hasOpened := any,
                    closed := finished.Some?,
                    padded := (finished == Some(Decoded) || finished == Some(Marker)) && !x.complete);
    if r.entries == [] && finished.None? then Stepped(after, None, false)
    else
      var opens := !p.hasOpened && r.entries != [];
      Stepped(after, Some(Advance(x.last, r.entries, x.firstReceived, opens, finished, x.recovered)), false)
  }

  ghost predicate Claimed(p: Progress) {
    p.extent.Some? && p.extent.value.complete
  }

  ghost function ClaimPadding(h: Held, s: nat, p: Progress): Stepped {
    if !p.padded || Claimed(p) then Stepped(p, None, false) else
      match ExtentOf(h, s)
      case None => Stepped(p, None, false)
      case Some(x) =>
        var after := p.(extent := Some(x));
        if !x.complete then Stepped(after, None, false)
        else Stepped(after, Some(Advance(x.last, [], x.firstReceived, false, None, x.recovered)), false)
  }

  ghost function Step(tx: TxCodec, h: Held, s: nat, p: Progress): Stepped
    requires Bounded(h)
  {
    if p.closed then ClaimPadding(h, s, p) else
      match ExtentOf(h, s)
      case None => Stepped(p, None, false)
      case Some(x) =>
        var walked := p.(extent := Some(x));
        if !x.complete && x.len > MAX_BATCH_BYTES then
          Stepped(walked.(closed := true),
                  Some(Advance(x.last, [], x.firstReceived, false, Some(Failed), x.recovered)), false)
        else if x.len <= p.consumed && !x.complete then Stepped(walked, None, false)
        else
          var r := Read(tx, RunOf(h, s).data, p.consumed, p.remaining);
          if r.status.OutOfRange? then Stepped(walked, None, true)
          else Conclude(walked, x, r)
  }

  // ---------------------------------------------------------------- what the caches mean

  /** Both caches describe a stretch of the run as it is held now. */
  ghost predicate CacheTrue(h: Held, s: nat, p: Progress) {
    && (p.extent.Some? ==>
          var x := p.extent.value;
          s <= x.last && Stretch(h, s, x.last + 1) && x == Measure(h, s, x.last + 1))
    && (p.resume.Some? ==>
          var (from, base) := p.resume.value;
          Stretch(h, s, from) && base == |Cat(h, s, from)| && base <= p.consumed)
  }

  /** No copy of a shred, agreeing or not, can falsify a cache the program keeps across it. */
  lemma CacheOutlivesShred(h: Held, i: nat, shred: Shred, s: nat, p: Progress)
    requires Bounded(h) && i < INDEX_LIMIT && CacheTrue(h, s, p)
    requires s in StartsOf(h[i := shred])
    requires i !in h || s !in Candidates(StartsOf(h[i := shred]), i)
    ensures CacheTrue(h[i := shred], s, p)
  {
    var g := h[i := shred];
    if p.extent.Some? {
      StretchOutlivesShred(h, i, shred, s, p.extent.value.last + 1);
      MeasureSame(h, g, s, p.extent.value.last + 1);
    }
    if p.resume.Some? {
      var (from, base) := p.resume.value;
      StretchOutlivesShred(h, i, shred, s, from);
      CatSame(h, g, s, from);
    }
  }

  lemma StretchOutlivesShred(h: Held, i: nat, shred: Shred, s: nat, e: nat)
    requires Bounded(h) && i < INDEX_LIMIT && Stretch(h, s, e)
    requires s in StartsOf(h[i := shred])
    requires i !in h || s !in Candidates(StartsOf(h[i := shred]), i)
    ensures Stretch(h[i := shred], s, e) && !(s <= i < e)
  {
    var g := h[i := shred];
    if s <= i < e {
      StretchNamesItsBatch(g, i, s);
    }
  }

  // ---------------------------------------------------------------- what has been reported

  /** Everything one batch ever came to: its entries in the order they were handed over, its
      verdicts, how often it was said to have opened, and where the range of each piece
      handed over ended. */
  datatype Account = Account(emitted: seq<Entry>, verdicts: seq<BatchOutcome>, openings: nat, ends: seq<nat>)

  const NOTHING_YET := Account([], [], 0, [])

  function Listed<T>(o: Option<T>): seq<T> {
    match o case None => [] case Some(v) => [v]
  }

  /** The one advance not handed on is a failed batch's that carries no entries. */
  predicate Worth(a: Advance) {
    a.entries != [] || a.finished != Some(Failed)
  }

  function Reported(account: Account, a: Advance): Account {
    Account(account.emitted + a.entries,
            account.verdicts + Listed(a.finished),
            account.openings + if a.opens then 1 else 0,
            account.ends + if Worth(a) then [a.lastShred] else [])
  }

  function Followed(account: Account, advance: Option<Advance>): Account {
    match advance case None => account case Some(a) => Reported(account, a)
  }

  ghost predicate Rising(ends: seq<nat>, limit: nat) {
    && (forall j, k :: 0 <= j < k < |ends| ==> ends[j] <= ends[k])
    && (forall k :: 0 <= k < |ends| ==> ends[k] < limit)
  }

  /** The verdict a batch's bytes deserve, whatever order they came in. */
  ghost function Deserved(tx: TxCodec, run: Run): Option<BatchOutcome> {
    var r := OneShot(tx, run.data);
    Verdict(r.status, r.entries != [], run.complete)
  }

  /** Nothing decodable is left in the run: everything a single reading of it yields has
      been handed over, and so has its verdict. */
  ghost predicate CaughtUp(tx: TxCodec, run: Run, p: Progress, account: Account) {
    var r := OneShot(tx, run.data);
    && account.emitted == r.entries
    && account.verdicts == Listed(Deserved(tx, run))
    && (p.closed <==> Deserved(tx, run).Some?)
    && (!p.closed ==> p.consumed == r.consumed && p.remaining == r.remaining && !p.padded
                      && |run.data| <= MAX_BATCH_BYTES)
    && (p.closed && r.status.Done? ==> p.padded || run.complete)
    && (p.padded ==> p.closed && r.status.Done?)
    && (run.complete && r.status.Done? ==> account.ends != [] && account.ends[|account.ends| - 1] == run.end - 1)
  }

  /** The one way to fall behind for good: the run outgrew its bound before it closed. */
  ghost predicate GivenUp(tx: TxCodec, run: Run, p: Progress, account: Account) {
    && run.openLen > MAX_BATCH_BYTES
    && p.closed && !p.padded
    && account.verdicts == [Failed]
    && account.emitted <= OneShot(tx, run.data).entries
  }

  ghost predicate BatchSound(tx: TxCodec, run: Run, p: Progress, account: Account) {
    && (CaughtUp(tx, run, p, account) || GivenUp(tx, run, p, account))
    && p.hasOpened == (account.emitted != [])
    && account.openings == (if p.hasOpened then 1 else 0)
    && Rising(account.ends, run.end)
    && Vouched(account)
  }

  /** No range is told of a batch that came to nothing, and of one that was not read to its end
      each range told came with an entry: a failing pass without any vouches for nothing. */
  ghost predicate Vouched(account: Account) {
    && (account.ends != [] ==> account.emitted != [] || account.verdicts == [Marker])
    && (|account.ends| <= |account.emitted| || account.verdicts == [Decoded] || account.verdicts == [Marker])
  }

  /** The closing shred's claim, if one was owed, has been made. */
  ghost predicate Settled(run: Run, p: Progress) {
    p.padded && run.complete ==> Claimed(p)
  }

  // ---------------------------------------------------------------- a pass keeps the promise

  lemma UnreadIsSound(tx: TxCodec, s: nat)
    ensures BatchSound(tx, Run([], false, s, 0), UNREAD, NOTHING_YET)
  {
    var r := OneShot(tx, []);
    assert r == Reading([], 0, None, Waiting);
  }

  lemma OneShotGrows(tx: TxCodec, small: seq<byte>, big: seq<byte>)
    requires small <= big
    ensures var r := OneShot(tx, small);
            && r.entries <= OneShot(tx, big).entries
            && (r.status.Waiting? ==> OneShot(tx, big) == After(r.entries, Read(tx, big, r.consumed, r.remaining)))
            && (!r.status.Waiting? ==> OneShot(tx, big) == r)
  {
    var more := big[|small|..];
    assert big == small + more;
    ReadResumes(tx, small, more, 0, None);
  }

  lemma GivenUpStays(tx: TxCodec, small: Run, big: Run, p: Progress, account: Account)
    requires Extends(small, big) && GivenUp(tx, small, p, account)
    ensures GivenUp(tx, big, p, account)
  {
    OneShotGrows(tx, small.data, big.data);
  }

  lemma ExtentIsTheRun(h: Held, s: nat)
    requires Bounded(h)
    ensures var run := RunOf(h, s); var x := ExtentOf(h, s);
            && run.openLen <= |run.data| && (!run.complete ==> run.openLen == |run.data|)
            && (x.None? ==> run == Run([], false, s, 0))
            && (x.Some? ==> x.value.last + 1 == run.end && x.value.complete == run.complete
                            && x.value.len == |run.data| && s <= x.value.last)
  {
  }

  /** What the claim reports: no entry, no verdict, only how far the batch really reaches. */
  lemma ClaimReports(h: Held, s: nat, run: Run, p: Progress, account: Account)
    requires Bounded(h) && run == RunOf(h, s)
    ensures var n := ClaimPadding(h, s, p); var told := Followed(account, n.advance);
            && n.progress == p.(extent := n.progress.extent)
            && (told.emitted, told.verdicts, told.openings) == (account.emitted, account.verdicts, account.openings)
            && (n.advance.None? ==> told.ends == account.ends)
            && (n.advance.Some? ==> p.padded && told.ends == account.ends + [run.end - 1] && run.end > 0)
            && (p.padded && run.complete && !Claimed(p) ==> n.advance.Some?)
            && Settled(run, n.progress)
  {
    hide RunOf, ExtentOf;
    ExtentIsTheRun(h, s);
    assert account.emitted + [] == account.emitted && account.verdicts + [] == account.verdicts;
  }

  /** Padding is awaited only behind a batch that was read to its end. */
  lemma PaddedIsRead(tx: TxCodec, run: Run, p: Progress, account: Account)
    requires BatchSound(tx, run, p, account) && p.padded
    ensures CaughtUp(tx, run, p, account) && OneShot(tx, run.data).status.Done?
    ensures if account.emitted == [] then account.verdicts == [Marker] else account.verdicts == [Decoded]
  {
    hide OneShot;
  }

  lemma ClaimIsVouched(tx: TxCodec, run: Run, p: Progress, account: Account, told: Account)
    requires BatchSound(tx, run, p, account)
    requires told.emitted == account.emitted && told.verdicts == account.verdicts
    requires told.ends == account.ends || p.padded
    ensures Vouched(told)
  {
    hide OneShot, Read;
    if p.padded { PaddedIsRead(tx, run, p, account); }
  }

  lemma ClosedStepKeepsSound(tx: TxCodec, h: Held, s: nat, small: Run, run: Run, p: Progress, account: Account)
    requires Bounded(h) && run == RunOf(h, s) && Extends(small, run) && (Claimed(p) ==> small.complete)
    requires p.closed && BatchSound(tx, small, p, account)
    ensures var n := ClaimPadding(h, s, p);
            && BatchSound(tx, run, n.progress, Followed(account, n.advance))
            && Settled(run, n.progress)
  {
    hide Read, OneShot, RunOf, ExtentOf, ClaimPadding, Followed, Settled, Vouched;
    ClaimReports(h, s, run, p, account);
    OneShotGrows(tx, small.data, run.data);
    ClaimIsVouched(tx, small, p, account, Followed(account, ClaimPadding(h, s, p).advance));
    if GivenUp(tx, small, p, account) {
      GivenUpStays(tx, small, run, p, account);
    }
  }

  lemma ReadingAddsUp(tx: TxCodec, small: Run, run: Run, p: Progress, account: Account)
    requires Extends(small, run) && !p.closed && BatchSound(tx, small, p, account)
    ensures OneShot(tx, run.data) == After(account.emitted, Read(tx, run.data, p.consumed, p.remaining))
    ensures account.verdicts == [] && p.consumed <= |run.data|
    ensures !Read(tx, run.data, p.consumed, p.remaining).status.OutOfRange?
  {
    hide Read;
    assert CaughtUp(tx, small, p, account);
    OneShotGrows(tx, small.data, run.data);
  }

  lemma ConcludingCatchesUp(tx: TxCodec, run: Run, p: Progress, account: Account, x: Extent, r: Reading)
    requires OneShot(tx, run.data) == After(account.emitted, r)
    requires !p.closed && account.verdicts == [] && p.hasOpened == (account.emitted != [])
    requires x.last + 1 == run.end && x.complete == run.complete && x.len == |run.data|
    requires x.complete || x.len <= MAX_BATCH_BYTES
    ensures var n := Conclude(p, x, r);
            CaughtUp(tx, run, n.progress, Followed(account, n.advance))
  {
    hide OneShot;
    assert account.emitted + [] == account.emitted;
    assert (p.hasOpened || r.entries != []) == (OneShot(tx, run.data).entries != []);
  }

  lemma RisesOn(ends: seq<nat>, limit: nat)
    requires Rising(ends, limit) && limit > 0
    ensures Rising(ends + [limit - 1], limit) && Rising(ends + [], limit)
  {
    assert ends + [] == ends;
  }

  /** A pass that reads: what it adds completes what one reading of the whole run yields. */
  lemma ReadingCatchesUp(tx: TxCodec, run: Run, p: Progress, account: Account, x: Extent, r: Reading)
    requires OneShot(tx, run.data) == After(account.emitted, r)
    requires !p.closed && account.verdicts == []
    requires p.hasOpened == (account.emitted != []) && account.openings == (if p.hasOpened then 1 else 0)
    requires Rising(account.ends, run.end) && |account.ends| <= |account.emitted|
    requires x.last + 1 == run.end && x.complete == run.complete && x.len == |run.data|
    requires x.complete || x.len <= MAX_BATCH_BYTES
    ensures var n := Conclude(p, x, r);
            && BatchSound(tx, run, n.progress, Followed(account, n.advance))
            && Settled(run, n.progress)
  {
    hide OneShot, CaughtUp, GivenUp, Rising;
    ConcludingCatchesUp(tx, run, p, account, x, r);
    RisesOn(account.ends, run.end);
    assert account.emitted != [] ==> account.emitted + r.entries != [];
  }

  lemma GivingUpIsSound(tx: TxCodec, small: Run, run: Run, p: Progress, account: Account, a: Advance)
    requires Extends(small, run) && !p.closed && BatchSound(tx, small, p, account)
    requires run.openLen > MAX_BATCH_BYTES
    requires a.lastShred + 1 == run.end && a.entries == [] && !a.opens && a.finished == Some(Failed)
    ensures BatchSound(tx, run, p.(closed := true), Reported(account, a))
  {
    hide Read, OneShot;
    OneShotGrows(tx, small.data, run.data);
    assert account.emitted + [] == account.emitted;
    assert GivenUp(tx, run, p.(closed := true), Reported(account, a));
  }

  /** Soundness is about what has been read, not about where the caches stand. */
  lemma CachesDoNotCount(tx: TxCodec, run: Run, p: Progress, q: Progress, account: Account)
    requires BatchSound(tx, run, p, account)
    requires q == p.(extent := q.extent, resume := q.resume)
    ensures BatchSound(tx, run, q, account)
  {
    hide OneShot;
    if GivenUp(tx, run, p, account) {
      assert GivenUp(tx, run, q, account);
    } else {
      assert CaughtUp(tx, run, q, account);
    }
  }

  lemma NothingNewIsSound(tx: TxCodec, small: Run, run: Run, p: Progress, account: Account)
    requires Extends(small, run) && !p.closed && BatchSound(tx, small, p, account)
    requires |run.data| <= p.consumed && !run.complete
    ensures BatchSound(tx, run, p, account) && Settled(run, p)
  {
    hide Read;
    assert small.data == run.data;
    assert CaughtUp(tx, run, p, account);
  }

  lemma OpenStepKeepsSound(tx: TxCodec, h: Held, s: nat, small: Run, run: Run, p: Progress, account: Account)
    requires Bounded(h) && run == RunOf(h, s) && Extends(small, run)
    requires !p.closed && BatchSound(tx, small, p, account)
    ensures var n := Step(tx, h, s, p);
            && !n.crashed
            && BatchSound(tx, run, n.progress, Followed(account, n.advance))
            && Settled(run, n.progress)
  {
    hide Read, OneShot, RunOf, ExtentOf, Conclude;
    ExtentIsTheRun(h, s);
    if ExtentOf(h, s).None? {
      NothingNewIsSound(tx, small, run, p, account);
    } else {
      var x := ExtentOf(h, s).value;
      var walked := p.(extent := Some(x));
      CachesDoNotCount(tx, small, p, walked, account);
      if !x.complete && x.len > MAX_BATCH_BYTES {
        GivingUpIsSound(tx, small, run, walked, account, Step(tx, h, s, p).advance.value);
      } else if x.len <= p.consumed && !x.complete {
        NothingNewIsSound(tx, small, run, walked, account);
      } else {
        ReadingAddsUp(tx, small, run, walked, account);
        ReadingCatchesUp(tx, run, walked, account, x, Read(tx, run.data, p.consumed, p.remaining));
      }
    }
  }

  /** One pass brings a batch level with the run it finds, wherever it had got to. */
  lemma StepKeepsSound(tx: TxCodec, h: Held, s: nat, small: Run, p: Progress, account: Account)
    requires Bounded(h) && Extends(small, RunOf(h, s)) && (Claimed(p) ==> small.complete)
    requires BatchSound(tx, small, p, account)
    ensures var n := Step(tx, h, s, p);
            && !n.crashed
            && BatchSound(tx, RunOf(h, s), n.progress, Followed(account, n.advance))
            && Settled(RunOf(h, s), n.progress)
  {
    hide Read, OneShot, RunOf, ExtentOf, Conclude;
    if p.closed {
      ClosedStepKeepsSound(tx, h, s, small, RunOf(h, s), p, account);
    } else {
      OpenStepKeepsSound(tx, h, s, small, RunOf(h, s), p, account);
    }
  }

  /** Quiescence: a batch that is level with its run has nothing to add to it. */
  lemma SoundIsQuiet(tx: TxCodec, h: Held, s: nat, p: Progress, account: Account)
    requires Bounded(h) && BatchSound(tx, RunOf(h, s), p, account) && Settled(RunOf(h, s), p)
    ensures var n := Step(tx, h, s, p);
            n.advance.None? && !n.crashed && n.progress == p.(extent := n.progress.extent)
  {
    hide Read, OneShot, RunOf, ExtentOf;
    var run := RunOf(h, s);
    ExtentIsTheRun(h, s);
    if !p.closed && ExtentOf(h, s).Some? {
      assert CaughtUp(tx, run, p, account);
      ReadingAddsUp(tx, run, run, p, account);
      var r := Read(tx, run.data, p.consumed, p.remaining);
      assert |account.emitted + r.entries| == |account.emitted|;
    }
  }

  /** Confluence: two histories that left the same run held left the same account of it, as
      long as the run stays within the bound a batch may reach before the shred that closes it. */
  lemma Confluence(tx: TxCodec, run: Run, p: Progress, account: Account, q: Progress, other: Account)
    requires run.openLen <= MAX_BATCH_BYTES
    requires BatchSound(tx, run, p, account) && BatchSound(tx, run, q, other)
    ensures account.emitted == other.emitted == OneShot(tx, run.data).entries
    ensures account.verdicts == other.verdicts == Listed(Deserved(tx, run))
    ensures account.openings == other.openings <= 1
    ensures p.closed == q.closed
  {
    hide OneShot;
  }

  /** What a batch within the bound is called, by what its bytes are: decoded if they hold every
      entry announced and there is one, a marker if there is none, failed if they are no entries or
      end before the last of them, and nothing while more can come. */
  ghost predicate CalledRightly(r: Reading, complete: bool, verdicts: seq<BatchOutcome>) {
    && (verdicts == [Decoded] <==> r.remaining == Some(0) && r.entries != [])
    && (verdicts == [Marker] <==> r.remaining == Some(0) && r.entries == [])
    && (verdicts == [Failed] <==> r.remaining != Some(0) && (r.status.Invalid? || complete))
    && (verdicts == [] <==> r.remaining != Some(0) && !r.status.Invalid? && !complete)
  }

  lemma VerdictIsRight(tx: TxCodec, run: Run, p: Progress, account: Account)
    requires run.openLen <= MAX_BATCH_BYTES && BatchSound(tx, run, p, account)
    ensures CalledRightly(OneShot(tx, run.data), run.complete, account.verdicts)
  {
    hide ReadEntries;
  }

  /** An advance speaks of the whole run held: where it ends, when the first of its shreds was
      received, and whether any of them was recovered. */
  lemma AdvanceTellsOfTheRun(tx: TxCodec, h: Held, s: nat, p: Progress)
    requires Bounded(h) && Step(tx, h, s, p).advance.Some?
    ensures var a := Step(tx, h, s, p).advance.value; var e := RunEnd(h, s);
            && s < e == a.lastShred + 1
            && (forall i :: s <= i < e ==> a.firstReceived <= h[i].received)
            && (exists i :: s <= i < e && a.firstReceived == h[i].received)
            && (a.recovered <==> exists i :: s <= i < e && h[i].recovered)
  {
    hide Read, RunOf, FirstReceived, Cat;
    var e := RunEnd(h, s);
    forall i | s <= i < e
      ensures FirstReceived(h, s, e) <= h[i].received
    {
      FirstIsEarliest(h, s, e, i);
    }
    FirstIsEarliest(h, s, e, s);
  }

  // ---------------------------------------------------------------- what a new shred leaves behind

  /** A batch that some earlier state of its run accounts for in full. */
  ghost predicate Behind(tx: TxCodec, run: Run, p: Progress, account: Account) {
    exists small :: Extends(small, run) && BatchSound(tx, small, p, account) && (Claimed(p) ==> small.complete)
  }

  lemma AdvancingCatchesUp(tx: TxCodec, h: Held, s: nat, p: Progress, account: Account)
    requires Bounded(h) && Behind(tx, RunOf(h, s), p, account)
    ensures var n := Step(tx, h, s, p);
            && !n.crashed
            && BatchSound(tx, RunOf(h, s), n.progress, Followed(account, n.advance))
            && Settled(RunOf(h, s), n.progress)
  {
    hide Step, RunOf, BatchSound;
    var small :| Extends(small, RunOf(h, s)) && BatchSound(tx, small, p, account) && (Claimed(p) ==> small.complete);
    StepKeepsSound(tx, h, s, small, p, account);
  }

  lemma ClaimedIsClosed(h: Held, s: nat, p: Progress)
    requires Bounded(h) && CacheTrue(h, s, p)
    ensures Claimed(p) ==> RunOf(h, s).complete
  {
    if Claimed(p) { StretchWithinRun(h, s, p.extent.value.last + 1); }
  }

  lemma FreshShredLeavesBehind(tx: TxCodec, h: Held, i: nat, shred: Shred, s: nat, p: Progress, account: Account)
    requires Bounded(h) && i < INDEX_LIMIT && i !in h
    requires CacheTrue(h, s, p) && BatchSound(tx, RunOf(h, s), p, account)
    ensures Behind(tx, RunOf(h[i := shred], s), p, account)
  {
    hide BatchSound, RunOf, Extends, CacheTrue;
    var g := h[i := shred];
    AgreeingRunExtends(h, g, s);
    ClaimedIsClosed(h, s, p);
    assert Extends(RunOf(h, s), RunOf(g, s)) && BatchSound(tx, RunOf(h, s), p, account);
  }

  lemma NewStartIsBehind(tx: TxCodec, h: Held, s: nat)
    requires Bounded(h)
    ensures Behind(tx, RunOf(h, s), UNREAD, NOTHING_YET)
  {
    hide BatchSound;
    UnreadIsSound(tx, s);
    var small := Run([], false, s, 0);
    assert Extends(small, RunOf(h, s)) && BatchSound(tx, small, UNREAD, NOTHING_YET);
  }

  lemma AgreeingCopyLeavesLevel(tx: TxCodec, h: Held, i: nat, shred: Shred, s: nat, p: Progress, account: Account)
    requires Bounded(h) && i in h && shred.data == h[i].data && shred.complete == h[i].complete
    requires BatchSound(tx, RunOf(h, s), p, account)
    ensures RunOf(h[i := shred], s) == RunOf(h, s)
    ensures Behind(tx, RunOf(h[i := shred], s), p.(extent := None, resume := None), account)
  {
    var g := h[i := shred];
    AgreeingRunExtends(h, g, s);
    AgreeingRunExtends(g, h, s);
    var q := p.(extent := None, resume := None);
    CachesDoNotCount(tx, RunOf(h, s), p, q, account);
    hide BatchSound;
    assert Extends(RunOf(h, s), RunOf(g, s)) && BatchSound(tx, RunOf(h, s), q, account);
  }
}
