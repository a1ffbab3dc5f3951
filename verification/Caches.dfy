/** What the progress of a whole slot's batches caches, and which of it a shred that is
    replaced by another copy takes away. */
module Caches {
  import opened Bytes
  import opened Collections
  import opened Codec
  import opened Runs
  import opened Batches

  function Frontier(x: Option<Extent>, start: nat): nat {
    if x.None? then start else x.value.last + 1
  }

  function ResumePoint(resume: Option<(nat, nat)>, start: nat): nat {
    if resume.None? then start else resume.value.0
  }

  function Looked<V>(m: map<nat, V>, k: nat, default: V): V {
    if k in m then m[k] else default
  }

  ghost predicate CachesTrue(h: Held, progress: map<nat, Progress>) {
    forall s :: s in StartsOf(h) ==> CacheTrue(h, s, Looked(progress, s, UNREAD))
  }

  ghost predicate BegunInHeld(h: Held, progress: map<nat, Progress>) {
    forall s :: s in progress ==> s == 0 || s - 1 in h
  }

  ghost predicate WalksCounted(progress: map<nat, Progress>, walked: map<nat, nat>, skipped: map<nat, nat>) {
    && walked.Keys <= progress.Keys && skipped.Keys <= progress.Keys
    && forall s :: s in progress ==>
      && Looked(walked, s, 0) + s == Frontier(progress[s].extent, s)
      && Looked(skipped, s, 0) + s == ResumePoint(progress[s].resume, s)
  }

  ghost function Forgotten(progress: map<nat, Progress>, starts: seq<nat>): (r: map<nat, Progress>)
    ensures r.Keys == progress.Keys
  {
    map s | s in progress :: if s in starts then progress[s].(extent := None, resume := None) else progress[s]
  }

  lemma ForgettingNone(progress: map<nat, Progress>)
    ensures Forgotten(progress, []) == progress
  {
  }

  lemma ForgettingOne(progress: map<nat, Progress>, done: seq<nat>, start: nat)
    ensures var now := Forgotten(progress, done);
            Forgotten(progress, done + [start]) ==
            if start in now then now[start := now[start].(extent := None, resume := None)] else now
  {
    assert forall s :: s in done + [start] <==> s in done || s == start;
  }

  lemma WalksRestart(progress: map<nat, Progress>, walked: map<nat, nat>, skipped: map<nat, nat>, start: nat)
    requires WalksCounted(progress, walked, skipped) && start in progress
    ensures WalksCounted(progress[start := progress[start].(extent := None, resume := None)],
                         walked[start := 0], skipped[start := 0])
  {
  }

  lemma StartsAfter(h: Held, i: nat, shred: Shred)
    ensures StartsOf(h[i := shred]) == if shred.complete then StartsOf(h) + {i + 1} else StartsOf(h) - {i + 1}
    ensures i in h && h[i].complete <==> i + 1 in StartsOf(h)
  {
    var g := h[i := shred];
    assert forall j :: j in g && g[j].complete ==> (j in h && h[j].complete) || (j == i && shred.complete);
    assert forall j :: j in h && h[j].complete && j != i ==> j in g && g[j].complete;
    assert i in g;
  }

  /** Forgetting the candidates of a replaced shred is forgetting enough. */
  lemma CachesSurvive(h: Held, i: nat, shred: Shred, progress: map<nat, Progress>)
    requires Bounded(h) && i < INDEX_LIMIT
    requires CachesTrue(h, progress) && BegunInHeld(h, progress)
    ensures var g := h[i := shred];
            CachesTrue(g, if i in h then Forgotten(progress, Candidates(StartsOf(g), i)) else progress)
  {
    var g := h[i := shred];
    var cands := Candidates(StartsOf(g), i);
    var after := if i in h then Forgotten(progress, cands) else progress;
    StartsAfter(h, i, shred);
    hide StartsOf, Candidates;
    forall s | s in StartsOf(g)
      ensures CacheTrue(g, s, Looked(after, s, UNREAD))
    {
      var p := Looked(progress, s, UNREAD);
      if s in progress && !(i in h && s in cands) {
        assert s in StartsOf(h);
        CacheOutlivesShred(h, i, shred, s, p);
      }
    }
  }

  lemma BegunSurvives(held: Held, index: nat, shred: Shred, progress: map<nat, Progress>, starts: seq<nat>)
    requires BegunInHeld(held, progress)
    ensures BegunInHeld(held[index := shred], progress)
    ensures BegunInHeld(held[index := shred], Forgotten(progress, starts))
  {
  }

  /** Boundaries and caches are what the shreds held now say they are. */
  ghost predicate CoherentWith(held: Held, starts: set<nat>, progress: map<nat, Progress>,
                               walked: map<nat, nat>, skipped: map<nat, nat>)
  {
    && starts == StartsOf(held)
    && BegunInHeld(held, progress)
    && CachesTrue(held, progress)
    && WalksCounted(progress, walked, skipped)
  }

  lemma EnteringKeepsCoherent(held: Held, index: nat, shred: Shred, starts: set<nat>, progress: map<nat, Progress>,
                              walked: map<nat, nat>, skipped: map<nat, nat>)
    requires Bounded(held) && index < INDEX_LIMIT
    requires CoherentWith(held, starts, progress, walked, skipped)
    ensures var after := held[index := shred]; var touched := Candidates(StartsOf(after), index);
            && (index !in held ==> CoherentWith(after, StartsOf(after), progress, walked, skipped))
            && (index in held ==>
                  BegunInHeld(after, Forgotten(progress, touched)) && CachesTrue(after, Forgotten(progress, touched)))
  {
    CachesSurvive(held, index, shred, progress);
    BegunSurvives(held, index, shred, progress, Candidates(StartsOf(held[index := shred]), index));
  }

  lemma NothingIsCoherent(held: Held, starts: set<nat>, progress: map<nat, Progress>,
                          walked: map<nat, nat>, skipped: map<nat, nat>)
    requires held == map[] && starts == {0} && progress == map[] && walked == map[] && skipped == map[]
    ensures CoherentWith(held, starts, progress, walked, skipped)
  {
  }

  lemma NothingIsLevel(tx: TxCodec, held: Held, starts: set<nat>, progress: map<nat, Progress>,
                       accounts: map<nat, Account>)
    requires held == map[] && starts == {0} && progress == map[] && accounts == map[]
    ensures LevelBut(tx, held, starts, progress, accounts, [])
  {
    UnreadIsSound(tx, 0);
    assert RunOf(held, 0) == Run([], false, 0, 0);
  }

  // ---------------------------------------------------------------- reading with the caches

  lemma CachedRun(h: Held, s: nat, x: Extent, p: Progress)
    requires Bounded(h) && ExtentOf(h, s) == Some(x) && CacheTrue(h, s, p)
    ensures s <= x.last && Stretch(h, s, x.last + 1)
    ensures p.resume.Some? ==>
              var (from, base) := p.resume.value;
              Stretch(h, s, from) && from <= x.last + 1 && base == |Cat(h, s, from)| && base <= p.consumed
  {
    if p.resume.Some? { StretchWithinRun(h, s, p.resume.value.0); }
  }

  lemma CachedWithinRun(h: Held, s: nat, p: Progress)
    requires Bounded(h) && CacheTrue(h, s, p)
    ensures Frontier(p.extent, s) <= RunEnd(h, s) && ResumePoint(p.resume, s) <= RunEnd(h, s)
  {
    hide Measure, Cat;
    if p.extent.Some? { StretchWithinRun(h, s, p.extent.value.last + 1); }
    if p.resume.Some? { StretchWithinRun(h, s, p.resume.value.0); }
  }

  lemma ExtentSpansRun(h: Held, s: nat, x: Extent)
    requires Bounded(h) && ExtentOf(h, s) == Some(x)
    ensures s <= x.last && Stretch(h, s, x.last + 1)
    ensures RunOf(h, s).data == Cat(h, s, x.last + 1)
  {
  }

  lemma RestOfRun(h: Held, s: nat, x: Extent, from: nat)
    requires Bounded(h) && ExtentOf(h, s) == Some(x) && s <= from <= x.last + 1
    ensures Stretch(h, s, from)
    ensures forall i :: s <= i <= x.last ==> i in h
    ensures var base := |Cat(h, s, from)|; var all := RunOf(h, s).data;
            base <= |all| && all[base..] == Cat(h, from, x.last + 1) && (from > x.last ==> all[base..] == [])
  {
    hide RunOf, ExtentOf, Cat;
    ExtentSpansRun(h, s, x);
    CatSplit(h, s, from, x.last + 1);
  }

  lemma CacheTrueParts(h: Held, s: nat, p: Progress)
    requires CacheTrue(h, s, p)
    ensures p.extent.Some? ==>
              var x := p.extent.value; s <= x.last && Stretch(h, s, x.last + 1) && x == Measure(h, s, x.last + 1)
  {
  }

  lemma FreshExtentIsTrue(h: Held, s: nat, p: Progress, x: Extent)
    requires Bounded(h) && ExtentOf(h, s) == Some(x) && CacheTrue(h, s, p)
    ensures CacheTrue(h, s, p.(extent := Some(x)))
  {
  }

  lemma FreshResumeIsTrue(h: Held, s: nat, p: Progress, q: Progress, from: nat, base: nat)
    requires CacheTrue(h, s, p) && q.extent == p.extent && q.resume == Some((from, base))
    requires Stretch(h, s, from) && base == |Cat(h, s, from)| && base <= q.consumed
    ensures CacheTrue(h, s, q)
  {
  }

  lemma ClosingKeepsCaches(h: Held, s: nat, p: Progress, q: Progress)
    requires CacheTrue(h, s, p) && q.extent == p.extent && q.resume == p.resume && q.consumed >= p.consumed
    ensures CacheTrue(h, s, q)
  {
  }

  lemma CoherentCacheHasRun(h: Held, s: nat, p: Progress)
    requires Bounded(h) && CacheTrue(h, s, p) && ExtentOf(h, s).None?
    ensures p.extent.None?
  {
    if p.extent.Some? { StretchWithinRun(h, s, p.extent.value.last + 1); }
  }

  lemma ClaimKeepsResume(h: Held, s: nat, p: Progress)
    ensures ClaimPadding(h, s, p).progress.resume == p.resume && !ClaimPadding(h, s, p).crashed
  {
  }

  // ---------------------------------------------------------------- a whole slot, between shreds

  /** Every batch begun is level with its run, but for those in `todo`, which an earlier state
      of their run accounts for. */
  ghost predicate LevelBut(tx: TxCodec, held: Held, starts: set<nat>, progress: map<nat, Progress>,
                           accounts: map<nat, Account>, todo: seq<nat>)
    requires Bounded(held)
  {
    forall s :: s in starts ==>
      var p := Looked(progress, s, UNREAD); var account := Looked(accounts, s, NOTHING_YET);
      if s in todo then Behind(tx, RunOf(held, s), p, account)
      else BatchSound(tx, RunOf(held, s), p, account) && Settled(RunOf(held, s), p)
  }

  lemma FreshShredLeavesCandidates(tx: TxCodec, h: Held, i: nat, shred: Shred, starts: set<nat>,
                                   progress: map<nat, Progress>, accounts: map<nat, Account>)
    requires Bounded(h) && i < INDEX_LIMIT && i !in h && starts == StartsOf(h)
    requires BegunInHeld(h, progress) && CachesTrue(h, progress) && accounts.Keys <= progress.Keys
    requires LevelBut(tx, h, starts, progress, accounts, [])
    ensures var g := h[i := shred];
            LevelBut(tx, g, StartsOf(g), progress, accounts, Candidates(StartsOf(g), i))
  {
    hide StartsOf, Candidates, BatchSound, Settled, Behind, RunOf, CacheTrue;
    var g := h[i := shred];
    StartsAfter(h, i, shred);
    forall s | s in StartsOf(g)
      ensures var p := Looked(progress, s, UNREAD); var account := Looked(accounts, s, NOTHING_YET);
              if s in Candidates(StartsOf(g), i) then Behind(tx, RunOf(g, s), p, account)
              else BatchSound(tx, RunOf(g, s), p, account) && Settled(RunOf(g, s), p)
    {
      var p := Looked(progress, s, UNREAD);
      var account := Looked(accounts, s, NOTHING_YET);
      if s !in Candidates(StartsOf(g), i) {
        OnlyCandidatesChange(h, i, shred, s);
      } else if s in StartsOf(h) {
        FreshShredLeavesBehind(tx, h, i, shred, s, p, account);
      } else {
        NewStartIsBehind(tx, g, s);
      }
    }
  }

  lemma AgreeingCopyLeavesCandidates(tx: TxCodec, h: Held, i: nat, shred: Shred, starts: set<nat>,
                                     progress: map<nat, Progress>, accounts: map<nat, Account>)
    requires Bounded(h) && i in h && starts == StartsOf(h)
    requires shred.data == h[i].data && shred.complete == h[i].complete
    requires LevelBut(tx, h, starts, progress, accounts, [])
    ensures var g := h[i := shred]; var touched := Candidates(StartsOf(g), i);
            LevelBut(tx, g, StartsOf(g), Forgotten(progress, touched), accounts, touched)
  {
    hide StartsOf, Candidates, BatchSound, Settled, Behind, RunOf;
    var g := h[i := shred];
    StartsAfter(h, i, shred);
    var touched := Candidates(StartsOf(g), i);
    var after := Forgotten(progress, touched);
    forall s | s in StartsOf(g)
      ensures var p := Looked(after, s, UNREAD); var account := Looked(accounts, s, NOTHING_YET);
              if s in touched then Behind(tx, RunOf(g, s), p, account)
              else BatchSound(tx, RunOf(g, s), p, account) && Settled(RunOf(g, s), p)
    {
      AgreeingCopyLeavesLevel(tx, h, i, shred, s, Looked(progress, s, UNREAD), Looked(accounts, s, NOTHING_YET));
    }
  }

  lemma AdvancingOneOfMany(tx: TxCodec, h: Held, starts: set<nat>, progress: map<nat, Progress>,
                           accounts: map<nat, Account>, todo: seq<nat>, s: nat, q: Progress, account: Account)
    requires Bounded(h) && s in starts && todo != [] && s == todo[0] && s !in todo[1..]
    requires LevelBut(tx, h, starts, progress, accounts, todo)
    requires var n := Step(tx, h, s, Looked(progress, s, UNREAD));
             q == n.progress.(resume := q.resume)
             && account == Followed(Looked(accounts, s, NOTHING_YET), n.advance)
    ensures !Step(tx, h, s, Looked(progress, s, UNREAD)).crashed
    ensures LevelBut(tx, h, starts, progress[s := q], accounts[s := account], todo[1..])
  {
    hide BatchSound, Step, Behind, RunOf, Followed;
    var p := Looked(progress, s, UNREAD);
    AdvancingCatchesUp(tx, h, s, p, Looked(accounts, s, NOTHING_YET));
    CachesDoNotCount(tx, RunOf(h, s), Step(tx, h, s, p).progress, q, account);
    assert forall t :: t in todo <==> t == s || t in todo[1..];
  }

  lemma CachesStay(held: Held, progress: map<nat, Progress>, s: nat, q: Progress)
    requires CachesTrue(held, progress) && BegunInHeld(held, progress)
    requires CacheTrue(held, s, q) && (s == 0 || s - 1 in held)
    ensures CachesTrue(held, progress[s := q]) && BegunInHeld(held, progress[s := q])
  {
    hide CacheTrue, StartsOf;
  }

  lemma WalksAddUp(progress: map<nat, Progress>, walked: map<nat, nat>, skipped: map<nat, nat>, s: nat, q: Progress,
                   walks: nat, skips: nat)
    requires WalksCounted(progress, walked, skipped)
    requires var p := Looked(progress, s, UNREAD);
             Frontier(p.extent, s) + walks == Frontier(q.extent, s)
             && ResumePoint(p.resume, s) + skips == ResumePoint(q.resume, s)
    ensures WalksCounted(progress[s := q], walked[s := Looked(walked, s, 0) + walks],
                         skipped[s := Looked(skipped, s, 0) + skips])
  {
  }

  lemma AdvancingKeepsCoherent(held: Held, starts: set<nat>, progress: map<nat, Progress>,
                               walked: map<nat, nat>, skipped: map<nat, nat>,
                               s: nat, q: Progress, walks: nat, skips: nat)
    requires CoherentWith(held, starts, progress, walked, skipped) && s in starts
    requires var p := Looked(progress, s, UNREAD);
             CacheTrue(held, s, q)
             && Frontier(p.extent, s) + walks == Frontier(q.extent, s)
             && ResumePoint(p.resume, s) + skips == ResumePoint(q.resume, s)
    ensures CoherentWith(held, starts, progress[s := q],
                         walked[s := Looked(walked, s, 0) + walks], skipped[s := Looked(skipped, s, 0) + skips])
  {
    hide CacheTrue, StartsOf, CachesTrue, BegunInHeld, WalksCounted;
    StartsBeginInHeld(held, s);
    CachesStay(held, progress, s, q);
    WalksAddUp(progress, walked, skipped, s, q, walks, skips);
  }

  lemma StartsBeginInHeld(held: Held, s: nat)
    requires s in StartsOf(held)
    ensures s == 0 || s - 1 in held
  {
  }

  // ---------------------------------------------------------------- what one insert passes over

  /** Of all batches those in `done` took one pass each, and no other changed. */
  ghost predicate PassedOver(tx: TxCodec, held: Held, before: map<nat, Progress>, after: map<nat, Progress>,
                             told: map<nat, Account>, tells: map<nat, Account>, done: seq<nat>)
    requires Bounded(held)
  {
    forall s: nat :: PassedAt(tx, held, Looked(before, s, UNREAD), Looked(after, s, UNREAD),
                              Looked(told, s, NOTHING_YET), Looked(tells, s, NOTHING_YET), s, s in done)
  }

  ghost predicate PassedAt(tx: TxCodec, held: Held, p: Progress, q: Progress, told: Account, tells: Account, s: nat,
                           passed: bool)
    requires Bounded(held)
  {
    if passed then
      var n := Step(tx, held, s, p);
      q == n.progress.(resume := q.resume) && tells == Followed(told, n.advance)
    else q == p && tells == told
  }

  lemma PassingNone(tx: TxCodec, held: Held, progress: map<nat, Progress>, accounts: map<nat, Account>)
    requires Bounded(held)
    ensures PassedOver(tx, held, progress, progress, accounts, accounts, [])
  {
  }

  /** Some batch of `todo`, come upon with this progress, has its pass slice out of range. */
  ghost predicate AnyCrashes(tx: TxCodec, held: Held, progress: map<nat, Progress>, todo: seq<nat>)
    requires Bounded(held)
  {
    exists s :: s in todo && Step(tx, held, s, Looked(progress, s, UNREAD)).crashed
  }

  lemma NoneCrashes(tx: TxCodec, held: Held, progress: map<nat, Progress>)
    requires Bounded(held)
    ensures !AnyCrashes(tx, held, progress, [])
  {
  }

  lemma CrashesAmongMore(tx: TxCodec, held: Held, progress: map<nat, Progress>, todo: seq<nat>, k: nat)
    requires Bounded(held) && k <= |todo|
    ensures AnyCrashes(tx, held, progress, todo[..k]) ==> AnyCrashes(tx, held, progress, todo)
    ensures todo[..|todo|] == todo
  {
    hide Step;
    assert forall s :: s in todo[..k] ==> s in todo;
  }

  /** A candidate's pass does not depend on those gone through before it. */
  lemma CrashingOne(tx: TxCodec, held: Held, before: map<nat, Progress>, between: map<nat, Progress>,
                    told: map<nat, Account>, telling: map<nat, Account>, done: seq<nat>, s: nat)
    requires Bounded(held) && s !in done && PassedOver(tx, held, before, between, told, telling, done)
    ensures AnyCrashes(tx, held, before, done + [s]) <==>
            AnyCrashes(tx, held, before, done) || Step(tx, held, s, Looked(between, s, UNREAD)).crashed
  {
    hide Step, Followed;
    assert PassedAt(tx, held, Looked(before, s, UNREAD), Looked(between, s, UNREAD),
                    Looked(told, s, NOTHING_YET), Looked(telling, s, NOTHING_YET), s, s in done);
    assert s in done + [s];
    assert forall t :: t in done ==> t in done + [s];
  }

  lemma PassingOne(tx: TxCodec, held: Held, before: map<nat, Progress>, between: map<nat, Progress>,
                   told: map<nat, Account>, telling: map<nat, Account>, done: seq<nat>, s: nat, q: Progress,
                   tells: Account)
    requires Bounded(held) && s !in done && PassedOver(tx, held, before, between, told, telling, done)
    requires PassedAt(tx, held, Looked(between, s, UNREAD), q, Looked(telling, s, NOTHING_YET), tells, s, true)
    ensures PassedOver(tx, held, before, between[s := q], told, telling[s := tells], done + [s])
  {
    hide Step, Followed;
    forall t: nat
      ensures PassedAt(tx, held, Looked(before, t, UNREAD), Looked(between[s := q], t, UNREAD),
                       Looked(told, t, NOTHING_YET), Looked(telling[s := tells], t, NOTHING_YET), t, t in done + [s])
    {
      assert PassedAt(tx, held, Looked(before, t, UNREAD), Looked(between, t, UNREAD),
                      Looked(told, t, NOTHING_YET), Looked(telling, t, NOTHING_YET), t, t in done);
    }
  }
}
