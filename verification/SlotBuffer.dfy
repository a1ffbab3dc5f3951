/** One slot's shreds as the program keeps them: bytes in a growing arena, batch boundaries
    maintained on insert, and per-batch progress that caches where walking and reading
    stopped. `held` is the same shreds as values, and is what everything is proved against. */
module SlotBuffers {
  import opened Bytes
  import opened Collections
  import opened Codec
  import opened Runs
  import opened Batches
  import opened Arenas
  import opened Caches
  import opened Decoder
  import opened Pieces

  datatype Payload = Arena(at: nat, len: nat) | Stitched(bytes: seq<byte>)

  const MAX_SLOT_BYTES := 8 * 1024 * 1024
  const MAX_SLOT_SHREDS := 8 * 1024
  const PER_SHRED_OVERHEAD := 64
  const PER_BATCH_OVERHEAD := 128
  const COMPACT_FLOOR := 64 * 1024
  /** The least a byte vector grows to. */
  const MIN_CAPACITY := 8

  /** The most an arena with `live` live bytes can come to when `more` are stored in it. */
  function ArenaBound(live: nat, more: nat): nat {
    Max(2 * live, live + COMPACT_FLOOR) + more
  }

  /** A byte vector that must hold `len` bytes doubles, or takes what it needs if that is more. */
  function Grown(capacity: nat, len: nat): (r: nat)
    ensures capacity <= r && len <= r
    ensures r <= capacity + Max(len, MIN_CAPACITY)
  {
    if len <= capacity then capacity else Max(Max(2 * capacity, len), MIN_CAPACITY)
  }

  class SlotBuffer {
    const tx: TxCodec
    /** Which slot this is the buffer of. */
    ghost const slot: nat

    var arena: seq<byte>
    var capacity: nat
    var stale: nat
    var shreds: map<nat, StoredShred>
    var starts: set<nat>
    var progress: map<nat, Progress>
    var lastIndex: Option<nat>

    /** The latest copy of every shred stored. */
    ghost var held: Held
    /** No copy of an index ever differed from the one it replaced in bytes or flag. */
    ghost var agreed: bool
    /** What each batch has come to. */
    ghost var accounts: map<nat, Account>
    /** Bytes ever stored, and bytes ever copied by compaction. */
    ghost var appended: nat
    ghost var copied: nat
    /** Shreds crossed for each batch, since one of its shreds was last resent, by the walk
        to the frontier and by the skip to the resume point. */
    ghost var walked: map<nat, nat>
    ghost var skipped: map<nat, nat>

    constructor (tx: TxCodec, ghost slot: nat)
      ensures Valid() && this.tx == tx && this.slot == slot && agreed
      ensures (held, accounts, lastIndex, Footprint()) == (map[], map[], None, 0)
    {
      this.tx := tx;
      this.slot := slot;
      arena, capacity, stale := [], 0, 0;
      shreds, starts, progress, lastIndex := map[], {0}, map[], None;
      held, agreed, accounts := map[], true, map[];
      appended, copied := 0, 0;
      walked, skipped := map[], map[];
      new;
      hide Mirrors, Bounded, Sum, Lengths, CoherentWith, LevelBut;
      NothingIsAccounted(arena, shreds, held);
      NothingIsCoherent(held, starts, progress, walked, skipped);
      NothingIsLevel(tx, held, starts, progress, accounts);
    }

    // -------------------------------------------------------------- invariants

    ghost predicate StoredBut(extra: nat)
      reads this
    {
      Accounted(arena, capacity, stale, shreds, held, extra, appended, copied)
    }

    ghost predicate Stored()
      reads this
    {
      StoredBut(0)
    }

    ghost predicate Coherent()
      reads this
    {
      CoherentWith(held, starts, progress, walked, skipped)
    }

    ghost function ProgressOf(s: nat): Progress
      reads this
    {
      Looked(progress, s, UNREAD)
    }

    ghost function AccountOf(s: nat): Account
      reads this
    {
      Looked(accounts, s, NOTHING_YET)
    }

    /** Every batch begun is level with the run held for it. */
    ghost predicate Level()
      reads this
      requires Bounded(held)
    {
      LevelBut(tx, held, starts, progress, accounts, [])
    }

    ghost predicate Valid()
      reads this
    {
      && Stored() && Coherent()
      && accounts.Keys <= progress.Keys
      && (agreed ==> progress.Keys <= starts && Level())
    }

    lemma StoredFacts()
      requires Stored()
      ensures Bounded(held) && Mirrors(arena, shreds, held) && shreds.Keys == held.Keys
    {
    }

    // -------------------------------------------------------------- sizes

    /** How much of the arena the shreds held take up between them. */
    function Live(): (n: nat)
      reads this
      requires Stored()
      ensures n == Sum(Lengths(shreds))
    {
      |arena| - stale
    }

    function Footprint(): nat
      reads this
    {
      capacity + |shreds| * PER_SHRED_OVERHEAD + |progress| * PER_BATCH_OVERHEAD
    }

    // -------------------------------------------------------------- storing

    /** Copies the shreds held into a new arena that has nothing else in it. Each keeps its bytes. */
    method Compact()
      requires Stored()
      modifies this`arena, this`capacity, this`stale, this`shreds, this`copied
      ensures Mirrors(arena, shreds, held) && Lengths(shreds) == old(Lengths(shreds))
      ensures |arena| == Sum(Lengths(shreds)) && stale == 0 && capacity == |arena|
      ensures copied == old(copied) + |arena|
    {
      var rebuilt: seq<byte> := [];
      var moved: map<nat, StoredShred> := shreds;
      var todo: set<nat> := shreds.Keys;
      hide Mirrors, HalfMoved;
      NothingMoved(arena, shreds, held);
      while todo != {}
        invariant HalfMoved(arena, shreds, held, rebuilt, moved, todo)
        modifies {}
        decreases todo
      {
        var i := MinOf(todo);
        var stored := shreds[i];
        MovingOne(arena, shreds, held, rebuilt, moved, todo, i, stored);
        moved := moved[i := stored.(at := |rebuilt|)];
        rebuilt := rebuilt + arena[stored.at..stored.at + stored.len];
        todo := todo - {i};
      }
      AllMoved(arena, shreds, held, rebuilt, moved);
      arena, capacity, stale, shreds := rebuilt, |rebuilt|, 0, moved;
      copied := copied + |rebuilt|;
    }

    /** Appends to the arena, compacted first if too much of it is stale, and returns where `data`
        lies in it. */
    method Store(data: seq<byte>) returns (at: nat)
      requires Stored()
      modifies this`arena, this`capacity, this`stale, this`shreds, this`copied, this`appended
      ensures StoredBut(|data|)
      ensures at + |data| == |arena| && arena[at..at + |data|] == data
      ensures |arena| <= ArenaBound(old(Live()), |data|)
      ensures capacity <= old(capacity) + Max(|arena|, MIN_CAPACITY)
      ensures appended == old(appended) + |data|
      ensures |arena| - stale == old(Live()) + |data|
    {
      hide Mirrors, Lengths, Sum, Placed, Grown;
      if stale > COMPACT_FLOOR && stale > |arena| / 2 {
        Compact();
      }
      at := |arena|;
      capacity := Grown(capacity, |arena| + |data|);
      MirrorsStays(arena, data, shreds, held);
      arena := arena + data;
      appended := appended + |data|;
    }

    /** Keeps the boundary behind shred `index` in step with the copy now held of it. */
    method MarkBoundary(index: nat, before: bool, now: bool)
      requires before <==> index + 1 in starts
      modifies this`starts
      ensures starts == if now then old(starts) + {index + 1} else old(starts) - {index + 1}
    {
      if before && !now {
        starts := starts - {index + 1};
      }
      if now {
        starts := starts + {index + 1};
      }
    }

    /** Enters a shred whose bytes are already in the arena. The bytes of a copy it displaces
        are stranded, and so may the boundary behind it be. */
    method Enter(index: nat, stored: StoredShred, ghost shred: Shred) returns (duplicate: bool)
      requires StoredBut(stored.len) && Placed(arena, stored, shred) && index < INDEX_LIMIT
      requires starts == StartsOf(held)
      modifies this`stale, this`shreds, this`starts, this`held
      ensures Stored()
      ensures held == old(held)[index := shred] && starts == StartsOf(held)
      ensures duplicate <==> index in old(held)
      ensures stale >= old(stale)
    {
      hide Accounted, Placed, StartsOf;
      EnteringOne(arena, capacity, stale, shreds, held, appended, copied, index, stored, shred);
      StartsAfter(held, index, shred);
      duplicate := index in shreds;
      MarkBoundary(index, duplicate && shreds[index].complete, stored.complete);
      if duplicate {
        stale := stale + shreds[index].len;
      }
      shreds := shreds[index := stored];
      held := held[index := shred];
    }

    /** Drops both caches of the candidates of `index`, the only ones a copy at `index` can make
        wrong, and no others. */
    method Invalidate(index: nat)
      requires 0 in starts && WalksCounted(progress, walked, skipped)
      modifies this`progress, this`walked, this`skipped
      ensures progress == Forgotten(old(progress), Candidates(starts, index))
      ensures WalksCounted(progress, walked, skipped)
    {
      hide Forgotten, Candidates, WalksCounted;
      var touched := Candidates(starts, index);
      ForgettingNone(progress);
      for k := 0 to |touched|
        invariant progress == Forgotten(old(progress), touched[..k])
        invariant WalksCounted(progress, walked, skipped)
      {
        var start := touched[k];
        ForgettingOne(old(progress), touched[..k], start);
        if start in progress {
          WalksRestart(progress, walked, skipped, start);
          progress := progress[start := progress[start].(extent := None, resume := None)];
          walked, skipped := walked[start := 0], skipped[start := 0];
        }
        assert touched[..k + 1] == touched[..k] + [start];
      }
      assert touched[..|touched|] == touched;
    }

    /** The part of an insert that touches the shreds themselves. */
    method Place(index: nat, data: seq<byte>, ghost shred: Shred, complete: bool, received: nat, recovered: bool)
      returns (duplicate: bool)
      requires Stored() && starts == StartsOf(held) && index < INDEX_LIMIT
      requires shred == Shred(data, complete, received, recovered)
      modifies this`arena, this`capacity, this`stale, this`shreds, this`starts,
               this`held, this`appended, this`copied
      ensures Stored() && starts == StartsOf(held)
      ensures held == old(held)[index := shred]
      ensures duplicate <==> index in old(held)
      ensures Live() <= old(Live()) + |data| && |arena| <= ArenaBound(old(Live()), |data|)
      ensures capacity <= old(capacity) + Max(|arena|, MIN_CAPACITY)
    {
      hide Accounted, Placed, StartsOf, Sum, Lengths, ArenaBound;
      var at := Store(data);
      var stored := StoredShred(at, |data|, complete, received, recovered);
      PlacedHere(arena, stored, shred);
      duplicate := Enter(index, stored, shred);
    }

    /** Holds this copy of the shred at `index` from now on, in place of an older one if there was
        one, and keeps every cache true. */
    method Insert(index: nat, data: seq<byte>, complete: bool, received: nat, recovered: bool)
      returns (duplicate: bool)
      requires Stored() && Coherent() && index < INDEX_LIMIT
      modifies this`arena, this`capacity, this`stale, this`shreds, this`starts, this`progress,
               this`held, this`agreed, this`appended, this`copied, this`walked, this`skipped
      ensures Stored() && Coherent()
      ensures held == old(held)[index := Shred(data, complete, received, recovered)]
      ensures duplicate <==> index in old(held)
      ensures progress == if duplicate then Forgotten(old(progress), Candidates(starts, index)) else old(progress)
      ensures agreed == (old(agreed) && (index in old(held) ==>
                data == old(held)[index].data && complete == old(held)[index].complete))
      ensures Live() <= old(Live()) + |data| && |arena| <= ArenaBound(old(Live()), |data|)
      ensures capacity <= old(capacity) + Max(|arena|, MIN_CAPACITY)
    {
      hide Accounted, Bounded, Placed, StartsOf, Forgotten, Candidates, CachesTrue, BegunInHeld, WalksCounted, Sum,
           Lengths, ArenaBound;
      StoredFacts();
      ghost var shred := Shred(data, complete, received, recovered);
      EnteringKeepsCoherent(held, index, shred, starts, progress, walked, skipped);
      agreed := agreed && (index in held ==> data == held[index].data && complete == held[index].complete);
      duplicate := Place(index, data, shred, complete, received, recovered);
      if duplicate {
        Invalidate(index);
      }
    }

    // -------------------------------------------------------------- walking and reading

    /** Measures the run from `start`, beginning behind the part a true cache has measured. What
        comes back is the same as if it had begun at the first shred. */
    method WalkExtent(start: nat, cached: Option<Extent>) returns (r: Option<Extent>, ghost crossed: nat)
      requires Stored()
      requires cached.Some? ==>
                 start <= cached.value.last && Stretch(held, start, cached.value.last + 1)
                 && cached.value == Measure(held, start, cached.value.last + 1)
      ensures r == ExtentOf(held, start)
      ensures Frontier(cached, start) + crossed == Frontier(r, start)
    {
      hide Accounted, Mirrors, Measure, Walked, Cat, FirstReceived, AnyRecovered;
      StoredFacts();
      ghost var end := RunEnd(held, start);
      crossed := 0;
      if cached.Some? {
        StretchWithinRun(held, start, cached.value.last + 1);
        MeasureFlag(held, start, cached.value.last + 1);
        if cached.value.complete {
          return cached, 0;
        }
        ResumingWalk(held, start, cached.value);
      } else {
        StartingWalk(held, start);
      }
      var index: nat := if cached.Some? then cached.value.last + 1 else start;
      var first: Option<nat> := if cached.Some? then Some(cached.value.firstReceived) else None;
      var recovered := cached.Some? && cached.value.recovered;
      var len: nat := if cached.Some? then cached.value.len else 0;
      while index in shreds
        invariant start <= index && Walked(held, start, index, len, first, recovered)
        invariant Frontier(cached, start) + crossed == index
        decreases INDEX_LIMIT - index
      {
        StoredMatches(arena, shreds, held, index);
        WalkingOne(held, start, index, len, first, recovered);
        var shred := shreds[index];
        len := len + shred.len;
        first := Some(Earlier(first, shred.received));
        recovered := recovered || shred.recovered;
        index := index + 1;
        crossed := crossed + 1;
        if shred.complete {
          WholeIsRun(held, start, index);
          return Some(Extent(index - 1, true, first.value, recovered, len)), crossed;
        }
      }
      WalkedStretch(held, start, index, len, first, recovered);
      WholeIsRun(held, start, index);
      if index == start {
        return None, crossed;
      }
      WalkedSoFar(held, start, index, len, first, recovered);
      return Some(Extent(index - 1, false, first.value, recovered, len)), crossed;
    }

    ghost predicate InArena(payload: Payload)
      reads this`arena
    {
      payload.Arena? ==> payload.at + payload.len <= |arena|
    }

    function Bytes(payload: Payload): seq<byte>
      reads this`arena
      requires InArena(payload)
    {
      match payload
      case Arena(at, len) => arena[at..at + len]
      case Stitched(bytes) => bytes
    }

    /** Skips the shreds whose bytes have all become entries. */
    method SkipRead(start: nat, x: Extent, p: Progress) returns (from: nat, base: nat, ghost skipped: nat)
      requires Stored() && Stretch(held, start, x.last + 1) && start <= x.last
      requires p.resume.Some? ==>
                 var (from, base) := p.resume.value;
                 && Stretch(held, start, from) && from <= x.last + 1
                 && base == |Cat(held, start, from)| && base <= p.consumed
      ensures start <= from <= x.last + 1 && base == |Cat(held, start, from)| && base <= p.consumed
      ensures from <= x.last ==> base + |held[from].data| > p.consumed
      ensures ResumePoint(p.resume, start) + skipped == from
    {
      from, base := if p.resume.Some? then p.resume.value.0 else start, if p.resume.Some? then p.resume.value.1 else 0;
      skipped := 0;
      while from <= x.last
        invariant start <= from <= x.last + 1 && base == |Cat(held, start, from)| && base <= p.consumed
        invariant ResumePoint(p.resume, start) + skipped == from
      {
        StoredMatches(arena, shreds, held, from);
        var len := shreds[from].len;
        if base + len > p.consumed {
          break;
        }
        base := base + len;
        from := from + 1;
        skipped := skipped + 1;
      }
    }

    /** Decides whether a single slice of the arena is the shreds from `from` on to `last`, and
        if so which. */
    method LayOut(from: nat, last: nat) returns (at: nat, len: nat, contiguous: bool)
      requires Stored() && from <= last && forall i :: from <= i <= last ==> i in held
      ensures forall i :: from <= i <= last ==> i in shreds
      ensures contiguous <==> EndToEnd(shreds, from, last)
      ensures contiguous ==> at + len <= |arena| && arena[at..at + len] == Cat(held, from, last + 1)
    {
      hide Mirrors, Laid, EndToEnd, Cat, Accounted;
      StoredFacts();
      LayingFirst(arena, shreds, held, from);
      at, len, contiguous := shreds[from].at, shreds[from].len, true;
      var next: nat := at + len;
      for member := from + 1 to last + 1
        invariant Laid(arena, shreds, held, from, member, at, len, next, contiguous)
      {
        var shred := shreds[member];
        LayingOne(arena, shreds, held, from, member, at, len, next, contiguous, shred);
        contiguous, next, len := contiguous && shred.at == next, shred.at + shred.len, len + shred.len;
      }
      LaidOut(arena, shreds, held, from, last + 1, at, len, next, contiguous);
    }

    /** The run's bytes from shred `from` on: read where they lie if they lie end to end, and
        copied together only if they do not. */
    method Gather(from: nat, last: nat) returns (payload: Payload)
      requires Stored() && from <= last && forall i :: from <= i <= last ==> i in held
      ensures InArena(payload) && Bytes(payload) == Cat(held, from, last + 1)
      ensures (forall i :: from <= i <= last ==> i in shreds)
              && (payload.Arena? <==> EndToEnd(shreds, from, last))
    {
      hide Mirrors, EndToEnd, Accounted;
      StoredFacts();
      var at, len, contiguous := LayOut(from, last);
      if contiguous {
        return Arena(at, len);
      }
      var stitched: seq<byte> := [];
      for member := from to last + 1
        invariant stitched == Cat(held, from, member)
      {
        StoredMatches(arena, shreds, held, member);
        stitched := stitched + arena[shreds[member].at..shreds[member].at + shreds[member].len];
      }
      return Stitched(stitched);
    }

    /** The bytes of the run from the first shred not read to its end, and how many bytes of the
        run lie in front of those. */
    method PayloadFrom(start: nat, x: Extent, p: Progress)
      returns (payload: Payload, base: nat, resume: (nat, nat), ghost skipped: nat)
      requires Stored() && ExtentOf(held, start) == Some(x) && CacheTrue(held, start, p)
      ensures InArena(payload)
      ensures base <= p.consumed && base <= |RunOf(held, start).data|
      ensures Bytes(payload) == RunOf(held, start).data[base..]
      ensures base == resume.1 && resume.0 <= x.last + 1
      ensures Stretch(held, start, resume.0) && base == |Cat(held, start, resume.0)|
      ensures resume.0 <= x.last ==> base + |held[resume.0].data| > p.consumed
      ensures ResumePoint(p.resume, start) + skipped == resume.0
    {
      hide Accounted, Mirrors, RunOf, ExtentOf, CacheTrue, Cat;
      StoredFacts();
      CachedRun(held, start, x, p);
      var from: nat;
      from, base, skipped := SkipRead(start, x, p);
      RestOfRun(held, start, x, from);
      resume := (from, base);
      if from > x.last {
        return Arena(0, 0), base, resume, skipped;
      }
      payload := Gather(from, x.last);
    }

    // -------------------------------------------------------------- decoding

    /** What a pass made of the entries it read, entered in the batch's progress. */
    method Settle(p: Progress, x: Extent, out: seq<Entry>, status: Status)
      returns (q: Progress, advance: Option<Advance>)
      requires !status.OutOfRange?
      ensures var n := Conclude(p, x, Reading(out, p.consumed, p.remaining, status));
              q == n.progress && advance == n.advance
    {
      var opens := !p.hasOpened && out != [];
      var any := p.hasOpened || out != [];
      var finished :=
        match status
        case Done => if any then Some(Decoded) else Some(Marker)
        case Invalid => Some(Failed)
        case Waiting => if x.complete then Some(Failed) else None
        case OutOfRange => None;
      q := p.(hasOpened := any,
              closed := finished.Some?,
              padded := (finished == Some(Decoded) || finished == Some(Marker)) && !x.complete);
      if out == [] && finished.None? {
        return q, None;
      }
      return q, Some(Advance(x.last, out, x.firstReceived, opens, finished, x.recovered));
    }

    /** For a batch that has all its entries: measures how far its run goes, and when that is
        closed reports its end, one time. */
    method ClaimTail(start: nat, p: Progress) returns (q: Progress, advance: Option<Advance>, ghost walks: nat)
      requires Stored() && CacheTrue(held, start, p)
      ensures q == ClaimPadding(held, start, p).progress && advance == ClaimPadding(held, start, p).advance
      ensures CacheTrue(held, start, q)
      ensures Frontier(p.extent, start) + walks == Frontier(q.extent, start)
    {
      hide Accounted, CacheTrue, ExtentOf, Measure, Stretch;
      StoredFacts();
      CacheTrueParts(held, start, p);
      if !p.padded || (p.extent.Some? && p.extent.value.complete) {
        return p, None, 0;
      }
      var x;
      x, walks := WalkExtent(start, p.extent);
      if x.None? {
        CoherentCacheHasRun(held, start, p);
        return p, None, 0;
      }
      FreshExtentIsTrue(held, start, p, x.value);
      q := p.(extent := x);
      if !x.value.complete {
        return q, None, walks;
      }
      return q, Some(Advance(x.value.last, [], x.value.firstReceived, false, None, x.value.recovered)), walks;
    }

    /** One pass over the batch beginning at `start`: the pass without caches, taken with them. */
    method DecodePrefix(start: nat, p: Progress)
      returns (q: Progress, advance: Option<Advance>, crashed: bool, ghost walks: nat, ghost skips: nat)
      requires Stored() && CacheTrue(held, start, p)
      ensures var n := Step(tx, held, start, p);
              q == n.progress.(resume := q.resume) && advance == n.advance && crashed == n.crashed
      ensures CacheTrue(held, start, q)
      ensures Frontier(p.extent, start) + walks == Frontier(q.extent, start)
      ensures ResumePoint(p.resume, start) + skips == ResumePoint(q.resume, start)
    {
      hide Accounted, CacheTrue, ExtentOf, Measure, Stretch, RunOf, Read, Conclude, ClaimPadding, Cat;
      StoredFacts();
      CacheTrueParts(held, start, p);
      if p.closed {
        q, advance, walks := ClaimTail(start, p);
        ClaimKeepsResume(held, start, p);
        return q, advance, false, walks, 0;
      }
      var extent;
      extent, walks := WalkExtent(start, p.extent);
      if extent.None? {
        CoherentCacheHasRun(held, start, p);
        return p, None, false, 0, 0;
      }
      var x := extent.value;
      FreshExtentIsTrue(held, start, p, x);
      q := p.(extent := extent);
      if !x.complete && x.len > MAX_BATCH_BYTES {
        ClosingKeepsCaches(held, start, q, q.(closed := true));
        advance := Some(Advance(x.last, [], x.firstReceived, false, Some(Failed), x.recovered));
        return q.(closed := true), advance, false, walks, 0;
      }
      if x.len <= p.consumed && !x.complete {
        return q, None, false, walks, 0;
      }
      q, advance, crashed, skips := ReadOn(start, q, x);
    }

    /** The part of a pass that reads. */
    method ReadOn(start: nat, p: Progress, x: Extent)
      returns (q: Progress, advance: Option<Advance>, crashed: bool, ghost skips: nat)
      requires Stored() && CacheTrue(held, start, p) && ExtentOf(held, start) == Some(x) && p.extent == Some(x)
      ensures var r := Read(tx, RunOf(held, start).data, p.consumed, p.remaining);
              && crashed == r.status.OutOfRange?
              && (crashed ==> advance == None && q == p.(resume := q.resume))
              && (!crashed ==> var n := Conclude(p, x, r); advance == n.advance && q == n.progress.(resume := q.resume))
      ensures CacheTrue(held, start, q)
      ensures q.extent == p.extent && ResumePoint(p.resume, start) + skips == ResumePoint(q.resume, start)
    {
      hide Accounted, CacheTrue, ExtentOf, Measure, Stretch, RunOf, Read, Cat;
      var payload, base, resume;
      payload, base, resume, skips := PayloadFrom(start, x, p);
      q := p.(resume := Some(resume));
      FreshResumeIsTrue(held, start, p, q, resume.0, resume.1);
      var consumed, remaining, out, status := Decode(tx, Bytes(payload), base, q.consumed, q.remaining,
                                                     RunOf(held, start).data);
      if status.OutOfRange? {
        return q, None, true, skips;
      }
      ghost var before := q;
      q := q.(consumed := consumed, remaining := remaining);
      q, advance := Settle(q, x, out, status);
      ClosingKeepsCaches(held, start, before, q);
      crashed := false;
    }

    /** Takes the batch at `start` through one pass. Its progress and account become what the
        cache-free pass makes of them, and those of no other batch change. */
    method AdvanceBatch(start: nat) returns (advance: Option<Advance>, crashed: bool)
      requires Stored() && Coherent() && start in starts
      modifies this`progress, this`accounts, this`walked, this`skipped
      ensures Coherent()
      ensures var n := old(Step(tx, held, start, ProgressOf(start)));
              && advance == n.advance && crashed == n.crashed
              && progress == old(progress)[start := n.progress.(resume := Looked(progress, start, UNREAD).resume)]
              && accounts == old(accounts)[start := Followed(old(AccountOf(start)), advance)]
    {
      hide Accounted, CoherentWith, Step, CacheTrue, Frontier, ResumePoint, Followed, StartsOf;
      StoredFacts();
      CoherentCaches(start);
      var p := if start in progress then progress[start] else UNREAD;
      progress := progress - {start};
      var q; ghost var walks, skips;
      q, advance, crashed, walks, skips := DecodePrefix(start, p);
      AdvancingKeepsCoherent(held, starts, old(progress), walked, skipped, start, q, walks, skips);
      PutBack(old(progress), start, q);
      progress := progress[start := q];
      accounts := accounts[start := Followed(AccountOf(start), advance)];
      walked := walked[start := Looked(walked, start, 0) + walks];
      skipped := skipped[start := Looked(skipped, start, 0) + skips];
    }

    lemma LevelAt(start: nat)
      requires Valid() && agreed
      ensures Bounded(held) && starts == StartsOf(held)
      ensures start in starts ==> BatchSound(tx, RunOf(held, start), ProgressOf(start), AccountOf(start))
    {
      hide Accounted, BatchSound;
      StoredFacts();
    }

    lemma CoherentCaches(start: nat)
      requires Coherent() && start in starts
      ensures CacheTrue(held, start, ProgressOf(start))
    {
    }

    ghost predicate InStep(todo: seq<nat>)
      reads this
    {
      && Stored() && Coherent()
      && accounts.Keys <= progress.Keys
      && (agreed ==> progress.Keys <= starts && LevelBut(tx, held, starts, progress, accounts, todo))
    }

    lemma InsertedInStep(h: Held, begun: set<nat>, before: map<nat, Progress>, index: nat, shred: Shred)
      requires Stored() && Coherent() && accounts.Keys <= before.Keys && index < INDEX_LIMIT
      requires held == h[index := shred]
      requires progress == if index in h then Forgotten(before, Candidates(starts, index)) else before
      requires Bounded(h) && begun == StartsOf(h) && BegunInHeld(h, before) && CachesTrue(h, before)
      requires agreed ==> index in h ==> shred.data == h[index].data && shred.complete == h[index].complete
      requires agreed ==> before.Keys <= begun && LevelBut(tx, h, begun, before, accounts, [])
      ensures InStep(Candidates(starts, index))
    {
      hide Accounted, CachesTrue, BegunInHeld, WalksCounted, LevelBut, StartsOf, Candidates, Forgotten;
      StoredFacts();
      StartsAfter(h, index, shred);
      if agreed {
        if index in h {
          AgreeingCopyLeavesCandidates(tx, h, index, shred, begun, before, accounts);
        } else {
          FreshShredLeavesCandidates(tx, h, index, shred, begun, before, accounts);
        }
      }
    }

    /** Takes one shred in and hands over whatever it made readable: the buffer's share of the
        assembler's insert. */
    method Take(index: nat, data: seq<byte>, complete: bool, lastInSlot: bool, received: nat, recovered: bool)
      returns (duplicate: bool, pieces: seq<DecodedBatch>, crashed: bool)
      requires Valid() && index < INDEX_LIMIT
      modifies this
      ensures Valid()
      ensures held == old(held)[index := Shred(data, complete, received, recovered)]
      ensures duplicate <==> index in old(held)
      ensures agreed == (old(agreed) && (index in old(held) ==>
                data == old(held)[index].data && complete == old(held)[index].complete))
      ensures agreed ==> !crashed
      ensures crashed <==> AnyCrashes(tx, held,
                if duplicate then Forgotten(old(progress), Candidates(starts, index)) else old(progress),
                Candidates(starts, index))
      ensures !crashed ==> PassedOver(tx, held,
                if duplicate then Forgotten(old(progress), Candidates(starts, index)) else old(progress), progress,
                old(accounts), accounts, Candidates(starts, index))
      ensures Handed(old(accounts), accounts, pieces)
      ensures lastIndex == if lastInSlot then Some(index) else old(lastIndex)
      ensures Live() <= old(Live()) + |data| && |arena| <= ArenaBound(old(Live()), |data|)
      ensures capacity <= old(capacity) + Max(|arena|, MIN_CAPACITY)
      ensures |progress| <= old(|progress|) + 2
    {
      hide Accounted, CachesTrue, BegunInHeld, WalksCounted, LevelBut, StartsOf, Candidates, Forgotten, Handed,
           Step, ArenaBound, Followed, PassedOver, AnyCrashes;
      StoredFacts();
      if lastInSlot {
        lastIndex := Some(index);
      }
      ghost var shred := Shred(data, complete, received, recovered);
      duplicate := Insert(index, data, complete, received, recovered);
      InsertedInStep(old(held), old(starts), old(progress), index, shred);
      var touched := Candidates(starts, index);
      pieces, crashed := [], false;
      HandingNothing(accounts);
      pieces, crashed := AdvanceAll(touched);
    }

    /** Carries every batch in `todo` forward, in order. */
    method AdvanceAll(todo: seq<nat>) returns (pieces: seq<DecodedBatch>, crashed: bool)
      requires InStep(todo) && |todo| <= 2
      requires forall s :: s in todo ==> s in starts
      requires forall j, k :: 0 <= j < k < |todo| ==> todo[j] != todo[k]
      modifies this`progress, this`accounts, this`walked, this`skipped
      ensures Valid() && (agreed ==> !crashed)
      ensures crashed <==> AnyCrashes(tx, held, old(progress), todo)
      ensures !crashed ==> PassedOver(tx, held, old(progress), progress, old(accounts), accounts, todo)
      ensures Handed(old(accounts), accounts, pieces)
      ensures |progress| <= old(|progress|) + |todo|
    {
      hide Accounted, CoherentWith, LevelBut, Handed, Step, Followed, PassedOver, AnyCrashes, Piece;
      pieces, crashed := [], false;
      HandingNothing(accounts);
      StoredFacts();
      PassingNone(tx, held, progress, accounts);
      NoneCrashes(tx, held, progress);
      var k := 0;
      WholeOf(todo);
      while k < |todo| && !crashed
        invariant k <= |todo| && (agreed ==> !crashed)
        invariant InStep(todo[k..])
        invariant PassedOver(tx, held, old(progress), progress, old(accounts), accounts, todo[..k])
        invariant crashed <==> AnyCrashes(tx, held, old(progress), todo[..k])
        invariant Handed(old(accounts), accounts, pieces)
        invariant |progress| <= old(|progress|) + k
        decreases |todo| - k
      {
        var start := todo[k];
        ghost var beforeProgress, beforeAccounts := progress, accounts;
        var advance;
        advance, crashed := AdvanceBatch(start);
        HandingOne(old(accounts), beforeAccounts, pieces, start, advance);
        CrashingOne(tx, held, old(progress), beforeProgress, old(accounts), beforeAccounts, todo[..k], start);
        PassingOne(tx, held, old(progress), beforeProgress, old(accounts), beforeAccounts, todo[..k], start,
                   progress[start], accounts[start]);
        OneFurther(todo, k);
        if agreed {
          AdvancingOneOfMany(tx, held, starts, beforeProgress, beforeAccounts, todo[k..], start, progress[start],
                             accounts[start]);
        }
        pieces := pieces + Piece(start, advance);
        k := k + 1;
      }
      CrashesAmongMore(tx, held, old(progress), todo, k);
    }

    // -------------------------------------------------------------- what a slot is left with

    /** The indices never held: up to the slot's last index if that is known, and if not up to
        the greatest one held. */
    function Missing(): seq<nat>
      reads this
    {
      Gaps(shreds.Keys, lastIndex)
    }

    /** Between inserts nothing decodable is left lying: advancing any batch again yields nothing
        and changes nothing but where its walk stopped. */
    lemma Quiescent(start: nat)
      requires Valid() && agreed && start in starts
      ensures var n := Step(tx, held, start, ProgressOf(start));
              n.advance.None? && !n.crashed && n.progress == ProgressOf(start).(extent := n.progress.extent)
    {
      hide Accounted, CoherentWith, BatchSound, Settled, Step;
      StoredFacts();
      SoundIsQuiet(tx, held, start, ProgressOf(start), AccountOf(start));
    }

    /** Incremental decoding is decoding once: what has been handed over for a batch is a prefix
        of what one reading of its run yields and, while the run is within its bound, all of it. */
    lemma HandedOverIsTheReading(start: nat)
      requires Valid() && agreed && start in starts
      ensures var run, account := RunOf(held, start), AccountOf(start);
              && account.emitted <= OneShot(tx, run.data).entries
              && |account.verdicts| <= 1 && account.openings <= 1
              && Rising(account.ends, run.end)
              && Vouched(account)
              && (run.openLen <= MAX_BATCH_BYTES ==>
                    && account.emitted == OneShot(tx, run.data).entries
                    && account.verdicts == Listed(Deserved(tx, run))
                    && CalledRightly(OneShot(tx, run.data), run.complete, account.verdicts))
    {
      hide Accounted, CoherentWith, OneShot, RunOf, Deserved, CalledRightly;
      StoredFacts();
      if RunOf(held, start).openLen <= MAX_BATCH_BYTES {
        VerdictIsRight(tx, RunOf(held, start), ProgressOf(start), AccountOf(start));
      }
      assert BatchSound(tx, RunOf(held, start), ProgressOf(start), AccountOf(start));
    }

    /** Since a shred of the batch last came twice, all its walks together crossed no more shreds
        than its run has, and so did all its skips. */
    lemma WalksAreLinear(start: nat)
      requires Valid() && start in starts && start in progress
      ensures Looked(walked, start, 0) + start <= RunEnd(held, start)
      ensures Looked(skipped, start, 0) + start <= RunEnd(held, start)
    {
      hide Accounted, LevelBut;
      StoredFacts();
      CoherentCaches(start);
      CachedWithinRun(held, start, ProgressOf(start));
    }

    /** What compaction ever copied, and the arena as it stands, is paid for by what was stored. */
    lemma CompactionIsPaidFor()
      requires Valid()
      ensures copied + |arena| <= appended
    {
    }
  }

  lemma WholeOf(todo: seq<nat>)
    ensures todo[0..] == todo == todo[..|todo|] && todo[..0] == []
  {
  }

  lemma PutBack(progress: map<nat, Progress>, start: nat, q: Progress)
    ensures (progress - {start})[start := q] == progress[start := q]
  {
  }

  lemma OneFurther(todo: seq<nat>, k: nat)
    requires k < |todo|
    ensures todo[k..] != [] && todo[k..][0] == todo[k] && todo[k..][1..] == todo[k + 1..]
    ensures todo[..k] + [todo[k]] == todo[..k + 1]
  {
  }

  function Highest(indices: set<nat>): Option<nat> {
    var keys := SortedKeys(indices);
    if keys == [] then None else Some(keys[|keys| - 1])
  }

  function Gaps(indices: set<nat>, lastIndex: Option<nat>): seq<nat> {
    var last := if lastIndex.Some? then lastIndex else Highest(indices);
    if last.None? then [] else SortedKeys(set i: nat | i <= last.value && i !in indices)
  }

  /** Exactly the indices never held, in order, up to where the slot is known to end, or else up
      to the highest held. */
  lemma GapsAreWhatIsMissing(indices: set<nat>, lastIndex: Option<nat>, i: nat)
    ensures Ascending(Gaps(indices, lastIndex))
    ensures i in Gaps(indices, lastIndex) <==>
              i !in indices && (if lastIndex.Some? then i <= lastIndex.value else exists k :: k in indices && i <= k)
  {
    var keys := SortedKeys(indices);
    if keys != [] {
      var last := keys[|keys| - 1];
      assert last in keys;
      if k: nat :| k in indices && i <= k {
        assert k in keys;
      }
    }
  }

  /** Confluence, buffer against buffer: whatever order two of them took their shreds in, and
      whatever was resent, if they hold the same bytes they handed over the same. */
  lemma OrderDoesNotMatter(a: SlotBuffer, b: SlotBuffer, start: nat)
    requires a.Valid() && b.Valid() && a.agreed && b.agreed && a.tx == b.tx
    requires AgreesWith(a.held, b.held) && AgreesWith(b.held, a.held)
    requires start in a.starts && RunOf(a.held, start).openLen <= MAX_BATCH_BYTES
    ensures start in b.starts && RunOf(b.held, start) == RunOf(a.held, start)
    ensures a.AccountOf(start).emitted == b.AccountOf(start).emitted
    ensures a.AccountOf(start).verdicts == b.AccountOf(start).verdicts
    ensures a.AccountOf(start).openings == b.AccountOf(start).openings
  {
    hide SlotBuffer.Valid, OneShot, RunOf, BatchSound, AgreesWith, StartsOf;
    a.LevelAt(start);
    b.LevelAt(start);
    SameShredsSameRun(a.held, b.held, start);
    Confluence(a.tx, RunOf(a.held, start), a.ProgressOf(start), a.AccountOf(start), b.ProgressOf(start),
               b.AccountOf(start));
  }

  lemma SameShredsSameRun(h: Held, g: Held, s: nat)
    requires Bounded(h) && Bounded(g) && AgreesWith(h, g) && AgreesWith(g, h) && s in StartsOf(h)
    ensures s in StartsOf(g) && RunOf(h, s) == RunOf(g, s)
  {
    hide RunOf;
    if s != 0 { assert s - 1 in g && g[s - 1].complete; }
    AgreeingRunExtends(h, g, s);
    AgreeingRunExtends(g, h, s);
  }
}
