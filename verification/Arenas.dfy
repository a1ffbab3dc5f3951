/** The one growing buffer a slot keeps its shreds' bytes in, as values: where each shred's
    bytes sit, what compaction does to them, and what storing one more copy does. */
module Arenas {
  import opened Bytes
  import opened Collections
  import opened Codec
  import opened Runs

  datatype StoredShred = StoredShred(at: nat, len: nat, complete: bool, received: nat, recovered: bool)

  ghost function Lengths(shreds: map<nat, StoredShred>): map<nat, nat> {
    map i | i in shreds :: shreds[i].len
  }

  ghost predicate Placed(arena: seq<byte>, stored: StoredShred, shred: Shred) {
    && stored.at + stored.len <= |arena|
    && arena[stored.at..stored.at + stored.len] == shred.data
    && stored.complete == shred.complete
    && stored.received == shred.received
    && stored.recovered == shred.recovered
  }

  ghost predicate Mirrors(arena: seq<byte>, shreds: map<nat, StoredShred>, held: Held) {
    && shreds.Keys == held.Keys
    && forall i :: i in shreds ==> Placed(arena, shreds[i], held[i])
  }

  /** Each shred from `from` on to `last` begins in the arena where the one before it stops. */
  ghost predicate EndToEnd(shreds: map<nat, StoredShred>, from: nat, last: nat)
    requires forall i :: from <= i <= last ==> i in shreds
  {
    forall i :: from <= i < last ==> shreds[i + 1].at == shreds[i].at + shreds[i].len
  }

  /** Bytes appended to an arena leave every shred already in it where it was. */
  lemma PlacedStays(arena: seq<byte>, more: seq<byte>, shreds: map<nat, StoredShred>, held: Held, indices: set<nat>)
    requires indices <= shreds.Keys && indices <= held.Keys
    requires forall i :: i in indices ==> Placed(arena, shreds[i], held[i])
    ensures forall i :: i in indices ==> Placed(arena + more, shreds[i], held[i])
  {
    forall i | i in indices ensures Placed(arena + more, shreds[i], held[i]) {
      assert Placed(arena, shreds[i], held[i]);
      var s := shreds[i];
      assert (arena + more)[s.at..s.at + s.len] == arena[s.at..s.at + s.len];
    }
  }

  lemma StoredMatches(arena: seq<byte>, shreds: map<nat, StoredShred>, held: Held, i: nat)
    requires Mirrors(arena, shreds, held) && i in held
    ensures i in shreds && shreds[i].at + shreds[i].len <= |arena|
    ensures arena[shreds[i].at..shreds[i].at + shreds[i].len] == held[i].data && shreds[i].len == |held[i].data|
    ensures shreds[i].complete == held[i].complete && shreds[i].received == held[i].received
            && shreds[i].recovered == held[i].recovered
  {
    assert Placed(arena, shreds[i], held[i]);
  }

  lemma PlacedHere(arena: seq<byte>, stored: StoredShred, shred: Shred)
    requires stored.at + stored.len <= |arena| && arena[stored.at..stored.at + stored.len] == shred.data
    requires stored.complete == shred.complete && stored.received == shred.received
             && stored.recovered == shred.recovered
    ensures Placed(arena, stored, shred)
  {
  }

  lemma MirrorsStays(arena: seq<byte>, more: seq<byte>, shreds: map<nat, StoredShred>, held: Held)
    requires Mirrors(arena, shreds, held)
    ensures Mirrors(arena + more, shreds, held)
    ensures (arena + more)[|arena|..|arena| + |more|] == more
  {
    PlacedStays(arena, more, shreds, held, shreds.Keys);
  }

  ghost function LengthsOf(shreds: map<nat, StoredShred>, indices: set<nat>): map<nat, nat> {
    map i | i in indices && i in shreds :: shreds[i].len
  }

  /** Compaction part way: the shreds in `todo` are still only in the old arena. */
  ghost predicate HalfMoved(arena: seq<byte>, shreds: map<nat, StoredShred>, held: Held,
                            rebuilt: seq<byte>, moved: map<nat, StoredShred>, todo: set<nat>)
  {
    && Mirrors(arena, shreds, held)
    && todo <= shreds.Keys && moved.Keys == shreds.Keys
    && (forall i :: i in todo ==> moved[i] == shreds[i])
    && (forall i :: i in shreds && i !in todo ==> Placed(rebuilt, moved[i], held[i]))
    && |rebuilt| + Sum(LengthsOf(shreds, todo)) == Sum(Lengths(shreds))
  }

  lemma MovingOne(arena: seq<byte>, shreds: map<nat, StoredShred>, held: Held,
                  rebuilt: seq<byte>, moved: map<nat, StoredShred>, todo: set<nat>, i: nat, stored: StoredShred)
    requires HalfMoved(arena, shreds, held, rebuilt, moved, todo) && i in todo && stored == shreds[i]
    ensures stored.at + stored.len <= |arena|
    ensures HalfMoved(arena, shreds, held, rebuilt + arena[stored.at..stored.at + stored.len],
                      moved[i := stored.(at := |rebuilt|)], todo - {i})
  {
    hide Mirrors, Placed, Sum, Lengths, LengthsOf;
    PlacedIn(arena, shreds, held, i);
    PlacedMoves(arena, stored, held[i], rebuilt);
    PlacedStays(rebuilt, arena[stored.at..stored.at + stored.len], moved, held, shreds.Keys - todo);
    MovingLengths(shreds, todo, i);
  }

  lemma PlacedIn(arena: seq<byte>, shreds: map<nat, StoredShred>, held: Held, i: nat)
    requires Mirrors(arena, shreds, held) && i in shreds
    ensures i in held && shreds.Keys == held.Keys && Placed(arena, shreds[i], held[i])
  {
  }

  lemma PlacedMoves(arena: seq<byte>, stored: StoredShred, shred: Shred, rebuilt: seq<byte>)
    requires Placed(arena, stored, shred)
    ensures stored.at + stored.len <= |arena|
    ensures var bytes := arena[stored.at..stored.at + stored.len];
            Placed(rebuilt + bytes, stored.(at := |rebuilt|), shred) && |bytes| == stored.len
  {
    var bytes := arena[stored.at..stored.at + stored.len];
    assert (rebuilt + bytes)[|rebuilt|..|rebuilt| + |bytes|] == bytes;
  }

  lemma MovingLengths(shreds: map<nat, StoredShred>, todo: set<nat>, i: nat)
    requires i in todo && i in shreds
    ensures Sum(LengthsOf(shreds, todo)) == shreds[i].len + Sum(LengthsOf(shreds, todo - {i}))
  {
    SumRemove(LengthsOf(shreds, todo), i);
    assert LengthsOf(shreds, todo) - {i} == LengthsOf(shreds, todo - {i});
  }

  lemma NothingMoved(arena: seq<byte>, shreds: map<nat, StoredShred>, held: Held)
    requires Mirrors(arena, shreds, held)
    ensures HalfMoved(arena, shreds, held, [], shreds, shreds.Keys)
  {
    assert LengthsOf(shreds, shreds.Keys) == Lengths(shreds);
  }

  lemma AllMoved(arena: seq<byte>, shreds: map<nat, StoredShred>, held: Held,
                 rebuilt: seq<byte>, moved: map<nat, StoredShred>)
    requires HalfMoved(arena, shreds, held, rebuilt, moved, {})
    ensures Mirrors(rebuilt, moved, held) && Lengths(moved) == Lengths(shreds)
    ensures |rebuilt| == Sum(Lengths(shreds))
  {
    assert LengthsOf(shreds, {}) == map[];
    forall i | i in shreds ensures moved[i].len == shreds[i].len {
      assert Placed(arena, shreds[i], held[i]) && Placed(rebuilt, moved[i], held[i]);
    }
  }

  /** The arena holds exactly the bytes of `held`, plus what replaced copies stranded and
      `extra` bytes no shred has been entered for yet. What compaction ever copied is paid
      for by what was ever appended. */
  ghost predicate Accounted(arena: seq<byte>, capacity: nat, stale: nat, shreds: map<nat, StoredShred>, held: Held,
                            extra: nat, appended: nat, copied: nat)
  {
    && Bounded(held)
    && Mirrors(arena, shreds, held)
    && |arena| == stale + Sum(Lengths(shreds)) + extra
    && |arena| <= capacity
    && copied + |arena| <= appended
  }

  lemma StoringOne(arena: seq<byte>, shreds: map<nat, StoredShred>, held: Held, index: nat, stored: StoredShred,
                   shred: Shred)
    requires Mirrors(arena, shreds, held) && Placed(arena, stored, shred)
    ensures Mirrors(arena, shreds[index := stored], held[index := shred])
    ensures Sum(Lengths(shreds[index := stored])) ==
            Sum(Lengths(shreds)) + stored.len - (if index in shreds then shreds[index].len else 0)
    ensures index in shreds ==> shreds[index].len <= Sum(Lengths(shreds))
  {
    hide Placed;
    assert Lengths(shreds[index := stored]) == Lengths(shreds)[index := stored.len];
    SumUpdate(Lengths(shreds), index, stored.len);
    if index in shreds { SumRemove(Lengths(shreds), index); }
  }

  lemma EnteringOne(arena: seq<byte>, capacity: nat, stale: nat, shreds: map<nat, StoredShred>, held: Held,
                    appended: nat, copied: nat, index: nat, stored: StoredShred, shred: Shred)
    requires Accounted(arena, capacity, stale, shreds, held, stored.len, appended, copied)
    requires Placed(arena, stored, shred) && index < INDEX_LIMIT
    ensures shreds.Keys == held.Keys
    ensures stored.complete == shred.complete
    ensures index in shreds ==> shreds[index].complete == held[index].complete
    ensures Accounted(arena, capacity, stale + if index in shreds then shreds[index].len else 0,
                      shreds[index := stored], held[index := shred], 0, appended, copied)
  {
    StoringOne(arena, shreds, held, index, stored, shred);
    assert index in shreds ==> Placed(arena, shreds[index], held[index]);
  }

  lemma NothingIsAccounted(arena: seq<byte>, shreds: map<nat, StoredShred>, held: Held)
    requires arena == [] && shreds == map[] && held == map[]
    ensures Bounded(held) && Mirrors(arena, shreds, held) && Sum(Lengths(shreds)) == 0
  {
    assert Lengths(shreds) == map[];
  }

  // ---------------------------------------------------------------- reading a run back

  /** What laying the shreds `[from, to)` side by side has found: where they begin, how many
      bytes they are, and whether each begins where the one before it stops. If so a slice of the
      arena is their bytes. */
  ghost predicate Laid(arena: seq<byte>, shreds: map<nat, StoredShred>, held: Held, from: nat, to: nat,
                       at: nat, len: nat, next: nat, contiguous: bool)
  {
    && from < to
    && (forall i :: from <= i < to ==> i in held && i in shreds)
    && len == |Cat(held, from, to)|
    && next == shreds[to - 1].at + shreds[to - 1].len
    && (contiguous <==> EndToEnd(shreds, from, to - 1))
    && (contiguous ==> at + len == next <= |arena| && arena[at..at + len] == Cat(held, from, to))
  }

  lemma LayingFirst(arena: seq<byte>, shreds: map<nat, StoredShred>, held: Held, from: nat)
    requires Mirrors(arena, shreds, held) && from in held
    ensures from in shreds
    ensures var s := shreds[from]; Laid(arena, shreds, held, from, from + 1, s.at, s.len, s.at + s.len, true)
  {
    StoredMatches(arena, shreds, held, from);
    assert Cat(held, from, from) == [];
    assert Cat(held, from, from + 1) == held[from].data;
  }

  lemma LayingOne(arena: seq<byte>, shreds: map<nat, StoredShred>, held: Held, from: nat, to: nat,
                  at: nat, len: nat, next: nat, contiguous: bool, s: StoredShred)
    requires Mirrors(arena, shreds, held) && to in held && s == shreds[to]
    requires Laid(arena, shreds, held, from, to, at, len, next, contiguous)
    ensures Laid(arena, shreds, held, from, to + 1, at, len + s.len, s.at + s.len, contiguous && s.at == next)
  {
    hide Mirrors, EndToEnd, Cat;
    StoredMatches(arena, shreds, held, to);
    EndToEndGrows(shreds, from, to);
    CatGrows(held, from, to);
    if contiguous && s.at == next {
      assert arena[at..at + len] + arena[next..next + s.len] == arena[at..at + len + s.len];
    }
  }

  lemma LaidOut(arena: seq<byte>, shreds: map<nat, StoredShred>, held: Held, from: nat, to: nat,
                at: nat, len: nat, next: nat, contiguous: bool)
    requires Laid(arena, shreds, held, from, to, at, len, next, contiguous)
    ensures forall i :: from <= i < to ==> i in shreds
    ensures from <= to - 1 && (contiguous <==> EndToEnd(shreds, from, to - 1))
    ensures contiguous ==> at + len <= |arena| && arena[at..at + len] == Cat(held, from, to)
  {
  }

  lemma EndToEndGrows(shreds: map<nat, StoredShred>, from: nat, to: nat)
    requires from < to && forall i :: from <= i <= to ==> i in shreds
    ensures EndToEnd(shreds, from, to) <==>
            EndToEnd(shreds, from, to - 1) && shreds[to].at == shreds[to - 1].at + shreds[to - 1].len
  {
    if EndToEnd(shreds, from, to) {
      assert shreds[to - 1 + 1].at == shreds[to - 1].at + shreds[to - 1].len;
    }
  }
}
