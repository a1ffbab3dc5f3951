/** Where two transactions of a slot stand relative to each other in the leader's order, from
    the pieces the assembler hands over. */
module Races {
  import opened Bytes
  import opened Collections
  import opened Codec
  import opened Pieces
  import opened AgedMaps

  const SETTLE := 1000
  const MAX_SLOTS := 64
  const MAX_PAIRS := 64

  datatype Role = Searcher | Target

  datatype Hit = Hit(role: Role, firstShred: nat, entry: nat, transaction: nat, signature: Option<Signature>)

  /** What a batch adds to the slot's running order: how far it reaches, and how many
      transactions each of its entries carries. */
  datatype Span = Span(lastShred: nat, entries: seq<nat>)

  datatype Wallets = Wallets(searchers: set<Address>, targets: set<Address>)

  // ---------------------------------------------------------------- places

  function Total(counts: seq<nat>): nat {
    if counts == [] then 0 else Total(counts[..|counts| - 1]) + counts[|counts| - 1]
  }

  /** What a gap is counted in. */
  datatype Unit = Transactions | Entries

  function Weigh(unit: Unit, span: Span): nat {
    match unit
    case Transactions => Total(span.entries)
    case Entries => |span.entries|
  }

  /** What the batches beginning in `[lo, hi)` come to. */
  ghost function SumOver(spans: map<nat, Span>, lo: nat, hi: nat, unit: Unit): nat
    decreases hi
  {
    if hi <= lo then 0
    else SumOver(spans, lo, hi - 1, unit) + if hi - 1 in spans then Weigh(unit, spans[hi - 1]) else 0
  }

  /** A hit that is one of the transactions its batch is known to carry. */
  ghost predicate Located(spans: map<nat, Span>, hit: Hit) {
    && hit.firstShred in spans
    && hit.entry < |spans[hit.firstShred].entries|
    && hit.transaction < spans[hit.firstShred].entries[hit.entry]
  }

  /** How many transactions, and how many entries, stand before the hit. */
  ghost function TransactionsBefore(spans: map<nat, Span>, hit: Hit): nat
    requires Located(spans, hit)
  {
    SumOver(spans, 0, hit.firstShred, Transactions)
    + Total(spans[hit.firstShred].entries[..hit.entry]) + hit.transaction
  }

  ghost function EntriesBefore(spans: map<nat, Span>, hit: Hit): nat
    requires Located(spans, hit)
  {
    SumOver(spans, 0, hit.firstShred, Entries) + hit.entry
  }

  /** The leader wrote `a` before `b`. */
  ghost predicate Precedes(a: Hit, b: Hit) {
    || a.firstShred < b.firstShred
    || (a.firstShred == b.firstShred && a.entry < b.entry)
    || (a.firstShred == b.firstShred && a.entry == b.entry && a.transaction < b.transaction)
  }

  /** `next` is where the next batch after the one at `k` begins. */
  ghost predicate Adjacent(spans: map<nat, Span>, k: nat, next: nat) {
    next in spans && k < next && forall j :: k < j < next ==> j !in spans
  }

  /** From `low` to `high` every batch is followed at once by the next. */
  ghost predicate Tiled(spans: map<nat, Span>, low: nat, high: nat) {
    && low in spans && high in spans
    && forall k :: k in spans && low <= k < high ==>
         spans[k].lastShred < high && Adjacent(spans, k, spans[k].lastShred + 1)
  }

  lemma {:induction false} SumSplits(spans: map<nat, Span>, lo: nat, mid: nat, hi: nat, unit: Unit)
    requires lo <= mid <= hi
    ensures SumOver(spans, lo, hi, unit) == SumOver(spans, lo, mid, unit) + SumOver(spans, mid, hi, unit)
    decreases hi
  {
    if mid < hi { SumSplits(spans, lo, mid, hi - 1, unit); }
  }

  lemma {:induction false} SumOfNoSpans(spans: map<nat, Span>, lo: nat, hi: nat, unit: Unit)
    requires forall k :: k in spans ==> !(lo <= k < hi)
    ensures SumOver(spans, lo, hi, unit) == 0
    decreases hi
  {
    if lo < hi { SumOfNoSpans(spans, lo, hi - 1, unit); }
  }

  lemma {:induction false} SumMonotone(spans: map<nat, Span>, whole: map<nat, Span>, lo: nat, hi: nat, unit: Unit)
    requires forall k :: k in spans && lo <= k < hi ==> k in whole && Weigh(unit, spans[k]) <= Weigh(unit, whole[k])
    ensures SumOver(spans, lo, hi, unit) <= SumOver(whole, lo, hi, unit)
    decreases hi
  {
    if lo < hi { SumMonotone(spans, whole, lo, hi - 1, unit); }
  }

  lemma {:induction false} TotalSplits(a: seq<nat>, b: seq<nat>)
    ensures Total(a + b) == Total(a) + Total(b)
    decreases |b|
  {
    if b == [] {
      assert a + b == a;
    } else {
      assert (a + b)[..|a + b| - 1] == a + b[..|b| - 1];
      TotalSplits(a, b[..|b| - 1]);
    }
  }

  lemma TotalUpTo(counts: seq<nat>, k: nat, m: nat)
    requires k < m <= |counts|
    ensures Total(counts[..k]) + counts[k] <= Total(counts[..m])
  {
    assert counts[..k + 1][..k] == counts[..k];
    assert counts[..m] == counts[..k + 1] + counts[k + 1..m];
    TotalSplits(counts[..k + 1], counts[k + 1..m]);
  }

  // ---------------------------------------------------------------- the held order against the leader's

  /** Of the leader's batches some are held, each as far as it has been decoded, and a batch
      known to reach its last shred is known entirely. */
  ghost predicate Within(spans: map<nat, Span>, whole: map<nat, Span>) {
    && spans.Keys <= whole.Keys
    && forall k :: k in spans ==>
         && spans[k].entries <= whole[k].entries
         && spans[k].lastShred <= whole[k].lastShred
         && (spans[k].lastShred == whole[k].lastShred ==> spans[k].entries == whole[k].entries)
  }

  /** The leader's batches follow one another without a hole. */
  ghost predicate Partition(whole: map<nat, Span>) {
    forall j, k :: j in whole && k in whole && j < k ==> whole[j].lastShred < k
  }

  lemma WithinWeighs(spans: map<nat, Span>, whole: map<nat, Span>, k: nat)
    requires Within(spans, whole) && k in spans
    ensures k in whole && Weigh(Transactions, spans[k]) <= Weigh(Transactions, whole[k])
            && Weigh(Entries, spans[k]) <= Weigh(Entries, whole[k])
  {
    var rest := whole[k].entries[|spans[k].entries|..];
    assert whole[k].entries == spans[k].entries + rest;
    TotalSplits(spans[k].entries, rest);
  }

  lemma WithinKeys(spans: map<nat, Span>, whole: map<nat, Span>)
    requires Within(spans, whole)
    ensures spans.Keys <= whole.Keys
  {
  }

  lemma GreatestBelow(spans: map<nat, Span>, low: nat, k: nat) returns (j: nat)
    requires low in spans && low < k
    ensures j in spans && low <= j < k && forall i :: j < i < k ==> i !in spans
    decreases k
  {
    if k - 1 in spans {
      j := k - 1;
    } else {
      j := GreatestBelow(spans, low, k - 1);
    }
  }

  /** What follows a batch in a tiled range is where the leader's next batch begins. */
  lemma TiledReaches(spans: map<nat, Span>, whole: map<nat, Span>, low: nat, high: nat, k: nat)
    requires Within(spans, whole) && Partition(whole) && Tiled(spans, low, high)
    requires k in spans && low <= k < high
    ensures k in whole && spans[k].lastShred == whole[k].lastShred && spans[k].entries == whole[k].entries
    ensures forall m :: k < m <= spans[k].lastShred ==> m !in whole
    ensures k <= spans[k].lastShred && spans[k].lastShred + 1 in spans
  {
    assert Adjacent(spans, k, spans[k].lastShred + 1);
    assert spans[k].lastShred + 1 in whole;
  }

  /** A tiled range misses no batch of the leader's, and knows each of them entirely. */
  lemma TiledRangeIsWhole(spans: map<nat, Span>, whole: map<nat, Span>, low: nat, high: nat, k: nat)
    requires Within(spans, whole) && Partition(whole) && Tiled(spans, low, high)
    requires low <= k < high
    ensures k in spans <==> k in whole
    ensures k in spans ==> spans[k].entries == whole[k].entries
  {
    hide Within, Partition, Adjacent;
    if k in spans {
      TiledReaches(spans, whole, low, high, k);
    } else {
      var j := GreatestBelow(spans, low, k);
      TiledReaches(spans, whole, low, high, j);
      assert spans[j].lastShred + 1 > k;
      WithinKeys(spans, whole);
    }
  }

  lemma {:induction false} TiledSums(spans: map<nat, Span>, whole: map<nat, Span>, low: nat, high: nat, upTo: nat,
                                     unit: Unit)
    requires Within(spans, whole) && Partition(whole) && Tiled(spans, low, high) && low <= upTo <= high
    ensures SumOver(spans, low, upTo, unit) == SumOver(whole, low, upTo, unit)
    decreases upTo
  {
    hide Within, Partition, Tiled;
    if low < upTo {
      TiledRangeIsWhole(spans, whole, low, high, upTo - 1);
      TiledSums(spans, whole, low, high, upTo - 1, unit);
    }
  }

  lemma LocatedWithin(spans: map<nat, Span>, whole: map<nat, Span>, hit: Hit)
    requires Within(spans, whole) && Located(spans, hit)
    ensures Located(whole, hit)
    ensures whole[hit.firstShred].entries[..hit.entry] == spans[hit.firstShred].entries[..hit.entry]
    ensures whole[hit.firstShred].entries[hit.entry] == spans[hit.firstShred].entries[hit.entry]
  {
  }

  /** How `a` and `b` lie apart, in any order of batches they are both located in. */
  lemma GapSplits(spans: map<nat, Span>, a: Hit, b: Hit)
    requires Located(spans, a) && Located(spans, b) && a.firstShred <= b.firstShred
    ensures TransactionsBefore(spans, b) - TransactionsBefore(spans, a) ==
            SumOver(spans, a.firstShred, b.firstShred, Transactions)
            + Total(spans[b.firstShred].entries[..b.entry]) + b.transaction
            - Total(spans[a.firstShred].entries[..a.entry]) - a.transaction
    ensures EntriesBefore(spans, b) - EntriesBefore(spans, a) ==
            SumOver(spans, a.firstShred, b.firstShred, Entries) + b.entry - a.entry
  {
    SumSplits(spans, 0, a.firstShred, b.firstShred, Transactions);
    SumSplits(spans, 0, a.firstShred, b.firstShred, Entries);
  }

  /** A gap is never negative from the earlier hit to the later. */
  lemma GapsAreOrdered(spans: map<nat, Span>, a: Hit, b: Hit)
    requires Located(spans, a) && Located(spans, b) && Precedes(a, b)
    ensures TransactionsBefore(spans, a) < TransactionsBefore(spans, b)
    ensures EntriesBefore(spans, a) <= EntriesBefore(spans, b)
  {
    GapSplits(spans, a, b);
    var counts := spans[a.firstShred].entries;
    if a.firstShred < b.firstShred {
      SumSplits(spans, a.firstShred, a.firstShred + 1, b.firstShred, Transactions);
      SumSplits(spans, a.firstShred, a.firstShred + 1, b.firstShred, Entries);
      assert SumOver(spans, a.firstShred, a.firstShred, Transactions) == 0;
      assert SumOver(spans, a.firstShred, a.firstShred, Entries) == 0;
      TotalUpTo(counts, a.entry, |counts|);
      assert counts[..|counts|] == counts;
    } else if a.entry < b.entry {
      TotalUpTo(counts, a.entry, b.entry);
    }
  }

  /** The race's claim: however little of the slot is decoded, the gap measured from the
      earlier of two hits to the later is at most the leader's own, and it is the leader's
      own when the range between them is tiled. */
  lemma GapsAreHonest(spans: map<nat, Span>, whole: map<nat, Span>, a: Hit, b: Hit)
    requires Within(spans, whole) && Partition(whole)
    requires Located(spans, a) && Located(spans, b) && Precedes(a, b)
    ensures Located(whole, a) && Located(whole, b)
    ensures var gap, leaders := TransactionsBefore(spans, b) - TransactionsBefore(spans, a),
                                TransactionsBefore(whole, b) - TransactionsBefore(whole, a);
            0 < gap <= leaders && (Tiled(spans, a.firstShred, b.firstShred) ==> gap == leaders)
    ensures var gap, leaders := EntriesBefore(spans, b) - EntriesBefore(spans, a),
                                EntriesBefore(whole, b) - EntriesBefore(whole, a);
            0 <= gap <= leaders && (Tiled(spans, a.firstShred, b.firstShred) ==> gap == leaders)
  {
    hide SumOver, Tiled, Partition, TransactionsBefore, EntriesBefore, Total, Within;
    LocatedWithin(spans, whole, a);
    LocatedWithin(spans, whole, b);
    GapSplits(spans, a, b);
    GapSplits(whole, a, b);
    GapsAreOrdered(spans, a, b);
    forall k | k in spans
      ensures k in whole && Weigh(Transactions, spans[k]) <= Weigh(Transactions, whole[k])
              && Weigh(Entries, spans[k]) <= Weigh(Entries, whole[k])
    {
      WithinWeighs(spans, whole, k);
    }
    SumMonotone(spans, whole, a.firstShred, b.firstShred, Transactions);
    SumMonotone(spans, whole, a.firstShred, b.firstShred, Entries);
    if Tiled(spans, a.firstShred, b.firstShred) {
      TiledSums(spans, whole, a.firstShred, b.firstShred, b.firstShred, Transactions);
      TiledSums(spans, whole, a.firstShred, b.firstShred, b.firstShred, Entries);
    }
  }

  // ---------------------------------------------------------------- a slot already reported

  /** What is left to tell of `full` when some of it was told, and reported, before: of each
      batch the entries behind those told, and its whole reach. */
  ghost predicate Late(late: map<nat, Span>, full: map<nat, Span>) {
    && late.Keys <= full.Keys
    && forall k :: k in late ==>
         && late[k].lastShred == full[k].lastShred
         && |late[k].entries| <= |full[k].entries|
         && late[k].entries == full[k].entries[|full[k].entries| - |late[k].entries|..]
  }

  /** How many of the batch's entries were told before. */
  ghost function Told(late: map<nat, Span>, full: map<nat, Span>, k: nat): nat
    requires Late(late, full) && k in late
  {
    |full[k].entries| - |late[k].entries|
  }

  /** Those entries, of each batch told of again. */
  ghost function Heads(late: map<nat, Span>, full: map<nat, Span>): map<nat, Span>
    requires Late(late, full)
  {
    map k | k in late :: Span(late[k].lastShred, full[k].entries[..Told(late, full, k)])
  }

  ghost function Restored(late: map<nat, Span>, full: map<nat, Span>): map<nat, Span>
    requires Late(late, full)
  {
    map k | k in late :: full[k]
  }

  /** Where the hit stands in its batch, those entries counted. */
  ghost function Moved(late: map<nat, Span>, full: map<nat, Span>, hit: Hit): Hit
    requires Late(late, full) && hit.firstShred in late
  {
    hit.(entry := Told(late, full, hit.firstShred) + hit.entry)
  }

  /** What a late gap from `a` to `b` misses: what was told before of the batches behind that of
      `a`, up to and with that of `b`. */
  ghost function Missed(late: map<nat, Span>, full: map<nat, Span>, a: Hit, b: Hit, unit: Unit): nat
    requires Late(late, full)
  {
    SumOver(Heads(late, full), a.firstShred + 1, b.firstShred + 1, unit)
  }

  lemma {:induction false} SumsAddUp(late: map<nat, Span>, full: map<nat, Span>, lo: nat, hi: nat, unit: Unit)
    requires Late(late, full)
    ensures SumOver(Restored(late, full), lo, hi, unit) ==
            SumOver(late, lo, hi, unit) + SumOver(Heads(late, full), lo, hi, unit)
    decreases hi
  {
    if lo < hi {
      SumsAddUp(late, full, lo, hi - 1, unit);
      if hi - 1 in late {
        var told := Told(late, full, hi - 1);
        assert full[hi - 1].entries == full[hi - 1].entries[..told] + late[hi - 1].entries;
        TotalSplits(full[hi - 1].entries[..told], late[hi - 1].entries);
      }
    }
  }

  lemma MovedIsLocated(late: map<nat, Span>, full: map<nat, Span>, hit: Hit)
    requires Late(late, full) && Located(late, hit)
    ensures Located(Restored(late, full), Moved(late, full, hit))
    ensures var k := hit.firstShred; var told := Told(late, full, k);
            Total(full[k].entries[..told + hit.entry]) ==
            Total(full[k].entries[..told]) + Total(late[k].entries[..hit.entry])
  {
    var k := hit.firstShred;
    var told := Told(late, full, k);
    assert full[k].entries[..told + hit.entry] == full[k].entries[..told] + late[k].entries[..hit.entry];
    TotalSplits(full[k].entries[..told], late[k].entries[..hit.entry]);
  }

  /** Restoring what was told before adds exactly what was missed. */
  lemma RestoringAdds(late: map<nat, Span>, full: map<nat, Span>, a: Hit, b: Hit)
    requires Late(late, full) && Located(late, a) && Located(late, b) && a.firstShred <= b.firstShred
    ensures var r := Restored(late, full); var x, y := Moved(late, full, a), Moved(late, full, b);
            && Located(r, x) && Located(r, y)
            && TransactionsBefore(r, y) - TransactionsBefore(r, x) ==
               TransactionsBefore(late, b) - TransactionsBefore(late, a) + Missed(late, full, a, b, Transactions)
            && EntriesBefore(r, y) - EntriesBefore(r, x) ==
               EntriesBefore(late, b) - EntriesBefore(late, a) + Missed(late, full, a, b, Entries)
  {
    hide Total, SumOver, TransactionsBefore, EntriesBefore, Restored;
    var r := Restored(late, full);
    MovedIsLocated(late, full, a);
    MovedIsLocated(late, full, b);
    GapSplits(late, a, b);
    GapSplits(r, Moved(late, full, a), Moved(late, full, b));
    RestoredAt(late, full, a.firstShred);
    RestoredAt(late, full, b.firstShred);
    HeadsBetween(late, full, a.firstShred, b.firstShred, Transactions);
    HeadsBetween(late, full, a.firstShred, b.firstShred, Entries);
    SumsAddUp(late, full, a.firstShred, b.firstShred, Transactions);
    SumsAddUp(late, full, a.firstShred, b.firstShred, Entries);
  }

  lemma RestoredAt(late: map<nat, Span>, full: map<nat, Span>, k: nat)
    requires Late(late, full) && k in late
    ensures k in Restored(late, full) && Restored(late, full)[k] == full[k]
  {
  }

  lemma HeadsBetween(late: map<nat, Span>, full: map<nat, Span>, a: nat, b: nat, unit: Unit)
    requires Late(late, full) && a in late && b in late && a <= b
    ensures var heads := Heads(late, full);
            SumOver(heads, a, b, unit) + Weigh(unit, heads[b]) ==
            Weigh(unit, heads[a]) + SumOver(heads, a + 1, b + 1, unit)
  {
    var heads := Heads(late, full);
    SumSplits(heads, a, b, b + 1, unit);
    SumSplits(heads, a, a + 1, b + 1, unit);
    assert SumOver(heads, b, b, unit) == 0 == SumOver(heads, a, a, unit);
  }

  lemma RestoredWithin(late: map<nat, Span>, full: map<nat, Span>, whole: map<nat, Span>)
    requires Late(late, full) && Within(full, whole)
    ensures Within(Restored(late, full), whole)
  {
  }

  lemma RestoredTiled(late: map<nat, Span>, full: map<nat, Span>, low: nat, high: nat)
    requires Late(late, full) && Tiled(late, low, high)
    ensures Tiled(Restored(late, full), low, high)
  {
    hide Adjacent;
    var r := Restored(late, full);
    assert r.Keys == late.Keys;
    forall k | k in r && low <= k < high
      ensures r[k].lastShred < high && Adjacent(r, k, r[k].lastShred + 1)
    {
      assert Adjacent(late, k, late[k].lastShred + 1);
      StillAdjacent(late, r, k, late[k].lastShred + 1);
    }
  }

  lemma StillAdjacent(spans: map<nat, Span>, others: map<nat, Span>, k: nat, next: nat)
    requires spans.Keys == others.Keys && Adjacent(spans, k, next)
    ensures Adjacent(others, k, next)
  {
    assert forall j: nat :: j in spans <==> j in others;
  }

  /** A race over what came after a report still never says too much. Where it claims to be exact
      it falls short of the leader's own gap by exactly what it missed, so it is exact if and
      only if nothing told before lies between the two hits. */
  lemma LateGapsFallShort(late: map<nat, Span>, full: map<nat, Span>, whole: map<nat, Span>, a: Hit, b: Hit)
    requires Late(late, full) && Within(full, whole) && Partition(whole)
    requires Located(late, a) && Located(late, b) && Precedes(a, b)
    ensures Located(whole, Moved(late, full, a)) && Located(whole, Moved(late, full, b))
    ensures var gap := TransactionsBefore(late, b) - TransactionsBefore(late, a);
            var leaders := TransactionsBefore(whole, Moved(late, full, b))
                           - TransactionsBefore(whole, Moved(late, full, a));
            var missed := Missed(late, full, a, b, Transactions);
            0 < gap <= leaders - missed && (Tiled(late, a.firstShred, b.firstShred) ==> gap == leaders - missed)
    ensures var gap := EntriesBefore(late, b) - EntriesBefore(late, a);
            var leaders := EntriesBefore(whole, Moved(late, full, b)) - EntriesBefore(whole, Moved(late, full, a));
            var missed := Missed(late, full, a, b, Entries);
            0 <= gap <= leaders - missed && (Tiled(late, a.firstShred, b.firstShred) ==> gap == leaders - missed)
  {
    hide Late, Within, Partition, Tiled, TransactionsBefore, EntriesBefore, Missed, Restored, Located, Total, SumOver;
    var r := Restored(late, full);
    RestoredWithin(late, full, whole);
    RestoringAdds(late, full, a, b);
    GapsAreOrdered(late, a, b);
    MovedKeepsOrder(late, full, a, b);
    GapsAreHonest(r, whole, Moved(late, full, a), Moved(late, full, b));
    if Tiled(late, a.firstShred, b.firstShred) {
      RestoredTiled(late, full, a.firstShred, b.firstShred);
    }
  }

  lemma MovedKeepsOrder(late: map<nat, Span>, full: map<nat, Span>, a: Hit, b: Hit)
    requires Late(late, full) && Located(late, a) && Located(late, b) && Precedes(a, b)
    ensures a.firstShred in late && b.firstShred in late && a.firstShred <= b.firstShred
    ensures Precedes(Moved(late, full, a), Moved(late, full, b))
  {
  }

  /** It does fall short: a batch of two transactions, and one behind it of four, whose first
      entry, two of them, was told before the report. From the first of all to the last it is
      five on, and three is claimed, and claimed as exact. */
  lemma ALateLineFallsShort(late: map<nat, Span>, full: map<nat, Span>, a: Hit, b: Hit)
    requires late.Keys == full.Keys == {0, 2} && late[0] == full[0] == Span(1, [2])
    requires late[2] == Span(3, [2]) && full[2] == Span(3, [2, 2])
    requires a == Hit(Target, 0, 0, 0, a.signature) && b == Hit(Searcher, 2, 0, 1, b.signature)
    ensures Late(late, full) && Within(full, full) && Partition(full)
    ensures Located(late, a) && Located(late, b) && Tiled(late, 0, 2)
    ensures TransactionsBefore(late, b) - TransactionsBefore(late, a) == 3
    ensures Located(full, Moved(late, full, a)) && Located(full, Moved(late, full, b))
    ensures TransactionsBefore(full, Moved(late, full, b)) - TransactionsBefore(full, Moved(late, full, a)) == 5
  {
    hide Total, SumOver, Tiled, TransactionsBefore, Moved, Late, Within, Partition;
    LateExample(late, full, a, b);
    NextIsTiled(late);
    BehindOne(late, b);
    BehindNone(late, a);
    BehindNone(full, a);
    BehindOne(full, b.(entry := 1));
    assert full[2].entries[..1] == [2] && late[2].entries[..0] == [];
    TotalOfOne(2);
    TotalOfNone();
  }

  lemma LateExample(late: map<nat, Span>, full: map<nat, Span>, a: Hit, b: Hit)
    requires late.Keys == full.Keys == {0, 2} && late[0] == full[0] == Span(1, [2])
    requires late[2] == Span(3, [2]) && full[2] == Span(3, [2, 2])
    requires a == Hit(Target, 0, 0, 0, a.signature) && b == Hit(Searcher, 2, 0, 1, b.signature)
    ensures Late(late, full) && Within(full, full) && Partition(full)
    ensures Moved(late, full, a) == a && Moved(late, full, b) == b.(entry := 1)
  {
    hide Within, Partition;
    var all := full[2].entries;
    assert late[2].entries == all[1..];
    WithinItself(full);
    TwoPartition(full);
  }

  lemma WithinItself(spans: map<nat, Span>)
    ensures Within(spans, spans)
  {
  }

  lemma TwoPartition(spans: map<nat, Span>)
    requires spans.Keys == {0, 2} && spans[0].lastShred == 1 && spans[2].lastShred == 3
    ensures Partition(spans)
  {
  }

  lemma NextIsTiled(spans: map<nat, Span>)
    requires spans.Keys == {0, 2} && spans[0].lastShred == 1
    ensures Tiled(spans, 0, 2)
  {
    assert Adjacent(spans, 0, 2);
  }

  lemma TotalOfOne(n: nat)
    ensures Total([n]) == n
  {
    assert [n][..0] == [];
  }

  lemma TotalOfNone()
    ensures Total([]) == 0
  {
  }

  lemma BehindOne(spans: map<nat, Span>, hit: Hit)
    requires Located(spans, hit) && hit.firstShred == 2 && spans.Keys == {0, 2}
    ensures TransactionsBefore(spans, hit) ==
            Total(spans[0].entries) + Total(spans[2].entries[..hit.entry]) + hit.transaction
  {
    hide Total;
    assert SumOver(spans, 0, 0, Transactions) == 0;
    assert SumOver(spans, 0, 1, Transactions) == SumOver(spans, 0, 0, Transactions) + Weigh(Transactions, spans[0]);
    assert SumOver(spans, 0, 2, Transactions) == SumOver(spans, 0, 1, Transactions);
  }

  lemma BehindNone(spans: map<nat, Span>, hit: Hit)
    requires Located(spans, hit) && hit.firstShred == 0 && hit.entry == 0 && hit.transaction == 0
    ensures TransactionsBefore(spans, hit) == 0
  {
    assert spans[0].entries[..0] == [];
  }

  // ---------------------------------------------------------------- hits

  /** A transaction belongs to whoever pays for it, and to the searcher first. */
  function RoleOf(wallets: Wallets, t: Transaction): Option<Role> {
    match t.payer
    case None => None
    case Some(payer) =>
      if payer in wallets.searchers then Some(Searcher)
      else if payer in wallets.targets then Some(Target)
      else None
  }

  function HitAt(wallets: Wallets, first: nat, entry: nat, k: nat, t: Transaction): seq<Hit> {
    match RoleOf(wallets, t)
    case None => []
    case Some(role) => [Hit(role, first, entry, k, t.signature)]
  }

  function HitsInEntry(wallets: Wallets, first: nat, entry: nat, transactions: seq<Transaction>): seq<Hit> {
    if transactions == [] then [] else
      var k := |transactions| - 1;
      HitsInEntry(wallets, first, entry, transactions[..k]) + HitAt(wallets, first, entry, k, transactions[k])
  }

  /** Every transaction of a watched wallet, in order, with its place in the batch. */
  function HitsIn(wallets: Wallets, first: nat, entries: seq<Entry>): seq<Hit> {
    if entries == [] then [] else
      var k := |entries| - 1;
      HitsIn(wallets, first, entries[..k]) + HitsInEntry(wallets, first, k, entries[k].transactions)
  }

  /** The same hits with their entries counted from `base`. */
  function Shifted(hits: seq<Hit>, base: nat): (r: seq<Hit>)
    ensures |r| == |hits|
    ensures forall k :: 0 <= k < |hits| ==> r[k] == hits[k].(entry := base + hits[k].entry)
  {
    seq(|hits|, k requires 0 <= k < |hits| => hits[k].(entry := base + hits[k].entry))
  }

  lemma ShiftedSum(a: seq<Hit>, b: seq<Hit>, base: nat)
    ensures Shifted(a + b, base) == Shifted(a, base) + Shifted(b, base)
  {
  }

  lemma {:induction false} ShiftedInEntry(wallets: Wallets, first: nat, entry: nat, transactions: seq<Transaction>,
                                          base: nat)
    ensures Shifted(HitsInEntry(wallets, first, entry, transactions), base) ==
            HitsInEntry(wallets, first, base + entry, transactions)
    decreases |transactions|
  {
    if transactions != [] {
      var k := |transactions| - 1;
      ShiftedInEntry(wallets, first, entry, transactions[..k], base);
      ShiftedSum(HitsInEntry(wallets, first, entry, transactions[..k]),
                 HitAt(wallets, first, entry, k, transactions[k]), base);
    }
  }

  lemma HitsGrow(wallets: Wallets, first: nat, entries: seq<Entry>, more: Entry)
    ensures HitsIn(wallets, first, entries + [more]) ==
            HitsIn(wallets, first, entries) + HitsInEntry(wallets, first, |entries|, more.transactions)
  {
    hide HitsInEntry;
    assert (entries + [more])[..|entries|] == entries;
  }

  /** Hits counted piece by piece from where each piece begins are the hits of the batch. */
  lemma {:induction false} HitsOfPieces(wallets: Wallets, first: nat, a: seq<Entry>, b: seq<Entry>)
    ensures HitsIn(wallets, first, a + b) == HitsIn(wallets, first, a) + Shifted(HitsIn(wallets, first, b), |a|)
    decreases |b|
  {
    hide HitsInEntry, HitsIn;
    if b == [] {
      assert a + b == a;
      HitsInNothing(wallets, first);
      assert HitsIn(wallets, first, a) + [] == HitsIn(wallets, first, a);
    } else {
      var k := |b| - 1;
      var before, more := HitsIn(wallets, first, b[..k]), HitsInEntry(wallets, first, k, b[k].transactions);
      HitsOfPieces(wallets, first, a, b[..k]);
      assert b == b[..k] + [b[k]] && a + b == (a + b[..k]) + [b[k]];
      HitsGrow(wallets, first, b[..k], b[k]);
      HitsGrow(wallets, first, a + b[..k], b[k]);
      ShiftedSum(before, more, |a|);
      ShiftedInEntry(wallets, first, k, b[k].transactions, |a|);
      assert HitsIn(wallets, first, a) + (Shifted(before, |a|) + Shifted(more, |a|))
          == (HitsIn(wallets, first, a) + Shifted(before, |a|)) + Shifted(more, |a|);
    }
  }

  lemma HitsInNoTransactions(wallets: Wallets, first: nat, entry: nat, none: seq<Transaction>)
    requires none == []
    ensures HitsInEntry(wallets, first, entry, none) == []
  {
  }

  lemma EntryHitsGrow(wallets: Wallets, first: nat, entry: nat, transactions: seq<Transaction>, k: nat)
    requires k < |transactions|
    ensures HitsInEntry(wallets, first, entry, transactions[..k + 1]) ==
            HitsInEntry(wallets, first, entry, transactions[..k]) + HitAt(wallets, first, entry, k, transactions[k])
  {
    assert transactions[..k + 1][..k] == transactions[..k];
  }

  lemma BatchHitsGrow(wallets: Wallets, first: nat, entries: seq<Entry>, k: nat)
    requires k < |entries|
    ensures HitsIn(wallets, first, entries[..k + 1]) ==
            HitsIn(wallets, first, entries[..k]) + HitsInEntry(wallets, first, k, entries[k].transactions)
  {
    hide HitsInEntry;
    assert entries[..k + 1][..k] == entries[..k];
  }

  lemma Regrouped<T>(a: seq<T>, b: seq<T>, c: seq<T>)
    ensures (a + b) + c == a + (b + c)
  {
  }

  lemma HitsInNothing(wallets: Wallets, first: nat)
    ensures HitsIn(wallets, first, []) == []
  {
  }

  /** Those of `hits` that lie in the batch beginning at `s`, in order. */
  ghost function HitsAt(hits: seq<Hit>, s: nat): seq<Hit> {
    if hits == [] then [] else
      HitsAt(hits[..|hits| - 1], s) + if hits[|hits| - 1].firstShred == s then [hits[|hits| - 1]] else []
  }

  lemma {:induction false} HitsAtSum(a: seq<Hit>, b: seq<Hit>, s: nat)
    ensures HitsAt(a + b, s) == HitsAt(a, s) + HitsAt(b, s)
    decreases |b|
  {
    if b == [] {
      assert a + b == a;
    } else {
      assert (a + b)[..|a + b| - 1] == a + b[..|b| - 1];
      HitsAtSum(a, b[..|b| - 1], s);
    }
  }

  lemma {:induction false} HitsAtAll(hits: seq<Hit>, first: nat, s: nat)
    requires forall k :: 0 <= k < |hits| ==> hits[k].firstShred == first
    ensures HitsAt(hits, s) == if s == first then hits else []
    decreases |hits|
  {
    if hits != [] {
      HitsAtAll(hits[..|hits| - 1], first, s);
      assert hits == hits[..|hits| - 1] + [hits[|hits| - 1]];
    }
  }

  /** A hit is where `entries` says: the transaction there is a watched wallet's, and is it. */
  ghost predicate Faithful(wallets: Wallets, first: nat, entries: seq<Entry>, hit: Hit) {
    && hit.firstShred == first
    && hit.entry < |entries| && hit.transaction < |entries[hit.entry].transactions|
    && var t := entries[hit.entry].transactions[hit.transaction];
       && t.payer.Some? && hit.signature == t.signature
       && match hit.role
          case Searcher => t.payer.value in wallets.searchers
          case Target => t.payer.value in wallets.targets && t.payer.value !in wallets.searchers
  }

  lemma {:induction false} EntryHitsAreFaithful(wallets: Wallets, first: nat, entries: seq<Entry>, entry: nat,
                                                transactions: seq<Transaction>, hit: Hit)
    requires entry < |entries| && transactions <= entries[entry].transactions
    requires hit in HitsInEntry(wallets, first, entry, transactions)
    ensures Faithful(wallets, first, entries, hit)
    decreases |transactions|
  {
    var k := |transactions| - 1;
    if hit in HitsInEntry(wallets, first, entry, transactions[..k]) {
      EntryHitsAreFaithful(wallets, first, entries, entry, transactions[..k], hit);
    }
  }

  lemma {:induction false} HitsAreFaithful(wallets: Wallets, first: nat, entries: seq<Entry>, upTo: nat, hit: Hit)
    requires upTo <= |entries| && hit in HitsIn(wallets, first, entries[..upTo])
    ensures Faithful(wallets, first, entries, hit)
    decreases upTo
  {
    assert entries[..upTo][..upTo - 1] == entries[..upTo - 1];
    if hit in HitsIn(wallets, first, entries[..upTo - 1]) {
      HitsAreFaithful(wallets, first, entries, upTo - 1, hit);
    } else {
      EntryHitsAreFaithful(wallets, first, entries, upTo - 1, entries[upTo - 1].transactions, hit);
    }
  }

  /** No watched wallet's transaction is passed over. */
  lemma {:induction false} WatchedInEntryIsHit(wallets: Wallets, first: nat, entry: nat,
                                               transactions: seq<Transaction>, k: nat)
    requires k < |transactions| && transactions[k].payer.Some?
    requires transactions[k].payer.value in wallets.searchers + wallets.targets
    ensures exists hit :: hit in HitsInEntry(wallets, first, entry, transactions) && IsAt(hit, first, entry, k)
    decreases |transactions|
  {
    var n := |transactions| - 1;
    if k < n {
      WatchedInEntryIsHit(wallets, first, entry, transactions[..n], k);
      var hit :| hit in HitsInEntry(wallets, first, entry, transactions[..n]) && IsAt(hit, first, entry, k);
      assert hit in HitsInEntry(wallets, first, entry, transactions);
    } else {
      var found := HitAt(wallets, first, entry, k, transactions[k]);
      assert found[0] in HitsInEntry(wallets, first, entry, transactions) && IsAt(found[0], first, entry, k);
    }
  }

  ghost predicate IsAt(hit: Hit, first: nat, entry: nat, k: nat) {
    hit.firstShred == first && hit.entry == entry && hit.transaction == k
  }

  lemma {:induction false} WatchedIsHit(wallets: Wallets, first: nat, entries: seq<Entry>, entry: nat, k: nat)
    requires entry < |entries| && k < |entries[entry].transactions|
    requires var t := entries[entry].transactions[k];
             t.payer.Some? && t.payer.value in wallets.searchers + wallets.targets
    ensures exists hit :: hit in HitsIn(wallets, first, entries) && IsAt(hit, first, entry, k)
    decreases |entries|
  {
    hide HitsInEntry, IsAt;
    var n := |entries| - 1;
    if entry < n {
      WatchedIsHit(wallets, first, entries[..n], entry, k);
      var hit :| hit in HitsIn(wallets, first, entries[..n]) && IsAt(hit, first, entry, k);
      assert hit in HitsIn(wallets, first, entries);
    } else {
      WatchedInEntryIsHit(wallets, first, n, entries[n].transactions, k);
      var hit :| hit in HitsInEntry(wallets, first, n, entries[n].transactions) && IsAt(hit, first, n, k);
      assert hit in HitsIn(wallets, first, entries);
    }
  }

  ghost predicate InLeadersOrder(hits: seq<Hit>) {
    forall i, j :: 0 <= i < j < |hits| ==> Precedes(hits[i], hits[j])
  }

  lemma {:induction false} EntryHitsAscend(wallets: Wallets, first: nat, entry: nat, transactions: seq<Transaction>)
    ensures InLeadersOrder(HitsInEntry(wallets, first, entry, transactions))
    ensures forall hit :: hit in HitsInEntry(wallets, first, entry, transactions) ==>
              hit.firstShred == first && hit.entry == entry && hit.transaction < |transactions|
    decreases |transactions|
  {
    if transactions != [] { EntryHitsAscend(wallets, first, entry, transactions[..|transactions| - 1]); }
  }

  /** The hits of a batch are made in the leader's order, so none of them twice. */
  lemma {:induction false} HitsAscend(wallets: Wallets, first: nat, entries: seq<Entry>)
    ensures InLeadersOrder(HitsIn(wallets, first, entries))
    ensures forall hit :: hit in HitsIn(wallets, first, entries) ==> hit.firstShred == first && hit.entry < |entries|
    decreases |entries|
  {
    hide HitsInEntry;
    if entries != [] {
      var n := |entries| - 1;
      HitsAscend(wallets, first, entries[..n]);
      EntryHitsAscend(wallets, first, n, entries[n].transactions);
    }
  }

  // ---------------------------------------------------------------- what a slot's state tallies

  function CountsOf(entries: seq<Entry>): (r: seq<nat>)
    ensures |r| == |entries|
    ensures forall k :: 0 <= k < |entries| ==> r[k] == |entries[k].transactions|
  {
    seq(|entries|, k requires 0 <= k < |entries| => |entries[k].transactions|)
  }

  function Greatest(ends: seq<nat>): nat
    requires ends != []
  {
    var last := ends[|ends| - 1];
    if |ends| == 1 then last else Max(Greatest(ends[..|ends| - 1]), last)
  }

  /** The spans and hits of a slot are what the pieces handed over for it come to. */
  ghost predicate TalliedAt(wallets: Wallets, batches: map<nat, Span>, hits: seq<Hit>, log: seq<DecodedBatch>, s: nat) {
    && (s in batches <==> EndsOf(log, s) != [])
    && (s in batches ==> batches[s] == Span(Greatest(EndsOf(log, s)), CountsOf(EntriesOf(log, s))))
    && HitsAt(hits, s) == HitsIn(wallets, s, EntriesOf(log, s))
  }

  ghost predicate Tallies(wallets: Wallets, batches: map<nat, Span>, hits: seq<Hit>, log: seq<DecodedBatch>) {
    forall s: nat :: TalliedAt(wallets, batches, hits, log, s)
  }

  lemma {:induction false} NoEndsNoEntries(log: seq<DecodedBatch>, s: nat)
    requires EndsOf(log, s) == []
    ensures EntriesOf(log, s) == []
    decreases |log|
  {
    if log != [] { NoEndsNoEntries(log[..|log| - 1], s); }
  }

  lemma NothingTallied(wallets: Wallets)
    ensures Tallies(wallets, map[], [], [])
  {
    forall s: nat
      ensures TalliedAt(wallets, map[], [], [], s)
    {
    }
  }

  lemma {:induction false} HitsAreOfTheirBatch(wallets: Wallets, first: nat, entries: seq<Entry>)
    ensures forall hit :: hit in HitsIn(wallets, first, entries) ==> hit.firstShred == first
  {
    forall hit | hit in HitsIn(wallets, first, entries)
      ensures hit.firstShred == first
    {
      assert entries[..|entries|] == entries;
      HitsAreFaithful(wallets, first, entries, |entries|, hit);
    }
  }

  lemma TallyingElsewhere(wallets: Wallets, batches: map<nat, Span>, hits: seq<Hit>, log: seq<DecodedBatch>,
                          piece: DecodedBatch, span: Span, more: seq<Hit>, s: nat)
    requires TalliedAt(wallets, batches, hits, log, s) && s != piece.firstShred
    requires forall k :: 0 <= k < |more| ==> more[k].firstShred == piece.firstShred
    ensures TalliedAt(wallets, batches[piece.firstShred := span], hits + more, log + [piece], s)
  {
    hide EntriesOf, EndsOf, HitsAt, HitsIn;
    PiecesGrow(log, piece, s);
    assert EntriesOf(log, s) + [] == EntriesOf(log, s) && EndsOf(log, s) + [] == EndsOf(log, s);
    HitsAtSum(hits, more, s);
    HitsAtAll(more, piece.firstShred, s);
    assert HitsAt(hits, s) + [] == HitsAt(hits, s);
  }

  lemma TallyingHere(wallets: Wallets, batches: map<nat, Span>, hits: seq<Hit>, log: seq<DecodedBatch>,
                     piece: DecodedBatch, span: Span, more: seq<Hit>)
    requires TalliedAt(wallets, batches, hits, log, piece.firstShred)
    requires var s := piece.firstShred;
             var was := if s in batches then batches[s] else Span(piece.lastShred, []);
             && span == Span(Max(was.lastShred, piece.lastShred), was.entries + CountsOf(piece.entries))
             && more == Shifted(HitsIn(wallets, s, piece.entries), |was.entries|)
    ensures TalliedAt(wallets, batches[piece.firstShred := span], hits + more, log + [piece], piece.firstShred)
  {
    hide EntriesOf, EndsOf, HitsAt, HitsIn;
    var s := piece.firstShred;
    if s !in batches { NoEndsNoEntries(log, s); }
    PiecesGrow(log, piece, s);
    HitsAtSum(hits, more, s);
    HitsAreOfTheirBatch(wallets, s, piece.entries);
    HitsAtAll(more, s, s);
    HitsOfPieces(wallets, s, EntriesOf(log, s), piece.entries);
    var ends := EndsOf(log, s);
    assert (ends + [piece.lastShred])[..|ends|] == ends;
  }

  lemma TallyingOne(wallets: Wallets, batches: map<nat, Span>, hits: seq<Hit>, log: seq<DecodedBatch>,
                    piece: DecodedBatch, span: Span, more: seq<Hit>)
    requires Tallies(wallets, batches, hits, log)
    requires var s := piece.firstShred;
             var was := if s in batches then batches[s] else Span(piece.lastShred, []);
             && span == Span(Max(was.lastShred, piece.lastShred), was.entries + CountsOf(piece.entries))
             && more == Shifted(HitsIn(wallets, s, piece.entries), |was.entries|)
    ensures Tallies(wallets, batches[piece.firstShred := span], hits + more, log + [piece])
  {
    hide TalliedAt, HitsIn;
    TallyingHere(wallets, batches, hits, log, piece, span, more);
    HitsAreOfTheirBatch(wallets, piece.firstShred, piece.entries);
    var after, found, logged := batches[piece.firstShred := span], hits + more, log + [piece];
    forall s: nat
      ensures TalliedAt(wallets, after, found, logged, s)
    {
      if s != piece.firstShred {
        assert TalliedAt(wallets, batches, hits, log, s);
        TallyingElsewhere(wallets, batches, hits, log, piece, span, more, s);
      }
    }
  }

  lemma {:induction false} HitIsInItsBatch(hits: seq<Hit>, hit: Hit)
    requires hit in hits
    ensures hit in HitsAt(hits, hit.firstShred)
    decreases |hits|
  {
    if hit in hits[..|hits| - 1] { HitIsInItsBatch(hits[..|hits| - 1], hit); }
  }

  /** Every hit recorded is a watched wallet's transaction, at the place it holds in what has
      been decoded of its batch. */
  lemma HitsAreWhereTheySay(wallets: Wallets, batches: map<nat, Span>, hits: seq<Hit>, log: seq<DecodedBatch>, hit: Hit)
    requires Tallies(wallets, batches, hits, log) && hit in hits
    ensures Located(batches, hit) && Faithful(wallets, hit.firstShred, EntriesOf(log, hit.firstShred), hit)
  {
    var s := hit.firstShred;
    var entries := EntriesOf(log, s);
    assert TalliedAt(wallets, batches, hits, log, s);
    HitIsInItsBatch(hits, hit);
    assert entries[..|entries|] == entries;
    HitsAreFaithful(wallets, s, entries, |entries|, hit);
    if s !in batches { NoEndsNoEntries(log, s); }
  }

  // ---------------------------------------------------------------- the report

  datatype Line = Line(target: Option<Signature>, searcher: Option<Signature>, txGap: int, entryGap: int,
                       sameEntry: bool, exact: bool, spans: nat)

  datatype Report =
    | Quiet
    | TargetsOnly(targets: seq<Option<Signature>>)
    | SearchersOnly(searchers: seq<Option<Signature>>)
    | TooMany(searcherCount: nat, targetCount: nat)
    | Raced(lines: seq<Line>)

  function SideOf(hits: seq<Hit>, role: Role): (r: seq<Hit>)
    ensures forall h :: h in r <==> h in hits && h.role == role
  {
    if hits == [] then [] else
      SideOf(hits[..|hits| - 1], role) + if hits[|hits| - 1].role == role then [hits[|hits| - 1]] else []
  }

  function SignaturesOf(hits: seq<Hit>): (r: seq<Option<Signature>>)
    ensures |r| == |hits| && forall k :: 0 <= k < |hits| ==> r[k] == hits[k].signature
  {
    seq(|hits|, k requires 0 <= k < |hits| => hits[k].signature)
  }

  function KeysIn(batches: map<nat, Span>, low: nat, high: nat): set<nat> {
    set k | k in batches && low <= k <= high
  }

  /** How the searcher's transaction lies to the target's; negative is in front of it. */
  ghost function LineOf(batches: map<nat, Span>, target: Hit, searcher: Hit): Line
    requires Located(batches, target) && Located(batches, searcher)
  {
    var low, high := Min(searcher.firstShred, target.firstShred), Max(searcher.firstShred, target.firstShred);
    Line(target.signature, searcher.signature,
         TransactionsBefore(batches, searcher) - TransactionsBefore(batches, target),
         EntriesBefore(batches, searcher) - EntriesBefore(batches, target),
         searcher.firstShred == target.firstShred && searcher.entry == target.entry,
         Tiled(batches, low, high),
         |KeysIn(batches, low, high)|)
  }

  ghost predicate AllLocated(batches: map<nat, Span>, hits: seq<Hit>) {
    forall hit :: hit in hits ==> Located(batches, hit)
  }

  ghost function LinesFor(batches: map<nat, Span>, target: Hit, searchers: seq<Hit>): (r: seq<Line>)
    requires Located(batches, target) && AllLocated(batches, searchers)
    ensures |r| == |searchers|
    ensures forall k :: 0 <= k < |searchers| ==> r[k] == LineOf(batches, target, searchers[k])
  {
    seq(|searchers|, k requires 0 <= k < |searchers| => LineOf(batches, target, searchers[k]))
  }

  /** A line for every pair. */
  ghost function LinesOf(batches: map<nat, Span>, targets: seq<Hit>, searchers: seq<Hit>): seq<Line>
    requires AllLocated(batches, targets) && AllLocated(batches, searchers)
  {
    if targets == [] then [] else
      LinesOf(batches, targets[..|targets| - 1], searchers) + LinesFor(batches, targets[|targets| - 1], searchers)
  }

  ghost function ReportOf(batches: map<nat, Span>, hits: seq<Hit>): Report
    requires AllLocated(batches, hits)
  {
    var searchers, targets := SideOf(hits, Searcher), SideOf(hits, Target);
    if searchers == [] && targets == [] then Quiet
    else if searchers == [] then TargetsOnly(SignaturesOf(targets))
    else if targets == [] then SearchersOnly(SignaturesOf(searchers))
    else if |searchers| * |targets| > MAX_PAIRS then TooMany(|searchers|, |targets|)
    else Raced(LinesOf(batches, targets, searchers))
  }

  lemma {:induction false} LinesArePairs(batches: map<nat, Span>, targets: seq<Hit>, searchers: seq<Hit>, line: Line)
    requires AllLocated(batches, targets) && AllLocated(batches, searchers)
    requires line in LinesOf(batches, targets, searchers)
    ensures exists target, searcher ::
              target in targets && searcher in searchers && line == LineOf(batches, target, searcher)
    decreases |targets|
  {
    hide LineOf;
    var n := |targets| - 1;
    if line in LinesOf(batches, targets[..n], searchers) {
      LinesArePairs(batches, targets[..n], searchers, line);
    } else {
      var k :| 0 <= k < |searchers| && line == LinesFor(batches, targets[n], searchers)[k];
      assert targets[n] in targets && searchers[k] in searchers;
    }
  }

  // ---------------------------------------------------------------- what a report tells

  /** How many of the hits are of this side. */
  ghost function NumberOf(hits: seq<Hit>, role: Role): nat {
    if hits == [] then 0 else
      NumberOf(hits[..|hits| - 1], role) + if hits[|hits| - 1].role == role then 1 else 0
  }

  lemma {:induction false} NumbersSum(hits: seq<Hit>)
    ensures NumberOf(hits, Target) + NumberOf(hits, Searcher) == |hits|
    decreases |hits|
  {
    if hits != [] { NumbersSum(hits[..|hits| - 1]); }
  }

  lemma {:induction false} NumberGrows(hits: seq<Hit>, role: Role, k: nat)
    requires k < |hits| && hits[k].role == role
    ensures NumberOf(hits[..k], role) < NumberOf(hits, role)
    decreases |hits|
  {
    var n := |hits| - 1;
    if k < n {
      NumberGrows(hits[..n], role, k);
      assert hits[..n][..k] == hits[..k];
    }
  }

  /** A side is all its hits in the order they were made: each stands behind just as many as were
      made before it. */
  lemma {:induction false} SideHas(hits: seq<Hit>, role: Role, k: nat)
    requires k < |hits| && hits[k].role == role
    ensures |SideOf(hits, role)| == NumberOf(hits, role)
    ensures NumberOf(hits[..k], role) < |SideOf(hits, role)|
    ensures SideOf(hits, role)[NumberOf(hits[..k], role)] == hits[k]
    decreases |hits|
  {
    hide SideOf, NumberOf;
    var n := |hits| - 1;
    SideSize(hits, role);
    SideSize(hits[..n], role);
    NumberGrows(hits, role, k);
    SideGrows(hits, role);
    if k < n {
      SideHas(hits[..n], role, k);
      assert hits[..n][..k] == hits[..k];
    }
  }

  lemma SideGrows(hits: seq<Hit>, role: Role)
    requires hits != []
    ensures var n := |hits| - 1;
            SideOf(hits, role) == SideOf(hits[..n], role) + if hits[n].role == role then [hits[n]] else []
  {
  }

  lemma {:induction false} SideSize(hits: seq<Hit>, role: Role)
    ensures |SideOf(hits, role)| == NumberOf(hits, role)
    decreases |hits|
  {
    if hits != [] { SideSize(hits[..|hits| - 1], role); }
  }

  /** The lines stand target by target, each against every searcher in turn. */
  lemma {:induction false} LinesLie(batches: map<nat, Span>, targets: seq<Hit>, searchers: seq<Hit>, i: nat, j: nat)
    requires AllLocated(batches, targets) && AllLocated(batches, searchers)
    requires i < |targets| && j < |searchers|
    ensures var lines := LinesOf(batches, targets, searchers); var at := i * |searchers| + j;
            at < |lines| && targets[i] in targets && searchers[j] in searchers
            && lines[at] == LineOf(batches, targets[i], searchers[j])
    decreases |targets|
  {
    hide LineOf, Located;
    var n := |targets| - 1;
    LinesNumber(batches, targets[..n], searchers);
    if i < n { LinesLie(batches, targets[..n], searchers, i, j); }
  }

  lemma {:induction false} LinesNumber(batches: map<nat, Span>, targets: seq<Hit>, searchers: seq<Hit>)
    requires AllLocated(batches, targets) && AllLocated(batches, searchers)
    ensures |LinesOf(batches, targets, searchers)| == |targets| * |searchers|
    decreases |targets|
  {
    hide LineOf, Located;
    if targets != [] { LinesNumber(batches, targets[..|targets| - 1], searchers); }
  }

  /** Nothing to say just if there was no hit; no lines just if there are too many pairs; and else
      every hit's signature on its own side, in order and as often as it was hit, against every
      hit of the other side if there is one. */
  ghost predicate Tells(batches: map<nat, Span>, hits: seq<Hit>, report: Report) {
    var targets, searchers := NumberOf(hits, Target), NumberOf(hits, Searcher);
    && (report.Quiet? <==> hits == [])
    && (report.TooMany? <==> targets * searchers > MAX_PAIRS)
    && (report.TooMany? ==> report.targetCount == targets && report.searcherCount == searchers)
    && (report.TargetsOnly? <==> targets > 0 && searchers == 0)
    && (report.TargetsOnly? ==> Signed(hits, Target, report.targets))
    && (report.SearchersOnly? <==> searchers > 0 && targets == 0)
    && (report.SearchersOnly? ==> Signed(hits, Searcher, report.searchers))
    && (report.Raced? ==> AllPaired(batches, hits, report.lines))
  }

  ghost predicate Signed(hits: seq<Hit>, role: Role, signatures: seq<Option<Signature>>) {
    && |signatures| == NumberOf(hits, role)
    && forall k :: 0 <= k < |hits| && hits[k].role == role ==>
         var at := NumberOf(hits[..k], role); at < |signatures| && signatures[at] == hits[k].signature
  }

  ghost predicate AllPaired(batches: map<nat, Span>, hits: seq<Hit>, lines: seq<Line>) {
    && |lines| == NumberOf(hits, Target) * NumberOf(hits, Searcher)
    && forall k, m ::
         0 <= k < |hits| && 0 <= m < |hits| && hits[k].role == Target && hits[m].role == Searcher ==>
           Paired(batches, hits, lines, k, m)
  }

  ghost predicate Paired(batches: map<nat, Span>, hits: seq<Hit>, lines: seq<Line>, k: nat, m: nat)
    requires k < |hits| && m < |hits|
  {
    var at := NumberOf(hits[..k], Target) * NumberOf(hits, Searcher) + NumberOf(hits[..m], Searcher);
    && at < |lines| && Located(batches, hits[k]) && Located(batches, hits[m])
    && lines[at] == LineOf(batches, hits[k], hits[m])
  }

  lemma SideIsSigned(hits: seq<Hit>, role: Role)
    ensures Signed(hits, role, SignaturesOf(SideOf(hits, role)))
  {
    SideSize(hits, role);
    forall k | 0 <= k < |hits| && hits[k].role == role
      ensures NumberOf(hits[..k], role) < |SideOf(hits, role)|
      ensures SideOf(hits, role)[NumberOf(hits[..k], role)] == hits[k]
    {
      SideHas(hits, role, k);
    }
  }

  lemma LinesArePaired(batches: map<nat, Span>, hits: seq<Hit>)
    requires AllLocated(batches, hits)
    ensures AllPaired(batches, hits, LinesOf(batches, SideOf(hits, Target), SideOf(hits, Searcher)))
  {
    hide LineOf, Located, LinesOf, SideOf, NumberOf;
    var targets, searchers := SideOf(hits, Target), SideOf(hits, Searcher);
    SideSize(hits, Target);
    SideSize(hits, Searcher);
    LinesNumber(batches, targets, searchers);
    forall k, m | 0 <= k < |hits| && 0 <= m < |hits| && hits[k].role == Target && hits[m].role == Searcher
      ensures Paired(batches, hits, LinesOf(batches, targets, searchers), k, m)
    {
      SideHas(hits, Target, k);
      SideHas(hits, Searcher, m);
      LinesLie(batches, targets, searchers, NumberOf(hits[..k], Target), NumberOf(hits[..m], Searcher));
    }
  }

  lemma ReportTells(batches: map<nat, Span>, hits: seq<Hit>)
    requires AllLocated(batches, hits)
    ensures Tells(batches, hits, ReportOf(batches, hits))
  {
    hide LineOf, Located, LinesOf, SideOf, NumberOf, SignaturesOf, Signed, AllPaired;
    NumbersSum(hits);
    SideSize(hits, Target);
    SideSize(hits, Searcher);
    SideIsSigned(hits, Target);
    SideIsSigned(hits, Searcher);
    LinesArePaired(batches, hits);
  }

  /** One reported line, against the order the leader wrote. */
  ghost predicate HonestLine(line: Line, whole: map<nat, Span>, target: Hit, searcher: Hit)
    requires Located(whole, target) && Located(whole, searcher)
  {
    var txs := TransactionsBefore(whole, searcher) - TransactionsBefore(whole, target);
    var entries := EntriesBefore(whole, searcher) - EntriesBefore(whole, target);
    && (Precedes(target, searcher) ==> 0 < line.txGap <= txs && 0 <= line.entryGap <= entries)
    && (Precedes(searcher, target) ==> txs <= line.txGap < 0 && entries <= line.entryGap <= 0)
    && (line.exact ==> line.txGap == txs && line.entryGap == entries)
    && (line.sameEntry <==> entries == 0)
    && var low, high := Min(searcher.firstShred, target.firstShred), Max(searcher.firstShred, target.firstShred);
       line.spans <= |KeysIn(whole, low, high)| && (line.exact ==> line.spans == |KeysIn(whole, low, high)|)
  }

  lemma LinesAreHonest(batches: map<nat, Span>, whole: map<nat, Span>, target: Hit, searcher: Hit)
    requires Within(batches, whole) && Partition(whole)
    requires Located(batches, target) && Located(batches, searcher)
    ensures Located(whole, target) && Located(whole, searcher)
    ensures HonestLine(LineOf(batches, target, searcher), whole, target, searcher)
  {
    hide Within, Partition, Tiled, TransactionsBefore, EntriesBefore, KeysIn, Located;
    LocatedWithin(batches, whole, target);
    LocatedWithin(batches, whole, searcher);
    SameEntryHasNoGap(whole, target, searcher);
    var low, high := Min(searcher.firstShred, target.firstShred), Max(searcher.firstShred, target.firstShred);
    LocatedAreKeys(batches, target, searcher);
    BatchesBetween(batches, whole, low, high);
    if Precedes(target, searcher) {
      GapsAreHonest(batches, whole, target, searcher);
    } else if Precedes(searcher, target) {
      GapsAreHonest(batches, whole, searcher, target);
    } else {
      SamePlace(batches, target, searcher);
      SamePlace(whole, target, searcher);
    }
  }

  lemma LocatedAreKeys(batches: map<nat, Span>, target: Hit, searcher: Hit)
    requires Located(batches, target) && Located(batches, searcher)
    ensures target.firstShred in batches && searcher.firstShred in batches
  {
  }

  /** Two transactions of the slot are no entries apart just if they are in one entry. */
  lemma SameEntryHasNoGap(spans: map<nat, Span>, a: Hit, b: Hit)
    requires Located(spans, a) && Located(spans, b)
    ensures EntriesBefore(spans, a) == EntriesBefore(spans, b) <==> a.firstShred == b.firstShred && a.entry == b.entry
  {
    hide SumOver, Located;
    if a.firstShred < b.firstShred {
      EntriesReach(spans, a, b);
    } else if b.firstShred < a.firstShred {
      EntriesReach(spans, b, a);
    }
  }

  lemma EntriesReach(spans: map<nat, Span>, a: Hit, b: Hit)
    requires Located(spans, a) && Located(spans, b) && a.firstShred < b.firstShred
    ensures EntriesBefore(spans, a) < EntriesBefore(spans, b)
  {
    SumSplits(spans, 0, a.firstShred + 1, b.firstShred, Entries);
  }

  /** Of the leader's batches in a range no more are known than there are, and all if it is tiled. */
  lemma BatchesBetween(spans: map<nat, Span>, whole: map<nat, Span>, low: nat, high: nat)
    requires Within(spans, whole) && Partition(whole) && low <= high && low in spans && high in spans
    ensures |KeysIn(spans, low, high)| <= |KeysIn(whole, low, high)|
    ensures Tiled(spans, low, high) ==> KeysIn(spans, low, high) == KeysIn(whole, low, high)
  {
    hide Within, Partition, Tiled;
    WithinKeys(spans, whole);
    SubsetSize(KeysIn(spans, low, high), KeysIn(whole, low, high));
    if Tiled(spans, low, high) {
      forall k | k in KeysIn(whole, low, high)
        ensures k in KeysIn(spans, low, high)
      {
        if k < high { TiledRangeIsWhole(spans, whole, low, high, k); }
      }
    }
  }

  lemma SamePlace(spans: map<nat, Span>, a: Hit, b: Hit)
    requires Located(spans, a) && Located(spans, b) && !Precedes(a, b) && !Precedes(b, a)
    ensures TransactionsBefore(spans, a) == TransactionsBefore(spans, b)
    ensures EntriesBefore(spans, a) == EntriesBefore(spans, b)
  {
  }

  // ---------------------------------------------------------------- walking the spans

  lemma NextKey(keys: seq<nat>, i: nat, k: nat)
    requires Ascending(keys) && 0 < i < |keys| && keys[i - 1] < k && k in keys
    ensures keys[i] <= k
  {
    var j :| 0 <= j < |keys| && keys[j] == k;
  }

  /** Where the walk over `keys` of a range has come to: everything before `i` follows on. */
  ghost predicate TiledSoFar(spans: map<nat, Span>, keys: seq<nat>, low: nat, i: nat, expected: nat) {
    && i <= |keys|
    && (forall k :: k in keys ==> k in spans)
    && expected == (if i == 0 then low else spans[keys[i - 1]].lastShred + 1)
    && (0 < i ==> keys[0] == low)
    && forall j :: 1 <= j < i ==> keys[j] == spans[keys[j - 1]].lastShred + 1
  }

  lemma TilingStarts(spans: map<nat, Span>, keys: seq<nat>, low: nat)
    requires forall k :: k in keys ==> k in spans
    ensures TiledSoFar(spans, keys, low, 0, low)
  {
  }

  lemma TilingGoesOn(spans: map<nat, Span>, keys: seq<nat>, low: nat, i: nat, expected: nat)
    requires i < |keys| && TiledSoFar(spans, keys, low, i, expected) && keys[i] == expected
    ensures expected in spans && TiledSoFar(spans, keys, low, i + 1, spans[expected].lastShred + 1)
  {
    assert keys[i] in keys;
  }

  lemma TiledFrom(spans: map<nat, Span>, keys: seq<nat>, low: nat, high: nat)
    requires Ascending(keys) && forall k :: k in keys <==> k in KeysIn(spans, low, high)
    requires low <= high && keys != [] && low in spans
    ensures keys[0] == low
  {
    assert low in keys && keys[0] in keys;
    var at :| 0 <= at < |keys| && keys[at] == low;
  }

  lemma TiledOn(spans: map<nat, Span>, keys: seq<nat>, low: nat, high: nat, i: nat)
    requires Ascending(keys) && forall k :: k in keys <==> k in KeysIn(spans, low, high)
    requires 0 < i < |keys| && Tiled(spans, low, high)
    ensures keys[i - 1] in spans && keys[i] == spans[keys[i - 1]].lastShred + 1
  {
    hide Ascending;
    var k := keys[i - 1];
    assert k in keys && keys[i] in keys;
    TwoRise(keys, i);
    var next := spans[k].lastShred + 1;
    assert Adjacent(spans, k, next) && next in keys;
    NextKey(keys, i, next);
  }

  lemma TwoRise(keys: seq<nat>, i: nat)
    requires Ascending(keys) && 0 < i < |keys|
    ensures keys[i - 1] < keys[i]
  {
  }

  lemma FollowedAt(spans: map<nat, Span>, keys: seq<nat>, low: nat, high: nat, expected: nat, j: nat)
    requires Ascending(keys) && forall k :: k in keys <==> k in KeysIn(spans, low, high)
    requires TiledSoFar(spans, keys, low, |keys|, expected) && j + 1 < |keys|
    ensures keys[j] in spans && keys[j + 1] in keys
    ensures keys[j + 1] == spans[keys[j]].lastShred + 1 && Adjacent(spans, keys[j], keys[j + 1])
  {
    assert keys[j] in keys && keys[j + 1] in keys;
    forall m | keys[j] < m < keys[j + 1] && m in spans
      ensures false
    {
      assert m in keys;
      NextKey(keys, j + 1, m);
    }
  }

  lemma TiledToTheEnd(spans: map<nat, Span>, keys: seq<nat>, low: nat, high: nat, expected: nat)
    requires Ascending(keys) && forall k :: k in keys <==> k in KeysIn(spans, low, high)
    requires low <= high && TiledSoFar(spans, keys, low, |keys|, expected)
    ensures Tiled(spans, low, high) <==> high in spans
  {
    if high in spans {
      assert high in keys && keys[0] in keys;
      forall k | k in spans && low <= k < high
        ensures spans[k].lastShred < high && Adjacent(spans, k, spans[k].lastShred + 1)
      {
        assert k in keys;
        var j :| 0 <= j < |keys| && keys[j] == k;
        NotTheLast(keys, j, high);
        FollowedAt(spans, keys, low, high, expected, j);
      }
    }
  }

  lemma NotTheLast(keys: seq<nat>, j: nat, high: nat)
    requires Ascending(keys) && j < |keys| && keys[j] < high && high in keys
    ensures j + 1 < |keys| && keys[j + 1] <= high
  {
    var end :| 0 <= end < |keys| && keys[end] == high;
  }

  /** Nothing begins between one key and the next, so the sum steps from key to key. */
  lemma SumReaches(spans: map<nat, Span>, keys: seq<nat>, i: nat, b: nat, unit: Unit)
    requires Ascending(keys) && forall k :: k in keys <==> k in spans
    requires i < |keys| && keys[i] <= b && (i + 1 < |keys| ==> b < keys[i + 1])
    ensures SumOver(spans, 0, b + 1, unit) == SumOver(spans, 0, keys[i], unit) + Weigh(unit, spans[keys[i]])
  {
    var k := keys[i];
    assert k in keys;
    SumSplits(spans, 0, k + 1, b + 1, unit);
    forall m | m in spans && k + 1 <= m < b + 1
      ensures false
    {
      assert m in keys;
      var j :| 0 <= j < |keys| && keys[j] == m;
    }
    SumOfNoSpans(spans, k + 1, b + 1, unit);
  }

  // ---------------------------------------------------------------- one slot's race

  /** What the pieces handed over for one slot come to: a span for each batch, and the watched
      wallets' transactions in them. */
  class Slot {
    const wallets: Wallets
    /** Which slot this is the race of, and every piece handed over for it. */
    ghost const slot: nat
    ghost var log: seq<DecodedBatch>

    var batches: map<nat, Span>
    var hits: seq<Hit>

    constructor (wallets: Wallets, ghost slot: nat)
      ensures Valid() && this.wallets == wallets && this.slot == slot && log == []
    {
      this.wallets, this.slot := wallets, slot;
      batches, hits, log := map[], [], [];
      new;
      NothingTallied(wallets);
    }

    ghost predicate Valid()
      reads this
    {
      Tallies(wallets, batches, hits, log)
    }

    /** Takes in one piece: its entries go behind those its batch has, and the entry of each hit
        is counted with those in front. */
    method Add(piece: DecodedBatch, found: seq<Hit>)
      requires Valid() && found == HitsIn(wallets, piece.firstShred, piece.entries)
      modifies this
      ensures Valid() && log == old(log) + [piece]
    {
      hide Tallies, HitsIn;
      var span := if piece.firstShred in batches then batches[piece.firstShred] else Span(piece.lastShred, []);
      var base := |span.entries|;
      span := Span(Max(span.lastShred, piece.lastShred), span.entries + CountsOf(piece.entries));
      TallyingOne(wallets, batches, hits, log, piece, span, Shifted(found, base));
      batches := batches[piece.firstShred := span];
      hits := hits + Shifted(found, base);
      log := log + [piece];
    }

    /** Transactions and entries that precede the hit, counting only the batches held. */
    method Position(hit: Hit) returns (transactions: nat, entries: nat)
      requires Located(batches, hit)
      ensures transactions == TransactionsBefore(batches, hit) && entries == EntriesBefore(batches, hit)
    {
      hide SumOver, Total, Ascending, Counted;
      var keys := SortedKeys(batches.Keys);
      assert hit.firstShred in keys;
      transactions, entries := 0, 0;
      CountingStarts(batches, keys, hit.firstShred);
      var k := 0;
      while k < |keys|
        invariant Counted(batches, keys, hit.firstShred, k, transactions, entries)
      {
        CountedFacts(batches, keys, hit.firstShred, k, transactions, entries);
        var span := batches[keys[k]];
        if keys[k] == hit.firstShred {
          return transactions + Total(span.entries[..hit.entry]) + hit.transaction, entries + hit.entry;
        }
        CountingOn(batches, keys, hit.firstShred, k, transactions, entries);
        transactions := transactions + Total(span.entries);
        entries := entries + |span.entries|;
        k := k + 1;
      }
      CountedFacts(batches, keys, hit.firstShred, k, transactions, entries);
    }

    /** Decides whether from one batch to the other each known batch begins right behind the one
        before it. */
    method IsTiled(from: nat, upTo: nat) returns (tiled: bool)
      ensures tiled <==> Tiled(batches, Min(from, upTo), Max(from, upTo))
    {
      hide Tiled, Adjacent, TiledSoFar, Ascending;
      var low, high := Min(from, upTo), Max(from, upTo);
      var expected: nat := low;
      var keys := SortedKeys(KeysIn(batches, low, high));
      TilingStarts(batches, keys, low);
      for k := 0 to |keys|
        invariant TiledSoFar(batches, keys, low, k, expected)
      {
        assert keys[k] in keys;
        if keys[k] != expected {
          Broken(batches, keys, low, high, k, expected);
          return false;
        }
        TilingGoesOn(batches, keys, low, k, expected);
        expected := batches[keys[k]].lastShred + 1;
      }
      TiledToTheEnd(batches, keys, low, high, expected);
      return high in batches;
    }

    /** A line for every pair, or why there is none. */
    method Report() returns (report: Report)
      requires Valid()
      ensures AllLocated(batches, hits) && report == ReportOf(batches, hits) && Tells(batches, hits, report)
    {
      hide Tallies, LineOf, Located, LinesOf, Tells;
      HitsAreLocated();
      ReportTells(batches, hits);
      var searchers, targets := SideOf(hits, Searcher), SideOf(hits, Target);
      if searchers == [] && targets == [] {
        return Quiet;
      }
      if searchers == [] {
        return TargetsOnly(SignaturesOf(targets));
      }
      if targets == [] {
        return SearchersOnly(SignaturesOf(searchers));
      }
      if |searchers| * |targets| > MAX_PAIRS {
        return TooMany(|searchers|, |targets|);
      }
      var lines := Lines(targets, searchers);
      return Raced(lines);
    }

    method Lines(targets: seq<Hit>, searchers: seq<Hit>) returns (lines: seq<Line>)
      requires AllLocated(batches, targets) && AllLocated(batches, searchers)
      ensures lines == LinesOf(batches, targets, searchers)
    {
      hide TransactionsBefore, EntriesBefore, Located, Tiled;
      var places: seq<(nat, nat)> := [];
      for j := 0 to |searchers|
        invariant |places| == j
        invariant forall i :: 0 <= i < j ==>
                    places[i] == (TransactionsBefore(batches, searchers[i]), EntriesBefore(batches, searchers[i]))
      {
        var transactions, entries := Position(searchers[j]);
        places := places + [(transactions, entries)];
      }
      lines := [];
      for k := 0 to |targets|
        invariant lines == LinesOf(batches, targets[..k], searchers)
      {
        var against := LinesAgainst(targets[k], searchers, places);
        assert targets[..k + 1][..k] == targets[..k];
        lines := lines + against;
      }
      assert targets[..|targets|] == targets;
    }

    method LinesAgainst(target: Hit, searchers: seq<Hit>, places: seq<(nat, nat)>) returns (lines: seq<Line>)
      requires Located(batches, target) && AllLocated(batches, searchers) && |places| == |searchers|
      requires forall i :: 0 <= i < |searchers| ==>
                 places[i] == (TransactionsBefore(batches, searchers[i]), EntriesBefore(batches, searchers[i]))
      ensures lines == LinesFor(batches, target, searchers)
    {
      hide TransactionsBefore, EntriesBefore, Located, Tiled;
      var targetTransactions, targetEntries := Position(target);
      lines := [];
      for j := 0 to |searchers|
        invariant |lines| == j && forall i :: 0 <= i < j ==> lines[i] == LineOf(batches, target, searchers[i])
      {
        var searcher := searchers[j];
        var exact := IsTiled(searcher.firstShred, target.firstShred);
        var (transactions, entries) := places[j];
        var between := KeysIn(batches, Min(searcher.firstShred, target.firstShred),
                              Max(searcher.firstShred, target.firstShred));
        lines := lines + [Line(target.signature, searcher.signature,
                               (transactions as int) - targetTransactions, (entries as int) - targetEntries,
                               searcher.firstShred == target.firstShred && searcher.entry == target.entry,
                               exact,
                               |between|)];
      }
    }

    lemma HitsAreLocated()
      requires Valid()
      ensures AllLocated(batches, hits)
    {
      hide Tallies, Located;
      forall hit | hit in hits
        ensures Located(batches, hit)
      {
        HitsAreWhereTheySay(wallets, batches, hits, log, hit);
      }
    }
  }

  /** What the batches before the `k`-th come to, on the way to the one at `first`. */
  ghost predicate Counted(spans: map<nat, Span>, keys: seq<nat>, first: nat, k: nat, transactions: nat, entries: nat) {
    && k < |keys| && keys[k] <= first && keys[k] in spans
    && transactions == SumOver(spans, 0, keys[k], Transactions)
    && entries == SumOver(spans, 0, keys[k], Entries)
  }

  lemma CountedFacts(spans: map<nat, Span>, keys: seq<nat>, first: nat, k: nat, transactions: nat, entries: nat)
    requires Counted(spans, keys, first, k, transactions, entries)
    ensures k < |keys| && keys[k] <= first && keys[k] in spans
    ensures keys[k] == first ==> transactions == SumOver(spans, 0, first, Transactions)
                                 && entries == SumOver(spans, 0, first, Entries)
  {
  }

  lemma CountingStarts(spans: map<nat, Span>, keys: seq<nat>, first: nat)
    requires Ascending(keys) && (forall k :: k in keys <==> k in spans) && first in keys
    ensures Counted(spans, keys, first, 0, 0, 0)
  {
    FirstKey(spans, keys);
    assert keys[0] in keys;
  }

  lemma CountingOn(spans: map<nat, Span>, keys: seq<nat>, first: nat, k: nat, transactions: nat, entries: nat)
    requires Ascending(keys) && (forall k :: k in keys <==> k in spans) && first in keys
    requires Counted(spans, keys, first, k, transactions, entries) && keys[k] < first
    ensures var span := spans[keys[k]];
            Counted(spans, keys, first, k + 1, transactions + Total(span.entries), entries + |span.entries|)
  {
    hide SumOver, Total;
    KeyAfter(keys, k, first);
    assert keys[k + 1] in keys;
    SumReaches(spans, keys, k, keys[k + 1] - 1, Transactions);
    SumReaches(spans, keys, k, keys[k + 1] - 1, Entries);
  }

  lemma FirstKey(spans: map<nat, Span>, keys: seq<nat>)
    requires Ascending(keys) && keys != [] && forall k :: k in keys <==> k in spans
    ensures forall k :: k in spans ==> keys[0] <= k
    ensures forall unit :: SumOver(spans, 0, keys[0], unit) == 0
  {
    forall k | k in spans
      ensures keys[0] <= k
    {
      var j :| 0 <= j < |keys| && keys[j] == k;
    }
    forall unit
      ensures SumOver(spans, 0, keys[0], unit) == 0
    {
      SumOfNoSpans(spans, 0, keys[0], unit);
    }
  }

  lemma KeyAfter(keys: seq<nat>, k: nat, later: nat)
    requires Ascending(keys) && k < |keys| && keys[k] < later && later in keys
    ensures k + 1 < |keys| && keys[k] < keys[k + 1] <= later
  {
    var j :| 0 <= j < |keys| && keys[j] == later;
    assert forall i :: 0 <= i <= k ==> keys[i] <= keys[k];
  }

  lemma Broken(spans: map<nat, Span>, keys: seq<nat>, low: nat, high: nat, k: nat, expected: nat)
    requires Ascending(keys) && forall m :: m in keys <==> m in KeysIn(spans, low, high)
    requires low <= high && k < |keys| && TiledSoFar(spans, keys, low, k, expected)
    ensures Tiled(spans, low, high) ==> keys[k] == expected
  {
    if Tiled(spans, low, high) {
      if k == 0 {
        TiledFrom(spans, keys, low, high);
      } else {
        TiledOn(spans, keys, low, high, k);
      }
    }
  }

  // ---------------------------------------------------------------- every slot's race

  method FindHits(wallets: Wallets, piece: DecodedBatch) returns (hits: seq<Hit>)
    ensures hits == HitsIn(wallets, piece.firstShred, piece.entries)
  {
    hide HitsIn, HitsInEntry;
    hits := [];
    HitsInNothing(wallets, piece.firstShred);
    assert piece.entries[..0] == [];
    for entry := 0 to |piece.entries|
      invariant hits == HitsIn(wallets, piece.firstShred, piece.entries[..entry])
    {
      var transactions := piece.entries[entry].transactions;
      ghost var before := hits;
      HitsInNoTransactions(wallets, piece.firstShred, entry, transactions[..0]);
      assert before + [] == before;
      for k := 0 to |transactions|
        invariant hits == before + HitsInEntry(wallets, piece.firstShred, entry, transactions[..k])
      {
        EntryHitsGrow(wallets, piece.firstShred, entry, transactions, k);
        ghost var some := HitsInEntry(wallets, piece.firstShred, entry, transactions[..k]);
        ghost var found := HitAt(wallets, piece.firstShred, entry, k, transactions[k]);
        Regrouped(before, some, found);
        match RoleOf(wallets, transactions[k])
        case None => assert hits + [] == hits;
        case Some(role) =>
          hits := hits + [Hit(role, piece.firstShred, entry, k, transactions[k].signature)];
      }
      assert transactions[..|transactions|] == transactions;
      BatchHitsGrow(wallets, piece.firstShred, piece.entries, entry);
    }
    assert piece.entries[..|piece.entries|] == piece.entries;
  }

  ghost function SlotsOf(m: map<nat, Aged<Slot>>): set<Slot> {
    set k | k in m :: m[k].value
  }

  ghost function SettledSlots(m: map<nat, Aged<Slot>>, now: nat): set<nat> {
    set k | k in m && Since(now, m[k].updated) >= SETTLE
  }

  class Tracker {
    const wallets: Wallets
    const slots: AgedMap<nat, Slot>

    constructor (wallets: Wallets, now: nat)
      ensures Valid() && fresh(slots) && this.wallets == wallets && slots.entries == map[]
    {
      this.wallets := wallets;
      slots := new AgedMap(SETTLE, MAX_SLOTS, now);
    }

    /** A slot's race in its own place, tallying every piece handed over for it. */
    ghost predicate Rightful(s: Slot, slot: nat)
      reads s
    {
      s.slot == slot && s.wallets == wallets && s.Valid()
    }

    ghost predicate AllRightful(m: map<nat, Aged<Slot>>)
      reads SlotsOf(m)
    {
      forall k :: k in m ==> Rightful(m[k].value, k)
    }

    ghost predicate Valid()
      reads slots, SlotsOf(slots.entries)
    {
      slots.cap == MAX_SLOTS && slots.retention == SETTLE && AllRightful(slots.entries)
    }

    /** Ages out, when a sweep is due, every slot that has been quiet for long enough, and
        reports each. What the cap drops is not reported. */
    method Settle(now: nat) returns (reports: map<nat, Report>)
      requires Valid()
      modifies slots
      ensures Valid()
      ensures forall k :: k in slots.entries ==> k in old(slots.entries) && slots.entries[k] == old(slots.entries)[k]
      ensures DroppedRightly(old(slots.entries), slots.entries, now, SETTLE, MAX_SLOTS)
      ensures var due := Since(now, old(slots.lastSwept)) >= SWEEP_INTERVAL || |old(slots.entries)| > MAX_SLOTS;
              reports.Keys == if due then SettledSlots(old(slots.entries), now) else {}
      ensures Reported(old(slots.entries), reports) && forall k :: k in reports ==> k !in slots.entries
    {
      hide Slot.Valid, ReportOf, Tells, AllLocated, Since, SweptTo, SettledSlots, AllRightful, DroppedRightly;
      ghost var was := slots.entries;
      assert forall s :: s in SlotsOf(was) ==> (s as object) != slots && allocated(s);
      var swept, expired := slots.Sweep(now);
      ExpiredSettled(was, slots.entries, expired, now, swept);
      SomeStayRightful(was, slots.entries, expired);
      reports := ReportAll(expired);
      SomeStayRightful(was, slots.entries, expired);
    }

    /** What is reported of each slot is what its spans and hits come to. */
    ghost predicate Reported(m: map<nat, Aged<Slot>>, reports: map<nat, Report>)
      reads SlotsOf(m)
    {
      forall k :: k in reports ==>
        && k in m && AllLocated(m[k].value.batches, m[k].value.hits)
        && reports[k] == ReportOf(m[k].value.batches, m[k].value.hits)
        && Tells(m[k].value.batches, m[k].value.hits, reports[k])
    }

    lemma SomeStayRightful(was: map<nat, Aged<Slot>>, now: map<nat, Aged<Slot>>, expired: map<nat, Slot>)
      requires AllRightful(was)
      requires forall k :: k in now ==> k in was && now[k] == was[k]
      requires forall k :: k in expired ==> k in was && expired[k] == was[k].value
      ensures AllRightful(now) && forall k :: k in expired ==> expired[k].Valid()
    {
      hide Slot.Valid;
      assert forall k :: k in expired ==> Rightful(was[k].value, k);
    }

    lemma ExpiredSettled(was: map<nat, Aged<Slot>>, now: map<nat, Aged<Slot>>, expired: map<nat, Slot>, clock: nat,
                         swept: bool)
      requires swept ==> SweptTo(was, now, expired, clock, SETTLE, MAX_SLOTS)
      requires !swept ==> expired == map[]
      ensures expired.Keys == if swept then SettledSlots(was, clock) else {}
      ensures forall k :: k in expired ==> k in was && expired[k] == was[k].value && k !in now
    {
    }

    method ReportAll(expired: map<nat, Slot>) returns (reports: map<nat, Report>)
      requires forall k :: k in expired ==> expired[k].Valid()
      ensures reports.Keys == expired.Keys
      ensures forall k :: k in reports ==>
                && AllLocated(expired[k].batches, expired[k].hits)
                && reports[k] == ReportOf(expired[k].batches, expired[k].hits)
                && Tells(expired[k].batches, expired[k].hits, reports[k])
    {
      hide Slot.Valid, ReportOf, AllLocated, Tells;
      reports := map[];
      var left := expired.Keys;
      while left != {}
        invariant left <= expired.Keys && reports.Keys == expired.Keys - left
        invariant forall k :: k in reports ==>
                    && AllLocated(expired[k].batches, expired[k].hits)
                    && reports[k] == ReportOf(expired[k].batches, expired[k].hits)
                    && Tells(expired[k].batches, expired[k].hits, reports[k])
        modifies {}
        decreases left
      {
        var k := MinOf(left);
        var report := expired[k].Report();
        reports := reports[k := report];
        left := left - {k};
      }
    }

    /** The slot's share of a piece, once what was quiet is settled. */
    method Book(slot: nat, piece: DecodedBatch, now: nat)
      requires Valid()
      modifies slots`entries, SlotsOf(slots.entries)
      ensures Valid() && slot in slots.entries
      ensures slots.entries == old(slots.entries)[slot := Aged(now, slots.entries[slot].value)]
      ensures var s := slots.entries[slot].value;
              if s in old(SlotsOf(slots.entries)) then s.log == old(s.log) + [piece] else fresh(s) && s.log == [piece]
      ensures forall s :: s in old(SlotsOf(slots.entries)) && s != slots.entries[slot].value ==> unchanged(s)
    {
      hide Slot.Valid, HitsIn;
      assert forall s :: s in SlotsOf(slots.entries) ==> (s as object) != slots && allocated(s);
      ghost var was := slots.entries;
      var found := FindHits(wallets, piece);
      var created := new Slot(wallets, slot);
      assert (created as object) != slots;
      var held := slots.Upsert(slot, now, created);
      assert Rightful(held, slot);
      held.Add(piece, found);
      forall k | k in slots.entries
        ensures Rightful(slots.entries[k].value, k)
      {
        if k != slot { assert was[k].value in SlotsOf(was) && was[k].value != held; }
      }
    }

    /** Takes a piece: settles first, then tallies the piece in its own slot and no other. */
    method Batch(slot: nat, piece: DecodedBatch, now: nat) returns (reports: map<nat, Report>)
      requires Valid()
      modifies slots, SlotsOf(slots.entries)
      ensures Valid()
      ensures slot in slots.entries && OneTouched(old(slots.entries), slots.entries, slot, now)
      ensures DroppedRightly(old(slots.entries), slots.entries, now, SETTLE, MAX_SLOTS)
      ensures var due := Since(now, old(slots.lastSwept)) >= SWEEP_INTERVAL || |old(slots.entries)| > MAX_SLOTS;
              reports.Keys == if due then SettledSlots(old(slots.entries), now) else {}
      ensures old(Reported(slots.entries, reports))
      ensures var s := slots.entries[slot].value;
              && (if s in old(SlotsOf(slots.entries)) then s.log == old(s.log) + [piece]
                  else fresh(s) && s.log == [piece])
              && forall other :: other in old(SlotsOf(slots.entries)) && other != s ==> unchanged(other)
    {
      hide Slot.Valid, ReportOf, Tells, AllLocated, Since, DroppedRightly, OneTouched, Reported, SettledSlots, Rightful;
      assert forall s :: s in SlotsOf(slots.entries) ==> (s as object) != slots && allocated(s);
      reports := Settle(now);
      ghost var was := slots.entries;
      assert forall s :: s in SlotsOf(was) ==> s in old(SlotsOf(slots.entries));
      Book(slot, piece, now);
      TouchingOne(old(slots.entries), was, slot, now, slots.entries[slot].value);
      TouchingDropsNothing(old(slots.entries), was, slot, slots.entries[slot], now, SETTLE, MAX_SLOTS);
    }
  }

  /** No wallet to watch, nothing to measure against. */
  method Track(wallets: Wallets, now: nat) returns (tracker: Option<Tracker>)
    ensures tracker.Some? <==> wallets.targets != {}
    ensures tracker.Some? ==> fresh(tracker.value) && tracker.value.Valid() && tracker.value.wallets == wallets
  {
    if wallets.targets == {} {
      return None;
    }
    var t := new Tracker(wallets, now);
    return Some(t);
  }
}
