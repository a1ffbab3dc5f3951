/** What a race says, whatever became of it: reported and begun again any number of times, its buffer
    dropped any number of times, in any order, with shreds still missing or not. */
module AnyRaces {
  import opened Bytes
  import opened Collections
  import opened Codec
  import opened Runs
  import opened Arenas
  import opened Batches
  import opened Pieces
  import opened SlotBuffers
  import opened Races
  import opened Limits
  import opened Watches

  // Of several buffers, one behind the other: `logs` is what each told this race, and `heads` what
  // it had told races before.

  ghost function Mine(tx: TxCodec, leader: Held, s: nat): seq<Entry> {
    OneShot(tx, RunOf(leader, s).data).entries
  }

  /** All that each buffer ever told. */
  ghost function Both(heads: seq<seq<DecodedBatch>>, logs: seq<seq<DecodedBatch>>): (both: seq<seq<DecodedBatch>>)
    requires |heads| == |logs|
    ensures |both| == |logs| && forall k :: 0 <= k < |logs| ==> both[k] == heads[k] + logs[k]
  {
    seq(|logs|, k requires 0 <= k < |logs| => heads[k] + logs[k])
  }

  /** The most any one buffer told of a batch. */
  ghost function Longest(logs: seq<seq<DecodedBatch>>, s: nat): seq<Entry> {
    if logs == [] then [] else
      var k := |logs| - 1;
      var before, last := Longest(logs[..k], s), EntriesOf(logs[k], s);
      if |before| < |last| then last else before
  }

  /** What buffers before told this race of a batch, by the time the buffer began that told it the
      `m`-th entry of all. */
  ghost function ToldBefore(logs: seq<seq<DecodedBatch>>, s: nat, m: nat): (earlier: seq<Entry>)
    ensures |earlier| <= m
  {
    if logs == [] then [] else
      var k := |logs| - 1;
      var before := EntriesOf(Flat(logs[..k]), s);
      if m < |before| then ToldBefore(logs[..k], s, m) else before
  }

  /** What the buffer that told this race the `m`-th entry of a batch had told races before. */
  ghost function Head(heads: seq<seq<DecodedBatch>>, logs: seq<seq<DecodedBatch>>, s: nat, m: nat): seq<Entry>
    requires |heads| == |logs|
  {
    if logs == [] then [] else
      var k := |logs| - 1;
      if m < |EntriesOf(Flat(logs[..k]), s)| then Head(heads[..k], logs[..k], s, m) else EntriesOf(heads[k], s)
  }

  /** The hit with its entry counted as its leader counts. */
  ghost function Standing(heads: seq<seq<DecodedBatch>>, logs: seq<seq<DecodedBatch>>, hit: Hit): Hit
    requires |heads| == |logs|
  {
    var s, m := hit.firstShred, hit.entry;
    hit.(entry := |Head(heads, logs, s, m)| + (m - |ToldBefore(logs, s, m)|))
  }

  ghost function WeighAll(unit: Unit, entries: seq<Entry>): nat {
    Weigh(unit, Span(0, CountsOf(entries)))
  }

  // ---------------------------------------------------------------- one buffer at a time

  lemma LastOf(logs: seq<seq<DecodedBatch>>, s: nat)
    requires logs != []
    ensures var k := |logs| - 1;
            && EntriesOf(Flat(logs), s) == EntriesOf(Flat(logs[..k]), s) + EntriesOf(logs[k], s)
            && EndsOf(Flat(logs), s) == EndsOf(Flat(logs[..k]), s) + EndsOf(logs[k], s)
  {
    var k := |logs| - 1;
    PiecesSum(Flat(logs[..k]), logs[k], s);
  }

  lemma BothLast(heads: seq<seq<DecodedBatch>>, logs: seq<seq<DecodedBatch>>, s: nat)
    requires |heads| == |logs| && logs != []
    ensures var k, both := |logs| - 1, Both(heads, logs);
            && both[..k] == Both(heads[..k], logs[..k])
            && EntriesOf(both[k], s) == EntriesOf(heads[k], s) + EntriesOf(logs[k], s)
            && EndsOf(both[k], s) == EndsOf(heads[k], s) + EndsOf(logs[k], s)
  {
    var k := |logs| - 1;
    PiecesSum(heads[k], logs[k], s);
  }

  lemma LongestGrows(logs: seq<seq<DecodedBatch>>, s: nat)
    requires logs != []
    ensures var k := |logs| - 1;
            |Longest(logs[..k], s)| <= |Longest(logs, s)| && |EntriesOf(logs[k], s)| <= |Longest(logs, s)|
  {
    hide EntriesOf;
  }

  lemma ToldBeforeIs(logs: seq<seq<DecodedBatch>>, s: nat, m: nat)
    requires logs != []
    ensures var k := |logs| - 1; var before := EntriesOf(Flat(logs[..k]), s);
            ToldBefore(logs, s, m) == if m < |before| then ToldBefore(logs[..k], s, m) else before
  {
    hide EntriesOf;
  }

  lemma HeadIs(heads: seq<seq<DecodedBatch>>, logs: seq<seq<DecodedBatch>>, s: nat, m: nat)
    requires |heads| == |logs| && logs != []
    ensures var k := |logs| - 1;
            Head(heads, logs, s, m) ==
            if m < |EntriesOf(Flat(logs[..k]), s)| then Head(heads[..k], logs[..k], s, m) else EntriesOf(heads[k], s)
  {
    hide EntriesOf;
  }

  lemma LastIsFair(tx: TxCodec, leader: Held, heads: seq<seq<DecodedBatch>>, logs: seq<seq<DecodedBatch>>, s: nat)
    requires LeaderSlot(tx, leader) && AllFair(tx, leader, heads, logs) && logs != []
    ensures var k := |logs| - 1;
            && AllFair(tx, leader, heads[..k], logs[..k])
            && FairAt(tx, leader, heads[k] + logs[k], s)
            && EntriesOf(heads[k], s) + EntriesOf(logs[k], s) <= Mine(tx, leader, s)
  {
    hide LeaderSlot, OneShot, RunOf, EntriesOf, EndsOf, LeaderSpan, LeaderSpans;
    var k := |logs| - 1;
    assert Fair(tx, leader, heads[k] + logs[k]);
    assert FairAt(tx, leader, heads[k] + logs[k], s);
    PiecesSum(heads[k], logs[k], s);
    if EndsOf(heads[k] + logs[k], s) == [] { NoEndsNoEntries(heads[k] + logs[k], s); }
  }

  lemma CountsSum(a: seq<Entry>, b: seq<Entry>)
    ensures CountsOf(a + b) == CountsOf(a) + CountsOf(b)
  {
  }

  lemma CountsCut(entries: seq<Entry>, k: nat)
    requires k <= |entries|
    ensures CountsOf(entries)[..k] == CountsOf(entries[..k])
  {
  }

  lemma WeighSum(unit: Unit, a: seq<Entry>, b: seq<Entry>)
    ensures WeighAll(unit, a + b) == WeighAll(unit, a) + WeighAll(unit, b)
  {
    CountsSum(a, b);
    TotalSplits(CountsOf(a), CountsOf(b));
  }

  lemma GreatestOfBoth(a: seq<nat>, b: seq<nat>)
    requires a + b != []
    ensures b == [] ==> a != [] && Greatest(a + b) == Greatest(a)
    ensures a == [] ==> b != [] && Greatest(a + b) == Greatest(b)
    ensures a != [] && b != [] ==> Greatest(a + b) == Max(Greatest(a), Greatest(b))
    decreases |b|
  {
    if b == [] {
      assert a + b == a;
    } else if a == [] {
      assert a + b == b;
    } else {
      var k := |b| - 1;
      assert (a + b)[..|a + b| - 1] == a + b[..k];
      GreatestOfBoth(a, b[..k]);
    }
  }

  // ---------------------------------------------------------------- where an entry stands

  /** Entry `m` of all told of a batch, behind what was told `earlier` and in front of it by its own
      buffer, is the leader's at the place its buffer's `head` and that come to, and no buffer's
      whole telling is shorter than `longest`. */
  ghost predicate Stands(all: seq<Entry>, mine: seq<Entry>, earlier: seq<Entry>, head: seq<Entry>, longest: nat,
                         m: nat)
  {
    && |earlier| <= m < |all|
    && var place := |head| + (m - |earlier|);
       && place < longest && place < |mine| && head <= mine
       && all[..m] == earlier + mine[|head|..place] && all[m] == mine[place]
  }

  lemma StandsBefore(before: seq<Entry>, last: seq<Entry>, mine: seq<Entry>, earlier: seq<Entry>, head: seq<Entry>,
                     longest: nat, longer: nat, m: nat)
    requires Stands(before, mine, earlier, head, longest, m) && longest <= longer
    ensures Stands(before + last, mine, earlier, head, longer, m)
  {
    assert (before + last)[..m] == before[..m];
  }

  lemma StandsLast(before: seq<Entry>, last: seq<Entry>, mine: seq<Entry>, head: seq<Entry>, longest: nat, m: nat)
    requires |before| <= m < |before| + |last| && head + last <= mine && |head| + |last| <= longest
    ensures Stands(before + last, mine, before, head, longest, m)
  {
    var p := m - |before|;
    assert (head + last)[|head|..|head| + p] == last[..p] && (head + last)[|head| + p] == last[p];
    assert mine[|head|..|head| + p] == last[..p];
    assert (before + last)[..m] == before + last[..p];
  }

  /** Of each entry told, whichever buffer told it: where the leader has it. */
  lemma {:induction false} EntryStands(tx: TxCodec, leader: Held, heads: seq<seq<DecodedBatch>>,
                                       logs: seq<seq<DecodedBatch>>, s: nat, m: nat)
    requires LeaderSlot(tx, leader) && |heads| == |logs| && AllFair(tx, leader, heads, logs)
    requires m < |EntriesOf(Flat(logs), s)|
    ensures Stands(EntriesOf(Flat(logs), s), Mine(tx, leader, s), ToldBefore(logs, s, m), Head(heads, logs, s, m),
                   |Longest(Both(heads, logs), s)|, m)
    decreases |logs|
  {
    hide LeaderSlot, Fair, FairAt, Mine, EntriesOf, EndsOf, ToldBefore, Head, Longest, Stands;
    if logs == [] {
      NothingTold(s);
    } else {
      var k, both := |logs| - 1, Both(heads, logs);
      LastIsFair(tx, leader, heads, logs, s);
      LastOf(logs, s);
      BothLast(heads, logs, s);
      LongestGrows(both, s);
      ToldBeforeIs(logs, s, m);
      HeadIs(heads, logs, s, m);
      var before, last := EntriesOf(Flat(logs[..k]), s), EntriesOf(logs[k], s);
      if m < |before| {
        EntryStands(tx, leader, heads[..k], logs[..k], s, m);
        StandsBefore(before, last, Mine(tx, leader, s), ToldBefore(logs, s, m), Head(heads, logs, s, m),
                     |Longest(both[..k], s)|, |Longest(both, s)|, m);
      } else {
        StandsLast(before, last, Mine(tx, leader, s), Head(heads, logs, s, m), |Longest(both, s)|, m);
      }
    }
  }

  lemma StandingWeighs(all: seq<Entry>, mine: seq<Entry>, earlier: seq<Entry>, head: seq<Entry>, longest: seq<Entry>,
                       m: nat)
    requires Stands(all, mine, earlier, head, |longest|, m) && longest <= mine
    ensures var place := |head| + (m - |earlier|);
            && m < |all| && place < |longest| && place < |mine| && all[m] == mine[place] == longest[place]
            && Total(CountsOf(all)[..m]) + WeighAll(Transactions, head) ==
               WeighAll(Transactions, earlier) + Total(CountsOf(longest)[..place])
            && m + WeighAll(Entries, head) == WeighAll(Entries, earlier) + place
  {
    hide Total;
    var place := |head| + (m - |earlier|);
    var part := mine[|head|..place];
    assert mine[..place] == head + part && longest[..place] == mine[..place];
    WeighSum(Transactions, earlier, part);
    WeighSum(Transactions, head, part);
    CountsCut(all, m);
    CountsCut(longest, place);
  }

  // ---------------------------------------------------------------- what any buffer made known

  /** The most told of a batch is the leader's as far as it goes, and all of it if any buffer told
      the batch to its end. */
  ghost predicate LongestIs(tx: TxCodec, leader: Held, both: seq<seq<DecodedBatch>>, s: nat) {
    var longest, ends := Longest(both, s), EndsOf(Flat(both), s);
    && longest <= Mine(tx, leader, s)
    && (ends == [] ==> longest == [])
    && (ends != [] ==>
          && s in LeaderSpans(tx, leader)
          && var span := LeaderSpan(tx, leader, s);
             && Greatest(ends) <= span.lastShred && (Greatest(ends) == span.lastShred ==> |longest| == |span.entries|))
  }

  lemma {:induction false} LongestIsTheLeaders(tx: TxCodec, leader: Held, heads: seq<seq<DecodedBatch>>,
                                               logs: seq<seq<DecodedBatch>>, s: nat)
    requires LeaderSlot(tx, leader) && |heads| == |logs| && AllFair(tx, leader, heads, logs)
    ensures LongestIs(tx, leader, Both(heads, logs), s)
    decreases |logs|
  {
    hide LeaderSlot, AllFair, OneShot, RunOf, RunEnd, EntriesOf, EndsOf, LeaderSpans, StartsOf, Greatest;
    if logs == [] {
      NothingTold(s);
    } else {
      var k, both := |logs| - 1, Both(heads, logs);
      LastIsFair(tx, leader, heads, logs, s);
      BothLast(heads, logs, s);
      LongestIsTheLeaders(tx, leader, heads[..k], logs[..k], s);
      LastOf(both, s);
      if EndsOf(both[k], s) == [] { NoEndsNoEntries(both[k], s); }
      if EndsOf(Flat(both), s) != [] { GreatestOfBoth(EndsOf(Flat(both[..k]), s), EndsOf(both[k], s)); }
    }
  }

  /** No end told to this race is beyond all that was ever told. */
  lemma {:induction false} EndsReach(heads: seq<seq<DecodedBatch>>, logs: seq<seq<DecodedBatch>>, s: nat)
    requires |heads| == |logs|
    ensures var ends, all := EndsOf(Flat(logs), s), EndsOf(Flat(Both(heads, logs)), s);
            ends != [] ==> all != [] && Greatest(ends) <= Greatest(all)
    decreases |logs|
  {
    hide EndsOf, EntriesOf, Greatest;
    if logs == [] {
      NothingTold(s);
    } else {
      var k, both := |logs| - 1, Both(heads, logs);
      EndsReach(heads[..k], logs[..k], s);
      BothLast(heads, logs, s);
      LastOf(logs, s);
      LastOf(both, s);
      var head, last := EndsOf(heads[k], s), EndsOf(logs[k], s);
      if EndsOf(Flat(logs), s) != [] {
        GreatestOfBoth(EndsOf(Flat(logs[..k]), s), last);
        GreatestOfBoth(EndsOf(Flat(both[..k]), s), head + last);
        if head + last != [] { GreatestOfBoth(head, last); }
      }
    }
  }

  /** The race with just the longest telling of each of its batches in it. */
  ghost function Kept(batches: map<nat, Span>, both: seq<seq<DecodedBatch>>): map<nat, Span> {
    map s | s in batches :: Span(batches[s].lastShred, CountsOf(Longest(both, s)))
  }

  lemma KeptAt(tx: TxCodec, leader: Held, wallets: Wallets, batches: map<nat, Span>, hits: seq<Hit>,
               heads: seq<seq<DecodedBatch>>, logs: seq<seq<DecodedBatch>>, s: nat)
    requires LeaderSlot(tx, leader) && |heads| == |logs| && AllFair(tx, leader, heads, logs)
    requires Tallies(wallets, batches, hits, Flat(logs)) && s in batches
    ensures s in LeaderSpans(tx, leader)
    ensures var kept, whole := CountsOf(Longest(Both(heads, logs), s)), LeaderSpans(tx, leader)[s];
            && kept <= whole.entries && batches[s].lastShred <= whole.lastShred
            && (batches[s].lastShred == whole.lastShred ==> kept == whole.entries)
  {
    hide LeaderSlot, AllFair, Longest, OneShot, RunOf, RunEnd, EntriesOf, EndsOf, StartsOf, Greatest, HitsAt, HitsIn;
    assert TalliedAt(wallets, batches, hits, Flat(logs), s);
    EndsReach(heads, logs, s);
    LongestIsTheLeaders(tx, leader, heads, logs, s);
    EntriesOfPrefix(Longest(Both(heads, logs), s), Mine(tx, leader, s));
  }

  lemma KeptIsWithin(tx: TxCodec, leader: Held, wallets: Wallets, batches: map<nat, Span>, hits: seq<Hit>,
                     heads: seq<seq<DecodedBatch>>, logs: seq<seq<DecodedBatch>>)
    requires LeaderSlot(tx, leader) && |heads| == |logs| && AllFair(tx, leader, heads, logs)
    requires Tallies(wallets, batches, hits, Flat(logs))
    ensures Within(Kept(batches, Both(heads, logs)), LeaderSpans(tx, leader))
  {
    hide LeaderSlot, AllFair, Tallies, LeaderSpan, LeaderSpans, Longest;
    var kept, whole := Kept(batches, Both(heads, logs)), LeaderSpans(tx, leader);
    forall s | s in kept
      ensures s in whole && kept[s].entries <= whole[s].entries && kept[s].lastShred <= whole[s].lastShred
      ensures kept[s].lastShred == whole[s].lastShred ==> kept[s].entries == whole[s].entries
    {
      KeptAt(tx, leader, wallets, batches, hits, heads, logs, s);
    }
  }

  lemma KeptTiled(batches: map<nat, Span>, both: seq<seq<DecodedBatch>>, low: nat, high: nat)
    ensures Tiled(batches, low, high) ==> Tiled(Kept(batches, both), low, high)
  {
    hide Adjacent, Longest;
    var kept := Kept(batches, both);
    assert kept.Keys == batches.Keys;
    if Tiled(batches, low, high) {
      forall k | k in kept && low <= k < high
        ensures kept[k].lastShred < high && Adjacent(kept, k, kept[k].lastShred + 1)
      {
        StillAdjacent(batches, kept, k, batches[k].lastShred + 1);
      }
    }
  }

  // ---------------------------------------------------------------- what a gap has too much, or too little

  /** How much more stands in front of a hit in its batch than with its leader: what buffers before
      told this race of the batch, less what its own buffer told races before. */
  ghost function Shift(heads: seq<seq<DecodedBatch>>, logs: seq<seq<DecodedBatch>>, hit: Hit, unit: Unit): int
    requires |heads| == |logs|
  {
    WeighAll(unit, ToldBefore(logs, hit.firstShred, hit.entry))
    - WeighAll(unit, Head(heads, logs, hit.firstShred, hit.entry))
  }

  /** What a gap has too much, or too little, by nothing but what was told: of the batches from that
      of `a` up to that of `b` all this race was told, less the most any buffer ever told; and how
      the two hits are shifted in their own. */
  ghost function Extra(batches: map<nat, Span>, heads: seq<seq<DecodedBatch>>, logs: seq<seq<DecodedBatch>>,
                       a: Hit, b: Hit, unit: Unit): int
    requires |heads| == |logs|
  {
    SumOver(batches, a.firstShred, b.firstShred, unit)
    - SumOver(Kept(batches, Both(heads, logs)), a.firstShred, b.firstShred, unit)
    + Shift(heads, logs, b, unit) - Shift(heads, logs, a, unit)
  }

  lemma HitIsTold(tx: TxCodec, leader: Held, wallets: Wallets, batches: map<nat, Span>, hits: seq<Hit>,
                  heads: seq<seq<DecodedBatch>>, logs: seq<seq<DecodedBatch>>, hit: Hit)
    requires LeaderSlot(tx, leader) && |heads| == |logs| && AllFair(tx, leader, heads, logs)
    requires Tallies(wallets, batches, hits, Flat(logs)) && hit in hits
    ensures var s, all := hit.firstShred, EntriesOf(Flat(logs), hit.firstShred);
            && Located(batches, hit) && s in batches && batches[s].entries == CountsOf(all)
            && hit.entry < |all| && Faithful(wallets, s, all, hit)
            && Stands(all, Mine(tx, leader, s), ToldBefore(logs, s, hit.entry), Head(heads, logs, s, hit.entry),
                      |Longest(Both(heads, logs), s)|, hit.entry)
            && Longest(Both(heads, logs), s) <= Mine(tx, leader, s)
  {
    hide LeaderSlot, AllFair, ToldBefore, Head, Longest, EntriesOf, EndsOf, Mine, Tallies, Stands, LongestIs, Flat,
         Both, Faithful;
    var s := hit.firstShred;
    HitsAreWhereTheySay(wallets, batches, hits, Flat(logs), hit);
    EntriesAre(wallets, batches, hits, Flat(logs), s);
    EntryStands(tx, leader, heads, logs, s, hit.entry);
    LongestIsTheLeaders(tx, leader, heads, logs, s);
    LongestIsMine(tx, leader, Both(heads, logs), s);
  }

  /** A hit of the race, and what stands in front of it in its batch. */
  lemma HitStands(tx: TxCodec, leader: Held, wallets: Wallets, batches: map<nat, Span>, hits: seq<Hit>,
                  heads: seq<seq<DecodedBatch>>, logs: seq<seq<DecodedBatch>>, hit: Hit)
    requires LeaderSlot(tx, leader) && |heads| == |logs| && AllFair(tx, leader, heads, logs)
    requires Tallies(wallets, batches, hits, Flat(logs)) && hit in hits
    ensures Located(batches, hit) && Located(Kept(batches, Both(heads, logs)), Standing(heads, logs, hit))
    ensures Faithful(wallets, hit.firstShred, Mine(tx, leader, hit.firstShred), Standing(heads, logs, hit))
    ensures var s, place := hit.firstShred, Standing(heads, logs, hit).entry;
            && Total(batches[s].entries[..hit.entry]) ==
               Shift(heads, logs, hit, Transactions) + Total(Kept(batches, Both(heads, logs))[s].entries[..place])
            && hit.entry == Shift(heads, logs, hit, Entries) + place
  {
    hide LeaderSlot, AllFair, ToldBefore, Head, Longest, EntriesOf, EndsOf, Mine, Tallies, Total, Stands, LongestIs,
         WeighAll, Flat, Both, Faithful, Standing, Located;
    var s := hit.firstShred;
    var all, mine, longest := EntriesOf(Flat(logs), s), Mine(tx, leader, s), Longest(Both(heads, logs), s);
    var earlier, head := ToldBefore(logs, s, hit.entry), Head(heads, logs, s, hit.entry);
    HitIsTold(tx, leader, wallets, batches, hits, heads, logs, hit);
    StandingWeighs(all, mine, earlier, head, longest, hit.entry);
    StandingIs(heads, logs, hit);
    var place := |head| + (hit.entry - |earlier|);
    SameTransaction(wallets, all, mine, longest, hit, place);
    KeptHas(batches, Both(heads, logs), hit.(entry := place));
  }

  lemma StandingIs(heads: seq<seq<DecodedBatch>>, logs: seq<seq<DecodedBatch>>, hit: Hit)
    requires |heads| == |logs|
    ensures var s, m := hit.firstShred, hit.entry;
            Standing(heads, logs, hit) ==
            hit.(entry := |Head(heads, logs, s, m)| + (m - |ToldBefore(logs, s, m)|))
  {
  }

  lemma KeptHas(batches: map<nat, Span>, both: seq<seq<DecodedBatch>>, hit: Hit)
    requires hit.firstShred in batches && hit.entry < |Longest(both, hit.firstShred)|
    requires hit.transaction < CountsOf(Longest(both, hit.firstShred))[hit.entry]
    ensures Located(Kept(batches, both), hit)
  {
    hide Longest;
  }

  /** A hit is the same transaction wherever its entry stands. */
  lemma SameTransaction(wallets: Wallets, all: seq<Entry>, mine: seq<Entry>, longest: seq<Entry>, hit: Hit, place: nat)
    requires Faithful(wallets, hit.firstShred, all, hit) && place < |mine| && place < |longest|
    requires all[hit.entry] == mine[place] == longest[place]
    ensures Faithful(wallets, hit.firstShred, mine, hit.(entry := place))
    ensures hit.transaction < CountsOf(longest)[place]
  {
  }

  lemma LongestIsMine(tx: TxCodec, leader: Held, both: seq<seq<DecodedBatch>>, s: nat)
    requires LongestIs(tx, leader, both, s)
    ensures Longest(both, s) <= Mine(tx, leader, s)
  {
  }

  lemma EntriesAre(wallets: Wallets, batches: map<nat, Span>, hits: seq<Hit>, log: seq<DecodedBatch>, s: nat)
    requires Tallies(wallets, batches, hits, log) && s in batches
    ensures batches[s].entries == CountsOf(EntriesOf(log, s))
  {
    assert TalliedAt(wallets, batches, hits, log, s);
  }

  /** Between two hits in the leader's own order, whatever any buffer told this race or one before:
      less its extra a gap never says more than the leader's, and is the leader's if it claims to
      be exact. */
  lemma GapsFallShort(tx: TxCodec, leader: Held, wallets: Wallets, batches: map<nat, Span>, hits: seq<Hit>,
                      heads: seq<seq<DecodedBatch>>, logs: seq<seq<DecodedBatch>>, a: Hit, b: Hit)
    requires LeaderSlot(tx, leader) && |heads| == |logs| && AllFair(tx, leader, heads, logs)
    requires Tallies(wallets, batches, hits, Flat(logs)) && a in hits && b in hits
    requires Precedes(Standing(heads, logs, a), Standing(heads, logs, b))
    ensures Located(batches, a) && Located(batches, b)
    ensures var whole, x, y := LeaderSpans(tx, leader), Standing(heads, logs, a), Standing(heads, logs, b);
            && Located(whole, x) && Located(whole, y)
            && Faithful(wallets, a.firstShred, Mine(tx, leader, a.firstShred), x)
            && Faithful(wallets, b.firstShred, Mine(tx, leader, b.firstShred), y)
            && var exact := Tiled(batches, a.firstShred, b.firstShred);
               && FallsShort(TransactionsBefore(batches, b) - TransactionsBefore(batches, a)
                             - Extra(batches, heads, logs, a, b, Transactions),
                             TransactionsBefore(whole, y) - TransactionsBefore(whole, x), 0, exact)
               && FallsShort(EntriesBefore(batches, b) - EntriesBefore(batches, a)
                             - Extra(batches, heads, logs, a, b, Entries),
                             EntriesBefore(whole, y) - EntriesBefore(whole, x), 0, exact)
  {
    hide LeaderSlot, LeaderSpans, AllFair, Tallies, ToldBefore, Head, Mine, Kept, Both, Within, Partition, Tiled, Total,
         SumOver, TransactionsBefore, EntriesBefore, Located, Faithful, Shift;
    var kept, x, y := Kept(batches, Both(heads, logs)), Standing(heads, logs, a), Standing(heads, logs, b);
    HitStands(tx, leader, wallets, batches, hits, heads, logs, a);
    HitStands(tx, leader, wallets, batches, hits, heads, logs, b);
    KeptIsWithin(tx, leader, wallets, batches, hits, heads, logs);
    KeptTiled(batches, Both(heads, logs), a.firstShred, b.firstShred);
    LeaderBatchesTile(tx, leader);
    GapsAreHonest(kept, LeaderSpans(tx, leader), x, y);
    GapSplits(batches, a, b);
    GapSplits(kept, x, y);
  }

  // ---------------------------------------------------------------- a watch in any state

  /** What each buffer of the watch's race told races before, and what it told this one. */
  ghost function HeadsOf(w: SlotWatch): seq<seq<DecodedBatch>>
    reads w
  {
    w.heads + [w.reported]
  }

  ghost function LogsOf(w: SlotWatch): seq<seq<DecodedBatch>>
    reads w
  {
    w.dropped + [w.current]
  }

  lemma WatchIsFair(w: SlotWatch)
    requires w.Valid()
    ensures |HeadsOf(w)| == |LogsOf(w)|
    ensures w.honest ==> AllFair(w.tx, w.leader, HeadsOf(w), LogsOf(w))
    ensures w.honest ==> Tallies(w.wallets, w.race.batches, w.race.hits, Flat(LogsOf(w)))
  {
    hide Booked, Tallies, AllFair, Fair, Flat, Logged, AgreesWith;
    if w.honest {
      w.ValidIsTold();
      LogIsFair(w.tx, w.leader, w.buffer.held, w.buffer.starts, w.buffer.progress, w.buffer.accounts, w.reported,
                w.current);
      AllFairMore(w.tx, w.leader, w.heads, w.dropped, w.reported, w.current);
      FlatMore(w.dropped, w.current);
    }
  }

  /** The watch in any state it can come to while copies are the leader's, and two hits of its race
      in the leader's own order. Each is the leader's transaction where its buffer's pieces have it.
      Less its extra the gap between them never says more than the leader's, and is the leader's if
      it claims to be exact. */
  lemma AnyRaceFallsShort(w: SlotWatch, a: Hit, b: Hit)
    requires w.Valid() && w.honest && LeaderSlot(w.tx, w.leader)
    requires a in w.race.hits && b in w.race.hits
    requires Precedes(Standing(HeadsOf(w), LogsOf(w), a), Standing(HeadsOf(w), LogsOf(w), b))
    ensures Located(w.race.batches, a) && Located(w.race.batches, b)
    ensures var heads, logs, whole := HeadsOf(w), LogsOf(w), LeaderSpans(w.tx, w.leader);
            var x, y := Standing(heads, logs, a), Standing(heads, logs, b);
            && w.IsTheLeaders(x) && w.IsTheLeaders(y) && Located(whole, x) && Located(whole, y)
            && var exact := Tiled(w.race.batches, a.firstShred, b.firstShred);
               && FallsShort(TransactionsBefore(w.race.batches, b) - TransactionsBefore(w.race.batches, a)
                             - Extra(w.race.batches, heads, logs, a, b, Transactions),
                             TransactionsBefore(whole, y) - TransactionsBefore(whole, x), 0, exact)
               && FallsShort(EntriesBefore(w.race.batches, b) - EntriesBefore(w.race.batches, a)
                             - Extra(w.race.batches, heads, logs, a, b, Entries),
                             EntriesBefore(whole, y) - EntriesBefore(whole, x), 0, exact)
  {
    hide LeaderSlot, LeaderSpans, AllFair, Tallies, Tiled, TransactionsBefore, EntriesBefore, Located, Faithful, Extra,
         SlotWatch.Valid, OneShot, RunOf, ToldBefore, Head, FallsShort;
    WatchIsFair(w);
    GapsFallShort(w.tx, w.leader, w.wallets, w.race.batches, w.race.hits, HeadsOf(w), LogsOf(w), a, b);
  }

  /** A target's hit and a searcher's are two transactions, so the leader put one in front. */
  lemma OnePrecedes(w: SlotWatch, target: Hit, searcher: Hit)
    requires w.Valid() && w.honest && LeaderSlot(w.tx, w.leader)
    requires target in w.race.hits && searcher in w.race.hits && target.role != searcher.role
    ensures var x, y := Standing(HeadsOf(w), LogsOf(w), target), Standing(HeadsOf(w), LogsOf(w), searcher);
            Precedes(x, y) || Precedes(y, x)
  {
    hide LeaderSlot, AllFair, Tallies, Located, Faithful, SlotWatch.Valid, ToldBefore, Head, Shift, Kept, Total, Mine;
    WatchIsFair(w);
    HitStands(w.tx, w.leader, w.wallets, w.race.batches, w.race.hits, HeadsOf(w), LogsOf(w), target);
    HitStands(w.tx, w.leader, w.wallets, w.race.batches, w.race.hits, HeadsOf(w), LogsOf(w), searcher);
    var x, y := Standing(HeadsOf(w), LogsOf(w), target), Standing(HeadsOf(w), LogsOf(w), searcher);
    if !Precedes(x, y) && !Precedes(y, x) {
      OneRole(w.wallets, x.firstShred, Mine(w.tx, w.leader, x.firstShred), x, y);
    }
  }

  lemma OneRole(wallets: Wallets, s: nat, mine: seq<Entry>, x: Hit, y: Hit)
    requires Faithful(wallets, s, mine, x) && Faithful(wallets, s, mine, y)
    requires x.entry == y.entry && x.transaction == y.transaction
    ensures x.role == y.role
  {
  }

  /** The extra of a line, which lies between the hit the leader put in front and the other. */
  ghost function ExtraOf(w: SlotWatch, target: Hit, searcher: Hit, unit: Unit): int
    reads w, w.race
    requires |HeadsOf(w)| == |LogsOf(w)|
  {
    var heads, logs := HeadsOf(w), LogsOf(w);
    if Precedes(Standing(heads, logs, target), Standing(heads, logs, searcher))
    then Extra(w.race.batches, heads, logs, target, searcher, unit)
    else -Extra(w.race.batches, heads, logs, searcher, target, unit)
  }

  /** Any line of any race that claims to be exact: both its gaps are the leader's own and their
      extra, so each is right if and only if its extra, which names only what was told, is nothing. */
  lemma AnyLineIsRightExactlyWhen(w: SlotWatch, target: Hit, searcher: Hit)
    requires w.Valid() && w.honest && LeaderSlot(w.tx, w.leader)
    requires target in w.race.hits && searcher in w.race.hits && target.role != searcher.role
    ensures Located(w.race.batches, target) && Located(w.race.batches, searcher)
    ensures var whole, line := LeaderSpans(w.tx, w.leader), LineOf(w.race.batches, target, searcher);
            var x, y := Standing(HeadsOf(w), LogsOf(w), target), Standing(HeadsOf(w), LogsOf(w), searcher);
            && w.IsTheLeaders(x) && w.IsTheLeaders(y) && Located(whole, x) && Located(whole, y)
            && (line.exact ==>
                  && line.txGap == TransactionsBefore(whole, y) - TransactionsBefore(whole, x)
                                   + ExtraOf(w, target, searcher, Transactions)
                  && line.entryGap == EntriesBefore(whole, y) - EntriesBefore(whole, x)
                                      + ExtraOf(w, target, searcher, Entries))
  {
    hide LeaderSlot, LeaderSpans, Tiled, TransactionsBefore, EntriesBefore, Located, Faithful, Extra, SlotWatch.Valid,
         OneShot, RunOf, ToldBefore, Head;
    WatchIsFair(w);
    OnePrecedes(w, target, searcher);
    if Precedes(Standing(HeadsOf(w), LogsOf(w), target), Standing(HeadsOf(w), LogsOf(w), searcher)) {
      AnyRaceFallsShort(w, target, searcher);
    } else {
      AnyRaceFallsShort(w, searcher, target);
    }
  }

  // ---------------------------------------------------------------- when nothing is extra

  /** Of this batch no two buffers told this race entries, and none had told races before any. */
  ghost predicate OneTelling(heads: seq<seq<DecodedBatch>>, logs: seq<seq<DecodedBatch>>, s: nat) {
    && (forall k :: 0 <= k < |heads| ==> EntriesOf(heads[k], s) == [])
    && |EntriesOf(Flat(logs), s)| == |Longest(logs, s)|
  }

  lemma {:induction false} LongestFits(logs: seq<seq<DecodedBatch>>, s: nat)
    ensures |Longest(logs, s)| <= |EntriesOf(Flat(logs), s)|
    ensures |EntriesOf(Flat(logs), s)| == |Longest(logs, s)| ==> EntriesOf(Flat(logs), s) == Longest(logs, s)
    decreases |logs|
  {
    hide EntriesOf;
    if logs == [] {
      NothingTold(s);
    } else {
      LastOf(logs, s);
      LongestFits(logs[..|logs| - 1], s);
    }
  }

  lemma {:induction false} HeadlessIsAll(heads: seq<seq<DecodedBatch>>, logs: seq<seq<DecodedBatch>>, s: nat)
    requires |heads| == |logs| && forall k :: 0 <= k < |heads| ==> EntriesOf(heads[k], s) == []
    ensures Longest(Both(heads, logs), s) == Longest(logs, s)
    decreases |logs|
  {
    hide EntriesOf, Both;
    if logs != [] {
      var k := |logs| - 1;
      BothLast(heads, logs, s);
      HeadlessIsAll(heads[..k], logs[..k], s);
      assert EntriesOf(heads[k], s) + EntriesOf(logs[k], s) == EntriesOf(logs[k], s);
    }
  }

  /** Only of a batch told by two can an entry have others of its batch told before its buffer. */
  lemma {:induction false} OnceHasNoneBefore(heads: seq<seq<DecodedBatch>>, logs: seq<seq<DecodedBatch>>, s: nat,
                                             m: nat)
    requires |heads| == |logs| && m < |EntriesOf(Flat(logs), s)|
    ensures ToldBefore(logs, s, m) != [] ==> |EntriesOf(Flat(logs), s)| > |Longest(logs, s)|
    ensures (forall k :: 0 <= k < |heads| ==> EntriesOf(heads[k], s) == []) ==> Head(heads, logs, s, m) == []
    decreases |logs|
  {
    hide EntriesOf;
    if logs == [] {
      NothingTold(s);
    } else {
      var k := |logs| - 1;
      LastOf(logs, s);
      LongestFits(logs[..k], s);
      if m < |EntriesOf(Flat(logs[..k]), s)| { OnceHasNoneBefore(heads[..k], logs[..k], s, m); }
    }
  }

  /** Such a hit stands where the race has it. */
  lemma OneTellingStands(wallets: Wallets, batches: map<nat, Span>, hits: seq<Hit>, heads: seq<seq<DecodedBatch>>,
                         logs: seq<seq<DecodedBatch>>, hit: Hit)
    requires |heads| == |logs| && Tallies(wallets, batches, hits, Flat(logs)) && hit in hits
    requires OneTelling(heads, logs, hit.firstShred)
    ensures Standing(heads, logs, hit) == hit
    ensures Shift(heads, logs, hit, Transactions) == 0 == Shift(heads, logs, hit, Entries)
  {
    hide Tallies, Located;
    HitsAreWhereTheySay(wallets, batches, hits, Flat(logs), hit);
    OnceHasNoneBefore(heads, logs, hit.firstShred, hit.entry);
  }

  lemma {:induction false} OneTellingSumsUp(wallets: Wallets, batches: map<nat, Span>, hits: seq<Hit>,
                                            heads: seq<seq<DecodedBatch>>, logs: seq<seq<DecodedBatch>>, lo: nat,
                                            hi: nat, unit: Unit)
    requires |heads| == |logs| && Tallies(wallets, batches, hits, Flat(logs))
    requires forall s: nat :: lo <= s < hi ==> OneTelling(heads, logs, s)
    ensures SumOver(Kept(batches, Both(heads, logs)), lo, hi, unit) == SumOver(batches, lo, hi, unit)
    decreases hi
  {
    hide Tallies, Longest, EntriesOf, Both;
    if lo < hi {
      var s := hi - 1;
      OneTellingSumsUp(wallets, batches, hits, heads, logs, lo, s, unit);
      assert OneTelling(heads, logs, s);
      if s in batches {
        LongestFits(logs, s);
        HeadlessIsAll(heads, logs, s);
        EntriesAre(wallets, batches, hits, Flat(logs), s);
      }
    }
  }

  /** If of every batch from that of the one hit to that of the other there was but one telling,
      nothing is extra between them. */
  lemma NothingExtra(wallets: Wallets, batches: map<nat, Span>, hits: seq<Hit>, heads: seq<seq<DecodedBatch>>,
                     logs: seq<seq<DecodedBatch>>, a: Hit, b: Hit, unit: Unit)
    requires |heads| == |logs| && Tallies(wallets, batches, hits, Flat(logs))
    requires a in hits && b in hits && a.firstShred <= b.firstShred
    requires forall s: nat :: a.firstShred <= s <= b.firstShred ==> OneTelling(heads, logs, s)
    ensures Extra(batches, heads, logs, a, b, unit) == 0
  {
    hide Tallies, OneTelling, Kept, Both, Shift, Standing;
    OneTellingSumsUp(wallets, batches, hits, heads, logs, a.firstShred, b.firstShred, unit);
    OneTellingStands(wallets, batches, hits, heads, logs, a);
    OneTellingStands(wallets, batches, hits, heads, logs, b);
    assert unit == Transactions || unit == Entries;
  }

  // ---------------------------------------------------------------- when every shred is in

  /** Once the buffer now in place has every shred, and told no race before any, the race knows every
      batch to its end. */
  lemma DeliveredReaches(w: SlotWatch, s: nat)
    requires w.Valid() && w.honest && w.reported == []
    requires LeaderSlot(w.tx, w.leader) && w.leader.Keys <= w.buffer.held.Keys && s in LeaderSpans(w.tx, w.leader)
    ensures s in w.race.batches && w.race.batches[s].lastShred == LeaderSpans(w.tx, w.leader)[s].lastShred
    ensures w.race.batches[s].entries == CountsOf(EntriesOf(Flat(LogsOf(w)), s))
  {
    hide Booked, Tallies, AllFair, Flat, AgreesWith, LeaderSlot, LeaderSpan, StartsOf, RunOf, OneShot, BatchSound,
         EntriesOf, EndsOf, SlotWatch.Valid, Longest, Greatest;
    w.HonestyAgrees();
    w.ValidIsTold();
    WatchIsFair(w);
    ToldFacts(w.tx, w.buffer.held, w.buffer.starts, w.buffer.progress, w.buffer.accounts, [], w.current);
    ToldAt(w.tx, w.buffer.held, w.buffer.starts, w.buffer.progress, w.buffer.accounts, [], w.current, s);
    LeaderStartIsHeldStart(w.leader, w.buffer.held, s);
    DeliveredIsWhole(w.tx, w.buffer.held, w.leader, s, w.buffer.ProgressOf(s), w.buffer.AccountOf(s));
    NothingTold(s);
    assert [] + EndsOf(w.current, s) == EndsOf(w.current, s);
    LogsEnd(w, s);
    GreatestOfBoth(EndsOf(Flat(w.dropped), s), EndsOf(w.current, s));
    TalliedFor(w.wallets, w.race.batches, w.race.hits, Flat(LogsOf(w)), s);
    KeptAt(w.tx, w.leader, w.wallets, w.race.batches, w.race.hits, HeadsOf(w), LogsOf(w), s);
  }

  lemma LogsEnd(w: SlotWatch, s: nat)
    ensures EntriesOf(Flat(LogsOf(w)), s) == EntriesOf(Flat(w.dropped), s) + EntriesOf(w.current, s)
    ensures EndsOf(Flat(LogsOf(w)), s) == EndsOf(Flat(w.dropped), s) + EndsOf(w.current, s)
  {
    LastOf(LogsOf(w), s);
    assert LogsOf(w)[..|LogsOf(w)| - 1] == w.dropped;
  }

  lemma TalliedFor(wallets: Wallets, batches: map<nat, Span>, hits: seq<Hit>, log: seq<DecodedBatch>, s: nat)
    requires Tallies(wallets, batches, hits, log) && EndsOf(log, s) != []
    ensures s in batches && batches[s] == Span(Greatest(EndsOf(log, s)), CountsOf(EntriesOf(log, s)))
    ensures HitsAt(hits, s) == HitsIn(wallets, s, EntriesOf(log, s))
  {
    assert TalliedAt(wallets, batches, hits, log, s);
  }

  lemma OnlyLeaders(w: SlotWatch)
    requires w.Valid() && w.honest && LeaderSlot(w.tx, w.leader)
    ensures w.race.batches.Keys <= LeaderSpans(w.tx, w.leader).Keys
  {
    hide SlotWatch.Valid, LeaderSlot, LeaderSpans, Flat, AllFair, Tallies, Longest;
    WatchIsFair(w);
    forall s | s in w.race.batches
      ensures s in LeaderSpans(w.tx, w.leader)
    {
      KeptAt(w.tx, w.leader, w.wallets, w.race.batches, w.race.hits, HeadsOf(w), LogsOf(w), s);
    }
  }
}
