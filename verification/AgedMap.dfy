/** A map with a stamp on every entry: a sweep drops what is too old, and of too many the oldest. */
module AgedMaps {
  import opened Collections

  /** Milliseconds between sweeps. */
  const SWEEP_INTERVAL := 200

  datatype Aged<V> = Aged(updated: nat, value: V)

  /** A clock reading that has not been reached yet is no time ago. */
  function Since(now: nat, earlier: nat): nat {
    if now >= earlier then now - earlier else 0
  }

  /** At least so long ago just if it was over by now. */
  lemma SinceThen(now: nat, earlier: nat, span: nat)
    requires span > 0
    ensures Since(now, earlier) >= span <==> earlier + span <= now
  {
  }

  function Young<K, V>(m: map<K, Aged<V>>, now: nat, retention: nat): map<K, Aged<V>> {
    map k | k in m && Since(now, m[k].updated) < retention :: m[k]
  }

  function Expired<K, V>(m: map<K, Aged<V>>, now: nat, retention: nat): map<K, V> {
    map k | k in m && !(Since(now, m[k].updated) < retention) :: m[k].value
  }

  function NotBefore<K, V>(m: map<K, Aged<V>>, cutoff: nat): map<K, Aged<V>> {
    map k | k in m && m[k].updated >= cutoff :: m[k]
  }

  // ---------------------------------------------------------------- order statistics

  function CountAtLeast(s: seq<nat>, c: nat): nat {
    if s == [] then 0 else (if s[0] >= c then 1 else 0) + CountAtLeast(s[1..], c)
  }

  ghost predicate Sorted(s: seq<nat>) {
    forall i, j :: 0 <= i < j < |s| ==> s[i] <= s[j]
  }

  function InsertSorted(s: seq<nat>, x: nat): (r: seq<nat>)
    requires Sorted(s)
    ensures Sorted(r) && |r| == |s| + 1
    ensures forall i :: 0 <= i < |r| ==> r[i] == x || r[i] in s
  {
    if s == [] || x <= s[0] then [x] + s else [s[0]] + InsertSorted(s[1..], x)
  }

  function Sort(s: seq<nat>): (r: seq<nat>)
    ensures Sorted(r) && |r| == |s|
  {
    if s == [] then [] else InsertSorted(Sort(s[1..]), s[0])
  }

  lemma {:induction false} InsertCounts(s: seq<nat>, x: nat, c: nat)
    requires Sorted(s)
    ensures CountAtLeast(InsertSorted(s, x), c) == CountAtLeast(s, c) + if x >= c then 1 else 0
    decreases |s|
  {
    if s == [] || x <= s[0] {
      assert ([x] + s)[1..] == s;
    } else {
      InsertCounts(s[1..], x, c);
      var rest := InsertSorted(s[1..], x);
      assert ([s[0]] + rest)[1..] == rest;
    }
  }

  lemma {:induction false} SortCounts(s: seq<nat>, c: nat)
    ensures CountAtLeast(Sort(s), c) == CountAtLeast(s, c)
    decreases |s|
  {
    if s != [] {
      SortCounts(s[1..], c);
      InsertCounts(Sort(s[1..]), s[0], c);
    }
  }

  lemma {:induction false} SortedCounts(s: seq<nat>, j: nat, c: nat)
    requires Sorted(s) && j < |s|
    ensures s[j] >= c ==> CountAtLeast(s, c) >= |s| - j
    ensures s[j] < c ==> CountAtLeast(s, c) < |s| - j
    decreases |s|
  {
    CountBounded(s[1..], c);
    if j > 0 {
      SortedCounts(s[1..], j - 1, c);
    } else if s[0] >= c && |s| > 1 {
      SortedCounts(s[1..], 0, c);
    }
  }

  lemma {:induction false} CountBounded(s: seq<nat>, c: nat)
    ensures CountAtLeast(s, c) <= |s|
    decreases |s|
  {
    if s != [] { CountBounded(s[1..], c); }
  }

  // ---------------------------------------------------------------- the cap

  /** `cutoff` is the stamp of the entry that is `cap`-th from the newest. */
  ghost predicate CapCutoff<K, V>(m: map<K, Aged<V>>, cap: nat, cutoff: nat) {
    |NotBefore(m, cutoff)| >= cap > |NotBefore(m, cutoff + 1)|
  }

  ghost predicate Distinct<K, V>(m: map<K, Aged<V>>) {
    forall j, k :: j in m && k in m && m[j].updated == m[k].updated ==> j == k
  }

  /** What the cap keeps: at least as many as it allows, exactly that many unless stamps tie,
      and nothing as old as anything it drops. */
  ghost predicate NewestOf<K, V>(kept: map<K, Aged<V>>, m: map<K, Aged<V>>, cap: nat) {
    && kept.Keys <= m.Keys && (forall k :: k in kept ==> kept[k] == m[k])
    && cap <= |kept|
    && (forall d, k :: d in m && d !in kept && k in kept ==> m[d].updated < kept[k].updated)
    && (Distinct(m) ==> |kept| == cap)
  }

  lemma CapKeepsTheNewest<K, V>(m: map<K, Aged<V>>, cap: nat, cutoff: nat)
    requires CapCutoff(m, cap, cutoff)
    ensures NewestOf(NotBefore(m, cutoff), m, cap)
  {
    if Distinct(m) {
      var kept, newer := NotBefore(m, cutoff), NotBefore(m, cutoff + 1);
      assert newer.Keys <= kept.Keys;
      assert kept.Keys != newer.Keys;
      var k :| k in kept.Keys && k !in newer.Keys;
      assert forall j :: j in kept.Keys && j !in newer.Keys ==> m[j].updated == cutoff;
      assert kept.Keys == newer.Keys + {k};
    }
  }

  lemma CountRemove<K, V>(m: map<K, Aged<V>>, k: K, c: nat)
    requires k in m
    ensures |NotBefore(m, c)| == |NotBefore(m - {k}, c)| + if m[k].updated >= c then 1 else 0
  {
    var all, rest := NotBefore(m, c), NotBefore(m - {k}, c);
    if m[k].updated >= c {
      assert all.Keys == rest.Keys + {k};
    } else {
      assert all == rest;
    }
  }

  /** The stamps of `rest` still to be collected make up the rest of the count, at every cutoff. */
  ghost predicate Collected<K, V>(m: map<K, Aged<V>>, rest: map<K, Aged<V>>, stamps: seq<nat>) {
    forall c: nat :: CountAtLeast(stamps, c) + |NotBefore(rest, c)| == |NotBefore(m, c)|
  }

  lemma CollectingOne<K, V>(m: map<K, Aged<V>>, rest: map<K, Aged<V>>, stamps: seq<nat>, k: K)
    requires k in rest && Collected(m, rest, stamps)
    ensures Collected(m, rest - {k}, [rest[k].updated] + stamps)
  {
    var more := [rest[k].updated] + stamps;
    assert more[1..] == stamps;
    forall c: nat
      ensures CountAtLeast(more, c) + |NotBefore(rest - {k}, c)| == |NotBefore(m, c)|
    {
      CountRemove(rest, k, c);
      assert CountAtLeast(stamps, c) + |NotBefore(rest, c)| == |NotBefore(m, c)|;
    }
  }

  lemma CutoffCounts(stamps: seq<nat>, cap: nat)
    requires 1 <= cap < |stamps|
    ensures var cutoff := Sort(stamps)[|stamps| - cap];
            CountAtLeast(stamps, cutoff) >= cap > CountAtLeast(stamps, cutoff + 1)
  {
    hide CountAtLeast, Sort;
    var sorted := Sort(stamps);
    var cutoff := sorted[|stamps| - cap];
    SortedCounts(sorted, |stamps| - cap, cutoff);
    SortedCounts(sorted, |stamps| - cap, cutoff + 1);
    SortCounts(stamps, cutoff);
    SortCounts(stamps, cutoff + 1);
  }

  lemma CutoffIsTheCaps<K, V>(m: map<K, Aged<V>>, rest: map<K, Aged<V>>, stamps: seq<nat>, cap: nat)
    requires rest.Keys == {} && Collected(m, rest, stamps) && 1 <= cap < |stamps|
    ensures CapCutoff(m, cap, Sort(stamps)[|stamps| - cap])
  {
    hide CountAtLeast, Sort;
    var cutoff := Sort(stamps)[|stamps| - cap];
    CutoffCounts(stamps, cap);
    assert NotBefore(rest, cutoff).Keys == {} && NotBefore(rest, cutoff + 1).Keys == {};
  }

  /** What a sweep leaves: nothing past retention, the newest if there are still too many, and
      an account of what aged out. */
  ghost predicate SweptTo<K, V>(before: map<K, Aged<V>>, after: map<K, Aged<V>>, expired: map<K, V>,
                                now: nat, retention: nat, cap: nat)
  {
    var young := Young(before, now, retention);
    && expired.Keys == before.Keys - young.Keys
    && (forall k :: k in expired ==> expired[k] == before[k].value)
    && (|young| <= cap ==> after == young)
    && (|young| > cap ==> NewestOf(after, young, cap))
    && (forall k :: k in after ==> Since(now, after[k].updated) < retention)
  }

  lemma AgingOutLeaves<K, V>(before: map<K, Aged<V>>, now: nat, retention: nat, cap: nat)
    ensures Young(before, now, retention).Keys <= before.Keys
    ensures forall k :: k in Young(before, now, retention) ==> Young(before, now, retention)[k] == before[k]
    ensures |Young(before, now, retention)| <= cap ==>
              SweptTo(before, Young(before, now, retention), Expired(before, now, retention), now, retention, cap)
  {
  }

  lemma CappingLeaves<K, V>(before: map<K, Aged<V>>, now: nat, retention: nat, cap: nat, cutoff: nat)
    requires |Young(before, now, retention)| > cap && CapCutoff(Young(before, now, retention), cap, cutoff)
    ensures var kept := NotBefore(Young(before, now, retention), cutoff);
            && SweptTo(before, kept, Expired(before, now, retention), now, retention, cap)
            && (forall k :: k in kept ==> k in before && kept[k] == before[k])
  {
    CapKeepsTheNewest(Young(before, now, retention), cap, cutoff);
  }

  /** Nothing young is let go but to the cap. */
  ghost predicate DroppedRightly<K, V>(before: map<K, Aged<V>>, after: map<K, Aged<V>>, now: nat, retention: nat,
                                       cap: nat) {
    forall k :: k in before && k !in after ==> Since(now, before[k].updated) >= retention || |before| > cap
  }

  lemma SweepDropsRightly<K, V>(before: map<K, Aged<V>>, after: map<K, Aged<V>>, expired: map<K, V>,
                                now: nat, retention: nat, cap: nat)
    requires SweptTo(before, after, expired, now, retention, cap)
    ensures DroppedRightly(before, after, now, retention, cap)
  {
    SubsetSize(Young(before, now, retention).Keys, before.Keys);
  }

  /** One entry was just stamped; whatever else is left is as it was. */
  ghost predicate OneTouched<K, V>(before: map<K, Aged<V>>, after: map<K, Aged<V>>, key: K, now: nat) {
    && key in after && after[key].updated == now
    && forall k :: k in after && k != key ==> k in before && after[k] == before[k]
  }

  lemma TouchingOne<K, V>(before: map<K, Aged<V>>, kept: map<K, Aged<V>>, key: K, now: nat, v: V)
    requires forall k :: k in kept ==> k in before && kept[k] == before[k]
    ensures OneTouched(before, kept[key := Aged(now, v)], key, now)
  {
  }

  lemma KeepingDropsNothing<K, V>(m: map<K, Aged<V>>, now: nat, retention: nat, cap: nat)
    ensures DroppedRightly(m, m, now, retention, cap)
  {
  }

  lemma TouchingDropsNothing<K, V>(before: map<K, Aged<V>>, after: map<K, Aged<V>>, k: K, entry: Aged<V>,
                                   now: nat, retention: nat, cap: nat)
    requires DroppedRightly(before, after, now, retention, cap)
    ensures DroppedRightly(before, after[k := entry], now, retention, cap)
  {
  }

  // ---------------------------------------------------------------- the map

  class AgedMap<K(==), V> {
    var entries: map<K, Aged<V>>
    const retention: nat
    const cap: nat
    var lastSwept: nat

    constructor (retention: nat, cap: nat, now: nat)
      requires cap >= 1
      ensures entries == map[] && this.retention == retention && this.cap == cap && lastSwept == now
    {
      entries, lastSwept := map[], now;
      this.retention, this.cap := retention, cap;
    }

    /** Finds the entry under `key` or puts `created` there; its stamp becomes `now`, and no other
        entry changes. */
    method Upsert(key: K, now: nat, created: V) returns (value: V)
      modifies this`entries
      ensures value == if key in old(entries) then old(entries)[key].value else created
      ensures entries == old(entries)[key := Aged(now, value)]
    {
      value := if key in entries then entries[key].value else created;
      entries := entries[key := Aged(now, value)];
    }

    method Cutoff() returns (cutoff: nat)
      requires 1 <= cap < |entries|
      ensures CapCutoff(entries, cap, cutoff)
    {
      var stamps: seq<nat> := [];
      var rest := entries;
      while rest != map[]
        invariant Collected(entries, rest, stamps)
        invariant |stamps| + |rest| == |entries|
        decreases |rest|
      {
        var k :| k in rest;
        CollectingOne(entries, rest, stamps, k);
        stamps := [rest[k].updated] + stamps;
        rest := rest - {k};
      }
      CutoffIsTheCaps(entries, rest, stamps, cap);
      cutoff := Sort(stamps)[|stamps| - cap];
    }

    /** Ages out entries past retention, then enforces the cap. Says whether it ran, and what
        aged out; what the cap drops is not among that. */
    method Sweep(now: nat) returns (swept: bool, expired: map<K, V>)
      requires cap >= 1
      modifies this`entries, this`lastSwept
      ensures swept <==> Since(now, old(lastSwept)) >= SWEEP_INTERVAL || old(|entries|) > cap
      ensures !swept ==> entries == old(entries) && lastSwept == old(lastSwept) && expired == map[]
      ensures swept ==> lastSwept == now && SweptTo(old(entries), entries, expired, now, retention, cap)
      ensures forall k :: k in entries ==> k in old(entries) && entries[k] == old(entries)[k]
      ensures DroppedRightly(old(entries), entries, now, retention, cap)
    {
      hide SweptTo, CapCutoff, Young, Expired, NotBefore, Since, DroppedRightly;
      AgingOutLeaves(entries, now, retention, cap);
      KeepingDropsNothing(entries, now, retention, cap);
      if Since(now, lastSwept) < SWEEP_INTERVAL && |entries| <= cap {
        return false, map[];
      }
      lastSwept := now;
      expired := Expired(entries, now, retention);
      entries := Young(entries, now, retention);
      if |entries| > cap {
        var cutoff := Cutoff();
        CappingLeaves(old(entries), now, retention, cap, cutoff);
        entries := NotBefore(entries, cutoff);
      }
      swept := true;
      SweepDropsRightly(old(entries), entries, expired, now, retention, cap);
    }
  }
}
