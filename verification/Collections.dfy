/** Facts about finite sets, maps and sequences that more than one component needs.
    The program's ordered maps (`BTreeMap`, `BTreeSet`) are modelled as a `map` or `set`
    walked in the order `SortedKeys` gives. */
module Collections {

  datatype Option<+T> = None | Some(value: T)

  function Max(a: nat, b: nat): nat { if a >= b then a else b }

  function Min(a: nat, b: nat): nat { if a <= b then a else b }

  lemma {:induction false} SubsetSize<T>(a: set<T>, b: set<T>)
    requires a <= b
    ensures |a| <= |b|
    decreases |a|
  {
    if a != {} {
      var k :| k in a;
      SubsetSize(a - {k}, b - {k});
    }
  }

  lemma {:induction false} LeastMember(s: set<nat>) returns (m: nat)
    requires s != {}
    ensures m in s && forall k :: k in s ==> m <= k
    decreases |s|
  {
    m :| m in s;
    var rest := s - {m};
    if rest == {} {
      assert s == {m};
    } else {
      var other := LeastMember(rest);
      assert forall k :: k in s ==> k == m || k in rest;
      m := if m <= other then m else other;
    }
  }

  lemma HasLeast(s: set<nat>)
    requires s != {}
    ensures exists m :: m in s && forall k :: k in s ==> m <= k
  {
    var _ := LeastMember(s);
  }

  function MinOf(s: set<nat>): (m: nat)
    requires s != {}
    ensures m in s && forall k :: k in s ==> m <= k
  {
    HasLeast(s);
    var m :| m in s && forall k :: k in s ==> m <= k;
    m
  }

  ghost predicate Ascending(s: seq<nat>) {
    forall i, j :: 0 <= i < j < |s| ==> s[i] < s[j]
  }

  /** The members of `s` in ascending order: the order an ordered map hands them out. */
  function SortedKeys(s: set<nat>): (r: seq<nat>)
    ensures Ascending(r)
    ensures forall k :: k in r <==> k in s
    ensures |r| == |s|
    decreases |s|
  {
    if s == {} then [] else
      var m := MinOf(s);
      [m] + SortedKeys(s - {m})
  }

  ghost function Sum<K>(m: map<K, nat>): nat
    decreases |m|
  {
    if m == map[] then 0 else
      var k :| k in m;
      m[k] + Sum(m - {k})
  }

  lemma SumOfNothing<K>(m: map<K, nat>)
    requires m.Keys == {}
    ensures Sum(m) == 0
  {
  }

  lemma {:induction false} SumRemove<K>(m: map<K, nat>, k: K)
    requires k in m
    ensures Sum(m) == m[k] + Sum(m - {k})
    decreases |m|
  {
    var j :| j in m && Sum(m) == m[j] + Sum(m - {j});
    if j != k {
      SumRemove(m - {j}, k);
      SumRemove(m - {k}, j);
      assert (m - {j}) - {k} == (m - {k}) - {j};
    }
  }

  lemma SumUpdate<K>(m: map<K, nat>, k: K, v: nat)
    ensures Sum(m[k := v]) == v + (if k in m then Sum(m) - m[k] else Sum(m))
  {
    SumRemove(m[k := v], k);
    if k in m {
      SumRemove(m, k);
      assert m[k := v] - {k} == m - {k};
    } else {
      assert m[k := v] - {k} == m;
    }
  }

  lemma {:induction false} SumShrinks<K>(m: map<K, nat>, big: map<K, nat>)
    requires m.Keys <= big.Keys
    requires forall k :: k in m ==> m[k] <= big[k]
    ensures Sum(m) <= Sum(big)
    decreases |big|
  {
    if big != map[] {
      var k :| k in big;
      SumRemove(big, k);
      if k in m {
        SumRemove(m, k);
        SumShrinks(m - {k}, big - {k});
      } else {
        SumShrinks(m, big - {k});
      }
    } else {
      assert m == map[];
    }
  }
}
