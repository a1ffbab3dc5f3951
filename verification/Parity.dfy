/** A code with one coding shard over any number of data shards, to show that the laws asked of
    an erasure code can be met with more than one of them: the coding shard adds the data shards
    up, byte by byte. */
module Parities {
  import opened Bytes
  import opened Collections
  import opened Erasure

  function ByteAt(shard: Shard, c: nat): nat {
    if c < |shard| then shard[c] as nat else 0
  }

  function Column(data: seq<Shard>, c: nat): nat {
    if data == [] then 0 else Column(data[..|data| - 1], c) + ByteAt(data[|data| - 1], c)
  }

  /** What added to the columns of `data` makes them come to `target`. */
  function Rest(target: Shard, data: seq<Shard>): (rest: Shard)
    ensures |rest| == |target|
    ensures forall c :: 0 <= c < |target| ==>
              rest[c] as nat == (target[c] as int - Column(data, c)) % 256
  {
    seq(|target|, c requires 0 <= c < |target| => ((target[c] as int - Column(data, c)) % 256) as byte)
  }

  /** The columns added up, as long as the first shard is. */
  function Added(data: seq<Shard>): (sum: Shard)
    requires data != []
    ensures |sum| == |data[0]|
    ensures forall c :: 0 <= c < |sum| ==> sum[c] as nat == Column(data, c) % 256
  {
    seq(|data[0]|, c requires 0 <= c < |data[0]| => (Column(data, c) % 256) as byte)
  }

  /** The first data place with nothing in it. */
  function Gap(slots: Slots, n: nat): (k: nat)
    requires n <= |slots|
    ensures k <= n && (k < n ==> slots[k].None?) && forall i :: 0 <= i < k ==> slots[i].Some?
  {
    if n == 0 then 0
    else
      var k := Gap(slots, n - 1);
      if k < n - 1 || slots[n - 1].None? then k else n
  }

  function Solved(n: nat, slots: Slots): Option<Slots> {
    if |slots| != n + 1 then None else
      var k := Gap(slots, n);
      if k == n then Some(slots)
      else if Gap(slots[k := Some([])], n) < n || slots[n].None? then None
      else Some(slots[k := Some(Rest(slots[n].value, WordOf(slots[k := Some([])], n)))])
  }

  function Parity(): Coder {
    Coder((n: nat, m: nat) => n > 0 && m == 1,
          (m: nat, data: seq<Shard>) => if data == [] then [] else [Added(data)],
          (n: nat, m: nat, slots: Slots) => Solved(n, slots))
  }

  lemma SolvedFills(n: nat, slots: Slots)
    requires Solved(n, slots).Some?
    ensures Filled(slots, Solved(n, slots).value, n)
  {
    hide Rest, WordOf;
    var k := Gap(slots, n);
    if k < n {
      var filled := slots[k := Some([])];
      assert forall i :: 0 <= i < n && i != k ==> filled[i].Some? && filled[i] == slots[i];
    }
  }

  lemma ParityFills()
    ensures Fills(Parity())
  {
    hide Solved, Added;
    var code := Parity();
    forall n: nat, m: nat, slots: Slots |
      code.supports(n, m) && |slots| == n + m && code.reconstruct(n, m, slots).Some?
      ensures Filled(slots, code.reconstruct(n, m, slots).value, n)
    {
      SolvedFills(n, slots);
    }
  }

  lemma ParityCodesUniformly()
    ensures CodesUniformly(Parity())
  {
    hide Column;
  }

  // ---------------------------------------------------------------- columns

  lemma {:induction false} ColumnWith(data: seq<Shard>, k: nat, shard: Shard, c: nat)
    requires k < |data|
    ensures Column(data[k := shard], c) + ByteAt(data[k], c) == Column(data, c) + ByteAt(shard, c)
    decreases |data|
  {
    var last := |data| - 1;
    var with := data[k := shard];
    if k < last {
      ColumnWith(data[..last], k, shard, c);
      assert with[..last] == data[..last][k := shard];
    } else {
      assert with[..last] == data[..last];
    }
  }

  /** Two words alike in all places but one, and in their sums, are alike. */
  lemma SumDecides(u: seq<Shard>, v: seq<Shard>, k: nat, len: nat)
    requires |u| == |v| && k < |u| && Uniform(u, len) && Uniform(v, len)
    requires forall i :: 0 <= i < |u| && i != k ==> u[i] == v[i]
    requires Added(u) == Added(v)
    ensures u == v
  {
    hide Column;
    assert v == u[k := v[k]];
    forall c | 0 <= c < len
      ensures u[k][c] == v[k][c]
    {
      ColumnWith(u, k, v[k], c);
      assert Added(u)[c] == Added(v)[c];
      SameResidue(Column(u, c), Column(v, c), u[k][c], v[k][c]);
    }
    assert u[k] == v[k];
  }

  lemma SameResidue(a: nat, b: nat, x: byte, y: byte)
    requires a % 256 == b % 256 && b + x as nat == a + y as nat
    ensures x == y
  {
  }

  /** The rest put in the gap makes the sum what it should be. */
  lemma RestFits(word: seq<Shard>, k: nat, target: Shard)
    requires k < |word| && word[k] == []
    requires |target| == |word[k := Rest(target, word)][0]|
    ensures Added(word[k := Rest(target, word)]) == target
  {
    hide Column;
    var rest := Rest(target, word);
    var sum := Added(word[k := rest]);
    forall c | 0 <= c < |target|
      ensures sum[c] == target[c]
    {
      ColumnWith(word, k, rest, c);
      RestAdds(target[c], Column(word, c), rest[c]);
    }
  }

  lemma RestAdds(target: byte, column: nat, rest: byte)
    requires rest as int == (target as int - column) % 256
    ensures (column + rest as nat) % 256 == target as nat
  {
  }

  // ---------------------------------------------------------------- the laws

  /** As many places as there are data shards, and one is not among them: all the others are. */
  lemma AllButOne(places: set<nat>, n: nat, k: nat)
    requires k <= n && |places| >= n && forall i :: i in places ==> i <= n && i != k
    ensures forall i: nat :: i <= n && i != k ==> i in places
  {
    FitsBelow(places + {k}, n + 1);
    AllThere(places + {k}, n + 1);
  }

  lemma ParityIsDetermined()
    ensures Determined(Parity())
  {
    hide Added;
    var code := Parity();
    forall m: nat, len: nat, u: seq<Shard>, v: seq<Shard>, places: set<nat> |
      code.supports(|u|, m) && |u| == |v| && Uniform(u, len) && Uniform(v, len) && |places| >= |u|
      && AgreeAt(Codeword(code, m, u), Codeword(code, m, v), places)
      ensures u == v
    {
      PlacesDetermine(u, v, len, places);
    }
  }

  lemma PlacesDetermine(u: seq<Shard>, v: seq<Shard>, len: nat, places: set<nat>)
    requires u != [] && |u| == |v| && Uniform(u, len) && Uniform(v, len) && |places| >= |u|
    requires AgreeAt(u + [Added(u)], v + [Added(v)], places)
    ensures u == v
  {
    hide Added;
    var all, others := u + [Added(u)], v + [Added(v)];
    if k: nat :| k < |u| && k !in places {
      AllButOne(places, |u|, k);
      assert all[|u|] == others[|u|];
      forall i | 0 <= i < |u| && i != k
        ensures u[i] == v[i]
      {
        assert all[i] == others[i];
      }
      SumDecides(u, v, k, len);
    } else {
      forall i | 0 <= i < |u|
        ensures u[i] == v[i]
      {
        assert all[i] == others[i];
      }
    }
  }

  lemma ParitySolves()
    ensures Solves(Parity())
  {
    hide Solved, Added;
    var code := Parity();
    forall n: nat, m: nat, len: nat, slots: Slots |
      code.supports(n, m) && |slots| == n + m && Even(slots, len) && |Present(slots)| >= n
      ensures code.reconstruct(n, m, slots).Some? && n <= |code.reconstruct(n, m, slots).value|
      ensures var word := WordOf(code.reconstruct(n, m, slots).value, n);
              Uniform(word, len) && LeadsFit(slots, Codeword(code, m, word), n)
    {
      if Gap(slots, n) == n {
        NothingToSolve(n, len, slots);
      } else {
        OneToSolve(n, len, slots);
      }
    }
  }

  lemma NothingToSolve(n: nat, len: nat, slots: Slots)
    requires n > 0 && |slots| == n + 1 && Even(slots, len) && Gap(slots, n) == n
    ensures Solved(n, slots) == Some(slots)
    ensures var word := WordOf(slots, n); Uniform(word, len) && LeadsFit(slots, word + [Added(word)], n)
  {
    hide Added;
    var word := WordOf(slots, n);
    if Leading(slots, n, n) {
      AllPresent(slots[..n]);
    }
  }

  lemma {:induction false} AllPresent(slots: Slots)
    requires forall i :: 0 <= i < |slots| ==> slots[i].Some?
    ensures |Present(slots)| == |slots|
    decreases |slots|
  {
    if slots != [] {
      var k := |slots| - 1;
      AllPresent(slots[..k]);
      assert Present(slots) == Present(slots[..k]) + {k};
    }
  }

  lemma OneToSolve(n: nat, len: nat, slots: Slots)
    requires n > 0 && |slots| == n + 1 && Even(slots, len) && |Present(slots)| >= n && Gap(slots, n) < n
    ensures Solved(n, slots).Some? && n <= |Solved(n, slots).value|
    ensures var word := WordOf(Solved(n, slots).value, n);
            Uniform(word, len) && LeadsFit(slots, word + [Added(word)], n)
  {
    hide Added, Rest;
    var k := Gap(slots, n);
    AllButOne(Present(slots), n, k);
    forall i: nat | i <= n && i != k
      ensures slots[i].Some?
    {
      assert i in Present(slots);
    }
    assert Gap(slots[k := Some([])], n) == n;
    var bare, target := WordOf(slots[k := Some([])], n), slots[n].value;
    var rest := Rest(target, bare);
    var word := WordOf(Solved(n, slots).value, n);
    assert word == bare[k := rest];
    RestFits(bare, k, target);
  }

  lemma ParityIsLawful()
    ensures Lawful(Parity())
    ensures forall n: nat :: n > 0 ==> Parity().supports(n, 1)
  {
    hide Fills, CodesUniformly, Solves, Determined;
    ParityFills();
    ParityCodesUniformly();
    ParitySolves();
    ParityIsDetermined();
  }
}
