/** Filling gaps from erasure coding: which shards of a batch are held, when they are enough,
    and what comes back. The code itself is a function that need only be lawful. */
module Erasure {
  import opened Bytes
  import opened Collections
  import opened AgedMaps
  import opened Shreds

  const MAX_SHARDS := 128
  const BATCH_LIFETIME := 2000
  const MAX_FEC_SETS := 1024

  type Shard = seq<byte>
  type Shards = map<nat, Shard>
  type Slots = seq<Option<Shard>>

  datatype Layout = Layout(numData: nat, numCoding: nat, shardLen: nat)

  // ---------------------------------------------------------------- the code

  /** An erasure code: the layouts it can be built for, the coding shards it computes for
      some data, and what it makes of a batch with shards missing. */
  datatype Coder = Coder(
    supports: (nat, nat) -> bool,
    encode: (nat, seq<Shard>) -> seq<Shard>,
    reconstruct: (nat, nat, Slots) -> Option<Slots>)

  /** The batch a leader cuts: its data shards and the coding shards over them. */
  ghost function Codeword(code: Coder, numCoding: nat, data: seq<Shard>): seq<Shard> {
    data + code.encode(numCoding, data)
  }

  ghost predicate Uniform(data: seq<Shard>, shardLen: nat) {
    forall i :: 0 <= i < |data| ==> |data[i]| == shardLen
  }

  function Present(slots: Slots): set<nat> {
    set i | 0 <= i < |slots| && slots[i].Some?
  }

  ghost predicate Filled(slots: Slots, whole: Slots, numData: nat) {
    && |whole| == |slots| && numData <= |slots|
    && (forall i :: 0 <= i < |slots| ==> slots[i].Some? ==> whole[i] == slots[i])
    && (forall i :: 0 <= i < numData ==> whole[i].Some?)
  }

  /** What reconstructing ever does: it fills in every data shard and leaves those present. */
  ghost predicate Fills(code: Coder) {
    forall n: nat, m: nat, slots: Slots ::
      code.supports(n, m) && |slots| == n + m && code.reconstruct(n, m, slots).Some? ==>
        Filled(slots, code.reconstruct(n, m, slots).value, n)
  }

  ghost predicate CodesUniformly(code: Coder) {
    forall m: nat, data: seq<Shard>, len: nat ::
      code.supports(|data|, m) && Uniform(data, len) ==>
        |code.encode(m, data)| == m && Uniform(code.encode(m, data), len)
  }

  /** The place at `i` is filled, and fewer than `n` before it are. */
  ghost predicate Leading(slots: Slots, n: nat, i: nat) {
    i < |slots| && slots[i].Some? && |Present(slots[..i])| < n
  }

  /** The first `n` places filled hold what `word` has there. */
  ghost predicate LeadsFit(slots: Slots, word: seq<Shard>, n: nat) {
    |slots| == |word| && forall i: nat :: Leading(slots, n, i) ==> slots[i].value == word[i]
  }

  ghost predicate Even(slots: Slots, shardLen: nat) {
    forall i :: 0 <= i < |slots| && slots[i].Some? ==> |slots[i].value| == shardLen
  }

  /** The data of a vector that has all of it. */
  function WordOf(whole: Slots, n: nat): (word: seq<Shard>)
    requires n <= |whole|
    ensures |word| == n
    ensures forall i :: 0 <= i < n && whole[i].Some? ==> word[i] == whole[i].value
  {
    seq(n, i requires 0 <= i < n => match whole[i] case Some(shard) => shard case None => [])
  }

  ghost predicate AgreeAt(a: seq<Shard>, b: seq<Shard>, places: set<nat>) {
    forall i :: i in places ==> i < |a| && i < |b| && a[i] == b[i]
  }

  /** Reconstructing goes by the first `numData` places filled: what comes out is the data of
      the codeword through those. */
  ghost predicate Solves(code: Coder) {
    forall n: nat, m: nat, len: nat, slots: Slots ::
      code.supports(n, m) && |slots| == n + m && Even(slots, len) && |Present(slots)| >= n ==>
        && code.reconstruct(n, m, slots).Some?
        && n <= |code.reconstruct(n, m, slots).value|
        && var word := WordOf(code.reconstruct(n, m, slots).value, n);
           Uniform(word, len) && LeadsFit(slots, Codeword(code, m, word), n)
  }

  /** Any `numData` places of a codeword determine its data. */
  ghost predicate Determined(code: Coder) {
    forall m: nat, len: nat, u: seq<Shard>, v: seq<Shard>, places: set<nat> ::
      (code.supports(|u|, m) && |u| == |v| && Uniform(u, len) && Uniform(v, len) && |places| >= |u|
       && AgreeAt(Codeword(code, m, u), Codeword(code, m, v), places)) ==> u == v
  }

  ghost predicate Lawful(code: Coder) {
    Fills(code) && CodesUniformly(code) && Solves(code) && Determined(code)
  }

  // The laws can be met: a code over one data shard that repeats it, and one over any number
  // of them that adds them up, in a module of its own.

  function Repeated(m: nat, shard: Shard): (r: seq<Shard>)
    ensures |r| == m && forall i :: 0 <= i < m ==> r[i] == shard
  {
    seq(m, _ => shard)
  }

  function FirstPresent(slots: Slots): (r: Option<Shard>)
    ensures r.None? ==> forall i :: 0 <= i < |slots| ==> slots[i].None?
    ensures r.Some? ==> exists i :: 0 <= i < |slots| && slots[i] == r
    ensures slots != [] && slots[0].Some? ==> r == slots[0]
  {
    if slots == [] then None else if slots[0].Some? then slots[0] else FirstPresent(slots[1..])
  }

  function Repetition(): Coder {
    Coder((n: nat, m: nat) => n == 1,
          (m: nat, data: seq<Shard>) => if data == [] then [] else Repeated(m, data[0]),
          (n: nat, m: nat, slots: Slots) =>
            match FirstPresent(slots)
            case None => None
            case Some(shard) => Some([Some(shard)] + slots[1..]))
  }

  lemma RepetitionFills()
    ensures Fills(Repetition()) && CodesUniformly(Repetition())
  {
  }

  lemma FirstPresentLeads(slots: Slots, i: nat)
    requires Leading(slots, 1, i)
    ensures FirstPresent(slots) == slots[i]
  {
    var before := slots[..i];
    forall j | 0 <= j < i
      ensures slots[j].None?
    {
      assert before[j].Some? ==> j in Present(before);
    }
    FirstAfterGaps(slots, i);
  }

  lemma {:induction false} FirstAfterGaps(slots: Slots, i: nat)
    requires i < |slots| && slots[i].Some? && forall j :: 0 <= j < i ==> slots[j].None?
    ensures FirstPresent(slots) == slots[i]
    decreases i
  {
    if i > 0 { FirstAfterGaps(slots[1..], i - 1); }
  }

  lemma RepetitionSolves()
    ensures Solves(Repetition())
  {
    var code := Repetition();
    forall n: nat, m: nat, len: nat, slots: Slots |
      code.supports(n, m) && |slots| == n + m && Even(slots, len) && |Present(slots)| >= n
      ensures code.reconstruct(n, m, slots).Some? && n <= |code.reconstruct(n, m, slots).value|
      ensures var word := WordOf(code.reconstruct(n, m, slots).value, n);
              Uniform(word, len) && LeadsFit(slots, Codeword(code, m, word), n)
    {
      assert Present(slots) != {};
      var some :| some in Present(slots);
      var word := WordOf(code.reconstruct(n, m, slots).value, n);
      assert word == [FirstPresent(slots).value];
      forall i: nat | Leading(slots, n, i)
        ensures slots[i].value == Codeword(code, m, word)[i]
      {
        FirstPresentLeads(slots, i);
      }
    }
  }

  lemma RepetitionIsDetermined()
    ensures Determined(Repetition())
  {
    var code := Repetition();
    forall m: nat, len: nat, u: seq<Shard>, v: seq<Shard>, places: set<nat> |
      code.supports(|u|, m) && |u| == |v| && Uniform(u, len) && Uniform(v, len) && |places| >= |u|
      && AgreeAt(Codeword(code, m, u), Codeword(code, m, v), places)
      ensures u == v
    {
      assert places != {};
      var i :| i in places;
    }
  }

  lemma RepetitionIsLawful()
    ensures Lawful(Repetition())
  {
    hide Fills, CodesUniformly, Solves, Determined;
    RepetitionFills();
    RepetitionSolves();
    RepetitionIsDetermined();
  }

  function Witness(): (code: Coder)
    ensures Lawful(code)
  {
    RepetitionIsLawful();
    Repetition()
  }

  type ErasureCode = code: Coder | Lawful(code) witness Witness()

  // ---------------------------------------------------------------- what a set of shards comes to

  predicate Counts(shards: Shards, i: nat, limit: nat, shardLen: nat) {
    i in shards && i < limit && |shards[i]| == shardLen
  }

  function UsableKeys(shards: Shards, limit: nat, shardLen: nat): set<nat> {
    set i | i in shards && Counts(shards, i, limit, shardLen)
  }

  function Usable(shards: Shards, limit: nat, shardLen: nat): nat {
    |UsableKeys(shards, limit, shardLen)|
  }

  /** Enough to reconstruct from, or nothing lost. */
  predicate Ready(data: Shards, coding: Shards, layout: Layout) {
    Usable(data, layout.numData, layout.shardLen) + Usable(coding, layout.numCoding, layout.shardLen) >= layout.numData
  }

  /** What lies at index `i` of the vector the code is given: a coding shard where one was
      received, and otherwise a data shard, whatever offset it claimed. */
  function PlacedAt(data: Shards, coding: Shards, layout: Layout, i: nat): Option<Shard> {
    if i >= layout.numData && Counts(coding, i - layout.numData, layout.numCoding, layout.shardLen) then
      Some(coding[i - layout.numData])
    else if Counts(data, i, layout.numData + layout.numCoding, layout.shardLen) then Some(data[i])
    else None
  }

  function Placed(data: Shards, coding: Shards, layout: Layout): (slots: Slots)
    ensures |slots| == layout.numData + layout.numCoding
    ensures forall i :: 0 <= i < |slots| ==> slots[i] == PlacedAt(data, coding, layout, i)
  {
    seq(layout.numData + layout.numCoding, i requires 0 <= i => PlacedAt(data, coding, layout, i))
  }

  function Missing(slots: Slots, numData: nat): set<nat>
    requires numData <= |slots|
  {
    set i | 0 <= i < numData && slots[i].None?
  }

  /** What comes back for a set that is ready: each data shard missing, if any was. */
  function Recovered(code: ErasureCode, data: Shards, coding: Shards, layout: Layout): (r: Shards)
    ensures forall i :: i in r ==> i < layout.numData
  {
    var slots := Placed(data, coding, layout);
    if Usable(data, layout.numData, layout.shardLen) == layout.numData then map[]
    else if !code.supports(layout.numData, layout.numCoding) then map[]
    else match code.reconstruct(layout.numData, layout.numCoding, slots)
      case None => map[]
      case Some(whole) =>
        assert Filled(slots, whole, layout.numData);
        map i | i in Missing(slots, layout.numData) :: whole[i].value
  }

  /** Shards in the order of their indices. */
  function InOrder(shards: Shards): (r: seq<Shard>)
    ensures |r| == |shards|
    ensures var keys := SortedKeys(shards.Keys);
            forall k :: 0 <= k < |r| ==> keys[k] in shards && r[k] == shards[keys[k]]
  {
    var keys := SortedKeys(shards.Keys);
    assert forall k :: 0 <= k < |keys| ==> keys[k] in keys;
    seq(|keys|, k requires 0 <= k < |keys| => shards[keys[k]])
  }

  // ---------------------------------------------------------------- honest sets, and strays

  /** Everything received of a batch is the leader's: its layout, its data shards, its coding
      shards, each at its own place. */
  ghost predicate Honest(code: ErasureCode, word: seq<Shard>, layout: Layout, data: Shards, coding: Shards) {
    && code.supports(layout.numData, layout.numCoding)
    && |word| == layout.numData && Uniform(word, layout.shardLen)
    && (forall i :: i in data ==> i < layout.numData && data[i] == word[i])
    && var parity := code.encode(layout.numCoding, word);
       |parity| == layout.numCoding && forall j :: j in coding ==> j < layout.numCoding && coding[j] == parity[j]
  }

  lemma HonestCounts(code: ErasureCode, word: seq<Shard>, layout: Layout, data: Shards, coding: Shards)
    requires Honest(code, word, layout, data, coding)
    ensures UsableKeys(data, layout.numData, layout.shardLen) == data.Keys
    ensures UsableKeys(coding, layout.numCoding, layout.shardLen) == coding.Keys
  {
    assert CodesUniformly(code);
    assert Uniform(code.encode(layout.numCoding, word), layout.shardLen);
  }

  function Shift(s: set<nat>, base: nat): set<nat> {
    set i | i in s :: i + base
  }

  lemma {:induction false} ShiftKeepsSize(s: set<nat>, base: nat)
    ensures |Shift(s, base)| == |s|
    decreases |s|
  {
    if s != {} {
      var k :| k in s;
      var rest := s - {k};
      ShiftKeepsSize(rest, base);
      assert forall i :: i in s <==> i == k || i in rest;
      assert Shift(s, base) == Shift(rest, base) + {k + base};
    }
  }

  lemma HonestPlaces(code: ErasureCode, word: seq<Shard>, layout: Layout, data: Shards, coding: Shards, i: nat)
    requires Honest(code, word, layout, data, coding)
    ensures i < layout.numData + layout.numCoding && PlacedAt(data, coding, layout, i).Some? <==>
            i in data.Keys + Shift(coding.Keys, layout.numData)
  {
    assert CodesUniformly(code);
    assert Uniform(code.encode(layout.numCoding, word), layout.shardLen);
    if i >= layout.numData && i - layout.numData in coding {
      assert i in Shift(coding.Keys, layout.numData);
    }
  }

  lemma HonestPresent(code: ErasureCode, word: seq<Shard>, layout: Layout, data: Shards, coding: Shards)
    requires Honest(code, word, layout, data, coding)
    ensures |Present(Placed(data, coding, layout))| == |data| + |coding|
  {
    hide Honest, PlacedAt;
    var present, shifted := Present(Placed(data, coding, layout)), Shift(coding.Keys, layout.numData);
    forall i: nat
      ensures i in present <==> i in data.Keys + shifted
    {
      HonestPlaces(code, word, layout, data, coding, i);
    }
    assert present == data.Keys + shifted;
    ShiftKeepsSize(coding.Keys, layout.numData);
    HonestApart(code, word, layout, data, coding);
  }

  lemma HonestApart(code: ErasureCode, word: seq<Shard>, layout: Layout, data: Shards, coding: Shards)
    requires Honest(code, word, layout, data, coding)
    ensures data.Keys !! Shift(coding.Keys, layout.numData)
  {
    assert CodesUniformly(code);
  }

  lemma {:induction false} AllThere(s: set<nat>, n: nat)
    requires |s| == n && forall i :: i in s ==> i < n
    ensures forall i :: 0 <= i < n ==> i in s
    decreases n
  {
    if n > 0 {
      var rest := s - {n - 1};
      FitsBelow(rest, n - 1);
      AllThere(rest, n - 1);
      assert forall i :: i in rest ==> i in s;
      forall i | 0 <= i < n
        ensures i in s
      {
        assert i < n - 1 ==> i in rest;
      }
    }
  }

  lemma {:induction false} FitsBelow(s: set<nat>, n: nat)
    requires forall i :: i in s ==> i < n
    ensures |s| <= n
    decreases n
  {
    if n == 0 {
      assert s == {};
    } else {
      FitsBelow(s - {n - 1}, n - 1);
    }
  }

  /** A data shard may claim any offset below the bound on a batch. One that claims to lie
      past the data takes the place of the coding shard there, if none was received. */
  ghost predicate Stray(data: Shards, coding: Shards, layout: Layout, i: nat) {
    && layout.numData <= i && Counts(data, i, layout.numData + layout.numCoding, layout.shardLen)
    && !Counts(coding, i - layout.numData, layout.numCoding, layout.shardLen)
  }

  ghost function Within(data: Shards, limit: nat): Shards {
    map i | i in data && i < limit :: data[i]
  }

  /** Honest but for data shards at offsets past the data. */
  ghost predicate HonestButStrays(code: ErasureCode, word: seq<Shard>, layout: Layout, data: Shards, coding: Shards) {
    Honest(code, word, layout, Within(data, layout.numData), coding)
  }

  /** A stray with bytes of its own is among the first `numData` places filled. */
  ghost predicate Misled(code: ErasureCode, word: seq<Shard>, layout: Layout, data: Shards, coding: Shards) {
    exists i: nat :: Misleads(code, word, layout, data, coding, i)
  }

  ghost predicate Misleads(code: ErasureCode, word: seq<Shard>, layout: Layout, data: Shards, coding: Shards, i: nat) {
    var all := Codeword(code, layout.numCoding, word);
    && i in data && Stray(data, coding, layout, i) && Leading(Placed(data, coding, layout), layout.numData, i)
    && i < |all| && data[i] != all[i]
  }

  /** Apart from strays, every place holds the leader's shard or none. */
  lemma StraysApart(code: ErasureCode, word: seq<Shard>, layout: Layout, data: Shards, coding: Shards, i: nat)
    requires HonestButStrays(code, word, layout, data, coding) && i < layout.numData + layout.numCoding
    ensures |Codeword(code, layout.numCoding, word)| == layout.numData + layout.numCoding
    ensures var slot := PlacedAt(data, coding, layout, i);
            if i in data && Stray(data, coding, layout, i) then slot == Some(data[i])
            else slot.Some? ==> slot.value == Codeword(code, layout.numCoding, word)[i]
  {
    var clean := Within(data, layout.numData);
    assert CodesUniformly(code);
    assert i < layout.numData && i in data ==> clean[i] == data[i];
  }

  lemma CodewordLength(code: ErasureCode, word: seq<Shard>, layout: Layout, data: Shards, coding: Shards)
    requires HonestButStrays(code, word, layout, data, coding)
    ensures |word| == layout.numData && Uniform(word, layout.shardLen)
    ensures code.supports(layout.numData, layout.numCoding)
    ensures |Codeword(code, layout.numCoding, word)| == layout.numData + layout.numCoding
    ensures Even(Placed(data, coding, layout), layout.shardLen)
  {
  }

  /** And the places the code goes by are the leader's exactly if none of those misleads it. */
  lemma StraysDecideLead(code: ErasureCode, word: seq<Shard>, layout: Layout, data: Shards, coding: Shards)
    requires HonestButStrays(code, word, layout, data, coding)
    ensures LeadsFit(Placed(data, coding, layout), Codeword(code, layout.numCoding, word), layout.numData) <==>
            !Misled(code, word, layout, data, coding)
  {
    hide HonestButStrays, PlacedAt, Present;
    CodewordLength(code, word, layout, data, coding);
    var slots, all := Placed(data, coding, layout), Codeword(code, layout.numCoding, word);
    forall i: nat | i < |slots|
      ensures if i in data && Stray(data, coding, layout, i) then slots[i] == Some(data[i])
              else slots[i].Some? ==> slots[i].value == all[i]
    {
      StraysApart(code, word, layout, data, coding, i);
    }
    if Misled(code, word, layout, data, coding) {
      var i: nat :| Misleads(code, word, layout, data, coding, i);
      assert Leading(slots, layout.numData, i) && slots[i].value != all[i];
    } else {
      forall i: nat | Leading(slots, layout.numData, i)
        ensures slots[i].value == all[i]
      {
        assert !Misleads(code, word, layout, data, coding, i);
      }
    }
  }

  lemma CleanCounts(code: ErasureCode, word: seq<Shard>, layout: Layout, data: Shards, coding: Shards)
    requires HonestButStrays(code, word, layout, data, coding)
    ensures Usable(data, layout.numData, layout.shardLen) == |Within(data, layout.numData)|
    ensures Usable(coding, layout.numCoding, layout.shardLen) == |coding|
  {
    var clean := Within(data, layout.numData);
    HonestCounts(code, word, layout, clean, coding);
    assert UsableKeys(data, layout.numData, layout.shardLen) == UsableKeys(clean, layout.numData, layout.shardLen);
  }

  /** Completeness: from the leader's shards, any `numData` of them, each data shard missing
      comes back exactly once, and they come back right exactly if no stray misleads the code. */
  lemma EnoughIsEverything(code: ErasureCode, word: seq<Shard>, layout: Layout, data: Shards, coding: Shards)
    requires HonestButStrays(code, word, layout, data, coding)
    ensures Ready(data, coding, layout) <==> |Within(data, layout.numData)| + |coding| >= layout.numData
    ensures Ready(data, coding, layout) ==>
              var back := Recovered(code, data, coding, layout);
              && (forall i: nat :: i in back <==> i < layout.numData && i !in data)
              && ((forall i :: i in back ==> back[i] == word[i]) <==> !Misled(code, word, layout, data, coding))
  {
    hide HonestButStrays, Usable, Lawful, Misled;
    var clean := Within(data, layout.numData);
    CleanCounts(code, word, layout, data, coding);
    CodewordLength(code, word, layout, data, coding);
    if |clean| == layout.numData {
      NothingMisses(code, word, layout, data, coding);
    } else if |clean| + |coding| >= layout.numData {
      ReconstructingIsRight(code, word, layout, data, coding);
    }
  }

  lemma NothingMisses(code: ErasureCode, word: seq<Shard>, layout: Layout, data: Shards, coding: Shards)
    requires HonestButStrays(code, word, layout, data, coding) && |Within(data, layout.numData)| == layout.numData
    ensures forall i :: 0 <= i < layout.numData ==> i in data
    ensures !Misled(code, word, layout, data, coding)
  {
    hide HonestButStrays, PlacedAt;
    var clean, n := Within(data, layout.numData), layout.numData;
    AllThere(clean.Keys, n);
    forall i | 0 <= i < n
      ensures i in data
    {
      assert i in clean.Keys;
    }
    StraysOnlyAdd(code, word, layout, data, coding);
    var slots := Placed(data, coding, layout);
    forall i: nat | n <= i < |slots|
      ensures !Leading(slots, n, i)
    {
      var before := slots[..i];
      assert forall j :: j in clean.Keys ==> j < n && before[j] == slots[j] && slots[j].Some?;
      SubsetSize(clean.Keys, Present(before));
    }
  }

  lemma StraysOnlyAdd(code: ErasureCode, word: seq<Shard>, layout: Layout, data: Shards, coding: Shards)
    requires HonestButStrays(code, word, layout, data, coding)
    ensures |Present(Placed(data, coding, layout))| >= |Within(data, layout.numData)| + |coding|
    ensures forall i :: 0 <= i < layout.numData ==> (PlacedAt(data, coding, layout, i).Some? <==> i in data)
  {
    var clean := Within(data, layout.numData);
    HonestPresent(code, word, layout, clean, coding);
    var present, some := Present(Placed(data, coding, layout)), Present(Placed(clean, coding, layout));
    forall i | i in some
      ensures i in present
    {
    }
    SubsetSize(some, present);
    forall i: nat | i < layout.numData
      ensures PlacedAt(data, coding, layout, i).Some? <==> i in data
    {
      HonestPlaces(code, word, layout, clean, coding, i);
      assert i in data <==> i in clean;
    }
  }

  lemma FilledHas(code: ErasureCode, layout: Layout, slots: Slots, whole: Slots, i: nat)
    requires code.supports(layout.numData, layout.numCoding) && |slots| == layout.numData + layout.numCoding
    requires code.reconstruct(layout.numData, layout.numCoding, slots) == Some(whole) && i < layout.numData
    ensures |whole| == |slots| && whole[i].Some?
  {
    assert Fills(code);
    assert Filled(slots, whole, layout.numData);
  }

  lemma RecoveredNone(code: ErasureCode, data: Shards, coding: Shards, layout: Layout)
    requires Usable(data, layout.numData, layout.shardLen) != layout.numData
    ensures !code.supports(layout.numData, layout.numCoding) ==> Recovered(code, data, coding, layout) == map[]
    ensures code.reconstruct(layout.numData, layout.numCoding, Placed(data, coding, layout)).None? ==>
              Recovered(code, data, coding, layout) == map[]
  {
  }

  lemma MissingBelow(slots: Slots, n: nat)
    requires n <= |slots|
    ensures forall i :: i in Missing(slots, n) ==> i < n
  {
  }

  lemma NothingInOrder(shards: Shards)
    ensures shards == map[] ==> InOrder(shards) == []
  {
  }

  lemma BodiesInOrder(shards: Shards, keys: seq<nat>, bodies: seq<Shard>)
    requires keys == SortedKeys(shards.Keys) && |bodies| == |keys|
    requires forall k :: 0 <= k < |keys| ==> keys[k] in shards && bodies[k] == shards[keys[k]]
    ensures bodies == InOrder(shards)
  {
    hide SortedKeys;
    assert |shards| == |shards.Keys|;
  }

  lemma OneInOrder(i: nat, shard: Shard)
    ensures InOrder(map[i := shard]) == [shard]
  {
    var shards: Shards := map[i := shard];
    assert shards.Keys == {i};
    assert |InOrder(shards)| == 1;
    assert SortedKeys(shards.Keys)[0] in SortedKeys(shards.Keys);
  }

  lemma RecoveredIs(code: ErasureCode, data: Shards, coding: Shards, layout: Layout, whole: Slots)
    requires Usable(data, layout.numData, layout.shardLen) != layout.numData
    requires code.supports(layout.numData, layout.numCoding)
    requires code.reconstruct(layout.numData, layout.numCoding, Placed(data, coding, layout)) == Some(whole)
    ensures var back := Recovered(code, data, coding, layout);
            && back.Keys == Missing(Placed(data, coding, layout), layout.numData)
            && forall i :: i in back ==> i < |whole| && whole[i] == Some(back[i])
  {
    var slots := Placed(data, coding, layout);
    forall i | i in Missing(slots, layout.numData)
      ensures whole[i].Some?
    {
      FilledHas(code, layout, slots, whole, i);
    }
  }

  ghost function LeadingSet(slots: Slots, n: nat): set<nat> {
    set i: nat | i < |slots| && Leading(slots, n, i)
  }

  lemma NoPlaces(slots: Slots, n: nat)
    requires slots == []
    ensures |LeadingSet(slots, n)| == |Present(slots)| == 0
  {
    assert LeadingSet(slots, n) == {} && Present(slots) == {};
  }

  lemma OneMorePlace(slots: Slots, n: nat)
    requires slots != []
    ensures var k := |slots| - 1; var rest := slots[..k];
            && Present(slots) == Present(rest) + (if slots[k].Some? then {k} else {}) && k !in Present(rest)
            && LeadingSet(slots, n) ==
               LeadingSet(rest, n) + (if slots[k].Some? && |Present(rest)| < n then {k} else {})
            && k !in LeadingSet(rest, n)
  {
    var k := |slots| - 1;
    var rest := slots[..k];
    assert forall i :: 0 <= i <= k ==> rest[..i] == slots[..i];
  }

  lemma {:induction false} LeadersCount(slots: Slots, n: nat)
    ensures |LeadingSet(slots, n)| == Min(n, |Present(slots)|)
    decreases |slots|
  {
    hide LeadingSet, Present;
    if slots == [] {
      NoPlaces(slots, n);
    } else {
      var k := |slots| - 1;
      LeadersCount(slots[..k], n);
      OneMorePlace(slots, n);
    }
  }

  /** Two words whose codewords both go through the first places filled are one. */
  lemma LeadDetermines(code: ErasureCode, slots: Slots, m: nat, len: nat, u: seq<Shard>, v: seq<Shard>)
    requires code.supports(|u|, m) && |u| == |v| && Uniform(u, len) && Uniform(v, len)
    requires |Present(slots)| >= |u|
    requires LeadsFit(slots, Codeword(code, m, u), |u|) && LeadsFit(slots, Codeword(code, m, v), |u|)
    ensures u == v
  {
    hide Present, Codeword;
    var places := LeadingSet(slots, |u|);
    LeadersCount(slots, |u|);
    assert Determined(code);
    assert AgreeAt(Codeword(code, m, u), Codeword(code, m, v), places);
  }

  lemma Solution(code: ErasureCode, n: nat, m: nat, len: nat, slots: Slots)
    requires code.supports(n, m) && |slots| == n + m && Even(slots, len) && |Present(slots)| >= n
    ensures var whole := code.reconstruct(n, m, slots);
            && whole.Some? && Filled(slots, whole.value, n)
            && var word := WordOf(whole.value, n);
               Uniform(word, len) && LeadsFit(slots, Codeword(code, m, word), n)
  {
    assert Solves(code) && Fills(code);
  }

  lemma ReconstructingIsRight(code: ErasureCode, word: seq<Shard>, layout: Layout, data: Shards, coding: Shards)
    requires HonestButStrays(code, word, layout, data, coding)
    requires Usable(data, layout.numData, layout.shardLen) != layout.numData
    requires layout.numData <= |Within(data, layout.numData)| + |coding|
    ensures var back := Recovered(code, data, coding, layout);
            && (forall i: nat :: i in back <==> i < layout.numData && i !in data)
            && ((forall i :: i in back ==> back[i] == word[i]) <==> !Misled(code, word, layout, data, coding))
  {
    hide HonestButStrays, PlacedAt, Lawful, Present, Misled, LeadsFit, Uniform, Usable;
    var n, m := layout.numData, layout.numCoding;
    var slots := Placed(data, coding, layout);
    CodewordLength(code, word, layout, data, coding);
    StraysOnlyAdd(code, word, layout, data, coding);
    StraysDecideLead(code, word, layout, data, coding);
    Solution(code, n, m, layout.shardLen, slots);
    var whole := code.reconstruct(n, m, slots).value;
    RecoveredIs(code, data, coding, layout, whole);
    var found := WordOf(whole, n);
    if !Misled(code, word, layout, data, coding) {
      LeadDetermines(code, slots, m, layout.shardLen, word, found);
    }
    var back := Recovered(code, data, coding, layout);
    if forall i :: i in back ==> back[i] == word[i] {
      forall i: nat | i < n
        ensures found[i] == word[i]
      {
        if i in data { DataStandsAsSent(code, word, layout, data, coding, i); }
      }
      assert found == word;
    }
  }

  lemma DataStandsAsSent(code: ErasureCode, word: seq<Shard>, layout: Layout, data: Shards, coding: Shards, i: nat)
    requires HonestButStrays(code, word, layout, data, coding) && i in data && i < layout.numData
    ensures i < |word| && PlacedAt(data, coding, layout, i) == Some(word[i])
  {
    assert Within(data, layout.numData)[i] == data[i];
  }

  /** It can be misled, with shards of any length: one data shard and two coding shards over it.
      A coding shard has come, and a data shard that claims the other's place, which is the first
      filled. */
  lemma AStrayMisleads(code: ErasureCode, layout: Layout, data: Shards, coding: Shards, sent: Shard, stray: Shard)
    requires code == Repetition() && |sent| == |stray| && sent != stray && layout == Layout(1, 2, |sent|)
    requires data == map[1 := stray] && coding == map[1 := sent]
    ensures HonestButStrays(code, [sent], layout, data, coding) && Ready(data, coding, layout)
    ensures Misled(code, [sent], layout, data, coding)
    ensures Recovered(code, data, coding, layout) == map[0 := stray]
  {
    assert UsableKeys(data, 1, |sent|) == {} && UsableKeys(coding, 2, |sent|) == {1};
    var slots := Placed(data, coding, layout);
    assert slots == [None, Some(stray), Some(sent)];
    assert Present(slots[..1]) == {};
    assert Misleads(code, [sent], layout, data, coding, 1);
    assert FirstPresent(slots) == Some(stray);
    assert Missing(slots, 1) == {0};
  }

  // ---------------------------------------------------------------- one erasure batch

  /** One erasure batch: it collects shards, at most one copy to a place, until they are enough.
      Then it gives back what is missing, once, and holds nothing any more. */
  class FecSet {
    const code: ErasureCode
    /** Which batch this is: its slot and the index of its first shred. */
    ghost const key: (nat, nat)

    var data: Shards
    var coding: Shards
    var layout: Option<Layout>
    var resolved: bool

    /** The first copy of every shard taken in before the batch resolved, and what came back
        when it did. */
    ghost var received: Shards
    ghost var coded: Shards
    ghost var recovered: Shards
    /** Every shard ever offered. */
    ghost var heardData: set<nat>
    ghost var heardCoding: set<nat>

    constructor (code: ErasureCode, ghost key: (nat, nat))
      ensures Valid() && this.code == code && this.key == key && Untouched()
    {
      this.code, this.key := code, key;
      data, coding, layout, resolved := map[], map[], None, false;
      received, coded, recovered, heardData, heardCoding := map[], map[], map[], {}, {};
    }

    ghost predicate Untouched()
      reads this
    {
      !resolved && heardData == {} && heardCoding == {} && layout.None? && received == coded == map[]
    }

    /** The batch has the layout this shred names. */
    ghost predicate LaidOut(shred: CodingShred)
      reads this
    {
      layout == Some(Layout(shred.numData, shred.numCoding, |shred.shard|))
    }

    ghost predicate Sane()
      reads this
    {
      layout.Some? ==> layout.value.numData > 0 && layout.value.numCoding > 0
                       && layout.value.numData + layout.value.numCoding <= MAX_SHARDS
    }

    /** Every shard offered is held. */
    ghost predicate Pending()
      reads this
    {
      && Sane() && !resolved
      && data == received && coding == coded && recovered == map[]
      && heardData == received.Keys && heardCoding == coded.Keys
      && (layout.None? <==> coded == map[])
    }

    /** While unresolved the batch is short of shards, once it has a layout at all; it resolves
        on the shard that makes it ready, and never again. */
    ghost predicate Valid()
      reads this
    {
      if !resolved then
        Pending() && (layout.Some? ==> !Ready(received, coded, layout.value))
      else
        && Sane()
        && data == map[] && coding == map[] && layout.Some? && coded != map[]
        && received.Keys <= heardData && coded.Keys <= heardCoding
        && Ready(received, coded, layout.value)
        && recovered == Recovered(code, received, coded, layout.value)
    }

    /** The vector the code is given: every shard of the right length, at its index. */
    method Gather(layout: Layout) returns (shards: array<Option<Shard>>)
      ensures fresh(shards) && shards[..] == Placed(data, coding, layout)
    {
      hide Usable;
      var n := layout.numData + layout.numCoding;
      shards := new Option<Shard>[n](_ => None);
      var todo := data.Keys;
      while todo != {}
        invariant todo <= data.Keys
        invariant forall i :: 0 <= i < n ==>
                    shards[i] == if i !in todo && Counts(data, i, n, layout.shardLen) then Some(data[i]) else None
        modifies shards
        decreases todo
      {
        var i :| i in todo;
        if i < n && |data[i]| == layout.shardLen {
          shards[i] := Some(data[i]);
        }
        todo := todo - {i};
      }
      todo := coding.Keys;
      while todo != {}
        invariant todo <= coding.Keys
        invariant forall i :: 0 <= i < n ==>
                    shards[i] ==
                    if i < layout.numData || i - layout.numData !in todo then PlacedAt(data, coding, layout, i)
                    else if Counts(data, i, n, layout.shardLen) then Some(data[i]) else None
        modifies shards
        decreases todo
      {
        var position :| position in todo;
        var i := layout.numData + position;
        if i < n && |coding[position]| == layout.shardLen {
          shards[i] := Some(coding[position]);
        }
        todo := todo - {position};
      }
    }

    method Resolve()
      modifies this`data, this`coding, this`resolved
      ensures data == map[] && coding == map[] && resolved
    {
      data, coding, resolved := map[], map[], true;
    }

    /** Reconstructs what is missing, once there is enough to do it from. There is one attempt:
        the batch resolves whatever comes of it. */
    method Recover() returns (bodies: seq<Shard>)
      requires !resolved
      modifies this`data, this`coding, this`resolved
      ensures if layout.None? || !Ready(old(data), old(coding), layout.value) then
                bodies == [] && !resolved && data == old(data) && coding == old(coding)
              else
                && bodies == InOrder(Recovered(code, old(data), old(coding), layout.value))
                && resolved && data == map[] && coding == map[]
    {
      hide Placed, Recovered, Missing, Usable;
      if layout.None? {
        return [];
      }
      var parts := layout.value;
      var have := Usable(data, parts.numData, parts.shardLen);
      if have == parts.numData {
        NothingLost(code, data, coding, parts);
        Resolve();
        return [];
      }
      if have + Usable(coding, parts.numCoding, parts.shardLen) < parts.numData {
        return [];
      }
      var shards := Gather(parts);
      ghost var wasData, wasCoding := data, coding;
      Resolve();
      bodies := Reconstruct(parts, shards[..], wasData, wasCoding);
    }

    method Reconstruct(parts: Layout, slots: Slots, ghost data: Shards, ghost coding: Shards)
      returns (bodies: seq<Shard>)
      requires slots == Placed(data, coding, parts) && Usable(data, parts.numData, parts.shardLen) != parts.numData
      ensures bodies == InOrder(Recovered(code, data, coding, parts))
    {
      hide Placed, Usable, PlacedAt, InOrder, Recovered, Filled, Missing, SortedKeys;
      NothingInOrder(Recovered(code, data, coding, parts));
      RecoveredNone(code, data, coding, parts);
      MissingBelow(slots, parts.numData);
      var missing := SortedKeys(Missing(slots, parts.numData));
      if !code.supports(parts.numData, parts.numCoding) {
        return [];
      }
      var whole := code.reconstruct(parts.numData, parts.numCoding, slots);
      if whole.None? {
        return [];
      }
      RecoveredIs(code, data, coding, parts, whole.value);
      bodies := [];
      for k := 0 to |missing|
        invariant |bodies| == k
        invariant forall j :: 0 <= j < k ==> missing[j] < |whole.value| && Some(bodies[j]) == whole.value[missing[j]]
      {
        assert missing[k] in missing;
        FilledHas(code, parts, slots, whole.value, missing[k]);
        bodies := bodies + [whole.value[missing[k]].value];
      }
      BodiesInOrder(Recovered(code, data, coding, parts), missing, bodies);
    }

    /** What came back with the last shard taken in. */
    ghost predicate GaveBack(bodies: seq<Shard>)
      reads this
    {
      bodies == if resolved then InOrder(recovered) else []
    }

    lemma UnresolvedIsPending()
      requires Valid() && !resolved
      ensures Pending()
    {
    }

    method Settle() returns (bodies: seq<Shard>)
      requires Pending()
      modifies this`data, this`coding, this`resolved, this`recovered
      ensures Valid() && GaveBack(bodies)
    {
      hide Ready, Recovered, InOrder;
      bodies := Recover();
      recovered := if resolved then Recovered(code, received, coded, layout.value) else map[];
    }

    method TakeData(offset: nat, shard: Shard) returns (bodies: seq<Shard>)
      requires Valid() && !resolved
      modifies this
      ensures Valid() && GaveBack(bodies)
      ensures received == map[offset := shard] + old(received) && coded == old(coded) && layout == old(layout)
      ensures heardData == old(heardData) + {offset} && heardCoding == old(heardCoding)
    {
      hide Valid, GaveBack;
      UnresolvedIsPending();
      FirstCounts(data, offset, shard);
      if offset !in data {
        data := data[offset := shard];
      }
      received, heardData := data, heardData + {offset};
      bodies := Settle();
    }

    method TakeCoding(parts: Layout, position: nat, shard: Shard) returns (bodies: seq<Shard>)
      requires Valid() && !resolved
      requires parts.numData > 0 && parts.numCoding > 0 && parts.numData + parts.numCoding <= MAX_SHARDS
      modifies this
      ensures Valid() && GaveBack(bodies)
      ensures coded == map[position := shard] + old(coded) && received == old(received) && layout == Some(parts)
      ensures heardCoding == old(heardCoding) + {position} && heardData == old(heardData)
    {
      hide Valid, GaveBack;
      UnresolvedIsPending();
      FirstCounts(coding, position, shard);
      layout := Some(parts);
      if position !in coding {
        coding := coding[position := shard];
      }
      coded, heardCoding := coding, heardCoding + {position};
      bodies := Settle();
    }

    /** A shard that comes after the batch resolved adds nothing. */
    ghost method Overhear(data: set<nat>, coding: set<nat>)
      requires Valid() && resolved
      modifies this`heardData, this`heardCoding
      ensures Valid() && heardData == old(heardData) + data && heardCoding == old(heardCoding) + coding
    {
      heardData, heardCoding := heardData + data, heardCoding + coding;
    }

    /** Any `numData` of the leader's shards, one of them coding, in any order and however often
        each comes, leave every data shard either received or given back, and none both. Those
        given back are the leader's exactly if no stray misled the code. */
    lemma EnoughHeardIsEverything(word: seq<Shard>, parts: Layout)
      requires Valid() && layout == Some(parts)
      requires HonestButStrays(code, word, parts, received, coded)
      requires |Below(heardData, parts.numData)| + |heardCoding| >= parts.numData
      ensures resolved
      ensures forall i: nat :: i in recovered <==> i < parts.numData && i !in received
      ensures (forall i :: i in recovered ==> recovered[i] == word[i]) <==> !Misled(code, word, parts, received, coded)
    {
      hide Honest, Misled, Recovered, Ready;
      assert received.Keys == heardData ==> Within(received, parts.numData).Keys == Below(heardData, parts.numData);
      EnoughIsEverything(code, word, parts, received, coded);
    }
  }

  /** What comes back for a data shred that was lost parses to the shred its leader sent. */
  lemma RecoveredShredIsTheLeaders(s: FecSet, word: seq<Shard>, parts: Layout, i: nat, body: seq<byte>, version: nat)
    requires s.Valid() && s.resolved && s.layout == Some(parts) && i in s.recovered
    requires HonestButStrays(s.code, word, parts, s.received, s.coded)
    requires !Misled(s.code, word, parts, s.received, s.coded)
    requires ParseData(body, version).Some? && i < |word| && word[i] == ParseData(body, version).value.shard
    ensures ParseData(s.recovered[i], version) == ParseData(body, version)
  {
    hide Honest, Misled, Recovered, ParseData;
    EnoughIsEverything(s.code, word, parts, s.received, s.coded);
    RecoveredBodyParsesAlike(body, version);
  }

  /** And so it is in the program's own steps: a stray data shard, then a coding shard of the
      leader's, and what is given back for the lost data shard is the stray. */
  method AStrayComesBack(sent: Shard, stray: Shard) returns (s: FecSet, bodies: seq<Shard>)
    requires |sent| == |stray| && sent != stray
    ensures s.Valid() && s.resolved && s.layout == Some(Layout(1, 2, |sent|))
    ensures HonestButStrays(s.code, [sent], Layout(1, 2, |sent|), s.received, s.coded)
    ensures Misled(s.code, [sent], Layout(1, 2, |sent|), s.received, s.coded)
    ensures bodies == [stray]
  {
    hide InOrder, HonestButStrays, Misled, Repetition, Recovered, Ready, Lawful;
    var parts := Layout(1, 2, |sent|);
    var code: ErasureCode := Witness();
    s := new FecSet(code, (0, 0));
    bodies := s.TakeData(1, stray);
    bodies := s.TakeCoding(parts, 1, sent);
    AStrayMisleads(code, parts, s.received, s.coded, sent, stray);
    OneInOrder(0, stray);
  }

  /** A shard put behind those held already: the copy that came first stays. */
  lemma FirstCounts(shards: Shards, i: nat, shard: Shard)
    ensures var more := map[i := shard] + shards;
            && more == (if i in shards then shards else shards[i := shard])
            && more.Keys == shards.Keys + {i} && more != map[]
  {
    var more := map[i := shard] + shards;
    assert i in more;
    if i in shards {
      assert more.Keys == shards.Keys;
    } else {
      assert more.Keys == shards[i := shard].Keys;
    }
  }

  function Below(s: set<nat>, limit: nat): set<nat> {
    set i | i in s && i < limit
  }

  lemma NothingLost(code: ErasureCode, data: Shards, coding: Shards, layout: Layout)
    requires Usable(data, layout.numData, layout.shardLen) == layout.numData
    ensures Ready(data, coding, layout) && Recovered(code, data, coding, layout) == map[]
    ensures InOrder(map[]) == []
  {
  }

  // ---------------------------------------------------------------- every batch in flight

  ghost function SetsOf(m: map<(nat, nat), Aged<FecSet>>): set<FecSet> {
    set k | k in m :: m[k].value
  }

  class Recovery {
    const code: ErasureCode
    const sets: AgedMap<(nat, nat), FecSet>

    constructor (code: ErasureCode, retention: nat, now: nat)
      ensures Valid() && fresh(sets) && this.code == code && sets.entries == map[]
    {
      this.code := code;
      sets := new AgedMap(if retention <= BATCH_LIFETIME then retention else BATCH_LIFETIME, MAX_FEC_SETS, now);
    }

    ghost predicate Rightful(s: FecSet, key: (nat, nat))
      reads s
    {
      s.key == key && s.code == code && s.Valid()
    }

    ghost predicate AllRightful(m: map<(nat, nat), Aged<FecSet>>)
      reads SetsOf(m)
    {
      forall k :: k in m ==> Rightful(m[k].value, k)
    }

    ghost predicate Valid()
      reads sets, SetsOf(sets.entries)
    {
      sets.cap == MAX_FEC_SETS && sets.retention <= BATCH_LIFETIME && AllRightful(sets.entries)
    }

    /** Finds or begins the batch under `key` and stamps it. It is live if it can still take a
        shard, so exactly if it has not resolved. */
    method LiveSet(key: (nat, nat), now: nat) returns (s: FecSet, live: bool)
      requires Valid()
      modifies sets
      ensures Valid() && key in sets.entries && sets.entries[key].value == s && live == !s.resolved
      ensures s in old(SetsOf(sets.entries)) || (fresh(s) && live && s.Untouched())
      ensures forall other :: other in SetsOf(sets.entries) ==> other == s || other in old(SetsOf(sets.entries))
      ensures DroppedRightly(old(sets.entries), sets.entries, now, sets.retention, MAX_FEC_SETS)
      ensures OneTouched(old(sets.entries), sets.entries, key, now)
    {
      hide FecSet.Valid, SweptTo, AllRightful, FecSet.Untouched, DroppedRightly, OneTouched;
      ghost var was := sets.entries;
      assert forall b :: b in SetsOf(was) ==> (b as object) != sets && allocated(b);
      var swept, expired := sets.Sweep(now);
      ghost var kept := sets.entries;
      var created := new FecSet(code, key);
      assert (created as object) != sets && Rightful(created, key);
      s := sets.Upsert(key, now, created);
      Entering(was, kept, key, now, s);
      TouchingOne(was, kept, key, now, s);
      TouchingDropsNothing(was, kept, key, Aged(now, s), now, sets.retention, MAX_FEC_SETS);
      live := !s.resolved;
    }

    lemma Entering(was: map<(nat, nat), Aged<FecSet>>, kept: map<(nat, nat), Aged<FecSet>>, key: (nat, nat),
                   now: nat, s: FecSet)
      requires AllRightful(was)
      requires forall k :: k in kept ==> k in was && kept[k] == was[k]
      requires if key in kept then s == kept[key].value else Rightful(s, key)
      ensures AllRightful(kept[key := Aged(now, s)])
      ensures forall other :: other in SetsOf(kept[key := Aged(now, s)]) ==> other == s || other in SetsOf(was)
      ensures key in kept ==> s in SetsOf(was)
    {
      hide FecSet.Valid;
      assert key in kept ==> Rightful(was[key].value, key);
    }

    /** What a data shred made recoverable. A resolved batch gives nothing more. */
    method InsertData(shred: DataShred, now: nat) returns (bodies: seq<Shard>)
      requires Valid()
      modifies sets, SetsOf(sets.entries)
      ensures Valid() && DroppedRightly(old(sets.entries), sets.entries, now, sets.retention, MAX_FEC_SETS)
      ensures var key := (shred.slot, shred.fecSetIndex); var offset := shred.index - shred.fecSetIndex;
              if 0 <= offset < MAX_SHARDS then
                && key in sets.entries && OneTouched(old(sets.entries), sets.entries, key, now)
                && var s := sets.entries[key].value;
                   && (if s in old(SetsOf(sets.entries)) then
                         && s.heardData == old(s.heardData) + {offset} && s.heardCoding == old(s.heardCoding)
                         && s.coded == old(s.coded) && s.layout == old(s.layout)
                         && (if old(s.resolved) then bodies == [] && s.received == old(s.received)
                             else s.GaveBack(bodies) && s.received == map[offset := shred.shard] + old(s.received))
                       else
                         && fresh(s) && s.heardData == {offset} && s.heardCoding == {} && s.GaveBack(bodies)
                         && s.received == map[offset := shred.shard] && s.coded == map[])
                   && forall other :: other in old(SetsOf(sets.entries)) && other != s ==> unchanged(other)
              else bodies == [] && unchanged(sets) && forall s :: s in old(SetsOf(sets.entries)) ==> unchanged(s)
    {
      hide FecSet.Valid, FecSet.GaveBack, Since, DroppedRightly, OneTouched;
      KeepingDropsNothing(sets.entries, now, sets.retention, MAX_FEC_SETS);
      if shred.index < shred.fecSetIndex || shred.index - shred.fecSetIndex >= MAX_SHARDS {
        return [];
      }
      var offset: nat := shred.index - shred.fecSetIndex;
      var key := (shred.slot, shred.fecSetIndex);
      assert forall b :: b in SetsOf(sets.entries) ==> (b as object) != sets && allocated(b);
      var s, live := LiveSet(key, now);
      OneOfMany(key, s);
      if !live {
        s.Overhear({offset}, {});
        bodies := [];
      } else {
        bodies := s.TakeData(offset, shred.shard);
      }
    }

    /** What a coding shred made recoverable. */
    method InsertCoding(shred: CodingShred, now: nat) returns (bodies: seq<Shard>)
      requires Valid()
      modifies sets, SetsOf(sets.entries)
      ensures Valid() && DroppedRightly(old(sets.entries), sets.entries, now, sets.retention, MAX_FEC_SETS)
      ensures var key := (shred.slot, shred.fecSetIndex);
              if 1 <= shred.numData && shred.position < shred.numCoding
                 && shred.numData + shred.numCoding <= MAX_SHARDS then
                && key in sets.entries && OneTouched(old(sets.entries), sets.entries, key, now)
                && var s := sets.entries[key].value;
                   && (if s in old(SetsOf(sets.entries)) then
                         && s.heardCoding == old(s.heardCoding) + {shred.position} && s.heardData == old(s.heardData)
                         && s.received == old(s.received)
                         && (if old(s.resolved) then bodies == [] && s.coded == old(s.coded)
                             else s.GaveBack(bodies) && s.LaidOut(shred)
                                  && s.coded == map[shred.position := shred.shard] + old(s.coded))
                       else
                         && fresh(s) && s.heardCoding == {shred.position} && s.heardData == {} && s.GaveBack(bodies)
                         && s.LaidOut(shred) && s.coded == map[shred.position := shred.shard] && s.received == map[])
                   && forall other :: other in old(SetsOf(sets.entries)) && other != s ==> unchanged(other)
              else bodies == [] && unchanged(sets) && forall s :: s in old(SetsOf(sets.entries)) ==> unchanged(s)
    {
      hide FecSet.Valid, FecSet.GaveBack, Since, DroppedRightly, OneTouched;
      KeepingDropsNothing(sets.entries, now, sets.retention, MAX_FEC_SETS);
      if shred.numData == 0 || shred.numCoding == 0 || shred.numData + shred.numCoding > MAX_SHARDS
         || shred.position >= shred.numCoding {
        return [];
      }
      var key := (shred.slot, shred.fecSetIndex);
      assert forall b :: b in SetsOf(sets.entries) ==> (b as object) != sets && allocated(b);
      var s, live := LiveSet(key, now);
      OneOfMany(key, s);
      if !live {
        s.Overhear({}, {shred.position});
        bodies := [];
      } else {
        bodies := s.TakeCoding(Layout(shred.numData, shred.numCoding, |shred.shard|), shred.position, shred.shard);
      }
    }

    lemma OneOfMany(key: (nat, nat), s: FecSet)
      requires Valid() && key in sets.entries && sets.entries[key].value == s
      ensures s.Valid() && s.code == code
      ensures forall k :: k in sets.entries && k != key ==> sets.entries[k].value != s
      ensures forall b :: b in SetsOf(sets.entries) ==> (b as object) != sets
    {
      hide FecSet.Valid;
      assert forall k :: k in sets.entries ==> Rightful(sets.entries[k].value, k);
    }
  }
}
