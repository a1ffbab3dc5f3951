/** Every slot's buffer, and the budget they share. */
module Assemblers {
  import opened Bytes
  import opened Collections
  import opened Codec
  import opened Batches
  import opened Runs
  import opened Arenas
  import opened Caches
  import opened Pieces
  import opened SlotBuffers
  import opened AgedMaps
  import opened Shreds

  const MAX_BUFFERED_SLOTS := 128
  const MAX_BUFFERED_BYTES := 512 * 1024 * 1024

  /** How far the budget may be overshot: one arena's growth, and one of the two batches an
      insert may begin. */
  const OVERSHOOT := 2 * MAX_SLOT_BYTES + PER_BATCH_OVERHEAD

  /** A shred is admitted against what it carries and what it may cost beside that. */
  function Charge(data: seq<byte>): nat {
    |data| + PER_SHRED_OVERHEAD + PER_BATCH_OVERHEAD
  }

  ghost function KeptOf(sizes: map<nat, nat>, keys: set<nat>): (kept: map<nat, nat>)
    requires keys <= sizes.Keys
    ensures kept.Keys == keys
    ensures forall k :: k in kept ==> kept[k] == sizes[k]
  {
    map k | k in keys :: sizes[k]
  }

  /** Within the caps one slot is held to. */
  ghost predicate Capped(b: SlotBuffer)
    reads b
  {
    && b.Valid()
    && |b.arena| <= 2 * MAX_SLOT_BYTES
    && b.Live() <= MAX_SLOT_BYTES
    && |b.shreds| <= MAX_SLOT_SHREDS
  }

  /** What of a buffer an insert is told against. */
  datatype Snapshot = Snapshot(held: Held, accounts: map<nat, Account>, agreed: bool, lastIndex: Option<nat>)

  const BLANK := Snapshot(map[], map[], true, None)

  ghost function Now(b: SlotBuffer): Snapshot
    reads b
  {
    Snapshot(b.held, b.accounts, b.agreed, b.lastIndex)
  }

  /** A buffer that took a shred: it holds the shred, and its batches' accounts grew by the
      pieces handed over. Only copies that differ can crash it. */
  ghost predicate Fed(before: Snapshot, b: SlotBuffer, shred: DataShred, recovered: bool, now: nat,
                      pieces: seq<DecodedBatch>, crashed: bool)
    reads b
  {
    && b.held == before.held[shred.index := Shred(shred.data, shred.dataComplete, now, recovered)]
    && b.lastIndex == (if shred.lastInSlot then Some(shred.index) else before.lastIndex)
    && b.agreed == (before.agreed && (shred.index in before.held ==>
         shred.data == before.held[shred.index].data && shred.dataComplete == before.held[shred.index].complete))
    && Handed(before.accounts, b.accounts, pieces)
    && (b.agreed ==> !crashed)
  }

  /** Whether the slot cannot take this shred: it would have too many bytes, or one shred too
      many, which a resent one never makes. */
  predicate Full(buffer: SlotBuffer, shred: DataShred)
    reads buffer
  {
    || |buffer.arena| - buffer.stale + |shred.data| > MAX_SLOT_BYTES
    || (|buffer.shreds| >= MAX_SLOT_SHREDS && shred.index !in buffer.shreds)
  }

  /** Room for what a shred carries, for its entry, and for that of one batch it may begin. */
  ghost predicate Affordable(spent: nat, carried: nat) {
    carried + PER_SHRED_OVERHEAD + PER_BATCH_OVERHEAD <= MAX_BUFFERED_BYTES - spent
  }

  /** What a slot takes up of memory: its arena, and an entry for each shred and each batch. */
  ghost function Taken(m: map<nat, Aged<SlotBuffer>>): map<nat, nat>
    reads ValuesOf(m)
  {
    map k | k in m ::
      |m[k].value.arena| + |m[k].value.shreds| * PER_SHRED_OVERHEAD + |m[k].value.progress| * PER_BATCH_OVERHEAD
  }

  /** What each shred held carries. */
  ghost function Carried(held: Held): map<nat, nat> {
    map i | i in held :: |held[i].data|
  }

  /** A slot is full for a shred just if the shreds it holds and this one carry more than a slot may,
      counting a copy to be replaced as well, or if they are as many as a slot may have and this
      would be another. */
  lemma FullExactlyWhen(b: SlotBuffer, shred: DataShred)
    requires b.Stored()
    ensures Full(b, shred) <==>
            || Sum(Carried(b.held)) + |shred.data| > MAX_SLOT_BYTES
            || (shred.index !in b.held && |b.held| >= MAX_SLOT_SHREDS)
  {
    hide Sum, Bounded;
    b.StoredFacts();
    assert Lengths(b.shreds) == Carried(b.held);
    assert b.Live() == Sum(Carried(b.held));
    assert |b.shreds| == |b.shreds.Keys| == |b.held.Keys| == |b.held|;
  }

  /** So no slot a leader kept within the caps is ever full for a shred of its that has not come. */
  lemma NeverFullForALeader(b: SlotBuffer, leader: Held, shred: DataShred)
    requires b.Stored() && AgreesWith(b.held, leader) && shred.index in leader && shred.index !in b.held
    requires shred.data == leader[shred.index].data
    requires Sum(Carried(leader)) <= MAX_SLOT_BYTES && |leader| <= MAX_SLOT_SHREDS
    ensures !Full(b, shred)
  {
    hide Full, Sum;
    FullExactlyWhen(b, shred);
    var more := Carried(b.held)[shred.index := |shred.data|];
    SumUpdate(Carried(b.held), shred.index, |shred.data|);
    SumShrinks(more, Carried(leader));
    SubsetSize(b.held.Keys + {shred.index}, leader.Keys);
  }

  ghost predicate SweepDue(lastSwept: nat, held: nat, now: nat) {
    Since(now, lastSwept) >= SWEEP_INTERVAL || held > MAX_BUFFERED_SLOTS
  }

  ghost function ValuesOf(m: map<nat, Aged<SlotBuffer>>): set<SlotBuffer> {
    set k | k in m :: m[k].value
  }

  ghost predicate SizesOf(m: map<nat, Aged<SlotBuffer>>, sizes: map<nat, nat>)
    reads ValuesOf(m)
  {
    && sizes.Keys == m.Keys
    && forall k :: k in sizes ==> sizes[k] == m[k].value.Footprint()
  }

  class Assembler {
    const tx: TxCodec
    const slots: AgedMap<nat, SlotBuffer>
    var bytes: nat
    /** What each slot held costs. */
    ghost var sizes: map<nat, nat>

    ghost function Buffers(): set<SlotBuffer>
      reads slots
    {
      ValuesOf(slots.entries)
    }

    /** A buffer in its own slot's place, within its caps. */
    ghost predicate Rightful(b: SlotBuffer, slot: nat)
      reads b
    {
      b.slot == slot && b.tx == tx && Capped(b)
    }

    ghost predicate AllRightful(m: map<nat, Aged<SlotBuffer>>)
      reads ValuesOf(m)
    {
      forall k :: k in m ==> Rightful(m[k].value, k)
    }

    ghost predicate Held()
      reads slots, Buffers()
    {
      slots.cap == MAX_BUFFERED_SLOTS && AllRightful(slots.entries)
    }

    ghost predicate Sized(sizes: map<nat, nat>)
      reads slots, Buffers()
    {
      SizesOf(slots.entries, sizes)
    }

    ghost predicate Valid()
      reads this, slots, Buffers()
    {
      && Held() && Sized(sizes)
      && bytes == Sum(sizes)
      && bytes <= MAX_BUFFERED_BYTES + OVERSHOOT
    }

    constructor (tx: TxCodec, retention: nat, now: nat)
      ensures Valid() && fresh(slots) && this.tx == tx && slots.entries == map[] && bytes == 0
    {
      this.tx := tx;
      slots := new AgedMap(retention, MAX_BUFFERED_SLOTS, now);
      bytes := 0;
      sizes := map[];
      new;
      SumOfNothing(sizes);
    }

    /** The running total, from scratch: what is held now. */
    method Total(ghost sizes: map<nat, nat>) returns (total: nat)
      requires Held() && Sized(sizes)
      ensures Held() && Sized(sizes) && total == Sum(sizes)
    {
      hide Sum, Held;
      assert forall b :: b in Buffers() ==> allocated(b);
      var rest := slots.entries.Keys;
      total := 0;
      ghost var left := sizes;
      while rest != {}
        invariant rest <= slots.entries.Keys && left.Keys == rest
        invariant forall k :: k in left ==> left[k] == sizes[k]
        invariant total + Sum(left) == Sum(sizes)
        modifies {}
        decreases rest
      {
        var k :| k in rest;
        SumRemove(left, k);
        total := total + slots.entries[k].value.Footprint();
        left := left - {k};
        rest := rest - {k};
      }
      SumOfNothing(left);
    }

    method SweepSlots(now: nat, ghost sizes: map<nat, nat>) returns (swept: bool, ghost left: map<nat, nat>)
      requires Held() && Sized(sizes)
      modifies slots
      ensures Held() && Sized(left)
      ensures left.Keys <= sizes.Keys && forall k :: k in left ==> left[k] == sizes[k]
      ensures !swept ==> left == sizes
      ensures swept <==> SweepDue(old(slots.lastSwept), |old(slots.entries)|, now)
      ensures !swept ==> slots.entries == old(slots.entries)
      ensures forall k :: k in slots.entries ==> k in old(slots.entries) && slots.entries[k] == old(slots.entries)[k]
      ensures DroppedRightly(old(slots.entries), slots.entries, now, slots.retention, MAX_BUFFERED_SLOTS)
    {
      hide Capped, SweptTo, Since, KeptOf, DroppedRightly;
      assert forall b :: b in Buffers() ==> (b as object) != slots && allocated(b);
      var expired;
      swept, expired := slots.Sweep(now);
      assert slots.entries.Keys <= sizes.Keys;
      left := if swept then KeptOf(sizes, slots.entries.Keys) else sizes;
      forall k | k in slots.entries
        ensures var b := slots.entries[k].value;
                Rightful(b, k) && sizes[k] == b.Footprint()
      {
        var b := old(slots.entries)[k].value;
        assert b in old(Buffers());
      }
    }

    /** Sweeps the slots when that is due and adds up anew what those left cost. */
    method Sweep(now: nat)
      requires Valid()
      modifies this`bytes, this`sizes, slots
      ensures Valid() && bytes <= old(bytes)
      ensures sizes.Keys == slots.entries.Keys
      ensures forall k :: k in sizes ==> k in old(sizes) && sizes[k] == old(sizes)[k]
      ensures !SweepDue(old(slots.lastSwept), |old(slots.entries)|, now) ==>
                bytes == old(bytes) && slots.entries == old(slots.entries)
      ensures forall k :: k in slots.entries ==> k in old(slots.entries) && slots.entries[k] == old(slots.entries)[k]
      ensures DroppedRightly(old(slots.entries), slots.entries, now, slots.retention, MAX_BUFFERED_SLOTS)
    {
      hide Sum, Held, Sized, DroppedRightly;
      var swept; ghost var left;
      swept, left := SweepSlots(now, sizes);
      if swept {
        SumShrinks(left, sizes);
        var total := Total(left);
        assert forall b :: b in Buffers() ==> (b as object) != this;
        bytes, sizes := total, left;
        assert Held();
        assert Sized(left);
      }
      SizesAre();
    }

    /** The buffer of `slot`, begun if there is none. A new one costs nothing yet. */
    method Reserve(slot: nat, now: nat, ghost sizes: map<nat, nat>)
      returns (buffer: SlotBuffer, ghost left: map<nat, nat>)
      requires Held() && Sized(sizes)
      modifies slots`entries
      ensures Held() && Sized(left) && Sum(left) == Sum(sizes)
      ensures slots.entries == old(slots.entries)[slot := Aged(now, buffer)]
      ensures if slot in old(slots.entries) then buffer == old(slots.entries)[slot].value
              else
                && fresh(buffer) && Now(buffer) == BLANK
                && buffer.arena == [] && buffer.stale == 0 && buffer.shreds == map[]
    {
      hide Rightful, Sum, Capped, AllRightful, SizesOf, SlotBuffer.Footprint;
      ghost var was := slots.entries;
      assert forall b :: b in ValuesOf(was) ==> (b as object) != slots && allocated(b);
      var created := NewBuffer(tx, slot);
      MadeRightful(created, slot);
      assert (created as object) != slots;
      buffer := slots.Upsert(slot, now, created);
      left := sizes[slot := buffer.Footprint()];
      SumUpdate(sizes, slot, buffer.Footprint());
      Entering(was, slot, now, buffer, sizes);
    }

    lemma Entering(m: map<nat, Aged<SlotBuffer>>, slot: nat, now: nat, b: SlotBuffer, sizes: map<nat, nat>)
      requires AllRightful(m) && SizesOf(m, sizes)
      requires if slot in m then b == m[slot].value else Rightful(b, slot)
      ensures var after := m[slot := Aged(now, b)];
              AllRightful(after) && SizesOf(after, sizes[slot := b.Footprint()])
      ensures slot in m <==> slot in sizes
      ensures slot in m ==> sizes[slot] == b.Footprint()
    {
      hide Rightful, SlotBuffer.Footprint;
      var after := m[slot := Aged(now, b)];
      assert forall k :: k in after && k != slot ==> k in m && after[k].value == m[k].value;
      assert slot in m ==> Rightful(m[slot].value, slot);
    }

    lemma MadeRightful(b: SlotBuffer, slot: nat)
      requires b.slot == slot && b.tx == tx && Capped(b)
      ensures Rightful(b, slot)
    {
    }

    /** Hands an admitted shred to its slot's buffer; no other slot's cost moves. */
    method FeedBuffer(buffer: SlotBuffer, shred: DataShred, recovered: bool, now: nat, ghost sizes: map<nat, nat>)
      returns (pieces: seq<DecodedBatch>, crashed: bool, ghost after: map<nat, nat>)
      requires Held() && Sized(sizes) && shred.slot in slots.entries && slots.entries[shred.slot].value == buffer
      requires Capped(buffer) && shred.index < INDEX_LIMIT && !Full(buffer, shred)
      modifies buffer
      ensures Held() && Sized(after) && after == sizes[shred.slot := buffer.Footprint()]
      ensures Fed(old(Now(buffer)), buffer, shred, recovered, now, pieces, crashed)
      ensures buffer.Footprint() + |shred.data| <= old(buffer.Footprint()) + OVERSHOOT + Charge(shred.data)
    {
      hide Capped, Accounted, CoherentWith, LevelBut, Handed, Fed;
      assert forall b :: b in Buffers() ==> (b as object) != this && allocated(b);
      pieces, crashed := TakeWithinCaps(buffer, shred, recovered, now);
      after := sizes[shred.slot := buffer.Footprint()];
      forall k | k in slots.entries
        ensures var b := slots.entries[k].value;
                Rightful(b, k) && after[k] == b.Footprint()
      {
        assert slots.entries[k].value in Buffers();
        if k != shred.slot { assert slots.entries[k].value != buffer; }
      }
    }

    /** Hands an admitted shred to its slot's buffer and settles what that cost. */
    method Feed(buffer: SlotBuffer, shred: DataShred, recovered: bool, now: nat)
      returns (pieces: seq<DecodedBatch>, crashed: bool)
      requires Valid() && shred.slot in slots.entries && slots.entries[shred.slot].value == buffer
      requires shred.index < INDEX_LIMIT && !Full(buffer, shred)
      requires bytes + Charge(shred.data) <= MAX_BUFFERED_BYTES
      modifies this`bytes, this`sizes, buffer
      ensures Valid()
      ensures Fed(old(Now(buffer)), buffer, shred, recovered, now, pieces, crashed)
    {
      hide Held, Sized, Capped, Sum, Fed, Full, Now, SlotBuffer.Footprint;
      assert forall b :: b in Buffers() ==> (b as object) != this && allocated(b);
      HeldIsCapped(shred.slot);
      SizedHas(shred.slot);
      var before := buffer.Footprint();
      ghost var after;
      pieces, crashed, after := FeedBuffer(buffer, shred, recovered, now, sizes);
      SumUpdate(sizes, shred.slot, buffer.Footprint());
      SumRemove(sizes, shred.slot);
      bytes, sizes := bytes + buffer.Footprint() - before, after;
    }

    /** What the slots held take up between them is within the budget, but for one overshoot. */
    lemma TakesUpNoMore()
      requires Valid()
      ensures Sum(Taken(slots.entries)) <= MAX_BUFFERED_BYTES + OVERSHOOT
    {
      hide Sum, Capped;
      forall k | k in slots.entries
        ensures Taken(slots.entries)[k] <= sizes[k]
      {
        BufferTakesUp(slots.entries[k].value);
      }
      SumShrinks(Taken(slots.entries), sizes);
    }

    lemma BufferTakesUp(b: SlotBuffer)
      requires Capped(b)
      ensures |b.arena| + |b.shreds| * PER_SHRED_OVERHEAD + |b.progress| * PER_BATCH_OVERHEAD <= b.Footprint()
    {
    }

    lemma SizesAre()
      requires Sized(sizes)
      ensures sizes.Keys == slots.entries.Keys
      ensures forall k :: k in sizes ==> sizes[k] == slots.entries[k].value.Footprint()
    {
    }

    lemma SizedHas(slot: nat)
      requires Sized(sizes) && slot in slots.entries
      ensures slot in sizes && sizes[slot] == slots.entries[slot].value.Footprint()
    {
    }

    /** The share of an insert behind the budget: the slot's buffer is found or begun, and takes
        the shred unless it is full for it. */
    method Admit(shred: DataShred, recovered: bool, now: nat)
      returns (pieces: seq<DecodedBatch>, crashed: bool, ghost taken: bool)
      requires Valid() && shred.index < INDEX_LIMIT && bytes + Charge(shred.data) <= MAX_BUFFERED_BYTES
      modifies this`bytes, this`sizes, slots`entries, Buffers()
      ensures Valid() && shred.slot in slots.entries
      ensures slots.entries == old(slots.entries)[shred.slot := Aged(now, slots.entries[shred.slot].value)]
      ensures var b := slots.entries[shred.slot].value;
              if b in old(Buffers()) then taken <==> !old(Full(b, shred))
              else fresh(b) && (taken <==> |shred.data| <= MAX_SLOT_BYTES)
      ensures forall b :: b in old(Buffers()) && (taken ==> b != slots.entries[shred.slot].value) ==> unchanged(b)
      ensures !taken ==> pieces == [] && !crashed
      ensures taken ==>
                var b := slots.entries[shred.slot].value;
                Fed(if b in old(Buffers()) then old(Now(b)) else BLANK, b, shred, recovered, now, pieces, crashed)
    {
      hide Held, Sized, Sum, Capped, Accounted, CoherentWith, LevelBut, Fed;
      assert forall b :: b in Buffers() ==> (b as object) != this && (b as object) != slots && allocated(b);
      pieces, crashed, taken := [], false, false;
      var buffer; ghost var left;
      buffer, left := Reserve(shred.slot, now, sizes);
      assert forall b :: b in Buffers() ==> (b as object) != this && allocated(b);
      sizes := left;
      HeldIsCapped(shred.slot);
      if Full(buffer, shred) {
        return;
      }
      taken := true;
      pieces, crashed := Feed(buffer, shred, recovered, now);
    }

    /** One data shred: swept for, charged, admitted or refused, and decoded as far as it lets
        its slot be. It is taken just when the budget left by the sweep covers its charge and
        its slot is not full for it; a refused shred changes no buffer and hands nothing over.
        What the sweep leaves spent is what the slots it keeps cost, each the same as before. */
    method Insert(shred: DataShred, recovered: bool, now: nat)
      returns (pieces: seq<DecodedBatch>, crashed: bool, ghost taken: bool, ghost spent: nat, ghost kept: map<nat, nat>)
      requires Valid() && shred.index < INDEX_LIMIT
      modifies this`bytes, this`sizes, slots, Buffers()
      ensures Valid()
      ensures spent == Sum(kept) <= old(bytes)
      ensures forall k :: k in kept ==> k in old(slots.entries) && kept[k] == old(slots.entries[k].value.Footprint())
      ensures slots.entries.Keys ==
              kept.Keys + if Affordable(spent, |shred.data|) then {shred.slot} else {}
      ensures !SweepDue(old(slots.lastSwept), |old(slots.entries)|, now) ==> spent == old(bytes)
      ensures DroppedRightly(old(slots.entries), slots.entries, now, slots.retention, MAX_BUFFERED_SLOTS)
      ensures !Affordable(spent, |shred.data|) ==> !taken
      ensures Affordable(spent, |shred.data|) ==>
                && shred.slot in slots.entries
                && var b := slots.entries[shred.slot].value;
                   if b in old(Buffers()) then taken <==> !old(Full(b, shred))
                   else fresh(b) && (taken <==> |shred.data| <= MAX_SLOT_BYTES)
      ensures taken ==> shred.slot in slots.entries
      ensures Affordable(spent, |shred.data|) ==> OneTouched(old(slots.entries), slots.entries, shred.slot, now)
      ensures !Affordable(spent, |shred.data|) ==>
                forall k :: k in slots.entries ==> k in old(slots.entries) && slots.entries[k] == old(slots.entries)[k]
      ensures forall b :: b in old(Buffers()) && (taken ==> b != slots.entries[shred.slot].value) ==> unchanged(b)
      ensures !taken ==> pieces == [] && !crashed
      ensures taken ==>
                var b := slots.entries[shred.slot].value;
                Fed(if b in old(Buffers()) then old(Now(b)) else BLANK, b, shred, recovered, now, pieces, crashed)
    {
      hide Held, Sized, Sum, Capped, Accounted, CoherentWith, LevelBut, Fed, Full, Now, SweepDue,
           DroppedRightly, OneTouched, AllRightful, Rightful, SizesOf, SlotBuffer.Footprint;
      assert forall b :: b in Buffers() ==> (b as object) != this && (b as object) != slots && allocated(b);
      assert forall k :: k in slots.entries ==> slots.entries[k].value in Buffers();
      ghost var mine := Buffers();
      SizesAre();
      pieces, crashed, taken := [], false, false;
      Sweep(now);
      spent, kept := bytes, sizes;
      if bytes + Charge(shred.data) > MAX_BUFFERED_BYTES {
        return;
      }
      assert Buffers() <= mine;
      ghost var entries := slots.entries;
      pieces, crashed, taken := Admit(shred, recovered, now);
      TouchingOne(old(slots.entries), entries, shred.slot, now, slots.entries[shred.slot].value);
      TouchingDropsNothing(old(slots.entries), entries, shred.slot, slots.entries[shred.slot], now, slots.retention,
                           MAX_BUFFERED_SLOTS);
    }

    lemma HeldIsCapped(slot: nat)
      requires Held() && slot in slots.entries
      ensures Capped(slots.entries[slot].value) && slots.entries[slot].value.Stored()
    {
    }
  }

  /** The buffer's share of an admitted shred, within the caps of a slot. */
  method TakeWithinCaps(buffer: SlotBuffer, shred: DataShred, recovered: bool, now: nat)
    returns (pieces: seq<DecodedBatch>, crashed: bool)
    requires Capped(buffer) && shred.index < INDEX_LIMIT
    requires buffer.Live() + |shred.data| <= MAX_SLOT_BYTES
    requires |buffer.shreds| < MAX_SLOT_SHREDS || shred.index in buffer.shreds
    modifies buffer
    ensures Capped(buffer)
    ensures Fed(old(Now(buffer)), buffer, shred, recovered, now, pieces, crashed)
    ensures buffer.Footprint() + |shred.data| <= old(buffer.Footprint()) + OVERSHOOT + Charge(shred.data)
  {
    hide Accounted, CoherentWith, LevelBut, Handed;
    buffer.StoredFacts();
    var duplicate;
    duplicate, pieces, crashed := buffer.Take(shred.index, shred.data, shred.dataComplete, shred.lastInSlot, now,
                                              recovered);
    buffer.StoredFacts();
  }

  method NewBuffer(tx: TxCodec, ghost slot: nat) returns (b: SlotBuffer)
    ensures fresh(b) && Capped(b) && b.tx == tx && b.slot == slot && b.Footprint() == 0
    ensures Now(b) == BLANK && b.arena == [] && b.stale == 0 && b.shreds == map[]
  {
    b := new SlotBuffer(tx, slot);
    EmptyIsCapped(b);
  }

  lemma EmptyIsCapped(b: SlotBuffer)
    requires b.Valid() && b.held == map[] && b.Footprint() == 0
    ensures Capped(b)
  {
    b.StoredFacts();
  }
}
