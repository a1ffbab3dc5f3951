/** What is made of a packet's signature: the verdict on it, the cache of roots already verified
    that spares most packets the check, and what a good verdict is worth. */
module Verification {
  import opened Bytes
  import opened Collections
  import opened AgedMaps
  import opened Shreds
  import opened Merkle

  const MAX_VERIFIED_ROOTS := 16 * 1024

  type Key = nat
  /** Whether a signature by `Key` over `Node` fits. */
  type SignatureCheck = (Key, Node, seq<byte>) -> bool

  datatype Verdict = SignedByLeader | Unknown | Forged

  /** What the schedule answers for a slot: its leader, or that it has none to give, and then
      whether the cluster could have got to the slot at all. */
  datatype Answer = Leader(key: Key) | NoLeader(implausible: bool)

  /** A packet as it comes: the slot it claims, and what the schedule and the clock say then. */
  datatype Arrival = Arrival(packet: seq<byte>, slot: nat, answer: Answer, now: nat)

  /** The verdict on one packet, with the roots in `known` taken as verified for their slots. */
  function VerdictOf(check: SignatureCheck, known: set<(nat, Node)>, slot: nat, answer: Answer,
                     signed: Option<Signed>): Verdict {
    match answer
    case NoLeader(implausible) => if implausible then Forged else Unknown
    case Leader(key) =>
      match signed
      case None => Unknown
      case Some(s) =>
        if (slot, s.root) in known || check(key, s.root, s.signature) then SignedByLeader else Forged
  }

  /** The check without a cache in front of it. */
  function Uncached(check: SignatureCheck, slot: nat, answer: Answer, signed: Option<Signed>): Verdict {
    VerdictOf(check, {}, slot, answer, signed)
  }

  /** A packet whose own signature, by `key`, over the root it rebuilds, was found to fit. */
  datatype Evidence = Evidence(key: Key, packet: seq<byte>, version: nat)

  ghost predicate Proves(hash: Hasher, check: SignatureCheck, e: Evidence, root: Node) {
    var signed := SignedOf(hash, e.packet, e.version);
    signed.Some? && signed.value.root == root && check(e.key, root, signed.value.signature)
  }

  /** Everything cached was once proved, by the leader the schedule named for the slot. */
  ghost predicate Sound(hash: Hasher, check: SignatureCheck, known: set<(nat, Node)>,
                        trail: map<(nat, Node), Evidence>, leaders: nat -> Key, steady: bool)
  {
    && known <= trail.Keys
    && (forall k :: k in trail ==> Proves(hash, check, trail[k], k.1))
    && (steady ==> forall k :: k in trail ==> trail[k].key == leaders(k.0))
  }

  /** A cached verdict is the uncached one but where a root already verified meets a signature
      that does not fit it: the packet's own signature is then not looked at. */
  lemma CachedDiffersExactlyWhen(check: SignatureCheck, known: set<(nat, Node)>, slot: nat, answer: Answer,
                                 signed: Option<Signed>)
    ensures var cached := VerdictOf(check, known, slot, answer, signed);
            var uncached := Uncached(check, slot, answer, signed);
            && (uncached == SignedByLeader ==> cached == SignedByLeader)
            && (cached == Unknown <==> uncached == Unknown)
            && (cached != uncached <==>
                  answer.Leader? && signed.Some? && (slot, signed.value.root) in known
                  && !check(answer.key, signed.value.root, signed.value.signature))
  {
  }

  class Verifier {
    const hash: Hasher
    const check: SignatureCheck
    const verified: AgedMap<(nat, Node), ()>
    /** The evidence behind every root ever verified, and whether every answer of the schedule
        so far was `leaders`'. */
    ghost var trail: map<(nat, Node), Evidence>
    ghost const leaders: nat -> Key
    ghost var steady: bool

    constructor (hash: Hasher, check: SignatureCheck, ghost leaders: nat -> Key, retention: nat, now: nat)
      ensures Valid() && fresh(verified) && verified.entries == map[] && verified.retention == retention && steady
      ensures this.hash == hash && this.check == check && this.leaders == leaders
    {
      this.hash, this.check, this.leaders := hash, check, leaders;
      verified := new AgedMap(retention, MAX_VERIFIED_ROOTS, now);
      trail, steady := map[], true;
    }

    ghost predicate Valid()
      reads this, verified
    {
      verified.cap == MAX_VERIFIED_ROOTS && Sound(hash, check, verified.entries.Keys, trail, leaders, steady)
    }

    /** When a packet may be refused, and when it is taken for the leader's. It is refused just if the
        schedule calls its slot implausible, or names a leader whose signature is not that in
        front of the root it rebuilds, and that root is not cached; so never for a plausible slot
        without a leader, and never for want of a root while a leader is known. */
    ghost predicate Rightly(verdict: Verdict, known: set<(nat, Node)>, slot: nat, answer: Answer,
                            signed: Option<Signed>)
    {
      var vouched := answer.Leader? && signed.Some?
                     && ((slot, signed.value.root) in known
                         || check(answer.key, signed.value.root, signed.value.signature));
      && (verdict == SignedByLeader <==> vouched)
      && (verdict == Forged <==>
            (answer.NoLeader? && answer.implausible) || (answer.Leader? && signed.Some? && !vouched))
    }

    ghost predicate IsSeen(key: (nat, Node), slot: nat, signed: Option<Signed>)
    {
      signed.Some? && key == (slot, signed.value.root)
    }

    /** A run of packets, each checked when it comes. Nothing is refused but what the schedule calls
        implausible or some leader did not sign; and as long as the schedule has no leader to
        name, just the implausible is, and nothing is learnt. */
    method CheckEach(packets: seq<Arrival>, version: nat) returns (verdicts: seq<Verdict>)
      requires Valid()
      modifies this, verified
      ensures Valid() && |verdicts| == |packets|
      ensures forall i :: 0 <= i < |packets| && verdicts[i] == Forged ==> Refusable(packets[i], version)
      ensures (forall i :: 0 <= i < |packets| ==> packets[i].answer.NoLeader?) ==>
                && trail == old(trail) && verified.entries.Keys <= old(verified.entries.Keys)
                && forall i :: 0 <= i < |packets| ==>
                     verdicts[i] == if packets[i].answer.implausible then Forged else Unknown
    {
      hide SignedOf, Sound, VerdictOf, Since, IsSeen;
      verdicts := [];
      for k := 0 to |packets|
        invariant Valid() && |verdicts| == k
        invariant forall i :: 0 <= i < k && verdicts[i] == Forged ==> Refusable(packets[i], version)
        invariant (forall i :: 0 <= i < k ==> packets[i].answer.NoLeader?) ==>
                    && trail == old(trail) && verified.entries.Keys <= old(verified.entries.Keys)
                    && forall i :: 0 <= i < k ==>
                         verdicts[i] == if packets[i].answer.implausible then Forged else Unknown
      {
        var p := packets[k];
        var verdict; ghost var known;
        verdict, known := Check(p.packet, version, p.slot, p.answer, p.now);
        verdicts := verdicts + [verdict];
      }
    }

    ghost predicate Refusable(p: Arrival, version: nat)
    {
      match p.answer
      case NoLeader(implausible) => implausible
      case Leader(key) =>
        var signed := SignedOf(hash, p.packet, version);
        signed.Some? && !check(key, signed.value.root, signed.value.signature)
    }

    /** The verdict on one packet, given that of the roots cached only `known` have not aged
        out. */
    method Check(packet: seq<byte>, version: nat, slot: nat, answer: Answer, now: nat)
      returns (verdict: Verdict, ghost known: set<(nat, Node)>)
      requires Valid()
      modifies this, verified
      ensures Valid() && forall k :: k in old(trail) ==> k in trail && trail[k] == old(trail)[k]
      ensures verdict != SignedByLeader ==> trail == old(trail)
      ensures steady == (old(steady) && (answer.Leader? ==> answer.key == leaders(slot)))
      ensures known <= old(verified.entries.Keys)
      ensures forall k :: k in old(verified.entries) && k !in known ==>
                || Since(now, old(verified.entries)[k].updated) >= verified.retention
                || |old(verified.entries)| > MAX_VERIFIED_ROOTS
      ensures verdict == VerdictOf(check, known, slot, answer, SignedOf(hash, packet, version))
      ensures Rightly(verdict, known, slot, answer, SignedOf(hash, packet, version))
      ensures if verdict == SignedByLeader then
                && SignedOf(hash, packet, version).Some?
                && var seen := (slot, SignedOf(hash, packet, version).value.root);
                   verified.entries.Keys == known + {seen} && verified.entries[seen].updated == now && seen in trail
              else verified.entries.Keys == known
      ensures forall k :: k in verified.entries && !IsSeen(k, slot, SignedOf(hash, packet, version)) ==>
                k in old(verified.entries) && verified.entries[k] == old(verified.entries)[k]
    {
      hide SignedOf, SweptTo, Since, Sound;
      steady := steady && (answer.Leader? ==> answer.key == leaders(slot));
      var swept, expired := verified.Sweep(now);
      assert DroppedRightly(old(verified.entries), verified.entries, now, verified.retention, MAX_VERIFIED_ROOTS);
      known := verified.entries.Keys;
      StaysSound(hash, check, old(verified.entries.Keys), known, trail, leaders, old(steady), steady);
      if answer.NoLeader? {
        return if answer.implausible then Forged else Unknown, known;
      }
      var signed := Rebuild(hash, packet, version);
      if signed.None? {
        return Unknown, known;
      }
      verdict := CheckRoot(slot, answer.key, signed.value, Evidence(answer.key, packet, version), now);
    }

    /** The part of the check behind a root rebuilt: the cache first, the signature only for a
        root not in it. */
    method CheckRoot(slot: nat, key: Key, signed: Signed, ghost e: Evidence, now: nat) returns (verdict: Verdict)
      requires Valid() && e.key == key && SignedOf(hash, e.packet, e.version) == Some(signed)
      requires steady ==> key == leaders(slot)
      modifies this`trail, verified`entries
      ensures Valid() && forall k :: k in old(trail) ==> k in trail && trail[k] == old(trail)[k]
      ensures verdict != SignedByLeader ==> trail == old(trail)
      ensures verdict == VerdictOf(check, old(verified.entries.Keys), slot, Leader(key), Some(signed))
      ensures var seen := (slot, signed.root);
              if verdict == SignedByLeader then
                && verified.entries.Keys == old(verified.entries.Keys) + {seen}
                && verified.entries[seen].updated == now && seen in trail
              else verified.entries.Keys == old(verified.entries.Keys)
      ensures forall k :: k in verified.entries && k != (slot, signed.root) ==>
                k in old(verified.entries) && verified.entries[k] == old(verified.entries)[k]
    {
      hide SignedOf, Sound;
      var seen := (slot, signed.root);
      ghost var known := verified.entries.Keys;
      if seen in verified.entries {
        StaysSound(hash, check, known, known, trail, leaders, steady, steady);
        var _ := verified.Upsert(seen, now, ());
        assert verified.entries.Keys == known && known + {seen} == known;
        return SignedByLeader;
      }
      if !check(key, signed.root, signed.signature) {
        return Forged;
      }
      ghost var after := if seen in trail then trail else trail[seen := e];
      LearnsSound(hash, check, known, seen, e, trail, after, leaders, steady);
      trail := after;
      var _ := verified.Upsert(seen, now, ());
      assert verified.entries.Keys == known + {seen};
      return SignedByLeader;
    }

    /** What being called signed is worth, at whatever place of its batch: the packet has the root
        of a batch its slot's leader signed for, and parses to one of that batch's own shreds; or
        rebuilding its root hashes a string that collides with one the leader hashed. */
    lemma SignedIsGenuine(packet: seq<byte>, version: nat, slot: nat, batches: set<seq<seq<byte>>>)
      returns (batch: seq<seq<byte>>, genuine: seq<byte>, a: seq<byte>, b: seq<byte>)
      requires Valid() && steady && SignedOf(hash, packet, version).Some?
      requires (slot, SignedOf(hash, packet, version).value.root) in verified.entries
      requires SignsOnly(hash, check, leaders(slot), batches, version)
      ensures batch in batches && Batch(batch, version)
      ensures SignedOf(hash, packet, version).value.root == BatchRoot(hash, batch, version)
      ensures IsGenuine(hash, packet, version, batch, genuine, a, b)
    {
      hide SignedOf, IsGenuine, IsRootOf;
      SignedHasEvidence(slot, SignedOf(hash, packet, version).value.root);
      batch, genuine, a, b := GenuineIfRoot(hash, packet, version, batches);
    }

    /** Over any run, with any schedule: a packet called signed rebuilds a root that some packet
        before it, or it itself, carried a fitting signature over, and if the schedule never
        wavered, its own slot's leader's. */
    lemma SignedHasEvidence(slot: nat, root: Node)
      requires Valid() && (slot, root) in verified.entries
      ensures (slot, root) in trail && Proves(hash, check, trail[(slot, root)], root)
      ensures steady ==> trail[(slot, root)].key == leaders(slot)
    {
    }
  }

  lemma StaysSound(hash: Hasher, check: SignatureCheck, known: set<(nat, Node)>, fewer: set<(nat, Node)>,
                   trail: map<(nat, Node), Evidence>, leaders: nat -> Key, steady: bool, still: bool)
    requires Sound(hash, check, known, trail, leaders, steady) && fewer <= known && (still ==> steady)
    ensures Sound(hash, check, fewer, trail, leaders, still)
    ensures fewer <= trail.Keys
  {
  }

  lemma LearnsSound(hash: Hasher, check: SignatureCheck, known: set<(nat, Node)>, seen: (nat, Node), e: Evidence,
                    trail: map<(nat, Node), Evidence>, after: map<(nat, Node), Evidence>, leaders: nat -> Key,
                    steady: bool)
    requires Sound(hash, check, known, trail, leaders, steady)
    requires after == if seen in trail then trail else trail[seen := e]
    requires Proves(hash, check, e, seen.1) && (steady ==> e.key == leaders(seen.0))
    ensures Sound(hash, check, known + {seen}, after, leaders, steady)
  {
    hide Proves;
  }

  /** No signature by `key` fits but over the root of one of `batches`: what the leader signed,
      and that nobody else can sign for it. */
  ghost predicate SignsOnly(hash: Hasher, check: SignatureCheck, key: Key, batches: set<seq<seq<byte>>>, version: nat) {
    forall root: Node, signature: seq<byte> :: check(key, root, signature) ==> IsRootOf(hash, batches, version, root)
  }

  ghost predicate IsRootOf(hash: Hasher, batches: set<seq<seq<byte>>>, version: nat, root: Node) {
    exists batch :: batch in batches && Batch(batch, version) && root == BatchRoot(hash, batch, version)
  }

  /** The packet parses to this shred of the batch, or these two strings collide: one hashed to
      rebuild the packet's root, the other for the batch's own tree. */
  ghost predicate IsGenuine(hash: Hasher, packet: seq<byte>, version: nat, batch: seq<seq<byte>>, genuine: seq<byte>,
                            a: seq<byte>, b: seq<byte>)
    requires PartsOf(packet, version).Some? && Batch(batch, version)
  {
    || (genuine in batch && Parse(packet, version) == Parse(genuine, version))
    || Breaks(hash, a, b, HashedOf(hash, PartsOf(packet, version).value), BatchHashed(hash, batch, version))
  }

  lemma GenuineIfRoot(hash: Hasher, packet: seq<byte>, version: nat, batches: set<seq<seq<byte>>>)
    returns (batch: seq<seq<byte>>, genuine: seq<byte>, a: seq<byte>, b: seq<byte>)
    requires SignedOf(hash, packet, version).Some?
    requires IsRootOf(hash, batches, version, SignedOf(hash, packet, version).value.root)
    ensures batch in batches && Batch(batch, version)
    ensures SignedOf(hash, packet, version).value.root == BatchRoot(hash, batch, version)
    ensures IsGenuine(hash, packet, version, batch, genuine, a, b)
  {
    hide PartsOf, RootOf, Batch, BatchRoot, Breaks, Parse, HashedOf, BatchHashed;
    var root := SignedOf(hash, packet, version).value.root;
    batch :| batch in batches && Batch(batch, version) && root == BatchRoot(hash, batch, version);
    genuine := packet;
    a, b := RootOfTheBatch(hash, packet, batch, version);
    if k :| 0 <= k < |batch| && Parse(packet, version) == Parse(batch[k], version) {
      genuine := batch[k];
    }
  }

  // ---------------------------------------------------------------- a signature not looked at

  const LEADERS_SIGNATURE := seq(SIGNATURE, _ => 1 as byte)
  const STRANGERS_SIGNATURE := seq(SIGNATURE, _ => 2 as byte)

  /** A data shred with an empty proof, all zeros but for its signature and its variant. */
  function PlainPacket(signature: seq<byte>): seq<byte> {
    signature + ([0x90] + seq(DATA_PAYLOAD - SIGNATURE - 1, _ => 0 as byte))
  }

  lemma ZerosRead(body: seq<byte>, offset: nat, width: nat)
    requires offset + width <= |body| && forall k :: offset <= k < offset + width ==> body[k] == 0
    ensures ReadLE(body, offset, width) == Some(0)
  {
    ZerosAreZero(body[offset..offset + width]);
  }

  lemma PlainPacketHasRoot(hash: Hasher, signature: seq<byte>)
    requires |signature| == SIGNATURE
    ensures SignedOf(hash, PlainPacket(signature), 0).Some?
    ensures SignedOf(hash, PlainPacket(signature), 0).value.signature == signature
  {
    hide RootOf, ReadLE;
    var packet := PlainPacket(signature);
    var body := packet[SIGNATURE..];
    assert forall k :: 1 <= k < |body| ==> body[k] == 0;
    ZerosRead(body, VERSION, 2);
    ZerosRead(body, FEC_SET_INDEX, 4);
    ZerosRead(body, INDEX, 4);
  }

  lemma TwoFaces(hash: Hasher)
    ensures var genuine := SignedOf(hash, PlainPacket(LEADERS_SIGNATURE), 0);
            var forged := SignedOf(hash, PlainPacket(STRANGERS_SIGNATURE), 0);
            && genuine.Some? && genuine.value.signature == LEADERS_SIGNATURE
            && forged.Some? && forged.value.signature == STRANGERS_SIGNATURE
            && forged.value.root == genuine.value.root
    ensures LEADERS_SIGNATURE != STRANGERS_SIGNATURE
  {
    hide SignedOf;
    var genuine := PlainPacket(LEADERS_SIGNATURE);
    PlainPacketHasRoot(hash, LEADERS_SIGNATURE);
    PlainPacketHasRoot(hash, STRANGERS_SIGNATURE);
    SignatureIsNoPart(hash, genuine, STRANGERS_SIGNATURE, 0);
    assert STRANGERS_SIGNATURE + genuine[SIGNATURE..] == PlainPacket(STRANGERS_SIGNATURE);
    assert LEADERS_SIGNATURE[0] != STRANGERS_SIGNATURE[0];
  }

  lemma OneFreshEntry(m: map<(nat, Node), Aged<()>>, seen: (nat, Node), now: nat, retention: nat)
    requires m.Keys == {seen} && m[seen].updated == now && retention > 0
    ensures |m| == 1 && seen in m && Since(now, m[seen].updated) < retention
  {
    assert |m| == |m.Keys|;
  }

  /** A verifier that has seen one packet, with a signature that fits. */
  method CheckOnce(hash: Hasher, check: SignatureCheck, packet: seq<byte>, version: nat, key: Key, retention: nat,
                   now: nat)
    returns (v: Verifier, verdict: Verdict)
    requires retention > 0 && SignedOf(hash, packet, version).Some?
    requires var signed := SignedOf(hash, packet, version).value; check(key, signed.root, signed.signature)
    ensures v.Valid() && fresh(v) && fresh(v.verified) && v.steady && verdict == SignedByLeader
    ensures v.hash == hash && v.check == check && v.leaders(0) == key && v.verified.retention == retention
    ensures var seen := (0, SignedOf(hash, packet, version).value.root);
            v.verified.entries.Keys == {seen} && v.verified.entries[seen].updated == now
  {
    hide SignedOf, Sound;
    v := new Verifier(hash, check, _ => key, retention, now);
    ghost var known;
    verdict, known := v.Check(packet, version, 0, Leader(key), now);
    assert known == {};
  }

  /** A packet checked, and then at once another that rebuilds the same root under a signature
      that does not fit it: the second passes too. */
  method CheckTwice(hash: Hasher, check: SignatureCheck, genuine: seq<byte>, forged: seq<byte>, version: nat, key: Key,
                    retention: nat, now: nat)
    returns (first: Verdict, second: Verdict)
    requires retention > 0 && SignedOf(hash, genuine, version).Some? && SignedOf(hash, forged, version).Some?
    requires SignedOf(hash, genuine, version).value.root == SignedOf(hash, forged, version).value.root
    requires var signed := SignedOf(hash, genuine, version).value; check(key, signed.root, signed.signature)
    ensures first == second == SignedByLeader
  {
    hide SignedOf, Sound;
    var v;
    ghost var known;
    v, first := CheckOnce(hash, check, genuine, version, key, retention, now);
    ghost var seen := (0 as nat, SignedOf(hash, genuine, version).value.root);
    OneFreshEntry(v.verified.entries, seen, now, retention);
    second, known := v.Check(forged, version, 0, Leader(key), now);
    assert seen in known;
  }

  /** It happens: the leader's packet, and then the same packet under a stranger's signature,
      which no check without a cache would let by. */
  method AStrangersSignaturePasses(hash: Hasher, retention: nat, now: nat)
    returns (first: Verdict, second: Verdict, ghost alone: Verdict)
    requires retention > 0
    ensures first == second == SignedByLeader && alone == Forged
  {
    hide SignedOf, PlainPacket, LEADERS_SIGNATURE, STRANGERS_SIGNATURE;
    var check: SignatureCheck := (key, root, signature) => signature == LEADERS_SIGNATURE;
    var genuine, forged := PlainPacket(LEADERS_SIGNATURE), PlainPacket(STRANGERS_SIGNATURE);
    TwoFaces(hash);
    first, second := CheckTwice(hash, check, genuine, forged, 0, 0, retention, now);
    alone := Uncached(check, 0, Leader(0), SignedOf(hash, forged, 0));
  }

  // ---------------------------------------------------------------- a leader of one batch

  lemma PlainPacketHasNoProof(hash: Hasher, packet: seq<byte>)
    requires packet == PlainPacket(LEADERS_SIGNATURE) && SignedOf(hash, packet, 0).Some?
    ensures Batch([packet], 0) && SignedOf(hash, packet, 0).value.root == BatchRoot(hash, [packet], 0)
  {
    hide ReadLE, LeafIndex, LeafBytes, LeafNode, Cut, ParentBytes, Join;
    var parts := PartsOf(packet, 0).value;
    LeafNodeIs(hash, parts.leaf);
    assert ProofLength(0x90) == 0 && packet[SIGNATURE] == 0x90;
    ClimbsOne(hash, LeafBytes(parts.leaf), parts.index, parts.proof);
    assert LeavesOf([packet], 0) == [parts.leaf];
  }

  lemma SignsOne(hash: Hasher, check: SignatureCheck, key: Key, batch: seq<seq<byte>>, version: nat)
    requires Batch(batch, version)
    requires forall root, signature :: check(key, root, signature) ==> root == BatchRoot(hash, batch, version)
    ensures SignsOnly(hash, check, key, {batch}, version)
  {
    hide Batch, BatchRoot;
    forall root, signature | check(key, root, signature)
      ensures IsRootOf(hash, {batch}, version, root)
    {
      assert batch in {batch};
    }
  }

  /** What `SignedIsGenuine` asks for can be had: a leader that signs the root of one batch and
      nothing else, and a verifier that has seen it do so. */
  method SomeRootIsSigned(hash: Hasher, retention: nat, now: nat)
    returns (v: Verifier, packet: seq<byte>)
    requires retention > 0
    ensures v.Valid() && v.steady && v.hash == hash && SignedOf(hash, packet, 0).Some?
    ensures (0, SignedOf(hash, packet, 0).value.root) in v.verified.entries
    ensures SignsOnly(hash, v.check, v.leaders(0), {[packet]}, 0)
  {
    hide SignedOf, PlainPacket, Batch, BatchRoot, Sound, SignsOnly, LEADERS_SIGNATURE;
    packet := PlainPacket(LEADERS_SIGNATURE);
    TwoFaces(hash);
    PlainPacketHasNoProof(hash, packet);
    var root := SignedOf(hash, packet, 0).value.root;
    var check: SignatureCheck := (key, node, signature) => node == root;
    var verdict;
    v, verdict := CheckOnce(hash, check, packet, 0, 0, retention, now);
    SignsOne(hash, check, 0, [packet], 0);
  }
}
