/** The Merkle root a leader signed, rebuilt from one shred and the proof it carries. */
module Merkle {
  import opened Bytes
  import opened Collections
  import Runs
  import opened Shreds

  type Node = seq<byte>

  const HASH := 32

  function SomeHash(): (f: seq<byte> -> Node)
    ensures forall b :: |f(b)| == HASH
  {
    b => seq(HASH, _ => (|b| % 256) as byte)
  }

  /** Any function to thirty-two bytes. What it would take to break one is said where it
      matters. */
  type Hasher = f: seq<byte> -> Node | forall b :: |f(b)| == HASH witness SomeHash()

  function BytesOf(s: string): (b: seq<byte>)
    ensures |b| == |s|
  {
    seq(|s|, i requires 0 <= i < |s| => (s[i] as int % 256) as byte)
  }

  const LEAF_PREFIX: seq<byte> := [0] + BytesOf("SOLANA_MERKLE_SHREDS_LEAF")
  const NODE_PREFIX: seq<byte> := [1] + BytesOf("SOLANA_MERKLE_SHREDS_NODE")

  datatype Signed = Signed(signature: seq<byte>, root: Node)

  /** A node goes into its parent cut to what a proof carries of it. */
  function Cut(node: Node): Node
    requires |node| == HASH
  {
    node[..PROOF_ENTRY]
  }

  function LeafBytes(leaf: seq<byte>): seq<byte> {
    LEAF_PREFIX + leaf
  }

  /** What a node's parent hashes: the node and its sibling, the one at an even index first. */
  function ParentBytes(node: Node, index: nat, sibling: Node): seq<byte>
    requires |node| == HASH
  {
    if index % 2 == 0 then NODE_PREFIX + Cut(node) + sibling else NODE_PREFIX + sibling + Cut(node)
  }

  /** A proof folded over `bytes`, what the node it starts at hashes. */
  function Climb(hash: Hasher, bytes: seq<byte>, index: nat, proof: seq<byte>): (root: Node)
    ensures |root| == HASH
    decreases |proof|
  {
    if |proof| < PROOF_ENTRY then hash(bytes)
    else Climb(hash, ParentBytes(hash(bytes), index, proof[..PROOF_ENTRY]), index / 2, proof[PROOF_ENTRY..])
  }

  // ---------------------------------------------------------------- the packet

  /** Where in the packet the proof begins. */
  function ProofOffset(variant: byte): (r: Option<nat>)
    ensures r.Some? ==> SIGNATURE <= r.value
  {
    var cut := ProofLength(variant) + if Resigned(variant) then SIGNATURE else 0;
    if Kind(variant) == 0x9 || Kind(variant) == 0xb then Some(DATA_PAYLOAD - cut)
    else if Kind(variant) == 0x6 || Kind(variant) == 0x7 then Some(CODE_PAYLOAD - cut)
    else None
  }

  /** Which leaf of its batch's tree a shred is: data shreds in index order, then coding
      shreds in position order. */
  function LeafIndex(body: seq<byte>): Option<nat> {
    if body == [] then None
    else if Kind(body[0]) == 0x9 || Kind(body[0]) == 0xb then
      var first, index := ReadLE(body, FEC_SET_INDEX, 4), ReadLE(body, INDEX, 4);
      if first.Some? && index.Some? && first.value <= index.value then Some(index.value - first.value) else None
    else
      var numData, position := ReadLE(body, CODE_NUM_DATA, 2), ReadLE(body, CODE_POSITION, 2);
      if numData.Some? && position.Some? then Some(numData.value + position.value) else None
  }

  /** The parts of a packet its root is made of. */
  datatype Parts = Parts(leaf: seq<byte>, index: nat, proof: seq<byte>)

  function PartsOf(packet: seq<byte>, version: nat): (r: Option<Parts>)
    ensures r.Some? ==> |packet| > SIGNATURE && |r.value.proof| == ProofLength(packet[SIGNATURE])
  {
    if |packet| < SIGNATURE then None else
      var body := packet[SIGNATURE..];
      if ReadLE(body, VERSION, 2) != Some(version) || body == [] then None else
        match ProofOffset(body[0])
        case None => None
        case Some(offset) =>
          var length := ProofLength(body[0]);
          if offset + length > |packet| || LeafIndex(body).None? then None
          else Some(Parts(packet[SIGNATURE..offset], LeafIndex(body).value, packet[offset..offset + length]))
  }

  function RootOf(hash: Hasher, parts: Parts): Node {
    Climb(hash, LeafBytes(parts.leaf), parts.index, parts.proof)
  }

  function SignedOf(hash: Hasher, packet: seq<byte>, version: nat): Option<Signed> {
    match PartsOf(packet, version)
    case None => None
    case Some(parts) => Some(Signed(packet[..SIGNATURE], RootOf(hash, parts)))
  }

  /** The signature in front of a packet is no part of what its root is rebuilt from. */
  lemma SignatureIsNoPart(hash: Hasher, packet: seq<byte>, signature: seq<byte>, version: nat)
    requires |packet| >= SIGNATURE && |signature| == SIGNATURE
    ensures PartsOf(signature + packet[SIGNATURE..], version) == PartsOf(packet, version)
    ensures var other := SignedOf(hash, signature + packet[SIGNATURE..], version);
            match SignedOf(hash, packet, version)
            case None => other == None
            case Some(signed) => other == Some(Signed(signature, signed.root))
  {
    hide ReadLE, LeafIndex, RootOf, ProofOffset, ProofLength;
    var other := signature + packet[SIGNATURE..];
    assert other[SIGNATURE..] == packet[SIGNATURE..] && other[..SIGNATURE] == signature;
    if packet[SIGNATURE..] != [] && ProofOffset(packet[SIGNATURE]).Some? {
      var offset, length := ProofOffset(packet[SIGNATURE]).value, ProofLength(packet[SIGNATURE]);
      if offset + length <= |packet| {
        assert other[SIGNATURE..offset] == packet[SIGNATURE..offset];
        assert other[offset..offset + length] == packet[offset..offset + length];
      }
    }
  }

  lemma ClimbsOne(hash: Hasher, bytes: seq<byte>, index: nat, proof: seq<byte>)
    ensures Climb(hash, bytes, index, proof) ==
            if |proof| < PROOF_ENTRY then hash(bytes)
            else Climb(hash, ParentBytes(hash(bytes), index, proof[..PROOF_ENTRY]), index / 2, proof[PROOF_ENTRY..])
  {
  }

  lemma ClimbsFrom(hash: Hasher, bytes: seq<byte>, index: nat, proof: seq<byte>, k: nat)
    requires k + PROOF_ENTRY <= |proof|
    ensures Climb(hash, bytes, index, proof[k..]) ==
            Climb(hash, ParentBytes(hash(bytes), index, proof[k..k + PROOF_ENTRY]), index / 2, proof[k + PROOF_ENTRY..])
  {
    hide Climb, ParentBytes;
    assert proof[k..][..PROOF_ENTRY] == proof[k..k + PROOF_ENTRY];
    assert proof[k..][PROOF_ENTRY..] == proof[k + PROOF_ENTRY..];
    ClimbsOne(hash, bytes, index, proof[k..]);
  }

  /** Folds a leaf along its proof. */
  method Fold(hash: Hasher, parts: Parts) returns (node: Node)
    ensures node == RootOf(hash, parts)
  {
    hide Climb, ParentBytes, LeafBytes;
    var index, proof := parts.index, parts.proof;
    var bytes := LeafBytes(parts.leaf);
    node := hash(bytes);
    var k := 0;
    assert proof[0..] == proof;
    while k + PROOF_ENTRY <= |proof|
      invariant k <= |proof| && node == hash(bytes)
      invariant Climb(hash, bytes, index, proof[k..]) == RootOf(hash, parts)
      decreases |proof| - k
    {
      var sibling := proof[k..k + PROOF_ENTRY];
      ClimbsFrom(hash, bytes, index, proof, k);
      bytes := ParentBytes(node, index, sibling);
      node := hash(bytes);
      index := index / 2;
      k := k + PROOF_ENTRY;
    }
    ClimbsOne(hash, bytes, index, proof[k..]);
  }

  /** What a packet says about who produced it: a signature, and the root it would have to
      have been made over, rebuilt from the packet's own bytes. */
  method Rebuild(hash: Hasher, packet: seq<byte>, version: nat) returns (signed: Option<Signed>)
    ensures signed == SignedOf(hash, packet, version)
  {
    hide FromLE, Climb, LeafIndex, RootOf;
    if |packet| < SIGNATURE {
      return None;
    }
    var body := packet[SIGNATURE..];
    if ReadLE(body, VERSION, 2) != Some(version) || body == [] {
      return None;
    }
    var offset := ProofOffset(body[0]);
    var length := ProofLength(body[0]);
    if offset.None? || offset.value + length > |packet| {
      return None;
    }
    var index := LeafIndex(body);
    if index.None? {
      return None;
    }
    var root := Fold(hash,
        Parts(packet[SIGNATURE..offset.value], index.value, packet[offset.value..offset.value + length]));
    return Some(Signed(packet[..SIGNATURE], root));
  }

  // ---------------------------------------------------------------- the leader's tree

  ghost predicate Hashes(nodes: seq<Node>) {
    nodes != [] && forall i :: 0 <= i < |nodes| ==> |nodes[i]| == HASH
  }

  /** The `k`-th node of the next level up: two neighbours joined, or a last one joined to
      itself. */
  function Join(hash: Hasher, nodes: seq<Node>, k: nat): (node: Node)
    requires Hashes(nodes) && 2 * k < |nodes|
    ensures |node| == HASH
  {
    var left := 2 * k;
    var right := if left + 1 < |nodes| then left + 1 else left;
    hash(NODE_PREFIX + nodes[left][..PROOF_ENTRY] + nodes[right][..PROOF_ENTRY])
  }

  function Up(hash: Hasher, nodes: seq<Node>): (up: seq<Node>)
    requires Hashes(nodes)
    ensures |up| == (|nodes| + 1) / 2 && Hashes(up)
    ensures forall k :: 0 <= k < |up| ==> up[k] == Join(hash, nodes, k)
  {
    seq((|nodes| + 1) / 2, k requires 0 <= k < (|nodes| + 1) / 2 => Join(hash, nodes, k))
  }

  function TreeRoot(hash: Hasher, nodes: seq<Node>): Node
    requires Hashes(nodes)
    decreases |nodes|
  {
    if |nodes| == 1 then nodes[0] else TreeRoot(hash, Up(hash, nodes))
  }

  function SiblingOf(count: nat, i: nat): (s: nat)
    requires i < count
    ensures s < count
  {
    if i % 2 == 1 then i - 1 else if i + 1 < count then i + 1 else i
  }

  /** The proof a leader puts in the shred whose leaf is the `i`-th. */
  function PathOf(hash: Hasher, nodes: seq<Node>, i: nat): (path: seq<byte>)
    requires Hashes(nodes) && i < |nodes|
    ensures |nodes| == 1 ==> path == []
    ensures |nodes| > 1 ==> |path| >= PROOF_ENTRY
    decreases |nodes|
  {
    if |nodes| == 1 then [] else Cut(nodes[SiblingOf(|nodes|, i)]) + PathOf(hash, Up(hash, nodes), i / 2)
  }

  lemma JoinOf(hash: Hasher, nodes: seq<Node>, k: nat, left: Node, right: Node)
    requires Hashes(nodes) && 2 * k < |nodes| && left == nodes[2 * k]
    requires right == nodes[if 2 * k + 1 < |nodes| then 2 * k + 1 else 2 * k]
    ensures Join(hash, nodes, k) == hash(ParentBytes(left, 0, Cut(right)))
  {
    hide NODE_PREFIX;
    assert ParentBytes(left, 0, Cut(right)) == NODE_PREFIX + left[..PROOF_ENTRY] + right[..PROOF_ENTRY];
  }

  lemma ParentOf(hash: Hasher, nodes: seq<Node>, i: nat)
    requires Hashes(nodes) && i < |nodes|
    ensures i / 2 < |Up(hash, nodes)|
    ensures Up(hash, nodes)[i / 2] == hash(ParentBytes(nodes[i], i, Cut(nodes[SiblingOf(|nodes|, i)])))
  {
    hide ParentBytes, Cut, Join, Up;
    var k, s := i / 2, SiblingOf(|nodes|, i);
    assert i == 2 * k || i == 2 * k + 1;
    if i == 2 * k {
      JoinOf(hash, nodes, k, nodes[i], nodes[s]);
      Sides(nodes[i], nodes[s], i);
    } else {
      JoinOf(hash, nodes, k, nodes[s], nodes[i]);
      Sides(nodes[s], nodes[i], i);
    }
  }

  lemma Sides(left: Node, right: Node, i: nat)
    requires |left| == HASH && |right| == HASH
    ensures i % 2 == 0 ==> ParentBytes(left, i, Cut(right)) == ParentBytes(left, 0, Cut(right))
    ensures i % 2 == 1 ==> ParentBytes(right, i, Cut(left)) == ParentBytes(left, 0, Cut(right))
  {
  }

  /** Completeness: a leaf folded along its own path gives the root of the tree. */
  lemma {:induction false} PathLeadsToRoot(hash: Hasher, nodes: seq<Node>, i: nat, bytes: seq<byte>)
    requires Hashes(nodes) && i < |nodes| && nodes[i] == hash(bytes)
    ensures Climb(hash, bytes, i, PathOf(hash, nodes, i)) == TreeRoot(hash, nodes)
    decreases |nodes|
  {
    hide ParentBytes, Up, Climb;
    var path := PathOf(hash, nodes, i);
    ClimbsOne(hash, bytes, i, path);
    if |nodes| > 1 {
      var sibling := Cut(nodes[SiblingOf(|nodes|, i)]);
      assert path[..PROOF_ENTRY] == sibling;
      assert path[PROOF_ENTRY..] == PathOf(hash, Up(hash, nodes), i / 2);
      ParentOf(hash, nodes, i);
      PathLeadsToRoot(hash, Up(hash, nodes), i / 2, ParentBytes(nodes[i], i, sibling));
    }
  }

  /** A packet made of a leaf of the tree, its place and its path rebuilds the tree's root. */
  lemma LeadersShredRebuildsRoot(hash: Hasher, packet: seq<byte>, version: nat, leaves: seq<seq<byte>>)
    requires PartsOf(packet, version).Some? && leaves != []
    requires var parts := PartsOf(packet, version).value;
             && parts.index < |leaves| && parts.leaf == leaves[parts.index]
             && parts.proof == PathOf(hash, LeafNodes(hash, leaves), parts.index)
    ensures SignedOf(hash, packet, version) ==
            Some(Signed(packet[..SIGNATURE], TreeRoot(hash, LeafNodes(hash, leaves))))
  {
    var parts := PartsOf(packet, version).value;
    PathLeadsToRoot(hash, LeafNodes(hash, leaves), parts.index, LeafBytes(parts.leaf));
  }

  // ---------------------------------------------------------------- a packet as its leader lays it out

  /** What follows a body in its packet: the proof, and the retransmitter's signature if the
      variant says that there is one. */
  ghost predicate Follows(variant: byte, proof: seq<byte>, resent: seq<byte>) {
    && |proof| == (variant % 16) as nat * PROOF_ENTRY
    && |resent| == if Kind(variant) == 0x7 || Kind(variant) == 0xb then SIGNATURE else 0
  }

  lemma PacketCuts(signature: seq<byte>, leaf: seq<byte>, proof: seq<byte>, resent: seq<byte>)
    requires |signature| == SIGNATURE
    ensures var packet := signature + leaf + proof + resent; var end := SIGNATURE + |leaf|;
            && |packet| == end + |proof| + |resent| && packet[..SIGNATURE] == signature
            && packet[SIGNATURE..] == leaf + (proof + resent)
            && packet[SIGNATURE..end] == leaf && packet[end..end + |proof|] == proof
  {
  }

  lemma SamePrefix(leaf: seq<byte>, behind: seq<byte>, offset: nat, width: nat)
    requires offset + width <= |leaf|
    ensures ReadLE(leaf + behind, offset, width) == ReadLE(leaf, offset, width)
  {
    assert (leaf + behind)[offset..offset + width] == leaf[offset..offset + width];
  }

  /** The parts of a packet so laid out, read off the layout alone. */
  lemma PartsLaidOut(signature: seq<byte>, leaf: seq<byte>, proof: seq<byte>, resent: seq<byte>, version: nat, k: nat)
    requires |signature| == SIGNATURE && CODE_HEADERS <= |leaf| && Follows(leaf[0], proof, resent)
    requires ReadLE(leaf, VERSION, 2) == Some(version)
    requires if Kind(leaf[0]) == 0x9 || Kind(leaf[0]) == 0xb then
               && SIGNATURE + |leaf| + |proof| + |resent| == DATA_PAYLOAD
               && ReadLE(leaf, FEC_SET_INDEX, 4).Some? && ReadLE(leaf, INDEX, 4).Some?
               && ReadLE(leaf, INDEX, 4).value == ReadLE(leaf, FEC_SET_INDEX, 4).value + k
             else
               && (Kind(leaf[0]) == 0x6 || Kind(leaf[0]) == 0x7)
               && SIGNATURE + |leaf| + |proof| + |resent| == CODE_PAYLOAD
               && ReadLE(leaf, CODE_NUM_DATA, 2).Some? && ReadLE(leaf, CODE_POSITION, 2).Some?
               && k == ReadLE(leaf, CODE_NUM_DATA, 2).value + ReadLE(leaf, CODE_POSITION, 2).value
    ensures PartsOf(signature + leaf + proof + resent, version) == Some(Parts(leaf, k, proof))
  {
    hide ReadLE;
    var body := leaf + (proof + resent);
    PacketCuts(signature, leaf, proof, resent);
    SamePrefix(leaf, proof + resent, VERSION, 2);
    SamePrefix(leaf, proof + resent, FEC_SET_INDEX, 4);
    SamePrefix(leaf, proof + resent, INDEX, 4);
    SamePrefix(leaf, proof + resent, CODE_NUM_DATA, 2);
    SamePrefix(leaf, proof + resent, CODE_POSITION, 2);
  }

  /** A data shred's packet: it parses to the shred, and as the leaf at its place in its batch, data
      shreds in front, it rebuilds the root of the batch's tree. */
  lemma DataPacketComesBack(hash: Hasher, signature: seq<byte>, variant: byte, version: nat, parent: nat, flags: byte,
                            s: DataShred, padding: seq<byte>, chained: Node, resent: seq<byte>, leaves: seq<seq<byte>>)
    requires |signature| == SIGNATURE && (Kind(variant) == 0x9 || Kind(variant) == 0xb)
    requires s.slot < Power256(8) && s.index < Runs.INDEX_LIMIT && s.fecSetIndex <= s.index && version < Power256(2)
    requires s.dataComplete == ((flags / 64) % 2 == 1) && s.lastInSlot == (flags / 64 == 3)
    requires s.referenceTick == (flags % 64) as nat
    requires Some(DATA_HEADERS + |s.data| + |padding|) == ShardLen(variant) && |chained| == MERKLE_ROOT
    requires var body := DataBody(variant, version, parent, flags, s, padding, chained);
             var k := s.index - s.fecSetIndex;
             && s.shard == body[..DATA_HEADERS + |s.data| + |padding|]
             && k < |leaves| && leaves[k] == body
             && Follows(variant, PathOf(hash, LeafNodes(hash, leaves), k), resent)
    ensures var body := DataBody(variant, version, parent, flags, s, padding, chained);
            var path := PathOf(hash, LeafNodes(hash, leaves), s.index - s.fecSetIndex);
            var packet := signature + body + path + resent;
            && SignedOf(hash, packet, version) == Some(Signed(signature, TreeRoot(hash, LeafNodes(hash, leaves))))
            && Parse(packet, version) == Some(Data(s))
  {
    hide ReadLE, ToLE, Power256, PathOf, TreeRoot, Climb, ParentBytes, PartsOf, ParseData, LeafBytes,
         DataBody;
    var body := DataBody(variant, version, parent, flags, s, padding, chained);
    var k := s.index - s.fecSetIndex;
    var path := PathOf(hash, LeafNodes(hash, leaves), k);
    var packet := signature + body + path + resent;
    DataFieldsRead(variant, version, parent, flags, s, padding, chained);
    EveryVariantHasAShard(variant);
    PartsLaidOut(signature, body, path, resent, version, k);
    LeadersShredRebuildsRoot(hash, packet, version, leaves);
    PacketCuts(signature, body, path, resent);
    DataTail(variant, version, parent, flags, s, padding, chained, path + resent);
    ParseInvertsBody(variant, version, parent, flags, s, padding, chained + (path + resent));
  }

  lemma DataTail(variant: byte, version: nat, parent: nat, flags: byte, s: DataShred, padding: seq<byte>,
                 tail: seq<byte>, behind: seq<byte>)
    ensures var body := DataBody(variant, version, parent, flags, s, padding, tail);
            && DataBody(variant, version, parent, flags, s, padding, tail + behind) == body + behind
            && |body| == DATA_HEADERS + |s.data| + |padding| + |tail|
            && (body + behind)[..DATA_HEADERS + |s.data| + |padding|] == body[..DATA_HEADERS + |s.data| + |padding|]
  {
    hide ToLE;
  }

  lemma DataFieldsRead(variant: byte, version: nat, parent: nat, flags: byte, s: DataShred, padding: seq<byte>,
                       tail: seq<byte>)
    requires s.index < Runs.INDEX_LIMIT && s.fecSetIndex <= s.index && version < Power256(2)
    ensures var body := DataBody(variant, version, parent, flags, s, padding, tail);
            && |body| == DATA_HEADERS + |s.data| + |padding| + |tail| && body[0] == variant
            && ReadLE(body, VERSION, 2) == Some(version) && ReadLE(body, INDEX, 4) == Some(s.index)
            && ReadLE(body, FEC_SET_INDEX, 4) == Some(s.fecSetIndex)
  {
    hide FromLE, ToLE, Power256;
    Widths();
    FromToLE(s.index, 4);
    FromToLE(version, 2);
    FromToLE(s.fecSetIndex, 4);
    BodyFields(variant, ToLE(s.slot, 8), ToLE(s.index, 4), ToLE(version, 2), ToLE(s.fecSetIndex, 4), ToLE(parent, 2),
               flags, ToLE(SIGNATURE + DATA_HEADERS + |s.data|, 2), s.data, padding, tail);
  }

  /** And a coding shred's, whose place is behind all data shreds of its batch. */
  lemma CodingPacketComesBack(hash: Hasher, signature: seq<byte>, variant: byte, index: nat, version: nat,
                              s: CodingShred, chained: Node, resent: seq<byte>, leaves: seq<seq<byte>>)
    requires |signature| == SIGNATURE && (Kind(variant) == 0x6 || Kind(variant) == 0x7)
    requires s.slot < Power256(8) && s.fecSetIndex < Runs.INDEX_LIMIT && version < Power256(2) && index < Power256(4)
    requires s.numData < Power256(2) && s.numCoding < Power256(2) && s.position < Power256(2)
    requires Some(|s.shard|) == ShardLen(variant) && |chained| == MERKLE_ROOT
    requires var body := CodingBody(variant, index, version, s, chained);
             var k := s.numData + s.position;
             && k < |leaves| && leaves[k] == body
             && Follows(variant, PathOf(hash, LeafNodes(hash, leaves), k), resent)
    ensures var body := CodingBody(variant, index, version, s, chained);
            var path := PathOf(hash, LeafNodes(hash, leaves), s.numData + s.position);
            var packet := signature + body + path + resent;
            && SignedOf(hash, packet, version) == Some(Signed(signature, TreeRoot(hash, LeafNodes(hash, leaves))))
            && Parse(packet, version) == Some(Coding(s))
  {
    hide ReadLE, ToLE, Power256, PathOf, TreeRoot, Climb, ParentBytes, PartsOf, ParseCoding, LeafBytes,
         CodingBody;
    var body := CodingBody(variant, index, version, s, chained);
    var k := s.numData + s.position;
    var path := PathOf(hash, LeafNodes(hash, leaves), k);
    var packet := signature + body + path + resent;
    CodingFieldsRead(variant, index, version, s, chained);
    EveryVariantHasAShard(variant);
    PartsLaidOut(signature, body, path, resent, version, k);
    LeadersShredRebuildsRoot(hash, packet, version, leaves);
    PacketCuts(signature, body, path, resent);
    CodingTail(variant, index, version, s, chained, path + resent);
    ParseInvertsCodingBody(variant, index, version, s, chained + (path + resent));
  }

  lemma CodingTail(variant: byte, index: nat, version: nat, s: CodingShred, tail: seq<byte>, behind: seq<byte>)
    ensures CodingBody(variant, index, version, s, tail + behind) ==
            CodingBody(variant, index, version, s, tail) + behind
  {
    hide ToLE;
  }

  lemma CodingFieldsRead(variant: byte, index: nat, version: nat, s: CodingShred, tail: seq<byte>)
    requires version < Power256(2) && s.numData < Power256(2) && s.position < Power256(2)
    ensures var body := CodingBody(variant, index, version, s, tail);
            && |body| == CODE_HEADERS + |s.shard| + |tail| && body[0] == variant
            && ReadLE(body, VERSION, 2) == Some(version)
            && ReadLE(body, CODE_NUM_DATA, 2) == Some(s.numData) && ReadLE(body, CODE_POSITION, 2) == Some(s.position)
  {
    hide FromLE, ToLE, Power256;
    FromToLE(version, 2);
    FromToLE(s.numData, 2);
    FromToLE(s.position, 2);
    CodingBodyFields(variant, ToLE(s.slot, 8), ToLE(index, 4), ToLE(version, 2), ToLE(s.fecSetIndex, 4),
                     ToLE(s.numData, 2), ToLE(s.numCoding, 2), ToLE(s.position, 2), s.shard, tail);
  }

  function LeafNode(hash: Hasher, leaf: seq<byte>): (node: Node)
    ensures |node| == HASH
  {
    hash(LEAF_PREFIX + leaf)
  }

  lemma LeafNodeIs(hash: Hasher, leaf: seq<byte>)
    ensures LeafNode(hash, leaf) == hash(LeafBytes(leaf))
  {
    hide LEAF_PREFIX;
  }

  function LeafNodes(hash: Hasher, leaves: seq<seq<byte>>): (nodes: seq<Node>)
    requires leaves != []
    ensures Hashes(nodes) && |nodes| == |leaves|
    ensures forall i :: 0 <= i < |leaves| ==> nodes[i] == LeafNode(hash, leaves[i])
  {
    seq(|leaves|, i requires 0 <= i < |leaves| => LeafNode(hash, leaves[i]))
  }

  // ---------------------------------------------------------------- what a root binds

  /** Two different strings alike in the bytes a proof carries of their hashes. Every hash has
      such a pair; to hold one is to have broken it, so it matters where the two come from. */
  ghost predicate Collision(hash: Hasher, x: seq<byte>, y: seq<byte>) {
    x != y && Cut(hash(x)) == Cut(hash(y))
  }

  /** A collision between strings really hashed, one of these with one of those. */
  ghost predicate Breaks(hash: Hasher, a: seq<byte>, b: seq<byte>, these: set<seq<byte>>, those: set<seq<byte>>) {
    a in these && b in those && Collision(hash, a, b)
  }

  lemma BreaksMore(hash: Hasher, a: seq<byte>, b: seq<byte>, these: set<seq<byte>>, more: set<seq<byte>>,
                   those: set<seq<byte>>, yet: set<seq<byte>>)
    requires these <= more && those <= yet
    ensures Breaks(hash, a, b, these, those) ==> Breaks(hash, a, b, more, yet)
  {
  }

  /** The strings a climb hashes. */
  ghost function Hashed(hash: Hasher, bytes: seq<byte>, index: nat, proof: seq<byte>): (all: set<seq<byte>>)
    ensures bytes in all
    decreases |proof|
  {
    if |proof| < PROOF_ENTRY then {bytes}
    else {bytes} + Hashed(hash, ParentBytes(hash(bytes), index, proof[..PROOF_ENTRY]), index / 2, proof[PROOF_ENTRY..])
  }

  /** A climb goes where the rest of it goes, and hashes what the rest of it hashes. */
  lemma ClimbsOn(hash: Hasher, bytes: seq<byte>, index: nat, proof: seq<byte>, up: seq<byte>, rest: seq<byte>)
    requires |proof| >= PROOF_ENTRY && rest == proof[PROOF_ENTRY..]
    requires up == ParentBytes(hash(bytes), index, proof[..PROOF_ENTRY])
    ensures Climb(hash, bytes, index, proof) == Climb(hash, up, index / 2, rest)
    ensures Hashed(hash, up, index / 2, rest) <= Hashed(hash, bytes, index, proof)
  {
    hide ParentBytes, Cut;
  }

  /** Two indices that turn the same way at each of `n` levels. */
  predicate SameTurns(i: nat, j: nat, n: nat) {
    n == 0 || (i % 2 == j % 2 && SameTurns(i / 2, j / 2, n - 1))
  }

  lemma ParentBinds(a: Node, b: Node, i: nat, j: nat, s: Node, t: Node)
    requires |a| == HASH && |b| == HASH && |s| == PROOF_ENTRY && |t| == PROOF_ENTRY && i % 2 == j % 2
    requires ParentBytes(a, i, s) == ParentBytes(b, j, t)
    ensures Cut(a) == Cut(b) && s == t
  {
    hide NODE_PREFIX;
    var n := |NODE_PREFIX|;
    var x, y := ParentBytes(a, i, s), ParentBytes(b, j, t);
    assert x[n..n + PROOF_ENTRY] == if i % 2 == 0 then Cut(a) else s;
    assert x[n + PROOF_ENTRY..] == if i % 2 == 0 then s else Cut(a);
    assert y[n..n + PROOF_ENTRY] == if i % 2 == 0 then Cut(b) else t;
    assert y[n + PROOF_ENTRY..] == if i % 2 == 0 then t else Cut(b);
  }

  lemma SameParts(p: seq<byte>, q: seq<byte>)
    requires |p| == |q| >= PROOF_ENTRY && p[..PROOF_ENTRY] == q[..PROOF_ENTRY] && p[PROOF_ENTRY..] == q[PROOF_ENTRY..]
    ensures p == q
  {
    assert p == p[..PROOF_ENTRY] + p[PROOF_ENTRY..] && q == q[..PROOF_ENTRY] + q[PROOF_ENTRY..];
  }

  lemma BottomsBreak(hash: Hasher, x: seq<byte>, y: seq<byte>, these: set<seq<byte>>, those: set<seq<byte>>)
    requires x in these && y in those && (Cut(hash(x)) == Cut(hash(y)) || hash(x) == hash(y))
    ensures x == y || Breaks(hash, x, y, these, those)
  {
  }

  lemma CutAlike(hash: Hasher, x: seq<byte>, y: seq<byte>)
    ensures Cut(hash(x)) == Cut(hash(y)) || hash(x) == hash(y) ==> x == y || Collision(hash, x, y)
  {
  }

  lemma TurnsOn(i: nat, j: nat, n: nat)
    requires n > 0 && SameTurns(i, j, n)
    ensures i % 2 == j % 2 && SameTurns(i / 2, j / 2, n - 1)
  {
  }

  /** A proof of `n` siblings. */
  predicate Steps(proof: seq<byte>, n: nat) {
    |proof| == n * PROOF_ENTRY
  }

  lemma StepsOn(proof: seq<byte>, n: nat)
    requires Steps(proof, n)
    ensures n == 0 ==> proof == []
    ensures n > 0 ==> |proof| >= PROOF_ENTRY && Steps(proof[PROOF_ENTRY..], n - 1)
  {
  }

  lemma StepBinds(hash: Hasher, x: seq<byte>, y: seq<byte>, i: nat, j: nat, p: seq<byte>, q: seq<byte>)
    requires |p| >= PROOF_ENTRY && |q| >= PROOF_ENTRY && p[PROOF_ENTRY..] == q[PROOF_ENTRY..] && i % 2 == j % 2
    requires ParentBytes(hash(x), i, p[..PROOF_ENTRY]) == ParentBytes(hash(y), j, q[..PROOF_ENTRY])
    ensures p == q && (x == y || Breaks(hash, x, y, Hashed(hash, x, i, p), Hashed(hash, y, j, q)))
  {
    hide ParentBytes, Cut, Breaks, Hashed;
    ParentBinds(hash(x), hash(y), i, j, p[..PROOF_ENTRY], q[..PROOF_ENTRY]);
    SameParts(p, q);
    BottomsBreak(hash, x, y, Hashed(hash, x, i, p), Hashed(hash, y, j, q));
  }

  lemma BottomBinds(hash: Hasher, x: seq<byte>, y: seq<byte>, i: nat, j: nat, p: seq<byte>, q: seq<byte>)
    requires p == q == [] && Climb(hash, x, i, p) == Climb(hash, y, j, q)
    ensures x == y || Breaks(hash, x, y, Hashed(hash, x, i, p), Hashed(hash, y, j, q))
  {
    hide Cut, Breaks;
    BottomsBreak(hash, x, y, Hashed(hash, x, i, p), Hashed(hash, y, j, q));
  }

  /** The first step of two climbs: what is climbed on from, and that it binds what was below. */
  lemma OneUp(hash: Hasher, x: seq<byte>, y: seq<byte>, i: nat, j: nat, p: seq<byte>, q: seq<byte>, n: nat)
    returns (up: seq<byte>, vp: seq<byte>, rest: seq<byte>, others: seq<byte>)
    requires n > 0 && Steps(p, n) && Steps(q, n) && SameTurns(i, j, n)
    ensures Steps(rest, n - 1) && Steps(others, n - 1) && SameTurns(i / 2, j / 2, n - 1)
    ensures Climb(hash, x, i, p) == Climb(hash, up, i / 2, rest)
    ensures Climb(hash, y, j, q) == Climb(hash, vp, j / 2, others)
    ensures Hashed(hash, up, i / 2, rest) <= Hashed(hash, x, i, p)
    ensures Hashed(hash, vp, j / 2, others) <= Hashed(hash, y, j, q)
    ensures up == vp && rest == others ==>
              (x == y && p == q) || Breaks(hash, x, y, Hashed(hash, x, i, p), Hashed(hash, y, j, q))
  {
    hide Climb, ParentBytes, Cut, Breaks, Hashed, SameTurns, Steps;
    StepsOn(p, n);
    StepsOn(q, n);
    TurnsOn(i, j, n);
    rest, others := p[PROOF_ENTRY..], q[PROOF_ENTRY..];
    up, vp := ParentBytes(hash(x), i, p[..PROOF_ENTRY]), ParentBytes(hash(y), j, q[..PROOF_ENTRY]);
    ClimbsOn(hash, x, i, p, up, rest);
    ClimbsOn(hash, y, j, q, vp, others);
    if up == vp && rest == others { StepBinds(hash, x, y, i, j, p, q); }
  }

  /** Binding: the same root by the same turns and as many steps is the same bytes and the same
      proof, or one climb hashes a string that collides with one the other hashes. */
  lemma {:induction false} RootBinds(hash: Hasher, x: seq<byte>, y: seq<byte>, i: nat, j: nat, p: seq<byte>,
                                     q: seq<byte>, n: nat)
    returns (a: seq<byte>, b: seq<byte>)
    requires Steps(p, n) && Steps(q, n) && SameTurns(i, j, n)
    requires Climb(hash, x, i, p) == Climb(hash, y, j, q)
    ensures (x == y && p == q) || Breaks(hash, a, b, Hashed(hash, x, i, p), Hashed(hash, y, j, q))
    decreases n
  {
    hide Climb, Breaks, Hashed, SameTurns, Steps;
    a, b := x, y;
    if n == 0 {
      StepsOn(p, n);
      StepsOn(q, n);
      BottomBinds(hash, x, y, i, j, p, q);
    } else {
      var up, vp, rest, others := OneUp(hash, x, y, i, j, p, q, n);
      if up != vp || rest != others {
        a, b := RootBinds(hash, up, vp, i / 2, j / 2, rest, others, n - 1);
        BreaksMore(hash, a, b, Hashed(hash, up, i / 2, rest), Hashed(hash, x, i, p),
                   Hashed(hash, vp, j / 2, others), Hashed(hash, y, j, q));
      }
    }
  }

  /** By one proof, whatever the turns, two strings do not climb to one root but by a collision
      on the way. */
  lemma {:induction false} ProofBinds(hash: Hasher, x: seq<byte>, y: seq<byte>, i: nat, j: nat, p: seq<byte>)
    returns (a: seq<byte>, b: seq<byte>)
    requires Climb(hash, x, i, p) == Climb(hash, y, j, p)
    ensures x == y || Breaks(hash, a, b, Hashed(hash, x, i, p), Hashed(hash, y, j, p))
    decreases |p|
  {
    hide Climb, ParentBytes, Cut, Breaks, Hashed;
    a, b := x, y;
    if |p| < PROOF_ENTRY {
      ClimbsOne(hash, x, i, p);
      ClimbsOne(hash, y, j, p);
      BottomsBreak(hash, x, y, Hashed(hash, x, i, p), Hashed(hash, y, j, p));
    } else {
      var s, rest := p[..PROOF_ENTRY], p[PROOF_ENTRY..];
      var up, vp := ParentBytes(hash(x), i, s), ParentBytes(hash(y), j, s);
      ClimbsOn(hash, x, i, p, up, rest);
      ClimbsOn(hash, y, j, p, vp, rest);
      var c, d := ProofBinds(hash, up, vp, i / 2, j / 2, rest);
      if up == vp {
        SameSibling(hash(x), hash(y), i, j, s);
        BottomsBreak(hash, x, y, Hashed(hash, x, i, p), Hashed(hash, y, j, p));
      } else {
        a, b := c, d;
        BreaksMore(hash, c, d, Hashed(hash, up, i / 2, rest), Hashed(hash, x, i, p),
                   Hashed(hash, vp, j / 2, rest), Hashed(hash, y, j, p));
      }
    }
  }

  lemma SameSibling(node: Node, other: Node, i: nat, j: nat, s: Node)
    requires |node| == HASH && |other| == HASH && |s| == PROOF_ENTRY
    requires ParentBytes(node, i, s) == ParentBytes(other, j, s)
    ensures Cut(node) == Cut(other)
    ensures i % 2 != j % 2 ==> Cut(node) == s
  {
    hide NODE_PREFIX;
    var n := |NODE_PREFIX|;
    var x, y := ParentBytes(node, i, s), ParentBytes(other, j, s);
    assert x[n..n + PROOF_ENTRY] == if i % 2 == 0 then Cut(node) else s;
    assert x[n + PROOF_ENTRY..] == if i % 2 == 0 then s else Cut(node);
    assert y[n..n + PROOF_ENTRY] == if j % 2 == 0 then Cut(other) else s;
    assert y[n + PROOF_ENTRY..] == if j % 2 == 0 then s else Cut(other);
  }

  /** At every level the two indices turn the same way, or the turn makes no difference there,
      the node and its sibling being alike. */
  ghost predicate TurnsAlike(hash: Hasher, x: seq<byte>, i: nat, j: nat, p: seq<byte>)
    decreases |p|
  {
    |p| >= PROOF_ENTRY ==>
      var s := p[..PROOF_ENTRY];
      && (i % 2 == j % 2 || Cut(hash(x)) == s)
      && TurnsAlike(hash, ParentBytes(hash(x), i, s), i / 2, j / 2, p[PROOF_ENTRY..])
  }

  /** What the fold makes of the claimed leaf index: two indices give the same root exactly if
      they turn alike, but for a collision between the two climbs. Bits past the proof's steps
      make no turn. */
  lemma {:induction false} IndexCountsExactlyWhen(hash: Hasher, x: seq<byte>, i: nat, j: nat, p: seq<byte>)
    returns (a: seq<byte>, b: seq<byte>)
    ensures TurnsAlike(hash, x, i, j, p) ==> Climb(hash, x, i, p) == Climb(hash, x, j, p)
    ensures Climb(hash, x, i, p) == Climb(hash, x, j, p) ==>
              TurnsAlike(hash, x, i, j, p) || Breaks(hash, a, b, Hashed(hash, x, i, p), Hashed(hash, x, j, p))
    decreases |p|
  {
    hide Climb, ParentBytes, Cut, Collision, Hashed;
    a, b := x, x;
    if |p| < PROOF_ENTRY {
      ClimbsOne(hash, x, i, p);
      ClimbsOne(hash, x, j, p);
    } else {
      var s, rest := p[..PROOF_ENTRY], p[PROOF_ENTRY..];
      var u, v := ParentBytes(hash(x), i, s), ParentBytes(hash(x), j, s);
      SameParent(hash(x), i, j, s);
      ClimbsOn(hash, x, i, p, u, rest);
      ClimbsOn(hash, x, j, p, v, rest);
      if u == v {
        a, b := IndexCountsExactlyWhen(hash, u, i / 2, j / 2, rest);
      } else if Climb(hash, u, i / 2, rest) == Climb(hash, v, j / 2, rest) {
        a, b := ProofBinds(hash, u, v, i / 2, j / 2, rest);
      }
    }
  }

  lemma SameParent(node: Node, i: nat, j: nat, s: Node)
    requires |node| == HASH && |s| == PROOF_ENTRY
    ensures ParentBytes(node, i, s) == ParentBytes(node, j, s) <==> i % 2 == j % 2 || Cut(node) == s
  {
    hide NODE_PREFIX;
    if ParentBytes(node, i, s) == ParentBytes(node, j, s) {
      SameSibling(node, node, i, j, s);
    }
  }

  /** So leaves zero and two of a tree are one to a proof of a single step. */
  lemma IndexPastTheProofIsIgnored(hash: Hasher, x: seq<byte>, p: seq<byte>)
    requires |p| == PROOF_ENTRY
    ensures Climb(hash, x, 0, p) == Climb(hash, x, 2, p)
  {
    var _, _ := IndexCountsExactlyWhen(hash, x, 0, 2, p);
  }

  function Halved(i: nat, times: nat): nat {
    if times == 0 then i else Halved(i / 2, times - 1)
  }

  /** What climbs `extra` levels to where a leaf stands, and on to the same root by the same
      turns, hashes on its way a string that collides with one the leaf's own climb hashes: at
      that height it has a node, and no node has the bytes of a leaf. */
  lemma {:induction false} HeightsDoNotMix(hash: Hasher, x: seq<byte>, leaf: seq<byte>, i: nat, j: nat,
                                           p: seq<byte>, q: seq<byte>, n: nat, extra: nat)
    returns (a: seq<byte>, b: seq<byte>)
    requires extra > 0 && Steps(p, extra + n) && Steps(q, n)
    requires SameTurns(Halved(i, extra), j, n)
    requires Climb(hash, x, i, p) == Climb(hash, LeafBytes(leaf), j, q)
    ensures Breaks(hash, a, b, Hashed(hash, x, i, p), Hashed(hash, LeafBytes(leaf), j, q))
    decreases extra
  {
    hide Climb, Collision, Hashed, Steps, ParentBytes, LeafBytes, IsNode, SameTurns;
    StepsOn(p, extra + n);
    var rest := p[PROOF_ENTRY..];
    var up := ParentBytes(hash(x), i, p[..PROOF_ENTRY]);
    ClimbsOn(hash, x, i, p, up, rest);
    ParentIsNode(hash(x), i, p[..PROOF_ENTRY]);
    LeafIsNoNode(leaf);
    assert Halved(i, extra) == Halved(i / 2, extra - 1);
    if extra == 1 {
      a, b := RootBinds(hash, up, LeafBytes(leaf), i / 2, j, rest, q, n);
    } else {
      a, b := HeightsDoNotMix(hash, up, leaf, i / 2, j, rest, q, n, extra - 1);
    }
  }

  lemma SameLeaf(l: seq<byte>, m: seq<byte>)
    requires LeafBytes(l) == LeafBytes(m)
    ensures l == m
  {
    hide LEAF_PREFIX;
    assert l == LeafBytes(l)[|LEAF_PREFIX|..] && m == LeafBytes(m)[|LEAF_PREFIX|..];
  }

  lemma ProofIsWhole(variant: byte)
    ensures ProofLength(variant) / PROOF_ENTRY * PROOF_ENTRY == ProofLength(variant)
  {
  }

  /** The strings hashed on the way from a packet's leaf to its root. */
  ghost function HashedOf(hash: Hasher, parts: Parts): set<seq<byte>> {
    Hashed(hash, LeafBytes(parts.leaf), parts.index, parts.proof)
  }

  /** Two packets that rebuild one root from the same place of the tree are the same shred from
      the variant byte to the proof, whoever signed what; or rebuilding the one hashes a string
      that collides with one rebuilding the other hashes. */
  lemma PacketsBind(hash: Hasher, packet: seq<byte>, other: seq<byte>, version: nat)
    returns (a: seq<byte>, b: seq<byte>)
    requires PartsOf(packet, version).Some? && PartsOf(other, version).Some?
    requires var p, q := PartsOf(packet, version).value, PartsOf(other, version).value;
             && |p.proof| == |q.proof| && SameTurns(p.index, q.index, |p.proof| / PROOF_ENTRY)
             && RootOf(hash, p) == RootOf(hash, q)
    ensures var p, q := PartsOf(packet, version).value, PartsOf(other, version).value;
            (p.leaf == q.leaf && p.proof == q.proof) || Breaks(hash, a, b, HashedOf(hash, p), HashedOf(hash, q))
  {
    hide Climb, Breaks, PartsOf, LeafBytes, ProofLength, Hashed;
    ProofIsWhole(packet[SIGNATURE]);
    ProofIsWhole(other[SIGNATURE]);
    var p, q := PartsOf(packet, version).value, PartsOf(other, version).value;
    a, b := RootBinds(hash, LeafBytes(p.leaf), LeafBytes(q.leaf), p.index, q.index, p.proof, q.proof,
                      |p.proof| / PROOF_ENTRY);
    if LeafBytes(p.leaf) == LeafBytes(q.leaf) {
      SameLeaf(p.leaf, q.leaf);
    }
  }

  lemma LeafIsTheBody(packet: seq<byte>, version: nat)
    requires PartsOf(packet, version).Some?
    ensures var body, leaf := packet[SIGNATURE..], PartsOf(packet, version).value.leaf;
            && |leaf| <= |body| && leaf == body[..|leaf|] && leaf != [] && body != []
            && ShardLen(body[0]).Some?
            && (Kind(body[0]) == 0x9 || Kind(body[0]) == 0xb ==> ShardLen(body[0]).value < |leaf|)
            && (Kind(body[0]) == 0x6 || Kind(body[0]) == 0x7 ==> CODE_HEADERS + ShardLen(body[0]).value < |leaf|)
            && 24 <= ShardLen(body[0]).value
  {
    hide FromLE, LeafIndex;
    EveryVariantHasAShard(packet[SIGNATURE]);
  }

  lemma ReadsAlike(body: seq<byte>, other: seq<byte>, m: nat, offset: nat, width: nat)
    requires m <= |body| && m <= |other| && body[..m] == other[..m] && offset + width <= m
    ensures ReadLE(body, offset, width) == ReadLE(other, offset, width)
  {
    assert body[offset..offset + width] == body[..m][offset..offset + width];
    assert other[offset..offset + width] == other[..m][offset..offset + width];
  }

  lemma HeadersReadAlike(body: seq<byte>, other: seq<byte>, m: nat)
    requires 25 <= m <= |body| && m <= |other| && body[..m] == other[..m]
    ensures ReadLE(body, VERSION, 2) == ReadLE(other, VERSION, 2)
    ensures ReadLE(body, SLOT, 8) == ReadLE(other, SLOT, 8) && ReadLE(body, INDEX, 4) == ReadLE(other, INDEX, 4)
    ensures ReadLE(body, FEC_SET_INDEX, 4) == ReadLE(other, FEC_SET_INDEX, 4)
    ensures ReadLE(body, DATA_SIZE, 2) == ReadLE(other, DATA_SIZE, 2)
    ensures ReadLE(body, CODE_NUM_DATA, 2) == ReadLE(other, CODE_NUM_DATA, 2)
    ensures ReadLE(body, CODE_NUM_CODING, 2) == ReadLE(other, CODE_NUM_CODING, 2)
    ensures ReadLE(body, CODE_POSITION, 2) == ReadLE(other, CODE_POSITION, 2)
    ensures body[0] == other[0] && body[DATA_FLAGS] == other[DATA_FLAGS]
  {
    hide ReadLE;
    ReadsAlike(body, other, m, VERSION, 2);
    ReadsAlike(body, other, m, SLOT, 8);
    ReadsAlike(body, other, m, INDEX, 4);
    ReadsAlike(body, other, m, FEC_SET_INDEX, 4);
    ReadsAlike(body, other, m, DATA_SIZE, 2);
    ReadsAlike(body, other, m, CODE_NUM_DATA, 2);
    ReadsAlike(body, other, m, CODE_NUM_CODING, 2);
    ReadsAlike(body, other, m, CODE_POSITION, 2);
    assert body[0] == body[..m][0] == other[..m][0];
    assert body[DATA_FLAGS] == body[..m][DATA_FLAGS] == other[..m][DATA_FLAGS];
  }

  lemma PrefixesAlike(body: seq<byte>, other: seq<byte>, m: nat, lo: nat, hi: nat)
    requires m <= |body| && m <= |other| && body[..m] == other[..m] && lo <= hi <= m
    ensures body[lo..hi] == other[lo..hi]
  {
    assert body[lo..hi] == body[..m][lo..hi];
    assert other[lo..hi] == other[..m][lo..hi];
  }

  /** The leaf is all that is ever read of a shred. */
  lemma LeafDecidesParse(packet: seq<byte>, other: seq<byte>, version: nat)
    requires PartsOf(packet, version).Some? && PartsOf(other, version).Some?
    requires PartsOf(packet, version).value.leaf == PartsOf(other, version).value.leaf
    ensures Parse(packet, version) == Parse(other, version)
  {
    hide ReadLE, LeafIndex, ShardLen, PartsOf;
    LeafIsTheBody(packet, version);
    LeafIsTheBody(other, version);
    var body, twin := packet[SIGNATURE..], other[SIGNATURE..];
    var m := |PartsOf(packet, version).value.leaf|;
    assert body[0] == body[..m][0] == twin[..m][0] == twin[0];
    if Kind(body[0]) == 0x9 || Kind(body[0]) == 0xb || Kind(body[0]) == 0x6 || Kind(body[0]) == 0x7 {
      HeadersReadAlike(body, twin, m);
      PrefixesAlike(body, twin, m, 0, ShardLen(body[0]).value);
      if Kind(body[0]) == 0x6 || Kind(body[0]) == 0x7 {
        PrefixesAlike(body, twin, m, CODE_HEADERS, CODE_HEADERS + ShardLen(body[0]).value);
      }
    }
  }

  /** What a leader's signature over a root vouches for: at each place of the tree, one shred. */
  lemma RootDecidesShred(hash: Hasher, packet: seq<byte>, other: seq<byte>, version: nat)
    returns (a: seq<byte>, b: seq<byte>)
    requires PartsOf(packet, version).Some? && PartsOf(other, version).Some?
    requires var p, q := PartsOf(packet, version).value, PartsOf(other, version).value;
             |p.proof| == |q.proof| && SameTurns(p.index, q.index, |p.proof| / PROOF_ENTRY)
    requires SignedOf(hash, packet, version).value.root == SignedOf(hash, other, version).value.root
    ensures var p, q := PartsOf(packet, version).value, PartsOf(other, version).value;
            Parse(packet, version) == Parse(other, version) || Breaks(hash, a, b, HashedOf(hash, p), HashedOf(hash, q))
  {
    hide PartsOf, RootOf, HashedOf, Breaks, Parse, SameTurns;
    a, b := PacketsBind(hash, packet, other, version);
    if PartsOf(packet, version).value.leaf == PartsOf(other, version).value.leaf {
      LeafDecidesParse(packet, other, version);
    }
  }

  // ---------------------------------------------------------------- what the root of a tree binds

  ghost function HashesOf(hash: Hasher, bytes: seq<seq<byte>>): (nodes: seq<Node>)
    requires bytes != []
    ensures Hashes(nodes) && |nodes| == |bytes|
    ensures forall k :: 0 <= k < |bytes| ==> nodes[k] == hash(bytes[k])
  {
    seq(|bytes|, k requires 0 <= k < |bytes| => hash(bytes[k]))
  }

  /** What the nodes of the next level up hash. */
  ghost function UpBytes(hash: Hasher, bytes: seq<seq<byte>>): (up: seq<seq<byte>>)
    requires bytes != []
    ensures |up| == (|bytes| + 1) / 2
    ensures forall k :: 0 <= k < |up| ==> up[k] == JoinBytes(hash, bytes, k)
  {
    seq((|bytes| + 1) / 2, k requires 0 <= k < (|bytes| + 1) / 2 => JoinBytes(hash, bytes, k))
  }

  ghost function JoinBytes(hash: Hasher, bytes: seq<seq<byte>>, k: nat): seq<byte>
    requires 2 * k < |bytes|
  {
    ParentBytes(hash(bytes[2 * k]), 0, Cut(hash(bytes[if 2 * k + 1 < |bytes| then 2 * k + 1 else 2 * k])))
  }

  lemma LevelsAgree(hash: Hasher, bytes: seq<seq<byte>>)
    requires bytes != []
    ensures HashesOf(hash, UpBytes(hash, bytes)) == Up(hash, HashesOf(hash, bytes))
  {
    hide ParentBytes, Cut;
    var nodes := HashesOf(hash, bytes);
    forall k | 0 <= k < |UpBytes(hash, bytes)|
      ensures hash(JoinBytes(hash, bytes, k)) == Join(hash, nodes, k)
    {
      JoinOf(hash, nodes, k, nodes[2 * k], nodes[if 2 * k + 1 < |nodes| then 2 * k + 1 else 2 * k]);
    }
  }

  /** The strings hashed for a tree: those of its leaves, and of every level above. */
  ghost function TreeHashed(hash: Hasher, bytes: seq<seq<byte>>): (all: set<seq<byte>>)
    requires bytes != []
    ensures Strings(bytes) <= all
    decreases |bytes|
  {
    if |bytes| == 1 then Strings(bytes) else Strings(bytes) + TreeHashed(hash, UpBytes(hash, bytes))
  }

  ghost function Strings(bytes: seq<seq<byte>>): set<seq<byte>> {
    set b | b in bytes
  }

  lemma IsString(bytes: seq<seq<byte>>, b: seq<byte>)
    requires b in bytes
    ensures b in Strings(bytes)
  {
  }

  lemma TreeHashedOn(hash: Hasher, bytes: seq<seq<byte>>)
    requires |bytes| > 1
    ensures TreeHashed(hash, UpBytes(hash, bytes)) <= TreeHashed(hash, bytes)
  {
    hide UpBytes;
  }

  lemma UpIsJoined(hash: Hasher, bytes: seq<seq<byte>>, k: nat)
    requires bytes != [] && k < |UpBytes(hash, bytes)|
    ensures 2 * k < |bytes| && UpBytes(hash, bytes)[k] == JoinBytes(hash, bytes, k)
  {
  }

  function Depth(count: nat): nat {
    if count <= 1 then 0 else 1 + Depth((count + 1) / 2)
  }

  predicate IsNode(bytes: seq<byte>) {
    bytes != [] && bytes[0] == 1
  }

  lemma ParentIsNode(node: Node, index: nat, sibling: Node)
    requires |node| == HASH
    ensures IsNode(ParentBytes(node, index, sibling))
  {
  }

  lemma ChildOf(node: Node, left: Node, right: Node, i: nat, sibling: Node)
    requires |node| == HASH && |left| == HASH && |right| == HASH && |sibling| == PROOF_ENTRY
    requires ParentBytes(node, i, sibling) == ParentBytes(left, 0, Cut(right))
    ensures Cut(node) == Cut(left) || Cut(node) == Cut(right)
  {
    hide NODE_PREFIX;
    var n := |NODE_PREFIX|;
    var x, y := ParentBytes(node, i, sibling), ParentBytes(left, 0, Cut(right));
    assert y[n..n + PROOF_ENTRY] == Cut(left) && y[n + PROOF_ENTRY..] == Cut(right);
    if i % 2 == 0 {
      assert x[n..n + PROOF_ENTRY] == Cut(node);
    } else {
      assert x[n + PROOF_ENTRY..] == Cut(node);
    }
  }

  /** The parent of `x` is that of two neighbours: then `x` is one of them. */
  lemma ParentBindsChild(hash: Hasher, bytes: seq<seq<byte>>, k: nat, x: seq<byte>, i: nat, sibling: Node)
    returns (a: seq<byte>, b: seq<byte>)
    requires 2 * k < |bytes| && |sibling| == PROOF_ENTRY
    requires ParentBytes(hash(x), i, sibling) == JoinBytes(hash, bytes, k)
    ensures x in bytes || Breaks(hash, a, b, {x}, Strings(bytes))
  {
    hide ParentBytes, Cut, Collision, JoinBytes;
    var left := bytes[2 * k];
    var right := bytes[if 2 * k + 1 < |bytes| then 2 * k + 1 else 2 * k];
    assert left in bytes && right in bytes;
    JoinBytesOf(hash, bytes, k, left, right);
    ChildOf(hash(x), hash(left), hash(right), i, sibling);
    a, b := x, if Cut(hash(x)) == Cut(hash(left)) then left else right;
    CutAlike(hash, a, b);
  }

  lemma JoinBytesOf(hash: Hasher, bytes: seq<seq<byte>>, k: nat, left: seq<byte>, right: seq<byte>)
    requires 2 * k < |bytes| && left == bytes[2 * k]
    requires right == bytes[if 2 * k + 1 < |bytes| then 2 * k + 1 else 2 * k]
    ensures JoinBytes(hash, bytes, k) == ParentBytes(hash(left), 0, Cut(hash(right)))
  {
    hide ParentBytes, Cut;
  }

  lemma TreeRootUp(hash: Hasher, bytes: seq<seq<byte>>)
    requires bytes != []
    ensures TreeRoot(hash, HashesOf(hash, bytes)) ==
            if |bytes| == 1 then hash(bytes[0]) else TreeRoot(hash, HashesOf(hash, UpBytes(hash, bytes)))
  {
    hide Up;
    LevelsAgree(hash, bytes);
  }

  lemma ChildBinds(hash: Hasher, bytes: seq<seq<byte>>, x: seq<byte>, i: nat, p: seq<byte>)
    returns (a: seq<byte>, b: seq<byte>)
    requires bytes != [] && |p| >= PROOF_ENTRY
    requires ParentBytes(hash(x), i, p[..PROOF_ENTRY]) in UpBytes(hash, bytes)
    ensures x in bytes || Breaks(hash, a, b, Hashed(hash, x, i, p), TreeHashed(hash, bytes))
  {
    hide ParentBytes, JoinBytes, Breaks, Hashed, Strings, TreeHashed, UpBytes;
    var up, y := UpBytes(hash, bytes), ParentBytes(hash(x), i, p[..PROOF_ENTRY]);
    var k :| 0 <= k < |up| && up[k] == y;
    UpIsJoined(hash, bytes, k);
    a, b := ParentBindsChild(hash, bytes, k, x, i, p[..PROOF_ENTRY]);
    BreaksMore(hash, a, b, {x}, Hashed(hash, x, i, p), Strings(bytes), TreeHashed(hash, bytes));
  }

  /** What climbs to the root of a tree in as many steps as the tree is deep is one of its leaves,
      whatever place it claims; or its climb collides with what the tree hashes. */
  lemma {:induction false} TreeBinds(hash: Hasher, bytes: seq<seq<byte>>, x: seq<byte>, i: nat, p: seq<byte>)
    returns (a: seq<byte>, b: seq<byte>)
    requires bytes != [] && Steps(p, Depth(|bytes|))
    requires Climb(hash, x, i, p) == TreeRoot(hash, HashesOf(hash, bytes))
    ensures x in bytes || Breaks(hash, a, b, Hashed(hash, x, i, p), TreeHashed(hash, bytes))
    decreases |bytes|
  {
    hide Climb, TreeRoot, HashesOf, ParentBytes, JoinBytes, Breaks, Hashed, Strings, TreeHashed, UpBytes, Steps;
    StepsOn(p, Depth(|bytes|));
    TreeRootUp(hash, bytes);
    if |bytes| == 1 {
      ClimbsOne(hash, x, i, p);
      a, b := x, bytes[0];
      IsString(bytes, b);
      BottomsBreak(hash, a, b, Hashed(hash, x, i, p), TreeHashed(hash, bytes));
    } else {
      var up, s, rest := UpBytes(hash, bytes), p[..PROOF_ENTRY], p[PROOF_ENTRY..];
      var y := ParentBytes(hash(x), i, s);
      ClimbsOn(hash, x, i, p, y, rest);
      TreeHashedOn(hash, bytes);
      a, b := TreeBinds(hash, up, y, i / 2, rest);
      if y in up {
        a, b := ChildBinds(hash, bytes, x, i, p);
      } else {
        BreaksMore(hash, a, b, Hashed(hash, y, i / 2, rest), Hashed(hash, x, i, p),
                   TreeHashed(hash, up), TreeHashed(hash, bytes));
      }
    }
  }

  /** What gets there in fewer steps is a node, not a leaf. */
  lemma {:induction false} ShorterIsNode(hash: Hasher, bytes: seq<seq<byte>>, x: seq<byte>, i: nat, p: seq<byte>,
                                         n: nat)
    returns (a: seq<byte>, b: seq<byte>)
    requires bytes != [] && Steps(p, n) && n < Depth(|bytes|)
    requires Climb(hash, x, i, p) == TreeRoot(hash, HashesOf(hash, bytes))
    ensures IsNode(x) || Breaks(hash, a, b, Hashed(hash, x, i, p), TreeHashed(hash, bytes))
    decreases |bytes|
  {
    hide Climb, TreeRoot, HashesOf, ParentBytes, JoinBytes, Collision, IsNode, Hashed, TreeHashed, UpBytes, Steps;
    TreeRootUp(hash, bytes);
    TreeHashedOn(hash, bytes);
    var up := UpBytes(hash, bytes);
    if n == Depth(|up|) {
      a, b := TreeBinds(hash, up, x, i, p);
      if x in up {
        var k :| 0 <= k < |up| && up[k] == x;
        UpIsJoined(hash, bytes, k);
        JoinIsNode(hash, bytes, k);
      }
    } else {
      a, b := ShorterIsNode(hash, up, x, i, p, n);
    }
  }

  lemma JoinIsNode(hash: Hasher, bytes: seq<seq<byte>>, k: nat)
    requires 2 * k < |bytes|
    ensures IsNode(JoinBytes(hash, bytes, k))
  {
    hide ParentBytes, IsNode;
    ParentIsNode(hash(bytes[2 * k]), 0, Cut(hash(bytes[if 2 * k + 1 < |bytes| then 2 * k + 1 else 2 * k])));
  }

  /** A string with a node's bytes among these. */
  ghost predicate HasNode(bytes: seq<seq<byte>>) {
    exists b :: b in bytes && IsNode(b)
  }

  lemma NodeAmong(bytes: seq<seq<byte>>, b: seq<byte>)
    requires b in bytes && IsNode(b)
    ensures HasNode(bytes)
  {
  }

  /** What needs more steps would make a node pass for one of the leaves. */
  lemma {:induction false} LongerMeetsNode(hash: Hasher, bytes: seq<seq<byte>>, x: seq<byte>, i: nat, p: seq<byte>,
                                           n: nat)
    returns (a: seq<byte>, b: seq<byte>)
    requires bytes != [] && Steps(p, n) && n > Depth(|bytes|)
    requires Climb(hash, x, i, p) == TreeRoot(hash, HashesOf(hash, bytes))
    ensures HasNode(bytes)
            || Breaks(hash, a, b, Hashed(hash, x, i, p), TreeHashed(hash, bytes))
    decreases n
  {
    hide Climb, TreeRoot, HashesOf, ParentBytes, Breaks, IsNode, HasNode, Hashed, TreeHashed, Steps, Depth, Strings;
    StepsOn(p, n);
    var s, rest := p[..PROOF_ENTRY], p[PROOF_ENTRY..];
    var y := ParentBytes(hash(x), i, s);
    ClimbsOn(hash, x, i, p, y, rest);
    ParentIsNode(hash(x), i, s);
    if n - 1 == Depth(|bytes|) {
      a, b := TreeBinds(hash, bytes, y, i / 2, rest);
      if y in bytes { NodeAmong(bytes, y); }
    } else {
      a, b := LongerMeetsNode(hash, bytes, y, i / 2, rest, n - 1);
    }
    BreaksMore(hash, a, b, Hashed(hash, y, i / 2, rest), Hashed(hash, x, i, p),
               TreeHashed(hash, bytes), TreeHashed(hash, bytes));
  }

  ghost function AllLeafBytes(leaves: seq<seq<byte>>): (bytes: seq<seq<byte>>)
    ensures |bytes| == |leaves| && forall k :: 0 <= k < |leaves| ==> bytes[k] == LeafBytes(leaves[k])
  {
    seq(|leaves|, k requires 0 <= k < |leaves| => LeafBytes(leaves[k]))
  }

  /** Whatever place a shred claims and however long a proof it brings: if it rebuilds the root of
      a tree it is one of that tree's leaves, or its climb collides with what the tree hashes. */
  lemma LeafOfTheTree(hash: Hasher, leaves: seq<seq<byte>>, leaf: seq<byte>, i: nat, p: seq<byte>, n: nat)
    returns (a: seq<byte>, b: seq<byte>)
    requires leaves != [] && Steps(p, n)
    requires Climb(hash, LeafBytes(leaf), i, p) == TreeRoot(hash, LeafNodes(hash, leaves))
    ensures leaf in leaves
            || Breaks(hash, a, b, Hashed(hash, LeafBytes(leaf), i, p), TreeHashed(hash, AllLeafBytes(leaves)))
  {
    hide Climb, TreeRoot, Breaks, LeafBytes, HashesOf, LeafNodes, IsNode, HasNode, Hashed, TreeHashed, Steps, Depth,
         Strings;
    var bytes := AllLeafBytes(leaves);
    LeafNodesAre(hash, leaves);
    if n == Depth(|bytes|) {
      a, b := TreeBinds(hash, bytes, LeafBytes(leaf), i, p);
      if LeafBytes(leaf) in bytes { LeafAmong(leaves, leaf); }
    } else if n < Depth(|bytes|) {
      LeafIsNoNode(leaf);
      a, b := ShorterIsNode(hash, bytes, LeafBytes(leaf), i, p, n);
    } else {
      LeavesAreNoNodes(leaves);
      a, b := LongerMeetsNode(hash, bytes, LeafBytes(leaf), i, p, n);
    }
  }

  lemma LeafAmong(leaves: seq<seq<byte>>, leaf: seq<byte>)
    requires LeafBytes(leaf) in AllLeafBytes(leaves)
    ensures leaf in leaves
  {
    hide LeafBytes;
    var k :| 0 <= k < |leaves| && AllLeafBytes(leaves)[k] == LeafBytes(leaf);
    SameLeaf(leaf, leaves[k]);
  }

  lemma LeafNodesAre(hash: Hasher, leaves: seq<seq<byte>>)
    requires leaves != []
    ensures HashesOf(hash, AllLeafBytes(leaves)) == LeafNodes(hash, leaves)
  {
    hide LeafBytes, LeafNode;
    forall k | 0 <= k < |leaves|
      ensures LeafNode(hash, leaves[k]) == hash(LeafBytes(leaves[k]))
    {
      LeafNodeIs(hash, leaves[k]);
    }
  }

  lemma LeafIsNoNode(leaf: seq<byte>)
    ensures !IsNode(LeafBytes(leaf))
  {
  }

  lemma LeavesAreNoNodes(leaves: seq<seq<byte>>)
    ensures !HasNode(AllLeafBytes(leaves))
  {
    hide LeafBytes, IsNode;
    forall bytes | bytes in AllLeafBytes(leaves)
      ensures !IsNode(bytes)
    {
      var k :| 0 <= k < |leaves| && bytes == LeafBytes(leaves[k]);
      LeafIsNoNode(leaves[k]);
    }
  }

  // ---------------------------------------------------------------- the leader's batch

  /** The packets of one batch as its leader sent them, each with a leaf of its tree. */
  ghost predicate Batch(packets: seq<seq<byte>>, version: nat) {
    packets != [] && forall k :: 0 <= k < |packets| ==> PartsOf(packets[k], version).Some?
  }

  ghost function LeavesOf(packets: seq<seq<byte>>, version: nat): (leaves: seq<seq<byte>>)
    requires Batch(packets, version)
    ensures |leaves| == |packets|
    ensures forall k :: 0 <= k < |packets| ==> leaves[k] == PartsOf(packets[k], version).value.leaf
  {
    seq(|packets|, k requires 0 <= k < |packets| => PartsOf(packets[k], version).value.leaf)
  }

  ghost function BatchRoot(hash: Hasher, packets: seq<seq<byte>>, version: nat): Node
    requires Batch(packets, version)
  {
    TreeRoot(hash, LeafNodes(hash, LeavesOf(packets, version)))
  }

  /** Every string a leader hashes for the tree over its batch. */
  ghost function BatchHashed(hash: Hasher, packets: seq<seq<byte>>, version: nat): set<seq<byte>>
    requires Batch(packets, version)
  {
    TreeHashed(hash, AllLeafBytes(LeavesOf(packets, version)))
  }

  /** What rebuilds the root of a leader's batch parses to one of the batch's own shreds, or on the
      way hashes a string that collides with one the leader hashed. */
  lemma RootOfTheBatch(hash: Hasher, packet: seq<byte>, packets: seq<seq<byte>>, version: nat)
    returns (a: seq<byte>, b: seq<byte>)
    requires Batch(packets, version) && SignedOf(hash, packet, version).Some?
    requires SignedOf(hash, packet, version).value.root == BatchRoot(hash, packets, version)
    ensures (exists k :: 0 <= k < |packets| && Parse(packet, version) == Parse(packets[k], version))
            || Breaks(hash, a, b, HashedOf(hash, PartsOf(packet, version).value), BatchHashed(hash, packets, version))
  {
    hide PartsOf, Climb, TreeRoot, LeafNodes, Breaks, Parse, ProofLength, LeafBytes, Hashed, TreeHashed;
    var parts := PartsOf(packet, version).value;
    ProofIsWhole(packet[SIGNATURE]);
    var leaves := LeavesOf(packets, version);
    a, b := LeafOfTheTree(hash, leaves, parts.leaf, parts.index, parts.proof, |parts.proof| / PROOF_ENTRY);
    if parts.leaf in leaves {
      var k :| 0 <= k < |leaves| && leaves[k] == parts.leaf;
      LeafDecidesParse(packet, packets[k], version);
    }
  }
}
