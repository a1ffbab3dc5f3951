/** What the program reads of a shred. The body is the packet without the signature in front,
    and every offset here counts from its first byte. */
module Shreds {
  import opened Bytes
  import opened Collections
  import opened Runs

  const SIGNATURE := 64

  const SLOT := 1
  const INDEX := 9
  const VERSION := 13
  const FEC_SET_INDEX := 15

  const DATA_FLAGS := 21
  const DATA_SIZE := 22
  const DATA_HEADERS := 88 - SIGNATURE

  const CODE_NUM_DATA := 19
  const CODE_NUM_CODING := 21
  const CODE_POSITION := 23
  const CODE_HEADERS := 89 - SIGNATURE

  const CODE_PAYLOAD := 1228
  const DATA_PAYLOAD := CODE_PAYLOAD - CODE_HEADERS
  const MERKLE_ROOT := 32
  const PROOF_ENTRY := 20
  const MAX_SHARD := CODE_PAYLOAD - (SIGNATURE + CODE_HEADERS) - MERKLE_ROOT

  datatype DataShred = DataShred(
    slot: nat,
    index: nat,
    fecSetIndex: nat,
    dataComplete: bool,
    lastInSlot: bool,
    referenceTick: nat,
    data: seq<byte>,
    shard: seq<byte>)

  datatype CodingShred = CodingShred(
    slot: nat,
    fecSetIndex: nat,
    numData: nat,
    numCoding: nat,
    position: nat,
    shard: seq<byte>)

  datatype Parsed = Data(data: DataShred) | Coding(coding: CodingShred)

  function ReadLE(body: seq<byte>, offset: nat, width: nat): Option<nat> {
    if offset + width <= |body| then Some(FromLE(body[offset..offset + width])) else None
  }

  /** How many bytes of proof a shred of this variant carries. */
  function ProofLength(variant: byte): nat {
    (variant % 16) as nat * PROOF_ENTRY
  }

  /** The high nibble says data or coding, and whether a retransmitter signed it again. */
  function Kind(variant: byte): nat {
    (variant / 16) as nat
  }

  predicate Resigned(variant: byte) {
    Kind(variant) == 0x7 || Kind(variant) == 0xb
  }

  /** What is left of `whole` once `cut` is taken off it, if that is more than `floor`. */
  function LeftOver(whole: nat, cut: nat, floor: nat): Option<nat> {
    if cut <= whole && whole - cut > floor then Some(whole - cut) else None
  }

  function ShardLen(variant: byte): Option<nat> {
    LeftOver(MAX_SHARD, ProofLength(variant) + if Resigned(variant) then SIGNATURE else 0, DATA_HEADERS)
  }

  function ParseData(body: seq<byte>, version: nat): Option<DataShred> {
    if ReadLE(body, VERSION, 2) != Some(version) || body == [] then None else
      match ShardLen(body[0])
      case None => None
      case Some(shardLen) =>
        if |body| < shardLen then None else
          var shard := body[..shardLen];
          var size, index, first, slot :=
            ReadLE(body, DATA_SIZE, 2), ReadLE(body, INDEX, 4), ReadLE(body, FEC_SET_INDEX, 4), ReadLE(body, SLOT, 8);
          if size.None? || !(SIGNATURE + DATA_HEADERS <= size.value <= SIGNATURE + shardLen) then None
          else if index.None? || index.value >= INDEX_LIMIT then None
          else if first.None? || first.value > index.value then None
          else if |body| <= DATA_FLAGS || slot.None? then None
          else
            var flags := body[DATA_FLAGS];
            Some(DataShred(
                   slot.value, index.value, first.value,
                   (flags / 64) % 2 == 1, flags / 64 == 3, (flags % 64) as nat,
                   shard[DATA_HEADERS..size.value - SIGNATURE], shard))
  }

  function ParseCoding(body: seq<byte>, version: nat): Option<CodingShred> {
    if ReadLE(body, VERSION, 2) != Some(version) || body == [] then None else
      match ShardLen(body[0])
      case None => None
      case Some(shardLen) =>
        if |body| < CODE_HEADERS + shardLen then None else
          var slot, first := ReadLE(body, SLOT, 8), ReadLE(body, FEC_SET_INDEX, 4);
          var numData, numCoding, position :=
            ReadLE(body, CODE_NUM_DATA, 2), ReadLE(body, CODE_NUM_CODING, 2), ReadLE(body, CODE_POSITION, 2);
          if slot.None? || first.None? || first.value >= INDEX_LIMIT then None
          else if numData.None? || numCoding.None? || position.None? then None
          else Some(CodingShred(slot.value, first.value, numData.value, numCoding.value, position.value,
                                body[CODE_HEADERS..CODE_HEADERS + shardLen]))
  }

  function Parse(packet: seq<byte>, version: nat): Option<Parsed> {
    if |packet| <= SIGNATURE then None else
      var body := packet[SIGNATURE..];
      if Kind(body[0]) == 0x9 || Kind(body[0]) == 0xb then
        match ParseData(body, version) case None => None case Some(data) => Some(Data(data))
      else if Kind(body[0]) == 0x6 || Kind(body[0]) == 0x7 then
        match ParseCoding(body, version) case None => None case Some(coding) => Some(Coding(coding))
      else None
  }

  // ---------------------------------------------------------------- what a parse promises

  /** No variant byte cuts a shard too short to hold its headers. */
  lemma EveryVariantHasAShard(variant: byte)
    ensures ShardLen(variant).Some? && 743 <= ShardLen(variant).value <= MAX_SHARD == 1107
  {
  }

  /** The bounds on index, batch and data that the rest of the model takes for granted. */
  lemma ParsedDataIsBounded(body: seq<byte>, version: nat)
    requires ParseData(body, version).Some?
    ensures var s := ParseData(body, version).value;
            && s.fecSetIndex <= s.index < INDEX_LIMIT
            && (s.lastInSlot ==> s.dataComplete) && s.referenceTick < 64
            && s.shard == body[..|s.shard|] && Some(|s.shard|) == ShardLen(body[0])
            && DATA_HEADERS + |s.data| <= |s.shard| <= MAX_SHARD
            && s.data == s.shard[DATA_HEADERS..DATA_HEADERS + |s.data|]
  {
    EveryVariantHasAShard(body[0]);
  }

  lemma ParsedCodingIsBounded(packet: seq<byte>, version: nat)
    requires Parse(packet, version).Some? && Parse(packet, version).value.Coding?
    ensures var s := Parse(packet, version).value.coding;
            && s.fecSetIndex < INDEX_LIMIT && DATA_HEADERS < |s.shard| <= MAX_SHARD
            && s.shard == packet[SIGNATURE + CODE_HEADERS..][..|s.shard|]
  {
    EveryVariantHasAShard(packet[SIGNATURE]);
  }

  /** A packet is read as what its variant says it is, and not at all if that is neither kind, or
      if it is of another version. */
  lemma ReadAsItsKind(packet: seq<byte>, version: nat)
    requires Parse(packet, version).Some?
    ensures |packet| > SIGNATURE
    ensures var kind := (packet[SIGNATURE] / 16) as nat;
            if Parse(packet, version).value.Data? then kind == 0x9 || kind == 0xb else kind == 0x6 || kind == 0x7
    ensures ReadLE(packet[SIGNATURE..], VERSION, 2) == Some(version)
    ensures forall other :: other != version ==> Parse(packet, other).None?
  {
    hide ReadLE, ShardLen;
  }

  /** Erasure recovery gives back bodies cut off at their shard. They parse to what the whole
      body parses to. */
  lemma RecoveredBodyParsesAlike(body: seq<byte>, version: nat)
    requires ParseData(body, version).Some?
    ensures ParseData(ParseData(body, version).value.shard, version) == ParseData(body, version)
  {
    hide FromLE;
    EveryVariantHasAShard(body[0]);
    var shard := ParseData(body, version).value.shard;
    var n := |shard|;
    assert shard == body[..n];
    assert shard[..n] == shard;
    assert shard[VERSION..VERSION + 2] == body[VERSION..VERSION + 2];
    assert shard[DATA_SIZE..DATA_SIZE + 2] == body[DATA_SIZE..DATA_SIZE + 2];
    assert shard[INDEX..INDEX + 4] == body[INDEX..INDEX + 4];
    assert shard[FEC_SET_INDEX..FEC_SET_INDEX + 4] == body[FEC_SET_INDEX..FEC_SET_INDEX + 4];
    assert shard[SLOT..SLOT + 8] == body[SLOT..SLOT + 8];
  }

  // ---------------------------------------------------------------- the leader's side

  /** A data shred's body as its leader lays it out: header, entry bytes, padding up to
      where the shard ends, and anything behind it. */
  function DataBody(variant: byte, version: nat, parent: nat, flags: byte, s: DataShred, padding: seq<byte>,
                    tail: seq<byte>): seq<byte> {
    [variant] + ToLE(s.slot, 8) + ToLE(s.index, 4) + ToLE(version, 2) + ToLE(s.fecSetIndex, 4)
    + ToLE(parent, 2) + [flags] + ToLE(SIGNATURE + DATA_HEADERS + |s.data|, 2) + s.data + padding + tail
  }

  lemma BodyFields(variant: byte, a: seq<byte>, b: seq<byte>, c: seq<byte>, d: seq<byte>, e: seq<byte>, flags: byte,
                   f: seq<byte>, data: seq<byte>, padding: seq<byte>, tail: seq<byte>)
    requires |a| == 8 && |b| == 4 && |c| == 2 && |d| == 4 && |e| == 2 && |f| == 2
    ensures var body := [variant] + a + b + c + d + e + [flags] + f + data + padding + tail;
            && body[0] == variant && body[1..9] == a && body[9..13] == b && body[13..15] == c
            && body[15..19] == d && body[21] == flags && body[22..24] == f
            && body[24..24 + |data|] == data
            && body[..24 + |data| + |padding|] == [variant] + a + b + c + d + e + [flags] + f + data + padding
  {
  }

  /** Reading what a leader wrote: every field, the flags and the entry bytes come back. */
  lemma ParseInvertsBody(variant: byte, version: nat, parent: nat, flags: byte, s: DataShred, padding: seq<byte>,
                         tail: seq<byte>)
    requires s.slot < Power256(8) && s.index < INDEX_LIMIT && s.fecSetIndex <= s.index && version < Power256(2)
    requires s.dataComplete == ((flags / 64) % 2 == 1) && s.lastInSlot == (flags / 64 == 3)
    requires s.referenceTick == (flags % 64) as nat
    requires Some(DATA_HEADERS + |s.data| + |padding|) == ShardLen(variant)
    requires var body := DataBody(variant, version, parent, flags, s, padding, tail);
             s.shard == body[..DATA_HEADERS + |s.data| + |padding|]
    ensures ParseData(DataBody(variant, version, parent, flags, s, padding, tail), version) == Some(s)
  {
    hide FromLE, ToLE, Power256;
    var body := DataBody(variant, version, parent, flags, s, padding, tail);
    EveryVariantHasAShard(variant);
    Widths();
    FromToLE(s.slot, 8);
    FromToLE(s.index, 4);
    FromToLE(version, 2);
    FromToLE(s.fecSetIndex, 4);
    FromToLE(SIGNATURE + DATA_HEADERS + |s.data|, 2);
    BodyFields(variant, ToLE(s.slot, 8), ToLE(s.index, 4), ToLE(version, 2), ToLE(s.fecSetIndex, 4), ToLE(parent, 2),
               flags, ToLE(SIGNATURE + DATA_HEADERS + |s.data|, 2), s.data, padding, tail);
    assert s.shard[DATA_HEADERS..DATA_HEADERS + |s.data|] == body[DATA_HEADERS..DATA_HEADERS + |s.data|];
  }

  /** A coding shred's body as its leader lays it out. */
  function CodingBody(variant: byte, index: nat, version: nat, s: CodingShred, tail: seq<byte>): seq<byte> {
    [variant] + ToLE(s.slot, 8) + ToLE(index, 4) + ToLE(version, 2) + ToLE(s.fecSetIndex, 4)
    + ToLE(s.numData, 2) + ToLE(s.numCoding, 2) + ToLE(s.position, 2) + s.shard + tail
  }

  lemma CodingBodyFields(variant: byte, a: seq<byte>, b: seq<byte>, c: seq<byte>, d: seq<byte>, e: seq<byte>,
                         f: seq<byte>, g: seq<byte>, shard: seq<byte>, tail: seq<byte>)
    requires |a| == 8 && |b| == 4 && |c| == 2 && |d| == 4 && |e| == 2 && |f| == 2 && |g| == 2
    ensures var body := [variant] + a + b + c + d + e + f + g + shard + tail;
            && body[0] == variant && body[1..9] == a && body[9..13] == b && body[13..15] == c
            && body[15..19] == d && body[19..21] == e && body[21..23] == f && body[23..25] == g
            && body[25..25 + |shard|] == shard
  {
  }

  /** And so of a coding shred. */
  lemma ParseInvertsCodingBody(variant: byte, index: nat, version: nat, s: CodingShred, tail: seq<byte>)
    requires s.slot < Power256(8) && s.fecSetIndex < INDEX_LIMIT && version < Power256(2) && index < Power256(4)
    requires s.numData < Power256(2) && s.numCoding < Power256(2) && s.position < Power256(2)
    requires Some(|s.shard|) == ShardLen(variant)
    ensures ParseCoding(CodingBody(variant, index, version, s, tail), version) == Some(s)
  {
    hide FromLE, ToLE, Power256;
    var body := CodingBody(variant, index, version, s, tail);
    EveryVariantHasAShard(variant);
    Widths();
    FromToLE(s.slot, 8);
    FromToLE(version, 2);
    FromToLE(s.fecSetIndex, 4);
    FromToLE(s.numData, 2);
    FromToLE(s.numCoding, 2);
    FromToLE(s.position, 2);
    CodingBodyFields(variant, ToLE(s.slot, 8), ToLE(index, 4), ToLE(version, 2), ToLE(s.fecSetIndex, 4),
                     ToLE(s.numData, 2), ToLE(s.numCoding, 2), ToLE(s.position, 2), s.shard, tail);
  }

  lemma Widths()
    ensures Power256(2) == 0x1_0000 && Power256(4) == 0x1_0000_0000
  {
    assert Power256(1) == 256;
    assert Power256(3) == 256 * Power256(2);
  }
}
