/** What an insert hands over, piece by piece, and how it adds up for each batch. */
module Pieces {
  import opened Bytes
  import opened Collections
  import opened Codec
  import opened Batches
  import opened Caches

  datatype DecodedBatch = DecodedBatch(firstShred: nat, lastShred: nat, entries: seq<Entry>)

  /** The entries of the pieces of one batch, in the order they were handed over. */
  ghost function EntriesOf(pieces: seq<DecodedBatch>, s: nat): seq<Entry> {
    if pieces == [] then [] else
      var last := pieces[|pieces| - 1];
      EntriesOf(pieces[..|pieces| - 1], s) + if last.firstShred == s then last.entries else []
  }

  /** Where the ranges of the pieces of one batch end. */
  ghost function EndsOf(pieces: seq<DecodedBatch>, s: nat): seq<nat> {
    if pieces == [] then [] else
      var last := pieces[|pieces| - 1];
      EndsOf(pieces[..|pieces| - 1], s) + if last.firstShred == s then [last.lastShred] else []
  }

  /** Every batch's account grew by exactly the pieces handed over for it. */
  ghost predicate Handed(before: map<nat, Account>, after: map<nat, Account>, pieces: seq<DecodedBatch>) {
    forall s: nat ::
      && Looked(after, s, NOTHING_YET).emitted == Looked(before, s, NOTHING_YET).emitted + EntriesOf(pieces, s)
      && Looked(after, s, NOTHING_YET).ends == Looked(before, s, NOTHING_YET).ends + EndsOf(pieces, s)
  }

  function Piece(s: nat, advance: Option<Advance>): seq<DecodedBatch> {
    if advance.Some? && Worth(advance.value) then
      [DecodedBatch(s, advance.value.lastShred, advance.value.entries)]
    else []
  }

  lemma HandingNothing(accounts: map<nat, Account>)
    ensures Handed(accounts, accounts, [])
  {
    forall s: nat
      ensures EntriesOf([], s) == [] && EndsOf([], s) == []
    {
    }
  }

  lemma PiecesGrow(pieces: seq<DecodedBatch>, more: DecodedBatch, s: nat)
    ensures EntriesOf(pieces + [more], s) == EntriesOf(pieces, s) + if more.firstShred == s then more.entries else []
    ensures EndsOf(pieces + [more], s) == EndsOf(pieces, s) + if more.firstShred == s then [more.lastShred] else []
  {
    assert (pieces + [more])[..|pieces|] == pieces;
  }

  lemma HandingTo(before: Account, now: Account, pieces: seq<DecodedBatch>, s: nat, t: nat, advance: Option<Advance>)
    requires now.emitted == before.emitted + EntriesOf(pieces, t) && now.ends == before.ends + EndsOf(pieces, t)
    ensures var told := if t == s then Followed(now, advance) else now; var more := pieces + Piece(s, advance);
            told.emitted == before.emitted + EntriesOf(more, t) && told.ends == before.ends + EndsOf(more, t)
  {
    hide EntriesOf, EndsOf;
    if advance.Some? && Worth(advance.value) {
      PiecesGrow(pieces, Piece(s, advance)[0], t);
    } else {
      assert pieces + Piece(s, advance) == pieces;
    }
  }

  lemma HandingOne(before: map<nat, Account>, after: map<nat, Account>, pieces: seq<DecodedBatch>,
                   s: nat, advance: Option<Advance>)
    requires Handed(before, after, pieces)
    ensures Handed(before, after[s := Followed(Looked(after, s, NOTHING_YET), advance)], pieces + Piece(s, advance))
  {
    hide EntriesOf, EndsOf, Followed, Piece;
    forall t: nat {
      HandingTo(Looked(before, t, NOTHING_YET), Looked(after, t, NOTHING_YET), pieces, s, t, advance);
    }
  }
}
