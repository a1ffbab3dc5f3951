# Shred sniper: a verified model

The sniper listens to a Solana validator's shred stream, puts batches of entries together from
whatever shreds arrive in whatever order, works out who landed where in a slot, and fires an
answer when a watched wallet trades. This project models the parts of it that have to be right
for its numbers to mean anything, and proves that they are.

| file | models |
|---|---|
| `Codec.dfy`, `Decoder.dfy`, `Encoding.dfy` | the bytes of a batch, one reading of them, the decoding loop that resumes, and how a leader writes a batch (`entries.rs`) |
| `Runs.dfy`, `Batches.dfy`, `Caches.dfy`, `Pieces.dfy`, `Arenas.dfy` | a slot's shreds as values, one cache-free pass over a batch, what the caches mean, what is handed over, the arena (`entries.rs`) |
| `SlotBuffer.dfy`, `Assembler.dfy` | the slot buffer and the assembler with their fields, updated in place (`entries.rs`) |
| `Orders.dfy`, `OpenBatches.dfy` | one slot delivered in any order, and what depends on the order (`entries.rs`) |
| `Limits.dfy` | where the promises stop, with the inputs that show it (`entries.rs`) |
| `Race.dfy` | spans, positions, tiling, the report, the tracker (`race.rs`) |
| `Watch.dfy` | a slot from its shreds to its race, against the slot as its leader wrote it (`pipeline.rs`, `entries.rs`, `race.rs`) |
| `LateRace.dfy`, `TwiceTold.dfy`, `AnyRace.dfy` | a race begun again after its report, one that outlives its buffer, and any race (`race.rs`, `entries.rs`) |
| `Written.dfy`, `Vouching.dfy` | a slot from the entries its leader wrote to its race, and what no race vouches for (`entries.rs`, `race.rs`) |
| `AgedMap.dfy` | the map that ages out and caps (`aged.rs`) |
| `Shred.dfy`, `Merkle.dfy`, `Verify.dfy` | parsing, the Merkle fold, the verified-root cache (`shred.rs`, `verify.rs`) |
| `Erasure.dfy`, `Parity.dfy` | erasure batches and recovery, and a code that meets the laws (`erasure.rs`) |
| `Fire.dfy` | the mailbox, the sender's loop, the pending list (`fire.rs`) |
| `Collections.dfy`, `Bytes.dfy` | ordered maps, sums, little-endian bytes |

How it is modelled:

- The slot buffer is a class with the program's own fields: arena, stale count, shred map, starts,
  progress, last index. Beside them stand ghost fields: the shreds held as values, the account of
  each batch (every entry, verdict, opening and range end it ever came to), and counters for bytes
  copied and shreds walked. Its invariant ties the two, and every method keeps it.
- The reference for decoding is `Codec.OneShot`: concatenate the run's shreds in index order and
  read once. `Batches.Step` is one pass with every cache taken away; `SlotBuffer.DecodePrefix` is
  proved to do the same with frontier cache, resume cache, and payload read in place or stitched.
- How a transaction is laid out is a function that need only be prefix stable (an answer, once
  given, is not changed by further bytes); the hash, the signature check and the erasure code are
  functions too. The erasure code's laws are that any `numData` places of a codeword determine its
  data, and that reconstructing goes by the first `numData` places filled. Each law is shown to be
  satisfiable by an instance.
- Nothing is assumed of the hash but its length. A hash always has collisions, so what is proved of
  the Merkle tree is that it binds unless a string really hashed on the way collides with one really
  hashed on the other side, and both are given (`Merkle.Breaks`).
- Time is a natural number of milliseconds, passed in. A slice out of range, on which the program
  would panic, is an explicit outcome.

Two hypotheses are needed, and shown to be needed:

- Copies of an index agree (`agreed`, `honest`). Without that the decoder can slice out of range;
  `Limits.CrashesExactlyWhen` says exactly when and `Orders.AShorterCopyComes` does it. Bytes,
  boundaries, caches and budget are proved without it.
- A batch's bytes before the shred that closes it stay within `MAX_BATCH_BYTES`. Without that
  entries and verdict depend on the order of delivery, and `Orders.OrderMattersExactlyWhen` says
  exactly when for a closed batch, `OpenBatches.BatchOrderMattersExactlyWhen` for any: unless there
  was nothing to be had of the batch in any order. The bound is on the open part of the run, which
  is never more than the batch.

Where what a reader would expect is not so, each with the input that shows it and the condition:

- A data shard that claims an offset past the data can stand in a coding shard's place and be given
  back for a lost one (`Erasure.AStrayComesBack`, and exactly when in `Erasure.EnoughIsEverything`).
- The Merkle fold uses only as many bits of the leaf index as the proof has steps
  (`Merkle.IndexPastTheProofIsIgnored`, and exactly when in `Merkle.IndexCountsExactlyWhen`).
- A race settled before all of its slot has come is begun again without what was told, and can then
  claim as exact a gap that falls short (`LateRaces.ALateLineComesBack`, and by how much in
  `Watches.SlotWatch.LateRaceFallsShort`).
- A race whose slot's buffer is dropped before it settles is told again what comes again, and can
  claim as exact a gap that is too wide (`TwiceTold.ATwiceToldLineComesBack`, and by how much in
  `AnyRaces.AnyRaceFallsShort`).
- Of any line of any race, whatever was reported and dropped before, a gap claimed as exact is right
  if and only if its extra, a sum over what was told of the batches from hit to hit, is nothing
  (`AnyRaces.AnyLineIsRightExactlyWhen`; it is, if each batch there was told by one buffer to one
  race, `AnyRaces.NothingExtra`).

By design a packet's own signature is not looked at once its root is cached; what that lets by is
shown (`Verification.AStrangersSignaturePasses`, and exactly when in
`Verification.CachedDiffersExactlyWhen`), and that it is still one of the leader's shreds
(`Verification.Verifier.SignedIsGenuine`).

`dafny verify dfyconfig.toml` checks everything.

## Model

| member | source | states |
|---|---|---|
| Watches.SlotWatch.RaceIsHonest | apps/shred-sniper/src/race.rs:81-121 | At any moment of any delivery (any order, any agreeing resends, any prefix of the slot) of a slot not reported before and whose buffer was never dropped, each hit is a watched wallet's transaction at the place its leader gave it, and for any two hits the reported transaction and entry gaps have the right sign, never exceed the leader's own, and equal them whenever the line says `exact` |
| Watches.SlotWatch.ReportIsHonest | apps/shred-sniper/src/race.rs:135-191 | Every line of a slot's report is such a line, for a target and a searcher among the slot's hits |
| Watches.SlotWatch.DeliveredRaceIsExact | apps/shred-sniper/src/race.rs:107-121 | Once every shred of a well-formed slot has come, by whatever route, the spans held are the leader's own batches over their whole ranges, every watched transaction is recorded exactly once and in order, and every range between two batches is tiled |
| Watches.SlotWatch.Receive | apps/shred-sniper/src/pipeline.rs:216-227 | One copy of one shred at any time: the buffer takes it, every piece it hands over is tallied in order, and while every copy delivered was the leader's the decoder never slices out of range |
| Watches.SlotWatch.Settle | apps/shred-sniper/src/race.rs:278-280 | The race is reported as its spans and hits stand and is gone; the buffer goes on where it was, so what comes later begins another race with the pieces told so far missing from it |
| Watches.SlotWatch.LateRaceFallsShort | apps/shred-sniper/src/race.rs:107-121 | Of such a later race, after any number of reports: each hit, moved behind the entries told before, is the leader's; no gap exceeds the leader's less what was told before between the two hits; and a gap claimed as exact is that difference, so it is the leader's own if and only if nothing told before lies between them |
| Watches.SlotWatch.Drop | apps/shred-sniper/src/entries.rs:709-734 | The buffer goes with the race unsettled: a blank one takes its place, the race stays as it is, and what comes again will be told to it again |
| AnyRaces.AnyRaceFallsShort | apps/shred-sniper/src/race.rs:81-121 | Of any race, reported and begun again and its buffer dropped any number of times, shreds missing or not: each hit, counted from what its own buffer had told races before, is the leader's transaction; and a gap between two hits less its extra never exceeds the leader's, and is the leader's where the range is tiled. The extra names only what was told: what every buffer told over its longest telling, and what stands in front of each hit in its own batch |
| AnyRaces.AnyLineIsRightExactlyWhen | apps/shred-sniper/src/race.rs:107-121 | Of any two hits of either role: where the line between them claims to be exact, both its gaps are the leader's own and their extra, so each is right if and only if its extra is nothing |
| AnyRaces.GapsFallShort | apps/shred-sniper/src/race.rs:81-121 | The same of any pieces any buffers told, each a fair telling of the leader's batches behind what it had told races before |
| AnyRaces.OnePrecedes | apps/shred-sniper/src/race.rs:225-261 | Hits of the two roles are never one place of the leader's order, so one is in front of the other there |
| AnyRaces.NothingExtra | apps/shred-sniper/src/race.rs:221-262 | If of every batch from that of the one hit to that of the other just one buffer told the race anything, and none had told races before any, nothing is extra |
| AnyRaces.EntryStands | apps/shred-sniper/src/race.rs:250-261 | Of all entries told of a batch to one race, by whichever buffer and whatever that buffer had told races before: each is the leader's at the place those come to, which the longest telling reaches |
| AnyRaces.LongestIsTheLeaders | apps/shred-sniper/src/entries.rs:684-698 | The longest telling of a batch is a prefix of the leader's, and all of it once the batch's last shred was told |
| AnyRaces.DeliveredReaches | apps/shred-sniper/src/entries.rs:449-494 | Once the buffer in place has every shred, and told no race before any, the race knows every batch to its end, with all its buffers told it of the batch, however often that was |
| TwiceTold.ATwiceToldLineComesBack | apps/shred-sniper/src/race.rs:221-262 | It happens: the first batch told, the buffer dropped, everything delivered again, and the race claims seven transactions, as exact, where the leader put five |
| WrittenSlots.WrittenIsRead | apps/shred-sniper/src/entries.rs:748-804 | Round trip, from the entries a leader writes to the race: cut into shreds anywhere, padded or not, delivered in any order with agreeing resends, once every shred has come what was handed over for each batch is just what was written, the batch is called decoded if it has an entry and a marker if not, and the race has the count of every entry and each watched transaction where it was written |
| WrittenSlots.NothingButTheWritten | apps/shred-sniper/src/entries.rs:428-465 | At any time before that: what was handed over is the first of the entries written, and no batch is ever called anything but what it earned |
| WrittenSlots.WrittenIsALeaders | apps/shred-sniper/src/entries.rs:366-380 | A slot so written is well formed, and its running order is that of the entries written |
| WrittenSlots.SomeSlotIsWritten | apps/shred-sniper/src/entries.rs:748-804 | There are such slots, one with a hit of either side among them |
| Vouchings.NothingIsVouchedFor | apps/shred-sniper/src/entries.rs:678-698 | Of any slot, well formed or not, and any race of it: a batch the leader wrote that yields no entry and is not read to its end is never on the race's books, and no line between hits on either side of it claims to be exact |
| Vouchings.NoneIsTiledAcross | apps/shred-sniper/src/race.rs:107-121 | No range is called tiled across a batch of the leader's that the race has no span of, whatever was reported and dropped before |
| Vouchings.SpansAreVouchedFor | apps/shred-sniper/src/entries.rs:678-698 | Every span a race holds begins where a batch of the leader's does, stays within it, and is of a batch that yields an entry or is read to its end |
| Vouchings.FailedIsNotVouchedFor | apps/shred-sniper/src/entries.rs:678-698 | A batch that was failed with no entry is not on the books of a race whose only buffer failed it |
| Vouchings.AFailedBatchIsNotBooked | apps/shred-sniper/src/entries.rs:1559-1577 | It comes: one closing shred of eight bytes of 255 is failed with no entry, and the race has no span of it |
| LateRaces.ALateLineComesBack | apps/shred-sniper/src/race.rs:221-262 | It happens: a slot of four shreds, delivered through the buffer with a report in between, whose race claims three transactions, as exact, where the leader put five |
| LateRaces.ReportedTooSoon | apps/shred-sniper/src/race.rs:221-262 | The delivery that leads there: second batch begun, slot reported, then everything else |
| LateRaces.DeliveredIsFull | apps/shred-sniper/src/entries.rs:449-494 | With every shred in, what was told in all of a slot's races together is the leader's order |
| Watches.BooksAreWithin | apps/shred-sniper/src/entries.rs:684-698 | However much of a slot has come in, what the race holds is part of the leader's order: known batches only, entries a prefix, and a batch known to its last shred known entirely |
| Watches.DeliveredBooksAreWhole | apps/shred-sniper/src/entries.rs:449-494 | Ranges tile: a batch all of whose shreds are held has been reported over exactly its own range, even if its entries were out before its padding came, so the spans of a fully delivered slot partition it |
| Watches.HitsAreTheLeaders | apps/shred-sniper/src/race.rs:225-261 | A recorded hit names a transaction that one reading of the leader's batch yields at that very entry and place |
| Watches.LeaderBatchesTile | apps/shred-sniper/src/entries.rs:366-375 | Batches of a slot without missing indices never overlap |
| Watches.EveryShredHasItsBatch | apps/shred-sniper/src/entries.rs:376-380 | Every index of such a slot lies in the range of the greatest start at or below it |
| Watches.SomeSlotIsALeaders | apps/shred-sniper/src/entries.rs:448-452 | Slots meeting the hypotheses exist |
| Watches.SomeRaceHasHits | apps/shred-sniper/src/race.rs:225-261 | So do watches of such slots, reached by delivery, no race reported and no buffer dropped, with hits of both sides on their books |
| SlotBuffers.SlotBuffer.HandedOverIsTheReading | apps/shred-sniper/src/entries.rs:384-465 | Incremental decoding refines one-shot decoding: in every reachable state with agreeing copies, what was handed over for a batch is a prefix of one reading of the run held and, while the run before its closing shred is within the bound, all of it, with the verdict its bytes deserve: decoded or marker if every entry announced is there, failed if the bytes are no entries or the run is closed short of them, none while more can come. At most one verdict and one opening; range ends never decrease, none is told of a batch that came to nothing, and of one not read to its end each comes with an entry |
| SlotBuffers.SlotBuffer.Quiescent | apps/shred-sniper/src/entries.rs:376-380 | After every accepted insert, agreeing copies given, advancing any known start again yields nothing and changes nothing but the cached extent |
| SlotBuffers.OrderDoesNotMatter | apps/shred-sniper/src/entries.rs:428-465 | Two buffers that hold the same bytes and flags, whatever orders and resends led there, handed over the same entries, reached the same verdict and opened equally often |
| SlotBuffers.SlotBuffer.WalksAreLinear | apps/shred-sniper/src/entries.rs:505-560 | Shreds crossed for a batch by all its extent walks total at most the run's length, and likewise by its resume skips, counted since one of its shreds was last resent |
| SlotBuffers.SlotBuffer.CompactionIsPaidFor | apps/shred-sniper/src/entries.rs:354-364 | Bytes ever copied by compaction plus the arena as it stands never exceed bytes ever stored |
| SlotBuffers.SlotBuffer.CoherentCaches | apps/shred-sniper/src/entries.rs:505-560 | In every reachable state, also after resent copies that differ in length or flag and for starts that left and came back, the cached extent equals a measurement from scratch of the stretch it covers in all fields, and the resume point is a true prefix sum at or before what was consumed |
| SlotBuffers.SlotBuffer.Take | apps/shred-sniper/src/entries.rs:641-706 | Taking a shred: the shreds held are updated at that index only, every candidate goes through exactly one cache-free pass and no other batch through any, it slices out of range if and only if some candidate's pass does and never with copies that agree, each batch's account grows by exactly the pieces returned for it, the arena stays within its bound, and the invariants (bytes, boundaries, caches, level batches) hold again |
| SlotBuffers.SlotBuffer.Insert | apps/shred-sniper/src/entries.rs:266-301 | Boundaries stay {0} plus one past each held terminator, and forgetting the caches of the replaced shred's candidates alone keeps every cache true |
| SlotBuffers.SlotBuffer.Place | apps/shred-sniper/src/entries.rs:266-296 | Bytes of every other held shred are untouched, and replaced bytes become stale |
| SlotBuffers.SlotBuffer.Enter | apps/shred-sniper/src/entries.rs:274-296 | The entered copy replaces the one held; the boundary behind it comes or goes with its flag |
| SlotBuffers.SlotBuffer.MarkBoundary | apps/shred-sniper/src/entries.rs:288-296 | The boundary behind a shred is present just when the copy now held closes a batch |
| SlotBuffers.SlotBuffer.Store | apps/shred-sniper/src/entries.rs:340-347 | The stored bytes lie at the place returned, live bytes grow by their length, and the arena's size is bounded by twice the live bytes or the compaction floor |
| SlotBuffers.SlotBuffer.Compact | apps/shred-sniper/src/entries.rs:354-364 | Compaction keeps every held shred's bytes and leaves nothing stale: the arena becomes exactly as long as the sum of held lengths |
| SlotBuffers.SlotBuffer.Live | apps/shred-sniper/src/entries.rs:322-324 | Arena length minus stale bytes is the sum of the lengths of the shreds held |
| SlotBuffers.Grown | apps/shred-sniper/src/entries.rs:333-337 | A doubling vector grows by no more than the length it has to hold |
| SlotBuffers.SlotBuffer.Invalidate | apps/shred-sniper/src/entries.rs:309-316 | Exactly the caches of the batches the replaced shred could touch are dropped |
| SlotBuffers.SlotBuffer.WalkExtent | apps/shred-sniper/src/entries.rs:505-539 | A walk resumed at a true cache measures the run as a walk from its first shred does, in all five fields |
| SlotBuffers.SlotBuffer.SkipRead | apps/shred-sniper/src/entries.rs:551-560 | The skip stops at the first shred not read in full, with the bytes before it summed, never past what was consumed |
| SlotBuffers.SlotBuffer.LayOut | apps/shred-sniper/src/entries.rs:567-579 | The stretch is called contiguous just when its shreds lie end to end, and then the arena slice is its bytes |
| SlotBuffers.SlotBuffer.Gather | apps/shred-sniper/src/entries.rs:567-588 | Read in place or stitched, the payload is the concatenation of the stretch; it is copied only if it does not lie end to end |
| SlotBuffers.SlotBuffer.PayloadFrom | apps/shred-sniper/src/entries.rs:548-589 | The payload is the run's bytes from `base` on, `base` at most what was consumed and at most the run's length |
| SlotBuffers.SlotBuffer.ClaimTail | apps/shred-sniper/src/entries.rs:473-494 | The claim made with the cached walk is the claim made from scratch |
| SlotBuffers.SlotBuffer.ReadOn | apps/shred-sniper/src/entries.rs:422-464 | The reading part of a pass does what reading the concatenated run from `consumed` would |
| SlotBuffers.SlotBuffer.Settle | apps/shred-sniper/src/entries.rs:430-464 | Outcome, opening and padding follow from what was read and whether the run is closed |
| SlotBuffers.SlotBuffer.DecodePrefix | apps/shred-sniper/src/entries.rs:393-465 | A pass with frontier cache, resume cache and payload in place or stitched equals the pass without any of them |
| SlotBuffers.SlotBuffer.AdvanceBatch | apps/shred-sniper/src/entries.rs:384-391 | Only this batch's progress and account change, as the cache-free pass says |
| SlotBuffers.SlotBuffer.AdvanceAll | apps/shred-sniper/src/entries.rs:667-698 | Carrying the candidates forward in order leaves every known batch level with its run, by exactly the passes of the candidates that are known |
| SlotBuffers.GapsAreWhatIsMissing | apps/shred-sniper/src/entries.rs:595-603 | The missing indices are exactly those never held up to the closing shred, or up to the highest held, in order |
| Batches.StepKeepsSound | apps/shred-sniper/src/entries.rs:393-494 | One pass brings a batch level with whatever run it finds, wherever it had got to: entries, verdict, opening, padding claim and range |
| Batches.SoundIsQuiet | apps/shred-sniper/src/entries.rs:418-420 | A batch level with its run has nothing to add |
| Batches.Confluence | apps/shred-sniper/src/entries.rs:428-465 | Any two histories over one run within the bound agree on entries, verdict and opening |
| Batches.ClaimReports | apps/shred-sniper/src/entries.rs:473-494 | The padding claim carries no entry and no verdict, is made once, and reports the shred that closes the batch |
| Batches.VerdictIsRight | apps/shred-sniper/src/entries.rs:430-444 | Of a batch within the bound: decoded or marker just if every entry it announces is there, by whether there is one; failed just if its bytes are no entries or it is closed short of them; no verdict while more can come |
| Batches.AdvanceTellsOfTheRun | apps/shred-sniper/src/entries.rs:505-539 | What a pass reports ends where the run held ends, with the earliest receipt of its shreds, and is called recovered if any of them was |
| Batches.CacheOutlivesShred | apps/shred-sniper/src/entries.rs:303-316 | No copy of a shred, agreeing or not, can falsify a cache kept across it |
| Batches.OneShotGrows | apps/shred-sniper/src/entries.rs:748-804 | What a shorter prefix of a batch yields is kept, entry by entry, by every longer one |
| Limits.CrashesExactlyWhen | apps/shred-sniper/src/entries.rs:781 | The slice at the head of the decoding loop is out of range if and only if the batch is open, still owes entries, and its run is closed and shorter than what was consumed |
| Limits.AShorterCopyCrashes | apps/shred-sniper/src/entries.rs:781 | It can be: a first copy that yields one entry of two, then an empty copy of the same shred that closes the batch |
| Orders.AShorterCopyComes | apps/shred-sniper/src/entries.rs:641-706 | The slot buffer is led there by two copies of one shred |
| Orders.OrderMattersExactlyWhen | apps/shred-sniper/src/entries.rs:400-415 | Two orders of delivering a slot, copies that agree in bytes and flag coming any number of times at any times, can leave a closed batch with different entries or verdicts if and only if its bytes before the shred that closes it exceed the bound and one reading of it yields an entry or finishes |
| OpenBatches.BatchOrderMattersExactlyWhen | apps/shred-sniper/src/entries.rs:400-415 | For every batch of every slot, begun or not, closed or open: two orders of delivery, agreeing copies coming any number of times, can leave it with different entries or verdicts if and only if it is begun, its bytes before a closing shred exceed the bound, and something is to be had of it: of a closed one by reading it whole, of an open one by reading a part that is within the bound |
| OpenBatches.OutgrownIsFailed | apps/shred-sniper/src/entries.rs:404-415 | An open batch past the bound with nothing to be had of any part within it is failed, once and with no entry, in every order |
| OpenBatches.WithinIsFixed | apps/shred-sniper/src/entries.rs:428-465 | A batch within the bound, closed or open, comes to the entries of one reading and the verdict deserved in every order |
| OpenBatches.ReadBefore | apps/shred-sniper/src/entries.rs:428-465 | An order in which the part within the bound is read before the rest comes |
| Orders.OutcomeIsFixed | apps/shred-sniper/src/entries.rs:428-465 | Otherwise every order leaves the entries of one reading and the verdict its bytes deserve |
| Orders.ReadWhole | apps/shred-sniper/src/entries.rs:428-465 | First shred last: the batch is read whole, however long it is |
| Orders.GivenUpUnread | apps/shred-sniper/src/entries.rs:404-415 | Closing shred last, the first one just before it: a batch past the bound is failed with nothing read |
| Orders.PassesKeepLevel | apps/shred-sniper/src/entries.rs:384-465 | After any sequence of copies, agreeing resends among them, a batch whose start is known is sound and settled with the run held, and one whose start is not is untouched |
| Orders.Deliver | apps/shred-sniper/src/entries.rs:641-706 | The slot buffer, given any agreeing copies of the shreds in any order, each with a time, a recovery flag and a last flag of its own, holds the latest copy of each, never slices out of range, and leaves every batch with the progress and the account the passes come to |
| Limits.OutgrownExactlyWhen | apps/shred-sniper/src/entries.rs:404 | Some part of a closed batch is an open run past the bound if and only if its bytes before the shred that closes it exceed it |
| Limits.ALongBatchDependsOnOrder | apps/shred-sniper/src/entries.rs:404 | Two shreds for which delivery in order fails the batch and delivery in reverse makes it a marker |
| Limits.OutgrownIsGivenUp | apps/shred-sniper/src/entries.rs:404-415 | An open run past the bound is closed as failed without reading it, and nothing else of its progress changes but the extent |
| Runs.OnlyCandidatesChange | apps/shred-sniper/src/entries.rs:366-380 | Locality: a shred, whatever copy, changes the run and the extent of no known start but its candidates |
| Runs.Candidates | apps/shred-sniper/src/entries.rs:376-380 | The greatest start at or below the index, and the one right behind it if it is a start; never the same twice |
| Runs.AgreeingRunExtends | apps/shred-sniper/src/entries.rs:500-504 | Runs only grow at their far end when copies agree, and a closed run is final |
| Runs.StretchNamesItsBatch | apps/shred-sniper/src/entries.rs:371-375 | A run from a start cannot reach past a terminator it is missing, so the batch containing a shred is the one whose run reaches it |
| Runs.CatSplit | apps/shred-sniper/src/entries.rs:548-553 | A run's bytes split at any shred |
| Caches.CachesSurvive | apps/shred-sniper/src/entries.rs:303-316 | Across any insert, dropping the candidates' caches of a replaced shred leaves every cache of every start true |
| Caches.FreshShredLeavesCandidates | apps/shred-sniper/src/entries.rs:376-380 | After a new shred every batch but its candidates is still level with its run |
| Caches.AgreeingCopyLeavesCandidates | apps/shred-sniper/src/entries.rs:297-316 | After an agreeing copy likewise, the candidates' caches being gone |
| Caches.AdvancingOneOfMany | apps/shred-sniper/src/entries.rs:667-670 | Advancing one candidate levels it and leaves the others as they were, without a crash |
| Caches.PassingOne | apps/shred-sniper/src/entries.rs:667-670 | One candidate more has gone through its pass, and no batch has gone through two |
| Caches.CrashingOne | apps/shred-sniper/src/entries.rs:667-670 | Whether a candidate's pass slices out of range does not depend on the candidates before it |
| Pieces.HandingOne | apps/shred-sniper/src/entries.rs:691-697 | Pieces returned add up, per batch, to what its account gained in entries and range ends |
| Arenas.MovingOne | apps/shred-sniper/src/entries.rs:357-361 | Moving one shred into the rebuilt arena keeps all moved and all waiting shreds' bytes |
| Arenas.EnteringOne | apps/shred-sniper/src/entries.rs:275-293 | Entering a copy keeps arena length equal to live plus stale bytes |
| Arenas.LayingOne | apps/shred-sniper/src/entries.rs:571-579 | Extending a stretch by one shred keeps the contiguity verdict and the slice right |
| Codec.ReadResumes | apps/shred-sniper/src/entries.rs:748-804 | Reading in pieces is reading at once, for every split of the bytes: a pass out of bytes resumes to the same result, a pass with a verdict keeps it whatever follows |
| Encodings.ReadInvertsBatch | apps/shred-sniper/src/entries.rs:759-804 | Round trip: whatever entries a leader writes behind their count, whatever padding follows, one reading gives back just those entries, stops where they end and owes none; unless they are so many that no batch within the bound could hold them, and then nothing is read |
| Encodings.PartOfABatchWaits | apps/shred-sniper/src/entries.rs:794-796 | Such a batch cut short anywhere is waited for and never refused, and every entry that is whole in the part that has come is out |
| Encodings.NoTransactionIsRefused | apps/shred-sniper/src/entries.rs:797-800 | Bytes that are no transaction where the next one owed should be fail the batch at once, behind any whole entries and transactions, with those entries out |
| Encodings.WaitsForWhatFits | apps/shred-sniper/src/entries.rs:769-775 | No batch is waited for that announces more entries than a batch within the bound could hold |
| Encodings.WrittenDeserves | apps/shred-sniper/src/entries.rs:430-444 | The verdict on a batch so written: decoded just if it has an entry, else a marker |
| Codec.EntryPrefixStable | apps/shred-sniper/src/entries.rs:785-800 | Given a prefix-stable transaction layout, an entry parsed or refused stays so however many bytes follow |
| Codec.EntriesFillTheirBytes | apps/shred-sniper/src/entries.rs:88-91 | Every entry takes at least its minimum of bytes |
| Codec.RefusedCountsNeverComplete | apps/shred-sniper/src/entries.rs:769-775 | Of a batch within the bound whose count is more than the bound divided by the least an entry takes: read on regardless, it would never be done |
| Codec.ParseEntry | apps/shred-sniper/src/entries.rs:112-119 | An entry takes at least forty-eight bytes and never more than are there |
| Codec.TwoByteTransactionIsPrefixStable | apps/shred-sniper/src/entries.rs:785-800 | The laws asked of the transaction layout can be met |
| Decoder.Decode | apps/shred-sniper/src/entries.rs:759-804 | The loop over the undecoded tail, count first, is the pure reading of the whole batch from `consumed`, its out-of-range slice included |
| Decoder.DecodeEntries | apps/shred-sniper/src/entries.rs:780-803 | The same for its entry loop |
| Assemblers.Assembler.Insert | apps/shred-sniper/src/entries.rs:641-706 | After every path the running total equals the sum of slot footprints and overshoots the budget by at most one arena growth and one batch's overhead; what the sweep leaves spent is exactly what the slots it keeps cost before; a shred is taken exactly when that leaves room for its charge and its slot is not full; a refused one changes no buffer; a taken one changes no other slot |
| Assemblers.Assembler.TakesUpNoMore | apps/shred-sniper/src/entries.rs:333-337 | The arenas of all slots held and an entry for each of their shreds and batches take up no more than the budget and one overshoot |
| Assemblers.FullExactlyWhen | apps/shred-sniper/src/entries.rs:647-662 | A slot is full for a shred just if what its shreds and this one carry is over the cap, a copy to be replaced counted too, or it is one shred more than a slot may have |
| Assemblers.NeverFullForALeader | apps/shred-sniper/src/entries.rs:647-662 | No slot a leader kept within the caps is full for a shred of its that has not come yet |
| Assemblers.Assembler.Admit | apps/shred-sniper/src/entries.rs:649-697 | Behind the budget: the slot's buffer is found or begun, takes the shred unless it is full for it, and no other buffer changes |
| Assemblers.Assembler.Feed | apps/shred-sniper/src/entries.rs:692-705 | The total moves by what the slot's footprint moved by, never below zero |
| Assemblers.Assembler.FeedBuffer | apps/shred-sniper/src/entries.rs:663-697 | No other slot's cost or contents move |
| Assemblers.Assembler.Reserve | apps/shred-sniper/src/entries.rs:649 | A slot's buffer is the one held, or a blank one that costs nothing yet |
| Assemblers.Assembler.Sweep | apps/shred-sniper/src/entries.rs:709-734 | Rebuilding the total from what is left restores it exactly, cap drops included, and never raises it |
| Assemblers.Assembler.SweepSlots | apps/shred-sniper/src/entries.rs:709-734 | Slots kept are kept as they were; only slots past retention, or over the cap, go |
| Assemblers.Assembler.Total | apps/shred-sniper/src/entries.rs:726-730 | The sum over slots in any order is the sum of footprints |
| Assemblers.TakeWithinCaps | apps/shred-sniper/src/entries.rs:650-662 | A shred admitted within the slot's caps leaves the slot within them, its arena at most twice the slot's cap |
| AgedMaps.AgedMap.Sweep | apps/shred-sniper/src/aged.rs:82-114 | A sweep runs when due or over the cap; what is left is younger than retention, what aged out is handed over, and over the cap the newest survive |
| AgedMaps.AgedMap.Cutoff | apps/shred-sniper/src/aged.rs:99-103 | The cutoff is the stamp for which at least `cap` entries are as new and fewer are newer |
| AgedMaps.CapKeepsTheNewest | apps/shred-sniper/src/aged.rs:97-112 | At least `cap` entries survive, exactly `cap` if stamps are distinct, and every dropped entry is strictly older than every kept one |
| AgedMaps.CutoffCounts | apps/shred-sniper/src/aged.rs:100-103 | The order statistic read out of the sorted stamps has that property, for every list of stamps |
| AgedMaps.SweepDropsRightly | apps/shred-sniper/src/aged.rs:82-114 | Nothing younger than retention is let go but to the cap |
| AgedMaps.AgedMap.Upsert | apps/shred-sniper/src/aged.rs:69-76 | Found or created, the entry is stamped now and no other changes |
| Races.GapsAreHonest | apps/shred-sniper/src/race.rs:81-121 | For any part of the leader's order held: both gaps from the earlier hit to the later are at most the leader's and equal to it when the range between is tiled |
| Races.TiledRangeIsWhole | apps/shred-sniper/src/race.rs:107-121 | A tiled range misses no batch of the leader's and knows each entirely |
| Races.GapsAreOrdered | apps/shred-sniper/src/race.rs:81-105 | Positions order hits as the leader wrote them |
| Races.LinesAreHonest | apps/shred-sniper/src/race.rs:171-188 | A line's signed gaps and its `exact` flag, in either order of the two hits; that it says same entry just if the leader has no entry between them; and that it counts no more batches than the leader has there, and all if it is exact |
| Races.LateGapsFallShort | apps/shred-sniper/src/race.rs:107-121 | A race over part of the leader's order from which the heads of some batches are gone: gaps are ordered, at most the leader's less what was missed, and exactly that where tiled |
| Races.RestoringAdds | apps/shred-sniper/src/race.rs:81-105 | Putting those heads back adds to a gap exactly their entries and transactions, those of the earlier hit's own batch aside |
| Races.LinesArePairs | apps/shred-sniper/src/race.rs:171-190 | Every line is of one target and one searcher |
| Races.HitsAreWhereTheySay | apps/shred-sniper/src/race.rs:225-261 | Every hit lies inside its batch's span, at a transaction of a watched wallet |
| Races.HitsOfPieces | apps/shred-sniper/src/race.rs:250-261 | Hits counted piece by piece from where each piece begins are the hits of the whole batch |
| Races.TallyingOne | apps/shred-sniper/src/race.rs:242-261 | Adding a piece keeps spans and hits equal to what all pieces handed over come to |
| Races.Slot.Add | apps/shred-sniper/src/race.rs:242-261 | After any pieces in any order the slot is exactly their tally: furthest end, transaction counts in order, every watched transaction once |
| Races.Slot.Position | apps/shred-sniper/src/race.rs:81-105 | The loop with its two breaks counts every transaction and entry of held batches before the hit and no other |
| Races.Slot.IsTiled | apps/shred-sniper/src/race.rs:111-121 | True if and only if each batch in the range is followed at once by the next, from the first shred to the last |
| Races.Slot.Report | apps/shred-sniper/src/race.rs:135-191 | Quiet just if there was no hit; too many just if there are more pairs than the bound; else every hit's signature is told on its own side, in order and as often as it was hit, and a race has one line for each pair, target by target |
| Races.ReportTells | apps/shred-sniper/src/race.rs:135-191 | The same of the report of any spans and hits, with the number of lines that of the pairs and each line where its pair stands |
| Races.SideHas | apps/shred-sniper/src/race.rs:136-138 | A side is all its hits in the order they were made, each behind just as many as were made before it |
| Races.SameEntryHasNoGap | apps/shred-sniper/src/race.rs:179-184 | Two transactions of a slot are no entries apart just if they are in one entry |
| Races.BatchesBetween | apps/shred-sniper/src/race.rs:126-130 | Of the leader's batches in a range no more are counted than there are, and all of them if the range is tiled |
| Races.WatchedIsHit | apps/shred-sniper/src/race.rs:225-276 | No transaction paid for by a watched wallet is passed over |
| Races.HitsAscend | apps/shred-sniper/src/race.rs:225-241 | The hits of a batch are made in the leader's order, so none twice |
| Races.Slot.Lines | apps/shred-sniper/src/race.rs:167-190 | Positions computed once per searcher give the lines computed pair by pair |
| Races.Slot.LinesAgainst | apps/shred-sniper/src/race.rs:171-190 | One target's lines, in the searchers' order |
| Races.FindHits | apps/shred-sniper/src/race.rs:227-240 | The nested scan finds each watched transaction once, searcher's role first |
| Races.Tracker.Settle | apps/shred-sniper/src/race.rs:278-280 | When a sweep is due exactly the slots quiet for the settling time are reported and gone, each with a report that tells all its hits; nothing younger goes but to the cap |
| Races.Tracker.ReportAll | apps/shred-sniper/src/race.rs:278-280 | Every slot aged out is reported, with all its hits told |
| Races.Tracker.Batch | apps/shred-sniper/src/race.rs:221-262 | The slots a due sweep finds quiet are reported with all their hits told, then the piece extends its own slot's tally by one, stamps that slot, and touches no other |
| Races.Tracker.Book | apps/shred-sniper/src/race.rs:242-261 | The piece goes to its slot's race, found or begun, and to no other |
| Races.Track | apps/shred-sniper/src/race.rs:206-215 | There is a tracker exactly when a wallet is watched |
| Shreds.ParseInvertsBody | apps/shred-sniper/src/shred.rs:128-157 | Parsing what a leader lays out gives back every field, both flags, the tick and the entry bytes |
| Shreds.ParseInvertsCodingBody | apps/shred-sniper/src/shred.rs:159-175 | The same for a coding shred: slot, batch, counts, position and shard |
| Shreds.RecoveredBodyParsesAlike | apps/shred-sniper/src/shred.rs:126-127 | A body cut off at its shard parses to what the whole body parses to |
| Shreds.ParsedDataIsBounded | apps/shred-sniper/src/shred.rs:128-157 | Whatever parses has an index under the slot's limit, an erasure batch it can belong to, and entry bytes inside its shard |
| Shreds.ParsedCodingIsBounded | apps/shred-sniper/src/shred.rs:150-168 | The bounds on a coding shred's batch and shard, which is the part of the packet behind its headers |
| Shreds.ReadAsItsKind | apps/shred-sniper/src/shred.rs:103-126 | A packet is read as what its variant says it is, and not at all if that is neither kind or it is of another version |
| Shreds.EveryVariantHasAShard | apps/shred-sniper/src/shred.rs:180-186 | No variant byte leaves a shard too short for its headers |
| Merkle.RootBinds | apps/shred-sniper/src/shred.rs:242-251 | Binding: equal roots by the same turns and as many steps mean equal leaf bytes and equal proofs, or a string hashed in the one climb and a different one hashed in the other are given that are alike in the twenty bytes a proof carries of their hashes |
| Merkle.PacketsBind | apps/shred-sniper/src/shred.rs:222-257 | The same for two packets and the strings hashed to rebuild their roots |
| Merkle.RootDecidesShred | apps/shred-sniper/src/shred.rs:188-196 | Two packets that rebuild one root from the same place parse to the same shred, or such a collision between the two rebuilds is given |
| Merkle.LeafDecidesParse | apps/shred-sniper/src/shred.rs:202-213 | The hashed leaf covers everything parsing reads |
| Merkle.HeightsDoNotMix | apps/shred-sniper/src/shred.rs:42-46 | What climbs further than a leaf to the leaf's root hashes on its way a string that collides with one the leaf's own climb hashes: no node has the bytes of a leaf |
| Merkle.TreeBinds | apps/shred-sniper/src/shred.rs:242-251 | Whatever climbs to a tree's root in as many steps as the tree is deep, by whatever index and proof, is one of its leaves, or its climb hashes a string that collides with one hashed for the tree |
| Merkle.ShorterIsNode | apps/shred-sniper/src/shred.rs:42-46 | What gets there in fewer steps has the bytes of a node, or collides likewise |
| Merkle.LongerMeetsNode | apps/shred-sniper/src/shred.rs:42-46 | What gets there in more steps makes one of the leaves have the bytes of a node, or collides likewise |
| Merkle.LeafOfTheTree | apps/shred-sniper/src/shred.rs:222-257 | For proofs of any length and any claimed index: a leaf that rebuilds a tree's root is one of the tree's leaves, or its climb hashes a string that collides with one hashed for the tree |
| Merkle.RootOfTheBatch | apps/shred-sniper/src/shred.rs:188-257 | A packet that rebuilds the root of a leader's batch parses to one of that batch's own shreds, or rebuilding it hashes a string that collides with one the leader hashed for the batch |
| Merkle.ProofBinds | apps/shred-sniper/src/shred.rs:242-251 | By one proof and whatever turns, two strings do not climb to one root but by a collision between the two climbs |
| Merkle.IndexCountsExactlyWhen | apps/shred-sniper/src/shred.rs:243-251 | Two claimed indices give one root if and only if at each step of the proof they turn the same way or node and sibling are alike, but for a collision between the two climbs |
| Merkle.IndexPastTheProofIsIgnored | apps/shred-sniper/src/shred.rs:243-251 | So indices zero and two are one to every proof of a single step |
| Merkle.SignatureIsNoPart | apps/shred-sniper/src/shred.rs:222-257 | Any other signature in front of the packet leaves its root as it is |
| Merkle.PathLeadsToRoot | apps/shred-sniper/src/shred.rs:243-251 | Completeness: a leaf folded along its own sibling path gives the tree's root, for trees of any number of leaves |
| Merkle.LeadersShredRebuildsRoot | apps/shred-sniper/src/shred.rs:222-257 | A packet whose parts are a leaf of the leader's tree, its place and its path rebuilds the tree's root |
| Merkle.DataPacketComesBack | apps/shred-sniper/src/shred.rs:222-257 | Round trip of a packet: a data shred laid out by its leader with any variant, resigned or not, as the leaf at its index within its batch and with that leaf's path behind it, rebuilds the root of the batch's tree under its own signature and parses to the shred it was laid out from |
| Merkle.CodingPacketComesBack | apps/shred-sniper/src/shred.rs:222-257 | The same of a coding shred, whose leaf is behind all data shreds of the batch |
| Merkle.Rebuild | apps/shred-sniper/src/shred.rs:222-257 | The bounds-checked rebuild, no root when a field or the proof does not fit |
| Merkle.Fold | apps/shred-sniper/src/shred.rs:242-251 | The loop is the fold of the leaf along its proof |
| Merkle.LeafIsTheBody | apps/shred-sniper/src/shred.rs:205-214 | The leaf reaches past the erasure shard for every variant |
| Erasure.FecSet.EnoughHeardIsEverything | apps/shred-sniper/src/erasure.rs:160-231 | Any `numData` distinct shards of the leader's, one of them coding, in any order and with any duplicates, leave every data shard either received or given back and none both; those given back are the leader's if and only if no stray misled the code |
| Erasure.RecoveredShredIsTheLeaders | apps/shred-sniper/src/pipeline.rs:177-181 | A recovered body parses to the data shred its leader sent, with the packet's own proof and padding gone |
| Erasure.EnoughIsEverything | apps/shred-sniper/src/erasure.rs:179-228 | For every lawful code: the threshold is met exactly when shards held number `numData`; then what is recovered is exactly the data shards missing, and it is all right if and only if no data shard at an offset past the data, with bytes not the codeword's, is among the first `numData` places filled |
| Erasure.StraysDecideLead | apps/shred-sniper/src/erasure.rs:189-198 | The first `numData` places filled hold the codeword's own shards if and only if no such stray is among them |
| Erasure.LeadDetermines | apps/shred-sniper/src/erasure.rs:202-206 | A codeword that agrees on the first `numData` places filled is the leader's |
| Erasure.AStrayMisleads | apps/shred-sniper/src/erasure.rs:189-206 | One data shard and two coding shards of any length, a stray in the place of the first: the set is ready and what comes back is the stray |
| Erasure.AStrayComesBack | apps/shred-sniper/src/erasure.rs:92-142 | It is reached by taking in the stray and then one honest coding shard, and the stray is what the set gives back |
| Erasure.FecSet.Settle | apps/shred-sniper/src/erasure.rs:160-231 | After every insert an unresolved set with a known layout is short of shards; it resolves on the shard that makes it ready, once |
| Erasure.FecSet.Recover | apps/shred-sniper/src/erasure.rs:160-231 | Short of shards nothing changes; ready, the missing data shards come back in order and everything is dropped, whatever the code says |
| Erasure.FecSet.Gather | apps/shred-sniper/src/erasure.rs:189-198 | Draining both maps in any order puts each usable shard at its index, coding over data |
| Erasure.FecSet.Reconstruct | apps/shred-sniper/src/erasure.rs:202-230 | One body for each data shard missing, in index order, or none if the code fails |
| Erasure.FecSet.TakeData | apps/shred-sniper/src/erasure.rs:107-110 | The first copy of an offset counts, later ones do not |
| Erasure.FecSet.TakeCoding | apps/shred-sniper/src/erasure.rs:133-141 | The layout is the latest coding shred's, and the first copy of a position counts |
| Erasure.Recovery.InsertData | apps/shred-sniper/src/erasure.rs:92-111 | Offsets past the bound are refused without a trace; a resolved batch gives nothing more; otherwise the shard counts at its offset unless one came before it; its batch is stamped and no other touched |
| Erasure.Recovery.InsertCoding | apps/shred-sniper/src/erasure.rs:114-142 | Layouts and positions out of bounds are refused without a trace; otherwise likewise, and the batch takes the layout the shred names |
| Erasure.Recovery.LiveSet | apps/shred-sniper/src/erasure.rs:148-158 | The batch found or begun and stamped, swept for first, live exactly when unresolved |
| Erasure.RepetitionIsLawful | apps/shred-sniper/src/erasure.rs:14 | The laws asked of the erasure code can be met with one data shard and any number of coding shards |
| Parities.ParityIsLawful | apps/shred-sniper/src/erasure.rs:14 | And with any number of data shards and one coding shard |
| Verification.Verifier.Check | apps/shred-sniper/src/verify.rs:80-119 | Refused just if the schedule calls the slot implausible or names a leader whose signature is not that in front of a root not cached; called signed just if that root is cached or the signature is the leader's; so a plausible slot without a leader is never refused, nor a packet without a root while a leader is known. A packet called signed leaves its root cached with evidence behind it; evidence is never lost |
| Verification.Verifier.CheckEach | apps/shred-sniper/src/verify.rs:84-119 | Over a run: nothing is refused but what the schedule calls implausible or some leader did not sign; and a schedule that never names a leader refuses just the implausible, and nothing is learnt |
| Verification.Verifier.CheckRoot | apps/shred-sniper/src/verify.rs:106-118 | Cache first, signature second, and only a signature that fits enters the cache |
| Verification.Verifier.SignedHasEvidence | apps/shred-sniper/src/verify.rs:45-48 | Over all runs: every cached (slot, root) has a packet, then or before, whose own signature over that very root fitted, by the slot's leader if the schedule never wavered |
| Verification.Verifier.SignedIsGenuine | apps/shred-sniper/src/verify.rs:10-18 | A packet called signed, on a cache hit at any leaf of its batch as much as on a signature checked, has the root of a batch its slot's leader signed for and parses to one of that batch's own shreds, or rebuilding its root hashes a string that collides with one the leader hashed for that batch; given that no signature by the leader fits but over the roots of its own batches |
| Verification.SomeRootIsSigned | apps/shred-sniper/src/verify.rs:80-119 | What that asks for can be had: for every hash, a leader of one batch and a verifier that has seen it sign |
| Verification.AStrangersSignaturePasses | apps/shred-sniper/src/verify.rs:106-110 | It happens: for every hash, the leader's packet and then the same packet under a stranger's signature are both called signed, and without the cache the second is forged |
| Verification.CheckOnce | apps/shred-sniper/src/verify.rs:80-119 | A packet whose signature fits, checked by a new verifier, is called signed and leaves just its root cached |
| Verification.CheckTwice | apps/shred-sniper/src/verify.rs:80-119 | Two packets of one root, the first with a signature that fits, checked one at once behind the other, are both called signed |
| Verification.CachedDiffersExactlyWhen | apps/shred-sniper/src/verify.rs:106-116 | Whatever the uncached check accepts the cached one accepts, and they differ if and only if a cached root meets a signature that does not fit it |
| Firing.Sniper.Trigger | apps/shred-sniper/src/fire.rs:180-196 | Triggers counted stay equal to sent, failed, skipped and stale plus the one waiting and the one in hand; a displaced one is stale at once |
| Firing.Sniper.TakeUp | apps/shred-sniper/src/fire.rs:144-158 | The sender picks up the newest trigger put, and what it takes is a subsequence of what was put; with nothing waiting it stops if told to, and with the lock lost it always does |
| Firing.Sniper.Die | apps/shred-sniper/src/fire.rs:128-142 | A sender that dies holding the lock leaves every count in balance, and every trigger from then on is dropped |
| Firing.Sniper.Judge | apps/shred-sniper/src/fire.rs:368-385 | It answers exactly when the trigger is young enough, at a later look at the clock the cooldown has passed, and there is a blockhash; successive answers are at least the cooldown apart, each trigger is answered at most once, nonces never repeat |
| Firing.Sniper.Arm | apps/shred-sniper/src/fire.rs:382-385 | The answer fired takes the next nonce, the moment it is fired and the trigger in hand |
| Firing.Sniper.Register | apps/shred-sniper/src/fire.rs:388-418 | The answer is remembered before it is sent, or counted failed if it could not be signed |
| Firing.Sniper.Finish | apps/shred-sniper/src/fire.rs:425-442 | A send that failed is forgotten and counted failed, one that worked is counted sent and kept |
| Firing.Sniper.Landed | apps/shred-sniper/src/fire.rs:201-224 | The first pending answer with the signature leaves, and no count is disturbed |
| Firing.Latest.Put | apps/shred-sniper/src/fire.rs:128-142 | The newest trigger waits; the caller learns whether it displaced one or the lock is lost |
| Firing.Latest.Take | apps/shred-sniper/src/fire.rs:144-158 | One look, on asking or on waking: what is taken is what waits, the newest put; with nothing waiting it stops asking if told to exit, and with the lock lost it always does |
| Firing.PendingList.Remember | apps/shred-sniper/src/fire.rs:239-255 | After every entry nothing in the list is past its time and no more than the bound are in it, though only the front is looked at; what was given up on is a front part of the list, each past its time or one of too many |
| Firing.PendingList.GiveUp | apps/shred-sniper/src/fire.rs:245-254 | What the loop over the front gives up on is each past its time or one of too many, counted lost, and nothing it leaves is |
| Firing.PendingList.Landed | apps/shred-sniper/src/fire.rs:201-211 | The first entry with the signature leaves, order is kept, everything remembered is waiting, landed, lost or forgotten |
| Firing.PendingList.Forget | apps/shred-sniper/src/fire.rs:229-237 | The same for a send that failed |
| Firing.OrderedWithoutOne | apps/shred-sniper/src/fire.rs:211 | Removing from the middle keeps send order |

## Left out

- Sockets, gossip, RPC, TPU and blockhash clients, configuration, keys, logging and metrics export: what they deliver is a parameter. Counters are kept only in `Firing.Sniper`, where a law is about them.
- Latencies and wall-clock performance; `firstReceived` and `recovered` are kept because the walk's cache must get them right.
- Bincode, the transaction format, Reed-Solomon arithmetic, SHA-256 and ed25519: functions with laws, as said above.
- The leader schedule's window arithmetic: the verifier is given the schedule's answer for the slot.
- The order of hash-map iteration: loops over such maps pick keys in any order. Ordered maps are walked in key order.
- AgedMaps.AgedMap.constructor: asks for a cap of at least one, which every caller passes; the program indexes past the end of the stamps with a cap of zero.
- AgedMaps.AgedMap.Cutoff: the sort is a function proved to keep counts, not the in-place sort.
- AgedMaps.AgedMap.Upsert: takes the value to create rather than a function that makes it.
- SlotBuffers.SlotBuffer.Store: vector capacity follows a doubling policy written into the model; another growth policy changes only the bound of one growth.
- SlotBuffers.SlotBuffer.Insert: asks for an index under 32768, which parsing guarantees (`Shreds.ParsedDataIsBounded`).
- SlotBuffers.SlotBuffer.WalksAreLinear: counts start again for a batch when one of its shreds is resent, since the program then walks it again.
- Watches.SlotWatch.Receive: is about one slot; shreds refused for the budget or the slot's caps are shreds that did not come. When the race is reported or the buffer dropped is left open: `Settle` and `Drop` may come at any moment.
- Watches.SlotWatch.RaceIsHonest: the leader's transaction count is that of the entries its batches announce, all of which its batches hold.
- Races.Slot.Position: asks that the hit lie within its batch, which the slot's invariant gives for every hit recorded.
- Erasure.Recovery.InsertCoding: the cache of codes built per layout is left out; a layout either can be built or not.
- Merkle.PathLeadsToRoot: the tree is the leader's side, a last node without a neighbour paired with itself, and is not part of the repository; nor is the layout of a packet or a batch as its leader writes it (`Shreds.DataBody`, `Encodings.EncodeBatch`), which mirrors the offsets the program reads at.
- Firing.Latest.Take: one turn of the waiting loop; how long the thread sleeps between two turns is not modelled.
- Firing.Sniper.Die: losing the lock of the pending list is not modelled, only that of the mailbox.
- Firing.PendingList.Landed: the round trip and the distance in slots are not computed.
- Firing.Sniper.Register: the transaction is a signature or none; how it is signed is not modelled.
- Counting of erasure batches that aged out incomplete, and of shreds missing when a slot closes: only which indices are missing is modelled.
