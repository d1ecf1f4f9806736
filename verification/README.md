# md-snippets core, modelled in Dafny

The repository is a collection of small Rust components for distributed-systems and storage patterns. This project models nine of them and proves properties about each model:

- **Two-phase commit** (`src/two_phase.rs`): a coordinator first polls each participant to prepare a transaction. It stops at the first refusal, then tells every participant to commit or to abort. It records each transaction's state under an increasing transaction id.
- **Vector clock** (`src/vector_clock.rs`): a process ticks its own counter on local and send events. On a receive it merges the incoming clock. Two clocks compare as before, after, equal or concurrent.
- **Snowflake ids** (`components/snowflake`): a 64-bit id packs a 10-bit node id, a 41-bit timestamp and a 12-bit sequence number. The sequence number restarts whenever the timestamp changes.
- **Bloom filter** (`components/bloom_filter`):
  - Double hashing probes `k` bits per key, with the delta being the hash rotated right by 33 bits.
  - The filter serialises to its bit bytes, followed by the hash-function count and the big-endian key counter.
  - Parsing rebuilds the filter from those bytes.
- **Consistent hash** (`components/consistent_hash`):
  - Each key is placed on a sorted ring of 64-bit positions as `replicas` virtual nodes.
  - A lookup hashes the key and binary-searches for the first position at or after that hash.
- **Sort keys** (`components/enum_compare`):
  - `Datum` values (null, `i32`, `i64`, bytes) have a partial order. Rows of them are compared lexicographically.
  - Column stores keep the rows either as row vectors or one chunk per column. Both are kept in order with `partition_point` and a hand-written binary search.
- **URL storage** (`components/url_shortener/src/storage`): a write-once map from short URLs to long URLs.
- **Leaky-bucket rate limiter** (`components/ratelimiter/src/leaky_bucket.rs`): every `take` grants a time. The limiter sleeps when requests arrive faster than one per `per_request` interval.
- **Indirect rows** (`components/indirect_visit`): two stores of 64-byte rows. One holds the rows directly. The other holds a flat buffer plus a table of 32-bit offsets into it.

State that the Rust code changes in place is modelled as Dafny classes with `modifies` clauses. Examples are the coordinator, the clock handler, the snowflake node, the filter's bit vector, the ring, the column stores, the URL map and the limiter. Each method is tied to a pure function of the old state. The properties are proved about those functions. A Rust panic becomes `None` in a pure function, or a `requires` on a method.

Shared definitions:
- `wrappers.dfy`: `Option`, `Result`, the fixed-width integer types and `Ordering`.
- `byte_order.dfy`: big- and little-endian byte images of integers.
- `sorted_vec.dfy`: sorted vectors under a partial comparison, generic over the element type.

## Model

| member | source | states |
|---|---|---|
| TwoPhase.ReadyPrefix | src/two_phase.rs:78-88 | the poll loop stops after a run of `Ready` votes, at the first `DoNotCommit` or at the end |
| TwoPhase.Verdict | src/two_phase.rs:89-93 | prepare answers `Ready` exactly when every participant voted `Ready` |
| TwoPhase.PollsCount | src/two_phase.rs:78-88 | polling the first `k` participants sends each of them exactly one prepare call and nobody else any |
| TwoPhase.BroadcastCount | src/two_phase.rs:96-108 | commit and abort send exactly one directive of the decided kind to each participant and none of the other kind |
| TwoPhase.RoundCallsPerParticipant | src/two_phase.rs:60-108 | in one round a participant is polled once if every earlier participant voted `Ready` and never otherwise; after a `Ready` verdict each participant gets exactly one commit and no abort, after a refusal exactly one abort and no commit |
| TwoPhase.NoParticipants | src/two_phase.rs:60-73 | with no participants the transaction commits and no call is made |
| TwoPhase.Coordinator.constructor | src/two_phase.rs:51-58 | a coordinator starts with no transactions, id 0 and no calls made |
| TwoPhase.Coordinator.Commit | src/two_phase.rs:60-73 | commits iff all votes are `Ready`; the id goes up by one; the old id is recorded as committed or aborted; the calls made are exactly the round's prepare and directive calls |
| TwoPhase.Coordinator.PrepareImpl | src/two_phase.rs:75-94 | records `INIT`, polls participants up to the first refusal and returns the verdict |
| TwoPhase.Coordinator.AbortImpl | src/two_phase.rs:96-101 | sends abort to every participant in order and records the transaction as aborted |
| TwoPhase.Coordinator.CommitImpl | src/two_phase.rs:103-108 | sends commit to every participant in order and records the transaction as committed |
| VectorClock.Tick | src/vector_clock.rs:55-62 | a local or send event raises this process's counter by one and leaves every other counter alone |
| VectorClock.CompareSwap | src/vector_clock.rs:29-53 | comparing the other way round mirrors the answer: `Less` and `Greater` swap; `Equal` and concurrent stay |
| VectorClock.ReceiveDominates | src/vector_clock.rs:64-71 | after a receive the clock dominates both its old value and the message's clock, and is strictly after its old value |
| VectorClock.ThreeProcessScenario | src/vector_clock.rs:84-109 | in the three-process exchange, the clocks at each step are ordered as the test expects, and after the crossing messages of the second round the clocks of processes b and c are concurrent |
| VectorClock.ScenarioFirstRound | src/vector_clock.rs:91-100 | the clock values of the first round of that exchange |
| VectorClock.ScenarioSecondRound | src/vector_clock.rs:102-108 | the clock values of the second round of that exchange |
| VectorClock.VectorClockHandler.constructor | src/vector_clock.rs:20-27 | a new handler holds one zero counter per process |
| VectorClock.VectorClockHandler.Comp | src/vector_clock.rs:29-53 | the loop's verdict is `Less`/`Greater`/`Equal` when one clock is pointwise at most the other, and `None` when they are concurrent |
| VectorClock.VectorClockHandler.SendVec | src/vector_clock.rs:55-58 | ticks the own counter and returns the new clock |
| VectorClock.VectorClockHandler.InnerEvent | src/vector_clock.rs:60-62 | ticks the own counter |
| VectorClock.VectorClockHandler.ReceiveVec | src/vector_clock.rs:64-71 | takes the pointwise maximum with the received clock and ticks the own counter |
| Snowflake.NewId | components/snowflake/src/lib.rs:78-85 | an id built from in-range fields fits in 63 bits |
| Snowflake.FieldsRoundTrip | components/snowflake/src/lib.rs:71-89 | node id, timestamp and sequence number are recovered unchanged from the id |
| Snowflake.NodeIdOf | components/snowflake/src/lib.rs:87-89 | `node_id` reads bits 12..22, so its value is below 2^10; `FieldsRoundTrip` shows it returns the node id written |
| Snowflake.TimestampOf | components/snowflake/src/lib.rs:67-75 | the timestamp field, bits 22..63, is below 2^41 |
| Snowflake.SeqIdOf | components/snowflake/src/lib.rs:67-75 | the sequence field, bits 0..12, is below 2^12 |
| Snowflake.NewIdInjective | components/snowflake/src/lib.rs:78-85 | distinct in-range field triples give distinct ids |
| Snowflake.NewIdOrder | components/snowflake/src/lib.rs:78-85 | on one node, ids increase with the timestamp, and with the sequence number within a timestamp |
| Snowflake.Node.constructor | components/snowflake/src/lib.rs:20-38 | a node starts with sequence 0 and no timestamp seen |
| Snowflake.Node.Generate | components/snowflake/src/lib.rs:40-64 | a new timestamp restarts the sequence at 0; a repeated one uses the next sequence number; the id carries the node and the timestamp |
| ByteOrder.BigEndian | components/bloom_filter/src/lib.rs:117-118 | the big-endian image of a number has exactly `n` bytes |
| ByteOrder.LittleEndian | components/consistent_hash/src/lib.rs:29-31 | the little-endian image of a number has exactly `n` bytes |
| ByteOrder.FromBigEndian | components/bloom_filter/src/lib.rs:129-132 | reading `n` big-endian bytes gives a number below `256^n` |
| ByteOrder.BigEndianRoundTrip | components/bloom_filter/src/lib.rs:117-132 | reading back the big-endian image of a number below `256^n` gives the number |
| BloomFilter.RoundUpToByte | components/bloom_filter/src/lib.rs:60-68 | rounds up to the next multiple of 8, by less than 8 |
| BloomFilter.BitsSize | components/bloom_filter/src/lib.rs:60-74 | the bit count is a multiple of 8: the configured size rounded up, or the per-key budget with a floor of 64 bits |
| BloomFilter.BitsPerKey | components/bloom_filter/src/lib.rs:70-74 | the configured bits per key, or, when none is given, the filter's bit count divided by the key estimate, rounded down |
| BloomFilter.HashFuncNumber | components/bloom_filter/src/lib.rs:76-82 | the hash count is the key estimate times the bits per key, clamped: 30 above 30, 1 below 1, the product itself in between; it is undefined (a division by zero) only when both the bits per key and the key estimate are zero |
| BloomFilter.EstimatedConfigUsesMaxHashes | components/bloom_filter/src/lib.rs:70-82 | as written, every config that leaves bits per key to be derived and asks for more than 60 bits (at least as many as keys) gets 30 hash functions |
| BloomFilter.EstimatedConfigExample | components/bloom_filter/src/lib.rs:70-82 | 665 requested bits for 100 keys: 672 bits, 6 bits per key, 30 hash functions as written and 4 as intended |
| BloomFilter.IntendedHashFuncNumber | components/bloom_filter/src/lib.rs:48-50 | corrected count: `(m / n) * 0.69` clamped into `[1, 30]`, with the same division-by-zero case |
| BloomFilter.IntendedAtMostBitsPerKey | components/bloom_filter/src/lib.rs:48-50 | the corrected count never exceeds the bits per key (or 1), whatever the key estimate |
| BloomFilter.Probe | components/bloom_filter/src/lib.rs:152-158 | every probe position lies inside the bit vector |
| BloomFilter.AddedSetsProbes | components/bloom_filter/src/lib.rs:148-160 | adding a key keeps every set bit set; it sets only that key's probe bits; it bumps the key counter mod 2^64; afterwards the key matches |
| BloomFilter.AddedAll | components/bloom_filter/src/lib.rs:148-160 | adding keys keeps the filter's size and hash count |
| BloomFilter.NoFalseNegatives | components/bloom_filter/src/lib.rs:148-174 | a key that was added still matches after any later additions |
| BloomFilter.MatchSurvives | components/bloom_filter/src/lib.rs:162-174 | a key that matches keeps matching as further keys are added |
| BloomFilter.ByteOfBits | components/bloom_filter/src/lib.rs:103-116 | eight flags pack into one byte value |
| BloomFilter.BitsOfByte | components/bloom_filter/src/lib.rs:134-138 | unpacking a byte gives exactly `n` flags |
| BloomFilter.ByteRoundTrip | components/bloom_filter/src/lib.rs:103-138 | unpacking a packed byte returns the original flags |
| BloomFilter.Pack | components/bloom_filter/src/lib.rs:103-116 | the bit vector packs into one byte per eight bits |
| BloomFilter.Unpack | components/bloom_filter/src/lib.rs:134-138 | bytes unpack into eight bits each |
| BloomFilter.PackRoundTrip | components/bloom_filter/src/lib.rs:103-138 | unpacking the packed bit vector returns it unchanged |
| BloomFilter.PackAppend | components/bloom_filter/src/lib.rs:103-116 | packing works byte by byte: packing a concatenation concatenates the packings |
| BloomFilter.Dumped | components/bloom_filter/src/lib.rs:103-120 | the dump is the bit bytes followed by the 9 metadata bytes |
| BloomFilter.Parsed | components/bloom_filter/src/lib.rs:122-146 | parsing refuses (panics on) inputs of at most 10 bytes; otherwise the filter has 8 bits per leading byte and the hash count from the first metadata byte |
| BloomFilter.DumpParseRoundTrip | components/bloom_filter/src/lib.rs:103-146 | parsing a dump of a filter with at least two bit bytes returns the same filter |
| BloomFilter.OneByteDumpRefused | components/bloom_filter/src/lib.rs:122-127 | a dump with a single bit byte is refused by parse |
| BloomFilter.BloomFilter.New | components/bloom_filter/src/lib.rs:59-92 | a new filter has the computed number of clear bits, the computed hash count and key counter 0 |
| BloomFilter.BloomFilter.Parse | components/bloom_filter/src/lib.rs:122-146 | the parsed object holds exactly the parsed filter |
| BloomFilter.BloomFilter.Add | components/bloom_filter/src/lib.rs:148-160 | the filter becomes the abstract filter with the key added |
| BloomFilter.BloomFilter.SetProbes | components/bloom_filter/src/lib.rs:152-158 | the probe loop sets exactly the key's `k` probe positions |
| BloomFilter.BloomFilter.KeyMayMatch | components/bloom_filter/src/lib.rs:162-174 | answers true iff all `k` probe bits are set |
| BloomFilter.BloomFilter.DumpFilter | components/bloom_filter/src/lib.rs:103-120 | returns the byte image of the abstract filter |
| BloomFilter.Marked | components/bloom_filter/src/lib.rs:152-158 | marking the probes keeps the vector's length |
| ConsistentHash.InsertSorted | components/consistent_hash/src/lib.rs:40 | inserting into a sorted ring keeps it sorted and adds exactly the one position |
| ConsistentHash.SortAscending | components/consistent_hash/src/lib.rs:40 | `sort` yields an ascending permutation of the positions |
| ConsistentHash.SortedPermutationUnique | components/consistent_hash/src/lib.rs:40 | two ascending orderings of the same positions are equal, so the ring does not depend on the sorting algorithm |
| ConsistentHash.KeyHashes | components/consistent_hash/src/lib.rs:28-37 | each key gets exactly `replicas` positions |
| ConsistentHash.ReplicaHashes | components/consistent_hash/src/lib.rs:26-37 | adding keys adds `replicas` positions per key |
| ConsistentHash.KeyOwnersFacts | components/consistent_hash/src/lib.rs:28-37 | after a key's replicas are added, the key owns each of its positions and every other position keeps its owner |
| ConsistentHash.OwnersFacts | components/consistent_hash/src/lib.rs:26-41 | every position added is owned by one of the added keys, and the last key added owns its own positions |
| ConsistentHash.AddKeysKeepsRing | components/consistent_hash/src/lib.rs:26-41 | after adding keys, the ring is sorted and has `|keys| * replicas` more positions; its positions are exactly the owner map's keys |
| ConsistentHash.LowerBoundUnique | components/consistent_hash/src/lib.rs:47-54 | a sorted ring has exactly one split point for a hash |
| ConsistentHash.Search | components/consistent_hash/src/lib.rs:47-54 | the search finds the split point: the first position at or after the hash |
| ConsistentHash.AnyAnswerSamePosition | components/consistent_hash/src/lib.rs:47-54 | whichever equal position `binary_search` reports (`Ok`), or the insertion point it reports (`Err`), it indexes a position equal to the one at the split point |
| ConsistentHash.RingOwner | components/consistent_hash/src/lib.rs:43-57 | as written: the owner of the first position at or after the hash; fails exactly when every position is below the hash |
| ConsistentHash.RingOwnerWrapping | components/consistent_hash/src/lib.rs:43-57 | wrapping lookup: fails only on an empty ring; otherwise agrees with `get` where `get` answers and gives the first position's owner past the end |
| ConsistentHash.GetPastLastPosition | components/consistent_hash/src/lib.rs:47-56 | a one-position ring and a hash past that position: `get` fails, the wrapping lookup answers |
| ConsistentHash.ConsistentHash.Build | components/consistent_hash/src/lib.rs:77-87 | a new ring is empty with the given replica count and hash function |
| ConsistentHash.ConsistentHash.IsEmpty | components/consistent_hash/src/lib.rs:22-24 | true iff the ring has no positions |
| ConsistentHash.ConsistentHash.AddKeys | components/consistent_hash/src/lib.rs:26-41 | the ring becomes the sorted old ring plus the new replica positions; the owner map gains the new keys' positions |
| ConsistentHash.ConsistentHash.PushKeys | components/consistent_hash/src/lib.rs:26-39 | the loop appends the replica positions of every key in order and records their owners |
| ConsistentHash.ConsistentHash.AddReplicas | components/consistent_hash/src/lib.rs:28-37 | appends one key's replica positions and makes it their owner |
| ConsistentHash.ConsistentHash.Get | components/consistent_hash/src/lib.rs:43-57 | the owner of the first ring position at or after the key's hash; panics exactly when the hash is past every position |
| SortedVec.LexReflexive | components/enum_compare/src/main.rs:33-36 | under a partial order on elements, every row compares equal to itself |
| SortedVec.LexEqual | components/enum_compare/src/main.rs:33-36 | rows that compare equal are identical |
| SortedVec.LexMirror | components/enum_compare/src/main.rs:33-36 | if `a > b` then `b < a` |
| SortedVec.LexTransitive | components/enum_compare/src/main.rs:33-36 | `a < b < c` implies `a < c` |
| SortedVec.PartitionPoint | components/enum_compare/src/main.rs:56-58 | everything before the returned index is below the probe, and the element at it is not |
| SortedVec.PartitionPointCountsLess | components/enum_compare/src/main.rs:56-58 | on sorted input the partition point is the number of elements below the probe, and splits them exactly |
| SortedVec.CountsLessWhenSorted | components/enum_compare/src/main.rs:56-58 | the same, as an implication from sortedness |
| SortedVec.BoundaryCountsLess | components/enum_compare/src/main.rs:236-254 | an index with only smaller elements before it and no smaller one at it is the count of smaller elements |
| SortedVec.CountOfSplit | components/enum_compare/src/main.rs:56-58 | an exact split index equals the count of smaller elements |
| SortedVec.InsertSorted | components/enum_compare/src/main.rs:51-54 | insertion adds exactly the new element, at the partition point |
| SortedVec.InsertKeepsSorted | components/enum_compare/src/main.rs:51-54 | inserting at the partition point keeps a sorted vector sorted |
| SortedVec.InsertBetween | components/enum_compare/src/main.rs:51-54 | an element placed between its lower and upper neighbours keeps the vector sorted |
| SortedVec.NotBelowIsAbove | components/enum_compare/src/main.rs:11-22 | under a partial order, a comparable element that is not below is at or above |
| SortedVec.DeleteKeepsSorted | components/enum_compare/src/main.rs:47-49 | removing one element keeps a sorted vector sorted |
| EnumCompare.BytesCmpDefined | components/enum_compare/src/main.rs:18 | byte strings always compare |
| EnumCompare.DatumCmp | components/enum_compare/src/main.rs:11-22 | a comparison is defined iff the left side is null or both sides have the same kind; null is below every non-null value and equal to null |
| EnumCompare.DatumCmpIsOrder | components/enum_compare/src/main.rs:11-22 | the datum comparison is a partial order: reflexive, antisymmetric, mirrored and transitive |
| EnumCompare.NullOnlyOnTheLeft | components/enum_compare/src/main.rs:14-20 | `Null < d` is defined but `d` against `Null` is not |
| EnumCompare.RowCmpIsOrder | components/enum_compare/src/main.rs:33-36 | the lexicographic row comparison is a partial order |
| EnumCompare.NonChunkedVec.constructor | components/enum_compare/src/main.rs:33-36 | a vector holds the given values |
| EnumCompare.NonChunkedVec.Append | components/enum_compare/src/main.rs:39-41 | pushes the value at the end |
| EnumCompare.NonChunkedVec.Len | components/enum_compare/src/main.rs:43-45 | the number of values held |
| EnumCompare.NonChunkedVec.Delete | components/enum_compare/src/main.rs:47-49 | removes exactly the value at `pos`; a sorted vector stays sorted |
| EnumCompare.NonChunkedVec.Insert | components/enum_compare/src/main.rs:51-54 | inserts at the partition point; a sorted vector stays sorted |
| EnumCompare.NonChunkedVec.LowerBound | components/enum_compare/src/main.rs:56-58 | on a sorted vector, the number of values below the probe, with exactly those values before it |
| EnumCompare.NonChunkedSortKeys.constructor | components/enum_compare/src/main.rs:147-153 | starts with no rows |
| EnumCompare.NonChunkedSortKeys.Append | components/enum_compare/src/main.rs:156-158 | pushes the row at the end |
| EnumCompare.NonChunkedSortKeys.Len | components/enum_compare/src/main.rs:160-162 | the number of rows held |
| EnumCompare.NonChunkedSortKeys.Delete | components/enum_compare/src/main.rs:164-166 | removes exactly the row at `pos`; sorted rows stay sorted |
| EnumCompare.NonChunkedSortKeys.Insert | components/enum_compare/src/main.rs:168-171 | inserts at the partition point; sorted rows stay sorted |
| EnumCompare.NonChunkedSortKeys.LowerBound | components/enum_compare/src/main.rs:173-175 | on sorted rows, the number of rows below the probe, with exactly those rows before it |
| EnumCompare.ChunkLen | components/enum_compare/src/main.rs:104-111 | the length of a typed chunk is the length of the column it represents |
| EnumCompare.ChunkAt | components/enum_compare/src/main.rs:190-192 | reading `iv.data[idx]` from a typed chunk gives value `idx` of its column, a value of the chunk's own type |
| EnumCompare.ChunkAppend | components/enum_compare/src/main.rs:88-102 | a chunk accepts exactly the values of its own kind; the column gains the value at its end, and the chunk keeps its kind |
| EnumCompare.ChunkedSortKeys.constructor | components/enum_compare/src/main.rs:197-199 | starts with no columns |
| EnumCompare.ChunkedSortKeys.Append | components/enum_compare/src/main.rs:203-211 | appends the row's values to the first `|row|` columns, one each, and leaves the rest alone |
| EnumCompare.ChunkedSortKeys.Len | components/enum_compare/src/main.rs:213-215 | the length of the first column; it panics with no column |
| EnumCompare.ChunkedSortKeys.CompareIdx | components/enum_compare/src/main.rs:183-195 | compares the first column's value at `idx` with the key's first value; defined whenever the kinds match |
| EnumCompare.ChunkedSortKeys.LowerBound | components/enum_compare/src/main.rs:236-254 | the binary search ends at a boundary of the first column: values before it are below the key, the value at it is not; on a sorted column that is the count of smaller values |
| UrlStorage.PutIfAbsent | components/url_shortener/src/storage/mod.rs:28-37 | afterwards the short URL is present; existing entries keep their long URL; a new short URL maps to the given long URL |
| UrlStorage.WriteOnce | components/url_shortener/src/storage/mod.rs:28-37 | over any sequence of writes, a stored entry never changes, and every written short URL ends up stored |
| UrlStorage.FirstWriteWins | components/url_shortener/src/storage/mod.rs:28-37 | from an empty store, each short URL maps to the long URL of the first write that used it |
| UrlStorage.FirstWriteWinsFrom | components/url_shortener/src/storage/mod.rs:28-37 | the same from any store that does not yet hold the short URL |
| UrlStorage.HashMapStorage.constructor | components/url_shortener/src/storage/mod.rs:22-25 | the default store is empty |
| UrlStorage.HashMapStorage.SetIfAbsent | components/url_shortener/src/storage/mod.rs:28-37 | never fails; `Ok(None)` and no change when present, otherwise `Ok(Some(()))` with the entry added |
| UrlStorage.HashMapStorage.GetContent | components/url_shortener/src/storage/mod.rs:39-42 | never fails; returns the stored long URL iff the short URL is present |
| LeakyBucket.MaxSlack | components/ratelimiter/src/leaky_bucket.rs:8-10 | the maximum slack is `slack` whole seconds below zero, in nanoseconds |
| LeakyBucket.Take | components/ratelimiter/src/leaky_bucket.rs:37-63 | as written: the first take returns `now` without sleeping; a later take sleeps iff its computed duration is positive, returns `now` plus the sleep and clears the debt; the granted time is the new `last` |
| LeakyBucket.AsWrittenSpacing | components/ratelimiter/src/leaky_bucket.rs:45-50 | as written, the clamp never applies and a later take returns `per_request` plus twice the time elapsed since `last` |
| LeakyBucket.AsWrittenOversleeps | components/ratelimiter/src/leaky_bucket.rs:45-56 | 10 ms per request, with takes at 0 s and at 1 s: the second take sleeps 1.01 s |
| LeakyBucket.IntendedTake | components/ratelimiter/src/leaky_bucket.rs:37-63 | corrected step: the debt accumulates `per_request` minus the elapsed time, clamped at `-slack`, and a positive debt is slept off; the debt stays within `[-slack, 0]` |
| LeakyBucket.IntendedSpacing | components/ratelimiter/src/leaky_bucket.rs:45-59 | corrected step: the granted time is at least `per_request` after `last`, less the debt paid off |
| LeakyBucket.IntendedNoSleepWhenSpaced | components/ratelimiter/src/leaky_bucket.rs:52-59 | corrected step: a request arriving `per_request` after the last, with no pending debt, is granted at once |
| LeakyBucket.IntendedRate | components/ratelimiter/src/leaky_bucket.rs:37-63 | corrected limiter over any run of requests: the `k+1`-th grant is at least `(k+1) * per_request` after the start, less the initial credit |
| LeakyBucket.LeakyBucketLimiterImpl.constructor | components/ratelimiter/src/leaky_bucket.rs:17-27 | a new limiter has no last request and zero debt |
| LeakyBucket.LeakyBucketLimiterImpl.TakeImpl | components/ratelimiter/src/leaky_bucket.rs:37-63 | the state and result are those of `take_impl` as written; the granted time is at least `now` and becomes `last` |
| IndirectVisit.OffsetOf | components/indirect_visit/src/lib.rs:34-36 | the `u32` offset of row `i` is a multiple of 64, at most `64 * i`, and exactly `64 * i` while that fits in 32 bits |
| IndirectVisit.NewDirect | components/indirect_visit/src/lib.rs:12-23 | `sz` zero rows |
| IndirectVisit.NewIndirect | components/indirect_visit/src/lib.rs:30-44 | one truncated offset per row over `64 * sz` zero bytes; every row window lies inside the buffer |
| IndirectVisit.FreshWindowsInBounds | components/indirect_visit/src/lib.rs:30-44 | for every size, a fresh indirect store never reads past its buffer |
| IndirectVisit.FreshOffsetsExact | components/indirect_visit/src/lib.rs:34-36 | while `64 * sz` fits in 32 bits, row `i` starts at byte `64 * i` |
| IndirectVisit.FreshOffsetsWrap | components/indirect_visit/src/lib.rs:34-36 | past 2^26 rows the truncated offsets repeat: row `i + 2^26` aliases row `i` |
| IndirectVisit.DirectIndex | components/indirect_visit/src/lib.rs:46-52 | row `i` in range; a panic out of range |
| IndirectVisit.IndirectIndex | components/indirect_visit/src/lib.rs:54-66 | the 64 bytes at row `i`'s offset in range; a panic out of range |
| IndirectVisit.FreshStoresAgree | components/indirect_visit/src/lib.rs:12-66 | fresh direct and indirect stores of the same size answer every index alike |

## Left out

- Fixed-width counters are unbounded here: the two-phase `txn_id` and the vector-clock counters are `u64` in Rust. Their overflow would need 2^64 events.
- Console output (`println!`) and the locks and `Arc`s around shared objects have no bearing on the modelled state and are not modelled.
- Clocks, sleeping and `Duration`/`chrono` conversions become integer nanosecond arguments and results. The overflow checks of `checked_add` are not modelled.
- The concurrency helpers and `single_flight` are not part of this model, nor are `bin/calculus`, the limiter front end and the benchmarks.
- `new_with_estimate` of the Bloom filter computes `bloom_size` with `f64` arithmetic. The model takes the resulting integer as its configuration.
- `new` multiplies the key estimate by the bits per key in `f64`. The model uses the integer product. The two agree below 2^53, and any larger product is clamped to 30 either way.
- The two-phase coordinator's strategy field is never read, so it is not modelled.
- Participants' votes are an input sequence. The participant calls become a recorded call trace.
- The Bloom filter's byte image assumes a 64-bit `usize`, so the trailer is 9 bytes (`META_SIZE`). It also assumes the `bitvec` layout `Lsb0` over `u8`: bit `p` is bit `p % 8` of byte `p / 8`. `BloomFilter.Dumped`, `Parsed` and `DumpParseRoundTrip` rest on both assumptions.
- `BloomFilter.Probe`: on a filter of zero bits, `% bit_size` divides by zero. `new` builds such a filter when `bloom_size` and `estimate_key_number` are 0 and `bits_per_key` is not. `Probe` requires `size > 0`, and `BloomFilter.BloomFilter.Add` and `KeyMayMatch` require `CanProbe`, so that panic of `add` and `key_may_match` is a precondition rather than a modelled outcome.
- `BloomFilter.AddedSetsProbes`: the key counter `current_key` is a `usize`, and `+= 1` panics on overflow in a debug build and wraps only in a release build. The model follows the release build and wraps mod 2^64. The debug-build panic, after 2^64 additions, is not modelled.
- The `upper_bound` operations, the `todo!()` bodies of `ChunkedVec` and `ChunkedSortKeys::upper_bound`, and `ChunkedSortKeys::insert`/`delete` are not modelled. `delete` indexes one past the end (`data[s]`) and so panics whenever there is at least one column; with no column it does nothing; `insert` relies on the `todo!()` chunk insert.
- `SortedVec.PartitionPoint` is modelled as a scan of the leading run of smaller elements. On unsorted input Rust's `partition_point` may answer differently; it is only specified on partitioned input, and every property here assumes sorted input.
- `EnumCompare.NonChunkedVec.Insert`: the precondition that every element compares with the probe is stronger than what the source needs. Rust's binary search only compares the elements it visits. The sorted column `[Null, Null, I32(1)]` with probe `Null` never compares `I32(1)` in Rust, but the model excludes it. The elements visited depend on the standard library's binary search, which is not part of this model.
- `EnumCompare.NonChunkedVec.LowerBound`: the same whole-column comparability precondition, stronger than the comparisons `partition_point` makes. The model says nothing about a column holding a value the probe cannot be compared with, even where the source never compares the two.
- `EnumCompare.NonChunkedSortKeys.Insert`: the same whole-vector comparability precondition over rows. A row the binary search never visits may be incomparable with the new row in the source, but not in the model.
- `EnumCompare.NonChunkedSortKeys.LowerBound`: the same whole-vector comparability precondition over rows, stronger than `partition_point`'s visited comparisons.
- `EnumCompare.ChunkedSortKeys.Append`: the `debug_assert!` that the row's width equals the column count is not modelled. The model accepts shorter rows, which is what a release build does.
- `Snowflake.NewId`: `set_bits` and `get_bits` of the `bit_field` crate act on an `i64` here, and that crate is not part of this model. The model assumes they behave as unsigned writes and reads of bits 0..12, 12..22 and 22..63, accepting every field value in 0..2^12, 0..2^10 and 0..2^41. If the crate's range check or `get_bits` treated the `i64` as signed, it would reject or sign-extend the upper half of a field's range, node 600 for example. The model does not capture that.
- `Snowflake.FieldsRoundTrip`: rests on the same unsigned-field assumption about `bit_field`.
- `Snowflake.Node.Generate`: rests on the same unsigned-field assumption about `bit_field`.
- `BloomFilter.BitsSize`: `bits_per_key * estimate_key_number` and `bloom_size + 7` are `usize` arithmetic, which panics in a debug build or wraps in a release build past 2^64. The model computes them over unbounded integers.
- `IndirectVisit.NewDirect`: an allocation above `isize::MAX` bytes panics; the model makes that a precondition.
- `IndirectVisit.NewIndirect`: the same allocation bound applies.
- Raw-pointer reads of the indirect store are modelled as sequence slices. Aliasing between rows (`FreshOffsetsWrap`) cannot be observed, since the rows are zero and never written.

## Findings

| source | as written | input that shows it | evidently intended | confidence | as-written member | corrected member |
|---|---|---|---|---|---|---|
| components/ratelimiter/src/leaky_bucket.rs:45-46 | the sleep is `per_request + elapsed`. The elapsed time is added, not subtracted, and the pending debt is overwritten, not carried. | 10 ms per request, with takes at 0 s and at 1 s: the second take sleeps 1.01 s | the debt grows by `per_request - elapsed`, clamped at `-slack` seconds, and only a positive debt is slept | high, not executed | LeakyBucket.AsWrittenOversleeps | LeakyBucket.IntendedTake |
| components/consistent_hash/src/lib.rs:47-56 | a hash above every ring position makes `binary_search` return `Err(len)`, and `hash_keys[len]` panics | a ring with the single position 5 and a key hashing to 9 | past the last position the lookup wraps around to the first, as on a hash ring | high, not executed | ConsistentHash.GetPastLastPosition | ConsistentHash.RingOwnerWrapping |
| components/bloom_filter/src/lib.rs:76-77 | the hash count is the key estimate times the bits per key, `n * (m / n)`, close to `m`. So every filter that derives its bits per key with more than 60 bits gets 30 hash functions. | `Config(bits_per_key 0, estimate 100, bloom_size 665)`, as `new_with_estimate(0.01, 100)` builds it: 672 bits, 6 bits per key, 30 hash functions | `k = (m / n) * ln 2`, as the comment at lines 48-50 says: 4 hash functions here | medium, not executed | BloomFilter.EstimatedConfigUsesMaxHashes | BloomFilter.IntendedHashFuncNumber |
