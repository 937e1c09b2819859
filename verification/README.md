# Daphne aggregators and the PINE VDAF, in Dafny

Daphne is the aggregator side of the Distributed Aggregation Protocol (sections 4.5 and 4.6 of
draft-ietf-ppm-dap-09), with its own implementation of the PINE VDAF
(draft-chen-cfrg-vdaf-pine). This project models four parts of it and proves what they are for.

**Committing aggregation jobs.** A bucket (a time window or a batch, and a shard) is an object that
keeps an aggregate share, the IDs of the reports in it and a collected flag. `AggregateStore` is the
durable object itself, with chunked storage and lazily filled fields; `BucketStore` is what it
refines: a log of committed reports. `HelperJob` specifies the Helper's retry loop over such
buckets, with other jobs' operations before every request and storage failures before or after
every commit; `HelperLoop`, `HelperCommit` and `HelperFinish` execute it. On top of that: exact
commit of a job, the bucket invariant after any jobs, a bound on the number of passes, idempotence
of a retried job (`HelperTheorems`, `HelperStore`, `HelperRetry`).

**Agreement of Leader and Helper.** `LeaderJob` and `LeaderHelper` model the messages of a job and
what each side makes of them, `Agreement` one job, run once or retried, and `JobHistory` what happens
to its reports in one bucket. `Executions` are any number of jobs run concurrently and retried, as
histories of requests; `Totals` compares the totals of both sides after any of them, and
`SequentialJobs` shows that jobs one after another from an empty store are one.

**Collection.** `Collection`, `CollectionSafety` and `CollectionDriver`: when a request is granted,
what it releases, and safety over every sequential run; `CollectionRaces` is about merges between
reading and marking, and about requests that overlap in time.

**Aggregate shares and buckets.** `AggShare` and `Buckets`: shares form a commutative monoid, and
the sharded index of buckets agrees with one flat fold over the reports.

**PINE.** `PineParams` to `PineProtocol`: the two validity circuits as chunked, padded gadget calls,
their soundness, completeness and linearity, the encoding of gradients, joint randomness, and the
honest run from client to collector. `PinePreparation` says when reports of any client are accepted;
`PineFields` is about the fields PINE is instantiated with.

**Wire formats.** `Bytes`, `PingPong`, `TaskprovCodec`, `JobCodec`, `PineCodec` and `Wire`: every
decoder accepts exactly the encodings. `WireLayout` spells out orders, widths and codes;
`TaskprovPanics` tells when decoding panics.

Field elements are integers in `[0, p)`, with the modulus a parameter; the code's operations reduce
modulo `p`, and polynomial arguments are made on the integers. SHA-256 and the extendable-output
function are arbitrary functions, and the proof system of libprio is an arbitrary implementation of
its interface, which may refuse query randomness; its completeness on arguments of the right lengths
and on query randomness it accepts is a hypothesis of the honest run only. Replay protection is
enabled. Integers do not overflow 64 bits, time precisions and chunk lengths are positive.

No proof uses automatic induction: every lemma for which Dafny would generate an induction hypothesis
carries `{:induction false}`. Dafny 4.11 states such a hypothesis without the types of its variables,
which is inconsistent where it mentions a field that several constructors share.

## What turned out not to hold as stated

- The constructor accepts norm bounds under which nothing can be encoded and neither circuit can be
  evaluated: the bits of the squared bound have a length the field's bit-vector coding refuses. They
  are the accepted bounds from 46341 on over the 32-bit field and from 3037000500 on over the 64-bit
  field, and none over the 128-bit field (`PineFields.UnusableExactly`, `PineFields.LeastUnusable`).
  For a modulus in general the norm range check can wrap around (`PineNorm.RangeCheckExact`); over
  these fields the refused bounds are exactly those for which it would (`PineFields.NormBoundFits`),
  so every circuit that runs holds gradients to the bound (`PineFields.NormHeld`).
- A wraparound test out of range has no bit encoding, so encoding fails rather than reporting an
  unsuccessful test, and the tolerance between the number of tests and the number of required
  successes is never used by this encoder: `PineTolerance.EncodeExact` gives the exact condition,
  `PineTolerance.ToleranceUnused` a measurement with enough tests in range that is not encoded.
- A cold load of a bucket loses share data that has no elements, and nothing else:
  `AggregateStore.ServeAndReload`, `AggregateStore.ColdShareExact` and, for a run that loses it,
  `AggregateStore.ReloadLosesData`.
- A job whose reports for some open bucket are all there already is answered as if it had stored
  them (`LeaderHelper.RepeatedJob`, `LeaderHelper.RepeatedReport`). Continued and newly stored
  reports coincide exactly when there is no such bucket: `LeaderHelper.ContinuedAreAdded`.
- A job retried after a storage failure need not end in agreement, although the comment in the retry
  loop expects it: if a bucket to which the first attempt committed is collected before the retry,
  its reports are rejected (`Agreement.LostByCollection`). Leader and Helper agree exactly if this
  does not happen: `Agreement.RetriedAgreement` and, for all jobs of a task, `Totals.AgreementExact`.
- A merge that commits after a bucket was read for collection and before it was marked is answered
  with success and missing from the released share; the share is complete exactly if there is none:
  `CollectionRaces.ReleaseExact`.
- Two aggregate-share requests for overlapping batches can both be answered, and release the same
  bucket twice: each passes the overlap check exactly if it checks the common buckets before the
  other marks them (`CollectionRaces.OverlapExact`, `CollectionRaces.BothAnswered`).
- Opening a length-prefixed block of a task configuration does not compare the length with the end
  of the input, although the comment there says so; slicing then panics.
  `TaskprovPanics.TaskPanics` says for which inputs, `TaskprovPanics.CutTask` for which truncations,
  and `TaskprovPanics.ShortInputPanics` is an input of seven bytes.
- The comment on the encoded length in the constructor counts one success bit in all; the code has
  one per test. The model follows the code.

## Model

| member | source | states |
|---|---|---|
| `PineParams.BitsTight` | crates/daphne/src/pine/mod.rs:345-359 | the number of bits of a positive integer is the least that can hold it |
| `PineParams.NewValid` | crates/daphne/src/pine/mod.rs:150-297 | every parameter set the constructor accepts satisfies the bounds and length equations the circuits and the decoder rely on |
| `PineParams.NewExact` | crates/daphne/src/pine/mod.rs:150-297 | which parameter sets the constructor accepts, and where every parameter goes; the checks of the norm bound against the integer type and half the modulus never decide |
| `PineEval.EvalBitChecks` | crates/daphne/src/pine/flp.rs:237-280 | the buffered loop makes exactly the chunked and padded gadget calls of the bit-check polynomial and returns the reduced sum of their answers |
| `PineEval.EvalWrChecks` | crates/daphne/src/pine/flp.rs:299-362 | the loop over tests makes exactly the calls of the wraparound polynomial, returns the sum of their answers and the success count relative to the required number; it fails if and only if there are tests whose bit vectors the field does not take or the required number is no integer of the field |
| `PineEval.Valid` | crates/daphne/src/pine/flp.rs:411-472 | for any gadget and number of shares, the circuit makes the specified calls in order and returns the specified combination, or fails exactly when the field does not take the bit vectors of the norm or of the tests, or the required number of successes |
| `PineCircuit.SharesInvIsInverse` | crates/daphne/src/pine/flp.rs:419 | over a prime field, the constant used for the number of shares is its inverse whenever it has one |
| `PineEval.ValidSqNorm` | crates/daphne/src/pine/flp.rs:553-584 | the squared-norm circuit calls the square gadget on the padded chunks of the gradient and returns claimed minus computed norm, or fails exactly when the field does not take the bit vector of the norm |
| `PineSoundness.MulAnswers` | crates/daphne/src/pine/flp.rs:262-280 | chunking and zero padding do not change what the multiplication gadget adds up to |
| `PineSoundness.BitCheckSoundness` | crates/daphne/src/pine/flp.rs:237-280 | over a prime field, a non-bit among the checked elements is missed by at most their number minus one challenges |
| `PineSoundness.WrCheckSoundness` | crates/daphne/src/pine/flp.rs:299-362 | a nonzero product of success bit and gap is missed by at most the number of tests minus one challenges |
| `PineSoundness.FinalSoundness` | crates/daphne/src/pine/flp.rs:464-471 | if one of the four partial checks is nonzero, at most three final challenges make the circuit output zero |
| `PineSoundness.SatisfiedAccepted` | crates/daphne/src/pine/flp.rs:411-472 | a measurement that meets the intended conditions is accepted for every joint randomness |
| `PineSoundness.CircuitSoundness` | crates/daphne/src/pine/flp.rs:411-472 | a measurement that does not is accepted for at most (m + 3) p^2 of the p^3 joint randomness values, where m + 1 bounds the numbers of bit-checked elements and of tests |
| `PineNorm.RangeCheckExact` | crates/daphne/src/pine/flp.rs:367-382 | the norm range check is sound if and only if the two reported values cannot wrap around the modulus |
| `PineNorm.LargeModulusNoWrap` | crates/daphne/src/pine/mod.rs:186-211 | a modulus above four times the squared bound meets that condition |
| `PineFields.NormBoundFits` | crates/daphne/src/vdaf/pine.rs:27-39 | for every parameter set the constructor accepts: the field takes the bits of the squared norm if and only if the norm bound is below 46341 over the 32-bit field, below 3037000500 over the 64-bit field, and always over the 128-bit field; these are exactly the parameter sets for which the range check cannot wrap |
| `PineFields.GradientExact` | crates/daphne/src/pine/flp.rs:100-132 | over each field, a gradient is encoded if and only if the norm bound is below that limit, it has the right dimension, its saturated coordinates fit, and the sum of their squares modulo the field is at most the squared bound |
| `PineFields.DerivedExact` | crates/daphne/src/pine/mod.rs:214-219 | the derived wraparound bound is the least power of two that exceeds 8.7 times the norm bound by at least one |
| `PineFields.CircuitsRunExactly` | crates/daphne/src/pine/flp.rs:367-382 | over each field, with the derived wraparound bound, the main circuit can be evaluated if and only if the norm bound is below the limit and the required number of successes is an integer of the field, the norm circuit if and only if the norm bound is |
| `PineFields.NormHeld` | crates/daphne/src/pine/flp.rs:367-584 | over each field, its modulus being prime, and under every accepted parameter set: a gradient whose squared norm modulo the field exceeds the bound does not pass the norm circuit, or passes the main circuit for at most (m + 3) p^2 of the p^3 joint randomness values |
| `PineFields.UnusableExactly` | crates/daphne/src/pine/mod.rs:150-297 | with one coordinate and one test, the norm bounds that are accepted although no gradient can be encoded and neither circuit runs are exactly those from the limit on whose square is below the modulus and fits 64 bits and the integer type |
| `PineFields.LeastUnusable` | crates/daphne/src/pine/mod.rs:186-211 | 46341 over the 32-bit field and 3037000500 over the 64-bit field are such bounds; over the 128-bit field none is |
| `PineNorm.NormSoundness` | crates/daphne/src/pine/flp.rs:553-584 | where values cannot wrap, bit checks, range check and norm equality together hold the field squared norm, read as an integer, to the bound |
| `PineNorm.LargeNormRejected` | crates/daphne/src/pine/flp.rs:367-382 | for a gradient above the bound, whatever the other entries, either the norm circuit rejects or at most (m + 3) p^2 of the p^3 joint randomness values are accepted |
| `PineNorm.WrSoundness` | crates/daphne/src/pine/flp.rs:299-362 | a satisfied circuit has at least the required number of wraparound results in range |
| `PineLinearity.MainCallsLinear` | crates/daphne/src/pine/flp.rs:262-361 | on two additive shares with two-share constants the wire-building code makes as many calls as on the plain input, exactly `gadget_calls`, with wires that add up |
| `PineLinearity.MainValidLinear` | crates/daphne/src/pine/flp.rs:411-472 | if gadget answers add up, so do the outputs of the circuit on the shares |
| `PineLinearity.SqNormLinear` | crates/daphne/src/pine/flp.rs:553-584 | the same for the calls and the output of the squared-norm circuit |
| `PineLinearity.ChunkPadCount` | crates/daphne/src/pine/mod.rs:259-264 | the number of padded chunks is the number of gadget calls the constructor computes |
| `PineWraparound.RunWrTests` | crates/daphne/src/pine/flp.rs:188-234 | the loop over four-coordinate chunks and two-bit fields equals, for every dimension, the dot products whose weight of coordinate j is one less than the sum of bits 2 (j mod 4) and 2 (j mod 4) + 1 of byte j / 4 |
| `PineWraparound.WeightIsBits` | crates/daphne/src/pine/flp.rs:212-228 | what the loop makes of the two lowest bits, after any number of pairs, is one less than the sum of these two bits of the byte |
| `PineWraparound.WrTestsAt` | crates/daphne/src/pine/flp.rs:188-234 | each test reads its own stretch of the random bytes |
| `PineWraparound.WrTestsLinear` | crates/daphne/src/pine/flp.rs:188-234 | for a fixed seed the tests of shares add up to the tests of the gradient |
| `PineEncode.DecodeCoordExact` | crates/daphne/src/pine/mod.rs:300-342 | decoding the residue of an integer returns it exactly when its magnitude fits |
| `PineEncode.AppendEncodedGradient` | crates/daphne/src/pine/flp.rs:100-132 | pushing coordinates and norm bits computes the specified encoding, or fails when it does, also for bit vectors of a length the field does not take |
| `PineEncode.AppendWrTestResults` | crates/daphne/src/pine/flp.rs:147-184 | the encoding loop appends the bits and success flags of the tests, or fails when a test has no encoding |
| `PineEncode.EncodeWrFlags` | crates/daphne/src/pine/flp.rs:158-176 | a test is flagged as a success if and only if its result is in bounds and fewer than the required number of earlier ones are |
| `PineEncode.EncodingSatisfies` | crates/daphne/src/pine/flp.rs:84-184 | every successful encoding has the length `input_len` and meets all conditions of both circuits |
| `PineEncode.CircuitCompleteness` | crates/daphne/src/pine/flp.rs:84-184 | on every successful encoding both circuits run and output zero for every joint randomness, except that the main one fails if the required number of successes is no integer of the field |
| `PineEncode.EncodeGradientExact` | crates/daphne/src/pine/flp.rs:100-132 | for any modulus, a gradient is encoded if and only if the field takes the bits of the bound, it has the right dimension, its saturated coordinates fit, and the sum of their squares modulo the field is at most the bound or wraps around the modulus with few enough bits; the last never happens when the range check is sound |
| `PineEncode.EncodeWrExact` | crates/daphne/src/pine/flp.rs:147-184 | for a power-of-two bound, appending test results succeeds if and only if there are none or the field takes their bits, and every test is in range |
| `PineTolerance.EncodeExact` | crates/daphne/src/pine/flp.rs:84-184 | for any modulus, a whole measurement is encoded if and only if the field takes the bits of its norm and tests, its coordinates fit, its squared norm is within the bound or wraps, and every test of the client's integers is in range |
| `PineTolerance.MeasurementExact` | crates/daphne/src/pine/flp.rs:84-184 | over each field, with the derived wraparound bound, a whole measurement is encoded if and only if the norm bound is below the limit, its coordinates fit, its squared norm modulo the field is at most the squared bound, and every test is in range |
| `PineTolerance.ToleranceUnused` | crates/daphne/src/pine/flp.rs:147-184 | an accepted parameter set with one required success and a gradient of norm exactly the bound, one of whose two tests is in range, that is not encoded |
| `PineVdaf.JointRandAgreement` | crates/daphne/src/pine/vdaf.rs:424-460 | for any public and input shares, aggregators that accept the same message used the same two seeds, and what they queried are shares of one measurement completed with its own tests |
| `PineVdaf.HonestRun` | crates/daphne/src/pine/vdaf.rs:178-336 | with complete proof systems, both aggregators of an honest run finish if the query randomness of the report is accepted, and only then if other randomness is refused; whenever they finish, their output shares add up to the encoded gradient |
| `PineProtocol.ShardMeasurement` | crates/daphne/src/pine/vdaf.rs:178-336 | the client's loops over shares and proofs compute the specified public and input shares |
| `PinePreparation.ShardExact` | crates/daphne/src/pine/vdaf.rs:178-336 | what these are: each aggregator's own seeds and blinds, shares of the measurement encoded with the tests that follow from the shares, shares of proofs made slice by slice with the randomness that follows from them, and the true parts |
| `PineProtocol.InitPreparation` | crates/daphne/src/pine/vdaf.rs:364-536 | recomputing parts, running tests and querying proofs one by one computes the specified state and share, or the specified error |
| `PinePreparation.MessageBinds` | crates/daphne/src/pine/vdaf.rs:424-460 | the seeds of the message follow from the two measurement shares, each hashed by the aggregator that holds it, for any public share |
| `PinePreparation.AnnouncedPartsBind` | crates/daphne/src/pine/vdaf.rs:602-622 | announced parts are confirmed if they are the true ones, and others only with two pairs of parts that have one seed |
| `PinePreparation.QueryAllExact` | crates/daphne/src/pine/vdaf.rs:485-517 | the queries of a circuit succeed if and only if each does, on its own slice of proofs, query and joint randomness, and the verifiers are listed by position |
| `PinePreparation.PreparationExact` | crates/daphne/src/pine/vdaf.rs:364-622 | for any public share and input shares, both aggregators finish if and only if each has a share for its role, the announced parts lead to the seeds that follow from the shares, and with these seeds every single proof can be queried by both and the sum of the two verifiers is decided; the outputs are then the gradient parts of the shares |
| `PineProtocol.CombinePrepShares` | crates/daphne/src/pine/vdaf.rs:538-600 | adding verifiers in place and deciding them one by one computes the specified message or error |
| `PinePreparation.MessageExact` | crates/daphne/src/pine/vdaf.rs:563-583 | a message results if and only if `decide` holds of the sum of the two verifiers at each of the positions of both circuits |
| `PineAggregate.Aggregate` | crates/daphne/src/pine/vdaf.rs:623-633 | accumulating output shares in place is the vector sum |
| `PineAggregate.Unshard` | crates/daphne/src/pine/vdaf.rs:641-664 | the collector's loop adds two aggregate shares and decodes, or fails on another number of shares or an undecodable sum |
| `PineAggregate.UnshardExact` | crates/daphne/src/pine/vdaf.rs:641-664 | unsharding returns the integer column sums if and only if each is within half the modulus and fits in 64 bits |
| `PineAggregate.UnshardTwo` | crates/daphne/src/pine/vdaf.rs:641-664 | there is a result only for exactly two aggregate shares |
| `PineAggregate.HonestBatchSum` | crates/daphne/src/pine/vdaf.rs:602-664 | the honest reports that are accepted are those whose query randomness is; aggregating their outputs and unsharding gives the coordinate-wise sums of their clients' integers if and only if each sum is within half the modulus and fits in 64 bits |
| `AggShare.MergeInto` | crates/daphne/src/lib.rs:964-1009 | the in-place merge computes the specified join of count, times, checksum and data, or fails on mismatched data |
| `AggShare.MergeExact` | crates/daphne/src/lib.rs:964-1009 | what the join is, for any two shares: count, times, bits of the checksum and elements, each from those of the two; it fails exactly on data of different fields or lengths |
| `AggShare.XorByteExact` | crates/daphne/src/lib.rs:1003-1007 | a merged checksum byte is the one byte whose bits are set exactly where the two bytes differ |
| `AggShare.XorSelf` | crates/daphne/src/lib.rs:1003-1007 | a checksum cancels itself |
| `AggShare.JoinComm` | crates/daphne/src/lib.rs:964-1009 | merging shares of one shape is commutative |
| `AggShare.JoinAssoc` | crates/daphne/src/lib.rs:964-1009 | merging shares of one shape is associative |
| `AggShare.FoldConcat` | crates/daphne/src/lib.rs:964-1009 | the share of two batches of reports is the merge of their shares |
| `AggShare.FoldMeaning` | crates/daphne/src/lib.rs:1025-1040 | adding output shares one by one keeps the exact count, extreme times and element sums, and every bit of the checksum is the parity of that bit over the digests |
| `AggShare.FoldReports` | crates/daphne/src/lib.rs:1025-1040 | the loop that adds output shares computes that fold |
| `Buckets.BatchSpanForSel` | crates/daphne/src/lib.rs:752-791 | the nested loops compute the span of a selector, or fail when it does not fit the task |
| `Buckets.BucketCover` | crates/daphne/src/lib.rs:394-409 | for an aligned selector, the span contains a report's bucket if and only if the report matches the selector |
| `Buckets.ShardExact` | crates/daphne/src/lib.rs:359-378 | the shard of a report is the little-endian integer in the first four bytes of the digest of its ID, modulo the number of shards |
| `Buckets.SelectorsFit` | crates/daphne/src/lib.rs:253-277 | time intervals are selected of tasks with time intervals, batches of tasks with batches, and nothing else |
| `Buckets.SpanSize` | crates/daphne/src/lib.rs:752-791 | a span has one bucket per window, or batch, and shard |
| `Buckets.FlatFold` | crates/daphne-server/src/roles/aggregator.rs:83-115 | merging the bucket shares of a selector in any order is one fold over the matching reports, whatever the number of shards |
| `BucketStore.StoreInvariant` | crates/daphne-worker/src/durable/aggregate_store.rs:385-488 | after any merges and collections, count, times and data of a bucket are those of exactly one contribution per stored ID, and every bit of its checksum is the parity of that bit over the digests of the stored IDs |
| `BucketStore.CollectedFrozen` | crates/daphne-worker/src/durable/aggregate_store.rs:484-488 | nothing changes after a bucket is marked collected |
| `BucketStore.MergeCommitted` | crates/daphne-worker/src/durable/aggregate_store.rs:397-428 | on the durable store a merge succeeds if and only if afterwards the bucket is open and has all its IDs, and finds it collected exactly if it is; replays name exactly the repeated IDs and change nothing |
| `BucketStore.RepeatedAfterCollection` | crates/daphne/src/testing/mod.rs:978-1007 | a merge into a collected bucket, repeated, is a replay to the in-memory store, which keeps the IDs it rejects, and still too late to the durable one |
| `Chunks.ShardBytesToObject` | crates/daphne-worker/src/durable/aggregate_store.rs:129-160 | the loop that advances the base index stores exactly the chunks of the string |
| `Chunks.ChunkSizes` | crates/daphne-worker/src/durable/aggregate_store.rs:129-160 | every chunk has 128000 bytes but the last, which has the rest and is not empty |
| `Chunks.ReadItems` | crates/daphne-worker/src/durable/aggregate_store.rs:324-348 | reading whole items chunk by chunk returns the items that were stored, none cut in two |
| `AggregateStore.ColdLoadShare` | crates/daphne-worker/src/durable/aggregate_store.rs:237-314 | loading from metadata and chunks returns the stored share, without its data if that has no elements |
| `AggregateStore.ColdLoadIds` | crates/daphne-worker/src/durable/aggregate_store.rs:324-348 | loading from the chunks under the effective key count returns the stored IDs, for any enumeration order and also under the default count |
| `AggregateStore.ColdShareExact` | crates/daphne-worker/src/durable/aggregate_store.rs:262-268 | a cold load returns the share of the stored reports if and only if their data has elements or there are none |
| `AggregateStore.ReloadLosesData` | crates/daphne-worker/src/durable/aggregate_store.rs:262-268 | a run of one merge after which the share of the log has data and the one loaded cold has none |
| `AggregateStore.Store.SetReportIdChunkKeyCount` | crates/daphne-worker/src/durable/aggregate_store.rs:224-235 | afterwards the effective key count is the given one, also when nothing had to be written |
| `AggregateStore.Store.Merge` | crates/daphne-worker/src/durable/aggregate_store.rs:385-469 | storage, fields and answer after a merge are those of the log-based bucket, and fields still agree with storage |
| `AggregateStore.Store.Get` | crates/daphne-worker/src/durable/aggregate_store.rs:475-478 | the share returned is the fold of the log, from memory or from storage |
| `AggregateStore.Store.GetMerged` | crates/daphne-worker/src/durable/aggregate_store.rs:377-379 | the IDs returned are those of the log, from memory or from storage |
| `AggregateStore.Store.MarkCollected` | crates/daphne-worker/src/durable/aggregate_store.rs:484-488 | flag in storage and in memory follow the bucket's |
| `AggregateStore.Store.CheckCollected` | crates/daphne-worker/src/durable/aggregate_store.rs:494-496 | the flag returned is the bucket's, from memory or from storage |
| `AggregateStore.Store.Restart` | crates/daphne-worker/src/durable/aggregate_store.rs:364-373 | dropping all fields loses nothing of the bucket |
| `AggregateStore.ServeAndReload` | crates/daphne-worker/src/durable/aggregate_store.rs:316-358 | after any run of requests, with the object dropped from memory anywhere, the IDs loaded cold are those of the log, and so is the share if and only if its data has elements or the log is empty |
| `PingPong.FramedExact` | crates/daphne/src/protocol/aggregator.rs:52-73 | a framed message is accepted if and only if it is the frame, of the expected type, of the payload returned |
| `PingPong.FrameLayout` | crates/daphne/src/protocol/aggregator.rs:52-73 | a frame is the type, 0 or 2, the length of the payload in four bytes, and the payload |
| `HelperLoop.ProduceAggJobResp` | crates/daphne/src/protocol/aggregator.rs:648-753 | the loop lists every initialized report in order and fills the span with exactly the output shares of reports without a status, grouped by bucket |
| `HelperCommit.AnswerMerge` | crates/daphne/src/testing/mod.rs:978-1007 | the durable and the in-memory store answer a merge, and change, as the log-based bucket of their kind |
| `HelperCommit.BucketStores.TryPutAggShareSpan` | crates/daphne-server/src/roles/aggregator.rs:37-79 | sending the buckets of a span in any order, among other parties' requests and storage failures, leaves every bucket and result as specified |
| `HelperFinish.ApplyResults` | crates/daphne/src/roles/helper.rs:309-352 | the loop over results, in any order, extends the statuses as specified, notices every storage error and restarts unless all buckets committed |
| `HelperFinish.FinishAggJobAndAggregate` | crates/daphne/src/roles/helper.rs:279-378 | the executed retry loop ends with the outcome and the buckets of the specified run |
| `HelperTheorems.ExactCommit` | crates/daphne/src/roles/helper.rs:297-373 | with other jobs interleaved and failures anywhere: the job's entries are exactly the reports it added, each once; a response answers all reports in order, continues every added one, and every answer is right: continued reports carry the Helper's framed message and are stored, replayed ones were stored, the others belong in collected buckets or failed before |
| `HelperRetry.DurableRetryBound` | crates/daphne/src/roles/helper.rs:297-377 | without interference the durable store needs at most two passes, and only a fatal report prevents completion |
| `HelperRetry.InMemoryRetryBound` | crates/daphne/src/roles/helper.rs:297-377 | either store needs at most the three passes the loop allows |
| `HelperStore.JobRefines` | crates/daphne/src/roles/helper.rs:279-377 | whatever the retry loop does, each bucket ends where a sequence of merge requests of the job, among those of other parties, takes it |
| `HelperStore.JobsKeepInvariant` | crates/daphne/src/roles/helper.rs:279-377 | after any jobs, failing anywhere among any requests of other parties, every bucket has the count, extreme times and sums of exactly one contribution of every report it stores, and a checksum of bitwise parities over their digests |
| `HelperRetry.RetryIdempotent` | crates/daphne/src/roles/helper.rs:343-352 | a job run again after any failure alters no bucket to which it committed and answers every report it committed with a continuation |
| `CollectionDriver.CheckBatchRequest` | crates/daphne/src/roles/mod.rs:21-92 | the checks, with the span expanded once and queried bucket by bucket, abort for the specified reason or return the span |
| `CollectionSafety.GrantedExactly` | crates/daphne/src/roles/helper.rs:182-229 | a request is granted if and only if its parameter, query type, alignment, length and distance from the present are in order, no bucket of its span is collected, the total equals the requested count and checksum, and the size limits hold |
| `CollectionSafety.AbortedExactly` | crates/daphne/src/roles/mod.rs:21-90 | for each reason, exactly which requests are aborted with it: those to which no earlier reason applies; none is a fatal error |
| `Collection.OrderIrrelevant` | crates/daphne-server/src/roles/aggregator.rs:83-115 | in whatever order the shares of a span arrive, their total is the same |
| `CollectionDriver.HandleAggShareReq` | crates/daphne/src/roles/helper.rs:182-229 | checks, total, comparison and marking over all buckets compute the specified answer and mark exactly the span of a granted request |
| `CollectionDriver.GetAggShare` | crates/daphne-server/src/roles/aggregator.rs:83-115 | folding the replies as they arrive yields the total of the span |
| `CollectionDriver.MarkCollected` | crates/daphne-server/src/roles/aggregator.rs:119-147 | exactly the buckets of the span become collected |
| `CollectionDriver.IsBatchOverlapping` | crates/daphne-server/src/roles/aggregator.rs:321-354 | true if and only if some bucket of the span is collected |
| `CollectionSafety.CollectionIsSafe` | crates/daphne/src/roles/helper.rs:180-229 | over every sequential run, releases have no bucket in common, meet the size limits, and each is the fold of all reports of the whole run that match its selector |
| `CollectionSafety.ReleasedIsFinal` | crates/daphne/src/roles/helper.rs:225-229 | whatever comes later, no report is merged into a released bucket |
| `CollectionRaces.ReleaseExact` | crates/daphne/src/roles/helper.rs:193-229 | with merges at any time, the share read bucket by bucket is the total of all the buckets will ever hold if and only if none commits between reading a bucket and marking it; otherwise it counts fewer reports |
| `CollectionRaces.LateMerge` | crates/daphne/src/roles/helper.rs:193-229 | a merge in between succeeds, and its report is stored but missing from what was read |
| `CollectionRaces.OverlapExact` | crates/daphne/src/roles/helper.rs:182-229 | of any number of aggregate-share requests, interleaved bucket by bucket, one finds no overlap if and only if it checks every bucket it has in common with another before that one marks it |
| `CollectionRaces.ReleasedTwice` | crates/daphne/src/roles/helper.rs:193-229 | two requests that are answered both release all that a common bucket held when the first of them read it |
| `CollectionRaces.BothAnswered` | crates/daphne/src/roles/helper.rs:182-229 | two requests for one bucket that both find no overlap and both read its report |
| `LeaderJob.ProduceAggJobReq` | crates/daphne/src/protocol/aggregator.rs:433-553 | the two loops fail exactly on repeated IDs or fatal reports, and otherwise keep states and requests for the same reports in the same order |
| `LeaderJob.RequestsExact` | crates/daphne/src/protocol/aggregator.rs:433-553 | a request is built if and only if no report is fatal and every share can be framed, and asks for exactly the reports the Leader could prepare, in order, with their IDs, times and framed shares |
| `LeaderJob.ConsumeAggJobReq` | crates/daphne/src/protocol/aggregator.rs:586-643 | the loop fails exactly on repeated IDs or fatal reports and otherwise initializes every report in order |
| `LeaderJob.InitExact` | crates/daphne/src/protocol/aggregator.rs:221-345 | a report is ready if and only if the checks pass and its payload frames a share that can be prepared; it is rejected for the reason of the checks, or because there is no such share |
| `LeaderJob.ConsumeAggJobResp` | crates/daphne/src/protocol/aggregator.rs:757-849 | the loop aborts exactly on a wrong length, order, frame or fatal preparation, and otherwise fills the span with the Leader's output shares |
| `LeaderJob.LeaderReportsExact` | crates/daphne/src/protocol/aggregator.rs:757-849 | for any response: it is consumed if and only if it has one answer per report in the order of the request and every continued one carries a frame on which preparation is not fatal; aggregated are then exactly the output shares these yield, one for each |
| `LeaderHelper.RequestUnderstood` | crates/daphne/src/protocol/aggregator.rs:505-516 | the Leader's framing of a request always gives the Helper the Leader's preparation share |
| `LeaderHelper.HonestResponseAccepted` | crates/daphne/src/protocol/aggregator.rs:757-806 | the Leader never aborts an honest Helper's response for length, order or framing: it aborts exactly when its own preparation fails outright |
| `LeaderHelper.ContinuedAreAdded` | crates/daphne-worker/src/durable/aggregate_store.rs:401-428 | with other reports stored and buckets collected at any time, the response continues exactly the reports the job added if and only if no bucket, when the first request arrives, is open and holds all of the job's reports for it |
| `LeaderHelper.RepeatedJob` | crates/daphne-worker/src/durable/aggregate_store.rs:406-421 | for any reports, a second job over those of a first one adds nothing and is answered as if it had stored them all |
| `LeaderHelper.RepeatedReport` | crates/daphne-worker/src/durable/aggregate_store.rs:406-421 | a report sent in two jobs from an empty store, for which continued and added reports differ |
| `Agreement.JobAgreement` | crates/daphne/src/protocol/aggregator.rs:648-849 | after one completed job, with other jobs and collections interleaved, the Leader aggregates exactly what the Helper added if and only if no open bucket held all of the job's reports for it when the first request arrived |
| `Agreement.RetriedAgreement` | crates/daphne/src/roles/helper.rs:343-352 | after any number of failed attempts, with other jobs and collections interleaved, what the Leader aggregates from the last response is what the Helper added over all attempts if and only if no bucket with reports of an earlier attempt was collected before the last one reached it |
| `Agreement.LostByCollection` | crates/daphne/src/roles/helper.rs:343-352 | a job whose first attempt commits before the storage fails, and whose retry after a collection rejects the report the Helper has added |
| `JobHistory.FirstDecides` | crates/daphne/src/roles/helper.rs:297-373 | if a bucket holds all or none of a job's reports, a completed job continues them if and only if the bucket is open when the first request arrives |
| `JobHistory.OwnRequestWhole` | crates/daphne/src/roles/helper.rs:297-373 | if all earlier requests in a bucket carry all of a job's reports for it or none, then every request of the job carries all of them, in every pass |
| `Executions.ReportDecided` | crates/daphne/src/roles/helper.rs:279-377 | in any concurrent execution of jobs, a ready report is continued if and only if its bucket was open when the first request of the consumed run arrived, and stored in the end if and only if it was open or held the report already |
| `Totals.AgreementExact` | crates/daphne/src/roles/helper.rs:193-209 | after any concurrent execution of completed jobs, the total of the Helper's buckets and that of the Leader's, with another number of shards, have for any aligned selector the same count and checksum if and only if no bucket of the batch was collected with a job's reports in it before the consumed run reached it; otherwise the Helper counts more |
| `SequentialJobs.SequentialAgreement` | crates/daphne/src/roles/helper.rs:193-209 | the same for jobs one after another from an empty store, retried through storage failures; without collections in between, both sides always agree |
| `SequentialJobs.OneJob` | crates/daphne/src/roles/helper.rs:193-209 | any job without fatal reports, attempted once without interference, is such a completed execution, so the hypotheses of the two theorems above can be met |
| `Bytes.PrefixedExact` | crates/daphne/src/messages/mod.rs:1136-1164 | a length-prefixed string is decoded if and only if the input is its encoding followed by the remainder |
| `TaskprovPanics.TaskPanics` | crates/daphne/src/messages/mod.rs:1215-1242 | an input makes the decoder panic if and only if its query block, its VDAF block or the privacy block in a whole VDAF block announces more bytes than are there |
| `TaskprovPanics.CutTask` | crates/daphne/src/messages/taskprov.rs:440-475 | a truncated configuration never decodes: it panics if and only if the cut is in the query or VDAF block after its length, and is an error otherwise |
| `TaskprovPanics.ShortInputPanics` | crates/daphne/src/messages/mod.rs:1215-1242 | an input of seven bytes that panics |
| `TaskprovCodec.PineExact` | crates/daphne/src/messages/taskprov.rs:54-124 | PINE parameters: decoded exactly from their encodings |
| `WireLayout.PineLayout` | crates/daphne/src/messages/taskprov.rs:54-91 | the nine parameters of PINE, their order and widths |
| `TaskprovCodec.DpExact` | crates/daphne/src/messages/taskprov.rs:213-250 | differential-privacy configurations: decoded exactly from encodings that fill the block and reuse no known code |
| `TaskprovCodec.VarExact` | crates/daphne/src/messages/taskprov.rs:126-205 | VDAF types, known or taking up the remainder: decoded exactly from encodings that reuse no known code |
| `WireLayout.VdafBytes` | crates/daphne/src/messages/taskprov.rs:118-200 | the type codes of the VDAFs |
| `WireLayout.Prio3Layout` | crates/daphne/src/messages/taskprov.rs:137-150 | the parameters of Prio3, their order and widths |
| `TaskprovCodec.VdafExact` | crates/daphne/src/messages/taskprov.rs:259-291 | VDAF configurations with their nested block: the same |
| `TaskprovCodec.QueryExact` | crates/daphne/src/messages/taskprov.rs:330-407 | query configurations: the same |
| `WireLayout.QueryLayout` | crates/daphne/src/messages/taskprov.rs:347-368 | the fields of a query configuration, their order and widths |
| `WireLayout.QueryTypes` | crates/daphne/src/messages/taskprov.rs:347-368 | the type codes of the query configurations |
| `TaskprovCodec.TaskExact` | crates/daphne/src/messages/taskprov.rs:420-475 | a configuration and a remainder are decoded if and only if the input is that encoding followed by that remainder, lengths fit and no unknown variant reuses a known code |
| `WireLayout.TaskLayout` | crates/daphne/src/messages/taskprov.rs:420-438 | the fields of a task configuration, their order and widths |
| `TaskprovCodec.TaskRoundTrip` | crates/daphne/src/messages/taskprov.rs:420-475 | for an encodable configuration, decoding the encoding returns it if and only if no unknown variant reuses a known code |
| `TaskprovCodec.TaskInjective` | crates/daphne/src/messages/taskprov.rs:420-475 | encodings are injective and none is a prefix of another |
| `Wire.ByteVec.Patch` | crates/daphne/src/messages/mod.rs:1190-1209 | writing the length over the reserved bytes yields the prefixed string, or panics exactly when the length does not fit |
| `Wire.EncodeTaskConfig` | crates/daphne/src/messages/taskprov.rs:420-438 | appending fields and patching three nested prefixes yields the encoding exactly when all lengths fit, and panics exactly when everything before some block fits and the block is too long |
| `Wire.Cursor.OpenBlock` | crates/daphne/src/messages/mod.rs:1215-1242 | reading the length and slicing advances the cursor past the block, errs or panics as specified |
| `Wire.DecodeTaskConfig` | crates/daphne/src/messages/taskprov.rs:440-475 | the cursor decoder returns what the specification decodes and stops at its remainder |
| `JobCodec.TransitionExact` | crates/daphne/src/messages/mod.rs:557-660 | transitions: decoded exactly from their encodings |
| `WireLayout.FailureBytes` | crates/daphne/src/messages/mod.rs:617-660 | a failed transition is the byte 2 and the code of the failure |
| `WireLayout.ContinuedBytes` | crates/daphne/src/messages/mod.rs:557-616 | a continued transition is the byte 0, the length of its message in four bytes, and the message |
| `JobCodec.PrepareInitExact` | crates/daphne/src/messages/mod.rs:341-516 | report shares with their ciphertext and payload: decoded exactly from their encodings |
| `JobCodec.AggregationJobInitReqExact` | crates/daphne/src/messages/mod.rs:521-552 | requests with any list of reports: decoded exactly from their encodings |
| `WireLayout.ReportLayout` | crates/daphne/src/messages/mod.rs:492-525 | the fields of a report in a request, their order and widths |
| `WireLayout.PartBytes` | crates/daphne/src/messages/mod.rs:401-434 | a partial batch selector is the byte 1, or the byte 2 and the batch ID |
| `WireLayout.RequestLayout` | crates/daphne/src/messages/mod.rs:527-555 | the fields of a request, their order and widths |
| `JobCodec.AggregationJobRespExact` | crates/daphne/src/messages/mod.rs:682-698 | responses with any list of transitions: decoded exactly from their encodings |
| `JobCodec.JobMessagesInjective` | crates/daphne/src/messages/mod.rs:518-698 | requests and responses round-trip and have distinct encodings |
| `PineCodec.InputShareExact` | crates/daphne/src/pine/msg.rs:98-182 | for either aggregator, an input share is decoded if and only if the input is the encoding of a share it expects, with canonical elements and the lengths of the instance |
| `WireLayout.ShareLayout` | crates/daphne/src/pine/msg.rs:98-129 | the order of vectors, seeds and blinds in an input share |
| `WireLayout.ElemLayout` | crates/daphne/src/pine/msg.rs:107-112 | every element of a vector is at its position, least significant byte first |
| `PineCodec.EncodeInputShare` | crates/daphne/src/pine/msg.rs:98-127 | the loops over elements and seeds append that encoding |
| `PineCodec.DecodeInputShare` | crates/daphne/src/pine/msg.rs:146-182 | the cursor decoder returns what the specification decodes and stops at its remainder |

## Left out

- HPKE, SHA-256, HKDF, extendable-output functions and signatures are arbitrary functions or absent.
- `prove`, `query` and `decide` of libprio and the Prio2, Prio3 and Mastic VDAFs: only the interface,
  the two gadgets and bit-vector coding are modelled, from their meaning: coding refuses a length `n`
  unless all integers of `n` bits are below the modulus. So are libprio's item lists and integer codecs.
- Floating point: gradients start as the floored integers. Theorems about the constructor hold for
  any positive wraparound bound; concrete parameter sets have the power of two above 8.7 times the norm
  bound, computed without rounding.
- The Leader's work queue, `process`, its own storage of aggregate shares and its collection jobs;
  crates/daphne/src/roles/leader is not part of this model.
- CollectionSafety.CollectionIsSafe: does not interleave merges between the steps of one
  aggregate-share request, nor two requests; a run is a sequence of whole requests and merges. Merges
  in between are the subject of `CollectionRaces.ReleaseExact`, for one request, and interleaved
  requests that of `CollectionRaces.OverlapExact`.
- CollectionDriver.HandleAggShareReq: does not model authorization, decoding of the request and
  encryption of the share, which come before the checks and after the marking.
- AggregateStore.Store.Merge: requires what the code asserts, at most 255 chunks of report IDs and
  eight of share data, and does not model errors of storage in the middle of a merge.
- HelperTheorems.ExactCommit: does not model the disabled replay protection.
- LeaderHelper.ContinuedAreAdded: excludes other jobs that store the same reports meanwhile.
- Agreement.RetriedAgreement: excludes other jobs with the same reports, before or meanwhile.
- Totals.AgreementExact: excludes jobs that share a report, which an honest Leader does not send; what
  happens then is the subject of `LeaderHelper.RepeatedJob`. The Leader's total is that of its
  buckets after it has consumed all responses; its own storage is not modelled. That its hypotheses
  can be met is shown by `SequentialJobs.OneJob`.
- LeaderJob.ConsumeAggJobReq: takes decryption, extension handling and time checks as one arbitrary
  function of the report.
- PineVdaf.HonestRun: takes the completeness of the proof system as a hypothesis;
  `PineVdaf.HypothesesMeetable` gives, for every parameter set, a whole VDAF that meets all hypotheses.
  Soundness is proved for the circuits only.
- PinePreparation.PreparationExact: takes as a hypothesis that a successful query yields a verifier of the
  length the proof system commits to; the VDAF of `HypothesesMeetable` meets it.
- PineFields.NormHeld: takes the primality of the modulus as a hypothesis.
- Garbage-collection alarms, test state cleaning, HTTP routing, storage proxy, key-value cache,
  authorization, metrics, tracing, command line and load tests: plumbing.
- JSON, Cap'n Proto and base64 encodings, and messages other than the task configuration, the
  aggregation job messages and PINE input shares: they would only add easy members.
