# Verification of the example runners and release tools

A Dafny model of the host-side logic that decides whether a benchmark, a determinism experiment, a dependency lock or a
release archive is right, with proofs about it. `dafny verify dfyconfig.toml` checks everything.

The files fall into five groups.

* **Decode driver.** `DecodeChain` defines the autoregressive chain of a batch over an arbitrary deterministic model;
  `DecodeDriver` is `run_perf_benchmark` as an object over an abstract device, in its three modes (host argmax, device
  sampling read at once, device sampling read one step behind); `DecodeTheorems` says that all three return the chain
  and where the run writes its cache; `PageTable` and `PrefillBucket` are the page table and the budget it runs on;
  `TeacherForcing` is the accuracy loop and the alignment of its reference.
* **Determinism checks.** `Rotation`, `CrossBatch`, `CrossCardinality` and `StopTokens` are the two cross-batch
  checkers, the two cross-cardinality checkers, and the truncations and special-token guards; `LaneModel`,
  `EvalRepeat` and `PooledDevice` put benchmark, rotation, page table and checkers together; `TokenizeBatch` builds the
  prefill rectangle.
* **Dependency locks.** `LockNames`, `LockPrinter` and `LockParser` are the name normalization, the report reader and
  printer, and the parser; `LockSoundness` says what an accepted text consists of, `LockScreen` which texts are accepted,
  `LockOptions` and `LockRoundTrip` when a printed lock comes back. `Text` has the string operations.
* **Degenerate-output check.** `DegenerateOutput` and `ModelDirs`.
* **Ownership and canonical form.** `MeshOwnership` and `SdistNormalize` (over `StableSort`).

Assumptions about what the repository does not show:

* The device latches the tokens and positions of the call with `reset_batch`, afterwards feeds back its own samples and
  advances its own positions, and without sampling takes the host's tokens at every call. Its numerical work is an
  arbitrary function of its cache, the lane tokens and the lane positions.
* A target that offers `process_decode_output_host` hands over one token per lane, as the repository's own executor does
  (src/tt_transformers/llm_runtime/decode.py:966-978); without that method the driver cuts the row to the batch itself.
* `DecodeDriver` lets each asynchronous read return a host buffer or none and an event or none. The main theorem
  assumes both are present; what happens otherwise is stated exactly.
* The driver is proved for every such device. Only where a sampled run is compared with a host run, and a lane is
  idle, does the comparison assume that idle lanes do not influence active ones (`IgnoresIdle`): the device feeds
  them their own samples, the host zeros. `DecodeTheorems.ModesAgreeExactly` says for which batches that is needed.
* A tokenizer is a pair of functions, a Python dictionary a sequence of pairs with distinct keys, an elapsed time an
  arbitrary real number, an archive the sequence of its members. `Err` stands for a raised exception.

Where the code does not do what its documentation or a first reading suggests, the model follows the code, states the
exact condition, and shows an input: a lock printed from an accepted report does not always come back
(`LockRoundTrip.RoundTripExactly`, `LockRoundTrip.SpacedVersionIsLost`); the benchmarks that fix the bucket at 128
keep their margin for longer prompts only if prompt and request end before it (`PrefillBucket.FixedBucketExact`,
`PrefillBucket.FixedBucketOverruns`); a mixed batch is not clipped (`TokenizeBatch.RowsFitExactly`,
`TokenizeBatch.MixedBatchMayOverflow`); an INVARIANT verdict does not by itself make the text checker accept
(`CrossCardinality.InvariantImpliesTextConsistency`, `CrossCardinality.InvariantIsNotEnough`); archives with repeated
member names keep their order (`SdistNormalize.NormalFormCanonical`, `SdistNormalize.RepeatedNameKeepsOrder`); a
sampled run with idle lanes may leave the host's streams (`DecodeTheorems.ModesAgreeExactly`,
`DecodeTheorems.IdleLanesMayMatter`); a pipelined run of a partial batch raises on a target that normalizes its own
output (`DecodeTheorems.RunBesideHost`, `DecodeTheorems.RunPartialBatch`); and a run without room in its page-table
row need not return the streams of its prompts (`PooledDevice.RoomExactly`, `PooledDevice.NoRoomShows`).

## Model

| member | source | states |
|---|---|---|
| DecodeDriver.RunPerfBenchmark | examples/common/run_helpers.py:405-616 | For every device, batch, length and mode, the run raises exactly when margins are asked of sampled prefill output, when a consumed read has more tokens than the batch (pipelined partial batch, target that normalizes its own output, some read arrived), or else when the last read has an event but no buffer; otherwise the streams are those of the chain for the steps read, every decode call ran on exactly the chain's tokens, at position prompt length + k on active lanes and -1 on idle ones, both time lists have max(n-1, 0) entries, and margins, returned exactly without device sampling when asked for, are for each user those of the prefill logits and then of the logits behind each further token |
| DecodeDriver.BenchmarkStart | examples/common/run_helpers.py:472-501 | The chain starts from the prefill cache; each user's first token is chosen from that user's prefill logits by the top-2 diagnostic, the sampler or argmax, as the options say, and idle lanes start with a zero |
| DecodeDriver.BenchmarkStep | examples/common/run_helpers.py:515-587 | Each step writes the newest tokens of all lanes at prompt length + k, or -1 on idle lanes, and chooses the next ones from the logits of that call, as the options say; an idle lane keeps a zero unless the device samples |
| DecodeDriver.StreamsExactly | examples/common/run_helpers.py:532-587 | A returned list is the user's first token and one token per step that was read, in order: every step, or with pipelined readback exactly those whose read has a buffer and an event |
| DecodeDriver.DecodeAndDrain | examples/common/run_helpers.py:501-616 | The decode section alone: which of its two errors is raised, exactly, and otherwise streams, margins, calls and time lists of n steps, from whatever first tokens; the division by n-1 happens only when n > 1 |
| DecodeDriver.Benchmark.constructor | examples/common/run_helpers.py:498-511 | The loop starts with zero tokens and position -1 on idle lanes, one token per user, and no pending read |
| DecodeDriver.Benchmark.Forward | examples/common/run_helpers.py:521-530 | Whichever tokens the device works on (host tensor, latched, fed back), they are the chain's on all lanes, and so are cache, logits and samples afterwards |
| DecodeDriver.Benchmark.PipelineRead | examples/common/run_helpers.py:532-539 | The read of step i is submitted, and the read handed on is that of step i-1, only after its event and only if both its parts exist |
| DecodeDriver.Benchmark.StepPipelined | examples/common/run_helpers.py:532-560 | Between iterations at most the last read is pending and every earlier one that was present has been consumed once, in order; the step fails exactly when the read it consumes has more tokens than the batch |
| DecodeDriver.Benchmark.Consume | examples/common/run_helpers.py:369-392 | A synchronized row extends every user's stream by that user's token of that step; it fails exactly when the target normalizes its own output, so that the row is not cut, and some lane has no user |
| DecodeDriver.Benchmark.HostPick | examples/common/run_helpers.py:562-577 | Host mode: the chosen tokens extend streams and margins together and become the next input |
| DecodeDriver.Benchmark.TakeRow | examples/common/run_helpers.py:578-586 | Synchronous sampled mode: the row read with the call extends every stream by its own user's token |
| DecodeDriver.Benchmark.AppendRow | examples/common/run_helpers.py:391-392 | Exactly one token goes to the end of every user's list |
| DecodeDriver.Benchmark.AdvancePositions | examples/common/run_helpers.py:587 | Active positions move on by one, idle ones stay at -1 |
| DecodeDriver.Benchmark.RecordTime | examples/common/run_helpers.py:545-550 | The first step is recorded in no list, later ones in the lists of the mode |
| DecodeDriver.Benchmark.Iterate | examples/common/run_helpers.py:515-587 | One trip around the loop keeps the whole invariant in all three modes, or fails exactly as its pipelined read does |
| DecodeDriver.Benchmark.Loop | examples/common/run_helpers.py:515-587 | The loop ends early exactly when it consumes a read with more tokens than the batch, and otherwise keeps the whole invariant |
| DecodeDriver.Benchmark.Drain | examples/common/run_helpers.py:591-601 | After the drain the consumed reads are exactly the delivered ones and nothing is left over; the two ways of failing, no buffer and a row wider than the batch, are exact |
| DecodeChain.DeliveredExactly | examples/common/run_helpers.py:533-539 | Every present read reaches the host exactly once and in submission order, and no other does |
| DecodeChain.DeliveredComplete | examples/common/run_helpers.py:533-539 | No output is lost if and only if every read is present |
| DecodeTheorems.ChainsAgree | examples/common/run_helpers.py:492-497 | When device sampler, host argmax and top-2 diagnostic choose alike, two modes return the same streams if both sample or neither does, if no idle lane can matter, or if the device ignores idle lanes |
| DecodeTheorems.AllModesReturnTheChain | examples/common/run_helpers.py:515-600 | For every model, batch, length and number of steps, the streams of every mode are the host-argmax streams of length n+1 when all reads arrive; the device has to ignore idle lanes only where they can matter |
| DecodeTheorems.RunBesideHost | examples/common/run_helpers.py:405-616 | A run in any mode beside a host-argmax run on the same model: the second succeeds, and the first returns the same streams unless a pipelined partial batch meets a target that normalizes its own output, when it raises |
| DecodeTheorems.ArrivedReads | examples/common/run_helpers.py:591-601 | When all reads arrive, surplus tokens are all that can go wrong while reading, and they do exactly for a pipelined partial batch of at least one step on such a target |
| DecodeTheorems.RunPartialBatch | examples/common/run_helpers.py:378-392 | One user on two lanes, pipelined, on a target that normalizes its own output: the run raises |
| DecodeTheorems.PartialBatchOverflows | examples/common/run_helpers.py:378-392 | It does so from the first step on |
| DecodeTheorems.PipelinedCompleteness | examples/common/run_helpers.py:535-552 | A pipelined stream has length n+1 if and only if no read came back without a buffer or without an event |
| DecodeTheorems.StreamIsAutoregressive | examples/common/run_helpers.py:521-577 | Token k+1 of a stream is picked from the logits of a step whose input is the k-th token of every user's own stream |
| DecodeChain.ChainIgnoresIdleFeed | examples/mistral_7b/benchmark.py:987-990 | Feeding idle lanes their own samples or zeros makes no difference to cache and active tokens if there is no idle lane or the device ignores them |
| DecodeTheorems.IdleLanesMayMatter | examples/common/run_helpers.py:501-504 | For every batch with idle and active lanes and two steps or more there is a device on which the sampled and the host run return different streams |
| DecodeTheorems.ModesAgreeExactly | examples/common/run_helpers.py:435-436 | Sampled and host run agree on every device (with integer caches and logits) if and only if the batch has no active lane, no idle lane, or takes at most one step |
| DecodeTheorems.RunStaysInBudget | examples/qwen25_7b/benchmark.py:1101-1104 | Over a whole clamped run no decode position exceeds max_seq_len - 17, and idle lanes stay at -1 |
| DecodeTheorems.DecodeWritesNeverCollide | examples/qwen25_7b/benchmark.py:1085-1104 | Each decode write of a clamped run lies inside the user's row and hits a cell that belongs to that user and position only |
| PageTable.ContiguousTable | examples/common/run_helpers.py:21-26 | The table exists exactly for positive dimensions; its rows are disjoint consecutive ranges that hold max_seq_len positions with less than one block to spare |
| PageTable.RepeatTable | examples/common/run_helpers.py:692-705 | In either mode the table of a repeat is a rolled contiguous table; any other mode raises |
| PageTable.AddressInverse | examples/common/run_helpers.py:21-26 | User and position can be read back from block and offset, in every rolled table |
| PageTable.AddressOnto | examples/common/run_helpers.py:21-26 | Every cell of the pool is the address of some user and position, so the addressing is a bijection |
| PageTable.PoolRefinesDense | examples/common/run_helpers.py:21-26 | Whatever users write in whatever order, reading the shared pool through the table is reading one's own dense cache |
| PageTable.PromptStableBlocks | examples/common/run_helpers.py:692-704 | In prompt-stable mode a prompt owns the same physical blocks in every repeat, wherever it sits |
| PageTable.LlamaTableAgrees | examples/llama3_8b/benchmark.py:1106-1111 | The Llama spelling builds the same table on all positive dimensions |
| PageTable.LanesShareBlockNumbers | examples/llama3_8b/benchmark.py:1108-1109 | The per-lane variant gives all lanes the same cells, so each lane needs a pool of its own |
| PageTable.CeilDivLeast | examples/llama3_8b/benchmark.py:1107 | The number of blocks is the least that holds the sequence |
| PrefillBucket.BucketIsLeastPower | examples/common/prompting.py:32-37 | Above 1024 the bucket is the least power of two that holds the prompt |
| PrefillBucket.BucketIsLeast | examples/common/prompting.py:32-37 | The buckets are 128, 1024 and the powers of two from 2048 on, and every prompt gets the least one that holds it |
| PrefillBucket.BucketCoversPrompt | examples/common/prompting.py:32-37 | The bucket holds the prompt, and above 1024 wastes less than half |
| PrefillBucket.BucketMonotone | examples/common/prompting.py:32-37 | A longer prompt never gets a smaller bucket |
| PrefillBucket.BucketIdempotent | examples/common/prompting.py:32-37 | A bucket is its own bucket |
| PrefillBucket.BucketMultipleOf32 | examples/common/prompting.py:32-37 | Every bucket consists of whole tiles of 32 |
| PrefillBucket.ClampKeepsPositions | examples/qwen25_7b/benchmark.py:1101-1104 | With the bucket of the longest prompt, every user's prompt length and bucket plus any decode step stay at most max_seq_len - 17 |
| PrefillBucket.BudgetIsLargest | examples/mistral_7b/benchmark.py:1007-1012 | The clamped length is the largest that is not above the request and ends 16 positions before the limit |
| PrefillBucket.QwenBudgetIsLargest | examples/qwen25_7b/benchmark.py:1101-1104 | With the bucket of the longest prompt it is the largest that does so behind every prompt's own bucket |
| PrefillBucket.FixedBucketExact | examples/mistral_7b/benchmark.py:1007-1012 | With the bucket fixed at 128, for all requests, sequence limits, prompts and margins: a prompt stays the margin below the limit if and only if nothing is decoded, the prompt has at most 144 minus the margin tokens (128 for the intended margin), or prompt and request end before it |
| DecodeTheorems.FixedBucketRun | examples/mistral_7b/benchmark.py:1007-1040 | Every decode position of every user of a whole run stays the margin below the limit if and only if each prompt meets that condition |
| PrefillBucket.FixedBucketOverruns | examples/mistral_7b/benchmark.py:1007-1012 | The default request at 1024 positions runs past the sequence behind a prompt of 900 tokens, and keeps the margin behind one of 500 |
| PrefillBucket.OwnBucketStops | examples/qwen25_7b/benchmark.py:1101-1104 | With the bucket of the actual prompts nothing is decoded behind the same prompt of 900 tokens |
| TeacherForcing.RunTeacherForcing | examples/common/run_helpers.py:203-291 | Every user gets one prediction per target, each made when the caches held exactly the reference up to that target, whatever was predicted before; which of the two errors is raised and the list lengths are exact |
| TeacherForcing.ForceStep | examples/common/run_helpers.py:258-278 | One step feeds the reference token at its own position to every user and records one prediction each |
| TeacherForcing.FedIsReferencePrefix | examples/common/run_helpers.py:221-278 | If the prompt is the reference prefix, the context of target i is the reference prefix of length prompt_len + i, each token at its own position |
| TeacherForcing.PredictionsExactly | examples/common/run_helpers.py:241-280 | Prediction i of any user is made from caches that hold, position by position and for every user, the prompt and then the reference up to target i |
| TeacherForcing.HitsExactly | examples/common/run_helpers.py:42-52 | The two scores count exactly the positions whose first, and whose any, reference token was predicted |
| TeacherForcing.AccuraciesOrdered | examples/common/run_helpers.py:42-52 | 0 <= top-1 accuracy <= top-5 accuracy <= 1 |
| TeacherForcing.SelectTop5Slice | examples/qwen25_7b/benchmark.py:377-413 | The result has one row per target; it is the whole reference for aligned metadata of that length, and otherwise the first of the fitting windows at 0 (aligned metadata), promptLen - 1 and promptLen that agree with most of the first 16 targets; both errors are exact |
| TeacherForcing.BestCandidate | examples/qwen25_7b/benchmark.py:393-409 | The candidate loop with max finds the earliest best fitting start, and none exactly when none fits |
| TeacherForcing.ScoreExactly | examples/qwen25_7b/benchmark.py:393-409 | A window's score is the number of probed targets that it ranks first |
| TeacherForcing.AlignedWindowWins | examples/qwen25_7b/benchmark.py:393-409 | A window that ranks every probed target first is never passed over for one that does not |
| TeacherForcing.AlignedAccuracy | examples/qwen25_7b/benchmark.py:377-413 | Alignment and forcing together index in range, and both accuracies are the share of user 0's predictions that are the first, or one, of the tokens in their own reference rows |
| Rotation.RotateIsRotatePrompts | examples/llama3_8b/benchmark.py:1118-1120 | The two slices and the modular comprehension are one function, for every amount |
| Rotation.RotateBack | examples/common/run_helpers.py:686-689 | Rotating by -r undoes rotating by r, across the two spellings |
| Rotation.SlotHoldsPrompt | examples/common/run_helpers.py:686-689 | The slot computed for a prompt holds that prompt |
| Rotation.PromptInSlot | examples/common/run_helpers.py:686-689 | The prompt in a slot has that slot computed for it, so slots and prompts correspond one to one |
| CrossBatch.AssertCrossBatchConsistency | examples/common/run_helpers.py:820-889 | For any repeats and diagnostics, of whatever widths: too few repeats fail, no slot accepts, a repeat shorter than the first raises, surplus slots are ignored; otherwise it accepts exactly when no slot comparison differs, or counts all mismatches and describes the first in loop order, or raises an IndexError that only a diagnostic list too short for that first mismatch can cause |
| CrossBatch.CompareNeighbours | examples/common/run_helpers.py:841-885 | The inner loop counts all comparisons and mismatches of one pair of repeats and keeps the first report |
| CrossBatch.Describe | examples/common/run_helpers.py:847-885 | The report names the two slots, their prompt, and the first token divergence with the margins at that step; it cannot be composed exactly when a token or margin list is missing or ends before it |
| CrossBatch.CheckersAgree | examples/llama3_8b/benchmark.py:1161-1168 | The modular-slot checker and the rotate-back checker find equally many mismatches, for any number of repeats and slots |
| CrossBatch.MismatchesRotate | examples/common/run_helpers.py:840-845 | Between two repeats the comparisons of one checker are a rotation of the other's |
| CrossBatch.MismatchOfSlot | examples/common/run_helpers.py:844 | The comparison at a slot is the comparison of the prompt that the slot holds |
| CrossBatch.AcceptsExactlyInvariant | examples/llama3_8b/benchmark.py:1164-1168 | No mismatch between neighbours is the same as agreement between any two repeats up to the last |
| CrossBatch.InvariantBySlots | examples/common/run_helpers.py:829-845 | The agreement that the checkers decide, slot by slot: any two slots of any two repeats that held one prompt have one output |
| CrossBatch.BothCheckersAcceptExactlyInvariant | examples/common/run_helpers.py:829-845 | Either checker finds nothing if and only if any two repeats, not only neighbours, agree on every prompt |
| CrossBatch.ReportedPromptIsHeldByBothSlots | examples/common/run_helpers.py:847-848 | The reported prompt index is the prompt held in both named slots of the two repeats |
| CrossBatch.FailureExactly | examples/common/run_helpers.py:845-889 | A report is made exactly if the token lists are there and the margin lists that are consulted reach the step at which the two slots part; it names repeat, slots and prompt, that step, both tokens there and both margins recorded there |
| CrossBatch.ReportExactly | examples/common/run_helpers.py:855-875 | The step is the least at which two lists differ or one ends; without both margins there the report fails |
| CrossBatch.RotateBackFailures | examples/llama3_8b/benchmark.py:1148-1168 | It raises exactly for a repeat without outputs; otherwise the reported users are the differing prompts of all neighbouring repeats, pair by pair and ascending, a longer repeat cut to the shorter |
| CrossBatch.DifferingUsers | examples/llama3_8b/benchmark.py:1166-1168 | The inner loop lists the differing prompts of one pair of repeats, ascending |
| CrossBatch.FailingUsersExactly | examples/llama3_8b/benchmark.py:1164-1168 | A user is reported if and only if two neighbouring repeats both have that prompt and differ on it |
| CrossBatch.FailingUsersCount | examples/llama3_8b/benchmark.py:1164-1168 | There is one reported user per mismatch |
| CrossBatch.CommonTokensIsFirstDifference | examples/common/run_helpers.py:853-859 | The counted step is the least position where two token lists differ or one of them ends |
| CrossBatch.FindDivergence | examples/common/run_helpers.py:853-857 | The counting loop finds the first difference |
| CrossBatch.DivergenceInRange | examples/common/run_helpers.py:846-870 | For runs of equal length with parallel margins, differing text always shows as a token difference at a step that both token lists and both margin lists have |
| CrossBatch.AssertWithinBatchSlotConsistency | examples/common/run_helpers.py:892-924 | For any outputs and diagnostics: it accepts exactly when all slots have the text of slot 0; otherwise it describes the first slot that differs, or raises an IndexError exactly when there is no output or a token or margin list is missing or too short for that slot |
| CrossBatch.DescribeSlot | examples/common/run_helpers.py:905-918 | The description is the first divergence of the two token lists with both margins there, or an IndexError |
| CrossBatch.SlotDetailExactly | examples/common/run_helpers.py:902-924 | The same for the report on a slot beside slot 0 |
| CrossCardinality.EvaluateSeeded | examples/llama3_8b/demo_utils.py:125-198 | It returns a verdict exactly for a complete experiment, with all mismatches in loop order, and INVARIANT exactly when there are none |
| CrossCardinality.CheckHeader | examples/llama3_8b/demo_utils.py:140-161 | The checks before the loop pass exactly for the expected cardinalities, the fixed requests in order, a positive count and full controls |
| CrossCardinality.CompareAll | examples/llama3_8b/demo_utils.py:163-195 | The outer loop succeeds exactly when every cardinality is complete, and then has all mismatches |
| CrossCardinality.CompareEntry | examples/llama3_8b/demo_utils.py:164-195 | One cardinality passes exactly when it holds the fixed request prefix with full token counts |
| CrossCardinality.CompareRequests | examples/llama3_8b/demo_utils.py:171-195 | The inner loop finds the mismatches of one cardinality, and fails exactly on a wrong token count |
| CrossCardinality.InvariantExactly | examples/llama3_8b/demo_utils.py:197 | There is no mismatch if and only if every batched output equals its control |
| CrossCardinality.WhereSound | examples/llama3_8b/demo_utils.py:178-195 | Only differing outputs are listed |
| CrossCardinality.WhereComplete | examples/llama3_8b/demo_utils.py:178-195 | Every differing output is listed |
| CrossCardinality.WhereInOrder | examples/llama3_8b/demo_utils.py:164-195 | The list is in order of cardinality and request, so each output is listed once |
| CrossCardinality.MismatchesAre | examples/llama3_8b/demo_utils.py:187-195 | Each listed mismatch describes the output at its own place |
| CrossCardinality.ReportedIndexIsLeast | examples/llama3_8b/demo_utils.py:179-186 | In a complete experiment the reported index is below the expected count and the least where the tokens differ, under the right request, cardinality and token counts |
| CrossCardinality.AssertCrossCardinalityConsistency | examples/common/run_helpers.py:794-817 | It accepts exactly when the cardinalities are the expected ones, each has as many outputs as it says, and every request has one output wherever it appears |
| CrossCardinality.TextsConsistentExactly | examples/common/run_helpers.py:794-817 | That condition entry by entry: the expected cardinalities in order, as many outputs as each says, and equal outputs for any two entries of one request |
| CrossCardinality.CompareTexts | examples/common/run_helpers.py:808-817 | One cardinality against the reference: on success the reference holds every request seen so far, on failure some request has two outputs |
| CrossCardinality.InvariantImpliesTextConsistency | examples/llama3_8b/demo_utils.py:197 | After an INVARIANT verdict the text checker accepts any decoding of the experiment if and only if every cardinality lies between 0 and the number of requests |
| CrossCardinality.InvariantIsNotEnough | examples/common/run_helpers.py:806-807 | One request at the cardinality 2 is INVARIANT, and the text checker rejects it whatever the decoding |
| StopTokens.TruncatedIsTheCut | examples/common/run_helpers.py:733-740 | Truncation is the one prefix that holds no stop id and either is everything or is followed by a stop id |
| StopTokens.TruncateByAppending | examples/common/run_helpers.py:733-740 | The loop that builds the prefix computes the truncation |
| StopTokens.TruncateBySlicing | examples/common/run_helpers.py:642-646 | The loop that slices computes the same truncation |
| StopTokens.TruncateLlama | examples/llama3_8b/benchmark.py:1123-1134 | The demo-local truncation is the same one for its own stop ids |
| StopTokens.LlamaStopsExactly | examples/llama3_8b/benchmark.py:1123-1134 | The demo's stop ids are the end-of-sequence id and an end-of-turn id that is not negative, and no others |
| StopTokens.TruncateTwice | examples/qwen25_7b/benchmark.py:672-680 | Truncating at S and then at T is truncating at the union of S and T |
| StopTokens.AssertNoSpecialTokens | examples/common/run_helpers.py:649-675 | It is clean exactly when no user has a special id before the first stop id, and otherwise counts such users in a failure when strict and in a warning when not |
| StopTokens.OffendsExactly | examples/common/run_helpers.py:642-668 | An output is flagged exactly when a special id stands in front of its first stop id |
| StopTokens.OffendersExactly | examples/common/run_helpers.py:660-668 | The count is the number of flagged users |
| StopTokens.AssertNoSpecialTokensQwen | examples/qwen25_7b/benchmark.py:646-685 | The two-stage guard is the shared guard with the turn markers added to the stop ids |
| StopTokens.FindGarbage | examples/common/run_helpers.py:1042-1080 | The eval check names the first user that the guard would count, and nobody exactly when the guard counts nobody |
| StopTokens.GarbageIsSpecial | examples/common/run_helpers.py:1040-1042 | After the cut, special ids minus stop ids flag the same outputs as all special ids |
| StopTokens.TwoStageOffenders | examples/qwen25_7b/benchmark.py:672-685 | Cutting every output first counts the same users as the union of the stop ids |
| LaneModel.LanesDoNotInteract | examples/common/run_helpers.py:991-998 | On a device with separate caches, cache and token of every lane are those of its prompt alone, whatever else is in the batch |
| LaneModel.StreamsAreLaneStreams | examples/common/run_helpers.py:991-998 | A user's stream depends on that user's prompt only, not on batch, slot or cardinality |
| LaneModel.LiftIgnoresIdle | examples/common/run_helpers.py:501-504 | Independent lanes meet the assumption on idle lanes |
| EvalRepeat.RunEvalRepeat | examples/common/run_helpers.py:973-1115 | The case succeeds exactly when its arguments and mode are valid, no repeat holds garbage, and (rotated prompts) at least two repeats agree on every prompt or (one prompt) all slots agree; the same in terms of the ids before each first stop id only, so nothing behind it matters; its own checks never raise an IndexError |
| EvalRepeat.GeneratedExactly | examples/common/run_helpers.py:1055-1074 | What a slot generates in one repeat: it is given the ids of the prompt rotated into it, its first token is the sampler's or the top-2 diagnostic's on the prefill logits, and token k is that of the chain after k steps, never pipelined, with margins exactly without sampling |
| EvalRepeat.TablesExactly | examples/common/run_helpers.py:1061 | The device of a repeat gets the page table as it is, or in prompt-stable mode with rows that follow their prompts |
| EvalRepeat.TextOfCut | examples/common/run_helpers.py:780-789 | The text that is compared is the decoder's text of the ids before the first stop id |
| EvalRepeat.SucceedsByCuts | examples/common/run_helpers.py:1040-1115 | For any cuts of the generated ids at their first stop ids, the verdict is that of the cuts: no special id in any, and one text wherever a prompt was run, or in all slots of a repeat |
| EvalRepeat.RunOnAgreeingPrefixes | examples/common/run_helpers.py:973-1115 | Repeats that agree on every prompt up to its first stop id succeed exactly if no special id stands before it, whatever follows |
| EvalRepeat.RunActive | examples/common/run_helpers.py:1055-1115 | The same for the prompts that are actually run, once the arguments are accepted |
| EvalRepeat.CheckedRepeat | examples/common/run_helpers.py:1056-1092 | One trip around the loop fails exactly on a bad mode, garbage or differing slots, and a differing slot comes with its full report |
| EvalRepeat.Conclude | examples/common/run_helpers.py:1100-1115 | Behind the loop it succeeds exactly when there was a repeat and, for rotated prompts, two or more that agree |
| EvalRepeat.CheckRepeats | examples/common/run_helpers.py:1100-1106 | On the records of the loop the cross-batch check accepts exactly the repeats that agree on every prompt, and never raises an IndexError |
| EvalRepeat.ActivePrompts | examples/common/run_helpers.py:1027-1037 | Which arguments are accepted, exactly; the prompts run are the given ones, or the chosen one in each active slot |
| EvalRepeat.RunRepeat | examples/common/run_helpers.py:1059-1085 | One repeat on a fresh device bound to the page table of that repeat yields the chain's tokens for the rotated prompts, their texts, margins exactly without device sampling, and the first garbage user |
| EvalRepeat.RunRepeats | examples/common/run_helpers.py:1055-1098 | The loop records every repeat's tokens, texts and margins, and stops exactly at a bad mode, garbage or differing slots |
| EvalRepeat.MismatchIsDescribed | examples/common/run_helpers.py:846-870 | Any mismatch between recorded repeats can be reported with tokens and margins in range |
| EvalRepeat.SlotIsDescribed | examples/common/run_helpers.py:905-918 | Any slot of a recorded repeat that differs from slot 0 can be reported with tokens and margins in range |
| EvalRepeat.RecordsAreDescribed | examples/common/run_helpers.py:1081-1106 | So no first mismatch of a recorded run makes the report fail |
| EvalRepeat.RepeatTextsAlone | examples/common/run_helpers.py:829-833 | If slots generate what their prompts generate alone, each repeat put back in prompt order has the texts of the prompts alone |
| EvalRepeat.RotatedAgree | examples/common/run_helpers.py:829-833 | So all repeats agree on every prompt |
| EvalRepeat.CleanExactly | examples/common/run_helpers.py:1076-1080 | A repeat is free of garbage if and only if no prompt generates any, whichever slots the prompts sit in |
| EvalRepeat.RunWithoutInterference | examples/common/run_helpers.py:973-1115 | No false alarm: where slots generate what their prompts generate alone, the case succeeds if and only if no prompt generates a special id before its first stop id, however the prompts rotate |
| EvalRepeat.RunOnIndependentLanes | examples/common/run_helpers.py:991-998 | So it does on a device that gives every lane a cache of its own |
| PooledDevice.RunOnPooledDevice | examples/common/run_helpers.py:1055-1108 | And so it does, in slot-stable and in prompt-stable mode alike, on a device that keeps all caches in one pool behind the page table of the repeat, when prompts and steps fit into the sequence length of the contiguous table |
| PooledDevice.PooledStreams | examples/common/run_helpers.py:521-530 | The stream of a prompt from the shared pool is the stream it has on a lane of its own, whatever the pool held before and the other lanes write |
| PooledDevice.ClampedPooledStreams | examples/qwen25_7b/benchmark.py:1085-1115 | With the clamped number of steps there is always room for that, whatever the prompts |
| PooledDevice.RoomExactly | examples/common/run_helpers.py:521-530 | A lane has that stream on every device (with integer entries and logits), whatever the pool held before, if and only if the entries that its steps read fit into its row |
| PooledDevice.NoRoomShows | examples/common/run_helpers.py:521-530 | Without room a device that echoes the newest entry leaves the stream the prompt has alone |
| PooledDevice.FirstStepWithoutRoom | examples/common/run_helpers.py:503-504 | The first step whose position has no cell is the one at the length of the row minus that of the prompt |
| PooledDevice.ReadLastWritten | examples/common/run_helpers.py:21-26 | Through any rolled table a lane reads what was last written for that lane and position |
| PooledDevice.PrefillView | examples/common/run_helpers.py:441-450 | After prefill a lane finds exactly the entries of its own prompt |
| PooledDevice.StepView | examples/common/run_helpers.py:521-529 | A decode call adds the lane's own new entry to what the lane sees and changes nothing below |
| PooledDevice.SlotKeptApart | examples/common/run_helpers.py:692-705 | The page table of every repeat keeps its lanes apart, in either mode |
| TokenizeBatch.TokenizePromptsToBatch | examples/llama3_8b/demo_utils.py:35-103 | The result is a rectangle whose row i is prompt i's prepared ids followed only by padding, as wide as the longest, with exact lengths between 1 and max_seq_len; after the first checks it fails only if no prepared rows have such lengths |
| TokenizeBatch.Clip | examples/llama3_8b/demo_utils.py:63-86 | Clipping keeps the end of a raw prompt, or re-encodes the shortened text to exactly the budget, and raises exactly when that is impossible |
| TokenizeBatch.PreparedExactly | examples/llama3_8b/demo_utils.py:57-86 | Prompt by prompt: if some prompt fits all rows are the plain encodings; otherwise raw rows are the last tokens of their encodings, and chat rows the template around as many last raw tokens as the template leaves room for, re-encoded to exactly the budget |
| TokenizeBatch.ShortenRaw | examples/llama3_8b/demo_utils.py:68-78 | Every prompt is cut to the end that fits beside its chat template; it raises exactly when some template leaves no room |
| TokenizeBatch.ShortestAndLongest | examples/llama3_8b/demo_utils.py:59-61 | The two lengths bound all prompts and are attained |
| TokenizeBatch.FillRectangle | examples/llama3_8b/demo_utils.py:100-103 | The in-place row writes produce the padded rectangle and leave no other cell touched |
| TokenizeBatch.ClippedRowsFit | examples/llama3_8b/demo_utils.py:63-90 | When clipping fires, every row plus the reserve is exactly max_seq_len, and a raw row is a proper suffix of its prompt |
| TokenizeBatch.RowsFitExactly | examples/llama3_8b/demo_utils.py:63-93 | Every row leaves room for the reserve if and only if clipping fired or no prompt exceeds the budget |
| TokenizeBatch.MixedBatchMayOverflow | examples/llama3_8b/demo_utils.py:63-93 | One short prompt beside one of full length: accepted, and without room for the reserve |
| LockNames.CanonicalIsCanonical | tools/validate_lockfiles.py:36-37 | A normalized name has no upper-case letter, no underscore or dot, and no two dashes in a row |
| LockNames.CanonicalSeparated | tools/validate_lockfiles.py:36-37 | Any run of separators becomes one dash between the normal forms of its two sides |
| LockNames.CanonicalPlain | tools/validate_lockfiles.py:36-37 | A name without separators keeps its length and every character, except that an upper-case letter becomes the lower-case form of the same letter |
| LockNames.SamePackageExactly | tools/build_dependency_locks.py:60-61 | Two names without separators are one package exactly when they differ in letter case only |
| LockNames.RequestedName | tools/build_dependency_locks.py:39 | The requested PyYAML is locked as pyyaml |
| LockNames.CanonicalIdempotent | tools/build_dependency_locks.py:60-61 | Normalizing twice is normalizing once, and exactly the normalized names are fixed |
| LockParser.ParseLock | tools/validate_lockfiles.py:40-59 | It succeeds exactly on texts with each option once, nothing editable, VCS or local outside comments, distinct names, as many requirements as lines that need one, and no entry for the project; the rows are the requirements found |
| LockParser.SpacesAndBreaks | tools/validate_lockfiles.py:45-46 | White space and line boundaries are the stated code points, and every line boundary is white space |
| LockScreen.AcceptsExactly | tools/validate_lockfiles.py:40-59 | A text is accepted exactly if the four options, spelled out, each occur once, no line is caught by the screen, names are distinct after normalization and none is tt-transformers, and the lines that need a requirement are the heads of the matches |
| LockScreen.ScreenExactly | tools/validate_lockfiles.py:45-47 | The search in the joined body finds something exactly if some line that is no comment has one of the nine tokens at its start or right behind white space |
| LockScreen.ScreenAppend | tools/validate_lockfiles.py:45-46 | White space between two pieces neither makes nor hides a forbidden token |
| LockScreen.CaughtIsRejected | tools/validate_lockfiles.py:46-47 | No text with such a line is accepted |
| LockScreen.AddedLineIsRejected | tools/validate_lockfiles.py:46-47 | Such a line behind any text makes it rejected |
| LockScreen.ExpectedExactly | tools/validate_lockfiles.py:54 | The lines that need a requirement are those that are not empty, no comment, no option and not indented |
| LockParser.CheckOptions | tools/validate_lockfiles.py:42-44 | It passes exactly when each option occurs once |
| LockParser.ParseRows | tools/validate_lockfiles.py:48-59 | It succeeds exactly for distinct normalized names, the expected number of rows, and none for the project |
| LockParser.FillRows | tools/validate_lockfiles.py:48-53 | The dictionary loop succeeds exactly for distinct keys and then holds every entry |
| LockParser.DictMapsTo | tools/validate_lockfiles.py:48-53 | For distinct keys the dictionary maps exactly those keys, each to its own value |
| LockSoundness.MatchFirstExact | tools/validate_lockfiles.py:30-33 | The matcher of a first line accepts exactly the lines that spell a proper name and version, in one way only |
| LockSoundness.MatchHashExact | tools/validate_lockfiles.py:30-33 | The matcher of a hash line accepts exactly the lines that spell a digest of 64 hexadecimal digits |
| LockSoundness.LinesContainHeads | tools/validate_lockfiles.py:49-56 | There are never fewer requirement lines than matches, and if equally many they are the matches' own first lines |
| LockSoundness.AcceptedTextIsFullyParsed | tools/validate_lockfiles.py:40-59 | In every accepted text, each line that is not empty, comment, option or indented is the first line of one well-formed requirement with its hash line, in order; normalized names are distinct, none is the project, and the rows are exactly these |
| LockSoundness.FoundExactly | tools/validate_lockfiles.py:30-33 | The pattern finds exactly the requirements of proper name, version and digest that stand on two consecutive lines of their own |
| LockSoundness.RowsExactly | tools/validate_lockfiles.py:48-53 | The rows of an accepted text are its requirements' versions and digests under their normalized names, and nothing else |
| LockPrinter.DigestExactly | tools/build_dependency_locks.py:103-107 | The digest is the one of the hashes table or, without one, what follows `sha256=`, and there is no other source |
| LockPrinter.CheckedItem | tools/build_dependency_locks.py:85-120 | An item passes exactly with a wheel from an approved host over https, no VCS or directory information, a SHA-256 digest and a name other than the project's; the package has its normalized name, its version, the index of the host and that digest |
| LockPrinter.TorchExactly | tools/build_dependency_locks.py:122-124 | The torch check passes exactly if there is a torch 2.11.0+cpu from the CPU index |
| LockPrinter.ReadItems | tools/build_dependency_locks.py:83-120 | It returns the checked packages of all items, and raises exactly when no such list with distinct names exists |
| LockPrinter.ParseReport | tools/build_dependency_locks.py:77-125 | The packages are a sorted rearrangement of the checked items, with distinct normalized names, proper digests and no project; it raises exactly for the wrong Python, a bad item or, when required, the wrong torch |
| LockPrinter.ReportedSorted | tools/build_dependency_locks.py:121 | Sorting keeps the guarantees of the report |
| LockPrinter.LockText | tools/build_dependency_locks.py:128-141 | The appended lines joined with newlines are the header and two lines per package, each ended by a newline |
| LockPrinter.PackageLinesAt | tools/build_dependency_locks.py:138-140 | Package i stands on lines 2i and 2i + 1 behind the header, spelled name==version with a backslash and the digest behind its prefix |
| LockOptions.HeaderCount | tools/build_dependency_locks.py:129-137 | Each required option stands exactly once in the header, whatever safe version and group it names |
| LockOptions.FirstLineCount | tools/build_dependency_locks.py:139 | In a requirement's first line only `--require-hashes` can occur, exactly as often as in the version |
| LockOptions.CountUnlines | tools/validate_lockfiles.py:42-44 | No option spans two lines, so counting in the text is counting line by line |
| LockRoundTrip.PrintedLines | tools/build_dependency_locks.py:128-141 | Both ways of splitting a printed lock give back its lines |
| LockRoundTrip.PrintedRequirements | tools/validate_lockfiles.py:49-55 | In a printed lock the pattern finds exactly the packages, in order, and equally many lines need one |
| LockRoundTrip.PrintedIsClean | tools/validate_lockfiles.py:45-47 | A printed lock never trips the screen for editable, VCS and local requirements |
| LockRoundTrip.PrintedOptionsOnce | tools/validate_lockfiles.py:42-44 | Each option occurs once in a printed lock if and only if no version contains `--require-hashes` |
| LockRoundTrip.RoundTripExactly | tools/validate_lockfiles.py:40-59 | For every report that passes, the printed lock parses to name -> (version, digest) if and only if names and versions are ones the pattern can spell and no version contains `--require-hashes` |
| LockRoundTrip.LockRowsExactly | tools/validate_lockfiles.py:48-53 | The rows that come back hold version and digest of every package under its name, and nothing else |
| LockRoundTrip.RegenerateAndValidate | tools/build_dependency_locks.py:158-161 | Reading a report, printing its lock and parsing it gives back the report's own items, under the same exact condition |
| LockRoundTrip.TargetsAreHeaderSafe | tools/build_dependency_locks.py:18-27 | The Python versions and groups of the eight targets are safe in the header |
| LockRoundTrip.SpacedVersionIsLost | tools/build_dependency_locks.py:87 | A report item whose version has a space passes all checks, but its lock does not come back |
| DegenerateOutput.TrigramLoopFraction | qualification/readiness/check_degenerate_output.py:113-130 | The fraction is what the scan covers of the first most frequent trigram, and zero below three tokens |
| DegenerateOutput.TopIsFirstInMostPlaces | qualification/readiness/check_degenerate_output.py:117-121 | In terms of positions and single tokens: the chosen trigram stands in more places than any other, or is the first of those that stand in most |
| DegenerateOutput.CoveredIsBestChoice | qualification/readiness/check_degenerate_output.py:122-130 | The fraction is that of a largest choice of places of the trigram no two of which overlap, three tokens each |
| DegenerateOutput.MostFrequent | qualification/readiness/check_degenerate_output.py:117-121 | The dictionary tally and max choose an item of the largest count, the first to occur among equals |
| DegenerateOutput.Tally | qualification/readiness/check_degenerate_output.py:117-120 | The dictionary counts every window so far and keeps the order of first occurrence |
| DegenerateOutput.GreedyIsDisjoint | qualification/readiness/check_degenerate_output.py:124-129 | The scan chooses pairwise disjoint occurrences |
| DegenerateOutput.GreedyIsMaximum | qualification/readiness/check_degenerate_output.py:124-129 | No set of pairwise disjoint occurrences is larger than the scan's choice |
| DegenerateOutput.CoverBounds | qualification/readiness/check_degenerate_output.py:124-129 | The chosen windows cover at least as many tokens as there are occurrences, and fit into the text |
| DegenerateOutput.TopUnique | qualification/readiness/check_degenerate_output.py:121 | There is only one first most frequent trigram, so the fraction is determined |
| DegenerateOutput.FractionBounds | qualification/readiness/check_degenerate_output.py:113-130 | From three tokens on the fraction lies in (0, 1], and the covered length between the overlapping count and the text length |
| DegenerateOutput.DoubledTextIsCritical | qualification/readiness/check_degenerate_output.py:105-110 | A text in which every token stands twice is critical from twenty tokens on, whatever it says |
| DegenerateOutput.DuplicatesExactly | qualification/readiness/check_degenerate_output.py:109 | The duplicates are the positions that repeat the token before them |
| DegenerateOutput.DuplicatedExactly | qualification/readiness/check_degenerate_output.py:182 | Critical means at least twenty tokens and more than a tenth of the pairs equal |
| DegenerateOutput.LoopingByPlaces | qualification/readiness/check_degenerate_output.py:199 | Advisory means at least fifty tokens and more than half of them under separate places of the chosen trigram |
| DegenerateOutput.TokensOfExactly | qualification/readiness/check_degenerate_output.py:142-151 | The tokens are the words of a text that is not blank, and otherwise the ids, if there are any |
| DegenerateOutput.ExitCodeExactly | qualification/readiness/check_degenerate_output.py:92-98 | 2 exactly with a critical finding, 1 exactly with advisory ones only, 0 exactly without findings |
| DegenerateOutput.AdvancingTextIsNotCritical | qualification/readiness/check_degenerate_output.py:105-110 | A text that never repeats a token at once is never critical |
| DegenerateOutput.ExitCodeAppend | qualification/readiness/check_degenerate_output.py:92-98 | The exit code of two reports in one is the worse of the two |
| DegenerateOutput.Report.CheckCompletion | qualification/readiness/check_degenerate_output.py:133-214 | One completion adds at most one finding, whose severity, metric and value are stated: advisory with its length for fewer than five characters, critical with the share of equal pairs for duplication, otherwise advisory with the covered share for a loop; the exit code only gets worse |
| ModelDirs.KeptIsAntichain | qualification/readiness/check_degenerate_output.py:330-332 | No kept directory lies inside another kept one |
| ModelDirs.EveryMatchIsCovered | qualification/readiness/check_degenerate_output.py:330-332 | Every match is kept or has a kept descendant |
| ModelDirs.ResolutionIsComplete | qualification/readiness/check_degenerate_output.py:325-338 | Directories are returned if and only if some candidate matched, and every match has a returned directory at or below it |
| ModelDirs.ResolutionExactly | qualification/readiness/check_degenerate_output.py:325-338 | The directories are exactly the matching candidates with no other match inside; without a match the candidates are told, if there are any |
| MeshOwnership.Host.OpenMeshDevice | examples/common/runtime.py:85-117 | Whatever raises, the session ends with nothing held and the lock free; the requested mesh is yielded exactly when nothing raised before the body |
| MeshOwnership.Host.Guarded | examples/common/runtime.py:95-110 | The guarded part leaves held exactly what it had opened when it raised or ended |
| MeshOwnership.Host.Cleanup | examples/common/runtime.py:111-117 | From whatever is held the cleanup reaches the clean state, closing in order |
| MeshOwnership.SessionIsLegal | examples/common/runtime.py:94-117 | Every session follows the ownership rules: lock first, fabric set before the parent opens, submesh closed before its parent, fabric reset before unlocking, unlocking last with nothing held |
| MeshOwnership.SubmeshSession | examples/common/runtime.py:94-117 | The calls of a session with fabric and submesh, in order, for every place where it may raise |
| MeshOwnership.PlainSession | examples/common/runtime.py:94-117 | The same for a mesh opened as it is, without a fabric |
| MeshOwnership.OtherSessions | examples/common/runtime.py:94-117 | The same for the other two combinations and for a request that is not supported |
| MeshOwnership.ProgramIsLegal | examples/common/runtime.py:85-117 | So does any sequence of sessions of one process |
| MeshOwnership.ParentContainsRequest | examples/common/runtime.py:72-82 | The parent contains the request and, a single chip aside, uses the whole system |
| MeshOwnership.ParentShapeExactly | examples/common/runtime.py:72-82 | A request is supported exactly if it is one chip, has as many chips as the system, or fits one way round or the other; which mesh is opened is stated for each case |
| MeshOwnership.RowOnTwoRows | examples/common/runtime.py:72-82 | On a system of (2, 4): (1, 8) is opened as it is, (1, 4) inside (2, 4), (4, 1) inside (4, 2), and (1, 6) not at all |
| MeshOwnership.SupportIgnoresOrientation | examples/common/runtime.py:72-82 | Whether a request is supported does not depend on which way round the system is reported |
| MeshOwnership.NextInv | examples/common/runtime.py:60-69 | Every step of any process keeps the lock's owner and all holdings consistent |
| MeshOwnership.MeshOwnersHoldTheLock | examples/common/runtime.py:85-117 | In every state of every interleaving of any number of processes and sessions, with faults anywhere, an open mesh or set fabric belongs to the owner of the lock, and a process that is done holds nothing |
| MeshOwnership.ActionsAreOwned | examples/common/runtime.py:85-117 | In every state of every interleaving the next action of a process finds what it needs: only the lock's owner touches the device, the fabric changes while no mesh is open, the body runs on an open mesh, a submesh closes before its parent, and unlocking comes last |
| MeshOwnership.NoDeadlock | examples/common/runtime.py:60-69 | While a process has something left to do, some process can act |
| MeshOwnership.RunsAreBounded | examples/common/runtime.py:60-69 | The steps taken and the actions left always add up to the length of all programs, so no run goes on forever |
| MeshOwnership.EveryRunFinishes | examples/common/runtime.py:60-69 | Every run extends to one of exactly that length in which every process is done |
| MeshOwnership.FinishedRunsAreClean | examples/common/runtime.py:85-117 | When everybody is done the lock is free and nothing is open |
| SdistNormalize.NormalizedMember | tools/normalize_sdist.py:18-38 | A safe member gets a fresh header that keeps name, mode, type, link and device numbers, with owner and time reset; an unsafe one raises |
| SdistNormalize.ReadMembers | tools/normalize_sdist.py:42-46 | The reading loop succeeds exactly when every name is safe and no read fails, and then pairs each normalized header with its own payload |
| SdistNormalize.SdistFile.Normalize | tools/normalize_sdist.py:41-61 | It succeeds exactly when all names are safe and no read or write step fails, and leaves the normal form, which has every member, multiplicities included, with its own data for the four file types, spelled out, and none for any other; on any failure the archive is what it was and no temporary file is left |
| SdistNormalize.SdistFile.WriteAndReplace | tools/normalize_sdist.py:48-61 | A fault at any write step leaves the old archive and no temporary file |
| SdistNormalize.NormalEntryForgetsOwnerAndTime | tools/normalize_sdist.py:24-38 | Two members become equal if and only if they differ in owner and time only |
| SdistNormalize.NormalFormConserves | tools/normalize_sdist.py:41-55 | The output has the same members with the same contents, multiplicities included, in name order |
| SdistNormalize.NormalFormWritesEveryMember | tools/normalize_sdist.py:24-46 | The output has every member as often as the input, field by field: files with all their data and its size, anything else empty with size 0 |
| SdistNormalize.FilesKeepTheirData | tools/normalize_sdist.py:34-46 | Every member that is a regular, old regular, contiguous or sparse file comes out with its name, mode, link name and data, and every other member with no data |
| SdistNormalize.SafeNameExactly | tools/normalize_sdist.py:18-21 | A name is safe exactly if it does not begin with a slash, has no backslash, and no two dots form a whole component |
| SdistNormalize.NormalFormCanonical | tools/normalize_sdist.py:53 | Two outputs agree if and only if, name by name, the normalized members agree in order |
| SdistNormalize.NormalFormIgnoresOrder | tools/normalize_sdist.py:41-55 | With distinct names two outputs agree if and only if the archives have the same contents up to order, owner and time |
| SdistNormalize.NormalFormIdempotent | tools/normalize_sdist.py:41-55 | Normalizing again equals normalizing once at the last epoch, repeated names included |
| SdistNormalize.RepeatedNameKeepsOrder | tools/normalize_sdist.py:53 | With a repeated name the order of the members does show in the output |
| StableSort.StableSortUnique | tools/normalize_sdist.py:53 | Ordering by key and keeping equal keys in their original order determine Python's sorted completely |
| StableSort.SortCanonical | tools/normalize_sdist.py:53 | Sorting gives equal results if and only if each key's elements agree in order |
| StableSort.SortSorted | tools/build_dependency_locks.py:121 | Sorting yields an ordered rearrangement |
| StableSort.LeqByFirstDifference | tools/normalize_sdist.py:53 | Names are ordered by the first character in which they differ, a proper prefix first |
| Text.PieceExactly | tools/normalize_sdist.py:20 | The pieces of a split are exactly the parts between separators or the ends |

## Left out

- Kernels, model construction, compilation, warm-up, trace capture and mesh composition: calls into code that is not part of this model; the device is the abstract one described above.
- DecodeDriver.RunPerfBenchmark: compilation and warm-up calls are not modelled, and the caches of the device are an arbitrary function of the calls; `PooledDevice` is the instance in which they sit in one pool behind the page table. The pool is modelled on values.
- PooledDevice.PooledStreams: attention is causal: an entry stands for what all layers keep of one position, a prompt's entries are a function of the prompt, and a later one of the lane's token and its earlier entries; a position behind the row has no cell, so nothing is written there and a blank is read.
- DecodeDriver.RunPerfBenchmark: without device sampling the device is assumed to return logits, so the branch for ready-made host tokens (run_helpers.py:569-571) and the layouts of legacy sampled tensors (run_helpers.py:322-336) are not modelled.
- DecodeDriver.RunPerfBenchmark: elapsed times are arbitrary numbers, so only the lengths of the time lists and the absence of a division by zero are stated; throughput figures, profiler calls and logging are not modelled.
- DecodeTheorems.AllModesReturnTheChain: argmax, top-2 selection and device sampler are three functions, because they may break ties differently; the theorem assumes that they choose alike.
- TeacherForcing.RunTeacherForcing: the target predicts every time from all caches; the requirement that all prompts have one length is the shape of the prompt tensor.
- EvalRepeat.RunEvalRepeat: prompts are not padded to one width, because prefill receives the lengths; the decoder returns a value, so the TypeError for a decoder that returns no string is not modelled.
- CrossBatch.AssertCrossBatchConsistency: prompt lengths in the message are not modelled; the text of a message stands for itself everywhere.
- CrossBatch.RotateBackFailures: the exception shows the first ten of the users only.
- Collecting stop ids and special ids from a tokenizer: the sets are parameters.
- LockNames.CanonicalPlain: lower-casing is modelled for ASCII letters, the alphabet of package names.
- LockNames.CanonicalIdempotent: the same.
- LockParser.ParseLock: reading the file translates carriage returns to newlines before the parser sees the text; in the model a carriage return is one more line boundary, and an empty last line is kept, which no check can tell.
- LockPrinter.ParseReport: JSON, URL parsing, the report's digest and the fields that the lock does not show are parameters or absent; the comparison of locks between targets (validate_lockfiles.py:73-113) is a table of single-branch checks.
- SdistNormalize.SdistFile.Normalize: tar and gzip encoding and sparse maps are not modelled; removing the temporary file is assumed to succeed.
- DegenerateOutput.Report.CheckCompletion: splitting into words and stripping are inputs, rounding of the reported values is not modelled; reading artifacts is left out.
- ModelDirs.ResolutionIsComplete: listing directories and comparing squashed names are parameters.
- MeshOwnership.Host.OpenMeshDevice: closing a mesh, resetting the fabric and unlocking are assumed not to fail; opening two meshes nested in one process is not modelled, and neither is the file system under the lock.
- The other benchmark files, which copy the clamp, the window selection and the tokenization; metric tables, target lookup, command lines, telemetry and environment switches: they would add single-branch claims only.
