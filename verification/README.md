# Verified models of StreamingLLM and vLLM algorithms

The project models the self-contained algorithms of a StreamingLLM port and of a vLLM fork, in the form the source
gives them (classes and loops where it updates in place, functions where it computes), and proves what they are for.

| module | models | main results |
|---|---|---|
| `GreedyCut`, `Batching` | the batching loop of the throughput benchmark | nothing is lost or reordered; no split into permitted batches makes fewer model calls |
| `NinjaLog`, `BuildTimes` | the build time report over a ninja log | the last build is a suffix of the log, grouped by command; the one-pass sweep equals the definition millisecond by millisecond; conservation of time |
| `Tensors`, `KvCache`, `StreamingRuns` | the attention-sink cache on row-major tensors, the chat loop and the perplexity loop | K and V of all layers stay aligned through any run; streaming equals one-shot; shape and size of the cache over whole chats |
| `Bits`, `ScalarTypes`, `FloatLimits` | packed ids and largest and smallest values of sub-byte types | the id is lossless exactly on the types that fit; the assembled double is exactly the largest finite value |
| `OutputValues`, `Outputs`, `OutputCollector` | merging streamed outputs in place, and the collector between producer and consumer | any run of merges in place reassembles every stream; grouping does not matter, so the collector loses nothing; exactly when an assertion fails |
| `BadWords` | the mask that bans token sequences | safety and exactness over whole generation runs |
| `GraphSizes` | CUDA graph capture sizes and the padding table | the table is "least captured size that fits"; the default sizes in closed form |
| `BackendOptions` | the backend option string | exactly which options can be read back after any run of calls; the canonical form exactly when all are plain |
| `ChatWindow` | the endless chat client | every request is the system prompt and the longest alternating window of the history |

Times of the ninja log are integral milliseconds, as parsed, and weights and logits are exact reals. Python exceptions
and failing assertions are result values. A forward pass of a model appends cache entries and picks the next token by
an arbitrary function; the tokenizer, the network and the text of later prompts are parameters.

## Where the code differs from what is said about it

- The largest finite value is wrong for exactly one family: IEEE types with a one-bit exponent, whose finite codes are
  all subnormal (`FloatLimits.MaxIsLargest`, `FloatLimits.OneBitExponent`).
- `evict_range` accepts negative bounds and then keeps too much or repeats positions, except in the cases of
  `KvCache.EvictRangeSeqLength`.
- `greedy_generate` fails for `max_gen_len` below 2 (`StreamingRuns.GreedyGenerate`); the evaluation loop scores one
  token under a limit below 1 (`StreamingRuns.EvalLongPpl`).
- The reported last build need not be the longest suffix that one build can have written
  (`NinjaLog.LastBuildNotLongest`); exactly when it is, `NinjaLog.LastBuildIsLongestIff` says, and it always is after a
  falling end time (`NinjaLog.FallingEndIsLongest`).
- The comment on the warning says half a second, the code compares seconds with 500 (`BuildTimes.SummarizeEntries`);
  being off by a whole second draws no warning (`BuildTimes.NoWarningForASecond`).
- Merging outputs is not associative when an output without log probabilities stands between two with some
  (`OutputValues.NotAssociativeWithHole`).
- The default V0 capture sizes are said to cover `max_num_seqs`; they do up to 8192 and, with the filter for sequence
  parallelism, as far as a size is left; if none is left, an index error follows (`GraphSizes.SetCudagraphSizes`,
  `GraphSizes.NothingLeftFor1025`).
- An option with a comma comes back in pieces, and one with a colon is cut off there and takes the options that sort
  after it along (`BackendOptions.OptionsOfAdded`, `BackendOptions.Survives`): adding "a:b" loses "no-fallback"
  (`BackendOptions.NoFallbackLost`), and then the order of the calls shows (`BackendOptions.OrderShows`).
- The chat client is said to keep the last `RECENT_CONTEXT_SIZE` messages; with an even size, as the
  one it sets, it keeps one less (`ChatWindow.WindowIsLongest`), and with 0 it never drops a message and repeats the
  system prompt (`ChatWindow.RequestIsPromptAndSuffix`).

## Model

| member | source | states |
|---|---|---|
| `GreedyCut.NoMorePieces` | vllm/benchmarks/benchmark_throughput.py:215-252 | If fitting is inherited by contiguous parts, no cutting of a sequence into fitting pieces has fewer pieces than one that closes a piece only when the next element does not fit; with as few, its last piece is no longer |
| `GreedyCut.StaysAhead` | vllm/benchmarks/benchmark_throughput.py:215-252 | The exchange argument: as long as greedy has covered at least as much as another cutting, it finishes in no more pieces |
| `GreedyCut.GreedyIsUnique` | vllm/benchmarks/benchmark_throughput.py:215-252 | A sequence has only one greedy cutting |
| `Batching.RunHf` | vllm/benchmarks/benchmark_throughput.py:212-252 | For any request list and any cap: the model calls concatenate to exactly the requests in order; in a call of several, no prompt length and output length together exceed 2048; a call closed below the cap has, with the next request, a pair that does; each is generated with the output length that one of its requests has and none exceeds |
| `Batching.GreedyIsOptimal` | vllm/benchmarks/benchmark_throughput.py:223-230 | No order-preserving split into permitted batches makes fewer model calls than the loop |
| `Batching.GreedyRunIsUnique` | vllm/benchmarks/benchmark_throughput.py:212-252 | The contract of the loop determines its result |
| `Batching.FitsIsHereditary` | vllm/benchmarks/benchmark_throughput.py:223-230 | Every contiguous part of a permitted batch is permitted |
| `Batching.PartMaxima` | vllm/benchmarks/benchmark_throughput.py:221-222 | The maxima of a part of a batch are at most those of the batch |
| `Batching.MaximaAre` | vllm/benchmarks/benchmark_throughput.py:221-222 | No element of a batch exceeds its maxima, and some element attains each |
| `Batching.CallMeans` | vllm/benchmarks/benchmark_throughput.py:223-244 | What one model call of the loop is, in literal lengths |
| `GreedyCut.PiecesAreSlices` | vllm/benchmarks/benchmark_throughput.py:215-252 | Pieces are the consecutive slices of what they concatenate to |
| `NinjaLog.ReadTargets` | vllm/tools/report_build_time_ninja.py:103-146 | The targets are the records of the last build (all records with show_all) grouped by command hash in order of first appearance, each with the interval of its first record and its outputs in order; malformed lines are skipped |
| `NinjaLog.ReadLine` | vllm/tools/report_build_time_ninja.py:112-145 | One line: malformed ones are skipped, others are read as records |
| `NinjaLog.RecordsAreEntries` | vllm/tools/report_build_time_ninja.py:112-121 | The records of a log are exactly its well-formed entries, unchanged, each once and in order |
| `NinjaLog.HashesInOrder` | vllm/tools/report_build_time_ninja.py:131-143 | Hashes are listed in the order of their first records |
| `NinjaLog.NamesAreOutputs` | vllm/tools/report_build_time_ninja.py:145-146 | The names of a hash are the outputs of its records, in order |
| `NinjaLog.TargetsAreRecords` | vllm/tools/report_build_time_ninja.py:131-146 | A target has the start and the end of the first record with its hash |
| `NinjaLog.RecordsAreListed` | vllm/tools/report_build_time_ninja.py:110-146 | The output of every reported record is listed under a target |
| `NinjaLog.ReadRecord` | vllm/tools/report_build_time_ninja.py:118-145 | One record: the reset rules keep the dictionary equal to the grouping of the last build read so far |
| `NinjaLog.AddRecord` | vllm/tools/report_build_time_ninja.py:142-145 | Filing a record under its hash extends the grouping by exactly that record |
| `NinjaLog.ReportedStep` | vllm/tools/report_build_time_ninja.py:122-141 | When the code forgets the earlier records: exactly when the end time goes back or the hash is known with another interval |
| `NinjaLog.CanGoOn` | vllm/tools/report_build_time_ninja.py:122-141 | Comparing with the previous end time and with one stored interval per hash decides whether all records so far and the new one can be from one build |
| `NinjaLog.LastBuildIsBuildSuffix` | vllm/tools/report_build_time_ninja.py:110-146 | What is reported is a suffix of the log in which end times never decrease and every hash has a single interval |
| `NinjaLog.BuildsAreGreedy` | vllm/tools/report_build_time_ninja.py:122-141 | The log falls into consecutive builds, a new one beginning only where the previous one cannot go on |
| `NinjaLog.FewestBuilds` | vllm/tools/report_build_time_ninja.py:122-141 | No reading of the log as consecutive builds has fewer builds, and one with as few reports at least the records reported here |
| `NinjaLog.OnlyGreedyReading` | vllm/tools/report_build_time_ninja.py:122-141 | The reported records are those of the only reading in which no build can take the record after it |
| `NinjaLog.LastBuildIsLongestIff` | vllm/tools/report_build_time_ninja.py:122-141 | The reported suffix is the longest that one build can have written if and only if the record before it has a later end than some record in it, or shares a hash with one in another interval |
| `NinjaLog.FallingEndIsLongest` | vllm/tools/report_build_time_ninja.py:122-129 | When a falling end time shows where the last build begins, the suffix is always the longest |
| `NinjaLog.LastBuildNotLongest` | vllm/tools/report_build_time_ninja.py:133-141 | Logs of three records for which it is not: the record with the changed interval forgets more than the one it clashes with |
| `NinjaLog.HashesOfRecords` | vllm/tools/report_build_time_ninja.py:131-143 | The listed hashes are those of the records, and a target has the interval of the earliest record with its hash |
| `NinjaLog.HashesDistinct` | vllm/tools/report_build_time_ninja.py:110-146 | No hash is listed twice |
| `NinjaLog.TargetsListEveryName` | vllm/tools/report_build_time_ninja.py:110-146 | The names listed over all targets are the outputs of the reported records, each as often as it was written |
| `NinjaLog.GroupingKeepsNames` | vllm/tools/report_build_time_ninja.py:145-146 | Grouping the outputs by hash loses and repeats none |
| `BuildTimes.SummarizeEntries` | vllm/tools/report_build_time_ninja.py:196-257 | For any list of tasks: it succeeds if and only if there is a task, none is listed twice and none ends before it starts; then every weighted duration is the sum over the milliseconds of the task of one over the number of tasks running, between 0 and the duration, the total is the number of busy milliseconds, the extremes are as EarliestIsMinStart and ExtremesBound say, and it warns if and only if the length between them and the busy time differ by more than 500 seconds; times may be negative |
| `BuildTimes.Sweep` | vllm/tools/report_build_time_ninja.py:228-254 | The one pass over sorted events gives every task its shares and the total of all, and leaves no task running; it fails (a missing key) exactly when some task is listed twice or ends before it starts |
| `BuildTimes.ProcessEvent` | vllm/tools/report_build_time_ninja.py:236-253 | What one event does to the accumulated time, the dictionary, the total and the task, and when it fails |
| `BuildTimes.Step` | vllm/tools/report_build_time_ninja.py:236-253 | One event keeps the dictionary equal to the running tasks for any list; with no task listed twice, also the accumulated time equal to the sum of shares up to now and the dictionary holding it as of each start |
| `BuildTimes.TrackedToTheEnd` | vllm/tools/report_build_time_ninja.py:236-254 | If every stop finds its task running, no task was listed twice or ends before it starts |
| `BuildTimes.CollectEvents` | vllm/tools/report_build_time_ninja.py:206-218 | The first loop: extremes, total duration and both events of every task |
| `BuildTimes.SteadyWhileWaiting` | vllm/tools/report_build_time_ninja.py:239-242 | Between two events the number of running tasks is the size of the dictionary, so the accumulated time grows by the elapsed time over that number |
| `BuildTimes.StopBeforeStart` | vllm/tools/report_build_time_ninja.py:221-226 | A stop that comes before its start belongs to a task that ends before it starts; simultaneous ones come start first |
| `BuildTimes.StartedEarlier` | vllm/tools/report_build_time_ninja.py:221-226 | The stop of a running task comes no earlier than its start |
| `BuildTimes.SortByKeySorts` | vllm/tools/report_build_time_ninja.py:222 | Sorting by time and action is a permutation in that order |
| `BuildTimes.CountRunning` | vllm/tools/report_build_time_ninja.py:239 | Counting the tasks that run at an instant is counting the dictionary |
| `BuildTimes.WeightedWithinDuration` | vllm/tools/report_build_time_ninja.py:73-88 | A weighted duration is never negative and never longer than the duration |
| `BuildTimes.RunningIsCount` | vllm/tools/report_build_time_ninja.py:229-254 | The number running in a millisecond is the number of listed tasks whose interval holds it |
| `BuildTimes.ShareOfOne` | vllm/tools/report_build_time_ninja.py:239-242 | In one millisecond each running task is charged one over their number |
| `BuildTimes.BusyIsCount` | vllm/tools/report_build_time_ninja.py:239-254 | The busy time is the number of milliseconds that are not idle |
| `BuildTimes.IdleMeans` | vllm/tools/report_build_time_ninja.py:239-254 | A millisecond is idle if and only if the interval of no task holds it |
| `BuildTimes.TotalDurationAdds` | vllm/tools/report_build_time_ninja.py:210-216 | The CPU time is the sum of end less start over the tasks |
| `BuildTimes.BusyWithinCpuTime` | vllm/tools/report_build_time_ninja.py:207-254 | The CPU time is never less than the busy time |
| `BuildTimes.Conservation` | vllm/tools/report_build_time_ninja.py:207-254 | The weighted durations of all tasks add up to the milliseconds in which some task runs |
| `BuildTimes.SharesHandedOut` | vllm/tools/report_build_time_ninja.py:228-254 | Exchanging the sums over tasks and over milliseconds: each busy millisecond is handed out exactly once |
| `BuildTimes.BusyWithinLength` | vllm/tools/report_build_time_ninja.py:218-257 | The busy milliseconds are at most the length, and equal to it if and only if there is no idle gap |
| `BuildTimes.EarliestIsMinStart` | vllm/tools/report_build_time_ninja.py:208-213 | The earliest time kept is the least start if and only if no start is negative or the last task has the least |
| `BuildTimes.EarliestAfter` | vllm/tools/report_build_time_ninja.py:208-213 | With negative starts, the earliest time kept is the least start of the tasks after the last negative one, or that one when none comes after it |
| `BuildTimes.ExtremesBound` | vllm/tools/report_build_time_ninja.py:208-215 | The extremes bound all tasks and are attained; the latest end starts from 0 |
| `BuildTimes.GapBetween` | vllm/tools/report_build_time_ninja.py:256-257 | For one task after another, the busy time is the length without the gap |
| `BuildTimes.NoWarningForASecond` | vllm/tools/report_build_time_ninja.py:256-257 | Two tasks with a second between them: the sum is off by a second and there is no warning |
| `BuildTimes.SummarizeLog` | vllm/tools/report_build_time_ninja.py:103-257 | Reading a log and summarizing it: the targets of the last build get their weighted durations |
| `Tensors.RowsAt` | streaming-llm/streaming_llm/kv_cache.py:4-20 | Viewing a row-major tensor along one axis finds the element at every multi-index |
| `Tensors.PickAt` | streaming-llm/streaming_llm/kv_cache.py:4-20 | Picking positions of one axis moves each element by one index remap of that axis |
| `Tensors.SliceOfPick` | streaming-llm/streaming_llm/kv_cache.py:4-13 | A slice (with Python bounds) of picked positions picks the slice of the positions |
| `Tensors.CatOfPicks` | streaming-llm/streaming_llm/kv_cache.py:48-54 | Joining two picks along the axis picks the joined positions |
| `Tensors.PickEverything` | streaming-llm/streaming_llm/kv_cache.py:4-13 | Picking all positions gives the tensor back |
| `Tensors.OffsetSplit` | streaming-llm/streaming_llm/kv_cache.py:4-13 | The row-major offset seen from any axis |
| `Tensors.FourAxes` | streaming-llm/streaming_llm/kv_cache.py:4-13 | The offset and the size of a tensor with four axes in plain arithmetic |
| `Tensors.PySliceMeans` | streaming-llm/streaming_llm/kv_cache.py:4-13 | What a slice gives for any bounds: negative ones count from the end, those out of range are clamped |
| `Tensors.FromOwnRows` | streaming-llm/streaming_llm/kv_cache.py:4-13 | A tensor is rebuilt from its rows along any axis |
| `KvCache.KeepAt` | streaming-llm/streaming_llm/kv_cache.py:48-61 | Slice-then-cat is one index remap of the sequence axis, element by element, on tensors of any shape and axis |
| `KvCache.CallAt` | streaming-llm/streaming_llm/kv_cache.py:40-64 | One call, element by element: up to start_size + recent_size nothing changes; above it every entry of every K and V is the input entry with the sequence index unchanged below start_size and moved by what was dropped from there on |
| `KvCache.CallFollows` | streaming-llm/streaming_llm/kv_cache.py:40-64 | If all K and V hold the same positions, the call leaves all of them with the same kept positions, also when their axes differ |
| `KvCache.EvictForSpaceFollows` | streaming-llm/streaming_llm/kv_cache.py:66-94 | The same for making room |
| `KvCache.EvictRangeFollows` | streaming-llm/streaming_llm/kv_cache.py:96-119 | The same for dropping a range; the assertion fails on tensors exactly when it fails on positions |
| `KvCache.AppendFollows` | streaming-llm/examples/run_streaming_llama.py:20-25 | A forward pass on q tokens appends the next q positions to every K and V |
| `KvCache.Step` | streaming-llm/streaming_llm/kv_cache.py:40-119 | One step of any kind on the tensors is the step on positions, failures included |
| `KvCache.Run` | streaming-llm/streaming_llm/kv_cache.py:40-119 | Through any run of forward passes and evictions of all three kinds, every K and every V of every layer holds exactly the positions of the run on positions |
| `KvCache.CallSeqKeepsEnds` | streaming-llm/streaming_llm/kv_cache.py:40-64 | The call keeps everything up to the cache size, else the first start_size and the last recent_size |
| `KvCache.EvictForSpaceSeqKeepsEnds` | streaming-llm/streaming_llm/kv_cache.py:66-94 | Making room keeps the first start_size and as many of the last as leave room, for any number coming |
| `KvCache.EvictRangeSeqDrops` | streaming-llm/streaming_llm/kv_cache.py:96-119 | With bounds in range exactly the positions from start to end are dropped, else the assertion fails |
| `KvCache.EvictRangeSeqLength` | streaming-llm/streaming_llm/kv_cache.py:100 | The assertion admits negative bounds; when the result is shorter by exactly end - start, as an if and only if |
| `KvCache.StreamingEqualsOneShot` | streaming-llm/streaming_llm/kv_cache.py:40-64 | evict(evict(a) + b) = evict(a + b) |
| `KvCache.StreamedTensorsEqualOneShot` | streaming-llm/streaming_llm/kv_cache.py:40-64 | On the tensors of all layers: any run of forward passes and evictions that ends with an eviction leaves exactly what one call on the whole history leaves |
| `KvCache.MixingDoesNotMatter` | streaming-llm/streaming_llm/kv_cache.py:40-64 | However forward passes and evictions are mixed, one more eviction leaves the same positions |
| `KvCache.ChunkingDoesNotMatter` | streaming-llm/examples/eval_long_ppl.py:80-93 | Feeding a history in any chunks, evicting after each, leaves what one eviction of the whole history leaves |
| `StreamingRuns.GreedyGenerate` | streaming-llm/examples/run_streaming_llama.py:19-57 | Each token is the choice after all before it, generation stops at the limit or the first end-of-sequence token, the cache has the prompt and all generated tokens but the last; below max_gen_len 2 it fails |
| `StreamingRuns.GreedyTurnMeans` | streaming-llm/examples/run_streaming_llama.py:19-57 | A turn in terms of the model alone: every token from all tokens before it, at least two and at most max_gen_len, ended by that or by the end-of-sequence token; everything but the last token is fed |
| `StreamingRuns.ChatAt` | streaming-llm/examples/run_streaming_llama.py:61-75 | Every turn of a chat: room is made for the prompt and max_gen_len tokens, the turn is greedy from what is left, and the cache after it is that with what the turn feeds |
| `StreamingRuns.TurnAt` | streaming-llm/examples/run_streaming_llama.py:61-75 | The history of the turns, prompt by prompt with the generated tokens but the last |
| `StreamingRuns.StreamingInference` | streaming-llm/examples/run_streaming_llama.py:61-75 | The loop over prompts: room is made before every turn, every turn is greedy, the cache is the recursion over the turns |
| `StreamingRuns.InferenceTurn` | streaming-llm/examples/run_streaming_llama.py:63-75 | One turn of the chat, from the cache of the turns before |
| `StreamingRuns.ChatCacheShape` | streaming-llm/examples/run_streaming_llama.py:61-75 | After any turns, with any early stops, the cache is the full fed history or its first start_size positions followed by a contiguous suffix of it |
| `StreamingRuns.ChatMirrored` | streaming-llm/examples/run_streaming_llama.py:61-75 | The tokens at the positions that the run of the chat on positions holds are the cache of the chat, so that the tensors of all layers hold their entries |
| `StreamingRuns.EvaluationMirrored` | streaming-llm/examples/eval_long_ppl.py:80-93 | The same for the evaluation |
| `StreamingRuns.UnboundedChat` | streaming-llm/examples/run_streaming_llama.py:69-71 | Without a cache policy nothing is dropped |
| `StreamingRuns.TurnWithinCacheSize` | streaming-llm/examples/run_streaming_llama.py:69-75 | Exactly when a turn generated to the limit stays within the cache size |
| `StreamingRuns.ChatWithinCacheSize` | streaming-llm/examples/run_streaming_llama.py:61-75 | If every prompt with max_gen_len fits the recent part or misses it by one, the cache never exceeds the cache size, however generation stops |
| `StreamingRuns.EvalLongPpl` | streaming-llm/examples/eval_long_ppl.py:70-103 | Evaluating and evicting token by token, across texts, scores every token as one eviction of the whole history before it would, for exactly the tokens that the limit allows: target by target, and without a policy each in the context of all input tokens up to its own |
| `StreamingRuns.ScoreAt` | streaming-llm/examples/eval_long_ppl.py:78-93 | The context of any scored token, with or without a policy: all inputs so far, or the first start_size, the last recent_size and the token itself |
| `StreamingRuns.PairAt` | streaming-llm/examples/eval_long_ppl.py:70-80 | The pairs of input and target are the neighbouring tokens of every text, in order |
| `StreamingRuns.EvalText` | streaming-llm/examples/eval_long_ppl.py:78-101 | The loop over one text keeps the cache equal to one eviction of everything fed so far |
| `ScalarTypes.Id` | vllm/vllm/scalar_type.py:134-161 | The accumulated value is the fields, each reduced to its width, one above the other |
| `ScalarTypes.OrAndAdvance` | vllm/vllm/scalar_type.py:144-149 | Masking, shifting and or-ing a member adds it above the fields so far, also a negative one |
| `ScalarTypes.UnpackPacked` | vllm/vllm/scalar_type.py:141-156 | Every field of a packed value can be read back up to its width, and the value fits the total width |
| `ScalarTypes.IdBound` | vllm/vllm/scalar_type.py:158-161 | Every id is below 2 to the 58 |
| `ScalarTypes.FromIdOfId` | vllm/vllm/scalar_type.py:134-161 | Decoding the id gives the type back if and only if its members fit: exponent and mantissa 8 bits, bias signed 32 bits |
| `ScalarTypes.SameIdIffCongruent` | vllm/vllm/scalar_type.py:134-161 | Two types share an id if and only if their members agree up to the field widths |
| `ScalarTypes.FieldsLayout` | vllm/vllm/scalar_type.py:151-156 | The six fields have the widths 8, 8, 1, 32, 1, 8 and hold the members modulo these |
| `ScalarTypes.IdFormula` | vllm/vllm/scalar_type.py:134-161 | The id as a number: each member modulo its width, times its power of two |
| `Bits.AndOfMask` | vllm/vllm/scalar_type.py:145-148 | Masking with w ones is the remainder of 2 to the w, of negative numbers too (with LowBitsIsRemainder) |
| `Bits.LowBitsIsRemainder` | vllm/vllm/scalar_type.py:145-148 | The low bits of any integer are its remainder |
| `Bits.OrOfFields` | vllm/vllm/scalar_type.py:101-102 | Or-ing a low field with a shifted one is adding them |
| `Bits.CutJoined` | vllm/vllm/scalar_type.py:101-102 | Two joined fields can be taken apart again |
| `FloatLimits.FloatingPointMaxInt` | vllm/vllm/scalar_type.py:69-102 | The pattern built step by step is the fields of the largest code, re-biased and shifted to where a double has them; it fails exactly when a double has no room |
| `FloatLimits.DecodeWideBits` | vllm/vllm/scalar_type.py:99-106 | Read back as a double (or any wider IEEE format) the pattern is the largest magnitude, exactly |
| `FloatLimits.ScaledBetween` | vllm/vllm/scalar_type.py:104-106 | Scaling is multiplication by powers of two |
| `FloatLimits.MagnitudeMeans` | vllm/vllm/scalar_type.py:104-106 | The magnitude of a code in plain multiplication: twice the mantissa for a subnormal, else the mantissa with its leading one times two to the exponent, over the scale of the format |
| `FloatLimits.DoubleMeans` | vllm/vllm/scalar_type.py:104-106 | What any 64 bits stand for as a double: 52 bits of mantissa, 11 of exponent, the sign on top |
| `FloatLimits.DecodedValue` | vllm/vllm/scalar_type.py:11-18 | The value of every finite code in plain multiplication |
| `FloatLimits.LargestMeans` | vllm/vllm/scalar_type.py:69-106 | The largest magnitude in plain multiplication: the top fields over the scale of the type |
| `FloatLimits.LimitOfFloat8` | vllm/vllm/scalar_type.py:316 | float8_e4m3fn ends at 448 |
| `FloatLimits.SignBitNegates` | vllm/vllm/scalar_type.py:116-124 | With the sign bit set it is the negated value |
| `FloatLimits.MaxIsLargest` | vllm/vllm/scalar_type.py:69-106 | The decoded pattern is attained by a finite code and no finite code, subnormals included, is larger, for IEEE, extended-range NaN and no-NaN types, signed or not, if and only if the type is not an IEEE type with a one-bit exponent |
| `FloatLimits.OneBitExponent` | vllm/vllm/scalar_type.py:78-84 | The exception: an IEEE type with a one-bit exponent has only subnormal codes, all below the pattern |
| `FloatLimits.NoLargerCode` | vllm/vllm/scalar_type.py:69-106 | No finite code lies above the largest one: codes are ordered by exponent, then mantissa |
| `FloatLimits.MinIsSmallest` | vllm/vllm/scalar_type.py:116-124 | The decoded pattern with the sign bit is exactly the smallest finite value of a signed type, with the same exception |
| `FloatLimits.Mirror` | vllm/vllm/scalar_type.py:116-124 | The negation of the largest value is the smallest |
| `FloatLimits.Max` | vllm/vllm/scalar_type.py:108-114 | max: the decoded pattern less the bias for floating types, the largest two's complement code less the bias for integer types, and exactly the failing assertions |
| `FloatLimits.Min` | vllm/vllm/scalar_type.py:116-132 | min: the negated largest value less the bias for signed floating types, the smallest code less the bias for integer types, and exactly the failing assertions |
| `FloatLimits.LargestInt` | vllm/vllm/scalar_type.py:111-114 | The integer maximum is attained and not exceeded by any code |
| `FloatLimits.SmallestInt` | vllm/vllm/scalar_type.py:126-132 | The integer minimum is attained and not undercut by any code |
| `OutputValues.MergeReassembles` | vllm/vllm/outputs.py:142-165 | Folding any sequence of deltas gives one completion per index in order of first arrival, with all text, tokens and log probabilities of the index in arrival order and the rest from its last delta (the last delta alone without aggregate) |
| `OutputValues.StreamsAdd` | vllm/vllm/outputs.py:147-152 | Texts, tokens and log probabilities are joined in order of arrival |
| `OutputValues.FirstArrivals` | vllm/vllm/outputs.py:139-165 | The indices stand in the order in which each arrived first |
| `OutputValues.IndicesDistinct` | vllm/vllm/outputs.py:143-165 | Indices stay unique |
| `OutputValues.MergeOkIff` | vllm/vllm/outputs.py:152-155 | Aggregating fails if and only if for some index the first delta has no log probabilities and a later one has some |
| `OutputValues.GroupingDoesNotMatter` | vllm/vllm/outputs.py:137-165 | Coalescing any run of consecutive deltas first gives the same outputs and the same failures, provided that (when aggregating) the run itself can be merged |
| `OutputValues.MergeAssociative` | vllm/vllm/outputs.py:137-165 | Adding c to b and the result to a is adding b and then c to a, provided c can be added to b; failures agree |
| `OutputValues.NotAssociativeWithHole` | vllm/vllm/outputs.py:152-155 | The exception: an output without log probabilities in the middle hides a failure |
| `OutputValues.PutAssociative` | vllm/vllm/outputs.py:145-162 | One completion: replacing is associative, and so is merging, failures included, provided the two later completions can be merged by themselves |
| `OutputValues.WholeOfCoalesced` | vllm/vllm/outputs.py:145-162 | Coalescing deltas of one index first makes no difference, provided they can be merged by themselves |
| `OutputValues.MergeConcat` | vllm/vllm/outputs.py:142-165 | Adding two outputs one after the other is adding their concatenation |
| `Outputs.CompletionOutput.Absorb` | vllm/vllm/outputs.py:147-159 | The in-place update of a completion, and when its assertion fails |
| `Outputs.RequestOutput.Add` | vllm/vllm/outputs.py:137-165 | The mutating merge computes the fold on values; completions are kept in place and stay different objects, and new ones are shared, not copied |
| `Outputs.RequestOutput.AddAll` | vllm/vllm/outputs.py:142-165 | The nested loops, with completions that were appended in the same call merged into later |
| `Outputs.RequestOutput.Place` | vllm/vllm/outputs.py:143-165 | One completion: merged into or replacing the first one with its index, or appended |
| `Outputs.AddEach` | vllm/vllm/outputs.py:137-165 | Any run of merges in place, on objects shared with the earlier outputs: the result is one merge of everything that ever arrived, failures included, and from an empty output the reassembled streams |
| `OutputCollector.RequestOutputCollector.Put` | vllm/vllm/v1/engine/output_processor.py:34-42 | The collector stores the first output itself and merges later ones into it in place |
| `OutputCollector.RequestOutputCollector.GetNowait` | vllm/vllm/v1/engine/output_processor.py:54-62 | The waiting output is handed over and no longer waits |
| `OutputCollector.CollectorLosesNothing` | vllm/vllm/v1/engine/output_processor.py:20-62 | However producer and consumer interleave, merging what was handed over and what still waits gives what merging everything put in gives, failures included, provided no merge in the collector fails and no output has an index twice |
| `OutputCollector.CollectedKeepsAll` | vllm/vllm/v1/engine/output_processor.py:34-62 | At any time the waiting output is the merge of what was put in since the last hand-over, and what was handed over merges to everything put in before |
| `Outputs.EarlierOutputGrows` | vllm/vllm/outputs.py:165 | A caller that keeps an earlier output sees its completion grow |
| `BadWords.NoBadWordsLogitsProcessor.Call` | vllm/vllm/logits_process.py:58-88 | Every call masks exactly the tokens that would complete a banned word and changes no other logit; it fails exactly for banned tokens outside the vocabulary or an empty banned word |
| `BadWords.MaskedMeans` | vllm/vllm/logits_process.py:58-88 | A logit is minus infinity if the token is the last of a banned word whose other tokens have just been produced, and unchanged otherwise |
| `BadWords.BadWordFreeMeans` | vllm/vllm/logits_process.py:50-88 | Free of bad words means that no slice of the output is one |
| `BadWords.NoBadWordsLogitsProcessor.InitWordBias` | vllm/vllm/logits_process.py:90-105 | The lazy bias masks exactly the one-token words, or the bounds check fails and it stays unset |
| `BadWords.NoBadWordsLogitsProcessor.CheckTokenIdsBounds` | vllm/vllm/logits_process.py:107-121 | The check passes if and only if every banned token is in the vocabulary |
| `BadWords.NoBadWordsLogitsProcessor.LastTokenBias` | vllm/vllm/logits_process.py:66-84 | The per-step bias masks exactly the tokens that complete a longer word |
| `BadWords.BlockedSplit` | vllm/vllm/logits_process.py:68-84 | A token is blocked by a one-token word or by a longer one |
| `BadWords.CompletedBy` | vllm/vllm/logits_process.py:75-84 | A longer word is completed by exactly its last token after its other tokens |
| `BadWords.NoBadWordOccurs` | vllm/vllm/logits_process.py:50-88 | Safety: in any run that samples only tokens with a logit left, no banned word occurs as a contiguous block |
| `BadWords.EverythingElseIsPossible` | vllm/vllm/logits_process.py:50-88 | Exactness: with finite logits every output without a banned word stays possible |
| `GraphSizes.CompilationConfig.InitWithCudagraphSizes` | vllm/vllm/config.py:3668-3715 | For any sizes in any order, user-given ones taking precedence: the captured sizes are the same set in descending order and entry bs of the table is the least of them and 0 that is at least bs |
| `GraphSizes.FillTable` | vllm/vllm/config.py:3703-3715 | The nested loops over neighbouring sizes fill exactly that table, also for repeated sizes and no sizes |
| `GraphSizes.SortDescending` | vllm/vllm/config.py:3698-3701 | Sorting is a descending permutation |
| `GraphSizes.CompilationConfig.PadForCudagraph` | vllm/vllm/config.py:3854-3859 | The lookup agrees with a search for the least captured size that fits, and fails exactly when none does |
| `GraphSizes.TableIsClosure` | vllm/vllm/config.py:3703-3715 | Padding is monotone and idempotent and its fixed points are exactly 0 and the captured sizes |
| `GraphSizes.TableIsUnique` | vllm/vllm/config.py:3668-3715 | Neither order nor repetitions of the sizes show in the table |
| `GraphSizes.UpdateSizesForSequenceParallelism` | vllm/vllm/config.py:4023-4041 | Exactly the multiples of the tensor parallel size stay, each as often as in the list and in its order, for every list |
| `GraphSizes.SetCudagraphSizes` | vllm/vllm/config.py:4043-4120 | Which sizes are captured, strictly descending: V0 every candidate left that no smaller one makes needless, V1 every one within max_num_batched_tokens, none without a model, without a scheduler or when the model runs eagerly; V0 fails if and only if it captures and the filter leaves nothing, even when the user gave sizes |
| `GraphSizes.NothingCaptured` | vllm/vllm/config.py:4071-4108 | Without a model or a scheduler, or in eager mode, the default sizes are none |
| `GraphSizes.RoundUpIsLeast` | vllm/vllm/config.py:4078 | Rounding up gives the least of 0, 1, 2, 4 and the multiples of 8 that holds the batch |
| `GraphSizes.CutAtFirstLarger` | vllm/vllm/config.py:4085-4101 | Cutting at the first size of at least max_num_seqs, or at the last |
| `GraphSizes.DefaultTableRoundsUp` | vllm/vllm/config.py:4071-4120 | Without the filter padding rounds up to 1, 2, 4 or a multiple of 8, wasting at most 7; V0 covers exactly up to max_num_seqs so rounded, as far as 8192; V1 never exceeds max_num_batched_tokens and could not capture more |
| `GraphSizes.FilteredTableSplitsEvenly` | vllm/vllm/config.py:4080-4117 | With the filter every padded size is a multiple of the tensor parallel size; V0 then covers max_num_seqs if and only if some size left does |
| `GraphSizes.FilteredTableRoundsUp` | vllm/vllm/config.py:4080-4117 | With the filter, batches above 4 are padded to the least common multiple of 8 and the tensor parallel size that holds them, by less than any common multiple |
| `GraphSizes.SomeSizeIsKept` | vllm/vllm/config.py:4079-4094 | The filter leaves something if and only if it leaves a multiple of 8, always so up to as many ranks as there are multiples |
| `GraphSizes.NothingLeftFor1025` | vllm/vllm/config.py:4094 | With 1025 ranks nothing is left, and taking the last size fails |
| `BackendOptions.GuidedDecodingParams.AddOption` | vllm/vllm/sampling_params.py:85-94 | For any backend and any option, all three branches write the canonical form; the name stays; what parses back is OptionsAfter, which is the sorted set of the old ones and the new one if and only if the option has no colon and no comma |
| `BackendOptions.OptionsOfAdded` | vllm/vllm/sampling_params.py:79-94 | Which options parse back after adding any option: those that sort before it, its pieces at commas up to its first colon, and, only if it has no colon, those that sort after it |
| `BackendOptions.Survives` | vllm/vllm/sampling_params.py:85-94 | An earlier option is lost if and only if the new one has a colon, does not sort after it and does not repeat it before the colon |
| `BackendOptions.NoFallbackOverRuns` | vllm/vllm/sampling_params.py:85-99 | After any calls the no-fallback option is found if and only if it lasts in the sense of OptionsOverRuns; with plain options, if and only if it was there before or one of the calls added it |
| `BackendOptions.NoFallbackLost` | vllm/vllm/sampling_params.py:85-99 | After adding "a:b" it is never there |
| `BackendOptions.CanonicalForm` | vllm/vllm/sampling_params.py:85-94 | After any number of calls on any backend the name is the same, and the backend is the name, a colon and the comma-join of the sorted set of all options, which parses back, if and only if every option is free of colons and commas |
| `BackendOptions.OptionsOverRuns` | vllm/vllm/sampling_params.py:79-94 | After any calls, in any order, an option parses back if and only if it was there and every call keeps it, or some call gives it and every call from there on keeps it |
| `BackendOptions.OptionsOverCall` | vllm/vllm/sampling_params.py:79-94 | One call: what parses back is what was there and is kept, and what is given |
| `BackendOptions.OrderDoesNotMatter` | vllm/vllm/sampling_params.py:85-94 | With options free of colons and commas neither the order of the calls nor repeated ones show |
| `BackendOptions.OrderShows` | vllm/vllm/sampling_params.py:85-99 | With an option that has a colon order shows: "no-fallback" stays after "a:b" and is lost before it |
| `BackendOptions.ParseCanonical` | vllm/vllm/sampling_params.py:71-83 | The canonical form parses back if and only if every option is free of colons and commas |
| `BackendOptions.SplitJoined` | vllm/vllm/sampling_params.py:77-83 | Joining and splitting give the pieces back if and only if there are some and none has the separator |
| `BackendOptions.SplitJoin` | vllm/vllm/sampling_params.py:77-83 | Splitting joined parts gives the pieces of all parts in order |
| `BackendOptions.JoinedSplit` | vllm/vllm/sampling_params.py:77-83 | Splitting and joining give the string back |
| `BackendOptions.PiecesOfSplit` | vllm/vllm/sampling_params.py:77-83 | No piece has the separator or a character the string lacks; a string without the separator is its only piece |
| `BackendOptions.SortedIsUnique` | vllm/vllm/sampling_params.py:92-94 | A set has one sorted list |
| `BackendOptions.SortStrings` | vllm/vllm/sampling_params.py:94 | Sorting a set gives that list, whatever order its elements come in |
| `BackendOptions.LessMeans` | vllm/vllm/sampling_params.py:94 | The order of strings: after a common prefix one ends or has the smaller character |
| `BackendOptions.NameMeans` | vllm/vllm/sampling_params.py:71-75 | The name is the text before the first colon |
| `BackendOptions.OptionsMean` | vllm/vllm/sampling_params.py:77-83 | The options are the pieces at commas of the text between the first two colons |
| `ChatWindow.ChatClient.Converse` | endless_chat_client.py:59-105 | Every request of every turn is the system prompt and the window of the history so far; an exception ends the loop with the history of the completed turns |
| `ChatWindow.ChatClient.Turn` | endless_chat_client.py:60-105 | One turn keeps the context the system prompt and the end of the history |
| `ChatWindow.ManagedIsRequest` | endless_chat_client.py:36-48 | Truncating the context by its own length and first role gives the window of the full history |
| `ChatWindow.WindowIsLongest` | endless_chat_client.py:40-48 | The window is the whole history while it fits, else the longest odd-length suffix that does; it starts and ends with the user and alternates; once the history no longer fits it holds k messages if and only if k is odd, and else k - 1 |
| `ChatWindow.RequestIsPromptAndSuffix` | endless_chat_client.py:41-48 | A request is the system prompt and a suffix of the history if and only if the window size is not 0, where list[-0:] is the whole list |
| `ChatWindow.RequestMeans` | endless_chat_client.py:36-48 | Every request message by message, for every window size: which messages of the history and how many prompts |
| `ChatWindow.HistoryAlternates` | endless_chat_client.py:56-94 | The full history alternates from the first prompt to the last |
| `ChatWindow.HistoryMessage` | endless_chat_client.py:56-94 | The full history message by message |
| `ChatWindow.Received` | endless_chat_client.py:75-81 | An answer is the concatenation of its chunks, those without content skipped |
| `ChatWindow.TextAdds` | endless_chat_client.py:75-81 | An answer joins its chunks in order, and one without content adds nothing |
| `ChatWindow.AnswerAt` | endless_chat_client.py:61-105 | Turns complete up to the first failure |

## Left out

- BuildTimes.SummarizeEntries: the division by a length of 0 when it prints parallelism, and everything printed after the warning, is not modelled.
- NinjaLog.ReadTargets: the header check and the splitting of lines into fields are not modelled; command hashes are numbers.
- Batching.RunHf: tokenizing, generating and timing are not modelled, only what is generated with which length.
- KvCache.Run: the tensors come with their sequence axis and at least one layer; the lookup table that admits only axes 1 to 3 is not modelled, the results hold for every axis.
- StreamingRuns.EvalLongPpl: the loss is kept as the context and the target it is computed from; its value, the mean and the files written are not modelled.
- StreamingRuns.GreedyGenerate: printing the text piece by piece is not modelled, only whether there is a text to print.
- FloatLimits.MaxIsLargest: `float_` also builds types that say they have infinities beside a non-IEEE NaN rule; no code is documented for those, so every code but the NaN counts as finite. IEEE types without infinities, which no constructor function builds, are excluded; `has_nans`, `is_ieee_754` and `__str__` are left out.
- FloatLimits.FloatingPointMaxInt: a floating type has at least one mantissa bit, as both constructor functions assert.
- FloatLimits.Max: reading eight bytes as a double is modelled by the IEEE 754 meaning of the bits.
- Outputs.RequestOutput.Add: the completions of the two outputs are distinct objects; the state after a failed assertion is not described, and token lists shared between completions are values here.
- OutputCollector.RequestOutputCollector.Put: exceptions put into the collector and the event that wakes the consumer are left out.
- OutputValues.MergeReassembles: the fields `lora_request` and those of the request other than `finished` are never touched by the merge and are left out.
- BadWords.NoBadWordsLogitsProcessor.Call: a logit is minus infinity or finite, and later calls have the vocabulary size of the first; turning bad words into token ids with a tokenizer is left out.
- GraphSizes.CompilationConfig.InitWithCudagraphSizes: sizes are not negative; `compile_sizes` and the sharing of the runner's list, which is sorted in place, are left out.
- BackendOptions.GuidedDecodingParams.AddOption: strings are sequences of Unicode scalar values, ordered by code point.
- ChatWindow.ChatClient.Converse: printing, statistics and waiting are left out; the number of turns is the number of replies, and an exception may only come from the request or its stream.
- The wrappers of kernels, the memory allocator, HTTP servers and clients, the schedulers and the other validation of configurations.
