/**
What the three decode modes have in common, and where a run writes its cache
(examples/common/run_helpers.py, examples/qwen25_7b/benchmark.py).
*/
module DecodeTheorems {
  import opened Prelude
  import opened DecodeChain
  import opened DecodeDriver
  import opened PageTable
  import opened PrefillBucket

  const HOST_ARGMAX := Options(false, false, false, false, false)
  const DEVICE_SAMPLING := Options(true, true, false, false, false)
  const PIPELINED := Options(true, true, true, true, false)

  /** Some lane is idle, some is active, and a second step reads what the first one fed to the idle lane. */
  predicate IdleFeedMatters(lens: seq<nat>, maxBatchSize: nat, n: nat) {
    0 < |lens| < maxBatchSize && n > 1
  }

  /**
   Two modes return the same streams whichever of argmax, top-2 diagnostic and device sampler picks the tokens,
   when both sample or neither does, or no idle lane can matter, or the device ignores idle lanes.
   */
  lemma ChainsAgree<K(!new), L(!new)>(
    m: Model<K, L>, tokens: seq<seq<int>>, lens: seq<nat>, maxBatchSize: nat, a: Options, b: Options, n: nat)
    requires SamplesAsHost(m)
    requires a.sampling == b.sampling || !IdleFeedMatters(lens, maxBatchSize, n) || IgnoresIdle(m)
    ensures BenchmarkRun(m, tokens, lens, maxBatchSize, a).Streams(AllSteps(n))
         == BenchmarkRun(m, tokens, lens, maxBatchSize, b).Streams(AllSteps(n))
  {
    var x := BenchmarkRun(m, tokens, lens, maxBatchSize, a);
    var y := BenchmarkRun(m, tokens, lens, maxBatchSize, b);
    assert x.first == y.first;
    forall l ensures x.pick(l) == y.pick(l) {
      assert m.sample(l) == m.argmax(l) == m.top1(l);
    }
    if a.sampling == b.sampling || |lens| >= maxBatchSize || IgnoresIdle(m) {
      StreamsIgnoreIdleFeed(x, y, AllSteps(n));
    } else {
      forall u | 0 <= u < |lens| ensures x.Stream(AllSteps(n), u) == y.Stream(AllSteps(n), u) {
        FirstStepAgrees(x, y, n, u);
      }
    }
  }

  /** The first step has the same input in every mode. */
  lemma {:induction false} FirstStepAgrees<K, L(!new)>(x: Run<K, L>, y: Run<K, L>, n: nat, u: nat)
    requires SameBatch(x, y) && n <= 1 && u < |x.lens|
    ensures x.Stream(AllSteps(n), u) == y.Stream(AllSteps(n), u)
  {
    var p := x.At(0);
    assert x.At(0) == y.At(0) && x.LogitsFrom(p, 0, u) == y.LogitsFrom(p, 0, u);
    assert x.pick(x.LogitsFrom(p, 0, u)) == y.pick(y.LogitsFrom(p, 0, u));
    assert x.Token(0, u) == y.Token(0, u);
  }

  /** A pipelined run consumes a read of a target that normalizes it, and some lane has no user. */
  predicate HasSurplusTokens(o: Options, normalizes: bool, users: nat, maxBatchSize: nat, n: nat) {
    o.CanPipeline() && normalizes && users < maxBatchSize && n > 0
  }

  ghost predicate AllArrive(hostPresent: nat -> bool, eventsPresent: nat -> bool, n: nat) {
    forall k: nat :: k < n ==> hostPresent(k) && eventsPresent(k)
  }

  /** When all reads arrive, surplus tokens are all that can go wrong while reading. */
  lemma ArrivedReads(
    o: Options, normalizes: bool, users: nat, maxBatchSize: nat, hostPresent: nat -> bool,
    eventsPresent: nat -> bool, n: nat)
    requires AllArrive(hostPresent, eventsPresent, n)
    ensures !DrainFails(o, hostPresent, eventsPresent, n)
    ensures RowOverflows(o, normalizes, users, maxBatchSize, hostPresent, eventsPresent, n)
       <==> HasSurplusTokens(o, normalizes, users, maxBatchSize, n)
  {
    if n > 0 {
      assert hostPresent(n - 1) && eventsPresent(n - 1);
    }
  }

  /**
   Every mode describes the host-argmax streams, the prefill token and one token per step, when every
   asynchronous read arrives and idle lanes, if a sampling run has any, do not influence active ones.
   */
  lemma AllModesReturnTheChain<K(!new), L(!new)>(
    m: Model<K, L>, tokens: seq<seq<int>>, lens: seq<nat>, maxBatchSize: nat, o: Options,
    hostPresent: nat -> bool, eventsPresent: nat -> bool, n: nat)
    requires SamplesAsHost(m)
    requires o.sampling && IdleFeedMatters(lens, maxBatchSize, n) ==> IgnoresIdle(m)
    requires AllArrive(hostPresent, eventsPresent, n)
    ensures var streams := BenchmarkRun(m, tokens, lens, maxBatchSize, o).Streams(
                             ReadSteps(o, hostPresent, eventsPresent, n));
      && streams == BenchmarkRun(m, tokens, lens, maxBatchSize, HOST_ARGMAX).Streams(AllSteps(n))
      && (forall u :: 0 <= u < |lens| ==> |streams[u]| == n + 1)
      && !DrainFails(o, hostPresent, eventsPresent, n)
  {
    DeliveredComplete(Both(hostPresent, eventsPresent), n);
    assert AllSteps(n) == seq(n, k => k);
    ChainsAgree(m, tokens, lens, maxBatchSize, o, HOST_ARGMAX, n);
  }

  /**
   A run in any mode beside a host-argmax run: it returns the same streams, or it raises, exactly because a
   pipelined partial batch meets a target that normalizes its own output.
   */
  method RunBesideHost<K(!new), L(!new)>(
    device: Device<K, L>, host: Device<K, L>, tokens: seq<seq<int>>, lens: seq<nat>, numDecodeTokens: int,
    maxBatchSize: nat, o: Options)
    returns (r: Result<PerfBenchmarkResult, RunError>, reference: Result<PerfBenchmarkResult, RunError>)
    requires device != host && device.Idle() && host.Idle() && device.model == host.model
    requires SamplesAsHost(device.model) && !(o.Margins() && o.prefillSampling)
    requires o.sampling && IdleFeedMatters(lens, maxBatchSize, Steps(numDecodeTokens)) ==> IgnoresIdle(device.model)
    requires AllArrive(device.hostPresent, device.eventsPresent, Steps(numDecodeTokens))
    modifies device, host
    ensures reference.Ok?
    ensures if HasSurplusTokens(o, device.normalizes, |lens|, maxBatchSize, Steps(numDecodeTokens))
            then r == Err(LaneWithoutUser)
            else r.Ok? && r.value.generatedTokenIds == reference.value.generatedTokenIds
    ensures |reference.value.generatedTokenIds| == |lens|
    ensures forall u :: 0 <= u < |lens| ==>
      |reference.value.generatedTokenIds[u]| == Steps(numDecodeTokens) + 1
  {
    var n := Steps(numDecodeTokens);
    ArrivedReads(o, device.normalizes, |lens|, maxBatchSize, device.hostPresent, device.eventsPresent, n);
    AllModesReturnTheChain(device.model, tokens, lens, maxBatchSize, o, device.hostPresent, device.eventsPresent, n);
    r := RunPerfBenchmark(device, tokens, lens, numDecodeTokens, maxBatchSize, o);
    reference := RunPerfBenchmark(host, tokens, lens, numDecodeTokens, maxBatchSize, HOST_ARGMAX);
  }

  /** One user on two lanes, pipelined, on a target that normalizes its output: the run raises. */
  method RunPartialBatch<K(!new), L>(device: Device<K, L>, prompt: seq<int>, numDecodeTokens: int)
    returns (r: Result<PerfBenchmarkResult, RunError>)
    requires device.Idle() && device.normalizes && numDecodeTokens > 0
    requires AllArrive(device.hostPresent, device.eventsPresent, numDecodeTokens)
    modifies device
    ensures r == Err(LaneWithoutUser)
  {
    PartialBatchOverflows(device.hostPresent, device.eventsPresent, numDecodeTokens);
    r := RunPerfBenchmark(device, [prompt], [|prompt|], numDecodeTokens, 2, PIPELINED);
  }

  lemma PartialBatchOverflows(hostPresent: nat -> bool, eventsPresent: nat -> bool, n: nat)
    requires AllArrive(hostPresent, eventsPresent, n)
    ensures RowOverflows(PIPELINED, true, 1, 2, hostPresent, eventsPresent, n) <==> n > 0
  {
    ArrivedReads(PIPELINED, true, 1, 2, hostPresent, eventsPresent, n);
  }

  /** Pipelined readback is complete exactly when no read comes back without a buffer or without an event. */
  lemma PipelinedCompleteness<K, L>(
    run: Run<K, L>, hostPresent: nat -> bool, eventsPresent: nat -> bool, n: nat, u: nat)
    requires run.Valid() && u < |run.lens|
    ensures |run.Stream(Delivered(Both(hostPresent, eventsPresent), n), u)| == n + 1
       <==> forall k: nat :: k < n ==> hostPresent(k) && eventsPresent(k)
  {
    var both := Both(hostPresent, eventsPresent);
    DeliveredComplete(both, n);
    assert forall k: nat :: both(k) <==> hostPresent(k) && eventsPresent(k);
  }

  /**
   Autoregression: the token after position k of a stream is picked from the logits of that step, and the
   step's input is the k-th token of every user's own stream.
   */
  lemma {:induction false} StreamIsAutoregressive<K, L>(run: Run<K, L>, n: nat, u: nat, k: nat)
    requires run.Valid() && u < |run.lens| && k < n
    ensures run.Stream(AllSteps(n), u)[k + 1] == run.pick(run.LogitsFrom(run.At(k), k, u))
    ensures |run.At(k).row| == run.lanes
    ensures forall v :: 0 <= v < |run.lens| ==> run.At(k).row[v] == run.Stream(AllSteps(n), v)[k]
    ensures run.Stream(AllSteps(n), u)[0] == run.first[u]
  {
    StreamAt(run, n, u, k + 1);
    forall v | 0 <= v < |run.lens| ensures run.Stream(AllSteps(n), v)[k] == run.At(k).row[v] {
      StreamAt(run, n, v, k);
    }
  }

  // ---- Why idle lanes must not matter

  /** A device whose lane 0 is handed the token of lane `idle`, and whose other lanes get 7. */
  function PeekingModel(idle: nat): (m: Model<int, int>)
    ensures SamplesAsHost(m)
  {
    Model(
      (t: seq<seq<int>>, l: seq<nat>) => 0, (t: seq<seq<int>>, l: seq<nat>, u: nat) => 0,
      (kv: int, t: seq<int>, p: seq<int>) => 0,
      (kv: int, t: seq<int>, p: seq<int>, u: nat) => if u == 0 && idle < |t| then t[idle] else 7,
      (l: int) => l, (l: int) => l, (l: int) => 0.0, (l: int) => l)
  }

  /** On such a device sampled and host streams differ, whatever the batch, from the second step on. */
  lemma {:induction false} IdleLanesMayMatter(tokens: seq<seq<int>>, lens: seq<nat>, maxBatchSize: nat, n: nat)
    requires IdleFeedMatters(lens, maxBatchSize, n)
    ensures var m := PeekingModel(|lens|);
      BenchmarkRun(m, tokens, lens, maxBatchSize, DEVICE_SAMPLING).Streams(AllSteps(n))[0][2] == 7
      && BenchmarkRun(m, tokens, lens, maxBatchSize, HOST_ARGMAX).Streams(AllSteps(n))[0][2] == 0
  {
    var m := PeekingModel(|lens|);
    var sampled := BenchmarkRun(m, tokens, lens, maxBatchSize, DEVICE_SAMPLING);
    var host := BenchmarkRun(m, tokens, lens, maxBatchSize, HOST_ARGMAX);
    PeekedToken(sampled, |lens|);
    PeekedToken(host, |lens|);
    StreamAt(sampled, n, 0, 2);
    StreamAt(host, n, 0, 2);
  }

  /** The second step hands lane 0 what the first one left in the idle lane. */
  lemma {:induction false} PeekedToken(run: Run<int, int>, idle: nat)
    requires run.Valid() && 0 < |run.lens| == idle < run.lanes && run.model == PeekingModel(idle)
    requires forall l :: run.pick(l) == l
    ensures run.At(2).row[0] == if run.feedsIdle then 7 else 0
  {
    var p := run.At(1);
    assert p.row[idle] == if run.feedsIdle then run.pick(run.LogitsFrom(run.At(0), 0, idle)) else 0;
    assert run.At(2).row[0] == run.pick(run.LogitsFrom(p, 1, 0)) == p.row[idle];
  }

  ghost predicate ModesAgree(
    m: Model<int, int>, tokens: seq<seq<int>>, lens: seq<nat>, maxBatchSize: nat, n: nat)
  {
    BenchmarkRun(m, tokens, lens, maxBatchSize, DEVICE_SAMPLING).Streams(AllSteps(n))
    == BenchmarkRun(m, tokens, lens, maxBatchSize, HOST_ARGMAX).Streams(AllSteps(n))
  }

  /** Which batches and lengths the modes agree on, whatever the device: those where no idle lane can matter. */
  lemma ModesAgreeExactly(tokens: seq<seq<int>>, lens: seq<nat>, maxBatchSize: nat, n: nat)
    ensures (forall m: Model<int, int> | SamplesAsHost(m) :: ModesAgree(m, tokens, lens, maxBatchSize, n))
       <==> !IdleFeedMatters(lens, maxBatchSize, n)
  {
    if IdleFeedMatters(lens, maxBatchSize, n) {
      IdleLanesMayMatter(tokens, lens, maxBatchSize, n);
      assert !ModesAgree(PeekingModel(|lens|), tokens, lens, maxBatchSize, n);
    } else {
      forall m: Model<int, int> | SamplesAsHost(m) ensures ModesAgree(m, tokens, lens, maxBatchSize, n) {
        ChainsAgree(m, tokens, lens, maxBatchSize, DEVICE_SAMPLING, HOST_ARGMAX, n);
      }
    }
  }

  // ---- Where a clamped run writes

  /** Every position of a budgeted run stays 17 short of the sequence limit, and idle lanes stay at -1. */
  lemma RunStaysInBudget<K, L>(
    calls: seq<Call>, run: Run<K, L>, requested: int, maxSeqLen: int, k: nat, u: nat)
    requires run.Valid() && run.lens != []
    requires CallsFollow(calls, run, Steps(QwenBudget(requested, maxSeqLen, run.lens)))
    requires k < |calls| && u < run.lanes
    ensures |calls[k].positions| == run.lanes
    ensures u < |run.lens| ==> calls[k].positions[u] == StepPosition(run.lens[u], k) <= maxSeqLen - 17
    ensures u >= |run.lens| ==> calls[k].positions[u] == -1
  {
    assert CallAt(calls[k], run, k);
    if u < |run.lens| {
      ClampKeepsPositions(requested, maxSeqLen, run.lens, u, k);
    }
  }

  /** Every decode position of every user stays `margin` below the sequence limit. */
  ghost predicate CallsStayBelow<K, L>(calls: seq<Call>, run: Run<K, L>, limit: int)
    requires forall k :: 0 <= k < |calls| ==> |calls[k].positions| >= |run.lens|
  {
    forall k, u :: 0 <= k < |calls| && 0 <= u < |run.lens| ==> calls[k].positions[u] < limit
  }

  lemma CallPositions<K, L>(calls: seq<Call>, run: Run<K, L>, n: nat)
    requires run.Valid() && CallsFollow(calls, run, n)
    ensures forall k :: 0 <= k < n ==> |calls[k].positions| == run.lanes
    ensures forall k, u :: 0 <= k < n && 0 <= u < |run.lens| ==> calls[k].positions[u] == StepPosition(run.lens[u], k)
  {
    forall k | 0 <= k < n
      ensures |calls[k].positions| == run.lanes
      ensures forall u :: 0 <= u < |run.lens| ==> calls[k].positions[u] == StepPosition(run.lens[u], k)
    {
      assert CallAt(calls[k], run, k);
    }
  }

  /** A whole run with the bucket fixed at 128 keeps a margin exactly when every prompt ends in time. */
  lemma FixedBucketRun<K, L>(calls: seq<Call>, run: Run<K, L>, requested: int, maxSeqLen: int, margin: int)
    requires run.Valid() && CallsFollow(calls, run, Steps(EffectiveDecode(requested, maxSeqLen, 128)))
    ensures forall k :: 0 <= k < |calls| ==> |calls[k].positions| == run.lanes
    ensures CallsStayBelow(calls, run, maxSeqLen - margin)
       <==> forall u :: 0 <= u < |run.lens| ==> EndsInTime(run.lens[u], requested, maxSeqLen, margin)
  {
    var n, limit := Steps(EffectiveDecode(requested, maxSeqLen, 128)), maxSeqLen - margin;
    CallPositions(calls, run, n);
    forall u | 0 <= u < |run.lens|
      ensures EndsInTime(run.lens[u], requested, maxSeqLen, margin)
         <==> forall k :: 0 <= k < n ==> calls[k].positions[u] < limit
    {
      FixedBucketExact(requested, maxSeqLen, run.lens[u], margin);
      assert forall k :: 0 <= k < n ==> calls[k].positions[u] == StepPosition(run.lens[u], k);
    }
  }

  /** Two decode writes of a budgeted run never hit the same cell of the pool, nor a cell of any prompt. */
  lemma DecodeWritesNeverCollide<K, L>(
    run: Run<K, L>, requested: int, maxSeqLen: int, table: Table, columns: nat, shift: int,
    k: nat, u: nat, user: nat, position: nat)
    requires run.Valid() && run.lens != []
    requires IsRolled(table, run.lanes, columns, shift) && maxSeqLen <= columns * 32
    requires k < Steps(QwenBudget(requested, maxSeqLen, run.lens)) && u < |run.lens|
    requires user < |run.lens| && position < columns * 32
    ensures run.lens[u] + k < |table[u]| * 32
    ensures Address(table, 32, u, run.lens[u] + k) == Address(table, 32, user, position)
       <==> user == u && position == run.lens[u] + k
  {
    ClampKeepsPositions(requested, maxSeqLen, run.lens, u, k);
    AddressInverse(table, run.lanes, columns, shift, 32, u, run.lens[u] + k);
    AddressInverse(table, run.lanes, columns, shift, 32, user, position);
  }
}
