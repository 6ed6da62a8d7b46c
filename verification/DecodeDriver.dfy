/**
`run_perf_benchmark` (examples/common/run_helpers.py) as a driver object over an abstract device.

The device is assumed to latch the host tokens and positions of a `resetBatch` call, and afterwards
to feed back its own samples and advance its own positions when it samples; without sampling it takes
the host tokens of every call.  An asynchronous read returns a host buffer and an event, either of
which may be absent; the buffer may be looked at only once the event is synchronized.  A target that
normalizes its own host output hands over one token per lane; otherwise the driver cuts the row to the batch.
*/
module DecodeDriver {
  import opened Prelude
  import opened DecodeChain

  datatype Output<L> = Logits(rows: seq<L>) | Sampled(row: seq<int>)

  /** What one decode call worked on, and the positions the host submitted with it. */
  datatype Call = Call(tokens: seq<int>, positions: seq<int>, hostPositions: seq<int>)

  datatype RunError = MarginsNeedLogits | MissingHostOutput | LaneWithoutUser

  function Advanced(positions: seq<int>): (p: seq<int>)
    ensures |p| == |positions|
  {
    seq(|positions|, u requires 0 <= u < |positions| => if positions[u] >= 0 then positions[u] + 1 else positions[u])
  }

  /** The logits of all lanes in one decode call. */
  function StepRows<K, L>(m: Model<K, L>, kv: K, t: seq<int>, p: seq<int>): (rows: seq<L>)
    ensures |rows| == |p|
  {
    seq(|p|, u requires 0 <= u < |p| => m.logits(kv, t, p, u))
  }

  class Device<K, L> {
    const model: Model<K, L>
    const hostPresent: nat -> bool
    const eventsPresent: nat -> bool
    const normalizes: bool
    var kv: K
    var fedTokens: seq<int>
    var fedPositions: seq<int>
    var transfers: seq<seq<int>>
    var synchronized: set<nat>
    ghost var calls: seq<Call>
    ghost var consumed: seq<nat>

    constructor (
      model: Model<K, L>, kv: K, hostPresent: nat -> bool, eventsPresent: nat -> bool, normalizes: bool)
      ensures this.model == model && this.hostPresent == hostPresent && this.eventsPresent == eventsPresent
      ensures this.normalizes == normalizes
      ensures Idle()
    {
      this.model, this.kv, this.hostPresent, this.eventsPresent := model, kv, hostPresent, eventsPresent;
      this.normalizes := normalizes;
      fedTokens, fedPositions, transfers, synchronized, calls, consumed := [], [], [], {}, [], [];
    }

    /** No decode call made and no read submitted yet. */
    ghost predicate Idle()
      reads this
    {
      calls == [] && transfers == [] && consumed == []
    }

    method PrefillForward(tokens: seq<seq<int>>, lens: seq<nat>, sampling: bool) returns (output: Output<L>)
      modifies this`kv
      ensures kv == model.prefillCache(tokens, lens)
      ensures var rows := seq(|lens|, u requires 0 <= u < |lens| => model.prefillLogits(tokens, lens, u));
              output == if sampling then Sampled(Map(model.sample, rows)) else Logits(rows)
    {
      kv := model.prefillCache(tokens, lens);
      var rows := seq(|lens|, u requires 0 <= u < |lens| => model.prefillLogits(tokens, lens, u));
      output := if sampling then Sampled(Map(model.sample, rows)) else Logits(rows);
    }

    method DecodeForward(tokens: array<int>, positions: array<int>, sampling: bool, resetBatch: bool)
      returns (output: Output<L>)
      requires tokens.Length == positions.Length
      requires sampling && !resetBatch ==> |fedTokens| == |fedPositions| == tokens.Length
      modifies this`kv, this`fedTokens, this`fedPositions, this`calls
      ensures var latched := sampling && !resetBatch;
              var t := if latched then old(fedTokens) else tokens[..];
              var p := if latched then old(fedPositions) else positions[..];
              var rows := StepRows(model, old(kv), t, p);
              && kv == model.write(old(kv), t, p)
              && calls == old(calls) + [Call(t, p, positions[..])]
              && fedPositions == Advanced(p)
              && output == (if sampling then Sampled(fedTokens) else Logits(rows))
              && fedTokens == Map(model.sample, rows)
    {
      var latched := sampling && !resetBatch;
      var t := if latched then fedTokens else tokens[..];
      var p := if latched then fedPositions else positions[..];
      var rows := StepRows(model, kv, t, p);
      calls := calls + [Call(t, p, positions[..])];
      kv := model.write(kv, t, p);
      fedTokens, fedPositions := Map(model.sample, rows), Advanced(p);
      output := if sampling then Sampled(fedTokens) else Logits(rows);
    }

    /** An asynchronous copy of `row`; the ticket stands for both the host buffer and the event. */
    method SubmitRead(row: seq<int>) returns (host: Option<nat>, events: Option<nat>)
      modifies this`transfers
      ensures transfers == old(transfers) + [row]
      ensures host == if hostPresent(|old(transfers)|) then Some(|old(transfers)|) else None
      ensures events == if eventsPresent(|old(transfers)|) then Some(|old(transfers)|) else None
    {
      var ticket := |transfers|;
      transfers := transfers + [row];
      host := if hostPresent(ticket) then Some(ticket) else None;
      events := if eventsPresent(ticket) then Some(ticket) else None;
    }

    method Synchronize(event: nat)
      modifies this`synchronized
      ensures synchronized == old(synchronized) + {event}
    {
      synchronized := synchronized + {event};
    }

    /** Looking at a host buffer is allowed only after its event. */
    method Fetch(ticket: nat) returns (row: seq<int>)
      requires ticket < |transfers| && ticket in synchronized
      modifies this`consumed
      ensures row == transfers[ticket] && consumed == old(consumed) + [ticket]
    {
      row := transfers[ticket];
      consumed := consumed + [ticket];
    }
  }

  function Both(p: nat -> bool, q: nat -> bool): nat -> bool {
    (k: nat) => p(k) && q(k)
  }

  /** How tokens are chosen at each decode step. */
  function StepPick<K, L>(m: Model<K, L>, sampling: bool, collect: bool): L -> int {
    if sampling then m.sample else if collect then m.top1 else m.argmax
  }

  /** The decode calls `0..n` worked on the chain's tokens, at the positions the host submitted. */
  ghost predicate CallsFollow<K, L>(calls: seq<Call>, run: Run<K, L>, n: nat) {
    |calls| == n && forall k :: 0 <= k < n ==> CallAt(calls[k], run, k)
  }

  ghost predicate CallAt<K, L>(call: Call, run: Run<K, L>, k: nat) {
    call.positions == call.hostPositions == Positions(run.lens, run.lanes, k)
    && call.tokens == run.At(k).row
  }

  /** The loop state of one benchmark: two device tensors, the per-user lists and the pending read. */
  class Benchmark<K(!new), L> {
    const device: Device<K, L>
    const sampling: bool
    const pipelined: bool
    const collect: bool
    const currentTokens: array<int>
    const currentPos: array<int>
    var generated: seq<seq<int>>
    var margins: Option<seq<seq<real>>>
    var pendingHost: Option<nat>
    var pendingEvents: Option<nat>
    var decodeTimes: seq<real>
    var iterationTimes: seq<real>
    ghost const run: Run<K, L>
    ghost const firstMargins: seq<real>

    constructor (device: Device<K, L>, sampling: bool, pipelined: bool, collect: bool,
                 first: seq<int>, margins: Option<seq<real>>, lens: seq<nat>, lanes: nat)
      requires |first| == |lens| <= lanes && (pipelined ==> sampling)
      requires margins.Some? <==> collect && !sampling
      requires margins.Some? ==> |margins.value| == |lens|
      requires device.Idle()
      ensures this.device == device && this.sampling == sampling && this.pipelined == pipelined
      ensures this.collect == collect && fresh(currentTokens) && fresh(currentPos)
      ensures run == Run(device.model, StepPick(device.model, sampling, collect), device.kv, first, lens, lanes,
                         sampling)
      ensures margins.Some? ==> firstMargins == margins.value
      ensures Shape() && InputInv(0) && CallsInv(0) && PipeInv(0) && MarginsInv(0) && TimeInv(0)
      ensures generated == run.Streams([])
    {
      this.device, this.sampling, this.pipelined, this.collect := device, sampling, pipelined, collect;
      generated := Map(token => [token], first);
      this.margins := if margins.Some? then Some(Map(margin => [margin], margins.value)) else None;
      currentTokens := new int[lanes](_ => 0);
      currentPos := new int[lanes](_ => -1);
      pendingHost, pendingEvents, decodeTimes, iterationTimes := None, None, [], [];
      run := Run(device.model, StepPick(device.model, sampling, collect), device.kv, first, lens, lanes, sampling);
      firstMargins := if margins.Some? then margins.value else [];
      new;
      forall u | 0 <= u < |lens| {
        currentTokens[u] := first[u];
      }
      forall u | 0 <= u < |lens| {
        currentPos[u] := lens[u];
      }
      StreamsStart(run);
      assert generated == run.Streams([]);
      if margins.Some? {
        MarginStreamsStart(run, firstMargins);
        assert this.margins.value == MarginStreams(run, firstMargins, 0);
      }
    }

    ghost predicate Shape()
      reads this`margins
    {
      && currentTokens.Length == currentPos.Length == run.lanes && currentTokens != currentPos
      && run.Valid() && run.model == device.model && run.pick == StepPick(device.model, sampling, collect)
      && run.feedsIdle == sampling
      && (pipelined ==> sampling)
      && (margins.Some? <==> collect && !sampling)
      && (margins.Some? ==> |firstMargins| == |run.lens|)
    }

    /** The steps whose output would survive the asynchronous readback. */
    function Present(): nat -> bool {
      Both(device.hostPresent, device.eventsPresent)
    }

    /** Before step `i`: the cache, and the tokens and positions the next decode call will work on. */
    ghost predicate InputInv(i: nat)
      requires run.Valid()
      reads device`kv, device`fedTokens, device`fedPositions, currentTokens, currentPos
    {
      && device.kv == run.At(i).kv
      && currentPos[..] == Positions(run.lens, run.lanes, i)
      && (!sampling || i == 0 ==> currentTokens[..] == run.At(i).row)
      && (sampling && i > 0 ==>
            device.fedTokens == run.At(i).row && device.fedPositions == Positions(run.lens, run.lanes, i))
    }

    /** Every call so far worked on the chain's tokens at the positions the host submitted. */
    ghost predicate CallsInv(i: nat)
      requires run.Valid()
      reads device`calls
    {
      CallsFollow(device.calls, run, i)
    }

    /** `row` is what the device hands out at step `k`, idle lanes included. */
    ghost predicate RowOf(row: seq<int>, k: nat) {
      row == run.At(k + 1).row
    }

    ghost predicate TransfersInv(n: nat)
      requires run.Valid()
      reads device`transfers
    {
      |device.transfers| == n && forall k :: 0 <= k < n ==> RowOf(device.transfers[k], k)
    }

    /** Pipelined mode, between iterations: the reads submitted, consumed and pending. */
    ghost predicate PipeInv(i: nat)
      requires run.Valid()
      reads this`pendingHost, this`pendingEvents, device`transfers, device`consumed
    {
      if !pipelined then pendingEvents == None && device.consumed == []
      else
        && TransfersInv(i)
        && device.consumed == Delivered(Present(), if i == 0 then 0 else i - 1)
        && pendingHost == (if i > 0 && device.hostPresent(i - 1) then Some(i - 1) else None)
        && pendingEvents == (if i > 0 && device.eventsPresent(i - 1) then Some(i - 1) else None)
    }

    ghost predicate StreamInv(i: nat)
      requires run.Valid()
      reads this`generated, device`consumed
    {
      generated == run.Streams(if pipelined then device.consumed else AllSteps(i))
    }

    ghost predicate MarginsInv(i: nat)
      requires Shape()
      reads this`margins
    {
      margins.Some? ==> margins.value == MarginStreams(run, firstMargins, i)
    }

    ghost predicate TimeInv(i: nat)
      reads this`decodeTimes, this`iterationTimes
    {
      && |iterationTimes| == (if i == 0 then 0 else i - 1)
      && |decodeTimes| == (if i == 0 || (sampling && !pipelined) then 0 else i - 1)
    }

    /** The decode call of step `i`: whatever the mode, it computes the chain's next row. */
    method Forward(i: nat) returns (output: Output<L>)
      requires Shape() && InputInv(i) && CallsInv(i)
      modifies device`kv, device`fedTokens, device`fedPositions, device`calls
      ensures CallsInv(i + 1)
      ensures device.kv == run.At(i + 1).kv
      ensures sampling ==> output == Sampled(device.fedTokens)
      ensures sampling ==> device.fedPositions == Positions(run.lens, run.lanes, i + 1)
      ensures sampling ==> RowOf(device.fedTokens, i)
      ensures !sampling ==> output.Logits? && |output.rows| == run.lanes
      ensures !sampling ==> forall u :: 0 <= u < |run.lens| ==> output.rows[u] == run.LogitsFrom(run.At(i), i, u)
    {
      output := device.DecodeForward(currentTokens, currentPos, sampling, i == 0);
      AdvancedPositions(i);
      assert CallAt(device.calls[i], run, i);
      if sampling {
        SampledRow(StepRows(device.model, run.At(i).kv, run.At(i).row, Positions(run.lens, run.lanes, i)), i);
      }
    }

    /** The samples of all lanes are the chain's next row. */
    lemma SampledRow(rows: seq<L>, i: nat)
      requires Shape() && sampling && |rows| == run.lanes
      requires forall u :: 0 <= u < run.lanes ==> rows[u] == run.LogitsFrom(run.At(i), i, u)
      ensures Map(device.model.sample, rows) == run.At(i + 1).row
    {
      forall u | 0 <= u < run.lanes ensures Map(device.model.sample, rows)[u] == run.At(i + 1).row[u] {
        assert run.At(i + 1).row[u] == run.pick(run.LogitsFrom(run.At(i), i, u));
      }
    }

    lemma AdvancedPositions(i: nat)
      ensures Advanced(Positions(run.lens, run.lanes, i)) == Positions(run.lens, run.lanes, i + 1)
    {
    }

    /** Submit the read of this step's row, and synchronize the one pending from the step before. */
    method PipelineRead(row: seq<int>, i: nat) returns (completed: Option<nat>)
      requires Shape() && pipelined && PipeInv(i)
      requires RowOf(row, i)
      modifies this`pendingHost, this`pendingEvents, device`transfers, device`synchronized
      ensures TransfersInv(i + 1)
      ensures completed == if i > 0 && Present()(i - 1) then Some(i - 1) else None
      ensures completed.Some? ==> completed.value in device.synchronized
      ensures pendingHost == if device.hostPresent(i) then Some(i) else None
      ensures pendingEvents == if device.eventsPresent(i) then Some(i) else None
    {
      completed := None;
      var host, events := device.SubmitRead(row);
      if pendingEvents.Some? {
        device.Synchronize(pendingEvents.value);
        completed := pendingHost;
      }
      pendingHost, pendingEvents := host, events;
    }

    /** One token per user goes to the end of that user's list. */
    method AppendRow(row: seq<int>)
      requires |row| == |generated|
      modifies this`generated
      ensures generated == Appended(old(generated), row)
    {
      var before := generated;
      for u := 0 to |row|
        invariant |generated| == |row|
        invariant forall v :: 0 <= v < u ==> generated[v] == before[v] + [row[v]]
        invariant forall v :: u <= v < |row| ==> generated[v] == before[v]
      {
        generated := generated[u := generated[u] + [row[u]]];
      }
    }

    /** A row that the target normalizes is as wide as the lanes, and some lane has no user. */
    ghost predicate Overflows() {
      device.normalizes && |run.lens| < run.lanes
    }

    /** Host side of a completed asynchronous read; it fails on a token for which there is no list. */
    method Consume(ticket: nat) returns (ok: bool)
      requires Shape() && pipelined && generated == run.Streams(device.consumed)
      requires ticket < |device.transfers| && ticket in device.synchronized
      requires RowOf(device.transfers[ticket], ticket)
      modifies this`generated, device`consumed
      ensures ok <==> !Overflows()
      ensures device.consumed == old(device.consumed) + [ticket]
      ensures ok ==> generated == run.Streams(device.consumed)
    {
      var row := device.Fetch(ticket);
      if !device.normalizes {
        row := row[..|generated|];
      }
      if |row| > |generated| {
        return false;
      }
      assert row == run.ActiveRow(ticket + 1);
      AppendRow(row);
      StreamsExtend(run, old(device.consumed), ticket);
      return true;
    }

    /** Host-argmax mode: choose, record and write back the next tokens. */
    method HostPick(rows: seq<L>, i: nat)
      requires Shape() && !sampling && StreamInv(i) && MarginsInv(i)
      requires |rows| == run.lanes
      requires forall u :: 0 <= u < |run.lens| ==> rows[u] == run.LogitsFrom(run.At(i), i, u)
      requires currentTokens[..] == run.At(i).row
      modifies this`generated, this`margins, currentTokens
      ensures Shape() && StreamInv(i + 1) && MarginsInv(i + 1)
      ensures currentTokens[..] == run.At(i + 1).row
    {
      var batch := |generated|;
      var pick := StepPick(device.model, sampling, collect);
      var nextTokens := Map(pick, rows[..batch]);
      assert nextTokens == run.ActiveRow(i + 1);
      AppendRow(nextTokens);
      StreamsExtend(run, AllSteps(i), i);
      assert AllSteps(i + 1) == AllSteps(i) + [i];
      if margins.Some? {
        var nextMargins := Map(device.model.margin, rows[..batch]);
        MarginStreamsExtend(run, firstMargins, i, nextMargins);
        margins := Some(Appended(margins.value, nextMargins));
      }
      forall u | 0 <= u < batch {
        currentTokens[u] := nextTokens[u];
      }
    }

    /** Synchronous sampled mode: the row is already on the host. */
    method TakeRow(row: seq<int>, i: nat)
      requires Shape() && sampling && !pipelined && StreamInv(i)
      requires RowOf(row, i)
      modifies this`generated
      ensures StreamInv(i + 1)
    {
      AppendRow(row[..|generated|]);
      StreamsExtend(run, AllSteps(i), i);
      assert AllSteps(i + 1) == AllSteps(i) + [i];
    }

    /** `current_pos[:batch_size] += 1` */
    method AdvancePositions(i: nat)
      requires Shape() && |generated| == |run.lens|
      requires currentPos[..] == Positions(run.lens, run.lanes, i)
      modifies currentPos
      ensures currentPos[..] == Positions(run.lens, run.lanes, i + 1)
    {
      forall u | 0 <= u < |generated| {
        currentPos[u] := currentPos[u] + 1;
      }
    }

    method RecordTime(i: nat)
      requires TimeInv(i) && (pipelined ==> sampling)
      modifies this`decodeTimes, this`iterationTimes
      ensures TimeInv(i + 1)
    {
      if i != 0 {
        var elapsed: real := *;
        iterationTimes := iterationTimes + [elapsed];
        if !sampling || pipelined {
          decodeTimes := decodeTimes + [elapsed];
        }
      }
    }

    ghost predicate LoopInv(i: nat)
      reads this, device, currentTokens, currentPos
    {
      && Shape() && InputInv(i) && CallsInv(i) && PipeInv(i) && StreamInv(i) && MarginsInv(i) && TimeInv(i)
    }

    /** Pipelined readback in one iteration: one step behind the device. */
    method StepPipelined(row: seq<int>, i: nat) returns (ok: bool)
      requires Shape() && pipelined && PipeInv(i) && StreamInv(i)
      requires RowOf(row, i)
      modifies this`pendingHost, this`pendingEvents, this`generated
      modifies device`transfers, device`synchronized, device`consumed
      ensures ok <==> !(i > 0 && Present()(i - 1) && Overflows())
      ensures ok ==> PipeInv(i + 1) && StreamInv(i + 1)
    {
      ok := true;
      var completed := PipelineRead(row, i);
      if completed.Some? {
        ok := Consume(completed.value);
      }
      DeliveredStep(i);
    }

    lemma DeliveredStep(i: nat)
      ensures i > 0 && Present()(i - 1) ==> Delivered(Present(), i) == Delivered(Present(), i - 1) + [i - 1]
      ensures i > 0 && !Present()(i - 1) ==> Delivered(Present(), i) == Delivered(Present(), i - 1)
    {
    }

    /** One trip around the decode loop. */
    method Iterate(i: nat) returns (ok: bool)
      requires LoopInv(i)
      modifies this, device, currentTokens, currentPos
      ensures ok <==> !(pipelined && i > 0 && Present()(i - 1) && Overflows())
      ensures ok ==> LoopInv(i + 1)
    {
      ok := true;
      var output := Forward(i);
      RecordTime(i);
      if pipelined {
        ok := StepPipelined(output.row, i);
        if !ok {
          return;
        }
      } else if sampling {
        TakeRow(output.row, i);
      } else {
        HostPick(output.rows, i);
      }
      AdvancePositions(i);
    }

    /** The loop ends early exactly when it consumes a read that overflows: any but the last. */
    method Loop(n: nat) returns (ok: bool)
      requires LoopInv(0)
      modifies this, device, currentTokens, currentPos
      ensures ok <==> Unharmed(n)
      ensures ok ==> LoopInv(n)
    {
      for i := 0 to n
        invariant LoopInv(i) && Unharmed(i)
      {
        ok := Iterate(i);
        UnharmedStep(i, ok);
        if !ok {
          HarmStays(i + 1, n);
          return;
        }
      }
      ok := true;
    }

    /** No read that overflows was consumed before iteration i. */
    ghost predicate Unharmed(i: nat) {
      pipelined && Overflows() && i > 0 ==> Delivered(Present(), i - 1) == []
    }

    lemma {:induction false} UnharmedStep(i: nat, ok: bool)
      requires Unharmed(i) && (ok <==> !(pipelined && i > 0 && Present()(i - 1) && Overflows()))
      ensures Unharmed(i + 1) <==> ok
    {
      DeliveredStep(i);
    }

    lemma {:induction false} HarmStays(i: nat, n: nat)
      requires 0 < i <= n && !Unharmed(i)
      ensures !Unharmed(n)
    {
      DeliveredGrows(Present(), i - 1, n - 1);
    }

    /** After the loop: the pending read is synchronized and consumed. */
    method Drain(n: nat) returns (error: Option<RunError>)
      requires LoopInv(n)
      modifies this`generated, device`synchronized, device`consumed
      ensures error == None || error == Some(MissingHostOutput) || error == Some(LaneWithoutUser)
      ensures error == Some(MissingHostOutput)
         <==> pipelined && n > 0 && device.eventsPresent(n - 1) && !device.hostPresent(n - 1)
      ensures error == Some(LaneWithoutUser) <==> pipelined && n > 0 && Present()(n - 1) && Overflows()
      ensures error == None && !pipelined ==> generated == run.Streams(AllSteps(n))
      ensures error == None && pipelined ==> device.consumed == Delivered(Present(), n)
      ensures error == None && pipelined ==> generated == run.Streams(Delivered(Present(), n))
    {
      DeliveredStep(n);
      if pendingEvents.Some? {
        device.Synchronize(pendingEvents.value);
        if pendingHost == None {
          return Some(MissingHostOutput);
        }
        var ok := Consume(pendingHost.value);
        if !ok {
          return Some(LaneWithoutUser);
        }
      }
      return None;
    }
  }

  datatype PerfBenchmarkResult = PerfBenchmarkResult(
    generatedTokenIds: seq<seq<int>>, argmaxTop2Margins: Option<seq<seq<real>>>,
    decodeTimes: seq<real>, decodeIterationTimes: seq<real>)

  /** What the target and the caller offer for the decode loop. */
  datatype Options = Options(
    sampling: bool, prefillSampling: bool, pipelineReadback: bool, asyncReadback: bool, collect: bool)
  {
    predicate CanPipeline() {
      sampling && pipelineReadback && asyncReadback
    }

    predicate Margins() {
      collect && !sampling
    }
  }

  function PrefillRows<K, L>(m: Model<K, L>, tokens: seq<seq<int>>, lens: seq<nat>): (rows: seq<L>)
    ensures |rows| == |lens|
  {
    seq(|lens|, u requires 0 <= u < |lens| => m.prefillLogits(tokens, lens, u))
  }

  function FirstPick<K, L>(m: Model<K, L>, o: Options): L -> int {
    if o.Margins() then m.top1 else if o.prefillSampling then m.sample else m.argmax
  }

  /** The chain a benchmark is to return: prefill, then `StepPick` tokens. */
  function BenchmarkRun<K, L>(m: Model<K, L>, tokens: seq<seq<int>>, lens: seq<nat>, maxBatchSize: nat, o: Options)
    : (run: Run<K, L>)
    ensures run.Valid()
  {
    Run(m, StepPick(m, o.sampling, o.collect), m.prefillCache(tokens, lens),
        Map(FirstPick(m, o), PrefillRows(m, tokens, lens)), lens, Max(maxBatchSize, |lens|), o.sampling)
  }

  /** `range(num_decode_tokens)` is empty for negative numbers. */
  function Steps(numDecodeTokens: int): nat {
    if numDecodeTokens < 0 then 0 else numDecodeTokens
  }

  /** The first tokens come from the prefill logits; lanes without a user start with a zero. */
  lemma BenchmarkStart<K, L>(
    m: Model<K, L>, tokens: seq<seq<int>>, lens: seq<nat>, maxBatchSize: nat, o: Options)
    ensures var run := BenchmarkRun(m, tokens, lens, maxBatchSize, o);
      && run.lens == lens && run.lanes == (if |lens| <= maxBatchSize then maxBatchSize else |lens|)
      && run.At(0).kv == m.prefillCache(tokens, lens)
      && (forall u :: |lens| <= u < run.lanes ==> run.At(0).row[u] == 0)
      && forall u :: 0 <= u < |lens| ==>
           var l := m.prefillLogits(tokens, lens, u);
           run.At(0).row[u] == if o.collect && !o.sampling then m.top1(l)
                               else if o.prefillSampling then m.sample(l)
                               else m.argmax(l)
  {
  }

  /** Each step writes all newest tokens at the users' own positions and picks the next ones from its logits. */
  lemma {:induction false} BenchmarkStep<K, L>(
    m: Model<K, L>, tokens: seq<seq<int>>, lens: seq<nat>, maxBatchSize: nat, o: Options, k: nat, p: seq<int>)
    requires |p| == if |lens| <= maxBatchSize then maxBatchSize else |lens|
    requires forall u :: 0 <= u < |p| ==> p[u] == if u < |lens| then lens[u] + k else -1
    ensures var run := BenchmarkRun(m, tokens, lens, maxBatchSize, o);
      var kv, row := run.At(k).kv, run.At(k).row;
      && run.At(k + 1).kv == m.write(kv, row, p)
      && forall u :: 0 <= u < |p| ==>
           var l := m.logits(kv, row, p, u);
           run.At(k + 1).row[u] == if o.sampling then m.sample(l)
                                   else if u >= |lens| then 0
                                   else if o.collect then m.top1(l)
                                   else m.argmax(l)
  {
    var run := BenchmarkRun(m, tokens, lens, maxBatchSize, o);
    assert p == Positions(lens, run.lanes, k);
    forall u | 0 <= u < |p|
      ensures run.At(k + 1).row[u]
           == if u < |lens| || o.sampling then run.pick(m.logits(run.At(k).kv, run.At(k).row, p, u)) else 0
    {
      assert run.LogitsFrom(run.At(k), k, u) == m.logits(run.At(k).kv, run.At(k).row, p, u);
    }
  }

  /** The steps whose outputs end up in the streams. */
  function ReadSteps(o: Options, hostPresent: nat -> bool, eventsPresent: nat -> bool, n: nat): (steps: seq<nat>) {
    if o.CanPipeline() then Delivered(Both(hostPresent, eventsPresent), n) else AllSteps(n)
  }

  /**
   A returned list is the user's prefill token and then one token for each step that was read: every step, or in
   pipelined mode, in order, those whose read has both a buffer and an event.
   */
  lemma {:induction false} StreamsExactly<K, L>(
    run: Run<K, L>, o: Options, hostPresent: nat -> bool, eventsPresent: nat -> bool, n: nat, u: nat)
    requires run.Valid() && u < |run.lens|
    ensures var steps := ReadSteps(o, hostPresent, eventsPresent, n);
      var ids := run.Streams(steps)[u];
      && |run.Streams(steps)| == |run.lens|
      && |ids| == |steps| + 1 && ids[0] == run.first[u]
      && (forall i :: 0 <= i < |steps| ==> ids[i + 1] == run.At(steps[i] + 1).row[u])
      && (forall i, j :: 0 <= i < j < |steps| ==> steps[i] < steps[j])
      && forall k: nat :: k in steps
           <==> k < n && (o.sampling && o.pipelineReadback && o.asyncReadback ==> hostPresent(k) && eventsPresent(k))
  {
    var steps := ReadSteps(o, hostPresent, eventsPresent, n);
    DeliveredExactly(Both(hostPresent, eventsPresent), n);
    AllStepsExactly(n);
    forall i | 0 <= i < |steps| ensures run.Streams(steps)[u][i + 1] == run.At(steps[i] + 1).row[u] {
      assert run.Streams(steps)[u] == run.Stream(steps, u);
      assert run.Token(steps[i], u) == run.At(steps[i] + 1).row[u];
    }
  }

  lemma {:induction false} AllStepsExactly(n: nat)
    ensures forall k: nat :: k in AllSteps(n) <==> k < n
  {
    forall k: nat | k < n ensures k in AllSteps(n) {
      assert AllSteps(n)[k] == k;
    }
  }

  /** The last read has an event but no buffer: the drain has nothing to hand over. */
  predicate DrainFails(o: Options, hostPresent: nat -> bool, eventsPresent: nat -> bool, n: nat) {
    o.CanPipeline() && n > 0 && eventsPresent(n - 1) && !hostPresent(n - 1)
  }

  /** Some read is handed over whole by a target that normalizes it, and some lane has no user. */
  ghost predicate RowOverflows(
    o: Options, normalizes: bool, users: nat, maxBatchSize: nat, hostPresent: nat -> bool,
    eventsPresent: nat -> bool, n: nat)
  {
    && o.CanPipeline() && normalizes && users < maxBatchSize
    && exists k: nat :: k < n && hostPresent(k) && eventsPresent(k)
  }

  /** The first read that overflows is consumed in the loop, or it is the last one and meets the drain. */
  lemma OverflowSplits(
    o: Options, normalizes: bool, users: nat, maxBatchSize: nat, hostPresent: nat -> bool,
    eventsPresent: nat -> bool, n: nat)
    ensures var present := Both(hostPresent, eventsPresent);
      RowOverflows(o, normalizes, users, maxBatchSize, hostPresent, eventsPresent, n)
      <==> o.CanPipeline() && normalizes && users < maxBatchSize && n > 0
           && (Delivered(present, n - 1) != [] || present(n - 1))
  {
    var present := Both(hostPresent, eventsPresent);
    DeliveredExactly(present, n);
    var d := Delivered(present, n);
    if d != [] {
      assert d[0] in d;
      assert hostPresent(d[0]) && eventsPresent(d[0]);
    }
    if k: nat :| k < n && hostPresent(k) && eventsPresent(k) {
      assert present(k) && k in d;
    }
  }

  lemma {:induction false} MarginStreamsExactly<K, L>(run: Run<K, L>, firstMargins: seq<real>, n: nat, u: nat)
    requires |firstMargins| == |run.lens| && u < |run.lens|
    ensures var s := MarginStreams(run, firstMargins, n);
      && s[u][0] == firstMargins[u]
      && forall k :: 1 <= k <= n ==> s[u][k] == run.model.margin(run.LogitsFrom(run.At(k - 1), k - 1, u))
  {
  }

  /** `run_perf_benchmark` */
  method RunPerfBenchmark<K(!new), L>(
    device: Device<K, L>, tokens: seq<seq<int>>, lens: seq<nat>, numDecodeTokens: int, maxBatchSize: nat, o: Options)
    returns (r: Result<PerfBenchmarkResult, RunError>)
    requires device.Idle()
    modifies device
    // Which error is raised, if any.
    ensures var host, events, n := device.hostPresent, device.eventsPresent, Max(0, numDecodeTokens);
      var pipelined := o.sampling && o.pipelineReadback && o.asyncReadback;
      var noLogits := o.collect && !o.sampling && o.prefillSampling;
      var overflows := pipelined && device.normalizes && |lens| < maxBatchSize
                       && exists k: nat :: k < n && host(k) && events(k);
      var bufferMissing := pipelined && n > 0 && events(n - 1) && !host(n - 1);
      && (r == Err(MarginsNeedLogits) <==> noLogits)
      && (r == Err(LaneWithoutUser) <==> overflows)
      && (r == Err(MissingHostOutput) <==> bufferMissing && !overflows)
      && (r.Ok? <==> !noLogits && !bufferMissing && !overflows)
    // What is returned, and what the device was asked.
    ensures r.Ok? ==>
      var run, n := BenchmarkRun(device.model, tokens, lens, maxBatchSize, o), Max(0, numDecodeTokens);
      var steps := ReadSteps(o, device.hostPresent, device.eventsPresent, n);
      && r.value.generatedTokenIds == run.Streams(steps)
      && (o.sampling && o.pipelineReadback && o.asyncReadback ==> device.consumed == steps)
      && CallsFollow(device.calls, run, n)
      && |r.value.decodeTimes| == |r.value.decodeIterationTimes| == Max(0, numDecodeTokens - 1)
    // The margin of each token is that of the logits it was picked from, the first one those of the prefill.
    ensures r.Ok? ==>
      var run, n := BenchmarkRun(device.model, tokens, lens, maxBatchSize, o), Max(0, numDecodeTokens);
      && (r.value.argmaxTop2Margins.Some? <==> o.collect && !o.sampling)
      && (r.value.argmaxTop2Margins.Some? ==>
            var margins := r.value.argmaxTop2Margins.value;
            && |margins| == |lens|
            && forall u :: 0 <= u < |lens| ==>
                 && |margins[u]| == n + 1
                 && margins[u][0] == device.model.margin(device.model.prefillLogits(tokens, lens, u))
                 && forall k :: 1 <= k <= n ==>
                      margins[u][k] == device.model.margin(run.LogitsFrom(run.At(k - 1), k - 1, u)))
  {
    var prefill := device.PrefillForward(tokens, lens, o.prefillSampling);
    if o.Margins() && prefill.Sampled? {
      return Err(MarginsNeedLogits);
    }
    ghost var run := BenchmarkRun(device.model, tokens, lens, maxBatchSize, o);
    var first := if prefill.Sampled? then prefill.row else Map(FirstPick(device.model, o), prefill.rows);
    assert first == run.first;
    var firstMargins := if o.Margins() then Some(Map(device.model.margin, prefill.rows)) else None;
    var n := Steps(numDecodeTokens);
    r := DecodeAndDrain(device, o, first, firstMargins, lens, Max(maxBatchSize, |lens|), n, run);
    assert |lens| < Max(maxBatchSize, |lens|) <==> |lens| < maxBatchSize;
    if firstMargins.Some? {
      forall u | 0 <= u < |lens|
        ensures var s := MarginStreams(run, firstMargins.value, n);
          s[u][0] == firstMargins.value[u]
          && forall k :: 1 <= k <= n ==> s[u][k] == run.model.margin(run.LogitsFrom(run.At(k - 1), k - 1, u))
      {
        MarginStreamsExactly(run, firstMargins.value, n, u);
      }
    }
  }

  /** The decode section of the run, from the first tokens to the result. */
  method DecodeAndDrain<K(!new), L>(
    device: Device<K, L>, o: Options, first: seq<int>, firstMargins: Option<seq<real>>, lens: seq<nat>, lanes: nat,
    n: nat, ghost run: Run<K, L>)
    returns (r: Result<PerfBenchmarkResult, RunError>)
    requires device.Idle() && |first| == |lens| <= lanes
    requires firstMargins.Some? <==> o.Margins()
    requires firstMargins.Some? ==> |firstMargins.value| == |lens|
    requires run == Run(device.model, StepPick(device.model, o.sampling, o.collect), device.kv, first, lens, lanes,
                        o.sampling)
    modifies device
    ensures if RowOverflows(o, device.normalizes, |lens|, lanes, device.hostPresent, device.eventsPresent, n)
            then r == Err(LaneWithoutUser)
            else if DrainFails(o, device.hostPresent, device.eventsPresent, n) then r == Err(MissingHostOutput)
            else r.Ok?
    ensures r.Ok? ==> var steps := ReadSteps(o, device.hostPresent, device.eventsPresent, n);
      && r.value.generatedTokenIds == run.Streams(steps)
      && (o.CanPipeline() ==> device.consumed == steps)
      && CallsFollow(device.calls, run, n)
      && r.value.argmaxTop2Margins
         == (if o.Margins() then Some(MarginStreams(run, firstMargins.value, n)) else None)
      && |r.value.decodeTimes| == |r.value.decodeIterationTimes| == (if n == 0 then 0 else n - 1)
  {
    var b := new Benchmark(device, o.sampling, o.CanPipeline(), o.collect, first, firstMargins, lens, lanes);
    assert AllSteps(0) == [];
    OverflowSplits(o, device.normalizes, |lens|, lanes, device.hostPresent, device.eventsPresent, n);
    var looped := b.Loop(n);
    if !looped {
      return Err(LaneWithoutUser);
    }
    var error := b.Drain(n);
    if error.Some? {
      return Err(error.value);
    }
    var decodeTimes := b.decodeTimes;
    if o.sampling && n > 1 && !o.CanPipeline() {
      var sampledDecodeTime: real := *;
      decodeTimes := seq(n - 1, _ => sampledDecodeTime / (n - 1) as real);
    }
    return Ok(PerfBenchmarkResult(b.generated, b.margins, decodeTimes, b.iterationTimes));
  }
}
