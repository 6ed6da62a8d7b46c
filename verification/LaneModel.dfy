/**
Models whose lanes do not interact: what the determinism checks of examples/common/run_helpers.py and
examples/llama3_8b/benchmark.py expect of the device.
*/
module LaneModel {
  import opened Prelude
  import opened DecodeChain
  import opened DecodeDriver

  /** One lane: its own cache and logits, from its own prompt, token and position. */
  datatype Lane<!C, !L> = Lane(
    prefillCache: seq<int> -> C,
    prefillLogits: seq<int> -> L,
    idleCache: C,
    idleLogits: L,
    write: (C, int, int) -> C,
    logits: (C, int, int) -> L,
    argmax: L -> int,
    top1: L -> int,
    margin: L -> real,
    sample: L -> int)

  predicate Active(t: seq<int>, p: seq<int>, u: nat) {
    u < |t| && u < |p| && p[u] >= 0
  }

  function WriteAll<C, L>(lane: Lane<C, L>, kv: seq<C>, t: seq<int>, p: seq<int>): (r: seq<C>)
    ensures |r| == |kv|
  {
    seq(|kv|, u requires 0 <= u < |kv| => if Active(t, p, u) then lane.write(kv[u], t[u], p[u]) else kv[u])
  }

  function LogitsOf<C, L>(lane: Lane<C, L>, kv: seq<C>, t: seq<int>, p: seq<int>, u: nat): L {
    if u < |kv| && Active(t, p, u) then lane.logits(kv[u], t[u], p[u]) else lane.idleLogits
  }

  function PrefillAll<C, L>(lane: Lane<C, L>, lanes: nat, tokens: seq<seq<int>>): (r: seq<C>)
    ensures |r| == lanes
  {
    seq(lanes, u requires 0 <= u < lanes => if u < |tokens| then lane.prefillCache(tokens[u]) else lane.idleCache)
  }

  /** `lanes` independent lanes side by side; the prompt lengths are those of the prompts. */
  function Lift<C, L>(lane: Lane<C, L>, lanes: nat): (m: Model<seq<C>, L>) {
    Model(
      (tokens: seq<seq<int>>, lens: seq<nat>) => PrefillAll(lane, lanes, tokens),
      (tokens: seq<seq<int>>, lens: seq<nat>, u: nat) =>
        if u < |tokens| then lane.prefillLogits(tokens[u]) else lane.idleLogits,
      (kv: seq<C>, t: seq<int>, p: seq<int>) => WriteAll(lane, kv, t, p),
      (kv: seq<C>, t: seq<int>, p: seq<int>, u: nat) => LogitsOf(lane, kv, t, p, u),
      lane.argmax, lane.top1, lane.margin, lane.sample)
  }

  lemma WriteIgnoresIdle<C, L>(lane: Lane<C, L>, kv: seq<C>, t: seq<int>, t': seq<int>, p: seq<int>)
    requires SameActive(t, t', p)
    ensures WriteAll(lane, kv, t, p) == WriteAll(lane, kv, t', p)
  {
    var a, b := WriteAll(lane, kv, t, p), WriteAll(lane, kv, t', p);
    forall u | 0 <= u < |kv| ensures a[u] == b[u] {
      if Active(t, p, u) {
        assert t[u] == t'[u];
        assert a[u] == lane.write(kv[u], t[u], p[u]) == lane.write(kv[u], t'[u], p[u]) == b[u];
      } else {
        assert !Active(t', p, u);
        assert a[u] == kv[u] == b[u];
      }
    }
  }

  /** Independent lanes ignore idle tokens. */
  lemma LiftIgnoresIdle<C(!new), L>(lane: Lane<C, L>, lanes: nat)
    ensures IgnoresIdle(Lift(lane, lanes))
  {
    var m := Lift(lane, lanes);
    forall kv, t, t', p | SameActive(t, t', p)
      ensures m.write(kv, t, p) == m.write(kv, t', p)
      ensures forall u :: 0 <= u < |p| && p[u] >= 0 ==> m.logits(kv, t, p, u) == m.logits(kv, t', p, u)
    {
      WriteIgnoresIdle(lane, kv, t, t', p);
    }
  }

  /** One lane on its own. */
  function LaneAt<C, L>(lane: Lane<C, L>, o: Options, prompt: seq<int>, k: nat): (r: (C, int)) {
    if k == 0 then (lane.prefillCache(prompt), FirstPick(Lift(lane, 0), o)(lane.prefillLogits(prompt)))
    else
      var (c, token) := LaneAt(lane, o, prompt, k - 1);
      var position := |prompt| + (k - 1);
      (lane.write(c, token, position),
       StepPick(Lift(lane, 0), o.sampling, o.collect)(lane.logits(c, token, position)))
  }

  function LaneStream<C, L>(lane: Lane<C, L>, o: Options, prompt: seq<int>, n: nat): (s: seq<int>)
    ensures |s| == n + 1
  {
    seq(n + 1, k requires 0 <= k <= n => LaneAt(lane, o, prompt, k).1)
  }

  function Lengths(prompts: seq<seq<int>>): (lens: seq<nat>)
    ensures |lens| == |prompts|
  {
    Map((p: seq<int>) => |p| as nat, prompts)
  }

  /** One step of any run. */
  lemma {:induction false} RunStep<K, L>(run: Run<K, L>, k: nat, u: nat)
    requires run.Valid() && u < |run.lens|
    ensures var p := Positions(run.lens, run.lanes, k);
      && Active(run.At(k).row, p, u) && p[u] == run.lens[u] + k
      && run.At(k + 1).kv == run.model.write(run.At(k).kv, run.At(k).row, p)
      && run.At(k + 1).row[u] == run.pick(run.model.logits(run.At(k).kv, run.At(k).row, p, u))
  {
    assert run.At(k + 1).row[u] == run.pick(run.LogitsFrom(run.At(k), k, u));
  }

  /** One step of one lane. */
  lemma {:induction false} LiftStep<C, L>(
    lane: Lane<C, L>, lanes: nat, kv: seq<C>, t: seq<int>, p: seq<int>, u: nat)
    requires Active(t, p, u) && u < |kv|
    ensures var m := Lift(lane, lanes);
      |m.write(kv, t, p)| == |kv| && m.write(kv, t, p)[u] == lane.write(kv[u], t[u], p[u])
      && m.logits(kv, t, p, u) == lane.logits(kv[u], t[u], p[u])
  {
  }

  function LiftedRun<C, L>(lane: Lane<C, L>, o: Options, prompts: seq<seq<int>>, maxBatchSize: nat)
    : (run: Run<seq<C>, L>)
    ensures run.Valid() && run.lanes == Max(maxBatchSize, |prompts|) && run.lens == Lengths(prompts)
    ensures run.model == Lift(lane, run.lanes) && run.pick == StepPick(Lift(lane, 0), o.sampling, o.collect)
  {
    BenchmarkRun(Lift(lane, Max(maxBatchSize, |prompts|)), prompts, Lengths(prompts), maxBatchSize, o)
  }

  /** What lane u holds before step k is what its prompt has alone. */
  ghost predicate LaneHolds<C, L>(run: Run<seq<C>, L>, lane: Lane<C, L>, o: Options, prompt: seq<int>, k: nat, u: nat)
    requires run.Valid() && u < |run.lens|
  {
    u < |run.At(k).kv| && (run.At(k).kv[u], run.At(k).row[u]) == LaneAt(lane, o, prompt, k)
  }

  lemma {:induction false} LaneStart<C, L>(
    lane: Lane<C, L>, o: Options, prompts: seq<seq<int>>, maxBatchSize: nat, u: nat)
    requires u < |prompts|
    ensures LaneHolds(LiftedRun(lane, o, prompts, maxBatchSize), lane, o, prompts[u], 0, u)
  {
    var run := LiftedRun(lane, o, prompts, maxBatchSize);
    assert run.At(0).row[u] == run.first[u];
  }

  lemma {:induction false} AloneStep<C, L>(lane: Lane<C, L>, o: Options, prompt: seq<int>, k: nat)
    ensures var (c, token) := LaneAt(lane, o, prompt, k);
      LaneAt(lane, o, prompt, k + 1)
      == (lane.write(c, token, |prompt| + k),
          StepPick(Lift(lane, 0), o.sampling, o.collect)(lane.logits(c, token, |prompt| + k)))
  {
  }

  lemma {:induction false} LaneStep<C, L>(
    run: Run<seq<C>, L>, lane: Lane<C, L>, o: Options, prompt: seq<int>, k: nat, u: nat)
    requires run.Valid() && u < |run.lens| && run.lens[u] == |prompt| && run.model == Lift(lane, run.lanes)
    requires run.pick == StepPick(Lift(lane, 0), o.sampling, o.collect)
    requires LaneHolds(run, lane, o, prompt, k, u)
    ensures LaneHolds(run, lane, o, prompt, k + 1, u)
  {
    var point, p := run.At(k), Positions(run.lens, run.lanes, k);
    RunStep(run, k, u);
    LiftStep(lane, run.lanes, point.kv, point.row, p, u);
    AloneStep(lane, o, prompt, k);
  }

  /** The chain of a batch, lane by lane, is the chain of each prompt alone. */
  lemma {:induction false} LanesDoNotInteract<C, L>(
    lane: Lane<C, L>, o: Options, prompts: seq<seq<int>>, maxBatchSize: nat, k: nat, u: nat)
    requires u < |prompts|
    ensures LaneHolds(LiftedRun(lane, o, prompts, maxBatchSize), lane, o, prompts[u], k, u)
  {
    if k == 0 {
      LaneStart(lane, o, prompts, maxBatchSize, u);
    } else {
      LanesDoNotInteract(lane, o, prompts, maxBatchSize, k - 1, u);
      LaneStep(LiftedRun(lane, o, prompts, maxBatchSize), lane, o, prompts[u], k - 1, u);
    }
  }

  /** A user's stream depends on that user's prompt only: not on the batch, the slot, or the cardinality. */
  lemma {:induction false} StreamsAreLaneStreams<C, L>(
    lane: Lane<C, L>, o: Options, prompts: seq<seq<int>>, maxBatchSize: nat, n: nat, u: nat)
    requires u < |prompts|
    ensures LiftedRun(lane, o, prompts, maxBatchSize).Stream(AllSteps(n), u) == LaneStream(lane, o, prompts[u], n)
  {
    var run := LiftedRun(lane, o, prompts, maxBatchSize);
    forall k | 0 <= k <= n ensures run.Stream(AllSteps(n), u)[k] == LaneAt(lane, o, prompts[u], k).1 {
      LanesDoNotInteract(lane, o, prompts, maxBatchSize, k, u);
      StreamAt(run, n, u, k);
    }
  }
}
