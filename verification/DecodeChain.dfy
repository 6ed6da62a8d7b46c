/**
The autoregressive chain that every decode mode of `run_perf_benchmark` must return
(examples/common/run_helpers.py).

The device is an arbitrary deterministic model: a cache update and one row of logits per lane, as
functions of the cache, the lane tokens and the lane positions.  Idle lanes have position -1.
*/
module DecodeChain {
  import opened Prelude

  datatype Model<!K, !L> = Model(
    prefillCache: (seq<seq<int>>, seq<nat>) -> K,
    prefillLogits: (seq<seq<int>>, seq<nat>, nat) -> L,
    write: (K, seq<int>, seq<int>) -> K,
    logits: (K, seq<int>, seq<int>, nat) -> L,
    argmax: L -> int,
    top1: L -> int,
    margin: L -> real,
    sample: L -> int)

  /** Tokens that agree on every active lane. */
  ghost predicate SameActive(t: seq<int>, t': seq<int>, positions: seq<int>) {
    |t| == |t'| == |positions| && forall u :: 0 <= u < |t| && positions[u] >= 0 ==> t[u] == t'[u]
  }

  /** The token of an idle lane influences neither the cache nor the logits of an active lane. */
  ghost predicate IgnoresIdle<K(!new), L>(m: Model<K, L>) {
    forall kv, t, t', p | SameActive(t, t', p) ::
      m.write(kv, t, p) == m.write(kv, t', p)
      && forall u :: 0 <= u < |p| && p[u] >= 0 ==> m.logits(kv, t, p, u) == m.logits(kv, t', p, u)
  }

  /** The host argmax, the top-2 diagnostic and the device sampler choose the same token. */
  ghost predicate SamplesAsHost<K, L(!new)>(m: Model<K, L>) {
    forall l :: m.sample(l) == m.argmax(l) == m.top1(l)
  }

  datatype Point<K> = Point(kv: K, row: seq<int>)

  /** Positions of all lanes at decode step `step`: -1 on idle lanes. */
  function Positions(lens: seq<nat>, lanes: nat, step: nat): (p: seq<int>)
    ensures |p| == lanes
  {
    seq(lanes, u requires 0 <= u < lanes => if u < |lens| then lens[u] + step else -1)
  }

  /** The active tokens followed by zeros for the idle lanes. */
  function Padded(row: seq<int>, lanes: nat): (t: seq<int>)
    ensures |t| == lanes
  {
    seq(lanes, u requires 0 <= u < lanes => if u < |row| then row[u] else 0)
  }

  /**
   One benchmark run, reduced to what determines its tokens.  `feedsIdle` says whether idle lanes go on with a
   token of their own, as on a sampling device, or with a zero, as in the host's tensor.
   */
  datatype Run<!K, !L> = Run(
    model: Model<K, L>, pick: L -> int, kv: K, first: seq<int>, lens: seq<nat>, lanes: nat, feedsIdle: bool)
  {
    /** Cache and newest tokens of all lanes after `k` decode steps. */
    function At(k: nat): (p: Point<K>)
      ensures |p.row| == lanes
    {
      if k == 0 then Point(kv, Padded(first, lanes))
      else
        var p := At(k - 1);
        Point(model.write(p.kv, p.row, Positions(lens, lanes, k - 1)),
              seq(lanes, u requires 0 <= u < lanes =>
                if u < |lens| || feedsIdle then pick(LogitsFrom(p, k - 1, u)) else 0))
    }

    /** Logits of lane `u` when step `k` starts from `p`. */
    function LogitsFrom(p: Point<K>, k: nat, u: nat): L {
      model.logits(p.kv, p.row, Positions(lens, lanes, k), u)
    }

    /** The newest tokens of the active lanes. */
    function ActiveRow(k: nat): (row: seq<int>)
      requires Valid()
      ensures |row| == |lens|
    {
      At(k).row[..|lens|]
    }

    ghost predicate Valid() {
      |first| == |lens| <= lanes
    }

    /** The token that step `k` gives user `u`. */
    function Token(k: nat, u: nat): int
      requires u < |lens| <= lanes
    {
      At(k + 1).row[u]
    }

    /** What user `u` has been handed after the outputs of steps `steps` were consumed. */
    function Stream(steps: seq<nat>, u: nat): (s: seq<int>)
      requires Valid() && u < |lens|
      ensures |s| == |steps| + 1
    {
      [first[u]] + Map(k => Token(k, u), steps)
    }

    function Streams(steps: seq<nat>): (s: seq<seq<int>>)
      requires Valid()
      ensures |s| == |lens|
    {
      seq(|lens|, u requires 0 <= u < |lens| => Stream(steps, u))
    }
  }

  function AllSteps(n: nat): (steps: seq<nat>)
    ensures |steps| == n && forall k :: 0 <= k < n ==> steps[k] == k
  {
    seq(n, k => k)
  }

  /** The top-2 margins behind the tokens of `run`, given the margins of the prefill logits. */
  function MarginStreams<K, L>(run: Run<K, L>, firstMargins: seq<real>, n: nat): (s: seq<seq<real>>)
    requires |firstMargins| == |run.lens|
    ensures |s| == |run.lens| && forall u :: 0 <= u < |s| ==> |s[u]| == n + 1
  {
    seq(|run.lens|, u requires 0 <= u < |run.lens| =>
      [firstMargins[u]] + Map(k => run.model.margin(run.LogitsFrom(run.At(k), k, u)), AllSteps(n)))
  }

  lemma MarginStreamsExtend<K, L>(run: Run<K, L>, firstMargins: seq<real>, n: nat, row: seq<real>)
    requires |firstMargins| == |run.lens| == |row|
    requires forall u :: 0 <= u < |row| ==> row[u] == run.model.margin(run.LogitsFrom(run.At(n), n, u))
    ensures Appended(MarginStreams(run, firstMargins, n), row) == MarginStreams(run, firstMargins, n + 1)
  {
    assert AllSteps(n + 1) == AllSteps(n) + [n];
    forall u | 0 <= u < |row|
      ensures Appended(MarginStreams(run, firstMargins, n), row)[u] == MarginStreams(run, firstMargins, n + 1)[u]
    {
      MapAppend((k: nat) => run.model.margin(run.LogitsFrom(run.At(k), k, u)), AllSteps(n), [n]);
    }
  }

  /** Appending one row of tokens to the per-user lists. */
  function Appended<T>(lists: seq<seq<T>>, row: seq<T>): (r: seq<seq<T>>)
    requires |lists| == |row|
  {
    seq(|lists|, u requires 0 <= u < |lists| => lists[u] + [row[u]])
  }

  lemma StreamsStart<K, L>(run: Run<K, L>)
    requires run.Valid()
    ensures forall u :: 0 <= u < |run.first| ==> run.Streams([])[u] == [run.first[u]]
  {
  }

  lemma MarginStreamsStart<K, L>(run: Run<K, L>, firstMargins: seq<real>)
    requires |firstMargins| == |run.lens|
    ensures forall u :: 0 <= u < |firstMargins| ==> MarginStreams(run, firstMargins, 0)[u] == [firstMargins[u]]
  {
    assert AllSteps(0) == [];
  }

  lemma StreamsExtend<K, L>(run: Run<K, L>, steps: seq<nat>, k: nat)
    requires run.Valid()
    ensures Appended(run.Streams(steps), run.ActiveRow(k + 1)) == run.Streams(steps + [k])
  {
    forall u | 0 <= u < |run.lens|
      ensures Appended(run.Streams(steps), run.ActiveRow(k + 1))[u] == run.Streams(steps + [k])[u]
    {
      MapAppend((j: nat) => run.Token(j, u), steps, [k]);
    }
  }

  /** Token k of a complete stream is the user's token after k steps. */
  lemma {:induction false} StreamAt<K, L>(run: Run<K, L>, n: nat, u: nat, k: nat)
    requires run.Valid() && u < |run.lens| && k <= n
    ensures run.Stream(AllSteps(n), u)[k] == run.At(k).row[u]
  {
    if k > 0 {
      assert run.Stream(AllSteps(n), u)[k] == run.Token(k - 1, u);
    }
  }

  // ---- Which outputs reach the host

  /** The steps below `n` whose output is present, in order. */
  function Delivered(present: nat -> bool, n: nat): (steps: seq<nat>)
    ensures |steps| <= n
  {
    if n == 0 then [] else Delivered(present, n - 1) + (if present(n - 1) then [n - 1] else [])
  }

  /** Each present step is delivered exactly once, in submission order, and nothing else is. */
  lemma {:induction false} DeliveredExactly(present: nat -> bool, n: nat)
    ensures var d := Delivered(present, n);
      && (forall k: nat :: k in d <==> k < n && present(k))
      && (forall i, j :: 0 <= i < j < |d| ==> d[i] < d[j])
  {
    if n > 0 {
      DeliveredExactly(present, n - 1);
      var d := Delivered(present, n - 1);
      assert forall i :: 0 <= i < |d| ==> d[i] in d;
    }
  }

  /** What is delivered early stays delivered. */
  lemma {:induction false} DeliveredGrows(present: nat -> bool, k: nat, n: nat)
    requires k <= n
    ensures Delivered(present, k) <= Delivered(present, n)
    decreases n
  {
    if k < n {
      DeliveredGrows(present, k, n - 1);
    }
  }

  /** No output is lost exactly when every read is present. */
  lemma {:induction false} DeliveredComplete(present: nat -> bool, n: nat)
    ensures |Delivered(present, n)| == n <==> forall k: nat :: k < n ==> present(k)
    ensures (forall k: nat :: k < n ==> present(k)) ==> Delivered(present, n) == seq(n, i => i)
  {
    if n > 0 {
      DeliveredComplete(present, n - 1);
    }
  }

  // ---- The chain does not depend on the mode

  /** Two runs of one batch that may differ in the name of the picker and in what idle lanes are fed. */
  ghost predicate SameBatch<K, L(!new)>(a: Run<K, L>, b: Run<K, L>) {
    && a.Valid() && b == a.(pick := b.pick, feedsIdle := b.feedsIdle)
    && forall l :: a.pick(l) == b.pick(l)
  }

  ghost predicate SamePoint<K, L>(a: Run<K, L>, b: Run<K, L>, k: nat) {
    a.At(k).kv == b.At(k).kv && SameActive(a.At(k).row, b.At(k).row, Positions(a.lens, a.lanes, k))
  }

  lemma IdleIgnored<K(!new), L>(m: Model<K, L>, kv: K, t: seq<int>, t': seq<int>, p: seq<int>)
    requires SameActive(t, t', p) && (t == t' || IgnoresIdle(m))
    ensures m.write(kv, t, p) == m.write(kv, t', p)
    ensures forall u :: 0 <= u < |p| && p[u] >= 0 ==> m.logits(kv, t, p, u) == m.logits(kv, t', p, u)
  {
  }

  /** What idle lanes are fed does not reach the active lanes if there are none, or if the model ignores them. */
  lemma {:induction false} ChainIgnoresIdleFeed<K(!new), L(!new)>(a: Run<K, L>, b: Run<K, L>, k: nat)
    requires SameBatch(a, b)
    requires a.feedsIdle == b.feedsIdle || |a.lens| == a.lanes || IgnoresIdle(a.model)
    ensures SamePoint(a, b, k)
    ensures a.feedsIdle == b.feedsIdle ==> a.At(k) == b.At(k)
  {
    if k > 0 {
      ChainIgnoresIdleFeed(a, b, k - 1);
      var p, q := a.At(k - 1), b.At(k - 1);
      if |a.lens| == a.lanes {
        assert p.row == q.row;
      }
      IdleIgnored(a.model, p.kv, p.row, q.row, Positions(a.lens, a.lanes, k - 1));
      forall u | 0 <= u < |a.lens| ensures a.At(k).row[u] == b.At(k).row[u] {
        assert a.LogitsFrom(p, k - 1, u) == b.LogitsFrom(q, k - 1, u);
        assert a.pick(a.LogitsFrom(p, k - 1, u)) == b.pick(b.LogitsFrom(q, k - 1, u));
      }
      if a.feedsIdle == b.feedsIdle {
        SameFeedSameRow(a, b, k);
      }
    }
  }

  lemma {:induction false} SameFeedSameRow<K, L(!new)>(a: Run<K, L>, b: Run<K, L>, k: nat)
    requires SameBatch(a, b) && a.feedsIdle == b.feedsIdle && k > 0 && a.At(k - 1) == b.At(k - 1)
    ensures a.At(k) == b.At(k)
  {
    var p := a.At(k - 1);
    forall u | 0 <= u < a.lanes ensures a.At(k).row[u] == b.At(k).row[u] {
      assert a.LogitsFrom(p, k - 1, u) == b.LogitsFrom(p, k - 1, u);
      assert a.pick(a.LogitsFrom(p, k - 1, u)) == b.pick(b.LogitsFrom(p, k - 1, u));
    }
  }

  lemma {:induction false} StreamIgnoresIdleFeed<K(!new), L(!new)>(
    a: Run<K, L>, b: Run<K, L>, steps: seq<nat>, u: nat)
    requires SameBatch(a, b) && u < |a.lens|
    requires a.feedsIdle == b.feedsIdle || |a.lens| == a.lanes || IgnoresIdle(a.model)
    ensures a.Stream(steps, u) == b.Stream(steps, u)
  {
    forall i | 0 <= i < |steps| ensures a.Token(steps[i], u) == b.Token(steps[i], u) {
      ChainIgnoresIdleFeed(a, b, steps[i] + 1);
    }
  }

  lemma {:induction false} StreamsIgnoreIdleFeed<K(!new), L(!new)>(a: Run<K, L>, b: Run<K, L>, steps: seq<nat>)
    requires SameBatch(a, b)
    requires a.feedsIdle == b.feedsIdle || |a.lens| == a.lanes || IgnoresIdle(a.model)
    ensures a.Streams(steps) == b.Streams(steps)
  {
    forall u | 0 <= u < |a.lens| ensures a.Stream(steps, u) == b.Stream(steps, u) {
      StreamIgnoresIdleFeed(a, b, steps, u);
    }
  }
}
