/**
Teacher forcing (examples/common/run_helpers.py) and the alignment of its top-5 reference
(examples/qwen25_7b/benchmark.py).

The target's caches record which token each position of each user carries; its prediction for a user
is an arbitrary function of all caches, taken after the tokens of the call are written.
*/
module TeacherForcing {
  import opened Prelude

  type Cache = map<int, int>

  datatype ForcingError = BatchMismatch | EmptyBatch

  function PromptCache(prompt: seq<int>): Cache {
    map p | 0 <= p < |prompt| :: prompt[p]
  }

  function Written(caches: seq<Cache>, tokens: seq<int>, positions: seq<int>): (r: seq<Cache>)
    requires |tokens| == |positions| == |caches|
  {
    seq(|caches|, u requires 0 <= u < |caches| => caches[u][positions[u] := tokens[u]])
  }

  class Target {
    const predict: (nat, seq<Cache>) -> int
    var caches: seq<Cache>

    constructor (predict: (nat, seq<Cache>) -> int)
      ensures this.predict == predict
    {
      this.predict, caches := predict, [];
    }

    function Row(): (row: seq<int>)
      reads this
      ensures |row| == |caches|
    {
      var c := caches;
      seq(|c|, u requires 0 <= u < |c| => predict(u, c))
    }

    method PrefillForward(prompts: seq<seq<int>>) returns (tokens: seq<int>)
      modifies this
      ensures caches == Map(PromptCache, prompts) && tokens == Row()
    {
      caches := Map(PromptCache, prompts);
      tokens := Row();
    }

    method DecodeForward(tokens: seq<int>, positions: seq<int>) returns (next: seq<int>)
      requires |tokens| == |positions| == |caches|
      modifies this
      ensures caches == Written(old(caches), tokens, positions) && next == Row()
    {
      caches := Written(caches, tokens, positions);
      next := Row();
    }
  }

  /** User `u`'s cache when target `i` is predicted: the prompt, then the reference up to that target. */
  function FedCache(prompt: seq<int>, reference: seq<int>, i: nat): (c: Cache)
    requires |prompt| + i <= |reference| || i == 0
  {
    map p | 0 <= p < |prompt| + i :: if p < |prompt| then prompt[p] else reference[p]
  }

  function FedCaches(prompts: seq<seq<int>>, reference: seq<int>, promptLen: nat, i: nat): (r: seq<Cache>)
    requires forall u :: 0 <= u < |prompts| ==> |prompts[u]| == promptLen
    requires promptLen + i <= |reference| || i == 0
  {
    seq(|prompts|, u requires 0 <= u < |prompts| => FedCache(prompts[u], reference, i))
  }

  /** When the prompt is the reference prefix, what was fed is the reference prefix and nothing else. */
  lemma FedIsReferencePrefix(prompt: seq<int>, reference: seq<int>, i: nat)
    requires prompt <= reference && |prompt| + i <= |reference|
    ensures FedCache(prompt, reference, i) == PromptCache(reference[..|prompt| + i])
  {
  }

  /** Every prediction has its row of reference tokens, best first. */
  predicate Covers(top5: seq<seq<int>>, predicted: seq<int>) {
    |top5| >= |predicted| && forall i :: 0 <= i < |top5| ==> top5[i] != []
  }

  datatype TeacherForceResult = TeacherForceResult(
    predictedTokens: seq<int>, predictedTokensPerUser: seq<seq<int>>, referenceTop5: seq<seq<int>>,
    decodeTimes: seq<real>)
  {
    predicate Scorable() {
      predictedTokens != [] && Covers(referenceTop5, predictedTokens)
    }

    function Top1Accuracy(): real
      requires Scorable()
    {
      Hits1(predictedTokens, referenceTop5) as real / |predictedTokens| as real
    }

    function Top5Accuracy(): real
      requires Scorable()
    {
      Hits5(predictedTokens, referenceTop5) as real / |predictedTokens| as real
    }
  }

  function Hits1(predicted: seq<int>, top5: seq<seq<int>>): (n: nat)
    requires Covers(top5, predicted)
  {
    if predicted == [] then 0
    else
      var last := |predicted| - 1;
      Hits1(predicted[..last], top5) + if top5[last][0] == predicted[last] then 1 else 0
  }

  function Hits5(predicted: seq<int>, top5: seq<seq<int>>): (n: nat)
    requires Covers(top5, predicted)
  {
    if predicted == [] then 0
    else
      var last := |predicted| - 1;
      Hits5(predicted[..last], top5) + if predicted[last] in top5[last] then 1 else 0
  }

  /** The positions whose best, or whose any, reference token was predicted. */
  ghost function RankedFirst(predicted: seq<int>, top5: seq<seq<int>>): (hits: set<int>)
    requires Covers(top5, predicted)
  {
    set i | 0 <= i < |predicted| && predicted[i] == top5[i][0]
  }

  ghost function Ranked(predicted: seq<int>, top5: seq<seq<int>>): (hits: set<int>)
    requires Covers(top5, predicted)
  {
    set i | 0 <= i < |predicted| && exists k :: 0 <= k < |top5[i]| && top5[i][k] == predicted[i]
  }

  lemma {:induction false} Hits1Exactly(predicted: seq<int>, top5: seq<seq<int>>)
    requires Covers(top5, predicted)
    ensures Hits1(predicted, top5) == |RankedFirst(predicted, top5)|
  {
    if predicted != [] {
      var last := |predicted| - 1;
      var before := predicted[..last];
      Hits1Exactly(before, top5);
      var some: set<int> := if top5[last][0] == predicted[last] then {last} else {};
      assert RankedFirst(predicted, top5) == RankedFirst(before, top5) + some;
    }
  }

  ghost predicate RanksAt(predicted: seq<int>, top5: seq<seq<int>>, i: int)
    requires Covers(top5, predicted)
  {
    0 <= i < |predicted| && predicted[i] in top5[i]
  }

  lemma {:induction false} Hits5Counts(predicted: seq<int>, top5: seq<seq<int>>, hits: set<int>)
    requires Covers(top5, predicted) && forall i :: i in hits <==> RanksAt(predicted, top5, i)
    ensures Hits5(predicted, top5) == |hits|
  {
    if predicted == [] {
      forall i ensures i !in hits {
        assert i in hits <==> RanksAt(predicted, top5, i);
      }
    } else {
      var last := |predicted| - 1;
      var before, rest := predicted[..last], hits - {last};
      forall i ensures i in rest <==> RanksAt(before, top5, i) {
        assert i in hits <==> RanksAt(predicted, top5, i);
      }
      Hits5Counts(before, top5, rest);
      assert last in hits <==> RanksAt(predicted, top5, last);
      assert last in hits ==> hits == rest + {last};
      assert last !in hits ==> hits == rest;
    }
  }

  /** The counts are the numbers of such positions. */
  lemma {:induction false} HitsExactly(predicted: seq<int>, top5: seq<seq<int>>)
    requires Covers(top5, predicted)
    ensures Hits1(predicted, top5) == |RankedFirst(predicted, top5)|
    ensures Hits5(predicted, top5) == |Ranked(predicted, top5)|
  {
    Hits1Exactly(predicted, top5);
    var hits := Ranked(predicted, top5);
    forall i ensures i in hits <==> RanksAt(predicted, top5, i) {
    }
    Hits5Counts(predicted, top5, hits);
  }

  lemma {:induction false} HitsOrdered(predicted: seq<int>, top5: seq<seq<int>>)
    requires Covers(top5, predicted)
    ensures Hits1(predicted, top5) <= Hits5(predicted, top5) <= |predicted|
  {
    if predicted != [] {
      HitsOrdered(predicted[..|predicted| - 1], top5);
    }
  }

  lemma AccuraciesOrdered(r: TeacherForceResult)
    requires r.Scorable()
    ensures 0.0 <= r.Top1Accuracy() <= r.Top5Accuracy() <= 1.0
  {
    HitsOrdered(r.predictedTokens, r.referenceTop5);
    QuotientOrder(Hits1(r.predictedTokens, r.referenceTop5), Hits5(r.predictedTokens, r.referenceTop5),
                  |r.predictedTokens|);
  }

  /** What every user's prediction list must hold: one prediction per target, at least the prefill's. */
  function Predictions(target: Target, prompts: seq<seq<int>>, reference: seq<int>, promptLen: nat, n: nat, u: nat)
    : (r: seq<int>)
    requires forall v :: 0 <= v < |prompts| ==> |prompts[v]| == promptLen
    requires promptLen + n <= |reference| || n == 0
  {
    seq(n + 1, i requires 0 <= i <= n => target.predict(u, FedCaches(prompts, reference, promptLen, i)))
  }

  function AllPredictions(target: Target, prompts: seq<seq<int>>, reference: seq<int>, promptLen: nat, n: nat)
    : (r: seq<seq<int>>)
    requires forall v :: 0 <= v < |prompts| ==> |prompts[v]| == promptLen
    requires promptLen + n <= |reference| || n == 0
    ensures |r| == |prompts| && forall u :: 0 <= u < |r| ==> |r[u]| == n + 1
  {
    seq(|prompts|, u requires 0 <= u < |prompts| => Predictions(target, prompts, reference, promptLen, n, u))
  }

  /** What is in a cache, position by position, does not leave it a choice. */
  ghost predicate HoldsReference(c: Cache, prompt: seq<int>, reference: seq<int>, length: nat) {
    && (forall p :: p in c <==> 0 <= p < length)
    && (forall p :: 0 <= p < length && p < |prompt| ==> p in c && c[p] == prompt[p])
    && (forall p :: |prompt| <= p < length && p < |reference| ==> p in c && c[p] == reference[p])
  }

  /**
   Prediction i of user u comes from caches that hold, for every user, the prompt and then the reference up to
   target i: no prediction was ever fed back.
   */
  lemma {:induction false} PredictionsExactly(
    target: Target, prompts: seq<seq<int>>, reference: seq<int>, promptLen: nat, n: nat, u: nat, i: nat,
    caches: seq<Cache>)
    requires forall v :: 0 <= v < |prompts| ==> |prompts[v]| == promptLen
    requires promptLen + n <= |reference| || n == 0
    requires u < |prompts| == |caches| && i <= n
    requires forall v :: 0 <= v < |prompts| ==> HoldsReference(caches[v], prompts[v], reference, promptLen + i)
    ensures AllPredictions(target, prompts, reference, promptLen, n)[u][i] == target.predict(u, caches)
  {
    var fed := FedCaches(prompts, reference, promptLen, i);
    forall v | 0 <= v < |prompts| ensures caches[v] == fed[v] {
      var c := caches[v];
      assert HoldsReference(c, prompts[v], reference, promptLen + i);
      forall p | p in c ensures p in fed[v] && c[p] == fed[v][p] {
      }
    }
    assert caches == fed;
  }

  lemma FedStep(prompts: seq<seq<int>>, reference: seq<int>, promptLen: nat, i: nat)
    requires forall u :: 0 <= u < |prompts| ==> |prompts[u]| == promptLen
    requires promptLen + i < |reference|
    ensures Written(FedCaches(prompts, reference, promptLen, i), seq(|prompts|, _ => reference[promptLen + i]),
                    seq(|prompts|, _ => promptLen + i)) == FedCaches(prompts, reference, promptLen, i + 1)
  {
    forall u | 0 <= u < |prompts|
      ensures FedCache(prompts[u], reference, i)[promptLen + i := reference[promptLen + i]]
           == FedCache(prompts[u], reference, i + 1)
    {
      assert |prompts[u]| == promptLen;
    }
  }

  lemma FedStart(prompts: seq<seq<int>>, reference: seq<int>, promptLen: nat)
    requires forall u :: 0 <= u < |prompts| ==> |prompts[u]| == promptLen
    ensures Map(PromptCache, prompts) == FedCaches(prompts, reference, promptLen, 0)
  {
    forall u | 0 <= u < |prompts| ensures PromptCache(prompts[u]) == FedCache(prompts[u], reference, 0) {
    }
  }

  ghost predicate PredictedSoFar(
    target: Target, prompts: seq<seq<int>>, reference: seq<int>, promptLen: nat, n: nat, predicted: seq<seq<int>>)
    requires forall v :: 0 <= v < |prompts| ==> |prompts[v]| == promptLen
    requires promptLen + n <= |reference| || n == 0
  {
    && |predicted| == |prompts|
    && forall u :: 0 <= u < |prompts| ==> predicted[u] == Predictions(target, prompts, reference, promptLen, n, u)
  }

  /** One decode step: every user is fed the reference token of the position, whatever was predicted. */
  method ForceStep(
    target: Target, prompts: seq<seq<int>>, promptLen: nat, reference: seq<int>, i: nat, before: seq<seq<int>>)
    returns (predicted: seq<seq<int>>)
    requires forall u :: 0 <= u < |prompts| ==> |prompts[u]| == promptLen
    requires promptLen + i < |reference|
    requires target.caches == FedCaches(prompts, reference, promptLen, i)
    requires PredictedSoFar(target, prompts, reference, promptLen, i, before)
    modifies target
    ensures target.caches == FedCaches(prompts, reference, promptLen, i + 1)
    ensures PredictedSoFar(target, prompts, reference, promptLen, i + 1, predicted)
  {
    var groundTruth := reference[promptLen + i];
    FedStep(prompts, reference, promptLen, i);
    var next := target.DecodeForward(seq(|prompts|, _ => groundTruth), seq(|prompts|, _ => promptLen + i));
    predicted := AppendPredictions(before, next);
  }

  method RunTeacherForcing(
    target: Target, prompts: seq<seq<int>>, promptLen: nat, reference: seq<int>, top5: seq<seq<int>>, maxBatchSize: nat)
    returns (r: Result<TeacherForceResult, ForcingError>)
    requires forall u :: 0 <= u < |prompts| ==> |prompts[u]| == promptLen
    modifies target
    ensures r.Err? <==> |prompts| != maxBatchSize || |prompts| == 0
    ensures r == Err(BatchMismatch) <==> |prompts| != maxBatchSize
    ensures r == Err(EmptyBatch) <==> |prompts| == maxBatchSize == 0
    ensures var numTarget := |reference| - promptLen;
      r.Ok? ==>
        && r.value.predictedTokensPerUser
           == AllPredictions(target, prompts, reference, promptLen, Max(numTarget, 1) - 1)
        && r.value.predictedTokens == r.value.predictedTokensPerUser[0]
        && r.value.referenceTop5 == PrefixSlice(top5, numTarget)
        && |r.value.decodeTimes| == Max(numTarget - 2, 0)
  {
    var batchSize := |prompts|;
    if batchSize != maxBatchSize {
      return Err(BatchMismatch);
    }
    var numTarget := |reference| - promptLen;
    var firstTokens := target.PrefillForward(prompts);
    var predicted := Map(token => [token], firstTokens);
    var decodeTimes: seq<real> := [];
    FedStart(prompts, reference, promptLen);
    for step := 1 to Max(numTarget, 1)
      invariant target.caches == FedCaches(prompts, reference, promptLen, step - 1)
      invariant PredictedSoFar(target, prompts, reference, promptLen, step - 1, predicted)
      invariant |decodeTimes| == Max(step - 2, 0)
    {
      predicted := ForceStep(target, prompts, promptLen, reference, step - 1, predicted);
      if step != 1 {
        var elapsed: real := *;
        decodeTimes := decodeTimes + [elapsed];
      }
    }
    if batchSize == 0 {
      return Err(EmptyBatch);
    }
    return Ok(TeacherForceResult(predicted[0], predicted, PrefixSlice(top5, numTarget), decodeTimes));
  }

  method AppendPredictions(lists: seq<seq<int>>, next: seq<int>) returns (r: seq<seq<int>>)
    requires |lists| == |next|
    ensures |r| == |lists| && forall u :: 0 <= u < |lists| ==> r[u] == lists[u] + [next[u]]
  {
    r := lists;
    for u := 0 to |next|
      invariant |r| == |lists|
      invariant forall v :: 0 <= v < u ==> r[v] == lists[v] + [next[v]]
      invariant forall v :: u <= v < |lists| ==> r[v] == lists[v]
    {
      r := r[u := r[u] + [next[u]]];
    }
  }

  // ---- Aligning the top-5 reference with the targets

  datatype AlignError = PromptTooLong | CannotAlign

  /** How many of the first `probe` targets window `start` ranks first. */
  function Score(top5: seq<seq<int>>, targets: seq<int>, start: nat, probe: nat): (n: nat)
    requires probe <= |targets| && start + probe <= |top5|
    requires forall i :: 0 <= i < |top5| ==> top5[i] != []
    ensures n <= probe
  {
    if probe == 0 then 0
    else Score(top5, targets, start, probe - 1) + if top5[start + probe - 1][0] == targets[probe - 1] then 1 else 0
  }

  /** The probed targets that window `start` ranks first. */
  ghost function Agreeing(top5: seq<seq<int>>, targets: seq<int>, start: nat, probe: nat): (hits: set<int>)
    requires probe <= |targets| && start + probe <= |top5|
    requires forall i :: 0 <= i < |top5| ==> top5[i] != []
  {
    set i | 0 <= i < probe && top5[start + i][0] == targets[i]
  }

  lemma {:induction false} ScoreExactly(top5: seq<seq<int>>, targets: seq<int>, start: nat, probe: nat)
    requires probe <= |targets| && start + probe <= |top5|
    requires forall i :: 0 <= i < |top5| ==> top5[i] != []
    ensures Score(top5, targets, start, probe) == |Agreeing(top5, targets, start, probe)|
  {
    if probe > 0 {
      ScoreExactly(top5, targets, start, probe - 1);
      var last := if top5[start + (probe - 1)][0] == targets[probe - 1] then {probe - 1} else {};
      assert Agreeing(top5, targets, start, probe) == Agreeing(top5, targets, start, probe - 1) + last;
    }
  }

  lemma {:induction false} FullScore(top5: seq<seq<int>>, targets: seq<int>, start: nat, probe: nat)
    requires probe <= |targets| && start + probe <= |top5|
    requires forall i :: 0 <= i < |top5| ==> top5[i] != []
    ensures Score(top5, targets, start, probe) == probe
       <==> forall i :: 0 <= i < probe ==> top5[start + i][0] == targets[i]
  {
    if probe > 0 {
      FullScore(top5, targets, start, probe - 1);
      assert top5[start + (probe - 1)] == top5[start + probe - 1];
    }
  }

  /** A window that ranks every probed target first is never passed over for one that does not. */
  lemma AlignedWindowWins(start: nat, starts: seq<int>, top5: seq<seq<int>>, targets: seq<int>, probe: nat, s: nat)
    requires probe <= |targets| && forall i :: 0 <= i < |top5| ==> top5[i] != []
    requires BestStart(start, starts, top5, targets, probe) && s in starts && s + |targets| <= |top5|
    requires forall i :: 0 <= i < probe ==> top5[s + i][0] == targets[i]
    ensures start <= s && forall i :: 0 <= i < probe ==> top5[start + i][0] == targets[i]
  {
    FullScore(top5, targets, s, probe);
    FullScore(top5, targets, start, probe);
  }

  function Starts(promptLen: nat, metadataAligned: bool): seq<int> {
    if metadataAligned then [0, promptLen - 1, promptLen] else [promptLen - 1, promptLen]
  }

  predicate Fits(start: int, n: nat, top5: seq<seq<int>>) {
    0 <= start && start + n <= |top5|
  }

  /** `start` fits, no fitting start scores more, and none that scores as much comes before it. */
  ghost predicate BestStart(
    start: int, starts: seq<int>, top5: seq<seq<int>>, targets: seq<int>, probe: nat)
    requires probe <= |targets| && forall i :: 0 <= i < |top5| ==> top5[i] != []
  {
    && start in starts && Fits(start, |targets|, top5)
    && forall s :: s in starts && Fits(s, |targets|, top5) ==>
         var a, b := Score(top5, targets, s, probe), Score(top5, targets, start, probe);
         a < b || (a == b && start <= s)
  }

  /** Where a window may start: at 0 for aligned metadata, at the last prompt token, or behind it. */
  ghost predicate Candidate(s: int, n: int, rows: nat, promptLen: nat, metadataAligned: bool) {
    && ((metadataAligned && s == 0) || s == promptLen - 1 || s == promptLen)
    && 0 <= s && s + n <= rows
  }

  /** The window at `s` agrees with more of the first 16 targets than any candidate, or is the first that does. */
  ghost predicate BestWindow(
    s: int, top5: seq<seq<int>>, reference: seq<int>, promptLen: nat, metadataAligned: bool)
    requires promptLen < |reference| && forall i :: 0 <= i < |top5| ==> top5[i] != []
  {
    var n := |reference| - promptLen;
    var probe := if n < 16 then n else 16;
    && Candidate(s, n, |top5|, promptLen, metadataAligned)
    && forall c :: Candidate(c, n, |top5|, promptLen, metadataAligned) ==>
         var here := |Agreeing(top5, reference[promptLen..], s, probe)|;
         var there := |Agreeing(top5, reference[promptLen..], c, probe)|;
         there < here || (there == here && s <= c)
  }

  lemma CandidatesExactly(s: int, n: nat, top5: seq<seq<int>>, promptLen: nat, metadataAligned: bool)
    ensures Candidate(s, n, |top5|, promptLen, metadataAligned)
       <==> s in Starts(promptLen, metadataAligned) && Fits(s, n, top5)
  {
    var starts := Starts(promptLen, metadataAligned);
    assert s == promptLen - 1 ==> s in starts;
    assert s == promptLen ==> s in starts;
  }

  lemma {:induction false} BestIsBestWindow(
    s: int, top5: seq<seq<int>>, reference: seq<int>, promptLen: nat, metadataAligned: bool)
    requires promptLen < |reference| && forall i :: 0 <= i < |top5| ==> top5[i] != []
    requires var targets := reference[promptLen..];
      BestStart(s, Starts(promptLen, metadataAligned), top5, targets, Min(16, |targets|))
    ensures BestWindow(s, top5, reference, promptLen, metadataAligned)
  {
    var targets := reference[promptLen..];
    var n, probe := |targets|, Min(16, |targets|);
    CandidatesExactly(s, n, top5, promptLen, metadataAligned);
    ScoreExactly(top5, targets, s, probe);
    forall c | Candidate(c, n, |top5|, promptLen, metadataAligned)
      ensures var here, there := |Agreeing(top5, targets, s, probe)|, |Agreeing(top5, targets, c, probe)|;
        there < here || (there == here && s <= c)
    {
      CandidatesExactly(c, n, top5, promptLen, metadataAligned);
      ScoreExactly(top5, targets, c, probe);
    }
  }

  lemma {:induction false} NothingFits(n: nat, top5: seq<seq<int>>, promptLen: nat, metadataAligned: bool)
    ensures (forall s :: s in Starts(promptLen, metadataAligned) ==> !Fits(s, n, top5))
       <==> forall s :: !Candidate(s, n, |top5|, promptLen, metadataAligned)
  {
    forall s ensures Candidate(s, n, |top5|, promptLen, metadataAligned)
                <==> s in Starts(promptLen, metadataAligned) && Fits(s, n, top5)
    {
      CandidatesExactly(s, n, top5, promptLen, metadataAligned);
    }
  }

  method SelectTop5Slice(top5: seq<seq<int>>, reference: seq<int>, promptLen: nat, metadataAligned: bool)
    returns (r: Result<seq<seq<int>>, AlignError>)
    requires forall i :: 0 <= i < |top5| ==> top5[i] != []
    ensures r == Err(PromptTooLong) <==> |reference| <= promptLen
    ensures |reference| > promptLen ==>
      var n := |reference| - promptLen;
      (r.Err? <==> !(metadataAligned && |top5| == n)
                   && forall s :: !Candidate(s, n, |top5|, promptLen, metadataAligned))
    ensures r.Ok? ==> |r.value| == |reference| - promptLen
    ensures r.Ok? && metadataAligned && |top5| == |reference| - promptLen ==> r.value == top5
    ensures r.Ok? && !(metadataAligned && |top5| == |reference| - promptLen) ==>
      exists s :: BestWindow(s, top5, reference, promptLen, metadataAligned) && r.value == top5[s..s + |r.value|]
  {
    var numTarget := |reference| - promptLen;
    if numTarget <= 0 {
      return Err(PromptTooLong);
    }
    var targets := reference[promptLen..];
    if metadataAligned && |top5| == numTarget {
      return Ok(top5);
    }
    var best := BestCandidate(Starts(promptLen, metadataAligned), top5, targets, Min(16, numTarget));
    NothingFits(numTarget, top5, promptLen, metadataAligned);
    if best == None {
      return Err(CannotAlign);
    }
    BestIsBestWindow(best.value, top5, reference, promptLen, metadataAligned);
    return Ok(top5[best.value..best.value + numTarget]);
  }

  /** The candidate loop and `max(candidates, key=score)`, which takes the first best. */
  method BestCandidate(starts: seq<int>, top5: seq<seq<int>>, targets: seq<int>, probe: nat)
    returns (start: Option<nat>)
    requires probe <= |targets| && forall i :: 0 <= i < |top5| ==> top5[i] != []
    requires forall i, j :: 0 <= i < j < |starts| && starts[i] >= 0 && starts[j] >= 0 ==> starts[i] <= starts[j]
    ensures start == None <==> forall s :: s in starts ==> !Fits(s, |targets|, top5)
    ensures start.Some? ==> BestStart(start.value, starts, top5, targets, probe)
  {
    start := None;
    var best: nat := 0;
    for j := 0 to |starts|
      invariant start == None ==> forall i :: 0 <= i < j ==> !Fits(starts[i], |targets|, top5)
      invariant start.Some? ==> BestStart(start.value, starts[..j], top5, targets, probe)
      invariant start.Some? ==> best == Score(top5, targets, start.value, probe)
    {
      var candidate := starts[j];
      assert starts[..j + 1] == starts[..j] + [candidate];
      if Fits(candidate, |targets|, top5) {
        var score := Score(top5, targets, candidate, probe);
        if start == None || score > best {
          start, best := Some(candidate), score;
        }
      }
    }
    assert starts[..|starts|] == starts;
  }

  /** Alignment and forcing together: user 0's prediction of every target is scored against its window row. */
  method AlignedAccuracy(
    target: Target, prompts: seq<seq<int>>, promptLen: nat, reference: seq<int>, top5: seq<seq<int>>,
    metadataAligned: bool) returns (window: Result<seq<seq<int>>, AlignError>, top1: real, top5Accuracy: real)
    requires prompts != [] && forall u :: 0 <= u < |prompts| ==> |prompts[u]| == promptLen
    requires forall i :: 0 <= i < |top5| ==> top5[i] != []
    modifies target
    ensures window.Ok? ==> 0.0 <= top1 <= top5Accuracy <= 1.0
    ensures window.Ok? ==> |window.value| == |reference| - promptLen > 0
    ensures window.Ok? ==>
      var predicted := Predictions(target, prompts, reference, promptLen, |window.value| - 1, 0);
      && Covers(window.value, predicted)
      && top1 == |RankedFirst(predicted, window.value)| as real / |predicted| as real
      && top5Accuracy == |Ranked(predicted, window.value)| as real / |predicted| as real
  {
    top1, top5Accuracy := 0.0, 0.0;
    window := SelectTop5Slice(top5, reference, promptLen, metadataAligned);
    if window.Ok? {
      var run := RunTeacherForcing(target, prompts, promptLen, reference, window.value, |prompts|);
      var result := run.value;
      assert |result.predictedTokensPerUser[0]| == |window.value|;
      assert result.referenceTop5 == window.value;
      AccuraciesOrdered(result);
      HitsExactly(result.predictedTokens, result.referenceTop5);
      top1, top5Accuracy := result.Top1Accuracy(), result.Top5Accuracy();
    }
  }
}
