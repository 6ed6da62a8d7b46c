/**
The eval-repeat determinism case (examples/common/run_helpers.py): rotated benchmark runs, the garbage
check, and the consistency checks on what the runs generated.
*/
module EvalRepeat {
  import opened Prelude
  import opened Rotation
  import opened DecodeChain
  import opened DecodeDriver
  import opened LaneModel
  import opened CrossBatch
  import StopTokens
  import PageTable

  datatype EvalError =
    | WrongPromptCount
    | ActiveNeedsIdenticalPrompt
    | ActiveOutOfRange
    | IdenticalOutOfRange
    | UnsupportedPageTableMode
    | GarbageTokens(repeat: nat, user: nat)
    | SlotsDiffer(repeat: nat, slots: SlotVerdict)
    | RepeatsDiffer(batches: BatchVerdict)
    | NoRepeat

  /** A fresh executor's device, bound to the page table of its repeat. */
  type Backend<!K, !L> = PageTable.Table -> Model<K, L>

  /** Everything that stays the same over the repeats. */
  datatype Case<!P, !T> = Case(
    encode: P -> seq<int>, decode: seq<int> -> T, stop: set<int>, special: set<int>, numDecodeTokens: int,
    maxBatchSize: nat, sampling: bool, pageTable: PageTable.Table, pageTableMode: string)
  {
    /** The eval runs never pipeline; margins are collected exactly without device sampling. */
    function RunOptions(): Options {
      Options(sampling, sampling, false, false, !sampling)
    }

    function Tokens(prompts: seq<P>, repeat: nat): (r: seq<seq<int>>)
      ensures |r| == |prompts|
    {
      Map(encode, RotatePrompts(prompts, repeat))
    }

    /** What the slots generate in one repeat. */
    function Generated<K, L>(backend: Backend<K, L>, prompts: seq<P>, repeat: nat): (r: seq<seq<int>>)
      ensures |r| == |prompts|
    {
      var tokens := Tokens(prompts, repeat);
      BenchmarkRun(backend(TableFor(repeat)), tokens, Lengths(tokens), maxBatchSize, RunOptions())
        .Streams(AllSteps(Steps(numDecodeTokens)))
    }

    /** What the slots generate in each repeat. */
    function AllGenerated<K, L>(backend: Backend<K, L>, prompts: seq<P>, repeats: nat): (r: Generations)
      ensures |r| == repeats && forall b :: 0 <= b < repeats ==> r[b] == Generated(backend, prompts, b)
    {
      seq(repeats, b requires 0 <= b < repeats => Generated(backend, prompts, b))
    }

    function Text(ids: seq<int>): T {
      decode(StopTokens.Truncated(ids, stop))
    }

    function Texts(generated: seq<seq<int>>): (r: seq<T>)
      ensures |r| == |generated| && forall u :: 0 <= u < |r| ==> r[u] == Text(generated[u])
    {
      Map(ids => Text(ids), generated)
    }

    /** All repeats' texts, by repeat and slot. */
    function AllTexts(generations: Generations): (r: Outputs<T>)
      ensures |r| == |generations| && forall b :: 0 <= b < |r| ==> r[b] == Texts(generations[b])
    {
      Map(generated => Texts(generated), generations)
    }

    predicate Clean(generated: seq<seq<int>>) {
      StopTokens.Offenders(generated, special, stop) == 0
    }

    predicate ModeSupported() {
      PageTable.EvalPageTableForRepeat(pageTable, 0, pageTableMode).Ok?
    }

    /** The page table of one repeat, in a supported mode. */
    function TableFor(repeat: nat): (table: PageTable.Table) {
      var table := PageTable.EvalPageTableForRepeat(pageTable, repeat, pageTableMode);
      if table.Ok? then table.value else pageTable
    }

    /** Tokens, and margins, of every user in every run. */
    function Length(): nat {
      Steps(numDecodeTokens) + 1
    }
  }

  /** The tokens of several repeats, by repeat and slot. */
  type Generations = seq<seq<seq<int>>>

  ghost predicate Lengthy(generated: seq<seq<int>>, n: nat, length: nat) {
    |generated| == n && forall u :: 0 <= u < n ==> |generated[u]| == length
  }

  lemma {:induction false} GeneratedLengthy<K, L, P, T>(
    backend: Backend<K, L>, case_: Case<P, T>, prompts: seq<P>, repeat: nat)
    ensures Lengthy(case_.Generated(backend, prompts, repeat), |prompts|, case_.Length())
  {
  }

  lemma {:induction false} AllGeneratedLengthy<K, L, P, T>(
    backend: Backend<K, L>, case_: Case<P, T>, prompts: seq<P>, repeats: nat)
    ensures var generations := case_.AllGenerated(backend, prompts, repeats);
      forall b :: 0 <= b < repeats ==> Lengthy(generations[b], |prompts|, case_.Length())
  {
    forall b | 0 <= b < repeats
      ensures Lengthy(case_.AllGenerated(backend, prompts, repeats)[b], |prompts|, case_.Length())
    {
      GeneratedLengthy(backend, case_, prompts, b);
    }
  }

  /** The run behind one repeat: device and host choose tokens alike in prefill and decode, and nothing is pipelined. */
  function RepeatRun<K, L, P, T>(backend: Backend<K, L>, case_: Case<P, T>, tokens: seq<seq<int>>, repeat: nat)
    : (run: Run<K, L>)
    ensures run.Valid() && |run.lens| == |tokens|
  {
    BenchmarkRun(backend(case_.TableFor(repeat)), tokens, Lengths(tokens), case_.maxBatchSize,
                 Options(case_.sampling, case_.sampling, false, false, !case_.sampling))
  }

  /** The device of a repeat has the page table itself, or with rows that follow their prompts. */
  lemma TablesExactly<P, T>(case_: Case<P, T>, repeat: nat)
    requires case_.ModeSupported()
    ensures case_.TableFor(repeat)
         == if case_.pageTableMode == "prompt-stable" then RotatePrompts(case_.pageTable, repeat) else case_.pageTable
  {
  }

  /**
   What slot u generates in one repeat: it is given the ids of the prompt that it holds; its first token is the
   sampler's, or the top-2 diagnostic's, on the prefill logits, and token k is the run's after k steps.
   */
  lemma {:induction false} GeneratedExactly<K, L, P, T>(
    backend: Backend<K, L>, case_: Case<P, T>, prompts: seq<P>, repeat: nat, tokens: seq<seq<int>>, u: nat)
    requires u < |prompts| == |tokens|
    requires forall v :: 0 <= v < |tokens| ==> tokens[v] == case_.encode(prompts[Mod(v + repeat, |prompts|)])
    ensures var run, ids := RepeatRun(backend, case_, tokens, repeat), case_.Generated(backend, prompts, repeat)[u];
      var l := run.model.prefillLogits(tokens, Lengths(tokens), u);
      && |ids| == Max(0, case_.numDecodeTokens) + 1
      && ids[0] == (if case_.sampling then run.model.sample(l) else run.model.top1(l))
      && forall k :: 0 <= k < |ids| ==> ids[k] == run.At(k).row[u]
  {
    assert tokens == case_.Tokens(prompts, repeat);
    var run, n := RepeatRun(backend, case_, tokens, repeat), Steps(case_.numDecodeTokens);
    assert case_.Generated(backend, prompts, repeat)[u] == run.Stream(AllSteps(n), u);
    forall k | 0 <= k <= n ensures run.Stream(AllSteps(n), u)[k] == run.At(k).row[u] {
      StreamAt(run, n, u, k);
    }
  }

  /** One repeat on a fresh device: its tokens, decoded text and margins, or the first garbage user. */
  method RunRepeat<K(!new), L, P, T>(
    backend: Backend<K, L>, kv: K, case_: Case<P, T>, prompts: seq<P>, repeat: nat, table: PageTable.Table)
    returns (ids: seq<seq<int>>, texts: seq<T>, margins: Option<seq<seq<real>>>, garbage: Option<nat>)
    requires table == case_.TableFor(repeat)
    ensures ids == case_.Generated(backend, prompts, repeat) && texts == case_.Texts(ids)
    ensures margins.Some? <==> !case_.sampling
    ensures margins.Some? ==> |margins.value| == |prompts|
    ensures margins.Some? ==> forall u :: 0 <= u < |prompts| ==> |margins.value[u]| == case_.Length()
    ensures garbage == None <==> case_.Clean(ids)
  {
    // These runs never read asynchronously, so how a read would be handed over does not matter.
    var present := (k: nat) => true;
    var device := new Device(backend(table), kv, present, present, false);
    var tokens := case_.Tokens(prompts, repeat);
    var result := RunPerfBenchmark(device, tokens, Lengths(tokens), case_.numDecodeTokens, case_.maxBatchSize,
                                   case_.RunOptions());
    ids := result.value.generatedTokenIds;
    margins := result.value.argmaxTop2Margins;
    garbage := StopTokens.FindGarbage(ids, case_.special, case_.stop);
    texts := DecodeAll(case_, ids);
  }

  method DecodeAll<P, T>(case_: Case<P, T>, ids: seq<seq<int>>) returns (texts: seq<T>)
    ensures texts == case_.Texts(ids)
  {
    texts := [];
    for u := 0 to |ids|
      invariant |texts| == u && forall v :: 0 <= v < u ==> texts[v] == case_.Text(ids[v])
    {
      var cut := StopTokens.TruncateByAppending(ids[u], case_.stop);
      texts := texts + [case_.decode(cut)];
    }
  }

  /** The argument checks, and the prompts that are actually run. */
  function ActivePrompts<P>(prompts: seq<P>, maxBatchSize: nat, identical: Option<int>, active: Option<int>)
    : (r: Result<seq<P>, EvalError>)
    ensures r.Ok? <==>
      && |prompts| == maxBatchSize
      && (active.Some? ==> identical.Some? && 1 <= active.value <= maxBatchSize)
      && (identical.Some? ==> 0 <= identical.value < |prompts|)
    ensures r.Ok? && identical == None ==> r.value == prompts
    ensures r.Ok? && identical.Some? ==>
      && |r.value| == (if active.Some? then active.value else maxBatchSize)
      && forall u :: 0 <= u < |r.value| ==> r.value[u] == prompts[identical.value]
  {
    if |prompts| != maxBatchSize then Err(WrongPromptCount)
    else if active.Some? && identical == None then Err(ActiveNeedsIdenticalPrompt)
    else if active.Some? && !(1 <= active.value <= maxBatchSize) then Err(ActiveOutOfRange)
    else if identical == None then Ok(prompts)
    else if !(0 <= identical.value < |prompts|) then Err(IdenticalOutOfRange)
    else
      Ok(seq(if active.Some? then active.value else |prompts|, _ => prompts[identical.value]))
  }

  ghost predicate AllClean<P, T>(case_: Case<P, T>, generations: Generations) {
    forall b :: 0 <= b < |generations| ==> case_.Clean(generations[b])
  }

  ghost predicate OneText<T>(texts: seq<T>) {
    forall u, v :: 0 <= u < |texts| && 0 <= v < |texts| ==> texts[u] == texts[v]
  }

  /** In each repeat all slots have the same text. */
  ghost predicate AllOneText<P, T>(case_: Case<P, T>, generations: Generations) {
    forall b :: 0 <= b < |generations| ==> OneText(case_.Texts(generations[b]))
  }

  /** `run_eval_repeat_batch32` */
  method RunEvalRepeat<K(!new), L, P, T(==)>(
    backend: Backend<K, L>, kv: K, case_: Case<P, T>, prompts: seq<P>, repeats: nat, identical: Option<int>,
    active: Option<int>) returns (r: Result<(), EvalError>)
    ensures r.Ok? ==> ActivePrompts(prompts, case_.maxBatchSize, identical, active).Ok?
    ensures ActivePrompts(prompts, case_.maxBatchSize, identical, active).Ok? ==>
      var run := ActivePrompts(prompts, case_.maxBatchSize, identical, active).value;
      var generations := case_.AllGenerated(backend, run, repeats);
      && (r.Ok? <==> Succeeds(case_, generations, |run|, identical.Some?))
      && (forall cuts | AreCuts(cuts, generations, |run|, case_.stop) ::
            r.Ok? <==> CutsSucceed(case_, cuts, |run|, identical.Some?))
    ensures r != Err(RepeatsDiffer(RaisesIndexError))
    ensures r.Err? && r.error.SlotsDiffer? ==> r.error.slots.Differs?
  {
    var checked := ActivePrompts(prompts, case_.maxBatchSize, identical, active);
    if checked.Err? {
      return Err(checked.error);
    }
    ghost var generations := case_.AllGenerated(backend, checked.value, repeats);
    forall cuts | AreCuts(cuts, generations, |checked.value|, case_.stop)
      ensures Succeeds(case_, generations, |checked.value|, identical.Some?)
         <==> CutsSucceed(case_, cuts, |checked.value|, identical.Some?)
    {
      SucceedsByCuts(case_, cuts, generations, |checked.value|, identical.Some?);
    }
    r := RunActive(backend, kv, case_, checked.value, repeats, identical.Some?);
  }

  /** The case on the prompts that are actually run. */
  method RunActive<K(!new), L, P, T(==)>(
    backend: Backend<K, L>, kv: K, case_: Case<P, T>, prompts: seq<P>, repeats: nat, identical: bool)
    returns (r: Result<(), EvalError>)
    requires identical ==> prompts != []
    ensures var generations := case_.AllGenerated(backend, prompts, repeats);
      r.Ok? <==> Succeeds(case_, generations, |prompts|, identical)
    ensures r != Err(RepeatsDiffer(RaisesIndexError))
    ensures r.Err? && r.error.SlotsDiffer? ==> r.error.slots.Differs?
  {
    ghost var generations := case_.AllGenerated(backend, prompts, repeats);
    AllGeneratedLengthy(backend, case_, prompts, repeats);
    var texts, ids, margins, failure := RunRepeats(backend, kv, case_, prompts, repeats, identical, generations);
    SucceedsExactly(case_, generations, |prompts|, identical);
    if failure.Some? {
      return Err(failure.value);
    }
    r := Conclude(case_, generations, |prompts|, identical, Evidence(texts, Some(ids), Some(margins)));
  }

  /** Behind the loop: the cross-batch check, unless one prompt was in every slot, and the first result. */
  method Conclude<P, T(==)>(
    case_: Case<P, T>, ghost generations: Generations, n: nat, identical: bool, e: Evidence<T>)
    returns (r: Result<(), EvalError>)
    requires e.tokenIds.Some? && e.margins.Some?
    requires Recorded(case_, generations, n, e.outputs, e.tokenIds.value, e.margins.value)
    ensures r.Ok? <==> |generations| > 0
                       && (identical || (|generations| >= 2 && Agreement(case_.AllTexts(generations), n)))
    ensures r.Err? ==> r.error == NoRepeat || (r.error.RepeatsDiffer? && r.error.batches != RaisesIndexError)
  {
    if !identical {
      var verdict := CheckRepeats(case_, generations, n, e);
      if verdict != Consistent {
        return Err(RepeatsDiffer(verdict));
      }
    }
    if e.outputs == [] {
      return Err(NoRepeat);
    }
    return Ok(());
  }

  /**
   At least one repeat of one prompt in every slot, or two of rotated prompts; a known page-table mode; no garbage;
   and one text in all slots of a repeat, or one text per prompt in all repeats.
   */
  ghost predicate Succeeds<P, T>(case_: Case<P, T>, generations: Generations, n: nat, identical: bool) {
    && |generations| >= (if identical then 1 else 2) && case_.ModeSupported() && AllClean(case_, generations)
    && (if identical then AllOneText(case_, generations) else Agreement(case_.AllTexts(generations), n))
  }

  /** The loop's demands and the checker's demand, together. */
  lemma {:induction false} SucceedsExactly<P, T>(
    case_: Case<P, T>, generations: Generations, n: nat, identical: bool)
    ensures Succeeds(case_, generations, n, identical)
       <==> AllPass(case_, generations, identical) && generations != []
            && (identical || (|generations| >= 2 && Agreement(case_.AllTexts(generations), n)))
  {
    AllPassExactly(case_, generations, identical);
  }

  // ---- What decides the verdict: the ids before the first stop id

  /** The ids that each slot of each repeat generated before its first stop id. */
  ghost predicate AreCuts(cuts: Generations, generations: Generations, n: nat, stop: set<int>) {
    && |cuts| == |generations|
    && forall b :: 0 <= b < |cuts| ==> RowIsCut(cuts[b], generations[b], n, stop)
  }

  ghost predicate RowIsCut(cuts: seq<seq<int>>, generated: seq<seq<int>>, n: nat, stop: set<int>) {
    && |cuts| == |generated| == n
    && forall u :: 0 <= u < n ==> StopTokens.CutsAtFirstStop(cuts[u], generated[u], stop)
  }

  /** No special token was generated in front of a stop id. */
  ghost predicate NoSpecial(cuts: seq<seq<int>>, special: set<int>) {
    forall u, i :: 0 <= u < |cuts| && 0 <= i < |cuts[u]| ==> cuts[u][i] !in special
  }

  /** The texts of the cut ids. */
  function Decoded<P, T>(case_: Case<P, T>, cuts: Generations): (r: Outputs<T>)
    ensures |r| == |cuts| && forall b :: 0 <= b < |r| ==> |r[b]| == |cuts[b]|
    ensures forall b, u :: 0 <= b < |r| && 0 <= u < |r[b]| ==> r[b][u] == case_.decode(cuts[b][u])
  {
    Map(row => Map(case_.decode, row), cuts)
  }

  /** Of texts: any two slots that hold one prompt agree. */
  ghost predicate AllSlotsAgree<T>(texts: Outputs<T>) {
    forall b, u, c, v | 0 <= b < |texts| && 0 <= u < |texts[b]| && 0 <= c < |texts| && 0 <= v < |texts[c]| ::
      SlotsAgree(texts, b, u, c, v)
  }

  /**
   The verdict in terms of the cut ids: enough repeats in a known page-table mode, no special token, and one text
   in all slots of a repeat, or wherever a prompt is run.
   */
  ghost predicate CutsSucceed<P, T>(case_: Case<P, T>, cuts: Generations, n: nat, identical: bool) {
    && |cuts| >= (if identical then 1 else 2)
    && (case_.pageTableMode == "slot-stable" || case_.pageTableMode == "prompt-stable")
    && (forall b :: 0 <= b < |cuts| ==> NoSpecial(cuts[b], case_.special))
    && var texts := Decoded(case_, cuts);
       && (identical ==> forall b :: 0 <= b < |texts| ==> OneText(texts[b]))
       && (!identical ==> AllSlotsAgree(texts))
  }

  /** What is compared is the text of the cut, whatever the ids behind the stop id are. */
  lemma TextOfCut<P, T>(case_: Case<P, T>, r: seq<int>, ids: seq<int>)
    requires StopTokens.CutsAtFirstStop(r, ids, case_.stop)
    ensures case_.Text(ids) == case_.decode(r)
  {
    StopTokens.TruncatedIsTheCut(r, ids, case_.stop);
  }

  lemma {:induction false} CleanByCuts<P, T>(
    case_: Case<P, T>, cuts: seq<seq<int>>, generated: seq<seq<int>>, n: nat)
    requires RowIsCut(cuts, generated, n, case_.stop)
    ensures case_.Clean(generated) <==> NoSpecial(cuts, case_.special)
  {
    StopTokens.NoOffenders(generated, case_.special, case_.stop);
    forall u | 0 <= u < n ensures StopTokens.Truncated(generated[u], case_.stop) == cuts[u] {
      StopTokens.TruncatedIsTheCut(cuts[u], generated[u], case_.stop);
    }
  }

  lemma {:induction false} TextsByCuts<P, T>(case_: Case<P, T>, cuts: Generations, generations: Generations, n: nat)
    requires AreCuts(cuts, generations, n, case_.stop)
    ensures case_.AllTexts(generations) == Decoded(case_, cuts)
  {
    var texts, decoded := case_.AllTexts(generations), Decoded(case_, cuts);
    forall b | 0 <= b < |cuts| ensures texts[b] == decoded[b] {
      assert RowIsCut(cuts[b], generations[b], n, case_.stop);
      forall u | 0 <= u < n ensures texts[b][u] == decoded[b][u] {
        TextOfCut(case_, cuts[b][u], generations[b][u]);
      }
    }
  }

  lemma {:induction false} AllCleanByCuts<P, T>(
    case_: Case<P, T>, cuts: Generations, generations: Generations, n: nat)
    requires AreCuts(cuts, generations, n, case_.stop)
    ensures AllClean(case_, generations) <==> forall b :: 0 <= b < |cuts| ==> NoSpecial(cuts[b], case_.special)
  {
    forall b | 0 <= b < |cuts| ensures case_.Clean(generations[b]) <==> NoSpecial(cuts[b], case_.special) {
      assert RowIsCut(cuts[b], generations[b], n, case_.stop);
      CleanByCuts(case_, cuts[b], generations[b], n);
    }
  }

  /** Agreement on every prompt, slot by slot. */
  lemma {:induction false} AgreementBySlots<T>(outputs: Outputs<T>, n: nat)
    requires outputs != [] && forall b :: 0 <= b < |outputs| ==> |outputs[b]| == n
    ensures Agreement(outputs, n) <==> AllSlotsAgree(outputs)
  {
    if n > 0 {
      InvariantBySlots(outputs, n);
    }
  }

  lemma {:induction false} OneTextByCuts<P, T>(
    case_: Case<P, T>, generations: Generations, texts: Outputs<T>)
    requires texts == case_.AllTexts(generations)
    ensures AllOneText(case_, generations) <==> forall b :: 0 <= b < |texts| ==> OneText(texts[b])
  {
    forall b | 0 <= b < |texts| ensures texts[b] == case_.Texts(generations[b]) {
    }
  }

  lemma {:induction false} CutSizes<P, T>(case_: Case<P, T>, cuts: Generations, generations: Generations, n: nat)
    requires AreCuts(cuts, generations, n, case_.stop)
    ensures forall b :: 0 <= b < |cuts| ==> |cuts[b]| == n
  {
    forall b | 0 <= b < |cuts| ensures |cuts[b]| == n {
      assert RowIsCut(cuts[b], generations[b], n, case_.stop);
    }
  }

  lemma ModesExactly<P, T>(case_: Case<P, T>)
    ensures case_.ModeSupported() <==> case_.pageTableMode == "slot-stable" || case_.pageTableMode == "prompt-stable"
  {
  }

  /** The verdict depends on the cut ids only. */
  lemma {:induction false} SucceedsByCuts<P, T>(
    case_: Case<P, T>, cuts: Generations, generations: Generations, n: nat, identical: bool)
    requires AreCuts(cuts, generations, n, case_.stop)
    ensures Succeeds(case_, generations, n, identical) <==> CutsSucceed(case_, cuts, n, identical)
  {
    ModesExactly(case_);
    AllCleanByCuts(case_, cuts, generations, n);
    TextsByCuts(case_, cuts, generations, n);
    CutSizes(case_, cuts, generations, n);
    OneTextByCuts(case_, generations, Decoded(case_, cuts));
    if cuts != [] {
      AgreementBySlots(Decoded(case_, cuts), n);
    }
  }

  /** No prompt at all; or at least one repeat, and any two repeats agree on every prompt. */
  ghost predicate Agreement<T>(outputs: Outputs<T>, n: nat) {
    n == 0 || (Rectangular(outputs, n) && outputs != [] && Invariant(outputs, n, |outputs| - 1))
  }

  /** The checker on the records of the loop; they are always such that a mismatch can be reported. */
  method CheckRepeats<P, T(==)>(case_: Case<P, T>, ghost generations: Generations, n: nat, e: Evidence<T>)
    returns (verdict: BatchVerdict)
    requires e.tokenIds.Some? && e.margins.Some?
    requires Recorded(case_, generations, n, e.outputs, e.tokenIds.value, e.margins.value)
    ensures verdict == Consistent <==> |generations| >= 2 && Agreement(case_.AllTexts(generations), n)
    ensures verdict != RaisesIndexError
  {
    verdict := AssertCrossBatchConsistency(e);
    if n == 0 {
      assert |generations| >= 2 ==> |generations[0]| == 0;
    } else if |generations| >= 2 {
      RecordsAreDescribed(case_, generations, n, e);
      RelevantRectangular(e, n);
      JudgedRecords(verdict, e, n);
    }
  }

  lemma {:induction false} JudgedRecords<T>(v: BatchVerdict, e: Evidence<T>, n: nat)
    requires Rectangular(e.outputs, n) && |e.outputs| >= 2 && CanDescribe(e, n) && Judges(v, e, n)
    ensures v == Consistent <==> Agreement(e.outputs, n)
    ensures v != RaisesIndexError
  {
    BothCheckersAcceptExactlyInvariant(e.outputs, n);
  }

  /** The records of the repeats run so far. */
  ghost predicate Recorded<P, T>(
    case_: Case<P, T>, generations: Generations, n: nat, texts: Outputs<T>, ids: Generations,
    margins: seq<Option<seq<seq<real>>>>)
  {
    && ids == generations && texts == case_.AllTexts(generations) && |margins| == |generations|
    && (forall b :: 0 <= b < |generations| ==> Lengthy(generations[b], n, case_.Length()))
    && (forall b :: 0 <= b < |margins| && margins[b].Some? ==> LengthyMargins(margins[b].value, n, case_.Length()))
  }

  ghost predicate LengthyMargins(margins: seq<seq<real>>, n: nat, length: nat) {
    |margins| == n && forall u :: 0 <= u < n ==> |margins[u]| == length
  }

  /** Every mismatch among the recorded runs can be reported. */
  lemma {:induction false} RecordsAreDescribed<P, T>(
    case_: Case<P, T>, generations: Generations, n: nat, e: Evidence<T>)
    requires n > 0 && e.tokenIds.Some? && e.margins.Some?
    requires Recorded(case_, generations, n, e.outputs, e.tokenIds.value, e.margins.value)
    ensures Rectangular(e.outputs, n) && CanDescribe(e, n)
  {
    assert forall b :: 0 <= b < |generations| ==> |e.outputs[b]| == |generations[b]|;
    forall b, offset | 0 <= b < |e.outputs| - 1 && 0 <= offset < n && FirstMismatch(e.outputs, n, b, offset)
      ensures DescribeFailure(e, n, b, offset).Some?
    {
      MismatchIsDescribed(case_, generations, n, e, b, offset);
    }
  }

  /** All runs generate equally many tokens and as many margins, so every mismatch can be reported. */
  lemma {:induction false} MismatchIsDescribed<P, T>(
    case_: Case<P, T>, generations: Generations, n: nat, e: Evidence<T>, b: nat, offset: nat)
    requires n > 0 && e.tokenIds.Some? && e.margins.Some? && Rectangular(e.outputs, n)
    requires Recorded(case_, generations, n, e.outputs, e.tokenIds.value, e.margins.value)
    requires b + 1 < |generations| && offset < n && SlotMismatches(e.outputs, n, b)[offset]
    ensures DescribeFailure(e, n, b, offset).Some?
  {
    var slot := Mod(offset + 1, n);
    assert Lengthy(generations[b], n, case_.Length()) && Lengthy(generations[b + 1], n, case_.Length());
    var x, y := generations[b][slot], generations[b + 1][offset];
    assert e.outputs[b] == case_.Texts(generations[b]) && e.outputs[b + 1] == case_.Texts(generations[b + 1]);
    assert case_.Text(x) != case_.Text(y) && |x| == |y| == case_.Length();
    assert !MarginsMissing(e.margins, b, slot, offset);
    var pair := MarginPair(e.margins, b, slot, offset);
    if pair.Some? {
      DivergenceInRange(x, y, pair.value.0, pair.value.1, case_.stop, case_.decode);
    }
  }

  /** What the loop itself demands of one repeat. */
  ghost predicate Passes<P, T>(case_: Case<P, T>, generated: seq<seq<int>>, identical: bool) {
    case_.ModeSupported() && case_.Clean(generated) && (identical ==> OneText(case_.Texts(generated)))
  }

  ghost predicate AllPass<P, T>(case_: Case<P, T>, generations: Generations, identical: bool) {
    generations == []
    || (AllPass(case_, generations[..|generations| - 1], identical)
        && Passes(case_, generations[|generations| - 1], identical))
  }

  lemma {:induction false} AllPassExactly<P, T>(case_: Case<P, T>, generations: Generations, identical: bool)
    ensures AllPass(case_, generations, identical)
       <==> (generations != [] ==> case_.ModeSupported()) && AllClean(case_, generations)
            && (identical ==> AllOneText(case_, generations))
  {
    if generations != [] {
      AllPassExactly(case_, generations[..|generations| - 1], identical);
    }
  }

  /** A repeat that does not pass stops the loop for good. */
  lemma {:induction false} FailedRepeat<P, T>(case_: Case<P, T>, generations: Generations, b: nat, identical: bool)
    requires b < |generations| && !Passes(case_, generations[b], identical)
    ensures !AllPass(case_, generations, identical)
  {
    var n := |generations| - 1;
    if b < n {
      FailedRepeat(case_, generations[..n], b, identical);
    }
  }

  /** The repeat loop. */
  method RunRepeats<K(!new), L, P, T(==)>(
    backend: Backend<K, L>, kv: K, case_: Case<P, T>, prompts: seq<P>, repeats: nat, identical: bool,
    ghost generations: Generations)
    returns (texts: Outputs<T>, ids: Generations, margins: seq<Option<seq<seq<real>>>>, failure: Option<EvalError>)
    requires (identical ==> prompts != []) && generations == case_.AllGenerated(backend, prompts, repeats)
    requires forall b :: 0 <= b < repeats ==> Lengthy(generations[b], |prompts|, case_.Length())
    ensures failure == None ==> Recorded(case_, generations, |prompts|, texts, ids, margins)
    ensures failure == None <==> AllPass(case_, generations, identical)
    ensures failure.Some? ==> Reportable(failure.value)
  {
    texts, ids, margins := [], [], [];
    for i := 0 to repeats
      invariant Recorded(case_, generations[..i], |prompts|, texts, ids, margins)
      invariant AllPass(case_, generations[..i], identical)
    {
      var newIds, newTexts, newMargins;
      newIds, newTexts, newMargins, failure := CheckedRepeat(backend, kv, case_, prompts, i, identical, generations[i]);
      if failure.Some? {
        FailedRepeat(case_, generations, i, identical);
        return;
      }
      RecordedStep(case_, generations, i, |prompts|, identical, texts, ids, margins, newMargins);
      texts, ids, margins := texts + [newTexts], ids + [newIds], margins + [newMargins];
    }
    assert generations[..repeats] == generations;
    failure := None;
  }

  /** An error of the loop: no cross-batch verdict, and a differing slot with its full report. */
  predicate Reportable(e: EvalError) {
    !e.RepeatsDiffer? && (e.SlotsDiffer? ==> e.slots.Differs?)
  }

  /** One trip around the repeat loop, up to the records. */
  method CheckedRepeat<K(!new), L, P, T(==)>(
    backend: Backend<K, L>, kv: K, case_: Case<P, T>, prompts: seq<P>, i: nat, identical: bool,
    ghost generated: seq<seq<int>>)
    returns (ids: seq<seq<int>>, texts: seq<T>, margins: Option<seq<seq<real>>>, failure: Option<EvalError>)
    requires (identical ==> prompts != []) && generated == case_.Generated(backend, prompts, i)
    requires Lengthy(generated, |prompts|, case_.Length())
    ensures failure == None <==> Passes(case_, generated, identical)
    ensures failure.Some? ==> Reportable(failure.value)
    ensures failure == None ==> ids == generated && texts == case_.Texts(generated)
    ensures failure == None && margins.Some? ==> LengthyMargins(margins.value, |prompts|, case_.Length())
  {
    ids, texts, margins, failure := [], [], None, None;
    var table := PageTable.EvalPageTableForRepeat(case_.pageTable, i, case_.pageTableMode);
    if table.Err? {
      failure := Some(UnsupportedPageTableMode);
      return;
    }
    var garbage;
    ids, texts, margins, garbage := RunRepeat(backend, kv, case_, prompts, i, table.value);
    if garbage.Some? {
      failure := Some(GarbageTokens(i, garbage.value));
      return;
    }
    if identical {
      var slots := AssertWithinBatchSlotConsistency(texts, ids, margins);
      if slots != SameEverywhere {
        SlotIsDescribed(case_, ids, texts, |prompts|, margins, slots);
        failure := Some(SlotsDiffer(i, slots));
      }
    }
  }

  /** The slots of one repeat generate equally many tokens and margins, so a differing slot can be reported. */
  lemma {:induction false} SlotIsDescribed<P, T>(
    case_: Case<P, T>, ids: seq<seq<int>>, texts: seq<T>, n: nat, margins: Option<seq<seq<real>>>, slots: SlotVerdict)
    requires Lengthy(ids, n, case_.Length()) && texts == case_.Texts(ids)
    requires margins.Some? ==> LengthyMargins(margins.value, n, case_.Length())
    requires slots != SameEverywhere && 0 < slots.slot < n && texts[slots.slot] != texts[0]
    requires slots.SlotIndexError? ==> SlotDetail(ids, margins, slots.slot) == None
    ensures slots.Differs?
  {
    assert case_.Text(ids[0]) != case_.Text(ids[slots.slot]);
    if margins.Some? {
      DivergenceInRange(ids[0], ids[slots.slot], margins.value[0], margins.value[slots.slot], case_.stop,
                        case_.decode);
    }
  }

  lemma {:induction false} RecordedStep<P, T>(
    case_: Case<P, T>, generations: Generations, i: nat, n: nat, identical: bool, texts: Outputs<T>, ids: Generations,
    margins: seq<Option<seq<seq<real>>>>, newMargins: Option<seq<seq<real>>>)
    requires i < |generations| && Recorded(case_, generations[..i], n, texts, ids, margins)
    requires AllPass(case_, generations[..i], identical) && Passes(case_, generations[i], identical)
    requires Lengthy(generations[i], n, case_.Length())
    requires newMargins.Some? ==> LengthyMargins(newMargins.value, n, case_.Length())
    ensures Recorded(case_, generations[..i + 1], n, texts + [case_.Texts(generations[i])], ids + [generations[i]],
                     margins + [newMargins])
    ensures AllPass(case_, generations[..i + 1], identical)
  {
    assert generations[..i + 1] == generations[..i] + [generations[i]];
    AllTextsAppend(case_, generations[..i], generations[i]);
    AllPassStep(case_, generations, i, identical);
  }

  lemma {:induction false} AllTextsAppend<P, T>(case_: Case<P, T>, generations: Generations, generated: seq<seq<int>>)
    ensures case_.AllTexts(generations + [generated]) == case_.AllTexts(generations) + [case_.Texts(generated)]
  {
    var all, before := case_.AllTexts(generations + [generated]), case_.AllTexts(generations);
    forall b | 0 <= b < |generations| ensures all[b] == before[b] {
      assert (generations + [generated])[b] == generations[b];
    }
  }

  lemma {:induction false} AllPassStep<P, T>(case_: Case<P, T>, generations: Generations, i: nat, identical: bool)
    requires i < |generations|
    requires AllPass(case_, generations[..i], identical) && Passes(case_, generations[i], identical)
    ensures AllPass(case_, generations[..i + 1], identical)
  {
    assert generations[..i + 1][..i] == generations[..i];
  }

  // ---- When every slot generates what its prompt generates alone

  /** What a prompt generates on its own. */
  function Alone<C, L, P, T>(lane: Lane<C, L>, case_: Case<P, T>, p: P): (ids: seq<int>) {
    LaneStream(lane, case_.RunOptions(), case_.encode(p), Steps(case_.numDecodeTokens))
  }

  function AllAlone<C, L, P, T>(lane: Lane<C, L>, case_: Case<P, T>, prompts: seq<P>): (r: seq<seq<int>>)
    ensures |r| == |prompts| && forall i :: 0 <= i < |r| ==> r[i] == Alone(lane, case_, prompts[i])
  {
    Map(p => Alone(lane, case_, p), prompts)
  }

  /** Slot u of repeat b generates what the prompt that it holds generates alone. */
  ghost predicate SlotAlone<K, C, L, P, T>(
    backend: Backend<K, L>, lane: Lane<C, L>, case_: Case<P, T>, prompts: seq<P>, b: nat, u: nat)
    requires u < |prompts|
  {
    case_.Generated(backend, prompts, b)[u] == Alone(lane, case_, prompts[Mod(u + b, |prompts|)])
  }

  lemma {:induction false} TokensAt<P, T>(case_: Case<P, T>, prompts: seq<P>, b: nat, u: nat)
    requires u < |prompts|
    ensures case_.Tokens(prompts, b)[u] == case_.encode(prompts[Mod(u + b, |prompts|)])
  {
  }

  lemma {:induction false} AloneByStream<K, C, L, P, T>(
    backend: Backend<K, L>, lane: Lane<C, L>, case_: Case<P, T>, prompts: seq<P>, b: nat, u: nat)
    requires u < |prompts|
    requires var tokens, n := case_.Tokens(prompts, b), Steps(case_.numDecodeTokens);
      BenchmarkRun(backend(case_.TableFor(b)), tokens, Lengths(tokens), case_.maxBatchSize, case_.RunOptions())
        .Stream(AllSteps(n), u) == LaneStream(lane, case_.RunOptions(), tokens[u], n)
    ensures SlotAlone(backend, lane, case_, prompts, b, u)
  {
    TokensAt(case_, prompts, b, u);
  }

  /** Every repeat is the prompts' own streams, rotated. */
  ghost predicate Rotated(generations: Generations, alone: seq<seq<int>>) {
    forall b :: 0 <= b < |generations| ==> generations[b] == RotatePrompts(alone, b)
  }

  lemma {:induction false} SlotIsRotated<K, C, L, P, T>(
    backend: Backend<K, L>, lane: Lane<C, L>, case_: Case<P, T>, prompts: seq<P>, b: nat, u: nat)
    requires u < |prompts| && SlotAlone(backend, lane, case_, prompts, b, u)
    ensures case_.Generated(backend, prompts, b)[u] == RotatePrompts(AllAlone(lane, case_, prompts), b)[u]
  {
  }

  lemma {:induction false} RepeatIsRotated<K, C, L, P, T>(
    backend: Backend<K, L>, lane: Lane<C, L>, case_: Case<P, T>, prompts: seq<P>, b: nat)
    requires forall u | 0 <= u < |prompts| :: SlotAlone(backend, lane, case_, prompts, b, u)
    ensures case_.Generated(backend, prompts, b) == RotatePrompts(AllAlone(lane, case_, prompts), b)
  {
    var alone := AllAlone(lane, case_, prompts);
    forall u | 0 <= u < |prompts|
      ensures case_.Generated(backend, prompts, b)[u] == RotatePrompts(alone, b)[u]
    {
      SlotIsRotated(backend, lane, case_, prompts, b, u);
    }
  }

  /** Put back in prompt order, every repeat has the texts that the prompts have alone. */
  lemma {:induction false} RepeatTextsAlone<P, T>(
    case_: Case<P, T>, generations: Generations, alone: seq<seq<int>>, b: nat)
    requires Rotated(generations, alone) && alone != [] && b < |generations|
    ensures ByPrompt(case_.AllTexts(generations), b) == case_.Texts(alone)
  {
    var texts := case_.Texts(generations[b]);
    RotateIsRotatePrompts(texts, 0 - b);
    assert generations[b] == RotatePrompts(alone, b);
    forall i | 0 <= i < |alone| ensures RotatePrompts(texts, 0 - b)[i] == case_.Texts(alone)[i] {
      AloneInItsSlot(generations[b], alone, b, i);
    }
  }

  lemma {:induction false} AloneInItsSlot(generated: seq<seq<int>>, alone: seq<seq<int>>, b: nat, i: nat)
    requires generated == RotatePrompts(alone, b) && i < |alone|
    ensures generated[Mod(i + (0 - b), |alone|)] == alone[i]
  {
    SlotHoldsPrompt(i, b, |alone|);
  }

  /** So the checker has nothing to find. */
  lemma {:induction false} RotatedAgree<P, T>(case_: Case<P, T>, generations: Generations, alone: seq<seq<int>>)
    requires Rotated(generations, alone) && alone != [] && generations != []
    ensures Agreement(case_.AllTexts(generations), |alone|)
  {
    var outputs := case_.AllTexts(generations);
    forall b | 0 <= b < |generations|
      ensures |outputs[b]| == |alone| && ByPrompt(outputs, b) == case_.Texts(alone)
    {
      assert generations[b] == RotatePrompts(alone, b);
      RepeatTextsAlone(case_, generations, alone, b);
    }
  }

  /** No repeat holds garbage exactly when no prompt alone generates any. */
  lemma {:induction false} CleanExactly<P, T>(case_: Case<P, T>, alone: seq<seq<int>>, b: nat)
    ensures case_.Clean(RotatePrompts(alone, b)) <==> case_.Clean(alone)
  {
    var turned := RotatePrompts(alone, b);
    StopTokens.NoOffenders(turned, case_.special, case_.stop);
    StopTokens.NoOffenders(alone, case_.special, case_.stop);
    if case_.Clean(turned) {
      forall i | 0 <= i < |alone| ensures !StopTokens.Offends(alone[i], case_.special, case_.stop) {
        SlotHoldsPrompt(i, b, |alone|);
        assert turned[SlotOf(i, b, |alone|)] == alone[i];
      }
    }
    if case_.Clean(alone) {
      forall u | 0 <= u < |turned| ensures !StopTokens.Offends(turned[u], case_.special, case_.stop) {
        assert turned[u] == alone[Mod(u + b, |alone|)];
      }
    }
  }

  /**
   No false alarm: where every slot generates what its prompt generates alone, the whole case succeeds exactly
   when no prompt generates a special token before its first stop token, however the prompts rotate.
   */
  method RunWithoutInterference<K(!new), C, L, P, T(==)>(
    backend: Backend<K, L>, ghost lane: Lane<C, L>, kv: K, case_: Case<P, T>, prompts: seq<P>, repeats: nat)
    returns (r: Result<(), EvalError>)
    requires 0 < |prompts| == case_.maxBatchSize && repeats >= 2 && case_.ModeSupported()
    requires forall b, u | 0 <= b < repeats && 0 <= u < |prompts| :: SlotAlone(backend, lane, case_, prompts, b, u)
    ensures r.Ok? <==> case_.Clean(AllAlone(lane, case_, prompts))
  {
    ghost var generations, alone := case_.AllGenerated(backend, prompts, repeats), AllAlone(lane, case_, prompts);
    forall b | 0 <= b < repeats ensures generations[b] == RotatePrompts(alone, b) {
      RepeatIsRotated(backend, lane, case_, prompts, b);
    }
    RotatedAgree(case_, generations, alone);
    forall b | 0 <= b < repeats ensures case_.Clean(generations[b]) <==> case_.Clean(alone) {
      CleanExactly(case_, alone, b);
    }
    assert AllClean(case_, generations) ==> case_.Clean(generations[0]);
    r := RunEvalRepeat(backend, kv, case_, prompts, repeats, None, None);
  }

  // ---- When the prompts agree up to the first stop id

  /** Slot u of repeat b generates the prefix of its prompt, and then nothing or a stop id and anything. */
  ghost predicate SlotHasPrefix<K, L, P, T>(
    backend: Backend<K, L>, case_: Case<P, T>, prompts: seq<P>, prefixes: seq<seq<int>>, b: nat, u: nat)
    requires u < |prompts| == |prefixes|
  {
    StopTokens.CutsAtFirstStop(prefixes[Mod(u + b, |prefixes|)], case_.Generated(backend, prompts, b)[u], case_.stop)
  }

  /** The rotated prefixes of the prompts. */
  function RotatedPrefixes(prefixes: seq<seq<int>>, repeats: nat): (cuts: Generations)
    ensures |cuts| == repeats && forall b :: 0 <= b < repeats ==> cuts[b] == RotatePrompts(prefixes, b)
  {
    seq(repeats, b => RotatePrompts(prefixes, b))
  }

  /** Slots that hold one prompt have one prefix. */
  lemma {:induction false} RotatedSlotsAgree<P, T>(
    case_: Case<P, T>, prefixes: seq<seq<int>>, repeats: nat, b: nat, u: nat, c: nat, v: nat)
    requires b < repeats && c < repeats && u < |prefixes| && v < |prefixes|
    ensures var texts := Decoded(case_, RotatedPrefixes(prefixes, repeats));
      u < |texts[b]| && v < |texts[c]| && SlotsAgree(texts, b, u, c, v)
  {
    var cuts, n := RotatedPrefixes(prefixes, repeats), |prefixes|;
    assert cuts[b][u] == prefixes[Mod(u + b, n)] && cuts[c][v] == prefixes[Mod(v + c, n)];
  }

  lemma {:induction false} RotatedAllAgree<P, T>(case_: Case<P, T>, prefixes: seq<seq<int>>, repeats: nat)
    ensures AllSlotsAgree(Decoded(case_, RotatedPrefixes(prefixes, repeats)))
  {
    var texts := Decoded(case_, RotatedPrefixes(prefixes, repeats));
    forall b, u, c, v | 0 <= b < |texts| && 0 <= u < |texts[b]| && 0 <= c < |texts| && 0 <= v < |texts[c]|
      ensures SlotsAgree(texts, b, u, c, v)
    {
      RotatedSlotsAgree(case_, prefixes, repeats, b, u, c, v);
    }
  }

  lemma {:induction false} RotatedAreClean(prefixes: seq<seq<int>>, repeats: nat, special: set<int>)
    requires repeats > 0
    ensures (forall b :: 0 <= b < repeats ==> NoSpecial(RotatedPrefixes(prefixes, repeats)[b], special))
       <==> NoSpecial(prefixes, special)
  {
    var cuts := RotatedPrefixes(prefixes, repeats);
    forall b | 0 <= b < repeats ensures NoSpecial(cuts[b], special) <==> NoSpecial(prefixes, special) {
      NoSpecialRotates(prefixes, b, special);
    }
    assert NoSpecial(cuts[0], special) <==> NoSpecial(prefixes, special);
  }

  lemma {:induction false} RotatedPrefixesSucceed<P, T>(case_: Case<P, T>, prefixes: seq<seq<int>>, repeats: nat)
    requires prefixes != [] && repeats >= 2 && case_.ModeSupported()
    ensures CutsSucceed(case_, RotatedPrefixes(prefixes, repeats), |prefixes|, false)
       <==> NoSpecial(prefixes, case_.special)
  {
    var cuts := RotatedPrefixes(prefixes, repeats);
    ModesExactly(case_);
    RotatedAreClean(prefixes, repeats, case_.special);
    RotatedAllAgree(case_, prefixes, repeats);
  }

  lemma {:induction false} NoSpecialRotates(prefixes: seq<seq<int>>, b: nat, special: set<int>)
    ensures NoSpecial(RotatePrompts(prefixes, b), special) <==> NoSpecial(prefixes, special)
  {
    var turned := RotatePrompts(prefixes, b);
    if NoSpecial(turned, special) {
      forall i, k | 0 <= i < |prefixes| && 0 <= k < |prefixes[i]| ensures prefixes[i][k] !in special {
        SlotHoldsPrompt(i, b, |prefixes|);
        assert turned[SlotOf(i, b, |prefixes|)] == prefixes[i];
      }
    }
    if NoSpecial(prefixes, special) {
      forall u, k | 0 <= u < |turned| && 0 <= k < |turned[u]| ensures turned[u][k] !in special {
        assert turned[u] == prefixes[Mod(u + b, |prefixes|)];
      }
    }
  }

  lemma {:induction false} PrefixesAreCuts<K, L, P, T>(
    backend: Backend<K, L>, case_: Case<P, T>, prompts: seq<P>, repeats: nat, prefixes: seq<seq<int>>)
    requires 0 < |prompts| == |prefixes|
    requires forall b, u | 0 <= b < repeats && 0 <= u < |prompts| ::
      SlotHasPrefix(backend, case_, prompts, prefixes, b, u)
    ensures AreCuts(RotatedPrefixes(prefixes, repeats), case_.AllGenerated(backend, prompts, repeats), |prompts|,
                    case_.stop)
  {
    forall b | 0 <= b < repeats
      ensures RowIsCut(RotatePrompts(prefixes, b), case_.Generated(backend, prompts, b), |prompts|, case_.stop)
    {
      PrefixesOfRepeat(backend, case_, prompts, prefixes, b);
    }
  }

  lemma {:induction false} PrefixesOfRepeat<K, L, P, T>(
    backend: Backend<K, L>, case_: Case<P, T>, prompts: seq<P>, prefixes: seq<seq<int>>, b: nat)
    requires 0 < |prompts| == |prefixes|
    requires forall u | 0 <= u < |prompts| :: SlotHasPrefix(backend, case_, prompts, prefixes, b, u)
    ensures RowIsCut(RotatePrompts(prefixes, b), case_.Generated(backend, prompts, b), |prompts|, case_.stop)
  {
    forall u | 0 <= u < |prompts|
      ensures StopTokens.CutsAtFirstStop(RotatePrompts(prefixes, b)[u], case_.Generated(backend, prompts, b)[u],
                                         case_.stop)
    {
      assert SlotHasPrefix(backend, case_, prompts, prefixes, b, u);
    }
  }

  /** Repeats that agree on every prompt up to its first stop id succeed if they are clean, whatever follows it. */
  method RunOnAgreeingPrefixes<K(!new), L, P, T(==)>(
    backend: Backend<K, L>, kv: K, case_: Case<P, T>, prompts: seq<P>, repeats: nat, ghost prefixes: seq<seq<int>>)
    returns (r: Result<(), EvalError>)
    requires 0 < |prompts| == case_.maxBatchSize == |prefixes| && repeats >= 2 && case_.ModeSupported()
    requires forall b, u | 0 <= b < repeats && 0 <= u < |prompts| ::
      SlotHasPrefix(backend, case_, prompts, prefixes, b, u)
    ensures r.Ok? <==> NoSpecial(prefixes, case_.special)
  {
    PrefixesAreCuts(backend, case_, prompts, repeats, prefixes);
    RotatedPrefixesSucceed(case_, prefixes, repeats);
    r := RunEvalRepeat(backend, kv, case_, prompts, repeats, None, None);
  }

  // ---- Devices with separate lanes

  lemma {:induction false} SeparateLanesAlone<C, L, P, T>(
    backend: Backend<seq<C>, L>, lane: Lane<C, L>, case_: Case<P, T>, prompts: seq<P>, b: nat, u: nat)
    requires u < |prompts| == case_.maxBatchSize && backend(case_.TableFor(b)) == Lift(lane, |prompts|)
    ensures SlotAlone(backend, lane, case_, prompts, b, u)
  {
    StreamsAreLaneStreams(lane, case_.RunOptions(), case_.Tokens(prompts, b), case_.maxBatchSize,
                          Steps(case_.numDecodeTokens), u);
    AloneByStream(backend, lane, case_, prompts, b, u);
  }

  /** A device that gives every lane a cache of its own, whatever the page table says. */
  method RunOnIndependentLanes<C(!new), L, P, T(==)>(
    lane: Lane<C, L>, kv: seq<C>, case_: Case<P, T>, prompts: seq<P>, repeats: nat)
    returns (r: Result<(), EvalError>)
    requires 0 < |prompts| == case_.maxBatchSize && repeats >= 2 && case_.ModeSupported()
    ensures r.Ok? <==> case_.Clean(AllAlone(lane, case_, prompts))
  {
    var backend: Backend<seq<C>, L> := _ => Lift(lane, |prompts|);
    forall b, u | 0 <= b < repeats && 0 <= u < |prompts| ensures SlotAlone(backend, lane, case_, prompts, b, u) {
      SeparateLanesAlone(backend, lane, case_, prompts, b, u);
    }
    r := RunWithoutInterference(backend, lane, kv, case_, prompts, repeats);
  }
}
