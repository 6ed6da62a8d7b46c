/**
Building the prefill rectangle (examples/llama3_8b/demo_utils.py).  The tokenizer is a pair of
arbitrary functions: `encode(prompt, instruct)` and an optional `decode`.
*/
module TokenizeBatch {
  import opened Prelude

  datatype TokenizeError =
    | PrefillExceedsContext
    | NoRoomForPrompt
    | EmptyBatch
    | DecoderRequired
    | NoRoomAfterTemplate
    | WrongClippedLength
    | PromptTooLong
    | EmptyPrompt

  datatype Limits = Limits(maxSeqLen: int, maxContextLen: int, reserve: int) {
    /** `max_prefill_len` after the reservation. */
    function Budget(): int {
      maxSeqLen - reserve
    }
  }

  ghost predicate AllLonger(prompts: seq<seq<int>>, n: int) {
    forall i :: 0 <= i < |prompts| ==> |prompts[i]| > n
  }

  ghost predicate AllWithin(prompts: seq<seq<int>>, low: int, high: int) {
    forall i :: 0 <= i < |prompts| ==> low <= |prompts[i]| <= high
  }

  function Encoded<P>(prompts: seq<P>, encode: (P, bool) -> seq<int>, instruct: bool): (r: seq<seq<int>>)
    ensures |r| == |prompts|
  {
    Map(p => encode(p, instruct), prompts)
  }

  /** Room left for the raw text of a prompt once its chat template is counted. */
  function RawBudget<P>(p: P, encode: (P, bool) -> seq<int>, budget: int): int {
    budget - (|encode(p, true)| - |encode(p, false)|)
  }

  /** The prompt whose raw tokens are cut to the end that fits, decoded and encoded again. */
  function Reencoded<P>(p: P, encode: (P, bool) -> seq<int>, decode: seq<int> -> P, budget: int): seq<int>
    requires RawBudget(p, encode, budget) > 0
  {
    encode(decode(SuffixSlice(encode(p, false), RawBudget(p, encode, budget))), true)
  }

  /** `after` is `before`, or its clipped form when even the shortest prompt exceeds the budget. */
  ghost predicate Prepared<P>(
    prompts: seq<P>, encode: (P, bool) -> seq<int>, decode: Option<seq<int> -> P>, instruct: bool, budget: int,
    after: seq<seq<int>>)
    requires budget > 0
  {
    var before := Encoded(prompts, encode, instruct);
    && |after| == |prompts|
    && (!AllLonger(before, budget) ==> after == before)
    && (AllLonger(before, budget) && !instruct ==>
          forall i :: 0 <= i < |after| ==> after[i] == SuffixSlice(before[i], budget))
    && (AllLonger(before, budget) && instruct ==>
          decode.Some? && forall i :: 0 <= i < |after| ==>
            RawBudget(prompts[i], encode, budget) > 0
            && after[i] == Reencoded(prompts[i], encode, decode.value, budget) && |after[i]| == budget)
  }

  /** Some prompt is not over the budget. */
  ghost predicate SomeFits<P>(prompts: seq<P>, encode: (P, bool) -> seq<int>, instruct: bool, budget: int) {
    exists i :: 0 <= i < |prompts| && |encode(prompts[i], instruct)| <= budget
  }

  /** The last `budget` tokens of a longer encoding. */
  ghost predicate IsEndOf(row: seq<int>, encoded: seq<int>, budget: int) {
    0 < |row| == budget < |encoded| && encoded == encoded[..|encoded| - budget] + row
  }

  /**
   The row is the template around the end of the raw prompt: as many raw tokens as the budget leaves once the
   template's own tokens are counted, or all of them, decoded and encoded again.
   */
  ghost predicate IsShortened<P>(
    row: seq<int>, p: P, encode: (P, bool) -> seq<int>, decode: seq<int> -> P, budget: int)
  {
    var raw := encode(p, false);
    var room := budget - |encode(p, true)| + |raw|;
    && room > 0 && |row| == budget
    && row == encode(decode(if room < |raw| then raw[|raw| - room..] else raw), true)
  }

  /** The three cases, prompt by prompt. */
  lemma PreparedExactly<P>(
    prompts: seq<P>, encode: (P, bool) -> seq<int>, decode: Option<seq<int> -> P>, instruct: bool, budget: int,
    after: seq<seq<int>>)
    requires budget > 0
    ensures Prepared(prompts, encode, decode, instruct, budget, after) <==>
      && |after| == |prompts|
      && if SomeFits(prompts, encode, instruct, budget) then
           forall i :: 0 <= i < |prompts| ==> after[i] == encode(prompts[i], instruct)
         else if !instruct then
           forall i :: 0 <= i < |prompts| ==> IsEndOf(after[i], encode(prompts[i], false), budget)
         else
           decode.Some? && forall i :: 0 <= i < |prompts| ==>
             IsShortened(after[i], prompts[i], encode, decode.value, budget)
  {
    var before := Encoded(prompts, encode, instruct);
    assert AllLonger(before, budget) <==> !SomeFits(prompts, encode, instruct, budget);
    if |after| == |prompts| {
      if AllLonger(before, budget) && !instruct {
        forall i | 0 <= i < |prompts|
          ensures after[i] == SuffixSlice(before[i], budget)
             <==> IsEndOf(after[i], encode(prompts[i], false), budget)
        {
          SuffixIsEnd(after[i], before[i], budget);
        }
      }
      if instruct && decode.Some? {
        forall i | 0 <= i < |prompts|
          ensures RawBudget(prompts[i], encode, budget) > 0
                  && after[i] == Reencoded(prompts[i], encode, decode.value, budget) && |after[i]| == budget
             <==> IsShortened(after[i], prompts[i], encode, decode.value, budget)
        {
        }
      }
    }
  }

  lemma SuffixIsEnd(row: seq<int>, encoded: seq<int>, budget: int)
    requires 0 < budget < |encoded|
    ensures row == SuffixSlice(encoded, budget) <==> IsEndOf(row, encoded, budget)
  {
    SuffixSliceExactly(encoded, budget);
    if IsEndOf(row, encoded, budget) {
      assert encoded[|encoded| - budget..] == row;
    }
  }

  method ShortestAndLongest(prompts: seq<seq<int>>) returns (low: nat, high: nat)
    requires prompts != []
    ensures AllWithin(prompts, low, high)
    ensures exists i :: 0 <= i < |prompts| && |prompts[i]| == low
    ensures exists i :: 0 <= i < |prompts| && |prompts[i]| == high
  {
    low, high := |prompts[0]|, |prompts[0]|;
    for i := 1 to |prompts|
      invariant AllWithin(prompts[..i], low, high)
      invariant exists j :: 0 <= j < i && |prompts[j]| == low
      invariant exists j :: 0 <= j < i && |prompts[j]| == high
    {
      assert prompts[..i + 1] == prompts[..i] + [prompts[i]];
      low := Min(low, |prompts[i]|);
      high := Max(high, |prompts[i]|);
    }
    assert prompts[..|prompts|] == prompts;
  }

  /** The loop over raw prompts: cut each to its budget and decode it. */
  method ShortenRaw<P>(prompts: seq<P>, encode: (P, bool) -> seq<int>, decode: seq<int> -> P, budget: int)
    returns (r: Result<seq<P>, TokenizeError>)
    ensures r.Ok? <==> forall i :: 0 <= i < |prompts| ==> RawBudget(prompts[i], encode, budget) > 0
    ensures r.Ok? ==> |r.value| == |prompts|
    ensures r.Ok? ==> forall i :: 0 <= i < |prompts| ==>
      r.value[i] == decode(SuffixSlice(encode(prompts[i], false), RawBudget(prompts[i], encode, budget)))
    ensures r.Err? ==> r.error == NoRoomAfterTemplate
  {
    var shortened: seq<P> := [];
    for i := 0 to |prompts|
      invariant |shortened| == i
      invariant forall j :: 0 <= j < i ==> RawBudget(prompts[j], encode, budget) > 0
      invariant forall j :: 0 <= j < i ==>
        shortened[j] == decode(SuffixSlice(encode(prompts[j], false), RawBudget(prompts[j], encode, budget)))
    {
      var rawBudget := RawBudget(prompts[i], encode, budget);
      if rawBudget <= 0 {
        return Err(NoRoomAfterTemplate);
      }
      shortened := shortened + [decode(SuffixSlice(encode(prompts[i], false), rawBudget))];
    }
    return Ok(shortened);
  }

  /** Clipping, when every prompt exceeds the budget. */
  method Clip<P>(
    prompts: seq<P>, encode: (P, bool) -> seq<int>, decode: Option<seq<int> -> P>, instruct: bool, budget: int)
    returns (r: Result<seq<seq<int>>, TokenizeError>)
    requires budget > 0 && AllLonger(Encoded(prompts, encode, instruct), budget)
    ensures r.Ok? ==> Prepared(prompts, encode, decode, instruct, budget, r.value)
    ensures r.Err? ==> instruct && forall after :: !Prepared(prompts, encode, decode, instruct, budget, after)
  {
    var encoded := Encoded(prompts, encode, instruct);
    if !instruct {
      return Ok(Map(e => SuffixSlice(e, budget), encoded));
    }
    if decode == None {
      return Err(DecoderRequired);
    }
    var shortened := ShortenRaw(prompts, encode, decode.value, budget);
    if shortened.Err? {
      return Err(shortened.error);
    }
    var again := Encoded(shortened.value, encode, true);
    forall i | 0 <= i < |prompts| ensures again[i] == Reencoded(prompts[i], encode, decode.value, budget) {
    }
    if exists i :: 0 <= i < |again| && |again[i]| != budget {
      return Err(WrongClippedLength);
    }
    return Ok(again);
  }

  /** The padded tensor and the real prompt lengths. */
  datatype Batch = Batch(tokens: array2<int>, lens: seq<nat>)

  /** Row i is prompt i followed by padding only, and the lengths are the prompts' own. */
  ghost predicate Holds(b: Batch, prompts: seq<seq<int>>, padId: int)
    reads b.tokens
  {
    && b.tokens.Length0 == |prompts| == |b.lens|
    && (forall i :: 0 <= i < |prompts| ==> b.lens[i] == |prompts[i]| <= b.tokens.Length1)
    && (forall i, j :: 0 <= i < |prompts| && 0 <= j < b.tokens.Length1 ==>
          b.tokens[i, j] == if j < |prompts[i]| then prompts[i][j] else padId)
  }

  method FillRectangle(prompts: seq<seq<int>>, longest: nat, padId: int) returns (b: Batch)
    requires AllWithin(prompts, 0, longest)
    ensures Holds(b, prompts, padId) && b.tokens.Length1 == longest && fresh(b.tokens)
  {
    var tokens := new int[|prompts|, longest]((_, _) => padId);
    for i := 0 to |prompts|
      invariant forall k, j :: 0 <= k < i && 0 <= j < longest ==>
                  tokens[k, j] == if j < |prompts[k]| then prompts[k][j] else padId
      invariant forall k, j :: i <= k < |prompts| && 0 <= j < longest ==> tokens[k, j] == padId
    {
      forall j | 0 <= j < |prompts[i]| {
        tokens[i, j] := prompts[i][j];
      }
    }
    b := Batch(tokens, Map((e: seq<int>) => |e| as nat, prompts));
  }

  method TokenizePromptsToBatch<P>(
    prompts: seq<P>, encode: (P, bool) -> seq<int>, decode: Option<seq<int> -> P>, instruct: bool, limits: Limits,
    padId: int) returns (r: Result<Batch, TokenizeError>, ghost rows: seq<seq<int>>)
    ensures r.Ok? ==> limits.maxSeqLen <= limits.maxContextLen && limits.Budget() > 0 && prompts != []
    ensures r.Ok? ==> Prepared(prompts, encode, decode, instruct, limits.Budget(), rows)
    ensures r.Ok? ==> AllWithin(rows, 1, limits.maxSeqLen) && Holds(r.value, rows, padId) && fresh(r.value.tokens)
    ensures r.Ok? ==> exists i :: 0 <= i < |rows| && |rows[i]| == r.value.tokens.Length1
    ensures r.Err? && limits.maxSeqLen <= limits.maxContextLen && limits.Budget() > 0 && prompts != [] ==>
      forall after | Prepared(prompts, encode, decode, instruct, limits.Budget(), after) ::
        !AllWithin(after, 1, limits.maxSeqLen)
  {
    rows := [];
    if limits.maxSeqLen > limits.maxContextLen {
      return Err(PrefillExceedsContext), rows;
    }
    var budget := limits.Budget();
    if budget <= 0 {
      return Err(NoRoomForPrompt), rows;
    }
    var encoded := Encoded(prompts, encode, instruct);
    if encoded == [] {
      return Err(EmptyBatch), rows;
    }
    var low, high := ShortestAndLongest(encoded);
    if low > budget {
      var clipped := Clip(prompts, encode, decode, instruct, budget);
      if clipped.Err? {
        return Err(clipped.error), rows;
      }
      encoded := clipped.value;
      low, high := ShortestAndLongest(encoded);
    }
    rows := encoded;
    PreparedUnique(prompts, encode, decode, instruct, budget, rows);
    if high > limits.maxSeqLen {
      return Err(PromptTooLong), rows;
    }
    if low <= 0 {
      return Err(EmptyPrompt), rows;
    }
    var b := FillRectangle(encoded, high, padId);
    return Ok(b), rows;
  }

  lemma PreparedUnique<P>(
    prompts: seq<P>, encode: (P, bool) -> seq<int>, decode: Option<seq<int> -> P>, instruct: bool, budget: int,
    rows: seq<seq<int>>)
    requires budget > 0 && Prepared(prompts, encode, decode, instruct, budget, rows)
    ensures forall after | Prepared(prompts, encode, decode, instruct, budget, after) :: after == rows
  {
  }

  /** When clipping fires every row has exactly the budget's length, so the reserved tokens fit behind it. */
  lemma ClippedRowsFit<P>(
    prompts: seq<P>, encode: (P, bool) -> seq<int>, decode: Option<seq<int> -> P>, instruct: bool, limits: Limits,
    rows: seq<seq<int>>, i: nat)
    requires limits.Budget() > 0 && Prepared(prompts, encode, decode, instruct, limits.Budget(), rows)
    requires AllLonger(Encoded(prompts, encode, instruct), limits.Budget()) && i < |rows|
    ensures |rows[i]| + limits.reserve == limits.maxSeqLen
    ensures !instruct ==> exists cut | 0 < cut <= |encode(prompts[i], false)| ::
      rows[i] == encode(prompts[i], false)[cut..]
  {
    var before := Encoded(prompts, encode, instruct);
    assert |before[i]| > limits.Budget();
    if !instruct {
      var cut := |before[i]| - limits.Budget();
      assert rows[i] == encode(prompts[i], false)[cut..] && cut > 0;
    }
  }

  /** Every row leaves room for the reserved tokens exactly when clipping fired or no prompt is over budget. */
  lemma RowsFitExactly<P>(
    prompts: seq<P>, encode: (P, bool) -> seq<int>, decode: Option<seq<int> -> P>, instruct: bool, limits: Limits,
    rows: seq<seq<int>>)
    requires limits.Budget() > 0 && Prepared(prompts, encode, decode, instruct, limits.Budget(), rows)
    ensures var before := Encoded(prompts, encode, instruct);
      AllWithin(rows, 0, limits.maxSeqLen - limits.reserve)
      <==> AllLonger(before, limits.Budget()) || AllWithin(before, 0, limits.Budget())
  {
    if AllLonger(Encoded(prompts, encode, instruct), limits.Budget()) {
      forall i | 0 <= i < |rows| ensures |rows[i]| <= limits.Budget() {
        ClippedRowsFit(prompts, encode, decode, instruct, limits, rows, i);
      }
    }
  }

  /** A mixed batch is not clipped: one short prompt lets a prompt of full sequence length through. */
  lemma MixedBatchMayOverflow(maxSeqLen: int, reserve: int)
    requires 0 < reserve < maxSeqLen
    ensures var encode := (n: nat, instruct: bool) => seq(n, _ => 7);
      var limits := Limits(maxSeqLen, maxSeqLen, reserve);
      var rows := Encoded([1, maxSeqLen as nat], encode, false);
      Prepared([1, maxSeqLen as nat], encode, None, false, limits.Budget(), rows)
      && AllWithin(rows, 1, maxSeqLen) && !AllWithin(rows, 0, maxSeqLen - reserve)
  {
    var encode := (n: nat, instruct: bool) => seq(n, _ => 7);
    var rows := Encoded([1, maxSeqLen as nat], encode, false);
    assert |rows[0]| == 1 && |rows[1]| == maxSeqLen;
  }
}
