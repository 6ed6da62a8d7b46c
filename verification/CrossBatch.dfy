/**
The two cross-batch determinism checkers: modular slots (examples/common/run_helpers.py) and
rotating back (examples/llama3_8b/benchmark.py), with the first-divergence report.

`outputs[b][u]` is what slot u of repeat b produced; slot j of repeat b holds prompt (j + b) mod n.
*/
module CrossBatch {
  import opened Prelude
  import opened Rotation
  import StopTokens

  type Outputs<T> = seq<seq<T>>

  ghost predicate Rectangular<T>(outputs: Outputs<T>, n: nat) {
    n > 0 && forall b :: 0 <= b < |outputs| ==> |outputs[b]| == n
  }

  /** Every repeat has an output, as rotating needs. */
  predicate NonEmpty<T>(outputs: Outputs<T>) {
    forall b :: 0 <= b < |outputs| ==> |outputs[b]| > 0
  }

  function Count(flags: seq<bool>): (c: nat)
    ensures c <= |flags|
  {
    if flags == [] then 0 else (if flags[0] then 1 else 0) + Count(flags[1..])
  }

  lemma {:induction false} CountAppend(a: seq<bool>, b: seq<bool>)
    ensures Count(a + b) == Count(a) + Count(b)
  {
    if a == [] {
      assert a + b == b;
    } else {
      CountAppend(a[1..], b);
      assert (a + b)[1..] == a[1..] + b;
    }
  }

  lemma {:induction false} CountZero(flags: seq<bool>)
    ensures Count(flags) == 0 <==> forall i :: 0 <= i < |flags| ==> !flags[i]
  {
    if flags != [] {
      CountZero(flags[1..]);
      assert forall i :: 1 <= i < |flags| ==> flags[i] == flags[1..][i - 1];
    }
  }

  /** A rotation has as many marks as the original. */
  lemma CountRotate(flags: seq<bool>, amount: int)
    requires flags != []
    ensures Count(RotatePrompts(flags, amount)) == Count(flags)
  {
    var k := Mod(amount, |flags|);
    RotateIsRotatePrompts(flags, amount);
    CountAppend(flags[k..], flags[..k]);
    CountAppend(flags[..k], flags[k..]);
    assert flags == flags[..k] + flags[k..];
  }

  /** Repeat b's outputs in prompt order. */
  function ByPrompt<T>(outputs: Outputs<T>, b: nat): (r: seq<T>)
    requires b < |outputs| && outputs[b] != []
    ensures |r| == |outputs[b]|
  {
    Rotate(outputs[b], 0 - b)
  }

  /** Prompt i's output in repeat b is that of the slot which held it. */
  lemma ByPromptReadsItsSlot<T>(outputs: Outputs<T>, n: nat, b: nat, i: nat)
    requires Rectangular(outputs, n) && b < |outputs| && i < n
    ensures |ByPrompt(outputs, b)| == n && ByPrompt(outputs, b)[i] == outputs[b][SlotOf(i, b, n)]
  {
    RotateIsRotatePrompts(outputs[b], 0 - b);
  }

  /** The comparisons of the modular-slot checker between repeats b and b + 1, by slot of repeat b + 1. */
  function SlotMismatches<T(==)>(outputs: Outputs<T>, n: nat, b: nat): (r: seq<bool>)
    requires Rectangular(outputs, n) && b + 1 < |outputs|
    ensures |r| == n
  {
    seq(n, offset requires 0 <= offset < n => outputs[b][Mod(offset + 1, n)] != outputs[b + 1][offset])
  }

  /** The comparisons of the rotate-back checker between repeats b and b + 1, by prompt; the longer one is cut. */
  function PromptMismatches<T(==)>(outputs: Outputs<T>, b: nat): (r: seq<bool>)
    requires NonEmpty(outputs) && b + 1 < |outputs|
    ensures |r| == Min(|outputs[b]|, |outputs[b + 1]|)
  {
    seq(Min(|outputs[b]|, |outputs[b + 1]|), i requires 0 <= i < Min(|outputs[b]|, |outputs[b + 1]|) =>
      ByPrompt(outputs, b)[i] != ByPrompt(outputs, b + 1)[i])
  }

  /** The comparison at slot `offset` is the comparison of the prompt which that slot holds. */
  lemma MismatchOfSlot<T>(outputs: Outputs<T>, n: nat, b: nat, offset: nat)
    requires Rectangular(outputs, n) && b + 1 < |outputs| && offset < n
    ensures SlotMismatches(outputs, n, b)[offset]
         == PromptMismatches(outputs, b)[Mod(offset + (b + 1), n)]
  {
    var i := Mod(offset + (b + 1), n);
    ByPromptReadsItsSlot(outputs, n, b, i);
    ByPromptReadsItsSlot(outputs, n, b + 1, i);
    assert SlotOf(i, b, n) == Mod(offset + 1, n) by {
      ModAdd(offset + (b + 1), 0 - b, n);
    }
    assert SlotOf(i, b + 1, n) == offset by {
      PromptInSlot(offset, b + 1, n);
    }
  }

  /** One checker's comparisons are a rotation of the other's. */
  lemma MismatchesRotate<T>(outputs: Outputs<T>, n: nat, b: nat)
    requires Rectangular(outputs, n) && b + 1 < |outputs|
    ensures SlotMismatches(outputs, n, b) == RotatePrompts(PromptMismatches(outputs, b), b + 1)
    ensures Count(SlotMismatches(outputs, n, b)) == Count(PromptMismatches(outputs, b))
  {
    var s, p := SlotMismatches(outputs, n, b), PromptMismatches(outputs, b);
    forall offset | 0 <= offset < n ensures s[offset] == RotatePrompts(p, b + 1)[offset] {
      MismatchOfSlot(outputs, n, b, offset);
    }
    CountRotate(p, b + 1);
  }

  /** Mismatches over the first `pairs` neighbouring repeats. */
  function SlotTotal<T(==)>(outputs: Outputs<T>, n: nat, pairs: nat): nat
    requires Rectangular(outputs, n) && (pairs > 0 ==> pairs < |outputs|)
  {
    if pairs == 0 then 0 else SlotTotal(outputs, n, pairs - 1) + Count(SlotMismatches(outputs, n, pairs - 1))
  }

  function PromptTotal<T(==)>(outputs: Outputs<T>, pairs: nat): nat
    requires NonEmpty(outputs) && (pairs > 0 ==> pairs < |outputs|)
  {
    if pairs == 0 then 0 else PromptTotal(outputs, pairs - 1) + Count(PromptMismatches(outputs, pairs - 1))
  }

  lemma {:induction false} SlotTotalGrows<T>(outputs: Outputs<T>, n: nat, pairs: nat, more: nat)
    requires Rectangular(outputs, n) && pairs <= more && (more > 0 ==> more < |outputs|)
    ensures SlotTotal(outputs, n, pairs) <= SlotTotal(outputs, n, more)
    decreases more
  {
    if pairs < more {
      SlotTotalGrows(outputs, n, pairs, more - 1);
    }
  }

  /** Both checkers find the same number of mismatches. */
  lemma {:induction false} CheckersAgree<T>(outputs: Outputs<T>, n: nat, pairs: nat)
    requires Rectangular(outputs, n) && (pairs > 0 ==> pairs < |outputs|)
    ensures SlotTotal(outputs, n, pairs) == PromptTotal(outputs, pairs)
  {
    if pairs > 0 {
      CheckersAgree(outputs, n, pairs - 1);
      MismatchesRotate(outputs, n, pairs - 1);
    }
  }

  /** Every prompt has one and the same output in the repeats `0..=last`. */
  ghost predicate Invariant<T>(outputs: Outputs<T>, n: nat, last: nat)
    requires Rectangular(outputs, n) && last < |outputs|
  {
    forall b, c | 0 <= b <= last && 0 <= c <= last :: ByPrompt(outputs, b) == ByPrompt(outputs, c)
  }

  /** Two slots that held one prompt have one output. */
  ghost predicate SlotsAgree<T>(outputs: Outputs<T>, b: nat, u: nat, c: nat, v: nat)
    requires b < |outputs| && c < |outputs| && u < |outputs[b]| && v < |outputs[c]|
  {
    Mod(u + b, |outputs[b]|) == Mod(v + c, |outputs[c]|) ==> outputs[b][u] == outputs[c][v]
  }

  /** Invariance by slots: whenever and wherever a prompt is run, its output is the same. */
  lemma InvariantBySlots<T>(outputs: Outputs<T>, n: nat)
    requires Rectangular(outputs, n) && outputs != []
    ensures Invariant(outputs, n, |outputs| - 1)
       <==> forall b, u, c, v | 0 <= b < |outputs| && 0 <= u < n && 0 <= c < |outputs| && 0 <= v < n ::
              SlotsAgree(outputs, b, u, c, v)
  {
    if Invariant(outputs, n, |outputs| - 1) {
      forall b, u, c, v | 0 <= b < |outputs| && 0 <= u < n && 0 <= c < |outputs| && 0 <= v < n
        ensures SlotsAgree(outputs, b, u, c, v)
      {
        PromptInSlot(u, b, n);
        PromptInSlot(v, c, n);
        ByPromptReadsItsSlot(outputs, n, b, Mod(u + b, n));
        ByPromptReadsItsSlot(outputs, n, c, Mod(v + c, n));
      }
    } else {
      var b, c :| 0 <= b < |outputs| && 0 <= c < |outputs| && ByPrompt(outputs, b) != ByPrompt(outputs, c);
      ByPromptReadsItsSlot(outputs, n, b, 0);
      ByPromptReadsItsSlot(outputs, n, c, 0);
      var i :| 0 <= i < n && ByPrompt(outputs, b)[i] != ByPrompt(outputs, c)[i];
      ByPromptReadsItsSlot(outputs, n, b, i);
      ByPromptReadsItsSlot(outputs, n, c, i);
      SlotHoldsPrompt(i, b, n);
      SlotHoldsPrompt(i, c, n);
      assert !SlotsAgree(outputs, b, SlotOf(i, b, n), c, SlotOf(i, c, n));
    }
  }

  /** No mismatch between neighbours means agreement between any two repeats. */
  lemma {:induction false} AcceptsExactlyInvariant<T>(outputs: Outputs<T>, n: nat, last: nat)
    requires Rectangular(outputs, n) && last < |outputs|
    ensures PromptTotal(outputs, last) == 0 <==> Invariant(outputs, n, last)
  {
    if last > 0 {
      var b := last - 1;
      AcceptsExactlyInvariant(outputs, n, b);
      var x, y := ByPrompt(outputs, b), ByPrompt(outputs, last);
      ByPromptReadsItsSlot(outputs, n, b, 0);
      ByPromptReadsItsSlot(outputs, n, last, 0);
      var flags := PromptMismatches(outputs, b);
      CountZero(flags);
      assert forall i :: 0 <= i < n ==> flags[i] == (x[i] != y[i]);
      assert Count(flags) == 0 <==> x == y;
    }
  }

  /** The checkers accept exactly when any two repeats agree on every prompt, not only neighbours. */
  lemma BothCheckersAcceptExactlyInvariant<T>(outputs: Outputs<T>, n: nat)
    requires Rectangular(outputs, n) && |outputs| >= 2
    ensures SlotTotal(outputs, n, |outputs| - 1) == 0 <==> Invariant(outputs, n, |outputs| - 1)
    ensures PromptTotal(outputs, |outputs| - 1) == 0 <==> Invariant(outputs, n, |outputs| - 1)
  {
    CheckersAgree(outputs, n, |outputs| - 1);
    AcceptsExactlyInvariant(outputs, n, |outputs| - 1);
  }

  // ---- First divergence of two token lists

  /** The number of leading positions where two lists agree. */
  function CommonTokens(a: seq<int>, b: seq<int>): (k: nat)
    ensures k <= |a| && k <= |b|
  {
    if a == [] || b == [] || a[0] != b[0] then 0 else 1 + CommonTokens(a[1..], b[1..])
  }

  /** It is the least position where they differ, or where one of them ends. */
  lemma {:induction false} CommonTokensIsFirstDifference(a: seq<int>, b: seq<int>)
    ensures var k := CommonTokens(a, b);
      a[..k] == b[..k] && (k < |a| && k < |b| ==> a[k] != b[k]) && (k == |a| || k == |b| || a[k] != b[k])
    ensures CommonTokens(a, b) == |a| == |b| ==> a == b
  {
    if a != [] && b != [] && a[0] == b[0] {
      CommonTokensIsFirstDifference(a[1..], b[1..]);
      var k := CommonTokens(a[1..], b[1..]);
      assert a[..k + 1] == [a[0]] + a[1..][..k] && b[..k + 1] == [b[0]] + b[1..][..k];
      assert a == [a[0]] + a[1..] && b == [b[0]] + b[1..];
    }
  }

  method FindDivergence(a: seq<int>, b: seq<int>) returns (common: nat)
    ensures common == CommonTokens(a, b)
  {
    common := 0;
    for i := 0 to Min(|a|, |b|)
      invariant common == i <= |a| && i <= |b|
      invariant CommonTokens(a, b) == i + CommonTokens(a[i..], b[i..])
    {
      if a[i] != b[i] {
        break;
      }
      common := common + 1;
    }
  }

  datatype Divergence = Divergence(
    step: nat, currentToken: Option<int>, nextToken: Option<int>, margins: Option<(real, real)>)

  function TokenAt(ids: seq<int>, step: nat): Option<int> {
    if step < |ids| then Some(ids[step]) else None
  }

  /** The report on two token lists; None when a margin list is too short to be indexed (an IndexError). */
  function Report(a: seq<int>, b: seq<int>, margins: Option<(seq<real>, seq<real>)>): (r: Option<Divergence>) {
    var k := CommonTokens(a, b);
    if margins == None then Some(Divergence(k, TokenAt(a, k), TokenAt(b, k), None))
    else if k < |margins.value.0| && k < |margins.value.1| then
      Some(Divergence(k, TokenAt(a, k), TokenAt(b, k), Some((margins.value.0[k], margins.value.1[k]))))
    else None
  }

  /** The least step where the lists differ or one of them ends, and their tokens there. */
  ghost predicate Explains(d: Divergence, a: seq<int>, b: seq<int>) {
    && d.step <= |a| && d.step <= |b| && a[..d.step] == b[..d.step]
    && (d.step < |a| && d.step < |b| ==> a[d.step] != b[d.step])
    && d.currentToken == (if d.step < |a| then Some(a[d.step]) else None)
    && d.nextToken == (if d.step < |b| then Some(b[d.step]) else None)
  }

  lemma {:induction false} ExplainedStep(d: Divergence, a: seq<int>, b: seq<int>)
    requires Explains(d, a, b)
    ensures d.step == CommonTokens(a, b)
  {
    CommonTokensIsFirstDifference(a, b);
    var k := CommonTokens(a, b);
    assert forall i :: 0 <= i < k ==> a[i] == a[..k][i] == b[..k][i] == b[i];
    assert forall i :: 0 <= i < d.step ==> a[i] == a[..d.step][i] == b[..d.step][i] == b[i];
  }

  /** A report is made exactly if both margin lists, where there are any, reach that step; it has their margins. */
  lemma {:induction false} ReportExactly(
    a: seq<int>, b: seq<int>, margins: Option<(seq<real>, seq<real>)>, d: Divergence)
    ensures Report(a, b, margins) == Some(d) <==>
      && Explains(d, a, b)
      && if margins == None then d.margins == None
         else
           var (ma, mb) := margins.value;
           d.step < |ma| && d.step < |mb| && d.margins == Some((ma[d.step], mb[d.step]))
  {
    CommonTokensIsFirstDifference(a, b);
    if Explains(d, a, b) {
      ExplainedStep(d, a, b);
    }
  }

  /**
   Decoded text is a function of the cut tokens.  If moreover the two runs generated equally many tokens,
   each with its margin, a difference in the text always shows as a token difference at a step that all four
   lists have.
   */
  lemma DivergenceInRange<T>(
    a: seq<int>, b: seq<int>, ma: seq<real>, mb: seq<real>, stop: set<int>, decode: seq<int> -> T)
    requires |a| == |b| == |ma| == |mb|
    requires decode(StopTokens.Truncated(a, stop)) != decode(StopTokens.Truncated(b, stop))
    ensures var k := CommonTokens(a, b);
      && k < |a| && a[..k] == b[..k] && a[k] != b[k]
      && Report(a, b, Some((ma, mb))) == Some(Divergence(k, Some(a[k]), Some(b[k]), Some((ma[k], mb[k]))))
  {
    CommonTokensIsFirstDifference(a, b);
  }

  // ---- The modular-slot checker

  datatype Evidence<T> = Evidence(
    outputs: Outputs<T>, tokenIds: Option<seq<seq<seq<int>>>>, margins: Option<seq<Option<seq<seq<real>>>>>)

  datatype Failure = Failure(
    repeat: nat, currentSlot: nat, nextSlot: nat, promptIndex: nat, divergence: Option<Divergence>)

  datatype BatchVerdict =
    | TooFewRepeats
    | Consistent
    | Inconsistent(failed: nat, total: nat, first: Failure)
    | RaisesIndexError

  /** `lists[i]`, or None for an IndexError. */
  function Item<T>(lists: seq<T>, i: nat): (r: Option<T>) {
    if i < |lists| then Some(lists[i]) else None
  }

  function Item2<T>(lists: seq<seq<T>>, b: nat, slot: nat): (r: Option<T>) {
    if b < |lists| then Item(lists[b], slot) else None
  }

  /** Both repeats' margins were looked up and recorded. */
  predicate HasMargins(margins: Option<seq<Option<seq<seq<real>>>>>, b: nat) {
    margins.Some? && b + 1 < |margins.value| && margins.value[b].Some? && margins.value[b + 1].Some?
  }

  /** The margins are consulted, but a list of them is missing. */
  predicate MarginsMissing(margins: Option<seq<Option<seq<seq<real>>>>>, b: nat, slot: nat, offset: nat) {
    margins.Some?
    && (b + 1 >= |margins.value|
        || (HasMargins(margins, b)
            && (slot >= |margins.value[b].value| || offset >= |margins.value[b + 1].value|)))
  }

  /** The margin lists behind one comparison, when both repeats recorded them. */
  function MarginPair(margins: Option<seq<Option<seq<seq<real>>>>>, b: nat, slot: nat, offset: nat)
    : (r: Option<(seq<real>, seq<real>)>)
    requires !MarginsMissing(margins, b, slot, offset)
  {
    if HasMargins(margins, b) then Some((margins.value[b].value[slot], margins.value[b + 1].value[offset])) else None
  }

  /** The token and margin detail of a report; None is an IndexError while it is composed. */
  function DetailOf<T>(e: Evidence<T>, b: nat, slot: nat, offset: nat): (r: Option<Divergence>)
    requires e.tokenIds.Some?
  {
    var current, next := Item2(e.tokenIds.value, b, slot), Item2(e.tokenIds.value, b + 1, offset);
    if current == None || next == None || MarginsMissing(e.margins, b, slot, offset) then None
    else Report(current.value, next.value, MarginPair(e.margins, b, slot, offset))
  }

  /** The report on the comparison of slot `offset`; None is an IndexError while it is composed. */
  function DescribeFailure<T>(e: Evidence<T>, n: nat, b: nat, offset: nat): (r: Option<Failure>)
    requires offset < n
  {
    var slot := Mod(offset + 1, n);
    if e.tokenIds == None then Some(Failure(b, slot, offset, Mod(offset + b + 1, n), None))
    else
      var detail := DetailOf(e, b, slot, offset);
      if detail == None then None else Some(Failure(b, slot, offset, Mod(offset + b + 1, n), detail))
  }

  /** The reported prompt is the prompt held in both named slots. */
  lemma ReportedPromptIsHeldByBothSlots<T>(e: Evidence<T>, n: nat, b: nat, offset: nat)
    requires b + 1 < |e.outputs| && offset < n
    requires DescribeFailure(e, n, b, offset).Some?
    ensures var f := DescribeFailure(e, n, b, offset).value;
      && f.promptIndex < n
      && SlotOf(f.promptIndex, f.repeat, n) == f.currentSlot
      && SlotOf(f.promptIndex, f.repeat + 1, n) == f.nextSlot
  {
    PromptInSlot(offset, b + 1, n);
    ModAdd(offset + 1, b, n);
    PromptInSlot(Mod(offset + 1, n), b, n);
  }

  /** The token lists behind one comparison, and the margin lists that are consulted, are there. */
  ghost predicate ListsPresent<T>(e: Evidence<T>, b: nat, slot: nat, offset: nat) {
    && e.tokenIds.Some? && b + 1 < |e.tokenIds.value|
    && slot < |e.tokenIds.value[b]| && offset < |e.tokenIds.value[b + 1]|
    && (e.margins.Some? ==>
          && b + 1 < |e.margins.value|
          && (e.margins.value[b].Some? && e.margins.value[b + 1].Some? ==>
                slot < |e.margins.value[b].value| && offset < |e.margins.value[b + 1].value|))
  }

  /** The step at which the two compared slots part, their tokens there, and the margins recorded there, if any. */
  ghost predicate DetailFits<T>(d: Divergence, e: Evidence<T>, b: nat, slot: nat, offset: nat)
    requires ListsPresent(e, b, slot, offset)
  {
    && Explains(d, e.tokenIds.value[b][slot], e.tokenIds.value[b + 1][offset])
    && if e.margins == None || e.margins.value[b] == None || e.margins.value[b + 1] == None then d.margins == None
       else
         var ma, mb := e.margins.value[b].value[slot], e.margins.value[b + 1].value[offset];
         d.step < |ma| && d.step < |mb| && d.margins == Some((ma[d.step], mb[d.step]))
  }

  /** A detail is given exactly if the lists are there and their margins reach the step where the tokens part. */
  lemma {:induction false} DetailExactly<T>(e: Evidence<T>, b: nat, slot: nat, offset: nat, d: Divergence)
    requires e.tokenIds.Some?
    ensures DetailOf(e, b, slot, offset) == Some(d)
       <==> ListsPresent(e, b, slot, offset) && DetailFits(d, e, b, slot, offset)
  {
    if ListsPresent(e, b, slot, offset) {
      ReportExactly(e.tokenIds.value[b][slot], e.tokenIds.value[b + 1][offset],
                    MarginPair(e.margins, b, slot, offset), d);
    }
  }

  /** What a report says, exactly: the two slots, their prompt, and without token lists nothing more. */
  lemma {:induction false} FailureExactly<T>(e: Evidence<T>, n: nat, b: nat, offset: nat, f: Failure)
    requires offset < n
    ensures var slot := if offset + 1 < n then offset + 1 else 0;
      DescribeFailure(e, n, b, offset) == Some(f) <==>
        && f.repeat == b && f.currentSlot == slot && f.nextSlot == offset && f.promptIndex == Mod(slot + b, n)
        && (f.divergence == None <==> e.tokenIds == None)
        && (f.divergence.Some? ==>
              ListsPresent(e, b, slot, offset) && DetailFits(f.divergence.value, e, b, slot, offset))
  {
    if offset + 1 < n {
      ModSmall(offset + 1, n);
    } else {
      ModUnique(n, n, 1, 0);
    }
    ModAdd(offset + 1, b, n);
    var slot := Mod(offset + 1, n);
    if f.divergence.Some? && e.tokenIds.Some? {
      DetailExactly(e, b, slot, offset, f.divergence.value);
    }
  }

  /** `(b, offset)` is the first mismatch in the order of the two loops. */
  ghost predicate FirstMismatch<T>(outputs: Outputs<T>, n: nat, b: nat, offset: nat)
    requires Rectangular(outputs, n) && b + 1 < |outputs| && offset < n
  {
    && SlotMismatches(outputs, n, b)[offset]
    && SlotTotal(outputs, n, b) == 0
    && Count(SlotMismatches(outputs, n, b)[..offset]) == 0
  }

  /** The first mismatch, if any, can be reported without an IndexError. */
  ghost predicate CanDescribe<T>(e: Evidence<T>, n: nat)
    requires Rectangular(e.outputs, n)
  {
    forall b, offset | 0 <= b < |e.outputs| - 1 && 0 <= offset < n && FirstMismatch(e.outputs, n, b, offset) ::
      DescribeFailure(e, n, b, offset).Some?
  }

  /** The slots of repeat 0, all that the loops look at. */
  function Trimmed<T>(outputs: Outputs<T>, n: nat): (r: Outputs<T>)
    requires forall b :: 0 <= b < |outputs| ==> |outputs[b]| >= n
    ensures |r| == |outputs| && forall b :: 0 <= b < |r| ==> r[b] == outputs[b][..n]
  {
    seq(|outputs|, b requires 0 <= b < |outputs| => outputs[b][..n])
  }

  lemma TrimmedRectangular<T>(outputs: Outputs<T>, n: nat)
    requires Rectangular(outputs, n)
    ensures Trimmed(outputs, n) == outputs
  {
    forall b | 0 <= b < |outputs| ensures Trimmed(outputs, n)[b] == outputs[b] {
    }
  }

  predicate Wide<T>(outputs: Outputs<T>) {
    outputs != [] && forall b :: 0 <= b < |outputs| ==> |outputs[b]| >= |outputs[0]|
  }

  /** The evidence that counts: as many slots as repeat 0 has. */
  function Relevant<T>(e: Evidence<T>): (r: Evidence<T>)
    requires Wide(e.outputs)
  {
    e.(outputs := Trimmed(e.outputs, |e.outputs[0]|))
  }

  /** Of repeats of equal width all slots count. */
  lemma RelevantRectangular<T>(e: Evidence<T>, n: nat)
    requires Rectangular(e.outputs, n) && e.outputs != []
    ensures Wide(e.outputs) && |e.outputs[0]| == n && Relevant(e) == e
  {
    TrimmedRectangular(e.outputs, n);
  }

  /**
   `assert_cross_batch_consistency`.  Repeat 0 decides how many slots there are: a shorter repeat raises when a
   loop reaches it, whatever was found before, and the surplus of a longer one is never looked at.
   */
  method AssertCrossBatchConsistency<T(==)>(e: Evidence<T>) returns (v: BatchVerdict)
    ensures v == TooFewRepeats <==> |e.outputs| < 2
    ensures |e.outputs| >= 2 && e.outputs[0] == [] ==> v == Consistent
    ensures |e.outputs| >= 2 && !Wide(e.outputs) ==> v == RaisesIndexError
    ensures |e.outputs| >= 2 && e.outputs[0] != [] && Wide(e.outputs) ==>
      Judges(v, Relevant(e), |e.outputs[0]|)
  {
    if |e.outputs| < 2 {
      return TooFewRepeats;
    }
    var n := |e.outputs[0]|;
    if n == 0 {
      return Consistent;
    }
    if exists b :: 0 <= b < |e.outputs| && |e.outputs[b]| < n {
      return RaisesIndexError;
    }
    var failed, total, first, ok := CompareRepeats(Relevant(e), n);
    if !ok {
      return RaisesIndexError;
    }
    if failed != 0 {
      return Inconsistent(failed, total, first.value);
    }
    return Consistent;
  }

  /** What the verdict says about repeats of n slots each. */
  ghost predicate Judges<T>(v: BatchVerdict, e: Evidence<T>, n: nat)
    requires Rectangular(e.outputs, n) && |e.outputs| >= 2
  {
    var mismatches := SlotTotal(e.outputs, n, |e.outputs| - 1);
    match v
    case TooFewRepeats => false
    case Consistent => mismatches == 0
    case Inconsistent(failed, total, first) =>
      failed == mismatches > 0 && total == (|e.outputs| - 1) * n && IsFirst(e, n, first)
    case RaisesIndexError => mismatches > 0 && !CanDescribe(e, n)
  }

  /** The outer loop: all pairs of neighbouring repeats. */
  method CompareRepeats<T(==)>(e: Evidence<T>, n: nat)
    returns (failed: nat, total: nat, first: Option<Failure>, ok: bool)
    requires Rectangular(e.outputs, n) && |e.outputs| >= 2
    ensures ok ==> failed == SlotTotal(e.outputs, n, |e.outputs| - 1) && total == (|e.outputs| - 1) * n
    ensures ok ==> (first == None <==> failed == 0)
    ensures ok ==> (first.Some? ==> IsFirst(e, n, first.value))
    ensures !ok ==> SlotTotal(e.outputs, n, |e.outputs| - 1) > 0 && !CanDescribe(e, n)
  {
    failed, total, first, ok := 0, 0, None, true;
    for b := 0 to |e.outputs| - 1
      invariant ok && failed == SlotTotal(e.outputs, n, b) && total == b * n
      invariant first == None <==> failed == 0
      invariant first.Some? ==> IsFirst(e, n, first.value)
    {
      failed, total, first, ok := CompareNeighbours(e, n, b, failed, total, first);
      if !ok {
        SlotTotalGrows(e.outputs, n, b + 1, |e.outputs| - 1);
        return;
      }
      assert (b + 1) * n == b * n + n;
    }
  }

  /** The inner loop: all slots of one pair of neighbouring repeats. */
  method CompareNeighbours<T(==)>(
    e: Evidence<T>, n: nat, b: nat, failedBefore: nat, totalBefore: nat, firstBefore: Option<Failure>)
    returns (failed: nat, total: nat, first: Option<Failure>, ok: bool)
    requires Rectangular(e.outputs, n) && b + 1 < |e.outputs|
    requires failedBefore == SlotTotal(e.outputs, n, b)
    requires firstBefore == None <==> failedBefore == 0
    requires firstBefore.Some? ==> IsFirst(e, n, firstBefore.value)
    ensures ok ==> failed == SlotTotal(e.outputs, n, b + 1) && total == totalBefore + n
    ensures ok ==> (first == None <==> failed == 0)
    ensures ok ==> (first.Some? ==> IsFirst(e, n, first.value))
    ensures !ok ==> SlotTotal(e.outputs, n, b + 1) > 0
    ensures !ok ==> !CanDescribe(e, n)
  {
    failed, total, first := failedBefore, totalBefore, firstBefore;
    ghost var flags := SlotMismatches(e.outputs, n, b);
    for offset := 0 to n
      invariant failed == failedBefore + Count(flags[..offset]) && total == totalBefore + offset
      invariant first == None <==> failed == 0
      invariant first.Some? ==> IsFirst(e, n, first.value)
    {
      total := total + 1;
      assert flags[..offset + 1] == flags[..offset] + [flags[offset]];
      CountAppend(flags[..offset], [flags[offset]]);
      if e.outputs[b][(offset + 1) % n] != e.outputs[b + 1][offset] {
        failed := failed + 1;
        if first == None {
          assert FirstMismatch(e.outputs, n, b, offset);
          first := Describe(e, n, b, offset);
          if first == None {
            CountZero(flags);
            ok := false;
            return;
          }
        }
      }
    }
    assert flags[..n] == flags;
    ok := true;
  }

  ghost predicate IsFirst<T>(e: Evidence<T>, n: nat, f: Failure)
    requires Rectangular(e.outputs, n)
  {
    f.repeat + 1 < |e.outputs| && f.nextSlot < n && FirstMismatch(e.outputs, n, f.repeat, f.nextSlot)
    && DescribeFailure(e, n, f.repeat, f.nextSlot) == Some(f)
  }

  method Describe<T>(e: Evidence<T>, n: nat, b: nat, offset: nat) returns (f: Option<Failure>)
    requires offset < n
    ensures f == DescribeFailure(e, n, b, offset)
  {
    var currentSlot := (offset + 1) % n;
    var promptIndex := (offset + b + 1) % n;
    var divergence := None;
    if e.tokenIds.Some? {
      var current, next := Item2(e.tokenIds.value, b, currentSlot), Item2(e.tokenIds.value, b + 1, offset);
      if current == None || next == None {
        return None;
      }
      var common := FindDivergence(current.value, next.value);
      var margins := None;
      if e.margins.Some? {
        if MarginsMissing(e.margins, b, currentSlot, offset) {
          return None;
        }
        if HasMargins(e.margins, b) {
          var currentMargins := e.margins.value[b].value[currentSlot];
          var nextMargins := e.margins.value[b + 1].value[offset];
          if common >= |currentMargins| || common >= |nextMargins| {
            return None;
          }
          margins := Some((currentMargins[common], nextMargins[common]));
        }
      }
      divergence := Some(Divergence(common, TokenAt(current.value, common), TokenAt(next.value, common), margins));
    }
    return Some(Failure(b, currentSlot, offset, promptIndex, divergence));
  }

  // ---- The rotate-back checker

  /** The marked positions, ascending. */
  function Marked(flags: seq<bool>): (r: seq<nat>) {
    if flags == [] then []
    else Marked(flags[..|flags| - 1]) + if flags[|flags| - 1] then [|flags| - 1] else []
  }

  lemma {:induction false} MarkedExactly(flags: seq<bool>)
    ensures |Marked(flags)| == Count(flags)
    ensures forall i :: i in Marked(flags) <==> 0 <= i < |flags| && flags[i]
  {
    if flags != [] {
      var n := |flags| - 1;
      MarkedExactly(flags[..n]);
      CountAppend(flags[..n], [flags[n]]);
      assert flags == flags[..n] + [flags[n]];
    }
  }

  /** The users listed for the first `pairs` neighbouring repeats, pair by pair. */
  function FailingUsers<T(==)>(outputs: Outputs<T>, pairs: nat): (r: seq<nat>)
    requires NonEmpty(outputs) && (pairs > 0 ==> pairs < |outputs|)
  {
    if pairs == 0 then []
    else FailingUsers(outputs, pairs - 1) + Marked(PromptMismatches(outputs, pairs - 1))
  }

  /** Repeats b and b + 1 both have prompt `user`, and differ on it. */
  ghost predicate DiffersAfter<T>(outputs: Outputs<T>, b: nat, user: nat)
    requires NonEmpty(outputs) && b + 1 < |outputs|
  {
    user < |outputs[b]| && user < |outputs[b + 1]| && ByPrompt(outputs, b)[user] != ByPrompt(outputs, b + 1)[user]
  }

  lemma MarkedUser<T>(outputs: Outputs<T>, b: nat, user: nat)
    requires NonEmpty(outputs) && b + 1 < |outputs|
    ensures user in Marked(PromptMismatches(outputs, b)) <==> DiffersAfter(outputs, b, user)
    ensures |Marked(PromptMismatches(outputs, b))| == Count(PromptMismatches(outputs, b))
  {
    MarkedExactly(PromptMismatches(outputs, b));
  }

  /** One entry per mismatch. */
  lemma {:induction false} FailingUsersCount<T>(outputs: Outputs<T>, pairs: nat)
    requires NonEmpty(outputs) && (pairs > 0 ==> pairs < |outputs|)
    ensures |FailingUsers(outputs, pairs)| == PromptTotal(outputs, pairs)
  {
    if pairs > 0 {
      FailingUsersCount(outputs, pairs - 1);
      MarkedExactly(PromptMismatches(outputs, pairs - 1));
    }
  }

  lemma {:induction false} DifferingUserIsListed<T>(outputs: Outputs<T>, pairs: nat, user: nat, b: nat)
    requires NonEmpty(outputs) && b < pairs < |outputs| && DiffersAfter(outputs, b, user)
    ensures user in FailingUsers(outputs, pairs)
  {
    var before, here := FailingUsers(outputs, pairs - 1), Marked(PromptMismatches(outputs, pairs - 1));
    assert user in before || user in here by {
      if b == pairs - 1 {
        MarkedUser(outputs, b, user);
      } else {
        DifferingUserIsListed(outputs, pairs - 1, user, b);
      }
    }
    assert FailingUsers(outputs, pairs) == before + here;
  }

  lemma {:induction false} ListedUserDiffers<T>(outputs: Outputs<T>, pairs: nat, user: nat)
    returns (b: nat)
    requires NonEmpty(outputs) && (pairs > 0 ==> pairs < |outputs|)
    requires user in FailingUsers(outputs, pairs)
    ensures b < pairs && DiffersAfter(outputs, b, user)
  {
    b := pairs - 1;
    MarkedUser(outputs, b, user);
    if user !in Marked(PromptMismatches(outputs, b)) {
      b := ListedUserDiffers(outputs, pairs - 1, user);
    }
  }

  /** A user is listed exactly when two neighbouring repeats differ on that prompt. */
  lemma {:induction false} FailingUsersExactly<T>(outputs: Outputs<T>, pairs: nat, user: nat)
    requires NonEmpty(outputs) && (pairs > 0 ==> pairs < |outputs|)
    ensures user in FailingUsers(outputs, pairs)
       <==> exists b | 0 <= b < pairs :: DiffersAfter(outputs, b, user)
  {
    forall b | 0 <= b < pairs && DiffersAfter(outputs, b, user) ensures user in FailingUsers(outputs, pairs) {
      DifferingUserIsListed(outputs, pairs, user, b);
    }
    if user in FailingUsers(outputs, pairs) {
      var b := ListedUserDiffers(outputs, pairs, user);
    }
  }

  datatype RotateError = EmptyRepeat(repeat: nat)

  /** The failing users of all neighbouring pairs of repeats, each repeat put back in prompt order. */
  method RotateBackFailures<T(==)>(outputs: Outputs<T>) returns (r: Result<seq<nat>, RotateError>)
    ensures r.Ok? <==> NonEmpty(outputs)
    ensures r.Ok? ==> r.value == FailingUsers(outputs, Max(0, |outputs| - 1))
  {
    var perRepeat: seq<seq<T>> := [];
    for repeat := 0 to |outputs|
      invariant |perRepeat| == repeat
      invariant forall b :: 0 <= b < repeat ==> outputs[b] != [] && perRepeat[b] == ByPrompt(outputs, b)
    {
      if outputs[repeat] == [] {
        return Err(EmptyRepeat(repeat));
      }
      perRepeat := perRepeat + [Rotate(outputs[repeat], 0 - repeat)];
    }
    var failures: seq<nat> := [];
    for b := 0 to Max(0, |perRepeat| - 1)
      invariant failures == FailingUsers(outputs, b)
    {
      var users := DifferingUsers(outputs, b, perRepeat[b], perRepeat[b + 1]);
      failures := failures + users;
    }
    return Ok(failures);
  }

  /** The inner loop: one pair of repeats in prompt order. */
  method DifferingUsers<T(==)>(outputs: Outputs<T>, b: nat, left: seq<T>, right: seq<T>)
    returns (users: seq<nat>)
    requires NonEmpty(outputs) && b + 1 < |outputs|
    requires left == ByPrompt(outputs, b) && right == ByPrompt(outputs, b + 1)
    ensures users == Marked(PromptMismatches(outputs, b))
  {
    ghost var flags := PromptMismatches(outputs, b);
    users := [];
    for user := 0 to Min(|left|, |right|)
      invariant users == Marked(flags[..user])
    {
      assert flags[..user + 1][..user] == flags[..user];
      if left[user] != right[user] {
        users := users + [user];
      }
    }
    assert flags[..|flags|] == flags;
  }

  // ---- One request in every slot

  datatype SlotVerdict = SameEverywhere | Differs(slot: nat, divergence: Divergence) | SlotIndexError(slot: nat)

  /** The detail of the report on slot `slot`; None is an IndexError while it is composed. */
  function SlotDetail(tokenIds: seq<seq<int>>, margins: Option<seq<seq<real>>>, slot: nat): (r: Option<Divergence>) {
    var reference, other := Item(tokenIds, 0), Item(tokenIds, slot);
    if reference == None || other == None then None
    else if margins == None then Report(reference.value, other.value, None)
    else
      var first, second := Item(margins.value, 0), Item(margins.value, slot);
      if first == None || second == None then None
      else Report(reference.value, other.value, Some((first.value, second.value)))
  }

  /** The report on a slot: where its tokens part from those of slot 0, with both margins if there are any. */
  lemma {:induction false} SlotDetailExactly(
    tokenIds: seq<seq<int>>, margins: Option<seq<seq<real>>>, slot: nat, d: Divergence)
    requires slot > 0
    ensures SlotDetail(tokenIds, margins, slot) == Some(d) <==>
      && slot < |tokenIds| && Explains(d, tokenIds[0], tokenIds[slot])
      && if margins == None then d.margins == None
         else
           && slot < |margins.value| && d.step < |margins.value[0]| && d.step < |margins.value[slot]|
           && d.margins == Some((margins.value[0][d.step], margins.value[slot][d.step]))
  {
    if slot < |tokenIds| && (margins.Some? ==> slot < |margins.value|) {
      ReportExactly(tokenIds[0], tokenIds[slot],
                    if margins == None then None else Some((margins.value[0], margins.value[slot])), d);
    }
  }

  /**
   `assert_within_batch_slot_consistency`: compare every slot with slot 0.  Without an output, or without the
   token or margin list of a differing slot, Python raises an IndexError.
   */
  method AssertWithinBatchSlotConsistency<T(==)>(
    decoded: seq<T>, tokenIds: seq<seq<int>>, margins: Option<seq<seq<real>>>) returns (v: SlotVerdict)
    ensures decoded == [] ==> v == SlotIndexError(0)
    ensures decoded != [] ==> (v == SameEverywhere <==> forall u :: 0 <= u < |decoded| ==> decoded[u] == decoded[0])
    ensures decoded != [] && !v.SameEverywhere? ==>
      && 0 < v.slot < |decoded| && decoded[v.slot] != decoded[0]
      && (forall u :: 0 <= u < v.slot ==> decoded[u] == decoded[0])
      && SlotDetail(tokenIds, margins, v.slot) == if v.Differs? then Some(v.divergence) else None
  {
    if decoded == [] {
      return SlotIndexError(0);
    }
    for slot := 1 to |decoded|
      invariant forall u :: 0 <= u < slot ==> decoded[u] == decoded[0]
    {
      if decoded[slot] != decoded[0] {
        var detail := DescribeSlot(tokenIds, margins, slot);
        return if detail.Some? then Differs(slot, detail.value) else SlotIndexError(slot);
      }
    }
    return SameEverywhere;
  }

  method DescribeSlot(tokenIds: seq<seq<int>>, margins: Option<seq<seq<real>>>, slot: nat)
    returns (detail: Option<Divergence>)
    ensures detail == SlotDetail(tokenIds, margins, slot)
  {
    if slot >= |tokenIds| {
      return None;
    }
    var common := FindDivergence(tokenIds[0], tokenIds[slot]);
    var values := None;
    if margins.Some? {
      if slot >= |margins.value| || common >= |margins.value[0]| || common >= |margins.value[slot]| {
        return None;
      }
      values := Some((margins.value[0][common], margins.value[slot][common]));
    }
    return Some(Divergence(common, TokenAt(tokenIds[0], common), TokenAt(tokenIds[slot], common), values));
  }
}
