/**
Prefill buckets and the decode budget (examples/common/prompting.py, examples/qwen25_7b/benchmark.py).
*/
module PrefillBucket {
  import opened Prelude

  function Pow2(k: nat): (p: nat)
    ensures p > 0
  {
    if k == 0 then 1 else 2 * Pow2(k - 1)
  }

  /** `int.bit_length()` of a non-negative integer. */
  function BitLength(n: nat): (k: nat) {
    if n == 0 then 0 else 1 + BitLength(n / 2)
  }

  function GetPaddedPrefillLen(seqLen: int): (r: int) {
    if seqLen <= 128 then 128
    else if seqLen <= 1024 then 1024
    else Pow2(BitLength(seqLen - 1))
  }

  lemma {:induction false} BitLengthBrackets(n: nat)
    ensures n < Pow2(BitLength(n))
    ensures n > 0 ==> Pow2(BitLength(n)) <= 2 * n
  {
    if n > 1 {
      BitLengthBrackets(n / 2);
    } else if n == 1 {
      assert BitLength(1) == 1 + BitLength(0);
    }
  }

  lemma {:induction false} Pow2Monotone(j: nat, k: nat)
    requires j <= k
    ensures Pow2(j) <= Pow2(k)
    decreases k
  {
    if j < k {
      Pow2Monotone(j, k - 1);
    }
  }

  /** Above 1024 the bucket is the least power of two that holds the prompt. */
  lemma BucketIsLeastPower(seqLen: int, k: nat)
    requires seqLen > 1024
    ensures Pow2(k) >= seqLen <==> Pow2(k) >= GetPaddedPrefillLen(seqLen)
  {
    var b := BitLength(seqLen - 1);
    BitLengthBrackets(seqLen - 1);
    if k >= b {
      Pow2Monotone(b, k);
    } else {
      Pow2Monotone(k + 1, b);
      assert Pow2(k + 1) == 2 * Pow2(k);
    }
  }

  /** What a program is compiled for: 128, 1024, or a power of two beyond. */
  ghost predicate IsBucket(r: int) {
    r == 128 || r == 1024 || (r >= 2048 && exists k: nat :: r == Pow2(k))
  }

  lemma Pow2Of10()
    ensures Pow2(10) == 1024 && Pow2(11) == 2048
  {
    Pow2Of5();
    assert Pow2(6) == 64 && Pow2(7) == 128 && Pow2(8) == 256 && Pow2(9) == 512;
  }

  /** A prompt is padded to the least bucket that holds it. */
  lemma BucketIsLeast(seqLen: int, r: int)
    ensures IsBucket(GetPaddedPrefillLen(seqLen)) && seqLen <= GetPaddedPrefillLen(seqLen)
    ensures IsBucket(r) && seqLen <= r ==> GetPaddedPrefillLen(seqLen) <= r
  {
    if seqLen > 1024 {
      var b := BitLength(seqLen - 1);
      BitLengthBrackets(seqLen - 1);
      Pow2Of10();
      if b <= 10 {
        Pow2Monotone(b, 10);
      } else {
        Pow2Monotone(11, b);
      }
      if k: nat :| r == Pow2(k) {
        BucketIsLeastPower(seqLen, k);
      }
    }
  }

  lemma BucketCoversPrompt(seqLen: int)
    ensures seqLen <= GetPaddedPrefillLen(seqLen)
    ensures seqLen > 1024 ==> GetPaddedPrefillLen(seqLen) <= 2 * (seqLen - 1)
  {
    if seqLen > 1024 {
      BitLengthBrackets(seqLen - 1);
    }
  }

  lemma BucketMonotone(a: int, b: int)
    requires a <= b
    ensures GetPaddedPrefillLen(a) <= GetPaddedPrefillLen(b)
  {
    BucketCoversPrompt(b);
    if a > 1024 {
      BucketIsLeastPower(a, BitLength(b - 1));
    }
  }

  /** A bucket is its own bucket. */
  lemma BucketIdempotent(seqLen: int)
    ensures GetPaddedPrefillLen(GetPaddedPrefillLen(seqLen)) == GetPaddedPrefillLen(seqLen)
  {
    var r := GetPaddedPrefillLen(seqLen);
    BucketCoversPrompt(seqLen);
    BucketCoversPrompt(r);
    if seqLen > 1024 {
      BucketIsLeastPower(r, BitLength(seqLen - 1));
    }
  }

  lemma Pow2Of5()
    ensures Pow2(5) == 32
  {
    assert Pow2(5) == 2 * Pow2(4) && Pow2(4) == 2 * Pow2(3) && Pow2(3) == 2 * Pow2(2);
  }

  lemma {:induction false} Pow2Multiple(k: nat)
    requires k >= 5
    ensures Pow2(k) % 32 == 0
  {
    if k == 5 {
      Pow2Of5();
    } else {
      Pow2Multiple(k - 1);
      var q := Pow2(k - 1) / 32;
      assert Pow2(k - 1) == 32 * q;
      assert Pow2(k) == 32 * (2 * q);
    }
  }

  lemma BucketMultipleOf32(seqLen: int)
    ensures GetPaddedPrefillLen(seqLen) % 32 == 0
  {
    if seqLen > 1024 {
      var b := BitLength(seqLen - 1);
      BitLengthBrackets(seqLen - 1);
      Pow2Of5();
      if b >= 5 {
        Pow2Multiple(b);
      } else {
        Pow2Monotone(b, 5);
      }
    }
  }

  // ---- The decode budget

  const DECODE_MARGIN := 16

  /** Tokens decoded after clamping the request to the room behind the prefill bucket. */
  function EffectiveDecode(requested: int, maxSeqLen: int, bucket: int): int {
    Min(requested, maxSeqLen - bucket - DECODE_MARGIN)
  }

  /** `prompt_lens.max()`. */
  function MaxOf(lens: seq<int>): (m: int)
    requires lens != []
    ensures m in lens && forall i :: 0 <= i < |lens| ==> lens[i] <= m
  {
    if |lens| == 1 then lens[0] else Max(lens[0], MaxOf(lens[1..]))
  }

  function QwenBudget(requested: int, maxSeqLen: int, lens: seq<int>): int
    requires lens != []
  {
    EffectiveDecode(requested, maxSeqLen, GetPaddedPrefillLen(MaxOf(lens)))
  }

  /** The budget is the largest number of tokens that is not more than requested and ends 16 before the limit. */
  lemma BudgetIsLargest(requested: int, maxSeqLen: int, bucket: int, n: int)
    ensures n <= EffectiveDecode(requested, maxSeqLen, bucket) <==> n <= requested && bucket + n + 16 <= maxSeqLen
  {
  }

  /** The same for a batch: every prompt's bucket must leave that room. */
  lemma QwenBudgetIsLargest(requested: int, maxSeqLen: int, lens: seq<int>, n: int)
    requires lens != []
    ensures n <= QwenBudget(requested, maxSeqLen, lens)
       <==> n <= requested
            && forall u :: 0 <= u < |lens| ==> GetPaddedPrefillLen(lens[u]) + n + 16 <= maxSeqLen
  {
    forall u | 0 <= u < |lens| ensures GetPaddedPrefillLen(lens[u]) <= GetPaddedPrefillLen(MaxOf(lens)) {
      BucketMonotone(lens[u], MaxOf(lens));
    }
    var u :| 0 <= u < |lens| && lens[u] == MaxOf(lens);
  }

  /** With the bucket taken from the actual prompts, no decode step comes within the margin of the end. */
  lemma ClampKeepsPositions(requested: int, maxSeqLen: int, lens: seq<int>, user: nat, step: nat)
    requires user < |lens| && step < QwenBudget(requested, maxSeqLen, lens)
    ensures lens[user] + step <= maxSeqLen - 17
    ensures GetPaddedPrefillLen(lens[user]) + step <= maxSeqLen - 17
  {
    BucketCoversPrompt(lens[user]);
    BucketMonotone(lens[user], MaxOf(lens));
  }

  /** The position that decode step `step` of a prompt writes. */
  function StepPosition(promptLen: int, step: int): int {
    promptLen + step
  }

  ghost predicate StepsStayBelow(promptLen: int, steps: int, limit: int) {
    forall k :: 0 <= k < steps ==> StepPosition(promptLen, k) < limit
  }

  /** With the bucket fixed at 128, a prompt stays `margin` below the end: it decodes nothing, or ends in time. */
  predicate EndsInTime(promptLen: int, requested: int, maxSeqLen: int, margin: int) {
    || requested <= 0 || maxSeqLen <= 144
    || promptLen <= 144 - margin
    || promptLen + requested <= maxSeqLen - margin
  }

  /**
   The benchmarks that fix the bucket at 128 keep a margin (16 by design, 0 to stay inside the sequence at all)
   exactly for prompts that the bucket covers with what is left of its own margin, or whose request ends in time.
   */
  lemma FixedBucketExact(requested: int, maxSeqLen: int, promptLen: int, margin: int)
    ensures StepsStayBelow(promptLen, EffectiveDecode(requested, maxSeqLen, 128), maxSeqLen - margin)
       <==> EndsInTime(promptLen, requested, maxSeqLen, margin)
  {
    LastStepDecides(promptLen, EffectiveDecode(requested, maxSeqLen, 128), maxSeqLen - margin);
  }

  lemma LastStepDecides(promptLen: int, steps: int, limit: int)
    ensures StepsStayBelow(promptLen, steps, limit) <==> steps <= 0 || promptLen + steps <= limit
  {
    assert StepPosition(promptLen, steps - 1) == promptLen + steps - 1;
  }

  /** The default request of 200 tokens at 1024 positions, behind a prompt of 900: the run leaves the sequence. */
  lemma FixedBucketOverruns()
    ensures EffectiveDecode(200, 1024, 128) == 200 && !StepsStayBelow(900, 200, 1024)
    ensures StepsStayBelow(500, 200, 1008)
  {
    FixedBucketExact(200, 1024, 900, 0);
    FixedBucketExact(200, 1024, 500, 16);
  }

  /** With the bucket of the prompt itself nothing is decoded there at all. */
  lemma OwnBucketStops()
    ensures QwenBudget(200, 1024, [900]) <= 0
  {
    assert MaxOf([900]) == 900;
  }
}
