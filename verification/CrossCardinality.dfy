/**
The two cross-cardinality checkers: exact tokens against sequential controls
(examples/llama3_8b/demo_utils.py) and decoded text across batch sizes (examples/common/run_helpers.py).

Python dictionaries are sequences of (key, value) pairs with distinct keys, in insertion order.
*/
module CrossCardinality {
  import opened Prelude
  import CrossBatch

  type Dict<K, V> = seq<(K, V)>
  type ByCardinality<V> = Dict<int, Dict<string, V>>

  ghost predicate DistinctKeys<K, V>(d: Dict<K, V>) {
    forall i, j :: 0 <= i < j < |d| ==> d[i].0 != d[j].0
  }

  function Keys<K, V>(d: Dict<K, V>): (r: seq<K>)
    ensures |r| == |d| && forall i :: 0 <= i < |d| ==> r[i] == d[i].0
  {
    Map((e: (K, V)) => e.0, d)
  }

  predicate HasKey<K(==), V>(d: Dict<K, V>, k: K) {
    exists i :: 0 <= i < |d| && d[i].0 == k
  }

  function Lookup<K(==), V>(d: Dict<K, V>, k: K): (v: V)
    requires HasKey(d, k)
  {
    if d[0].0 == k then d[0].1 else Lookup(d[1..], k)
  }

  lemma {:induction false} LookupAt<K, V>(d: Dict<K, V>, i: nat)
    requires DistinctKeys(d) && i < |d|
    ensures HasKey(d, d[i].0) && Lookup(d, d[i].0) == d[i].1
  {
    if i > 0 {
      LookupAt(d[1..], i - 1);
    }
  }

  // ---- Exact tokens against sequential controls

  datatype Malformed =
    | WrongCardinalities
    | WrongControls
    | NonPositiveTokenCount
    | BadControls
    | WrongRequests(cardinality: int)
    | WrongTokenCount(cardinality: int, requestId: string)

  datatype Mismatch = Mismatch(
    cardinality: int, requestId: string, firstTokenDifference: nat, controlTokenCount: nat, batchedTokenCount: nat)

  datatype Verdict = INVARIANT | BATCHED_PREFILL_REJECTED

  ghost predicate WellCounted(d: Dict<string, seq<int>>, count: int) {
    forall i :: 0 <= i < |d| ==> |d[i].1| == count
  }

  /** The experiment is complete: nothing is missing, reordered, empty or truncated. */
  ghost predicate Complete(
    outputs: ByCardinality<seq<int>>, controls: Dict<string, seq<int>>, ids: seq<string>, count: int,
    expected: seq<int>)
  {
    && HeaderComplete(outputs, controls, ids, count, expected)
    && AllComplete(outputs, ids, count, |outputs|)
  }

  /** The first `c` cardinalities are complete. */
  ghost predicate AllComplete(outputs: ByCardinality<seq<int>>, ids: seq<string>, count: int, c: nat)
    requires c <= |outputs|
  {
    c == 0 || (AllComplete(outputs, ids, count, c - 1) && EntryComplete(outputs[c - 1], ids, count))
  }

  lemma {:induction false} AllCompleteAt(
    outputs: ByCardinality<seq<int>>, ids: seq<string>, count: int, c: nat, d: nat)
    requires d < c <= |outputs| && AllComplete(outputs, ids, count, c)
    ensures EntryComplete(outputs[d], ids, count)
    ensures Keys(outputs[d].1) == PrefixSlice(ids, outputs[d].0) && WellCounted(outputs[d].1, count)
  {
    if d < c - 1 {
      AllCompleteAt(outputs, ids, count, c - 1, d);
    }
  }

  ghost predicate HeaderComplete(
    outputs: ByCardinality<seq<int>>, controls: Dict<string, seq<int>>, ids: seq<string>, count: int,
    expected: seq<int>)
  {
    Keys(outputs) == expected && Keys(controls) == ids && count > 0 && WellCounted(controls, count)
  }

  /** One cardinality holds exactly the fixed request prefix, each request with its full token count. */
  ghost predicate EntryComplete(entry: (int, Dict<string, seq<int>>), ids: seq<string>, count: int) {
    Keys(entry.1) == PrefixSlice(ids, entry.0) && WellCounted(entry.1, count)
  }

  /** Entry i of cardinality entry c differs from its control. */
  ghost predicate Differs(outputs: ByCardinality<seq<int>>, controls: Dict<string, seq<int>>, c: nat, i: nat)
    requires c < |outputs| && i < |outputs[c].1| <= |controls|
  {
    outputs[c].1[i].1 != controls[i].1
  }

  function Describe(cardinality: int, id: string, tokens: seq<int>, control: seq<int>): (m: Mismatch) {
    Mismatch(cardinality, id, CrossBatch.CommonTokens(tokens, control), |control|, |tokens|)
  }

  /** The mismatches among the first `k` requests of one cardinality. */
  function RequestMismatches(
    cardinality: int, outs: Dict<string, seq<int>>, controls: Dict<string, seq<int>>, k: nat): (r: seq<Mismatch>)
    requires k <= |outs| && k <= |controls|
  {
    if k == 0 then []
    else
      RequestMismatches(cardinality, outs, controls, k - 1)
      + if outs[k - 1].1 != controls[k - 1].1
        then [Describe(cardinality, outs[k - 1].0, outs[k - 1].1, controls[k - 1].1)] else []
  }

  /** The mismatches among the first `c` cardinalities. */
  function AllMismatches(outputs: ByCardinality<seq<int>>, controls: Dict<string, seq<int>>, c: nat)
    : (r: seq<Mismatch>)
    requires c <= |outputs|
  {
    if c == 0 then []
    else
      AllMismatches(outputs, controls, c - 1)
      + RequestMismatches(outputs[c - 1].0, outputs[c - 1].1, controls, Min(|outputs[c - 1].1|, |controls|))
  }

  method CompareRequests(
    cardinality: int, outs: Dict<string, seq<int>>, controls: Dict<string, seq<int>>, count: int)
    returns (r: Result<seq<Mismatch>, Malformed>)
    requires DistinctKeys(controls) && WellCounted(controls, count)
    requires |outs| <= |controls| && forall i :: 0 <= i < |outs| ==> outs[i].0 == controls[i].0
    ensures r.Ok? <==> WellCounted(outs, count)
    ensures r.Ok? ==> r.value == RequestMismatches(cardinality, outs, controls, |outs|)
  {
    var mismatches: seq<Mismatch> := [];
    for i := 0 to |outs|
      invariant forall j :: 0 <= j < i ==> |outs[j].1| == count
      invariant mismatches == RequestMismatches(cardinality, outs, controls, i)
    {
      var (id, tokens) := outs[i];
      LookupAt(controls, i);
      var control := Lookup(controls, id);
      if |tokens| != count {
        return Err(WrongTokenCount(cardinality, id));
      }
      if tokens != control {
        var index := CrossBatch.FindDivergence(tokens, control);
        mismatches := mismatches + [Mismatch(cardinality, id, index, |control|, |tokens|)];
      }
    }
    return Ok(mismatches);
  }

  /** `evaluate_seeded_cross_cardinality_consistency` */
  method EvaluateSeeded(
    outputs: ByCardinality<seq<int>>, controls: Dict<string, seq<int>>, ids: seq<string>, count: int,
    expected: seq<int>) returns (r: Result<(Verdict, seq<Mismatch>), Malformed>)
    requires DistinctKeys(controls)
    ensures r.Ok? <==> Complete(outputs, controls, ids, count, expected)
    ensures r.Ok? ==> r.value.1 == AllMismatches(outputs, controls, |outputs|)
    ensures r.Ok? ==> (r.value.0 == INVARIANT <==> r.value.1 == [])
  {
    var bad := CheckHeader(outputs, controls, ids, count, expected);
    if bad.Some? {
      return Err(bad.value);
    }
    var mismatches := CompareAll(outputs, controls, ids, count);
    if mismatches.Err? {
      return Err(mismatches.error);
    }
    return Ok((if mismatches.value == [] then INVARIANT else BATCHED_PREFILL_REJECTED, mismatches.value));
  }

  method CheckHeader(
    outputs: ByCardinality<seq<int>>, controls: Dict<string, seq<int>>, ids: seq<string>, count: int,
    expected: seq<int>) returns (bad: Option<Malformed>)
    ensures bad == None <==> HeaderComplete(outputs, controls, ids, count, expected)
  {
    if Keys(outputs) != expected {
      return Some(WrongCardinalities);
    }
    if Keys(controls) != ids {
      return Some(WrongControls);
    }
    if count <= 0 {
      return Some(NonPositiveTokenCount);
    }
    if exists i :: 0 <= i < |controls| && |controls[i].1| != count {
      return Some(BadControls);
    }
    return None;
  }

  /** The outer loop. */
  method CompareAll(
    outputs: ByCardinality<seq<int>>, controls: Dict<string, seq<int>>, ids: seq<string>, count: int)
    returns (r: Result<seq<Mismatch>, Malformed>)
    requires DistinctKeys(controls) && WellCounted(controls, count) && Keys(controls) == ids
    ensures r.Ok? <==> AllComplete(outputs, ids, count, |outputs|)
    ensures r.Ok? ==> r.value == AllMismatches(outputs, controls, |outputs|)
  {
    var mismatches: seq<Mismatch> := [];
    for c := 0 to |outputs|
      invariant AllComplete(outputs, ids, count, c)
      invariant mismatches == AllMismatches(outputs, controls, c)
    {
      var compared := CompareEntry(outputs[c], controls, ids, count);
      if compared.Err? {
        IncompleteAt(outputs, ids, count, c);
        return Err(compared.error);
      }
      MismatchesStep(outputs, controls, c);
      mismatches := mismatches + compared.value;
    }
    return Ok(mismatches);
  }

  lemma {:induction false} MismatchesStep(
    outputs: ByCardinality<seq<int>>, controls: Dict<string, seq<int>>, c: nat)
    requires c < |outputs| && |outputs[c].1| <= |controls|
    ensures AllMismatches(outputs, controls, c + 1)
         == AllMismatches(outputs, controls, c)
            + RequestMismatches(outputs[c].0, outputs[c].1, controls, |outputs[c].1|)
  {
  }

  lemma {:induction false} IncompleteAt(outputs: ByCardinality<seq<int>>, ids: seq<string>, count: int, d: nat)
    requires d < |outputs| && !EntryComplete(outputs[d], ids, count)
    ensures !AllComplete(outputs, ids, count, |outputs|)
  {
    if AllComplete(outputs, ids, count, |outputs|) {
      AllCompleteAt(outputs, ids, count, |outputs|, d);
    }
  }

  /** One trip around the outer loop. */
  method CompareEntry(
    entry: (int, Dict<string, seq<int>>), controls: Dict<string, seq<int>>, ids: seq<string>, count: int)
    returns (r: Result<seq<Mismatch>, Malformed>)
    requires DistinctKeys(controls) && WellCounted(controls, count) && Keys(controls) == ids
    ensures r.Ok? <==> EntryComplete(entry, ids, count)
    ensures r.Ok? ==> |entry.1| <= |controls|
    ensures r.Ok? ==> r.value == RequestMismatches(entry.0, entry.1, controls, |entry.1|)
  {
    var (cardinality, outs) := entry;
    if Keys(outs) != PrefixSlice(ids, cardinality) {
      return Err(WrongRequests(cardinality));
    }
    forall i | 0 <= i < |outs| ensures outs[i].0 == controls[i].0 {
      assert Keys(outs)[i] == ids[i];
    }
    r := CompareRequests(cardinality, outs, controls, count);
  }

  // ---- What the mismatch list says

  /** Where the mismatches come from: (cardinality entry, request entry), in loop order. */
  function RequestWhere(c: nat, outs: Dict<string, seq<int>>, controls: Dict<string, seq<int>>, k: nat)
    : (r: seq<(nat, nat)>)
    requires k <= |outs| <= |controls|
  {
    if k == 0 then []
    else RequestWhere(c, outs, controls, k - 1) + if outs[k - 1].1 != controls[k - 1].1 then [(c, k - 1)] else []
  }

  function Where(outputs: ByCardinality<seq<int>>, controls: Dict<string, seq<int>>, c: nat): (r: seq<(nat, nat)>)
    requires c <= |outputs| && forall d :: 0 <= d < |outputs| ==> |outputs[d].1| <= |controls|
  {
    if c == 0 then []
    else Where(outputs, controls, c - 1) + RequestWhere(c - 1, outputs[c - 1].1, controls, |outputs[c - 1].1|)
  }

  ghost predicate InOrder(w: seq<(nat, nat)>) {
    forall j, k :: 0 <= j < k < |w| ==> w[j].0 < w[k].0 || (w[j].0 == w[k].0 && w[j].1 < w[k].1)
  }

  lemma {:induction false} RequestWhereSound(
    c: nat, outs: Dict<string, seq<int>>, controls: Dict<string, seq<int>>, k: nat)
    requires k <= |outs| <= |controls|
    ensures var w := RequestWhere(c, outs, controls, k);
      && InOrder(w)
      && (forall j :: 0 <= j < |w| ==> w[j].0 == c && w[j].1 < k && outs[w[j].1].1 != controls[w[j].1].1)
  {
    if k > 0 {
      RequestWhereSound(c, outs, controls, k - 1);
    }
  }

  lemma {:induction false} RequestWhereLists(
    c: nat, outs: Dict<string, seq<int>>, controls: Dict<string, seq<int>>, k: nat, i: nat)
    requires i < k <= |outs| <= |controls| && outs[i].1 != controls[i].1
    ensures (c, i) in RequestWhere(c, outs, controls, k)
  {
    if i < k - 1 {
      RequestWhereLists(c, outs, controls, k - 1, i);
    }
  }

  /** Entry e lies among the first c cardinalities and differs from its control. */
  ghost predicate IsDifference(
    outputs: ByCardinality<seq<int>>, controls: Dict<string, seq<int>>, c: nat, e: (nat, nat))
    requires c <= |outputs| && forall d :: 0 <= d < |outputs| ==> |outputs[d].1| <= |controls|
  {
    e.0 < c && e.1 < |outputs[e.0].1| && Differs(outputs, controls, e.0, e.1)
  }

  /** Only differing entries are listed. */
  lemma {:induction false} WhereSound(outputs: ByCardinality<seq<int>>, controls: Dict<string, seq<int>>, c: nat)
    requires c <= |outputs| && forall d :: 0 <= d < |outputs| ==> |outputs[d].1| <= |controls|
    ensures forall e :: e in Where(outputs, controls, c) ==> IsDifference(outputs, controls, c, e)
  {
    if c > 0 {
      WhereSound(outputs, controls, c - 1);
      var here := RequestWhere(c - 1, outputs[c - 1].1, controls, |outputs[c - 1].1|);
      RequestWhereSound(c - 1, outputs[c - 1].1, controls, |outputs[c - 1].1|);
      forall e | e in Where(outputs, controls, c) ensures IsDifference(outputs, controls, c, e) {
        if e in here {
          var j :| 0 <= j < |here| && here[j] == e;
        } else {
          assert IsDifference(outputs, controls, c - 1, e);
        }
      }
    }
  }

  /** Every differing entry is listed. */
  lemma {:induction false} WhereComplete(
    outputs: ByCardinality<seq<int>>, controls: Dict<string, seq<int>>, c: nat, a: nat, b: nat)
    requires c <= |outputs| && forall d :: 0 <= d < |outputs| ==> |outputs[d].1| <= |controls|
    requires a < c && b < |outputs[a].1| && Differs(outputs, controls, a, b)
    ensures (a, b) in Where(outputs, controls, c)
  {
    if a == c - 1 {
      RequestWhereLists(a, outputs[a].1, controls, |outputs[a].1|, b);
    } else {
      WhereComplete(outputs, controls, c - 1, a, b);
    }
  }

  /** The order is that of the loops, so each entry is listed once. */
  lemma {:induction false} WhereInOrder(outputs: ByCardinality<seq<int>>, controls: Dict<string, seq<int>>, c: nat)
    requires c <= |outputs| && forall d :: 0 <= d < |outputs| ==> |outputs[d].1| <= |controls|
    ensures InOrder(Where(outputs, controls, c))
  {
    if c > 0 {
      WhereInOrder(outputs, controls, c - 1);
      WhereSound(outputs, controls, c - 1);
      RequestWhereSound(c - 1, outputs[c - 1].1, controls, |outputs[c - 1].1|);
      var v := Where(outputs, controls, c - 1);
      forall j | 0 <= j < |v| ensures v[j].0 < c - 1 {
        assert IsDifference(outputs, controls, c - 1, v[j]);
      }
      InOrderAppend(v, RequestWhere(c - 1, outputs[c - 1].1, controls, |outputs[c - 1].1|), c - 1);
    }
  }

  lemma InOrderAppend(v: seq<(nat, nat)>, w: seq<(nat, nat)>, c: nat)
    requires InOrder(v) && InOrder(w)
    requires (forall j :: 0 <= j < |v| ==> v[j].0 < c) && (forall j :: 0 <= j < |w| ==> w[j].0 == c)
    ensures InOrder(v + w)
  {
  }

  function DescribeAt(outputs: ByCardinality<seq<int>>, controls: Dict<string, seq<int>>, w: (nat, nat)): Mismatch
    requires w.0 < |outputs| && w.1 < |outputs[w.0].1| <= |controls|
  {
    var entry := outputs[w.0].1[w.1];
    Describe(outputs[w.0].0, entry.0, entry.1, controls[w.1].1)
  }

  lemma {:induction false} RequestMismatchesAre(
    outputs: ByCardinality<seq<int>>, controls: Dict<string, seq<int>>, c: nat, k: nat)
    requires c < |outputs| && k <= |outputs[c].1| <= |controls|
    ensures var w := RequestWhere(c, outputs[c].1, controls, k);
      var m := RequestMismatches(outputs[c].0, outputs[c].1, controls, k);
      |m| == |w| && forall j :: 0 <= j < |m| ==>
        w[j].0 == c && w[j].1 < k && m[j] == DescribeAt(outputs, controls, w[j])
  {
    if k > 0 {
      RequestMismatchesAre(outputs, controls, c, k - 1);
    }
  }

  lemma {:induction false} MismatchesAre(outputs: ByCardinality<seq<int>>, controls: Dict<string, seq<int>>, c: nat)
    requires c <= |outputs| && forall d :: 0 <= d < |outputs| ==> |outputs[d].1| <= |controls|
    ensures var w, m := Where(outputs, controls, c), AllMismatches(outputs, controls, c);
      |m| == |w| && forall j :: 0 <= j < |m| ==>
        w[j].0 < c && w[j].1 < |outputs[w[j].0].1| && m[j] == DescribeAt(outputs, controls, w[j])
  {
    if c > 0 {
      MismatchesAre(outputs, controls, c - 1);
      RequestMismatchesAre(outputs, controls, c - 1, |outputs[c - 1].1|);
    }
  }

  /** The reported index is the least one where batched and control tokens differ, and both lists have it. */
  lemma ReportedIndexIsLeast(
    outputs: ByCardinality<seq<int>>, controls: Dict<string, seq<int>>, ids: seq<string>, count: int,
    expected: seq<int>, c: nat, i: nat)
    requires Complete(outputs, controls, ids, count, expected)
    requires c < |outputs| && i < |outputs[c].1| <= |controls| && Differs(outputs, controls, c, i)
    ensures var m, a, b := DescribeAt(outputs, controls, (c, i)), outputs[c].1[i].1, controls[i].1;
      && m.requestId == ids[i] && m.cardinality == expected[c]
      && m.firstTokenDifference < count && |a| == |b| == count
      && a[..m.firstTokenDifference] == b[..m.firstTokenDifference]
      && a[m.firstTokenDifference] != b[m.firstTokenDifference]
      && m.controlTokenCount == m.batchedTokenCount == count
  {
    AllCompleteAt(outputs, ids, count, |outputs|, c);
    CrossBatch.CommonTokensIsFirstDifference(outputs[c].1[i].1, controls[i].1);
    assert Keys(outputs[c].1)[i] == ids[i] && Keys(outputs)[c] == expected[c];
  }

  /** INVARIANT means that every batched output equals its control. */
  lemma InvariantExactly(outputs: ByCardinality<seq<int>>, controls: Dict<string, seq<int>>)
    requires forall d :: 0 <= d < |outputs| ==> |outputs[d].1| <= |controls|
    ensures AllMismatches(outputs, controls, |outputs|) == []
       <==> forall c: nat, i: nat :: c < |outputs| && i < |outputs[c].1| ==> !Differs(outputs, controls, c, i)
  {
    var w := Where(outputs, controls, |outputs|);
    MismatchesAre(outputs, controls, |outputs|);
    WhereSound(outputs, controls, |outputs|);
    forall c: nat, i: nat | c < |outputs| && i < |outputs[c].1| && Differs(outputs, controls, c, i)
      ensures (c, i) in w
    {
      WhereComplete(outputs, controls, |outputs|, c, i);
    }
    if w != [] {
      assert IsDifference(outputs, controls, |outputs|, w[0]);
    }
  }

  // ---- Decoded text across batch sizes

  datatype TextError<V> =
    | UnexpectedCardinalities
    | WrongSize(cardinality: int)
    | TextDiffers(requestId: string, referenceCardinality: int, cardinality: int)

  /** All (request, output) entries of the first `c` cardinalities, in order. */
  function Entries<V>(outputs: ByCardinality<V>, c: nat): (r: seq<(string, V)>)
    requires c <= |outputs|
  {
    if c == 0 then [] else Entries(outputs, c - 1) + outputs[c - 1].1
  }

  /** A request has one output wherever it appears. */
  ghost predicate OneOutput<V>(entries: seq<(string, V)>) {
    forall a, b :: a in entries && b in entries && a.0 == b.0 ==> a.1 == b.1
  }

  ghost predicate Sized<V>(outputs: ByCardinality<V>, c: nat)
    requires c <= |outputs|
  {
    forall d :: 0 <= d < c ==> |outputs[d].1| == outputs[d].0
  }

  /** The reference holds the output of exactly the requests seen. */
  ghost predicate Records<V>(reference: map<string, (int, V)>, seen: seq<(string, V)>) {
    && (forall e :: e in seen ==> e.0 in reference && reference[e.0].1 == e.1)
    && forall id :: id in reference ==> (id, reference[id].1) in seen
  }

  lemma {:induction false} EntriesPrefix<V>(outputs: ByCardinality<V>, c: nat, d: nat)
    requires c <= d <= |outputs|
    ensures forall e :: e in Entries(outputs, c) ==> e in Entries(outputs, d)
    decreases d
  {
    if c < d {
      EntriesPrefix(outputs, c, d - 1);
    }
  }

  lemma {:induction false} EntriesExactly<V(!new)>(outputs: ByCardinality<V>, c: nat, e: (string, V))
    requires c <= |outputs|
    ensures e in Entries(outputs, c) <==> exists d :: 0 <= d < c && e in outputs[d].1
  {
    if c > 0 {
      EntriesExactly(outputs, c - 1, e);
    }
  }

  /** One cardinality's entries against the reference. */
  method CompareTexts<V(==)>(
    cardinality: int, outs: Dict<string, V>, before: map<string, (int, V)>, ghost seen: seq<(string, V)>)
    returns (reference: map<string, (int, V)>, failure: Option<TextError<V>>)
    requires Records(before, seen)
    ensures failure == None ==> Records(reference, seen + outs)
    ensures failure.Some? ==> !OneOutput(seen + outs)
  {
    reference := before;
    for i := 0 to |outs|
      invariant Records(reference, seen + outs[..i])
    {
      var (id, output) := outs[i];
      assert seen + outs[..i + 1] == (seen + outs[..i]) + [outs[i]];
      if id in reference {
        var (referenceCardinality, referenceOutput) := reference[id];
        if output != referenceOutput {
          assert (id, referenceOutput) in seen + outs[..i] && (id, output) in seen + outs;
          assert (id, referenceOutput) in seen + outs;
          return reference, Some(TextDiffers(id, referenceCardinality, cardinality));
        }
      } else {
        reference := reference[id := (cardinality, output)];
      }
    }
    assert outs[..|outs|] == outs;
    failure := None;
  }

  /** Everything the text checker demands. */
  ghost predicate TextsConsistent<V>(outputs: ByCardinality<V>, expected: seq<int>) {
    Keys(outputs) == expected && Sized(outputs, |outputs|) && OneOutput(Entries(outputs, |outputs|))
  }

  /** Entries of cardinalities c and d under one request id have one output. */
  ghost predicate TextsAgree<V>(outputs: ByCardinality<V>, c: nat, i: nat, d: nat, j: nat)
    requires c < |outputs| && d < |outputs| && i < |outputs[c].1| && j < |outputs[d].1|
  {
    outputs[c].1[i].0 == outputs[d].1[j].0 ==> outputs[c].1[i].1 == outputs[d].1[j].1
  }

  /** The expected cardinalities, each with as many entries as it says, and one output for a request everywhere. */
  lemma TextsConsistentExactly<V(!new)>(outputs: ByCardinality<V>, expected: seq<int>)
    ensures TextsConsistent(outputs, expected) <==>
      && |outputs| == |expected|
      && (forall c :: 0 <= c < |outputs| ==> outputs[c].0 == expected[c] == |outputs[c].1|)
      && (forall c, i, d, j | 0 <= c < |outputs| && 0 <= i < |outputs[c].1| && 0 <= d < |outputs|
                              && 0 <= j < |outputs[d].1| :: TextsAgree(outputs, c, i, d, j))
  {
    var entries := Entries(outputs, |outputs|);
    assert Keys(outputs) == expected
      <==> |outputs| == |expected| && forall c :: 0 <= c < |outputs| ==> outputs[c].0 == expected[c];
    forall e ensures e in entries <==> exists d :: 0 <= d < |outputs| && e in outputs[d].1 {
      EntriesExactly(outputs, |outputs|, e);
    }
    if OneOutput(entries) {
      forall c, i, d, j | 0 <= c < |outputs| && 0 <= i < |outputs[c].1| && 0 <= d < |outputs|
                          && 0 <= j < |outputs[d].1| ensures TextsAgree(outputs, c, i, d, j)
      {
        assert outputs[c].1[i] in entries && outputs[d].1[j] in entries;
      }
    } else {
      var a, b :| a in entries && b in entries && a.0 == b.0 && a.1 != b.1;
      var c :| 0 <= c < |outputs| && a in outputs[c].1;
      var d :| 0 <= d < |outputs| && b in outputs[d].1;
      var i :| 0 <= i < |outputs[c].1| && outputs[c].1[i] == a;
      var j :| 0 <= j < |outputs[d].1| && outputs[d].1[j] == b;
      assert !TextsAgree(outputs, c, i, d, j);
    }
  }

  /** `assert_cross_cardinality_consistency` */
  method AssertCrossCardinalityConsistency<V(==)>(outputs: ByCardinality<V>, expected: seq<int>)
    returns (r: Result<(), TextError<V>>)
    ensures r.Ok? <==> TextsConsistent(outputs, expected)
  {
    if Keys(outputs) != expected {
      return Err(UnexpectedCardinalities);
    }
    var reference: map<string, (int, V)> := map[];
    for c := 0 to |outputs|
      invariant Records(reference, Entries(outputs, c)) && Sized(outputs, c)
    {
      var (cardinality, outs) := outputs[c];
      if |outs| != cardinality {
        return Err(WrongSize(cardinality));
      }
      var failure;
      reference, failure := CompareTexts(cardinality, outs, reference, Entries(outputs, c));
      if failure.Some? {
        TwoOutputsStay(outputs, c + 1);
        return Err(failure.value);
      }
    }
    RecordsOneOutput(reference, Entries(outputs, |outputs|));
    return Ok(());
  }

  lemma {:induction false} TwoOutputsStay<V>(outputs: ByCardinality<V>, c: nat)
    requires c <= |outputs| && !OneOutput(Entries(outputs, c))
    ensures !OneOutput(Entries(outputs, |outputs|))
  {
    EntriesPrefix(outputs, c, |outputs|);
  }

  lemma RecordsOneOutput<V>(reference: map<string, (int, V)>, seen: seq<(string, V)>)
    requires Records(reference, seen)
    ensures OneOutput(seen)
  {
  }

  // ---- From exact tokens to text

  /** The decoded experiment: any function of the tokens, applied to every entry. */
  function Decoded<V>(outputs: ByCardinality<seq<int>>, decode: seq<int> -> V): (r: ByCardinality<V>)
    ensures |r| == |outputs|
    ensures forall c :: 0 <= c < |r| ==> r[c].0 == outputs[c].0 && |r[c].1| == |outputs[c].1|
    ensures forall c, i :: 0 <= c < |r| && 0 <= i < |r[c].1| ==>
              r[c].1[i] == (outputs[c].1[i].0, decode(outputs[c].1[i].1))
  {
    Map((o: (int, Dict<string, seq<int>>)) => (o.0, Map((e: (string, seq<int>)) => (e.0, decode(e.1)), o.1)), outputs)
  }

  lemma {:induction false} EntriesAreDecodedControls<V>(
    outputs: ByCardinality<seq<int>>, controls: Dict<string, seq<int>>, decode: seq<int> -> V, c: nat,
    e: (string, V))
    requires c <= |outputs| && e in Entries(Decoded(outputs, decode), c)
    requires forall d :: 0 <= d < |outputs| ==> |outputs[d].1| <= |controls|
    requires forall d, i :: 0 <= d < |outputs| && 0 <= i < |outputs[d].1| ==> outputs[d].1[i] == controls[i]
    ensures exists i :: 0 <= i < |controls| && e == (controls[i].0, decode(controls[i].1))
  {
    var outs := Decoded(outputs, decode)[c - 1].1;
    if e in outs {
      var i :| 0 <= i < |outs| && outs[i] == e;
      assert outputs[c - 1].1[i] == controls[i];
    } else {
      EntriesAreDecodedControls(outputs, controls, decode, c - 1, e);
    }
  }

  /**
   After an INVARIANT verdict the text checker accepts any decoding of the same experiment, exactly when no
   cardinality is negative or exceeds the number of requests.
   */
  lemma InvariantImpliesTextConsistency<V>(
    outputs: ByCardinality<seq<int>>, controls: Dict<string, seq<int>>, ids: seq<string>, count: int,
    expected: seq<int>, decode: seq<int> -> V)
    requires Complete(outputs, controls, ids, count, expected) && DistinctKeys(controls)
    requires AllMismatches(outputs, controls, |outputs|) == []
    ensures TextsConsistent(Decoded(outputs, decode), expected)
       <==> forall c :: 0 <= c < |expected| ==> 0 <= expected[c] <= |ids|
  {
    SizesExactly(outputs, controls, ids, count, expected, decode);
    EntriesAreControls(outputs, controls, ids, count, expected);
    DecodedOneOutput(outputs, controls, decode);
    DecodedKeys(outputs, decode);
  }

  /** An INVARIANT verdict that the text checker does not share: one request at the cardinality 2. */
  lemma InvariantIsNotEnough<V>(decode: seq<int> -> V)
    ensures var outputs, controls := [(2, [("a", [7])])], [("a", [7])];
      && Complete(outputs, controls, ["a"], 1, [2]) && AllMismatches(outputs, controls, 1) == []
      && !TextsConsistent(Decoded(outputs, decode), [2])
  {
    var outputs, controls := [(2, [("a", [7])])], [("a", [7])];
    assert Keys(outputs) == [2] && Keys(controls) == ["a"] == Keys(outputs[0].1) && PrefixSlice(["a"], 2) == ["a"];
    assert AllComplete(outputs, ["a"], 1, 0) && EntryComplete(outputs[0], ["a"], 1);
    InvariantExactly(outputs, controls);
    assert forall c: nat, i: nat :: c < 1 && i < |outputs[c].1| ==> !Differs(outputs, controls, c, i);
    assert |Decoded(outputs, decode)[0].1| == 1 != 2;
  }

  lemma DecodedKeys<V>(outputs: ByCardinality<seq<int>>, decode: seq<int> -> V)
    ensures Keys(Decoded(outputs, decode)) == Keys(outputs)
  {
  }

  lemma EntriesAreControls(
    outputs: ByCardinality<seq<int>>, controls: Dict<string, seq<int>>, ids: seq<string>, count: int,
    expected: seq<int>)
    requires Complete(outputs, controls, ids, count, expected)
    requires AllMismatches(outputs, controls, |outputs|) == []
    ensures forall d :: 0 <= d < |outputs| ==> |outputs[d].1| <= |controls|
    ensures forall d, i :: 0 <= d < |outputs| && 0 <= i < |outputs[d].1| ==> outputs[d].1[i] == controls[i]
  {
    forall d | 0 <= d < |outputs| ensures |outputs[d].1| <= |controls| {
      AllCompleteAt(outputs, ids, count, |outputs|, d);
      assert |Keys(outputs[d].1)| <= |ids| == |Keys(controls)|;
    }
    InvariantExactly(outputs, controls);
    forall d, i | 0 <= d < |outputs| && 0 <= i < |outputs[d].1| ensures outputs[d].1[i] == controls[i] {
      AllCompleteAt(outputs, ids, count, |outputs|, d);
      assert !Differs(outputs, controls, d, i);
      assert Keys(outputs[d].1)[i] == ids[i] == Keys(controls)[i];
    }
  }

  lemma SizesExactly<V>(
    outputs: ByCardinality<seq<int>>, controls: Dict<string, seq<int>>, ids: seq<string>, count: int,
    expected: seq<int>, decode: seq<int> -> V)
    requires Complete(outputs, controls, ids, count, expected)
    ensures Sized(Decoded(outputs, decode), |outputs|)
       <==> forall c :: 0 <= c < |expected| ==> 0 <= expected[c] <= |ids|
  {
    var texts := Decoded(outputs, decode);
    forall c | 0 <= c < |outputs|
      ensures |texts[c].1| == texts[c].0 <==> 0 <= expected[c] <= |ids|
    {
      AllCompleteAt(outputs, ids, count, |outputs|, c);
      assert |Keys(outputs[c].1)| == |PrefixSlice(ids, outputs[c].0)| && Keys(outputs)[c] == expected[c];
    }
  }

  lemma DecodedOneOutput<V>(
    outputs: ByCardinality<seq<int>>, controls: Dict<string, seq<int>>, decode: seq<int> -> V)
    requires DistinctKeys(controls)
    requires forall d :: 0 <= d < |outputs| ==> |outputs[d].1| <= |controls|
    requires forall d, i :: 0 <= d < |outputs| && 0 <= i < |outputs[d].1| ==> outputs[d].1[i] == controls[i]
    ensures OneOutput(Entries(Decoded(outputs, decode), |outputs|))
  {
    var entries := Entries(Decoded(outputs, decode), |outputs|);
    forall a, b | a in entries && b in entries && a.0 == b.0 ensures a.1 == b.1 {
      EntriesAreDecodedControls(outputs, controls, decode, |outputs|, a);
      EntriesAreDecodedControls(outputs, controls, decode, |outputs|, b);
    }
  }
}
