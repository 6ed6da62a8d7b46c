/**
The degenerate-output metrics (qualification/readiness/check_degenerate_output.py).
*/
module DegenerateOutput {
  import opened Prelude

  type Gram<T> = (T, T, T)

  function GramAt<T>(tokens: seq<T>, i: nat): Gram<T>
    requires i + 3 <= |tokens|
  {
    (tokens[i], tokens[i + 1], tokens[i + 2])
  }

  predicate Occurs<T(==)>(tokens: seq<T>, g: Gram<T>, i: int) {
    0 <= i && i + 3 <= |tokens| && GramAt(tokens, i) == g
  }

  /** Occurrences of `g`, overlapping ones included, that start in [from, |tokens| - 3]. */
  function Overlapping<T(==)>(tokens: seq<T>, g: Gram<T>, from: nat): (n: nat)
    decreases |tokens| - from
  {
    if from + 3 > |tokens| then 0
    else (if GramAt(tokens, from) == g then 1 else 0) + Overlapping(tokens, g, from + 1)
  }

  /** Starts chosen by the left-to-right scan from `from`: take an occurrence, skip past it. */
  function Greedy<T(==)>(tokens: seq<T>, g: Gram<T>, from: nat): (starts: seq<nat>)
    decreases |tokens| - from
  {
    if from + 3 > |tokens| then []
    else if GramAt(tokens, from) == g then [from] + Greedy(tokens, g, from + 3)
    else Greedy(tokens, g, from + 1)
  }

  /** A set of occurrences no two of which overlap. */
  ghost predicate Disjoint<T>(tokens: seq<T>, g: Gram<T>, from: int, starts: set<int>) {
    && (forall i :: i in starts ==> i >= from && Occurs(tokens, g, i))
    && (forall i, j :: i in starts && j in starts && i < j ==> i + 3 <= j)
  }

  function StartSet(starts: seq<nat>): set<int> {
    set i | i in starts
  }

  /** The scan's own choice is such a set. */
  lemma {:induction false} GreedyIsDisjoint<T>(tokens: seq<T>, g: Gram<T>, from: nat)
    ensures var s := Greedy(tokens, g, from);
      Disjoint(tokens, g, from, StartSet(s)) && |StartSet(s)| == |s|
    decreases |tokens| - from
  {
    if from + 3 <= |tokens| {
      if GramAt(tokens, from) == g {
        GreedyIsDisjoint(tokens, g, from + 3);
        var rest := Greedy(tokens, g, from + 3);
        assert StartSet([from] + rest) == {from as int} + StartSet(rest);
      } else {
        GreedyIsDisjoint(tokens, g, from + 1);
      }
    }
  }

  /** Optimality: no set of pairwise disjoint occurrences is larger than the scan's choice. */
  lemma {:induction false} GreedyIsMaximum<T>(tokens: seq<T>, g: Gram<T>, from: nat, starts: set<int>)
    requires Disjoint(tokens, g, from, starts)
    ensures |starts| <= |Greedy(tokens, g, from)|
    decreases |tokens| - from
  {
    if from + 3 > |tokens| {
      assert starts == {};
    } else if GramAt(tokens, from) == g {
      var near := set i | i in starts && i < from + 3;
      if x :| x in starts && x < from + 3 {
        assert near == {x};
      } else {
        assert near == {};
      }
      GreedyIsMaximum(tokens, g, from + 3, starts - near);
      assert |starts| == |near| + |starts - near|;
    } else {
      GreedyIsMaximum(tokens, g, from + 1, starts);
    }
  }

  /** Every occurrence starts inside a chosen window, and the windows fit into the tokens. */
  lemma {:induction false} CoverBounds<T>(tokens: seq<T>, g: Gram<T>, from: nat)
    requires from <= |tokens|
    ensures Overlapping(tokens, g, from) <= 3 * |Greedy(tokens, g, from)| <= |tokens| - from
    ensures Overlapping(tokens, g, from) > 0 ==> |Greedy(tokens, g, from)| > 0
    decreases |tokens| - from
  {
    if from + 3 <= |tokens| {
      if GramAt(tokens, from) == g {
        CoverBounds(tokens, g, from + 3);
        OverlappingStep(tokens, g, from);
      } else {
        CoverBounds(tokens, g, from + 1);
      }
    }
  }

  lemma OverlappingStep<T>(tokens: seq<T>, g: Gram<T>, from: nat)
    ensures Overlapping(tokens, g, from) <= 3 + Overlapping(tokens, g, from + 3)
  {
    assert Overlapping(tokens, g, from) <= 1 + Overlapping(tokens, g, from + 1);
    assert Overlapping(tokens, g, from + 1) <= 1 + Overlapping(tokens, g, from + 2);
    assert Overlapping(tokens, g, from + 2) <= 1 + Overlapping(tokens, g, from + 3);
  }

  /** All windows of three tokens, in order. */
  function Grams<T>(tokens: seq<T>): (r: seq<Gram<T>>)
    ensures |r| == Max(0, |tokens| - 2)
  {
    seq(Max(0, |tokens| - 2), i requires 0 <= i < Max(0, |tokens| - 2) => GramAt(tokens, i))
  }

  /** The overlapping count is the multiplicity among the windows. */
  lemma {:induction false} OverlappingIsMultiplicity<T>(tokens: seq<T>, g: Gram<T>, from: nat)
    requires from + 2 <= |tokens|
    ensures Overlapping(tokens, g, from) == multiset(Grams(tokens)[from..])[g]
    decreases |tokens| - from
  {
    var grams := Grams(tokens);
    if from + 3 <= |tokens| {
      OverlappingIsMultiplicity(tokens, g, from + 1);
      assert grams[from..] == [grams[from]] + grams[from + 1..];
    }
  }

  // ---- The first of the most frequent items

  /** The distinct items met before `k`, by first occurrence. */
  ghost predicate Ordered<G>(items: seq<G>, k: nat, order: seq<G>, firsts: seq<nat>)
    requires k <= |items|
  {
    && |order| == |firsts|
    && (forall j :: 0 <= j < |order| ==> firsts[j] < k && items[firsts[j]] == order[j])
    && (forall j, l :: 0 <= j < l < |firsts| ==> firsts[j] < firsts[l])
    && (forall i {:trigger Listed(items[i], order, firsts, i)} :: 0 <= i < k ==> Listed(items[i], order, firsts, i))
  }

  ghost predicate Listed<G>(g: G, order: seq<G>, firsts: seq<nat>, i: nat)
    requires |order| == |firsts|
  {
    exists j :: 0 <= j < |order| && order[j] == g && firsts[j] <= i
  }

  /** Their multiplicities so far. */
  ghost predicate Counted<G>(items: seq<G>, k: nat, counts: map<G, nat>, order: seq<G>)
    requires k <= |items|
  {
    && (forall j :: 0 <= j < |order| ==> order[j] in counts)
    && (forall g | g in counts :: g in order && counts[g] == multiset(items[..k])[g])
  }

  method Tally<G(==)>(items: seq<G>) returns (counts: map<G, nat>, order: seq<G>, ghost firsts: seq<nat>)
    ensures Ordered(items, |items|, order, firsts) && Counted(items, |items|, counts, order)
  {
    counts, order, firsts := map[], [], [];
    for i := 0 to |items|
      invariant Ordered(items, i, order, firsts) && Counted(items, i, counts, order)
    {
      var g := items[i];
      assert items[..i + 1] == items[..i] + [g];
      if g in counts {
        OrderedSeen(items, i, order, firsts);
        counts := counts[g := counts[g] + 1];
      } else {
        NotListed(items, i, order, firsts);
        OrderedNew(items, i, order, firsts);
        counts := counts[g := 1];
        order := order + [g];
        firsts := firsts + [i];
      }
    }
  }

  lemma OrderedSeen<G>(items: seq<G>, k: nat, order: seq<G>, firsts: seq<nat>)
    requires k < |items| && Ordered(items, k, order, firsts) && items[k] in order
    ensures Ordered(items, k + 1, order, firsts)
  {
    var j :| 0 <= j < |order| && order[j] == items[k];
    assert firsts[j] <= k;
    assert Listed(items[k], order, firsts, k);
  }

  lemma NotListed<G>(items: seq<G>, k: nat, order: seq<G>, firsts: seq<nat>)
    requires k < |items| && Ordered(items, k, order, firsts) && items[k] !in order
    ensures items[k] !in items[..k]
  {
    forall i | 0 <= i < k ensures items[i] != items[k] {
      assert Listed(items[i], order, firsts, i);
    }
  }

  lemma OrderedNew<G>(items: seq<G>, k: nat, order: seq<G>, firsts: seq<nat>)
    requires k < |items| && Ordered(items, k, order, firsts)
    ensures Ordered(items, k + 1, order + [items[k]], firsts + [k])
  {
    var order', firsts' := order + [items[k]], firsts + [k];
    forall i | 0 <= i < k + 1 ensures Listed(items[i], order', firsts', i) {
      if i < k {
        assert Listed(items[i], order, firsts, i);
        var j :| 0 <= j < |order| && order[j] == items[i] && firsts[j] <= i;
        assert order'[j] == items[i] && firsts'[j] <= i;
      } else {
        assert order'[|order|] == items[k] && firsts'[|order|] == k;
      }
    }
  }

  /** Position `p` holds an item of the largest multiplicity, and no earlier item has as large a one. */
  ghost predicate FirstMostFrequent<G>(items: seq<G>, p: nat)
    requires p < |items|
  {
    && (forall i :: 0 <= i < |items| ==> multiset(items)[items[i]] <= multiset(items)[items[p]])
    && (forall i :: 0 <= i < p ==> multiset(items)[items[i]] < multiset(items)[items[p]])
  }

  /** `max(counts, key=counts.get)` after the tally. */
  method MostFrequent<G(==)>(items: seq<G>) returns (top: G)
    requires items != []
    ensures exists p :: 0 <= p < |items| && items[p] == top && FirstMostFrequent(items, p)
  {
    var counts, order, firsts := Tally(items);
    assert Listed(items[0], order, firsts, 0);
    var best := 0;
    for j := 1 to |order|
      invariant 0 <= best < |order|
      invariant forall l :: 0 <= l < j ==> counts[order[l]] <= counts[order[best]]
      invariant forall l :: 0 <= l < best ==> counts[order[l]] < counts[order[best]]
    {
      if counts[order[j]] > counts[order[best]] {
        best := j;
      }
    }
    top := order[best];
    ghost var p := firsts[best];
    assert items[..|items|] == items;
    forall i | 0 <= i < |items|
      ensures multiset(items)[items[i]] <= multiset(items)[items[p]]
      ensures i < p ==> multiset(items)[items[i]] < multiset(items)[items[p]]
    {
      assert Listed(items[i], order, firsts, i);
      var j :| 0 <= j < |order| && order[j] == items[i] && firsts[j] <= i;
    }
    assert FirstMostFrequent(items, p);
  }

  /** `g` has the largest overlapping count, and is the first gram to occur that has it. */
  ghost predicate IsTop<T>(tokens: seq<T>, g: Gram<T>) {
    exists p :: 0 <= p < |Grams(tokens)| && Grams(tokens)[p] == g && FirstMostFrequent(Grams(tokens), p)
  }

  /** The proportion of the tokens under the scan's windows. */
  function Covered<T(==)>(tokens: seq<T>, g: Gram<T>): real
    requires tokens != []
  {
    (3 * |Greedy(tokens, g, 0)|) as real / |tokens| as real
  }

  lemma TopUnique<T>(tokens: seq<T>, g: Gram<T>, h: Gram<T>)
    requires IsTop(tokens, g) && IsTop(tokens, h)
    ensures g == h
  {
    var grams := Grams(tokens);
    var p :| 0 <= p < |grams| && grams[p] == g && FirstMostFrequent(grams, p);
    var q :| 0 <= q < |grams| && grams[q] == h && FirstMostFrequent(grams, q);
  }

  method TrigramLoopFraction<T(==)>(tokens: seq<T>) returns (fraction: real)
    ensures |tokens| < 3 ==> fraction == 0.0
    ensures |tokens| >= 3 ==> exists top :: IsTop(tokens, top) && fraction == Covered(tokens, top)
  {
    if |tokens| < 3 {
      return 0.0;
    }
    var topGram := MostFrequent(Grams(tokens));
    assert IsTop(tokens, topGram);
    var covered := 0;
    var i := 0;
    while i <= |tokens| - 3
      invariant 0 <= i <= |tokens| && covered >= 0
      invariant covered + 3 * |Greedy(tokens, topGram, i)| == 3 * |Greedy(tokens, topGram, 0)|
      decreases |tokens| - i
    {
      if GramAt(tokens, i) == topGram {
        covered := covered + 3;
        i := i + 3;
      } else {
        i := i + 1;
      }
    }
    fraction := covered as real / |tokens| as real;
    assert fraction == Covered(tokens, topGram);
  }

  /** From three tokens on, the fraction is positive, at most one, and at least the overlapping frequency. */
  lemma FractionBounds<T>(tokens: seq<T>, top: Gram<T>)
    requires |tokens| >= 3 && IsTop(tokens, top)
    ensures var covered := 3 * |Greedy(tokens, top, 0)|;
      && 0.0 < Covered(tokens, top) <= 1.0
      && 0 < Overlapping(tokens, top, 0) <= covered <= |tokens|
  {
    var p :| 0 <= p < |Grams(tokens)| && Grams(tokens)[p] == top;
    CoverBounds(tokens, top, 0);
    OverlappingIsMultiplicity(tokens, top, 0);
    assert Grams(tokens)[0..] == Grams(tokens);
    var covered := 3 * |Greedy(tokens, top, 0)|;
    QuotientOrder(1, covered, |tokens|);
    assert 1.0 / |tokens| as real > 0.0;
  }

  // ---- The same in terms of positions and single tokens

  /** The trigram `g` stands at `i`. */
  ghost predicate StandsAt<T>(tokens: seq<T>, g: Gram<T>, i: int) {
    0 <= i && i + 3 <= |tokens| && tokens[i] == g.0 && tokens[i + 1] == g.1 && tokens[i + 2] == g.2
  }

  /** All places where it stands, overlapping ones included. */
  ghost function Places<T>(tokens: seq<T>, g: Gram<T>): (s: set<int>) {
    set i | 0 <= i < |tokens| && StandsAt(tokens, g, i)
  }

  ghost predicate ApartPlaces<T>(tokens: seq<T>, g: Gram<T>, s: set<int>) {
    s <= Places(tokens, g) && forall i, j :: i in s && j in s && i < j ==> i + 3 <= j
  }

  lemma {:induction false} OverlappingCounts<T>(tokens: seq<T>, g: Gram<T>, from: nat, s: set<int>)
    requires forall i :: i in s <==> from <= i && StandsAt(tokens, g, i)
    ensures Overlapping(tokens, g, from) == |s|
    decreases |tokens| - from
  {
    if from + 3 > |tokens| {
      forall i ensures i !in s {
        assert i in s <==> from <= i && StandsAt(tokens, g, i);
      }
    } else {
      var rest := s - {from};
      forall i ensures i in rest <==> from + 1 <= i && StandsAt(tokens, g, i) {
        assert i in s <==> from <= i && StandsAt(tokens, g, i);
      }
      OverlappingCounts(tokens, g, from + 1, rest);
      assert from in s <==> StandsAt(tokens, g, from);
      assert from in s ==> s == rest + {from};
      assert from !in s ==> s == rest;
    }
  }

  lemma {:induction false} PlacesExactly<T>(tokens: seq<T>, g: Gram<T>)
    ensures Overlapping(tokens, g, 0) == |Places(tokens, g)|
  {
    var s := Places(tokens, g);
    forall i ensures i in s <==> 0 <= i && StandsAt(tokens, g, i) {
    }
    OverlappingCounts(tokens, g, 0, s);
  }

  /** The trigram at `i` stands in no more places than `g`, in fewer if it comes before `p`. */
  ghost predicate Outnumbered<T>(tokens: seq<T>, i: int, g: Gram<T>, p: int)
    requires 0 <= i <= |tokens| - 3
  {
    var here := |Places(tokens, (tokens[i], tokens[i + 1], tokens[i + 2]))|;
    here <= |Places(tokens, g)| && (i < p ==> here < |Places(tokens, g)|)
  }

  /** `g` stands in more places than any other trigram, or it is the first of those that stand in most. */
  ghost predicate FirstInMostPlaces<T>(tokens: seq<T>, g: Gram<T>, p: int) {
    StandsAt(tokens, g, p) && forall i | 0 <= i <= |tokens| - 3 :: Outnumbered(tokens, i, g, p)
  }

  lemma {:induction false} GramMultiplicity<T>(tokens: seq<T>, i: nat)
    requires i + 3 <= |tokens|
    ensures multiset(Grams(tokens))[Grams(tokens)[i]] == |Places(tokens, (tokens[i], tokens[i + 1], tokens[i + 2]))|
  {
    var g := (tokens[i], tokens[i + 1], tokens[i + 2]);
    OverlappingIsMultiplicity(tokens, g, 0);
    PlacesExactly(tokens, g);
    assert Grams(tokens)[0..] == Grams(tokens) && Grams(tokens)[i] == g;
  }

  lemma {:induction false} TopIsFirstInMostPlaces<T>(tokens: seq<T>, g: Gram<T>)
    requires IsTop(tokens, g)
    ensures exists p :: FirstInMostPlaces(tokens, g, p)
  {
    var grams := Grams(tokens);
    var p :| 0 <= p < |grams| && grams[p] == g && FirstMostFrequent(grams, p);
    assert grams[p] == (tokens[p], tokens[p + 1], tokens[p + 2]);
    GramMultiplicity(tokens, p);
    forall i | 0 <= i <= |tokens| - 3 ensures Outnumbered(tokens, i, g, p) {
      assert grams[i] == (tokens[i], tokens[i + 1], tokens[i + 2]);
      GramMultiplicity(tokens, i);
    }
    assert FirstInMostPlaces(tokens, g, p);
  }

  /** The covered share is that of a largest choice of places no two of which overlap. */
  lemma {:induction false} CoveredIsBestChoice<T>(tokens: seq<T>, g: Gram<T>)
    requires tokens != []
    ensures exists s :: ApartPlaces(tokens, g, s) && Covered(tokens, g) == (3 * |s|) as real / |tokens| as real
    ensures forall s :: ApartPlaces(tokens, g, s) ==> (3 * |s|) as real / |tokens| as real <= Covered(tokens, g)
  {
    var best := StartSet(Greedy(tokens, g, 0));
    GreedyIsDisjoint(tokens, g, 0);
    assert ApartPlaces(tokens, g, best);
    forall s | ApartPlaces(tokens, g, s)
      ensures (3 * |s|) as real / |tokens| as real <= Covered(tokens, g)
    {
      assert Disjoint(tokens, g, 0, s);
      GreedyIsMaximum(tokens, g, 0, s);
      QuotientMonotone(3 * |s|, 3 * |best|, |tokens|);
    }
  }

  // ---- Adjacent duplication

  function Duplicates<T(==)>(tokens: seq<T>): (n: nat)
    ensures n <= if tokens == [] then 0 else |tokens| - 1
  {
    if |tokens| < 2 then 0
    else
      var last := |tokens| - 1;
      Duplicates(tokens[..last]) + if tokens[last - 1] == tokens[last] then 1 else 0
  }

  ghost predicate RepeatsAt<T>(tokens: seq<T>, i: int) {
    0 < i < |tokens| && tokens[i - 1] == tokens[i]
  }

  /** The positions that repeat the token before them. */
  ghost function Repeats<T>(tokens: seq<T>): (s: set<int>) {
    set i | 0 < i < |tokens| && RepeatsAt(tokens, i)
  }

  lemma {:induction false} DuplicatesExactly<T>(tokens: seq<T>)
    ensures Duplicates(tokens) == |Repeats(tokens)|
  {
    if |tokens| >= 2 {
      var last := |tokens| - 1;
      var before := tokens[..last];
      DuplicatesExactly(before);
      var some: set<int> := if tokens[last - 1] == tokens[last] then {last} else {};
      assert Repeats(tokens) == Repeats(before) + some;
    } else {
      assert Repeats(tokens) == {};
    }
  }

  function AdjacentDuplication<T(==)>(tokens: seq<T>): (fraction: real) {
    if |tokens| < 2 then 0.0 else Duplicates(tokens) as real / (|tokens| - 1) as real
  }

  /** Every token twice in a row: the signature of stale token feedback. */
  function Doubled<T>(tokens: seq<T>): (r: seq<T>)
    ensures |r| == 2 * |tokens|
  {
    if tokens == [] then []
    else
      var last := |tokens| - 1;
      Doubled(tokens[..last]) + [tokens[last], tokens[last]]
  }

  lemma {:induction false} DoubledDuplicates<T>(tokens: seq<T>)
    ensures Duplicates(Doubled(tokens)) >= |tokens|
  {
    if tokens != [] {
      var last := |tokens| - 1;
      DoubledDuplicates(tokens[..last]);
      var d, before := Doubled(tokens), Doubled(tokens[..last]);
      assert d[..2 * last + 1][..2 * last] == before && d[..2 * last + 1] == before + [tokens[last]];
      assert Duplicates(d) == Duplicates(d[..2 * last + 1]) + 1;
    }
  }

  /** A doubled text of twenty tokens or more is always critical, whatever it says. */
  lemma DoubledTextIsCritical(tokens: seq<Token>)
    requires |tokens| >= 10
    ensures Duplicated(Doubled(tokens))
  {
    DoubledDuplicates(tokens);
    ManyDuplicatesAreCritical(Doubled(tokens));
  }

  lemma ManyDuplicatesAreCritical(tokens: seq<Token>)
    requires |tokens| >= 20 && 10 * Duplicates(tokens) > |tokens| - 1
    ensures Duplicated(tokens)
  {
    MoreThanATenth(Duplicates(tokens), |tokens| - 1);
  }

  /** Critical means at least twenty tokens, and more than a tenth of them behind an equal one. */
  lemma DuplicatedExactly(tokens: seq<Token>)
    ensures Duplicated(tokens) <==> |tokens| >= 20 && 10 * |Repeats(tokens)| > |tokens| - 1
  {
    DuplicatesExactly(tokens);
    if |tokens| >= 20 {
      MoreThanATenth(Duplicates(tokens), |tokens| - 1);
    }
  }

  lemma MoreThanATenth(a: nat, n: nat)
    requires n > 0
    ensures a as real / n as real > 0.10 <==> 10 * a > n
  {
    var x, d := a as real, n as real;
    assert x / d * d == x;
    ScaleReal(x / d, 0.10, d);
    ScaleReal(0.10, x / d, d);
    if x / d > 0.10 {
      assert (x / d - 0.10) * d > 0.0;
    }
  }

  lemma MoreThanHalf(a: nat, n: nat)
    requires n > 0
    ensures a as real / n as real > 0.50 <==> 2 * a > n
  {
    var x, d := a as real, n as real;
    assert x / d * d == x;
    ScaleReal(x / d, 0.50, d);
    if x / d > 0.50 {
      assert (x / d - 0.50) * d > 0.0;
    }
  }

  lemma ScaleReal(q: real, r: real, d: real)
    requires d > 0.0
    ensures q <= r ==> q * d <= r * d
  {
    assert r * d - q * d == (r - q) * d;
    assert r - q >= 0.0 ==> (r - q) * d >= 0.0;
  }

  /** Text that never repeats a token at once is never critical. */
  lemma {:induction false} AdvancingTextIsNotCritical(tokens: seq<Token>)
    requires forall i :: 0 < i < |tokens| ==> tokens[i - 1] != tokens[i]
    ensures !Duplicated(tokens)
  {
    NoDuplicates(tokens);
  }

  lemma {:induction false} NoDuplicates<T>(tokens: seq<T>)
    ensures Duplicates(tokens) == 0 <==> forall i :: 0 < i < |tokens| ==> tokens[i - 1] != tokens[i]
  {
    if |tokens| >= 2 {
      NoDuplicates(tokens[..|tokens| - 1]);
    }
  }

  // ---- One completion

  datatype Token = Word(text: string) | Id(id: int)

  datatype Severity = Advisory | Critical

  datatype Finding = Finding(severity: Severity, metric: string, value: real)

  /** The words of a completion and the length of its stripped text; words need some stripped text. */
  datatype Text = Text(words: seq<string>, strippedLength: nat)

  const MIN_WORDS_FOR_DUPLICATION := 20
  const ADJACENT_DUPLICATION_CRITICAL := 0.10
  const TRIGRAM_LOOP_ADVISORY := 0.50
  const MIN_WORDS_FOR_LOOP := 50
  const NEAR_EMPTY_CHARS := 5

  function TokensOf(text: Option<Text>, ids: seq<int>): (tokens: Option<seq<Token>>) {
    if text.Some? && text.value.strippedLength > 0 then Some(Map(w => Word(w), text.value.words))
    else if ids != [] then Some(Map(id => Id(id), ids))
    else None
  }

  predicate NearEmpty(text: Option<Text>) {
    text.Some? && text.value.strippedLength < NEAR_EMPTY_CHARS
  }

  predicate Duplicated(tokens: seq<Token>) {
    |tokens| >= MIN_WORDS_FOR_DUPLICATION && AdjacentDuplication(tokens) > ADJACENT_DUPLICATION_CRITICAL
  }

  ghost predicate Looping(tokens: seq<Token>) {
    |tokens| >= MIN_WORDS_FOR_LOOP
    && exists top :: IsTop(tokens, top) && Covered(tokens, top) > TRIGRAM_LOOP_ADVISORY
  }

  /** The computed fraction decides: there is only one first most frequent trigram. */
  lemma LoopingExactly(tokens: seq<Token>, fraction: real)
    requires |tokens| >= 3 ==> exists top :: IsTop(tokens, top) && fraction == Covered(tokens, top)
    ensures Looping(tokens) <==> |tokens| >= MIN_WORDS_FOR_LOOP && fraction > TRIGRAM_LOOP_ADVISORY
  {
    if |tokens| >= MIN_WORDS_FOR_LOOP {
      var top :| IsTop(tokens, top) && fraction == Covered(tokens, top);
      forall other | IsTop(tokens, other) ensures other == top {
        TopUnique(tokens, other, top);
      }
    }
  }

  /** Advisory means at least fifty tokens, more than half of them under separate places of one trigram. */
  lemma {:induction false} LoopingByPlaces(tokens: seq<Token>, top: Gram<Token>)
    requires |tokens| >= 3 ==> IsTop(tokens, top)
    ensures Looping(tokens) <==> |tokens| >= 50 && exists s :: ApartPlaces(tokens, top, s) && 6 * |s| > |tokens|
  {
    if |tokens| >= 50 {
      LoopingExactly(tokens, Covered(tokens, top));
      CoveredIsBestChoice(tokens, top);
      var best :| ApartPlaces(tokens, top, best) && Covered(tokens, top) == (3 * |best|) as real / |tokens| as real;
      MoreThanHalf(3 * |best|, |tokens|);
      if s :| ApartPlaces(tokens, top, s) && 6 * |s| > |tokens| {
        MoreThanHalf(3 * |s|, |tokens|);
      }
    }
  }

  /** The tokens are the words of a text that is not blank, or else the ids, if there are any. */
  lemma TokensOfExactly(text: Option<Text>, ids: seq<int>)
    ensures var tokens := TokensOf(text, ids);
      if text.Some? && text.value.strippedLength > 0 then
        && tokens.Some? && |tokens.value| == |text.value.words|
        && forall i :: 0 <= i < |tokens.value| ==> tokens.value[i] == Word(text.value.words[i])
      else
        && (tokens == None <==> ids == [])
        && (tokens.Some? ==>
              |tokens.value| == |ids| && forall i :: 0 <= i < |ids| ==> tokens.value[i] == Id(ids[i]))
  {
  }

  function ExitCode(findings: seq<Finding>): (code: nat) {
    if exists i :: 0 <= i < |findings| && findings[i].severity == Critical then 2
    else if findings != [] then 1 else 0
  }

  /** 2 with a critical finding, 1 with advisory ones only, 0 without any. */
  lemma ExitCodeExactly(findings: seq<Finding>)
    ensures ExitCode(findings) == 2 <==> exists f :: f in findings && f.severity == Critical
    ensures ExitCode(findings) == 1 <==> findings != [] && forall f :: f in findings ==> f.severity == Advisory
    ensures ExitCode(findings) == 0 <==> findings == []
  {
    if ExitCode(findings) == 2 {
      var i :| 0 <= i < |findings| && findings[i].severity == Critical;
      assert findings[i] in findings;
    }
  }

  /** The exit code of two reports in one is the worse of the two. */
  lemma ExitCodeAppend(a: seq<Finding>, b: seq<Finding>)
    ensures ExitCode(a + b) == Max(ExitCode(a), ExitCode(b))
  {
    var c := a + b;
    assert forall i :: 0 <= i < |a| ==> c[i] == a[i];
    assert forall i :: 0 <= i < |b| ==> c[|a| + i] == b[i];
  }

  class Report {
    var findings: seq<Finding>
    var measured: nat

    constructor ()
      ensures findings == [] && measured == 0
    {
      findings, measured := [], 0;
    }

    /**
     At most one finding is added: advisory for a near-empty completion, critical exactly for adjacent
     duplication in enough other tokens, advisory for a loop in more tokens that are not so duplicated.
     */
    method CheckCompletion(text: Option<Text>, ids: seq<int>)
      modifies this
      ensures measured == old(measured) + 1
      ensures old(findings) <= findings && |findings| <= |old(findings)| + 1
      ensures var tokens, added := TokensOf(text, ids), findings[|old(findings)|..];
        if text.Some? && text.value.strippedLength < 5 then
          added == [Finding(Advisory, "near_empty_completion", text.value.strippedLength as real)]
        else if tokens == None then added == []
        else if Duplicated(tokens.value) then
          added == [Finding(Critical, "adjacent_duplication",
                            |Repeats(tokens.value)| as real / (|tokens.value| - 1) as real)]
        else if Looping(tokens.value) then
          exists top :: IsTop(tokens.value, top)
            && added == [Finding(Advisory, "trigram_loop_fraction", Covered(tokens.value, top))]
        else added == []
      ensures ExitCode(findings) == Max(ExitCode(old(findings)), ExitCode(findings[|old(findings)|..]))
    {
      var tokens := TokensOf(text, ids);
      ghost var before := findings;
      measured := measured + 1;
      if NearEmpty(text) {
        Add(Finding(Advisory, "near_empty_completion", text.value.strippedLength as real));
        return;
      }
      if tokens == None {
        assert findings[|before|..] == [];
        ExitCodeAppend(before, []);
        return;
      }
      var duplication := AdjacentDuplication(tokens.value);
      var loop := TrigramLoopFraction(tokens.value);
      LoopingExactly(tokens.value, loop);
      DuplicatesExactly(tokens.value);
      if Duplicated(tokens.value) {
        Add(Finding(Critical, "adjacent_duplication", duplication));
      } else if |tokens.value| >= MIN_WORDS_FOR_LOOP && loop > TRIGRAM_LOOP_ADVISORY {
        Add(Finding(Advisory, "trigram_loop_fraction", loop));
      } else {
        ExitCodeAppend(before, []);
      }
    }

    method Add(f: Finding)
      modifies this`findings
      ensures findings == old(findings) + [f]
      ensures ExitCode(findings) == Max(ExitCode(old(findings)), ExitCode([f]))
      ensures findings[|old(findings)|..] == [f] && ExitCode([f]) == if f.severity == Critical then 2 else 1
    {
      ExitCodeAppend(findings, [f]);
      findings := findings + [f];
      assert [f][0] == f;
    }
  }
}
