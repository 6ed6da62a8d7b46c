/** Result, option and list helpers shared by the models: `Err` stands for a raised exception. */
module Prelude {
  datatype Option<+T> = None | Some(value: T)

  datatype Result<+T, +E> = Ok(value: T) | Err(error: E)

  function Min(a: int, b: int): (r: int) {
    if a <= b then a else b
  }

  function Max(a: int, b: int): (r: int) {
    if a >= b then a else b
  }

  lemma MinMaxBound(a: int, b: int)
    ensures Min(a, b) <= a <= Max(a, b) && Min(a, b) <= b <= Max(a, b)
    ensures Min(a, b) in {a, b} && Max(a, b) in {a, b}
  {
  }

  /** `s[:n]`, with Python's meaning of negative n. */
  function PrefixSlice<T>(s: seq<T>, n: int): (r: seq<T>)
    ensures r <= s
    ensures |r| == n <==> 0 <= n <= |s|
  {
    if n >= 0 then s[..Min(n, |s|)] else s[..Max(0, |s| + n)]
  }

  /** A prefix of n items, all but the last -n for negative n, as far as there are so many. */
  lemma PrefixSliceExactly<T>(s: seq<T>, n: int)
    ensures PrefixSlice(s, n) <= s
    ensures |PrefixSlice(s, n)| == if n > |s| then |s| else if n >= 0 then n else if n >= -|s| then |s| + n else 0
  {
  }

  /** `s[-n:]` for positive n. */
  function SuffixSlice<T>(s: seq<T>, n: int): (r: seq<T>)
    requires n > 0
    ensures |r| == Min(n, |s|)
  {
    s[|s| - Min(n, |s|)..]
  }

  /** The last n items: everything, or what stands behind the first |s| - n. */
  lemma SuffixSliceExactly<T>(s: seq<T>, n: int)
    requires n > 0
    ensures n >= |s| ==> SuffixSlice(s, n) == s
    ensures n < |s| ==> |SuffixSlice(s, n)| == n && s == s[..|s| - n] + SuffixSlice(s, n)
  {
  }

  /** A list comprehension `[f(x) for x in s]`. */
  function Map<A, B>(f: A -> B, s: seq<A>): (r: seq<B>)
    ensures |r| == |s| && forall i :: 0 <= i < |s| ==> r[i] == f(s[i])
  {
    if s == [] then [] else [f(s[0])] + Map(f, s[1..])
  }

  lemma MapAppend<A, B>(f: A -> B, s: seq<A>, t: seq<A>)
    ensures Map(f, s + t) == Map(f, s) + Map(f, t)
  {
  }

  /** `[x for x in s if keep(x)]` */
  function Filter<T>(keep: T -> bool, s: seq<T>): (r: seq<T>)
    ensures |r| <= |s|
  {
    if s == [] then [] else (if keep(s[0]) then [s[0]] else []) + Filter(keep, s[1..])
  }

  lemma {:induction false} FilterAppend<T>(keep: T -> bool, s: seq<T>, t: seq<T>)
    ensures Filter(keep, s + t) == Filter(keep, s) + Filter(keep, t)
  {
    if s == [] {
      assert s + t == t;
    } else {
      var first := if keep(s[0]) then [s[0]] else [];
      FilterAppend(keep, s[1..], t);
      assert (s + t)[0] == s[0] && (s + t)[1..] == s[1..] + t;
      assert first + (Filter(keep, s[1..]) + Filter(keep, t)) == (first + Filter(keep, s[1..])) + Filter(keep, t);
    }
  }

  lemma {:induction false} FilterAll<T>(keep: T -> bool, s: seq<T>)
    requires forall i :: 0 <= i < |s| ==> keep(s[i])
    ensures Filter(keep, s) == s
  {
    if s != [] {
      FilterAll(keep, s[1..]);
      assert s == [s[0]] + s[1..];
    }
  }

  lemma {:induction false} FilterNone<T>(keep: T -> bool, s: seq<T>)
    requires forall i :: 0 <= i < |s| ==> !keep(s[i])
    ensures Filter(keep, s) == []
  {
    if s != [] {
      FilterNone(keep, s[1..]);
    }
  }

  function Without<T>(t: seq<T>, i: nat): (r: seq<T>)
    requires i < |t|
  {
    t[..i] + t[i + 1..]
  }

  lemma WithoutMultiset<T>(t: seq<T>, i: nat)
    requires i < |t|
    ensures multiset(t) == multiset(Without(t, i)) + multiset{t[i]}
  {
    assert t == t[..i] + ([t[i]] + t[i + 1..]);
  }

  lemma WithoutSameMultiset<T>(s: seq<T>, i: nat, t: seq<T>, j: nat)
    requires i < |s| && j < |t| && s[i] == t[j]
    requires multiset(s) == multiset(t)
    ensures multiset(Without(s, i)) == multiset(Without(t, j))
  {
    WithoutMultiset(s, i);
    WithoutMultiset(t, j);
    var x := multiset{s[i]};
    assert multiset(Without(s, i)) == multiset(s) - x;
    assert multiset(Without(t, j)) == multiset(t) - x;
  }

  lemma SameMultisetSameSize<T>(s: seq<T>, t: seq<T>)
    requires multiset(s) == multiset(t)
    ensures |s| == |t|
  {
    assert |s| == |multiset(s)|;
    assert |t| == |multiset(t)|;
  }

  lemma {:induction false} MapWithout<A, B>(f: A -> B, s: seq<A>, i: nat)
    requires i < |s|
    ensures multiset(Map(f, s)) == multiset(Map(f, Without(s, i))) + multiset{f(s[i])}
  {
    MapOfWithout(f, s, i);
    WithoutMultiset(Map(f, s), i);
  }

  lemma {:induction false} MapOfWithout<A, B>(f: A -> B, s: seq<A>, i: nat)
    requires i < |s|
    ensures Without(Map(f, s), i) == Map(f, Without(s, i))
  {
    var a, b := Without(Map(f, s), i), Map(f, Without(s, i));
    forall k | 0 <= k < |a| ensures a[k] == b[k] {
    }
  }

  /** Mapping respects rearrangement: equal multisets have equal images. */
  lemma {:induction false} MapMultiset<A, B>(f: A -> B, s: seq<A>, t: seq<A>)
    requires multiset(s) == multiset(t)
    ensures multiset(Map(f, s)) == multiset(Map(f, t))
  {
    SameMultisetSameSize(s, t);
    if s != [] {
      assert s[0] in multiset(t);
      var j :| 0 <= j < |t| && t[j] == s[0];
      WithoutSameMultiset(s, 0, t, j);
      MapMultiset(f, Without(s, 0), Without(t, j));
      MapWithout(f, s, 0);
      MapWithout(f, t, j);
    }
  }

  /** Proportions of one total are ordered as their counts, between 0 and 1. */
  lemma QuotientMonotone(a: nat, b: nat, n: nat)
    requires a <= b && n > 0
    ensures a as real / n as real <= b as real / n as real
  {
    var x, y, d := a as real, b as real, n as real;
    assert y / d - x / d == (y - x) / d;
    assert (y - x) / d >= 0.0;
  }

  lemma QuotientOrder(a: nat, b: nat, n: nat)
    requires a <= b <= n && n > 0
    ensures 0.0 <= a as real / n as real <= b as real / n as real <= 1.0
  {
    QuotientMonotone(0, a, n);
    QuotientMonotone(a, b, n);
    QuotientMonotone(b, n, n);
  }
}
