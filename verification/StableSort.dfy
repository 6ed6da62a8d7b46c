/**
Python's `sorted(items, key=...)` on string keys: the one stable, key-ordered rearrangement.

`Sort` is defined by insertion.  The lemmas below say that it is ordered, that it keeps every
group of equal keys in its original order, and that these two facts determine it completely,
so it stands for any stable sort.
*/
module StableSort {
  import opened Prelude

  /** Code-point order on strings. */
  predicate Leq(a: string, b: string) {
    a == [] || (b != [] && (a[0] < b[0] || (a[0] == b[0] && Leq(a[1..], b[1..]))))
  }

  lemma {:induction false} LeqTotal(a: string, b: string)
    ensures Leq(a, b) || Leq(b, a)
  {
    if a != [] && b != [] {
      LeqTotal(a[1..], b[1..]);
    }
  }

  lemma {:induction false} LeqAntisymmetric(a: string, b: string)
    requires Leq(a, b) && Leq(b, a)
    ensures a == b
  {
    if a != [] && b != [] {
      LeqAntisymmetric(a[1..], b[1..]);
      assert a == [a[0]] + a[1..] && b == [b[0]] + b[1..];
    }
  }

  lemma {:induction false} LeqTransitive(a: string, b: string, c: string)
    requires Leq(a, b) && Leq(b, c)
    ensures Leq(a, c)
  {
    if a != [] && b != [] && c != [] && a[0] == b[0] == c[0] {
      LeqTransitive(a[1..], b[1..], c[1..]);
    }
  }

  /** A string comes before its extensions, and otherwise the first different character decides. */
  lemma {:induction false} LeqByFirstDifference(a: string, b: string, k: nat)
    requires k <= |a| && k <= |b| && a[..k] == b[..k]
    ensures k == |a| ==> Leq(a, b)
    ensures k < |a| && k < |b| && a[k] != b[k] ==> (Leq(a, b) <==> a[k] < b[k])
  {
    if k > 0 {
      assert a[0] == a[..k][0] == b[..k][0] == b[0];
      assert a[1..][..k - 1] == a[..k][1..] && b[1..][..k - 1] == b[..k][1..];
      LeqByFirstDifference(a[1..], b[1..], k - 1);
    }
  }

  ghost predicate Sorted<T>(s: seq<T>, key: T -> string) {
    forall i, j :: 0 <= i < j < |s| ==> Leq(key(s[i]), key(s[j]))
  }

  function Insert<T>(x: T, s: seq<T>, key: T -> string): (r: seq<T>) {
    if s == [] || Leq(key(x), key(s[0])) then [x] + s else [s[0]] + Insert(x, s[1..], key)
  }

  function Sort<T>(s: seq<T>, key: T -> string): (r: seq<T>) {
    if s == [] then [] else Insert(s[0], Sort(s[1..], key), key)
  }

  /** The elements of `s` whose key is `k`, in the order of `s`. */
  function Group<T>(s: seq<T>, key: T -> string, k: string): (r: seq<T>) {
    if s == [] then [] else (if key(s[0]) == k then [s[0]] else []) + Group(s[1..], key, k)
  }

  ghost predicate SameGroups<T>(a: seq<T>, b: seq<T>, key: T -> string) {
    forall k :: Group(a, key, k) == Group(b, key, k)
  }

  lemma {:induction false} InsertSorted<T>(x: T, s: seq<T>, key: T -> string)
    requires Sorted(s, key)
    ensures Sorted(Insert(x, s, key), key)
    ensures multiset(Insert(x, s, key)) == multiset([x] + s)
  {
    if s == [] {
    } else if Leq(key(x), key(s[0])) {
      forall j | 0 <= j < |s| ensures Leq(key(x), key(s[j])) {
        if j > 0 { LeqTransitive(key(x), key(s[0]), key(s[j])); }
      }
    } else {
      var r := Insert(x, s[1..], key);
      InsertSorted(x, s[1..], key);
      LeqTotal(key(x), key(s[0]));
      assert s == [s[0]] + s[1..];
      assert multiset(r) == multiset([x] + s[1..]);
      forall j | 0 <= j < |r| ensures Leq(key(s[0]), key(r[j])) {
        assert r[j] in multiset(r);
        assert r[j] == x || r[j] in s[1..];
      }
    }
  }

  lemma {:induction false} SortSorted<T>(s: seq<T>, key: T -> string)
    ensures Sorted(Sort(s, key), key)
    ensures multiset(Sort(s, key)) == multiset(s)
  {
    if s != [] {
      SortSorted(s[1..], key);
      InsertSorted(s[0], Sort(s[1..], key), key);
      assert s == [s[0]] + s[1..];
    }
  }

  lemma {:induction false} GroupInsert<T>(x: T, s: seq<T>, key: T -> string, k: string)
    ensures Group(Insert(x, s, key), key, k) == Group([x] + s, key, k)
  {
    assert ([x] + s)[1..] == s;
    if s != [] && !Leq(key(x), key(s[0])) {
      GroupInsert(x, s[1..], key, k);
      assert ([x] + s[1..])[1..] == s[1..];
      assert ([s[0]] + Insert(x, s[1..], key))[1..] == Insert(x, s[1..], key);
      LeqTotal(key(x), key(s[0]));
      if key(x) == k && key(s[0]) == k {
        LeqTotal(k, k);
      }
    }
  }

  /** Stability: sorting keeps each group of equal keys in its original order. */
  lemma {:induction false} GroupSort<T>(s: seq<T>, key: T -> string, k: string)
    ensures Group(Sort(s, key), key, k) == Group(s, key, k)
  {
    if s != [] {
      GroupInsert(s[0], Sort(s[1..], key), key, k);
      GroupSort(s[1..], key, k);
      var t := Sort(s[1..], key);
      assert ([s[0]] + t)[1..] == t;
    }
  }

  lemma {:induction false} GroupEmpty<T>(s: seq<T>, key: T -> string, k: string)
    ensures Group(s, key, k) == [] <==> forall i :: 0 <= i < |s| ==> key(s[i]) != k
  {
    if s != [] {
      GroupEmpty(s[1..], key, k);
    }
  }

  /** Two ordered sequences with the same groups of equal keys are the same sequence. */
  lemma {:induction false} SortedByGroups<T>(a: seq<T>, b: seq<T>, key: T -> string)
    requires Sorted(a, key) && Sorted(b, key)
    requires SameGroups(a, b, key)
    ensures a == b
  {
    if a == [] {
      if b != [] {
        GroupEmpty(b, key, key(b[0]));
        GroupEmpty(a, key, key(b[0]));
      }
    } else {
      SameFirstKey(a, b, key);
      var k0 := key(a[0]);
      assert Group(a, key, k0)[0] == a[0] && Group(b, key, k0)[0] == b[0];
      forall k ensures Group(a[1..], key, k) == Group(b[1..], key, k) {
        assert Group(a, key, k) == Group(b, key, k);
        if k == k0 {
          assert Group(a, key, k)[1..] == Group(a[1..], key, k);
          assert Group(b, key, k)[1..] == Group(b[1..], key, k);
        } else {
          assert Group(a, key, k) == Group(a[1..], key, k);
          assert Group(b, key, k) == Group(b[1..], key, k);
        }
      }
      SortedByGroups(a[1..], b[1..], key);
      assert a == [a[0]] + a[1..] && b == [b[0]] + b[1..];
    }
  }

  lemma SameFirstKey<T>(a: seq<T>, b: seq<T>, key: T -> string)
    requires a != [] && Sorted(a, key) && Sorted(b, key)
    requires SameGroups(a, b, key)
    ensures b != [] && key(a[0]) == key(b[0])
  {
    GroupEmpty(a, key, key(a[0]));
    GroupEmpty(b, key, key(a[0]));
    var j :| 0 <= j < |b| && key(b[j]) == key(a[0]);
    GroupEmpty(a, key, key(b[0]));
    GroupEmpty(b, key, key(b[0]));
    var i :| 0 <= i < |a| && key(a[i]) == key(b[0]);
    LeqTotal(key(a[0]), key(a[0]));
    LeqAntisymmetric(key(a[0]), key(b[0]));
  }

  lemma SortKeepsGroups<T>(s: seq<T>, key: T -> string)
    ensures SameGroups(Sort(s, key), s, key)
  {
    forall k ensures Group(Sort(s, key), key, k) == Group(s, key, k) {
      GroupSort(s, key, k);
    }
  }

  lemma SameGroupsTransitive<T>(a: seq<T>, b: seq<T>, c: seq<T>, key: T -> string)
    requires SameGroups(a, b, key) && SameGroups(b, c, key)
    ensures SameGroups(a, c, key) && SameGroups(b, a, key)
  {
  }

  /** Sorting is a canonical form for "same elements, same order within each key". */
  lemma SortCanonical<T>(a: seq<T>, b: seq<T>, key: T -> string)
    ensures Sort(a, key) == Sort(b, key) <==> SameGroups(a, b, key)
  {
    var sa, sb := Sort(a, key), Sort(b, key);
    SortKeepsGroups(a, key);
    SortKeepsGroups(b, key);
    SameGroupsTransitive(sa, a, a, key);
    if sa == sb {
      SameGroupsTransitive(a, sb, b, key);
    }
    if SameGroups(a, b, key) {
      SortSorted(a, key);
      SortSorted(b, key);
      SameGroupsTransitive(sb, b, b, key);
      SameGroupsTransitive(sa, a, b, key);
      SameGroupsTransitive(sa, b, sb, key);
      SortedByGroups(sa, sb, key);
    }
  }

  /** Any ordered rearrangement that keeps each group in order is `Sort`. */
  lemma StableSortUnique<T>(s: seq<T>, r: seq<T>, key: T -> string)
    requires Sorted(r, key) && SameGroups(r, s, key)
    ensures r == Sort(s, key)
  {
    SortSorted(s, key);
    SortKeepsGroups(s, key);
    SameGroupsTransitive(Sort(s, key), s, s, key);
    SameGroupsTransitive(r, s, Sort(s, key), key);
    SortedByGroups(r, Sort(s, key), key);
  }

  ghost predicate DistinctKeys<T>(s: seq<T>, key: T -> string) {
    forall i, j :: 0 <= i < j < |s| ==> key(s[i]) != key(s[j])
  }

  lemma {:induction false} GroupMultiset<T>(s: seq<T>, key: T -> string, k: string, x: T)
    ensures multiset(Group(s, key, k))[x] == if key(x) == k then multiset(s)[x] else 0
  {
    if s != [] {
      GroupMultiset(s[1..], key, k, x);
      assert s == [s[0]] + s[1..];
    }
  }

  lemma {:induction false} GroupAtMostOne<T>(s: seq<T>, key: T -> string, k: string)
    requires DistinctKeys(s, key)
    ensures |Group(s, key, k)| <= 1
  {
    if s != [] {
      GroupAtMostOne(s[1..], key, k);
      GroupEmpty(s[1..], key, k);
    }
  }

  lemma DistinctKeysGroup<T>(a: seq<T>, b: seq<T>, key: T -> string, k: string)
    requires DistinctKeys(a, key) && multiset(a) == multiset(b)
    ensures Group(a, key, k) == Group(b, key, k)
  {
    var ga, gb := Group(a, key, k), Group(b, key, k);
    GroupAtMostOne(a, key, k);
    forall x ensures multiset(ga)[x] == multiset(gb)[x] {
      GroupMultiset(a, key, k, x);
      GroupMultiset(b, key, k, x);
    }
    SmallSameMultiset(ga, gb);
  }

  lemma SmallSameMultiset<T>(a: seq<T>, b: seq<T>)
    requires |a| <= 1 && forall x :: multiset(a)[x] == multiset(b)[x]
    ensures a == b
  {
    assert multiset(a) == multiset(b);
    assert |multiset(a)| == |a| && |multiset(b)| == |b|;
    if |a| == 1 {
      assert a[0] in multiset(b);
    }
  }

  /** With distinct keys, the order of the elements does not matter at all. */
  lemma DistinctKeysSort<T>(a: seq<T>, b: seq<T>, key: T -> string)
    requires DistinctKeys(a, key) && multiset(a) == multiset(b)
    ensures Sort(a, key) == Sort(b, key)
  {
    forall k ensures Group(a, key, k) == Group(b, key, k) {
      DistinctKeysGroup(a, b, key, k);
    }
    SortCanonical(a, b, key);
  }

  lemma {:induction false} InsertMap<T>(x: T, s: seq<T>, key: T -> string, f: T -> T)
    requires forall y :: key(f(y)) == key(y)
    ensures Insert(f(x), Map(f, s), key) == Map(f, Insert(x, s, key))
  {
    if s != [] && !Leq(key(x), key(s[0])) {
      InsertMap(x, s[1..], key, f);
      assert Map(f, s)[1..] == Map(f, s[1..]);
    }
  }

  /** A change of elements that keeps their keys commutes with sorting. */
  lemma {:induction false} SortMap<T>(s: seq<T>, key: T -> string, f: T -> T)
    requires forall y :: key(f(y)) == key(y)
    ensures Sort(Map(f, s), key) == Map(f, Sort(s, key))
  {
    if s != [] {
      SortMap(s[1..], key, f);
      assert Map(f, s)[1..] == Map(f, s[1..]);
      InsertMap(s[0], Sort(s[1..], key), key, f);
    }
  }

  lemma SortOfSorted<T>(s: seq<T>, key: T -> string)
    requires Sorted(s, key)
    ensures Sort(s, key) == s
  {
    StableSortUnique(s, s, key);
  }
}
