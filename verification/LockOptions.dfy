/**
Counting the required options in a printed lock (tools/build_dependency_locks.py,
tools/validate_lockfiles.py): each option occurs once in the header, and nowhere else unless a version
contains one.
*/
module LockOptions {
  import opened Text
  import opened LockNames
  import opened LockParser
  import opened LockPrinter

  // ---- Pairs of dashes

  predicate PairAt(s: string, i: nat)
    requires i + 1 < |s|
  {
    s[i] == '-' && s[i + 1] == '-'
  }

  /** No two dashes in a row. */
  ghost predicate Single(s: string) {
    forall i: nat :: i + 1 < |s| ==> !PairAt(s, i)
  }

  /** No two dashes in a row except at the very beginning. */
  ghost predicate FrontOnly(s: string) {
    forall i: nat :: 0 < i && i + 1 < |s| ==> !PairAt(s, i)
  }

  lemma SingleAppend(a: string, b: string)
    requires Single(a) && Single(b) && (a != "" && b != "" ==> a[|a| - 1] != '-' || b[0] != '-')
    ensures Single(a + b)
  {
    forall i: nat | i + 1 < |a + b| ensures !PairAt(a + b, i) {
      if i + 1 < |a| {
        assert !PairAt(a, i);
      } else if i >= |a| {
        assert !PairAt(b, i - |a|);
      }
    }
  }

  lemma FrontOnlyAppend(a: string, b: string)
    requires a != "" && FrontOnly(a) && Single(b) && (b != "" ==> a[|a| - 1] != '-' || b[0] != '-')
    ensures FrontOnly(a + b)
  {
    forall i: nat | 0 < i && i + 1 < |a + b| ensures !PairAt(a + b, i) {
      if i + 1 < |a| {
        assert !PairAt(a, i);
      } else if i >= |a| {
        assert !PairAt(b, i - |a|);
      }
    }
  }

  predicate Plain(s: string) {
    '=' !in s && '\n' !in s && '\\' !in s
  }

  /** What all required options have in common. */
  ghost predicate IsOption(o: string) {
    |o| > 10 && PairAt(o, 0) && o[2] != '-' && FrontOnly(o) && Plain(o)
  }

  lemma TwoWordOption(a: string, b: string)
    requires |a| >= 10 && PairAt(a, 0) && a[2] != '-' && FrontOnly(a) && a[|a| - 1] != '-' && Plain(a)
    requires Single(b) && Plain(b)
    ensures IsOption(a + " " + b)
  {
    FrontOnlyAppend(a, " ");
    FrontOnlyAppend(a + " ", b);
  }

  lemma OptionShapes()
    ensures IsOption(INDEX_URL) && IsOption(EXTRA_INDEX_URL) && IsOption(ONLY_BINARY) && IsOption(REQUIRE_HASHES)
  {
    IndexUrlShape();
    ExtraIndexUrlShape();
    OnlyBinaryShape();
    RequireHashesShape();
  }

  lemma IndexUrlShape()
    ensures IsOption(INDEX_URL)
  {
    var a, b := "--index-url", "https://pypi.org/simple";
    assert FrontOnly(a) && Plain(a);
    assert Single(b) && Plain(b);
    TwoWordOption(a, b);
  }

  lemma OnlyBinaryShape()
    ensures IsOption(ONLY_BINARY)
  {
    TwoWordOption("--only-binary", ":all:");
  }

  lemma RequireHashesShape()
    ensures IsOption(REQUIRE_HASHES)
  {
  }

  lemma ExtraIndexUrlShape()
    ensures IsOption(EXTRA_INDEX_URL)
  {
    ExtraUrlShape();
    TwoWordOption("--extra-index-url", "https://download" + ".pytorch.org/whl/cpu");
  }

  lemma {:induction false} ExtraUrlShape()
    ensures var url := "https://download" + ".pytorch.org/whl/cpu"; Single(url) && Plain(url)
  {
    var a, b := "https://download", ".pytorch.org/whl/cpu";
    assert Single(a) && Plain(a);
    assert Single(b) && Plain(b);
    SingleAppend(a, b);
  }

  lemma {:induction false} NoPairNoOption(s: string, o: string)
    requires Single(s) && IsOption(o)
    ensures Count(s, o) == 0
    decreases |s|
  {
    if |s| >= |o| {
      assert !PairAt(s, 0);
      forall i: nat | i + 1 < |s[1..]| ensures !PairAt(s[1..], i) {
        assert !PairAt(s, i + 1);
      }
      NoPairNoOption(s[1..], o);
    }
  }

  /** A line with a pair of dashes only in front contains an option once or never: when it begins with it. */
  lemma CountInFront(s: string, o: string)
    requires FrontOnly(s) && IsOption(o)
    ensures Count(s, o) == if StartsWith(s, o) then 1 else 0
  {
    if |s| >= |o| {
      var rest := if StartsWith(s, o) then s[|o|..] else s[1..];
      var k := |s| - |rest|;
      forall i: nat | i + 1 < |rest| ensures !PairAt(rest, i) {
        assert !PairAt(s, i + k);
      }
      NoPairNoOption(rest, o);
    }
  }

  lemma OptionCounts(o: string)
    requires o in RequiredOptions()
    ensures IsOption(o)
    ensures Count(INDEX_URL, o) == (if o == INDEX_URL then 1 else 0)
    ensures Count(EXTRA_INDEX_URL, o) == (if o == EXTRA_INDEX_URL then 1 else 0)
    ensures Count(ONLY_BINARY, o) == (if o == ONLY_BINARY then 1 else 0)
    ensures Count(REQUIRE_HASHES, o) == (if o == REQUIRE_HASHES then 1 else 0)
  {
    OptionShapes();
    SameOption(INDEX_URL, o);
    SameOption(EXTRA_INDEX_URL, o);
    SameOption(ONLY_BINARY, o);
    SameOption(REQUIRE_HASHES, o);
  }

  /** The options differ in their third character, so one begins with another only if they are the same. */
  lemma SameOption(p: string, o: string)
    requires p in RequiredOptions() && o in RequiredOptions() && IsOption(p) && IsOption(o)
    ensures Count(p, o) == if o == p then 1 else 0
  {
    CountInFront(p, o);
    assert INDEX_URL[2] == 'i' && EXTRA_INDEX_URL[2] == 'e' && ONLY_BINARY[2] == 'o' && REQUIRE_HASHES[2] == 'r';
    if StartsWith(p, o) {
      assert p[2] == o[2];
    }
  }

  // ---- Sums over lines

  function SumCount(lines: seq<string>, o: string): (n: nat)
    requires o != ""
  {
    if lines == [] then 0 else Count(lines[0], o) + SumCount(lines[1..], o)
  }

  lemma {:induction false} SumCountAppend(a: seq<string>, b: seq<string>, o: string)
    requires o != ""
    ensures SumCount(a + b, o) == SumCount(a, o) + SumCount(b, o)
  {
    if a == [] {
      assert a + b == b;
    } else {
      SumCountAppend(a[1..], b, o);
      assert (a + b)[1..] == a[1..] + b;
    }
  }

  /** No option spans two lines. */
  lemma {:induction false} CountUnlines(lines: seq<string>, o: string)
    requires IsOption(o)
    ensures Count(Unlines(lines), o) == SumCount(lines, o)
  {
    if lines != [] {
      CountSeparated(lines[0], '\n', Unlines(lines[1..]), o);
      CountUnlines(lines[1..], o);
    }
  }

  /** Text that may stand in the first comment line. */
  ghost predicate HeaderSafe(s: string) {
    Free(s, IsLineBreak) && Single(s)
  }

  lemma FirstCommentSingle(python: string, group: string)
    requires HeaderSafe(python) && HeaderSafe(group)
    ensures Single(Header(python, group)[0])
  {
    var a := "# Hash-complete" + " ";
    SingleAppend("# Hash-complete", " ");
    SingleAppend(a, group);
    SingleAppend(a + group, " ");
    SingleAppend(a + group + " ", "dependency lock for CPython");
    SingleAppend(a + group + " " + "dependency lock for CPython", " ");
    SingleAppend(a + group + " " + "dependency lock for CPython" + " ", python);
    SingleAppend(a + group + " " + "dependency lock for CPython" + " " + python, " ");
    SingleAppend(a + group + " " + "dependency lock for CPython" + " " + python + " ", "x86-64 Linux.");
  }

  lemma SecondCommentSingle(python: string, group: string)
    ensures Single(Header(python, group)[1])
  {
    var a := "# Generated from pip's" + " ";
    SingleAppend("# Generated from pip's", " ");
    SingleAppend(a, "target-interpreter");
    SingleAppend(a + "target-interpreter", " ");
    SingleAppend(a + "target-interpreter" + " ", "resolver report;");
    SingleAppend(a + "target-interpreter" + " " + "resolver report;", " ");
    SingleAppend(a + "target-interpreter" + " " + "resolver report;" + " ", "do not add tt-transformers.");
  }

  /** Every required option stands in the header exactly once. */
  lemma HeaderCount(python: string, group: string, o: string)
    requires HeaderSafe(python) && HeaderSafe(group) && o in RequiredOptions()
    ensures IsOption(o) && SumCount(Header(python, group), o) == 1
  {
    OptionCounts(o);
    var h := Header(python, group);
    FirstCommentSingle(python, group);
    SecondCommentSingle(python, group);
    NoPairNoOption(h[0], o);
    NoPairNoOption(h[1], o);
    HeaderSum(h, o);
    assert h[2] == INDEX_URL && h[3] == EXTRA_INDEX_URL && h[4] == ONLY_BINARY && h[5] == REQUIRE_HASHES && h[6] == "";
    DistinctOptions();
  }

  lemma DistinctOptions()
    ensures Distinct(RequiredOptions())
  {
    assert INDEX_URL[2] == 'i' && EXTRA_INDEX_URL[2] == 'e' && ONLY_BINARY[2] == 'o' && REQUIRE_HASHES[2] == 'r';
  }

  lemma HeaderSum(h: seq<string>, o: string)
    requires |h| == 7 && o != ""
    ensures SumCount(h, o) == Count(h[0], o) + Count(h[1], o) + Count(h[2], o) + Count(h[3], o) + Count(h[4], o)
                              + Count(h[5], o) + Count(h[6], o)
  {
    assert SumCount(h, o) == Count(h[0], o) + Count(h[1], o) + SumCount(h[2..], o) by {
      assert h[1..][1..] == h[2..];
    }
    assert SumCount(h[2..], o) == Count(h[2], o) + Count(h[3], o) + SumCount(h[4..], o) by {
      assert h[2..][1..][1..] == h[4..];
    }
    assert SumCount(h[4..], o) == Count(h[4], o) + Count(h[5], o) + SumCount(h[6..], o) by {
      assert h[4..][1..][1..] == h[6..];
    }
    assert SumCount(h[6..], o) == Count(h[6], o) + SumCount(h[6..][1..], o);
  }

  // ---- Requirement lines

  lemma CanonicalIsSingle(name: string)
    requires IsCanonical(name)
    ensures Single(name)
  {
    forall i: nat | i + 1 < |name| ensures !PairAt(name, i) {
      assert name[i + 1 - 1] != '-' || name[i + 1] != '-';
    }
  }

  /** In the first line of a requirement only the version can contain an option. */
  lemma FirstLineCount(name: string, version: string, o: string)
    requires IsCanonical(name) && IsVersion(version) && o in RequiredOptions() && IsOption(o)
    ensures Count(FirstLine(name, version), o) == if o == REQUIRE_HASHES then Count(version, o) else 0
  {
    var tail := version + " ";
    CanonicalIsSingle(name);
    NoPairNoOption(name, o);
    NoPairNoOption("", o);
    assert FirstLine(name, version) == name + ['='] + ("" + ['='] + (tail + ['\\'] + ""));
    CountSeparated(tail, '\\', "", o);
    CountSeparated("", '=', tail + ['\\'] + "", o);
    CountSeparated(name, '=', "" + ['='] + (tail + ['\\'] + ""), o);
    if o == REQUIRE_HASHES {
      assert tail == version + [' '] + "";
      CountSeparated(version, ' ', "", o);
    } else {
      SpacedOption(o);
      NoSpacedOption(version, o);
    }
  }

  /** The other three options have a space before their end. */
  lemma SpacedOption(o: string)
    requires o in RequiredOptions() && o != REQUIRE_HASHES
    ensures exists k :: 0 <= k < |o| - 1 && o[k] == ' '
  {
    assert INDEX_URL[11] == ' ' && EXTRA_INDEX_URL[17] == ' ' && ONLY_BINARY[13] == ' ';
  }

  lemma NoSpacedOption(version: string, o: string)
    requires IsVersion(version) && o != "" && exists k :: 0 <= k < |o| - 1 && o[k] == ' '
    ensures Count(version + " ", o) == 0
  {
    var s := version + " ";
    var k :| 0 <= k < |o| - 1 && o[k] == ' ';
    CountZero(s, o);
    forall i | 0 <= i <= |s| ensures !StartsWith(s[i..], o) {
      if i + |o| <= |s| {
        assert s[i..][k] == version[i + k] != o[k];
      }
    }
  }

  /** A hash line contains no option. */
  lemma HashLineCount(digest: string, o: string)
    requires IsDigest(digest) && IsOption(o)
    ensures Count(HASH_PREFIX + digest, o) == 0
  {
    var left, right := "    --hash", "sha256:" + digest;
    assert HASH_PREFIX + digest == left + ['='] + right;
    CountSeparated(left, '=', right, o);
    forall i: nat | i + 1 < |right| ensures !PairAt(right, i) {
      if i >= 7 {
        assert right[i] == digest[i - 7];
      }
    }
    NoPairNoOption(right, o);
  }

  /** The package lines contain an option exactly as often as the versions do. */
  lemma {:induction false} PackageLinesCount(packages: seq<Package>, o: string)
    requires o in RequiredOptions() && IsOption(o)
    requires forall i :: 0 <= i < |packages| ==>
      IsCanonical(packages[i].name) && IsVersion(packages[i].version) && IsDigest(packages[i].sha256)
    ensures SumCount(PackageLines(packages), o) == 0
       <==> o != REQUIRE_HASHES || forall i :: 0 <= i < |packages| ==> Count(packages[i].version, o) == 0
  {
    if packages != [] {
      var p := packages[0];
      FirstLineCount(p.name, p.version, o);
      HashLineCount(p.sha256, o);
      PackageLinesCount(packages[1..], o);
      var two := [FirstLine(p.name, p.version), HASH_PREFIX + p.sha256];
      SumCountAppend(two, PackageLines(packages[1..]), o);
      assert two[1..] == [HASH_PREFIX + p.sha256] && two[1..][1..] == [];
      assert SumCount(two, o) == Count(two[0], o) + Count(two[1], o);
      assert forall i :: 1 <= i < |packages| ==> packages[i] == packages[1..][i - 1];
    }
  }
}
