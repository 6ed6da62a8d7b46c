/**
Package name normalization, "Normalized Names" section of PEP 503, as both lock tools spell it
(tools/build_dependency_locks.py, tools/validate_lockfiles.py).
*/
module LockNames {
  import opened Prelude

  predicate IsSeparator(c: char) {
    c == '-' || c == '_' || c == '.'
  }

  predicate IsUpper(c: char) {
    'A' <= c <= 'Z'
  }

  /** `str.lower()` on ASCII letters. */
  function Lower(c: char): (r: char)
    ensures !IsUpper(r)
    ensures IsSeparator(r) <==> IsSeparator(c)
    ensures r == '-' <==> c == '-'
  {
    if IsUpper(c) then (c as int + 32) as char else c
  }

  function SkipSeparators(s: string): (r: string)
    ensures |r| <= |s| && (r != "" ==> !IsSeparator(r[0]))
  {
    if s != "" && IsSeparator(s[0]) then SkipSeparators(s[1..]) else s
  }

  /** `re.sub(r"[-_.]+", "-", s)` */
  function Collapse(s: string): (r: string)
    decreases |s|
  {
    if s == "" then ""
    else if IsSeparator(s[0]) then "-" + Collapse(SkipSeparators(s[1..]))
    else [s[0]] + Collapse(s[1..])
  }

  function Canonical(name: string): (r: string) {
    Map(Lower, Collapse(name))
  }

  /** Only single dashes as separators, and no upper-case letter. */
  predicate IsCanonical(s: string) {
    && (forall i :: 0 <= i < |s| ==> !('A' <= s[i] <= 'Z') && s[i] != '_' && s[i] != '.')
    && (forall i :: 0 < i < |s| ==> s[i - 1] != '-' || s[i] != '-')
  }

  ghost predicate SingleDashes(s: string) {
    && (forall i :: 0 <= i < |s| ==> s[i] != '_' && s[i] != '.')
    && (forall i :: 0 < i < |s| ==> s[i - 1] != '-' || s[i] != '-')
  }

  lemma {:induction false} CollapseSingleDashes(s: string)
    ensures SingleDashes(Collapse(s))
    ensures s != "" && !IsSeparator(s[0]) ==> Collapse(s) != "" && Collapse(s)[0] == s[0]
    ensures s == "" ==> Collapse(s) == ""
    decreases |s|
  {
    if s != "" {
      var rest := if IsSeparator(s[0]) then SkipSeparators(s[1..]) else s[1..];
      CollapseSingleDashes(rest);
    }
  }

  lemma CanonicalIsCanonical(name: string)
    ensures IsCanonical(Canonical(name))
  {
    CollapseSingleDashes(name);
    var c := Collapse(name);
    assert forall i :: 0 <= i < |c| ==> Canonical(name)[i] == Lower(c[i]);
  }

  lemma {:induction false} CollapseFixes(s: string)
    requires SingleDashes(s)
    ensures Collapse(s) == s
    decreases |s|
  {
    if s != "" {
      assert forall i :: 0 <= i < |s[1..]| ==> s[1..][i] == s[i + 1];
      CollapseFixes(s[1..]);
      assert s == [s[0]] + s[1..];
      if s[0] == '-' {
        assert SkipSeparators(s[1..]) == s[1..];
      }
    }
  }

  /** A normalized name is its own normal form. */
  lemma CanonicalFixes(s: string)
    requires IsCanonical(s)
    ensures Canonical(s) == s
  {
    CollapseFixes(s);
    forall i | 0 <= i < |s| ensures Lower(s[i]) == s[i] {
    }
  }

  /** Names have one normal form: exactly the normalized names are fixed, and normalizing twice adds nothing. */
  lemma CanonicalIdempotent(name: string)
    ensures Canonical(Canonical(name)) == Canonical(name)
    ensures Canonical(name) == name <==> IsCanonical(name)
  {
    CanonicalIsCanonical(name);
    CanonicalFixes(Canonical(name));
    if IsCanonical(name) {
      CanonicalFixes(name);
    }
  }

  // ---- What the normal form of any name is, piece by piece

  ghost predicate IsRun(s: string) {
    s != "" && forall i :: 0 <= i < |s| ==> s[i] == '-' || s[i] == '_' || s[i] == '.'
  }

  ghost predicate EndsPlain(s: string) {
    s != "" ==> s[|s| - 1] != '-' && s[|s| - 1] != '_' && s[|s| - 1] != '.'
  }

  ghost predicate StartsPlain(s: string) {
    s != "" ==> s[0] != '-' && s[0] != '_' && s[0] != '.'
  }

  ghost predicate NoSeparators(s: string) {
    forall i :: 0 <= i < |s| ==> s[i] != '-' && s[i] != '_' && s[i] != '.'
  }

  lemma {:induction false} SkipRun(run: string, b: string)
    requires (forall i :: 0 <= i < |run| ==> IsSeparator(run[i])) && StartsPlain(b)
    ensures SkipSeparators(run + b) == b
  {
    if run == "" {
      assert run + b == b;
    } else {
      SkipRun(run[1..], b);
      assert (run + b)[1..] == run[1..] + b;
    }
  }

  lemma {:induction false} SkipInside(a: string, rest: string)
    requires a != "" && EndsPlain(a)
    ensures SkipSeparators(a + rest) == SkipSeparators(a) + rest
    ensures SkipSeparators(a) != "" && EndsPlain(SkipSeparators(a))
  {
    if IsSeparator(a[0]) {
      SkipInside(a[1..], rest);
      assert (a + rest)[1..] == a[1..] + rest;
    }
  }

  /** No run of separators crosses a place behind a plain character. */
  lemma {:induction false} CollapseInside(a: string, rest: string)
    requires EndsPlain(a)
    ensures Collapse(a + rest) == Collapse(a) + Collapse(rest)
    decreases |a|
  {
    if a == "" {
      assert a + rest == rest;
    } else {
      assert (a + rest)[1..] == a[1..] + rest;
      if IsSeparator(a[0]) {
        SkipInside(a[1..], rest);
        CollapseInside(SkipSeparators(a[1..]), rest);
      } else {
        CollapseInside(a[1..], rest);
      }
    }
  }

  lemma CollapseRun(run: string, b: string)
    requires IsRun(run) && StartsPlain(b)
    ensures Collapse(run + b) == "-" + Collapse(b)
  {
    SkipRun(run[1..], b);
    assert (run + b)[1..] == run[1..] + b;
  }

  lemma {:induction false} CollapseSeparated(a: string, run: string, b: string)
    requires EndsPlain(a) && IsRun(run) && StartsPlain(b)
    ensures Collapse(a + run + b) == Collapse(a) + "-" + Collapse(b)
  {
    CollapseInside(a, run + b);
    CollapseRun(run, b);
    assert a + (run + b) == a + run + b;
  }

  lemma {:induction false} LowerAround(x: string, y: string)
    ensures Map(Lower, x + "-" + y) == Map(Lower, x) + "-" + Map(Lower, y)
  {
    MapAppend(Lower, x + "-", y);
    MapAppend(Lower, x, "-");
    assert Map(Lower, "-") == "-";
  }

  /** A run of separators, however long and mixed, becomes one dash between the normal forms of its two sides. */
  lemma {:induction false} CanonicalSeparated(a: string, run: string, b: string)
    requires EndsPlain(a) && IsRun(run) && StartsPlain(b)
    ensures Canonical(a + run + b) == Canonical(a) + "-" + Canonical(b)
  {
    CollapseSeparated(a, run, b);
    LowerAround(Collapse(a), Collapse(b));
  }

  lemma {:induction false} CollapsePlain(s: string)
    requires NoSeparators(s)
    ensures Collapse(s) == s
  {
    if s != "" {
      CollapsePlain(s[1..]);
      assert s == [s[0]] + s[1..];
    }
  }

  /** Without separators each character stays, except that an upper-case letter moves to its lower-case one. */
  lemma CanonicalPlain(s: string)
    requires NoSeparators(s)
    ensures |Canonical(s)| == |s|
    ensures forall i :: 0 <= i < |s| ==>
      Canonical(s)[i] as int == s[i] as int + if 'A' <= s[i] <= 'Z' then 'a' as int - 'A' as int else 0
  {
    CollapsePlain(s);
  }

  /** The same character, or the upper-case and the lower-case form of one letter. */
  ghost predicate SameLetter(c: char, d: char) {
    || c == d
    || ('A' <= c <= 'Z' && d as int == c as int + 32)
    || ('A' <= d <= 'Z' && c as int == d as int + 32)
  }

  /** Two names without separators are one package exactly when they differ in letter case only. */
  lemma SamePackageExactly(s: string, t: string)
    requires NoSeparators(s) && NoSeparators(t)
    ensures Canonical(s) == Canonical(t) <==> |s| == |t| && forall i :: 0 <= i < |s| ==> SameLetter(s[i], t[i])
  {
    CanonicalPlain(s);
    CanonicalPlain(t);
    if |s| == |t| {
      forall i | 0 <= i < |s| ensures Canonical(s)[i] == Canonical(t)[i] <==> SameLetter(s[i], t[i]) {
        assert Canonical(s)[i] as int == s[i] as int + if 'A' <= s[i] <= 'Z' then 32 else 0;
        assert Canonical(t)[i] as int == t[i] as int + if 'A' <= t[i] <= 'Z' then 32 else 0;
      }
    }
  }

  lemma RequestedName()
    ensures Canonical("PyYAML") == "pyyaml"
  {
    var s := "PyYAML";
    assert NoSeparators(s);
    CanonicalPlain(s);
    var c := Canonical(s);
    assert c[0] == 'p' && c[1] == 'y' && c[2] == 'y' && c[3] == 'a' && c[4] == 'm' && c[5] == 'l';
  }
}
