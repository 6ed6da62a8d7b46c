/**
Choosing the model directories to scan (qualification/readiness/check_degenerate_output.py).

A path is the sequence of its components below the root, so "is relative to" is "has as a prefix".
*/
module ModelDirs {
  import opened Prelude

  type Path = seq<string>

  predicate HasDeeperMatch(m: Path, matches: seq<Path>) {
    exists i :: 0 <= i < |matches| && matches[i] != m && m <= matches[i]
  }

  /** The comprehension `[m for m in matches if not any(...)]`, applied to the rest of the list. */
  function Deepest(rest: seq<Path>, matches: seq<Path>): (kept: seq<Path>) {
    if rest == [] then []
    else (if HasDeeperMatch(rest[0], matches) then [] else [rest[0]]) + Deepest(rest[1..], matches)
  }

  lemma {:induction false} DeepestMembers(rest: seq<Path>, matches: seq<Path>, m: Path)
    ensures m in Deepest(rest, matches) <==> m in rest && !HasDeeperMatch(m, matches)
  {
    if rest != [] {
      DeepestMembers(rest[1..], matches, m);
    }
  }

  /** No kept directory lies inside another kept directory. */
  lemma KeptIsAntichain(matches: seq<Path>, a: Path, b: Path)
    requires a in Deepest(matches, matches) && b in Deepest(matches, matches) && a <= b
    ensures a == b
  {
    DeepestMembers(matches, matches, a);
    DeepestMembers(matches, matches, b);
  }

  function LongestLength(paths: seq<Path>): (n: nat)
    ensures forall i :: 0 <= i < |paths| ==> |paths[i]| <= n
  {
    if paths == [] then 0 else Max(|paths[0]|, LongestLength(paths[1..]))
  }

  /** Every match is kept or has a kept descendant: climb to deeper matches until none is deeper. */
  lemma {:induction false} EveryMatchIsCovered(matches: seq<Path>, m: Path) returns (kept: Path)
    requires m in matches
    ensures kept in Deepest(matches, matches) && m <= kept
    decreases LongestLength(matches) - |m|
  {
    DeepestMembers(matches, matches, m);
    if HasDeeperMatch(m, matches) {
      var i :| 0 <= i < |matches| && matches[i] != m && m <= matches[i];
      kept := EveryMatchIsCovered(matches, matches[i]);
    } else {
      kept := m;
    }
  }

  datatype Resolution = Found(dirs: seq<Path>) | NoMatch(candidates: seq<Path>) | NoCandidates

  function Matching(candidates: seq<Path>, match_: Path -> bool): (r: seq<Path>)
    ensures forall m :: m in r <==> m in candidates && match_(m)
  {
    if candidates == [] then []
    else (if match_(candidates[0]) then [candidates[0]] else []) + Matching(candidates[1..], match_)
  }

  /** `resolve_model_dirs` after the directory listing; `match_` compares a directory with the model id. */
  function ResolveModelDirs(candidates: seq<Path>, match_: Path -> bool): (r: Resolution) {
    var matches := Matching(candidates, match_);
    var kept := Deepest(matches, matches);
    if kept != [] then Found(kept) else if candidates != [] then NoMatch(candidates) else NoCandidates
  }

  /** Candidate `d` matches, and no other match lies inside it. */
  ghost predicate DeepestMatch(d: Path, candidates: seq<Path>, match_: Path -> bool) {
    d in candidates && match_(d) && forall m :: m in candidates && match_(m) && d <= m ==> m == d
  }

  /** The directories are exactly the deepest matches; without a match the candidates are told, if there are any. */
  lemma ResolutionExactly(candidates: seq<Path>, match_: Path -> bool)
    ensures match ResolveModelDirs(candidates, match_)
      case Found(dirs) => dirs != [] && forall d :: d in dirs <==> DeepestMatch(d, candidates, match_)
      case NoMatch(all) => all == candidates != [] && forall m :: m in candidates ==> !match_(m)
      case NoCandidates => candidates == []
  {
    var matches := Matching(candidates, match_);
    ResolutionIsComplete(candidates, match_);
    forall d ensures d in Deepest(matches, matches) <==> DeepestMatch(d, candidates, match_) {
      DeepestMembers(matches, matches, d);
      if m :| m in candidates && match_(m) && d <= m && m != d {
        assert m in matches;
        var i :| 0 <= i < |matches| && matches[i] == m;
        assert HasDeeperMatch(d, matches);
      }
      if HasDeeperMatch(d, matches) {
        var i :| 0 <= i < |matches| && matches[i] != d && d <= matches[i];
        assert matches[i] in matches;
      }
    }
  }

  /** The filter never turns a match into "nothing matches". */
  lemma ResolutionIsComplete(candidates: seq<Path>, match_: Path -> bool)
    ensures ResolveModelDirs(candidates, match_).Found? <==> exists m :: m in candidates && match_(m)
    ensures ResolveModelDirs(candidates, match_).Found? ==>
      forall m :: m in candidates && match_(m) ==>
        exists d :: d in ResolveModelDirs(candidates, match_).dirs && m <= d
  {
    var matches := Matching(candidates, match_);
    forall m | m in candidates && match_(m)
      ensures exists d :: d in Deepest(matches, matches) && m <= d
    {
      var d := EveryMatchIsCovered(matches, m);
    }
    if kept :| kept in Deepest(matches, matches) {
      DeepestMembers(matches, matches, kept);
    } else if Deepest(matches, matches) != [] {
      assert Deepest(matches, matches)[0] in Deepest(matches, matches);
    }
  }
}
