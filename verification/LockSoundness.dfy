/**
What an accepted lock file consists of (tools/validate_lockfiles.py): the parser only compares numbers of
rows and lines, yet acceptance pins down every line.
*/
module LockSoundness {
  import opened Prelude
  import opened Text
  import opened LockNames
  import opened LockParser

  lemma {:induction false} SpanExact(a: string, b: string, cls: CharClass)
    requires forall i :: 0 <= i < |a| ==> cls(a[i])
    requires b != "" ==> !cls(b[0])
    ensures Span(a + b, cls) == |a|
  {
    if a == "" {
      assert a + b == b;
    } else {
      SpanExact(a[1..], b, cls);
      assert (a + b)[1..] == a[1..] + b;
    }
  }

  /** What is left of a line behind its name. */
  function Tail(version: string): string {
    "==" + version + " \\"
  }

  lemma MatchFirstFinds(name: string, version: string)
    requires IsName(name) && IsVersion(version)
    ensures MatchFirst(FirstLine(name, version)) == Some((name, version))
  {
    var line, rest := FirstLine(name, version), Tail(version);
    assert line == name + rest && rest[0] == '=';
    SpanExact(name, rest, IsNameChar);
    assert line[..|name|] == name && line[|name|..] == rest;
    assert StartsWith(rest, "==") && rest[2..] == version + " \\";
    SpanExact(version, " \\", IsVersionChar);
    assert rest[2..][..|version|] == version && rest[2..][|version|..] == " \\";
  }

  lemma {:induction false} MatchFirstIsPrinted(line: string)
    requires MatchFirst(line).Some?
    ensures var m := MatchFirst(line).value; line == FirstLine(m.0, m.1) && IsName(m.0) && IsVersion(m.1)
  {
    var n := Span(line, IsNameChar);
    var rest := line[n..];
    var k := Span(rest[2..], IsVersionChar);
    GluedLine(line, n, k);
    assert MatchFirst(line).value == (line[..n], rest[2..][..k]);
  }

  /** The three parts of a matched line, put together again. */
  lemma {:induction false} GluedLine(line: string, n: nat, k: nat)
    requires n <= |line| && StartsWith(line[n..], "==") && k <= |line[n..][2..]|
    requires line[n..][2..][k..] == " \\"
    ensures line == FirstLine(line[..n], line[n..][2..][..k])
  {
    var rest := line[n..];
    CutTwice(rest, k);
    assert line == line[..n] + rest;
    assert line[..n] + Tail(rest[2..][..k]) == FirstLine(line[..n], rest[2..][..k]);
  }

  lemma CutTwice(rest: string, k: nat)
    requires StartsWith(rest, "==") && k <= |rest[2..]|
    ensures rest == "==" + rest[2..][..k] + rest[2..][k..]
  {
  }

  /** The line matcher accepts exactly the lines that spell a name and a version. */
  lemma MatchFirstExact(line: string, name: string, version: string)
    ensures MatchFirst(line) == Some((name, version))
       <==> line == FirstLine(name, version) && IsName(name) && IsVersion(version)
  {
    if IsName(name) && IsVersion(version) {
      MatchFirstFinds(name, version);
    }
    if MatchFirst(line).Some? {
      MatchFirstIsPrinted(line);
    }
  }

  lemma MatchHashExact(line: string, digest: string)
    ensures MatchHash(line) == Some(digest) <==> line == HASH_PREFIX + digest && IsDigest(digest)
  {
  }

  /** The three groups of the pattern: a name, a version without white space or backslash, 64 hexadecimal digits. */
  ghost predicate WellFormed(q: Requirement) {
    && q.name != "" && q.name[0] != '-' && q.version != "" && |q.digest| == 64
    && (forall i :: 0 <= i < |q.name| ==>
         'a' <= q.name[i] <= 'z' || '0' <= q.name[i] <= '9' || q.name[i] == '-')
    && (forall i :: 0 <= i < |q.version| ==> !IsSpace(q.version[i]) && q.version[i] != '\\')
    && (forall i :: 0 <= i < 64 ==> '0' <= q.digest[i] <= '9' || 'a' <= q.digest[i] <= 'f')
  }

  /** A matched pair of lines is the printed form of one well-formed requirement. */
  lemma MatchAtExact(lines: seq<string>)
    requires Matches(lines)
    ensures var q := MatchAt(lines);
      WellFormed(q) && lines[0] == FirstLine(q.name, q.version) && lines[1] == HASH_PREFIX + q.digest
  {
    var q := MatchAt(lines);
    MatchFirstExact(lines[0], q.name, q.version);
    MatchHashExact(lines[1], q.digest);
  }

  // ---- Lines of the two kinds

  /** Newline-separated lines, split again at all line boundaries. */
  function Relines(lines: seq<string>): (r: seq<string>) {
    if lines == [] then [] else Split(lines[0], IsLineBreak) + Relines(lines[1..])
  }

  lemma {:induction false} SplitInTwoStages(text: string)
    ensures Relines(Split(text, IsNewline)) == Split(text, IsLineBreak)
  {
    if text == "" {
      assert Relines([""]) == Split("", IsLineBreak) + Relines([]);
    } else {
      var c, t := text[0], text[1..];
      var lines := Split(t, IsNewline);
      SplitInTwoStages(t);
      if IsNewline(c) {
        assert ([""] + lines)[1..] == lines;
        assert Split("", IsLineBreak) == [""];
      } else {
        var first := [c] + lines[0];
        assert Split(text, IsNewline) == [first] + lines[1..];
        assert ([first] + lines[1..])[1..] == lines[1..];
        assert first[1..] == lines[0];
        SplitFirst(lines, first, c);
      }
    }
  }

  lemma {:induction false} SplitFirst(lines: seq<string>, first: string, c: char)
    requires lines != [] && first == [c] + lines[0]
    ensures var pieces := Relines(lines);
      && |pieces| >= 1
      && Split(first, IsLineBreak) + Relines(lines[1..])
         == if IsLineBreak(c) then [""] + pieces else [[c] + pieces[0]] + pieces[1..]
  {
    assert first[1..] == lines[0];
    PutInFront(Split(lines[0], IsLineBreak), Relines(lines[1..]), c);
  }

  lemma PutInFront(here: seq<string>, later: seq<string>, c: char)
    requires |here| >= 1
    ensures ([""] + here) + later == [""] + (here + later)
    ensures ([[c] + here[0]] + here[1..]) + later == [[c] + (here + later)[0]] + (here + later)[1..]
  {
    assert (here + later)[1..] == here[1..] + later;
  }

  lemma RequirementLinesAppend(a: seq<string>, b: seq<string>)
    ensures RequirementLines(a + b) == RequirementLines(a) + RequirementLines(b)
  {
    FilterAppend(IsRequirementLine, a, b);
  }

  lemma FirstLineIsOneRequirementLine(name: string, version: string)
    requires IsName(name) && IsVersion(version)
    ensures Free(FirstLine(name, version), IsLineBreak)
    ensures RequirementLines(Split(FirstLine(name, version), IsLineBreak)) == [FirstLine(name, version)]
  {
    var line := FirstLine(name, version);
    forall i | 0 <= i < |line| ensures !IsLineBreak(line[i]) {
      if i < |name| {
        assert line[i] == name[i];
      } else if |name| + 2 <= i < |name| + 2 + |version| {
        assert line[i] == version[i - |name| - 2];
      }
    }
    SplitFree(line, IsLineBreak);
    assert line[0] == name[0] && IsNameChar(line[0]);
    FilterAll(IsRequirementLine, [line]);
  }

  lemma HashLineIsNoRequirementLine(digest: string)
    requires IsDigest(digest)
    ensures Free(HASH_PREFIX + digest, IsLineBreak)
    ensures RequirementLines(Split(HASH_PREFIX + digest, IsLineBreak)) == []
  {
    var line := HASH_PREFIX + digest;
    forall i | 0 <= i < |line| ensures !IsLineBreak(line[i]) {
      if i >= |HASH_PREFIX| {
        assert line[i] == digest[i - |HASH_PREFIX|];
      }
    }
    SplitFree(line, IsLineBreak);
    assert line[0] == ' ' && " " <= line;
    FilterNone(IsRequirementLine, [line]);
  }

  function Heads(reqs: seq<Requirement>): (r: seq<string>)
    ensures |r| == |reqs|
  {
    if reqs == [] then [] else [FirstLine(reqs[0].name, reqs[0].version)] + Heads(reqs[1..])
  }

  /** The requirement lines contain the heads of the matches; if they are no more, they are those heads. */
  lemma {:induction false} LinesContainHeads(lines: seq<string>)
    ensures var r, h := RequirementLines(Relines(lines)), Heads(FindAll(lines));
      |r| >= |h| && (|r| == |h| ==> r == h)
    decreases |lines|
  {
    if Matches(lines) {
      var q := MatchAt(lines);
      MatchAtExact(lines);
      FirstLineIsOneRequirementLine(q.name, q.version);
      HashLineIsNoRequirementLine(q.digest);
      var rest := lines[2..];
      assert lines[1..][1..] == rest;
      RequirementLinesAppend(Split(lines[0], IsLineBreak), Relines(lines[1..]));
      RequirementLinesAppend(Split(lines[1], IsLineBreak), Relines(rest));
      LinesContainHeads(rest);
      assert ([q] + FindAll(rest))[1..] == FindAll(rest);
      assert [] + RequirementLines(Relines(rest)) == RequirementLines(Relines(rest));
    } else if lines != [] {
      RequirementLinesAppend(Split(lines[0], IsLineBreak), Relines(lines[1..]));
      LinesContainHeads(lines[1..]);
    }
  }

  /** The requirement printed at line j. */
  ghost predicate PrintedAt(lines: seq<string>, j: nat, q: Requirement) {
    && j + 1 < |lines|
    && lines[j] == q.name + "==" + q.version + " \\" && lines[j + 1] == "    --hash=sha256:" + q.digest
  }

  /** A line of the second kind starts with a space, so it cannot be the first line of another match. */
  lemma PrintedNotBehindHead(lines: seq<string>, q: Requirement)
    requires Matches(lines) && WellFormed(q)
    ensures !PrintedAt(lines, 1, q)
  {
    MatchAtExact(lines);
    assert lines[1][0] == ' ';
    assert (q.name + "==" + q.version + " \\")[0] == q.name[0];
  }

  lemma PrintedInFront(lines: seq<string>, q: Requirement)
    requires WellFormed(q) && PrintedAt(lines, 0, q)
    ensures Matches(lines) && MatchAt(lines) == q
  {
    MatchFirstFinds(q.name, q.version);
    MatchHashExact(lines[1], q.digest);
  }

  lemma {:induction false} PrintedIsFound(lines: seq<string>, j: nat, q: Requirement)
    requires WellFormed(q) && PrintedAt(lines, j, q)
    ensures q in FindAll(lines)
    decreases |lines|
  {
    if j == 0 {
      PrintedInFront(lines, q);
    } else if Matches(lines) {
      if j == 1 {
        PrintedNotBehindHead(lines, q);
      }
      assert PrintedAt(lines[2..], j - 2, q);
      PrintedIsFound(lines[2..], j - 2, q);
    } else {
      assert PrintedAt(lines[1..], j - 1, q);
      PrintedIsFound(lines[1..], j - 1, q);
    }
  }

  lemma {:induction false} PrintedLater(lines: seq<string>, from: nat, j: nat, q: Requirement)
    requires from <= |lines| && PrintedAt(lines[from..], j, q)
    ensures PrintedAt(lines, from + j, q)
  {
    assert lines[from..][j] == lines[from + j] && lines[from..][j + 1] == lines[from + j + 1];
  }

  lemma {:induction false} FoundIsPrinted(lines: seq<string>, i: nat)
    requires i < |FindAll(lines)|
    ensures WellFormed(FindAll(lines)[i]) && exists j: nat :: PrintedAt(lines, j, FindAll(lines)[i])
    decreases |lines|
  {
    var q := FindAll(lines)[i];
    if Matches(lines) && i == 0 {
      FirstIsPrinted(lines, q);
    } else {
      var from, k := if Matches(lines) then 2 else 1, if Matches(lines) then i - 1 else i;
      FoundIsPrinted(lines[from..], k);
      assert q == FindAll(lines[from..])[k];
      var j: nat :| PrintedAt(lines[from..], j, q);
      PrintedLater(lines, from, j, q);
    }
  }

  lemma {:induction false} FirstIsPrinted(lines: seq<string>, q: Requirement)
    requires Matches(lines) && q == MatchAt(lines)
    ensures WellFormed(q) && PrintedAt(lines, 0, q)
  {
    MatchAtExact(lines);
  }

  /** The pattern finds exactly the well-formed requirements that stand on two lines of their own. */
  lemma {:induction false} FoundExactly(text: string, lines: seq<string>, q: Requirement)
    requires lines == Split(text, IsNewline)
    ensures q in Requirements(text) <==> WellFormed(q) && exists j: nat :: PrintedAt(lines, j, q)
  {
    FoundInLinesExactly(lines, q);
    assert Requirements(text) == FindAll(lines);
  }

  lemma {:induction false} FoundInLinesExactly(lines: seq<string>, q: Requirement)
    ensures q in FindAll(lines) <==> WellFormed(q) && exists j: nat :: PrintedAt(lines, j, q)
  {
    if i :| 0 <= i < |FindAll(lines)| && FindAll(lines)[i] == q {
      FoundIsPrinted(lines, i);
    }
    if j: nat :| WellFormed(q) && PrintedAt(lines, j, q) {
      PrintedIsFound(lines, j, q);
    }
  }

  /**
   Soundness: in an accepted text, the lines that are not empty, comment, option or indented are, in order,
   the first lines of the requirements found; each requirement is well formed and followed by its own hash
   line, the normalized names are pairwise distinct, and none is the project.
   */
  lemma AcceptedTextIsFullyParsed(text: string)
    requires Accepts(text)
    ensures var reqs := Requirements(text);
      && ExpectedLines(text) == Heads(reqs)
      && AllPrinted(Split(text, IsNewline), reqs)
      && Distinct(NormalizedNames(reqs)) && PROJECT !in NormalizedNames(reqs)
      && MapsTo(RowsOf(reqs), NormalizedNames(reqs), Identities(reqs))
  {
    LinesAreHeads(text);
    FoundArePrinted(Split(text, IsNewline));
    DictMapsTo(NormalizedNames(Requirements(text)), Identities(Requirements(text)));
  }

  /** The rows of an accepted text: its requirements under their normalized names, and nothing else. */
  lemma RowsExactly(text: string)
    requires Accepts(text)
    ensures var reqs, rows := Requirements(text), RowsOf(Requirements(text));
      && |rows| == |reqs|
      && forall i :: 0 <= i < |reqs| ==>
           Canonical(reqs[i].name) in rows && rows[Canonical(reqs[i].name)] == (reqs[i].version, reqs[i].digest)
  {
    var reqs := Requirements(text);
    var names, identities := NormalizedNames(reqs), Identities(reqs);
    DictMapsTo(names, identities);
    forall i | 0 <= i < |reqs|
      ensures names[i] == Canonical(reqs[i].name) && identities[i] == (reqs[i].version, reqs[i].digest)
      ensures names[i] in RowsOf(reqs) && RowsOf(reqs)[names[i]] == identities[i]
    {
    }
  }

  lemma LinesAreHeads(text: string)
    requires |Requirements(text)| == |ExpectedLines(text)|
    ensures ExpectedLines(text) == Heads(Requirements(text))
  {
    SplitInTwoStages(text);
    LinesContainHeads(Split(text, IsNewline));
  }

  /** Every requirement is well formed and stands on two lines of its own kind. */
  ghost predicate AllPrinted(lines: seq<string>, reqs: seq<Requirement>) {
    forall i :: 0 <= i < |reqs| ==> WellFormed(reqs[i]) && exists j: nat :: PrintedAt(lines, j, reqs[i])
  }

  lemma FoundArePrinted(lines: seq<string>)
    ensures AllPrinted(lines, FindAll(lines))
  {
    forall i | 0 <= i < |FindAll(lines)|
      ensures WellFormed(FindAll(lines)[i]) && exists j: nat :: PrintedAt(lines, j, FindAll(lines)[i])
    {
      FoundIsPrinted(lines, i);
    }
  }
}
