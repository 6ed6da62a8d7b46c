/**
Printing a resolver report and parsing the lock again (tools/build_dependency_locks.py,
tools/validate_lockfiles.py).
*/
module LockRoundTrip {
  import opened Prelude
  import opened Text
  import opened LockNames
  import opened LockParser
  import opened LockPrinter
  import opened LockSoundness
  import opened LockScreen
  import opened LockOptions

  // ---- Printed locks pass the screen for editable, VCS and local-path requirements

  /** Every token begins with a dash or a dot, or reads `git+`, `hg+`, `svn+`, `bzr+` or `file:`. */
  predicate LooksForbidden(s: string) {
    s != "" && (s[0] == '-' || s[0] == '.' || StartsWith(s, "git+") || StartsWith(s, "hg+") || StartsWith(s, "svn+")
                || StartsWith(s, "bzr+") || StartsWith(s, "file:"))
  }

  lemma ForbiddenLooksForbidden(s: string)
    requires StartsForbidden(s)
    ensures LooksForbidden(s)
  {
    var i :| 0 <= i < |FORBIDDEN| && StartsWith(s, FORBIDDEN[i]);
    assert FORBIDDEN[i][0] == s[0];
  }

  lemma CleanWord(w: string)
    requires Free(w, IsSpace) && !LooksForbidden(w)
    ensures !HasForbidden(w)
  {
    if StartsForbidden(w) {
      ForbiddenLooksForbidden(w);
    }
  }

  /** Two leading dashes: only `--editable` could be forbidden. */
  lemma DashedWordClean(w: string)
    requires Free(w, IsSpace) && |w| > 3 && w[0] == '-' && w[1] == '-' && (w[2] != 'e' || w[3] != 'd')
    ensures !HasForbidden(w)
  {
    forall i | 0 <= i < |FORBIDDEN| ensures !StartsWith(w, FORBIDDEN[i]) {
      var t := FORBIDDEN[i];
      assert t[0] != w[0] || t[1] != w[1] || (|t| > 3 && (t[2] != w[2] || t[3] != w[3]));
    }
    assert !StartsForbidden(w);
  }

  /** A word in which a name is followed by an equals sign. */
  lemma NamedWordClean(name: string, rest: string)
    requires IsName(name) && Free(rest, IsSpace)
    ensures !HasForbidden(name + "=" + rest)
  {
    var w := name + "=" + rest;
    assert w[|name|] == '=';
    assert forall i :: 0 <= i < |name| ==> w[i] == name[i] && IsNameChar(name[i]);
    NameIsNoToken(w, name);
    CleanWord(w);
  }

  lemma NameIsNoToken(w: string, name: string)
    requires IsName(name) && |name| < |w| && w[|name|] == '='
    requires forall i :: 0 <= i < |name| ==> w[i] == name[i]
    ensures !LooksForbidden(w)
  {
    assert IsNameChar(w[0]) && w[0] != '-';
    NoToken(w, name, "git+", 3);
    NoToken(w, name, "hg+", 2);
    NoToken(w, name, "svn+", 3);
    NoToken(w, name, "bzr+", 3);
    NoToken(w, name, "file:", 4);
  }

  /** The token's special character would have to stand inside the name, at the equals sign, or behind it. */
  lemma NoToken(w: string, name: string, token: string, k: nat)
    requires IsName(name) && |name| < |w| && w[|name|] == '='
    requires forall i :: 0 <= i < |name| ==> w[i] == name[i]
    requires k < |token| && !IsNameChar(token[k]) && '=' !in token
    ensures !StartsWith(w, token)
  {
    if |token| <= |w| {
      if k < |name| {
        assert IsNameChar(name[k]) && token[k] != w[k];
      } else {
        assert token[|name|] in token && token[|name|] != w[|name|];
      }
    }
  }

  lemma FirstLineClean(name: string, version: string)
    requires IsName(name) && IsVersion(version)
    ensures !HasForbidden(FirstLine(name, version))
  {
    var word := name + "=" + ("=" + version);
    NamedWordClean(name, "=" + version);
    assert FirstLine(name, version) == word + [' '] + "\\";
    CleanWord("\\");
    ScreenAppend(word, ' ', "\\");
  }

  lemma HashLineClean(digest: string)
    requires IsDigest(digest)
    ensures !HasForbidden(HASH_PREFIX + digest)
  {
    var word := "--hash=sha256:" + digest;
    DashedWordClean(word);
    CleanWord("");
    ScreenAppend("", ' ', word);
    ScreenAppend("", ' ', "" + [' '] + word);
    ScreenAppend("", ' ', "" + [' '] + ("" + [' '] + word));
    ScreenAppend("", ' ', "" + [' '] + ("" + [' '] + ("" + [' '] + word)));
    assert HASH_PREFIX + digest == "" + [' '] + ("" + [' '] + ("" + [' '] + ("" + [' '] + word)));
  }

  lemma OptionsClean()
    ensures !HasForbidden(INDEX_URL) && !HasForbidden(EXTRA_INDEX_URL)
    ensures !HasForbidden(ONLY_BINARY) && !HasForbidden(REQUIRE_HASHES)
  {
    IndexUrlClean();
    ExtraIndexUrlClean();
    DashedWordClean("--only-binary");
    CleanWord(":all:");
    ScreenAppend("--only-binary", ' ', ":all:");
    DashedWordClean(REQUIRE_HASHES);
  }

  lemma {:induction false} IndexUrlClean()
    ensures !HasForbidden(INDEX_URL)
  {
    CleanIndexOption("--index-url", "https://pypi.org", "/simple");
    assert INDEX_URL == "--index-url" + [' '] + ("https://pypi.org" + "/simple");
  }

  lemma {:induction false} ExtraIndexUrlClean()
    ensures !HasForbidden(EXTRA_INDEX_URL)
  {
    CleanIndexOption("--extra-index-url", "https://download", ".pytorch.org/whl/cpu");
  }

  lemma CleanIndexOption(word: string, a: string, b: string)
    requires Free(word, IsSpace) && |word| > 3 && word[0] == '-' && word[1] == '-'
    requires word[2] != 'e' || word[3] != 'd'
    requires StartsWith(a, "https") && Free(a, IsSpace) && Free(b, IsSpace)
    ensures !HasForbidden(word + [' '] + (a + b))
  {
    DashedWordClean(word);
    CleanUrl(a, b);
    ScreenAppend(word, ' ', a + b);
  }

  lemma CleanUrl(a: string, b: string)
    requires StartsWith(a, "https") && Free(a, IsSpace) && Free(b, IsSpace)
    ensures !HasForbidden(a + b)
  {
    var w := a + b;
    assert w[0] == 'h' && w[1] == 't';
    CleanWord(w);
  }

  // ---- The lines of a printed lock

  /** What the report guarantees, and what it leaves to the package index: proper names and versions. */
  ghost predicate Printable(packages: seq<Package>) {
    forall i :: 0 <= i < |packages| ==>
      IsName(packages[i].name) && IsVersion(packages[i].version) && IsDigest(packages[i].sha256)
  }

  function Reqs(packages: seq<Package>): (r: seq<Requirement>)
    ensures |r| == |packages|
  {
    Map((p: Package) => Requirement(p.name, p.version, p.sha256), packages)
  }

  lemma {:induction false} PackageLinesFree(packages: seq<Package>)
    requires Printable(packages)
    ensures forall i :: 0 <= i < |PackageLines(packages)| ==> Free(PackageLines(packages)[i], IsLineBreak)
    ensures AllClean(PackageLines(packages))
  {
    if packages != [] {
      var p := packages[0];
      FirstLineIsOneRequirementLine(p.name, p.version);
      HashLineIsNoRequirementLine(p.sha256);
      FirstLineClean(p.name, p.version);
      HashLineClean(p.sha256);
      PackageLinesFree(packages[1..]);
      var first, second, rest := FirstLine(p.name, p.version), HASH_PREFIX + p.sha256, PackageLines(packages[1..]);
      assert PackageLines(packages)[1..] == [second] + rest && PackageLines(packages)[1..][1..] == rest;
    }
  }

  lemma {:induction false} PackageLinesKept(packages: seq<Package>)
    requires Printable(packages)
    ensures WithoutComments(PackageLines(packages)) == PackageLines(packages)
  {
    if packages != [] {
      var p := packages[0];
      var two := [FirstLine(p.name, p.version), HASH_PREFIX + p.sha256];
      assert two[0][0] == p.name[0] && IsNameChar(two[0][0]) && two[1][0] == ' ';
      FilterAll(IsNoComment, two);
      PackageLinesKept(packages[1..]);
      FilterAppend(IsNoComment, two, PackageLines(packages[1..]));
    }
  }

  lemma HeaderFree(python: string, group: string)
    requires HeaderSafe(python) && HeaderSafe(group)
    ensures forall i :: 0 <= i < 7 ==> Free(Header(python, group)[i], IsLineBreak)
  {
    var h := Header(python, group);
    FirstCommentFree(python, group);
    SecondCommentFree(python, group);
    OptionsFree();
    assert h[2] == INDEX_URL && h[3] == EXTRA_INDEX_URL && h[4] == ONLY_BINARY && h[5] == REQUIRE_HASHES && h[6] == "";
  }

  lemma FirstCommentFree(python: string, group: string)
    requires HeaderSafe(python) && HeaderSafe(group)
    ensures Free(Header(python, group)[0], IsLineBreak)
  {
    assert Free("# Hash-complete", IsLineBreak) && Free("dependency lock for CPython", IsLineBreak);
    assert Free("x86-64 Linux.", IsLineBreak);
    FreeWords("# Hash-complete", group, "dependency lock for CPython", python, "x86-64 Linux.");
  }

  lemma SecondCommentFree(python: string, group: string)
    ensures Free(Header(python, group)[1], IsLineBreak)
  {
    assert Free("# Generated from pip's", IsLineBreak) && Free("target-interpreter", IsLineBreak);
    assert Free("resolver report;", IsLineBreak) && Free("do not add tt-transformers.", IsLineBreak);
    FreeWords("# Generated from pip's", "target-interpreter", "resolver report;", "do not add tt-transformers.", "");
  }

  lemma FreeWords(a: string, b: string, c: string, d: string, e: string)
    requires Free(a, IsLineBreak) && Free(b, IsLineBreak) && Free(c, IsLineBreak) && Free(d, IsLineBreak)
    requires Free(e, IsLineBreak)
    ensures Free(a + " " + b + " " + c + " " + d + " " + e, IsLineBreak)
    ensures Free(a + " " + b + " " + c + " " + d, IsLineBreak)
  {
  }

  lemma OptionsFree()
    ensures Free(INDEX_URL, IsLineBreak) && Free(EXTRA_INDEX_URL, IsLineBreak)
    ensures Free(ONLY_BINARY, IsLineBreak) && Free(REQUIRE_HASHES, IsLineBreak)
  {
    assert Free("--index-url", IsLineBreak);
    assert Free("https://pypi.org/simple", IsLineBreak);
    TwoWordsFree("--index-url", "https://pypi.org/simple");
    UrlFree();
    TwoWordsFree("--only-binary", ":all:");
  }

  lemma UrlFree()
    ensures Free(EXTRA_INDEX_URL, IsLineBreak)
  {
    var a, b := "https://download", ".pytorch.org/whl/cpu";
    assert Free(a, IsLineBreak) && Free(b, IsLineBreak);
    assert Free(a + b, IsLineBreak);
    TwoWordsFree("--extra-index-url", a + b);
  }

  lemma TwoWordsFree(a: string, b: string)
    requires Free(a, IsLineBreak) && Free(b, IsLineBreak)
    ensures Free(a + " " + b, IsLineBreak)
  {
  }

  function AllLines(python: string, group: string, packages: seq<Package>): (lines: seq<string>) {
    Header(python, group) + PackageLines(packages)
  }

  /** Both ways of splitting the printed text give back its lines, and an empty one at the end. */
  lemma PrintedLines(python: string, group: string, packages: seq<Package>)
    requires HeaderSafe(python) && HeaderSafe(group) && Printable(packages)
    ensures var text, lines := PrintedLock(python, group, packages), AllLines(python, group, packages);
      Split(text, IsNewline) == lines + [""] && Split(text, IsLineBreak) == lines + [""]
  {
    var lines := AllLines(python, group, packages);
    HeaderFree(python, group);
    PackageLinesFree(packages);
    forall i | 0 <= i < |lines| ensures Free(lines[i], IsLineBreak) && Free(lines[i], IsNewline) {
      assert lines[i] == if i < 7 then Header(python, group)[i] else PackageLines(packages)[i - 7];
      NewlineIsLineBreak(lines[i]);
    }
    SplitUnlines(lines, IsNewline);
    SplitUnlines(lines, IsLineBreak);
  }

  lemma NewlineIsLineBreak(s: string)
    requires Free(s, IsLineBreak)
    ensures Free(s, IsNewline)
  {
    forall i | 0 <= i < |s| ensures !IsNewline(s[i]) {
      assert !IsLineBreak(s[i]);
    }
  }

  lemma WithoutCommentsAppend(a: seq<string>, b: seq<string>)
    ensures WithoutComments(a + b) == WithoutComments(a) + WithoutComments(b)
  {
    FilterAppend(IsNoComment, a, b);
  }

  // ---- Parsing the printed lines

  /** Only a line that starts like a name can be the first line of a requirement. */
  lemma NoMatchWithoutName(line: string)
    requires line == "" || !IsNameChar(line[0]) || line[0] == '-'
    ensures MatchFirst(line) == None
  {
    if MatchFirst(line).Some? {
      MatchFirstIsPrinted(line);
    }
  }

  lemma HeaderStarts(python: string, group: string)
    ensures var h := Header(python, group);
      h[0][0] == '#' == h[1][0] && h[2][0] == h[3][0] == h[4][0] == h[5][0] == '-' && h[6] == ""
  {
  }

  lemma {:induction false} FindBehind(header: seq<string>, lines: seq<string>)
    requires forall i :: 0 <= i < |header| ==> header[i] == "" || !IsNameChar(header[i][0]) || header[i][0] == '-'
    ensures FindAll(header + lines) == FindAll(lines)
    decreases |header|
  {
    if header == [] {
      assert header + lines == lines;
    } else {
      NoMatchWithoutName(header[0]);
      FindBehind(header[1..], lines);
      assert (header + lines)[0] == header[0] && (header + lines)[1..] == header[1..] + lines;
    }
  }

  lemma {:induction false} FindPackages(packages: seq<Package>)
    requires Printable(packages)
    ensures FindAll(PackageLines(packages) + [""]) == Reqs(packages)
  {
    if packages == [] {
      assert PackageLines(packages) + [""] == [""];
      NoMatchWithoutName("");
    } else {
      var p, rest := packages[0], PackageLines(packages[1..]) + [""];
      var two := [FirstLine(p.name, p.version), HASH_PREFIX + p.sha256];
      PairMatches(p, two + rest);
      assert (two + rest)[2..] == rest;
      assert PackageLines(packages) + [""] == two + rest;
      FindPackages(packages[1..]);
    }
  }

  lemma PairMatches(p: Package, lines: seq<string>)
    requires IsName(p.name) && IsVersion(p.version) && IsDigest(p.sha256)
    requires |lines| >= 2 && lines[0] == FirstLine(p.name, p.version) && lines[1] == HASH_PREFIX + p.sha256
    ensures Matches(lines) && MatchAt(lines) == Requirement(p.name, p.version, p.sha256)
  {
    MatchFirstFinds(p.name, p.version);
    MatchHashExact(lines[1], p.sha256);
  }

  lemma PairRequirementLines(p: Package)
    requires IsName(p.name) && IsVersion(p.version) && IsDigest(p.sha256)
    ensures |RequirementLines([FirstLine(p.name, p.version), HASH_PREFIX + p.sha256])| == 1
  {
    var first, second := [FirstLine(p.name, p.version)], [HASH_PREFIX + p.sha256];
    assert [FirstLine(p.name, p.version), HASH_PREFIX + p.sha256] == first + second;
    RequirementLinesAppend(first, second);
    FirstLineIsOneRequirementLine(p.name, p.version);
    HashLineIsNoRequirementLine(p.sha256);
    SplitFree(FirstLine(p.name, p.version), IsLineBreak);
    SplitFree(HASH_PREFIX + p.sha256, IsLineBreak);
  }

  lemma {:induction false} PackageRequirementLines(packages: seq<Package>)
    requires Printable(packages)
    ensures |RequirementLines(PackageLines(packages))| == |packages|
  {
    if packages != [] {
      var p := packages[0];
      var two, rest := [FirstLine(p.name, p.version), HASH_PREFIX + p.sha256], PackageLines(packages[1..]);
      PairRequirementLines(p);
      PackageRequirementLines(packages[1..]);
      RequirementLinesAppend(two, rest);
      assert PackageLines(packages) == two + rest;
    }
  }

  lemma NoRequirementLines(lines: seq<string>)
    requires forall i :: 0 <= i < |lines| ==> lines[i] == "" || lines[i][0] == '#' || StartsWith(lines[i], "--")
    ensures RequirementLines(lines) == []
  {
    forall i | 0 <= i < |lines| ensures !IsRequirementLine(lines[i]) {
      assert lines[i] == "" || lines[i][0] == '#' ==> lines[i] == "" || StartsWith(lines[i], "#");
    }
    FilterNone(IsRequirementLine, lines);
  }

  /** The parser finds exactly the printed packages, and as many lines that need one. */
  lemma PrintedRequirements(python: string, group: string, packages: seq<Package>)
    requires HeaderSafe(python) && HeaderSafe(group) && Printable(packages)
    ensures var text := PrintedLock(python, group, packages);
      Requirements(text) == Reqs(packages) && |ExpectedLines(text)| == |packages|
  {
    PrintedLines(python, group, packages);
    FoundInLines(python, group, packages);
    ExpectedInLines(python, group, packages);
  }

  lemma {:induction false} FoundInLines(python: string, group: string, packages: seq<Package>)
    requires Printable(packages)
    ensures FindAll(AllLines(python, group, packages) + [""]) == Reqs(packages)
  {
    var h, body := Header(python, group), PackageLines(packages);
    HeaderStarts(python, group);
    assert h + body + [""] == h + (body + [""]);
    FindBehind(h, body + [""]);
    FindPackages(packages);
  }

  lemma {:induction false} ExpectedInLines(python: string, group: string, packages: seq<Package>)
    requires Printable(packages)
    ensures |RequirementLines(AllLines(python, group, packages) + [""])| == |packages|
  {
    var h, body := Header(python, group), PackageLines(packages);
    HeaderStarts(python, group);
    assert h + body + [""] == h + (body + [""]);
    RequirementLinesAppend(h, body + [""]);
    RequirementLinesAppend(body, [""]);
    NoRequirementLines(h);
    NoRequirementLines([""]);
    PackageRequirementLines(packages);
  }

  lemma PrintedBody(python: string, group: string, packages: seq<Package>)
    requires HeaderSafe(python) && HeaderSafe(group) && Printable(packages)
    ensures Body(PrintedLock(python, group, packages))
         == Join(WithoutComments(Header(python, group)) + (PackageLines(packages) + [""]), '\n')
  {
    var h, body := Header(python, group), PackageLines(packages);
    PrintedLines(python, group, packages);
    assert h + body + [""] == h + (body + [""]);
    WithoutCommentsAppend(h, body + [""]);
    WithoutCommentsAppend(body, [""]);
    PackageLinesKept(packages);
    FilterAll(IsNoComment, [""]);
    assert Split(PrintedLock(python, group, packages), IsLineBreak) == h + (body + [""]);
    assert WithoutComments(h + (body + [""])) == WithoutComments(h) + (body + [""]);
  }

  lemma CleanConcat(a: seq<string>, b: seq<string>)
    requires AllClean(a) && AllClean(b)
    ensures AllClean(a + b)
  {
  }

  /** The printed text passes the screen. */
  lemma PrintedIsClean(python: string, group: string, packages: seq<Package>)
    requires HeaderSafe(python) && HeaderSafe(group) && Printable(packages)
    ensures !HasForbidden(Body(PrintedLock(python, group, packages)))
  {
    var h, body := WithoutComments(Header(python, group)), PackageLines(packages);
    PrintedBody(python, group, packages);
    PackageLinesFree(packages);
    HeaderClean(python, group);
    CleanWord("");
    assert AllClean([""]);
    CleanConcat(body, [""]);
    CleanConcat(h, body + [""]);
    ScreenJoin(h + (body + [""]));
  }

  lemma HeaderClean(python: string, group: string)
    ensures AllClean(WithoutComments(Header(python, group)))
  {
    var h := Header(python, group);
    HeaderStarts(python, group);
    OptionsClean();
    CleanWord("");
    WithoutCommentsAppend(h[..2], h[2..]);
    assert h == h[..2] + h[2..];
    assert "#" <= h[0] && "#" <= h[1];
    FilterNone(IsNoComment, h[..2]);
    OptionLinesKept(h[2..]);
    assert h[2..] == [INDEX_URL, EXTRA_INDEX_URL, ONLY_BINARY, REQUIRE_HASHES, ""];
  }

  lemma OptionLinesKept(lines: seq<string>)
    requires forall i :: 0 <= i < |lines| ==> lines[i] == "" || lines[i][0] == '-'
    ensures WithoutComments(lines) == lines
  {
    FilterAll(IsNoComment, lines);
  }

  // ---- The round trip

  /** The rows a lock of these packages is meant to hold. */
  function LockRows(packages: seq<Package>): (rows: Rows) {
    DictOf(PackageNames(packages), Map((p: Package) => (p.version, p.sha256), packages))
  }

  /** Every package has its own row, and there is no other. */
  lemma LockRowsExactly(packages: seq<Package>)
    requires Reported(packages)
    ensures |LockRows(packages)| == |packages|
    ensures forall i :: 0 <= i < |packages| ==>
      && packages[i].name in LockRows(packages)
      && LockRows(packages)[packages[i].name] == (packages[i].version, packages[i].sha256)
  {
    var names, identities := PackageNames(packages), Map((p: Package) => (p.version, p.sha256), packages);
    DictMapsTo(names, identities);
    forall i | 0 <= i < |packages|
      ensures names[i] == packages[i].name && identities[i] == (packages[i].version, packages[i].sha256)
      ensures names[i] in LockRows(packages) && LockRows(packages)[names[i]] == identities[i]
    {
    }
  }

  /** Proper names and versions, no version containing the option that has no space in it. */
  ghost predicate Parsable(packages: seq<Package>) {
    forall i :: 0 <= i < |packages| ==>
      IsName(packages[i].name) && IsVersion(packages[i].version) && !Occurs(packages[i].version, REQUIRE_HASHES)
  }

  lemma PrintedNames(packages: seq<Package>)
    requires Reported(packages)
    ensures NormalizedNames(Reqs(packages)) == PackageNames(packages)
    ensures RowsOf(Reqs(packages)) == LockRows(packages)
  {
    forall i | 0 <= i < |packages|
      ensures NormalizedNames(Reqs(packages))[i] == PackageNames(packages)[i]
    {
      CanonicalFixes(packages[i].name);
    }
    assert Identities(Reqs(packages)) == Map((p: Package) => (p.version, p.sha256), packages);
  }

  lemma PrintedOptionsOnce(python: string, group: string, packages: seq<Package>)
    requires HeaderSafe(python) && HeaderSafe(group) && Reported(packages) && Printable(packages)
    ensures EachOnce(PrintedLock(python, group, packages), RequiredOptions()) <==> Parsable(packages)
  {
    var text, options := PrintedLock(python, group, packages), RequiredOptions();
    forall i | 0 <= i < |options|
      ensures options[i] != ""
      ensures Count(text, options[i]) == 1 <==> options[i] != REQUIRE_HASHES || Parsable(packages)
    {
      PrintedOptionOnce(python, group, packages, options[i]);
    }
    assert options[3] == REQUIRE_HASHES;
  }

  lemma PrintedOptionOnce(python: string, group: string, packages: seq<Package>, o: string)
    requires HeaderSafe(python) && HeaderSafe(group) && Reported(packages) && Printable(packages)
    requires o in RequiredOptions()
    ensures o != ""
    ensures Count(PrintedLock(python, group, packages), o) == 1 <==> o != REQUIRE_HASHES || Parsable(packages)
  {
    HeaderCount(python, group, o);
    CountUnlines(AllLines(python, group, packages), o);
    SumCountAppend(Header(python, group), PackageLines(packages), o);
    PackageLinesCount(packages, o);
    forall i | 0 <= i < |packages|
      ensures Count(packages[i].version, o) == 0 <==> !Occurs(packages[i].version, o)
    {
      CountZero(packages[i].version, o);
    }
  }

  /** A printed lock of parsable packages is accepted, with exactly the printed rows. */
  lemma ParsableIsAccepted(python: string, group: string, packages: seq<Package>)
    requires HeaderSafe(python) && HeaderSafe(group) && Reported(packages) && Parsable(packages)
    ensures var text := PrintedLock(python, group, packages);
      Accepts(text) && RowsOf(Requirements(text)) == LockRows(packages)
  {
    assert Printable(packages);
    PrintedRequirements(python, group, packages);
    PrintedNames(packages);
    PrintedOptionsOnce(python, group, packages);
    PrintedIsClean(python, group, packages);
    assert PROJECT !in PackageNames(packages);
  }

  lemma RowComesFromMatch(reqs: seq<Requirement>, name: string, identity: (string, string))
    requires forall j :: 0 <= j < |reqs| ==> WellFormed(reqs[j])
    requires MapsTo(RowsOf(reqs), NormalizedNames(reqs), Identities(reqs))
    requires name in RowsOf(reqs) && RowsOf(reqs)[name] == identity
    ensures IsName(name) && IsVersion(identity.0)
  {
    assert name in NormalizedNames(reqs);
    var j :| 0 <= j < |reqs| && NormalizedNames(reqs)[j] == name;
    assert Identities(reqs)[j] == identity;
    assert WellFormed(reqs[j]);
    CanonicalName(reqs[j].name);
  }

  /** Rows that were parsed come from matched lines, so names and versions are proper. */
  lemma ParsedRowsArePrintable(text: string, packages: seq<Package>)
    requires Accepts(text) && Reported(packages) && RowsOf(Requirements(text)) == LockRows(packages)
    ensures Printable(packages)
  {
    AcceptedTextIsFullyParsed(text);
    var names, identities := PackageNames(packages), Map((p: Package) => (p.version, p.sha256), packages);
    DictMapsTo(names, identities);
    forall i | 0 <= i < |packages| ensures IsName(packages[i].name) && IsVersion(packages[i].version) {
      assert names[i] in LockRows(packages) && LockRows(packages)[names[i]] == identities[i];
      RowComesFromMatch(Requirements(text), names[i], identities[i]);
    }
  }

  /** Normalizing a name that the pattern accepts gives a name that the pattern accepts. */
  lemma CanonicalName(name: string)
    requires IsName(name)
    ensures IsName(Canonical(name))
  {
    CollapseSingleDashes(name);
    CollapseKeepsNameChars(name);
    var c := Collapse(name);
    assert forall i :: 0 <= i < |c| ==> Canonical(name)[i] == Lower(c[i]);
  }

  lemma {:induction false} CollapseKeepsNameChars(s: string)
    requires forall i :: 0 <= i < |s| ==> IsNameChar(s[i])
    ensures forall i :: 0 <= i < |Collapse(s)| ==> IsNameChar(Collapse(s)[i])
    decreases |s|
  {
    if s != "" {
      var rest := if IsSeparator(s[0]) then SkipSeparators(s[1..]) else s[1..];
      SkipIsSuffix(s[1..]);
      CollapseKeepsNameChars(rest);
    }
  }

  lemma {:induction false} SkipIsSuffix(s: string)
    ensures SkipSeparators(s) == s[|s| - |SkipSeparators(s)|..]
  {
    if s != "" && IsSeparator(s[0]) {
      SkipIsSuffix(s[1..]);
    }
  }

  /**
   The round trip, exactly: for every report that passes, whatever its names and versions, parsing the printed
   lock succeeds and returns name -> (version, digest) if and only if every name and version is one that the
   pattern can spell and no version contains the `--require-hashes` option.
   */
  lemma RoundTripExactly(python: string, group: string, packages: seq<Package>)
    requires HeaderSafe(python) && HeaderSafe(group) && Reported(packages)
    ensures var text := PrintedLock(python, group, packages);
      (Accepts(text) && RowsOf(Requirements(text)) == LockRows(packages)) <==> Parsable(packages)
  {
    var text := PrintedLock(python, group, packages);
    if Parsable(packages) {
      ParsableIsAccepted(python, group, packages);
    }
    if Accepts(text) && RowsOf(Requirements(text)) == LockRows(packages) {
      ParsedRowsArePrintable(text, packages);
      PrintedOptionsOnce(python, group, packages);
    }
  }

  // ---- The tools one after the other

  /** Python versions and groups of the eight lock targets are safe in the header. */
  lemma TargetsAreHeaderSafe()
    ensures HeaderSafe("3.10.19") && HeaderSafe("3.12.13") && HeaderSafe("base") && HeaderSafe("host")
    ensures HeaderSafe("qualification") && HeaderSafe("build-dev")
  {
  }

  /** Regenerate a lock from a report and validate it; the rows are the report's own items. */
  method RegenerateAndValidate(
    items: seq<ReportItem>, python: string, group: string, requireTorch: bool)
    returns (report: Result<seq<Package>, ReportError>, rows: Result<Rows, LockError>)
    requires HeaderSafe(python) && HeaderSafe(group)
    ensures report.Ok? ==> (rows == Ok(LockRows(report.value)) <==> Parsable(report.value))
    ensures report.Ok? ==>
      exists packages :: AllChecked(items, packages) && multiset(packages) == multiset(report.value)
  {
    rows := Err(UnparsedRequirement);
    report := ParseReport(items, python, python, requireTorch);
    if report.Ok? {
      var text := LockText(python, group, report.value);
      RoundTripExactly(python, group, report.value);
      rows := ParseLock(text);
    }
  }

  /** A wheel of the package `a` whose version has a space. */
  function SpacedItem(digest: string): ReportItem {
    ReportItem("a", "1 0", "https", PYPI_HOST, false, "a.whl", Some(digest), None)
  }

  lemma SpacedItemPasses(digest: string)
    requires IsDigest(digest)
    ensures CheckItem(SpacedItem(digest)) == Ok(Package("a", "1 0", "pypi", digest))
    ensures Reported([Package("a", "1 0", "pypi", digest)])
  {
    assert IsCanonical("a");
    CanonicalFixes("a");
  }

  /** A report item with a space in its version passes all checks, but its lock does not come back. */
  lemma SpacedVersionIsLost(python: string, group: string, digest: string)
    requires HeaderSafe(python) && HeaderSafe(group) && IsDigest(digest)
    ensures var packages := [Package("a", "1 0", "pypi", digest)];
      var text := PrintedLock(python, group, packages);
      && AllChecked([SpacedItem(digest)], packages) && Reported(packages)
      && !(Accepts(text) && RowsOf(Requirements(text)) == LockRows(packages))
  {
    var packages := [Package("a", "1 0", "pypi", digest)];
    SpacedItemPasses(digest);
    assert "1 0"[1] == ' ' && !IsVersion(packages[0].version);
    RoundTripExactly(python, group, packages);
  }
}
