/**
The screen for editable, VCS and local-path requirements, and the whole acceptance condition of a lock
(tools/validate_lockfiles.py), on the lines of the text.
*/
module LockScreen {
  import opened Prelude
  import opened Text
  import opened LockNames
  import opened LockParser
  import opened LockSoundness

  // ---- The screen of the joined body is a screen of its lines

  lemma TokenHasNoSpace(i: nat, c: char)
    requires i < |FORBIDDEN| && IsSpace(c)
    ensures c !in FORBIDDEN[i]
  {
  }

  lemma StartsForbiddenSeparated(a: string, c: char, b: string)
    requires IsSpace(c)
    ensures StartsForbidden(a + [c] + b) <==> StartsForbidden(a)
  {
    forall i | 0 <= i < |FORBIDDEN|
      ensures StartsWith(a + [c] + b, FORBIDDEN[i]) <==> StartsWith(a, FORBIDDEN[i])
    {
      TokenHasNoSpace(i, c);
      StartsSeparated(a, c, b, FORBIDDEN[i]);
    }
  }

  /** A forbidden token stands at `k`: at the beginning or behind white space. */
  ghost predicate ForbiddenAt(s: string, k: nat) {
    k <= |s| && (k == 0 || IsSpace(s[k - 1])) && StartsForbidden(s[k..])
  }

  lemma ForbiddenSomewhere(s: string)
    ensures HasForbidden(s) <==> exists k: nat :: ForbiddenAt(s, k)
  {
    assert s[0..] == s;
    if StartsForbidden(s) {
      assert ForbiddenAt(s, 0);
    } else if i :| 0 <= i < |s| && IsSpace(s[i]) && StartsForbidden(s[i + 1..]) {
      assert ForbiddenAt(s, i + 1);
    }
    if k: nat :| ForbiddenAt(s, k) && k > 0 {
      assert IsSpace(s[k - 1]) && StartsForbidden(s[k - 1 + 1..]);
    }
  }

  lemma ForbiddenInFront(a: string, c: char, b: string, k: nat)
    requires IsSpace(c) && k <= |a|
    ensures ForbiddenAt(a + [c] + b, k) <==> ForbiddenAt(a, k)
  {
    var s := a + [c] + b;
    assert s[k..] == a[k..] + [c] + b;
    StartsForbiddenSeparated(a[k..], c, b);
  }

  lemma ForbiddenBehind(a: string, c: char, b: string, k: nat)
    requires IsSpace(c) && k <= |b|
    ensures ForbiddenAt(a + [c] + b, |a| + 1 + k) <==> ForbiddenAt(b, k)
  {
    var s := a + [c] + b;
    assert s[|a| + 1 + k..] == b[k..];
    assert s[|a| + k] == if k == 0 then c else b[k - 1];
  }

  /** White space between two pieces neither makes nor hides a forbidden token. */
  lemma ScreenAppend(a: string, c: char, b: string)
    requires IsSpace(c)
    ensures HasForbidden(a + [c] + b) <==> HasForbidden(a) || HasForbidden(b)
  {
    var s := a + [c] + b;
    ForbiddenSomewhere(s);
    ForbiddenSomewhere(a);
    ForbiddenSomewhere(b);
    if k: nat :| ForbiddenAt(a, k) {
      ForbiddenInFront(a, c, b, k);
    }
    if k: nat :| ForbiddenAt(b, k) {
      ForbiddenBehind(a, c, b, k);
    }
    if k: nat :| ForbiddenAt(s, k) {
      if k <= |a| {
        ForbiddenInFront(a, c, b, k);
      } else {
        ForbiddenBehind(a, c, b, k - |a| - 1);
      }
    }
  }

  lemma {:induction false} ScreenJoin(lines: seq<string>)
    ensures HasForbidden(Join(lines, '\n')) <==> exists line :: line in lines && HasForbidden(line)
  {
    if |lines| == 1 {
      assert lines[0] in lines;
    } else if |lines| > 1 {
      ScreenJoin(lines[1..]);
      ScreenAppend(lines[0], '\n', Join(lines[1..], '\n'));
      assert lines == [lines[0]] + lines[1..];
    }
  }

  ghost predicate AllClean(lines: seq<string>) {
    forall i :: 0 <= i < |lines| ==> !HasForbidden(lines[i])
  }

  // ---- Which lines are caught

  /** One of the tokens begins at `k`. */
  ghost predicate TokenAt(line: string, k: nat) {
    && k <= |line|
    && var rest := line[k..];
       || "-e" <= rest || "--editable" <= rest || "git+" <= rest || "hg+" <= rest || "svn+" <= rest
       || "bzr+" <= rest || "file:" <= rest || "./" <= rest || "../" <= rest
  }

  /** A token stands at the start of the line or right behind white space. */
  ghost predicate Suspicious(line: string) {
    TokenAt(line, 0) || exists k: nat :: 0 < k <= |line| && IsSpace(line[k - 1]) && TokenAt(line, k)
  }

  lemma TokensExactly(line: string, k: nat)
    requires k <= |line|
    ensures StartsForbidden(line[k..]) <==> TokenAt(line, k)
  {
    var rest := line[k..];
    assert FORBIDDEN[0] == "-e" && FORBIDDEN[1] == "--editable" && FORBIDDEN[2] == "git+";
    assert FORBIDDEN[3] == "hg+" && FORBIDDEN[4] == "svn+" && FORBIDDEN[5] == "bzr+";
    assert FORBIDDEN[6] == "file:" && FORBIDDEN[7] == "./" && FORBIDDEN[8] == "../";
    if TokenAt(line, k) {
      assert exists i :: 0 <= i < 9 && StartsWith(rest, FORBIDDEN[i]);
    }
  }

  lemma SuspiciousExactly(line: string)
    ensures HasForbidden(line) <==> Suspicious(line)
  {
    ForbiddenSomewhere(line);
    forall k: nat | k <= |line| ensures StartsForbidden(line[k..]) <==> TokenAt(line, k) {
      TokensExactly(line, k);
    }
    if k: nat :| ForbiddenAt(line, k) {
      assert TokenAt(line, k);
    }
    if TokenAt(line, 0) {
      assert ForbiddenAt(line, 0);
    } else if k: nat :| 0 < k <= |line| && IsSpace(line[k - 1]) && TokenAt(line, k) {
      assert ForbiddenAt(line, k);
    }
  }

  lemma {:induction false} Kept(keep: string -> bool, lines: seq<string>, line: string)
    ensures line in Filter(keep, lines) <==> line in lines && keep(line)
  {
    if lines != [] {
      Kept(keep, lines[1..], line);
      assert lines == [lines[0]] + lines[1..];
    }
  }

  /** A line of the text that is no comment and has a token in a forbidden place. */
  ghost predicate Caught(text: string, line: string) {
    line in Split(text, IsLineBreak) && !("#" <= line) && Suspicious(line)
  }

  /** The screen rejects a text exactly for a suspicious line that is no comment. */
  lemma ScreenExactly(text: string)
    ensures HasForbidden(Body(text)) <==> exists line :: Caught(text, line)
  {
    var lines := WithoutComments(Split(text, IsLineBreak));
    ScreenJoin(lines);
    forall line ensures Caught(text, line) <==> line in lines && HasForbidden(line) {
      Kept(IsNoComment, Split(text, IsLineBreak), line);
      SuspiciousExactly(line);
    }
  }

  /** No other check can save such a text. */
  lemma CaughtIsRejected(text: string, line: string)
    requires Caught(text, line)
    ensures !Accepts(text)
  {
    ScreenExactly(text);
  }

  /** A line put behind any text that already ends in a newline is seen. */
  lemma AddedLineIsRejected(text: string, line: string)
    requires Free(line, IsLineBreak) && !("#" <= line) && Suspicious(line)
    ensures !Accepts(text + "\n" + line)
  {
    var all := text + "\n" + line;
    var i := |text| + 1;
    assert all[i..i + |line|] == line && all[i - 1] == '\n';
    assert PieceAt(all, IsLineBreak, line, i);
    PieceExactly(all, IsLineBreak, line);
    CaughtIsRejected(all, line);
  }

  // ---- The whole condition

  lemma IndexUrlText()
    ensures INDEX_URL == "--index-url https://pypi.org/simple"
  {
  }

  lemma ExtraIndexUrlText()
    ensures EXTRA_INDEX_URL == "--extra-index-url " + "https://download.pytorch.org/whl/cpu"
  {
  }

  lemma OnlyBinaryText()
    ensures ONLY_BINARY == "--only-binary :all:"
  {
  }

  /** Lines that need a requirement of their own: not empty, no comment, no option, not indented. */
  lemma ExpectedExactly(text: string, line: string)
    ensures line in ExpectedLines(text)
       <==> line in Split(text, IsLineBreak) && line != "" && line[0] != '#' && line[0] != ' ' && !("--" <= line)
  {
    Kept(IsRequirementLine, Split(text, IsLineBreak), line);
    if line != "" {
      assert "#" <= line <==> line[0] == '#';
      assert " " <= line <==> line[0] == ' ';
    }
  }

  ghost predicate OptionsOnce(text: string) {
    && Count(text, "--index-url https://pypi.org/simple") == 1
    && Count(text, "--extra-index-url " + "https://download.pytorch.org/whl/cpu") == 1
    && Count(text, "--only-binary :all:") == 1
    && Count(text, "--require-hashes") == 1
  }

  lemma OptionsOnceExactly(text: string)
    ensures EachOnce(text, RequiredOptions()) <==> OptionsOnce(text)
  {
    IndexUrlText();
    ExtraIndexUrlText();
    OnlyBinaryText();
    var options := RequiredOptions();
    assert options[0] == INDEX_URL && options[1] == EXTRA_INDEX_URL;
    assert options[2] == ONLY_BINARY && options[3] == REQUIRE_HASHES;
  }

  /**
   A text is accepted exactly if it has each option once and no suspicious line, its requirements have distinct
   names, none of them the project's, and every line that needs a requirement is the head of one.
   */
  lemma AcceptsExactly(text: string)
    ensures Accepts(text) <==>
      && OptionsOnce(text) && (forall line :: !Caught(text, line))
      && var reqs := Requirements(text);
         && (forall i, j :: 0 <= i < j < |reqs| ==> Canonical(reqs[i].name) != Canonical(reqs[j].name))
         && (forall i :: 0 <= i < |reqs| ==> Canonical(reqs[i].name) != "tt-transformers")
         && ExpectedLines(text) == Heads(reqs)
  {
    OptionsOnceExactly(text);
    ScreenExactly(text);
    var reqs := Requirements(text);
    var names := NormalizedNames(reqs);
    assert forall i :: 0 <= i < |reqs| ==> names[i] == Canonical(reqs[i].name);
    if |reqs| == |ExpectedLines(text)| {
      LinesAreHeads(text);
    }
  }
}
