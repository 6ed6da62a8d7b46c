/** Splitting, joining and searching text, as Python's `str` methods do. */
module Text {
  type CharClass = char -> bool

  /** The pieces of `s` between the characters that `brk` accepts; always at least one piece. */
  function Split(s: string, brk: CharClass): (r: seq<string>)
    ensures |r| >= 1
  {
    if s == [] then [""]
    else
      var rest := Split(s[1..], brk);
      if brk(s[0]) then [""] + rest else [[s[0]] + rest[0]] + rest[1..]
  }

  ghost predicate Free(s: string, brk: CharClass) {
    forall i :: 0 <= i < |s| ==> !brk(s[i])
  }

  /** Each line followed by a newline. */
  function Unlines(lines: seq<string>): (s: string) {
    if lines == [] then "" else lines[0] + ['\n'] + Unlines(lines[1..])
  }

  /** `sep.join(lines)` */
  function Join(lines: seq<string>, sep: char): (s: string) {
    if lines == [] then ""
    else if |lines| == 1 then lines[0]
    else lines[0] + [sep] + Join(lines[1..], sep)
  }

  lemma JoinWithNewline(lines: seq<string>)
    requires lines != []
    ensures Join(lines, '\n') + "\n" == Unlines(lines)
  {
    if |lines| > 1 {
      JoinWithNewline(lines[1..]);
    }
  }

  /** A piece without separators in front of a separator comes off first. */
  lemma {:induction false} SplitPiece(a: string, c: char, b: string, brk: CharClass)
    requires Free(a, brk) && brk(c)
    ensures Split(a + [c] + b, brk) == [a] + Split(b, brk)
  {
    var s := a + [c] + b;
    if a == "" {
      assert s[1..] == b;
    } else {
      SplitPiece(a[1..], c, b, brk);
      assert s[1..] == a[1..] + [c] + b && a == [a[0]] + a[1..];
    }
  }

  lemma {:induction false} SplitFree(a: string, brk: CharClass)
    requires Free(a, brk)
    ensures Split(a, brk) == [a]
  {
    if a != "" {
      SplitFree(a[1..], brk);
      assert a == [a[0]] + a[1..];
    }
  }

  /** Splitting undoes printing one line after the other. */
  lemma {:induction false} SplitUnlines(lines: seq<string>, brk: CharClass)
    requires brk('\n') && forall i :: 0 <= i < |lines| ==> Free(lines[i], brk)
    ensures Split(Unlines(lines), brk) == lines + [""]
  {
    if lines != [] {
      SplitUnlines(lines[1..], brk);
      SplitPiece(lines[0], '\n', Unlines(lines[1..]), brk);
    }
  }

  /** `piece` stands at `i`, without a separator inside and between separators or the ends. */
  ghost predicate PieceAt(s: string, brk: CharClass, piece: string, i: nat) {
    && i + |piece| <= |s| && s[i..i + |piece|] == piece && Free(piece, brk)
    && (i == 0 || brk(s[i - 1])) && (i + |piece| == |s| || brk(s[i + |piece|]))
  }

  /** The first separator, if any. */
  function FirstBreak(s: string, brk: CharClass): (n: nat)
    ensures n <= |s| && (forall i :: 0 <= i < n ==> !brk(s[i])) && (n < |s| ==> brk(s[n]))
  {
    if s == "" || brk(s[0]) then 0 else 1 + FirstBreak(s[1..], brk)
  }

  /** At the start only the part before the first separator is a piece. */
  lemma FirstPiece(s: string, brk: CharClass, piece: string)
    ensures PieceAt(s, brk, piece, 0) <==> piece == s[..FirstBreak(s, brk)]
  {
    var n := FirstBreak(s, brk);
    if PieceAt(s, brk, piece, 0) {
      assert forall i :: 0 <= i < |piece| ==> piece[i] == s[i];
      assert |piece| == n;
    }
  }

  lemma PieceBehind(s: string, brk: CharClass, piece: string, k: nat, i: nat)
    requires k < |s| && brk(s[k])
    ensures PieceAt(s[k + 1..], brk, piece, i) <==> PieceAt(s, brk, piece, k + 1 + i)
  {
    var b := s[k + 1..];
    if i + |piece| <= |b| {
      assert b[i..i + |piece|] == s[k + 1 + i..k + 1 + i + |piece|];
    }
  }

  /** A piece stands at the start, or behind the first separator. */
  lemma {:induction false} PieceSomewhere(s: string, brk: CharClass, piece: string, n: nat, b: string)
    requires n == FirstBreak(s, brk) && n < |s| && b == s[n + 1..]
    ensures (exists i: nat :: PieceAt(s, brk, piece, i))
       <==> piece == s[..n] || exists i: nat :: PieceAt(b, brk, piece, i)
  {
    FirstPiece(s, brk, piece);
    if i: nat :| PieceAt(s, brk, piece, i) {
      if i > 0 {
        assert i > n;
        PieceBehind(s, brk, piece, n, i - n - 1);
      } else {
        assert PieceAt(s, brk, piece, 0);
      }
    }
    if i: nat :| PieceAt(b, brk, piece, i) {
      PieceBehind(s, brk, piece, n, i);
    }
    if piece == s[..n] {
      assert PieceAt(s, brk, piece, 0);
    }
  }

  lemma {:induction false} OnlyPiece(s: string, brk: CharClass, piece: string)
    requires FirstBreak(s, brk) == |s|
    ensures piece in Split(s, brk) <==> exists i: nat :: PieceAt(s, brk, piece, i)
  {
    FirstPiece(s, brk, piece);
    SplitFree(s, brk);
    if piece == s {
      assert PieceAt(s, brk, piece, 0);
    }
    if i: nat :| PieceAt(s, brk, piece, i) {
      assert i == 0 && PieceAt(s, brk, piece, 0);
    }
  }

  /** The pieces of a split are exactly the parts between separators. */
  lemma {:induction false} PieceExactly(s: string, brk: CharClass, piece: string)
    ensures piece in Split(s, brk) <==> exists i: nat :: PieceAt(s, brk, piece, i)
    decreases |s|
  {
    var n := FirstBreak(s, brk);
    if n == |s| {
      OnlyPiece(s, brk, piece);
    } else {
      var a, b := s[..n], s[n + 1..];
      assert s == a + [s[n]] + b;
      SplitPiece(a, s[n], b, brk);
      PieceSomewhere(s, brk, piece, n, b);
      PieceExactly(b, brk, piece);
    }
  }

  // ---- Substrings

  predicate StartsWith(s: string, pat: string) {
    pat <= s
  }

  ghost predicate Occurs(s: string, pat: string) {
    exists i :: 0 <= i <= |s| && StartsWith(s[i..], pat)
  }

  /** `s.count(pat)`: occurrences counted from the left without overlap. */
  function Count(s: string, pat: string): (n: nat)
    requires pat != ""
    decreases |s|
  {
    if |s| < |pat| then 0
    else if StartsWith(s, pat) then 1 + Count(s[|pat|..], pat)
    else Count(s[1..], pat)
  }

  lemma {:induction false} CountZero(s: string, pat: string)
    requires pat != ""
    ensures Count(s, pat) == 0 <==> !Occurs(s, pat)
    decreases |s|
  {
    assert s[0..] == s;
    if |s| >= |pat| && !StartsWith(s, pat) {
      CountZero(s[1..], pat);
      if i :| 0 <= i <= |s| && StartsWith(s[i..], pat) {
        assert s[1..][i - 1..] == s[i..];
      }
      if i :| 0 <= i <= |s[1..]| && StartsWith(s[1..][i..], pat) {
        assert s[i + 1..] == s[1..][i..];
      }
    }
  }

  lemma StartsSeparated(a: string, c: char, b: string, pat: string)
    requires c !in pat
    ensures StartsWith(a + [c] + b, pat) <==> StartsWith(a, pat)
  {
    var s := a + [c] + b;
    assert s[|a|] == c;
    if StartsWith(s, pat) {
      assert forall i :: 0 <= i < |pat| ==> pat[i] == s[i];
      assert |pat| <= |a|;
      assert a[..|pat|] == s[..|pat|];
    }
  }

  /** A character that the pattern does not contain separates the occurrences on its two sides. */
  lemma {:induction false} CountSeparated(a: string, c: char, b: string, pat: string)
    requires pat != "" && c !in pat
    ensures Count(a + [c] + b, pat) == Count(a, pat) + Count(b, pat)
    decreases |a|
  {
    var s := a + [c] + b;
    StartsSeparated(a, c, b, pat);
    if StartsWith(a, pat) {
      assert s[|pat|..] == a[|pat|..] + [c] + b;
      CountSeparated(a[|pat|..], c, b, pat);
    } else if a == "" {
      assert s[1..] == b;
      CountShort(s, pat);
    } else {
      assert s[1..] == a[1..] + [c] + b;
      CountSeparated(a[1..], c, b, pat);
      CountShort(s, pat);
      CountShort(a, pat);
    }
  }

  /** Without a match at the front, counting goes on behind the first character, however short the text. */
  lemma CountShort(s: string, pat: string)
    requires pat != "" && s != "" && !StartsWith(s, pat)
    ensures Count(s, pat) == Count(s[1..], pat)
  {
  }
}
