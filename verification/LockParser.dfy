/**
The lock-file parser (tools/validate_lockfiles.py).

The REQUIREMENT pattern is a hand-written matcher of two consecutive lines.  Its two parts cannot match
across a newline, and no separator of its own can occur inside a name, a version or a digest, so each line
matches in at most one way.
*/
module LockParser {
  import opened Prelude
  import opened Text
  import opened LockNames

  // Long literals are written as sums of shorter ones, which the proofs take one at a time.
  const INDEX_URL := "--index-url" + " " + "https://pypi.org/simple"
  const EXTRA_INDEX_URL := "--extra-index-url" + " " + ("https://download" + ".pytorch.org/whl/cpu")
  const ONLY_BINARY := "--only-binary" + " " + ":all:"
  const REQUIRE_HASHES := "--require-hashes"
  const PROJECT := "tt-transformers"
  const HASH_PREFIX := "    --hash=sha256:"

  function RequiredOptions(): (r: seq<string>) {
    [INDEX_URL, EXTRA_INDEX_URL, ONLY_BINARY, REQUIRE_HASHES]
  }

  /** `\s` of Python's `re`, that is `str.isspace`. */
  predicate IsSpace(c: char) {
    var n := c as int;
    9 <= n <= 13 || 28 <= n <= 32 || n == 0x85 || n == 0xA0 || n == 0x1680 || 0x2000 <= n <= 0x200A
    || n == 0x2028 || n == 0x2029 || n == 0x202F || n == 0x205F || n == 0x3000
  }

  /**
   The line boundaries of `str.splitlines`.  Treating a carriage return as a boundary of its own and keeping
   a last empty line adds only empty lines, which no use below can tell.
   */
  predicate IsLineBreak(c: char) {
    var n := c as int;
    10 <= n <= 13 || 28 <= n <= 30 || n == 0x85 || n == 0x2028 || n == 0x2029
  }

  /** Every line boundary is white space; tab, the unit separator and the spaces inside a line are not boundaries. */
  lemma SpacesAndBreaks(c: char)
    ensures IsLineBreak(c) <==> c in "\n\r" || c as int in {0x0B, 0x0C, 0x1C, 0x1D, 0x1E, 0x85, 0x2028, 0x2029}
    ensures IsSpace(c)
       <==> || IsLineBreak(c) || c in "\t " || 0x2000 <= c as int <= 0x200A
            || c as int in {0x1F, 0xA0, 0x1680, 0x202F, 0x205F, 0x3000}
  {
  }

  predicate IsNewline(c: char) {
    c == '\n'
  }

  predicate IsNameChar(c: char) {
    'a' <= c <= 'z' || '0' <= c <= '9' || c == '-'
  }

  predicate IsVersionChar(c: char) {
    !IsSpace(c) && c != '\\'
  }

  predicate IsHexDigit(c: char) {
    '0' <= c <= '9' || 'a' <= c <= 'f'
  }

  predicate IsName(s: string) {
    s != "" && s[0] != '-' && forall i :: 0 <= i < |s| ==> IsNameChar(s[i])
  }

  predicate IsVersion(s: string) {
    s != "" && forall i :: 0 <= i < |s| ==> IsVersionChar(s[i])
  }

  predicate IsDigest(s: string) {
    |s| == 64 && forall i :: 0 <= i < |s| ==> IsHexDigit(s[i])
  }

  /** The longest prefix whose characters are all in the class. */
  function Span(s: string, cls: CharClass): (n: nat)
    ensures n <= |s| && forall i :: 0 <= i < n ==> cls(s[i])
    ensures n < |s| ==> !cls(s[n])
  {
    if s == "" || !cls(s[0]) then 0 else 1 + Span(s[1..], cls)
  }

  function FirstLine(name: string, version: string): string {
    name + "==" + version + " \\"
  }

  /** `^([a-z0-9][a-z0-9-]*)==([^\s\\]+) \\$` */
  function MatchFirst(line: string): (r: Option<(string, string)>) {
    var n := Span(line, IsNameChar);
    var name, rest := line[..n], line[n..];
    if !IsName(name) || !StartsWith(rest, "==") then None
    else
      var k := Span(rest[2..], IsVersionChar);
      var version := rest[2..][..k];
      if k > 0 && rest[2..][k..] == " \\" then Some((name, version)) else None
  }

  /** `^    --hash=sha256:([0-9a-f]{64})$` */
  function MatchHash(line: string): (r: Option<string>) {
    if StartsWith(line, HASH_PREFIX) && IsDigest(line[|HASH_PREFIX|..]) then Some(line[|HASH_PREFIX|..]) else None
  }

  datatype Requirement = Requirement(name: string, version: string, digest: string)

  predicate Matches(lines: seq<string>) {
    |lines| >= 2 && MatchFirst(lines[0]).Some? && MatchHash(lines[1]).Some?
  }

  function MatchAt(lines: seq<string>): (r: Requirement)
    requires Matches(lines)
  {
    var m := MatchFirst(lines[0]).value;
    Requirement(m.0, m.1, MatchHash(lines[1]).value)
  }

  /** `REQUIREMENT.findall(text)`, on the newline-separated lines of the text. */
  function FindAll(lines: seq<string>): (r: seq<Requirement>)
    decreases |lines|
  {
    if lines == [] then []
    else if Matches(lines) then [MatchAt(lines)] + FindAll(lines[2..])
    else FindAll(lines[1..])
  }

  // ---- The editable, VCS and local-path screen

  const FORBIDDEN: seq<string> := ["-e", "--editable", "git+", "hg+", "svn+", "bzr+", "file:", "./", "../"]

  predicate StartsForbidden(s: string) {
    exists i :: 0 <= i < |FORBIDDEN| && StartsWith(s, FORBIDDEN[i])
  }

  /** `re.search(r"(^|\s)(...)", s)`: a forbidden token at the beginning or after white space. */
  predicate HasForbidden(s: string) {
    StartsForbidden(s) || exists i :: 0 <= i < |s| && IsSpace(s[i]) && StartsForbidden(s[i + 1..])
  }

  predicate IsNoComment(line: string) {
    !StartsWith(line, "#")
  }

  function WithoutComments(lines: seq<string>): (r: seq<string>) {
    Filter(IsNoComment, lines)
  }

  function Body(text: string): string {
    Join(WithoutComments(Split(text, IsLineBreak)), '\n')
  }

  /** A line that is not empty, no comment, no option and not indented. */
  predicate IsRequirementLine(line: string) {
    line != "" && !StartsWith(line, "#") && !StartsWith(line, "--") && !StartsWith(line, " ")
  }

  function RequirementLines(lines: seq<string>): (r: seq<string>) {
    Filter(IsRequirementLine, lines)
  }

  // ---- parse_lock

  type Rows = map<string, (string, string)>

  datatype LockError =
    | OptionCount(option: string)
    | ForbiddenRequirement
    | DuplicateRequirement(name: string)
    | UnparsedRequirement
    | ContainsProject

  function NormalizedNames(reqs: seq<Requirement>): (r: seq<string>)
    ensures |r| == |reqs|
  {
    Map((q: Requirement) => Canonical(q.name), reqs)
  }

  function Identities(reqs: seq<Requirement>): (r: seq<(string, string)>)
    ensures |r| == |reqs|
  {
    Map((q: Requirement) => (q.version, q.digest), reqs)
  }

  ghost predicate Distinct<T>(s: seq<T>) {
    forall i, j :: 0 <= i < j < |s| ==> s[i] != s[j]
  }

  /** `rows` maps exactly the keys, each to its value. */
  ghost predicate MapsTo<K, V>(rows: map<K, V>, keys: seq<K>, values: seq<V>) {
    && |rows| == |keys| == |values|
    && (forall i :: 0 <= i < |keys| ==> keys[i] in rows && rows[keys[i]] == values[i])
    && (forall k | k in rows :: k in keys)
  }

  ghost predicate DistinctNames(reqs: seq<Requirement>) {
    Distinct(NormalizedNames(reqs))
  }

  /** The dictionary built from the entries in order. */
  function DictOf<K, V>(keys: seq<K>, values: seq<V>): (rows: map<K, V>)
    requires |keys| == |values|
  {
    if keys == [] then map[]
    else DictOf(keys[..|keys| - 1], values[..|keys| - 1])[keys[|keys| - 1] := values[|keys| - 1]]
  }

  lemma {:induction false} DictMapsTo<K, V>(keys: seq<K>, values: seq<V>)
    requires |keys| == |values| && Distinct(keys)
    ensures MapsTo(DictOf(keys, values), keys, values)
  {
    if keys != [] {
      var n := |keys| - 1;
      DictMapsTo(keys[..n], values[..n]);
      assert keys == keys[..n] + [keys[n]] && values == values[..n] + [values[n]];
      assert keys[n] !in keys[..n];
      MapsToExtend(DictOf(keys[..n], values[..n]), keys[..n], values[..n], keys[n], values[n]);
    }
  }

  /** Fill a dictionary entry by entry; a key met twice is an error. */
  method FillRows<K(==), V>(keys: seq<K>, values: seq<V>) returns (r: Result<map<K, V>, K>)
    requires |keys| == |values|
    ensures r.Ok? <==> Distinct(keys)
    ensures r.Ok? ==> r.value == DictOf(keys, values)
  {
    var rows: map<K, V> := map[];
    for i := 0 to |keys|
      invariant Distinct(keys[..i]) && rows == DictOf(keys[..i], values[..i])
    {
      DictMapsTo(keys[..i], values[..i]);
      if keys[i] in rows {
        KeyTaken(keys, i);
        return Err(keys[i]);
      }
      DictStep(keys, values, i);
      rows := rows[keys[i] := values[i]];
    }
    assert keys[..|keys|] == keys && values[..|values|] == values;
    return Ok(rows);
  }

  lemma DictStep<K, V>(keys: seq<K>, values: seq<V>, i: nat)
    requires i < |keys| == |values| && Distinct(keys[..i]) && keys[i] !in keys[..i]
    ensures Distinct(keys[..i + 1])
    ensures DictOf(keys[..i + 1], values[..i + 1]) == DictOf(keys[..i], values[..i])[keys[i] := values[i]]
  {
    assert keys[..i + 1] == keys[..i] + [keys[i]];
    assert keys[..i + 1][..i] == keys[..i] && values[..i + 1][..i] == values[..i];
  }

  lemma KeyTaken<K>(keys: seq<K>, i: nat)
    requires i < |keys| && keys[i] in keys[..i]
    ensures !Distinct(keys)
  {
    var j :| 0 <= j < i && keys[..i][j] == keys[i];
    assert keys[j] == keys[i];
  }

  lemma MapsToExtend<K, V>(rows: map<K, V>, keys: seq<K>, values: seq<V>, k: K, v: V)
    requires MapsTo(rows, keys, values) && k !in keys
    ensures MapsTo(rows[k := v], keys + [k], values + [v])
  {
    assert |rows[k := v]| == |rows| + 1 by {
      assert rows[k := v].Keys == rows.Keys + {k};
    }
    assert forall i :: 0 <= i < |keys| ==> keys[i] in rows;
  }

  ghost predicate EachOnce(text: string, options: seq<string>) {
    forall i :: 0 <= i < |options| ==> options[i] != "" && Count(text, options[i]) == 1
  }

  method CheckOptions(text: string, options: seq<string>) returns (bad: Option<string>)
    requires forall i :: 0 <= i < |options| ==> options[i] != ""
    ensures bad == None <==> EachOnce(text, options)
  {
    for i := 0 to |options|
      invariant forall j :: 0 <= j < i ==> Count(text, options[j]) == 1
    {
      if Count(text, options[i]) != 1 {
        return Some(options[i]);
      }
    }
    return None;
  }

  function Requirements(text: string): (reqs: seq<Requirement>) {
    FindAll(Split(text, IsNewline))
  }

  function ExpectedLines(text: string): (lines: seq<string>) {
    RequirementLines(Split(text, IsLineBreak))
  }

  function RowsOf(reqs: seq<Requirement>): (rows: Rows) {
    DictOf(NormalizedNames(reqs), Identities(reqs))
  }

  /** Everything `parse_lock` demands of a text. */
  ghost predicate Accepts(text: string) {
    && EachOnce(text, RequiredOptions())
    && !HasForbidden(Body(text))
    && DistinctNames(Requirements(text))
    && |Requirements(text)| == |ExpectedLines(text)|
    && PROJECT !in NormalizedNames(Requirements(text))
  }

  method ParseLock(text: string) returns (r: Result<Rows, LockError>)
    ensures r.Ok? <==> Accepts(text)
    ensures r.Ok? ==> r.value == RowsOf(Requirements(text))
  {
    var bad := CheckOptions(text, RequiredOptions());
    if bad.Some? {
      return Err(OptionCount(bad.value));
    }
    if HasForbidden(Body(text)) {
      return Err(ForbiddenRequirement);
    }
    r := ParseRows(Requirements(text), |ExpectedLines(text)|);
  }

  /** The rows of the requirements found, all of which must be as many as the lines that need one. */
  method ParseRows(reqs: seq<Requirement>, expected: nat) returns (r: Result<Rows, LockError>)
    ensures r.Ok? <==> DistinctNames(reqs) && |reqs| == expected && PROJECT !in NormalizedNames(reqs)
    ensures r.Ok? ==> r.value == RowsOf(reqs)
  {
    var rows := FillRows(NormalizedNames(reqs), Identities(reqs));
    if rows.Err? {
      return Err(DuplicateRequirement(rows.error));
    }
    DictMapsTo(NormalizedNames(reqs), Identities(reqs));
    if |rows.value| != expected {
      return Err(UnparsedRequirement);
    }
    if PROJECT in rows.value {
      return Err(ContainsProject);
    }
    return Ok(rows.value);
  }
}
