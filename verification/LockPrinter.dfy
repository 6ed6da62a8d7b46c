/**
The lock-file printer and the resolver report it prints (tools/build_dependency_locks.py).
*/
module LockPrinter {
  import opened Prelude
  import opened Text
  import opened LockNames
  import opened LockParser
  import LockSoundness
  import StableSort

  datatype Package = Package(name: string, version: string, index: string, sha256: string)

  // ---- parse_report

  /**
   One item of the report's install list: the parsed URL, whether VCS or directory information is present, the
   file name, and the two places where a digest may stand.
   */
  datatype ReportItem = ReportItem(
    name: string, version: string, scheme: string, host: string, vcsOrDirectory: bool, filename: string,
    sha256: Option<string>, hash: Option<string>)

  datatype ReportError =
    | WrongPython
    | DuplicatePackage(name: string)
    | ContainsProject
    | UnapprovedUrl(name: string)
    | VcsRequirement(name: string)
    | NotAWheel(name: string)
    | MissingDigest(name: string)
    | WrongTorch

  const PYPI_HOST := "files.pythonhosted.org"
  const PYTORCH_HOSTS: seq<string> := ["download.pytorch.org", "download-r2.pytorch.org"]
  const TORCH_VERSION := "2.11.0+cpu"

  predicate AllowedHost(host: string) {
    host == PYPI_HOST || host in PYTORCH_HOSTS
  }

  function IndexName(host: string): string
    requires AllowedHost(host)
  {
    if host == PYPI_HOST then "pypi" else "pytorch_cpu"
  }

  predicate EndsWith(s: string, suffix: string) {
    |suffix| <= |s| && s[|s| - |suffix|..] == suffix
  }

  predicate IsNoEquals(c: char) {
    c != '='
  }

  /** The digest of an item: the hashes table first, then an `algorithm=value` string for SHA-256. */
  function DigestOf(item: ReportItem): (r: Option<string>) {
    if item.sha256.Some? then item.sha256
    else if item.hash == None then None
    else
      var n := Span(item.hash.value, IsNoEquals);
      if n < |item.hash.value| && item.hash.value[..n] == "sha256" then Some(item.hash.value[n + 1..]) else None
  }

  /** A digest comes from the hashes table, or without one from a string that spells `sha256=` and the digest. */
  lemma DigestExactly(item: ReportItem, digest: string)
    ensures DigestOf(item) == Some(digest)
       <==> item.sha256 == Some(digest) || (item.sha256 == None && item.hash == Some("sha256=" + digest))
  {
    if item.sha256 == None && item.hash.Some? {
      var h := item.hash.value;
      var n := Span(h, IsNoEquals);
      if h == "sha256=" + digest {
        LockSoundness.SpanExact("sha256", "=" + digest, IsNoEquals);
        assert h == "sha256" + ("=" + digest);
      }
      if n < |h| && h[..n] == "sha256" {
        assert h == h[..n] + [h[n]] + h[n + 1..];
      }
    }
  }

  /** The checks on one item, in order, once its name is known to be new. */
  function CheckItem(item: ReportItem): (r: Result<Package, ReportError>) {
    var name := Canonical(item.name);
    var digest := DigestOf(item);
    if name == PROJECT then Err(ReportError.ContainsProject)
    else if item.scheme != "https" || !AllowedHost(item.host) then Err(UnapprovedUrl(name))
    else if item.vcsOrDirectory then Err(VcsRequirement(name))
    else if !EndsWith(item.filename, ".whl") then Err(NotAWheel(name))
    else if digest == None || !IsDigest(digest.value) then Err(MissingDigest(name))
    else Ok(Package(name, item.version, IndexName(item.host), digest.value))
  }

  /**
   An item passes exactly with a wheel that an approved host serves over https and a SHA-256 digest; the package
   has the normalized name, the version as it is, the index of the host and that digest.
   */
  lemma CheckedItem(item: ReportItem, p: Package)
    ensures CheckItem(item) == Ok(p) <==>
      && Canonical(item.name) != "tt-transformers" && item.scheme == "https" && !item.vcsOrDirectory
      && item.host in {"files.pythonhosted.org", "download.pytorch.org", "download-r2.pytorch.org"}
      && |item.filename| >= 4 && item.filename[|item.filename| - 4..] == ".whl"
      && (item.sha256 == Some(p.sha256) || (item.sha256 == None && item.hash == Some("sha256=" + p.sha256)))
      && |p.sha256| == 64
      && (forall i :: 0 <= i < 64 ==> '0' <= p.sha256[i] <= '9' || 'a' <= p.sha256[i] <= 'f')
      && p.name == Canonical(item.name) && p.version == item.version
      && p.index == if item.host == "files.pythonhosted.org" then "pypi" else "pytorch_cpu"
  {
    DigestExactly(item, p.sha256);
    assert AllowedHost(item.host) <==>
      item.host in {"files.pythonhosted.org", "download.pytorch.org", "download-r2.pytorch.org"};
  }

  function NameOf(p: Package): string {
    p.name
  }

  function PackageNames(packages: seq<Package>): (r: seq<string>)
    ensures |r| == |packages|
  {
    Map(NameOf, packages)
  }

  /** What every report that passes guarantees about its packages. */
  ghost predicate Reported(packages: seq<Package>) {
    && Distinct(PackageNames(packages))
    && forall i :: 0 <= i < |packages| ==>
         IsCanonical(packages[i].name) && packages[i].name != PROJECT && IsDigest(packages[i].sha256)
  }

  ghost predicate AllChecked(items: seq<ReportItem>, packages: seq<Package>) {
    |packages| == |items| && forall i :: 0 <= i < |items| ==> CheckItem(items[i]) == Ok(packages[i])
  }

  /** The reading loop: every item is checked, and no normalized name comes twice. */
  method ReadItems(items: seq<ReportItem>) returns (r: Result<seq<Package>, ReportError>)
    ensures r.Ok? ==> AllChecked(items, r.value) && Reported(r.value)
    ensures r.Err? ==> forall packages :: !(AllChecked(items, packages) && Reported(packages))
  {
    var packages: seq<Package> := [];
    var names: set<string> := {};
    for i := 0 to |items|
      invariant AllChecked(items[..i], packages) && Reported(packages)
      invariant SameNames(names, packages)
    {
      var name := Canonical(items[i].name);
      var checked := CheckItem(items[i]);
      if name in names {
        RepeatedName(items, packages, i);
        return Err(DuplicatePackage(name));
      }
      names := names + {name};
      if checked.Err? {
        return Err(checked.error);
      }
      ReadStep(items, packages, names, i, checked.value);
      packages := packages + [checked.value];
    }
    assert items[..|items|] == items;
    return Ok(packages);
  }

  ghost predicate SameNames(names: set<string>, packages: seq<Package>) {
    forall n :: n in names <==> n in PackageNames(packages)
  }

  /** One item more. */
  lemma {:induction false} ReadStep(
    items: seq<ReportItem>, packages: seq<Package>, names: set<string>, i: nat, p: Package)
    requires i < |items| && AllChecked(items[..i], packages) && Reported(packages)
    requires CheckItem(items[i]) == Ok(p) && p.name !in PackageNames(packages)
    requires SameNames(names - {p.name}, packages) && p.name in names
    ensures AllChecked(items[..i + 1], packages + [p]) && Reported(packages + [p])
    ensures SameNames(names, packages + [p])
  {
    assert items[..i + 1] == items[..i] + [items[i]];
    ReportedExtend(items[i], packages, p);
    MapAppend(NameOf, packages, [p]);
  }

  lemma {:induction false} RepeatedName(items: seq<ReportItem>, packages: seq<Package>, i: nat)
    requires i < |items| && AllChecked(items[..i], packages)
    requires Canonical(items[i].name) in PackageNames(packages)
    ensures forall all :: !(AllChecked(items, all) && Reported(all))
  {
    var j :| 0 <= j < i && PackageNames(packages)[j] == Canonical(items[i].name);
    forall all | AllChecked(items, all) ensures !Reported(all) {
      assert CheckItem(items[..i][j]) == Ok(packages[j]) == Ok(all[j]);
      assert CheckItem(items[i]) == Ok(all[i]);
      assert PackageNames(all)[j] == PackageNames(all)[i];
    }
  }

  lemma ReportedExtend(item: ReportItem, packages: seq<Package>, p: Package)
    requires Reported(packages) && CheckItem(item) == Ok(p) && p.name !in PackageNames(packages)
    ensures Reported(packages + [p])
  {
    CanonicalIsCanonical(item.name);
    MapAppend(NameOf, packages, [p]);
    assert PackageNames(packages + [p]) == PackageNames(packages) + [p.name];
  }

  /** `require_torch`: exactly one torch package, the CPU build from the CPU index. */
  predicate TorchOk(packages: seq<Package>) {
    (exists i :: 0 <= i < |packages| && packages[i].name == "torch")
    && forall i :: 0 <= i < |packages| && packages[i].name == "torch" ==>
         packages[i].version == TORCH_VERSION && packages[i].index == "pytorch_cpu"
  }

  /** With distinct names, `require_torch` asks for one package. */
  lemma TorchExactly(packages: seq<Package>)
    requires Reported(packages)
    ensures TorchOk(packages) <==>
      exists i :: 0 <= i < |packages| && packages[i].name == "torch" && packages[i].version == "2.11.0+cpu"
                  && packages[i].index == "pytorch_cpu"
  {
    var names := PackageNames(packages);
    assert forall i :: 0 <= i < |packages| ==> names[i] == packages[i].name;
    if i :| 0 <= i < |packages| && packages[i].name == "torch" {
      forall j | 0 <= j < |packages| && packages[j].name == "torch" ensures j == i {
        assert names[i] == names[j];
      }
    }
  }

  method ParseReport(items: seq<ReportItem>, actualPython: string, expectedPython: string, requireTorch: bool)
    returns (r: Result<seq<Package>, ReportError>)
    ensures r.Ok? ==> Reported(r.value) && StableSort.Sorted(r.value, NameOf)
    ensures r.Ok? ==> exists packages :: AllChecked(items, packages) && multiset(packages) == multiset(r.value)
    ensures r.Ok? ==> forall i, j :: 0 <= i < j < |r.value| ==>
      r.value[i].name != r.value[j].name && StableSort.Leq(r.value[i].name, r.value[j].name)
    ensures r.Ok? ==> actualPython == expectedPython && (requireTorch ==> TorchOk(r.value))
    ensures r.Err? && actualPython == expectedPython ==>
      forall packages | AllChecked(items, packages) && Reported(packages) :: requireTorch && !TorchOk(packages)
  {
    if actualPython != expectedPython {
      return Err(WrongPython);
    }
    var read := ReadItems(items);
    if read.Err? {
      return Err(read.error);
    }
    var packages := StableSort.Sort(read.value, NameOf);
    StableSort.SortSorted(read.value, NameOf);
    ReportedSorted(read.value);
    if requireTorch && !TorchOk(packages) {
      TorchOkPermuted(read.value, packages);
      forall all | AllChecked(items, all) && Reported(all) ensures all == read.value {
        CheckedUnique(items, all, read.value);
      }
      return Err(WrongTorch);
    }
    return Ok(packages);
  }

  lemma TorchOkPermuted(a: seq<Package>, b: seq<Package>)
    requires multiset(a) == multiset(b)
    ensures TorchOk(a) ==> TorchOk(b)
  {
    assert forall i :: 0 <= i < |a| ==> a[i] in multiset(b);
    assert forall i :: 0 <= i < |b| ==> b[i] in multiset(a);
  }

  lemma CheckedUnique(items: seq<ReportItem>, a: seq<Package>, b: seq<Package>)
    requires AllChecked(items, a) && AllChecked(items, b)
    ensures a == b
  {
    forall i | 0 <= i < |a| ensures a[i] == b[i] {
      assert Ok(a[i]) == CheckItem(items[i]) == Ok(b[i]);
    }
  }

  /** Sorting keeps the guarantees. */
  lemma ReportedSorted(packages: seq<Package>)
    requires Reported(packages)
    ensures Reported(StableSort.Sort(packages, NameOf))
  {
    var sorted := StableSort.Sort(packages, NameOf);
    StableSort.SortSorted(packages, NameOf);
    forall i | 0 <= i < |sorted|
      ensures IsCanonical(sorted[i].name) && sorted[i].name != PROJECT && IsDigest(sorted[i].sha256)
    {
      assert sorted[i] in multiset(packages);
    }
    MapMultiset(NameOf, sorted, packages);
    DistinctByMultiset(PackageNames(packages), PackageNames(sorted));
  }

  lemma DistinctByMultiset<T>(a: seq<T>, b: seq<T>)
    requires Distinct(a) && multiset(a) == multiset(b)
    ensures Distinct(b)
  {
    forall i, j | 0 <= i < j < |b| ensures b[i] != b[j] {
      assert b == b[..i] + [b[i]] + b[i + 1..j] + [b[j]] + b[j + 1..];
      if b[i] == b[j] {
        assert multiset(b)[b[i]] >= 2;
        AtMostOnce(a, b[i]);
      }
    }
  }

  lemma {:induction false} AtMostOnce<T>(a: seq<T>, x: T)
    requires Distinct(a)
    ensures multiset(a)[x] <= 1
  {
    if a != [] {
      assert a == [a[0]] + a[1..];
      AtMostOnce(a[1..], x);
      if a[0] == x {
        assert x !in a[1..];
      }
    }
  }

  // ---- lock_text

  /** The two comment lines and the options; long literals are sums of shorter ones, as in `LockParser`. */
  function Header(python: string, group: string): (lines: seq<string>) {
    ["# Hash-complete" + " " + group + " " + "dependency lock for CPython" + " " + python + " " + "x86-64 Linux.",
     "# Generated from pip's" + " " + "target-interpreter" + " " + "resolver report;" + " "
     + "do not add tt-transformers.",
     INDEX_URL, EXTRA_INDEX_URL, ONLY_BINARY, REQUIRE_HASHES, ""]
  }

  function PackageLines(packages: seq<Package>): (lines: seq<string>) {
    if packages == [] then []
    else [FirstLine(packages[0].name, packages[0].version), HASH_PREFIX + packages[0].sha256]
         + PackageLines(packages[1..])
  }

  /** Two lines a package, in order. */
  lemma {:induction false} PackageLinesAt(packages: seq<Package>, i: nat)
    requires i < |packages|
    ensures var lines, p := PackageLines(packages), packages[i];
      && |lines| == 2 * |packages|
      && lines[2 * i] == p.name + "==" + p.version + " \\" && lines[2 * i + 1] == "    --hash=sha256:" + p.sha256
  {
    PackageLinesLength(packages);
    PackageLinesLength(packages[1..]);
    if i > 0 {
      PackageLinesAt(packages[1..], i - 1);
    }
  }

  lemma {:induction false} PackageLinesLength(packages: seq<Package>)
    ensures |PackageLines(packages)| == 2 * |packages|
  {
    if packages != [] {
      PackageLinesLength(packages[1..]);
    }
  }

  /** The text of a lock: every line ends in a newline. */
  function PrintedLock(python: string, group: string, packages: seq<Package>): (text: string) {
    Unlines(Header(python, group) + PackageLines(packages))
  }

  lemma {:induction false} PackageLinesAppend(a: seq<Package>, b: seq<Package>)
    ensures PackageLines(a + b) == PackageLines(a) + PackageLines(b)
  {
    if a == [] {
      assert a + b == b;
    } else {
      PackageLinesAppend(a[1..], b);
      assert (a + b)[0] == a[0] && (a + b)[1..] == a[1..] + b;
      var two := [FirstLine(a[0].name, a[0].version), HASH_PREFIX + a[0].sha256];
      assert two + (PackageLines(a[1..]) + PackageLines(b)) == (two + PackageLines(a[1..])) + PackageLines(b);
    }
  }

  method LockText(python: string, group: string, packages: seq<Package>) returns (text: string)
    ensures text == PrintedLock(python, group, packages)
  {
    var lines := Header(python, group);
    for i := 0 to |packages|
      invariant lines == Header(python, group) + PackageLines(packages[..i])
    {
      PackageLinesAppend(packages[..i], [packages[i]]);
      assert packages[..i + 1] == packages[..i] + [packages[i]];
      lines := lines + [packages[i].name + "==" + packages[i].version + " \\"];
      lines := lines + ["    --hash=sha256:" + packages[i].sha256];
    }
    assert packages[..|packages|] == packages;
    JoinWithNewline(lines);
    text := Join(lines, '\n') + "\n";
  }
}
