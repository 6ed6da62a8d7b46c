/**
Canonical source distributions (tools/normalize_sdist.py).

An archive is the sequence of its members; tar and gzip encoding are abstracted away.
`NormalForm` is what a successful run leaves in the file.
*/
module SdistNormalize {
  import opened Prelude
  import opened StableSort
  import Text

  datatype Kind =
    | Regular | OldRegular | Contiguous | Sparse
    | HardLink | SymLink | CharDevice | BlockDevice | Directory | Fifo | Other(code: char)

  predicate IsFile(kind: Kind) {
    kind.Regular? || kind.OldRegular? || kind.Contiguous? || kind.Sparse?
  }

  datatype Header = Header(
    name: string, mode: int, uid: int, gid: int, uname: string, gname: string, mtime: int,
    kind: Kind, linkname: string, size: nat, devmajor: int, devminor: int)

  datatype Entry = Entry(header: Header, data: seq<bv8>)

  datatype SdistError = UnsafeMember(name: string) | IoFailure

  /** A regular member carries exactly as many bytes as its header says. */
  predicate WellFormed(e: Entry) {
    match e.header.kind
    case Regular | OldRegular | Contiguous | Sparse => |e.data| == e.header.size
    case _ => true
  }

  /** Relative, without a parent component and without a backslash. */
  predicate SafeName(name: string) {
    !(name != "" && name[0] == '/') && ".." !in Text.Split(name, IsSlash) && '\\' !in name
  }

  predicate AllSafe(archive: seq<Entry>) {
    forall i :: 0 <= i < |archive| ==> SafeName(archive[i].header.name)
  }

  function NormalHeader(h: Header, epoch: int): (r: Header) {
    h.(uid := 0, gid := 0, uname := "", gname := "", mtime := epoch, size := if IsFile(h.kind) then h.size else 0)
  }

  function NormalEntry(e: Entry, epoch: int): (r: Entry) {
    Entry(NormalHeader(e.header, epoch), if IsFile(e.header.kind) then e.data else [])
  }

  function NameOf(e: Entry): string {
    e.header.name
  }

  function NormalEntries(archive: seq<Entry>, epoch: int): (r: seq<Entry>) {
    Map(e => NormalEntry(e, epoch), archive)
  }

  function NormalForm(archive: seq<Entry>, epoch: int): (r: seq<Entry>) {
    Sort(NormalEntries(archive, epoch), NameOf)
  }

  /** A member header object, filled in field by field. */
  class TarInfo {
    var name: string
    var mode: int
    var uid: int
    var gid: int
    var uname: string
    var gname: string
    var mtime: int
    var kind: Kind
    var linkname: string
    var size: nat
    var devmajor: int
    var devminor: int

    function View(): Header
      reads this
    {
      Header(name, mode, uid, gid, uname, gname, mtime, kind, linkname, size, devmajor, devminor)
    }

    constructor (name: string)
      ensures View() == Header(name, 420, 0, 0, "", "", 0, Regular, "", 0, 0, 0)
    {
      this.name, mode, uid, gid, uname, gname := name, 420, 0, 0, "", "";
      mtime, kind, linkname, size, devmajor, devminor := 0, Regular, "", 0, 0, 0;
    }

    constructor FromHeader(h: Header)
      ensures View() == h
    {
      name, mode, uid, gid, uname, gname := h.name, h.mode, h.uid, h.gid, h.uname, h.gname;
      mtime, kind, linkname, size := h.mtime, h.kind, h.linkname, h.size;
      devmajor, devminor := h.devmajor, h.devminor;
    }
  }

  method NormalizedMember(member: TarInfo, epoch: int) returns (r: Result<TarInfo, SdistError>)
    ensures r.Ok? <==> SafeName(member.name)
    ensures r.Ok? ==> fresh(r.value) && r.value.View() == NormalHeader(member.View(), epoch)
    ensures r.Err? ==> r.error == UnsafeMember(member.name)
  {
    if !SafeName(member.name) {
      return Err(UnsafeMember(member.name));
    }
    var result := new TarInfo(member.name);
    result.mode := member.mode;
    result.uid := 0;
    result.gid := 0;
    result.uname := "";
    result.gname := "";
    result.mtime := epoch;
    result.kind := member.kind;
    result.linkname := member.linkname;
    result.size := if IsFile(member.kind) then member.size else 0;
    result.devmajor := member.devmajor;
    result.devminor := member.devminor;
    return Ok(result);
  }

  /**
   The input or output step that raises, if any.  Reading: 0 opens the archive, 1..n read the members.  Writing:
   0 creates the temporary file, 1..n add the members, n+1 closes it, n+2 replaces the archive.
   */
  datatype Fault = NoFault | Reading(at: nat) | Writing(at: nat)

  /** The step is one of those that a run on n members takes. */
  predicate Strikes(fault: Fault, n: nat) {
    (fault.Reading? && fault.at <= n) || (fault.Writing? && fault.at <= n + 2)
  }

  /** The reading loop: the members with their payloads, each header normalized. */
  method ReadMembers(source: seq<Entry>, epoch: int, fault: Fault) returns (r: Result<seq<Entry>, SdistError>)
    ensures r.Ok? <==> AllSafe(source) && !(fault.Reading? && fault.at <= |source|)
    ensures r.Ok? ==> r.value == NormalEntries(source, epoch)
  {
    if fault == Reading(0) {
      return Err(IoFailure);
    }
    var members: seq<Entry> := [];
    for i := 0 to |source|
      invariant |members| == i && (fault.Reading? ==> fault.at > i)
      invariant forall j :: 0 <= j < i ==> SafeName(source[j].header.name)
      invariant forall j :: 0 <= j < i ==> members[j] == NormalEntry(source[j], epoch)
    {
      if fault == Reading(i + 1) {
        return Err(IoFailure);
      }
      var member := new TarInfo.FromHeader(source[i].header);
      var payload := if IsFile(member.kind) then source[i].data else [];
      var normalized := NormalizedMember(member, epoch);
      if normalized.Err? {
        return Err(normalized.error);
      }
      members := members + [Entry(normalized.value.View(), payload)];
    }
    return Ok(members);
  }

  /** The archive file and the temporary file beside it. */
  class SdistFile {
    var entries: seq<Entry>
    var temporary: Option<seq<Entry>>

    ghost predicate Valid()
      reads this
    {
      temporary == None && AllWellFormed(entries)
    }

    constructor (entries: seq<Entry>)
      requires AllWellFormed(entries)
      ensures Valid() && this.entries == entries
    {
      this.entries, temporary := entries, None;
    }

    method Normalize(epoch: int, fault: Fault) returns (r: Result<(), SdistError>)
      requires Valid()
      modifies this
      ensures Valid()
      ensures r.Ok? <==> AllSafe(old(entries)) && !Strikes(fault, |old(entries)|)
      ensures entries == if r.Ok? then NormalForm(old(entries), epoch) else old(entries)
      ensures r.Ok? ==> multiset(entries) == multiset(Map(e => Written(e, epoch), old(entries)))
    {
      var read := ReadMembers(entries, epoch, fault);
      if read.Err? {
        return Err(read.error);
      }
      if fault == Writing(0) {
        return Err(IoFailure);
      }
      var ordered := Sort(read.value, NameOf);
      SortSorted(read.value, NameOf);
      assert |ordered| == |multiset(ordered)| == |entries|;
      NormalFormWellFormed(entries, epoch);
      NormalFormWritesEveryMember(entries, epoch);
      r := WriteAndReplace(ordered, fault);
    }

    /** The guarded part: whatever raises, the temporary file is gone afterwards. */
    method WriteAndReplace(ordered: seq<Entry>, fault: Fault) returns (r: Result<(), SdistError>)
      requires fault != Writing(0)
      modifies this
      ensures r.Ok? <==> !(fault.Writing? && fault.at <= |ordered| + 2)
      ensures entries == (if r.Ok? then ordered else old(entries)) && temporary == None
    {
      temporary := Some([]);
      for i := 0 to |ordered|
        invariant temporary == Some(ordered[..i]) && entries == old(entries)
        invariant fault.Writing? ==> fault.at > i
      {
        if fault == Writing(i + 1) {
          temporary := None;
          return Err(IoFailure);
        }
        assert ordered[..i + 1] == ordered[..i] + [ordered[i]];
        temporary := Some(temporary.value + [ordered[i]]);
      }
      if fault == Writing(|ordered| + 1) || fault == Writing(|ordered| + 2) {
        temporary := None;
        return Err(IoFailure);
      }
      entries, temporary := temporary.value, None;
      return Ok(());
    }
  }

  // ---- What normalization keeps, and what it forgets

  /** Everything about a member except owner and time. */
  datatype Content = Content(
    name: string, mode: int, kind: Kind, linkname: string, devmajor: int, devminor: int, payload: Option<seq<bv8>>)

  function ContentOf(e: Entry): Content {
    var h := e.header;
    Content(h.name, h.mode, h.kind, h.linkname, h.devmajor, h.devminor,
            if IsFile(h.kind) then Some(e.data) else None)
  }

  ghost predicate AllWellFormed(archive: seq<Entry>) {
    forall i :: 0 <= i < |archive| ==> WellFormed(archive[i])
  }

  function Contents(archive: seq<Entry>): (r: seq<Content>) {
    Map(ContentOf, archive)
  }

  /** The normal member with given contents. */
  function FromContent(c: Content, epoch: int): (e: Entry) {
    var data := if c.payload.Some? then c.payload.value else [];
    Entry(Header(c.name, c.mode, 0, 0, "", "", epoch, c.kind, c.linkname, |data|, c.devmajor, c.devminor), data)
  }

  /** Two members become equal exactly when they differ in owner and time only. */
  lemma NormalEntryForgetsOwnerAndTime(x: Entry, y: Entry, epoch: int)
    requires WellFormed(x) && WellFormed(y)
    ensures NormalEntry(x, epoch) == NormalEntry(y, epoch) <==> ContentOf(x) == ContentOf(y)
  {
    assert NormalEntry(x, epoch) == FromContent(ContentOf(x), epoch);
    assert NormalEntry(y, epoch) == FromContent(ContentOf(y), epoch);
  }

  lemma {:induction false} NormalEntriesFromContents(archive: seq<Entry>, epoch: int)
    requires AllWellFormed(archive)
    ensures NormalEntries(archive, epoch) == Map(c => FromContent(c, epoch), Contents(archive))
    ensures Contents(NormalEntries(archive, epoch)) == Contents(archive)
    ensures AllWellFormed(NormalEntries(archive, epoch))
  {
    var es, cs := NormalEntries(archive, epoch), Contents(archive);
    forall i | 0 <= i < |archive| ensures es[i] == FromContent(cs[i], epoch) && ContentOf(es[i]) == cs[i] {
      assert WellFormed(archive[i]);
    }
  }

  lemma NormalFormWellFormed(archive: seq<Entry>, epoch: int)
    requires AllWellFormed(archive)
    ensures AllWellFormed(NormalForm(archive, epoch))
  {
    var es := NormalEntries(archive, epoch);
    NormalEntriesFromContents(archive, epoch);
    SortSorted(es, NameOf);
    forall i | 0 <= i < |Sort(es, NameOf)| ensures WellFormed(Sort(es, NameOf)[i]) {
      assert Sort(es, NameOf)[i] in multiset(es);
    }
  }

  /** A written member, field by field: only the four kinds of files have a payload. */
  function Written(e: Entry, epoch: int): (w: Entry) {
    var h := e.header;
    match h.kind
    case Regular | OldRegular | Contiguous | Sparse =>
      Entry(Header(h.name, h.mode, 0, 0, "", "", epoch, h.kind, h.linkname, |e.data|, h.devmajor, h.devminor), e.data)
    case HardLink | SymLink | CharDevice | BlockDevice | Directory | Fifo | Other(_) =>
      Entry(Header(h.name, h.mode, 0, 0, "", "", epoch, h.kind, h.linkname, 0, h.devmajor, h.devminor), [])
  }

  /** What is in the output, multiplicities included: every member written out with its own payload. */
  lemma {:induction false} NormalFormWritesEveryMember(archive: seq<Entry>, epoch: int)
    requires AllWellFormed(archive)
    ensures multiset(NormalForm(archive, epoch)) == multiset(Map(e => Written(e, epoch), archive))
  {
    var es, ws := NormalEntries(archive, epoch), Map(e => Written(e, epoch), archive);
    forall i | 0 <= i < |archive| ensures es[i] == ws[i] {
      assert WellFormed(archive[i]);
    }
    assert es == ws;
    SortSorted(es, NameOf);
  }

  /** A member that is a file comes out with its data, as often as it is there; any other comes out empty. */
  lemma {:induction false} FilesKeepTheirData(archive: seq<Entry>, epoch: int, i: nat)
    requires AllWellFormed(archive) && i < |archive|
    ensures var h, data := archive[i].header, archive[i].data;
      exists w :: w in NormalForm(archive, epoch)
        && w.header.name == h.name && w.header.kind == h.kind && w.header.mode == h.mode
        && w.header.linkname == h.linkname && w.header.size == |w.data|
        && w.data == if h.kind == Regular || h.kind == OldRegular || h.kind == Contiguous || h.kind == Sparse
                     then data else []
  {
    NormalFormWritesEveryMember(archive, epoch);
    WrittenIsMember(archive, NormalForm(archive, epoch), epoch, i);
    var w := Written(archive[i], epoch);
    assert w in NormalForm(archive, epoch);
  }

  lemma {:induction false} WrittenIsMember(archive: seq<Entry>, output: seq<Entry>, epoch: int, i: nat)
    requires multiset(output) == multiset(Map(e => Written(e, epoch), archive)) && i < |archive|
    ensures Written(archive[i], epoch) in output
  {
    var ws := Map(e => Written(e, epoch), archive);
    assert ws[i] == Written(archive[i], epoch);
    assert ws[i] in multiset(ws);
    assert ws[i] in multiset(output);
  }

  // ---- Which names are safe

  predicate IsSlash(c: char) {
    c == '/'
  }

  /** Two dots at `i` that are a whole component. */
  predicate ParentAt(name: string, i: nat) {
    && i + 2 <= |name| && name[i] == '.' && name[i + 1] == '.'
    && (i == 0 || name[i - 1] == '/') && (i + 2 == |name| || name[i + 2] == '/')
  }

  lemma SafeNameExactly(name: string)
    ensures SafeName(name)
       <==> (name != "" ==> name[0] != '/') && (forall i :: 0 <= i < |name| ==> name[i] != '\\')
            && forall i: nat :: !ParentAt(name, i)
  {
    Text.PieceExactly(name, IsSlash, "..");
    if i: nat :| ParentAt(name, i) {
      assert name[i..i + 2] == "..";
      assert Text.PieceAt(name, IsSlash, "..", i);
    }
    if i: nat :| Text.PieceAt(name, IsSlash, "..", i) {
      assert name[i..i + 2][0] == name[i] && name[i..i + 2][1] == name[i + 1];
      assert ParentAt(name, i);
    }
  }

  /** Conservation: the written archive has the same members, contents and multiplicities included. */
  lemma NormalFormConserves(archive: seq<Entry>, epoch: int)
    requires AllWellFormed(archive)
    ensures multiset(Contents(NormalForm(archive, epoch))) == multiset(Contents(archive))
    ensures Sorted(NormalForm(archive, epoch), NameOf)
  {
    var es := NormalEntries(archive, epoch);
    NormalEntriesFromContents(archive, epoch);
    SortSorted(es, NameOf);
    MapMultiset(ContentOf, Sort(es, NameOf), es);
  }

  /** The outputs agree exactly when, name by name, the members have the same contents in the same order. */
  lemma NormalFormCanonical(a: seq<Entry>, b: seq<Entry>, epoch: int)
    ensures NormalForm(a, epoch) == NormalForm(b, epoch)
       <==> SameGroups(NormalEntries(a, epoch), NormalEntries(b, epoch), NameOf)
  {
    SortCanonical(NormalEntries(a, epoch), NormalEntries(b, epoch), NameOf);
  }

  /** With distinct names, member order, owners and times leave no trace; nothing else is lost. */
  lemma NormalFormIgnoresOrder(a: seq<Entry>, b: seq<Entry>, epoch: int)
    requires AllWellFormed(a) && AllWellFormed(b)
    requires DistinctKeys(a, NameOf)
    ensures NormalForm(a, epoch) == NormalForm(b, epoch) <==> multiset(Contents(a)) == multiset(Contents(b))
  {
    if multiset(Contents(a)) == multiset(Contents(b)) {
      NormalEntriesFromContents(a, epoch);
      NormalEntriesFromContents(b, epoch);
      MapMultiset(c => FromContent(c, epoch), Contents(a), Contents(b));
      DistinctKeysSort(NormalEntries(a, epoch), NormalEntries(b, epoch), NameOf);
    }
    NormalFormConserves(a, epoch);
    NormalFormConserves(b, epoch);
  }

  /** Normalizing again is the same as normalizing once at the last epoch, repeated names included. */
  lemma NormalFormIdempotent(archive: seq<Entry>, first: int, last: int)
    ensures NormalForm(NormalForm(archive, first), last) == NormalForm(archive, last)
  {
    var f := (e: Entry) => NormalEntry(e, last);
    var es := NormalEntries(archive, first);
    assert Map(f, es) == NormalEntries(archive, last);
    SortMap(es, NameOf, f);
    SortSorted(NormalEntries(archive, last), NameOf);
    SortOfSorted(NormalForm(archive, last), NameOf);
  }

  function EmptyDirectory(name: string, mode: int, epoch: int): Entry {
    Entry(Header(name, mode, 0, 0, "", "", epoch, Directory, "", 0, 0, 0), [])
  }

  lemma SameNameOrderKept(x: Entry, y: Entry, epoch: int)
    requires NameOf(x) == NameOf(y) && NormalEntry(x, epoch) == x && NormalEntry(y, epoch) == y
    ensures NormalForm([x, y], epoch) == [x, y]
  {
    LeqTotal(NameOf(x), NameOf(x));
    assert NormalEntries([x, y], epoch) == [x, y];
    SortOfSorted([x, y], NameOf);
  }

  /** Without distinct names the order does matter: two directories of one name and different mode. */
  lemma RepeatedNameKeepsOrder(epoch: int)
    ensures var x, y := EmptyDirectory("d", 1, epoch), EmptyDirectory("d", 2, epoch);
            multiset(Contents([x, y])) == multiset(Contents([y, x]))
            && NormalForm([x, y], epoch) != NormalForm([y, x], epoch)
  {
    var x, y := EmptyDirectory("d", 1, epoch), EmptyDirectory("d", 2, epoch);
    SameNameOrderKept(x, y, epoch);
    SameNameOrderKept(y, x, epoch);
    assert [x, y][0] == x && [y, x][0] == y && x.header.mode == 1 && y.header.mode == 2;
    MapMultiset(ContentOf, [x, y], [y, x]);
  }
}
