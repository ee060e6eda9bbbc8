/**
 * The tar archive builder of backup/archive.go.
 *
 * `CreateArchive` turns an ordered list of entries into an ordered stream of
 * tar records, each a header followed by its payload.  The byte encoding of
 * the headers (ustar/pax) is left to the tar library and is not modelled: a
 * record keeps the header fields the program sets.  The filesystem is an
 * abstract tree, and the `TarWriter` class stands for the `tar.Writer` the
 * program appends to step by step.
 */
module Archive {
  import opened Wrappers
  import opened Paths

  /** Permission given to an in-memory entry whose mode is zero (0644). */
  const DefaultMode: nat := 0x1A4

  /**
   * An `ArchiveEntry`: `data` is `Some` for an in-memory entry (even an empty
   * one) and `None` for an entry read from `path` on disk.
   */
  datatype Entry = Entry(name: string, data: Option<Bytes>, path: string, mode: nat)

  // ---------------------------------------------------------------------
  // The filesystem
  // ---------------------------------------------------------------------

  /**
   * Which filesystem operation on a node fails: reading its metadata
   * (`os.Stat`, or `DirEntry.Info` inside a walk), building its tar header
   * (`tar.FileInfoHeader`, which refuses sockets), opening it, copying its
   * bytes, or listing it.
   */
  datatype Fault = Healthy | StatFails | HeaderFails | OpenFails | CopyFails | ReadDirFails

  datatype FileInfo = FileInfo(perm: nat, fault: Fault)

  datatype Node =
    | File(info: FileInfo, content: Bytes)
    | Dir(info: FileInfo, children: seq<Child>)

  datatype Child = Child(name: string, node: Node)

  /** The nodes reachable by path. */
  type Disk = map<string, Node>

  /** `os.Stat(path)`. */
  function StatPath(disk: Disk, path: string): (r: Result<Node>)
    ensures r.Err? <==> path !in disk || disk[path].info.fault == StatFails
    ensures r.Err? ==> (r.error == NotExist <==> path !in disk)
    ensures r.Ok? ==> r.value == disk[path]
  {
    if path !in disk then Err(NotExist)
    else if disk[path].info.fault == StatFails then Err(Failed(Op.Stat))
    else Ok(disk[path])
  }

  // ---------------------------------------------------------------------
  // Directory listings come back sorted by name
  // ---------------------------------------------------------------------

  /**
   * Lexicographic order on names.  Comparing code points gives the same
   * order as comparing the UTF-8 bytes the program compares.
   */
  predicate NameLe(a: string, b: string) {
    a == [] || (b != [] && (a[0] < b[0] || (a[0] == b[0] && NameLe(a[1..], b[1..]))))
  }

  lemma {:induction false} NameLeTotal(a: string, b: string)
    ensures NameLe(a, b) || NameLe(b, a)
  {
    if a != [] && b != [] && a[0] == b[0] {
      NameLeTotal(a[1..], b[1..]);
    }
  }

  lemma {:induction false} NameLeTransitive(a: string, b: string, c: string)
    requires NameLe(a, b) && NameLe(b, c)
    ensures NameLe(a, c)
  {
    if a != [] && b != [] && c != [] && a[0] == b[0] && b[0] == c[0] {
      NameLeTransitive(a[1..], b[1..], c[1..]);
    }
  }

  predicate SortedByName(cs: seq<Child>) {
    forall i, j | 0 <= i < j < |cs| :: NameLe(cs[i].name, cs[j].name)
  }

  /** Inserts `c` before the first name it does not follow. */
  function InsertByName(c: Child, cs: seq<Child>): (r: seq<Child>)
    ensures multiset(r) == multiset(cs) + multiset{c}
  {
    if cs == [] then [c]
    else if NameLe(c.name, cs[0].name) then [c] + cs
    else
      assert cs == [cs[0]] + cs[1..];
      [cs[0]] + InsertByName(c, cs[1..])
  }

  lemma {:induction false} InsertKeepsSorted(c: Child, cs: seq<Child>)
    requires SortedByName(cs)
    ensures SortedByName(InsertByName(c, cs))
  {
    if cs == [] {
    } else if NameLe(c.name, cs[0].name) {
      forall j | 1 <= j < |cs| ensures NameLe(c.name, cs[j].name) {
        NameLeTransitive(c.name, cs[0].name, cs[j].name);
      }
    } else {
      NameLeTotal(c.name, cs[0].name);
      var rest := InsertByName(c, cs[1..]);
      InsertKeepsSorted(c, cs[1..]);
      forall j | 0 <= j < |rest| ensures NameLe(cs[0].name, rest[j].name) {
        assert rest[j] in multiset(rest);
        if rest[j] != c {
          assert rest[j] in cs[1..];
          var k :| 1 <= k < |cs| && cs[k] == rest[j];
        }
      }
    }
  }

  /** The listing `os.ReadDir` hands to the walk: the children sorted by name. */
  function SortByName(cs: seq<Child>): (r: seq<Child>)
    ensures multiset(r) == multiset(cs)
    ensures forall c | c in r :: c in cs
    ensures SortedByName(r)
  {
    if cs == [] then []
    else
      assert cs == [cs[0]] + cs[1..];
      var rest := SortByName(cs[1..]);
      InsertKeepsSorted(cs[0], rest);
      var r := InsertByName(cs[0], rest);
      assert forall c | c in r :: c in multiset(r);
      r
  }

  // ---------------------------------------------------------------------
  // Records and the traces the writers produce
  // ---------------------------------------------------------------------

  datatype Kind = Regular | Directory

  /** The header fields the program determines; the modification time is left out. */
  datatype Header = Header(name: string, kind: Kind, mode: nat, size: nat)

  /** One archive member: its header and the bytes written after it. */
  datatype Record = Record(header: Header, payload: Bytes)

  /** The records an operation appends and the error it returns, if any. */
  datatype Trace = Trace(records: seq<Record>, err: Option<Error>)

  const WriteHeaderError: Error := Wrapped("writing header", Failed(Op.WriteHeader))

  /** writeMemoryEntry. */
  function MemoryTrace(accepts: Header -> bool, e: Entry): (r: Trace)
    requires e.data.Some?
    ensures r.err.None? ==> |r.records| == 1 && r.records[0].header.name == e.name
                            && r.records[0].header.size == |e.data.value| && r.records[0].payload == e.data.value
    ensures r.err.Some? ==> r.records == [] && r.err == Some(WriteHeaderError)
  {
    var h := Header(e.name, Regular, if e.mode == 0 then DefaultMode else e.mode, |e.data.value|);
    if accepts(h) then Trace([Record(h, e.data.value)], None)
    else Trace([], Some(WriteHeaderError))
  }

  /** `tar.FileInfoHeader(info, "")` with its name replaced by `name`. */
  function InfoHeader(name: string, node: Node): (r: Result<Header>)
    ensures r.Err? <==> node.info.fault == HeaderFails
    ensures r.Ok? ==> && r.value.name == name && r.value.mode == node.info.perm
                      && (r.value.kind == Directory <==> node.Dir?)
                      && r.value.size == (if node.File? then |node.content| else 0)
  {
    if node.info.fault == HeaderFails then Err(Wrapped("creating header", Failed(Op.MakeHeader)))
    else if node.File? then Ok(Header(name, Regular, node.info.perm, |node.content|))
    else Ok(Header(name, Directory, node.info.perm, 0))
  }

  /** Opening a regular file and copying it after its header `h`. */
  function CopyTrace(h: Header, node: Node): (r: Trace)
    requires node.File?
    ensures |r.records| == 1 && r.records[0].header == h
    ensures r.err.None? <==> node.info.fault != OpenFails && node.info.fault != CopyFails
    ensures r.records[0].payload == if r.err.None? then node.content else []
  {
    if node.info.fault == OpenFails then Trace([Record(h, [])], Some(Wrapped("opening file", Failed(Op.Open))))
    else if node.info.fault == CopyFails then Trace([Record(h, [])], Some(Wrapped("copying data", Failed(Op.Copy))))
    else Trace([Record(h, node.content)], None)
  }

  /**
   * One node of a walk archived as `name`, followed by its descendants.  A
   * regular file archived on its own (writeFileEntry) is the same steps with
   * `checkInfo` false: its metadata was already read by `os.Stat`; so is the
   * root of a walk, whose metadata comes from `os.Lstat`.
   */
  function VisitTrace(accepts: Header -> bool, name: string, node: Node, checkInfo: bool): (r: Trace)
    ensures r.err.None? ==> r.records != [] && r.records[0].header.name == name
                            && (r.records[0].header.kind == Directory <==> node.Dir?)
    decreases node, 1, 0
  {
    if checkInfo && node.info.fault == StatFails then
      Trace([], Some(Wrapped("getting file info", Failed(Op.Info))))
    else match InfoHeader(name, node)
      case Err(e) => Trace([], Some(e))
      case Ok(h) =>
        if !accepts(h) then Trace([], Some(WriteHeaderError))
        else if node.File? then CopyTrace(h, node)
        else if node.info.fault == ReadDirFails then Trace([Record(h, [])], Some(Failed(Op.ReadDir)))
        else
          var ct := ChildrenTrace(accepts, node, name, SortByName(node.children));
          Trace([Record(h, [])] + ct.records, ct.err)
  }

  /** The children `cs` of directory `parent`, archived below `dirName` one after another. */
  function ChildrenTrace(accepts: Header -> bool, parent: Node, dirName: string, cs: seq<Child>): (r: Trace)
    requires parent.Dir? && forall c | c in cs :: c in parent.children
    ensures r.err.None? ==> |r.records| >= |cs|
    decreases parent, 0, |cs|
  {
    if cs == [] then Trace([], None)
    else
      var pre := ChildrenTrace(accepts, parent, dirName, cs[..|cs| - 1]);
      if pre.err.Some? then pre
      else
        var last := cs[|cs| - 1];
        assert last in cs;
        var t := VisitTrace(accepts, Join(dirName, last.name), last.node, true);
        Trace(pre.records + t.records, t.err)
  }

  /** writeDiskEntry. */
  function DiskTrace(accepts: Header -> bool, disk: Disk, e: Entry): (r: Trace)
    ensures StatPath(disk, e.path).Err?
            ==> r == Trace([], Some(Wrapped("stat " + e.path, StatPath(disk, e.path).error)))
    ensures r.err.None? ==> r.records != [] && r.records[0].header.name == e.name
  {
    match StatPath(disk, e.path)
    case Err(err) => Trace([], Some(Wrapped("stat " + e.path, err)))
    case Ok(node) => VisitTrace(accepts, e.name, node, false)
  }

  /** writeEntry. */
  function EntryTrace(accepts: Header -> bool, disk: Disk, e: Entry): (r: Trace)
    ensures r.err.None? ==> r.records != [] && r.records[0].header.name == e.name
  {
    if e.data.Some? then MemoryTrace(accepts, e) else DiskTrace(accepts, disk, e)
  }

  /** CreateArchive, entry after entry, stopping at the first error. */
  function ArchiveTrace(accepts: Header -> bool, disk: Disk, entries: seq<Entry>): (r: Trace)
    ensures r.err.None? ==> |r.records| >= |entries|
  {
    if entries == [] then Trace([], None)
    else
      var pre := ArchiveTrace(accepts, disk, entries[..|entries| - 1]);
      if pre.err.Some? then pre
      else
        var last := entries[|entries| - 1];
        var t := EntryTrace(accepts, disk, last);
        Trace(pre.records + t.records,
              if t.err.Some? then Some(Wrapped("writing " + last.name, t.err.value)) else None)
  }

  // ---------------------------------------------------------------------
  // Properties of the record stream
  // ---------------------------------------------------------------------

  /** The records of each entry, concatenated in input order. */
  function AllRecords(accepts: Header -> bool, disk: Disk, es: seq<Entry>): seq<Record> {
    if es == [] then [] else EntryTrace(accepts, disk, es[0]).records + AllRecords(accepts, disk, es[1..])
  }

  lemma {:induction false} AllRecordsSnoc(accepts: Header -> bool, disk: Disk, es: seq<Entry>, e: Entry)
    ensures AllRecords(accepts, disk, es + [e]) == AllRecords(accepts, disk, es) + EntryTrace(accepts, disk, e).records
  {
    if es != [] {
      assert (es + [e])[1..] == es[1..] + [e];
      AllRecordsSnoc(accepts, disk, es[1..], e);
    }
  }

  /**
   * CreateArchive succeeds exactly when every entry does, and then the
   * archive is the records of the entries, in input order.
   */
  lemma {:induction false} ArchiveInOrder(accepts: Header -> bool, disk: Disk, entries: seq<Entry>)
    ensures ArchiveTrace(accepts, disk, entries).err.None?
        <==> forall i | 0 <= i < |entries| :: EntryTrace(accepts, disk, entries[i]).err.None?
    ensures ArchiveTrace(accepts, disk, entries).err.None?
        ==> ArchiveTrace(accepts, disk, entries).records == AllRecords(accepts, disk, entries)
  {
    if entries != [] {
      var init, last := entries[..|entries| - 1], entries[|entries| - 1];
      assert entries == init + [last];
      var pre, t := ArchiveTrace(accepts, disk, init), EntryTrace(accepts, disk, last);
      assert ArchiveTrace(accepts, disk, entries).err.None? <==> pre.err.None? && t.err.None?;
      assert pre.err.None? ==> ArchiveTrace(accepts, disk, entries).records == pre.records + t.records;
      ArchiveInOrder(accepts, disk, init);
      AllRecordsSnoc(accepts, disk, init, last);
      assert forall i | 0 <= i < |init| :: init[i] == entries[i];
    }
  }

  /**
   * The first failing entry ends the archive: the entries before it are
   * written in full, no later entry is written, and the error names it.
   */
  lemma {:induction false} FirstFailureStops(accepts: Header -> bool, disk: Disk, entries: seq<Entry>, k: nat)
    requires k < |entries|
    requires forall i | 0 <= i < k :: EntryTrace(accepts, disk, entries[i]).err.None?
    requires EntryTrace(accepts, disk, entries[k]).err.Some?
    ensures ArchiveTrace(accepts, disk, entries)
         == Trace(AllRecords(accepts, disk, entries[..k]) + EntryTrace(accepts, disk, entries[k]).records,
                  Some(Wrapped("writing " + entries[k].name, EntryTrace(accepts, disk, entries[k]).err.value)))
  {
    var init := entries[..|entries| - 1];
    if k == |entries| - 1 {
      assert init == entries[..k];
      ArchiveInOrder(accepts, disk, init);
    } else {
      assert init[..k] == entries[..k];
      FirstFailureStops(accepts, disk, init, k);
    }
  }

  /**
   * An entry with data, even empty data, is written from memory and never
   * looks at the disk: one record named after the entry, of mode 0644 when
   * its mode is zero, whose size is the data's length and whose payload is
   * the data.
   */
  lemma MemoryEntryRecord(accepts: Header -> bool, disk: Disk, other: Disk, e: Entry)
    requires e.data.Some?
    ensures EntryTrace(accepts, disk, e) == EntryTrace(accepts, other, e)
    ensures var t := EntryTrace(accepts, disk, e);
            t.err.None? ==>
              && |t.records| == 1
              && t.records[0].header.name == e.name
              && t.records[0].header.kind == Regular
              && t.records[0].header.mode == (if e.mode == 0 then DefaultMode else e.mode)
              && t.records[0].header.size == |e.data.value|
              && t.records[0].payload == e.data.value
    ensures EntryTrace(accepts, disk, e).err.Some? ==> EntryTrace(accepts, disk, e).records == []
  {
  }

  /** An entry without data whose path cannot be read yields an error naming the path and no record. */
  lemma DiskEntryStatFailure(accepts: Header -> bool, disk: Disk, e: Entry)
    requires e.data.None? && (e.path !in disk || disk[e.path].info.fault == StatFails)
    ensures EntryTrace(accepts, disk, e).records == []
    ensures EntryTrace(accepts, disk, e).err
         == Some(Wrapped("stat " + e.path, if e.path in disk then Failed(Op.Stat) else NotExist))
  {
  }

  /** A readable regular file on disk yields one header named after the entry, then the file's bytes. */
  lemma DiskFileEntry(accepts: Header -> bool, disk: Disk, e: Entry)
    requires e.data.None? && e.path in disk && disk[e.path].File? && disk[e.path].info.fault == Healthy
    requires accepts(Header(e.name, Regular, disk[e.path].info.perm, |disk[e.path].content|))
    ensures EntryTrace(accepts, disk, e)
         == Trace([Record(Header(e.name, Regular, disk[e.path].info.perm, |disk[e.path].content|),
                          disk[e.path].content)], None)
  {
  }

  /** A directory's own record, header only, comes before everything below it. */
  lemma DirectoryHeaderFirst(accepts: Header -> bool, name: string, node: Node, checkInfo: bool)
    requires node.Dir? && node.info.fault != HeaderFails && !(checkInfo && node.info.fault == StatFails)
    requires accepts(Header(name, Directory, node.info.perm, 0))
    ensures var t := VisitTrace(accepts, name, node, checkInfo);
            t.records != [] && t.records[0] == Record(Header(name, Directory, node.info.perm, 0), [])
    ensures node.info.fault != ReadDirFails ==>
              var ct := ChildrenTrace(accepts, node, name, SortByName(node.children));
              VisitTrace(accepts, name, node, checkInfo)
                == Trace([Record(Header(name, Directory, node.info.perm, 0), [])] + ct.records, ct.err)
  {
  }

  /** Every record of a walk rooted at `name` is `name` itself or a path below it. */
  lemma {:induction false} VisitUnder(accepts: Header -> bool, name: string, node: Node, checkInfo: bool)
    requires name != "" && name != "."
    ensures forall r | r in VisitTrace(accepts, name, node, checkInfo).records :: Under(r.header.name, name)
    decreases node, 1, 0
  {
    if node.Dir? && !(checkInfo && node.info.fault == StatFails) && node.info.fault !in {HeaderFails, ReadDirFails}
      && accepts(Header(name, Directory, node.info.perm, 0))
    {
      ChildrenUnder(accepts, node, name, SortByName(node.children));
    }
  }

  lemma {:induction false} ChildrenUnder(accepts: Header -> bool, parent: Node, dirName: string, cs: seq<Child>)
    requires parent.Dir? && forall c | c in cs :: c in parent.children
    requires dirName != "" && dirName != "."
    ensures forall r | r in ChildrenTrace(accepts, parent, dirName, cs).records :: Under(r.header.name, dirName)
    decreases parent, 0, |cs|
  {
    if cs != [] {
      var init, last := cs[..|cs| - 1], cs[|cs| - 1];
      assert cs == init + [last];
      ChildrenUnder(accepts, parent, dirName, init);
      if ChildrenTrace(accepts, parent, dirName, init).err.None? {
        assert last in cs;
        var childName := Join(dirName, last.name);
        JoinIsUnder(dirName, last.name);
        assert childName != "" && childName != "." by {
          if childName != dirName {
            assert childName[|dirName|] == '/';
          }
        }
        VisitUnder(accepts, childName, last.node, true);
        forall r | r in VisitTrace(accepts, childName, last.node, true).records
          ensures Under(r.header.name, dirName)
        {
          UnderTransitive(r.header.name, childName, dirName);
        }
      }
    }
  }

  /**
   * The names `filepath.WalkDir` visits below a node archived as `name`, in
   * order: the node itself, then each child of the sorted listing, named
   * by joining the parent's archive name and the child's name, followed by
   * everything below it.  A node reached by `c1/…/ck` is thus named
   * `Join(…Join(name, c1)…, ck)`.
   */
  function Listing(name: string, node: Node): (ns: seq<string>)
    ensures ns != [] && ns[0] == name
    decreases node, 1
  {
    [name] + if node.Dir? then ChildListing(node, name, SortByName(node.children)) else []
  }

  function ChildListing(parent: Node, dirName: string, cs: seq<Child>): seq<string>
    requires parent.Dir? && forall c | c in cs :: c in parent.children
    decreases parent, 0, |cs|
  {
    if cs == [] then []
    else
      var last := cs[|cs| - 1];
      assert last in cs;
      ChildListing(parent, dirName, cs[..|cs| - 1]) + Listing(Join(dirName, last.name), last.node)
  }

  /** The header names of a record stream, in order. */
  function Names(rs: seq<Record>): (ns: seq<string>)
    ensures |ns| == |rs| && forall i | 0 <= i < |rs| :: ns[i] == rs[i].header.name
  {
    seq(|rs|, i requires 0 <= i < |rs| => rs[i].header.name)
  }

  lemma NamesAppend(a: seq<Record>, b: seq<Record>)
    ensures Names(a + b) == Names(a) + Names(b)
  {
  }

  /**
   * A successful walk archives each node under the name `Listing` gives
   * it, one record per node, in that order.
   */
  lemma {:induction false} VisitNames(accepts: Header -> bool, name: string, node: Node, checkInfo: bool)
    requires VisitTrace(accepts, name, node, checkInfo).err.None?
    ensures Names(VisitTrace(accepts, name, node, checkInfo).records) == Listing(name, node)
    decreases node, 1, 0
  {
    if node.Dir? {
      var cs := SortByName(node.children);
      DirVisit(accepts, name, node, checkInfo);
      ChildrenNames(accepts, node, name, cs);
      NamesAppend([Record(Header(name, Directory, node.info.perm, 0), [])], ChildrenTrace(accepts, node, name, cs).records);
    } else {
      FileNames(accepts, name, node, checkInfo);
    }
  }

  /** Proof step: a directory walked without error is its own record, then its children's. */
  lemma DirVisit(accepts: Header -> bool, name: string, node: Node, checkInfo: bool)
    requires node.Dir? && VisitTrace(accepts, name, node, checkInfo).err.None?
    ensures var ct := ChildrenTrace(accepts, node, name, SortByName(node.children));
            && ct.err.None?
            && VisitTrace(accepts, name, node, checkInfo).records
               == [Record(Header(name, Directory, node.info.perm, 0), [])] + ct.records
  {
    assert InfoHeader(name, node).Ok?;
  }

  /** Proof step: a file is archived as one record under its own name. */
  lemma FileNames(accepts: Header -> bool, name: string, node: Node, checkInfo: bool)
    requires node.File? && VisitTrace(accepts, name, node, checkInfo).err.None?
    ensures Names(VisitTrace(accepts, name, node, checkInfo).records) == [name]
  {
    var t := VisitTrace(accepts, name, node, checkInfo);
    assert |t.records| == 1 && t.records[0].header.name == name;
  }

  lemma {:induction false} ChildrenNames(accepts: Header -> bool, parent: Node, dirName: string, cs: seq<Child>)
    requires parent.Dir? && forall c | c in cs :: c in parent.children
    requires ChildrenTrace(accepts, parent, dirName, cs).err.None?
    ensures Names(ChildrenTrace(accepts, parent, dirName, cs).records) == ChildListing(parent, dirName, cs)
    decreases parent, 0, |cs|
  {
    if cs != [] {
      var init, last := cs[..|cs| - 1], cs[|cs| - 1];
      assert forall c | c in init :: c in cs;
      assert last in cs;
      ChildrenNames(accepts, parent, dirName, init);
      var childName := Join(dirName, last.name);
      VisitNames(accepts, childName, last.node, true);
      NamesAppend(ChildrenTrace(accepts, parent, dirName, init).records,
                  VisitTrace(accepts, childName, last.node, true).records);
    }
  }

  /**
   * The container invariant: each record's declared size is the number of
   * bytes written after its header, and a directory carries no payload.
   */
  predicate WellSized(rs: seq<Record>) {
    forall r | r in rs :: |r.payload| == r.header.size && (r.header.kind == Directory ==> r.payload == [])
  }

  lemma {:induction false} VisitWellSized(accepts: Header -> bool, name: string, node: Node, checkInfo: bool)
    requires VisitTrace(accepts, name, node, checkInfo).err.None?
    ensures WellSized(VisitTrace(accepts, name, node, checkInfo).records)
    decreases node, 1, 0
  {
    if node.Dir? {
      DirVisit(accepts, name, node, checkInfo);
      ChildrenWellSized(accepts, node, name, SortByName(node.children));
    }
  }

  lemma {:induction false} ChildrenWellSized(accepts: Header -> bool, parent: Node, dirName: string, cs: seq<Child>)
    requires parent.Dir? && forall c | c in cs :: c in parent.children
    requires ChildrenTrace(accepts, parent, dirName, cs).err.None?
    ensures WellSized(ChildrenTrace(accepts, parent, dirName, cs).records)
    decreases parent, 0, |cs|
  {
    if cs != [] {
      var init, last := cs[..|cs| - 1], cs[|cs| - 1];
      assert cs == init + [last];
      assert last in cs;
      var pre := ChildrenTrace(accepts, parent, dirName, init);
      var t := VisitTrace(accepts, Join(dirName, last.name), last.node, true);
      assert ChildrenTrace(accepts, parent, dirName, cs) == Trace(pre.records + t.records, t.err);
      ChildrenWellSized(accepts, parent, dirName, init);
      VisitWellSized(accepts, Join(dirName, last.name), last.node, true);
    }
  }

  /** A complete archive satisfies the container invariant. */
  lemma ArchiveWellSized(accepts: Header -> bool, disk: Disk, entries: seq<Entry>)
    requires ArchiveTrace(accepts, disk, entries).err.None?
    ensures WellSized(ArchiveTrace(accepts, disk, entries).records)
  {
    ArchiveInOrder(accepts, disk, entries);
    AllWellSized(accepts, disk, entries);
  }

  lemma {:induction false} AllWellSized(accepts: Header -> bool, disk: Disk, es: seq<Entry>)
    requires forall i | 0 <= i < |es| :: EntryTrace(accepts, disk, es[i]).err.None?
    ensures WellSized(AllRecords(accepts, disk, es))
  {
    if es != [] {
      AllWellSized(accepts, disk, es[1..]);
      var e := es[0];
      if e.data.None? && StatPath(disk, e.path).Ok? {
        VisitWellSized(accepts, e.name, disk[e.path], false);
      }
    }
  }

  /**
   * The first failing child aborts its directory's walk: the children
   * before it are archived in full, nothing after it is, and its error is
   * the walk's error.
   */
  lemma ChildFailureAborts(accepts: Header -> bool, parent: Node, dirName: string, cs: seq<Child>, k: nat)
    requires parent.Dir? && forall c | c in cs :: c in parent.children
    requires k < |cs|
    requires ChildrenTrace(accepts, parent, dirName, cs[..k]).err.None?
    requires VisitTrace(accepts, Join(dirName, cs[k].name), cs[k].node, true).err.Some?
    ensures ChildrenTrace(accepts, parent, dirName, cs)
         == Trace(ChildrenTrace(accepts, parent, dirName, cs[..k]).records
                    + VisitTrace(accepts, Join(dirName, cs[k].name), cs[k].node, true).records,
                  VisitTrace(accepts, Join(dirName, cs[k].name), cs[k].node, true).err)
  {
    ChildrenStep(accepts, parent, dirName, cs, k);
    ChildrenStopAtError(accepts, parent, dirName, cs, k + 1);
  }

  /** One more entry: CreateArchive's loop body, as a step on traces. */
  lemma ArchiveStep(accepts: Header -> bool, disk: Disk, entries: seq<Entry>, i: nat)
    requires i < |entries|
    ensures var pre := ArchiveTrace(accepts, disk, entries[..i]);
            var t := EntryTrace(accepts, disk, entries[i]);
            ArchiveTrace(accepts, disk, entries[..i + 1])
              == if pre.err.Some? then pre
                 else Trace(pre.records + t.records,
                            if t.err.Some? then Some(Wrapped("writing " + entries[i].name, t.err.value)) else None)
  {
    assert entries[..i + 1][..i] == entries[..i];
  }

  /** One more child: the walk's loop over a listing, as a step on traces. */
  lemma ChildrenStep(accepts: Header -> bool, parent: Node, dirName: string, cs: seq<Child>, i: nat)
    requires parent.Dir? && forall c | c in cs :: c in parent.children
    requires i < |cs|
    ensures var pre := ChildrenTrace(accepts, parent, dirName, cs[..i]);
            var t := VisitTrace(accepts, Join(dirName, cs[i].name), cs[i].node, true);
            ChildrenTrace(accepts, parent, dirName, cs[..i + 1])
              == if pre.err.Some? then pre else Trace(pre.records + t.records, t.err)
  {
    assert cs[..i + 1][..i] == cs[..i];
  }

  /** Once a prefix of the entries has failed, the rest change nothing. */
  lemma {:induction false} ArchiveStopsAtError(accepts: Header -> bool, disk: Disk, entries: seq<Entry>, j: nat)
    requires j <= |entries| && ArchiveTrace(accepts, disk, entries[..j]).err.Some?
    ensures ArchiveTrace(accepts, disk, entries) == ArchiveTrace(accepts, disk, entries[..j])
    decreases |entries| - j
  {
    if j < |entries| {
      var init := entries[..|entries| - 1];
      assert init[..j] == entries[..j];
      ArchiveStopsAtError(accepts, disk, init, j);
    } else {
      assert entries[..j] == entries;
    }
  }

  /** Once a prefix of a directory's children has failed, the rest change nothing. */
  lemma {:induction false} ChildrenStopAtError(accepts: Header -> bool, parent: Node, dirName: string, cs: seq<Child>, j: nat)
    requires parent.Dir? && forall c | c in cs :: c in parent.children
    requires j <= |cs| && ChildrenTrace(accepts, parent, dirName, cs[..j]).err.Some?
    ensures ChildrenTrace(accepts, parent, dirName, cs) == ChildrenTrace(accepts, parent, dirName, cs[..j])
    decreases |cs| - j
  {
    if j < |cs| {
      var init := cs[..|cs| - 1];
      assert init[..j] == cs[..j];
      ChildrenStopAtError(accepts, parent, dirName, init, j);
    } else {
      assert cs[..j] == cs;
    }
  }

  // ---------------------------------------------------------------------
  // The writer and the operations that append to it
  // ---------------------------------------------------------------------

  /** A `tar.Writer`: the records written so far. */
  class TarWriter {
    /** Whether the tar library can encode a header; one it cannot is refused. */
    const accepts: Header -> bool
    var records: seq<Record>

    constructor(accepts: Header -> bool)
      ensures this.accepts == accepts && records == []
    {
      this.accepts := accepts;
      records := [];
    }

    /** Starts a new member with header `h`. */
    method WriteHeader(h: Header) returns (err: Option<Error>)
      modifies this
      ensures accepts(h) ==> err == None && records == old(records) + [Record(h, [])]
      ensures !accepts(h) ==> err == Some(Failed(Op.WriteHeader)) && records == old(records)
    {
      if accepts(h) {
        records := records + [Record(h, [])];
        err := None;
      } else {
        err := Some(Failed(Op.WriteHeader));
      }
    }

    /** Appends bytes to the current member, within the size its header declares. */
    method Write(data: Bytes)
      requires records != []
      requires |records[|records| - 1].payload| + |data| <= records[|records| - 1].header.size
      modifies this
      ensures var last := old(records[|records| - 1]);
              records == old(records[..|records| - 1]) + [Record(last.header, last.payload + data)]
    {
      var last := records[|records| - 1];
      records := records[..|records| - 1] + [Record(last.header, last.payload + data)];
    }
  }

  /** writeMemoryEntry. */
  method WriteMemoryEntry(tw: TarWriter, e: Entry) returns (err: Option<Error>)
    requires e.data.Some?
    modifies tw
    ensures tw.records == old(tw.records) + MemoryTrace(tw.accepts, e).records
    ensures err == MemoryTrace(tw.accepts, e).err
  {
    var mode := e.mode;
    if mode == 0 {
      mode := DefaultMode;
    }
    var header := Header(e.name, Regular, mode, |e.data.value|);
    err := tw.WriteHeader(header);
    if err.Some? {
      return Some(Wrapped("writing header", err.value));
    }
    ghost var before := tw.records;
    assert before[..|before| - 1] == old(tw.records);
    tw.Write(e.data.value);
    assert before[|before| - 1] == Record(header, []);
    assert [] + e.data.value == e.data.value;
  }

  /** writeFileEntry: a regular file whose metadata `os.Stat` already returned. */
  method WriteFileEntry(tw: TarWriter, name: string, node: Node) returns (err: Option<Error>)
    requires node.File?
    modifies tw
    ensures tw.records == old(tw.records) + VisitTrace(tw.accepts, name, node, false).records
    ensures err == VisitTrace(tw.accepts, name, node, false).err
  {
    var header := InfoHeader(name, node);
    if header.Err? {
      return Some(header.error);
    }
    err := tw.WriteHeader(header.value);
    if err.Some? {
      return Some(Wrapped("writing header", err.value));
    }
    if node.info.fault == OpenFails {
      return Some(Wrapped("opening file", Failed(Op.Open)));
    }
    if node.info.fault == CopyFails {
      return Some(Wrapped("copying data", Failed(Op.Copy)));
    }
    ghost var before := tw.records;
    assert before[..|before| - 1] == old(tw.records);
    tw.Write(node.content);
    assert before[|before| - 1] == Record(header.value, []);
    assert [] + node.content == node.content;
  }

  /** Concatenation of record streams is associative. */
  lemma AppendAssoc(a: seq<Record>, b: seq<Record>, c: seq<Record>)
    ensures (a + b) + c == a + (b + c)
  {
  }

  /**
   * One pass of the walk's loop over a sorted listing: as
   * `ArchiveLoopStep`, for the children of a directory.
   */
  lemma ChildrenLoopStep(accepts: Header -> bool, parent: Node, dirName: string, cs: seq<Child>, i: nat,
                         start: seq<Record>, before: seq<Record>, after: seq<Record>, err: Option<Error>)
    requires parent.Dir? && forall c | c in cs :: c in parent.children
    requires i < |cs|
    requires before == start + ChildrenTrace(accepts, parent, dirName, cs[..i]).records
    requires ChildrenTrace(accepts, parent, dirName, cs[..i]).err.None?
    requires after == before + VisitTrace(accepts, Join(dirName, cs[i].name), cs[i].node, true).records
    requires err == VisitTrace(accepts, Join(dirName, cs[i].name), cs[i].node, true).err
    ensures err.None? ==> after == start + ChildrenTrace(accepts, parent, dirName, cs[..i + 1]).records
    ensures err.None? ==> ChildrenTrace(accepts, parent, dirName, cs[..i + 1]).err.None?
    ensures err.Some? ==> after == start + ChildrenTrace(accepts, parent, dirName, cs).records
    ensures err.Some? ==> ChildrenTrace(accepts, parent, dirName, cs).err == err
  {
    AppendAssoc(start, ChildrenTrace(accepts, parent, dirName, cs[..i]).records,
                VisitTrace(accepts, Join(dirName, cs[i].name), cs[i].node, true).records);
    ChildrenStep(accepts, parent, dirName, cs, i);
    if err.Some? {
      ChildrenStopAtError(accepts, parent, dirName, cs, i + 1);
    }
  }

  /**
   * The end of the walk of a healthy directory whose header was accepted:
   * the header record, then the children's records, and the children's error.
   */
  lemma WalkEnds(accepts: Header -> bool, name: string, node: Node, checkInfo: bool,
                 start: seq<Record>, afterHeader: seq<Record>, after: seq<Record>, err: Option<Error>)
    requires node.Dir? && node.info.fault != ReadDirFails && node.info.fault != HeaderFails
    requires !(checkInfo && node.info.fault == StatFails)
    requires accepts(Header(name, Directory, node.info.perm, 0))
    requires afterHeader == start + [Record(Header(name, Directory, node.info.perm, 0), [])]
    requires after == afterHeader + ChildrenTrace(accepts, node, name, SortByName(node.children)).records
    requires err == ChildrenTrace(accepts, node, name, SortByName(node.children)).err
    ensures after == start + VisitTrace(accepts, name, node, checkInfo).records
    ensures err == VisitTrace(accepts, name, node, checkInfo).err
  {
    DirectoryHeaderFirst(accepts, name, node, checkInfo);
    AppendAssoc(start, [Record(Header(name, Directory, node.info.perm, 0), [])],
                ChildrenTrace(accepts, node, name, SortByName(node.children)).records);
  }

  /**
   * The callback `filepath.WalkDir` calls on `node`, archived as `name`,
   * followed by the walk of its children in name order.
   */
  method WalkNode(tw: TarWriter, name: string, node: Node, checkInfo: bool) returns (err: Option<Error>)
    modifies tw
    ensures tw.records == old(tw.records) + VisitTrace(tw.accepts, name, node, checkInfo).records
    ensures err == VisitTrace(tw.accepts, name, node, checkInfo).err
    decreases node, 1
  {
    if checkInfo && node.info.fault == StatFails {
      return Some(Wrapped("getting file info", Failed(Op.Info)));
    }
    var header := InfoHeader(name, node);
    if header.Err? {
      return Some(header.error);
    }
    err := tw.WriteHeader(header.value);
    if err.Some? {
      return Some(Wrapped("writing header", err.value));
    }
    if node.File? {
      if node.info.fault == OpenFails {
        return Some(Wrapped("opening file", Failed(Op.Open)));
      }
      if node.info.fault == CopyFails {
        return Some(Wrapped("copying data", Failed(Op.Copy)));
      }
      ghost var before := tw.records;
      assert before[..|before| - 1] == old(tw.records);
      tw.Write(node.content);
      assert before[|before| - 1] == Record(header.value, []);
      assert [] + node.content == node.content;
      return None;
    }
    if node.info.fault == ReadDirFails {
      return Some(Failed(Op.ReadDir));
    }
    ghost var start := tw.records;
    err := WalkChildren(tw, name, node);
    WalkEnds(tw.accepts, name, node, checkInfo, old(tw.records), start, tw.records, err);
  }

  /** The rest of the walk below directory `node`: its listing, in name order. */
  method WalkChildren(tw: TarWriter, name: string, node: Node) returns (err: Option<Error>)
    requires node.Dir?
    modifies tw
    ensures tw.records == old(tw.records) + ChildrenTrace(tw.accepts, node, name, SortByName(node.children)).records
    ensures err == ChildrenTrace(tw.accepts, node, name, SortByName(node.children)).err
    decreases node, 0
  {
    var cs := SortByName(node.children);
    var i := 0;
    while i < |cs|
      invariant 0 <= i <= |cs|
      invariant tw.records == old(tw.records) + ChildrenTrace(tw.accepts, node, name, cs[..i]).records
      invariant ChildrenTrace(tw.accepts, node, name, cs[..i]).err.None?
    {
      assert cs[i] in cs;
      ghost var before := tw.records;
      err := WalkNode(tw, Join(name, cs[i].name), cs[i].node, true);
      ChildrenLoopStep(tw.accepts, node, name, cs, i, old(tw.records), before, tw.records, err);
      if err.Some? {
        return;
      }
      i := i + 1;
    }
    assert cs[..|cs|] == cs;
    err := None;
  }

  /** writeDirEntry: walks the directory `node` found at the entry's path. */
  method WriteDirEntry(tw: TarWriter, name: string, node: Node) returns (err: Option<Error>)
    requires node.Dir?
    modifies tw
    ensures tw.records == old(tw.records) + VisitTrace(tw.accepts, name, node, false).records
    ensures err == VisitTrace(tw.accepts, name, node, false).err
  {
    err := WalkNode(tw, name, node, false);
  }

  /** writeDiskEntry. */
  method WriteDiskEntry(tw: TarWriter, disk: Disk, e: Entry) returns (err: Option<Error>)
    modifies tw
    ensures tw.records == old(tw.records) + DiskTrace(tw.accepts, disk, e).records
    ensures err == DiskTrace(tw.accepts, disk, e).err
  {
    var info := StatPath(disk, e.path);
    if info.Err? {
      return Some(Wrapped("stat " + e.path, info.error));
    }
    if info.value.Dir? {
      err := WriteDirEntry(tw, e.name, info.value);
    } else {
      err := WriteFileEntry(tw, e.name, info.value);
    }
  }

  /** writeEntry: in memory when the entry has data, from disk otherwise. */
  method WriteEntry(tw: TarWriter, disk: Disk, e: Entry) returns (err: Option<Error>)
    modifies tw
    ensures tw.records == old(tw.records) + EntryTrace(tw.accepts, disk, e).records
    ensures err == EntryTrace(tw.accepts, disk, e).err
  {
    if e.data.Some? {
      err := WriteMemoryEntry(tw, e);
    } else {
      err := WriteDiskEntry(tw, disk, e);
    }
  }

  /**
   * One pass of CreateArchive's loop: the writer held `before`, the records of
   * the first `i` entries after `start`, and writing entry `i` left `after`
   * and `err`.  Either the prefix grows by one, or the archive ends there.
   */
  lemma ArchiveLoopStep(accepts: Header -> bool, disk: Disk, entries: seq<Entry>, i: nat,
                        start: seq<Record>, before: seq<Record>, after: seq<Record>, err: Option<Error>)
    requires i < |entries|
    requires before == start + ArchiveTrace(accepts, disk, entries[..i]).records
    requires ArchiveTrace(accepts, disk, entries[..i]).err.None?
    requires after == before + EntryTrace(accepts, disk, entries[i]).records
    requires err == EntryTrace(accepts, disk, entries[i]).err
    ensures err.None? ==> after == start + ArchiveTrace(accepts, disk, entries[..i + 1]).records
    ensures err.None? ==> ArchiveTrace(accepts, disk, entries[..i + 1]).err.None?
    ensures err.Some? ==> after == start + ArchiveTrace(accepts, disk, entries).records
    ensures err.Some? ==> ArchiveTrace(accepts, disk, entries).err == Some(Wrapped("writing " + entries[i].name, err.value))
  {
    AppendAssoc(start, ArchiveTrace(accepts, disk, entries[..i]).records,
                EntryTrace(accepts, disk, entries[i]).records);
    ArchiveStep(accepts, disk, entries, i);
    if err.Some? {
      ArchiveStopsAtError(accepts, disk, entries, i + 1);
    }
  }

  method CreateArchive(tw: TarWriter, disk: Disk, entries: seq<Entry>) returns (err: Option<Error>)
    modifies tw
    ensures tw.records == old(tw.records) + ArchiveTrace(tw.accepts, disk, entries).records
    ensures err == ArchiveTrace(tw.accepts, disk, entries).err
  {
    var i := 0;
    while i < |entries|
      invariant 0 <= i <= |entries|
      invariant tw.records == old(tw.records) + ArchiveTrace(tw.accepts, disk, entries[..i]).records
      invariant ArchiveTrace(tw.accepts, disk, entries[..i]).err.None?
    {
      var entry := entries[i];
      ghost var before := tw.records;
      err := WriteEntry(tw, disk, entry);
      ArchiveLoopStep(tw.accepts, disk, entries, i, old(tw.records), before, tw.records, err);
      if err.Some? {
        return Some(Wrapped("writing " + entry.name, err.value));
      }
      i := i + 1;
    }
    assert entries[..|entries|] == entries;
    return None;
  }
}
