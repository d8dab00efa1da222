/** `ListFiles` (main.go:48-103): the depth-first walk of a directory tree
    that keeps the non-hidden files whose type is wanted, threading the
    discovered-types list through the recursion. The filesystem is an
    immutable tree; SHA-1 and the path functions are opaque. */
module Walk {
  import opened Wrappers
  import opened GoStrings
  import opened Records
  import opened TypeList
  import opened Library

  /** What `os.Stat` reports about a file. */
  datatype Stat = Stat(size: int, modTime: int)

  /** A filesystem node. `UnreadableDir` is a directory `os.ReadDir` fails
      on; a `File` carries `None` when `os.Stat` fails on it and
      `readable == false` when hashing it fails. */
  datatype Node =
    | Dir(entries: seq<Entry>)
    | UnreadableDir
    | File(content: Bytes, stat: Option<Stat>, readable: bool)

  /** One item of a directory listing, in listing order. */
  datatype Entry = Entry(name: string, node: Node)

  /** The three ways the walk can fail, each with the path it failed on. */
  datatype WalkError =
    | ReadDirFailed(path: string)
    | StatFailed(path: string)
    | HashFailed(path: string)

  /** A successful walk: the records in output order and the types list. */
  datatype Listing = Listing(records: seq<FileInstance>, found: seq<string>)

  /** The path of `name` inside `dir` (main.go:58). */
  function ChildPath(o: Oracles, dir: string, name: string): string {
    o.clean(o.join(dir, name))
  }

  /** Names starting with a dot are skipped, files and directories alike. */
  predicate Hidden(name: string) {
    HasPrefix(name, ".")
  }

  /** The last `.`-separated chunk of a file name (main.go:70-71). */
  function FileType(name: string): string {
    var chunks := Split(name, '.');
    chunks[|chunks| - 1]
  }

  /** The type is the longest dot-free suffix of the name: the whole name
      when there is no dot, and empty when the name ends in a dot. */
  lemma FileTypeSpec(name: string)
    ensures '.' !in FileType(name)
    ensures HasSuffix(name, FileType(name))
    ensures '.' !in name ==> FileType(name) == name
    ensures '.' in name ==> |FileType(name)| < |name| && name[|name| - |FileType(name)| - 1] == '.'
  {
    var chunks := Split(name, '.');
    SplitSpec(name, '.');
    var r := chunks[|chunks| - 1];
    assert '.' !in r;
    if |chunks| == 1 {
      assert name == r;
      assert Count(name, '.') == 0;
    } else {
      var pre := Join(chunks[..|chunks| - 1], '.') + ['.'];
      assert name == pre + r;
      assert name[|name| - |r|..] == r;
      assert name[|name| - |r| - 1] == pre[|pre| - 1] == '.';
    }
  }

  /** The type filter of main.go:73: the type is listed, or "all" is. */
  predicate Wanted(fileType: string, typelist: seq<string>) {
    fileType in typelist || "all" in typelist
  }

  /** Stat and hash one wanted file (main.go:79-98); the first failing step
      decides the error. */
  function Inspect(o: Oracles, path: string, fileType: string, content: Bytes,
                   stat: Option<Stat>, readable: bool): (r: Result<FileInstance, WalkError>)
    ensures r.Success? <==> stat.Some? && readable
    ensures r == Failure(StatFailed(path)) <==> stat.None?
    ensures r == Failure(HashFailed(path)) <==> stat.Some? && !readable
    ensures r.Success? ==>
      && r.value.fileType == fileType
      && r.value.filePath == path
      && r.value.fileSize == stat.value.size
      && r.value.fileModTime == stat.value.modTime
      && r.value.md5Sum == o.sha1(content)
  {
    if stat.None? then Failure(StatFailed(path))
    else if !readable then Failure(HashFailed(path))
    else Success(FileInstance(fileType, path, stat.value.size, stat.value.modTime, o.sha1(content)))
  }

  /** Everything `ListEntries` promises about a successful walk: the types
      list only grows at its end, stays duplicate-free, holds the type of
      every record and nothing that is not already noted or a record's type,
      and every record passed the filter. */
  predicate Extends(found: seq<string>, typelist: seq<string>, l: Listing) {
    && |found| <= |l.found| && l.found[..|found|] == found
    && (NoDups(found) ==> NoDups(l.found))
    && (forall i :: 0 <= i < |l.records| ==> l.records[i].fileType in l.found)
    && (forall i :: 0 <= i < |l.records| ==> Wanted(l.records[i].fileType, typelist))
    && (forall t :: t in l.found ==> t in found || exists i :: 0 <= i < |l.records| && l.records[i].fileType == t)
  }

  /** `ListFiles(dir, typelist)` on the node found at `dir`: anything but a
      readable directory makes `os.ReadDir` fail. */
  function ListFiles(o: Oracles, dir: string, node: Node, typelist: seq<string>,
                     found: seq<string>): (r: Result<Listing, WalkError>)
    ensures !node.Dir? ==> r == Failure(ReadDirFailed(dir))
    ensures r.Success? ==> Extends(found, typelist, r.value)
    decreases node, 1
  {
    match node
    case Dir(entries) => ListEntries(o, dir, entries, typelist, found)
    case _ => Failure(ReadDirFailed(dir))
  }

  /** The loop of main.go:55-101 over the entries of `dir`, from the first:
      each entry's result is spliced in at the entry's position. */
  function ListEntries(o: Oracles, dir: string, entries: seq<Entry>, typelist: seq<string>,
                       found: seq<string>): (r: Result<Listing, WalkError>)
    ensures entries == [] ==> r == Success(Listing([], found))
    ensures r.Success? ==> Extends(found, typelist, r.value)
    decreases entries, 0
  {
    if entries == [] then Success(Listing([], found))
    else
      var first :- ListEntry(o, dir, entries[0], typelist, found);
      var rest :- ListEntries(o, dir, entries[1..], typelist, first.found);
      ExtendsTrans(found, typelist, first, rest);
      Success(Listing(first.records + rest.records, rest.found))
  }

  /** One iteration of that loop: a hidden entry or an unwanted file is
      skipped, a subdirectory is walked in place, a wanted file is noted,
      then stat-ed and hashed. */
  function ListEntry(o: Oracles, dir: string, e: Entry, typelist: seq<string>,
                     found: seq<string>): (r: Result<Listing, WalkError>)
    ensures Hidden(e.name) ==> r == Success(Listing([], found))
    ensures r.Success? ==> Extends(found, typelist, r.value)
    decreases e, 2
  {
    var path := ChildPath(o, dir, e.name);
    if Hidden(e.name) then Success(Listing([], found))
    else match e.node
      case File(content, stat, readable) =>
        var fileType := FileType(e.name);
        if !Wanted(fileType, typelist) then Success(Listing([], found))
        else
          var rec :- Inspect(o, path, fileType, content, stat, readable);
          ExtendsOne(found, typelist, rec);
          Success(Listing([rec], NoteType(found, fileType)))
      case _ => ListFiles(o, path, e.node, typelist, found)
  }

  /** Emitting one wanted record notes its type. */
  lemma ExtendsOne(found: seq<string>, typelist: seq<string>, rec: FileInstance)
    requires Wanted(rec.fileType, typelist)
    ensures Extends(found, typelist, Listing([rec], NoteType(found, rec.fileType)))
  {
    var l := Listing([rec], NoteType(found, rec.fileType));
    assert l.records[0] == rec;
  }

  /** Two successive extensions compose into one. */
  lemma ExtendsTrans(found: seq<string>, typelist: seq<string>, first: Listing, second: Listing)
    requires Extends(found, typelist, first)
    requires Extends(first.found, typelist, second)
    ensures Extends(found, typelist, Listing(first.records + second.records, second.found))
  {
    var l := Listing(first.records + second.records, second.found);
    assert l.found[..|first.found|] == first.found;
    assert l.found[..|found|] == first.found[..|found|];
    forall t | t in l.found
      ensures t in found || exists i :: 0 <= i < |l.records| && l.records[i].fileType == t
    {
      if t !in found {
        if t in first.found {
          var i :| 0 <= i < |first.records| && first.records[i].fileType == t;
          assert l.records[i] == first.records[i];
        } else {
          var i :| 0 <= i < |second.records| && second.records[i].fileType == t;
          assert l.records[|first.records| + i] == second.records[i];
        }
      }
    }
    forall i | 0 <= i < |l.records|
      ensures l.records[i].fileType in l.found
    {
      if i < |first.records| {
        assert l.records[i] == first.records[i];
        assert first.found == l.found[..|first.found|];
      } else {
        assert l.records[i] == second.records[i - |first.records|];
      }
    }
  }
}
