/** Properties of the walk that the source's structure promises, derived
    from the reference description in `WalkSpec`. */
module WalkProps {
  import opened Wrappers
  import opened Records
  import opened TypeList
  import opened Library
  import opened Walk
  import opened WalkSpec

  /** The walk fails exactly when some visited item faults, and then with
      the first fault in depth-first order (main.go:51-53, 63-66, 81-84,
      94-97): nothing after it is looked at. */
  lemma WalkFailsOnFirstFault(o: Oracles, dir: string, node: Node, typelist: seq<string>, found: seq<string>)
    ensures var evs := Events(o, dir, node, typelist);
      && (ListFiles(o, dir, node, typelist, found).Failure? <==> exists i :: 0 <= i < |evs| && evs[i].Fault?)
      && (ListFiles(o, dir, node, typelist, found).Failure? ==>
            exists i :: 0 <= i < |evs| && evs[i] == Fault(ListFiles(o, dir, node, typelist, found).error)
                        && forall j :: 0 <= j < i ==> evs[j].Emit?)
  {
    ListFilesIsOutcome(o, dir, node, typelist, found);
  }

  /** A successful walk returns exactly the records of the visible, wanted
      files, depth-first, each once. */
  lemma WalkRecordsAreEmitted(o: Oracles, dir: string, node: Node, typelist: seq<string>, found: seq<string>)
    requires ListFiles(o, dir, node, typelist, found).Success?
    ensures ListFiles(o, dir, node, typelist, found).value.records == Emitted(Events(o, dir, node, typelist))
  {
    ListFilesIsOutcome(o, dir, node, typelist, found);
  }

  /** Walking two runs of entries one after the other: the second starts
      from the types list the first left, its records follow the first's,
      and an error in the first ends the walk before the second is looked
      at (main.go:55-101). */
  lemma ListEntriesAppend(o: Oracles, dir: string, a: seq<Entry>, b: seq<Entry>, typelist: seq<string>, found: seq<string>)
    ensures var ra := ListEntries(o, dir, a, typelist, found);
      ListEntries(o, dir, a + b, typelist, found) ==
        if ra.Failure? then ra
        else match ListEntries(o, dir, b, typelist, ra.value.found)
          case Failure(err) => Failure(err)
          case Success(rb) => Success(Listing(ra.value.records + rb.records, rb.found))
  {
    ListEntriesIsOutcome(o, dir, a + b, typelist, found);
    ListEntriesIsOutcome(o, dir, a, typelist, found);
    EventsInAppend(o, dir, a, b, typelist);
    OutcomeAppend(EventsIn(o, dir, a, typelist), EventsIn(o, dir, b, typelist), found);
    match ListEntries(o, dir, a, typelist, found)
    case Failure(_) =>
    case Success(la) => ListEntriesIsOutcome(o, dir, b, typelist, la.found);
  }

  /** A hidden entry, wherever it sits in a listing and whatever it is (an
      unreadable directory, a file that cannot be stat-ed), changes nothing
      (main.go:59-61). */
  lemma HiddenEntryIgnored(o: Oracles, dir: string, a: seq<Entry>, h: Entry, b: seq<Entry>, typelist: seq<string>, found: seq<string>)
    requires Hidden(h.name)
    ensures ListEntries(o, dir, a + [h] + b, typelist, found) == ListEntries(o, dir, a + b, typelist, found)
  {
    ListEntriesIsOutcome(o, dir, a + [h] + b, typelist, found);
    ListEntriesIsOutcome(o, dir, a + b, typelist, found);
    EventsInAppend(o, dir, a + [h], b, typelist);
    EventsInAppend(o, dir, a, [h], typelist);
    EventsInAppend(o, dir, a, b, typelist);
    assert [h][1..] == [];
    assert EntryEvents(o, dir, h, typelist) == [];
    assert EventsIn(o, dir, [h], typelist) == [];
    assert EventsIn(o, dir, a + [h], typelist) == EventsIn(o, dir, a, typelist);
  }

  /** A visible file that can be stat-ed and hashed yields one record exactly
      when its type is listed or "all" is, and that record describes it
      (main.go:70-99). */
  lemma FileKeptIffWanted(o: Oracles, dir: string, e: Entry, typelist: seq<string>, found: seq<string>)
    requires !Hidden(e.name) && e.node.File? && e.node.stat.Some? && e.node.readable
    ensures ListEntry(o, dir, e, typelist, found).Success?
    ensures |ListEntry(o, dir, e, typelist, found).value.records| == 1 <==> Wanted(FileType(e.name), typelist)
    ensures |ListEntry(o, dir, e, typelist, found).value.records| <= 1
    ensures Wanted(FileType(e.name), typelist) ==>
      ListEntry(o, dir, e, typelist, found).value.records ==
        [FileInstance(FileType(e.name), ChildPath(o, dir, e.name), e.node.stat.value.size,
                      e.node.stat.value.modTime, o.sha1(e.node.content))]
  {
  }

  /** A visible directory is walked in place whatever its name, the type
      filter not applying to it (main.go:62-68). */
  lemma DirectoryAlwaysDescended(o: Oracles, dir: string, e: Entry, typelist: seq<string>, found: seq<string>)
    requires !Hidden(e.name) && !e.node.File?
    ensures ListEntry(o, dir, e, typelist, found) == ListFiles(o, ChildPath(o, dir, e.name), e.node, typelist, found)
  {
  }

  /** Started from an empty list, as `main` does, the discovered types are
      the distinct types of the emitted records in first-seen order
      (main.go:76-78). */
  lemma TypesFoundAreRecordTypes(o: Oracles, dir: string, node: Node, typelist: seq<string>)
    requires ListFiles(o, dir, node, typelist, []).Success?
    ensures var l := ListFiles(o, dir, node, typelist, []).value;
      && l.found == NoteAll([], TypesOf(l.records))
      && NoDups(l.found)
      && (forall t :: t in l.found <==> exists i :: 0 <= i < |l.records| && l.records[i].fileType == t)
  {
    ListFilesIsOutcome(o, dir, node, typelist, []);
  }
}
