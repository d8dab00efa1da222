/** A reference description of the walk, free of error propagation and of
    the threaded types list: the depth-first sequence of what each visible,
    wanted file (or unreadable directory) contributes. The walk is proved to
    be the first fault of that sequence if there is one, and otherwise its
    records with the types noted in order. */
module WalkSpec {
  import opened Wrappers
  import opened Records
  import opened TypeList
  import opened Library
  import opened Walk

  /** What one visited item contributes: a record, or an error. */
  datatype Event = Emit(rec: FileInstance) | Fault(err: WalkError)

  /** The events of the tree at `dir`, depth-first. */
  function Events(o: Oracles, dir: string, node: Node, typelist: seq<string>): seq<Event>
    decreases node, 1
  {
    match node
    case Dir(entries) => EventsIn(o, dir, entries, typelist)
    case _ => [Fault(ReadDirFailed(dir))]
  }

  /** The events of one directory entry: nothing for a hidden entry or an
      unwanted file, the inspection of a wanted file, the events of a
      subdirectory. */
  function EntryEvents(o: Oracles, dir: string, e: Entry, typelist: seq<string>): seq<Event>
    decreases e, 2
  {
    if Hidden(e.name) then []
    else match e.node
      case File(content, stat, readable) =>
        var fileType := FileType(e.name);
        if !Wanted(fileType, typelist) then []
        else
          (match Inspect(o, ChildPath(o, dir, e.name), fileType, content, stat, readable)
           case Success(rec) => [Emit(rec)]
           case Failure(err) => [Fault(err)])
      case _ => Events(o, ChildPath(o, dir, e.name), e.node, typelist)
  }

  /** The events of a listing: each entry's events, in listing order. */
  function EventsIn(o: Oracles, dir: string, entries: seq<Entry>, typelist: seq<string>): seq<Event>
    decreases entries, 0
  {
    if entries == [] then []
    else EntryEvents(o, dir, entries[0], typelist) + EventsIn(o, dir, entries[1..], typelist)
  }

  /** The first error among the events, if any. */
  function FirstFault(evs: seq<Event>): (r: Option<WalkError>)
    ensures r.None? <==> forall i :: 0 <= i < |evs| ==> evs[i].Emit?
    ensures r.Some? ==> exists i :: 0 <= i < |evs| && evs[i] == Fault(r.value)
                                     && forall j :: 0 <= j < i ==> evs[j].Emit?
  {
    if evs == [] then None
    else if evs[0].Fault? then Some(evs[0].err)
    else
      var r := FirstFault(evs[1..]);
      assert forall i :: 0 < i < |evs| ==> evs[i] == evs[1..][i - 1];
      if r.Some? then
        var i :| 0 <= i < |evs[1..]| && evs[1..][i] == Fault(r.value)
                  && forall j :: 0 <= j < i ==> evs[1..][j].Emit?;
        assert evs[i + 1] == Fault(r.value);
        r
      else r
  }

  /** The records of the `Emit` events, in order. */
  function Emitted(evs: seq<Event>): (r: seq<FileInstance>)
    ensures forall rec :: rec in r <==> Emit(rec) in evs
  {
    if evs == [] then []
    else
      var rest := Emitted(evs[1..]);
      assert forall ev :: ev in evs <==> ev == evs[0] || ev in evs[1..];
      if evs[0].Emit? then [evs[0].rec] + rest else rest
  }

  /** The types of some records, in order. */
  function TypesOf(recs: seq<FileInstance>): seq<string> {
    seq(|recs|, i requires 0 <= i < |recs| => recs[i].fileType)
  }

  /** What the walk must return for these events, starting from `found`. */
  function Outcome(evs: seq<Event>, found: seq<string>): Result<Listing, WalkError> {
    match FirstFault(evs)
    case Some(err) => Failure(err)
    case None => Success(Listing(Emitted(evs), NoteAll(found, TypesOf(Emitted(evs)))))
  }

  /** The outcome of `first` followed by the outcome of `second`, started from
      the types list `first` left behind. */
  function Then(first: Result<Listing, WalkError>, second: seq<Event>): Result<Listing, WalkError> {
    match first
    case Failure(err) => Failure(err)
    case Success(l) =>
      match Outcome(second, l.found)
      case Failure(err) => Failure(err)
      case Success(l2) => Success(Listing(l.records + l2.records, l2.found))
  }

  lemma {:induction false} FirstFaultAppend(a: seq<Event>, b: seq<Event>)
    ensures FirstFault(a + b) == if FirstFault(a).Some? then FirstFault(a) else FirstFault(b)
    decreases |a|
  {
    if a == [] {
      assert a + b == b;
    } else {
      assert (a + b)[0] == a[0];
      assert (a + b)[1..] == a[1..] + b;
      FirstFaultAppend(a[1..], b);
    }
  }

  lemma {:induction false} EmittedAppend(a: seq<Event>, b: seq<Event>)
    ensures Emitted(a + b) == Emitted(a) + Emitted(b)
    decreases |a|
  {
    if a == [] {
      assert a + b == b;
    } else {
      assert (a + b)[0] == a[0];
      assert (a + b)[1..] == a[1..] + b;
      EmittedAppend(a[1..], b);
    }
  }

  /** Outcomes compose along concatenated event sequences. */
  lemma OutcomeAppend(a: seq<Event>, b: seq<Event>, found: seq<string>)
    ensures Outcome(a + b, found) == Then(Outcome(a, found), b)
  {
    FirstFaultAppend(a, b);
    if FirstFault(a).None? && FirstFault(b).None? {
      EmittedAppend(a, b);
      TypesOfAppend(Emitted(a), Emitted(b));
      NoteAllAppend(found, TypesOf(Emitted(a)), TypesOf(Emitted(b)));
    }
  }

  lemma TypesOfAppend(ra: seq<FileInstance>, rb: seq<FileInstance>)
    ensures TypesOf(ra + rb) == TypesOf(ra) + TypesOf(rb)
  {
  }

  /** Events of a concatenated listing are the concatenated events. */
  lemma {:induction false} EventsInAppend(o: Oracles, dir: string, a: seq<Entry>, b: seq<Entry>, typelist: seq<string>)
    ensures EventsIn(o, dir, a + b, typelist) == EventsIn(o, dir, a, typelist) + EventsIn(o, dir, b, typelist)
    decreases |a|
  {
    if a == [] {
      assert a + b == b;
    } else {
      assert (a + b)[0] == a[0];
      assert (a + b)[1..] == a[1..] + b;
      EventsInAppend(o, dir, a[1..], b, typelist);
    }
  }

  /** The walk of a node is exactly the outcome of its events. */
  lemma {:induction false} ListFilesIsOutcome(o: Oracles, dir: string, node: Node, typelist: seq<string>, found: seq<string>)
    ensures ListFiles(o, dir, node, typelist, found) == Outcome(Events(o, dir, node, typelist), found)
    decreases node, 1
  {
    match node
    case Dir(entries) => ListEntriesIsOutcome(o, dir, entries, typelist, found);
    case _ =>
  }

  /** A single record is kept and its type noted. */
  lemma SingleOutcome(rec: FileInstance, found: seq<string>)
    ensures Outcome([Emit(rec)], found) == Success(Listing([rec], NoteType(found, rec.fileType)))
  {
    assert Emitted([Emit(rec)]) == [rec];
    assert TypesOf([rec]) == [rec.fileType];
    assert NoteAll(found, [rec.fileType]) == NoteType(found, rec.fileType);
  }

  /** One entry's walk is exactly the outcome of its events. */
  lemma {:induction false} ListEntryIsOutcome(o: Oracles, dir: string, e: Entry, typelist: seq<string>, found: seq<string>)
    ensures ListEntry(o, dir, e, typelist, found) == Outcome(EntryEvents(o, dir, e, typelist), found)
    decreases e, 2
  {
    if !Hidden(e.name) {
      match e.node
      case File(content, stat, readable) =>
        var fileType := FileType(e.name);
        if Wanted(fileType, typelist) {
          match Inspect(o, ChildPath(o, dir, e.name), fileType, content, stat, readable)
          case Success(rec) =>
            SingleOutcome(rec, found);
          case Failure(err) =>
            assert Outcome([Fault(err)], found) == Failure(err);
        }
      case _ => ListFilesIsOutcome(o, ChildPath(o, dir, e.name), e.node, typelist, found);
    }
  }

  /** The walk of a listing is exactly the outcome of its events: it fails
      with the first fault in depth-first order, and otherwise returns the
      emitted records with their types noted in order. */
  lemma {:induction false} ListEntriesIsOutcome(o: Oracles, dir: string, entries: seq<Entry>, typelist: seq<string>, found: seq<string>)
    ensures ListEntries(o, dir, entries, typelist, found) == Outcome(EventsIn(o, dir, entries, typelist), found)
    decreases entries, 0
  {
    if entries != [] {
      var head := EntryEvents(o, dir, entries[0], typelist);
      var tail := EventsIn(o, dir, entries[1..], typelist);
      OutcomeAppend(head, tail, found);
      ListEntryIsOutcome(o, dir, entries[0], typelist, found);
      match ListEntry(o, dir, entries[0], typelist, found)
      case Failure(_) =>
      case Success(first) =>
        ListEntriesIsOutcome(o, dir, entries[1..], typelist, first.found);
    }
  }
}
