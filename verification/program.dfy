/** The data flow of `main` (main.go:105-188) up to the files it writes:
    scan the arguments, walk the chosen directory, group the records by
    digest, write the grouping and assemble the summary list. Each `panic`
    of `main` is a `Failure`. */
module Program {
  import opened Wrappers
  import opened Records
  import opened Library
  import opened Walk
  import opened WalkSpec
  import opened Grouping
  import opened Args

  /** Why `main` panics: the walk failed (main.go:132-135), or writing one
      of the two grouping files failed (main.go:166-169, 172-175). */
  datatype RunError = WalkFailed(cause: WalkError) | WriteFailed(path: string)

  /** What `main` has computed by the time it writes its last file: the
      scanned settings, the walk's records and types, the digest map and
      the summary list. */
  datatype Report = Report(config: Config, records: seq<FileInstance>, found: seq<string>,
                           fmap: FileMap, list: FileList)

  /** `fs` gives the tree found at a path, `canWrite` whether
      `os.WriteFile` succeeds at a path (it never does at ""), `now` the
      Unix time read at the end of `main`, `outName` the
      `filelist-<time>.json` name. */
  method Run(o: Oracles, fs: string -> Node, canWrite: string -> bool, now: int, outName: string,
             args: seq<string>)
    returns (r: Result<Report, RunError>)
    ensures var cfg := ScanArgs(o, outName, args);
      var walk := ListFiles(o, cfg.dir, fs(cfg.dir), cfg.types, []);
      && (walk.Failure? ==> r == Failure(WalkFailed(walk.error)))
      && (walk.Success? && !canWrite(cfg.savePath) ==> r == Failure(WriteFailed(cfg.savePath)))
      && (walk.Success? && canWrite(cfg.savePath) && !canWrite(cfg.savePath + ".txt") ==>
            r == Failure(WriteFailed(cfg.savePath + ".txt")))
      && (r.Success? <==> walk.Success? && canWrite(cfg.savePath) && canWrite(cfg.savePath + ".txt"))
    ensures (forall j :: 0 <= j < |args| ==> !IsKey(args[j], "savepath")) && !canWrite("") ==> r.Failure?
    ensures r.Success? ==>
      var rep := r.value;
      var walk := ListFiles(o, rep.config.dir, fs(rep.config.dir), rep.config.types, []);
      && rep.config == ScanArgs(o, outName, args)
      && walk == Success(Listing(rep.records, rep.found))
      && rep.fmap == GroupByHash(rep.records)
      && EachBucketOnce(rep.list.files, rep.fmap)
      && TotalCount(rep.list.files) == |rep.records|
      && rep.list == FileList(now, rep.config.dir, rep.found, rep.list.files)
  {
    var cfg := ScanArgs(o, outName, args);
    if forall j :: 0 <= j < |args| ==> !IsKey(args[j], "savepath") {
      SavePathDefaultsToEmpty(o, outName, args);
    }
    var walk := ListFiles(o, cfg.dir, fs(cfg.dir), cfg.types, []);
    if walk.Failure? {
      return Failure(WalkFailed(walk.error));
    }
    var fmap := GroupByHash(walk.value.records);
    if !canWrite(cfg.savePath) {
      return Failure(WriteFailed(cfg.savePath));
    }
    if !canWrite(cfg.savePath + ".txt") {
      return Failure(WriteFailed(cfg.savePath + ".txt"));
    }
    var files := CollectFiles(fmap);
    GroupedCountPreserved(walk.value.records, files);
    var list := NewFileList(now, cfg.dir, cfg.types);
    list := list.(fileTypes := walk.value.found, dirPath := cfg.dir, dateMade := now, files := files);
    r := Success(Report(cfg, walk.value.records, walk.value.found, fmap, list));
  }

  /** Every record the walk returned sits in exactly one bucket of the
      summary list, the one for its digest, and nowhere else. */
  lemma RecordInItsBucket(recs: seq<FileInstance>, files: seq<FileInfo>, i: nat)
    requires EachBucketOnce(files, GroupByHash(recs))
    requires i < |recs|
    ensures exists b :: 0 <= b < |files| && files[b].md5Sum == recs[i].md5Sum && recs[i] in files[b].instances
    ensures forall b :: 0 <= b < |files| && recs[i] in files[b].instances ==> files[b].md5Sum == recs[i].md5Sum
  {
    var m := GroupByHash(recs);
    var k := recs[i].md5Sum;
    assert k in m;
    var b :| 0 <= b < |files| && files[b].md5Sum == k;
    WithHashMembers(recs, k);
    forall b' | 0 <= b' < |files| && recs[i] in files[b'].instances
      ensures files[b'].md5Sum == k
    {
      var j :| 0 <= j < |files[b'].instances| && files[b'].instances[j] == recs[i];
    }
  }
}
