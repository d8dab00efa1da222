/** Grouping the walk's records by content hash (main.go:140-156) and
    flattening the groups into `FileList.Files` (main.go:180-183). */
module Grouping {
  import opened Records

  /** `FileMap` of main.go:18: digest to duplicate set. */
  type FileMap = map<string, FileInfo>

  /** The records whose digest is `k`, in input order. */
  function WithHash(recs: seq<FileInstance>, k: string): (r: seq<FileInstance>)
    ensures forall i :: 0 <= i < |r| ==> r[i].md5Sum == k
    ensures |r| <= |recs|
    decreases |recs|
  {
    if recs == [] then []
    else
      var last := recs[|recs| - 1];
      WithHash(recs[..|recs| - 1], k) + (if last.md5Sum == k then [last] else [])
  }

  /** A bucket holds exactly the records with its digest. */
  lemma {:induction false} WithHashMembers(recs: seq<FileInstance>, k: string)
    ensures forall f :: f in WithHash(recs, k) <==> f in recs && f.md5Sum == k
    decreases |recs|
  {
    if recs != [] {
      var n := |recs| - 1;
      WithHashMembers(recs[..n], k);
      assert recs == recs[..n] + [recs[n]];
    }
  }

  /** The positions of the records whose digest is `k`, ascending. */
  function Positions(recs: seq<FileInstance>, k: string): (ps: seq<nat>)
    ensures forall t :: 0 <= t < |ps| ==> ps[t] < |recs| && recs[ps[t]].md5Sum == k
    ensures forall t, u :: 0 <= t < u < |ps| ==> ps[t] < ps[u]
    ensures forall i :: 0 <= i < |recs| && recs[i].md5Sum == k ==> i in ps
    decreases |recs|
  {
    if recs == [] then []
    else
      var n := |recs| - 1;
      var init := recs[..n];
      assert forall i :: 0 <= i < n ==> init[i] == recs[i];
      Positions(init, k) + (if recs[n].md5Sum == k then [n] else [])
  }

  /** A bucket lists exactly the records with its digest, in the order of
      their positions in the input. */
  lemma {:induction false} BucketInInputOrder(recs: seq<FileInstance>, k: string)
    ensures |WithHash(recs, k)| == |Positions(recs, k)|
    ensures forall t :: 0 <= t < |WithHash(recs, k)| ==>
      WithHash(recs, k)[t] == recs[Positions(recs, k)[t]]
    decreases |recs|
  {
    if recs != [] {
      var n := |recs| - 1;
      var init := recs[..n];
      BucketInInputOrder(init, k);
      assert forall i :: 0 <= i < n ==> init[i] == recs[i];
    }
  }

  /** One iteration of the grouping loop (main.go:141-154): the first record
      with a digest opens its bucket, later ones are appended to it. */
  function AddToBucket(m: FileMap, f: FileInstance): (r: FileMap)
    ensures r.Keys == m.Keys + {f.md5Sum}
    ensures forall k :: k in m && k != f.md5Sum ==> r[k] == m[k]
    ensures r[f.md5Sum] == FileInfo(f.md5Sum, (if f.md5Sum in m then m[f.md5Sum].instances else []) + [f])
  {
    if f.md5Sum !in m then
      m[f.md5Sum := FileInfo(f.md5Sum, [f])]
    else
      m[f.md5Sum := FileInfo(f.md5Sum, m[f.md5Sum].instances + [f])]
  }

  /** `m` is the grouping of `recs`: every digest of the input has a bucket
      and nothing else does; each bucket is labelled with its key and holds
      exactly the records with that digest, in input order. */
  ghost predicate Groups(m: FileMap, recs: seq<FileInstance>) {
    && (forall k :: k in m <==> exists i :: 0 <= i < |recs| && recs[i].md5Sum == k)
    && (forall k :: k in m ==> m[k].md5Sum == k && m[k].instances == WithHash(recs, k))
  }

  /** The grouping loop of main.go:140-156, continued from the map `m` over
      the records still to come. */
  function GroupInto(m: FileMap, recs: seq<FileInstance>): FileMap
    decreases |recs|
  {
    if recs == [] then m else GroupInto(AddToBucket(m, recs[0]), recs[1..])
  }

  /** The grouping loop over all records, in order, from the empty map. */
  function GroupByHash(recs: seq<FileInstance>): (m: FileMap)
    ensures forall k :: k in m <==> exists i :: 0 <= i < |recs| && recs[i].md5Sum == k
    ensures forall k :: k in m ==> m[k].md5Sum == k && m[k].instances == WithHash(recs, k)
  {
    GroupIntoGroups(map[], [], recs);
    assert [] + recs == recs;
    GroupInto(map[], recs)
  }

  /** Continuing the loop over `recs` from the grouping of `done` gives the
      grouping of `done + recs`. */
  lemma {:induction false} GroupIntoGroups(m: FileMap, done: seq<FileInstance>, recs: seq<FileInstance>)
    requires Groups(m, done)
    ensures Groups(GroupInto(m, recs), done + recs)
    decreases |recs|
  {
    if recs == [] {
      assert done + recs == done;
    } else {
      var f, rest := recs[0], recs[1..];
      assert done + recs == (done + [f]) + rest;
      assert GroupInto(m, recs) == GroupInto(AddToBucket(m, f), rest);
      GroupStep(m, done, f);
      GroupIntoGroups(AddToBucket(m, f), done + [f], rest);
    }
  }

  /** One loop iteration keeps `Groups`. */
  lemma GroupStep(m: FileMap, recs: seq<FileInstance>, f: FileInstance)
    requires Groups(m, recs)
    ensures Groups(AddToBucket(m, f), recs + [f])
  {
    var m' := AddToBucket(m, f);
    var recs' := recs + [f];
    assert recs'[..|recs'| - 1] == recs;
    assert forall i :: 0 <= i < |recs| ==> recs'[i] == recs[i];
    assert recs'[|recs|] == f;
    forall k
      ensures k in m' <==> exists i :: 0 <= i < |recs'| && recs'[i].md5Sum == k
    {
      if k in m' && k != f.md5Sum {
        var i :| 0 <= i < |recs| && recs[i].md5Sum == k;
        assert recs'[i].md5Sum == k;
      }
    }
    WithHashAbsent(recs, f.md5Sum);
    forall k | k in m'
      ensures m'[k].md5Sum == k && m'[k].instances == WithHash(recs', k)
    {
      assert WithHash(recs', k) == WithHash(recs, k) + (if f.md5Sum == k then [f] else []);
    }
  }

  /** A digest no record has selects nothing. */
  lemma {:induction false} WithHashAbsent(recs: seq<FileInstance>, k: string)
    ensures (forall i :: 0 <= i < |recs| ==> recs[i].md5Sum != k) ==> WithHash(recs, k) == []
    decreases |recs|
  {
    if recs != [] {
      var init := recs[..|recs| - 1];
      assert forall i :: 0 <= i < |init| ==> init[i] == recs[i];
      WithHashAbsent(init, k);
    }
  }

  /** Number of instances over a list of buckets. */
  function TotalCount(files: seq<FileInfo>): nat {
    if files == [] then 0 else |files[0].instances| + TotalCount(files[1..])
  }

  /** `files` holds every bucket of `m` exactly once, in some order. */
  predicate EachBucketOnce(files: seq<FileInfo>, m: FileMap) {
    && (forall i :: 0 <= i < |files| ==> files[i].md5Sum in m && files[i] == m[files[i].md5Sum])
    && (forall i, j :: 0 <= i < j < |files| ==> files[i].md5Sum != files[j].md5Sum)
    && (forall k :: k in m ==> exists i :: 0 <= i < |files| && files[i].md5Sum == k)
  }

  /** The flattening loop of main.go:181-183. Go visits a map in no
      particular order, so each step takes any bucket not yet taken. */
  method CollectFiles(m: FileMap) returns (files: seq<FileInfo>)
    requires forall k :: k in m ==> m[k].md5Sum == k
    ensures EachBucketOnce(files, m)
    ensures |files| == |m|
  {
    files := [];
    var rest := m.Keys;
    while rest != {}
      invariant rest <= m.Keys
      invariant |files| + |rest| == |m.Keys|
      invariant forall i :: 0 <= i < |files| ==>
        files[i].md5Sum in m && files[i] == m[files[i].md5Sum] && files[i].md5Sum !in rest
      invariant forall i, j :: 0 <= i < j < |files| ==> files[i].md5Sum != files[j].md5Sum
      invariant forall k :: k in m && k !in rest ==> exists i :: 0 <= i < |files| && files[i].md5Sum == k
      decreases rest
    {
      var k :| k in rest;
      ghost var before := files;
      files := files + [m[k]];
      rest := rest - {k};
      assert forall i :: 0 <= i < |before| ==> files[i] == before[i];
      assert files[|files| - 1].md5Sum == k;
    }
  }

  /** Occurrences of `k` in `ks`. */
  function Occurrences(ks: seq<string>, k: string): nat {
    if ks == [] then 0 else (if ks[0] == k then 1 else 0) + Occurrences(ks[1..], k)
  }

  /** Bucket sizes summed over the digests `ks`. */
  function SumSizes(recs: seq<FileInstance>, ks: seq<string>): nat {
    if ks == [] then 0 else |WithHash(recs, ks[0])| + SumSizes(recs, ks[1..])
  }

  lemma {:induction false} OccurrencesDistinct(ks: seq<string>, k: string)
    requires forall i, j :: 0 <= i < j < |ks| ==> ks[i] != ks[j]
    ensures Occurrences(ks, k) == if k in ks then 1 else 0
  {
    if ks != [] {
      OccurrencesDistinct(ks[1..], k);
      assert k in ks <==> k == ks[0] || k in ks[1..];
    }
  }

  /** One more record adds one to the size of its own bucket only. */
  lemma {:induction false} SumSizesSnoc(recs: seq<FileInstance>, f: FileInstance, ks: seq<string>)
    ensures SumSizes(recs + [f], ks) == SumSizes(recs, ks) + Occurrences(ks, f.md5Sum)
  {
    if ks != [] {
      assert (recs + [f])[..|recs + [f]| - 1] == recs;
      SumSizesSnoc(recs, f, ks[1..]);
    }
  }

  /** Summed over distinct digests that cover the input, bucket sizes add up
      to the number of records. */
  lemma {:induction false} SumSizesCovers(recs: seq<FileInstance>, ks: seq<string>)
    requires forall i, j :: 0 <= i < j < |ks| ==> ks[i] != ks[j]
    requires forall i :: 0 <= i < |recs| ==> recs[i].md5Sum in ks
    ensures SumSizes(recs, ks) == |recs|
    decreases |recs|
  {
    if recs == [] {
      SumSizesEmpty(ks);
    } else {
      var init := recs[..|recs| - 1];
      var f := recs[|recs| - 1];
      assert recs == init + [f];
      SumSizesCovers(init, ks);
      SumSizesSnoc(init, f, ks);
      OccurrencesDistinct(ks, f.md5Sum);
    }
  }

  lemma {:induction false} SumSizesEmpty(ks: seq<string>)
    ensures SumSizes([], ks) == 0
  {
    if ks != [] {
      SumSizesEmpty(ks[1..]);
    }
  }

  /** Listed buckets of the grouping count what their digests select. */
  lemma {:induction false} TotalCountIsSumSizes(recs: seq<FileInstance>, files: seq<FileInfo>)
    requires forall i :: 0 <= i < |files| ==> files[i].instances == WithHash(recs, files[i].md5Sum)
    ensures TotalCount(files) == SumSizes(recs, seq(|files|, i requires 0 <= i < |files| => files[i].md5Sum))
  {
    if files != [] {
      var ks := seq(|files|, i requires 0 <= i < |files| => files[i].md5Sum);
      TotalCountIsSumSizes(recs, files[1..]);
      assert ks[1..] == seq(|files[1..]|, i requires 0 <= i < |files[1..]| => files[1..][i].md5Sum);
    }
  }

  /** However the buckets are listed, as long as each is listed once, they
      hold as many instances as there were records (main.go:140-156,
      181-183). */
  lemma GroupedCountPreserved(recs: seq<FileInstance>, files: seq<FileInfo>)
    requires EachBucketOnce(files, GroupByHash(recs))
    ensures TotalCount(files) == |recs|
  {
    var ks := seq(|files|, i requires 0 <= i < |files| => files[i].md5Sum);
    ListedBucketsSelect(recs, files);
    TotalCountIsSumSizes(recs, files);
    ListedKeysCover(recs, files, ks);
    SumSizesCovers(recs, ks);
  }

  /** Each listed bucket selects its digest's records. */
  lemma ListedBucketsSelect(recs: seq<FileInstance>, files: seq<FileInfo>)
    requires EachBucketOnce(files, GroupByHash(recs))
    ensures forall i :: 0 <= i < |files| ==> files[i].instances == WithHash(recs, files[i].md5Sum)
  {
    var m := GroupByHash(recs);
    forall i | 0 <= i < |files|
      ensures files[i].instances == WithHash(recs, files[i].md5Sum)
    {
      assert files[i] == m[files[i].md5Sum];
    }
  }

  /** The listed digests are distinct and include every record's digest. */
  lemma ListedKeysCover(recs: seq<FileInstance>, files: seq<FileInfo>, ks: seq<string>)
    requires EachBucketOnce(files, GroupByHash(recs))
    requires ks == seq(|files|, i requires 0 <= i < |files| => files[i].md5Sum)
    ensures forall i, j :: 0 <= i < j < |ks| ==> ks[i] != ks[j]
    ensures forall i :: 0 <= i < |recs| ==> recs[i].md5Sum in ks
  {
    var m := GroupByHash(recs);
    forall i | 0 <= i < |recs|
      ensures recs[i].md5Sum in ks
    {
      assert recs[i].md5Sum in m;
      var j :| 0 <= j < |files| && files[j].md5Sum == recs[i].md5Sum;
      assert ks[j] == recs[i].md5Sum;
    }
  }
}
