/** The discovered-types list (`typesFound` in main.go): a sequence that is
    only ever extended at its end, and only by a type it does not hold yet. */
module TypeList {

  predicate NoDups(s: seq<string>) {
    forall i, j :: 0 <= i < j < |s| ==> s[i] != s[j]
  }

  /** Records `t` as found: appended when absent, otherwise nothing changes. */
  function NoteType(found: seq<string>, t: string): (r: seq<string>)
    ensures t in r
    ensures forall x :: x in r <==> x in found || x == t
    ensures |found| <= |r| && r[..|found|] == found
    ensures t in found ==> r == found
    ensures NoDups(found) ==> NoDups(r)
  {
    if t in found then found else found + [t]
  }

  /** Records every type of `ts`, in order. */
  function NoteAll(found: seq<string>, ts: seq<string>): (r: seq<string>)
    ensures forall x :: x in r <==> x in found || x in ts
    ensures |found| <= |r| && r[..|found|] == found
    ensures NoDups(found) ==> NoDups(r)
    decreases |ts|
  {
    if ts == [] then found else NoteAll(NoteType(found, ts[0]), ts[1..])
  }

  /** Noting a concatenation is noting one part after the other. */
  lemma {:induction false} NoteAllAppend(found: seq<string>, a: seq<string>, b: seq<string>)
    ensures NoteAll(found, a + b) == NoteAll(NoteAll(found, a), b)
    decreases |a|
  {
    if a == [] {
      assert a + b == b;
    } else {
      var f1 := NoteType(found, a[0]);
      assert (a + b)[0] == a[0];
      assert (a + b)[1..] == a[1..] + b;
      assert NoteAll(found, a + b) == NoteAll(f1, a[1..] + b);
      assert NoteAll(found, a) == NoteAll(f1, a[1..]);
      NoteAllAppend(f1, a[1..], b);
    }
  }

  /** Index of the first occurrence of `x` in `s`. */
  function FirstIndex<T(==)>(s: seq<T>, x: T): (i: nat)
    requires x in s
    ensures i < |s| && s[i] == x && x !in s[..i]
  {
    if s[0] == x then 0 else 1 + FirstIndex(s[1..], x)
  }

  /** Starting from nothing, the list holds the types in the order in which
      each was first seen. */
  lemma {:induction false} NoteAllFirstSeenOrder(ts: seq<string>, i: nat, j: nat)
    requires i < j < |NoteAll([], ts)|
    ensures NoteAll([], ts)[i] in ts && NoteAll([], ts)[j] in ts
    ensures FirstIndex(ts, NoteAll([], ts)[i]) < FirstIndex(ts, NoteAll([], ts)[j])
  {
    NoteAllFirstSeenOrderAux([], ts, 0, i, j);
  }

  /** The invariant behind `NoteAllFirstSeenOrder`: every element of `found`
      precedes every newly noted element of `ts`, and newly noted elements
      keep the order of their first occurrence in `ts`. */
  lemma {:induction false} NoteAllFirstSeenOrderAux(found: seq<string>, ts: seq<string>, k: nat, i: nat, j: nat)
    requires NoDups(found)
    requires k == |found| && k <= i < j < |NoteAll(found, ts)|
    ensures NoteAll(found, ts)[i] in ts && NoteAll(found, ts)[j] in ts
    ensures FirstIndex(ts, NoteAll(found, ts)[i]) < FirstIndex(ts, NoteAll(found, ts)[j])
    decreases |ts|
  {
    var r := NoteAll(found, ts);
    if ts == [] {
      assert false;
    } else {
      var f1 := NoteType(found, ts[0]);
      assert r == NoteAll(f1, ts[1..]);
      if ts[0] in found {
        assert f1 == found;
        NoteAllFirstSeenOrderAux(found, ts[1..], k, i, j);
        NotedNotInFound(found, ts, i);
        NotedNotInFound(found, ts, j);
      } else if i == k {
        assert r[i] == f1[k] == ts[0];
        NotedNotInFound(f1, ts[1..], j);
        assert r[j] != ts[0];
        assert r[j] in ts[1..];
      } else {
        NoteAllFirstSeenOrderAux(f1, ts[1..], k + 1, i, j);
        NotedNotInFound(f1, ts[1..], i);
        NotedNotInFound(f1, ts[1..], j);
      }
    }
  }

  /** A newly noted element came from `ts`, is not the same as anything
      already noted, and so differs from `ts[0]` once `ts[0]` is noted. */
  lemma NotedNotInFound(found: seq<string>, ts: seq<string>, i: nat)
    requires NoDups(found)
    requires |found| <= i < |NoteAll(found, ts)|
    ensures NoteAll(found, ts)[i] !in found
    ensures NoteAll(found, ts)[i] in ts
  {
    var r := NoteAll(found, ts);
    assert forall a :: 0 <= a < |found| ==> r[a] == found[a];
  }
}
