/**
 The edge indexes of the topology store (mock_tms/store.py): sorting the pool by id and grouping
 it by one end.
 */
module EdgeIndex {
  import opened Base
  import opened Topology

  // ---------------------------------------------------------------- string order

  /** Strings in code-point order, a proper prefix first. */
  predicate Less(a: string, b: string) {
    if b == "" then false
    else if a == "" then true
    else a[0] < b[0] || (a[0] == b[0] && Less(a[1..], b[1..]))
  }

  lemma {:induction false} LessIsTotal(a: string, b: string)
    ensures Less(a, b) || a == b || Less(b, a)
  {
    if a != "" && b != "" && a[0] == b[0] {
      LessIsTotal(a[1..], b[1..]);
      assert a == [a[0]] + a[1..] && b == [b[0]] + b[1..];
    }
  }

  lemma {:induction false} LessIsTransitive(a: string, b: string, c: string)
    requires Less(a, b) && Less(b, c)
    ensures Less(a, c)
  {
    if a != "" && a[0] == b[0] == c[0] {
      LessIsTransitive(a[1..], b[1..], c[1..]);
    }
  }

  lemma {:induction false} LessIsStrict(a: string)
    ensures !Less(a, a)
  {
    if a != "" {
      LessIsStrict(a[1..]);
    }
  }

  /** The two agree up to position `k`, and there `a` ends first or has the lower character. */
  ghost predicate PrecedesAt(a: string, b: string, k: nat) {
    k <= |a| && k < |b| && a[..k] == b[..k] && (k < |a| ==> a[k] < b[k])
  }

  lemma {:induction false} LessIff(a: string, b: string)
    ensures Less(a, b) <==> exists k: nat :: PrecedesAt(a, b, k)
  {
    if a == "" && b != "" {
      assert PrecedesAt(a, b, 0);
    } else if a != "" && b != "" {
      LessIff(a[1..], b[1..]);
      if Less(a, b) && a[0] == b[0] {
        var k: nat :| PrecedesAt(a[1..], b[1..], k);
        assert a[..k + 1] == [a[0]] + a[1..][..k] && b[..k + 1] == [b[0]] + b[1..][..k];
        assert PrecedesAt(a, b, k + 1);
      } else if Less(a, b) {
        assert PrecedesAt(a, b, 0);
      }
      if k: nat :| PrecedesAt(a, b, k) {
        if k > 0 {
          assert a[0] == a[..k][0] && b[0] == b[..k][0];
          assert a[1..][..k - 1] == a[..k][1..] && b[1..][..k - 1] == b[..k][1..];
          assert PrecedesAt(a[1..], b[1..], k - 1);
        }
      }
    }
  }

  // ---------------------------------------------------------------- sorting

  /** Into its place, after those that do not come later. */
  function Insert(e: Edge, sorted: seq<Edge>): seq<Edge> {
    if sorted == [] then [e]
    else if Less(e.id, sorted[0].id) then [e] + sorted
    else [sorted[0]] + Insert(e, sorted[1..])
  }

  function SortedById(edges: seq<Edge>): seq<Edge> {
    if edges == [] then [] else Insert(Last(edges), SortedById(edges[..|edges| - 1]))
  }

  predicate IsSorted(s: seq<Edge>) {
    forall i, j :: 0 <= i < j < |s| ==> Less(s[i].id, s[j].id)
  }

  lemma {:induction false} InsertKeepsElements(e: Edge, sorted: seq<Edge>)
    ensures multiset(Insert(e, sorted)) == multiset(sorted) + multiset{e}
  {
    if sorted != [] {
      assert sorted == [sorted[0]] + sorted[1..];
      if !Less(e.id, sorted[0].id) {
        InsertKeepsElements(e, sorted[1..]);
      }
    }
  }

  lemma InsertedOrOld(e: Edge, sorted: seq<Edge>, x: Edge)
    ensures x in Insert(e, sorted) <==> x == e || x in sorted
  {
    InsertKeepsElements(e, sorted);
    assert x in Insert(e, sorted) <==> x in multiset(Insert(e, sorted));
  }

  lemma HeadFirst(head: Edge, tail: seq<Edge>)
    requires IsSorted(tail) && forall i :: 0 <= i < |tail| ==> Less(head.id, tail[i].id)
    ensures IsSorted([head] + tail)
  {
    hide Less;
  }

  lemma {:induction false} InsertKeepsOrder(e: Edge, sorted: seq<Edge>)
    requires IsSorted(sorted) && forall i :: 0 <= i < |sorted| ==> sorted[i].id != e.id
    ensures IsSorted(Insert(e, sorted))
  {
    if sorted != [] {
      var head, tail := sorted[0], sorted[1..];
      if Less(e.id, head.id) {
        forall i | 0 <= i < |sorted|
          ensures Less(e.id, sorted[i].id)
        {
          if i > 0 {
            LessIsTransitive(e.id, head.id, sorted[i].id);
          }
        }
      } else {
        LessIsTotal(e.id, head.id);
        InsertKeepsOrder(e, tail);
        var placed := Insert(e, tail);
        forall i | 0 <= i < |placed|
          ensures Less(head.id, placed[i].id)
        {
          InsertedOrOld(e, tail, placed[i]);
        }
        HeadFirst(head, placed);
      }
    }
  }

  /** Sorting permutes, and with unique ids the result is in strict order. */
  lemma {:induction false} SortingSorts(edges: seq<Edge>)
    ensures multiset(SortedById(edges)) == multiset(edges)
    ensures DistinctIds(edges) ==> IsSorted(SortedById(edges))
  {
    if edges != [] {
      var before, e := edges[..|edges| - 1], Last(edges);
      assert edges == before + [e];
      SortingSorts(before);
      InsertKeepsElements(e, SortedById(before));
      if DistinctIds(edges) {
        forall i | 0 <= i < |SortedById(before)|
          ensures SortedById(before)[i].id != e.id
        {
          assert SortedById(before)[i] in multiset(before);
        }
        InsertKeepsOrder(e, SortedById(before));
      }
    }
  }

  lemma SameHead(s: seq<Edge>, t: seq<Edge>)
    requires IsSorted(s) && IsSorted(t) && s != [] && t != [] && s[0] in t && t[0] in s
    ensures s[0] == t[0]
  {
    hide Less;
    if s[0] != t[0] {
      LessIsStrict(s[0].id);
      LessIsTransitive(s[0].id, t[0].id, s[0].id);
    }
  }

  lemma InTail(s: seq<Edge>, e: Edge)
    requires IsSorted(s) && s != []
    ensures e in s[1..] <==> e in s && e != s[0]
  {
    hide Less;
    LessIsStrict(s[0].id);
  }

  /** Two strictly sorted lists of the same edges are the same list. */
  lemma {:induction false} SortedIsUnique(s: seq<Edge>, t: seq<Edge>)
    requires IsSorted(s) && IsSorted(t) && forall e :: e in s <==> e in t
    ensures s == t
  {
    hide Less;
    assert (s != [] ==> s[0] in t) && (t != [] ==> t[0] in s);
    if s != [] {
      SameHead(s, t);
      forall e
        ensures e in s[1..] <==> e in t[1..]
      {
        InTail(s, e);
        InTail(t, e);
      }
      SortedIsUnique(s[1..], t[1..]);
      assert s == [s[0]] + s[1..] && t == [t[0]] + t[1..];
    }
  }

  // ---------------------------------------------------------------- grouping

  function Origin(e: Edge): string {
    e.origin
  }

  function Destination(e: Edge): string {
    e.destination
  }

  /** The edges with a given end, in order. */
  function Filter(edges: seq<Edge>, key: Edge -> string, location: string): seq<Edge> {
    if edges == [] then []
    else
      Filter(edges[..|edges| - 1], key, location) + (if key(Last(edges)) == location then [Last(edges)] else [])
  }

  type Index = map<string, seq<Edge>>

  function LookUp(index: Index, location: string): seq<Edge> {
    if location in index then index[location] else []
  }

  /** Every lookup gives exactly the edges with that end, in id order; no bucket is empty. */
  predicate AgreesAt(index: Index, sorted: seq<Edge>, key: Edge -> string, location: string) {
    && LookUp(index, location) == Filter(sorted, key, location)
    && (location in index ==> index[location] != [])
  }

  ghost predicate IndexAgrees(index: Index, sorted: seq<Edge>, key: Edge -> string) {
    forall location: string :: AgreesAt(index, sorted, key, location)
  }

  method IndexBy(edges: seq<Edge>, key: Edge -> string) returns (index: Index)
    ensures IndexAgrees(index, SortedById(edges), key)
  {
    hide SortedById;
    var sorted := SortedById(edges);
    index := map[];
    for k := 0 to |sorted|
      invariant IndexAgrees(index, sorted[..k], key)
    {
      var e := sorted[k];
      assert AgreesAt(index, sorted[..k], key, key(e));
      ghost var before := index;
      index := index[key(e) := (if key(e) in index then index[key(e)] else []) + [e]];
      ghost var done := sorted[..k + 1];
      assert done[..k] == sorted[..k];
      forall location: string
        ensures AgreesAt(index, done, key, location)
      {
        assert AgreesAt(before, sorted[..k], key, location);
      }
    }
    assert sorted[..|sorted|] == sorted;
  }

  lemma {:induction false} FilterKeepsExactly(edges: seq<Edge>, key: Edge -> string, location: string, e: Edge)
    ensures e in Filter(edges, key, location) <==> e in edges && key(e) == location
  {
    if edges != [] {
      FilterKeepsExactly(edges[..|edges| - 1], key, location, e);
      assert edges == edges[..|edges| - 1] + [Last(edges)];
    }
  }

  lemma {:induction false} FilterKeepsOrder(edges: seq<Edge>, key: Edge -> string, location: string)
    requires IsSorted(edges)
    ensures IsSorted(Filter(edges, key, location))
  {
    hide Less;
    if edges != [] {
      var before := edges[..|edges| - 1];
      FilterKeepsOrder(before, key, location);
      var kept := Filter(before, key, location);
      forall i | 0 <= i < |kept|
        ensures Less(kept[i].id, Last(edges).id)
      {
        FilterKeepsExactly(before, key, location, kept[i]);
        var j :| 0 <= j < |before| && before[j] == kept[i];
        assert edges[j] == kept[i];
      }
    }
  }

  /** The buckets partition the pool: an edge is found under its own end and nowhere else. */
  lemma BucketsPartition(index: Index, edges: seq<Edge>, key: Edge -> string, location: string)
    requires DistinctIds(edges) && IndexAgrees(index, SortedById(edges), key)
    ensures IsSorted(LookUp(index, location))
    ensures forall e :: e in LookUp(index, location) <==> e in edges && key(e) == location
  {
    hide Less, SortedById, Filter, IsSorted;
    SortingSorts(edges);
    assert AgreesAt(index, SortedById(edges), key, location);
    FilterKeepsOrder(SortedById(edges), key, location);
    forall e
      ensures e in LookUp(index, location) <==> e in edges && key(e) == location
    {
      FilterKeepsExactly(SortedById(edges), key, location, e);
      assert e in edges <==> e in multiset(SortedById(edges));
    }
  }
}
