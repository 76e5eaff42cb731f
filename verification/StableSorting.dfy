/** The stable sort that model selection uses: by falling rank, equal ranks in their old order. */
module StableSorting {
  function Insert<T>(sorted: seq<T>, x: T, rank: T -> nat): seq<T> {
    var n := |sorted| - 1;
    if sorted == [] || rank(sorted[n]) >= rank(x) then sorted + [x]
    else Insert(sorted[..n], x, rank) + [sorted[n]]
  }

  function StableSort<T>(s: seq<T>, rank: T -> nat): seq<T> {
    if s == [] then [] else Insert(StableSort(s[..|s| - 1], rank), s[|s| - 1], rank)
  }

  predicate Descending<T>(s: seq<T>, rank: T -> nat) {
    forall j, k | 0 <= j < k < |s| :: rank(s[j]) >= rank(s[k])
  }

  /** The elements of one rank, in order. */
  function OfRank<T>(s: seq<T>, rank: T -> nat, r: nat): seq<T> {
    if s == [] then []
    else OfRank(s[..|s| - 1], rank, r) + (if rank(s[|s| - 1]) == r then [s[|s| - 1]] else [])
  }

  lemma OfRankGrow<T>(s: seq<T>, x: T, rank: T -> nat, r: nat)
    ensures OfRank(s + [x], rank, r) == OfRank(s, rank, r) + (if rank(x) == r then [x] else [])
  {
    assert (s + [x])[..|s|] == s;
  }

  lemma {:induction false} InsertIsDescending<T>(sorted: seq<T>, x: T, rank: T -> nat)
    requires Descending(sorted, rank)
    ensures var t := Insert(sorted, x, rank);
            && |t| == |sorted| + 1 && Descending(t, rank)
            && rank(t[|sorted|])
               == if sorted != [] && rank(sorted[|sorted| - 1]) < rank(x) then rank(sorted[|sorted| - 1]) else rank(x)
  {
    var n := |sorted| - 1;
    if sorted != [] && rank(sorted[n]) < rank(x) {
      InsertIsDescending(sorted[..n], x, rank);
      var t := Insert(sorted[..n], x, rank);
      assert forall j | 0 <= j < n :: rank(t[j]) >= rank(t[n]);
    }
  }

  lemma {:induction false} InsertKeepsOrder<T>(sorted: seq<T>, x: T, rank: T -> nat, r: nat)
    ensures OfRank(Insert(sorted, x, rank), rank, r) == OfRank(sorted + [x], rank, r)
  {
    var n := |sorted| - 1;
    OfRankGrow(sorted, x, rank, r);
    if sorted != [] && rank(sorted[n]) < rank(x) {
      InsertKeepsOrder(sorted[..n], x, rank, r);
      OfRankGrow(Insert(sorted[..n], x, rank), sorted[n], rank, r);
      OfRankGrow(sorted[..n], x, rank, r);
    }
  }

  /** The sort orders by falling rank and keeps the order, and the elements, within each rank. */
  lemma {:induction false} SortIsStable<T>(s: seq<T>, rank: T -> nat, r: nat)
    ensures |StableSort(s, rank)| == |s|
    ensures Descending(StableSort(s, rank), rank)
    ensures OfRank(StableSort(s, rank), rank, r) == OfRank(s, rank, r)
  {
    if s != [] {
      var n := |s| - 1;
      var t := StableSort(s[..n], rank);
      SortIsStable(s[..n], rank, r);
      InsertIsDescending(t, s[n], rank);
      InsertKeepsOrder(t, s[n], rank, r);
      OfRankGrow(t, s[n], rank, r);
    }
  }

  lemma {:induction false} InsertAtHead<T>(sorted: seq<T>, x: T, rank: T -> nat)
    requires Descending(sorted, rank)
    ensures |Insert(sorted, x, rank)| > 0
    ensures Insert(sorted, x, rank)[0] == if sorted == [] || rank(sorted[0]) < rank(x) then x else sorted[0]
  {
    var n := |sorted| - 1;
    if sorted != [] && rank(sorted[n]) < rank(x) {
      InsertAtHead(sorted[..n], x, rank);
    }
  }

  /** Element k is the earliest of the highest rank. */
  predicate Leads<T>(s: seq<T>, rank: T -> nat, k: nat) {
    && k < |s|
    && (forall j | 0 <= j < |s| :: rank(s[j]) <= rank(s[k]))
    && (forall j | 0 <= j < k :: rank(s[j]) < rank(s[k]))
  }

  /** The first element of the sorted sequence is the earliest one of the highest rank. */
  lemma {:induction false} SortedHeadLeads<T>(s: seq<T>, rank: T -> nat) returns (k: nat)
    requires s != []
    ensures Leads(s, rank, k) && |StableSort(s, rank)| > 0 && StableSort(s, rank)[0] == s[k]
  {
    var n := |s| - 1;
    var before := s[..n];
    SortIsStable(before, rank, 0);
    InsertAtHead(StableSort(before, rank), s[n], rank);
    if n == 0 {
      k := 0;
    } else {
      k := SortedHeadLeads(before, rank);
      assert s[k] == before[k];
      assert forall j | 0 <= j < n :: s[j] == before[j] && rank(s[j]) <= rank(s[k]);
      k := if rank(s[k]) < rank(s[n]) then n else k;
    }
  }

  // ---------------------------------------------------------------------------------------------
  // Filtering before sorting
  // ---------------------------------------------------------------------------------------------

  function Filter<T>(s: seq<T>, p: T -> bool): seq<T> {
    if s == [] then []
    else
      var n := |s| - 1;
      if p(s[n]) then Filter(s[..n], p) + [s[n]] else Filter(s[..n], p)
  }

  /** Element i is the earliest of the highest rank among those that pass. */
  predicate Best<T>(s: seq<T>, p: T -> bool, rank: T -> nat, i: nat) {
    && i < |s| && p(s[i])
    && (forall j | 0 <= j < |s| && p(s[j]) :: rank(s[j]) <= rank(s[i]))
    && (forall j | 0 <= j < i && p(s[j]) :: rank(s[j]) < rank(s[i]))
  }

  lemma {:induction false} FilterKeeps<T>(s: seq<T>, p: T -> bool, j: nat) returns (k: nat)
    requires j < |s| && p(s[j])
    ensures k < |Filter(s, p)| && Filter(s, p)[k] == s[j]
  {
    var n := |s| - 1;
    if j == n {
      k := |Filter(s[..n], p)|;
    } else {
      k := FilterKeeps(s[..n], p, j);
    }
  }

  lemma {:induction false} FilterPasses<T>(s: seq<T>, p: T -> bool, k: nat) returns (j: nat)
    requires k < |Filter(s, p)|
    ensures j < |s| && p(s[j]) && s[j] == Filter(s, p)[k]
  {
    var n := |s| - 1;
    if k == |Filter(s[..n], p)| {
      j := n;
    } else {
      j := FilterPasses(s[..n], p, k);
    }
  }

  /** What leads the filtered sequence is the best of the whole. */
  lemma {:induction false} LeaderOfFilter<T>(s: seq<T>, p: T -> bool, rank: T -> nat, k: nat) returns (i: nat)
    requires Leads(Filter(s, p), rank, k)
    ensures Best(s, p, rank, i) && s[i] == Filter(s, p)[k]
  {
    var n := |s| - 1;
    var before, all := Filter(s[..n], p), Filter(s, p);
    assert forall j | 0 <= j < |before| :: before[j] == all[j];
    if k < |before| {
      i := LeaderOfFilter(s[..n], p, rank, k);
      assert forall j | 0 <= j < n :: s[..n][j] == s[j];
      if p(s[n]) {
        assert all[|before|] == s[n];
      }
    } else {
      i := n;
      forall j | 0 <= j < n && p(s[j]) ensures rank(s[j]) < rank(s[n]) {
        var l := FilterKeeps(s[..n], p, j);
        assert all[l] == s[j];
      }
    }
  }

  // ---------------------------------------------------------------------------------------------
  // Sorting in place
  // ---------------------------------------------------------------------------------------------

  /** x goes before exactly those last elements that rank lower. */
  lemma {:induction false} InsertPlaces<T>(sorted: seq<T>, x: T, rank: T -> nat, j: nat)
    requires j <= |sorted| && (j == 0 || rank(sorted[j - 1]) >= rank(x))
    requires forall k | j <= k < |sorted| :: rank(sorted[k]) < rank(x)
    ensures Insert(sorted, x, rank) == sorted[..j] + [x] + sorted[j..]
  {
    var n := |sorted| - 1;
    if j <= n {
      InsertPlaces(sorted[..n], x, rank, j);
      assert sorted[..n][..j] == sorted[..j] && sorted[..n][j..] + [sorted[n]] == sorted[j..];
    }
  }

  /** Element i has moved down to place j, and those from there on up by one. */
  predicate Moved<T(==)>(was: seq<T>, now: seq<T>, i: nat, j: nat) {
    && |now| == |was| && j <= i < |was| && now[j] == was[i]
    && (forall k | 0 <= k < j :: now[k] == was[k])
    && (forall k | j < k <= i :: now[k] == was[k - 1])
    && (forall k | i < k < |was| :: now[k] == was[k])
  }

  lemma MovedOn<T>(was: seq<T>, now: seq<T>, i: nat, j: nat)
    requires Moved(was, now, i, j) && j > 0
    ensures now[j - 1] == was[j - 1]
    ensures Moved(was, now[j := now[j - 1]][j - 1 := now[j]], i, j - 1)
  {
  }

  lemma MovedFarEnough<T>(was: seq<T>, now: seq<T>, rank: T -> nat, i: nat, j: nat)
    requires Moved(was, now, i, j) && (j == 0 || rank(was[j - 1]) >= rank(was[i]))
    requires forall k | j <= k < i :: rank(was[k]) < rank(was[i])
    ensures now[..i + 1] == Insert(was[..i], was[i], rank)
    ensures now[i + 1..] == was[i + 1..]
  {
    InsertPlaces(was[..i], was[i], rank, j);
    assert now[..i + 1] == was[..i][..j] + [was[i]] + was[..i][j..];
  }

  /** Sinks element i of the array into the sorted elements before it. */
  method Sink<T(==)>(a: array<T>, i: nat, rank: T -> nat)
    requires i < a.Length
    modifies a
    ensures a[..][..i + 1] == Insert(old(a[..])[..i], old(a[..])[i], rank)
    ensures a[..][i + 1..] == old(a[..])[i + 1..]
  {
    ghost var was := a[..];
    var j: nat := i;
    while j > 0 && rank(a[j - 1]) < rank(a[j])
      invariant Moved(was, a[..], i, j)
      invariant forall k | j <= k < i :: rank(was[k]) < rank(was[i])
    {
      MovedOn(was, a[..], i, j);
      a[j - 1], a[j] := a[j], a[j - 1];
      j := j - 1;
    }
    MovedFarEnough(was, a[..], rank, i, j);
  }

  /** sort.SliceStable, in place. */
  method SortStable<T(==)>(a: array<T>, rank: T -> nat)
    modifies a
    ensures a[..] == StableSort(old(a[..]), rank)
  {
    ghost var was := a[..];
    for i := 0 to a.Length
      invariant a[..][..i] == StableSort(was[..i], rank) && a[..][i..] == was[i..]
    {
      assert was[..i + 1][..i] == was[..i];
      assert a[..][i..][0] == was[i] && a[..][i..][1..] == was[i + 1..];
      Sink(a, i, rank);
    }
    assert a[..] == a[..][..a.Length] && was[..a.Length] == was;
  }
}
