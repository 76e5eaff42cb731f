/** Tool calls under assembly, shared by both stream decoders (roots/llm/clientadapter.go). */
module ToolCalls {
  datatype ToolCall = ToolCall(id: string, kind: string, name: string, arguments: string)

  /** Go's int on a 64-bit platform; a stream may name any index. */
  type Index = i: int | -0x8000_0000_0000_0000 <= i < 0x8000_0000_0000_0000

  /** Open calls by the index that fragments name. */
  type Accumulators = map<Index, ToolCall>

  /** Calls that a decoder has emitted, oldest first. The wire form has no index; it is kept here to say where
      a call's bytes came from. */
  type Emission = seq<(Index, ToolCall)>

  datatype Decoding = Decoding(open: Accumulators, emitted: Emission)

  function OpenArguments(open: Accumulators, i: Index): string {
    if i in open then open[i].arguments else ""
  }

  /** The argument bytes of the emitted calls of index i, in order. */
  function EmittedArguments(emitted: Emission, i: Index): string {
    if emitted == [] then ""
    else
      var n := |emitted| - 1;
      EmittedArguments(emitted[..n], i) + (if emitted[n].0 == i then emitted[n].1.arguments else "")
  }

  function Calls(emitted: Emission): seq<ToolCall> {
    seq(|emitted|, k requires 0 <= k < |emitted| => emitted[k].1)
  }

  lemma {:induction false} EmittedArgumentsConcat(a: Emission, b: Emission, i: Index)
    ensures EmittedArguments(a + b, i) == EmittedArguments(a, i) + EmittedArguments(b, i)
  {
    if b == [] {
      assert a + b == a;
    } else {
      var n := |b| - 1;
      EmittedArgumentsConcat(a, b[..n], i);
      assert (a + b)[..|a + b| - 1] == a + b[..n];
    }
  }

  // ---------------------------------------------------------------------------------------------
  // Ascending order of indexes
  // ---------------------------------------------------------------------------------------------

  ghost predicate Ascending(s: seq<Index>) {
    forall j, k | 0 <= j < k < |s| :: s[j] < s[k]
  }

  /** s lists the set `keys` in ascending order. */
  ghost predicate Lists(s: seq<Index>, keys: set<Index>) {
    Ascending(s) && |s| == |keys| && forall i :: i in s <==> i in keys
  }

  lemma FirstIsLeast(s: seq<Index>, keys: set<Index>)
    requires Lists(s, keys) && s != []
    ensures s[0] in keys && (forall i <- keys :: s[0] <= i) && Lists(s[1..], keys - {s[0]})
  {
    assert s[0] in s;
    forall i ensures i in s[1..] <==> i in keys - {s[0]} {
      assert s == [s[0]] + s[1..];
    }
  }

  lemma {:induction false} ListingIsUnique(s: seq<Index>, t: seq<Index>, keys: set<Index>)
    requires Lists(s, keys) && Lists(t, keys)
    ensures s == t
    decreases |s|
  {
    if s != [] {
      FirstIsLeast(s, keys);
      FirstIsLeast(t, keys);
      assert s[0] == t[0];
      ListingIsUnique(s[1..], t[1..], keys - {s[0]});
      assert s == [s[0]] + s[1..] && t == [t[0]] + t[1..];
    }
  }

  lemma {:induction false} SomeLeast(keys: set<Index>) returns (m: Index)
    requires keys != {}
    ensures m in keys && forall i <- keys :: m <= i
  {
    var k :| k in keys;
    var rest := keys - {k};
    m := k;
    if rest != {} {
      var n := SomeLeast(rest);
      m := if n < k then n else k;
    }
    forall i <- keys ensures m <= i {
      assert i == k || i in rest;
    }
  }

  ghost function Least(keys: set<Index>): (m: Index)
    requires keys != {}
    ensures m in keys && forall i <- keys :: m <= i
  {
    assert exists m :: m in keys && forall i <- keys :: m <= i by { var m := SomeLeast(keys); }
    var m :| m in keys && forall i <- keys :: m <= i;
    m
  }

  lemma LeastFirst(s: seq<Index>, m: Index, keys: set<Index>)
    requires m in keys && (forall i <- keys :: m <= i) && Lists(s, keys - {m})
    ensures Lists([m] + s, keys)
  {
    forall k | 0 <= k < |s| ensures m < s[k] {
      assert s[k] in s && s[k] in keys - {m};
    }
    assert forall i :: i in [m] + s <==> i == m || i in s;
  }

  /** The indexes in ascending order. */
  ghost function Order(keys: set<Index>): (s: seq<Index>)
    ensures Lists(s, keys)
    decreases |keys|
  {
    if keys == {} then []
    else
      var m := Least(keys);
      LeastFirst(Order(keys - {m}), m, keys);
      [m] + Order(keys - {m})
  }

  /** The next index in a range over a map, which visits the keys in any order. */
  method Any<Key>(keys: set<Key>) returns (i: Key)
    requires keys != {}
    ensures i in keys
  {
    i :| i in keys;
  }

  /** sort.Ints on the keys of a map, which are distinct. */
  method Sort(keys: set<Index>) returns (s: seq<Index>)
    ensures Lists(s, keys)
  {
    s := [];
    var todo := keys;
    while todo != {}
      invariant todo <= keys && Lists(s, keys - todo)
      decreases todo
    {
      var i := Any(todo);
      s := Insert(s, i, keys - todo);
      assert (keys - todo) + {i} == keys - (todo - {i});
      todo := todo - {i};
    }
    assert keys - todo == keys;
  }

  method Insert(s: seq<Index>, i: Index, ghost keys: set<Index>) returns (t: seq<Index>)
    requires Lists(s, keys) && i !in keys
    ensures Lists(t, keys + {i})
  {
    var k := 0;
    while k < |s| && s[k] < i
      invariant k <= |s| && forall j | 0 <= j < k :: s[j] < i
    {
      k := k + 1;
    }
    InsertedLists(s, i, k, keys);
    t := s[..k] + [i] + s[k..];
  }

  lemma InsertedAscends(s: seq<Index>, i: Index, k: nat)
    requires Ascending(s) && k <= |s|
    requires forall j | 0 <= j < k :: s[j] < i
    requires forall j | k <= j < |s| :: s[j] > i
    ensures Ascending(s[..k] + [i] + s[k..])
  {
  }

  lemma SpliceMembers<T(!new)>(s: seq<T>, x: T, k: nat)
    requires k <= |s|
    ensures forall y :: y in s[..k] + [x] + s[k..] <==> y == x || y in s
  {
    assert s == s[..k] + s[k..];
    assert forall y :: y in s <==> y in s[..k] || y in s[k..];
  }

  lemma InsertedLists(s: seq<Index>, i: Index, k: nat, keys: set<Index>)
    requires Lists(s, keys) && i !in keys && k <= |s|
    requires forall j | 0 <= j < k :: s[j] < i
    requires k < |s| ==> s[k] >= i
    ensures Lists(s[..k] + [i] + s[k..], keys + {i})
  {
    forall j | k <= j < |s| ensures s[j] > i {
      assert s[k] in s && s[k] in keys;
    }
    InsertedAscends(s, i, k);
    SpliceMembers(s, i, k);
  }

  /** Open calls in ascending index order. */
  ghost function InOrder(open: Accumulators): Emission {
    Pick(open, Order(open.Keys))
  }

  /** The open calls with the given indexes, in the given order. */
  function Pick(open: Accumulators, indexes: seq<Index>): Emission
    requires forall i <- indexes :: i in open
  {
    seq(|indexes|, k requires 0 <= k < |indexes| => assert indexes[k] in indexes; (indexes[k], open[indexes[k]]))
  }

  /** Emitting all open calls moves their bytes from the accumulators to the emission. */
  lemma {:induction false} PickMovesArguments(open: Accumulators, indexes: seq<Index>, i: Index)
    requires Ascending(indexes) && forall j <- indexes :: j in open
    ensures EmittedArguments(Pick(open, indexes), i) == if i in indexes then OpenArguments(open, i) else ""
    decreases |indexes|
  {
    if indexes != [] {
      var n := |indexes| - 1;
      PickMovesArguments(open, indexes[..n], i);
      assert Pick(open, indexes)[..n] == Pick(open, indexes[..n]);
      LastIsNew(indexes, i);
    }
  }

  lemma LastIsNew(indexes: seq<Index>, i: Index)
    requires Ascending(indexes) && indexes != []
    ensures var n := |indexes| - 1;
            (i in indexes <==> i in indexes[..n] || i == indexes[n]) && (i == indexes[n] ==> i !in indexes[..n])
  {
    var n := |indexes| - 1;
    assert indexes == indexes[..n] + [indexes[n]];
    assert forall k | 0 <= k < n :: indexes[..n][k] < indexes[n];
  }

  lemma InOrderMovesArguments(open: Accumulators, i: Index)
    ensures EmittedArguments(InOrder(open), i) == OpenArguments(open, i)
  {
    PickMovesArguments(open, Order(open.Keys), i);
  }

  /** The calls of the emission are the open ones, whole, by ascending index. */
  lemma InOrderListsCalls(open: Accumulators) returns (indexes: seq<Index>)
    ensures Lists(indexes, open.Keys) && |Calls(InOrder(open))| == |indexes|
    ensures forall k | 0 <= k < |indexes| :: indexes[k] in open && Calls(InOrder(open))[k] == open[indexes[k]]
  {
    indexes := Order(open.Keys);
    forall k | 0 <= k < |indexes| ensures indexes[k] in open && Calls(InOrder(open))[k] == open[indexes[k]] {
      assert indexes[k] in indexes && indexes[k] in open.Keys;
    }
  }
}
