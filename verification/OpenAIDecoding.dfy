/** Reassembly of tool calls from OpenAI-style stream chunks (roots/llm/clientadapter.go). */
module OpenAIDecoding {
  import opened Sequences
  import opened ToolCalls

  /** One entry of delta.tool_calls. */
  datatype Fragment = Fragment(index: Index, id: string, name: string, arguments: string)

  datatype Choice = Choice(content: string, fragments: seq<Fragment>, finish: string)

  /** One stream payload. Only the first choice is read. `usage` tells whether it carried usage. */
  datatype Chunk = Undecodable | Chunk(usage: bool, choices: seq<Choice>)

  // ---------------------------------------------------------------------------------------------
  // One chunk
  // ---------------------------------------------------------------------------------------------

  /** The first fragment of an index opens the call and names it; every fragment appends its bytes. */
  function Accumulate(open: Accumulators, f: Fragment): Accumulators {
    var call := if f.index in open then open[f.index] else ToolCall(f.id, "function", f.name, "");
    open[f.index := call.(arguments := call.arguments + f.arguments)]
  }

  function AccumulateAll(open: Accumulators, fragments: seq<Fragment>): Accumulators {
    if fragments == [] then open
    else
      var n := |fragments| - 1;
      Accumulate(AccumulateAll(open, fragments[..n]), fragments[n])
  }

  function Fragments(c: Chunk): seq<Fragment> {
    if c.Chunk? && c.choices != [] then c.choices[0].fragments else []
  }

  function FinishOf(c: Chunk): string {
    if c.Chunk? && c.choices != [] then c.choices[0].finish else ""
  }

  /** The chunk finishes the open calls; a finish reason of "length" leaves them open, as cut off. */
  predicate Finishes(c: Chunk, open: Accumulators) {
    FinishOf(c) != "" && !(FinishOf(c) == "length" && open != map[])
  }

  ghost function Step(d: Decoding, c: Chunk): Decoding {
    var open := AccumulateAll(d.open, Fragments(c));
    if Finishes(c, open) then Decoding(map[], d.emitted + InOrder(open)) else Decoding(open, d.emitted)
  }

  ghost function Decode(chunks: seq<Chunk>): Decoding {
    if chunks == [] then Decoding(map[], [])
    else Step(Decode(chunks[..|chunks| - 1]), chunks[|chunks| - 1])
  }

  lemma DecodeGrow(chunks: seq<Chunk>, c: Chunk)
    ensures Decode(chunks + [c]) == Step(Decode(chunks), c)
  {
    assert (chunks + [c])[..|chunks|] == chunks;
  }

  // ---------------------------------------------------------------------------------------------
  // Conservation of bytes
  // ---------------------------------------------------------------------------------------------

  /** All bytes received for an index, in order. */
  function FragmentBytes(fragments: seq<Fragment>, i: Index): string {
    if fragments == [] then ""
    else
      var n := |fragments| - 1;
      FragmentBytes(fragments[..n], i) + (if fragments[n].index == i then fragments[n].arguments else "")
  }

  function AllFragments(chunks: seq<Chunk>): seq<Fragment> {
    if chunks == [] then [] else AllFragments(chunks[..|chunks| - 1]) + Fragments(chunks[|chunks| - 1])
  }

  lemma {:induction false} FragmentBytesConcat(a: seq<Fragment>, b: seq<Fragment>, i: Index)
    ensures FragmentBytes(a + b, i) == FragmentBytes(a, i) + FragmentBytes(b, i)
  {
    if b == [] {
      assert a + b == a;
    } else {
      FragmentBytesConcat(a, b[..|b| - 1], i);
      assert (a + b)[..|a + b| - 1] == a + b[..|b| - 1];
    }
  }

  lemma {:induction false} AccumulateAppends(open: Accumulators, fragments: seq<Fragment>, i: Index)
    ensures OpenArguments(AccumulateAll(open, fragments), i) == OpenArguments(open, i) + FragmentBytes(fragments, i)
  {
    if fragments != [] {
      AccumulateAppends(open, fragments[..|fragments| - 1], i);
    }
  }

  /** The bytes of index i that a decoding accounts for: emitted calls in order, then the open call. */
  function Accounted(d: Decoding, i: Index): string {
    EmittedArguments(d.emitted, i) + OpenArguments(d.open, i)
  }

  lemma StepConserves(d: Decoding, c: Chunk, i: Index)
    ensures Accounted(Step(d, c), i) == Accounted(d, i) + FragmentBytes(Fragments(c), i)
  {
    var open := AccumulateAll(d.open, Fragments(c));
    AccumulateAppends(d.open, Fragments(c), i);
    EmittingMovesArguments(d.emitted, open, i);
    Regroup(EmittedArguments(d.emitted, i), OpenArguments(d.open, i), FragmentBytes(Fragments(c), i));
  }

  lemma EmittingMovesArguments(emitted: Emission, open: Accumulators, i: Index)
    ensures Accounted(Decoding(map[], emitted + InOrder(open)), i) == Accounted(Decoding(open, emitted), i)
  {
    InOrderMovesArguments(open, i);
    EmittedArgumentsConcat(emitted, InOrder(open), i);
  }

  /** For every chunk sequence, well formed or not: the arguments of the calls emitted for an index, in
      order, followed by the open call's, are all the bytes received for that index. */
  lemma {:induction false} BytesAreConserved(chunks: seq<Chunk>, i: Index)
    ensures Accounted(Decode(chunks), i) == FragmentBytes(AllFragments(chunks), i)
  {
    if chunks != [] {
      var n := |chunks| - 1;
      BytesAreConserved(chunks[..n], i);
      StepConserves(Decode(chunks[..n]), chunks[n], i);
      FragmentBytesConcat(AllFragments(chunks[..n]), Fragments(chunks[n]), i);
    }
  }

  // ---------------------------------------------------------------------------------------------
  // What stays open
  // ---------------------------------------------------------------------------------------------

  /** The chunk ends the calls before it: its finish reason is given and is not "length". */
  predicate Ends(c: Chunk) {
    c.Chunk? && c.choices != [] && c.choices[0].finish != "" && c.choices[0].finish != "length"
  }

  /** Some fragment comes with no ending chunk at or after it. */
  predicate Unfinished(chunks: seq<Chunk>) {
    exists k | 0 <= k < |chunks| :: Fragments(chunks[k]) != [] && forall m | k <= m < |chunks| :: !Ends(chunks[m])
  }

  /** Some fragment comes with an ending chunk at or after it. */
  predicate SomeFinished(chunks: seq<Chunk>) {
    exists k, m | 0 <= k <= m < |chunks| :: Fragments(chunks[k]) != [] && Ends(chunks[m])
  }

  lemma UnfinishedGrow(chunks: seq<Chunk>, c: Chunk)
    ensures Unfinished(chunks + [c]) <==> !Ends(c) && (Fragments(c) != [] || Unfinished(chunks))
  {
    var all, n := chunks + [c], |chunks|;
    assert all[n] == c && forall m | 0 <= m < n :: all[m] == chunks[m];
    if Unfinished(all) {
      assert !Ends(all[n]);
    }
    if !Ends(c) && Fragments(c) != [] {
      assert Fragments(all[n]) != [];
    } else if !Ends(c) && Unfinished(chunks) {
      var k :| 0 <= k < n && Fragments(chunks[k]) != [] && forall m | k <= m < n :: !Ends(chunks[m]);
      assert Fragments(all[k]) != [];
    }
  }

  lemma SomeFinishedGrow(chunks: seq<Chunk>, c: Chunk)
    ensures SomeFinished(chunks + [c])
            <==> || SomeFinished(chunks)
                 || (Ends(c) && (Fragments(c) != [] || exists k | 0 <= k < |chunks| :: Fragments(chunks[k]) != []))
  {
    var all, n := chunks + [c], |chunks|;
    assert all[n] == c && forall m | 0 <= m < n :: all[m] == chunks[m];
    if k, m :| 0 <= k <= m < n && Fragments(chunks[k]) != [] && Ends(chunks[m]) {
      assert Fragments(all[k]) != [] && Ends(all[m]);
    }
    if Ends(c) && Fragments(c) != [] {
      assert Fragments(all[n]) != [] && Ends(all[n]);
    }
    if k :| Ends(c) && 0 <= k < n && Fragments(chunks[k]) != [] {
      assert Fragments(all[k]) != [] && Ends(all[n]);
    }
  }

  /** A chunk that ends has its fragments among the finished ones. */
  lemma UnfinishedOrFinished(chunks: seq<Chunk>)
    ensures (exists k | 0 <= k < |chunks| :: Fragments(chunks[k]) != []) <==> Unfinished(chunks) || SomeFinished(chunks)
  {
    if k :| 0 <= k < |chunks| && Fragments(chunks[k]) != [] {
      if m :| k <= m < |chunks| && Ends(chunks[m]) {
        assert SomeFinished(chunks);
      } else {
        assert Unfinished(chunks);
      }
    }
  }

  lemma {:induction false} AccumulatingOpens(open: Accumulators, fragments: seq<Fragment>)
    ensures AccumulateAll(open, fragments) == map[] <==> open == map[] && fragments == []
  {
    if fragments != [] {
      var n := |fragments| - 1;
      assert fragments[n].index in AccumulateAll(open, fragments);
    }
  }

  lemma NothingInOrder(open: Accumulators)
    ensures InOrder(open) == [] <==> open == map[]
  {
    if open != map[] {
      var i :| i in open;
      assert i in open.Keys;
    }
  }

  /** A call is open exactly when some fragment has no ending chunk at or after it; a finish reason of "length" ends
      nothing. And some call was emitted exactly when some fragment has one. */
  lemma {:induction false} OpenExactlyWhenUnfinished(chunks: seq<Chunk>)
    ensures Decode(chunks).open != map[] <==> Unfinished(chunks)
    ensures Decode(chunks).emitted != [] <==> SomeFinished(chunks)
  {
    if chunks != [] {
      var n := |chunks| - 1;
      var before, c := chunks[..n], chunks[n];
      OpenExactlyWhenUnfinished(before);
      Snoc(chunks);
      UnfinishedGrow(before, c);
      SomeFinishedGrow(before, c);
      UnfinishedOrFinished(before);
      AccumulatingOpens(Decode(before).open, Fragments(c));
      NothingInOrder(AccumulateAll(Decode(before).open, Fragments(c)));
    }
  }

  /** The chunk is cut off by its length: some fragment at or before it has no ending chunk up to it. */
  predicate CutAt(chunks: seq<Chunk>, k: nat) {
    && k < |chunks| && FinishOf(chunks[k]) == "length"
    && exists j | 0 <= j <= k :: Fragments(chunks[j]) != [] && forall m | j <= m <= k :: !Ends(chunks[m])
  }

  /** A cut leaves a fragment unfinished unless a later chunk ends the calls. */
  lemma CutNeedsAnEnd(chunks: seq<Chunk>, k: nat)
    requires CutAt(chunks, k) && !Unfinished(chunks)
    ensures exists m | k < m < |chunks| :: Ends(chunks[m])
  {
    var j :| 0 <= j <= k && Fragments(chunks[j]) != [] && forall m | j <= m <= k :: !Ends(chunks[m]);
    var m :| j <= m < |chunks| && Ends(chunks[m]);
  }

  // ---------------------------------------------------------------------------------------------
  // Independence from fragmentation
  // ---------------------------------------------------------------------------------------------

  predicate Mentions(fragments: seq<Fragment>, i: Index) {
    exists k | 0 <= k < |fragments| :: fragments[k].index == i
  }

  /** The id and name come from the index's first fragment. */
  predicate NamedBy(fragments: seq<Fragment>, i: Index, call: ToolCall) {
    exists k | 0 <= k < |fragments| ::
      && fragments[k].index == i && fragments[k].id == call.id && fragments[k].name == call.name
      && forall j | 0 <= j < k :: fragments[j].index != i
  }

  /** The fragments spell `calls`: for each index, whatever the cuts and the interleaving, the first
      fragment names the call and the bytes put together are its arguments. */
  ghost predicate Spells(fragments: seq<Fragment>, calls: Accumulators) {
    && (forall i: Index :: i in calls <==> Mentions(fragments, i))
    && (forall i <- calls ::
          calls[i].kind == "function" && NamedBy(fragments, i, calls[i])
          && calls[i].arguments == FragmentBytes(fragments, i))
  }

  lemma NamedEarlier(fragments: seq<Fragment>, n: nat, i: Index, call: ToolCall)
    requires n <= |fragments| && NamedBy(fragments[..n], i, call)
    ensures NamedBy(fragments, i, call)
  {
    assert forall j | 0 <= j < n :: fragments[j] == fragments[..n][j];
  }

  lemma {:induction false} AccumulateAllSpells(fragments: seq<Fragment>)
    ensures Spells(fragments, AccumulateAll(map[], fragments))
  {
    if fragments != [] {
      var n := |fragments| - 1;
      var f, open := fragments[n], AccumulateAll(map[], fragments[..n]);
      AccumulateAllSpells(fragments[..n]);
      forall i: Index ensures Mentions(fragments, i) <==> i == f.index || Mentions(fragments[..n], i) {
        assert forall k | 0 <= k < n :: fragments[..n][k] == fragments[k];
      }
      var calls := Accumulate(open, f);
      forall i <- calls ensures NamedBy(fragments, i, calls[i]) {
        if i in open {
          NamedEarlier(fragments, n, i, open[i]);
        } else {
          assert i == f.index && !Mentions(fragments[..n], i);
          assert forall j | 0 <= j < n :: fragments[j] == fragments[..n][j];
        }
      }
      forall i <- calls ensures calls[i].arguments == FragmentBytes(fragments, i) {
        if i !in open {
          NoBytesUnlessMentioned(fragments[..n], i);
        }
      }
    }
  }

  lemma {:induction false} NoBytesUnlessMentioned(fragments: seq<Fragment>, i: Index)
    requires !Mentions(fragments, i)
    ensures FragmentBytes(fragments, i) == ""
  {
    if fragments != [] {
      var n := |fragments| - 1;
      assert forall k | 0 <= k < n :: fragments[..n][k] == fragments[k];
      NoBytesUnlessMentioned(fragments[..n], i);
    }
  }

  lemma SpellingIsUnique(fragments: seq<Fragment>, a: Accumulators, b: Accumulators)
    requires Spells(fragments, a) && Spells(fragments, b)
    ensures a == b
  {
    forall i <- a ensures i in b && a[i] == b[i] {
      assert Mentions(fragments, i) && i in b;
      assert NamedBy(fragments, i, a[i]) && NamedBy(fragments, i, b[i]);
    }
    forall i <- b ensures i in a {
      assert Mentions(fragments, i);
    }
  }

  /** No chunk before the last finishes; the last does, with any reason but a length cut. */
  predicate EndsOnce(chunks: seq<Chunk>) {
    && chunks != []
    && (forall k | 0 <= k < |chunks| - 1 :: FinishOf(chunks[k]) == "")
    && FinishOf(chunks[|chunks| - 1]) != "" && FinishOf(chunks[|chunks| - 1]) != "length"
  }

  lemma {:induction false} AccumulateAllConcat(open: Accumulators, a: seq<Fragment>, b: seq<Fragment>)
    ensures AccumulateAll(open, a + b) == AccumulateAll(AccumulateAll(open, a), b)
  {
    if b == [] {
      assert a + b == a;
    } else {
      AccumulateAllConcat(open, a, b[..|b| - 1]);
      assert (a + b)[..|a + b| - 1] == a + b[..|b| - 1];
    }
  }

  lemma {:induction false} UnfinishedChunksAccumulate(chunks: seq<Chunk>)
    requires forall k | 0 <= k < |chunks| :: FinishOf(chunks[k]) == ""
    ensures Decode(chunks) == Decoding(AccumulateAll(map[], AllFragments(chunks)), [])
  {
    if chunks != [] {
      var n := |chunks| - 1;
      assert FinishOf(chunks[n]) == "";
      UnfinishedChunksAccumulate(chunks[..n]);
      var before, last := AllFragments(chunks[..n]), Fragments(chunks[n]);
      AccumulateAllConcat(map[], before, last);
      assert Step(Decode(chunks[..n]), chunks[n]) == Decoding(AccumulateAll(map[], before + last), []);
    }
  }

  /** Chunks without choices, such as a closing usage report, change nothing. */
  lemma {:induction false} ClosingReportsChangeNothing(chunks: seq<Chunk>, reports: seq<Chunk>)
    requires forall k | 0 <= k < |reports| :: FinishOf(reports[k]) == "" && Fragments(reports[k]) == []
    ensures Decode(chunks + reports) == Decode(chunks)
  {
    if reports == [] {
      assert chunks + reports == chunks;
    } else {
      ClosingReportsChangeNothing(chunks, reports[..|reports| - 1]);
      assert (chunks + reports)[..|chunks + reports| - 1] == chunks + reports[..|reports| - 1];
    }
  }

  lemma AllFragmentsGrow(chunks: seq<Chunk>)
    requires chunks != []
    ensures var n := |chunks| - 1;
            AccumulateAll(map[], AllFragments(chunks))
            == AccumulateAll(AccumulateAll(map[], AllFragments(chunks[..n])), Fragments(chunks[n]))
  {
    var n := |chunks| - 1;
    AccumulateAllConcat(map[], AllFragments(chunks[..n]), Fragments(chunks[n]));
  }

  lemma FinishingStep(open: Accumulators, c: Chunk)
    requires FinishOf(c) != "" && FinishOf(c) != "length"
    ensures Step(Decoding(open, []), c) == Decoding(map[], InOrder(AccumulateAll(open, Fragments(c))))
  {
    var all := AccumulateAll(open, Fragments(c));
    assert [] + InOrder(all) == InOrder(all);
  }

  /** The finishing chunk emits everything that was accumulated. */
  lemma FinishEmitsAll(chunks: seq<Chunk>)
    requires EndsOnce(chunks)
    ensures Decode(chunks) == Decoding(map[], InOrder(AccumulateAll(map[], AllFragments(chunks))))
  {
    var n := |chunks| - 1;
    UnfinishedChunksAccumulate(chunks[..n]);
    AllFragmentsGrow(chunks);
    FinishingStep(AccumulateAll(map[], AllFragments(chunks[..n])), chunks[n]);
  }

  /** However the arguments of the calls are cut into fragments, and however the fragments are spread over
      chunks and interleaved across indexes, the decoder emits the same complete calls in index order. */
  lemma FragmentationDoesNotMatter(chunks: seq<Chunk>, reports: seq<Chunk>, calls: Accumulators)
    requires EndsOnce(chunks) && Spells(AllFragments(chunks), calls)
    requires forall k | 0 <= k < |reports| :: FinishOf(reports[k]) == "" && Fragments(reports[k]) == []
    ensures Decode(chunks + reports) == Decoding(map[], InOrder(calls))
  {
    AccumulateAllSpells(AllFragments(chunks));
    SpellingIsUnique(AllFragments(chunks), calls, AccumulateAll(map[], AllFragments(chunks)));
    FinishEmitsAll(chunks);
    ClosingReportsChangeNothing(chunks, reports);
  }
}
