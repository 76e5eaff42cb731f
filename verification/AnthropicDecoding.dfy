/** Reassembly of tool calls from Anthropic stream events (roots/llm/clientadapter.go). */
module AnthropicDecoding {
  import opened ToolCalls

  /** One stream payload. `usage` tells whether the event carried the usage that its kind reports. */
  datatype Event =
    | Undecodable
    | MessageStart(usage: bool)
    | MessageDelta(usage: bool)
    | MessageStop
    | TextDelta(text: string)
    | JsonDelta(index: Index, partial: string)
    | OtherDelta
    | BlockStart(index: Index, toolUse: bool, id: string, name: string)
    | BlockStop(index: Index)
    | OtherEvent

  function Step(d: Decoding, e: Event): Decoding {
    match e
    case JsonDelta(index, partial) =>
      if index in d.open then
        d.(open := d.open[index := d.open[index].(arguments := d.open[index].arguments + partial)])
      else d
    case BlockStart(index, toolUse, id, name) =>
      if toolUse then d.(open := d.open[index := ToolCall(id, "function", name, "")]) else d
    case BlockStop(index) =>
      if index in d.open then Decoding(d.open - {index}, d.emitted + [(index, d.open[index])]) else d
    case _ => d
  }

  function Decode(events: seq<Event>): Decoding {
    if events == [] then Decoding(map[], [])
    else Step(Decode(events[..|events| - 1]), events[|events| - 1])
  }

  // ---------------------------------------------------------------------------------------------
  // Conservation of bytes
  // ---------------------------------------------------------------------------------------------

  /** The bytes that one event brings for an index. */
  function EventBytes(e: Event, i: Index): string {
    if e.JsonDelta? && e.index == i then e.partial else ""
  }

  function ReceivedBytes(events: seq<Event>, i: Index): string {
    if events == [] then ""
    else ReceivedBytes(events[..|events| - 1], i) + EventBytes(events[|events| - 1], i)
  }

  function Accounted(d: Decoding, i: Index): string {
    EmittedArguments(d.emitted, i) + OpenArguments(d.open, i)
  }

  /** What the event throws away: bytes for an index with no open call, or the bytes of an open call that a
      second start replaces. */
  function Discarded(d: Decoding, e: Event): nat {
    match e
    case JsonDelta(index, partial) => if index in d.open then 0 else |partial|
    case BlockStart(index, toolUse, _, _) => if toolUse then |OpenArguments(d.open, index)| else 0
    case _ => 0
  }

  /** No event of the stream throws bytes away. */
  predicate NothingDiscarded(events: seq<Event>) {
    forall k | 0 <= k < |events| :: Discarded(Decode(events[..k]), events[k]) == 0
  }

  lemma StepAccounts(d: Decoding, e: Event, i: Index)
    ensures Discarded(d, e) == 0 ==> Accounted(Step(d, e), i) == Accounted(d, i) + EventBytes(e, i)
    ensures |Accounted(Step(d, e), i)| <= |Accounted(d, i)| + |EventBytes(e, i)|
  {
    if e.BlockStop? && e.index in d.open {
      EmittedArgumentsConcat(d.emitted, [(e.index, d.open[e.index])], i);
      assert EmittedArguments([], i) == "";
      assert EmittedArguments([(e.index, d.open[e.index])], i)
          == if e.index == i then d.open[e.index].arguments else "";
    }
  }

  lemma DiscardShows(d: Decoding, e: Event)
    requires Discarded(d, e) > 0
    ensures |Accounted(Step(d, e), e.index)| < |Accounted(d, e.index)| + |EventBytes(e, e.index)|
  {
  }

  lemma PrefixDiscardsNothing(events: seq<Event>)
    requires NothingDiscarded(events) && events != []
    ensures NothingDiscarded(events[..|events| - 1])
  {
    var n := |events| - 1;
    forall k | 0 <= k < n ensures Discarded(Decode(events[..n][..k]), events[..n][k]) == 0 {
      assert events[..n][..k] == events[..k];
    }
  }

  lemma {:induction false} ConservedUnlessDiscarded(events: seq<Event>, i: Index)
    requires NothingDiscarded(events)
    ensures Accounted(Decode(events), i) == ReceivedBytes(events, i)
  {
    if events != [] {
      var n := |events| - 1;
      PrefixDiscardsNothing(events);
      assert Discarded(Decode(events[..n]), events[n]) == 0;
      ConservedUnlessDiscarded(events[..n], i);
      StepAccounts(Decode(events[..n]), events[n], i);
    }
  }

  lemma NothingIsMadeUp(events: seq<Event>, i: Index)
    requires events != []
    ensures var before := events[..|events| - 1];
            |Accounted(Decode(events), i)| - |ReceivedBytes(events, i)|
            <= |Accounted(Decode(before), i)| - |ReceivedBytes(before, i)|
  {
    StepAccounts(Decode(events[..|events| - 1]), events[|events| - 1], i);
  }

  /** Bytes once lost never come back. */
  lemma {:induction false} LossIsPermanent(events: seq<Event>, k: nat, i: Index)
    requires k < |events| && Discarded(Decode(events[..k]), events[k]) > 0 && events[k].index == i
    ensures |Accounted(Decode(events), i)| < |ReceivedBytes(events, i)|
    decreases |events|
  {
    var n := |events| - 1;
    if k < n {
      assert events[..n][..k] == events[..k] && events[..n][k] == events[k];
      LossIsPermanent(events[..n], k, i);
      NothingIsMadeUp(events, i);
    } else {
      DiscardShows(Decode(events[..n]), events[n]);
      NeverMoreThanReceived(events[..n], i);
    }
  }

  lemma {:induction false} NeverMoreThanReceived(events: seq<Event>, i: Index)
    ensures |Accounted(Decode(events), i)| <= |ReceivedBytes(events, i)|
  {
    if events != [] {
      NeverMoreThanReceived(events[..|events| - 1], i);
      StepAccounts(Decode(events[..|events| - 1]), events[|events| - 1], i);
    }
  }

  lemma ConservedExactlyWhenNothingDiscarded(events: seq<Event>)
    ensures (forall i: Index :: Accounted(Decode(events), i) == ReceivedBytes(events, i)) <==> NothingDiscarded(events)
  {
    if NothingDiscarded(events) {
      forall i: Index ensures Accounted(Decode(events), i) == ReceivedBytes(events, i) {
        ConservedUnlessDiscarded(events, i);
      }
    } else {
      var k :| 0 <= k < |events| && Discarded(Decode(events[..k]), events[k]) != 0;
      LossIsPermanent(events, k, events[k].index);
    }
  }

  // ---------------------------------------------------------------------------------------------
  // The condition, read off the events
  // ---------------------------------------------------------------------------------------------

  predicate Starts(e: Event, i: Index) {
    e.BlockStart? && e.toolUse && e.index == i
  }

  predicate Brings(e: Event, i: Index) {
    e.JsonDelta? && e.index == i && e.partial != ""
  }

  /** Event k starts a tool call at i, and neither a stop nor another start at i follows among the first n events. */
  predicate StartedAt(events: seq<Event>, n: nat, i: Index, k: nat) {
    && k < n <= |events| && Starts(events[k], i)
    && forall j | k < j < n :: !Starts(events[j], i) && events[j] != BlockStop(i)
  }

  predicate Started(events: seq<Event>, n: nat, i: Index) {
    exists k | 0 <= k < n :: StartedAt(events, n, i, k)
  }

  /** A delta with bytes falls into a started call, and a start does not cut off a call that has received bytes. */
  predicate Fits(events: seq<Event>, n: nat)
    requires n < |events|
  {
    var e := events[n];
    && (e.JsonDelta? && e.partial != "" ==> Started(events, n, e.index))
    && (e.BlockStart? && e.toolUse ==>
          forall k, m | 0 <= k < m < n && StartedAt(events, n, e.index, k) :: !Brings(events[m], e.index))
  }

  predicate WellFormed(events: seq<Event>) {
    forall n | 0 <= n < |events| :: Fits(events, n)
  }

  lemma StartedBefore(events: seq<Event>, n: nat, i: Index, k: nat)
    requires n < |events|
    ensures StartedAt(events, n + 1, i, k) <==>
              if k == n then Starts(events[n], i)
              else StartedAt(events, n, i, k) && !Starts(events[n], i) && events[n] != BlockStop(i)
  {
  }

  lemma StartedGrow(events: seq<Event>, n: nat, i: Index)
    requires n < |events|
    ensures Started(events, n + 1, i) <==> Starts(events[n], i) || (Started(events, n, i) && events[n] != BlockStop(i))
  {
    var next := n + 1;
    if k :| 0 <= k < next && StartedAt(events, next, i, k) {
      StartedBefore(events, n, i, k);
    }
    if Starts(events[n], i) {
      assert StartedAt(events, n + 1, i, n);
    } else if k :| 0 <= k < n && StartedAt(events, n, i, k) {
      StartedBefore(events, n, i, k);
    }
  }

  /** A call is open exactly when some start of it has not been followed by a stop or a start. */
  lemma {:induction false} OpenExactlyWhenStarted(events: seq<Event>, n: nat, i: Index)
    requires n <= |events|
    ensures i in Decode(events[..n]).open <==> Started(events, n, i)
    decreases n
  {
    if n > 0 {
      OpenExactlyWhenStarted(events, n - 1, i);
      StartedGrow(events, n - 1, i);
      assert events[..n][..n - 1] == events[..n - 1];
    }
  }

  lemma StartIsUnique(events: seq<Event>, n: nat, i: Index, k: nat, l: nat)
    requires StartedAt(events, n, i, k) && StartedAt(events, n, i, l)
    ensures k == l
  {
  }

  /** An open call has bytes exactly when its start has been followed by a delta with bytes. */
  lemma {:induction false} BytesExactlyWhenBrought(events: seq<Event>, n: nat, i: Index, k: nat)
    requires n <= |events| && StartedAt(events, n, i, k)
    ensures i in Decode(events[..n]).open
    ensures Decode(events[..n]).open[i].arguments != "" <==> exists m | k < m < n :: Brings(events[m], i)
    decreases n
  {
    OpenExactlyWhenStarted(events, n, i);
    assert events[..n][..n - 1] == events[..n - 1];
    if k < n - 1 {
      StartedBefore(events, n - 1, i, k);
      BytesExactlyWhenBrought(events, n - 1, i, k);
    }
  }

  lemma DiscardsExactlyWhenUnfit(events: seq<Event>, n: nat)
    requires n < |events|
    ensures Discarded(Decode(events[..n]), events[n]) == 0 <==> Fits(events, n)
  {
    if events[n].JsonDelta? || events[n].BlockStart? {
      var i := events[n].index;
      OpenExactlyWhenStarted(events, n, i);
      if k :| 0 <= k < n && StartedAt(events, n, i, k) {
        BytesExactlyWhenBrought(events, n, i, k);
        forall l: nat | StartedAt(events, n, i, l) ensures l == k {
          StartIsUnique(events, n, i, k, l);
        }
      }
    }
  }

  /** Some stop comes to a started call. */
  predicate SomeStopped(events: seq<Event>) {
    exists n | 0 <= n < |events| :: events[n].BlockStop? && Started(events, n, events[n].index)
  }

  lemma {:induction false} EmittedExactlyWhenStopped(events: seq<Event>, n: nat)
    requires n <= |events|
    ensures Decode(events[..n]).emitted != []
            <==> exists k | 0 <= k < n :: events[k].BlockStop? && Started(events, k, events[k].index)
    decreases n
  {
    if n > 0 {
      EmittedExactlyWhenStopped(events, n - 1);
      assert events[..n][..n - 1] == events[..n - 1];
      if events[n - 1].BlockStop? {
        OpenExactlyWhenStarted(events, n - 1, events[n - 1].index);
      }
    }
  }

  /** Nothing stays open exactly when every tool start is followed by its stop, unless another start replaces it. */
  lemma NothingOpenExactlyWhenStopped(events: seq<Event>)
    ensures Decode(events).open == map[] <==> forall i: Index :: !Started(events, |events|, i)
    ensures Decode(events).emitted != [] <==> SomeStopped(events)
  {
    assert events[..|events|] == events;
    EmittedExactlyWhenStopped(events, |events|);
    forall i: Index ensures i in Decode(events).open <==> Started(events, |events|, i) {
      OpenExactlyWhenStarted(events, |events|, i);
    }
    if Decode(events).open != map[] {
      var i :| i in Decode(events).open;
    }
  }

  /** Unlike the OpenAI-style decoder, this one can lose bytes: the emitted and open arguments are all the bytes
      received, for every index, exactly when every delta with bytes falls into a started call and no start cuts
      off a call that has received bytes. */
  lemma BytesConservedExactlyWhenWellFormed(events: seq<Event>)
    ensures (forall i: Index :: Accounted(Decode(events), i) == ReceivedBytes(events, i)) <==> WellFormed(events)
  {
    ConservedExactlyWhenNothingDiscarded(events);
    forall n: nat | n < |events| ensures Discarded(Decode(events[..n]), events[n]) == 0 <==> Fits(events, n) {
      DiscardsExactlyWhenUnfit(events, n);
    }
  }

  /** A start at an open index drops what the first call had received. */
  lemma RestartLosesBytes(id: string, name: string)
    ensures var events := [BlockStart(0, true, id, name), JsonDelta(0, "x"), BlockStart(0, true, id, name)];
            Accounted(Decode(events), 0) == "" && ReceivedBytes(events, 0) == "x"
  {
    var start, delta := BlockStart(0, true, id, name), JsonDelta(0, "x");
    var first := Step(Decode([]), start);
    var second := Step(first, delta);
    var third := Step(second, start);
    DecodeGrow([], start);
    DecodeGrow([start], delta);
    DecodeGrow([start, delta], start);
    assert [] + [start] == [start] && [start] + [delta] == [start, delta];
    assert [start, delta] + [start] == [start, delta, start];
    assert third.emitted == [] && third.open[0].arguments == "";
    assert ReceivedBytes([], 0) == "" && EventBytes(start, 0) == "" && EventBytes(delta, 0) == "x";
  }

  lemma DecodeGrow(events: seq<Event>, e: Event)
    ensures Decode(events + [e]) == Step(Decode(events), e)
    ensures forall i: Index :: ReceivedBytes(events + [e], i) == ReceivedBytes(events, i) + EventBytes(e, i)
  {
    assert (events + [e])[..|events|] == events;
  }

  // ---------------------------------------------------------------------------------------------
  // Independence from fragmentation
  // ---------------------------------------------------------------------------------------------

  predicate Concerns(e: Event, i: Index) {
    (e.JsonDelta? || e.BlockStart? || e.BlockStop?) && e.index == i
  }

  /** The events of one index, in their order. */
  function Of(events: seq<Event>, i: Index): seq<Event> {
    if events == [] then []
    else
      var n := |events| - 1;
      Of(events[..n], i) + (if Concerns(events[n], i) then [events[n]] else [])
  }

  /** The two decodings have the same open call, or none, at index i. */
  predicate AgreeAt(d: Decoding, own: Decoding, i: Index) {
    (i in d.open <==> i in own.open) && (i in d.open ==> d.open[i] == own.open[i])
  }

  lemma StepKeepsAgreement(d: Decoding, own: Decoding, e: Event, i: Index)
    requires AgreeAt(d, own, i)
    ensures AgreeAt(Step(d, e), if Concerns(e, i) then Step(own, e) else own, i)
  {
  }

  /** What is open at an index depends on that index's own events only, however the others interleave. */
  lemma {:induction false} OthersDoNotMatter(events: seq<Event>, i: Index)
    ensures AgreeAt(Decode(events), Decode(Of(events, i)), i)
  {
    if events != [] {
      var n := |events| - 1;
      OthersDoNotMatter(events[..n], i);
      StepKeepsAgreement(Decode(events[..n]), Decode(Of(events[..n], i)), events[n], i);
      if Concerns(events[n], i) {
        assert Of(events, i)[..|Of(events, i)| - 1] == Of(events[..n], i);
      } else {
        assert Of(events, i) == Of(events[..n], i);
      }
    }
  }

  function Bytes(deltas: seq<Event>): string
    requires forall k | 0 <= k < |deltas| :: deltas[k].JsonDelta?
  {
    if deltas == [] then "" else Bytes(deltas[..|deltas| - 1]) + deltas[|deltas| - 1].partial
  }

  /** The events of one tool call at index i: a start that names it, its arguments cut anyhow, and a stop. */
  ghost predicate Block(own: seq<Event>, i: Index, call: ToolCall) {
    var n := |own| - 1;
    && n >= 1
    && own[0] == BlockStart(i, true, call.id, call.name) && own[n] == BlockStop(i)
    && (forall k | 0 <= k < |own[1..n]| :: own[1..n][k].JsonDelta? && own[1..n][k].index == i)
    && call.kind == "function" && call.arguments == Bytes(own[1..n])
  }

  /** Before its stop, a call is open with the bytes that came so far. */
  lemma {:induction false} DeltasAccumulate(start: Event, deltas: seq<Event>)
    requires start.BlockStart? && start.toolUse
    requires forall k | 0 <= k < |deltas| :: deltas[k].JsonDelta? && deltas[k].index == start.index
    ensures Decode([start] + deltas)
            == Decoding(map[start.index := ToolCall(start.id, "function", start.name, Bytes(deltas))], [])
  {
    var all := [start] + deltas;
    if deltas == [] {
      assert all[..0] == [] && all[0] == start;
    } else {
      DeltasAccumulate(start, deltas[..|deltas| - 1]);
      assert all[..|all| - 1] == [start] + deltas[..|deltas| - 1];
    }
  }

  /** The indexes of tool calls in the order in which their stops arrive. */
  function StopOrder(events: seq<Event>, tools: set<Index>): seq<Index> {
    if events == [] then []
    else
      var n := |events| - 1;
      StopOrder(events[..n], tools)
      + (if events[n].BlockStop? && events[n].index in tools then [events[n].index] else [])
  }

  lemma {:induction false} StopOrderIsAmongTools(events: seq<Event>, tools: set<Index>)
    ensures forall i <- StopOrder(events, tools) :: i in tools
  {
    if events != [] {
      StopOrderIsAmongTools(events[..|events| - 1], tools);
    }
  }

  /** The stream carries exactly `calls`, one block for each tool index; other indexes start no tool. */
  ghost predicate Carries(events: seq<Event>, calls: Accumulators) {
    && (forall i <- calls :: Block(Of(events, i), i, calls[i]))
    && (forall k | 0 <= k < |events| :: events[k].BlockStart? && events[k].toolUse ==> events[k].index in calls)
  }

  lemma {:induction false} OfPrefix(events: seq<Event>, n: nat, i: Index)
    requires n <= |events|
    ensures Of(events[..n], i) <= Of(events, i)
    decreases |events|
  {
    if n < |events| {
      var m := |events| - 1;
      OfPrefix(events[..m], n, i);
      assert events[..m][..n] == events[..n];
    } else {
      assert events[..n] == events;
    }
  }

  /** Just before its stop, a block has its whole call open; after the stop, nothing. */
  lemma BlockDecodes(own: seq<Event>, i: Index, call: ToolCall)
    requires Block(own, i, call)
    ensures Decode(own[..|own| - 1]) == Decoding(map[i := call], []) && i !in Decode(own).open
  {
    var m := |own| - 1;
    assert own[..m] == [own[0]] + own[1..m];
    DeltasAccumulate(own[0], own[1..m]);
    StopCloses(own);
  }

  lemma StopCloses(own: seq<Event>)
    requires own != [] && own[|own| - 1].BlockStop?
    ensures own[|own| - 1].index !in Decode(own).open
  {
  }

  /** A prefix of a block that is followed by the stop is all of it but the stop. */
  lemma StopIsLast(own: seq<Event>, before: seq<Event>, i: Index, call: ToolCall)
    requires Block(own, i, call) && before + [BlockStop(i)] <= own
    ensures before == own[..|own| - 1]
  {
    var m := |own| - 1;
    assert own[|before|] == BlockStop(i);
    forall k | 1 <= k < m ensures own[k].JsonDelta? {
      assert own[1..m][k - 1] == own[k];
    }
  }

  /** When the stop of a tool index arrives, exactly its call is open there. */
  lemma OpenAtStop(events: seq<Event>, calls: Accumulators, n: nat)
    requires Carries(events, calls) && n < |events| && events[n].BlockStop? && events[n].index in calls
    ensures var i := events[n].index; i in Decode(events[..n]).open && Decode(events[..n]).open[i] == calls[i]
  {
    var i := events[n].index;
    assert events[..n + 1][..n] == events[..n];
    OfPrefix(events, n + 1, i);
    assert Of(events[..n + 1], i) == Of(events[..n], i) + [BlockStop(i)];
    StopIsLast(Of(events, i), Of(events[..n], i), i, calls[i]);
    BlockDecodes(Of(events, i), i, calls[i]);
    OthersDoNotMatter(events[..n], i);
  }

  lemma {:induction false} NothingOpensElsewhere(events: seq<Event>, i: Index)
    requires forall k | 0 <= k < |events| :: events[k].BlockStart? && events[k].toolUse ==> events[k].index != i
    ensures i !in Decode(events).open
  {
    if events != [] {
      NothingOpensElsewhere(events[..|events| - 1], i);
    }
  }

  /** What one more event adds to the emission. */
  lemma EmissionStep(events: seq<Event>, calls: Accumulators, n: nat)
    requires Carries(events, calls) && n < |events|
    ensures Decode(events[..n + 1]).emitted
            == Decode(events[..n]).emitted
               + (if events[n].BlockStop? && events[n].index in calls
                  then [(events[n].index, calls[events[n].index])] else [])
  {
    var e, d := events[n], Decode(events[..n]);
    assert events[..n + 1][..n] == events[..n];
    assert Decode(events[..n + 1]) == Step(d, e);
    if e.BlockStop? && e.index in calls {
      OpenAtStop(events, calls, n);
    } else if e.BlockStop? {
      NothingOpensElsewhere(events[..n], e.index);
      assert Step(d, e).emitted == d.emitted + [];
    } else {
      assert Step(d, e).emitted == d.emitted + [];
    }
  }

  lemma PickAppend(calls: Accumulators, order: seq<Index>, i: Index)
    requires (forall j <- order :: j in calls) && i in calls
    ensures (forall j <- order + [i] :: j in calls) && Pick(calls, order + [i]) == Pick(calls, order) + [(i, calls[i])]
  {
  }

  lemma {:induction false} EmittedInStopOrder(events: seq<Event>, calls: Accumulators, n: nat)
    requires Carries(events, calls) && n <= |events|
    ensures (forall i <- StopOrder(events[..n], calls.Keys) :: i in calls)
            && Decode(events[..n]).emitted == Pick(calls, StopOrder(events[..n], calls.Keys))
    decreases n
  {
    StopOrderIsAmongTools(events[..n], calls.Keys);
    if n > 0 {
      EmittedInStopOrder(events, calls, n - 1);
      EmissionStep(events, calls, n - 1);
      var e, order := events[n - 1], StopOrder(events[..n - 1], calls.Keys);
      assert events[..n][..n - 1] == events[..n - 1];
      if e.BlockStop? && e.index in calls {
        PickAppend(calls, order, e.index);
      } else {
        assert StopOrder(events[..n], calls.Keys) == order;
      }
    }
  }

  /** However the arguments are cut and however the blocks interleave, the decoder emits the same complete
      calls, in the order of their stops, and leaves nothing open. */
  lemma FragmentationDoesNotMatter(events: seq<Event>, calls: Accumulators)
    requires Carries(events, calls)
    ensures (forall i <- StopOrder(events, calls.Keys) :: i in calls)
            && Decode(events) == Decoding(map[], Pick(calls, StopOrder(events, calls.Keys)))
  {
    EmittedInStopOrder(events, calls, |events|);
    assert events[..|events|] == events;
    forall i: Index ensures i !in Decode(events).open {
      if i in calls {
        BlockDecodes(Of(events, i), i, calls[i]);
        OthersDoNotMatter(events, i);
      } else {
        NothingOpensElsewhere(events, i);
      }
    }
  }
}
