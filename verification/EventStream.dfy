/** Decoding the Server-Sent Events of a watch (cmd/stem/localclient.go; sections 9.2.5 and 9.2.6 of the WHATWG
    HTML Living Standard). */
module EventStream {
  import opened Options
  import opened Sequences
  import opened Text

  /** Why decoding stopped. Nothing else follows. */
  datatype Ending = CleanEnd | ReadFailed | Undecodable | ClosedByServer(message: string) | CallbackFailed

  /** How the JSON text of an observation reads, and after which observations the callback fails. */
  datatype Client<!O> = Client(parse: string -> Option<O>, fails: seq<O> -> bool)

  /** One complete event. */
  datatype Event = Event(kind: string, data: string)

  /** The observations handed to the callback, and the ending when there is one. */
  datatype Delivery<O> = Delivery(seen: seq<O>, ending: Option<Ending>)

  /** handleSSEEvent. */
  function Handle<O>(client: Client<O>, seen: seq<O>, e: Event): Delivery<O> {
    if e.kind == "observation" then
      match client.parse(e.data)
      case None => Delivery(seen, Some(Undecodable))
      case Some(o) => Delivery(seen + [o], if client.fails(seen + [o]) then Some(CallbackFailed) else None)
    else if e.kind == "error" then Delivery(seen, Some(ClosedByServer(e.data)))
    else Delivery(seen, None)
  }

  /** What a sequence of events delivers: they are handled in order, up to the first that ends the stream. */
  function Deliver<O>(client: Client<O>, seen: seq<O>, events: seq<Event>): Delivery<O>
    decreases |events|
  {
    if events == [] then Delivery(seen, None)
    else
      var first := Handle(client, seen, events[0]);
      if first.ending.Some? then first else Deliver(client, first.seen, events[1..])
  }

  // ---------------------------------------------------------------------------------------------
  // The meaning of lines
  // ---------------------------------------------------------------------------------------------

  /** A line without the carriage return that may end it. */
  function DropCR(line: string): string {
    if line != "" && line[|line| - 1] == '\r' then line[..|line| - 1] else line
  }

  function Dropped(lines: seq<string>): seq<string> {
    seq(|lines|, k requires 0 <= k < |lines| => DropCR(lines[k]))
  }

  /** bufio.ScanLines: the lines of a text; what follows the last newline is a line if it is not empty. */
  function ScanLines(text: string): seq<string> {
    var pieces := Split(text, '\n');
    var n := |pieces| - 1;
    Dropped(if pieces[n] == "" then pieces[..n] else pieces)
  }

  predicate IsEventLine(line: string) {
    HasPrefix(line, "event:")
  }

  predicate IsDataLine(line: string) {
    HasPrefix(line, "data:") && !IsEventLine(line)
  }

  /** The event name of a frame: that of its last event line. */
  function KindOf(frame: seq<string>): string {
    if frame == [] then ""
    else if IsEventLine(frame[|frame| - 1]) then TrimSpace(frame[|frame| - 1][6..])
    else KindOf(frame[..|frame| - 1])
  }

  function DataOf(frame: seq<string>): seq<string> {
    if frame == [] then []
    else if IsDataLine(frame[|frame| - 1]) then DataOf(frame[..|frame| - 1]) + [TrimSpace(frame[|frame| - 1][5..])]
    else DataOf(frame[..|frame| - 1])
  }

  /** A frame without data lines is no event. */
  function EventOf(frame: seq<string>): seq<Event> {
    if DataOf(frame) == [] then [] else [Event(KindOf(frame), Join(DataOf(frame), "\n"))]
  }

  /** The lines after the last blank one: the frame that is not complete. */
  function Unfinished(lines: seq<string>): seq<string> {
    if lines == [] || lines[|lines| - 1] == "" then [] else Unfinished(lines[..|lines| - 1]) + [lines[|lines| - 1]]
  }

  /** The events of the complete frames, which blank lines end. */
  function Events(lines: seq<string>): seq<Event> {
    if lines == [] then []
    else
      var before := lines[..|lines| - 1];
      if lines[|lines| - 1] == "" then Events(before) + EventOf(Unfinished(before)) else Events(before)
  }

  // ---------------------------------------------------------------------------------------------
  // The decoder
  // ---------------------------------------------------------------------------------------------

  /** The callback: it records what it is given. */
  class Observer<!O(==)> {
    const client: Client<O>
    var seen: seq<O>

    constructor (client: Client<O>)
      ensures this.client == client && seen == []
    {
      this.client := client;
      seen := [];
    }

    method OnObservation(o: O) returns (fails: bool)
      modifies this
      ensures seen == old(seen) + [o] && fails == client.fails(seen)
    {
      seen := seen + [o];
      fails := client.fails(seen);
    }

    method HandleSSEEvent(event: string, data: string) returns (ending: Option<Ending>)
      modifies this
      ensures Delivery(seen, ending) == Handle(client, old(seen), Event(event, data))
    {
      ending := None;
      if event == "observation" {
        var o := client.parse(data);
        if o.None? {
          return Some(Undecodable);
        }
        var fails := OnObservation(o.value);
        if fails {
          ending := Some(CallbackFailed);
        }
      } else if event == "error" {
        ending := Some(ClosedByServer(data));
      }
    }
  }

  lemma {:induction false} DeliverConcat<O>(client: Client<O>, seen: seq<O>, a: seq<Event>, b: seq<Event>)
    ensures var first := Deliver(client, seen, a);
            Deliver(client, seen, a + b) == if first.ending.Some? then first else Deliver(client, first.seen, b)
    decreases |a|
  {
    if a == [] {
      assert a + b == b;
    } else {
      assert (a + b)[1..] == a[1..] + b;
      DeliverConcat(client, Handle(client, seen, a[0]).seen, a[1..], b);
    }
  }

  /** The observations of the events, as far as their texts can be read. */
  function Observations<O>(client: Client<O>, events: seq<Event>): seq<O> {
    if events == [] then []
    else
      var n := |events| - 1;
      Observations(client, events[..n])
      + (if events[n].kind == "observation" && client.parse(events[n].data).Some?
         then [client.parse(events[n].data).value] else [])
  }

  /** Event n ends the stream: it is an error, or an observation that cannot be read or makes the callback fail. */
  predicate EndsAt<O>(client: Client<O>, seen: seq<O>, events: seq<Event>, n: nat)
    requires n < |events|
  {
    || events[n].kind == "error"
    || (&& events[n].kind == "observation"
        && (client.parse(events[n].data).None? || client.fails(seen + Observations(client, events[..n + 1]))))
  }

  /** Why it does. */
  function EndingAt<O>(client: Client<O>, events: seq<Event>, n: nat): Ending
    requires n < |events|
  {
    if events[n].kind == "error" then ClosedByServer(events[n].data)
    else if client.parse(events[n].data).None? then Undecodable
    else CallbackFailed
  }

  lemma {:induction false} DeliversAll<O>(client: Client<O>, seen: seq<O>, events: seq<Event>, n: nat)
    requires n <= |events| && forall j: nat | j < n :: !EndsAt(client, seen, events, j)
    ensures Deliver(client, seen, events[..n]) == Delivery(seen + Observations(client, events[..n]), None)
    decreases n
  {
    if n > 0 {
      DeliversAll(client, seen, events, n - 1);
      assert !EndsAt(client, seen, events, n - 1);
      DeliversOneMore(client, seen, events, n - 1);
    } else {
      assert seen + [] == seen;
    }
  }

  lemma DeliversOneMore<O>(client: Client<O>, seen: seq<O>, events: seq<Event>, n: nat)
    requires n < |events|
    requires Deliver(client, seen, events[..n]) == Delivery(seen + Observations(client, events[..n]), None)
    ensures Deliver(client, seen, events[..n + 1])
            == Delivery(seen + Observations(client, events[..n + 1]),
                        if EndsAt(client, seen, events, n) then Some(EndingAt(client, events, n)) else None)
  {
    var so := Observations(client, events[..n]);
    assert events[..n + 1] == events[..n] + [events[n]] && events[..n + 1][..n] == events[..n];
    DeliverConcat(client, seen, events[..n], [events[n]]);
    DeliverOne(client, seen + so, events[n]);
    if events[n].kind == "observation" && client.parse(events[n].data).Some? {
      Regroup(seen, so, [client.parse(events[n].data).value]);
    } else {
      assert so + [] == so;
    }
  }

  /** The callback gets the observations of the events up to the first that ends the stream, and no others; without
      such an event it gets those of all events, and the stream does not end here. */
  lemma DeliversUpToTheFirstEnd<O>(client: Client<O>, seen: seq<O>, events: seq<Event>, n: nat)
    requires forall j: nat | j < n && j < |events| :: !EndsAt(client, seen, events, j)
    requires n < |events| ==> EndsAt(client, seen, events, n)
    requires n <= |events|
    ensures Deliver(client, seen, events)
            == if n < |events| then
                 Delivery(seen + Observations(client, events[..n + 1]), Some(EndingAt(client, events, n)))
               else
                 Delivery(seen + Observations(client, events), None)
  {
    DeliversAll(client, seen, events, n);
    if n < |events| {
      DeliversOneMore(client, seen, events, n);
      DeliverConcat(client, seen, events[..n + 1], events[n + 1..]);
      assert events == events[..n + 1] + events[n + 1..];
    } else {
      assert events[..n] == events;
    }
  }

  lemma DeliverOne<O>(client: Client<O>, seen: seq<O>, e: Event)
    ensures Deliver(client, seen, [e]) == Handle(client, seen, e)
  {
    assert [e][1..] == [];
  }

  lemma {:induction false} EventsPrefix(lines: seq<string>, n: nat)
    requires n <= |lines|
    ensures Events(lines[..n]) <= Events(lines)
  {
    if n < |lines| {
      EventsPrefix(lines[..|lines| - 1], n);
      assert lines[..|lines| - 1][..n] == lines[..n];
    } else {
      assert lines[..n] == lines;
    }
  }

  /** An ending reached on the first lines is the ending. */
  lemma EndedEarly<O>(client: Client<O>, seen: seq<O>, lines: seq<string>, n: nat)
    requires n <= |lines| && Deliver(client, seen, Events(lines[..n])).ending.Some?
    ensures Deliver(client, seen, Events(lines)) == Deliver(client, seen, Events(lines[..n]))
  {
    EventsPrefix(lines, n);
    var a := Events(lines[..n]);
    DeliverConcat(client, seen, a, Events(lines)[|a|..]);
    assert Events(lines) == a + Events(lines)[|a|..];
  }

  /** A line that is not blank goes on with the frame. */
  lemma FrameGoesOn(lines: seq<string>, n: nat)
    requires n < |lines| && lines[n] != ""
    ensures Events(lines[..n + 1]) == Events(lines[..n])
    ensures var frame, line := Unfinished(lines[..n]), lines[n];
            && KindOf(Unfinished(lines[..n + 1])) == (if IsEventLine(line) then TrimSpace(line[6..]) else KindOf(frame))
            && DataOf(Unfinished(lines[..n + 1]))
               == (if IsDataLine(line) then DataOf(frame) + [TrimSpace(line[5..])] else DataOf(frame))
  {
    var frame, line := Unfinished(lines[..n]), lines[n];
    assert lines[..n + 1][..n] == lines[..n];
    assert (frame + [line])[..|frame|] == frame;
  }

  /** A blank line ends it. */
  lemma FrameEnds<O>(client: Client<O>, was: seq<O>, seen: seq<O>, lines: seq<string>, n: nat)
    requires n < |lines| && lines[n] == "" && Deliver(client, was, Events(lines[..n])) == Delivery(seen, None)
    ensures KindOf(Unfinished(lines[..n + 1])) == "" && DataOf(Unfinished(lines[..n + 1])) == []
    ensures var kind, data := KindOf(Unfinished(lines[..n])), DataOf(Unfinished(lines[..n]));
            Deliver(client, was, Events(lines[..n + 1]))
            == if data == [] then Delivery(seen, None) else Handle(client, seen, Event(kind, Join(data, "\n")))
  {
    assert lines[..n + 1][..n] == lines[..n];
    var e := Event(KindOf(Unfinished(lines[..n])), Join(DataOf(Unfinished(lines[..n])), "\n"));
    DeliverConcat(client, was, Events(lines[..n]), [e]);
    DeliverOne(client, seen, e);
    assert DataOf(Unfinished(lines[..n])) == [] ==> Events(lines[..n + 1]) == Events(lines[..n]);
  }

  /** decodeSSEObservations: the callback gets what the complete frames of the text deliver, in order, and the
      stream ends as they say, or else as the reading of it does. An unfinished frame at the end delivers nothing. */
  method DecodeSSEObservations<O(==)>(text: string, readFails: bool, observer: Observer<O>) returns (ending: Ending)
    modifies observer
    ensures var d := Deliver(observer.client, old(observer.seen), Events(ScanLines(text)));
            observer.seen == d.seen
              && ending == if d.ending.Some? then d.ending.value else if readFails then ReadFailed else CleanEnd
  {
    ghost var client, was := observer.client, observer.seen;
    var lines := ScanLines(text);
    var currentEvent, dataLines: seq<string> := "", [];
    for n := 0 to |lines|
      invariant Deliver(client, was, Events(lines[..n])) == Delivery(observer.seen, None)
      invariant currentEvent == KindOf(Unfinished(lines[..n])) && dataLines == DataOf(Unfinished(lines[..n]))
    {
      var line := lines[n];
      if line != "" {
        FrameGoesOn(lines, n);
      } else {
        FrameEnds(client, was, observer.seen, lines, n);
      }
      if HasPrefix(line, "event:") {
        currentEvent := TrimSpace(line[6..]);
      } else if HasPrefix(line, "data:") {
        dataLines := dataLines + [TrimSpace(line[5..])];
      } else if line == "" {
        if dataLines != [] {
          var ended := observer.HandleSSEEvent(currentEvent, Join(dataLines, "\n"));
          if ended.Some? {
            EndedEarly(client, was, lines, n + 1);
            return ended.value;
          }
        }
        currentEvent := "";
        dataLines := [];
      }
    }
    assert lines[..|lines|] == lines;
    ending := if readFails then ReadFailed else CleanEnd;
  }

  // ---------------------------------------------------------------------------------------------
  // Frames
  // ---------------------------------------------------------------------------------------------

  lemma {:induction false} UnfinishedAfterBlank(a: seq<string>, b: seq<string>)
    ensures Unfinished(a + [""] + b) == Unfinished(b)
  {
    var whole := a + [""] + b;
    if b != [] {
      var n := |b| - 1;
      assert whole[..|whole| - 1] == a + [""] + b[..n];
      UnfinishedAfterBlank(a, b[..n]);
    }
  }

  /** The events that one more line completes. */
  function Completed(lines: seq<string>, line: string): seq<Event> {
    if line == "" then EventOf(Unfinished(lines)) else []
  }

  lemma EventsGrow(lines: seq<string>, line: string)
    ensures Events(lines + [line]) == Events(lines) + Completed(lines, line)
  {
    assert (lines + [line])[..|lines|] == lines;
  }

  /** Decoding splits at every blank line: what comes after it does not depend on what came before. */
  lemma {:induction false} EventsSplitAtBlank(a: seq<string>, b: seq<string>)
    ensures Events(a + [""] + b) == Events(a + [""]) + Events(b)
  {
    if b == [] {
      assert a + [""] + b == a + [""];
    } else {
      var c, line := b[..|b| - 1], b[|b| - 1];
      assert a + [""] + b == (a + [""] + c) + [line] && b == c + [line];
      EventsSplitAtBlank(a, c);
      UnfinishedAfterBlank(a, c);
      EventsGrow(a + [""] + c, line);
      EventsGrow(c, line);
      assert Completed(a + [""] + c, line) == Completed(c, line);
      Regroup(Events(a + [""]), Events(c), Completed(c, line));
    }
  }

  /** The last event line names the event, and what other lines there are does not matter to its name. */
  lemma {:induction false} LastEventLineNames(a: seq<string>, line: string, b: seq<string>)
    requires HasPrefix(line, "event:") && forall k | 0 <= k < |b| :: !HasPrefix(b[k], "event:")
    ensures KindOf(a + [line] + b) == TrimSpace(line[6..])
  {
    if b == [] {
      assert a + [line] + b == a + [line];
    } else {
      var n := |b| - 1;
      LastEventLineNames(a, line, b[..n]);
      assert (a + [line] + b)[..|a| + 1 + n] == a + [line] + b[..n];
    }
  }

  /** Every data line counts, in order. */
  lemma {:induction false} DataLinesAreKept(a: seq<string>, b: seq<string>)
    ensures DataOf(a + b) == DataOf(a) + DataOf(b)
  {
    if b == [] {
      assert a + b == a;
    } else {
      var n := |b| - 1;
      DataLinesAreKept(a, b[..n]);
      assert (a + b)[..|a| + n] == a + b[..n];
    }
  }

  /** Lines that no blank line completes deliver nothing. */
  lemma {:induction false} UnfinishedFrameIsDropped(lines: seq<string>, tail: seq<string>)
    requires "" !in tail
    ensures Events(lines + tail) == Events(lines)
  {
    if tail == [] {
      assert lines + tail == lines;
    } else {
      var n := |tail| - 1;
      assert (lines + tail)[..|lines + tail| - 1] == lines + tail[..n];
      assert tail[n] in tail;
      UnfinishedFrameIsDropped(lines, tail[..n]);
    }
  }

  // ---------------------------------------------------------------------------------------------
  // Round trip
  // ---------------------------------------------------------------------------------------------

  function DataLines(pieces: seq<string>): seq<string> {
    seq(|pieces|, k requires 0 <= k < |pieces| => "data: " + pieces[k])
  }

  function TrimAll(pieces: seq<string>): seq<string> {
    seq(|pieces|, k requires 0 <= k < |pieces| => TrimSpace(pieces[k]))
  }

  /** The frame that a server sends for an event: its name, its data line by line, a blank line. */
  function Frame(e: Event): seq<string> {
    ["event: " + e.kind] + DataLines(Split(e.data, '\n'))
  }

  function Encoded(events: seq<Event>): seq<string> {
    if events == [] then [] else Encoded(events[..|events| - 1]) + (Frame(events[|events| - 1]) + [""])
  }

  /** The event as the decoder sees it. */
  function Received(e: Event): Event {
    Event(TrimSpace(e.kind), Join(TrimAll(Split(e.data, '\n')), "\n"))
  }

  /** No line of the data has outer white space. */
  predicate TrimmedLines(data: string) {
    forall k | 0 <= k < |Split(data, '\n')| :: Trimmed(Split(data, '\n')[k])
  }

  /** No outer white space at the name or at a line of the data, and a name on one line. */
  predicate Unpadded(e: Event) {
    Trimmed(e.kind) && TrimmedLines(e.data) && Without(e.kind, '\n')
  }

  /** The text on the wire: every line ends in a newline. */
  function Wire(lines: seq<string>): string {
    if lines == [] then "" else Join(lines, "\n") + "\n"
  }

  /** What the decoder makes of the text that a server sends for some events. */
  function Decoded(events: seq<Event>): seq<Event> {
    Events(ScanLines(Wire(Encoded(events))))
  }

  lemma TrimSkipsSpace(s: string)
    ensures TrimSpace(" " + s) == TrimSpace(s)
  {
    assert (" " + s)[1..] == s;
  }

  lemma EventLineReads(kind: string)
    ensures var line := "event: " + kind;
            line != "" && IsEventLine(line) && TrimSpace(line[6..]) == TrimSpace(kind)
  {
    assert ("event: " + kind)[6..] == " " + kind;
    TrimSkipsSpace(kind);
  }

  lemma DataLineReads(piece: string)
    ensures var line := "data: " + piece;
            line != "" && !IsEventLine(line) && IsDataLine(line) && TrimSpace(line[5..]) == TrimSpace(piece)
  {
    var line := "data: " + piece;
    assert line[5..] == " " + piece && line[0] == 'd' && "event:"[0] == 'e';
    TrimSkipsSpace(piece);
  }

  lemma FrameGrow(frame: seq<string>, piece: string)
    ensures var line := "data: " + piece;
            && line != "" && KindOf(frame + [line]) == KindOf(frame)
            && DataOf(frame + [line]) == DataOf(frame) + [TrimSpace(piece)]
  {
    DataLineReads(piece);
    assert (frame + ["data: " + piece])[..|frame|] == frame;
  }

  lemma FrameStart(kind: string)
    ensures var frame := ["event: " + kind];
            frame[0] != "" && KindOf(frame) == TrimSpace(kind) && DataOf(frame) == []
  {
    EventLineReads(kind);
    assert ["event: " + kind][..0] == [];
  }

  lemma LinesGrow(pieces: seq<string>, piece: string)
    ensures DataLines(pieces + [piece]) == DataLines(pieces) + ["data: " + piece]
    ensures TrimAll(pieces + [piece]) == TrimAll(pieces) + [TrimSpace(piece)]
  {
  }

  lemma {:induction false} FrameReads(kind: string, pieces: seq<string>)
    ensures var frame := ["event: " + kind] + DataLines(pieces);
            KindOf(frame) == TrimSpace(kind) && DataOf(frame) == TrimAll(pieces) && "" !in frame
  {
    var head := ["event: " + kind];
    if pieces == [] {
      FrameStart(kind);
      assert head + DataLines(pieces) == head;
    } else {
      var before, piece := pieces[..|pieces| - 1], pieces[|pieces| - 1];
      FrameReads(kind, before);
      FrameGrow(head + DataLines(before), piece);
      LinesGrow(before, piece);
      Snoc(pieces);
      Regroup(head, DataLines(before), ["data: " + piece]);
    }
  }

  lemma {:induction false} UnfinishedWithoutBlank(lines: seq<string>)
    requires "" !in lines
    ensures Unfinished(lines) == lines && Events(lines) == []
  {
    if lines != [] {
      var n := |lines| - 1;
      assert lines[n] in lines;
      UnfinishedWithoutBlank(lines[..n]);
    }
  }

  lemma EventsOfFrame(e: Event)
    ensures Events(Frame(e) + [""]) == [Received(e)]
  {
    var frame := Frame(e);
    FrameReads(e.kind, Split(e.data, '\n'));
    UnfinishedWithoutBlank(frame);
    assert (frame + [""])[..|frame|] == frame;
  }

  function AllReceived(events: seq<Event>): seq<Event> {
    seq(|events|, k requires 0 <= k < |events| => Received(events[k]))
  }

  /** Complete frames one after the other. */
  predicate Complete(lines: seq<string>) {
    lines == [] || lines[|lines| - 1] == ""
  }

  lemma EventsOfCompleteConcat(a: seq<string>, b: seq<string>)
    requires Complete(a)
    ensures Events(a + b) == Events(a) + Events(b)
  {
    if a == [] {
      assert a + b == b;
    } else {
      EventsSplitAtBlank(a[..|a| - 1], b);
      assert a == a[..|a| - 1] + [""];
    }
  }

  lemma EncodedGrow(events: seq<Event>, e: Event)
    ensures Encoded(events + [e]) == Encoded(events) + (Frame(e) + [""])
  {
    assert (events + [e])[..|events|] == events;
  }

  lemma ReceivedGrow(events: seq<Event>, e: Event)
    ensures AllReceived(events + [e]) == AllReceived(events) + [Received(e)]
  {
  }

  lemma FrameAppended(lines: seq<string>, e: Event)
    requires Complete(lines)
    ensures Events(lines + (Frame(e) + [""])) == Events(lines) + [Received(e)]
    ensures Complete(lines + (Frame(e) + [""]))
  {
    EventsOfFrame(e);
    EventsOfCompleteConcat(lines, Frame(e) + [""]);
  }

  /** What is read from the encoding of some events. */
  predicate Reads(lines: seq<string>, events: seq<Event>) {
    Events(lines) == events && Complete(lines)
  }

  lemma ReadsGrow(lines: seq<string>, events: seq<Event>, e: Event)
    requires Reads(lines, events)
    ensures Reads(lines + (Frame(e) + [""]), events + [Received(e)])
  {
    FrameAppended(lines, e);
  }

  lemma {:induction false} EncodedReads(events: seq<Event>)
    ensures Reads(Encoded(events), AllReceived(events))
  {
    if events == [] {
      assert AllReceived(events) == [];
    } else {
      var before, e := events[..|events| - 1], events[|events| - 1];
      EncodedReads(before);
      ReadsGrow(Encoded(before), AllReceived(before), e);
      EncodedGrow(before, e);
      ReceivedGrow(before, e);
      Snoc(events);
    }
  }

  lemma {:induction false} JoinedLength(pieces: seq<string>)
    ensures |Join(TrimAll(pieces), "\n")| <= |Join(pieces, "\n")|
    ensures |Join(TrimAll(pieces), "\n")| == |Join(pieces, "\n")| ==> TrimAll(pieces) == pieces
  {
    if pieces != [] {
      TrimLeftIsSuffix(pieces[0]);
      TrimRightIsPrefix(TrimLeft(pieces[0]));
      assert TrimAll(pieces)[1..] == TrimAll(pieces[1..]);
      JoinedLength(pieces[1..]);
      if |TrimSpace(pieces[0])| == |pieces[0]| {
        assert TrimSpace(pieces[0]) == pieces[0];
        assert pieces == [pieces[0]] + pieces[1..] && TrimAll(pieces) == [TrimSpace(pieces[0])] + TrimAll(pieces[1..]);
      }
    }
  }

  /** Line by line an event survives exactly when nothing of it is trimmed. */
  lemma ReceivedExactlyWhenTrimmed(e: Event)
    ensures Received(e) == e
            <==> Trimmed(e.kind) && TrimmedLines(e.data)
  {
    var pieces := Split(e.data, '\n');
    JoinSplit(e.data, '\n');
    JoinedLength(pieces);
    TrimSpaceFixes(e.kind);
    forall k | 0 <= k < |pieces| ensures TrimAll(pieces)[k] == pieces[k] <==> Trimmed(pieces[k]) {
      TrimSpaceFixes(pieces[k]);
    }
    assert TrimmedLines(e.data) ==> TrimAll(pieces) == pieces;
  }

  // ---------------------------------------------------------------------------------------------
  // From lines to text
  // ---------------------------------------------------------------------------------------------

  predicate OneLine(lines: seq<string>) {
    forall k | 0 <= k < |lines| :: Without(lines[k], '\n')
  }

  /** Scanning gives back the lines that were written, but for carriage returns at their ends. */
  lemma ScansWhatWasWritten(lines: seq<string>)
    requires OneLine(lines)
    ensures ScanLines(Wire(lines)) == Dropped(lines)
  {
    if lines != [] {
      var text := Join(lines, "\n");
      SplitJoin(lines, '\n');
      SplitConcat(text, "", '\n');
      assert text + "\n" + "" == text + "\n";
      assert (lines + [""])[..|lines|] == lines;
    }
  }

  /** Lines that end in a carriage return and a newline are scanned as lines that end in a newline. */
  lemma CarriageReturnsAreDropped(lines: seq<string>)
    requires OneLine(lines) && forall k | 0 <= k < |lines| :: lines[k] == "" || lines[k][|lines[k]| - 1] != '\r'
    ensures var marked := seq(|lines|, k requires 0 <= k < |lines| => lines[k] + "\r");
            ScanLines(Wire(marked)) == ScanLines(Wire(lines)) == lines
  {
    var marked := seq(|lines|, k requires 0 <= k < |lines| => lines[k] + "\r");
    forall k | 0 <= k < |lines| ensures Without(marked[k], '\n') && DropCR(marked[k]) == lines[k] == DropCR(lines[k]) {
      assert (lines[k] + "\r")[..|lines[k]|] == lines[k];
    }
    ScansWhatWasWritten(marked);
    ScansWhatWasWritten(lines);
    assert Dropped(marked) == lines == Dropped(lines);
  }

  lemma ScannedIsOneLine(text: string)
    ensures OneLine(ScanLines(text))
  {
    SplitPieces(text, '\n');
  }

  lemma TrimLeftWithEnd(s: string, c: char)
    requires IsSpace(c)
    ensures TrimLeft(s + [c]) == if TrimLeft(s) == "" then "" else TrimLeft(s) + [c]
  {
    if s == "" {
      assert [c][1..] == "";
    } else if IsSpace(s[0]) {
      assert (s + [c])[1..] == s[1..] + [c];
      TrimLeftWithEnd(s[1..], c);
    }
  }

  lemma TrimDropsEnd(s: string, c: char)
    requires IsSpace(c)
    ensures TrimSpace(s + [c]) == TrimSpace(s)
  {
    TrimLeftWithEnd(s, c);
    assert (TrimLeft(s) + [c])[..|TrimLeft(s)|] == TrimLeft(s);
  }

  /** A carriage return at the end of a line does not matter to what follows a prefix without one. */
  lemma DropKeepsField(line: string, prefix: string)
    requires prefix != "" && prefix[|prefix| - 1] != '\r'
    ensures HasPrefix(DropCR(line), prefix) <==> HasPrefix(line, prefix)
    ensures HasPrefix(line, prefix) ==> TrimSpace(DropCR(line)[|prefix|..]) == TrimSpace(line[|prefix|..])
  {
    if DropCR(line) != line {
      var n := |line| - 1;
      assert line == line[..n] + ['\r'];
      if HasPrefix(line, prefix) {
        assert |prefix| <= n by {
          assert line[|prefix| - 1] == prefix[|prefix| - 1];
        }
        assert line[|prefix|..] == line[..n][|prefix|..] + ['\r'];
        TrimDropsEnd(line[..n][|prefix|..], '\r');
      }
    }
  }

  lemma {:induction false} DropKeepsFrame(frame: seq<string>)
    ensures KindOf(Dropped(frame)) == KindOf(frame) && DataOf(Dropped(frame)) == DataOf(frame)
  {
    if frame != [] {
      var n := |frame| - 1;
      DropKeepsFrame(frame[..n]);
      assert Dropped(frame)[..n] == Dropped(frame[..n]);
      DropKeepsField(frame[n], "event:");
      DropKeepsField(frame[n], "data:");
    }
  }

  lemma DropKeepsBlank(line: string)
    requires line != "\r"
    ensures DropCR(line) == "" <==> line == ""
  {
    if |line| == 1 {
      assert line == [line[0]];
    }
  }

  lemma {:induction false} DropKeepsUnfinished(lines: seq<string>)
    requires "\r" !in lines
    ensures Unfinished(Dropped(lines)) == Dropped(Unfinished(lines))
  {
    if lines != [] {
      var n := |lines| - 1;
      assert lines[n] in lines;
      DropKeepsBlank(lines[n]);
      DropKeepsUnfinished(lines[..n]);
      assert Dropped(lines)[..n] == Dropped(lines[..n]);
    }
  }

  lemma {:induction false} DropKeepsEvents(lines: seq<string>)
    requires "\r" !in lines
    ensures Events(Dropped(lines)) == Events(lines)
  {
    if lines != [] {
      var n := |lines| - 1;
      assert lines[n] in lines;
      DropKeepsBlank(lines[n]);
      DropKeepsEvents(lines[..n]);
      DropKeepsUnfinished(lines[..n]);
      DropKeepsFrame(Unfinished(lines[..n]));
      assert Dropped(lines)[..n] == Dropped(lines[..n]);
    }
  }

  lemma {:induction false} KindIsOneLine(frame: seq<string>)
    requires OneLine(frame)
    ensures Without(KindOf(frame), '\n')
  {
    if frame != [] {
      var last := frame[|frame| - 1];
      if IsEventLine(last) {
        TrimLeftIsSuffix(last[6..]);
        TrimRightIsPrefix(TrimLeft(last[6..]));
      } else {
        KindIsOneLine(frame[..|frame| - 1]);
      }
    }
  }

  lemma {:induction false} UnfinishedIsOneLine(lines: seq<string>)
    requires OneLine(lines)
    ensures OneLine(Unfinished(lines))
  {
    if lines != [] && lines[|lines| - 1] != "" {
      UnfinishedIsOneLine(lines[..|lines| - 1]);
    }
  }

  /** No event that is read has a name with a newline. */
  lemma {:induction false} KindsAreOneLine(lines: seq<string>)
    requires OneLine(lines)
    ensures forall k | 0 <= k < |Events(lines)| :: Without(Events(lines)[k].kind, '\n')
  {
    if lines != [] {
      var before := lines[..|lines| - 1];
      KindsAreOneLine(before);
      UnfinishedIsOneLine(before);
      KindIsOneLine(Unfinished(before));
    }
  }

  /** The lines that encode an event. */
  lemma FrameLines(e: Event)
    ensures "\r" !in Frame(e) + [""]
    ensures Without(e.kind, '\n') ==> OneLine(Frame(e) + [""])
  {
    var pieces := Split(e.data, '\n');
    SplitPieces(e.data, '\n');
    forall k | 0 <= k < |pieces| ensures "data: " + pieces[k] != "\r" && Without("data: " + pieces[k], '\n') {
      assert ("data: " + pieces[k])[0] == 'd';
    }
    assert ("event: " + e.kind)[0] == 'e';
  }

  lemma {:induction false} EncodedLines(events: seq<Event>)
    ensures "\r" !in Encoded(events)
    ensures (forall k | 0 <= k < |events| :: Without(events[k].kind, '\n')) ==> OneLine(Encoded(events))
  {
    if events != [] {
      EncodedLines(events[..|events| - 1]);
      FrameLines(events[|events| - 1]);
    }
  }

  /** When the names are on one line, the events arrive as the decoder sees each. */
  lemma DecodedIsReceived(events: seq<Event>)
    requires forall k | 0 <= k < |events| :: Without(events[k].kind, '\n')
    ensures Decoded(events) == AllReceived(events)
  {
    EncodedLines(events);
    ScansWhatWasWritten(Encoded(events));
    DropKeepsEvents(Encoded(events));
    EncodedReads(events);
  }

  /** On the wire, decoding inverts encoding on exactly the sequences of unpadded events. */
  lemma DecodingInvertsEncoding(events: seq<Event>)
    ensures Decoded(events) == events <==> forall k | 0 <= k < |events| :: Unpadded(events[k])
  {
    if forall k | 0 <= k < |events| :: Without(events[k].kind, '\n') {
      DecodedIsReceived(events);
      forall k | 0 <= k < |events| ensures AllReceived(events)[k] == events[k] <==> Unpadded(events[k]) {
        assert Without(events[k].kind, '\n');
        ReceivedExactlyWhenTrimmed(events[k]);
      }
    } else {
      var text := Wire(Encoded(events));
      ScannedIsOneLine(text);
      KindsAreOneLine(ScanLines(text));
    }
  }
}
