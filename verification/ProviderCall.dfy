/** One provider call: streaming, non-streaming responses, and failover over endpoint candidates
    (roots/llm/client.go, roots/llm/clientadapter.go, roots/llm/endpoint.go). */
module ProviderCall {
  import opened Sequences
  import opened Text
  import opened ToolCalls
  import opened Attempts
  import opened Options
  import OpenAI = OpenAIDecoding
  import Anthropic = AnthropicDecoding

  datatype Mode = AnthropicMode | OpenAIishMode

  /** The JSON payload of a "data: " line, as each adapter decodes it. */
  datatype Payload = Payload(chunk: OpenAI.Chunk, event: Anthropic.Event)

  /** A line of a streamed response: empty or without the "data: " prefix, the end mark, or a payload. */
  datatype Line = Skipped | Done | Data(payload: Payload)

  datatype Delta = Delta(text: string, fragment: string, calls: seq<ToolCall>)

  // ---------------------------------------------------------------------------------------------
  // Decoders
  // ---------------------------------------------------------------------------------------------

  ghost function Step(mode: Mode, d: Decoding, p: Payload): Decoding {
    match mode
    case AnthropicMode => Anthropic.Step(d, p.event)
    case OpenAIishMode => OpenAI.Step(d, p.chunk)
  }

  /** The bytes of a chunk's fragments, all indexes together, in order. */
  function FragmentText(fragments: seq<OpenAI.Fragment>): string {
    if fragments == [] then ""
    else FragmentText(fragments[..|fragments| - 1]) + fragments[|fragments| - 1].arguments
  }

  /** The assistant text of a payload. */
  function TextOf(mode: Mode, p: Payload): string {
    match mode
    case AnthropicMode => if p.event.TextDelta? then p.event.text else ""
    case OpenAIishMode => if p.chunk.Chunk? && p.chunk.choices != [] then p.chunk.choices[0].content else ""
  }

  /** The argument bytes of a payload, as shown to whoever follows the stream. */
  function ShownFragment(mode: Mode, p: Payload): string {
    match mode
    case AnthropicMode => if p.event.JsonDelta? then p.event.partial else ""
    case OpenAIishMode => FragmentText(OpenAI.Fragments(p.chunk))
  }

  class StreamDecoder {
    const mode: Mode
    var accumulators: Accumulators
    ghost var emitted: Emission

    constructor (mode: Mode)
      ensures this.mode == mode && State() == Decoding(map[], [])
    {
      this.mode := mode;
      accumulators := map[];
      emitted := [];
    }

    ghost function State(): Decoding
      reads this
    {
      Decoding(accumulators, emitted)
    }

    /** Whatever the payload, the decoder takes one step, and what it reports is that step's text, fragment
        and newly completed calls; when it reports nothing there was nothing of these. */
    method ParseChunk(p: Payload) returns (delta: Delta, ok: bool)
      modifies this
      ensures State() == Step(mode, old(State()), p)
      ensures ok ==> delta.text == TextOf(mode, p) && delta.fragment == ShownFragment(mode, p)
                     && old(emitted) <= emitted && delta.calls == Calls(emitted[|old(emitted)|..])
      ensures !ok ==> TextOf(mode, p) == "" && ShownFragment(mode, p) == "" && emitted == old(emitted)
    {
      match mode {
        case AnthropicMode => delta, ok := ParseEvent(p.event);
        case OpenAIishMode => delta, ok := ParseOpenAIish(p.chunk);
      }
    }

    method ParseEvent(e: Anthropic.Event) returns (delta: Delta, ok: bool)
      modifies this
      ensures State() == Anthropic.Step(old(State()), e)
      ensures ok ==> delta.text == (if e.TextDelta? then e.text else "")
                     && delta.fragment == (if e.JsonDelta? then e.partial else "")
                     && old(emitted) <= emitted && delta.calls == Calls(emitted[|old(emitted)|..])
      ensures !ok ==> !e.TextDelta? && !e.JsonDelta? && emitted == old(emitted)
    {
      delta, ok := Delta("", "", []), false;
      match e {
        case MessageStart(usage) => ok := usage;
        case MessageDelta(usage) => ok := usage;
        case MessageStop => ok := true;
        case TextDelta(text) => delta, ok := Delta(text, "", []), true;
        case JsonDelta(index, partial) =>
          if index in accumulators {
            var call := accumulators[index];
            accumulators := accumulators[index := call.(arguments := call.arguments + partial)];
          }
          delta, ok := Delta("", partial, []), true;
        case BlockStart(index, toolUse, id, name) =>
          if toolUse {
            accumulators := accumulators[index := ToolCall(id, "function", name, "")];
            ok := true;
          }
        case BlockStop(index) =>
          if index in accumulators {
            var call := accumulators[index];
            accumulators := accumulators - {index};
            emitted := emitted + [(index, call)];
            delta, ok := Delta("", "", [call]), true;
          }
        case _ =>
      }
    }

    method ParseOpenAIish(c: OpenAI.Chunk) returns (delta: Delta, ok: bool)
      modifies this
      ensures State() == OpenAI.Step(old(State()), c)
      ensures ok ==> delta.text == (if c.Chunk? && c.choices != [] then c.choices[0].content else "")
                     && delta.fragment == FragmentText(OpenAI.Fragments(c))
                     && old(emitted) <= emitted && delta.calls == Calls(emitted[|old(emitted)|..])
      ensures !ok ==> (c.Chunk? && c.choices != [] ==> c.choices[0].content == "")
                      && FragmentText(OpenAI.Fragments(c)) == "" && emitted == old(emitted)
    {
      delta, ok := Delta("", "", []), false;
      if c.Undecodable? {
        return;
      }
      if c.usage {
        ok := true;
      }
      if c.choices != [] {
        var choice := c.choices[0];
        if choice.content != "" {
          delta := delta.(text := choice.content);
          ok := true;
        }
        var shown := Append(choice.fragments);
        if shown != "" {
          delta := delta.(fragment := shown);
          ok := true;
        }
        if choice.finish != "" {
          if choice.finish == "length" && accumulators != map[] {
            // Left open for Finalize to report truncation.
          } else {
            var indexes := Sort(accumulators.Keys);
            ListingIsUnique(indexes, Order(accumulators.Keys), accumulators.Keys);
            var finished := Pick(accumulators, indexes);
            delta := delta.(calls := Calls(finished));
            ghost var before := emitted;
            emitted := emitted + finished;
            assert emitted[|before|..] == finished;
            accumulators := map[];
            if delta.calls != [] {
              ok := true;
            }
          }
        }
      }
    }

    /** Adds fragments to the accumulators one by one. */
    method Append(fragments: seq<OpenAI.Fragment>) returns (shown: string)
      modifies this`accumulators
      ensures accumulators == OpenAI.AccumulateAll(old(accumulators), fragments)
      ensures shown == FragmentText(fragments)
    {
      shown := "";
      for n := 0 to |fragments|
        invariant accumulators == OpenAI.AccumulateAll(old(accumulators), fragments[..n])
        invariant shown == FragmentText(fragments[..n])
      {
        var f := fragments[n];
        assert fragments[..n + 1][..n] == fragments[..n];
        if f.index !in accumulators {
          accumulators := accumulators[f.index := ToolCall(f.id, "function", f.name, "")];
        }
        var call := accumulators[f.index];
        assert f.arguments == "" ==> call.arguments + f.arguments == call.arguments;
        if f.arguments != "" {
          accumulators := accumulators[f.index := call.(arguments := call.arguments + f.arguments)];
          shown := shown + f.arguments;
        }
        assert accumulators == OpenAI.AccumulateAll(old(accumulators), fragments[..n + 1]);
      }
      assert fragments[..|fragments|] == fragments;
    }

    /** Reports a call that the stream left open. */
    method Finalize() returns (truncated: bool)
      ensures truncated <==> accumulators != map[]
    {
      truncated := |accumulators| > 0;
    }
  }

  // ---------------------------------------------------------------------------------------------
  // One attempt at one endpoint
  // ---------------------------------------------------------------------------------------------

  /** A message, or a content block, of a non-streaming response. */
  datatype Message = Message(content: string, calls: seq<ToolCall>)
  datatype Block = TextBlock(text: string) | ToolUse(id: string, name: string, input: string) | OtherBlock

  /** A non-streaming body, as each adapter decodes it. */
  datatype Body = Body(choices: Option<seq<Message>>, blocks: Option<seq<Block>>)

  /** What one endpoint does with the request. An accepted one is answered by a body, which the caller reads as lines,
      with a read error in the middle if it is broken, when it streams, and as a whole, if readable, otherwise. */
  datatype Response =
    | Unreachable
    | Rejection(status: int, readable: bool)
    | Accepted(lines: seq<Line>, broken: bool, readable: bool, body: Body)

  /** The texts of the text blocks that are not blank, trimmed. */
  function BlockTexts(blocks: seq<Block>): seq<string> {
    if blocks == [] then []
    else
      var b := blocks[|blocks| - 1];
      BlockTexts(blocks[..|blocks| - 1]) + (if b.TextBlock? && TrimSpace(b.text) != "" then [TrimSpace(b.text)] else [])
  }

  function BlockCalls(blocks: seq<Block>): seq<ToolCall> {
    if blocks == [] then []
    else
      var b := blocks[|blocks| - 1];
      BlockCalls(blocks[..|blocks| - 1]) + (if b.ToolUse? then [ToolCall(b.id, "function", b.name, b.input)] else [])
  }

  function ParseResponse(mode: Mode, body: Body): Attempt {
    match mode
    case OpenAIishMode =>
      if body.choices.None? || body.choices.value == [] then Attempt(NoResult, Some(OtherFailure))
      else
        var message := body.choices.value[0];
        if TrimSpace(message.content) == "" && message.calls == [] then Attempt(NoResult, Some(OtherFailure))
        else Attempt(Result(TrimSpace(message.content), message.calls), None)
    case AnthropicMode =>
      if body.blocks.None? then Attempt(NoResult, Some(OtherFailure))
      else
        var result := Result(Join(BlockTexts(body.blocks.value), "\n"), BlockCalls(body.blocks.value));
        if result.text == "" && result.calls == [] then Attempt(NoResult, Some(OtherFailure))
        else Attempt(result, None)
  }

  /** The payloads of a stream: everything before the end mark. */
  function Payloads(lines: seq<Line>): seq<Payload> {
    if lines == [] || lines[0].Done? then []
    else (if lines[0].Data? then [lines[0].payload] else []) + Payloads(lines[1..])
  }

  /** What a payload puts on the token channel. */
  function TokensOf(mode: Mode, p: Payload): seq<string> {
    (if TextOf(mode, p) != "" then [TextOf(mode, p)] else [])
    + (if ShownFragment(mode, p) != "" then [ShownFragment(mode, p)] else [])
  }

  /** What reading some payloads amounts to: the decoder's state, the assistant text, the tokens passed on. */
  datatype Reading = Reading(decoding: Decoding, text: string, tokens: seq<string>)

  ghost function Extend(mode: Mode, r: Reading, p: Payload): Reading {
    Reading(Step(mode, r.decoding, p), r.text + TextOf(mode, p), r.tokens + TokensOf(mode, p))
  }

  ghost function ReadAll(mode: Mode, payloads: seq<Payload>): Reading {
    if payloads == [] then Reading(Decoding(map[], []), "", [])
    else Extend(mode, ReadAll(mode, payloads[..|payloads| - 1]), payloads[|payloads| - 1])
  }

  /** The outcome of reading a whole stream. */
  ghost function StreamAttempt(mode: Mode, lines: seq<Line>, broken: bool): Attempt {
    var r := ReadAll(mode, Payloads(lines));
    var result := Result(r.text, Calls(r.decoding.emitted));
    Attempt(result,
            if broken || r.decoding.open != map[] then Some(OtherFailure)
            else if TrimSpace(result.text) == "" && result.calls == [] then Some(NoUsableCompletion)
            else None)
  }

  /** The outcome of one attempt. */
  ghost function AttemptAt(mode: Mode, tools: bool, streaming: bool, response: Response): Attempt {
    match response
    case Unreachable => Attempt(NoResult, Some(TransportFailure))
    case Rejection(status, readable) =>
      Attempt(NoResult, Some(if readable && tools && (status == 400 || status == 422) then RejectedWithTools
                             else OtherFailure))
    case Accepted(lines, broken, readable, body) =>
      if streaming then StreamAttempt(mode, lines, broken)
      else if readable then ParseResponse(mode, body)
      else Attempt(NoResult, Some(OtherFailure))
  }

  ghost function TokensAt(mode: Mode, streaming: bool, response: Response): seq<string> {
    if streaming && response.Accepted? then ReadAll(mode, Payloads(response.lines)).tokens else []
  }

  lemma CallsSplit(a: Emission, b: Emission)
    requires a <= b
    ensures Calls(b) == Calls(a) + Calls(b[|a|..])
  {
  }

  /** Decodes one payload and passes its text and fragment on. */
  method Relay(decoder: StreamDecoder, p: Payload, tokens: TokenChannel) returns (text: string, calls: seq<ToolCall>)
    requires tokens.closes == 0
    modifies decoder, tokens`sent
    ensures decoder.State() == Step(decoder.mode, old(decoder.State()), p)
    ensures text == TextOf(decoder.mode, p)
    ensures Calls(decoder.emitted) == Calls(old(decoder.emitted)) + calls
    ensures tokens.sent == old(tokens.sent) + TokensOf(decoder.mode, p)
  {
    text, calls := "", [];
    ghost var before := decoder.emitted;
    var delta, ok := decoder.ParseChunk(p);
    if ok {
      CallsSplit(before, decoder.emitted);
      if delta.text != "" {
        text := delta.text;
        tokens.Send(delta.text);
      }
      if delta.fragment != "" {
        tokens.Send(delta.fragment);
      }
      calls := delta.calls;
    }
  }

  /** The reading after a line. */
  ghost function Next(mode: Mode, r: Reading, line: Line): Reading {
    if line.Data? then Extend(mode, r, line.payload) else r
  }

  const NothingRead: Reading := Reading(Decoding(map[], []), "", [])

  /** The reading after the first k lines. */
  ghost function ReadUpTo(mode: Mode, lines: seq<Line>, k: nat): Reading
    requires k <= |lines|
  {
    if k == 0 then NothingRead else Next(mode, ReadUpTo(mode, lines, k - 1), lines[k - 1])
  }

  lemma {:induction false} LinesArePayloads(mode: Mode, lines: seq<Line>, k: nat)
    requires k <= |lines| && forall j | 0 <= j < k :: !lines[j].Done?
    ensures ReadUpTo(mode, lines, k) == ReadAll(mode, Payloads(lines[..k]))
  {
    if k > 0 {
      LinesArePayloads(mode, lines, k - 1);
      PayloadsStep(lines, k - 1);
      if lines[k - 1].Data? {
        ReadAllGrow(mode, Payloads(lines[..k - 1]), lines[k - 1].payload);
      }
    }
  }

  lemma ReadAllGrow(mode: Mode, earlier: seq<Payload>, payload: Payload)
    ensures ReadAll(mode, earlier + [payload]) == Extend(mode, ReadAll(mode, earlier), payload)
  {
    assert (earlier + [payload])[..|earlier|] == earlier;
  }

  lemma {:induction false} PayloadsStep(lines: seq<Line>, k: nat)
    requires k < |lines| && forall j | 0 <= j <= k :: !lines[j].Done?
    ensures Payloads(lines[..k + 1])
            == if lines[k].Data? then Payloads(lines[..k]) + [lines[k].payload] else Payloads(lines[..k])
    decreases k
  {
    if k > 0 {
      PayloadsStep(lines[1..], k - 1);
      TailOfPrefix(lines, k + 1);
      TailOfPrefix(lines, k);
      if lines[0].Data? && lines[k].Data? {
        Regroup([lines[0].payload], Payloads(lines[1..][..k - 1]), [lines[k].payload]);
      }
    }
  }

  lemma {:induction false} PayloadsEnd(lines: seq<Line>, k: nat)
    requires k <= |lines| && (forall j | 0 <= j < k :: !lines[j].Done?) && (k < |lines| ==> lines[k].Done?)
    ensures Payloads(lines) == Payloads(lines[..k])
    decreases k
  {
    if k > 0 {
      PayloadsEnd(lines[1..], k - 1);
      TailOfPrefix(lines, k);
    }
  }

  /** The decoder, the result so far, and what the channel got since `start`, are those of r. */
  ghost predicate Follows(decoder: StreamDecoder, tokens: TokenChannel, start: seq<string>, result: Result, r: Reading)
    reads decoder, tokens
  {
    && decoder.State() == r.decoding && result == Result(r.text, Calls(r.decoding.emitted))
    && tokens.sent == start + r.tokens
  }

  /** One line that is not the end mark. */
  method ReadLine(decoder: StreamDecoder, line: Line, soFar: Result, tokens: TokenChannel,
                  ghost start: seq<string>, ghost r: Reading)
    returns (result: Result)
    requires tokens.closes == 0 && Follows(decoder, tokens, start, soFar, r)
    modifies decoder, tokens`sent
    ensures Follows(decoder, tokens, start, result, Next(decoder.mode, r, line))
  {
    result := soFar;
    if line.Data? {
      var more, completed := Relay(decoder, line.payload, tokens);
      result := Result(soFar.text + more, soFar.calls + completed);
      assert (start + r.tokens) + TokensOf(decoder.mode, line.payload)
          == start + (r.tokens + TokensOf(decoder.mode, line.payload));
    }
  }

  /** The scanner loop of doCall: it decodes up to the end mark and passes text and fragments on as they
      arrive. */
  method ReadLines(decoder: StreamDecoder, lines: seq<Line>, tokens: TokenChannel) returns (result: Result)
    requires tokens.closes == 0 && decoder.State() == Decoding(map[], [])
    modifies decoder, tokens`sent
    ensures Follows(decoder, tokens, old(tokens.sent), result, ReadAll(decoder.mode, Payloads(lines)))
  {
    result := NoResult;
    var k := 0;
    ghost var start := tokens.sent;
    while k < |lines| && !lines[k].Done?
      invariant k <= |lines| && forall j | 0 <= j < k :: !lines[j].Done?
      invariant Follows(decoder, tokens, start, result, ReadUpTo(decoder.mode, lines, k))
    {
      result := ReadLine(decoder, lines[k], result, tokens, start, ReadUpTo(decoder.mode, lines, k));
      k := k + 1;
    }
    LinesArePayloads(decoder.mode, lines, k);
    PayloadsEnd(lines, k);
  }

  /** The streaming part of doCall. */
  method ReadStream(mode: Mode, lines: seq<Line>, broken: bool, tokens: TokenChannel) returns (attempt: Attempt)
    requires tokens.closes == 0
    modifies tokens`sent
    ensures attempt == StreamAttempt(mode, lines, broken)
    ensures tokens.sent == old(tokens.sent) + ReadAll(mode, Payloads(lines)).tokens
  {
    var decoder := new StreamDecoder(mode);
    var result := ReadLines(decoder, lines, tokens);
    if broken {
      return Attempt(result, Some(OtherFailure));
    }
    var truncated := decoder.Finalize();
    if truncated {
      return Attempt(result, Some(OtherFailure));
    }
    if TrimSpace(result.text) == "" && |result.calls| == 0 {
      return Attempt(result, Some(NoUsableCompletion));
    }
    return Attempt(result, None);
  }

  function Chunks(payloads: seq<Payload>): seq<OpenAI.Chunk> {
    seq(|payloads|, k requires 0 <= k < |payloads| => payloads[k].chunk)
  }

  lemma {:induction false} ReadingDecodes(payloads: seq<Payload>)
    ensures ReadAll(OpenAIishMode, payloads).decoding == OpenAI.Decode(Chunks(payloads))
  {
    if payloads != [] {
      var n := |payloads| - 1;
      ReadingDecodes(payloads[..n]);
      OpenAI.DecodeGrow(Chunks(payloads[..n]), payloads[n].chunk);
      ChunksGrow(payloads);
    }
  }

  lemma ChunksGrow(payloads: seq<Payload>)
    requires payloads != []
    ensures Chunks(payloads) == Chunks(payloads[..|payloads| - 1]) + [payloads[|payloads| - 1].chunk]
  {
  }

  /** A stream left with an open call is never a success; so an OpenAI-style success has, for every index, all
      the bytes the stream brought, in the calls that it returns. */
  lemma SuccessReturnsEveryByte(lines: seq<Line>, broken: bool, i: Index)
    requires StreamAttempt(OpenAIishMode, lines, broken).error.None?
    ensures var d := ReadAll(OpenAIishMode, Payloads(lines)).decoding;
            && StreamAttempt(OpenAIishMode, lines, broken).result.calls == Calls(d.emitted)
            && EmittedArguments(d.emitted, i) == OpenAI.FragmentBytes(OpenAI.AllFragments(Chunks(Payloads(lines))), i)
  {
    ReadingDecodes(Payloads(lines));
    OpenAI.BytesAreConserved(Chunks(Payloads(lines)), i);
  }

  /** The assistant texts of the payloads, one after the other. */
  function Texts(mode: Mode, payloads: seq<Payload>): seq<string> {
    seq(|payloads|, k requires 0 <= k < |payloads| => TextOf(mode, payloads[k]))
  }

  lemma {:induction false} TextIsJoined(mode: Mode, payloads: seq<Payload>)
    ensures ReadAll(mode, payloads).text == Join(Texts(mode, payloads), "")
  {
    if payloads != [] {
      var n := |payloads| - 1;
      TextIsJoined(mode, payloads[..n]);
      TextsGrow(mode, payloads);
      JoinMore(Texts(mode, payloads[..n]), TextOf(mode, payloads[n]));
    }
  }

  lemma TextsGrow(mode: Mode, payloads: seq<Payload>)
    requires payloads != []
    ensures var n := |payloads| - 1; Texts(mode, payloads) == Texts(mode, payloads[..n]) + [TextOf(mode, payloads[n])]
  {
  }

  lemma JoinMore(parts: seq<string>, last: string)
    ensures Join(parts + [last], "") == Join(parts, "") + last
  {
    if parts != [] {
      JoinConcat(parts, [last], "");
    }
  }

  /** What the payloads show to whoever follows the stream, text and argument bytes, one after the other. */
  function Shown(mode: Mode, payloads: seq<Payload>): seq<string> {
    seq(|payloads|, k requires 0 <= k < |payloads| => TextOf(mode, payloads[k]) + ShownFragment(mode, payloads[k]))
  }

  lemma ShownGrow(mode: Mode, payloads: seq<Payload>)
    requires payloads != []
    ensures var n := |payloads| - 1;
            Shown(mode, payloads)
            == Shown(mode, payloads[..n]) + [TextOf(mode, payloads[n]) + ShownFragment(mode, payloads[n])]
  {
  }

  /** The tokens on the channel spell that. */
  lemma {:induction false} TokensSpellTheStream(mode: Mode, payloads: seq<Payload>)
    ensures Join(ReadAll(mode, payloads).tokens, "") == Join(Shown(mode, payloads), "")
  {
    if payloads != [] {
      var n := |payloads| - 1;
      TokensSpellTheStream(mode, payloads[..n]);
      ShownGrow(mode, payloads);
      JoinMore(Shown(mode, payloads[..n]), TextOf(mode, payloads[n]) + ShownFragment(mode, payloads[n]));
      PayloadIsSpelled(mode, ReadAll(mode, payloads[..n]), payloads[n]);
    }
  }

  lemma PayloadIsSpelled(mode: Mode, r: Reading, p: Payload)
    ensures Join(Extend(mode, r, p).tokens, "") == Join(r.tokens, "") + (TextOf(mode, p) + ShownFragment(mode, p))
  {
    TokensSpell(r.tokens, TextOf(mode, p), ShownFragment(mode, p));
  }

  lemma TokensSpell(before: seq<string>, text: string, fragment: string)
    ensures Join(before + ((if text != "" then [text] else []) + (if fragment != "" then [fragment] else [])), "")
            == Join(before, "") + (text + fragment)
  {
    var more := before + if text != "" then [text] else [];
    if text != "" {
      JoinMore(before, text);
    } else {
      assert before + [] == before;
    }
    if fragment != "" {
      JoinMore(more, fragment);
      Regroup(before, if text != "" then [text] else [], [fragment]);
      Regroup(Join(before, ""), text, fragment);
    } else {
      assert more + [] == more;
      Regroup(before, if text != "" then [text] else [], []);
    }
  }

  lemma NoCallsNoneEmitted(emitted: Emission)
    ensures Calls(emitted) == [] <==> emitted == []
  {
    assert |Calls(emitted)| == |emitted|;
  }

  /** An OpenAI-style stream succeeds exactly when it is not broken, some chunk with a finish reason other than "length"
      comes at or after every fragment, and there is a text that is not blank or a fragment; its text is that of the
      chunks in order. */
  lemma StreamSucceedsExactlyWhen(lines: seq<Line>, broken: bool)
    ensures var payloads := Payloads(lines);
            var chunks, text := Chunks(payloads), Join(Texts(OpenAIishMode, payloads), "");
            var attempt := StreamAttempt(OpenAIishMode, lines, broken);
            && (attempt.error.None? <==>
                  && !broken && !OpenAI.Unfinished(chunks)
                  && (TrimSpace(text) != "" || exists k | 0 <= k < |chunks| :: OpenAI.Fragments(chunks[k]) != []))
            && (attempt.error == Some(NoUsableCompletion) <==>
                  && !broken && TrimSpace(text) == ""
                  && forall k | 0 <= k < |chunks| :: OpenAI.Fragments(chunks[k]) == [])
            && attempt.result.text == text
  {
    var payloads := Payloads(lines);
    ReadingDecodes(payloads);
    TextIsJoined(OpenAIishMode, payloads);
    OpenAI.OpenExactlyWhenUnfinished(Chunks(payloads));
    OpenAI.UnfinishedOrFinished(Chunks(payloads));
    NoCallsNoneEmitted(OpenAI.Decode(Chunks(payloads)).emitted);
  }

  /** So it is read to its end, whether or not there was anything in it, when it is not broken and nothing is
      unfinished. */
  lemma StreamReadToItsEnd(lines: seq<Line>, broken: bool)
    ensures StreamAttempt(OpenAIishMode, lines, broken).error in {None, Some(NoUsableCompletion)}
            <==> !broken && !OpenAI.Unfinished(Chunks(Payloads(lines)))
  {
    ReadingDecodes(Payloads(lines));
    OpenAI.OpenExactlyWhenUnfinished(Chunks(Payloads(lines)));
  }

  /** A call cut off by its length is returned as a success only if a later chunk ends the calls. */
  lemma CutSucceedsOnlyIfEnded(lines: seq<Line>, broken: bool, k: nat)
    requires StreamAttempt(OpenAIishMode, lines, broken).error.None? && OpenAI.CutAt(Chunks(Payloads(lines)), k)
    ensures var chunks := Chunks(Payloads(lines)); exists m | k < m < |chunks| :: OpenAI.Ends(chunks[m])
  {
    StreamSucceedsExactlyWhen(lines, broken);
    OpenAI.CutNeedsAnEnd(Chunks(Payloads(lines)), k);
  }

  /** And then it is: a fragment whose chunk is cut, and a chunk that ends the calls. */
  lemma CutSucceedsWhenEnded(cut: Payload, stop: Payload, f: OpenAI.Fragment)
    requires OpenAI.Fragments(cut.chunk) == [f] && OpenAI.FinishOf(cut.chunk) == "length"
    requires OpenAI.Fragments(stop.chunk) == [] && OpenAI.Ends(stop.chunk)
    ensures StreamAttempt(OpenAIishMode, [Data(cut), Data(stop)], false).error.None?
    ensures OpenAI.CutAt(Chunks(Payloads([Data(cut), Data(stop)])), 0)
  {
    var lines := [Data(cut), Data(stop)];
    assert lines[1..] == [Data(stop)] && [Data(stop)][1..] == [];
    assert Payloads([Data(stop)]) == [stop];
    assert Payloads(lines) == [cut] + Payloads([Data(stop)]);
    var chunks := Chunks(Payloads(lines));
    assert chunks == [cut.chunk, stop.chunk];
    assert OpenAI.Fragments(chunks[0]) != [] && OpenAI.Ends(chunks[1]);
    StreamSucceedsExactlyWhen(lines, false);
  }

  /** An Anthropic stream succeeds exactly when it is not broken, no tool start is left without its stop, and there is a
      text that is not blank or a started call that was stopped; its text is that of the events in order. */
  lemma AnthropicStreamSucceedsExactlyWhen(lines: seq<Line>, broken: bool)
    ensures var payloads := Payloads(lines);
            var events, text := Events(payloads), Join(Texts(AnthropicMode, payloads), "");
            var attempt := StreamAttempt(AnthropicMode, lines, broken);
            && (attempt.error.None? <==>
                  && !broken && (forall i: Index :: !Anthropic.Started(events, |events|, i))
                  && (TrimSpace(text) != "" || Anthropic.SomeStopped(events)))
            && attempt.result.text == text
  {
    var payloads := Payloads(lines);
    ReadingDecodesEvents(payloads);
    TextIsJoined(AnthropicMode, payloads);
    Anthropic.NothingOpenExactlyWhenStopped(Events(payloads));
    NoCallsNoneEmitted(Anthropic.Decode(Events(payloads)).emitted);
  }

  lemma SomeCallsInOrder(calls: Accumulators)
    requires calls != map[]
    ensures Calls(InOrder(calls)) != []
  {
    assert |Calls(InOrder(calls))| == |Order(calls.Keys)| == |calls.Keys|;
    var i :| i in calls;
    assert i in calls.Keys;
  }

  /** The stream and the non-streaming answer with the given content return the same calls. */
  ghost predicate SameCalls(lines: seq<Line>, content: string, calls: Accumulators) {
    var stream := StreamAttempt(OpenAIishMode, lines, false);
    var answer := ParseResponse(OpenAIishMode, Body(Some([Message(content, Calls(InOrder(calls)))]), None));
    stream.error.None? && answer.error.None? && stream.result.calls == answer.result.calls == Calls(InOrder(calls))
  }

  lemma AnswerReturnsCalls(content: string, calls: seq<ToolCall>)
    requires calls != []
    ensures ParseResponse(OpenAIishMode, Body(Some([Message(content, calls)]), None))
            == Attempt(Result(TrimSpace(content), calls), None)
  {
  }

  lemma CompleteStreamReturnsCalls(lines: seq<Line>, calls: Emission)
    requires calls != [] && ReadAll(OpenAIishMode, Payloads(lines)).decoding == Decoding(map[], calls)
    ensures StreamAttempt(OpenAIishMode, lines, false)
            == Attempt(Result(ReadAll(OpenAIishMode, Payloads(lines)).text, Calls(calls)), None)
  {
    assert |Calls(calls)| == |calls|;
  }

  /** Streaming and non-streaming agree: a stream whose chunks spell some calls, in whatever fragments,
      succeeds with the calls that a non-streaming answer listing them in index order returns. */
  lemma StreamReturnsSameCalls(lines: seq<Line>, chunks: seq<OpenAI.Chunk>, reports: seq<OpenAI.Chunk>,
                               calls: Accumulators, content: string)
    requires Chunks(Payloads(lines)) == chunks + reports
    requires OpenAI.EndsOnce(chunks) && OpenAI.Spells(OpenAI.AllFragments(chunks), calls) && calls != map[]
    requires forall k | 0 <= k < |reports| :: OpenAI.FinishOf(reports[k]) == "" && OpenAI.Fragments(reports[k]) == []
    ensures SameCalls(lines, content, calls)
  {
    OpenAI.FragmentationDoesNotMatter(chunks, reports, calls);
    ReadingDecodes(Payloads(lines));
    SomeCallsInOrder(calls);
    CompleteStreamReturnsCalls(lines, InOrder(calls));
    AnswerReturnsCalls(content, Calls(InOrder(calls)));
  }

  /** They are the calls that the chunks spell, whole, by ascending index. */
  lemma StreamReturnsCallsInOrder(
    lines: seq<Line>, chunks: seq<OpenAI.Chunk>, reports: seq<OpenAI.Chunk>, calls: Accumulators)
    returns (indexes: seq<Index>)
    requires Chunks(Payloads(lines)) == chunks + reports
    requires OpenAI.EndsOnce(chunks) && OpenAI.Spells(OpenAI.AllFragments(chunks), calls) && calls != map[]
    requires forall k | 0 <= k < |reports| :: OpenAI.FinishOf(reports[k]) == "" && OpenAI.Fragments(reports[k]) == []
    ensures var result := StreamAttempt(OpenAIishMode, lines, false).result;
            && Lists(indexes, calls.Keys) && |result.calls| == |indexes|
            && forall k | 0 <= k < |indexes| :: indexes[k] in calls && result.calls[k] == calls[indexes[k]]
  {
    OpenAI.FragmentationDoesNotMatter(chunks, reports, calls);
    ReadingDecodes(Payloads(lines));
    indexes := InOrderListsCalls(calls);
  }

  /** Nothing after the end mark counts, and neither do lines that are not data. */
  lemma EndMarkEndsTheStream(mode: Mode, before: seq<Line>, later: seq<Line>, broken: bool)
    requires forall k | 0 <= k < |before| :: !before[k].Done?
    ensures StreamAttempt(mode, before + [Done] + later, broken) == StreamAttempt(mode, before, broken)
    ensures StreamAttempt(mode, before + [Skipped] + later, broken) == StreamAttempt(mode, before + later, broken)
  {
    PayloadsBefore(before, [Done] + later);
    Regroup(before, [Done], later);
    assert Payloads([Done] + later) == [];
    assert Payloads(before) + [] == Payloads(before);
    SkippedDoesNotCount(before, later);
  }

  lemma SkippedDoesNotCount(before: seq<Line>, later: seq<Line>)
    requires forall k | 0 <= k < |before| :: !before[k].Done?
    ensures Payloads(before + [Skipped] + later) == Payloads(before + later)
  {
    PayloadsBefore(before, [Skipped] + later);
    PayloadsBefore(before, later);
    Regroup(before, [Skipped], later);
    assert ([Skipped] + later)[1..] == later;
    assert [] + Payloads(later) == Payloads(later);
  }

  lemma {:induction false} PayloadsBefore(before: seq<Line>, later: seq<Line>)
    requires forall k | 0 <= k < |before| :: !before[k].Done?
    ensures Payloads(before + later) == Payloads(before) + Payloads(later)
  {
    if before == [] {
      assert before + later == later;
    } else {
      assert (before + later)[1..] == before[1..] + later;
      PayloadsBefore(before[1..], later);
    }
  }

  /** The text of an Anthropic answer is that of its text blocks, without outer white space and blank ones, in order. */
  lemma {:induction false} TextBlocksAreTexts(blocks: seq<Block>, texts: seq<string>)
    requires |blocks| == |texts| && forall k | 0 <= k < |blocks| ::
               blocks[k].TextBlock? && TrimSpace(blocks[k].text) == texts[k] && texts[k] != ""
    ensures BlockTexts(blocks) == texts && BlockCalls(blocks) == []
  {
    if blocks != [] {
      var n := |blocks| - 1;
      TextBlocksAreTexts(blocks[..n], texts[..n]);
      Snoc(texts);
    }
  }

  lemma {:induction false} SomeText(blocks: seq<Block>)
    ensures BlockTexts(blocks) != []
            <==> exists k | 0 <= k < |blocks| :: blocks[k].TextBlock? && TrimSpace(blocks[k].text) != ""
  {
    if blocks != [] {
      var n := |blocks| - 1;
      SomeText(blocks[..n]);
      assert forall k | 0 <= k < n :: blocks[..n][k] == blocks[k];
    }
  }

  lemma {:induction false} SomeCall(blocks: seq<Block>)
    ensures BlockCalls(blocks) != [] <==> exists k | 0 <= k < |blocks| :: blocks[k].ToolUse?
  {
    if blocks != [] {
      var n := |blocks| - 1;
      SomeCall(blocks[..n]);
      assert forall k | 0 <= k < n :: blocks[..n][k] == blocks[k];
    }
  }

  lemma {:induction false} TextsAreNotEmpty(blocks: seq<Block>)
    ensures forall k | 0 <= k < |BlockTexts(blocks)| :: BlockTexts(blocks)[k] != ""
  {
    if blocks != [] {
      TextsAreNotEmpty(blocks[..|blocks| - 1]);
    }
  }

  lemma JoinedTextsAreText(texts: seq<string>)
    requires forall k | 0 <= k < |texts| :: texts[k] != ""
    ensures Join(texts, "\n") != "" <==> texts != []
  {
  }

  /** An Anthropic answer succeeds exactly when it has a text block that is not blank, or a tool use; its text is that
      of those blocks, one to a line. */
  lemma AnthropicAnswerSucceedsExactlyWhen(body: Body)
    ensures ParseResponse(AnthropicMode, body).error.None? <==>
              body.blocks.Some? && exists k | 0 <= k < |body.blocks.value| ::
                var b := body.blocks.value[k];
                b.ToolUse? || (b.TextBlock? && TrimSpace(b.text) != "")
    ensures var attempt := ParseResponse(AnthropicMode, body);
            if attempt.error.None? then
              attempt.result == Result(Join(BlockTexts(body.blocks.value), "\n"), BlockCalls(body.blocks.value))
            else attempt == Attempt(NoResult, Some(OtherFailure))
  {
    if body.blocks.Some? {
      SomeText(body.blocks.value);
      SomeCall(body.blocks.value);
      TextsAreNotEmpty(body.blocks.value);
      JoinedTextsAreText(BlockTexts(body.blocks.value));
    }
  }

  /** A blank text or a block of another kind in between adds nothing to it, and a tool use no text. */
  lemma {:induction false} OtherBlocksAddNoText(a: seq<Block>, b: Block, c: seq<Block>)
    requires b.TextBlock? ==> TrimSpace(b.text) == ""
    ensures BlockTexts(a + [b] + c) == BlockTexts(a + c)
    ensures !b.ToolUse? ==> BlockCalls(a + [b] + c) == BlockCalls(a + c)
  {
    if c == [] {
      assert a + [b] + c == a + [b] && (a + [b])[..|a|] == a && a + c == a;
    } else {
      var n := |c| - 1;
      OtherBlocksAddNoText(a, b, c[..n]);
      OneBlockMore(a + [b] + c[..n], c[n]);
      OneBlockMore(a + c[..n], c[n]);
      Snoc(c);
      Regroup(a + [b], c[..n], [c[n]]);
      Regroup(a, c[..n], [c[n]]);
    }
  }

  lemma OneBlockMore(blocks: seq<Block>, b: Block)
    ensures BlockTexts(blocks + [b])
            == BlockTexts(blocks) + (if b.TextBlock? && TrimSpace(b.text) != "" then [TrimSpace(b.text)] else [])
    ensures BlockCalls(blocks + [b])
            == BlockCalls(blocks) + (if b.ToolUse? then [ToolCall(b.id, "function", b.name, b.input)] else [])
  {
    assert (blocks + [b])[..|blocks|] == blocks;
  }

  /** The answer that lists the same tool uses, in this order. */
  function ToolUses(calls: seq<ToolCall>): seq<Block> {
    seq(|calls|, k requires 0 <= k < |calls| => ToolUse(calls[k].id, calls[k].name, calls[k].arguments))
  }

  lemma {:induction false} ToolUsesAreCalls(calls: seq<ToolCall>)
    requires forall k | 0 <= k < |calls| :: calls[k].kind == "function"
    ensures BlockCalls(ToolUses(calls)) == calls && BlockTexts(ToolUses(calls)) == []
  {
    if calls != [] {
      var n := |calls| - 1;
      ToolUsesAreCalls(calls[..n]);
      assert ToolUses(calls)[..n] == ToolUses(calls[..n]);
    }
  }

  function Events(payloads: seq<Payload>): seq<Anthropic.Event> {
    seq(|payloads|, k requires 0 <= k < |payloads| => payloads[k].event)
  }

  lemma {:induction false} ReadingDecodesEvents(payloads: seq<Payload>)
    ensures ReadAll(AnthropicMode, payloads).decoding == Anthropic.Decode(Events(payloads))
  {
    if payloads != [] {
      var n := |payloads| - 1;
      ReadingDecodesEvents(payloads[..n]);
      Anthropic.DecodeGrow(Events(payloads[..n]), payloads[n].event);
      EventsGrow(payloads);
    }
  }

  lemma EventsGrow(payloads: seq<Payload>)
    requires payloads != []
    ensures Events(payloads) == Events(payloads[..|payloads| - 1]) + [payloads[|payloads| - 1].event]
  {
  }

  /** These are the calls at those indexes, in that order. */
  predicate CallsAt(found: seq<ToolCall>, calls: Accumulators, indexes: seq<Index>) {
    |found| == |indexes| && forall k | 0 <= k < |indexes| :: indexes[k] in calls && found[k] == calls[indexes[k]]
  }

  lemma PickedAreThere(calls: Accumulators, indexes: seq<Index>)
    requires forall i <- indexes :: i in calls
    ensures CallsAt(Calls(Pick(calls, indexes)), calls, indexes)
  {
    forall k | 0 <= k < |indexes| ensures indexes[k] in calls {
      assert indexes[k] in indexes;
    }
  }

  lemma PickedAreFunctions(events: seq<Anthropic.Event>, calls: Accumulators)
    requires Anthropic.Carries(events, calls)
    ensures var order := Anthropic.StopOrder(events, calls.Keys);
            && (forall i <- order :: i in calls)
            && forall k | 0 <= k < |order| :: Calls(Pick(calls, order))[k].kind == "function"
  {
    var order := Anthropic.StopOrder(events, calls.Keys);
    Anthropic.StopOrderIsAmongTools(events, calls.Keys);
    forall k | 0 <= k < |order| ensures Calls(Pick(calls, order))[k].kind == "function" {
      assert order[k] in order && Anthropic.Block(Anthropic.Of(events, order[k]), order[k], calls[order[k]]);
    }
  }

  lemma AnswerReturnsToolUses(calls: seq<ToolCall>)
    requires calls != [] && forall k | 0 <= k < |calls| :: calls[k].kind == "function"
    ensures ParseResponse(AnthropicMode, Body(None, Some(ToolUses(calls)))) == Attempt(Result("", calls), None)
  {
    ToolUsesAreCalls(calls);
  }

  /** The calls that the Anthropic stream returns, in the order of their stops, are those of the non-streaming
      answer whose tool uses come in that order and whose inputs read as the streamed arguments do. */
  lemma AnthropicStreamReturnsSameCalls(lines: seq<Line>, calls: Accumulators)
    requires Anthropic.Carries(Events(Payloads(lines)), calls)
    requires Anthropic.StopOrder(Events(Payloads(lines)), calls.Keys) != []
    ensures var stream := StreamAttempt(AnthropicMode, lines, false);
            && stream.error.None? && stream.result.calls != []
            && CallsAt(stream.result.calls, calls, Anthropic.StopOrder(Events(Payloads(lines)), calls.Keys))
            && ParseResponse(AnthropicMode, Body(None, Some(ToolUses(stream.result.calls))))
               == Attempt(Result("", stream.result.calls), None)
  {
    var events := Events(Payloads(lines));
    Anthropic.FragmentationDoesNotMatter(events, calls);
    ReadingDecodesEvents(Payloads(lines));
    PickedAreFunctions(events, calls);
    PickedAreThere(calls, Anthropic.StopOrder(events, calls.Keys));
    AnswerReturnsToolUses(Calls(Pick(calls, Anthropic.StopOrder(events, calls.Keys))));
  }

  /** ParseResponse of either adapter, on a decoded body. */
  method ParseAnswer(mode: Mode, body: Body) returns (attempt: Attempt)
    ensures attempt == ParseResponse(mode, body)
  {
    match mode {
      case OpenAIishMode =>
        if body.choices.None? || |body.choices.value| == 0 {
          return Attempt(NoResult, Some(OtherFailure));
        }
        var message := body.choices.value[0];
        var content := TrimSpace(message.content);
        if content == "" && |message.calls| == 0 {
          return Attempt(NoResult, Some(OtherFailure));
        }
        return Attempt(Result(content, message.calls), None);
      case AnthropicMode =>
        if body.blocks.None? {
          return Attempt(NoResult, Some(OtherFailure));
        }
        var texts, calls := ParseBlocks(body.blocks.value);
        var text := Join(texts, "\n");
        if text == "" && |calls| == 0 {
          return Attempt(NoResult, Some(OtherFailure));
        }
        return Attempt(Result(text, calls), None);
    }
  }

  /** The loop over the content blocks. */
  method ParseBlocks(blocks: seq<Block>) returns (texts: seq<string>, calls: seq<ToolCall>)
    ensures texts == BlockTexts(blocks) && calls == BlockCalls(blocks)
  {
    texts, calls := [], [];
    for n := 0 to |blocks|
      invariant texts == BlockTexts(blocks[..n]) && calls == BlockCalls(blocks[..n])
    {
      assert blocks[..n + 1][..n] == blocks[..n];
      match blocks[n] {
        case TextBlock(text) =>
          if TrimSpace(text) != "" {
            texts := texts + [TrimSpace(text)];
          }
        case ToolUse(id, name, input) => calls := calls + [ToolCall(id, "function", name, input)];
        case OtherBlock =>
      }
    }
    assert blocks[..|blocks|] == blocks;
  }

  /** doCall at one endpoint; it streams when the caller has a token channel. */
  method DoCall(mode: Mode, tools: bool, response: Response, tokens: TokenChannel?) returns (attempt: Attempt)
    requires tokens != null ==> tokens.closes == 0
    modifies Objects(tokens)
    ensures attempt == AttemptAt(mode, tools, tokens != null, response)
    ensures tokens != null ==>
              tokens.closes == 0 && tokens.sent == old(tokens.sent) + TokensAt(mode, true, response)
  {
    match response {
      case Unreachable => return Attempt(NoResult, Some(TransportFailure));
      case Rejection(status, readable) =>
        if !readable {
          return Attempt(NoResult, Some(OtherFailure));
        }
        if tools && (status == 400 || status == 422) {
          return Attempt(NoResult, Some(RejectedWithTools));
        }
        return Attempt(NoResult, Some(OtherFailure));
      case Accepted(lines, broken, readable, body) =>
        if tokens != null {
          attempt := ReadStream(mode, lines, broken, tokens);
          return;
        }
        if !readable {
          return Attempt(NoResult, Some(OtherFailure));
        }
        attempt := ParseAnswer(mode, body);
    }
  }
}
