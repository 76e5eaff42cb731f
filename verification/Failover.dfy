/** Failover over endpoint candidates (roots/llm/client.go, roots/llm/endpoint.go). */
module Failover {
  import opened Attempts
  import opened Options
  import opened ProviderCall
  import opened Text
  import opened ToolCalls
  import OpenAI = OpenAIDecoding
  import Anthropic = AnthropicDecoding

  /** What contacting one candidate does: its outcome, and the tokens it streams on the way. */
  datatype Candidate = Candidate(attempt: Attempt, tokens: seq<string>)

  /** What contacting the candidates does when they respond like this. */
  ghost function Candidates(mode: Mode, tools: bool, streaming: bool, responses: seq<Response>): seq<Candidate> {
    seq(|responses|, k requires 0 <= k < |responses| =>
      Candidate(AttemptAt(mode, tools, streaming, responses[k]), TokensAt(mode, streaming, responses[k])))
  }

  /** No further candidate is contacted after this attempt. */
  predicate Stops(a: Attempt) {
    a.error.None? || a.error == Some(RejectedWithTools) || a.error == Some(NoUsableCompletion)
  }

  /** preferAttemptError. */
  function Prefer(current: Option<Error>, candidate: Option<Error>): Option<Error> {
    if current.None? then candidate
    else if candidate.None? then current
    else if current.value.TransportFailure? && !candidate.value.TransportFailure? then candidate
    else current
  }

  /** Candidate k is the first that stops the loop. */
  ghost predicate FirstStop(candidates: seq<Candidate>, k: nat) {
    k < |candidates| && Stops(candidates[k].attempt) && forall j | 0 <= j < k :: !Stops(candidates[j].attempt)
  }

  ghost predicate Transport(c: Candidate) {
    c.attempt.error == Some(TransportFailure)
  }

  /** What the caller may expect when all attempts failed: the first failure that is not a transport failure
      if there is one, and the first failure otherwise. */
  ghost predicate ReportsBest(candidates: seq<Candidate>, error: Option<Error>) {
    if candidates == [] then error.None?
    else if forall j | 0 <= j < |candidates| :: Transport(candidates[j]) then error == candidates[0].attempt.error
    else
      exists k | 0 <= k < |candidates| ::
        && error == candidates[k].attempt.error && !Transport(candidates[k])
        && forall j | 0 <= j < k :: Transport(candidates[j])
  }

  /** What the loop owes its caller after contacting n candidates: the first attempt that stops it decides, and
      it is the last one contacted; if none does, all are contacted and the best error is reported. */
  ghost predicate Decided(candidates: seq<Candidate>, n: nat, result: Result, error: Option<Error>) {
    if exists k: nat :: FirstStop(candidates, k) then
      && 0 < n && FirstStop(candidates, n - 1) && error == candidates[n - 1].attempt.error
      && result == (if error == Some(RejectedWithTools) then NoResult else candidates[n - 1].attempt.result)
    else
      n == |candidates| && result == NoResult && ReportsBest(candidates, error)
  }

  /** What the deciding attempt hands to the caller. */
  function ResultOf(a: Attempt): Result {
    if a.error == Some(RejectedWithTools) then NoResult else a.result
  }

  lemma StopDecides(candidates: seq<Candidate>, k: nat)
    requires FirstStop(candidates, k)
    ensures Decided(candidates, k + 1, ResultOf(candidates[k].attempt), candidates[k].attempt.error)
  {
  }

  lemma FailuresDecide(candidates: seq<Candidate>, error: Option<Error>)
    requires ReportsBest(candidates, error) && forall j | 0 <= j < |candidates| :: !Stops(candidates[j].attempt)
    ensures Decided(candidates, |candidates|, NoResult, error)
  {
  }

  lemma PreferKeepsBest(candidates: seq<Candidate>, error: Option<Error>, c: Candidate)
    requires ReportsBest(candidates, error) && c.attempt.error.Some?
    requires forall j | 0 <= j < |candidates| :: candidates[j].attempt.error.Some?
    ensures ReportsBest(candidates + [c], Prefer(error, c.attempt.error))
  {
    var all, n := candidates + [c], |candidates|;
    assert all[n] == c && forall j | 0 <= j < n :: all[j] == candidates[j];
    if candidates == [] {
    } else if forall j | 0 <= j < n :: Transport(candidates[j]) {
      assert Transport(all[0]);
    } else {
      var k :| 0 <= k < n && error == candidates[k].attempt.error && !Transport(candidates[k])
               && forall j | 0 <= j < k :: Transport(candidates[j]);
      assert !Transport(all[k]) && all[k].attempt.error == error;
    }
  }

  /** The tokens of all these candidates, in order. */
  function AllTokens(candidates: seq<Candidate>): seq<string> {
    if candidates == [] then [] else AllTokens(candidates[..|candidates| - 1]) + candidates[|candidates| - 1].tokens
  }

  lemma {:induction false} NoTokens(candidates: seq<Candidate>)
    ensures AllTokens(candidates) == [] <==> forall j | 0 <= j < |candidates| :: candidates[j].tokens == []
  {
    if candidates != [] {
      var n := |candidates| - 1;
      NoTokens(candidates[..n]);
      assert AllTokens(candidates) == [] <==> AllTokens(candidates[..n]) == [] && candidates[n].tokens == [];
      assert forall j | 0 <= j < n :: candidates[..n][j] == candidates[j];
    }
  }

  /** A caller that follows the channel sees just the tokens of the attempt that decided exactly when no
      attempt before it had streamed anything: tokens of an abandoned attempt are not taken back. */
  lemma FollowerSeesDeciderOnly(candidates: seq<Candidate>, k: nat)
    requires FirstStop(candidates, k)
    ensures AllTokens(candidates[..k + 1]) == candidates[k].tokens
            <==> forall j | 0 <= j < k :: candidates[j].tokens == []
  {
    var earlier := candidates[..k];
    assert candidates[..k + 1][..k] == earlier;
    NoTokens(earlier);
    assert |AllTokens(candidates[..k + 1])| == |AllTokens(earlier)| + |candidates[k].tokens|;
    assert forall j | 0 <= j < k :: earlier[j] == candidates[j];
  }

  lemma AllTokensGrow(candidates: seq<Candidate>, k: nat)
    requires k < |candidates|
    ensures AllTokens(candidates[..k + 1]) == AllTokens(candidates[..k]) + candidates[k].tokens
  {
    assert candidates[..k + 1][..k] == candidates[..k];
  }

  lemma FailureIsPreferred(candidates: seq<Candidate>, k: nat, error: Option<Error>)
    requires k < |candidates| && (forall j | 0 <= j <= k :: !Stops(candidates[j].attempt))
    requires ReportsBest(candidates[..k], error)
    ensures ReportsBest(candidates[..k + 1], Prefer(error, candidates[k].attempt.error))
  {
    PreferKeepsBest(candidates[..k], error, candidates[k]);
    assert candidates[..k + 1] == candidates[..k] + [candidates[k]];
  }

  /** The candidate loop of callInternal. */
  method TryCandidates(mode: Mode, tools: bool, responses: seq<Response>, channel: TokenChannel?)
    returns (result: Result, error: Option<Error>, contacted: nat)
    requires channel != null ==> channel.closes == 0 && channel.sent == []
    modifies Objects(channel)
    ensures var candidates := Candidates(mode, tools, channel != null, responses);
            && contacted <= |candidates| && Decided(candidates, contacted, result, error)
            && (channel != null ==> channel.closes == 0 && channel.sent == AllTokens(candidates[..contacted]))
  {
    ghost var candidates := Candidates(mode, tools, channel != null, responses);
    result, error, contacted := NoResult, None, 0;
    while contacted < |responses|
      invariant contacted <= |responses|
      invariant channel != null ==> channel.closes == 0 && channel.sent == AllTokens(candidates[..contacted])
      invariant forall j | 0 <= j < contacted :: !Stops(candidates[j].attempt)
      invariant ReportsBest(candidates[..contacted], error)
    {
      AllTokensGrow(candidates, contacted);
      var attempt := DoCall(mode, tools, responses[contacted], channel);
      if Stops(attempt) {
        StopDecides(candidates, contacted);
        return ResultOf(attempt), attempt.error, contacted + 1;
      }
      FailureIsPreferred(candidates, contacted, error);
      error := Prefer(error, attempt.error);
      contacted := contacted + 1;
    }
    assert candidates[..contacted] == candidates;
    FailuresDecide(candidates, error);
  }

  /** callInternal; `blocked` stands for the configuration errors that it reports before it contacts anyone. A channel
      is closed once on every path, and has the tokens of everyone contacted. */
  method CallInternal(mode: Mode, tools: bool, blocked: Option<Error>, responses: seq<Response>, channel: TokenChannel?)
    returns (result: Result, error: Option<Error>, contacted: nat)
    requires channel != null ==> channel.closes == 0 && channel.sent == []
    modifies Objects(channel)
    ensures var candidates := Candidates(mode, tools, channel != null, responses);
            && contacted <= |candidates|
            && (channel != null ==> channel.closes == 1 && channel.sent == AllTokens(candidates[..contacted]))
            && (blocked.Some? ==> contacted == 0 && error == blocked && result == NoResult)
            && (blocked.None? && responses == [] ==> error == Some(OtherFailure) && result == NoResult)
            && (blocked.None? && responses != [] ==> Decided(candidates, contacted, result, error))
  {
    if blocked.Some? {
      result, error, contacted := NoResult, blocked, 0;
    } else {
      result, error, contacted := TryCandidates(mode, tools, responses, channel);
      if |responses| == 0 {
        error := Some(OtherFailure);
      }
    }
    if channel != null {
      channel.Close();
    }
  }

  /** Which responses end the failover: a refusal with a 400 or 422 of a request with tools; a stream that was read to
      its end with nothing left open, whether or not there was anything in it; and an answer with text or calls. */
  lemma StopsExactlyWhen(tools: bool, streaming: bool, response: Response)
    ensures Stops(AttemptAt(OpenAIishMode, tools, streaming, response)) <==>
              match response
              case Unreachable => false
              case Rejection(status, readable) => readable && tools && (status == 400 || status == 422)
              case Accepted(lines, broken, readable, body) =>
                if streaming then !broken && !OpenAI.Unfinished(Chunks(Payloads(lines)))
                else
                  && readable && body.choices.Some? && body.choices.value != []
                  && (TrimSpace(body.choices.value[0].content) != "" || body.choices.value[0].calls != [])
  {
    if response.Accepted? {
      StreamReadToItsEnd(response.lines, response.broken);
    }
  }

  /** When no response ends the failover, the caller is told of a transport failure exactly when none was reached. */
  lemma FailureNamesTheCause(
    mode: Mode, tools: bool, streaming: bool, responses: seq<Response>, n: nat, result: Result, error: Option<Error>)
    requires responses != [] && Decided(Candidates(mode, tools, streaming, responses), n, result, error)
    requires forall k | 0 <= k < |responses| :: !Stops(AttemptAt(mode, tools, streaming, responses[k]))
    ensures n == |responses| && result == NoResult
    ensures error == Some(if forall k | 0 <= k < |responses| :: responses[k].Unreachable? then TransportFailure
                          else OtherFailure)
  {
    var candidates := Candidates(mode, tools, streaming, responses);
    forall k | 0 <= k < |responses|
      ensures !Stops(candidates[k].attempt) && (Transport(candidates[k]) <==> responses[k].Unreachable?)
      ensures !Transport(candidates[k]) ==> candidates[k].attempt.error == Some(OtherFailure)
    {
      OnlyUnreachedIsTransport(mode, tools, streaming, responses[k]);
      assert !Stops(AttemptAt(mode, tools, streaming, responses[k]));
    }
  }

  lemma OnlyUnreachedIsTransport(mode: Mode, tools: bool, streaming: bool, response: Response)
    ensures AttemptAt(mode, tools, streaming, response).error == Some(TransportFailure) <==> response.Unreachable?
  {
  }

  // ---------------------------------------------------------------------------------------------
  // A call from end to end
  // ---------------------------------------------------------------------------------------------

  lemma {:induction false} SomeStopIsFirst(candidates: seq<Candidate>, k: nat) returns (first: nat)
    requires k < |candidates| && Stops(candidates[k].attempt)
    ensures FirstStop(candidates, first)
  {
    if j: nat :| j < k && Stops(candidates[j].attempt) {
      first := SomeStopIsFirst(candidates, j);
    } else {
      first := k;
    }
  }

  /** The attempt that decides a successful call is the last, and succeeded. */
  lemma SuccessIsDecided(candidates: seq<Candidate>, contacted: nat, result: Result)
    requires candidates != [] && Decided(candidates, contacted, result, None)
    ensures 0 < contacted <= |candidates| && candidates[contacted - 1].attempt == Attempt(result, None)
    ensures AllTokens(candidates[..contacted])
            == AllTokens(candidates[..contacted - 1]) + candidates[contacted - 1].tokens
  {
    if forall k: nat :: !FirstStop(candidates, k) {
      if k: nat :| k < |candidates| && Stops(candidates[k].attempt) {
        var first := SomeStopIsFirst(candidates, k);
      }
    }
    assert exists k: nat :: FirstStop(candidates, k);
    AllTokensGrow(candidates, contacted - 1);
  }

  /** A successful streamed call, whatever the endpoints before answered: the text is the whole text of the stream that
      decided, the calls have all its bytes for every index, and the channel has its tokens after the others'. */
  lemma CallReturnsEveryByte(tools: bool, responses: seq<Response>, contacted: nat, result: Result, i: Index)
    ensures var candidates := Candidates(OpenAIishMode, tools, true, responses);
            responses != [] && Decided(candidates, contacted, result, None) ==>
              && 0 < contacted <= |responses| && responses[contacted - 1].Accepted?
              && var payloads := Payloads(responses[contacted - 1].lines);
                 var reading := ReadAll(OpenAIishMode, payloads);
                 && result == Result(reading.text, Calls(reading.decoding.emitted))
                 && EmittedArguments(reading.decoding.emitted, i)
                    == OpenAI.FragmentBytes(OpenAI.AllFragments(Chunks(payloads)), i)
                 && AllTokens(candidates[..contacted]) == AllTokens(candidates[..contacted - 1]) + reading.tokens
  {
    var candidates := Candidates(OpenAIishMode, tools, true, responses);
    if responses != [] && Decided(candidates, contacted, result, None) {
      SuccessIsDecided(candidates, contacted, result);
      var response := responses[contacted - 1];
      SuccessReturnsEveryByte(response.lines, response.broken, i);
    }
  }

  /** Over an Anthropic stream it has all bytes of all indexes exactly when the events of the stream that decided are
      well formed. */
  lemma AnthropicCallReturnsEveryByteExactlyWhenWellFormed(
      tools: bool, responses: seq<Response>, contacted: nat, result: Result)
    ensures var candidates := Candidates(AnthropicMode, tools, true, responses);
            responses != [] && Decided(candidates, contacted, result, None) ==>
              && 0 < contacted <= |responses| && responses[contacted - 1].Accepted?
              && var payloads := Payloads(responses[contacted - 1].lines);
                 var reading, events := ReadAll(AnthropicMode, payloads), Events(payloads);
                 && result == Result(reading.text, Calls(reading.decoding.emitted))
                 && (AllBytes(reading.decoding.emitted, events) <==> Anthropic.WellFormed(events))
  {
    var candidates := Candidates(AnthropicMode, tools, true, responses);
    if responses != [] && Decided(candidates, contacted, result, None) {
      SuccessIsDecided(candidates, contacted, result);
      AllBytesExactlyWhenWellFormed(Payloads(responses[contacted - 1].lines));
    }
  }

  /** The calls have all bytes that the events bring, for every index. */
  ghost predicate AllBytes(emitted: Emission, events: seq<Anthropic.Event>) {
    forall i: Index :: EmittedArguments(emitted, i) == Anthropic.ReceivedBytes(events, i)
  }

  lemma AllBytesExactlyWhenWellFormed(payloads: seq<Payload>)
    ensures var d := ReadAll(AnthropicMode, payloads).decoding;
            d.open == map[] ==> (AllBytes(d.emitted, Events(payloads)) <==> Anthropic.WellFormed(Events(payloads)))
  {
    ReadingDecodesEvents(payloads);
    Anthropic.BytesConservedExactlyWhenWellFormed(Events(payloads));
    var d := Anthropic.Decode(Events(payloads));
    if d.open == map[] {
      forall i: Index ensures Anthropic.Accounted(d, i) == EmittedArguments(d.emitted, i) {
      }
    }
  }
}
