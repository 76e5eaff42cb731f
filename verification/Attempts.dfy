/** What an attempt at one endpoint yields, and the channel that follows it (roots/llm/client.go). */
module Attempts {
  import opened Options
  import opened ToolCalls

  datatype Result = Result(text: string, calls: seq<ToolCall>)

  const NoResult: Result := Result("", [])

  /** The errors that the failover tells apart. */
  datatype Error = TransportFailure | RejectedWithTools | NoUsableCompletion | OtherFailure

  datatype Attempt = Attempt(result: Result, error: Option<Error>)

  /** The caller's token channel. */
  class TokenChannel {
    var sent: seq<string>
    var closes: nat

    constructor ()
      ensures sent == [] && closes == 0
    {
      sent, closes := [], 0;
    }

    method Send(token: string)
      requires closes == 0
      modifies this`sent
      ensures sent == old(sent) + [token]
    {
      sent := sent + [token];
    }

    method Close()
      requires closes == 0
      modifies this`closes
      ensures closes == 1
    {
      closes := 1;
    }
  }

  /** A caller may do without a channel. */
  function Objects(channel: TokenChannel?): set<TokenChannel> {
    if channel == null then {} else {channel}
  }
}
