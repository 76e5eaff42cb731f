/** Placement of ephemeral cache markers in an Anthropic request (roots/llm/clientadapter.go,
    roots/llm/client.go). */
module CacheMarkers {
  import opened Sequences
  import opened Text

  /** A message's role after trimming and lower-casing; every role but these three is sent as user. */
  datatype Role = System | Assistant | User | OtherRole

  datatype Message = Message(role: Role, content: string, toolCallId: string, calls: seq<string>)

  datatype Content = TextBlock(text: string) | ToolResult(id: string, text: string) | ToolUse(call: string)

  /** A content block of the request; a cache marker is set on it in place. */
  class Block {
    const content: Content
    var marked: bool

    constructor (content: Content)
      ensures this.content == content && !marked
    {
      this.content := content;
      marked := false;
    }
  }

  const Budget: nat := 3
  const Spacing: nat := 15

  /** The provider looks back over this many blocks from a marker. */
  const Lookback: nat := 20

  function Flat<T>(lists: seq<seq<T>>): seq<T> {
    if lists == [] then [] else Flat(lists[..|lists| - 1]) + lists[|lists| - 1]
  }

  lemma {:induction false} FlatConcat<T>(a: seq<seq<T>>, b: seq<seq<T>>)
    ensures Flat(a + b) == Flat(a) + Flat(b)
  {
    if b == [] {
      assert a + b == a;
    } else {
      var n := |b| - 1;
      FlatConcat(a, b[..n]);
      assert (a + b)[..|a + b| - 1] == a + b[..n];
    }
  }

  function ToolUses(calls: seq<string>): seq<Content> {
    seq(|calls|, k requires 0 <= k < |calls| => ToolUse(calls[k]))
  }

  /** The blocks of one message, as anthropicMessagePayload builds them. */
  function Payload(m: Message): seq<Content> {
    if m.toolCallId != "" then [ToolResult(m.toolCallId, m.content)]
    else if m.content != "" then [TextBlock(m.content)] + ToolUses(m.calls)
    else ToolUses(m.calls)
  }

  /** System messages are not part of the message sequence. */
  function PayloadInSequence(m: Message): seq<Content> {
    if m.role.System? then [] else Payload(m)
  }

  function PayloadsOf(messages: seq<Message>): seq<seq<Content>> {
    seq(|messages|, k requires 0 <= k < |messages| => PayloadInSequence(messages[k]))
  }

  /** The blocks of the message sequence of a request, flattened. */
  function Contents(messages: seq<Message>): seq<Content> {
    Flat(PayloadsOf(messages))
  }

  lemma ContentsConcat(a: seq<Message>, b: seq<Message>)
    ensures Contents(a + b) == Contents(a) + Contents(b)
  {
    assert PayloadsOf(a + b) == PayloadsOf(a) + PayloadsOf(b);
    FlatConcat(PayloadsOf(a), PayloadsOf(b));
  }

  lemma ContentsGrow(messages: seq<Message>, n: nat)
    requires n < |messages|
    ensures Contents(messages[..n + 1]) == Contents(messages[..n]) + PayloadInSequence(messages[n])
  {
    assert messages[..n + 1][..n] == messages[..n];
    assert PayloadsOf(messages[..n + 1])[..n] == PayloadsOf(messages[..n]);
  }

  lemma FlatGrow<T>(lists: seq<seq<T>>, list: seq<T>)
    ensures Flat(lists + [list]) == Flat(lists) + list
  {
    assert (lists + [list])[..|lists|] == lists;
  }

  /** The non-blank system messages, trimmed. */
  function SystemParts(messages: seq<Message>): seq<string> {
    if messages == [] then []
    else
      var m := messages[|messages| - 1];
      SystemParts(messages[..|messages| - 1])
      + (if m.role.System? && TrimSpace(m.content) != "" then [TrimSpace(m.content)] else [])
  }

  /** Of n message blocks, block i gets a marker: the last one, and up to two more at distances of Spacing. */
  predicate Marked(n: nat, i: nat) {
    i + 1 == n || i + Spacing + 1 == n || i + 2 * Spacing + 1 == n
  }

  /** Block i is among the first `spent` blocks to be marked. */
  predicate MarkedFirst(spent: nat, n: nat, i: nat) {
    || (spent >= 1 && i + 1 == n)
    || (spent >= 2 && i + Spacing + 1 == n)
    || (spent >= 3 && i + 2 * Spacing + 1 == n)
  }

  /** What one message adds to the blocks, between those of the messages before and after it: a tool result; or its
      text, unless that is empty, and then its tool calls in order; or, as a system message, nothing. */
  lemma MessageContributes(before: seq<Message>, m: Message, later: seq<Message>)
    ensures var tools := seq(|m.calls|, k requires 0 <= k < |m.calls| => ToolUse(m.calls[k]));
            var own := if m.role.System? then []
                       else if m.toolCallId != "" then [ToolResult(m.toolCallId, m.content)]
                       else (if m.content != "" then [TextBlock(m.content)] else []) + tools;
            Contents(before + [m] + later) == Contents(before) + own + Contents(later)
  {
    ContentsConcat(before + [m], later);
    ContentsConcat(before, [m]);
    ContentsOfOne(m);
    PayloadIs(m);
  }

  lemma ContentsOfOne(m: Message)
    ensures Contents([m]) == PayloadInSequence(m)
  {
    ContentsGrow([m], 0);
    assert [m][..1] == [m] && [m][..0] == [];
    assert Contents([]) + PayloadInSequence(m) == PayloadInSequence(m);
  }

  lemma PayloadIs(m: Message)
    ensures var tools := seq(|m.calls|, k requires 0 <= k < |m.calls| => ToolUse(m.calls[k]));
            PayloadInSequence(m)
            == if m.role.System? then []
               else if m.toolCallId != "" then [ToolResult(m.toolCallId, m.content)]
               else (if m.content != "" then [TextBlock(m.content)] else []) + tools
  {
    assert [] + ToolUses(m.calls) == ToolUses(m.calls);
  }

  /** A system message adds its text, without outer white space, to the system block unless it is blank, and no other
      message does. */
  lemma {:induction false} SystemContributes(before: seq<Message>, m: Message, later: seq<Message>)
    ensures SystemParts(before + [m] + later)
            == SystemParts(before)
               + (if m.role.System? && TrimSpace(m.content) != "" then [TrimSpace(m.content)] else [])
               + SystemParts(later)
  {
    if later == [] {
      SystemGrow(before, m);
      assert before + [m] + later == before + [m];
    } else {
      var n := |later| - 1;
      SystemContributes(before, m, later[..n]);
      SystemGrow(before + [m] + later[..n], later[n]);
      SystemGrow(later[..n], later[n]);
      Snoc(later);
      Regroup(before + [m], later[..n], [later[n]]);
      var own := if m.role.System? && TrimSpace(m.content) != "" then [TrimSpace(m.content)] else [];
      var l := later[n];
      var last := if l.role.System? && TrimSpace(l.content) != "" then [TrimSpace(l.content)] else [];
      Regroup(SystemParts(before) + own, SystemParts(later[..n]), last);
    }
  }

  lemma SystemGrow(messages: seq<Message>, m: Message)
    ensures SystemParts(messages + [m])
            == SystemParts(messages)
               + (if m.role.System? && TrimSpace(m.content) != "" then [TrimSpace(m.content)] else [])
  {
    assert (messages + [m])[..|messages|] == messages;
  }

  // ---------------------------------------------------------------------------------------------
  // Building the request
  // ---------------------------------------------------------------------------------------------

  /** Distinct blocks with the given contents, none of them marked yet. */
  ghost predicate Built(blocks: seq<Block>, contents: seq<Content>)
    reads blocks
  {
    && |blocks| == |contents|
    && (forall k | 0 <= k < |blocks| :: !blocks[k].marked && blocks[k].content == contents[k])
    && (forall j, k | 0 <= j < k < |blocks| :: blocks[j] != blocks[k])
  }

  lemma BuiltConcat(a: seq<Block>, aContents: seq<Content>, b: seq<Block>, bContents: seq<Content>)
    requires Built(a, aContents) && Built(b, bContents)
    requires forall j, k | 0 <= j < |a| && 0 <= k < |b| :: a[j] != b[k]
    ensures Built(a + b, aContents + bContents)
  {
  }

  /** The tool-use blocks of a message. */
  method ToolUseBlocks(calls: seq<string>) returns (blocks: seq<Block>)
    ensures Built(blocks, ToolUses(calls)) && forall k | 0 <= k < |blocks| :: fresh(blocks[k])
  {
    blocks := [];
    for c := 0 to |calls|
      invariant Built(blocks, ToolUses(calls)[..c]) && forall k | 0 <= k < |blocks| :: fresh(blocks[k])
    {
      var b := new Block(ToolUse(calls[c]));
      blocks := blocks + [b];
    }
    assert ToolUses(calls)[..|calls|] == ToolUses(calls);
  }

  /** anthropicMessagePayload: fresh blocks without markers. */
  method PayloadBlocks(m: Message) returns (blocks: seq<Block>)
    ensures Built(blocks, Payload(m)) && forall k | 0 <= k < |blocks| :: fresh(blocks[k])
  {
    if m.toolCallId != "" {
      var b := new Block(ToolResult(m.toolCallId, m.content));
      return [b];
    }
    if m.content != "" {
      var b := new Block(TextBlock(m.content));
      var rest := ToolUseBlocks(m.calls);
      BuiltConcat([b], [TextBlock(m.content)], rest, ToolUses(m.calls));
      return [b] + rest;
    }
    blocks := ToolUseBlocks(m.calls);
  }

  /** The message sequence of the request: one payload per message that is not a system message. */
  method Payloads(messages: seq<Message>) returns (payloads: seq<seq<Block>>)
    ensures Built(Flat(payloads), Contents(messages))
    ensures forall k | 0 <= k < |Flat(payloads)| :: fresh(Flat(payloads)[k])
  {
    payloads := [];
    ghost var flat: seq<Block> := [];
    for n := 0 to |messages|
      invariant flat == Flat(payloads) && Built(flat, Contents(messages[..n]))
      invariant forall k | 0 <= k < |flat| :: fresh(flat[k])
    {
      ContentsGrow(messages, n);
      if !messages[n].role.System? {
        var blocks := PayloadBlocks(messages[n]);
        FlatGrow(payloads, blocks);
        BuiltConcat(flat, Contents(messages[..n]), blocks, Payload(messages[n]));
        payloads, flat := payloads + [blocks], flat + blocks;
      } else {
        assert Contents(messages[..n + 1]) == Contents(messages[..n]);
      }
    }
    assert messages[..|messages|] == messages;
  }

  /** Where the flattened blocks are. */
  method Positions<T>(payloads: seq<seq<T>>) returns (positions: seq<(nat, nat)>)
    ensures |positions| == |Flat(payloads)|
    ensures forall p | 0 <= p < |positions| ::
              && positions[p].0 < |payloads| && positions[p].1 < |payloads[positions[p].0]|
              && payloads[positions[p].0][positions[p].1] == Flat(payloads)[p]
  {
    positions := [];
    for m := 0 to |payloads|
      invariant |positions| == |Flat(payloads[..m])|
      invariant forall p | 0 <= p < |positions| ::
          && positions[p].0 < m && positions[p].1 < |payloads[positions[p].0]|
          && payloads[positions[p].0][positions[p].1] == Flat(payloads[..m])[p]
    {
      assert payloads[..m + 1][..m] == payloads[..m];
      ghost var before := positions;
      for b := 0 to |payloads[m]|
        invariant |positions| == |before| + b && before <= positions
        invariant forall k | 0 <= k < b :: positions[|before| + k] == (m, k)
      {
        positions := positions + [(m, b)];
      }
      assert Flat(payloads[..m + 1]) == Flat(payloads[..m]) + payloads[m];
      forall p | |before| <= p < |positions| ensures positions[p] == (m, p - |before|) {
        assert positions[|before| + (p - |before|)] == (m, p - |before|);
      }
    }
    assert payloads[..|payloads|] == payloads;
  }

  /** Sets the markers in place. */
  method Annotate(payloads: seq<seq<Block>>)
    requires exists contents :: Built(Flat(payloads), contents)
    modifies Flat(payloads)
    ensures forall k | 0 <= k < |Flat(payloads)| :: Flat(payloads)[k].marked <==> Marked(|Flat(payloads)|, k)
  {
    ghost var flat := Flat(payloads);
    var positions := Positions(payloads);
    var spent: nat := 0;
    var i := |positions| - 1;
    while i >= 0 && spent < Budget
      invariant i == |flat| - 1 - spent * Spacing && spent <= Budget
      invariant forall k | 0 <= k < |flat| :: flat[k].marked <==> MarkedFirst(spent, |flat|, k)
      decreases Budget - spent
    {
      var (m, b) := positions[i];
      assert payloads[m][b] == flat[i];
      payloads[m][b].marked := true;
      spent := spent + 1;
      i := i - Spacing;
    }
  }

  /** The marker-bearing part of BuildChatRequest: the system block is marked when there is one, and the
      message blocks exactly at the marked positions. */
  method BuildRequest(messages: seq<Message>) returns (system: Block?, payloads: seq<seq<Block>>)
    ensures system != null <==> SystemParts(messages) != []
    ensures system != null ==> system.marked && system.content == TextBlock(Join(SystemParts(messages), "\n\n"))
    ensures var flat := Flat(payloads);
            && |flat| == |Contents(messages)|
            && (forall k | 0 <= k < |flat| :: flat[k].content == Contents(messages)[k])
            && (forall k | 0 <= k < |flat| :: flat[k].marked <==> Marked(|flat|, k))
  {
    var parts: seq<string> := [];
    for n := 0 to |messages|
      invariant parts == SystemParts(messages[..n])
    {
      assert messages[..n + 1][..n] == messages[..n];
      if messages[n].role.System? && TrimSpace(messages[n].content) != "" {
        parts := parts + [TrimSpace(messages[n].content)];
      }
    }
    assert messages[..|messages|] == messages;
    system := null;
    if parts != [] {
      system := new Block(TextBlock(Join(parts, "\n\n")));
      system.marked := true;
    }
    payloads := Payloads(messages);
    Annotate(payloads);
  }

  // ---------------------------------------------------------------------------------------------
  // What the placement achieves
  // ---------------------------------------------------------------------------------------------

  function MarkedBlocks(n: nat): set<nat> {
    set i: nat | 0 <= i < n && Marked(n, i)
  }

  /** The number of message markers, exactly; with the system block a request has at most four. */
  lemma MarkerCount(n: nat)
    ensures |MarkedBlocks(n)| == if n > 30 then 3 else if n > 15 then 2 else if n > 0 then 1 else 0
    ensures 1 + |MarkedBlocks(n)| <= 4
    ensures n > 0 ==> n - 1 in MarkedBlocks(n)
  {
    if n > 2 * Spacing {
      assert MarkedBlocks(n) == {n - 1, n - 1 - Spacing, n - 1 - 2 * Spacing};
    } else if n > Spacing {
      assert MarkedBlocks(n) == {n - 1, n - 1 - Spacing};
    } else if n > 0 {
      assert MarkedBlocks(n) == {n - 1};
    } else {
      assert MarkedBlocks(n) == {};
    }
  }

  /** A marker at block m finds an entry written at block i. */
  predicate Reaches(m: nat, i: nat) {
    i <= m < i + Lookback
  }

  /** Some marker of n blocks reaches the block at index last. */
  predicate Reached(n: nat, last: nat) {
    exists m <- MarkedBlocks(n) :: Reaches(m, last)
  }

  lemma GrowthReached(last: nat, grown: nat)
    ensures Reached(last + 1 + grown, last) <==> grown <= 2 * Spacing + Lookback - 1
  {
    var n := last + 1 + grown;
    if grown < Lookback {
      assert n - 1 in MarkedBlocks(n) && Reaches(n - 1, last);
    } else if grown < Spacing + Lookback {
      assert n - 1 - Spacing in MarkedBlocks(n) && Reaches(n - 1 - Spacing, last);
    } else if grown < 2 * Spacing + Lookback {
      assert n - 1 - 2 * Spacing in MarkedBlocks(n) && Reaches(n - 1 - 2 * Spacing, last);
    }
  }

  /** After a conversation has grown by some messages, the next request still reaches the block that was
      marked last, through one of its own markers, exactly when the growth was at most 49 blocks. */
  lemma GrowthReachesLastMarker(messages: seq<Message>, more: seq<Message>)
    requires Contents(messages) != []
    ensures Contents(messages) <= Contents(messages + more)
    ensures Reached(|Contents(messages + more)|, |Contents(messages)| - 1)
            <==> |Contents(more)| <= 49
  {
    ContentsConcat(messages, more);
    GrowthReached(|Contents(messages)| - 1, |Contents(more)|);
  }
}
