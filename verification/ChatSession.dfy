/** The chat session as the event loop updates it (cmd/stem/cmdchat.go). */
module ChatSession {
  import opened ChatLoop
  import opened Options
  import opened Text

  /** The server: at most one Seed for a key. */
  class StemServer {
    var seeds: map<string, Seed>
    var requests: seq<Request>
    var continued: seq<Continuation>

    constructor ()
      ensures Value() == Start.stem
    {
      seeds, requests, continued := map[], [], [];
    }

    ghost function Value(): Stem
      reads this
    {
      Stem(seeds, requests, continued)
    }

    method DispatchSeed(goal: string, key: string, reply: Reply, handle: string, phytomer: string)
      returns (result: Option<Seed>)
      modifies this
      ensures Value() == Posted(old(Value()), goal, key, reply, handle, phytomer)
      ensures result == if reply.Answered? then Some(seeds[key]) else None
    {
      requests := requests + [Request(goal, key)];
      if reply.Unanswered? || reply.Answered? {
        if key !in seeds {
          seeds := seeds[key := Seed(goal, handle, phytomer)];
        }
      }
      result := if reply.Answered? then Some(seeds[key]) else None;
    }

    method ContinuePhytomer(phytomer: string, intent: string, key: string)
      modifies this`continued
      ensures continued == old(continued) + [Continuation(phytomer, intent, key)]
    {
      continued := continued + [Continuation(phytomer, intent, key)];
    }
  }

  class DirectChatSession {
    const stem: StemServer
    var state: ChatState
    var handle: string
    var phytomerID: string
    var pendingSeedGoal: string
    var pendingSeedIdempotencyKey: string

    constructor (stem: StemServer)
      ensures this.stem == stem && Value() == Fresh
    {
      this.stem := stem;
      state, handle, phytomerID, pendingSeedGoal, pendingSeedIdempotencyKey := Idle, "", "", "", "";
    }

    ghost function Value(): Client
      reads this
    {
      Client(state, handle, phytomerID, pendingSeedGoal, pendingSeedIdempotencyKey)
    }

    /** A pending dispatch refuses every goal but its own and keeps its key; an answer spends the key. */
    method DispatchSeed(goal: string, key: string, reply: Reply, handle: string, phytomer: string)
      returns (result: Option<Seed>)
      modifies this, stem
      ensures var c := Prepared(old(Value()), goal, key);
              if Sends(old(Value()), goal, key) then
                && stem.Value() == Posted(old(stem.Value()), goal, c.pendingKey, reply, handle, phytomer)
                && (result.Some? <==> reply.Answered?)
                && (if reply.Answered?
                    then Value() == c.(pendingGoal := "", pendingKey := "") && result == Some(stem.seeds[c.pendingKey])
                    else Value() == c)
              else result == None && Value() == old(Value()) && stem.Value() == old(stem.Value())
    {
      if pendingSeedIdempotencyKey != "" && pendingSeedGoal != goal {
        return None;
      }
      if pendingSeedIdempotencyKey == "" {
        if key == "" {
          return None;
        }
        pendingSeedGoal := goal;
        pendingSeedIdempotencyKey := key;
      }
      result := stem.DispatchSeed(goal, pendingSeedIdempotencyKey, reply, handle, phytomer);
      if result.Some? {
        pendingSeedGoal := "";
        pendingSeedIdempotencyKey := "";
      }
    }

    method DoActiveInput(intent: string, key: string)
      modifies stem
      ensures stem.Value() == if key == "" then old(stem.Value())
                              else old(stem.Value()).(
                                     continued := old(stem.continued) + [Continuation(phytomerID, intent, key)])
    {
      if key == "" {
        return;
      }
      stem.ContinuePhytomer(phytomerID, intent, key);
    }

    /** One line; start is the Phytomer to watch, when a watch is to start. */
    method HandleLoopInput(text: string, a: Action, watchActive: bool) returns (start: Option<string>)
      requires a.Line?
      modifies this, stem
      ensures forall w: World | w.client == old(Value()) && w.stem == old(stem.Value()) && w.watchActive == watchActive
                                && text !in {"", "exit", "/exit"} ::
                var v := Typed(w, text, a);
                && Value() == v.client && stem.Value() == v.stem && v.mode == w.mode && v.slot == w.slot
                && (start.Some? ==> v.watchActive && v.watches == w.watches + [start.value])
                && (start.None? ==> v.watchActive == w.watchActive && v.watches == w.watches)
      ensures old(state).Active? ==>
                stem.continued == old(stem.continued)
                                  + (if a.key == "" then [] else [Continuation(old(phytomerID), text, a.key)])
    {
      start := None;
      match state {
        case Idle =>
          var result := DispatchSeed(text, a.key, a.reply, a.handle, a.phytomer);
          if result.Some? {
            handle := result.value.handle;
            phytomerID := result.value.phytomer;
            state := Active;
            if !watchActive {
              start := Some(phytomerID);
            }
          }
        case Active => DoActiveInput(text, a.key);
        case Lost =>
      }
    }

    method HandleObsEvent(r: Report)
      modifies this
      ensures Value() == Settle(old(Value()), r)
    {
      if r.terminal {
        handle := "";
        phytomerID := "";
        state := Idle;
        return;
      }
      state := Lost;
    }
  }

  /** A line from the reader: blank ones are dropped, and "exit" ends the loop. */
  method ReadLine(session: DirectChatSession, a: Action, watchActive: bool) returns (exits: bool, start: Option<string>)
    requires a.Line?
    modifies session, session.stem
    ensures forall w: World | && w.client == old(session.Value()) && w.stem == old(session.stem.Value())
                              && w.watchActive == watchActive ::
              var v := Typed(w, TrimSpace(a.raw), a);
              && session.Value() == v.client && session.stem.Value() == v.stem
              && v.mode == (if exits then Stopped else w.mode) && v.slot == w.slot
              && v.watchActive == (w.watchActive || start.Some?)
              && v.watches == if start.Some? then w.watches + [start.value] else w.watches
  {
    exits, start := false, None;
    var text := TrimSpace(a.raw);
    if text == "exit" || text == "/exit" {
      exits := true;
    } else if text != "" {
      start := session.HandleLoopInput(text, a, watchActive);
    }
  }

  /** The event loop with its reader and watch goroutines, in the order in which their steps are taken. */
  method RunChatLoop(session: DirectChatSession, run: seq<Action>)
    requires session.Value() == Fresh && session.stem.Value() == Start.stem && Legal(Start, run)
    modifies session, session.stem
    ensures session.Value() == Exec(Start, run).client && session.stem.Value() == Exec(Start, run).stem
  {
    var mode, watchActive := Running, false;
    var watches: seq<string>, obsCh: seq<Report> := [], [];
    var rest := run;
    ghost var w := Start;
    while rest != []
      invariant Legal(w, rest) && Exec(w, rest) == Exec(Start, run)
      invariant session.Value() == w.client && session.stem.Value() == w.stem
      invariant mode == w.mode && watchActive == w.watchActive && watches == w.watches && obsCh == w.slot
      decreases |rest|
    {
      match rest[0] {
        case Line(_, _, _, _, _) =>
          var exits, start := ReadLine(session, rest[0], watchActive);
          if exits {
            mode := Stopped;
          }
          if start.Some? {
            watches, watchActive := watches + [start.value], true;
          }
        case EndOfInput => mode := if watchActive then Draining else Stopped;
        case Cancelled => mode := Stopped;
        case WatchEnds(which, terminal) =>
          obsCh := obsCh + [Report(watches[which], terminal)];
          watches := watches[..which] + watches[which + 1..];
        case Receive =>
          session.HandleObsEvent(obsCh[0]);
          obsCh := obsCh[1..];
          if mode.Draining? {
            mode := Stopped;
          } else {
            watchActive := false;
          }
      }
      w := Apply(w, rest[0]);
      rest := rest[1..];
    }
  }
}
