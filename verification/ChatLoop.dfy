/** The direct chat session: one event loop, at most one watch, and Seeds dispatched under idempotency keys
    (cmd/stem/cmdchat.go). */
module ChatLoop {
  import opened Options
  import opened Text

  datatype ChatState = Idle | Active | Lost

  /** The session's fields; an empty key means that no dispatch is pending. */
  datatype Client = Client(state: ChatState, handle: string, phytomer: string, pendingGoal: string, pendingKey: string)

  datatype Seed = Seed(goal: string, handle: string, phytomer: string)

  datatype Request = Request(goal: string, key: string)

  datatype Continuation = Continuation(phytomer: string, intent: string, key: string)

  /** The server: the Seeds it keeps, one for a key, and everything it was asked. */
  datatype Stem = Stem(seeds: map<string, Seed>, requests: seq<Request>, continued: seq<Continuation>)

  /** What becomes of one dispatch request. The client sees an error in every case but the last. */
  datatype Reply = Unreached | Refused | Unanswered | Answered

  /** What the watch goroutine sends on the one-slot channel when it ends. */
  datatype Report = Report(watched: string, terminal: bool)

  datatype Mode = Running | Draining | Stopped

  datatype Accepted = Accepted(goal: string, key: string, seed: Seed)

  /** The session, its goroutines and channel, and the server. History: the keys drawn, the dispatches the
      client saw accepted, and the Phytomers whose terminal observation reached the loop. */
  datatype World = World(
    client: Client, mode: Mode, watchActive: bool, watches: seq<string>, slot: seq<Report>, stem: Stem,
    drawn: set<string>, accepted: seq<Accepted>, settled: set<string>)

  const Fresh: Client := Client(Idle, "", "", "", "")
  const Start: World := World(Fresh, Running, false, [], [], Stem(map[], [], []), {}, [], {})

  /** One step of the loop, of the reader, or of a watch goroutine. A line comes with the key that the
      generator would give it ("" when the generator fails) and with what the server would make of it. */
  datatype Action =
    | Line(raw: string, key: string, reply: Reply, handle: string, phytomer: string)
    | EndOfInput
    | Cancelled
    | WatchEnds(which: nat, terminal: bool)
    | Receive

  /** Keys never repeat and the server never names two Phytomers alike. */
  ghost predicate Enabled(w: World, a: Action) {
    match a
    case Line(_, key, _, _, phytomer) =>
      w.mode.Running? && key !in w.drawn && forall k | k in w.stem.seeds :: w.stem.seeds[k].phytomer != phytomer
    case EndOfInput => w.mode.Running?
    case Cancelled => w.mode.Running?
    case WatchEnds(which, _) => which < |w.watches|
    case Receive => !w.mode.Stopped? && w.slot != []
  }

  // ---------------------------------------------------------------------------------------------
  // The steps
  // ---------------------------------------------------------------------------------------------

  /** The server keeps at most one Seed for a key. */
  function Posted(s: Stem, goal: string, key: string, reply: Reply, handle: string, phytomer: string): Stem {
    s.(requests := s.requests + [Request(goal, key)],
       seeds := if (reply.Unanswered? || reply.Answered?) && key !in s.seeds
                then s.seeds[key := Seed(goal, handle, phytomer)] else s.seeds)
  }

  /** Whether a goal leads to a request: an unresolved dispatch admits its own goal only. */
  predicate Sends(c: Client, goal: string, key: string) {
    if c.pendingKey != "" then c.pendingGoal == goal else key != ""
  }

  function Prepared(c: Client, goal: string, key: string): Client {
    if c.pendingKey == "" then c.(pendingGoal := goal, pendingKey := key) else c
  }

  /** The request is on its way and the server has made of it what it would. */
  function Asked(w: World, goal: string, a: Action): World
    requires a.Line?
  {
    var c := Prepared(w.client, goal, a.key);
    w.(client := c, stem := Posted(w.stem, goal, c.pendingKey, a.reply, a.handle, a.phytomer),
       drawn := w.drawn + {c.pendingKey})
  }

  /** The dispatch was answered: the pending key is spent and the Phytomer is watched. */
  function Taken(w: World, goal: string, key: string, seed: Seed): World {
    w.(client := Client(Active, seed.handle, seed.phytomer, "", ""),
       accepted := w.accepted + [Accepted(goal, key, seed)],
       watchActive := true,
       watches := if w.watchActive then w.watches else w.watches + [seed.phytomer])
  }

  function Goal(w: World, goal: string, a: Action): World
    requires a.Line?
  {
    if !Sends(w.client, goal, a.key) then w
    else
      var asked := Asked(w, goal, a);
      var key := asked.client.pendingKey;
      if a.reply.Answered? then Taken(asked, goal, key, asked.stem.seeds[key]) else asked
  }

  function Intent(w: World, intent: string, key: string): World {
    if key == "" then w
    else w.(drawn := w.drawn + {key},
            stem := w.stem.(continued := w.stem.continued + [Continuation(w.client.phytomer, intent, key)]))
  }

  function Settle(c: Client, r: Report): Client {
    if r.terminal then c.(state := Idle, handle := "", phytomer := "") else c.(state := Lost)
  }

  /** A line without outer white space. */
  function Typed(w: World, text: string, a: Action): World
    requires a.Line?
  {
    if text == "" then w
    else if text == "exit" || text == "/exit" then w.(mode := Stopped)
    else match w.client.state
      case Idle => Goal(w, text, a)
      case Active => Intent(w, text, a.key)
      case Lost => w
  }

  /** After the end of the input the loop waits for one report only, and leaves watchActive set. */
  function Received(w: World): World
    requires w.slot != []
  {
    var r := w.slot[0];
    w.(client := Settle(w.client, r), slot := w.slot[1..],
       settled := if r.terminal then w.settled + {r.watched} else w.settled,
       watchActive := w.watchActive && w.mode.Draining?,
       mode := if w.mode.Draining? then Stopped else w.mode)
  }

  function Apply(w: World, a: Action): World
    requires Enabled(w, a)
  {
    match a
    case Line(raw, _, _, _, _) => Typed(w, TrimSpace(raw), a)
    case EndOfInput => w.(mode := if w.watchActive then Draining else Stopped)
    case Cancelled => w.(mode := Stopped)
    case WatchEnds(which, terminal) =>
      w.(watches := w.watches[..which] + w.watches[which + 1..], slot := w.slot + [Report(w.watches[which], terminal)])
    case Receive => Received(w)
  }

  ghost predicate Legal(w: World, run: seq<Action>)
    decreases |run|
  {
    run == [] || (Enabled(w, run[0]) && Legal(Apply(w, run[0]), run[1..]))
  }

  function Exec(w: World, run: seq<Action>): World
    requires Legal(w, run)
    decreases |run|
  {
    if run == [] then w else Exec(Apply(w, run[0]), run[1..])
  }

  // ---------------------------------------------------------------------------------------------
  // The invariant
  // ---------------------------------------------------------------------------------------------

  /** Every key in use was drawn, and no two requests under one key ask for different goals. */
  ghost predicate KeysInv(w: World) {
    && "" !in w.drawn
    && (w.client.pendingKey != "" ==> w.client.pendingKey in w.drawn)
    && (forall i | 0 <= i < |w.stem.requests| :: w.stem.requests[i].key in w.drawn)
    && (forall i | 0 <= i < |w.stem.requests| ::
          w.stem.requests[i].key == w.client.pendingKey ==> w.stem.requests[i].goal == w.client.pendingGoal)
    && (forall i, j | 0 <= i < j < |w.stem.requests| ::
          w.stem.requests[i].key == w.stem.requests[j].key ==> w.stem.requests[i].goal == w.stem.requests[j].goal)
  }

  /** The server's Seeds are the accepted ones and perhaps one for the pending key. */
  ghost predicate SeedsInv(w: World) {
    && (forall k | k in w.stem.seeds ::
          k in w.drawn && (k == w.client.pendingKey || exists i | 0 <= i < |w.accepted| :: w.accepted[i].key == k))
    && (w.client.pendingKey in w.stem.seeds ==> w.stem.seeds[w.client.pendingKey].goal == w.client.pendingGoal)
    && (forall j, k | j in w.stem.seeds && k in w.stem.seeds && j != k ::
          w.stem.seeds[j].phytomer != w.stem.seeds[k].phytomer)
    && (forall i | 0 <= i < |w.accepted| :: var a := w.accepted[i];
          && a.key in w.drawn && a.key != w.client.pendingKey
          && a.key in w.stem.seeds && w.stem.seeds[a.key] == a.seed && a.seed.goal == a.goal)
    && (forall i, j | 0 <= i < j < |w.accepted| :: w.accepted[i].key != w.accepted[j].key)
    && (forall p | p in w.settled :: exists i | 0 <= i < |w.accepted| :: w.accepted[i].seed.phytomer == p)
  }

  ghost predicate Settled(w: World, i: nat)
    requires i < |w.accepted|
  {
    w.accepted[i].seed.phytomer in w.settled
  }

  predicate Outstanding(w: World) {
    (|w.watches| == 1 && w.slot == []) || (w.watches == [] && |w.slot| == 1)
  }

  predicate Quiet(w: World) {
    w.watches == [] && w.slot == []
  }

  /** The last accepted Seed is the session's; it is not settled and all before it are. */
  ghost predicate Engaged(w: World) {
    && w.accepted != [] && w.accepted[|w.accepted| - 1].seed.phytomer == w.client.phytomer
    && w.client.pendingKey == ""
    && !Settled(w, |w.accepted| - 1)
    && forall i | 0 <= i < |w.accepted| - 1 :: Settled(w, i)
  }

  /** While the loop runs, exactly the Active state has a watch outstanding, for the session's Phytomer. */
  ghost predicate PhaseInv(w: World) {
    && (Outstanding(w) || Quiet(w))
    && (w.mode.Running? ==> (w.watchActive <==> w.client.state.Active?))
    && (w.mode.Draining? ==> w.watchActive && w.client.state.Active?)
    && (!w.mode.Stopped? ==>
          match w.client.state
          case Idle => Quiet(w) && forall i | 0 <= i < |w.accepted| :: Settled(w, i)
          case Active => Outstanding(w) && Engaged(w) && Watches(w, w.client.phytomer)
          case Lost => Quiet(w) && Engaged(w))
  }

  /** Every outstanding watch is for this Phytomer. */
  predicate Watches(w: World, phytomer: string) {
    && (forall i | 0 <= i < |w.watches| :: w.watches[i] == phytomer)
    && (forall i | 0 <= i < |w.slot| :: w.slot[i].watched == phytomer)
  }

  ghost predicate Inv(w: World) {
    KeysInv(w) && SeedsInv(w) && PhaseInv(w)
  }

  lemma StartInv()
    ensures Inv(Start)
  {
  }

  /** KeysInv and SeedsInv say nothing of the phase. */
  predicate SameAccounts(w: World, v: World) {
    && v.client.pendingKey == w.client.pendingKey && v.client.pendingGoal == w.client.pendingGoal
    && v.stem.seeds == w.stem.seeds && v.stem.requests == w.stem.requests && v.accepted == w.accepted
    && w.drawn <= v.drawn && "" !in v.drawn
  }

  lemma SameAccountsKeep(w: World, v: World)
    requires KeysInv(w) && SeedsInv(w) && SameAccounts(w, v)
    requires forall p | p in v.settled ::
               p in w.settled || exists i | 0 <= i < |w.accepted| :: w.accepted[i].seed.phytomer == p
    ensures KeysInv(v) && SeedsInv(v)
  {
  }

  lemma AskedKeepsKeys(w: World, goal: string, a: Action)
    requires KeysInv(w) && a.Line? && a.key !in w.drawn && Sends(w.client, goal, a.key)
    ensures KeysInv(Asked(w, goal, a))
  {
  }

  /** Sending keeps the accounts: the Seed of the pending key may be new, all others stay. */
  lemma AskedKeepsSeeds(w: World, goal: string, a: Action)
    requires KeysInv(w) && SeedsInv(w) && a.Line? && Enabled(w, a) && Sends(w.client, goal, a.key)
    ensures SeedsInv(Asked(w, goal, a))
  {
  }

  lemma TakenKeepsAccounts(w: World, goal: string)
    requires KeysInv(w) && SeedsInv(w)
    requires w.client.pendingKey != "" && w.client.pendingGoal == goal && w.client.pendingKey in w.stem.seeds
    ensures KeysInv(Taken(w, goal, w.client.pendingKey, w.stem.seeds[w.client.pendingKey]))
    ensures SeedsInv(Taken(w, goal, w.client.pendingKey, w.stem.seeds[w.client.pendingKey]))
  {
    var v := Taken(w, goal, w.client.pendingKey, w.stem.seeds[w.client.pendingKey]);
    assert forall i | 0 <= i < |w.accepted| :: v.accepted[i] == w.accepted[i];
    assert v.accepted[|w.accepted|].key == w.client.pendingKey;
  }

  lemma GoalKeepsAccounts(w: World, goal: string, a: Action)
    requires KeysInv(w) && SeedsInv(w) && Enabled(w, a) && a.Line?
    ensures KeysInv(Goal(w, goal, a)) && SeedsInv(Goal(w, goal, a))
  {
    if Sends(w.client, goal, a.key) {
      AskedKeepsKeys(w, goal, a);
      AskedKeepsSeeds(w, goal, a);
      if a.reply.Answered? {
        TakenKeepsAccounts(Asked(w, goal, a), goal);
      }
    }
  }

  lemma TypedKeepsAccounts(w: World, text: string, a: Action)
    requires KeysInv(w) && SeedsInv(w) && Enabled(w, a) && a.Line?
    ensures KeysInv(Typed(w, text, a)) && SeedsInv(Typed(w, text, a))
  {
    if text == "" || text == "exit" || text == "/exit" || !w.client.state.Idle? {
      SameAccountsKeep(w, Typed(w, text, a));
    } else {
      GoalKeepsAccounts(w, text, a);
    }
  }

  lemma StepKeepsAccounts(w: World, a: Action)
    requires Inv(w) && Enabled(w, a)
    ensures KeysInv(Apply(w, a)) && SeedsInv(Apply(w, a))
  {
    if a.Line? {
      TypedKeepsAccounts(w, TrimSpace(a.raw), a);
    } else {
      SameAccountsKeep(w, Apply(w, a));
    }
  }

  lemma GoalKeepsPhase(w: World, goal: string, a: Action)
    requires Inv(w) && Enabled(w, a) && a.Line? && w.client.state.Idle?
    ensures PhaseInv(Goal(w, goal, a))
  {
    var v := Goal(w, goal, a);
    assert |v.accepted| > |w.accepted| ==> !Settled(v, |w.accepted|);
    assert forall i | 0 <= i < |w.accepted| :: v.accepted[i] == w.accepted[i] && Settled(w, i);
  }

  lemma ReceiveKeepsPhase(w: World)
    requires Inv(w) && Enabled(w, Receive)
    ensures PhaseInv(Received(w))
  {
    var v := Received(w);
    assert w.slot[0].watched == w.client.phytomer;
    forall i | 0 <= i < |w.accepted| - 1 ensures Settled(v, i) {
      assert Settled(w, i);
    }
  }

  /** A step that changes neither the Seeds accepted and settled nor the state keeps the engagement. */
  lemma SamePhaseKeeps(w: World, v: World)
    requires PhaseInv(w) && v.client == w.client && v.accepted == w.accepted && v.settled == w.settled
    requires
      || v.mode.Stopped?
      || (v.watchActive == w.watchActive && (v.mode == w.mode || (v.mode.Draining? && w.watchActive)))
    requires !v.mode.Stopped? ==> !w.mode.Stopped?
    requires |v.watches| + |v.slot| == |w.watches| + |w.slot|
    requires w.client.state.Active? && !w.mode.Stopped? ==> Watches(v, w.client.phytomer)
    ensures PhaseInv(v)
  {
    assert forall i: nat | i < |w.accepted| :: Settled(v, i) == Settled(w, i);
  }

  lemma TypedKeepsPhase(w: World, text: string, a: Action)
    requires Inv(w) && Enabled(w, a) && a.Line?
    ensures PhaseInv(Typed(w, text, a))
  {
    if text == "" || text == "exit" || text == "/exit" || !w.client.state.Idle? {
      SamePhaseKeeps(w, Typed(w, text, a));
    } else {
      GoalKeepsPhase(w, text, a);
    }
  }

  lemma StepKeepsPhase(w: World, a: Action)
    requires Inv(w) && Enabled(w, a)
    ensures PhaseInv(Apply(w, a))
  {
    if a.Receive? {
      ReceiveKeepsPhase(w);
    } else if a.Line? {
      TypedKeepsPhase(w, TrimSpace(a.raw), a);
    } else {
      SamePhaseKeeps(w, Apply(w, a));
    }
  }

  lemma StepKeepsInv(w: World, a: Action)
    requires Inv(w) && Enabled(w, a)
    ensures Inv(Apply(w, a))
  {
    StepKeepsAccounts(w, a);
    StepKeepsPhase(w, a);
  }

  lemma {:induction false} RunKeepsInv(w: World, run: seq<Action>)
    requires Inv(w) && Legal(w, run)
    ensures Inv(Exec(w, run))
    decreases |run|
  {
    if run != [] {
      StepKeepsInv(w, run[0]);
      RunKeepsInv(Apply(w, run[0]), run[1..]);
    }
  }

  // ---------------------------------------------------------------------------------------------
  // Safety of every run
  // ---------------------------------------------------------------------------------------------

  /** - A Seed is asked for, under its typed goal, only when every accepted Seed delivered a terminal observation.
      - Once observation is lost, the session asks the server for nothing and stays as it is.
      - Continued intent goes to the last accepted Seed's Phytomer, and only while it is unsettled.
      - Every accepted Seed gets a watch of its own, and settles only by a terminal report of that watch. */
  ghost predicate SafeChange(w: World, v: World, text: string, key: string) {
    && (v.stem.requests != w.stem.requests ==>
          && v.stem.requests == w.stem.requests
            + [Request(text, if w.client.pendingKey == "" then key else w.client.pendingKey)]
          && forall i | 0 <= i < |w.accepted| :: Settled(w, i))
    && (w.client.state.Lost? && !w.mode.Stopped? ==>
          v.client == w.client && v.stem == w.stem && v.accepted == w.accepted)
    && (v.stem.continued != w.stem.continued ==>
          && w.accepted != [] && !Settled(w, |w.accepted| - 1)
          && v.stem.continued == w.stem.continued
            + [Continuation(w.accepted[|w.accepted| - 1].seed.phytomer, text, key)])
    && (v.accepted != w.accepted ==>
          && |v.accepted| == |w.accepted| + 1 && v.accepted[..|w.accepted|] == w.accepted
          && v.accepted[|w.accepted|].goal == text && w.watches == []
          && v.watches == [v.accepted[|w.accepted|].seed.phytomer])
    && (v.settled != w.settled ==>
          && w.slot == [Report(w.client.phytomer, true)] && v.settled == w.settled + {w.client.phytomer}
          && w.accepted != [] && w.accepted[|w.accepted| - 1].seed.phytomer == w.client.phytomer)
  }

  /** And a watch that ends finds room on the channel. */
  ghost predicate SafeStep(w: World, a: Action)
    requires Enabled(w, a)
  {
    if a.Line? then SafeChange(w, Apply(w, a), TrimSpace(a.raw), a.key)
    else SafeChange(w, Apply(w, a), "", "") && (a.WatchEnds? ==> w.slot == [])
  }

  ghost predicate SafeRun(w: World, run: seq<Action>)
    requires Legal(w, run)
    decreases |run|
  {
    run == [] || (SafeStep(w, run[0]) && SafeRun(Apply(w, run[0]), run[1..]))
  }

  lemma GoalIsSafe(w: World, goal: string, a: Action)
    requires Inv(w) && Enabled(w, a) && a.Line? && w.client.state.Idle?
    ensures SafeChange(w, Goal(w, goal, a), goal, a.key)
  {
    var v := Goal(w, goal, a);
    assert v.accepted != w.accepted ==> v.accepted[..|w.accepted|] == w.accepted;
  }

  lemma IntentIsSafe(w: World, text: string, key: string)
    requires Inv(w) && w.mode.Running? && w.client.state.Active?
    ensures SafeChange(w, Intent(w, text, key), text, key)
  {
  }

  lemma TypedIsSafe(w: World, text: string, a: Action)
    requires Inv(w) && Enabled(w, a) && a.Line?
    ensures SafeChange(w, Typed(w, text, a), text, a.key)
  {
    if w.client.state.Idle? {
      GoalIsSafe(w, text, a);
    } else if w.client.state.Active? {
      IntentIsSafe(w, text, a.key);
    }
  }

  lemma StepIsSafe(w: World, a: Action)
    requires Inv(w) && Enabled(w, a)
    ensures SafeStep(w, a)
  {
    if a.Line? {
      TypedIsSafe(w, TrimSpace(a.raw), a);
    }
  }

  lemma {:induction false} EveryRunIsSafe(w: World, run: seq<Action>)
    requires Inv(w) && Legal(w, run)
    ensures SafeRun(w, run)
    decreases |run|
  {
    if run != [] {
      StepIsSafe(w, run[0]);
      StepKeepsInv(w, run[0]);
      EveryRunIsSafe(Apply(w, run[0]), run[1..]);
    }
  }

  /** While the loop runs, the session is Active exactly when a watch is outstanding; there is never a second. */
  lemma ActiveExactlyWhenWatching(run: seq<Action>)
    requires Legal(Start, run)
    ensures SafeRun(Start, run)
    ensures var w := Exec(Start, run);
            && |w.watches| + |w.slot| <= 1
            && (w.mode.Running? ==> (w.client.state.Active? <==> |w.watches| + |w.slot| == 1))
            && (w.mode.Running? ==> (w.client.state.Active? <==> w.watchActive))
  {
    StartInv();
    EveryRunIsSafe(Start, run);
    RunKeepsInv(Start, run);
  }

  function KeysOf(accepted: seq<Accepted>): set<string> {
    set i | 0 <= i < |accepted| :: accepted[i].key
  }

  lemma {:induction false} DistinctKeys(accepted: seq<Accepted>)
    requires forall i, j | 0 <= i < j < |accepted| :: accepted[i].key != accepted[j].key
    ensures |KeysOf(accepted)| == |accepted|
  {
    if accepted != [] {
      var n := |accepted| - 1;
      DistinctKeys(accepted[..n]);
      assert KeysOf(accepted) == KeysOf(accepted[..n]) + {accepted[n].key};
      assert accepted[n].key !in KeysOf(accepted[..n]);
    }
  }

  /** However responses are lost and goals retried, the server keeps one Seed for every accepted dispatch, with
      the goal that was typed, and at most one more: the unresolved dispatch's. */
  lemma OneSeedPerAcceptedGoal(run: seq<Action>)
    requires Legal(Start, run)
    ensures var w := Exec(Start, run);
            && |w.stem.seeds| == |w.accepted| + (if w.client.pendingKey in w.stem.seeds then 1 else 0)
            && (forall i | 0 <= i < |w.accepted| ::
                  && w.accepted[i].key in w.stem.seeds && w.stem.seeds[w.accepted[i].key] == w.accepted[i].seed
                  && w.accepted[i].seed.goal == w.accepted[i].goal)
            && (w.client.pendingKey in w.stem.seeds ==>
                  w.client.pendingKey != "" && w.stem.seeds[w.client.pendingKey].goal == w.client.pendingGoal)
  {
    StartInv();
    RunKeepsInv(Start, run);
    var w := Exec(Start, run);
    SeedsAreCounted(w);
  }

  lemma SeedsAreCounted(w: World)
    requires Inv(w)
    ensures |w.stem.seeds| == |w.accepted| + (if w.client.pendingKey in w.stem.seeds then 1 else 0)
  {
    DistinctKeys(w.accepted);
    WithoutKey(w.stem.seeds, w.client.pendingKey);
    ResolvedKeys(w);
  }

  /** The server knows the keys of the accepted dispatches and perhaps the unresolved one. */
  lemma ResolvedKeys(w: World)
    requires Inv(w)
    ensures w.stem.seeds.Keys - {w.client.pendingKey} == KeysOf(w.accepted)
  {
  }

  lemma WithoutKey<T>(seeds: map<string, T>, key: string)
    ensures |seeds| == |seeds.Keys - {key}| + (if key in seeds then 1 else 0)
  {
    var others := seeds.Keys - {key};
    assert key in seeds ==> seeds.Keys == others + {key};
    assert key !in seeds ==> seeds.Keys == others;
  }

  // ---------------------------------------------------------------------------------------------
  // An unresolved dispatch
  // ---------------------------------------------------------------------------------------------

  predicate Unresolved(w: World) {
    w.client.state.Idle? && w.client.pendingKey != ""
  }

  /** No line of the run, outer white space aside, is this goal. */
  predicate NeverTypes(run: seq<Action>, goal: string) {
    forall i | 0 <= i < |run| :: run[i].Line? ==> TrimSpace(run[i].raw) != goal
  }

  lemma {:induction false} UnresolvedStays(w: World, run: seq<Action>)
    requires Inv(w) && Unresolved(w) && Legal(w, run) && NeverTypes(run, w.client.pendingGoal)
    ensures var v := Exec(w, run); v.client == w.client && v.stem == w.stem && v.accepted == w.accepted
    decreases |run|
  {
    if run != [] {
      assert run[0].Line? ==> TrimSpace(run[0].raw) != w.client.pendingGoal;
      UnresolvedStep(w, run[0]);
      StepKeepsInv(w, run[0]);
      assert forall i | 0 <= i < |run[1..]| :: run[1..][i] == run[i + 1];
      UnresolvedStays(Apply(w, run[0]), run[1..]);
    }
  }

  lemma UnresolvedStep(w: World, a: Action)
    requires Inv(w) && Unresolved(w) && Enabled(w, a) && (a.Line? ==> TrimSpace(a.raw) != w.client.pendingGoal)
    ensures var v := Apply(w, a); v.client == w.client && v.stem == w.stem && v.accepted == w.accepted
  {
  }

  /** The line is a goal that leads to a request. */
  predicate SendsGoal(w: World, a: Action, goal: string) {
    && a.Line? && TrimSpace(a.raw) == goal && goal !in {"", "exit", "/exit"}
    && w.mode.Running? && w.client.state.Idle? && Sends(w.client, goal, a.key)
  }

  /** In the world v the goal of the unresolved dispatch of w is typed again: the request carries its key; once it is
      answered, the Seed that the server already keeps is taken and none is added. */
  ghost predicate Retries(w: World, v: World, retry: Action)
    requires retry.Line? && Enabled(v, retry)
  {
    var goal, key, after := w.client.pendingGoal, w.client.pendingKey, Apply(v, retry);
    && after.stem.requests == w.stem.requests + [Request(goal, key)]
    && (Unresolved(after) <==> !retry.reply.Answered?)
    && (key in w.stem.seeds ==>
          && after.stem.seeds == w.stem.seeds
          && (retry.reply.Answered? ==> after.accepted == w.accepted + [Accepted(goal, key, w.stem.seeds[key])]))
  }

  lemma RetryTakesTheSameSeed(w: World, v: World, retry: Action)
    requires Inv(v) && Unresolved(v) && Enabled(v, retry) && SendsGoal(v, retry, v.client.pendingGoal)
    requires v.client == w.client && v.stem == w.stem && v.accepted == w.accepted
    ensures Retries(w, v, retry)
  {
  }

  /** A goal that was sent stays unresolved exactly when no acceptance of it was seen, a definite refusal included.
      Then, until it is typed again, nothing else can be dispatched, and the session keeps its fields; and typed again
      it takes the same Seed. */
  lemma OnlyItsOwnGoalResolves(w0: World, send: Action, goal: string, run: seq<Action>, retry: Action)
    requires Inv(w0) && Enabled(w0, send) && SendsGoal(w0, send, goal)
    requires Legal(Apply(w0, send), run) && NeverTypes(run, goal)
    ensures var w := Apply(w0, send);
            var v := Exec(w, run);
            && (Unresolved(w) <==> !send.reply.Answered?)
            && (Unresolved(w) ==>
                  && v.client == w.client && v.stem == w.stem && v.accepted == w.accepted
                  && (Enabled(v, retry) && retry.Line? && TrimSpace(retry.raw) == goal ==> Retries(w, v, retry)))
  {
    var w := Apply(w0, send);
    StepKeepsInv(w0, send);
    if Unresolved(w) {
      UnresolvedStays(w, run);
      RunKeepsInv(w, run);
      if Enabled(Exec(w, run), retry) && retry.Line? && TrimSpace(retry.raw) == goal {
        RetryTakesTheSameSeed(w, Exec(w, run), retry);
      }
    }
  }

  // ---------------------------------------------------------------------------------------------
  // What the input does
  // ---------------------------------------------------------------------------------------------

  /** A goal is typed in the Idle state. Without an unresolved dispatch it needs a key; an unresolved one admits its own
      goal only, under its own key. What is sent is posted once, and an acceptance starts a watch of its Seed. */
  predicate DispatchesGoal(w: World, v: World, goal: string, a: Action)
    requires a.Line?
  {
    var pending := w.client.pendingKey != "";
    var key := if pending then w.client.pendingKey else a.key;
    if key == "" || (pending && w.client.pendingGoal != goal) then v == w
    else
      && v.stem.requests == w.stem.requests + [Request(goal, key)] && v.stem.continued == w.stem.continued
      && v.mode.Running? && v.settled == w.settled && v.slot == w.slot
      && if a.reply.Answered? then
           && key in v.stem.seeds && v.accepted == w.accepted + [Accepted(goal, key, v.stem.seeds[key])]
           && v.client == Client(Active, v.stem.seeds[key].handle, v.stem.seeds[key].phytomer, "", "")
           && v.watches == [v.stem.seeds[key].phytomer] && v.watchActive
         else
           && v.accepted == w.accepted && v.watches == w.watches && v.watchActive == w.watchActive
           && v.client == w.client.(pendingGoal := goal, pendingKey := key)
  }

  /** What a line does: "exit" and "/exit" stop the loop; in the Active state any other text is posted once, as
      continued intent for the Seed accepted last, if it has a key; a lost observation lets nothing through. */
  predicate DoesAsTyped(w: World, v: World, text: string, a: Action)
    requires a.Line?
  {
    if text == "" then v == w
    else if text == "exit" || text == "/exit" then v == w.(mode := Stopped)
    else match w.client.state
      case Idle => DispatchesGoal(w, v, text, a)
      case Active =>
        && w.accepted != []
        && v.stem.continued
           == (if a.key == "" then w.stem.continued
               else w.stem.continued + [Continuation(w.accepted[|w.accepted| - 1].seed.phytomer, text, a.key)])
        && v == w.(stem := w.stem.(continued := v.stem.continued), drawn := v.drawn)
      case Lost => v == w
  }

  /** A report is that of the Seed accepted last. A terminal one settles it and frees the session; any other leaves the
      session lost, with the Seed's identity. */
  ghost predicate ReportDecides(w: World, v: World)
    requires w.slot != []
  {
    var r := w.slot[0];
    && w.accepted != [] && r.watched == w.accepted[|w.accepted| - 1].seed.phytomer == w.client.phytomer
    && v.stem == w.stem && v.accepted == w.accepted && v.slot == [] && v.watches == []
    && v.settled == (if r.terminal then w.settled + {r.watched} else w.settled)
    && v.client
       == if r.terminal then w.client.(state := Idle, handle := "", phytomer := "") else w.client.(state := Lost)
  }

  predicate Receives(run: seq<Action>) {
    exists k | 0 <= k < |run| :: run[k].Receive?
  }

  /** The end of the input stops a loop without a watch at once, and any other just when the report was received. */
  lemma {:induction false} DrainsUntilReceived(w: World, later: seq<Action>)
    requires w.mode.Draining? && Legal(w, later)
    ensures Exec(w, later).mode == if Receives(later) then Stopped else Draining
    decreases |later|
  {
    if later != [] {
      assert later == [later[0]] + later[1..];
      if later[0].Receive? {
        StaysStopped(Apply(w, later[0]), later[1..]);
      } else {
        DrainsUntilReceived(Apply(w, later[0]), later[1..]);
      }
    }
  }

  lemma {:induction false} StaysStopped(w: World, later: seq<Action>)
    requires w.mode.Stopped? && Legal(w, later)
    ensures Exec(w, later).mode.Stopped?
    decreases |later|
  {
    if later != [] {
      StaysStopped(Apply(w, later[0]), later[1..]);
    }
  }

  lemma LineDoesAsTyped(w: World, a: Action)
    requires Inv(w) && Enabled(w, a) && a.Line?
    ensures DoesAsTyped(w, Apply(w, a), TrimSpace(a.raw), a)
  {
  }

  lemma ReportedDecides(w: World)
    requires Inv(w) && Enabled(w, Receive)
    ensures ReportDecides(w, Apply(w, Receive))
  {
  }

  /** In every reachable world, a line does as it is typed, a report decides on the Seed accepted last, and the end
      of the input stops the loop at once when no watch is outstanding, and otherwise just when the report of that watch
      was received. */
  lemma InputDoesAsTyped(run: seq<Action>, a: Action, later: seq<Action>)
    requires Legal(Start, run) && Enabled(Exec(Start, run), a) && Legal(Apply(Exec(Start, run), a), later)
    ensures var w := Exec(Start, run);
            var v := Apply(w, a);
            && (a.Line? ==> DoesAsTyped(w, v, TrimSpace(a.raw), a))
            && (a.Receive? ==> ReportDecides(w, v))
            && (a.EndOfInput? ==>
                  (Exec(v, later).mode.Stopped? <==> |w.watches| + |w.slot| == 0 || Receives(later)))
  {
    var w := Exec(Start, run);
    StartInv();
    RunKeepsInv(Start, run);
    if a.Line? {
      LineDoesAsTyped(w, a);
    } else if a.Receive? {
      ReportedDecides(w);
    } else if a.EndOfInput? {
      if w.watchActive {
        DrainsUntilReceived(Apply(w, a), later);
      } else {
        StaysStopped(Apply(w, a), later);
      }
    }
  }
}
