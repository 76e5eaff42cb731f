/** Forwarding frames under a short-lived token, with one retry (internal/mcpclient/forward.go). */
module Forwarding {
  import opened Text

  type Id = nat

  /** Times in nanoseconds. */
  const Minute: int := 60_000_000_000

  /** The token that is cached; an empty one is none. */
  datatype Cache = Cache(token: string, expiresAt: int)

  datatype MintReply = Minted(cache: Cache) | MintFailed(message: string)

  /** How one request ends: without an answer, refused with a 401, or with a status and a body. */
  datatype Reply = NoAnswer(message: string) | Unauthorized | Ok(body: string) | OtherStatus(body: string)

  datatype Result = Response(body: string) | ErrorFrame(message: string)

  /** Where a call stands. A token is held with the number of its mint. */
  datatype Phase =
    | Begun
    | Holding(token: string, mint: nat, reused: bool, at: int, retry: bool)
    | Refused
    | Cleared
    | Done(result: Result)

  /** One request that was sent, and whether the Stem executed the frame. */
  datatype Sent = Sent(mint: nat, reused: bool, at: int, reply: Reply, executed: bool)

  /** A call, with its history: what it sent, how often it asked for a token, and how many tokens had been minted
      when it cleared the cache. */
  datatype Call = Call(phase: Phase, sent: seq<Sent>, asked: nat, cleared: nat)

  /** The forwarder's cache, the number of the mint it holds, every mint so far, and the calls. */
  datatype World = World(cache: Cache, held: nat, mints: seq<Cache>, calls: map<Id, Call>)

  const Start: World := World(Cache("", 0), 0, [], map[])

  datatype Action =
    | Begin(c: Id)
    | Ensure(c: Id, now: int, mint: MintReply)
    | Send(c: Id, reply: Reply, executed: bool)
    | Clear(c: Id)
    | Preflight(now: int, mint: MintReply)

  /** A cached token is good for more than another minute. */
  predicate Reusable(cache: Cache, now: int) {
    cache.token != "" && now + Minute < cache.expiresAt
  }

  predicate Enabled(w: World, a: Action) {
    match a
    case Begin(c) => c !in w.calls
    case Ensure(c, _, _) => c in w.calls && (w.calls[c].phase.Begun? || w.calls[c].phase.Cleared?)
    case Send(c, _, _) => c in w.calls && w.calls[c].phase.Holding?
    case Clear(c) => c in w.calls && w.calls[c].phase.Refused?
    case Preflight(_, _) => true
  }

  /** ensureToken, which holds the lock throughout: the cache afterwards. */
  function Ensured(cache: Cache, now: int, mint: MintReply): Cache {
    if Reusable(cache, now) || mint.MintFailed? then cache else mint.cache
  }

  function Cached(w: World, now: int, mint: MintReply): World {
    if Reusable(w.cache, now) || mint.MintFailed? then w
    else w.(cache := Ensured(w.cache, now, mint), held := |w.mints|, mints := w.mints + [mint.cache])
  }

  /** The call after ensureToken. */
  function Equipped(w: World, call: Call, now: int, mint: MintReply): Call {
    if Reusable(w.cache, now) then call.(phase := Holding(w.cache.token, w.held, true, now, call.phase.Cleared?))
    else match mint
      case MintFailed(message) => call.(phase := Done(ErrorFrame(message)), asked := call.asked + 1)
      case Minted(m) =>
        call.(phase := Holding(m.token, |w.mints|, false, now, call.phase.Cleared?), asked := call.asked + 1)
  }

  const RefusedTwice: string := "the Stem refused you: credential refused after retry"

  /** Where a request leaves the call. */
  function After(reply: Reply, retry: bool): Phase {
    match reply
    case NoAnswer(message) => Done(ErrorFrame(message))
    case Unauthorized => if retry then Done(ErrorFrame(RefusedTwice)) else Refused
    case Ok(body) => Done(Response(body))
    case OtherStatus(body) => Done(ErrorFrame(TrimSpace(body)))
  }

  function Answered(call: Call, reply: Reply, executed: bool): Call
    requires call.phase.Holding?
  {
    var h := call.phase;
    call.(phase := After(reply, h.retry), sent := call.sent + [Sent(h.mint, h.reused, h.at, reply, executed)])
  }

  function Apply(w: World, a: Action): World
    requires Enabled(w, a)
  {
    match a
    case Begin(c) => w.(calls := w.calls[c := Call(Begun, [], 0, 0)])
    case Ensure(c, now, mint) => Cached(w, now, mint).(calls := w.calls[c := Equipped(w, w.calls[c], now, mint)])
    case Send(c, reply, executed) => w.(calls := w.calls[c := Answered(w.calls[c], reply, executed)])
    case Clear(c) =>
      w.(cache := w.cache.(token := ""), calls := w.calls[c := w.calls[c].(phase := Cleared, cleared := |w.mints|)])
    case Preflight(now, mint) => Cached(w, now, mint)
  }

  ghost predicate Legal(w: World, run: seq<Action>)
    decreases |run|
  {
    run == [] || (Enabled(w, run[0]) && Legal(Apply(w, run[0]), run[1..]))
  }

  function Exec(w: World, run: seq<Action>): World
    requires Legal(w, run)
    decreases |run|
  {
    if run == [] then w else Exec(Apply(w, run[0]), run[1..])
  }

  // ---------------------------------------------------------------------------------------------
  // The invariant
  // ---------------------------------------------------------------------------------------------

  /** A request carried a minted token, which if it came from the cache had more than a minute left. */
  predicate WellSent(mints: seq<Cache>, s: Sent) {
    s.mint < |mints| && (s.reused ==> s.at + Minute < mints[s.mint].expiresAt)
  }

  /** The call was refused once, with a token minted before it cleared the cache. */
  predicate RefusedOnce(call: Call) {
    |call.sent| == 1 && call.sent[0].reply.Unauthorized? && call.asked <= 1
  }

  /** What the phase says of the history. A retry holds a token that was minted after the cache was cleared. */
  predicate PhaseInv(call: Call, mints: seq<Cache>) {
    match call.phase
    case Begun => call.sent == [] && call.asked == 0
    case Holding(token, mint, reused, at, retry) =>
      && mint < |mints| && mints[mint].token == token && (reused ==> at + Minute < mints[mint].expiresAt)
      && (if retry
          then
            && |call.sent| == 1 && call.sent[0].reply.Unauthorized? && call.asked <= 2
            && call.sent[0].mint < call.cleared <= mint
          else call.sent == [] && call.asked <= 1)
    case Refused => RefusedOnce(call)
    case Cleared => RefusedOnce(call) && call.sent[0].mint < call.cleared <= |mints|
    case Done(result) =>
      && |call.sent| <= 2 && call.asked <= 2
      && (|call.sent| == 2 ==>
            call.sent[0].reply.Unauthorized? && call.sent[0].mint < call.cleared <= call.sent[1].mint)
      && (result.Response? <==> call.sent != [] && call.sent[|call.sent| - 1].reply.Ok?)
      && (result.Response? ==> result.body == call.sent[|call.sent| - 1].reply.body)
  }

  ghost predicate CallInv(w: World, call: Call) {
    && PhaseInv(call, w.mints)
    && (forall i | 0 <= i < |call.sent| :: WellSent(w.mints, call.sent[i]))
    && (call.phase.Cleared? && w.cache.token != "" ==> call.cleared <= w.held)
  }

  ghost predicate Inv(w: World) {
    && (w.cache.token != "" ==> w.held < |w.mints| && w.mints[w.held] == w.cache)
    && forall c | c in w.calls :: CallInv(w, w.calls[c])
  }

  /** How one step changes what the calls share: mints are only added, and the cache keeps its mint, is emptied,
      or holds a new one. */
  predicate Shared(w: World, v: World) {
    && w.mints <= v.mints
    && (v.cache.token != "" ==> (w.cache == v.cache && v.held == w.held) || |w.mints| <= v.held)
  }

  lemma OthersKeep(w: World, v: World, call: Call)
    requires CallInv(w, call) && Shared(w, v)
    ensures CallInv(v, call)
  {
    assert forall i | 0 <= i < |call.sent| :: WellSent(w.mints, call.sent[i]);
  }

  lemma EquippedKeeps(w: World, c: Id, now: int, mint: MintReply)
    requires Inv(w) && Enabled(w, Ensure(c, now, mint))
    ensures CallInv(Cached(w, now, mint), Equipped(w, w.calls[c], now, mint))
  {
    OthersKeep(w, Cached(w, now, mint), w.calls[c]);
  }

  lemma AnsweredKeeps(w: World, c: Id, reply: Reply, executed: bool)
    requires Inv(w) && Enabled(w, Send(c, reply, executed))
    ensures CallInv(w, Answered(w.calls[c], reply, executed))
  {
    assert CallInv(w, w.calls[c]);
  }

  lemma StepKeepsInv(w: World, a: Action)
    requires Inv(w) && Enabled(w, a)
    ensures Inv(Apply(w, a))
  {
    var v := Apply(w, a);
    match a {
      case Ensure(c, now, mint) => EquippedKeeps(w, c, now, mint);
      case Send(c, reply, executed) => AnsweredKeeps(w, c, reply, executed);
      case _ =>
    }
    forall c | c in v.calls ensures CallInv(v, v.calls[c]) {
      if c in w.calls {
        OthersKeep(w, v, w.calls[c]);
      }
    }
  }

  lemma {:induction false} RunKeepsInv(w: World, run: seq<Action>)
    requires Inv(w) && Legal(w, run)
    ensures Inv(Exec(w, run))
    decreases |run|
  {
    if run != [] {
      StepKeepsInv(w, run[0]);
      RunKeepsInv(Apply(w, run[0]), run[1..]);
    }
  }

  // ---------------------------------------------------------------------------------------------
  // What every call can rely on
  // ---------------------------------------------------------------------------------------------

  /** How often the frame was executed. */
  function Executions(sent: seq<Sent>): nat {
    if sent == [] then 0 else Executions(sent[..|sent| - 1]) + (if sent[|sent| - 1].executed then 1 else 0)
  }

  /** Whether the Stem executed a frame that it refused with a 401. */
  predicate ExecutedThoughRefused(sent: seq<Sent>) {
    exists i | 0 <= i < |sent| :: sent[i].reply.Unauthorized? && sent[i].executed
  }

  /** Whatever other calls do in between, a call sends its frame at most twice and asks for a token at most twice;
      it sends a second time only after a 401, and then under a token minted since; every request carries a minted
      token, which if it was reused had more than a minute left. */
  lemma EveryCallIsBounded(run: seq<Action>, c: Id)
    requires Legal(Start, run) && c in Exec(Start, run).calls
    ensures var w := Exec(Start, run);
            var sent := w.calls[c].sent;
            && |sent| <= 2 && w.calls[c].asked <= 2
            && (|sent| == 2 ==> sent[0].reply.Unauthorized? && sent[0].mint < sent[1].mint)
            && (forall i | 0 <= i < |sent| :: WellSent(w.mints, sent[i]))
  {
    RunKeepsInv(Start, run);
    assert CallInv(Exec(Start, run), Exec(Start, run).calls[c]);
  }

  /** Every frame is executed at most once, unless the Stem executed it though it refused it with a 401. */
  lemma ExecutedAtMostOnce(run: seq<Action>, c: Id)
    requires Legal(Start, run) && c in Exec(Start, run).calls
    ensures var sent := Exec(Start, run).calls[c].sent;
            && Executions(sent) <= 2
            && (Executions(sent) == 2 ==> ExecutedThoughRefused(sent))
  {
    EveryCallIsBounded(run, c);
    var sent := Exec(Start, run).calls[c].sent;
    if |sent| == 2 {
      assert sent[..1][..0] == [];
      assert Executions(sent) == Executions(sent[..1]) + (if sent[1].executed then 1 else 0);
    } else if |sent| == 1 {
      assert sent[..0] == [];
    }
  }

  /** Once a call has its result, no step changes it: a call returns exactly one. */
  lemma {:induction false} ResultIsFinal(w: World, run: seq<Action>, c: Id)
    requires Legal(w, run) && c in w.calls && w.calls[c].phase.Done?
    ensures c in Exec(w, run).calls && Exec(w, run).calls[c] == w.calls[c]
    decreases |run|
  {
    if run != [] {
      ResultIsFinal(Apply(w, run[0]), run[1..], c);
    }
  }

  /** The steps a call still has before it. */
  function Left(p: Phase): nat {
    match p
    case Begun => 5
    case Holding(_, _, _, _, retry) => if retry then 1 else 4
    case Refused => 3
    case Cleared => 2
    case Done(_) => 0
  }

  predicate IsStepOf(a: Action, c: Id) {
    match a
    case Ensure(d, _, _) => d == c
    case Send(d, _, _) => d == c
    case Clear(d) => d == c
    case _ => false
  }

  function StepsOf(run: seq<Action>, c: Id): nat {
    if run == [] then 0 else (if IsStepOf(run[0], c) then 1 else 0) + StepsOf(run[1..], c)
  }

  /** The call can take a step, whatever the clock and the Stem do next. */
  predicate CanStep(w: World, c: Id, now: int, mint: MintReply, reply: Reply, executed: bool) {
    Enabled(w, Ensure(c, now, mint)) || Enabled(w, Send(c, reply, executed)) || Enabled(w, Clear(c))
  }

  /** A call has its result after at most five steps of its own: at any time it has the result or can take a step, and
      each of its steps brings it nearer; those of others bring it neither forward nor back. */
  lemma {:induction false} AtMostFiveSteps(
      w: World, run: seq<Action>, c: Id, now: int, mint: MintReply, reply: Reply, executed: bool)
    requires Legal(w, run) && c in w.calls
    ensures c in Exec(w, run).calls
    ensures StepsOf(run, c) + Left(Exec(w, run).calls[c].phase) <= Left(w.calls[c].phase) <= 5
    ensures Exec(w, run).calls[c].phase.Done? || CanStep(Exec(w, run), c, now, mint, reply, executed)
    ensures StepsOf(run, c) == 0 ==> Exec(w, run).calls[c] == w.calls[c]
    decreases |run|
  {
    if run != [] {
      AtMostFiveSteps(Apply(w, run[0]), run[1..], c, now, mint, reply, executed);
    }
  }

  // ---------------------------------------------------------------------------------------------
  // The forwarder itself
  // ---------------------------------------------------------------------------------------------

  /** What the clock and the Stem do to one call. */
  datatype Inputs = Inputs(
    now: int, mint: MintReply, reply: Reply, executed: bool,
    laterNow: int, laterMint: MintReply, laterReply: Reply, laterExecuted: bool)

  /** The steps of a call that nothing interrupts. */
  function Alone(w: World, c: Id, i: Inputs): World
    requires c in w.calls && w.calls[c].phase.Begun?
  {
    var equipped := Apply(w, Ensure(c, i.now, i.mint));
    if equipped.calls[c].phase.Done? then equipped
    else
      var answered := Apply(equipped, Send(c, i.reply, i.executed));
      if answered.calls[c].phase.Done? then answered
      else
        var again := Apply(Apply(answered, Clear(c)), Ensure(c, i.laterNow, i.laterMint));
        if again.calls[c].phase.Done? then again else Apply(again, Send(c, i.laterReply, i.laterExecuted))
  }

  /** The cache and the result after one attempt at sending, when it gives a result. */
  function Attempted(cache: Cache, now: int, mint: MintReply, reply: Reply, retry: bool): (Cache, Phase) {
    (Ensured(cache, now, mint),
     if !Reusable(cache, now) && mint.MintFailed? then Done(ErrorFrame(mint.message)) else After(reply, retry))
  }

  /** The cache and the phase in which a call that nothing interrupts ends. */
  function Outcome(cache: Cache, i: Inputs): (Cache, Phase) {
    var first := Attempted(cache, i.now, i.mint, i.reply, false);
    if first.1.Done? then first
    else Attempted(first.0.(token := ""), i.laterNow, i.laterMint, i.laterReply, true)
  }

  lemma FirstAttempt(w: World, c: Id, now: int, mint: MintReply, reply: Reply, executed: bool)
    requires c in w.calls && (w.calls[c].phase.Begun? || w.calls[c].phase.Cleared?)
    ensures var equipped := Apply(w, Ensure(c, now, mint));
            var (cache, phase) := Attempted(w.cache, now, mint, reply, w.calls[c].phase.Cleared?);
            && equipped.cache == cache && c in equipped.calls
            && (equipped.calls[c].phase.Done? ==> equipped.calls[c].phase == phase)
            && (equipped.calls[c].phase.Holding? ==> Apply(equipped, Send(c, reply, executed)).calls[c].phase == phase)
            && (equipped.calls[c].phase.Done? || equipped.calls[c].phase.Holding?)
  {
  }

  /** The uninterrupted call ends with its outcome. */
  lemma AloneHasItsOutcome(w: World, c: Id, i: Inputs)
    requires c in w.calls && w.calls[c].phase.Begun?
    ensures (Alone(w, c, i).cache, Alone(w, c, i).calls[c].phase) == Outcome(w.cache, i)
  {
    FirstAttempt(w, c, i.now, i.mint, i.reply, i.executed);
    var equipped := Apply(w, Ensure(c, i.now, i.mint));
    if equipped.calls[c].phase.Holding? {
      var answered := Apply(equipped, Send(c, i.reply, i.executed));
      if answered.calls[c].phase.Refused? {
        FirstAttempt(Apply(answered, Clear(c)), c, i.laterNow, i.laterMint, i.laterReply, i.laterExecuted);
      }
    }
  }

  /** A token in the cache with more than a minute left is used, and no other minted; otherwise one is minted, cached
      and used, unless minting fails, which ends the call. */
  lemma TokenIsReusedExactlyWhen(w: World, c: Id, now: int, mint: MintReply)
    requires Enabled(w, Ensure(c, now, mint))
    ensures var v := Apply(w, Ensure(c, now, mint));
            var phase := v.calls[c].phase;
            if w.cache.token != "" && w.cache.expiresAt - now > 60_000_000_000 then
              phase.Holding? && phase.reused && phase.token == w.cache.token && v.mints == w.mints && v.cache == w.cache
            else match mint
              case MintFailed(message) => phase == Done(ErrorFrame(message)) && v.mints == w.mints && v.cache == w.cache
              case Minted(m) =>
                && phase.Holding? && !phase.reused && phase.token == m.token
                && v.mints == w.mints + [m] && v.cache == m
  {
  }

  /** What a call gives that nothing interrupts: any answer but a 401 is passed on; after a 401 the token is discarded,
      another minted, and the frame sent once more. */
  lemma AloneDoesAsAnswered(w: World, c: Id, i: Inputs)
    requires c in w.calls && w.calls[c] == Call(Begun, [], 0, 0)
    ensures var v := Alone(w, c, i);
            var call := v.calls[c];
            var usable := w.cache.token != "" && w.cache.expiresAt - i.now > 60_000_000_000;
            var first := if usable || i.mint.MintFailed? then w.mints else w.mints + [i.mint.cache];
            if !usable && i.mint.MintFailed? then
              && call.phase == Done(ErrorFrame(i.mint.message)) && call.sent == []
              && v.mints == w.mints && v.cache == w.cache
            else if !i.reply.Unauthorized? then
              && Answers(call.phase, i.reply) && |call.sent| == 1 && call.sent[0].reply == i.reply
              && v.mints == first && v.cache == (if usable then w.cache else i.mint.cache)
            else if i.laterMint.MintFailed? then
              && call.phase == Done(ErrorFrame(i.laterMint.message)) && |call.sent| == 1
              && v.mints == first && v.cache.token == ""
            else
              && Answers(call.phase, i.laterReply)
              && |call.sent| == 2 && call.sent[0].reply == i.reply && call.sent[1].reply == i.laterReply
              && v.mints == first + [i.laterMint.cache] && v.cache == i.laterMint.cache
  {
    TokenIsReusedExactlyWhen(w, c, i.now, i.mint);
    var w1 := Apply(w, Ensure(c, i.now, i.mint));
    if w1.calls[c].phase.Holding? && i.reply.Unauthorized? {
      var w3 := Apply(Apply(w1, Send(c, i.reply, i.executed)), Clear(c));
      TokenIsReusedExactlyWhen(w3, c, i.laterNow, i.laterMint);
    }
  }

  /** The result passes the answer on; a 401 is an error. */
  predicate Answers(phase: Phase, reply: Reply) {
    && phase.Done?
    && match reply
       case NoAnswer(message) => phase.result == ErrorFrame(message)
       case Ok(body) => phase.result == Response(body)
       case OtherStatus(body) => phase.result == ErrorFrame(TrimSpace(body))
       case Unauthorized => phase.result.ErrorFrame?
  }

  class Forwarder {
    var token: string
    var expiresAt: int

    constructor ()
      ensures Value() == Start.cache
    {
      token, expiresAt := "", 0;
    }

    ghost function Value(): Cache
      reads this
    {
      Cache(token, expiresAt)
    }

    /** ensureToken, under the lock. */
    method EnsureToken(now: int, mint: MintReply) returns (given: string, failure: string, ok: bool)
      modifies this
      ensures Value() == Ensured(old(Value()), now, mint)
      ensures ok <==> Reusable(old(Value()), now) || mint.Minted?
      ensures ok ==> given == token
      ensures !ok ==> failure == mint.message
    {
      if token != "" && now + Minute < expiresAt {
        return token, "", true;
      }
      if mint.MintFailed? {
        return "", mint.message, false;
      }
      token := mint.cache.token;
      expiresAt := mint.cache.expiresAt;
      return token, "", true;
    }

    /** Forward, when no other call interferes. */
    method Forward(i: Inputs) returns (result: Result)
      modifies this
      ensures (Value(), Done(result)) == Outcome(old(Value()), i)
    {
      var given, failure, ok := EnsureToken(i.now, i.mint);
      if !ok {
        return ErrorFrame(failure);
      }
      match i.reply {
        case NoAnswer(message) => return ErrorFrame(message);
        case Ok(body) => return Response(body);
        case OtherStatus(body) => return ErrorFrame(TrimSpace(body));
        case Unauthorized =>
      }
      token := "";
      given, failure, ok := EnsureToken(i.laterNow, i.laterMint);
      if !ok {
        return ErrorFrame(failure);
      }
      match i.laterReply {
        case NoAnswer(message) => return ErrorFrame(message);
        case Ok(body) => return Response(body);
        case OtherStatus(body) => return ErrorFrame(TrimSpace(body));
        case Unauthorized => return ErrorFrame(RefusedTwice);
      }
    }
  }
}
