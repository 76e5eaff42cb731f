/** Nested admission at the public ingress (cmd/stem/publicingress.go) and the connection limit
    (cmd/stem/remotetls.go), for any number of requests and connections interleaving freely.

    A request acquires slots on its way in and runs its deferred releases, latest first, on its way out.
    It may turn back, or panic, at every point. */
module PublicIngress {
  import opened Sequences

  type Id = nat

  datatype Pool = Requests | Mints | Admissions | Observations

  datatype Stage =
    | WantsMint
    | RateCheck
    | BodyCheck(mint: bool)
    | MintSpool
    | Routing
    | WantsAdmission
    | WantsObservation
    | GovernedSpool
    | Handling
    | Unwinding
    | Ended

  /** `deferred` is the stack of release functions that wrap and authenticate have deferred so far. */
  datatype Request = Request(stage: Stage, deferred: seq<Pool>)

  datatype Limits = Limits(requests: nat, mints: nat, admissions: nat, observations: nat, connections: nat)

  /** `occupied` counts the tokens in each pool's channel; `open` tells which accepted connections have not
      run their release yet. */
  datatype State = State(
    limits: Limits,
    occupied: map<Pool, nat>,
    requests: map<Id, Request>,
    connected: nat,
    open: map<Id, bool>)

  datatype Action =
    | Arrive(r: Id, mint: bool)
    | TakeMint(r: Id)
    | CheckRate(r: Id, allowed: bool)
    | CheckBody(r: Id, fits: bool)
    | SpoolMint(r: Id, staged: bool)
    | Authenticate(r: Id, proven: bool)
    | ServeUngoverned(r: Id)
    | Admit(r: Id, watch: bool)
    | Observe(r: Id)
    | SpoolBody(r: Id, staged: bool)
    | Return(r: Id)
    | Panic(r: Id)
    | RunDeferred(r: Id)
    | Accept(c: Id)
    | CloseConnection(c: Id)

  function LimitOf(l: Limits, pool: Pool): nat {
    match pool
    case Requests => l.requests
    case Mints => l.mints
    case Admissions => l.admissions
    case Observations => l.observations
  }

  function Occupied(s: State, pool: Pool): nat {
    if pool in s.occupied then s.occupied[pool] else 0
  }

  /** The stage a request moves to when it turns back. */
  function Move(s: State, r: Id, stage: Stage): State
    requires r in s.requests
  {
    s.(requests := s.requests[r := s.requests[r].(stage := stage)])
  }

  /** tryAcquire followed by defer release(): on to `next` with a slot, or back without one. */
  function Acquire(s: State, r: Id, pool: Pool, next: Stage): State
    requires r in s.requests
  {
    if Occupied(s, pool) < LimitOf(s.limits, pool) then
      s.(occupied := s.occupied[pool := Occupied(s, pool) + 1],
         requests := s.requests[r := Request(next, s.requests[r].deferred + [pool])])
    else
      Move(s, r, Unwinding)
  }

  /** The release that was deferred last. */
  function Release(s: State, r: Id): State
    requires r in s.requests && s.requests[r].deferred != []
  {
    var deferred := s.requests[r].deferred;
    var pool := deferred[|deferred| - 1];
    var tokens := if Occupied(s, pool) == 0 then 0 else Occupied(s, pool) - 1;
    s.(occupied := s.occupied[pool := tokens],
       requests := s.requests[r := Request(Unwinding, deferred[..|deferred| - 1])])
  }

  /** A connection over the limit is closed at once. */
  function Connect(s: State, c: Id): State {
    if s.connected < s.limits.connections then s.(connected := s.connected + 1, open := s.open[c := true]) else s
  }

  /** Only the first close of a connection frees its slot. */
  function Disconnect(s: State, c: Id): State
    requires c in s.open
  {
    if s.open[c] && s.connected > 0 then s.(connected := s.connected - 1, open := s.open[c := false])
    else s.(open := s.open[c := false])
  }

  predicate At(s: State, r: Id, stage: Stage) {
    r in s.requests && s.requests[r].stage == stage
  }

  predicate Enabled(s: State, a: Action) {
    match a
    case Arrive(r, _) => r !in s.requests
    case TakeMint(r) => At(s, r, WantsMint)
    case CheckRate(r, _) => At(s, r, RateCheck)
    case CheckBody(r, _) => r in s.requests && s.requests[r].stage.BodyCheck?
    case SpoolMint(r, _) => At(s, r, MintSpool)
    case Authenticate(r, _) => At(s, r, Routing)
    case ServeUngoverned(r) => At(s, r, Routing)
    case Admit(r, _) => At(s, r, WantsAdmission)
    case Observe(r) => At(s, r, WantsObservation)
    case SpoolBody(r, _) => At(s, r, GovernedSpool)
    case Return(r) => At(s, r, Handling)
    case Panic(r) => r in s.requests && !s.requests[r].stage.Ended?
    case RunDeferred(r) => At(s, r, Unwinding)
    case Accept(c) => c !in s.open
    case CloseConnection(c) => c in s.open
  }

  function Apply(s: State, a: Action): State
    requires Enabled(s, a)
  {
    match a
    case Arrive(r, mint) =>
      var arrived := s.(requests := s.requests[r := Request(Unwinding, [])]);
      Acquire(arrived, r, Requests, if mint then WantsMint else BodyCheck(false))
    case TakeMint(r) => Acquire(s, r, Mints, RateCheck)
    case CheckRate(r, allowed) => Move(s, r, if allowed then BodyCheck(true) else Unwinding)
    case CheckBody(r, fits) =>
      Move(s, r, if !fits then Unwinding else if s.requests[r].stage.mint then MintSpool else Routing)
    case SpoolMint(r, staged) => Move(s, r, if staged then Routing else Unwinding)
    case Authenticate(r, proven) => Move(s, r, if proven then WantsAdmission else Unwinding)
    case ServeUngoverned(r) => Move(s, r, Handling)
    case Admit(r, watch) => Acquire(s, r, Admissions, if watch then WantsObservation else GovernedSpool)
    case Observe(r) => Acquire(s, r, Observations, GovernedSpool)
    case SpoolBody(r, staged) => Move(s, r, if staged then Handling else Unwinding)
    case Return(r) => Move(s, r, Unwinding)
    case Panic(r) => Move(s, r, Unwinding)
    case RunDeferred(r) => if s.requests[r].deferred == [] then Move(s, r, Ended) else Release(s, r)
    case Accept(c) => Connect(s, c)
    case CloseConnection(c) => Disconnect(s, c)
  }

  predicate Legal(s: State, run: seq<Action>)
    decreases |run|
  {
    run == [] || (Enabled(s, run[0]) && Legal(Apply(s, run[0]), run[1..]))
  }

  function Exec(s: State, run: seq<Action>): State
    requires Legal(s, run)
    decreases |run|
  {
    if run == [] then s else Exec(Apply(s, run[0]), run[1..])
  }

  function Start(l: Limits): State {
    State(l, map[], map[], 0, map[])
  }

  // ---------------------------------------------------------------------------------------------
  // Conservation
  // ---------------------------------------------------------------------------------------------

  /** The requests in flight that hold a slot of the pool. */
  function Holders(s: State, pool: Pool): set<Id> {
    set r | r in s.requests && pool in s.requests[r].deferred
  }

  function OpenConnections(s: State): set<Id> {
    set c | c in s.open && s.open[c]
  }

  /** Slots are taken in one order, each at most once, and an observation slot only directly after an
      admission slot. */
  predicate Nested(deferred: seq<Pool>) {
    || deferred == []
    || deferred == [Requests]
    || deferred == [Requests, Mints]
    || deferred == [Requests, Admissions]
    || deferred == [Requests, Mints, Admissions]
    || deferred == [Requests, Admissions, Observations]
    || deferred == [Requests, Mints, Admissions, Observations]
  }

  predicate BeforeAdmission(deferred: seq<Pool>) {
    deferred == [Requests] || deferred == [Requests, Mints]
  }

  predicate UnderAdmission(deferred: seq<Pool>) {
    deferred == [Requests, Admissions] || deferred == [Requests, Mints, Admissions]
  }

  /** What a stage's code has deferred before reaching it. */
  predicate StageFits(q: Request) {
    match q.stage
    case WantsMint => q.deferred == [Requests]
    case RateCheck => q.deferred == [Requests, Mints]
    case BodyCheck(_) => BeforeAdmission(q.deferred)
    case MintSpool => BeforeAdmission(q.deferred)
    case Routing => BeforeAdmission(q.deferred)
    case WantsAdmission => BeforeAdmission(q.deferred)
    case WantsObservation => UnderAdmission(q.deferred)
    case GovernedSpool => q.deferred != []
    case Handling => q.deferred != []
    case Unwinding => true
    case Ended => q.deferred == []
  }

  /** Each pool's channel holds one token per holder, and no more than its capacity. */
  predicate Counted(s: State) {
    forall pool: Pool :: Occupied(s, pool) == |Holders(s, pool)| <= LimitOf(s.limits, pool)
  }

  predicate Ordered(s: State) {
    forall r <- s.requests :: Nested(s.requests[r].deferred) && StageFits(s.requests[r])
  }

  predicate Connected(s: State) {
    s.connected == |OpenConnections(s)| <= s.limits.connections
  }

  predicate Inv(s: State) {
    Counted(s) && Ordered(s) && Connected(s)
  }

  /** Changing a request's stage only, or adding a request that holds nothing. */
  lemma StageChangeKeepsInv(s: State, r: Id, q: Request)
    requires Inv(s) && StageFits(q) && Nested(q.deferred)
    requires q.deferred == if r in s.requests then s.requests[r].deferred else []
    ensures Inv(s.(requests := s.requests[r := q]))
  {
    var v := s.(requests := s.requests[r := q]);
    forall pool: Pool ensures Holders(v, pool) == Holders(s, pool) {
    }
    assert OpenConnections(v) == OpenConnections(s);
  }

  lemma AcquireHolders(s: State, r: Id, pool: Pool, next: Stage, other: Pool)
    requires r in s.requests && Occupied(s, pool) < LimitOf(s.limits, pool)
    ensures Holders(Acquire(s, r, pool, next), other)
            == if other == pool then Holders(s, other) + {r} else Holders(s, other)
  {
    var v := Acquire(s, r, pool, next);
    assert v.requests.Keys == s.requests.Keys;
    assert v.requests[r].deferred == s.requests[r].deferred + [pool];
  }

  lemma AcquireKeepsCount(s: State, r: Id, pool: Pool, next: Stage)
    requires Counted(s) && r in s.requests && pool !in s.requests[r].deferred
    requires Occupied(s, pool) < LimitOf(s.limits, pool)
    ensures Counted(Acquire(s, r, pool, next))
  {
    var v := Acquire(s, r, pool, next);
    forall other: Pool ensures Occupied(v, other) == |Holders(v, other)| <= LimitOf(s.limits, other) {
      AcquireHolders(s, r, pool, next, other);
      assert r !in Holders(s, pool);
    }
  }

  lemma AcquireKeepsInv(s: State, r: Id, pool: Pool, next: Stage)
    requires Inv(s) && r in s.requests && pool !in s.requests[r].deferred
    requires var deferred := s.requests[r].deferred + [pool]; Nested(deferred) && StageFits(Request(next, deferred))
    ensures Inv(Acquire(s, r, pool, next))
  {
    if Occupied(s, pool) < LimitOf(s.limits, pool) {
      AcquireKeepsCount(s, r, pool, next);
      assert OpenConnections(Acquire(s, r, pool, next)) == OpenConnections(s);
    } else {
      StageChangeKeepsInv(s, r, s.requests[r].(stage := Unwinding));
    }
  }

  lemma LastIsOnly(deferred: seq<Pool>)
    requires Nested(deferred) && deferred != []
    ensures var rest, last := deferred[..|deferred| - 1], deferred[|deferred| - 1];
            Nested(rest) && last !in rest && forall pool: Pool :: pool in deferred <==> pool == last || pool in rest
  {
    var rest, last := deferred[..|deferred| - 1], deferred[|deferred| - 1];
    assert deferred == rest + [last];
    assert |deferred| == 1 ==> rest == [];
    assert |deferred| == 2 ==> rest == [Requests];
    assert |deferred| == 3 ==> rest == [Requests, Mints] || rest == [Requests, Admissions];
    assert |deferred| == 4 ==> rest == [Requests, Mints, Admissions];
  }

  lemma ReleaseHolders(s: State, r: Id, other: Pool)
    requires r in s.requests && s.requests[r].deferred != [] && Nested(s.requests[r].deferred)
    ensures var deferred := s.requests[r].deferred;
            var pool := deferred[|deferred| - 1];
            Holders(Release(s, r), other) == if other == pool then Holders(s, other) - {r} else Holders(s, other)
  {
    LastIsOnly(s.requests[r].deferred);
    assert Release(s, r).requests.Keys == s.requests.Keys;
  }

  lemma ReleaseKeepsCount(s: State, r: Id)
    requires Counted(s) && r in s.requests && s.requests[r].deferred != [] && Nested(s.requests[r].deferred)
    ensures Counted(Release(s, r))
  {
    var v := Release(s, r);
    var pool := s.requests[r].deferred[|s.requests[r].deferred| - 1];
    assert r in Holders(s, pool);
    forall other: Pool ensures Occupied(v, other) == |Holders(v, other)| <= LimitOf(s.limits, other) {
      ReleaseHolders(s, r, other);
    }
  }

  lemma ReleaseKeepsInv(s: State, r: Id)
    requires Inv(s) && At(s, r, Unwinding) && s.requests[r].deferred != []
    ensures Inv(Release(s, r))
  {
    ReleaseKeepsCount(s, r);
    LastIsOnly(s.requests[r].deferred);
    assert OpenConnections(Release(s, r)) == OpenConnections(s);
  }

  /** Connections and requests do not touch each other's counts. */
  lemma SameRequestsKeepInv(s: State, v: State)
    requires Inv(s) && v.limits == s.limits && v.occupied == s.occupied && v.requests == s.requests && Connected(v)
    ensures Inv(v)
  {
    assert forall pool: Pool :: Holders(v, pool) == Holders(s, pool);
  }

  lemma ConnectKeepsInv(s: State, c: Id)
    requires Inv(s) && c !in s.open
    ensures Inv(Connect(s, c))
  {
    if s.connected < s.limits.connections {
      assert OpenConnections(Connect(s, c)) == OpenConnections(s) + {c};
    }
    SameRequestsKeepInv(s, Connect(s, c));
  }

  lemma DisconnectKeepsInv(s: State, c: Id)
    requires Inv(s) && c in s.open
    ensures Inv(Disconnect(s, c))
  {
    if s.open[c] {
      assert c in OpenConnections(s);
    }
    assert OpenConnections(Disconnect(s, c)) == OpenConnections(s) - {c};
    SameRequestsKeepInv(s, Disconnect(s, c));
  }

  lemma MoveKeepsInv(s: State, r: Id, stage: Stage)
    requires Inv(s) && r in s.requests && StageFits(s.requests[r].(stage := stage))
    ensures Inv(Move(s, r, stage))
  {
    StageChangeKeepsInv(s, r, s.requests[r].(stage := stage));
  }

  lemma ArriveKeepsInv(s: State, r: Id, mint: bool)
    requires Inv(s) && r !in s.requests
    ensures Inv(Apply(s, Arrive(r, mint)))
  {
    var arrived := s.(requests := s.requests[r := Request(Unwinding, [])]);
    StageChangeKeepsInv(s, r, Request(Unwinding, []));
    AcquireKeepsInv(arrived, r, Requests, if mint then WantsMint else BodyCheck(false));
  }

  /** A step that only changes the stage of a request. */
  predicate Moves(a: Action) {
    !(a.Arrive? || a.TakeMint? || a.Admit? || a.Observe? || a.RunDeferred? || a.Accept? || a.CloseConnection?)
  }

  lemma MoveStepKeepsInv(s: State, a: Action)
    requires Inv(s) && Enabled(s, a) && Moves(a)
    ensures Inv(Apply(s, a))
  {
    MoveKeepsInv(s, a.r, Apply(s, a).requests[a.r].stage);
  }

  lemma StepKeepsInv(s: State, a: Action)
    requires Inv(s) && Enabled(s, a)
    ensures Inv(Apply(s, a))
  {
    match a
    case Arrive(r, mint) => ArriveKeepsInv(s, r, mint);
    case TakeMint(r) => AcquireKeepsInv(s, r, Mints, RateCheck);
    case Admit(r, watch) => AcquireKeepsInv(s, r, Admissions, if watch then WantsObservation else GovernedSpool);
    case Observe(r) => AcquireKeepsInv(s, r, Observations, GovernedSpool);
    case RunDeferred(r) =>
      if s.requests[r].deferred == [] {
        MoveKeepsInv(s, r, Ended);
      } else {
        ReleaseKeepsInv(s, r);
      }
    case Accept(c) => ConnectKeepsInv(s, c);
    case CloseConnection(c) => DisconnectKeepsInv(s, c);
    case _ => MoveStepKeepsInv(s, a);
  }

  lemma {:induction false} RunKeepsInv(s: State, run: seq<Action>)
    requires Inv(s) && Legal(s, run)
    ensures Inv(Exec(s, run)) && Exec(s, run).limits == s.limits
    decreases |run|
  {
    if run != [] {
      StepKeepsInv(s, run[0]);
      RunKeepsInv(Apply(s, run[0]), run[1..]);
    }
  }

  lemma StartEstablishesInv(l: Limits)
    ensures Inv(Start(l))
  {
    assert forall pool: Pool :: Holders(Start(l), pool) == {};
    assert OpenConnections(Start(l)) == {};
  }

  /** Whatever the interleaving, every pool's channel holds exactly one token per request in flight that has a
      slot, and no pool or connection count exceeds its limit. */
  lemma SlotsAreConserved(l: Limits, run: seq<Action>)
    requires Legal(Start(l), run)
    ensures var s := Exec(Start(l), run);
            && (forall pool: Pool :: Occupied(s, pool) == |Holders(s, pool)| <= LimitOf(l, pool))
            && s.connected == |OpenConnections(s)| <= l.connections
  {
    StartEstablishesInv(l);
    RunKeepsInv(Start(l), run);
  }

  /** A request is turned away at a pool exactly when as many requests in flight as the limit allows have its
      slots: no released slot is ever lost, and none is handed out twice. */
  lemma TurnedAwayExactlyWhenAllSlotsAreHeld(l: Limits, run: seq<Action>, r: Id, pool: Pool, next: Stage)
    requires Legal(Start(l), run) && r in Exec(Start(l), run).requests && !next.Unwinding?
    ensures var s := Exec(Start(l), run);
            Acquire(s, r, pool, next).requests[r].stage.Unwinding? <==> |Holders(s, pool)| == LimitOf(l, pool)
  {
    SlotsAreConserved(l, run);
    StartEstablishesInv(l);
    RunKeepsInv(Start(l), run);
    assert Occupied(Exec(Start(l), run), pool) == |Holders(Exec(Start(l), run), pool)|;
  }

  /** An observation slot is held only together with an admission slot, and every slot only by a request that
      was counted on arrival. */
  lemma HoldersNest(l: Limits, run: seq<Action>)
    requires Legal(Start(l), run)
    ensures var s := Exec(Start(l), run);
            Holders(s, Observations) <= Holders(s, Admissions) <= Holders(s, Requests)
            && Holders(s, Mints) <= Holders(s, Requests)
  {
    StartEstablishesInv(l);
    RunKeepsInv(Start(l), run);
  }

  /** Whatever stage it has reached, a request that turns back runs all its releases and ends, by its own steps. */
  lemma {:induction false} UnwindingEnds(s: State, r: Id) returns (run: seq<Action>)
    requires At(s, r, Unwinding)
    ensures |run| == |s.requests[r].deferred| + 1 && (forall k | 0 <= k < |run| :: run[k] == RunDeferred(r))
    ensures Legal(s, run) && At(Exec(s, run), r, Ended)
    decreases |s.requests[r].deferred|
  {
    var v := Apply(s, RunDeferred(r));
    if s.requests[r].deferred == [] {
      run := [RunDeferred(r)];
      assert run[1..] == [] && Legal(v, []) && Exec(v, []) == v;
    } else {
      var rest := UnwindingEnds(v, r);
      run := [RunDeferred(r)] + rest;
      assert run[1..] == rest;
    }
  }

  /** Once every request has ended and every connection was closed at least once, all pools are empty. */
  lemma AllSlotsReturn(l: Limits, run: seq<Action>)
    requires Legal(Start(l), run)
    requires var s := Exec(Start(l), run);
             (forall r <- s.requests :: s.requests[r].stage.Ended?) && (forall c <- s.open :: !s.open[c])
    ensures var s := Exec(Start(l), run);
            (forall pool: Pool :: Occupied(s, pool) == 0) && s.connected == 0
  {
    StartEstablishesInv(l);
    RunKeepsInv(Start(l), run);
    var s := Exec(Start(l), run);
    assert forall pool: Pool :: Holders(s, pool) == {};
    assert OpenConnections(s) == {};
  }

  // ---------------------------------------------------------------------------------------------
  // What a request has passed
  // ---------------------------------------------------------------------------------------------

  /** Of the stages on the way in, these come after the mint's rate check, the body check, and the spool of a mint. */
  predicate PastRate(stage: Stage) {
    stage.BodyCheck? || PastBody(stage)
  }

  predicate PastBody(stage: Stage) {
    stage.MintSpool? || PastMintSpool(stage)
  }

  predicate PastMintSpool(stage: Stage) {
    stage.Routing? || stage.WantsAdmission? || stage.WantsObservation? || stage.GovernedSpool? || stage.Handling?
  }

  /** A request that is served on a governed route, or about to be. */
  predicate Governed(run: seq<Action>, r: Id, stage: Stage) {
    stage.GovernedSpool? || (stage.Handling? && ServeUngoverned(r) !in run)
  }

  /** What must have happened before a request stands where it does, and the slots that it then has. */
  predicate Passed(run: seq<Action>, r: Id, q: Request) {
    var mint := Arrive(r, true) in run;
    && (PastRate(q.stage) ==>
          (mint ==> CheckRate(r, true) in run) && Requests in q.deferred && (Mints in q.deferred <==> mint))
    && (q.stage.BodyCheck? ==> q.stage.mint == mint)
    && (q.stage.MintSpool? ==> mint)
    && (PastBody(q.stage) ==> CheckBody(r, true) in run)
    && (PastMintSpool(q.stage) && mint ==> SpoolMint(r, true) in run)
    && (q.stage.WantsMint? || q.stage.RateCheck? ==> mint)
    && (q.stage.WantsAdmission? || q.stage.WantsObservation? ==> Authenticate(r, true) in run)
    && (q.stage.WantsObservation? ==> Admit(r, true) in run && Admissions in q.deferred && Observations !in q.deferred)
    && (Governed(run, r, q.stage) ==>
          && Authenticate(r, true) in run && Admissions in q.deferred
          && (Observations in q.deferred <==> Admit(r, true) in run))
    && (q.stage.Handling? && ServeUngoverned(r) !in run ==> SpoolBody(r, true) in run)
    && (q.stage.Handling? && ServeUngoverned(r) in run ==> Admissions !in q.deferred)
    && (Admissions in q.deferred ==> Authenticate(r, true) in run)
    && (Observations in q.deferred ==> Admit(r, true) in run)
    && (Unserved(q.stage) ==> ServeUngoverned(r) !in run)
    && (Unadmitted(q.stage) ==> Admit(r, true) !in run)
  }

  /** Stages in which the route, or the admission, is still to come. */
  predicate Unserved(stage: Stage) {
    Unadmitted(stage) || stage.WantsObservation? || stage.GovernedSpool?
  }

  predicate Unadmitted(stage: Stage) {
    || stage.WantsMint? || stage.RateCheck? || stage.BodyCheck? || stage.MintSpool?
    || stage.Routing? || stage.WantsAdmission?
  }

  /** Nothing has happened to a request that has not arrived. */
  predicate Unheard(run: seq<Action>, s: State, r: Id) {
    r !in s.requests ==> forall a <- run :: !Concerns(a, r)
  }

  predicate Concerns(a: Action, r: Id) {
    !a.Accept? && !a.CloseConnection? && a.r == r
  }

  ghost predicate AllPassed(run: seq<Action>, s: State) {
    forall r: Id :: Unheard(run, s, r) && (r in s.requests ==> Passed(run, r, s.requests[r]))
  }

  lemma OthersPass(run: seq<Action>, a: Action, r: Id, q: Request)
    requires Passed(run, r, q) && !Concerns(a, r)
    ensures Passed(run + [a], r, q)
  {
  }

  lemma ArrivalPasses(run: seq<Action>, s: State, r: Id, mint: bool)
    requires r !in s.requests && Unheard(run, s, r)
    ensures var v := Apply(s, Arrive(r, mint)); r in v.requests && Passed(run + [Arrive(r, mint)], r, v.requests[r])
  {
  }

  lemma MintingPasses(run: seq<Action>, s: State, a: Action)
    requires Inv(s) && Enabled(s, a) && a.TakeMint? && Passed(run, a.r, s.requests[a.r])
    ensures a.r in Apply(s, a).requests && Passed(run + [a], a.r, Apply(s, a).requests[a.r])
  {
  }

  lemma AdmissionPasses(run: seq<Action>, s: State, a: Action)
    requires Inv(s) && Enabled(s, a) && a.Admit? && Passed(run, a.r, s.requests[a.r])
    ensures a.r in Apply(s, a).requests && Passed(run + [a], a.r, Apply(s, a).requests[a.r])
  {
  }

  lemma ObservationPasses(run: seq<Action>, s: State, a: Action)
    requires Inv(s) && Enabled(s, a) && a.Observe? && Passed(run, a.r, s.requests[a.r])
    ensures a.r in Apply(s, a).requests && Passed(run + [a], a.r, Apply(s, a).requests[a.r])
  {
  }

  lemma ChecksPass(run: seq<Action>, s: State, a: Action)
    requires Inv(s) && Enabled(s, a) && (a.CheckRate? || a.CheckBody? || a.SpoolMint?)
    requires Passed(run, a.r, s.requests[a.r])
    ensures a.r in Apply(s, a).requests && Passed(run + [a], a.r, Apply(s, a).requests[a.r])
  {
  }

  lemma RoutingPasses(run: seq<Action>, s: State, a: Action)
    requires Inv(s) && Enabled(s, a) && (a.Authenticate? || a.ServeUngoverned?) && Passed(run, a.r, s.requests[a.r])
    ensures a.r in Apply(s, a).requests && Passed(run + [a], a.r, Apply(s, a).requests[a.r])
  {
  }

  lemma SpoolingPasses(run: seq<Action>, s: State, a: Action)
    requires Inv(s) && Enabled(s, a) && (a.SpoolBody? || a.Return? || a.Panic?) && Passed(run, a.r, s.requests[a.r])
    ensures a.r in Apply(s, a).requests && Passed(run + [a], a.r, Apply(s, a).requests[a.r])
  {
  }

  lemma UnwindingPasses(run: seq<Action>, s: State, r: Id)
    requires Inv(s) && Enabled(s, RunDeferred(r)) && Passed(run, r, s.requests[r])
    ensures var v := Apply(s, RunDeferred(r)); r in v.requests && Passed(run + [RunDeferred(r)], r, v.requests[r])
  {
  }

  lemma OwnStepPasses(run: seq<Action>, s: State, a: Action)
    requires Inv(s) && Enabled(s, a) && !a.Accept? && !a.CloseConnection? && Unheard(run, s, a.r)
    requires a.r in s.requests ==> Passed(run, a.r, s.requests[a.r])
    ensures a.r in Apply(s, a).requests && Passed(run + [a], a.r, Apply(s, a).requests[a.r])
  {
    match a
    case Arrive(r, mint) => ArrivalPasses(run, s, r, mint);
    case TakeMint(_) => MintingPasses(run, s, a);
    case Admit(_, _) => AdmissionPasses(run, s, a);
    case Observe(_) => ObservationPasses(run, s, a);
    case CheckRate(_, _) => ChecksPass(run, s, a);
    case CheckBody(_, _) => ChecksPass(run, s, a);
    case SpoolMint(_, _) => ChecksPass(run, s, a);
    case Authenticate(_, _) => RoutingPasses(run, s, a);
    case ServeUngoverned(_) => RoutingPasses(run, s, a);
    case RunDeferred(r) => UnwindingPasses(run, s, r);
    case _ => SpoolingPasses(run, s, a);
  }

  lemma StepKeepsPassed(run: seq<Action>, s: State, a: Action)
    requires Inv(s) && Enabled(s, a) && AllPassed(run, s)
    ensures AllPassed(run + [a], Apply(s, a))
  {
    var v := Apply(s, a);
    forall r: Id ensures Unheard(run + [a], v, r) && (r in v.requests ==> Passed(run + [a], r, v.requests[r])) {
      assert Unheard(run, s, r);
      if Concerns(a, r) {
        OwnStepPasses(run, s, a);
      } else {
        OtherStepPasses(run, s, a, r);
      }
    }
  }

  lemma OtherStepPasses(run: seq<Action>, s: State, a: Action, r: Id)
    requires Enabled(s, a) && !Concerns(a, r) && Unheard(run, s, r)
    requires r in s.requests ==> Passed(run, r, s.requests[r])
    ensures var v := Apply(s, a); Unheard(run + [a], v, r) && (r in v.requests ==> Passed(run + [a], r, v.requests[r]))
  {
    assert r in Apply(s, a).requests <==> r in s.requests;
    if r in s.requests {
      OthersPass(run, a, r, s.requests[r]);
    }
  }

  lemma {:induction false} OneMore(s: State, run: seq<Action>, a: Action)
    requires Legal(s, run + [a])
    ensures Legal(s, run) && Enabled(Exec(s, run), a) && Exec(s, run + [a]) == Apply(Exec(s, run), a)
    decreases |run|
  {
    if run == [] {
      assert ([a])[1..] == [] && [] + [a] == [a];
    } else {
      assert (run + [a])[1..] == run[1..] + [a];
      OneMore(Apply(s, run[0]), run[1..], a);
    }
  }

  lemma {:induction false} RunPasses(l: Limits, run: seq<Action>)
    requires Legal(Start(l), run)
    ensures AllPassed(run, Exec(Start(l), run))
    decreases |run|
  {
    if run != [] {
      var n := |run| - 1;
      Snoc(run);
      OneMore(Start(l), run[..n], run[n]);
      RunPasses(l, run[..n]);
      StartEstablishesInv(l);
      RunKeepsInv(Start(l), run[..n]);
      StepKeepsPassed(run[..n], Exec(Start(l), run[..n]), run[n]);
    }
  }

  /** Whatever the interleaving: a governed request that is staged or served had its token proven and has an admission
      slot, and an observation slot exactly when it is a watch; no request whose token was not proven has either; a mint
      past the rate check was allowed and has a mint slot; and nothing is served whose body was refused. */
  lemma ServedOnlyAsAdmitted(l: Limits, run: seq<Action>, r: Id)
    requires Legal(Start(l), run) && r in Exec(Start(l), run).requests
    ensures var q := Exec(Start(l), run).requests[r];
            var mint := Arrive(r, true) in run;
            && (Governed(run, r, q.stage) ==>
                  && Authenticate(r, true) in run && Admissions in q.deferred
                  && (Observations in q.deferred <==> Admit(r, true) in run))
            && (Admissions in q.deferred || Observations in q.deferred ==> Authenticate(r, true) in run)
            && (PastRate(q.stage) ==> (mint ==> CheckRate(r, true) in run) && (Mints in q.deferred <==> mint))
            && (q.stage.Handling? ==>
                  && CheckBody(r, true) in run && (mint ==> SpoolMint(r, true) in run)
                  && (ServeUngoverned(r) in run || SpoolBody(r, true) in run))
  {
    RunPasses(l, run);
    assert Passed(run, r, Exec(Start(l), run).requests[r]);
    StartEstablishesInv(l);
    RunKeepsInv(Start(l), run);
  }

  // ---------------------------------------------------------------------------------------------
  // A request that nothing refuses
  // ---------------------------------------------------------------------------------------------

  /** A step on the way in, of this request, that passes. */
  predicate Passing(a: Action, r: Id) {
    match a
    case Arrive(q, _) => q == r
    case TakeMint(q) => q == r
    case CheckRate(q, allowed) => q == r && allowed
    case CheckBody(q, fits) => q == r && fits
    case SpoolMint(q, staged) => q == r && staged
    case Authenticate(q, proven) => q == r && proven
    case ServeUngoverned(q) => q == r
    case Admit(q, _) => q == r
    case Observe(q) => q == r
    case SpoolBody(q, staged) => q == r && staged
    case _ => false
  }

  /** Passing steps lead to the handler, with these slots. */
  ghost predicate Served(s: State, r: Id, slots: seq<Pool>) {
    exists run :: Legal(s, run) && (forall a <- run :: Passing(a, r))
                  && r in Exec(s, run).requests && Exec(s, run).requests[r] == Request(Handling, slots)
  }

  lemma ServedNow(s: State, r: Id, slots: seq<Pool>)
    requires r in s.requests && s.requests[r] == Request(Handling, slots)
    ensures Served(s, r, slots)
  {
    assert Legal(s, []) && Exec(s, []) == s;
  }

  lemma ServedBefore(s: State, a: Action, r: Id, slots: seq<Pool>)
    requires Enabled(s, a) && Passing(a, r) && Served(Apply(s, a), r, slots)
    ensures Served(s, r, slots)
  {
    var run :| Legal(Apply(s, a), run) && (forall b <- run :: Passing(b, r))
               && r in Exec(Apply(s, a), run).requests
               && Exec(Apply(s, a), run).requests[r] == Request(Handling, slots);
    assert ([a] + run)[1..] == run;
    assert Exec(s, [a] + run) == Exec(Apply(s, a), run);
  }

  predicate Free(s: State, pool: Pool) {
    Occupied(s, pool) < LimitOf(s.limits, pool)
  }

  lemma GovernedIsServed(s: State, r: Id, slots: seq<Pool>, watch: bool)
    requires r in s.requests && s.requests[r] == Request(Routing, slots)
    requires Free(s, Admissions) && (watch ==> Free(s, Observations))
    ensures Served(s, r, slots + [Admissions] + (if watch then [Observations] else []))
  {
    var all := slots + [Admissions] + (if watch then [Observations] else []);
    var s1 := Apply(s, Authenticate(r, true));
    var s2 := Apply(s1, Admit(r, watch));
    var s3 := if watch then Apply(s2, Observe(r)) else s2;
    assert s3.requests[r] == Request(GovernedSpool, all);
    ServedNow(Apply(s3, SpoolBody(r, true)), r, all);
    ServedBefore(s3, SpoolBody(r, true), r, all);
    if watch {
      ServedBefore(s2, Observe(r), r, all);
    }
    ServedBefore(s1, Admit(r, watch), r, all);
    ServedBefore(s, Authenticate(r, true), r, all);
  }

  /** The slots of a request that is served. */
  function SlotsOf(mint: bool, governed: bool, watch: bool): seq<Pool> {
    (if mint then [Requests, Mints] else [Requests])
    + (if governed then [Admissions] + (if watch then [Observations] else []) else [])
  }

  lemma RoutedIsServed(s: State, r: Id, mint: bool, governed: bool, watch: bool)
    requires r in s.requests && s.requests[r] == Request(Routing, if mint then [Requests, Mints] else [Requests])
    requires governed ==> Free(s, Admissions) && (watch ==> Free(s, Observations))
    ensures Served(s, r, SlotsOf(mint, governed, watch))
  {
    var slots := if mint then [Requests, Mints] else [Requests];
    if governed {
      GovernedIsServed(s, r, slots, watch);
      Regroup(slots, [Admissions], if watch then [Observations] else []);
    } else {
      assert slots + [] == slots;
      ServedNow(Apply(s, ServeUngoverned(r)), r, slots);
      ServedBefore(s, ServeUngoverned(r), r, slots);
    }
  }

  /** A new request that finds a free slot in every pool it needs, and whose checks all pass, reaches its handler with
      exactly those slots. */
  lemma ServedWhenAllPass(s: State, r: Id, mint: bool, governed: bool, watch: bool)
    requires r !in s.requests && Free(s, Requests) && (mint ==> Free(s, Mints))
    requires governed ==> Free(s, Admissions) && (watch ==> Free(s, Observations))
    ensures Served(s, r, SlotsOf(mint, governed, watch))
  {
    var slots := SlotsOf(mint, governed, watch);
    var s1 := Apply(s, Arrive(r, mint));
    if mint {
      var s2 := Apply(s1, TakeMint(r));
      assert s2.requests[r].deferred == [Requests, Mints];
      var s3 := Apply(s2, CheckRate(r, true));
      var s4 := Apply(s3, CheckBody(r, true));
      RoutedIsServed(Apply(s4, SpoolMint(r, true)), r, mint, governed, watch);
      ServedBefore(s4, SpoolMint(r, true), r, slots);
      ServedBefore(s3, CheckBody(r, true), r, slots);
      ServedBefore(s2, CheckRate(r, true), r, slots);
      ServedBefore(s1, TakeMint(r), r, slots);
    } else {
      RoutedIsServed(Apply(s1, CheckBody(r, true)), r, mint, governed, watch);
      ServedBefore(s1, CheckBody(r, true), r, slots);
    }
    ServedBefore(s, Arrive(r, mint), r, slots);
  }
}
