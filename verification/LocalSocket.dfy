/** The pathname ownership protocol of cmd/stem/cmdservesocket.go.

    Any number of Stem processes of one principal compete for one pathname. Each system call that
    touches the pathname, the advisory lock or a socket is one action of one process, and actions of
    different processes interleave freely. A process may crash before any of its actions; the kernel
    then drops its lock and its socket as two further actions, in either order. Inode numbers are
    reused as soon as nothing refers to them. */
module LocalSocket {
  import opened Options

  type Pid = nat
  type Inode = nat

  /** What lstat(2) reports for the configured pathname. `ours` is the owner test on the inode. */
  datatype PathObject =
    | Absent
    | SocketFile(ino: Inode, ours: bool)
    | OtherFile

  /** A process's socket descriptor: bind(2) names it, listen(2) makes it answer dials. */
  datatype Socket = Socket(ino: Inode, listening: bool)

  /** Where a process stands in openLocalSocket or Close. The removal of the name is shared by Close, of a socket that
      was opened, and by an open whose chmod failed; `closing` and `owned` tell which. */
  datatype Phase =
    | Closed
    | HoldingLock
    | Probing(seen: Inode, seenOurs: bool)
    | RemovingStale
    | Binding
    | Bound
    | Listening
    | Identified(id: Inode)
    | Serving(id: Inode)
    | Unbinding(closing: bool, id: Inode)
    | Confirming(closing: bool, id: Inode)
    | Unlinking(closing: bool, id: Inode)
    | Releasing(owned: bool, id: Inode, clean: bool)
    | Released(id: Inode)
    | Dying

  datatype World = World(
    path: PathObject,
    lock: Option<Pid>,
    sockets: map<Pid, Socket>,
    phases: map<Pid, Phase>,
    foreign: set<Inode>)   // sockets that programs other than a Stem still listen on

  datatype Action =
    | TryLock(p: Pid)
    | Inspect(p: Pid)
    | Dial(p: Pid)
    | RemoveStale(p: Pid)
    | Bind(p: Pid, ino: Inode)
    | Listen(p: Pid)
    | Identify(p: Pid)
    | Chmod(p: Pid)
    | Fault(p: Pid)
    | BeginClose(p: Pid)
    | CloseAgain(p: Pid)
    | CompareIdentity(p: Pid)
    | DialOwn(p: Pid)
    | UnlinkOwn(p: Pid)
    | Release(p: Pid)
    | Crash(p: Pid)
    | KernelDropsLock(p: Pid)
    | KernelClosesSocket(p: Pid)
    | Reap(p: Pid)
    | ForeignExit(p: Pid, ino: Inode)

  function PhaseOf(w: World, p: Pid): Phase {
    if p in w.phases then w.phases[p] else Closed
  }

  function At(w: World, p: Pid, phase: Phase): World {
    w.(phases := w.phases[p := phase])
  }

  predicate Live(w: World, ino: Inode) {
    ino in w.foreign || exists q <- w.sockets :: w.sockets[q] == Socket(ino, true)
  }

  /** Dialling the pathname reaches a listener. */
  predicate PathLive(w: World) {
    w.path.SocketFile? && Live(w, w.path.ino)
  }

  /** The kernel may hand out `ino`: no name and no open descriptor refers to it. */
  predicate Unused(w: World, ino: Inode) {
    && !(w.path.SocketFile? && w.path.ino == ino)
    && ino !in w.foreign
    && forall q <- w.sockets :: w.sockets[q].ino != ino
  }

  function CloseSocket(w: World, p: Pid): World {
    w.(sockets := w.sockets - {p})
  }

  predicate Enabled(w: World, a: Action) {
    var phase := PhaseOf(w, a.p);
    match a
    case TryLock(_) => phase.Closed? || phase.Released?
    case Inspect(_) => phase.HoldingLock?
    case Dial(_) => phase.Probing?
    case RemoveStale(_) => phase.RemovingStale?
    case Bind(_, ino) => phase.Binding? && Unused(w, ino)
    case Listen(_) => phase.Bound?
    case Identify(_) => phase.Listening?
    case Chmod(_) => phase.Identified?
    case Fault(_) =>
      phase.HoldingLock? || phase.Probing? || phase.RemovingStale? || phase.Binding? || phase.Bound?
      || phase.Listening? || phase.Identified? || phase.Unbinding? || phase.Confirming? || phase.Unlinking?
    case BeginClose(_) => phase.Serving?
    case CloseAgain(_) => phase.Released?
    case CompareIdentity(_) => phase.Unbinding?
    case DialOwn(_) => phase.Confirming?
    case UnlinkOwn(_) => phase.Unlinking?
    case Release(_) => phase.Releasing?
    case Crash(_) => !phase.Dying?
    case KernelDropsLock(p) => phase.Dying? && w.lock == Some(p)
    case KernelClosesSocket(p) => phase.Dying? && p in w.sockets
    case Reap(p) => phase.Dying? && w.lock != Some(p) && p !in w.sockets
    case ForeignExit(_, ino) => ino in w.foreign
  }

  /** Abandoning an open: the error return of openLocalSocket releases the lock. */
  const GiveUp: Phase := Releasing(false, 0, false)

  function Apply(w: World, a: Action): World
    requires Enabled(w, a)
  {
    var p, phase := a.p, PhaseOf(w, a.p);
    match a
    case TryLock(_) =>
      if w.lock.None? then At(w, p, HoldingLock).(lock := Some(p)) else w
    case Inspect(_) =>
      At(w, p, match w.path
               case Absent => Binding
               case SocketFile(ino, ours) => Probing(ino, ours)
               case OtherFile => GiveUp)
    case Dial(_) =>
      At(w, p, if PathLive(w) || w.path.Absent? || !phase.seenOurs then GiveUp else RemovingStale)
    case RemoveStale(_) =>
      if w.path.Absent? then At(w, p, GiveUp) else At(w, p, Binding).(path := Absent)
    case Bind(_, ino) =>
      if w.path.Absent? then
        At(w, p, Bound).(path := SocketFile(ino, true), sockets := w.sockets[p := Socket(ino, false)])
      else
        At(w, p, GiveUp)
    case Listen(_) =>
      if p in w.sockets then At(w, p, Listening).(sockets := w.sockets[p := w.sockets[p].(listening := true)])
      else At(w, p, GiveUp)
    case Identify(_) =>
      if w.path.SocketFile? then At(w, p, Identified(w.path.ino)) else CloseSocket(At(w, p, GiveUp), p)
    case Chmod(_) => At(w, p, Serving(phase.id))
    case Fault(_) =>
      if phase.Identified? then CloseSocket(At(w, p, Unbinding(false, phase.id)), p)
      else if phase.Confirming? then At(w, p, Unlinking(phase.closing, phase.id))
      else if phase.Unbinding? || phase.Unlinking? then At(w, p, Releasing(phase.closing, phase.id, false))
      else CloseSocket(At(w, p, GiveUp), p)
    case BeginClose(_) => CloseSocket(At(w, p, Unbinding(true, phase.id)), p)
    case CloseAgain(_) => At(w, p, Unbinding(true, phase.id))
    case CompareIdentity(_) =>
      At(w, p, match w.path
               case Absent => Releasing(phase.closing, phase.id, true)
               case SocketFile(ino, _) =>
                 if ino == phase.id then Confirming(phase.closing, phase.id)
                 else Releasing(phase.closing, phase.id, false)
               case OtherFile => Releasing(phase.closing, phase.id, false))
    case DialOwn(_) =>
      At(w, p, if PathLive(w) then Releasing(phase.closing, phase.id, false) else Unlinking(phase.closing, phase.id))
    case UnlinkOwn(_) => At(w, p, Releasing(phase.closing, phase.id, true)).(path := Absent)
    case Release(_) =>
      var freed := if w.lock == Some(p) then w.(lock := None) else w;
      At(freed, p, if phase.owned then Released(phase.id) else Closed)
    case Crash(_) => At(w, p, Dying)
    case KernelDropsLock(_) => w.(lock := None)
    case KernelClosesSocket(_) => CloseSocket(w, p)
    case Reap(_) => At(w, p, Closed)
    case ForeignExit(_, ino) => w.(foreign := w.foreign - {ino})
  }

  // ---------------------------------------------------------------------------------------------
  // Runs
  // ---------------------------------------------------------------------------------------------

  /** Before the first Stem starts, the pathname may hold anything and other programs may be listening. */
  predicate Init(w: World) {
    w.lock.None? && w.sockets == map[] && w.phases == map[]
  }

  predicate Legal(w: World, run: seq<Action>)
    decreases |run|
  {
    run == [] || (Enabled(w, run[0]) && Legal(Apply(w, run[0]), run[1..]))
  }

  function Exec(w: World, run: seq<Action>): World
    requires Legal(w, run)
    decreases |run|
  {
    if run == [] then w else Exec(Apply(w, run[0]), run[1..])
  }

  /** Close is called at most once on each socket that openLocalSocket returned. */
  predicate ClosedOnce(run: seq<Action>) {
    forall a <- run :: !a.CloseAgain?
  }

  // ---------------------------------------------------------------------------------------------
  // Safety
  // ---------------------------------------------------------------------------------------------

  /** At most one Stem answers dials, and the one that does is reachable through the pathname. */
  predicate SingleListener(w: World) {
    && (forall p <- w.sockets, q <- w.sockets :: w.sockets[p].listening && w.sockets[q].listening ==> p == q)
    && (forall p <- w.sockets :: w.sockets[p].listening ==> w.path == SocketFile(w.sockets[p].ino, true))
  }

  /** The pathname names a socket that some process other than p listens on, or that a running Stem
      other than p has just bound. */
  predicate NamesOthersSocket(w: World, p: Pid) {
    && w.path.SocketFile?
    && (|| w.path.ino in w.foreign
        || exists q <- w.sockets ::
             q != p && w.sockets[q].ino == w.path.ino && (w.sockets[q].listening || PhaseOf(w, q) != Dying))
  }

  predicate IsUnlink(a: Action) {
    a.RemoveStale? || a.UnlinkOwn?
  }

  /** What the protocol promises about performing `a` in `w`. */
  predicate SafeStep(w: World, a: Action)
    requires Enabled(w, a)
  {
    && SingleListener(Apply(w, a))
    && (IsUnlink(a) ==> !NamesOthersSocket(w, a.p))
    // A Close that met no error has left nothing at the pathname when it gives up the lock.
    && (a.Release? && PhaseOf(w, a.p).clean ==> w.path == Absent)
  }

  predicate SafeRun(w: World, run: seq<Action>)
    requires Legal(w, run)
    decreases |run|
  {
    run == [] || (SafeStep(w, run[0]) && SafeRun(Apply(w, run[0]), run[1..]))
  }

  /** Phases in which a process relies on the lock. */
  predicate NeedsLock(phase: Phase) {
    !(phase.Closed? || phase.Released? || phase.Dying?)
  }

  /** What a process may rely on in each phase. */
  predicate PhaseFacts(w: World, p: Pid) {
    var phase := PhaseOf(w, p);
    var own := w.path.SocketFile? && p in w.sockets && w.path == SocketFile(w.sockets[p].ino, true);
    match phase
    case Closed => p !in w.sockets
    case HoldingLock => p !in w.sockets
    case Probing(seen, seenOurs) => p !in w.sockets && w.path == SocketFile(seen, seenOurs)
    case RemovingStale => p !in w.sockets && w.path.SocketFile? && w.path.ours && !PathLive(w)
    case Binding => p !in w.sockets && w.path == Absent
    case Bound => own && !w.sockets[p].listening
    case Listening => own && w.sockets[p].listening
    case Identified(id) => own && w.sockets[p] == Socket(id, true)
    case Serving(id) => own && w.sockets[p] == Socket(id, true)
    case Unbinding(_, id) => p !in w.sockets && w.path == SocketFile(id, true) && !PathLive(w)
    case Confirming(_, id) => p !in w.sockets && w.path == SocketFile(id, true) && !PathLive(w)
    case Unlinking(_, id) => p !in w.sockets && w.path == SocketFile(id, true) && !PathLive(w)
    case Releasing(_, _, clean) => p !in w.sockets && (clean ==> w.path == Absent)
    case Released(_) => p !in w.sockets
    case Dying => true
  }

  /** The lock and the phase of a process agree. */
  predicate LockFacts(w: World, q: Pid) {
    && (NeedsLock(PhaseOf(w, q)) ==> w.lock == Some(q))
    && (w.lock == Some(q) ==> NeedsLock(PhaseOf(w, q)) || PhaseOf(w, q).Dying?)
  }

  /** Sockets differ in their inodes, from each other and from those of other programs, and a listener has the name. */
  predicate SocketsApart(w: World) {
    && (forall p <- w.sockets, q <- w.sockets :: w.sockets[p].ino == w.sockets[q].ino ==> p == q)
    && (forall p <- w.sockets :: w.sockets[p].ino !in w.foreign)
    && (forall p <- w.sockets :: w.sockets[p].listening ==> w.path == SocketFile(w.sockets[p].ino, true))
  }

  ghost predicate Inv(w: World) {
    && (forall p: Pid :: NeedsLock(PhaseOf(w, p)) ==> w.lock == Some(p))
    && (forall p: Pid :: w.lock == Some(p) ==> NeedsLock(PhaseOf(w, p)) || PhaseOf(w, p).Dying?)
    && (forall p: Pid :: PhaseFacts(w, p))
    && SocketsApart(w)
  }

  lemma InitEstablishesInv(w: World)
    requires Init(w)
    ensures Inv(w)
  {
  }

  /** A listening descriptor makes dials to its inode succeed, in every phase of its owner. */
  lemma ListenersAnswer(w: World)
    ensures forall q <- w.sockets :: w.sockets[q].listening ==> Live(w, w.sockets[q].ino)
  {
    forall q <- w.sockets | w.sockets[q].listening ensures Live(w, w.sockets[q].ino) {
      assert w.sockets[q] == Socket(w.sockets[q].ino, true);
    }
  }

  lemma StepKeepsLock(w: World, a: Action, q: Pid)
    requires Enabled(w, a) && !a.CloseAgain? && LockFacts(w, q) && LockFacts(w, a.p)
    ensures LockFacts(Apply(w, a), q)
  {
    if q != a.p {
      assert PhaseOf(Apply(w, a), q) == PhaseOf(w, q);
    }
  }

  lemma StepKeepsSockets(w: World, a: Action)
    requires Inv(w) && Enabled(w, a) && !a.CloseAgain?
    ensures SocketsApart(Apply(w, a))
  {
    ListenersAnswer(w);
    assert PhaseFacts(w, a.p);
  }

  lemma StepKeepsOwnFacts(w: World, a: Action)
    requires Inv(w) && Enabled(w, a) && !a.CloseAgain?
    ensures PhaseFacts(Apply(w, a), a.p)
  {
    ListenersAnswer(w);
    assert PhaseFacts(w, a.p);
  }

  /** What q relies on is as it was. */
  predicate Untouched(w: World, v: World, q: Pid) {
    && PhaseOf(v, q) == PhaseOf(w, q) && (q in v.sockets <==> q in w.sockets)
    && (q in w.sockets ==> v.sockets[q] == w.sockets[q])
    && (NeedsLock(PhaseOf(w, q)) ==> v.path == w.path && (PathLive(v) ==> PathLive(w)))
  }

  /** Only the lock holder relies on the pathname, so no other process can disturb it. */
  lemma OthersAreUntouched(w: World, a: Action, q: Pid)
    requires Inv(w) && Enabled(w, a) && !a.CloseAgain? && q != a.p
    ensures Untouched(w, Apply(w, a), q)
  {
    assert PhaseFacts(w, a.p);
  }

  lemma FactsCarryOver(w: World, v: World, q: Pid)
    requires PhaseFacts(w, q) && Untouched(w, v, q)
    ensures PhaseFacts(v, q)
  {
  }

  lemma StepIsSafe(w: World, a: Action)
    requires Inv(w) && Enabled(w, a) && Inv(Apply(w, a))
    requires !a.CloseAgain?
    ensures SafeStep(w, a)
  {
    ListenersAnswer(w);
    assert PhaseFacts(w, a.p);
    // A socket owned by a running process implies the lock, which a.p holds when it unlinks.
    forall q <- w.sockets ensures q == a.p || PhaseOf(w, q).Dying? || w.lock == Some(q) {
      assert PhaseFacts(w, q);
    }
  }

  lemma StepKeepsLocks(w: World, a: Action)
    requires Inv(w) && Enabled(w, a) && !a.CloseAgain?
    ensures forall q: Pid :: LockFacts(Apply(w, a), q)
  {
    forall q: Pid ensures LockFacts(Apply(w, a), q) {
      StepKeepsLock(w, a, q);
    }
  }

  lemma StepKeepsFacts(w: World, a: Action)
    requires Inv(w) && Enabled(w, a) && !a.CloseAgain?
    ensures forall q: Pid :: PhaseFacts(Apply(w, a), q)
  {
    forall q: Pid ensures PhaseFacts(Apply(w, a), q) {
      if q == a.p {
        StepKeepsOwnFacts(w, a);
      } else {
        OthersAreUntouched(w, a, q);
        FactsCarryOver(w, Apply(w, a), q);
      }
    }
  }

  lemma FactsMakeInv(v: World)
    requires forall q: Pid :: LockFacts(v, q)
    requires forall q: Pid :: PhaseFacts(v, q)
    requires SocketsApart(v)
    ensures Inv(v)
  {
    assert forall q: Pid :: NeedsLock(PhaseOf(v, q)) ==> LockFacts(v, q);
    assert forall q: Pid :: v.lock == Some(q) ==> LockFacts(v, q);
  }

  lemma StepKeepsInv(w: World, a: Action)
    requires Inv(w) && Enabled(w, a) && !a.CloseAgain?
    ensures Inv(Apply(w, a)) && SafeStep(w, a)
  {
    StepKeepsLocks(w, a);
    StepKeepsFacts(w, a);
    StepKeepsSockets(w, a);
    FactsMakeInv(Apply(w, a));
    StepIsSafe(w, a);
  }

  /** Every run in which Close is called at most once per socket is safe at every step. */
  lemma {:induction false} RunKeepsInv(w: World, run: seq<Action>)
    requires Inv(w) && Legal(w, run) && ClosedOnce(run)
    ensures SafeRun(w, run) && Inv(Exec(w, run))
    decreases |run|
  {
    if run != [] {
      StepKeepsInv(w, run[0]);
      RunKeepsInv(Apply(w, run[0]), run[1..]);
    }
  }

  // ---------------------------------------------------------------------------------------------
  // Calling Close twice
  // ---------------------------------------------------------------------------------------------

  /** No Stem but p closes a socket twice. */
  predicate OnlyItClosesTwice(run: seq<Action>, p: Pid) {
    forall a <- run :: a.CloseAgain? ==> a.p == p
  }

  /** Some run from here, in which p alone closes a socket twice, breaks the promise. */
  ghost predicate Doomed(w: World, p: Pid) {
    exists run :: Legal(w, run) && OnlyItClosesTwice(run, p) && !SafeRun(w, run)
  }

  lemma UnsafeStepDooms(w: World, a: Action, p: Pid)
    requires Enabled(w, a) && !SafeStep(w, a) && (a.CloseAgain? ==> a.p == p)
    ensures Doomed(w, p)
  {
    var run := [a];
    assert run[0] == a && run[1..] == [];
    assert Legal(Apply(w, a), run[1..]);
    assert Legal(w, run) && !SafeRun(w, run);
  }

  lemma DoomedBefore(w: World, a: Action, p: Pid)
    requires Enabled(w, a) && (a.CloseAgain? ==> a.p == p) && Doomed(Apply(w, a), p)
    ensures Doomed(w, p)
  {
    var run :| Legal(Apply(w, a), run) && OnlyItClosesTwice(run, p) && !SafeRun(Apply(w, a), run);
    assert ([a] + run)[1..] == run;
    assert Legal(w, [a] + run) && !SafeRun(w, [a] + run);
  }

  lemma {:induction false} DoomedBeforeRun(w: World, run: seq<Action>, p: Pid)
    requires Legal(w, run) && ClosedOnce(run) && Doomed(Exec(w, run), p)
    ensures Doomed(w, p)
    decreases |run|
  {
    if run != [] {
      DoomedBeforeRun(Apply(w, run[0]), run[1..], p);
      DoomedBefore(w, run[0], p);
    }
  }

  /** Where the pathname, the sockets and the processes p and q stand, when no other program listens. */
  predicate Scene(w: World, path: PathObject, sockets: map<Pid, Socket>, p: Pid, phaseP: Phase, q: Pid, phaseQ: Phase) {
    w.path == path && w.sockets == sockets && w.foreign == {} && PhaseOf(w, p) == phaseP && PhaseOf(w, q) == phaseQ
  }

  /** p has tested the name and is about to unlink it; q starts to listen meanwhile. */
  lemma SuccessorListens(w: World, p: Pid, q: Pid, id: Inode)
    requires p != q && Scene(w, SocketFile(id, true), map[q := Socket(id, false)], p, Unlinking(true, id), q, Bound)
    ensures Doomed(w, p)
  {
    var w1 := Apply(w, Listen(q));
    assert Scene(w1, SocketFile(id, true), map[q := Socket(id, true)], p, Unlinking(true, id), q, Listening);
    assert w1.sockets[q].ino == id;
    assert NamesOthersSocket(w1, p);
    UnsafeStepDooms(w1, UnlinkOwn(p), p);
    DoomedBefore(w, Listen(q), p);
  }

  /** q has bound the inode that p's socket had; p's second Close takes it for its own. */
  lemma ClosesAgain(w: World, p: Pid, q: Pid, id: Inode)
    requires p != q && Scene(w, SocketFile(id, true), map[q := Socket(id, false)], p, Released(id), q, Bound)
    ensures Doomed(w, p)
  {
    var w1 := Apply(w, CloseAgain(p));
    assert Scene(w1, SocketFile(id, true), map[q := Socket(id, false)], p, Unbinding(true, id), q, Bound);
    var w2 := Apply(w1, CompareIdentity(p));
    assert Scene(w2, SocketFile(id, true), map[q := Socket(id, false)], p, Confirming(true, id), q, Bound);
    var w3 := Apply(w2, DialOwn(p));
    SuccessorListens(w3, p, q, id);
    DoomedBefore(w2, DialOwn(p), p);
    DoomedBefore(w1, CompareIdentity(p), p);
    DoomedBefore(w, CloseAgain(p), p);
  }

  lemma SuccessorBinds(w: World, p: Pid, q: Pid, id: Inode)
    requires p != q && Scene(w, Absent, map[], p, Released(id), q, Binding)
    ensures Doomed(w, p)
  {
    ClosesAgain(Apply(w, Bind(q, id)), p, q, id);
    DoomedBefore(w, Bind(q, id), p);
  }

  /** q finds nothing or a dead socket at the pathname. */
  lemma SuccessorOpens(w: World, p: Pid, q: Pid, id: Inode)
    requires p != q && !Blocked(w) && w.lock.None? && Scene(w, w.path, map[], p, Released(id), q, Closed)
    ensures Doomed(w, p)
  {
    var w1 := Apply(w, TryLock(q));
    assert Scene(w1, w.path, map[], p, Released(id), q, HoldingLock);
    var w2 := Apply(w1, Inspect(q));
    if w.path.Absent? {
      SuccessorBinds(w2, p, q, id);
    } else {
      assert Scene(w2, w.path, map[], p, Released(id), q, Probing(w.path.ino, true));
      var w3 := Apply(w2, Dial(q));
      assert Scene(w3, w.path, map[], p, Released(id), q, RemovingStale);
      SuccessorBinds(Apply(w3, RemoveStale(q)), p, q, id);
      DoomedBefore(w3, RemoveStale(q), p);
      DoomedBefore(w2, Dial(q), p);
    }
    DoomedBefore(w1, Inspect(q), p);
    DoomedBefore(w, TryLock(q), p);
  }

  /** The pathname holds something that no Stem ever removes. */
  predicate Blocked(w: World) {
    w.path.OtherFile? || (w.path.SocketFile? && !w.path.ours)
  }

  /** No lock, no socket, and no other program that listens. */
  predicate Cleared(w: World) {
    w.lock.None? && w.sockets == map[] && w.foreign == {}
  }

  /** What is left to happen until a world is cleared. */
  function Uncleared(w: World): nat {
    |w.foreign| + |w.sockets| + if w.lock.None? then 0 else if PhaseOf(w, w.lock.value).Dying? then 1 else 2
  }

  /** The next action that clears: the lock holder dies, the kernel drops its lock and closes the sockets. */
  lemma NextClearing(w: World) returns (a: Action)
    requires Inv(w) && !Cleared(w)
    ensures Enabled(w, a) && !a.CloseAgain? && Uncleared(Apply(w, a)) < Uncleared(w)
    ensures Apply(w, a).path == w.path
    ensures forall p: Pid :: PhaseOf(w, p).Released? ==> PhaseOf(Apply(w, a), p) == PhaseOf(w, p)
  {
    if w.lock.Some? {
      var h := w.lock.value;
      a := if PhaseOf(w, h).Dying? then KernelDropsLock(h) else Crash(h);
    } else if q: Pid :| q in w.sockets {
      assert PhaseFacts(w, q);
      a := KernelClosesSocket(q);
      assert w.sockets.Keys == (w.sockets - {q}).Keys + {q};
      assert |w.sockets| == |w.sockets.Keys| && |w.sockets - {q}| == |(w.sockets - {q}).Keys|;
    } else {
      var ino :| ino in w.foreign;
      a := ForeignExit(0, ino);
    }
  }

  lemma {:induction false} Clear(w: World) returns (run: seq<Action>)
    requires Inv(w)
    ensures Legal(w, run) && ClosedOnce(run) && Cleared(Exec(w, run)) && Inv(Exec(w, run))
    ensures Exec(w, run).path == w.path
    ensures forall p: Pid :: PhaseOf(w, p).Released? ==> PhaseOf(Exec(w, run), p) == PhaseOf(w, p)
    decreases Uncleared(w)
  {
    if Cleared(w) {
      run := [];
    } else {
      var a := NextClearing(w);
      StepKeepsInv(w, a);
      var rest := Clear(Apply(w, a));
      run := [a] + rest;
      assert run[1..] == rest;
    }
  }

  lemma ReleasedIsDoomed(w: World, p: Pid)
    requires Inv(w) && !Blocked(w) && PhaseOf(w, p).Released?
    ensures Doomed(w, p)
  {
    var run := Clear(w);
    var v := Exec(w, run);
    var q := AboveAll(v.phases.Keys + {p});
    SuccessorOpens(v, p, q, PhaseOf(w, p).id);
    DoomedBeforeRun(w, run, p);
  }

  /** A socket that serves is closed once, meeting an error. */
  lemma ServingIsDoomed(w: World, p: Pid)
    requires Inv(w) && PhaseOf(w, p).Serving?
    ensures Doomed(w, p)
  {
    assert PhaseFacts(w, p);
    var w1 := Apply(w, BeginClose(p));
    var w2 := Apply(w1, Fault(p));
    var w3 := Apply(w2, Release(p));
    StepKeepsInv(w, BeginClose(p));
    StepKeepsInv(w1, Fault(p));
    StepKeepsInv(w2, Release(p));
    ReleasedIsDoomed(w3, p);
    DoomedBefore(w2, Release(p), p);
    DoomedBefore(w1, Fault(p), p);
    DoomedBefore(w, BeginClose(p), p);
  }

  lemma ClearedIsDoomed(w: World, p: Pid)
    requires Inv(w) && !Blocked(w) && Cleared(w) && (PhaseOf(w, p).Closed? || PhaseOf(w, p).Released?)
    ensures Doomed(w, p)
  {
    OpenableCanServe(w, p);
    var run :| Legal(w, run) && (forall a <- run :: Unhindered(a, p)) && PhaseOf(Exec(w, run), p).Serving?;
    assert ClosedOnce(run);
    RunKeepsInv(w, run);
    ServingIsDoomed(Exec(w, run), p);
    DoomedBeforeRun(w, run, p);
  }

  lemma UnblockedIsDoomed(w: World, p: Pid)
    requires Inv(w) && !Blocked(w)
    ensures Doomed(w, p)
  {
    var run := Clear(w);
    var v := Exec(w, run);
    assert PhaseFacts(v, p);
    if PhaseOf(v, p).Dying? {
      StepKeepsInv(v, Reap(p));
      ClearedIsDoomed(Apply(v, Reap(p)), p);
      DoomedBefore(v, Reap(p), p);
    } else {
      ClearedIsDoomed(v, p);
    }
    DoomedBeforeRun(w, run, p);
  }

  /** At a blocked pathname no Stem gets further than inspecting it. */
  ghost predicate Stuck(w: World) {
    && Blocked(w) && w.sockets == map[]
    && forall p: Pid ::
         var phase := PhaseOf(w, p);
         || phase.Closed? || phase.HoldingLock? || phase.Dying?
         || (phase.Probing? && !phase.seenOurs) || (phase.Releasing? && !phase.owned && !phase.clean)
  }

  lemma {:induction false} StuckIsSafe(w: World, run: seq<Action>)
    requires Stuck(w) && Legal(w, run)
    ensures SafeRun(w, run) && Stuck(Exec(w, run))
    decreases |run|
  {
    if run != [] {
      assert Stuck(Apply(w, run[0])) by {
        forall q: Pid | q != run[0].p ensures PhaseOf(Apply(w, run[0]), q) == PhaseOf(w, q) {
        }
      }
      StuckIsSafe(Apply(w, run[0]), run[1..]);
    }
  }

  lemma {:induction false} UnblockedStays(w: World, run: seq<Action>)
    requires !Blocked(w) && Legal(w, run)
    ensures !Blocked(Exec(w, run))
    decreases |run|
  {
    if run != [] {
      UnblockedStays(Apply(w, run[0]), run[1..]);
    }
  }

  /** From every reachable world and for every Stem, some run in which it alone closes a socket twice breaks the
      promise, exactly when the pathname is absent or a socket of this principal. So once a Stem has closed a
      socket, even without an error, its second Close can unlink a successor's live socket: the inode number that
      Close compares may have been reused. */
  lemma DoomedExactlyWhenUnblocked(w0: World, run: seq<Action>, p: Pid)
    requires Init(w0) && Legal(w0, run) && ClosedOnce(run)
    ensures Doomed(Exec(w0, run), p) <==> !Blocked(Exec(w0, run))
    ensures PhaseOf(Exec(w0, run), p).Released? ==> Doomed(Exec(w0, run), p)
  {
    var w := Exec(w0, run);
    InitEstablishesInv(w0);
    RunKeepsInv(w0, run);
    if Blocked(w0) {
      StuckIsSafe(w0, run);
      if again :| Legal(w, again) && !SafeRun(w, again) {
        StuckIsSafe(w, again);
      }
    } else {
      UnblockedStays(w0, run);
      UnblockedIsDoomed(w, p);
    }
  }

  predicate Promise(w: World, run: seq<Action>, twice: bool) {
    Init(w) && Legal(w, run) && (twice || ClosedOnce(run)) ==> SafeRun(w, run)
  }

  /** The protocol is safe on every run exactly when no Stem closes one socket twice: Close keeps the
      identity after it has given up the lock, so only the first call may act on it. */
  lemma SafeExactlyWhenClosedOnce(twice: bool)
    ensures (forall w, run :: Promise(w, run, twice)) <==> !twice
  {
    if twice {
      var w0 := World(Absent, None, map[], map[], {});
      assert w0 == Exec(w0, []);
      DoomedExactlyWhenUnblocked(w0, [], 0);
      var bad :| Legal(w0, bad) && !SafeRun(w0, bad);
      assert !Promise(w0, bad, twice);
    } else {
      forall w, run ensures Promise(w, run, twice) {
        if Init(w) && Legal(w, run) && ClosedOnce(run) {
          InitEstablishesInv(w);
          RunKeepsInv(w, run);
        }
      }
    }
  }

  // ---------------------------------------------------------------------------------------------
  // Recovery
  // ---------------------------------------------------------------------------------------------

  /** An action of p itself that meets no error. */
  predicate Unhindered(a: Action, p: Pid) {
    a.p == p && !a.Fault? && !a.ForeignExit? && !a.Crash? && !a.CloseAgain?
  }

  /** p can reach Serving by its own actions alone, meeting no error. */
  ghost predicate CanServe(w: World, p: Pid) {
    exists run: seq<Action> ::
      Legal(w, run) && (forall a <- run :: Unhindered(a, p)) && PhaseOf(Exec(w, run), p).Serving?
  }

  /** What a caller can see before opening: nobody has the lock, and the name is free or is a stale
      socket of this principal. */
  predicate Openable(w: World) {
    w.lock.None? && !Occupied(w)
  }

  /** The pathname holds something that an opener must not replace. */
  predicate Occupied(w: World) {
    w.path.OtherFile? || (w.path.SocketFile? && (!w.path.ours || PathLive(w)))
  }

  lemma Advance(w: World, p: Pid, a: Action)
    requires Enabled(w, a) && Unhindered(a, p) && CanServe(Apply(w, a), p)
    ensures CanServe(w, p)
  {
    var run :| Legal(Apply(w, a), run) && (forall b <- run :: Unhindered(b, p))
               && PhaseOf(Exec(Apply(w, a), run), p).Serving?;
    assert ([a] + run)[1..] == run;
    assert Exec(w, [a] + run) == Exec(Apply(w, a), run);
  }

  lemma AboveAll(s: set<nat>) returns (n: nat)
    ensures forall x <- s :: x < n
  {
    if s == {} {
      n := 0;
    } else {
      var x :| x in s;
      var m := AboveAll(s - {x});
      assert s == (s - {x}) + {x};
      n := if m <= x then x + 1 else m;
    }
  }

  lemma SomeInodeIsUnused(w: World) returns (ino: Inode)
    ensures Unused(w, ino)
  {
    var named := if w.path.SocketFile? then {w.path.ino} else {};
    ino := AboveAll(named + w.foreign + set q | q in w.sockets :: w.sockets[q].ino);
    forall q <- w.sockets ensures w.sockets[q].ino != ino {
      assert w.sockets[q].ino in named + w.foreign + set r | r in w.sockets :: w.sockets[r].ino;
    }
  }

  lemma ServeFromBinding(w: World, p: Pid)
    requires PhaseOf(w, p).Binding? && w.path.Absent?
    ensures CanServe(w, p)
  {
    var ino := SomeInodeIsUnused(w);
    var w1 := Apply(w, Bind(p, ino));
    var w2 := Apply(w1, Listen(p));
    var w3 := Apply(w2, Identify(p));
    var w4 := Apply(w3, Chmod(p));
    assert Legal(w4, []) && Exec(w4, []) == w4;
    assert CanServe(w4, p);
    Advance(w3, p, Chmod(p));
    Advance(w2, p, Identify(p));
    Advance(w1, p, Listen(p));
    Advance(w, p, Bind(p, ino));
  }

  lemma OpenableCanServe(w: World, p: Pid)
    requires Openable(w) && (PhaseOf(w, p).Closed? || PhaseOf(w, p).Released?)
    ensures CanServe(w, p)
  {
    var w1 := Apply(w, TryLock(p));
    var w2 := Apply(w1, Inspect(p));
    if w.path.Absent? {
      ServeFromBinding(w2, p);
    } else {
      assert PathLive(w2) == PathLive(w);
      var w3 := Apply(w2, Dial(p));
      ServeFromBinding(Apply(w3, RemoveStale(p)), p);
      Advance(w3, p, RemoveStale(p));
      Advance(w2, p, Dial(p));
    }
    Advance(w1, p, Inspect(p));
    Advance(w, p, TryLock(p));
  }

  /** The states an opener can reach alone when another Stem has the lock or the name is occupied. */
  predicate Refused(w: World, p: Pid) {
    var phase := PhaseOf(w, p);
    || (w.lock.Some? && w.lock.value != p && (phase.Closed? || phase.Released?))
    || (&& Occupied(w)
        && (phase.Closed? || phase.Released? || phase.HoldingLock? || phase.Releasing?
            || (phase.Probing? && w.path == SocketFile(phase.seen, phase.seenOurs))))
  }

  lemma RefusedStepStays(w: World, p: Pid, a: Action)
    requires Refused(w, p) && Enabled(w, a) && Unhindered(a, p)
    ensures Refused(Apply(w, a), p)
  {
    assert PathLive(Apply(w, a)) == PathLive(w);
  }

  lemma {:induction false} RefusedStays(w: World, p: Pid, run: seq<Action>)
    requires Refused(w, p) && Legal(w, run) && (forall a <- run :: Unhindered(a, p))
    ensures Refused(Exec(w, run), p)
    decreases |run|
  {
    if run != [] {
      RefusedStepStays(w, p, run[0]);
      RefusedStays(Apply(w, run[0]), p, run[1..]);
    }
  }

  /** In every reachable world an undisturbed open succeeds exactly when the lock is free and the name
      is absent or a dead socket of this principal. */
  lemma OpenSucceedsExactlyWhenOpenable(w0: World, run: seq<Action>, p: Pid)
    requires Init(w0) && Legal(w0, run) && ClosedOnce(run)
    requires var phase := PhaseOf(Exec(w0, run), p); phase.Closed? || phase.Released?
    ensures CanServe(Exec(w0, run), p) <==> Openable(Exec(w0, run))
  {
    RunKeepsInv(w0, run);
    var w := Exec(w0, run);
    if Openable(w) {
      OpenableCanServe(w, p);
    } else {
      assert Refused(w, p);
      if CanServe(w, p) {
        var own :| Legal(w, own) && (forall a <- own :: Unhindered(a, p)) && PhaseOf(Exec(w, own), p).Serving?;
        RefusedStays(w, p, own);
      }
    }
  }

  /** The pathname has only ever held Stem sockets. */
  predicate OnlyStems(w: World) {
    w.foreign == {} && !w.path.OtherFile? && (w.path.SocketFile? ==> w.path.ours)
  }

  lemma {:induction false} OnlyStemsStays(w: World, run: seq<Action>)
    requires OnlyStems(w) && Legal(w, run)
    ensures OnlyStems(Exec(w, run))
    decreases |run|
  {
    if run != [] {
      OnlyStemsStays(Apply(w, run[0]), run[1..]);
    }
  }

  /** Crashes never block a successor: whatever happened before, once the kernel has dropped the lock and
      the listeners of the processes that died, the next opener serves. */
  lemma CrashesNeverBlockSuccessor(w0: World, run: seq<Action>, p: Pid)
    requires Init(w0) && OnlyStems(w0) && Legal(w0, run) && ClosedOnce(run)
    requires var w := Exec(w0, run); w.lock.None? && forall q <- w.sockets :: !w.sockets[q].listening
    requires var phase := PhaseOf(Exec(w0, run), p); phase.Closed? || phase.Released?
    ensures CanServe(Exec(w0, run), p)
  {
    OnlyStemsStays(w0, run);
    OpenSucceedsExactlyWhenOpenable(w0, run, p);
  }

  // ---------------------------------------------------------------------------------------------
  // Close as one uninterrupted call
  // ---------------------------------------------------------------------------------------------

  /** removeIfStillOwned without errors and without another process moving in between. */
  function RemoveAlone(w: World, p: Pid): World
    requires PhaseOf(w, p).Unbinding?
  {
    var w2 := Apply(w, CompareIdentity(p));
    var w3 := if PhaseOf(w2, p).Confirming? then Apply(w2, DialOwn(p)) else w2;
    if PhaseOf(w3, p).Unlinking? then Apply(w3, UnlinkOwn(p)) else w3
  }

  /** Close without errors and without another process moving in between. */
  function CloseAlone(w: World, p: Pid): World
    requires PhaseOf(w, p).Serving?
  {
    Apply(RemoveAlone(Apply(w, BeginClose(p)), p), Release(p))
  }

  /** A later Close, likewise: there is no listener left, and no lock. */
  function CloseAgainAlone(w: World, p: Pid): World
    requires PhaseOf(w, p).Released?
  {
    Apply(RemoveAlone(Apply(w, CloseAgain(p)), p), Release(p))
  }

  /** In any world at all, reachable or not, Close removes the name exactly when it still is the dead
      socket this Stem bound; another socket or file put there by anyone stays, and the lock is given up. */
  lemma CloseRemovesOnlyItsOwn(w: World, p: Pid)
    requires PhaseOf(w, p).Serving?
    ensures var id, v := PhaseOf(w, p).id, CloseAlone(w, p);
            && v.path == (if w.path.SocketFile? && w.path.ino == id && !Live(CloseSocket(w, p), id) then Absent
                          else w.path)
            && v.lock != Some(p)
            && (w.lock != Some(p) ==> v.lock == w.lock)
            && v.sockets == w.sockets - {p}
  {
    var w1 := Apply(w, BeginClose(p));
    assert Live(w1, PhaseOf(w, p).id) == Live(CloseSocket(w, p), PhaseOf(w, p).id);
  }

  /** A probe that fails does not keep the name: the next step unlinks it, and the removal counts as clean. */
  lemma FailedProbeUnlinks(w: World, p: Pid)
    requires PhaseOf(w, p).Confirming?
    ensures Enabled(w, Fault(p)) && Enabled(Apply(w, Fault(p)), UnlinkOwn(p))
    ensures var v := Apply(Apply(w, Fault(p)), UnlinkOwn(p));
            v == At(w, p, Releasing(PhaseOf(w, p).closing, PhaseOf(w, p).id, true)).(path := Absent)
  {
  }
}
