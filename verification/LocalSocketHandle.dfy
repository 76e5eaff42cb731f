/** Opening and closing the local socket as one process does it, system call by system call, while other processes
    act in between (cmd/stem/cmdservesocket.go). */
module LocalSocketHandle {
  import opened LocalSocket
  import opened Options

  /** What the other processes do next, as they find the world. */
  type Others = World -> seq<Action>

  ghost predicate ActsFor(others: Others, p: Pid) {
    forall w :: Legal(w, others(w)) && forall a <- others(w) :: a.p != p
  }

  /** The others close each of their sockets only once. */
  ghost predicate Polite(others: Others) {
    forall w :: ClosedOnce(others(w))
  }

  /** Which of the process's own system calls fail, by the phase in which it makes them. */
  type Faults = Phase -> bool

  ghost predicate Faultless(faults: Faults) {
    forall phase :: !faults(phase)
  }

  /** Nobody else acts. */
  ghost predicate Quiet(others: Others) {
    forall w :: others(w) == []
  }

  lemma {:induction false} OneMore(w: World, run: seq<Action>, a: Action)
    requires Legal(w, run) && Enabled(Exec(w, run), a)
    ensures Legal(w, run + [a]) && Exec(w, run + [a]) == Apply(Exec(w, run), a)
    decreases |run|
  {
    if run == [] {
      assert [a][1..] == [];
    } else {
      assert (run + [a])[1..] == run[1..] + [a];
      OneMore(Apply(w, run[0]), run[1..], a);
    }
  }

  /** In every state of an orderly history the invariant holds. */
  lemma OrderlyBefore(start: World, history: seq<Action>, k: nat)
    requires k <= |history| && Legal(start, history[..k])
    ensures Init(start) && ClosedOnce(history) ==> Inv(Exec(start, history[..k]))
  {
    if Init(start) && ClosedOnce(history) {
      assert forall a <- history[..k] :: a in history;
      InitEstablishesInv(start);
      RunKeepsInv(start, history[..k]);
    }
  }

  lemma OrderlyPrefix(before: seq<Action>, after: seq<Action>)
    requires before <= after
    ensures ClosedOnce(after) ==> ClosedOnce(before)
  {
    assert forall a <- before :: a in after;
  }

  /** What the invariant says of p. */
  predicate Known(w: World, p: Pid) {
    PhaseFacts(w, p) && (w.lock == Some(p) ==> NeedsLock(PhaseOf(w, p)) || PhaseOf(w, p).Dying?)
  }

  /** The kernel's state, and everything that happened to it. */
  class Kernel {
    var world: World
    ghost var history: seq<Action>
    ghost const start: World

    constructor (w: World)
      ensures Valid() && world == w == start && history == []
    {
      world, start, history := w, w, [];
    }

    ghost predicate Valid()
      reads this
    {
      Legal(start, history) && Exec(start, history) == world
    }

    method Do(a: Action)
      requires Valid() && Enabled(world, a)
      modifies this
      ensures Valid() && world == Apply(old(world), a) && history == old(history) + [a]
    {
      OneMore(start, history, a);
      world := Apply(world, a);
      history := history + [a];
    }

    /** Since an earlier moment nobody has closed a socket a second time. */
    ghost predicate ClosedOnceSince(earlier: seq<Action>)
      reads this
    {
      earlier <= history && forall k | |earlier| <= k < |history| :: !history[k].CloseAgain?
    }

    /** The history so far is one for which the protocol makes its promise. */
    ghost predicate Orderly()
      reads this
    {
      Init(start) && ClosedOnce(history)
    }

    /** The kernel was in this state at some moment since the history had a given length. */
    ghost predicate Passed(earlier: nat, w: World)
      reads this
    {
      exists k | earlier <= k <= |history| :: Legal(start, history[..k]) && Exec(start, history[..k]) == w
    }

    /** The history has gone on, and if the others close each socket only once, everybody did. */
    twostate predicate WentOn(others: Others)
      reads this
    {
      Valid() && old(history) <= history && (Polite(others) ==> ClosedOnceSince(old(history)))
    }

    /** The others act; the phase of p stays what it was. */
    method Yield(others: Others, ghost p: Pid)
      requires Valid() && ActsFor(others, p)
      modifies this
      ensures WentOn(others) && PhaseOf(world, p) == old(PhaseOf(world, p))
      ensures Quiet(others) ==> world == old(world)
    {
      var rest := others(world);
      assert Polite(others) ==> ClosedOnce(rest);
      while rest != []
        invariant Valid() && Legal(world, rest) && forall a <- rest :: a.p != p
        invariant PhaseOf(world, p) == old(PhaseOf(world, p)) && old(history) <= history
        invariant Polite(others) ==> ClosedOnce(rest) && ClosedOnceSince(old(history))
        invariant Quiet(others) ==> rest == [] && world == old(world)
        decreases |rest|
      {
        assert rest[0] in rest;
        Do(rest[0]);
        rest := rest[1..];
      }
    }

    /** One system call of p, which finds the state `seen` after the others have acted; it may fail where the phase
        allows it. */
    method Call(a: Action, others: Others, faults: Faults) returns (ghost seen: World)
      requires Valid() && ActsFor(others, a.p) && EnabledByPhase(PhaseOf(world, a.p), a) && !a.CloseAgain?
      modifies this
      ensures WentOn(others)
      ensures Passed(|old(history)|, seen) && PhaseOf(seen, a.p) == old(PhaseOf(world, a.p)) && Enabled(seen, a)
      ensures Orderly() ==> Known(seen, a.p)
      ensures Leads(old(PhaseOf(world, a.p)), PhaseOf(world, a.p), a)
      ensures Quiet(others) ==> seen == old(world)
      ensures Faultless(faults) ==> world == Apply(seen, a)
    {
      Yield(others, a.p);
      seen := world;
      CallLeads(world, a);
      ghost var k := |history|;
      assert history[..k] == history;
      if faults(PhaseOf(world, a.p)) && Enabled(world, Fault(a.p)) {
        Do(Fault(a.p));
      } else {
        Do(a);
      }
      assert history[..k] <= history;
      OrderlyBefore(start, history, k);
    }

    /** Close starts: the first one stops the server and closes the listener, a later one finds them gone. */
    method StopListening(p: Pid, listening: bool, others: Others)
      requires Valid() && ActsFor(others, p)
      requires if listening then PhaseOf(world, p).Serving? else PhaseOf(world, p).Released?
      modifies this
      ensures Valid() && PhaseOf(world, p) == Unbinding(true, old(PhaseOf(world, p).id)) && old(history) <= history
      ensures listening && Polite(others) ==> ClosedOnceSince(old(history))
      ensures Quiet(others) ==> world == Apply(old(world), if listening then BeginClose(p) else CloseAgain(p))
    {
      Yield(others, p);
      if listening {
        Do(BeginClose(p));
      } else {
        Do(CloseAgain(p));
      }
    }

    /** bind(2), at an inode that the kernel chooses. */
    method CallBind(p: Pid, others: Others, faults: Faults) returns (ghost seen: World, ghost ino: Inode)
      requires Valid() && ActsFor(others, p) && PhaseOf(world, p).Binding?
      modifies this
      ensures WentOn(others)
      ensures Passed(|old(history)|, seen) && PhaseOf(seen, p).Binding? && Unused(seen, ino)
      ensures Orderly() ==> Known(seen, p)
      ensures PhaseOf(world, p).Bound? || PhaseOf(world, p) == GiveUp
      ensures Quiet(others) ==> seen == old(world)
      ensures Faultless(faults) ==> world == Apply(seen, Bind(p, ino))
    {
      Yield(others, p);
      seen := world;
      ghost var some := SomeInodeIsUnused(world);
      var chosen: Inode :| Unused(world, chosen);
      ino := chosen;
      ghost var k := |history|;
      assert history[..k] == history;
      if faults(Binding) {
        Do(Fault(p));
      } else {
        Do(Bind(p, chosen));
      }
      assert history[..k] <= history;
      OrderlyBefore(start, history, k);
    }
  }

  /** The actions of a process that need nothing but its phase. */
  predicate EnabledByPhase(phase: Phase, a: Action) {
    match a
    case TryLock(_) => phase.Closed? || phase.Released?
    case Inspect(_) => phase.HoldingLock?
    case Dial(_) => phase.Probing?
    case RemoveStale(_) => phase.RemovingStale?
    case Listen(_) => phase.Bound?
    case Identify(_) => phase.Listening?
    case Chmod(_) => phase.Identified?
    case BeginClose(_) => phase.Serving?
    case CompareIdentity(_) => phase.Unbinding?
    case DialOwn(_) => phase.Confirming?
    case UnlinkOwn(_) => phase.Unlinking?
    case Release(_) => phase.Releasing?
    case _ => false
  }

  /** Where a call can leave its process. */
  predicate Leads(before: Phase, after: Phase, a: Action) {
    match a
    case TryLock(_) => after.HoldingLock? || after == before
    case Inspect(_) => after.Binding? || after.Probing? || after == GiveUp
    case Dial(_) => after.RemovingStale? || after == GiveUp
    case RemoveStale(_) => after.Binding? || after == GiveUp
    case Listen(_) => after.Listening? || after == GiveUp
    case Identify(_) => after.Identified? || after == GiveUp
    case Chmod(_) => before.Identified? && (after == Serving(before.id) || after == Unbinding(false, before.id))
    case BeginClose(_) => before.Serving? && after == Unbinding(true, before.id)
    case CompareIdentity(_) =>
      before.Unbinding? && (after == Confirming(before.closing, before.id) || Removed(before, after))
    case DialOwn(_) =>
      before.Confirming? && (after == Unlinking(before.closing, before.id) || Removed(before, after))
    case UnlinkOwn(_) => before.Unlinking? && Removed(before, after)
    case Release(_) => before.Releasing? && after == if before.owned then Released(before.id) else Closed
    case _ => false
  }

  lemma CallLeads(w: World, a: Action)
    requires EnabledByPhase(PhaseOf(w, a.p), a)
    ensures Enabled(w, a) && Leads(PhaseOf(w, a.p), PhaseOf(Apply(w, a), a.p), a)
    ensures Enabled(w, Fault(a.p)) ==> Leads(PhaseOf(w, a.p), PhaseOf(Apply(w, Fault(a.p)), a.p), a)
  {
  }

  /** What a process makes of a free or freed name when nothing comes in between: it serves there, at some inode. */
  predicate ServesAt(before: World, after: World, p: Pid) {
    && PhaseOf(after, p).Serving?
    && var id := PhaseOf(after, p).id;
       after == At(before, p, Serving(id)).(
                  path := SocketFile(id, true), sockets := before.sockets[p := Socket(id, true)])
  }

  /** os.Remove of the name, the last step of removeIfStillOwned. */
  method UnlinkName(kernel: Kernel, p: Pid, others: Others, faults: Faults)
    requires kernel.Valid() && ActsFor(others, p) && PhaseOf(kernel.world, p).Unlinking?
    modifies kernel
    ensures kernel.WentOn(others) && Removed(old(PhaseOf(kernel.world, p)), PhaseOf(kernel.world, p))
    ensures Faultless(faults) ==> PhaseOf(kernel.world, p).clean
    ensures Faultless(faults) && Quiet(others) ==> kernel.world == Apply(old(kernel.world), UnlinkOwn(p))
  {
    ghost var seen := kernel.Call(UnlinkOwn(p), others, faults);
  }

  /** The probe of removeIfStillOwned and what follows it. */
  method ProbeAndUnlink(kernel: Kernel, p: Pid, others: Others, faults: Faults)
    requires kernel.Valid() && ActsFor(others, p) && PhaseOf(kernel.world, p).Confirming?
    modifies kernel
    ensures kernel.WentOn(others) && Removed(old(PhaseOf(kernel.world, p)), PhaseOf(kernel.world, p))
    ensures Faultless(faults) && kernel.Orderly() ==> PhaseOf(kernel.world, p).clean
    ensures Faultless(faults) && Quiet(others) ==>
              var w3 := Apply(old(kernel.world), DialOwn(p));
              kernel.world == if PhaseOf(w3, p).Unlinking? then Apply(w3, UnlinkOwn(p)) else w3
  {
    ghost var seen := kernel.Call(DialOwn(p), others, faults);
    if PhaseOf(kernel.world, p).Unlinking? {
      ghost var before := kernel.history;
      UnlinkName(kernel, p, others, faults);
      OrderlyPrefix(before, kernel.history);
    }
  }

  /** removeIfStillOwned. In an orderly history, and without a fault, it unlinks the name of a listener just closed,
      whatever the others do. */
  method RemoveIfStillOwned(kernel: Kernel, p: Pid, others: Others, faults: Faults)
    requires kernel.Valid() && ActsFor(others, p) && PhaseOf(kernel.world, p).Unbinding?
    modifies kernel
    ensures kernel.WentOn(others) && Removed(old(PhaseOf(kernel.world, p)), PhaseOf(kernel.world, p))
    ensures Faultless(faults) && kernel.Orderly() ==> PhaseOf(kernel.world, p).clean
    ensures Faultless(faults) && Quiet(others) ==> kernel.world == RemoveAlone(old(kernel.world), p)
  {
    ghost var seen := kernel.Call(CompareIdentity(p), others, faults);
    if PhaseOf(kernel.world, p).Confirming? {
      ghost var before := kernel.history;
      ProbeAndUnlink(kernel, p, others, faults);
      OrderlyPrefix(before, kernel.history);
    }
  }

  /** The removal is over, whether or not it removed anything. */
  predicate Removed(before: Phase, after: Phase) {
    && (before.Unbinding? || before.Confirming? || before.Unlinking?)
    && after.Releasing? && after.owned == before.closing && after.id == before.id
  }

  /** localSocket: the server and listener, the recorded identity, and the lock file. */
  class LocalSocketFile {
    const kernel: Kernel
    const p: Pid
    const id: Inode
    var listening: bool
    var locked: bool

    constructor (kernel: Kernel, p: Pid, id: Inode)
      ensures this.kernel == kernel && this.p == p && this.id == id && listening && locked
    {
      this.kernel, this.p, this.id := kernel, p, id;
      listening, locked := true, true;
    }

    /** The fields agree with where the process stands. */
    ghost predicate Valid()
      reads this, kernel
    {
      && kernel.Valid() && locked == listening
      && PhaseOf(kernel.world, p) == if listening then Serving(id) else Released(id)
    }

    /** Close. In an orderly history, and without a fault, the name is gone when the lock is given up, whatever the
        others do. The identity stays, so a second call tries to remove the name again, without the lock. */
    method Close(others: Others, faults: Faults) returns (ghost seen: World)
      requires Valid() && ActsFor(others, p)
      modifies this, kernel
      ensures Valid() && !listening && !locked && old(kernel.history) <= kernel.history
      ensures old(listening) && Polite(others) ==> kernel.ClosedOnceSince(old(kernel.history))
      ensures kernel.Passed(|old(kernel.history)|, seen) && PhaseOf(seen, p).Releasing?
      ensures Faultless(faults) ==> kernel.world == Apply(seen, Release(p))
      ensures Faultless(faults) && kernel.Orderly() ==> seen.path.Absent?
      ensures Faultless(faults) && Quiet(others) ==>
                kernel.world
                == if old(listening) then CloseAlone(old(kernel.world), p) else CloseAgainAlone(old(kernel.world), p)
    {
      kernel.StopListening(p, listening, others);
      listening := false;
      seen := RemoveAndRelease(kernel, p, others, faults);
      locked := false;
    }
  }

  /** The name and then the lock are given up. */
  method RemoveAndRelease(kernel: Kernel, p: Pid, others: Others, faults: Faults) returns (ghost seen: World)
    requires kernel.Valid() && ActsFor(others, p) && PhaseOf(kernel.world, p).Unbinding?
    modifies kernel
    ensures kernel.WentOn(others)
    ensures var before := old(PhaseOf(kernel.world, p));
            PhaseOf(kernel.world, p) == if before.closing then Released(before.id) else Closed
    ensures kernel.Passed(|old(kernel.history)|, seen) && PhaseOf(seen, p).Releasing?
    ensures Faultless(faults) ==> kernel.world == Apply(seen, Release(p))
    ensures Faultless(faults) && kernel.Orderly() ==> seen.path.Absent?
    ensures Faultless(faults) && Quiet(others) ==> seen == RemoveAlone(old(kernel.world), p)
  {
    RemoveIfStillOwned(kernel, p, others, faults);
    ghost var removed := kernel.history;
    seen := kernel.Call(Release(p), others, faults);
    OrderlyPrefix(removed, kernel.history);
  }

  // ---------------------------------------------------------------------------------------------
  // Opening
  // ---------------------------------------------------------------------------------------------

  /** The process serves, or has nothing left to give up but the lock. */
  predicate Open(phase: Phase) {
    phase.Serving? || (phase.Releasing? && !phase.owned)
  }

  /** chmod(2) of the name, after which the socket serves. */
  method ServeIdentified(kernel: Kernel, p: Pid, others: Others, faults: Faults)
    requires kernel.Valid() && ActsFor(others, p) && PhaseOf(kernel.world, p).Identified?
    modifies kernel
    ensures kernel.WentOn(others) && Open(PhaseOf(kernel.world, p))
    ensures Faultless(faults) ==> PhaseOf(kernel.world, p).Serving?
    ensures Faultless(faults) && Quiet(others) ==>
              kernel.world == At(old(kernel.world), p, Serving(PhaseOf(old(kernel.world), p).id))
  {
    ghost var seen := kernel.Call(Chmod(p), others, faults);
    if PhaseOf(kernel.world, p).Unbinding? {
      RemoveIfStillOwned(kernel, p, others, faults);
    }
  }

  /** lstat(2) of the new name, and on. */
  method ServeListening(kernel: Kernel, p: Pid, others: Others, faults: Faults)
    requires kernel.Valid() && ActsFor(others, p) && PhaseOf(kernel.world, p).Listening?
    modifies kernel
    ensures kernel.WentOn(others) && Open(PhaseOf(kernel.world, p))
    ensures Faultless(faults) && kernel.Orderly() ==> PhaseOf(kernel.world, p).Serving?
    ensures Faultless(faults) && Quiet(others) && old(kernel.world).path.SocketFile? ==>
              kernel.world == At(old(kernel.world), p, Serving(old(kernel.world).path.ino))
  {
    ghost var seen := kernel.Call(Identify(p), others, faults);
    if PhaseOf(kernel.world, p).Identified? {
      ghost var before := kernel.history;
      ServeIdentified(kernel, p, others, faults);
      OrderlyPrefix(before, kernel.history);
    }
  }

  /** listen(2), and on. */
  method ServeBound(kernel: Kernel, p: Pid, others: Others, faults: Faults)
    requires kernel.Valid() && ActsFor(others, p) && PhaseOf(kernel.world, p).Bound?
    modifies kernel
    ensures kernel.WentOn(others) && Open(PhaseOf(kernel.world, p))
    ensures Faultless(faults) && kernel.Orderly() ==> PhaseOf(kernel.world, p).Serving?
    ensures && Faultless(faults) && Quiet(others)
            && old(kernel.world).path.SocketFile? && p in old(kernel.world).sockets ==>
              var w := old(kernel.world);
              kernel.world == At(w, p, Serving(w.path.ino)).(
                                sockets := w.sockets[p := w.sockets[p].(listening := true)])
  {
    ghost var seen := kernel.Call(Listen(p), others, faults);
    if PhaseOf(kernel.world, p).Listening? {
      ghost var before := kernel.history;
      ServeListening(kernel, p, others, faults);
      OrderlyPrefix(before, kernel.history);
    }
  }

  /** bind(2), and on: the name is free, and in an orderly history it stays so. */
  method ServeUnbound(kernel: Kernel, p: Pid, others: Others, faults: Faults)
    requires kernel.Valid() && ActsFor(others, p) && PhaseOf(kernel.world, p).Binding?
    modifies kernel
    ensures kernel.WentOn(others) && Open(PhaseOf(kernel.world, p))
    ensures Faultless(faults) && kernel.Orderly() ==> PhaseOf(kernel.world, p).Serving?
    ensures Faultless(faults) && Quiet(others) && old(kernel.world).path.Absent? ==>
              ServesAt(old(kernel.world), kernel.world, p)
  {
    ghost var seen, ino := kernel.CallBind(p, others, faults);
    if PhaseOf(kernel.world, p).Bound? {
      ghost var before := kernel.history;
      ServeBound(kernel, p, others, faults);
      OrderlyPrefix(before, kernel.history);
    }
  }

  /** os.Remove of a stale name, and on. */
  method ServeStale(kernel: Kernel, p: Pid, others: Others, faults: Faults)
    requires kernel.Valid() && ActsFor(others, p) && PhaseOf(kernel.world, p).RemovingStale?
    modifies kernel
    ensures kernel.WentOn(others) && Open(PhaseOf(kernel.world, p))
    ensures Faultless(faults) && kernel.Orderly() ==> PhaseOf(kernel.world, p).Serving?
    ensures Faultless(faults) && Quiet(others) && !old(kernel.world).path.Absent? ==>
              ServesAt(old(kernel.world), kernel.world, p)
  {
    ghost var seen := kernel.Call(RemoveStale(p), others, faults);
    if PhaseOf(kernel.world, p).Binding? {
      ghost var before := kernel.history;
      ServeUnbound(kernel, p, others, faults);
      OrderlyPrefix(before, kernel.history);
    }
  }

  /** The probe of a name that exists, and on. */
  method ServeProbing(kernel: Kernel, p: Pid, others: Others, faults: Faults) returns (ghost seen: World)
    requires kernel.Valid() && ActsFor(others, p) && PhaseOf(kernel.world, p).Probing?
    modifies kernel
    ensures kernel.WentOn(others) && Open(PhaseOf(kernel.world, p))
    ensures kernel.Passed(|old(kernel.history)|, seen)
    ensures Faultless(faults) && kernel.Orderly() && PhaseOf(kernel.world, p).Releasing? ==> Occupied(seen)
    ensures Faultless(faults) && Quiet(others) ==>
              var w := old(kernel.world);
              if PathLive(w) || w.path.Absent? || !PhaseOf(w, p).seenOurs then kernel.world == At(w, p, GiveUp)
              else ServesAt(w, kernel.world, p)
  {
    seen := kernel.Call(Dial(p), others, faults);
    if PhaseOf(kernel.world, p).RemovingStale? {
      ghost var before := kernel.history;
      ServeStale(kernel, p, others, faults);
      OrderlyPrefix(before, kernel.history);
      assert forall k | 0 <= k <= |before| :: kernel.history[..k] == before[..k];
    }
  }

  /** bindLocalSocketLocked: the process ends up serving, or has given up. In an orderly history, and without a
      fault, it gives up only on a name that it must not replace, which it found in the state `seen`. */
  method BindLocked(kernel: Kernel, p: Pid, others: Others, faults: Faults) returns (ghost seen: World)
    requires kernel.Valid() && ActsFor(others, p) && PhaseOf(kernel.world, p).HoldingLock?
    modifies kernel
    ensures kernel.WentOn(others) && Open(PhaseOf(kernel.world, p))
    ensures kernel.Passed(|old(kernel.history)|, seen)
    ensures Faultless(faults) && kernel.Orderly() && PhaseOf(kernel.world, p).Releasing? ==> Occupied(seen)
    ensures Faultless(faults) && Quiet(others) ==>
              if Occupied(old(kernel.world)) then kernel.world == At(old(kernel.world), p, GiveUp)
              else ServesAt(old(kernel.world), kernel.world, p)
  {
    seen := kernel.Call(Inspect(p), others, faults);
    ghost var before := kernel.history;
    if PhaseOf(kernel.world, p).Probing? {
      seen := ServeProbing(kernel, p, others, faults);
    } else if PhaseOf(kernel.world, p).Binding? {
      ServeUnbound(kernel, p, others, faults);
    }
    OrderlyPrefix(before, kernel.history);
    assert forall k | 0 <= k <= |before| :: kernel.history[..k] == before[..k];
  }

  /** Another Stem has the lock, or the name is one that must not be replaced. */
  predicate Barred(w: World, p: Pid) {
    (w.lock.Some? && w.lock.value != p) || Occupied(w)
  }

  /** openLocalSocket under the lock: a process that does not end up serving releases it. */
  method OpenLocked(kernel: Kernel, p: Pid, others: Others, faults: Faults)
    returns (sock: LocalSocketFile?, ghost seen: World)
    requires kernel.Valid() && ActsFor(others, p) && PhaseOf(kernel.world, p).HoldingLock?
    modifies kernel
    ensures kernel.WentOn(others)
    ensures sock != null ==> fresh(sock) && sock.kernel == kernel && sock.p == p && sock.listening && sock.Valid()
    ensures sock == null ==> PhaseOf(kernel.world, p).Closed?
    ensures kernel.Passed(|old(kernel.history)|, seen)
    ensures Faultless(faults) && kernel.Orderly() && sock == null ==> Occupied(seen)
    ensures Faultless(faults) && Quiet(others) ==>
              var w := old(kernel.world);
              if Occupied(w) then sock == null && kernel.world == Apply(At(w, p, GiveUp), Release(p))
              else sock != null && ServesAt(w, kernel.world, p)
  {
    sock := null;
    seen := BindLocked(kernel, p, others, faults);
    if PhaseOf(kernel.world, p).Serving? {
      sock := new LocalSocketFile(kernel, p, PhaseOf(kernel.world, p).id);
      return;
    }
    ghost var before := kernel.history;
    ghost var found := kernel.Call(Release(p), others, faults);
    OrderlyPrefix(before, kernel.history);
    assert forall k | 0 <= k <= |before| :: kernel.history[..k] == before[..k];
  }

  /** The process has opened no socket, or has closed it. */
  predicate WithoutSocket(phase: Phase) {
    phase.Closed? || phase.Released?
  }

  /** openLocalSocket, for a process without a socket: it returns one exactly when it serves, and on every failure
      it has given up whatever lock and listener it took. In an orderly history, and without a fault, it fails only
      if it found the lock taken or the name occupied, in the state `seen`; when nobody else acts, exactly then. */
  method OpenLocalSocket(kernel: Kernel, p: Pid, others: Others, faults: Faults)
    returns (sock: LocalSocketFile?, ghost seen: World)
    requires kernel.Valid() && ActsFor(others, p) && WithoutSocket(PhaseOf(kernel.world, p))
    modifies kernel
    ensures kernel.WentOn(others)
    ensures sock != null ==> fresh(sock) && sock.kernel == kernel && sock.p == p && sock.listening && sock.Valid()
    ensures sock == null ==>
              PhaseOf(kernel.world, p).Closed? || PhaseOf(kernel.world, p) == old(PhaseOf(kernel.world, p))
    ensures kernel.Passed(|old(kernel.history)|, seen)
    ensures Faultless(faults) && kernel.Orderly() && sock == null ==> Barred(seen, p)
    ensures Faultless(faults) && Quiet(others) ==>
              && (sock != null <==> Openable(old(kernel.world)))
              && (sock != null ==> ServesAt(old(kernel.world).(lock := Some(p)), kernel.world, p))
              && (sock == null ==> kernel.world.(phases := old(kernel.world).phases) == old(kernel.world))
  {
    sock := null;
    seen := kernel.Call(TryLock(p), others, faults);
    if PhaseOf(kernel.world, p).HoldingLock? {
      sock, seen := OpenLocked(kernel, p, others, faults);
    }
  }

  /** A process that opens the socket once and closes it once, whatever fails and whatever the others do: if they
      too close each socket only once, every step of everyone was safe. */
  method Lifetime(kernel: Kernel, p: Pid, others: Others, faults: Faults)
    requires kernel.Valid() && ActsFor(others, p) && WithoutSocket(PhaseOf(kernel.world, p))
    requires kernel.Orderly() && Polite(others)
    modifies kernel
    ensures kernel.Valid() && kernel.Orderly() && SafeRun(kernel.start, kernel.history)
    ensures WithoutSocket(PhaseOf(kernel.world, p))
  {
    var sock, _ := OpenLocalSocket(kernel, p, others, faults);
    if sock != null {
      ghost var _ := sock.Close(others, faults);
    }
    InitEstablishesInv(kernel.start);
    RunKeepsInv(kernel.start, kernel.history);
  }
}
