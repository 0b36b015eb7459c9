// Accepting, rejecting and draining connections: Start, watchShutdown and drainConnections of
// internal/proxy/server.go.
module AcceptLoop {
  /** An admitted connection's goroutine. It is admitted before the scheduler first runs it, and its
      deferred calls give back the semaphore slot first and the wait group last. */
  datatype Handler = Spawned | Inside | Returned | Released | Finished

  datatype Loop = Accepting | GotConn | Draining | Drained | TimedOut | Failed

  datatype State = State(
    maxConns: nat, shutdown: bool, loop: Loop, slots: nat, waitGroup: nat,
    handlers: seq<Handler>, accepted: nat, rejected: nat)

  datatype Event =
    | Shutdown              // watchShutdown closes the channel
    | SeeShutdown           // the loop finds it closed, before or after Accept
    | Accept
    | AcceptError           // not a timeout, and no shutdown: Start returns
    | Place                 // the select on the semaphore: admit or reject
    | Enter(i: nat)
    | Return(i: nat)
    | Release(i: nat)
    | Finish(i: nat)
    | AllDone               // the wait on the group came back
    | Timeout

  predicate At(s: State, i: nat, h: Handler) {
    i < |s.handlers| && s.handlers[i] == h
  }

  ghost predicate Enabled(s: State, e: Event) {
    match e
    case Shutdown => !s.shutdown
    case SeeShutdown => s.loop == Accepting && s.shutdown
    case Accept => s.loop == Accepting
    case AcceptError => s.loop == Accepting && !s.shutdown
    case Place => s.loop == GotConn
    case Enter(i) => At(s, i, Spawned)
    case Return(i) => At(s, i, Inside)
    case Release(i) => At(s, i, Returned) && s.slots > 0
    case Finish(i) => At(s, i, Released) && s.waitGroup > 0
    case AllDone => s.loop == Draining && s.waitGroup == 0
    case Timeout => s.loop == Draining
  }

  ghost function Next(s: State, e: Event): State
    requires Enabled(s, e)
  {
    match e
    case Shutdown => s.(shutdown := true)
    case SeeShutdown => s.(loop := Draining)
    case Accept => s.(loop := GotConn, accepted := s.accepted + 1)
    case AcceptError => s.(loop := Failed)
    case Place =>
      if s.slots < s.maxConns then
        s.(loop := Accepting, slots := s.slots + 1, waitGroup := s.waitGroup + 1, handlers := s.handlers + [Spawned])
      else s.(loop := Accepting, rejected := s.rejected + 1)
    case Enter(i) => s.(handlers := s.handlers[i := Inside])
    case Return(i) => s.(handlers := s.handlers[i := Returned])
    case Release(i) => s.(handlers := s.handlers[i := Released], slots := s.slots - 1)
    case Finish(i) => s.(handlers := s.handlers[i := Finished], waitGroup := s.waitGroup - 1)
    case AllDone => s.(loop := Drained)
    case Timeout => s.(loop := TimedOut)
  }

  ghost predicate IsRun(s: State, es: seq<Event>)
    decreases es
  {
    es == [] || (Enabled(s, es[0]) && IsRun(Next(s, es[0]), es[1..]))
  }

  ghost function Final(s: State, es: seq<Event>): State
    requires IsRun(s, es)
    decreases es
  {
    if es == [] then s else Final(Next(s, es[0]), es[1..])
  }

  ghost function Start(maxConns: nat): State {
    State(maxConns, false, Accepting, 0, 0, [], 0, 0)
  }

  // -------------------------------------------------------------------- counting

  datatype Kind = NotStarted | InHandleConnection | HoldingSlot | Unfinished | Done

  ghost predicate Is(h: Handler, kind: Kind) {
    match kind
    case NotStarted => h == Spawned
    case InHandleConnection => h == Inside
    case HoldingSlot => h == Spawned || h == Inside || h == Returned
    case Unfinished => h != Finished
    case Done => h == Finished
  }

  ghost function Tally(hs: seq<Handler>, kind: Kind): (n: nat) {
    if hs == [] then 0 else Tally(hs[..|hs| - 1], kind) + if Is(hs[|hs| - 1], kind) then 1 else 0
  }

  lemma {:induction false} TallyUpdate(hs: seq<Handler>, i: nat, h: Handler, kind: Kind)
    requires i < |hs|
    ensures Tally(hs[i := h], kind) ==
            Tally(hs, kind) - (if Is(hs[i], kind) then 1 else 0) + (if Is(h, kind) then 1 else 0)
  {
    var k := |hs| - 1;
    if i == k {
      assert hs[i := h][..k] == hs[..k];
    } else {
      assert hs[i := h][..k] == hs[..k][i := h];
      TallyUpdate(hs[..k], i, h, kind);
    }
  }

  lemma TallyAppend(hs: seq<Handler>, h: Handler, kind: Kind)
    ensures Tally(hs + [h], kind) == Tally(hs, kind) + if Is(h, kind) then 1 else 0
  {
  }

  lemma {:induction false} TallyRelations(hs: seq<Handler>)
    ensures Tally(hs, InHandleConnection) <= Tally(hs, HoldingSlot) <= Tally(hs, Unfinished)
    ensures Tally(hs, Unfinished) + Tally(hs, Done) == |hs|
  {
    if hs != [] {
      TallyRelations(hs[..|hs| - 1]);
    }
  }

  // -------------------------------------------------------------------- invariant

  ghost predicate Inv(s: State) {
    && s.slots == Tally(s.handlers, HoldingSlot) <= s.maxConns
    && s.waitGroup == Tally(s.handlers, Unfinished)
    && s.accepted == |s.handlers| + s.rejected + (if s.loop == GotConn then 1 else 0)
    && (s.loop == Draining || s.loop == Drained || s.loop == TimedOut ==> s.shutdown)
    && (s.loop == Drained ==> s.waitGroup == 0)
  }

  lemma InvMove(s: State, e: Event)
    requires Inv(s) && Enabled(s, e) && (e.Enter? || e.Return? || e.Release? || e.Finish?)
    ensures Inv(Next(s, e))
  {
    var h := Next(s, e).handlers[e.i];
    TallyUpdate(s.handlers, e.i, h, HoldingSlot);
    TallyUpdate(s.handlers, e.i, h, Unfinished);
  }

  lemma InvStep(s: State, e: Event)
    requires Inv(s) && Enabled(s, e)
    ensures Inv(Next(s, e))
  {
    if e.Place? {
      TallyAppend(s.handlers, Spawned, HoldingSlot);
      TallyAppend(s.handlers, Spawned, Unfinished);
    } else if e.Enter? || e.Return? || e.Release? || e.Finish? {
      InvMove(s, e);
    }
  }

  lemma {:induction false} InvRun(s: State, es: seq<Event>)
    requires Inv(s) && IsRun(s, es)
    ensures Inv(Final(s, es)) && Final(s, es).maxConns == s.maxConns
    decreases es
  {
    if es != [] {
      InvStep(s, es[0]);
      InvRun(Next(s, es[0]), es[1..]);
    }
  }

  /** A handler's last two steps are never blocked: its slot and its place in the group are counted. */
  lemma HandlersNeverBlock(maxConns: nat, es: seq<Event>, i: nat)
    requires IsRun(Start(maxConns), es)
    ensures var t := Final(Start(maxConns), es);
            && (At(t, i, Returned) ==> Enabled(t, Release(i)))
            && (At(t, i, Released) ==> Enabled(t, Finish(i)))
  {
    InvRun(Start(maxConns), es);
    var t := Final(Start(maxConns), es);
    if i < |t.handlers| {
      TallyUpdate(t.handlers, i, Finished, HoldingSlot);
      TallyUpdate(t.handlers, i, Finished, Unfinished);
    }
  }

  // ---------------------------------------------------------------- main theorems

  /** In every reachable state: the cap holds, and every accepted connection is accounted for. */
  lemma CapAndConservation(maxConns: nat, es: seq<Event>)
    requires IsRun(Start(maxConns), es)
    ensures var t := Final(Start(maxConns), es);
            && Tally(t.handlers, InHandleConnection) <= maxConns
            && t.accepted == Tally(t.handlers, Unfinished) + Tally(t.handlers, Done) + t.rejected
                             + (if t.loop == GotConn then 1 else 0)
            && t.waitGroup == Tally(t.handlers, Unfinished)
  {
    InvRun(Start(maxConns), es);
    TallyRelations(Final(Start(maxConns), es).handlers);
  }

  /** In every reachable state the connection in hand is rejected exactly if maxConns slots are held,
      and otherwise gets a handler. */
  lemma RejectedIffFull(maxConns: nat, es: seq<Event>)
    requires IsRun(Start(maxConns), es) && Final(Start(maxConns), es).loop == GotConn
    ensures var t := Final(Start(maxConns), es);
            var n := Next(t, Place);
            && n.loop == Accepting
            && (n.handlers == t.handlers && n.rejected == t.rejected + 1 <==>
                Tally(t.handlers, HoldingSlot) == maxConns)
            && (n.handlers == t.handlers + [Spawned] && n.rejected == t.rejected <==>
                Tally(t.handlers, HoldingSlot) < maxConns)
  {
    InvRun(Start(maxConns), es);
  }

  lemma {:induction false} RunAppends(s: State, es: seq<Event>, e: Event) returns (longer: seq<Event>)
    requires IsRun(s, es) && Enabled(Final(s, es), e)
    ensures IsRun(s, longer) && Final(s, longer) == Next(Final(s, es), e)
    decreases es
  {
    if es == [] {
      longer := [e];
      assert IsRun(Next(s, e), []);
    } else {
      longer := RunAppends(Next(s, es[0]), es[1..], e);
      longer := [es[0]] + longer;
    }
  }

  /** The state with n connections accepted and all of them inside. */
  ghost function Busy(maxConns: nat, n: nat): State {
    State(maxConns, false, Accepting, n, n, seq(n, _ => Inside), n, 0)
  }

  lemma {:induction false} BusyRun(maxConns: nat, n: nat) returns (es: seq<Event>)
    requires n <= maxConns
    ensures IsRun(Start(maxConns), es) && Final(Start(maxConns), es) == Busy(maxConns, n)
  {
    es := [];
    if n > 0 {
      es := BusyRun(maxConns, n - 1);
      es := RunAppends(Start(maxConns), es, Accept);
      es := RunAppends(Start(maxConns), es, Place);
      es := RunAppends(Start(maxConns), es, Enter(n - 1));
      assert (seq(n - 1, _ => Inside) + [Spawned])[n - 1 := Inside] == seq(n, _ => Inside);
    }
  }

  lemma {:induction false} TallyAll(hs: seq<Handler>, kind: Kind)
    requires forall h :: h in hs ==> Is(h, kind)
    ensures Tally(hs, kind) == |hs|
  {
    if hs != [] {
      TallyAll(hs[..|hs| - 1], kind);
    }
  }

  /** The cap is reached: for every maxConns, a run with exactly that many inside HandleConnection, none
      rejected on the way. */
  lemma CapIsReached(maxConns: nat) returns (es: seq<Event>)
    ensures IsRun(Start(maxConns), es)
    ensures var t := Final(Start(maxConns), es);
            Tally(t.handlers, InHandleConnection) == maxConns && t.accepted == maxConns && t.rejected == 0
  {
    es := BusyRun(maxConns, maxConns);
    TallyAll(seq(maxConns, _ => Inside), InHandleConnection);
  }

  ghost predicate LoopDone(s: State) {
    s.loop == Draining || s.loop == Drained || s.loop == TimedOut || s.loop == Failed
  }

  /** From the moment draining begins no connection is admitted any more. */
  lemma {:induction false} NothingAdmittedOnceDraining(s: State, es: seq<Event>)
    requires Inv(s) && LoopDone(s) && IsRun(s, es)
    ensures var t := Final(s, es);
            && LoopDone(t) && |t.handlers| == |s.handlers| && t.accepted == s.accepted && t.waitGroup <= s.waitGroup
    decreases es
  {
    if es != [] {
      InvStep(s, es[0]);
      NothingAdmittedOnceDraining(Next(s, es[0]), es[1..]);
    }
  }

  /** "All drained" is reported only when every handler has finished, and that stays so. */
  lemma DrainedMeansNoneRemain(maxConns: nat, es: seq<Event>, more: seq<Event>)
    requires IsRun(Start(maxConns), es) && Final(Start(maxConns), es).loop == Drained
    requires IsRun(Final(Start(maxConns), es), more)
    ensures var t := Final(Final(Start(maxConns), es), more);
            forall i :: 0 <= i < |t.handlers| ==> t.handlers[i] == Finished
  {
    var s := Final(Start(maxConns), es);
    InvRun(Start(maxConns), es);
    NothingAdmittedOnceDraining(s, more);
    InvRun(s, more);
    var t := Final(s, more);
    forall i | 0 <= i < |t.handlers|
      ensures t.handlers[i] == Finished
    {
      TallyUpdate(t.handlers, i, Finished, Unfinished);
    }
  }

  /** Handler i's goroutine enters HandleConnection somewhere in the run. */
  ghost predicate Starts(s: State, es: seq<Event>, i: nat) {
    IsRun(s, es) && Enter(i) in es
  }

  lemma {:induction false} StartsOnlyIfSpawned(s: State, es: seq<Event>, i: nat)
    requires Inv(s) && LoopDone(s) && Starts(s, es, i)
    ensures At(s, i, Spawned)
    decreases es
  {
    if es[0] != Enter(i) {
      assert Enter(i) in es[1..];
      InvStep(s, es[0]);
      StartsOnlyIfSpawned(Next(s, es[0]), es[1..], i);
    }
  }

  /** Once draining has begun, handler i may still start if and only if it was admitted before and has
      not been run yet. */
  lemma StartsIffSpawned(s: State, i: nat)
    requires Inv(s) && LoopDone(s)
    ensures (exists es :: Starts(s, es, i)) <==> At(s, i, Spawned)
  {
    forall es | Starts(s, es, i)
      ensures At(s, i, Spawned)
    {
      StartsOnlyIfSpawned(s, es, i);
    }
    if At(s, i, Spawned) {
      assert IsRun(Next(s, Enter(i)), []);
      assert Starts(s, [Enter(i)], i);
    }
  }

  lemma {:induction false} TallyPositiveIff(hs: seq<Handler>, kind: Kind)
    ensures Tally(hs, kind) > 0 <==> exists i :: 0 <= i < |hs| && Is(hs[i], kind)
  {
    if hs != [] {
      var k := |hs| - 1;
      TallyPositiveIff(hs[..k], kind);
      assert Is(hs[k], kind) ==> exists i :: 0 <= i < |hs| && Is(hs[i], kind);
    }
  }

  /** While draining, "all drained" can be reported exactly when every handler has finished. */
  lemma DrainedIffAllFinished(maxConns: nat, es: seq<Event>)
    requires IsRun(Start(maxConns), es) && Final(Start(maxConns), es).loop == Draining
    ensures var t := Final(Start(maxConns), es);
            Enabled(t, AllDone) <==> forall i :: 0 <= i < |t.handlers| ==> t.handlers[i] == Finished
  {
    InvRun(Start(maxConns), es);
    TallyPositiveIff(Final(Start(maxConns), es).handlers, Unfinished);
  }

  /** So no handler starts after draining has begun exactly when every admitted one had started. */
  lemma NoneStartsIff(maxConns: nat, es: seq<Event>)
    requires IsRun(Start(maxConns), es) && LoopDone(Final(Start(maxConns), es))
    ensures var s := Final(Start(maxConns), es);
            (forall more, i :: !Starts(s, more, i)) <==> Tally(s.handlers, NotStarted) == 0
  {
    InvRun(Start(maxConns), es);
    var s := Final(Start(maxConns), es);
    TallyPositiveIff(s.handlers, NotStarted);
    if i: nat :| i < |s.handlers| && Is(s.handlers[i], NotStarted) {
      StartsIffSpawned(s, i);
      var more :| Starts(s, more, i);
    }
    forall more, i: nat | Starts(s, more, i)
      ensures i < |s.handlers| && Is(s.handlers[i], NotStarted)
    {
      StartsOnlyIfSpawned(s, more, i);
    }
  }

  /** A connection admitted earlier may still begin running after draining has begun. */
  lemma LateStart(maxConns: nat) returns (es: seq<Event>)
    requires maxConns > 0
    ensures IsRun(Start(maxConns), es)
    ensures var t := Final(Start(maxConns), es); t.loop == Draining && Enabled(t, Enter(0))
  {
    es := [Accept, Place, Shutdown, SeeShutdown];
    var s1 := Next(Start(maxConns), Accept);
    var s2 := Next(s1, Place);
    var s3 := Next(s2, Shutdown);
    var s4 := Next(s3, SeeShutdown);
    assert es[1..] == [Place, Shutdown, SeeShutdown] && es[1..][1..] == [Shutdown, SeeShutdown];
    assert es[1..][1..][1..] == [SeeShutdown];
    assert IsRun(s3, [SeeShutdown]) && Final(s3, [SeeShutdown]) == s4;
    assert IsRun(s2, es[1..][1..]) && Final(s2, es[1..][1..]) == s4;
  }
}
