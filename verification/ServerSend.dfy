/**
 The server's side of sending, a different algorithm from the client's: an atomic flag says whether some thread is
 responsible for the queue, and RegisterSend runs outside the lock. Any number of threads call Send and Disconnect, the
 socket refuses, takes, transmits or breaks batches as it likes, and a scheduler interleaves all steps.
 */
module ServerSend {
  import opened Bytes

  type Tid = nat

  /** What became of a batch: transmitted, cut off by a failing connection, or refused by WSASend and thrown away. */
  datatype Fate = Sent | Broken(bytes: nat) | Dropped

  datatype Batch = Batch(segs: seq<bytes>, fate: Fate)

  /** Where a thread stands: what it does next. */
  datatype Pc =
    | Idle
    | Enter                  // RegisterSend: about to read _connected
    | Drain                  // RegisterSend: about to take the lock and empty the queue
    | Submit                 // RegisterSend: about to call WSASend
    | Failing(fatal: bool)   // WSASend refused: in HandleError
    | ClearBatch             // about to clear sendBuffers
    | ResetFlag              // about to reset _sendRegistered
    | Completing(ok: bool)   // ProcessSend: about to clear sendBuffers
    | Recheck                // ProcessSend: about to take the lock and look at the queue
    | Exchange(back: bool)   // Disconnect: about to exchange _connected; back: called from HandleError

  /** The fields, the socket's part in `flight`, and the history: segments accepted, batches decided. */
  datatype State = State(
    queue: seq<bytes>, buffers: seq<bytes>, connected: bool, registered: bool, flight: Option<Option<bool>>,
    pcs: map<Tid, Pc>, accepted: seq<bytes>, log: seq<Batch>, decided: bool)

  const START := State([], [], true, false, None, map[], [], [], false)

  datatype Action =
    | Send(t: Tid, seg: bytes)
    | CallDisconnect(t: Tid)
    | Proceed(t: Tid)                    // thread t takes its next step
    | Call(t: Tid, ok: bool, fatal: bool)  // thread t calls WSASend, which takes the batch or refuses it
    | Transmit(ok: bool, bytes: nat)     // the socket finishes the batch it holds
    | Dispatch(t: Tid)                   // an I/O thread enters ProcessSend

  function At(s: State, t: Tid): Pc {
    if t in s.pcs then s.pcs[t] else Idle
  }

  function GoTo(s: State, t: Tid, pc: Pc): State {
    s.(pcs := s.pcs[t := pc])
  }

  /** Push and exchange are one critical section. */
  function StepSend(s: State, t: Tid, seg: bytes): Option<State> {
    if At(s, t) != Idle then None
    else
      var n := s.(queue := s.queue + [seg], accepted := s.accepted + [seg], registered := true);
      Some(if s.registered then n else GoTo(n, t, Enter))
  }

  function StepProceed(s: State, t: Tid): Option<State> {
    match At(s, t)
    case Idle => None
    case Submit => None
    case Enter => Some(GoTo(s, t, if s.connected then Drain else Idle))
    case Drain => Some(GoTo(s.(buffers := s.buffers + s.queue, queue := [], decided := false), t, Submit))
    case Failing(fatal) => Some(GoTo(s, t, if fatal then Exchange(true) else ClearBatch))
    case ClearBatch => Some(GoTo(s.(buffers := []), t, ResetFlag))
    case ResetFlag => Some(GoTo(s.(registered := false), t, Idle))
    case Completing(ok) => Some(GoTo(s.(buffers := []), t, if ok then Recheck else Exchange(false)))
    case Recheck =>
      Some(if s.queue == [] then GoTo(s.(registered := false), t, Idle) else GoTo(s, t, Enter))
    case Exchange(back) => Some(GoTo(s.(connected := false), t, if back then ClearBatch else Idle))
  }

  function StepCall(s: State, t: Tid, ok: bool, fatal: bool): Option<State> {
    if At(s, t) != Submit then None
    else if ok then Some(GoTo(s.(flight := Some(None)), t, Idle))
    else Some(GoTo(s.(log := s.log + [Batch(s.buffers, Dropped)], decided := true), t, Failing(fatal)))
  }

  function StepTransmit(s: State, ok: bool, bytes: nat): Option<State> {
    if s.flight != Some(None) then None
    else
      var batch := Batch(s.buffers, if ok then Sent else Broken(bytes));
      Some(s.(flight := Some(Some(ok)), log := s.log + [batch], decided := true))
  }

  function StepDispatch(s: State, t: Tid): Option<State> {
    if At(s, t) != Idle || s.flight.None? || s.flight.value.None? then None
    else Some(GoTo(s.(flight := None), t, Completing(s.flight.value.value)))
  }

  /** One step of the system; None when the scheduler cannot take it now. */
  function Step(s: State, a: Action): Option<State> {
    match a
    case Send(t, seg) => StepSend(s, t, seg)
    case CallDisconnect(t) => if At(s, t) == Idle then Some(GoTo(s, t, Exchange(false))) else None
    case Proceed(t) => StepProceed(s, t)
    case Call(t, ok, fatal) => StepCall(s, t, ok, fatal)
    case Transmit(ok, bytes) => StepTransmit(s, ok, bytes)
    case Dispatch(t) => StepDispatch(s, t)
  }

  function Run(s: State, actions: seq<Action>): Option<State>
    decreases |actions|
  {
    if actions == [] then Some(s)
    else
      match Step(s, actions[0])
      case None => None
      case Some(n) => Run(n, actions[1..])
  }

  // ---------------------------------------------------------------------------------------------
  // The history
  // ---------------------------------------------------------------------------------------------

  function Segs(log: seq<Batch>): seq<bytes> {
    if log == [] then [] else log[0].segs + Segs(log[1..])
  }

  function Size(b: Batch): nat {
    |Flatten(b.segs)|
  }

  /** How many bytes of a batch reach the wire. */
  function Reach(b: Batch): (n: nat)
    ensures n <= Size(b)
  {
    match b.fate
    case Sent => Size(b)
    case Broken(n) => if n < Size(b) then n else Size(b)
    case Dropped => 0
  }

  /** What the decided batches put on the wire. */
  function OnWire(log: seq<Batch>): bytes {
    if log == [] then [] else Flatten(log[0].segs)[..Reach(log[0])] + OnWire(log[1..])
  }

  lemma {:induction false} SegsAppend(a: seq<Batch>, b: seq<Batch>)
    ensures Segs(a + b) == Segs(a) + Segs(b)
  {
    if a == [] {
      assert a + b == b;
    } else {
      assert (a + b)[1..] == a[1..] + b;
      SegsAppend(a[1..], b);
    }
  }

  lemma {:induction false} SegsOne(b: Batch)
    ensures Segs([b]) == b.segs
  {
    assert Segs([b]) == b.segs + Segs([]);
  }

  lemma {:induction false} OnWireAppend(a: seq<Batch>, b: seq<Batch>)
    ensures OnWire(a + b) == OnWire(a) + OnWire(b)
  {
    if a == [] {
      assert a + b == b;
    } else {
      assert (a + b)[1..] == a[1..] + b;
      OnWireAppend(a[1..], b);
      Assoc3(Flatten(a[0].segs)[..Reach(a[0])], OnWire(a[1..]), OnWire(b));
    }
  }

  // ---------------------------------------------------------------------------------------------
  // The invariant
  // ---------------------------------------------------------------------------------------------

  /** The thread is the one responsible for the queue. */
  predicate Busy(pc: Pc) {
    !pc.Idle? && (pc.Exchange? ==> pc.back)
  }

  ghost predicate SomeoneBusy(s: State) {
    exists t: Tid :: Busy(At(s, t))
  }

  predicate AllSent(log: seq<Batch>) {
    forall i | 0 <= i < |log| :: log[i].fate.Sent?
  }

  /** Only the last batch may have broken in the socket, and none is empty. */
  predicate GoodLog(log: seq<Batch>) {
    forall i | 0 <= i < |log| :: log[i].segs != [] && (log[i].fate.Broken? ==> i == |log| - 1)
  }

  predicate Broke(log: seq<Batch>) {
    log != [] && log[|log| - 1].fate.Broken?
  }

  predicate LastDropped(log: seq<Batch>) {
    log != [] && log[|log| - 1].fate.Dropped?
  }

  /** One thread or the socket is responsible, and only while the flag is set. */
  ghost predicate RoleInv(s: State) {
    && (forall t: Tid, u: Tid :: Busy(At(s, t)) && Busy(At(s, u)) ==> t == u)
    && (forall t: Tid :: Busy(At(s, t)) ==> s.registered && s.flight.None?)
    && (s.flight.Some? ==> s.registered)
    && (s.registered && s.connected && !Broke(s.log) ==> s.flight.Some? || SomeoneBusy(s))
  }

  /** What the responsible thread has in its hands. */
  predicate Holds(s: State, pc: Pc) {
    match pc
    case Idle => true
    case Enter => s.buffers == [] && s.queue != []
    case Drain => s.buffers == [] && s.queue != []
    case Submit => s.buffers != [] && !s.decided
    case Failing(_) => s.buffers != [] && s.decided && LastDropped(s.log)
    case ClearBatch => s.buffers != [] && s.decided && LastDropped(s.log)
    case ResetFlag => s.buffers == [] && LastDropped(s.log)
    case Completing(ok) => s.buffers != [] && s.decided && (Broke(s.log) <==> !ok)
    case Recheck => s.buffers == []
    case Exchange(back) => back ==> s.buffers != [] && s.decided && LastDropped(s.log)
  }

  ghost predicate HoldInv(s: State) {
    && (forall t: Tid :: Holds(s, At(s, t)))
    && (s.flight.Some? ==> s.buffers != [] && (s.decided <==> s.flight.value.Some?))
    && (s.flight.Some? && s.flight.value.Some? ==> (Broke(s.log) <==> !s.flight.value.value))
    && (s.flight.None? && !SomeoneBusy(s) ==> s.buffers == [])
    && (Broke(s.log) && s.flight.Some? ==> s.flight.value.Some?)
    && (Broke(s.log) ==> s.registered && forall t: Tid :: Busy(At(s, t)) ==> At(s, t).Completing?)
  }

  /** Every accepted segment is in a decided batch, in the batch in hand, or in the queue, in order. */
  ghost predicate KeepInv(s: State) {
    && s.accepted == Segs(s.log) + (if s.decided then [] else s.buffers) + s.queue
    && GoodLog(s.log)
  }

  ghost predicate Inv(s: State) {
    RoleInv(s) && HoldInv(s) && KeepInv(s)
  }

  lemma InvAtStart()
    ensures Inv(START)
  {
  }

  /** A step moves one thread at most. */
  lemma Moves(s: State, n: State, t: Tid, pc: Pc)
    requires n.pcs == s.pcs[t := pc]
    ensures At(n, t) == pc
    ensures forall u: Tid {:trigger At(s, u)} {:trigger At(n, u)} :: u != t ==> At(n, u) == At(s, u)
  {
  }

  lemma Stays(s: State, n: State)
    requires n.pcs == s.pcs
    ensures forall u: Tid {:trigger At(s, u)} {:trigger At(n, u)} :: At(n, u) == At(s, u)
    ensures SomeoneBusy(n) <==> SomeoneBusy(s)
  {
    if SomeoneBusy(s) { var t: Tid :| Busy(At(s, t)); assert Busy(At(n, t)); }
    if SomeoneBusy(n) { var t: Tid :| Busy(At(n, t)); assert Busy(At(s, t)); }
  }

  /** The same, and who is busy afterwards. */
  lemma MovesBusy(s: State, n: State, t: Tid, pc: Pc)
    requires n.pcs == s.pcs[t := pc]
    ensures At(n, t) == pc
    ensures forall u: Tid {:trigger At(s, u)} {:trigger At(n, u)} :: u != t ==> At(n, u) == At(s, u)
    ensures !Busy(At(s, t)) ==> (SomeoneBusy(n) <==> Busy(pc) || SomeoneBusy(s))
    ensures Busy(At(s, t)) && RoleInv(s) ==> (SomeoneBusy(n) <==> Busy(pc))
  {
    Moves(s, n, t, pc);
    if SomeoneBusy(s) && !Busy(At(s, t)) { var u: Tid :| Busy(At(s, u)); assert Busy(At(n, u)); }
    if SomeoneBusy(n) { var u: Tid :| Busy(At(n, u)); assert u != t ==> Busy(At(s, u)); }
    if Busy(pc) { assert Busy(At(n, t)); }
  }

  lemma {:induction false} LogGrows(log: seq<Batch>, b: Batch)
    requires GoodLog(log) && !Broke(log) && b.segs != []
    ensures GoodLog(log + [b]) && Segs(log + [b]) == Segs(log) + b.segs
    ensures Broke(log + [b]) <==> b.fate.Broken?
  {
    SegsAppend(log, [b]);
    SegsOne(b);
  }

  lemma SendKeepsInv(s: State, t: Tid, seg: bytes)
    requires Inv(s) && StepSend(s, t, seg).Some?
    ensures Inv(StepSend(s, t, seg).value)
  {
    hide Segs, GoodLog;
    var n := StepSend(s, t, seg).value;
    var done := Segs(s.log) + if s.decided then [] else s.buffers;
    assert done + s.queue + [seg] == done + (s.queue + [seg]);
    if s.registered { Stays(s, n); } else { MovesBusy(s, n, t, Enter); }
  }

  lemma CallDisconnectKeepsInv(s: State, t: Tid)
    requires Inv(s) && At(s, t) == Idle
    ensures Inv(GoTo(s, t, Exchange(false)))
  {
    hide Segs, GoodLog;
    MovesBusy(s, GoTo(s, t, Exchange(false)), t, Exchange(false));
  }

  lemma DrainKeepsInv(s: State, t: Tid)
    requires Inv(s) && At(s, t) == Drain
    ensures Inv(StepProceed(s, t).value)
  {
    var n := StepProceed(s, t).value;
    assert KeepInv(n) by { DrainedIsKept(s); }
    hide KeepInv;
    MovesBusy(s, n, t, Submit);
  }

  lemma DrainedIsKept(s: State)
    requires KeepInv(s) && s.buffers == []
    ensures s.buffers + s.queue == s.queue
    ensures s.accepted == Segs(s.log) + (s.buffers + s.queue) + []
  {
    hide Segs, GoodLog;
    AroundNothing(Segs(s.log), s.queue);
  }

  lemma AroundNothing(a: seq<bytes>, b: seq<bytes>)
    ensures a + [] + b == a + b == a + b + [] && [] + b == b
  {
  }

  lemma ClearKeepsInv(s: State, t: Tid)
    requires Inv(s) && (At(s, t) == ClearBatch || At(s, t).Completing?)
    ensures Inv(StepProceed(s, t).value)
  {
    hide Segs, GoodLog;
    var n := StepProceed(s, t).value;
    MovesBusy(s, n, t, At(n, t));
  }

  lemma OtherProceedKeepsInv(s: State, t: Tid)
    requires Inv(s) && At(s, t) != Drain && At(s, t) != ClearBatch && !At(s, t).Completing?
    requires StepProceed(s, t).Some?
    ensures Inv(StepProceed(s, t).value)
  {
    hide Segs, GoodLog;
    var n := StepProceed(s, t).value;
    MovesBusy(s, n, t, At(n, t));
  }

  lemma CallKeepsInv(s: State, t: Tid, ok: bool, fatal: bool)
    requires Inv(s) && StepCall(s, t, ok, fatal).Some?
    ensures Inv(StepCall(s, t, ok, fatal).value)
  {
    var n := StepCall(s, t, ok, fatal).value;
    if !ok {
      assert KeepInv(n) by { DecidedIsKept(s, Dropped); }
      LogGrows(s.log, Batch(s.buffers, Dropped));
    }
    hide KeepInv, GoodLog, Segs;
    MovesBusy(s, n, t, At(n, t));
  }

  /** The batch in hand becomes a decided one. */
  lemma DecidedIsKept(s: State, fate: Fate)
    requires KeepInv(s) && !s.decided && !Broke(s.log) && s.buffers != []
    ensures var log := s.log + [Batch(s.buffers, fate)]; s.accepted == Segs(log) + [] + s.queue && GoodLog(log)
  {
    LogGrows(s.log, Batch(s.buffers, fate));
    hide Segs, GoodLog;
    var now := Segs(s.log + [Batch(s.buffers, fate)]);
    assert now + [] == now;
  }

  lemma TransmitKeepsInv(s: State, ok: bool, bytes: nat)
    requires Inv(s) && StepTransmit(s, ok, bytes).Some?
    ensures Inv(StepTransmit(s, ok, bytes).value)
  {
    var n := StepTransmit(s, ok, bytes).value;
    var fate := if ok then Sent else Broken(bytes);
    assert KeepInv(n) by { DecidedIsKept(s, fate); }
    LogGrows(s.log, Batch(s.buffers, fate));
    hide KeepInv, GoodLog, Segs;
    Stays(s, n);
  }

  lemma DispatchKeepsInv(s: State, t: Tid)
    requires Inv(s) && StepDispatch(s, t).Some?
    ensures Inv(StepDispatch(s, t).value)
  {
    hide Segs, GoodLog;
    var n := StepDispatch(s, t).value;
    MovesBusy(s, n, t, At(n, t));
  }

  lemma StepKeepsInv(s: State, a: Action)
    requires Inv(s) && Step(s, a).Some?
    ensures Inv(Step(s, a).value)
  {
    hide Inv, StepProceed, StepSend, StepCall, StepTransmit, StepDispatch;
    match a {
      case Send(t, seg) => SendKeepsInv(s, t, seg);
      case CallDisconnect(t) => CallDisconnectKeepsInv(s, t);
      case Proceed(t) =>
        if At(s, t) == Drain { DrainKeepsInv(s, t); }
        else if At(s, t) == ClearBatch || At(s, t).Completing? { ClearKeepsInv(s, t); }
        else { OtherProceedKeepsInv(s, t); }
      case Call(t, ok, fatal) => CallKeepsInv(s, t, ok, fatal);
      case Transmit(ok, bytes) => TransmitKeepsInv(s, ok, bytes);
      case Dispatch(t) => DispatchKeepsInv(s, t);
    }
  }

  lemma {:induction false} RunKeepsInv(s: State, actions: seq<Action>)
    requires Inv(s) && Run(s, actions).Some?
    ensures Inv(Run(s, actions).value)
    decreases |actions|
  {
    hide Inv, Step;
    if actions != [] {
      StepKeepsInv(s, actions[0]);
      RunKeepsInv(Step(s, actions[0]).value, actions[1..]);
    }
  }

  // ---------------------------------------------------------------------------------------------
  // What holds in every run
  // ---------------------------------------------------------------------------------------------

  /** The batch that was drained and is not decided yet. */
  function Undecided(s: State): seq<bytes> {
    if s.decided then [] else s.buffers
  }

  lemma {:induction false} Reachable(actions: seq<Action>)
    requires Run(START, actions).Some?
    ensures Inv(Run(START, actions).value)
  {
    InvAtStart();
    RunKeepsInv(START, actions);
  }

  /** Between the drain and the end of its completion there is one batch, and one thread or the socket has it. */
  lemma {:induction false} OneBatch(actions: seq<Action>, t: Tid, u: Tid)
    requires Run(START, actions).Some?
    ensures var s := Run(START, actions).value;
            Busy(At(s, t)) && Busy(At(s, u)) ==> t == u
    ensures var s := Run(START, actions).value;
            Busy(At(s, t)) ==> s.flight.None?
    ensures var s := Run(START, actions).value;
            At(s, t) == Submit ==> s.buffers == Undecided(s) != [] && s.accepted == Segs(s.log) + s.buffers + s.queue
    ensures var s := Run(START, actions).value;
            s.buffers != [] ==> s.flight.Some? || SomeoneBusy(s)
  {
    Reachable(actions);
  }

  lemma {:induction false} AllSentWire(log: seq<Batch>)
    requires AllSent(log)
    ensures OnWire(log) == Flatten(Segs(log))
  {
    if log != [] {
      assert AllSent(log[1..]) by { assert forall i | 0 <= i < |log| - 1 :: log[1..][i] == log[i + 1]; }
      AllSentWire(log[1..]);
      FlattenAppend(log[0].segs, Segs(log[1..]));
      assert Flatten(log[0].segs)[..Size(log[0])] == Flatten(log[0].segs);
    }
  }

  /**
   Under every schedule: the accepted segments are those of the decided batches, then the batch in hand, then the
   queue. Until a batch is refused or breaks, the accepted bytes are the wire, then that batch, then the queue.
   */
  lemma {:induction false} Conserves(actions: seq<Action>)
    requires Run(START, actions).Some?
    ensures var s := Run(START, actions).value;
            s.accepted == Segs(s.log) + Undecided(s) + s.queue
    ensures var s := Run(START, actions).value;
            AllSent(s.log) ==> Flatten(s.accepted) == OnWire(s.log) + Flatten(Undecided(s)) + Flatten(s.queue)
  {
    Reachable(actions);
    var s := Run(START, actions).value;
    if AllSent(s.log) {
      AllSentWire(s.log);
      FlattenAppend(Segs(s.log) + Undecided(s), s.queue);
      FlattenAppend(Segs(s.log), Undecided(s));
    }
  }

  /** The segments handed to Send, in the order in which the calls got the lock. */
  function Handed(actions: seq<Action>): seq<bytes> {
    if actions == [] then []
    else (if actions[0].Send? then [actions[0].seg] else []) + Handed(actions[1..])
  }

  /** Nothing else enters the history, and nothing leaves it. */
  lemma {:induction false} AcceptedIsHanded(s: State, actions: seq<Action>)
    requires Run(s, actions).Some?
    ensures Run(s, actions).value.accepted == s.accepted + Handed(actions)
    decreases |actions|
  {
    if actions != [] {
      StepAccepts(s, actions[0]);
      hide Step;
      AcceptedIsHanded(Step(s, actions[0]).value, actions[1..]);
      var first := if actions[0].Send? then [actions[0].seg] else [];
      assert s.accepted + (first + Handed(actions[1..])) == s.accepted + first + Handed(actions[1..]);
    } else {
      assert s.accepted + [] == s.accepted;
    }
  }

  lemma StepAccepts(s: State, a: Action)
    requires Step(s, a).Some?
    ensures Step(s, a).value.accepted == s.accepted + if a.Send? then [a.seg] else []
  {
    assert s.accepted + [] == s.accepted;
  }

  // Which bytes are on the wire

  function Range(from: nat, n: nat): (r: seq<nat>)
    ensures |r| == n
    ensures forall i | 0 <= i < n :: r[i] == from + i
  {
    seq(n, i requires 0 <= i => from + i)
  }

  /** The places of the transmitted bytes among the bytes of all decided batches, in the order of transmission. */
  function Positions(log: seq<Batch>, from: nat): seq<nat> {
    if log == [] then [] else Range(from, Reach(log[0])) + Positions(log[1..], from + Size(log[0]))
  }

  /** No byte follows a batch that did not reach the wire completely. */
  predicate GapFree(log: seq<Batch>) {
    forall i, j | 0 <= i < j < |log| && Reach(log[i]) < Size(log[i]) :: Reach(log[j]) == 0
  }

  /** `some` are the elements of `all` at these growing places, which are counted from `from` on. */
  ghost predicate Picks<T>(places: seq<nat>, from: nat, some: seq<T>, all: seq<T>) {
    && |places| == |some|
    && (forall i | 0 <= i < |places| :: from <= places[i] < from + |all|)
    && (forall i | 0 <= i < |places| :: some[i] == all[places[i] - from])
    && (forall i, j | 0 <= i < j < |places| :: places[i] < places[j])
  }

  lemma PicksFirst<T>(from: nat, n: nat, all: seq<T>)
    requires n <= |all|
    ensures Picks(Range(from, n), from, all[..n], all)
  {
  }

  lemma PicksAppend<T>(p: seq<nat>, q: seq<nat>, from: nat, a: seq<T>, b: seq<T>, front: seq<T>, back: seq<T>)
    requires Picks(p, from, a, front) && Picks(q, from + |front|, b, back)
    ensures Picks(p + q, from, a + b, front + back)
  {
    var places, some, all := p + q, a + b, front + back;
    forall i | 0 <= i < |places|
      ensures from <= places[i] < from + |all| && some[i] == all[places[i] - from]
    {
      if i >= |p| { assert places[i] == q[i - |p|]; }
    }
    forall i, j | 0 <= i < j < |places| ensures places[i] < places[j] {
      assert j >= |p| ==> places[j] == q[j - |p|];
      assert i >= |p| ==> places[i] == q[i - |p|];
    }
  }

  /** The wire carries the bytes at these places. */
  lemma {:induction false} WireAtPositions(log: seq<Batch>, from: nat)
    ensures Picks(Positions(log, from), from, OnWire(log), Flatten(Segs(log)))
    decreases |log|
  {
    if log != [] {
      var here := Flatten(log[0].segs);
      FlattenAppend(log[0].segs, Segs(log[1..]));
      WireAtPositions(log[1..], from + Size(log[0]));
      PicksFirst(from, Reach(log[0]), here);
      hide Picks, Flatten;
      PicksAppend(Range(from, Reach(log[0])), Positions(log[1..], from + Size(log[0])), from,
                  here[..Reach(log[0])], OnWire(log[1..]), here, Flatten(Segs(log[1..])));
    }
  }

  lemma {:induction false} PositionsSize(log: seq<Batch>, from: nat)
    ensures |Positions(log, from)| == |OnWire(log)|
    ensures forall k | 0 <= k < |Positions(log, from)| :: Positions(log, from)[k] >= from
    ensures Positions(log, from) == [] <==> forall i | 0 <= i < |log| :: Reach(log[i]) == 0
    decreases |log|
  {
    if log != [] {
      PositionsSize(log[1..], from + Size(log[0]));
      assert forall i | 1 <= i < |log| :: log[i] == log[1..][i - 1];
      assert forall i | 0 <= i < |log| - 1 :: log[1..][i] == log[i + 1];
    }
  }

  lemma {:induction false} GapFreeCons(b: Batch, log: seq<Batch>)
    ensures GapFree([b] + log) <==>
            GapFree(log) && (Reach(b) < Size(b) ==> forall i | 0 <= i < |log| :: Reach(log[i]) == 0)
  {
    var all := [b] + log;
    assert forall i | 0 <= i < |log| :: all[i + 1] == log[i];
    if GapFree(all) {
      forall i, j | 0 <= i < j < |log| && Reach(log[i]) < Size(log[i]) ensures Reach(log[j]) == 0 {
        assert all[i + 1] == log[i] && all[j + 1] == log[j];
      }
      forall i | 0 <= i < |log| && Reach(b) < Size(b) ensures Reach(log[i]) == 0 {
        assert all[0] == b && all[i + 1] == log[i];
      }
    }
  }

  lemma {:induction false} SilentIsGapFree(log: seq<Batch>)
    requires forall i | 0 <= i < |log| :: Reach(log[i]) == 0
    ensures GapFree(log)
  {
  }

  lemma RangeSplit(from: nat, n: nat, tail: seq<nat>)
    ensures Range(from, n) + tail == Range(from, n + |tail|) <==> tail == Range(from + n, |tail|)
  {
    assert Range(from, n + |tail|) == Range(from, n) + Range(from + n, |tail|);
    assert tail == (Range(from, n) + tail)[n..] && Range(from + n, |tail|) == Range(from, n + |tail|)[n..];
  }

  /** Places before and after a gap are no range. */
  lemma RangeGap(from: nat, n: nat, size: nat, tail: seq<nat>)
    requires n <= size && (tail != [] ==> tail[0] >= from + size)
    ensures Range(from, n) + tail == Range(from, n + |tail|) <==>
            tail == [] || (n == size && tail == Range(from + size, |tail|))
  {
    if n == size {
      RangeSplit(from, n, tail);
    } else if tail != [] {
      assert (Range(from, n) + tail)[n] == tail[0];
    } else {
      assert Range(from, n) + tail == Range(from, n);
    }
  }

  /** The transmitted bytes are the first ones of the decided batches, with none left out. */
  predicate InOrder(log: seq<Batch>, from: nat) {
    Positions(log, from) == Range(from, |Positions(log, from)|)
  }

  lemma {:induction false} InOrderCons(log: seq<Batch>, from: nat)
    requires log != []
    ensures var tail := Positions(log[1..], from + Size(log[0]));
            InOrder(log, from) <==>
              tail == [] || (Reach(log[0]) == Size(log[0]) && InOrder(log[1..], from + Size(log[0])))
  {
    var tail := Positions(log[1..], from + Size(log[0]));
    assert Positions(log, from) == Range(from, Reach(log[0])) + tail;
    PositionsSize(log[1..], from + Size(log[0]));
    RangeGap(from, Reach(log[0]), Size(log[0]), tail);
  }

  /** They are exactly when no byte follows a gap. */
  lemma {:induction false} InOrderIff(log: seq<Batch>, from: nat)
    ensures InOrder(log, from) <==> GapFree(log)
    decreases |log|
  {
    if log != [] {
      hide Reach, Size, GapFree, Positions, InOrder;
      var b, rest := log[0], log[1..];
      assert log == [b] + rest;
      GapFreeCons(b, rest);
      InOrderCons(log, from);
      PositionsSize(rest, from + Size(b));
      InOrderIff(rest, from + Size(b));
      if Positions(rest, from + Size(b)) == [] {
        SilentIsGapFree(rest);
      }
    }
  }

  lemma {:induction false} GapFreeWire(log: seq<Batch>)
    requires GapFree(log)
    ensures OnWire(log) <= Flatten(Segs(log))
  {
    InOrderIff(log, 0);
    WireAtPositions(log, 0);
    var wire, all := OnWire(log), Flatten(Segs(log));
    hide Positions, OnWire, Flatten, Segs, GapFree;
    assert wire != [] ==> Positions(log, 0)[|wire| - 1] == |wire| - 1 < |all|;
    forall k | 0 <= k < |wire| ensures wire[k] == all[k] {
      assert Positions(log, 0)[k] == k;
    }
  }

  /**
   In every run: the wire carries the first accepted bytes, with none left out, if and only if no byte followed a batch
   that was thrown away.
   */
  lemma {:induction false} WireIsPrefixIff(actions: seq<Action>)
    requires Run(START, actions).Some?
    ensures var log := Run(START, actions).value.log;
            InOrder(log, 0) <==>
              forall i, j | 0 <= i < j < |log| && log[i].fate.Dropped? && Size(log[i]) > 0 :: Reach(log[j]) == 0
    ensures var s := Run(START, actions).value;
            InOrder(s.log, 0) ==> OnWire(s.log) <= Flatten(s.accepted)
  {
    Reachable(actions);
    var s := Run(START, actions).value;
    InOrderIff(s.log, 0);
    PositionsSize(s.log, 0);
    if GapFree(s.log) {
      GapFreeWire(s.log);
      FlattenAppend(Segs(s.log) + Undecided(s), s.queue);
      FlattenAppend(Segs(s.log), Undecided(s));
      PrefixTrans(OnWire(s.log), Flatten(Segs(s.log)), Flatten(s.accepted));
    }
  }

  // Which segments survive

  /** The places of the segments that were not thrown away among all segments of decided batches. */
  function Kept(log: seq<Batch>, from: nat): seq<nat> {
    if log == [] then []
    else (if log[0].fate.Dropped? then [] else Range(from, |log[0].segs|)) + Kept(log[1..], from + |log[0].segs|)
  }

  /** Those segments. */
  function Surviving(log: seq<Batch>): seq<bytes> {
    if log == [] then [] else (if log[0].fate.Dropped? then [] else log[0].segs) + Surviving(log[1..])
  }

  lemma {:induction false} KeptCons(log: seq<Batch>, from: nat)
    requires log != []
    ensures var n := if log[0].fate.Dropped? then 0 else |log[0].segs|;
            && Kept(log, from) == Range(from, n) + Kept(log[1..], from + |log[0].segs|)
            && Surviving(log) == log[0].segs[..n] + Surviving(log[1..])
  {
    assert log[0].segs[..|log[0].segs|] == log[0].segs;
  }

  /** The surviving segments are those at the kept places, in order. */
  lemma {:induction false} KeptAt(log: seq<Batch>, from: nat)
    ensures Picks(Kept(log, from), from, Surviving(log), Segs(log))
    decreases |log|
  {
    if log != [] {
      var here, n := log[0].segs, if log[0].fate.Dropped? then 0 else |log[0].segs|;
      KeptCons(log, from);
      assert Segs(log) == here + Segs(log[1..]);
      hide Picks, Kept, Surviving, Segs;
      KeptAt(log[1..], from + |here|);
      PicksFirst(from, n, here);
      PicksAppend(Range(from, n), Kept(log[1..], from + |here|), from, here[..n], Surviving(log[1..]), here,
                  Segs(log[1..]));
    } else {
      assert Kept(log, from) == [] && Surviving(log) == [];
    }
  }

  /** Without a thrown batch, all places in order. */
  lemma {:induction false} AllKept(log: seq<Batch>, from: nat)
    requires forall i | 0 <= i < |log| :: !log[i].fate.Dropped?
    ensures Kept(log, from) == Range(from, |Segs(log)|) && Surviving(log) == Segs(log)
    decreases |log|
  {
    if log != [] {
      var rest, n := log[1..], |log[0].segs|;
      KeptCons(log, from);
      assert Segs(log) == log[0].segs + Segs(rest) && log[0].segs[..n] == log[0].segs;
      assert forall i | 0 <= i < |rest| :: rest[i] == log[i + 1];
      hide Kept, Surviving, Segs, Range;
      AllKept(rest, from + n);
      RangeSplit(from, n, Range(from + n, |Segs(rest)|));
    }
  }

  /** The wire carries the surviving segments whole and in order, up to the batch that broke. */
  lemma {:induction false} WireCarriesSurvivors(log: seq<Batch>)
    requires GoodLog(log)
    ensures OnWire(log) <= Flatten(Surviving(log))
    ensures !Broke(log) ==> OnWire(log) == Flatten(Surviving(log))
  {
    if log != [] {
      var b, rest := log[0], log[1..];
      assert GoodLog(rest) by { assert forall i | 0 <= i < |rest| :: rest[i] == log[i + 1]; }
      assert rest != [] ==> rest[|rest| - 1] == log[|log| - 1];
      WireCarriesSurvivors(rest);
      FlattenAppend(b.segs, Surviving(rest));
      match b.fate {
        case Sent =>
          assert Flatten(b.segs)[..Size(b)] == Flatten(b.segs);
          PrefixUnder(Flatten(b.segs), OnWire(rest), Flatten(Surviving(rest)));
        case Broken(_) =>
          assert rest == [] && OnWire(log) == Flatten(b.segs)[..Reach(b)] + [];
          assert b.segs + [] == b.segs;
        case Dropped =>
          assert OnWire(log) == [] + OnWire(rest) && Surviving(log) == [] + Surviving(rest);
          assert [] + OnWire(rest) == OnWire(rest) && [] + Surviving(rest) == Surviving(rest);
      }
    }
  }

  lemma PrefixUnder(a: bytes, x: bytes, y: bytes)
    requires x <= y
    ensures a + x <= a + y
  {
  }

  // ---------------------------------------------------------------------------------------------
  // Batches that break, segments that are stranded
  // ---------------------------------------------------------------------------------------------

  lemma StepKeepsBroken(s: State, a: Action)
    requires Inv(s) && Broke(s.log) && Step(s, a).Some?
    ensures Step(s, a).value.log == s.log
  {
    hide RoleInv, KeepInv;
  }

  /** A batch that breaks in the socket is the last one. */
  lemma {:induction false} BrokenIsLast(s: State, actions: seq<Action>)
    requires Inv(s) && Broke(s.log) && Run(s, actions).Some?
    ensures Run(s, actions).value.log == s.log
    decreases |actions|
  {
    hide Inv, Step;
    if actions != [] {
      StepKeepsInv(s, actions[0]);
      StepKeepsBroken(s, actions[0]);
      BrokenIsLast(Step(s, actions[0]).value, actions[1..]);
    }
  }

  // Disconnected sessions

  /** Nothing is on its way to the socket or in it. */
  ghost predicate Still(s: State) {
    s.flight != Some(None) && forall t: Tid :: At(s, t) != Drain && At(s, t) != Submit
  }

  /** No step connects a session, and the exchange in Disconnect disconnects it. */
  lemma StepKeepsDisconnected(s: State, a: Action)
    requires Step(s, a).Some?
    ensures !s.connected || (a.Proceed? && At(s, a.t).Exchange?) ==> !Step(s, a).value.connected
    ensures s.connected && !Step(s, a).value.connected ==> a.Proceed? && At(s, a.t).Exchange?
  {
  }

  lemma ProceedKeepsStill(s: State, t: Tid)
    requires !s.connected && Still(s) && StepProceed(s, t).Some?
    ensures Still(StepProceed(s, t).value) && StepProceed(s, t).value.log == s.log
  {
    var n := StepProceed(s, t).value;
    Moves(s, n, t, At(n, t));
  }

  lemma StepKeepsStill(s: State, a: Action)
    requires !s.connected && Still(s) && Step(s, a).Some?
    ensures Still(Step(s, a).value) && Step(s, a).value.log == s.log
  {
    hide StepProceed;
    var n := Step(s, a).value;
    match a {
      case Send(t, _) => if n.pcs == s.pcs { Stays(s, n); } else { Moves(s, n, t, At(n, t)); }
      case CallDisconnect(t) => Moves(s, n, t, At(n, t));
      case Proceed(t) => ProceedKeepsStill(s, t);
      case Call(t, _, _) =>
      case Transmit(_, _) =>
      case Dispatch(t) => Moves(s, n, t, At(n, t));
    }
  }

  /** Once disconnected and still, no run sends another batch: each thread that comes to RegisterSend turns back. */
  lemma {:induction false} NothingAfterDisconnect(s: State, actions: seq<Action>)
    requires !s.connected && Still(s) && Run(s, actions).Some?
    ensures var n := Run(s, actions).value;
            !n.connected && Still(n) && n.log == s.log && OnWire(n.log) == OnWire(s.log)
    decreases |actions|
  {
    hide Still, Step, OnWire;
    if actions != [] {
      StepKeepsDisconnected(s, actions[0]);
      StepKeepsStill(s, actions[0]);
      NothingAfterDisconnect(Step(s, actions[0]).value, actions[1..]);
    }
  }

  /** The batch that is decided while disconnected was the one in hand, and leaves nothing on its way. */
  lemma StepStills(s: State, a: Action)
    requires Inv(s) && !s.connected && Step(s, a).Some?
    ensures var n := Step(s, a).value;
            n.log == s.log || (Still(n) && |n.log| == |s.log| + 1)
  {
    hide KeepInv, HoldInv;
    var n := Step(s, a).value;
    match a {
      case Call(t, ok, _) => if !ok { Moves(s, n, t, At(n, t)); }
      case Transmit(_, _) => Stays(s, n);
      case _ =>
    }
  }

  /** After a Disconnect at most one more batch is decided in any run: the one that was already drained. */
  lemma {:induction false} OneBatchAfterDisconnect(s: State, actions: seq<Action>)
    requires Inv(s) && !s.connected && Run(s, actions).Some?
    ensures var n := Run(s, actions).value;
            !n.connected && |s.log| <= |n.log| <= |s.log| + 1 && s.log <= n.log
    decreases |actions|
  {
    hide Inv, Still, Step;
    if actions != [] {
      var n := Step(s, actions[0]).value;
      StepKeepsDisconnected(s, actions[0]);
      StepKeepsInv(s, actions[0]);
      StepStills(s, actions[0]);
      StepExtendsLog(s, actions[0]);
      if n.log == s.log {
        OneBatchAfterDisconnect(n, actions[1..]);
      } else {
        NothingAfterDisconnect(n, actions[1..]);
      }
    }
  }

  lemma StepExtendsLog(s: State, a: Action)
    requires Step(s, a).Some?
    ensures s.log <= Step(s, a).value.log
  {
  }

  /** What ends a session: a call, a refusal that counts as a lost connection, a batch that breaks. */
  predicate Ends(a: Action) {
    a.CallDisconnect? || (a.Call? && !a.ok && a.fatal) || (a.Transmit? && !a.ok)
  }

  predicate Leaving(pc: Pc) {
    pc == Failing(true) || pc == Completing(false) || pc.Exchange?
  }

  /** The session is disconnected, or somebody is on the way to disconnect it. */
  ghost predicate Ending(s: State) {
    !s.connected || s.flight == Some(Some(false)) || exists t: Tid :: Leaving(At(s, t))
  }

  /** One thread moves. */
  lemma LeavingMoves(s: State, n: State, t: Tid, pc: Pc)
    requires n.pcs == s.pcs[t := pc]
    ensures (exists u: Tid :: Leaving(At(n, u))) <==> Leaving(pc) || exists u: Tid :: u != t && Leaving(At(s, u))
  {
    Moves(s, n, t, pc);
    if u: Tid :| Leaving(At(n, u)) { assert u != t ==> Leaving(At(s, u)); }
    if u: Tid :| u != t && Leaving(At(s, u)) { assert Leaving(At(n, u)); }
    if Leaving(pc) { assert Leaving(At(n, t)); }
  }

  lemma ProceedLeaving(s: State, t: Tid)
    requires StepProceed(s, t).Some? && !At(s, t).Exchange?
    ensures var n := StepProceed(s, t).value;
            && n.connected == s.connected && n.flight == s.flight && n.pcs == s.pcs[t := At(n, t)]
            && (Leaving(At(n, t)) <==> Leaving(At(s, t)))
  {
  }

  lemma LeavingSplit(s: State, t: Tid)
    ensures (exists u: Tid :: Leaving(At(s, u))) <==> Leaving(At(s, t)) || exists u: Tid :: u != t && Leaving(At(s, u))
  {
  }

  lemma ProceedEnding(s: State, t: Tid)
    requires StepProceed(s, t).Some?
    ensures Ending(StepProceed(s, t).value) <==> Ending(s)
  {
    if At(s, t).Exchange? {
      assert Leaving(At(s, t));
    } else {
      hide StepProceed, At, Leaving;
      var n := StepProceed(s, t).value;
      ProceedLeaving(s, t);
      LeavingMoves(s, n, t, At(n, t));
      LeavingSplit(s, t);
    }
  }

  lemma CallEnding(s: State, t: Tid, ok: bool, fatal: bool)
    requires RoleInv(s) && StepCall(s, t, ok, fatal).Some?
    ensures Ending(StepCall(s, t, ok, fatal).value) <==> Ending(s) || (!ok && fatal)
  {
    var n := StepCall(s, t, ok, fatal).value;
    CalledAlone(s, t);
    hide RoleInv;
    LeavingMoves(s, n, t, At(n, t));
  }

  lemma StepEnding(s: State, a: Action)
    requires RoleInv(s) && Step(s, a).Some?
    ensures Ending(Step(s, a).value) <==> Ending(s) || Ends(a)
  {
    hide RoleInv, StepProceed, StepCall;
    var n := Step(s, a).value;
    match a {
      case Send(t, _) => if n.pcs == s.pcs { Stays(s, n); } else { LeavingMoves(s, n, t, At(n, t)); }
      case CallDisconnect(t) => LeavingMoves(s, n, t, At(n, t));
      case Proceed(t) => ProceedEnding(s, t);
      case Call(t, ok, fatal) => CallEnding(s, t, ok, fatal);
      case Transmit(_, _) => Stays(s, n);
      case Dispatch(t) => LeavingMoves(s, n, t, At(n, t));
    }
  }

  lemma CalledAlone(s: State, t: Tid)
    requires RoleInv(s) && At(s, t) == Submit
    ensures s.flight.None?
  {
  }

  lemma {:induction false} RunEnding(s: State, actions: seq<Action>)
    requires Inv(s) && Run(s, actions).Some?
    ensures Ending(Run(s, actions).value) <==> Ending(s) || exists i :: 0 <= i < |actions| && Ends(actions[i])
    decreases |actions|
  {
    hide HoldInv, KeepInv, RoleInv, Ending, Ends;
    if actions != [] {
      StepEnding(s, actions[0]);
      StepKeepsInv(s, actions[0]);
      RunEnding(Step(s, actions[0]).value, actions[1..]);
      assert forall i | 1 <= i < |actions| :: actions[i] == actions[1..][i - 1];
      assert forall i | 0 <= i < |actions| - 1 :: actions[1..][i] == actions[i + 1];
    }
  }

  /**
   When every call is back and nothing is in flight, the session is disconnected if and only if somebody called
   Disconnect, WSASend refused a batch because the connection was lost, or a batch broke.
   */
  lemma {:induction false} DisconnectedIff(actions: seq<Action>)
    requires Run(START, actions).Some?
    ensures var s := Run(START, actions).value;
            (forall t: Tid :: At(s, t) == Idle) && s.flight.None? ==>
              (!s.connected <==> exists i :: 0 <= i < |actions| && Ends(actions[i]))
  {
    InvAtStart();
    RunEnding(START, actions);
  }

  /** Segments wait, and no thread and no completion will look at the queue. */
  predicate Stranded(s: State) {
    s.queue != [] && !s.registered
  }

  /**
   Segments are stranded exactly by the reset of the flag after a refused batch, when others queued segments after that
   batch was drained; and exactly until the next Send.
   */
  lemma StrandedIff(s: State, a: Action)
    requires Inv(s) && Step(s, a).Some?
    ensures Stranded(Step(s, a).value) <==>
            if Stranded(s) then !a.Send? else a.Proceed? && At(s, a.t) == ResetFlag && s.queue != []
    ensures a.Proceed? && At(s, a.t) == ResetFlag ==> LastDropped(s.log) && s.accepted == Segs(s.log) + s.queue
  {
    hide KeepInv, StepCall, StepTransmit;
    if a.Proceed? {
      var pc := At(s, a.t);
      assert Holds(s, pc) && (Busy(pc) ==> s.registered);
      if pc == ResetFlag { KeptInQueue(s); }
    } else if a.Call? {
      StrandedCall(s, a.t, a.ok, a.fatal);
    } else if a.Transmit? {
      StrandedTransmit(s, a.ok, a.bytes);
    }
  }

  lemma StrandedCall(s: State, t: Tid, ok: bool, fatal: bool)
    requires StepCall(s, t, ok, fatal).Some?
    ensures Stranded(StepCall(s, t, ok, fatal).value) <==> Stranded(s)
  {
  }

  lemma StrandedTransmit(s: State, ok: bool, bytes: nat)
    requires StepTransmit(s, ok, bytes).Some?
    ensures Stranded(StepTransmit(s, ok, bytes).value) <==> Stranded(s)
  {
  }

  lemma KeptInQueue(s: State)
    requires KeepInv(s) && s.buffers == []
    ensures s.accepted == Segs(s.log) + s.queue
  {
    assert Segs(s.log) + [] == Segs(s.log);
  }

  /** While connected and until a batch breaks, a segment that waits is stranded, or someone will come for it. */
  lemma {:induction false} WaitingIsServedOrStranded(actions: seq<Action>)
    requires Run(START, actions).Some?
    ensures var s := Run(START, actions).value;
            s.queue != [] && s.connected && !Broke(s.log) ==>
              (Stranded(s) <==> s.flight.None? && forall t: Tid :: !Busy(At(s, t)))
  {
    Reachable(actions);
  }

  /** Stranded segments stay where they are in every run without a Send. */
  lemma {:induction false} StrandedWait(s: State, actions: seq<Action>)
    requires Inv(s) && Stranded(s) && Run(s, actions).Some?
    requires forall i | 0 <= i < |actions| :: !actions[i].Send?
    ensures var n := Run(s, actions).value; Stranded(n) && n.queue == s.queue && n.log == s.log
    decreases |actions|
  {
    hide Inv, Step;
    if actions != [] {
      StepKeepsInv(s, actions[0]);
      StrandedIff(s, actions[0]);
      StrandedStays(s, actions[0]);
      assert forall i | 0 <= i < |actions| - 1 :: actions[1..][i] == actions[i + 1];
      StrandedWait(Step(s, actions[0]).value, actions[1..]);
    }
  }

  lemma StrandedStays(s: State, a: Action)
    requires Inv(s) && Stranded(s) && Step(s, a).Some? && !a.Send?
    ensures Step(s, a).value.queue == s.queue && Step(s, a).value.log == s.log
  {
    hide KeepInv, HoldInv;
  }

  lemma {:induction false} RunCons(s: State, a: Action, rest: seq<Action>)
    ensures Run(s, [a] + rest) == if Step(s, a).Some? then Run(Step(s, a).value, rest) else None
  {
    assert ([a] + rest)[1..] == rest;
  }

  /** The steps of a Send that finds the flag clear: WSASend takes the batch and the socket transmits it. */
  function GoodSend(t: Tid, seg: bytes): seq<Action> {
    [Send(t, seg)] + ([Proceed(t)] + ([Proceed(t)] + ([Call(t, true, false)] + ([Transmit(true, 0)] + []))))
  }

  /** The next Send takes everything stranded along. */
  lemma {:induction false} NextSendRevives(s: State, t: Tid, seg: bytes)
    requires Inv(s) && !s.registered && s.connected && At(s, t) == Idle
    ensures var r := Run(s, GoodSend(t, seg));
            && r.Some? && r.value.queue == [] && r.value.connected
            && r.value.log == s.log + [Batch(s.queue + [seg], Sent)] && r.value.accepted == s.accepted + [seg]
  {
    var p := Proceed(t);
    var c, w := Call(t, true, false), Transmit(true, 0);
    var s1 := Step(s, Send(t, seg)).value;
    var s2 := Step(s1, p).value;
    var s3 := Step(s2, p).value;
    var s4 := Step(s3, c).value;
    NobodyBusy(s);
    assert [] + (s.queue + [seg]) == s.queue + [seg];
    RunCons(s, Send(t, seg), [p] + ([p] + ([c] + ([w] + []))));
    RunCons(s1, p, [p] + ([c] + ([w] + [])));
    RunCons(s2, p, [c] + ([w] + []));
    RunCons(s3, c, [w] + []);
    RunCons(s4, w, []);
  }

  lemma NobodyBusy(s: State)
    requires Inv(s) && !s.registered
    ensures s.flight.None? && s.buffers == []
  {
  }

  /** The steps of a Send whose batch WSASend refuses with an error that only gets logged. */
  function RefusedSend(t: Tid): seq<Action> {
    [Call(t, false, false)] + ([Proceed(t)] + ([Proceed(t)] + ([Proceed(t)] + [])))
  }

  lemma {:induction false} RefusedIsARun(s: State, t: Tid)
    requires At(s, t) == Submit
    ensures var r := Run(s, RefusedSend(t));
            && r.Some? && At(r.value, t) == Idle
            && (forall u: Tid {:trigger At(r.value, u)} :: u != t ==> At(r.value, u) == At(s, u))
            && r.value == s.(log := s.log + [Batch(s.buffers, Dropped)], decided := true, buffers := [],
                             registered := false, pcs := r.value.pcs)
  {
    var p := Proceed(t);
    var s1 := Step(s, Call(t, false, false)).value;
    var s2 := Step(s1, p).value;
    var s3 := Step(s2, p).value;
    RunCons(s, Call(t, false, false), [p] + ([p] + ([p] + [])));
    RunCons(s1, p, [p] + ([p] + []));
    RunCons(s2, p, [p] + []);
    RunCons(s3, p, []);
  }

  lemma {:induction false} RunAppend(s: State, a: seq<Action>, b: seq<Action>)
    requires Run(s, a).Some?
    ensures Run(s, a + b) == Run(Run(s, a).value, b)
    decreases |a|
  {
    if a == [] {
      assert a + b == b;
    } else {
      assert (a + b)[1..] == a[1..] + b;
      RunAppend(Step(s, a[0]).value, a[1..], b);
    }
  }

  /** A Send up to its call of WSASend. */
  lemma {:induction false} UpToCall(t: Tid, a: bytes)
    ensures var r := Run(START, [Send(t, a)] + ([Proceed(t)] + ([Proceed(t)] + [])));
            && r.Some? && At(r.value, t) == Submit && r.value.pcs.Keys == {t}
            && r.value == START.(buffers := [a], accepted := [a], registered := true, pcs := r.value.pcs)
  {
    var p := Proceed(t);
    var s1 := Step(START, Send(t, a)).value;
    var s2 := Step(s1, p).value;
    assert [] + [a] == [a];
    RunCons(START, Send(t, a), [p] + ([p] + []));
    RunCons(s1, p, [p] + []);
    RunCons(s2, p, []);
  }

  /**
   Two segments are sent. WSASend refuses the first batch with an error that HandleError only logs: the session stays
   connected, and the wire starts with the second segment.
   */
  lemma {:induction false} DroppedThenSent(t: Tid, a: bytes, b: bytes)
    ensures var r := Run(START, [Send(t, a)] + ([Proceed(t)] + ([Proceed(t)] + [])) + RefusedSend(t) + GoodSend(t, b));
            && r.Some? && r.value.connected && r.value.queue == [] && r.value.accepted == [a, b]
            && r.value.log == [Batch([a], Dropped), Batch([b], Sent)] && OnWire(r.value.log) == b
  {
    var first := [Send(t, a)] + ([Proceed(t)] + ([Proceed(t)] + []));
    UpToCall(t, a);
    var s := Run(START, first).value;
    RefusedIsARun(s, t);
    RunAppend(START, first, RefusedSend(t));
    Reachable(first + RefusedSend(t));
    var n := Run(s, RefusedSend(t)).value;
    NextSendRevives(n, t, b);
    RunAppend(START, first + RefusedSend(t), GoodSend(t, b));
    var log := [Batch([a], Dropped), Batch([b], Sent)];
    assert [] + [b] == [b] && [] + [Batch([a], Dropped)] == [Batch([a], Dropped)];
    assert [Batch([a], Dropped)] + [Batch([b], Sent)] == log;
    TwoBatches(a, b);
  }

  lemma TwoBatches(a: bytes, b: bytes)
    ensures OnWire([Batch([a], Dropped), Batch([b], Sent)]) == b
  {
    var x, y := Batch([a], Dropped), Batch([b], Sent);
    assert [x, y] == [x] + [y];
    OnWireAppend([x], [y]);
    assert Flatten([b]) == b + Flatten([]);
    assert OnWire([y]) == Flatten(y.segs)[..Reach(y)] + OnWire([]);
    assert OnWire([x]) == Flatten(x.segs)[..Reach(x)] + OnWire([]);
  }

  /** Another thread queues a segment between the drain and the reset of the flag: it is stranded, still connected. */
  lemma {:induction false} StrandingRun(t: Tid, u: Tid, a: bytes, b: bytes)
    requires t != u
    ensures var r := Run(START, [Send(t, a)] + ([Proceed(t)] + ([Proceed(t)] + [])) + [Send(u, b)] + RefusedSend(t));
            && r.Some? && r.value.connected && Stranded(r.value) && r.value.queue == [b]
            && (forall v: Tid {:trigger At(r.value, v)} :: At(r.value, v) == Idle)
  {
    var first := [Send(t, a)] + ([Proceed(t)] + ([Proceed(t)] + []));
    UpToCall(t, a);
    var s := Run(START, first).value;
    RunAppend(START, first, [Send(u, b)]);
    assert [Send(u, b)] + [] == [Send(u, b)];
    RunCons(s, Send(u, b), []);
    var n := Step(s, Send(u, b)).value;
    assert [] + [b] == [b];
    RefusedIsARun(n, t);
    RunAppend(START, first + [Send(u, b)], RefusedSend(t));
  }
}
