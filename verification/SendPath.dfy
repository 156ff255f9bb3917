/**
 The send side of a Session under concurrency: any number of threads call Send and Disconnect, the socket completes
 sends whenever and however it likes, and a scheduler interleaves their steps. A step is what a thread does between
 two points where another thread can observe it: everything touching the queue and the pending list happens under
 the lock, while the disconnect flag is read and exchanged without it.
 */
module SendPath {
  import opened Bytes

  type Tid = nat

  // ---------------------------------------------------------------------------------------------
  // The session's fields and what each critical piece of code does to them
  // ---------------------------------------------------------------------------------------------

  /** The fields, with the history of what callers handed in and what was handed to the socket. */
  datatype Core = Core(
    queue: seq<bytes>, pending: seq<bytes>, disconnected: bool,
    accepted: seq<bytes>, submitted: seq<bytes>, notified: nat, cleared: bool)

  const INITIAL := Core([], [], false, [], [], 0, false)

  function Enqueue(c: Core, segs: seq<bytes>): Core {
    c.(queue := c.queue + segs, accepted := c.accepted + segs)
  }

  /** The queue is drained into the pending list, which becomes the buffer list of SendAsync. */
  function SubmitAll(c: Core): Core {
    c.(pending := c.pending + c.queue, queue := [], submitted := c.submitted + (c.pending + c.queue))
  }

  function Acknowledge(c: Core): Core {
    c.(pending := [])
  }

  function SetFlag(c: Core): Core {
    c.(disconnected := true)
  }

  function Notified(c: Core): Core {
    c.(notified := c.notified + 1)
  }

  function Wipe(c: Core): Core {
    c.(queue := [], pending := [], cleared := true)
  }

  // ---------------------------------------------------------------------------------------------
  // Threads and the socket
  // ---------------------------------------------------------------------------------------------

  /** Where a thread stands: what it does next. */
  datatype Pc =
    | Idle
    | CheckFlag             // RegisterSend: about to read the flag, lock held
    | Ready                 // RegisterSend: read the flag as clear, lock held
    | Completion(ok: bool)  // OnSendCompleted: inside the lock, result known
    | Exchange              // Disconnect: about to compare-exchange the flag
    | Notify                // Disconnect: won, about to call OnDisconnected
    | CloseSocket           // Disconnect: about to shut the socket down
    | Clear                 // Disconnect: about to take the lock and wipe the lists

  /** A batch inside the socket; `done` is what the socket reported, once it did. */
  datatype Flight = Flight(batch: seq<bytes>, done: Option<bool>)

  /** What SendAsync does: complete later, complete at once (a failure after `sent` bytes), or throw. */
  datatype Outcome = Later | Now(ok: bool, sent: nat) | Throws

  datatype State = State(
    core: Core, pcs: map<Tid, Pc>, lock: Option<Tid>, flight: Option<Flight>,
    wire: bytes, lost: bool, threw: bool, aborted: bool)

  const START := State(INITIAL, map[], None, None, [], false, false, false)

  datatype Action =
    | Send(t: Tid, segs: seq<bytes>)     // a caller enters Send
    | CallDisconnect(t: Tid)             // a caller enters Disconnect without the lock
    | Proceed(t: Tid)                    // thread t takes its next step
    | Submit(t: Tid, outcome: Outcome)   // thread t drains the queue and calls SendAsync
    | Transmit(ok: bool, sent: nat)      // the socket finishes the batch in flight
    | Abort(t: Tid)                      // RemoteEndPoint or Shutdown throws, and the exception leaves Disconnect
    | Handle(t: Tid)                     // an I/O thread enters OnSendCompleted and takes the lock

  function At(s: State, t: Tid): Pc {
    if t in s.pcs then s.pcs[t] else Idle
  }

  function GoTo(s: State, t: Tid, pc: Pc): State {
    s.(pcs := s.pcs[t := pc])
  }

  /** Thread t returns to its caller, giving up the lock if it holds it. */
  function Return(s: State, t: Tid): State {
    s.(pcs := s.pcs[t := Idle], lock := if s.lock == Some(t) then None else s.lock)
  }

  /** What reaches the wire of a batch: all of it, or the first `sent` bytes before the failure. */
  function Reaches(batch: seq<bytes>, ok: bool, sent: nat): bytes {
    if ok || sent > |Flatten(batch)| then Flatten(batch) else Flatten(batch)[..sent]
  }

  function StepSend(s: State, t: Tid, segs: seq<bytes>): Option<State> {
    if At(s, t) != Idle then None
    else if segs == [] then Some(s)
    else if s.lock != None then None
    else
      var s' := s.(core := Enqueue(s.core, segs));
      if s'.core.pending == [] then Some(GoTo(s'.(lock := Some(t)), t, CheckFlag)) else Some(s')
  }

  function StepProceed(s: State, t: Tid): Option<State> {
    match At(s, t)
    case Idle => None
    case Ready => None
    case CheckFlag => if s.core.disconnected then Some(Return(s, t)) else Some(GoTo(s, t, Ready))
    case Completion(ok) =>
      if !ok then Some(GoTo(s, t, Exchange))
      else
        var s' := s.(core := Acknowledge(s.core));
        if s'.core.queue != [] then Some(GoTo(s', t, CheckFlag)) else Some(Return(s', t))
    case Exchange =>
      if s.core.disconnected then Some(Return(s, t))
      else Some(GoTo(s.(core := SetFlag(s.core)), t, Notify))
    case Notify => Some(GoTo(s.(core := Notified(s.core)), t, CloseSocket))
    case CloseSocket => Some(GoTo(s, t, Clear))
    case Clear =>
      if s.lock == None || s.lock == Some(t) then Some(Return(s.(core := Wipe(s.core)), t)) else None
  }

  function StepSubmit(s: State, t: Tid, o: Outcome): Option<State> {
    if At(s, t) != Ready then None
    else
      var s' := s.(core := SubmitAll(s.core));
      var batch := s'.core.pending;
      match o
      case Later => Some(Return(s'.(flight := Some(Flight(batch, None))), t))
      case Now(ok, sent) =>
        Some(GoTo(s'.(wire := s.wire + Reaches(batch, ok, sent), lost := s.lost || !ok), t, Completion(ok)))
      case Throws => Some(Return(s'.(threw := true), t))
  }

  function StepTransmit(s: State, ok: bool, sent: nat): Option<State> {
    if s.flight.None? || s.flight.value.done.Some? then None
    else
      var batch := s.flight.value.batch;
      Some(s.(flight := Some(Flight(batch, Some(ok))), wire := s.wire + Reaches(batch, ok, sent),
              lost := s.lost || !ok))
  }

  function StepHandle(s: State, t: Tid): Option<State> {
    if At(s, t) != Idle || s.lock != None || s.flight.None? || s.flight.value.done.None? then None
    else Some(GoTo(s.(lock := Some(t), flight := None), t, Completion(s.flight.value.done.value)))
  }

  /** The exception gives up the lock, if thread t is in OnSendCompleted; the lists stay as they are. */
  function StepAbort(s: State, t: Tid): Option<State> {
    if At(s, t) != Notify && At(s, t) != CloseSocket then None else Some(Return(s.(aborted := true), t))
  }

  /** One step of the system; None when the scheduler cannot take it now. */
  function Step(s: State, a: Action): Option<State> {
    match a
    case Send(t, segs) => StepSend(s, t, segs)
    case CallDisconnect(t) => if At(s, t) == Idle then Some(GoTo(s, t, Exchange)) else None
    case Proceed(t) => StepProceed(s, t)
    case Submit(t, o) => StepSubmit(s, t, o)
    case Transmit(ok, sent) => StepTransmit(s, ok, sent)
    case Abort(t) => StepAbort(s, t)
    case Handle(t) => StepHandle(s, t)
  }

  function Run(s: State, actions: seq<Action>): Option<State>
    decreases |actions|
  {
    if actions == [] then Some(s)
    else
      match Step(s, actions[0])
      case None => None
      case Some(s') => Run(s', actions[1..])
  }

  // ---------------------------------------------------------------------------------------------
  // The invariant
  // ---------------------------------------------------------------------------------------------

  predicate HoldsLock(pc: Pc) {
    pc.CheckFlag? || pc.Ready? || pc.Completion?
  }

  predicate Closing(pc: Pc) {
    pc.Notify? || pc.CloseSocket? || pc.Clear?
  }

  /** Who holds the lock, and who won the compare-exchange. */
  ghost predicate ThreadsInv(s: State) {
    && (forall t: Tid :: HoldsLock(At(s, t)) ==> s.lock == Some(t))
    && (s.lock.Some? ==> At(s, s.lock.value) != Idle)
    && (forall t: Tid, u: Tid :: Closing(At(s, t)) && Closing(At(s, u)) ==> t == u)
    && (forall t: Tid :: Closing(At(s, t)) ==> s.core.disconnected && !s.core.cleared)
    && (s.core.cleared ==> s.core.disconnected)
    && (s.core.disconnected && !s.core.cleared ==> s.aborted || exists t: Tid :: Closing(At(s, t)))
    && (s.aborted ==> s.core.disconnected && !s.core.cleared && forall t: Tid :: !Closing(At(s, t)))
  }

  ghost predicate NotifyInv(s: State) {
    && (!s.core.disconnected ==> s.core.notified == 0)
    && (forall t: Tid :: At(s, t) == Notify ==> s.core.notified == 0)
    && (s.core.disconnected && (forall t: Tid :: At(s, t) != Notify) && !s.aborted ==> s.core.notified == 1)
    && s.core.notified <= 1
  }

  /** Nothing accepted is lost or reordered between the queue and the socket. */
  ghost predicate CoreInv(c: Core) {
    && c.submitted <= c.accepted
    && (!c.cleared ==> c.accepted == c.submitted + c.queue)
  }

  ghost predicate WireInv(s: State) {
    var all := Flatten(s.core.submitted);
    && s.wire <= all
    && (s.flight.Some? && s.flight.value.done.None? ==>
          s.wire + Flatten(s.flight.value.batch) == all && !s.lost && !s.threw)
    && ((s.flight.None? || s.flight.value.done.Some?) && !s.lost && !s.threw ==> s.wire == all)
  }

  ghost predicate StageInv(s: State) {
    && (s.flight.Some? && !s.core.cleared ==> s.core.pending == s.flight.value.batch && s.core.pending != [])
    && ((s.lost || s.threw) && !s.core.cleared ==> s.core.pending != [])
    && (s.flight.Some? && s.flight.value.done == Some(false) ==> s.lost)
    && (s.lost && s.flight.Some? ==> s.flight.value.done == Some(false))
    && (s.threw ==> s.flight.None?)
    && (forall t: Tid :: At(s, t) == CheckFlag ==> s.core.pending == [])
    && (forall t: Tid :: At(s, t) == Ready ==> s.core.pending == [] && s.core.queue != [] && !s.core.cleared)
    && (forall t: Tid :: At(s, t).Completion? ==> s.flight.None? && !s.threw && s.lost == !At(s, t).ok)
  }

  /** While the lock is free, waiting segments have a batch ahead of them that will be completed. */
  ghost predicate ProgressInv(s: State) {
    && (s.lock.None? && !s.core.disconnected && s.core.queue != [] ==> s.core.pending != [])
    && (s.lock.None? && !s.core.disconnected && s.core.pending != [] ==> s.flight.Some? || s.threw)
    && (forall t: Tid :: At(s, t) == CheckFlag ==> s.core.queue != [])
    && (forall t: Tid :: At(s, t) == Exchange && s.lock == Some(t) ==> s.lost)
  }

  ghost predicate Inv(s: State) {
    ThreadsInv(s) && NotifyInv(s) && CoreInv(s.core) && WireInv(s) && StageInv(s) && ProgressInv(s)
  }

  lemma InvAtStart()
    ensures Inv(START)
  {
  }

  /** A step moves one thread at most. */
  lemma Moves(s: State, n: State, t: Tid, pc: Pc)
    requires n.pcs == s.pcs[t := pc]
    ensures At(n, t) == pc
    ensures forall u: Tid {:trigger At(s, u)} {:trigger At(n, u)} :: u != t ==> At(n, u) == At(s, u)
  {
  }

  lemma Stays(s: State, n: State)
    requires n.pcs == s.pcs
    ensures forall u: Tid {:trigger At(s, u)} {:trigger At(n, u)} :: At(n, u) == At(s, u)
  {
  }

  lemma SendKeepsInv(s: State, t: Tid, segs: seq<bytes>)
    requires Inv(s) && StepSend(s, t, segs).Some?
    ensures Inv(StepSend(s, t, segs).value)
  {
    var n := StepSend(s, t, segs).value;
    if segs != [] {
      assert s.core.accepted + segs == s.core.submitted + (s.core.queue + segs) || s.core.cleared;
      PrefixTrans(s.core.submitted, s.core.accepted, n.core.accepted);
      if n.core.pending == [] { Moves(s, n, t, CheckFlag); } else { Stays(s, n); }
    }
  }

  lemma DisconnectKeepsInv(s: State, t: Tid)
    requires Inv(s) && At(s, t) == Idle
    ensures Inv(GoTo(s, t, Exchange))
  {
    Moves(s, GoTo(s, t, Exchange), t, Exchange);
  }

  lemma CheckFlagKeepsInv(s: State, t: Tid)
    requires Inv(s) && At(s, t) == CheckFlag
    ensures Inv(StepProceed(s, t).value)
  {
    var n := StepProceed(s, t).value;
    Moves(s, n, t, At(n, t));
  }

  lemma CompletionKeepsInv(s: State, t: Tid)
    requires Inv(s) && At(s, t).Completion?
    ensures Inv(StepProceed(s, t).value)
  {
    var n := StepProceed(s, t).value;
    Moves(s, n, t, At(n, t));
  }

  lemma ExchangeKeepsInv(s: State, t: Tid)
    requires Inv(s) && At(s, t) == Exchange
    ensures Inv(StepProceed(s, t).value)
  {
    var n := StepProceed(s, t).value;
    Moves(s, n, t, At(n, t));
    if !s.core.disconnected { assert Closing(At(n, t)); }
  }

  lemma ClosingKeepsInv(s: State, t: Tid)
    requires Inv(s) && Closing(At(s, t)) && StepProceed(s, t).Some?
    ensures Inv(StepProceed(s, t).value)
  {
    var n := StepProceed(s, t).value;
    Moves(s, n, t, At(n, t));
  }

  lemma AbortKeepsInv(s: State, t: Tid)
    requires Inv(s) && StepAbort(s, t).Some?
    ensures Inv(StepAbort(s, t).value)
  {
    Moves(s, StepAbort(s, t).value, t, Idle);
  }

  lemma LaterKeepsInv(s: State, t: Tid)
    requires Inv(s) && At(s, t) == Ready
    ensures Inv(StepSubmit(s, t, Later).value)
  {
    var n := StepSubmit(s, t, Later).value;
    FlattenAppend(s.core.submitted, s.core.pending + s.core.queue);
    Moves(s, n, t, Idle);
  }

  lemma NowKeepsInv(s: State, t: Tid, ok: bool, sent: nat)
    requires Inv(s) && At(s, t) == Ready
    ensures Inv(StepSubmit(s, t, Now(ok, sent)).value)
  {
    var n := StepSubmit(s, t, Now(ok, sent)).value;
    FlattenAppend(s.core.submitted, s.core.pending + s.core.queue);
    Moves(s, n, t, Completion(ok));
  }

  lemma ThrowsKeepsInv(s: State, t: Tid)
    requires Inv(s) && At(s, t) == Ready
    ensures Inv(StepSubmit(s, t, Throws).value)
  {
    var n := StepSubmit(s, t, Throws).value;
    FlattenAppend(s.core.submitted, s.core.pending + s.core.queue);
    Moves(s, n, t, Idle);
  }

  lemma TransmitKeepsInv(s: State, ok: bool, sent: nat)
    requires Inv(s) && StepTransmit(s, ok, sent).Some?
    ensures Inv(StepTransmit(s, ok, sent).value)
  {
    Stays(s, StepTransmit(s, ok, sent).value);
  }

  lemma HandleKeepsInv(s: State, t: Tid)
    requires Inv(s) && StepHandle(s, t).Some?
    ensures Inv(StepHandle(s, t).value)
  {
    var n := StepHandle(s, t).value;
    Moves(s, n, t, At(n, t));
  }

  lemma StepKeepsInv(s: State, a: Action)
    requires Inv(s) && Step(s, a).Some?
    ensures Inv(Step(s, a).value)
  {
    match a {
      case Send(t, segs) => SendKeepsInv(s, t, segs);
      case CallDisconnect(t) => DisconnectKeepsInv(s, t);
      case Proceed(t) =>
        match At(s, t) {
          case CheckFlag => CheckFlagKeepsInv(s, t);
          case Completion(_) => CompletionKeepsInv(s, t);
          case Exchange => ExchangeKeepsInv(s, t);
          case Notify => ClosingKeepsInv(s, t);
          case CloseSocket => ClosingKeepsInv(s, t);
          case Clear => ClosingKeepsInv(s, t);
        }
      case Submit(t, o) =>
        match o {
          case Later => LaterKeepsInv(s, t);
          case Now(ok, sent) => NowKeepsInv(s, t, ok, sent);
          case Throws => ThrowsKeepsInv(s, t);
        }
      case Transmit(ok, sent) => TransmitKeepsInv(s, ok, sent);
      case Abort(t) => AbortKeepsInv(s, t);
      case Handle(t) => HandleKeepsInv(s, t);
    }
  }

  // ---------------------------------------------------------------------------------------------
  // What holds in every run
  // ---------------------------------------------------------------------------------------------

  lemma {:induction false} RunKeepsInv(s: State, actions: seq<Action>)
    requires Inv(s) && Run(s, actions).Some?
    ensures Inv(Run(s, actions).value)
    decreases |actions|
  {
    if actions != [] {
      StepKeepsInv(s, actions[0]);
      RunKeepsInv(Step(s, actions[0]).value, actions[1..]);
    }
  }

  /** What a pending batch still owes the wire. */
  function Unsent(s: State): seq<bytes> {
    if s.flight.Some? && s.flight.value.done.None? then s.core.pending else []
  }

  /**
   Under every schedule: until the lists are wiped, a send fails or SendAsync throws, the accepted bytes are the
   transmitted ones, then the batch in flight, then the queue. Always, the transmitted bytes are a prefix of the
   accepted ones.
   */
  lemma {:induction false} SendConserves(actions: seq<Action>)
    requires Run(START, actions).Some?
    ensures var s := Run(START, actions).value;
            !s.core.cleared && !s.lost && !s.threw ==>
              Flatten(s.core.accepted) == s.wire + Flatten(Unsent(s)) + Flatten(s.core.queue)
    ensures var s := Run(START, actions).value;
            s.wire <= Flatten(s.core.accepted)
  {
    InvAtStart();
    RunKeepsInv(START, actions);
    var s := Run(START, actions).value;
    FlattenPrefix(s.core.submitted, s.core.accepted);
    PrefixTrans(s.wire, Flatten(s.core.submitted), Flatten(s.core.accepted));
    FlattenAppend(s.core.submitted, s.core.queue);
    assert s.wire + [] == s.wire;
  }

  /**
   A batch is handed to the socket only when none is pending or in flight, and while the lock is free a waiting
   segment has a pending batch ahead of it that the socket will complete, unless SendAsync threw.
   */
  lemma {:induction false} OneBatchAndNoneStranded(actions: seq<Action>, t: Tid, o: Outcome)
    requires Run(START, actions).Some?
    ensures var s := Run(START, actions).value;
            StepSubmit(s, t, o).Some? ==> s.core.pending == [] && s.flight.None? && s.core.queue != []
    ensures var s := Run(START, actions).value;
            s.lock.None? && !s.core.disconnected && s.core.queue != [] ==>
              s.core.pending != [] && (s.flight.Some? || s.threw)
  {
    InvAtStart();
    RunKeepsInv(START, actions);
  }

  lemma StepKeepsSilence(s: State, a: Action)
    requires Inv(s) && s.threw && Step(s, a).Some?
    ensures Step(s, a).value.wire == s.wire && Step(s, a).value.threw
  {
  }

  /** A thrown SendAsync leaves its batch pending with no completion to come: nothing is ever sent again. */
  lemma {:induction false} ThrowSilences(s: State, actions: seq<Action>)
    requires Inv(s) && s.threw && Run(s, actions).Some?
    ensures Run(s, actions).value.wire == s.wire && Run(s, actions).value.threw
    decreases |actions|
  {
    hide Inv, Step;
    if actions != [] {
      StepKeepsInv(s, actions[0]);
      StepKeepsSilence(s, actions[0]);
      ThrowSilences(Step(s, actions[0]).value, actions[1..]);
    }
  }

  /** A send may fail behind any byte of its batch, in the socket or at once. */
  lemma FailsBehindAnyByte(s: State, t: Tid, k: nat)
    ensures s.flight.Some? && s.flight.value.done.None? && k <= |Flatten(s.flight.value.batch)| ==>
              var n := Step(s, Transmit(false, k));
              n.Some? && n.value.lost && n.value.wire == s.wire + Flatten(s.flight.value.batch)[..k]
    ensures At(s, t) == Ready && k <= |Flatten(s.core.pending + s.core.queue)| ==>
              var n := Step(s, Submit(t, Now(false, k)));
              n.Some? && n.value.lost && n.value.wire == s.wire + Flatten(s.core.pending + s.core.queue)[..k]
  {
    hide Flatten;
  }

  lemma StepKeepsLost(s: State, a: Action)
    requires Inv(s) && s.lost && Step(s, a).Some?
    ensures Step(s, a).value.wire == s.wire && Step(s, a).value.lost
  {
    hide ThreadsInv, NotifyInv, CoreInv, WireInv;
  }

  /** A send that fails is the last one. */
  lemma {:induction false} FailedSendIsLast(s: State, actions: seq<Action>)
    requires Inv(s) && s.lost && Run(s, actions).Some?
    ensures Run(s, actions).value.wire == s.wire && Run(s, actions).value.lost
    decreases |actions|
  {
    hide Inv, Step;
    if actions != [] {
      StepKeepsInv(s, actions[0]);
      StepKeepsLost(s, actions[0]);
      FailedSendIsLast(Step(s, actions[0]).value, actions[1..]);
    }
  }

  // Nothing is stuck

  /** Connected, and no send failed or threw. */
  predicate Healthy(s: State) {
    !s.core.disconnected && !s.lost && !s.threw
  }

  /** How many steps are left until the queue is on the wire, if nobody sends more. */
  function Left(s: State): nat {
    var once :=
      match s.lock
      case Some(t) => (match At(s, t) case Ready => 4 case CheckFlag => 5 case _ => 1)
      case None => if s.flight.None? then 0 else if s.flight.value.done.None? then 3 else 2;
    if s.core.queue != [] && once < 4 then once + 5 else once
  }

  /** The step that brings the queue closer to the wire; u is a thread that is in none of the session's methods. */
  function Next(s: State, u: Tid): Action {
    match s.lock
    case Some(t) => if At(s, t) == Ready then Submit(t, Later) else Proceed(t)
    case None => if s.flight.Some? && s.flight.value.done.None? then Transmit(true, 0) else Handle(u)
  }

  lemma NextIsCloser(s: State, u: Tid)
    requires Inv(s) && Healthy(s) && At(s, u) == Idle && Left(s) > 0
    ensures var n := Step(s, Next(s, u));
            n.Some? && Healthy(n.value) && Left(n.value) < Left(s) && n.value.core.accepted == s.core.accepted
  {
    hide NotifyInv, CoreInv, WireInv;
  }

  lemma {:induction false} Unused(pcs: set<Tid>) returns (u: Tid)
    ensures forall t | t in pcs :: t < u
    decreases |pcs|
  {
    u := 0;
    if pcs != {} {
      var t :| t in pcs;
      var v := Unused(pcs - {t});
      u := if v > t then v else t + 1;
      assert forall w | w in pcs :: w == t || w in pcs - {t};
    }
  }

  lemma {:induction false} CanFinish(s: State) returns (actions: seq<Action>)
    requires Inv(s) && Healthy(s)
    ensures var r := Run(s, actions);
            && r.Some? && Inv(r.value) && Healthy(r.value) && Left(r.value) == 0
            && r.value.core.accepted == s.core.accepted
    decreases Left(s)
  {
    actions := [];
    if Left(s) > 0 {
      var u := Unused(s.pcs.Keys);
      assert At(s, u) == Idle;
      hide Inv, Healthy, Left, Next, Step;
      NextIsCloser(s, u);
      StepKeepsInv(s, Next(s, u));
      var rest := CanFinish(Step(s, Next(s, u)).value);
      RunCons(s, Next(s, u), rest);
      actions := [Next(s, u)] + rest;
    }
  }

  lemma NothingLeft(s: State)
    requires Inv(s) && Healthy(s) && Left(s) == 0
    ensures s.wire == Flatten(s.core.accepted) && s.core.queue == [] && s.lock == None && s.flight == None
  {
    hide NotifyInv;
    assert s.core.submitted + [] == s.core.submitted;
  }

  /** From every reachable state, as long as nothing failed, everything accepted can still reach the wire. */
  lemma {:induction false} NothingIsStuck(actions: seq<Action>)
    requires Run(START, actions).Some? && Healthy(Run(START, actions).value)
    ensures var s := Run(START, actions).value;
            exists more: seq<Action> :: var r := Run(s, more);
              r.Some? && r.value.core.accepted == s.core.accepted && r.value.wire == Flatten(s.core.accepted)
  {
    hide Inv, Step, Healthy;
    InvAtStart();
    RunKeepsInv(START, actions);
    var more := CanFinish(Run(START, actions).value);
    NothingLeft(Run(Run(START, actions).value, more).value);
  }

  /** Disconnected, no thread past the flag check, no batch inside the socket. */
  ghost predicate Quiet(s: State) {
    s.core.disconnected && (s.flight.Some? ==> s.flight.value.done.Some?) && forall t: Tid :: At(s, t) != Ready
  }

  lemma ProceedKeepsQuiet(s: State, t: Tid)
    requires Quiet(s) && StepProceed(s, t).Some?
    ensures Quiet(StepProceed(s, t).value) && StepProceed(s, t).value.wire == s.wire
  {
    var n := StepProceed(s, t).value;
    Moves(s, n, t, At(n, t));
  }

  lemma StepKeepsQuiet(s: State, a: Action)
    requires Quiet(s) && Step(s, a).Some?
    ensures Quiet(Step(s, a).value) && Step(s, a).value.wire == s.wire
  {
    var n := Step(s, a).value;
    match a {
      case Send(t, segs) => if n.pcs == s.pcs { Stays(s, n); } else { Moves(s, n, t, At(n, t)); }
      case CallDisconnect(t) => Moves(s, n, t, Exchange);
      case Proceed(t) => ProceedKeepsQuiet(s, t);
      case Submit(t, o) =>
      case Transmit(_, _) =>
      case Abort(t) => Moves(s, n, t, Idle);
      case Handle(t) => Moves(s, n, t, At(n, t));
    }
  }

  /** Once disconnected and quiet, no further I/O: later sends and completions transmit nothing. */
  lemma {:induction false} NothingAfterDisconnect(s: State, actions: seq<Action>)
    requires Quiet(s) && Run(s, actions).Some?
    ensures Run(s, actions).value.wire == s.wire
    decreases |actions|
  {
    if actions != [] {
      StepKeepsQuiet(s, actions[0]);
      NothingAfterDisconnect(Step(s, actions[0]).value, actions[1..]);
    }
  }

  /** A thread that reads the flag after it was set returns without touching the socket. */
  lemma FlagStopsRegisterSend(s: State, t: Tid)
    requires At(s, t) == CheckFlag && s.core.disconnected
    ensures Step(s, Proceed(t)) == Some(Return(s, t))
    ensures forall o: Outcome :: Step(s, Submit(t, o)) == None
  {
  }

  /** Somebody is on the way through Disconnect, or the flag is already set. */
  ghost predicate DisconnectUnderWay(s: State) {
    s.core.disconnected || exists t: Tid :: At(s, t) == Exchange
  }

  lemma ProceedStillExchanging(s: State, t: Tid, u: Tid)
    requires At(s, u) == Exchange && StepProceed(s, t).Some?
    ensures At(StepProceed(s, t).value, u) == Exchange || StepProceed(s, t).value.core.disconnected
  {
    hide Wipe, Notified, Acknowledge;
    if t != u {
      var n := StepProceed(s, t).value;
      Moves(s, n, t, At(n, t));
    }
  }

  /** A thread at the compare-exchange stays there until its own step, which sets the flag. */
  lemma StillExchanging(s: State, a: Action, u: Tid)
    requires At(s, u) == Exchange && Step(s, a).Some?
    ensures At(Step(s, a).value, u) == Exchange || Step(s, a).value.core.disconnected
  {
    hide StepProceed;
    if a.Proceed? {
      ProceedStillExchanging(s, a.t, u);
    }
  }

  lemma StepKeepsFlag(s: State, a: Action)
    requires s.core.disconnected && Step(s, a).Some?
    ensures Step(s, a).value.core.disconnected
  {
  }

  lemma StepKeepsUnderWay(s: State, a: Action)
    requires DisconnectUnderWay(s) && Step(s, a).Some?
    ensures DisconnectUnderWay(Step(s, a).value)
  {
    hide Step, At;
    if s.core.disconnected {
      StepKeepsFlag(s, a);
    } else {
      var u: Tid :| At(s, u) == Exchange;
      StillExchanging(s, a, u);
    }
  }

  lemma {:induction false} CallsLeadToDisconnect(s: State, actions: seq<Action>)
    requires Run(s, actions).Some?
    requires DisconnectUnderWay(s) || exists i :: 0 <= i < |actions| && actions[i].CallDisconnect?
    ensures DisconnectUnderWay(Run(s, actions).value)
    decreases |actions|
  {
    if actions != [] {
      var n := Step(s, actions[0]).value;
      if DisconnectUnderWay(s) {
        StepKeepsUnderWay(s, actions[0]);
      } else if actions[0].CallDisconnect? {
        assert At(n, actions[0].t) == Exchange;
      } else {
        var i :| 0 <= i < |actions| && actions[i].CallDisconnect?;
        assert actions[1..][i - 1].CallDisconnect?;
      }
      CallsLeadToDisconnect(n, actions[1..]);
    }
  }

  lemma StepAborts(s: State, a: Action)
    requires Step(s, a).Some?
    ensures Step(s, a).value.aborted <==> s.aborted || a.Abort?
  {
  }

  lemma {:induction false} AbortedIff(s: State, actions: seq<Action>)
    requires Run(s, actions).Some?
    ensures Run(s, actions).value.aborted <==> s.aborted || exists i :: 0 <= i < |actions| && actions[i].Abort?
    decreases |actions|
  {
    hide Step;
    if actions != [] {
      StepAborts(s, actions[0]);
      AbortedIff(Step(s, actions[0]).value, actions[1..]);
      assert forall i | 1 <= i < |actions| :: actions[i] == actions[1..][i - 1];
      assert forall i | 0 <= i < |actions| - 1 :: actions[1..][i] == actions[i + 1];
    }
  }

  /**
   OnDisconnected runs at most once in any run. When every caller has come back, it ran exactly once and the lists are
   wiped, unless RemoteEndPoint or Shutdown threw: then, and only then, they are not.
   */
  lemma {:induction false} DisconnectOnce(actions: seq<Action>)
    requires Run(START, actions).Some?
    ensures var s := Run(START, actions).value;
            s.core.notified <= 1
    ensures var s := Run(START, actions).value;
            (exists i :: 0 <= i < |actions| && actions[i].CallDisconnect?) && (forall t: Tid :: At(s, t) == Idle) ==>
              && s.core.disconnected && (s.core.cleared ==> s.core.notified == 1)
              && (s.core.cleared <==> forall i | 0 <= i < |actions| :: !actions[i].Abort?)
  {
    AbortedIff(START, actions);
    InvAtStart();
    RunKeepsInv(START, actions);
    var s := Run(START, actions).value;
    if exists i :: 0 <= i < |actions| && actions[i].CallDisconnect? {
      CallsLeadToDisconnect(START, actions);
    }
    if !(forall t: Tid :: At(s, t) != Notify) {
      var t: Tid :| At(s, t) == Notify;
    }
  }

  // ---------------------------------------------------------------------------------------------
  // Uninterrupted calls: what the methods compute when no other thread intervenes
  // ---------------------------------------------------------------------------------------------

  function DisconnectNow(c: Core): Core {
    if c.disconnected then c else Wipe(Notified(SetFlag(c)))
  }

  function RegisterSendNow(c: Core, o: Outcome): Core
    requires c.queue != []
    decreases |c.queue|, 0
  {
    if c.disconnected then c
    else
      match o
      case Later => SubmitAll(c)
      case Throws => SubmitAll(c)
      case Now(ok, _) => OnSendCompletedNow(SubmitAll(c), ok, o)
  }

  function OnSendCompletedNow(c: Core, ok: bool, o: Outcome): Core
    decreases |c.queue|, 1
  {
    if !ok then DisconnectNow(c)
    else if Acknowledge(c).queue != [] then RegisterSendNow(Acknowledge(c), o)
    else Acknowledge(c)
  }

  function SendNow(c: Core, segs: seq<bytes>, o: Outcome): Core {
    if segs == [] then c
    else if c.pending != [] then Enqueue(c, segs)
    else RegisterSendNow(Enqueue(c, segs), o)
  }

  /** The remaining steps of a thread that is about to read the flag in RegisterSend and is not interrupted. */
  function RegisterSchedule(c: Core, t: Tid, o: Outcome): seq<Action> {
    if c.disconnected then [Proceed(t)]
    else [Proceed(t)] + ([Submit(t, o)] + AfterSubmit(t, o))
  }

  function AfterSubmit(t: Tid, o: Outcome): seq<Action> {
    match o
    case Later => []
    case Throws => []
    case Now(ok, _) => if ok then [Proceed(t)] else FailureSchedule(t)
  }

  /** OnSendCompleted with a failure: exchange the flag, notify, close, wipe. */
  function FailureSchedule(t: Tid): seq<Action> {
    [Proceed(t)] + ([Proceed(t)] + ([Proceed(t)] + ([Proceed(t)] + ([Proceed(t)] + []))))
  }

  function SendSchedule(c: Core, t: Tid, segs: seq<bytes>, o: Outcome): seq<Action> {
    [Send(t, segs)] + (if segs == [] || c.pending != [] then [] else RegisterSchedule(c, t, o))
  }

  lemma {:induction false} RunCons(s: State, a: Action, rest: seq<Action>)
    ensures Run(s, [a] + rest) == if Step(s, a).Some? then Run(Step(s, a).value, rest) else None
  {
    assert ([a] + rest)[1..] == rest;
  }

  lemma FailureIsARun(s: State, t: Tid)
    requires At(s, t) == Completion(false) && s.lock == Some(t) && !s.core.disconnected
    ensures var r := Run(s, FailureSchedule(t));
            r.Some? && r.value.core == DisconnectNow(s.core) && At(r.value, t) == Idle && r.value.lock == None
  {
    var p := Proceed(t);
    var s1 := Step(s, p).value;
    var s2 := Step(s1, p).value;
    var s3 := Step(s2, p).value;
    var s4 := Step(s3, p).value;
    RunCons(s, p, [p] + ([p] + ([p] + ([p] + []))));
    RunCons(s1, p, [p] + ([p] + ([p] + [])));
    RunCons(s2, p, [p] + ([p] + []));
    RunCons(s3, p, [p] + []);
    RunCons(s4, p, []);
  }

  lemma AfterSubmitIsARun(s: State, t: Tid, o: Outcome)
    requires At(s, t) == Ready && s.lock == Some(t) && !s.core.disconnected
    ensures var r := Run(Step(s, Submit(t, o)).value, AfterSubmit(t, o));
            r.Some? && At(r.value, t) == Idle && r.value.lock == None &&
            r.value.core == if o.Now? then OnSendCompletedNow(SubmitAll(s.core), o.ok, o) else SubmitAll(s.core)
  {
    var n := Step(s, Submit(t, o)).value;
    if o.Now? {
      if o.ok { RunCons(n, Proceed(t), []); } else { FailureIsARun(n, t); }
    }
  }

  /** An uninterrupted RegisterSend is a run of the machine that gives the lock back. */
  lemma RegisterIsARun(s: State, t: Tid, o: Outcome)
    requires At(s, t) == CheckFlag && s.lock == Some(t) && s.core.queue != []
    ensures var r := Run(s, RegisterSchedule(s.core, t, o));
            r.Some? && r.value.core == RegisterSendNow(s.core, o) && At(r.value, t) == Idle && r.value.lock == None
  {
    if s.core.disconnected {
      RunCons(s, Proceed(t), []);
    } else {
      var s1 := Step(s, Proceed(t)).value;
      RunCons(s, Proceed(t), [Submit(t, o)] + AfterSubmit(t, o));
      RunCons(s1, Submit(t, o), AfterSubmit(t, o));
      AfterSubmitIsARun(s1, t, o);
    }
  }

  /** An uninterrupted Send is a run of the machine: the methods below inherit everything proved of all runs. */
  lemma SendIsARun(s: State, t: Tid, segs: seq<bytes>, o: Outcome)
    requires At(s, t) == Idle && s.lock == None
    ensures var r := Run(s, SendSchedule(s.core, t, segs, o));
            r.Some? && r.value.core == SendNow(s.core, segs, o) && At(r.value, t) == Idle && r.value.lock == None
  {
    var rest := if segs == [] || s.core.pending != [] then [] else RegisterSchedule(s.core, t, o);
    RunCons(s, Send(t, segs), rest);
    if segs != [] && s.core.pending == [] {
      RegisterIsARun(Step(s, Send(t, segs)).value, t, o);
    }
  }

  /** A failure after someone else disconnected: the exchange finds the flag set. */
  lemma LateFailureIsARun(s: State, t: Tid)
    requires At(s, t) == Completion(false) && s.lock == Some(t) && s.core.disconnected
    ensures var r := Run(s, [Proceed(t)] + ([Proceed(t)] + []));
            r.Some? && r.value.core == DisconnectNow(s.core) && At(r.value, t) == Idle && r.value.lock == None
  {
    RunCons(s, Proceed(t), [Proceed(t)] + []);
    RunCons(Step(s, Proceed(t)).value, Proceed(t), []);
  }

  /** The remaining steps of OnSendCompleted. */
  function CompletionSchedule(c: Core, t: Tid, ok: bool, o: Outcome): seq<Action> {
    if !ok then (if c.disconnected then [Proceed(t)] + ([Proceed(t)] + []) else FailureSchedule(t))
    else [Proceed(t)] + if c.queue == [] then [] else RegisterSchedule(Acknowledge(c), t, o)
  }

  lemma GoodCompletionStep(s: State, t: Tid)
    requires At(s, t) == Completion(true) && s.lock == Some(t)
    ensures var n := Step(s, Proceed(t));
            && n.Some? && n.value.core == Acknowledge(s.core)
            && (s.core.queue == [] ==> At(n.value, t) == Idle && n.value.lock == None)
            && (s.core.queue != [] ==> At(n.value, t) == CheckFlag && n.value.lock == Some(t))
  {
  }

  lemma CompletionIsARun(s: State, t: Tid, ok: bool, o: Outcome)
    requires At(s, t) == Completion(ok) && s.lock == Some(t)
    ensures var r := Run(s, CompletionSchedule(s.core, t, ok, o));
            && r.Some? && r.value.core == OnSendCompletedNow(s.core, ok, o)
            && At(r.value, t) == Idle && r.value.lock == None
  {
    hide Step, RegisterSendNow, RegisterSchedule, FailureSchedule, DisconnectNow, At;
    if !ok {
      if s.core.disconnected { LateFailureIsARun(s, t); } else { FailureIsARun(s, t); }
    } else {
      GoodCompletionStep(s, t);
      var c := Acknowledge(s.core);
      var rest := if s.core.queue == [] then [] else RegisterSchedule(c, t, o);
      RunCons(s, Proceed(t), rest);
      if s.core.queue != [] {
        RegisterIsARun(Step(s, Proceed(t)).value, t, o);
      }
    }
  }

  /** An uninterrupted OnSendCompleted on an I/O thread is a run of the machine, too. */
  lemma OnSendCompletedIsARun(s: State, t: Tid, o: Outcome)
    requires At(s, t) == Idle && s.lock == None
    requires s.flight.Some? && s.flight.value.done.Some?
    ensures var ok := s.flight.value.done.value;
            var r := Run(s, [Handle(t)] + CompletionSchedule(s.core, t, ok, o));
            && r.Some? && r.value.core == OnSendCompletedNow(s.core, ok, o)
            && At(r.value, t) == Idle && r.value.lock == None
  {
    var ok := s.flight.value.done.value;
    RunCons(s, Handle(t), CompletionSchedule(s.core, t, ok, o));
    CompletionIsARun(Step(s, Handle(t)).value, t, ok, o);
  }
}
