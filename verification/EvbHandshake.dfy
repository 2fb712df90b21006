/**
 The handshake offload of EvbHandshakeHelper: a handshake runs on one event
 loop while its observer (the acceptor) lives on another.

 Two loops race through one compare-and-swap. The letters of the header's
 diagrams are used throughout: D is `dropConnection`, D' the inner drop it
 posts, C an incoming callback of the inner helper, and C' the delivery it
 posts. D and C are split at every access to shared data, so the other loop may
 run between any two of their steps. Each loop owns two FIFO queues: callbacks
 it posted to itself (`runInLoop`) and tasks other threads posted to it
 (`runInEventBaseThread`); the loop may take from either.
 */
module EvbHandshake {

  datatype HandshakeState = Invalid | Started | Dropped | Callback

  datatype Outcome = Ready | Error

  /** The wrapped helper; `Destroyed` is a null `helper_`. */
  datatype Inner = NotStarted | Running | Signaled | Destroyed

  /** Where the transport is attached. */
  datatype Transport = OnAcceptor | TowardsHandshake | OnHandshake | TowardsAcceptor | Returned | Closed

  datatype AcceptorTask = PostStart | Deliver(outcome: Outcome) | ReleaseGuard

  datatype HandshakeTask = StartInner | DropInner | ForwardReady

  /** Progress of a `dropConnection` call on the acceptor loop. */
  datatype DropPc = NotDropping | Raced(won: bool) | Notified(won: bool)

  /** Progress of the call the handshake loop is executing. */
  datatype HandshakePc = Quiet | Won(outcome: Outcome) | InnerDropped | InnerReset

  datatype State = State(
    state: HandshakeState,
    owned: bool,                       // the observer has not destroyed the helper
    guard: bool,                       // dropConnectionGuard_ has a value
    inner: Inner,
    transport: Transport,
    acceptorLoop: seq<AcceptorTask>,   // runInLoop callbacks
    acceptorInbox: seq<AcceptorTask>,  // tasks posted from the other thread
    handshakeLoop: seq<HandshakeTask>,
    handshakeInbox: seq<HandshakeTask>,
    drop: DropPc,
    pc: HandshakePc,
    // what an observer of the run can count
    dropCalled: bool,
    dropReturned: bool,
    delivered: nat,                    // calls of the outer callback
    heard: seq<Outcome>,               // what each of them reported
    deliveredLate: bool,               // one of them after dropConnection returned
    released: nat,                     // releases of the guard
    detached: nat,                     // transport detached from the handshake loop
    reattached: nat,                   // transport attached back to the acceptor loop
    dropAfterWin: bool,                // D' ran although a callback had won
    dropAfterSignal: bool,             // D' ran on an inner helper that had called back
    fault: bool                        // freed or null memory touched, or a CHECK failed
  )

  const INITIAL: State := State(
    Invalid, true, false, NotStarted, OnAcceptor, [], [], [], [], NotDropping, Quiet,
    false, false, 0, [], false, 0, 0, 0, false, false, false)

  /** The helper's memory is gone: destroyed by its owner, no guard holding it. */
  predicate Freed(s: State) {
    !s.owned && !s.guard
  }

  /** Any access to a member of the helper. */
  function Touch(s: State): (r: State) {
    s.(fault := s.fault || Freed(s))
  }

  /** The outer callback; its receiver destroys the helper synchronously. */
  function DeliverCallback(s: State, o: Outcome): (r: State) {
    s.(delivered := s.delivered + 1,
       heard := s.heard + [o],
       deliveredLate := s.deliveredLate || s.dropReturned,
       owned := false)
  }

  function ResetGuard(s: State): (r: State) {
    s.(guard := false, released := s.released + 1)
  }

  datatype Step =
    | CallStart
    | RunPostStart
    | RunStartInner
    | InnerCallsBack(outcome: Outcome)
    | FinishCallback
    | RunForwardReady
    | CallDrop
    | DropNotifies
    | DropPosts
    | RunDropInner
    | ResetInner
    | PostRelease
    | RunAcceptorInbox

  /** The acceptor loop is not inside a `dropConnection` call. */
  predicate AcceptorIdle(s: State) {
    s.drop == NotDropping
  }

  predicate HandshakeIdle(s: State) {
    s.pc == Quiet
  }

  /** What the owner of a helper promises about `dropConnection`: once, after `start`, before any callback. */
  predicate MayDrop(s: State) {
    AcceptorIdle(s) && s.state != Invalid && !s.dropCalled && s.delivered == 0
  }

  /** The start task has left the acceptor loop. */
  predicate StartPosted(s: State) {
    PostStart !in s.acceptorLoop
  }

  predicate Enabled(s: State, step: Step) {
    match step
    case CallStart => AcceptorIdle(s) && s.state == Invalid
    case RunPostStart => AcceptorIdle(s) && s.acceptorLoop != [] && s.acceptorLoop[0] == PostStart
    case RunStartInner => HandshakeIdle(s) && s.handshakeInbox != [] && s.handshakeInbox[0] == StartInner
    case InnerCallsBack(_) => HandshakeIdle(s) && s.inner == Running
    case FinishCallback => s.pc.Won?
    case RunForwardReady => HandshakeIdle(s) && s.handshakeLoop != [] && s.handshakeLoop[0] == ForwardReady
    case CallDrop => MayDrop(s) && StartPosted(s)
    case DropNotifies => s.drop.Raced?
    case DropPosts => s.drop.Notified?
    case RunDropInner => HandshakeIdle(s) && s.handshakeInbox != [] && s.handshakeInbox[0] == DropInner
    case ResetInner => s.pc == InnerDropped
    case PostRelease => s.pc == InnerReset
    case RunAcceptorInbox => AcceptorIdle(s) && s.acceptorInbox != [] && s.acceptorInbox[0] != PostStart
  }

  /** `start`: the state moves on, the transport leaves the acceptor loop. */
  function Start(s: State): (r: State) {
    Touch(s).(
      state := if s.state == Invalid then Started else s.state,
      transport := TowardsHandshake,
      acceptorLoop := s.acceptorLoop + [PostStart])
  }

  /** C: the inner helper reports its result and races for the state. */
  function CallBack(s: State, o: Outcome): (r: State) {
    var t := Touch(s).(inner := Signaled, fault := s.fault || Freed(s) || s.transport != OnHandshake);
    if s.state == Started then
      t.(state := Callback, pc := Won(o))
    else if o == Ready then
      t.(transport := Closed)   // the ignored callback destroys the transport it was handed
    else
      t
  }

  /** The rest of C after it won: `connectionReady` hops through its own loop, `connectionError` does not. */
  function Finish(s: State, o: Outcome): (r: State) {
    var t := Touch(s).(pc := Quiet);
    match o
    case Ready =>
      t.(transport := TowardsAcceptor, detached := s.detached + 1,
         handshakeLoop := s.handshakeLoop + [ForwardReady])
    case Error =>
      t.(inner := Destroyed, transport := Closed,
         acceptorInbox := s.acceptorInbox + [Deliver(Error)])
  }

  /** D', first part: the inner drop calls `connectionError` synchronously, which races and must lose. */
  function DropOnHandshakeLoop(s: State): (r: State)
    requires s.handshakeInbox != []
  {
    Touch(s).(
      handshakeInbox := s.handshakeInbox[1..],
      pc := InnerDropped,
      inner := Signaled,
      dropAfterWin := s.dropAfterWin || s.state == Callback,
      dropAfterSignal := s.dropAfterSignal || s.inner == Signaled,
      fault := s.fault || Freed(s) || s.state == Started ||
               (s.inner != Running && s.inner != Signaled) ||
               (s.transport != OnHandshake && s.transport != Closed))
  }

  /** C' or the release of the guard after D'. */
  function RunInbox(s: State): (r: State)
    requires s.acceptorInbox != []
  {
    var t := Touch(s).(acceptorInbox := s.acceptorInbox[1..]);
    match s.acceptorInbox[0]
    case PostStart => t
    case ReleaseGuard => ResetGuard(t)
    case Deliver(o) =>
      var u := if o == Ready then
                 t.(transport := Returned, reattached := s.reattached + 1,
                    fault := t.fault || s.transport != TowardsAcceptor)
               else t;
      if s.guard then ResetGuard(u) else DeliverCallback(u, o)
  }

  function Apply(s: State, step: Step): (r: State)
    requires Enabled(s, step)
  {
    match step
    case CallStart => Start(s)
    case RunPostStart =>
      Touch(s).(acceptorLoop := s.acceptorLoop[1..], handshakeInbox := s.handshakeInbox + [StartInner])
    case RunStartInner =>
      Touch(s).(handshakeInbox := s.handshakeInbox[1..],
                transport := OnHandshake, inner := Running,
                fault := s.fault || Freed(s) || s.inner != NotStarted || s.transport != TowardsHandshake)
    case InnerCallsBack(o) => CallBack(s, o)
    case FinishCallback => Finish(s, s.pc.outcome)
    case RunForwardReady =>
      Touch(s).(handshakeLoop := s.handshakeLoop[1..], acceptorInbox := s.acceptorInbox + [Deliver(Ready)])
    case CallDrop =>
      var won := s.state == Started;
      Touch(s).(dropCalled := true, drop := Raced(won), state := if won then Dropped else s.state)
    case DropNotifies =>
      DeliverCallback(Touch(s).(guard := true), Error).(drop := Notified(s.drop.won))
    case DropPosts =>
      var t := Touch(s).(drop := NotDropping, dropReturned := true);
      if s.drop.won then t.(handshakeInbox := s.handshakeInbox + [DropInner]) else t
    case RunDropInner => DropOnHandshakeLoop(s)
    case ResetInner => Touch(s).(inner := Destroyed, transport := Closed, pc := InnerReset)
    case PostRelease => Touch(s).(pc := Quiet, acceptorInbox := s.acceptorInbox + [ReleaseGuard])
    case RunAcceptorInbox => RunInbox(s)
  }

  /** A sequence of steps, each enabled where it is taken. */
  predicate IsRun(s: State, steps: seq<Step>)
    decreases |steps|
  {
    steps != [] ==> Enabled(s, steps[0]) && IsRun(Apply(s, steps[0]), steps[1..])
  }

  function After(s: State, steps: seq<Step>): (r: State)
    requires IsRun(s, steps)
    decreases |steps|
  {
    if steps == [] then s else After(Apply(s, steps[0]), steps[1..])
  }

  // ---------------------------------------------------------------------------
  // The inductive invariant
  // ---------------------------------------------------------------------------

  /** No callback yet: the handshake travels to the inner helper. */
  predicate Outbound(s: State) {
    && s.pc == Quiet && s.handshakeLoop == [] && s.acceptorInbox == []
    && s.detached == 0 && s.reattached == 0
    && (|| (s.acceptorLoop == [PostStart] && s.handshakeInbox == [] && s.inner == NotStarted && s.transport == TowardsHandshake)
        || (s.acceptorLoop == [] && s.handshakeInbox == [StartInner] && s.inner == NotStarted && s.transport == TowardsHandshake)
        || (s.acceptorLoop == [] && s.handshakeInbox == [] && s.inner == Running && s.transport == OnHandshake))
  }

  /** A callback won and C' is still to run. */
  predicate DeliveryInFlight(s: State) {
    && s.acceptorLoop == [] && s.handshakeInbox == [] && s.reattached == 0
    && (|| (s.pc.Won? && s.handshakeLoop == [] && s.acceptorInbox == []
            && s.inner == Signaled && s.transport == OnHandshake && s.detached == 0)
        || (s.pc == Quiet && s.handshakeLoop == [ForwardReady] && s.acceptorInbox == []
            && s.transport == TowardsAcceptor && s.inner == Signaled && s.detached == 1)
        || (s.pc == Quiet && s.handshakeLoop == [] && s.acceptorInbox == [Deliver(Ready)]
            && s.transport == TowardsAcceptor && s.inner == Signaled && s.detached == 1)
        || (s.pc == Quiet && s.handshakeLoop == [] && s.acceptorInbox == [Deliver(Error)]
            && s.transport == Closed && s.inner == Destroyed && s.detached == 0))
  }

  predicate QueuesEmpty(s: State) {
    s.acceptorLoop == [] && s.acceptorInbox == [] && s.handshakeLoop == [] && s.handshakeInbox == []
  }

  /** The observer has seen nothing yet and still owns the helper. */
  predicate Unobserved(s: State) {
    s.owned && !s.guard && s.delivered == 0 && s.released == 0 && !s.dropReturned
  }

  /** D has called the observer; the guard keeps the helper alive. */
  predicate Guarded(s: State) {
    !s.owned && s.guard && s.delivered == 1 && s.released == 0 && s.dropCalled
  }

  /** D won: what is left of its work on the handshake loop and after. */
  predicate DropInFlight(s: State) {
    && s.acceptorLoop == [] && s.handshakeLoop == [] && s.detached == 0 && s.reattached == 0
    && (|| (s.drop == Raced(true) && Unobserved(s))
        || (s.drop == Notified(true) && Guarded(s) && !s.dropReturned)
        || (s.drop == NotDropping && Guarded(s) && s.dropReturned))
    && (if s.drop != NotDropping then
          InnerWaiting(s, [])
        else
          || InnerWaiting(s, [DropInner])
          || (s.pc == InnerDropped && s.handshakeInbox == [] && s.acceptorInbox == []
              && s.inner == Signaled && (s.transport == OnHandshake || s.transport == Closed))
          || (s.pc == InnerReset && s.handshakeInbox == [] && s.acceptorInbox == []
              && s.inner == Destroyed && s.transport == Closed)
          || (s.pc == Quiet && s.handshakeInbox == [] && s.acceptorInbox == [ReleaseGuard]
              && s.inner == Destroyed && s.transport == Closed))
  }

  /** The inner helper has not been dropped; `rest` is queued behind its start, if that is still queued. */
  predicate InnerWaiting(s: State, rest: seq<HandshakeTask>) {
    && s.pc == Quiet && s.acceptorInbox == []
    && (|| (s.handshakeInbox == [StartInner] + rest && s.inner == NotStarted && s.transport == TowardsHandshake)
        || (s.handshakeInbox == rest && s.inner == Running && s.transport == OnHandshake)
        || (s.handshakeInbox == rest && s.inner == Signaled && (s.transport == OnHandshake || s.transport == Closed)))
  }

  /** Everything is over. */
  predicate Settled(s: State) {
    && QueuesEmpty(s) && s.drop == NotDropping && s.pc == Quiet
    && Freed(s) && s.delivered == 1
    && s.released == (if s.dropCalled then 1 else 0)
    && s.dropReturned == s.dropCalled
    && s.inner != Running
    && s.detached == s.reattached <= 1
  }

  predicate Inv(s: State) {
    && !s.fault && !s.deliveredLate && !s.dropAfterWin
    && match s.state
       case Invalid => s == INITIAL
       case Started => s.drop == NotDropping && !s.dropCalled && Unobserved(s) && Outbound(s)
       case Callback =>
         || Settled(s)
         || (DeliveryInFlight(s) &&
             (|| (s.drop == NotDropping && !s.dropCalled && Unobserved(s))
              || (s.drop == Raced(false) && s.dropCalled && Unobserved(s))
              || (s.drop == Notified(false) && Guarded(s) && !s.dropReturned)
              || (s.drop == NotDropping && Guarded(s) && s.dropReturned)))
       case Dropped => s.dropCalled && (Settled(s) || DropInFlight(s))
  }

  /** The step is taken by the acceptor loop. */
  predicate OnAcceptorLoop(step: Step) {
    || step.CallStart? || step.RunPostStart? || step.RunAcceptorInbox?
    || step.CallDrop? || step.DropNotifies? || step.DropPosts?
  }

  lemma StartingKeepsInv(s: State, step: Step)
    requires Inv(s) && Enabled(s, step) && (s.state == Invalid || s.state == Started)
    ensures Inv(Apply(s, step))
  {
  }

  lemma DeliveryKeepsInvOnAcceptor(s: State, step: Step)
    requires Inv(s) && Enabled(s, step) && s.state == Callback && OnAcceptorLoop(step)
    ensures Inv(Apply(s, step))
  {
  }

  lemma DeliveryKeepsInvOnHandshake(s: State, step: Step)
    requires Inv(s) && Enabled(s, step) && s.state == Callback && !OnAcceptorLoop(step)
    ensures Inv(Apply(s, step))
  {
  }

  lemma DeliveryKeepsInv(s: State, step: Step)
    requires Inv(s) && Enabled(s, step) && s.state == Callback
    ensures Inv(Apply(s, step))
  {
    hide Inv, Apply, Enabled;
    if OnAcceptorLoop(step) { DeliveryKeepsInvOnAcceptor(s, step); } else { DeliveryKeepsInvOnHandshake(s, step); }
  }

  lemma DropKeepsInvOnAcceptor(s: State, step: Step)
    requires Inv(s) && Enabled(s, step) && s.state == Dropped && OnAcceptorLoop(step)
    ensures Inv(Apply(s, step))
  {
  }

  lemma DropKeepsInvAtCallback(s: State, o: Outcome)
    requires Inv(s) && Enabled(s, InnerCallsBack(o)) && s.state == Dropped
    ensures Inv(Apply(s, InnerCallsBack(o)))
  {
    assert InnerWaiting(s, s.handshakeInbox);
    assert InnerWaiting(Apply(s, InnerCallsBack(o)), s.handshakeInbox);
  }

  lemma DropKeepsInvInside(s: State, step: Step)
    requires Inv(s) && Enabled(s, step) && s.state == Dropped && !OnAcceptorLoop(step)
    requires step != RunStartInner && step != RunDropInner && !step.InnerCallsBack?
    ensures Inv(Apply(s, step))
  {
    assert Apply(s, step).handshakeInbox == s.handshakeInbox;
  }

  lemma DropKeepsInvAtStart(s: State)
    requires Inv(s) && Enabled(s, RunStartInner) && s.state == Dropped
    ensures Inv(Apply(s, RunStartInner))
  {
    var rest := s.handshakeInbox[1..];
    assert s.handshakeInbox == [StartInner] + rest;
  }

  lemma DropKeepsInvAtDrop(s: State)
    requires Inv(s) && Enabled(s, RunDropInner) && s.state == Dropped
    ensures Inv(Apply(s, RunDropInner))
  {
    assert s.handshakeInbox == [DropInner];
  }

  lemma DropKeepsInvOnHandshake(s: State, step: Step)
    requires Inv(s) && Enabled(s, step) && s.state == Dropped && !OnAcceptorLoop(step)
    ensures Inv(Apply(s, step))
  {
    hide Inv, Apply, Enabled;
    match step
    case RunStartInner => DropKeepsInvAtStart(s);
    case RunDropInner => DropKeepsInvAtDrop(s);
    case InnerCallsBack(o) => DropKeepsInvAtCallback(s, o);
    case _ => DropKeepsInvInside(s, step);
  }

  lemma DropKeepsInv(s: State, step: Step)
    requires Inv(s) && Enabled(s, step) && s.state == Dropped
    ensures Inv(Apply(s, step))
  {
    hide Inv, Apply, Enabled;
    if OnAcceptorLoop(step) { DropKeepsInvOnAcceptor(s, step); } else { DropKeepsInvOnHandshake(s, step); }
  }

  lemma StepKeepsInv(s: State, step: Step)
    requires Inv(s) && Enabled(s, step)
    ensures Inv(Apply(s, step))
  {
    match s.state
    case Invalid => StartingKeepsInv(s, step);
    case Started => StartingKeepsInv(s, step);
    case Callback => DeliveryKeepsInv(s, step);
    case Dropped => DropKeepsInv(s, step);
  }

  // ---------------------------------------------------------------------------
  // Safety over every interleaving
  // ---------------------------------------------------------------------------

  lemma {:induction false} RunKeepsInv(s: State, steps: seq<Step>)
    requires Inv(s) && IsRun(s, steps)
    ensures Inv(After(s, steps))
    decreases |steps|
  {
    if steps != [] {
      StepKeepsInv(s, steps[0]);
      RunKeepsInv(Apply(s, steps[0]), steps[1..]);
    }
  }

  /** Nothing is left to run: both loops are idle and the inner helper will not call back any more. */
  predicate Quiescent(s: State) {
    && s.state != Invalid && QueuesEmpty(s)
    && s.drop == NotDropping && s.pc == Quiet && s.inner != Running
  }

  /**
   On every run: the outer callback fires at most once and never after
   `dropConnection` returned; no task touches freed memory or a null helper; D'
   never follows a callback that won; the transport leaves the handshake loop at
   most once and comes back at most once. When both loops have drained, the
   callback has fired exactly once, the guard set by a drop has been released
   exactly once, and the helper is gone.
   */
  lemma EveryRunIsSafe(steps: seq<Step>)
    requires IsRun(INITIAL, steps)
    ensures var r := After(INITIAL, steps);
            && !r.fault && !r.deliveredLate && !r.dropAfterWin
            && r.delivered <= 1 && r.released <= 1 && r.reattached <= r.detached <= 1
            && (Quiescent(r) ==>
                  r.delivered == 1 && Freed(r) && r.released == if r.dropCalled then 1 else 0)
  {
    RunKeepsInv(INITIAL, steps);
  }

  /** The guard is released by the last task of the run: nothing is queued or executing behind it. */
  lemma GuardReleasedLast(steps: seq<Step>)
    requires IsRun(INITIAL, steps)
    ensures var r := After(INITIAL, steps);
            && (r.released > 0 ==> Quiescent(r) && Freed(r))
            && (r.guard <==> r.dropCalled && r.released == 0 && !r.drop.Raced?)
            && (Freed(r) ==> Quiescent(r))
  {
    RunKeepsInv(INITIAL, steps);
  }

  lemma StepKeepsWinner(s: State, step: Step)
    requires Enabled(s, step) && (s.state == Callback || s.state == Dropped)
    ensures Apply(s, step).state == s.state
  {
    match step
    case RunAcceptorInbox => assert RunInbox(s).state == s.state;
    case FinishCallback => assert Finish(s, s.pc.outcome).state == s.state;
    case _ =>
  }

  /** Once one side has won the compare-and-swap the winner never changes. */
  lemma {:induction false} WinnerIsFinal(s: State, steps: seq<Step>)
    requires IsRun(s, steps) && (s.state == Callback || s.state == Dropped)
    ensures After(s, steps).state == s.state
    decreases |steps|
  {
    if steps != [] {
      StepKeepsWinner(s, steps[0]);
      WinnerIsFinal(Apply(s, steps[0]), steps[1..]);
    }
  }

  // ---------------------------------------------------------------------------
  // What the observer hears
  // ---------------------------------------------------------------------------

  datatype Winner = NoCallback | Reported(outcome: Outcome)

  /** The callback of the inner helper that won the race in a run, if one did. */
  function WinnerOf(s: State, steps: seq<Step>): (w: Winner)
    requires IsRun(s, steps)
    decreases |steps|
  {
    if steps == [] then NoCallback
    else if steps[0].InnerCallsBack? && s.state == Started then Reported(steps[0].outcome)
    else WinnerOf(Apply(s, steps[0]), steps[1..])
  }

  /** The winning outcome o is the one that travels, arrives and is heard, and the transport fares accordingly. */
  predicate Carries(s: State, o: Outcome) {
    && s.state == Callback
    && (s.pc.Won? ==> s.pc.outcome == o)
    && (s.handshakeLoop != [] ==> o == Ready)
    && (s.acceptorInbox != [] ==> s.acceptorInbox[0] == Deliver(o))
    && s.heard == (if s.delivered == 0 then [] else if s.dropCalled then [Error] else [o])
    && (Settled(s) ==> s.transport == if o == Ready then Returned else Closed)
  }

  /** While no callback has won, the observer can only have heard of a drop. */
  predicate HearsOfDrop(s: State) {
    && s.heard == (if s.delivered == 0 then [] else [Error])
    && (s.state == Dropped && Settled(s) ==> s.transport == Closed)
  }

  lemma AcceptorStepCarries(s: State, step: Step, o: Outcome)
    requires Inv(s) && Enabled(s, step) && Carries(s, o) && OnAcceptorLoop(step)
    ensures Carries(Apply(s, step), o)
  {
  }

  lemma HandshakeStepCarries(s: State, step: Step, o: Outcome)
    requires Inv(s) && Enabled(s, step) && Carries(s, o) && !OnAcceptorLoop(step)
    ensures Carries(Apply(s, step), o)
  {
  }

  lemma {:induction false} RunCarries(s: State, steps: seq<Step>, o: Outcome)
    requires Inv(s) && IsRun(s, steps) && Carries(s, o)
    ensures Carries(After(s, steps), o)
    decreases |steps|
  {
    hide Inv, Apply, Enabled, Carries;
    if steps != [] {
      StepKeepsInv(s, steps[0]);
      if OnAcceptorLoop(steps[0]) { AcceptorStepCarries(s, steps[0], o); } else { HandshakeStepCarries(s, steps[0], o); }
      RunCarries(Apply(s, steps[0]), steps[1..], o);
    }
  }

  lemma WinningStarts(s: State, o: Outcome)
    requires Inv(s) && s.state == Started && Enabled(s, InnerCallsBack(o)) && HearsOfDrop(s)
    ensures Carries(Apply(s, InnerCallsBack(o)), o)
  {
  }

  lemma AcceptorStepHears(s: State, step: Step)
    requires Inv(s) && Enabled(s, step) && HearsOfDrop(s) && s.state != Callback && OnAcceptorLoop(step)
    ensures HearsOfDrop(Apply(s, step)) && Apply(s, step).state != Callback
  {
  }

  lemma HandshakeStepHears(s: State, step: Step)
    requires Inv(s) && Enabled(s, step) && HearsOfDrop(s) && s.state != Callback && !OnAcceptorLoop(step)
    requires !(step.InnerCallsBack? && s.state == Started)
    ensures HearsOfDrop(Apply(s, step)) && Apply(s, step).state != Callback
  {
  }

  lemma {:induction false} RunIsHeard(s: State, steps: seq<Step>)
    requires Inv(s) && IsRun(s, steps) && HearsOfDrop(s) && s.state != Callback
    ensures var r, w := After(s, steps), WinnerOf(s, steps);
            && (w.NoCallback? ==> HearsOfDrop(r) && r.state != Callback)
            && (w.Reported? ==> Carries(r, w.outcome))
    decreases |steps|
  {
    hide Inv, Apply, Enabled, Carries, HearsOfDrop;
    if steps != [] {
      var step := steps[0];
      StepKeepsInv(s, step);
      if step.InnerCallsBack? && s.state == Started {
        WinningStarts(s, step.outcome);
        RunCarries(Apply(s, step), steps[1..], step.outcome);
      } else {
        if OnAcceptorLoop(step) { AcceptorStepHears(s, step); } else { HandshakeStepHears(s, step); }
        RunIsHeard(Apply(s, step), steps[1..]);
      }
    }
  }

  /**
   What the observer hears, in every interleaving: when both loops have drained,
   the one callback reports the error of the drop if there was a drop, and
   otherwise the outcome of the inner callback that won. A handshake that won as
   ready has its transport back on the acceptor loop; in every other case it is
   closed.
   */
  lemma ObserverHearsTheOutcome(steps: seq<Step>)
    requires IsRun(INITIAL, steps) && Quiescent(After(INITIAL, steps))
    ensures var r, w := After(INITIAL, steps), WinnerOf(INITIAL, steps);
            && (r.dropCalled ==> r.heard == [Error])
            && (!r.dropCalled ==> w.Reported? && r.heard == [w.outcome])
            && (r.transport == if w == Reported(Ready) then Returned else Closed)
  {
    hide IsRun, After, WinnerOf;
    RunKeepsInv(INITIAL, steps);
    RunIsHeard(INITIAL, steps);
  }

  /** After a drop that won, the inner helper gone quiet and the transport closed. */
  predicate ClosedByDrop(s: State) {
    && s.state == Dropped && s.transport == Closed && s.inner != Running && !s.pc.Won?
    && (s.handshakeInbox == [] || s.handshakeInbox == [DropInner])
    && (s.acceptorInbox == [] || s.acceptorInbox == [ReleaseGuard])
    && s.acceptorLoop == [] && s.handshakeLoop == []
  }

  lemma DropClosesWithoutTravel(s: State)
    requires Inv(s) && s.state == Dropped && s.transport == Closed
    ensures ClosedByDrop(s) || Settled(s)
  {
  }

  lemma StepKeepsClosed(s: State, step: Step)
    requires ClosedByDrop(s) && Enabled(s, step)
    ensures Apply(s, step).transport == Closed
  {
    match step
    case RunAcceptorInbox => assert RunInbox(s).transport == Closed;
    case _ =>
  }

  lemma SettledIsStill(s: State, step: Step)
    requires Settled(s) && s.state == Dropped
    ensures !Enabled(s, step)
  {
  }

  lemma {:induction false} ClosedStaysClosed(s: State, steps: seq<Step>)
    requires Inv(s) && IsRun(s, steps) && s.state == Dropped && s.transport == Closed
    ensures After(s, steps).transport == Closed
    decreases |steps|
  {
    hide Inv, Apply, Enabled, ClosedByDrop, Settled;
    if steps != [] {
      DropClosesWithoutTravel(s);
      if Settled(s) { SettledIsStill(s, steps[0]); }
      StepKeepsInv(s, steps[0]);
      StepKeepsWinner(s, steps[0]);
      StepKeepsClosed(s, steps[0]);
      ClosedStaysClosed(Apply(s, steps[0]), steps[1..]);
    }
  }

  /** A ready callback that lost to a drop destroys the transport it was handed, for good. */
  lemma IgnoredReadyClosesTransport(s: State, steps: seq<Step>)
    requires Inv(s) && s.state == Dropped && Enabled(s, InnerCallsBack(Ready))
    requires IsRun(Apply(s, InnerCallsBack(Ready)), steps)
    ensures After(Apply(s, InnerCallsBack(Ready)), steps).transport == Closed
  {
    hide IsRun, After, Inv;
    StepKeepsInv(s, InnerCallsBack(Ready));
    ClosedStaysClosed(Apply(s, InnerCallsBack(Ready)), steps);
  }

  // ---------------------------------------------------------------------------
  // Every run ends
  // ---------------------------------------------------------------------------

  function TaskRank(s: State): (n: nat) {
    (if PostStart in s.acceptorLoop then 7 else 0) +
    (if StartInner in s.handshakeInbox then 6 else 0) +
    (if s.inner == Running then 5 else 0) +
    (if ForwardReady in s.handshakeLoop then 2 else 0) +
    (if s.acceptorInbox == [] then 0 else 1) +
    (if DropInner in s.handshakeInbox then 4 else 0)
  }

  /** An upper bound on the steps still to come. */
  function Rank(s: State): (n: nat) {
    TaskRank(s) +
    (if s.state == Invalid then 8 else 0) +
    (if !s.dropCalled then 7 else if s.drop.Raced? then 6 else if s.drop.Notified? then 5 else 0) +
    (match s.pc case Quiet => 0 case Won(_) => 3 case InnerDropped => 3 case InnerReset => 2)
  }

  lemma StartingLowersRank(s: State, step: Step)
    requires Inv(s) && Enabled(s, step) && (s.state == Invalid || s.state == Started)
    ensures Rank(Apply(s, step)) < Rank(s)
  {
  }

  lemma DeliveryLowersRankOnAcceptor(s: State, step: Step)
    requires Inv(s) && Enabled(s, step) && s.state == Callback && OnAcceptorLoop(step)
    ensures Rank(Apply(s, step)) < Rank(s)
  {
  }

  lemma DeliveryLowersRankOnHandshake(s: State, step: Step)
    requires Inv(s) && Enabled(s, step) && s.state == Callback && !OnAcceptorLoop(step)
    ensures Rank(Apply(s, step)) < Rank(s)
  {
  }

  lemma DeliveryLowersRank(s: State, step: Step)
    requires Inv(s) && Enabled(s, step) && s.state == Callback
    ensures Rank(Apply(s, step)) < Rank(s)
  {
    hide Inv, Apply, Enabled;
    if OnAcceptorLoop(step) { DeliveryLowersRankOnAcceptor(s, step); } else { DeliveryLowersRankOnHandshake(s, step); }
  }

  lemma DropLowersRankOnAcceptor(s: State, step: Step)
    requires Inv(s) && Enabled(s, step) && s.state == Dropped && OnAcceptorLoop(step)
    ensures Rank(Apply(s, step)) < Rank(s)
  {
  }

  lemma DropLowersRankAtStart(s: State)
    requires Inv(s) && Enabled(s, RunStartInner) && s.state == Dropped
    ensures Rank(Apply(s, RunStartInner)) < Rank(s)
  {
    var rest := s.handshakeInbox[1..];
    assert s.handshakeInbox == [StartInner] + rest;
    assert rest == [] || rest == [DropInner];
  }

  lemma DropLowersRankAtDrop(s: State)
    requires Inv(s) && Enabled(s, RunDropInner) && s.state == Dropped
    ensures Rank(Apply(s, RunDropInner)) < Rank(s)
  {
    assert s.handshakeInbox == [DropInner];
  }

  lemma DropLowersRankOnHandshake(s: State, step: Step)
    requires Inv(s) && Enabled(s, step) && s.state == Dropped && !OnAcceptorLoop(step)
    requires step != RunStartInner && step != RunDropInner
    ensures Rank(Apply(s, step)) < Rank(s)
  {
    assert Apply(s, step).handshakeInbox == s.handshakeInbox;
  }

  lemma DropLowersRank(s: State, step: Step)
    requires Inv(s) && Enabled(s, step) && s.state == Dropped
    ensures Rank(Apply(s, step)) < Rank(s)
  {
    hide Inv, Apply, Enabled;
    if OnAcceptorLoop(step) {
      DropLowersRankOnAcceptor(s, step);
    } else {
      match step
      case RunStartInner => DropLowersRankAtStart(s);
      case RunDropInner => DropLowersRankAtDrop(s);
      case _ => DropLowersRankOnHandshake(s, step);
    }
  }

  lemma StepLowersRank(s: State, step: Step)
    requires Inv(s) && Enabled(s, step)
    ensures Rank(Apply(s, step)) < Rank(s)
  {
    match s.state
    case Invalid => StartingLowersRank(s, step);
    case Started => StartingLowersRank(s, step);
    case Callback => DeliveryLowersRank(s, step);
    case Dropped => DropLowersRank(s, step);
  }

  lemma {:induction false} RunIsBounded(s: State, steps: seq<Step>)
    requires Inv(s) && IsRun(s, steps)
    ensures |steps| + Rank(After(s, steps)) <= Rank(s)
    decreases |steps|
  {
    if steps != [] {
      StepKeepsInv(s, steps[0]);
      StepLowersRank(s, steps[0]);
      RunIsBounded(Apply(s, steps[0]), steps[1..]);
    }
  }

  /** A step the two loops (or the inner helper) can take by themselves. */
  function NextStep(s: State): (step: Step)
    requires Inv(s) && s.state != Invalid && !Quiescent(s)
    ensures Enabled(s, step) && step != CallDrop && step != CallStart
  {
    if s.drop.Raced? then DropNotifies
    else if s.drop.Notified? then DropPosts
    else if s.acceptorLoop != [] then RunPostStart
    else if s.acceptorInbox != [] then RunAcceptorInbox
    else if s.pc.Won? then FinishCallback
    else if s.pc == InnerDropped then ResetInner
    else if s.pc == InnerReset then PostRelease
    else if s.handshakeLoop != [] then RunForwardReady
    else if s.inner == Running then InnerCallsBack(Error)
    else if s.handshakeInbox[0] == StartInner then RunStartInner
    else RunDropInner
  }

  /**
   Every run can be driven to the end by the loops alone, within the bound, and
   there the observer has had its one callback.
   */
  lemma {:induction false} EveryRunCompletes(s: State) returns (steps: seq<Step>)
    requires Inv(s) && s.state != Invalid
    ensures IsRun(s, steps) && |steps| <= Rank(s)
    ensures Quiescent(After(s, steps)) && After(s, steps).delivered == 1
    decreases Rank(s)
  {
    if Quiescent(s) {
      steps := [];
    } else {
      var step := NextStep(s);
      StepKeepsInv(s, step);
      StepLowersRank(s, step);
      var rest := EveryRunCompletes(Apply(s, step));
      steps := [step] + rest;
      assert steps[1..] == rest;
    }
  }

  // ---------------------------------------------------------------------------
  // Two places where the promises around the helper are not kept
  // ---------------------------------------------------------------------------

  /** Some D' follows a callback of the inner helper; `called` says one came before `steps`. */
  predicate DropsAfterCallback(steps: seq<Step>, called: bool) {
    steps != [] &&
    ((steps[0] == RunDropInner && called) ||
     DropsAfterCallback(steps[1..], called || steps[0].InnerCallsBack?))
  }

  predicate InnerHasCalled(s: State) {
    s.inner == Signaled || s.inner == Destroyed
  }

  /** D' has run. */
  predicate InnerDropDone(s: State) {
    s.state == Dropped && InnerHasCalled(s) && DropInner !in s.handshakeInbox && s.drop == NotDropping
  }

  lemma {:induction false} NoSecondInnerDrop(s: State, steps: seq<Step>, called: bool)
    requires Inv(s) && InnerDropDone(s) && IsRun(s, steps)
    ensures !DropsAfterCallback(steps, called)
    ensures After(s, steps).dropAfterSignal == s.dropAfterSignal
    decreases |steps|
  {
    if steps != [] {
      StepKeepsInv(s, steps[0]);
      NoSecondInnerDrop(Apply(s, steps[0]), steps[1..], called || steps[0].InnerCallsBack?);
    }
  }

  /** What one step does to the record of signals and drops. */
  predicate SignalsTracked(s: State, step: Step, t: State) {
    && (t.dropAfterSignal <==> s.dropAfterSignal || (step == RunDropInner && InnerHasCalled(s)))
    && (step == RunDropInner ==> InnerDropDone(t))
    && (step != RunDropInner ==>
          (InnerHasCalled(t) <==> InnerHasCalled(s) || step.InnerCallsBack?))
  }

  lemma UndroppedTracksSignal(s: State, step: Step)
    requires Inv(s) && Enabled(s, step) && s.state != Dropped
    ensures SignalsTracked(s, step, Apply(s, step))
  {
    assert step != RunDropInner;
  }

  lemma DroppedTracksSignal(s: State, step: Step)
    requires Inv(s) && Enabled(s, step) && s.state == Dropped && !InnerDropDone(s)
    ensures SignalsTracked(s, step, Apply(s, step))
  {
    assert DropInFlight(s);
  }

  /**
   AcceptorHandshakeHelper.h asks callers to invoke `dropConnection` only if no
   callback has been signaled. D' breaks that rule exactly on the runs in which
   an inner callback lost the race and so was ignored before D' ran.
   */
  lemma {:induction false} InnerDroppedAfterSignal(s: State, steps: seq<Step>)
    requires Inv(s) && IsRun(s, steps) && !InnerDropDone(s)
    ensures After(s, steps).dropAfterSignal
            <==> s.dropAfterSignal || DropsAfterCallback(steps, InnerHasCalled(s))
    decreases |steps|
  {
    if steps != [] {
      StepKeepsInv(s, steps[0]);
      if s.state == Dropped {
        DroppedTracksSignal(s, steps[0]);
      } else {
        UndroppedTracksSignal(s, steps[0]);
      }
      var t := Apply(s, steps[0]);
      if InnerDropDone(t) {
        NoSecondInnerDrop(t, steps[1..], InnerHasCalled(s) || steps[0].InnerCallsBack?);
      } else {
        InnerDroppedAfterSignal(t, steps[1..]);
      }
    }
  }

  lemma PrependStep(s: State, step: Step, t: State, rest: seq<Step>)
    requires Enabled(s, step) && Apply(s, step) == t && IsRun(t, rest)
    ensures IsRun(s, [step] + rest) && After(s, [step] + rest) == After(t, rest)
  {
    assert ([step] + rest)[1..] == rest;
  }

  const RUNNING: State := INITIAL.(state := Started, inner := Running, transport := OnHandshake)

  lemma RunningIsReachable() returns (steps: seq<Step>)
    ensures IsRun(INITIAL, steps) && After(INITIAL, steps) == RUNNING
  {
    var started := INITIAL.(state := Started, transport := TowardsHandshake, acceptorLoop := [PostStart]);
    var posted := started.(acceptorLoop := [], handshakeInbox := [StartInner]);
    PrependStep(posted, RunStartInner, RUNNING, []);
    PrependStep(started, RunPostStart, posted, [RunStartInner] + []);
    PrependStep(INITIAL, CallStart, started, [RunPostStart] + ([RunStartInner] + []));
    steps := [CallStart] + ([RunPostStart] + ([RunStartInner] + []));
  }

  /** D has won and returned; D' is queued. */
  const DROP_POSTED: State := RUNNING.(
    state := Dropped, dropCalled := true, dropReturned := true, guard := true, owned := false,
    delivered := 1, heard := [Error], handshakeInbox := [DropInner])

  lemma DropReachesPosted(rest: seq<Step>)
    requires IsRun(DROP_POSTED, rest)
    ensures var steps := [CallDrop] + ([DropNotifies] + ([DropPosts] + rest));
            IsRun(RUNNING, steps) && After(RUNNING, steps) == After(DROP_POSTED, rest)
  {
    var raced := RUNNING.(state := Dropped, dropCalled := true, drop := Raced(true));
    var told := raced.(guard := true, owned := false, delivered := 1, heard := [Error], drop := Notified(true));
    PrependStep(told, DropPosts, DROP_POSTED, rest);
    PrependStep(raced, DropNotifies, told, [DropPosts] + rest);
    PrependStep(RUNNING, CallDrop, raced, [DropNotifies] + ([DropPosts] + rest));
  }

  lemma {:induction false} RunsCompose(s: State, first: seq<Step>, second: seq<Step>)
    requires IsRun(s, first) && IsRun(After(s, first), second)
    ensures IsRun(s, first + second) && After(s, first + second) == After(After(s, first), second)
    decreases |first|
  {
    hide Apply, Enabled;
    if first == [] {
      assert first + second == second;
    } else {
      RunsCompose(Apply(s, first[0]), first[1..], second);
      assert (first + second)[1..] == first[1..] + second;
    }
  }

  /** Case 1 of the header is such a run: D wins, the late callback is ignored, then D' runs. */
  lemma CaseOneDropsSignaledHelper() returns (steps: seq<Step>)
    ensures IsRun(INITIAL, steps) && After(INITIAL, steps).dropAfterSignal
  {
    hide IsRun, After;
    var up := RunningIsReachable();
    var down := LateCallbackThenDrop();
    RunsCompose(INITIAL, up, down);
    steps := up + down;
  }

  lemma LateCallbackThenDrop() returns (steps: seq<Step>)
    ensures IsRun(RUNNING, steps) && After(RUNNING, steps).dropAfterSignal
  {
    var ignored := DROP_POSTED.(inner := Signaled);
    var dropped := ignored.(handshakeInbox := [], pc := InnerDropped, dropAfterSignal := true);
    PrependStep(ignored, RunDropInner, dropped, []);
    PrependStep(DROP_POSTED, InnerCallsBack(Error), ignored, [RunDropInner] + []);
    var tail := [InnerCallsBack(Error)] + ([RunDropInner] + []);
    DropReachesPosted(tail);
    steps := [CallDrop] + ([DropNotifies] + ([DropPosts] + tail));
  }

  /**
   `start` posts through the acceptor loop before anything reaches the
   handshake loop. A drop made before that hop has run (all other promises kept)
   puts D' in front of the start, and D' then drops a helper that was never
   started: the assumption `StartPosted` of `CallDrop` cannot be dropped.
   */
  lemma EarlyDropFaults(steps: seq<Step>)
    requires IsRun(INITIAL, steps)
    requires var s := After(INITIAL, steps); MayDrop(s) && !StartPosted(s)
    ensures var s := After(INITIAL, steps);
            var raced := s.(dropCalled := true, drop := Raced(true), state := Dropped);
            && IsRun(raced, [DropNotifies, DropPosts, RunDropInner])
            && After(raced, [DropNotifies, DropPosts, RunDropInner]).fault
  {
    RunKeepsInv(INITIAL, steps);
    DropBeforeStartFaults(After(INITIAL, steps).(dropCalled := true, drop := Raced(true), state := Dropped));
  }

  /** D is at a point of its call while the inner helper has not been started nor its start been posted. */
  predicate DropAhead(s: State, drop: DropPc, inbox: seq<HandshakeTask>) {
    s.drop == drop && s.pc == Quiet && s.inner == NotStarted && s.handshakeInbox == inbox
  }

  lemma DropAheadNotifies(s: State)
    requires DropAhead(s, Raced(true), [])
    ensures Enabled(s, DropNotifies) && DropAhead(Apply(s, DropNotifies), Notified(true), [])
  {
  }

  lemma DropAheadPosts(s: State)
    requires DropAhead(s, Notified(true), [])
    ensures Enabled(s, DropPosts) && DropAhead(Apply(s, DropPosts), NotDropping, [DropInner])
  {
  }

  lemma DropAheadFaults(s: State)
    requires DropAhead(s, NotDropping, [DropInner])
    ensures Enabled(s, RunDropInner) && Apply(s, RunDropInner).fault
  {
  }

  lemma DropBeforeStartFaults(raced: State)
    requires DropAhead(raced, Raced(true), [])
    ensures IsRun(raced, [DropNotifies, DropPosts, RunDropInner])
    ensures After(raced, [DropNotifies, DropPosts, RunDropInner]).fault
  {
    hide Apply, Enabled, DropAhead;
    DropAheadNotifies(raced);
    var notified := Apply(raced, DropNotifies);
    DropAheadPosts(notified);
    var posted := Apply(notified, DropPosts);
    DropAheadFaults(posted);
    PrependStep(posted, RunDropInner, Apply(posted, RunDropInner), []);
    PrependStep(notified, DropPosts, posted, [RunDropInner] + []);
    PrependStep(raced, DropNotifies, notified, [DropPosts] + ([RunDropInner] + []));
    assert [DropNotifies] + ([DropPosts] + ([RunDropInner] + [])) == [DropNotifies, DropPosts, RunDropInner];
  }
}
