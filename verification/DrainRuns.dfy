/**
 Runs of a draining ConnectionManager: every connection is reached by both
 phases, the drain never gets stuck, and left alone it completes.
 */
module DrainRuns {
  import opened ConnectionList
  import opened BusyIdle
  import opened Drain

  datatype Event =
    | ConnectionAdded(c: ConnId, reaction: Reaction)
    | ConnectionRemoved(c: ConnId)
    | ConnectionActivated(c: ConnId)
    | ConnectionDeactivated(c: ConnId)
    | IdleShed(num: nat, threshold: nat, idleTime: ConnId -> nat)
    | ConnectionsDropped(n: nat)
    | ShutdownInitiated(grace: bool, reactions: nat -> Reaction)
    | LoopCallback(reactions: nat -> Reaction)
    | GraceTimer(reactions: nat -> Reaction)
    | DeferredClose(reaction: Reaction)

  /** Events the manager causes by itself once a drain has started. */
  predicate Internal(e: Event) {
    e.LoopCallback? || e.GraceTimer? || e.DeferredClose?
  }

  predicate Possible(m: Manager, e: Event) {
    match e
    case ConnectionAdded(c, _) => c !in m.conns.list
    case ConnectionActivated(c) => c in m.conns.list
    case ConnectionDeactivated(c) => c in m.conns.list && ActivationOf(m.conns, c) == Active
    case LoopCallback(_) => m.looping
    case GraceTimer(_) => m.timer
    case DeferredClose(_) => m.closing != []
    case _ => true
  }

  /** The event moves no connection in front of the drain cursor that the phase has not served. */
  predicate Careful(m: Manager, e: Event) {
    e.ConnectionActivated? ==> SafeToActivate(m, e.c)
  }

  /** The state CHECK of `drainConnections` never fires: a pending loop callback means a draining phase. */
  lemma CheckNeverFires(m: Manager)
    requires Live(m) && m.looping
    ensures m.phase == Notifying || m.phase == Closing
  {
  }

  function Apply(m: Manager, e: Event): (r: Manager)
    requires Live(m) && Possible(m, e)
  {
    match e
    case ConnectionAdded(c, r) => AddConnection(m, c, r)
    case ConnectionRemoved(c) => m.(conns := Remove(m.conns, c))
    case ConnectionActivated(c) => m.(conns := Activate(m.conns, c))
    case ConnectionDeactivated(c) => m.(conns := Deactivate(m.conns, c))
    case IdleShed(num, threshold, idleTime) => m.(conns := ShedIdle(m.conns, num, threshold, idleTime))
    case ConnectionsDropped(n) => DropConnections(m, n)
    case ShutdownInitiated(grace, rs) => StartDrain(m, grace, rs)
    case LoopCallback(rs) => CheckNeverFires(m); RunLoopCallback(m, rs)
    case GraceTimer(rs) => FireTimer(m, rs)
    case DeferredClose(r) => RunDeferredClose(m, r)
  }

  // ---------------------------------------------------------------------------
  // Every event keeps the schedule
  // ---------------------------------------------------------------------------

  lemma RewindMayWalk(m: Manager)
    requires Partition(m.conns) && !m.looping && (m.phase == Notifying || (m.phase == Closing && !m.timer))
    ensures MayWalk(Rewind(m))
  {
    hide Partition;
    AtBeginIsNone(m.conns.list);
    DrainCursorIsFree(m.conns, Begin(m.conns.list));
  }

  lemma StartKeepsLive(m: Manager, grace: bool, rs: nat -> Reaction)
    requires Live(m)
    ensures Live(StartDrain(m, grace, rs)) && Rank(StartDrain(m, grace, rs).phase) >= Rank(m.phase)
  {
    hide Partition, DrainBatch, MayWalk;
    if m.phase == NoShutdown {
      var t := if grace then m.(phase := Notifying, timer := true) else m.(phase := Closing, notify := false);
      RewindMayWalk(t);
      BatchKeepsLive(Rewind(t), rs);
    }
  }

  lemma LoopKeepsLive(m: Manager, rs: nat -> Reaction)
    requires Live(m) && m.looping
    ensures MayDrain(m)
    ensures Live(RunLoopCallback(m, rs)) && Rank(RunLoopCallback(m, rs).phase) >= Rank(m.phase)
  {
    hide DrainBatch, Partition;
    BatchKeepsLive(m.(looping := false), rs);
  }

  lemma TimerKeepsLive(m: Manager, rs: nat -> Reaction)
    requires Live(m) && m.timer
    ensures Live(FireTimer(m, rs)) && Rank(FireTimer(m, rs).phase) >= Rank(m.phase)
  {
    hide DrainBatch, Partition, MayWalk;
    if m.phase == NotifyComplete {
      var t := m.(timer := false, phase := Closing);
      RewindMayWalk(t);
      BatchKeepsLive(Rewind(t), rs);
    }
  }

  lemma AddKeepsLive(m: Manager, c: ConnId, r: Reaction)
    requires Live(m) && c !in m.conns.list
    ensures Live(AddConnection(m, c, r)) && AddConnection(m, c, r).phase == m.phase
  {
    hide Partition, React, Add, AddConnection;
    AddKeepsPartition(m.conns, c);
    ReactKeepsPartition(Add(m.conns, c), c, r);
    AddTells(m, c, r);
  }

  lemma MovesKeepLive(m: Manager, e: Event)
    requires Live(m) && Possible(m, e)
    requires e.ConnectionRemoved? || e.ConnectionActivated? || e.ConnectionDeactivated? || e.IdleShed?
    ensures Live(Apply(m, e)) && Apply(m, e).phase == m.phase
  {
    hide Partition, Remove, Activate, Deactivate, ShedIdle;
    match e
    case ConnectionRemoved(c) => RemoveKeepsPartition(m.conns, c);
    case ConnectionActivated(c) => ActivateKeepsPartition(m.conns, c);
    case ConnectionDeactivated(c) => DeactivateKeepsPartition(m.conns, c);
    case IdleShed(num, threshold, idleTime) => ShedKeepsPartition(m.conns, num, threshold, idleTime);
  }

  lemma StopKeepsLive(m: Manager, n: nat)
    requires Live(m)
    ensures Live(DropConnections(m, n)) && DropConnections(m, n).phase == CloseComplete
  {
    hide Partition;
    DropFrontKeepsPartition(m.conns, n);
  }

  /** Every event, any activation included, keeps the layout and the schedule, and the state never decreases. */
  lemma StepKeepsLive(m: Manager, e: Event)
    requires Live(m) && Possible(m, e)
    ensures Live(Apply(m, e)) && Rank(Apply(m, e).phase) >= Rank(m.phase)
  {
    hide Live, AddConnection, StartDrain, RunLoopCallback, FireTimer, RunDeferredClose, DropConnections;
    match e
    case ConnectionAdded(c, r) => AddKeepsLive(m, c, r);
    case ConnectionsDropped(n) => StopKeepsLive(m, n);
    case ShutdownInitiated(grace, rs) => StartKeepsLive(m, grace, rs);
    case LoopCallback(rs) => CheckNeverFires(m); LoopKeepsLive(m, rs);
    case GraceTimer(rs) => TimerKeepsLive(m, rs);
    case DeferredClose(r) => DeferredCloseKeepsLive(m, r);
    case ConnectionRemoved(_) => MovesKeepLive(m, e);
    case ConnectionActivated(_) => MovesKeepLive(m, e);
    case ConnectionDeactivated(_) => MovesKeepLive(m, e);
    case IdleShed(_, _, _) => MovesKeepLive(m, e);
  }

  // ---------------------------------------------------------------------------
  // Every careful event keeps coverage
  // ---------------------------------------------------------------------------

  lemma RewindIsReady(m: Manager)
    requires Partition(m.conns) && !m.looping
    requires (m.phase == Notifying && m.notify && m.closing == []) || (m.phase == Closing && !m.timer)
    requires m.phase == Closing && m.notify ==> AllTold(m, m.conns.list)
    ensures Ready(Rewind(m))
  {
    hide Partition;
    AtBeginIsNone(m.conns.list);
    DrainCursorIsFree(m.conns, Begin(m.conns.list));
  }

  lemma StartKeepsInv(m: Manager, grace: bool, rs: nat -> Reaction)
    requires Inv(m)
    ensures Inv(StartDrain(m, grace, rs))
  {
    hide Partition, DrainBatch, Ready;
    if m.phase == NoShutdown {
      var t := if grace then m.(phase := Notifying, timer := true) else m.(phase := Closing, notify := false);
      RewindIsReady(t);
      BatchKeepsInv(Rewind(t), rs);
    }
  }

  lemma LoopKeepsInv(m: Manager, rs: nat -> Reaction)
    requires Inv(m) && m.looping
    ensures MayDrain(m) && Inv(RunLoopCallback(m, rs))
  {
    hide DrainBatch, Partition;
    PartitionHasNoDups(m.conns);
    BatchKeepsInv(m.(looping := false), rs);
  }

  lemma TimerKeepsInv(m: Manager, rs: nat -> Reaction)
    requires Inv(m) && m.timer
    ensures Inv(FireTimer(m, rs))
  {
    hide DrainBatch, Partition, Ready;
    if m.phase == NotifyComplete {
      var t := m.(timer := false, phase := Closing);
      RewindIsReady(t);
      BatchKeepsInv(Rewind(t), rs);
    }
  }

  lemma MovesKeepCovered(m: Manager, e: Event)
    requires Inv(m) && Possible(m, e) && Careful(m, e)
    requires e.ConnectionRemoved? || e.ConnectionActivated? || e.ConnectionDeactivated? || e.IdleShed?
    ensures Covered(Apply(m, e))
  {
    hide Partition, Remove, Activate, Deactivate, ShedIdle, Covered, NothingSlipsBy;
    PartitionHasNoDups(m.conns);
    match e
    case ConnectionRemoved(c) =>
      RemoveSlipsNothing(m.conns, c);
      ShrinkKeepsCovered(m, Remove(m.conns, c));
    case ConnectionActivated(c) =>
      ActivationIsCoveredIff(m, c);
    case ConnectionDeactivated(c) =>
      DeactivateSlipsNothing(m.conns, c);
      ShrinkKeepsCovered(m, Deactivate(m.conns, c));
    case IdleShed(num, threshold, idleTime) =>
      ShedSlipsNothing(m.conns, num, threshold, idleTime);
      ShrinkKeepsCovered(m, ShedIdle(m.conns, num, threshold, idleTime));
  }

  lemma StepKeepsInv(m: Manager, e: Event)
    requires Inv(m) && Possible(m, e) && Careful(m, e)
    ensures Inv(Apply(m, e))
  {
    hide Live, AddConnection, StartDrain, RunLoopCallback, FireTimer, RunDeferredClose, DropConnections, Covered;
    StepKeepsLive(m, e);
    match e
    case ConnectionAdded(c, r) => AddKeepsInv(m, c, r);
    case ConnectionsDropped(n) => StoppedIsCovered(m, n);
    case ShutdownInitiated(grace, rs) => StartKeepsInv(m, grace, rs);
    case LoopCallback(rs) => LoopKeepsInv(m, rs);
    case GraceTimer(rs) => TimerKeepsInv(m, rs);
    case DeferredClose(r) => DeferredCloseKeepsInv(m, r);
    case ConnectionRemoved(_) => MovesKeepCovered(m, e);
    case ConnectionActivated(_) => MovesKeepCovered(m, e);
    case ConnectionDeactivated(_) => MovesKeepCovered(m, e);
    case IdleShed(_, _, _) => MovesKeepCovered(m, e);
  }

  lemma StoppedIsCovered(m: Manager, n: nat)
    ensures Covered(DropConnections(m, n))
  {
  }

  // ---------------------------------------------------------------------------
  // Every run
  // ---------------------------------------------------------------------------

  predicate IsRun(m: Manager, events: seq<Event>)
    requires Live(m)
    decreases |events|
  {
    events != [] ==>
      Possible(m, events[0]) && (StepKeepsLive(m, events[0]); IsRun(Apply(m, events[0]), events[1..]))
  }

  function After(m: Manager, events: seq<Event>): (r: Manager)
    requires Live(m) && IsRun(m, events)
    ensures Live(r) && Rank(r.phase) >= Rank(m.phase)
    decreases |events|
  {
    if events == [] then m else StepKeepsLive(m, events[0]); After(Apply(m, events[0]), events[1..])
  }

  /** Every activation of the run is one the drain survives. */
  predicate CarefulRun(m: Manager, events: seq<Event>)
    requires Live(m) && IsRun(m, events)
    decreases |events|
  {
    events != [] ==>
      && Careful(m, events[0])
      && (StepKeepsLive(m, events[0]); CarefulRun(Apply(m, events[0]), events[1..]))
  }

  lemma FreshIsInv()
    ensures Inv(FRESH)
  {
  }

  /**
   The schedule of every run, with activations of any kind: the layout holds, a
   loop callback is pending exactly in the two walking phases, the timer is
   armed while the grace period is waited for, and going on never lowers the
   state.
   */
  lemma EveryRunIsScheduled(events: seq<Event>, more: seq<Event>)
    requires Live(FRESH) && IsRun(FRESH, events) && IsRun(After(FRESH, events), more)
    ensures var m := After(FRESH, events);
            && Partition(m.conns)
            && (m.phase == Notifying || m.phase == Closing <==> m.looping)
            && (m.phase == NotifyComplete ==> m.timer)
            && (m.phase == Closing || m.phase == CloseComplete ==> !m.timer)
            && Rank(After(m, more).phase) >= Rank(m.phase)
  {
    hide Partition, IsRun, After;
    var m := After(FRESH, events);
    assert Scheduled(m);
  }

  lemma {:induction false} CarefulRunKeepsInv(m: Manager, events: seq<Event>)
    requires Inv(m) && IsRun(m, events) && CarefulRun(m, events)
    ensures Inv(After(m, events))
    decreases |events|
  {
    hide Live, Covered, Apply, Possible, Careful;
    if events != [] {
      StepKeepsLive(m, events[0]);
      StepKeepsInv(m, events[0]);
      CarefulRunKeepsInv(Apply(m, events[0]), events[1..]);
    }
  }

  /**
   Drain coverage, on every run without an activation past the cursor: once the
   notify phase is over every listed connection has been told; once the close
   phase has been completed by draining every listed connection has been told to
   close, or has that call queued.
   */
  lemma EveryRunIsCovered(events: seq<Event>)
    requires Live(FRESH) && IsRun(FRESH, events) && CarefulRun(FRESH, events)
    ensures var m := After(FRESH, events);
            && (m.phase == NotifyComplete || (m.phase == Closing && m.notify) ==> AllTold(m, m.conns.list))
            && (m.phase == CloseComplete && !m.stopped ==> AllClosed(m, m.conns.list))
  {
    hide Live, IsRun, After, CarefulRun;
    FreshIsInv();
    CarefulRunKeepsInv(FRESH, events);
    assert Covered(After(FRESH, events));
  }

  // ---------------------------------------------------------------------------
  // The drain completes
  // ---------------------------------------------------------------------------

  /** How often a connection may still be visited: an active one may step back to the end once. */
  function Visits(l: Conns, c: ConnId): (n: nat) {
    if ActivationOf(l, c) == Active then 2 else 1
  }

  function Weight(l: Conns, s: seq<ConnId>): (n: nat) {
    if s == [] then 0 else Visits(l, s[0]) + Weight(l, s[1..])
  }

  /** The work left in the current phase. */
  function Remaining(m: Manager): (n: nat) {
    Weight(m.conns, From(m.conns.list, m.conns.drainIt))
  }

  lemma {:induction false} WeightAgrees(l: Conns, l': Conns, s: seq<ConnId>)
    requires forall c | c in s :: ActivationOf(l', c) == ActivationOf(l, c)
    ensures Weight(l', s) == Weight(l, s)
  {
    if s != [] {
      assert s[0] in s;
      WeightAgrees(l, l', s[1..]);
    }
  }

  lemma {:induction false} WeightAppends(l: Conns, s: seq<ConnId>, c: ConnId)
    ensures Weight(l, s + [c]) == Weight(l, s) + Visits(l, c)
  {
    if s == [] {
      assert [] + [c] == [c];
      assert [c][1..] == [];
    } else {
      assert (s + [c])[1..] == s[1..] + [c];
      WeightAppends(l, s[1..], c);
    }
  }

  /** The part of a list behind a cursor that is past `c`, once `c` has been unlinked and put elsewhere. */
  lemma RelinkBehindCursor(s: seq<ConnId>, c: ConnId, cur: Cursor)
    requires NoDups(s) && Valid(s, cur) && c in s && c !in From(s, cur)
    ensures From(Erase(s, c), cur) == From(s, cur)
    ensures From([c] + Erase(s, c), cur) == From(s, cur)
    ensures From(Erase(s, c) + [c], cur) == From(s, cur) || From(Erase(s, c) + [c], cur) == From(s, cur) + [c]
  {
    hide Erase, From, Before;
    CursorIsBehind(s, cur);
    EraseMembers(s, c);
    EraseSplits(s, c, cur);
    EraseAbsent(From(s, cur), c);
    PushFrontSplits(Erase(s, c), c, cur);
    PushBackSplits(Erase(s, c), c, cur);
  }

  lemma CursorIsBehind(s: seq<ConnId>, cur: Cursor)
    requires Valid(s, cur)
    ensures cur != End ==> cur.id in From(s, cur)
    ensures cur == End ==> From(s, cur) == []
  {
    SplitOf(s, cur);
  }

  lemma ReactBehindCursor(l: Conns, c: ConnId, r: Reaction, cur: Cursor)
    requires NoDups(l.list) && Valid(l.list, cur) && c in l.list && c !in From(l.list, cur)
    ensures var s, l' := From(l.list, cur), React(l, c, r);
            && (From(l'.list, cur) == s || (From(l'.list, cur) == s + [c] && ActivationOf(l, c) == Active
                                            && ActivationOf(l', c) == Idle))
            && (forall x | x != c :: ActivationOf(l', x) == ActivationOf(l, x))
  {
    hide Erase, From, Next;
    RelinkBehindCursor(l.list, c, cur);
  }

  /** Visiting one connection always uses up some of the work. */
  lemma ProcessLowersWeight(m: Manager, c: ConnId, r: Reaction)
    requires OnTrack(m, At(c))
    ensures var m' := Process(m, c, r);
            Weight(m'.conns, From(m'.conns.list, Next(m.conns.list, c)))
            < Weight(m.conns, From(m.conns.list, At(c)))
  {
    hide Partition, React, Process, Next, From, NoDups, ActivationOf;
    var l, nxt := m.conns, Next(m.conns.list, c);
    PartitionHasNoDups(l);
    NextSplits(l.list, c);
    var s := From(l.list, nxt);
    assert Weight(l, [c] + s) == Visits(l, c) + Weight(l, s) by { assert ([c] + s)[1..] == s; }
    NotBehindItself(l.list, c);
    ProcessTouchesOnly(m, c, r);
    ReactBehindCursor(l, c, r, nxt);
    var l' := React(l, c, r);
    WeightAgrees(l, l', s);
    WeightAppends(l', s, c);
  }

  lemma NotBehindItself(s: seq<ConnId>, c: ConnId)
    requires NoDups(s) && c in s
    ensures c !in From(s, Next(s, c))
  {
    NextSplits(s, c);
    SplitOf(s, Next(s, c));
    var a, b := Before(s, At(c)) + [c], From(s, Next(s, c));
    assert a + b == s && a[|a| - 1] == c;
    SplitMembers(a, b);
  }

  lemma {:induction false} WalkLowersWeight(m: Manager, it: Cursor, n: nat, rs: nat -> Reaction)
    requires OnTrack(m, it)
    ensures var (w, it') := Walk(m, it, n, rs);
            var left := Weight(w.conns, From(w.conns.list, it'));
            && left <= Weight(m.conns, From(m.conns.list, it))
            && (it != End && n < BATCH ==> left < Weight(m.conns, From(m.conns.list, it)))
    decreases BATCH - n
  {
    hide OnTrack, Process, Weight, From;
    if it != End && n < BATCH {
      ProcessStaysOnTrack(m, it.id, rs(n));
      ProcessLowersWeight(m, it.id, rs(n));
      WalkLowersWeight(Process(m, it.id, rs(n)), Next(m.conns.list, it.id), n + 1, rs);
    }
  }

  /** A batch that does not end its phase leaves less work than it found. */
  lemma BatchLowersWeight(m: Manager, rs: nat -> Reaction)
    requires MayWalk(m)
    ensures var r := DrainBatch(m, rs);
            && r.closing == m.closing && r.stopped == m.stopped
            && (r.phase == m.phase ==> Remaining(r) < Remaining(m))
  {
    hide Walk, Weight, Partition;
    PartitionHasNoDups(m.conns);
    WalkStaysOnTrack(m, m.conns.drainIt, 0, rs);
    WalkLowersWeight(m, m.conns.drainIt, 0, rs);
    var (w, it) := Walk(m, m.conns.drainIt, 0, rs);
    if m.conns.drainIt == End {
      WalkFromEnd(m, rs);
    }
    if it != End {
      CursorDoesNotWeigh(w.conns, it, From(w.conns.list, it));
    }
  }

  lemma WalkFromEnd(m: Manager, rs: nat -> Reaction)
    ensures Walk(m, End, 0, rs) == (m, End)
  {
  }

  lemma CursorDoesNotWeigh(l: Conns, c: Cursor, s: seq<ConnId>)
    ensures Weight(l.(drainIt := c), s) == Weight(l, s)
  {
    WeightAgrees(l, l.(drainIt := c), s);
  }

  /** Smaller in the order (phases left, deferred closes, work left in the phase, timer armed). */
  predicate Less(a: Manager, b: Manager) {
    || Rank(a.phase) > Rank(b.phase)
    || (a.phase == b.phase &&
        (|| |a.closing| < |b.closing|
         || (|a.closing| == |b.closing| &&
             (Remaining(a) < Remaining(b) || (Remaining(a) == Remaining(b) && b.timer && !a.timer)))))
  }

  /** Whatever the callbacks do, every internal event brings the drain closer to its end. */
  lemma InternalEventsProgress(m: Manager, e: Event)
    requires Live(m) && Possible(m, e) && Internal(e)
    ensures Less(Apply(m, e), m) && Apply(m, e).stopped == m.stopped
  {
    hide Live, RunLoopCallback, FireTimer, RunDeferredClose, Remaining;
    match e
    case LoopCallback(rs) =>
      LoopProgresses(m, rs);
    case GraceTimer(rs) =>
      TimerProgresses(m, rs);
    case DeferredClose(r) =>
      DeferredCloseShape(m, r);
  }

  lemma LoopProgresses(m: Manager, rs: nat -> Reaction)
    requires Live(m) && m.looping
    ensures MayDrain(m) && Less(RunLoopCallback(m, rs), m) && RunLoopCallback(m, rs).stopped == m.stopped
  {
    hide Partition, DrainBatch, Weight;
    LoopKeepsLive(m, rs);
    BatchLowersWeight(m.(looping := false), rs);
    SameRank(RunLoopCallback(m, rs).phase, m.phase);
  }

  lemma TimerProgresses(m: Manager, rs: nat -> Reaction)
    requires Live(m) && m.timer
    ensures Less(FireTimer(m, rs), m) && FireTimer(m, rs).stopped == m.stopped
  {
    hide Partition, DrainBatch, MayWalk, Weight;
    if m.phase == NotifyComplete {
      var t := m.(timer := false, phase := Closing);
      RewindMayWalk(t);
      BatchKeepsLive(Rewind(t), rs);
      BatchLowersWeight(Rewind(t), rs);
    }
  }

  lemma SameRank(a: Phase, b: Phase)
    ensures Rank(a) == Rank(b) ==> a == b
  {
  }

  /** A way of choosing the next internal event; its first argument makes the choice depend on the past. */
  type Scheduler = (nat, Manager) -> Event

  /** The scheduler only picks events that are pending. */
  ghost predicate Fair(pick: Scheduler) {
    forall i, m :: Live(m) && m.phase != NoShutdown && m.phase != CloseComplete ==>
                     Internal(pick(i, m)) && Possible(m, pick(i, m))
  }

  /** There always is something to pick, whatever the connections have done. */
  lemma DrainNeverStalls(m: Manager)
    requires Live(m) && m.phase != NoShutdown && m.phase != CloseComplete
    ensures m.looping || m.timer
    ensures exists e :: Internal(e) && Possible(m, e)
  {
    if m.looping {
      assert Internal(LoopCallback(_ => Stay)) && Possible(m, LoopCallback(_ => Stay));
    } else {
      assert Internal(GraceTimer(_ => Stay)) && Possible(m, GraceTimer(_ => Stay));
    }
  }

  const FIRST_PENDING: Scheduler :=
    (_: nat, m: Manager) => if m.looping then LoopCallback(_ => Stay) else GraceTimer(_ => Stay)

  lemma FirstPendingIsFair()
    ensures Fair(FIRST_PENDING)
  {
    forall i: nat, m | Live(m) && m.phase != NoShutdown && m.phase != CloseComplete
      ensures Internal(FIRST_PENDING(i, m)) && Possible(m, FIRST_PENDING(i, m))
    {
      DrainNeverStalls(m);
    }
  }

  /** Running internal events, in any order the scheduler likes, until the drain is complete. */
  ghost function RunToCompletion(m: Manager, i: nat, pick: Scheduler): (r: Manager)
    requires Live(m) && m.phase != NoShutdown && Fair(pick)
    ensures Live(r) && r.phase == CloseComplete && r.stopped == m.stopped
    decreases 4 - Rank(m.phase), |m.closing|, Remaining(m), if m.timer then 1 else 0
  {
    if m.phase == CloseComplete then m
    else
      var e := pick(i, m);
      StepKeepsLive(m, e);
      InternalEventsProgress(m, e);
      RunToCompletion(Apply(m, e), i + 1, pick)
  }

  /** Left alone, a covered drain that was not stopped closes every connection still listed. */
  lemma {:induction false} DrainReachesEveryConnection(m: Manager, i: nat, pick: Scheduler)
    requires Inv(m) && m.phase != NoShutdown && !m.stopped && Fair(pick)
    ensures var r := RunToCompletion(m, i, pick); AllClosed(r, r.conns.list)
    decreases 4 - Rank(m.phase), |m.closing|, Remaining(m), if m.timer then 1 else 0
  {
    hide Live, Remaining, Apply;
    if m.phase != CloseComplete {
      var e := pick(i, m);
      StepKeepsLive(m, e);
      StepKeepsInv(m, e);
      InternalEventsProgress(m, e);
      DrainReachesEveryConnection(Apply(m, e), i + 1, pick);
    }
  }

  // ---------------------------------------------------------------------------
  // What a start sends
  // ---------------------------------------------------------------------------

  /** The phase's message has got through to `c`: a close that is not forced only reaches who was told. */
  predicate Served(before: Manager, after: Manager, c: ConnId) {
    if before.phase == Notifying then Told(after, c)
    else !before.notify || Told(before, c) ==> SentTo(after, c) == SentCloseWhenIdle
  }

  /** What is sent is not taken back, and a told connection is never found untold again. */
  ghost predicate OnlyAdvances(m: Manager, m': Manager) {
    forall c :: (Told(m, c) ==> Told(m', c)) && (SentTo(m, c) == SentCloseWhenIdle ==> SentTo(m', c) == SentCloseWhenIdle)
  }

  lemma ProcessServes(m: Manager, c: ConnId, r: Reaction)
    requires m.phase == Notifying || m.phase == Closing
    ensures Served(m, Process(m, c, r), c) && OnlyAdvances(m, Process(m, c, r))
  {
    hide React;
  }

  /** The connections behind the cursor keep their order while another is visited. */
  lemma ProcessKeepsRest(m: Manager, c: ConnId, r: Reaction, rest: seq<ConnId>)
    requires OnTrack(m, At(c)) && [c] + rest <= From(m.conns.list, At(c))
    ensures rest <= From(Process(m, c, r).conns.list, Next(m.conns.list, c))
  {
    hide Partition, React, Process, Next, From, NoDups;
    var l, nxt := m.conns, Next(m.conns.list, c);
    PartitionHasNoDups(l);
    NextSplits(l.list, c);
    assert From(l.list, At(c)) == [c] + From(l.list, nxt);
    assert rest == ([c] + rest)[1..] && From(l.list, nxt) == ([c] + From(l.list, nxt))[1..];
    NotBehindItself(l.list, c);
    ProcessTouchesOnly(m, c, r);
    ReactBehindCursor(l, c, r, nxt);
  }

  lemma ServedStays(m: Manager, m': Manager, w: Manager, c: ConnId)
    requires SameShell(m, m') && OnlyAdvances(m, m') && OnlyAdvances(m', w)
    ensures OnlyAdvances(m, w)
    ensures Served(m, m', c) || Served(m', w, c) ==> Served(m, w, c)
  {
  }

  /** A batch serves the connections behind its cursor in order, as many of them as it has room for. */
  lemma {:induction false} WalkServes(m: Manager, it: Cursor, n: nat, rs: nat -> Reaction, due: seq<ConnId>)
    requires OnTrack(m, it) && (m.phase == Notifying || m.phase == Closing)
    requires due <= From(m.conns.list, it) && n + |due| <= BATCH
    ensures var (w, _) := Walk(m, it, n, rs);
            OnlyAdvances(m, w) && forall c | c in due :: Served(m, w, c)
    decreases BATCH - n
  {
    hide OnTrack, Process, Next, From, Served, OnlyAdvances;
    if it == End || n >= BATCH {
      assert OnlyAdvances(m, m) by { NothingTakenBack(m); }
      assert due == [] by { NothingBehindEnd(m, it, due); }
    } else {
      var c := it.id;
      var m', rest := Process(m, c, rs(n)), if due == [] then [] else due[1..];
      ProcessServes(m, c, rs(n));
      ProcessTouchesOnly(m, c, rs(n));
      ProcessStaysOnTrack(m, c, rs(n));
      HeadIsNext(m, c, due);
      ProcessKeepsRest(m, c, rs(n), rest);
      WalkServes(m', Next(m.conns.list, c), n + 1, rs, rest);
      var (w, _) := Walk(m', Next(m.conns.list, c), n + 1, rs);
      ServedStays(m, m', w, c);
      forall x | x in due ensures Served(m, w, x) {
        ServedStays(m, m', w, x);
        assert x == c || x in rest;
      }
    }
  }

  lemma NothingTakenBack(m: Manager)
    ensures OnlyAdvances(m, m)
  {
  }

  lemma NothingBehindEnd(m: Manager, it: Cursor, due: seq<ConnId>)
    requires OnTrack(m, it) && due <= From(m.conns.list, it)
    ensures it == End ==> due == []
  {
    CursorIsBehind(m.conns.list, it);
  }

  lemma HeadIsNext(m: Manager, c: ConnId, due: seq<ConnId>)
    requires OnTrack(m, At(c)) && due <= From(m.conns.list, At(c))
    ensures due != [] ==> due[0] == c && due == [c] + due[1..]
    ensures [c] + (if due == [] then [] else due[1..]) <= From(m.conns.list, At(c))
  {
    PartitionHasNoDups(m.conns);
    NextSplits(m.conns.list, c);
  }

  /** The first connections of the list, as many as a batch holds. */
  function FirstBatch(s: seq<ConnId>): (r: seq<ConnId>) {
    s[..Min(BATCH, |s|)]
  }

  lemma BatchServes(m: Manager, rs: nat -> Reaction)
    requires MayWalk(m) && m.conns.drainIt == Begin(m.conns.list)
    ensures var r := DrainBatch(m, rs);
            && r.notify == m.notify && r.timer == m.timer && OnlyAdvances(m, r)
            && (forall c | c in FirstBatch(m.conns.list) :: Served(m, r, c))
  {
    hide Walk, Partition, Served, OnlyAdvances;
    PartitionHasNoDups(m.conns);
    assert From(m.conns.list, Begin(m.conns.list)) == m.conns.list;
    WalkStaysOnTrack(m, m.conns.drainIt, 0, rs);
    WalkServes(m, m.conns.drainIt, 0, rs, FirstBatch(m.conns.list));
    var (w, _) := Walk(m, m.conns.drainIt, 0, rs);
    SentDecides(m, w, DrainBatch(m, rs));
  }

  lemma SentDecides(m: Manager, w: Manager, r: Manager)
    requires r.sent == w.sent
    ensures OnlyAdvances(m, w) ==> OnlyAdvances(m, r)
    ensures forall c | Served(m, w, c) :: Served(m, r, c)
  {
  }

  /**
   Nobody is sent anything before its time: nothing before a shutdown, no close
   before the close phase, and no notice ever when the grace period is skipped.
   */
  ghost predicate Sparing(m: Manager) {
    && (Rank(m.phase) < Rank(Closing) ==> m.notify && m.closing == [] && NobodySent(m, SentCloseWhenIdle))
    && (m.phase == NoShutdown ==> NobodySent(m, SentNotifyPendingShutdown))
    && (!m.notify ==> NobodySent(m, SentNotifyPendingShutdown))
  }

  ghost predicate NobodySent(m: Manager, d: DrainState) {
    forall c :: SentTo(m, c) != d
  }

  /** The phases do not mix their messages. */
  ghost predicate SendsOnly(m: Manager, m': Manager) {
    && (m.phase == Notifying && NobodySent(m, SentCloseWhenIdle) ==> NobodySent(m', SentCloseWhenIdle))
    && (m.phase != Notifying && NobodySent(m, SentNotifyPendingShutdown) ==> NobodySent(m', SentNotifyPendingShutdown))
  }

  /** Sending one message leaves the other ones as they were. */
  lemma SendingOne(m: Manager, m': Manager, c: ConnId, d: DrainState)
    requires m'.sent == m.sent || m'.sent == m.sent[c := d]
    ensures forall other :: other != d && NobodySent(m, other) ==> NobodySent(m', other)
  {
    forall other | other != d && NobodySent(m, other) ensures NobodySent(m', other) {
      forall x ensures SentTo(m', x) != other {
        assert SentTo(m, x) != other;
      }
    }
  }

  lemma ProcessSendsOnly(m: Manager, c: ConnId, r: Reaction)
    ensures SendsOnly(m, Process(m, c, r))
  {
    hide React, NobodySent;
    SendingOne(m, Process(m, c, r), c, if m.phase == Notifying then SentNotifyPendingShutdown else SentCloseWhenIdle);
  }

  lemma {:induction false} WalkSendsOnly(m: Manager, it: Cursor, n: nat, rs: nat -> Reaction)
    ensures SendsOnly(m, Walk(m, it, n, rs).0) && SameShell(m, Walk(m, it, n, rs).0)
    decreases BATCH - n
  {
    hide Process, NobodySent;
    if it != End && n < BATCH {
      ProcessSendsOnly(m, it.id, rs(n));
      ProcessTouchesOnly(m, it.id, rs(n));
      WalkSendsOnly(Process(m, it.id, rs(n)), Next(m.conns.list, it.id), n + 1, rs);
    }
  }

  lemma BatchSpares(m: Manager, rs: nat -> Reaction)
    requires MayWalk(m) && Sparing(m)
    ensures Sparing(DrainBatch(m, rs)) && DrainBatch(m, rs).notify == m.notify
  {
    hide Partition, Walk, NobodySent;
    WalkSendsOnly(m, m.conns.drainIt, 0, rs);
    var (w, _) := Walk(m, m.conns.drainIt, 0, rs);
    SameSent(w, DrainBatch(m, rs));
  }

  lemma SameSent(m: Manager, m': Manager)
    requires m'.sent == m.sent
    ensures forall d :: NobodySent(m, d) <==> NobodySent(m', d)
  {
    assert forall c :: SentTo(m, c) == SentTo(m', c);
  }

  lemma StartSpares(m: Manager, grace: bool, rs: nat -> Reaction)
    requires Live(m) && Sparing(m)
    ensures Sparing(StartDrain(m, grace, rs)) && (!m.notify ==> !StartDrain(m, grace, rs).notify)
  {
    hide Partition, DrainBatch, NobodySent, MayWalk;
    if m.phase == NoShutdown {
      var t := if grace then m.(phase := Notifying, timer := true) else m.(phase := Closing, notify := false);
      SameSent(m, Rewind(t));
      RewindMayWalk(t);
      BatchSpares(Rewind(t), rs);
    }
  }

  lemma LoopSpares(m: Manager, rs: nat -> Reaction)
    requires Live(m) && m.looping && Sparing(m)
    ensures MayDrain(m) && Sparing(RunLoopCallback(m, rs)) && RunLoopCallback(m, rs).notify == m.notify
  {
    hide Partition, DrainBatch, NobodySent;
    SameSent(m, m.(looping := false));
    BatchSpares(m.(looping := false), rs);
  }

  lemma TimerSpares(m: Manager, rs: nat -> Reaction)
    requires Live(m) && m.timer && Sparing(m)
    ensures Sparing(FireTimer(m, rs)) && FireTimer(m, rs).notify == m.notify
  {
    hide Partition, DrainBatch, NobodySent, MayWalk;
    var t := m.(timer := false, phase := Closing);
    SameSent(m, m.(timer := false));
    SameSent(m, Rewind(t));
    if m.phase == NotifyComplete {
      RewindMayWalk(t);
      BatchSpares(Rewind(t), rs);
    }
  }

  lemma AddSpares(m: Manager, c: ConnId, r: Reaction)
    requires Sparing(m) && c !in m.conns.list
    ensures Sparing(AddConnection(m, c, r)) && AddConnection(m, c, r).notify == m.notify
  {
    hide React, Add, NobodySent;
    var m' := AddConnection(m, c, r);
    SendingOne(m, m', c, SentNotifyPendingShutdown);
    if m.phase == NoShutdown || !m.notify { SameSent(m, m'); }
  }

  lemma DeferredCloseSpares(m: Manager, r: Reaction)
    requires Sparing(m) && m.closing != []
    ensures Sparing(RunDeferredClose(m, r)) && RunDeferredClose(m, r).notify == m.notify
  {
    hide React, NobodySent;
    SendingOne(m, RunDeferredClose(m, r), m.closing[0], SentCloseWhenIdle);
  }

  /** Every event, and a skipped notice stays skipped. */
  lemma StepSpares(m: Manager, e: Event)
    requires Live(m) && Possible(m, e) && Sparing(m)
    ensures Sparing(Apply(m, e)) && (!m.notify ==> !Apply(m, e).notify)
  {
    hide Live, AddConnection, StartDrain, RunLoopCallback, FireTimer, RunDeferredClose, DropFront;
    match e
    case ConnectionAdded(c, r) => AddSpares(m, c, r);
    case ConnectionsDropped(n) => SameSent(m, DropConnections(m, n));
    case ShutdownInitiated(grace, rs) => StartSpares(m, grace, rs);
    case LoopCallback(rs) => CheckNeverFires(m); LoopSpares(m, rs);
    case GraceTimer(rs) => TimerSpares(m, rs);
    case DeferredClose(r) => DeferredCloseSpares(m, r);
    case ConnectionRemoved(_) => SameSent(m, Apply(m, e));
    case ConnectionActivated(_) => SameSent(m, Apply(m, e));
    case ConnectionDeactivated(_) => SameSent(m, Apply(m, e));
    case IdleShed(_, _, _) => SameSent(m, Apply(m, e));
  }

  lemma {:induction false} RunSpares(m: Manager, events: seq<Event>)
    requires Live(m) && IsRun(m, events) && Sparing(m)
    ensures Sparing(After(m, events)) && (!m.notify ==> !After(m, events).notify)
    decreases |events|
  {
    hide Live, Apply, Possible, Sparing;
    if events != [] {
      StepKeepsLive(m, events[0]);
      StepSpares(m, events[0]);
      RunSpares(Apply(m, events[0]), events[1..]);
    }
  }

  /**
   A shutdown without a grace period, whatever the connections do: the close
   phase begins at once and is forced, so the first 64 connections have been sent
   closeWhenIdle when the call returns; no timer is armed; and whatever happens
   later, the notify phase is never entered and nobody is ever notified.
   */
  lemma StartWithoutGraceCloses(m: Manager, rs: nat -> Reaction, events: seq<Event>)
    requires Live(m) && Sparing(m) && m.phase == NoShutdown
    requires Live(StartDrain(m, false, rs)) && IsRun(StartDrain(m, false, rs), events)
    ensures var r := StartDrain(m, false, rs);
            && (r.phase == Closing || r.phase == CloseComplete) && !r.timer && !r.notify
            && (forall c | c in FirstBatch(m.conns.list) :: SentTo(r, c) == SentCloseWhenIdle)
            && var later := After(r, events);
               && (later.phase == Closing || later.phase == CloseComplete)
               && NobodySent(later, SentNotifyPendingShutdown)
  {
    hide Partition, DrainBatch, IsRun, After, NobodySent, MayWalk;
    var t := Rewind(m.(phase := Closing, notify := false));
    RewindMayWalk(m.(phase := Closing, notify := false));
    BatchKeepsLive(t, rs);
    BatchServes(t, rs);
    StartSpares(m, false, rs);
    RunSpares(StartDrain(m, false, rs), events);
  }

  /**
   With a grace period: the notify phase begins, its timer is armed, the first 64
   connections have been notified and nobody has been sent closeWhenIdle.
   */
  lemma StartWithGraceNotifies(m: Manager, rs: nat -> Reaction)
    requires Live(m) && Sparing(m) && m.phase == NoShutdown
    ensures var r := StartDrain(m, true, rs);
            && (r.phase == Notifying || r.phase == NotifyComplete) && r.timer && r.notify
            && (forall c | c in FirstBatch(m.conns.list) :: SentTo(r, c) == SentNotifyPendingShutdown)
            && NobodySent(r, SentCloseWhenIdle)
  {
    hide Partition, Walk, MayWalk, OnlyAdvances;
    var t := Rewind(m.(phase := Notifying, timer := true));
    RewindMayWalk(m.(phase := Notifying, timer := true));
    BatchServes(t, rs);
    WalkSendsOnly(t, t.conns.drainIt, 0, rs);
    StartSpares(m, true, rs);
  }

  lemma FreshIsSparing()
    ensures Live(FRESH) && Sparing(FRESH)
  {
  }

  /** Over every run of a manager: who is sent what, and when. */
  lemma EveryRunSpares(events: seq<Event>)
    requires Live(FRESH) && IsRun(FRESH, events)
    ensures var m := After(FRESH, events);
            && (Rank(m.phase) < Rank(Closing) ==> NobodySent(m, SentCloseWhenIdle))
            && (m.phase == NoShutdown || !m.notify ==> NobodySent(m, SentNotifyPendingShutdown))
  {
    hide IsRun, After, Live;
    FreshIsSparing();
    RunSpares(FRESH, events);
  }

  // ---------------------------------------------------------------------------
  // The activation the drain does not survive
  // ---------------------------------------------------------------------------

  lemma RelinkKeepsBefore(s: seq<ConnId>, x: ConnId, cur: Cursor, c: ConnId)
    requires NoDups(s) && Valid(s, cur) && cur != At(x) && x != c && x in s && c in Before(s, cur)
    ensures c in Before(Erase(s, x), cur)
    ensures c in Before([x] + Erase(s, x), cur)
    ensures c in Before(Erase(s, x) + [x], cur)
  {
    hide Erase, From, Before, NoDups;
    SplitOf(s, cur);
    SplitMembers(Before(s, cur), From(s, cur));
    EraseMembers(s, x);
    EraseMembers(Before(s, cur), x);
    EraseSplits(s, x, cur);
    PushFrontSplits(Erase(s, x), x, cur);
    PushBackSplits(Erase(s, x), x, cur);
  }

  /** The reaction of another connection neither unlinks `c` nor brings it back behind a cursor. */
  lemma ReactKeepsOther(l: Conns, x: ConnId, r: Reaction, cur: Cursor, c: ConnId)
    requires NoDups(l.list) && x != c && c in l.list
    ensures c in React(l, x, r).list
    ensures Valid(l.list, cur) && cur != At(x) && c in Before(l.list, cur) ==> c in Before(React(l, x, r).list, cur)
  {
    hide Next, From, Erase, Before, NoDups;
    if x in l.list {
      EraseMembers(l.list, x);
      if Valid(l.list, cur) && cur != At(x) && c in Before(l.list, cur) {
        RelinkKeepsBefore(l.list, x, cur, c);
      }
    }
  }

  predicate Untold(m: Manager, c: ConnId) {
    m.notify && !Told(m, c)
  }

  /**
   `c` is listed and the drain will not close it any more: it was never told, and
   so is not reached by a close either, or it is in front of the cursor of the
   close phase.
   */
  predicate Forgotten(m: Manager, it: Cursor, c: ConnId) {
    && c in m.conns.list && !Closed(m, c)
    && match m.phase
       case NoShutdown => false
       case Notifying => Untold(m, c) && m.closing == [] && c in Before(m.conns.list, it)
       case NotifyComplete => Untold(m, c)
       case Closing => Untold(m, c) || (m.closing == [] && c in Before(m.conns.list, it))
       case CloseComplete => true
  }

  lemma UntoldIsNotClosed(m: Manager, c: ConnId, r: Reaction)
    requires m.phase == Closing && Untold(m, c)
    ensures Process(m, c, r) == m
  {
  }

  lemma ProcessForgets(m: Manager, x: ConnId, r: Reaction, c: ConnId)
    requires OnTrack(m, At(x)) && Forgotten(m, At(x), c) && (m.phase == Notifying || m.phase == Closing)
    ensures var m' := Process(m, x, r);
            Forgotten(m', Next(m.conns.list, x), c) && (Untold(m, c) ==> Untold(m', c))
  {
    hide Partition, React, Process, Before, Next;
    var l, nxt := m.conns.list, Next(m.conns.list, x);
    PartitionHasNoDups(m.conns);
    NextSplits(l, x);
    if x == c {
      NotBeforeItself(l, x);
      UntoldIsNotClosed(m, c, r);
    } else {
      ProcessTouchesOnly(m, x, r);
      ReactKeepsOther(m.conns, x, r, nxt, c);
    }
  }

  lemma NotBeforeItself(s: seq<ConnId>, x: ConnId)
    requires NoDups(s) && x in s
    ensures x !in Before(s, At(x))
  {
    SplitOf(s, At(x));
    SplitMembers(Before(s, At(x)), From(s, At(x)));
  }

  lemma {:induction false} WalkForgets(m: Manager, it: Cursor, n: nat, rs: nat -> Reaction, c: ConnId)
    requires OnTrack(m, it) && Forgotten(m, it, c) && (m.phase == Notifying || m.phase == Closing)
    ensures var (w, it') := Walk(m, it, n, rs);
            Forgotten(w, it', c) && (Untold(m, c) ==> Untold(w, c))
    decreases BATCH - n
  {
    hide Forgotten, OnTrack, Process, Untold;
    if it != End && n < BATCH {
      ProcessStaysOnTrack(m, it.id, rs(n));
      ProcessTouchesOnly(m, it.id, rs(n));
      ProcessForgets(m, it.id, rs(n), c);
      WalkForgets(Process(m, it.id, rs(n)), Next(m.conns.list, it.id), n + 1, rs, c);
    }
  }

  lemma BatchForgets(m: Manager, rs: nat -> Reaction, c: ConnId)
    requires MayWalk(m) && Forgotten(m, m.conns.drainIt, c)
    ensures var r := DrainBatch(m, rs);
            Forgotten(r, r.conns.drainIt, c) && (Untold(m, c) ==> Untold(r, c))
  {
    hide Partition, Walk;
    PartitionHasNoDups(m.conns);
    WalkStaysOnTrack(m, m.conns.drainIt, 0, rs);
    WalkForgets(m, m.conns.drainIt, 0, rs, c);
  }

  lemma CloseForgets(m: Manager, r: Reaction, c: ConnId)
    requires Live(m) && Forgotten(m, m.conns.drainIt, c) && m.closing != []
    ensures var m' := RunDeferredClose(m, r);
            Forgotten(m', m'.conns.drainIt, c) && (Untold(m, c) ==> Untold(m', c))
  {
    hide Partition, React, RunDeferredClose, Before;
    LiveIsLinked(m);
    DeferredCloseShape(m, r);
    assert m.closing == [m.closing[0]] + m.closing[1..];
    ReactKeepsOther(m.conns, m.closing[0], r, End, c);
  }

  /** No internal event makes the drain reach a connection it has forgotten. */
  lemma InternalEventsForget(m: Manager, e: Event, c: ConnId)
    requires Live(m) && Possible(m, e) && Internal(e) && Forgotten(m, m.conns.drainIt, c)
    ensures var m' := Apply(m, e);
            Forgotten(m', m'.conns.drainIt, c) && (Untold(m, c) ==> Untold(m', c))
  {
    hide Partition, DrainBatch, RunDeferredClose;
    match e
    case LoopCallback(rs) => BatchForgets(m.(looping := false), rs, c);
    case GraceTimer(rs) =>
      if m.phase == NotifyComplete {
        var t := m.(timer := false, phase := Closing);
        RewindMayWalk(t);
        BatchForgets(Rewind(t), rs, c);
      }
    case DeferredClose(r) => CloseForgets(m, r, c);
  }

  /** A forgotten connection stays so: the drain completes with it listed, not told to close, and if it was untold, untold. */
  lemma {:induction false} ForgottenForGood(m: Manager, i: nat, pick: Scheduler, c: ConnId)
    requires Live(m) && Forgotten(m, m.conns.drainIt, c) && Fair(pick)
    ensures var r := RunToCompletion(m, i, pick);
            c in r.conns.list && !Closed(r, c) && (Untold(m, c) ==> !Told(r, c))
    decreases 4 - Rank(m.phase), |m.closing|, Remaining(m), if m.timer then 1 else 0
  {
    hide Live, Remaining, Apply, Before, Told, Closed;
    if m.phase != CloseComplete {
      var e := pick(i, m);
      StepKeepsLive(m, e);
      InternalEventsProgress(m, e);
      InternalEventsForget(m, e, c);
      ForgottenForGood(Apply(m, e), i + 1, pick, c);
    }
  }

  /**
   The exact price of an activation during the drain: of a connection the phase
   has not served and that is not the cursor's own, it makes the drain complete
   without it, whatever the schedule and the callbacks; any other activation
   keeps coverage.
   */
  lemma ActivationIsForgottenIff(m: Manager, c: ConnId, pick: Scheduler)
    requires Inv(m) && c in m.conns.list && (m.phase == Notifying || m.phase == Closing) && !m.stopped
    requires (m.phase == Closing ==> m.closing == []) && Fair(pick)
    ensures var m' := m.(conns := Activate(m.conns, c));
            && Live(m')
            && (SafeToActivate(m, c) ==> AllClosed(RunToCompletion(m', 0, pick), RunToCompletion(m', 0, pick).conns.list))
            && (!SafeToActivate(m, c) ==>
                  var r := RunToCompletion(m', 0, pick);
                  c in r.conns.list && !Closed(r, c) && (m.phase == Notifying ==> !Told(r, c)))
  {
    hide Partition, Activate, RunToCompletion;
    var m' := m.(conns := Activate(m.conns, c));
    ActivateKeepsPartition(m.conns, c);
    PartitionHasNoDups(m.conns);
    if SafeToActivate(m, c) {
      ActivationIsCoveredIff(m, c);
      DrainReachesEveryConnection(m', 0, pick);
    } else {
      ActivateFronts(m.conns, c);
      PartitionHasNoDups(m'.conns);
      BeforeIsListed(m'.conns.list, m'.conns.drainIt);
      ForgottenForGood(m', 0, pick, c);
    }
  }

  lemma BeforeIsListed(s: seq<ConnId>, cur: Cursor)
    ensures Subset(Before(s, cur), s)
  {
  }

  // ---------------------------------------------------------------------------
  // A run on which it happens
  // ---------------------------------------------------------------------------

  /** Connections n-1, ..., 0 as they stand after having been added in turn. */
  function Countdown(n: nat): (s: seq<ConnId>)
    ensures |s| == n && forall i | 0 <= i < n :: s[i] == n - 1 - i
  {
    seq(n, i requires 0 <= i < n => n - 1 - i)
  }

  predicate Filled(m: Manager, n: nat) {
    m.phase == NoShutdown && m.notify && m.sent == map[] && m.closing == [] && !m.stopped && m.conns.list == Countdown(n)
  }

  lemma AddOne(m: Manager, k: nat)
    requires Live(m) && Filled(m, k)
    ensures var e := ConnectionAdded(k, Stay); Possible(m, e) && Live(Apply(m, e)) && Filled(Apply(m, e), k + 1)
  {
    hide Partition;
    StepKeepsLive(m, ConnectionAdded(k, Stay));
    assert [k] + Countdown(k) == Countdown(k + 1);
  }

  lemma {:induction false} AddMany(m: Manager, k: nat, n: nat) returns (events: seq<Event>)
    requires Live(m) && Filled(m, k) && k <= n
    ensures IsRun(m, events) && Filled(After(m, events), n)
    decreases n - k
  {
    hide Live, Apply, Filled, Possible;
    if k == n {
      events := [];
    } else {
      AddOne(m, k);
      var rest := AddMany(Apply(m, ConnectionAdded(k, Stay)), k + 1, n);
      events := [ConnectionAdded(k, Stay)] + rest;
      assert events[1..] == rest;
    }
  }

  lemma NextInCountdown(n: nat, i: nat)
    requires i + 1 < n
    ensures Next(Countdown(n), Countdown(n)[i]) == At(Countdown(n)[i + 1])
  {
    hide Pos;
    PosIs(Countdown(n), i);
  }

  const STAY: nat -> Reaction := _ => Stay

  /** A batch over connections that stay tells the first 64 of them and stops at the next. */
  lemma {:induction false} FirstBatchStops(m: Manager, n: nat, i: nat)
    requires m.phase == Notifying && m.conns.list == Countdown(n) && n > BATCH + 1 && i <= BATCH
    requires !Told(m, Countdown(n)[BATCH + 1])
    ensures var (w, it) := Walk(m, At(Countdown(n)[i]), i, STAY);
            && w.conns == m.conns && SameShell(m, w)
            && it == At(Countdown(n)[BATCH]) && !Told(w, Countdown(n)[BATCH + 1])
    decreases BATCH - i
  {
    hide Next;
    if i < BATCH {
      NextInCountdown(n, i);
      var m' := FireNotify(m, Countdown(n)[i], Stay);
      assert m'.conns == m.conns;
      FirstBatchStops(m', n, i + 1);
    }
  }

  /** A covered drain in its notify phase, and a connection that must not be activated. */
  predicate Exposed(m: Manager, c: ConnId) {
    Inv(m) && m.phase == Notifying && !m.stopped && m.closing == [] && c in m.conns.list && !SafeToActivate(m, c)
  }

  lemma ShutdownExposes(m: Manager, n: nat)
    requires Live(m) && Filled(m, n) && n > BATCH + 1
    ensures Exposed(StartDrain(m, true, STAY), Countdown(n)[BATCH + 1])
  {
    hide Walk, Partition;
    var t := Rewind(m.(phase := Notifying, timer := true));
    FirstBatchStops(t, n, 0);
    assert Countdown(n)[BATCH + 1] in Countdown(n);
    StartKeepsInv(m, true, STAY);
  }

  lemma {:induction false} AppendStep(m: Manager, events: seq<Event>, e: Event)
    requires Live(m) && IsRun(m, events) && Possible(After(m, events), e)
    ensures IsRun(m, events + [e]) && After(m, events + [e]) == Apply(After(m, events), e)
    decreases |events|
  {
    hide Live, Apply, Possible;
    if events == [] {
      StepKeepsLive(m, e);
      assert [] + [e] == [e] && [e][1..] == [];
    } else {
      StepKeepsLive(m, events[0]);
      AppendStep(Apply(m, events[0]), events[1..], e);
      assert (events + [e])[1..] == events[1..] + [e];
    }
  }

  lemma ExposedIsReachable(n: nat) returns (events: seq<Event>)
    requires n > BATCH + 1
    ensures Live(FRESH) && IsRun(FRESH, events) && Exposed(After(FRESH, events), Countdown(n)[BATCH + 1])
  {
    hide IsRun, After, Live, StartDrain, Exposed;
    FreshIsInv();
    assert Filled(FRESH, 0);
    hide Filled;
    var adds := AddMany(FRESH, 0, n);
    ShutdownExposes(After(FRESH, adds), n);
    AppendStep(FRESH, adds, ShutdownInitiated(true, STAY));
    events := adds + [ShutdownInitiated(true, STAY)];
  }

  /**
   A run on which the drain forgets a connection: more than 65 connections are
   added, a shutdown with grace tells the first 64, and then one behind the
   cursor is activated. The drain completes and that connection, still listed,
   has been told nothing.
   */
  lemma DrainForgetsActivated(n: nat) returns (events: seq<Event>, c: ConnId)
    requires n > BATCH + 1
    ensures Live(FRESH) && IsRun(FRESH, events) && After(FRESH, events).phase == Notifying && Fair(FIRST_PENDING)
    ensures var r := RunToCompletion(After(FRESH, events), 0, FIRST_PENDING);
            c in r.conns.list && !Told(r, c) && !Closed(r, c)
  {
    hide IsRun, After, Live, Activate, RunToCompletion, Fair, SafeToActivate, Told, Closed;
    c := Countdown(n)[BATCH + 1];
    var before := ExposedIsReachable(n);
    FirstPendingIsFair();
    AppendStep(FRESH, before, ConnectionActivated(c));
    ActivationIsForgottenIff(After(FRESH, before), c, FIRST_PENDING);
    events := before + [ConnectionActivated(c)];
  }
}
