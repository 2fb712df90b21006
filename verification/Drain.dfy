/**
 The two-phase graceful drain of ConnectionManager (DrainHelper): every
 connection is first told that a shutdown is pending and then, after a grace
 period, told to close when idle. Both phases walk the list in batches of 64
 from a loop callback, while connections come, go and move between batches.

 The callbacks a connection receives may make it leave the list or move within
 it; `Reaction` is what one call does to its own connection. Time appears only
 as "the grace timer is armed".
 */
module Drain {
  import opened ConnectionList
  import opened BusyIdle

  const BATCH := 64

  datatype DrainState = NotTold | SentNotifyPendingShutdown | SentCloseWhenIdle

  datatype Phase = NoShutdown | Notifying | NotifyComplete | Closing | CloseComplete

  function Rank(p: Phase): (n: nat) {
    match p
    case NoShutdown => 0
    case Notifying => 1
    case NotifyComplete => 2
    case Closing => 3
    case CloseComplete => 4
  }

  datatype Manager = Manager(
    conns: Conns,
    sent: map<ConnId, DrainState>,  // each connection's DrainState
    phase: Phase,                   // shutdownState_
    notify: bool,                   // notifyPendingShutdown_
    timer: bool,                    // the grace timer is scheduled
    looping: bool,                  // the helper's loop callback is scheduled
    closing: seq<ConnId>,           // deferred fireCloseWhenIdle calls
    stopped: bool                   // stopDrainingForShutdown was called
  )

  const FRESH: Manager := Manager(EMPTY, map[], NoShutdown, true, false, false, [], false)

  /** What a connection does to itself from inside one of its callbacks. */
  datatype Reaction = Stay | Leave | BecomeBusy | BecomeIdle

  function React(l: Conns, c: ConnId, r: Reaction): (l': Conns) {
    if c !in l.list then l else
    match r
    case Stay => l
    case Leave => Remove(l, c)
    case BecomeBusy => Activate(l, c)
    case BecomeIdle => if ActivationOf(l, c) == Active then Deactivate(l, c) else l
  }

  function SentTo(m: Manager, c: ConnId): (d: DrainState) {
    if c in m.sent then m.sent[c] else NotTold
  }

  function FireNotify(m: Manager, c: ConnId, r: Reaction): (m': Manager) {
    if SentTo(m, c) == NotTold then
      m.(sent := m.sent[c := SentNotifyPendingShutdown], conns := React(m.conns, c, r))
    else m
  }

  function FireClose(m: Manager, c: ConnId, force: bool, r: Reaction): (m': Manager) {
    if force || SentTo(m, c) == SentNotifyPendingShutdown then
      m.(sent := m.sent[c := SentCloseWhenIdle], conns := React(m.conns, c, r))
    else m
  }

  /** The body of the drain loop for one connection. */
  function Process(m: Manager, c: ConnId, r: Reaction): (m': Manager) {
    if m.phase == Notifying then FireNotify(m, c, r) else FireClose(m, c, !m.notify, r)
  }

  /** The loop of `drainConnections`: the cursor steps on before the connection is called. */
  function Walk(m: Manager, it: Cursor, n: nat, rs: nat -> Reaction): (r: (Manager, Cursor))
    decreases BATCH - n
  {
    if it == End || n >= BATCH then (m, it)
    else Walk(Process(m, it.id, rs(n)), Next(m.conns.list, it.id), n + 1, rs)
  }

  /** The state CHECK of `drainConnections`. */
  predicate MayDrain(m: Manager) {
    m.phase == Notifying || m.phase == Closing || m.phase == CloseComplete
  }

  /** `drainConnections`. */
  function DrainBatch(m: Manager, rs: nat -> Reaction): (r: Manager)
    requires MayDrain(m)
  {
    var (w, it) := Walk(m, m.conns.drainIt, 0, rs);
    var k := w.(conns := w.conns.(drainIt := it));
    if it != End then k.(looping := true)
    else if m.phase == Notifying then
      if m.timer then k.(phase := NotifyComplete)
      else k.(phase := Closing, conns := k.conns.(drainIt := Begin(k.conns.list)), looping := true)
    else k.(phase := CloseComplete)
  }

  /** `drainStartIterator` of a full drain. */
  function Rewind(m: Manager): (r: Manager) {
    m.(conns := m.conns.(drainIt := Begin(m.conns.list)))
  }

  /** `initiateGracefulShutdown`; `grace` says the idle grace period is positive. */
  function StartDrain(m: Manager, grace: bool, rs: nat -> Reaction): (r: Manager) {
    if m.phase != NoShutdown then m
    else if grace then DrainBatch(Rewind(m.(phase := Notifying, timer := true)), rs)
    else DrainBatch(Rewind(m.(phase := Closing, notify := false)), rs)
  }

  function RunLoopCallback(m: Manager, rs: nat -> Reaction): (r: Manager)
    requires m.looping && MayDrain(m)
  {
    DrainBatch(m.(looping := false), rs)
  }

  /** `idleGracefulTimeoutExpired`. */
  function FireTimer(m: Manager, rs: nat -> Reaction): (r: Manager)
    requires m.timer
  {
    var t := m.(timer := false);
    if m.phase == NotifyComplete then DrainBatch(Rewind(t.(phase := Closing)), rs) else t
  }

  /** The task `addConnection` defers: close the connection if it is still linked. */
  function RunDeferredClose(m: Manager, r: Reaction): (m': Manager)
    requires m.closing != []
  {
    var t := m.(closing := m.closing[1..]);
    if m.closing[0] in m.conns.list then FireClose(t, m.closing[0], !m.notify, r) else t
  }

  /** `addConnection` during whatever phase the manager is in. */
  function AddConnection(m: Manager, c: ConnId, r: Reaction): (m': Manager)
    requires c !in m.conns.list
  {
    var added := m.(conns := Add(m.conns, c));
    var told := if Rank(m.phase) >= Rank(Notifying) && m.notify then FireNotify(added, c, r) else added;
    if Rank(m.phase) >= Rank(Closing) then told.(closing := told.closing + [c]) else told
  }

  /** `stopDrainingForShutdown`. */
  function StopDraining(m: Manager): (r: Manager) {
    m.(phase := CloseComplete, timer := false, looping := false, stopped := true)
  }

  function DropConnections(m: Manager, n: nat): (r: Manager) {
    var s := StopDraining(m);
    s.(conns := DropFront(s.conns, n))
  }

  // ---------------------------------------------------------------------------
  // Coverage
  // ---------------------------------------------------------------------------

  predicate Told(m: Manager, c: ConnId) {
    SentTo(m, c) != NotTold
  }

  /** Told to close, or about to be by a deferred call. */
  predicate Closed(m: Manager, c: ConnId) {
    SentTo(m, c) == SentCloseWhenIdle || c in m.closing
  }

  predicate AllTold(m: Manager, s: seq<ConnId>) {
    forall c | c in s :: Told(m, c)
  }

  predicate AllClosed(m: Manager, s: seq<ConnId>) {
    forall c | c in s :: Closed(m, c)
  }

  function Passed(m: Manager): (s: seq<ConnId>) {
    Before(m.conns.list, m.conns.drainIt)
  }

  /** What each phase has scheduled. */
  predicate Scheduled(m: Manager) {
    match m.phase
    case NoShutdown => !m.looping && !m.timer
    case Notifying => m.looping
    case NotifyComplete => !m.looping && m.timer
    case Closing => m.looping && !m.timer
    case CloseComplete => !m.looping && !m.timer
  }

  /** The invariant of a manager that is drained at most once, and fully, whatever its connections do. */
  predicate Live(m: Manager) {
    Partition(m.conns) && Scheduled(m)
  }

  /** Which connections the drain has reached. */
  predicate Covered(m: Manager) {
    match m.phase
    case NoShutdown => m.notify && m.closing == []
    case Notifying => m.notify && m.closing == [] && AllTold(m, Passed(m))
    case NotifyComplete => m.notify && m.closing == [] && AllTold(m, m.conns.list)
    case Closing => (m.notify ==> AllTold(m, m.conns.list)) && AllClosed(m, Passed(m))
    case CloseComplete =>
      !m.stopped ==> (m.notify ==> AllTold(m, m.conns.list)) && AllClosed(m, m.conns.list)
  }

  predicate Inv(m: Manager) {
    Live(m) && Covered(m)
  }

  // ---------------------------------------------------------------------------
  // What a reaction does to a cursor that stands elsewhere
  // ---------------------------------------------------------------------------

  predicate Subset(a: seq<ConnId>, b: seq<ConnId>) {
    forall x | x in a :: x in b
  }

  lemma ReactKeepsPartition(l: Conns, c: ConnId, r: Reaction)
    requires Partition(l)
    ensures Partition(React(l, c, r)) && Subset(React(l, c, r).list, l.list)
  {
    hide Partition;
    if c in l.list {
      PartitionHasNoDups(l);
      EraseMembers(l.list, c);
      match r
      case Stay =>
      case Leave => RemoveKeepsPartition(l, c);
      case BecomeBusy => ActivateKeepsPartition(l, c);
      case BecomeIdle => if ActivationOf(l, c) == Active { DeactivateKeepsPartition(l, c); }
    }
  }

  lemma PartitionHasNoDups(l: Conns)
    requires Partition(l)
    ensures WellLinked(l)
  {
  }

  /** A cursor past `c` keeps its node, and only `c` can appear in front of it. */
  lemma ReactKeepsCursor(l: Conns, c: ConnId, r: Reaction, cur: Cursor)
    requires NoDups(l.list) && Valid(l.list, cur) && cur != At(c)
    ensures var l' := React(l, c, r).list;
            && Valid(l', cur)
            && Subset(Before(l', cur), Before(l.list, cur) + [c])
  {
    if c in l.list {
      EraseMembers(l.list, c);
      EraseSplits(l.list, c, cur);
      var erased := Erase(l.list, c);
      PushFrontSplits(erased, c, cur);
      PushBackSplits(erased, c, cur);
      SplitOf(l.list, cur);
      assert Before(l.list, cur) == l.list[..Pos(l.list, cur)];
      EraseMembersOnly(Before(l.list, cur), c);
    }
  }

  lemma EraseMembersOnly(s: seq<ConnId>, x: ConnId)
    ensures Subset(Erase(s, x), s)
  {
    EraseShifts(s, x);
  }

  // ---------------------------------------------------------------------------
  // One batch
  // ---------------------------------------------------------------------------

  /** What the current phase wants of a connection. */
  predicate Done(m: Manager, c: ConnId) {
    if m.phase == Notifying then Told(m, c) else Closed(m, c)
  }

  predicate AllDone(m: Manager, s: seq<ConnId>) {
    forall c | c in s :: Done(m, c)
  }

  /** A close that is not forced only reaches connections that have been told. */
  predicate CloseReaches(m: Manager) {
    m.phase != Notifying && m.notify ==> AllTold(m, m.conns.list)
  }

  predicate SameShell(m: Manager, m': Manager) {
    && m'.phase == m.phase && m'.notify == m.notify && m'.timer == m.timer
    && m'.looping == m.looping && m'.closing == m.closing && m'.stopped == m.stopped
  }

  /** Nothing a connection has been sent is taken back. */
  ghost predicate Advances(m: Manager, m': Manager) {
    && (forall c :: Told(m, c) ==> Told(m', c))
    && (forall c :: Closed(m, c) ==> Closed(m', c))
  }

  /** The local cursor of `drainConnections` stands in the list. */
  predicate OnTrack(m: Manager, it: Cursor) {
    Partition(m.conns) && Valid(m.conns.list, it)
  }

  /** The loop invariant of `drainConnections` at the local cursor `it`. */
  predicate Sweeping(m: Manager, it: Cursor) {
    && OnTrack(m, it)
    && AllDone(m, Before(m.conns.list, it)) && CloseReaches(m)
  }

  lemma SendAdvances(m: Manager, m': Manager, c: ConnId, d: DrainState)
    requires m'.sent == m.sent[c := d] && m'.closing == m.closing
    requires d == SentCloseWhenIdle || (d == SentNotifyPendingShutdown && SentTo(m, c) == NotTold)
    ensures Advances(m, m')
  {
  }

  lemma ProcessIsDone(m: Manager, c: ConnId, r: Reaction)
    requires c in m.conns.list && CloseReaches(m)
    ensures var m' := Process(m, c, r);
            && Done(m', c) && SameShell(m, m') && Advances(m, m')
            && (m'.conns == m.conns || m'.conns == React(m.conns, c, r))
  {
    hide React, Advances;
    var m' := Process(m, c, r);
    if m.phase == Notifying {
      if SentTo(m, c) == NotTold { SendAdvances(m, m', c, SentNotifyPendingShutdown); }
      else { NothingLost(m); }
    } else {
      assert m.notify ==> Told(m, c);
      if !m.notify || SentTo(m, c) == SentNotifyPendingShutdown { SendAdvances(m, m', c, SentCloseWhenIdle); }
      else { NothingLost(m); }
    }
  }

  /** What a call to one connection leaves alone. */
  ghost predicate TouchesOnly(m: Manager, m': Manager, c: ConnId, r: Reaction) {
    && SameShell(m, m')
    && (m'.conns == m.conns || m'.conns == React(m.conns, c, r))
    && (forall x | x != c :: SentTo(m', x) == SentTo(m, x))
  }

  lemma NotifyTouchesOnly(m: Manager, c: ConnId, r: Reaction)
    ensures TouchesOnly(m, FireNotify(m, c, r), c, r)
  {
    hide React;
  }

  lemma CloseTouchesOnly(m: Manager, c: ConnId, force: bool, r: Reaction)
    ensures TouchesOnly(m, FireClose(m, c, force, r), c, r)
  {
    hide React;
  }

  lemma ProcessTouchesOnly(m: Manager, c: ConnId, r: Reaction)
    ensures TouchesOnly(m, Process(m, c, r), c, r)
  {
    hide TouchesOnly, FireNotify, FireClose;
    if m.phase == Notifying { NotifyTouchesOnly(m, c, r); } else { CloseTouchesOnly(m, c, !m.notify, r); }
  }

  /** Visiting a connection keeps the list in order and the cursor behind it in place. */
  lemma ProcessStaysOnTrack(m: Manager, c: ConnId, r: Reaction)
    requires OnTrack(m, At(c))
    ensures OnTrack(Process(m, c, r), Next(m.conns.list, c))
  {
    hide Partition, React, Process;
    PartitionHasNoDups(m.conns);
    NextSplits(m.conns.list, c);
    ProcessTouchesOnly(m, c, r);
    ReactKeepsPartition(m.conns, c, r);
    ReactKeepsCursor(m.conns, c, r, Next(m.conns.list, c));
  }

  lemma {:induction false} WalkStaysOnTrack(m: Manager, it: Cursor, n: nat, rs: nat -> Reaction)
    requires OnTrack(m, it)
    ensures var (w, it') := Walk(m, it, n, rs); OnTrack(w, it') && SameShell(m, w)
    decreases BATCH - n
  {
    hide OnTrack, Process;
    if it != End && n < BATCH {
      ProcessStaysOnTrack(m, it.id, rs(n));
      ProcessTouchesOnly(m, it.id, rs(n));
      WalkStaysOnTrack(Process(m, it.id, rs(n)), Next(m.conns.list, it.id), n + 1, rs);
    }
  }

  lemma NothingLost(m: Manager)
    ensures Advances(m, m)
  {
  }

  lemma ProcessKeepsSweeping(m: Manager, c: ConnId, r: Reaction)
    requires Sweeping(m, At(c))
    ensures var m' := Process(m, c, r);
            && Sweeping(m', Next(m.conns.list, c))
            && SameShell(m, m') && Advances(m, m') && Subset(m'.conns.list, m.conns.list)
  {
    hide Partition, React, Process, Before, Next, Done, Advances, NoDups;
    var l, nxt, m' := m.conns.list, Next(m.conns.list, c), Process(m, c, r);
    PartitionHasNoDups(m.conns);
    NextSplits(l, c);
    ProcessIsDone(m, c, r);
    ProcessStaysOnTrack(m, c, r);
    ReactKeepsPartition(m.conns, c, r);
    ReactKeepsCursor(m.conns, c, r, nxt);
    assert Subset(Before(m'.conns.list, nxt), Before(l, At(c)) + [c]);
    forall x | x in Before(m'.conns.list, nxt) ensures Done(m', x) {
      if x != c { DonePersists(m, m', x); }
    }
    assert CloseReaches(m') by { ToldPersists(m, m'); }
  }

  lemma DonePersists(m: Manager, m': Manager, x: ConnId)
    requires SameShell(m, m') && Advances(m, m') && Done(m, x)
    ensures Done(m', x)
  {
  }

  lemma ToldPersists(m: Manager, m': Manager)
    requires SameShell(m, m') && Advances(m, m') && CloseReaches(m) && Subset(m'.conns.list, m.conns.list)
    ensures CloseReaches(m')
  {
  }

  lemma {:induction false} WalkSweeps(m: Manager, it: Cursor, n: nat, rs: nat -> Reaction)
    requires Sweeping(m, it)
    ensures var (w, it') := Walk(m, it, n, rs);
            && Sweeping(w, it') && SameShell(m, w) && Advances(m, w)
            && Subset(w.conns.list, m.conns.list)
    decreases BATCH - n
  {
    hide Sweeping;
    if it != End && n < BATCH {
      ProcessKeepsSweeping(m, it.id, rs(n));
      WalkSweeps(Process(m, it.id, rs(n)), Next(m.conns.list, it.id), n + 1, rs);
    }
  }

  /** Ready for a batch, with everything in front of the cursor done. */
  predicate Ready(m: Manager) {
    && (m.phase == Notifying || m.phase == Closing) && !m.looping && Sweeping(m, m.conns.drainIt)
    && (m.phase == Notifying ==> m.notify && m.closing == []) && (m.phase != Notifying ==> !m.timer)
  }

  lemma AtEndIsAll(s: seq<ConnId>)
    ensures Before(s, End) == s
  {
  }

  lemma AtBeginIsNone(s: seq<ConnId>)
    ensures Before(s, Begin(s)) == [] && Valid(s, Begin(s))
  {
  }

  /** Moving the drain cursor alone does not disturb the busy/idle layout. */
  lemma DrainCursorIsFree(l: Conns, c: Cursor)
    requires Partition(l) && Valid(l.list, c)
    ensures Partition(l.(drainIt := c))
  {
    assert Busy(l.(drainIt := c)) == Busy(l) && IdlePart(l.(drainIt := c)) == IdlePart(l);
  }

  /** A batch that stopped short: the loop callback is scheduled again. */
  lemma PausedIsCovered(w: Manager, it: Cursor)
    requires (w.phase == Notifying && w.notify && w.closing == []) || (w.phase == Closing && !w.timer)
    requires Sweeping(w, it)
    ensures Inv(w.(conns := w.conns.(drainIt := it), looping := true))
  {
    hide Partition;
    DrainCursorIsFree(w.conns, it);
  }

  /** The notify phase is over and the grace timer is still running. */
  lemma NotifiedIsCovered(w: Manager)
    requires w.phase == Notifying && w.notify && w.timer && !w.looping && w.closing == [] && Sweeping(w, End)
    ensures Inv(w.(conns := w.conns.(drainIt := End), phase := NotifyComplete))
  {
    hide Partition;
    DrainCursorIsFree(w.conns, End);
    AtEndIsAll(w.conns.list);
  }

  /** The notify phase is over and the grace timer has fired: the close phase starts from the front. */
  lemma RestartIsCovered(w: Manager)
    requires w.phase == Notifying && w.notify && !w.timer && Sweeping(w, End)
    ensures Inv(w.(conns := w.conns.(drainIt := Begin(w.conns.list)), phase := Closing, looping := true))
  {
    hide Partition;
    AtEndIsAll(w.conns.list);
    AtBeginIsNone(w.conns.list);
    DrainCursorIsFree(w.conns, Begin(w.conns.list));
  }

  lemma ClosedIsCovered(w: Manager)
    requires w.phase == Closing && !w.timer && !w.looping && Sweeping(w, End)
    ensures Inv(w.(conns := w.conns.(drainIt := End), phase := CloseComplete))
  {
    hide Partition;
    DrainCursorIsFree(w.conns, End);
    AtEndIsAll(w.conns.list);
  }

  /** Ready for a batch as far as the schedule goes. */
  predicate MayWalk(m: Manager) {
    (m.phase == Notifying || m.phase == Closing) && !m.looping && (m.phase == Closing ==> !m.timer) && Partition(m.conns)
  }

  /** Whatever its connections do, a batch leaves the right thing scheduled and never lowers the state. */
  lemma BatchKeepsLive(m: Manager, rs: nat -> Reaction)
    requires MayWalk(m)
    ensures Live(DrainBatch(m, rs)) && Rank(DrainBatch(m, rs).phase) >= Rank(m.phase)
  {
    hide Partition, Walk;
    PartitionHasNoDups(m.conns);
    WalkStaysOnTrack(m, m.conns.drainIt, 0, rs);
    var (w, it) := Walk(m, m.conns.drainIt, 0, rs);
    DrainCursorIsFree(w.conns, it);
    AtBeginIsNone(w.conns.list);
    DrainCursorIsFree(w.conns, Begin(w.conns.list));
  }

  lemma BatchKeepsInv(m: Manager, rs: nat -> Reaction)
    requires Ready(m)
    ensures Inv(DrainBatch(m, rs)) && Rank(DrainBatch(m, rs).phase) >= Rank(m.phase)
    ensures Advances(m, DrainBatch(m, rs))
  {
    hide Inv, Walk, Sweeping;
    var (w, it) := Walk(m, m.conns.drainIt, 0, rs);
    WalkSweeps(m, m.conns.drainIt, 0, rs);
    if it != End {
      PausedIsCovered(w, it);
    } else if m.phase == Notifying {
      if m.timer { NotifiedIsCovered(w); } else { RestartIsCovered(w); }
    } else {
      ClosedIsCovered(w);
    }
  }

  // ---------------------------------------------------------------------------
  // What happens between batches
  // ---------------------------------------------------------------------------

  /** No connection gets in front of the drain cursor that was not there. */
  predicate NothingSlipsBy(l: Conns, l': Conns) {
    Subset(l'.list, l.list) && Subset(Before(l'.list, l'.drainIt), Before(l.list, l.drainIt))
  }

  lemma ShrinkKeepsCovered(m: Manager, l': Conns)
    requires Covered(m) && NothingSlipsBy(m.conns, l')
    ensures Covered(m.(conns := l'))
  {
  }

  lemma RemoveSlipsNothing(l: Conns, c: ConnId)
    requires WellLinked(l)
    ensures NothingSlipsBy(l, Remove(l, c))
  {
    if c in l.list {
      MoveOnOrStay(l.list, c, l.drainIt);
      EraseMembersOnly(l.list, c);
      EraseMembersOnly(Before(l.list, l.drainIt), c);
    }
  }

  /** A deactivated connection goes to the back, and a cursor it was holding stays in front of it. */
  lemma DeactivateSlipsNothing(l: Conns, c: ConnId)
    requires WellLinked(l) && c in l.list && ActivationOf(l, c) == Active
    ensures NothingSlipsBy(l, Deactivate(l, c))
  {
    var s, cur := l.list, l.drainIt;
    var erased := Erase(s, c);
    EraseMembers(s, c);
    MoveOnOrStay(s, c, cur);
    EraseMembersOnly(Before(s, cur), c);
    var moved := if cur == At(c) then Next(s, c) else cur;
    PushBackSplits(erased, c, moved);
    if cur == End {
      AtEndIsAll(s);
    } else if cur == At(c) && moved == End {
      AtEndIsAll(erased);
    }
  }

  lemma {:induction false} ShedSlipsNothing(l: Conns, num: nat, threshold: nat, idleTime: ConnId -> nat)
    requires Partition(l)
    ensures NothingSlipsBy(l, ShedIdle(l, num, threshold, idleTime))
    decreases num
  {
    hide Partition, DropIdleHead, Remove;
    if num > 0 && l.idleIt != End && idleTime(l.idleIt.id) > threshold {
      PartitionHasNoDups(l);
      DropIdleHeadTakesHead(l);
      DropIdleHeadIsRemove(l);
      RemoveSlipsNothing(l, l.idleIt.id);
      ShedSlipsNothing(DropIdleHead(l), num - 1, threshold, idleTime);
    }
  }

  lemma AddFrontsOnly(l: Conns, c: ConnId)
    requires WellLinked(l) && c !in l.list
    ensures var l' := Add(l, c);
            && Subset(l'.list, l.list + [c])
            && Subset(Before(l'.list, l'.drainIt), Before(l.list, l.drainIt) + [c])
  {
    PushFrontSplits(l.list, c, l.drainIt);
  }

  /** An activated connection goes to the front: past the cursor unless it is the cursor's own node. */
  lemma ActivateFronts(l: Conns, c: ConnId)
    requires WellLinked(l) && c in l.list
    ensures var l' := Activate(l, c);
            && Subset(l'.list, l.list)
            && (l.drainIt == At(c) ==> Before(l'.list, l'.drainIt) == [])
            && (l.drainIt != At(c) ==>
                  && Subset(Before(l'.list, l'.drainIt), Before(l.list, l.drainIt) + [c])
                  && c in Before(l'.list, l'.drainIt))
  {
    EraseMembers(l.list, c);
    var erased := Erase(l.list, c);
    if l.drainIt != At(c) {
      EraseSplits(l.list, c, l.drainIt);
      PushFrontSplits(erased, c, l.drainIt);
      EraseMembersOnly(Before(l.list, l.drainIt), c);
      assert ([c] + Before(erased, l.drainIt))[0] == c;
    }
  }

  /** The activation the drain can survive: of the cursor's own node, or of a connection already done. */
  predicate SafeToActivate(m: Manager, c: ConnId) {
    m.phase == Notifying || m.phase == Closing ==> m.conns.drainIt == At(c) || Done(m, c)
  }

  /**
   Exactly when an activation leaves the drain covered. A connection strictly
   past the cursor that is not done yet is moved in front of it and missed.
   */
  lemma ActivationIsCoveredIff(m: Manager, c: ConnId)
    requires Inv(m) && c in m.conns.list
    ensures Covered(m.(conns := Activate(m.conns, c))) <==> SafeToActivate(m, c)
  {
    hide Partition, Activate;
    PartitionHasNoDups(m.conns);
    ActivateFronts(m.conns, c);
    var m' := m.(conns := Activate(m.conns, c));
    if m.phase == Notifying || m.phase == Closing {
      if m.conns.drainIt != At(c) {
        assert c in Passed(m');
        assert Done(m', c) <==> Done(m, c);
      }
    }
  }

  lemma AddKeepsInv(m: Manager, c: ConnId, r: Reaction)
    requires Inv(m) && c !in m.conns.list
    ensures Inv(AddConnection(m, c, r)) && Advances(m, AddConnection(m, c, r))
  {
    hide Partition, React, Add, AddConnection, Told, Closed;
    var l := Add(m.conns, c);
    PartitionHasNoDups(m.conns);
    AddKeepsPartition(m.conns, c);
    AddFrontsOnly(m.conns, c);
    PartitionHasNoDups(l);
    ReactKeepsPartition(l, c, r);
    ReactSlipsOnlyItself(l, c, r);
    AddTells(m, c, r);
    var m' := AddConnection(m, c, r);
    assert Partition(m'.conns);
    assert Subset(m'.conns.list, m.conns.list + [c]);
    assert Subset(Passed(m'), Passed(m) + [c]);
  }

  /** What the added connection has been sent by the time `addConnection` returns. */
  lemma AddTells(m: Manager, c: ConnId, r: Reaction)
    requires c !in m.conns.list
    ensures var m' := AddConnection(m, c, r);
            && Advances(m, m')
            && (Rank(m.phase) >= Rank(Notifying) && m.notify ==> Told(m', c))
            && (Rank(m.phase) >= Rank(Closing) ==> Closed(m', c))
            && (Rank(m.phase) < Rank(Closing) ==> m'.closing == m.closing)
            && m'.phase == m.phase && m'.notify == m.notify && m'.timer == m.timer
            && m'.looping == m.looping && m'.stopped == m.stopped
            && (m'.conns == Add(m.conns, c) || m'.conns == React(Add(m.conns, c), c, r))
  {
    hide React, Add, Advances;
    var m' := AddConnection(m, c, r);
    var sent := m.(sent := m'.sent);
    if Rank(m.phase) >= Rank(Notifying) && m.notify && SentTo(m, c) == NotTold {
      SendAdvances(m, sent, c, SentNotifyPendingShutdown);
    } else {
      NothingLost(m);
    }
    QueueingLosesNothing(m, sent, m');
  }

  lemma QueueingLosesNothing(m: Manager, sent: Manager, m': Manager)
    requires Advances(m, sent) && m'.sent == sent.sent && sent.closing <= m'.closing
    ensures Advances(m, m')
  {
  }

  /** A reaction of `c` puts at most `c` in front of the manager's own drain cursor. */
  lemma ReactSlipsOnlyItself(l: Conns, c: ConnId, r: Reaction)
    requires WellLinked(l)
    ensures var l' := React(l, c, r);
            && Subset(l'.list, l.list)
            && Subset(Before(l'.list, l'.drainIt), Before(l.list, l.drainIt) + [c])
  {
    hide Remove, Activate, Deactivate;
    if c in l.list {
      match r
      case Stay =>
      case Leave => RemoveSlipsNothing(l, c);
      case BecomeBusy => ActivateFronts(l, c);
      case BecomeIdle => if ActivationOf(l, c) == Active { DeactivateSlipsNothing(l, c); }
    }
  }

  lemma DeferredCloseShape(m: Manager, r: Reaction)
    requires m.closing != []
    ensures var m', c := RunDeferredClose(m, r), m.closing[0];
            && SameShell(m.(closing := m.closing[1..]), m')
            && (m'.conns == m.conns || (c in m.conns.list && m'.conns == React(m.conns, c, r)))
            && (forall x | x != c :: SentTo(m', x) == SentTo(m, x))
            && (SentTo(m', c) == SentTo(m, c) || SentTo(m', c) == SentCloseWhenIdle)
            && (c in m.conns.list && (m.notify ==> Told(m, c)) ==> SentTo(m', c) == SentCloseWhenIdle)
  {
    hide React;
  }

  /** A deferred close reaches its connection, so nothing that was queued is lost. */
  lemma DeferredCloseSends(m: Manager, r: Reaction)
    requires m.closing != [] && (m.notify ==> AllTold(m, m.conns.list))
    ensures var m' := RunDeferredClose(m, r);
            && (forall x | Told(m, x) :: Told(m', x))
            && (forall x | x in m.conns.list && Closed(m, x) :: Closed(m', x))
            && (m.closing[0] in m.conns.list ==> Closed(m', m.closing[0]))
  {
    hide RunDeferredClose, SentTo;
    DeferredCloseShape(m, r);
    assert m.closing == [m.closing[0]] + m.closing[1..];
  }

  lemma DeferredCloseKeepsLive(m: Manager, r: Reaction)
    requires Live(m) && m.closing != []
    ensures Live(RunDeferredClose(m, r)) && RunDeferredClose(m, r).phase == m.phase
  {
    hide Partition, React, RunDeferredClose;
    DeferredCloseShape(m, r);
    ReactKeepsPartition(m.conns, m.closing[0], r);
  }

  lemma DeferredCloseKeepsInv(m: Manager, r: Reaction)
    requires Inv(m) && m.closing != []
    ensures Inv(RunDeferredClose(m, r))
  {
    hide Partition, React, Told, Closed, RunDeferredClose, Live, SentTo;
    var c, m' := m.closing[0], RunDeferredClose(m, r);
    DeferredCloseKeepsLive(m, r);
    DeferredCloseShape(m, r);
    LiveIsLinked(m);
    ReactSlipsOnlyItself(m.conns, c, r);
    assert Subset(m'.conns.list, m.conns.list);
    assert Subset(Passed(m'), Passed(m) + [c]);
    if !m.stopped || m.phase == Closing {
      DeferredCloseSends(m, r);
      if c !in m.conns.list {
        SplitOf(m.conns.list, m.conns.drainIt);
      }
    }
  }

  lemma LiveIsLinked(m: Manager)
    requires Live(m)
    ensures WellLinked(m.conns)
  {
  }
}
