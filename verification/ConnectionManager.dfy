/**
 ConnectionManager as the object the code updates in place. Every method is
 proved against the operations of `BusyIdle`, `Drain` and `DropSchedule`, so
 what is shown there for all runs holds of this object.

 A connection's own fields (its activation and drain state) are kept in maps
 keyed by the connection. `Reaction` stands for what a connection's virtual
 callback does to it; `dropConnection` of an idle connection removes it.
 */
module ConnectionManagerObject {
  import opened ConnectionList
  import opened BusyIdle
  import opened Drain
  import DropSchedule

  datatype NextRound = NoRound | RoundIn(timeRemaining: int) | DividedByZero

  const MAX_COUNT := 0x8000_0000_0000_0000

  /** One round of the timed drop: the manager after it, and what is scheduled next. */
  function DropRound(m: Manager, target: nat, time: int, interval: nat, spent: nat): (r: (Manager, NextRound))
    requires interval > 0 && |m.conns.list| < MAX_COUNT
  {
    var count := |m.conns.list|;
    if count <= target then (m, NoRound)
    else if !DropSchedule.CanDivide(time, interval) then (m, DividedByZero)
    else
      var m' := Drain.DropConnections(m, DropSchedule.Quota(count, target, time, interval));
      (m', if |m'.conns.list| > target && time > 0
           then RoundIn(DropSchedule.TimeLeft(time, interval, spent)) else NoRound)
  }

  /** A plan of `DropSchedule` carried out. */
  function CarryOut(m: Manager, p: DropSchedule.Plan, duration: int, interval: int, spent: nat): (r: (Manager, NextRound))
    requires |m.conns.list| < MAX_COUNT && (p.InRounds? ==> interval > 0)
  {
    match p
    case Nothing => (m, NoRound)
    case Now(n) => (Drain.DropConnections(m, n), NoRound)
    case InRounds(target) => DropRound(m, target, duration, interval, spent)
  }

  /** The manager's round is the round of the schedule: same count, same crash, and a next round exactly if it has one. */
  lemma DropRoundFollowsSchedule(m: Manager, target: nat, time: int, interval: nat, spent: nat)
    requires interval > 0 && |m.conns.list| < MAX_COUNT
    ensures var (m', next) := DropRound(m, target, time, interval, spent);
            var count := |m.conns.list|;
            if count > target && !DropSchedule.CanDivide(time, interval) then m' == m && next == DividedByZero
            else
              && |m'.conns.list| == DropSchedule.LeftBy(count, target, time, interval)
              && m'.conns.list == m.conns.list[count - |m'.conns.list|..]
              && next == if |m'.conns.list| > target && time > 0
                         then RoundIn(DropSchedule.TimeLeft(time, interval, spent)) else NoRound
  {
    hide DropSchedule.Quota, DropFront;
    var count := |m.conns.list|;
    if count > target && DropSchedule.CanDivide(time, interval) {
      DropSchedule.QuotaBounds(count, target, time, interval);
      DropFrontTakesPrefix(m.conns, DropSchedule.Quota(count, target, time, interval));
    }
  }

  class ConnectionManager {
    var conns: seq<ConnId>
    var idleIterator: Cursor
    var drainIterator: Cursor
    var idleConnections: int
    var activation: map<ConnId, Activation>
    var sent: map<ConnId, DrainState>
    var shutdownState: Phase
    var notifyPendingShutdown: bool
    var timerScheduled: bool
    var loopScheduled: bool
    var deferredCloses: seq<ConnId>
    var shutdownDrainStarted: bool
    var shutdownDrainStartCount: nat
    const idleTimeout: nat
    const earlyDropThreshold: nat
    // history, for the ordering and coverage claims
    ghost var since: Stamps
    ghost var clock: nat
    ghost var stopped: bool

    ghost function List(): (l: Conns)
      reads this
    {
      Conns(conns, idleIterator, drainIterator, idleConnections, activation, since, clock)
    }

    ghost function View(): (m: Manager)
      reads this
    {
      Manager(List(), sent, shutdownState, notifyPendingShutdown, timerScheduled, loopScheduled,
              deferredCloses, stopped)
    }

    constructor (idleTimeout: nat)
      ensures View() == FRESH && Inv(View())
      ensures this.idleTimeout == idleTimeout && earlyDropThreshold == idleTimeout / 2
    {
      conns, idleIterator, drainIterator, idleConnections := [], End, End, 0;
      activation, sent := map[], map[];
      shutdownState, notifyPendingShutdown := NoShutdown, true;
      timerScheduled, loopScheduled, deferredCloses := false, false, [];
      shutdownDrainStarted, shutdownDrainStartCount := false, 0;
      this.idleTimeout, earlyDropThreshold := idleTimeout, idleTimeout / 2;
      since, clock, stopped := map[], 0, false;
    }

    // -------------------------------------------------------------------------
    // The list
    // -------------------------------------------------------------------------

    method RemoveConnection(c: ConnId)
      modifies `conns, `idleIterator, `drainIterator, `idleConnections
      ensures List() == Remove(old(List()), c)
    {
      hide Next, Erase;
      if c !in conns { return; }
      if c !in activation || activation[c] == Idle {
        idleConnections := idleConnections - 1;
      }
      var next := Next(conns, c);
      if drainIterator == At(c) { drainIterator := next; }
      if idleIterator == At(c) { idleIterator := next; }
      conns := Erase(conns, c);
    }

    method OnActivated(c: ConnId)
      requires c in conns
      modifies `conns, `idleIterator, `idleConnections, `activation, `since, `clock
      ensures List() == Activate(old(List()), c)
    {
      hide Next, Erase;
      if c !in activation || activation[c] == Idle {
        idleConnections := idleConnections - 1;
      }
      activation := activation[c := Active];
      if idleIterator == At(c) { idleIterator := Next(conns, c); }
      conns := [c] + Erase(conns, c);
      since, clock := since[c := clock], clock + 1;
    }

    method OnDeactivated(c: ConnId)
      requires c in conns && ActivationOf(List(), c) == Active
      modifies `conns, `idleIterator, `drainIterator, `idleConnections, `activation, `since, `clock
      ensures List() == Deactivate(old(List()), c)
    {
      hide Next, Erase;
      idleConnections := idleConnections + 1;
      activation := activation[c := Idle];
      var moveDrainIter := false;
      if drainIterator == At(c) {
        drainIterator := Next(conns, c);
        moveDrainIter := true;
      }
      conns := Erase(conns, c) + [c];
      if idleIterator == End { idleIterator := At(c); }
      if moveDrainIter && drainIterator == End { drainIterator := At(c); }
      since, clock := since[c := clock], clock + 1;
    }

    /** The effect of a connection's callback on the list. */
    method RunCallback(c: ConnId, r: Reaction)
      modifies `conns, `idleIterator, `drainIterator, `idleConnections, `activation, `since, `clock
      ensures List() == React(old(List()), c, r)
    {
      hide Remove, Activate, Deactivate;
      if c in conns {
        match r {
          case Stay =>
          case Leave => RemoveConnection(c);
          case BecomeBusy => OnActivated(c);
          case BecomeIdle =>
            if c in activation && activation[c] == Active { OnDeactivated(c); }
        }
      }
    }

    /** `dropConnections(numToDrop)`: the drain is called off, then connections go from the front. */
    method DropConnections(numToDrop: nat)
      modifies `conns, `idleIterator, `drainIterator, `idleConnections,
               `shutdownState, `timerScheduled, `loopScheduled, `stopped
      ensures View() == Drain.DropConnections(old(View()), numToDrop)
      ensures conns == old(conns)[Min(numToDrop, |old(conns)|)..]
    {
      StopDrainingForShutdown();
      DropFromFront(numToDrop);
    }

    method DropFromFront(numToDrop: nat)
      modifies `conns, `idleIterator, `drainIterator, `idleConnections
      ensures List() == DropFront(old(List()), numToDrop)
      ensures conns == old(conns)[Min(numToDrop, |old(conns)|)..]
    {
      hide Remove;
      var n := Min(|conns|, numToDrop);
      DropFrontTakesPrefix(List(), numToDrop);
      DropFrontStops(List(), numToDrop);
      var i := 0;
      while i < n && conns != []
        invariant 0 <= i <= n
        invariant DropFront(List(), n - i) == DropFront(old(List()), numToDrop)
      {
        RemoveConnection(conns[0]);
        i := i + 1;
      }
    }

    method StopDrainingForShutdown()
      modifies `shutdownState, `timerScheduled, `loopScheduled, `stopped
      ensures View() == StopDraining(old(View()))
      ensures shutdownState == CloseComplete && !timerScheduled && !loopScheduled
    {
      shutdownState, timerScheduled, loopScheduled := CloseComplete, false, false;
      stopped := true;
    }

    /** `dropIdleConnections(num)`: the longest idle first, while they are over the threshold. */
    method DropIdleConnections(num: nat, idleTime: ConnId -> nat) returns (count: nat)
      modifies `conns, `idleIterator, `drainIterator, `idleConnections
      ensures earlyDropThreshold >= idleTimeout ==> count == 0 && List() == old(List())
      ensures earlyDropThreshold < idleTimeout ==>
                List() == ShedIdle(old(List()), num, earlyDropThreshold, idleTime)
      ensures old(Partition(List())) && earlyDropThreshold < idleTimeout ==>
                count == Min(num, OverThreshold(IdlePart(old(List())), earlyDropThreshold, idleTime))
    {
      count := 0;
      if earlyDropThreshold >= idleTimeout { return; }
      hide DropIdleHead, Partition, Busy, IdlePart;
      ghost var l0 := List();
      while count < num && idleIterator != End && idleTime(idleIterator.id) > earlyDropThreshold
        invariant count <= num
        invariant ShedIdle(List(), num - count, earlyDropThreshold, idleTime)
                  == ShedIdle(l0, num, earlyDropThreshold, idleTime)
        invariant Partition(l0) ==>
                    && Partition(List())
                    && count + Min(num - count, OverThreshold(IdlePart(List()), earlyDropThreshold, idleTime))
                       == Min(num, OverThreshold(IdlePart(l0), earlyDropThreshold, idleTime))
        decreases num - count
      {
        ghost var l := List();
        if Partition(l) {
          DropIdleHeadTakesHead(l);
          ShedOne(l, num - count, earlyDropThreshold, idleTime);
        }
        DropIdleConnection();
        count := count + 1;
      }
      ghost var l := List();
      if Partition(l) { ShedNoMore(l, num - count, earlyDropThreshold, idleTime); }
    }

    /** The cursor moves on, then the dropped connection removes itself. */
    method DropIdleConnection()
      requires idleIterator != End
      modifies `conns, `idleIterator, `drainIterator, `idleConnections
      ensures List() == DropIdleHead(old(List()))
    {
      hide Next, Remove;
      var c := idleIterator.id;
      idleIterator := Next(conns, c);
      RemoveConnection(c);
    }

    // -------------------------------------------------------------------------
    // The timed drop
    // -------------------------------------------------------------------------

    /** `dropConnectionsRound`; `spent` is how long the round took, the result what is scheduled next. */
    method DropConnectionsRound(target: nat, timeRemaining: int, roundInterval: nat, spent: nat)
      returns (next: NextRound)
      requires roundInterval > 0 && |conns| < MAX_COUNT
      modifies this
      ensures (View(), next) == DropRound(old(View()), target, timeRemaining, roundInterval, spent)
      ensures shutdownDrainStarted == old(shutdownDrainStarted) && shutdownDrainStartCount == old(shutdownDrainStartCount)
    {
      hide DropSchedule.CeilDiv, DropSchedule.ShareOf, DropFront;
      next := NoRound;
      if |conns| <= target { return; }
      var connectionsToDrop := |conns| - target;
      if timeRemaining <= 0 {
        DropConnections(connectionsToDrop);
        return;
      }
      var roundsRemaining := DropSchedule.RoundsRemaining(timeRemaining, roundInterval);
      if roundsRemaining == 0 {
        return DividedByZero;
      }
      var connsThisRound := DropSchedule.ShareOf(connectionsToDrop, roundsRemaining);
      DropConnections(connsThisRound);
      if target < |conns| {
        next := RoundIn(DropSchedule.TimeLeft(timeRemaining, roundInterval, spent));
      }
    }

    /** `dropConnections(pct, dropDuration, roundInterval)` */
    method DropConnectionsTimed(pct: real, dropDuration: int, roundInterval: int, spent: nat) returns (next: NextRound)
      requires |conns| < MAX_COUNT
      modifies this
      ensures var p := DropSchedule.PercentPlan(|old(conns)|, pct, dropDuration, roundInterval);
              (View(), next) == CarryOut(old(View()), p, dropDuration, roundInterval, spent)
    {
      hide DropRound, DropFront;
      var numToDrop := DropSchedule.Share(|conns|, pct);
      next := NoRound;
      if dropDuration <= 0 {
        DropConnections(numToDrop);
        return;
      }
      if numToDrop <= 0 || roundInterval <= 0 { return; }
      next := DropConnectionsRound(|conns| - numToDrop, dropDuration, roundInterval, spent);
    }

    /** `dropToRetainFraction`: the count of the first call is what every fraction is taken of. */
    method DropToRetainFraction(fraction: real, dropDuration: int, roundInterval: int, spent: nat)
      returns (next: NextRound)
      requires |conns| < MAX_COUNT
      modifies this
      ensures shutdownDrainStarted
      ensures shutdownDrainStartCount == if old(shutdownDrainStarted) then old(shutdownDrainStartCount) else |old(conns)|
      ensures var p := DropSchedule.RetainPlan(shutdownDrainStartCount, |old(conns)|, fraction, dropDuration, roundInterval);
              (View(), next) == CarryOut(old(View()), p, dropDuration, roundInterval, spent)
    {
      hide DropRound, DropFront;
      if !shutdownDrainStarted {
        shutdownDrainStartCount := |conns|;
        shutdownDrainStarted := true;
      }
      var target := DropSchedule.Share(shutdownDrainStartCount, fraction);
      next := NoRound;
      if |conns| <= target { return; }
      if dropDuration <= 0 || roundInterval <= 0 {
        DropConnections(|conns| - target);
        return;
      }
      next := DropConnectionsRound(target, dropDuration, roundInterval, spent);
    }

    // -------------------------------------------------------------------------
    // The drain
    // -------------------------------------------------------------------------

    method FireNotifyPendingShutdown(c: ConnId, r: Reaction)
      modifies `sent, `conns, `idleIterator, `drainIterator, `idleConnections, `activation, `since, `clock
      ensures View() == FireNotify(old(View()), c, r)
    {
      hide React;
      if c !in sent || sent[c] == NotTold {
        sent := sent[c := SentNotifyPendingShutdown];
        RunCallback(c, r);
      }
    }

    method FireCloseWhenIdle(c: ConnId, forceToClose: bool, r: Reaction)
      modifies `sent, `conns, `idleIterator, `drainIterator, `idleConnections, `activation, `since, `clock
      ensures View() == FireClose(old(View()), c, forceToClose, r)
    {
      hide React;
      if forceToClose || (c in sent && sent[c] == SentNotifyPendingShutdown) {
        sent := sent[c := SentCloseWhenIdle];
        RunCallback(c, r);
      }
    }

    method LinkFront(c: ConnId)
      requires c !in conns
      modifies `conns, `activation, `since, `clock
      ensures List() == Add(old(List()), c)
    {
      activation := activation[c := Active];
      conns := [c] + conns;
      since, clock := since[c := clock], clock + 1;
    }

    /** `addConnection` of a connection no manager holds. */
    method AddConnection(c: ConnId, r: Reaction)
      requires c !in conns
      modifies this
      ensures View() == Drain.AddConnection(old(View()), c, r)
    {
      hide FireNotify, Add;
      LinkFront(c);
      if Rank(shutdownState) >= Rank(Notifying) && notifyPendingShutdown {
        FireNotifyPendingShutdown(c, r);
      }
      if Rank(shutdownState) >= Rank(Closing) {
        deferredCloses := deferredCloses + [c];
      }
    }

    /** One batch of `drainConnections`: at most 64 connections, then the next step is scheduled. */
    method DrainConnections(rs: nat -> Reaction)
      requires MayDrain(View())
      modifies this
      ensures View() == DrainBatch(old(View()), rs)
    {
      hide Process, Next;
      var it := drainIterator;
      var n := 0;
      while it != End && n < BATCH
        invariant 0 <= n <= BATCH
        invariant Walk(View(), it, n, rs) == Walk(old(View()), old(drainIterator), 0, rs)
        invariant shutdownState == old(shutdownState) && timerScheduled == old(timerScheduled)
        decreases BATCH - n
      {
        var c := it.id;
        it := Next(conns, c);
        ProcessConnection(c, rs(n));
        n := n + 1;
      }
      drainIterator := it;
      if it != End {
        loopScheduled := true;
      } else if shutdownState == Notifying {
        shutdownState := NotifyComplete;
        if !timerScheduled {
          shutdownState := Closing;
          drainIterator := Begin(conns);
          loopScheduled := true;
        }
      } else {
        shutdownState := CloseComplete;
      }
    }

    method ProcessConnection(c: ConnId, r: Reaction)
      modifies `sent, `conns, `idleIterator, `drainIterator, `idleConnections, `activation, `since, `clock
      ensures View() == Process(old(View()), c, r)
    {
      hide FireNotify, FireClose;
      if shutdownState == Notifying {
        FireNotifyPendingShutdown(c, r);
      } else {
        FireCloseWhenIdle(c, !notifyPendingShutdown, r);
      }
    }

    method InitiateGracefulShutdown(idleGrace: nat, rs: nat -> Reaction)
      modifies this
      ensures View() == StartDrain(old(View()), idleGrace > 0, rs)
    {
      hide DrainBatch;
      if shutdownState != NoShutdown { return; }
      if idleGrace > 0 {
        shutdownState, timerScheduled := Notifying, true;
      } else {
        notifyPendingShutdown := false;
        shutdownState := Closing;
      }
      drainIterator := Begin(conns);
      DrainConnections(rs);
    }

    method RunLoopCallback(rs: nat -> Reaction)
      requires loopScheduled && MayDrain(View())
      modifies this
      ensures View() == Drain.RunLoopCallback(old(View()), rs)
    {
      hide DrainBatch;
      loopScheduled := false;
      DrainConnections(rs);
    }

    method IdleGracefulTimeoutExpired(rs: nat -> Reaction)
      requires timerScheduled
      modifies this
      ensures View() == FireTimer(old(View()), rs)
    {
      hide DrainBatch;
      timerScheduled := false;
      if shutdownState == NotifyComplete {
        shutdownState := Closing;
        drainIterator := Begin(conns);
        DrainConnections(rs);
      }
    }

    /** The close that `addConnection` deferred to the end of the loop. */
    method RunDeferredClose(r: Reaction)
      requires deferredCloses != []
      modifies this
      ensures View() == Drain.RunDeferredClose(old(View()), r)
    {
      hide FireClose;
      var c := deferredCloses[0];
      deferredCloses := deferredCloses[1..];
      if c in conns {
        FireCloseWhenIdle(c, !notifyPendingShutdown, r);
      }
    }
  }

  lemma RemoveHeadList(l: Conns)
    requires l.list != []
    ensures Remove(l, l.list[0]).list == l.list[1..]
  {
    EraseHead(l.list);
  }

  lemma {:induction false} DropFrontStops(l: Conns, n: nat)
    ensures DropFront(l, n) == DropFront(l, Min(|l.list|, n))
    decreases n
  {
    hide Remove;
    if n > 0 && l.list != [] {
      RemoveHeadList(l);
      DropFrontStops(Remove(l, l.list[0]), n - 1);
    }
  }

  lemma ShedOne(l: Conns, num: nat, threshold: nat, idleTime: ConnId -> nat)
    requires num > 0 && IdlePart(l) != [] && idleTime(IdlePart(l)[0]) > threshold
    ensures Min(num, OverThreshold(IdlePart(l), threshold, idleTime))
            == 1 + Min(num - 1, OverThreshold(IdlePart(l)[1..], threshold, idleTime))
  {
  }

  lemma ShedNoMore(l: Conns, num: nat, threshold: nat, idleTime: ConnId -> nat)
    requires Partition(l)
    requires num == 0 || l.idleIt == End || idleTime(l.idleIt.id) <= threshold
    ensures Min(num, OverThreshold(IdlePart(l), threshold, idleTime)) == 0
  {
    SplitOf(l.list, l.idleIt);
  }
}
