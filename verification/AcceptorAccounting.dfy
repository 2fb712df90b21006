/**
 The acceptor's accounting of pending handshakes and its shutdown. Everything
 here runs on one event loop, so an event is a whole callback with the calls it
 makes in turn; a failed CHECK or a use of the reset connection manager sets
 `fault`.

 Which connection is at the front of the manager's list is left open: events
 name the connections they drop. The user's `onNewConnection` may register one
 new connection.
 */
module AcceptorAccounting {

  type ConnId = nat

  datatype Phase = Running | Draining | Done

  datatype Acceptor = Acceptor(
    phase: Phase,
    manager: bool,                 // downstreamConnectionManager_ is set
    conns: set<ConnId>,            // the connection manager's list
    managed: set<ConnId>,          // connections whose manager pointer is set
    handshakes: set<ConnId>,       // live AcceptorHandshakeManagers
    pending: nat,                  // numPendingSSLConns_
    max: nat,                      // maxConcurrentSSLHandshakes
    force: bool,                   // forceShutdownInProgress_
    handed: seq<(ConnId, Phase)>,  // calls of onNewConnection, with the phase they were made in
    fault: bool)

  function Start(max: nat): (s: Acceptor) {
    Acceptor(Running, true, {}, {}, {}, 0, max, false, [], false)
  }

  /** What the user's handler registers when it is given a connection. */
  datatype Added = Nothing | New(id: ConnId)

  // ---------------------------------------------------------------------------
  // The calls
  // ---------------------------------------------------------------------------

  function CheckIfDrained(s: Acceptor): (s': Acceptor) {
    if s.phase != Draining then s.(fault := true)
    else if s.force || (s.manager && s.conns != {}) || s.pending != 0 then s
    else s.(manager := false, phase := Done)
  }

  /** `onEmpty`, and the same test at the end of the handshake callbacks. */
  function WhenDraining(s: Acceptor): (s': Acceptor) {
    if s.phase == Draining then CheckIfDrained(s) else s
  }

  /** `getConnectionManager()->addConnection(c)` */
  function AddConnection(s: Acceptor, c: ConnId): (s': Acceptor) {
    if !s.manager then s.(fault := true)
    else s.(conns := s.conns + {c}, managed := s.managed + {c})
  }

  /** `getConnectionManager()->removeConnection(c)` */
  function RemoveConnection(s: Acceptor, c: ConnId): (s': Acceptor) {
    if !s.manager then s.(fault := true)
    else if c !in s.managed then s
    else
      var t := s.(managed := s.managed - {c});
      if c !in t.conns then t
      else
        var u := t.(conns := t.conns - {c});
        if u.conns == {} then WhenDraining(u) else u
  }

  function ConnectionReady(s: Acceptor, c: ConnId, added: Added): (s': Acceptor) {
    if s.phase != Running then s
    else
      var t := s.(handed := s.handed + [(c, s.phase)]);
      if added.New? then AddConnection(t, added.id) else t
  }

  /** The CHECK and the decrement of numPendingSSLConns_. */
  function Decrement(s: Acceptor): (s': Acceptor) {
    if s.pending == 0 then s.(fault := true) else s.(pending := s.pending - 1)
  }

  function SslConnectionReady(s: Acceptor, c: ConnId, added: Added): (s': Acceptor) {
    WhenDraining(ConnectionReady(Decrement(s), c, added))
  }

  function SslConnectionError(s: Acceptor): (s': Acceptor) {
    WhenDraining(Decrement(s))
  }

  /** The terminal callback of a handshake: it leaves the list, signals the acceptor and destroys itself. */
  function HandshakeEnds(s: Acceptor, h: ConnId, ok: bool, added: Added): (s': Acceptor) {
    var t := RemoveConnection(s, h);
    var u := if ok then SslConnectionReady(t, h, added) else SslConnectionError(t);
    u.(handshakes := u.handshakes - {h})
  }

  /** `dropConnection` of a connection that has left the list: a handshake's helper signals synchronously. */
  function Dropped(s: Acceptor, c: ConnId, ok: bool, added: Added): (s': Acceptor) {
    if c in s.handshakes then HandshakeEnds(s, c, ok, added) else s
  }

  /** How a handshake's helper behaves inside `start`. */
  datatype Early = Later | AtOnce(ok: bool)

  /** `AcceptorHandshakeManager::start` */
  function StartHandshake(s: Acceptor, h: ConnId, early: Early, added: Added): (s': Acceptor) {
    var t := AddConnection(s, h).(handshakes := s.handshakes + {h});
    match early
    case AtOnce(ok) => HandshakeEnds(t, h, ok, added)
    case Later => if t.manager then t else t.(fault := true) // the handshake timer needs the manager
  }

  /** `processEstablishedConnection` */
  function AcceptOne(s: Acceptor, c: ConnId, secure: bool, early: Early, added: Added): (s': Acceptor) {
    if !secure then ConnectionReady(s, c, added)
    else
      var t := s.(pending := s.pending + 1);
      if t.pending > t.max then SslConnectionError(t) else StartHandshake(t, c, early, added)
  }

  function AcceptStopped(s: Acceptor): (s': Acceptor) {
    if s.phase == Done then s else CheckIfDrained(s.(phase := Draining))
  }

  datatype Victim = Victim(c: ConnId, ok: bool, added: Added)

  /** One turn of `ConnectionManager::dropConnections`. */
  function DropFront(s: Acceptor, v: Victim): (s': Acceptor) {
    Dropped(RemoveConnection(s, v.c), v.c, v.ok, v.added)
  }

  /** One turn of `ConnectionManager::dropAllConnections`: the connection is popped without a callback. */
  function PopFront(s: Acceptor, v: Victim): (s': Acceptor) {
    Dropped(s.(conns := s.conns - {v.c}, managed := s.managed - {v.c}), v.c, v.ok, v.added)
  }

  function PopAll(s: Acceptor, victims: seq<Victim>): (s': Acceptor)
    decreases |victims|
  {
    if victims == [] then s else PopAll(PopFront(s, victims[0]), victims[1..])
  }

  /** `dropAllConnections` */
  function DropAll(s: Acceptor, victims: seq<Victim>): (s': Acceptor) {
    var t :=
      if !s.manager then s
      else
        var u := WhenDraining(PopAll(s.(force := true), victims));
        if u.conns != {} || !u.manager then u.(fault := true) else u.(manager := false);
    if t.pending != 0 then t.(fault := true) else t.(phase := Done)
  }

  // ---------------------------------------------------------------------------
  // Runs
  // ---------------------------------------------------------------------------

  datatype Event =
    | Accept(c: ConnId, secure: bool, early: Early, added: Added)
    | Signal(h: ConnId, ok: bool, added: Added) // a handshake completes, times out or is shed
    | Close(c: ConnId)                          // an established connection ends
    | BeginDrop                                 // Acceptor::dropConnections
    | DropNext(v: Victim)
    | Stop                                      // acceptStopped
    | ForceStop(victims: seq<Victim>)

  predicate Fresh(s: Acceptor, c: ConnId) {
    c !in s.conns && c !in s.managed && c !in s.handshakes
  }

  predicate FreshAdd(s: Acceptor, added: Added, c: ConnId) {
    added.New? ==> Fresh(s, added.id) && added.id != c
  }

  predicate IsVictim(s: Acceptor, v: Victim) {
    v.c in s.conns && FreshAdd(s, v.added, v.c)
  }

  /** The loop of `dropAllConnections` runs until the list is empty. */
  predicate EmptiesList(s: Acceptor, victims: seq<Victim>)
    decreases |victims|
  {
    if victims == [] then s.conns == {}
    else IsVictim(s, victims[0]) && EmptiesList(PopFront(s, victims[0]), victims[1..])
  }

  /** The server socket hands over no connection once the acceptor is done. */
  predicate Possible(s: Acceptor, e: Event) {
    match e
    case Accept(c, _, _, added) => s.phase != Done && Fresh(s, c) && FreshAdd(s, added, c)
    case Signal(h, _, added) => h in s.handshakes && FreshAdd(s, added, h)
    case Close(c) => c in s.conns && c !in s.handshakes
    case BeginDrop => s.manager
    case DropNext(v) => IsVictim(s, v)
    case Stop => true
    case ForceStop(victims) => if s.manager then EmptiesList(s.(force := true), victims) else victims == []
  }

  function Apply(s: Acceptor, e: Event): (s': Acceptor)
    requires Possible(s, e)
  {
    match e
    case Accept(c, secure, early, added) => AcceptOne(s, c, secure, early, added)
    case Signal(h, ok, added) => HandshakeEnds(s, h, ok, added)
    case Close(c) => RemoveConnection(s, c)
    case BeginDrop => s.(force := true)
    case DropNext(v) => DropFront(s, v)
    case Stop => AcceptStopped(s)
    case ForceStop(victims) => DropAll(s, victims)
  }

  predicate IsRun(s: Acceptor, events: seq<Event>)
    decreases |events|
  {
    events == [] || (Possible(s, events[0]) && IsRun(Apply(s, events[0]), events[1..]))
  }

  function After(s: Acceptor, events: seq<Event>): (s': Acceptor)
    requires IsRun(s, events)
    decreases |events|
  {
    if events == [] then s else After(Apply(s, events[0]), events[1..])
  }

  // ---------------------------------------------------------------------------
  // What every run keeps
  // ---------------------------------------------------------------------------

  predicate Inv(s: Acceptor) {
    && !s.fault
    && s.pending == |s.handshakes| && s.handshakes <= s.conns && s.conns == s.managed
    && (s.phase == Done <==> !s.manager)
    && (s.phase == Done ==> s.conns == {})
    && (s.phase == Draining && !s.force ==> s.conns != {}) && s.pending <= s.max
    && (forall i | 0 <= i < |s.handed| :: s.handed[i].1 == Running)
  }

  lemma CloseKeepsInv(s: Acceptor, c: ConnId)
    requires Inv(s) && c in s.conns && c !in s.handshakes
    ensures Inv(RemoveConnection(s, c))
  {
    if s.conns - {c} == {} {
      assert s.handshakes == {};
    }
  }

  /** A handshake outside the list still holds its count, so nothing is torn down under it. */
  lemma RemovalWaitsForTheCount(s: Acceptor, h: ConnId)
    requires Inv(s) && h in s.handshakes
    ensures RemoveConnection(s, h) == s.(conns := s.conns - {h}, managed := s.managed - {h})
  {
    assert s.pending > 0;
  }

  /** The accounting of one handshake that has left the list, up to its destruction. */
  predicate Leaving(s: Acceptor, h: ConnId) {
    && !s.fault && s.manager && s.phase != Done
    && h in s.handshakes && h !in s.conns && s.conns == s.managed
    && s.pending == |s.handshakes| && s.handshakes - {h} <= s.conns && s.pending <= s.max
    && (forall i | 0 <= i < |s.handed| :: s.handed[i].1 == Running)
  }

  lemma ErrorEndsIt(s: Acceptor, h: ConnId)
    requires Leaving(s, h)
    ensures var u := SslConnectionError(s); Inv(u.(handshakes := u.handshakes - {h}))
  {
    assert |s.handshakes - {h}| == |s.handshakes| - 1;
    if s.conns == {} {
      assert s.handshakes - {h} == {};
    }
  }

  lemma ReadyEndsIt(s: Acceptor, h: ConnId, added: Added)
    requires Leaving(s, h) && FreshAdd(s, added, h)
    ensures var u := SslConnectionReady(s, h, added); Inv(u.(handshakes := u.handshakes - {h}))
  {
    assert |s.handshakes - {h}| == |s.handshakes| - 1;
    if s.conns == {} {
      assert s.handshakes - {h} == {};
    }
  }

  lemma LeavingEnds(s: Acceptor, h: ConnId, ok: bool, added: Added)
    requires Leaving(s, h) && FreshAdd(s, added, h)
    ensures Inv(HandshakeEnds(s, h, ok, added))
  {
    hide Inv, SslConnectionError, SslConnectionReady;
    if ok { ReadyEndsIt(s, h, added); } else { ErrorEndsIt(s, h); }
  }

  lemma SignalKeepsInv(s: Acceptor, h: ConnId, ok: bool, added: Added)
    requires Inv(s) && h in s.handshakes && FreshAdd(s, added, h)
    ensures Inv(HandshakeEnds(s, h, ok, added))
  {
    hide SslConnectionError, SslConnectionReady, RemoveConnection;
    RemovalWaitsForTheCount(s, h);
    var t := RemoveConnection(s, h);
    if ok { ReadyEndsIt(t, h, added); } else { ErrorEndsIt(t, h); }
  }

  lemma AcceptKeepsInv(s: Acceptor, c: ConnId, secure: bool, early: Early, added: Added)
    requires Inv(s) && s.phase != Done && Fresh(s, c) && FreshAdd(s, added, c)
    ensures Inv(AcceptOne(s, c, secure, early, added))
  {
    if secure && s.pending + 1 <= s.max {
      hide HandshakeEnds;
      var t := AddConnection(s.(pending := s.pending + 1), c).(handshakes := s.handshakes + {c});
      assert Inv(t);
      if early.AtOnce? {
        SignalKeepsInv(t, c, early.ok, added);
      }
    }
  }

  lemma DropFrontKeepsInv(s: Acceptor, v: Victim)
    requires Inv(s) && IsVictim(s, v)
    ensures Inv(DropFront(s, v))
  {
    hide HandshakeEnds;
    if v.c in s.handshakes {
      RemovalWaitsForTheCount(s, v.c);
      LeavingEnds(RemoveConnection(s, v.c), v.c, v.ok, v.added);
    } else {
      CloseKeepsInv(s, v.c);
    }
  }

  lemma PopFrontKeepsInv(s: Acceptor, v: Victim)
    requires Inv(s) && IsVictim(s, v) && s.force
    ensures Inv(PopFront(s, v)) && PopFront(s, v).force && PopFront(s, v).manager
  {
    var t := s.(conns := s.conns - {v.c}, managed := s.managed - {v.c});
    if v.c in s.handshakes {
      LeavingEnds(t, v.c, v.ok, v.added);
    }
  }

  lemma {:induction false} PopAllKeepsInv(s: Acceptor, victims: seq<Victim>)
    requires Inv(s) && s.force && s.manager && EmptiesList(s, victims)
    ensures var u := PopAll(s, victims); Inv(u) && u.force && u.manager && u.conns == {}
    decreases |victims|
  {
    hide Inv, PopFront;
    if victims != [] {
      PopFrontKeepsInv(s, victims[0]);
      PopAllKeepsInv(PopFront(s, victims[0]), victims[1..]);
    }
  }

  lemma ForceStopKeepsInv(s: Acceptor, victims: seq<Victim>)
    requires Inv(s) && Possible(s, ForceStop(victims))
    ensures Inv(DropAll(s, victims)) && DropAll(s, victims).phase == Done
  {
    hide PopAll, EmptiesList;
    if s.manager {
      PopAllKeepsInv(s.(force := true), victims);
    }
  }

  lemma StepKeepsInv(s: Acceptor, e: Event)
    requires Inv(s) && Possible(s, e)
    ensures Inv(Apply(s, e))
  {
    hide AcceptOne, HandshakeEnds, RemoveConnection, DropFront, DropAll;
    match e
    case Accept(c, secure, early, added) => AcceptKeepsInv(s, c, secure, early, added);
    case Signal(h, ok, added) => SignalKeepsInv(s, h, ok, added);
    case Close(c) => CloseKeepsInv(s, c);
    case BeginDrop =>
    case DropNext(v) => DropFrontKeepsInv(s, v);
    case Stop =>
    case ForceStop(victims) => ForceStopKeepsInv(s, victims);
  }

  lemma {:induction false} RunKeepsInv(s: Acceptor, events: seq<Event>)
    requires Inv(s) && IsRun(s, events)
    ensures Inv(After(s, events))
    decreases |events|
  {
    hide Inv, Apply, Possible;
    if events != [] {
      StepKeepsInv(s, events[0]);
      RunKeepsInv(Apply(s, events[0]), events[1..]);
    }
  }

  lemma {:induction false} LimitIsFixed(s: Acceptor, events: seq<Event>)
    requires IsRun(s, events)
    ensures After(s, events).max == s.max
    decreases |events|
  {
    hide Apply, Possible;
    if events != [] {
      StepKeepsLimit(s, events[0]);
      LimitIsFixed(Apply(s, events[0]), events[1..]);
    }
  }

  lemma EndKeepsLimit(s: Acceptor, h: ConnId, ok: bool, added: Added)
    ensures RemoveConnection(s, h).max == s.max && HandshakeEnds(s, h, ok, added).max == s.max
  {
    assert RemoveConnection(s, h).max == s.max;
    hide RemoveConnection;
  }

  lemma StepKeepsLimit(s: Acceptor, e: Event)
    requires Possible(s, e)
    ensures Apply(s, e).max == s.max
  {
    hide HandshakeEnds, RemoveConnection, PopAll;
    match e
    case Accept(c, secure, early, added) =>
      if secure && early.AtOnce? {
        EndKeepsLimit(AddConnection(s.(pending := s.pending + 1), c).(handshakes := s.handshakes + {c}), c, early.ok, added);
      }
    case Signal(h, ok, added) => EndKeepsLimit(s, h, ok, added);
    case Close(c) => EndKeepsLimit(s, c, false, Nothing);
    case DropNext(v) =>
      EndKeepsLimit(s, v.c, v.ok, v.added);
      EndKeepsLimit(RemoveConnection(s, v.c), v.c, v.ok, v.added);
    case ForceStop(victims) => PopAllKeepsLimit(s.(force := true), victims);
    case BeginDrop =>
    case Stop =>
  }

  lemma {:induction false} PopAllKeepsLimit(s: Acceptor, victims: seq<Victim>)
    ensures PopAll(s, victims).max == s.max
    decreases |victims|
  {
    hide HandshakeEnds;
    if victims != [] {
      var v := victims[0];
      EndKeepsLimit(s.(conns := s.conns - {v.c}, managed := s.managed - {v.c}), v.c, v.ok, v.added);
      PopAllKeepsLimit(PopFront(s, v), victims[1..]);
    }
  }

  /**
   The accounting of every run: no CHECK fires and the reset manager is never
   used; the counter is the number of live handshakes, all of them listed and no
   more than the limit; the
   acceptor is done only with no connection and no handshake left; no connection
   was handed over after draining began; and a drain without forced drops never
   stays behind an empty list.
   */
  lemma EveryRunAccounts(max: nat, events: seq<Event>)
    requires IsRun(Start(max), events)
    ensures var s := After(Start(max), events);
            && !s.fault && s.pending == |s.handshakes| <= max && s.handshakes <= s.conns
            && (s.conns != {} ==> s.manager)
            && (s.phase == Done ==> s.conns == {} && s.handshakes == {} && s.pending == 0)
            && (forall i | 0 <= i < |s.handed| :: s.handed[i].1 == Running)
            && (s.phase == Draining && s.conns == {} ==> s.force)
  {
    RunKeepsInv(Start(max), events);
    LimitIsFixed(Start(max), events);
  }

  // ---------------------------------------------------------------------------
  // What is listed, in progress and handed over
  // ---------------------------------------------------------------------------

  function Ids(added: Added): (s: set<ConnId>) {
    if added.New? then {added.id} else {}
  }

  /** The connections an event hands to the user: plaintext ones, and handshakes that succeed, while running. */
  function HandedBy(s: Acceptor, e: Event): (cs: seq<ConnId>)
    decreases e
  {
    if s.phase != Running then []
    else match e
      case Accept(c, secure, early, _) => if !secure || (s.pending < s.max && early == AtOnce(true)) then [c] else []
      case Signal(h, ok, _) => if ok then [h] else []
      case DropNext(v) => if v.c in s.handshakes && v.ok then [v.c] else []
      case ForceStop(victims) => SucceedingVictims(s.handshakes, victims)
      case _ => []
  }

  /** A forced stop hands over the handshakes that succeed when they are dropped. */
  function SucceedingVictims(handshakes: set<ConnId>, victims: seq<Victim>): (cs: seq<ConnId>) {
    if victims == [] then []
    else
      var v := victims[0];
      (if v.c in handshakes && v.ok then [v.c] else []) + SucceedingVictims(handshakes - {v.c}, victims[1..])
  }

  /** The list after an event: who came, who went, and whom the user added for a connection handed over. */
  function ListAfter(s: Acceptor, e: Event): (cs: set<ConnId>) {
    var handed := HandedBy(s, e) != [];
    match e
    case Accept(c, secure, early, added) =>
      if handed then s.conns + Ids(added)
      else if secure && s.pending < s.max && early == Later then s.conns + {c}
      else s.conns
    case Signal(h, _, added) => s.conns - {h} + if handed then Ids(added) else {}
    case Close(c) => s.conns - {c}
    case DropNext(v) => s.conns - {v.c} + if handed then Ids(v.added) else {}
    case ForceStop(_) => {}
    case _ => s.conns
  }

  function HandshakesAfter(s: Acceptor, e: Event): (hs: set<ConnId>) {
    match e
    case Accept(c, secure, early, _) =>
      if secure && s.pending < s.max && early == Later then s.handshakes + {c} else s.handshakes
    case Signal(h, _, _) => s.handshakes - {h}
    case DropNext(v) => s.handshakes - {v.c}
    case ForceStop(_) => {}
    case _ => s.handshakes
  }

  function HandedIds(s: Acceptor): (cs: seq<ConnId>) {
    seq(|s.handed|, i requires 0 <= i < |s.handed| => s.handed[i].0)
  }

  /** What the end of a handshake does, once it has left the list. */
  predicate Ended(s: Acceptor, s': Acceptor, h: ConnId, ok: bool, added: Added) {
    var taken := ok && s.phase == Running;
    && s'.conns == s.conns + (if taken then Ids(added) else {})
    && s'.handshakes == s.handshakes - {h}
    && s'.handed == s.handed + (if taken then [(h, Running)] else [])
    && (s.phase == Running ==> s'.phase == Running)
  }

  lemma LeavingIsEnded(s: Acceptor, h: ConnId, ok: bool, added: Added)
    requires Leaving(s, h)
    ensures Ended(s, HandshakeEnds(s, h, ok, added), h, ok, added)
  {
  }

  lemma SignalIsEnded(s: Acceptor, h: ConnId, ok: bool, added: Added)
    requires Inv(s) && h in s.handshakes
    ensures Ended(s.(conns := s.conns - {h}), HandshakeEnds(s, h, ok, added), h, ok, added)
  {
    hide RemoveConnection;
    RemovalWaitsForTheCount(s, h);
  }

  lemma AcceptFollows(s: Acceptor, c: ConnId, secure: bool, early: Early, added: Added)
    requires Inv(s) && s.phase != Done && Fresh(s, c) && FreshAdd(s, added, c)
    ensures Follows(s, Accept(c, secure, early, added))
  {
    hide HandshakeEnds, SslConnectionError;
    var e := Accept(c, secure, early, added);
    if secure && s.pending + 1 > s.max {
      assert SslConnectionError(s.(pending := s.pending + 1)) == s by { RefusalChangesNothing(s); }
    } else if secure {
      var t := AddConnection(s.(pending := s.pending + 1), c).(handshakes := s.handshakes + {c});
      if early.AtOnce? {
        SignalIsEnded(t, c, early.ok, added);
        assert s.conns + {c} - {c} == s.conns && s.handshakes + {c} - {c} == s.handshakes;
      }
    }
    HandedIdsAppend(s, Apply(s, e), HandedBy(s, e));
  }

  /** A secure connection over the limit is refused without a trace. */
  lemma RefusalChangesNothing(s: Acceptor)
    requires Inv(s) && s.phase != Done
    ensures SslConnectionError(s.(pending := s.pending + 1)) == s
  {
  }

  lemma HandedIdsAppend(s: Acceptor, s': Acceptor, more: seq<ConnId>)
    requires s'.handed == s.handed + seq(|more|, i requires 0 <= i < |more| => (more[i], Running))
    ensures HandedIds(s') == HandedIds(s) + more
  {
  }

  /** The event does to list, handshakes and hand-over what the three references say. */
  predicate Follows(s: Acceptor, e: Event)
    requires Possible(s, e)
  {
    var s' := Apply(s, e);
    && s'.conns == ListAfter(s, e) && s'.handshakes == HandshakesAfter(s, e)
    && HandedIds(s') == HandedIds(s) + HandedBy(s, e)
  }

  lemma CloseFollows(s: Acceptor, c: ConnId)
    requires Inv(s) && c in s.conns && c !in s.handshakes
    ensures Follows(s, Close(c))
  {
    HandedIdsAppend(s, RemoveConnection(s, c), []);
  }

  lemma SignalFollows(s: Acceptor, h: ConnId, ok: bool, added: Added)
    requires Inv(s) && h in s.handshakes && FreshAdd(s, added, h)
    ensures Follows(s, Signal(h, ok, added))
  {
    hide HandshakeEnds;
    var e := Signal(h, ok, added);
    SignalIsEnded(s, h, ok, added);
    HandedIdsAppend(s, Apply(s, e), HandedBy(s, e));
  }

  lemma DropFollows(s: Acceptor, v: Victim)
    requires Inv(s) && IsVictim(s, v)
    ensures Follows(s, DropNext(v))
  {
    hide HandshakeEnds;
    var e := DropNext(v);
    if v.c in s.handshakes {
      RemovalWaitsForTheCount(s, v.c);
      LeavingIsEnded(RemoveConnection(s, v.c), v.c, v.ok, v.added);
    }
    HandedIdsAppend(s, Apply(s, e), HandedBy(s, e));
  }

  lemma PopHands(s: Acceptor, v: Victim)
    requires Inv(s) && IsVictim(s, v) && s.force
    ensures var s' := PopFront(s, v);
            && s'.handshakes == s.handshakes - {v.c} && (s.phase == Running ==> s'.phase == Running)
            && HandedIds(s') ==
               HandedIds(s) + if s.phase == Running && v.c in s.handshakes && v.ok then [v.c] else []
  {
    hide HandshakeEnds;
    if v.c in s.handshakes {
      LeavingIsEnded(s.(conns := s.conns - {v.c}, managed := s.managed - {v.c}), v.c, v.ok, v.added);
    }
    HandedIdsAppend(s, PopFront(s, v), if s.phase == Running && v.c in s.handshakes && v.ok then [v.c] else []);
  }

  lemma {:induction false} PopAllHands(s: Acceptor, victims: seq<Victim>)
    requires Inv(s) && s.force && s.manager && EmptiesList(s, victims)
    ensures s.phase == Running ==>
              HandedIds(PopAll(s, victims)) == HandedIds(s) + SucceedingVictims(s.handshakes, victims)
    ensures s.phase != Running ==> HandedIds(PopAll(s, victims)) == HandedIds(s)
    decreases |victims|
  {
    hide Inv, PopFront, HandedIds;
    if victims != [] {
      var v := victims[0];
      var s' := PopFront(s, v);
      PopFrontKeepsInv(s, v);
      PopHands(s, v);
      if s.phase != Running { PopNeverRestarts(s, v); }
      PopAllHands(s', victims[1..]);
    }
  }

  lemma EndNeverRestarts(s: Acceptor, h: ConnId, ok: bool, added: Added)
    requires s.phase != Running
    ensures RemoveConnection(s, h).phase != Running && HandshakeEnds(s, h, ok, added).phase != Running
  {
    assert RemoveConnection(s, h).phase != Running;
    hide RemoveConnection;
  }

  lemma PopNeverRestarts(s: Acceptor, v: Victim)
    requires s.phase != Running
    ensures PopFront(s, v).phase != Running
  {
    hide HandshakeEnds;
    EndNeverRestarts(s.(conns := s.conns - {v.c}, managed := s.managed - {v.c}), v.c, v.ok, v.added);
  }

  lemma ForceStopFollows(s: Acceptor, victims: seq<Victim>)
    requires Inv(s) && Possible(s, ForceStop(victims))
    ensures Follows(s, ForceStop(victims))
  {
    hide PopAll, EmptiesList, HandedIds, SucceedingVictims;
    if s.manager {
      var t := s.(force := true);
      PopAllKeepsInv(t, victims);
      PopAllHands(t, victims);
      SameHanded(s, t);
      SameHanded(PopAll(t, victims), DropAll(s, victims));
    } else {
      SameHanded(s, DropAll(s, victims));
    }
  }

  lemma SameHanded(s: Acceptor, s': Acceptor)
    requires s'.handed == s.handed
    ensures HandedIds(s') == HandedIds(s)
  {
  }

  lemma StepFollows(s: Acceptor, e: Event)
    requires Inv(s) && Possible(s, e)
    ensures Follows(s, e)
  {
    hide Inv, Follows;
    match e
    case Accept(c, secure, early, added) => AcceptFollows(s, c, secure, early, added);
    case Signal(h, ok, added) => SignalFollows(s, h, ok, added);
    case Close(c) => CloseFollows(s, c);
    case DropNext(v) => DropFollows(s, v);
    case ForceStop(victims) => ForceStopFollows(s, victims);
    case BeginDrop => QuietStepFollows(s, e);
    case Stop => QuietStepFollows(s, e);
  }

  lemma QuietStepFollows(s: Acceptor, e: Event)
    requires Inv(s) && Possible(s, e) && (e == BeginDrop || e == Stop)
    ensures Follows(s, e)
  {
    SameHanded(s, Apply(s, e));
  }

  /** The connections due to the user over a run, in order. */
  function HandedOver(s: Acceptor, events: seq<Event>): (cs: seq<ConnId>)
    requires IsRun(s, events)
    decreases |events|
  {
    if events == [] then [] else HandedBy(s, events[0]) + HandedOver(Apply(s, events[0]), events[1..])
  }

  /**
   On every run exactly these are handed over, in this order and once each: the
   connections accepted in plaintext and the handshakes that succeed, while the
   acceptor is running.
   */
  lemma {:induction false} EveryRunHandsOver(s: Acceptor, events: seq<Event>)
    requires Inv(s) && IsRun(s, events)
    ensures HandedIds(After(s, events)) == HandedIds(s) + HandedOver(s, events)
    decreases |events|
  {
    hide Inv, Apply, Possible, HandedIds, HandedBy;
    if events != [] {
      var s' := Apply(s, events[0]);
      StepKeepsInv(s, events[0]);
      StepFollows(s, events[0]);
      EveryRunHandsOver(s', events[1..]);
    }
  }

  lemma StepNeverRestarts(s: Acceptor, e: Event)
    requires s.phase != Running && Possible(s, e)
    ensures Apply(s, e).phase != Running
  {
    hide HandshakeEnds, RemoveConnection, PopAll;
    match e
    case Accept(c, secure, early, added) =>
      if secure && early.AtOnce? {
        var t := AddConnection(s.(pending := s.pending + 1), c).(handshakes := s.handshakes + {c});
        EndNeverRestarts(t, c, early.ok, added);
      }
    case Signal(h, ok, added) => EndNeverRestarts(s, h, ok, added);
    case Close(c) => EndNeverRestarts(s, c, false, Nothing);
    case DropNext(v) =>
      EndNeverRestarts(s, v.c, v.ok, v.added);
      EndNeverRestarts(RemoveConnection(s, v.c), v.c, v.ok, v.added);
    case ForceStop(victims) => PopAllNeverRestarts(s.(force := true), victims);
    case BeginDrop =>
    case Stop =>
  }

  lemma {:induction false} PopAllNeverRestarts(s: Acceptor, victims: seq<Victim>)
    requires s.phase != Running
    ensures PopAll(s, victims).phase != Running
    decreases |victims|
  {
    hide PopFront;
    if victims != [] {
      PopNeverRestarts(s, victims[0]);
      PopAllNeverRestarts(PopFront(s, victims[0]), victims[1..]);
    }
  }

  lemma {:induction false} NothingDueOnceStopped(s: Acceptor, events: seq<Event>)
    requires s.phase != Running && IsRun(s, events)
    ensures HandedOver(s, events) == [] && After(s, events).phase != Running
    decreases |events|
  {
    hide Apply, Possible;
    if events != [] {
      StepNeverRestarts(s, events[0]);
      NothingDueOnceStopped(Apply(s, events[0]), events[1..]);
    }
  }

  /**
   Stopping: the acceptor is done at once exactly if nothing is listed and no
   forced drop began, else it drains; and from then on nothing is handed over, in
   any run.
   */
  lemma StopIsFinal(s: Acceptor, events: seq<Event>)
    requires Inv(s) && IsRun(Apply(s, Stop), events)
    ensures var t := Apply(s, Stop);
            && t.phase == (if s.phase == Done || (s.conns == {} && !s.force) then Done else Draining)
            && HandedIds(After(t, events)) == HandedIds(s)
  {
    hide IsRun, After, HandedOver;
    var t := Apply(s, Stop);
    if s.conns == {} { assert s.handshakes == {}; }
    StepKeepsInv(s, Stop);
    SameHanded(s, t);
    NothingDueOnceStopped(t, events);
    EveryRunHandsOver(t, events);
  }

  // ---------------------------------------------------------------------------
  // The exact conditions
  // ---------------------------------------------------------------------------

  /** A secure connection can be taken exactly while the acceptor is not done: afterwards its manager is gone. */
  lemma AcceptIsSafeIff(s: Acceptor, c: ConnId, early: Early, added: Added)
    requires Inv(s) && Fresh(s, c) && FreshAdd(s, added, c) && s.pending < s.max
    ensures AcceptOne(s, c, true, early, added).fault <==> s.phase == Done
  {
    if s.phase != Done {
      AcceptKeepsInv(s, c, true, early, added);
    }
  }

  /**
   The end of the last connection, established or still a handshake that succeeds
   or fails, finishes a drain exactly if no forced drop ever began:
   `dropConnections` sets forceShutdownInProgress_ for good, and then only
   `dropAllConnections` ends the acceptor.
   */
  lemma DrainCompletesIff(s: Acceptor, c: ConnId, ok: bool, added: Added)
    requires Inv(s) && s.phase == Draining && s.conns == {c}
    ensures var s' := if c in s.handshakes then HandshakeEnds(s, c, ok, added) else RemoveConnection(s, c);
            s'.phase == Done <==> !s.force
  {
    assert s.conns - {c} == {};
    if c in s.handshakes {
      RemovalWaitsForTheCount(s, c);
      assert s.handshakes == {c};
    } else {
      assert s.handshakes == {};
    }
  }

  lemma RemovalIsForced(s: Acceptor, c: ConnId)
    requires s.force
    ensures RemoveConnection(s, c).force && RemoveConnection(s, c).manager == s.manager
  {
  }

  lemma EndIsForced(s: Acceptor, h: ConnId, ok: bool, added: Added)
    requires s.force
    ensures HandshakeEnds(s, h, ok, added).force && HandshakeEnds(s, h, ok, added).manager == s.manager
  {
    hide RemoveConnection;
    RemovalIsForced(s, h);
  }

  lemma ForceStays(s: Acceptor, e: Event)
    requires s.force && s.manager && Possible(s, e) && !e.ForceStop?
    ensures Apply(s, e).force && Apply(s, e).manager
  {
    hide HandshakeEnds, RemoveConnection;
    match e
    case Accept(c, secure, early, added) =>
      if secure && early.AtOnce? {
        var t := AddConnection(s.(pending := s.pending + 1), c).(handshakes := s.handshakes + {c});
        EndIsForced(t, c, early.ok, added);
      }
    case Signal(h, ok, added) => EndIsForced(s, h, ok, added);
    case Close(c) => RemovalIsForced(s, c);
    case DropNext(v) =>
      RemovalIsForced(s, v.c);
      EndIsForced(RemoveConnection(s, v.c), v.c, v.ok, v.added);
    case BeginDrop =>
    case Stop =>
  }

  /** From the beginning of a forced drop on, in any run. */
  lemma DroppingNeverFinishes(s: Acceptor, events: seq<Event>)
    requires Inv(s) && s.manager && IsRun(Apply(s, BeginDrop), events)
    requires forall i | 0 <= i < |events| :: !events[i].ForceStop?
    ensures After(Apply(s, BeginDrop), events).phase != Done
  {
    hide IsRun, After;
    StepKeepsInv(s, BeginDrop);
    ForceIsForGood(Apply(s, BeginDrop), events);
  }

  /** Without a forced stop, an acceptor that began to drop connections never finishes, in any run. */
  lemma {:induction false} ForceIsForGood(s: Acceptor, events: seq<Event>)
    requires Inv(s) && s.force && s.manager && IsRun(s, events)
    requires forall i | 0 <= i < |events| :: !events[i].ForceStop?
    ensures After(s, events).phase != Done
    decreases |events|
  {
    if events != [] {
      StepKeepsInv(s, events[0]);
      ForceStays(s, events[0]);
      hide Inv, Apply, Possible;
      ForceIsForGood(Apply(s, events[0]), events[1..]);
    }
  }
}
