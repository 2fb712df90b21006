/**
 EvbHandshakeHelper as an object whose fields the two loops update in place,
 with the queues of the two loops and the place of the transport. Each method is
 the code between two points where the other loop may run. The ghost field
 `protocol` is the state of the whole system; `Valid` ties every field to it, so
 each method is proved to change state, helper, guard and transport, to post its
 task and to call the observer exactly as one step of the protocol does.
 */
module EvbHandshakeObject {
  import opened EvbHandshake

  /** What of a state the object's fields show. */
  datatype Fields = Fields(
    state: HandshakeState, helper: Inner, guard: bool, transport: Transport, callbacks: seq<Outcome>,
    acceptorLoop: seq<AcceptorTask>, acceptorInbox: seq<AcceptorTask>,
    handshakeLoop: seq<HandshakeTask>, handshakeInbox: seq<HandshakeTask>)

  function FieldsOf(s: State): (f: Fields) {
    Fields(s.state, s.inner, s.guard, s.transport, s.heard,
           s.acceptorLoop, s.acceptorInbox, s.handshakeLoop, s.handshakeInbox)
  }

  lemma PostingShows(s: State)
    requires Enabled(s, DropPosts)
    ensures FieldsOf(Apply(s, DropPosts)) ==
            var f := FieldsOf(s);
            if s.drop.won then f.(handshakeInbox := f.handshakeInbox + [DropInner]) else f
  {
  }

  lemma InboxShows(s: State)
    requires Enabled(s, RunAcceptorInbox)
    ensures FieldsOf(Apply(s, RunAcceptorInbox)) ==
            var f, task := FieldsOf(s), s.acceptorInbox[0];
            var silent := task == ReleaseGuard || s.guard;
            f.(acceptorInbox := f.acceptorInbox[1..],
               transport := if task == Deliver(Ready) then Returned else f.transport,
               guard := f.guard && !silent,
               callbacks := if silent then f.callbacks else f.callbacks + [task.outcome])
  {
  }

  class EvbHandshakeHelper {
    var state: HandshakeState     // state_
    var helper: Inner             // helper_
    var dropConnectionGuard: bool // dropConnectionGuard_
    var transport: Transport
    var acceptorLoop: seq<AcceptorTask>
    var acceptorInbox: seq<AcceptorTask>
    var handshakeLoop: seq<HandshakeTask>
    var handshakeInbox: seq<HandshakeTask>
    var callbacks: seq<Outcome>   // calls of callback_, with what they report
    ghost var protocol: State

    ghost predicate Valid()
      reads this
    {
      FieldsOf(protocol) == Fields(state, helper, dropConnectionGuard, transport, callbacks,
                                   acceptorLoop, acceptorInbox, handshakeLoop, handshakeInbox)
    }

    constructor ()
      ensures Valid() && protocol == INITIAL
    {
      state, helper, dropConnectionGuard, transport := Invalid, NotStarted, false, OnAcceptor;
      acceptorLoop, acceptorInbox, handshakeLoop, handshakeInbox := [], [], [], [];
      callbacks := [];
      protocol := INITIAL;
    }

    /** compare_exchange_strong on `state_`: whether it won, and the state it found. */
    method TryTransition(expected: HandshakeState, next: HandshakeState) returns (won: bool, found: HandshakeState)
      modifies this`state
      ensures found == old(state) && (won <==> found == expected)
      ensures state == if won then next else found
    {
      found := state;
      won := found == expected;
      if won { state := next; }
    }

    /** `start`: the transport leaves the acceptor loop and the hop through that loop is posted. */
    method Start()
      requires Valid() && Enabled(protocol, CallStart)
      modifies `protocol, `state, `transport, `acceptorLoop
      ensures Valid() && protocol == Apply(old(protocol), CallStart)
    {
      protocol := Apply(protocol, CallStart);
      var _, _ := TryTransition(Invalid, Started);
      transport := TowardsHandshake;
      acceptorLoop := acceptorLoop + [PostStart];
    }

    /** The posted start on the acceptor loop: on to the handshake loop. */
    method RunPostStart()
      requires Valid() && Enabled(protocol, EvbHandshake.RunPostStart)
      modifies `protocol, `acceptorLoop, `handshakeInbox
      ensures Valid() && protocol == Apply(old(protocol), EvbHandshake.RunPostStart)
    {
      protocol := Apply(protocol, EvbHandshake.RunPostStart);
      acceptorLoop := acceptorLoop[1..];
      handshakeInbox := handshakeInbox + [StartInner];
    }

    /** The start task on the handshake loop: the transport is attached and the inner helper begins. */
    method StartInnerHelper()
      requires Valid() && Enabled(protocol, RunStartInner)
      modifies `protocol, `handshakeInbox, `transport, `helper
      ensures Valid() && protocol == Apply(old(protocol), RunStartInner)
    {
      protocol := Apply(protocol, RunStartInner);
      handshakeInbox := handshakeInbox[1..];
      transport := OnHandshake;
      helper := Running;
    }

    /** D, up to and including the compare-and-swap. */
    method DropConnection() returns (won: bool)
      requires Valid() && Enabled(protocol, CallDrop)
      modifies `protocol, `state
      ensures Valid() && protocol == Apply(old(protocol), CallDrop) && protocol.drop == Raced(won)
    {
      protocol := Apply(protocol, CallDrop);
      var w, _ := TryTransition(Started, Dropped);
      won := w;
    }

    /** D sets the guard, then calls the observer. */
    method DropConnectionNotify()
      requires Valid() && Enabled(protocol, DropNotifies)
      modifies `protocol, `dropConnectionGuard, `callbacks
      ensures Valid() && protocol == Apply(old(protocol), DropNotifies)
    {
      protocol := Apply(protocol, DropNotifies);
      dropConnectionGuard := true;
      callbacks := callbacks + [Error];
    }

    /** D posts D' if it won. */
    method DropConnectionPost(won: bool)
      requires Valid() && Enabled(protocol, DropPosts) && protocol.drop.won == won
      modifies `protocol, `handshakeInbox
      ensures Valid() && protocol == Apply(old(protocol), DropPosts)
    {
      hide Apply;
      PostingShows(protocol);
      protocol := Apply(protocol, DropPosts);
      if won {
        handshakeInbox := handshakeInbox + [DropInner];
      }
    }

    /** C: `connectionReady` or `connectionError`, up to the compare-and-swap; an ignored transport is destroyed. */
    method InnerCallback(o: Outcome) returns (won: bool)
      requires Valid() && Enabled(protocol, InnerCallsBack(o))
      modifies `protocol, `state, `helper, `transport
      ensures Valid() && protocol == Apply(old(protocol), InnerCallsBack(o))
      ensures won <==> protocol.pc == Won(o)
    {
      protocol := Apply(protocol, InnerCallsBack(o));
      helper := Signaled;
      var w, _ := TryTransition(Started, Callback);
      won := w;
      if !won && o == Ready {
        transport := Closed;
      }
    }

    /** The rest of a C that won: the ready path detaches and hops, the error path resets and posts. */
    method InnerCallbackPost(o: Outcome)
      requires Valid() && Enabled(protocol, FinishCallback) && protocol.pc == Won(o)
      modifies `protocol, `helper, `transport, `handshakeLoop, `acceptorInbox
      ensures Valid() && protocol == Apply(old(protocol), FinishCallback)
    {
      protocol := Apply(protocol, FinishCallback);
      match o
      case Ready =>
        transport := TowardsAcceptor;
        handshakeLoop := handshakeLoop + [ForwardReady];
      case Error =>
        helper := Destroyed;
        transport := Closed;
        acceptorInbox := acceptorInbox + [Deliver(Error)];
    }

    /** The hop of `connectionReady` on the handshake loop. */
    method RunForwardReady()
      requires Valid() && Enabled(protocol, EvbHandshake.RunForwardReady)
      modifies `protocol, `handshakeLoop, `acceptorInbox
      ensures Valid() && protocol == Apply(old(protocol), EvbHandshake.RunForwardReady)
    {
      protocol := Apply(protocol, EvbHandshake.RunForwardReady);
      handshakeLoop := handshakeLoop[1..];
      acceptorInbox := acceptorInbox + [Deliver(Ready)];
    }

    /** D' on the handshake loop: the inner drop, which calls back synchronously. */
    method DropInnerHelper()
      requires Valid() && Enabled(protocol, RunDropInner)
      modifies `protocol, `handshakeInbox, `helper
      ensures Valid() && protocol == Apply(old(protocol), RunDropInner)
    {
      protocol := Apply(protocol, RunDropInner);
      handshakeInbox := handshakeInbox[1..];
      helper := Signaled;
    }

    /** D' goes on: `helper_.reset()` destroys the transport with the inner helper. */
    method ResetInnerHelper()
      requires Valid() && Enabled(protocol, ResetInner)
      modifies `protocol, `helper, `transport
      ensures Valid() && protocol == Apply(old(protocol), ResetInner)
    {
      protocol := Apply(protocol, ResetInner);
      helper := Destroyed;
      transport := Closed;
    }

    /** D' ends by posting the release of the guard. */
    method PostGuardRelease()
      requires Valid() && Enabled(protocol, PostRelease)
      modifies `protocol, `acceptorInbox
      ensures Valid() && protocol == Apply(old(protocol), PostRelease)
    {
      protocol := Apply(protocol, PostRelease);
      acceptorInbox := acceptorInbox + [ReleaseGuard];
    }

    /** C' or the release after D': the transport is attached back, a set guard is cleared and silences the callback. */
    method RunAcceptorTask()
      requires Valid() && Enabled(protocol, RunAcceptorInbox)
      modifies `protocol, `acceptorInbox, `transport, `dropConnectionGuard, `callbacks
      ensures Valid() && protocol == Apply(old(protocol), RunAcceptorInbox)
    {
      hide Apply;
      InboxShows(protocol);
      protocol := Apply(protocol, RunAcceptorInbox);
      var task := acceptorInbox[0];
      acceptorInbox := acceptorInbox[1..];
      if task == Deliver(Ready) {
        transport := Returned;
      }
      if task == ReleaseGuard || dropConnectionGuard {
        dropConnectionGuard := false;
      } else {
        callbacks := callbacks + [task.outcome];
      }
    }
  }
}
