/**
 The acceptor and its handshake managers as an object whose methods change its
 fields in place; the specifications are the functions of the module
 AcceptorAccounting.
 */
module AcceptorObject {
  import opened AcceptorAccounting

  class Acceptor {
    const maxConcurrentSSLHandshakes: nat

    var state: Phase
    var manager: bool
    var conns: set<ConnId>
    var managed: set<ConnId>
    var handshakes: set<ConnId>
    var numPendingSSLConns: nat
    var forceShutdownInProgress: bool
    var handed: seq<(ConnId, Phase)>
    var fault: bool

    function View(): (s: AcceptorAccounting.Acceptor)
      reads this
    {
      AcceptorAccounting.Acceptor(state, manager, conns, managed, handshakes, numPendingSSLConns,
                                  maxConcurrentSSLHandshakes, forceShutdownInProgress, handed, fault)
    }

    constructor (max: nat)
      ensures View() == Start(max)
    {
      maxConcurrentSSLHandshakes := max;
      state, manager := Running, true;
      conns, managed, handshakes, numPendingSSLConns := {}, {}, {}, 0;
      forceShutdownInProgress, handed, fault := false, [], false;
    }

    method CheckIfDrained()
      modifies `state, `manager, `fault
      ensures View() == AcceptorAccounting.CheckIfDrained(old(View()))
    {
      if state != Draining {
        fault := true;
        return;
      }
      if forceShutdownInProgress || (manager && conns != {}) || numPendingSSLConns != 0 {
        return;
      }
      manager := false;
      state := Done;
    }

    method OnEmpty()
      modifies `state, `manager, `fault
      ensures View() == WhenDraining(old(View()))
    {
      if state == Draining {
        CheckIfDrained();
      }
    }

    method AddConnection(c: ConnId)
      modifies `conns, `managed, `fault
      ensures View() == AcceptorAccounting.AddConnection(old(View()), c)
    {
      if !manager {
        fault := true;
        return;
      }
      conns := conns + {c};
      managed := managed + {c};
    }

    method RemoveConnection(c: ConnId)
      modifies `conns, `managed, `state, `manager, `fault
      ensures View() == AcceptorAccounting.RemoveConnection(old(View()), c)
    {
      if !manager {
        fault := true;
        return;
      }
      if c !in managed {
        return;
      }
      managed := managed - {c};
      if c in conns {
        conns := conns - {c};
        if conns == {} {
          OnEmpty();
        }
      }
    }

    method ConnectionReady(c: ConnId, added: Added)
      modifies `conns, `managed, `handed, `fault
      ensures View() == AcceptorAccounting.ConnectionReady(old(View()), c, added)
    {
      if state == Draining || state == Done {
        return;
      }
      handed := handed + [(c, state)];
      if added.New? {
        AddConnection(added.id);
      }
    }

    method SslConnectionReady(c: ConnId, added: Added)
      modifies `conns, `managed, `state, `manager, `numPendingSSLConns, `handed, `fault
      ensures View() == AcceptorAccounting.SslConnectionReady(old(View()), c, added)
    {
      if numPendingSSLConns == 0 {
        fault := true;
      } else {
        numPendingSSLConns := numPendingSSLConns - 1;
      }
      ConnectionReady(c, added);
      if state == Draining {
        CheckIfDrained();
      }
    }

    method SslConnectionError()
      modifies `state, `manager, `numPendingSSLConns, `fault
      ensures View() == AcceptorAccounting.SslConnectionError(old(View()))
    {
      if numPendingSSLConns == 0 {
        fault := true;
      } else {
        numPendingSSLConns := numPendingSSLConns - 1;
      }
      if state == Draining {
        CheckIfDrained();
      }
    }

    /** `AcceptorHandshakeManager::connectionReady` and `connectionError`. */
    method EndHandshake(h: ConnId, ok: bool, added: Added)
      modifies `conns, `managed, `state, `manager, `numPendingSSLConns, `handed, `handshakes, `fault
      ensures View() == HandshakeEnds(old(View()), h, ok, added)
    {
      hide AcceptorAccounting.RemoveConnection, AcceptorAccounting.SslConnectionReady,
           AcceptorAccounting.SslConnectionError;
      RemoveConnection(h);
      if ok {
        SslConnectionReady(h, added);
      } else {
        SslConnectionError();
      }
      handshakes := handshakes - {h};
    }

    /** `AcceptorHandshakeManager::start` */
    method StartHandshakeManager(h: ConnId, early: Early, added: Added)
      modifies `conns, `managed, `state, `manager, `numPendingSSLConns, `handed, `handshakes, `fault
      ensures View() == StartHandshake(old(View()), h, early, added)
    {
      hide HandshakeEnds;
      AddConnection(h);
      handshakes := handshakes + {h};
      match early
      case AtOnce(ok) => EndHandshake(h, ok, added);
      case Later =>
        if !manager {
          fault := true;
        }
    }

    method ProcessEstablishedConnection(c: ConnId, secure: bool, early: Early, added: Added)
      modifies `conns, `managed, `state, `manager, `numPendingSSLConns, `handed, `handshakes, `fault
      ensures View() == AcceptOne(old(View()), c, secure, early, added)
    {
      hide StartHandshake, AcceptorAccounting.SslConnectionError, AcceptorAccounting.ConnectionReady;
      if secure {
        numPendingSSLConns := numPendingSSLConns + 1;
        if numPendingSSLConns > maxConcurrentSSLHandshakes {
          SslConnectionError();
          return;
        }
        StartHandshakeManager(c, early, added);
      } else {
        ConnectionReady(c, added);
      }
    }

    method AcceptStopped()
      modifies `state, `manager, `fault
      ensures View() == AcceptorAccounting.AcceptStopped(old(View()))
    {
      if state != Done {
        state := Draining;
        CheckIfDrained();
      }
    }

    /** `dropConnection` of a connection: only a handshake signals. */
    method DropConnection(v: Victim)
      modifies `conns, `managed, `state, `manager, `numPendingSSLConns, `handed, `handshakes, `fault
      ensures View() == Dropped(old(View()), v.c, v.ok, v.added)
    {
      hide HandshakeEnds;
      if v.c in handshakes {
        EndHandshake(v.c, v.ok, v.added);
      }
    }

    /** `dropAllConnections`; the victims are the fronts of the list, turn by turn. */
    method DropAllConnections(victims: seq<Victim>)
      requires if manager then EmptiesList(View().(force := true), victims) else victims == []
      modifies this
      ensures View() == DropAll(old(View()), victims)
    {
      hide Dropped, WhenDraining;
      if manager {
        forceShutdownInProgress := true;
        ghost var goal := PopAll(View(), victims);
        var i := 0;
        while conns != {}
          invariant 0 <= i <= |victims|
          invariant EmptiesList(View(), victims[i..]) && PopAll(View(), victims[i..]) == goal
          decreases |victims| - i
        {
          assert victims[i..] != [] && victims[i..][0] == victims[i] && victims[i..][1..] == victims[i + 1..];
          conns := conns - {victims[i].c};
          managed := managed - {victims[i].c};
          DropConnection(victims[i]);
          i := i + 1;
        }
        assert victims[i..] == [];
        OnEmpty();
        if conns != {} || !manager {
          fault := true;
        } else {
          manager := false;
        }
      }
      if numPendingSSLConns != 0 {
        fault := true;
      } else {
        state := Done;
      }
    }
  }
}
