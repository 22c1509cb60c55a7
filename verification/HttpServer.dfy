/** The objects of the HTTP server.  Each handler is proved to take exactly the step that the state
    machine of module HttpLifecycle gives for its event. */
module HttpServer {
  import opened Message
  import opened HttpLifecycle

  class Connection {
    const manager: ConnectionManager
    const request: HttpMessage
    var open: bool
    var pendingReads: nat
    var pendingWrites: nat
    ghost var late: bool
    ghost var trace: seq<Action>

    ghost function State(): Conn
      reads this
    {
      Conn(open, pendingReads, pendingWrites, late, trace)
    }

    constructor (manager: ConnectionManager)
      ensures this.manager == manager && fresh(request)
      ensures State() == FRESH
    {
      this.manager := manager;
      this.request := new HttpMessage();
      open, pendingReads, pendingWrites, late, trace := true, 0, 0, false, [];
    }

    method Start()
      modifies this
      ensures State() == BeginRead(old(State()))
    {
      pendingReads := pendingReads + 1;
      late, trace := !open, trace + [StartRead];
    }

    method Stop()
      modifies this
      ensures State() == Close(old(State()))
    {
      open := false;
    }

    /** The request handler fills in the response, which is not part of this state. */
    method Dispatch()
      modifies this
      ensures State() == Did(old(State()), Dispatched)
    {
      trace := trace + [Dispatched];
    }

    method AsyncWrite(reply: Reply)
      modifies this
      ensures State() == BeginWrite(old(State()), reply)
    {
      pendingWrites := pendingWrites + 1;
      late, trace := !open, trace + [StartWrite(reply)];
    }

    /** A completed read; `callbacks` and `parseError` are what the parser makes of the bytes read. */
    method HandleRead(outcome: Outcome, callbacks: seq<Callback>, parseError: bool)
      requires pendingReads > 0
      modifies this, request, manager`connections
      ensures State() == AfterRead(old(State()), outcome, request.messageStatus)
      ensures manager.connections ==
        if outcome.Error? then old(manager.connections) - {this} else old(manager.connections)
      ensures outcome.Error? ==> request.State() == old(request.State())
      ensures !outcome.Error? ==>
        var fed := Feed(old(request.State()), callbacks);
        request.State() == if parseError then fed.(status := Faild) else fed
    {
      pendingReads := pendingReads - 1;
      if outcome == Error {
        manager.Stop(this);
        return;
      }
      var ret := request.Parse(callbacks, parseError);
      trace := trace + [Parsed(ret)];
      if ret == WantMore {
        Start();
        return;
      }
      if ret == Faild {
        AsyncWrite(BadRequest);
        return;
      }
      Dispatch();
      AsyncWrite(Answer);
    }

    method HandleWrite(outcome: Outcome)
      requires pendingWrites > 0
      modifies this, manager`connections
      ensures State() == AfterWrite(old(State()), outcome)
      ensures manager.connections ==
        if outcome.Error? then old(manager.connections) - {this} else old(manager.connections)
    {
      pendingWrites := pendingWrites - 1;
      if outcome == Error {
        manager.Stop(this);
        return;
      }
      trace := trace + [Shutdown];
    }
  }

  class ConnectionManager {
    var connections: set<Connection>

    constructor ()
      ensures connections == {}
    {
      connections := {};
    }

    method Start(con: Connection)
      modifies this`connections, con
      ensures connections == old(connections) + {con}
      ensures con.State() == BeginRead(old(con.State()))
    {
      connections := connections + {con};
      con.Start();
    }

    method Stop(con: Connection)
      modifies this`connections, con
      ensures connections == old(connections) - {con}
      ensures con.State() == Close(old(con.State()))
    {
      con.Stop();
      connections := connections - {con};
    }

    method StopAll()
      modifies this, connections
      ensures connections == {}
      ensures forall con :: con in old(connections) ==> con.State() == Close(old(con.State()))
    {
      var rest := connections;
      while rest != {}
        invariant connections == old(connections) && rest <= connections
        invariant forall con :: con in rest ==> con.State() == old(con.State())
        invariant forall con :: con in connections - rest ==> con.State() == Close(old(con.State()))
        decreases rest
      {
        var con :| con in rest;
        con.Stop();
        rest := rest - {con};
      }
      connections := {};
    }
  }

  ghost function States(conns: seq<Connection>): (r: seq<Conn>)
    reads conns
    ensures |r| == |conns|
    ensures forall k :: 0 <= k < |conns| ==> r[k] == conns[k].State()
  {
    seq(|conns|, k requires 0 <= k < |conns| reads conns => conns[k].State())
  }

  /** The positions of the managed connections. */
  ghost function Positions(conns: seq<Connection>, managed: set<Connection>): set<nat> {
    set i | 0 <= i < |conns| && conns[i] in managed
  }

  class HttpServer {
    const manager: ConnectionManager
    var acceptorOpen: bool
    var accepts: nat
    var signal: bool
    var newConnection: Connection
    ghost var conns: seq<Connection>  // all connections ever created

    ghost function State(): Server
      reads this, manager, conns
    {
      Server(acceptorOpen, accepts, signal, States(conns), Positions(conns, manager.connections))
    }

    /** The connections are distinct, share the manager, and the newest is the one being accepted. */
    ghost predicate Good()
      reads this, manager, conns
    {
      && conns != [] && newConnection == conns[|conns| - 1]
      && (forall i, j :: 0 <= i < j < |conns| ==> conns[i] != conns[j])
      && (forall i :: 0 <= i < |conns| ==> conns[i].manager == manager)
      && (forall con :: con in manager.connections ==> con in conns)
    }

    constructor ()
      ensures Good() && State() == START
    {
      var m := new ConnectionManager();
      var con := new Connection(m);
      manager := m;
      acceptorOpen, accepts, signal := true, 1, true;
      newConnection, conns := con, [con];
      new;
      assert States(conns) == [FRESH];
      assert Positions(conns, manager.connections) == {};
    }

    method StartAccept()
      requires Good()
      modifies this`newConnection, this`conns, this`accepts
      ensures Good()
      ensures State() == Rearmed(old(State()))
    {
      ghost var before := State();
      newConnection := new Connection(manager);
      conns := conns + [newConnection];
      accepts := accepts + 1;
      assert States(conns) == before.conns + [FRESH];
      assert Positions(conns, manager.connections) == before.managed;
    }

    /** Hands the accepted connection to the manager. */
    method Adopt()
      requires Good()
      modifies manager`connections, newConnection
      ensures Good()
      ensures State() == Adopted(old(State()))
    {
      ghost var before := State();
      ghost var id := |before.conns| - 1;
      manager.Start(newConnection);
      assert States(conns) == before.conns[id := BeginRead(before.conns[id])];
      assert Positions(conns, manager.connections) == before.managed + {id};
    }

    method HandleAccept(ok: bool)
      requires Good() && Enabled(State(), AcceptDone(ok))
      modifies this, manager, newConnection
      ensures Good()
      ensures State() == Apply(old(State()), AcceptDone(ok))
    {
      accepts := accepts - 1;
      if !acceptorOpen {
        return;
      }
      if ok {
        Adopt();
      }
      StartAccept();
    }

    method HandleStop()
      requires Good() && Enabled(State(), HttpLifecycle.Stop)
      modifies this, manager, manager.connections
      ensures Good()
      ensures State() == Apply(old(State()), HttpLifecycle.Stop)
    {
      ghost var before := State();
      signal := false;
      acceptorOpen := false;
      manager.StopAll();
      assert States(conns) == Apply(before, HttpLifecycle.Stop).conns;
      assert Positions(conns, manager.connections) == {};
    }

    /** The event loop runs the read handler of connection i. */
    method CompleteRead(con: Connection, ghost i: nat, outcome: Outcome, callbacks: seq<Callback>, parseError: bool)
      requires Good() && i < |conns| && conns[i] == con && con.pendingReads > 0 && CanComplete(con.State(), outcome)
      modifies con, con.request, manager
      ensures Good()
      ensures State() == Apply(old(State()), ReadDone(i, outcome, con.request.messageStatus))
    {
      ghost var before := State();
      con.HandleRead(outcome, callbacks, parseError);
      ghost var after := AfterRead(before.conns[i], outcome, con.request.messageStatus);
      assert States(conns) == before.conns[i := after];
      assert Positions(conns, manager.connections) ==
        if outcome.Error? then before.managed - {i} else before.managed;
    }

    /** The event loop runs the write handler of connection i. */
    method CompleteWrite(con: Connection, ghost i: nat, outcome: Outcome)
      requires Good() && i < |conns| && conns[i] == con && con.pendingWrites > 0 && CanComplete(con.State(), outcome)
      modifies con, manager
      ensures Good()
      ensures State() == Apply(old(State()), WriteDone(i, outcome))
    {
      ghost var before := State();
      con.HandleWrite(outcome);
      assert States(conns) == before.conns[i := AfterWrite(before.conns[i], outcome)];
      assert Positions(conns, manager.connections) ==
        if outcome.Error? then before.managed - {i} else before.managed;
    }
  }
}
