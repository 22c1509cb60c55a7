/** The session and server objects of the chat program.

    Each handler is proved to take exactly the step that the state machine of module Chat gives
    for its event.  Socket operations are represented by the counts of outstanding reads, writes
    and accepts; `posted`, `wire`, `items`, `joined` and `log` are ghost histories. */
module ChatServer {
  import opened LineReader
  import opened Outboxes
  import opened Chat

  class ChatSession {
    var open: bool
    var outgoingMessages: seq<string>
    var buffer: string
    var name: string
    var pendingReads: nat
    var pendingWrites: nat
    var sent: nat
    ghost var posted: seq<string>
    ghost var wire: string
    ghost var items: seq<Item>
    ghost var joined: nat

    ghost function State(): Session
      reads this
    {
      Session(Outbox(open, outgoingMessages, pendingWrites, sent, posted, wire),
              pendingReads, buffer, name, items, joined)
    }

    constructor ()
      ensures State() == Session(Fresh(), 0, "", "", [], 0)
    {
      open, outgoingMessages, pendingWrites, sent, posted, wire := true, [], 0, 0, [], "";
      pendingReads, buffer, name, items, joined := 0, "", "", [], 0;
    }

    /** Starts the one write allowed at a time, on the front of the queue. */
    method AsyncWrite()
      requires outgoingMessages != [] && pendingWrites == 0
      modifies this`pendingWrites, this`sent
      ensures pendingWrites == 1 && sent == 0
    {
      pendingWrites, sent := pendingWrites + 1, 0;
    }

    method Post(message: string, ghost item: Item)
      requires message == item.Text()
      requires Postable(State())
      modifies this
      ensures State() == Deliver(old(State()), item)
    {
      var writeOnIdle := outgoingMessages == [];
      outgoingMessages := outgoingMessages + [message];
      posted, items := posted + [message], items + [item];
      if writeOnIdle {
        AsyncWrite();
      }
    }

    method AsyncRead()
      modifies this`pendingReads
      ensures pendingReads == old(pendingReads) + 1
    {
      pendingReads := pendingReads + 1;
    }

    method Start(endpoint: string)
      modifies this`name, this`pendingReads
      ensures State() == old(State()).(name := NameOf(endpoint), pendingReads := old(pendingReads) + 1)
    {
      name := "[" + endpoint + "]: ";
      AsyncRead();
    }

    /** The greeting and the first read of an accepted session. */
    method Greet(endpoint: string, ghost joinIndex: nat)
      requires State() == Session(Fresh(), 0, "", "", [], 0)
      modifies this
      ensures State() == Newcomer(endpoint, joinIndex)
    {
      Post(GREETING, Welcome);
      Start(endpoint);
      joined := joinIndex;
      GreetedThenStarted(endpoint, joinIndex);
    }

    method OnError()
      modifies this`open
      ensures State() == old(State()).(out := Close(old(State()).out))
    {
      open := false;
    }

    /** The socket layer moves n bytes of the message in flight. */
    method Transfer(n: nat)
      requires CanWrite(State().out, Sent(n))
      modifies this
      ensures State() == old(State()).(out := ApplyWrite(old(State()).out, Sent(n)))
    {
      wire := wire + outgoingMessages[0][sent..sent + n];
      sent := sent + n;
    }

    method OnWrite(error: bool)
      requires Postable(State()) && CanWrite(State().out, if error then Failed else Finished)
      modifies this
      ensures State() == old(State()).(out := ApplyWrite(old(State()).out, if error then Failed else Finished))
    {
      pendingWrites := pendingWrites - 1;
      if error {
        OnError();
        return;
      }
      outgoingMessages := outgoingMessages[1..];
      sent := 0;
      if outgoingMessages != [] {
        AsyncWrite();
      }
    }

    /** A completed read; `data` is the content of the stream buffer at that moment, and the bytes
        transferred are those of its first line and the newline. */
    method OnRead(server: ChatServer, ghost i: nat, error: bool, bytesTransferred: nat, data: string)
      requires server.Good() && i < |server.sessions| && server.sessions[i] == this
      requires Enabled(server.State(), if error then ReadFailed(i) else LineRead(i, data))
      requires !error ==> bytesTransferred == |Line(data)| + 1
      modifies server`log, server.sessions
      ensures server.State() == Apply(old(server.State()), if error then ReadFailed(i) else LineRead(i, data))
    {
      if error {
        ghost var before := server.State();
        pendingReads := pendingReads - 1;
        OnError();
        assert States(server.sessions) == before.sessions[i := State()];
        ReadFailedIs(before, i);
      } else {
        HandleLine(server, i, bytesTransferred, data);
      }
    }

    /** Extracts the first line of the stream buffer and then consumes the bytes transferred. */
    method TakeLine(bytesTransferred: nat, data: string) returns (line: string)
      requires pendingReads > 0 && '\n' in data && bytesTransferred == |Line(data)| + 1
      modifies this`pendingReads, this`buffer
      ensures line == Line(data) && State() == AfterRead(old(State()), data)
    {
      pendingReads := pendingReads - 1;
      line, buffer := GetLine(data);
      buffer := Consume(buffer, bytesTransferred);
    }

    /** The part of `OnRead` after its error check. */
    method HandleLine(server: ChatServer, ghost i: nat, bytesTransferred: nat, data: string)
      requires server.Good() && i < |server.sessions| && server.sessions[i] == this
      requires Enabled(server.State(), LineRead(i, data)) && bytesTransferred == |Line(data)| + 1
      modifies server`log, server.sessions
      ensures server.State() == Apply(old(server.State()), LineRead(i, data))
    {
      ghost var before := server.State();
      var line := TakeLine(bytesTransferred, data);
      assert States(server.sessions) == before.sessions[i := AfterRead(before.sessions[i], data)];
      server.Broadcast(name + line, Said(i, name, line));
      ghost var heard := States(server.sessions);
      Post(line, Echo(line));
      assert States(server.sessions) == heard[i := State()];
      LineReadIs(before, i, data);
    }

    /** The destructor: it announces the departure through the message handler. */
    method Destroy(server: ChatServer)
      requires server.Good() && this !in server.sessions
      modifies server`log, server.sessions
      ensures server.sessions == old(server.sessions) && server.accepts == old(server.accepts)
      ensures server.log == old(server.log) + [Left(name)]
      ensures States(server.sessions) == DeliverAll(old(States(server.sessions)), Heard(Left(name)))
    {
      server.Broadcast(name + LEFT, Left(name));
    }
  }

  ghost function States(sessions: seq<ChatSession>): (r: seq<Session>)
    reads sessions
    ensures |r| == |sessions|
    ensures forall k :: 0 <= k < |sessions| ==> r[k] == sessions[k].State()
  {
    seq(|sessions|, k requires 0 <= k < |sessions| reads sessions => sessions[k].State())
  }

  class ChatServer {
    var accepts: nat
    var sessions: seq<ChatSession>
    ghost var log: seq<Broadcast>

    ghost function State(): Server
      reads this, sessions
    {
      Server(accepts, States(sessions), log)
    }

    /** No session is listed twice. */
    ghost predicate Distinct()
      reads this
    {
      forall i, j :: 0 <= i < j < |sessions| ==> sessions[i] != sessions[j]
    }

    /** All sessions can be posted to. */
    ghost predicate Good()
      reads this, sessions
    {
      Distinct() && forall i :: 0 <= i < |sessions| ==> Postable(sessions[i].State())
    }

    /** Every state that a run can reach meets the condition above on its sessions. */
    lemma ReachableIsReady(es: seq<Event>)
      requires ValidRun(INIT, es) && State() == Exec(INIT, es)
      ensures forall i :: 0 <= i < |sessions| ==> Postable(sessions[i].State())
    {
      RunKeepsInv(INIT, es);
      forall i | 0 <= i < |sessions|
        ensures Postable(sessions[i].State())
      {
        assert SessionInv(State(), i);
        assert States(sessions)[i] == sessions[i].State();
      }
    }

    constructor ()
      ensures Good() && State() == INIT.(accepts := 0)
    {
      accepts, sessions, log := 0, [], [];
    }

    /** Opens the next accept; the new session is held by the completion handler. */
    method Accept() returns (newSession: ChatSession)
      modifies this`accepts
      ensures fresh(newSession) && newSession.State() == Session(Fresh(), 0, "", "", [], 0)
      ensures accepts == old(accepts) + 1
    {
      newSession := new ChatSession();
      accepts := accepts + 1;
    }

    method Broadcast(message: string, ghost b: Broadcast)
      requires message == b.Text()
      requires Good()
      modifies this`log, sessions
      ensures log == old(log) + [b]
      ensures States(sessions) == DeliverAll(old(States(sessions)), Heard(b))
    {
      for n := 0 to |sessions|
        invariant log == old(log)
        invariant forall j :: 0 <= j < n ==> sessions[j].State() == Deliver(old(sessions[j].State()), Heard(b))
        invariant forall j :: n <= j < |sessions| ==> sessions[j].State() == old(sessions[j].State())
      {
        assert sessions[n].State() == old(sessions[n].State());
        sessions[n].Post(message, Heard(b));
      }
      log := log + [b];
    }

    /** The event loop runs the write handler of session i. */
    method CompleteWrite(session: ChatSession, ghost i: nat, error: bool)
      requires Good() && i < |sessions| && sessions[i] == session
      requires CanWrite(session.State().out, if error then Failed else Finished)
      modifies session
      ensures Distinct()
      ensures State() == Apply(old(State()), Wrote(i, if error then Failed else Finished))
    {
      ghost var before := State();
      session.OnWrite(error);
      assert States(sessions) == before.sessions[i := session.State()];
      WroteIs(before, i, if error then Failed else Finished);
    }

    /** The socket layer moves n bytes of the message that session i has in flight. */
    method MoveBytes(session: ChatSession, ghost i: nat, n: nat)
      requires Good() && i < |sessions| && sessions[i] == session
      requires CanWrite(session.State().out, Sent(n))
      modifies session
      ensures Distinct()
      ensures State() == Apply(old(State()), Wrote(i, Sent(n)))
    {
      ghost var before := State();
      session.Transfer(n);
      assert States(sessions) == before.sessions[i := session.State()];
      WroteIs(before, i, Sent(n));
    }

    method OnAccept(error: bool, endpoint: string, newSession: ChatSession) returns (next: ChatSession?)
      requires Good() && accepts > 0
      requires newSession !in sessions && newSession.State() == Session(Fresh(), 0, "", "", [], 0)
      modifies this, sessions, newSession
      ensures State() == Apply(old(State()), if error then AcceptFailed else Accepted(endpoint))
      ensures Distinct()
      ensures next == null <==> error
      ensures next != null ==> fresh(next) && next.State() == Session(Fresh(), 0, "", "", [], 0)
    {
      ghost var before := State();
      accepts := accepts - 1;
      if error {
        newSession.Destroy(this);
        AcceptFailedIs(before);
        return null;
      }
      Admit(endpoint, newSession);
      AcceptedIs(before, endpoint);
      next := Accept();
    }

    /** The part of `OnAccept` between its error check and the next accept. */
    method Admit(endpoint: string, newSession: ChatSession)
      requires Good()
      requires newSession !in sessions && newSession.State() == Session(Fresh(), 0, "", "", [], 0)
      modifies this`log, this`sessions, sessions, newSession
      ensures Distinct()
      ensures log == old(log) + [Joined(endpoint)]
      ensures States(sessions) ==
        DeliverAll(old(States(sessions)), Heard(Joined(endpoint))) + [Newcomer(endpoint, |log|)]
    {
      Broadcast(endpoint + JOINED, Joined(endpoint));
      ghost var heard := States(sessions);
      newSession.Greet(endpoint, |log|);
      sessions := sessions + [newSession];
      assert States(sessions) == heard + [newSession.State()];
    }
  }
}
