/** The HTTP server as a state machine: the accept loop, the connection manager and the connections.

    Operations on sockets complete in any order and with any outcome the socket layer allows: an
    operation that was outstanding when its socket was closed may still succeed (its completion was
    already queued) or is aborted; one that is started on a closed socket fails with another error. */
module HttpLifecycle {
  import opened Sums
  import opened Message

  datatype Reply = BadRequest | Answer

  datatype Action =
    | StartRead
    | Parsed(status: Status)
    | Dispatched
    | StartWrite(reply: Reply)
    | Shutdown

  /** `trace` is the history of what the connection did; `late` tells whether the operation that is
      outstanding was started after the socket was closed. */
  datatype Conn = Conn(
    open: bool,
    pendingReads: nat,
    pendingWrites: nat,
    late: bool,
    trace: seq<Action>)

  /** The last connection is `new_connection_`, the one the next accept is for. */
  datatype Server = Server(
    acceptorOpen: bool,
    accepts: nat,
    signal: bool,
    conns: seq<Conn>,
    managed: set<nat>)

  datatype Outcome = Success | Aborted | Error

  datatype Event =
    | AcceptDone(ok: bool)
    | ReadDone(i: nat, outcome: Outcome, status: Status)  // the status is what the parser returns
    | WriteDone(i: nat, outcome: Outcome)
    | Stop

  // ---------------------------------------------------------------- steps

  const FRESH := Conn(true, 0, 0, false, [])

  /** The server as its constructor leaves it: waiting for a signal and for the first connection. */
  const START := Server(true, 1, true, [FRESH], {})

  predicate CanComplete(c: Conn, outcome: Outcome) {
    match outcome
    case Success => !c.late
    case Aborted => !c.late && !c.open
    case Error => true
  }

  function BeginRead(c: Conn): Conn {
    c.(pendingReads := c.pendingReads + 1, late := !c.open, trace := c.trace + [StartRead])
  }

  function BeginWrite(c: Conn, reply: Reply): Conn {
    c.(pendingWrites := c.pendingWrites + 1, late := !c.open, trace := c.trace + [StartWrite(reply)])
  }

  function Did(c: Conn, a: Action): Conn {
    c.(trace := c.trace + [a])
  }

  function Close(c: Conn): Conn {
    c.(open := false)
  }

  /** `handle_read` apart from what it asks of the manager. */
  function AfterRead(c: Conn, outcome: Outcome, status: Status): Conn
    requires c.pendingReads > 0
  {
    var d := c.(pendingReads := c.pendingReads - 1);
    if outcome.Error? then Close(d)
    else
      match status
      case WantMore => BeginRead(Did(d, Parsed(WantMore)))
      case Faild => BeginWrite(Did(d, Parsed(Faild)), BadRequest)
      case Complete => BeginWrite(Did(Did(d, Parsed(Complete)), Dispatched), Answer)
  }

  /** `handle_write` apart from what it asks of the manager; an aborted write counts as a success. */
  function AfterWrite(c: Conn, outcome: Outcome): Conn
    requires c.pendingWrites > 0
  {
    var d := c.(pendingWrites := c.pendingWrites - 1);
    if outcome.Error? then Close(d) else Did(d, Shutdown)
  }

  predicate Enabled(st: Server, e: Event) {
    match e
    case AcceptDone(_) => st.accepts > 0 && st.conns != []
    case ReadDone(i, outcome, _) => i < |st.conns| && st.conns[i].pendingReads > 0 && CanComplete(st.conns[i], outcome)
    case WriteDone(i, outcome) => i < |st.conns| && st.conns[i].pendingWrites > 0 && CanComplete(st.conns[i], outcome)
    case Stop => st.signal
  }

  /** What stopping all managed connections makes of connection i. */
  function StopManaged(st: Server, i: nat): Conn
    requires i < |st.conns|
  {
    if i in st.managed then Close(st.conns[i]) else st.conns[i]
  }

  function Apply(st: Server, e: Event): Server
    requires Enabled(st, e)
  {
    match e
    case AcceptDone(ok) =>
      var taken := st.(accepts := st.accepts - 1);
      if !st.acceptorOpen then taken
      else Rearmed(if ok then Adopted(taken) else taken)
    case ReadDone(i, outcome, status) =>
      st.(conns := st.conns[i := AfterRead(st.conns[i], outcome, status)],
          managed := if outcome.Error? then st.managed - {i} else st.managed)
    case WriteDone(i, outcome) =>
      st.(conns := st.conns[i := AfterWrite(st.conns[i], outcome)],
          managed := if outcome.Error? then st.managed - {i} else st.managed)
    case Stop =>
      st.(acceptorOpen := false, signal := false, managed := {},
          conns := seq(|st.conns|, i requires 0 <= i < |st.conns| => StopManaged(st, i)))
  }

  /** A server with one more connection, which the next accept is for. */
  function Rearmed(st: Server): Server {
    st.(conns := st.conns + [FRESH], accepts := st.accepts + 1)
  }

  /** A server whose newest connection has been handed to the manager. */
  function Adopted(st: Server): Server
    requires st.conns != []
  {
    var id := |st.conns| - 1;
    st.(conns := st.conns[id := BeginRead(st.conns[id])], managed := st.managed + {id})
  }

  predicate ValidRun(st: Server, es: seq<Event>)
    decreases |es|
  {
    es == [] || (Enabled(st, es[0]) && ValidRun(Apply(st, es[0]), es[1..]))
  }

  function Exec(st: Server, es: seq<Event>): Server
    requires ValidRun(st, es)
    decreases |es|
  {
    if es == [] then st else Exec(Apply(st, es[0]), es[1..])
  }

  // ---------------------------------------------------------------- the script of a connection

  /** How a connection's life can go on after its reads. */
  datatype Ending =
    | Unstarted
    | Reading
    | Rejected(done: bool)
    | Answered(done: bool)

  /** n reads that each left the request incomplete, and one more. */
  function Reads(n: nat): seq<Action> {
    if n == 0 then [StartRead] else Reads(n - 1) + [Parsed(WantMore), StartRead]
  }

  /** What follows the reads. */
  function Tail(e: Ending): seq<Action> {
    match e
    case Unstarted => []
    case Reading => []
    case Rejected(done) => [Parsed(Faild), StartWrite(BadRequest)] + if done then [Shutdown] else []
    case Answered(done) => [Parsed(Complete), Dispatched, StartWrite(Answer)] + if done then [Shutdown] else []
  }

  function Script(n: nat, e: Ending): seq<Action> {
    if e.Unstarted? then [] else Reads(n) + Tail(e)
  }

  /** The trace follows the script, and only the operation it ends in can be outstanding. */
  ghost predicate Follows(c: Conn, n: nat, e: Ending) {
    && c.trace == Script(n, e)
    && c.pendingReads <= (if e.Reading? then 1 else 0)
    && c.pendingWrites <= (if (e.Rejected? || e.Answered?) && !e.done then 1 else 0)
  }

  ghost predicate Scripted(c: Conn) {
    exists n: nat, e: Ending :: Follows(c, n, e)
  }

  ghost predicate Busy(c: Conn) {
    c.pendingReads + c.pendingWrites > 0
  }

  predicate Started(c: Conn) {
    c.trace != []
  }

  ghost predicate ConnOk(c: Conn, managed: bool) {
    && Scripted(c)
    && (managed <==> Started(c) && c.open)
    && (!Started(c) ==> c.open)
    && (Busy(c) && c.late ==> !c.open)
  }

  ghost predicate ConnInv(st: Server, i: nat)
    requires i < |st.conns|
  {
    ConnOk(st.conns[i], i in st.managed)
  }

  ghost predicate Inv(st: Server) {
    && st.conns != []
    && st.accepts <= 1
    && (st.acceptorOpen ==> st.accepts == 1 && !Started(st.conns[|st.conns| - 1]))
    && (st.acceptorOpen == st.signal)
    && (!st.acceptorOpen ==> st.managed == {})
    && (forall i :: i in st.managed ==> i < |st.conns|)
    && (forall i :: 0 <= i < |st.conns| ==> ConnInv(st, i))
  }

  lemma ReadsAreStarted(n: nat)
    ensures Reads(n) != []
  {
  }

  lemma UnstartedIsIdle(c: Conn)
    requires Scripted(c) && !Started(c)
    ensures c.trace == [] && c.pendingReads == 0 && c.pendingWrites == 0
  {
    var n: nat, e: Ending :| Follows(c, n, e);
    ReadsAreStarted(n);
  }

  lemma BusyIsStarted(c: Conn)
    requires Scripted(c) && Busy(c)
    ensures Started(c)
  {
    if !Started(c) {
      UnstartedIsIdle(c);
    }
  }

  lemma BeginIsOk(c: Conn)
    requires ConnOk(c, false) && !Started(c)
    ensures ConnOk(BeginRead(c), true)
  {
    UnstartedIsIdle(c);
    assert Follows(BeginRead(c), 0, Reading);
  }

  lemma ReadIsScripted(c: Conn, outcome: Outcome, status: Status)
    requires Scripted(c) && c.pendingReads > 0
    ensures Scripted(AfterRead(c, outcome, status))
  {
    var n: nat, e: Ending :| Follows(c, n, e);
    var d := AfterRead(c, outcome, status);
    if outcome.Error? {
      assert Follows(d, n, e);
    } else {
      match status
      case WantMore =>
        assert Reads(n + 1) == Reads(n) + [Parsed(WantMore)] + [StartRead];
        assert Follows(d, n + 1, Reading);
      case Faild =>
        assert Script(n, Rejected(false)) == Reads(n) + [Parsed(Faild)] + [StartWrite(BadRequest)];
        assert Follows(d, n, Rejected(false));
      case Complete =>
        assert Script(n, Answered(false)) == Reads(n) + [Parsed(Complete)] + [Dispatched] + [StartWrite(Answer)];
        assert Follows(d, n, Answered(false));
    }
  }

  lemma ReadIsOk(c: Conn, managed: bool, outcome: Outcome, status: Status)
    requires ConnOk(c, managed) && c.pendingReads > 0
    ensures ConnOk(AfterRead(c, outcome, status), managed && !outcome.Error?)
  {
    BusyIsStarted(c);
    ReadIsScripted(c, outcome, status);
  }

  lemma WriteIsScripted(c: Conn, outcome: Outcome)
    requires Scripted(c) && c.pendingWrites > 0
    ensures Scripted(AfterWrite(c, outcome))
    ensures !Busy(AfterWrite(c, outcome))
  {
    var n: nat, e: Ending :| Follows(c, n, e);
    var d := AfterWrite(c, outcome);
    if outcome.Error? {
      assert Follows(d, n, e);
    } else {
      var ended := if e.Rejected? then Rejected(true) else Answered(true);
      assert Script(n, ended) == Script(n, e) + [Shutdown];
      assert Follows(d, n, ended);
    }
  }

  lemma WriteIsOk(c: Conn, managed: bool, outcome: Outcome)
    requires ConnOk(c, managed) && c.pendingWrites > 0
    ensures ConnOk(AfterWrite(c, outcome), managed && !outcome.Error?)
  {
    BusyIsStarted(c);
    WriteIsScripted(c, outcome);
  }

  lemma StopIsOk(c: Conn, managed: bool)
    requires ConnOk(c, managed)
    ensures ConnOk(if managed then Close(c) else c, false)
  {
    var n: nat, e: Ending :| Follows(c, n, e);
    assert Follows(Close(c), n, e);
  }

  lemma FreshIsOk()
    ensures ConnOk(FRESH, false)
  {
    assert Follows(FRESH, 0, Unstarted);
  }

  lemma StepKeepsConn(st: Server, e: Event, j: nat)
    requires Inv(st) && Enabled(st, e) && j < |Apply(st, e).conns|
    ensures ConnInv(Apply(st, e), j)
  {
    FreshIsOk();
    if j < |st.conns| {
      assert ConnInv(st, j);
      var c, managed := st.conns[j], j in st.managed;
      match e
      case AcceptDone(ok) =>
        if st.acceptorOpen && ok && j == |st.conns| - 1 {
          BeginIsOk(c);
        }
      case ReadDone(i, outcome, status) =>
        if i == j {
          ReadIsOk(c, managed, outcome, status);
        }
      case WriteDone(i, outcome) =>
        if i == j {
          WriteIsOk(c, managed, outcome);
        }
      case Stop =>
        StopIsOk(c, managed);
    }
  }

  lemma StepKeepsInv(st: Server, e: Event)
    requires Inv(st) && Enabled(st, e)
    ensures Inv(Apply(st, e))
  {
    var st' := Apply(st, e);
    forall j | 0 <= j < |st'.conns|
      ensures ConnInv(st', j)
    {
      StepKeepsConn(st, e, j);
    }
    var last := |st.conns| - 1;
    assert ConnInv(st, last);
    if e.ReadDone? || e.WriteDone? {
      assert ConnInv(st, e.i);
      BusyIsStarted(st.conns[e.i]);
    }
  }

  lemma {:induction false} RunKeepsInv(st: Server, es: seq<Event>)
    requires Inv(st) && ValidRun(st, es)
    ensures Inv(Exec(st, es))
    decreases |es|
  {
    if es != [] {
      StepKeepsInv(st, es[0]);
      RunKeepsInv(Apply(st, es[0]), es[1..]);
    }
  }

  lemma StartInv()
    ensures Inv(START)
  {
    FreshIsOk();
    assert ConnInv(START, 0);
  }

  // ---------------------------------------------------------------- theorems over all runs

  /** Connection lifecycle: in every run each connection has at most one operation outstanding and its
      history follows the script: reads that leave the request incomplete, then at most one parse
      that ends it, one dispatch if and only if the request is complete, and one response write. */
  lemma ConnectionLifecycle(es: seq<Event>, i: nat)
    requires ValidRun(START, es)
    requires i < |Exec(START, es).conns|
    ensures
      var c := Exec(START, es).conns[i];
      && c.pendingReads + c.pendingWrites <= 1
      && (exists n: nat, e: Ending :: Follows(c, n, e))
  {
    StartInv();
    RunKeepsInv(START, es);
    var c := Exec(START, es).conns[i];
    assert ConnInv(Exec(START, es), i);
    var n: nat, e: Ending :| Follows(c, n, e);
  }

  ghost predicate OnlyReads(r: seq<Action>) {
    forall k :: 0 <= k < |r| ==> r[k] == StartRead || r[k] == Parsed(WantMore)
  }

  lemma {:induction false} ReadsAreOnlyReads(n: nat)
    ensures OnlyReads(Reads(n))
  {
    if n > 0 {
      ReadsAreOnlyReads(n - 1);
    }
  }

  /** Nothing but the shutdown follows a write, and every write and dispatch has its cause before it. */
  ghost predicate Orderly(tail: seq<Action>) {
    && (forall j, k :: 0 <= j < k < |tail| && tail[j].StartWrite? ==> tail[k] == Shutdown)
    && (forall j, k :: 0 <= j < k < |tail| && tail[k].Dispatched? ==> tail[j] == Parsed(Complete))
    && (forall k :: 0 <= k < |tail| && tail[k].Dispatched? ==> k == 1)
    && (forall k :: 0 <= k < |tail| && tail[k].StartWrite? ==>
          k > 0 && tail[k - 1] == if tail[k].reply.Answer? then Dispatched else Parsed(Faild))
  }

  lemma TailIsOrderly(e: Ending)
    ensures Orderly(Tail(e))
  {
  }

  lemma Parts(c: Conn) returns (r: seq<Action>, tail: seq<Action>)
    requires Scripted(c)
    ensures OnlyReads(r) && Orderly(tail) && c.trace == r + tail
  {
    var n: nat, e: Ending :| Follows(c, n, e);
    ReadsAreOnlyReads(n);
    TailIsOrderly(e);
    r, tail := if e.Unstarted? then [] else Reads(n), Tail(e);
  }

  /** Anything but a read and an incomplete parse comes after the reads. */
  lemma AfterTheReads(r: seq<Action>, tail: seq<Action>, k: nat)
    requires OnlyReads(r) && k < |r + tail|
    ensures k >= |r| ==> (r + tail)[k] == tail[k - |r|]
    ensures (r + tail)[k] != StartRead && (r + tail)[k] != Parsed(WantMore) ==> k >= |r|
  {
  }

  /** What following the script means: nothing but the shutdown comes after a write is started, so
      there is one write and one dispatch at most. */
  lemma NothingAfterWrite(c: Conn, j: nat, k: nat)
    requires Scripted(c) && j < k < |c.trace| && c.trace[j].StartWrite?
    ensures c.trace[k] == Shutdown
  {
    var r, tail := Parts(c);
    AfterTheReads(r, tail, j);
    AfterTheReads(r, tail, k);
  }

  /** An answer is written directly after a dispatch and a bad request directly after a failed parse. */
  lemma WritesAreCaused(c: Conn, k: nat)
    requires Scripted(c) && k < |c.trace| && c.trace[k].StartWrite?
    ensures k > 0 && c.trace[k - 1] == if c.trace[k].reply.Answer? then Dispatched else Parsed(Faild)
  {
    var r, tail := Parts(c);
    AfterTheReads(r, tail, k);
    assert tail[k - |r|].StartWrite?;
  }

  /** A dispatch comes directly after a complete parse and never after a failed one. */
  lemma DispatchIsCaused(c: Conn, j: nat, k: nat)
    requires Scripted(c) && j < k < |c.trace| && c.trace[k].Dispatched?
    ensures c.trace[k - 1] == Parsed(Complete)
    ensures c.trace[j] != Parsed(Faild)
  {
    var r, tail := Parts(c);
    AfterTheReads(r, tail, k);
    AfterTheReads(r, tail, j);
    assert tail[k - |r|].Dispatched?;
    assert j < |r| ==> c.trace[j] == r[j];
  }

  /** Manager and accept loop: the manager holds exactly the connections started and not stopped, and
      one accept is outstanding while the acceptor is open. */
  lemma ManagerHoldsTheLive(es: seq<Event>)
    requires ValidRun(START, es)
    ensures
      var st := Exec(START, es);
      && (forall i :: i in st.managed <==> 0 <= i < |st.conns| && Started(st.conns[i]) && st.conns[i].open)
      && (st.acceptorOpen ==> st.accepts == 1)
      && st.accepts <= 1
  {
    StartInv();
    RunKeepsInv(START, es);
    var st := Exec(START, es);
    forall i | 0 <= i < |st.conns|
      ensures i in st.managed <==> Started(st.conns[i]) && st.conns[i].open
    {
      assert ConnInv(st, i);
    }
  }

  // ---------------------------------------------------------------- shutdown

  /** How many handlers a connection can still run once its socket is closed: a read that is aborted
      or whose success was already queued is parsed once more and starts one operation, which fails. */
  function Work(c: Conn): nat {
    if c.pendingReads > 0 then (if c.late then 1 else 2)
    else if c.pendingWrites > 0 then 1
    else 0
  }

  function TotalWork(st: Server): nat {
    st.accepts + Sum(st.conns, Work)
  }

  lemma StoppedStep(st: Server, e: Event)
    requires Inv(st) && !st.acceptorOpen && Enabled(st, e)
    ensures
      var st' := Apply(st, e);
      && TotalWork(st') < TotalWork(st)
      && !st'.acceptorOpen && st'.managed == {} && |st'.conns| == |st.conns|
  {
    match e
    case AcceptDone(ok) =>
    case ReadDone(i, outcome, status) =>
      StoppedConnStep(st, i);
      SumOfUpdate(st.conns, Work, i, AfterRead(st.conns[i], outcome, status));
    case WriteDone(i, outcome) =>
      StoppedConnStep(st, i);
      SumOfUpdate(st.conns, Work, i, AfterWrite(st.conns[i], outcome));
    case Stop =>
  }

  lemma StoppedConnStep(st: Server, i: nat)
    requires Inv(st) && !st.acceptorOpen && i < |st.conns| && Busy(st.conns[i])
    ensures !st.conns[i].open && st.conns[i].pendingReads + st.conns[i].pendingWrites == 1
  {
    assert ConnInv(st, i);
    BusyIsStarted(st.conns[i]);
    var n: nat, e: Ending :| Follows(st.conns[i], n, e);
  }

  lemma {:induction false} StoppedRun(st: Server, es: seq<Event>)
    requires Inv(st) && !st.acceptorOpen && ValidRun(st, es)
    ensures
      var st' := Exec(st, es);
      && |es| + TotalWork(st') <= TotalWork(st)
      && !st'.acceptorOpen && st'.managed == {} && |st'.conns| == |st.conns|
    decreases |es|
  {
    if es != [] {
      StoppedStep(st, es[0]);
      StepKeepsInv(st, es[0]);
      StoppedRun(Apply(st, es[0]), es[1..]);
    }
  }

  /** A handler of connection i. */
  predicate Concerns(e: Event, i: nat) {
    (e.ReadDone? || e.WriteDone?) && e.i == i
  }

  function HandlersOf(es: seq<Event>, i: nat): nat {
    if es == [] then 0 else (if Concerns(es[0], i) then 1 else 0) + HandlersOf(es[1..], i)
  }

  function AcceptsIn(es: seq<Event>): nat {
    if es == [] then 0 else (if es[0].AcceptDone? then 1 else 0) + AcceptsIn(es[1..])
  }

  function WorkOf(st: Server, i: nat): nat {
    if i < |st.conns| then Work(st.conns[i]) else 0
  }

  /** Each handler after the stop uses up the work of its own connection and leaves that of the others. */
  lemma StoppedStepOf(st: Server, e: Event, i: nat)
    requires Inv(st) && !st.acceptorOpen && Enabled(st, e)
    ensures WorkOf(Apply(st, e), i) + (if Concerns(e, i) then 1 else 0) <= WorkOf(st, i)
    ensures Apply(st, e).accepts + (if e.AcceptDone? then 1 else 0) <= st.accepts
  {
    if Concerns(e, i) {
      StoppedConnStep(st, i);
    }
  }

  lemma {:induction false} StoppedRunOf(st: Server, es: seq<Event>, i: nat)
    requires Inv(st) && !st.acceptorOpen && ValidRun(st, es)
    ensures HandlersOf(es, i) <= WorkOf(st, i)
    ensures AcceptsIn(es) <= st.accepts
    decreases |es|
  {
    if es != [] {
      StoppedStep(st, es[0]);
      StoppedStepOf(st, es[0], i);
      StepKeepsInv(st, es[0]);
      StoppedRunOf(Apply(st, es[0]), es[1..], i);
    }
  }

  lemma StoppedRunIsBounded(st: Server, es: seq<Event>)
    requires Inv(st) && !st.acceptorOpen && ValidRun(st, es)
    ensures |es| <= 2 * |st.conns| + 1
    ensures forall i: nat :: HandlersOf(es, i) <= 2
    ensures AcceptsIn(es) <= 1
  {
    StoppedRun(st, es);
    SumIsBounded(st.conns, Work, 2);
    StoppedRunOf(st, es, 0);
    forall i: nat
      ensures HandlersOf(es, i) <= 2
    {
      StoppedRunOf(st, es, i);
    }
  }

  /** Shutdown: from any reachable state, whatever completes after the stop handler, at most two
      handlers run for each connection and one for the pending accept; no connection is created,
      no accept is re-armed, and the manager stays empty. */
  lemma ShutdownTerminates(before: seq<Event>, after: seq<Event>)
    requires ValidRun(START, before) && Enabled(Exec(START, before), Stop)
    requires ValidRun(Apply(Exec(START, before), Stop), after)
    ensures |after| <= 2 * |Exec(START, before).conns| + 1
    ensures forall i: nat :: HandlersOf(after, i) <= 2
    ensures AcceptsIn(after) <= 1
    ensures forall k :: 0 <= k < |after| ==> after[k] != Stop
    ensures
      var st' := Exec(Apply(Exec(START, before), Stop), after);
      && st'.managed == {}
      && !st'.acceptorOpen
      && |st'.conns| == |Exec(START, before).conns|
  {
    StartInv();
    RunKeepsInv(START, before);
    var st := Exec(START, before);
    StepKeepsInv(st, Stop);
    var stopped := Apply(st, Stop);
    StoppedRun(stopped, after);
    StoppedRunIsBounded(stopped, after);
    NoSecondStop(stopped, after);
  }

  lemma {:induction false} NoSecondStop(st: Server, es: seq<Event>)
    requires ValidRun(st, es) && !st.signal
    ensures forall k :: 0 <= k < |es| ==> es[k] != Stop
    decreases |es|
  {
    if es != [] {
      NoSecondStop(Apply(st, es[0]), es[1..]);
      assert forall k :: 1 <= k < |es| ==> es[k] == es[1..][k - 1];
    }
  }

  /** And it does not end early: until nothing is outstanding some handler can run. */
  lemma ShutdownProgress(st: Server) returns (e: Event)
    requires Inv(st) && !st.acceptorOpen && TotalWork(st) > 0
    ensures Enabled(st, e)
  {
    if st.accepts > 0 {
      e := AcceptDone(false);
    } else {
      var i := SomePart(st.conns, Work);
      e := if st.conns[i].pendingReads > 0 then ReadDone(i, Error, WantMore) else WriteDone(i, Error);
    }
  }

  // ---------------------------------------------------------------- what erases a connection

  /** Stopping the server erases every connection, a failing handler its own. */
  predicate Erases(e: Event, i: nat) {
    e.Stop? || (Concerns(e, i) && e.outcome.Error?)
  }

  /** The server is not stopped, and connection i, if it has been started, is managed. */
  ghost predicate NotErased(st: Server, i: nat) {
    st.acceptorOpen && (i < |st.conns| && Started(st.conns[i]) ==> i in st.managed)
  }

  lemma StepErases(st: Server, e: Event, i: nat)
    requires Inv(st) && Enabled(st, e)
    ensures NotErased(Apply(st, e), i) <==> NotErased(st, i) && !Erases(e, i)
  {
    if i < |st.conns| {
      assert ConnInv(st, i);
      if Busy(st.conns[i]) {
        BusyIsStarted(st.conns[i]);
      }
    }
  }

  lemma {:induction false} RunErases(st: Server, es: seq<Event>, i: nat)
    requires Inv(st) && ValidRun(st, es)
    ensures NotErased(Exec(st, es), i) <==> NotErased(st, i) && forall e :: e in es ==> !Erases(e, i)
    decreases |es|
  {
    if es != [] {
      StepErases(st, es[0], i);
      StepKeepsInv(st, es[0]);
      RunErases(Apply(st, es[0]), es[1..], i);
      assert forall e :: e in es <==> e == es[0] || e in es[1..];
    }
  }

  /** A connection that was started is in the manager if and only if the server was never stopped and none of
      the connection's own handlers failed; being served erases nothing. */
  lemma ErasedIffFailedOrStopped(es: seq<Event>, i: nat)
    requires ValidRun(START, es)
    requires i < |Exec(START, es).conns| && Started(Exec(START, es).conns[i])
    ensures i in Exec(START, es).managed <==> forall e :: e in es ==> !Erases(e, i)
  {
    StartInv();
    RunKeepsInv(START, es);
    assert NotErased(START, i);
    RunErases(START, es, i);
    assert NotErased(Exec(START, es), i) <==> i in Exec(START, es).managed;
  }

  /** Until the server is stopped only open connections have something outstanding. */
  ghost predicate BusyAreOpen(st: Server) {
    st.acceptorOpen ==> forall i :: 0 <= i < |st.conns| && Busy(st.conns[i]) ==> st.conns[i].open
  }

  lemma OneOutstanding(c: Conn)
    requires Scripted(c)
    ensures c.pendingReads + c.pendingWrites <= 1
  {
    var n: nat, e: Ending :| Follows(c, n, e);
  }

  lemma StepKeepsBusyOpen(st: Server, e: Event)
    requires Inv(st) && BusyAreOpen(st) && Enabled(st, e)
    ensures BusyAreOpen(Apply(st, e))
  {
    if e.ReadDone? || e.WriteDone? {
      assert ConnInv(st, e.i);
      OneOutstanding(st.conns[e.i]);
    } else {
      assert ConnInv(st, |st.conns| - 1);
    }
  }

  lemma {:induction false} RunKeepsBusyOpen(st: Server, es: seq<Event>)
    requires Inv(st) && BusyAreOpen(st) && ValidRun(st, es)
    ensures Inv(Exec(st, es)) && BusyAreOpen(Exec(st, es))
    decreases |es|
  {
    if es != [] {
      StepKeepsBusyOpen(st, es[0]);
      StepKeepsInv(st, es[0]);
      RunKeepsBusyOpen(Apply(st, es[0]), es[1..]);
    }
  }

  lemma StepKeepsServed(st: Server, e: Event, i: nat)
    requires Inv(st) && Enabled(st, e) && e != Stop
    requires i in st.managed && !Busy(st.conns[i])
    ensures i in Apply(st, e).managed && i < |Apply(st, e).conns|
    ensures Apply(st, e).conns[i] == st.conns[i]
  {
    assert ConnInv(st, i);
  }

  lemma {:induction false} IdleConnectionIsKept(st: Server, es: seq<Event>, i: nat)
    requires Inv(st) && ValidRun(st, es) && Stop !in es
    requires i in st.managed && !Busy(st.conns[i])
    ensures i in Exec(st, es).managed && i < |Exec(st, es).conns|
    ensures Exec(st, es).conns[i] == st.conns[i]
    decreases |es|
  {
    if es != [] {
      StepKeepsServed(st, es[0], i);
      StepKeepsInv(st, es[0]);
      IdleConnectionIsKept(Apply(st, es[0]), es[1..], i);
    }
  }

  /** The write that ends a request leaves the connection managed, shut down and with nothing
      outstanding. */
  lemma WriteLeavesIdle(st: Server, i: nat, outcome: Outcome)
    requires Inv(st) && BusyAreOpen(st) && st.acceptorOpen
    requires Enabled(st, WriteDone(i, outcome)) && !outcome.Error?
    ensures
      var st' := Apply(st, WriteDone(i, outcome));
      i in st'.managed && !Busy(st'.conns[i]) && st'.conns[i].trace == st.conns[i].trace + [Shutdown]
  {
    assert ConnInv(st, i);
    BusyIsStarted(st.conns[i]);
    OneOutstanding(st.conns[i]);
  }

  /** A connection that has sent its response is shut down but not erased: it stays in the manager,
      with nothing outstanding, for as long as the server is not stopped. */
  lemma ServedConnectionIsKept(before: seq<Event>, i: nat, outcome: Outcome, after: seq<Event>)
    requires ValidRun(START, before) && Stop !in before && Stop !in after
    requires Enabled(Exec(START, before), WriteDone(i, outcome)) && !outcome.Error?
    requires ValidRun(Apply(Exec(START, before), WriteDone(i, outcome)), after)
    ensures
      var st := Exec(START, before);
      var st' := Exec(Apply(st, WriteDone(i, outcome)), after);
      && i in st'.managed && i < |st'.conns|
      && !Busy(st'.conns[i])
      && st'.conns[i].trace == st.conns[i].trace + [Shutdown]
  {
    StartInv();
    RunKeepsBusyOpen(START, before);
    ListensUntilStop(START, before);
    var st := Exec(START, before);
    WriteLeavesIdle(st, i, outcome);
    StepKeepsInv(st, WriteDone(i, outcome));
    IdleConnectionIsKept(Apply(st, WriteDone(i, outcome)), after, i);
  }

  lemma {:induction false} ListensUntilStop(st: Server, es: seq<Event>)
    requires ValidRun(st, es)
    ensures Exec(st, es).acceptorOpen <==> st.acceptorOpen && Stop !in es
    decreases |es|
  {
    if es != [] {
      ListensUntilStop(Apply(st, es[0]), es[1..]);
    }
  }

  // ---------------------------------------------------------------- what is outstanding, exactly

  predicate OwnError(e: Event, i: nat) {
    Concerns(e, i) && e.outcome.Error?
  }

  predicate EndsIn(c: Conn, reading: bool) {
    c.trace != [] && var last := c.trace[|c.trace| - 1]; if reading then last.StartRead? else last.StartWrite?
  }

  /** Unless one of its handlers failed, the operation that the connection started last is outstanding. */
  ghost predicate Outstanding(c: Conn, failed: bool) {
    && c.pendingReads == (if !failed && EndsIn(c, true) then 1 else 0)
    && c.pendingWrites == (if !failed && EndsIn(c, false) then 1 else 0)
    && (failed ==> Started(c))
  }

  ghost predicate OutstandingAt(st: Server, i: nat, failed: bool) {
    if i < |st.conns| then Outstanding(st.conns[i], failed) else !failed
  }

  lemma OutstandingStep(st: Server, e: Event, i: nat, failed: bool)
    requires Inv(st) && Enabled(st, e) && OutstandingAt(st, i, failed)
    ensures OutstandingAt(Apply(st, e), i, failed || OwnError(e, i))
  {
  }

  lemma {:induction false} OutstandingRun(st: Server, es: seq<Event>, i: nat, failed: bool)
    requires Inv(st) && ValidRun(st, es) && OutstandingAt(st, i, failed)
    ensures OutstandingAt(Exec(st, es), i, failed || exists e :: e in es && OwnError(e, i))
    decreases |es|
  {
    if es != [] {
      OutstandingStep(st, es[0], i, failed);
      StepKeepsInv(st, es[0]);
      OutstandingRun(Apply(st, es[0]), es[1..], i, failed || OwnError(es[0], i));
      assert forall e :: e in es <==> e == es[0] || e in es[1..];
    }
  }

  /** In every run a connection has a read or a write outstanding exactly when that is the last thing it
      did and none of its handlers failed. */
  lemma OutstandingExactly(es: seq<Event>, i: nat)
    requires ValidRun(START, es)
    requires i < |Exec(START, es).conns|
    ensures Outstanding(Exec(START, es).conns[i], exists e :: e in es && OwnError(e, i))
  {
    StartInv();
    OutstandingRun(START, es, i, false);
  }

  /** A read that completes after the stop, aborted or not, is parsed and starts one more operation: a read
      if the request is still incomplete, a write otherwise.  That one can only fail. */
  lemma StoppedReadGoesOn(es: seq<Event>, i: nat, outcome: Outcome, status: Status)
    requires ValidRun(START, es) && Stop in es
    requires Enabled(Exec(START, es), ReadDone(i, outcome, status)) && !outcome.Error?
    ensures
      var c := Apply(Exec(START, es), ReadDone(i, outcome, status)).conns[i];
      && c.pendingReads == (if status == WantMore then 1 else 0)
      && c.pendingWrites == (if status == WantMore then 0 else 1)
      && (forall o :: CanComplete(c, o) <==> o.Error?)
  {
    StartInv();
    RunKeepsInv(START, es);
    ListensUntilStop(START, es);
    StoppedConnStep(Exec(START, es), i);
  }

  /** The last two handlers of a connection whose read was outstanding when the server was stopped. */
  function LastTwo(i: nat, outcome: Outcome, status: Status): seq<Event> {
    [ReadDone(i, outcome, status)] + [if status == WantMore then ReadDone(i, Error, WantMore) else WriteDone(i, Error)]
  }

  lemma TwoStepRun(st: Server, a: Event, b: Event)
    requires Enabled(st, a) && Enabled(Apply(st, a), b)
    ensures ValidRun(st, [a] + [b])
  {
    assert ([a] + [b])[1..] == [b] && [b][1..] == [];
    assert ValidRun(Apply(st, a), [b]);
  }

  /** The bound of two handlers is met by every connection that was reading, whether its read is aborted or
      had succeeded before the stop, and whatever the parser returns. */
  lemma TwoHandlersAreMet(before: seq<Event>, i: nat, outcome: Outcome, status: Status)
    requires ValidRun(START, before) && Stop !in before
    requires i < |Exec(START, before).conns| && Exec(START, before).conns[i].pendingReads > 0 && !outcome.Error?
    ensures Enabled(Exec(START, before), Stop)
    ensures ValidRun(Apply(Exec(START, before), Stop), LastTwo(i, outcome, status))
    ensures HandlersOf(LastTwo(i, outcome, status), i) == 2
  {
    StartInv();
    RunKeepsBusyOpen(START, before);
    ListensUntilStop(START, before);
    var st := Exec(START, before);
    assert ConnInv(st, i);
    BusyIsStarted(st.conns[i]);
    var a, b := LastTwo(i, outcome, status)[0], LastTwo(i, outcome, status)[1];
    TwoStepRun(Apply(st, Stop), a, b);
    assert ([a] + [b])[1..] == [b] && [b][1..] == [];
    assert HandlersOf([b], i) == 1;
  }

  // ---------------------------------------------------------------- what each connection did, exactly

  /** The outcomes of the accepts up to the stop. */
  function AcceptResults(listening: bool, es: seq<Event>): seq<bool>
    decreases |es|
  {
    if es == [] then []
    else
      (if listening && es[0].AcceptDone? then [es[0].ok] else [])
      + AcceptResults(listening && !es[0].Stop?, es[1..])
  }

  /** What a connection does about an event, if it is the connection's own. */
  function Reaction(e: Event, i: nat): seq<Action> {
    match e
    case ReadDone(j, outcome, status) =>
      if j != i || outcome.Error? then []
      else (
        match status
        case WantMore => [Parsed(WantMore), StartRead]
        case Faild => [Parsed(Faild), StartWrite(BadRequest)]
        case Complete => [Parsed(Complete), Dispatched, StartWrite(Answer)])
    case WriteDone(j, outcome) => if j != i || outcome.Error? then [] else [Shutdown]
    case AcceptDone(_) => []
    case Stop => []
  }

  function Reactions(es: seq<Event>, i: nat): seq<Action> {
    if es == [] then [] else Reaction(es[0], i) + Reactions(es[1..], i)
  }

  function TraceAt(st: Server, i: nat): seq<Action> {
    if i < |st.conns| then st.conns[i].trace else []
  }

  function ReadAtTurn(results: seq<bool>, turn: int): seq<Action> {
    if 0 <= turn < |results| && results[turn] then [StartRead] else []
  }

  lemma NextTurn(ok: bool, results: seq<bool>, turn: int)
    ensures ReadAtTurn([ok] + results, turn) ==
            (if ok && turn == 0 then [StartRead] else []) + ReadAtTurn(results, turn - 1)
  {
  }

  /** The read with which connection i starts if, from here on, it is the turn of an accept that succeeds. */
  function FirstRead(st: Server, es: seq<Event>, i: nat): seq<Action> {
    ReadAtTurn(AcceptResults(st.acceptorOpen, es), i + 1 - |st.conns|)
  }

  lemma ReadReacts(c: Conn, i: nat, outcome: Outcome, status: Status)
    requires c.pendingReads > 0
    ensures AfterRead(c, outcome, status).trace == c.trace + Reaction(ReadDone(i, outcome, status), i)
  {
    var t := c.trace;
    assert t + [Parsed(WantMore)] + [StartRead] == t + [Parsed(WantMore), StartRead];
    assert t + [Parsed(Faild)] + [StartWrite(BadRequest)] == t + [Parsed(Faild), StartWrite(BadRequest)];
    assert t + [Parsed(Complete)] + [Dispatched] + [StartWrite(Answer)]
        == t + [Parsed(Complete), Dispatched, StartWrite(Answer)];
  }

  predicate StartsConn(st: Server, e: Event, i: nat) {
    e == AcceptDone(true) && st.acceptorOpen && i + 1 == |st.conns|
  }

  lemma StepReacts(st: Server, e: Event, i: nat)
    requires Inv(st) && Enabled(st, e)
    ensures TraceAt(Apply(st, e), i) ==
            TraceAt(st, i) + (if StartsConn(st, e, i) then [StartRead] else []) + Reaction(e, i)
  {
    var t := TraceAt(st, i);
    assert t + [] == t && t + [] + [] == t && t + [] + Reaction(e, i) == t + Reaction(e, i);
    match e
    case AcceptDone(ok) =>
      assert t + [StartRead] + [] == t + [StartRead];
    case ReadDone(j, outcome, status) =>
      ReadReacts(st.conns[j], j, outcome, status);
    case WriteDone(j, outcome) =>
    case Stop =>
  }

  lemma ResultsCons(listening: bool, e: Event, es: seq<Event>)
    ensures
      var later := AcceptResults(listening && !e.Stop?, es);
      AcceptResults(listening, [e] + es) == if listening && e.AcceptDone? then [e.ok] + later else later
  {
    assert ([e] + es)[1..] == es;
  }

  lemma FirstReadStep(st: Server, e: Event, es: seq<Event>, i: nat)
    requires Inv(st) && Enabled(st, e)
    ensures FirstRead(st, [e] + es, i) ==
            (if StartsConn(st, e, i) then [StartRead] else []) + FirstRead(Apply(st, e), es, i)
  {
    ResultsCons(st.acceptorOpen, e, es);
    assert Apply(st, e).acceptorOpen == (st.acceptorOpen && !e.Stop?);
    if st.acceptorOpen && e.AcceptDone? {
      NextTurn(e.ok, AcceptResults(true, es), i + 1 - |st.conns|);
    }
  }

  lemma OwnEventIsLater(st: Server, e: Event, es: seq<Event>, i: nat)
    requires Inv(st) && Enabled(st, e) && Reaction(e, i) != []
    ensures FirstRead(Apply(st, e), es, i) == []
  {
    assert ConnInv(st, i);
    BusyIsStarted(st.conns[i]);
    if !st.acceptorOpen {
      NoResults(es);
    }
  }

  lemma {:induction false} NoResults(es: seq<Event>)
    ensures AcceptResults(false, es) == []
    decreases |es|
  {
    if es != [] {
      NoResults(es[1..]);
    }
  }

  lemma Shuffle(t: seq<Action>, start: seq<Action>, now: seq<Action>, first: seq<Action>, later: seq<Action>)
    requires now == [] || first == []
    ensures t + start + now + first + later == t + (start + first) + (now + later)
  {
  }

  lemma {:induction false} RunReacts(st: Server, es: seq<Event>, i: nat)
    requires Inv(st) && ValidRun(st, es)
    ensures TraceAt(Exec(st, es), i) == TraceAt(st, i) + FirstRead(st, es, i) + Reactions(es, i)
    decreases |es|
  {
    if es == [] {
      assert TraceAt(st, i) + [] + [] == TraceAt(st, i);
    } else {
      var e, rest, st' := es[0], es[1..], Apply(st, es[0]);
      assert es == [e] + rest;
      StepReacts(st, e, i);
      FirstReadStep(st, e, rest, i);
      if Reaction(e, i) != [] {
        OwnEventIsLater(st, e, rest, i);
      }
      StepKeepsInv(st, e);
      RunReacts(st', rest, i);
      var start := if StartsConn(st, e, i) then [StartRead] else [];
      Shuffle(TraceAt(st, i), start, Reaction(e, i), FirstRead(st', rest, i), Reactions(rest, i));
    }
  }

  lemma {:induction false} RunAccepts(st: Server, es: seq<Event>)
    requires ValidRun(st, es)
    ensures |Exec(st, es).conns| == |st.conns| + |AcceptResults(st.acceptorOpen, es)|
    decreases |es|
  {
    if es != [] {
      RunAccepts(Apply(st, es[0]), es[1..]);
    }
  }

  /** The history of every connection is determined by the outcome of its own accept and its own events,
      whatever the others do in between. */
  lemma HistoryIsOwnEvents(es: seq<Event>, i: nat)
    requires ValidRun(START, es)
    requires i < |Exec(START, es).conns|
    ensures
      var results := AcceptResults(true, es);
      && |Exec(START, es).conns| == |results| + 1
      && Exec(START, es).conns[i].trace ==
           (if i < |results| && results[i] then [StartRead] else []) + Reactions(es, i)
  {
    StartInv();
    RunReacts(START, es, i);
    RunAccepts(START, es);
    assert TraceAt(START, i) == [];
  }

  // ---------------------------------------------------------------- every script occurs

  lemma {:induction false} RunSnoc(st: Server, es: seq<Event>, e: Event)
    requires ValidRun(st, es) && Enabled(Exec(st, es), e)
    ensures ValidRun(st, es + [e]) && Exec(st, es + [e]) == Apply(Exec(st, es), e)
    decreases |es|
  {
    if es == [] {
      assert [] + [e] == [e] && [e][1..] == [];
    } else {
      assert (es + [e])[1..] == es[1..] + [e];
      RunSnoc(Apply(st, es[0]), es[1..], e);
    }
  }

  lemma {:induction false} ReadsOccur(n: nat) returns (es: seq<Event>)
    ensures ValidRun(START, es) && |Exec(START, es).conns| == 2
    ensures Exec(START, es).conns[0] == Conn(true, 1, 0, false, Reads(n))
  {
    if n == 0 {
      es := [AcceptDone(true)];
      assert es[1..] == [];
      assert Exec(START, es) == Apply(START, AcceptDone(true));
    } else {
      var fewer := ReadsOccur(n - 1);
      RunSnoc(START, fewer, ReadDone(0, Success, WantMore));
      es := fewer + [ReadDone(0, Success, WantMore)];
      assert Reads(n) == Reads(n - 1) + [Parsed(WantMore)] + [StartRead];
    }
  }

  lemma RequestEnds(n: nat, status: Status) returns (es: seq<Event>)
    requires status != WantMore
    ensures ValidRun(START, es) && |Exec(START, es).conns| == 2
    ensures
      var ending := if status == Complete then Answered(false) else Rejected(false);
      Exec(START, es).conns[0] == Conn(true, 0, 1, false, Script(n, ending))
  {
    var before := ReadsOccur(n);
    RunSnoc(START, before, ReadDone(0, Success, status));
    es := before + [ReadDone(0, Success, status)];
    var r := Reads(n);
    assert r + [Parsed(Complete)] + [Dispatched] + [StartWrite(Answer)] == Script(n, Answered(false));
    assert r + [Parsed(Faild)] + [StartWrite(BadRequest)] == Script(n, Rejected(false));
  }

  /** Every history that the script allows is that of a connection in some run. */
  lemma EveryScriptOccurs(n: nat, e: Ending) returns (es: seq<Event>)
    ensures ValidRun(START, es) && Exec(START, es).conns != []
    ensures Exec(START, es).conns[0].trace == Script(n, e)
  {
    match e
    case Unstarted =>
      es := [];
    case Reading =>
      es := ReadsOccur(n);
      assert Script(n, Reading) == Reads(n);
    case Rejected(done) =>
      es := RequestEnds(n, Faild);
      if done {
        RunSnoc(START, es, WriteDone(0, Success));
        es := es + [WriteDone(0, Success)];
        assert Script(n, Rejected(true)) == Script(n, Rejected(false)) + [Shutdown];
      }
    case Answered(done) =>
      es := RequestEnds(n, Complete);
      if done {
        RunSnoc(START, es, WriteDone(0, Success));
        es := es + [WriteDone(0, Success)];
        assert Script(n, Answered(true)) == Script(n, Answered(false)) + [Shutdown];
      }
  }
}
