/** The chat server as a state machine over completion handlers.

    One thread runs the event loop, so every handler is one atomic step; interleaving happens
    only between handlers.  `log` is the history of broadcasts, `items` and `joined` are the
    histories of one session. */
module Chat {
  import opened Bytes
  import opened LineReader
  import opened Outboxes
  import opened Sums

  const GREETING := "Welcome to the chat server\n"
  const JOINED := " joined\n"
  const LEFT := " has left the chat"

  function NameOf(endpoint: string): string {
    "[" + endpoint + "]: "
  }

  datatype Broadcast =
    | Joined(endpoint: string)
    | Said(speaker: nat, name: string, line: string)
    | Left(name: string)
  {
    function Text(): string {
      match this
      case Joined(endpoint) => endpoint + JOINED
      case Said(_, name, line) => name + line
      case Left(name) => name + LEFT
    }
  }

  /** Why a message was posted to a session. */
  datatype Item =
    | Welcome
    | Heard(cast: Broadcast)
    | Echo(line: string)
  {
    function Text(): string {
      match this
      case Welcome => GREETING
      case Heard(b) => b.Text()
      case Echo(line) => line
    }
  }

  function Texts(items: seq<Item>): (r: seq<string>)
    ensures |r| == |items|
    ensures forall k :: 0 <= k < |items| ==> r[k] == items[k].Text()
  {
    seq(|items|, k requires 0 <= k < |items| => items[k].Text())
  }

  datatype Session = Session(
    out: Outbox,
    pendingReads: nat,
    buffer: string,
    name: string,
    items: seq<Item>,
    joined: nat)

  datatype Server = Server(accepts: nat, sessions: seq<Session>, log: seq<Broadcast>)

  datatype Event =
    | Accepted(endpoint: string)
    | AcceptFailed
    | LineRead(i: nat, data: string)  // the stream buffer holds `data`, with at least one newline
    | ReadFailed(i: nat)
    | Wrote(i: nat, w: Write)

  // ---------------------------------------------------------------- steps

  const INIT := Server(1, [], [])

  /** At most one write is in flight, and it has a message to write. */
  predicate Postable(s: Session) {
    s.out.pendingWrites <= 1 && (s.out.pendingWrites > 0 ==> s.out.queue != [])
  }

  function Deliver(s: Session, item: Item): (r: Session)
    ensures Postable(s) ==> Postable(r)
  {
    s.(out := Post(s.out, item.Text()), items := s.items + [item])
  }

  function DeliverAll(sessions: seq<Session>, item: Item): (r: seq<Session>)
    ensures |r| == |sessions|
    ensures forall j :: 0 <= j < |sessions| ==> r[j] == Deliver(sessions[j], item)
  {
    seq(|sessions|, j requires 0 <= j < |sessions| => Deliver(sessions[j], item))
  }

  /** A session that just started: nothing posted yet, one read outstanding. */
  function Arrival(endpoint: string, joined: nat): Session {
    Session(Fresh(), 1, "", NameOf(endpoint), [], joined)
  }

  function Newcomer(endpoint: string, joined: nat): Session {
    Deliver(Arrival(endpoint, joined), Welcome)
  }

  predicate Enabled(st: Server, e: Event) {
    match e
    case Accepted(_) => st.accepts > 0
    case AcceptFailed => st.accepts > 0
    case LineRead(i, data) => i < |st.sessions| && st.sessions[i].pendingReads > 0 && '\n' in data
    case ReadFailed(i) => i < |st.sessions| && st.sessions[i].pendingReads > 0
    case Wrote(i, w) => i < |st.sessions| && CanWrite(st.sessions[i].out, w)
  }

  /** The broadcast that a handler makes, if it makes one.  A session rejected by the acceptor is
      destroyed on the spot, and its destructor announces it under its still empty name. */
  function Casts(st: Server, e: Event): (r: seq<Broadcast>)
    requires Enabled(st, e)
    ensures |r| <= 1
  {
    match e
    case Accepted(endpoint) => [Joined(endpoint)]
    case AcceptFailed => [Left("")]
    case LineRead(i, data) => [Said(i, st.sessions[i].name, Line(data))]
    case ReadFailed(_) => []
    case Wrote(_, _) => []
  }

  /** What a step does to a session that had already joined. */
  function Local(st: Server, e: Event, j: nat): Session
    requires Enabled(st, e) && j < |st.sessions|
  {
    var s := st.sessions[j];
    match e
    case Accepted(endpoint) => Deliver(s, Heard(Joined(endpoint)))
    case AcceptFailed => Deliver(s, Heard(Left("")))
    case LineRead(i, data) =>
      var b := Said(i, st.sessions[i].name, Line(data));
      if i == j then Deliver(Deliver(AfterRead(s, data), Heard(b)), Echo(Line(data)))
      else Deliver(s, Heard(b))
    case ReadFailed(i) =>
      if i == j then s.(pendingReads := s.pendingReads - 1, out := Close(s.out)) else s
    case Wrote(i, w) =>
      if i == j then s.(out := ApplyWrite(s.out, w)) else s
  }

  function AfterRead(s: Session, data: string): Session
    requires s.pendingReads > 0 && '\n' in data
  {
    s.(pendingReads := s.pendingReads - 1, buffer := Leftover(data))
  }

  function Apply(st: Server, e: Event): (r: Server)
    requires Enabled(st, e)
    ensures |st.sessions| <= |r.sessions|
    ensures forall j :: 0 <= j < |st.sessions| ==> r.sessions[j] == Local(st, e, j)
  {
    var log := st.log + Casts(st, e);
    Server(
      if e.AcceptFailed? then st.accepts - 1 else st.accepts,
      seq(|st.sessions|, j requires 0 <= j < |st.sessions| => Local(st, e, j))
        + (if e.Accepted? then [Newcomer(e.endpoint, |log|)] else []),
      log)
  }

  // The same steps in the order in which the handlers produce them: a broadcast visits all sessions,
  // and only then does the caller post its own message or append the new session.

  lemma GreetedThenStarted(endpoint: string, joined: nat)
    ensures Deliver(Session(Fresh(), 0, "", "", [], 0), Welcome)
              .(joined := joined, name := NameOf(endpoint), pendingReads := 1) == Newcomer(endpoint, joined)
  {
  }

  lemma AcceptedIs(st: Server, endpoint: string)
    requires Enabled(st, Accepted(endpoint))
    ensures Apply(st, Accepted(endpoint)) == Server(
              st.accepts,
              DeliverAll(st.sessions, Heard(Joined(endpoint))) + [Newcomer(endpoint, |st.log| + 1)],
              st.log + [Joined(endpoint)])
  {
  }

  lemma AcceptFailedIs(st: Server)
    requires Enabled(st, AcceptFailed)
    ensures Apply(st, AcceptFailed) == Server(
              st.accepts - 1,
              DeliverAll(st.sessions, Heard(Left(""))),
              st.log + [Left("")])
  {
    assert Apply(st, AcceptFailed).sessions == DeliverAll(st.sessions, Heard(Left("")));
  }

  lemma LineReadIs(st: Server, i: nat, data: string)
    requires Enabled(st, LineRead(i, data))
    ensures
      var b := Said(i, st.sessions[i].name, Line(data));
      var heard := DeliverAll(st.sessions[i := AfterRead(st.sessions[i], data)], Heard(b));
      Apply(st, LineRead(i, data)) == Server(
        st.accepts,
        heard[i := Deliver(heard[i], Echo(Line(data)))],
        st.log + [b])
  {
    var b := Said(i, st.sessions[i].name, Line(data));
    var heard := DeliverAll(st.sessions[i := AfterRead(st.sessions[i], data)], Heard(b));
    assert Apply(st, LineRead(i, data)).sessions == heard[i := Deliver(heard[i], Echo(Line(data)))];
  }

  lemma ReadFailedIs(st: Server, i: nat)
    requires Enabled(st, ReadFailed(i))
    ensures Apply(st, ReadFailed(i)) == Server(st.accepts, st.sessions[i := Local(st, ReadFailed(i), i)], st.log)
  {
    assert Apply(st, ReadFailed(i)).sessions == st.sessions[i := Local(st, ReadFailed(i), i)];
  }

  lemma WroteIs(st: Server, i: nat, w: Write)
    requires Enabled(st, Wrote(i, w))
    ensures
      var s := st.sessions[i];
      Apply(st, Wrote(i, w)) == Server(st.accepts, st.sessions[i := s.(out := ApplyWrite(s.out, w))], st.log)
  {
    var s := st.sessions[i];
    assert Apply(st, Wrote(i, w)).sessions == st.sessions[i := s.(out := ApplyWrite(s.out, w))];
  }

  predicate ValidRun(st: Server, es: seq<Event>)
    decreases |es|
  {
    es == [] || (Enabled(st, es[0]) && ValidRun(Apply(st, es[0]), es[1..]))
  }

  function Exec(st: Server, es: seq<Event>): Server
    requires ValidRun(st, es)
    decreases |es|
  {
    if es == [] then st else Exec(Apply(st, es[0]), es[1..])
  }

  // ---------------------------------------------------------------- the specification of a history

  /** What session i is sent for one broadcast: the broadcast, and its own bare line if it spoke. */
  function ItemsFor(b: Broadcast, i: nat): seq<Item> {
    [Heard(b)] + if b.Said? && b.speaker == i then [Echo(b.line)] else []
  }

  function Weave(bs: seq<Broadcast>, i: nat): seq<Item> {
    if bs == [] then [] else Weave(bs[..|bs| - 1], i) + ItemsFor(bs[|bs| - 1], i)
  }

  function HeardBy(items: seq<Item>): seq<Broadcast> {
    if items == [] then []
    else
      var last := items[|items| - 1];
      HeardBy(items[..|items| - 1]) + if last.Heard? then [last.cast] else []
  }

  lemma {:induction false} HeardAppend(a: seq<Item>, b: seq<Item>)
    ensures HeardBy(a + b) == HeardBy(a) + HeardBy(b)
  {
    if b == [] {
      assert a + b == a;
    } else {
      assert (a + b)[..|a + b| - 1] == a + b[..|b| - 1];
      HeardAppend(a, b[..|b| - 1]);
    }
  }

  lemma {:induction false} WeaveHears(bs: seq<Broadcast>, i: nat)
    ensures HeardBy(Weave(bs, i)) == bs
  {
    if bs != [] {
      var b := bs[|bs| - 1];
      WeaveHears(bs[..|bs| - 1], i);
      HeardAppend(Weave(bs[..|bs| - 1], i), ItemsFor(b, i));
      HeardAppend([Heard(b)], if b.Said? && b.speaker == i then [Echo(b.line)] else []);
      assert HeardBy([Heard(b)]) == [b] && HeardBy([Echo(b.Text())]) == [];
      assert HeardBy(ItemsFor(b, i)) == [b];
    }
  }

  // ---------------------------------------------------------------- the invariant

  predicate SpokenBy(b: Broadcast, i: nat) {
    b.Said? && b.speaker == i
  }

  /** The write queue of a session agrees with the items it was posted. */
  ghost predicate Consistent(s: Session) {
    Valid(s.out) && s.out.posted == Texts(s.items) && s.pendingReads <= 1
  }

  /** The history of session i is the one specified. */
  ghost predicate Woven(s: Session, log: seq<Broadcast>, i: nat) {
    s.joined <= |log| && s.items == [Welcome] + Weave(log[s.joined..], i)
  }

  /** Session i has been heard at most once, and not at all while its read is outstanding. */
  ghost predicate HeardOnce(s: Session, log: seq<Broadcast>, i: nat) {
    && (forall p :: 0 <= p < |log| && SpokenBy(log[p], i) ==> s.pendingReads == 0)
    && (forall p, q :: 0 <= p < q < |log| ==> !(SpokenBy(log[p], i) && SpokenBy(log[q], i)))
  }

  ghost predicate SessionInv(st: Server, i: nat)
    requires i < |st.sessions|
  {
    Consistent(st.sessions[i]) && Woven(st.sessions[i], st.log, i) && HeardOnce(st.sessions[i], st.log, i)
  }

  /** Sessions are listed in the order in which they joined. */
  ghost predicate JoinedInOrder(st: Server) {
    && (forall i :: 0 <= i < |st.sessions| ==> st.sessions[i].joined <= |st.log|)
    && (forall i, j :: 0 <= i < j < |st.sessions| ==> st.sessions[i].joined < st.sessions[j].joined)
  }

  ghost predicate SpeakersExist(st: Server) {
    forall p :: 0 <= p < |st.log| && st.log[p].Said? ==> st.log[p].speaker < |st.sessions|
  }

  ghost predicate Inv(st: Server) {
    && st.accepts <= 1
    && (forall i :: 0 <= i < |st.sessions| ==> SessionInv(st, i))
    && JoinedInOrder(st)
    && SpeakersExist(st)
  }

  lemma TextsSnoc(items: seq<Item>, item: Item)
    ensures Texts(items + [item]) == Texts(items) + [item.Text()]
  {
  }

  lemma DeliverConsistent(s: Session, item: Item)
    requires Consistent(s)
    ensures Consistent(Deliver(s, item))
  {
    PostValid(s.out, item.Text());
    TextsSnoc(s.items, item);
  }

  lemma WeaveSnoc(log: seq<Broadcast>, joined: nat, b: Broadcast, i: nat)
    requires joined <= |log|
    ensures [Welcome] + Weave((log + [b])[joined..], i) == [Welcome] + Weave(log[joined..], i) + ItemsFor(b, i)
  {
    var bs := (log + [b])[joined..];
    assert bs[..|bs| - 1] == log[joined..];
  }

  lemma LocalWoven(st: Server, e: Event, j: nat)
    requires Enabled(st, e) && j < |st.sessions|
    requires Woven(st.sessions[j], st.log, j)
    ensures Woven(Local(st, e, j), st.log + Casts(st, e), j)
  {
    var casts := Casts(st, e);
    if casts == [] {
      assert st.log + casts == st.log;
    } else {
      assert casts == [casts[0]];
      WeaveSnoc(st.log, st.sessions[j].joined, casts[0], j);
    }
  }

  lemma SpeakerConsistent(s: Session, data: string, b: Broadcast)
    requires Consistent(s) && s.pendingReads > 0 && '\n' in data
    ensures Consistent(Deliver(Deliver(AfterRead(s, data), Heard(b)), Echo(Line(data))))
  {
    DeliverConsistent(AfterRead(s, data), Heard(b));
    DeliverConsistent(Deliver(AfterRead(s, data), Heard(b)), Echo(Line(data)));
  }

  lemma WriterConsistent(s: Session, w: Write)
    requires Consistent(s) && CanWrite(s.out, w)
    ensures Consistent(s.(out := ApplyWrite(s.out, w)))
  {
    WriteValid(s.out, w);
  }

  /** A session that did not itself complete an operation is sent the broadcast, if there is one. */
  lemma BystanderHears(st: Server, e: Event, j: nat)
    requires Enabled(st, e) && j < |st.sessions|
    requires e.Accepted? || e.AcceptFailed? || e.i != j
    ensures Local(st, e, j) ==
            if Casts(st, e) == [] then st.sessions[j] else Deliver(st.sessions[j], Heard(Casts(st, e)[0]))
  {
  }

  lemma LocalConsistent(st: Server, e: Event, j: nat)
    requires Enabled(st, e) && j < |st.sessions|
    requires Consistent(st.sessions[j])
    ensures Consistent(Local(st, e, j))
  {
    var s := st.sessions[j];
    if e.Accepted? || e.AcceptFailed? || e.i != j {
      BystanderHears(st, e, j);
      if Casts(st, e) != [] {
        DeliverConsistent(s, Heard(Casts(st, e)[0]));
      }
    } else if e.LineRead? {
      SpeakerConsistent(s, e.data, Said(j, s.name, Line(e.data)));
    } else if e.Wrote? {
      WriterConsistent(s, e.w);
    }
  }

  lemma NewcomerConsistent(endpoint: string, joined: nat)
    ensures Consistent(Newcomer(endpoint, joined))
  {
    assert Texts([]) == [];
    DeliverConsistent(Arrival(endpoint, joined), Welcome);
  }

  lemma NewcomerWoven(endpoint: string, log: seq<Broadcast>, i: nat)
    ensures Woven(Newcomer(endpoint, |log|), log, i)
  {
    assert log[|log|..] == [];
  }

  lemma LocalHeardOnce(st: Server, e: Event, j: nat)
    requires Enabled(st, e) && j < |st.sessions|
    requires HeardOnce(st.sessions[j], st.log, j) && st.sessions[j].pendingReads <= 1
    ensures HeardOnce(Local(st, e, j), st.log + Casts(st, e), j)
  {
  }

  lemma LocalKeepsInv(st: Server, e: Event, j: nat)
    requires Enabled(st, e) && j < |st.sessions| && SessionInv(st, j)
    ensures
      var s, log := Local(st, e, j), st.log + Casts(st, e);
      Consistent(s) && Woven(s, log, j) && HeardOnce(s, log, j)
  {
    LocalConsistent(st, e, j);
    LocalWoven(st, e, j);
    LocalHeardOnce(st, e, j);
  }

  lemma LocalKeepsJoined(st: Server, e: Event, j: nat)
    requires Enabled(st, e) && j < |st.sessions|
    ensures Local(st, e, j).joined == st.sessions[j].joined
  {
  }

  lemma StepKeepsSession(st: Server, e: Event, j: nat)
    requires Inv(st) && Enabled(st, e) && j < |Apply(st, e).sessions|
    ensures SessionInv(Apply(st, e), j)
  {
    if j < |st.sessions| {
      assert SessionInv(st, j);
      LocalKeepsInv(st, e, j);
    } else {
      NewcomerConsistent(e.endpoint, |st.log| + 1);
      NewcomerWoven(e.endpoint, Apply(st, e).log, j);
    }
  }

  lemma StepKeepsOrder(st: Server, e: Event)
    requires Enabled(st, e) && JoinedInOrder(st)
    ensures JoinedInOrder(Apply(st, e))
  {
    forall j | 0 <= j < |st.sessions|
      ensures Apply(st, e).sessions[j].joined == st.sessions[j].joined
    {
      LocalKeepsJoined(st, e, j);
    }
  }

  lemma StepKeepsSpeakers(st: Server, e: Event)
    requires Enabled(st, e) && SpeakersExist(st)
    ensures SpeakersExist(Apply(st, e))
  {
  }

  lemma StepKeepsInv(st: Server, e: Event)
    requires Inv(st) && Enabled(st, e)
    ensures Inv(Apply(st, e))
  {
    forall j | 0 <= j < |Apply(st, e).sessions|
      ensures SessionInv(Apply(st, e), j)
    {
      StepKeepsSession(st, e, j);
    }
    StepKeepsOrder(st, e);
    StepKeepsSpeakers(st, e);
  }

  lemma {:induction false} RunKeepsInv(st: Server, es: seq<Event>)
    requires Inv(st) && ValidRun(st, es)
    ensures Inv(Exec(st, es))
    decreases |es|
  {
    if es != [] {
      StepKeepsInv(st, es[0]);
      RunKeepsInv(Apply(st, es[0]), es[1..]);
    }
  }

  lemma Reachable(es: seq<Event>)
    requires ValidRun(INIT, es)
    ensures Inv(Exec(INIT, es))
  {
    RunKeepsInv(INIT, es);
  }

  // ---------------------------------------------------------------- theorems over all runs

  lemma HearsTheLog(s: Session, log: seq<Broadcast>, i: nat)
    requires Woven(s, log, i)
    ensures HeardBy(s.items) == log[s.joined..]
  {
    HeardAppend([Welcome], Weave(log[s.joined..], i));
    WeaveHears(log[s.joined..], i);
    assert HeardBy([Welcome]) == [];
  }

  lemma Suffix(log: seq<Broadcast>, a: nat, b: nat)
    requires a <= b <= |log|
    ensures log[b..] == log[a..][b - a..]
  {
  }

  /** Session i, in state a, was sent the greeting and then exactly the broadcasts made since it joined,
      with its own bare line right after a broadcast it caused; and what a later joiner, in state b,
      has heard is a suffix of what it has heard: no gap, no duplicate, no other order. */
  ghost predicate TotallyOrdered(log: seq<Broadcast>, i: nat, a: Session, b: Session) {
    && a.joined <= b.joined <= |log|
    && a.out.posted == Texts([Welcome] + Weave(log[a.joined..], i))
    && HeardBy(a.items) == log[a.joined..]
    && HeardBy(b.items) == HeardBy(a.items)[b.joined - a.joined..]
  }

  lemma WovenIsOrdered(log: seq<Broadcast>, i: nat, a: Session, j: nat, b: Session)
    requires Consistent(a) && Woven(a, log, i) && Woven(b, log, j) && a.joined <= b.joined
    ensures TotallyOrdered(log, i, a, b)
  {
    HearsTheLog(a, log, i);
    HearsTheLog(b, log, j);
    Suffix(log, a.joined, b.joined);
  }

  lemma PairIsOrdered(st: Server, i: nat, j: nat)
    requires Inv(st) && i <= j < |st.sessions|
    ensures TotallyOrdered(st.log, i, st.sessions[i], st.sessions[j])
  {
    assert SessionInv(st, i) && SessionInv(st, j);
    WovenIsOrdered(st.log, i, st.sessions[i], j, st.sessions[j]);
  }

  /** Total-order broadcast, in every reachable state and for every two sessions. */
  lemma TotalOrder(es: seq<Event>, i: nat, j: nat)
    requires ValidRun(INIT, es)
    requires i <= j < |Exec(INIT, es).sessions|
    ensures
      var st := Exec(INIT, es);
      TotallyOrdered(st.log, i, st.sessions[i], st.sessions[j])
  {
    Reachable(es);
    PairIsOrdered(Exec(INIT, es), i, j);
  }

  /** The read is never re-armed after a line, so no session is ever heard twice, and one whose
      read is still outstanding has not been heard at all. */
  lemma SpeaksAtMostOnce(es: seq<Event>, i: nat)
    requires ValidRun(INIT, es)
    requires i < |Exec(INIT, es).sessions|
    ensures
      var st := Exec(INIT, es);
      && (forall p, q :: 0 <= p < q < |st.log| ==> !(SpokenBy(st.log[p], i) && SpokenBy(st.log[q], i)))
      && (st.sessions[i].pendingReads > 0 ==> forall p :: 0 <= p < |st.log| ==> !SpokenBy(st.log[p], i))
  {
    Reachable(es);
    assert SessionInv(Exec(INIT, es), i);
  }

  /** Byte-level refinement of the write queue, errors or not: the wire and the unsent bytes make
      up exactly what was posted, one write at most is in flight, and it writes the queue's front. */
  lemma WireRefinesPosted(es: seq<Event>, i: nat)
    requires ValidRun(INIT, es)
    requires i < |Exec(INIT, es).sessions|
    ensures
      var s := Exec(INIT, es).sessions[i];
      && s.out.wire + Unsent(s.out) == Concat(Texts(s.items))
      && s.out.wire <= Concat(Texts(s.items))
      && s.out.pendingWrites <= 1
      && (s.out.pendingWrites == 1 ==> s.out.queue != [])
      && |s.out.queue| <= |s.items|
      && s.out.queue == Texts(s.items)[|s.items| - |s.out.queue|..]
  {
    Reachable(es);
    assert SessionInv(Exec(INIT, es), i);
    WireIsPrefix(Exec(INIT, es).sessions[i].out);
  }

  /** The buffer in flight stays the front of the queue: posts append behind it, and only its own
      successful completion takes it off. */
  lemma FrontStaysInFlight(st: Server, e: Event, i: nat)
    requires Enabled(st, e) && i < |st.sessions| && e != Wrote(i, Finished)
    requires st.sessions[i].out.queue != []
    ensures i < |Apply(st, e).sessions| && Apply(st, e).sessions[i].out.queue != []
    ensures Apply(st, e).sessions[i].out.queue[0] == st.sessions[i].out.queue[0]
  {
    LocalKeepsFront(st, e, i);
  }

  lemma LocalKeepsFront(st: Server, e: Event, i: nat)
    requires Enabled(st, e) && i < |st.sessions| && e != Wrote(i, Finished)
    requires st.sessions[i].out.queue != []
    ensures Local(st, e, i).out.queue != [] && Local(st, e, i).out.queue[0] == st.sessions[i].out.queue[0]
  {
  }

  predicate FailsWrite(e: Event, i: nat) {
    e == Wrote(i, Failed)
  }

  /** Only its own failed write can leave a session with a queue that nothing drains. */
  lemma LocalDoesNotStall(st: Server, e: Event, i: nat)
    requires Enabled(st, e) && i < |st.sessions| && !FailsWrite(e, i)
    requires Valid(st.sessions[i].out) && !Stalled(st.sessions[i].out)
    ensures !Stalled(Local(st, e, i).out)
  {
  }

  lemma {:induction false} NeverStalls(st: Server, es: seq<Event>, i: nat)
    requires Inv(st) && ValidRun(st, es)
    requires forall e :: e in es ==> !FailsWrite(e, i)
    requires i < |st.sessions| ==> !Stalled(st.sessions[i].out)
    ensures i < |Exec(st, es).sessions| ==> !Stalled(Exec(st, es).sessions[i].out)
    decreases |es|
  {
    if es != [] {
      assert !FailsWrite(es[0], i);
      StepKeepsInv(st, es[0]);
      if i < |st.sessions| {
        assert SessionInv(st, i);
        LocalDoesNotStall(st, es[0], i);
      }
      NeverStalls(Apply(st, es[0]), es[1..], i);
    }
  }

  /** Quiescence: as long as no write of session i fails, its queue is non-empty exactly while a
      write is in flight, and with none in flight every posted byte has been sent. */
  lemma Quiescence(es: seq<Event>, i: nat)
    requires ValidRun(INIT, es)
    requires i < |Exec(INIT, es).sessions|
    requires forall e :: e in es ==> !FailsWrite(e, i)
    ensures
      var s := Exec(INIT, es).sessions[i];
      && (s.out.queue != [] <==> s.out.pendingWrites == 1)
      && (s.out.pendingWrites == 0 ==> s.out.wire == Concat(Texts(s.items)))
  {
    Reachable(es);
    assert SessionInv(Exec(INIT, es), i);
    NeverStalls(INIT, es, i);
  }

  // ---------------------------------------------------------------- draining

  function SessionBacklog(s: Session): nat {
    Backlog(s.out)
  }

  function TotalBacklog(sessions: seq<Session>): nat {
    Sum(sessions, SessionBacklog)
  }

  lemma WriteStepShrinks(st: Server, i: nat, w: Write)
    requires Inv(st) && Enabled(st, Wrote(i, w))
    ensures
      var st' := Apply(st, Wrote(i, w));
      && |st'.sessions| == |st.sessions|
      && TotalBacklog(st'.sessions) < TotalBacklog(st.sessions)
      && (forall j :: 0 <= j < |st.sessions| ==> st'.sessions[j].items == st.sessions[j].items)
  {
    assert SessionInv(st, i);
    var s := st.sessions[i];
    var s' := s.(out := ApplyWrite(s.out, w));
    WroteIs(st, i, w);
    WriteShrinksBacklog(s.out, w);
    SumOfUpdate(st.sessions, SessionBacklog, i, s');
  }

  /** With no further accepts or reads the writes drain: no run of write steps is longer than the
      bytes and messages waiting, and it never touches what was posted. */
  lemma {:induction false} WritesDrain(st: Server, es: seq<Event>)
    requires Inv(st) && ValidRun(st, es)
    requires forall e :: e in es ==> e.Wrote?
    ensures |es| + TotalBacklog(Exec(st, es).sessions) <= TotalBacklog(st.sessions)
    ensures |Exec(st, es).sessions| == |st.sessions|
    ensures forall i :: 0 <= i < |st.sessions| ==> Exec(st, es).sessions[i].items == st.sessions[i].items
    decreases |es|
  {
    if es != [] {
      assert es[0].Wrote?;
      WriteStepShrinks(st, es[0].i, es[0].w);
      StepKeepsInv(st, es[0]);
      WritesDrain(Apply(st, es[0]), es[1..]);
    }
  }

  /** A step that the write in flight can always take, and that is an error only on a closed socket. */
  function NextWrite(o: Outbox): Write
    requires Valid(o) && o.pendingWrites > 0
  {
    if o.sent == |o.queue[0]| then Finished
    else if o.open then Sent(|o.queue[0]| - o.sent)
    else Failed
  }

  /** Once no write step is possible any more, every session that was not stuck and had no failing
      write has received every byte of everything that was posted to it. */
  lemma DrainedRunDeliversAll(st: Server, es: seq<Event>, i: nat)
    requires Inv(st) && ValidRun(st, es)
    requires forall e :: e in es ==> e.Wrote?
    requires forall e: Event :: e.Wrote? ==> !Enabled(Exec(st, es), e)
    requires i < |st.sessions|
    ensures i < |Exec(st, es).sessions|
    ensures
      var s := Exec(st, es).sessions[i];
      && s.out.pendingWrites == 0
      && s.items == st.sessions[i].items
      && (!Stalled(st.sessions[i].out) && (forall e :: e in es ==> !FailsWrite(e, i)) ==>
            s.out.wire == Concat(Texts(st.sessions[i].items)))
  {
    RunKeepsInv(st, es);
    WritesDrain(st, es);
    var last := Exec(st, es);
    assert SessionInv(last, i);
    if last.sessions[i].out.pendingWrites > 0 {
      var e := Wrote(i, NextWrite(last.sessions[i].out));
      assert e.Wrote? && Enabled(last, e);
    }
    if !Stalled(st.sessions[i].out) && forall e :: e in es ==> !FailsWrite(e, i) {
      NeverStalls(st, es, i);
    }
  }

  // ---------------------------------------------------------------- failure isolation

  /** After a failed write a session is frozen: whatever happens later, it starts no write, not one
      more byte reaches its wire, and its queue only grows. */
  lemma {:induction false} FailedSessionIsFrozen(st: Server, es: seq<Event>, i: nat)
    requires ValidRun(st, es)
    requires i < |st.sessions| && Stalled(st.sessions[i].out)
    ensures i < |Exec(st, es).sessions|
    ensures
      var before, after := st.sessions[i].out, Exec(st, es).sessions[i].out;
      && Stalled(after)
      && after.wire == before.wire
      && before.queue <= after.queue
      && before.posted <= after.posted
      && |after.queue| - |before.queue| == |after.posted| - |before.posted|
    decreases |es|
  {
    if es != [] {
      FailedSessionIsFrozen(Apply(st, es[0]), es[1..], i);
    }
  }

  lemma FailureStalls(st: Server, i: nat)
    requires Inv(st) && Enabled(st, Wrote(i, Failed))
    ensures Stalled(Apply(st, Wrote(i, Failed)).sessions[i].out)
  {
    assert SessionInv(st, i);
  }

  lemma {:induction false} ClosedSocketIsSilent(st: Server, es: seq<Event>, i: nat)
    requires ValidRun(st, es)
    requires i < |st.sessions| && !st.sessions[i].out.open
    ensures i < |Exec(st, es).sessions|
    ensures !Exec(st, es).sessions[i].out.open
    ensures Exec(st, es).sessions[i].out.wire == st.sessions[i].out.wire
    decreases |es|
  {
    if es != [] {
      ClosedSocketIsSilent(Apply(st, es[0]), es[1..], i);
    }
  }

  /** Any error of a session, of its read as well as of a write, is the end of its wire: the handler
      closes the socket, and no byte is sent in any continuation. */
  lemma NothingSentAfterError(st: Server, e: Event, es: seq<Event>, i: nat)
    requires e == ReadFailed(i) || e == Wrote(i, Failed)
    requires Enabled(st, e) && ValidRun(Apply(st, e), es)
    ensures i < |Exec(Apply(st, e), es).sessions|
    ensures Exec(Apply(st, e), es).sessions[i].out.wire == st.sessions[i].out.wire
  {
    ClosedSocketIsSilent(Apply(st, e), es, i);
  }

  /** The run without the write steps of session i. */
  function WithoutWritesOf(es: seq<Event>, i: nat): seq<Event> {
    if es == [] then []
    else (if es[0].Wrote? && es[0].i == i then [] else [es[0]]) + WithoutWritesOf(es[1..], i)
  }

  /** Two states that nobody but the writes of session i can tell apart. */
  ghost predicate SameButWrites(a: Server, b: Server, i: nat) {
    && a.accepts == b.accepts
    && a.log == b.log
    && |a.sessions| == |b.sessions|
    && (forall j :: 0 <= j < |a.sessions| && j != i ==> a.sessions[j] == b.sessions[j])
    && (i < |a.sessions| ==>
          a.sessions[i].(out := b.sessions[i].out) == b.sessions[i]
          && a.sessions[i].out.posted == b.sessions[i].out.posted)
  }

  lemma StepIgnoresWrites(a: Server, b: Server, e: Event, i: nat)
    requires SameButWrites(a, b, i) && Enabled(a, e)
    requires !(e.Wrote? && e.i == i)
    ensures Enabled(b, e) && SameButWrites(Apply(a, e), Apply(b, e), i)
  {
    assert Casts(a, e) == Casts(b, e);
  }

  lemma {:induction false} RunIgnoresWrites(a: Server, b: Server, es: seq<Event>, i: nat)
    requires SameButWrites(a, b, i) && ValidRun(a, es)
    ensures ValidRun(b, WithoutWritesOf(es, i))
    ensures SameButWrites(Exec(a, es), Exec(b, WithoutWritesOf(es, i)), i)
    decreases |es|
  {
    if es != [] {
      var rest := WithoutWritesOf(es[1..], i);
      if es[0].Wrote? && es[0].i == i {
        RunIgnoresWrites(Apply(a, es[0]), b, es[1..], i);
        assert WithoutWritesOf(es, i) == rest;
      } else {
        StepIgnoresWrites(a, b, es[0], i);
        RunIgnoresWrites(Apply(a, es[0]), Apply(b, es[0]), es[1..], i);
        assert WithoutWritesOf(es, i)[0] == es[0] && WithoutWritesOf(es, i)[1..] == rest;
      }
    }
  }

  /** Failure isolation: erasing every write step of session i from a run, failed ones included,
      gives a run in which the log and all other sessions are exactly the same. */
  lemma FailureIsolation(es: seq<Event>, i: nat)
    requires ValidRun(INIT, es)
    ensures ValidRun(INIT, WithoutWritesOf(es, i))
    ensures
      var full, erased := Exec(INIT, es), Exec(INIT, WithoutWritesOf(es, i));
      && full.log == erased.log
      && |full.sessions| == |erased.sessions|
      && (forall j :: 0 <= j < |full.sessions| && j != i ==> full.sessions[j] == erased.sessions[j])
      && (i < |full.sessions| ==> full.sessions[i].items == erased.sessions[i].items)
  {
    RunIgnoresWrites(INIT, INIT, es, i);
  }

  // ---------------------------------------------------------------- a failed accept

  lemma {:induction false} NoJoinWithoutAccept(st: Server, es: seq<Event>)
    requires ValidRun(st, es) && st.accepts == 0
    ensures |Exec(st, es).sessions| == |st.sessions| && Exec(st, es).accepts == 0
    ensures forall e :: e in es ==> !e.Accepted? && !e.AcceptFailed?
    decreases |es|
  {
    if es != [] {
      NoJoinWithoutAccept(Apply(st, es[0]), es[1..]);
      assert forall e :: e in es <==> e == es[0] || e in es[1..];
    }
  }

  /** A failed accept is final: whatever happens before and after it, nobody joins any more and no
      accept ever completes again. */
  lemma {:induction false} NoJoinAfterFailedAccept(before: seq<Event>, after: seq<Event>)
    requires ValidRun(INIT, before) && Enabled(Exec(INIT, before), AcceptFailed)
    requires ValidRun(Apply(Exec(INIT, before), AcceptFailed), after)
    ensures |Exec(Apply(Exec(INIT, before), AcceptFailed), after).sessions| == |Exec(INIT, before).sessions|
    ensures forall e :: e in after ==> !e.Accepted? && !e.AcceptFailed?
  {
    Reachable(before);
    var failed := Apply(Exec(INIT, before), AcceptFailed);
    NoJoinWithoutAccept(failed, after);
  }

  /** No departure was announced while an accept is outstanding, at most one ever, and it names nobody. */
  ghost predicate DepartureInv(accepts: nat, log: seq<Broadcast>) {
    && accepts <= 1
    && (forall p :: 0 <= p < |log| && log[p].Left? ==> accepts == 0 && log[p] == Left(""))
    && (forall p, q :: 0 <= p < q < |log| ==> !(log[p].Left? && log[q].Left?))
  }

  lemma StepKeepsDepartures(st: Server, e: Event)
    requires Enabled(st, e) && DepartureInv(st.accepts, st.log)
    ensures DepartureInv(Apply(st, e).accepts, Apply(st, e).log)
    ensures Left("") in Apply(st, e).log <==> Left("") in st.log || e == AcceptFailed
  {
  }

  lemma {:induction false} RunKeepsDepartures(st: Server, es: seq<Event>)
    requires ValidRun(st, es) && DepartureInv(st.accepts, st.log)
    ensures DepartureInv(Exec(st, es).accepts, Exec(st, es).log)
    ensures Left("") in Exec(st, es).log <==> Left("") in st.log || AcceptFailed in es
    decreases |es|
  {
    if es != [] {
      StepKeepsDepartures(st, es[0]);
      RunKeepsDepartures(Apply(st, es[0]), es[1..]);
      assert AcceptFailed in es <==> AcceptFailed == es[0] || AcceptFailed in es[1..];
    }
  }

  /** A departure is announced if and only if an accept failed; it is announced once, and under an empty
      name: it is not that of any session that ever joined. */
  lemma DepartureIffAcceptFailed(es: seq<Event>)
    requires ValidRun(INIT, es)
    ensures
      var log := Exec(INIT, es).log;
      && ((exists b :: b in log && b.Left?) <==> AcceptFailed in es)
      && (forall b :: b in log && b.Left? ==> b.name == "")
      && (forall p, q :: 0 <= p < q < |log| ==> !(log[p].Left? && log[q].Left?))
  {
    RunKeepsDepartures(INIT, es);
  }

  // ---------------------------------------------------------------- the messages, spelled out

  /** What an event makes the server send to session i when sessions with these endpoints have joined. */
  function SentFor(endpoints: seq<string>, e: Event, i: nat): seq<string> {
    match e
    case Accepted(endpoint) =>
      if i < |endpoints| then [endpoint + " joined\n"]
      else if i == |endpoints| then ["Welcome to the chat server\n"]
      else []
    case AcceptFailed =>
      if i < |endpoints| then [" has left the chat"] else []
    case LineRead(j, data) =>
      if i < |endpoints| && j < |endpoints| && '\n' in data then
        ["[" + endpoints[j] + "]: " + Line(data)] + if i == j then [Line(data)] else []
      else []
    case ReadFailed(_) => []
    case Wrote(_, _) => []
  }

  /** The endpoints of the sessions after an event. */
  function Join(endpoints: seq<string>, e: Event): seq<string> {
    endpoints + if e.Accepted? then [e.endpoint] else []
  }

  /** What a list of events makes the server send to session i, from the events alone. */
  function SentTo(endpoints: seq<string>, es: seq<Event>, i: nat): seq<string>
    decreases |es|
  {
    if es == [] then []
    else SentFor(endpoints, es[0], i) + SentTo(Join(endpoints, es[0]), es[1..], i)
  }

  ghost predicate NamedAfter(st: Server, endpoints: seq<string>) {
    && |st.sessions| == |endpoints|
    && (forall j :: 0 <= j < |endpoints| ==> st.sessions[j].name == "[" + endpoints[j] + "]: ")
  }

  function PostedTo(st: Server, i: nat): seq<string> {
    if i < |st.sessions| then st.sessions[i].out.posted else []
  }

  lemma StepNames(st: Server, e: Event, endpoints: seq<string>)
    requires Enabled(st, e) && NamedAfter(st, endpoints)
    ensures NamedAfter(Apply(st, e), Join(endpoints, e))
  {
  }

  lemma LocalSends(st: Server, e: Event, endpoints: seq<string>, i: nat)
    requires Enabled(st, e) && NamedAfter(st, endpoints) && i < |st.sessions|
    ensures Local(st, e, i).out.posted == st.sessions[i].out.posted + SentFor(endpoints, e, i)
  {
    var posted := st.sessions[i].out.posted;
    match e
    case Accepted(endpoint) =>
    case AcceptFailed =>
      assert Left("").Text() == " has left the chat";
    case LineRead(j, data) =>
      var said := "[" + endpoints[j] + "]: " + Line(data);
      assert Said(j, st.sessions[j].name, Line(data)).Text() == said;
      assert [said] + [] == [said];
      assert posted + [said] + [Line(data)] == posted + ([said] + [Line(data)]);
    case ReadFailed(_) =>
    case Wrote(_, _) =>
  }

  lemma StepSends(st: Server, e: Event, endpoints: seq<string>, i: nat)
    requires Enabled(st, e) && NamedAfter(st, endpoints)
    ensures PostedTo(Apply(st, e), i) == PostedTo(st, i) + SentFor(endpoints, e, i)
  {
    if i < |st.sessions| {
      LocalSends(st, e, endpoints, i);
    } else if e.Accepted? {
      var newcomer := Newcomer(e.endpoint, |st.log| + 1);
      assert Apply(st, e).sessions[|st.sessions|] == newcomer;
      assert newcomer.out.posted == ["Welcome to the chat server\n"];
    }
  }

  lemma Regroup(a: seq<string>, b: seq<string>, c: seq<string>)
    ensures a + b + c == a + (b + c)
  {
  }

  lemma {:induction false} RunSends(st: Server, es: seq<Event>, endpoints: seq<string>, i: nat)
    requires ValidRun(st, es) && NamedAfter(st, endpoints)
    ensures PostedTo(Exec(st, es), i) == PostedTo(st, i) + SentTo(endpoints, es, i)
    decreases |es|
  {
    if es != [] {
      var e := es[0];
      StepNames(st, e, endpoints);
      StepSends(st, e, endpoints, i);
      var joined := Join(endpoints, e);
      RunSends(Apply(st, e), es[1..], joined, i);
      Regroup(PostedTo(st, i), SentFor(endpoints, e, i), SentTo(joined, es[1..], i));
    }
  }

  /** In every run a session is sent exactly the messages that the events call for, letter by letter, and
      its peer has received a prefix of them. */
  lemma MessagesSpelledOut(es: seq<Event>, i: nat)
    requires ValidRun(INIT, es)
    requires i < |Exec(INIT, es).sessions|
    ensures
      var s := Exec(INIT, es).sessions[i];
      s.out.posted == SentTo([], es, i) && s.out.wire <= Concat(SentTo([], es, i))
  {
    RunSends(INIT, es, [], i);
    Reachable(es);
    assert SessionInv(Exec(INIT, es), i);
    WireIsPrefix(Exec(INIT, es).sessions[i].out);
  }

  // ---------------------------------------------------------------- what is open and outstanding

  predicate Fails(e: Event, i: nat) {
    e == ReadFailed(i) || e == Wrote(i, Failed)
  }

  predicate EndsRead(e: Event, i: nat) {
    e == ReadFailed(i) || (e.LineRead? && e.i == i)
  }

  ghost predicate StillOpen(st: Server, i: nat) {
    i < |st.sessions| ==> st.sessions[i].out.open
  }

  ghost predicate StillReading(st: Server, i: nat) {
    i < |st.sessions| ==> st.sessions[i].pendingReads == 1
  }

  lemma StepLeavesOpen(st: Server, e: Event, i: nat)
    requires Enabled(st, e)
    ensures StillOpen(Apply(st, e), i) <==> StillOpen(st, i) && !Fails(e, i)
  {
  }

  lemma StepLeavesReading(st: Server, e: Event, i: nat)
    requires Inv(st) && Enabled(st, e)
    ensures StillReading(Apply(st, e), i) <==> StillReading(st, i) && !EndsRead(e, i)
  {
    if i < |st.sessions| {
      assert SessionInv(st, i);
    }
  }

  lemma {:induction false} RunLeaves(st: Server, es: seq<Event>, i: nat)
    requires Inv(st) && ValidRun(st, es)
    ensures StillOpen(Exec(st, es), i) <==> StillOpen(st, i) && forall e :: e in es ==> !Fails(e, i)
    ensures StillReading(Exec(st, es), i) <==> StillReading(st, i) && forall e :: e in es ==> !EndsRead(e, i)
    ensures Exec(st, es).accepts == 1 <==> st.accepts == 1 && AcceptFailed !in es
    decreases |es|
  {
    if es != [] {
      StepLeavesOpen(st, es[0], i);
      StepLeavesReading(st, es[0], i);
      StepKeepsInv(st, es[0]);
      RunLeaves(Apply(st, es[0]), es[1..], i);
      assert forall e :: e in es <==> e == es[0] || e in es[1..];
    }
  }

  /** A session's socket is open exactly until an operation of its own fails, its read is outstanding
      exactly until it completes, and an accept is outstanding exactly until one fails. */
  lemma OutstandingExactly(es: seq<Event>, i: nat)
    requires ValidRun(INIT, es)
    requires i < |Exec(INIT, es).sessions|
    ensures
      var st := Exec(INIT, es);
      && (st.sessions[i].out.open <==> ReadFailed(i) !in es && Wrote(i, Failed) !in es)
      && st.sessions[i].pendingReads == (if exists e :: e in es && EndsRead(e, i) then 0 else 1)
      && st.accepts == (if AcceptFailed in es then 0 else 1)
  {
    Reachable(es);
    RunLeaves(INIT, es, i);
    assert SessionInv(Exec(INIT, es), i);
  }

  // ---------------------------------------------------------------- delivery is possible

  function WritesOf(i: nat, ws: seq<Write>): seq<Event> {
    seq(|ws|, k requires 0 <= k < |ws| => Wrote(i, ws[k]))
  }

  lemma {:induction false} WritesAreARun(st: Server, i: nat, ws: seq<Write>)
    requires i < |st.sessions| && ValidWrites(st.sessions[i].out, ws)
    ensures ValidRun(st, WritesOf(i, ws))
    ensures i < |Exec(st, WritesOf(i, ws)).sessions|
    ensures Exec(st, WritesOf(i, ws)).sessions[i].out == ExecWrites(st.sessions[i].out, ws)
    decreases |ws|
  {
    if ws != [] {
      WritesAreARun(Apply(st, Wrote(i, ws[0])), i, ws[1..]);
      assert WritesOf(i, ws)[1..] == WritesOf(i, ws[1..]);
    }
  }

  /** A session that had no error can always be served: from every reachable state there are write steps of
      its own, none of them failing, after which its peer has as many of the posted bytes as one likes,
      all of them included. */
  lemma EveryByteCanArrive(es: seq<Event>, i: nat, k: nat) returns (ws: seq<Write>)
    requires ValidRun(INIT, es)
    requires i < |Exec(INIT, es).sessions|
    requires ReadFailed(i) !in es && Wrote(i, Failed) !in es
    requires |Exec(INIT, es).sessions[i].out.wire| <= k <= |Concat(Exec(INIT, es).sessions[i].out.posted)|
    ensures Failed !in ws && ValidRun(Exec(INIT, es), WritesOf(i, ws))
    ensures
      var st := Exec(INIT, es);
      var st' := Exec(st, WritesOf(i, ws));
      i < |st'.sessions| && st'.sessions[i].out.wire == Concat(st.sessions[i].out.posted)[..k]
  {
    OutstandingExactly(es, i);
    Reachable(es);
    NeverStalls(INIT, es, i);
    var st := Exec(INIT, es);
    assert SessionInv(st, i);
    ws := CanReach(st.sessions[i].out, k);
    WritesAreARun(st, i, ws);
  }

  // ---------------------------------------------------------------- every line is heard

  lemma {:induction false} RunSnoc(st: Server, es: seq<Event>, e: Event)
    requires ValidRun(st, es) && Enabled(Exec(st, es), e)
    ensures ValidRun(st, es + [e]) && Exec(st, es + [e]) == Apply(Exec(st, es), e)
    decreases |es|
  {
    if es == [] {
      assert [] + [e] == [e] && [e][1..] == [];
    } else {
      assert (es + [e])[1..] == es[1..] + [e];
      RunSnoc(Apply(st, es[0]), es[1..], e);
    }
  }

  /** The endpoints from which sessions were accepted, in order. */
  function Endpoints(es: seq<Event>): seq<string> {
    if es == [] then [] else (if es[0].Accepted? then [es[0].endpoint] else []) + Endpoints(es[1..])
  }

  lemma {:induction false} RunNames(st: Server, es: seq<Event>, endpoints: seq<string>)
    requires ValidRun(st, es) && NamedAfter(st, endpoints)
    ensures NamedAfter(Exec(st, es), endpoints + Endpoints(es))
    decreases |es|
  {
    if es == [] {
      assert endpoints + [] == endpoints;
    } else {
      StepNames(st, es[0], endpoints);
      RunNames(Apply(st, es[0]), es[1..], Join(endpoints, es[0]));
      Regroup(endpoints, if es[0].Accepted? then [es[0].endpoint] else [], Endpoints(es[1..]));
    }
  }

  function SaidTo(endpoint: string, line: string, own: bool): seq<string> {
    ["[" + endpoint + "]: " + line] + if own then [line] else []
  }

  lemma LinePosts(st: Server, endpoints: seq<string>, i: nat, data: string)
    requires NamedAfter(st, endpoints) && Enabled(st, LineRead(i, data))
    ensures |Apply(st, LineRead(i, data)).sessions| == |st.sessions|
    ensures forall j :: 0 <= j < |st.sessions| ==>
              Apply(st, LineRead(i, data)).sessions[j].out.posted
                == st.sessions[j].out.posted + SaidTo(endpoints[i], Line(data), i == j)
  {
    forall j | 0 <= j < |st.sessions|
      ensures Local(st, LineRead(i, data), j).out.posted
           == st.sessions[j].out.posted + SaidTo(endpoints[i], Line(data), i == j)
    {
      LocalSends(st, LineRead(i, data), endpoints, j);
    }
  }

  lemma EndpointsAreNames(es: seq<Event>)
    requires ValidRun(INIT, es)
    ensures NamedAfter(Exec(INIT, es), Endpoints(es))
  {
    RunNames(INIT, es, []);
    assert [] + Endpoints(es) == Endpoints(es);
  }

  lemma UnspokenCanSpeak(es: seq<Event>, i: nat, data: string)
    requires ValidRun(INIT, es)
    requires i < |Exec(INIT, es).sessions|
    requires '\n' in data && forall e :: e in es ==> !EndsRead(e, i)
    ensures Enabled(Exec(INIT, es), LineRead(i, data))
  {
    OutstandingExactly(es, i);
  }

  /** A session that has not spoken and whose read has not failed can say whatever line it likes, whatever
      went before; everybody is posted the line behind the speaker's endpoint, and the speaker also the
      bare line. */
  lemma EveryLineIsHeard(es: seq<Event>, i: nat, data: string)
    requires ValidRun(INIT, es)
    requires i < |Exec(INIT, es).sessions|
    requires '\n' in data && forall e :: e in es ==> !EndsRead(e, i)
    ensures |Exec(INIT, es).sessions| == |Endpoints(es)|
    ensures ValidRun(INIT, es + [LineRead(i, data)])
    ensures
      var before, after := Exec(INIT, es).sessions, Exec(INIT, es + [LineRead(i, data)]).sessions;
      && |after| == |before|
      && forall j :: 0 <= j < |before| ==>
           after[j].out.posted == before[j].out.posted + SaidTo(Endpoints(es)[i], Line(data), i == j)
  {
    UnspokenCanSpeak(es, i, data);
    EndpointsAreNames(es);
    LinePosts(Exec(INIT, es), Endpoints(es), i, data);
    RunSnoc(INIT, es, LineRead(i, data));
  }
}
