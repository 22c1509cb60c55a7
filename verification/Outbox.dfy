/** The outgoing deque of a session together with the one asynchronous write that drains it.

    The fields `posted` and `wire` are histories: everything ever pushed onto the deque, and
    everything that ever reached the socket.  `pendingWrites` counts outstanding write operations, so
    that "at most one" is a theorem and not a consequence of the representation. */
module Outboxes {
  import opened Bytes

  datatype Outbox = Outbox(
    open: bool,
    queue: seq<string>,
    pendingWrites: nat,
    sent: nat,
    posted: seq<string>,
    wire: string)

  /** What the socket layer may do to the write in flight. */
  datatype Write =
    | Sent(n: nat)    // n more bytes of the front message reach the wire
    | Finished        // the completion handler runs without an error
    | Failed          // the completion handler runs with an error

  function Fresh(): Outbox {
    Outbox(true, [], 0, 0, [], "")
  }

  function Post(o: Outbox, message: string): Outbox {
    var idle := o.queue == [];
    o.(queue := o.queue + [message],
       posted := o.posted + [message],
       pendingWrites := if idle then o.pendingWrites + 1 else o.pendingWrites,
       sent := if idle then 0 else o.sent)
  }

  function Close(o: Outbox): Outbox {
    o.(open := false)
  }

  /** Nothing moves on a closed socket, but a write whose bytes are all out (an empty message
      has none to begin with) may still complete successfully; a write may fail at any time. */
  predicate CanWrite(o: Outbox, w: Write) {
    && o.pendingWrites > 0
    && o.queue != []
    && match w
       case Sent(n) => o.open && 0 < n && o.sent + n <= |o.queue[0]|
       case Finished => o.sent == |o.queue[0]|
       case Failed => true
  }

  function ApplyWrite(o: Outbox, w: Write): Outbox
    requires CanWrite(o, w)
  {
    match w
    case Sent(n) =>
      o.(sent := o.sent + n, wire := o.wire + o.queue[0][o.sent..o.sent + n])
    case Finished =>
      var rest := o.queue[1..];
      o.(queue := rest, sent := 0, pendingWrites := if rest == [] then o.pendingWrites - 1 else o.pendingWrites)
    case Failed =>
      Close(o.(pendingWrites := o.pendingWrites - 1))
  }

  /** The bytes that were posted but have not reached the wire. */
  function Unsent(o: Outbox): string {
    if o.queue == [] then ""
    else if o.sent <= |o.queue[0]| then o.queue[0][o.sent..] + Concat(o.queue[1..])
    else Concat(o.queue[1..])
  }

  ghost predicate Valid(o: Outbox) {
    && o.pendingWrites <= 1
    && (o.pendingWrites == 1 ==> o.queue != [])
    && o.sent <= (if o.queue == [] then 0 else |o.queue[0]|)
    && |o.queue| <= |o.posted|
    && o.queue == o.posted[|o.posted| - |o.queue|..]
    && o.wire + Unsent(o) == Concat(o.posted)
  }

  /** A write failed: messages are waiting but nothing will ever send them. */
  predicate Stalled(o: Outbox) {
    o.queue != [] && o.pendingWrites == 0
  }

  lemma PostWhenIdle(o: Outbox, message: string)
    requires Valid(o) && o.queue == []
    ensures Valid(Post(o, message))
  {
    var p := Post(o, message);
    ConcatSnoc(o.posted, message);
    assert p.queue == [message] && p.queue[1..] == [];
    assert Unsent(p) == message + "";
  }

  lemma PostBehindOthers(o: Outbox, message: string)
    requires Valid(o) && o.queue != []
    ensures Valid(Post(o, message))
  {
    var p := Post(o, message);
    ConcatSnoc(o.posted, message);
    assert p.queue[1..] == o.queue[1..] + [message];
    ConcatSnoc(o.queue[1..], message);
    assert Unsent(p) == Unsent(o) + message;
    assert o.wire + (Unsent(o) + message) == Concat(o.posted) + message;
  }

  lemma PostValid(o: Outbox, message: string)
    requires Valid(o)
    ensures Valid(Post(o, message))
  {
    if o.queue == [] {
      PostWhenIdle(o, message);
    } else {
      PostBehindOthers(o, message);
    }
  }

  /** The bytes sent move from the front of what is unsent to the end of the wire. */
  lemma MoveBytes(wire: string, front: string, rest: string, sent: nat, n: nat)
    requires sent + n <= |front|
    ensures wire + front[sent..sent + n] + (front[sent + n..] + rest) == wire + (front[sent..] + rest)
  {
    var part, tail := front[sent..sent + n], front[sent + n..];
    assert front[sent..] == part + tail;
    Associate(part, tail, rest);
    Associate(wire, part, tail + rest);
  }

  lemma SentMoves(o: Outbox, n: nat)
    requires CanWrite(o, Sent(n))
    ensures
      var o' := ApplyWrite(o, Sent(n));
      o'.wire + Unsent(o') == o.wire + Unsent(o) && |Unsent(o')| == |Unsent(o)| - n
  {
    var front, rest, o' := o.queue[0], Concat(o.queue[1..]), ApplyWrite(o, Sent(n));
    assert Unsent(o) == front[o.sent..] + rest;
    assert Unsent(o') == front[o.sent + n..] + rest;
    MoveBytes(o.wire, front, rest, o.sent, n);
  }

  lemma SentValid(o: Outbox, n: nat)
    requires Valid(o) && CanWrite(o, Sent(n))
    ensures Valid(ApplyWrite(o, Sent(n)))
    ensures |Unsent(ApplyWrite(o, Sent(n)))| == |Unsent(o)| - n
  {
    SentMoves(o, n);
  }

  lemma FinishedValid(o: Outbox)
    requires Valid(o) && CanWrite(o, Finished)
    ensures Valid(ApplyWrite(o, Finished))
    ensures Unsent(ApplyWrite(o, Finished)) == Unsent(o)
  {
    var rest := o.queue[1..];
    assert Unsent(o) == Concat(rest);
    if rest != [] {
      assert rest[0][0..] == rest[0];
    }
  }

  lemma WriteValid(o: Outbox, w: Write)
    requires Valid(o) && CanWrite(o, w)
    ensures Valid(ApplyWrite(o, w))
  {
    match w
    case Sent(n) => SentValid(o, n);
    case Finished => FinishedValid(o);
    case Failed =>
  }

  /** The wire is at all times a prefix of what was posted, and it is all of it exactly when
      nothing is waiting or only empty messages are. */
  lemma WireIsPrefix(o: Outbox)
    requires Valid(o)
    ensures o.wire <= Concat(o.posted)
    ensures o.wire == Concat(o.posted) <==> Unsent(o) == ""
  {
    assert Concat(o.posted)[..|o.wire|] == o.wire;
  }

  // ---------------------------------------------------------------- draining

  /** An upper bound on the number of write steps left: one for each byte and each message. */
  function Backlog(o: Outbox): nat {
    if o.pendingWrites == 0 then 0 else |Unsent(o)| + |o.queue|
  }

  lemma WriteShrinksBacklog(o: Outbox, w: Write)
    requires Valid(o) && CanWrite(o, w)
    ensures Backlog(ApplyWrite(o, w)) < Backlog(o)
  {
    match w
    case Sent(n) => SentValid(o, n);
    case Finished => FinishedValid(o);
    case Failed =>
  }

  // ---------------------------------------------------------------- runs of write steps

  predicate ValidWrites(o: Outbox, ws: seq<Write>)
    decreases |ws|
  {
    ws == [] || (CanWrite(o, ws[0]) && ValidWrites(ApplyWrite(o, ws[0]), ws[1..]))
  }

  function ExecWrites(o: Outbox, ws: seq<Write>): Outbox
    requires ValidWrites(o, ws)
    decreases |ws|
  {
    if ws == [] then o else ExecWrites(ApplyWrite(o, ws[0]), ws[1..])
  }

  /** A step towards a wire of k bytes. */
  function StepTo(o: Outbox, k: nat): Write
    requires Valid(o) && o.queue != [] && |o.wire| <= k
  {
    var left := |o.queue[0]| - o.sent;
    if left == 0 then Finished else Sent(if left <= k - |o.wire| then left else k - |o.wire|)
  }

  lemma StepToIsPossible(o: Outbox, k: nat)
    requires Valid(o) && o.open && !Stalled(o) && |o.wire| < k <= |Concat(o.posted)|
    ensures o.queue != [] && CanWrite(o, StepTo(o, k))
    ensures
      var o' := ApplyWrite(o, StepTo(o, k));
      o'.open && !Stalled(o') && |o'.wire| <= k && o'.posted == o.posted
  {
    assert |o.wire + Unsent(o)| == |o.wire| + |Unsent(o)|;
  }

  /** An open outbox that is not stalled can always make its way: whatever number of posted bytes the
      peer should get, there are write steps without a failure after which it has just those. */
  lemma {:induction false} CanReach(o: Outbox, k: nat) returns (ws: seq<Write>)
    requires Valid(o) && o.open && !Stalled(o)
    requires |o.wire| <= k <= |Concat(o.posted)|
    ensures ValidWrites(o, ws) && Failed !in ws
    ensures ExecWrites(o, ws).wire == Concat(o.posted)[..k]
    decreases Backlog(o)
  {
    if k == |o.wire| {
      ws := [];
      WireIsPrefix(o);
    } else {
      StepToIsPossible(o, k);
      var w := StepTo(o, k);
      WriteValid(o, w);
      WriteShrinksBacklog(o, w);
      var rest := CanReach(ApplyWrite(o, w), k);
      ws := [w] + rest;
      assert ws[1..] == rest;
    }
  }
}
