/** The line echo session: it reads lines for as long as it can and writes each one back.

    `received` is the history of all bytes put into the stream buffer, `taken` the history of what
    each completed read took out of it. */
module Echo {
  import opened Bytes
  import opened LineReader
  import opened Outboxes

  /** The line a read extracted, the bytes it discarded behind it, and how many bytes had been received
      by then. */
  datatype Taken = Taken(line: string, dropped: string, arrived: nat)

  datatype Session = Session(
    out: Outbox,
    pendingReads: nat,
    buffer: string,
    received: string,
    taken: seq<Taken>)

  datatype Event =
    | LineRead(chunk: string)    // the read completes after `chunk` was appended to the buffer
    | ReadFailed(chunk: string)
    | Wrote(w: Write)

  const START := Session(Fresh(), 1, "", "", [])

  /** A read completes when the buffer holds a newline, and takes in nothing more if it already does. */
  predicate Enabled(s: Session, e: Event) {
    match e
    case LineRead(chunk) => s.pendingReads > 0 && '\n' in s.buffer + chunk && ('\n' in s.buffer ==> chunk == "")
    case ReadFailed(chunk) => s.pendingReads > 0 && '\n' !in chunk
    case Wrote(w) => CanWrite(s.out, w)
  }

  function Apply(s: Session, e: Event): Session
    requires Enabled(s, e)
  {
    match e
    case LineRead(chunk) =>
      var data := s.buffer + chunk;
      Session(
        Post(s.out, Line(data)),
        s.pendingReads,  // re-armed
        Leftover(data),
        s.received + chunk,
        s.taken + [Taken(Line(data), Dropped(data), |s.received + chunk|)])
    case ReadFailed(chunk) =>
      s.(out := Close(s.out),
         pendingReads := s.pendingReads - 1,
         buffer := s.buffer + chunk,
         received := s.received + chunk)
    case Wrote(w) =>
      s.(out := ApplyWrite(s.out, w))
  }

  predicate ValidRun(s: Session, es: seq<Event>)
    decreases |es|
  {
    es == [] || (Enabled(s, es[0]) && ValidRun(Apply(s, es[0]), es[1..]))
  }

  function Exec(s: Session, es: seq<Event>): Session
    requires ValidRun(s, es)
    decreases |es|
  {
    if es == [] then s else Exec(Apply(s, es[0]), es[1..])
  }

  // ---------------------------------------------------------------- histories

  function Lines(taken: seq<Taken>): seq<string> {
    if taken == [] then [] else Lines(taken[..|taken| - 1]) + [taken[|taken| - 1].line]
  }

  /** All bytes that left the buffer, discarded ones included. */
  function Consumed(taken: seq<Taken>): string {
    if taken == [] then ""
    else
      var t := taken[|taken| - 1];
      Consumed(taken[..|taken| - 1]) + (t.line + "\n" + t.dropped)
  }

  function Unlines(lines: seq<string>): string {
    if lines == [] then ""
    else Unlines(lines[..|lines| - 1]) + (lines[|lines| - 1] + "\n")
  }

  function LineBytes(taken: seq<Taken>): nat {
    if taken == [] then 0 else LineBytes(taken[..|taken| - 1]) + |taken[|taken| - 1].line| + 1
  }

  function DroppedBytes(taken: seq<Taken>): nat {
    if taken == [] then 0 else DroppedBytes(taken[..|taken| - 1]) + |taken[|taken| - 1].dropped|
  }

  predicate NothingDropped(taken: seq<Taken>) {
    forall k :: 0 <= k < |taken| ==> taken[k].dropped == ""
  }

  /** Read k found its line and the newline in the buffer and discarded, of the bytes behind them, as
      many again, or all there were. */
  predicate DiscardsOnceMore(taken: seq<Taken>, k: nat)
    requires k < |taken|
  {
    var t := taken[k];
    var behind := t.arrived - |Consumed(taken[..k])| - (|t.line| + 1);
    behind >= 0 && |t.dropped| == if behind < |t.line| + 1 then behind else |t.line| + 1
  }

  ghost predicate Inv(s: Session) {
    && Valid(s.out)
    && s.pendingReads <= 1
    && s.received == Consumed(s.taken) + s.buffer
    && s.out.posted == Lines(s.taken)
    && (forall k :: 0 <= k < |s.taken| ==> '\n' !in s.taken[k].line)
    && (forall k :: 0 <= k < |s.taken| ==> DiscardsOnceMore(s.taken, k))
    && (NothingDropped(s.taken) ==> '\n' !in s.buffer)
  }

  /** The history grows by what the read took out. */
  lemma TakenAccounts(taken: seq<Taken>, t: Taken, data: string, leftover: string)
    requires data == t.line + "\n" + t.dropped + leftover
    ensures Consumed(taken + [t]) + leftover == Consumed(taken) + data
    ensures Lines(taken + [t]) == Lines(taken) + [t.line]
  {
    assert (taken + [t])[..|taken|] == taken;
    var piece := t.line + "\n" + t.dropped;
    assert Consumed(taken) + (piece + leftover) == Consumed(taken) + piece + leftover;
  }

  lemma DiscardsAppend(taken: seq<Taken>, t: Taken, data: string)
    requires '\n' in data && t.line == Line(data) && t.dropped == Dropped(data)
    requires t.arrived == |Consumed(taken)| + |data|
    requires forall k :: 0 <= k < |taken| ==> DiscardsOnceMore(taken, k)
    ensures forall k :: 0 <= k <= |taken| ==> DiscardsOnceMore(taken + [t], k)
  {
    forall k | 0 <= k <= |taken|
      ensures DiscardsOnceMore(taken + [t], k)
    {
      assert (taken + [t])[..k] == taken[..k];
      assert k < |taken| ==> DiscardsOnceMore(taken, k);
      assert taken[..|taken|] == taken;
    }
  }

  lemma OnlyLineLeavesNothing(taken: seq<Taken>, t: Taken, data: string)
    requires '\n' in data && t.dropped == Dropped(data)
    requires NothingDropped(taken + [t])
    ensures Leftover(data) == ""
  {
    assert (taken + [t])[|taken|] == t;
    NothingDroppedMeansOneLine(data);
  }

  lemma LineReadKeepsInv(s: Session, chunk: string)
    requires Inv(s) && Enabled(s, LineRead(chunk))
    ensures Inv(Apply(s, LineRead(chunk)))
  {
    var data := s.buffer + chunk;
    var t := Taken(Line(data), Dropped(data), |s.received + chunk|);
    PostValid(s.out, Line(data));
    Split(data);
    TakenAccounts(s.taken, t, data, Leftover(data));
    DiscardsAppend(s.taken, t, data);
    Associate(Consumed(s.taken), s.buffer, chunk);
    if NothingDropped(s.taken + [t]) {
      OnlyLineLeavesNothing(s.taken, t, data);
    }
  }

  /** A read discards nothing exactly when the buffer held one line and not a byte more. */
  lemma NothingDroppedMeansOneLine(data: string)
    requires '\n' in data
    ensures Dropped(data) == "" <==> data == Line(data) + "\n"
    ensures Dropped(data) == "" ==> Leftover(data) == ""
  {
    Split(data);
    if Overrun(data) == 0 {
      assert AfterLine(data) == "";
      assert Line(data) + "\n" + "" + "" == Line(data) + "\n";
    }
  }

  lemma StepKeepsInv(s: Session, e: Event)
    requires Inv(s) && Enabled(s, e)
    ensures Inv(Apply(s, e))
  {
    match e
    case LineRead(chunk) =>
      LineReadKeepsInv(s, chunk);
    case ReadFailed(chunk) =>
      Associate(Consumed(s.taken), s.buffer, chunk);
    case Wrote(w) =>
      WriteValid(s.out, w);
  }

  lemma {:induction false} RunKeepsInv(s: Session, es: seq<Event>)
    requires Inv(s) && ValidRun(s, es)
    ensures Inv(Exec(s, es))
    decreases |es|
  {
    if es != [] {
      StepKeepsInv(s, es[0]);
      RunKeepsInv(Apply(s, es[0]), es[1..]);
    }
  }

  // ---------------------------------------------------------------- theorems over all runs

  lemma Reachable(es: seq<Event>)
    requires ValidRun(START, es)
    ensures Inv(Exec(START, es))
  {
    StartInv();
    RunKeepsInv(START, es);
  }

  lemma StartInv()
    ensures Inv(START)
  {
    assert "" + START.buffer == "";
  }

  lemma {:induction false} ConsumedLength(taken: seq<Taken>)
    ensures |Consumed(taken)| == LineBytes(taken) + DroppedBytes(taken)
  {
    if taken != [] {
      ConsumedLength(taken[..|taken| - 1]);
    }
  }

  /** Byte accounting: every byte received is in a posted line, is its newline, was discarded behind a
      line or is still in the buffer, in this order; and each read discarded as many bytes as its line
      and newline had, or all that were left. */
  lemma ByteAccounting(es: seq<Event>)
    requires ValidRun(START, es)
    ensures
      var s := Exec(START, es);
      && s.received == Consumed(s.taken) + s.buffer
      && |s.received| == LineBytes(s.taken) + DroppedBytes(s.taken) + |s.buffer|
      && s.out.posted == Lines(s.taken)
      && (forall k :: 0 <= k < |s.taken| ==> DiscardsOnceMore(s.taken, k))
  {
    Reachable(es);
    ConsumedLength(Exec(START, es).taken);
  }

  /** The complete lines of a text, and the unfinished last one. */
  function SplitLines(s: string): (seq<string>, string)
    decreases |s|
  {
    if '\n' !in s then ([], s)
    else
      var (lines, rest) := SplitLines(AfterLine(s));
      ([Line(s)] + lines, rest)
  }

  lemma {:induction false} UnlinesCons(line: string, lines: seq<string>)
    ensures Unlines([line] + lines) == line + "\n" + Unlines(lines)
  {
    var all := [line] + lines;
    if lines == [] {
      assert all == [line] && all[..0] == [];
      assert "" + (line + "\n") == line + "\n" + "";
    } else {
      assert all[..|all| - 1] == [line] + lines[..|lines| - 1];
      UnlinesCons(line, lines[..|lines| - 1]);
    }
  }

  lemma {:induction false} SplitOfUnlines(lines: seq<string>, rest: string)
    requires forall k :: 0 <= k < |lines| ==> '\n' !in lines[k]
    requires '\n' !in rest
    ensures SplitLines(Unlines(lines) + rest) == (lines, rest)
  {
    if lines == [] {
      assert Unlines(lines) + rest == rest;
    } else {
      var line, tail := lines[0], lines[1..];
      assert lines == [line] + tail;
      UnlinesCons(line, tail);
      var s := line + "\n" + (Unlines(tail) + rest);
      assert Unlines(lines) + rest == s;
      assert s[|line|] == '\n' && s[..|line|] == line && s[|line| + 1..] == Unlines(tail) + rest;
      IndexOfUnique(s, '\n', |line|);
      SplitOfUnlines(tail, rest);
    }
  }

  lemma Rebuild(line: string, lines: seq<string>, rest: string)
    ensures Unlines([line] + lines) + rest == line + "\n" + (Unlines(lines) + rest)
  {
    UnlinesCons(line, lines);
  }

  lemma {:induction false} UnlinesOfSplit(s: string)
    ensures Unlines(SplitLines(s).0) + SplitLines(s).1 == s
    decreases |s|
  {
    if '\n' in s {
      UnlinesOfSplit(AfterLine(s));
      Rebuild(Line(s), SplitLines(AfterLine(s)).0, SplitLines(AfterLine(s)).1);
      Cut(s);
    } else {
      assert "" + s == s;
    }
  }

  lemma Cut(s: string)
    requires '\n' in s
    ensures s == Line(s) + "\n" + AfterLine(s)
  {
    var k := IndexOf(s, '\n');
    assert s == s[..k] + [s[k]] + s[k + 1..];
  }

  lemma {:induction false} LinesFacts(taken: seq<Taken>)
    ensures |Lines(taken)| == |taken|
    ensures forall k :: 0 <= k < |taken| ==> Lines(taken)[k] == taken[k].line
    ensures |Unlines(Lines(taken))| == LineBytes(taken)
    ensures NothingDropped(taken) <==> DroppedBytes(taken) == 0
    ensures NothingDropped(taken) ==> Unlines(Lines(taken)) == Consumed(taken)
  {
    if taken != [] {
      var n := |taken| - 1;
      var lines := Lines(taken);
      LinesFacts(taken[..n]);
      assert lines[..n] == Lines(taken[..n]);
      assert NothingDropped(taken) <==> NothingDropped(taken[..n]) && taken[n].dropped == "" by {
        assert forall k :: 0 <= k < n ==> taken[k] == taken[..n][k];
      }
      assert taken[n].line + "\n" + "" == taken[n].line + "\n";
    }
  }

  lemma LineTextsHaveNoNewline(taken: seq<Taken>)
    requires forall k :: 0 <= k < |taken| ==> '\n' !in taken[k].line
    ensures forall k :: 0 <= k < |Lines(taken)| ==> '\n' !in Lines(taken)[k]
  {
    LinesFacts(taken);
  }

  lemma LosslessIsTheSplit(taken: seq<Taken>, buffer: string)
    requires forall k :: 0 <= k < |taken| ==> '\n' !in taken[k].line
    requires NothingDropped(taken) && '\n' !in buffer
    ensures SplitLines(Consumed(taken) + buffer) == (Lines(taken), buffer)
  {
    LinesFacts(taken);
    LineTextsHaveNoNewline(taken);
    SplitOfUnlines(Lines(taken), buffer);
  }

  lemma TheSplitIsLossless(taken: seq<Taken>, buffer: string)
    requires SplitLines(Consumed(taken) + buffer) == (Lines(taken), buffer)
    ensures NothingDropped(taken)
  {
    UnlinesOfSplit(Consumed(taken) + buffer);
    LinesFacts(taken);
    ConsumedLength(taken);
  }

  /** The posted lines are the newline split of the bytes received, and what is left unfinished is in
      the buffer, if and only if no read discarded anything. */
  lemma LinesAreTheSplitIffNothingDropped(es: seq<Event>)
    requires ValidRun(START, es)
    ensures
      var s := Exec(START, es);
      SplitLines(s.received) == (s.out.posted, s.buffer) <==> NothingDropped(s.taken)
  {
    Reachable(es);
    var s := Exec(START, es);
    if NothingDropped(s.taken) {
      LosslessIsTheSplit(s.taken, s.buffer);
    } else if SplitLines(s.received) == (s.out.posted, s.buffer) {
      TheSplitIsLossless(s.taken, s.buffer);
      assert false;
    }
  }

  /** What arrives for a read is one line and not a byte more. */
  predicate BringsOneLine(e: Event) {
    e.LineRead? ==> '\n' in e.chunk && e.chunk == Line(e.chunk) + "\n"
  }

  lemma {:induction false} HistoryGrows(s: Session, es: seq<Event>)
    requires ValidRun(s, es)
    ensures s.taken <= Exec(s, es).taken
    decreases |es|
  {
    if es != [] {
      HistoryGrows(Apply(s, es[0]), es[1..]);
    }
  }

  /** Nothing was discarded so far, and nothing is left over for the read that is outstanding. */
  ghost predicate Clean(s: Session) {
    NothingDropped(s.taken) && s.pendingReads <= 1 && (s.pendingReads > 0 ==> s.buffer == "")
  }

  lemma NothingDroppedSnoc(taken: seq<Taken>, t: Taken)
    ensures NothingDropped(taken + [t]) <==> NothingDropped(taken) && t.dropped == ""
  {
    assert (taken + [t])[|taken|] == t;
    assert forall k :: 0 <= k < |taken| ==> (taken + [t])[k] == taken[k];
  }

  lemma CleanStep(s: Session, e: Event)
    requires Clean(s) && Enabled(s, e)
    ensures BringsOneLine(e) ==> Clean(Apply(s, e))
    ensures !BringsOneLine(e) ==> !NothingDropped(Apply(s, e).taken)
  {
    if e.LineRead? {
      assert s.buffer + e.chunk == e.chunk;
      NothingDroppedMeansOneLine(e.chunk);
      NothingDroppedSnoc(s.taken, Taken(Line(e.chunk), Dropped(e.chunk), |s.received + e.chunk|));
    }
  }

  lemma {:induction false} NothingDroppedIffOneLineEach(s: Session, es: seq<Event>)
    requires Clean(s) && ValidRun(s, es)
    ensures NothingDropped(Exec(s, es).taken) <==> forall e :: e in es ==> BringsOneLine(e)
    decreases |es|
  {
    if es != [] {
      CleanStep(s, es[0]);
      if BringsOneLine(es[0]) {
        NothingDroppedIffOneLineEach(Apply(s, es[0]), es[1..]);
        assert forall e :: e in es <==> e == es[0] || e in es[1..];
      } else {
        HistoryGrows(Apply(s, es[0]), es[1..]);
        assert es[0] in es;
      }
    }
  }

  /** The posted lines are the newline split of the bytes received, and what is left unfinished is in
      the buffer, if and only if the network delivers the lines one by one: every completed read is
      brought about by the bytes of one line and not a byte more. */
  lemma LinesAreTheSplitIffOneLineEach(es: seq<Event>)
    requires ValidRun(START, es)
    ensures
      var s := Exec(START, es);
      SplitLines(s.received) == (s.out.posted, s.buffer) <==> forall e :: e in es ==> BringsOneLine(e)
  {
    LinesAreTheSplitIffNothingDropped(es);
    NothingDroppedIffOneLineEach(START, es);
  }

  /** Two lines that arrive together: the second is discarded and never posted. */
  lemma SecondLineIsLost(first: string, second: string)
    requires '\n' !in first && '\n' !in second && |second| <= |first|
    ensures
      var chunk := first + "\n" + second + "\n";
      && Enabled(START, LineRead(chunk))
      && Apply(START, LineRead(chunk)).out.posted == [first]
      && Apply(START, LineRead(chunk)).buffer == ""
  {
    var chunk := first + "\n" + second + "\n";
    var data := START.buffer + chunk;
    assert data == chunk && data[|first|] == '\n' && data[..|first|] == first;
    IndexOfUnique(data, '\n', |first|);
    assert AfterLine(data) == second + "\n";
    assert START.out.posted + [first] == [first];
  }

  /** Echo: at any time at most one read and one write are outstanding, and what the peer has got
      is a prefix of the extracted lines in order; it is all of them when no write is in flight and
      none has failed. */
  lemma EchoIsPrefixOfLines(es: seq<Event>)
    requires ValidRun(START, es)
    ensures
      var s := Exec(START, es);
      && s.pendingReads <= 1 && s.out.pendingWrites <= 1
      && s.out.wire <= Concat(Lines(s.taken))
      && s.out.wire + Unsent(s.out) == Concat(Lines(s.taken))
      && (s.out.pendingWrites == 0 && !Stalled(s.out) ==> s.out.wire == Concat(Lines(s.taken)))
  {
    Reachable(es);
    WireIsPrefix(Exec(START, es).out);
  }

  // ---------------------------------------------------------------- what is open and outstanding

  predicate Fails(e: Event) {
    e.ReadFailed? || e == Wrote(Failed)
  }

  /** An open session has a write in flight whenever something waits to be written. */
  ghost predicate Serving(s: Session) {
    s.out.open ==> !Stalled(s.out)
  }

  lemma StepLeaves(s: Session, e: Event)
    requires Inv(s) && Serving(s) && Enabled(s, e)
    ensures Serving(Apply(s, e))
    ensures Apply(s, e).out.open <==> s.out.open && !Fails(e)
    ensures Apply(s, e).pendingReads == 1 <==> s.pendingReads == 1 && !e.ReadFailed?
  {
  }

  lemma {:induction false} RunLeaves(s: Session, es: seq<Event>)
    requires Inv(s) && Serving(s) && ValidRun(s, es)
    ensures Inv(Exec(s, es)) && Serving(Exec(s, es))
    ensures Exec(s, es).out.open <==> s.out.open && forall e :: e in es ==> !Fails(e)
    ensures Exec(s, es).pendingReads == 1 <==> s.pendingReads == 1 && forall e :: e in es ==> !e.ReadFailed?
    decreases |es|
  {
    if es != [] {
      StepLeaves(s, es[0]);
      StepKeepsInv(s, es[0]);
      RunLeaves(Apply(s, es[0]), es[1..]);
      assert forall e :: e in es <==> e == es[0] || e in es[1..];
    }
  }

  /** The socket is open exactly until an operation fails, and a read is outstanding exactly until one
      fails: every line re-arms it. */
  lemma OutstandingExactly(es: seq<Event>)
    requires ValidRun(START, es)
    ensures
      var s := Exec(START, es);
      && (s.out.open <==> forall e :: e in es ==> !Fails(e))
      && s.pendingReads == (if exists e :: e in es && e.ReadFailed? then 0 else 1)
  {
    StartInv();
    RunLeaves(START, es);
  }

  lemma {:induction false} ClosedSocketIsSilent(s: Session, es: seq<Event>)
    requires ValidRun(s, es) && !s.out.open
    ensures !Exec(s, es).out.open && Exec(s, es).out.wire == s.out.wire
    decreases |es|
  {
    if es != [] {
      ClosedSocketIsSilent(Apply(s, es[0]), es[1..]);
    }
  }

  /** Any error, of a read as well as of a write, is the end of the wire. */
  lemma NothingSentAfterError(s: Session, e: Event, es: seq<Event>)
    requires Fails(e) && Enabled(s, e) && ValidRun(Apply(s, e), es)
    ensures Exec(Apply(s, e), es).out.wire == s.out.wire
  {
    ClosedSocketIsSilent(Apply(s, e), es);
  }

  function WritesOf(ws: seq<Write>): seq<Event> {
    seq(|ws|, k requires 0 <= k < |ws| => Wrote(ws[k]))
  }

  lemma {:induction false} WritesAreARun(s: Session, ws: seq<Write>)
    requires ValidWrites(s.out, ws)
    ensures ValidRun(s, WritesOf(ws))
    ensures Exec(s, WritesOf(ws)).out == ExecWrites(s.out, ws)
    decreases |ws|
  {
    if ws != [] {
      WritesAreARun(Apply(s, Wrote(ws[0])), ws[1..]);
      assert WritesOf(ws)[1..] == WritesOf(ws[1..]);
    }
  }

  /** As long as there was no error the peer can be served: there are write steps, none of them failing,
      after which it has as many bytes of the lines posted as one likes, all of them included. */
  lemma EveryByteCanArrive(es: seq<Event>, k: nat) returns (ws: seq<Write>)
    requires ValidRun(START, es) && forall e :: e in es ==> !Fails(e)
    requires |Exec(START, es).out.wire| <= k <= |Concat(Exec(START, es).out.posted)|
    ensures Failed !in ws && ValidRun(Exec(START, es), WritesOf(ws))
    ensures Exec(Exec(START, es), WritesOf(ws)).out.wire == Concat(Exec(START, es).out.posted)[..k]
  {
    StartInv();
    RunLeaves(START, es);
    ws := CanReach(Exec(START, es).out, k);
    WritesAreARun(Exec(START, es), ws);
  }

  lemma {:induction false} RunSnoc(s: Session, es: seq<Event>, e: Event)
    requires ValidRun(s, es) && Enabled(Exec(s, es), e)
    ensures ValidRun(s, es + [e]) && Exec(s, es + [e]) == Apply(Exec(s, es), e)
    decreases |es|
  {
    if es == [] {
      assert [] + [e] == [e] && [e][1..] == [];
    } else {
      assert (es + [e])[1..] == es[1..] + [e];
      RunSnoc(Apply(s, es[0]), es[1..], e);
    }
  }

  lemma LineAloneIsTaken(s: Session, line: string)
    requires s.pendingReads > 0 && s.buffer == "" && '\n' !in line
    ensures Enabled(s, LineRead(line + "\n"))
    ensures Concat(Apply(s, LineRead(line + "\n")).out.posted) == Concat(s.out.posted) + line
  {
    var chunk := line + "\n";
    assert s.buffer + chunk == chunk;
    assert chunk[|line|] == '\n' && chunk[..|line|] == line;
    IndexOfUnique(chunk, '\n', |line|);
    ConcatSnoc(s.out.posted, line);
  }

  lemma AllCanArrive(es: seq<Event>) returns (ws: seq<Write>)
    requires ValidRun(START, es) && forall e :: e in es ==> !Fails(e)
    ensures Failed !in ws && ValidRun(Exec(START, es), WritesOf(ws))
    ensures Exec(Exec(START, es), WritesOf(ws)).out.wire == Concat(Exec(START, es).out.posted)
  {
    Reachable(es);
    var all := Concat(Exec(START, es).out.posted);
    WireIsPrefix(Exec(START, es).out);
    ws := EveryByteCanArrive(es, |all|);
    assert all[..|all|] == all;
  }

  /** As long as there was no error any line that arrives alone can be echoed: the read is outstanding, and
      there are write steps after which the peer has the line behind all those before it. */
  lemma EveryLineIsEchoed(es: seq<Event>, line: string) returns (ws: seq<Write>)
    requires ValidRun(START, es) && forall e :: e in es ==> !Fails(e)
    requires Exec(START, es).buffer == "" && '\n' !in line
    ensures ValidRun(START, es + [LineRead(line + "\n")])
    ensures Failed !in ws && ValidRun(Exec(START, es + [LineRead(line + "\n")]), WritesOf(ws))
    ensures Exec(Exec(START, es + [LineRead(line + "\n")]), WritesOf(ws)).out.wire
         == Concat(Exec(START, es).out.posted) + line
  {
    OutstandingExactly(es);
    LineAloneIsTaken(Exec(START, es), line);
    RunSnoc(START, es, LineRead(line + "\n"));
    ws := AllCanArrive(es + [LineRead(line + "\n")]);
  }

  /** The bytes that the events put into the stream buffer. */
  function Arrivals(es: seq<Event>): string {
    if es == [] then "" else (if es[0].Wrote? then "" else es[0].chunk) + Arrivals(es[1..])
  }

  function LineReads(es: seq<Event>): nat {
    if es == [] then 0 else (if es[0].LineRead? then 1 else 0) + LineReads(es[1..])
  }

  lemma {:induction false} RunReceives(s: Session, es: seq<Event>)
    requires ValidRun(s, es)
    ensures Exec(s, es).received == s.received + Arrivals(es)
    ensures |Exec(s, es).taken| == |s.taken| + LineReads(es)
    decreases |es|
  {
    if es != [] {
      RunReceives(Apply(s, es[0]), es[1..]);
      Associate(s.received, if es[0].Wrote? then "" else es[0].chunk, Arrivals(es[1..]));
    }
  }

  lemma OnePostForEachRead(s: Session)
    requires Inv(s)
    ensures |s.out.posted| == |s.taken|
  {
    LinesFacts(s.taken);
  }

  /** The bytes accounted for are those that arrived, with failed reads too, and there is one line for each
      completed read. */
  lemma AllArrivalsCount(es: seq<Event>)
    requires ValidRun(START, es)
    ensures Exec(START, es).received == Arrivals(es) && |Exec(START, es).out.posted| == LineReads(es)
  {
    RunReceives(START, es);
    Reachable(es);
    OnePostForEachRead(Exec(START, es));
  }

  // ---------------------------------------------------------------- the object

  class EchoSession {
    var open: bool
    var messages: seq<string>
    var buffer: string
    var pendingReads: nat
    var pendingWrites: nat
    var sent: nat
    ghost var posted: seq<string>
    ghost var wire: string
    ghost var received: string
    ghost var taken: seq<Taken>

    ghost function State(): Session
      reads this
    {
      Session(Outbox(open, messages, pendingWrites, sent, posted, wire), pendingReads, buffer, received, taken)
    }

    /** A session as it is when its first read has been started. */
    constructor ()
      ensures State() == START
    {
      open, messages, buffer, pendingReads, pendingWrites, sent := true, [], "", 0, 0, 0;
      posted, wire, received, taken := [], "", "", [];
      new;
      Read();
    }

    method Read()
      modifies this`pendingReads
      ensures pendingReads == old(pendingReads) + 1
    {
      pendingReads := pendingReads + 1;
    }

    method Write()
      requires messages != [] && pendingWrites == 0
      modifies this`pendingWrites, this`sent
      ensures pendingWrites == 1 && sent == 0
    {
      pendingWrites, sent := pendingWrites + 1, 0;
    }

    method OnError()
      modifies this`open
      ensures !open
    {
      open := false;
    }

    /** Extracts the first line of the stream buffer and then consumes the bytes transferred. */
    method TakeLine(bytesTransferred: nat) returns (line: string)
      requires '\n' in buffer && bytesTransferred == |Line(buffer)| + 1
      modifies this`buffer, this`taken
      ensures line == Line(old(buffer)) && buffer == Leftover(old(buffer))
      ensures taken == old(taken) + [Taken(line, Dropped(old(buffer)), |received|)]
    {
      ghost var data := buffer;
      line, buffer := GetLine(buffer);
      buffer := Consume(buffer, bytesTransferred);
      taken := taken + [Taken(line, Dropped(data), |received|)];
    }

    /** A completed read; `chunk` is what was appended to the stream buffer since the last one, and the
        bytes transferred are those of the first line and its newline. */
    method OnRead(error: bool, bytesTransferred: nat, chunk: string)
      requires pendingWrites > 0 ==> messages != []
      requires Enabled(State(), if error then ReadFailed(chunk) else LineRead(chunk))
      requires !error ==> bytesTransferred == |Line(buffer + chunk)| + 1
      modifies this
      ensures State() == Apply(old(State()), if error then ReadFailed(chunk) else LineRead(chunk))
    {
      pendingReads := pendingReads - 1;
      buffer, received := buffer + chunk, received + chunk;
      if error {
        OnError();
        return;
      }
      var line := TakeLine(bytesTransferred);
      Enqueue(line);
      Read();
    }

    /** Appends a line and starts a write if none is in flight. */
    method Enqueue(line: string)
      requires pendingWrites > 0 ==> messages != []
      modifies this`messages, this`posted, this`pendingWrites, this`sent
      ensures State() == old(State()).(out := Post(old(State()).out, line))
    {
      var writeIdle := messages == [];
      messages, posted := messages + [line], posted + [line];
      if writeIdle {
        Write();
      }
    }

    method OnWrite(error: bool)
      requires pendingWrites == 1
      requires Enabled(State(), Wrote(if error then Failed else Finished))
      modifies this
      ensures State() == Apply(old(State()), Wrote(if error then Failed else Finished))
    {
      pendingWrites := pendingWrites - 1;
      if error {
        OnError();
        return;
      }
      messages := messages[1..];
      sent := 0;
      if messages != [] {
        Write();
      }
    }

    /** Every state that a run can reach meets the conditions above. */
    lemma ReachableIsReady(es: seq<Event>)
      requires ValidRun(START, es) && State() == Exec(START, es)
      ensures pendingWrites <= 1 && (pendingWrites > 0 ==> messages != [])
    {
      Reachable(es);
    }
  }
}
