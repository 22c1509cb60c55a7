/** The shared counter that two self-re-arming timer handlers increment up to KCOUNT, in its
    unsynchronised form: the threads of the pool may interleave the two chains at every access to
    the counter.  Accesses are taken to be sequentially consistent. */
module RacingPrinter {
  const KCOUNT: nat := 100
  const UNSIGNED: nat := 0x1_0000_0000

  /** Where a chain stands inside its handler. */
  datatype Chain =
    | Guard               // about to load the counter for the comparison
    | Load                // passed the comparison, about to load for the increment
    | Store(held: nat)    // holds the loaded value, about to store its successor
    | Done                // the comparison failed; the timer is not re-armed

  datatype Race = Race(counter: nat, one: Chain, two: Chain)

  datatype Who = One | Two

  const START := Race(0, Guard, Guard)

  function ChainOf(st: Race, who: Who): Chain {
    if who.One? then st.one else st.two
  }

  predicate Enabled(st: Race, who: Who) {
    ChainOf(st, who) != Done
  }

  /** One access to the counter by one chain; the increment wraps like an unsigned int. */
  function Step(st: Race, who: Who): Race
    requires Enabled(st, who)
  {
    var next, counter :=
      match ChainOf(st, who)
      case Guard => (if st.counter < KCOUNT then Load else Done)
      case Load => Store(st.counter)
      case Store(_) => Guard,
      match ChainOf(st, who)
      case Store(held) => (held + 1) % UNSIGNED
      case _ => st.counter;
    if who.One? then Race(counter, next, st.two) else Race(counter, st.one, next)
  }

  predicate ValidRun(st: Race, run: seq<Who>)
    decreases |run|
  {
    run == [] || (Enabled(st, run[0]) && ValidRun(Step(st, run[0]), run[1..]))
  }

  function Exec(st: Race, run: seq<Who>): Race
    requires ValidRun(st, run)
    decreases |run|
  {
    if run == [] then st else Exec(Step(st, run[0]), run[1..])
  }

  /** A chain that passed the comparison and has not stored yet. */
  predicate PastGuard(c: Chain) {
    c.Load? || c.Store?
  }

  ghost predicate Inv(st: Race) {
    && st.counter <= KCOUNT + 1
    && (st.counter >= KCOUNT ==> !(PastGuard(st.one) && PastGuard(st.two)))
    && (st.counter > KCOUNT ==> !PastGuard(st.one) && !PastGuard(st.two))
    && (st.one.Store? ==> st.one.held <= KCOUNT && (st.one.held == KCOUNT ==> st.counter == KCOUNT))
    && (st.two.Store? ==> st.two.held <= KCOUNT && (st.two.held == KCOUNT ==> st.counter == KCOUNT))
    && (st.one.Store? && st.two.Store? ==> st.counter == st.one.held || st.counter == st.two.held)
    && (st.one.Done? && st.two.Done? ==> st.counter >= KCOUNT)
  }

  lemma StepKeepsInv(st: Race, who: Who)
    requires Inv(st) && Enabled(st, who)
    ensures Inv(Step(st, who))
  {
  }

  lemma {:induction false} RunKeepsInv(st: Race, run: seq<Who>)
    requires Inv(st) && ValidRun(st, run)
    ensures Inv(Exec(st, run))
    decreases |run|
  {
    if run != [] {
      StepKeepsInv(st, run[0]);
      RunKeepsInv(Step(st, run[0]), run[1..]);
    }
  }

  /** Lost updates or not, the counter never passes KCOUNT + 1, so the increment never wraps; once the
      comparison would fail at most one chain is still past its own; and when both chains have
      stopped the final count is KCOUNT or KCOUNT + 1. */
  lemma CounterBound(run: seq<Who>)
    requires ValidRun(START, run)
    ensures
      var st := Exec(START, run);
      && st.counter <= KCOUNT + 1 < UNSIGNED
      && (st.counter >= KCOUNT ==> !(PastGuard(st.one) && PastGuard(st.two)))
      && (st.one.Done? && st.two.Done? ==> st.counter == KCOUNT || st.counter == KCOUNT + 1)
  {
    RunKeepsInv(START, run);
  }

  // ---------------------------------------------------------------- the final count, exactly

  /** A chain loads the counter for its increment. */
  predicate Increments(st: Race, who: Who) {
    ChainOf(st, who).Load?
  }

  /** Some chain loads the counter for its increment when the counter already is KCOUNT: the other one
      stored KCOUNT between this chain's comparison and this load. */
  predicate LateLoad(st: Race, run: seq<Who>)
    requires ValidRun(st, run)
    decreases |run|
  {
    run != [] && ((Increments(st, run[0]) && st.counter == KCOUNT) || LateLoad(Step(st, run[0]), run[1..]))
  }

  /** The counter has passed KCOUNT, or a chain is about to store the successor of KCOUNT. */
  predicate Overshot(st: Race) {
    st.counter > KCOUNT || st.one == Store(KCOUNT) || st.two == Store(KCOUNT)
  }

  lemma StepOvershoots(st: Race, who: Who)
    requires Inv(st) && Enabled(st, who)
    ensures Overshot(Step(st, who)) <==> Overshot(st) || (Increments(st, who) && st.counter == KCOUNT)
  {
  }

  lemma {:induction false} RunOvershoots(st: Race, run: seq<Who>)
    requires Inv(st) && ValidRun(st, run)
    ensures Inv(Exec(st, run))
    ensures Overshot(Exec(st, run)) <==> Overshot(st) || LateLoad(st, run)
    decreases |run|
  {
    if run != [] {
      StepKeepsInv(st, run[0]);
      StepOvershoots(st, run[0]);
      RunOvershoots(Step(st, run[0]), run[1..]);
    }
  }

  /** The final count of a complete run, exactly: one too many if and only if some increment loaded the
      counter when it already was KCOUNT, and the bound itself otherwise. */
  lemma FinalCountExactly(run: seq<Who>)
    requires ValidRun(START, run)
    requires Exec(START, run).one.Done? && Exec(START, run).two.Done?
    ensures Exec(START, run).counter == if LateLoad(START, run) then 101 else 100
  {
    RunOvershoots(START, run);
  }

  // ---------------------------------------------------------------- the printed values

  /** The values that a run prints, in the order in which the increments load them. */
  function Printed(st: Race, run: seq<Who>): seq<nat>
    requires ValidRun(st, run)
    decreases |run|
  {
    if run == [] then []
    else (if Increments(st, run[0]) then [st.counter] else []) + Printed(Step(st, run[0]), run[1..])
  }

  /** All values below the counter have been printed, and so have all values up to each one held. */
  ghost predicate Covered(st: Race, seen: set<nat>) {
    && (forall v: nat :: v < st.counter ==> v in seen)
    && (st.one.Store? ==> forall v: nat :: v <= st.one.held ==> v in seen)
    && (st.two.Store? ==> forall v: nat :: v <= st.two.held ==> v in seen)
  }

  lemma StepCovers(st: Race, who: Who, seen: set<nat>)
    requires Inv(st) && Enabled(st, who) && Covered(st, seen)
    ensures Covered(Step(st, who), seen + if Increments(st, who) then {st.counter} else {})
  {
  }

  lemma {:induction false} RunCovers(st: Race, run: seq<Who>, seen: set<nat>)
    requires Inv(st) && ValidRun(st, run) && Covered(st, seen)
    ensures Covered(Exec(st, run), seen + set v | v in Printed(st, run))
    decreases |run|
  {
    if run == [] {
      assert seen + (set v | v in Printed(st, run)) == seen;
    } else {
      var now := if Increments(st, run[0]) then {st.counter} else {};
      StepKeepsInv(st, run[0]);
      StepCovers(st, run[0], seen);
      RunCovers(Step(st, run[0]), run[1..], seen + now);
      assert seen + now + (set v | v in Printed(Step(st, run[0]), run[1..])) == seen + set v | v in Printed(st, run);
    }
  }

  lemma {:induction false} PrintsTheBoundIffLate(st: Race, run: seq<Who>)
    requires Inv(st) && ValidRun(st, run)
    ensures KCOUNT in Printed(st, run) <==> LateLoad(st, run)
    ensures forall v :: v in Printed(st, run) ==> v <= KCOUNT
    decreases |run|
  {
    if run != [] {
      StepKeepsInv(st, run[0]);
      PrintsTheBoundIffLate(Step(st, run[0]), run[1..]);
    }
  }

  /** A lost update prints a value twice and never skips one: a complete run prints every value below
      KCOUNT at least once, and nothing else but KCOUNT itself, which it prints if and only if the
      final count is one too many. */
  lemma PrintsEveryValue(run: seq<Who>)
    requires ValidRun(START, run)
    requires Exec(START, run).one.Done? && Exec(START, run).two.Done?
    ensures forall v: nat :: v < KCOUNT ==> v in Printed(START, run)
    ensures forall v :: v in Printed(START, run) ==> v <= KCOUNT
    ensures KCOUNT in Printed(START, run) <==> Exec(START, run).counter == KCOUNT + 1
  {
    RunKeepsInv(START, run);
    RunCovers(START, run, {});
    forall v: nat | v < KCOUNT
      ensures v in Printed(START, run)
    {
      assert v in {} + set w | w in Printed(START, run);
    }
    PrintsTheBoundIffLate(START, run);
    FinalCountExactly(run);
  }

  // ---------------------------------------------------------------- lost updates

  /** A chain stores the successor of a value that the counter no longer has. */
  predicate StoresStale(st: Race, who: Who) {
    ChainOf(st, who).Store? && ChainOf(st, who).held != st.counter
  }

  predicate SomeStoreIsStale(st: Race, run: seq<Who>)
    requires ValidRun(st, run)
    decreases |run|
  {
    run != [] && (StoresStale(st, run[0]) || SomeStoreIsStale(Step(st, run[0]), run[1..]))
  }

  /** At most one chain holds a value, and it is that of the counter. */
  ghost predicate Tidy(st: Race) {
    && (st.one.Store? ==> st.one.held == st.counter && !st.two.Store?)
    && (st.two.Store? ==> st.two.held == st.counter)
  }

  /** A chain holds a value that the counter has passed, or both hold the same one. */
  ghost predicate Doomed(st: Race) {
    || (st.one.Store? && st.one.held < st.counter)
    || (st.two.Store? && st.two.held < st.counter)
    || (st.one.Store? && st.two.Store? && st.one.held == st.two.held == st.counter)
  }

  lemma DoomedStep(st: Race, who: Who)
    requires Inv(st) && Doomed(st) && Enabled(st, who) && !StoresStale(st, who)
    ensures Doomed(Step(st, who))
  {
  }

  lemma {:induction false} DoomedRun(st: Race, run: seq<Who>)
    requires Inv(st) && Doomed(st) && ValidRun(st, run)
    requires Exec(st, run).one.Done? && Exec(st, run).two.Done?
    ensures SomeStoreIsStale(st, run)
    decreases |run|
  {
    if run != [] && !StoresStale(st, run[0]) {
      DoomedStep(st, run[0]);
      StepKeepsInv(st, run[0]);
      DoomedRun(Step(st, run[0]), run[1..]);
    }
  }

  /** The value to be printed next if nothing gets lost. */
  function NextPrint(st: Race): nat {
    st.counter + if st.one.Store? || st.two.Store? then 1 else 0
  }

  ghost predicate CountsUp(values: seq<nat>, first: nat) {
    forall k :: 0 <= k < |values| ==> values[k] == first + k
  }

  lemma CountsUpCons(values: seq<nat>, first: nat)
    ensures CountsUp([first] + values, first) <==> CountsUp(values, first + 1)
  {
    var all := [first] + values;
    assert forall k :: 0 <= k < |values| ==> values[k] == all[k + 1];
  }

  /** From a tidy state a step either repeats the value just loaded by the other chain, and then an update
      is lost, or it leads to a tidy state and prints the next value if it prints one. */
  lemma TidyStep(st: Race, who: Who)
    requires Inv(st) && Tidy(st) && Enabled(st, who)
    ensures
      var st' := Step(st, who);
      if Increments(st, who) && NextPrint(st) != st.counter then Doomed(st')
      else Tidy(st') && NextPrint(st') == NextPrint(st) + if Increments(st, who) then 1 else 0
    ensures !StoresStale(st, who)
  {
  }

  lemma {:induction false} TidyRun(st: Race, run: seq<Who>)
    requires Inv(st) && Tidy(st) && ValidRun(st, run)
    requires Exec(st, run).one.Done? && Exec(st, run).two.Done?
    ensures CountsUp(Printed(st, run), NextPrint(st)) <==> !SomeStoreIsStale(st, run)
    ensures !SomeStoreIsStale(st, run) ==> NextPrint(st) + |Printed(st, run)| == Exec(st, run).counter
    decreases |run|
  {
    if run != [] {
      var who := run[0];
      var st', rest := Step(st, who), run[1..];
      TidyStep(st, who);
      StepKeepsInv(st, who);
      if Increments(st, who) && NextPrint(st) != st.counter {
        DoomedRun(st', rest);
        assert Printed(st, run)[0] == st.counter;
      } else {
        TidyRun(st', rest);
        CountsUpCons(Printed(st', rest), st.counter);
        assert !Increments(st, who) ==> Printed(st, run) == Printed(st', rest);
      }
    }
  }

  /** A complete run prints 0, 1, 2, ... up to its final count, each value once and in order, if and only if
      no store in it is stale: no chain stores between the load and the store of the other. */
  lemma PrintsInOrderIffNothingLost(run: seq<Who>)
    requires ValidRun(START, run)
    requires Exec(START, run).one.Done? && Exec(START, run).two.Done?
    ensures Printed(START, run) == seq(Exec(START, run).counter, k => k) <==> !SomeStoreIsStale(START, run)
  {
    TidyRun(START, run);
    var values, count := Printed(START, run), Exec(START, run).counter;
    assert CountsUp(values, 0) && |values| == count ==> values == seq(count, k => k);
    assert values == seq(count, k => k) ==> CountsUp(values, 0);
  }

  // ---------------------------------------------------------------- termination

  function Min(a: nat, b: nat): nat {
    if a <= b then a else b
  }

  /** The smallest value that the counter has or can be set back to. */
  function Floor(st: Race): nat {
    var m := if st.one.Store? then Min(st.counter, st.one.held) else st.counter;
    if st.two.Store? then Min(m, st.two.held) else m
  }

  function Pace(c: Chain): nat {
    match c
    case Guard => 3
    case Load => 2
    case Store(_) => 1
    case Done => 0
  }

  const LAP: nat := 4 * (KCOUNT + 2) + 7

  /** The accesses left before the counter changes and the steps it has left to the bound. */
  function Inner(st: Race): nat
    requires Inv(st)
    ensures Inner(st) < LAP
  {
    4 * (KCOUNT + 2 - st.counter) + Pace(st.one) + Pace(st.two)
  }

  /** The lexicographic measure as one number: how far the floor is from the bound, whether the
      counter still sits on the floor, and within that the distance of the counter to the bound. */
  function Rank(st: Race): nat
    requires Inv(st)
  {
    2 * LAP * (KCOUNT + 1 - Floor(st)) + (if st.counter == Floor(st) then LAP else 0) + Inner(st)
  }

  /** A stale store sets the counter back, but never below the floor: the floor does not fall, and
      while it stays the counter can only leave it. */
  lemma FloorNeverFalls(st: Race, who: Who)
    requires Inv(st) && Enabled(st, who)
    ensures Floor(st) <= Floor(Step(st, who))
    ensures Floor(Step(st, who)) == Floor(st) && Step(st, who).counter == Floor(st) ==> st.counter == Floor(st)
  {
    var st' := Step(st, who);
    match ChainOf(st, who)
    case Guard =>
      assert Floor(st') == Floor(st) && st'.counter == st.counter;
    case Load =>
      assert Floor(st') == Floor(st) && st'.counter == st.counter;
    case Store(held) =>
      assert st'.counter == held + 1 && Floor(st) <= held;
  }

  /** Between two changes of the floor each step uses up an access. */
  lemma InnerFalls(st: Race, who: Who)
    requires Inv(st) && Enabled(st, who) && Inv(Step(st, who))
    requires Floor(Step(st, who)) == Floor(st)
    requires (Step(st, who).counter == Floor(st)) == (st.counter == Floor(st))
    ensures Inner(Step(st, who)) < Inner(st)
  {
  }

  lemma Lexicographic(floor: nat, floor': nat, on: bool, on': bool, inner: nat, inner': nat)
    requires floor <= floor' <= KCOUNT + 1 && inner < LAP && inner' < LAP
    requires floor' == floor ==> (on' ==> on) && (on' == on ==> inner' < inner)
    ensures 2 * LAP * (KCOUNT + 1 - floor') + (if on' then LAP else 0) + inner'
          < 2 * LAP * (KCOUNT + 1 - floor) + (if on then LAP else 0) + inner
  {
  }

  lemma StepLowersRank(st: Race, who: Who)
    requires Inv(st) && Enabled(st, who)
    ensures Inv(Step(st, who)) && Rank(Step(st, who)) < Rank(st)
  {
    StepKeepsInv(st, who);
    FloorNeverFalls(st, who);
    var st' := Step(st, who);
    var on, on' := st.counter == Floor(st), st'.counter == Floor(st');
    if Floor(st') == Floor(st) && on' == on {
      InnerFalls(st, who);
    }
    Lexicographic(Floor(st), Floor(st'), on, on', Inner(st), Inner(st'));
  }

  lemma {:induction false} RunIsBounded(st: Race, run: seq<Who>)
    requires Inv(st) && ValidRun(st, run)
    ensures Inv(Exec(st, run)) && |run| + Rank(Exec(st, run)) <= Rank(st)
    decreases |run|
  {
    if run != [] {
      StepLowersRank(st, run[0]);
      RunIsBounded(Step(st, run[0]), run[1..]);
    }
  }

  /** Every run is finite although a stale store may set the counter back: there is one bound on
      the length of all of them. */
  lemma EveryRunTerminates(run: seq<Who>)
    requires ValidRun(START, run)
    ensures |run| <= 2 * LAP * (KCOUNT + 1) + 2 * LAP
  {
    RunIsBounded(START, run);
  }

  // ---------------------------------------------------------------- the bounds are attained

  lemma {:induction false} RunsCompose(st: Race, a: seq<Who>, b: seq<Who>)
    requires ValidRun(st, a) && ValidRun(Exec(st, a), b)
    ensures ValidRun(st, a + b) && Exec(st, a + b) == Exec(Exec(st, a), b)
    decreases |a|
  {
    if a == [] {
      assert a + b == b;
    } else {
      assert (a + b)[1..] == a[1..] + b;
      RunsCompose(Step(st, a[0]), a[1..], b);
    }
  }

  /** One whole handler invocation of a chain, without interference. */
  function Handler(who: Who): seq<Who> {
    [who, who, who]
  }

  lemma StepThen(st: Race, who: Who, rest: seq<Who>)
    requires Enabled(st, who) && ValidRun(Step(st, who), rest)
    ensures ValidRun(st, [who] + rest) && Exec(st, [who] + rest) == Exec(Step(st, who), rest)
  {
    assert ([who] + rest)[1..] == rest;
  }

  lemma ThreeAccesses(st: Race, who: Who)
    requires ChainOf(st, who) == Guard && st.counter < KCOUNT
    ensures Enabled(st, who) && Enabled(Step(st, who), who) && Enabled(Step(Step(st, who), who), who)
    ensures Step(Step(Step(st, who), who), who) == st.(counter := st.counter + 1)
  {
    if who.One? {
      assert Step(st, who) == st.(one := Load);
      assert Step(Step(st, who), who) == st.(one := Store(st.counter));
    } else {
      assert Step(st, who) == st.(two := Load);
      assert Step(Step(st, who), who) == st.(two := Store(st.counter));
    }
  }

  lemma ThreeSteps(st: Race, who: Who)
    requires Enabled(st, who) && Enabled(Step(st, who), who) && Enabled(Step(Step(st, who), who), who)
    ensures ValidRun(st, Handler(who)) && Exec(st, Handler(who)) == Step(Step(Step(st, who), who), who)
  {
    var s1 := Step(st, who);
    var s2 := Step(s1, who);
    StepThen(s2, who, []);
    StepThen(s1, who, [who] + []);
    StepThen(st, who, [who] + ([who] + []));
    assert Handler(who) == [who] + ([who] + ([who] + []));
  }

  lemma UndisturbedHandler(st: Race, who: Who)
    requires ChainOf(st, who) == Guard && st.counter < KCOUNT
    ensures ValidRun(st, Handler(who)) && Exec(st, Handler(who)) == st.(counter := st.counter + 1)
  {
    ThreeAccesses(st, who);
    ThreeSteps(st, who);
  }

  lemma FailedComparison(st: Race, who: Who)
    requires ChainOf(st, who) == Guard && st.counter >= KCOUNT
    ensures ValidRun(st, [who])
    ensures Exec(st, [who]) == if who.One? then st.(one := Done) else st.(two := Done)
  {
    assert [who][1..] == [];
    assert Exec(st, [who]) == Exec(Step(st, who), []);
  }

  /** Chain one alone counts from any state up to n. */
  lemma {:induction false} Solo(st: Race, n: nat) returns (run: seq<Who>)
    requires st.one == Guard && st.counter <= n <= KCOUNT
    ensures ValidRun(st, run) && Exec(st, run) == st.(counter := n)
    decreases n - st.counter
  {
    if st.counter == n {
      run := [];
    } else {
      UndisturbedHandler(st, One);
      var rest := Solo(st.(counter := st.counter + 1), n);
      run := Handler(One) + rest;
      RunsCompose(st, Handler(One), rest);
    }
  }

  /** A stale store really sets the counter back: however far chain one has counted, chain two, which
      loaded 0 before it began, stores 1. */
  lemma StaleStoreSetsBack(n: nat) returns (run: seq<Who>)
    requires n <= KCOUNT
    ensures ValidRun(START, run) && Exec(START, run) == Race(n, Guard, Store(0))
    ensures ValidRun(START, run + [Two]) && Exec(START, run + [Two]) == Race(1, Guard, Guard)
  {
    var held := Race(0, Guard, Store(0));
    StepThen(Race(0, Guard, Load), Two, []);
    StepThen(START, Two, [Two] + []);
    assert [Two] + ([Two] + []) == [Two, Two];
    var count := Solo(held, n);
    RunsCompose(START, [Two, Two], count);
    run := [Two, Two] + count;
    StepThen(Race(n, Guard, Store(0)), Two, []);
    assert [Two] + [] == [Two];
    RunsCompose(START, run, [Two]);
  }

  lemma PrintedThen(st: Race, who: Who, rest: seq<Who>)
    requires Enabled(st, who) && ValidRun(Step(st, who), rest)
    ensures ValidRun(st, [who] + rest)
    ensures Exec(st, [who] + rest) == Exec(Step(st, who), rest)
    ensures Printed(st, [who] + rest) ==
            (if Increments(st, who) then [st.counter] else []) + Printed(Step(st, who), rest)
  {
    assert ([who] + rest)[1..] == rest;
  }

  /** Lost updates do occur in complete runs: one of them prints a value twice. */
  lemma PrintsAValueTwice() returns (run: seq<Who>)
    ensures ValidRun(START, run) && Exec(START, run) == Race(KCOUNT, Done, Done)
    ensures |Printed(START, run)| >= 2 && Printed(START, run)[0] == Printed(START, run)[1] == 0
  {
    var even := Race(1, Guard, Guard);
    var count := Solo(even, KCOUNT);
    FailedComparison(Race(KCOUNT, Done, Guard), Two);
    StepThen(Race(KCOUNT, Guard, Guard), One, [Two]);
    RunsCompose(even, count, [One] + [Two]);
    run := count + ([One] + [Two]);
    PrintedThen(Race(1, Store(0), Guard), One, run);
    run := [One] + run;
    PrintedThen(Race(0, Store(0), Store(0)), Two, run);
    run := [Two] + run;
    PrintedThen(Race(0, Load, Store(0)), One, run);
    run := [One] + run;
    PrintedThen(Race(0, Guard, Store(0)), One, run);
    run := [One] + run;
    PrintedThen(Race(0, Guard, Load), Two, run);
    run := [Two] + run;
    PrintedThen(START, Two, run);
    run := [Two] + run;
  }

  /** Both final counts occur. */
  lemma BothOutcomesOccur() returns (exact: seq<Who>, overshot: seq<Who>)
    ensures ValidRun(START, exact) && Exec(START, exact) == Race(KCOUNT, Done, Done)
    ensures ValidRun(START, overshot) && Exec(START, overshot) == Race(KCOUNT + 1, Done, Done)
  {
    var alone := Solo(START, KCOUNT);
    var stop := [One, Two];
    assert stop[1..] == [Two] && [Two][1..] == [];
    assert ValidRun(Race(KCOUNT, Done, Guard), [Two]);
    assert Exec(Race(KCOUNT, Done, Guard), [Two]) == Race(KCOUNT, Done, Done);
    RunsCompose(START, alone, stop);
    exact := alone + stop;

    // chain two passes its comparison at KCOUNT - 1, chain one then stores KCOUNT
    var nearly := Solo(START, KCOUNT - 1);
    var st := Race(KCOUNT - 1, Guard, Load);
    assert [Two][1..] == [] && Exec(Race(KCOUNT - 1, Guard, Guard), [Two]) == st;
    RunsCompose(START, nearly, [Two]);
    UndisturbedHandler(st, One);
    RunsCompose(START, nearly + [Two], Handler(One));
    var finish := [Two, Two, One, Two];
    var s1 := Race(KCOUNT, Guard, Store(KCOUNT));
    var s2 := Race(KCOUNT + 1, Guard, Guard);
    var s3 := Race(KCOUNT + 1, Done, Guard);
    assert Step(Race(KCOUNT, Guard, Load), Two) == s1 && Step(s1, Two) == s2 && Step(s2, One) == s3;
    assert finish[1..] == [Two, One, Two] && [Two, One, Two][1..] == [One, Two];
    assert Exec(s3, [Two]) == Race(KCOUNT + 1, Done, Done);
    assert ValidRun(s2, stop) && Exec(s2, stop) == Exec(s3, [Two]);
    assert ValidRun(s1, [Two, One, Two]) && Exec(s1, [Two, One, Two]) == Exec(s2, stop);
    RunsCompose(START, nearly + [Two] + Handler(One), finish);
    overshot := nearly + [Two] + Handler(One) + finish;
  }
}

/** The same printer with its handlers bound to a strand: each handler runs to completion before
    the other may start. */
module StrandPrinter {
  import opened RacingPrinter

  class Printer {
    var counter: nat
    var armed1: bool
    var armed2: bool
    ghost var printed: seq<nat>
    ghost var invocations: nat
    ghost var accesses: seq<Who>  // the counter accesses made so far, in order

    /** The printed values are 0, 1, 2, ... in this order; each invocation either printed a value or
        disarmed its own timer for good; and what happened is one of the interleavings of the
        unsynchronised printer. */
    ghost predicate Valid()
      reads this
    {
      && counter <= KCOUNT
      && printed == seq(counter, k => k)
      && (!armed1 || !armed2 ==> counter == KCOUNT)
      && invocations == counter + (if armed1 then 0 else 1) + (if armed2 then 0 else 1)
      && ValidRun(START, accesses)
      && Exec(START, accesses) == Race(counter, if armed1 then Guard else Done, if armed2 then Guard else Done)
    }

    constructor ()
      ensures Valid() && counter == 0 && armed1 && armed2
    {
      counter, armed1, armed2, printed, invocations, accesses := 0, true, true, [], 0, [];
    }

    method Print1()
      requires Valid() && armed1
      modifies this
      ensures Valid()
      ensures invocations == old(invocations) + 1
      ensures printed == if old(counter) < KCOUNT then old(printed) + [old(counter)] else old(printed)
      ensures armed1 == (old(counter) < KCOUNT) && armed2 == old(armed2)
    {
      invocations := invocations + 1;
      ghost var st := Exec(START, accesses);
      armed1 := false;
      if counter < KCOUNT {
        UndisturbedHandler(st, One);
        RunsCompose(START, accesses, Handler(One));
        accesses := accesses + Handler(One);
        printed := printed + [counter];
        counter := (counter + 1) % UNSIGNED;
        armed1 := true;
      } else {
        FailedComparison(st, One);
        RunsCompose(START, accesses, [One]);
        accesses := accesses + [One];
      }
    }

    method Print2()
      requires Valid() && armed2
      modifies this
      ensures Valid()
      ensures invocations == old(invocations) + 1
      ensures printed == if old(counter) < KCOUNT then old(printed) + [old(counter)] else old(printed)
      ensures armed2 == (old(counter) < KCOUNT) && armed1 == old(armed1)
    {
      invocations := invocations + 1;
      ghost var st := Exec(START, accesses);
      armed2 := false;
      if counter < KCOUNT {
        UndisturbedHandler(st, Two);
        RunsCompose(START, accesses, Handler(Two));
        accesses := accesses + Handler(Two);
        printed := printed + [counter];
        counter := (counter + 1) % UNSIGNED;
        armed2 := true;
      } else {
        FailedComparison(st, Two);
        RunsCompose(START, accesses, [Two]);
        accesses := accesses + [Two];
      }
    }

    /** The event loop under a strand: whichever timer is served next, the run ends after exactly
        KCOUNT + 2 invocations with every value printed once and in order. */
    method Run(schedule: nat -> bool)
      requires Valid() && counter == 0 && armed1 && armed2
      modifies this
      ensures !armed1 && !armed2
      ensures counter == 100 && printed == seq(100, k => k)
      ensures invocations == 102
    {
      var turn := 0;
      while armed1 || armed2
        invariant Valid()
        decreases 2 * (KCOUNT - counter) + (if armed1 then 1 else 0) + (if armed2 then 1 else 0)
      {
        if armed1 && (!armed2 || schedule(turn)) {
          Print1();
        } else {
          Print2();
        }
        turn := turn + 1;
      }
    }
  }
}
