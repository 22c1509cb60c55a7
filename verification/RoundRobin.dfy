/** The round-robin allocator over a group of I/O contexts.  The ticket counter is an unsigned machine
    word, so it wraps; the number of contexts need not divide the number of tickets. */
module RoundRobin {
  const WORD: nat := 0x1_0000_0000_0000_0000

  /** The context that a ticket selects. */
  function Pick(ticket: nat, n: nat): (i: nat)
    requires n > 0
    ensures i < n
  {
    ticket % n
  }

  /** The post-increment of the counter wraps at the end of the word. */
  function Next(ticket: nat): (next: nat)
    requires ticket < WORD
    ensures next < WORD
  {
    if ticket + 1 == WORD then 0 else ticket + 1
  }

  /** How often context i is selected by k queries in a row, the first of which takes the ticket. */
  function Tally(ticket: nat, k: nat, n: nat, i: nat): nat
    requires n > 0 && ticket < WORD
    decreases k
  {
    if k == 0 then 0
    else (if Pick(ticket, n) == i then 1 else 0) + Tally(Next(ticket), k - 1, n, i)
  }

  // ---------------------------------------------------------------- arithmetic of one lap

  /** How many of the tickets 0 .. k - 1 select context i. */
  function Share(k: nat, n: nat, i: nat): nat
    requires i < n
  {
    k / n + if i < k % n then 1 else 0
  }

  lemma MulAtLeast(d: nat, n: nat)
    requires d >= 1
    ensures d * n >= n
  {
    assert d * n == (d - 1) * n + n;
  }

  lemma Distribute(a: int, c: int, n: int)
    ensures (a + c) * n == a * n + c * n
  {
  }

  lemma QuotientUnique(n: nat, q: nat, r: nat, q': nat, r': nat)
    requires q * n + r == q' * n + r' && r < n && r' < n
    ensures q == q' && r == r'
  {
    if q < q' {
      MulAtLeast(q' - q, n);
      Distribute(q' - q, q, n);
    } else if q' < q {
      MulAtLeast(q - q', n);
      Distribute(q - q', q', n);
    }
  }

  lemma DivModUnique(x: nat, n: nat, q: nat, r: nat)
    requires n > 0 && x == q * n + r && r < n
    ensures x / n == q && x % n == r
  {
    DivModDef(x, n);
    QuotientUnique(n, x / n, x % n, q, r);
  }

  lemma DivModDef(x: nat, n: nat)
    requires n > 0
    ensures x == x / n * n + x % n && x % n < n
  {
  }

  lemma ShareStep(k: nat, n: nat, i: nat)
    requires i < n
    ensures Share(k + 1, n, i) == Share(k, n, i) + if k % n == i then 1 else 0
  {
    var q, r := k / n, k % n;
    assert k == q * n + r;
    if r + 1 < n {
      DivModUnique(k + 1, n, q, r + 1);
    } else {
      assert (q + 1) * n == q * n + n;
      DivModUnique(k + 1, n, q + 1, 0);
    }
  }

  /** Without a wrap the tally is the difference of two shares. */
  lemma {:induction false} TallyIsShare(ticket: nat, k: nat, n: nat, i: nat)
    requires i < n && ticket < WORD && ticket + k <= WORD
    ensures Tally(ticket, k, n, i) == Share(ticket + k, n, i) - Share(ticket, n, i)
    decreases k
  {
    if k > 0 {
      ShareStep(ticket, n, i);
      if ticket + 1 < WORD {
        assert Next(ticket) == ticket + 1;
        TallyIsShare(ticket + 1, k - 1, n, i);
      } else {
        assert k == 1;
      }
    }
  }

  /** The share after a whole number of laps and a part of one. */
  lemma ShareIs(x: nat, n: nat, q: nat, r: nat, i: nat)
    requires i < n && x == q * n + r && r < n
    ensures Share(x, n, i) == q + if i < r then 1 else 0
  {
    DivModUnique(x, n, q, r);
  }

  /** k consecutive numbers hold each residue k / n times, or once more. */
  lemma ShareOfWindow(s: nat, k: nat, n: nat, i: nat)
    requires i < n
    ensures k / n <= Share(s + k, n, i) - Share(s, n, i) <= k / n + if k % n == 0 then 0 else 1
  {
    var a, b, c, d := s / n, s % n, k / n, k % n;
    DivModDef(s, n);
    DivModDef(k, n);
    WindowIs(a, b, c, d, n, i);
  }

  lemma WindowIs(a: nat, b: nat, c: nat, d: nat, n: nat, i: nat)
    requires i < n && b < n && d < n
    ensures
      var s, k := a * n + b, c * n + d;
      c <= Share(s + k, n, i) - Share(s, n, i) <= c + if d == 0 then 0 else 1
  {
    var s, k := a * n + b, c * n + d;
    ShareIs(s, n, a, b, i);
    Distribute(a, c, n);
    if b + d < n {
      ShareIs(s + k, n, a + c, b + d, i);
    } else {
      Distribute(a + c, 1, n);
      ShareIs(s + k, n, a + c + 1, b + d - n, i);
    }
  }

  lemma WrapOnce(ticket: nat, j: nat)
    requires ticket < WORD && j > 0
    ensures (Next(ticket) + (j - 1)) % WORD == (ticket + j) % WORD
  {
  }

  /** A window splits into its first j tickets and the rest, which start at ticket `middle`. */
  lemma {:induction false} TallyAppend(ticket: nat, j: nat, k: nat, n: nat, i: nat, middle: nat)
    requires n > 0 && ticket < WORD && j <= k && middle == (ticket + j) % WORD
    ensures Tally(ticket, k, n, i) == Tally(ticket, j, n, i) + Tally(middle, k - j, n, i)
    decreases j
  {
    if j > 0 {
      WrapOnce(ticket, j);
      TallyAppend(Next(ticket), j - 1, k - 1, n, i, middle);
    }
  }

  // ---------------------------------------------------------------- fairness

  /** In a window without a wrap every context is selected k / n times rounded down or up. */
  lemma FairWithoutWrap(ticket: nat, k: nat, n: nat, i: nat)
    requires i < n && ticket < WORD && ticket + k <= WORD
    ensures k / n <= Tally(ticket, k, n, i) <= k / n + if k % n == 0 then 0 else 1
  {
    TallyIsShare(ticket, k, n, i);
    ShareOfWindow(ticket, k, n, i);
  }

  /** From the start, context i gets exactly (k - i) / n selections, rounded up, and none before its turn. */
  lemma ExactFromStart(k: nat, n: nat, i: nat)
    requires i < n && k <= WORD
    ensures Tally(0, k, n, i) == if k <= i then 0 else (k - i + n - 1) / n
  {
    TallyIsShare(0, k, n, i);
    ShareIs(0, n, 0, 0, i);
    DivModDef(k, n);
    RoundedUp(k / n, k % n, n, i);
  }

  lemma RoundedUp(q: nat, r: nat, n: nat, i: nat)
    requires i < n && r < n
    ensures
      var k := q * n + r;
      Share(k, n, i) == if k <= i then 0 else (k - i + n - 1) / n
  {
    var k := q * n + r;
    ShareIs(k, n, q, r, i);
    if q >= 1 {
      MulAtLeast(q, n);
    }
    if i < r {
      Distribute(q, 1, n);
      DivModUnique(k - i + n - 1, n, q + 1, r - i - 1);
    } else if q >= 1 {
      DivModUnique(k - i + n - 1, n, q, r - i + n - 1);
    }
  }

  /** In any window of at most one word of tickets, which crosses at most one wrap, two contexts differ by
      two selections at most; by one at most when there is no wrap. */
  lemma FairAcrossWrap(ticket: nat, k: nat, n: nat, i: nat, j: nat)
    requires i < n && j < n && ticket < WORD && k <= WORD
    ensures Tally(ticket, k, n, i) <= Tally(ticket, k, n, j) + (if ticket + k <= WORD then 1 else 2)
  {
    if ticket + k <= WORD {
      FairWithoutWrap(ticket, k, n, i);
      FairWithoutWrap(ticket, k, n, j);
    } else {
      var before := WORD - ticket;
      TallyAppend(ticket, before, k, n, i, 0);
      TallyAppend(ticket, before, k, n, j, 0);
      FairWithoutWrap(ticket, before, n, i);
      FairWithoutWrap(ticket, before, n, j);
      FairWithoutWrap(0, k - before, n, i);
      FairWithoutWrap(0, k - before, n, j);
    }
  }

  /** The bound of two is met: with three contexts the last ticket before the wrap and the first one
      after it select the same context. */
  lemma WrapCostsOneMore()
    ensures Next(0xffff_ffff_ffff_ffff) == 0
    ensures Tally(0xffff_ffff_ffff_ffff, 2, 3, 0) == 2 && Tally(0xffff_ffff_ffff_ffff, 2, 3, 1) == 0
  {
    assert (WORD - 1) % 3 == 0;
    assert Next(WORD - 1) == 0;
    assert Tally(0, 1, 3, 0) == 1 + Tally(1, 0, 3, 0);
    assert Tally(0, 1, 3, 1) == 0 + Tally(1, 0, 3, 1);
  }

  // ---------------------------------------------------------------- the object

  class IoContext {
  }

  class IoContextGroup {
    var ioContexts: seq<IoContext>
    var index: nat
    ghost var picks: seq<nat>  // the positions of the contexts handed out, in order

    /** Distinct contexts, a counter that has advanced once for each query, and each context handed out
        as often as the tally of the tickets says. */
    ghost predicate Valid()
      reads this
    {
      && (forall i, j :: 0 <= i < j < |ioContexts| ==> ioContexts[i] != ioContexts[j])
      && index == |picks| % WORD
      && (forall i :: 0 <= i < |ioContexts| ==> multiset(picks)[i] == Tally(0, |picks|, |ioContexts|, i))
    }

    constructor (size: nat)
      ensures Valid() && |ioContexts| == size && picks == []
      ensures forall i :: 0 <= i < size ==> fresh(ioContexts[i])
    {
      ioContexts, index, picks := [], 0, [];
      new;
      for n := 0 to size
        invariant |ioContexts| == n && Valid() && picks == []
        invariant forall i :: 0 <= i < n ==> fresh(ioContexts[i])
      {
        var context := new IoContext;
        ioContexts := ioContexts + [context];
      }
    }

    /** An empty group cannot be queried: the remainder by zero is undefined. */
    method Query() returns (context: IoContext)
      requires Valid() && ioContexts != []
      modifies this`index, this`picks
      ensures Valid()
      ensures picks == old(picks) + [Pick(old(index), |ioContexts|)]
      ensures context == ioContexts[Pick(old(index), |ioContexts|)]
      ensures index == Next(old(index))
    {
      ghost var n, k := |ioContexts|, |picks|;
      forall i | 0 <= i < n
        ensures Tally(0, k + 1, n, i) == Tally(0, k, n, i) + if Pick(index, n) == i then 1 else 0
      {
        TallySnoc(k, n, i);
      }
      context := ioContexts[index % |ioContexts|];
      picks := picks + [Pick(index, n)];
      index := Next(index);
    }

    /** In a group that has served no more than a word of queries, two contexts were handed out equally
        often but for one. */
    lemma Fair(i: nat, j: nat)
      requires Valid() && i < |ioContexts| && j < |ioContexts| && |picks| <= WORD
      ensures multiset(picks)[i] <= multiset(picks)[j] + 1
    {
      FairAcrossWrap(0, |picks|, |ioContexts|, i, j);
    }
  }

  lemma TallySnoc(k: nat, n: nat, i: nat)
    requires n > 0
    ensures Tally(0, k + 1, n, i) == Tally(0, k, n, i) + if Pick(k % WORD, n) == i then 1 else 0
  {
    TallyAppend(0, k, k + 1, n, i, k % WORD);
    assert Tally(k % WORD, 1, n, i) == (if Pick(k % WORD, n) == i then 1 else 0) + Tally(Next(k % WORD), 0, n, i);
  }
}
