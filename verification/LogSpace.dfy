/** The room in the log (kernel/log.c): begin_op reserves MAXOPBLOCKS blocks for each
    operation, log_write takes them, the last end_op commits and empties the log.
    Only the counts matter here, so that any number of operations can be followed
    through any interleaving. */
module LogSpace {
  import R = RedoLog

  const MAXOPBLOCKS: nat := 10
  const LOGSIZE: nat := R.LOGSIZE

  /** lh.n, and for each operation that has begun how many new blocks it may still
      log. */
  datatype Room = Room(n: nat, budgets: seq<nat>)

  datatype Step =
    | Begin                  // begin_op that does not have to wait
    | New(i: nat)            // operation i logs a block that is not in the log yet
    | Again(i: nat)          // operation i logs a block that is
    | End(i: nat)            // end_op of operation i, with the commit if it is the last

  /** log_write's test, for a log area of this size. */
  predicate Accepts(size: nat, n: nat) {
    n < LOGSIZE && n < size - 1
  }

  predicate Enabled(s: Room, x: Step) {
    match x
    case Begin => s.n + (|s.budgets| + 1) * MAXOPBLOCKS <= LOGSIZE
    case New(i) => i < |s.budgets| && s.budgets[i] > 0
    case Again(i) => i < |s.budgets| && s.n > 0
    case End(i) => i < |s.budgets|
  }

  function Next(s: Room, x: Step): Room
    requires Enabled(s, x)
  {
    match x
    case Begin => s.(budgets := s.budgets + [MAXOPBLOCKS])
    case New(i) => Room(s.n + 1, s.budgets[i := s.budgets[i] - 1])
    case Again(_) => s
    case End(i) =>
      var rest := s.budgets[..i] + s.budgets[i + 1..];
      Room(if rest == [] then 0 else s.n, rest)
  }

  /** No step of a run is refused by log_write up to s1. */
  ghost predicate Run(size: nat, s: Room, steps: seq<Step>, s1: Room)
    decreases |steps|
  {
    if steps == [] then s1 == s
    else
      && Enabled(s, steps[0]) && ((steps[0].New? || steps[0].Again?) ==> Accepts(size, s.n))
      && Run(size, Next(s, steps[0]), steps[1..], s1)
  }

  ghost predicate Reachable(size: nat, s: Room) {
    exists steps :: Run(size, Room(0, []), steps, s)
  }

  function Sum(s: seq<nat>): nat {
    if s == [] then 0 else Sum(s[..|s| - 1]) + s[|s| - 1]
  }

  lemma {:induction false} SumJoin(a: seq<nat>, b: seq<nat>)
    ensures Sum(a + b) == Sum(a) + Sum(b)
  {
    if b == [] {
      assert a + b == a;
    } else {
      SumJoin(a, b[..|b| - 1]);
      assert (a + b)[..|a + b| - 1] == a + b[..|b| - 1];
    }
  }

  lemma SumAt(s: seq<nat>, i: nat, x: nat)
    requires i < |s|
    ensures Sum(s) == Sum(s[..i] + s[i + 1..]) + s[i] && Sum(s[i := x]) == Sum(s) - s[i] + x
  {
    var a, b := s[..i], s[i + 1..];
    assert s == a + [s[i]] + b && s[i := x] == a + [x] + b;
    SumJoin(a, b);
    SumJoin(a + [s[i]], b);
    SumJoin(a, [s[i]]);
    SumJoin(a + [x], b);
    SumJoin(a, [x]);
  }

  lemma {:induction false} SumBound(s: seq<nat>, m: nat)
    requires forall i :: 0 <= i < |s| ==> s[i] <= m
    ensures Sum(s) <= |s| * m
  {
    if s != [] { SumBound(s[..|s| - 1], m); }
  }

  /** What is in the log and what may still come fits. */
  ghost predicate Fits(s: Room) {
    s.n + Sum(s.budgets) <= LOGSIZE && forall i :: 0 <= i < |s.budgets| ==> s.budgets[i] <= MAXOPBLOCKS
  }

  lemma BeginFits(s: Room)
    requires Fits(s) && Enabled(s, Begin)
    ensures Fits(Next(s, Begin))
  {
    SumBound(s.budgets, MAXOPBLOCKS);
    SumJoin(s.budgets, [MAXOPBLOCKS]);
    assert Sum([MAXOPBLOCKS]) == MAXOPBLOCKS;
  }

  lemma NewFits(s: Room, i: nat)
    requires Fits(s) && Enabled(s, New(i))
    ensures Fits(Next(s, New(i)))
  {
    SumAt(s.budgets, i, s.budgets[i] - 1);
  }

  lemma EndFits(s: Room, i: nat)
    requires Fits(s) && Enabled(s, End(i))
    ensures Fits(Next(s, End(i)))
  {
    SumAt(s.budgets, i, 0);
    var rest := s.budgets[..i] + s.budgets[i + 1..];
    forall j | 0 <= j < |rest|
      ensures rest[j] <= MAXOPBLOCKS
    {
      assert rest[j] == s.budgets[if j < i then j else j + 1];
    }
  }

  lemma StepFits(s: Room, x: Step)
    requires Fits(s) && Enabled(s, x)
    ensures Fits(Next(s, x))
  {
    match x
    case Begin => BeginFits(s);
    case New(i) => NewFits(s, i);
    case Again(_) =>
    case End(i) => EndFits(s, i);
  }

  lemma {:induction false} RunFits(size: nat, s: Room, steps: seq<Step>, s1: Room)
    requires Fits(s) && Run(size, s, steps, s1)
    ensures Fits(s1)
    decreases |steps|
  {
    if steps != [] {
      StepFits(s, steps[0]);
      RunFits(size, Next(s, steps[0]), steps[1..], s1);
    }
  }

  /** One more step at the end of a run. */
  lemma {:induction false} RunAndStep(size: nat, s: Room, a: seq<Step>, t: Room, x: Step)
    requires Run(size, s, a, t) && Enabled(t, x) && ((x.New? || x.Again?) ==> Accepts(size, t.n))
    ensures Run(size, s, a + [x], Next(t, x))
    decreases |a|
  {
    if a == [] {
      assert a + [x] == [x] && [x][1..] == [];
      assert Run(size, Next(t, x), [], Next(t, x));
    } else {
      RunAndStep(size, Next(s, a[0]), a[1..], t, x);
      assert (a + [x])[1..] == a[1..] + [x];
    }
  }

  /** After three operations have begun, m of their new blocks have been logged. */
  function Filled(m: nat): (s: Room)
    requires m <= LOGSIZE
  {
    Room(m, [if m <= 10 then 10 - m else 0, if m <= 10 then 10 else if m <= 20 then 20 - m
                                                                    else 0, if m <= 20 then 10 else 30 - m])
  }

  lemma StepReachable(size: nat, s: Room, x: Step)
    requires Reachable(size, s) && Enabled(s, x) && ((x.New? || x.Again?) ==> Accepts(size, s.n))
    ensures Reachable(size, Next(s, x))
  {
    var steps :| Run(size, Room(0, []), steps, s);
    RunAndStep(size, Room(0, []), steps, s, x);
  }

  lemma ThreeBegin(size: nat)
    ensures Reachable(size, Room(0, [10, 10, 10]))
  {
    var none: seq<nat> := [];
    assert Run(size, Room(0, none), [], Room(0, none));
    StepReachable(size, Room(0, none), Begin);
    assert none + [MAXOPBLOCKS] == [10] && [10] + [MAXOPBLOCKS] == [10, 10] && [10, 10] + [MAXOPBLOCKS] == [10, 10, 10];
    StepReachable(size, Room(0, [10]), Begin);
    StepReachable(size, Room(0, [10, 10]), Begin);
  }

  lemma {:induction false} FilledIsReachable(size: nat, m: nat)
    requires m <= LOGSIZE && m < size
    ensures Reachable(size, Filled(m))
  {
    if m == 0 {
      ThreeBegin(size);
    } else {
      FilledIsReachable(size, m - 1);
      var x := New((m - 1) / 10);
      assert Next(Filled(m - 1), x) == Filled(m);
      StepReachable(size, Filled(m - 1), x);
    }
  }

  /** No new block within an operation's budget is ever refused, exactly when the log
      area has a block for each of the LOGSIZE entries besides its header. */
  lemma NewAccepted(size: nat)
    requires size > 0
    ensures (forall s, i :: Reachable(size, s) && Enabled(s, New(i)) ==> Accepts(size, s.n)) <==> size - 1 >= LOGSIZE
  {
    if size - 1 >= LOGSIZE {
      forall s, i | Reachable(size, s) && Enabled(s, New(i))
        ensures Accepts(size, s.n)
      {
        var steps :| Run(size, Room(0, []), steps, s);
        RunFits(size, Room(0, []), steps, s);
        SumAt(s.budgets, i, 0);
      }
    } else {
      FilledIsReachable(size, size - 1);
      assert Enabled(Filled(size - 1), New(2)) && !Accepts(size, Filled(size - 1).n);
    }
  }

  /** mkfs sets nlog to LOGSIZE, one short of that. */
  lemma ShippedLogRefuses()
    ensures exists s, i :: Reachable(LOGSIZE, s) && Enabled(s, New(i)) && !Accepts(LOGSIZE, s.n)
  {
    FilledIsReachable(LOGSIZE, LOGSIZE - 1);
    assert Enabled(Filled(LOGSIZE - 1), New(2));
  }

  /** A block that is already logged needs no room, and is refused all the same once
      the log is full; no size of the log area prevents that. */
  lemma AgainRefused(size: nat)
    requires size > 1
    ensures exists s, i :: Reachable(size, s) && Enabled(s, Again(i)) && !Accepts(size, s.n)
  {
    var m := if size - 1 < LOGSIZE then size - 1 else LOGSIZE;
    FilledIsReachable(size, m);
    assert Enabled(Filled(m), Again(0)) && !Accepts(size, Filled(m).n);
  }

  /** The log never holds more blocks than its area. */
  lemma {:induction false} RunInArea(size: nat, s: Room, steps: seq<Step>, s1: Room)
    requires Run(size, s, steps, s1) && s.n < size
    ensures s1.n < size
    decreases |steps|
  {
    if steps != [] {
      RunInArea(size, Next(s, steps[0]), steps[1..], s1);
    }
  }

  /** All LOGSIZE entries of the header can be taken exactly when the area has room
      for them. */
  lemma FillsUp(size: nat)
    requires size > 0
    ensures (exists s :: Reachable(size, s) && s.n >= LOGSIZE) <==> size - 1 >= LOGSIZE
  {
    if size - 1 >= LOGSIZE {
      FilledIsReachable(size, LOGSIZE);
      assert Filled(LOGSIZE).n >= LOGSIZE;
    } else {
      forall s | Reachable(size, s)
        ensures s.n < LOGSIZE
      {
        var steps :| Run(size, Room(0, []), steps, s);
        RunInArea(size, Room(0, []), steps, s);
      }
    }
  }
}
