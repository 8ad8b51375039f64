/** begin_op and end_op (kernel/log.c) as a transition system over log.outstanding,
    log.committing and log.lh.n. Each process runs its own code; a step is one access
    under log.lock, or one of sleep and wakeup as SleepWakeup has them. */
module LogQueue {
  import opened Basics
  import opened SleepWakeup
  import L = LogSpace

  /** What log.lock protects. */
  datatype Log = Log(n: nat, outstanding: nat, committing: bool)

  /** begin_op's test. */
  predicate CanBegin(d: Log) {
    !d.committing && d.n + (d.outstanding + 1) * L.MAXOPBLOCKS <= L.LOGSIZE
  }

  /** The channel &log. */
  const LOG: nat := 0

  ghost function BeginCond(): Cond<Log> {
    (d: Log, c: nat) => c == LOG && CanBegin(d)
  }

  /** Where a process is. With log.lock held: Trying, Begun, Logging, Logged, Ending to
      EndDone, Closing to ClosedDone. */
  datatype Code =
    | User                     // no operation
    | Trying                   // begin_op, at its test
    | Begun                    // outstanding incremented
    | Sleeping                 // in sleep(&log, &log.lock)
    | InOp                     // between begin_op and end_op
    | Logging                  // log_write
    | Logged
    | Ending                   // end_op, before its changes
    | EndChanged               // not the last operation
    | EndWaking                // in wakeup(&log)
    | EndDone(commit: bool)    // before release
    | Committing               // in commit(), without the lock
    | Closing                  // after commit()
    | Closed                   // committing cleared
    | ClosedWaking             // in wakeup(&log)
    | ClosedDone               // before release

  datatype System = System(s: State<Log>, code: seq<Code>)

  /** Process x.t takes step x and goes on with code. */
  datatype Move = Move(x: Step<Log>, code: Code)

  /** The program. commit() empties the header, which nobody reads until committing is
      cleared. */
  ghost predicate Runs(c: System, m: Move)
    requires |c.code| == |c.s.pc| && m.x.t < |c.code|
  {
    var d, t := c.s.d, m.x.t;
    match c.code[t]
    case User => m.x == Acquire(t) && m.code == Trying
    case Trying =>
      if CanBegin(d) then m.x == Change(t, d.(outstanding := d.outstanding + 1)) && m.code == Begun
      else m.x == SleepAcquire(t, LOG) && m.code == Sleeping
    case Begun => m.x == Release(t) && m.code == InOp
    case Sleeping =>
      || ((m.x == SleepRelease(t) || m.x == SleepSet(t) || m.x == Kill(t)) && m.code == Sleeping)
      || (m.x == Acquire(t) && m.code == Trying)
    case InOp => m.x == Acquire(t) && (m.code == Logging || m.code == Ending)
    case Logging => (m.x == Change(t, d) || m.x == Change(t, d.(n := d.n + 1))) && m.code == Logged
    case Logged => m.x == Release(t) && m.code == InOp
    case Ending =>
      && d.outstanding > 0
      && if d.outstanding == 1 then m.x == Change(t, Log(d.n, 0, true)) && m.code == EndDone(true)
         else m.x == Change(t, d.(outstanding := d.outstanding - 1)) && m.code == EndChanged
    case EndChanged => m.x == StartWakeup(t, LOG) && m.code == EndWaking
    case EndWaking => (m.x == WakeOne(t) && m.code == EndWaking) || (m.x == EndWakeup(t) && m.code == EndDone(false))
    case EndDone(commit) => m.x == Release(t) && m.code == if commit then Committing else User
    case Committing => m.x == Acquire(t) && m.code == Closing
    case Closing => m.x == Change(t, Log(0, d.outstanding, false)) && m.code == Closed
    case Closed => m.x == StartWakeup(t, LOG) && m.code == ClosedWaking
    case ClosedWaking => (m.x == WakeOne(t) && m.code == ClosedWaking) || (m.x == EndWakeup(t) && m.code == ClosedDone)
    case ClosedDone => m.x == Release(t) && m.code == User
  }

  ghost predicate Can(c: System, m: Move) {
    |c.code| == |c.s.pc| && m.x.t < |c.code| && Runs(c, m) && Possible(c.s, m.x)
  }

  function After(c: System, m: Move): System
    requires |c.code| == |c.s.pc| && m.x.t < |c.code| && Possible(c.s, m.x)
  {
    System(Next(c.s, m.x), c.code[m.x.t := m.code])
  }

  // ----- the invariant -----

  /** In an operation that outstanding counts. */
  predicate InTransaction(code: Code) {
    code.Begun? || code.InOp? || code.Logging? || code.Logged? || code.Ending?
  }

  /** Between the last end_op and the end of its commit. */
  predicate InCommit(code: Code) {
    code == EndDone(true) || code.Committing? || code.Closing?
  }

  ghost function Count(code: seq<Code>): nat {
    if code == [] then 0 else Count(code[..|code| - 1]) + if InTransaction(code[|code| - 1]) then 1 else 0
  }

  lemma {:induction false} CountSet(code: seq<Code>, t: nat, x: Code)
    requires t < |code|
    ensures Count(code[t := x]) + (if InTransaction(code[t]) then 1 else 0)
            == Count(code) + if InTransaction(x) then 1 else 0
  {
    var n := |code| - 1;
    if t < n {
      CountSet(code[..n], t, x);
      assert code[t := x][..n] == code[..n][t := x];
    } else {
      assert code[t := x][..n] == code[..n];
    }
  }

  lemma {:induction false} CountSome(code: seq<Code>, t: nat)
    requires t < |code| && InTransaction(code[t])
    ensures Count(code) > 0
  {
    if t < |code| - 1 { CountSome(code[..|code| - 1], t); }
  }

  /** The code says how far the locks are, and what its section has done. */
  ghost predicate Agrees(code: Code, pc: Pc<Log>, d: Log) {
    match code
    case User => pc.Out?
    case InOp => pc.Out?
    case Committing => pc.Out?
    case Sleeping => pc.Awake? || ((pc.Locked? || pc.Going? || pc.Asleep?) && pc.chan == LOG)
    case EndWaking => pc.In? && pc.waking.Some? && pc.waking.value.chan == LOG
    case ClosedWaking => pc.In? && pc.waking.Some? && pc.waking.value.chan == LOG
    case _ => pc.In? && pc.waking.None? && Section(code, pc.start, d, pc.woken)
  }

  ghost predicate Section(code: Code, start: Log, d: Log, woken: set<nat>) {
    match code
    case Begun => d == start.(outstanding := start.outstanding + 1)
    case Logged => d.n >= start.n && d == start.(n := d.n)
    case EndChanged => true
    case EndDone(commit) => commit || LOG in woken
    case Closed => true
    case ClosedDone => LOG in woken
    case _ => d == start
  }

  ghost predicate Counts(c: System) {
    c.s.d.outstanding == Count(c.code) && (c.s.d.committing ==> c.s.d.outstanding == 0)
  }

  /** One commit at a time. */
  ghost predicate Alone(c: System) {
    && (forall t :: 0 <= t < |c.code| && InCommit(c.code[t]) ==> c.s.d.committing)
    && (forall t, u :: 0 <= t < u < |c.code| && InCommit(c.code[t]) ==> !InCommit(c.code[u]))
  }

  ghost predicate Good(c: System) {
    && |c.code| == |c.s.pc| && Mutual(c.s) && Counts(c) && Alone(c)
    && forall t :: 0 <= t < |c.code| ==> Agrees(c.code[t], c.s.pc[t], c.s.d)
  }

  /** Only the process in its section changes the data. */
  lemma OthersAgree(c: System, m: Move, t: nat)
    requires Good(c) && Can(c, m) && t < |c.code| && t != m.x.t
    ensures Agrees(After(c, m).code[t], After(c, m).s.pc[t], After(c, m).s.d)
  {
    OthersPc(c.s, m.x, t);
    assert Agrees(c.code[t], c.s.pc[t], c.s.d) && Agrees(c.code[m.x.t], c.s.pc[m.x.t], c.s.d);
  }

  lemma SelfAgrees(c: System, m: Move)
    requires Good(c) && Can(c, m)
    ensures Agrees(m.code, After(c, m).s.pc[m.x.t], After(c, m).s.d)
  {
    assert Agrees(c.code[m.x.t], c.s.pc[m.x.t], c.s.d);
  }

  lemma CountsKept(c: System, m: Move)
    requires Good(c) && Can(c, m)
    ensures Counts(After(c, m))
  {
    CountSet(c.code, m.x.t, m.code);
    if InTransaction(c.code[m.x.t]) { CountSome(c.code, m.x.t); }
  }

  /** Who begins to commit was the last in an operation. */
  lemma AloneKept(c: System, m: Move)
    requires Good(c) && Can(c, m)
    ensures Alone(After(c, m))
  {
    var t := m.x.t;
    if InTransaction(c.code[t]) { CountSome(c.code, t); }
    assert InCommit(m.code) && !InCommit(c.code[t]) ==> c.code[t].Ending?;
  }

  lemma MoveKeepsGood(c: System, m: Move)
    requires Good(c) && Can(c, m)
    ensures Good(After(c, m))
  {
    MutualKept(c.s, m.x);
    CountsKept(c, m);
    AloneKept(c, m);
    forall t | 0 <= t < |c.code|
      ensures Agrees(After(c, m).code[t], After(c, m).s.pc[t], After(c, m).s.d)
    {
      if t == m.x.t { SelfAgrees(c, m); } else { OthersAgree(c, m, t); }
    }
  }

  /** Every section that ends with room for an operation had it, or has woken the
      sleepers; and begin_op sleeps only without room. */
  lemma MovePays(c: System, m: Move)
    requires Good(c) && Can(c, m)
    ensures Enabled(BeginCond(), c.s, m.x)
  {
    var t := m.x.t;
    assert Agrees(c.code[t], c.s.pc[t], c.s.d);
    if m.x.Release? || m.x.SleepAcquire? {
      var pc, d := c.s.pc[t], c.s.d;
      assert CanBegin(d) ==> LOG in pc.woken || CanBegin(pc.start) by {
        if c.code[t] == EndDone(true) { assert InCommit(c.code[t]); }
      }
    }
  }

  // ----- whole runs -----

  ghost predicate Boot(c: System) {
    |c.code| == |c.s.pc| && Start(c.s) && c.s.d == Log(0, 0, false) && forall t :: 0 <= t < |c.code| ==> c.code[t].User?
  }

  lemma {:induction false} CountNone(code: seq<Code>)
    requires forall t :: 0 <= t < |code| ==> code[t].User?
    ensures Count(code) == 0
  {
    if code != [] { CountNone(code[..|code| - 1]); }
  }

  lemma BootExists(n: nat) returns (c: System)
    ensures Boot(c) && |c.code| == n
  {
    c := System(State(Log(0, 0, false), None, seq(n, _ => Out)), seq(n, _ => User));
  }

  lemma BootGood(c: System)
    requires Boot(c)
    ensures Good(c)
  {
    CountNone(c.code);
  }

  ghost predicate Moves(c: System, moves: seq<Move>, c1: System)
    decreases |moves|
  {
    if moves == [] then c1 == c else Can(c, moves[0]) && Moves(After(c, moves[0]), moves[1..], c1)
  }

  ghost function Steps(moves: seq<Move>): seq<Step<Log>> {
    seq(|moves|, k requires 0 <= k < |moves| => moves[k].x)
  }

  /** Any run keeps the invariant and is a run of sleep and wakeup in which every
      section pays. */
  lemma {:induction false} MovesAreRun(c: System, moves: seq<Move>, c1: System)
    requires Good(c) && Moves(c, moves, c1)
    ensures Good(c1) && Run(BeginCond(), c.s, Steps(moves), c1.s)
    decreases |moves|
  {
    if moves != [] {
      MoveKeepsGood(c, moves[0]);
      MovePays(c, moves[0]);
      MovesAreRun(After(c, moves[0]), moves[1..], c1);
      assert Steps(moves)[1..] == Steps(moves[1..]);
    }
  }

  /** In every run of begin_op, log_write, end_op and commit: while log.lock is free, a
      process that is asleep in begin_op, or bound to be, could not begin. */
  lemma NoBeginSleepsPastRoom(c0: System, moves: seq<Move>, c: System, t: nat)
    requires Boot(c0) && Moves(c0, moves, c) && c.s.lk.None? && t < |c.s.pc|
    requires c.s.pc[t].Going? || c.s.pc[t].Asleep?
    ensures c.s.d.committing || c.s.d.n + (c.s.d.outstanding + 1) * 10 > 30
  {
    BootGood(c0);
    MovesAreRun(c0, moves, c);
    assert Agrees(c.code[t], c.s.pc[t], c.s.d);
    NoLostWakeup(BeginCond(), c0.s, Steps(moves), c.s, t, LOG);
    assert BeginCond()(c.s.d, LOG) == CanBegin(c.s.d);
  }

  /** A process that is at begin_op's test goes to sleep exactly without room, and
      otherwise opens an operation. */
  lemma BeginsExactlyWithRoom(c: System, m: Move)
    requires Can(c, m) && c.code[m.x.t].Trying?
    ensures var d, d1 := c.s.d, After(c, m).s.d;
            var room := !d.committing && d.n + (d.outstanding + 1) * 10 <= 30;
            && (m.x.SleepAcquire? <==> !room) && (m.code == Sleeping <==> !room)
            && d1 == d.(outstanding := d.outstanding + if room then 1 else 0)
  {
  }

  /** In every run it can take that step. */
  lemma BeginsWithRoom(c0: System, moves: seq<Move>, c: System, t: nat)
    requires Boot(c0) && Moves(c0, moves, c) && t < |c.code| && c.code[t].Trying?
    requires !c.s.d.committing && c.s.d.n + (c.s.d.outstanding + 1) * 10 <= 30
    ensures var m := Move(Change(t, c.s.d.(outstanding := c.s.d.outstanding + 1)), Begun);
            Can(c, m) && InTransaction(After(c, m).code[t])
  {
    BootGood(c0);
    MovesAreRun(c0, moves, c);
    assert Agrees(c.code[t], c.s.pc[t], c.s.d);
  }

  /** In every run end_op finds its operation counted and no commit under way, so that
      it does not panic, and outstanding is the number of operations. */
  lemma EndFindsNoCommit(c0: System, moves: seq<Move>, c: System, t: nat)
    requires Boot(c0) && Moves(c0, moves, c) && t < |c.code| && c.code[t].Ending?
    ensures c.s.d.outstanding == Count(c.code) > 0 && !c.s.d.committing
  {
    BootGood(c0);
    MovesAreRun(c0, moves, c);
    CountSome(c.code, t);
  }

  /** In every run at most one process commits, and no operation is open then. */
  lemma OneCommit(c0: System, moves: seq<Move>, c: System, t: nat, u: nat)
    requires Boot(c0) && Moves(c0, moves, c) && t < |c.code| && u < |c.code| && t != u && InCommit(c.code[t])
    ensures !InCommit(c.code[u]) && !InTransaction(c.code[u]) && c.s.d.outstanding == 0
  {
    BootGood(c0);
    MovesAreRun(c0, moves, c);
    if InTransaction(c.code[u]) { CountSome(c.code, u); }
  }
}
