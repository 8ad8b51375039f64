/** fork, exit and wait (kernel/proc.c) as a transition system over the process
    table. Each process runs its own code; a step is one access to the table, and
    sleep, wakeup and wait_lock are those of SleepWakeup. */
module ProcessTable {
  import opened Basics
  import opened SleepWakeup

  /** What wait_lock protects: each process's parent, and who is a ZOMBIE. */
  datatype Table = Table(parent: seq<Option<nat>>, zombie: seq<bool>)

  predicate IsZombieOf(d: Table, k: nat, p: nat) {
    k < |d.parent| && k < |d.zombie| && d.parent[k] == Some(p) && d.zombie[k]
  }

  /** What a parent p waits for, on channel p. */
  ghost predicate HasZombie(d: Table, p: nat) {
    exists k: nat :: IsZombieOf(d, k, p)
  }

  ghost function WaitCond(): Cond<Table> {
    (d: Table, p: nat) => HasZombie(d, p)
  }

  // ----- the code of a process -----

  datatype Life = Unused | Used | Live | Zombie

  /** Where a process is. With wait_lock held: ForkIn, ForkSet, ExitAt to
      ExitMarked, WaitAt, WaitDone. */
  datatype Code =
    | Nobody                          // no process runs in this slot
    | User                            // outside the code below
    | ForkHas(np: nat)                // allocproc has given slot np
    | ForkIn(np: nat)                 // wait_lock acquired
    | ForkSet(np: nat)                // np->parent set
    | ForkOut(np: nat)                // wait_lock released, np not yet RUNNABLE
    | ExitAt(i: nat)                  // reparent's loop is at slot i
    | ExitMoved(i: nat)               // slot i has been given to init
    | ExitWaking(i: nat)              // in wakeup(initproc)
    | ExitWakingParent                // in wakeup(p->parent)
    | ExitWoken                       // before p->state = ZOMBIE
    | ExitMarked                      // after it
    | ExitGone                        // wait_lock released, p->lock held until sched has switched
    | WaitAt(i: nat, kids: bool)      // wait's scan is at slot i
    | WaitDone                        // before release(&wait_lock) and the return
    | WaitSleeping                    // in sleep(p, &wait_lock)

  datatype Proc = Proc(life: Life, pid: nat, killed: bool, code: Code)

  datatype Event = Exited(pid: nat) | Reaped(pid: nat, parent: nat)

  datatype System = System(s: State<Table>, procs: seq<Proc>, nextpid: nat, trace: seq<Event>)

  /** What a process does to shared data in one step. */
  datatype Action =
    | Skip
    | Sync(x: Step<Table>)            // on wait_lock, in sleep or wakeup, or to a parent
    | Alloc(np: nat)                  // allocproc
    | Drop(np: nat)                   // freeproc when fork fails
    | Start(np: nat)                  // np->state = RUNNABLE
    | Mark                            // p->state = ZOMBIE
    | Reap(k: nat)                    // freeproc in wait
    | Killed                          // kill, by another process

  /** Process t does a and goes on with code. */
  datatype Move = Move(t: nat, a: Action, code: Code)

  predicate Sized(c: System, init: nat) {
    |c.procs| == |c.s.d.parent| == |c.s.d.zombie| == |c.s.pc| && init < |c.procs|
  }

  /** The program: fork, exit and wait. */
  predicate Runs(c: System, init: nat, m: Move)
    requires Sized(c, init) && m.t < |c.procs|
  {
    var d, n, t := c.s.d, |c.procs|, m.t;
    var p := c.procs[t];
    match p.code
    case Nobody => false
    case User =>
      || (m.a.Alloc? && m.a.np < n && c.procs[m.a.np].life.Unused? && m.code == ForkHas(m.a.np))
      || (m.a == Sync(Acquire(t)) && (m.code == WaitAt(0, false) || (m.code == ExitAt(0) && t != init)))
    case ForkHas(np) => (m.a == Drop(np) && m.code == User) || (m.a == Sync(Acquire(t)) && m.code == ForkIn(np))
    case ForkIn(np) => np < n && m.a == Sync(Change(t, d.(parent := d.parent[np := Some(t)]))) && m.code == ForkSet(np)
    case ForkSet(np) => m.a == Sync(Release(t)) && m.code == ForkOut(np)
    case ForkOut(np) => m.a == Start(np) && m.code == User
    case ExitAt(i) =>
      if i >= n then m.a == Sync(StartWakeup(t, Channel(d.parent[t], n))) && m.code == ExitWakingParent
      else if d.parent[i] == Some(t) then
        m.a == Sync(Change(t, d.(parent := d.parent[i := Some(init)]))) && m.code == ExitMoved(i)
      else m.a == Skip && m.code == ExitAt(i + 1)
    case ExitMoved(i) => m.a == Sync(StartWakeup(t, init)) && m.code == ExitWaking(i)
    case ExitWaking(i) =>
      || (m.a == Sync(WakeOne(t)) && m.code == p.code)
      || (m.a == Sync(EndWakeup(t)) && m.code == ExitAt(i + 1))
    case ExitWakingParent =>
      || (m.a == Sync(WakeOne(t)) && m.code == p.code)
      || (m.a == Sync(EndWakeup(t)) && m.code == ExitWoken)
    case ExitWoken => m.a == Mark && m.code == ExitMarked
    case ExitMarked => m.a == Sync(Release(t)) && m.code == ExitGone
    case ExitGone => m.a == Skip && m.code == Nobody
    case WaitAt(i, kids) =>
      if i >= n then
        if !kids || p.killed then m.a == Skip && m.code == WaitDone
        else m.a == Sync(SleepAcquire(t, t)) && m.code == WaitSleeping
      else if d.parent[i] != Some(t) then m.a == Skip && m.code == WaitAt(i + 1, kids)
      else !c.procs[i].code.ExitGone?                        // acquire(&np->lock)
           && if d.zombie[i] then (m.a == Reap(i) || m.a == Skip) && m.code == WaitDone   // copyout may fail
              else m.a == Skip && m.code == WaitAt(i + 1, true)
    case WaitDone => m.a == Sync(Release(t)) && m.code == User
    case WaitSleeping =>
      || ((m.a == Sync(SleepRelease(t)) || m.a == Sync(SleepSet(t))) && m.code == p.code)
      || (m.a == Sync(Acquire(t)) && m.code == WaitAt(0, false))
  }

  /** The channel of a parent; a null parent is a channel of its own. */
  function Channel(parent: Option<nat>, none: nat): nat {
    if parent.Some? then parent.value else none
  }

  /** The step of sleep, wakeup and wait_lock in an action, if any. */
  function StepOf(c: System, m: Move): Option<Step<Table>>
    requires m.t < |c.procs| == |c.s.d.parent| == |c.s.d.zombie| == |c.s.pc|
  {
    var d := c.s.d;
    match m.a
    case Sync(x) => Some(x)
    case Mark => Some(Change(m.t, d.(zombie := d.zombie[m.t := true])))
    case Reap(k) => if k < |d.parent| then Some(Change(m.t, Table(d.parent[k := None], d.zombie[k := false]))) else None
    case Killed => if c.s.pc[m.t].Asleep? then Some(Kill(m.t)) else None
    case _ => None
  }

  /** The move can be made; folded, apart from the invariant below, except where a
      proof mentions Unfold of a negative number. */
  ghost predicate Can(c: System, init: nat, m: Move) {
    && Sized(c, init) && m.t < |c.procs|
    && forall k {:trigger Unfold(k)} :: k < 0 ==>
      && (Runs(c, init, m) || (m.a.Killed? && m.code == c.procs[m.t].code && !c.procs[m.t].life.Unused?))
      && (StepOf(c, m).Some? ==> Possible(c.s, StepOf(c, m).value))
  }

  /** freeproc */
  function Blank(): Proc {
    Proc(Unused, 0, false, Nobody)
  }

  function ProcsAfter(procs: seq<Proc>, nextpid: nat, m: Move): (r: seq<Proc>)
    requires m.t < |procs|
    ensures |r| == |procs|
  {
    var next := procs[m.t := procs[m.t].(code := m.code)];
    match m.a
    case Alloc(np) => if np < |next| then next[np := Proc(Used, nextpid, false, Nobody)] else next
    case Drop(np) => if np < |next| then next[np := Blank()] else next
    case Start(np) => if np < |next| then next[np := next[np].(life := Live, code := User)] else next
    case Mark => next[m.t := next[m.t].(life := Zombie)]
    case Reap(k) => if k < |next| then next[k := Blank()] else next
    case Killed => next[m.t := next[m.t].(killed := true)]
    case _ => next
  }

  function TraceAfter(c: System, m: Move): seq<Event>
    requires m.t < |c.procs|
  {
    match m.a
    case Mark => c.trace + [Exited(c.procs[m.t].pid)]
    case Reap(k) => if k < |c.procs| then c.trace + [Reaped(c.procs[k].pid, c.procs[m.t].pid)] else c.trace
    case _ => c.trace
  }

  function SyncAfter(c: System, m: Move): State<Table>
    requires m.t < |c.procs| == |c.s.d.parent| == |c.s.d.zombie| == |c.s.pc|
  {
    var x := StepOf(c, m);
    if x.Some? && Possible(c.s, x.value) then Next(c.s, x.value) else c.s
  }

  function After(c: System, m: Move): System
    requires m.t < |c.procs| == |c.s.d.parent| == |c.s.d.zombie| == |c.s.pc|
  {
    System(SyncAfter(c, m), ProcsAfter(c.procs, c.nextpid, m), if m.a.Alloc? then c.nextpid + 1
                                                               else c.nextpid, TraceAfter(c, m))
  }

  // ----- the invariant -----

  /** The code says how far sleep, wakeup and wait_lock are. */
  ghost predicate Agrees(c: System, init: nat, t: nat)
    requires Sized(c, init) && t < |c.procs|
  {
    var pc := c.s.pc[t];
    match c.procs[t].code
    case Nobody => pc.Out?
    case User => pc.Out?
    case ForkHas(_) => pc.Out?
    case ForkOut(_) => pc.Out?
    case ExitGone => pc.Out?
    case ExitWaking(_) => pc.In? && pc.waking.Some? && pc.waking.value.chan == init
    case ExitWakingParent => pc.In? && pc.waking.Some? && Some(pc.waking.value.chan) == c.s.d.parent[t]
    case WaitSleeping => pc.Awake? || ((pc.Locked? || pc.Going? || pc.Asleep?) && pc.chan == t)
    case _ => pc.In? && pc.waking.None?
  }

  /** k's parent is alive. */
  ghost predicate HasParent(c: System, init: nat, k: nat)
    requires Sized(c, init) && k < |c.procs|
  {
    var parent := c.s.d.parent[k];
    parent.Some? && parent.value < |c.procs| && parent.value != k && c.procs[parent.value].life.Live?
  }

  /** The code has linked slot k and not yet started it. */
  predicate Forking(code: Code, k: nat) {
    code == ForkSet(k) || code == ForkOut(k)
  }

  /** A slot in each stage of its life; init lives for ever. */
  ghost predicate Slot(c: System, init: nat, k: nat)
    requires Sized(c, init) && k < |c.procs|
  {
    var p, parent, zombie := c.procs[k], c.s.d.parent[k], c.s.d.zombie[k];
    && (k == init ==> p.life.Live? && parent.None?)
    && zombie == p.life.Zombie?
    && match p.life
       case Unused => p.code.Nobody? && parent.None?
       case Used => p.code.Nobody?
       && (parent.Some? ==> parent.value < |c.procs| && Forking(c.procs[parent.value].code, k))
       case Live => !p.code.Nobody? && !p.code.ExitMarked? && !p.code.ExitGone? && (k != init ==> HasParent(c, init, k))
       case Zombie => (p.code.Nobody? || p.code.ExitMarked? || p.code.ExitGone?) && HasParent(c, init, k)
  }

  /** The slot that a fork is making. */
  function Making(code: Code): Option<nat> {
    if code.ForkHas? || code.ForkIn? || code.ForkSet? || code.ForkOut? then Some(code.np) else None
  }

  /** p's children below slot i have been given to init. */
  ghost predicate Reparented(start: Table, d: Table, p: nat, init: nat, i: nat) {
    && |start.parent| == |d.parent| && d.zombie == start.zombie
    && forall k :: 0 <= k < |d.parent| ==>
                     d.parent[k] == if k < i && start.parent[k] == Some(p) then Some(init) else start.parent[k]
  }

  /** The table after fork's, exit's and a reaping wait's section. */
  function ForkTable(d: Table, p: nat, np: nat): Table
    requires np < |d.parent|
  {
    d.(parent := d.parent[np := Some(p)])
  }

  ghost predicate IsExitTable(d: Table, d1: Table, p: nat, init: nat) {
    p < |d.zombie| && d1.zombie == d.zombie[p := true] && Reparented(d, d1.(zombie := d.zombie), p, init, |d.parent|)
  }

  function ReapTable(d: Table, k: nat): Table
    requires k < |d.parent| && k < |d.zombie|
  {
    Table(d.parent[k := None], d.zombie[k := false])
  }

  /** p's first zombie child. */
  ghost predicate FirstZombie(d: Table, k: nat, p: nat) {
    IsZombieOf(d, k, p) && forall j: nat :: j < k ==> !IsZombieOf(d, j, p)
  }

  ghost predicate KidBelow(d: Table, p: nat, i: nat) {
    exists k :: 0 <= k < i && k < |d.parent| && d.parent[k] == Some(p)
  }

  /** What t has done in its section, since the table was pc.start. */
  ghost predicate Done(d: Table, pc: Pc<Table>, code: Code, init: nat, t: nat) {
    var n := |d.parent|;
    match code
    case ForkIn(_) => pc.In? && d == pc.start
    case ForkSet(np) => pc.In? && np < |pc.start.parent| && d == ForkTable(pc.start, t, np)
    case ExitAt(i) => t != init && i <= n && pc.In? && Reparented(pc.start, d, t, init, i)
    case ExitMoved(i) => t != init && i < n && pc.In? && Reparented(pc.start, d, t, init, i + 1)
    case ExitWaking(i) => t != init && i < n && pc.In? && Reparented(pc.start, d, t, init, i + 1)
    case ExitWakingParent => t != init && pc.In? && Reparented(pc.start, d, t, init, n)
    case ExitWoken => t != init && pc.In? && Reparented(pc.start, d, t, init, n)
                      && t < n && d.parent[t].Some? && d.parent[t].value in pc.woken
    case ExitMarked => t != init && pc.In? && IsExitTable(pc.start, d, t, init)
    case WaitAt(i, kids) =>
      i <= n && pc.In? && d == pc.start && (forall k: nat :: k < i ==> !IsZombieOf(d, k, t))
      && (kids <==> KidBelow(d, t, i))
    case WaitDone => pc.In? && (d == pc.start || exists k :: ReapedFirst(pc.start, d, k, t))
    case _ => true
  }

  ghost predicate ReapedFirst(start: Table, d: Table, k: nat, p: nat) {
    FirstZombie(start, k, p) && d == ReapTable(start, k)
  }

  /** The slot that t's fork is making. */
  ghost predicate Made(c: System, init: nat, t: nat)
    requires Sized(c, init) && t < |c.procs|
  {
    var code := c.procs[t].code;
    Making(code).Some? ==>
      && code.np < |c.procs| && c.procs[code.np].life.Used?
      && c.s.d.parent[code.np] == if code.ForkHas? || code.ForkIn? then None else Some(t)
  }

  ghost predicate Work(c: System, init: nat, t: nat)
    requires Sized(c, init) && t < |c.procs|
  {
    Made(c, init, t) && Done(c.s.d, c.s.pc[t], c.procs[t].code, init, t)
  }

  /** Two forks never make the same slot. */
  ghost predicate Apart(c: System) {
    forall t, u :: 0 <= t < |c.procs| && 0 <= u < |c.procs| && t != u && Making(c.procs[t].code).Some? ==>
                     Making(c.procs[u].code) != Making(c.procs[t].code)
  }

  /** A zombie that its parent did not have before the section: the parent has
      been woken or is about to be. */
  ghost predicate Settles(d: Table, start: Table, woken: set<nat>, waking: Option<Waking>, code: Code, init: nat,
                          k: nat) {
    k < |d.zombie| && k < |d.parent| && d.zombie[k] && d.parent[k].Some? ==>
      var p := d.parent[k].value;
      || IsZombieOf(start, k, p) || p in woken
      || (waking.Some? && waking.value.chan == p) || (code.ExitMoved? && p == init)
  }

  ghost predicate Owing(c: System, init: nat)
    requires Sized(c, init)
  {
    forall t :: 0 <= t < |c.procs| && c.s.pc[t].In? ==> SettlesAll(c.s.d, c.s.pc[t], c.procs[t].code, init)
  }

  ghost predicate SettlesAll(d: Table, pc: Pc<Table>, code: Code, init: nat)
    requires pc.In?
  {
    forall k: nat :: Settles(d, pc.start, pc.woken, pc.waking, code, init, k)
  }

  ghost predicate Pids(c: System) {
    && (forall k :: 0 <= k < |c.procs| && !c.procs[k].life.Unused? ==> c.procs[k].pid < c.nextpid)
    && (forall j, k :: 0 <= j < k < |c.procs| && !c.procs[j].life.Unused? && !c.procs[k].life.Unused? ==>
                         c.procs[j].pid != c.procs[k].pid)
  }

  /** The invariant; folded except where a proof mentions Unfold. */
  ghost predicate Good(c: System, init: nat) {
    && Sized(c, init)
    && forall k {:trigger Unfold(k)} :: k >= 0 ==>
      && Mutual(c.s)
      && (forall t :: 0 <= t < |c.procs| ==> Agrees(c, init, t) && Slot(c, init, t) && Work(c, init, t))
      && Apart(c) && Owing(c, init) && Pids(c)
  }

  // ----- every move keeps it -----

  lemma SeeAgrees(c: System, init: nat, t: nat)
    requires Good(c, init) && t < |c.procs|
    ensures Agrees(c, init, t) && (c.s.pc[t].In? || c.s.pc[t].Locked? <==> c.s.lk == Some(t))
  {
    assert Unfold(0);
  }

  lemma SeeSlot(c: System, init: nat, k: nat)
    requires Good(c, init) && k < |c.procs|
    ensures Slot(c, init, k)
  {
    assert Unfold(0);
  }

  lemma SeeWork(c: System, init: nat, t: nat)
    requires Good(c, init) && t < |c.procs|
    ensures Work(c, init, t)
  {
    assert Unfold(0);
  }

  /** The slot besides its own that a process works on. */
  function Other(m: Move): nat {
    match m.a
    case Alloc(np) => np
    case Drop(np) => np
    case Start(np) => np
    case Reap(k) => k
    case _ => m.t
  }

  /** The code at each action, and the actions at some code. */
  lemma ActionCode(c: System, init: nat, m: Move)
    requires Can(c, init, m)
    ensures var code, n := c.procs[m.t].code, |c.procs|;
            && match m.a
               case Alloc(np) => code.User? && np < n && c.procs[np].life.Unused? && m.code == ForkHas(np)
               case Drop(np) => code == ForkHas(np) && m.code.User?
               case Start(np) => code == ForkOut(np) && m.code.User?
               case Mark => code.ExitWoken? && m.code.ExitMarked?
               case Reap(k) => code.WaitAt? && code.i == k < n && IsZombieOf(c.s.d, k, m.t)
               && !c.procs[k].code.ExitGone? && m.code.WaitDone?
               case Killed => m.code == code && !c.procs[m.t].life.Unused?
               case Sync(x) => x.t == m.t && Possible(c.s, x)
               case Skip => true
  {
    assert Unfold(-1);
  }

  lemma OtherIn(c: System, init: nat, m: Move)
    requires Good(c, init) && Can(c, init, m)
    ensures Other(m) < |c.procs| && (Other(m) != m.t ==> c.procs[Other(m)].code.Nobody?)
    ensures m.a.Drop? || m.a.Start? ==> c.procs[Other(m)].life.Used?
  {
    ActionCode(c, init, m);
    SeeWork(c, init, m.t);
    if Other(m) < |c.procs| { SeeSlot(c, init, Other(m)); }
    if m.a.Reap? { SeeAgrees(c, init, m.t); SeeAgrees(c, init, m.a.k); }
  }

  lemma OthersCode(c: System, init: nat, m: Move, t: nat)
    requires Good(c, init) && Can(c, init, m) && t < |c.procs| && t != m.t
    ensures After(c, m).procs[t] == c.procs[t] || (c.procs[t].code.Nobody? && t == Other(m))
  {
    OtherIn(c, init, m);
  }

  predicate InReparent(code: Code) {
    code.ExitAt? || code.ExitMoved? || code.ExitWaking?
  }

  predicate InExit(code: Code) {
    code.ExitWakingParent? || code.ExitWoken? || code.ExitMarked? || code.ExitGone?
  }

  predicate InWait(code: Code) {
    code.WaitAt? || code.WaitDone? || code.WaitSleeping?
  }

  predicate InFork(code: Code) {
    !InReparent(code) && !InExit(code) && !InWait(code)
  }

  /** What a move does to the table. */
  lemma TableAfter(c: System, init: nat, m: Move, k: nat)
    requires Good(c, init) && Can(c, init, m) && k < |c.procs|
    ensures var d, d1, code := c.s.d, After(c, m).s.d, c.procs[m.t].code;
            && |d1.parent| == |d1.zombie| == |c.procs|
            && d1.zombie[k] == (if m.a.Mark? && k == m.t then true else if m.a == Reap(k) then false else d.zombie[k])
            && d1.parent[k] == (if m.a == Reap(k) then None
                                else if code == ForkIn(k) && !m.a.Killed? then Some(m.t)
                                else if code == ExitAt(k) && d.parent[k] == Some(m.t) && !m.a.Killed? then Some(init)
                                else d.parent[k])
  {
    assert Unfold(-1);
  }

  /** ... which it does with wait_lock held. */
  lemma TableHeld(c: System, init: nat, m: Move)
    requires Good(c, init) && Can(c, init, m)
    ensures Sized(After(c, m), init) && (After(c, m).s.d == c.s.d || c.s.lk == Some(m.t))
  {
    SeeAgrees(c, init, m.t);
    assert Unfold(-1);
  }

  // ----- Agrees -----

  lemma AgreesOther(c: System, init: nat, m: Move, t: nat)
    requires Good(c, init) && Can(c, init, m) && t < |c.procs| && t != m.t
    ensures Sized(After(c, m), init) && Agrees(After(c, m), init, t)
  {
    OthersCode(c, init, m, t);
    if StepOf(c, m).Some? && Possible(c.s, StepOf(c, m).value) {
      ActionCode(c, init, m);
      OthersPc(c.s, StepOf(c, m).value, t);
    }
    TableHeld(c, init, m);
    SeeAgrees(c, init, m.t);
    SeeAgrees(c, init, t);
  }

  lemma AgreesReparent(c: System, init: nat, m: Move)
    requires Good(c, init) && Can(c, init, m) && !m.a.Killed? && InReparent(c.procs[m.t].code)
    ensures Sized(After(c, m), init) && Agrees(After(c, m), init, m.t)
  {
    SeeAgrees(c, init, m.t);
    SeeSlot(c, init, m.t);
    SeeWork(c, init, m.t);
    TableHeld(c, init, m);
    assert Unfold(-1);
  }

  lemma AgreesExit(c: System, init: nat, m: Move)
    requires Good(c, init) && Can(c, init, m) && !m.a.Killed? && InExit(c.procs[m.t].code)
    ensures Sized(After(c, m), init) && Agrees(After(c, m), init, m.t)
  {
    SeeAgrees(c, init, m.t);
    SeeSlot(c, init, m.t);
    SeeWork(c, init, m.t);
    TableHeld(c, init, m);
    assert Unfold(-1);
  }

  lemma AgreesScan(c: System, init: nat, m: Move)
    requires Good(c, init) && Can(c, init, m) && !m.a.Killed? && c.procs[m.t].code.WaitAt?
    ensures Sized(After(c, m), init) && Agrees(After(c, m), init, m.t)
  {
    SeeAgrees(c, init, m.t);
    SeeSlot(c, init, m.t);
    OtherIn(c, init, m);
    TableHeld(c, init, m);
    assert Unfold(-1);
  }

  lemma AgreesWait(c: System, init: nat, m: Move)
    requires Good(c, init) && Can(c, init, m) && !m.a.Killed?
    requires (c.procs[m.t].code.WaitDone? || c.procs[m.t].code.WaitSleeping?)
    ensures Sized(After(c, m), init) && Agrees(After(c, m), init, m.t)
  {
    SeeAgrees(c, init, m.t);
    TableHeld(c, init, m);
    assert Unfold(-1);
  }

  lemma AgreesFork(c: System, init: nat, m: Move)
    requires Good(c, init) && Can(c, init, m) && !m.a.Killed? && InFork(c.procs[m.t].code)
    ensures Sized(After(c, m), init) && Agrees(After(c, m), init, m.t)
  {
    SeeAgrees(c, init, m.t);
    SeeSlot(c, init, m.t);
    OtherIn(c, init, m);
    TableHeld(c, init, m);
    assert Unfold(-1);
  }

  /** kill changes nobody's code. */
  lemma KilledKeeps(c: System, init: nat, m: Move)
    requires Good(c, init) && Can(c, init, m) && m.a.Killed?
    ensures Sized(After(c, m), init) && Agrees(After(c, m), init, m.t) && Work(After(c, m), init, m.t)
  {
    SeeAgrees(c, init, m.t);
    SeeWork(c, init, m.t);
    ActionCode(c, init, m);
  }

  // ----- Slot -----

  /** Only exit ends a life. */
  lemma LiveKept(c: System, init: nat, m: Move, q: nat)
    requires Good(c, init) && Can(c, init, m) && q < |c.procs| && c.procs[q].life.Live? && (m.a.Mark? ==> q != m.t)
    ensures After(c, m).procs[q].life.Live?
  {
    ActionCode(c, init, m);
    SeeSlot(c, init, q);
    OtherIn(c, init, m);
  }

  /** A live parent that stays the parent stays alive: who exits has no children. */
  lemma ParentKept(c: System, init: nat, m: Move, k: nat)
    requires Good(c, init) && Can(c, init, m) && k < |c.procs| && HasParent(c, init, k)
    ensures Sized(After(c, m), init) && (HasParent(After(c, m), init, k) || m.a == Reap(k))
  {
    TableHeld(c, init, m);
    TableAfter(c, init, m, k);
    ActionCode(c, init, m);
    SeeWork(c, init, m.t);
    SeeSlot(c, init, init);
    SeeSlot(c, init, k);
    LiveKept(c, init, m, init);
    if !(m.a.Mark? && c.s.d.parent[k].value == m.t) { LiveKept(c, init, m, c.s.d.parent[k].value); }
  }

  lemma SlotOther(c: System, init: nat, m: Move, k: nat)
    requires Good(c, init) && Can(c, init, m) && k < |c.procs| && k != m.t && k != Other(m)
    ensures Sized(After(c, m), init) && Slot(After(c, m), init, k)
  {
    TableHeld(c, init, m);
    TableAfter(c, init, m, k);
    OthersCode(c, init, m, k);
    SeeSlot(c, init, k);
    if HasParent(c, init, k) { ParentKept(c, init, m, k); }
    if c.procs[k].life.Used? { UsedKept(c, init, m, k); }
    SeeWork(c, init, m.t);
  }

  /** A slot that some fork is making stays so. */
  lemma UsedKept(c: System, init: nat, m: Move, k: nat)
    requires Good(c, init) && Can(c, init, m) && k < |c.procs| && k != m.t && k != Other(m) && c.procs[k].life.Used?
    ensures var parent := After(c, m).s.d.parent;
            |parent| == |c.procs|
            && (parent[k].Some? ==> parent[k].value < |c.procs| && Forking(After(c, m).procs[parent[k].value].code, k))
  {
    TableAfter(c, init, m, k);
    SeeSlot(c, init, k);
    SeeWork(c, init, m.t);
    OtherIn(c, init, m);
    assert Unfold(-1);
    if c.s.d.parent[k].Some? && c.s.d.parent[k].value != m.t {
      OthersCode(c, init, m, c.s.d.parent[k].value);
    }
  }

  /** Code after which a process is no more. */
  predicate Dead(code: Code) {
    code.Nobody? || code.ExitMarked? || code.ExitGone?
  }

  lemma DeadCode(c: System, init: nat, m: Move)
    requires Can(c, init, m)
    ensures if Dead(c.procs[m.t].code) then Dead(m.code) && (m.a.Skip? || m.a.Sync? || m.a.Killed?)
            else Dead(m.code) <==> m.a.Mark?
    ensures c.procs[m.t].code.Nobody? ==> m.code.Nobody? && m.a.Killed?
  {
    assert Unfold(-1);
  }

  lemma SlotSelf(c: System, init: nat, m: Move)
    requires Good(c, init) && Can(c, init, m)
    ensures Sized(After(c, m), init) && Slot(After(c, m), init, m.t)
  {
    TableHeld(c, init, m);
    TableAfter(c, init, m, m.t);
    SeeSlot(c, init, m.t);
    SeeWork(c, init, m.t);
    OtherIn(c, init, m);
    ActionCode(c, init, m);
    DeadCode(c, init, m);
    if HasParent(c, init, m.t) { ParentKept(c, init, m, m.t); }
  }

  lemma SlotMade(c: System, init: nat, m: Move)
    requires Good(c, init) && Can(c, init, m) && Other(m) != m.t
    ensures Sized(After(c, m), init) && Other(m) < |c.procs| && Slot(After(c, m), init, Other(m))
  {
    var o := Other(m);
    OtherIn(c, init, m);
    TableHeld(c, init, m);
    TableAfter(c, init, m, o);
    SeeSlot(c, init, m.t);
    SeeSlot(c, init, o);
    SeeWork(c, init, m.t);
    ActionCode(c, init, m);
  }

  // ----- Work -----

  lemma WorkOther(c: System, init: nat, m: Move, t: nat)
    requires Good(c, init) && Can(c, init, m) && t < |c.procs| && t != m.t
    ensures Sized(After(c, m), init) && Work(After(c, m), init, t)
  {
    TableHeld(c, init, m);
    OthersCode(c, init, m, t);
    SeeAgrees(c, init, t);
    SeeAgrees(c, init, m.t);
    SeeWork(c, init, t);
    if Making(c.procs[t].code).Some? { MakingKept(c, init, m, t, c.procs[t].code.np); }
    if StepOf(c, m).Some? && Possible(c.s, StepOf(c, m).value) {
      ActionCode(c, init, m);
      OthersPc(c.s, StepOf(c, m).value, t);
    }
    var c1 := After(c, m);
    if c.s.pc[t].In? {
      assert c1.s.d == c.s.d && c1.s.pc[t] == c.s.pc[t] && c1.procs[t].code == c.procs[t].code;
    }
  }

  /** The slot that one process makes is left alone by others. */
  lemma MakingKept(c: System, init: nat, m: Move, t: nat, np: nat)
    requires Good(c, init) && Can(c, init, m) && t < |c.procs| && t != m.t && Making(c.procs[t].code) == Some(np)
    ensures np < |c.procs| && Sized(After(c, m), init) && After(c, m).procs[np].life.Used?
    ensures After(c, m).s.d.parent[np] == c.s.d.parent[np]
  {
    SeeWork(c, init, t);
    SeeWork(c, init, m.t);
    SeeSlot(c, init, np);
    SeeSlot(c, init, m.t);
    TableHeld(c, init, m);
    TableAfter(c, init, m, np);
    ActionCode(c, init, m);
    OtherIn(c, init, m);
    MakingApart(c, init, t, m.t);
  }

  lemma MakingApart(c: System, init: nat, t: nat, u: nat)
    requires Good(c, init) && t < |c.procs| && u < |c.procs| && t != u && Making(c.procs[t].code).Some?
    ensures Making(c.procs[u].code) != Making(c.procs[t].code)
  {
    assert Unfold(0);
  }

  lemma MakingCode(c: System, init: nat, m: Move)
    requires Can(c, init, m) && Making(m.code).Some?
    ensures var code := c.procs[m.t].code;
            || m.a == Alloc(m.code.np)
            || (Making(code) == Making(m.code) && !m.a.Alloc? && !m.a.Drop? && !m.a.Start? && !m.a.Reap?
                && if m.code.ForkHas? || m.code.ForkIn? then code.ForkHas? || (code.ForkIn? && m.a.Killed?)
                   else (code.ForkIn? && !m.a.Killed?) || code.ForkSet? || code.ForkOut?)
  {
    assert Unfold(-1);
  }

  lemma MadeSelf(c: System, init: nat, m: Move)
    requires Good(c, init) && Can(c, init, m)
    ensures Sized(After(c, m), init) && Made(After(c, m), init, m.t)
  {
    TableHeld(c, init, m);
    SeeSlot(c, init, m.t);
    SeeWork(c, init, m.t);
    OtherIn(c, init, m);
    SeeSlot(c, init, Other(m));
    ActionCode(c, init, m);
    SelfCode(c, init, m);
    if Making(m.code).Some? {
      MakingCode(c, init, m);
      SeeSlot(c, init, m.code.np);
      TableAfter(c, init, m, m.code.np);
    }
  }

  lemma DoneReparent(c: System, init: nat, m: Move)
    requires Good(c, init) && Can(c, init, m) && !m.a.Killed? && InReparent(c.procs[m.t].code)
    ensures var c1 := After(c, m); Done(c1.s.d, c1.s.pc[m.t], m.code, init, m.t)
  {
    SeeAgrees(c, init, m.t);
    SeeWork(c, init, m.t);
    assert Unfold(-1);
  }

  lemma DoneExit(c: System, init: nat, m: Move)
    requires Good(c, init) && Can(c, init, m) && !m.a.Killed? && InExit(c.procs[m.t].code)
    ensures var c1 := After(c, m); Done(c1.s.d, c1.s.pc[m.t], m.code, init, m.t)
  {
    SeeAgrees(c, init, m.t);
    SeeWork(c, init, m.t);
    assert Unfold(-1);
  }

  lemma DoneFork(c: System, init: nat, m: Move)
    requires Good(c, init) && Can(c, init, m) && !m.a.Killed? && InFork(c.procs[m.t].code)
    ensures var c1 := After(c, m); Done(c1.s.d, c1.s.pc[m.t], m.code, init, m.t)
  {
    SeeAgrees(c, init, m.t);
    SeeWork(c, init, m.t);
    assert Unfold(-1);
  }

  lemma DoneWait(c: System, init: nat, m: Move)
    requires Good(c, init) && Can(c, init, m) && !m.a.Killed?
    requires (c.procs[m.t].code.WaitDone? || c.procs[m.t].code.WaitSleeping?)
    ensures var c1 := After(c, m); Done(c1.s.d, c1.s.pc[m.t], m.code, init, m.t)
  {
    assert Unfold(-1);
  }

  lemma DoneScan(c: System, init: nat, m: Move)
    requires Good(c, init) && Can(c, init, m) && !m.a.Killed? && c.procs[m.t].code.WaitAt?
    ensures var c1 := After(c, m); Done(c1.s.d, c1.s.pc[m.t], m.code, init, m.t)
  {
    SeeAgrees(c, init, m.t);
    SeeWork(c, init, m.t);
    assert Unfold(-1);
    if m.a.Reap? { assert ReapedFirst(c.s.pc[m.t].start, After(c, m).s.d, m.a.k, m.t); }
    else if m.code.WaitAt? { KidNext(c.s.d, m.t, c.procs[m.t].code.i); }
  }

  lemma KidNext(d: Table, p: nat, i: nat)
    requires i < |d.parent|
    ensures KidBelow(d, p, i + 1) <==> KidBelow(d, p, i) || d.parent[i] == Some(p)
  {
  }

  // ----- Apart, Owing, Pids -----

  lemma ApartKept(c: System, init: nat, m: Move, t: nat, u: nat)
    requires Good(c, init) && Can(c, init, m) && t < |c.procs| && u < |c.procs| && t != u
    requires Making(After(c, m).procs[t].code).Some?
    ensures Making(After(c, m).procs[u].code) != Making(After(c, m).procs[t].code)
  {
    OtherIn(c, init, m);
    ActionCode(c, init, m);
    if t == m.t {
      ApartSelf(c, init, m, u);
    } else if u == m.t {
      if Making(m.code).Some? { ApartSelf(c, init, m, t); }
    } else {
      OthersCode(c, init, m, t);
      OthersCode(c, init, m, u);
      MakingApart(c, init, t, u);
    }
  }

  lemma ApartSelf(c: System, init: nat, m: Move, u: nat)
    requires Good(c, init) && Can(c, init, m) && u < |c.procs| && u != m.t && Making(m.code).Some?
    ensures Making(After(c, m).procs[u].code) != Making(m.code)
  {
    OtherIn(c, init, m);
    OthersCode(c, init, m, u);
    MakingCode(c, init, m);
    ActionCode(c, init, m);
    SeeWork(c, init, u);
    if Making(c.procs[m.t].code).Some? { MakingApart(c, init, m.t, u); }
  }

  lemma OwingKept(c: System, init: nat, m: Move, t: nat)
    requires Good(c, init) && Can(c, init, m) && t < |c.procs| && Sized(After(c, m), init) && After(c, m).s.pc[t].In?
    ensures SettlesAll(After(c, m).s.d, After(c, m).s.pc[t], After(c, m).procs[t].code, init)
  {
    if t == m.t {
      SelfCode(c, init, m);
      forall k: nat
        ensures var pc := After(c, m).s.pc[t]; Settles(After(c, m).s.d, pc.start, pc.woken, pc.waking, m.code, init, k)
      {
        OwingSelf(c, init, m, k);
      }
    } else {
      OwingOther(c, init, m, t);
    }
  }

  lemma OwingOther(c: System, init: nat, m: Move, t: nat)
    requires Good(c, init) && Can(c, init, m) && t < |c.procs| && t != m.t && Sized(After(c, m), init)
    requires After(c, m).s.pc[t].In?
    ensures SettlesAll(After(c, m).s.d, After(c, m).s.pc[t], After(c, m).procs[t].code, init)
  {
    TableHeld(c, init, m);
    OthersCode(c, init, m, t);
    SeeAgrees(c, init, t);
    SeeAgrees(c, init, m.t);
    if StepOf(c, m).Some? && Possible(c.s, StepOf(c, m).value) {
      ActionCode(c, init, m);
      OthersPc(c.s, StepOf(c, m).value, t);
    }
    SeeSettles(c, init, t);
  }

  lemma SeeSettles(c: System, init: nat, t: nat)
    requires Good(c, init) && t < |c.procs| && c.s.pc[t].In?
    ensures SettlesAll(c.s.d, c.s.pc[t], c.procs[t].code, init)
  {
    assert Unfold(0);
  }

  lemma OwingReparent(c: System, init: nat, m: Move, k: nat)
    requires Good(c, init) && Can(c, init, m) && InReparent(c.procs[m.t].code) && After(c, m).s.pc[m.t].In?
    ensures var c1 := After(c, m); var pc := c1.s.pc[m.t];
            Settles(c1.s.d, pc.start, pc.woken, pc.waking, m.code, init, k)
  {
    SeeAgrees(c, init, m.t);
    if c.s.pc[m.t].In? {
      SeeSettles(c, init, m.t);
      var pc := c.s.pc[m.t];
      assert Settles(c.s.d, pc.start, pc.woken, pc.waking, c.procs[m.t].code, init, k);
    }
    assert Unfold(-1);
  }

  /** p->state = ZOMBIE comes after wakeup(p->parent). */
  lemma OwingMark(c: System, init: nat, m: Move, k: nat)
    requires Good(c, init) && Can(c, init, m) && m.a.Mark? && After(c, m).s.pc[m.t].In?
    ensures var c1 := After(c, m); var pc := c1.s.pc[m.t];
            Settles(c1.s.d, pc.start, pc.woken, pc.waking, m.code, init, k)
  {
    ActionCode(c, init, m);
    SeeAgrees(c, init, m.t);
    SeeWork(c, init, m.t);
    SeeSettles(c, init, m.t);
    var pc := c.s.pc[m.t];
    assert Settles(c.s.d, pc.start, pc.woken, pc.waking, c.procs[m.t].code, init, k);
    if k < |c.procs| { TableAfter(c, init, m, k); }
    assert Unfold(-1);
  }

  lemma OwingExit(c: System, init: nat, m: Move, k: nat)
    requires Good(c, init) && Can(c, init, m) && InExit(c.procs[m.t].code) && !m.a.Mark? && After(c, m).s.pc[m.t].In?
    ensures var c1 := After(c, m); var pc := c1.s.pc[m.t];
            Settles(c1.s.d, pc.start, pc.woken, pc.waking, m.code, init, k)
  {
    SeeAgrees(c, init, m.t);
    if c.s.pc[m.t].In? {
      SeeSettles(c, init, m.t);
      var pc := c.s.pc[m.t];
      assert Settles(c.s.d, pc.start, pc.woken, pc.waking, c.procs[m.t].code, init, k);
    }
    assert Unfold(-1);
  }

  lemma OwingWait(c: System, init: nat, m: Move, k: nat)
    requires Good(c, init) && Can(c, init, m) && InWait(c.procs[m.t].code) && After(c, m).s.pc[m.t].In?
    ensures var c1 := After(c, m); var pc := c1.s.pc[m.t];
            Settles(c1.s.d, pc.start, pc.woken, pc.waking, m.code, init, k)
  {
    SeeAgrees(c, init, m.t);
    if c.s.pc[m.t].In? {
      SeeSettles(c, init, m.t);
      var pc := c.s.pc[m.t];
      assert Settles(c.s.d, pc.start, pc.woken, pc.waking, c.procs[m.t].code, init, k);
    }
    assert Unfold(-1);
  }

  lemma OwingFork(c: System, init: nat, m: Move, k: nat)
    requires Good(c, init) && Can(c, init, m) && InFork(c.procs[m.t].code) && After(c, m).s.pc[m.t].In?
    ensures var c1 := After(c, m); var pc := c1.s.pc[m.t];
            Settles(c1.s.d, pc.start, pc.woken, pc.waking, m.code, init, k)
  {
    SeeAgrees(c, init, m.t);
    SeeWork(c, init, m.t);
    if k < |c.procs| { SeeSlot(c, init, k); }
    if c.s.pc[m.t].In? {
      SeeSettles(c, init, m.t);
      var pc := c.s.pc[m.t];
      assert Settles(c.s.d, pc.start, pc.woken, pc.waking, c.procs[m.t].code, init, k);
    }
    assert Unfold(-1);
  }

  lemma OwingSelf(c: System, init: nat, m: Move, k: nat)
    requires Good(c, init) && Can(c, init, m) && After(c, m).s.pc[m.t].In?
    ensures var c1 := After(c, m); var pc := c1.s.pc[m.t];
            Settles(c1.s.d, pc.start, pc.woken, pc.waking, m.code, init, k)
  {
    var code := c.procs[m.t].code;
    if m.a.Mark? {
      OwingMark(c, init, m, k);
    } else if InReparent(code) {
      OwingReparent(c, init, m, k);
    } else if InExit(code) {
      OwingExit(c, init, m, k);
    } else if InWait(code) {
      OwingWait(c, init, m, k);
    } else {
      OwingFork(c, init, m, k);
    }
  }

  lemma PidsKept(c: System, init: nat, m: Move)
    requires Good(c, init) && Can(c, init, m)
    ensures Pids(After(c, m))
  {
    OtherIn(c, init, m);
    ActionCode(c, init, m);
    SeePids(c, init);
    SeeSlot(c, init, m.t);
  }

  lemma SeePids(c: System, init: nat)
    requires Good(c, init)
    ensures Pids(c) && Mutual(c.s)
  {
    assert Unfold(0);
  }

  /** Every move keeps the invariant. */
  lemma MoveKeepsGood(c: System, init: nat, m: Move)
    requires Good(c, init) && Can(c, init, m)
    ensures Good(After(c, m), init)
  {
    var c1 := After(c, m);
    TableHeld(c, init, m);
    SeePids(c, init);
    PidsKept(c, init, m);
    if StepOf(c, m).Some? && Possible(c.s, StepOf(c, m).value) { MutualKept(c.s, StepOf(c, m).value); }
    assert Mutual(c1.s);
    forall t | 0 <= t < |c.procs|
      ensures Agrees(c1, init, t) && Slot(c1, init, t) && Work(c1, init, t)
    {
      AllKept(c, init, m, t);
    }
    forall t, u | 0 <= t < |c.procs| && 0 <= u < |c.procs| && t != u && Making(c1.procs[t].code).Some?
      ensures Making(c1.procs[u].code) != Making(c1.procs[t].code)
    {
      ApartKept(c, init, m, t, u);
    }
    forall t | 0 <= t < |c.procs| && c1.s.pc[t].In?
      ensures SettlesAll(c1.s.d, c1.s.pc[t], c1.procs[t].code, init)
    {
      OwingKept(c, init, m, t);
    }
    assert Apart(c1);
    assert Owing(c1, init);
  }

  lemma SelfCode(c: System, init: nat, m: Move)
    requires Good(c, init) && Can(c, init, m)
    ensures After(c, m).procs[m.t].code == m.code
  {
    OtherIn(c, init, m);
    ActionCode(c, init, m);
    SeeSlot(c, init, m.t);
    SeeWork(c, init, m.t);
  }

  lemma AllKept(c: System, init: nat, m: Move, t: nat)
    requires Good(c, init) && Can(c, init, m) && t < |c.procs|
    ensures Sized(After(c, m), init)
    ensures Agrees(After(c, m), init, t) && Slot(After(c, m), init, t) && Work(After(c, m), init, t)
  {
    TableHeld(c, init, m);
    if t != m.t {
      AgreesOther(c, init, m, t);
      WorkOther(c, init, m, t);
      if t == Other(m) { SlotMade(c, init, m); } else { SlotOther(c, init, m, t); }
    } else {
      SlotSelf(c, init, m);
      if m.a.Killed? {
        KilledKeeps(c, init, m);
      } else {
        SelfCode(c, init, m);
        MadeSelf(c, init, m);
        SelfKept(c, init, m);
      }
    }
  }

  lemma SelfKept(c: System, init: nat, m: Move)
    requires Good(c, init) && Can(c, init, m) && !m.a.Killed?
    ensures Sized(After(c, m), init) && Agrees(After(c, m), init, m.t)
    ensures Done(After(c, m).s.d, After(c, m).s.pc[m.t], m.code, init, m.t)
  {
    var code := c.procs[m.t].code;
    if InReparent(code) {
      AgreesReparent(c, init, m);
      DoneReparent(c, init, m);
    } else if InExit(code) {
      AgreesExit(c, init, m);
      DoneExit(c, init, m);
    } else if InWait(code) {
      if code.WaitAt? {
        AgreesScan(c, init, m);
        DoneScan(c, init, m);
      } else {
        AgreesWait(c, init, m);
        DoneWait(c, init, m);
      }
    } else {
      AgreesFork(c, init, m);
      DoneFork(c, init, m);
    }
  }

  // ----- every section pays -----

  /** Whoever has a zombie child at the end of a section and did not at its start
      has been woken in it. */
  lemma SectionPays(d: Table, pc: Pc<Table>, code: Code, init: nat)
    requires pc.In? && pc.waking.None? && !code.ExitMoved? && SettlesAll(d, pc, code, init)
    ensures Paid(WaitCond(), pc.start, d, pc.woken)
  {
    forall c: nat | WaitCond()(d, c)
      ensures c in pc.woken || WaitCond()(pc.start, c)
    {
      var k: nat :| IsZombieOf(d, k, c);
      assert Settles(d, pc.start, pc.woken, pc.waking, code, init, k);
    }
  }

  /** A move that takes a step of sleep and wakeup takes one that is allowed
      there, with all that its code owes. */
  lemma MovePays(c: System, init: nat, m: Move)
    requires Good(c, init) && Can(c, init, m) && StepOf(c, m).Some?
    ensures Enabled(WaitCond(), c.s, StepOf(c, m).value)
  {
    var x := StepOf(c, m).value;
    assert Possible(c.s, x) by { assert Unfold(-1); }
    if x.Release? || x.SleepAcquire? {
      SyncCode(c, init, m);
      SeeAgrees(c, init, m.t);
      SeeSettles(c, init, m.t);
      SectionPays(c.s.d, c.s.pc[m.t], c.procs[m.t].code, init);
      SeeWork(c, init, m.t);
      assert WaitCond()(c.s.d, m.t) == HasZombie(c.s.d, m.t);
    }
  }

  lemma SyncCode(c: System, init: nat, m: Move)
    requires Can(c, init, m)
    ensures m.a.Sync? ==> m.a.x.t == m.t
    ensures m.a.Sync? && m.a.x.Release? ==> !c.procs[m.t].code.ExitMoved?
    ensures m.a.Sync? && m.a.x.SleepAcquire? ==> c.procs[m.t].code.WaitAt? && c.procs[m.t].code.i >= |c.procs|
                                                 && m.a.x.chan == m.t
  {
    assert Unfold(-1);
  }

  // ----- whole runs -----

  /** userinit: init is the only process. */
  ghost predicate Boot(c: System, init: nat) {
    && Sized(c, init) && c.s.lk.None? && c.trace == [] && c.procs[init] == Proc(Live, 1, false, User) && c.nextpid == 2
    && (forall k :: 0 <= k < |c.procs| ==> c.s.pc[k].Out? && c.s.d.parent[k].None? && !c.s.d.zombie[k])
    && (forall k :: 0 <= k < |c.procs| && k != init ==> c.procs[k] == Blank())
  }

  lemma BootExists(n: nat, init: nat) returns (c: System)
    requires init < n
    ensures Boot(c, init) && |c.procs| == n
  {
    var d := Table(seq(n, _ => None), seq(n, _ => false));
    c := System(State(d, None, seq(n, _ => Out)), seq(n, _ => Blank())[init := Proc(Live, 1, false, User)], 2, []);
  }

  lemma BootGood(c: System, init: nat)
    requires Boot(c, init)
    ensures Good(c, init)
  {
    assert Mutual(c.s);
    forall t | 0 <= t < |c.procs|
      ensures Agrees(c, init, t) && Slot(c, init, t) && Work(c, init, t)
    {
    }
    assert Apart(c);
    assert Owing(c, init);
    assert Pids(c);
  }

  /** c1 is reached from c by these moves. */
  ghost predicate Moves(c: System, init: nat, moves: seq<Move>, c1: System)
    decreases |moves|
  {
    if moves == [] then c1 == c
    else Can(c, init, moves[0]) && Moves(After(c, moves[0]), init, moves[1..], c1)
  }

  /** The steps of sleep and wakeup in a run. */
  ghost function StepsOf(c: System, init: nat, moves: seq<Move>): seq<Step<Table>>
    decreases |moves|
  {
    if moves == [] || !Can(c, init, moves[0]) then []
    else (if StepOf(c, moves[0]).Some? then [StepOf(c, moves[0]).value]
          else []) + StepsOf(After(c, moves[0]), init, moves[1..])
  }

  /** Any run of the process table keeps its invariant and is a run of
      sleep and wakeup in which every section pays. */
  lemma {:induction false} MovesAreRun(c: System, init: nat, moves: seq<Move>, c1: System)
    requires Good(c, init) && Moves(c, init, moves, c1)
    ensures Good(c1, init) && Run(WaitCond(), c.s, StepsOf(c, init, moves), c1.s)
    decreases |moves|
  {
    if moves != [] {
      var m := moves[0];
      MoveKeepsGood(c, init, m);
      MovesAreRun(After(c, m), init, moves[1..], c1);
      var rest := StepsOf(After(c, m), init, moves[1..]);
      if StepOf(c, m).Some? {
        MovePays(c, init, m);
        assert ([StepOf(c, m).value] + rest)[1..] == rest;
        assert After(c, m).s == Next(c.s, StepOf(c, m).value);
      } else {
        assert [] + rest == rest;
      }
    }
  }

  /** Reachable from the boot. */
  ghost predicate Reached(c0: System, init: nat, moves: seq<Move>, c: System) {
    Boot(c0, init) && Moves(c0, init, moves, c)
  }

  lemma ReachedGood(c0: System, init: nat, moves: seq<Move>, c: System)
    requires Reached(c0, init, moves, c)
    ensures Good(c, init) && SleepWakeup.Start(c0.s) && Run(WaitCond(), c0.s, StepsOf(c0, init, moves), c.s)
  {
    BootGood(c0, init);
    MovesAreRun(c0, init, moves, c);
  }

  /** In every run of fork, exit and wait: while wait_lock is free, a process that
      is asleep in wait, or bound to be, has no zombie child. */
  lemma NoParentSleepsPastZombie(c0: System, init: nat, moves: seq<Move>, c: System, t: nat, k: nat)
    requires Reached(c0, init, moves, c) && c.s.lk.None? && t < |c.s.pc| && (c.s.pc[t].Going? || c.s.pc[t].Asleep?)
    requires k < |c.procs|
    ensures |c.s.d.parent| == |c.procs| && !(c.s.d.parent[k] == Some(t) && c.procs[k].life.Zombie?)
  {
    ReachedGood(c0, init, moves, c);
    SeeAgrees(c, init, t);
    SeeSlot(c, init, k);
    NoLostWakeup(WaitCond(), c0.s, StepsOf(c0, init, moves), c.s, t, t);
    assert WaitCond()(c.s.d, t) == HasZombie(c.s.d, t);
    assert c.s.d.parent[k] == Some(t) && c.s.d.zombie[k] ==> IsZombieOf(c.s.d, k, t);
  }

  /** In every run a process that is in none of them can begin a fork, and while
      wait_lock is free an exit or a wait. */
  lemma UserCanStart(c0: System, init: nat, moves: seq<Move>, c: System, t: nat, np: nat)
    requires Reached(c0, init, moves, c) && t < |c.procs| && c.procs[t].code.User?
    ensures np < |c.procs| && c.procs[np].life.Unused? ==> Can(c, init, Move(t, Alloc(np), ForkHas(np)))
    ensures c.s.lk.None? ==> Can(c, init, Move(t, Sync(Acquire(t)), WaitAt(0, false)))
    ensures c.s.lk.None? && t != init ==> Can(c, init, Move(t, Sync(Acquire(t)), ExitAt(0)))
  {
    ReachedGood(c0, init, moves, c);
    SeeAgrees(c, init, t);
    var fork := Move(t, Alloc(np), ForkHas(np));
    var wait := Move(t, Sync(Acquire(t)), WaitAt(0, false));
    var exit := Move(t, Sync(Acquire(t)), ExitAt(0));
    assert np < |c.procs| && c.procs[np].life.Unused? ==> Runs(c, init, fork) && StepOf(c, fork).None?;
    assert Runs(c, init, wait) && StepOf(c, wait) == Some(Acquire(t)) && StepOf(c, exit) == Some(Acquire(t));
    assert t != init ==> Runs(c, init, exit);
    assert c.s.lk.None? ==> Possible(c.s, Acquire(t));
  }

  /** In every run wait comes to the end of its scan without a zombie child, and then
      sleeps exactly if it has a child and is not killed. */
  lemma WaitSleepsExactly(c0: System, init: nat, moves: seq<Move>, c: System, m: Move)
    requires Reached(c0, init, moves, c) && Can(c, init, m) && !m.a.Killed?
    requires c.procs[m.t].code.WaitAt? && c.procs[m.t].code.i >= |c.procs|
    ensures var parent := c.s.d.parent;
            && (m.code == WaitSleeping <==>
                  !c.procs[m.t].killed && exists k :: 0 <= k < |parent| && parent[k] == Some(m.t))
            && (m.code == WaitSleeping || (m.code == WaitDone && m.a == Skip))
            && forall k :: 0 <= k < |c.procs| ==> !(parent[k] == Some(m.t) && c.procs[k].life.Zombie?)
  {
    ReachedGood(c0, init, moves, c);
    SeeWork(c, init, m.t);
    assert Unfold(-1);
    forall k | 0 <= k < |c.procs|
      ensures !(c.s.d.parent[k] == Some(m.t) && c.procs[k].life.Zombie?)
    {
      SeeSlot(c, init, k);
      assert !IsZombieOf(c.s.d, k, m.t);
    }
  }

  /** In every run every live process and every zombie but init has a live parent,
      across reparenting: exit finds one to wake, and no zombie is orphaned. */
  lemma NoOrphans(c0: System, init: nat, moves: seq<Move>, c: System, k: nat)
    requires Reached(c0, init, moves, c) && k < |c.procs| && k != init
    requires (c.procs[k].life.Live? || c.procs[k].life.Zombie?)
    ensures Sized(c, init) && HasParent(c, init, k)
    ensures exists p: nat :: p < |c.procs| && p != k && c.s.d.parent[k] == Some(p) && c.procs[p].life.Live?
  {
    ReachedGood(c0, init, moves, c);
    SeeSlot(c, init, k);
  }

  // ----- each exit is reaped once -----

  ghost function Exits(trace: seq<Event>, pid: nat): nat {
    if trace == [] then 0 else Exits(trace[..|trace| - 1], pid) + if trace[|trace| - 1] == Exited(pid) then 1 else 0
  }

  ghost function Reaps(trace: seq<Event>, pid: nat): nat {
    if trace == [] then 0
    else Reaps(trace[..|trace| - 1], pid) + if trace[|trace| - 1].Reaped? && trace[|trace| - 1].pid == pid then 1 else 0
  }

  lemma CountNext(trace: seq<Event>, e: Event, pid: nat)
    ensures Exits(trace + [e], pid) == Exits(trace, pid) + if e == Exited(pid) then 1 else 0
    ensures Reaps(trace + [e], pid) == Reaps(trace, pid) + if e.Reaped? && e.pid == pid then 1 else 0
  {
    assert (trace + [e])[..|trace|] == trace;
  }

  predicate Is(c: System, k: nat, pid: nat) {
    k < |c.procs| && !c.procs[k].life.Unused? && c.procs[k].pid == pid
  }

  /** A process has exited once if it is a zombie and not if it lives; when it is
      gone it has been reaped as often as it has exited, at most once. */
  ghost predicate Counted(c: System, pid: nat) {
    var exits, reaps := Exits(c.trace, pid), Reaps(c.trace, pid);
    && (pid >= c.nextpid ==> exits == 0)
    && (forall k: nat :: Is(c, k, pid) ==> reaps == 0 && exits == if c.procs[k].life.Zombie? then 1 else 0)
    && ((forall k: nat :: !Is(c, k, pid)) ==> reaps == exits <= 1)
  }

  /** Who a process is changes only at both ends of its life. */
  lemma IsAfter(c: System, init: nat, m: Move, k: nat, pid: nat)
    requires Good(c, init) && Can(c, init, m)
    ensures Is(After(c, m), k, pid) <==>
              if m.a == Alloc(k) then pid == c.nextpid else Is(c, k, pid) && m.a != Drop(k) && m.a != Reap(k)
    ensures Is(After(c, m), k, pid) ==>
              (After(c, m).procs[k].life.Zombie? <==>
                 m.a != Alloc(k) && (c.procs[k].life.Zombie? || (m.a.Mark? && k == m.t)))
  {
    ActionCode(c, init, m);
    OtherIn(c, init, m);
    if k < |c.procs| { SeeSlot(c, init, k); }
    SeeSlot(c, init, m.t);
  }

  lemma CountedKept(c: System, init: nat, m: Move, pid: nat)
    requires Good(c, init) && Can(c, init, m) && Counted(c, pid)
    ensures Counted(After(c, m), pid)
  {
    match m.a
    case Mark => MarkCounted(c, init, m, pid);
    case Reap(_) => ReapCounted(c, init, m, pid);
    case Alloc(_) => AllocCounted(c, init, m, pid);
    case Drop(_) => DropCounted(c, init, m, pid);
    case _ => QuietCounted(c, init, m, pid);
  }

  lemma QuietCounted(c: System, init: nat, m: Move, pid: nat)
    requires Good(c, init) && Can(c, init, m) && Counted(c, pid)
    requires (m.a.Skip? || m.a.Sync? || m.a.Start? || m.a.Killed?)
    ensures Counted(After(c, m), pid)
  {
    var c1 := After(c, m);
    forall k: nat
      ensures Is(c1, k, pid) <==> Is(c, k, pid)
      ensures Is(c1, k, pid) ==> (c1.procs[k].life.Zombie? <==> c.procs[k].life.Zombie?)
    {
      IsAfter(c, init, m, k, pid);
    }
  }

  lemma AllocCounted(c: System, init: nat, m: Move, pid: nat)
    requires Good(c, init) && Can(c, init, m) && Counted(c, pid) && m.a.Alloc?
    ensures Counted(After(c, m), pid)
  {
    var c1 := After(c, m);
    forall k: nat
      ensures Is(c1, k, pid) <==> if m.a.np == k then pid == c.nextpid else Is(c, k, pid)
      ensures Is(c1, k, pid) ==> (c1.procs[k].life.Zombie? <==> m.a.np != k && c.procs[k].life.Zombie?)
    {
      IsAfter(c, init, m, k, pid);
    }
    SeePids(c, init);
    ActionCode(c, init, m);
    if pid == c.nextpid {
      assert forall k: nat :: !Is(c, k, pid);
      assert Is(c1, m.a.np, pid);
    } else {
      assert forall k: nat :: Is(c, k, pid) ==> Is(c1, k, pid);
    }
  }

  lemma DropCounted(c: System, init: nat, m: Move, pid: nat)
    requires Good(c, init) && Can(c, init, m) && Counted(c, pid) && m.a.Drop?
    ensures Counted(After(c, m), pid)
  {
    var c1 := After(c, m);
    forall k: nat
      ensures Is(c1, k, pid) <==> Is(c, k, pid) && m.a.np != k
      ensures Is(c1, k, pid) ==> (c1.procs[k].life.Zombie? <==> c.procs[k].life.Zombie?)
    {
      IsAfter(c, init, m, k, pid);
    }
    OtherIn(c, init, m);
    if !Is(c, m.a.np, pid) {
      assert forall k: nat :: Is(c, k, pid) ==> Is(c1, k, pid);
    }
  }

  lemma MarkCounted(c: System, init: nat, m: Move, pid: nat)
    requires Good(c, init) && Can(c, init, m) && Counted(c, pid) && m.a.Mark?
    ensures Counted(After(c, m), pid)
  {
    var c1 := After(c, m);
    forall k: nat
      ensures Is(c1, k, pid) <==> Is(c, k, pid)
      ensures Is(c1, k, pid) ==> (c1.procs[k].life.Zombie? <==> c.procs[k].life.Zombie? || k == m.t)
    {
      IsAfter(c, init, m, k, pid);
    }
    CountNext(c.trace, Exited(c.procs[m.t].pid), pid);
    SeePids(c, init);
    ActionCode(c, init, m);
    SeeSlot(c, init, m.t);
    assert pid == c.procs[m.t].pid ==> Is(c, m.t, pid);
  }

  lemma ReapCounted(c: System, init: nat, m: Move, pid: nat)
    requires Good(c, init) && Can(c, init, m) && Counted(c, pid) && m.a.Reap?
    ensures Counted(After(c, m), pid)
  {
    var c1 := After(c, m);
    forall k: nat
      ensures Is(c1, k, pid) <==> Is(c, k, pid) && k != m.a.k
      ensures Is(c1, k, pid) ==> (c1.procs[k].life.Zombie? <==> c.procs[k].life.Zombie?)
    {
      IsAfter(c, init, m, k, pid);
    }
    ActionCode(c, init, m);
    CountNext(c.trace, Reaped(c.procs[m.a.k].pid, c.procs[m.t].pid), pid);
    SeePids(c, init);
    SeeSlot(c, init, m.a.k);
    assert pid == c.procs[m.a.k].pid ==> Is(c, m.a.k, pid);
    assert forall k: nat :: Is(c, k, pid) && pid != c.procs[m.a.k].pid ==> Is(c1, k, pid);
  }

  lemma {:induction false} MovesCounted(c: System, init: nat, moves: seq<Move>, c1: System, pid: nat)
    requires Good(c, init) && Moves(c, init, moves, c1) && Counted(c, pid)
    ensures Counted(c1, pid)
    decreases |moves|
  {
    if moves != [] {
      CountedKept(c, init, moves[0], pid);
      MoveKeepsGood(c, init, moves[0]);
      MovesCounted(After(c, moves[0]), init, moves[1..], c1, pid);
    }
  }

  /** In every run each process exits at most once and is reaped at most once, not
      before it exits; it has exited and not been reaped exactly while it is a
      zombie, and then its parent is alive to reap it. */
  lemma EachExitReapedOnce(c0: System, init: nat, moves: seq<Move>, c: System, pid: nat)
    requires Reached(c0, init, moves, c)
    ensures Reaps(c.trace, pid) <= Exits(c.trace, pid) <= 1
    ensures Sized(c, init) && (Exits(c.trace, pid) > Reaps(c.trace, pid)
                               <==> exists k: nat :: Is(c, k, pid) && c.procs[k].life.Zombie? && HasParent(c, init, k))
  {
    ReachedGood(c0, init, moves, c);
    BootGood(c0, init);
    MovesCounted(c0, init, moves, c, pid);
    if k: nat :| Is(c, k, pid) { SeeSlot(c, init, k); }
  }

  /** In every run a process is reaped by its parent at that time, and only when
      it has left its stack. */
  lemma ReapedByParent(c0: System, init: nat, moves: seq<Move>, c: System, m: Move)
    requires Reached(c0, init, moves, c) && Can(c, init, m) && m.a.Reap?
    ensures FirstZombie(c.s.d, m.a.k, m.t) && m.a.k < |c.procs| && c.procs[m.a.k].code.Nobody?
    ensures After(c, m).trace == c.trace + [Reaped(c.procs[m.a.k].pid, c.procs[m.t].pid)]
  {
    ReachedGood(c0, init, moves, c);
    ActionCode(c, init, m);
    OtherIn(c, init, m);
    SeeSlot(c, init, m.t);
    SeeSlot(c, init, m.a.k);
    SeeWork(c, init, m.t);
  }

  /** In every run each section of wait_lock computes from the table it found what
      the methods below compute. */
  lemma SectionsCompute(c0: System, init: nat, moves: seq<Move>, c: System, t: nat)
    requires Reached(c0, init, moves, c) && t < |c.procs| && t < |c.s.pc| && c.s.pc[t].In?
    ensures var d, start := c.s.d, c.s.pc[t].start;
            match c.procs[t].code
            case ForkSet(np) => np < |start.parent| && d == ForkTable(start, t, np)
                                && d == start.(parent := start.parent[np := Some(t)])
            case ExitMarked => IsExitTable(start, d, t, init) && GivesChildren(start, d, t, init)
            case WaitDone => d == start || exists k :: ReapedFirst(start, d, k, t)
            case _ => true
  {
    ReachedGood(c0, init, moves, c);
    SeeWork(c, init, t);
  }

  /** Every child of p is init's, no other parent has changed, and p has become a
      zombie. */
  ghost predicate GivesChildren(d: Table, d1: Table, p: nat, init: nat) {
    && |d1.parent| == |d.parent| && |d1.zombie| == |d.zombie|
    && (forall k :: 0 <= k < |d.parent| ==>
          d1.parent[k] == if d.parent[k] == Some(p) then Some(init) else d.parent[k])
    && (forall k :: 0 <= k < |d.zombie| ==> (d1.zombie[k] <==> d.zombie[k] || k == p))
  }

  // ----- the sections as code -----

  /** reparent: p's children become init's, which is woken if there are any. */
  method Reparent(d: Table, p: nat, init: nat) returns (d1: Table, woken: set<nat>)
    ensures Reparented(d, d1, p, init, |d.parent|)
    ensures woken == if Some(p) in d.parent then {init} else {}
  {
    var parent := d.parent;
    woken := {};
    var i := 0;
    while i < |parent|
      invariant 0 <= i <= |parent| == |d.parent|
      invariant Reparented(d, Table(parent, d.zombie), p, init, i)
      invariant woken == if Some(p) in d.parent[..i] then {init} else {}
    {
      if parent[i] == Some(p) {
        parent := parent[i := Some(init)];
        woken := woken + {init};
      }
      assert d.parent[..i + 1] == d.parent[..i] + [d.parent[i]];
      i := i + 1;
    }
    assert d.parent[..i] == d.parent;
    d1 := Table(parent, d.zombie);
  }

  /** exit's section under wait_lock meets what it owes: whoever now has a zombie
      child has been woken or had one before. False is the panic when init exits. */
  method Exit(d: Table, p: nat, init: nat) returns (ok: bool, d1: Table, woken: set<nat>)
    requires p < |d.parent| == |d.zombie|
    ensures (ok <==> p != init) && (!ok ==> d1 == d)
    ensures ok ==> IsExitTable(d, d1, p, init) && Paid(WaitCond(), d, d1, woken)
    ensures ok ==> d1.zombie == d.zombie[p := true] && |d1.parent| == |d.parent| && forall k :: 0 <= k < |d.parent| ==>
                     d1.parent[k] == if d.parent[k] == Some(p) then Some(init) else d.parent[k]
  {
    ok := p != init;
    if !ok {
      return false, d, {};
    }
    d1, woken := Reparent(d, p, init);
    woken := woken + {Channel(d1.parent[p], |d.parent|)};
    d1 := d1.(zombie := d1.zombie[p := true]);
    assert d1.(zombie := d.zombie) == Table(d1.parent, d.zombie);
    forall c: nat | WaitCond()(d1, c)
      ensures c in woken || WaitCond()(d, c)
    {
      var k: nat :| IsZombieOf(d1, k, c);
      if k != p && d.parent[k] != Some(p) { assert IsZombieOf(d, k, c); }
    }
  }

  datatype Outcome = Got(k: nat) | Failed | Sleeps

  /** wait's scan and what follows it. The first zombie child is reaped if its
      status can be copied out; wait sleeps only when no child is a zombie. */
  method Wait(d: Table, p: nat, copies: bool, killed: bool) returns (r: Outcome, d1: Table)
    requires |d.parent| == |d.zombie|
    ensures r.Got? <==> HasZombie(d, p) && copies
    ensures r.Sleeps? <==> !HasZombie(d, p) && KidBelow(d, p, |d.parent|) && !killed
    ensures if r.Got? then ReapedFirst(d, d1, r.k, p) else d1 == d
    ensures r.Got? ==> r.k < |d.parent| && d.parent[r.k] == Some(p) && d.zombie[r.k]
                       && d1 == Table(d.parent[r.k := None], d.zombie[r.k := false])
                       && forall k :: 0 <= k < r.k ==> !(d.parent[k] == Some(p) && d.zombie[k])
    ensures r.Sleeps? ==> forall k :: 0 <= k < |d.parent| ==> !(d.parent[k] == Some(p) && d.zombie[k])
    ensures Paid(WaitCond(), d, d1, {})
  {
    d1 := d;
    var havekids, np := false, 0;
    while np < |d.parent|
      invariant 0 <= np <= |d.parent| && d1 == d
      invariant havekids <==> KidBelow(d, p, np)
      invariant forall k: nat :: k < np ==> !IsZombieOf(d, k, p)
    {
      KidNext(d, p, np);
      if d.parent[np] == Some(p) {
        havekids := true;
        if d.zombie[np] {
          assert IsZombieOf(d, np, p);
          if !copies {
            return Failed, d;
          }
          d1 := ReapTable(d, np);
          FewerZombies(d, np);
          assert forall k :: 0 <= k < np && d.parent[k] == Some(p) && d.zombie[k] ==> IsZombieOf(d, k, p);
          return Got(np), d1;
        }
      }
      np := np + 1;
    }
    assert forall k :: 0 <= k < np && d.parent[k] == Some(p) && d.zombie[k] ==> IsZombieOf(d, k, p);
    if !havekids || killed {
      return Failed, d;
    }
    r := Sleeps;
  }

  lemma FewerZombies(d: Table, k: nat)
    requires k < |d.parent| == |d.zombie|
    ensures Paid(WaitCond(), d, ReapTable(d, k), {})
  {
    forall c: nat | WaitCond()(ReapTable(d, k), c)
      ensures WaitCond()(d, c)
    {
      var j: nat :| IsZombieOf(ReapTable(d, k), j, c);
      assert IsZombieOf(d, j, c);
    }
  }
}
