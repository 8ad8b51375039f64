/** sleep and wakeup (kernel/proc.c) as a transition system. Threads share data of
    type D under a lock lk; cond(d, c) is the condition that a sleeper on channel c
    waits for. A step is what one thread does while it holds the locks it needs. */
module SleepWakeup {
  import opened Basics

  /** A wakeup in progress: its channel and the next process to look at. */
  datatype Waking = Waking(chan: nat, next: nat)

  datatype Pc<D> =
    | Out                                                            // lk not held
    | In(start: D, woken: set<nat>, waking: Option<Waking>)          // lk held since the data was start
    | Locked(chan: nat)                                              // in sleep: p->lock and lk held
    | Going(chan: nat)                                               // in sleep: lk released, p->lock held
    | Asleep(chan: nat)                                              // state SLEEPING
    | Awake                                                          // made RUNNABLE, about to acquire lk

  datatype State<D> = State(d: D, lk: Option<nat>, pc: seq<Pc<D>>)

  type Cond<!D> = (D, nat) -> bool

  // ----- steps -----

  /** What a critical section owes: it ends with c's condition true only if it was
      true at the start or c was woken on the way, before or after the change. */
  ghost predicate Paid<D>(cond: Cond<D>, start: D, d: D, woken: set<nat>) {
    forall c {:trigger cond(d, c)} :: cond(d, c) ==> c in woken || cond(start, c)
  }

  datatype Step<D> =
    | Acquire(t: nat)
    | Change(t: nat, d: D)
    | StartWakeup(t: nat, chan: nat)
    | WakeOne(t: nat)
    | EndWakeup(t: nat)
    | Release(t: nat)
    | SleepAcquire(t: nat, chan: nat)
    | SleepRelease(t: nat)
    | SleepSet(t: nat)
    | Kill(t: nat)

  /** The thread's p->lock is taken, so that wakeup has to wait for it. */
  predicate Busy<D>(pc: Pc<D>) {
    pc.Locked? || pc.Going?
  }

  /** The step can be taken. */
  predicate Possible<D>(s: State<D>, x: Step<D>) {
    x.t < |s.pc| &&
    var pc := s.pc[x.t];
    match x
    case Acquire(_) => (pc.Out? || pc.Awake?) && s.lk.None?
    case Change(_, _) => pc.In? && pc.waking.None?
    case StartWakeup(_, _) => pc.In? && pc.waking.None?
    case WakeOne(t) => pc.In? && pc.waking.Some? && pc.waking.value.next < |s.pc|
                       && (pc.waking.value.next == t || !Busy(s.pc[pc.waking.value.next]))
    case EndWakeup(_) => pc.In? && pc.waking.Some? && pc.waking.value.next == |s.pc|
    case Release(_) => pc.In? && pc.waking.None?
    case SleepAcquire(_, _) => pc.In? && pc.waking.None?
    case SleepRelease(_) => pc.Locked?
    case SleepSet(_) => pc.Going?
    case Kill(_) => pc.Asleep?
  }

  /** What the code around release and sleep has to see to. */
  ghost predicate Owed<D>(cond: Cond<D>, s: State<D>, x: Step<D>)
    requires Possible(s, x)
  {
    match x
    case Release(t) => Paid(cond, s.pc[t].start, s.d, s.pc[t].woken)
    case SleepAcquire(t, c) => Paid(cond, s.pc[t].start, s.d, s.pc[t].woken) && !cond(s.d, c)
    case _ => true
  }

  ghost predicate Enabled<D>(cond: Cond<D>, s: State<D>, x: Step<D>) {
    Possible(s, x) && Owed(cond, s, x)
  }

  function Next<D>(s: State<D>, x: Step<D>): State<D>
    requires Possible(s, x)
  {
    var pc := s.pc[x.t];
    match x
    case Acquire(t) => s.(lk := Some(t), pc := s.pc[t := In(s.d, {}, None)])
    case Change(_, d) => s.(d := d)
    case StartWakeup(t, c) => s.(pc := s.pc[t := pc.(waking := Some(Waking(c, 0)))])
    case WakeOne(t) =>
      var w := pc.waking.value;
      var pcs := if w.next != t && s.pc[w.next] == Asleep(w.chan) then s.pc[w.next := Awake] else s.pc;
      s.(pc := pcs[t := pc.(waking := Some(w.(next := w.next + 1)))])
    case EndWakeup(t) => s.(pc := s.pc[t := pc.(woken := pc.woken + {pc.waking.value.chan}, waking := None)])
    case Release(t) => s.(lk := None, pc := s.pc[t := Out])
    case SleepAcquire(t, c) => s.(pc := s.pc[t := Locked(c)])
    case SleepRelease(t) => s.(lk := None, pc := s.pc[t := Going(pc.chan)])
    case SleepSet(t) => s.(pc := s.pc[t := Asleep(pc.chan)])
    case Kill(t) => s.(pc := s.pc[t := Awake])
  }

  /** A step moves no other thread, unless it wakes it. */
  lemma OthersPc<D>(s: State<D>, x: Step<D>, t: nat)
    requires Possible(s, x) && t < |s.pc| && t != x.t
    ensures var s1 := Next(s, x);
            |s1.pc| == |s.pc| && (s1.pc[t] == s.pc[t] || (s.pc[t].Asleep? && s1.pc[t].Awake?))
  {
  }

  /** A sleeper stays asleep until wakeup finds it on its channel or it is killed. */
  lemma OnlyWakeupEndsSleep<D>(s: State<D>, x: Step<D>, t: nat, c: nat)
    requires Possible(s, x) && t < |s.pc| && s.pc[t] == Asleep(c)
    ensures Next(s, x).pc[t] == Asleep(c) || Next(s, x).pc[t] == Awake
    ensures Next(s, x).pc[t] == Awake <==>
              x == Kill(t) || (x.WakeOne? && x.t != t && s.pc[x.t].In? && s.pc[x.t].waking == Some(Waking(c, t)))
  {
  }

  /** sleep gives up lk only with p->lock in hand, and then is asleep. */
  lemma SleepSteps<D>(s: State<D>, t: nat, c: nat)
    requires t < |s.pc|
    ensures Possible(s, SleepAcquire(t, c)) ==> Next(s, SleepAcquire(t, c)).pc[t] == Locked(c)
    ensures s.pc[t] == Locked(c) ==> Possible(s, SleepRelease(t)) && Next(s, SleepRelease(t)).lk.None?
                                     && Next(s, SleepRelease(t)).pc[t] == Going(c)
    ensures s.pc[t] == Going(c) ==> Possible(s, SleepSet(t)) && Next(s, SleepSet(t)).pc[t] == Asleep(c)
  {
  }

  // ----- no wakeup is lost -----

  /** Asleep on c, or past the point where lk still holds back a wakeup. */
  predicate Committed<D>(pc: Pc<D>, c: nat) {
    (pc.Going? || pc.Asleep?) && pc.chan == c
  }

  ghost predicate NobodyOn<D>(pc: seq<Pc<D>>, c: nat, n: nat) {
    forall t :: 0 <= t < |pc| && t < n ==> !Committed(pc[t], c)
  }

  /** lk is held by the one thread that is inside. */
  ghost predicate Mutual<D>(s: State<D>) {
    forall t :: 0 <= t < |s.pc| ==> (s.pc[t].In? || s.pc[t].Locked? <==> s.lk == Some(t))
  }

  lemma MutualKept<D>(s: State<D>, x: Step<D>)
    requires Mutual(s) && Possible(s, x)
    ensures Mutual(Next(s, x))
  {
  }

  /** Nobody sleeps on a channel whose condition holds. */
  ghost predicate Settled<D>(cond: Cond<D>, d: D, pc: seq<Pc<D>>) {
    forall c {:trigger cond(d, c)} :: cond(d, c) ==> NobodyOn(pc, c, |pc|)
  }

  ghost predicate Inv<D>(cond: Cond<D>, s: State<D>) {
    && Mutual(s)
    && match s.lk
       case None => Settled(cond, s.d, s.pc)
       case Some(h) =>
         h < |s.pc| &&
         if s.pc[h].In? then
           var pc := s.pc[h];
           && Settled(cond, pc.start, s.pc)
           && (forall c :: c in pc.woken ==> NobodyOn(s.pc, c, |s.pc|))
           && (pc.waking.Some? ==> NobodyOn(s.pc, pc.waking.value.chan, pc.waking.value.next))
         else s.pc[h].Locked? && Settled(cond, s.d, s.pc) && !cond(s.d, s.pc[h].chan)
  }

  /** A thread that is not committed afterwards only takes sleepers away. */
  lemma FewerOn<D>(pc: seq<Pc<D>>, pc1: seq<Pc<D>>, c: nat, n: nat)
    requires |pc1| == |pc| && NobodyOn(pc, c, n) && forall t :: 0 <= t < |pc| && Committed(pc1[t], c) ==>
                 Committed(pc[t], c)
    ensures NobodyOn(pc1, c, n)
  {
  }

  ghost predicate Fewer<D>(pc: seq<Pc<D>>, pc1: seq<Pc<D>>) {
    |pc1| == |pc| && forall t, c :: 0 <= t < |pc| && Committed(pc1[t], c) ==> Committed(pc[t], c)
  }

  lemma FewerSettled<D>(cond: Cond<D>, d: D, pc: seq<Pc<D>>, pc1: seq<Pc<D>>)
    requires Fewer(pc, pc1) && Settled(cond, d, pc)
    ensures Settled(cond, d, pc1)
  {
    forall c | cond(d, c)
      ensures NobodyOn(pc1, c, |pc1|)
    {
      FewerOn(pc, pc1, c, |pc|);
    }
  }

  lemma StepKeepsInv<D>(cond: Cond<D>, s: State<D>, x: Step<D>)
    requires Inv(cond, s) && Enabled(cond, s, x)
    ensures Inv(cond, Next(s, x))
  {
    var s1 := Next(s, x);
    match x
    case SleepRelease(t) =>
      forall c | cond(s1.d, c)
        ensures NobodyOn(s1.pc, c, |s1.pc|)
      {
        assert NobodyOn(s.pc, c, |s.pc|);
      }
    case SleepSet(t) =>
      assert Fewer(s.pc, s1.pc);
      OthersKeep(cond, s, s1);
    case Kill(t) =>
      assert Fewer(s.pc, s1.pc);
      OthersKeep(cond, s, s1);
    case _ =>
      assert Fewer(s.pc, s1.pc);
  }

  /** A step of a thread outside lk that wakes or only moves on. */
  lemma OthersKeep<D>(cond: Cond<D>, s: State<D>, s1: State<D>)
    requires Inv(cond, s) && Fewer(s.pc, s1.pc) && s1.d == s.d && s1.lk == s.lk && Mutual(s1)
    requires s.lk.Some? ==> s.lk.value < |s.pc| && s1.pc[s.lk.value] == s.pc[s.lk.value]
    ensures Inv(cond, s1)
  {
    if s.lk.None? {
      FewerSettled(cond, s.d, s.pc, s1.pc);
    } else {
      var pc := s.pc[s.lk.value];
      FewerSettled(cond, if pc.In? then pc.start else s.d, s.pc, s1.pc);
    }
  }

  // ----- whole runs -----

  ghost predicate Start<D>(s: State<D>) {
    s.lk.None? && forall t :: 0 <= t < |s.pc| ==> s.pc[t].Out?
  }

  /** s1 is reached from s by these steps. */
  ghost predicate Run<D>(cond: Cond<D>, s: State<D>, steps: seq<Step<D>>, s1: State<D>)
    decreases |steps|
  {
    if steps == [] then s1 == s
    else Enabled(cond, s, steps[0]) && Run(cond, Next(s, steps[0]), steps[1..], s1)
  }

  lemma {:induction false} RunKeepsInv<D>(cond: Cond<D>, s: State<D>, steps: seq<Step<D>>, s1: State<D>)
    requires Inv(cond, s) && Run(cond, s, steps, s1)
    ensures Inv(cond, s1)
    decreases |steps|
  {
    if steps != [] {
      StepKeepsInv(cond, s, steps[0]);
      RunKeepsInv(cond, Next(s, steps[0]), steps[1..], s1);
    }
  }

  /** Whenever lk is free, nobody sleeps, or is bound to sleep, on a channel whose
      condition holds. */
  lemma NoLostWakeup<D>(cond: Cond<D>, s: State<D>, steps: seq<Step<D>>, s1: State<D>, t: nat, c: nat)
    requires Start(s) && Run(cond, s, steps, s1) && s1.lk.None? && t < |s1.pc| && Committed(s1.pc[t], c)
    ensures !cond(s1.d, c)
  {
    RunKeepsInv(cond, s, steps, s1);
  }
}
