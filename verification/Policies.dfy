/** Page replacement: which resident page leaves RAM. kernel/vm.c picks it by one
    of three policies over p->ram, the table of the process's resident pages. */
module Policies {
  import opened Blocks

  const MAX_PSYC_PAGES: nat := 16

  /** A leaf page table entry of a user page. */
  datatype Pte = Pte(frame: nat, v: bool, u: bool, a: bool, pg: bool)

  /** struct page_data; addresses are counted in pages, and -1 means none. */
  datatype PageData = PageData(used: bool, page: int, offset: int, age: nat, time: nat)

  type Table = map<int, Pte>

  ghost predicate Tracked(ram: seq<PageData>, pt: Table) {
    |ram| == MAX_PSYC_PAGES && forall i :: 0 <= i < |ram| ==> ram[i].page in pt
  }

  predicate User(ram: seq<PageData>, pt: Table, i: int)
    requires 0 <= i < |ram| && ram[i].page in pt
  {
    pt[ram[i].page].u
  }

  predicate Accessed(ram: seq<PageData>, pt: Table, i: int)
    requires 0 <= i < |ram| && ram[i].page in pt
  {
    pt[ram[i].page].a
  }

  ghost predicate SomeUser(ram: seq<PageData>, pt: Table)
    requires Tracked(ram, pt)
  {
    exists i :: 0 <= i < |ram| && User(ram, pt, i)
  }

  // ----- NFUA and LAPA -----

  /** The user page of least age, the first of several. */
  ghost predicate LeastAge(ram: seq<PageData>, pt: Table, k: nat)
    requires Tracked(ram, pt)
  {
    k < |ram| && User(ram, pt, k) && forall i :: 0 <= i < |ram| && User(ram, pt, i) ==>
      ram[k].age <= ram[i].age && (i < k ==> ram[k].age < ram[i].age)
  }

  /** get_NFUA_index */
  method NfuaIndex(ram: seq<PageData>, pt: Table) returns (k: nat)
    requires Tracked(ram, pt)
    ensures k < |ram|
    ensures SomeUser(ram, pt) ==> LeastAge(ram, pt, k)
  {
    var age, first := 0, true;
    k := 0;
    var i := 0;
    while i < |ram|
      invariant 0 <= i <= |ram| && k < |ram|
      invariant first ==> forall j :: 0 <= j < i ==> !User(ram, pt, j)
      invariant !first ==> k < i && User(ram, pt, k) && age == ram[k].age
      invariant !first ==> forall j :: 0 <= j < i && User(ram, pt, j) ==>
                             ram[k].age <= ram[j].age && (j < k ==> ram[k].age < ram[j].age)
    {
      if User(ram, pt, i) && (first || ram[i].age < age) {
        first, age, k := false, ram[i].age, i;
      }
      i := i + 1;
    }
  }

  /** The number of ones among the n lowest bits of x. */
  function Ones(x: nat, n: nat): nat {
    if n == 0 then 0 else (x / Pow2(n - 1)) % 2 + Ones(x, n - 1)
  }

  lemma {:induction false} Pow2Grows(n: nat, m: nat)
    requires n < m
    ensures 2 * Pow2(n) <= Pow2(m)
  {
    if n + 1 < m { Pow2Grows(n, m - 1); }
  }

  /** mask <<= 1 on 32 bits. */
  function ShiftLeft(mask: nat): nat {
    (2 * mask) % Pow2(32)
  }

  lemma ShiftMask(n: nat)
    requires n < 32
    ensures ShiftLeft(Pow2(n)) == if n + 1 < 32 then Pow2(n + 1) else 0
    ensures Pow2(n) != 0
  {
    var a, m := Pow2(n + 1), Pow2(32);
    if n + 1 < 32 {
      Pow2Grows(n + 1, 32);
      Wraps(a, m);
    } else {
      Wraps(m, m);
    }
  }

  lemma Wraps(a: nat, m: nat)
    requires 0 < m && a <= m
    ensures a % m == if a < m then a else 0
  {
  }

  /** get_LAPA_index's count of one bits: the mask runs until it is shifted out. */
  method CountOnes(age: nat) returns (counter: nat)
    ensures counter == Ones(age, 32)
  {
    counter := 0;
    var mask := Pow2(0);
    ghost var n := 0;
    while mask != 0
      invariant 0 <= n <= 32 && mask == (if n < 32 then Pow2(n) else 0) && counter == Ones(age, n)
      decreases 32 - n
    {
      if (age / mask) % 2 != 0 {
        counter := counter + 1;
      }
      ShiftMask(n);
      mask := ShiftLeft(mask);
      n := n + 1;
    }
  }

  /** The order LAPA minimises: fewer ones first, then smaller age. */
  predicate LapaBefore(x: PageData, y: PageData) {
    Ones(x.age, 32) < Ones(y.age, 32) || (Ones(x.age, 32) == Ones(y.age, 32) && x.age < y.age)
  }

  /** The least user page in that order, the first of several. */
  ghost predicate LeastLapa(ram: seq<PageData>, pt: Table, k: nat)
    requires Tracked(ram, pt)
  {
    k < |ram| && User(ram, pt, k) && forall i :: 0 <= i < |ram| && User(ram, pt, i) ==>
      !LapaBefore(ram[i], ram[k]) && (i < k ==> LapaBefore(ram[k], ram[i]))
  }

  /** get_LAPA_index */
  method LapaIndex(ram: seq<PageData>, pt: Table) returns (k: nat)
    requires Tracked(ram, pt)
    ensures k < |ram|
    ensures SomeUser(ram, pt) ==> LeastLapa(ram, pt, k)
  {
    var age, ones, first := 0, 0, true;
    k := 0;
    var i := 0;
    while i < |ram|
      invariant 0 <= i <= |ram| && k < |ram|
      invariant first ==> forall j :: 0 <= j < i ==> !User(ram, pt, j)
      invariant !first ==> k < i && User(ram, pt, k) && age == ram[k].age && ones == Ones(ram[k].age, 32)
      invariant !first ==> forall j :: 0 <= j < i && User(ram, pt, j) ==>
                             !LapaBefore(ram[j], ram[k]) && (j < k ==> LapaBefore(ram[k], ram[j]))
    {
      if User(ram, pt, i) {
        var counter := CountOnes(ram[i].age);
        if first || counter < ones || (ones == counter && ram[i].age < age) {
          first, k, ones, age := false, i, counter, ram[i].age;
        }
      }
      i := i + 1;
    }
  }

  // ----- SCFIFO: timestamps implement a second-chance queue -----

  /** q lists the user pages' places in p->ram by increasing fifo_time. */
  ghost predicate IsQueue(q: seq<nat>, ram: seq<PageData>, pt: Table, counter: nat)
    requires Tracked(ram, pt)
  {
    && (forall k :: 0 <= k < |q| ==> q[k] < |ram| && User(ram, pt, q[k]) && ram[q[k]].time < counter)
    && (forall i :: 0 <= i < |ram| && User(ram, pt, i) ==> i in q)
    && (forall j, k :: 0 <= j < k < |q| ==> ram[q[j]].time < ram[q[k]].time)
  }

  ghost function AccessedSet(ram: seq<PageData>, pt: Table): set<nat>
    requires Tracked(ram, pt)
  {
    set i: nat | i < |ram| && Accessed(ram, pt, i)
  }

  /** The second-chance queue itself: an accessed page at the head loses its
      accessed bit and goes to the tail; the first head without one is evicted. */
  ghost function SecondChance(q: seq<nat>, acc: set<nat>): (r: (nat, seq<nat>, set<nat>))
    requires q != []
    decreases acc
  {
    if q[0] !in acc then (q[0], q, acc)
    else SecondChance(q[1..] + [q[0]], acc - {q[0]})
  }

  /** The page that the second-chance queue evicts. */
  ghost predicate NextInQueue(ram: seq<PageData>, pt: Table, counter: nat, k: nat)
    requires Tracked(ram, pt)
  {
    exists q :: IsQueue(q, ram, pt, counter) && q != [] && SecondChance(q, AccessedSet(ram, pt)).0 == k
  }

  /** It evicts k and leaves its pages in the order and with the bits it should. */
  ghost predicate GivesChances(ram: seq<PageData>, pt: Table, counter: nat, k: nat, ram1: seq<PageData>, pt1: Table,
                               counter1: nat)
    requires Tracked(ram, pt) && Tracked(ram1, pt1)
  {
    exists q, q1 :: IsQueue(q, ram, pt, counter) && q != [] && IsQueue(q1, ram1, pt1, counter1)
                    && (k, q1, AccessedSet(ram1, pt1)) == SecondChance(q, AccessedSet(ram, pt))
  }

  /** The oldest user page, as get_SCFIFO_index's inner loop finds it. */
  method OldestUser(ram: seq<PageData>, pt: Table, ghost q: seq<nat>, ghost counter: nat) returns (k: nat)
    requires Tracked(ram, pt) && IsQueue(q, ram, pt, counter) && q != []
    ensures k == q[0]
  {
    var time, first := 0, true;
    k := 0;
    var i := 0;
    while i < |ram|
      invariant 0 <= i <= |ram| && k < |ram|
      invariant first ==> forall j :: 0 <= j < i ==> !User(ram, pt, j)
      invariant !first ==> k < i && User(ram, pt, k) && time == ram[k].time
      invariant !first ==> forall j :: 0 <= j < i && User(ram, pt, j) ==> ram[k].time <= ram[j].time
    {
      if User(ram, pt, i) && (first || ram[i].time < time) {
        first, time, k := false, ram[i].time, i;
      }
      i := i + 1;
    }
    assert User(ram, pt, q[0]);
    assert k in q;
  }

  ghost predicate SamePages(ram: seq<PageData>, ram1: seq<PageData>) {
    |ram1| == |ram| && forall i :: 0 <= i < |ram| ==> ram1[i] == ram[i].(time := ram1[i].time)
  }

  ghost predicate SameButAccessed(pt: Table, pt1: Table) {
    pt1.Keys == pt.Keys && forall p :: p in pt ==> pt1[p] == pt[p].(a := pt1[p].a)
  }

  /** Only user pages get new times, and those are later than any old one. */
  ghost predicate Stamped(ram: seq<PageData>, ram1: seq<PageData>, pt: Table, counter: nat)
    requires Tracked(ram, pt)
  {
    |ram1| == |ram| && forall i :: 0 <= i < |ram| ==>
      ram1[i].time == ram[i].time || (User(ram, pt, i) && counter <= ram1[i].time)
  }

  /** What any number of restamps leaves: the same pages and PTEs up to times and
      accessed bits. */
  ghost predicate Carried(ram: seq<PageData>, pt: Table, counter: nat, ram1: seq<PageData>, pt1: Table, counter1: nat)
    requires Tracked(ram, pt)
  {
    && SamePages(ram, ram1) && SameButAccessed(pt, pt1) && Tracked(ram1, pt1)
    && Stamped(ram, ram1, pt, counter) && counter <= counter1
  }

  lemma RestampCarried(ram: seq<PageData>, pt: Table, counter: nat, ram1: seq<PageData>, pt1: Table, counter1: nat,
                       k: nat)
    requires Tracked(ram, pt) && Carried(ram, pt, counter, ram1, pt1, counter1) && k < |ram1| && User(ram1, pt1, k)
    ensures Carried(ram, pt, counter, ram1[k := ram1[k].(time := counter1)],
                    pt1[ram1[k].page := pt1[ram1[k].page].(a := false)], counter1 + 1)
  {
  }

  ghost predicate DistinctPages(ram: seq<PageData>) {
    forall i, j :: 0 <= i < j < |ram| ==> ram[i].page != ram[j].page
  }

  /** get_SCFIFO_index: what it evicts and how it leaves the queue is what the
      second-chance queue does. */
  method ScfifoIndex(ram: seq<PageData>, pt: Table, counter: nat, ghost q: seq<nat>)
    returns (k: nat, ram1: seq<PageData>, pt1: Table, counter1: nat, ghost q1: seq<nat>)
    requires Tracked(ram, pt) && DistinctPages(ram) && IsQueue(q, ram, pt, counter) && q != []
    ensures k < |ram| && User(ram, pt, k)
    ensures Carried(ram, pt, counter, ram1, pt1, counter1) && IsQueue(q1, ram1, pt1, counter1)
    ensures (k, q1, AccessedSet(ram1, pt1)) == SecondChance(q, AccessedSet(ram, pt))
  {
    ram1, pt1, counter1, q1 := ram, pt, counter, q;
    var found := false;
    k := 0;
    while !found
      invariant Carried(ram, pt, counter, ram1, pt1, counter1) && DistinctPages(ram1)
      invariant q1 != [] && IsQueue(q1, ram1, pt1, counter1)
      invariant SecondChance(q1, AccessedSet(ram1, pt1)) == SecondChance(q, AccessedSet(ram, pt))
      invariant found ==> k == q1[0] && !Accessed(ram1, pt1, k)
      decreases !found, AccessedSet(ram1, pt1)
    {
      k := OldestUser(ram1, pt1, q1, counter1);
      var page := ram1[k].page;
      if pt1[page].a {
        Restamp(ram1, pt1, counter1, q1);
        RestampCarried(ram, pt, counter, ram1, pt1, counter1, k);
        pt1 := pt1[page := pt1[page].(a := false)];
        ram1 := ram1[k := ram1[k].(time := counter1)];
        counter1 := counter1 + 1;
        q1 := q1[1..] + [q1[0]];
      } else {
        found := true;
      }
    }
  }

  /** Clearing the head's accessed bit and restamping it moves it to the tail. */
  lemma Restamp(ram: seq<PageData>, pt: Table, counter: nat, q: seq<nat>)
    requires Tracked(ram, pt) && DistinctPages(ram) && IsQueue(q, ram, pt, counter) && q != []
    requires Accessed(ram, pt, q[0])
    ensures var k := q[0];
            var ram1, pt1 := ram[k := ram[k].(time := counter)], pt[ram[k].page := pt[ram[k].page].(a := false)];
            Tracked(ram1, pt1) && IsQueue(q[1..] + [k], ram1, pt1, counter + 1)
            && AccessedSet(ram1, pt1) == AccessedSet(ram, pt) - {k}
  {
    var k := q[0];
    var ram1, pt1 := ram[k := ram[k].(time := counter)], pt[ram[k].page := pt[ram[k].page].(a := false)];
    forall i | 0 <= i < |ram|
      ensures User(ram1, pt1, i) == User(ram, pt, i)
    {
    }
    RotateAll(q, ram, pt, ram1, pt1);
    RotateTimes(q, ram, ram1, counter);
  }

  /** Rotated, the queue has the same pages ... */
  lemma RotateAll(q: seq<nat>, ram: seq<PageData>, pt: Table, ram1: seq<PageData>, pt1: Table)
    requires Tracked(ram, pt) && Tracked(ram1, pt1) && |ram1| == |ram| && q != [] && forall i :: 0 <= i < |q| ==>
                 q[i] < |ram| && User(ram, pt, q[i])
    requires forall i :: 0 <= i < |ram| ==> (User(ram1, pt1, i) <==> User(ram, pt, i))
    requires forall i :: 0 <= i < |ram| && User(ram, pt, i) ==> i in q
    ensures var q1 := q[1..] + [q[0]];
            && (forall i :: 0 <= i < |ram1| && User(ram1, pt1, i) ==> i in q1)
            && (forall i :: 0 <= i < |q1| ==> q1[i] < |ram1| && User(ram1, pt1, q1[i]))
  {
    var q1 := q[1..] + [q[0]];
    forall i | 0 <= i < |ram| && User(ram1, pt1, i)
      ensures i in q1
    {
      var j :| 0 <= j < |q| && q[j] == i;
      assert q1[if j == 0 then |q| - 1 else j - 1] == i;
    }
    forall i | 0 <= i < |q1|
      ensures q1[i] < |ram| && User(ram1, pt1, q1[i])
    {
      assert q1[i] == q[if i == |q| - 1 then 0 else i + 1];
    }
  }

  /** ... in the order of their times. */
  lemma RotateTimes(q: seq<nat>, ram: seq<PageData>, ram1: seq<PageData>, counter: nat)
    requires q != [] && (forall i :: 0 <= i < |q| ==> q[i] < |ram| && ram[q[i]].time < counter)
    requires forall i, j :: 0 <= i < j < |q| ==> ram[q[i]].time < ram[q[j]].time
    requires ram1 == ram[q[0] := ram[q[0]].(time := counter)]
    ensures var q1 := q[1..] + [q[0]];
            && (forall i :: 0 <= i < |q1| ==> q1[i] < |ram1| && ram1[q1[i]].time < counter + 1)
            && (forall i, j :: 0 <= i < j < |q1| ==> ram1[q1[i]].time < ram1[q1[j]].time)
  {
    var q1 := q[1..] + [q[0]];
    forall i | 0 <= i < |q1|
      ensures q1[i] < |ram1| && ram1[q1[i]].time < counter + 1
    {
      assert q1[i] == q[if i == |q| - 1 then 0 else i + 1];
    }
    forall i, j | 0 <= i < j < |q1|
      ensures ram1[q1[i]].time < ram1[q1[j]].time
    {
      assert q1[i] == q[i + 1] && ram[q[0]].time < ram[q[i + 1]].time;
      if j < |q| - 1 { assert q1[j] == q[j + 1]; }
    }
  }

  ghost function Elems(s: seq<nat>): set<nat> {
    set x | x in s
  }

  /** While the head is accessed the queue rotates. */
  lemma {:induction false} Rotates(q: seq<nat>, acc: set<nat>, n: nat)
    requires q != [] && n <= |q| && (forall i, j :: 0 <= i < j < |q| ==> q[i] != q[j])
    requires forall i :: 0 <= i < n ==> q[i] in acc
    ensures SecondChance(q, acc) == SecondChance(q[n..] + q[..n], acc - Elems(q[..n]))
  {
    if n == 0 {
      assert q[0..] + q[..0] == q;
      assert acc - Elems(q[..0]) == acc;
    } else {
      Rotates(q, acc, n - 1);
      var r, acc1 := q[n - 1..] + q[..n - 1], acc - Elems(q[..n - 1]);
      assert r[0] == q[n - 1];
      assert r[1..] + [r[0]] == q[n..] + q[..n];
      assert acc1 - {r[0]} == acc - Elems(q[..n]) by { assert q[..n] == q[..n - 1] + [q[n - 1]]; }
    }
  }

  /** The victim is the first page of the queue that was not accessed since its
      last chance, and the pages before it lose their bit and go to the tail. */
  lemma FirstUnaccessedIsVictim(q: seq<nat>, acc: set<nat>, n: nat)
    requires n < |q| && (forall i, j :: 0 <= i < j < |q| ==> q[i] != q[j])
    requires q[n] !in acc && forall i :: 0 <= i < n ==> q[i] in acc
    ensures SecondChance(q, acc) == (q[n], q[n..] + q[..n], acc - Elems(q[..n]))
  {
    Rotates(q, acc, n);
  }

  /** If every page was accessed, the oldest goes, and no page keeps its bit. */
  lemma AllAccessedEvictsOldest(q: seq<nat>, acc: set<nat>)
    requires q != [] && (forall i, j :: 0 <= i < j < |q| ==> q[i] != q[j])
    requires forall i :: 0 <= i < |q| ==> q[i] in acc
    ensures SecondChance(q, acc) == (q[0], q, acc - Elems(q))
  {
    Rotates(q, acc, |q|);
    assert q[|q|..] + q[..|q|] == q && q[..|q|] == q;
  }

  /** Distinct fifo_times below the counter determine such a queue. */
  lemma QueueExists(ram: seq<PageData>, pt: Table, counter: nat) returns (q: seq<nat>)
    requires Tracked(ram, pt)
    requires forall i :: 0 <= i < |ram| ==> ram[i].time < counter
    requires forall i, j :: 0 <= i < j < |ram| ==> ram[i].time != ram[j].time
    ensures IsQueue(q, ram, pt, counter)
  {
    q := ByTime(ram, set i: nat | i < |ram| && User(ram, pt, i));
    assert forall k :: 0 <= k < |q| ==> q[k] in q;
  }

  lemma ByTime(ram: seq<PageData>, s: set<nat>) returns (q: seq<nat>)
    requires forall i :: i in s ==> i < |ram|
    requires forall i, j :: 0 <= i < j < |ram| ==> ram[i].time != ram[j].time
    ensures forall i :: i in q <==> i in s
    ensures forall j, k :: 0 <= j < k < |q| ==> q[j] < |ram| && q[k] < |ram| && ram[q[j]].time < ram[q[k]].time
    decreases s
  {
    if s == {} {
      q := [];
    } else {
      var m := Youngest(ram, s);
      var r := ByTime(ram, s - {m});
      q := [m] + r;
      assert forall k :: 0 <= k < |r| ==> r[k] in s - {m};
    }
  }

  lemma Youngest(ram: seq<PageData>, s: set<nat>) returns (m: nat)
    requires s != {} && (forall i :: i in s ==> i < |ram|)
    requires forall i, j :: 0 <= i < j < |ram| ==> ram[i].time != ram[j].time
    ensures m in s && forall i :: i in s && i != m ==> ram[m].time < ram[i].time
    decreases s
  {
    m :| m in s;
    if s != {m} {
      var n := Youngest(ram, s - {m});
      if ram[n].time < ram[m].time { m := n; }
    }
  }

  // ----- aging -----

  /** One tick of update_age for one page: age >>= 1, then the accessed bit on top. */
  function Tick(age: nat, accessed: bool): nat {
    age / 2 + if accessed then Pow2(31) else 0
  }

  lemma TopBit()
    ensures Pow2(31) == 0x8000_0000
  {
    Pow2Sum(4, 4);
    Pow2Sum(8, 8);
    Pow2Sum(16, 8);
    Pow2Sum(24, 4);
    Pow2Sum(28, 3);
  }

  /** An entry of p->ram after update_age, from the entry and its page's bits. */
  function Ticked(d: PageData, pt: Table): PageData
    requires d.used ==> d.page in pt
  {
    if d.used && pt[d.page].u then d.(age := Tick(d.age, pt[d.page].a)) else d
  }

  /** The same in numbers. */
  lemma TickedIs(d: PageData, pt: Table)
    requires d.used && d.page in pt
    ensures Ticked(d, pt) == if pt[d.page].u then d.(age := d.age / 2 + if pt[d.page].a then 0x8000_0000 else 0) else d
  {
    TopBit();
  }

  ghost predicate Lists(ram: seq<PageData>, n: nat, p: int) {
    exists i :: 0 <= i < n && i < |ram| && ram[i].used && ram[i].page == p
  }

  /** The accessed bits of the user pages among the first n entries are cleared, and
      nothing else has changed. */
  ghost predicate Swept(ram: seq<PageData>, n: nat, pt: Table, pt1: Table) {
    pt1.Keys == pt.Keys && forall p :: p in pt ==> pt1[p] == if Lists(ram, n, p)
                                                   && pt[p].u then pt[p].(a := false) else pt[p]
  }

  /** In full: exactly the tracked user pages have lost their accessed bit. */
  lemma SweptMeans(ram: seq<PageData>, pt: Table, pt1: Table, p: int)
    requires Swept(ram, |ram|, pt, pt1) && p in pt
    ensures p in pt1
    ensures pt1[p] == if pt[p].u && exists i :: 0 <= i < |ram| && ram[i].used && ram[i].page == p
                      then pt[p].(a := false) else pt[p]
  {
  }

  lemma ListsNext(ram: seq<PageData>, i: nat, p: int)
    requires i < |ram|
    ensures Lists(ram, i + 1, p) <==> Lists(ram, i, p) || (ram[i].used && ram[i].page == p)
  {
  }

  lemma SweptNext(ram: seq<PageData>, i: nat, pt: Table, pt1: Table, pt2: Table)
    requires Swept(ram, i, pt, pt1) && i < |ram| && pt2.Keys == pt1.Keys
    requires forall p :: p in pt1 ==> pt2[p] == if ram[i].used && ram[i].page == p
                                      && pt1[p].u then pt1[p].(a := false) else pt1[p]
    ensures Swept(ram, i + 1, pt, pt2)
  {
    forall p | p in pt {
      ListsNext(ram, i, p);
    }
  }

  /** update_age: every used user page ticks with its accessed bit, which is cleared. */
  method UpdateAge(ram: seq<PageData>, pt: Table) returns (ram1: seq<PageData>, pt1: Table)
    requires forall i :: 0 <= i < |ram| && ram[i].used ==> ram[i].page in pt
    requires forall i, j :: 0 <= i < j < |ram| && ram[i].used && ram[j].used ==> ram[i].page != ram[j].page
    ensures |ram1| == |ram| && forall i :: 0 <= i < |ram| ==> ram1[i] == Ticked(ram[i], pt)
    ensures forall i :: 0 <= i < |ram| ==>
              ram1[i] == if ram[i].used && pt[ram[i].page].u
                         then ram[i].(age := ram[i].age / 2 + if pt[ram[i].page].a then 0x8000_0000 else 0) else ram[i]
    ensures Swept(ram, |ram|, pt, pt1)
  {
    ram1, pt1 := ram, pt;
    var i := 0;
    while i < |ram|
      invariant 0 <= i <= |ram| == |ram1| && Swept(ram, i, pt, pt1)
      invariant forall j :: i <= j < |ram| ==> ram1[j] == ram[j]
                                               && (ram[j].used ==> pt1[ram[j].page] == pt[ram[j].page])
      invariant forall j :: 0 <= j < i ==> ram1[j] == Ticked(ram[j], pt)
    {
      var d := ram1[i];
      ghost var pt0 := pt1;
      if d.used && pt1[d.page].u {
        ram1 := ram1[i := d.(age := Tick(d.age, pt1[d.page].a))];
        if pt1[d.page].a {
          pt1 := pt1[d.page := pt1[d.page].(a := false)];
        }
      }
      SweptNext(ram, i, pt, pt0, pt1);
      i := i + 1;
    }
    forall j | 0 <= j < |ram| && ram[j].used {
      TickedIs(ram[j], pt);
    }
  }

  /** The age after a page's ticks saw these accessed bits, oldest first. */
  function Aged(age: nat, bits: seq<bool>): nat {
    if bits == [] then age else Tick(Aged(age, bits[..|bits| - 1]), bits[|bits| - 1])
  }

  /** A bit string read as a binary number, most significant bit first. */
  function Value(s: seq<bool>): nat {
    if s == [] then 0 else (if s[0] then Pow2(|s| - 1) else 0) + Value(s[1..])
  }

  function Newest(bits: seq<bool>): (r: seq<bool>)
    ensures |r| == |bits|
  {
    if bits == [] then [] else [bits[|bits| - 1]] + Newest(bits[..|bits| - 1])
  }

  lemma {:induction false} NewestAt(bits: seq<bool>, i: nat)
    requires i < |bits|
    ensures Newest(bits)[i] == bits[|bits| - 1 - i]
  {
    if i > 0 { NewestAt(bits[..|bits| - 1], i - 1); }
  }

  lemma {:induction false} ValueBound(s: seq<bool>)
    ensures Value(s) < Pow2(|s|)
  {
    if s != [] { ValueBound(s[1..]); }
  }

  lemma HalfOfEven(x: nat, y: nat)
    ensures (2 * x + y) / 2 == x + y / 2
  {
  }

  lemma DivTwice(a: nat, p: nat)
    requires p > 0
    ensures a / p / 2 == a / (2 * p)
  {
    var q, r := a / p, a % p;
    assert a == p * q + r;
    var h, o := q / 2, q % 2;
    assert q == 2 * h + o;
    assert a == (2 * p) * h + (p * o + r) by { assert p * q == p * (2 * h) + p * o; }
    assert 0 <= p * o + r < 2 * p by { assert o == 0 || o == 1; }
    QuotientIs(a, 2 * p, h, p * o + r);
  }

  lemma ShiftIn(age: nat, v: nat, n: nat, b: bool, w: nat)
    requires 0 < n <= 32 && w == v * Pow2(33 - n)
    ensures Tick(w + age / Pow2(n - 1), b)
            == ((if b then Pow2(n - 1) else 0) + v) * Pow2(32 - n) + age / Pow2(n)
  {
    var p, r := Pow2(32 - n), age / Pow2(n - 1);
    assert Pow2(33 - n) == 2 * p;
    TwiceRight(v, p);
    NatProduct(v, p);
    HalfOfEven(v * p, r);
    DivTwice(age, Pow2(n - 1));
    Pow2Sum(n - 1, 32 - n);
    Distribute(Pow2(n - 1), v, p);
  }

  lemma NatProduct(x: nat, y: nat)
    ensures x * y >= 0
  {
  }

  lemma TwiceRight(x: nat, y: nat)
    ensures x * (2 * y) == 2 * (x * y)
  {
  }

  lemma Distribute(x: nat, y: nat, p: nat)
    ensures (x + y) * p == x * p + y * p
    ensures (0 + y) * p == y * p
  {
  }

  /** Up to 32 ticks: the initial age shifted right, with the accessed bits above
      it, the newest on top. */
  lemma {:induction false} AgeIsShifted(age: nat, bits: seq<bool>)
    requires |bits| <= 32
    ensures Aged(age, bits) == Value(Newest(bits)) * Pow2(32 - |bits|) + age / Pow2(|bits|)
  {
    var n := |bits|;
    if n == 0 {
      assert age / Pow2(0) == age;
    } else {
      var init, b := bits[..n - 1], bits[n - 1];
      AgeIsShifted(age, init);
      NatProduct(Value(Newest(init)), Pow2(33 - n));
      ShiftIn(age, Value(Newest(init)), n, b, Aged(age, init) - age / Pow2(n - 1));
      assert Newest(bits)[1..] == Newest(init);
    }
  }

  lemma Twice(x: nat, y: nat)
    ensures (2 * x) * y == 2 * (x * y)
  {
  }

  lemma {:induction false} Pow2Sum(m: nat, n: nat)
    ensures Pow2(m) * Pow2(n) == Pow2(m + n)
  {
    if m > 0 {
      Pow2Sum(m - 1, n);
      Twice(Pow2(m - 1), Pow2(n));
    }
  }

  lemma {:induction false} AgedConcat(age: nat, s: seq<bool>, t: seq<bool>)
    ensures Aged(age, s + t) == Aged(Aged(age, s), t)
  {
    if t == [] {
      assert s + t == s;
    } else {
      AgedConcat(age, s, t[..|t| - 1]);
      assert (s + t)[..|s + t| - 1] == s + t[..|t| - 1];
    }
  }

  lemma {:induction false} AgedBound(age: nat, bits: seq<bool>)
    requires age < Pow2(32)
    ensures Aged(age, bits) < Pow2(32)
  {
    if bits != [] {
      AgedBound(age, bits[..|bits| - 1]);
      assert Pow2(32) == 2 * Pow2(31);
    }
  }

  /** From 32 ticks on, the age is the last 32 accessed bits, the newest on top. */
  lemma AgeIsHistory(age: nat, bits: seq<bool>)
    requires age < Pow2(32) && |bits| >= 32
    ensures Aged(age, bits) == Value(Newest(bits[|bits| - 32..]))
  {
    var s, t := bits[..|bits| - 32], bits[|bits| - 32..];
    assert bits == s + t;
    AgedConcat(age, s, t);
    AgedBound(age, s);
    ShiftedOut(Aged(age, s), t);
  }

  lemma ShiftedOut(age: nat, bits: seq<bool>)
    requires |bits| == 32 && age < Pow2(32)
    ensures Aged(age, bits) == Value(Newest(bits))
  {
    AgeIsShifted(age, bits);
    var v, m := Value(Newest(bits)), Pow2(32);
    assert v * Pow2(0) == v;
    QuotientIs(age, m, 0, age);
  }

  /** Lexicographic order on bit strings, false before true. */
  predicate LexLess(s: seq<bool>, t: seq<bool>)
    requires |s| == |t|
  {
    s != [] && if s[0] != t[0] then t[0] else LexLess(s[1..], t[1..])
  }

  lemma {:induction false} ValueIsLex(s: seq<bool>, t: seq<bool>)
    requires |s| == |t|
    ensures Value(s) < Value(t) <==> LexLess(s, t)
    ensures Value(s) == Value(t) <==> s == t
  {
    if s != [] {
      ValueIsLex(s[1..], t[1..]);
      ValueBound(s[1..]);
      ValueBound(t[1..]);
      assert s == [s[0]] + s[1..] && t == [t[0]] + t[1..];
    }
  }

  /** So comparing two ages compares what the pages did in the last 32 ticks, the
      most recent tick first, whatever the ages were before. */
  lemma AgesCompareHistories(age1: nat, bits1: seq<bool>, age2: nat, bits2: seq<bool>)
    requires age1 < Pow2(32) && age2 < Pow2(32) && |bits1| >= 32 && |bits2| >= 32
    ensures Aged(age1, bits1) < Aged(age2, bits2) <==>
            LexLess(Newest(bits1[|bits1| - 32..]), Newest(bits2[|bits2| - 32..]))
  {
    AgeIsHistory(age1, bits1);
    AgeIsHistory(age2, bits2);
    ValueIsLex(Newest(bits1[|bits1| - 32..]), Newest(bits2[|bits2| - 32..]));
  }

  // ----- whom the policies evict -----

  /** The places where s is true. */
  ghost function Trues(s: seq<bool>): set<nat> {
    set i: nat | i < |s| && s[i]
  }

  /** The count of LAPA is the number of ticks that saw the page accessed. */
  lemma {:induction false} OnesCount(s: seq<bool>)
    ensures Ones(Value(s), |s|) == |Trues(s)|
  {
    if s != [] {
      var n, rest := |s| - 1, s[1..];
      OnesCount(rest);
      ValueBound(rest);
      OnesFirst(Value(rest), s[0], n);
      TruesFirst(s);
    }
  }

  /** The highest bit counts for itself. */
  lemma OnesFirst(v: nat, b: bool, n: nat)
    requires v < Pow2(n)
    ensures Ones((if b then Pow2(n) else 0) + v, n + 1) == Ones(v, n) + if b then 1 else 0
  {
    if b {
      QuotientIs(Pow2(n) + v, Pow2(n), 1, v);
      OnesLow(v, n, n);
    } else {
      QuotientIs(v, Pow2(n), 0, v);
    }
  }

  /** A bit above the n lowest does not count among them. */
  lemma {:induction false} OnesLow(v: nat, m: nat, n: nat)
    requires n <= m
    ensures Ones(Pow2(m) + v, n) == Ones(v, n)
  {
    if n > 0 {
      OnesLow(v, m, n - 1);
      Pow2Sum(n, m - n);
      DigitBelow(v, Pow2(n - 1), Pow2(m - n));
      assert Pow2(m) == (2 * Pow2(n - 1)) * Pow2(m - n);
    }
  }

  lemma DigitBelow(v: nat, p: nat, q: nat)
    requires p > 0
    ensures 0 <= (2 * p) * q && ((2 * p) * q + v) / p % 2 == v / p % 2
  {
    var e, r := v / p, v % p;
    assert v == p * e + r;
    Factors(p, q, e);
    NatProduct(2 * p, q);
    QuotientIs((2 * p) * q + v, p, 2 * q + e, r);
    EvenDigit(q, e);
  }

  lemma EvenDigit(c: nat, e: nat)
    ensures (2 * c + e) % 2 == e % 2
  {
  }

  lemma Factors(p: nat, q: nat, e: nat)
    ensures (2 * p) * q + p * e == p * (2 * q + e)
  {
  }

  lemma {:induction false} AllOnes(n: nat)
    ensures Ones(Pow2(n) - 1, n) == n
  {
    if n > 0 {
      AllOnes(n - 1);
      OnesFirst(Pow2(n - 1) - 1, true, n - 1);
    }
  }

  lemma {:induction false} OnesBound(x: nat, n: nat)
    ensures Ones(x, n) <= n
  {
    if n > 0 { OnesBound(x, n - 1); }
  }

  lemma TruesFirst(s: seq<bool>)
    requires s != []
    ensures |Trues(s)| == |Trues(s[1..])| + if s[0] then 1 else 0
  {
    TruesShift(s[1..], [s[0]]);
    assert [s[0]] + s[1..] == s;
  }

  lemma {:induction false} TruesShift(s: seq<bool>, b: seq<bool>)
    requires |b| == 1
    ensures |Trues(b + s)| == |Trues(s)| + if b[0] then 1 else 0
  {
    if s == [] {
      assert b + s == b;
      assert Trues(b) == if b[0] then {0} else {};
      assert Trues(s) == {};
    } else {
      var n := |s| - 1;
      TruesShift(s[..n], b);
      TruesLast(s);
      TruesLast(b + s);
      assert (b + s)[..n + 1] == b + s[..n];
    }
  }

  lemma TruesLast(s: seq<bool>)
    requires s != []
    ensures |Trues(s)| == |Trues(s[..|s| - 1])| + if s[|s| - 1] then 1 else 0
  {
    var n := |s| - 1;
    assert Trues(s) == Trues(s[..n]) + if s[n] then {n} else {};
  }

  /** Lexicographic order, spelled out. */
  lemma {:induction false} LexMeans(s: seq<bool>, t: seq<bool>) returns (i: nat)
    requires |s| == |t| && LexLess(s, t)
    ensures i < |s| && !s[i] && t[i] && forall j :: 0 <= j < i ==> s[j] == t[j]
  {
    if s[0] != t[0] {
      i := 0;
    } else {
      i := LexMeans(s[1..], t[1..]);
      i := i + 1;
    }
  }

  /** An entry of p->ram after calls of update_age that found these tables. */
  ghost function AfterTicks(d: PageData, pts: seq<Table>): PageData
    requires d.used && forall k :: 0 <= k < |pts| ==> d.page in pts[k]
    ensures AfterTicks(d, pts) == d.(age := AfterTicks(d, pts).age)
  {
    if pts == [] then d else Ticked(AfterTicks(d, pts[..|pts| - 1]), pts[|pts| - 1])
  }

  /** The page was a user page at all of them. */
  ghost predicate Stays(d: PageData, pts: seq<Table>) {
    d.used && forall k :: 0 <= k < |pts| ==> d.page in pts[k] && pts[k][d.page].u
  }

  /** The accessed bits that they found. */
  ghost function Found(pts: seq<Table>, p: int): (bits: seq<bool>)
    requires forall k :: 0 <= k < |pts| ==> p in pts[k]
    ensures |bits| == |pts| && forall k :: 0 <= k < |pts| ==> bits[k] == pts[k][p].a
  {
    seq(|pts|, k requires 0 <= k < |pts| => pts[k][p].a)
  }

  /** Over any number of calls, the age is made of the bits that they found. */
  lemma {:induction false} AgeAfterTicks(d: PageData, pts: seq<Table>)
    requires Stays(d, pts)
    ensures AfterTicks(d, pts).age == Aged(d.age, Found(pts, d.page))
  {
    if pts != [] {
      var n := |pts| - 1;
      AgeAfterTicks(d, pts[..n]);
      assert Found(pts, d.page)[..n] == Found(pts[..n], d.page);
    }
  }

  /** In its last 32 ticks, page p was accessed in as many as this. */
  ghost function Uses(pts: seq<Table>, p: int): nat
    requires |pts| >= 32 && forall k :: 0 <= k < |pts| ==> p in pts[k]
  {
    var last := pts[|pts| - 32..];
    |set t: nat | t < 32 && last[t][p].a|
  }

  /** At the latest of the last 32 ticks that told the two pages apart, p was not
      accessed and q was. */
  ghost predicate LessRecent(pts: seq<Table>, p: int, q: int)
    requires forall k :: 0 <= k < |pts| ==> p in pts[k] && q in pts[k]
  {
    exists t :: |pts| - 32 <= t < |pts| && t >= 0 && !pts[t][p].a && pts[t][q].a
                && forall u :: t < u < |pts| ==> pts[u][p].a == pts[u][q].a
  }

  /** None of the last 32 ticks told them apart. */
  ghost predicate SameUses(pts: seq<Table>, p: int, q: int)
    requires forall k :: 0 <= k < |pts| ==> p in pts[k] && q in pts[k]
  {
    forall t :: |pts| - 32 <= t < |pts| && t >= 0 ==> pts[t][p].a == pts[t][q].a
  }

  /** The last 32 bits that the calls found, newest first. */
  ghost function Recent(pts: seq<Table>, p: int): (h: seq<bool>)
    requires |pts| >= 32 && forall k :: 0 <= k < |pts| ==> p in pts[k]
    ensures |h| == 32 && forall i :: 0 <= i < 32 ==> h[i] == pts[|pts| - 1 - i][p].a
  {
    var last := Found(pts, p)[|pts| - 32..];
    assert forall i :: 0 <= i < 32 ==> Newest(last)[i] == pts[|pts| - 1 - i][p].a by {
      forall i: nat | i < 32
        ensures Newest(last)[i] == pts[|pts| - 1 - i][p].a
      {
        NewestAt(last, i);
      }
    }
    Newest(last)
  }

  lemma AgeIsRecent(d: PageData, pts: seq<Table>)
    requires Stays(d, pts) && |pts| >= 32 && d.age < Pow2(32)
    ensures AfterTicks(d, pts).age == Value(Recent(pts, d.page))
  {
    AgeAfterTicks(d, pts);
    AgeIsHistory(d.age, Found(pts, d.page));
  }

  lemma LexIsRecent(pts: seq<Table>, p: int, q: int)
    requires |pts| >= 32 && forall k :: 0 <= k < |pts| ==> p in pts[k] && q in pts[k]
    ensures LexLess(Recent(pts, p), Recent(pts, q)) ==> LessRecent(pts, p, q)
    ensures Recent(pts, p) == Recent(pts, q) ==> SameUses(pts, p, q)
  {
    var n, s, t := |pts|, Recent(pts, p), Recent(pts, q);
    forall u | n - 32 <= u < n
      ensures pts[u][p].a == s[n - 1 - u] && pts[u][q].a == t[n - 1 - u]
    {
      assert n - 1 - (n - 1 - u) == u;
    }
    if LexLess(s, t) {
      var i := LexMeans(s, t);
      assert !pts[n - 1 - i][p].a && pts[n - 1 - i][q].a;
    }
  }

  lemma UsesAreOnes(pts: seq<Table>, p: int)
    requires |pts| >= 32 && forall k :: 0 <= k < |pts| ==> p in pts[k]
    ensures Ones(Value(Recent(pts, p)), 32) == Uses(pts, p)
  {
    var bits := Found(pts, p)[|pts| - 32..];
    var last: seq<Table> := pts[|pts| - 32..];
    OnesCount(Recent(pts, p));
    TruesNewest(bits);
    assert Trues(bits) == set t: nat | t < 32 && last[t][p].a;
  }

  lemma {:induction false} TruesNewest(s: seq<bool>)
    ensures |Trues(Newest(s))| == |Trues(s)|
  {
    if s == [] {
      assert Newest(s) == s;
    } else {
      TruesNewest(s[..|s| - 1]);
      TruesFirst(Newest(s));
      TruesLast(s);
      assert Newest(s)[1..] == Newest(s[..|s| - 1]);
    }
  }

  /** NFUA evicts the page that was used least recently: any other page either was
      used at the latest tick that told the two apart, or none did. */
  lemma NfuaEvictsLeastRecent(ram: seq<PageData>, pt: Table, k: nat, j: nat, dk: PageData, dj: PageData,
                              pts: seq<Table>)
    requires Tracked(ram, pt) && LeastAge(ram, pt, k) && j < |ram| && User(ram, pt, j) && |pts| >= 32
    requires Stays(dk, pts) && dk.age < Pow2(32) && ram[k] == AfterTicks(dk, pts)
    requires Stays(dj, pts) && dj.age < Pow2(32) && ram[j] == AfterTicks(dj, pts)
    ensures LessRecent(pts, ram[k].page, ram[j].page) || SameUses(pts, ram[k].page, ram[j].page)
  {
    AgeIsRecent(dk, pts);
    AgeIsRecent(dj, pts);
    ValueIsLex(Recent(pts, dk.page), Recent(pts, dj.page));
    LexIsRecent(pts, dk.page, dj.page);
  }

  /** LAPA evicts a page that was used in the fewest of the last 32 ticks, and of
      several the one used least recently. */
  lemma LapaEvictsLeastUsed(ram: seq<PageData>, pt: Table, k: nat, j: nat, dk: PageData, dj: PageData,
                            pts: seq<Table>)
    requires Tracked(ram, pt) && LeastLapa(ram, pt, k) && j < |ram| && User(ram, pt, j) && |pts| >= 32
    requires Stays(dk, pts) && dk.age < Pow2(32) && ram[k] == AfterTicks(dk, pts)
    requires Stays(dj, pts) && dj.age < Pow2(32) && ram[j] == AfterTicks(dj, pts)
    ensures Uses(pts, ram[k].page) <= Uses(pts, ram[j].page)
    ensures Uses(pts, ram[k].page) == Uses(pts, ram[j].page) ==>
              LessRecent(pts, ram[k].page, ram[j].page) || SameUses(pts, ram[k].page, ram[j].page)
  {
    AgeIsRecent(dk, pts);
    AgeIsRecent(dj, pts);
    UsesAreOnes(pts, dk.page);
    UsesAreOnes(pts, dj.page);
    ValueIsLex(Recent(pts, dk.page), Recent(pts, dj.page));
    LexIsRecent(pts, dk.page, dj.page);
  }

  /** SCFIFO evicts, of the user pages that were not accessed, the one with the least
      time, and the one with the least time of all if every page was accessed. */
  lemma ScfifoEvictsOldest(ram: seq<PageData>, pt: Table, counter: nat, k: nat, j: nat)
    requires Tracked(ram, pt) && NextInQueue(ram, pt, counter, k) && j < |ram| && User(ram, pt, j)
    ensures k < |ram| && pt[ram[k].page].u
    ensures if pt[ram[j].page].a then !pt[ram[k].page].a || ram[k].time <= ram[j].time
            else !pt[ram[k].page].a && ram[k].time <= ram[j].time
  {
    var acc := AccessedSet(ram, pt);
    var q :| IsQueue(q, ram, pt, counter) && q != [] && SecondChance(q, acc).0 == k;
    forall x, y | 0 <= x < y < |q|
      ensures q[x] != q[y]
    {
      assert ram[q[x]].time < ram[q[y]].time;
    }
    var n := FirstOut(q, acc);
    if n < |q| {
      FirstUnaccessedIsVictim(q, acc, n);
    } else {
      AllAccessedEvictsOldest(q, acc);
    }
    var y :| 0 <= y < |q| && q[y] == j;
    assert User(ram, pt, k);
  }

  /** The first place of q that is not in acc. */
  lemma {:induction false} FirstOut(q: seq<nat>, acc: set<nat>) returns (n: nat)
    ensures n <= |q| && (n < |q| ==> q[n] !in acc) && forall i :: 0 <= i < n ==> q[i] in acc
  {
    n := 0;
    while n < |q| && q[n] in acc
      invariant n <= |q| && forall i :: 0 <= i < n ==> q[i] in acc
    {
      n := n + 1;
    }
  }
}
