/** Demand paging of one process (kernel/vm.c, kernel/proc.c): up to 16 tracked
    pages in RAM, 16 slots in the swap file. A page's contents are in the frame
    its PTE names when V is set and in its swap slot when PG is set. T is the
    type of a page's contents. */
module Paging {
  import opened Policies

  const MAX_TOTAL_PAGES: nat := 32
  const PGSIZE: nat := 4096

  datatype Policy = SCFIFO | NFUA | LAPA

  /** The paging state of a process and the frames it can use. */
  datatype State<T> = State(
    pt: Table,             // user PTEs by page number; an absent page has a zero PTE
    mem: map<nat, T>,      // contents of physical frames
    free: seq<nat>,        // kmem.freelist
    ram: seq<PageData>,
    swap: seq<PageData>,
    file: seq<T>,          // the swap file, page by page
    counter: nat           // fifo_counter
  )

  /** remove_page */
  const EMPTY := PageData(false, -1, -1, 0, 0)

  // ----- the invariant -----

  /** p->ram and p->swap: unused entries are blank, used ones name distinct pages. */
  ghost predicate Slots(arr: seq<PageData>) {
    && |arr| == MAX_PSYC_PAGES
    && (forall i :: 0 <= i < |arr| ==> if arr[i].used then arr[i].page >= 0 else arr[i] == EMPTY)
    && (forall i, j :: 0 <= i < j < |arr| && arr[i].used && arr[j].used ==> arr[i].page != arr[j].page)
  }

  ghost predicate InRam(ram: seq<PageData>, pt: Table) {
    forall i {:trigger ram[i]} :: 0 <= i < |ram| && ram[i].used ==> ram[i].page in pt && pt[ram[i].page].v
  }

  /** A used swap entry names a paged-out page whose slot lies in the file. */
  ghost predicate InSwap(swap: seq<PageData>, pt: Table, n: nat) {
    forall i {:trigger swap[i]} :: 0 <= i < |swap| && swap[i].used ==>
      swap[i].page in pt && pt[swap[i].page].pg && i < n
  }

  ghost predicate Has(arr: seq<PageData>, p: int) {
    exists i :: 0 <= i < |arr| && arr[i].used && arr[i].page == p
  }

  /** A mapped page is present or paged out, never both; a paged-out page has a slot. */
  ghost predicate TableOk(pt: Table, swap: seq<PageData>) {
    && (forall p {:trigger pt[p].v} :: p in pt ==> p >= 0 && pt[p].v != pt[p].pg)
    && (forall p {:trigger Has(swap, p)} :: p in pt && pt[p].pg ==> Has(swap, p))
  }

  ghost predicate Owned(pt: Table, f: nat) {
    exists p :: p in pt && pt[p].v && pt[p].frame == f
  }

  /** Present pages have frames of their own, and no frame is lost: each is free
      or owned. */
  ghost predicate Frames(pt: Table, frames: set<nat>, free: seq<nat>) {
    && (forall p :: p in pt && pt[p].v ==> pt[p].frame in frames && pt[p].frame !in free)
    && (forall p, q :: p in pt && q in pt && pt[p].v && pt[q].v && pt[p].frame == pt[q].frame ==> p == q)
    && (forall i :: 0 <= i < |free| ==> free[i] in frames)
    && (forall i, j :: 0 <= i < j < |free| ==> free[i] != free[j])
    && (forall f {:trigger Owned(pt, f)} :: f in frames ==> f in free || Owned(pt, f))
  }

  /** Only the guard page below the stack is not a user page, and it stays in RAM. */
  ghost predicate Guard(pt: Table) {
    && (forall p, q :: p in pt && q in pt && !pt[p].u && !pt[q].u ==> p == q)
    && (forall p :: p in pt && pt[p].pg ==> pt[p].u)
  }

  ghost predicate Times(ram: seq<PageData>, counter: nat) {
    && (forall i :: 0 <= i < |ram| && ram[i].used ==> ram[i].time < counter)
    && (forall i, j :: 0 <= i < j < |ram| && ram[i].used && ram[j].used ==> ram[i].time != ram[j].time)
  }

  ghost predicate Valid<T>(s: State<T>, policy: Policy) {
    && Slots(s.ram) && Slots(s.swap) && InRam(s.ram, s.pt) && InSwap(s.swap, s.pt, |s.file|)
    && TableOk(s.pt, s.swap) && Frames(s.pt, s.mem.Keys, s.free) && Guard(s.pt)
    && (policy == SCFIFO ==> Times(s.ram, s.counter))
  }

  // ----- what the process sees -----

  ghost function SlotOf(swap: seq<PageData>, p: int): (i: nat)
    requires Has(swap, p)
    ensures i < |swap| && swap[i].used && swap[i].page == p
  {
    var i :| 0 <= i < |swap| && swap[i].used && swap[i].page == p;
    i
  }

  lemma SlotIs(swap: seq<PageData>, i: nat)
    requires Slots(swap) && i < |swap| && swap[i].used
    ensures Has(swap, swap[i].page) && SlotOf(swap, swap[i].page) == i
  {
  }

  ghost predicate Defined<T>(s: State<T>, p: int) {
    && p in s.pt && (s.pt[p].v ==> s.pt[p].frame in s.mem)
    && (!s.pt[p].v ==> Has(s.swap, p) && SlotOf(s.swap, p) < |s.file|)
  }

  ghost function Content<T>(s: State<T>, p: int): T
    requires Defined(s, p)
  {
    if s.pt[p].v then s.mem[s.pt[p].frame] else s.file[SlotOf(s.swap, p)]
  }

  ghost predicate Readable<T>(s: State<T>) {
    forall p {:trigger Defined(s, p)} :: p in s.pt ==> Defined(s, p)
  }

  lemma ValidReadable<T>(s: State<T>, policy: Policy)
    requires Valid(s, policy)
    ensures Readable(s)
  {
    forall p | p in s.pt
      ensures Defined(s, p)
    {
      if !s.pt[p].v {
        assert Has(s.swap, p);
        assert s.swap[SlotOf(s.swap, p)].used;
      }
    }
  }

  /** The process's memory, page by page. */
  ghost function View<T>(s: State<T>): (m: map<int, T>)
    requires Readable(s)
  {
    map p | p in s.pt :: assert Defined(s, p); Content(s, p)
  }

  // ----- how each step changes the parts of the invariant -----

  lemma SetSlot(arr: seq<PageData>, i: nat, d: PageData)
    requires Slots(arr) && i < |arr|
    requires d == EMPTY || (d.used && d.page >= 0 &&
                            forall j :: 0 <= j < |arr| && j != i && arr[j].used ==> arr[j].page != d.page)
    ensures Slots(arr[i := d])
  {
  }

  lemma KeepsHas(arr: seq<PageData>, i: nat, d: PageData, p: int)
    requires i < |arr| && Has(arr, p) && (arr[i].used ==> arr[i].page != p)
    ensures Has(arr[i := d], p)
  {
    var j :| 0 <= j < |arr| && arr[j].used && arr[j].page == p;
    assert arr[i := d][j] == arr[j];
  }

  /** The first free frame is mapped at p, which was not present. */
  lemma TakeFrame(pt: Table, frames: set<nat>, free: seq<nat>, p: int, e: Pte)
    requires Frames(pt, frames, free) && free != [] && (p in pt ==> !pt[p].v)
    requires e.v && e.frame == free[0]
    ensures Frames(pt[p := e], frames, free[1..])
  {
    var pt1, free1 := pt[p := e], free[1..];
    assert free == [free[0]] + free1;
    forall f | f in frames
      ensures f in free1 || Owned(pt1, f)
    {
      if f == e.frame {
        assert pt1[p].v && pt1[p].frame == f;
      } else if f !in free {
        assert Owned(pt, f);
        var q :| q in pt && pt[q].v && pt[q].frame == f;
        assert q in pt1 && pt1[q].v && pt1[q].frame == f;
      }
    }
  }

  /** The frame of p is freed; pt1 is pt without a present page at p. */
  lemma GiveFrame(pt: Table, frames: set<nat>, free: seq<nat>, p: int, pt1: Table)
    requires Frames(pt, frames, free) && p in pt && pt[p].v
    requires p in pt1 ==> !pt1[p].v
    requires forall q :: q != p ==> (q in pt1 <==> q in pt)
    requires forall q :: q in pt1 && q != p ==> pt1[q] == pt[q]
    ensures Frames(pt1, frames, [pt[p].frame] + free)
  {
    var g, free1 := pt[p].frame, [pt[p].frame] + free;
    forall f | f in frames
      ensures f in free1 || Owned(pt1, f)
    {
      if f != g && f !in free {
        assert Owned(pt, f);
        var q :| q in pt && pt[q].v && pt[q].frame == f;
        assert q in pt1 && pt1[q].v && pt1[q].frame == f;
      }
    }
    assert forall f :: f in free1 <==> f == g || f in free;
  }

  // ----- swapping in -----

  /** The entry of p->ram for a page that enters RAM, under each policy. */
  function NewEntry(policy: Policy, p: int, counter: nat): PageData {
    PageData(true, p, -1, if policy == LAPA then 0xFFFF_FFFF else 0, if policy == SCFIFO then counter else 0)
  }

  /** Under LAPA a page that has just come in counts as used in all of 32 ticks, and
      is not evicted while another user page counts fewer. */
  lemma LapaKeepsNewcomer(ram: seq<PageData>, pt: Table, p: int, counter: nat, i: nat, j: nat)
    requires Tracked(ram, pt) && i < |ram| && j < |ram| && ram[i] == NewEntry(LAPA, p, counter) && User(ram, pt, j)
    ensures Ones(ram[i].age, 32) == 32 >= Ones(ram[j].age, 32)
    ensures Ones(ram[j].age, 32) < 32 ==> !LeastLapa(ram, pt, i)
  {
    TopBit();
    AllOnes(32);
    OnesBound(ram[j].age, 32);
  }

  /** Under NFUA it counts as never used, and no page is evicted before it that was
      used in the ticks its age remembers. */
  lemma NfuaDropsNewcomer(ram: seq<PageData>, pt: Table, p: int, counter: nat, i: nat, k: nat)
    requires Tracked(ram, pt) && i < |ram| && ram[i] == NewEntry(NFUA, p, counter) && User(ram, pt, i)
    requires LeastAge(ram, pt, k)
    ensures ram[k].age == 0 && k <= i
  {
  }

  /** Under SCFIFO it is the last of the queue. */
  lemma ScfifoQueuesNewcomer(ram: seq<PageData>, pt: Table, counter: nat, i: nat, q: seq<nat>)
    requires Tracked(ram, pt) && i < |ram| && User(ram, pt, i) && Times(ram, counter)
    requires forall j :: 0 <= j < |ram| ==> ram[j].used
    requires var ram1 := ram[i := NewEntry(SCFIFO, ram[i].page, counter)];
             IsQueue(q, ram1, pt, NextCounter(SCFIFO, counter))
    ensures q != [] && q[|q| - 1] == i
  {
    var ram1 := ram[i := NewEntry(SCFIFO, ram[i].page, counter)];
    assert User(ram1, pt, i);
    LatestIsLast(ram1, q, i);
  }

  lemma LatestIsLast(ram: seq<PageData>, q: seq<nat>, i: nat)
    requires forall k :: 0 <= k < |q| ==> q[k] < |ram|
    requires i in q && i < |ram| && forall k :: 0 <= k < |q| ==> ram[q[k]].time <= ram[i].time
    requires forall j, k :: 0 <= j < k < |q| ==> ram[q[j]].time < ram[q[k]].time
    ensures q[|q| - 1] == i
  {
  }

  function NextCounter(policy: Policy, counter: nat): nat {
    if policy == SCFIFO then counter + 1 else counter
  }

  /** swapfile_to_ram: page p moves from swap slot `slot` to a new frame and to
      entry ri of p->ram. */
  function SwapIn<T>(s: State<T>, policy: Policy, p: int, ri: nat, slot: nat): (r: State<T>)
    requires s.free != [] && ri < |s.ram| && slot < |s.swap| && slot < |s.file|
  {
    var f := s.free[0];
    State(s.pt[p := Pte(f, true, true, false, false)], s.mem[f := s.file[slot]], s.free[1..],
          s.ram[ri := NewEntry(policy, p, s.counter)], s.swap[slot := EMPTY], s.file, NextCounter(policy, s.counter))
  }

  lemma SwapInValid<T>(s: State<T>, policy: Policy, p: int, ri: nat, slot: nat)
    requires Valid(s, policy) && s.free != [] && ri < |s.ram| && !s.ram[ri].used
    requires slot < |s.swap| && s.swap[slot].used && s.swap[slot].page == p
    ensures slot < |s.file| && Valid(SwapIn(s, policy, p, ri, slot), policy)
  {
    var r := SwapIn(s, policy, p, ri, slot);
    SetSlot(s.ram, ri, r.ram[ri]);
    SetSlot(s.swap, slot, EMPTY);
    TakeFrame(s.pt, s.mem.Keys, s.free, p, r.pt[p]);
    assert r.mem.Keys == s.mem.Keys;
    forall q | q in r.pt && r.pt[q].pg
      ensures Has(r.swap, q)
    {
      assert Has(s.swap, q);
      KeepsHas(s.swap, slot, EMPTY, q);
    }
  }

  /** A slot that still holds its page after an update elsewhere. */
  lemma SameSlot(swap: seq<PageData>, swap1: seq<PageData>, p: int, i: nat)
    requires Slots(swap) && Slots(swap1) && Has(swap, p) && i < |swap| && swap1 == swap[i := swap1[i]]
    requires swap[i].used ==> swap[i].page != p
    ensures Has(swap1, p) && SlotOf(swap1, p) == SlotOf(swap, p) != i
  {
    var j := SlotOf(swap, p);
    assert swap1[j] == swap[j];
    SlotIs(swap1, j);
  }

  /** A page that does not move keeps its contents: other frames in use and other
      slots are not written. */
  lemma KeptContent<T>(s: State<T>, r: State<T>, policy: Policy, q: int, slot: nat)
    requires Defined(s, q) && Defined(r, q) && s.pt[q] == r.pt[q] && (s.pt[q].v || s.pt[q].pg)
    requires s.pt[q].v ==> r.mem[s.pt[q].frame] == s.mem[s.pt[q].frame]
    requires Slots(s.swap) && Slots(r.swap) && slot < |s.swap| && r.swap == s.swap[slot := r.swap[slot]]
    requires s.swap[slot].used ==> s.swap[slot].page != q
    requires forall i :: 0 <= i < |s.file| && i != slot ==> i < |r.file| && r.file[i] == s.file[i]
    ensures Content(r, q) == Content(s, q)
  {
    if !s.pt[q].v { SameSlot(s.swap, r.swap, q, slot); }
  }

  lemma SameView<T>(s: State<T>, r: State<T>)
    requires Readable(s) && Readable(r) && r.pt.Keys == s.pt.Keys
    requires forall q :: q in s.pt ==> Defined(s, q) && Defined(r, q) && Content(r, q) == Content(s, q)
    ensures View(r) == View(s)
  {
  }

  lemma SwapInView<T>(s: State<T>, policy: Policy, p: int, ri: nat, slot: nat)
    requires Valid(s, policy) && s.free != [] && ri < |s.ram| && !s.ram[ri].used
    requires slot < |s.swap| && s.swap[slot].used && s.swap[slot].page == p && slot < |s.file|
    requires Valid(SwapIn(s, policy, p, ri, slot), policy)
    ensures Readable(s) && Readable(SwapIn(s, policy, p, ri, slot)) && View(SwapIn(s, policy, p, ri, slot)) == View(s)
  {
    var r := SwapIn(s, policy, p, ri, slot);
    assert r.pt.Keys == s.pt.Keys;
    ValidReadable(s, policy);
    ValidReadable(r, policy);
    SlotIs(s.swap, slot);
    forall q | q in s.pt
      ensures Content(r, q) == Content(s, q)
    {
      if q != p { KeptContent(s, r, policy, q, slot); }
    }
    SameView(s, r);
  }

  // ----- swapping out -----

  /** The swap file after a page is written at a slot inside it or at its end. */
  function Stored<T>(file: seq<T>, slot: nat, x: T): seq<T>
    requires slot <= |file|
  {
    if slot < |file| then file[slot := x] else file + [x]
  }

  function OutEntry(p: int, slot: nat): PageData {
    PageData(true, p, slot * PGSIZE, 0, 0)
  }

  /** swap_pages for a growing process: page p of entry ri goes to the free slot.
      The kernel's copy buffer is the first free frame, which it gives back. */
  function Evict<T>(s: State<T>, p: int, ri: nat, slot: nat, junk: T): (r: State<T>)
    requires p in s.pt && s.pt[p].frame in s.mem && s.free != [] && ri < |s.ram|
    requires slot < |s.swap| && slot <= |s.file|
  {
    var g := s.pt[p].frame;
    s.(pt := s.pt[p := s.pt[p].(v := false, pg := true)], mem := s.mem[s.free[0] := junk][g := junk],
       free := [g] + s.free, ram := s.ram[ri := EMPTY], swap := s.swap[slot := OutEntry(p, slot)],
       file := Stored(s.file, slot, s.mem[g]))
  }

  lemma EvictValid<T>(s: State<T>, policy: Policy, p: int, ri: nat, slot: nat, junk: T)
    requires Valid(s, policy) && s.free != [] && ri < |s.ram| && s.ram[ri].used && s.ram[ri].page == p
    requires p in s.pt && s.pt[p].u && slot < |s.swap| && slot <= |s.file| && !s.swap[slot].used
    ensures s.pt[p].frame in s.mem && Valid(Evict(s, p, ri, slot, junk), policy)
  {
    var r := Evict(s, p, ri, slot, junk);
    SetSlot(s.ram, ri, EMPTY);
    assert forall i :: 0 <= i < |s.swap| && s.swap[i].used ==> s.pt[s.swap[i].page].pg;
    SetSlot(s.swap, slot, r.swap[slot]);
    GiveFrame(s.pt, s.mem.Keys, s.free, p, r.pt);
    assert s.free[0] in s.mem;
    assert r.mem.Keys == s.mem.Keys;
    forall q | q in r.pt && r.pt[q].pg
      ensures Has(r.swap, q)
    {
      if q == p {
        assert r.swap[slot].used && r.swap[slot].page == p;
      } else {
        assert Has(s.swap, q);
        KeepsHas(s.swap, slot, r.swap[slot], q);
      }
    }
  }

  lemma EvictView<T>(s: State<T>, policy: Policy, p: int, ri: nat, slot: nat, junk: T)
    requires Valid(s, policy) && s.free != [] && ri < |s.ram| && s.ram[ri].used && s.ram[ri].page == p
    requires p in s.pt && s.pt[p].u && slot < |s.swap| && slot <= |s.file| && !s.swap[slot].used
    requires s.pt[p].frame in s.mem && Valid(Evict(s, p, ri, slot, junk), policy)
    ensures Readable(s) && Readable(Evict(s, p, ri, slot, junk)) && View(Evict(s, p, ri, slot, junk)) == View(s)
  {
    var r := Evict(s, p, ri, slot, junk);
    assert r.pt.Keys == s.pt.Keys;
    ValidReadable(s, policy);
    ValidReadable(r, policy);
    SlotIs(r.swap, slot);
    forall q | q in s.pt
      ensures Content(r, q) == Content(s, q)
    {
      if q != p { KeptContent(s, r, policy, q, slot); }
    }
    SameView(s, r);
  }

  /** swap_pages on a page fault: page `into` comes in from its slot, page `out` of
      entry ri takes the slot just emptied. */
  function Exchange<T>(s: State<T>, policy: Policy, into: int, out: int, ri: nat, slot: nat, junk: T): (r: State<T>)
    requires out in s.pt && s.pt[out].frame in s.mem && |s.free| >= 2 && ri < |s.ram|
    requires slot < |s.swap| && slot < |s.file|
  {
    var f, t, g := s.free[0], s.free[1], s.pt[out].frame;
    State(s.pt[out := s.pt[out].(v := false, pg := true)][into := Pte(f, true, true, false, false)],
          s.mem[f := s.file[slot]][t := junk][g := junk], [g] + s.free[1..],
          s.ram[ri := NewEntry(policy, into, s.counter)], s.swap[slot := OutEntry(out, slot)],
          s.file[slot := s.mem[g]], NextCounter(policy, s.counter))
  }

  lemma ExchangeValid<T>(s: State<T>, policy: Policy, into: int, out: int, ri: nat, slot: nat, junk: T)
    requires Valid(s, policy) && |s.free| >= 2 && ri < |s.ram| && s.ram[ri].used && s.ram[ri].page == out
    requires out in s.pt && s.pt[out].u && slot < |s.swap| && s.swap[slot].used && s.swap[slot].page == into
    ensures s.pt[out].frame in s.mem && slot < |s.file|
    ensures Valid(Exchange(s, policy, into, out, ri, slot, junk), policy)
  {
    var r := Exchange(s, policy, into, out, ri, slot, junk);
    var pt1 := s.pt[into := r.pt[into]];
    assert into in s.pt && s.pt[into].pg && into != out;
    SetSlot(s.ram, ri, r.ram[ri]);
    assert forall i :: 0 <= i < |s.swap| && s.swap[i].used ==> s.pt[s.swap[i].page].pg;
    SetSlot(s.swap, slot, r.swap[slot]);
    TakeFrame(s.pt, s.mem.Keys, s.free, into, r.pt[into]);
    GiveFrame(pt1, s.mem.Keys, s.free[1..], out, r.pt);
    assert s.free[0] in s.mem && s.free[1] in s.mem;
    assert r.mem.Keys == s.mem.Keys;
    ExchangeTable(s.pt, s.swap, r.pt, into, out, slot, r.swap[slot]);
  }

  /** The victim is found in the slot that the other page has left. */
  lemma ExchangeTable(pt: Table, swap: seq<PageData>, pt1: Table, into: int, out: int, slot: nat, d: PageData)
    requires TableOk(pt, swap) && Slots(swap) && slot < |swap| && swap[slot].used && swap[slot].page == into && d.used
    requires d.page == out
    requires into in pt && out in pt && into != out && pt1.Keys == pt.Keys
    requires forall q :: q in pt && q != into && q != out ==> pt1[q] == pt[q]
    requires pt1[into].v && !pt1[into].pg && !pt1[out].v && pt1[out].pg
    ensures TableOk(pt1, swap[slot := d])
  {
    forall q | q in pt1
      ensures q >= 0 && pt1[q].v != pt1[q].pg && (pt1[q].pg ==> Has(swap[slot := d], q))
    {
      assert pt[q].v != pt[q].pg;
      if q == out {
        assert swap[slot := d][slot].used && swap[slot := d][slot].page == out;
      } else if pt1[q].pg {
        assert Has(swap, q);
        KeepsHas(swap, slot, d, q);
      }
    }
  }

  lemma ExchangeContent<T>(s: State<T>, policy: Policy, into: int, out: int, ri: nat, slot: nat, junk: T, q: int)
    requires Valid(s, policy) && |s.free| >= 2 && ri < |s.ram| && s.ram[ri].used && s.ram[ri].page == out
    requires out in s.pt && s.pt[out].u && slot < |s.swap| && s.swap[slot].used && s.swap[slot].page == into
    requires s.pt[out].frame in s.mem && slot < |s.file|
    requires var r := Exchange(s, policy, into, out, ri, slot, junk);
             Slots(r.swap) && Defined(s, q) && Defined(r, q)
    ensures Content(Exchange(s, policy, into, out, ri, slot, junk), q) == Content(s, q)
  {
    var r := Exchange(s, policy, into, out, ri, slot, junk);
    assert s.pt[into].pg && into != out;
    if q == into {
      SlotIs(s.swap, slot);
    } else if q == out {
      SlotIs(r.swap, slot);
    } else {
      KeptContent(s, r, policy, q, slot);
    }
  }

  lemma ExchangeView<T>(s: State<T>, policy: Policy, into: int, out: int, ri: nat, slot: nat, junk: T)
    requires Valid(s, policy) && |s.free| >= 2 && ri < |s.ram| && s.ram[ri].used && s.ram[ri].page == out
    requires out in s.pt && s.pt[out].u && slot < |s.swap| && s.swap[slot].used && s.swap[slot].page == into
    requires s.pt[out].frame in s.mem && slot < |s.file|
    requires Valid(Exchange(s, policy, into, out, ri, slot, junk), policy)
    ensures Readable(s) && Readable(Exchange(s, policy, into, out, ri, slot, junk))
    ensures View(Exchange(s, policy, into, out, ri, slot, junk)) == View(s)
  {
    var r := Exchange(s, policy, into, out, ri, slot, junk);
    assert r.pt.Keys == s.pt.Keys;
    ValidReadable(s, policy);
    ValidReadable(r, policy);
    forall q | q in s.pt {
      ExchangeContent(s, policy, into, out, ri, slot, junk, q);
    }
    SameView(s, r);
  }

  // ----- growing and shrinking -----

  /** uvmalloc's mapping of one new page: a zeroed frame, tracked in entry ri. */
  function Grow<T>(s: State<T>, policy: Policy, p: int, ri: nat, zero: T): (r: State<T>)
    requires s.free != [] && ri < |s.ram|
  {
    var f := s.free[0];
    s.(pt := s.pt[p := Pte(f, true, true, false, false)], mem := s.mem[f := zero], free := s.free[1..],
       ram := s.ram[ri := NewEntry(policy, p, s.counter)], counter := NextCounter(policy, s.counter))
  }

  lemma GrowValid<T>(s: State<T>, policy: Policy, p: int, ri: nat, zero: T)
    requires Valid(s, policy) && s.free != [] && ri < |s.ram| && !s.ram[ri].used && p >= 0 && p !in s.pt
    ensures Valid(Grow(s, policy, p, ri, zero), policy)
  {
    var r := Grow(s, policy, p, ri, zero);
    SetSlot(s.ram, ri, r.ram[ri]);
    TakeFrame(s.pt, s.mem.Keys, s.free, p, r.pt[p]);
    assert r.mem.Keys == s.mem.Keys;
    forall q | q in r.pt && r.pt[q].pg
      ensures Has(r.swap, q)
    {
      assert Has(s.swap, q);
    }
  }

  lemma GrowView<T>(s: State<T>, policy: Policy, p: int, ri: nat, zero: T)
    requires Valid(s, policy) && s.free != [] && ri < |s.ram| && !s.ram[ri].used && p >= 0 && p !in s.pt
    requires Valid(Grow(s, policy, p, ri, zero), policy)
    ensures Readable(s) && Readable(Grow(s, policy, p, ri, zero))
    ensures View(Grow(s, policy, p, ri, zero)) == View(s)[p := zero]
  {
    var r := Grow(s, policy, p, ri, zero);
    ValidReadable(s, policy);
    ValidReadable(r, policy);
    forall q | q in s.pt
      ensures Content(r, q) == Content(s, q)
    {
      assert Defined(s, q) && Defined(r, q);
    }
    assert Defined(r, p);
  }

  /** The entries of arr that do not name page p; remove_page blanks the rest. */
  function Blank(arr: seq<PageData>, p: int): (r: seq<PageData>) {
    seq(|arr|, i requires 0 <= i < |arr| => if arr[i].page == p then EMPTY else arr[i])
  }

  /** uvmunmap of one page. */
  function Drop<T>(s: State<T>, p: int, junk: T): (r: State<T>)
    requires p in s.pt
  {
    var s1 := s.(pt := s.pt - {p}, ram := Blank(s.ram, p), swap := Blank(s.swap, p));
    if s.pt[p].pg then s1
    else s1.(mem := s.mem[s.pt[p].frame := junk], free := [s.pt[p].frame] + s.free)
  }

  lemma BlankHas(arr: seq<PageData>, p: int, q: int)
    requires Has(arr, q) && q != p
    ensures Has(Blank(arr, p), q)
  {
    var j :| 0 <= j < |arr| && arr[j].used && arr[j].page == q;
    assert Blank(arr, p)[j] == arr[j];
  }

  lemma DropFrames(pt: Table, frames: set<nat>, free: seq<nat>, p: int)
    requires Frames(pt, frames, free) && p in pt && !pt[p].v
    ensures Frames(pt - {p}, frames, free)
  {
    forall f | f in frames
      ensures f in free || Owned(pt - {p}, f)
    {
      assert f in free || Owned(pt, f);
      if f !in free {
        var q :| q in pt && pt[q].v && pt[q].frame == f;
        assert q in pt - {p};
      }
    }
  }

  lemma DropValid<T>(s: State<T>, policy: Policy, p: int, junk: T)
    requires Valid(s, policy) && p in s.pt
    ensures Valid(Drop(s, p, junk), policy)
  {
    var r := Drop(s, p, junk);
    assert s.pt[p].v != s.pt[p].pg && p >= 0;
    if s.pt[p].pg {
      DropFrames(s.pt, s.mem.Keys, s.free, p);
    } else {
      GiveFrame(s.pt, s.mem.Keys, s.free, p, r.pt);
      assert r.mem.Keys == s.mem.Keys;
    }
    DropTable(s.pt, s.swap, r.pt, r.swap, p);
  }

  lemma DropTable(pt: Table, swap: seq<PageData>, pt1: Table, swap1: seq<PageData>, p: int)
    requires TableOk(pt, swap) && p in pt && pt1 == pt - {p} && swap1 == Blank(swap, p)
    ensures TableOk(pt1, swap1)
  {
    forall q | q in pt1 && pt1[q].pg
      ensures Has(swap1, q)
    {
      assert Has(swap, q);
      BlankHas(swap, p, q);
    }
  }

  lemma DropView<T>(s: State<T>, policy: Policy, p: int, junk: T)
    requires Valid(s, policy) && p in s.pt && Valid(Drop(s, p, junk), policy)
    ensures Readable(s) && Readable(Drop(s, p, junk)) && View(Drop(s, p, junk)) == View(s) - {p}
  {
    var r := Drop(s, p, junk);
    ValidReadable(s, policy);
    ValidReadable(r, policy);
    forall q | q in r.pt
      ensures Content(r, q) == Content(s, q)
    {
      assert Defined(s, q) && Defined(r, q);
      if !s.pt[q].v {
        var j := SlotOf(s.swap, q);
        assert r.swap[j] == s.swap[j];
        SlotIs(r.swap, j);
      }
    }
  }

  // ----- counting: why a victim and a slot are always there -----

  ghost function PageSet(arr: seq<PageData>, n: nat): set<int>
    requires n <= |arr|
  {
    set i | 0 <= i < n :: arr[i].page
  }

  lemma {:induction false} PageSetSize(arr: seq<PageData>, n: nat)
    requires n <= |arr| && forall i, j :: 0 <= i < j < |arr| ==> arr[i].page != arr[j].page
    ensures |PageSet(arr, n)| == n
  {
    if n > 0 {
      PageSetSize(arr, n - 1);
      assert PageSet(arr, n) == PageSet(arr, n - 1) + {arr[n - 1].page};
    }
  }

  lemma SubsetSize(a: set<int>, b: set<int>)
    requires a <= b
    ensures |a| <= |b|
  {
    assert b == a + (b - a);
  }

  /** Under the 32-page limit RAM and swap cannot both be full before growth. */
  lemma SlotIsFree<T>(s: State<T>, policy: Policy)
    requires Valid(s, policy) && |s.pt| < MAX_TOTAL_PAGES && forall i :: 0 <= i < |s.ram| ==> s.ram[i].used
    ensures exists i :: 0 <= i < |s.swap| && !s.swap[i].used
  {
    if forall i :: 0 <= i < |s.swap| ==> s.swap[i].used {
      var a, b := PageSet(s.ram, 16), PageSet(s.swap, 16);
      PageSetSize(s.ram, 16);
      PageSetSize(s.swap, 16);
      assert a !! b;
      SubsetSize(a + b, s.pt.Keys);
      assert false;
    }
  }

  /** The first unused slot is inside the swap file or just at its end, so that
      writei does not reject the write. */
  lemma FirstFitInFile(swap: seq<PageData>, pt: Table, n: nat, slot: nat)
    requires InSwap(swap, pt, n) && slot < |swap| && forall i :: 0 <= i < slot ==> swap[i].used
    ensures slot <= n
  {
    if slot > 0 { assert swap[slot - 1].used; }
  }

  /** A full p->ram holds a user page: only the guard page is not one. */
  lemma UserInRam<T>(s: State<T>, policy: Policy)
    requires Valid(s, policy) && forall i :: 0 <= i < |s.ram| ==> s.ram[i].used
    ensures Tracked(s.ram, s.pt) && DistinctPages(s.ram) && SomeUser(s.ram, s.pt)
  {
    assert s.ram[0].page != s.ram[1].page;
    assert s.ram[0].page in s.pt && s.ram[1].page in s.pt;
    assert User(s.ram, s.pt, 0) || User(s.ram, s.pt, 1);
  }

  // ----- the policies only touch times, ages and accessed bits -----

  ghost predicate SameEntries(arr: seq<PageData>, arr1: seq<PageData>) {
    |arr1| == |arr| && forall i :: 0 <= i < |arr| ==>
      arr1[i].used == arr[i].used && arr1[i].page == arr[i].page && (!arr[i].used ==> arr1[i] == arr[i])
  }

  lemma PolicyFrames(pt: Table, pt1: Table, frames: set<nat>, free: seq<nat>)
    requires Frames(pt, frames, free) && SameButAccessed(pt, pt1)
    ensures Frames(pt1, frames, free)
  {
    forall f | f in frames
      ensures f in free || Owned(pt1, f)
    {
      assert f in free || Owned(pt, f);
      if f !in free {
        var q :| q in pt && pt[q].v && pt[q].frame == f;
        assert q in pt1 && pt1[q].v && pt1[q].frame == f;
      }
    }
  }

  lemma PolicyValid<T>(s: State<T>, policy: Policy, ram1: seq<PageData>, pt1: Table, counter1: nat)
    requires Valid(s, policy) && SameEntries(s.ram, ram1) && SameButAccessed(s.pt, pt1)
    requires policy == SCFIFO ==> Times(ram1, counter1)
    ensures Valid(s.(ram := ram1, pt := pt1, counter := counter1), policy)
  {
    PolicyFrames(s.pt, pt1, s.mem.Keys, s.free);
    forall q | q in pt1 && pt1[q].pg
      ensures Has(s.swap, q)
    {
    }
  }

  lemma PolicyKeeps<T>(s: State<T>, policy: Policy, ram1: seq<PageData>, pt1: Table, counter1: nat)
    requires Valid(s, policy) && SameEntries(s.ram, ram1) && SameButAccessed(s.pt, pt1)
    requires policy == SCFIFO ==> Times(ram1, counter1)
    ensures var r := s.(ram := ram1, pt := pt1, counter := counter1);
            Valid(r, policy) && Readable(s) && Readable(r) && View(r) == View(s)
  {
    var r := s.(ram := ram1, pt := pt1, counter := counter1);
    PolicyValid(s, policy, ram1, pt1, counter1);
    ValidReadable(s, policy);
    ValidReadable(r, policy);
    assert forall q :: q in s.pt ==> Defined(s, q) && Defined(r, q) && Content(r, q) == Content(s, q);
    SameView(s, r);
  }

  lemma ScfifoTimes(ram: seq<PageData>, pt: Table, counter: nat, ram1: seq<PageData>, pt1: Table, counter1: nat,
                    q1: seq<nat>)
    requires Tracked(ram, pt) && Tracked(ram1, pt1) && Times(ram, counter) && forall i :: 0 <= i < |ram| ==> ram[i].used
    requires Carried(ram, pt, counter, ram1, pt1, counter1)
    requires IsQueue(q1, ram1, pt1, counter1)
    ensures Times(ram1, counter1)
  {
    forall i | 0 <= i < |ram|
      ensures ram1[i].time < counter1
    {
      if User(ram1, pt1, i) { assert i in q1; }
    }
    forall i, j | 0 <= i < j < |ram|
      ensures ram1[i].time != ram1[j].time
    {
      if User(ram1, pt1, i) && User(ram1, pt1, j) {
        assert i in q1 && j in q1;
        var a :| 0 <= a < |q1| && q1[a] == i;
        var b :| 0 <= b < |q1| && q1[b] == j;
        assert a < b || b < a;
      }
    }
  }
}
