/** The paging code run step by step: the fields of struct proc and the loops of
    kernel/vm.c and kernel/proc.c, each tied to the state change that module
    Paging describes. */
module PagedProcess {
  import opened Basics
  import opened Policies
  import opened Paging

  function PageCount(sz: nat): nat {
    (sz + PGSIZE - 1) / PGSIZE
  }

  /** The mapped pages are the first n. */
  ghost predicate Dense(pt: Table, n: nat) {
    forall q :: q in pt <==> 0 <= q < n
  }

  class Process<T(!new)> {
    const policy: Policy
    const zero: T
    const junk: T        // what kalloc and kfree fill a page with
    var pt: Table
    var mem: map<nat, T>
    var free: seq<nat>
    var ram: seq<PageData>
    var swap: seq<PageData>
    var file: seq<T>
    var counter: nat
    var sz: nat
    var killed: bool
    ghost var view: Memory<T>   // what the process sees

    /** A process in any state that satisfies the invariant. */
    constructor (policy: Policy, zero: T, junk: T, s: State<T>, sz: nat)
      requires Valid(s, policy) && Dense(s.pt, PageCount(sz)) && PageCount(sz) <= MAX_TOTAL_PAGES
      ensures this.policy == policy && this.zero == zero && this.junk == junk
      ensures S() == s && this.sz == sz && !killed && Ok()
      ensures Readable(s) && view == Memory(View(s), Users(s.pt), s.mem.Keys)
    {
      ValidReadable(s, policy);
      this.policy, this.zero, this.junk := policy, zero, junk;
      pt, mem, free, ram, swap, file, counter := s.pt, s.mem, s.free, s.ram, s.swap, s.file, s.counter;
      this.sz, killed := sz, false;
      view := Memory(View(s), Users(s.pt), s.mem.Keys);
    }

    ghost function S(): State<T>
      reads this
    {
      State(pt, mem, free, ram, swap, file, counter)
    }

    ghost predicate Fine()
      reads this
    {
      Shows(S(), policy, view)
    }

    ghost predicate Ok()
      reads this
    {
      Fine() && Dense(pt, PageCount(sz)) && PageCount(sz) <= MAX_TOTAL_PAGES
    }

    /** The free frames and the used entries of p->ram. */
    ghost function Room(): Spare
      reads this
    {
      Spare(|free|, Used(ram))
    }

    // ----- searches over p->ram and p->swap -----

    static method FindPage(arr: seq<PageData>, p: int) returns (i: nat)
      ensures i <= |arr| && (i < |arr| ==> arr[i].page == p) && forall j :: 0 <= j < i ==> arr[j].page != p
    {
      i := 0;
      while i < |arr| && arr[i].page != p
        invariant 0 <= i <= |arr| && forall j :: 0 <= j < i ==> arr[j].page != p
      {
        i := i + 1;
      }
    }

    static method FindUnused(arr: seq<PageData>) returns (i: nat)
      ensures i <= |arr| && (i < |arr| ==> !arr[i].used) && forall j :: 0 <= j < i ==> arr[j].used
    {
      i := 0;
      while i < |arr| && arr[i].used
        invariant 0 <= i <= |arr| && forall j :: 0 <= j < i ==> arr[j].used
      {
        i := i + 1;
      }
    }

    /** count_pages */
    static method CountPages(arr: seq<PageData>) returns (n: nat)
      ensures n == Used(arr) <= |arr| && (n == |arr| <==> forall i :: 0 <= i < |arr| ==> arr[i].used)
    {
      n := 0;
      var i := 0;
      while i < |arr|
        invariant 0 <= i <= |arr| && n == Used(arr[..i]) <= i && (n == i <==> forall j :: 0 <= j < i ==> arr[j].used)
      {
        assert arr[..i + 1][..i] == arr[..i];
        if arr[i].used { n := n + 1; }
        i := i + 1;
      }
      assert arr[..i] == arr;
    }

    // ----- physical pages -----

    /** kalloc, when there is a page. */
    method Kalloc() returns (f: nat)
      requires free != []
      modifies `free, `mem
      ensures f == old(free)[0] && free == old(free)[1..] && mem == old(mem)[f := junk]
    {
      f := free[0];
      free := free[1..];
      mem := mem[f := junk];
    }

    method Kfree(f: nat)
      modifies `free, `mem
      ensures free == [f] + old(free) && mem == old(mem)[f := junk]
    {
      mem := mem[f := junk];
      free := [f] + free;
    }

    // ----- moving pages -----

    /** swapfile_to_ram. False is the panic for a page that has no slot, or the
        use of the null page that kalloc returns when memory is out. */
    method SwapfileToRam(p: int, ri: nat) returns (ok: bool, slot: nat)
      requires ri < |ram| && p in pt && !pt[p].v
      modifies `pt, `mem, `free, `ram, `swap, `counter
      ensures slot <= |old(swap)| && (slot < |old(swap)| ==> old(swap)[slot].page == p)
      ensures forall j :: 0 <= j < slot ==> old(swap)[j].page != p
      ensures ok <==> slot < |old(swap)| && old(free) != []
      ensures ok && slot < |file| ==> S() == SwapIn(old(S()), policy, p, ri, slot)
    {
      slot := FindPage(swap, p);
      if slot == |swap| || free == [] {
        return false, slot;
      }
      var f := Kalloc();
      if slot < |file| {
        mem := mem[f := file[slot]];
      }
      ram := ram[ri := NewEntry(policy, p, counter)];
      counter := NextCounter(policy, counter);
      pt := pt[p := Pte(f, true, true, false, false)];
      swap := swap[slot := EMPTY];
      ok := true;
    }

    /** The second half of swap_pages: page `out`, already unmapped, is written to
        a slot and its frame is freed. */
    method WriteOut(out: int, k: nat)
      requires free != [] && out in pt && pt[out].frame in mem && pt[out].frame != free[0]
      requires k < |swap| && k <= |file|
      modifies `pt, `mem, `free, `swap, `file
      ensures S() == WrittenOut(old(S()), out, k, junk)
      ensures swap[k].used && swap[k].page == out && swap[k].offset == k * 4096
      ensures k < |file| && file[k] == old(mem)[old(pt)[out].frame]
              && forall j :: 0 <= j < |old(file)| && j != k ==> file[j] == old(file)[j]
    {
      var page := Kalloc();
      mem := mem[page := mem[pt[out].frame]];
      file := Stored(file, k, mem[page]);
      Kfree(page);
      swap := swap[k := swap[k].(used := true, page := out, offset := k * PGSIZE)];
      pt := pt[out := pt[out].(pg := true)];
      Kfree(pt[out].frame);
      assert mem == old(mem)[page := junk][pt[out].frame := junk];
      assert free == [pt[out].frame] + old(free);
    }

    /** swap_pages on a fault: `out` leaves RAM, `into` takes its place and its slot. */
    method SwapPagesIn(into: int, out: int) returns (ok: bool, ri: nat, ghost slot: nat)
      requires Valid(S(), policy) && out in pt && pt[out].u && Has(ram, out) && Has(swap, into)
      modifies `pt, `mem, `free, `ram, `swap, `file, `counter
      ensures ok <==> |old(free)| >= 2
      ensures ok ==> ri < |old(ram)| && old(ram)[ri].used && old(ram)[ri].page == out
                     && slot < |old(swap)| && old(swap)[slot].used && old(swap)[slot].page == into && slot < |old(file)|
                     && old(pt)[out].frame in old(mem)
                     && S() == Exchange(old(S()), policy, into, out, ri, slot, junk)
    {
      ExchangeReady(S(), policy, into, out);
      ri := FindPage(ram, out);
      slot := SlotOf(swap, into);
      pt := pt[out := pt[out].(v := false)];
      ram := ram[ri := EMPTY];
      var k;
      ok, k := SwapfileToRam(into, ri);
      if ok && free != [] {
        WriteOut(out, k);
        ExchangeIsComposed(old(S()), policy, into, out, ri, k, junk);
      } else {
        ok := false;
      }
    }

    /** swap_pages for growth: `out` leaves RAM for the first unused slot. */
    method SwapPagesOut(out: int) returns (ok: bool, ri: nat, ghost slot: nat)
      requires Valid(S(), policy) && out in pt && pt[out].u && Has(ram, out)
      requires exists i :: 0 <= i < |swap| && !swap[i].used
      modifies `pt, `mem, `free, `ram, `swap, `file
      ensures ok <==> |old(free)| >= 1
      ensures ok ==> ri < |old(ram)| && old(ram)[ri].used && old(ram)[ri].page == out
                     && slot < |old(swap)| && !old(swap)[slot].used && slot <= |old(file)|
                     && old(pt)[out].frame in old(mem)
                     && S() == Evict(old(S()), out, ri, slot, junk)
    {
      EvictReady(S(), policy, out);
      ri := FindPage(ram, out);
      pt := pt[out := pt[out].(v := false)];
      ram := ram[ri := EMPTY];
      var k := FindUnused(swap);
      slot := k;
      ok := free != [];
      if ok {
        FirstFitInFile(swap, old(pt), |file|, k);
        WriteOut(out, k);
        EvictIsComposed(old(S()), out, ri, k, junk);
      }
    }

    // ----- choosing a victim -----

    static method ScfifoVictim(ram: seq<PageData>, pt: Table, counter: nat)
      returns (k: nat, ram1: seq<PageData>, pt1: Table, counter1: nat)
      requires Tracked(ram, pt) && SomeUser(ram, pt) && DistinctPages(ram) && Times(ram, counter)
      requires forall i :: 0 <= i < |ram| ==> ram[i].used
      ensures SameEntries(ram, ram1) && SameButAccessed(pt, pt1) && Times(ram1, counter1)
      ensures k < |ram| && User(ram, pt, k) && NextInQueue(ram, pt, counter, k)
      ensures Tracked(ram1, pt1) && GivesChances(ram, pt, counter, k, ram1, pt1, counter1)
    {
      ghost var q := QueueExists(ram, pt, counter);
      ghost var q1;
      k, ram1, pt1, counter1, q1 := ScfifoIndex(ram, pt, counter, q);
      ScfifoTimes(ram, pt, counter, ram1, pt1, counter1, q1);
    }

    /** The replacement policy's choice among a full p->ram. Times and accessed
        bits may change, the process's memory does not. */
    method Victim() returns (k: nat)
      requires Fine() && Full(ram)
      modifies `ram, `pt, `counter
      ensures Fine() && SameEntries(old(ram), ram) && SameButAccessed(old(pt), pt)
      ensures k < |ram| && ram[k].used && ram[k].page in pt && pt[ram[k].page].u
      ensures old(Tracked(ram, pt)) && old(Chosen(policy, ram, pt, counter, k))
      ensures policy != SCFIFO ==> S() == old(S())
      ensures policy == SCFIFO ==>
                Tracked(ram, pt) && GivesChances(old(ram), old(pt), old(counter), k, ram, pt, counter)
    {
      ShowsValid(S(), policy, view);
      UserInRam(S(), policy);
      var ram1, pt1, counter1 := ram, pt, counter;
      match policy {
        case NFUA => k := NfuaIndex(ram, pt);
        case LAPA => k := LapaIndex(ram, pt);
        case SCFIFO => k, ram1, pt1, counter1 := ScfifoVictim(ram, pt, counter);
      }
      PolicyShows(S(), policy, view, ram1, pt1, counter1);
      ram, pt, counter := ram1, pt1, counter1;
    }

    // ----- faults -----

    /** exchange_pages on a fault: false is the use of a null page in swap_pages. */
    method ExchangeIn(into: int) returns (ok: bool, ghost k: nat)
      requires Fine() && Full(ram) && Has(swap, into)
      modifies `pt, `mem, `free, `ram, `swap, `file, `counter
      ensures ok <==> |old(free)| >= 2
      ensures old(Tracked(ram, pt)) && old(Chosen(policy, ram, pt, counter, k)) && k < |old(ram)|
      ensures ok ==> Moved(old(pt), pt, into, old(ram)[k].page)
      ensures ok ==> Fine() && into in pt && pt[into].v && Room() == old(Room())
    {
      var v := Victim();
      k := v;
      UsedSame(old(ram), ram);
      ghost var s := S();
      var out := ram[v].page;
      var ri;
      ghost var slot;
      ShowsValid(s, policy, view);
      ok, ri, slot := SwapPagesIn(into, out);
      if ok {
        ExchangeShows(s, policy, view, into, out, ri, slot, junk);
        ExchangeMoves(old(pt), s, policy, into, out, ri, slot, junk);
        UsedSet(s.ram, ri, NewEntry(policy, into, s.counter));
      }
    }

    /** swap */
    method Swap(p: int) returns (ok: bool)
      requires Fine() && p in pt && pt[p].pg
      modifies `pt, `mem, `free, `ram, `swap, `file, `counter
      ensures ok <==> !Short(old(Room()))
      ensures ok ==> Fine() && p in pt && pt[p].v
      ensures ok ==> if old(Room()).used == MAX_PSYC_PAGES then Room() == old(Room()) else CameIn(old(Room()), Room())
    {
      ShowsValid(S(), policy, view);
      SwapReady(S(), policy, p);
      var n := CountPages(ram);
      if n < MAX_PSYC_PAGES {
        var ri := FindUnused(ram);
        var slot;
        ok, slot := SwapfileToRam(p, ri);
        if ok {
          SwapInShows(old(S()), policy, view, p, ri, slot);
          UsedSet(old(ram), ri, NewEntry(policy, p, old(counter)));
        }
      } else {
        ghost var k;
        ok, k := ExchangeIn(p);
      }
    }

    /** handle_not_NONE on a fault in page p; false is a panic. */
    method HandlePageFault(p: nat) returns (ok: bool)
      requires Fine()
      modifies `pt, `mem, `free, `ram, `swap, `file, `counter, `killed
      ensures p in old(pt) && old(pt)[p].pg && p < MAXPAGE ==>
                killed == old(killed) && (ok <==> !Short(old(Room())))
                && (ok ==> Fine() && p in pt && pt[p].v && (Room() == old(Room()) || CameIn(old(Room()), Room())))
      ensures !(p in old(pt) && old(pt)[p].pg) ==> S() == old(S()) && (ok <==> p < MAXPAGE) && (ok ==> killed)
    {
      if p >= MAXPAGE {
        return false;
      }
      if p in pt && pt[p].pg {
        ok := Swap(p);
      } else {
        killed := true;
        ok := true;
      }
    }

    // ----- shrinking -----

    /** uvmunmap's sweep of p->ram and p->swap for page p. */
    method Forget(p: int)
      requires |ram| == MAX_PSYC_PAGES == |swap|
      modifies `ram, `swap
      ensures ram == Blank(old(ram), p) && swap == Blank(old(swap), p)
    {
      var i := 0;
      while i < MAX_PSYC_PAGES
        invariant 0 <= i <= MAX_PSYC_PAGES && |ram| == MAX_PSYC_PAGES == |swap|
        invariant forall j :: 0 <= j < |ram| ==> ram[j] == if j < i then Blank(old(ram), p)[j] else old(ram)[j]
        invariant forall j :: 0 <= j < |swap| ==> swap[j] == if j < i then Blank(old(swap), p)[j] else old(swap)[j]
      {
        if ram[i].page == p {
          ram := ram[i := EMPTY];
        }
        if swap[i].page == p {
          swap := swap[i := EMPTY];
        }
        i := i + 1;
      }
    }

    /** One round of uvmunmap. */
    method UnmapPage(p: int)
      requires Fine() && p in pt
      modifies `pt, `mem, `free, `ram, `swap, `view
      ensures Fine() && view == RemovePage(old(view), p) && pt == old(pt) - {p} && GivenBack(old(Room()), Room())
    {
      ShowsValid(S(), policy, view);
      if !pt[p].pg {
        Kfree(pt[p].frame);
      }
      pt := pt - {p};
      Forget(p);
      assert S() == Drop(old(S()), p, junk);
      DropShows(old(S()), policy, view, p, junk);
      UsedBlank(old(ram), p);
      view := RemovePage(view, p);
    }

    /** uvmunmap with do_free; false is the panic for a page that is not mapped. */
    method Uvmunmap(first: nat, n: nat) returns (ok: bool)
      requires Fine()
      modifies `pt, `mem, `free, `ram, `swap, `view
      ensures Fine() && (ok <==> forall q :: first <= q < first + n ==> q in old(pt))
      ensures ok ==> view == Without(old(view), first, first + n) && GivenBack(old(Room()), Room())
      ensures ok ==> forall q :: q in pt <==> q in old(pt) && !(first <= q < first + n)
    {
      var p := first;
      while p < first + n
        invariant first <= p <= first + n && Fine() && forall q :: first <= q < p ==> q in old(pt)
        invariant forall q :: q in pt <==> q in old(pt) && !(first <= q < p)
        invariant view == Without(old(view), first, p) && GivenBack(old(Room()), Room())
      {
        if p !in pt {
          return false;
        }
        UnmapPage(p);
        p := p + 1;
      }
      ok := true;
    }

    /** uvmdealloc */
    method Uvmdealloc(oldsz: nat, newsz: nat) returns (ok: bool, r: nat)
      requires Fine() && Dense(pt, PageCount(oldsz))
      modifies `pt, `mem, `free, `ram, `swap, `view
      ensures ok && r == (if newsz >= oldsz then oldsz else newsz)
      ensures Fine() && view == Without(old(view), PageCount(r), PageCount(oldsz)) && Dense(pt, PageCount(r))
      ensures GivenBack(old(Room()), Room())
    {
      if newsz >= oldsz {
        return true, oldsz;
      }
      ok := true;
      if PageCount(newsz) < PageCount(oldsz) {
        ok := Uvmunmap(PageCount(newsz), PageCount(oldsz) - PageCount(newsz));
      }
      r := newsz;
    }

    // ----- growing -----

    /** exchange_pages for growth. */
    method ExchangeOut(ghost n: nat) returns (ok: bool, ri: nat, ghost k: nat)
      requires Fine() && Full(ram) && Dense(pt, n) && n < MAX_TOTAL_PAGES
      modifies `pt, `mem, `free, `ram, `swap, `file, `counter
      ensures ok <==> |old(free)| >= 1
      ensures old(Tracked(ram, pt)) && old(Chosen(policy, ram, pt, counter, k)) && k < |old(ram)|
      ensures ok ==> Moved(old(pt), pt, old(ram)[k].page, old(ram)[k].page)
      ensures ok ==> Fine() && Dense(pt, n) && ri < |ram| && !ram[ri].used
                     && Room() == Spare(|old(free)| + 1, MAX_PSYC_PAGES - 1)
    {
      UsedFull(ram);
      var v := Victim();
      k := v;
      UsedSame(old(ram), ram);
      ok, ri := LetOut(n, v, old(pt));
    }

    /** Entry v of p->ram leaves RAM for the swap file. */
    method LetOut(ghost n: nat, v: nat, ghost pt0: Table) returns (ok: bool, ri: nat)
      requires Fine() && Full(ram) && Dense(pt, n) && n < MAX_TOTAL_PAGES && SameButAccessed(pt0, pt)
      requires v < |ram| && ram[v].page in pt && pt[ram[v].page].u
      modifies `pt, `mem, `free, `ram, `swap, `file
      ensures ok <==> |old(free)| >= 1
      ensures ok ==> Moved(pt0, pt, old(ram)[v].page, old(ram)[v].page) && Fine() && Dense(pt, n)
      ensures ok ==> ri < |ram| && !ram[ri].used && Room().free == |old(free)| + 1 && Room().used == Used(old(ram)) - 1
    {
      ghost var s := S();
      var out := ram[v].page;
      ghost var slot;
      ShowsValid(s, policy, view);
      DenseSize(pt, n);
      SlotIsFree(s, policy);
      ok, ri, slot := SwapPagesOut(out);
      if ok {
        EvictShows(s, policy, view, out, ri, slot, junk);
        EvictMoves(pt0, s, policy, out, ri, slot, junk);
        UsedSet(s.ram, ri, EMPTY);
      }
    }

    /** A zeroed page is mapped at p and entered in p->ram. */
    method MapNew(p: int, idx: nat)
      requires free != [] && idx < |ram|
      modifies `pt, `mem, `free, `ram, `counter
      ensures S() == Grow(old(S()), policy, p, idx, zero)
    {
      var f := Kalloc();
      mem := mem[f := zero];
      pt := pt[p := Pte(f, true, true, false, false)];
      ram := ram[idx := NewEntry(policy, p, counter)];
      counter := NextCounter(policy, counter);
      assert old(mem)[f := junk][f := zero] == old(mem)[f := zero];
    }

    /** One round of uvmalloc's loop, for page p just above the mapped ones. */
    method GrowPage(p: nat) returns (r: Growth)
      requires Fine() && Dense(pt, p)
      modifies `pt, `mem, `free, `ram, `swap, `file, `counter, `view
      ensures (r, if r == Mapped then Room() else old(Room())) == GrowOne(old(Room()), p)
      ensures r == Panic <==> p >= 32 || (old(Room()).used == 16 && old(free) == [])
      ensures r == NoMemory <==> p < 32 && old(Room()).used != 16 && old(free) == []
      ensures r == NoMemory ==> S() == old(S()) && view == old(view)
      ensures view.frames == old(view).frames
      ensures r == Mapped ==> Fine() && Dense(pt, p + 1) && view == AddPage(old(view), p, zero)
    {
      if p >= MAX_TOTAL_PAGES {
        return Panic;
      }
      var ok, idx := FindRoom(p);
      if !ok { return Panic; }
      ghost var s := S();
      if free == [] {
        return NoMemory;
      }
      MapNew(p, idx);
      GrowShows(s, policy, view, p, idx, zero);
      UsedSet(s.ram, idx, NewEntry(policy, p, s.counter));
      view := AddPage(view, p, zero);
      r := Mapped;
    }

    /** An unused entry of p->ram for a new page, if need be made by an eviction. */
    method FindRoom(ghost n: nat) returns (ok: bool, idx: nat)
      requires Fine() && Dense(pt, n) && n < MAX_TOTAL_PAGES
      modifies `pt, `mem, `free, `ram, `swap, `file, `counter
      ensures ok <==> old(Room()).used != MAX_PSYC_PAGES || |old(free)| >= 1
      ensures ok ==> Fine() && Dense(pt, n) && idx < |ram| && !ram[idx].used
      ensures ok && old(Room()).used == MAX_PSYC_PAGES ==> Room() == Spare(|old(free)| + 1, MAX_PSYC_PAGES - 1)
      ensures ok && old(Room()).used != MAX_PSYC_PAGES ==> S() == old(S())
    {
      ShowsValid(S(), policy, view);
      ok := true;
      var used := CountPages(ram);
      if used < MAX_PSYC_PAGES {
        idx := FindUnused(ram);
      } else {
        ghost var k;
        ok, idx, k := ExchangeOut(n);
      }
    }

    /** uvmalloc's loop. */
    method GrowPages(a: nat, newsz: nat) returns (r: Growth)
      requires Fine() && Dense(pt, a) && a <= MAX_TOTAL_PAGES && a <= PageCount(newsz)
      modifies `pt, `mem, `free, `ram, `swap, `file, `counter, `view
      ensures r == Mapped ==> PageCount(newsz) <= MAX_TOTAL_PAGES && Fine() && Dense(pt, PageCount(newsz))
                              && view == With(old(view), a, PageCount(newsz), zero)
      ensures r == NoMemory ==> Fine() && Dense(pt, a) && view == old(view)
      ensures r == Growing(old(Room()), a, PageCount(newsz)).0
      ensures r == Mapped ==> Room() == Growing(old(Room()), a, PageCount(newsz)).1
    {
      var p := a;
      r := Mapped;
      ShowsBelow(S(), policy, view, a);
      while p * PGSIZE < newsz && r == Mapped
        invariant a <= p <= PageCount(newsz) && (r == Mapped ==> p <= MAX_TOTAL_PAGES)
        invariant view.frames == old(view).frames
        invariant r != Panic ==> Fine() && Dense(pt, p) && view == With(old(view), a, p, zero)
        invariant r == Mapped ==> Growing(Room(), p, PageCount(newsz)) == Growing(old(Room()), a, PageCount(newsz))
        invariant r != Mapped ==> r == Growing(old(Room()), a, PageCount(newsz)).0
        decreases r == Mapped, newsz - p * PGSIZE
      {
        CoversPages(p, newsz);
        r := GrowPage(p);
        if r == Mapped {
          p := p + 1;
        }
      }
      CoversPages(p, newsz);
      if r == NoMemory {
        Undo(a, p, old(view));
      }
    }

    /** uvmalloc. NoMemory is C's 0. */
    method Uvmalloc(oldsz: nat, newsz: nat) returns (r: Growth, n: nat)
      requires Fine() && Dense(pt, PageCount(oldsz)) && PageCount(oldsz) <= MAX_TOTAL_PAGES
      modifies `pt, `mem, `free, `ram, `swap, `file, `counter, `view
      ensures newsz < oldsz ==> r == Mapped && n == oldsz && S() == old(S()) && view == old(view)
      ensures newsz >= oldsz && r == Mapped ==>
                n == newsz && PageCount(n) <= MAX_TOTAL_PAGES && Fine() && Dense(pt, PageCount(n))
                && view == With(old(view), PageCount(oldsz), PageCount(n), zero)
      ensures r == NoMemory ==> Fine() && Dense(pt, PageCount(oldsz)) && view == old(view)
      ensures newsz >= oldsz ==> r == Growing(old(Room()), PageCount(oldsz), PageCount(newsz)).0
      ensures newsz >= oldsz && r == Mapped ==>
                Room() == Growing(old(Room()), PageCount(oldsz), PageCount(newsz)).1
    {
      if newsz < oldsz {
        return Mapped, oldsz;
      }
      n := newsz;
      r := GrowPages(PageCount(oldsz), newsz);
    }

    /** uvmalloc's return of the pages from a up to p. */
    method Undo(a: nat, p: nat, ghost m: Memory<T>)
      requires Fine() && Dense(pt, p) && a <= p && view == With(m, a, p, zero)
      requires Below(m, a)
      modifies `pt, `mem, `free, `ram, `swap, `view
      ensures Fine() && Dense(pt, a) && view == m
    {
      CoversPages(a, a * PGSIZE);
      CoversPages(p, p * PGSIZE);
      var ok, r := Uvmdealloc(p * PGSIZE, a * PGSIZE);
      WithWithout(m, a, p, zero);
    }

    /** growproc: sz is a C uint, so that sz + n wraps at 2^32. False is a panic. */
    method Growproc(n: Int32) returns (ok: bool, r: int)
      requires Ok()
      modifies `pt, `mem, `free, `ram, `swap, `file, `counter, `view, `sz
      ensures ok ==> Ok()
      ensures ok && r == -1 ==> sz == old(sz) && view == old(view)
      ensures ok && r != -1 ==> r == 0 && sz == NewSize(old(sz), n) && view == Resized(old(view), old(sz), sz, zero)
      ensures ok && r == 0 ==>
                sz == (if 0 <= old(sz) + n < 0x1_0000_0000 then old(sz) + n else old(sz))
                && ShowsUpTo(old(view), old(sz), view, sz, zero)
                && forall q :: q in pt <==> 0 <= q && q * 4096 < sz
      ensures Resizes(old(sz), NewSize(old(sz), n), old(Room()),
                      if !ok then Panic else if r == -1 then NoMemory else Mapped, Room())
    {
      var size := sz;
      ok := true;
      if n > 0 {
        var g;
        g, size := Uvmalloc(sz, (sz + n) % 0x1_0000_0000);
        if g == Panic {
          return false, 0;
        }
        if g == NoMemory {
          return true, -1;
        }
      } else if n < 0 {
        ok, size := Uvmdealloc(sz, (sz + n) % 0x1_0000_0000);
      }
      sz := size;
      r := 0;
      ResizesPlainly(old(S()), policy, old(view), old(sz), n, zero);
      DenseMeans(pt, sz);
    }

    // ----- runs -----

    /** A user access to page p: on a fault the handler runs and the access is
        tried again. The hardware sets the accessed bit. */
    method Access(p: nat) returns (r: Status)
      requires Ok() && !killed
      modifies `pt, `mem, `free, `ram, `swap, `file, `counter, `killed
      ensures r == if p < MAXPAGE && old(Starved(S(), p)) then Panicked else Allowed(view, p)
      ensures r == Killed <==> p !in view.users && p < 0x400_0000
      ensures r == Panicked <==>
                if p in view.users then p in old(pt) && old(pt)[p].pg && |old(free)| < if old(Full(ram)) then 2 else 1
                else p >= 0x400_0000
      ensures old(Starved(S(), p)) ==>
                p in view.users && Short(old(Room())) && |view.frames| < old(|free|) + PageCount(sz)
      ensures r == Ready ==> Ok() && !killed && p in pt && pt[p].v && pt[p].a
      ensures r == Ready ==> Room() == old(Room()) || CameIn(old(Room()), Room())
    {
      ShowsValid(S(), policy, view);
      UsedFull(ram);
      ShowsUser(S(), policy, view, p);
      if p in pt && pt[p].pg { SwappedCounts(S(), policy, view, PageCount(sz), p); }
      if !(p in pt && pt[p].v && pt[p].u) {
        var ok := HandlePageFault(p);
        if !ok || killed {
          return if ok then Killed else Panicked;
        }
        ShowsDense(old(S()), S(), policy, view, PageCount(sz));
      }
      AccessKeeps(S(), policy, view, p);
      pt := pt[p := pt[p].(a := true)];
      r := Ready;
    }

    // ----- system calls -----

    /** copyin of n whole pages: got has the pages copied. It does not fault pages in. */
    method Copyin(first: nat, n: nat) returns (ok: bool, got: seq<T>)
      requires Ok()
      ensures ok <==> forall p :: first <= p < first + n ==> Copyable(pt, p)
      ensures |got| <= n && (ok <==> |got| == n) && (!ok ==> !Copyable(pt, first + |got|))
      ensures forall p :: first <= p < first + |got| ==> p in view.pages && view.pages[p] == got[p - first]
    {
      got := [];
      while |got| < n
        invariant |got| <= n && forall p :: first <= p < first + |got| ==> Copyable(pt, p)
        invariant forall p :: first <= p < first + |got| ==> p in view.pages && view.pages[p] == got[p - first]
      {
        var p := first + |got|;
        if !(p in pt && pt[p].v && pt[p].u) {
          assert !Copyable(pt, p);
          return false, got;
        }
        ShowsContent(S(), policy, view, p);
        got := got + [mem[pt[p].frame]];
      }
      ok := true;
    }

    /** copyout of whole pages: the first `done` of them are stored. */
    method Copyout(first: nat, src: seq<T>) returns (ok: bool, done: nat)
      requires Ok()
      modifies `mem, `view
      ensures Ok() && done <= |src| && view == old(view).(pages := view.pages)
      ensures view.pages.Keys == old(view).pages.Keys && forall p :: p in view.pages ==>
                view.pages[p] == if first <= p < first + done then src[p - first] else old(view).pages[p]
      ensures ok <==> forall p :: first <= p < first + |src| ==> Copyable(pt, p)
      ensures (ok <==> done == |src|) && (!ok ==> !Copyable(pt, first + done))
    {
      done := 0;
      while done < |src|
        invariant Ok() && done <= |src| && view == old(view).(pages := view.pages)
        invariant view.pages.Keys == old(view).pages.Keys && forall p :: p in view.pages ==>
                    view.pages[p] == if first <= p < first + done then src[p - first] else old(view).pages[p]
        invariant forall p :: first <= p < first + done ==> Copyable(pt, p)
      {
        var p := first + done;
        if !(p in pt && pt[p].v && pt[p].u) {
          assert !Copyable(pt, p);
          return false, done;
        }
        ShowsContent(S(), policy, view, p);
        StoreShows(S(), policy, view, p, src[done]);
        mem := mem[pt[p].frame := src[done]];
        view := view.(pages := view.pages[p := src[done]]);
        done := done + 1;
      }
      ok := true;
    }

    /** update_age, which the scheduler calls for NFUA and LAPA. */
    method AgePages()
      requires Ok()
      modifies `ram, `pt
      ensures Ok() && |ram| == |old(ram)| && old(InRam(ram, pt))
      ensures policy != SCFIFO ==> forall i :: 0 <= i < |ram| ==> ram[i] == old(Ticked(ram[i], pt))
      ensures policy != SCFIFO ==> forall i :: 0 <= i < |ram| && old(ram)[i].used && old(pt)[old(ram)[i].page].u ==>
                  ram[i].age == old(ram)[i].age / 2 + if old(pt)[old(ram)[i].page].a then 0x8000_0000 else 0
      ensures policy != SCFIFO ==> Swept(old(ram), |ram|, old(pt), pt)
      ensures policy == SCFIFO ==> S() == old(S())
      ensures Room() == old(Room())
    {
      ShowsValid(S(), policy, view);
      if policy != SCFIFO {
        var ram1, pt1 := UpdateAge(ram, pt);
        PolicyShows(S(), policy, view, ram1, pt1, counter);
        UsedSame(ram, ram1);
        ram, pt := ram1, pt1;
      }
    }

    /** One step of the process, or of the kernel on its behalf. */
    method Step(op: Op<T>) returns (e: Event<T>)
      requires Ok() && !killed
      modifies this
      ensures Answers(old(view), old(sz), old(Room()), op, e, Room())
      ensures (op.Load? || op.Store?) && op.p < MAXPAGE ==> (e == Stop(Panicked) <==> old(Starved(S(), op.p)))
      ensures !e.Stop? ==> Ok() && !killed
      ensures !e.Stop? && e != Denied ==> view == MemoryAfter(old(view), old(sz), op, zero)
                                          && sz == SizeAfter(old(sz), op)
      ensures e == Denied ==> view == old(view) && sz == old(sz)
      ensures !e.Stop? ==> Fits(view, sz, Room())
      ensures !e.Stop? && e != Denied ==> Plainly(old(view), old(sz), op, e, view, sz, zero)
    {
      match op {
        case Load(p) =>
          var r := Access(p);
          if r != Ready { return Stop(r); }
          ShowsContent(S(), policy, view, p);
          e := Loaded(mem[pt[p].frame]);
        case Store(p, x) =>
          var r := Access(p);
          if r != Ready { return Stop(r); }
          ShowsContent(S(), policy, view, p);
          StoreShows(S(), policy, view, p, x);
          mem := mem[pt[p].frame := x];
          view := view.(pages := view.pages[p := x]);
          e := Written;
        case Sbrk(n) =>
          var addr := sz;
          var ok, r := Growproc(n);
          e := if !ok then Stop(Panicked) else if r == -1 then Denied else Sized(addr);
        case Timer =>
          AgePages();
          e := Aged;
      }
      if !e.Stop? {
        FramesSuffice(S(), policy, view, PageCount(sz));
        if e != Denied { StepsPlainly(old(S()), policy, old(view), old(sz), op, e, zero); }
      }
    }

    /** Any run shows the process what memory without paging would show it, but for
        lack of frames, which strikes only where they are short; 34 are enough for any
        process. */
    method Run(ops: seq<Op<T>>) returns (events: seq<Event<T>>)
      requires Ok() && !killed
      modifies this
      ensures Observed(old(view), old(sz), old(Room()), ops, events, zero)
      ensures |old(view).frames| >= ENOUGH ==> events == Promised(old(view), old(sz), ops, zero)
    {
      events := [];
      var i := 0;
      assert ops[0..] == ops;
      FramesSuffice(S(), policy, view, PageCount(sz));
      ExtendsNone(view, sz, Room(), ops, zero);
      while i < |ops|
        invariant 0 <= i <= |ops| && Ok() && !killed
        invariant Extends(old(view), old(sz), old(Room()), ops, events, view, sz, Room(), ops[i..], zero)
      {
        ghost var m, size, sp := view, sz, Room();
        var e := Step(ops[i]);
        ExtendsNext(old(view), old(sz), old(Room()), ops, events, m, size, sp, i, e, view, sz, Room(), zero);
        events := events + [e];
        if e.Stop? {
          EnoughFrames(old(view), old(sz), old(Room()), ops, events, zero);
          return;
        }
        i := i + 1;
      }
      ExtendsAll(old(view), old(sz), old(Room()), ops, events, view, sz, Room(), zero);
      EnoughFrames(old(view), old(sz), old(Room()), ops, events, zero);
    }

    /** After an sbrk by more pages than p->ram has entries left, a system call fails on
        a page that a load still reads. */
    method GrowThenCopy(n: Int32) returns (p: nat, ok: bool, e: Event<T>)
      requires Ok() && !killed && |view.frames| >= ENOUGH && PageCount(NewSize(sz, n)) <= MAX_TOTAL_PAGES
      requires PageCount(NewSize(sz, n)) > PageCount(sz) + MAX_PSYC_PAGES - Used(ram)
      modifies this
      ensures var m := Resized(old(view), old(sz), NewSize(old(sz), n), zero);
              p in m.users && p in m.pages && !ok && e == Loaded(m.pages[p])
    {
      p := GrowPast(n);
      ShowsUser(S(), policy, view, p);
      ShowsPage(S(), policy, view, p);
      var got;
      ok, got := Copyin(p, 1);
      assert !Copyable(pt, p);
      FramesSuffice(S(), policy, view, PageCount(sz));
      ghost var m, size, sp := view, sz, Room();
      e := Step(Load(p));
      AnswersEnough(m, size, sp, Load(p), e, Room());
    }

    /** The sbrk, and a page that it has left paged out. */
    method GrowPast(n: Int32) returns (p: nat)
      requires Ok() && !killed && |view.frames| >= ENOUGH && PageCount(NewSize(sz, n)) <= MAX_TOTAL_PAGES
      requires PageCount(NewSize(sz, n)) > PageCount(sz) + MAX_PSYC_PAGES - Used(ram)
      modifies this
      ensures Ok() && !killed && view == Resized(old(view), old(sz), NewSize(old(sz), n), zero)
      ensures p in pt && pt[p].pg && view.frames == old(view).frames
    {
      ShowsValid(S(), policy, view);
      UsedFull(ram);
      FramesSuffice(S(), policy, view, PageCount(sz));
      GrowingEnough(Room(), PageCount(sz), PageCount(NewSize(sz, n)));
      GrowingRoom(Room(), PageCount(sz), PageCount(NewSize(sz, n)));
      var e0 := Step(Sbrk(n));
      SomeSwapped(S(), policy, view, PageCount(sz));
      p := 0;
      while !(p in pt && pt[p].pg)
        invariant p <= PageCount(sz) && forall q :: 0 <= q < p ==> !(q in pt && pt[q].pg)
        decreases PageCount(sz) - p
      {
        p := p + 1;
      }
    }
  }

  const MAXPAGE := 0x400_0000   // MAXVA / PGSIZE

  ghost predicate Full(arr: seq<PageData>) {
    forall i :: 0 <= i < |arr| ==> arr[i].used
  }

  /** Page `out` has left RAM and page `into`, if it is another, has come in; every
      other page is where it was. */
  ghost predicate Moved(pt: Table, pt1: Table, into: int, out: int) {
    pt1.Keys == pt.Keys && forall p :: p in pt ==>
      (pt1[p].v <==> p != out && (p == into || pt[p].v)) && (pt1[p].pg <==> p == out || (p != into && pt[p].pg))
  }

  lemma ExchangeMoves<T>(pt: Table, s: State<T>, policy: Policy, into: int, out: int, ri: nat, slot: nat, junk: T)
    requires SameButAccessed(pt, s.pt) && Valid(s, policy) && |s.free| >= 2 && ri < |s.ram|
    requires slot < |s.swap| && s.swap[slot].used && s.swap[slot].page == into && slot < |s.file|
    requires out in s.pt && s.pt[out].frame in s.mem && s.pt[out].v && s.ram[ri].used && s.ram[ri].page == out
    ensures Moved(pt, Exchange(s, policy, into, out, ri, slot, junk).pt, into, out)
  {
    assert into in s.pt && s.pt[into].pg;
  }

  lemma EvictMoves<T>(pt: Table, s: State<T>, policy: Policy, out: int, ri: nat, slot: nat, junk: T)
    requires SameButAccessed(pt, s.pt) && Valid(s, policy) && s.free != [] && ri < |s.ram|
    requires slot < |s.swap| && slot <= |s.file|
    requires out in s.pt && s.pt[out].frame in s.mem && s.pt[out].v && s.ram[ri].used && s.ram[ri].page == out
    ensures Moved(pt, Evict(s, out, ri, slot, junk).pt, out, out)
  {
  }

  ghost predicate Chosen(policy: Policy, ram: seq<PageData>, pt: Table, counter: nat, k: nat)
    requires Tracked(ram, pt)
  {
    match policy
    case NFUA => LeastAge(ram, pt, k)
    case LAPA => LeastLapa(ram, pt, k)
    case SCFIFO => NextInQueue(ram, pt, counter, k)
  }

  /** The page that goes, against any other user page: under NFUA its age is no larger,
      under LAPA it has no more ones, under SCFIFO it was not accessed if the other was
      not, and then is the older. */
  lemma ChosenMeans(policy: Policy, ram: seq<PageData>, pt: Table, counter: nat, k: nat, j: nat)
    requires Tracked(ram, pt) && Chosen(policy, ram, pt, counter, k) && j < |ram| && pt[ram[j].page].u
    ensures k < |ram| && pt[ram[k].page].u
    ensures policy == NFUA ==> ram[k].age <= ram[j].age
    ensures policy == LAPA ==> Ones(ram[k].age, 32) <= Ones(ram[j].age, 32)
    ensures policy == SCFIFO ==>
              if pt[ram[j].page].a then !pt[ram[k].page].a || ram[k].time <= ram[j].time
              else !pt[ram[k].page].a && ram[k].time <= ram[j].time
  {
    assert User(ram, pt, j);
    if policy == SCFIFO { ScfifoEvictsOldest(ram, pt, counter, k, j); }
  }

  ghost function Users(pt: Table): set<int> {
    set p | p in pt && pt[p].u
  }

  /** The memory a process sees: its pages' contents, which of them it may use,
      and the frames its pages live in. */
  datatype Memory<T> = Memory(pages: map<int, T>, users: set<int>, frames: set<nat>)

  /** s is sound and shows the process the memory m. Folded (the quantifier has no
      other trigger) except where a proof mentions Unfold. */
  ghost predicate Shows<T>(s: State<T>, policy: Policy, m: Memory<T>) {
    forall k {:trigger Unfold(k)} :: k >= 0 ==>
      Valid(s, policy) && Readable(s) && m.pages == View(s) && m.users == Users(s.pt) && m.frames == s.mem.Keys
  }

  lemma ShowsValid<T>(s: State<T>, policy: Policy, m: Memory<T>)
    requires Shows(s, policy, m)
    ensures Valid(s, policy)
  {
    assert Unfold(0);
  }

  /** All of m's pages are below n. */
  ghost predicate Below<T>(m: Memory<T>, n: nat) {
    forall q :: q in m.pages || q in m.users ==> q < n
  }

  lemma ShowsBelow<T>(s: State<T>, policy: Policy, m: Memory<T>, n: nat)
    requires Shows(s, policy, m) && Dense(s.pt, n)
    ensures Below(m, n)
  {
    assert Unfold(0);
  }

  lemma SameUsers(pt: Table, pt1: Table)
    requires pt1.Keys == pt.Keys && forall p :: p in pt ==> pt1[p].u == pt[p].u
    ensures Users(pt1) == Users(pt)
  {
    assert forall p :: p in Users(pt1) <==> p in Users(pt);
  }

  lemma Fold<T>(s: State<T>, policy: Policy, m: Memory<T>)
    requires m.frames == s.mem.Keys && Valid(s, policy) && Readable(s) && m.pages == View(s) && m.users == Users(s.pt)
    ensures Shows(s, policy, m)
  {
  }

  lemma PolicyShows<T>(s: State<T>, policy: Policy, m: Memory<T>, ram1: seq<PageData>, pt1: Table, counter1: nat)
    requires Shows(s, policy, m) && SameEntries(s.ram, ram1) && SameButAccessed(s.pt, pt1)
    requires policy == SCFIFO ==> Times(ram1, counter1)
    ensures Shows(s.(ram := ram1, pt := pt1, counter := counter1), policy, m)
  {
    assert Unfold(0);
    PolicyKeeps(s, policy, ram1, pt1, counter1);
    SameUsers(s.pt, pt1);
    Fold(s.(ram := ram1, pt := pt1, counter := counter1), policy, m);
  }

  lemma ExchangeSame<T>(s: State<T>, policy: Policy, into: int, out: int, ri: nat, slot: nat, junk: T)
    requires Valid(s, policy) && |s.free| >= 2 && ri < |s.ram| && out in s.pt && s.pt[out].frame in s.mem
    requires slot < |s.swap| && s.swap[slot].used && s.swap[slot].page == into && slot < |s.file|
    ensures var r := Exchange(s, policy, into, out, ri, slot, junk);
            Users(r.pt) == Users(s.pt) && r.mem.Keys == s.mem.Keys
  {
    var r := Exchange(s, policy, into, out, ri, slot, junk);
    assert s.pt[s.swap[slot].page].pg;
    SameUsers(s.pt, r.pt);
    assert s.free[0] in s.mem && s.free[1] in s.mem;
    assert r.mem.Keys == s.mem.Keys;
  }

  lemma ExchangeShows<T>(s: State<T>, policy: Policy, m: Memory<T>, into: int, out: int, ri: nat, slot: nat, junk: T)
    requires Shows(s, policy, m) && |s.free| >= 2 && ri < |s.ram| && s.ram[ri].used && s.ram[ri].page == out
    requires out in s.pt && s.pt[out].u && slot < |s.swap| && s.swap[slot].used && s.swap[slot].page == into
    requires s.pt[out].frame in s.mem && slot < |s.file|
    ensures Shows(Exchange(s, policy, into, out, ri, slot, junk), policy, m)
  {
    assert Unfold(0);
    var r := Exchange(s, policy, into, out, ri, slot, junk);
    ExchangeValid(s, policy, into, out, ri, slot, junk);
    ExchangeView(s, policy, into, out, ri, slot, junk);
    ExchangeSame(s, policy, into, out, ri, slot, junk);
    Fold(r, policy, m);
  }

  lemma SwapInShows<T>(s: State<T>, policy: Policy, m: Memory<T>, p: int, ri: nat, slot: nat)
    requires Shows(s, policy, m) && s.free != [] && ri < |s.ram| && !s.ram[ri].used
    requires slot < |s.swap| && s.swap[slot].used && s.swap[slot].page == p && slot < |s.file|
    ensures Shows(SwapIn(s, policy, p, ri, slot), policy, m)
  {
    assert Unfold(0);
    var r := SwapIn(s, policy, p, ri, slot);
    SwapInValid(s, policy, p, ri, slot);
    SwapInView(s, policy, p, ri, slot);
    assert s.pt[s.swap[slot].page].pg;
    SameUsers(s.pt, r.pt);
    assert s.free[0] in s.mem;
    assert r.mem.Keys == s.mem.Keys;
    Fold(r, policy, m);
  }

  ghost function RemovePage<T>(m: Memory<T>, p: int): Memory<T> {
    m.(pages := m.pages - {p}, users := m.users - {p})
  }

  /** m without the pages from a up to b. */
  ghost function Without<T>(m: Memory<T>, a: int, b: int): (r: Memory<T>)
    ensures r.frames == m.frames
    decreases b - a
  {
    if a >= b then m else RemovePage(Without(m, a, b - 1), b - 1)
  }

  lemma {:induction false} WithoutIs<T>(m: Memory<T>, a: int, b: int)
    ensures Without(m, a, b).pages == (map q | q in m.pages && !(a <= q < b) :: m.pages[q])
    ensures Without(m, a, b).users == (set q | q in m.users && !(a <= q < b))
    decreases b - a
  {
    if a < b { WithoutIs(m, a, b - 1); }
  }

  lemma DropSame<T>(s: State<T>, policy: Policy, p: int, junk: T)
    requires Valid(s, policy) && p in s.pt
    ensures var r := Drop(s, p, junk);
            Users(r.pt) == Users(s.pt) - {p} && r.mem.Keys == s.mem.Keys
  {
    var r := Drop(s, p, junk);
    assert s.pt[p].v != s.pt[p].pg;
    assert r.mem.Keys == s.mem.Keys;
    assert forall q :: q in Users(r.pt) <==> q in Users(s.pt) && q != p;
  }

  lemma DropShows<T>(s: State<T>, policy: Policy, m: Memory<T>, p: int, junk: T)
    requires Shows(s, policy, m) && p in s.pt
    ensures Shows(Drop(s, p, junk), policy, RemovePage(m, p))
  {
    assert Unfold(0);
    DropValid(s, policy, p, junk);
    DropView(s, policy, p, junk);
    DropSame(s, policy, p, junk);
    Fold(Drop(s, p, junk), policy, RemovePage(m, p));
  }

  datatype Growth = Mapped | NoMemory | Panic

  ghost function AddPage<T>(m: Memory<T>, p: int, x: T): Memory<T> {
    m.(pages := m.pages[p := x], users := m.users + {p})
  }

  /** m with new pages, all x, from a up to b. */
  ghost function With<T>(m: Memory<T>, a: int, b: int, x: T): (r: Memory<T>)
    ensures r.frames == m.frames
    decreases b - a
  {
    if a >= b then m else AddPage(With(m, a, b - 1, x), b - 1, x)
  }

  lemma {:induction false} WithIs<T>(m: Memory<T>, a: int, b: int, x: T)
    ensures var r := With(m, a, b, x);
            && (forall q :: q in r.pages <==> q in m.pages || a <= q < b)
            && (forall q :: q in r.users <==> q in m.users || a <= q < b)
            && (forall q :: q in r.pages ==> r.pages[q] == if a <= q < b then x else m.pages[q])
    decreases b - a
  {
    if a < b { WithIs(m, a, b - 1, x); }
  }

  ghost function Pages(a: int, b: int): (r: set<int>)
    ensures forall q :: q in r <==> a <= q < b
    decreases b - a
  {
    if a >= b then {} else Pages(a, b - 1) + {b - 1}
  }

  lemma {:induction false} PagesSize(n: nat)
    ensures |Pages(0, n)| == n
  {
    if n > 0 { PagesSize(n - 1); }
  }

  lemma DenseSize(pt: Table, n: nat)
    requires Dense(pt, n)
    ensures |pt| == n
  {
    PagesSize(n);
    assert pt.Keys == Pages(0, n);
  }

  lemma EvictSame<T>(s: State<T>, policy: Policy, p: int, ri: nat, slot: nat, junk: T)
    requires Valid(s, policy) && s.free != [] && ri < |s.ram| && p in s.pt && s.pt[p].frame in s.mem
    requires slot < |s.swap| && slot <= |s.file|
    ensures var r := Evict(s, p, ri, slot, junk);
            Users(r.pt) == Users(s.pt) && r.mem.Keys == s.mem.Keys
  {
    var r := Evict(s, p, ri, slot, junk);
    SameUsers(s.pt, r.pt);
    assert s.free[0] in s.mem;
    assert r.mem.Keys == s.mem.Keys;
  }

  lemma EvictShows<T>(s: State<T>, policy: Policy, m: Memory<T>, p: int, ri: nat, slot: nat, junk: T)
    requires Shows(s, policy, m) && s.free != [] && ri < |s.ram| && s.ram[ri].used && s.ram[ri].page == p
    requires p in s.pt && s.pt[p].u && s.pt[p].frame in s.mem && slot < |s.swap| && slot <= |s.file|
    requires !s.swap[slot].used
    ensures Shows(Evict(s, p, ri, slot, junk), policy, m)
  {
    assert Unfold(0);
    EvictValid(s, policy, p, ri, slot, junk);
    EvictView(s, policy, p, ri, slot, junk);
    EvictSame(s, policy, p, ri, slot, junk);
    Fold(Evict(s, p, ri, slot, junk), policy, m);
  }

  lemma GrowSame<T>(s: State<T>, policy: Policy, m: Memory<T>, p: int, ri: nat, zero: T)
    requires Valid(s, policy) && s.free != [] && ri < |s.ram| && p !in s.pt
    requires m.users == Users(s.pt) && m.pages.Keys == s.pt.Keys
    ensures var r := Grow(s, policy, p, ri, zero);
            Users(r.pt) == AddPage(m, p, zero).users && r.mem.Keys == s.mem.Keys
    ensures m.pages[p := zero] == AddPage(m, p, zero).pages
  {
    var r := Grow(s, policy, p, ri, zero);
    assert forall q :: q in Users(r.pt) <==> q in Users(s.pt) || q == p;
    assert s.free[0] in s.mem;
    assert r.mem.Keys == s.mem.Keys;
  }

  lemma GrowShows<T>(s: State<T>, policy: Policy, m: Memory<T>, p: int, ri: nat, zero: T)
    requires Shows(s, policy, m) && s.free != [] && ri < |s.ram| && !s.ram[ri].used && p >= 0 && p !in s.pt
    ensures Shows(Grow(s, policy, p, ri, zero), policy, AddPage(m, p, zero))
  {
    assert Unfold(0);
    GrowValid(s, policy, p, ri, zero);
    GrowView(s, policy, p, ri, zero);
    GrowSame(s, policy, m, p, ri, zero);
    Fold(Grow(s, policy, p, ri, zero), policy, AddPage(m, p, zero));
  }

  /** Frames for the largest process and for both pages that swap_pages takes. */
  const ENOUGH := 34

  lemma CoversPages(p: nat, sz: nat)
    ensures p * PGSIZE < sz <==> p < PageCount(sz)
    ensures PageCount(p * PGSIZE) == p
  {
  }

  lemma WithWithout<T>(m: Memory<T>, a: nat, p: int, x: T)
    requires Below(m, a)
    ensures Without(With(m, a, p, x), a, p) == m
  {
    var w := With(m, a, p, x);
    WithIs(m, a, p, x);
    WithoutIs(w, a, p);
    var r := Without(w, a, p);
    forall q
      ensures q in r.pages <==> q in m.pages
      ensures q in r.users <==> q in m.users
    {
    }
    forall q | q in m.pages
      ensures r.pages[q] == m.pages[q]
    {
    }
    assert r.pages == m.pages && r.users == m.users;
  }

  /** The size growproc asks for: sbrk of more than the process has is ignored. */
  function NewSize(sz: nat, n: Int32): nat {
    var size := (sz + n) % 0x1_0000_0000;
    if n > 0 then (if size < sz then sz else size)
    else if n < 0 then (if size >= sz then sz else size)
    else sz
  }

  lemma SizeBound(sz: nat)
    requires PageCount(sz) <= MAX_TOTAL_PAGES
    ensures sz <= 0x2_0000
  {
  }

  /** In numbers: sz + n unless that is negative or overflows. */
  lemma NewSizeIs(sz: nat, n: Int32)
    requires sz <= 0x2_0000
    ensures NewSize(sz, n) == if 0 <= sz + n < 0x1_0000_0000 then sz + n else sz
  {
  }

  ghost function Resized<T>(m: Memory<T>, sz: nat, size: nat, x: T): Memory<T> {
    if size >= sz then With(m, PageCount(sz), PageCount(size), x)
    else Without(m, PageCount(size), PageCount(sz))
  }

  /** m has exactly the pages of a process of size sz. */
  ghost predicate Whole<T>(m: Memory<T>, sz: nat) {
    && (forall q :: q in m.pages <==> 0 <= q && q * 4096 < sz)
    && (forall q :: q in m.users ==> q in m.pages)
  }

  /** From size sz to size sz1, pages below both keep their contents and new ones are
      zero and may be used. */
  ghost predicate ShowsUpTo<T>(m: Memory<T>, sz: nat, m1: Memory<T>, sz1: nat, zero: T) {
    && Whole(m1, sz1)
    && (forall q {:trigger m1.pages[q]} :: q in m1.pages ==>
          if q * 4096 < sz then q in m.pages && m1.pages[q] == m.pages[q] else m1.pages[q] == zero)
    && (forall q :: q in m1.users <==> q in m1.pages && (q * 4096 < sz ==> q in m.users))
  }

  lemma DenseMeans(pt: Table, sz: nat)
    requires Dense(pt, PageCount(sz))
    ensures forall q :: q in pt <==> 0 <= q && q * 4096 < sz
  {
    forall q | q >= 0
      ensures q in pt <==> q * 4096 < sz
    {
      CoversPages(q, sz);
    }
  }

  lemma ShowsWhole<T>(s: State<T>, policy: Policy, m: Memory<T>, sz: nat)
    requires Shows(s, policy, m) && Dense(s.pt, PageCount(sz))
    ensures Whole(m, sz)
  {
    DenseMeans(s.pt, sz);
    assert Unfold(0);
  }

  lemma ResizedIs<T>(m: Memory<T>, sz: nat, size: nat, x: T)
    requires Whole(m, sz)
    ensures ShowsUpTo(m, sz, Resized(m, sz, size, x), size, x)
  {
    WithIs(m, PageCount(sz), PageCount(size), x);
    WithoutIs(m, PageCount(size), PageCount(sz));
    forall q | q >= 0
      ensures q * 4096 < sz <==> q < PageCount(sz)
      ensures q * 4096 < size <==> q < PageCount(size)
    {
      CoversPages(q, sz);
      CoversPages(q, size);
    }
  }

  // ----- conservation of frames -----

  /** How many of the first n pages are in memory, and the frames that hold them. */
  ghost function Resident(pt: Table, n: nat): (c: nat)
    ensures c <= n
  {
    if n == 0 then 0 else Resident(pt, n - 1) + if n - 1 in pt && pt[n - 1].v then 1 else 0
  }

  ghost function FramesOf(pt: Table, n: nat): set<nat> {
    if n == 0 then {} else FramesOf(pt, n - 1) + if n - 1 in pt && pt[n - 1].v then {pt[n - 1].frame} else {}
  }

  lemma {:induction false} FramesOfOwned(pt: Table, n: nat, f: nat)
    ensures f in FramesOf(pt, n) <==> exists p :: 0 <= p < n && p in pt && pt[p].v && pt[p].frame == f
  {
    if n > 0 { FramesOfOwned(pt, n - 1, f); }
  }

  ghost predicate OwnFrames(pt: Table) {
    forall p, q :: p in pt && q in pt && pt[p].v && pt[q].v && pt[p].frame == pt[q].frame ==> p == q
  }

  lemma FrameAbove(pt: Table, n: nat)
    requires OwnFrames(pt) && n in pt && pt[n].v
    ensures pt[n].frame !in FramesOf(pt, n)
  {
    FramesOfOwned(pt, n, pt[n].frame);
  }

  lemma {:induction false} FramesOfSize(pt: Table, n: nat)
    requires OwnFrames(pt)
    ensures |FramesOf(pt, n)| == Resident(pt, n)
  {
    if n > 0 {
      FramesOfSize(pt, n - 1);
      if n - 1 in pt && pt[n - 1].v { FrameAbove(pt, n - 1); }
    }
  }

  lemma {:induction false} DistinctSize(free: seq<nat>)
    requires forall i, j :: 0 <= i < j < |free| ==> free[i] != free[j]
    ensures |Elems(free)| == |free|
  {
    if free == [] {
      assert Elems(free) == {};
    } else {
      var k := |free| - 1;
      DistinctSize(free[..k]);
      assert free == free[..k] + [free[k]] && free[k] !in free[..k];
      assert Elems(free) == Elems(free[..k]) + {free[k]};
    }
  }

  /** Every frame is on the free list or holds one resident page. */
  lemma FramesConserved(pt: Table, frames: set<nat>, free: seq<nat>, n: nat)
    requires Frames(pt, frames, free) && Dense(pt, n)
    ensures |frames| == |free| + Resident(pt, n)
  {
    var a, b := Elems(free), FramesOf(pt, n);
    DistinctSize(free);
    FramesOfSize(pt, n);
    forall f: nat
      ensures f in frames <==> f in a + b
      ensures f in a ==> f !in b
    {
      assert f in frames ==> f in free || Owned(pt, f);
      FramesOfOwned(pt, n, f);
    }
    assert frames == a + b;
    assert a !! b;
  }

  /** A process below the page limit leaves frames free. */
  lemma FramesSuffice<T>(s: State<T>, policy: Policy, m: Memory<T>, n: nat)
    requires Shows(s, policy, m) && Dense(s.pt, n)
    ensures |m.frames| <= |s.free| + n
  {
    assert Unfold(0);
    FramesConserved(s.pt, s.mem.Keys, s.free, n);
  }

  // ----- the memory the process is promised -----

  type Int32 = n: int | -0x8000_0000 <= n < 0x8000_0000

  datatype Status = Ready | Killed | Panicked

  /** What an access to page p comes to: walk panics at MAXVA and above, any other
      page the process may not use is fatal to it. */
  ghost function Allowed<T>(m: Memory<T>, p: nat): Status {
    if p in m.users then Ready else if p < MAXPAGE then Killed else Panicked
  }

  datatype Op<T> = Load(p: nat) | Store(p: nat, x: T) | Sbrk(n: Int32) | Timer

  /** Denied is an sbrk that returns -1. */
  datatype Event<T> = Loaded(x: T) | Written | Sized(addr: nat) | Denied | Aged | Stop(r: Status)

  ghost function EventOf<T>(m: Memory<T>, sz: nat, op: Op<T>): Event<T> {
    match op
    case Load(p) => if p in m.users && p in m.pages then Loaded(m.pages[p]) else Stop(Allowed(m, p))
    case Store(p, _) => if p in m.users then Written else Stop(Allowed(m, p))
    case Sbrk(n) => if PageCount(NewSize(sz, n)) <= MAX_TOTAL_PAGES then Sized(sz) else Stop(Panicked)
    case Timer => Aged
  }

  function SizeAfter<T>(sz: nat, op: Op<T>): nat {
    if op.Sbrk? then NewSize(sz, op.n) else sz
  }

  ghost function MemoryAfter<T>(m: Memory<T>, sz: nat, op: Op<T>, zero: T): Memory<T> {
    match op
    case Store(p, x) => m.(pages := m.pages[p := x])
    case Sbrk(n) => Resized(m, sz, NewSize(sz, n), zero)
    case _ => m
  }

  /** What a process with memory m and no paging would see. */
  ghost function Promised<T>(m: Memory<T>, sz: nat, ops: seq<Op<T>>, zero: T): seq<Event<T>>
    decreases |ops|
  {
    if ops == [] then []
    else
      var e := EventOf(m, sz, ops[0]);
      if e.Stop? then [e]
      else [e] + Promised(MemoryAfter(m, sz, ops[0], zero), SizeAfter(sz, ops[0]), ops[1..], zero)
  }

  /** In plain words: a load gives the page's contents, a store changes them there
      alone, sbrk answers with the old size, and a tick changes nothing. */
  ghost predicate Plainly<T>(m: Memory<T>, sz: nat, op: Op<T>, e: Event<T>, m1: Memory<T>, sz1: nat, zero: T) {
    match op
    case Load(p) => p in m.pages && e == Loaded(m.pages[p]) && m1 == m && sz1 == sz
    case Store(p, x) =>
      && e == Written && sz1 == sz && p in m.users && m1.users == m.users && m1.pages.Keys == m.pages.Keys
      && forall q :: q in m.pages ==> m1.pages[q] == if q == p then x else m.pages[q]
    case Sbrk(n) =>
      && e == Sized(sz) && sz1 == (if 0 <= sz + n < 0x1_0000_0000 then sz + n else sz)
      && ShowsUpTo(m, sz, m1, sz1, zero)
    case Timer => e == Aged && m1 == m && sz1 == sz
  }

  lemma ResizesPlainly<T>(s: State<T>, policy: Policy, m: Memory<T>, sz: nat, n: Int32, zero: T)
    requires Shows(s, policy, m) && Dense(s.pt, PageCount(sz)) && PageCount(sz) <= MAX_TOTAL_PAGES
    ensures var size := NewSize(sz, n);
            size == (if 0 <= sz + n < 0x1_0000_0000 then sz + n else sz)
            && ShowsUpTo(m, sz, Resized(m, sz, size, zero), size, zero)
  {
    SizeBound(sz);
    NewSizeIs(sz, n);
    ShowsWhole(s, policy, m, sz);
    ResizedIs(m, sz, NewSize(sz, n), zero);
  }

  lemma StepsPlainly<T>(s: State<T>, policy: Policy, m: Memory<T>, sz: nat, op: Op<T>, e: Event<T>, zero: T)
    requires Shows(s, policy, m) && Dense(s.pt, PageCount(sz)) && PageCount(sz) <= MAX_TOTAL_PAGES
    requires !e.Stop? && (e == EventOf(m, sz, op) || (op.Sbrk? && e == Sized(sz)))
    ensures Plainly(m, sz, op, e, MemoryAfter(m, sz, op, zero), SizeAfter(sz, op), zero)
  {
    SizeBound(sz);
    ShowsWhole(s, policy, m, sz);
    PlainIs(m, sz, op, zero);
  }

  lemma PlainIs<T>(m: Memory<T>, sz: nat, op: Op<T>, zero: T)
    requires Whole(m, sz) && sz <= 0x2_0000
    ensures var e := EventOf(m, sz, op);
            !e.Stop? ==> Plainly(m, sz, op, e, MemoryAfter(m, sz, op, zero), SizeAfter(sz, op), zero)
    ensures op.Sbrk? ==> Plainly(m, sz, op, Sized(sz), MemoryAfter(m, sz, op, zero), SizeAfter(sz, op), zero)
  {
    if op.Sbrk? {
      NewSizeIs(sz, op.n);
      ResizedIs(m, sz, NewSize(sz, op.n), zero);
    }
  }

  // ----- what is promised, read off the operations -----

  /** The size after the first k operations. */
  function SizeAt<T>(sz: nat, ops: seq<Op<T>>, k: nat): nat
    requires k <= |ops|
  {
    if k == 0 then sz
    else
      var size := SizeAt(sz, ops, k - 1);
      match ops[k - 1]
      case Sbrk(n) => if 0 <= size + n < 0x1_0000_0000 then size + n else size
      case _ => size
  }

  /** The memory after them. */
  ghost function MemoryAt<T>(m: Memory<T>, sz: nat, ops: seq<Op<T>>, k: nat, zero: T): Memory<T>
    requires k <= |ops|
  {
    if k == 0 then m
    else MemoryAfter(MemoryAt(m, sz, ops, k - 1, zero), SizeAt(sz, ops, k - 1), ops[k - 1], zero)
  }

  lemma {:induction false} SizeFront<T>(sz: nat, ops: seq<Op<T>>, k: nat)
    requires 0 < k <= |ops| && sz <= 0x2_0000
    ensures SizeAt(sz, ops, k) == SizeAt(SizeAfter(sz, ops[0]), ops[1..], k - 1)
  {
    if k > 1 {
      SizeFront(sz, ops, k - 1);
    } else if ops[0].Sbrk? {
      NewSizeIs(sz, ops[0].n);
    }
  }

  lemma {:induction false} MemoryFront<T>(m: Memory<T>, sz: nat, ops: seq<Op<T>>, k: nat, zero: T)
    requires 0 < k <= |ops| && sz <= 0x2_0000
    ensures MemoryAt(m, sz, ops, k, zero)
            == MemoryAt(MemoryAfter(m, sz, ops[0], zero), SizeAfter(sz, ops[0]), ops[1..], k - 1, zero)
  {
    if k > 1 {
      MemoryFront(m, sz, ops, k - 1, zero);
      SizeFront(sz, ops, k - 1);
    }
  }

  /** Each event is the one that its operation has there. */
  lemma {:induction false} PromisedAt<T>(m: Memory<T>, sz: nat, ops: seq<Op<T>>, k: nat, zero: T)
    requires k < |Promised(m, sz, ops, zero)| && PageCount(sz) <= MAX_TOTAL_PAGES
    ensures |Promised(m, sz, ops, zero)| <= |ops| && SizeAt(sz, ops, k) <= 0x2_0000
    ensures Promised(m, sz, ops, zero)[k] == EventOf(MemoryAt(m, sz, ops, k, zero), SizeAt(sz, ops, k), ops[k])
    ensures k + 1 < |Promised(m, sz, ops, zero)| ==> !Promised(m, sz, ops, zero)[k].Stop?
    decreases |ops|
  {
    SizeBound(sz);
    PromisedLength(m, sz, ops, zero);
    if k > 0 {
      PromisedAt(MemoryAfter(m, sz, ops[0], zero), SizeAfter(sz, ops[0]), ops[1..], k - 1, zero);
      SizeFront(sz, ops, k);
      MemoryFront(m, sz, ops, k, zero);
    }
  }

  lemma {:induction false} PromisedLength<T>(m: Memory<T>, sz: nat, ops: seq<Op<T>>, zero: T)
    ensures |Promised(m, sz, ops, zero)| <= |ops|
    decreases |ops|
  {
    if ops != [] { PromisedLength(MemoryAfter(m, sz, ops[0], zero), SizeAfter(sz, ops[0]), ops[1..], zero); }
  }

  lemma {:induction false} WholeAt<T>(m: Memory<T>, sz: nat, ops: seq<Op<T>>, k: nat, zero: T)
    requires k < |Promised(m, sz, ops, zero)| && PageCount(sz) <= MAX_TOTAL_PAGES && Whole(m, sz)
    ensures k <= |ops| && Whole(MemoryAt(m, sz, ops, k, zero), SizeAt(sz, ops, k))
  {
    PromisedAt(m, sz, ops, k, zero);
    if k > 0 {
      WholeAt(m, sz, ops, k - 1, zero);
      PlainAt(m, sz, ops, k - 1, zero);
    }
  }

  lemma PlainAt<T>(m: Memory<T>, sz: nat, ops: seq<Op<T>>, k: nat, zero: T)
    requires k + 1 < |Promised(m, sz, ops, zero)| && PageCount(sz) <= MAX_TOTAL_PAGES && k + 1 <= |ops|
    requires Whole(MemoryAt(m, sz, ops, k, zero), SizeAt(sz, ops, k))
    ensures Plainly(MemoryAt(m, sz, ops, k, zero), SizeAt(sz, ops, k), ops[k], Promised(m, sz, ops, zero)[k],
                    MemoryAt(m, sz, ops, k + 1, zero), SizeAt(sz, ops, k + 1), zero)
  {
    PromisedAt(m, sz, ops, k, zero);
    PlainIs(MemoryAt(m, sz, ops, k, zero), SizeAt(sz, ops, k), ops[k], zero);
  }

  /** From operation j up to operation i, page p is neither stored to nor given back. */
  ghost predicate Untouched<T>(sz: nat, ops: seq<Op<T>>, j: nat, i: nat, p: nat)
    requires i <= |ops|
  {
    && (forall k :: j <= k < i ==> !(ops[k].Store? && ops[k].p == p))
    && (forall k :: j <= k <= i ==> p * 4096 < SizeAt(sz, ops, k))
  }

  lemma KeepsAt<T>(m: Memory<T>, sz: nat, ops: seq<Op<T>>, k: nat, p: nat, zero: T)
    requires k + 1 < |Promised(m, sz, ops, zero)| && PageCount(sz) <= MAX_TOTAL_PAGES && Whole(m, sz)
    requires k + 1 <= |ops| && Untouched(sz, ops, k, k + 1, p)
    ensures var m0, m1 := MemoryAt(m, sz, ops, k, zero), MemoryAt(m, sz, ops, k + 1, zero);
            p in m0.pages && p in m1.pages && m1.pages[p] == m0.pages[p] && (p in m0.users ==> p in m1.users)
  {
    WholeAt(m, sz, ops, k, zero);
    PlainAt(m, sz, ops, k, zero);
    assert SizeAt(sz, ops, k) > p * 4096 && SizeAt(sz, ops, k + 1) > p * 4096;
    PlainlyKeeps(MemoryAt(m, sz, ops, k, zero), SizeAt(sz, ops, k), ops[k], Promised(m, sz, ops, zero)[k],
                 MemoryAt(m, sz, ops, k + 1, zero), SizeAt(sz, ops, k + 1), zero, p);
  }

  lemma PageAt<T>(m: Memory<T>, sz: nat, ops: seq<Op<T>>, k: nat, p: nat, zero: T)
    requires k < |Promised(m, sz, ops, zero)| && PageCount(sz) <= MAX_TOTAL_PAGES && Whole(m, sz)
    requires k <= |ops| && Untouched(sz, ops, k, k, p)
    ensures p in MemoryAt(m, sz, ops, k, zero).pages
  {
    WholeAt(m, sz, ops, k, zero);
    assert SizeAt(sz, ops, k) > p * 4096;
  }

  lemma {:induction false} StaysSame<T>(m: Memory<T>, sz: nat, ops: seq<Op<T>>, j: nat, i: nat, p: nat, zero: T)
    requires j <= i < |Promised(m, sz, ops, zero)| && PageCount(sz) <= MAX_TOTAL_PAGES && Whole(m, sz)
    requires i <= |ops| && Untouched(sz, ops, j, i, p)
    ensures var m0, m1 := MemoryAt(m, sz, ops, j, zero), MemoryAt(m, sz, ops, i, zero);
            p in m0.pages && p in m1.pages && m1.pages[p] == m0.pages[p] && (p in m0.users ==> p in m1.users)
    decreases i - j
  {
    if j == i {
      PageAt(m, sz, ops, j, p, zero);
    } else {
      StaysSame(m, sz, ops, j, i - 1, p, zero);
      KeepsAt(m, sz, ops, i - 1, p, zero);
    }
  }

  lemma PlainlyKeeps<T>(m: Memory<T>, sz: nat, op: Op<T>, e: Event<T>, m1: Memory<T>, sz1: nat, zero: T, p: nat)
    requires Plainly(m, sz, op, e, m1, sz1, zero) && p in m.pages && !(op.Store? && op.p == p)
    requires p * 4096 < sz && p * 4096 < sz1
    ensures p in m1.pages && m1.pages[p] == m.pages[p] && (p in m.users ==> p in m1.users)
  {
  }

  /** A load reads what was last stored to its page. */
  lemma ReadsLastStore<T>(m: Memory<T>, sz: nat, ops: seq<Op<T>>, j: nat, i: nat, p: nat, x: T, zero: T)
    requires Whole(m, sz) && PageCount(sz) <= MAX_TOTAL_PAGES
    requires j < i < |Promised(m, sz, ops, zero)| && i < |ops| && ops[j] == Store(p, x) && ops[i] == Load(p)
    requires Untouched(sz, ops, j + 1, i, p) && !Promised(m, sz, ops, zero)[i].Stop?
    ensures Promised(m, sz, ops, zero)[i] == Loaded(x)
  {
    WholeAt(m, sz, ops, j, zero);
    PlainAt(m, sz, ops, j, zero);
    StaysSame(m, sz, ops, j + 1, i, p, zero);
    PromisedAt(m, sz, ops, i, zero);
  }

  /** A load of a page that was never stored to reads what it had at the start ... */
  lemma ReadsFirst<T>(m: Memory<T>, sz: nat, ops: seq<Op<T>>, i: nat, p: nat, zero: T)
    requires Whole(m, sz) && PageCount(sz) <= MAX_TOTAL_PAGES
    requires i < |Promised(m, sz, ops, zero)| && i < |ops| && ops[i] == Load(p)
    requires Untouched(sz, ops, 0, i, p) && !Promised(m, sz, ops, zero)[i].Stop?
    ensures p in m.pages && Promised(m, sz, ops, zero)[i] == Loaded(m.pages[p])
  {
    StaysSame(m, sz, ops, 0, i, p, zero);
    PromisedAt(m, sz, ops, i, zero);
  }

  /** ... or zero, if sbrk has made it since. */
  lemma ReadsZero<T>(m: Memory<T>, sz: nat, ops: seq<Op<T>>, j: nat, i: nat, p: nat, zero: T)
    requires Whole(m, sz) && PageCount(sz) <= MAX_TOTAL_PAGES
    requires j < i < |Promised(m, sz, ops, zero)| && i < |ops| && ops[i] == Load(p)
    requires SizeAt(sz, ops, j) <= p * 4096 && Untouched(sz, ops, j + 1, i, p)
    ensures Promised(m, sz, ops, zero)[i] == Loaded(zero)
  {
    WholeAt(m, sz, ops, j, zero);
    PlainAt(m, sz, ops, j, zero);
    StaysSame(m, sz, ops, j + 1, i, p, zero);
    PromisedAt(m, sz, ops, i, zero);
  }

  /** sbrk answers with the size that the ones before it left. */
  lemma SbrkReports<T>(m: Memory<T>, sz: nat, ops: seq<Op<T>>, i: nat, zero: T)
    requires PageCount(sz) <= MAX_TOTAL_PAGES && i < |Promised(m, sz, ops, zero)| && i < |ops| && ops[i].Sbrk?
    ensures var size := SizeAt(sz, ops, i + 1);
            Promised(m, sz, ops, zero)[i]
            == if size <= 32 * 4096 then Sized(SizeAt(sz, ops, i)) else Stop(Panicked)
  {
    PromisedAt(m, sz, ops, i, zero);
    NewSizeIs(SizeAt(sz, ops, i), ops[i].n);
  }

  // ----- frames that run short -----

  /** The free frames and the used entries of p->ram. */
  datatype Spare = Spare(free: nat, used: nat)

  ghost function Used(arr: seq<PageData>): nat {
    if arr == [] then 0 else Used(arr[..|arr| - 1]) + if arr[|arr| - 1].used then 1 else 0
  }

  lemma {:induction false} UsedSet(arr: seq<PageData>, i: nat, e: PageData)
    requires i < |arr|
    ensures Used(arr[i := e]) + (if arr[i].used then 1 else 0) == Used(arr) + if e.used then 1 else 0
  {
    var n := |arr| - 1;
    if i < n {
      UsedSet(arr[..n], i, e);
      assert arr[i := e][..n] == arr[..n][i := e];
    } else {
      assert arr[i := e][..n] == arr[..n];
    }
  }

  lemma {:induction false} UsedSame(arr: seq<PageData>, arr1: seq<PageData>)
    requires |arr| == |arr1| && forall i :: 0 <= i < |arr| ==> arr[i].used == arr1[i].used
    ensures Used(arr) == Used(arr1)
  {
    if arr != [] { UsedSame(arr[..|arr| - 1], arr1[..|arr| - 1]); }
  }

  lemma {:induction false} UsedFull(arr: seq<PageData>)
    ensures Used(arr) <= |arr| && (Used(arr) == |arr| <==> Full(arr))
  {
    if arr != [] { UsedFull(arr[..|arr| - 1]); }
  }

  lemma {:induction false} UsedBlank(arr: seq<PageData>, p: int)
    ensures Used(Blank(arr, p)) <= Used(arr)
  {
    if arr != [] {
      var n := |arr| - 1;
      UsedBlank(arr[..n], p);
      assert Blank(arr, p)[..n] == Blank(arr[..n], p);
    }
  }

  /** Bringing a page in takes more frames than are free: one for the page and, if
      p->ram is full, one for the page that goes out. */
  predicate Short(sp: Spare) {
    sp.free < if sp.used == MAX_PSYC_PAGES then 2 else 1
  }

  /** A page has come in without another going out. */
  predicate CameIn(sp: Spare, sp1: Spare) {
    sp.used != MAX_PSYC_PAGES && sp.free > 0 && sp1 == Spare(sp.free - 1, sp.used + 1)
  }

  /** Pages have been given back. */
  predicate GivenBack(sp: Spare, sp1: Spare) {
    sp1.free >= sp.free && sp1.used <= sp.used
  }

  /** uvmalloc of page p. With p->ram full a page goes out, which takes a free frame for
      a while. */
  function GrowOne(sp: Spare, p: nat): (Growth, Spare) {
    if p >= MAX_TOTAL_PAGES || (sp.used == MAX_PSYC_PAGES && sp.free == 0) then (Panic, sp)
    else if sp.used == MAX_PSYC_PAGES then (Mapped, sp)
    else if sp.free == 0 then (NoMemory, sp)
    else (Mapped, Spare(sp.free - 1, sp.used + 1))
  }

  /** uvmalloc of pages a up to b. */
  function Growing(sp: Spare, a: nat, b: nat): (Growth, Spare)
    decreases b - a
  {
    if a >= b then (Mapped, sp)
    else
      var r := GrowOne(sp, a);
      if r.0 != Mapped then r else Growing(r.1, a + 1, b)
  }

  lemma {:induction false} GrowingEnough(sp: Spare, a: nat, b: nat)
    requires sp.free + a >= ENOUGH && a <= MAX_TOTAL_PAGES
    ensures Growing(sp, a, b).0 == if b > MAX_TOTAL_PAGES then Panic else Mapped
    decreases b - a
  {
    if a < b && a < MAX_TOTAL_PAGES { GrowingEnough(GrowOne(sp, a).1, a + 1, b); }
  }

  /** A growth takes frames only until p->ram is full. */
  lemma {:induction false} GrowingRoom(sp: Spare, a: nat, b: nat)
    requires sp.used <= MAX_PSYC_PAGES && Growing(sp, a, b).0 == Mapped
    ensures Growing(sp, a, b).1.free + MAX_PSYC_PAGES >= sp.free + sp.used
    decreases b - a
  {
    if a < b { GrowingRoom(GrowOne(sp, a).1, a + 1, b); }
  }

  /** growproc, from sz to size. */
  ghost predicate Resizes(sz: nat, size: nat, sp: Spare, r: Growth, sp1: Spare) {
    if size > sz then
      var g := Growing(sp, PageCount(sz), PageCount(size));
      r == g.0 && (r == Mapped ==> sp1 == g.1)
    else r == Mapped && GivenBack(sp, sp1)
  }

  ghost predicate Starved<T>(s: State<T>, p: int) {
    p in s.pt && s.pt[p].pg && |s.free| < if Full(s.ram) then 2 else 1
  }

  /** Every frame that is not free holds one of the pages. */
  ghost predicate Fits<T>(m: Memory<T>, sz: nat, sp: Spare) {
    |m.frames| <= sp.free + PageCount(sz)
  }

  /** The step is answered as promised, but for lack of frames: an access panics only
      if they are short while some page is paged out, sbrk is denied and panics
      exactly as Growing says. */
  ghost predicate Answers<T>(m: Memory<T>, sz: nat, sp: Spare, op: Op<T>, e: Event<T>, sp1: Spare) {
    match op
    case Load(p) => Accesses(m, sz, sp, op, e, sp1)
    case Store(p, _) => Accesses(m, sz, sp, op, e, sp1)
    case Sbrk(n) =>
      || (e == Sized(sz) && Resizes(sz, NewSize(sz, n), sp, Mapped, sp1))
      || (e == Denied && Resizes(sz, NewSize(sz, n), sp, NoMemory, sp1))
      || (e == Stop(Panicked) && Resizes(sz, NewSize(sz, n), sp, Panic, sp1))
    case Timer => e == Aged && sp1 == sp
  }

  ghost predicate Accesses<T>(m: Memory<T>, sz: nat, sp: Spare, op: Op<T>, e: Event<T>, sp1: Spare)
    requires op.Load? || op.Store?
  {
    if op.p in m.users && e == Stop(Panicked) then Short(sp) && |m.frames| < sp.free + PageCount(sz)
    else e == EventOf(m, sz, op) && (e.Stop? || sp1 == sp || CameIn(sp, sp1))
  }

  /** What a run may show. */
  ghost predicate Observed<T>(m: Memory<T>, sz: nat, sp: Spare, ops: seq<Op<T>>, events: seq<Event<T>>, zero: T)
    decreases |ops|
  {
    if ops == [] || events == [] then ops == [] && events == []
    else exists sp1 :: Goes(m, sz, sp, ops, events, sp1, zero)
  }

  /** The first step leaves sp1. */
  ghost predicate Goes<T>(m: Memory<T>, sz: nat, sp: Spare, ops: seq<Op<T>>, events: seq<Event<T>>, sp1: Spare, zero: T)
    requires ops != [] && events != []
    decreases |ops|, 0
  {
    var e := events[0];
    && Answers(m, sz, sp, ops[0], e, sp1)
    && if e.Stop? then |events| == 1
       else if e == Denied then Fits(m, sz, sp1) && Observed(m, sz, sp1, ops[1..], events[1..], zero)
       else
         var m1, sz1 := MemoryAfter(m, sz, ops[0], zero), SizeAfter(sz, ops[0]);
         Fits(m1, sz1, sp1) && Observed(m1, sz1, sp1, ops[1..], events[1..], zero)
  }

  /** With enough frames a step is answered as promised. */
  lemma AnswersEnough<T>(m: Memory<T>, sz: nat, sp: Spare, op: Op<T>, e: Event<T>, sp1: Spare)
    requires Answers(m, sz, sp, op, e, sp1) && Fits(m, sz, sp) && |m.frames| >= ENOUGH
    requires PageCount(sz) <= MAX_TOTAL_PAGES
    ensures e == EventOf(m, sz, op) && e != Denied && (!e.Stop? ==> PageCount(SizeAfter(sz, op)) <= MAX_TOTAL_PAGES)
  {
    if op.Sbrk? { GrowingEnough(sp, PageCount(sz), PageCount(NewSize(sz, op.n))); }
  }

  /** With enough frames a run shows what is promised, and nothing else. */
  lemma {:induction false} EnoughFrames<T>(m: Memory<T>, sz: nat, sp: Spare, ops: seq<Op<T>>, events: seq<Event<T>>,
                                           zero: T)
    requires Observed(m, sz, sp, ops, events, zero) && Fits(m, sz, sp) && PageCount(sz) <= MAX_TOTAL_PAGES
    ensures |m.frames| >= ENOUGH ==> events == Promised(m, sz, ops, zero)
    decreases |ops|
  {
    if ops != [] && |m.frames| >= ENOUGH {
      var e := events[0];
      var sp1 :| Goes(m, sz, sp, ops, events, sp1, zero);
      AnswersEnough(m, sz, sp, ops[0], e, sp1);
      if !e.Stop? {
        EnoughFrames(MemoryAfter(m, sz, ops[0], zero), SizeAfter(sz, ops[0]), sp1, ops[1..], events[1..], zero);
      }
      assert events == [e] + events[1..];
    }
  }

  /** Whatever the rest of the run may show, after these events the whole may show. */
  ghost predicate Extends<T(!new)>(m0: Memory<T>, sz0: nat, sp0: Spare, ops: seq<Op<T>>, events: seq<Event<T>>,
                                   m: Memory<T>, sz: nat, sp: Spare, left: seq<Op<T>>, zero: T) {
    forall rest :: Observed(m, sz, sp, left, rest, zero) ==> Observed(m0, sz0, sp0, ops, events + rest, zero)
  }

  lemma ExtendsNone<T(!new)>(m: Memory<T>, sz: nat, sp: Spare, ops: seq<Op<T>>, zero: T)
    ensures Extends(m, sz, sp, ops, [], m, sz, sp, ops, zero)
  {
    forall rest | Observed(m, sz, sp, ops, rest, zero)
      ensures Observed(m, sz, sp, ops, [] + rest, zero)
    {
      assert [] + rest == rest;
    }
  }

  lemma ExtendsAll<T(!new)>(m0: Memory<T>, sz0: nat, sp0: Spare, ops: seq<Op<T>>, events: seq<Event<T>>, m: Memory<T>,
                            sz: nat, sp: Spare, zero: T)
    requires Extends(m0, sz0, sp0, ops, events, m, sz, sp, [], zero)
    ensures Observed(m0, sz0, sp0, ops, events, zero)
  {
    assert Observed(m, sz, sp, [], [], zero);
    assert events + [] == events;
  }

  lemma ExtendsNext<T(!new)>(m0: Memory<T>, sz0: nat, sp0: Spare, ops: seq<Op<T>>, events: seq<Event<T>>, m: Memory<T>,
                             sz: nat, sp: Spare, i: nat, e: Event<T>, m1: Memory<T>, sz1: nat, sp1: Spare, zero: T)
    requires i < |ops| && Extends(m0, sz0, sp0, ops, events, m, sz, sp, ops[i..], zero)
    requires Answers(m, sz, sp, ops[i], e, sp1) && (!e.Stop? ==> Fits(m1, sz1, sp1))
    requires e == Denied ==> m1 == m && sz1 == sz
    requires !e.Stop? && e != Denied ==> m1 == MemoryAfter(m, sz, ops[i], zero) && sz1 == SizeAfter(sz, ops[i])
    ensures e.Stop? ==> Observed(m0, sz0, sp0, ops, events + [e], zero)
    ensures !e.Stop? ==> Extends(m0, sz0, sp0, ops, events + [e], m1, sz1, sp1, ops[i + 1..], zero)
  {
    assert ops[i..][1..] == ops[i + 1..];
    if e.Stop? {
      assert Goes(m, sz, sp, ops[i..], [e], sp1, zero);
    } else {
      forall rest | Observed(m1, sz1, sp1, ops[i + 1..], rest, zero)
        ensures Observed(m0, sz0, sp0, ops, events + [e] + rest, zero)
      {
        assert ([e] + rest)[1..] == rest;
        assert Goes(m, sz, sp, ops[i..], [e] + rest, sp1, zero);
        assert Observed(m, sz, sp, ops[i..], [e] + rest, zero);
        assert events + ([e] + rest) == events + [e] + rest;
      }
    }
  }

  lemma ShowsPage<T>(s: State<T>, policy: Policy, m: Memory<T>, p: int)
    requires Shows(s, policy, m)
    ensures p in m.pages <==> p in s.pt
  {
    assert Unfold(0);
  }

  /** Frames that are not free hold pages. */
  lemma FramesLeft<T>(s: State<T>, policy: Policy, m: Memory<T>, n: nat)
    requires Shows(s, policy, m) && Dense(s.pt, n)
    ensures |m.frames| == |s.free| + Resident(s.pt, n)
  {
    assert Unfold(0);
    FramesConserved(s.pt, s.mem.Keys, s.free, n);
  }

  lemma {:induction false} ResidentAll(pt: Table, n: nat)
    requires forall p :: 0 <= p < n ==> p in pt && pt[p].v
    ensures Resident(pt, n) == n
  {
    if n > 0 { ResidentAll(pt, n - 1); }
  }

  lemma {:induction false} ResidentLess(pt: Table, n: nat, p: nat)
    requires p < n && p in pt && !pt[p].v
    ensures Resident(pt, n) < n
  {
    if p < n - 1 { ResidentLess(pt, n - 1, p); }
  }

  lemma SwappedCounts<T>(s: State<T>, policy: Policy, m: Memory<T>, n: nat, p: int)
    requires Shows(s, policy, m) && Dense(s.pt, n) && p in s.pt && s.pt[p].pg
    ensures |m.frames| < |s.free| + n
  {
    FramesLeft(s, policy, m, n);
    ShowsUser(s, policy, m, p);
    ResidentLess(s.pt, n, p);
  }

  /** With fewer frames in use than pages, some page is paged out. */
  lemma SomeSwapped<T>(s: State<T>, policy: Policy, m: Memory<T>, n: nat)
    requires Shows(s, policy, m) && Dense(s.pt, n) && |m.frames| < |s.free| + n
    ensures exists p :: 0 <= p < n && p in s.pt && s.pt[p].pg
  {
    FramesLeft(s, policy, m, n);
    if forall p :: 0 <= p < n ==> !s.pt[p].pg {
      forall p | 0 <= p < n
        ensures p in s.pt && s.pt[p].v
      {
        ShowsUser(s, policy, m, p);
      }
      ResidentAll(s.pt, n);
    }
  }

  lemma ShowsDense<T>(s: State<T>, r: State<T>, policy: Policy, m: Memory<T>, n: nat)
    requires Shows(s, policy, m) && Shows(r, policy, m) && Dense(s.pt, n)
    ensures Dense(r.pt, n)
  {
    assert Unfold(0);
    assert m.pages.Keys == s.pt.Keys && m.pages.Keys == r.pt.Keys;
  }

  lemma ShowsContent<T>(s: State<T>, policy: Policy, m: Memory<T>, p: int)
    requires Shows(s, policy, m) && p in s.pt && s.pt[p].v
    ensures s.pt[p].frame in s.mem && p in m.pages && m.pages[p] == s.mem[s.pt[p].frame]
  {
    assert Unfold(0);
    assert Defined(s, p);
  }

  lemma StoreShows<T>(s: State<T>, policy: Policy, m: Memory<T>, p: int, x: T)
    requires Shows(s, policy, m) && p in s.pt && s.pt[p].v && s.pt[p].frame in s.mem
    ensures Shows(s.(mem := s.mem[s.pt[p].frame := x]), policy, m.(pages := m.pages[p := x]))
  {
    assert Unfold(0);
    var r := s.(mem := s.mem[s.pt[p].frame := x]);
    assert r.mem.Keys == s.mem.Keys;
    ValidReadable(r, policy);
    forall q | q in s.pt
      ensures Content(r, q) == if q == p then x else Content(s, q)
    {
      assert Defined(s, q) && Defined(r, q);
    }
    assert View(r) == m.pages[p := x];
    Fold(r, policy, m.(pages := m.pages[p := x]));
  }

  /** What walkaddr accepts. */
  predicate Copyable(pt: Table, p: int) {
    p in pt && pt[p].v && pt[p].u
  }

  /** Here paging does show: a page that the process may use can be copied by the
      kernel exactly if it is not paged out. */
  lemma CopyNeedsResident<T>(s: State<T>, policy: Policy, m: Memory<T>, p: int)
    requires Shows(s, policy, m) && p in m.users
    ensures p in s.pt && (Copyable(s.pt, p) <==> !s.pt[p].pg)
  {
    ShowsUser(s, policy, m, p);
  }

  function Numbers(n: nat): seq<nat> {
    seq(n, i => i)
  }

  /** A process whose only page is in the swap file, with frames to spare. */
  function SwappedOut<T>(x: T): State<T> {
    State(map[0 := Pte(0, false, true, false, true)], map f | f in Numbers(ENOUGH) :: x, Numbers(ENOUGH),
          seq(MAX_PSYC_PAGES, _ => EMPTY), seq(MAX_PSYC_PAGES, _ => EMPTY)[0 := PageData(true, 0, 0, 0, 0)], [x], 0)
  }

  /** The process may use its page, a load brings it in, and a system call on it fails. */
  lemma SwappedBufferFails<T>(x: T)
    ensures var s := SwappedOut(x);
            var m := Memory(map[0 := x], {0}, s.mem.Keys);
            Shows(s, SCFIFO, m) && 0 in m.users && !Copyable(s.pt, 0) && !Starved(s, 0) && |s.free| >= ENOUGH
  {
    var s := SwappedOut(x);
    var m := Memory(map[0 := x], {0}, s.mem.Keys);
    assert s.swap[0].used && s.swap[0].page == 0;
    assert Valid(s, SCFIFO);
    ValidReadable(s, SCFIFO);
    assert Defined(s, 0);
    assert View(s) == m.pages;
    Fold(s, SCFIFO, m);
  }

  lemma ShowsUser<T>(s: State<T>, policy: Policy, m: Memory<T>, p: int)
    requires Shows(s, policy, m)
    ensures p in m.users <==> p in s.pt && s.pt[p].u
    ensures p in s.pt ==> s.pt[p].v != s.pt[p].pg && (s.pt[p].pg ==> s.pt[p].u)
  {
    assert Unfold(0);
  }

  lemma AccessKeeps<T>(s: State<T>, policy: Policy, m: Memory<T>, p: int)
    requires Shows(s, policy, m) && p in s.pt
    ensures Shows(s.(pt := s.pt[p := s.pt[p].(a := true)]), policy, m)
  {
    ShowsValid(s, policy, m);
    PolicyShows(s, policy, m, s.ram, s.pt[p := s.pt[p].(a := true)], s.counter);
  }

  /** A paged-out page is found in p->swap, at a slot inside the file. */
  lemma SwapReady<T>(s: State<T>, policy: Policy, p: int)
    requires Valid(s, policy) && p in s.pt && s.pt[p].pg
    ensures !s.pt[p].v && Has(s.swap, p)
    ensures forall i :: 0 <= i < |s.swap| && s.swap[i].page == p ==> s.swap[i].used && i < |s.file|
  {
    assert s.pt[p].v != s.pt[p].pg;
    assert Has(s.swap, p);
  }

  // ----- the pure steps of swap_pages -----

  /** The PTE of `out` is invalidated and its entry of p->ram blanked. */
  function Detached<T>(s: State<T>, out: int, ri: nat): State<T>
    requires out in s.pt && ri < |s.ram|
  {
    s.(pt := s.pt[out := s.pt[out].(v := false)], ram := s.ram[ri := EMPTY])
  }

  function WrittenOut<T>(s: State<T>, out: int, k: nat, junk: T): State<T>
    requires out in s.pt && s.pt[out].frame in s.mem && s.free != [] && k < |s.swap| && k <= |s.file|
  {
    var g := s.pt[out].frame;
    s.(pt := s.pt[out := s.pt[out].(pg := true)], mem := s.mem[s.free[0] := junk][g := junk], free := [g] + s.free,
       swap := s.swap[k := s.swap[k].(used := true, page := out, offset := k * PGSIZE)],
       file := Stored(s.file, k, s.mem[g]))
  }

  lemma ExchangeReady<T>(s: State<T>, policy: Policy, into: int, out: int)
    requires Valid(s, policy) && out in s.pt && Has(s.ram, out) && Has(s.swap, into)
    ensures s.pt[out].v && s.pt[out].frame in s.mem && s.pt[out].frame !in s.free && out >= 0
    ensures into in s.pt && !s.pt[into].v && into != out && into >= 0 && SlotOf(s.swap, into) < |s.file|
    ensures forall i :: 0 <= i < |s.ram| && s.ram[i].page == out ==> s.ram[i].used
    ensures forall i :: 0 <= i < |s.swap| && s.swap[i].page == into ==> s.swap[i].used && i == SlotOf(s.swap, into)
  {
    var i :| 0 <= i < |s.ram| && s.ram[i].used && s.ram[i].page == out;
    assert s.pt[s.ram[i].page].v;
    var j := SlotOf(s.swap, into);
    assert s.pt[s.swap[j].page].pg;
    assert s.pt[into].v != s.pt[into].pg;
    assert s.pt[out].v != s.pt[out].pg;
  }

  lemma ExchangeIsComposed<T>(s: State<T>, policy: Policy, into: int, out: int, ri: nat, k: nat, junk: T)
    requires out in s.pt && into != out && s.pt[out].frame in s.mem && |s.free| >= 2 && s.pt[out].frame !in s.free
    requires ri < |s.ram| && k < |s.swap| && k < |s.file|
    ensures var d := SwapIn(Detached(s, out, ri), policy, into, ri, k);
            d.pt[out].frame in d.mem && WrittenOut(d, out, k, junk) == Exchange(s, policy, into, out, ri, k, junk)
  {
    var d := SwapIn(Detached(s, out, ri), policy, into, ri, k);
    var r, e := WrittenOut(d, out, k, junk), Exchange(s, policy, into, out, ri, k, junk);
    assert r.pt == e.pt;
    assert r.mem == e.mem;
    assert r.ram == e.ram;
    assert r.swap == e.swap;
  }

  lemma EvictReady<T>(s: State<T>, policy: Policy, out: int)
    requires Valid(s, policy) && out in s.pt && Has(s.ram, out)
    ensures s.pt[out].v && s.pt[out].frame in s.mem && s.pt[out].frame !in s.free && out >= 0
    ensures forall i :: 0 <= i < |s.ram| && s.ram[i].page == out ==> s.ram[i].used
  {
    var i :| 0 <= i < |s.ram| && s.ram[i].used && s.ram[i].page == out;
    assert s.pt[s.ram[i].page].v;
    assert s.pt[out].v != s.pt[out].pg;
  }

  lemma EvictIsComposed<T>(s: State<T>, out: int, ri: nat, k: nat, junk: T)
    requires out in s.pt && s.pt[out].frame in s.mem && s.free != []
    requires ri < |s.ram| && k < |s.swap| && k <= |s.file| && s.swap[k] == EMPTY
    ensures WrittenOut(Detached(s, out, ri), out, k, junk) == Evict(s, out, ri, k, junk)
  {
    var r, e := WrittenOut(Detached(s, out, ri), out, k, junk), Evict(s, out, ri, k, junk);
    assert r.pt == e.pt;
  }
}
