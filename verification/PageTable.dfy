/** Sv39 page tables (kernel/vm.c; section 4.4 of the RISC-V Privileged
    Architecture, version 1.11): three levels of pages of 512 entries. Virtual
    and physical addresses are counted in pages. */
module PageTable {
  import opened Basics

  const ENTRIES: nat := 512
  const MAXPAGE: nat := 0x400_0000   // MAXVA / PGSIZE

  /** A PTE: pg is PTE_PG, rwx says that R, W or X is set, perm stands for the
      remaining flags. */
  datatype Pte = Pte(ppn: nat, v: bool, pg: bool, rwx: bool, perm: nat)

  const ZERO := Pte(0, false, false, false, 0)

  type Page = seq<Pte>

  function ZeroPage(): (p: Page)
    ensures |p| == ENTRIES && forall i :: 0 <= i < ENTRIES ==> p[i] == ZERO
  {
    seq(ENTRIES, _ => ZERO)
  }

  /** PX(level, va) */
  function Px(level: nat, vpn: nat): (i: nat)
    requires level <= 2 && vpn < MAXPAGE
    ensures i < ENTRIES
  {
    if level == 0 then vpn % 512 else if level == 1 then vpn / 512 % 512 else vpn / 262144
  }

  /** The three indices are the digits of the page number. */
  lemma PxIs(vpn: nat)
    requires vpn < MAXPAGE
    ensures vpn == 262144 * Px(2, vpn) + 512 * Px(1, vpn) + Px(0, vpn)
  {
  }

  lemma PxDetermine(a: nat, b: nat)
    requires a < MAXPAGE && b < MAXPAGE && Px(2, a) == Px(2, b) && Px(1, a) == Px(1, b) && Px(0, a) == Px(0, b)
    ensures a == b
  {
  }

  /** Table pages by physical page number, with the level and the place of the one
      entry that points to each. */
  datatype Tables = Tables(root: nat, pages: map<nat, Page>, level: map<nat, nat>, up: map<nat, (nat, nat)>)

  ghost predicate Known(s: Tables, t: nat) {
    t in s.pages && t in s.level && s.level[t] <= 2 && |s.pages[t]| == ENTRIES
  }

  /** Entry i of t is zero, or a leaf at level 0, or points to a table one level down. */
  ghost predicate EntryOk(s: Tables, t: nat, i: nat)
    requires Known(s, t) && i < ENTRIES
  {
    var e := s.pages[t][i];
    if s.level[t] == 0 then e.v ==> e.rwx
    else if !e.v then true
    else !e.rwx && Known(s, e.ppn) && s.level[e.ppn] == s.level[t] - 1 && e.ppn in s.up && s.up[e.ppn] == (t, i)
  }

  /** A table other than the root hangs where `up` says. */
  ghost predicate UpOk(s: Tables, c: nat)
    requires Known(s, c)
  {
    c == s.root || (c in s.up && s.level[c] < 2 &&
      var (t, i) := s.up[c];
      Known(s, t) && i < ENTRIES && s.level[t] == s.level[c] + 1 && s.pages[t][i].v && s.pages[t][i].ppn == c)
  }

  /** The tables form a tree below the root. */
  ghost predicate Tree(s: Tables) {
    && Known(s, s.root) && s.level[s.root] == 2
    && (forall t {:trigger Known(s, t)} :: t in s.pages ==> Known(s, t) && UpOk(s, t))
    && (forall t, i {:trigger s.pages[t][i]} :: t in s.pages && 0 <= i < ENTRIES ==> Known(s, t) && EntryOk(s, t, i))
  }

  // ----- the flat map -----

  ghost function Down(s: Tables, t: nat, i: nat): Option<nat>
    requires i < ENTRIES
  {
    if t in s.pages && |s.pages[t]| == ENTRIES && s.pages[t][i].v then Some(s.pages[t][i].ppn) else None
  }

  /** The level-0 table for a page, if walk gets that far. */
  ghost function LeafTable(s: Tables, vpn: nat): Option<nat>
    requires vpn < MAXPAGE
  {
    match Down(s, s.root, Px(2, vpn))
    case None => None
    case Some(t) => Down(s, t, Px(1, vpn))
  }

  /** The tables that walk would have to add for a page. */
  ghost function Missing(s: Tables, vpn: nat): nat
    requires vpn < MAXPAGE
  {
    if Down(s, s.root, Px(2, vpn)).None? then 2 else if LeafTable(s, vpn).None? then 1 else 0
  }

  function Min(a: nat, b: nat): nat {
    if a < b then a else b
  }

  function Max(a: nat, b: nat): nat {
    if a < b then b else a
  }

  /** How many tables on the way to page a are not on the way to page b. */
  function Near(a: nat, b: nat): nat {
    if a / 512 == b / 512 then 0 else if a / 262144 == b / 262144 then 1 else 2
  }

  lemma NearCloser(v: nat, a: nat)
    requires 0 < a <= v
    ensures Near(v, a) <= Near(v, a - 1)
  {
  }

  lemma NearPx(v: nat, w: nat)
    requires v < MAXPAGE && w < MAXPAGE
    ensures Near(v, w) <= 1 <==> Px(2, v) == Px(2, w)
    ensures Near(v, w) == 0 <==> Px(2, v) == Px(2, w) && Px(1, v) == Px(1, w)
  {
    PxParts(v);
    PxParts(w);
  }

  lemma PxParts(v: nat)
    requires v < MAXPAGE
    ensures v / 512 == 512 * Px(2, v) + Px(1, v)
  {
  }

  /** The tables that mappages has to add for page v, after the pages from first on. */
  ghost function Fresh(s: Tables, first: nat, v: nat): nat
    requires first <= v < MAXPAGE
  {
    Min(Missing(s, v), if v == first then 2 else Near(v, v - 1))
  }

  /** The tables it has to add for n pages. */
  ghost function TablesFor(s: Tables, first: nat, n: nat): nat
    requires first + n <= MAXPAGE
  {
    if n == 0 then 0 else TablesFor(s, first, n - 1) + Fresh(s, first, first + n - 1)
  }

  lemma {:induction false} TablesMore(s: Tables, first: nat, m: nat, n: nat)
    requires m <= n && first + n <= MAXPAGE
    ensures TablesFor(s, first, m) <= TablesFor(s, first, n)
  {
    if m < n { TablesMore(s, first, m, n - 1); }
  }

  /** The PTE for a page; zero where there is no table for it. */
  ghost function Flat(s: Tables, vpn: nat): Pte
    requires vpn < MAXPAGE
  {
    match LeafTable(s, vpn)
    case None => ZERO
    case Some(t) => if t in s.pages && |s.pages[t]| == ENTRIES then s.pages[t][Px(0, vpn)] else ZERO
  }

  /** Present or paged out. */
  ghost predicate Mapped(s: Tables, v: nat) {
    v < MAXPAGE && (Flat(s, v).v || Flat(s, v).pg)
  }

  lemma LeafIsKnown(s: Tables, vpn: nat)
    requires Tree(s) && vpn < MAXPAGE && LeafTable(s, vpn).Some?
    ensures var t := LeafTable(s, vpn).value;
            Known(s, t) && s.level[t] == 0 && t in s.up && s.up[t].1 == Px(1, vpn)
            && s.up[t].0 in s.up && s.up[s.up[t].0] == (s.root, Px(2, vpn))
  {
    var m := s.pages[s.root][Px(2, vpn)].ppn;
    assert EntryOk(s, s.root, Px(2, vpn));
    assert EntryOk(s, m, Px(1, vpn));
  }

  /** Different pages have different slots. */
  lemma SlotsDiffer(s: Tables, a: nat, b: nat)
    requires Tree(s) && a < MAXPAGE && b < MAXPAGE && LeafTable(s, a).Some? && LeafTable(s, a) == LeafTable(s, b)
    requires Px(0, a) == Px(0, b)
    ensures a == b
  {
    LeafIsKnown(s, a);
    LeafIsKnown(s, b);
    PxDetermine(a, b);
  }

  // ----- storing a leaf -----

  function WithPte(s: Tables, t: nat, i: nat, e: Pte): Tables
    requires t in s.pages && i < |s.pages[t]|
  {
    s.(pages := s.pages[t := s.pages[t][i := e]])
  }

  lemma LeafTree(s: Tables, t: nat, i: nat, e: Pte)
    requires Tree(s) && Known(s, t) && s.level[t] == 0 && i < ENTRIES && (e.v ==> e.rwx)
    ensures Tree(WithPte(s, t, i, e))
  {
    var s1 := WithPte(s, t, i, e);
    forall x | x in s1.pages
      ensures Known(s1, x) && UpOk(s1, x)
    {
      assert Known(s, x);
    }
    forall x, j | x in s1.pages && 0 <= j < ENTRIES
      ensures Known(s1, x) && EntryOk(s1, x, j)
    {
      assert Known(s, x) && EntryOk(s, x, j);
    }
  }

  lemma LeafFlat(s: Tables, vpn: nat, e: Pte, v: nat)
    requires Tree(s) && vpn < MAXPAGE && LeafTable(s, vpn).Some? && v < MAXPAGE
    ensures Known(s, LeafTable(s, vpn).value)
    ensures var s1 := WithPte(s, LeafTable(s, vpn).value, Px(0, vpn), e);
            LeafTable(s1, v) == LeafTable(s, v) && Flat(s1, v) == if v == vpn then e else Flat(s, v)
  {
    LeafIsKnown(s, vpn);
    if LeafTable(s, v).Some? {
      LeafIsKnown(s, v);
      if LeafTable(s, v) == LeafTable(s, vpn) && Px(0, v) == Px(0, vpn) { SlotsDiffer(s, v, vpn); }
    }
    DownKnown(s, v);
  }

  /** The table that a walk's first step leads to. */
  lemma DownKnown(s: Tables, v: nat)
    requires Tree(s) && v < MAXPAGE
    ensures match Down(s, s.root, Px(2, v)) case None => true case Some(m) => Known(s, m) && s.level[m] == 1
  {
    assert EntryOk(s, s.root, Px(2, v));
  }

  // ----- adding a table -----

  function WithTable(s: Tables, t: nat, i: nat, c: nat): Tables
    requires t in s.pages && t in s.level && s.level[t] > 0 && i < |s.pages[t]|
  {
    s.(pages := s.pages[t := s.pages[t][i := Pte(c, true, false, false, 0)]][c := ZeroPage()],
       level := s.level[c := s.level[t] - 1], up := s.up[c := (t, i)])
  }

  lemma TableTree(s: Tables, t: nat, i: nat, c: nat)
    requires Tree(s) && Known(s, t) && s.level[t] > 0 && i < ENTRIES && !s.pages[t][i].v && c !in s.pages
    ensures Tree(WithTable(s, t, i, c))
  {
    var s1 := WithTable(s, t, i, c);
    forall x | x in s1.pages
      ensures Known(s1, x) && UpOk(s1, x)
    {
      if x != c {
        assert Known(s, x) && UpOk(s, x);
        if x != s.root { assert Known(s1, s.up[x].0); }
      }
    }
    forall x, j | x in s1.pages && 0 <= j < ENTRIES
      ensures Known(s1, x) && EntryOk(s1, x, j)
    {
      assert x != c ==> Known(s, x) && EntryOk(s, x, j);
    }
  }

  /** A new table is empty, so that no page's PTE changes. */
  lemma TableFlat(s: Tables, t: nat, i: nat, c: nat, v: nat)
    requires Tree(s) && Known(s, t) && s.level[t] > 0 && i < ENTRIES && !s.pages[t][i].v && c !in s.pages && v < MAXPAGE
    ensures Flat(WithTable(s, t, i, c), v) == Flat(s, v)
  {
    DownKnown(s, v);
    if LeafTable(s, v).Some? { LeafIsKnown(s, v); }
  }

  /** A table added on the way to a page is one less to add. */
  lemma MissingAdded(s: Tables, vpn: nat, t: nat, i: nat, c: nat)
    requires Tree(s) && Known(s, t) && s.level[t] > 0 && i < ENTRIES && !s.pages[t][i].v && c !in s.pages
    requires vpn < MAXPAGE
    requires i == Px(s.level[t], vpn) && (t == s.root || Down(s, s.root, Px(2, vpn)) == Some(t))
    ensures Missing(s, vpn) == s.level[t] && Missing(WithTable(s, t, i, c), vpn) == s.level[t] - 1
    ensures if t == s.root then Down(WithTable(s, t, i, c), s.root, i) == Some(c)
            else LeafTable(WithTable(s, t, i, c), vpn) == Some(c)
  {
    DownKnown(s, vpn);
    assert UpOk(s, t);
  }

  /** The tables that are missing for other pages then. */
  lemma MissingElsewhere(s: Tables, vpn: nat, t: nat, i: nat, c: nat, v: nat)
    requires Tree(s) && Known(s, t) && s.level[t] > 0 && i < ENTRIES && !s.pages[t][i].v && c !in s.pages
    requires vpn < MAXPAGE && v < MAXPAGE
    requires i == Px(s.level[t], vpn) && (t == s.root || Down(s, s.root, Px(2, vpn)) == Some(t))
    ensures Missing(WithTable(s, t, i, c), v) == Min(Missing(s, v), Max(s.level[t] - 1, Near(v, vpn)))
  {
    DownKnown(s, vpn);
    DownKnown(s, v);
    NearPx(v, vpn);
    assert UpOk(s, t) && EntryOk(s, s.root, Px(2, v)) && EntryOk(s, s.root, Px(2, vpn));
    if LeafTable(s, v).Some? { LeafIsKnown(s, v); }
  }

  /** A table that is there is there for other pages too. */
  lemma MissingThere(s: Tables, vpn: nat, t: nat, v: nat)
    requires Tree(s) && Known(s, t) && s.level[t] > 0 && vpn < MAXPAGE && v < MAXPAGE
    requires s.pages[t][Px(s.level[t], vpn)].v && (t == s.root || Down(s, s.root, Px(2, vpn)) == Some(t))
    ensures Missing(s, v) <= Max(s.level[t] - 1, Near(v, vpn))
  {
    DownKnown(s, vpn);
    NearPx(v, vpn);
    assert UpOk(s, t);
  }

  /** walk is never given an address of MAXVA or above. */
  ghost predicate Low(s: Tables) {
    s.root in s.pages && forall i :: 256 <= i < |s.pages[s.root]| ==> !s.pages[s.root][i].v
  }

  /** Tree, folded (the quantifier has no other trigger) except where a proof
      mentions Unfold. */
  ghost predicate Whole(s: Tables) {
    forall k {:trigger Unfold(k)} :: k >= 0 ==> Tree(s)
  }

  lemma Opened(s: Tables)
    requires Whole(s)
    ensures Tree(s)
  {
    assert Unfold(0);
  }

  /** mappages has mapped the pages from first to a, and has taken the tables for them
      from n0 free pages, so that n are left. Folded too. */
  ghost predicate Mapping(s0: Tables, s: Tables, n0: nat, n: nat, first: nat, a: nat, pa: nat, perm: nat) {
    && first <= a && (a > first ==> a <= MAXPAGE)
    && forall k {:trigger Unfold(k)} :: k >= 0 ==>
      && (forall v :: 0 <= v < MAXPAGE ==>
            Flat(s, v) == if first <= v < a then Pte(pa + (v - first), true, false, true, perm) else Flat(s0, v))
      && (forall v :: first <= v < a ==> !Flat(s0, v).v)
      && (forall v :: a <= v < MAXPAGE ==>
            Missing(s, v) == Min(Missing(s0, v), if a == first then 2 else Near(v, a - 1)))
      && n == n0 - if a == first then 0 else TablesFor(s0, first, a - first)
  }

  lemma MappingNone(s: Tables, n: nat, first: nat, pa: nat, perm: nat)
    ensures Mapping(s, s, n, n, first, first, pa, perm)
  {
    assert forall v :: 0 <= v < MAXPAGE ==> Missing(s, v) == Min(Missing(s, v), 2);
  }

  lemma MappingIs(s0: Tables, s: Tables, n0: nat, n: nat, first: nat, a: nat, pa: nat, perm: nat)
    requires Mapping(s0, s, n0, n, first, a, pa, perm)
    ensures forall v :: 0 <= v < MAXPAGE ==>
              Flat(s, v) == if first <= v < a then Pte(pa + (v - first), true, false, true, perm) else Flat(s0, v)
    ensures forall v :: first <= v < a ==> !Flat(s0, v).v
    ensures a > first ==> n0 >= TablesFor(s0, first, a - first)
  {
    assert Unfold(0);
  }

  lemma MappingNext(s0: Tables, s: Tables, s1: Tables, n0: nat, n: nat, n1: nat, first: nat, a: nat, pa: nat, perm: nat)
    requires Mapping(s0, s, n0, n, first, a, pa, perm) && a < MAXPAGE && !Flat(s0, a).v
    requires forall v :: 0 <= v < MAXPAGE ==>
               Flat(s1, v) == if v == a then Pte(pa + (a - first), true, false, true, perm) else Flat(s, v)
    requires forall v :: 0 <= v < MAXPAGE ==> Missing(s1, v) == Min(Missing(s, v), Near(v, a))
    requires n1 == n - Missing(s, a)
    ensures Mapping(s0, s1, n0, n1, first, a + 1, pa, perm)
  {
    assert Unfold(0);
    forall v | a < v < MAXPAGE
      ensures Missing(s1, v) == Min(Missing(s0, v), Near(v, a))
    {
      if a > first { NearCloser(v, a); }
    }
    assert Missing(s, a) == Fresh(s0, first, a);
  }

  lemma MappingStops(s0: Tables, s: Tables, n0: nat, n: nat, first: nat, a: nat, pa: nat, perm: nat)
    requires Mapping(s0, s, n0, n, first, a, pa, perm)
    ensures a < MAXPAGE && n < Missing(s, a) ==> n0 < TablesFor(s0, first, a - first + 1)
  {
    assert Unfold(0);
    if a < MAXPAGE { assert Missing(s, a) == Fresh(s0, first, a); }
  }

  /** What mappages promises. Folded too. */
  ghost predicate Maps(s0: Tables, s: Tables, n0: nat, first: nat, last: nat, pa: nat, perm: nat, r: bool, ok: bool,
                       w: nat) {
    && first <= last && w <= last - first + 1 && (w > 0 ==> first + w <= MAXPAGE)
    && (r && ok <==> w == last - first + 1) && (r && !ok ==> first + w < MAXPAGE)
    && forall k {:trigger Unfold(k)} :: k >= 0 ==>
      && (forall v :: 0 <= v < MAXPAGE ==>
            Flat(s, v) == if first <= v < first + w then Pte(pa + (v - first), true, false, true, perm)
                          else Flat(s0, v))
      && (forall v :: first <= v < first + w ==> !Flat(s0, v).v)
      && (w > 0 ==> n0 >= TablesFor(s0, first, w))
      && (!r ==> first + w >= MAXPAGE || Flat(s0, first + w).v)
      && (r && !ok ==> !Flat(s0, first + w).v && n0 < TablesFor(s0, first, w + 1))
  }

  lemma MapsIs(s0: Tables, s: Tables, n0: nat, first: nat, last: nat, pa: nat, perm: nat, r: bool, ok: bool, w: nat)
    requires Maps(s0, s, n0, first, last, pa, perm, r, ok, w)
    ensures forall v :: 0 <= v < MAXPAGE ==>
              Flat(s, v) == if first <= v < first + w then Pte(pa + (v - first), true, false, true, perm)
                            else Flat(s0, v)
    ensures forall v :: first <= v < first + w ==> !Flat(s0, v).v
    ensures w > 0 ==> n0 >= TablesFor(s0, first, w)
    ensures !r ==> first + w >= MAXPAGE || Flat(s0, first + w).v
    ensures r && !ok ==> !Flat(s0, first + w).v && n0 < TablesFor(s0, first, w + 1)
  {
    assert Unfold(0);
  }

  lemma MapsAllPages(s0: Tables, s: Tables, n0: nat, n: nat, first: nat, last: nat, pa: nat, perm: nat)
    requires first <= last && Mapping(s0, s, n0, n, first, last + 1, pa, perm)
    ensures Maps(s0, s, n0, first, last, pa, perm, true, true, last - first + 1)
  {
    MappingIs(s0, s, n0, n, first, last + 1, pa, perm);
  }

  /** The pages are below MAXVA and none is present, and there is a free page for each
      table that is missing. */
  ghost predicate CanMap(s: Tables, n: nat, first: nat, last: nat) {
    && first <= last < MAXPAGE && n >= TablesFor(s, first, last - first + 1)
    && forall v :: first <= v <= last ==> !Flat(s, v).v
  }

  lemma MapsAll(s: Tables, n: nat, first: nat, last: nat, r: bool, ok: bool, w: nat)
    requires CanMap(s, n, first, last) && w <= last - first + 1
    requires r && ok <==> w == last - first + 1
    requires !r ==> first + w >= MAXPAGE || Flat(s, first + w).v
    requires r && !ok ==> first + w < MAXPAGE && n < TablesFor(s, first, w + 1)
    ensures r && ok
  {
    if r && !ok { TablesMore(s, first, w + 1, last - first + 1); }
  }

  // ----- the pages in use -----

  class PageTable {
    const root: nat
    var pages: map<nat, Page>
    var free: seq<nat>           // kmem.freelist
    ghost var level: map<nat, nat>
    ghost var up: map<nat, (nat, nat)>

    ghost function S(): Tables
      reads this
    {
      Tables(root, pages, level, up)
    }

    ghost predicate Valid()
      reads this
    {
      Whole(S()) && Low(S()) && Apart(free, pages)
    }

    /** uvmcreate, on a page r that kalloc has returned. */
    constructor (r: nat, free: seq<nat>)
      requires r !in free && forall i, j :: 0 <= i < j < |free| ==> free[i] != free[j]
      ensures Valid() && root == r && this.free == free && pages.Keys == {r}
      ensures forall v :: 0 <= v < MAXPAGE ==> Flat(S(), v) == ZERO
    {
      root, this.free := r, free;
      pages, level, up := map[r := ZeroPage()], map[r := 2], map[];
      new;
      assert Known(S(), r) && UpOk(S(), r);
      assert forall i :: 0 <= i < ENTRIES ==> EntryOk(S(), r, i);
      assert Tree(S());
    }

    /** walk: t is the level-0 table that holds the PTE, or None for C's 0. ok is
        false for the panic at MAXVA and above. */
    method Walk(vpn: nat, alloc: bool) returns (ok: bool, t: Option<nat>)
      requires Valid()
      modifies `pages, `free, `level, `up
      ensures ok <==> vpn < MAXPAGE
      ensures Valid() && (forall v :: 0 <= v < MAXPAGE ==> Flat(S(), v) == old(Flat(S(), v)))
      ensures ok && t.Some? ==> LeafTable(S(), vpn) == t
      ensures ok ==> (t.None? <==> if alloc then |old(free)| < old(Missing(S(), vpn)) else old(Missing(S(), vpn)) > 0)
      ensures ok && t.Some? ==> |free| == |old(free)| - (if alloc then old(Missing(S(), vpn)) else 0)
      ensures ok && t.Some? ==> forall v :: 0 <= v < MAXPAGE ==>
                  Missing(S(), v) == Min(old(Missing(S(), v)), Near(v, vpn))
      ensures !alloc ==> S() == old(S()) && free == old(free)
      ensures Conserved(old(free), old(pages), free, pages)
    {
      if vpn >= MAXPAGE {
        return false, None;
      }
      Opened(S());
      var table, lev := root, 2;
      while lev > 0
        invariant 0 <= lev <= 2 && Valid() && Known(S(), table) && level[table] == lev
        invariant lev == 1 ==> Down(S(), root, Px(2, vpn)) == Some(table)
        invariant lev == 2 ==> table == root
        invariant lev == 0 ==> LeafTable(S(), vpn) == Some(table)
        invariant forall v :: 0 <= v < MAXPAGE ==> Flat(S(), v) == old(Flat(S(), v))
        invariant !alloc ==> S() == old(S()) && free == old(free)
        invariant Conserved(old(free), old(pages), free, pages)
        invariant forall v :: 0 <= v < MAXPAGE ==>
                    Missing(S(), v) == Min(old(Missing(S(), v)), Max(lev, Near(v, vpn)))
        invariant Missing(S(), vpn) <= lev && |free| - Missing(S(), vpn) == |old(free)| - old(Missing(S(), vpn))
      {
        var i := Px(lev, vpn);
        Opened(S());
        assert EntryOk(S(), table, i);
        if pages[table][i].v {
          forall v | 0 <= v < MAXPAGE
            ensures Missing(S(), v) <= Max(lev - 1, Near(v, vpn))
          {
            MissingThere(S(), vpn, table, v);
          }
          table := pages[table][i].ppn;
        } else {
          if !alloc || free == [] {
            return true, None;
          }
          ghost var s, free0, pages0 := S(), free, pages;
          MissingAdded(s, vpn, table, i, free[0]);
          forall v | 0 <= v < MAXPAGE
            ensures Missing(WithTable(s, table, i, free[0]), v) == Min(Missing(s, v), Max(lev - 1, Near(v, vpn)))
          {
            MissingElsewhere(s, vpn, table, i, free[0], v);
          }
          table := AddTable(table, i);
          ConservedJoins(old(free), old(pages), free0, pages0, free, pages);
        }
        lev := lev - 1;
      }
      return true, Some(table);
    }

    /** walk's new table: a zeroed page, entered at index i of t. */
    method AddTable(t: nat, i: nat) returns (c: nat)
      requires Valid() && Known(S(), t) && level[t] > 0 && i < ENTRIES && !pages[t][i].v && free != []
      requires (t == root ==> i < 256)
      modifies `pages, `free, `level, `up
      ensures Valid() && c == old(free)[0] && c !in old(pages) && S() == WithTable(old(S()), t, i, c)
      ensures forall v :: 0 <= v < MAXPAGE ==> Flat(S(), v) == old(Flat(S(), v))
      ensures free == old(free)[1..] && pages.Keys == old(pages).Keys + {c}
      ensures Conserved(old(free), old(pages), free, pages)
    {
      Opened(S());
      c := free[0];
      assert free == [c] + free[1..];
      TableTree(S(), t, i, c);
      forall v | 0 <= v < MAXPAGE
        ensures Flat(WithTable(S(), t, i, c), v) == Flat(S(), v)
      {
        TableFlat(S(), t, i, c, v);
      }
      free := free[1..];
      pages := pages[t := pages[t][i := Pte(c, true, false, false, 0)]][c := ZeroPage()];
      level, up := level[c := level[t] - 1], up[c := (t, i)];
    }

    /** mappages, from page `first` to page `last`: exactly those pages are mapped,
        to consecutive physical pages. A panic leaves r false; otherwise ok is
        whether memory sufficed for the tables, and w pages were mapped. */
    method Mappages(first: nat, last: nat, pa: nat, perm: nat) returns (r: bool, ok: bool, ghost w: nat)
      requires Valid() && first <= last
      modifies `pages, `free, `level, `up
      ensures Valid() && Conserved(old(free), old(pages), free, pages) && w <= last - first + 1
      ensures w > 0 ==> first + w <= MAXPAGE && |old(free)| >= TablesFor(old(S()), first, w)
      ensures forall v :: 0 <= v < MAXPAGE ==>
                Flat(S(), v) == if first <= v < first + w then Pte(pa + (v - first), true, false, true, perm)
                                else old(Flat(S(), v))
      ensures forall v :: first <= v < first + w ==> !old(Flat(S(), v)).v
      ensures r && ok <==> w == last - first + 1
      ensures !r ==> first + w >= MAXPAGE || old(Flat(S(), first + w)).v
      ensures r && !ok ==> first + w < MAXPAGE && !old(Flat(S(), first + w)).v
                           && |old(free)| < TablesFor(old(S()), first, w + 1)
      ensures old(CanMap(S(), |free|, first, last)) ==> r && ok
    {
      r, ok, w := MapAll(first, last, pa, perm);
      MapsIs(old(S()), S(), |old(free)|, first, last, pa, perm, r, ok, w);
      if old(CanMap(S(), |free|, first, last)) { MapsAll(old(S()), |old(free)|, first, last, r, ok, w); }
    }

    method MapAll(first: nat, last: nat, pa: nat, perm: nat) returns (r: bool, ok: bool, ghost w: nat)
      requires Valid() && first <= last
      modifies `pages, `free, `level, `up
      ensures Valid() && Conserved(old(free), old(pages), free, pages)
      ensures Maps(old(S()), S(), |old(free)|, first, last, pa, perm, r, ok, w)
    {
      var a, p := first, pa;
      MappingNone(S(), |free|, first, pa, perm);
      while true
        invariant first <= a <= last && p == pa + (a - first)
        invariant Valid() && Conserved(old(free), old(pages), free, pages)
        invariant Mapping(old(S()), S(), |old(free)|, |free|, first, a, pa, perm)
        decreases last - a
      {
        r, ok := MapNext(a, p, first, last, pa, perm, old(S()), old(free), old(pages));
        if !r || !ok {
          return r, false, a - first;
        }
        if a == last {
          break;
        }
        a, p := a + 1, p + 1;
      }
      MapsAllPages(old(S()), S(), |old(free)|, |free|, first, last, pa, perm);
      r, ok, w := true, true, last - first + 1;
    }

    /** The round for page a, after those for the pages from first on. */
    method MapNext(a: nat, p: nat, ghost first: nat, ghost last: nat, ghost pa: nat, perm: nat, ghost s0: Tables,
                   ghost free0: seq<nat>, ghost pages0: map<nat, Page>)
      returns (r: bool, ok: bool)
      requires Valid() && Conserved(free0, pages0, free, pages) && a <= last
      requires Mapping(s0, S(), |free0|, |free|, first, a, pa, perm) && p == pa + (a - first)
      modifies `pages, `free, `level, `up
      ensures Valid() && Conserved(free0, pages0, free, pages)
      ensures r && ok ==> Mapping(s0, S(), |free0|, |free|, first, a + 1, pa, perm)
      ensures !r || !ok ==> Maps(s0, S(), |free0|, first, last, pa, perm, r, false, a - first)
    {
      ghost var s, free1, pages1 := S(), free, pages;
      MappingIs(s0, s, |free0|, |free1|, first, a, pa, perm);
      MappingStops(s0, s, |free0|, |free1|, first, a, pa, perm);
      r, ok := MapOne(a, Pte(p, true, false, true, perm));
      ConservedJoins(free0, pages0, free1, pages1, free, pages);
      if r && ok {
        MappingNext(s0, s, S(), |free0|, |free1|, |free|, first, a, pa, perm);
      }
    }

    /** One round of mappages: r is false for a panic, ok for lack of memory. */
    method MapOne(a: nat, e: Pte) returns (r: bool, ok: bool)
      requires Valid() && e.v && e.rwx
      modifies `pages, `free, `level, `up
      ensures Valid() && Conserved(old(free), old(pages), free, pages)
      ensures !r <==> a >= MAXPAGE || old(Flat(S(), a)).v
      ensures r ==> (ok <==> |old(free)| >= old(Missing(S(), a)))
      ensures r && ok ==> |free| == |old(free)| - old(Missing(S(), a))
      ensures r && ok ==> forall v :: 0 <= v < MAXPAGE ==> Missing(S(), v) == Min(old(Missing(S(), v)), Near(v, a))
      ensures forall v :: 0 <= v < MAXPAGE ==> Flat(S(), v) == if v == a && r && ok then e else old(Flat(S(), v))
    {
      var t;
      r, t := Walk(a, true);
      if !r {
        return false, false;
      }
      if t.None? {
        return true, false;
      }
      Opened(S());
      LeafIsKnown(S(), a);
      assert Flat(S(), a) == pages[t.value][Px(0, a)];
      if pages[t.value][Px(0, a)].v {
        return false, false;
      }
      ghost var pages1 := pages;
      StoreLeaf(a, t.value, e);
      ConservedJoins(old(free), old(pages), free, pages1, free, pages);
      return true, true;
    }

    /** A store to the PTE that walk has found for page vpn. */
    method StoreLeaf(vpn: nat, t: nat, e: Pte)
      requires Valid() && vpn < MAXPAGE && LeafTable(S(), vpn) == Some(t) && (e.v ==> e.rwx)
      modifies `pages
      ensures Valid() && pages.Keys == old(pages).Keys && Conserved(old(free), old(pages), free, pages)
      ensures forall v :: 0 <= v < MAXPAGE ==> Flat(S(), v) == if v == vpn then e else old(Flat(S(), v))
      ensures forall v :: 0 <= v < MAXPAGE ==> Missing(S(), v) == old(Missing(S(), v))
    {
      Opened(S());
      LeafIsKnown(S(), vpn);
      LeafTree(S(), t, Px(0, vpn), e);
      forall v | 0 <= v < MAXPAGE
        ensures var s1 := WithPte(S(), t, Px(0, vpn), e);
                && LeafTable(s1, v) == LeafTable(S(), v) && Flat(s1, v) == (if v == vpn then e else Flat(S(), v))
                && Missing(s1, v) == Missing(S(), v)
      {
        DownKnown(S(), v);
        LeafFlat(S(), vpn, e, v);
      }
      pages := pages[t := pages[t][Px(0, vpn) := e]];
    }

    /** uvmunmap of n pages from `first`: exactly those PTEs become zero. False is
        the panic for a page that is neither present nor paged out, or beyond MAXVA. */
    method Unmap(first: nat, n: nat) returns (ok: bool)
      requires Valid()
      modifies `pages, `free, `level, `up
      ensures Valid() && free == old(free) && pages.Keys == old(pages).Keys && level == old(level) && up == old(up)
      ensures ok <==> forall v :: first <= v < first + n ==> Mapped(old(S()), v)
      ensures ok ==> forall v :: 0 <= v < MAXPAGE ==>
                  Flat(S(), v) == if first <= v < first + n then ZERO else old(Flat(S(), v))
    {
      var a := first;
      while a < first + n
        invariant first <= a <= first + n && Valid()
        invariant free == old(free) && pages.Keys == old(pages).Keys && level == old(level) && up == old(up)
        invariant forall v :: first <= v < a ==> Mapped(old(S()), v)
        invariant forall v :: 0 <= v < MAXPAGE ==> Flat(S(), v) == if first <= v < a then ZERO else old(Flat(S(), v))
      {
        var t;
        ok, t := Walk(a, false);
        if !ok {
          assert !Mapped(old(S()), a);
          return false;
        }
        if t.None? {
          assert Flat(S(), a) == ZERO && !Mapped(old(S()), a);
          return false;
        }
        FoundKnown(S(), a);
        assert Flat(S(), a) == pages[t.value][Px(0, a)];
        if !pages[t.value][Px(0, a)].v && !pages[t.value][Px(0, a)].pg {
          assert !Mapped(old(S()), a);
          return false;
        }
        StoreLeaf(a, t.value, ZERO);
        a := a + 1;
      }
      ok := true;
    }

    /** freewalk of table t: it and every table below it become free, once each.
        False is the panic for a leaf that is still mapped. */
    method FreeWalk(t: nat) returns (ok: bool)
      requires Whole(S()) && Apart(free, pages) && Known(S(), t)
      modifies `pages, `free
      ensures ok <==> old(NoLeaves(S(), t))
      ensures Apart(free, pages) && Conserved(old(free), old(pages), free, pages)
      ensures ok ==> pages == old(Pruned(S(), t, ENTRIES)).pages - {t}
      decreases level[t], 1
    {
      ghost var s0 := S();
      PrunedNone(s0, t);
      var i := 0;
      while i < ENTRIES
        invariant 0 <= i <= ENTRIES && level == s0.level && up == s0.up
        invariant pages == Pruned(s0, t, i).pages && Apart(free, pages) && Conserved(old(free), old(pages), free, pages)
        invariant NoLeavesTo(s0, t, i)
      {
        var pte := pages[t][i];
        assert pte == s0.pages[t][i];
        EntryKnown(s0, t, i);
        NoLeavesNext(s0, t, i);
        if pte.v && !pte.rwx {
          ghost var free1, pages1 := free, pages;
          ok := FreeChild(t, i, s0);
          ConservedJoins(old(free), old(pages), free1, pages1, free, pages);
          if !ok {
            NoLeavesAll(s0, t, i + 1);
            return;
          }
        } else if pte.v {
          NoLeavesAll(s0, t, i + 1);
          return false;
        } else {
          PrunedSkip(s0, t, i);
        }
        i := i + 1;
      }
      NoLeavesAll(s0, t, ENTRIES);
      free := [t] + free;
      pages := pages - {t};
      ok := true;
    }

    /** freewalk's turn for entry i of t, which points to a table. */
    method FreeChild(t: nat, i: nat, ghost s0: Tables) returns (ok: bool)
      requires Whole(s0) && Known(s0, t) && s0.level[t] > 0 && i < ENTRIES && s0.pages[t][i].v
      requires s0.root == root && level == s0.level && up == s0.up && pages == Pruned(s0, t, i).pages
      requires Apart(free, pages)
      modifies `pages, `free
      ensures ok <==> NoLeaves(Pruned(s0, t, i), s0.pages[t][i].ppn)
      ensures Apart(free, pages) && Conserved(old(free), old(pages), free, pages)
      ensures ok ==> pages == Pruned(s0, t, i + 1).pages
      decreases level[t], 0
    {
      PrunedChild(s0, t, i);
      assert S() == Pruned(s0, t, i);
      ok := FreeWalk(pages[t][i].ppn);
      if ok {
        pages := pages[t := pages[t][i := ZERO]];
      }
    }

    /** uvmfree of n pages: afterwards no table is left, and each page that was one
        is on the free list, once. False is a panic: one of the n pages is not
        mapped, or another page is. */
    method Uvmfree(n: nat) returns (ok: bool)
      requires Valid()
      modifies `pages, `free, `level, `up
      ensures ok <==> (forall v :: 0 <= v < n ==> Mapped(old(S()), v))
                      && forall v :: n <= v < MAXPAGE ==> !old(Flat(S(), v)).v
      ensures ok ==> pages == map[] && Apart(free, pages)
      ensures ok ==> forall f :: f in free <==> f in old(free) || f in old(pages)
    {
      ok := Unmap(0, n);
      if !ok {
        return;
      }
      Opened(S());
      LeavesGone(S());
      ghost var s := S();
      ok := FreeWalk(root);
      if !ok {
        return;
      }
      AllPruned(s);
      assert forall f :: f in free || f in pages <==> f in old(free) || f in old(pages);
    }
  }

  /** Free pages are distinct and none of them is a table. */
  ghost predicate Apart(free: seq<nat>, pages: map<nat, Page>) {
    (forall i, j :: 0 <= i < j < |free| ==> free[i] != free[j]) && forall i :: 0 <= i < |free| ==> free[i] !in pages
  }

  /** A page is free or a table afterwards if it was before. */
  ghost predicate Conserved(free: seq<nat>, pages: map<nat, Page>, free1: seq<nat>, pages1: map<nat, Page>) {
    forall f {:trigger f in free1} :: f in free1 || f in pages1 <==> f in free || f in pages
  }

  lemma ConservedJoins(free: seq<nat>, pages: map<nat, Page>, free1: seq<nat>, pages1: map<nat, Page>, free2: seq<nat>,
                       pages2: map<nat, Page>)
    requires Conserved(free, pages, free1, pages1) && Conserved(free1, pages1, free2, pages2)
    ensures Conserved(free, pages, free2, pages2)
  {
    forall f: nat
      ensures f in free2 || f in pages2 <==> f in free || f in pages
    {
      assert f in free1 || f !in free1;
      assert f in free2 || f !in free2;
    }
  }

  // ----- subtrees -----

  /** Table x hangs below t, at any depth. */
  ghost predicate Under(s: Tables, x: nat, t: nat) {
    x in s.level && t in s.level && x in s.up && s.level[x] < s.level[t] &&
    (s.up[x].0 == t || (s.up[x].0 in s.up && s.level[x] + 2 == s.level[t] && s.up[s.up[x].0].0 == t))
  }

  /** The entry of t that leads to x. */
  ghost function Branch(s: Tables, x: nat, t: nat): nat
    requires Under(s, x, t)
  {
    if s.up[x].0 == t then s.up[x].1 else s.up[s.up[x].0].1
  }

  function Blanked(p: Page, n: nat): (r: Page)
    ensures |r| == |p| && forall i :: 0 <= i < |p| ==> r[i] == if i < n && p[i].v then ZERO else p[i]
  {
    seq(|p|, i requires 0 <= i < |p| => if i < n && p[i].v then ZERO else p[i])
  }

  ghost predicate Cut(s: Tables, x: nat, t: nat, n: nat) {
    Under(s, x, t) && Branch(s, x, t) < n
  }

  /** s after freewalk has gone through the first n entries of t. */
  ghost function Pruned(s: Tables, t: nat, n: nat): Tables
    requires t in s.pages
  {
    s.(pages := map x | x in s.pages && !Cut(s, x, t, n) :: if x == t then Blanked(s.pages[t], n) else s.pages[x])
  }

  lemma PrunedTree(s: Tables, t: nat, n: nat)
    requires Tree(s) && Known(s, t) && s.level[t] > 0 && n <= ENTRIES
    ensures Tree(Pruned(s, t, n))
  {
    var s1 := Pruned(s, t, n);
    assert Known(s, t) && Known(s, s.root);
    forall x | x in s1.pages
      ensures Known(s1, x) && UpOk(s1, x)
    {
      assert Known(s, x) && UpOk(s, x);
    }
    forall x, j | x in s1.pages && 0 <= j < ENTRIES
      ensures Known(s1, x) && EntryOk(s1, x, j)
    {
      assert Known(s, x) && EntryOk(s, x, j);
    }
  }

  ghost predicate NoLeavesIn(s: Tables, x: nat)
    requires x in s.pages && x in s.level
  {
    s.level[x] == 0 ==> forall i :: 0 <= i < |s.pages[x]| ==> !s.pages[x][i].v
  }

  /** No table at or below t maps a page. */
  ghost predicate NoLeaves(s: Tables, t: nat) {
    forall x {:trigger Under(s, x, t)} {:trigger NoLeavesIn(s, x)} :: x in s.pages && (x == t || Under(s, x, t)) ==>
          x in s.level && NoLeavesIn(s, x)
  }

  lemma FoundKnown(s: Tables, vpn: nat)
    requires Whole(s) && vpn < MAXPAGE && LeafTable(s, vpn).Some?
    ensures Known(s, LeafTable(s, vpn).value)
  {
    Opened(s);
    LeafIsKnown(s, vpn);
  }

  lemma EntryKnown(s: Tables, t: nat, i: nat)
    requires Whole(s) && Known(s, t) && i < ENTRIES
    ensures s.pages[t][i].v ==> (s.pages[t][i].rwx <==> s.level[t] == 0)
  {
    Opened(s);
    assert EntryOk(s, t, i);
  }

  lemma PrunedNone(s: Tables, t: nat)
    requires Known(s, t)
    ensures Pruned(s, t, 0).pages == s.pages
  {
    assert Blanked(s.pages[t], 0) == s.pages[t];
  }

  /** An entry that is not valid leads nowhere. */
  lemma PrunedSkip(s: Tables, t: nat, i: nat)
    requires Whole(s) && Known(s, t) && i < ENTRIES && !s.pages[t][i].v
    ensures Pruned(s, t, i + 1).pages == Pruned(s, t, i).pages
  {
    Opened(s);
    assert Blanked(s.pages[t], i + 1) == Blanked(s.pages[t], i);
    forall x | x in s.pages
      ensures Cut(s, x, t, i + 1) == Cut(s, x, t, i)
    {
      assert Known(s, x) && UpOk(s, x);
      if Under(s, x, t) && s.up[x].0 != t { assert Known(s, s.up[x].0) && UpOk(s, s.up[x].0); }
    }
  }

  /** The tables at and below the child at entry i of t are those that entry i
      leads to. */
  lemma UnderChild(s: Tables, t: nat, i: nat, x: nat)
    requires Tree(s) && Known(s, t) && s.level[t] > 0 && i < ENTRIES && s.pages[t][i].v && x in s.pages
    ensures var c := s.pages[t][i].ppn;
            (x == c || Under(s, x, c)) <==> (Under(s, x, t) && Branch(s, x, t) == i)
    ensures var c := s.pages[t][i].ppn;
            Under(s, x, c) ==> Branch(s, x, c) < ENTRIES && x != c
  {
    assert EntryOk(s, t, i);
    assert Known(s, x) && UpOk(s, x);
    if x != s.root { assert Known(s, s.up[x].0) && UpOk(s, s.up[x].0); }
  }

  lemma PrunedChild(s: Tables, t: nat, i: nat)
    requires Whole(s) && Known(s, t) && s.level[t] > 0 && i < ENTRIES && s.pages[t][i].v
    ensures var s1, c := Pruned(s, t, i), s.pages[t][i].ppn;
            && t in s1.pages && s1.pages[t][i] == s.pages[t][i] && t != c
            && Whole(s1) && Known(s1, c) && s1.level[c] < s.level[t]
            && t in Pruned(s1, c, ENTRIES).pages
            && Pruned(s, t, i + 1).pages
              == (Pruned(s1, c, ENTRIES).pages - {c})[t := Pruned(s1, c, ENTRIES).pages[t][i := ZERO]]
  {
    var s1, c := Pruned(s, t, i), s.pages[t][i].ppn;
    Opened(s);
    PrunedTree(s, t, i);
    assert EntryOk(s, t, i);
    forall x | x in s.pages
      ensures (x == c || Under(s, x, c)) <==> (Under(s, x, t) && Branch(s, x, t) == i)
      ensures Under(s, x, c) ==> Branch(s, x, c) < ENTRIES && x != c
    {
      UnderChild(s, t, i, x);
    }
    ChildPages(s, t, i);
  }

  /** The first n entries of t lead to no leaf. */
  ghost predicate NoLeavesTo(s: Tables, t: nat, n: nat)
    requires Known(s, t)
  {
    && (s.level[t] == 0 ==> forall i :: 0 <= i < n && i < ENTRIES ==> !s.pages[t][i].v)
    && forall x {:trigger Cut(s, x, t, n)} :: x in s.pages && Cut(s, x, t, n) ==> x in s.level && NoLeavesIn(s, x)
  }

  lemma NoLeavesAll(s: Tables, t: nat, n: nat)
    requires Whole(s) && Known(s, t) && n <= ENTRIES
    ensures NoLeaves(s, t) ==> NoLeavesTo(s, t, n)
    ensures n == ENTRIES && NoLeavesTo(s, t, n) ==> NoLeaves(s, t)
  {
    Opened(s);
    forall x | x in s.pages && Under(s, x, t)
      ensures Branch(s, x, t) < ENTRIES
    {
      assert Known(s, x) && UpOk(s, x);
      if s.up[x].0 != t { assert Known(s, s.up[x].0) && UpOk(s, s.up[x].0); }
    }
    if NoLeaves(s, t) { assert NoLeavesIn(s, t); }
    if n == ENTRIES && NoLeavesTo(s, t, n) {
      forall x | x in s.pages && (x == t || Under(s, x, t))
        ensures x in s.level && NoLeavesIn(s, x)
      {
        if x != t { assert Cut(s, x, t, n); }
      }
    }
  }

  lemma NoLeavesNext(s: Tables, t: nat, i: nat)
    requires Whole(s) && Known(s, t) && i < ENTRIES && NoLeavesTo(s, t, i)
    ensures NoLeavesTo(s, t, i + 1) <==>
              !s.pages[t][i].v || (s.level[t] > 0 && NoLeaves(Pruned(s, t, i), s.pages[t][i].ppn))
  {
    Opened(s);
    if s.pages[t][i].v && s.level[t] > 0 {
      BranchNoLeaves(s, t, i);
    } else if !s.pages[t][i].v {
      forall x | x in s.pages
        ensures Cut(s, x, t, i + 1) == Cut(s, x, t, i)
      {
        assert Known(s, x) && UpOk(s, x);
        if Under(s, x, t) && s.up[x].0 != t { assert Known(s, s.up[x].0) && UpOk(s, s.up[x].0); }
      }
    }
  }

  lemma BranchNoLeaves(s: Tables, t: nat, i: nat)
    requires Tree(s) && Known(s, t) && s.level[t] > 0 && i < ENTRIES && s.pages[t][i].v && NoLeavesTo(s, t, i)
    ensures NoLeavesTo(s, t, i + 1) <==> NoLeaves(Pruned(s, t, i), s.pages[t][i].ppn)
  {
    var s1, c := Pruned(s, t, i), s.pages[t][i].ppn;
    assert EntryOk(s, t, i);
    if NoLeavesTo(s, t, i + 1) {
      forall x | x in s1.pages && (x == c || Under(s1, x, c))
        ensures x in s1.level && NoLeavesIn(s1, x)
      {
        UnderChild(s, t, i, x);
        assert Cut(s, x, t, i + 1) && NoLeavesIn(s, x);
        assert x != t && s1.pages[x] == s.pages[x];
      }
    }
    if NoLeaves(s1, c) {
      forall x | x in s.pages && Cut(s, x, t, i + 1)
        ensures x in s.level && NoLeavesIn(s, x)
      {
        UnderChild(s, t, i, x);
        if Cut(s, x, t, i) {
          assert NoLeavesIn(s, x);
        } else {
          assert x in s1.pages && (x == c || Under(s1, x, c));
          assert NoLeavesIn(s1, x);
          assert x != t && s1.pages[x] == s.pages[x];
        }
      }
    }
  }

  lemma ChildKeys(s: Tables, t: nat, i: nat)
    requires Tree(s) && Known(s, t) && s.level[t] > 0 && i < ENTRIES && s.pages[t][i].v
    ensures var s1, c := Pruned(s, t, i), s.pages[t][i].ppn;
            && c in s1.pages && t in s1.pages && t in Pruned(s1, c, ENTRIES).pages && t != c
            && Pruned(s1, c, ENTRIES).pages[t] == Blanked(s.pages[t], i)
    ensures var s1, c := Pruned(s, t, i), s.pages[t][i].ppn;
            forall x {:trigger x in Pruned(s, t, i + 1).pages} ::
              && (x in Pruned(s, t, i + 1).pages <==> x in Pruned(s1, c, ENTRIES).pages && x != c)
              && (x in Pruned(s, t, i + 1).pages && x != t ==>
                    Pruned(s, t, i + 1).pages[x] == Pruned(s1, c, ENTRIES).pages[x])
  {
    var s1, c := Pruned(s, t, i), s.pages[t][i].ppn;
    assert EntryOk(s, t, i);
    UnderChild(s, t, i, c);
    UnderChild(s, t, i, t);
    forall x {:trigger x in Pruned(s, t, i + 1).pages}
      ensures x in Pruned(s, t, i + 1).pages <==> x in Pruned(s1, c, ENTRIES).pages && x != c
      ensures x in Pruned(s, t, i + 1).pages && x != t ==>
                  Pruned(s, t, i + 1).pages[x] == Pruned(s1, c, ENTRIES).pages[x]
    {
      if x in s.pages { UnderChild(s, t, i, x); }
    }
  }

  lemma MapUpdate(a: map<nat, Page>, b: map<nat, Page>, c: nat, t: nat, p: Page)
    requires t in b && t != c && t in a && a[t] == p
    requires forall x {:trigger x in a} :: (x in a <==> x in b && x != c) && (x in a && x != t ==> a[x] == b[x])
    ensures a == (b - {c})[t := p]
  {
  }

  lemma ChildPages(s: Tables, t: nat, i: nat)
    requires Tree(s) && Known(s, t) && s.level[t] > 0 && i < ENTRIES && s.pages[t][i].v
    ensures var s1, c := Pruned(s, t, i), s.pages[t][i].ppn;
            && c in s1.pages && t in s1.pages && t in Pruned(s1, c, ENTRIES).pages
            && i < |Pruned(s1, c, ENTRIES).pages[t]|
            && Pruned(s, t, i + 1).pages
              == (Pruned(s1, c, ENTRIES).pages - {c})[t := Pruned(s1, c, ENTRIES).pages[t][i := ZERO]]
  {
    ChildKeys(s, t, i);
    assert Blanked(s.pages[t], i + 1) == Blanked(s.pages[t], i)[i := ZERO];
    var c := s.pages[t][i].ppn;
    MapUpdate(Pruned(s, t, i + 1).pages, Pruned(Pruned(s, t, i), c, ENTRIES).pages, c, t, Blanked(s.pages[t], i + 1));
  }

  lemma LeavesGone(s: Tables)
    requires Tree(s) && Low(s)
    ensures NoLeaves(s, s.root) <==> forall v :: 0 <= v < MAXPAGE ==> !Flat(s, v).v
  {
    if NoLeaves(s, s.root) {
      forall v | 0 <= v < MAXPAGE
        ensures !Flat(s, v).v
      {
        if LeafTable(s, v).Some? {
          LeafIsKnown(s, v);
          assert Known(s, s.up[LeafTable(s, v).value].0) && Under(s, LeafTable(s, v).value, s.root);
        }
      }
    }
    if forall v :: 0 <= v < MAXPAGE ==> !Flat(s, v).v {
      NothingMapped(s);
    }
  }

  lemma PxOf(i2: nat, i1: nat, i: nat)
    requires i2 < 256 && i1 < ENTRIES && i < ENTRIES
    ensures var v := i2 * 262144 + i1 * 512 + i; v < MAXPAGE && Px(2, v) == i2 && Px(1, v) == i1 && Px(0, v) == i
  {
    var v, w := i2 * 262144 + i1 * 512 + i, i2 * 512 + i1;
    assert v == w * 512 + i;
    Digit(w, i);
    Digit(i2, i1);
    TwoDigits(v);
  }

  lemma Digit(a: nat, b: nat)
    requires b < 512
    ensures (a * 512 + b) / 512 == a && (a * 512 + b) % 512 == b
  {
  }

  lemma TwoDigits(v: nat)
    ensures v / 262144 == v / 512 / 512
  {
  }

  lemma NothingMapped(s: Tables)
    requires Tree(s) && Low(s) && forall v :: 0 <= v < MAXPAGE ==> !Flat(s, v).v
    ensures NoLeaves(s, s.root)
  {
    forall x | x in s.pages && (x == s.root || Under(s, x, s.root))
      ensures x in s.level && NoLeavesIn(s, x)
    {
      assert Known(s, x) && UpOk(s, x);
      if s.level[x] == 0 {
        var (m, i1) := s.up[x];
        assert Known(s, m) && UpOk(s, m);
        var i2 := s.up[m].1;
        forall i | 0 <= i < |s.pages[x]|
          ensures !s.pages[x][i].v
        {
          var v := i2 * 262144 + i1 * 512 + i;
          PxOf(i2, i1, i);
          assert LeafTable(s, v) == Some(x);
          assert !Flat(s, v).v;
        }
      }
    }
  }

  /** Every table hangs below the root. */
  lemma AllPruned(s: Tables)
    requires Tree(s)
    ensures Pruned(s, s.root, ENTRIES).pages - {s.root} == map[]
  {
    forall x | x in s.pages && x != s.root
      ensures Cut(s, x, s.root, ENTRIES)
    {
      assert Known(s, x) && UpOk(s, x);
      assert Known(s, s.up[x].0) && UpOk(s, s.up[x].0);
    }
  }
}
