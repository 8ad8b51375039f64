/** user/umalloc.c: the allocator of section 8.7 of The C Programming Language,
    2nd edition. Addresses count in Headers (16 bytes). Free blocks form a circle
    in address order that starts at `base`, which has no space of its own. */
module HeapAllocator {
  import opened Basics

  type Blocks = map<nat, nat>   // units by address of the header

  function Put(m: Blocks, a: nat, n: nat): Blocks {
    m[a := n]
  }

  function Cut(m: Blocks, a: nat): Blocks {
    m - {a}
  }

  // ----- units -----

  ghost function Some(m: Blocks): (a: nat)
    requires m.Keys != {}
    ensures a in m
  {
    var a: nat :| a in m.Keys;
    a
  }

  lemma CutSize(m: Blocks, a: nat)
    requires a in m
    ensures |Cut(m, a)| == |m| - 1
  {
    assert Cut(m, a).Keys == m.Keys - {a};
  }

  ghost function Units(m: Blocks): nat
    decreases |m|
  {
    if m.Keys == {} then 0
    else
      CutSize(m, Some(m));
      m[Some(m)] + Units(Cut(m, Some(m)))
  }

  lemma {:induction false} UnitsCut(m: Blocks, x: nat)
    requires x in m
    ensures Units(m) == m[x] + Units(Cut(m, x))
    decreases |m|
  {
    assert m.Keys != {};
    var a := Some(m);
    if a != x {
      CutSize(m, a);
      CutSize(m, x);
      UnitsCut(Cut(m, a), x);
      UnitsCut(Cut(m, x), a);
      CutBoth(m, a, x);
    }
  }

  lemma CutBoth(m: Blocks, a: nat, b: nat)
    ensures Cut(Cut(m, a), b) == Cut(Cut(m, b), a)
  {
  }

  lemma UnitsPut(m: Blocks, x: nat, n: nat)
    ensures Units(Put(m, x, n)) == (if x in m then Units(m) - m[x] else Units(m)) + n
  {
    UnitsCut(Put(m, x, n), x);
    if x in m {
      UnitsCut(m, x);
      assert Cut(Put(m, x, n), x) == Cut(m, x);
    } else {
      assert Cut(Put(m, x, n), x) == m;
    }
  }

  // ----- the free list -----

  ghost predicate InList(free: Blocks, base: nat, a: nat) {
    a == base || a in free
  }

  /** b is the next free block above a, or base if there is none. */
  ghost predicate Follows(free: Blocks, base: nat, a: nat, b: nat) {
    if b > a then b in free && forall c :: c in free ==> c <= a || b <= c
    else b == base && forall c :: c in free ==> c <= a
  }

  /** The list is one circle through base and all free blocks in address order. */
  ghost predicate Circle(ptr: Blocks, free: Blocks, base: nat) {
    forall a {:trigger InList(free, base, a)} :: InList(free, base, a) ==> a in ptr && Follows(free, base, a, ptr[a])
  }

  /** Headers give the sizes, and blocks lie between base and brk. */
  ghost predicate Sized(m: Blocks, size: Blocks, base: nat, brk: nat) {
    forall a :: a in m ==> a in size && size[a] == m[a] > 0 && base < a && a + m[a] <= brk
  }

  /** Free blocks do not touch, except perhaps x and the block y. */
  ghost predicate SpacedBut(free: Blocks, x: nat, y: nat) {
    forall a, b :: a in free && b in free && a < b ==>
      a + free[a] <= b && ((a == x && b == y) || a + free[a] < b)
  }

  ghost predicate Spaced(free: Blocks) {
    SpacedBut(free, 0, 0)
  }

  /** Blocks of the two maps do not overlap. */
  ghost predicate Disjoint(m: Blocks, n: Blocks) {
    forall a, b :: a in m && b in n && a != b ==> a + m[a] <= b || b + n[b] <= a
  }

  ghost predicate Apart(live: Blocks, free: Blocks) {
    Disjoint(live, live) && Disjoint(live, free) && forall a :: a in live ==> a !in free
  }

  /** A block clear of all others joins the live ones. */
  lemma AddBlock(live: Blocks, free: Blocks, hp: nat, n: nat)
    requires Apart(live, free) && hp !in live && hp !in free
    requires forall a :: a in live ==> a + live[a] <= hp || hp + n <= a
    requires forall b :: b in free ==> b + free[b] <= hp || hp + n <= b
    ensures Apart(Put(live, hp, n), free)
  {
  }

  lemma ShrinkBlock(live: Blocks, free: Blocks, p: nat, m: nat)
    requires Apart(live, free) && Spaced(free) && p in free && m <= free[p]
    ensures Apart(live, Put(free, p, m)) && Spaced(Put(free, p, m))
  {
  }

  lemma CutBlock(live: Blocks, free: Blocks, p: nat)
    requires Apart(live, free) && Spaced(free)
    ensures Apart(live, Cut(free, p)) && Spaced(Cut(free, p))
  {
  }

  ghost function Above(free: Blocks, p: nat): set<nat> {
    set c | c in free && c > p
  }

  // ----- free, step one: bp goes in after p, absorbing the next block if they touch -----

  ghost predicate Place(free: Blocks, base: nat, p: nat, bp: nat) {
    InList(free, base, p) && p < bp && forall c :: c in free ==> c <= p || bp < c
  }

  predicate Up(free: Blocks, n: nat, bp: nat) {
    bp + n in free
  }

  function Placed(free: Blocks, n: nat, bp: nat): Blocks {
    if Up(free, n, bp) then Put(Cut(free, bp + n), bp, n + free[bp + n]) else Put(free, bp, n)
  }

  ghost predicate Room(free: Blocks, base: nat, bp: nat, n: nat) {
    0 < n && base < bp && forall c :: c in free ==> base < c && (bp < c ==> bp + n <= c)
  }

  lemma PlaceNext(free: Blocks, base: nat, p: nat, bp: nat, n: nat, q: nat)
    requires Place(free, base, p, bp) && Room(free, base, bp, n) && Follows(free, base, p, q)
    ensures Up(free, n, bp) <==> bp + n == q
    ensures !Up(free, n, bp) ==> Follows(Placed(free, n, bp), base, bp, q)
    ensures Follows(Placed(free, n, bp), base, p, bp)
  {
  }

  lemma PlaceAfterUp(free: Blocks, base: nat, p: nat, bp: nat, n: nat, r: nat)
    requires Place(free, base, p, bp) && Room(free, base, bp, n) && Up(free, n, bp) && Follows(free, base, bp + n, r)
    ensures Follows(Placed(free, n, bp), base, bp, r)
  {
  }

  lemma PlaceOther(free: Blocks, base: nat, p: nat, bp: nat, n: nat, a: nat, b: nat)
    requires Place(free, base, p, bp) && Room(free, base, bp, n) && Follows(free, base, a, b)
    requires InList(free, base, a) && a != p && a != bp && InList(Placed(free, n, bp), base, a)
    ensures Follows(Placed(free, n, bp), base, a, b)
  {
    if a < bp {
      assert a in free ==> a <= p;
      assert p in free ==> p <= a || b <= p;
    }
  }

  function PlacedLinks(ptr: Blocks, p: nat, bp: nat, n: nat): Blocks
    requires p in ptr
  {
    var q := ptr[p];
    Put(Put(ptr, bp, if bp + n == q && q in ptr then ptr[q] else q), p, bp)
  }

  lemma PlaceCircle(ptr: Blocks, free: Blocks, base: nat, p: nat, bp: nat, n: nat)
    requires Circle(ptr, free, base) && Place(free, base, p, bp) && Room(free, base, bp, n) && p in ptr
    ensures Circle(PlacedLinks(ptr, p, bp, n), Placed(free, n, bp), base)
  {
    var free1, ptr1 := Placed(free, n, bp), PlacedLinks(ptr, p, bp, n);
    assert InList(free, base, p);
    PlaceNext(free, base, p, bp, n, ptr[p]);
    if Up(free, n, bp) {
      assert InList(free, base, bp + n);
      PlaceAfterUp(free, base, p, bp, n, ptr[bp + n]);
    }
    forall a | InList(free1, base, a)
      ensures a in ptr1 && Follows(free1, base, a, ptr1[a])
    {
      if a != bp && a != p {
        assert InList(free, base, a);
        PlaceOther(free, base, p, bp, n, a, ptr[a]);
      }
    }
  }

  lemma PlaceSpaced(free: Blocks, base: nat, p: nat, bp: nat, n: nat)
    requires Spaced(free) && Place(free, base, p, bp) && Room(free, base, bp, n) && (p in free ==> p + free[p] <= bp)
    ensures SpacedBut(Placed(free, n, bp), p, bp)
  {
    var free1 := Placed(free, n, bp);
    forall a, b | a in free1 && b in free1 && a < b
      ensures a + free1[a] <= b && ((a == p && b == bp) || a + free1[a] < b)
    {
      if b == bp && a != p {
        assert a < p && a + free[a] < p;
      }
    }
  }

  lemma PlaceApart(live: Blocks, free: Blocks, bp: nat)
    requires Apart(live, free) && bp in live && live[bp] > 0
    ensures Apart(Cut(live, bp), Placed(free, live[bp], bp))
  {
    var n, free1 := live[bp], Placed(free, live[bp], bp);
    forall a, b | a in live && a != bp && b in free1
      ensures a != b && (a + live[a] <= b || b + free1[b] <= a)
    {
      assert a + live[a] <= bp || bp + n <= a;
      if b == bp && Up(free, n, bp) {
        assert a + live[a] <= bp + n || bp + n + free[bp + n] <= a;
      }
    }
  }

  lemma PlaceSized(live: Blocks, free: Blocks, size: Blocks, base: nat, brk: nat, bp: nat)
    requires bp in live && bp !in free && Sized(live, size, base, brk) && Sized(free, size, base, brk)
    ensures var free1 := Placed(free, live[bp], bp);
            Sized(Cut(live, bp), Put(size, bp, free1[bp]), base, brk)
            && Sized(free1, Put(size, bp, free1[bp]), base, brk)
  {
  }

  lemma PlaceUnits(free: Blocks, bp: nat, n: nat)
    requires bp !in free && n > 0
    ensures Units(Placed(free, n, bp)) == Units(free) + n
  {
    if Up(free, n, bp) {
      var m := Put(Cut(free, bp + n), bp, n + free[bp + n]);
      assert Placed(free, n, bp) == m;
      MoveUnits(free, bp + n, bp, n, m);
    } else {
      UnitsPut(free, bp, n);
    }
  }

  lemma MoveUnits(m: Blocks, x: nat, y: nat, n: nat, m1: Blocks)
    requires x in m && (y == x || y !in m) && m1 == Put(Cut(m, x), y, n + m[x])
    ensures Units(m1) == Units(m) + n
  {
    UnitsCut(m, x);
    UnitsPut(Cut(m, x), y, n + m[x]);
  }

  // ----- free, step two: p absorbs bp if they touch -----

  function Joined(free: Blocks, p: nat, bp: nat): Blocks
    requires p in free && bp in free
  {
    Put(Cut(free, bp), p, free[p] + free[bp])
  }

  lemma JoinCircle(ptr: Blocks, free: Blocks, base: nat, p: nat, bp: nat)
    requires Circle(ptr, free, base) && p in free && bp in free && base < p < bp && p in ptr && ptr[p] == bp
    requires bp in ptr
    ensures Circle(Put(ptr, p, ptr[bp]), Joined(free, p, bp), base)
  {
    var free1, ptr1 := Joined(free, p, bp), Put(ptr, p, ptr[bp]);
    assert InList(free, base, p) && InList(free, base, bp);
    forall a | InList(free1, base, a)
      ensures a in ptr1 && Follows(free1, base, a, ptr1[a])
    {
      assert InList(free, base, a);
    }
  }

  lemma JoinSpaced(free: Blocks, p: nat, bp: nat)
    requires SpacedBut(free, p, bp) && p in free && bp in free && p + free[p] == bp
    ensures Spaced(Joined(free, p, bp))
  {
  }

  lemma JoinApart(live: Blocks, free: Blocks, p: nat, bp: nat)
    requires Apart(live, free) && p in free && bp in free && p + free[p] == bp && forall a :: a in live ==> live[a] > 0
    ensures Apart(live, Joined(free, p, bp))
  {
    var free1 := Joined(free, p, bp);
    forall a, b | a in live && b in free1
      ensures a != b && (a + live[a] <= b || b + free1[b] <= a)
    {
      assert a != b && a != bp;
      assert a + live[a] <= b || b + free[b] <= a;
      assert a + live[a] <= bp || bp + free[bp] <= a;
    }
  }

  lemma JoinSized(live: Blocks, free: Blocks, size: Blocks, base: nat, brk: nat, p: nat, bp: nat)
    requires p !in live && p in free && bp in free && p + free[p] == bp
    requires Sized(live, size, base, brk) && Sized(free, size, base, brk)
    ensures var size1 := Put(size, p, free[p] + free[bp]);
            Sized(live, size1, base, brk) && Sized(Joined(free, p, bp), size1, base, brk)
  {
  }

  lemma JoinUnits(free: Blocks, p: nat, bp: nat)
    requires p in free && bp in free && p != bp
    ensures Units(Joined(free, p, bp)) == Units(free)
  {
    UnitsCut(free, bp);
    UnitsPut(Cut(free, bp), p, free[p] + free[bp]);
  }

  // ----- the invariant -----

  /** The free list, the blocks handed out, and what sbrk has given: nothing is
      lost. Free blocks x and y may touch. */
  ghost predicate SoundBut(ptr: Blocks, size: Blocks, base: nat, free: Blocks, live: Blocks, brk: nat, got: nat,
                           x: nat, y: nat) {
    && base in size && size[base] == 0 && Circle(ptr, free, base) && SpacedBut(free, x, y) && Apart(live, free)
    && Sized(free, size, base, brk) && Sized(live, size, base, brk) && Units(free) + Units(live) == got
  }

  /** SoundBut, folded (the quantifier has no other trigger) except where a proof
      mentions Unfold. */
  ghost predicate KeptBut(ptr: Blocks, size: Blocks, base: nat, free: Blocks, live: Blocks, brk: nat, got: nat, x: nat,
                          y: nat) {
    forall k {:trigger Unfold(k)} :: k >= 0 ==> SoundBut(ptr, size, base, free, live, brk, got, x, y)
  }

  ghost predicate Sound(ptr: Blocks, size: Blocks, base: nat, free: Blocks, live: Blocks, brk: nat, got: nat) {
    KeptBut(ptr, size, base, free, live, brk, got, 0, 0)
  }

  lemma FoldBut(ptr: Blocks, size: Blocks, base: nat, free: Blocks, live: Blocks, brk: nat, got: nat, x: nat, y: nat)
    requires base in size && size[base] == 0 && Circle(ptr, free, base) && SpacedBut(free, x, y) && Apart(live, free)
    requires Sized(free, size, base, brk) && Sized(live, size, base, brk) && Units(free) + Units(live) == got
    ensures KeptBut(ptr, size, base, free, live, brk, got, x, y)
  {
    assert SoundBut(ptr, size, base, free, live, brk, got, x, y);
  }

  function PlacedSize(size: Blocks, q: nat, bp: nat): Blocks
    requires bp in size && q in size
  {
    if bp + size[bp] == q then Put(size, bp, size[bp] + size[q]) else size
  }

  /** What free finds at p, at p's next block and at bp. */
  lemma PlaceFacts(ptr: Blocks, size: Blocks, base: nat, free: Blocks, live: Blocks, brk: nat, got: nat, p: nat,
                   bp: nat)
    requires Sound(ptr, size, base, free, live, brk, got) && bp in live && Place(free, base, p, bp)
    ensures p in ptr && ptr[p] in size && (bp + live[bp] == ptr[p] ==> ptr[p] in ptr) && bp in size
    ensures size[bp] == live[bp]
    ensures p in size && p != bp && size[p] == (if p in free then free[p] else 0) && (p in free ==> p != bp + live[bp])
  {
    assert Unfold(0);
    assert InList(free, base, p);
    RoomFor(live, free, size, base, brk, bp);
    PlaceNext(free, base, p, bp, live[bp], ptr[p]);
    if Up(free, live[bp], bp) { assert InList(free, base, bp + live[bp]); }
  }

  lemma PlaceKept(ptr: Blocks, size: Blocks, base: nat, free: Blocks, live: Blocks, brk: nat, got: nat, p: nat, bp: nat)
    requires Sound(ptr, size, base, free, live, brk, got) && bp in live && Place(free, base, p, bp)
    requires p in ptr && ptr[p] in size && (bp + live[bp] == ptr[p] ==> ptr[p] in ptr) && bp in size
    requires size[bp] == live[bp] && p in size
    ensures KeptBut(PlacedLinks(ptr, p, bp, live[bp]), PlacedSize(size, ptr[p], bp), base, Placed(free, live[bp], bp),
                    Cut(live, bp), brk, got, p, bp)
  {
    assert Unfold(0);
    assert InList(free, base, p);
    RoomFor(live, free, size, base, brk, bp);
    PlaceNext(free, base, p, bp, live[bp], ptr[p]);
    if Up(free, live[bp], bp) { assert InList(free, base, bp + live[bp]); }
    PlaceParts(ptr, size, base, free, live, brk, got, p, bp);
  }

  lemma PlaceSound(ptr: Blocks, size: Blocks, base: nat, free: Blocks, live: Blocks, brk: nat, got: nat, p: nat,
                   bp: nat)
    requires Sound(ptr, size, base, free, live, brk, got) && bp in live && Place(free, base, p, bp)
    ensures p in ptr && ptr[p] in size && (bp + live[bp] == ptr[p] ==> ptr[p] in ptr) && bp in size
    ensures size[bp] == live[bp]
    ensures p in size && p != bp
    ensures size[p] == if p in free then free[p] else 0
    ensures p in free ==> p in Placed(free, live[bp], bp) && free[p] == Placed(free, live[bp], bp)[p]
    ensures KeptBut(PlacedLinks(ptr, p, bp, live[bp]), PlacedSize(size, ptr[p], bp), base, Placed(free, live[bp], bp),
                    Cut(live, bp), brk, got, p, bp)
  {
    PlaceFacts(ptr, size, base, free, live, brk, got, p, bp);
    PlaceKept(ptr, size, base, free, live, brk, got, p, bp);
  }

  lemma PlaceParts(ptr: Blocks, size: Blocks, base: nat, free: Blocks, live: Blocks, brk: nat, got: nat, p: nat,
                   bp: nat)
    requires SoundBut(ptr, size, base, free, live, brk, got, 0, 0) && bp in live && Place(free, base, p, bp)
    requires bp !in free
    requires p in ptr && ptr[p] in size && (Up(free, live[bp], bp) <==> bp + live[bp] == ptr[p])
    requires Room(free, base, bp, live[bp]) && (p in free ==> p + free[p] <= bp)
    ensures KeptBut(PlacedLinks(ptr, p, bp, live[bp]), PlacedSize(size, ptr[p], bp), base, Placed(free, live[bp], bp),
                    Cut(live, bp), brk, got, p, bp)
  {
    var n := live[bp];
    PlaceCircle(ptr, free, base, p, bp, n);
    PlaceSpaced(free, base, p, bp, n);
    PlaceApart(live, free, bp);
    PlaceSized(live, free, size, base, brk, bp);
    PlaceUnits(free, bp, n);
    UnitsCut(live, bp);
    PlacedSizeIs(free, size, n, ptr[p], bp);
    FoldBut(PlacedLinks(ptr, p, bp, n), PlacedSize(size, ptr[p], bp), base, Placed(free, n, bp), Cut(live, bp), brk,
            got,
            p, bp);
  }

  lemma PlacedSizeIs(free: Blocks, size: Blocks, n: nat, q: nat, bp: nat)
    requires bp in size && size[bp] == n && q in size && (Up(free, n, bp) <==> bp + n == q)
    requires (q in free ==> size[q] == free[q])
    ensures Put(size, bp, Placed(free, n, bp)[bp]) == PlacedSize(size, q, bp)
  {
  }

  lemma RoomFor(live: Blocks, free: Blocks, size: Blocks, base: nat, brk: nat, bp: nat)
    requires Apart(live, free) && Sized(free, size, base, brk) && Sized(live, size, base, brk) && bp in live
    ensures Room(free, base, bp, live[bp]) && forall c :: c in free && c < bp ==> c + free[c] <= bp
  {
    forall c | c in free
      ensures bp < c ==> bp + live[bp] <= c
      ensures c < bp ==> c + free[c] <= bp
    {
      assert bp + live[bp] <= c || c + free[c] <= bp;
    }
  }

  lemma JoinSound(ptr: Blocks, size: Blocks, base: nat, free: Blocks, live: Blocks, brk: nat, got: nat, p: nat, bp: nat)
    requires KeptBut(ptr, size, base, free, live, brk, got, p, bp) && p in free && bp in free && p + free[p] == bp
    requires p in ptr && ptr[p] == bp
    ensures bp in ptr && p in size && bp in size && size[p] == free[p] && size[bp] == free[bp]
    ensures Sound(Put(ptr, p, ptr[bp]), Put(size, p, free[p] + free[bp]), base, Joined(free, p, bp), live, brk, got)
  {
    assert Unfold(0);
    assert InList(free, base, bp);
    JoinCircle(ptr, free, base, p, bp);
    JoinSpaced(free, p, bp);
    JoinApart(live, free, p, bp);
    JoinSized(live, free, size, base, brk, p, bp);
    JoinUnits(free, p, bp);
    FoldBut(Put(ptr, p, ptr[bp]), Put(size, p, free[p] + free[bp]), base, Joined(free, p, bp), live, brk, got, 0, 0);
  }

  lemma ApartSound(ptr: Blocks, size: Blocks, base: nat, free: Blocks, live: Blocks, brk: nat, got: nat, p: nat,
                   bp: nat)
    requires KeptBut(ptr, size, base, free, live, brk, got, p, bp) && bp in free && (p in free ==> p + free[p] != bp)
    ensures Sound(ptr, size, base, free, live, brk, got)
  {
    assert Unfold(0);
  }

  lemma PutTwice(m: Blocks, a: nat, x: nat, y: nat)
    ensures Put(Put(m, a, x), a, y) == Put(m, a, y)
  {
  }

  /** The n units at a lie inside one free block. */
  ghost predicate Covered(free: Blocks, a: nat, n: nat) {
    exists b :: b in free && b <= a && a + n <= b + free[b]
  }

  class Heap {
    const base: nat
    var ptr: Blocks
    var size: Blocks
    var freep: nat
    var brk: nat           // where the next sbrk starts
    ghost var free: Blocks
    ghost var live: Blocks // blocks handed out
    ghost var got: nat     // units obtained from sbrk

    ghost predicate Valid()
      reads this
    {
      && 0 < base < brk
      && (if freep == 0 then free == map[] && live == map[] && got == 0
          else InList(free, base, freep) && Sound(ptr, size, base, free, live, brk, got))
    }

    constructor (base: nat, brk: nat)
      requires 0 < base < brk
      ensures Valid() && live == map[] && got == 0 && this.base == base && this.brk == brk
    {
      this.base, this.brk := base, brk;
      ptr, size, freep, free, live, got := map[], map[], 0, map[], map[], 0;
    }

    /** Blocks in use do not overlap each other ... */
    lemma LiveApart(a: nat, b: nat)
      requires Valid() && a in live && b in live && a != b
      ensures a + live[a] <= b || b + live[b] <= a
    {
      assert Unfold(0);
    }

    /** ... nor free ones, and lie in the memory that sbrk gave; no unit is lost. */
    lemma LiveFreeApart(a: nat, b: nat)
      requires Valid() && a in live && b in free
      ensures a + live[a] <= b || b + free[b] <= a
      ensures base < a && a + live[a] <= brk && base < b && b + free[b] <= brk
      ensures Units(free) + Units(live) == got
    {
      assert Unfold(0);
    }

    /** free's walk to the place of bp: it stops within one round. */
    method FindPlace(bp: nat) returns (p: nat)
      requires InList(free, base, freep) && Sound(ptr, size, base, free, live, brk, got) && bp in live
      ensures Place(free, base, p, bp)
    {
      assert Unfold(0);
      p := freep;
      ghost var wrapped := false;
      while !(bp > p && bp < ptr[p])
        invariant InList(free, base, p) && (wrapped ==> p < bp)
        decreases !wrapped, Above(free, p)
      {
        assert Follows(free, base, p, ptr[p]);
        if p >= ptr[p] && (bp > p || bp < ptr[p]) {
          break;
        }
        assert ptr[p] > p ==> ptr[p] in Above(free, p);
        wrapped := wrapped || p >= ptr[p];
        p := ptr[p];
      }
      assert Follows(free, base, p, ptr[p]);
    }

    /** free, after its walk: bp goes in after p, and touching blocks are joined. */
    method LinkIn(p: nat, bp: nat)
      requires Sound(ptr, size, base, free, live, brk, got) && bp in live && Place(free, base, p, bp)
      modifies `ptr, `size, `freep, `free, `live
      ensures Sound(ptr, size, base, free, live, brk, got) && freep == p && InList(free, base, p)
      ensures live == Cut(old(live), bp) && Covered(free, bp, old(live)[bp])
    {
      PlaceSound(ptr, size, base, free, live, brk, got, p, bp);
      ghost var ptr1, size1 := PlacedLinks(ptr, p, bp, live[bp]), PlacedSize(size, ptr[p], bp);
      ghost var free1, live1 := Placed(free, live[bp], bp), Cut(live, bp);
      if bp + size[bp] == ptr[p] {
        size := Put(size, bp, size[bp] + size[ptr[p]]);
        ptr := Put(ptr, bp, ptr[ptr[p]]);
      } else {
        ptr := Put(ptr, bp, ptr[p]);
      }
      assert size == size1 && Put(ptr, p, bp) == ptr1;
      if p + size[p] == bp {
        JoinSound(ptr1, size1, base, free1, live1, brk, got, p, bp);
        PutTwice(ptr, p, bp, ptr[bp]);
        size := Put(size, p, size[p] + size[bp]);
        ptr := Put(ptr, p, ptr[bp]);
        assert ptr == Put(ptr1, p, ptr1[bp]) && size == Put(size1, p, free1[p] + free1[bp]);
        free := Joined(free1, p, bp);
        assert p in free;
      } else {
        ApartSound(ptr1, size1, base, free1, live1, brk, got, p, bp);
        ptr := Put(ptr, p, bp);
        free := free1;
        assert bp in free;
      }
      freep := p;
      live := live1;
    }

    /** free, of the block whose header is at bp. */
    method Free(bp: nat)
      requires Valid() && bp in live
      modifies `ptr, `size, `freep, `free, `live
      ensures Valid() && freep != 0 && live == Cut(old(live), bp) && Covered(free, bp, old(live)[bp])
    {
      var p := FindPlace(bp);
      ListPositive(ptr, size, base, free, live, brk, got, p);
      LinkIn(p, bp);
    }

    /** morecore. sbrk takes an int: false means that it was not asked for nu units. */
    method Morecore(nunits: nat, core: Core) returns (ok: bool, r: nat)
      requires Valid() && freep != 0 && nunits > 0 && (core.CoreAt? ==> core.start >= brk)
      modifies this
      ensures ok <==> Exact(CoreUnits(nunits))
      ensures ok ==> Valid() && freep != 0 && live == old(live) && (r == 0 <==> core.NoCore?)
      ensures ok && core.NoCore? ==> free == old(free) && freep == old(freep) && got == old(got) && ptr == old(ptr)
                                     && size == old(size)
      ensures ok && core.CoreAt? ==> r == freep && got == old(got) + CoreUnits(nunits)
                                     && Covered(free, core.start, CoreUnits(nunits))
    {
      var nu := if nunits < 4096 then 4096 else nunits;
      if AsInt(nu * 16) != nu * 16 {
        return false, 0;
      }
      if core.NoCore? {
        return true, 0;
      }
      AddCore(core.start, nu);
      return true, freep;
    }

    /** The units that sbrk gave at hp become one block, which is freed. */
    method AddCore(hp: nat, nu: nat)
      requires Valid() && freep != 0 && nu > 0 && hp >= brk
      modifies this
      ensures Valid() && freep != 0 && live == old(live) && got == old(got) + nu && Covered(free, hp, nu)
    {
      CoreSound(ptr, size, base, free, live, brk, got, hp, nu);
      size := Put(size, hp, nu);
      brk := hp + nu;
      live, got := Put(live, hp, nu), got + nu;
      Free(hp);
      CutPut(old(live), hp, nu);
    }

    /** What goes wrong beyond that: a request of 0xfffffff0 bytes asks for 2^28
        units, sbrk's argument is 0 and it succeeds, and morecore frees 2^28 units
        at the break that were never obtained. */
    method ZeroCore()
      requires Valid() && freep != 0
      modifies this
      ensures UnitsFor(0xffff_fff0) == CoreUnits(UnitsFor(0xffff_fff0)) == 0x1000_0000 && AsInt(0x1000_0000 * 16) == 0
      ensures live == old(live) && Covered(free, old(brk), 0x1000_0000)
      ensures Units(free) + Units(live) == old(got) + 0x1000_0000
    {
      AddCore(brk, 0x1000_0000);
      assert Unfold(0);
    }

    /** malloc's first call makes base a circle of its own. */
    method Start()
      requires Valid() && freep == 0
      modifies `ptr, `size, `freep
      ensures Valid() && freep != 0
    {
      ptr, size, freep := Put(ptr, base, base), Put(size, base, 0), base;
      FoldBut(ptr, size, base, free, live, brk, got, 0, 0);
    }

    /** malloc's cut of n units from the free block p, which follows prevp. */
    method TakeFrom(prevp: nat, p: nat, n: nat) returns (hp: nat)
      requires Valid() && freep != 0 && InList(free, base, prevp) && prevp in ptr && ptr[prevp] == p && p in free
      requires 0 < n <= free[p]
      modifies `ptr, `size, `freep, `free, `live
      ensures Valid() && freep != 0 && hp !in old(live) && live == Put(old(live), hp, n)
      ensures p <= hp && hp + n == p + old(free)[p]
    {
      ListNext(ptr, size, base, free, live, brk, got, p);
      ListPositive(ptr, size, base, free, live, brk, got, prevp);
      if size[p] == n {
        TakeWhole(ptr, size, base, free, live, brk, got, prevp, p);
        ptr := Put(ptr, prevp, ptr[p]);
        hp := p;
        free := Cut(free, p);
      } else {
        ghost var m := free[p] - n;
        TakeTail(ptr, size, base, free, live, brk, got, p, m, n, p + m);
        size := Put(size, p, size[p] - n);
        hp := p + size[p];
        size := Put(size, hp, n);
        free := Put(free, p, m);
      }
      live := Put(live, hp, n);
      freep := prevp;
    }

    /** malloc's beginning: the search starts behind freep. */
    method Enter()
      requires Valid()
      modifies `ptr, `size, `freep
      ensures Valid() && freep != 0 && InList(free, base, freep) && freep in ptr && InList(free, base, ptr[freep])
      ensures forall a :: a in free ==> !Passed(freep, ptr[freep], a)
    {
      if freep == 0 {
        Start();
      }
      ListNext(ptr, size, base, free, live, brk, got, freep);
      PassedNone(free, base, freep, ptr[freep]);
    }

    /** malloc's call of morecore: the search starts again at freep, with a block
        that is large enough on the list. */
    method Extend(nunits: nat, core: Core) returns (ok: bool, ap: nat)
      requires Valid() && freep != 0 && nunits > 0 && (core.CoreAt? ==> core.start >= brk)
      modifies this
      ensures ok <==> Exact(CoreUnits(nunits))
      ensures ok ==> Valid() && freep != 0 && live == old(live) && (ap == 0 <==> core.NoCore?)
      ensures ok && ap == 0 ==> free == old(free) && got == old(got)
      ensures ok && ap != 0 ==> got == old(got) + CoreUnits(nunits) && Roomy(free, nunits)
      ensures ok && ap != 0 ==> InList(free, base, freep) && freep in ptr && InList(free, base, ptr[freep])
                                && forall a :: a in free ==> !Passed(freep, ptr[freep], a)
    {
      ok, ap := Morecore(nunits, core);
      if ok && ap != 0 {
        CoveredRoomy(free, core.start, CoreUnits(nunits), nunits);
        ListNext(ptr, size, base, free, live, brk, got, freep);
        PassedNone(free, base, freep, ptr[freep]);
      }
    }

    /** malloc: ap is the result. It asks sbrk at most once, when no free block is
        large enough; false means that sbrk was then not asked for what was meant. */
    method Malloc(nbytes: nat, core: Core) returns (ok: bool, ap: nat)
      requires Valid() && nbytes < 0x1_0000_0000 && (core.CoreAt? ==> core.start >= brk)
      modifies this
      ensures ok <==> nbytes <= 0x7fff_ffe0 || Roomy(old(free), UnitsFor(nbytes))
      ensures ok ==> Valid() && 16 * (UnitsFor(nbytes) - 1) >= nbytes > 16 * (UnitsFor(nbytes) - 2)
      ensures ok && ap != 0 ==> ap - 1 !in old(live) && live == Put(old(live), ap - 1, UnitsFor(nbytes))
      ensures ok && ap == 0 ==> core.NoCore? && live == old(live)
                                && forall a :: a in free ==> free[a] < UnitsFor(nbytes)
      ensures ok ==> got == old(got) || (core.CoreAt? && got == old(got) + CoreUnits(UnitsFor(nbytes))
                                         && (got - old(got) == 4096 || got - old(got) == UnitsFor(nbytes) > 4096)
                                         && forall a :: a in old(free) ==> old(free)[a] < UnitsFor(nbytes))
    {
      var nunits := UnitsFor(nbytes);
      ExactUpTo(nbytes);
      Enter();
      var prevp: nat := freep;
      var p: nat := ptr[prevp];
      ghost var grown := false;
      while true
        invariant Valid() && freep != 0 && live == old(live) && InList(free, base, prevp) && InList(free, base, p)
        invariant prevp in ptr && p == ptr[prevp]
        invariant !grown ==> free == old(free) && got == old(got) && brk == old(brk)
        invariant forall a :: a in free && Passed(freep, p, a) ==> free[a] < nunits
        invariant grown ==> nbytes <= 0x7fff_ffe0 && core.CoreAt? && got == old(got) + CoreUnits(nunits)
                            && Roomy(free, nunits)
                            && forall a :: a in old(free) ==> old(free)[a] < nunits
        decreases !grown, p > freep, Above(free, p)
      {
        ListNext(ptr, size, base, free, live, brk, got, p);
        if size[p] >= nunits {
          var hp := TakeFrom(prevp, p, nunits);
          return true, hp + 1;
        }
        if p == freep {
          ok, ap := Extend(nunits, core);
          if !ok || ap == 0 {
            return ok, 0;
          }
          grown := true;
          prevp := freep;
        } else {
          PassedNext(free, base, freep, p, ptr[p]);
          prevp := p;
        }
        p := ptr[prevp];
      }
    }
  }

  /** sbrk's answer when malloc needs more memory: a start, not below the last end. */
  datatype Core = NoCore | CoreAt(start: nat)

  /** sbrk's int parameter is the count that malloc means. */
  predicate Exact(nu: nat) {
    AsInt(nu * 16) == nu * 16
  }

  function CoreUnits(nunits: nat): nat {
    if nunits < 4096 then 4096 else nunits
  }

  /** The header and enough units for nbytes. */
  function UnitsFor(nbytes: nat): nat {
    (nbytes + 15) / 16 + 1
  }

  /** sbrk gets the size malloc means exactly up to this request. */
  lemma ExactUpTo(nbytes: nat)
    requires nbytes < 0x1_0000_0000
    ensures Exact(CoreUnits(UnitsFor(nbytes))) <==> nbytes <= 0x7fff_ffe0
  {
  }

  lemma CutPut(m: Blocks, a: nat, n: nat)
    requires a !in m
    ensures Cut(Put(m, a, n), a) == m
  {
  }

  lemma ListPositive(ptr: Blocks, size: Blocks, base: nat, free: Blocks, live: Blocks, brk: nat, got: nat, a: nat)
    requires Sound(ptr, size, base, free, live, brk, got) && InList(free, base, a) && base > 0
    ensures a > 0 && a in ptr && a in size
  {
    assert Unfold(0);
  }

  lemma CoreApart(free: Blocks, live: Blocks, size: Blocks, base: nat, brk: nat, hp: nat, n: nat)
    requires Apart(live, free) && Sized(free, size, base, brk) && Sized(live, size, base, brk) && brk <= hp && n > 0
    ensures hp !in live && hp !in free && Apart(Put(live, hp, n), free)
  {
    AddBlock(live, free, hp, n);
  }

  lemma CoreSized(m: Blocks, size: Blocks, base: nat, brk: nat, hp: nat, n: nat)
    requires Sized(m, size, base, brk) && base < brk <= hp && n > 0
    ensures Sized(m, Put(size, hp, n), base, hp + n) && Sized(Put(m, hp, n), Put(size, hp, n), base, hp + n)
  {
  }

  lemma CoreSound(ptr: Blocks, size: Blocks, base: nat, free: Blocks, live: Blocks, brk: nat, got: nat, hp: nat, n: nat)
    requires Sound(ptr, size, base, free, live, brk, got) && base < brk <= hp && n > 0
    ensures hp !in live && Sound(ptr, Put(size, hp, n), base, free, Put(live, hp, n), hp + n, got + n)
  {
    assert Unfold(0);
    CoreApart(free, live, size, base, brk, hp, n);
    CoreSized(free, size, base, brk, hp, n);
    CoreSized(live, size, base, brk, hp, n);
    UnitsPut(live, hp, n);
    FoldBut(ptr, Put(size, hp, n), base, free, Put(live, hp, n), hp + n, got + n, 0, 0);
  }

  /** A step along the list. */
  lemma ListNext(ptr: Blocks, size: Blocks, base: nat, free: Blocks, live: Blocks, brk: nat, got: nat, a: nat)
    requires Sound(ptr, size, base, free, live, brk, got) && InList(free, base, a)
    ensures base <= a && a in ptr && InList(free, base, ptr[a]) && Follows(free, base, a, ptr[a])
    ensures a in size && size[a] == if a in free then free[a] else 0
    ensures forall c :: c in free ==> base < c
  {
    assert Unfold(0);
  }

  // ----- malloc's cut -----

  lemma WholeCircle(ptr: Blocks, free: Blocks, base: nat, prevp: nat, p: nat)
    requires Circle(ptr, free, base) && InList(free, base, prevp) && p in free && base < p && prevp in ptr
    requires ptr[prevp] == p && p in ptr
    requires forall c :: c in free ==> base < c
    ensures prevp != p && Circle(Put(ptr, prevp, ptr[p]), Cut(free, p), base)
  {
    assert InList(free, base, p);
    var ptr1, free1 := Put(ptr, prevp, ptr[p]), Cut(free, p);
    forall a | InList(free1, base, a)
      ensures a in ptr1 && Follows(free1, base, a, ptr1[a])
    {
      assert InList(free, base, a);
    }
  }

  lemma WholeApart(live: Blocks, free: Blocks, size: Blocks, base: nat, brk: nat, p: nat)
    requires Apart(live, free) && Spaced(free) && p in free && Sized(free, size, base, brk)
    requires Sized(live, size, base, brk)
    ensures Spaced(Cut(free, p)) && Apart(Put(live, p, free[p]), Cut(free, p))
    ensures Sized(Put(live, p, free[p]), size, base, brk) && Sized(Cut(free, p), size, base, brk)
  {
    CutBlock(live, free, p);
    AddBlock(live, Cut(free, p), p, free[p]);
  }

  lemma TakeWhole(ptr: Blocks, size: Blocks, base: nat, free: Blocks, live: Blocks, brk: nat, got: nat, prevp: nat,
                  p: nat)
    requires Sound(ptr, size, base, free, live, brk, got) && InList(free, base, prevp) && p in free && prevp in ptr
    requires ptr[prevp] == p
    ensures p in ptr && p !in live && prevp != p
    ensures Sound(Put(ptr, prevp, ptr[p]), size, base, Cut(free, p), Put(live, p, free[p]), brk, got)
  {
    assert Unfold(0);
    assert InList(free, base, p);
    WholeCircle(ptr, free, base, prevp, p);
    WholeApart(live, free, size, base, brk, p);
    UnitsCut(free, p);
    UnitsPut(live, p, free[p]);
    FoldBut(Put(ptr, prevp, ptr[p]), size, base, Cut(free, p), Put(live, p, free[p]), brk, got, 0, 0);
  }

  lemma TailCircle(ptr: Blocks, free: Blocks, base: nat, p: nat, m: nat)
    requires Circle(ptr, free, base) && p in free
    ensures Circle(ptr, Put(free, p, m), base)
  {
    forall a | InList(Put(free, p, m), base, a)
      ensures a in ptr && Follows(Put(free, p, m), base, a, ptr[a])
    {
      assert InList(free, base, a);
    }
  }

  /** The m + n units of block p as m units that stay free and n units at hp. */
  ghost predicate Tail(free: Blocks, p: nat, m: nat, n: nat, hp: nat) {
    p in free && free[p] == m + n && m > 0 && n > 0 && hp == p + m
  }

  lemma TailClear(live: Blocks, free: Blocks, size: Blocks, base: nat, brk: nat, p: nat, m: nat, n: nat, hp: nat)
    requires Apart(live, free) && Spaced(free) && Sized(free, size, base, brk) && Sized(live, size, base, brk)
    requires Tail(free, p, m, n, hp)
    ensures hp !in live && hp !in free
    ensures forall a :: a in live ==> a + live[a] <= hp || hp + n <= a
    ensures forall b :: b in Put(free, p, m) ==> b + Put(free, p, m)[b] <= hp || hp + n <= b
  {
    forall a | a in live
      ensures a != hp && (a + live[a] <= hp || hp + n <= a)
    {
      assert a + live[a] <= p || p + free[p] <= a;
    }
    forall b | b in free && b != p
      ensures b != hp && (b + free[b] <= hp || hp + n <= b)
    {
    }
  }

  lemma TailApart(live: Blocks, free: Blocks, size: Blocks, base: nat, brk: nat, p: nat, m: nat, n: nat, hp: nat)
    requires Apart(live, free) && Spaced(free) && Sized(free, size, base, brk) && Sized(live, size, base, brk)
    requires Tail(free, p, m, n, hp)
    ensures hp !in live && hp !in free && Apart(Put(live, hp, n), Put(free, p, m)) && Spaced(Put(free, p, m))
  {
    TailClear(live, free, size, base, brk, p, m, n, hp);
    ShrinkBlock(live, free, p, m);
    AddBlock(live, Put(free, p, m), hp, n);
  }

  lemma TailSized(live: Blocks, free: Blocks, size: Blocks, base: nat, brk: nat, p: nat, m: nat, n: nat, hp: nat)
    requires Sized(free, size, base, brk) && Sized(live, size, base, brk) && Tail(free, p, m, n, hp) && p !in live
    requires hp !in live && hp !in free
    ensures Sized(Put(free, p, m), Put(Put(size, p, m), hp, n), base, brk)
    ensures Sized(Put(live, hp, n), Put(Put(size, p, m), hp, n), base, brk)
  {
  }

  lemma TakeTail(ptr: Blocks, size: Blocks, base: nat, free: Blocks, live: Blocks, brk: nat, got: nat, p: nat, m: nat,
                 n: nat, hp: nat)
    requires Sound(ptr, size, base, free, live, brk, got) && Tail(free, p, m, n, hp)
    ensures hp !in live && Sound(ptr, Put(Put(size, p, m), hp, n), base, Put(free, p, m), Put(live, hp, n), brk, got)
  {
    assert Unfold(0);
    TailCircle(ptr, free, base, p, m);
    TailApart(live, free, size, base, brk, p, m, n, hp);
    TailSized(live, free, size, base, brk, p, m, n, hp);
    UnitsPut(free, p, m);
    UnitsPut(live, hp, n);
    FoldBut(ptr, Put(Put(size, p, m), hp, n), base, Put(free, p, m), Put(live, hp, n), brk, got, 0, 0);
  }

  // ----- malloc's search -----

  /** Going round from freep, the search has come past a before it gets to p. */
  predicate Passed(freep: nat, p: nat, a: nat) {
    if p > freep then freep < a < p else a > freep || a < p
  }

  lemma PassedNone(free: Blocks, base: nat, freep: nat, p: nat)
    requires InList(free, base, freep) && Follows(free, base, freep, p) && forall c :: c in free ==> base < c
    ensures forall a :: a in free ==> !Passed(freep, p, a)
  {
  }

  lemma PassedNext(free: Blocks, base: nat, freep: nat, p: nat, q: nat)
    requires InList(free, base, freep) && InList(free, base,
                                                 p) && p != freep && Follows(free, base, p, q)
                                                 && forall c :: c in free ==> base < c
    ensures forall a :: a in free && Passed(freep, q, a) ==> a == p || Passed(freep, p, a)
    ensures q > p ==> (q > freep <==> p > freep) && q in Above(free, p)
    ensures q <= p ==> p > freep && q <= freep
  {
  }

  ghost predicate Roomy(free: Blocks, n: nat) {
    exists a :: a in free && free[a] >= n
  }

  lemma CoveredRoomy(free: Blocks, a: nat, n: nat, m: nat)
    requires Covered(free, a, n) && m <= n
    ensures Roomy(free, m)
  {
  }
}
