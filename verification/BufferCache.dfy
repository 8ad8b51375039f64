/** The buffer cache of kernel/bio.c: NBUF buffers on a doubly linked circle
    through a sentinel, most recently released first. Pointers into the static
    array bcache.buf are indices; HEAD stands for &bcache.head.

    Each method is one step taken under bcache.lock or under the buffer's sleep
    lock, so a run of the kernel is any interleaving of these calls. */
module BufferCache {

  const NBUF: nat := 30
  const HEAD: nat := NBUF
  const ROOTDEV: nat := 1

  // ----- the doubly linked circle -----

  ghost predicate Nodes(o: seq<nat>) {
    && (forall i :: 0 <= i < |o| ==> o[i] < NBUF)
    && (forall i, j :: 0 <= i < j < |o| ==> o[i] != o[j])
  }

  /** The i-th node of the circle HEAD, o[0], o[1], ..., HEAD. */
  ghost function At(o: seq<nat>, i: int): nat {
    if 0 <= i < |o| then o[i] else HEAD
  }

  /** Following prev from HEAD visits o from its first element, the least
      recently released, to its last; following next visits it backwards. */
  ghost predicate Prevs(prev: seq<nat>, o: seq<nat>) {
    && |prev| == NBUF + 1 && prev[HEAD] == At(o, 0)
    && (forall i {:trigger prev[o[i]]} :: 0 <= i < |o| ==> o[i] < NBUF && prev[o[i]] == At(o, i + 1))
  }

  ghost predicate Nexts(next: seq<nat>, o: seq<nat>) {
    && |next| == NBUF + 1 && next[HEAD] == At(o, |o| - 1)
    && (forall i {:trigger next[o[i]]} :: 0 <= i < |o| ==> o[i] < NBUF && next[o[i]] == At(o, i - 1))
  }

  ghost predicate Linked(next: seq<nat>, prev: seq<nat>, o: seq<nat>) {
    Nodes(o) && Nexts(next, o) && Prevs(prev, o)
  }

  ghost function Without(o: seq<nat>, k: nat): seq<nat>
    requires k < |o|
  {
    o[..k] + o[k+1..]
  }

  lemma DropNext(next: seq<nat>, o: seq<nat>, k: nat)
    requires Nodes(o) && Nexts(next, o) && k < |o|
    ensures Nexts(next[At(o, k + 1) := At(o, k - 1)], Without(o, k))
  {
    var p, next1 := Without(o, k), next[At(o, k + 1) := At(o, k - 1)];
    forall i | 0 <= i < |p|
      ensures p[i] < NBUF && next1[p[i]] == At(p, i - 1)
    {
      if i < k {
        assert p[i] == o[i] && next[o[i]] == At(o, i - 1);
      } else if i > k {
        assert p[i] == o[i + 1] && next[o[i + 1]] == o[i];
      } else {
        assert p[i] == o[k + 1] == At(o, k + 1);
      }
    }
  }

  lemma DropPrev(prev: seq<nat>, o: seq<nat>, k: nat)
    requires Nodes(o) && Prevs(prev, o) && k < |o|
    ensures Prevs(prev[At(o, k - 1) := At(o, k + 1)], Without(o, k))
  {
    var p, prev1 := Without(o, k), prev[At(o, k - 1) := At(o, k + 1)];
    forall i | 0 <= i < |p|
      ensures p[i] < NBUF && prev1[p[i]] == At(p, i + 1)
    {
      if i < k - 1 {
        assert p[i] == o[i] && prev[o[i]] == o[i + 1] == p[i + 1];
      } else if i == k - 1 {
        assert p[i] == o[k - 1] == At(o, k - 1);
      } else {
        assert p[i] == o[i + 1] && prev[o[i + 1]] == At(o, i + 2);
      }
    }
  }

  /** Unlinking the k-th node. */
  lemma Unlink(next: seq<nat>, prev: seq<nat>, o: seq<nat>, k: nat)
    requires Linked(next, prev, o) && k < |o|
    ensures next[o[k]] <= NBUF && prev[o[k]] <= NBUF
    ensures Linked(next[prev[o[k]] := next[o[k]]], prev[next[o[k]] := prev[o[k]]], Without(o, k))
    ensures o[k] !in Without(o, k)
  {
    DropNext(next, o, k);
    DropPrev(prev, o, k);
    assert next[o[k]] == At(o, k - 1) && prev[o[k]] == At(o, k + 1);
  }

  lemma AddNext(next: seq<nat>, o: seq<nat>, b: nat)
    requires Nodes(o) && Nexts(next, o) && b < NBUF && b !in o
    ensures Nexts(next[b := next[HEAD]][HEAD := b], o + [b])
  {
    var p, next1 := o + [b], next[b := next[HEAD]][HEAD := b];
    forall i | 0 <= i < |p|
      ensures p[i] < NBUF && next1[p[i]] == At(p, i - 1)
    {
      if i < |o| {
        assert p[i] == o[i] && next1[o[i]] == next[o[i]] == At(o, i - 1);
      }
    }
  }

  lemma AddPrev(prev: seq<nat>, o: seq<nat>, b: nat)
    requires Nodes(o) && Prevs(prev, o) && b < NBUF && b !in o
    ensures Prevs(prev[b := HEAD][At(o, |o| - 1) := b], o + [b])
  {
    var p, front := o + [b], At(o, |o| - 1);
    var prev1 := prev[b := HEAD][front := b];
    forall i | 0 <= i < |p|
      ensures p[i] < NBUF && prev1[p[i]] == At(p, i + 1)
    {
      if i < |o| - 1 {
        assert p[i] == o[i] != front && prev1[o[i]] == prev[o[i]] == At(o, i + 1);
      }
    }
  }

  /** Linking a node just behind HEAD, the most recently released end. */
  lemma LinkFirst(next: seq<nat>, prev: seq<nat>, o: seq<nat>, b: nat)
    requires Linked(next, prev, o) && b < NBUF && b !in o
    ensures next[HEAD] <= NBUF
    ensures Linked(next[b := next[HEAD]][HEAD := b], prev[b := HEAD][next[HEAD] := b], o + [b])
  {
    AddNext(next, o, b);
    AddPrev(prev, o, b);
  }

  // ----- the state and its invariants -----

  datatype Buf<T> = Buf(dev: nat, blockno: nat, valid: bool, refcnt: nat, locked: bool, data: T) {
    predicate Is(d: nat, b: nat) {
      dev == d && blockno == b
    }
  }

  /** What the code does not store but the argument needs. */
  datatype Book<T> = Book(
    order: seq<nat>,     // the circle, least recently released first
    stamp: seq<nat>,     // when each buffer last became idle
    clock: nat,
    waiters: seq<nat>,   // processes between bget and the sleep lock
    pins: seq<nat>,      // references taken by bpin
    leaving: seq<nat>,   // processes in brelse, past the sleep lock
    touched: seq<bool>,  // the holder has changed data since it took the lock
    latest: seq<T>       // the contents of each block when it was last released
  )

  /** A reference is a process waiting for the sleep lock, its holder, one that has
      just released it, or a pin. */
  ghost predicate Counted<T>(bufs: seq<Buf<T>>, g: Book<T>) {
    |bufs| == |g.waiters| == |g.pins| == |g.leaving| == NBUF
    && forall b :: 0 <= b < NBUF ==>
         bufs[b].refcnt == g.waiters[b] + g.pins[b] + g.leaving[b] + if bufs[b].locked then 1 else 0
  }

  /** At most one buffer holds a block of a device other than 0. */
  ghost predicate Unique<T>(bufs: seq<Buf<T>>) {
    forall b, c {:trigger bufs[c].Is(bufs[b].dev, bufs[b].blockno)} ::
      0 <= b < |bufs| && 0 <= c < |bufs| && b != c && bufs[b].dev != 0 ==> !bufs[c].Is(bufs[b].dev, bufs[b].blockno)
  }

  ghost predicate Cached<T>(bufs: seq<Buf<T>>, x: nat) {
    exists b :: 0 <= b < |bufs| && bufs[b].valid && bufs[b].blockno == x
  }

  /** A valid buffer holds the latest contents unless its holder has changed
      them, and outside the lock it differs from the disk only if pinned. */
  ghost predicate Fresh<T>(b: Buf<T>, disk: seq<T>, latest: seq<T>, pins: nat, touched: bool) {
    b.valid ==>
      && b.dev == ROOTDEV && b.blockno < |disk| == |latest|
      && (!(b.locked && touched) ==> b.data == latest[b.blockno])
      && (!b.locked && b.data != disk[b.blockno] ==> pins > 0)
  }

  ghost predicate AllFresh<T>(bufs: seq<Buf<T>>, disk: seq<T>, g: Book<T>) {
    && |bufs| == |g.pins| == |g.touched| == NBUF
    && (forall b {:trigger Fresh(bufs[b], disk, g.latest, g.pins[b], g.touched[b])} ::
          0 <= b < NBUF ==> Fresh(bufs[b], disk, g.latest, g.pins[b], g.touched[b]))
  }

  /** A block with no valid buffer is up to date on the disk. */
  ghost predicate Clean<T>(bufs: seq<Buf<T>>, disk: seq<T>, latest: seq<T>) {
    |disk| == |latest| && forall x :: 0 <= x < |disk| && !Cached(bufs, x) ==> disk[x] == latest[x]
  }

  /** Idle buffers stand on the circle in the order of their last release. */
  ghost predicate Lru<T>(bufs: seq<Buf<T>>, g: Book<T>) {
    && |bufs| == |g.stamp| == NBUF && Nodes(g.order) && (forall b :: 0 <= b < NBUF ==> b in g.order)
    && (forall b :: 0 <= b < NBUF ==> g.stamp[b] < g.clock)
    && (forall i, j {:trigger g.stamp[g.order[i]], g.stamp[g.order[j]]} ::
          0 <= i < j < |g.order| && bufs[g.order[i]].refcnt == 0 && bufs[g.order[j]].refcnt == 0
          ==> g.stamp[g.order[i]] < g.stamp[g.order[j]])
  }

  ghost predicate Sound<T>(bufs: seq<Buf<T>>, disk: seq<T>, g: Book<T>) {
    Counted(bufs, g) && Unique(bufs) && AllFresh(bufs, disk, g) && Clean(bufs, disk, g.latest) && Lru(bufs, g)
  }

  // ----- every step keeps them -----

  lemma SameCached<T>(bufs: seq<Buf<T>>, b: nat, c: Buf<T>, x: nat)
    requires b < |bufs| && c.valid == bufs[b].valid && c.blockno == bufs[b].blockno
    ensures Cached(bufs[b := c], x) == Cached(bufs, x)
  {
    var bufs1 := bufs[b := c];
    if Cached(bufs, x) {
      var i :| 0 <= i < |bufs| && bufs[i].valid && bufs[i].blockno == x;
      assert bufs1[i].valid && bufs1[i].blockno == x;
    }
    if Cached(bufs1, x) {
      var i :| 0 <= i < |bufs| && bufs1[i].valid && bufs1[i].blockno == x;
      assert bufs[i].valid && bufs[i].blockno == x;
    }
  }

  lemma SameClean<T>(bufs: seq<Buf<T>>, disk: seq<T>, latest: seq<T>, b: nat, c: Buf<T>)
    requires Clean(bufs, disk, latest)
    requires b < |bufs| && c.valid == bufs[b].valid && c.blockno == bufs[b].blockno
    ensures Clean(bufs[b := c], disk, latest)
  {
    forall x | 0 <= x < |disk| {
      SameCached(bufs, b, c, x);
    }
  }

  lemma SameUnique<T>(bufs: seq<Buf<T>>, b: nat, c: Buf<T>)
    requires Unique(bufs) && b < |bufs| && c.dev == bufs[b].dev && c.blockno == bufs[b].blockno
    ensures Unique(bufs[b := c])
  {
    var bufs1 := bufs[b := c];
    forall i, j | 0 <= i < |bufs| && 0 <= j < |bufs| && i != j && bufs1[i].dev != 0
      ensures !bufs1[j].Is(bufs1[i].dev, bufs1[i].blockno)
    {
      assert !bufs[j].Is(bufs[i].dev, bufs[i].blockno);
    }
  }

  lemma SameFresh<T>(bufs: seq<Buf<T>>, disk: seq<T>, g: Book<T>, b: nat, c: Buf<T>, g1: Book<T>)
    requires AllFresh(bufs, disk, g) && b < NBUF
    requires |g1.pins| == |g1.touched| == NBUF && g1.latest == g.latest
    requires g1.pins == g.pins[b := g1.pins[b]] && g1.touched == g.touched[b := g1.touched[b]]
    requires Fresh(c, disk, g.latest, g1.pins[b], g1.touched[b])
    ensures AllFresh(bufs[b := c], disk, g1)
  {
    forall i | 0 <= i < NBUF
      ensures Fresh(bufs[b := c][i], disk, g1.latest, g1.pins[i], g1.touched[i])
    {
      assert Fresh(bufs[i], disk, g.latest, g.pins[i], g.touched[i]);
    }
  }

  /** Any step on one buffer that keeps its block, keeps the count right and does
      not make it idle. */
  lemma InPlaceSound<T>(bufs: seq<Buf<T>>, disk: seq<T>, g: Book<T>, b: nat, c: Buf<T>, g1: Book<T>)
    requires Sound(bufs, disk, g) && b < NBUF
    requires c.dev == bufs[b].dev && c.blockno == bufs[b].blockno && c.valid == bufs[b].valid && c.refcnt > 0
    requires |g1.waiters| == |g1.pins| == |g1.touched| == NBUF
    requires g1 == g.(waiters := g.waiters[b := g1.waiters[b]], pins := g.pins[b := g1.pins[b]],
                      touched := g.touched[b := g1.touched[b]])
    requires c.refcnt == g1.waiters[b] + g1.pins[b] + g.leaving[b] + if c.locked then 1 else 0
    requires Fresh(c, disk, g.latest, g1.pins[b], g1.touched[b])
    ensures Sound(bufs[b := c], disk, g1)
  {
    SameClean(bufs, disk, g.latest, b, c);
    SameUnique(bufs, b, c);
    SameFresh(bufs, disk, g, b, c, g1);
  }

  function Claimed<T>(b: Buf<T>): Buf<T> {
    b.(refcnt := b.refcnt + 1)
  }

  lemma ClaimSound<T>(bufs: seq<Buf<T>>, disk: seq<T>, g: Book<T>, b: nat)
    requires Sound(bufs, disk, g) && b < NBUF
    ensures Sound(bufs[b := Claimed(bufs[b])], disk, g.(waiters := g.waiters[b := g.waiters[b] + 1]))
  {
    assert Fresh(bufs[b], disk, g.latest, g.pins[b], g.touched[b]);
    InPlaceSound(bufs, disk, g, b, Claimed(bufs[b]), g.(waiters := g.waiters[b := g.waiters[b] + 1]));
  }

  lemma PinSound<T>(bufs: seq<Buf<T>>, disk: seq<T>, g: Book<T>, b: nat)
    requires Sound(bufs, disk, g) && b < NBUF
    ensures Sound(bufs[b := Claimed(bufs[b])], disk, g.(pins := g.pins[b := g.pins[b] + 1]))
  {
    assert Fresh(bufs[b], disk, g.latest, g.pins[b], g.touched[b]);
    InPlaceSound(bufs, disk, g, b, Claimed(bufs[b]), g.(pins := g.pins[b := g.pins[b] + 1]));
  }

  /** Recycling an idle buffer loses nothing: its block is clean. */
  lemma RecycleClean<T>(bufs: seq<Buf<T>>, disk: seq<T>, g: Book<T>, b: nat, c: Buf<T>)
    requires Sound(bufs, disk, g) && b < NBUF && bufs[b].refcnt == 0 && !c.valid
    ensures Clean(bufs[b := c], disk, g.latest)
  {
    forall x | 0 <= x < |disk| && !Cached(bufs[b := c], x)
      ensures disk[x] == g.latest[x]
    {
      if Cached(bufs, x) {
        var i :| 0 <= i < NBUF && bufs[i].valid && bufs[i].blockno == x;
        assert bufs[b := c][i] != bufs[i];
        assert Fresh(bufs[b], disk, g.latest, g.pins[b], g.touched[b]);
      }
    }
  }

  lemma RecycleSound<T>(bufs: seq<Buf<T>>, disk: seq<T>, g: Book<T>, b: nat, c: Buf<T>)
    requires Sound(bufs, disk, g) && b < NBUF && bufs[b].refcnt == 0
    requires !c.valid && c.refcnt == 1 && !c.locked
    requires !HasBlock(bufs, c.dev, c.blockno)
    ensures Sound(bufs[b := c], disk, g.(waiters := g.waiters[b := g.waiters[b] + 1]))
  {
    RecycleClean(bufs, disk, g, b, c);
    var bufs1 := bufs[b := c];
    forall i, j | 0 <= i < |bufs| && 0 <= j < |bufs| && i != j && bufs1[i].dev != 0
      ensures !bufs1[j].Is(bufs1[i].dev, bufs1[i].blockno)
    {
      assert !bufs[j].Is(c.dev, c.blockno) && !bufs[i].Is(c.dev, c.blockno);
      assert i != b ==> !bufs[j].Is(bufs[i].dev, bufs[i].blockno);
    }
    SameFresh(bufs, disk, g, b, c, g);
  }

  lemma LockSound<T>(bufs: seq<Buf<T>>, disk: seq<T>, g: Book<T>, b: nat)
    requires Sound(bufs, disk, g) && b < NBUF && !bufs[b].locked && g.waiters[b] > 0
    ensures Sound(bufs[b := bufs[b].(locked := true)], disk,
                  g.(waiters := g.waiters[b := g.waiters[b] - 1], touched := g.touched[b := false]))
  {
    assert Fresh(bufs[b], disk, g.latest, g.pins[b], g.touched[b]);
    InPlaceSound(bufs, disk, g, b, bufs[b].(locked := true),
                 g.(waiters := g.waiters[b := g.waiters[b] - 1], touched := g.touched[b := false]));
  }

  lemma StillCached<T>(bufs: seq<Buf<T>>, b: nat, c: Buf<T>, y: nat)
    requires b < |bufs| && !bufs[b].valid
    ensures Cached(bufs, y) ==> Cached(bufs[b := c], y)
  {
    if Cached(bufs, y) {
      var i :| 0 <= i < |bufs| && bufs[i].valid && bufs[i].blockno == y;
      assert bufs[b := c][i] == bufs[i];
    }
  }

  lemma FillSound<T>(bufs: seq<Buf<T>>, disk: seq<T>, g: Book<T>, b: nat)
    requires Sound(bufs, disk, g) && b < NBUF && bufs[b].locked && !bufs[b].valid
    requires bufs[b].dev == ROOTDEV && bufs[b].blockno < |disk|
    ensures disk[bufs[b].blockno] == g.latest[bufs[b].blockno]
    ensures Sound(bufs[b := bufs[b].(valid := true, data := disk[bufs[b].blockno])], disk, g)
  {
    var x, bufs1 := bufs[b].blockno, bufs[b := bufs[b].(valid := true, data := disk[bufs[b].blockno])];
    forall i | 0 <= i < NBUF
      ensures !(bufs[i].valid && bufs[i].blockno == x)
    {
      assert Fresh(bufs[i], disk, g.latest, g.pins[i], g.touched[i]);
      assert i != b ==> !bufs[i].Is(bufs[b].dev, bufs[b].blockno);
    }
    assert !Cached(bufs, x);
    SameUnique(bufs, b, bufs1[b]);
    SameFresh(bufs, disk, g, b, bufs1[b], g);
    forall y | 0 <= y < |disk| {
      StillCached(bufs, b, bufs1[b], y);
    }
  }

  lemma StoreSound<T>(bufs: seq<Buf<T>>, disk: seq<T>, g: Book<T>, b: nat, x: T)
    requires Sound(bufs, disk, g) && b < NBUF && bufs[b].locked && bufs[b].valid
    ensures Sound(bufs[b := bufs[b].(data := x)], disk, g.(touched := g.touched[b := true]))
  {
    assert Fresh(bufs[b], disk, g.latest, g.pins[b], g.touched[b]);
    InPlaceSound(bufs, disk, g, b, bufs[b].(data := x), g.(touched := g.touched[b := true]));
  }

  /** A block whose buffer is locked may be written: no other buffer holds it. */
  lemma WriteSound<T>(bufs: seq<Buf<T>>, disk: seq<T>, g: Book<T>, b: nat)
    requires Sound(bufs, disk, g) && b < NBUF && bufs[b].locked && bufs[b].valid
    ensures bufs[b].blockno < |disk|
    ensures Sound(bufs, disk[bufs[b].blockno := bufs[b].data], g)
  {
    assert Fresh(bufs[b], disk, g.latest, g.pins[b], g.touched[b]);
    var x := bufs[b].blockno;
    assert Cached(bufs, x);
    forall c | 0 <= c < NBUF
      ensures Fresh(bufs[c], disk[x := bufs[b].data], g.latest, g.pins[c], g.touched[c])
    {
      assert Fresh(bufs[c], disk, g.latest, g.pins[c], g.touched[c]);
      assert c != b ==> !bufs[c].Is(bufs[b].dev, bufs[b].blockno);
    }
  }

  lemma UnpinSound<T>(bufs: seq<Buf<T>>, disk: seq<T>, g: Book<T>, b: nat)
    requires Sound(bufs, disk, g) && b < NBUF && bufs[b].locked && g.pins[b] > 0
    ensures Sound(bufs[b := bufs[b].(refcnt := bufs[b].refcnt - 1)], disk, g.(pins := g.pins[b := g.pins[b] - 1]))
  {
    assert Fresh(bufs[b], disk, g.latest, g.pins[b], g.touched[b]);
    InPlaceSound(bufs, disk, g, b, bufs[b].(refcnt := bufs[b].refcnt - 1), g.(pins := g.pins[b := g.pins[b] - 1]));
  }

  /** The buffer, and the contents of its block, when the sleep lock is released. */
  function Unlocked<T>(b: Buf<T>): Buf<T> {
    b.(locked := false)
  }

  lemma UnlockFresh<T>(bufs: seq<Buf<T>>, disk: seq<T>, g: Book<T>, b: nat)
    requires Counted(bufs, g) && Unique(bufs) && AllFresh(bufs, disk, g) && Clean(bufs, disk, g.latest)
    requires b < NBUF && bufs[b].locked && bufs[b].valid
    requires bufs[b].blockno < |disk| && (bufs[b].data == disk[bufs[b].blockno] || g.pins[b] > 0)
    ensures var bufs1, g1 := bufs[b := Unlocked(bufs[b])], g.(latest := g.latest[bufs[b].blockno := bufs[b].data]);
            AllFresh(bufs1, disk, g1) && Clean(bufs1, disk, g1.latest)
  {
    var x := bufs[b].blockno;
    var bufs1, g1 := bufs[b := Unlocked(bufs[b])], g.(latest := g.latest[x := bufs[b].data]);
    forall c | 0 <= c < NBUF
      ensures Fresh(bufs1[c], disk, g1.latest, g1.pins[c], g1.touched[c])
    {
      assert Fresh(bufs[b], disk, g.latest, g.pins[b], g.touched[b]);
      assert Fresh(bufs[c], disk, g.latest, g.pins[c], g.touched[c]);
      assert c != b ==> !bufs[c].Is(bufs[b].dev, bufs[b].blockno);
    }
    forall y | 0 <= y < |disk| {
      SameCached(bufs, b, Unlocked(bufs[b]), y);
    }
    assert Cached(bufs, x);
  }

  ghost function UnlockedBook<T>(bufs: seq<Buf<T>>, g: Book<T>, b: nat): Book<T>
    requires b < |bufs| && bufs[b].blockno < |g.latest| && b < |g.leaving|
  {
    g.(latest := g.latest[bufs[b].blockno := bufs[b].data], leaving := g.leaving[b := g.leaving[b] + 1])
  }

  /** The holder may let go of what it has written or pinned. */
  lemma UnlockSound<T>(bufs: seq<Buf<T>>, disk: seq<T>, g: Book<T>, b: nat)
    requires Sound(bufs, disk, g) && b < NBUF && bufs[b].locked && bufs[b].valid
    requires bufs[b].blockno < |disk| && (bufs[b].data == disk[bufs[b].blockno] || g.pins[b] > 0)
    ensures Sound(bufs[b := Unlocked(bufs[b])], disk, UnlockedBook(bufs, g, b))
  {
    UnlockFresh(bufs, disk, g, b);
    SameUnique(bufs, b, Unlocked(bufs[b]));
  }

  function Dropped<T>(b: Buf<T>): Buf<T>
    requires b.refcnt > 0
  {
    b.(refcnt := b.refcnt - 1)
  }

  /** The book after brelse drops its reference, perhaps the last one. */
  ghost function DroppedBook<T>(bufs: seq<Buf<T>>, g: Book<T>, b: nat, k: nat): Book<T>
    requires b < |bufs| && b < |g.stamp| && b < |g.leaving| && g.leaving[b] > 0 && k < |g.order|
  {
    var g1 := g.(leaving := g.leaving[b := g.leaving[b] - 1]);
    if bufs[b].refcnt != 1 then g1
    else g1.(order := Without(g.order, k) + [b], stamp := g.stamp[b := g.clock], clock := g.clock + 1)
  }

  /** Releasing the lock and dropping the reference, one after the other. */
  lemma UnlockThenDrop<T>(bufs: seq<Buf<T>>, g: Book<T>, b: nat, k: nat)
    requires b < |bufs| && bufs[b].blockno < |g.latest| && b < |g.leaving| && b < |g.stamp| && k < |g.order|
    ensures var g1 := DroppedBook(bufs[b := Unlocked(bufs[b])], UnlockedBook(bufs, g, b), b, k);
            && g1.leaving == g.leaving
            && g1 == g.(latest := g1.latest, order := g1.order, stamp := g1.stamp, clock := g1.clock)
            && g1.latest == g.latest[bufs[b].blockno := bufs[b].data]
            && (bufs[b].refcnt != 1 ==> g1.order == g.order && g1.stamp == g.stamp && g1.clock == g.clock)
            && (bufs[b].refcnt == 1 ==> g1.order == Without(g.order, k) + [b] && g1.stamp == g.stamp[b := g.clock]
                                        && g1.clock == g.clock + 1)
  {
    assert g.leaving[b := g.leaving[b] + 1][b := g.leaving[b]] == g.leaving;
  }

  lemma MoveOrder(o: seq<nat>, b: nat, k: nat)
    requires Nodes(o) && k < |o| && o[k] == b && forall c :: 0 <= c < NBUF ==> c in o
    ensures Nodes(Without(o, k) + [b]) && forall c :: 0 <= c < NBUF ==> c in Without(o, k) + [b]
  {
    forall c | 0 <= c < NBUF
      ensures c in Without(o, k) + [b]
    {
      assert c in o;
      var i :| 0 <= i < |o| && o[i] == c;
      if i < k {
        assert Without(o, k)[i] == c;
      } else if i > k {
        assert Without(o, k)[i - 1] == c;
      }
    }
  }

  lemma MovedStamps<T>(bufs: seq<Buf<T>>, g: Book<T>, b: nat, k: nat, i: nat, j: nat)
    requires Lru(bufs, g) && k < |g.order| && g.order[k] == b && i < j < |g.order|
    requires var p := Without(g.order, k) + [b];
             p[i] != b && bufs[p[i]].refcnt == 0 && (p[j] == b || bufs[p[j]].refcnt == 0)
    ensures var p, stamp := Without(g.order, k) + [b], g.stamp[b := g.clock]; stamp[p[i]] < stamp[p[j]]
  {
    var p := Without(g.order, k) + [b];
    assert p[i] == g.order[if i < k then i else i + 1];
    if j < |g.order| - 1 {
      assert p[j] == g.order[if j < k then j else j + 1];
    }
  }

  lemma DropLru<T>(bufs: seq<Buf<T>>, g: Book<T>, b: nat, k: nat)
    requires Lru(bufs, g) && b < NBUF && bufs[b].refcnt > 0 && b < |g.leaving| && g.leaving[b] > 0
    requires k < |g.order| && g.order[k] == b
    ensures Lru(bufs[b := Dropped(bufs[b])], DroppedBook(bufs, g, b, k))
  {
    if bufs[b].refcnt == 1 {
      var bufs1, g1 := bufs[b := Dropped(bufs[b])], DroppedBook(bufs, g, b, k);
      MoveOrder(g.order, b, k);
      forall i, j | 0 <= i < j < |g1.order| && bufs1[g1.order[i]].refcnt == 0 && bufs1[g1.order[j]].refcnt == 0
        ensures g1.stamp[g1.order[i]] < g1.stamp[g1.order[j]]
      {
        MovedStamps(bufs, g, b, k, i, j);
      }
    }
  }

  lemma DropSound<T>(bufs: seq<Buf<T>>, disk: seq<T>, g: Book<T>, b: nat, k: nat)
    requires Sound(bufs, disk, g) && b < NBUF && g.leaving[b] > 0 && k < |g.order| && g.order[k] == b
    ensures Sound(bufs[b := Dropped(bufs[b])], disk, DroppedBook(bufs, g, b, k))
  {
    var c := Dropped(bufs[b]);
    assert Fresh(bufs[b], disk, g.latest, g.pins[b], g.touched[b]);
    SameClean(bufs, disk, g.latest, b, c);
    SameUnique(bufs, b, c);
    SameFresh(bufs, disk, g, b, c, DroppedBook(bufs, g, b, k));
    DropLru(bufs, g, b, k);
  }

  /** Boot counts as the release of every buffer, in array order. */
  function BootBook<T>(disk: seq<T>): Book<T> {
    Book(seq(NBUF, i => i), seq(NBUF, i => i), NBUF, seq(NBUF, _ => 0), seq(NBUF, _ => 0), seq(NBUF, _ => 0),
         seq(NBUF, _ => false), disk)
  }

  lemma BootSound<T>(disk: seq<T>, zero: T)
    ensures Sound(seq(NBUF, _ => Buf(0, 0, false, 0, false, zero)), disk, BootBook(disk))
  {
    var o := BootBook(disk).order;
    forall c | 0 <= c < NBUF
      ensures c in o
    {
      assert o[c] == c;
    }
  }

  /** The buffer as bget leaves it: another reference, or a new block to read. */
  function Fetched<T>(b: Buf<T>, dev: nat, blockno: nat): Buf<T> {
    if b.Is(dev, blockno) then Claimed(b) else Buf(dev, blockno, false, 1, false, b.data)
  }

  ghost predicate HasBlock<T>(bufs: seq<Buf<T>>, dev: nat, blockno: nat) {
    exists c :: 0 <= c < |bufs| && bufs[c].Is(dev, blockno)
  }

  ghost predicate AllBusy<T>(bufs: seq<Buf<T>>) {
    forall c :: 0 <= c < |bufs| ==> bufs[c].refcnt > 0
  }

  ghost predicate OldestIdle<T>(bufs: seq<Buf<T>>, stamp: seq<nat>, b: nat) {
    && b < |bufs| == |stamp| && bufs[b].refcnt == 0
    && forall c :: 0 <= c < |bufs| && bufs[c].refcnt == 0 ==> stamp[b] <= stamp[c]
  }

  // ----- the disk as a record of its writes -----

  /** The contents of block b after the writes ws to a disk d. */
  function Final<T>(d: seq<T>, ws: seq<(nat, T)>, b: nat): T
    requires b < |d|
  {
    if ws == [] then d[b]
    else if ws[|ws| - 1].0 == b then ws[|ws| - 1].1
    else Final(d, ws[..|ws| - 1], b)
  }

  ghost predicate Recorded<T>(d: seq<T>, ws: seq<(nat, T)>, disk: seq<T>) {
    |disk| == |d| && forall b {:trigger Final(d, ws, b)} :: 0 <= b < |d| ==> disk[b] == Final(d, ws, b)
  }

  lemma RecordWrite<T>(d: seq<T>, ws: seq<(nat, T)>, disk: seq<T>, x: nat, y: T)
    requires Recorded(d, ws, disk) && x < |disk|
    ensures Recorded(d, ws + [(x, y)], disk[x := y])
  {
    forall b | 0 <= b < |d|
      ensures disk[x := y][b] == Final(d, ws + [(x, y)], b)
    {
      assert (ws + [(x, y)])[..|ws|] == ws;
      assert disk[b] == Final(d, ws, b);
    }
  }

  class Cache<T> {
    var bufs: seq<Buf<T>>
    var next: seq<nat>
    var prev: seq<nat>
    var disk: seq<T>
    ghost var g: Book<T>
    ghost var boot: seq<T>          // the disk when the cache was set up
    ghost var trace: seq<(nat, T)>  // every disk write since, in order

    ghost predicate Valid()
      reads this
    {
      Linked(next, prev, g.order) && Sound(bufs, disk, g) && Recorded(boot, trace, disk)
    }

    /** A buffer that some process has locked and filled, as bread returns it. */
    ghost predicate Held(b: nat)
      reads this
    {
      b < NBUF <= |bufs| && bufs[b].locked && bufs[b].valid
    }

    /** binit, over the zeroed array bcache.buf. */
    constructor (disk: seq<T>, zero: T)
      ensures Valid()
      ensures this.disk == disk == boot == g.latest && trace == []
      ensures bufs == seq(NBUF, _ => Buf(0, 0, false, 0, false, zero)) && g == BootBook(disk)
    {
      this.disk, boot, trace := disk, disk, [];
      bufs := seq(NBUF, _ => Buf(0, 0, false, 0, false, zero));
      next, prev := seq(NBUF + 1, _ => HEAD), seq(NBUF + 1, _ => HEAD);
      g := BootBook(disk);
      new;
      LinkAll();
      BootSound(disk, zero);
    }

    method LinkAll()
      requires Linked(next, prev, [])
      modifies `next, `prev
      ensures Linked(next, prev, seq(NBUF, i => i))
    {
      var b := 0;
      ghost var order: seq<nat> := [];
      while b < NBUF
        invariant 0 <= b <= NBUF && order == seq(b, i => i) && Linked(next, prev, order)
      {
        LinkFirst(next, prev, order, b);
        next := next[b := next[HEAD]];
        prev := prev[b := HEAD];
        prev := prev[next[HEAD] := b];
        next := next[HEAD := b];
        order := order + [b];
        b := b + 1;
      }
    }

    /** bget's first scan, from the most recently released end. */
    method FindCached(dev: nat, blockno: nat) returns (b: nat)
      requires Valid()
      ensures b <= NBUF && (b < NBUF ==> bufs[b].Is(dev, blockno))
      ensures b == HEAD <==> !HasBlock(bufs, dev, blockno)
    {
      b := next[HEAD];
      ghost var i := |g.order| - 1;
      while b != HEAD
        invariant -1 <= i < |g.order| && b == At(g.order, i)
        invariant forall j :: i < j < |g.order| ==> !bufs[g.order[j]].Is(dev, blockno)
        decreases i
      {
        assert next[g.order[i]] == At(g.order, i - 1);
        if bufs[b].dev == dev && bufs[b].blockno == blockno {
          return;
        }
        b, i := next[b], i - 1;
      }
      forall c | 0 <= c < NBUF
        ensures !bufs[c].Is(dev, blockno)
      {
        assert c in g.order;
      }
    }

    /** bget's second scan, from the least recently released end: it finds the
        buffer that has been idle longest. */
    method FindIdle() returns (b: nat)
      requires Valid()
      ensures b <= NBUF
      ensures b == HEAD <==> AllBusy(bufs)
      ensures b < NBUF ==> OldestIdle(bufs, g.stamp, b)
    {
      b := prev[HEAD];
      ghost var i := 0;
      while b != HEAD && bufs[b].refcnt > 0
        invariant 0 <= i <= |g.order| && b == At(g.order, i)
        invariant forall j :: 0 <= j < i ==> bufs[g.order[j]].refcnt > 0
        decreases |g.order| - i
      {
        assert prev[g.order[i]] == At(g.order, i + 1);
        b, i := prev[b], i + 1;
      }
      forall c | 0 <= c < NBUF && bufs[c].refcnt == 0
        ensures b < NBUF && g.stamp[b] <= g.stamp[c]
      {
        assert c in g.order;
      }
    }

    /** bget up to the sleep lock: claim the buffer of a block, recycling the
        least recently released idle buffer if the block has none. HEAD is the
        panic "bget: no buffers". */
    method Bget(dev: nat, blockno: nat) returns (b: nat)
      requires Valid()
      modifies `bufs, `g
      ensures Valid()
      ensures b == HEAD <==> !HasBlock(old(bufs), dev, blockno) && AllBusy(old(bufs))
      ensures b == HEAD ==> bufs == old(bufs) && g == old(g)
      ensures b != HEAD ==> b < NBUF && g == old(g).(waiters := old(g).waiters[b := old(g).waiters[b] + 1])
      ensures b != HEAD ==> if HasBlock(old(bufs), dev, blockno) then old(bufs)[b].Is(dev, blockno)
                            else OldestIdle(old(bufs), g.stamp, b)
      ensures b != HEAD && !HasBlock(old(bufs), dev, blockno) ==>
                old(bufs)[b].refcnt == 0
                && forall c :: 0 <= c < NBUF && old(bufs)[c].refcnt == 0 ==> old(g).stamp[b] <= old(g).stamp[c]
      ensures b != HEAD ==> bufs == old(bufs)[b := Fetched(old(bufs)[b], dev, blockno)]
    {
      b := FindCached(dev, blockno);
      if b != HEAD {
        Claim(b);
      } else {
        b := FindIdle();
        if b != HEAD {
          Recycle(b, dev, blockno);
        }
      }
    }

    method Claim(b: nat)
      requires Valid() && b < NBUF
      modifies `bufs, `g
      ensures Valid()
      ensures bufs == old(bufs)[b := Claimed(old(bufs)[b])]
      ensures g == old(g).(waiters := old(g).waiters[b := old(g).waiters[b] + 1])
    {
      ClaimSound(bufs, disk, g, b);
      bufs := bufs[b := Claimed(bufs[b])];
      g := g.(waiters := g.waiters[b := g.waiters[b] + 1]);
    }

    method Recycle(b: nat, dev: nat, blockno: nat)
      requires Valid() && b < NBUF && bufs[b].refcnt == 0 && !HasBlock(bufs, dev, blockno)
      modifies `bufs, `g
      ensures Valid()
      ensures bufs == old(bufs)[b := Buf(dev, blockno, false, 1, false, old(bufs)[b].data)]
      ensures g == old(g).(waiters := old(g).waiters[b := old(g).waiters[b] + 1])
    {
      RecycleSound(bufs, disk, g, b, Buf(dev, blockno, false, 1, false, bufs[b].data));
      bufs := bufs[b := Buf(dev, blockno, false, 1, false, bufs[b].data)];
      g := g.(waiters := g.waiters[b := g.waiters[b] + 1]);
    }

    /** acquiresleep on a claimed buffer; it blocks while another holds the lock. */
    method Lock(b: nat)
      requires Valid() && b < NBUF && g.waiters[b] > 0 && !bufs[b].locked
      modifies `bufs, `g
      ensures Valid()
      ensures bufs == old(bufs)[b := old(bufs)[b].(locked := true)]
      ensures g == old(g).(waiters := old(g).waiters[b := old(g).waiters[b] - 1], touched := old(g).touched[b := false])
    {
      LockSound(bufs, disk, g, b);
      bufs := bufs[b := bufs[b].(locked := true)];
      g := g.(waiters := g.waiters[b := g.waiters[b] - 1], touched := g.touched[b := false]);
    }

    /** The rest of bread: read the block unless the buffer is valid. What the
        caller gets is what was last released, whoever released it. */
    method Fill(b: nat)
      requires Valid() && b < NBUF && bufs[b].locked && !g.touched[b]
      requires bufs[b].dev == ROOTDEV && bufs[b].blockno < |disk|
      modifies `bufs
      ensures Valid() && Held(b)
      ensures bufs == old(bufs)[b := old(bufs)[b].(valid := true, data := g.latest[old(bufs)[b].blockno])]
    {
      if !bufs[b].valid {
        FillSound(bufs, disk, g, b);
        bufs := bufs[b := bufs[b].(valid := true, data := disk[bufs[b].blockno])];
      } else {
        assert Fresh(bufs[b], disk, g.latest, g.pins[b], g.touched[b]);
        assert bufs[b].(valid := true, data := g.latest[bufs[b].blockno]) == bufs[b];
      }
    }

    /** bread on the root device, run without interference: its buffer is not
        locked by another process. */
    method Bread(blockno: nat) returns (b: nat)
      requires Valid() && blockno < |disk|
      requires forall c :: 0 <= c < NBUF && bufs[c].Is(ROOTDEV, blockno) ==> !bufs[c].locked
      modifies `bufs, `g
      ensures Valid()
      ensures b == HEAD <==> !HasBlock(old(bufs), ROOTDEV, blockno) && AllBusy(old(bufs))
      ensures b == HEAD ==> bufs == old(bufs) && g == old(g)
      ensures b != HEAD ==>
                b < NBUF && Held(b)
                && (old(bufs)[b].Is(ROOTDEV, blockno) || old(bufs)[b].refcnt == 0)
                && bufs == old(bufs)[b := Buf(ROOTDEV, blockno, true, old(bufs)[b].refcnt + 1, true, g.latest[blockno])]
                && g == old(g).(touched := old(g).touched[b := false])
    {
      b := Bget(ROOTDEV, blockno);
      if b != HEAD {
        Lock(b);
        Fill(b);
        assert g.waiters == old(g).waiters;
      }
    }

    /** The holder changes the data. */
    method Store(b: nat, x: T)
      requires Valid() && Held(b)
      modifies `bufs, `g
      ensures Valid() && Held(b)
      ensures bufs == old(bufs)[b := old(bufs)[b].(data := x)]
      ensures g == old(g).(touched := old(g).touched[b := true])
    {
      StoreSound(bufs, disk, g, b, x);
      bufs := bufs[b := bufs[b].(data := x)];
      g := g.(touched := g.touched[b := true]);
    }

    method Bwrite(b: nat)
      requires Valid() && Held(b)
      modifies `disk, `trace
      ensures Valid() && bufs[b].blockno < |disk|
      ensures disk == old(disk)[bufs[b].blockno := bufs[b].data]
      ensures trace == old(trace) + [(bufs[b].blockno, bufs[b].data)]
    {
      WriteSound(bufs, disk, g, b);
      RecordWrite(boot, trace, disk, bufs[b].blockno, bufs[b].data);
      disk := disk[bufs[b].blockno := bufs[b].data];
      trace := trace + [(bufs[b].blockno, bufs[b].data)];
    }

    method Bpin(b: nat)
      requires Valid() && b < NBUF
      modifies `bufs, `g
      ensures Valid()
      ensures bufs == old(bufs)[b := Claimed(old(bufs)[b])]
      ensures g == old(g).(pins := old(g).pins[b := old(g).pins[b] + 1])
    {
      PinSound(bufs, disk, g, b);
      bufs := bufs[b := Claimed(bufs[b])];
      g := g.(pins := g.pins[b := g.pins[b] + 1]);
    }

    /** Only a holder unpins, as install_trans does: the buffer does not become idle here. */
    method Bunpin(b: nat)
      requires Valid() && Held(b) && g.pins[b] > 0
      modifies `bufs, `g
      ensures Valid()
      ensures old(bufs)[b].refcnt > 1 && bufs == old(bufs)[b := old(bufs)[b].(refcnt := old(bufs)[b].refcnt - 1)]
      ensures g == old(g).(pins := old(g).pins[b := old(g).pins[b] - 1])
    {
      UnpinSound(bufs, disk, g, b);
      bufs := bufs[b := bufs[b].(refcnt := bufs[b].refcnt - 1)];
      g := g.(pins := g.pins[b := g.pins[b] - 1]);
    }

    /** brelse, run without interference. The holder's data become the latest
        contents; an idle buffer, found at place k of the circle, moves to the
        front. */
    method Brelse(b: nat) returns (ghost k: nat)
      requires Valid() && Held(b) && bufs[b].blockno < |disk|
      requires bufs[b].data == disk[bufs[b].blockno] || g.pins[b] > 0
      modifies `bufs, `next, `prev, `g
      ensures Valid()
      ensures old(bufs)[b].refcnt > 0 && bufs == old(bufs)[b := Dropped(Unlocked(old(bufs)[b]))]
      ensures g == old(g).(latest := g.latest, order := g.order, stamp := g.stamp, clock := g.clock)
      ensures g.latest == old(g).latest[old(bufs)[b].blockno := old(bufs)[b].data]
      ensures k < |old(g).order| && old(g).order[k] == b
      ensures bufs[b].refcnt > 0 ==> g.order == old(g).order && g.stamp == old(g).stamp
      ensures bufs[b].refcnt == 0 ==>
                g.order == Without(old(g).order, k) + [b]
                && g.stamp == old(g).stamp[b := old(g).clock] && g.clock == old(g).clock + 1
    {
      Unlock(b);
      k := PutBack(b);
      UnlockThenDrop(old(bufs), old(g), b, k);
    }

    /** brelse's releasesleep, by a holder that has written or pinned what it
        changed. */
    method Unlock(b: nat)
      requires Valid() && Held(b) && bufs[b].blockno < |disk|
      requires bufs[b].data == disk[bufs[b].blockno] || g.pins[b] > 0
      modifies `bufs, `g
      ensures Valid() && bufs == old(bufs)[b := Unlocked(old(bufs)[b])]
      ensures old(bufs)[b].blockno < |old(g).latest| && b < |old(g).leaving| && g == UnlockedBook(old(bufs), old(g), b)
    {
      UnlockSound(bufs, disk, g, b);
      g := UnlockedBook(bufs, g, b);
      bufs := bufs[b := Unlocked(bufs[b])];
    }

    /** The rest of brelse, under bcache.lock; others may have locked b meanwhile. */
    method PutBack(b: nat) returns (ghost k: nat)
      requires Valid() && b < NBUF && g.leaving[b] > 0
      modifies `bufs, `next, `prev, `g
      ensures Valid()
      ensures old(bufs)[b].refcnt > 0 && bufs == old(bufs)[b := Dropped(old(bufs)[b])]
      ensures k < |old(g).order| && old(g).order[k] == b && b < |old(g).stamp|
      ensures g == DroppedBook(old(bufs), old(g), b, k)
    {
      k := DropReference(b);
      if bufs[b].refcnt == 0 {
        MoveToFront(b, old(g).order, k);
      }
    }

    method DropReference(b: nat) returns (ghost k: nat)
      requires Sound(bufs, disk, g) && b < NBUF && g.leaving[b] > 0
      modifies `bufs, `g
      ensures old(bufs)[b].refcnt > 0 && bufs == old(bufs)[b := Dropped(old(bufs)[b])]
      ensures k < |old(g).order| && old(g).order[k] == b
      ensures g == DroppedBook(old(bufs), old(g), b, k) && Sound(bufs, disk, g)
    {
      assert b in g.order;
      k :| 0 <= k < |g.order| && g.order[k] == b;
      DropSound(bufs, disk, g, b, k);
      g := DroppedBook(bufs, g, b, k);
      bufs := bufs[b := Dropped(bufs[b])];
    }

    /** brelse's rewiring: unlink b, then link it behind the sentinel. */
    method MoveToFront(b: nat, ghost o: seq<nat>, ghost k: nat)
      requires Linked(next, prev, o) && k < |o| && o[k] == b
      modifies `next, `prev
      ensures Linked(next, prev, Without(o, k) + [b])
    {
      Unlink(next, prev, o, k);
      var before, after := prev[b], next[b];
      prev := prev[after := before];
      next := next[before := after];
      LinkFirst(next, prev, Without(o, k), b);
      next := next[b := next[HEAD]];
      prev := prev[b := HEAD];
      prev := prev[next[HEAD] := b];
      next := next[HEAD := b];
    }
  }
}
