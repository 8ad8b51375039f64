/** kernel/log.c run over the buffer cache: log_write, commit and recovery as
    loops over bread, bwrite, bpin, bunpin and brelse. Every disk write lands in
    the cache's trace, and the trace of a commit or a recovery is the list of
    writes that RedoLog reasons about. */
module LogLayer {
  import opened Basics
  import opened BufferCache
  import R = RedoLog
  import L = LogSpace

  /** How the log header is laid out in a block: `get` reads the list of home
      blocks, `put` stores one over the old contents of the header block. */
  datatype Codec<!T> = Codec(get: T -> seq<nat>, put: (T, seq<nat>) -> T)

  ghost predicate Lawful<T(!new)>(k: Codec<T>) {
    forall b: T, lh: seq<nat> :: Words(lh) ==> k.get(k.put(b, lh)) == lh
  }

  /** A list that fits the header: at most LOGSIZE 32-bit block numbers. */
  ghost predicate Words(lh: seq<nat>) {
    |lh| <= R.LOGSIZE && forall i :: 0 <= i < |lh| ==> lh[i] < 0x1_0000_0000
  }

  // ----- from disk blocks to RedoLog's disks and writes -----

  /** The disk as RedoLog sees it: the header decoded and taken out. */
  ghost function Abs<T>(k: Codec<T>, a: R.Area, d: seq<T>, hole: T): R.Disk<T>
    requires a.Fits(|d|)
  {
    R.Disk(k.get(d[a.start]), d[a.start := hole])
  }

  ghost function Entry<T>(k: Codec<T>, a: R.Area, w: (nat, T)): R.Write<T> {
    if w.0 == a.start then R.Head(k.get(w.1)) else R.Put(w.0, w.1)
  }

  ghost function Entries<T>(k: Codec<T>, a: R.Area, ws: seq<(nat, T)>): (es: seq<R.Write<T>>)
    ensures |es| == |ws|
  {
    seq(|ws|, i requires 0 <= i < |ws| => Entry(k, a, ws[i]))
  }

  lemma EntriesConcat<T>(k: Codec<T>, a: R.Area, us: seq<(nat, T)>, ws: seq<(nat, T)>)
    ensures Entries(k, a, us + ws) == Entries(k, a, us) + Entries(k, a, ws)
  {
  }

  // ----- the cache while the log uses it -----

  /** Exactly the blocks of s are pinned, once each. */
  ghost predicate Pinned<T>(bufs: seq<Buf<T>>, pins: seq<nat>, s: seq<nat>) {
    && |bufs| == |pins| == NBUF
    && (forall b {:trigger PinIn(bufs, pins, s, b)} :: 0 <= b < NBUF ==> PinIn(bufs, pins, s, b))
    && (forall i {:trigger HasPin(bufs, pins, s[i])} :: 0 <= i < |s| ==> HasPin(bufs, pins, s[i]))
  }

  ghost predicate PinIn<T>(bufs: seq<Buf<T>>, pins: seq<nat>, s: seq<nat>, b: nat)
    requires b < |bufs| == |pins|
  {
    pins[b] > 0 ==> pins[b] == 1 && bufs[b].valid && bufs[b].blockno in s
  }

  ghost predicate HasPin<T>(bufs: seq<Buf<T>>, pins: seq<nat>, x: nat) {
    exists b :: 0 <= b < |bufs| == |pins| && pins[b] > 0 && bufs[b].valid && bufs[b].blockno == x
  }

  /** Pins stay where they are when pinned buffers keep their blocks. */
  lemma PinsKept<T>(bufs: seq<Buf<T>>, bufs1: seq<Buf<T>>, pins: seq<nat>, s: seq<nat>)
    requires Pinned(bufs, pins, s) && |bufs1| == NBUF
    requires forall b :: 0 <= b < NBUF && pins[b] > 0 && bufs[b].valid ==> bufs1[b].valid
                                                                           && bufs1[b].blockno == bufs[b].blockno
    ensures Pinned(bufs1, pins, s)
  {
    forall b | 0 <= b < NBUF
      ensures PinIn(bufs1, pins, s, b)
    {
      assert PinIn(bufs, pins, s, b);
    }
    forall i | 0 <= i < |s|
      ensures HasPin(bufs1, pins, s[i])
    {
      assert HasPin(bufs, pins, s[i]);
      var b :| 0 <= b < NBUF && pins[b] > 0 && bufs[b].valid && bufs[b].blockno == s[i];
      assert bufs1[b].valid && bufs1[b].blockno == s[i];
    }
  }

  /** The cache while this process holds the buffers of `held`, and no other
      buffer is locked, with the blocks of s pinned. */
  ghost predicate Using<T>(c: Cache<T>, held: set<nat>, s: seq<nat>)
    reads c
  {
    && c.Valid() && Pinned(c.bufs, c.g.pins, s)
    && (forall b :: 0 <= b < NBUF ==> (c.bufs[b].locked <==> b in held))
    && (forall b :: b in held ==> b < NBUF && c.bufs[b].valid)
  }

  /** No buffer is held, s is pinned. The definition stays folded (the quantifier
      has no other trigger) except where a proof mentions Unfold, so that the loops
      below carry it as a token. */
  ghost predicate Steady<T>(c: Cache<T>, s: seq<nat>)
    reads c
  {
    |c.disk| == |c.g.latest| && forall k {:trigger Unfold(k)} :: k >= 0 ==> Using(c, {}, s)
  }

  /** The cache's invariant, folded in the same way. */
  ghost predicate Alive<T>(c: Cache<T>)
    reads c
  {
    forall k {:trigger Unfold(k)} :: k >= 0 ==> c.Valid()
  }

  lemma SteadyAlive<T>(c: Cache<T>, s: seq<nat>)
    requires Steady(c, s)
    ensures Alive(c)
  {
    assert Unfold(0);
  }

  // ----- when bread finds a buffer -----

  /** No other process has a reference to a buffer. */
  ghost predicate Quiet<T>(g: Book<T>) {
    |g.waiters| == |g.leaving| == NBUF && forall b :: 0 <= b < NBUF ==> g.waiters[b] == 0 && g.leaving[b] == 0
  }

  ghost predicate Nodup(lh: seq<nat>) {
    forall i, j :: 0 <= i < j < |lh| ==> lh[i] != lh[j]
  }

  /** Distinct numbers below n are at most n, and if they are n they are all. */
  lemma {:induction false} Pigeons(f: seq<nat>, n: nat)
    requires Nodup(f) && forall i :: 0 <= i < |f| ==> f[i] < n
    ensures |f| <= n && (|f| == n ==> forall x :: 0 <= x < n ==> x in f)
  {
    assert f != [] ==> f[0] < n;
    if n > 0 {
      if n - 1 in f {
        var j :| 0 <= j < |f| && f[j] == n - 1;
        var rest := f[..j] + f[j + 1..];
        Pigeons(rest, n - 1);
        assert forall x :: x in rest ==> x in f;
      } else {
        Pigeons(f, n - 1);
      }
    }
  }

  ghost function PinOn<T>(bufs: seq<Buf<T>>, pins: seq<nat>, x: nat): (b: nat)
    requires HasPin(bufs, pins, x)
    ensures b < |bufs| == |pins| && pins[b] > 0 && bufs[b].valid && bufs[b].blockno == x
  {
    var b :| 0 <= b < |bufs| == |pins| && pins[b] > 0 && bufs[b].valid && bufs[b].blockno == x;
    b
  }

  ghost function IndexIn(s: seq<nat>, x: nat): (i: nat)
    requires x in s
    ensures i < |s| && s[i] == x
  {
    var i :| 0 <= i < |s| && s[i] == x;
    i
  }

  /** There are at most NBUF pinned blocks, and NBUF only if every buffer is pinned. */
  lemma PinsFit<T>(bufs: seq<Buf<T>>, pins: seq<nat>, s: seq<nat>)
    requires Pinned(bufs, pins, s) && Nodup(s)
    ensures |s| <= NBUF && (|s| == NBUF ==> forall b :: 0 <= b < NBUF ==> pins[b] > 0)
  {
    assert forall i :: 0 <= i < |s| ==> HasPin(bufs, pins, s[i]);
    var f := seq<nat>(|s|, i requires 0 <= i < |s| => PinOn(bufs, pins, s[i]));
    Pigeons(f, NBUF);
    forall b | 0 <= b < NBUF && b in f
      ensures pins[b] > 0
    {
      var i :| 0 <= i < |f| && f[i] == b;
    }
  }

  /** If every buffer is pinned there are NBUF pinned blocks. */
  lemma PinsFill<T>(bufs: seq<Buf<T>>, pins: seq<nat>, s: seq<nat>)
    requires |bufs| == |pins| == NBUF && forall b :: 0 <= b < NBUF ==> bufs[b].blockno in s
    requires forall b, c :: 0 <= b < c < NBUF ==> bufs[b].blockno != bufs[c].blockno
    ensures NBUF <= |s|
  {
    var f := seq<nat>(NBUF, b requires 0 <= b < NBUF => IndexIn(s, bufs[b].blockno));
    Pigeons(f, |s|);
  }

  lemma PinnedBuf<T>(c: Cache<T>, s: seq<nat>, b: nat)
    requires Using(c, {}, s) && Quiet(c.g) && b < NBUF
    ensures c.bufs[b].refcnt == c.g.pins[b]
    ensures c.g.pins[b] > 0 ==> c.bufs[b].valid && c.bufs[b].dev == ROOTDEV && c.bufs[b].blockno in s
  {
    assert Fresh(c.bufs[b], c.disk, c.g.latest, c.g.pins[b], c.g.touched[b]);
    assert PinIn(c.bufs, c.g.pins, s, b);
  }

  /** With nobody else about, all buffers are busy exactly when the pinned blocks
      fill the cache, and then no other block has a buffer. */
  lemma RoomLeft<T>(c: Cache<T>, s: seq<nat>)
    requires Using(c, {}, s) && Quiet(c.g) && Nodup(s)
    ensures |s| <= NBUF && (AllBusy(c.bufs) <==> |s| == NBUF)
    ensures AllBusy(c.bufs) ==> forall y :: y !in s ==> !HasBlock(c.bufs, ROOTDEV, y)
  {
    forall b | 0 <= b < NBUF
      ensures c.bufs[b].refcnt == c.g.pins[b]
      ensures c.g.pins[b] > 0 ==> c.bufs[b].valid && c.bufs[b].dev == ROOTDEV && c.bufs[b].blockno in s
    {
      PinnedBuf(c, s, b);
    }
    PinsFit(c.bufs, c.g.pins, s);
    if AllBusy(c.bufs) {
      AllPinned(c, s);
    }
  }

  /** With nothing pinned all buffers are idle. */
  lemma AllIdle<T>(c: Cache<T>)
    requires Using(c, {}, []) && Quiet(c.g)
    ensures TwoIdle(c.bufs) && !AllBusy(c.bufs)
  {
    PinnedBuf(c, [], 0);
    PinnedBuf(c, [], 1);
  }

  lemma IdleFinds<T>(c: Cache<T>, z: nat)
    requires Steady(c, []) && Quiet(c.g)
    ensures Finds(c.bufs, z)
  {
    assert Unfold(0);
    AllIdle(c);
  }

  lemma AllPinned<T>(c: Cache<T>, s: seq<nat>)
    requires c.Valid() && AllBusy(c.bufs)
    requires forall b :: 0 <= b < NBUF ==> c.bufs[b].dev == ROOTDEV && c.bufs[b].blockno in s
    ensures NBUF <= |s|
  {
    forall b, d | 0 <= b < d < NBUF
      ensures c.bufs[b].blockno != c.bufs[d].blockno
    {
      assert !c.bufs[d].Is(c.bufs[b].dev, c.bufs[b].blockno);
    }
    PinsFill(c.bufs, c.g.pins, s);
  }

  /** bread of block z finds a buffer: its own, or an idle one. */
  ghost predicate Finds<T>(bufs: seq<Buf<T>>, z: nat) {
    HasBlock(bufs, ROOTDEV, z) || !AllBusy(bufs)
  }

  ghost predicate FindsTo<T>(bufs: seq<Buf<T>>, from: nat, to: nat) {
    forall z :: from <= z < to ==> Finds(bufs, z)
  }

  /** References have been added, and no buffer in use has changed its block. */
  ghost predicate Grows<T>(bufs: seq<Buf<T>>, bufs1: seq<Buf<T>>) {
    |bufs1| == |bufs| && forall b :: 0 <= b < |bufs| ==>
      bufs1[b].refcnt >= bufs[b].refcnt
      && (bufs[b].refcnt > 0 ==> bufs1[b].dev == bufs[b].dev && bufs1[b].blockno == bufs[b].blockno)
  }

  ghost predicate SameBlocks<T>(bufs: seq<Buf<T>>, bufs1: seq<Buf<T>>) {
    |bufs1| == |bufs| && forall b :: 0 <= b < |bufs| ==>
      bufs1[b].dev == bufs[b].dev && bufs1[b].blockno == bufs[b].blockno
  }

  /** Whatever bread found a buffer for, it still does ... */
  ghost predicate KeepsFinds<T>(bufs: seq<Buf<T>>, bufs1: seq<Buf<T>>) {
    forall z {:trigger Finds(bufs1, z)} :: Finds(bufs, z) ==> Finds(bufs1, z)
  }

  /** ... and for nothing else. */
  ghost predicate SameFinds<T>(bufs: seq<Buf<T>>, bufs1: seq<Buf<T>>) {
    forall z {:trigger Finds(bufs1, z)} :: Finds(bufs, z) <==> Finds(bufs1, z)
  }

  /** A round that opens buffers and closes them again. */
  lemma RoundFinds<T>(bufs: seq<Buf<T>>, g: Book<T>, bufs1: seq<Buf<T>>, bufs2: seq<Buf<T>>, g2: Book<T>)
    requires Counted(bufs, g) && Counted(bufs2, g2) && SameOthers(g2, g)
    requires forall b :: 0 <= b < NBUF ==> !bufs[b].locked && !bufs2[b].locked && g2.pins[b] <= g.pins[b]
    requires Grows(bufs, bufs1) && SameBlocks(bufs1, bufs2)
    ensures KeepsFinds(bufs, bufs2)
    ensures g2.pins == g.pins ==> SameFinds(bufs, bufs2)
  {
    forall z | Finds(bufs, z)
      ensures Finds(bufs2, z)
    {
      if AllBusy(bufs) {
        var b :| 0 <= b < |bufs| && bufs[b].Is(ROOTDEV, z);
        assert bufs2[b].Is(ROOTDEV, z);
      } else {
        var b :| 0 <= b < |bufs| && bufs[b].refcnt == 0;
        assert bufs2[b].refcnt == 0;
      }
    }
    if g2.pins == g.pins {
      forall z | Finds(bufs2, z)
        ensures Finds(bufs, z)
      {
        if AllBusy(bufs) {
          assert AllBusy(bufs2);
          var b :| 0 <= b < |bufs2| && bufs2[b].Is(ROOTDEV, z);
          assert bufs[b].Is(ROOTDEV, z);
        }
      }
    }
  }

  /** The references of other processes are the same. */
  ghost predicate SameOthers<T>(g: Book<T>, g0: Book<T>) {
    g.waiters == g0.waiters && g.leaving == g0.leaving
  }

  /** bread, of a block that is not in use. */
  method Open<T>(c: Cache<T>, x: nat, ghost held: set<nat>, ghost s: seq<nat>) returns (p: nat)
    requires Using(c, held, s) && x < |c.disk| && forall b :: b in held ==> c.bufs[b].blockno != x
    modifies c`bufs, c`g
    ensures c.Valid()
    ensures p == HEAD <==> !HasBlock(old(c.bufs), ROOTDEV, x) && AllBusy(old(c.bufs))
    ensures p != HEAD ==> p !in held && Using(c, held + {p}, s)
                          && c.bufs[p].Is(ROOTDEV, x) && c.bufs[p].data == c.g.latest[x]
                          && c.bufs == old(c.bufs)[p := c.bufs[p]] && Grows(old(c.bufs), c.bufs)
    ensures forall b :: b in held ==> c.bufs[b] == old(c.bufs)[b]
    ensures c.g.latest == old(c.g.latest) && c.g.pins == old(c.g.pins) && SameOthers(c.g, old(c.g))
  {
    p := c.Bread(x);
    if p != HEAD {
      PinsKept(old(c.bufs), c.bufs, c.g.pins, s);
    }
  }

  /** brelse, of a buffer whose data are on the disk or pinned. */
  method Close<T>(c: Cache<T>, p: nat, ghost held: set<nat>, ghost s: seq<nat>)
    requires Using(c, held, s) && p in held && c.bufs[p].blockno < |c.disk|
    requires c.bufs[p].data == c.disk[c.bufs[p].blockno] || c.g.pins[p] > 0
    modifies c`bufs, c`next, c`prev, c`g
    ensures Using(c, held - {p}, s)
    ensures forall b :: b in held - {p} ==> c.bufs[b] == old(c.bufs)[b]
    ensures SameBlocks(old(c.bufs), c.bufs)
    ensures c.g.latest == old(c.g.latest)[old(c.bufs)[p].blockno := old(c.bufs)[p].data]
    ensures c.g.pins == old(c.g.pins) && SameOthers(c.g, old(c.g))
  {
    ghost var k := c.Brelse(p);
    PinsKept(old(c.bufs), c.bufs, c.g.pins, s);
  }

  /** The holder changes a buffer and writes it. */
  method StoreAndWrite<T>(c: Cache<T>, p: nat, x: T, ghost held: set<nat>, ghost s: seq<nat>)
    requires Using(c, held, s) && p in held && p < NBUF
    modifies c`bufs, c`g, c`disk, c`trace
    ensures Using(c, held, s) && c.bufs == old(c.bufs)[p := old(c.bufs)[p].(data := x)]
    ensures c.bufs[p].blockno < |old(c.disk)| && c.disk == old(c.disk)[c.bufs[p].blockno := x]
    ensures c.trace == old(c.trace) + [(c.bufs[p].blockno, x)]
    ensures c.g.latest == old(c.g.latest) && c.g.pins == old(c.g.pins) && SameOthers(c.g, old(c.g))
  {
    c.Store(p, x);
    PinsKept(old(c.bufs), c.bufs, c.g.pins, s);
    c.Bwrite(p);
  }

  /** A block that is not pinned is up to date on the disk. */
  lemma UnpinnedClean<T>(c: Cache<T>, s: seq<nat>, x: nat)
    requires Using(c, {}, s) && x < |c.disk| && x !in s
    ensures c.disk[x] == c.g.latest[x]
  {
    if Cached(c.bufs, x) {
      var b :| 0 <= b < NBUF && c.bufs[b].valid && c.bufs[b].blockno == x;
      assert Fresh(c.bufs[b], c.disk, c.g.latest, c.g.pins[b], c.g.touched[b]);
      assert PinIn(c.bufs, c.g.pins, s, b);
    }
  }

  lemma PinOf<T>(c: Cache<T>, p: nat, x: nat, s: seq<nat>, i: nat)
    requires c.Valid() && p < NBUF && c.bufs[p].Is(ROOTDEV, x) && Pinned(c.bufs, c.g.pins, s) && i < |s| && s[i] == x
    ensures c.g.pins[p] == 1
  {
    assert HasPin(c.bufs, c.g.pins, s[i]);
    var b :| 0 <= b < NBUF && c.g.pins[b] > 0 && c.bufs[b].valid && c.bufs[b].blockno == x;
    assert Fresh(c.bufs[b], c.disk, c.g.latest, c.g.pins[b], c.g.touched[b]);
    assert c.bufs[p].Is(c.bufs[b].dev, c.bufs[b].blockno);
    assert PinIn(c.bufs, c.g.pins, s, p);
  }

  lemma SameUpdate<T>(v: seq<T>, x: nat)
    requires x < |v|
    ensures v[x := v[x]] == v
  {
  }

  ghost predicate TwoIdle<T>(bufs: seq<Buf<T>>) {
    exists b, d :: 0 <= b < d < |bufs| && bufs[b].refcnt == 0 && bufs[d].refcnt == 0
  }

  lemma PinHasBlock<T>(c: Cache<T>, held: set<nat>, s: seq<nat>, y: nat)
    requires Using(c, held, s) && y in s
    ensures HasBlock(c.bufs, ROOTDEV, y)
  {
    var i :| 0 <= i < |s| && s[i] == y;
    assert HasPin(c.bufs, c.g.pins, s[i]);
    var b := PinOn(c.bufs, c.g.pins, y);
    assert Fresh(c.bufs[b], c.disk, c.g.latest, c.g.pins[b], c.g.touched[b]);
  }

  /** Open another block while p is held. */
  method OpenSecond<T>(c: Cache<T>, p: nat, y: nat, ghost s: seq<nat>, ghost bufs0: seq<Buf<T>>) returns (q: nat)
    requires Using(c, {p}, s) && p < NBUF && y < |c.disk| && c.bufs[p].blockno != y && Grows(bufs0, c.bufs)
    requires c.bufs == bufs0[p := c.bufs[p]]
    modifies c`bufs, c`g
    ensures c.Valid()
    ensures q != HEAD ==> p != q && Using(c, {p, q}, s) && c.bufs[p] == old(c.bufs)[p]
                          && c.bufs[q].Is(ROOTDEV, y) && c.bufs[q].data == c.g.latest[y] && Grows(bufs0, c.bufs)
    ensures c.g.latest == old(c.g.latest) && SameOthers(c.g, old(c.g)) && c.g.pins == old(c.g.pins)
    ensures y in s || TwoIdle(bufs0) ==> q != HEAD
  {
    if y in s { PinHasBlock(c, {p}, s, y); }
    q := Open(c, y, {p}, s);
    if q != HEAD {
      assert {p} + {q} == {p, q};
      GrowsJoin(bufs0, old(c.bufs), c.bufs);
    }
  }

  lemma GrowsJoin<T>(a: seq<Buf<T>>, b: seq<Buf<T>>, c: seq<Buf<T>>)
    requires Grows(a, b) && Grows(b, c)
    ensures Grows(a, c)
  {
  }

  /** Open two different blocks; HEAD for the first when either bread panics. */
  method OpenPair<T>(c: Cache<T>, x: nat, y: nat, ghost s: seq<nat>) returns (p: nat, q: nat)
    requires Using(c, {}, s) && x != y && x < |c.disk| && y < |c.disk|
    modifies c`bufs, c`g
    ensures c.Valid()
    ensures p != HEAD ==> p != q && Using(c, {p, q}, s)
                          && c.bufs[p].Is(ROOTDEV, x) && c.bufs[q].Is(ROOTDEV, y)
                          && c.bufs[p].data == c.g.latest[x] && c.bufs[q].data == c.g.latest[y]
                          && Grows(old(c.bufs), c.bufs)
    ensures c.g.latest == old(c.g.latest) && SameOthers(c.g, old(c.g)) && c.g.pins == old(c.g.pins)
    ensures y in s ==> (p == HEAD <==> !HasBlock(old(c.bufs), ROOTDEV, x) && AllBusy(old(c.bufs)))
    ensures TwoIdle(old(c.bufs)) ==> p != HEAD
  {
    p := Open(c, x, {}, s);
    q := HEAD;
    if p != HEAD {
      q := OpenSecond(c, p, y, s, old(c.bufs));
      if q == HEAD { p := HEAD; }
    }
  }

  method ClosePair<T>(c: Cache<T>, p: nat, q: nat, ghost s: seq<nat>)
    requires Using(c, {p, q}, s) && p < NBUF && q < NBUF && p != q
    requires c.bufs[p].blockno < |c.disk| && (c.bufs[p].data == c.disk[c.bufs[p].blockno] || c.g.pins[p] > 0)
    requires c.bufs[q].blockno < |c.disk| && (c.bufs[q].data == c.disk[c.bufs[q].blockno] || c.g.pins[q] > 0)
    modifies c`bufs, c`next, c`prev, c`g
    ensures Using(c, {}, s)
    ensures c.g.latest == old(c.g.latest)[old(c.bufs)[p].blockno := old(c.bufs)[p].data]
                                         [old(c.bufs)[q].blockno := old(c.bufs)[q].data]
    ensures SameOthers(c.g, old(c.g)) && c.g.pins == old(c.g.pins) && SameBlocks(old(c.bufs), c.bufs)
  {
    assert q in {p, q} - {p} && {p, q} - {p} - {q} == {};
    Close(c, p, {p, q}, s);
    Close(c, q, {p, q} - {p}, s);
  }

  /** One round of write_log: copy cached block x to log block y. A panic in
      bread (ok is false) comes before the write. */
  method WriteLogBlock<T>(c: Cache<T>, x: nat, y: nat, ghost s: seq<nat>, ghost i: nat) returns (ok: bool)
    requires Steady(c, s) && i < |s| && s[i] == x != y && x < |c.disk| && y < |c.disk|
    modifies c
    ensures Alive(c) && c.boot == old(c.boot) && SameOthers(c.g, old(c.g))
    ensures ok <==> Finds(old(c.bufs), y)
    ensures !ok ==> c.trace == old(c.trace)
    ensures ok ==> Steady(c, s) && c.trace == old(c.trace) + [(y, old(c.g.latest)[x])]
                   && c.g.latest == old(c.g.latest)[y := old(c.g.latest)[x]] && SameFinds(old(c.bufs), c.bufs)
  {
    assert Unfold(0);
    ghost var v := c.g.latest;
    SameUpdate(v, x);
    var to, from := OpenPair(c, y, x, s);
    if to == HEAD {
      return false;
    }
    ghost var bufs1 := c.bufs;
    PinOf(c, from, x, s, i);
    assert {to, from} == {from, to};
    StoreAndWrite(c, to, c.bufs[from].data, {from, to}, s);
    ClosePair(c, from, to, s);
    RoundFinds(old(c.bufs), old(c.g), bufs1, c.bufs, c.g);
    assert c.g.latest == v[x := v[x]][y := v[x]];
    return true;
  }

  /** install_trans's two calls of bread: they find buffers in a commit if one is
      not pinned, and always in a recovery. */
  method OpenToInstall<T>(c: Cache<T>, y: nat, x: nat, unpin: bool, ghost s: seq<nat>) returns (p: nat, q: nat)
    requires x != y && x < |c.disk| && y < |c.disk| && x !in s && y !in s
    requires Using(c, {}, if unpin then [x] + s else s)
    modifies c`bufs, c`g
    ensures c.Valid()
    ensures p != HEAD ==> p != q && Using(c, {p, q}, if unpin then [x] + s else s)
                          && c.bufs[p].Is(ROOTDEV, y) && c.bufs[q].Is(ROOTDEV, x)
                          && c.bufs[p].data == c.g.latest[y] && c.bufs[q].data == c.g.latest[x]
                          && Grows(old(c.bufs), c.bufs)
    ensures c.g.latest == old(c.g.latest) && SameOthers(c.g, old(c.g)) && c.g.pins == old(c.g.pins)
    ensures unpin ==> (p != HEAD <==> Finds(old(c.bufs), y))
    ensures old(Quiet(c.g)) && !unpin && s == [] ==> p != HEAD
  {
    ghost var pinned := if unpin then [x] + s else s;
    if Quiet(c.g) && !unpin && s == [] { AllIdle(c); }
    p, q := OpenPair(c, y, x, pinned);
  }

  /** One round of install_trans: copy log block y to its home x, and unpin the
      home block unless recovering. */
  method InstallBlock<T>(c: Cache<T>, y: nat, x: nat, unpin: bool, ghost s: seq<nat>) returns (ok: bool)
    requires x != y && x < |c.disk| && y < |c.disk| && x !in s && y !in s
    requires Steady(c, if unpin then [x] + s else s)
    modifies c
    ensures Alive(c) && c.boot == old(c.boot) && SameOthers(c.g, old(c.g))
    ensures unpin ==> (ok <==> Finds(old(c.bufs), y))
    ensures old(Quiet(c.g)) && !unpin && s == [] ==> ok
    ensures !ok ==> c.trace == old(c.trace)
    ensures ok ==> Steady(c, s) && c.trace == old(c.trace) + [(x, old(c.g.latest)[y])]
                   && c.g.latest == old(c.g.latest)[x := old(c.g.latest)[y]] && KeepsFinds(old(c.bufs), c.bufs)
  {
    assert Unfold(0);
    ghost var pinned := if unpin then [x] + s else s;
    UnpinnedClean(c, pinned, y);
    SameUpdate(c.g.latest, y);
    var lbuf, dbuf := OpenToInstall(c, y, x, unpin, s);
    ok := lbuf != HEAD;
    if ok {
      ghost var bufs1 := c.bufs;
      InstallHeld(c, lbuf, dbuf, x, unpin, s);
      ClosePair(c, lbuf, dbuf, s);
      RoundFinds(old(c.bufs), old(c.g), bufs1, c.bufs, c.g);
    }
  }

  /** The copy, with both buffers held. */
  method InstallHeld<T>(c: Cache<T>, p: nat, q: nat, x: nat, unpin: bool, ghost s: seq<nat>)
    requires p < NBUF && q < NBUF && p != q && Using(c, {p, q}, if unpin then [x] + s else s)
    requires c.bufs[q].Is(ROOTDEV, x) && x !in s && c.bufs[p].blockno != x
    modifies c`bufs, c`g, c`disk, c`trace
    ensures Using(c, {p, q}, s) && SameBlocks(old(c.bufs), c.bufs) && x < |old(c.disk)|
    ensures c.bufs[p].data == c.bufs[q].data == old(c.bufs)[p].data && c.disk == old(c.disk)[x := old(c.bufs)[p].data]
    ensures c.trace == old(c.trace) + [(x, old(c.bufs)[p].data)]
    ensures c.g.latest == old(c.g.latest) && SameOthers(c.g, old(c.g))
    ensures |c.g.pins| == |old(c.g.pins)| && forall b :: 0 <= b < |c.g.pins| ==> c.g.pins[b] <= old(c.g.pins)[b]
    ensures !unpin ==> c.g.pins == old(c.g.pins)
  {
    StoreAndWrite(c, q, c.bufs[p].data, {p, q}, if unpin then [x] + s else s);
    if unpin {
      Unpin(c, q, x, {p, q}, s);
    }
  }

  method Unpin<T>(c: Cache<T>, p: nat, x: nat, ghost held: set<nat>, ghost s: seq<nat>)
    requires Using(c, held, [x] + s) && p in held && p < NBUF && c.bufs[p].Is(ROOTDEV, x) && x !in s
    modifies c`bufs, c`g
    ensures Using(c, held, s)
    ensures forall b :: b in held ==> c.bufs[b].blockno == old(c.bufs)[b].blockno
                                      && c.bufs[b].data == old(c.bufs)[b].data
    ensures c.g.latest == old(c.g.latest) && SameOthers(c.g, old(c.g)) && SameBlocks(old(c.bufs), c.bufs)
    ensures |c.g.pins| == |old(c.g.pins)| && forall b :: 0 <= b < |c.g.pins| ==> c.g.pins[b] <= old(c.g.pins)[b]
  {
    PinOf(c, p, x, [x] + s, 0);
    forall b | 0 <= b < NBUF && b != p && c.g.pins[b] > 0
      ensures c.bufs[b].blockno != x
    {
      assert Fresh(c.bufs[b], c.disk, c.g.latest, c.g.pins[b], c.g.touched[b]);
      assert PinIn(c.bufs, c.g.pins, [x] + s, b);
      assert !c.bufs[b].Is(c.bufs[p].dev, c.bufs[p].blockno);
    }
    c.Bunpin(p);
    DropPin(old(c.bufs), old(c.g.pins), c.bufs, p, x, s);
  }

  lemma DropPin<T>(bufs: seq<Buf<T>>, pins: seq<nat>, bufs1: seq<Buf<T>>, p: nat, x: nat, s: seq<nat>)
    requires Pinned(bufs, pins, [x] + s) && p < NBUF && bufs[p].blockno == x && pins[p] == 1 && x !in s
    requires |bufs1| == NBUF && bufs1 == bufs[p := bufs1[p]]
    requires forall b :: 0 <= b < NBUF && b != p && pins[b] > 0 ==> bufs[b].blockno != x
    ensures Pinned(bufs1, pins[p := 0], s)
  {
    var pins1 := pins[p := 0];
    forall i | 0 <= i < |s|
      ensures HasPin(bufs1, pins1, s[i])
    {
      assert HasPin(bufs, pins, ([x] + s)[i + 1]);
      var b :| 0 <= b < NBUF && pins[b] > 0 && bufs[b].valid && bufs[b].blockno == s[i];
      assert bufs1[b].valid && bufs1[b].blockno == s[i];
    }
    forall b | 0 <= b < NBUF
      ensures PinIn(bufs1, pins1, s, b)
    {
      assert PinIn(bufs, pins, [x] + s, b);
    }
  }

  // ----- what the loops write -----

  /** The first n writes of write_log when the cache shows v. */
  ghost function Logged<T>(a: R.Area, v: seq<T>, lh: seq<nat>, n: nat): (ws: seq<(nat, T)>)
    requires a.Loggable(|v|, lh) && n <= |lh|
    ensures |ws| == n
  {
    if n == 0 then [] else Logged(a, v, lh, n - 1) + [(a.start + n, v[lh[n - 1]])]
  }

  /** The first n writes of install_trans when the cache shows u. */
  ghost function Installed<T>(a: R.Area, u: seq<T>, lh: seq<nat>, n: nat): (ws: seq<(nat, T)>)
    requires a.Loggable(|u|, lh) && n <= |lh|
    ensures |ws| == n
  {
    if n == 0 then [] else Installed(a, u, lh, n - 1) + [(lh[n - 1], u[a.start + n])]
  }

  lemma {:induction false} LoggedPrefix<T>(a: R.Area, v: seq<T>, lh: seq<nat>, n: nat, m: nat)
    requires a.Loggable(|v|, lh) && n <= m <= |lh|
    ensures Logged(a, v, lh, n) <= Logged(a, v, lh, m)
  {
    if n < m {
      LoggedPrefix(a, v, lh, n, m - 1);
    }
  }

  lemma {:induction false} InstalledPrefix<T>(a: R.Area, u: seq<T>, lh: seq<nat>, n: nat, m: nat)
    requires a.Loggable(|u|, lh) && n <= m <= |lh|
    ensures Installed(a, u, lh, n) <= Installed(a, u, lh, m)
  {
    if n < m {
      InstalledPrefix(a, u, lh, n, m - 1);
    }
  }

  /** From view v to view u, n blocks have been copied to the log and nothing else
      changed outside the log blocks. */
  ghost predicate Staged<T>(a: R.Area, v: seq<T>, lh: seq<nat>, n: nat, u: seq<T>) {
    && a.Loggable(|v|, lh) && n <= |lh| && R.SameHome(a, v, u) && u[a.start] == v[a.start]
    && forall i {:trigger lh[i]} :: 0 <= i < n ==> u[a.start + 1 + i] == v[lh[i]]
  }

  lemma StagedNext<T>(a: R.Area, v: seq<T>, lh: seq<nat>, n: nat, u: seq<T>)
    requires Staged(a, v, lh, n, u) && n < |lh|
    ensures u[lh[n]] == v[lh[n]] && Staged(a, v, lh, n + 1, u[a.start + 1 + n := v[lh[n]]])
  {
  }

  /** write_log */
  method WriteLog<T>(c: Cache<T>, a: R.Area, lh: seq<nat>) returns (ok: bool, ghost ws: seq<(nat, T)>)
    requires Steady(c, lh) && a.Loggable(|c.disk|, lh)
    modifies c
    ensures Alive(c) && c.trace == old(c.trace) + ws && c.boot == old(c.boot) && SameOthers(c.g, old(c.g))
    ensures FindsTo(old(c.bufs), a.start + 1, a.start + 1 + |ws|)
    ensures !ok ==> |ws| < |lh| && !Finds(old(c.bufs), a.start + 1 + |ws|)
    ensures ws <= Logged(a, old(c.g.latest), lh, |lh|)
    ensures ok ==> Steady(c, lh) && ws == Logged(a, old(c.g.latest), lh, |lh|)
                   && Staged(a, old(c.g.latest), lh, |lh|, c.g.latest) && SameFinds(old(c.bufs), c.bufs)
  {
    ghost var v := c.g.latest;
    var tail := 0;
    ws := [];
    while tail < |lh|
      invariant 0 <= tail <= |lh| && ws == Logged(a, v, lh, tail)
      invariant Steady(c, lh) && c.trace == old(c.trace) + ws && Staged(a, v, lh, tail, c.g.latest)
      invariant c.boot == old(c.boot) && SameOthers(c.g, old(c.g))
      invariant SameFinds(old(c.bufs), c.bufs) && FindsTo(old(c.bufs), a.start + 1, a.start + 1 + tail)
    {
      StagedNext(a, v, lh, tail, c.g.latest);
      Assoc(old(c.trace), ws, [(a.start + 1 + tail, v[lh[tail]])]);
      assert a.start + 1 + tail !in lh;
      assert Finds(c.bufs, a.start + 1 + tail) <==> Finds(old(c.bufs), a.start + 1 + tail);
      ok := WriteLogBlock(c, lh[tail], a.start + 1 + tail, lh, tail);
      if !ok {
        LoggedPrefix(a, v, lh, tail, |lh|);
        return;
      }
      ws, tail := Logged(a, v, lh, tail + 1), tail + 1;
    }
    SteadyAlive(c, lh);
    ok := true;
  }

  /** What is still pinned after installing the first t blocks. */
  ghost function PinsLeft(lh: seq<nat>, t: nat, recovering: bool): seq<nat>
    requires t <= |lh|
  {
    if recovering then [] else lh[t..]
  }

  lemma PinsNext(a: R.Area, n: nat, lh: seq<nat>, t: nat, recovering: bool)
    requires a.Loggable(n, lh) && (recovering || Nodup(lh)) && t < |lh|
    ensures var s := PinsLeft(lh, t + 1, recovering);
            PinsLeft(lh, t, recovering) == (if !recovering then [lh[t]] + s else s)
            && lh[t] !in s && a.start + 1 + t !in s && lh[t] != a.start + 1 + t
  {
  }

  ghost predicate SameLog<T>(a: R.Area, u: seq<T>, v: seq<T>) {
    |u| == |v| && a.Fits(|u|) && forall b :: a.Holds(b) ==> u[b] == v[b]
  }

  lemma SameLogNext<T>(a: R.Area, u: seq<T>, v: seq<T>, lh: seq<nat>, n: nat)
    requires SameLog(a, u, v) && a.Loggable(|v|, lh) && n < |lh|
    ensures u[a.start + 1 + n] == v[a.start + 1 + n] && SameLog(a, u[lh[n] := v[a.start + 1 + n]], v)
  {
  }

  /** One round of install_trans, as its loop needs it. */
  method InstallRound<T>(c: Cache<T>, a: R.Area, lh: seq<nat>, recovering: bool, tail: nat, ghost u: seq<T>)
    returns (ok: bool)
    requires tail < |lh| && Steady(c, PinsLeft(lh, tail, recovering)) && a.Loggable(|c.disk|, lh)
    requires (recovering || Nodup(lh)) && SameLog(a, c.g.latest, u)
    modifies c
    ensures Alive(c) && c.boot == old(c.boot) && SameOthers(c.g, old(c.g))
    ensures if recovering then old(Quiet(c.g)) ==> ok else ok <==> Finds(old(c.bufs), a.start + 1 + tail)
    ensures !ok ==> c.trace == old(c.trace)
    ensures ok ==> Steady(c, PinsLeft(lh, tail + 1, recovering)) && SameLog(a, c.g.latest, u)
                   && KeepsFinds(old(c.bufs), c.bufs)
                   && c.trace == old(c.trace) + [(lh[tail], u[a.start + 1 + tail])]
  {
    PinsNext(a, |u|, lh, tail, recovering);
    SameLogNext(a, c.g.latest, u, lh, tail);
    ok := InstallBlock(c, a.start + 1 + tail, lh[tail], !recovering, PinsLeft(lh, tail + 1, recovering));
  }

  /** install_trans; a commit, unlike a recovery, unpins the blocks it installs. */
  method InstallTrans<T>(c: Cache<T>, a: R.Area, lh: seq<nat>, recovering: bool)
    returns (ok: bool, ghost ws: seq<(nat, T)>)
    requires Steady(c, PinsLeft(lh, 0, recovering)) && a.Loggable(|c.disk|, lh) && (recovering || Nodup(lh))
    modifies c
    ensures Alive(c) && c.trace == old(c.trace) + ws && c.boot == old(c.boot) && SameOthers(c.g, old(c.g))
    ensures if recovering then old(Quiet(c.g)) ==> ok
            else FindsTo(old(c.bufs), a.start + 1, a.start + 1 + |lh|) ==> ok
    ensures ws <= Installed(a, old(c.g.latest), lh, |lh|)
    ensures ok ==> Steady(c, []) && ws == Installed(a, old(c.g.latest), lh, |lh|)
                   && SameLog(a, c.g.latest, old(c.g.latest)) && KeepsFinds(old(c.bufs), c.bufs)
  {
    ghost var u := c.g.latest;
    var tail := 0;
    ws := [];
    while tail < |lh|
      invariant 0 <= tail <= |lh| && ws == Installed(a, u, lh, tail)
      invariant Steady(c, PinsLeft(lh, tail, recovering)) && c.trace == old(c.trace) + ws
      invariant SameLog(a, c.g.latest, u) && c.boot == old(c.boot) && SameOthers(c.g, old(c.g))
      invariant KeepsFinds(old(c.bufs), c.bufs)
    {
      assert Finds(old(c.bufs), a.start + 1 + tail) ==> Finds(c.bufs, a.start + 1 + tail);
      Assoc(old(c.trace), ws, [(lh[tail], u[a.start + 1 + tail])]);
      ok := InstallRound(c, a, lh, recovering, tail, u);
      if !ok {
        InstalledPrefix(a, u, lh, tail, |lh|);
        return;
      }
      ws, tail := Installed(a, u, lh, tail + 1), tail + 1;
    }
    assert PinsLeft(lh, |lh|, recovering) == [];
    SteadyAlive(c, []);
    ok := true;
  }

  /** write_head */
  method WriteHead<T>(c: Cache<T>, start: nat, codec: Codec<T>, lh: seq<nat>, ghost s: seq<nat>)
    returns (ok: bool, ghost ws: seq<(nat, T)>)
    requires Steady(c, s) && start < |c.disk|
    modifies c
    ensures Alive(c) && c.trace == old(c.trace) + ws && c.boot == old(c.boot) && SameOthers(c.g, old(c.g))
    ensures (ok <==> Finds(old(c.bufs), start)) && (!ok ==> ws == [])
    ensures ws <= [(start, codec.put(old(c.g.latest)[start], lh))]
    ensures ok ==> Steady(c, s) && ws == [(start, codec.put(old(c.g.latest)[start], lh))]
                   && c.g.latest == old(c.g.latest)[start := codec.put(old(c.g.latest)[start], lh)]
                   && SameFinds(old(c.bufs), c.bufs)
  {
    assert Unfold(0);
    ghost var h := codec.put(c.g.latest[start], lh);
    ws := [];
    var p := Open(c, start, {}, s);
    ok := p != HEAD;
    if ok {
      assert {} + {p} == {p} && {p} - {p} == {};
      ghost var bufs1 := c.bufs;
      StoreAndWrite(c, p, codec.put(c.bufs[p].data, lh), {p}, s);
      Close(c, p, {p}, s);
      RoundFinds(old(c.bufs), old(c.g), bufs1, c.bufs, c.g);
      ws := [(start, h)];
    }
  }

  // ----- commit -----

  /** A commit's writes up to and including the header ... */
  ghost function PrepareTrace<T>(k: Codec<T>, a: R.Area, v: seq<T>, lh: seq<nat>): (ws: seq<(nat, T)>)
    requires a.Loggable(|v|, lh)
  {
    Logged(a, v, lh, |lh|) + [(a.start, k.put(v[a.start], lh))]
  }

  /** ... and the rest, which is also what a recovery writes. */
  ghost function FinishTrace<T>(k: Codec<T>, a: R.Area, u: seq<T>, lh: seq<nat>): (ws: seq<(nat, T)>)
    requires a.Loggable(|u|, lh)
  {
    Installed(a, u, lh, |lh|) + [(a.start, k.put(u[a.start], []))]
  }

  /** commit up to the header write. */
  method Prepare<T>(c: Cache<T>, a: R.Area, k: Codec<T>, lh: seq<nat>) returns (ok: bool, ghost ws: seq<(nat, T)>)
    requires Steady(c, lh) && a.Loggable(|c.disk|, lh)
    modifies c
    ensures Alive(c) && c.trace == old(c.trace) + ws && c.boot == old(c.boot) && SameOthers(c.g, old(c.g))
    ensures ok <==> CanCommit(old(c.bufs), a, |lh|)
    ensures !ok ==> ws <= Logged(a, old(c.g.latest), lh, |lh|) && Misses(old(c.bufs), a, |lh|, |ws|)
    ensures ws <= PrepareTrace(k, a, old(c.g.latest), lh)
    ensures ok ==> Steady(c, lh) && ws == PrepareTrace(k, a, old(c.g.latest), lh) && SameFinds(old(c.bufs), c.bufs)
                   && |c.g.latest| == |old(c.g.latest)| && c.g.latest[a.start] == k.put(old(c.g.latest)[a.start], lh)
                   && forall i {:trigger lh[i]} :: 0 <= i < |lh| ==>
                         c.g.latest[a.start + 1 + i] == old(c.g.latest)[lh[i]]
  {
    ok, ws := WriteLog(c, a, lh);
    if ok {
      assert Finds(c.bufs, a.start) <==> Finds(old(c.bufs), a.start);
      ghost var w;
      ghost var bufs1 := c.bufs;
      ok, w := WriteHead(c, a.start, k, lh, lh);
      ws := ws + w;
      if ok { FindsJoin(old(c.bufs), bufs1, c.bufs); }
    }
  }

  lemma FindsJoin<T>(a: seq<Buf<T>>, b: seq<Buf<T>>, c: seq<Buf<T>>)
    requires SameFinds(a, b) && SameFinds(b, c)
    ensures SameFinds(a, c)
  {
    forall z
      ensures Finds(a, z) <==> Finds(c, z)
    {
      assert Finds(b, z) <==> Finds(c, z);
    }
  }

  /** bread finds a buffer for the header block and for each block of the log. */
  ghost predicate CanCommit<T>(bufs: seq<Buf<T>>, a: R.Area, n: nat) {
    FindsTo(bufs, a.start, a.start + n + 1)
  }

  /** The first block for which it does not: block m of the log, or the header. */
  ghost predicate Misses<T>(bufs: seq<Buf<T>>, a: R.Area, n: nat, m: nat) {
    && m <= n && FindsTo(bufs, a.start + 1, a.start + 1 + m)
    && !Finds(bufs, if m < n then a.start + 1 + m else a.start)
  }

  /** Install the logged blocks and clear the header. */
  method Finish<T>(c: Cache<T>, a: R.Area, k: Codec<T>, lh: seq<nat>, recovering: bool)
    returns (ok: bool, ghost ws: seq<(nat, T)>)
    requires Steady(c, PinsLeft(lh, 0, recovering)) && a.Loggable(|c.disk|, lh) && (recovering || Nodup(lh))
    modifies c
    ensures Alive(c) && c.trace == old(c.trace) + ws && c.boot == old(c.boot) && SameOthers(c.g, old(c.g))
    ensures if recovering then old(Quiet(c.g)) ==> ok else CanCommit(old(c.bufs), a, |lh|) ==> ok
    ensures ws <= FinishTrace(k, a, old(c.g.latest), lh)
    ensures ok ==> Steady(c, []) && ws == FinishTrace(k, a, old(c.g.latest), lh)
  {
    ok, ws := InstallTrans(c, a, lh, recovering);
    if ok {
      ghost var w;
      if Quiet(c.g) { IdleFinds(c, a.start); }
      assert Finds(old(c.bufs), a.start) ==> Finds(c.bufs, a.start);
      ok, w := WriteHead(c, a.start, k, [], []);
      ws := ws + w;
    }
  }

  /** All that a commit writes when the cache shows v. */
  ghost function CommitTrace<T>(k: Codec<T>, a: R.Area, v: seq<T>, lh: seq<nat>): (ws: seq<(nat, T)>)
    requires a.Loggable(|v|, lh)
  {
    if lh == [] then [] else PrepareTrace(k, a, v, lh) + HomeTrace(k, a, v, lh)
  }

  ghost function HomeTrace<T>(k: Codec<T>, a: R.Area, v: seq<T>, lh: seq<nat>): (ws: seq<(nat, T)>)
    requires a.Loggable(|v|, lh)
  {
    Homed(v, lh, |lh|) + [(a.start, k.put(k.put(v[a.start], lh), []))]
  }

  ghost function Homed<T>(v: seq<T>, lh: seq<nat>, n: nat): (ws: seq<(nat, T)>)
    requires n <= |lh| && forall i :: 0 <= i < |lh| ==> lh[i] < |v|
    ensures |ws| == n
  {
    if n == 0 then [] else Homed(v, lh, n - 1) + [(lh[n - 1], v[lh[n - 1]])]
  }

  lemma {:induction false} InstalledIsHomed<T>(a: R.Area, v: seq<T>, u: seq<T>, lh: seq<nat>, n: nat)
    requires a.Loggable(|v|, lh) && |u| == |v| && n <= |lh|
    requires forall i {:trigger lh[i]} :: 0 <= i < |lh| ==> u[a.start + 1 + i] == v[lh[i]]
    ensures Installed(a, u, lh, n) == Homed(v, lh, n)
  {
    if n > 0 {
      InstalledIsHomed(a, v, u, lh, n - 1);
      assert u[a.start + n] == v[lh[n - 1]];
    }
  }

  lemma CommitFinds<T>(bufs: seq<Buf<T>>, bufs1: seq<Buf<T>>, a: R.Area, n: nat)
    requires SameFinds(bufs, bufs1) && CanCommit(bufs, a, n)
    ensures CanCommit(bufs1, a, n)
  {
    forall z | a.start <= z < a.start + n + 1
      ensures Finds(bufs1, z)
    {
      assert Finds(bufs, z);
    }
  }

  /** With nobody else about, a commit finds its buffers exactly if the logged blocks
      leave one, and otherwise none for its first block. */
  lemma QuietCommits<T>(c: Cache<T>, a: R.Area, lh: seq<nat>)
    requires Steady(c, lh) && Quiet(c.g) && Nodup(lh) && a.Loggable(|c.disk|, lh) && lh != []
    ensures CanCommit(c.bufs, a, |lh|) <==> |lh| < NBUF
    ensures |lh| >= NBUF ==> !Finds(c.bufs, a.start + 1)
  {
    assert Unfold(0);
    RoomLeft(c, lh);
    assert a.start + 1 !in lh;
    if |lh| < NBUF {
      assert FindsTo(c.bufs, a.start, a.start + |lh| + 1);
    } else {
      assert !Finds(c.bufs, a.start + 1);
    }
  }

  /** commit */
  method CommitAll<T>(c: Cache<T>, a: R.Area, k: Codec<T>, lh: seq<nat>) returns (ok: bool, ghost ws: seq<(nat, T)>)
    requires Steady(c, lh) && a.Loggable(|c.disk|, lh) && Nodup(lh)
    modifies c
    ensures Alive(c) && c.trace == old(c.trace) + ws && c.boot == old(c.boot) && SameOthers(c.g, old(c.g))
    ensures ok <==> lh == [] || CanCommit(old(c.bufs), a, |lh|)
    ensures !ok ==> ws <= Logged(a, old(c.g.latest), lh, |lh|) && Misses(old(c.bufs), a, |lh|, |ws|)
    ensures ws <= CommitTrace(k, a, old(c.g.latest), lh)
    ensures ok ==> Steady(c, []) && ws == CommitTrace(k, a, old(c.g.latest), lh)
  {
    if |lh| == 0 {
      assert Unfold(0);
      return true, [];
    }
    ok, ws := Prepare(c, a, k, lh);
    if ok {
      assert PinsLeft(lh, 0, false) == lh;
      CommitFinds(old(c.bufs), c.bufs, a, |lh|);
      InstalledIsHomed(a, old(c.g.latest), c.g.latest, lh, |lh|);
      ghost var w;
      ok, w := Finish(c, a, k, lh, false);
      Assoc(old(c.trace), ws, w);
      ws := ws + w;
    }
  }

  // ----- log space -----

  lemma AddPin<T>(bufs: seq<Buf<T>>, pins: seq<nat>, bufs1: seq<Buf<T>>, b: nat, s: seq<nat>)
    requires Pinned(bufs, pins, s) && b < NBUF && bufs[b].valid && bufs[b].blockno !in s
    requires |bufs1| == NBUF && bufs1 == bufs[b := bufs1[b]]
    requires bufs1[b].valid && bufs1[b].blockno == bufs[b].blockno
    ensures Pinned(bufs1, pins[b := pins[b] + 1], s + [bufs[b].blockno])
  {
    var x, pins1 := bufs[b].blockno, pins[b := pins[b] + 1];
    forall c | 0 <= c < NBUF
      ensures PinIn(bufs1, pins1, s + [x], c)
    {
      assert PinIn(bufs, pins, s, c);
    }
    forall i | 0 <= i < |s + [x]|
      ensures HasPin(bufs1, pins1, (s + [x])[i])
    {
      if i < |s| {
        assert HasPin(bufs, pins, s[i]);
        var c :| 0 <= c < NBUF && pins[c] > 0 && bufs[c].valid && bufs[c].blockno == s[i];
        assert bufs1[c].valid && bufs1[c].blockno == s[i];
      } else {
        assert pins1[b] > 0 && bufs1[b].valid && bufs1[b].blockno == x;
      }
    }
  }

  /** Operation i may still log a new block. */
  predicate InBudget(budgets: seq<nat>, i: nat) {
    i < |budgets| && budgets[i] > 0
  }

  function Spent(budgets: seq<nat>, i: nat): seq<nat> {
    if InBudget(budgets, i) then budgets[i := budgets[i] - 1] else budgets
  }

  class Log<T(!new)> {
    const cache: Cache<T>
    const area: R.Area
    const codec: Codec<T>
    var lh: seq<nat>         // log.lh.block[..log.lh.n]
    var outstanding: nat
    var committing: bool
    ghost var budgets: seq<nat>  // new blocks each outstanding operation may still log

    /** initlog, before it recovers. */
    constructor (cache: Cache<T>, area: R.Area, codec: Codec<T>)
      ensures this.cache == cache && this.area == area && this.codec == codec
      ensures lh == [] && outstanding == 0 && !committing && budgets == []
    {
      this.cache, this.area, this.codec := cache, area, codec;
      lh, outstanding, committing, budgets := [], 0, false, [];
    }

    /** The header in memory: distinct home blocks, each pinned once. */
    ghost predicate Valid()
      reads this, cache
    {
      && area.Loggable(|cache.disk|, lh) && |cache.disk| <= 0x1_0000_0000 && Nodup(lh) && Lawful(codec)
      && cache.Valid() && Pinned(cache.bufs, cache.g.pins, lh)
    }

    /** The reservation: what is logged and what may still be logged fits. */
    ghost predicate Reserved()
      reads this
    {
      && |budgets| == outstanding && (forall i :: 0 <= i < |budgets| ==> budgets[i] <= L.MAXOPBLOCKS)
      && |lh| + L.Sum(budgets) <= R.LOGSIZE && (committing ==> outstanding == 0)
    }

    /** begin_op; false is a sleep until a commit or another end_op. */
    method BeginOp() returns (ok: bool)
      requires Reserved()
      modifies `outstanding, `budgets
      ensures Reserved()
      ensures ok <==> !committing && |lh| + (old(outstanding) + 1) * L.MAXOPBLOCKS <= R.LOGSIZE
      ensures !ok ==> outstanding == old(outstanding) && budgets == old(budgets)
      ensures ok ==> outstanding == old(outstanding) + 1 && budgets == old(budgets) + [L.MAXOPBLOCKS]
    {
      if committing || |lh| + (outstanding + 1) * L.MAXOPBLOCKS > R.LOGSIZE {
        return false;
      }
      outstanding := outstanding + 1;
      L.SumBound(budgets, L.MAXOPBLOCKS);
      L.SumJoin(budgets, [L.MAXOPBLOCKS]);
      budgets := budgets + [L.MAXOPBLOCKS];
      return true;
    }

    /** end_op up to the commit, for operation i: the caller commits, or it wakes
        those who wait in begin_op for room. */
    method EndOp(ghost i: nat) returns (commit: bool, wakes: bool)
      requires Reserved() && i < |budgets|
      modifies `outstanding, `budgets, `committing
      ensures Reserved() && outstanding == old(outstanding) - 1
      ensures budgets == old(budgets)[..i] + old(budgets)[i + 1..]
      ensures !old(committing) && commit == committing == (outstanding == 0) && (wakes <==> !commit)
    {
      outstanding := outstanding - 1;
      L.SumAt(budgets, i, 0);
      budgets := budgets[..i] + budgets[i + 1..];
      commit := outstanding == 0;
      committing := commit;
      wakes := !commit;
    }

    /** end_op after its commit: operations may begin again, and those who wait
        are woken. */
    method EndCommit() returns (wakes: bool)
      requires Reserved() && committing
      modifies `committing
      ensures Reserved() && !committing && wakes
    {
      committing := false;
      wakes := true;
    }

    /** log_write by operation i. False is one of the two panics. The reservation
        stands if the operation has begun and a new block is within its budget. */
    method LogWrite(b: nat, ghost i: nat) returns (ok: bool)
      requires Valid() && Reserved() && cache.Held(b) && !area.Holds(cache.bufs[b].blockno)
      modifies `lh, `budgets, cache`bufs, cache`g
      ensures Valid()
      ensures ok <==> |old(lh)| < R.LOGSIZE && |old(lh)| < area.size - 1 && outstanding > 0
      ensures InBudget(old(budgets), i) || old(cache.bufs)[b].blockno in old(lh) || !ok ==> Reserved()
      ensures InBudget(old(budgets), i) && old(cache.bufs)[b].blockno !in old(lh) && area.size - 1 >= R.LOGSIZE ==> ok
      ensures !ok || old(cache.bufs)[b].blockno in old(lh) ==>
                lh == old(lh) && budgets == old(budgets) && cache.bufs == old(cache.bufs) && cache.g == old(cache.g)
      ensures ok && old(cache.bufs)[b].blockno !in old(lh) ==>
                lh == old(lh) + [old(cache.bufs)[b].blockno] && budgets == Spent(old(budgets), i)
                && cache.bufs == old(cache.bufs)[b := Claimed(old(cache.bufs)[b])]
    {
      if InBudget(budgets, i) { L.SumAt(budgets, i, budgets[i] - 1); }
      if |lh| >= R.LOGSIZE || |lh| >= area.size - 1 || outstanding < 1 {
        return false;
      }
      var blockno := cache.bufs[b].blockno;
      var j := FindLogged(blockno);
      if j < |lh| {
        SameUpdate(lh, j);
        lh := lh[j := blockno];
      } else {
        AddBlock(b);
        budgets := Spent(budgets, i);
      }
      return true;
    }

    /** A block that is new to the log: pin its buffer and append it. */
    method AddBlock(b: nat)
      requires Valid() && cache.Held(b) && !area.Holds(cache.bufs[b].blockno) && cache.bufs[b].blockno !in lh
      requires |lh| < R.LOGSIZE && |lh| < area.size - 1
      modifies `lh, cache`bufs, cache`g
      ensures Valid() && lh == old(lh) + [old(cache.bufs)[b].blockno]
      ensures cache.bufs == old(cache.bufs)[b := Claimed(old(cache.bufs)[b])]
    {
      assert Fresh(cache.bufs[b], cache.disk, cache.g.latest, cache.g.pins[b], cache.g.touched[b]);
      cache.Bpin(b);
      AddPin(old(cache.bufs), old(cache.g.pins), cache.bufs, b, lh);
      lh := lh + [cache.bufs[b].blockno];
    }

    /** log_write's search for a block that is already logged. */
    method FindLogged(blockno: nat) returns (j: nat)
      ensures j <= |lh| && (j == |lh| <==> blockno !in lh) && (j < |lh| ==> lh[j] == blockno)
    {
      j := 0;
      while j < |lh| && lh[j] != blockno
        invariant 0 <= j <= |lh| && blockno !in lh[..j]
      {
        j := j + 1;
      }
    }

    /** commit, run when no operation is outstanding and no buffer is locked. False
        is a panic of bread, before the header is written; ws is what has reached the
        disk by then. */
    method Commit() returns (ok: bool, ghost ws: seq<(nat, T)>)
      requires Valid() && Steady(cache, lh)
      modifies `lh, cache
      ensures cache.trace == old(cache.trace) + ws && Recorded(old(cache.disk), ws, cache.disk)
      ensures ok <==> old(lh) == [] || CanCommit(old(cache.bufs), area, |old(lh)|)
      ensures !ok ==> ws <= Logged(area, old(cache.g.latest), old(lh), |old(lh)|)
                      && Misses(old(cache.bufs), area, |old(lh)|, |ws|)
      ensures old(Quiet(cache.g)) ==> (ok <==> |old(lh)| < NBUF) && (!ok ==> ws == []) && Quiet(cache.g)
      ensures ws <= CommitTrace(codec, area, old(cache.g.latest), old(lh))
      ensures ok ==> lh == [] && Valid() && Steady(cache, [])
                     && ws == CommitTrace(codec, area, old(cache.g.latest), old(lh))
    {
      if Quiet(cache.g) && lh != [] { QuietCommits(cache, area, lh); }
      ok, ws := CommitAll(cache, area, codec, lh);
      assert Unfold(0);
      RecordedSince(old(cache.boot), old(cache.trace), old(cache.disk), ws, cache.disk);
      if ok {
        lh := [];
      }
    }

    /** recover_from_log, with a freshly booted cache. */
    method Recover() returns (ok: bool, ghost ws: seq<(nat, T)>)
      requires area.Fits(|cache.disk|) && |cache.disk| <= 0x1_0000_0000 && Lawful(codec) && Steady(cache, [])
      requires area.Loggable(|cache.disk|, codec.get(cache.disk[area.start]))
      modifies `lh, cache
      ensures cache.trace == old(cache.trace) + ws && Recorded(old(cache.disk), ws, cache.disk)
      ensures old(Quiet(cache.g)) ==> ok && Quiet(cache.g)
      ensures cache.boot == old(cache.boot)
      ensures ws <= FinishTrace(codec, area, old(cache.disk), codec.get(old(cache.disk)[area.start]))
      ensures ok ==> lh == [] && Valid() && Steady(cache, [])
                     && ws == FinishTrace(codec, area, old(cache.disk), codec.get(old(cache.disk)[area.start]))
    {
      CleanDisk(cache);
      ws := [];
      ok := ReadHead();
      if ok {
        ok, ws := Finish(cache, area, codec, lh, true);
      }
      assert Unfold(0) && old(cache.trace) + [] == old(cache.trace);
      RecordedSince(old(cache.boot), old(cache.trace), old(cache.disk), ws, cache.disk);
      if ok {
        lh := [];
      }
    }

    /** read_head */
    method ReadHead() returns (ok: bool)
      requires Steady(cache, []) && area.start < |cache.disk|
      modifies `lh, cache`bufs, cache`next, cache`prev, cache`g
      ensures Alive(cache) && SameOthers(cache.g, old(cache.g)) && (old(Quiet(cache.g)) ==> ok)
      ensures ok ==> Steady(cache, []) && cache.g.latest == old(cache.g.latest)
                     && lh == codec.get(old(cache.g.latest)[area.start])
    {
      assert Unfold(0);
      UnpinnedClean(cache, [], area.start);
      SameUpdate(cache.g.latest, area.start);
      if Quiet(cache.g) { AllIdle(cache); }
      var p := Open(cache, area.start, {}, []);
      ok := p != HEAD;
      if ok {
        assert {} + {p} == {p} && {p} - {p} == {};
        lh := codec.get(cache.bufs[p].data);
        Close(cache, p, {p}, []);
      }
    }
  }

  lemma FreshSteady<T>(c: Cache<T>, zero: T)
    requires c.Valid() && c.bufs == seq(NBUF, _ => Buf(0, 0, false, 0, false, zero)) && c.g == BootBook(c.disk)
    ensures Steady(c, []) && Quiet(c.g)
  {
    assert forall b :: 0 <= b < NBUF ==> c.bufs[b] == Buf(0, 0, false, 0, false, zero) && c.g.pins[b] == 0;
    forall b | 0 <= b < NBUF
      ensures PinIn(c.bufs, c.g.pins, [], b)
    {
    }
    assert Using(c, {}, []);
  }

  /** initlog at boot, with binit before it: recovery always completes. */
  method Initlog<T(!new)>(disk: seq<T>, zero: T, area: R.Area, codec: Codec<T>) returns (log: Log<T>)
    requires area.Fits(|disk|) && |disk| <= 0x1_0000_0000 && Lawful(codec)
    requires area.Loggable(|disk|, codec.get(disk[area.start]))
    ensures fresh(log) && fresh(log.cache) && log.area == area && log.codec == codec && log.Valid() && log.Reserved()
    ensures log.lh == [] && Steady(log.cache, []) && Quiet(log.cache.g)
    ensures log.cache.boot == disk && log.cache.trace == FinishTrace(codec, area, disk, codec.get(disk[area.start]))
  {
    var cache := new Cache(disk, zero);
    FreshSteady(cache, zero);
    log := new Log(cache, area, codec);
    var ok;
    ghost var ws;
    ok, ws := log.Recover();
  }

  /** With nothing pinned and nothing locked the disk is up to date. */
  lemma CleanDisk<T>(c: Cache<T>)
    requires Steady(c, [])
    ensures c.disk == c.g.latest
  {
    assert Unfold(0);
    forall x | 0 <= x < |c.disk|
      ensures c.disk[x] == c.g.latest[x]
    {
      UnpinnedClean(c, [], x);
    }
  }

  /** A stretch of the trace turns the disk at its start into the disk at its end. */
  lemma RecordedSince<T>(boot: seq<T>, t: seq<(nat, T)>, d: seq<T>, ws: seq<(nat, T)>, e: seq<T>)
    requires Recorded(boot, t, d) && Recorded(boot, t + ws, e)
    ensures Recorded(d, ws, e)
  {
    forall b | 0 <= b < |d|
      ensures e[b] == Final(d, ws, b)
    {
      FinalConcat(boot, t, d, ws, b);
      assert e[b] == Final(boot, t + ws, b);
    }
  }

  lemma {:induction false} FinalConcat<T>(boot: seq<T>, t: seq<(nat, T)>, d: seq<T>, ws: seq<(nat, T)>, b: nat)
    requires Recorded(boot, t, d) && b < |d|
    ensures Final(boot, t + ws, b) == Final(d, ws, b)
  {
    if ws == [] {
      assert t + ws == t;
      assert d[b] == Final(boot, t, b);
    } else {
      FinalConcat(boot, t, d, ws[..|ws| - 1], b);
      assert (t + ws)[..|t + ws| - 1] == t + ws[..|ws| - 1];
    }
  }

  // ----- the code's writes are RedoLog's, so it is crash safe -----

  lemma {:induction false} LoggedEntries<T>(k: Codec<T>, a: R.Area, v: seq<T>, lh: seq<nat>, n: nat)
    requires a.Loggable(|v|, lh) && n <= |lh|
    ensures Entries(k, a, Logged(a, v, lh, n)) == R.LogWrites(a, v, lh)[..n]
  {
    if n > 0 {
      LoggedEntries(k, a, v, lh, n - 1);
      EntriesConcat(k, a, Logged(a, v, lh, n - 1), [(a.start + n, v[lh[n - 1]])]);
    }
  }

  lemma {:induction false} InstalledEntries<T>(k: Codec<T>, a: R.Area, u: seq<T>, lh: seq<nat>, n: nat)
    requires a.Loggable(|u|, lh) && n <= |lh|
    ensures Entries(k, a, Installed(a, u, lh, n)) == R.InstallWrites(a, u, lh)[..n]
  {
    if n > 0 {
      InstalledEntries(k, a, u, lh, n - 1);
      EntriesConcat(k, a, Installed(a, u, lh, n - 1), [(lh[n - 1], u[a.start + n])]);
    }
  }

  lemma {:induction false} HomedEntries<T>(k: Codec<T>, a: R.Area, v: seq<T>, lh: seq<nat>, n: nat)
    requires a.Loggable(|v|, lh) && n <= |lh|
    ensures Entries(k, a, Homed(v, lh, n)) == R.FinishWrites(v, lh)[..n]
  {
    if n > 0 {
      HomedEntries(k, a, v, lh, n - 1);
      EntriesConcat(k, a, Homed(v, lh, n - 1), [(lh[n - 1], v[lh[n - 1]])]);
    }
  }

  lemma HeadEntry<T(!new)>(k: Codec<T>, a: R.Area, h: T, lh: seq<nat>)
    requires Lawful(k) && Words(lh)
    ensures Entries(k, a, [(a.start, k.put(h, lh))]) == [R.Head(lh)]
  {
    assert k.get(k.put(h, lh)) == lh;
  }

  /** Log.Commit writes exactly what RedoLog.CommitWrites lists. */
  lemma CommitEntries<T(!new)>(k: Codec<T>, a: R.Area, v: seq<T>, lh: seq<nat>)
    requires a.Loggable(|v|, lh) && Lawful(k) && Words(lh)
    ensures Entries(k, a, CommitTrace(k, a, v, lh)) == R.CommitWrites(a, v, lh)
  {
    if lh != [] {
      var h := k.put(v[a.start], lh);
      LoggedEntries(k, a, v, lh, |lh|);
      HomedEntries(k, a, v, lh, |lh|);
      HeadEntry(k, a, v[a.start], lh);
      HeadEntry(k, a, h, []);
      EntriesConcat(k, a, Logged(a, v, lh, |lh|), [(a.start, h)]);
      EntriesConcat(k, a, Homed(v, lh, |lh|), [(a.start, k.put(h, []))]);
      EntriesConcat(k, a, PrepareTrace(k, a, v, lh), HomeTrace(k, a, v, lh));
      assert R.LogWrites(a, v, lh)[..|lh|] == R.LogWrites(a, v, lh);
      assert R.FinishWrites(v, lh) == R.FinishWrites(v, lh)[..|lh|] + [R.Head([])];
    }
  }

  lemma {:induction false} ApplyFinal<T>(k: Codec<T>, a: R.Area, d: seq<T>, ws: seq<(nat, T)>, hole: T, b: nat)
    requires a.Fits(|d|) && b < |d| && R.InRange(|d|, Entries(k, a, ws))
    ensures var r := R.Apply(Abs(k, a, d, hole), Entries(k, a, ws));
            r.head == k.get(Final(d, ws, a.start))
            && r.blocks[b] == if b == a.start then hole else Final(d, ws, b)
  {
    if ws != [] {
      var init := ws[..|ws| - 1];
      assert Entries(k, a, ws)[..|ws| - 1] == Entries(k, a, init);
      ApplyFinal(k, a, d, init, hole, b);
    }
  }

  /** Writing blocks one by one is applying their entries. */
  lemma AbsRecorded<T>(k: Codec<T>, a: R.Area, d: seq<T>, ws: seq<(nat, T)>, e: seq<T>, hole: T)
    requires a.Fits(|d|) && R.InRange(|d|, Entries(k, a, ws)) && Recorded(d, ws, e)
    ensures R.Apply(Abs(k, a, d, hole), Entries(k, a, ws)) == Abs(k, a, e, hole)
  {
    var r := R.Apply(Abs(k, a, d, hole), Entries(k, a, ws));
    forall b | 0 <= b < |d|
      ensures r.blocks[b] == (if b == a.start then hole else e[b]) && r.head == k.get(e[a.start])
    {
      ApplyFinal(k, a, d, ws, hole, b);
      assert e[b] == Final(d, ws, b) && e[a.start] == Final(d, ws, a.start);
    }
    assert r.blocks[a.start] == hole;
    assert r.blocks == e[a.start := hole];
  }

  /** What Commit's precondition gives: the cache differs from the disk only at
      logged blocks. */
  lemma ReadyToCommit<T(!new)>(log: Log<T>, hole: T)
    requires log.Valid() && Steady(log.cache, log.lh)
    requires log.codec.get(log.cache.disk[log.area.start]) == []
    ensures R.CachedView(log.area, Abs(log.codec, log.area, log.cache.disk, hole), log.cache.g.latest, log.lh)
  {
    assert Unfold(0);
    var c := log.cache;
    forall b | 0 <= b < |c.disk| && !log.area.Holds(b) && b !in log.lh
      ensures c.disk[b] == c.g.latest[b]
    {
      UnpinnedClean(c, log.lh, b);
    }
  }

  lemma EntriesPrefix<T>(k: Codec<T>, a: R.Area, us: seq<(nat, T)>, ws: seq<(nat, T)>)
    requires us <= ws
    ensures Entries(k, a, us) == Entries(k, a, ws)[..|us|]
  {
  }

  /** Log.Commit is atomic. Let it stop after any of its writes, leaving disk e,
      and let recoveries crash anywhere: the next full recovery yields the home
      blocks the cache showed if the header got out, the old ones if not. */
  lemma CommitIsAtomic<T(!new)>(k: Codec<T>, a: R.Area, d: seq<T>, v: seq<T>, lh: seq<nat>,
                                ws: seq<(nat, T)>, e: seq<T>, ks: seq<nat>, hole: T)
    requires Lawful(k) && Words(lh) && |v| == |d| && a.Loggable(|v|, lh)
    requires R.CachedView(a, Abs(k, a, d, hole), v, lh)
    requires ws <= CommitTrace(k, a, v, lh) && Recorded(d, ws, e)
    ensures R.Recoverable(a, Abs(k, a, e, hole))
    ensures R.SameHome(a, R.Recover(a, R.CrashedRecoveries(a, Abs(k, a, e, hole), ks)).blocks,
                       if |ws| > |lh| then v else d)
  {
    CommitEntries(k, a, v, lh);
    EntriesPrefix(k, a, ws, CommitTrace(k, a, v, lh));
    AbsRecorded(k, a, d, ws, e, hole);
    R.CrashAtomicity(a, Abs(k, a, d, hole), v, lh, |ws|, ks);
  }

  /** Log.Recover writes exactly what RedoLog.RecoverWrites lists. */
  lemma RecoverEntries<T(!new)>(k: Codec<T>, a: R.Area, d: seq<T>, hole: T)
    requires Lawful(k) && a.Fits(|d|) && a.Loggable(|d|, k.get(d[a.start]))
    ensures var e := Abs(k, a, d, hole);
            R.Recoverable(a, e) && Entries(k, a, FinishTrace(k, a, d, k.get(d[a.start]))) == R.RecoverWrites(a, e)
  {
    var lh := k.get(d[a.start]);
    InstalledEntries(k, a, d, lh, |lh|);
    HeadEntry(k, a, d[a.start], []);
    EntriesConcat(k, a, Installed(a, d, lh, |lh|), [(a.start, k.put(d[a.start], []))]);
    assert R.InstallWrites(a, d, lh)[..|lh|] == R.InstallWrites(a, d[a.start := hole], lh);
  }

  /** Whatever the size of the log area, a run of operations within their budgets
      can end in a panic: in log_write if the area is too small for LOGSIZE blocks,
      and in commit if it is not, since NBUF blocks can then be pinned at once. */
  lemma EverySizePanics(size: nat)
    requires size > 0
    ensures (exists s :: L.Reachable(size, s) && s.n >= NBUF)
            <==> forall s, i :: L.Reachable(size, s) && L.Enabled(s, L.New(i)) ==> L.Accepts(size, s.n)
  {
    L.FillsUp(size);
    L.NewAccepted(size);
    assert NBUF == L.LOGSIZE;
  }
}
