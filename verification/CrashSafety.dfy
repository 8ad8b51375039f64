/** Files across crashes. A run of file operations makes up one transaction of
    the log; its commit may stop after any of its disk writes, recoveries may
    stop anywhere as well, and then the disk is mounted again. Joins FileSystem
    (kernel/fs.c), which logs what it changes, to RedoLog (kernel/log.c). */
module CrashSafety {
  import opened Basics
  import opened FileMap
  import F = FileSystem
  import L = LogSpace
  import A = Allocation
  import B = BufferCache
  import R = RedoLog
  import W = LogLayer

  /** A block on disk: its bytes and, for a block of inodes, those inodes. */
  datatype Cell = Cell(raw: F.Block, inodes: seq<Inode>)

  // ----- a file system as disk blocks -----

  function InodesIn(lay: F.Layout, dinodes: seq<Inode>, x: nat): seq<Inode> {
    var from := (x - lay.inodestart) * F.IPB;
    if x < lay.inodestart || |dinodes| <= from then []
    else dinodes[from..if from + F.IPB < |dinodes| then from + F.IPB else |dinodes|]
  }

  function Image(lay: F.Layout, blocks: seq<F.Block>, dinodes: seq<Inode>): (img: seq<Cell>)
    ensures |img| == |blocks|
    ensures forall x :: 0 <= x < |blocks| ==> img[x] == Cell(blocks[x], InodesIn(lay, dinodes, x))
  {
    seq(|blocks|, x requires 0 <= x < |blocks| => Cell(blocks[x], InodesIn(lay, dinodes, x)))
  }

  /** The log area comes before the inodes, the bitmap and the data. */
  predicate Apart(lay: F.Layout, a: R.Area) {
    a.Fits(lay.size) && a.start + a.size <= lay.inodestart && a.start + a.size <= lay.bmapstart
  }

  /** The disk that mkfs lays out: 2 + nlog + ninodeblocks + nbitmap blocks come
      before the data. */
  function Shipped(size: nat): F.Layout {
    A.Layout(size, 2 + R.LOGSIZE, 2 + R.LOGSIZE + 200 / F.IPB + 1, 2 + R.LOGSIZE + 200 / F.IPB + 1 + size / F.BPB + 1)
  }

  /** It keeps the log apart and has room for its 200 inodes and its bitmap. */
  lemma ShippedFits(size: nat)
    requires Shipped(size).datastart <= size < 0x1_0000_0000
    ensures var lay := Shipped(size); lay.Fits() && lay.HasInodes(200) && Apart(lay, R.Area(2, R.LOGSIZE))
  {
    forall b | 0 <= b < size
      ensures b / F.BPB <= size / F.BPB
    {
    }
  }

  lemma ShippedIs(size: nat)
    ensures var lay := Shipped(size); lay.inodestart == 32 && lay.bmapstart == 45 && lay.datastart == 46 + size / 8192
  {
  }

  lemma HomeApart(lay: F.Layout, a: R.Area, b: nat)
    requires Apart(lay, a) && lay.Home(b)
    ensures !a.Holds(b) && b < lay.size
  {
  }

  /** What a mount reads. */
  function Raw(img: seq<Cell>): (blocks: seq<F.Block>)
    ensures |blocks| == |img| && forall x :: 0 <= x < |img| ==> blocks[x] == img[x].raw
  {
    seq(|img|, x requires 0 <= x < |img| => img[x].raw)
  }

  /** ilock's copy of the inode from its block. */
  predicate InodeRead(lay: F.Layout, img: seq<Cell>, i: nat, inode: Inode) {
    lay.InodeBlock(i) < |img| && i % F.IPB < |img[lay.InodeBlock(i)].inodes|
    && img[lay.InodeBlock(i)].inodes[i % F.IPB] == inode
  }

  lemma InodeShown(lay: F.Layout, blocks: seq<F.Block>, dinodes: seq<Inode>, i: nat)
    requires i < |dinodes| && lay.InodeBlock(i) < |blocks|
    ensures InodeRead(lay, Image(lay, blocks, dinodes), i, dinodes[i])
  {
    assert Image(lay, blocks, dinodes)[lay.InodeBlock(i)].inodes == InodesIn(lay, dinodes, lay.InodeBlock(i));
  }

  /** Blocks outside the transaction look as they did when it began. */
  lemma ImageNoted(lay: F.Layout, base: seq<F.Block>, blocks: seq<F.Block>, dbase: seq<Inode>, dinodes: seq<Inode>,
                   logged: set<nat>, x: nat)
    requires F.Noted(lay, base, blocks, dbase, dinodes, logged) && x < |blocks| && x !in logged
    ensures Image(lay, blocks, dinodes)[x] == Image(lay, base, dbase)[x]
  {
    assert Unfold(0);
    assert InodesIn(lay, dinodes, x) == InodesIn(lay, dbase, x) by {
      forall i: nat | i < |dbase| && lay.InodeBlock(i) == x
        ensures dinodes[i] == dbase[i]
      {
      }
    }
  }

  // ----- commit -----

  /** lh lists the blocks of the transaction, each once. */
  ghost predicate Lists(lh: seq<nat>, logged: set<nat>) {
    (forall b :: b in lh <==> b in logged) && forall i, j :: 0 <= i < j < |lh| ==> lh[i] != lh[j]
  }

  lemma {:induction false} ListsAll(lh: seq<nat>, logged: set<nat>)
    requires Lists(lh, logged)
    ensures |lh| == |logged|
    decreases |lh|
  {
    if lh == [] {
      assert logged == {};
    } else {
      var n := |lh| - 1;
      assert lh[n] in logged;
      forall b
        ensures b in lh[..n] <==> b in logged - {lh[n]}
      {
        if b in lh && b != lh[n] {
          var j :| 0 <= j < |lh| && lh[j] == b;
          assert lh[..n][j] == b;
        }
      }
      ListsAll(lh[..n], logged - {lh[n]});
    }
  }

  method Header(logged: set<nat>) returns (lh: seq<nat>)
    ensures Lists(lh, logged)
  {
    lh := [];
    var rest := logged;
    while rest != {}
      invariant rest <= logged && Lists(lh, logged - rest)
      decreases |rest|
    {
      var b :| b in rest;
      ghost var lh0 := lh;
      lh := lh + [b];
      rest := rest - {b};
      ListsOneMore(lh0, logged - (rest + {b}), b);
      assert logged - (rest + {b}) + {b} == logged - rest;
    }
  }

  lemma ListsOneMore(lh: seq<nat>, logged: set<nat>, b: nat)
    requires Lists(lh, logged) && b !in logged
    ensures Lists(lh + [b], logged + {b})
  {
  }

  /** The disk holds this file system at home and no transaction in the log. */
  ghost predicate OnDisk(a: R.Area, d: R.Disk<Cell>, lay: F.Layout, blocks: seq<F.Block>, dinodes: seq<Inode>) {
    d.head == [] && R.SameHome(a, d.blocks, Image(lay, blocks, dinodes))
  }

  /** What the file system logged is what the log needs: the listed blocks fit,
      none is in the log area, and no other home block has changed. */
  lemma LogCovers(lay: F.Layout, a: R.Area, d: R.Disk<Cell>, base: seq<F.Block>, blocks: seq<F.Block>,
                  dbase: seq<Inode>, dinodes: seq<Inode>, logged: set<nat>, lh: seq<nat>)
    requires Apart(lay, a) && |blocks| == lay.size && F.Noted(lay, base, blocks, dbase, dinodes, logged)
    requires OnDisk(a, d, lay, base, dbase) && Lists(lh, logged) && |logged| <= R.LOGSIZE && |logged| < a.size
    ensures |lh| == |logged| && a.Loggable(lay.size, lh) && R.CachedView(a, d, Image(lay, blocks, dinodes), lh)
  {
    ListsAll(lh, logged);
    assert Unfold(0);
    forall i | 0 <= i < |lh|
      ensures lh[i] < lay.size && !a.Holds(lh[i])
    {
      assert lh[i] in logged;
      HomeApart(lay, a, lh[i]);
    }
    forall b: nat | b < lay.size && b !in lh
      ensures Image(lay, blocks, dinodes)[b] == Image(lay, base, dbase)[b]
    {
      ImageNoted(lay, base, blocks, dbase, dinodes, logged, b);
    }
  }

  /** True when a transaction of n blocks survives: its commit meets no crash,
      or the crash comes after the header is on disk. */
  predicate Kept(crash: Option<(nat, seq<nat>)>, n: nat) {
    crash.None? || crash.value.0 > n
  }

  /** commit; with crash (k, ks) it stops after k writes, recoveries stop after
      ks[0], ks[1], ... writes, and one recovery completes. */
  method Commit(lay: F.Layout, a: R.Area, d: R.Disk<Cell>, blocks: seq<F.Block>, dinodes: seq<Inode>, lh: seq<nat>,
                crash: Option<(nat, seq<nat>)>,
                ghost base: seq<F.Block>, ghost dbase: seq<Inode>, ghost logged: set<nat>) returns (d1: R.Disk<Cell>)
    requires Apart(lay, a) && |blocks| == lay.size && F.Noted(lay, base, blocks, dbase, dinodes, logged)
    requires OnDisk(a, d, lay, base, dbase) && Lists(lh, logged) && |logged| <= R.LOGSIZE && |logged| < a.size
    ensures if Kept(crash, |lh|) then OnDisk(a, d1, lay, blocks, dinodes) else OnDisk(a, d1, lay, base, dbase)
  {
    var v := Image(lay, blocks, dinodes);
    LogCovers(lay, a, d, base, blocks, dbase, dinodes, logged, lh);
    match crash {
      case None =>
        R.CommitCompletes(a, d, v, lh);
        d1 := R.Apply(d, R.CommitWrites(a, v, lh));
      case Some((k0, ks)) =>
        var n := |R.CommitWrites(a, v, lh)|;
        var k := if k0 < n then k0 else n;
        R.CrashAtomicity(a, d, v, lh, k, ks);
        d1 := R.Recover(a, R.CrashedRecoveries(a, R.CrashedCommit(a, d, v, lh, k), ks));
    }
  }

  // ----- mounting -----

  /** log_write panics when it finds this many blocks in the log. */
  function Limit(a: R.Area): nat {
    if a.size == 0 then 0 else if R.LOGSIZE < a.size - 1 then R.LOGSIZE else a.size - 1
  }

  /** It is log_write's test, in numbers. */
  lemma LimitIs(a: R.Area, n: nat)
    requires a.size > 0
    ensures n < Limit(a) <==> L.Accepts(a.size, n)
    ensures n < Limit(a) <==> n < 30 && n < a.size - 1
  {
  }

  /** fs is mounted from disk d, and no transaction is under way. */
  ghost predicate Mounted(fs: F.Disk, a: R.Area, d: R.Disk<Cell>)
    reads fs
  {
    fs.Ok() && !fs.over && fs.limit == Limit(a) && Apart(fs.lay, a) && OnDisk(a, d, fs.lay, fs.blocks, fs.dinodes)
  }

  /** Rep reads home blocks only. */
  lemma RepHome(lay: F.Layout, blocks: seq<F.Block>, blocks1: seq<F.Block>, s: State<F.Byte>)
    requires lay.Fits() && F.Rep(lay, blocks, s) && |blocks1| == |blocks|
    requires forall b: nat :: lay.Home(b) ==> blocks1[b] == blocks[b]
    ensures F.Rep(lay, blocks1, s)
  {
    assert Unfold(0);
    forall b | 0 <= b < lay.size
      ensures s.used[b] <==> F.Bit(lay, blocks1, b)
    {
      F.HomeBit(lay, b);
      assert s.used[b] <==> F.Bit(lay, blocks, b);
    }
    forall b | lay.datastart <= b < lay.size
      ensures blocks1[b] == blocks[b]
    {
      F.HomeData(lay, b);
    }
  }

  /** The home blocks of a disk that holds a file system, as a mount reads them. */
  lemma MountReads(lay: F.Layout, a: R.Area, d: R.Disk<Cell>, blocks: seq<F.Block>, dinodes: seq<Inode>)
    requires lay.Fits() && Apart(lay, a) && |blocks| == lay.size && OnDisk(a, d, lay, blocks, dinodes)
    ensures forall b: nat :: lay.Home(b) ==> Raw(d.blocks)[b] == blocks[b]
    ensures lay.HasInodes(|dinodes|) ==> forall i: nat :: i < |dinodes| ==> InodeRead(lay, d.blocks, i, dinodes[i])
  {
    forall b: nat | lay.Home(b)
      ensures d.blocks[b] == Image(lay, blocks, dinodes)[b]
    {
      HomeApart(lay, a, b);
    }
    if lay.HasInodes(|dinodes|) {
      forall i: nat | i < |dinodes|
        ensures InodeRead(lay, d.blocks, i, dinodes[i])
      {
        F.HomeInode(lay, |dinodes|, i);
        InodeShown(lay, blocks, dinodes, i);
      }
    }
  }

  method ReadInodes(lay: F.Layout, img: seq<Cell>, n: nat, ghost dinodes: seq<Inode>) returns (inodes: seq<Inode>)
    requires n == |dinodes| && forall i: nat :: i < n ==> InodeRead(lay, img, i, dinodes[i])
    ensures inodes == dinodes
  {
    inodes := [];
    while |inodes| < n
      invariant |inodes| <= n && inodes == dinodes[..|inodes|]
    {
      var i := |inodes|;
      assert InodeRead(lay, img, i, dinodes[i]);
      inodes := inodes + [img[lay.InodeBlock(i)].inodes[i % F.IPB]];
    }
  }

  /** Mounting a disk that holds a file system gives its files, whatever is left
      in the log area. */
  method Mount(lay: F.Layout, a: R.Area, d: R.Disk<Cell>, n: nat,
               ghost blocks: seq<F.Block>, ghost s: State<F.Byte>, ghost owner: map<nat, Slot>,
               ghost places: F.Places, ghost files: seq<seq<F.Byte>>)
    returns (fs: F.Disk)
    requires lay.Fits() && lay.HasInodes(n) && n == |s.inodes| && Apart(lay, a)
    requires F.Rep(lay, blocks, s) && F.Sound(s, lay.datastart, owner, files) && F.Placed(s, places)
    requires OnDisk(a, d, lay, blocks, s.inodes)
    ensures fresh(fs) && fs.lay == lay && fs.files == files && |fs.inodes| == n && fs.places == places
    ensures Mounted(fs, a, d)
  {
    MountReads(lay, a, d, blocks, s.inodes);
    var inodes := ReadInodes(lay, d.blocks, n, s.inodes);
    RepHome(lay, blocks, Raw(d.blocks), s);
    F.PlacedIs(s, places);
    assert Unfold(0);
    fs := new F.Disk(lay, Limit(a), Raw(d.blocks), inodes, s, owner, files);
  }

  // ----- transactions -----

  /** How a transaction ends: with its commit, or in a panic of balloc, of
      log_write, or of the first bread of the commit. */
  datatype Outcome = Done | DiskFull | TooBig | NoBuffers

  datatype Transaction = Transaction(ops: seq<F.Op>, crash: Option<(nat, seq<nat>)>)

  /** By how its operations end and the number of blocks logged. */
  function OutcomeOf(end: A.End, n: nat): Outcome {
    match end
    case NoBlock => DiskFull
    case LogFull => TooBig
    case Done => if n >= B.NBUF then NoBuffers else Outcome.Done
  }

  /** What a transaction comes to: how it ends, whether it is kept, its answers, the
      block map and the files that it leaves, and the blocks that its operations pass
      to log_write. */
  datatype Result = Result(out: Outcome, kept: bool, replies: seq<F.Reply>, p: F.Places, files: seq<seq<F.Byte>>,
                           calls: seq<nat>)

  ghost function Serve(lay: F.Layout, a: R.Area, p: F.Places, files: seq<seq<F.Byte>>, t: Transaction): (r: Result)
    requires |p.plans| == |files| && F.AllOps(t.ops, |files|)
    ensures |r.p.plans| == |r.files| == |files|
  {
    var r := F.RunEnd(lay, Limit(a), p, files, t.ops, []);
    var n := |A.Elems(r.calls)|;
    var out := OutcomeOf(r.end, n);
    var kept := out.Done? && Kept(t.crash, n);
    Result(out, kept, r.replies, if kept then r.p else p, if kept then r.files else files, r.calls)
  }

  /** Some call of log_write comes when the log has LOGSIZE blocks or fills its area. */
  ghost predicate LogRefuses(a: R.Area, calls: seq<nat>) {
    exists k :: 0 <= k < |calls| && (|A.Elems(calls[..k])| >= 30 || |A.Elems(calls[..k])| >= a.size - 1)
  }

  /** How a transaction ends, in numbers: by the blocks that it passes to log_write. */
  ghost predicate EndsBy(a: R.Area, t: Transaction, r: Result) {
    var n := |A.Elems(r.calls)|;
    && (r.out.TooBig? <==> LogRefuses(a, r.calls))
    && (r.out.NoBuffers? ==> n >= 30) && (r.out.Done? ==> n < 30 && |r.replies| == |t.ops|)
    && (r.out.DiskFull? ==> |r.replies| < |t.ops| && t.ops[|r.replies|].WriteOp?)
    && (r.kept <==> r.out.Done? && (t.crash.None? || t.crash.value.0 > n))
  }

  lemma ServeEnds(lay: F.Layout, a: R.Area, p: F.Places, files: seq<seq<F.Byte>>, t: Transaction)
    requires |p.plans| == |files| && F.AllOps(t.ops, |files|) && a.size > 0 && p.Sane()
    ensures EndsBy(a, t, Serve(lay, a, p, files, t)) && Serve(lay, a, p, files, t).p.Sane()
  {
    var r := F.RunEnd(lay, Limit(a), p, files, t.ops, []);
    F.RunFull(lay, Limit(a), p, files, t.ops, []);
    F.RunStops(lay, Limit(a), p, files, t.ops, []);
    A.OverfullMeans(r.calls, Limit(a));
    forall k | 0 <= k < |r.calls|
      ensures |A.Elems(r.calls[..k])| >= Limit(a) <==>
              |A.Elems(r.calls[..k])| >= 30 || |A.Elems(r.calls[..k])| >= a.size - 1
    {
      LimitIs(a, |A.Elems(r.calls[..k])|);
    }
  }

  /** A commit of that many blocks, with nobody else about, finds its buffers exactly
      if the transaction does not end for lack of them. */
  lemma NoBuffersIs<T>(c: B.Cache<T>, a: R.Area, lh: seq<nat>)
    requires W.Steady(c, lh) && W.Quiet(c.g) && W.Nodup(lh) && a.Loggable(|c.disk|, lh) && lh != []
    ensures OutcomeOf(A.Done, |lh|).NoBuffers? <==> !W.CanCommit(c.bufs, a, |lh|)
    ensures OutcomeOf(A.Done, |lh|).NoBuffers? <==> |lh| >= 30
  {
    W.QuietCommits(c, a, lh);
  }

  /** Folded except where a proof mentions Unfold. */
  ghost predicate Serves(lay: F.Layout, a: R.Area, p: F.Places, files: seq<seq<F.Byte>>, t: Transaction, r: Result) {
    && |p.plans| == |files| && F.AllOps(t.ops, |files|) && |r.p.plans| == |r.files| == |files|
    && forall k {:trigger Unfold(k)} :: k >= 0 ==> r == Serve(lay, a, p, files, t)
  }

  /** Operations that keep to their share of the log. */
  predicate Modest(lay: F.Layout, a: R.Area, ops: seq<F.Op>) {
    F.AllSmall(lay, ops) && 10 * |ops| < 30 && 10 * |ops| < a.size - 1
  }

  /** In numbers: reads, writes of up to three blocks, and truncations on a disk of nine
      bitmap blocks, as many as the log has room for with ten blocks each. */
  lemma ModestIs(lay: F.Layout, a: R.Area, ops: seq<F.Op>)
    ensures Modest(lay, a, ops) <==>
              10 * |ops| < 30 && 10 * |ops| < a.size - 1 && forall k :: 0 <= k < |ops| ==>
                || ops[k].ReadOp? || (ops[k].WriteOp? && |ops[k].src| <= 3 * 1024)
                || (ops[k].TruncOp? && lay.size <= 9 * 8192)
  {
    assert F.AllSmall(lay, ops) <==> forall k :: 0 <= k < |ops| ==> F.Small(lay, ops[k]);
  }

  /** The writes of log_write that its operations make fit in the log. */
  lemma FitsLog(a: R.Area, calls: seq<nat>)
    requires !A.Overfull(calls, Limit(a)) && 0 < a.size
    ensures |A.Elems(calls)| <= R.LOGSIZE && |A.Elems(calls)| < a.size
  {
    A.OverfullByCount(calls, Limit(a));
  }

  /** One transaction: a run of operations, its commit, and its crash if it
      meets one, after which the disk is mounted again; a panic is a crash before
      any write of the commit. What it comes to is a function of the operations, the
      crash, the block map and the files: those after the whole run, or those
      before it, as the header decides. */
  method Transact(fs: F.Disk, a: R.Area, d: R.Disk<Cell>, t: Transaction)
    returns (out: Outcome, kept: bool, fs1: F.Disk, d1: R.Disk<Cell>, replies: seq<F.Reply>, ghost r: Result)
    requires Mounted(fs, a, d) && OpsFor(t, |fs.inodes|)
    modifies fs
    ensures (fs1 == fs || fresh(fs1)) && Mounted(fs1, a, d1) && |fs1.inodes| == |old(fs.inodes)| && fs1.lay == fs.lay
    ensures Serves(fs.lay, a, old(fs.places), old(fs.files), t, r)
    ensures out == r.out && kept == r.kept && replies == r.replies && fs1.places == r.p && fs1.files == r.files
    ensures EndsBy(a, t, r)
    ensures Modest(fs.lay, a, t.ops) ==> out.Done? || out.DiskFull?
    ensures !out.Done? ==> d1 == d
  {
    var n := |fs.inodes|;
    ghost var lay, blocks, s, owner, places, files := fs.lay, fs.blocks, fs.s, fs.owner, fs.places, fs.files;
    fs.Begin();
    var end;
    end, replies := F.Run(fs, t.ops);
    r := Serve(lay, a, places, files, t);
    F.PlacedSane(s, lay.datastart, owner, files, places);
    ServeEnds(lay, a, places, files, t);
    ModestFits(lay, a, places, files, t, fs.calls);
    d1, kept := d, false;
    if !end.Done? {
      out := OutcomeOf(end, 0);
      fs1 := Mount(fs.lay, a, d, n, blocks, s, owner, places, files);
      return;
    }
    F.CalledIs(fs.logged, fs.over, fs.calls, fs.limit);
    out := OutcomeOf(end, |fs.logged|);
    if out.Done? {
      kept, d1 := CommitRun(fs, a, d, t.crash);
    }
    if kept && t.crash.None? {
      fs1 := fs;
    } else if kept {
      fs1 := Mount(fs.lay, a, d1, n, fs.blocks, fs.s, fs.owner, fs.places, fs.files);
    } else {
      fs1 := Mount(fs.lay, a, d1, n, blocks, s, owner, places, files);
    }
  }

  /** The commit of what fs has logged. */
  method CommitRun(fs: F.Disk, a: R.Area, d: R.Disk<Cell>, crash: Option<(nat, seq<nat>)>)
    returns (kept: bool, d1: R.Disk<Cell>)
    requires fs.Ok() && !fs.over && fs.limit == Limit(a) && Apart(fs.lay, a)
    requires OnDisk(a, d, fs.lay, fs.base, fs.dbase) && |fs.logged| < B.NBUF
    ensures kept == Kept(crash, |fs.logged|)
    ensures if kept then OnDisk(a, d1, fs.lay, fs.blocks, fs.dinodes) else OnDisk(a, d1, fs.lay, fs.base, fs.dbase)
  {
    F.CalledIs(fs.logged, fs.over, fs.calls, fs.limit);
    FitsLog(a, fs.calls);
    var lh := Header(fs.logged);
    ListsAll(lh, fs.logged);
    d1 := Commit(fs.lay, a, d, fs.blocks, fs.dinodes, lh, crash, fs.base, fs.dbase, fs.logged);
    kept := Kept(crash, |lh|);
  }

  /** Operations that keep to their share of the log do not fill it, nor the cache. */
  lemma ModestFits(lay: F.Layout, a: R.Area, p: F.Places, files: seq<seq<F.Byte>>, t: Transaction, calls: seq<nat>)
    requires |p.plans| == |files| && F.AllOps(t.ops, |files|)
    requires calls == F.RunEnd(lay, Limit(a), p, files, t.ops, []).calls
    requires Modest(lay, a, t.ops) ==> |A.Elems(calls)| <= L.MAXOPBLOCKS * |t.ops|
    ensures var out := Serve(lay, a, p, files, t).out; Modest(lay, a, t.ops) ==> out.Done? || out.DiskFull?
  {
    F.RunFull(lay, Limit(a), p, files, t.ops, []);
    A.OverfullByCount(calls, Limit(a));
    if a.size > 0 { LimitIs(a, L.MAXOPBLOCKS * |t.ops|); }
  }

  // ----- histories -----

  /** The operations are on n files; folded. */
  ghost predicate AllFor(ts: seq<Transaction>, n: nat) {
    forall k {:trigger Unfold(k)} :: k >= 0 ==> forall j {:trigger ts[j]} :: 0 <= j < |ts| ==> OpsFor(ts[j], n)
  }

  predicate OpsFor(t: Transaction, n: nat) {
    forall k :: 0 <= k < |t.ops| ==> F.OpFor(t.ops[k], n)
  }

  lemma AllForAt(ts: seq<Transaction>, n: nat, j: nat)
    requires AllFor(ts, n) && j < |ts|
    ensures OpsFor(ts[j], n) && F.AllOps(ts[j].ops, n)
  {
    assert Unfold(0);
  }

  lemma AllForRest(ts: seq<Transaction>, n: nat)
    requires AllFor(ts, n) && ts != []
    ensures AllFor(ts[1..], n) && F.AllOps(ts[0].ops, n)
  {
    assert Unfold(0);
  }

  lemma AllForFrom(ts: seq<Transaction>, n: nat, j: nat)
    requires AllFor(ts, n) && j <= |ts|
    ensures AllFor(ts[j..], n)
  {
    assert Unfold(0);
  }

  /** What each transaction of a history comes to. */
  ghost function HistoryOf(lay: F.Layout, a: R.Area, p: F.Places, files: seq<seq<F.Byte>>, ts: seq<Transaction>)
    : (rs: seq<Result>)
    requires |p.plans| == |files| && AllFor(ts, |files|)
    ensures |rs| == |ts|
    decreases |ts|
  {
    if ts == [] then []
    else
      AllForRest(ts, |files|);
      var r := Serve(lay, a, p, files, ts[0]);
      [r] + HistoryOf(lay, a, r.p, r.files, ts[1..])
  }

  /** The files at the end. */
  function FilesLeft(files: seq<seq<F.Byte>>, rs: seq<Result>): seq<seq<F.Byte>> {
    if rs == [] then files else rs[|rs| - 1].files
  }

  /** The files when the transactions that are kept happen at once and the
      others not at all. */
  ghost function FilesKept(files: seq<seq<F.Byte>>, ts: seq<Transaction>, rs: seq<Result>): seq<seq<F.Byte>>
    requires |rs| == |ts| && AllFor(ts, |files|)
    decreases |ts|
  {
    if ts == [] then files
    else
      AllForRest(ts, |files|);
      FilesKept(if rs[0].kept then F.FilesAll(files, ts[0].ops) else files, ts[1..], rs[1..])
  }

  /** Each transaction answers as plain byte sequences would, with the files that the
      kept ones before it have left; a panic cuts its answers short. */
  ghost predicate Answers(files: seq<seq<F.Byte>>, ts: seq<Transaction>, rs: seq<Result>)
    requires |rs| == |ts| && AllFor(ts, |files|)
    decreases |ts|
  {
    if ts == [] then true
    else
      AllForRest(ts, |files|);
      && rs[0].replies <= F.Replies(files, ts[0].ops) && (rs[0].out.Done? ==> |rs[0].replies| == |ts[0].ops|)
      && Answers(if rs[0].kept then F.FilesAll(files, ts[0].ops) else files, ts[1..], rs[1..])
  }

  /** Every history answers and ends as if each transaction had happened at once or
      not at all. */
  lemma {:induction false} HistoryAnswers(lay: F.Layout, a: R.Area, p: F.Places, files: seq<seq<F.Byte>>,
                                          ts: seq<Transaction>)
    requires |p.plans| == |files| && AllFor(ts, |files|)
    ensures var rs := HistoryOf(lay, a, p, files, ts);
            Answers(files, ts, rs) && FilesLeft(files, rs) == FilesKept(files, ts, rs)
    decreases |ts|
  {
    if ts != [] {
      AllForRest(ts, |files|);
      AllForAt(ts, |files|, 0);
      var r := ServeAnswers(lay, a, p, files, ts[0]);
      HistoryNext(lay, a, p, files, ts, r);
      HistoryAnswers(lay, a, r.p, r.files, ts[1..]);
      AnswersNext(files, ts, r, HistoryOf(lay, a, r.p, r.files, ts[1..]));
    }
  }

  /** Every transaction of a history ends by the blocks that it passes to log_write. */
  lemma {:induction false} HistoryEnds(lay: F.Layout, a: R.Area, p: F.Places, files: seq<seq<F.Byte>>,
                                       ts: seq<Transaction>, k: nat)
    requires |p.plans| == |files| && AllFor(ts, |files|) && a.size > 0 && p.Sane() && k < |ts|
    ensures EndsBy(a, ts[k], HistoryOf(lay, a, p, files, ts)[k])
    decreases |ts|
  {
    AllForRest(ts, |files|);
    AllForAt(ts, |files|, 0);
    ServeEnds(lay, a, p, files, ts[0]);
    var r := Serve(lay, a, p, files, ts[0]);
    if k > 0 {
      HistoryEnds(lay, a, r.p, r.files, ts[1..], k - 1);
      assert ts[1..][k - 1] == ts[k];
    }
  }

  /** The transaction is lost or does not change file i. */
  predicate Spares(t: Transaction, r: Result, i: nat) {
    !r.kept || F.AllLeave(t.ops, i)
  }

  /** The files before transaction u. */
  function FilesAt(files: seq<seq<F.Byte>>, rs: seq<Result>, u: nat): seq<seq<F.Byte>>
    requires u <= |rs|
  {
    if u == 0 then files else rs[u - 1].files
  }

  /** A transaction of a history answers by the files before it. */
  lemma {:induction false} HistoryServes(lay: F.Layout, a: R.Area, p: F.Places, files: seq<seq<F.Byte>>,
                                         ts: seq<Transaction>, u: nat)
    requires |p.plans| == |files| && AllFor(ts, |files|) && u < |ts|
    ensures var rs := HistoryOf(lay, a, p, files, ts);
            var f := FilesAt(files, rs, u);
            |f| == |files| == |rs[u].files| && F.AllOps(ts[u].ops, |f|) && ServedOne(f, ts[u], rs[u])
    decreases |ts|
  {
    AllForRest(ts, |files|);
    AllForAt(ts, |files|, 0);
    var r := ServeAnswers(lay, a, p, files, ts[0]);
    HistoryNext(lay, a, p, files, ts, r);
    var rest := HistoryOf(lay, a, r.p, r.files, ts[1..]);
    if u > 0 {
      HistoryServes(lay, a, r.p, r.files, ts[1..], u - 1);
      FilesAtNext(files, r, rest, u);
      assert ts[1..][u - 1] == ts[u];
    }
  }

  lemma FilesAtNext(files: seq<seq<F.Byte>>, r: Result, rest: seq<Result>, u: nat)
    requires 0 < u <= |rest|
    ensures FilesAt(files, [r] + rest, u) == FilesAt(r.files, rest, u - 1) && ([r] + rest)[u] == rest[u - 1]
  {
  }

  ghost predicate ServedAt(files: seq<seq<F.Byte>>, ts: seq<Transaction>, rs: seq<Result>, u: nat)
    requires u < |rs| == |ts|
  {
    var f := FilesAt(files, rs, u);
    |f| == |files| && F.AllOps(ts[u].ops, |f|) && ServedOne(f, ts[u], rs[u])
  }

  /** Every transaction answers by the files before it. */
  ghost predicate AllServed(files: seq<seq<F.Byte>>, ts: seq<Transaction>, rs: seq<Result>) {
    |rs| == |ts| && forall u :: 0 <= u < |rs| ==> ServedAt(files, ts, rs, u)
  }

  lemma HistoryServesAll(lay: F.Layout, a: R.Area, p: F.Places, files: seq<seq<F.Byte>>, ts: seq<Transaction>)
    requires |p.plans| == |files| && AllFor(ts, |files|)
    ensures AllServed(files, ts, HistoryOf(lay, a, p, files, ts))
  {
    forall u | 0 <= u < |ts|
      ensures ServedAt(files, ts, HistoryOf(lay, a, p, files, ts), u)
    {
      HistoryServes(lay, a, p, files, ts, u);
    }
  }

  /** What file i holds before transaction t it still holds before transaction u, if
      none between changes it. */
  lemma {:induction false} FileSpared(files: seq<seq<F.Byte>>, ts: seq<Transaction>, rs: seq<Result>, t: nat, u: nat,
                                      i: nat)
    requires AllServed(files, ts, rs) && t <= u < |ts| && i < |files|
    requires forall v :: t <= v < u ==> Spares(ts[v], rs[v], i)
    ensures |FilesAt(files, rs, t)| == |FilesAt(files, rs, u)| == |files|
    ensures FilesAt(files, rs, u)[i] == FilesAt(files, rs, t)[i]
    decreases u - t
  {
    assert ServedAt(files, ts, rs, t) && ServedAt(files, ts, rs, u);
    if t < u {
      FileSpared(files, ts, rs, t, u - 1, i);
      var f := FilesAt(files, rs, u - 1);
      assert ServedAt(files, ts, rs, u - 1) && Spares(ts[u - 1], rs[u - 1], i);
      if rs[u - 1].kept { F.FilesLeave(f, ts[u - 1].ops, i); }
    }
  }

  predicate Holds(c: seq<F.Byte>, off: nat, src: seq<F.Byte>) {
    off + |src| <= |c| && off + |src| <= 268 * 1024 && c[off..off + |src|] == src
  }

  /** A file holds what was written to it last. */
  lemma WrittenFile(files: seq<seq<F.Byte>>, ops: seq<F.Op>, j: nat, i: nat, off: F.Word, src: seq<F.Byte>)
    requires F.AllOps(ops, |files|) && j < |ops| && ops[j] == F.WriteOp(i, off, src) && F.AllLeave(ops[j + 1..], i)
    requires F.Replies(files, ops)[j] != F.Count(-1)
    ensures Holds(F.FilesAll(files, ops)[i], off, src)
  {
    F.RepliesAt(files, ops, j);
    assert ops[j + 1..|ops|] == ops[j + 1..] && ops[..|ops|] == ops;
    F.FileBetween(files, ops, j, |ops|, i);
    var c := F.FilesAll(files, ops[..j])[i];
    F.SpliceRead(c, off, src);
  }

  /** A file that holds src reads as src, until it is changed. */
  lemma ReadsHeld(files: seq<seq<F.Byte>>, ops: seq<F.Op>, k: nat, i: nat, off: F.Word, src: seq<F.Byte>)
    requires F.AllOps(ops, |files|) && k < |ops| && i < |files| && Holds(files[i], off, src)
    requires |src| < 0x1_0000_0000 && ops[k] == F.ReadOp(i, off, |src|) && F.AllLeave(ops[..k], i)
    ensures F.Replies(files, ops)[k] == F.Bytes(src)
  {
    F.RepliesAt(files, ops, k);
    F.FilesLeave(files, ops[..k], i);
  }

  /** A write that a transaction has kept is read back in every later transaction,
      across all crashes and panics, until the file is changed again. */
  lemma Durable(lay: F.Layout, a: R.Area, p: F.Places, files: seq<seq<F.Byte>>, ts: seq<Transaction>, t: nat, j: nat,
                u: nat, k: nat, i: nat, off: F.Word, src: seq<F.Byte>)
    requires |p.plans| == |files| && AllFor(ts, |files|) && t < u < |ts| && i < |files|
    requires var rs := HistoryOf(lay, a, p, files, ts);
             && rs[t].kept && j < |ts[t].ops| == |rs[t].replies| && rs[t].replies[j] != F.Count(-1)
             && (forall v :: t < v < u ==> Spares(ts[v], rs[v], i)) && k < |rs[u].replies| <= |ts[u].ops|
    requires ts[t].ops[j] == F.WriteOp(i, off, src) && F.AllLeave(ts[t].ops[j + 1..], i)
    requires |src| < 0x1_0000_0000 && ts[u].ops[k] == F.ReadOp(i, off, |src|) && F.AllLeave(ts[u].ops[..k], i)
    ensures HistoryOf(lay, a, p, files, ts)[u].replies[k] == F.Bytes(src)
  {
    HistoryServesAll(lay, a, p, files, ts);
    ReadBack(files, ts, HistoryOf(lay, a, p, files, ts), t, j, u, k, i, off, src);
  }

  lemma ReadBack(files: seq<seq<F.Byte>>, ts: seq<Transaction>, rs: seq<Result>, t: nat, j: nat, u: nat, k: nat, i: nat,
                 off: F.Word, src: seq<F.Byte>)
    requires AllServed(files, ts, rs) && t < u < |ts| && i < |files|
    requires rs[t].kept && j < |ts[t].ops| == |rs[t].replies| && rs[t].replies[j] != F.Count(-1)
    requires (forall v :: t < v < u ==> Spares(ts[v], rs[v], i)) && k < |rs[u].replies| <= |ts[u].ops|
    requires ts[t].ops[j] == F.WriteOp(i, off, src) && F.AllLeave(ts[t].ops[j + 1..], i)
    requires |src| < 0x1_0000_0000 && ts[u].ops[k] == F.ReadOp(i, off, |src|) && F.AllLeave(ts[u].ops[..k], i)
    ensures rs[u].replies[k] == F.Bytes(src)
  {
    var f, g := FilesAt(files, rs, t), FilesAt(files, rs, u);
    assert ServedAt(files, ts, rs, t) && ServedAt(files, ts, rs, u);
    KeptHolds(f, ts[t], rs[t], j, i, off, src);
    FileSpared(files, ts, rs, t + 1, u, i);
    ServedReads(g, ts[u], rs[u], k, i, off, src);
  }

  lemma KeptHolds(files: seq<seq<F.Byte>>, t: Transaction, r: Result, j: nat, i: nat, off: F.Word, src: seq<F.Byte>)
    requires F.AllOps(t.ops, |files|) && ServedOne(files, t, r) && r.kept && i < |files|
    requires j < |t.ops| == |r.replies| && r.replies[j] != F.Count(-1)
    requires t.ops[j] == F.WriteOp(i, off, src) && F.AllLeave(t.ops[j + 1..], i)
    ensures i < |r.files| && Holds(r.files[i], off, src)
  {
    WrittenFile(files, t.ops, j, i, off, src);
  }

  lemma ServedReads(files: seq<seq<F.Byte>>, t: Transaction, r: Result, k: nat, i: nat, off: F.Word, src: seq<F.Byte>)
    requires F.AllOps(t.ops, |files|) && ServedOne(files, t, r) && i < |files| && Holds(files[i], off, src)
    requires k < |r.replies| <= |t.ops| && |src| < 0x1_0000_0000
    requires t.ops[k] == F.ReadOp(i, off, |src|) && F.AllLeave(t.ops[..k], i)
    ensures r.replies[k] == F.Bytes(src)
  {
    ReadsHeld(files, t.ops, k, i, off, src);
  }

  /** A transaction answers as plain byte sequences would, and leaves the files after
      all of it or before it. */
  lemma ServeAnswers(lay: F.Layout, a: R.Area, p: F.Places, files: seq<seq<F.Byte>>, t: Transaction)
    returns (r: Result)
    requires |p.plans| == |files| && F.AllOps(t.ops, |files|)
    ensures Serves(lay, a, p, files, t, r) && ServedOne(files, t, r)
  {
    r := Serve(lay, a, p, files, t);
    F.RunServes(lay, Limit(a), p, files, t.ops, []);
  }

  ghost predicate ServedOne(files: seq<seq<F.Byte>>, t: Transaction, r: Result)
    requires F.AllOps(t.ops, |files|)
  {
    && r.replies <= F.Replies(files, t.ops) && (r.out.Done? ==> |r.replies| == |t.ops|)
    && r.files == if r.kept then F.FilesAll(files, t.ops) else files
  }

  lemma AnswersNext(files: seq<seq<F.Byte>>, ts: seq<Transaction>, r: Result, rest: seq<Result>)
    requires ts != [] && AllFor(ts, |files|) && F.AllOps(ts[0].ops, |files|) && ServedOne(files, ts[0], r)
    requires |rest| == |ts| - 1 && AllFor(ts[1..], |r.files|) && Answers(r.files, ts[1..], rest)
    requires FilesLeft(r.files, rest) == FilesKept(r.files, ts[1..], rest)
    ensures Answers(files, ts, [r] + rest) && FilesLeft(files, [r] + rest) == FilesKept(files, ts, [r] + rest)
  {
    AllForRest(ts, |files|);
    assert ([r] + rest)[1..] == rest;
  }

  /** The results of the first transactions, with what the others come to; folded. */
  ghost predicate Sofar(lay: F.Layout, a: R.Area, all: seq<Result>, ts: seq<Transaction>, rs: seq<Result>,
                        p: F.Places, files: seq<seq<F.Byte>>) {
    && |rs| <= |ts| && |p.plans| == |files| && AllFor(ts, |files|)
    && forall k {:trigger Unfold(k)} :: k >= 0 ==>
      (AllForFrom(ts, |files|, |rs|); all == rs + HistoryOf(lay, a, p, files, ts[|rs|..]))
  }

  lemma SofarNone(lay: F.Layout, a: R.Area, p: F.Places, files: seq<seq<F.Byte>>, ts: seq<Transaction>)
    requires |p.plans| == |files| && AllFor(ts, |files|)
    ensures Sofar(lay, a, HistoryOf(lay, a, p, files, ts), ts, [], p, files)
  {
    assert ts[0..] == ts;
    var rs := HistoryOf(lay, a, p, files, ts);
    assert [] + rs == rs;
  }

  lemma HistoryNext(lay: F.Layout, a: R.Area, p: F.Places, files: seq<seq<F.Byte>>, ts: seq<Transaction>, r: Result)
    requires ts != [] && AllFor(ts, |files|) && Serves(lay, a, p, files, ts[0], r)
    ensures AllFor(ts[1..], |files|)
    ensures HistoryOf(lay, a, p, files, ts) == [r] + HistoryOf(lay, a, r.p, r.files, ts[1..])
  {
    AllForRest(ts, |files|);
    assert r == Serve(lay, a, p, files, ts[0]) by { assert Unfold(0); }
  }

  lemma SofarNext(lay: F.Layout, a: R.Area, all: seq<Result>, ts: seq<Transaction>, rs: seq<Result>, p: F.Places,
                  files: seq<seq<F.Byte>>, r: Result)
    requires Sofar(lay, a, all, ts, rs, p, files) && |rs| < |ts| && Serves(lay, a, p, files, ts[|rs|], r)
    ensures Sofar(lay, a, all, ts, rs + [r], r.p, r.files)
  {
    var left, rest := ts[|rs|..], ts[|rs| + 1..];
    AllForFrom(ts, |files|, |rs|);
    assert left[1..] == rest && left[0] == ts[|rs|];
    assert all == rs + HistoryOf(lay, a, p, files, left) by { assert Unfold(0); }
    HistoryNext(lay, a, p, files, left, r);
    Assoc(rs, [r], HistoryOf(lay, a, r.p, r.files, rest));
  }

  lemma SofarAll(lay: F.Layout, a: R.Area, all: seq<Result>, ts: seq<Transaction>, rs: seq<Result>, p: F.Places,
                 files: seq<seq<F.Byte>>)
    requires Sofar(lay, a, all, ts, rs, p, files) && |rs| == |ts|
    ensures all == rs
  {
    assert Unfold(0);
    assert rs + [] == rs;
  }

  /** What a caller sees of the results. */
  ghost predicate Seen(rs: seq<Result>, outs: seq<Outcome>, kept: seq<bool>, replies: seq<seq<F.Reply>>) {
    |outs| == |kept| == |replies| == |rs| && forall k :: 0 <= k < |rs| ==>
      outs[k] == rs[k].out && kept[k] == rs[k].kept && replies[k] == rs[k].replies
  }

  /** No transaction that keeps to its share is refused by the log or the cache. */
  ghost predicate NoneRefused(lay: F.Layout, a: R.Area, ts: seq<Transaction>, outs: seq<Outcome>) {
    |outs| <= |ts| && forall k :: 0 <= k < |outs| && Modest(lay, a, ts[k].ops) ==> outs[k].Done? || outs[k].DiskFull?
  }

  /** What has been told of the first transactions; folded. */
  ghost predicate Told(lay: F.Layout, a: R.Area, ts: seq<Transaction>, rs: seq<Result>,
                       files0: seq<seq<F.Byte>>, files: seq<seq<F.Byte>>, outs: seq<Outcome>, kept: seq<bool>,
                       replies: seq<seq<F.Reply>>) {
    && |rs| == |outs| <= |ts|
    && forall k {:trigger Unfold(k)} :: k >= 0 ==>
      Seen(rs, outs, kept, replies) && NoneRefused(lay, a, ts, outs) && files == FilesLeft(files0, rs)
  }

  lemma ToldNone(lay: F.Layout, a: R.Area, ts: seq<Transaction>, files: seq<seq<F.Byte>>)
    ensures Told(lay, a, ts, [], files, files, [], [], [])
  {
    assert Seen([], [], [], []) && NoneRefused(lay, a, ts, []) && FilesLeft(files, []) == files;
  }

  lemma ToldNext(lay: F.Layout, a: R.Area, ts: seq<Transaction>, rs: seq<Result>,
                 files0: seq<seq<F.Byte>>, files: seq<seq<F.Byte>>, outs: seq<Outcome>, kept: seq<bool>,
                 replies: seq<seq<F.Reply>>, r: Result)
    requires Told(lay, a, ts, rs, files0, files, outs, kept, replies) && |outs| < |ts|
    requires Modest(lay, a, ts[|outs|].ops) ==> r.out.Done? || r.out.DiskFull?
    ensures Told(lay, a, ts, rs + [r], files0, r.files, outs + [r.out], kept + [r.kept], replies + [r.replies])
  {
    assert Unfold(0);
  }

  lemma ToldAll(lay: F.Layout, a: R.Area, ts: seq<Transaction>, rs: seq<Result>,
                files0: seq<seq<F.Byte>>, files: seq<seq<F.Byte>>, outs: seq<Outcome>, kept: seq<bool>,
                replies: seq<seq<F.Reply>>)
    requires Told(lay, a, ts, rs, files0, files, outs, kept, replies)
    ensures Seen(rs, outs, kept, replies) && NoneRefused(lay, a, ts, outs) && files == FilesLeft(files0, rs)
  {
    assert Unfold(0);
  }

  /** Any history of transactions, crashes, panics, crashed recoveries and mounts
      comes to what HistoryOf says of the block map and the files alone. */
  method History(fs: F.Disk, a: R.Area, d: R.Disk<Cell>, ts: seq<Transaction>)
    returns (fs1: F.Disk, d1: R.Disk<Cell>, outs: seq<Outcome>, kept: seq<bool>, replies: seq<seq<F.Reply>>)
    requires Mounted(fs, a, d) && AllFor(ts, |fs.inodes|)
    modifies fs
    ensures |old(fs.places).plans| == |old(fs.files)| == |old(fs.inodes)| && Mounted(fs1, a, d1)
    ensures var rs := HistoryOf(fs.lay, a, old(fs.places), old(fs.files), ts);
            Seen(rs, outs, kept, replies) && fs1.files == FilesLeft(old(fs.files), rs)
            && forall k :: 0 <= k < |ts| ==> EndsBy(a, ts[k], rs[k])
    ensures NoneRefused(fs.lay, a, ts, outs)
  {
    F.SoundFiles(fs.s, fs.lay.datastart, fs.owner, fs.files);
    ghost var all, files0 := HistoryOf(fs.lay, a, fs.places, fs.files, ts), fs.files;
    F.PlacedSane(fs.s, fs.lay.datastart, fs.owner, fs.files, fs.places);
    forall k | 0 <= k < |ts|
      ensures EndsBy(a, ts[k], all[k])
    {
      HistoryEnds(fs.lay, a, fs.places, fs.files, ts, k);
    }
    ghost var rs: seq<Result> := [];
    SofarNone(fs.lay, a, fs.places, fs.files, ts);
    ToldNone(fs.lay, a, ts, files0);
    fs1, d1, outs, kept, replies := fs, d, [], [], [];
    while |outs| < |ts|
      invariant (fs1 == fs || fresh(fs1)) && Mounted(fs1, a, d1) && fs1.lay == fs.lay
      invariant |fs1.inodes| == |files0| && AllFor(ts, |files0|)
      invariant |rs| == |outs| <= |ts| && Sofar(fs.lay, a, all, ts, rs, fs1.places, fs1.files)
      invariant Told(fs.lay, a, ts, rs, files0, fs1.files, outs, kept, replies)
    {
      ghost var r;
      fs1, d1, outs, kept, replies, r := Next(fs1, a, d1, ts, outs, kept, replies, all, rs, files0);
      rs := rs + [r];
    }
    SofarAll(fs.lay, a, all, ts, rs, fs1.places, fs1.files);
    ToldAll(fs.lay, a, ts, rs, files0, fs1.files, outs, kept, replies);
  }

  /** The next transaction of a history. */
  method Next(fs: F.Disk, a: R.Area, d: R.Disk<Cell>, ts: seq<Transaction>, outs: seq<Outcome>, kept: seq<bool>,
              replies: seq<seq<F.Reply>>, ghost all: seq<Result>, ghost rs: seq<Result>,
              ghost files0: seq<seq<F.Byte>>)
    returns (fs1: F.Disk, d1: R.Disk<Cell>, outs1: seq<Outcome>, kept1: seq<bool>, replies1: seq<seq<F.Reply>>,
             ghost r: Result)
    requires Mounted(fs, a, d) && |fs.inodes| == |files0| && AllFor(ts, |files0|) && |rs| == |outs| < |ts|
    requires Sofar(fs.lay, a, all, ts, rs, fs.places, fs.files)
    requires Told(fs.lay, a, ts, rs, files0, fs.files, outs, kept, replies)
    modifies fs
    ensures (fs1 == fs || fresh(fs1)) && Mounted(fs1, a, d1) && fs1.lay == fs.lay && |fs1.inodes| == |files0|
    ensures |outs1| == |outs| + 1 && Sofar(fs.lay, a, all, ts, rs + [r], fs1.places, fs1.files)
    ensures Told(fs.lay, a, ts, rs + [r], files0, fs1.files, outs1, kept1, replies1)
  {
    AllForAt(ts, |files0|, |outs|);
    ghost var p, files := fs.places, fs.files;
    var out, keeps, reply;
    out, keeps, fs1, d1, reply, r := Transact(fs, a, d, ts[|outs|]);
    SofarNext(fs.lay, a, all, ts, rs, p, files, r);
    ToldNext(fs.lay, a, ts, rs, files0, files, outs, kept, replies, r);
    outs1, kept1, replies1 := outs + [out], kept + [keeps], replies + [reply];
  }
}
