/** Which blocks fs.c takes and gives back, and which it passes to log_write, in
    order: functions of the block map alone (balloc, bmap, writei and itrunc of
    kernel/fs.c, log_write of kernel/log.c). Module FileSystem proves that its
    methods do just this. */
module Allocation {
  import opened Basics
  import Blocks
  import opened FileMap
  import opened DiskRoom
  import L = LogSpace

  const BPB: nat := Blocks.BPB
  const IPB: nat := 16     // BSIZE / sizeof(struct dinode)

  /** The parts of struct superblock that place blocks on the disk. */
  datatype Layout = Layout(size: nat, inodestart: nat, bmapstart: nat, datastart: nat) {
    ghost predicate Fits() {
      0 < datastart <= size < 0x1_0000_0000 && forall b :: 0 <= b < size ==> BitBlock(b) < datastart
    }

    /** BBLOCK */
    function BitBlock(b: nat): nat {
      bmapstart + b / BPB
    }

    /** IBLOCK */
    function InodeBlock(i: nat): nat {
      i / IPB + inodestart
    }

    /** The blocks of n inodes come before the data blocks. */
    predicate HasInodes(n: nat) {
      n > 0 ==> InodeBlock(n - 1) < datastart
    }

    /** A block of inodes, bitmap or data. */
    predicate Home(b: nat) {
      b < size && (inodestart <= b || bmapstart <= b)
    }
  }

  /** A bitmap block holds the bits of 8192 blocks, an inode block 16 inodes. */
  lemma LayoutIs(lay: Layout, b: nat)
    ensures 8192 * (lay.BitBlock(b) - lay.bmapstart) <= b < 8192 * (lay.BitBlock(b) - lay.bmapstart + 1)
    ensures 16 * (lay.InodeBlock(b) - lay.inodestart) <= b < 16 * (lay.InodeBlock(b) - lay.inodestart + 1)
  {
  }

  // ----- the block map -----

  type Addrs = a: seq<nat> | |a| == MAXFILE witness seq(MAXFILE, _ => 0)

  /** The blocks of a file and its indirect block; 0 means none. */
  datatype Plan = Plan(at: Addrs, table: nat) {
    predicate Sane() {
      forall n :: NDIRECT <= n < MAXFILE && at[n] != 0 ==> table != 0
    }

    function Shape(): (sh: Shape)
      ensures sh.Sane()
    {
      DiskRoom.Shape(seq(MAXFILE, n requires 0 <= n < MAXFILE => at[n] != 0 && (n >= NDIRECT ==> table != 0)),
                     table != 0)
    }

    /** The file holds block b. */
    predicate Holds(b: nat) {
      b != 0 && (b == table || b in at)
    }
  }

  function NoPlan(): Plan {
    Plan(seq(MAXFILE, _ => 0), 0)
  }

  /** The bitmap and the plan of each file. */
  datatype Places = Places(used: seq<bool>, plans: seq<Plan>) {
    /** Block 0 is never free. */
    predicate Booted() {
      |used| > 0 && used[0]
    }

    predicate Sane() {
      Booted() && forall i :: 0 <= i < |plans| ==> plans[i].Sane()
    }

    predicate HasSlot(x: Slot) {
      x.ino < |plans| && (x.Direct? ==> x.k < NDIRECT) && (x.Entry? ==> x.k < NINDIRECT)
    }
  }

  /** What some code does to the map, and the blocks it passes to log_write. When ok
      is false it ends in balloc's panic. */
  datatype Effect = Effect(ok: bool, p: Places, calls: seq<nat>)

  function Nothing(p: Places): Effect {
    Effect(true, p, [])
  }

  /** First a, and then b, which starts from a's map. */
  function Then(a: Effect, b: Effect): Effect {
    Effect(b.ok, b.p, a.calls + b.calls)
  }

  // ----- writei -----

  /** The block that balloc finds; all are taken if it is |used|. */
  function FirstFree(used: seq<bool>): (b: nat)
    ensures b <= |used| && (forall x :: 0 <= x < b ==> used[x]) && (b < |used| ==> !used[b])
  {
    if used == [] || !used[0] then 0 else 1 + FirstFree(used[1..])
  }

  function WithSlot(plan: Plan, x: Slot, b: nat): Plan
    requires (x.Direct? ==> x.k < NDIRECT) && (x.Entry? ==> x.k < NINDIRECT)
  {
    match x
    case Direct(_, k) => plan.(at := plan.at[k := b])
    case Table(_) => plan.(table := b)
    case Entry(_, k) => plan.(at := plan.at[NDIRECT + k := b])
  }

  /** balloc for slot x. The bitmap block and the new block, which is zeroed, are
      logged, and the indirect block when the slot is in it. */
  function Alloc(lay: Layout, p: Places, x: Slot): (r: Effect)
    requires p.HasSlot(x)
    ensures |r.p.plans| == |p.plans|
  {
    var b := FirstFree(p.used);
    if b == |p.used| then Effect(false, p, [])
    else Effect(true, Places(p.used[b := true], p.plans[x.ino := WithSlot(p.plans[x.ino], x, b)]),
                [lay.BitBlock(b), b] + if x.Entry? then [p.plans[x.ino].table] else [])
  }

  function Entry(lay: Layout, p: Places, i: nat, k: nat): (r: Effect)
    requires i < |p.plans| && k < NINDIRECT
    ensures |r.p.plans| == |p.plans|
  {
    if p.plans[i].at[NDIRECT + k] != 0 then Nothing(p) else Alloc(lay, p, FileMap.Entry(i, k))
  }

  /** bmap of block n of file i. */
  function Bmap(lay: Layout, p: Places, i: nat, n: nat): (r: Effect)
    requires i < |p.plans| && n < MAXFILE
    ensures |r.p.plans| == |p.plans|
  {
    if n < NDIRECT then
      if p.plans[i].at[n] != 0 then Nothing(p) else Alloc(lay, p, Direct(i, n))
    else if p.plans[i].table != 0 then Entry(lay, p, i, n - NDIRECT)
    else
      var t := Alloc(lay, p, Table(i));
      if !t.ok then t else Then(t, Entry(lay, t.p, i, n - NDIRECT))
  }

  /** A round of writei's loop. */
  function Round(lay: Layout, p: Places, i: nat, n: nat): (r: Effect)
    requires i < |p.plans| && n < MAXFILE
    ensures |r.p.plans| == |p.plans|
  {
    var r := Bmap(lay, p, i, n);
    if !r.ok then r else r.(calls := r.calls + [r.p.plans[i].at[n]])
  }

  /** e is what the round comes to; folded. */
  ghost predicate IsRound(lay: Layout, p: Places, i: nat, n: nat, e: Effect) {
    && i < |p.plans| == |e.p.plans| && n < MAXFILE
    && forall k {:trigger Unfold(k)} :: k >= 0 ==> e == Round(lay, p, i, n)
  }

  /** writei's loop. */
  function Rounds(lay: Layout, p: Places, i: nat, pos: nat, end: nat): (r: Effect)
    requires i < |p.plans| && end <= MAXFILE * BSIZE
    ensures |r.p.plans| == |p.plans|
    decreases end - pos
  {
    if pos >= end then Nothing(p)
    else
      var r := Round(lay, p, i, pos / BSIZE);
      if !r.ok then r else Then(r, Rounds(lay, r.p, i, pos + Chunk(pos, end), end))
  }

  /** writei of bytes off..end, with its iupdate. */
  function Write(lay: Layout, p: Places, i: nat, off: nat, end: nat): (r: Effect)
    requires i < |p.plans| && end <= MAXFILE * BSIZE
    ensures |r.p.plans| == |p.plans|
  {
    var r := Rounds(lay, p, i, off, end);
    if !r.ok then r else r.(calls := r.calls + [lay.InodeBlock(i)])
  }

  // ----- itrunc -----

  /** The bitmap blocks that are logged when blocks from..to of a file are freed. */
  function Freed(lay: Layout, at: seq<nat>, from: nat, to: nat): seq<nat>
    requires to <= |at|
  {
    if from >= to then [] else Freed(lay, at, from, to - 1) + if at[to - 1] != 0 then [lay.BitBlock(at[to - 1])] else []
  }

  function FreedBlocks(lay: Layout, plan: Plan): seq<nat> {
    Freed(lay, plan.at, 0, |plan.at|) + if plan.table != 0 then [lay.BitBlock(plan.table)] else []
  }

  function TruncCalls(lay: Layout, plan: Plan, i: nat): seq<nat> {
    FreedBlocks(lay, plan) + [lay.InodeBlock(i)]
  }

  lemma {:induction false} FreedJoin(lay: Layout, at: seq<nat>, from: nat, mid: nat, to: nat)
    requires from <= mid <= to <= |at|
    ensures Freed(lay, at, from, to) == Freed(lay, at, from, mid) + Freed(lay, at, mid, to)
  {
    if mid < to { FreedJoin(lay, at, from, mid, to - 1); }
  }

  lemma {:induction false} FreedNone(lay: Layout, at: seq<nat>, from: nat, to: nat)
    requires to <= |at| && forall n :: from <= n < to ==> at[n] == 0
    ensures Freed(lay, at, from, to) == []
  {
    if from < to { FreedNone(lay, at, from, to - 1); }
  }

  function Trunc(lay: Layout, p: Places, i: nat): (r: Effect)
    requires i < |p.plans|
    ensures |r.p.plans| == |p.plans|
  {
    var plan := p.plans[i];
    Effect(true, Places(seq(|p.used|, b requires 0 <= b < |p.used| => p.used[b] && !plan.Holds(b)),
                        p.plans[i := NoPlan()]), TruncCalls(lay, plan, i))
  }

  // ----- how many blocks it takes -----

  lemma AllocNeeds(lay: Layout, p: Places, x: Slot)
    requires p.Sane() && p.HasSlot(x) && (x.Entry? ==> p.plans[x.ino].table != 0)
    ensures var r := Alloc(lay, p, x);
            && (r.ok <==> Free(p.used) > 0)
            && (r.ok ==> r.p.Sane() && Free(r.p.used) == Free(p.used) - 1
                         && r.p.plans == p.plans[x.ino := r.p.plans[x.ino]]
                         && (x.Table? ==> r.p.plans[x.ino].table != 0))
  {
    FreeNone(p.used);
    var b := FirstFree(p.used);
    if b < |p.used| { FreeSet(p.used, b, true); }
  }

  /** r, from p, has taken the blocks that block n of file i lacks, and could exactly
      if they were free. */
  ghost predicate Takes(r: Effect, p: Places, i: nat, n: nat)
    requires i < |p.plans| && n < MAXFILE
  {
    var sh := p.plans[i].Shape();
    && (r.ok <==> NeedAt(sh, n) <= Free(p.used))
    && (r.ok ==> |r.p.plans| == |p.plans| && r.p.Sane() && r.p.plans == p.plans[i := r.p.plans[i]]
                 && r.p.plans[i].Shape() == Grown(sh, n) && Free(r.p.used) == Free(p.used) - NeedAt(sh, n))
  }

  lemma EntryNeeds(lay: Layout, p: Places, i: nat, k: nat)
    requires p.Sane() && i < |p.plans| && k < NINDIRECT && p.plans[i].table != 0
    ensures Takes(Entry(lay, p, i, k), p, i, NDIRECT + k)
  {
    var r, sh := Entry(lay, p, i, k), p.plans[i].Shape();
    if p.plans[i].at[NDIRECT + k] == 0 { AllocNeeds(lay, p, FileMap.Entry(i, k)); }
    if r.ok { assert r.p.plans[i].Shape().has == Grown(sh, NDIRECT + k).has; }
  }

  lemma DirectNeeds(lay: Layout, p: Places, i: nat, n: nat)
    requires p.Sane() && i < |p.plans| && n < NDIRECT
    ensures Takes(Bmap(lay, p, i, n), p, i, n)
  {
    var r, sh := Bmap(lay, p, i, n), p.plans[i].Shape();
    if p.plans[i].at[n] == 0 { AllocNeeds(lay, p, Direct(i, n)); }
    if r.ok { assert r.p.plans[i].Shape().has == Grown(sh, n).has; }
  }

  lemma TableNeeds(lay: Layout, p: Places, i: nat, n: nat)
    requires p.Sane() && i < |p.plans| && NDIRECT <= n < MAXFILE && p.plans[i].table == 0
    ensures Takes(Bmap(lay, p, i, n), p, i, n)
  {
    AllocNeeds(lay, p, Table(i));
    var t, sh := Alloc(lay, p, Table(i)), p.plans[i].Shape();
    if t.ok {
      assert t.p.plans[i].Shape().has == sh.has;
      EntryNeeds(lay, t.p, i, n - NDIRECT);
    }
  }

  /** A round takes the blocks that are missing, and can exactly if they are free. */
  lemma RoundNeeds(lay: Layout, p: Places, i: nat, n: nat)
    requires p.Sane() && i < |p.plans| && n < MAXFILE
    ensures Takes(Round(lay, p, i, n), p, i, n)
  {
    if n < NDIRECT {
      DirectNeeds(lay, p, i, n);
    } else if p.plans[i].table != 0 {
      EntryNeeds(lay, p, i, n - NDIRECT);
    } else {
      TableNeeds(lay, p, i, n);
    }
  }

  /** r, from p, has taken the blocks that bytes pos..end of file i lack, and could
      exactly if they were free. */
  ghost predicate TakesAll(r: Effect, p: Places, i: nat, pos: nat, end: nat)
    requires i < |p.plans| && end <= MAXFILE * BSIZE
  {
    var sh := p.plans[i].Shape();
    && (r.ok <==> Need(sh, pos, end) <= Free(p.used))
    && (r.ok ==> |r.p.plans| == |p.plans| && r.p.Sane() && r.p.plans == p.plans[i := r.p.plans[i]]
                 && r.p.plans[i].Shape() == GrownTo(sh, pos, end)
                 && Free(r.p.used) == Free(p.used) - Need(sh, pos, end))
  }

  lemma TakesNext(p: Places, i: nat, pos: nat, end: nat, r: Effect, rest: Effect, all: Effect)
    requires i < |p.plans| && pos < end <= MAXFILE * BSIZE && Takes(r, p, i, pos / BSIZE) && |r.p.plans| == |p.plans|
    requires r.ok ==> TakesAll(rest, r.p, i, pos + Chunk(pos, end), end)
    requires all == if r.ok then Then(r, rest) else r
    ensures TakesAll(all, p, i, pos, end)
  {
    var sh := p.plans[i].Shape();
    NeedFront(sh, pos, end);
    GrownFront(sh, pos, end);
  }

  /** all is what the loop comes to; folded. */
  ghost predicate IsRounds(lay: Layout, p: Places, i: nat, pos: nat, end: nat, all: Effect) {
    && i < |p.plans| && end <= MAXFILE * BSIZE
    && forall k {:trigger Unfold(k)} :: k >= 0 ==> all == Rounds(lay, p, i, pos, end)
  }

  lemma FirstRound(lay: Layout, p: Places, i: nat, pos: nat, end: nat, all: Effect) returns (r: Effect, rest: Effect)
    requires p.Sane() && IsRounds(lay, p, i, pos, end, all) && pos < end
    ensures Takes(r, p, i, pos / BSIZE) && |r.p.plans| == |p.plans| && all == if r.ok then Then(r, rest) else r
    ensures r.ok ==> r.p.Sane() && IsRounds(lay, r.p, i, pos + Chunk(pos, end), end, rest)
  {
    RoundNeeds(lay, p, i, pos / BSIZE);
    r := Round(lay, p, i, pos / BSIZE);
    rest := if r.ok then Rounds(lay, r.p, i, pos + Chunk(pos, end), end) else r;
    assert Unfold(0);
  }

  lemma NoRounds(lay: Layout, p: Places, i: nat, pos: nat, end: nat, all: Effect)
    requires p.Sane() && IsRounds(lay, p, i, pos, end, all) && pos >= end
    ensures TakesAll(all, p, i, pos, end)
  {
    GrownNone(p.plans[i].Shape(), pos, end);
    assert Unfold(0);
  }

  lemma {:induction false} AllTaken(lay: Layout, p: Places, i: nat, pos: nat, end: nat, all: Effect)
    requires p.Sane() && IsRounds(lay, p, i, pos, end, all)
    ensures TakesAll(all, p, i, pos, end)
    decreases end - pos
  {
    if pos >= end {
      NoRounds(lay, p, i, pos, end, all);
    } else {
      var r, rest := FirstRound(lay, p, i, pos, end, all);
      if r.ok { AllTaken(lay, r.p, i, pos + Chunk(pos, end), end, rest); }
      TakesNext(p, i, pos, end, r, rest, all);
    }
  }

  /** A write takes the blocks that are missing in its range, and can exactly if
      they are free. */
  lemma RoundsNeed(lay: Layout, p: Places, i: nat, pos: nat, end: nat)
    requires p.Sane() && i < |p.plans| && end <= MAXFILE * BSIZE
    ensures TakesAll(Rounds(lay, p, i, pos, end), p, i, pos, end)
  {
    AllTaken(lay, p, i, pos, end, Rounds(lay, p, i, pos, end));
  }

  lemma WriteNeeds(lay: Layout, p: Places, i: nat, off: nat, end: nat)
    requires p.Sane() && i < |p.plans| && end <= MAXFILE * BSIZE
    ensures Write(lay, p, i, off, end).ok <==> Need(p.plans[i].Shape(), off, end) <= Free(p.used)
  {
    RoundsNeed(lay, p, i, off, end);
  }

  // ----- what the log makes of it -----

  function Elems(calls: seq<nat>): set<nat> {
    set b | b in calls
  }

  lemma ElemsJoin(a: seq<nat>, b: seq<nat>)
    ensures Elems(a + b) == Elems(a) + Elems(b)
  {
  }

  /** One of these calls of log_write, from an empty log, finds limit blocks in the
      log and panics. The last one then does, if no other does before it. */
  predicate Overfull(calls: seq<nat>, limit: nat) {
    calls != [] && |Elems(calls[..|calls| - 1])| >= limit
  }

  lemma SubsetSize(a: set<nat>, b: set<nat>)
    requires a <= b
    ensures |a| <= |b|
  {
    assert b == a + (b - a);
  }

  lemma OverfullMeans(calls: seq<nat>, limit: nat)
    ensures Overfull(calls, limit) <==> exists k :: 0 <= k < |calls| && |Elems(calls[..k])| >= limit
  {
    forall k | 0 <= k < |calls|
      ensures |Elems(calls[..k])| <= |Elems(calls[..|calls| - 1])|
    {
      SubsetSize(Elems(calls[..k]), Elems(calls[..|calls| - 1]));
    }
  }

  /** Not with fewer blocks than the limit, always with more, and with as many
      exactly if the last call is for a block that is already logged. */
  lemma OverfullByCount(calls: seq<nat>, limit: nat)
    ensures |Elems(calls)| < limit ==> !Overfull(calls, limit)
    ensures |Elems(calls)| > limit ==> Overfull(calls, limit)
    ensures |Elems(calls)| == limit && calls != [] ==>
              (Overfull(calls, limit) <==> calls[|calls| - 1] in calls[..|calls| - 1])
  {
    if calls != [] {
      var n := |calls| - 1;
      assert calls == calls[..n] + [calls[n]];
      ElemsJoin(calls[..n], [calls[n]]);
      var e := Elems(calls[..n]);
      assert Elems([calls[n]]) == {calls[n]};
      if calls[n] in calls[..n] {
        assert e + {calls[n]} == e;
      } else {
        assert |e + {calls[n]}| == |e| + 1;
      }
    }
  }

  /** One more call. */
  lemma OverfullNext(calls: seq<nat>, b: nat, limit: nat)
    ensures Overfull(calls + [b], limit) <==> |Elems(calls)| >= limit
    ensures Overfull(calls, limit) ==> |Elems(calls)| >= limit
    ensures Elems(calls + [b]) == Elems(calls) + {b}
  {
    assert (calls + [b])[..|calls|] == calls;
    OverfullByCount(calls, limit);
    ElemsJoin(calls, [b]);
    assert Elems([b]) == {b};
  }

  // ----- how many blocks an operation logs -----

  const CHUNK: nat := 3072   // ((MAXOPBLOCKS-1-1-2) / 2) * BSIZE

  function TableBlocks(lay: Layout, plan: Plan): set<nat> {
    if plan.table == 0 then {} else {plan.table, lay.BitBlock(plan.table)}
  }

  lemma RoundLogs(lay: Layout, p: Places, i: nat, n: nat) returns (own: set<nat>)
    requires p.Booted() && i < |p.plans| && n < MAXFILE
    ensures var r := Round(lay, p, i, n);
            && r.p.Booted() && TableBlocks(lay, p.plans[i]) <= TableBlocks(lay, r.p.plans[i])
            && Elems(r.calls) <= TableBlocks(lay, r.p.plans[i]) + own
    ensures |own| <= if p.plans[i].at[n] != 0 then 1 else 2
  {
    var r := Round(lay, p, i, n);
    var b := r.p.plans[i].at[n];
    own := if p.plans[i].at[n] != 0 then {b} else {b, lay.BitBlock(b)};
  }

  lemma LogsJoin(a: seq<nat>, b: seq<nat>, ta: set<nat>, tb: set<nat>, own: set<nat>, more: set<nat>)
    requires Elems(a) <= ta + own && ta <= tb && Elems(b) <= tb + more
    ensures Elems(a + b) <= tb + (own + more) && |own + more| <= |own| + |more|
  {
    ElemsJoin(a, b);
  }

  /** The rounds of a write. */
  function Count(pos: nat, end: nat): nat {
    if pos >= end then 0 else (end - 1) / BSIZE - pos / BSIZE + 1
  }

  lemma CountFront(pos: nat, end: nat)
    requires pos < end
    ensures Count(pos, end) == 1 + Count(pos + Chunk(pos, end), end)
  {
  }

  /** A round logs at most two blocks besides those of the indirect block, one if the
      block was there. */
  lemma {:induction false} RoundsLog(lay: Layout, p: Places, i: nat, pos: nat, end: nat) returns (logs: set<nat>)
    requires p.Booted() && i < |p.plans| && end <= MAXFILE * BSIZE
    ensures var r := Rounds(lay, p, i, pos, end);
            && TableBlocks(lay, p.plans[i]) <= TableBlocks(lay, r.p.plans[i])
            && Elems(r.calls) <= TableBlocks(lay, r.p.plans[i]) + logs
    ensures |logs| <= 2 * Count(pos, end) - if pos < end && p.plans[i].at[pos / BSIZE] != 0 then 1 else 0
    decreases end - pos
  {
    logs := {};
    if pos < end {
      var r := Round(lay, p, i, pos / BSIZE);
      logs := RoundLogs(lay, p, i, pos / BSIZE);
      CountFront(pos, end);
      if r.ok {
        var rest := Rounds(lay, r.p, i, pos + Chunk(pos, end), end);
        var more := RoundsLog(lay, r.p, i, pos + Chunk(pos, end), end);
        LogsJoin(r.calls, rest.calls, TableBlocks(lay, r.p.plans[i]), TableBlocks(lay, rest.p.plans[i]), logs, more);
        logs := logs + more;
      }
    }
  }

  /** A chunk of three blocks touches at most three blocks, or four if it starts
      inside one. */
  lemma ChunkBlocks(off: nat, end: nat)
    requires end <= off + CHUNK
    ensures Count(off, end) <= 4 && (Count(off, end) == 4 ==> off % BSIZE != 0)
  {
  }

  /** A write of a chunk that starts in a block of the file, or on a boundary, logs
      at most MAXOPBLOCKS blocks, however it ends. */
  lemma WriteLogs(lay: Layout, p: Places, i: nat, off: nat, end: nat)
    requires p.Booted() && i < |p.plans| && end <= MAXFILE * BSIZE && end <= off + CHUNK
    requires off % BSIZE != 0 && off < end ==> p.plans[i].at[off / BSIZE] != 0
    ensures |Elems(Write(lay, p, i, off, end).calls)| <= L.MAXOPBLOCKS
  {
    var r := Rounds(lay, p, i, off, end);
    var logs := RoundsLog(lay, p, i, off, end);
    ChunkBlocks(off, end);
    var all := TableBlocks(lay, r.p.plans[i]) + logs;
    var ino := lay.InodeBlock(i);
    ElemsJoin(r.calls, [ino]);
    SubsetSize(Elems(Write(lay, p, i, off, end).calls), all + {ino});
    assert |all + {ino}| <= |all| + 1;
  }

  // ----- which blocks a write logs -----

  /** Block b is one of those of slots from up to to, the bitmap block of one that was
      absent, or the indirect block or its bitmap block, where they were changed. */
  ghost predicate Written(lay: Layout, was: Plan, now: Plan, from: nat, to: nat, b: nat)
    requires to <= MAXFILE
  {
    || (exists n :: from <= n < to && b == now.at[n])
    || (exists n :: from <= n < to && was.at[n] == 0 && b == lay.BitBlock(now.at[n]))
    || (exists n :: from <= n < to && NDIRECT <= n && was.at[n] == 0 && b == now.table)
    || (was.table != now.table && (b == now.table || b == lay.BitBlock(now.table)))
  }

  /** Only slots from up to to have been filled, all of them, and perhaps the table. */
  ghost predicate Filled(was: Plan, now: Plan, from: nat, to: nat)
    requires to <= MAXFILE
  {
    && (forall n :: 0 <= n < MAXFILE && !(from <= n < to) ==> now.at[n] == was.at[n])
    && (forall n :: from <= n < to ==> now.at[n] != 0 && (was.at[n] != 0 ==> now.at[n] == was.at[n]))
    && (was.table != 0 ==> now.table == was.table)
  }

  lemma WrittenOne(lay: Layout, was: Plan, now: Plan, n: nat, b: nat)
    requires n < MAXFILE
    ensures Written(lay, was, now, n, n + 1, b) <==>
              || b == now.at[n]
              || (was.at[n] == 0 && (b == lay.BitBlock(now.at[n]) || (NDIRECT <= n && b == now.table)))
              || (was.table != now.table && (b == now.table || b == lay.BitBlock(now.table)))
  {
    assert n <= n < n + 1;
  }

  /** The calls of a round, in order. */
  lemma RoundCalls(lay: Layout, p: Places, i: nat, n: nat)
    requires p.Sane() && i < |p.plans| && n < MAXFILE && Round(lay, p, i, n).ok
    ensures var r := Round(lay, p, i, n);
            var was, now := p.plans[i], r.p.plans[i];
            && now.at == was.at[n := now.at[n]] && now.at[n] != 0 && (was.at[n] != 0 ==> now.at[n] == was.at[n])
            && (was.table != 0 || n < NDIRECT ==> now.table == was.table)
            && (was.table == 0 && n >= NDIRECT ==> now.table != 0)
            && r.calls == (if now.table != was.table then [lay.BitBlock(now.table), now.table] else [])
                          + (if was.at[n] != 0 then [] else [lay.BitBlock(now.at[n]), now.at[n]]
                                                            + if n < NDIRECT then [] else [now.table])
                          + [now.at[n]]
  {
  }

  lemma RoundExactly(lay: Layout, p: Places, i: nat, n: nat)
    requires p.Sane() && i < |p.plans| && n < MAXFILE && Round(lay, p, i, n).ok
    ensures var r := Round(lay, p, i, n);
            r.p.Sane() && Exactly(lay, p.plans[i], r.p.plans[i], n, n + 1, r.calls)
  {
    RoundNeeds(lay, p, i, n);
    RoundCalls(lay, p, i, n);
    var r := Round(lay, p, i, n);
    OneExactly(lay, p.plans[i], r.p.plans[i], n, r.calls);
  }

  lemma OneExactly(lay: Layout, was: Plan, now: Plan, n: nat, calls: seq<nat>)
    requires n < MAXFILE && was.Sane()
    requires was.table == 0 && n >= NDIRECT ==> now.table != 0 && was.at[n] == 0
    requires calls == (if now.table != was.table then [lay.BitBlock(now.table), now.table] else [])
                      + (if was.at[n] != 0 then [] else [lay.BitBlock(now.at[n]), now.at[n]]
                                                        + if n < NDIRECT then [] else [now.table])
                      + [now.at[n]]
    ensures forall b: nat :: b in calls <==> Written(lay, was, now, n, n + 1, b)
  {
    forall b: nat
      ensures b in calls <==> Written(lay, was, now, n, n + 1, b)
    {
      WrittenOne(lay, was, now, n, b);
    }
  }

  lemma FilledJoin(a: Plan, b: Plan, c: Plan, from: nat, mid: nat, to: nat)
    requires from <= mid <= to <= MAXFILE && Filled(a, b, from, mid) && Filled(b, c, mid, to)
    ensures Filled(a, c, from, to)
  {
  }

  lemma WrittenJoin(lay: Layout, p: Plan, q: Plan, r: Plan, from: nat, mid: nat, to: nat, b: nat)
    requires from <= mid <= to <= MAXFILE && Filled(p, q, from, mid) && Filled(q, r, mid, to) && p.Sane() && q.Sane()
    ensures Written(lay, p, r, from, to, b) <==> Written(lay, p, q, from, mid, b) || Written(lay, q, r, mid, to, b)
  {
    if Written(lay, p, q, from, mid, b) { WrittenFirst(lay, p, q, r, from, mid, to, b); }
    if Written(lay, q, r, mid, to, b) { WrittenThen(lay, p, q, r, from, mid, to, b); }
    if Written(lay, p, r, from, to, b) { WrittenEither(lay, p, q, r, from, mid, to, b); }
  }

  lemma WrittenFirst(lay: Layout, p: Plan, q: Plan, r: Plan, from: nat, mid: nat, to: nat, b: nat)
    requires from <= mid <= to <= MAXFILE && Filled(p, q, from, mid) && Filled(q, r, mid, to) && p.Sane() && q.Sane()
    requires Written(lay, p, q, from, mid, b)
    ensures Written(lay, p, r, from, to, b)
  {
    if n :| from <= n < mid && b == q.at[n] {
      assert r.at[n] == q.at[n];
    } else if n :| from <= n < mid && p.at[n] == 0 && b == lay.BitBlock(q.at[n]) {
      assert r.at[n] == q.at[n];
    } else if n :| from <= n < mid && NDIRECT <= n && p.at[n] == 0 && b == q.table {
      assert q.at[n] != 0 && q.table != 0 && r.table == q.table;
    }
  }

  lemma WrittenThen(lay: Layout, p: Plan, q: Plan, r: Plan, from: nat, mid: nat, to: nat, b: nat)
    requires from <= mid <= to <= MAXFILE && Filled(p, q, from, mid) && Filled(q, r, mid, to)
    requires Written(lay, q, r, mid, to, b)
    ensures Written(lay, p, r, from, to, b)
  {
    if n :| mid <= n < to && b == r.at[n] {
      assert from <= n;
    } else if n :| mid <= n < to && q.at[n] == 0 && b == lay.BitBlock(r.at[n]) {
      assert p.at[n] == q.at[n];
    } else if n :| mid <= n < to && NDIRECT <= n && q.at[n] == 0 && b == r.table {
      assert p.at[n] == q.at[n];
    }
  }

  lemma WrittenEither(lay: Layout, p: Plan, q: Plan, r: Plan, from: nat, mid: nat, to: nat, b: nat)
    requires from <= mid <= to <= MAXFILE && Filled(p, q, from, mid) && Filled(q, r, mid, to) && p.Sane() && q.Sane()
    requires Written(lay, p, r, from, to, b)
    ensures Written(lay, p, q, from, mid, b) || Written(lay, q, r, mid, to, b)
  {
    if n :| from <= n < to && b == r.at[n] {
      assert n < mid ==> q.at[n] == r.at[n];
    } else if n :| from <= n < to && p.at[n] == 0 && b == lay.BitBlock(r.at[n]) {
      assert if n < mid then q.at[n] == r.at[n] else q.at[n] == p.at[n];
    } else if n :| from <= n < to && NDIRECT <= n && p.at[n] == 0 && b == r.table {
      if n < mid {
        assert q.at[n] != 0 && q.table != 0 && r.table == q.table;
      } else {
        assert q.at[n] == p.at[n];
      }
    }
  }

  /** The calls are exactly for the blocks of these slots. */
  ghost predicate Exactly(lay: Layout, was: Plan, now: Plan, from: nat, to: nat, calls: seq<nat>)
    requires to <= MAXFILE
  {
    Filled(was, now, from, to) && forall b: nat :: b in calls <==> Written(lay, was, now, from, to, b)
  }

  lemma ExactlyJoin(lay: Layout, p: Plan, q: Plan, r: Plan, from: nat, mid: nat, to: nat, a: seq<nat>, b: seq<nat>)
    requires from <= mid <= to <= MAXFILE && p.Sane() && q.Sane()
    requires Exactly(lay, p, q, from, mid, a) && Exactly(lay, q, r, mid, to, b)
    ensures Exactly(lay, p, r, from, to, a + b)
  {
    FilledJoin(p, q, r, from, mid, to);
    forall x: nat
      ensures x in a + b <==> Written(lay, p, r, from, to, x)
    {
      WrittenJoin(lay, p, q, r, from, mid, to, x);
    }
  }

  lemma RoundsFirst(lay: Layout, p: Places, i: nat, pos: nat, end: nat, all: Effect) returns (r: Effect, rest: Effect)
    requires IsRounds(lay, p, i, pos, end, all) && pos < end && all.ok
    ensures IsRound(lay, p, i, pos / BSIZE, r) && r.ok && all == Then(r, rest)
    ensures IsRounds(lay, r.p, i, pos + Chunk(pos, end), end, rest)
    ensures pos + Chunk(pos, end) >= end ==> rest == Nothing(r.p)
  {
    assert Unfold(0);
    r := Round(lay, p, i, pos / BSIZE);
    rest := Rounds(lay, r.p, i, pos + Chunk(pos, end), end);
  }

  lemma IsRoundExactly(lay: Layout, p: Places, i: nat, n: nat, r: Effect)
    requires p.Sane() && IsRound(lay, p, i, n, r) && r.ok
    ensures r.p.Sane() && Exactly(lay, p.plans[i], r.p.plans[i], n, n + 1, r.calls)
  {
    assert r == Round(lay, p, i, n) by { assert Unfold(0); }
    RoundExactly(lay, p, i, n);
  }

  lemma {:induction false} AllExactly(lay: Layout, p: Places, i: nat, pos: nat, end: nat, all: Effect)
    requires p.Sane() && IsRounds(lay, p, i, pos, end, all) && pos < end && all.ok
    ensures i < |all.p.plans|
    ensures var from, to := pos / BSIZE, (end - 1) / BSIZE + 1;
            from <= to <= MAXFILE && Exactly(lay, p.plans[i], all.p.plans[i], from, to, all.calls)
    decreases end - pos
  {
    var n, to, pos1 := pos / BSIZE, (end - 1) / BSIZE + 1, pos + Chunk(pos, end);
    var r, rest := RoundsFirst(lay, p, i, pos, end, all);
    IsRoundExactly(lay, p, i, n, r);
    if pos1 < end {
      assert pos1 / BSIZE == n + 1;
      AllExactly(lay, r.p, i, pos1, end, rest);
      ExactlyJoin(lay, p.plans[i], r.p.plans[i], rest.p.plans[i], n, n + 1, to, r.calls, rest.calls);
    } else {
      assert to == n + 1;
      assert r.calls + [] == r.calls;
    }
  }

  /** A write passes to log_write exactly the blocks that it changes: the data blocks of
      its range, the bitmap blocks of those it takes, the indirect block if it makes an
      entry there, with its bitmap block if it is new, and last the inode's block. */
  lemma WriteLogsExactly(lay: Layout, p: Places, i: nat, off: nat, end: nat)
    requires p.Sane() && i < |p.plans| && off < end <= MAXFILE * BSIZE && Write(lay, p, i, off, end).ok
    ensures var r, from, to := Write(lay, p, i, off, end), off / BSIZE, (end - 1) / BSIZE + 1;
            && to <= MAXFILE && r.calls != [] && r.calls[|r.calls| - 1] == lay.InodeBlock(i)
            && forall b: nat :: b in r.calls <==>
                                b == lay.InodeBlock(i) || Written(lay, p.plans[i], r.p.plans[i], from, to, b)
  {
    AllExactly(lay, p, i, off, end, Rounds(lay, p, i, off, end));
  }

  // ----- how many blocks a truncation logs -----

  /** The bitmap blocks of these blocks. */
  function BitsOf(lay: Layout, blocks: seq<nat>): set<nat> {
    set b | b in blocks && b != 0 :: lay.BitBlock(b)
  }

  function BitBlocks(lay: Layout, plan: Plan): set<nat> {
    BitsOf(lay, plan.at) + if plan.table == 0 then {} else {lay.BitBlock(plan.table)}
  }

  lemma {:induction false} FreedLogs(lay: Layout, at: seq<nat>, to: nat)
    requires to <= |at|
    ensures Elems(Freed(lay, at, 0, to)) == BitsOf(lay, at[..to])
  {
    if to > 0 {
      FreedLogs(lay, at, to - 1);
      assert at[..to] == at[..to - 1] + [at[to - 1]];
      var last := if at[to - 1] != 0 then [lay.BitBlock(at[to - 1])] else [];
      ElemsJoin(Freed(lay, at, 0, to - 1), last);
      assert BitsOf(lay, at[..to]) == BitsOf(lay, at[..to - 1]) + Elems(last);
    }
  }

  /** itrunc logs the bitmap block of each block it frees and the inode's block. It
      keeps to what begin_op has reserved exactly if the file has blocks in fewer
      than MAXOPBLOCKS bitmap blocks. */
  lemma TruncLogs(lay: Layout, plan: Plan, i: nat)
    ensures Elems(TruncCalls(lay, plan, i)) == BitBlocks(lay, plan) + {lay.InodeBlock(i)}
    ensures lay.InodeBlock(i) !in BitBlocks(lay, plan) ==>
              (|Elems(TruncCalls(lay, plan, i))| <= L.MAXOPBLOCKS <==> |BitBlocks(lay, plan)| < L.MAXOPBLOCKS)
  {
    FreedBits(lay, plan);
    ElemsJoin(FreedBlocks(lay, plan), [lay.InodeBlock(i)]);
    assert Elems([lay.InodeBlock(i)]) == {lay.InodeBlock(i)};
    AddedSize(BitBlocks(lay, plan), lay.InodeBlock(i));
  }

  lemma FreedBits(lay: Layout, plan: Plan)
    ensures Elems(FreedBlocks(lay, plan)) == BitBlocks(lay, plan)
  {
    FreedLogs(lay, plan.at, |plan.at|);
    assert plan.at[..|plan.at|] == plan.at;
    var b := if plan.table != 0 then [lay.BitBlock(plan.table)] else [];
    ElemsJoin(Freed(lay, plan.at, 0, |plan.at|), b);
    assert Elems(b) == if plan.table == 0 then {} else {lay.BitBlock(plan.table)};
  }

  lemma AddedSize(a: set<nat>, x: nat)
    ensures |a + {x}| == if x in a then |a| else |a| + 1
  {
    if x in a { assert a + {x} == a; }
  }

  /** The n numbers from a. */
  ghost function Span(a: nat, n: nat): set<nat> {
    if n == 0 then {} else Span(a, n - 1) + {a + n - 1}
  }

  lemma {:induction false} SpanIs(a: nat, n: nat)
    ensures |Span(a, n)| == n && forall x :: x in Span(a, n) <==> a <= x < a + n
  {
    if n > 0 {
      SpanIs(a, n - 1);
      AddedSize(Span(a, n - 1), a + n - 1);
    }
  }

  /** On a disk of at most nine bitmap blocks, like the one mkfs makes, it always does. */
  lemma SmallDiskTruncs(lay: Layout, plan: Plan, i: nat)
    requires lay.size <= 9 * BPB && (forall n :: 0 <= n < |plan.at| ==> plan.at[n] < lay.size) && plan.table < lay.size
    ensures |Elems(TruncCalls(lay, plan, i))| <= L.MAXOPBLOCKS
  {
    TruncLogs(lay, plan, i);
    var all := Span(lay.bmapstart, 9);
    SpanIs(lay.bmapstart, 9);
    forall b | b in BitBlocks(lay, plan)
      ensures b in all
    {
    }
    SubsetSize(BitBlocks(lay, plan) + {lay.InodeBlock(i)}, all + {lay.InodeBlock(i)});
    AddedSize(all, lay.InodeBlock(i));
  }

  /** Ten blocks in ten bitmap blocks. */
  function Spread(): (r: Plan)
    ensures r.Sane()
  {
    Plan(seq(MAXFILE, k requires 0 <= k < MAXFILE => if k < 10 then (k + 1) * BPB else 0), 0)
  }

  lemma SpreadBits(lay: Layout, k: nat)
    requires 1 <= k <= 10
    ensures lay.bmapstart + k in BitBlocks(lay, Spread())
  {
    var b := k * BPB;
    assert Spread().at[k - 1] == b && b != 0 && lay.BitBlock(b) == lay.bmapstart + k;
    assert lay.BitBlock(b) in BitsOf(lay, Spread().at);
  }

  /** On a larger disk it may not. */
  lemma SpreadTruncOverruns(lay: Layout, i: nat)
    requires lay.InodeBlock(i) !in BitBlocks(lay, Spread())
    ensures |Elems(TruncCalls(lay, Spread(), i))| > L.MAXOPBLOCKS
  {
    TruncLogs(lay, Spread(), i);
    SpreadCount(lay);
  }

  lemma SpreadCount(lay: Layout)
    ensures |BitBlocks(lay, Spread())| >= 10
  {
    var some := Span(lay.bmapstart + 1, 10);
    SpanIs(lay.bmapstart + 1, 10);
    forall b | b in some
      ensures b in BitBlocks(lay, Spread())
    {
      SpreadBits(lay, b - lay.bmapstart);
    }
    SubsetSize(some, BitBlocks(lay, Spread()));
  }

  // ----- the map that a disk holds -----

  ghost function PlanOf<B>(s: State<B>, i: nat): (r: Plan)
    requires Shaped(s) && i < |s.inodes|
    ensures r.Sane() && r.table == At(s, Table(i))
    ensures forall n :: 0 <= n < MAXFILE ==> r.at[n] == At(s, FileSlot(i, n))
  {
    Plan(seq(MAXFILE, n requires 0 <= n < MAXFILE => At(s, FileSlot(i, n))), At(s, Table(i)))
  }

  ghost function PlacesOf<B>(s: State<B>): (r: Places)
    requires Shaped(s)
    ensures |s.used| > 0 && s.used[0] ==> r.Sane()
    ensures |r.plans| == |s.inodes|
  {
    Places(s.used, seq(|s.inodes|, i requires 0 <= i < |s.inodes| => PlanOf(s, i)))
  }

  lemma FillPlan<B>(s: State<B>, datastart: nat, owner: map<nat, Slot>, x: Slot, b: nat, zero: seq<B>, raw: seq<B>,
                    i: nat)
    requires CanFill(s, datastart, owner, x, b, zero, raw) && i < |s.inodes|
    ensures var s1 := Fill(s, datastart, owner, x, b, zero, raw);
            && b != 0 && Shaped(s1) && |s1.inodes| == |s.inodes|
            && PlanOf(s1, i) == if i == x.ino then WithSlot(PlanOf(s, i), x, b) else PlanOf(s, i)
  {
    var s1 := Fill(s, datastart, owner, x, b, zero, raw);
    FillAt(s, datastart, owner, x, b, zero, raw, Table(i));
    var plan := if i == x.ino then WithSlot(PlanOf(s, i), x, b) else PlanOf(s, i);
    forall n | 0 <= n < MAXFILE
      ensures PlanOf(s1, i).at[n] == plan.at[n]
    {
      FillAt(s, datastart, owner, x, b, zero, raw, FileSlot(i, n));
    }
    assert PlanOf(s1, i).at == plan.at;
  }

  /** Filling a slot with the first free block is Alloc. */
  lemma FillPlaces<B>(s: State<B>, datastart: nat, owner: map<nat, Slot>, x: Slot, b: nat, zero: seq<B>, raw: seq<B>,
                      lay: Layout)
    requires CanFill(s, datastart, owner, x, b, zero, raw) && forall y :: 0 <= y < b ==> s.used[y]
    ensures var s1, p := Fill(s, datastart, owner, x, b, zero, raw), PlacesOf(s);
            && Shaped(s1) && p.Sane() && p.HasSlot(x)
            && Alloc(lay, p, x) == Effect(true, PlacesOf(s1), [lay.BitBlock(b), b]
                                          + if x.Entry? then [At(s, Table(x.ino))] else [])
  {
    var s1, p := Fill(s, datastart, owner, x, b, zero, raw), PlacesOf(s);
    assert b == FirstFree(p.used);
    FillAt(s, datastart, owner, x, b, zero, raw, x);
    forall i | 0 <= i < |s.inodes|
      ensures |s1.inodes| == |s.inodes| && PlanOf(s1, i) == Alloc(lay, p, x).p.plans[i]
    {
      FillPlan(s, datastart, owner, x, b, zero, raw, i);
    }
    assert PlacesOf(s1).plans == Alloc(lay, p, x).p.plans;
  }

  /** Storing bytes moves no block. */
  lemma WriteKeepsPlaces<B>(s: State<B>, datastart: nat, owner: map<nat, Slot>, i: nat, n: nat, o: nat, part: seq<B>,
                            words: seq<nat>)
    requires CanWrite(s, datastart, owner, i, n, o, part, words)
    ensures var s1 := FileMap.Write(s, datastart, owner, i, n, o, part, words);
            Shaped(s1) && PlacesOf(s1) == PlacesOf(s)
  {
    var s1 := FileMap.Write(s, datastart, owner, i, n, o, part, words);
    WriteAt(s, datastart, owner, i, n, o, part, words, Table(i));
    forall j | 0 <= j < |s.inodes|
      ensures PlanOf(s1, j) == PlanOf(s, j)
    {
      WriteAt(s, datastart, owner, i, n, o, part, words, Table(j));
      forall m | 0 <= m < MAXFILE
        ensures PlanOf(s1, j).at[m] == PlanOf(s, j).at[m]
      {
        WriteAt(s, datastart, owner, i, n, o, part, words, FileSlot(j, m));
      }
      assert PlanOf(s1, j).at == PlanOf(s, j).at;
    }
    assert PlacesOf(s1).plans == PlacesOf(s).plans;
  }

  lemma PlanHolds<B>(s: State<B>, datastart: nat, owner: map<nat, Slot>, i: nat, b: nat)
    requires Valid(s, datastart, owner) && i < |s.inodes|
    ensures PlanOf(s, i).Holds(b) <==> b in owner && owner[b].ino == i
  {
    var plan := PlanOf(s, i);
    if b in owner && owner[b].ino == i {
      var x := owner[b];
      assert At(s, x) == b;
      if !x.Table? {
        var n := if x.Direct? then x.k else NDIRECT + x.k;
        assert FileSlot(i, n) == x && plan.at[n] == b;
      }
    }
    if b != 0 && b in plan.at {
      var n :| 0 <= n < |plan.at| && plan.at[n] == b;
      assert At(s, FileSlot(i, n)) == b;
    }
  }

  /** Giving up all blocks of a file is Trunc. */
  lemma TruncatedPlaces<B>(s: State<B>, datastart: nat, owner: map<nat, Slot>, i: nat, s1: State<B>, lay: Layout)
    requires Valid(s, datastart, owner) && i < |s.inodes| && Truncated(s, owner, i, s1)
    ensures Shaped(s1) && PlacesOf(s).Sane() && PlacesOf(s1) == Trunc(lay, PlacesOf(s), i).p
  {
    var r := Trunc(lay, PlacesOf(s), i).p;
    TruncateAt(s, owner, i, s1, Table(i));
    forall j | 0 <= j < |s.inodes|
      ensures PlanOf(s1, j) == r.plans[j]
    {
      TruncateAt(s, owner, i, s1, Table(j));
      forall m | 0 <= m < MAXFILE
        ensures PlanOf(s1, j).at[m] == r.plans[j].at[m]
      {
        TruncateAt(s, owner, i, s1, FileSlot(j, m));
      }
      assert PlanOf(s1, j).at == r.plans[j].at;
    }
    assert PlacesOf(s1).plans == r.plans;
    forall b | 0 <= b < |s.used|
      ensures s1.used[b] == r.used[b]
    {
      PlanHolds(s, datastart, owner, i, b);
    }
    assert s1.used == r.used;
  }

  // ----- how an operation ends -----

  /** Done, or in the panic of balloc or of log_write. */
  datatype End = Done | NoBlock | LogFull

  /** The panic that comes first: the calls of log_write before a panic of balloc
      are those that were made. */
  function EndOf(e: Effect, calls: seq<nat>, limit: nat): End {
    if Overfull(calls + e.calls, limit) then LogFull else if !e.ok then NoBlock else Done
  }

  /** writei's error return, for a file of this size. */
  predicate Refused(size: nat, off: nat, n: nat) {
    off > size || off + n > MAXFILE * BSIZE
  }

  /** The chunk loop of filewrite: how it ends, how many bytes it writes, and the
      calls of each transaction. */
  datatype FileEnd = FileEnd(end: End, p: Places, w: nat, txs: seq<seq<nat>>)

  function NextChunk(n: nat): nat {
    if n > CHUNK then CHUNK else n
  }

  function NextSize(size: nat, off: nat, n: nat): nat {
    if off + NextChunk(n) > size then off + NextChunk(n) else size
  }

  function Filewrite(lay: Layout, limit: nat, p: Places, i: nat, size: nat, off: nat, n: nat): (r: FileEnd)
    requires i < |p.plans|
    ensures |r.p.plans| == |p.plans|
    decreases n
  {
    if n == 0 then FileEnd(Done, p, 0, [])
    else if Refused(size, off, NextChunk(n)) then FileEnd(Done, p, 0, [[]])
    else
      var e := Write(lay, p, i, off, off + NextChunk(n));
      var end := EndOf(e, [], limit);
      if end != Done then FileEnd(end, p, 0, [e.calls])
      else
        var rest := Filewrite(lay, limit, e.p, i, NextSize(size, off, n), off + NextChunk(n), n - NextChunk(n));
        rest.(w := NextChunk(n) + rest.w, txs := [e.calls] + rest.txs)
  }

  /** e is what the next chunk does, m bytes at off; folded except where a proof
      mentions Unfold. */
  ghost predicate IsChunk(lay: Layout, p: Places, i: nat, off: nat, m: nat, e: Effect) {
    && i < |p.plans| == |e.p.plans| && off + m <= MAXFILE * BSIZE && 0 < m <= CHUNK
    && forall k {:trigger Unfold(k)} :: k >= 0 ==> e == Write(lay, p, i, off, off + m)
  }

  /** r is what the chunk loop comes to; folded in the same way. */
  ghost predicate Writes(lay: Layout, limit: nat, p: Places, i: nat, size: nat, off: nat, n: nat, r: FileEnd) {
    i < |p.plans| && forall k {:trigger Unfold(k)} :: k >= 0 ==> r == Filewrite(lay, limit, p, i, size, off, n)
  }

  lemma WritesRefused(lay: Layout, limit: nat, p: Places, i: nat, size: nat, off: nat, n: nat, r: FileEnd)
    requires Writes(lay, limit, p, i, size, off, n, r) && n > 0 && Refused(size, off, NextChunk(n))
    ensures r == FileEnd(Done, p, 0, [[]])
  {
    assert Unfold(0);
  }

  lemma FirstChunk(lay: Layout, p: Places, i: nat, off: nat, m: nat) returns (e: Effect)
    requires i < |p.plans| && off + m <= MAXFILE * BSIZE && 0 < m <= CHUNK
    ensures IsChunk(lay, p, i, off, m, e)
  {
    e := Write(lay, p, i, off, off + m);
  }

  lemma WritesStops(lay: Layout, limit: nat, p: Places, i: nat, size: nat, off: nat, n: nat, r: FileEnd, e: Effect)
    requires Writes(lay, limit, p, i, size, off, n, r) && n > 0 && !Refused(size, off, NextChunk(n))
    requires IsChunk(lay, p, i, off, NextChunk(n), e) && EndOf(e, [], limit) != Done
    ensures r == FileEnd(EndOf(e, [], limit), p, 0, [e.calls])
  {
    assert Unfold(0);
  }

  lemma WritesRest(lay: Layout, limit: nat, p: Places, i: nat, size: nat, off: nat, n: nat, r: FileEnd, e: Effect)
    returns (rest: FileEnd)
    requires Writes(lay, limit, p, i, size, off, n, r) && n > 0 && !Refused(size, off, NextChunk(n))
    requires IsChunk(lay, p, i, off, NextChunk(n), e) && EndOf(e, [], limit) == Done
    ensures r == rest.(w := NextChunk(n) + rest.w, txs := [e.calls] + rest.txs)
    ensures Writes(lay, limit, e.p, i, NextSize(size, off, n), off + NextChunk(n), n - NextChunk(n), rest)
  {
    assert Unfold(0);
    rest := Filewrite(lay, limit, e.p, i, NextSize(size, off, n), off + NextChunk(n), n - NextChunk(n));
  }

  lemma WritesNone(lay: Layout, limit: nat, p: Places, i: nat, size: nat, off: nat, r: FileEnd)
    requires Writes(lay, limit, p, i, size, off, 0, r)
    ensures r == FileEnd(Done, p, 0, [])
  {
    assert Unfold(0);
  }

  // ----- the blocks it takes -----

  /** How much of n bytes at off the chunk loop writes if it meets no panic: chunks up
      to the first one that writei refuses. */
  function Accepted(size: nat, off: nat, n: nat): nat {
    if off > size then 0
    else if off + n <= MAXFILE * BSIZE then n
    else if off > MAXFILE * BSIZE then 0
    else (MAXFILE * BSIZE - off) / CHUNK * CHUNK
  }

  /** Folded in the same way. */
  ghost predicate Accepts(size: nat, off: nat, n: nat, all: nat) {
    && all <= n && (all > 0 ==> off + all <= MAXFILE * BSIZE)
    && forall k {:trigger Unfold(k)} :: k >= 0 ==> all == Accepted(size, off, n)
  }

  lemma AcceptsAll(size: nat, off: nat, n: nat)
    ensures Accepts(size, off, n, Accepted(size, off, n))
  {
  }

  lemma AcceptsNext(size: nat, off: nat, n: nat, all: nat)
    requires Accepts(size, off, n, all) && n > 0
    ensures if Refused(size, off, NextChunk(n)) then all == 0
            else NextChunk(n) <= all && Accepts(NextSize(size, off, n), off + NextChunk(n), n - NextChunk(n),
                                                all - NextChunk(n))
  {
    assert Unfold(0);
  }

  /** The blocks that bytes off..off + n of file i lack are free; folded in the same way. */
  ghost predicate Roomy(p: Places, i: nat, off: nat, n: nat) {
    && i < |p.plans| && off + n <= MAXFILE * BSIZE
    && forall k {:trigger Unfold(k)} :: k >= 0 ==> Need(p.plans[i].Shape(), off, off + n) <= Free(p.used)
  }

  /** The first chunk, of m bytes, when all bytes are to be written. */
  lemma ChunkNeeds(lay: Layout, p: Places, i: nat, off: nat, m: nat, all: nat, e: Effect)
    requires p.Sane() && IsChunk(lay, p, i, off, m, e) && m <= all && off + all <= MAXFILE * BSIZE
    ensures if e.ok then e.p.Sane() && (Roomy(p, i, off, all) <==> Roomy(e.p, i, off + m, all - m))
            else !Roomy(p, i, off, all)
  {
    var r := ChunkTakes(lay, p, i, off, m, e);
    TakesPart(p, i, off, m, all, r);
    RoomyIs(p, i, off, all);
    if e.ok { RoomyIs(e.p, i, off + m, all - m); }
  }

  lemma ChunkTakes(lay: Layout, p: Places, i: nat, off: nat, m: nat, e: Effect) returns (r: Effect)
    requires p.Sane() && IsChunk(lay, p, i, off, m, e)
    ensures TakesAll(r, p, i, off, off + m) && r.ok == e.ok && r.p == e.p && (e.ok ==> e.p.Sane())
  {
    assert Unfold(0);
    RoundsNeed(lay, p, i, off, off + m);
    r := Rounds(lay, p, i, off, off + m);
  }

  lemma TakesPart(p: Places, i: nat, off: nat, m: nat, all: nat, r: Effect)
    requires i < |p.plans| && m <= all && off + all <= MAXFILE * BSIZE && TakesAll(r, p, i, off, off + m)
    ensures var fits := Need(p.plans[i].Shape(), off, off + all) <= Free(p.used);
            if r.ok then fits <==> Need(r.p.plans[i].Shape(), off + m, off + all) <= Free(r.p.used) else !fits
  {
    var sh := p.plans[i].Shape();
    NeedSplit(sh, off, off + m, off + all);
    NeedIsNat(GrownTo(sh, off, off + m), off + m, off + all);
  }

  lemma RoomyIs(p: Places, i: nat, off: nat, n: nat)
    requires i < |p.plans| && off + n <= MAXFILE * BSIZE
    ensures Roomy(p, i, off, n) <==> Need(p.plans[i].Shape(), off, off + n) <= Free(p.used)
  {
    assert Unfold(0);
  }

  lemma RoomyNone(p: Places, i: nat, off: nat)
    requires i < |p.plans| && off <= MAXFILE * BSIZE
    ensures Roomy(p, i, off, 0)
  {
    GrownNone(p.plans[i].Shape(), off, off);
    assert Need(p.plans[i].Shape(), off, off + 0) <= Free(p.used);
  }

  lemma {:induction false} WritesNeed(lay: Layout, limit: nat, p: Places, i: nat, size: nat, off: nat, n: nat, all: nat,
                                      r: FileEnd)
    requires p.Sane() && Writes(lay, limit, p, i, size, off, n, r) && Accepts(size, off, n, all)
    ensures r.end != LogFull ==> (r.end.Done? <==> all == 0 || Roomy(p, i, off, all))
    ensures r.end.Done? ==> r.w == all
    decreases n
  {
    if n == 0 {
      WritesNone(lay, limit, p, i, size, off, r);
    } else {
      var m := NextChunk(n);
      AcceptsNext(size, off, n, all);
      if Refused(size, off, m) {
        WritesRefused(lay, limit, p, i, size, off, n, r);
      } else {
        var e := FirstChunk(lay, p, i, off, m);
        ChunkNeeds(lay, p, i, off, m, all, e);
        if EndOf(e, [], limit) != Done {
          WritesStops(lay, limit, p, i, size, off, n, r, e);
        } else {
          var rest := WritesRest(lay, limit, p, i, size, off, n, r, e);
          WritesNeed(lay, limit, e.p, i, NextSize(size, off, n), off + m, n - m, all - m, rest);
          RoomyNone(e.p, i, off + m);
        }
      }
    }
  }

  /** The chunk loop writes all that writei accepts, exactly if the blocks that this
      lacks are free, unless log_write panics. */
  lemma FilewriteNeeds(lay: Layout, limit: nat, p: Places, i: nat, size: nat, off: nat, n: nat, r: FileEnd)
    requires p.Sane() && Writes(lay, limit, p, i, size, off, n, r)
    ensures var all := Accepted(size, off, n);
            && (all > 0 ==> off + all <= MAXFILE * BSIZE)
            && (r.end != LogFull ==>
                  (r.end.Done? <==> all == 0 || Need(p.plans[i].Shape(), off, off + all) <= Free(p.used)))
            && (r.end.Done? ==> r.w == all)
  {
    var all := Accepted(size, off, n);
    AcceptsAll(size, off, n);
    WritesNeed(lay, limit, p, i, size, off, n, all, r);
    if all > 0 { RoomyIs(p, i, off, all); }
  }

  // ----- the blocks it logs -----

  /** The next chunk starts in a block of the file or on a boundary. */
  ghost predicate Started(p: Places, i: nat, off: nat) {
    i < |p.plans| && (off % BSIZE != 0 && off / BSIZE < MAXFILE ==> p.plans[i].at[off / BSIZE] != 0)
  }

  lemma ChunkLogs(lay: Layout, limit: nat, p: Places, i: nat, off: nat, m: nat, e: Effect)
    requires p.Sane() && Started(p, i, off) && IsChunk(lay, p, i, off, m, e)
    ensures |Elems(e.calls)| <= L.MAXOPBLOCKS && (limit > L.MAXOPBLOCKS ==> EndOf(e, [], limit) != LogFull)
  {
    assert Unfold(0);
    WriteLogs(lay, p, i, off, off + m);
    assert [] + e.calls == e.calls;
    OverfullByCount(e.calls, limit);
  }

  lemma ChunkStarts(lay: Layout, p: Places, i: nat, off: nat, m: nat, e: Effect)
    requires p.Sane() && IsChunk(lay, p, i, off, m, e) && e.ok
    ensures e.p.Sane() && Started(e.p, i, off + m)
  {
    assert Unfold(0);
    RoundsNeed(lay, p, i, off, off + m);
    if (off + m) % BSIZE != 0 {
      GrownLast(p.plans[i].Shape(), off, off + m);
      assert e.p.plans[i].Shape().has[(off + m) / BSIZE];
    }
  }

  ghost predicate Budgeted(txs: seq<seq<nat>>) {
    forall k :: 0 <= k < |txs| ==> |Elems(txs[k])| <= L.MAXOPBLOCKS
  }

  /** Each transaction of the chunk loop keeps to what begin_op has reserved, if the
      first starts in a block of the file or on a boundary. */
  lemma {:induction false} FilewriteLogs(lay: Layout, limit: nat, p: Places, i: nat, size: nat, off: nat, n: nat,
                                         r: FileEnd)
    requires p.Sane() && Writes(lay, limit, p, i, size, off, n, r) && (off <= size ==> Started(p, i, off))
    ensures Budgeted(r.txs) && (limit > L.MAXOPBLOCKS ==> r.end != LogFull)
    decreases n
  {
    if n == 0 {
      WritesNone(lay, limit, p, i, size, off, r);
    } else {
      var m := NextChunk(n);
      if Refused(size, off, m) {
        WritesRefused(lay, limit, p, i, size, off, n, r);
        var none: seq<nat> := [];
        assert Elems(none) == {};
      } else {
        var e := FirstChunk(lay, p, i, off, m);
        ChunkLogs(lay, limit, p, i, off, m, e);
        if EndOf(e, [], limit) != Done {
          WritesStops(lay, limit, p, i, size, off, n, r, e);
        } else {
          var rest := WritesRest(lay, limit, p, i, size, off, n, r, e);
          ChunkStarts(lay, p, i, off, m, e);
          FilewriteLogs(lay, limit, e.p, i, NextSize(size, off, n), off + m, n - m, rest);
        }
      }
    }
  }
}
