/** Which blocks of the disk files hold and how many are left (kernel/fs.c): when a
    write finds the blocks it needs, and what a truncation gives back. */
module DiskRoom {
  import opened FileMap

  /** Which blocks a file has, and whether it has an indirect block. */
  datatype Shape = Shape(has: seq<bool>, table: bool) {
    predicate Sane() {
      |has| == MAXFILE && forall n :: NDIRECT <= n < MAXFILE && has[n] ==> table
    }
  }

  /** The number of clear bits. */
  ghost function Free(used: seq<bool>): nat {
    if used == [] then 0 else Free(used[..|used| - 1]) + if used[|used| - 1] then 0 else 1
  }

  // ----- counting bits -----

  lemma {:induction false} FreeSet(used: seq<bool>, b: nat, on: bool)
    requires b < |used|
    ensures Free(used[b := on]) + (if on then 1 else 0) == Free(used) + if used[b] then 1 else 0
  {
    var n := |used| - 1;
    if b < n {
      FreeSet(used[..n], b, on);
      assert used[b := on][..n] == used[..n][b := on];
    } else {
      assert used[b := on][..n] == used[..n];
    }
  }

  lemma {:induction false} FreeNone(used: seq<bool>)
    ensures Free(used) == 0 <==> forall b :: 0 <= b < |used| ==> used[b]
  {
    if used != [] { FreeNone(used[..|used| - 1]); }
  }

  // ----- blocks for a write -----

  /** The file with its block n. */
  function Grown(sh: Shape, n: nat): (r: Shape)
    requires sh.Sane() && n < MAXFILE
    ensures r.Sane()
  {
    Shape(sh.has[n := true], sh.table || n >= NDIRECT)
  }

  /** The blocks bmap has to allocate for block n: it, and the indirect block. */
  function NeedAt(sh: Shape, n: nat): nat
    requires sh.Sane() && n < MAXFILE
  {
    (if sh.has[n] then 0 else 1) + if n >= NDIRECT && !sh.table then 1 else 0
  }

  /** The number of blocks from..to that the file has. */
  function Present(has: seq<bool>, from: nat, to: nat): nat
    requires to <= |has|
  {
    if from >= to then 0 else Present(has, from, to - 1) + if has[to - 1] then 1 else 0
  }

  /** The blocks that a write to bytes pos..end has to allocate: those of its blocks
      that the file lacks, and the indirect block if it lacks that. */
  function Need(sh: Shape, pos: nat, end: nat): int
    requires sh.Sane() && end <= MAXFILE * BSIZE
  {
    if pos >= end then 0
    else
      var from, to := pos / BSIZE, (end - 1) / BSIZE + 1;
      to - from - Present(sh.has, from, to) + if to > NDIRECT && !sh.table then 1 else 0
  }

  /** The bytes of a round of writei's loop. */
  function Chunk(pos: nat, end: nat): (m: nat)
    requires pos < end
    ensures 0 < m <= end - pos
  {
    if end - pos < BSIZE - pos % BSIZE then end - pos else BSIZE - pos % BSIZE
  }

  /** The file with all the blocks of bytes pos..end. */
  function GrownTo(sh: Shape, pos: nat, end: nat): (r: Shape)
    requires sh.Sane() && end <= MAXFILE * BSIZE
    ensures r.Sane()
  {
    if pos >= end then sh
    else
      var from, to := pos / BSIZE, (end - 1) / BSIZE + 1;
      Shape(seq(MAXFILE, n requires 0 <= n < MAXFILE => sh.has[n] || from <= n < to), sh.table || to > NDIRECT)
  }

  lemma {:induction false} PresentFront(has: seq<bool>, from: nat, to: nat)
    requires from < to <= |has|
    ensures Present(has, from, to) == (if has[from] then 1 else 0) + Present(has, from + 1, to)
  {
    if from + 1 < to { PresentFront(has, from, to - 1); }
  }

  lemma {:induction false} PresentAbove(has: seq<bool>, n: nat, from: nat, to: nat)
    requires n < from && n < |has| && to <= |has|
    ensures Present(has[n := true], from, to) == Present(has, from, to)
  {
    if from < to { PresentAbove(has, n, from, to - 1); }
  }

  lemma {:induction false} PresentBound(has: seq<bool>, from: nat, to: nat)
    requires to <= |has|
    ensures from <= to ==> Present(has, from, to) <= to - from
  {
    if from < to { PresentBound(has, from, to - 1); }
  }

  /** The first round takes its share and leaves the need of the rest. */
  lemma NeedFront(sh: Shape, pos: nat, end: nat)
    requires sh.Sane() && pos < end <= MAXFILE * BSIZE
    ensures pos / BSIZE < MAXFILE
    ensures Need(sh, pos, end) == NeedAt(sh, pos / BSIZE) + Need(Grown(sh, pos / BSIZE), pos + Chunk(pos, end), end)
    ensures Need(Grown(sh, pos / BSIZE), pos + Chunk(pos, end), end) >= 0
  {
    var n, to, pos1 := pos / BSIZE, (end - 1) / BSIZE + 1, pos + Chunk(pos, end);
    var sh1 := Grown(sh, n);
    PresentFront(sh.has, n, to);
    if pos1 < end {
      assert pos1 / BSIZE == n + 1;
      PresentAbove(sh.has, n, n + 1, to);
      PresentBound(sh1.has, n + 1, to);
    } else {
      assert to == n + 1;
    }
  }

  lemma GrownFront(sh: Shape, pos: nat, end: nat)
    requires sh.Sane() && pos < end <= MAXFILE * BSIZE && pos / BSIZE < MAXFILE
    ensures GrownTo(sh, pos, end) == GrownTo(Grown(sh, pos / BSIZE), pos + Chunk(pos, end), end)
  {
    var n, to, pos1 := pos / BSIZE, (end - 1) / BSIZE + 1, pos + Chunk(pos, end);
    if pos1 < end {
      assert pos1 / BSIZE == n + 1;
    } else {
      assert to == n + 1;
    }
    assert GrownTo(sh, pos, end).has == GrownTo(Grown(sh, n), pos1, end).has;
  }

  lemma GrownAgain(sh: Shape, n: nat)
    requires sh.Sane() && n < MAXFILE
    ensures Grown(Grown(sh, n), n) == Grown(sh, n) && NeedAt(Grown(sh, n), n) == 0
  {
    assert sh.has[n := true][n := true] == sh.has[n := true];
  }

  lemma GrownNone(sh: Shape, pos: nat, end: nat)
    requires sh.Sane() && end <= MAXFILE * BSIZE && pos >= end
    ensures GrownTo(sh, pos, end) == sh && Need(sh, pos, end) == 0
  {
  }

  lemma NeedIsNat(sh: Shape, pos: nat, end: nat)
    requires sh.Sane() && end <= MAXFILE * BSIZE
    ensures Need(sh, pos, end) >= 0
  {
    if pos < end { PresentBound(sh.has, pos / BSIZE, (end - 1) / BSIZE + 1); }
  }

  /** After a write that ends inside a block the file has that block. */
  lemma GrownLast(sh: Shape, pos: nat, end: nat)
    requires sh.Sane() && pos < end <= MAXFILE * BSIZE && end % BSIZE != 0
    ensures end / BSIZE < MAXFILE && GrownTo(sh, pos, end).has[end / BSIZE]
  {
    assert (end - 1) / BSIZE == end / BSIZE;
  }

  /** Writing on from the middle needs what writing in one go needs. */
  lemma {:induction false} NeedSplit(sh: Shape, pos: nat, mid: nat, end: nat)
    requires sh.Sane() && pos <= mid <= end <= MAXFILE * BSIZE
    ensures Need(sh, pos, end) == Need(sh, pos, mid) + Need(GrownTo(sh, pos, mid), mid, end)
    decreases mid - pos
  {
    if pos == mid {
      GrownNone(sh, pos, mid);
    } else {
      var n := pos / BSIZE;
      NeedFront(sh, pos, mid);
      NeedFront(sh, pos, end);
      GrownFront(sh, pos, mid);
      if pos + Chunk(pos, end) <= mid {
        assert Chunk(pos, mid) == Chunk(pos, end);
        NeedSplit(Grown(sh, n), pos + Chunk(pos, end), mid, end);
      } else {
        assert mid / BSIZE == n && Chunk(pos, mid) == mid - pos && mid + Chunk(mid, end) == pos + Chunk(pos, end);
        GrownNone(Grown(sh, n), mid, mid);
        NeedFront(Grown(sh, n), mid, end);
        GrownAgain(sh, n);
      }
    }
  }

  // ----- blocks from a truncation -----

  /** The blocks a file holds. */
  function BlocksHeld(sh: Shape): nat
    requires sh.Sane()
  {
    Present(sh.has, 0, MAXFILE) + if sh.table then 1 else 0
  }

  lemma {:induction false} PresentJoin(has: seq<bool>, from: nat, mid: nat, to: nat)
    requires from <= mid <= to <= |has|
    ensures Present(has, from, to) == Present(has, from, mid) + Present(has, mid, to)
  {
    if mid < to { PresentJoin(has, from, mid, to - 1); }
  }

  lemma {:induction false} PresentNone(has: seq<bool>, from: nat, to: nat)
    requires to <= |has| && forall n :: from <= n < to ==> !has[n]
    ensures Present(has, from, to) == 0
  {
    if from < to { PresentNone(has, from, to - 1); }
  }

  lemma {:induction false} PresentAll(has: seq<bool>, from: nat, to: nat)
    requires from <= to <= |has| && forall n :: from <= n < to ==> has[n]
    ensures Present(has, from, to) == to - from
  {
    if from < to { PresentAll(has, from, to - 1); }
  }

  /** Writing over blocks that are there needs none. */
  lemma NeedNone(sh: Shape, pos: nat, end: nat)
    requires sh.Sane() && end <= MAXFILE * BSIZE && forall n :: 0 <= n < MAXFILE && n * BSIZE < end ==> sh.has[n]
    ensures Need(sh, pos, end) == 0
  {
    if pos < end {
      var from, to := pos / BSIZE, (end - 1) / BSIZE + 1;
      forall n | from <= n < to
        ensures sh.has[n]
      {
        assert n * BSIZE < end;
      }
      PresentAll(sh.has, from, to);
    }
  }
}
