/** The swap file as the paging code uses it (kernel/fs.c, readFromSwapFile and
    writeToSwapFile): a file of whole pages, one per slot. It behaves as the page
    sequence of module Paging. */
module SwapFile {
  import opened DiskRoom
  import opened FileMap
  import opened FileSystem
  import A = Allocation
  import L = LogSpace
  import P = Paging

  /** The pages of a file of n pages. */
  ghost function PagesOf(c: seq<Byte>, n: nat): (r: seq<seq<Byte>>)
    requires |c| == n * P.PGSIZE
  {
    seq<seq<Byte>>(n, k requires 0 <= k < n => c[k * P.PGSIZE..(k + 1) * P.PGSIZE])
  }

  /** Splicing a page into its place is storing it in its slot. */
  lemma SpliceIsStored(c: seq<Byte>, n: nat, slot: nat, page: seq<Byte>)
    requires |c| == n * P.PGSIZE && slot <= n && |page| == P.PGSIZE
    ensures var c1 := Splice(c, slot * P.PGSIZE, page);
            var n1 := if slot == n then n + 1 else n;
            |c1| == n1 * P.PGSIZE && PagesOf(c1, n1) == P.Stored(PagesOf(c, n), slot, page)
  {
    var c1 := Splice(c, slot * P.PGSIZE, page);
    var n1 := if slot == n then n + 1 else n;
    assert |c1| == n1 * P.PGSIZE;
    forall k | 0 <= k < n1
      ensures PagesOf(c1, n1)[k] == P.Stored(PagesOf(c, n), slot, page)[k]
    {
      SplicePage(c, n, slot, page, k);
    }
  }

  lemma SplicePage(c: seq<Byte>, n: nat, slot: nat, page: seq<Byte>, k: nat)
    requires |c| == n * P.PGSIZE && slot <= n && |page| == P.PGSIZE && (k < n || k == slot)
    ensures var c1 := Splice(c, slot * P.PGSIZE, page);
            (k + 1) * P.PGSIZE <= |c1|
            && c1[k * P.PGSIZE..(k + 1) * P.PGSIZE] == if k == slot then page else c[k * P.PGSIZE..(k + 1) * P.PGSIZE]
  {
  }

  /** writeToSwapFile: stores the page, unless the slot starts past the end. It ends in
      balloc's panic exactly if the blocks that it needs are not free, and not in that
      of log_write if the log is larger than an operation's share. */
  method WriteSlot(d: Disk, i: nat, ghost n: nat, slot: nat, page: seq<Byte>) returns (end: A.End, ret: int)
    requires d.Ok() && !d.over && i < |d.inodes| == |d.files| && |d.files[i]| == n * P.PGSIZE
    requires |page| == P.PGSIZE && slot < 16
    modifies d
    ensures |old(d.places).plans| == |old(d.inodes)| && (d.limit > L.MAXOPBLOCKS ==> !end.LogFull?)
    ensures !end.LogFull? ==>
              (end.Done? <==> slot > n || Need(old(d.places).plans[i].Shape(), slot * P.PGSIZE, (slot + 1) * P.PGSIZE)
                                          <= Free(old(d.places).used))
    ensures slot < n ==> !end.NoBlock?
    ensures end.Done? ==> d.Ok() && !d.over && |d.files| == |old(d.files)| == |d.inodes|
    ensures end.Done? && slot > n ==> ret == -1 && d.files == old(d.files)
    ensures end.Done? && slot <= n ==>
              ret == P.PGSIZE && d.files == old(d.files)[i := d.files[i]]
              && |d.files[i]| == (if slot == n then n + 1 else n) * P.PGSIZE
              && PagesOf(d.files[i], if slot == n then n + 1 else n)
                == P.Stored(PagesOf(old(d.files)[i], n), slot, page)
              && d.files[i][slot * 4096..slot * 4096 + 4096] == page
              && forall k :: 0 <= k < |old(d.files)[i]| && !(slot * 4096 <= k < slot * 4096 + 4096) ==>
                   d.files[i][k] == old(d.files)[i][k]
  {
    if slot < n { OverwriteFits(d.s, d.lay.datastart, d.owner, d.files, d.places, i, slot * P.PGSIZE,
                                (slot + 1) * P.PGSIZE); }
    PlacedSane(d.s, d.lay.datastart, d.owner, d.files, d.places);
    var off;
    ghost var r;
    end, ret, off, r := d.Filewrite(i, slot * P.PGSIZE, page);
    SlotFits(d.lay, d.limit, old(d.places), i, n, slot, r);
    if end.Done? && slot <= n {
      assert page[..r.w] == page;
      SpliceIsStored(old(d.files)[i], n, slot, page);
    }
  }

  lemma SlotFits(lay: Layout, limit: nat, p: Places, i: nat, n: nat, slot: nat, r: A.FileEnd)
    requires p.Sane() && slot < 16
    requires A.Writes(lay, limit, p, i, n * P.PGSIZE, slot * P.PGSIZE, P.PGSIZE, r)
    ensures r.end.Done? ==> r.w == if slot <= n then P.PGSIZE else 0
    ensures r.end != A.LogFull ==>
              (r.end.Done? <==> slot > n || Need(p.plans[i].Shape(), slot * P.PGSIZE, (slot + 1) * P.PGSIZE)
                                            <= Free(p.used))
  {
    A.FilewriteNeeds(lay, limit, p, i, n * P.PGSIZE, slot * P.PGSIZE, P.PGSIZE, r);
    assert A.Accepted(n * P.PGSIZE, slot * P.PGSIZE, P.PGSIZE) == if slot <= n then P.PGSIZE else 0;
  }

  /** readFromSwapFile of a slot inside the file. */
  method ReadSlot(d: Disk, i: nat, ghost n: nat, slot: nat) returns (page: seq<Byte>)
    requires d.Ok() && i < |d.inodes| == |d.files| && |d.files[i]| == n * P.PGSIZE && slot < 16
    modifies d
    ensures d.Ok() && d.files == old(d.files) && d.logged == old(d.logged)
    ensures page == if slot < n then PagesOf(d.files[i], n)[slot] else []
  {
    page := d.Readi(i, slot * P.PGSIZE, P.PGSIZE);
  }
}
