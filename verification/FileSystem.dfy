/** kernel/fs.c over raw blocks: balloc, bfree, bmap, itrunc, readi and writei, and
    the chunk loop of kernel/file.c. Each method is tied to the step of module
    FileMap that it takes, and to the blocks that module Allocation says it takes,
    frees and passes to log_write. */
module FileSystem {
  import opened Basics
  import Blocks
  import opened FileMap
  import opened DiskRoom
  import A = Allocation
  import L = LogSpace

  type Byte = Blocks.Byte
  type Block = Blocks.Block
  type Word = Blocks.Word

  type Layout = A.Layout
  type Places = A.Places

  const BPB: nat := A.BPB
  const IPB: nat := A.IPB

  // ----- raw blocks against FileMap's reading of them -----

  predicate Bit(lay: Layout, blocks: seq<Block>, b: nat) {
    lay.BitBlock(b) < |blocks| && Blocks.GetBit(blocks[lay.BitBlock(b)], b % BPB)
  }

  /** Bits are read from the bitmap blocks, words and bytes from the data blocks.
      Folded except where a proof mentions Unfold. */
  ghost predicate Rep(lay: Layout, blocks: seq<Block>, s: State<Byte>) {
    && |blocks| == lay.size == |s.used| == |s.words| == |s.bytes|
    && forall k {:trigger Unfold(k)} :: k >= 0 ==>
      && (forall b :: 0 <= b < lay.size ==> |s.words[b]| == NINDIRECT)
      && (forall b {:trigger s.used[b]} {:trigger Bit(lay, blocks,
                                                      b)} :: 0 <= b < lay.size ==> (s.used[b] <==> Bit(lay, blocks, b)))
      && (forall b {:trigger s.words[b]} :: lay.datastart <= b < lay.size ==> SameWords(blocks[b], s.words[b]))
      && (forall b {:trigger s.bytes[b]} :: lay.datastart <= b < lay.size ==> s.bytes[b] == blocks[b])
  }

  ghost predicate SameWords(block: Block, words: seq<nat>)
    requires |words| == NINDIRECT
  {
    forall k :: 0 <= k < NINDIRECT ==> words[k] == Blocks.GetWord(block, k)
  }

  lemma SameBit(b: nat, x: nat)
    requires b / BPB == x / BPB && b % BPB == x % BPB
    ensures b == x
  {
  }

  /** A bit of a bitmap block is switched. */
  lemma RepBit(lay: Layout, blocks: seq<Block>, s: State<Byte>, b: nat, on: bool, bp: Block)
    requires lay.Fits() && Rep(lay, blocks, s) && b < lay.size && lay.BitBlock(b) < lay.size
    requires Blocks.BitSet(blocks[lay.BitBlock(b)], b % BPB, on, bp)
    ensures Rep(lay, blocks[lay.BitBlock(b) := bp], s.(used := s.used[b := on]))
  {
    assert Unfold(0);
    var blocks1, s1 := blocks[lay.BitBlock(b) := bp], s.(used := s.used[b := on]);
    assert lay.BitBlock(b) < lay.datastart;
    forall x | 0 <= x < lay.size
      ensures s1.used[x] <==> Bit(lay, blocks1, x)
    {
      assert s.used[x] <==> Bit(lay, blocks, x);
      if x / BPB == b / BPB && x % BPB == b % BPB { SameBit(b, x); }
    }
  }

  /** A data block is replaced. */
  lemma RepData(lay: Layout, blocks: seq<Block>, s: State<Byte>, a: nat, data: Block, words: seq<nat>)
    requires lay.Fits() && Rep(lay, blocks, s) && lay.datastart <= a < lay.size
    requires |words| == NINDIRECT && SameWords(data, words)
    ensures Rep(lay, blocks[a := data], s.(words := s.words[a := words], bytes := s.bytes[a := data]))
  {
    assert Unfold(0);
    var blocks1 := blocks[a := data];
    forall x | 0 <= x < lay.size
      ensures s.used[x] <==> Bit(lay, blocks1, x)
    {
      assert lay.BitBlock(x) < lay.datastart;
      assert s.used[x] <==> Bit(lay, blocks, x);
    }
  }

  lemma RepReadBit(lay: Layout, blocks: seq<Block>, s: State<Byte>, b: nat)
    requires lay.Fits() && Rep(lay, blocks, s) && b < lay.size
    ensures lay.BitBlock(b) < lay.size && (s.used[b] <==> Blocks.GetBit(blocks[lay.BitBlock(b)], b % BPB))
  {
    assert Unfold(0);
    assert lay.BitBlock(b) < lay.datastart;
    assert s.used[b] <==> Bit(lay, blocks, b);
  }

  lemma RepReadData(lay: Layout, blocks: seq<Block>, s: State<Byte>, a: nat)
    requires lay.Fits() && Rep(lay, blocks, s) && lay.datastart <= a < lay.size
    ensures s.bytes[a] == blocks[a] && |s.words[a]| == NINDIRECT && SameWords(blocks[a], s.words[a])
  {
    assert Unfold(0);
  }

  lemma RepInodes(lay: Layout, blocks: seq<Block>, s: State<Byte>, s1: State<Byte>)
    requires Rep(lay, blocks, s) && s1.used == s.used && s1.words == s.words && s1.bytes == s.bytes
    ensures Rep(lay, blocks, s1)
  {
    assert Unfold(0);
  }

  lemma ZeroWords()
    ensures SameWords(Blocks.Zero(), NoWords())
  {
  }

  lemma SameBlock(base: nat, bi: nat)
    requires base % BPB == 0 && bi < BPB
    ensures (base + bi) / BPB == base / BPB && (base + bi) % BPB == bi
  {
  }

  /** s is sound and its files have these contents; folded like Rep. */
  ghost predicate Sound(s: State<Byte>, datastart: nat, owner: map<nat, Slot>, files: seq<seq<Byte>>) {
    forall k {:trigger Unfold(k)} :: k >= 0 ==> Valid(s, datastart, owner) && Holds(s, files)
  }

  ghost predicate Full(s: State<Byte>) {
    forall x :: 0 <= x < |s.used| ==> s.used[x]
  }

  lemma NextSlice(file: seq<Byte>, from: nat, to: nat, part: seq<Byte>)
    requires from <= to && to + |part| <= |file| && part == file[to..to + |part|]
    ensures file[from..to] + part == file[from..to + |part|]
  {
  }

  /** src has gone into file i up to byte n, and now the next m bytes go. */
  lemma NextPart(files: seq<seq<Byte>>, i: nat, off: nat, src: seq<Byte>, n: nat, m: nat)
    requires i < |files| && off <= |files[i]| && n + m <= |src|
    ensures var mid := files[i := Splice(files[i], off, src[..n])];
            off + n <= |mid[i]|
            && mid[i := Splice(mid[i], off + n, src[n..n + m])] == files[i := Splice(files[i], off, src[..n + m])]
  {
    SpliceTwice(files[i], off, src[..n], src[n..n + m]);
    assert src[..n] + src[n..n + m] == src[..n + m];
  }

  lemma SoundMeta(s: State<Byte>, datastart: nat, owner: map<nat, Slot>, files: seq<seq<Byte>>)
    requires Sound(s, datastart, owner, files)
    ensures Shaped(s) && datastart <= |s.used| && forall x :: 0 <= x < datastart ==> s.used[x]
  {
    assert Unfold(0);
  }

  /** A block number in a slot is that of a data block in use. */
  lemma SoundSlot(s: State<Byte>, datastart: nat, owner: map<nat, Slot>, files: seq<seq<Byte>>, x: Slot)
    requires Sound(s, datastart, owner, files) && Shaped(s) && IsSlot(s, x)
    ensures At(s, x) != 0 ==> datastart <= At(s, x) < |s.used| && s.used[At(s, x)]
  {
    assert Unfold(0);
  }

  lemma SoundSize(s: State<Byte>, datastart: nat, owner: map<nat, Slot>, files: seq<seq<Byte>>, i: nat)
    requires Sound(s, datastart, owner, files) && i < |s.inodes|
    ensures |files| == |s.inodes| && |files[i]| == s.inodes[i].size <= MAXFILE * BSIZE
  {
    assert Unfold(0);
    assert Contains(s, i, files[i]);
  }

  lemma SoundFiles(s: State<Byte>, datastart: nat, owner: map<nat, Slot>, files: seq<seq<Byte>>)
    requires Sound(s, datastart, owner, files)
    ensures |files| == |s.inodes|
  {
    assert Unfold(0);
  }

  lemma SoundBlock(s: State<Byte>, datastart: nat, owner: map<nat, Slot>, files: seq<seq<Byte>>, i: nat, n: nat)
    requires Sound(s, datastart, owner, files) && Shaped(s) && i < |s.inodes| && n * BSIZE < s.inodes[i].size
    ensures n < MAXFILE && At(s, FileSlot(i, n)) != 0
  {
    assert Unfold(0);
  }

  lemma ReadSound(s: State<Byte>, datastart: nat, owner: map<nat, Slot>, files: seq<seq<Byte>>, i: nat, n: nat, o: nat,
                  m: nat)
    requires Sound(s, datastart, owner, files) && Shaped(s) && i < |files| == |s.inodes|
    requires 0 < m && o + m <= BSIZE && n * BSIZE + o + m <= |files[i]|
    ensures n < MAXFILE && 0 < At(s, FileSlot(i, n)) < |s.bytes|
    ensures s.bytes[At(s, FileSlot(i, n))][o..o + m] == files[i][n * BSIZE + o..n * BSIZE + o + m]
  {
    assert Unfold(0);
    ReadShows(s, datastart, owner, i, n, o, m, files);
  }

  ghost function WordsOf(data: Block): (words: seq<nat>)
    ensures |words| == NINDIRECT && SameWords(data, words)
  {
    seq<nat>(NINDIRECT, k requires 0 <= k < NINDIRECT => Blocks.GetWord(data, k))
  }

  /** p is the block map of s; folded like Rep. */
  ghost predicate Placed(s: State<Byte>, p: Places) {
    && |p.plans| == |s.inodes| && p.used == s.used
    && forall k {:trigger Unfold(k)} :: k >= 0 ==> Shaped(s) && p == A.PlacesOf(s)
  }

  lemma PlacedIs(s: State<Byte>, p: Places)
    requires Placed(s, p)
    ensures Shaped(s) && p == A.PlacesOf(s)
  {
    assert Unfold(0);
  }

  lemma PlacedAt(s: State<Byte>, p: Places, i: nat, n: nat)
    requires Placed(s, p) && i < |s.inodes| && n < MAXFILE
    ensures Shaped(s) && p.plans[i].at[n] == At(s, FileSlot(i, n)) && p.plans[i].table == At(s, Table(i))
  {
    PlacedIs(s, p);
  }

  lemma PlacedSane(s: State<Byte>, datastart: nat, owner: map<nat, Slot>, files: seq<seq<Byte>>, p: Places)
    requires Sound(s, datastart, owner, files) && Placed(s, p)
    ensures p.Sane()
  {
    assert Unfold(0);
  }

  /** plan is that of file i; folded like Rep. */
  ghost predicate Planned(s: State<Byte>, i: nat, plan: A.Plan) {
    i < |s.inodes| && forall k {:trigger Unfold(k)} :: k >= 0 ==> Shaped(s) && plan == A.PlanOf(s, i)
  }

  lemma PlannedAt(s: State<Byte>, i: nat, plan: A.Plan, n: nat)
    requires Planned(s, i, plan) && n < MAXFILE
    ensures Shaped(s) && plan.at[n] == At(s, FileSlot(i, n)) && plan.table == At(s, Table(i))
    ensures plan.Shape().has[n] == (plan.at[n] != 0) && plan.Shape().table == (plan.table != 0)
  {
    assert Unfold(0);
  }

  lemma PlacedPlan(s: State<Byte>, p: Places, i: nat)
    requires Placed(s, p) && i < |s.inodes|
    ensures Planned(s, i, p.plans[i])
  {
    assert Unfold(0);
  }

  /** A slot is filled with the first free block. */
  lemma FillPlaced(s: State<Byte>, datastart: nat, owner: map<nat, Slot>, files: seq<seq<Byte>>, p: Places, x: Slot,
                   b: nat, zero: seq<Byte>, raw: seq<Byte>, lay: Layout)
    requires Sound(s, datastart, owner, files) && CanFill(s, datastart, owner, x, b, zero, raw) && Placed(s, p)
    requires forall y :: 0 <= y < b ==> s.used[y]
    ensures p.HasSlot(x)
    ensures var e := A.Alloc(lay, p, x);
            && Placed(Fill(s, datastart, owner, x, b, zero, raw), e.p) && e.ok
            && e.calls == [lay.BitBlock(b), b] + if x.Entry? then [p.plans[x.ino].table] else []
  {
    PlacedIs(s, p);
    A.FillPlaces(s, datastart, owner, x, b, zero, raw, lay);
    A.FillPlan(s, datastart, owner, x, b, zero, raw, x.ino);
  }

  /** Without a free block there is no slot to be filled. */
  lemma NoneFree(lay: Layout, p: Places, x: Slot)
    requires p.HasSlot(x) && forall y :: 0 <= y < |p.used| ==> p.used[y]
    ensures A.Alloc(lay, p, x) == A.Effect(false, p, [])
  {
  }

  lemma WritePlaced(s: State<Byte>, datastart: nat, owner: map<nat, Slot>, p: Places, i: nat, n: nat, o: nat,
                    part: seq<Byte>, words: seq<nat>)
    requires CanWrite(s, datastart, owner, i, n, o, part, words) && Placed(s, p)
    ensures Placed(Write(s, datastart, owner, i, n, o, part, words), p)
  {
    assert Unfold(0);
    A.WriteKeepsPlaces(s, datastart, owner, i, n, o, part, words);
  }

  lemma TruncatePlaced(s: State<Byte>, datastart: nat, owner: map<nat, Slot>, files: seq<seq<Byte>>, p: Places, i: nat,
                       s1: State<Byte>, lay: Layout)
    requires Sound(s, datastart, owner, files) && Placed(s, p) && i < |s.inodes|
    requires Cleared(s.used, s1.used, owner, i, NDIRECT, NINDIRECT, true)
    requires s1.words == s.words && s1.bytes == s.bytes && s1.inodes == s.inodes[i := NoFile()]
    ensures Placed(s1, A.Trunc(lay, p, i).p)
  {
    assert Unfold(0);
    ClearedAll(s, datastart, owner, i, s1);
    A.TruncatedPlaces(s, datastart, owner, i, s1, lay);
  }

  /** Overwriting needs no block, however full the disk is. */
  lemma OverwriteFits(s: State<Byte>, datastart: nat, owner: map<nat, Slot>, files: seq<seq<Byte>>, p: Places, i: nat,
                      off: nat, end: nat)
    requires Sound(s, datastart, owner, files) && Placed(s, p) && i < |s.inodes| == |files| && end <= |files[i]|
    ensures end <= MAXFILE * BSIZE && Need(p.plans[i].Shape(), off, end) == 0
  {
    SoundSize(s, datastart, owner, files, i);
    SoundMeta(s, datastart, owner, files);
    PlacedSane(s, datastart, owner, files, p);
    forall n | 0 <= n < MAXFILE && n * BSIZE < end
      ensures p.plans[i].Shape().has[n]
    {
      SoundBlock(s, datastart, owner, files, i, n);
      PlacedAt(s, p, i, n);
    }
    NeedNone(p.plans[i].Shape(), off, end);
  }

  /** A file has the block that any byte inside it, or at its end, is in. */
  lemma FileStarted(s: State<Byte>, datastart: nat, owner: map<nat, Slot>, files: seq<seq<Byte>>, p: Places, i: nat,
                    off: nat)
    requires Sound(s, datastart, owner, files) && Placed(s, p) && i < |s.inodes| == |files| && off <= |files[i]|
    ensures A.Started(p, i, off)
  {
    SoundSize(s, datastart, owner, files, i);
    SoundMeta(s, datastart, owner, files);
    var n := off / BSIZE;
    if off % BSIZE != 0 {
      SoundBlock(s, datastart, owner, files, i, n);
      PlacedAt(s, p, i, n);
    }
  }

  /** Writing bytes off..end from p0 comes to what is left from pos on, with the
      calls since calls0; folded like Rep. */
  ghost predicate Left(lay: Layout, p0: Places, calls0: seq<nat>, i: nat, off: nat, end: nat, p: Places,
                       calls: seq<nat>, pos: nat) {
    && i < |p0.plans| == |p.plans| && pos <= end <= MAXFILE * BSIZE
    && forall k {:trigger Unfold(k)} :: k >= 0 ==>
      var r0, r := A.Rounds(lay, p0, i, off, end), A.Rounds(lay, p, i, pos, end);
      r0.ok == r.ok && r0.p == r.p && calls0 + r0.calls == calls + r.calls
  }

  lemma LeftAll(lay: Layout, p: Places, calls: seq<nat>, i: nat, off: nat, end: nat)
    requires i < |p.plans| && off <= end <= MAXFILE * BSIZE
    ensures Left(lay, p, calls, i, off, end, p, calls, off)
  {
  }

  lemma LeftNext(lay: Layout, p0: Places, calls0: seq<nat>, i: nat, off: nat, end: nat, p: Places, calls: seq<nat>,
                 pos: nat, r: A.Effect)
    requires Left(lay, p0, calls0, i, off, end, p, calls, pos) && pos < end && A.IsRound(lay, p, i, pos / BSIZE, r)
    ensures var r0 := A.Rounds(lay, p0, i, off, end);
            if r.ok then Left(lay, p0, calls0, i, off, end, r.p, calls + r.calls, pos + DiskRoom.Chunk(pos, end))
            else !r0.ok && calls0 + r0.calls == calls + r.calls
  {
    assert Unfold(0);
    if r.ok {
      var rest := A.Rounds(lay, r.p, i, pos + DiskRoom.Chunk(pos, end), end);
      assert calls + (r.calls + rest.calls) == calls + r.calls + rest.calls;
    }
  }

  lemma LeftNone(lay: Layout, p0: Places, calls0: seq<nat>, i: nat, off: nat, end: nat, p: Places, calls: seq<nat>)
    requires Left(lay, p0, calls0, i, off, end, p, calls, end)
    ensures var r0 := A.Rounds(lay, p0, i, off, end); r0.ok && r0.p == p && calls0 + r0.calls == calls
  {
    assert Unfold(0);
    assert calls + [] == calls;
  }

  /** The state after bytes o.. of block n of file i are written. */
  lemma WriteSound(s: State<Byte>, datastart: nat, owner: map<nat, Slot>, files: seq<seq<Byte>>, p: Places, i: nat,
                   n: nat, o: nat, part: seq<Byte>, words: seq<nat>)
    returns (s1: State<Byte>)
    requires Sound(s, datastart, owner, files) && Shaped(s) && i < |s.inodes| && n < MAXFILE && Placed(s, p)
    requires 0 < At(s, FileSlot(i, n)) < |s.used|
    requires o + |part| <= BSIZE && n * BSIZE + o <= s.inodes[i].size && |words| == NINDIRECT
    ensures |files| == |s.inodes| && |files[i]| == s.inodes[i].size
    ensures Shaped(s1) && Placed(s1, p)
    ensures Sound(s1, datastart, owner, files[i := Splice(files[i], n * BSIZE + o, part)])
    ensures var a := At(s, FileSlot(i, n));
            && s1.used == s.used && s1.words == s.words[a := words]
            && s1.bytes == s.bytes[a := Splice(s.bytes[a], o, part)]
    ensures s1.inodes == s.inodes[i := s.inodes[i].(size := |Splice(files[i], n * BSIZE + o, part)|)]
  {
    assert Unfold(0);
    s1 := Write(s, datastart, owner, i, n, o, part, words);
    WriteValid(s, datastart, owner, i, n, o, part, words);
    WriteHolds(s, datastart, owner, i, n, o, part, words, files);
    WritePlaced(s, datastart, owner, p, i, n, o, part, words);
  }

  lemma SoundClear(s: State<Byte>, datastart: nat, owner: map<nat, Slot>, files: seq<seq<Byte>>, used1: seq<bool>,
                   x: Slot, nd: nat, ne: nat, tb: bool, nd1: nat, ne1: nat, tb1: bool)
    requires Sound(s, datastart, owner, files) && Shaped(s) && IsSlot(s, x)
    requires Cleared(s.used, used1, owner, x.ino, nd, ne, tb)
    requires !Gone(x, x.ino, nd, ne, tb)
    requires forall y :: IsSlot(s, y) ==> (Gone(y, x.ino, nd1, ne1, tb1) <==> Gone(y, x.ino, nd, ne, tb) || y == x)
    ensures At(s, x) != 0 ==> datastart <= At(s, x) < |used1| && used1[At(s, x)]
                              && Cleared(s.used, used1[At(s, x) := false], owner, x.ino, nd1, ne1, tb1)
    ensures At(s, x) == 0 ==> Cleared(s.used, used1, owner, x.ino, nd1, ne1, tb1)
  {
    assert Unfold(0);
    ClearNext(s, datastart, owner, used1, x, nd, ne, tb, nd1, ne1, tb1);
  }

  lemma SoundNoTable(s: State<Byte>, datastart: nat, owner: map<nat, Slot>, files: seq<seq<Byte>>, used1: seq<bool>,
                     i: nat)
    requires Sound(s, datastart, owner, files) && Shaped(s) && i < |s.inodes|
    requires Cleared(s.used, used1, owner, i, NDIRECT, 0, false)
    requires At(s, Table(i)) == 0
    ensures Cleared(s.used, used1, owner, i, NDIRECT, NINDIRECT, true)
  {
    assert Unfold(0);
    ClearNoTable(s, datastart, owner, used1, i);
  }

  /** Freeing blocks from..to of a file has counted them free and logged their bitmap
      blocks; folded like Rep. */
  ghost predicate Freeing(lay: Layout, plan: A.Plan, from: nat, to: nat, used0: seq<bool>, used: seq<bool>,
                          calls0: seq<nat>, calls: seq<nat>) {
    && to <= MAXFILE
    && forall k {:trigger Unfold(k)} :: k >= 0 ==>
      && Free(used) == Free(used0) + Present(plan.Shape().has, from, to)
      && calls == calls0 + A.Freed(lay, plan.at, from, to)
  }

  lemma FreeingNone(lay: Layout, plan: A.Plan, from: nat, used: seq<bool>, calls: seq<nat>)
    requires from <= MAXFILE
    ensures Freeing(lay, plan, from, from, used, used, calls, calls)
  {
    assert Present(plan.Shape().has, from, from) == 0 && A.Freed(lay, plan.at, from, from) == [];
    assert calls + [] == calls;
  }

  lemma FreeingNext(lay: Layout, plan: A.Plan, from: nat, to: nat, used0: seq<bool>, used: seq<bool>,
                    calls0: seq<nat>, calls: seq<nat>, used1: seq<bool>)
    requires Freeing(lay, plan, from, to, used0, used, calls0, calls) && from <= to < MAXFILE
    requires plan.Shape().has[to] == (plan.at[to] != 0)
    requires Free(used1) == Free(used) + if plan.at[to] != 0 then 1 else 0
    ensures Freeing(lay, plan, from, to + 1, used0, used1, calls0,
                    calls + if plan.at[to] != 0 then [lay.BitBlock(plan.at[to])] else [])
  {
    assert Unfold(0);
    var last := if plan.at[to] != 0 then [lay.BitBlock(plan.at[to])] else [];
    assert calls0 + A.Freed(lay, plan.at, from, to) + last == calls0 + (A.Freed(lay, plan.at, from, to) + last);
  }

  /** All of them, and the indirect block. */
  lemma FreeingAll(lay: Layout, plan: A.Plan, used0: seq<bool>, used1: seq<bool>, used2: seq<bool>, used3: seq<bool>,
                   calls0: seq<nat>, calls1: seq<nat>, calls2: seq<nat>)
    requires Freeing(lay, plan, 0, NDIRECT, used0, used1, calls0, calls1)
    requires Freeing(lay, plan, NDIRECT, MAXFILE, used1, used2, calls1, calls2)
    requires Free(used3) == Free(used2) + if plan.table != 0 then 1 else 0
    ensures Free(used3) == Free(used0) + BlocksHeld(plan.Shape())
    ensures calls2 + (if plan.table != 0 then [lay.BitBlock(plan.table)] else []) == calls0 + A.FreedBlocks(lay, plan)
  {
    assert Unfold(0);
    A.FreedJoin(lay, plan.at, 0, NDIRECT, MAXFILE);
    PresentJoin(plan.Shape().has, 0, NDIRECT, MAXFILE);
    var a, b := A.Freed(lay, plan.at, 0, NDIRECT), A.Freed(lay, plan.at, NDIRECT, MAXFILE);
    var c := if plan.table != 0 then [lay.BitBlock(plan.table)] else [];
    Assoc(calls0, a, b);
    Assoc(calls0, a + b, c);
  }

  lemma FreeingNoTable(lay: Layout, s: State<Byte>, i: nat, plan: A.Plan, used: seq<bool>, calls: seq<nat>)
    requires Planned(s, i, plan) && Shaped(s) && At(s, Table(i)) == 0
    ensures plan.table == 0 && Freeing(lay, plan, NDIRECT, MAXFILE, used, used, calls, calls)
  {
    assert Unfold(0);
    PresentNone(plan.Shape().has, NDIRECT, MAXFILE);
    A.FreedNone(lay, plan.at, NDIRECT, MAXFILE);
    assert calls + [] == calls;
  }

  lemma TruncateSound(s: State<Byte>, datastart: nat, owner: map<nat, Slot>, files: seq<seq<Byte>>, i: nat,
                      s1: State<Byte>)
    requires Sound(s, datastart, owner, files) && Shaped(s) && i < |s.inodes| == |files|
    requires Cleared(s.used, s1.used, owner, i, NDIRECT, NINDIRECT, true)
    requires s1.words == s.words && s1.bytes == s.bytes && s1.inodes == s.inodes[i := NoFile()]
    ensures Shaped(s1) && Sound(s1, datastart, map b | b in owner && owner[b].ino != i :: owner[b], files[i := []])
  {
    assert Unfold(0);
    ClearedAll(s, datastart, owner, i, s1);
    TruncateValid(s, datastart, owner, i, s1);
    TruncateHolds(s, datastart, owner, i, s1, files);
  }

  /** The blocks of file i are free again; folded like Rep. */
  ghost predicate GivenUp(s: State<Byte>, used1: seq<bool>, owner: map<nat, Slot>, i: nat, plan: A.Plan) {
    Shaped(s) && i < |s.inodes| && forall k {:trigger Unfold(k)} :: k >= 0 ==>
      Cleared(s.used, used1, owner, i, NDIRECT, NINDIRECT, true)
      && Free(used1) == Free(s.used) + BlocksHeld(plan.Shape())
  }

  /** Truncating file i leads from p to p1 and gives back its blocks; folded like Rep. */
  ghost predicate TruncsTo(lay: Layout, p: Places, i: nat, p1: Places) {
    i < |p.plans| && forall k {:trigger Unfold(k)} :: k >= 0 ==>
      p1 == A.Trunc(lay, p, i).p && Free(p1.used) == Free(p.used) + BlocksHeld(p.plans[i].Shape())
  }

  lemma TruncsIs(lay: Layout, p: Places, i: nat, p1: Places)
    requires TruncsTo(lay, p, i, p1)
    ensures p1 == A.Trunc(lay, p, i).p && Free(p1.used) == Free(p.used) + BlocksHeld(p.plans[i].Shape())
  {
    assert Unfold(0);
  }

  lemma Truncates(s: State<Byte>, datastart: nat, owner: map<nat, Slot>, files: seq<seq<Byte>>, p: Places, i: nat,
                  s1: State<Byte>, lay: Layout)
    returns (p1: Places)
    requires Sound(s, datastart, owner, files) && Placed(s, p) && Shaped(s) && i < |s.inodes| == |files|
    requires GivenUp(s, s1.used, owner, i, p.plans[i])
    requires s1.words == s.words && s1.bytes == s.bytes && s1.inodes == s.inodes[i := NoFile()]
    ensures Shaped(s1) && Sound(s1, datastart, map b | b in owner && owner[b].ino != i :: owner[b], files[i := []])
    ensures Placed(s1, p1) && TruncsTo(lay, p, i, p1)
  {
    assert Unfold(0);
    p1 := A.Trunc(lay, p, i).p;
    TruncateSound(s, datastart, owner, files, i, s1);
    TruncatePlaced(s, datastart, owner, files, p, i, s1, lay);
  }

  lemma FillSound(s: State<Byte>, datastart: nat, owner: map<nat, Slot>, files: seq<seq<Byte>>, x: Slot, b: nat,
                  zero: seq<Byte>, raw: seq<Byte>)
    requires Sound(s, datastart, owner, files) && Shaped(s) && IsSlot(s, x) && At(s, x) == 0 && b < |s.used|
    requires !s.used[b]
    requires |zero| == BSIZE == |raw| && (x.Entry? ==> At(s, Table(x.ino)) != 0)
    ensures CanFill(s, datastart, owner, x, b, zero, raw)
    ensures Sound(Fill(s, datastart, owner, x, b, zero, raw), datastart, owner[b := x], files)
    ensures Shaped(Fill(s, datastart, owner, x, b, zero, raw))
  {
    assert Unfold(0);
    FillValid(s, datastart, owner, x, b, zero, raw);
    FillHolds(s, datastart, owner, x, b, zero, raw, files);
  }

  /** The slot of addrs[k]. */
  function InodeSlot(i: nat, k: nat): Slot {
    if k < NDIRECT then Direct(i, k) else Table(i)
  }

  lemma InodeSound(s: State<Byte>, datastart: nat, owner: map<nat, Slot>, files: seq<seq<Byte>>, p: Places, i: nat,
                   k: nat, b: nat, lay: Layout)
    requires Sound(s, datastart, owner, files) && Shaped(s) && i < |s.inodes| && k <= NDIRECT
    requires At(s, InodeSlot(i, k)) == 0 && b < |s.used| && !s.used[b] && Placed(s, p)
    requires forall y :: 0 <= y < b ==> s.used[y]
    ensures p.HasSlot(InodeSlot(i, k)) && b != 0
    ensures var x := InodeSlot(i, k);
            var s0 := Taken(s, b, Blocks.Zero());
            var s1 := s0.(inodes := s.inodes[i := s.inodes[i].(addrs := s.inodes[i].addrs[k := b])]);
            var e := A.Alloc(lay, p, x);
            && Sound(s1, datastart, owner[b := x], files) && Shaped(s1) && At(s1, x) == b
            && e.ok && Placed(s1, e.p) && e.calls == [lay.BitBlock(b), b]
  {
    var x := InodeSlot(i, k);
    FillSound(s, datastart, owner, files, x, b, Blocks.Zero(), Blocks.Zero());
    FillPlaced(s, datastart, owner, files, p, x, b, Blocks.Zero(), Blocks.Zero(), lay);
    A.FillPlan(s, datastart, owner, x, b, Blocks.Zero(), Blocks.Zero(), i);
    FillAt(s, datastart, owner, x, b, Blocks.Zero(), Blocks.Zero(), x);
    var s1 := Fill(s, datastart, owner, x, b, Blocks.Zero(), Blocks.Zero());
    assert s1.inodes == s.inodes[i := s.inodes[i].(addrs := s.inodes[i].addrs[k := b])];
  }

  lemma EntrySound(s: State<Byte>, datastart: nat, owner: map<nat, Slot>, files: seq<seq<Byte>>, p: Places, i: nat,
                   k: nat, b: nat, raw: Block, lay: Layout)
    requires Sound(s, datastart, owner, files) && Shaped(s) && IsSlot(s, Entry(i, k)) && At(s, Entry(i, k)) == 0
    requires At(s, Table(i)) != 0 && b < |s.used| && !s.used[b] && Placed(s, p) && forall y :: 0 <= y < b ==> s.used[y]
    ensures At(s, Table(i)) < |s.words| && p.HasSlot(Entry(i, k))
    ensures var s1 := Listed(Taken(s, b, Blocks.Zero()), At(s, Table(i)), k, b, raw);
            var e := A.Alloc(lay, p, Entry(i, k));
            && Sound(s1, datastart, owner[b := Entry(i, k)], files) && Shaped(s1) && At(s1, Entry(i, k)) == b
            && e.ok && Placed(s1, e.p) && e.calls == [lay.BitBlock(b), b] + [p.plans[i].table]
  {
    FillSound(s, datastart, owner, files, Entry(i, k), b, Blocks.Zero(), raw);
    FillPlaced(s, datastart, owner, files, p, Entry(i, k), b, Blocks.Zero(), raw, lay);
    TableIn(s, datastart, owner, Entry(i, k));
    FillAt(s, datastart, owner, Entry(i, k), b, Blocks.Zero(), raw, Entry(i, k));
  }

  /** A transaction that found base and dbase on the disk has logged every block
      that it has changed since, and only home blocks; folded like Rep. */
  ghost predicate Noted(lay: Layout, base: seq<Block>, blocks: seq<Block>, dbase: seq<Inode>, dinodes: seq<Inode>,
                        logged: set<nat>) {
    && |base| == |blocks| && |dbase| == |dinodes|
    && forall k {:trigger Unfold(k)} :: k >= 0 ==>
      && (forall b :: b in logged ==> lay.Home(b))
      && (forall b: nat :: b < |base| && b !in logged ==> blocks[b] == base[b])
      && (forall i: nat :: i < |dbase| && lay.InodeBlock(i) !in logged ==> dinodes[i] == dbase[i])
  }

  lemma NotedNone(lay: Layout, blocks: seq<Block>, dinodes: seq<Inode>)
    ensures Noted(lay, blocks, blocks, dinodes, dinodes, {})
  {
  }

  lemma NotedPut(lay: Layout, base: seq<Block>, blocks: seq<Block>, dbase: seq<Inode>, dinodes: seq<Inode>,
                 logged: set<nat>, x: nat, data: Block)
    requires Noted(lay, base, blocks, dbase, dinodes, logged) && lay.Home(x) && x < |blocks|
    ensures Noted(lay, base, blocks[x := data], dbase, dinodes, logged + {x})
  {
    assert Unfold(0);
  }

  lemma NotedInode(lay: Layout, base: seq<Block>, blocks: seq<Block>, dbase: seq<Inode>, dinodes: seq<Inode>,
                   logged: set<nat>, i: nat, inode: Inode)
    requires Noted(lay, base, blocks, dbase, dinodes, logged) && i < |dinodes| && lay.Home(lay.InodeBlock(i))
    ensures Noted(lay, base, blocks, dbase, dinodes[i := inode], logged + {lay.InodeBlock(i)})
  {
    assert Unfold(0);
  }

  lemma HomeBit(lay: Layout, b: nat)
    requires lay.Fits() && b < lay.size
    ensures lay.Home(lay.BitBlock(b))
  {
    assert lay.BitBlock(b) < lay.datastart;
  }

  lemma HomeData(lay: Layout, b: nat)
    requires lay.Fits() && lay.datastart <= b < lay.size
    ensures lay.Home(b)
  {
    assert lay.BitBlock(0) < lay.datastart;
  }

  lemma HomeInode(lay: Layout, n: nat, i: nat)
    requires lay.Fits() && lay.HasInodes(n) && i < n
    ensures lay.Home(lay.InodeBlock(i))
  {
  }

  /** The inodes in core have the block numbers of s; folded like Rep. */
  ghost predicate Mirrors(s: State<Byte>, inodes: seq<Inode>) {
    && |s.inodes| == |inodes|
    && forall k {:trigger Unfold(k)} :: k >= 0 ==>
      forall i :: 0 <= i < |inodes| ==> s.inodes[i].addrs == inodes[i].addrs
  }

  lemma MirrorsAt(s: State<Byte>, inodes: seq<Inode>, i: nat)
    requires Mirrors(s, inodes) && Shaped(s) && i < |inodes|
    ensures inodes[i].addrs == s.inodes[i].addrs && |inodes[i].addrs| == NDIRECT + 1
  {
    assert Unfold(0);
  }

  lemma MirrorsPut(s: State<Byte>, inodes: seq<Inode>, s1: State<Byte>, inodes1: seq<Inode>, i: nat)
    requires Mirrors(s, inodes) && i < |inodes| == |inodes1| == |s1.inodes|
    requires s1.inodes == s.inodes[i := s1.inodes[i]] && inodes1 == inodes[i := inodes1[i]]
    requires s1.inodes[i].addrs == inodes1[i].addrs
    ensures Mirrors(s1, inodes1)
  {
    assert Unfold(0);
  }

  lemma MirrorsSame(s: State<Byte>)
    ensures Mirrors(s, s.inodes)
  {
  }

  /** What log_write keeps: the blocks in the log, and whether a call has found it
      full; folded like Rep. */
  ghost predicate Called(logged: set<nat>, over: bool, calls: seq<nat>, limit: nat) {
    forall k {:trigger Unfold(k)} :: k >= 0 ==> logged == A.Elems(calls) && (over <==> A.Overfull(calls, limit))
  }

  lemma CalledNone(limit: nat)
    ensures Called({}, false, [], limit)
  {
    var none: seq<nat> := [];
    assert A.Elems(none) == {} && !A.Overfull(none, limit);
  }

  lemma CalledNext(logged: set<nat>, over: bool, calls: seq<nat>, limit: nat, b: nat)
    requires Called(logged, over, calls, limit)
    ensures Called(logged + {b}, over || |logged| >= limit, calls + [b], limit)
  {
    assert Unfold(0);
    A.OverfullNext(calls, b, limit);
  }

  lemma CalledIs(logged: set<nat>, over: bool, calls: seq<nat>, limit: nat)
    requires Called(logged, over, calls, limit)
    ensures logged == A.Elems(calls) && (over <==> A.Overfull(calls, limit))
  {
    assert Unfold(0);
  }

  class Disk {
    const lay: Layout
    const limit: nat                   // log_write panics with this many blocks in the log
    var blocks: seq<Block>
    var inodes: seq<Inode>
    var dinodes: seq<Inode>            // the inodes on disk
    var logged: set<nat>               // the home blocks in the log header
    var over: bool                     // log_write has panicked
    ghost var calls: seq<nat>          // the blocks passed to log_write in this transaction
    ghost var base: seq<Block>         // blocks and inodes on disk as the
    ghost var dbase: seq<Inode>        // transaction found them
    ghost var s: State<Byte>
    ghost var owner: map<nat, Slot>
    ghost var places: Places           // which blocks files have, and which are free
    ghost var files: seq<seq<Byte>>    // the contents of each file

    ghost predicate Fine()
      reads this
    {
      && lay.Fits() && Rep(lay, blocks, s) && Shaped(s) && Sound(s, lay.datastart, owner, files)
      && Logs() && lay.HasInodes(|inodes|) && |dinodes| == |inodes| && Placed(s, places)
      && Mirrors(s, inodes)
    }

    /** Every change is in the transaction. */
    ghost predicate Logs()
      reads this
    {
      Noted(lay, base, blocks, dbase, dinodes, logged) && Called(logged, over, calls, limit)
    }

    /** The calls and, if it does not end in a panic, the block map after e. */
    ghost predicate Did(e: A.Effect, ok: bool, calls0: seq<nat>)
      reads this
    {
      calls == calls0 + e.calls && ok == e.ok && (ok ==> places == e.p)
    }

    /** Between operations the sizes agree as well, also with the inodes on disk. */
    ghost predicate Ok()
      reads this
    {
      Fine() && s.inodes == inodes && dinodes == inodes
    }

    /** A mounted image: files with these contents and no holes. */
    constructor (lay: Layout, limit: nat, blocks: seq<Block>, inodes: seq<Inode>, ghost s: State<Byte>,
                 ghost owner: map<nat, Slot>, ghost files: seq<seq<Byte>>)
      requires lay.Fits() && lay.HasInodes(|inodes|)
      requires Rep(lay, blocks, s) && s.inodes == inodes && Valid(s, lay.datastart, owner) && Holds(s, files)
      ensures this.lay == lay && this.limit == limit && this.blocks == blocks && this.inodes == inodes
      ensures this.files == files && this.owner == owner && Ok() && !over && calls == []
      ensures this.s == s && places == A.PlacesOf(s)
    {
      this.lay, this.limit, this.blocks, this.inodes, this.dinodes := lay, limit, blocks, inodes, inodes;
      this.logged, this.over, this.calls, this.s, this.owner, this.files := {}, false, [], s, owner, files;
      this.base, this.dbase, this.places := blocks, inodes, A.PlacesOf(s);
      NotedNone(lay, blocks, inodes);
      CalledNone(limit);
      MirrorsSame(s);
    }

    /** begin_op when no other call is in the transaction: the log is empty. */
    method Begin()
      requires Ok()
      modifies `logged, `over, `calls, `base, `dbase
      ensures Ok() && logged == {} && !over && calls == [] && base == blocks && dbase == dinodes
    {
      NotedNone(lay, blocks, dinodes);
      CalledNone(limit);
      logged, over, calls := {}, false, [];
      base, dbase := blocks, dinodes;
    }

    /** log_write, in a transaction. It tests for room before it looks for the block;
        its panic is noted in `over`, and the operations below end with it. */
    method LogWrite(b: nat)
      requires Called(logged, over, calls, limit)
      modifies `logged, `over, `calls
      ensures Called(logged, over, calls, limit) && logged == old(logged) + {b} && calls == old(calls) + [b]
    {
      CalledNext(logged, over, calls, limit, b);
      if |logged| >= limit { over := true; }
      logged, calls := logged + {b}, calls + [b];
    }

    // ----- blocks -----

    /** A data block is replaced and logged. */
    method PutData(a: nat, data: Block, ghost words: seq<nat>)
      requires lay.Fits() && Rep(lay, blocks, s) && Logs() && lay.datastart <= a < lay.size
      requires |words| == NINDIRECT && SameWords(data, words)
      modifies `blocks, `logged, `over, `calls, `s
      ensures Rep(lay, blocks, s) && Logs() && calls == old(calls) + [a] && blocks == old(blocks)[a := data]
      ensures s == old(s).(words := old(s).words[a := words], bytes := old(s).bytes[a := data])
    {
      RepData(lay, blocks, s, a, data, words);
      HomeData(lay, a);
      NotedPut(lay, base, blocks, dbase, dinodes, logged, a, data);
      blocks := blocks[a := data];
      LogWrite(a);
      s := s.(words := s.words[a := words], bytes := s.bytes[a := data]);
    }

    /** balloc's marking of block b, and bzero. */
    method Take(b: nat)
      requires lay.Fits() && Rep(lay, blocks, s) && Logs() && lay.datastart <= b < lay.size
      modifies `blocks, `logged, `over, `calls, `s
      ensures Logs() && s == Taken(old(s), b, Blocks.Zero()) && Rep(lay, blocks, s)
      ensures calls == old(calls) + [lay.BitBlock(b), b]
      ensures forall x :: lay.datastart <= x < lay.size && x != b ==> blocks[x] == old(blocks)[x]
    {
      RepReadBit(lay, blocks, s, b);
      assert lay.BitBlock(b) < lay.datastart;
      var bp := Blocks.SetBit(blocks[lay.BitBlock(b)], b % BPB, true);
      RepBit(lay, blocks, s, b, true, bp);
      HomeBit(lay, b);
      NotedPut(lay, base, blocks, dbase, dinodes, logged, lay.BitBlock(b), bp);
      blocks := blocks[lay.BitBlock(b) := bp];
      LogWrite(lay.BitBlock(b));
      s := s.(used := s.used[b := true]);
      ZeroWords();
      PutData(b, Blocks.Zero(), NoWords());
    }

    /** balloc; false is the panic when no block is free. */
    method Balloc() returns (ok: bool, b: nat)
      requires lay.Fits() && Rep(lay, blocks, s) && Logs() && forall x :: 0 <= x < lay.datastart ==> s.used[x]
      modifies `blocks, `logged, `over, `calls, `s
      ensures ok <==> !Full(old(s))
      ensures Logs()
      ensures !ok ==> s == old(s) && calls == old(calls)
      ensures ok ==> lay.datastart <= b < lay.size && !old(s).used[b] && (forall x :: 0 <= x < b ==> old(s).used[x])
      ensures ok ==> s == Taken(old(s), b, Blocks.Zero()) && Rep(lay, blocks, s)
                     && calls == old(calls) + [lay.BitBlock(b), b]
      ensures ok ==> forall x :: lay.datastart <= x < lay.size && x != b ==> blocks[x] == old(blocks)[x]
    {
      var base := 0;
      b := 0;
      while base < lay.size
        invariant 0 <= base && base % BPB == 0 && unchanged(this) && s == old(s) && Logs()
        invariant forall x :: 0 <= x < base && x < lay.size ==> s.used[x]
      {
        RepReadBit(lay, blocks, s, base);
        var bp := blocks[lay.BitBlock(base)];
        var bi := 0;
        while bi < BPB && base + bi < lay.size
          invariant 0 <= bi <= BPB && unchanged(this) && s == old(s) && Logs()
          invariant forall x :: 0 <= x < base + bi && x < lay.size ==> s.used[x]
        {
          b := base + bi;
          SameBlock(base, bi);
          RepReadBit(lay, blocks, s, b);
          if !Blocks.GetBit(bp, bi) {
            Take(b);
            return true, b;
          }
          bi := bi + 1;
        }
        base := base + BPB;
      }
      ok := false;
    }

    /** bfree; false is the panic for a block that is already free. */
    method Bfree(b: nat) returns (ok: bool)
      requires lay.Fits() && Rep(lay, blocks, s) && Logs() && b < lay.size
      modifies `blocks, `logged, `over, `calls, `s
      ensures Logs() && ok == old(s).used[b]
      ensures ok ==> s == old(s).(used := old(s).used[b := false]) && Rep(lay, blocks, s)
                     && calls == old(calls) + [lay.BitBlock(b)]
      ensures |blocks| == |old(blocks)| && forall x :: lay.datastart <= x < lay.size ==> blocks[x] == old(blocks)[x]
    {
      RepReadBit(lay, blocks, s, b);
      assert lay.BitBlock(b) < lay.datastart;
      var bp := blocks[lay.BitBlock(b)];
      var bi := b % BPB;
      if !Blocks.GetBit(bp, bi) {
        return false;
      }
      bp := Blocks.SetBit(bp, bi, false);
      RepBit(lay, blocks, s, b, false, bp);
      HomeBit(lay, b);
      NotedPut(lay, base, blocks, dbase, dinodes, logged, lay.BitBlock(b), bp);
      blocks := blocks[lay.BitBlock(b) := bp];
      LogWrite(lay.BitBlock(b));
      s := s.(used := s.used[b := false]);
      ok := true;
    }

    // ----- the block map -----

    /** bmap's allocation of a direct or an indirect block. */
    method FillInode(i: nat, k: nat) returns (ok: bool, b: nat)
      requires Fine() && i < |inodes| && k <= NDIRECT && At(s, InodeSlot(i, k)) == 0
      modifies `blocks, `inodes, `logged, `over, `calls, `s, `owner, `places
      ensures ok ==> Fine() && |inodes| == |old(inodes)| && At(s, InodeSlot(i, k)) == b != 0
      ensures ok ==> inodes == old(inodes)[i := inodes[i]] && inodes[i].size == old(inodes)[i].size
      ensures ok ==> s.inodes == old(s).inodes[i := old(s).inodes[i].(addrs := old(s).inodes[i].addrs[k := b])]
      ensures Did(A.Alloc(lay, old(places), InodeSlot(i, k)), ok, old(calls))
      ensures Called(logged, over, calls, limit)
    {
      SoundMeta(s, lay.datastart, owner, files);
      ghost var s0 := s;
      ok, b := Balloc();
      if ok {
        LinkInode(i, k, b, s0, old(calls));
      } else {
        NoneFree(lay, places, InodeSlot(i, k));
      }
    }

    /** The block b that balloc has just taken goes into the inode. */
    method LinkInode(i: nat, k: nat, b: nat, ghost s0: State<Byte>, ghost calls0: seq<nat>)
      requires lay.Fits() && Logs() && lay.HasInodes(|inodes|) && |dinodes| == |inodes| && Mirrors(s0, inodes)
      requires Shaped(s0) && Sound(s0, lay.datastart, owner, files) && k <= NDIRECT && i < |inodes|
      requires At(s0, InodeSlot(i, k)) == 0 && lay.datastart <= b < |s0.used| && !s0.used[b]
      requires Rep(lay, blocks, s) && |s0.words| == |s0.bytes| == |s0.used| && s == Taken(s0, b, Blocks.Zero())
      requires Placed(s0, places) && forall y :: 0 <= y < b ==> s0.used[y]
      requires calls == calls0 + [lay.BitBlock(b), b]
      modifies `inodes, `s, `owner, `places
      ensures Fine() && |inodes| == |old(inodes)| && At(s, InodeSlot(i, k)) == b != 0
      ensures inodes == old(inodes)[i := inodes[i]] && inodes[i].size == old(inodes)[i].size
      ensures s.inodes == s0.inodes[i := s0.inodes[i].(addrs := s0.inodes[i].addrs[k := b])]
      ensures Did(A.Alloc(lay, old(places), InodeSlot(i, k)), true, calls0)
    {
      MirrorsAt(s0, inodes, i);
      InodeSound(s0, lay.datastart, owner, files, places, i, k, b, lay);
      places := A.Alloc(lay, places, InodeSlot(i, k)).p;
      inodes := inodes[i := inodes[i].(addrs := inodes[i].addrs[k := b])];
      s := s.(inodes := s0.inodes[i := s0.inodes[i].(addrs := s0.inodes[i].addrs[k := b])]);
      owner := owner[b := InodeSlot(i, k)];
      RepInodes(lay, blocks, Taken(s0, b, Blocks.Zero()), s);
      MirrorsPut(s0, old(inodes), s, inodes, i);
    }

    /** bmap's allocation of a block listed in the indirect block. */
    method FillEntry(i: nat, k: nat) returns (ok: bool, b: nat)
      requires Fine() && i < |inodes| && k < NINDIRECT && At(s, Table(i)) != 0 && At(s, Entry(i, k)) == 0
      modifies `blocks, `logged, `over, `calls, `s, `owner, `places
      ensures ok ==> Fine() && lay.datastart <= b < lay.size && At(s, Entry(i, k)) == b
      ensures ok ==> s.inodes == old(s).inodes
      ensures Did(A.Alloc(lay, old(places), Entry(i, k)), ok, old(calls))
      ensures Called(logged, over, calls, limit)
    {
      SoundMeta(s, lay.datastart, owner, files);
      ghost var s0 := s;
      ok, b := Balloc();
      if ok {
        LinkEntry(i, k, b, s0, old(calls));
      } else {
        NoneFree(lay, places, Entry(i, k));
      }
    }

    /** The block b that balloc has just taken goes into the indirect block. */
    method LinkEntry(i: nat, k: nat, b: nat, ghost s0: State<Byte>, ghost calls0: seq<nat>)
      requires lay.Fits() && Logs() && lay.HasInodes(|inodes|) && |dinodes| == |inodes| && Mirrors(s0, inodes)
      requires Shaped(s0) && Sound(s0, lay.datastart, owner, files) && k < NINDIRECT && i < |inodes|
      requires At(s0, Table(i)) != 0 && At(s0, Entry(i, k)) == 0 && lay.datastart <= b < |s0.used| && !s0.used[b]
      requires Rep(lay, blocks, s) && |s0.words| == |s0.bytes| == |s0.used| && s == Taken(s0, b, Blocks.Zero())
      requires Placed(s0, places) && forall y :: 0 <= y < b ==> s0.used[y]
      requires calls == calls0 + [lay.BitBlock(b), b]
      modifies `blocks, `logged, `over, `calls, `s, `owner, `places
      ensures Fine() && At(s, Entry(i, k)) == b
      ensures s.inodes == s0.inodes
      ensures Did(A.Alloc(lay, old(places), Entry(i, k)), true, calls0)
    {
      MirrorsAt(s0, inodes, i);
      var t := inodes[i].addrs[NDIRECT];
      SoundSlot(s0, lay.datastart, owner, files, Table(i));
      PlacedAt(s0, places, i, NDIRECT + k);
      ghost var a := SetEntry(t, k, b);
      EntrySound(s0, lay.datastart, owner, files, places, i, k, b, a, lay);
      places := A.Alloc(lay, places, Entry(i, k)).p;
      owner := owner[b := Entry(i, k)];
      MirrorsPut(s0, inodes, s, inodes, i);
      assert calls0 + [lay.BitBlock(b), b] + [t] == calls0 + ([lay.BitBlock(b), b] + [t]);
    }

    /** a[bn] = addr in the indirect block t, which is logged. */
    method SetEntry(t: nat, k: nat, b: Word) returns (ghost a: Block)
      requires lay.Fits() && Rep(lay, blocks, s) && Logs() && lay.datastart <= t < lay.size
      requires k < NINDIRECT == |s.words[t]|
      modifies `blocks, `logged, `over, `calls, `s
      ensures Rep(lay, blocks, s) && Logs() && calls == old(calls) + [t]
      ensures s == Listed(old(s), t, k, b, a)
    {
      RepReadData(lay, blocks, s, t);
      var data := Blocks.SetWord(blocks[t], k, b);
      PutData(t, data, s.words[t][k := b]);
      a := data;
    }

    /** bmap; false is a panic: bn out of range, or no free block. */
    method Bmap(i: nat, bn: nat) returns (ok: bool, addr: nat)
      requires Fine() && i < |inodes|
      modifies `blocks, `inodes, `logged, `over, `calls, `s, `owner, `places
      ensures bn < MAXFILE ==> Did(A.Bmap(lay, old(places), i, bn), ok, old(calls))
      ensures Called(logged, over, calls, limit)
      ensures bn >= MAXFILE ==> !ok
      ensures bn < MAXFILE && old(At(s, FileSlot(i, bn))) != 0 ==> ok && unchanged(this)
      ensures ok ==> Fine() && |inodes| == |old(inodes)| && addr == At(s, FileSlot(i, bn)) && addr != 0
      ensures ok ==> inodes == old(inodes)[i := inodes[i]] && inodes[i].size == old(inodes)[i].size
      ensures ok ==> s.inodes == old(s).inodes[i := s.inodes[i]] && s.inodes[i].size == old(s).inodes[i].size
    {
      if bn < NDIRECT {
        ok, addr := BmapDirect(i, bn);
        return;
      }
      if bn - NDIRECT >= NINDIRECT {
        return false, 0;
      }
      ok, addr := BmapIndirect(i, bn);
    }

    /** bmap beyond the direct blocks. */
    method BmapIndirect(i: nat, bn: nat) returns (ok: bool, addr: nat)
      requires Fine() && i < |inodes| && NDIRECT <= bn < MAXFILE
      modifies `blocks, `inodes, `logged, `over, `calls, `s, `owner, `places
      ensures Did(A.Bmap(lay, old(places), i, bn), ok, old(calls))
      ensures Called(logged, over, calls, limit)
      ensures old(At(s, FileSlot(i, bn))) != 0 ==> ok && unchanged(this)
      ensures ok ==> Fine() && |inodes| == |old(inodes)| && addr == At(s, FileSlot(i, bn)) && addr != 0
      ensures ok ==> inodes == old(inodes)[i := inodes[i]] && inodes[i].size == old(inodes)[i].size
      ensures ok ==> s.inodes == old(s).inodes[i := s.inodes[i]] && s.inodes[i].size == old(s).inodes[i].size
    {
      PlacedAt(s, places, i, bn);
      MirrorsAt(s, inodes, i);
      if inodes[i].addrs[NDIRECT] == 0 {
        ok, addr := BmapTable(i, bn - NDIRECT);
      } else {
        ok, addr := BmapEntry(i, bn - NDIRECT);
      }
    }

    /** bmap when the file has no indirect block yet. */
    method BmapTable(i: nat, k: nat) returns (ok: bool, addr: nat)
      requires Fine() && i < |inodes| && k < NINDIRECT && At(s, Table(i)) == 0
      requires i < |places.plans| && places.plans[i].table == 0
      modifies `blocks, `inodes, `logged, `over, `calls, `s, `owner, `places
      ensures Did(A.Bmap(lay, old(places), i, NDIRECT + k), ok, old(calls))
      ensures Called(logged, over, calls, limit)
      ensures ok ==> Fine() && |inodes| == |old(inodes)| && addr == At(s, Entry(i, k)) && addr != 0
      ensures ok ==> inodes == old(inodes)[i := inodes[i]] && inodes[i].size == old(inodes)[i].size
      ensures ok ==> s.inodes == old(s).inodes[i := s.inodes[i]] && s.inodes[i].size == old(s).inodes[i].size
    {
      var t;
      ok, t := FillInode(i, NDIRECT);
      if !ok { return false, 0; }
      ghost var e0, e1 := A.Alloc(lay, old(places), Table(i)), A.Entry(lay, places, i, k);
      Assoc(old(calls), e0.calls, e1.calls);
      ok, addr := BmapEntry(i, k);
    }

    /** bmap's lookup in the inode. */
    method BmapDirect(i: nat, bn: nat) returns (ok: bool, addr: nat)
      requires Fine() && i < |inodes| && bn < NDIRECT
      modifies `blocks, `inodes, `logged, `over, `calls, `s, `owner, `places
      ensures Did(A.Bmap(lay, old(places), i, bn), ok, old(calls))
      ensures Called(logged, over, calls, limit)
      ensures old(At(s, Direct(i, bn))) != 0 ==> ok && unchanged(this)
      ensures ok ==> Fine() && |inodes| == |old(inodes)| && addr == At(s, Direct(i, bn)) && addr != 0
      ensures ok ==> inodes == old(inodes)[i := inodes[i]] && inodes[i].size == old(inodes)[i].size
      ensures ok ==> s.inodes == old(s).inodes[i := old(s).inodes[i].(addrs := old(s).inodes[i].addrs[bn := addr])]
    {
      MirrorsAt(s, inodes, i);
      addr := inodes[i].addrs[bn];
      ok := true;
      PlacedAt(s, places, i, bn);
      if addr == 0 {
        ok, addr := FillInode(i, bn);
      } else {
        assert calls + [] == calls;
        assert s.inodes[i].addrs[bn := addr] == s.inodes[i].addrs;
      }
    }

    /** bmap's lookup in the indirect block. */
    method BmapEntry(i: nat, k: nat) returns (ok: bool, addr: nat)
      requires Fine() && i < |inodes| && k < NINDIRECT && At(s, Table(i)) != 0
      modifies `blocks, `logged, `over, `calls, `s, `owner, `places
      ensures Did(A.Entry(lay, old(places), i, k), ok, old(calls))
      ensures Called(logged, over, calls, limit)
      ensures old(At(s, Entry(i, k))) != 0 ==> ok && unchanged(this)
      ensures ok ==> Fine() && addr == At(s, Entry(i, k)) && addr != 0 && s.inodes == old(s).inodes
    {
      MirrorsAt(s, inodes, i);
      var t := inodes[i].addrs[NDIRECT];
      SoundSlot(s, lay.datastart, owner, files, Table(i));
      RepReadData(lay, blocks, s, t);
      addr := Blocks.GetWord(blocks[t], k);
      ok := true;
      PlacedAt(s, places, i, NDIRECT + k);
      if addr == 0 {
        ok, addr := FillEntry(i, k);
      } else {
        assert calls + [] == calls;
      }
    }

    // ----- reading and writing -----

    /** readi, copying to the kernel. It calls bmap, which never allocates here:
        nothing is changed or logged. */
    method Readi(i: nat, off: Word, n: Word) returns (dst: seq<Byte>)
      requires Ok() && i < |inodes|
      modifies `blocks, `inodes, `logged, `over, `calls, `s, `owner, `places
      ensures unchanged(this)
      ensures |files| == |inodes|
      ensures dst == if off > |files[i]| || off + n >= 0x1_0000_0000 then []
                     else files[i][off..if off + n > |files[i]| then |files[i]| else off + n]
    {
      SoundSize(s, lay.datastart, owner, files, i);
      dst := [];
      if off > inodes[i].size || (off + n) % 0x1_0000_0000 < off {
        return;
      }
      var len: nat := if off + n > inodes[i].size then inodes[i].size - off else n;
      var tot, pos: nat := 0, off;
      ghost var file := files[i];
      while tot < len
        invariant 0 <= tot <= len && pos == off + tot && off + len <= |file| && dst == file[off..pos]
        invariant unchanged(this)
      {
        var part := ReadPart(i, pos, len - tot);
        NextSlice(file, off, pos, part);
        dst := dst + part;
        tot, pos := tot + |part|, pos + |part|;
      }
    }

    /** One round of readi's loop. */
    method ReadPart(i: nat, pos: nat, left: nat) returns (part: seq<Byte>)
      requires Ok() && i < |inodes| && 0 < left && pos + left <= inodes[i].size
      modifies `blocks, `inodes, `logged, `over, `calls, `s, `owner, `places
      ensures unchanged(this)
      ensures |files| == |inodes| && |files[i]| == inodes[i].size
      ensures 0 < |part| <= left && part == files[i][pos..pos + |part|]
    {
      var bn, o := pos / BSIZE, pos % BSIZE;
      SoundBlock(s, lay.datastart, owner, files, i, bn);
      var ok, addr := Bmap(i, bn);
      var m := if left < BSIZE - o then left else BSIZE - o;
      SoundSize(s, lay.datastart, owner, files, i);
      ReadSound(s, lay.datastart, owner, files, i, bn, o, m);
      SoundSlot(s, lay.datastart, owner, files, FileSlot(i, bn));
      RepReadData(lay, blocks, s, addr);
      part := blocks[addr][o..o + m];
    }

    /** One round of writei's loop, after bmap has found block n at addr. */
    method WritePart(i: nat, n: nat, addr: nat, o: nat, part: seq<Byte>)
      requires Fine() && i < |inodes| && n < MAXFILE && addr == At(s, FileSlot(i, n)) != 0
      requires o + |part| <= BSIZE && n * BSIZE + o <= s.inodes[i].size
      modifies `blocks, `logged, `over, `calls, `s, `files
      ensures Fine() && calls == old(calls) + [addr] && |files| == |old(files)| == |inodes|
      ensures |old(files)[i]| == old(s).inodes[i].size
      ensures files == old(files)[i := Splice(old(files)[i], n * BSIZE + o, part)]
      ensures s.inodes == old(s).inodes[i := old(s).inodes[i].(size := |files[i]|)]
    {
      MirrorsAt(s, inodes, i);
      SoundSlot(s, lay.datastart, owner, files, FileSlot(i, n));
      RepReadData(lay, blocks, s, addr);
      var data: Block := Splice(blocks[addr], o, part);
      ghost var s1 := WriteSound(s, lay.datastart, owner, files, places, i, n, o, part, WordsOf(data));
      PutData(addr, data, WordsOf(data));
      RepInodes(lay, blocks, s, s1);
      MirrorsPut(old(s), inodes, s1, inodes, i);
      s := s1;
      files := files[i := Splice(files[i], n * BSIZE + o, part)];
    }

    /** iupdate: the inode is copied to its block. */
    method Iupdate(i: nat)
      requires lay.Fits() && Logs() && lay.HasInodes(|inodes|) && i < |inodes| == |dinodes|
      modifies `dinodes, `logged, `over, `calls
      ensures Logs() && dinodes == old(dinodes)[i := inodes[i]] && calls == old(calls) + [lay.InodeBlock(i)]
    {
      HomeInode(lay, |inodes|, i);
      NotedInode(lay, base, blocks, dbase, dinodes, logged, i, inodes[i]);
      dinodes := dinodes[i := inodes[i]];
      LogWrite(lay.InodeBlock(i));
    }

    /** A round of writei's loop. */
    method WriteRound(i: nat, pos: nat, part: seq<Byte>) returns (ok: bool)
      requires Fine() && i < |inodes| && 0 < |part| && pos % BSIZE + |part| <= BSIZE
      requires pos <= s.inodes[i].size && pos / BSIZE < MAXFILE
      modifies `blocks, `inodes, `logged, `over, `calls, `s, `owner, `places, `files
      ensures Did(A.Round(lay, old(places), i, pos / BSIZE), ok, old(calls))
      ensures Called(logged, over, calls, limit)
      ensures ok ==> |inodes| == |old(inodes)|
      ensures ok ==> Fine() && |files| == |old(files)| == |inodes| && pos <= |old(files)[i]|
                     && files == old(files)[i := Splice(old(files)[i], pos, part)]
      ensures ok ==> inodes == old(inodes)[i := inodes[i]] && inodes[i].size == old(inodes)[i].size
                     && s.inodes == old(s).inodes[i := s.inodes[i]]
    {
      var bn, o := pos / BSIZE, pos % BSIZE;
      var addr;
      ok, addr := Bmap(i, bn);
      if ok {
        ghost var e := A.Bmap(lay, old(places), i, bn);
        PlacedAt(s, places, i, bn);
        SoundSize(s, lay.datastart, owner, files, i);
        WritePart(i, bn, addr, o, part);
        assert old(calls) + (e.calls + [addr]) == old(calls) + e.calls + [addr];
      }
    }

    /** writei, copying from the kernel. -1 is an error return. It ends in the first
        panic it meets, of balloc or of log_write. */
    method Writei(i: nat, off: Word, src: seq<Byte>) returns (end: A.End, r: int)
      requires Ok() && !over && i < |inodes| && |src| < 0x1_0000_0000
      modifies `blocks, `inodes, `dinodes, `logged, `over, `calls, `s, `owner, `places, `files
      ensures |old(files)| == |old(inodes)|
      ensures end.Done? ==> (r == -1 <==> off > |old(files)[i]| || off + |src| > 268 * 1024)
      ensures A.Refused(|old(files)[i]|, off, |src|) ==>
                end.Done? && r == -1 && Ok() && !over && calls == old(calls) && logged == old(logged)
                && places == old(places) && files == old(files) && inodes == old(inodes)
      ensures !A.Refused(|old(files)[i]|, off, |src|) ==>
                var e := A.Write(lay, old(places), i, off, off + |src|);
                calls == old(calls) + e.calls && end == A.EndOf(e, old(calls), limit) && (end.Done? ==> places == e.p)
      ensures !A.Refused(|old(files)[i]|, off, |src|) && end.Done? ==>
                Ok() && !over && |inodes| == |old(inodes)| && |files| == |old(files)| && r == |src|
                && files == old(files)[i := Splice(old(files)[i], off, src)]
      ensures end.LogFull? <==> over
    {
      SoundSize(s, lay.datastart, owner, files, i);
      var n := |src|;
      if off > inodes[i].size || (off + n) % 0x1_0000_0000 < off || off + n > MAXFILE * BSIZE {
        return A.Done, -1;
      }
      var ok := WriteAll(i, off, src);
      CalledIs(logged, over, calls, limit);
      end := if over then A.LogFull else if !ok then A.NoBlock else A.Done;
      r := n;
    }

    /** writei's loop, the new size and iupdate. */
    method WriteAll(i: nat, off: Word, src: seq<Byte>) returns (ok: bool)
      requires Ok() && i < |inodes| && off <= inodes[i].size && off + |src| <= MAXFILE * BSIZE
      modifies `blocks, `inodes, `dinodes, `logged, `over, `calls, `s, `owner, `places, `files
      ensures Called(logged, over, calls, limit)
      ensures Did(A.Write(lay, old(places), i, off, off + |src|), ok, old(calls))
      ensures ok ==> Ok() && |inodes| == |old(inodes)| && |files| == |old(files)| == |inodes| && off <= |old(files)[i]|
                     && files == old(files)[i := Splice(old(files)[i], off, src)]
    {
      SoundSize(s, lay.datastart, owner, files, i);
      ok := WriteBlocks(i, off, src);
      if ok {
        ghost var e := A.Rounds(lay, old(places), i, off, off + |src|);
        EndWrite(i, off, src, old(files), old(inodes));
        assert old(calls) + (e.calls + [lay.InodeBlock(i)]) == old(calls) + e.calls + [lay.InodeBlock(i)];
      }
    }

    /** The new size and iupdate. */
    method EndWrite(i: nat, off: nat, src: seq<Byte>, ghost files0: seq<seq<Byte>>, ghost inodes0: seq<Inode>)
      requires i < |inodes0| == |files0| && inodes0[i].size == |files0[i]| && dinodes == inodes0
      requires Writing(i, files0, inodes0, inodes0, off, src)
      modifies `inodes, `dinodes, `logged, `over, `calls
      ensures Ok() && |inodes| == |old(inodes)| && calls == old(calls) + [lay.InodeBlock(i)]
    {
      SoundSize(s, lay.datastart, owner, files, i);
      MirrorsAt(s, inodes, i);
      if off + |src| > inodes[i].size {
        inodes := inodes[i := inodes[i].(size := off + |src|)];
      }
      assert s.inodes == inodes;
      MirrorsSame(s);
      Iupdate(i);
    }

    /** writei has put `done` at off of file i: since it began only file i's
        contents and inode have changed, and not yet the size in core. */
    ghost predicate Writing(i: nat, files0: seq<seq<Byte>>, inodes0: seq<Inode>, sinodes0: seq<Inode>, off: nat,
                            done: seq<Byte>)
      reads this
    {
      && Fine() && i < |inodes| == |inodes0| == |sinodes0| && |files0| == |inodes| && off <= |files0[i]|
      && files == files0[i := Splice(files0[i], off, done)]
      && inodes == inodes0[i := inodes[i]] && inodes[i].size == inodes0[i].size
      && s.inodes == sinodes0[i := s.inodes[i]]
    }

    /** A round of writei's loop, on the next m bytes of src. */
    method WriteNext(i: nat, off: nat, src: seq<Byte>, tot: nat, ghost files0: seq<seq<Byte>>,
                     ghost inodes0: seq<Inode>, ghost sinodes0: seq<Inode>)
      returns (ok: bool, m: nat, ghost e: A.Effect)
      requires tot < |src| && off + |src| <= MAXFILE * BSIZE && Writing(i, files0, inodes0, sinodes0, off, src[..tot])
      modifies `blocks, `inodes, `logged, `over, `calls, `s, `owner, `places, `files
      ensures A.IsRound(lay, old(places), i, (off + tot) / BSIZE, e) && Did(e, ok, old(calls))
      ensures Called(logged, over, calls, limit)
      ensures m == DiskRoom.Chunk(off + tot, off + |src|)
      ensures ok ==> Writing(i, files0, inodes0, sinodes0, off, src[..tot + m])
    {
      var pos := off + tot;
      m := if |src| - tot < BSIZE - pos % BSIZE then |src| - tot else BSIZE - pos % BSIZE;
      SoundSize(s, lay.datastart, owner, files, i);
      e := A.Round(lay, places, i, pos / BSIZE);
      ok := WriteRound(i, pos, src[tot..tot + m]);
      NextPart(files0, i, off, src, tot, m);
    }

    /** writei's loop after tot bytes. */
    ghost predicate Progress(i: nat, files0: seq<seq<Byte>>, inodes0: seq<Inode>, sinodes0: seq<Inode>, p0: Places,
                             calls0: seq<nat>, off: nat, src: seq<Byte>, tot: nat)
      reads this
    {
      && tot <= |src| && off + |src| <= MAXFILE * BSIZE && Writing(i, files0, inodes0, sinodes0, off, src[..tot])
      && Left(lay, p0, calls0, i, off, off + |src|, places, calls, off + tot)
    }

    method WriteStep(i: nat, off: nat, src: seq<Byte>, tot: nat, ghost files0: seq<seq<Byte>>,
                     ghost inodes0: seq<Inode>, ghost sinodes0: seq<Inode>, ghost p0: Places, ghost calls0: seq<nat>)
      returns (ok: bool, m: nat)
      requires tot < |src| && Progress(i, files0, inodes0, sinodes0, p0, calls0, off, src, tot)
      modifies `blocks, `inodes, `logged, `over, `calls, `s, `owner, `places, `files
      ensures 0 < m <= |src| - tot && Called(logged, over, calls, limit)
      ensures if ok then Progress(i, files0, inodes0, sinodes0, p0, calls0, off, src, tot + m)
              else Did(A.Rounds(lay, p0, i, off, off + |src|), false, calls0)
    {
      ghost var p, c := places, calls;
      ghost var e;
      ok, m, e := WriteNext(i, off, src, tot, files0, inodes0, sinodes0);
      LeftNext(lay, p0, calls0, i, off, off + |src|, p, c, off + tot, e);
    }

    /** writei's loop. */
    method WriteBlocks(i: nat, off: nat, src: seq<Byte>) returns (ok: bool)
      requires Fine() && s.inodes == inodes && i < |inodes| && off <= inodes[i].size && off + |src| <= MAXFILE * BSIZE
      modifies `blocks, `inodes, `logged, `over, `calls, `s, `owner, `places, `files
      ensures Called(logged, over, calls, limit)
      ensures Did(A.Rounds(lay, old(places), i, off, off + |src|), ok, old(calls))
      ensures ok ==> Writing(i, old(files), old(inodes), old(s).inodes, off, src)
    {
      SoundSize(s, lay.datastart, owner, files, i);
      SpliceNone(files[i], off);
      LeftAll(lay, places, calls, i, off, off + |src|);
      var tot := 0;
      assert src[..0] == [];
      while tot < |src|
        invariant Progress(i, old(files), old(inodes), old(s).inodes, old(places), old(calls), off, src, tot)
      {
        var m;
        ok, m := WriteStep(i, off, src, tot, old(files), old(inodes), old(s).inodes, old(places), old(calls));
        if !ok { return; }
        tot := tot + m;
      }
      assert src[..tot] == src;
      LeftNone(lay, old(places), old(calls), i, off, off + |src|, places, calls);
      ok := true;
    }

    // ----- truncating -----

    /** bfree of the block in slot x, the next one that itrunc comes to: block n of the
        file. */
    method FreeNext(ghost s0: State<Byte>, ghost x: Slot, b: nat, ghost nd: nat, ghost ne: nat, ghost tb: bool,
                    ghost nd1: nat, ghost ne1: nat, ghost tb1: bool, ghost plan: A.Plan, ghost from: nat,
                    ghost n: nat, ghost used0: seq<bool>, ghost calls0: seq<nat>)
      returns (ok: bool)
      requires lay.Fits() && Rep(lay, blocks, s) && Logs() && Sound(s0, lay.datastart, owner, files) && Shaped(s0)
      requires s == s0.(used := s.used) && Cleared(s0.used, s.used, owner, x.ino, nd, ne, tb)
      requires IsSlot(s0, x) && At(s0, x) == b && !Gone(x, x.ino, nd, ne, tb)
      requires forall y :: IsSlot(s0, y) ==> (Gone(y, x.ino, nd1, ne1, tb1) <==> Gone(y, x.ino, nd, ne, tb) || y == x)
      requires from <= n < MAXFILE && x == FileSlot(x.ino, n) && Planned(s0, x.ino, plan)
      requires Freeing(lay, plan, from, n, used0, s.used, calls0, calls)
      modifies `blocks, `logged, `over, `calls, `s
      ensures ok && Rep(lay, blocks, s) && Logs() && s == s0.(used := s.used)
      ensures Cleared(s0.used, s.used, owner, x.ino, nd1, ne1, tb1)
      ensures Freeing(lay, plan, from, n + 1, used0, s.used, calls0, calls)
    {
      PlannedAt(s0, x.ino, plan, n);
      SoundClear(s0, lay.datastart, owner, files, s.used, x, nd, ne, tb, nd1, ne1, tb1);
      ok := true;
      if b != 0 {
        FreeSet(s.used, b, false);
        ok := Bfree(b);
      } else {
        assert calls + [] == calls;
      }
      FreeingNext(lay, plan, from, n, used0, old(s.used), calls0, old(calls), s.used);
    }

    /** itrunc. It never frees a free block, so its only panic is log_write's. */
    method Itrunc(i: nat) returns (end: A.End)
      requires Ok() && !over && i < |inodes|
      modifies `blocks, `inodes, `dinodes, `logged, `over, `calls, `s, `owner, `places, `files
      ensures var e := A.Trunc(lay, old(places), i);
              calls == old(calls) + e.calls && places == e.p && end == A.EndOf(e, old(calls), limit)
      ensures Ok() && |files| == |old(files)| == |inodes| == |old(inodes)| && files == old(files)[i := []]
      ensures Free(places.used) == Free(old(places).used) + BlocksHeld(old(places).plans[i].Shape())
      ensures end.LogFull? <==> over
    {
      ghost var plan := places.plans[i];
      Empty(i);
      TruncsIs(lay, old(places), i, places);
      Iupdate(i);
      CalledIs(logged, over, calls, limit);
      assert old(calls) + (A.FreedBlocks(lay, plan) + [lay.InodeBlock(i)])
          == old(calls) + A.FreedBlocks(lay, plan) + [lay.InodeBlock(i)];
      end := if over then A.LogFull else A.Done;
    }

    /** itrunc up to iupdate. */
    method Empty(i: nat)
      requires Ok() && i < |inodes|
      modifies `blocks, `inodes, `logged, `over, `calls, `s, `owner, `places, `files
      ensures calls == old(calls) + A.FreedBlocks(lay, old(places).plans[i])
      ensures TruncsTo(lay, old(places), i, places)
      ensures Fine() && s.inodes == inodes && inodes == old(inodes)[i := inodes[i]] && |inodes| == |old(inodes)|
      ensures |files| == |old(files)| == |inodes| && files == old(files)[i := []]
    {
      SoundSize(s, lay.datastart, owner, files, i);
      PlacedPlan(s, places, i);
      ghost var s0 := s;
      var ok := FreeAll(i, s0, places.plans[i]);
      EmptyInode(i, s0);
    }

    /** Its blocks are free: the file is empty. */
    method EmptyInode(i: nat, ghost s0: State<Byte>)
      requires lay.Fits() && Rep(lay, blocks, s) && Logs() && lay.HasInodes(|inodes|) && |dinodes| == |inodes|
      requires Shaped(s0) && Sound(s0, lay.datastart, owner, files) && Placed(s0, places)
      requires i < |s0.inodes| == |inodes| == |files| && s0.inodes == inodes[i := s0.inodes[i]]
      requires s == s0.(used := s.used) && GivenUp(s0, s.used, owner, i, places.plans[i])
      requires inodes[i].addrs == NoFile().addrs
      modifies `inodes, `s, `owner, `places, `files
      ensures TruncsTo(lay, old(places), i, places)
      ensures Fine() && s.inodes == inodes && inodes == old(inodes)[i := inodes[i]] && |inodes| == |old(inodes)|
      ensures files == old(files)[i := []]
    {
      inodes := inodes[i := inodes[i].(size := 0)];
      assert inodes[i] == NoFile();
      s := s.(inodes := inodes);
      RepInodes(lay, blocks, s0.(used := s.used), s);
      ghost var p1 := Truncates(s0, lay.datastart, owner, files, places, i, s, lay);
      MirrorsSame(s);
      owner := map b | b in owner && owner[b].ino != i :: owner[b];
      files := files[i := []];
      places := p1;
    }

    /** itrunc's loops. No bfree panics. */
    method FreeAll(i: nat, ghost s0: State<Byte>, ghost plan: A.Plan) returns (ok: bool)
      requires Fine() && s == s0 && i < |inodes| && Planned(s0, i, plan)
      modifies `blocks, `inodes, `logged, `over, `calls, `s
      ensures ok && Rep(lay, blocks, s) && Logs() && s == s0.(used := s.used)
      ensures GivenUp(s0, s.used, owner, i, plan)
      ensures |inodes| == |old(inodes)| && inodes == old(inodes)[i := inodes[i]] && inodes[i].addrs == NoFile().addrs
      ensures calls == old(calls) + A.FreedBlocks(lay, plan)
    {
      MirrorsAt(s0, inodes, i);
      ok := FreeDirect(i, s0, plan);
      ok := FreeIndirect(i, s0, plan, s0.used, old(calls));
    }

    method FreeDirect(i: nat, ghost s0: State<Byte>, ghost plan: A.Plan) returns (ok: bool)
      requires Fine() && s == s0 && i < |inodes| && Planned(s0, i, plan) && inodes[i].addrs == s0.inodes[i].addrs
      modifies `blocks, `inodes, `logged, `over, `calls, `s
      ensures ok && Rep(lay, blocks, s) && Logs() && s == s0.(used := s.used)
      ensures Cleared(s0.used, s.used, owner, i, NDIRECT, 0, false)
      ensures |inodes| == |old(inodes)| && inodes == old(inodes)[i := inodes[i]] && |inodes[i].addrs| == NDIRECT + 1
      ensures inodes[i].addrs[NDIRECT] == old(inodes)[i].addrs[NDIRECT]
      ensures forall k :: 0 <= k < NDIRECT ==> inodes[i].addrs[k] == 0
      ensures Freeing(lay, plan, 0, NDIRECT, s0.used, s.used, old(calls), calls)
    {
      ok := true;
      FreeingNone(lay, plan, 0, s.used, calls);
      var k := 0;
      while k < NDIRECT
        invariant 0 <= k <= NDIRECT && ok && Rep(lay, blocks, s) && Logs() && s == s0.(used := s.used)
        invariant Cleared(s0.used, s.used, owner, i, k, 0, false)
        invariant Freeing(lay, plan, 0, k, s0.used, s.used, old(calls), calls)
        invariant |inodes| == |old(inodes)| && inodes == old(inodes)[i := inodes[i]] && |inodes[i].addrs| == NDIRECT + 1
        invariant forall j :: 0 <= j <= NDIRECT ==> inodes[i].addrs[j] == if j < k then 0 else old(inodes)[i].addrs[j]
      {
        ok := FreeNext(s0, Direct(i, k), inodes[i].addrs[k], k, 0, false, k + 1, 0, false, plan, 0, k, s0.used,
                       old(calls));
        if inodes[i].addrs[k] != 0 {
          inodes := inodes[i := inodes[i].(addrs := inodes[i].addrs[k := 0])];
        }
        k := k + 1;
      }
    }

    method FreeIndirect(i: nat, ghost s0: State<Byte>, ghost plan: A.Plan, ghost used0: seq<bool>,
                        ghost calls0: seq<nat>)
      returns (ok: bool)
      requires lay.Fits() && Rep(lay, blocks, s) && Logs() && Sound(s0, lay.datastart, owner, files) && Shaped(s0)
      requires i < |inodes| == |s0.inodes| && Planned(s0, i, plan) && used0 == s0.used
      requires s == s0.(used := s.used) && Cleared(s0.used, s.used, owner, i, NDIRECT, 0, false)
      requires |inodes[i].addrs| == NDIRECT + 1 && inodes[i].addrs[NDIRECT] == At(s0, Table(i))
      requires Freeing(lay, plan, 0, NDIRECT, used0, s.used, calls0, calls)
      modifies `blocks, `inodes, `logged, `over, `calls, `s
      ensures ok && Rep(lay, blocks, s) && Logs() && s == s0.(used := s.used)
      ensures GivenUp(s0, s.used, owner, i, plan)
      ensures inodes == old(inodes)[i := old(inodes)[i].(addrs := old(inodes)[i].addrs[NDIRECT := 0])]
      ensures calls == calls0 + A.FreedBlocks(lay, plan)
    {
      ok := true;
      var t := inodes[i].addrs[NDIRECT];
      if t == 0 {
        SoundNoTable(s0, lay.datastart, owner, files, s.used, i);
        FreeingNoTable(lay, s0, i, plan, s.used, calls);
        FreeingAll(lay, plan, used0, s.used, s.used, s.used, calls0, calls, calls);
        assert inodes[i].addrs[NDIRECT := 0] == inodes[i].addrs;
        return;
      }
      ok := FreeEntries(i, t, s0, plan);
      FreeTable(i, t, s0, plan, used0, old(s.used), calls0, old(calls));
    }

    method FreeEntries(i: nat, t: nat, ghost s0: State<Byte>, ghost plan: A.Plan) returns (ok: bool)
      requires lay.Fits() && Rep(lay, blocks, s) && Logs() && Sound(s0, lay.datastart, owner, files) && Shaped(s0)
      requires i < |s0.inodes| && Planned(s0, i, plan) && t == At(s0, Table(i)) != 0
      requires s == s0.(used := s.used) && Cleared(s0.used, s.used, owner, i, NDIRECT, 0, false)
      modifies `blocks, `logged, `over, `calls, `s
      ensures ok && Rep(lay, blocks, s) && Logs() && s == s0.(used := s.used)
      ensures Cleared(s0.used, s.used, owner, i, NDIRECT, NINDIRECT, false)
      ensures Freeing(lay, plan, NDIRECT, MAXFILE, old(s.used), s.used, old(calls), calls)
    {
      SoundSlot(s0, lay.datastart, owner, files, Table(i));
      FreeingNone(lay, plan, NDIRECT, s.used, calls);
      ok := true;
      var j := 0;
      while j < NINDIRECT
        invariant 0 <= j <= NINDIRECT && ok && Rep(lay, blocks, s) && Logs() && s == s0.(used := s.used)
        invariant Cleared(s0.used, s.used, owner, i, NDIRECT, j, false)
        invariant Freeing(lay, plan, NDIRECT, NDIRECT + j, old(s.used), s.used, old(calls), calls)
      {
        RepReadData(lay, blocks, s, t);
        ok := FreeNext(s0, Entry(i, j), Blocks.GetWord(blocks[t], j), NDIRECT, j, false, NDIRECT, j + 1, false, plan,
                       NDIRECT, NDIRECT + j, old(s.used), old(calls));
        j := j + 1;
      }
    }

    /** The indirect block goes last. */
    method FreeTable(i: nat, t: nat, ghost s0: State<Byte>, ghost plan: A.Plan, ghost used0: seq<bool>,
                     ghost used1: seq<bool>, ghost calls0: seq<nat>, ghost calls1: seq<nat>)
      requires lay.Fits() && Rep(lay, blocks, s) && Logs() && Sound(s0, lay.datastart, owner, files) && Shaped(s0)
      requires i < |inodes| == |s0.inodes| && |inodes[i].addrs| == NDIRECT + 1 && used0 == s0.used
      requires Planned(s0, i, plan) && t == At(s0, Table(i)) != 0
      requires s == s0.(used := s.used) && Cleared(s0.used, s.used, owner, i, NDIRECT, NINDIRECT, false)
      requires Freeing(lay, plan, 0, NDIRECT, used0, used1, calls0, calls1)
      requires Freeing(lay, plan, NDIRECT, MAXFILE, used1, s.used, calls1, calls)
      modifies `blocks, `inodes, `logged, `over, `calls, `s
      ensures Rep(lay, blocks, s) && Logs() && s == s0.(used := s.used)
      ensures GivenUp(s0, s.used, owner, i, plan)
      ensures inodes == old(inodes)[i := old(inodes)[i].(addrs := old(inodes)[i].addrs[NDIRECT := 0])]
      ensures calls == calls0 + A.FreedBlocks(lay, plan)
    {
      PlannedAt(s0, i, plan, 0);
      SoundClear(s0, lay.datastart, owner, files, s.used, Table(i), NDIRECT, NINDIRECT, false, NDIRECT, NINDIRECT,
                 true);
      FreeSet(s.used, t, false);
      var ok := Bfree(t);
      FreeingAll(lay, plan, used0, used1, old(s.used), s.used, calls0, calls1, old(calls));
      inodes := inodes[i := inodes[i].(addrs := inodes[i].addrs[NDIRECT := 0])];
    }

    // ----- files -----

    /** filewrite's loop has written the first done bytes of src, in the transactions
        txs, and r is what the rest comes to. */
    ghost predicate Chunks(i: nat, files0: seq<seq<Byte>>, n: nat, off: nat, src: seq<Byte>, done: nat,
                           txs: seq<seq<nat>>, r0: A.FileEnd, r: A.FileEnd)
      reads this
    {
      && Ok() && !over && i < |inodes| == n == |files| == |files0| && done <= |src|
      && (done > 0 ==> off + done <= MAXFILE * BSIZE)
      && A.Writes(lay, limit, places, i, |files[i]|, off + done, |src| - done, r)
      && r0 == A.FileEnd(r.end, r.p, done + r.w, txs + r.txs)
      && if done == 0 then files == files0
         else off <= |files0[i]| && files == files0[i := Splice(files0[i], off, src[..done])]
    }

    /** One round, with a chunk of n1 bytes. wrote is -1 when the chunk is refused. */
    method ChunkStep(i: nat, off: Word, src: seq<Byte>, done: nat, n1: nat, ghost files0: seq<seq<Byte>>,
                     ghost txs: seq<seq<nat>>, ghost r0: A.FileEnd, ghost r: A.FileEnd)
      returns (end: A.End, wrote: int, ghost txs1: seq<seq<nat>>, ghost r1: A.FileEnd)
      requires done < |src| < 0x8000_0000 && Chunks(i, files0, |inodes|, off, src, done, txs, r0, r)
      requires n1 == A.NextChunk(|src| - done)
      modifies this
      ensures !end.Done? ==> end == r0.end && r0.txs == txs1 && r0.w == done
      ensures end.Done? ==> wrote == -1 || wrote == n1
      ensures end.Done? && wrote == n1 ==> Chunks(i, files0, |old(inodes)|, off, src, done + n1, txs1, r0, r1)
      ensures end.Done? && wrote == -1 ==> Chunks(i, files0, |old(inodes)|, off, src, done, txs, r0, r)
                                           && r0 == A.FileEnd(A.Done, places, done, txs1)
    {
      ghost var p, size := places, |files[i]|;
      ghost var e;
      end, wrote, e := WriteChunk(i, off + done, src[done..done + n1]);
      txs1, r1 := txs + [[]], r;
      if A.Refused(size, off + done, n1) {
        A.WritesRefused(lay, limit, p, i, size, off + done, |src| - done, r);
      } else {
        txs1 := txs + [e.calls];
        if end.Done? {
          r1 := A.WritesRest(lay, limit, p, i, size, off + done, |src| - done, r, e);
          assert txs + ([e.calls] + r1.txs) == txs1 + r1.txs;
          if done > 0 { NextPart(files0, i, off, src, done, n1); }
        } else {
          A.WritesStops(lay, limit, p, i, size, off + done, |src| - done, r, e);
        }
      }
    }

    /** kfilewrite on an inode. ret and off1 are its result and the new f->off; r is
        what Allocation says of the loop: how it ends, the bytes written and the
        blocks that each transaction logs. */
    method Filewrite(i: nat, off: Word, src: seq<Byte>) returns (end: A.End, ret: int, off1: nat, ghost r: A.FileEnd)
      requires Ok() && !over && i < |inodes| && |src| < 0x8000_0000
      modifies this
      ensures |old(files)| == |old(inodes)|
      ensures A.Writes(lay, limit, old(places), i, |old(files)[i]|, off, |src|, r) && end == r.end
      ensures A.Budgeted(r.txs) && (limit > L.MAXOPBLOCKS ==> !end.LogFull?)
      ensures end.Done? ==> Ok() && !over && |inodes| == |old(inodes)| && |files| == |old(files)| == |inodes|
                            && places == r.p
      ensures end.Done? ==> off1 == off + r.w && ret == (if r.w == |src| then r.w else -1) && r.w <= |src|
      ensures end.Done? ==> r.w == A.Accepted(|old(files)[i]|, off, |src|)
      ensures end.Done? ==>
                ret == if |src| == 0 || (off <= |old(files)[i]| && off + |src| <= 268 * 1024) then |src| else -1
      ensures end.Done? && r.w == 0 ==> files == old(files)
      ensures end.Done? && r.w > 0 ==> off <= |old(files)[i]|
                                       && files == old(files)[i := Splice(old(files)[i], off, src[..r.w])]
    {
      SoundSize(s, lay.datastart, owner, files, i);
      PlacedSane(s, lay.datastart, owner, files, places);
      if off <= |files[i]| { FileStarted(s, lay.datastart, owner, files, places, i, off); }
      r := A.Filewrite(lay, limit, places, i, |files[i]|, off, |src|);
      A.FilewriteLogs(lay, limit, places, i, |files[i]|, off, |src|, r);
      A.FilewriteNeeds(lay, limit, places, i, |files[i]|, off, |src|, r);
      end, ret, off1 := WriteChunks(i, off, src, r);
    }

    /** The loop. */
    method WriteChunks(i: nat, off: Word, src: seq<Byte>, ghost r0: A.FileEnd)
      returns (end: A.End, ret: int, off1: nat)
      requires Ok() && !over && i < |inodes| == |files| && |src| < 0x8000_0000
      requires A.Writes(lay, limit, places, i, |files[i]|, off, |src|, r0)
      modifies this
      ensures end == r0.end
      ensures end.Done? ==> Ok() && !over && |inodes| == |old(inodes)| && |files| == |old(files)| == |inodes|
                            && places == r0.p
      ensures end.Done? ==> off1 == off + r0.w && ret == (if r0.w == |src| then r0.w else -1) && r0.w <= |src|
      ensures end.Done? && r0.w == 0 ==> files == old(files)
      ensures end.Done? && r0.w > 0 ==> off <= |old(files)[i]|
                                        && files == old(files)[i := Splice(old(files)[i], off, src[..r0.w])]
    {
      off1 := off;
      var done, wrote := 0, 0;
      ghost var txs, r: A.FileEnd := [], r0;
      assert [] + r0.txs == r0.txs;
      while done < |src|
        invariant Chunks(i, old(files), |old(inodes)|, off, src, done, txs, r0, r) && off1 == off + done
      {
        var n1 := if |src| - done > A.CHUNK then A.CHUNK else |src| - done;
        ghost var txs1, r1;
        end, wrote, txs1, r1 := ChunkStep(i, off, src, done, n1, old(files), txs, r0, r);
        if !end.Done? { ret := -1; return; }
        if wrote != n1 { return A.Done, -1, off1; }
        off1, done := off1 + wrote, done + wrote;
        txs, r := txs1, r1;
      }
      A.WritesNone(lay, limit, places, i, |files[i]|, off + done, r);
      end, ret := A.Done, |src|;
    }

    /** One transaction of filewrite. */
    method WriteChunk(i: nat, off: Word, src: seq<Byte>) returns (end: A.End, r: int, ghost e: A.Effect)
      requires Ok() && i < |inodes| && 0 < |src| <= A.CHUNK
      modifies this
      ensures |old(files)| == |old(inodes)|
      ensures A.Refused(|old(files)[i]|, off, |src|) ==>
                end.Done? && r == -1 && Ok() && !over && calls == [] && places == old(places) && files == old(files)
                && inodes == old(inodes)
      ensures !A.Refused(|old(files)[i]|, off, |src|) ==>
                A.IsChunk(lay, old(places), i, off, |src|, e) && calls == e.calls && end == A.EndOf(e, [], limit)
                && (end.Done? ==> places == e.p)
      ensures !A.Refused(|old(files)[i]|, off, |src|) && end.Done? ==>
                Ok() && !over && |inodes| == |old(inodes)| && |files| == |old(files)| && r == |src|
                && files == old(files)[i := Splice(old(files)[i], off, src)]
    {
      SoundSize(s, lay.datastart, owner, files, i);
      e := if A.Refused(|files[i]|, off, |src|) then A.Nothing(places)
           else A.Write(lay, places, i, off, off + |src|);
      Begin();
      end, r := Writei(i, off, src);
      assert [] + e.calls == e.calls;
    }
  }

  // ----- runs -----

  datatype Op = ReadOp(i: nat, off: Word, n: Word) | WriteOp(i: nat, off: Word, src: seq<Byte>) | TruncOp(i: nat)

  datatype Reply = Bytes(data: seq<Byte>) | Count(r: int) | Emptied

  predicate OpFor(op: Op, n: nat) {
    op.i < n && (op.WriteOp? ==> |op.src| < 0x1_0000_0000)
  }

  /** What each operation means for files that are plain byte sequences. */
  function ReplyOf(files: seq<seq<Byte>>, op: Op): Reply
    requires op.i < |files|
  {
    match op
    case ReadOp(i, off, n) =>
      var c := files[i];
      if off > |c| || off + n >= 0x1_0000_0000 then Bytes([]) else Bytes(c[off..if off + n > |c| then |c| else off + n])
    case WriteOp(i, off, src) => if A.Refused(|files[i]|, off, |src|) then Count(-1) else Count(|src|)
    case TruncOp(_) => Emptied
  }

  function FilesAfter(files: seq<seq<Byte>>, op: Op): (r: seq<seq<Byte>>)
    requires op.i < |files|
    ensures |r| == |files|
  {
    match op
    case ReadOp(_, _, _) => files
    case WriteOp(i, off, src) =>
      if A.Refused(|files[i]|, off, |src|) then files else files[i := Splice(files[i], off, src)]
    case TruncOp(i) => files[i := []]
  }

  /** The blocks that an operation takes, frees and logs. */
  ghost function OpEffect(lay: Layout, p: Places, files: seq<seq<Byte>>, op: Op): (e: A.Effect)
    requires op.i < |p.plans| == |files|
    ensures |e.p.plans| == |p.plans|
  {
    match op
    case ReadOp(_, _, _) => A.Nothing(p)
    case WriteOp(i, off, src) => if A.Refused(|files[i]|, off, |src|) then A.Nothing(p)
                                 else A.Write(lay, p, i, off, off + |src|)
    case TruncOp(i) => A.Trunc(lay, p, i)
  }

  /** Reads and truncations never lack a block; a write does exactly if the blocks
      that it needs are not free. */
  lemma OpNeeds(lay: Layout, p: Places, files: seq<seq<Byte>>, op: Op)
    requires p.Sane() && op.i < |p.plans| == |files|
    ensures !OpEffect(lay, p, files, op).ok <==>
              op.WriteOp? && !A.Refused(|files[op.i]|, op.off, |op.src|)
              && Need(p.plans[op.i].Shape(), op.off, op.off + |op.src|) > Free(p.used)
  {
    if op.WriteOp? && !A.Refused(|files[op.i]|, op.off, |op.src|) {
      A.WriteNeeds(lay, p, op.i, op.off, op.off + |op.src|);
    }
  }

  /** What a run comes to: how it ends, the map, the files, the answers given before
      a panic, and the calls of log_write. */
  datatype Ended = Ended(end: A.End, p: Places, files: seq<seq<Byte>>, replies: seq<Reply>, calls: seq<nat>)

  ghost predicate AllOps(ops: seq<Op>, n: nat) {
    forall k :: 0 <= k < |ops| ==> ops[k].i < n
  }

  /** A run of one transaction that has made these calls of log_write before, and
      whose log holds up to limit blocks. */
  ghost function RunEnd(lay: Layout, limit: nat, p: Places, files: seq<seq<Byte>>, ops: seq<Op>, calls: seq<nat>)
    : (r: Ended)
    requires |p.plans| == |files| && AllOps(ops, |files|)
    ensures |r.p.plans| == |r.files| == |files|
    decreases |ops|
  {
    if ops == [] then Ended(A.Done, p, files, [], calls)
    else
      var e := OpEffect(lay, p, files, ops[0]);
      var end := A.EndOf(e, calls, limit);
      if end != A.Done then Ended(end, p, files, [], calls + e.calls)
      else
        var r := RunEnd(lay, limit, e.p, FilesAfter(files, ops[0]), ops[1..], calls + e.calls);
        r.(replies := [ReplyOf(files, ops[0])] + r.replies)
  }

  ghost function Replies(files: seq<seq<Byte>>, ops: seq<Op>): (r: seq<Reply>)
    requires AllOps(ops, |files|)
    ensures |r| == |ops|
    decreases |ops|
  {
    if ops == [] then [] else [ReplyOf(files, ops[0])] + Replies(FilesAfter(files, ops[0]), ops[1..])
  }

  ghost function FilesAll(files: seq<seq<Byte>>, ops: seq<Op>): (r: seq<seq<Byte>>)
    requires AllOps(ops, |files|)
    ensures |r| == |files|
    decreases |ops|
  {
    if ops == [] then files else FilesAll(FilesAfter(files, ops[0]), ops[1..])
  }

  /** The answers are those of plain byte sequences, all of them unless a panic cuts
      them short, and so are the files. */
  lemma {:induction false} RunServes(lay: Layout, limit: nat, p: Places, files: seq<seq<Byte>>, ops: seq<Op>,
                                     calls: seq<nat>)
    requires |p.plans| == |files| && AllOps(ops, |files|)
    ensures var r := RunEnd(lay, limit, p, files, ops, calls);
            && r.replies <= Replies(files, ops)
            && (r.end.Done? ==> |r.replies| == |ops| && r.files == FilesAll(files, ops))
    decreases |ops|
  {
    if ops != [] {
      var e := OpEffect(lay, p, files, ops[0]);
      if A.EndOf(e, calls, limit) == A.Done {
        RunServes(lay, limit, e.p, FilesAfter(files, ops[0]), ops[1..], calls + e.calls);
      }
    }
  }

  /** It ends in log_write's panic exactly if one of its calls finds the log full. */
  lemma {:induction false} RunFull(lay: Layout, limit: nat, p: Places, files: seq<seq<Byte>>, ops: seq<Op>,
                                   calls: seq<nat>)
    requires |p.plans| == |files| && AllOps(ops, |files|) && !A.Overfull(calls, limit)
    ensures var r := RunEnd(lay, limit, p, files, ops, calls); r.end.LogFull? <==> A.Overfull(r.calls, limit)
    decreases |ops|
  {
    if ops != [] {
      var e := OpEffect(lay, p, files, ops[0]);
      if A.EndOf(e, calls, limit) == A.Done {
        RunFull(lay, limit, e.p, FilesAfter(files, ops[0]), ops[1..], calls + e.calls);
      }
    }
  }

  lemma OpSane(lay: Layout, p: Places, files: seq<seq<Byte>>, op: Op)
    requires p.Sane() && op.i < |p.plans| == |files| && OpEffect(lay, p, files, op).ok
    ensures OpEffect(lay, p, files, op).p.Sane()
  {
    if op.WriteOp? && !A.Refused(|files[op.i]|, op.off, |op.src|) {
      A.RoundsNeed(lay, p, op.i, op.off, op.off + |op.src|);
    }
  }

  /** It answers every operation unless it panics. It lacks blocks exactly in a write
      that writei accepts and that needs more than are free then. */
  lemma {:induction false} RunStops(lay: Layout, limit: nat, p: Places, files: seq<seq<Byte>>, ops: seq<Op>,
                                    calls: seq<nat>)
    requires p.Sane() && |p.plans| == |files| && AllOps(ops, |files|)
    ensures var r := RunEnd(lay, limit, p, files, ops, calls);
            && |r.replies| <= |ops| && (r.end.Done? <==> |r.replies| == |ops|) && r.p.Sane()
            && (r.end.NoBlock? ==> LacksBlocks(r.p, r.files, ops[|r.replies|]))
    decreases |ops|
  {
    if ops != [] {
      var e := OpEffect(lay, p, files, ops[0]);
      if A.EndOf(e, calls, limit) == A.Done {
        OpSane(lay, p, files, ops[0]);
        RunStops(lay, limit, e.p, FilesAfter(files, ops[0]), ops[1..], calls + e.calls);
      } else {
        OpNeeds(lay, p, files, ops[0]);
      }
    }
  }

  ghost predicate LacksBlocks(p: Places, files: seq<seq<Byte>>, op: Op) {
    && op.WriteOp? && op.i < |p.plans| == |files|
    && op.off <= |files[op.i]| && op.off + |op.src| <= MAXFILE * BSIZE
    && Need(p.plans[op.i].Shape(), op.off, op.off + |op.src|) > Free(p.used)
  }

  // ----- what the answers are, read off the operations -----

  /** The operation does not change file i. */
  predicate Leaves(op: Op, i: nat) {
    op.i == i ==> op.ReadOp?
  }

  predicate AllLeave(ops: seq<Op>, i: nat) {
    forall k :: 0 <= k < |ops| ==> Leaves(ops[k], i)
  }

  lemma {:induction false} FilesJoin(files: seq<seq<Byte>>, ops: seq<Op>, more: seq<Op>)
    requires AllOps(ops, |files|) && AllOps(more, |files|)
    ensures AllOps(ops + more, |files|) && FilesAll(files, ops + more) == FilesAll(FilesAll(files, ops), more)
    decreases |ops|
  {
    if ops == [] {
      assert ops + more == more;
    } else {
      FilesJoin(FilesAfter(files, ops[0]), ops[1..], more);
      assert (ops + more)[1..] == ops[1..] + more;
    }
  }

  lemma {:induction false} FilesLeave(files: seq<seq<Byte>>, ops: seq<Op>, i: nat)
    requires AllOps(ops, |files|) && AllLeave(ops, i) && i < |files|
    ensures FilesAll(files, ops)[i] == files[i]
    decreases |ops|
  {
    if ops != [] {
      assert Leaves(ops[0], i);
      FilesLeave(FilesAfter(files, ops[0]), ops[1..], i);
    }
  }

  lemma {:induction false} RepliesAt(files: seq<seq<Byte>>, ops: seq<Op>, k: nat)
    requires AllOps(ops, |files|) && k < |ops|
    ensures Replies(files, ops)[k] == ReplyOf(FilesAll(files, ops[..k]), ops[k])
    decreases |ops|
  {
    if k > 0 {
      RepliesAt(FilesAfter(files, ops[0]), ops[1..], k - 1);
      assert ops[..k][1..] == ops[1..][..k - 1];
    }
  }

  /** Between operation j and operation k nothing changes file i. */
  lemma FileBetween(files: seq<seq<Byte>>, ops: seq<Op>, j: nat, k: nat, i: nat)
    requires AllOps(ops, |files|) && j < k <= |ops| && i < |files| && AllLeave(ops[j + 1..k], i)
    ensures FilesAll(files, ops[..k])[i] == FilesAfter(FilesAll(files, ops[..j]), ops[j])[i]
  {
    FilesSplit(files, ops, j, k);
    FilesLeave(FilesAfter(FilesAll(files, ops[..j]), ops[j]), ops[j + 1..k], i);
  }

  lemma FilesSplit(files: seq<seq<Byte>>, ops: seq<Op>, j: nat, k: nat)
    requires AllOps(ops, |files|) && j < k <= |ops|
    ensures FilesAll(files, ops[..k]) == FilesAll(FilesAfter(FilesAll(files, ops[..j]), ops[j]), ops[j + 1..k])
  {
    var rest := ops[j..k];
    assert ops[..k] == ops[..j] + rest && rest[1..] == ops[j + 1..k];
    FilesJoin(files, ops[..j], rest);
  }

  /** A read gives what the last write put there. */
  lemma ReadsLastWrite(files: seq<seq<Byte>>, ops: seq<Op>, j: nat, k: nat, i: nat, off: Word, src: seq<Byte>)
    requires AllOps(ops, |files|) && j < k < |ops| && AllLeave(ops[j + 1..k], i)
    requires ops[j] == WriteOp(i, off, src) && Replies(files, ops)[j] != Count(-1)
    requires |src| < 0x1_0000_0000 && ops[k] == ReadOp(i, off, |src|)
    ensures Replies(files, ops)[j] == Count(|src|) && Replies(files, ops)[k] == Bytes(src)
  {
    RepliesAt(files, ops, j);
    RepliesAt(files, ops, k);
    FileBetween(files, ops, j, k, i);
    SpliceRead(FilesAll(files, ops[..j])[i], off, src);
  }

  /** A write is refused exactly past the end of the file or beyond the largest file. */
  lemma WriteRefused(files: seq<seq<Byte>>, ops: seq<Op>, k: nat)
    requires AllOps(ops, |files|) && k < |ops| && ops[k].WriteOp?
    ensures var size := |FilesAll(files, ops[..k])[ops[k].i]|;
            Replies(files, ops)[k]
            == Count(if ops[k].off > size || ops[k].off + |ops[k].src| > 268 * 1024 then -1 else |ops[k].src|)
  {
    RepliesAt(files, ops, k);
  }

  lemma SpliceRead(c: seq<Byte>, off: nat, src: seq<Byte>)
    requires off <= |c|
    ensures off + |src| <= |Splice(c, off, src)| && Splice(c, off, src)[off..off + |src|] == src
  {
  }

  /** A truncated file reads as empty. */
  lemma ReadsTruncated(files: seq<seq<Byte>>, ops: seq<Op>, j: nat, k: nat, i: nat)
    requires AllOps(ops, |files|) && j < k < |ops| && AllLeave(ops[j + 1..k], i)
    requires ops[j] == TruncOp(i) && ops[k].ReadOp? && ops[k].i == i
    ensures Replies(files, ops)[k] == Bytes([])
  {
    RepliesAt(files, ops, k);
    FileBetween(files, ops, j, k, i);
  }

  /** A file that nothing has changed reads as it was. */
  lemma ReadsFirst(files: seq<seq<Byte>>, ops: seq<Op>, k: nat, i: nat, off: Word, n: Word)
    requires AllOps(ops, |files|) && k < |ops| && AllLeave(ops[..k], i) && ops[k] == ReadOp(i, off, n)
    requires off + n < 0x1_0000_0000
    ensures var size := |files[i]|;
            Replies(files, ops)[k]
            == Bytes(if off > size then [] else files[i][off..if off + n > size then size else off + n])
  {
    RepliesAt(files, ops, k);
    FilesLeave(files, ops[..k], i);
  }

  /** An operation that keeps to what begin_op reserves: a read, a write no longer than
      filewrite's, or a truncation on a disk with at most nine bitmap blocks. */
  predicate Small(lay: Layout, op: Op) {
    op.ReadOp? || (op.WriteOp? && |op.src| <= A.CHUNK) || (op.TruncOp? && lay.size <= 9 * BPB)
  }

  predicate AllSmall(lay: Layout, ops: seq<Op>) {
    forall k :: 0 <= k < |ops| ==> Small(lay, ops[k])
  }

  /** The effect of op on map and log, and how it ends; folded like Rep. */
  ghost predicate Ends(lay: Layout, limit: nat, p: Places, files: seq<seq<Byte>>, op: Op, calls: seq<nat>, end: A.End,
                       p1: Places, calls1: seq<nat>) {
    && op.i < |p.plans| == |files|
    && forall k {:trigger Unfold(k)} :: k >= 0 ==>
      var e := OpEffect(lay, p, files, op);
      calls1 == calls + e.calls && end == A.EndOf(e, calls, limit) && (end.Done? ==> p1 == e.p)
  }

  lemma PlanInside(s: State<Byte>, datastart: nat, owner: map<nat, Slot>, files: seq<seq<Byte>>, p: Places, i: nat)
    requires Sound(s, datastart, owner, files) && Placed(s, p) && i < |s.inodes| == |files|
    ensures p.plans[i].table < |s.used| && forall n :: 0 <= n < MAXFILE ==> p.plans[i].at[n] < |s.used|
  {
    SoundMeta(s, datastart, owner, files);
    PlacedSane(s, datastart, owner, files, p);
    SoundSlot(s, datastart, owner, files, Table(i));
    PlacedAt(s, p, i, 0);
    forall n | 0 <= n < MAXFILE
      ensures p.plans[i].at[n] < |s.used|
    {
      PlacedAt(s, p, i, n);
      SoundSlot(s, datastart, owner, files, FileSlot(i, n));
    }
  }

  /** A small operation logs at most MAXOPBLOCKS blocks. */
  lemma SmallLogs(s: State<Byte>, datastart: nat, owner: map<nat, Slot>, files: seq<seq<Byte>>, p: Places, lay: Layout,
                  op: Op)
    requires Sound(s, datastart, owner, files) && Placed(s, p) && op.i < |s.inodes| == |files| && |s.used| == lay.size
    requires Small(lay, op)
    ensures |A.Elems(OpEffect(lay, p, files, op).calls)| <= L.MAXOPBLOCKS
  {
    PlacedSane(s, datastart, owner, files, p);
    var none: seq<nat> := [];
    assert A.Elems(none) == {};
    match op {
      case ReadOp(_, _, _) =>
      case WriteOp(i, off, src) =>
        if !A.Refused(|files[i]|, off, |src|) {
          FileStarted(s, datastart, owner, files, p, i, off);
          A.WriteLogs(lay, p, i, off, off + |src|);
        }
      case TruncOp(i) =>
        PlanInside(s, datastart, owner, files, p, i);
        A.SmallDiskTruncs(lay, p.plans[i], i);
    }
  }

  method Step(d: Disk, op: Op) returns (end: A.End, r: Reply)
    requires d.Ok() && !d.over && OpFor(op, |d.inodes|)
    modifies d
    ensures op.i < |old(d.files)| == |old(d.places).plans|
    ensures Ends(d.lay, d.limit, old(d.places), old(d.files), op, old(d.calls), end, d.places, d.calls)
    ensures end.Done? ==> d.Ok() && !d.over && |d.inodes| == |old(d.inodes)| && r == ReplyOf(old(d.files), op)
                          && d.files == FilesAfter(old(d.files), op)
    ensures d.base == old(d.base) && d.dbase == old(d.dbase)
  {
    SoundSize(d.s, d.lay.datastart, d.owner, d.files, op.i);
    CalledIs(d.logged, d.over, d.calls, d.limit);
    ghost var p, files, calls := d.places, d.files, d.calls;
    match op {
      case ReadOp(i, off, n) =>
        var dst := d.Readi(i, off, n);
        end, r := A.Done, Bytes(dst);
        EndsUnmoved(d.lay, d.limit, p, files, op, calls);
      case WriteOp(i, off, src) =>
        var n;
        end, n := d.Writei(i, off, src);
        r := Count(n);
        if A.Refused(|files[i]|, off, |src|) {
          EndsUnmoved(d.lay, d.limit, p, files, op, calls);
        } else {
          EndsWrite(d.lay, d.limit, p, files, op, calls, end, d.places, d.calls);
        }
      case TruncOp(i) =>
        end := d.Itrunc(i);
        r := Emptied;
        EndsTrunc(d.lay, d.limit, p, files, op, calls, end, d.places, d.calls);
    }
  }

  lemma EndsUnmoved(lay: Layout, limit: nat, p: Places, files: seq<seq<Byte>>, op: Op, calls: seq<nat>)
    requires op.i < |p.plans| == |files| && !A.Overfull(calls, limit)
    requires op.ReadOp? || (op.WriteOp? && A.Refused(|files[op.i]|, op.off, |op.src|))
    ensures Ends(lay, limit, p, files, op, calls, A.Done, p, calls)
  {
    var e := OpEffect(lay, p, files, op);
    assert calls + e.calls == calls && A.EndOf(e, calls, limit) == A.Done;
  }

  lemma EndsWrite(lay: Layout, limit: nat, p: Places, files: seq<seq<Byte>>, op: Op, calls: seq<nat>, end: A.End,
                  p1: Places, calls1: seq<nat>)
    requires op.i < |p.plans| == |files| && op.WriteOp? && !A.Refused(|files[op.i]|, op.off, |op.src|)
    requires var e := A.Write(lay, p, op.i, op.off, op.off + |op.src|);
             calls1 == calls + e.calls && end == A.EndOf(e, calls, limit) && (end.Done? ==> p1 == e.p)
    ensures Ends(lay, limit, p, files, op, calls, end, p1, calls1)
  {
    var e := OpEffect(lay, p, files, op);
    assert calls1 == calls + e.calls && end == A.EndOf(e, calls, limit);
  }

  lemma EndsTrunc(lay: Layout, limit: nat, p: Places, files: seq<seq<Byte>>, op: Op, calls: seq<nat>, end: A.End,
                  p1: Places, calls1: seq<nat>)
    requires op.i < |p.plans| == |files| && op.TruncOp?
    requires var e := A.Trunc(lay, p, op.i);
             calls1 == calls + e.calls && end == A.EndOf(e, calls, limit) && (end.Done? ==> p1 == e.p)
    ensures Ends(lay, limit, p, files, op, calls, end, p1, calls1)
  {
    var e := OpEffect(lay, p, files, op);
    assert calls1 == calls + e.calls && end == A.EndOf(e, calls, limit);
  }

  /** After the first |replies| operations; folded like Rep. */
  ghost predicate Ran(lay: Layout, limit: nat, r0: Ended, ops: seq<Op>, p: Places, files: seq<seq<Byte>>,
                      replies: seq<Reply>, calls: seq<nat>) {
    && |p.plans| == |files| && AllOps(ops, |files|) && |replies| <= |ops|
    && forall k {:trigger Unfold(k)} :: k >= 0 ==>
      var r := RunEnd(lay, limit, p, files, ops[|replies|..], calls);
      r0 == r.(replies := replies + r.replies)
  }

  lemma RanNone(lay: Layout, limit: nat, p: Places, files: seq<seq<Byte>>, ops: seq<Op>, calls: seq<nat>)
    requires |p.plans| == |files| && AllOps(ops, |files|)
    ensures Ran(lay, limit, RunEnd(lay, limit, p, files, ops, calls), ops, p, files, [], calls)
  {
    assert ops[0..] == ops;
    var r := RunEnd(lay, limit, p, files, ops, calls);
    assert [] + r.replies == r.replies;
  }

  lemma RanNext(lay: Layout, limit: nat, r0: Ended, ops: seq<Op>, p: Places, files: seq<seq<Byte>>,
                replies: seq<Reply>, calls: seq<nat>, end: A.End, p1: Places, calls1: seq<nat>)
    requires Ran(lay, limit, r0, ops, p, files, replies, calls) && |replies| < |ops|
    requires Ends(lay, limit, p, files, ops[|replies|], calls, end, p1, calls1)
    ensures end.Done? ==> Ran(lay, limit, r0, ops, p1, FilesAfter(files, ops[|replies|]),
                              replies + [ReplyOf(files, ops[|replies|])], calls1)
    ensures !end.Done? ==> r0.end == end && r0.replies == replies && r0.calls == calls1
  {
    assert Unfold(0);
    var k := |replies|;
    assert ops[k..][1..] == ops[k + 1..];
    if end.Done? {
      var r := RunEnd(lay, limit, p1, FilesAfter(files, ops[k]), ops[k + 1..], calls1);
      Assoc(replies, [ReplyOf(files, ops[k])], r.replies);
    } else {
      assert replies + [] == replies;
    }
  }

  lemma RanAll(lay: Layout, limit: nat, r0: Ended, ops: seq<Op>, p: Places, files: seq<seq<Byte>>,
               replies: seq<Reply>, calls: seq<nat>)
    requires Ran(lay, limit, r0, ops, p, files, replies, calls) && |replies| == |ops|
    ensures r0 == Ended(A.Done, p, files, replies, calls)
  {
    assert Unfold(0);
    assert replies + [] == replies;
  }

  /** Any run of reads, writes and truncations in one transaction comes to what RunEnd
      says: it answers as byte sequences would, and ends exactly in the panic of
      balloc or log_write that it meets first, if any. */
  method Run(d: Disk, ops: seq<Op>) returns (end: A.End, replies: seq<Reply>)
    requires d.Ok() && !d.over && forall k :: 0 <= k < |ops| ==> OpFor(ops[k], |d.inodes|)
    modifies d
    ensures AllOps(ops, |old(d.files)|) && |old(d.places).plans| == |old(d.files)|
    ensures var r := RunEnd(d.lay, d.limit, old(d.places), old(d.files), ops, old(d.calls));
            end == r.end && replies == r.replies && d.calls == r.calls
            && (end.Done? ==> d.places == r.p && d.files == r.files)
    ensures end.Done? ==> d.Ok() && !d.over && |d.inodes| == |old(d.inodes)|
    ensures AllSmall(d.lay, ops) ==>
              |A.Elems(d.calls)| <= |A.Elems(old(d.calls))| + L.MAXOPBLOCKS * |ops|
    ensures d.base == old(d.base) && d.dbase == old(d.dbase)
  {
    SoundFiles(d.s, d.lay.datastart, d.owner, d.files);
    ghost var r0 := RunEnd(d.lay, d.limit, d.places, d.files, ops, d.calls);
    RanNone(d.lay, d.limit, d.places, d.files, ops, d.calls);
    replies := [];
    while |replies| < |ops|
      invariant d.Ok() && !d.over && |d.inodes| == |old(d.inodes)| == |d.files|
      invariant Ran(d.lay, d.limit, r0, ops, d.places, d.files, replies, d.calls)
      invariant d.base == old(d.base) && d.dbase == old(d.dbase)
      invariant AllSmall(d.lay, ops) ==>
                  |A.Elems(d.calls)| <= |A.Elems(old(d.calls))| + L.MAXOPBLOCKS * |replies|
      decreases |ops| - |replies|
    {
      ghost var p, files, calls := d.places, d.files, d.calls;
      if AllSmall(d.lay, ops) { SmallLogs(d.s, d.lay.datastart, d.owner, files, p, d.lay, ops[|replies|]); }
      var r;
      end, r := Step(d, ops[|replies|]);
      EndsLogs(d.lay, d.limit, p, files, ops[|replies|], calls, end, d.places, d.calls);
      RanNext(d.lay, d.limit, r0, ops, p, files, replies, calls, end, d.places, d.calls);
      if !end.Done? { return; }
      replies := replies + [r];
    }
    RanAll(d.lay, d.limit, r0, ops, d.places, d.files, replies, d.calls);
    end := A.Done;
  }

  lemma EndsLogs(lay: Layout, limit: nat, p: Places, files: seq<seq<Byte>>, op: Op, calls: seq<nat>, end: A.End,
                 p1: Places, calls1: seq<nat>)
    requires Ends(lay, limit, p, files, op, calls, end, p1, calls1)
    ensures |A.Elems(calls1)| <= |A.Elems(calls)| + |A.Elems(OpEffect(lay, p, files, op).calls)|
  {
    assert Unfold(0);
    A.ElemsJoin(calls, OpEffect(lay, p, files, op).calls);
  }
}
