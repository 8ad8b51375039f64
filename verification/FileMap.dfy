/** Files over blocks (kernel/fs.c): which disk block holds which part of which
    file, the bitmap that says which blocks are taken, and the bytes a file has.
    A disk block is seen in the ways the kernel reads it: its bit in the bitmap,
    its 32-bit words, its bytes. Module FileSystem ties these to raw blocks. */
module FileMap {

  const BSIZE: nat := 1024
  const NDIRECT: nat := 12
  const NINDIRECT: nat := 256
  const MAXFILE: nat := 268   // NDIRECT + NINDIRECT

  /** struct inode: addrs[NDIRECT] is the indirect block, and 0 means none. */
  datatype Inode = Inode(addrs: seq<nat>, size: nat)

  datatype State<B> = State(used: seq<bool>, words: seq<seq<nat>>, bytes: seq<seq<B>>, inodes: seq<Inode>)

  // ----- places that hold a block number -----

  datatype Slot = Direct(ino: nat, k: nat) | Table(ino: nat) | Entry(ino: nat, k: nat)

  predicate IsSlot<B>(s: State<B>, x: Slot) {
    && x.ino < |s.inodes|
    && match x
       case Direct(_, k) => k < NDIRECT
       case Table(_) => true
       case Entry(_, k) => k < NINDIRECT
  }

  ghost predicate Shaped<B>(s: State<B>) {
    && |s.words| == |s.used| == |s.bytes|
    && (forall b :: 0 <= b < |s.words| ==> |s.words[b]| == NINDIRECT)
    && (forall b :: 0 <= b < |s.bytes| ==> |s.bytes[b]| == BSIZE)
    && (forall i :: 0 <= i < |s.inodes| ==> |s.inodes[i].addrs| == NDIRECT + 1)
  }

  /** The block number in a slot; an indirect block that is not there has none. */
  ghost function At<B>(s: State<B>, x: Slot): nat
    requires Shaped(s) && IsSlot(s, x)
  {
    match x
    case Direct(i, k) => s.inodes[i].addrs[k]
    case Table(i) => s.inodes[i].addrs[NDIRECT]
    case Entry(i, k) =>
      var t := s.inodes[i].addrs[NDIRECT];
      if t == 0 || t >= |s.words| then 0 else s.words[t][k]
  }

  /** The slot for block n of file i. */
  function FileSlot(i: nat, n: nat): Slot {
    if n < NDIRECT then Direct(i, n) else Entry(i, n - NDIRECT)
  }

  // ----- the invariant -----

  /** owner gives the slot that holds each block in use: no block is in two slots. */
  ghost predicate Held<B>(s: State<B>, datastart: nat, owner: map<nat, Slot>)
    requires Shaped(s)
  {
    && (forall x {:trigger At(s, x)} :: IsSlot(s, x) && At(s, x) != 0 ==> At(s, x) in owner && owner[At(s, x)] == x)
    && (forall b {:trigger owner[b]} :: b in owner ==>
          datastart <= b < |s.used| && IsSlot(s, owner[b]) && At(s, owner[b]) == b)
  }

  /** A bit is set exactly for metadata blocks and blocks in use. */
  ghost predicate Marked(used: seq<bool>, datastart: nat, owner: map<nat, Slot>) {
    forall b :: 0 <= b < |used| ==> (used[b] <==> b < datastart || b in owner)
  }

  /** Below its size a file has no holes. */
  ghost predicate NoHoles<B>(s: State<B>)
    requires Shaped(s)
  {
    && (forall i :: 0 <= i < |s.inodes| ==> s.inodes[i].size <= MAXFILE * BSIZE)
    && (forall i, n {:trigger FileSlot(i, n)} ::
          0 <= i < |s.inodes| && 0 <= n < MAXFILE && n * BSIZE < s.inodes[i].size ==> At(s, FileSlot(i, n)) != 0)
  }

  ghost predicate Valid<B>(s: State<B>, datastart: nat, owner: map<nat, Slot>) {
    Shaped(s) && 0 < datastart <= |s.used| && Held(s, datastart, owner) && Marked(s.used, datastart, owner)
    && NoHoles(s)
  }

  // ----- contents -----

  /** c is the contents of file i. */
  ghost predicate Contains<B>(s: State<B>, i: nat, c: seq<B>)
    requires Shaped(s) && i < |s.inodes|
  {
    && |c| == s.inodes[i].size
    && forall n {:trigger FileSlot(i, n)} :: 0 <= n < MAXFILE && n * BSIZE < |c| ==> Shows(s, i, n, c)
  }

  /** Block n of file i shows its part of c. */
  ghost predicate Shows<B>(s: State<B>, i: nat, n: nat, c: seq<B>)
    requires Shaped(s) && i < |s.inodes| && n < MAXFILE
  {
    var a := At(s, FileSlot(i, n));
    a < |s.bytes| && forall o :: 0 <= o < BSIZE && n * BSIZE + o < |c| ==> c[n * BSIZE + o] == s.bytes[a][o]
  }

  ghost predicate Holds<B>(s: State<B>, files: seq<seq<B>>)
    requires Shaped(s)
  {
    |files| == |s.inodes| && forall i {:trigger files[i]} :: 0 <= i < |files| ==> Contains(s, i, files[i])
  }

  // ----- allocating a block for a slot -----

  ghost function NoWords(): (r: seq<nat>)
    ensures |r| == NINDIRECT && forall k :: 0 <= k < NINDIRECT ==> r[k] == 0
  {
    seq<nat>(NINDIRECT, _ => 0)
  }

  /** What balloc does: block b is marked and zeroed. */
  ghost function Taken<B>(s: State<B>, b: nat, zero: seq<B>): State<B>
    requires b < |s.used| == |s.words| == |s.bytes|
  {
    s.(used := s.used[b := true], words := s.words[b := NoWords()], bytes := s.bytes[b := zero])
  }

  /** Slot x is filled with block b; raw is what an indirect block then looks like. */
  ghost function Put<B>(s: State<B>, x: Slot, b: nat, raw: seq<B>): State<B>
    requires Shaped(s) && IsSlot(s, x)
    requires x.Entry? ==> s.inodes[x.ino].addrs[NDIRECT] < |s.words|
  {
    match x
    case Direct(i, k) => s.(inodes := s.inodes[i := s.inodes[i].(addrs := s.inodes[i].addrs[k := b])])
    case Table(i) => s.(inodes := s.inodes[i := s.inodes[i].(addrs := s.inodes[i].addrs[NDIRECT := b])])
    case Entry(i, k) => Listed(s, s.inodes[i].addrs[NDIRECT], k, b, raw)
  }

  /** Word k of the indirect block t is set to b. */
  ghost function Listed<B>(s: State<B>, t: nat, k: nat, b: nat, raw: seq<B>): State<B>
    requires t < |s.words| == |s.bytes| && k < |s.words[t]|
  {
    var w: seq<nat> := s.words[t][k := b];
    s.(words := s.words[t := w], bytes := s.bytes[t := raw])
  }

  /** bmap's allocation: a free block for an empty slot. */
  ghost predicate CanFill<B>(s: State<B>, datastart: nat, owner: map<nat, Slot>, x: Slot, b: nat, zero: seq<B>,
                             raw: seq<B>) {
    && Valid(s, datastart, owner) && IsSlot(s, x) && At(s, x) == 0 && b < |s.used| && !s.used[b]
    && (x.Entry? ==> At(s, Table(x.ino)) != 0) && |zero| == BSIZE == |raw|
  }

  ghost function Fill<B>(s: State<B>, datastart: nat, owner: map<nat, Slot>, x: Slot, b: nat, zero: seq<B>,
                         raw: seq<B>): State<B>
    requires CanFill(s, datastart, owner, x, b, zero, raw)
  {
    TableIn(s, datastart, owner, x);
    Put(Taken(s, b, zero), x, b, raw)
  }

  lemma TableIn<B>(s: State<B>, datastart: nat, owner: map<nat, Slot>, x: Slot)
    requires Valid(s, datastart, owner) && IsSlot(s, x)
    ensures s.inodes[x.ino].addrs[NDIRECT] < |s.words|
    ensures var t := s.inodes[x.ino].addrs[NDIRECT]; t != 0 ==> t in owner && owner[t] == Table(x.ino) && s.used[t]
  {
    var t := At(s, Table(x.ino));
  }

  lemma FillAt<B>(s: State<B>, datastart: nat, owner: map<nat, Slot>, x: Slot, b: nat, zero: seq<B>, raw: seq<B>,
                  y: Slot)
    requires CanFill(s, datastart, owner, x, b, zero, raw) && IsSlot(s, y)
    ensures var s1 := Fill(s, datastart, owner, x, b, zero, raw);
            Shaped(s1) && IsSlot(s1, y) && At(s1, y) == if y == x then b else At(s, y)
  {
    TableIn(s, datastart, owner, x);
    TableIn(s, datastart, owner, y);
  }

  lemma FillValid<B>(s: State<B>, datastart: nat, owner: map<nat, Slot>, x: Slot, b: nat, zero: seq<B>, raw: seq<B>)
    requires CanFill(s, datastart, owner, x, b, zero, raw)
    ensures Valid(Fill(s, datastart, owner, x, b, zero, raw), datastart, owner[b := x])
  {
    var s1, owner1 := Fill(s, datastart, owner, x, b, zero, raw), owner[b := x];
    FillAt(s, datastart, owner, x, b, zero, raw, x);
    assert b !in owner && b >= datastart;
    forall y | IsSlot(s1, y) && At(s1, y) != 0
      ensures At(s1, y) in owner1 && owner1[At(s1, y)] == y
    {
      FillAt(s, datastart, owner, x, b, zero, raw, y);
      assert y != x ==> At(s, y) in owner;
    }
    forall c | c in owner1
      ensures datastart <= c < |s1.used| && IsSlot(s1, owner1[c]) && At(s1, owner1[c]) == c
    {
      if c != b { FillAt(s, datastart, owner, x, b, zero, raw, owner[c]); }
    }
    forall i, n | 0 <= i < |s1.inodes| && 0 <= n < MAXFILE && n * BSIZE < s1.inodes[i].size
      ensures At(s1, FileSlot(i, n)) != 0
    {
      FillAt(s, datastart, owner, x, b, zero, raw, FileSlot(i, n));
    }
  }

  /** Filling a slot shows in no file: its block is in no file yet. */
  lemma FillHolds<B>(s: State<B>, datastart: nat, owner: map<nat, Slot>, x: Slot, b: nat, zero: seq<B>, raw: seq<B>,
                     files: seq<seq<B>>)
    requires CanFill(s, datastart, owner, x, b, zero, raw) && Holds(s, files)
    ensures var s1 := Fill(s, datastart, owner, x, b, zero, raw); Shaped(s1) && Holds(s1, files)
  {
    var s1 := Fill(s, datastart, owner, x, b, zero, raw);
    FillAt(s, datastart, owner, x, b, zero, raw, x);
    forall i, n | 0 <= i < |files| && 0 <= n < MAXFILE && n * BSIZE < |files[i]|
      ensures Shows(s1, i, n, files[i])
    {
      var y := FileSlot(i, n);
      FillAt(s, datastart, owner, x, b, zero, raw, y);
      TableIn(s, datastart, owner, x);
      assert Contains(s, i, files[i]) && Shows(s, i, n, files[i]);
      assert At(s, y) != 0 && owner[At(s, y)] == y;
    }
  }

  // ----- writing bytes -----

  /** c with part written at pos, growing it where part goes past the end. */
  function Splice<B>(c: seq<B>, pos: nat, part: seq<B>): (r: seq<B>)
    requires pos <= |c|
    ensures |r| == if pos + |part| > |c| then pos + |part| else |c|
    ensures forall k :: 0 <= k < |r| ==> r[k] == if pos <= k < pos + |part| then part[k - pos] else c[k]
  {
    c[..pos] + part + if pos + |part| < |c| then c[pos + |part|..] else []
  }

  lemma SpliceNone<B>(c: seq<B>, pos: nat)
    requires pos <= |c|
    ensures Splice(c, pos, []) == c
  {
  }

  lemma SpliceTwice<B>(c: seq<B>, pos: nat, part: seq<B>, more: seq<B>)
    requires pos <= |c|
    ensures Splice(Splice(c, pos, part), pos + |part|, more) == Splice(c, pos, part + more)
  {
  }

  /** Bytes o.. of block n of file i are written, and the file grows to hold them. */
  ghost predicate CanWrite<B>(s: State<B>, datastart: nat, owner: map<nat, Slot>, i: nat, n: nat, o: nat, part: seq<B>,
                              words: seq<nat>) {
    && Valid(s, datastart, owner) && i < |s.inodes| && n < MAXFILE && At(s, FileSlot(i, n)) != 0
    && o + |part| <= BSIZE && n * BSIZE + o <= s.inodes[i].size && |words| == NINDIRECT
  }

  ghost function Write<B>(s: State<B>, datastart: nat, owner: map<nat, Slot>, i: nat, n: nat, o: nat, part: seq<B>,
                          words: seq<nat>): State<B>
    requires CanWrite(s, datastart, owner, i, n, o, part, words)
  {
    var a := At(s, FileSlot(i, n));
    assert owner[a] == FileSlot(i, n);
    var end := n * BSIZE + o + |part|;
    s.(bytes := s.bytes[a := Splice(s.bytes[a], o, part)], words := s.words[a := words],
       inodes := s.inodes[i := s.inodes[i].(size := if end > s.inodes[i].size then end else s.inodes[i].size)])
  }

  lemma WriteAt<B>(s: State<B>, datastart: nat, owner: map<nat, Slot>, i: nat, n: nat, o: nat, part: seq<B>,
                   words: seq<nat>, y: Slot)
    requires CanWrite(s, datastart, owner, i, n, o, part, words) && IsSlot(s, y)
    ensures var s1 := Write(s, datastart, owner, i, n, o, part, words);
            Shaped(s1) && IsSlot(s1, y) && At(s1, y) == At(s, y)
  {
    var a := At(s, FileSlot(i, n));
    TableIn(s, datastart, owner, y);
    assert owner[a] == FileSlot(i, n);
  }

  lemma WriteValid<B>(s: State<B>, datastart: nat, owner: map<nat, Slot>, i: nat, n: nat, o: nat, part: seq<B>,
                      words: seq<nat>)
    requires CanWrite(s, datastart, owner, i, n, o, part, words)
    ensures Valid(Write(s, datastart, owner, i, n, o, part, words), datastart, owner)
  {
    var s1 := Write(s, datastart, owner, i, n, o, part, words);
    WriteAt(s, datastart, owner, i, n, o, part, words, Table(i));
    forall y | IsSlot(s1, y) && At(s1, y) != 0
      ensures At(s1, y) in owner && owner[At(s1, y)] == y
    {
      WriteAt(s, datastart, owner, i, n, o, part, words, y);
    }
    forall c | c in owner
      ensures datastart <= c < |s1.used| && IsSlot(s1, owner[c]) && At(s1, owner[c]) == c
    {
      WriteAt(s, datastart, owner, i, n, o, part, words, owner[c]);
    }
    forall j, m | 0 <= j < |s1.inodes| && 0 <= m < MAXFILE && m * BSIZE < s1.inodes[j].size
      ensures At(s1, FileSlot(j, m)) != 0
    {
      WriteAt(s, datastart, owner, i, n, o, part, words, FileSlot(j, m));
      assert j == i && m != n ==> m * BSIZE < s.inodes[i].size;
    }
  }

  /** The write shows in file i alone, as a splice. */
  lemma WriteHolds<B>(s: State<B>, datastart: nat, owner: map<nat, Slot>, i: nat, n: nat, o: nat, part: seq<B>,
                      words: seq<nat>, files: seq<seq<B>>)
    requires CanWrite(s, datastart, owner, i, n, o, part, words) && Holds(s, files)
    ensures |files[i]| == s.inodes[i].size
    ensures var s1 := Write(s, datastart, owner, i, n, o, part, words);
            Shaped(s1) && Holds(s1, files[i := Splice(files[i], n * BSIZE + o, part)])
  {
    var s1 := Write(s, datastart, owner, i, n, o, part, words);
    assert Contains(s, i, files[i]);
    var files1 := files[i := Splice(files[i], n * BSIZE + o, part)];
    WriteAt(s, datastart, owner, i, n, o, part, words, Table(i));
    forall j, m | 0 <= j < |files| && 0 <= m < MAXFILE && m * BSIZE < |files1[j]|
      ensures Shows(s1, j, m, files1[j])
    {
      if FileSlot(j, m) == FileSlot(i, n) {
        WriteSame(s, datastart, owner, i, n, o, part, words, files);
      } else {
        WriteOther(s, datastart, owner, i, n, o, part, words, files, j, m);
      }
    }
  }

  lemma WriteSame<B>(s: State<B>, datastart: nat, owner: map<nat, Slot>, i: nat, n: nat, o: nat, part: seq<B>,
                     words: seq<nat>, files: seq<seq<B>>)
    requires CanWrite(s, datastart, owner, i, n, o, part, words) && Holds(s, files) && |files[i]| == s.inodes[i].size
    ensures var s1 := Write(s, datastart, owner, i, n, o, part, words);
            Shaped(s1) && Shows(s1, i, n, Splice(files[i], n * BSIZE + o, part))
  {
    var x := FileSlot(i, n);
    WriteAt(s, datastart, owner, i, n, o, part, words, x);
    assert owner[At(s, x)] == x;
    assert Contains(s, i, files[i]);
    if n * BSIZE < |files[i]| {
      assert Shows(s, i, n, files[i]);
    }
  }

  /** A write inside block n leaves the other blocks of the file as they were. */
  lemma SpliceElsewhere<B>(c: seq<B>, n: nat, o: nat, part: seq<B>, m: nat)
    requires n * BSIZE + o <= |c| && o + |part| <= BSIZE && m != n
    ensures var c1 := Splice(c, n * BSIZE + o, part);
            forall k :: m * BSIZE <= k < (m + 1) * BSIZE && k < |c1| ==> k < |c| && c1[k] == c[k]
  {
  }

  lemma ShowsSame<B>(s: State<B>, s1: State<B>, i: nat, m: nat, c: seq<B>, c1: seq<B>)
    requires Shaped(s) && Shaped(s1) && i < |s.inodes| == |s1.inodes| && m < MAXFILE
    requires Shows(s, i, m, c) && At(s1, FileSlot(i, m)) == At(s, FileSlot(i, m)) < |s1.bytes|
    requires s1.bytes[At(s, FileSlot(i, m))] == s.bytes[At(s, FileSlot(i, m))]
    requires forall k :: m * BSIZE <= k < (m + 1) * BSIZE && k < |c1| ==> k < |c| && c1[k] == c[k]
    ensures Shows(s1, i, m, c1)
  {
  }

  lemma WriteOther<B>(s: State<B>, datastart: nat, owner: map<nat, Slot>, i: nat, n: nat, o: nat, part: seq<B>,
                      words: seq<nat>, files: seq<seq<B>>, j: nat, m: nat)
    requires CanWrite(s, datastart, owner, i, n, o, part, words) && Holds(s, files) && |files[i]| == s.inodes[i].size
    requires j < |files| && m < MAXFILE && FileSlot(j, m) != FileSlot(i, n)
    requires m * BSIZE < |files[i := Splice(files[i], n * BSIZE + o, part)][j]|
    ensures var s1 := Write(s, datastart, owner, i, n, o, part, words);
            Shaped(s1) && Shows(s1, j, m, files[i := Splice(files[i], n * BSIZE + o, part)][j])
  {
    var x, y := FileSlot(i, n), FileSlot(j, m);
    WriteAt(s, datastart, owner, i, n, o, part, words, y);
    assert owner[At(s, x)] == x;
    assert Contains(s, j, files[j]);
    if j == i { SpliceElsewhere(files[i], n, o, part, m); }
    assert m * BSIZE < |files[j]|;
    assert Shows(s, j, m, files[j]);
    assert owner[At(s, y)] == y;
    ShowsSame(s, Write(s, datastart, owner, i, n, o, part, words), j, m, files[j],
              files[i := Splice(files[i], n * BSIZE + o, part)][j]);
  }

  // ----- truncating -----

  function NoFile(): Inode {
    Inode(seq<nat>(NDIRECT + 1, _ => 0), 0)
  }

  /** itrunc: file i gives up every block it holds. */
  ghost predicate Truncated<B>(s: State<B>, owner: map<nat, Slot>, i: nat, s1: State<B>)
    requires i < |s.inodes|
  {
    && s1.words == s.words && s1.bytes == s.bytes && |s1.used| == |s.used|
    && (forall b :: 0 <= b < |s.used| ==> (s1.used[b] <==> s.used[b] && !(b in owner && owner[b].ino == i)))
    && s1.inodes == s.inodes[i := NoFile()]
  }

  /** The slots of file i that itrunc has dealt with: the first nd direct ones, the
      first ne entries, and the indirect block if tb. */
  predicate Gone(x: Slot, i: nat, nd: nat, ne: nat, tb: bool) {
    x.ino == i && match x
                  case Direct(_, k) => k < nd
                  case Entry(_, k) => k < ne
                  case Table(_) => tb
  }

  ghost predicate Cleared(used: seq<bool>, used1: seq<bool>, owner: map<nat, Slot>, i: nat, nd: nat, ne: nat,
                          tb: bool) {
    |used1| == |used| &&
    forall b :: 0 <= b < |used| ==> (used1[b] <==> used[b] && !(b in owner && Gone(owner[b], i, nd, ne, tb)))
  }

  /** Freeing the block of the next slot x: it is still marked, and then it is not. */
  lemma ClearNext<B>(s: State<B>, datastart: nat, owner: map<nat, Slot>, used1: seq<bool>, x: Slot, nd: nat, ne: nat,
                     tb: bool, nd1: nat, ne1: nat, tb1: bool)
    requires Valid(s, datastart, owner) && IsSlot(s, x) && Cleared(s.used, used1, owner, x.ino, nd, ne, tb)
    requires !Gone(x, x.ino, nd, ne, tb)
    requires forall y :: IsSlot(s, y) ==> (Gone(y, x.ino, nd1, ne1, tb1) <==> Gone(y, x.ino, nd, ne, tb) || y == x)
    ensures At(s, x) != 0 ==> datastart <= At(s, x) < |used1| && used1[At(s, x)]
                              && Cleared(s.used, used1[At(s, x) := false], owner, x.ino, nd1, ne1, tb1)
    ensures At(s, x) == 0 ==> Cleared(s.used, used1, owner, x.ino, nd1, ne1, tb1)
  {
  }

  /** Without an indirect block there are no entries to free. */
  lemma ClearNoTable<B>(s: State<B>, datastart: nat, owner: map<nat, Slot>, used1: seq<bool>, i: nat)
    requires Valid(s, datastart, owner) && i < |s.inodes| && Cleared(s.used, used1, owner, i, NDIRECT, 0, false)
    requires At(s, Table(i)) == 0
    ensures Cleared(s.used, used1, owner, i, NDIRECT, NINDIRECT, true)
  {
    forall b | 0 <= b < |s.used| && b in owner
      ensures Gone(owner[b], i, NDIRECT, 0, false) == Gone(owner[b], i, NDIRECT, NINDIRECT, true)
    {
      assert At(s, owner[b]) == b;
    }
  }

  lemma ClearedAll<B>(s: State<B>, datastart: nat, owner: map<nat, Slot>, i: nat, s1: State<B>)
    requires Valid(s, datastart, owner) && i < |s.inodes|
    requires Cleared(s.used, s1.used, owner, i, NDIRECT, NINDIRECT, true)
    requires s1.words == s.words && s1.bytes == s.bytes && s1.inodes == s.inodes[i := NoFile()]
    ensures Truncated(s, owner, i, s1)
  {
    forall b | 0 <= b < |s.used| && b in owner
      ensures Gone(owner[b], i, NDIRECT, NINDIRECT, true) == (owner[b].ino == i)
    {
      assert IsSlot(s, owner[b]);
    }
  }

  lemma TruncateAt<B>(s: State<B>, owner: map<nat, Slot>, i: nat, s1: State<B>, y: Slot)
    requires Shaped(s) && i < |s.inodes| && Truncated(s, owner, i, s1) && IsSlot(s, y)
    ensures Shaped(s1) && IsSlot(s1, y) && At(s1, y) == if y.ino == i then 0 else At(s, y)
  {
  }

  lemma TruncateHeld<B>(s: State<B>, datastart: nat, owner: map<nat, Slot>, i: nat, s1: State<B>)
    requires Shaped(s) && Held(s, datastart, owner) && i < |s.inodes| && Truncated(s, owner, i, s1)
    ensures Shaped(s1) && Held(s1, datastart, map b | b in owner && owner[b].ino != i :: owner[b])
  {
    var owner1 := map b | b in owner && owner[b].ino != i :: owner[b];
    TruncateAt(s, owner, i, s1, Table(i));
    forall y | IsSlot(s1, y) && At(s1, y) != 0
      ensures At(s1, y) in owner1 && owner1[At(s1, y)] == y
    {
      TruncateAt(s, owner, i, s1, y);
    }
    forall c | c in owner1
      ensures datastart <= c < |s1.used| && IsSlot(s1, owner1[c]) && At(s1, owner1[c]) == c
    {
      TruncateAt(s, owner, i, s1, owner[c]);
    }
  }

  lemma TruncateValid<B>(s: State<B>, datastart: nat, owner: map<nat, Slot>, i: nat, s1: State<B>)
    requires Valid(s, datastart, owner) && i < |s.inodes| && Truncated(s, owner, i, s1)
    ensures Valid(s1, datastart, map b | b in owner && owner[b].ino != i :: owner[b])
  {
    TruncateAt(s, owner, i, s1, Table(i));
    TruncateHeld(s, datastart, owner, i, s1);
    forall j, m | 0 <= j < |s1.inodes| && 0 <= m < MAXFILE && m * BSIZE < s1.inodes[j].size
      ensures At(s1, FileSlot(j, m)) != 0
    {
      TruncateAt(s, owner, i, s1, FileSlot(j, m));
    }
  }

  lemma TruncateHolds<B>(s: State<B>, datastart: nat, owner: map<nat, Slot>, i: nat, s1: State<B>, files: seq<seq<B>>)
    requires Valid(s, datastart, owner) && i < |s.inodes| && Truncated(s, owner, i, s1) && Holds(s, files)
    ensures Shaped(s1) && Holds(s1, files[i := []])
  {
    var files1 := files[i := []];
    TruncateAt(s, owner, i, s1, Table(i));
    forall j, m | 0 <= j < |files| && 0 <= m < MAXFILE && m * BSIZE < |files1[j]|
      ensures Shows(s1, j, m, files1[j])
    {
      TruncateAt(s, owner, i, s1, FileSlot(j, m));
      assert Contains(s, j, files[j]) && Shows(s, j, m, files[j]);
    }
    forall j | 0 <= j < |files|
      ensures Contains(s1, j, files1[j])
    {
      assert Contains(s, j, files[j]);
    }
  }

  // ----- reading -----

  /** A block below the size is there and shows its part of the file. */
  lemma ReadShows<B>(s: State<B>, datastart: nat, owner: map<nat, Slot>, i: nat, n: nat, o: nat, m: nat,
                     files: seq<seq<B>>)
    requires Valid(s, datastart, owner) && Holds(s, files) && i < |files|
    requires 0 < m && o + m <= BSIZE && n * BSIZE + o + m <= |files[i]|
    ensures n < MAXFILE && 0 < At(s, FileSlot(i, n)) < |s.bytes|
    ensures s.bytes[At(s, FileSlot(i, n))][o..o + m] == files[i][n * BSIZE + o..n * BSIZE + o + m]
  {
    assert Contains(s, i, files[i]);
    assert n < MAXFILE;
    assert Shows(s, i, n, files[i]);
    var a, c := At(s, FileSlot(i, n)), files[i];
    forall k | o <= k < o + m
      ensures s.bytes[a][k] == c[n * BSIZE + k]
    {
    }
  }
}
