/** Disk blocks: BSIZE raw bytes that the kernel reads in three ways, as plain
    data, as an array of 32-bit words (the log header, an indirect block) and as
    an array of bits (the free bitmap). kernel/fs.h gives the sizes. */
module Blocks {

  const BSIZE: nat := 1024
  const WORDS: nat := 256   // BSIZE / sizeof(uint), also NINDIRECT
  const BPB: nat := 8192    // bitmap bits per block

  type Byte = x: int | 0 <= x < 256
  type Word = x: int | 0 <= x < 0x1_0000_0000
  type Block = b: seq<Byte> | |b| == BSIZE witness seq(BSIZE, _ => 0)

  function Zero(): (b: Block)
    ensures forall k :: 0 <= k < BSIZE ==> b[k] == 0
  {
    seq(BSIZE, _ => 0)
  }

  // ----- words, least significant byte first -----

  function Join(b0: int, b1: int, b2: int, b3: int): int {
    b0 + 0x100 * b1 + 0x1_0000 * b2 + 0x100_0000 * b3
  }

  function GetWord(b: Block, i: nat): (w: Word)
    requires i < WORDS
  {
    Join(b[4*i], b[4*i+1], b[4*i+2], b[4*i+3])
  }

  /** r is b with word i set to w; nothing outside the word changes. */
  ghost predicate WordSet(b: Block, i: nat, w: Word, r: Block)
    requires i < WORDS
  {
    && GetWord(r, i) == w
    && (forall j :: 0 <= j < WORDS && j != i ==> GetWord(r, j) == GetWord(b, j))
    && (forall k :: 0 <= k < BSIZE && k / 4 != i ==> r[k] == b[k])
  }

  lemma JoinParts(w: Word)
    ensures Join(w % 0x100, (w / 0x100) % 0x100, (w / 0x1_0000) % 0x100, w / 0x100_0000) == w
  {
    var h := w / 0x100;
    assert w / 0x1_0000 == h / 0x100 && w / 0x100_0000 == h / 0x100 / 0x100;
  }

  function WithBytes(b: Block, i: nat, p0: Byte, p1: Byte, p2: Byte, p3: Byte): (r: Block)
    requires i < WORDS
    ensures WordSet(b, i, Join(p0, p1, p2, p3), r)
  {
    b[4*i := p0][4*i+1 := p1][4*i+2 := p2][4*i+3 := p3]
  }

  function WithWord(b: Block, i: nat, w: Word): (r: Block)
    requires i < WORDS
    ensures WordSet(b, i, w, r)
  {
    JoinParts(w);
    WithBytes(b, i, w % 0x100, (w / 0x100) % 0x100, (w / 0x1_0000) % 0x100, w / 0x100_0000)
  }

  method SetWord(b: Block, i: nat, w: Word) returns (r: Block)
    requires i < WORDS
    ensures WordSet(b, i, w, r)
  {
    r := WithWord(b, i, w);
  }

  // ----- bits: bit i of a bitmap block is bit i%8 of byte i/8 -----

  function Pow2(n: nat): (p: nat)
    ensures p > 0
  {
    if n == 0 then 1 else 2 * Pow2(n - 1)
  }

  // v & (1 << k)
  predicate HasBit(v: nat, k: nat) {
    if k == 0 then v % 2 == 1 else HasBit(v / 2, k - 1)
  }

  // v | (1 << k), or v & ~(1 << k), on n-bit numbers
  function PutBit(n: nat, v: nat, k: nat, on: bool): (r: nat)
    requires k < n && v < Pow2(n)
    ensures r < Pow2(n) && HasBit(r, k) == on
    ensures forall j: nat :: j != k ==> HasBit(r, j) == HasBit(v, j)
    decreases k
  {
    if k == 0 then v / 2 * 2 + (if on then 1 else 0)
    else
      var h := PutBit(n - 1, v / 2, k - 1, on);
      2 * h + v % 2
  }

  lemma {:induction false} HasBitIs(v: nat, k: nat)
    ensures HasBit(v, k) <==> v / Pow2(k) % 2 == 1
  {
    if k > 0 {
      HasBitIs(v / 2, k - 1);
      Halved(v, Pow2(k - 1));
    }
  }

  lemma Halved(v: nat, p: nat)
    requires p > 0
    ensures v / 2 / p == v / (2 * p)
  {
    var q, r := v / 2 / p, v / 2 % p;
    assert v / 2 == p * q + r;
    assert v == (2 * p) * q + (2 * r + v % 2) by { assert 2 * (p * q) == (2 * p) * q; }
    QuotientIs(v, 2 * p, q, 2 * r + v % 2);
  }

  lemma MulMonotone(m: nat, x: int, y: int)
    ensures x <= y ==> m * x <= m * y
  {
    if x <= y { assert m * y == m * x + m * (y - x); }
  }

  lemma QuotientIs(a: nat, m: nat, q: nat, r: nat)
    requires m > 0 && a == m * q + r && r < m
    ensures a / m == q
  {
    var e := a / m;
    assert a == m * e + a % m;
    assert m * (q + 1) == m * q + m && m * (e + 1) == m * e + m;
    MulMonotone(m, q + 1, e);
    MulMonotone(m, e + 1, q);
  }

  predicate GetBit(b: Block, i: nat)
    requires i < BPB
  {
    HasBit(b[i / 8], i % 8)
  }

  /** r is b with bit i switched on or off. */
  ghost predicate BitSet(b: Block, i: nat, on: bool, r: Block)
    requires i < BPB
  {
    GetBit(r, i) == on && forall j :: 0 <= j < BPB && j != i ==> GetBit(r, j) == GetBit(b, j)
  }

  method SetBit(b: Block, i: nat, on: bool) returns (r: Block)
    requires i < BPB
    ensures BitSet(b, i, on, r)
  {
    assert Pow2(8) == 256;
    r := b[i / 8 := PutBit(8, b[i / 8], i % 8, on)];
  }
}
