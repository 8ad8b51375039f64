/** The log header block as bytes: struct logheader, a 32-bit count followed by
    32-bit block numbers, in the first words of block log.start. */
module LogHeader {
  import opened Basics
  import opened Blocks
  import L = LogLayer
  import R = RedoLog

  /** What read_head makes of a block: nothing, if the count is negative as an int.
      A count in between that overruns log.lh.block reads as empty here. */
  function GetHead(b: Block): (lh: seq<nat>) {
    var n := GetWord(b, 0);
    if n <= R.LOGSIZE then seq(n, i requires 0 <= i < n => GetWord(b, i + 1)) else []
  }

  predicate Fits(lh: seq<nat>) {
    |lh| <= R.LOGSIZE && forall i :: 0 <= i < |lh| ==> lh[i] < 0x1_0000_0000
  }

  function PutEntries(b: Block, lh: seq<nat>, n: nat): (r: Block)
    requires Fits(lh) && n <= |lh|
    ensures GetWord(r, 0) == GetWord(b, 0)
    ensures forall i :: 0 <= i < n ==> GetWord(r, i + 1) == lh[i]
    ensures forall i :: n < i < WORDS ==> GetWord(r, i) == GetWord(b, i)
  {
    if n == 0 then b else WithWord(PutEntries(b, lh, n - 1), n, lh[n - 1])
  }

  /** What write_head leaves in the header buffer b: words past the last entry
      keep their old contents. A list that does not fit is outside the model. */
  function PutHead(b: Block, lh: seq<nat>): (r: Block)
    ensures Fits(lh) ==> GetHead(r) == lh && forall i :: |lh| < i < WORDS ==> GetWord(r, i) == GetWord(b, i)
  {
    if Fits(lh) then PutEntries(WithWord(b, 0, |lh|), lh, |lh|) else b
  }

  function ByteCodec(): L.Codec<Block> {
    L.Codec(GetHead, PutHead)
  }

  /** The byte layout meets what LogLayer asks of a header. */
  lemma ByteCodecIsLawful()
    ensures L.Lawful(ByteCodec())
  {
    forall b: Block, lh: seq<nat> | L.Words(lh)
      ensures ByteCodec().get(ByteCodec().put(b, lh)) == lh
    {
      assert Fits(lh);
    }
  }

  /** write_head's stores, word by word. */
  method EncodeHead(b: Block, lh: seq<nat>) returns (r: Block)
    requires Fits(lh)
    ensures GetHead(r) == lh
    ensures forall j :: |lh| < j < WORDS ==> GetWord(r, j) == GetWord(b, j)
  {
    r := SetWord(b, 0, |lh|);
    var i := 0;
    while i < |lh|
      invariant 0 <= i <= |lh| && GetWord(r, 0) == |lh|
      invariant forall j :: 0 <= j < i ==> GetWord(r, j + 1) == lh[j]
      invariant forall j :: |lh| < j < WORDS ==> GetWord(r, j) == GetWord(b, j)
    {
      r := SetWord(r, i + 1, lh[i]);
      i := i + 1;
    }
  }

  /** read_head's loads, word by word. False is an overrun of log.lh.block, after
      its LOGSIZE entries. */
  method DecodeHead(b: Block) returns (ok: bool, lh: seq<nat>)
    ensures ok <==> AsInt(GetWord(b, 0)) <= R.LOGSIZE
    ensures ok ==> lh == GetHead(b)
    ensures !ok ==> lh == seq(R.LOGSIZE, i requires 0 <= i < R.LOGSIZE => GetWord(b, i + 1))
  {
    lh := [];
    var i, n := 0, AsInt(GetWord(b, 0));
    while i < n
      invariant 0 <= i == |lh| <= R.LOGSIZE && (i == 0 || i <= n)
      invariant forall j :: 0 <= j < i ==> lh[j] == GetWord(b, j + 1)
    {
      if i >= R.LOGSIZE {
        return false, lh;
      }
      lh := lh + [GetWord(b, i + 1)];
      i := i + 1;
    }
    ok := true;
  }

  /** The header on disk, byte by byte: the count in the first word, the block numbers
      in the words after it, least significant byte first. */
  lemma HeadLayout(r: Block, lh: seq<nat>, i: nat)
    requires GetHead(r) == lh && i < |lh|
    ensures 4 * i + 7 < BSIZE && r[0] == |lh| <= 30 && r[1] == 0 && r[2] == 0 && r[3] == 0
    ensures var bytes: seq<int> := r[4 * i + 4..4 * i + 8];
            lh[i] == bytes[0] + 0x100 * bytes[1] + 0x1_0000 * bytes[2] + 0x100_0000 * bytes[3]
  {
    assert GetWord(r, 0) == |lh|;
    FirstWord(r[0], r[1], r[2], r[3], |lh|);
    assert lh[i] == GetWord(r, i + 1);
  }

  lemma FirstWord(b0: Byte, b1: Byte, b2: Byte, b3: Byte, n: nat)
    requires Join(b0, b1, b2, b3) == n < 0x100
    ensures b0 == n && b1 == 0 && b2 == 0 && b3 == 0
  {
  }
}
