/** Pipes (kernel/pipe.c): a ring of PIPESIZE bytes under two 32-bit counts that
    wrap around. A call that has to sleep returns; it goes on with another call
    once it is woken, and other calls may come in between. */
module Pipe {

  const PIPESIZE: nat := 512
  const WRAP: nat := 0x1_0000_0000

  type Byte = x: int | 0 <= x < 256

  datatype Status = Done | MustSleep | Failed

  class Pipe {
    const data: array<Byte>
    var nread: nat
    var nwrite: nat
    var readopen: bool
    var writeopen: bool
    ghost var written: seq<Byte>    // every byte written so far
    ghost var taken: seq<Byte>      // every byte read so far

    /** What was read is a prefix of what was written, and the ring has the rest. */
    ghost predicate Valid()
      reads this, data
    {
      && data.Length == PIPESIZE && taken <= written && |written| <= |taken| + PIPESIZE
      && nread == |taken| % WRAP && nwrite == |written| % WRAP
      && forall k :: |taken| <= k < |written| ==> data[k % PIPESIZE] == written[k]
    }

    constructor ()
      ensures Valid() && written == [] && taken == [] && readopen && writeopen && fresh(data)
    {
      data := new Byte[PIPESIZE](_ => 0);
      nread, nwrite, readopen, writeopen := 0, 0, true, true;
      written, taken := [], [];
    }

    /** pipewrite from byte i on, until it is done or has to sleep. `readable` is how
        many bytes of src copyin can read. Failed is C's -1. */
    method Write(src: seq<Byte>, i: nat, killed: bool, readable: nat) returns (r: Status, j: nat)
      requires Valid() && i <= |src|
      modifies this`nwrite, this`written, data
      ensures Valid() && i <= j <= |src| && written == old(written) + src[i..j]
      ensures r == Failed <==> i < |src| && (!readopen || killed)
      ensures r == MustSleep <==> r != Failed && j < |src| && |written| == |taken| + PIPESIZE
      ensures j == if r == Failed then i else Upto(i, |src|, PIPESIZE - (|old(written)| - |taken|), readable)
      ensures r == Done ==> j == |src| || readable <= j < |taken| + 512 - |old(written)| + i
      ensures r == MustSleep ==> |written| == |taken| + 512 && (j == i || j <= readable)
    {
      j := i;
      while j < |src|
        invariant Valid() && i <= j <= |src| && written == old(written) + src[i..j]
        invariant (j > i ==> readopen && !killed)
        invariant j <= Upto(i, |src|, PIPESIZE - (|old(written)| - |taken|), readable)
      {
        if !readopen || killed {
          return Failed, j;
        }
        CountsTell(|taken|, |written|);
        if nwrite == (nread + PIPESIZE) % WRAP {
          return MustSleep, j;
        }
        if j >= readable {
          break;
        }
        Append(src[j]);
        assert src[i..j] + [src[j]] == src[i..j + 1];
        j := j + 1;
      }
      r := Done;
    }

    /** One byte goes into the ring; no byte that is still to be read is lost. */
    method Append(x: Byte)
      requires Valid() && |written| < |taken| + PIPESIZE
      modifies this`nwrite, this`written, data
      ensures Valid() && written == old(written) + [x]
    {
      RingSlot(|written|);
      NextCount(|written|);
      forall k | |taken| <= k < |written|
        ensures data[k % PIPESIZE] == written[k] && k % PIPESIZE != |written| % PIPESIZE
      {
        OtherSlot(k, |written| - k);
      }
      data[nwrite % PIPESIZE] := x;
      nwrite := (nwrite + 1) % WRAP;
      written := written + [x];
    }

    /** piperead of up to n bytes. `writable` is how many bytes copyout can store; a
        byte that it cannot store is lost. Failed is C's -1. */
    method Read(n: nat, killed: bool, writable: nat) returns (r: Status, dst: seq<Byte>)
      requires Valid()
      modifies this`nread, this`taken
      ensures Valid() && old(taken) + dst <= taken <= written && |taken| <= |old(taken)| + |dst| + 1
      ensures r == MustSleep <==> old(taken) == written && writeopen && !killed
      ensures r == Failed <==> old(taken) == written && writeopen && killed
      ensures r != Done ==> taken == old(taken) && dst == []
      ensures r == Done ==> |dst| <= n && (|dst| < n ==> taken == written || |dst| == writable)
      ensures r == Done && n <= writable ==> taken == old(taken) + dst
    {
      dst := [];
      CountsTell(|taken|, |written|);
      if nread == nwrite && writeopen {
        return if killed then Failed else MustSleep, [];
      }
      r := Done;
      while |dst| < n
        invariant Valid() && |dst| <= n && taken == old(taken) + dst && (|dst| < n ==> |dst| <= writable)
        decreases n - |dst|
      {
        CountsTell(|taken|, |written|);
        if nread == nwrite {
          break;
        }
        var ch := Take();
        if |dst| >= writable {
          break;
        }
        dst := dst + [ch];
      }
    }

    /** One byte comes out of the ring: the first that is still to be read. */
    method Take() returns (ch: Byte)
      requires Valid() && taken != written
      modifies this`nread, this`taken
      ensures Valid() && taken == old(taken) + [ch]
    {
      RingSlot(|taken|);
      NextCount(|taken|);
      assert written[|taken|] == data[|taken| % PIPESIZE];
      ch := data[nread % PIPESIZE];
      nread := (nread + 1) % WRAP;
      assert written[..|taken| + 1] == taken + [ch];
      taken := taken + [ch];
    }

    /** pipeclose: true means that both ends are closed and the pipe is freed. */
    method Close(writable: bool) returns (freed: bool)
      requires Valid()
      modifies this`readopen, this`writeopen
      ensures Valid() && (freed <==> !readopen && !writeopen)
      ensures if writable then !writeopen && readopen == old(readopen) else !readopen && writeopen == old(writeopen)
    {
      if writable {
        writeopen := false;
      } else {
        readopen := false;
      }
      freed := !readopen && !writeopen;
    }
  }

  /** Where pipewrite stops that is at byte i of n, with this much room in the ring
      and so many bytes that copyin can read. */
  function Upto(i: nat, n: nat, room: nat, readable: nat): nat
    requires i <= n
  {
    var a := if i + room < n then i + room else n;
    if readable >= a then a else if readable > i then readable else i
  }

  /** PIPESIZE divides 2^32, so that a wrapped count gives the same place. */
  lemma RingSlot(n: nat)
    ensures n % WRAP % PIPESIZE == n % PIPESIZE
  {
  }

  lemma NextCount(n: nat)
    ensures (n % WRAP + 1) % WRAP == (n + 1) % WRAP
  {
  }

  lemma OtherSlot(n: nat, m: nat)
    requires 0 < m < PIPESIZE
    ensures n % PIPESIZE != (n + m) % PIPESIZE
  {
  }

  /** The wrapped counts tell an empty and a full ring from all others. */
  lemma CountsTell(r: nat, w: nat)
    requires r <= w <= r + PIPESIZE
    ensures r % WRAP == w % WRAP <==> r == w
    ensures w % WRAP == (r % WRAP + PIPESIZE) % WRAP <==> w == r + PIPESIZE
  {
  }
}
