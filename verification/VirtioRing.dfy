/** The virtio block driver's rings (kernel/virtio_disk.c, after sections 2.6 and
    5.2 of Virtio 1.1). Driver and device share descriptors, an avail ring and a
    used ring; ring indices are 16-bit. The device completes requests in any order. */
module VirtioRing {
  import opened Basics

  const NUM: nat := 8
  const BSIZE: nat := 1024

  datatype Addr = Null | Request(i: nat) | Data(b: nat) | Status(i: nat)

  /** struct virtq_desc: write is VRING_DESC_F_WRITE, more is VRING_DESC_F_NEXT. */
  datatype Desc = Desc(addr: Addr, len: nat, write: bool, more: bool, next: nat)

  const UNUSED := Desc(Null, 0, false, false, 0)

  /** A request by its head: the other two descriptors, the buffer, its direction. */
  datatype Chain = Chain(d1: nat, d2: nat, b: nat, write: bool)

  /** How far the request with a given head is: offered in the avail ring, taken by
      the device, reported in the used ring, seen by the interrupt handler. */
  datatype Phase = NoRequest | Offered | Taken | Reported | Seen

  // ----- chains -----

  /** owner[i] is the head of the chain that descriptor i belongs to, NUM if free. */
  ghost predicate Owned(free: seq<bool>, owner: seq<nat>, phase: seq<Phase>, chain: seq<Chain>) {
    && |free| == NUM && |owner| == NUM && |phase| == NUM && |chain| == NUM
    && (forall i :: 0 <= i < NUM ==> (free[i] <==> owner[i] == NUM))
    && (forall h :: 0 <= h < NUM && phase[h] != NoRequest ==>
          var c := chain[h];
          c.d1 < NUM && c.d2 < NUM && h != c.d1 && h != c.d2 && c.d1 != c.d2
          && owner[h] == h && owner[c.d1] == h && owner[c.d2] == h)
    && (forall i :: 0 <= i < NUM && owner[i] != NUM ==>
          owner[i] < NUM && phase[owner[i]] != NoRequest
          && (i == owner[i] || i == chain[owner[i]].d1 || i == chain[owner[i]].d2))
  }

  /** The descriptors of a request, as section 5.2 lays them out. */
  ghost predicate Laid(desc: seq<Desc>, info: seq<nat>, h: nat, c: Chain)
    requires |desc| == NUM == |info| && h < NUM && c.d1 < NUM && c.d2 < NUM
  {
    && desc[h] == Desc(Request(h), 16, false, true, c.d1)
    && desc[c.d1] == Desc(Data(c.b), BSIZE, !c.write, true, c.d2)
    && desc[c.d2] == Desc(Status(h), 1, true, false, 0)
    && info[h] == c.b
  }

  ghost predicate Linked(desc: seq<Desc>, info: seq<nat>, phase: seq<Phase>, chain: seq<Chain>) {
    && |desc| == NUM && |info| == NUM && |phase| == NUM && |chain| == NUM
    && forall h :: 0 <= h < NUM && phase[h] != NoRequest ==>
         chain[h].d1 < NUM && chain[h].d2 < NUM && Laid(desc, info, h, chain[h])
  }

  /** Requests in progress are for different buffers, whose disk flag is set until
      the handler has seen the answer. */
  ghost predicate Flagged(disk: map<nat, bool>, phase: seq<Phase>, chain: seq<Chain>) {
    && |phase| == NUM && |chain| == NUM
    && (forall h :: 0 <= h < NUM && phase[h] != NoRequest ==>
          chain[h].b in disk && (disk[chain[h].b] <==> phase[h] != Seen))
    && (forall h, k :: 0 <= h < k < NUM && phase[h] != NoRequest && phase[k] != NoRequest ==> chain[h].b != chain[k].b)
  }

  // ----- rings -----

  /** q lists, in order, exactly the requests in this phase. */
  ghost predicate Lists(q: seq<nat>, phase: seq<Phase>, p: Phase) {
    && |phase| == NUM
    && (forall k :: 0 <= k < |q| ==> q[k] < NUM && phase[q[k]] == p)
    && (forall h :: 0 <= h < NUM && phase[h] == p ==> h in q)
    && (forall j, k :: 0 <= j < k < |q| ==> q[j] != q[k])
  }

  /** The entries numbered n, n + 1, ... are those of q. */
  ghost predicate Ring(ring: seq<nat>, q: seq<nat>, n: nat) {
    |ring| == NUM && forall k :: 0 <= k < |q| ==> ring[(n + k) % NUM] == q[k]
  }

  /** Positions in the ring do not depend on the index being cut to 16 bits. */
  lemma RingIndex(n: nat)
    ensures n % 0x1_0000 % NUM == n % NUM
  {
    var q, m := n / 0x1_0000, n % 0x1_0000;
    assert n == NUM * (q * 0x2000) + m;
    WholeRounds(q * 0x2000, m);
  }

  lemma WholeRounds(k: nat, m: nat)
    ensures (NUM * k + m) % NUM == m % NUM
  {
  }

  lemma {:induction false} FitsIn(q: seq<nat>, s: set<nat>)
    requires (forall k :: 0 <= k < |q| ==> q[k] in s) && (forall j, k :: 0 <= j < k < |q| ==> q[j] != q[k])
    ensures |q| <= |s|
    decreases |q|
  {
    if q != [] {
      var n := |q| - 1;
      FitsIn(q[..n], s - {q[n]});
    }
  }

  /** A phase never has more requests than there are descriptors. */
  lemma ShortList(q: seq<nat>, phase: seq<Phase>, p: Phase)
    requires Lists(q, phase, p)
    ensures |q| <= NUM && ((exists h :: 0 <= h < NUM && phase[h] != p) ==> |q| < NUM)
  {
    var all := {0, 1, 2, 3, 4, 5, 6, 7};
    FitsIn(q, all);
    if h :| 0 <= h < NUM && phase[h] != p {
      FitsIn(q, all - {h});
    }
  }

  /** 16-bit indices are equal exactly when no entry lies between them. */
  lemma SameIndex(n: nat, m: nat)
    requires m <= NUM
    ensures n % 0x1_0000 == (n + m) % 0x1_0000 <==> m == 0
  {
  }

  lemma RingPush(ring: seq<nat>, q: seq<nat>, n: nat, h: nat)
    requires Ring(ring, q, n) && |q| < NUM
    ensures Ring(ring[(n + |q|) % NUM := h], q + [h], n)
  {
    var ring1 := ring[(n + |q|) % NUM := h];
    forall k | 0 <= k < |q|
      ensures ring1[(n + k) % NUM] == q[k]
    {
      OtherSlot(n + k, |q| - k);
    }
  }

  lemma OtherSlot(n: nat, m: nat)
    requires 0 < m < NUM
    ensures n % NUM != (n + m) % NUM
  {
  }

  lemma RingPop(ring: seq<nat>, q: seq<nat>, n: nat)
    requires Ring(ring, q, n) && q != []
    ensures ring[n % NUM] == q[0] && Ring(ring, q[1..], n + 1)
  {
    forall k | 0 <= k < |q| - 1
      ensures ring[(n + 1 + k) % NUM] == q[1..][k]
    {
      assert ring[(n + (k + 1)) % NUM] == q[k + 1];
    }
  }

  /** A ring between the 16-bit indices lo and hi holds q: the requests in phase p.
      n counts the entries before lo. Folded (the quantifier has no other trigger)
      except where a proof mentions Unfold. */
  ghost predicate Queue(ring: seq<nat>, q: seq<nat>, n: nat, phase: seq<Phase>, p: Phase, lo: nat, hi: nat) {
    && |ring| == NUM == |phase|
    && forall k {:trigger Unfold(k)} :: k >= 0 ==>
         Lists(q, phase, p) && Ring(ring, q, n) && lo == n % 0x1_0000 && hi == (n + |q|) % 0x1_0000
  }

  lemma QueueEmpty(ring: seq<nat>, q: seq<nat>, n: nat, phase: seq<Phase>, p: Phase, lo: nat, hi: nat)
    requires Queue(ring, q, n, phase, p, lo, hi)
    ensures lo == hi <==> q == []
  {
    assert Unfold(0);
    ShortList(q, phase, p);
    SameIndex(n, |q|);
  }

  /** An entry at hi overwrites none that is still in the queue. */
  lemma QueuePush(ring: seq<nat>, q: seq<nat>, n: nat, phase: seq<Phase>, p: Phase, lo: nat, hi: nat, h: nat)
    requires Queue(ring, q, n, phase, p, lo, hi) && h < NUM && phase[h] != p
    ensures Queue(ring[hi % NUM := h], q + [h], n, phase[h := p], p, lo, (hi + 1) % 0x1_0000)
  {
    assert Unfold(0);
    ShortList(q, phase, p);
    RingPush(ring, q, n, h);
    RingIndex(n + |q|);
    PushList(q, phase, p, h);
  }

  lemma QueuePop(ring: seq<nat>, q: seq<nat>, n: nat, phase: seq<Phase>, p: Phase, lo: nat, hi: nat, p1: Phase)
    requires Queue(ring, q, n, phase, p, lo, hi) && q != [] && p1 != p
    ensures ring[lo % NUM] == q[0] < NUM && phase[q[0]] == p
    ensures Queue(ring, q[1..], n + 1, phase[q[0] := p1], p, (lo + 1) % 0x1_0000, hi)
  {
    assert Unfold(0);
    RingPop(ring, q, n);
    RingIndex(n);
    PopList(q, phase, p, p1);
  }

  lemma QueueKeep(ring: seq<nat>, q: seq<nat>, n: nat, phase: seq<Phase>, p: Phase, lo: nat, hi: nat, h: nat, p1: Phase)
    requires Queue(ring, q, n, phase, p, lo, hi) && h < NUM && phase[h] != p && p1 != p
    ensures Queue(ring, q, n, phase[h := p1], p, lo, hi)
  {
    assert Unfold(0);
    KeepList(q, phase, p, h, p1);
  }

  /** The requests in progress and their descriptors and buffers; folded too. */
  ghost predicate Requests(free: seq<bool>, desc: seq<Desc>, info: seq<nat>, status: seq<nat>, disk: map<nat, bool>,
                           owner: seq<nat>, phase: seq<Phase>, chain: seq<Chain>) {
    && |free| == NUM == |desc| && |info| == NUM == |status| && |owner| == NUM == |phase| && |chain| == NUM
    && forall k {:trigger Unfold(k)} :: k >= 0 ==>
         Owned(free, owner, phase, chain) && Linked(desc, info, phase, chain) && Flagged(disk, phase, chain)
  }

  /** The device has done request h. */
  predicate Succeeded(status: seq<nat>, h: nat) {
    h < |status| && status[h] == 0
  }

  // ----- the driver and the device -----

  class Disk {
    var free: seq<bool>
    var desc: seq<Desc>
    var info: seq<nat>             // info[i].b
    var status: seq<nat>           // info[i].status
    var availRing: seq<nat>
    var availIdx: nat
    var usedRing: seq<nat>
    var usedIdx: nat               // written by the device
    var seenIdx: nat               // disk.used_idx
    var lastAvail: nat             // the device's place in the avail ring
    var disk: map<nat, bool>       // b->disk
    ghost var owner: seq<nat>
    ghost var phase: seq<Phase>
    ghost var chain: seq<Chain>
    ghost var offered: seq<nat>
    ghost var reported: seq<nat>
    ghost var taken: nat           // avail entries taken so far
    ghost var seen: nat            // used entries seen so far

    ghost predicate Valid()
      reads this
    {
      && Requests(free, desc, info, status, disk, owner, phase, chain)
      && Queue(availRing, offered, taken, phase, Offered, lastAvail, availIdx)
      && Queue(usedRing, reported, seen, phase, Reported, seenIdx, usedIdx)
    }

    constructor ()
      ensures Valid() && forall h :: 0 <= h < NUM ==> phase[h] == NoRequest
    {
      free, owner := seq(NUM, _ => true), seq(NUM, _ => NUM);
      desc, info, status := seq(NUM, _ => UNUSED), seq(NUM, _ => 0), seq(NUM, _ => 0);
      availRing, usedRing := seq(NUM, _ => 0), seq(NUM, _ => 0);
      availIdx, usedIdx, seenIdx, lastAvail := 0, 0, 0, 0;
      disk := map[];
      phase, chain := seq(NUM, _ => NoRequest), seq(NUM, _ => Chain(0, 0, 0, false));
      offered, reported, taken, seen := [], [], 0, 0;
      new;
      assert Owned(free, owner, phase, chain) && Linked(desc, info, phase, chain) && Flagged(disk, phase, chain);
      assert Lists(offered, phase, Offered) && Ring(availRing, offered, taken);
      assert Lists(reported, phase, Reported) && Ring(usedRing, reported, seen);
    }

    // ----- descriptors -----

    /** alloc_desc: the first free descriptor, or NUM for C's -1. */
    method AllocDesc() returns (i: nat)
      requires |free| == NUM
      modifies `free
      ensures i <= NUM && (forall j :: 0 <= j < i ==> !old(free)[j])
      ensures i < NUM ==> old(free)[i] && free == old(free)[i := false]
      ensures i == NUM ==> free == old(free)
    {
      i := 0;
      while i < NUM
        invariant 0 <= i <= NUM && free == old(free) && forall j :: 0 <= j < i ==> !free[j]
      {
        if free[i] {
          free := free[i := false];
          return;
        }
        i := i + 1;
      }
    }

    /** free_desc; false is a panic. */
    method FreeDesc(i: nat) returns (ok: bool)
      requires |free| == NUM == |desc|
      modifies `free, `desc
      ensures ok <==> i < NUM && !old(free)[i]
      ensures ok ==> free == old(free)[i := true] && desc == old(desc)[i := UNUSED]
    {
      if i >= NUM || free[i] {
        return false;
      }
      desc := desc[i := UNUSED];
      free := free[i := true];
      ok := true;
    }

    /** alloc3_desc: three free descriptors, or none taken. */
    method Alloc3() returns (ok: bool, idx: seq<nat>)
      requires |free| == NUM == |desc|
      modifies `free, `desc
      ensures ok ==> |idx| == 3 && idx[0] < NUM && idx[1] < NUM && idx[2] < NUM
                     && idx[0] != idx[1] && idx[0] != idx[2] && idx[1] != idx[2]
                     && old(free)[idx[0]] && old(free)[idx[1]] && old(free)[idx[2]]
                     && free == old(free)[idx[0] := false][idx[1] := false][idx[2] := false] && desc == old(desc)
      ensures !ok ==> free == old(free) && |desc| == NUM
                      && forall i :: 0 <= i < NUM && !free[i] ==> desc[i] == old(desc)[i]
      ensures ok <==> exists i, j, k :: 0 <= i < j < k < NUM && old(free)[i] && old(free)[j] && old(free)[k]
    {
      ghost var f := free;
      var i0 := AllocDesc();
      if i0 == NUM { return false, []; }
      var i1 := AllocDesc();
      if i1 == NUM {
        ok := FreeDesc(i0);
        return false, [];
      }
      var i2 := AllocDesc();
      if i2 == NUM {
        ok := FreeDesc(i0);
        ok := FreeDesc(i1);
        return false, [];
      }
      assert i0 < i1 < i2 && f[i0] && f[i1] && f[i2];
      return true, [i0, i1, i2];
    }

    // ----- a request's life -----

    /** virtio_disk_rw up to its wait: false means that it has to sleep for
        descriptors. The caller holds b, so no request for b is in progress. */
    method Submit(b: nat, write: bool) returns (ok: bool, h: nat)
      requires Valid() && forall k :: 0 <= k < NUM && phase[k] != NoRequest ==> chain[k].b != b
      modifies this
      ensures Valid()
      ensures ok <==> exists i, j, k :: 0 <= i < j < k < NUM && old(free)[i] && old(free)[j] && old(free)[k]
      ensures !ok ==> free == old(free) && phase == old(phase) && chain == old(chain) && disk == old(disk)
      ensures ok ==> h < NUM && old(phase)[h] == NoRequest && phase == old(phase)[h := Offered]
                     && disk == old(disk)[b := true]
      ensures ok ==> chain == old(chain)[h := chain[h]] && chain[h].b == b && chain[h].write == write
      ensures ok ==> offered == old(offered) + [h] && reported == old(reported) && taken == old(taken)
    {
      var idx;
      ok, idx := Alloc3();
      if !ok {
        SameRequests(free, old(desc), desc, info, status, disk, owner, phase, chain);
        return false, 0;
      }
      h := idx[0];
      Format(old(free), h, idx[1], idx[2], b, write);
      Offer(h);
    }

    /** The device finds the request of head h in three descriptors, as section 5.2 lays
        them out: a header that it reads, the buffer, which it writes for a read and
        reads for a write, and a status byte that it writes. */
    lemma RequestLaid(h: nat)
      requires Valid() && h < NUM && phase[h] != NoRequest
      ensures var c := chain[h];
              && c.d1 < NUM && c.d2 < NUM && h != c.d1 && h != c.d2 && c.d1 != c.d2
              && !free[h] && !free[c.d1] && !free[c.d2]
              && desc[h] == Desc(Request(h), 16, false, true, c.d1)
              && desc[c.d1] == Desc(Data(c.b), 1024, !c.write, true, c.d2)
              && desc[c.d2] == Desc(Status(h), 1, true, false, 0)
    {
      assert Unfold(0);
    }

    /** Two requests share no descriptor and no buffer. */
    lemma RequestsApart(h: nat, k: nat)
      requires Valid() && h < NUM && k < NUM && h != k && phase[h] != NoRequest && phase[k] != NoRequest
      ensures var c, e := chain[h], chain[k];
              {h, c.d1, c.d2} !! {k, e.d1, e.d2} && c.b != e.b
    {
      assert Unfold(0);
    }

    /** The three descriptors, the status byte and the owner of a request. */
    method Format(ghost free0: seq<bool>, h: nat, d1: nat, d2: nat, b: nat, write: bool)
      requires Requests(free0, desc, info, status, disk, owner, phase, chain)
      requires Fresh(free0, h, Chain(d1, d2, b, write))
      requires free == free0[h := false][d1 := false][d2 := false]
      requires forall k :: 0 <= k < NUM && phase[k] != NoRequest ==> chain[k].b != b
      modifies `desc, `info, `status, `disk, `owner, `chain
      ensures phase[h] == NoRequest && Requests(free, desc, info, status, disk, owner, phase[h := Offered], chain)
      ensures disk == old(disk)[b := true] && |old(chain)| == NUM && chain == old(chain)[h := Chain(d1, d2, b, write)]
    {
      SubmitRequest(free0, desc, info, status, disk, owner, phase, chain, h, Chain(d1, d2, b, write));
      desc := desc[h := Desc(Request(h), 16, false, true, d1)];
      desc := desc[d1 := Desc(Data(b), BSIZE, !write, true, d2)];
      status := status[h := 0xff];
      desc := desc[d2 := Desc(Status(h), 1, true, false, 0)];
      disk := disk[b := true];
      info := info[h := b];
      owner := owner[h := h][d1 := h][d2 := h];
      chain := chain[h := Chain(d1, d2, b, write)];
    }

    /** The entry in the avail ring. */
    method Offer(h: nat)
      requires h < NUM == |phase| && phase[h] == NoRequest
      requires Requests(free, desc, info, status, disk, owner, phase[h := Offered], chain)
      requires Queue(availRing, offered, taken, phase, Offered, lastAvail, availIdx)
      requires Queue(usedRing, reported, seen, phase, Reported, seenIdx, usedIdx)
      modifies `availRing, `availIdx, `phase, `offered
      ensures Valid() && phase == old(phase)[h := Offered] && offered == old(offered) + [h]
    {
      QueuePush(availRing, offered, taken, phase, Offered, lastAvail, availIdx, h);
      QueueKeep(usedRing, reported, seen, phase, Reported, seenIdx, usedIdx, h, Offered);
      availRing := availRing[availIdx % NUM := h];
      availIdx := (availIdx + 1) % 0x1_0000;
      phase, offered := phase[h := Offered], offered + [h];
    }

    /** The device takes the next entry of the avail ring, if there is one. */
    method DeviceTake() returns (some: bool, h: nat)
      requires Valid()
      modifies `lastAvail, `phase, `offered, `taken
      ensures Valid() && (some <==> old(offered) != [])
      ensures some ==> h < NUM && h == old(offered)[0] && old(phase)[h] == Offered && phase == old(phase)[h := Taken]
                       && offered == old(offered)[1..]
      ensures !some ==> phase == old(phase) && offered == old(offered)
    {
      QueueEmpty(availRing, offered, taken, phase, Offered, lastAvail, availIdx);
      h := 0;
      some := lastAvail != availIdx;
      if some {
        QueuePop(availRing, offered, taken, phase, Offered, lastAvail, availIdx, Taken);
        h := availRing[lastAvail % NUM];
        QueueKeep(usedRing, reported, seen, phase, Reported, seenIdx, usedIdx, h, Taken);
        MoveRequest(free, desc, info, status, disk, owner, phase, chain, h, Taken, status[h]);
        lastAvail := (lastAvail + 1) % 0x1_0000;
        phase, offered, taken := phase[h := Taken], offered[1..], taken + 1;
      }
    }

    /** The device reports any request it has taken, with any status. */
    method DeviceReport(h: nat, st: nat)
      requires Valid() && h < NUM && phase[h] == Taken
      modifies `usedRing, `usedIdx, `status, `phase, `reported
      ensures Valid() && phase == old(phase)[h := Reported] && reported == old(reported) + [h]
      ensures status == old(status)[h := st]
    {
      QueuePush(usedRing, reported, seen, phase, Reported, seenIdx, usedIdx, h);
      QueueKeep(availRing, offered, taken, phase, Offered, lastAvail, availIdx, h, Reported);
      MoveRequest(free, desc, info, status, disk, owner, phase, chain, h, Reported, st);
      status := status[h := st];
      usedRing := usedRing[usedIdx % NUM := h];
      usedIdx := (usedIdx + 1) % 0x1_0000;
      phase, reported := phase[h := Reported], reported + [h];
    }

    /** virtio_disk_intr: every entry in the used ring, up to the first that failed,
        clears the flag of the buffer that its request was for, and of no other.
        False is the status panic, with n entries seen before it. */
    method Intr() returns (ok: bool, ghost n: nat)
      requires Valid()
      modifies `disk, `seenIdx, `phase, `reported, `seen
      ensures Valid() && n <= |old(reported)| && reported == old(reported)[n..]
      ensures forall k :: 0 <= k < n ==> old(reported)[k] < |status| && status[old(reported)[k]] == 0
      ensures ok <==> n == |old(reported)|
      ensures !ok ==> !(old(reported)[n] < |status| && status[old(reported)[n]] == 0)
      ensures forall h :: 0 <= h < NUM ==>
                  phase[h] == if old(phase)[h] == Reported && h !in reported then Seen else old(phase)[h]
      ensures Cleared(old(phase), phase, old(disk), disk, chain)
    {
      ok, n := true, 0;
      while ok && seenIdx != usedIdx
        invariant Valid() && Cleared(old(phase), phase, old(disk), disk, chain) && |phase| == NUM
        invariant n <= |old(reported)| && reported == old(reported)[n..]
        invariant forall k :: 0 <= k < n ==> Succeeded(status, old(reported)[k])
        invariant !ok ==> n < |old(reported)| && !Succeeded(status, old(reported)[n])
        invariant forall h :: 0 <= h < NUM ==>
                      phase[h] == old(phase)[h] || (old(phase)[h] == Reported && phase[h] == Seen)
        decreases |reported|, ok
      {
        QueueEmpty(usedRing, reported, seen, phase, Reported, seenIdx, usedIdx);
        ghost var phase0, disk0 := phase, disk;
        ok := SeeNext();
        if ok {
          ClearedNext(old(phase), phase0, phase, old(disk), disk0, disk, chain, old(reported)[n]);
          n := n + 1;
        }
      }
      QueueEmpty(usedRing, reported, seen, phase, Reported, seenIdx, usedIdx);
      QueueLists(usedRing, reported, seen, phase, Reported, seenIdx, usedIdx);
    }

    /** One round of virtio_disk_intr. */
    method SeeNext() returns (ok: bool)
      requires Valid() && reported != []
      modifies `disk, `seenIdx, `phase, `reported, `seen
      ensures Valid() && (ok <==> Succeeded(status, old(reported)[0]))
      ensures !ok ==> reported == old(reported) && phase == old(phase) && disk == old(disk)
      ensures ok ==> reported == old(reported)[1..] && Sees(old(phase), phase, old(disk), disk, chain, old(reported)[0])
    {
      QueuePop(usedRing, reported, seen, phase, Reported, seenIdx, usedIdx, Seen);
      var id := usedRing[seenIdx % NUM];
      SeeRequest(free, desc, info, status, disk, owner, phase, chain, id);
      AnsweredSeen(disk, phase, chain, id);
      if status[id] != 0 {
        return false;
      }
      QueueKeep(availRing, offered, taken, phase, Offered, lastAvail, availIdx, id, Seen);
      disk := disk[info[id] := false];
      seenIdx := (seenIdx + 1) % 0x1_0000;
      phase, reported, seen := phase[id := Seen], reported[1..], seen + 1;
      ok := true;
    }

    /** free_chain of a request's head: it frees the three descriptors and does not
        panic. */
    method FreeChain(h: nat, ghost c: Chain) returns (ok: bool)
      requires |free| == NUM == |desc| && |info| == NUM && h < NUM && c.d1 < NUM && c.d2 < NUM && Laid(desc, info, h, c)
      requires h != c.d1 && h != c.d2 && c.d1 != c.d2 && !free[h] && !free[c.d1] && !free[c.d2]
      modifies `free, `desc
      ensures ok && free == old(free)[h := true][c.d1 := true][c.d2 := true]
      ensures desc == old(desc)[h := UNUSED][c.d1 := UNUSED][c.d2 := UNUSED]
    {
      var i, more := h, true;
      ghost var n := 0;
      ok := true;
      while more
        invariant 0 <= n <= 3 && ok && (more <==> n < 3) && |free| == NUM == |desc|
        invariant n == 0 ==> i == h && free == old(free) && desc == old(desc)
        invariant n == 1 ==> i == c.d1 && free == old(free)[h := true] && desc == old(desc)[h := UNUSED]
        invariant n == 2 ==> i == c.d2 && free == old(free)[h := true][c.d1 := true]
                             && desc == old(desc)[h := UNUSED][c.d1 := UNUSED]
        invariant n == 3 ==> free == old(free)[h := true][c.d1 := true][c.d2 := true]
                             && desc == old(desc)[h := UNUSED][c.d1 := UNUSED][c.d2 := UNUSED]
        decreases 3 - n
      {
        more := desc[i].more;
        var nxt := desc[i].next;
        ok := FreeDesc(i);
        n := n + 1;
        if more {
          i := nxt;
        }
      }
    }

    /** virtio_disk_rw after its wait. */
    method Finish(h: nat) returns (ok: bool)
      requires Valid() && h < NUM && phase[h] == Seen
      modifies `free, `desc, `info, `owner, `phase
      ensures ok && Valid() && phase == old(phase)[h := NoRequest]
      ensures forall i :: 0 <= i < NUM ==> (free[i] <==> old(free)[i] || old(owner)[i] == h)
    {
      SeenRequest(free, desc, info, status, disk, owner, phase, chain, h);
      ok := FreeChain(h, chain[h]);
      Forget(h, old(free), old(desc));
    }

    /** Its chain is free: the request is over. */
    method Forget(h: nat, ghost free0: seq<bool>, ghost desc0: seq<Desc>)
      requires Requests(free0, desc0, info, status, disk, owner, phase, chain) && h < NUM && phase[h] == Seen
      requires Queue(availRing, offered, taken, phase, Offered, lastAvail, availIdx)
      requires Queue(usedRing, reported, seen, phase, Reported, seenIdx, usedIdx)
      requires chain[h].d1 < NUM && chain[h].d2 < NUM
      requires free == free0[h := true][chain[h].d1 := true][chain[h].d2 := true]
      requires desc == desc0[h := UNUSED][chain[h].d1 := UNUSED][chain[h].d2 := UNUSED]
      modifies `info, `owner, `phase
      ensures Valid() && phase == old(phase)[h := NoRequest]
      ensures |old(owner)| == NUM == |free0| && forall i :: 0 <= i < NUM ==>
                  (free[i] <==> free0[i] || old(owner)[i] == h)
    {
      ghost var c := chain[h];
      FinishRequest(free0, desc0, info, status, disk, owner, phase, chain, h);
      QueueKeep(availRing, offered, taken, phase, Offered, lastAvail, availIdx, h, NoRequest);
      QueueKeep(usedRing, reported, seen, phase, Reported, seenIdx, usedIdx, h, NoRequest);
      info := info[h := 0];
      owner := owner[h := NUM][c.d1 := NUM][c.d2 := NUM];
      phase := phase[h := NoRequest];
    }
  }

  /** A request for b is in the used ring. */
  ghost predicate Answered(phase: seq<Phase>, chain: seq<Chain>, b: nat) {
    exists h :: 0 <= h < |phase| && h < |chain| && phase[h] == Reported && chain[h].b == b
  }

  /** The buffers whose requests have left the used ring, and no others, are no
      longer the disk's. */
  ghost predicate Cleared(phase: seq<Phase>, phase1: seq<Phase>, disk: map<nat, bool>, disk1: map<nat, bool>,
                          chain: seq<Chain>) {
    && disk1.Keys == disk.Keys
    && forall b :: b in disk1 ==>
                     disk1[b] == (disk[b] && !(Answered(phase, chain, b) && !Answered(phase1, chain, b)))
  }

  /** The used entry of h has been seen. */
  ghost predicate Sees(phase: seq<Phase>, phase1: seq<Phase>, disk: map<nat, bool>, disk1: map<nat, bool>,
                       chain: seq<Chain>, h: nat) {
    && h < |phase| && h < |chain| && phase[h] == Reported && phase1 == phase[h := Seen]
    && chain[h].b in disk && disk1 == disk[chain[h].b := false]
    && forall b :: Answered(phase1, chain, b) <==> Answered(phase, chain, b) && b != chain[h].b
  }

  lemma ClearedNext(phase: seq<Phase>, phase1: seq<Phase>, phase2: seq<Phase>, disk: map<nat, bool>,
                    disk1: map<nat, bool>, disk2: map<nat, bool>, chain: seq<Chain>, h: nat)
    requires Cleared(phase, phase1, disk, disk1, chain) && Sees(phase1, phase2, disk1, disk2, chain, h)
    requires |phase| == |phase1| && phase[h] == Reported
    ensures Cleared(phase, phase2, disk, disk2, chain)
  {
    assert Answered(phase, chain, chain[h].b);
  }

  // ----- lists of requests -----

  lemma PushList(q: seq<nat>, phase: seq<Phase>, p: Phase, h: nat)
    requires Lists(q, phase, p) && h < NUM && phase[h] != p
    ensures Lists(q + [h], phase[h := p], p)
  {
    var q1 := q + [h];
    forall k | 0 <= k < NUM && phase[h := p][k] == p
      ensures k in q1
    {
      if k != h { assert k in q; }
    }
    assert q1[|q|] == h;
  }

  lemma PopList(q: seq<nat>, phase: seq<Phase>, p: Phase, p1: Phase)
    requires Lists(q, phase, p) && q != [] && p1 != p
    ensures q[0] < NUM && Lists(q[1..], phase[q[0] := p1], p)
  {
    assert q == [q[0]] + q[1..];
  }

  lemma KeepList(q: seq<nat>, phase: seq<Phase>, p: Phase, h: nat, p1: Phase)
    requires Lists(q, phase, p) && h < NUM && phase[h] != p && p1 != p
    ensures Lists(q, phase[h := p1], p)
  {
  }

  lemma QueueLists(ring: seq<nat>, q: seq<nat>, n: nat, phase: seq<Phase>, p: Phase, lo: nat, hi: nat)
    requires Queue(ring, q, n, phase, p, lo, hi)
    ensures forall h :: 0 <= h < NUM ==> (phase[h] == p <==> h in q)
  {
    assert Unfold(0);
  }

  // ----- a new request -----

  lemma SubmitOwned(free: seq<bool>, owner: seq<nat>, phase: seq<Phase>, chain: seq<Chain>, h: nat, c: Chain)
    requires Owned(free, owner, phase, chain) && Fresh(free, h, c)
    ensures phase[h] == NoRequest
    ensures Owned(free[h := false][c.d1 := false][c.d2 := false], owner[h := h][c.d1 := h][c.d2 := h],
                  phase[h := Offered], chain[h := c])
  {
  }

  ghost predicate Fresh(free: seq<bool>, h: nat, c: Chain) {
    |free| == NUM && h < NUM && c.d1 < NUM && c.d2 < NUM && h != c.d1 && h != c.d2 && c.d1 != c.d2 && free[h]
    && free[c.d1] && free[c.d2]
  }

  lemma SubmitLinked(free: seq<bool>, owner: seq<nat>, desc: seq<Desc>, info: seq<nat>, phase: seq<Phase>,
                     chain: seq<Chain>, h: nat, c: Chain)
    requires Owned(free, owner, phase, chain) && Linked(desc, info, phase, chain) && Fresh(free, h, c)
    ensures Linked(desc[h := Desc(Request(h), 16, false, true,
                                  c.d1)][c.d1 := Desc(Data(c.b), BSIZE, !c.write, true, c.d2)]
                       [c.d2 := Desc(Status(h), 1, true, false, 0)], info[h := c.b], phase[h := Offered], chain[h := c])
  {
  }

  lemma SubmitFlagged(disk: map<nat, bool>, phase: seq<Phase>, chain: seq<Chain>, h: nat, c: Chain)
    requires Flagged(disk, phase, chain) && h < NUM && phase[h] == NoRequest
    requires forall k :: 0 <= k < NUM && phase[k] != NoRequest ==> chain[k].b != c.b
    ensures Flagged(disk[c.b := true], phase[h := Offered], chain[h := c])
  {
  }

  lemma SubmitRequest(free: seq<bool>, desc: seq<Desc>, info: seq<nat>, status: seq<nat>, disk: map<nat, bool>,
                      owner: seq<nat>, phase: seq<Phase>, chain: seq<Chain>, h: nat, c: Chain)
    requires Requests(free, desc, info, status, disk, owner, phase, chain) && Fresh(free, h, c)
    requires forall k :: 0 <= k < NUM && phase[k] != NoRequest ==> chain[k].b != c.b
    ensures phase[h] == NoRequest
    ensures Requests(free[h := false][c.d1 := false][c.d2 := false],
                     desc[h := Desc(Request(h), 16, false, true,
                                    c.d1)][c.d1 := Desc(Data(c.b), BSIZE, !c.write, true, c.d2)]
                         [c.d2 := Desc(Status(h), 1, true, false, 0)],
                     info[h := c.b], status[h := 0xff], disk[c.b := true],
                     owner[h := h][c.d1 := h][c.d2 := h], phase[h := Offered], chain[h := c])
  {
    assert Unfold(0);
    SubmitOwned(free, owner, phase, chain, h, c);
    SubmitLinked(free, owner, desc, info, phase, chain, h, c);
    SubmitFlagged(disk, phase, chain, h, c);
  }

  /** Rewriting free descriptors changes no request. */
  lemma SameRequests(free: seq<bool>, desc: seq<Desc>, desc1: seq<Desc>, info: seq<nat>, status: seq<nat>,
                     disk: map<nat, bool>, owner: seq<nat>, phase: seq<Phase>, chain: seq<Chain>)
    requires Requests(free, desc, info, status, disk, owner, phase, chain)
    requires |desc1| == NUM && forall i :: 0 <= i < NUM && !free[i] ==> desc1[i] == desc[i]
    ensures Requests(free, desc1, info, status, disk, owner, phase, chain)
  {
    assert Unfold(0);
  }

  lemma MoveRequest(free: seq<bool>, desc: seq<Desc>, info: seq<nat>, status: seq<nat>, disk: map<nat, bool>,
                    owner: seq<nat>, phase: seq<Phase>, chain: seq<Chain>, h: nat, p: Phase, st: nat)
    requires Requests(free, desc, info, status, disk, owner, phase, chain) && h < NUM
    requires (phase[h] == Offered || phase[h] == Taken)
    requires p == Taken || p == Reported
    ensures Requests(free, desc, info, status[h := st], disk, owner, phase[h := p], chain)
    ensures status[h := status[h]] == status
  {
    assert Unfold(0);
  }

  /** The used entry of h leads to the buffer that its request was for. */
  lemma SeeRequest(free: seq<bool>, desc: seq<Desc>, info: seq<nat>, status: seq<nat>, disk: map<nat, bool>,
                   owner: seq<nat>, phase: seq<Phase>, chain: seq<Chain>, h: nat)
    requires Requests(free, desc, info, status, disk, owner, phase, chain) && h < NUM && phase[h] == Reported
    ensures info[h] == chain[h].b && chain[h].b in disk
    ensures Requests(free, desc, info, status, disk[chain[h].b := false], owner, phase[h := Seen], chain)
    ensures Flagged(disk, phase, chain)
  {
    assert Unfold(0);
  }

  lemma AnsweredSeen(disk: map<nat, bool>, phase: seq<Phase>, chain: seq<Chain>, h: nat)
    requires Flagged(disk, phase, chain) && h < NUM && phase[h] == Reported
    ensures forall b :: Answered(phase[h := Seen], chain, b) <==> Answered(phase, chain, b) && b != chain[h].b
  {
    var phase1 := phase[h := Seen];
    forall b
      ensures Answered(phase1, chain, b) <==> Answered(phase, chain, b) && b != chain[h].b
    {
      if Answered(phase1, chain, b) {
        var k :| 0 <= k < |phase1| && k < |chain| && phase1[k] == Reported && chain[k].b == b;
        assert phase[k] == Reported;
      }
      if Answered(phase, chain, b) && b != chain[h].b {
        var k :| 0 <= k < |phase| && k < |chain| && phase[k] == Reported && chain[k].b == b;
        assert phase1[k] == Reported;
      }
    }
  }

  lemma SeenRequest(free: seq<bool>, desc: seq<Desc>, info: seq<nat>, status: seq<nat>, disk: map<nat, bool>,
                    owner: seq<nat>, phase: seq<Phase>, chain: seq<Chain>, h: nat)
    requires Requests(free, desc, info, status, disk, owner, phase, chain) && h < NUM && phase[h] != NoRequest
    ensures var c := chain[h];
            && c.d1 < NUM && c.d2 < NUM && Laid(desc, info, h, c) && h != c.d1 && h != c.d2 && c.d1 != c.d2
            && !free[h] && !free[c.d1] && !free[c.d2]
            && forall i :: 0 <= i < NUM ==> (owner[i] == h <==> i == h || i == c.d1 || i == c.d2)
  {
    assert Unfold(0);
  }

  lemma FinishRequest(free: seq<bool>, desc: seq<Desc>, info: seq<nat>, status: seq<nat>, disk: map<nat, bool>,
                      owner: seq<nat>, phase: seq<Phase>, chain: seq<Chain>, h: nat)
    requires Requests(free, desc, info, status, disk, owner, phase, chain) && h < NUM && phase[h] == Seen
    ensures chain[h].d1 < NUM && chain[h].d2 < NUM
    ensures forall i :: 0 <= i < NUM ==>
                (free[h := true][chain[h].d1 := true][chain[h].d2 := true][i] <==> free[i] || owner[i] == h)
    ensures var c := chain[h];
            Requests(free[h := true][c.d1 := true][c.d2 := true], desc[h := UNUSED][c.d1 := UNUSED][c.d2 := UNUSED],
                     info[h := 0], status,
                     disk, owner[h := NUM][c.d1 := NUM][c.d2 := NUM], phase[h := NoRequest], chain)
  {
    var c := chain[h];
    SeeParts(free, desc, info, status, disk, owner, phase, chain);
    FinishFree(free, owner, phase, chain, h);
    FinishOwned(free, owner, phase, chain, h);
    FinishLinked(free, owner, desc, info, phase, chain, h);
    FinishFlagged(disk, phase, chain, h);
    Parts(free[h := true][c.d1 := true][c.d2 := true], desc[h := UNUSED][c.d1 := UNUSED][c.d2 := UNUSED],
          info[h := 0], status, disk, owner[h := NUM][c.d1 := NUM][c.d2 := NUM], phase[h := NoRequest], chain);
  }

  lemma SeeParts(free: seq<bool>, desc: seq<Desc>, info: seq<nat>, status: seq<nat>, disk: map<nat, bool>,
                 owner: seq<nat>, phase: seq<Phase>, chain: seq<Chain>)
    requires Requests(free, desc, info, status, disk, owner, phase, chain)
    ensures Owned(free, owner, phase, chain) && Linked(desc, info, phase, chain) && Flagged(disk, phase, chain)
  {
    assert Unfold(0);
  }

  lemma Parts(free: seq<bool>, desc: seq<Desc>, info: seq<nat>, status: seq<nat>, disk: map<nat, bool>,
              owner: seq<nat>, phase: seq<Phase>, chain: seq<Chain>)
    requires Owned(free, owner, phase, chain) && Linked(desc, info, phase, chain) && Flagged(disk, phase, chain)
    requires |free| == NUM == |owner| && |status| == NUM
    ensures Requests(free, desc, info, status, disk, owner, phase, chain)
  {
  }

  lemma FinishFree(free: seq<bool>, owner: seq<nat>, phase: seq<Phase>, chain: seq<Chain>, h: nat)
    requires Owned(free, owner, phase, chain) && h < NUM && phase[h] == Seen
    ensures chain[h].d1 < NUM && chain[h].d2 < NUM
    ensures forall i :: 0 <= i < NUM ==>
                (free[h := true][chain[h].d1 := true][chain[h].d2 := true][i] <==> free[i] || owner[i] == h)
  {
  }

  lemma FinishFlagged(disk: map<nat, bool>, phase: seq<Phase>, chain: seq<Chain>, h: nat)
    requires Flagged(disk, phase, chain) && h < NUM && phase[h] == Seen
    ensures Flagged(disk, phase[h := NoRequest], chain)
  {
  }

  lemma FinishOwned(free: seq<bool>, owner: seq<nat>, phase: seq<Phase>, chain: seq<Chain>, h: nat)
    requires Owned(free, owner, phase, chain) && h < NUM && phase[h] == Seen
    ensures var c := chain[h];
            Owned(free[h := true][c.d1 := true][c.d2 := true], owner[h := NUM][c.d1 := NUM][c.d2 := NUM],
                  phase[h := NoRequest], chain)
  {
  }

  lemma FinishLinked(free: seq<bool>, owner: seq<nat>, desc: seq<Desc>, info: seq<nat>, phase: seq<Phase>,
                     chain: seq<Chain>, h: nat)
    requires Owned(free, owner, phase, chain) && Linked(desc, info, phase, chain) && h < NUM && phase[h] == Seen
    ensures var c := chain[h];
            Linked(desc[h := UNUSED][c.d1 := UNUSED][c.d2 := UNUSED], info[h := 0], phase[h := NoRequest], chain)
  {
  }
}
