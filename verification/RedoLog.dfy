/** The redo log of kernel/log.c as the disk sees it: the block writes that a
    commit and a recovery issue, in order, and what a crash between any two of
    them leaves behind. Block contents are an abstract type T here; the header
    block is kept decoded, as the list of home blocks it names (LogLayer ties
    it to bytes). */
module RedoLog {
  import opened Basics

  const LOGSIZE: nat := 30

  datatype Disk<T> = Disk(head: seq<nat>, blocks: seq<T>)

  /** One bwrite, of a plain block or of the header block. */
  datatype Write<T> = Put(blk: nat, data: T) | Head(lh: seq<nat>)

  /** The log area: the header block `start`, then the logged copies. */
  datatype Area = Area(start: nat, size: nat) {
    predicate Fits(n: nat) {
      0 < size && start + size <= n
    }

    predicate Holds(b: int) {
      start <= b < start + size
    }

    /** A list of home blocks that fits in the area and in the header. */
    predicate Loggable(n: nat, lh: seq<nat>) {
      Fits(n) && |lh| <= LOGSIZE && |lh| < size && forall i :: 0 <= i < |lh| ==> lh[i] < n && !Holds(lh[i])
    }
  }

  predicate SameHome<T(==)>(a: Area, d: seq<T>, e: seq<T>) {
    |d| == |e| && forall b :: 0 <= b < |d| && !a.Holds(b) ==> d[b] == e[b]
  }

  // ----- applying writes -----

  predicate InRange<T>(n: nat, ws: seq<Write<T>>) {
    forall i :: 0 <= i < |ws| && ws[i].Put? ==> ws[i].blk < n
  }

  predicate Touches<T>(ws: seq<Write<T>>, b: int) {
    exists i :: 0 <= i < |ws| && ws[i].Put? && ws[i].blk == b
  }

  function Step<T>(d: Disk<T>, w: Write<T>): (r: Disk<T>)
    requires w.Put? ==> w.blk < |d.blocks|
  {
    match w
    case Put(b, x) => d.(blocks := d.blocks[b := x])
    case Head(lh) => d.(head := lh)
  }

  function Apply<T>(d: Disk<T>, ws: seq<Write<T>>): (r: Disk<T>)
    requires InRange(|d.blocks|, ws)
    ensures |r.blocks| == |d.blocks|
  {
    if ws == [] then d else Step(Apply(d, ws[..|ws| - 1]), ws[|ws| - 1])
  }

  lemma {:induction false} ApplyConcat<T>(d: Disk<T>, a: seq<Write<T>>, b: seq<Write<T>>)
    requires InRange(|d.blocks|, a) && InRange(|d.blocks|, b)
    ensures InRange(|d.blocks|, a + b)
    ensures Apply(d, a + b) == Apply(Apply(d, a), b)
  {
    if b == [] {
      assert a + b == a;
    } else {
      ApplyConcat(d, a, b[..|b| - 1]);
      assert (a + b)[..|a + b| - 1] == a + b[..|b| - 1];
    }
  }

  lemma {:induction false} ApplyUntouched<T>(d: Disk<T>, ws: seq<Write<T>>, b: nat)
    requires InRange(|d.blocks|, ws) && b < |d.blocks| && !Touches(ws, b)
    ensures Apply(d, ws).blocks[b] == d.blocks[b]
  {
    if ws != [] {
      ApplyUntouched(d, ws[..|ws| - 1], b);
    }
  }

  lemma {:induction false} ApplyHeadless<T>(d: Disk<T>, ws: seq<Write<T>>)
    requires InRange(|d.blocks|, ws) && forall i :: 0 <= i < |ws| ==> ws[i].Put?
    ensures Apply(d, ws).head == d.head
  {
    if ws != [] {
      ApplyHeadless(d, ws[..|ws| - 1]);
    }
  }

  lemma {:induction false} ApplyValue<T>(d: Disk<T>, ws: seq<Write<T>>, b: nat, x: T)
    requires InRange(|d.blocks|, ws) && b < |d.blocks| && Touches(ws, b)
    requires forall i :: 0 <= i < |ws| && ws[i].Put? && ws[i].blk == b ==> ws[i].data == x
    ensures Apply(d, ws).blocks[b] == x
  {
    var w := ws[|ws| - 1];
    if w.Head? || w.blk != b {
      assert Touches(ws[..|ws| - 1], b);
      ApplyValue(d, ws[..|ws| - 1], b, x);
    }
  }

  /** Two disks that differ at b agree there again after a list that writes b. */
  lemma {:induction false} ApplyAgree<T>(d: Disk<T>, e: Disk<T>, ws: seq<Write<T>>, b: nat)
    requires |d.blocks| == |e.blocks| && InRange(|d.blocks|, ws) && b < |d.blocks|
    requires d.blocks[b] == e.blocks[b] || Touches(ws, b)
    ensures Apply(d, ws).blocks[b] == Apply(e, ws).blocks[b]
  {
    if ws != [] {
      var init := ws[..|ws| - 1];
      if d.blocks[b] == e.blocks[b] || Touches(init, b) {
        ApplyAgree(d, e, init, b);
      }
    }
  }

  // ----- what a commit and a recovery write -----

  /** write_log: the cached blocks, v, go to the log area. */
  function LogWrites<T>(a: Area, v: seq<T>, lh: seq<nat>): (ws: seq<Write<T>>)
    requires a.Loggable(|v|, lh)
  {
    seq(|lh|, i requires 0 <= i < |lh| => Put(a.start + 1 + i, v[lh[i]]))
  }

  /** install_trans: the logged copies in d go home. */
  function InstallWrites<T>(a: Area, d: seq<T>, lh: seq<nat>): (ws: seq<Write<T>>)
    requires a.Loggable(|d|, lh)
  {
    seq(|lh|, i requires 0 <= i < |lh| => Put(lh[i], d[a.start + 1 + i]))
  }

  /** commit up to and including the header write, the real commit. */
  function PrepareWrites<T>(a: Area, v: seq<T>, lh: seq<nat>): (ws: seq<Write<T>>)
    requires a.Loggable(|v|, lh)
  {
    LogWrites(a, v, lh) + [Head(lh)]
  }

  /** The rest of commit: install from the log, clear the header. */
  function FinishWrites<T>(v: seq<T>, lh: seq<nat>): (ws: seq<Write<T>>)
    requires forall i :: 0 <= i < |lh| ==> lh[i] < |v|
  {
    seq(|lh|, i requires 0 <= i < |lh| => Put(lh[i], v[lh[i]])) + [Head([])]
  }

  /** All that commit writes when the cache shows v: nothing for an empty log. */
  function CommitWrites<T>(a: Area, v: seq<T>, lh: seq<nat>): (ws: seq<Write<T>>)
    requires a.Loggable(|v|, lh)
  {
    if lh == [] then [] else PrepareWrites(a, v, lh) + FinishWrites(v, lh)
  }

  predicate Recoverable<T>(a: Area, d: Disk<T>) {
    a.Loggable(|d.blocks|, d.head)
  }

  /** recover_from_log: install what the header names, then clear it. */
  function RecoverWrites<T>(a: Area, d: Disk<T>): (ws: seq<Write<T>>)
    requires Recoverable(a, d)
    ensures InRange(|d.blocks|, ws)
  {
    InstallWrites(a, d.blocks, d.head) + [Head([])]
  }

  function Recover<T>(a: Area, d: Disk<T>): (r: Disk<T>)
    requires Recoverable(a, d)
    ensures |r.blocks| == |d.blocks|
  {
    Apply(d, RecoverWrites(a, d))
  }

  // ----- recovery is idempotent, wherever it crashes -----

  lemma RecoverIdle<T>(a: Area, d: Disk<T>)
    requires a.Fits(|d.blocks|) && d.head == []
    ensures Recoverable(a, d) && Recover(a, d) == d
  {
    assert RecoverWrites(a, d) == [Head([])];
    assert Apply(d, RecoverWrites(a, d)[..0]) == d;
  }

  lemma RecoverClears<T>(a: Area, d: Disk<T>)
    requires Recoverable(a, d)
    ensures Recover(a, d).head == []
  {
  }

  /** A recovery that crashes after k of its writes leaves a disk from which
      recovery rebuilds the same home blocks. */
  lemma RecoverAfterCrash<T>(a: Area, d: Disk<T>, k: nat)
    requires Recoverable(a, d) && k <= |RecoverWrites(a, d)|
    ensures var e := Apply(d, RecoverWrites(a, d)[..k]);
            Recoverable(a, e) && SameHome(a, Recover(a, e).blocks, Recover(a, d).blocks)
  {
    var ws := RecoverWrites(a, d);
    var e := Apply(d, ws[..k]);
    if k == |ws| {
      assert ws[..k] == ws;
      RecoverIdle(a, e);
    } else {
      ApplyHeadless(d, ws[..k]);
      forall b | a.Holds(b)
        ensures e.blocks[b] == d.blocks[b]
      {
        ApplyUntouched(d, ws[..k], b);
      }
      assert RecoverWrites(a, e) == ws;
      forall b | 0 <= b < |d.blocks|
        ensures Recover(a, e).blocks[b] == Recover(a, d).blocks[b]
      {
        if !Touches(ws, b) {
          ApplyUntouched(d, ws[..k], b);
        }
        ApplyAgree(e, d, ws, b);
      }
    }
  }

  /** Recoveries that crash one after another; the i-th one stops after ks[i]
      of its writes, or completes if it has fewer. */
  function CrashedRecoveries<T>(a: Area, d: Disk<T>, ks: seq<nat>): (r: Disk<T>)
    requires Recoverable(a, d)
    ensures Recoverable(a, r)
    decreases |ks|
  {
    if ks == [] then d
    else
      var ws := RecoverWrites(a, d);
      var k := if ks[0] <= |ws| then ks[0] else |ws|;
      RecoverAfterCrash(a, d, k);
      CrashedRecoveries(a, Apply(d, ws[..k]), ks[1..])
  }

  /** The i-th logged copy is home after k writes, unless a later one has replaced it. */
  lemma {:induction false} InstalledAt<T>(a: Area, d: Disk<T>, k: nat, i: nat)
    requires Recoverable(a, d) && i < k <= |d.head| && d.head[i] !in d.head[i + 1..k]
    ensures Apply(d, RecoverWrites(a, d)[..k]).blocks[d.head[i]] == d.blocks[a.start + 1 + i]
  {
    var ws := RecoverWrites(a, d);
    assert ws[..k][..k - 1] == ws[..k - 1] && ws[..k][k - 1] == ws[k - 1];
    if i < k - 1 {
      assert d.head[i + 1..k] == d.head[i + 1..k - 1] + [d.head[k - 1]];
      InstalledAt(a, d, k - 1, i);
    }
  }

  lemma NotInstalled<T>(a: Area, d: Disk<T>, k: nat, b: nat)
    requires Recoverable(a, d) && k <= |d.head| && b < |d.blocks| && b !in d.head[..k]
    ensures Apply(d, RecoverWrites(a, d)[..k]).blocks[b] == d.blocks[b]
  {
    var ws := RecoverWrites(a, d)[..k];
    forall i | 0 <= i < k
      ensures ws[i].blk != b
    {
      assert d.head[i] == d.head[..k][i];
    }
    ApplyUntouched(d, ws, b);
  }

  /** A recovery that crashes after k writes has brought home the first k logged
      copies and nothing else; the header still names them all. */
  lemma CutRecovery<T>(a: Area, d: Disk<T>, k: nat, b: nat, i: nat)
    requires Recoverable(a, d) && k <= |d.head| && b < |d.blocks|
    ensures var r := CrashedRecoveries(a, d, [k]);
            && r.head == d.head && |r.blocks| == |d.blocks|
            && (b !in d.head[..k] ==> r.blocks[b] == d.blocks[b])
            && (i < k && d.head[i] == b && b !in d.head[i + 1..k] ==> r.blocks[b] == d.blocks[a.start + 1 + i])
  {
    var ws := RecoverWrites(a, d)[..k];
    assert CrashedRecoveries(a, d, [k]) == Apply(d, ws);
    ApplyHeadless(d, ws);
    if b !in d.head[..k] { NotInstalled(a, d, k, b); }
    if i < k && d.head[i] == b && b !in d.head[i + 1..k] { InstalledAt(a, d, k, i); }
  }

  /** A completed one has brought home all of them. */
  lemma RecoverInstalls<T>(a: Area, d: Disk<T>, b: nat, i: nat)
    requires Recoverable(a, d) && b < |d.blocks|
    ensures b !in d.head ==> Recover(a, d).blocks[b] == d.blocks[b]
    ensures i < |d.head| && d.head[i] == b && b !in d.head[i + 1..] ==>
              Recover(a, d).blocks[b] == d.blocks[a.start + 1 + i]
  {
    var ws, n := RecoverWrites(a, d), |d.head|;
    assert ws[..|ws| - 1] == ws[..n] && d.head[..n] == d.head;
    if b !in d.head { NotInstalled(a, d, n, b); }
    if i < n && d.head[i] == b && b !in d.head[i + 1..] {
      assert d.head[i + 1..n] == d.head[i + 1..];
      InstalledAt(a, d, n, i);
    }
  }

  lemma {:induction false} SameAfterCrashes<T>(a: Area, d: Disk<T>, ks: seq<nat>)
    requires Recoverable(a, d)
    ensures SameHome(a, Recover(a, CrashedRecoveries(a, d, ks)).blocks, Recover(a, d).blocks)
    decreases |ks|
  {
    if ks != [] {
      var ws := RecoverWrites(a, d);
      var k := if ks[0] <= |ws| then ks[0] else |ws|;
      RecoverAfterCrash(a, d, k);
      SameAfterCrashes(a, Apply(d, ws[..k]), ks[1..]);
    }
  }

  // ----- commit -----

  /** What the cache shows, v, differs from the idle disk only at logged blocks. */
  predicate CachedView<T(==)>(a: Area, d: Disk<T>, v: seq<T>, lh: seq<nat>) {
    d.head == [] && |v| == |d.blocks|
    && forall b :: 0 <= b < |v| && !a.Holds(b) && b !in lh ==> v[b] == d.blocks[b]
  }

  /** The disk when a commit stops after k of its writes. */
  function CrashedCommit<T>(a: Area, d: Disk<T>, v: seq<T>, lh: seq<nat>, k: nat): (r: Disk<T>)
    requires |v| == |d.blocks| && a.Loggable(|v|, lh) && k <= |CommitWrites(a, v, lh)|
    ensures |r.blocks| == |d.blocks|
  {
    Apply(d, CommitWrites(a, v, lh)[..k])
  }

  /** Before the header is on disk, recovery finds an empty header and the old home blocks. */
  lemma CrashBeforeHead<T>(a: Area, d: Disk<T>, v: seq<T>, lh: seq<nat>, k: nat)
    requires d.head == [] && |v| == |d.blocks| && a.Loggable(|v|, lh)
    requires k <= |lh| && k <= |CommitWrites(a, v, lh)|
    ensures var e := CrashedCommit(a, d, v, lh, k);
            Recoverable(a, e) && SameHome(a, Recover(a, e).blocks, d.blocks)
  {
    var ws := CommitWrites(a, v, lh)[..k];
    var e := Apply(d, ws);
    ApplyHeadless(d, ws);
    RecoverIdle(a, e);
    forall b | 0 <= b < |v| && !a.Holds(b)
      ensures e.blocks[b] == d.blocks[b]
    {
      ApplyUntouched(d, ws, b);
    }
  }

  lemma {:induction false} LoggedBlock<T>(a: Area, d: Disk<T>, v: seq<T>, lh: seq<nat>, i: nat)
    requires |v| == |d.blocks| && a.Loggable(|v|, lh) && i < |lh|
    ensures Apply(d, LogWrites(a, v, lh)).blocks[a.start + 1 + i] == v[lh[i]]
  {
    var ws := LogWrites(a, v, lh);
    assert ws[..|ws| - 1] == LogWrites(a, v, lh[..|lh| - 1]);
    if i < |lh| - 1 {
      LoggedBlock(a, d, v, lh[..|lh| - 1], i);
    }
  }

  /** Once the header is written, the log holds the new blocks, home the old ones. */
  lemma PreparedBlocks<T>(a: Area, d: Disk<T>, v: seq<T>, lh: seq<nat>)
    requires |v| == |d.blocks| && a.Loggable(|v|, lh)
    ensures var e := Apply(d, PrepareWrites(a, v, lh));
            e.head == lh && SameHome(a, e.blocks, d.blocks)
            && forall i :: 0 <= i < |lh| ==> e.blocks[a.start + 1 + i] == v[lh[i]]
  {
    var logged := LogWrites(a, v, lh);
    assert PrepareWrites(a, v, lh)[..|lh|] == logged;
    forall i | 0 <= i < |lh|
      ensures Apply(d, logged).blocks[a.start + 1 + i] == v[lh[i]]
    {
      LoggedBlock(a, d, v, lh, i);
    }
    forall b | 0 <= b < |v| && !a.Holds(b)
      ensures Apply(d, logged).blocks[b] == d.blocks[b]
    {
      ApplyUntouched(d, logged, b);
    }
  }

  /** ... so that the rest of the commit is exactly a recovery. */
  lemma Prepared<T>(a: Area, d: Disk<T>, v: seq<T>, lh: seq<nat>)
    requires |v| == |d.blocks| && a.Loggable(|v|, lh)
    ensures var e := Apply(d, PrepareWrites(a, v, lh));
            Recoverable(a, e) && RecoverWrites(a, e) == FinishWrites(v, lh)
            && SameHome(a, e.blocks, d.blocks)
  {
    PreparedBlocks(a, d, v, lh);
  }

  lemma PreparedRecovers<T>(a: Area, d: Disk<T>, v: seq<T>, lh: seq<nat>)
    requires CachedView(a, d, v, lh) && a.Loggable(|v|, lh)
    ensures var e := Apply(d, PrepareWrites(a, v, lh));
            Recoverable(a, e) && SameHome(a, Recover(a, e).blocks, v)
  {
    Prepared(a, d, v, lh);
    var e, ws := Apply(d, PrepareWrites(a, v, lh)), FinishWrites(v, lh);
    forall b | 0 <= b < |v| && !a.Holds(b)
      ensures Recover(a, e).blocks[b] == v[b]
    {
      if b in lh {
        var i :| 0 <= i < |lh| && lh[i] == b;
        assert ws[i].blk == b;
        ApplyValue(e, ws, b, v[b]);
      } else {
        ApplyUntouched(e, ws, b);
      }
    }
  }

  lemma TakeConcat<T>(a: seq<T>, b: seq<T>, j: nat)
    requires j <= |b|
    ensures (a + b)[..|a| + j] == a + b[..j]
  {
  }

  lemma CrashAfterHead<T>(a: Area, d: Disk<T>, v: seq<T>, lh: seq<nat>, k: nat)
    requires CachedView(a, d, v, lh) && a.Loggable(|v|, lh)
    requires |lh| < k <= |CommitWrites(a, v, lh)|
    ensures var e := CrashedCommit(a, d, v, lh, k);
            Recoverable(a, e) && SameHome(a, Recover(a, e).blocks, v)
  {
    var prepare, finish, j := PrepareWrites(a, v, lh), FinishWrites(v, lh), k - |lh| - 1;
    assert CrashedCommit(a, d, v, lh, k) == Apply(Apply(d, prepare), finish[..j]) by {
      TakeConcat(prepare, finish, j);
      ApplyConcat(d, prepare, finish[..j]);
    }
    Prepared(a, d, v, lh);
    PreparedRecovers(a, d, v, lh);
    RecoverAfterCrash(a, Apply(d, prepare), j);
  }

  /** Crash atomicity. A commit that stops after any k of its writes, followed
      by any recoveries that crash anywhere and by one that completes, leaves
      the home blocks all new if the header had reached the disk and all old if
      it had not, and an empty header. */
  lemma CrashAtomicity<T>(a: Area, d: Disk<T>, v: seq<T>, lh: seq<nat>, k: nat, ks: seq<nat>)
    requires CachedView(a, d, v, lh) && a.Loggable(|v|, lh) && k <= |CommitWrites(a, v, lh)|
    ensures var e := CrashedCommit(a, d, v, lh, k);
            Recoverable(a, e)
            && var f := Recover(a, CrashedRecoveries(a, e, ks));
               f.head == [] && SameHome(a, f.blocks, if k > |lh| then v else d.blocks)
  {
    var e := CrashedCommit(a, d, v, lh, k);
    if k <= |lh| {
      CrashBeforeHead(a, d, v, lh, k);
    } else {
      CrashAfterHead(a, d, v, lh, k);
    }
    SameAfterCrashes(a, e, ks);
    RecoverClears(a, CrashedRecoveries(a, e, ks));
  }

  /** A commit that meets no crash. */
  lemma CommitCompletes<T>(a: Area, d: Disk<T>, v: seq<T>, lh: seq<nat>)
    requires CachedView(a, d, v, lh) && a.Loggable(|v|, lh)
    ensures InRange(|d.blocks|, CommitWrites(a, v, lh))
    ensures var e := Apply(d, CommitWrites(a, v, lh)); e.head == [] && SameHome(a, e.blocks, v)
  {
    var ws := CommitWrites(a, v, lh);
    assert ws[..|ws|] == ws;
    if lh != [] {
      CrashAfterHead(a, d, v, lh, |ws|);
    }
    RecoverIdle(a, Apply(d, ws));
  }

  // ----- whole histories -----

  /** A transaction that gives home block lh[i] the contents data[i], and a
      crash, if it meets one: its commit stops after k writes and recoveries
      that crash after ks[0], ks[1], ... writes follow. */
  datatype Transaction<T> = Transaction(lh: seq<nat>, data: seq<T>, crash: Option<(nat, seq<nat>)>) {
    predicate Valid(a: Area, n: nat) {
      a.Loggable(n, lh) && |data| == |lh|
      && (crash.Some? ==> crash.value.0 <= if lh == [] then 0 else 2 * |lh| + 2)
    }

    /** True when the header reaches the disk. */
    predicate Commits() {
      crash.None? || crash.value.0 > |lh|
    }
  }

  /** The cache's view of the disk once the transaction's blocks are modified. */
  function View<T>(blocks: seq<T>, lh: seq<nat>, data: seq<T>): (v: seq<T>)
    requires |data| == |lh| && forall i :: 0 <= i < |lh| ==> lh[i] < |blocks|
    ensures |v| == |blocks|
    ensures forall b :: 0 <= b < |v| && b !in lh ==> v[b] == blocks[b]
    decreases |lh|
  {
    if lh == [] then blocks else View(blocks[lh[0] := data[0]], lh[1..], data[1..])
  }

  /** Each block gets the last contents that the transaction names for it. */
  lemma {:induction false} ViewHolds<T>(blocks: seq<T>, lh: seq<nat>, data: seq<T>, i: nat)
    requires |data| == |lh| && (forall j :: 0 <= j < |lh| ==> lh[j] < |blocks|)
    requires i < |lh| && lh[i] !in lh[i + 1..]
    ensures View(blocks, lh, data)[lh[i]] == data[i]
    decreases |lh|
  {
    if i > 0 {
      assert lh[1..][i..] == lh[i + 1..];
      ViewHolds(blocks[lh[0] := data[0]], lh[1..], data[1..], i - 1);
    }
  }

  lemma {:induction false} ViewSameHome<T>(a: Area, d: seq<T>, e: seq<T>, lh: seq<nat>, data: seq<T>)
    requires |data| == |lh| && SameHome(a, d, e) && forall i :: 0 <= i < |lh| ==> lh[i] < |d|
    ensures SameHome(a, View(d, lh, data), View(e, lh, data))
    decreases |lh|
  {
    if lh != [] {
      ViewSameHome(a, d[lh[0] := data[0]], e[lh[0] := data[0]], lh[1..], data[1..]);
    }
  }

  /** One transaction on an idle disk, with its crash and recoveries. */
  function Execute<T>(a: Area, d: Disk<T>, t: Transaction<T>): (r: Disk<T>)
    requires d.head == [] && t.Valid(a, |d.blocks|)
    ensures |r.blocks| == |d.blocks|
  {
    var v := View(d.blocks, t.lh, t.data);
    match t.crash
    case None => Apply(d, CommitWrites(a, v, t.lh))
    case Some((k, ks)) =>
      CrashAtomicity(a, d, v, t.lh, k, ks);
      Recover(a, CrashedRecoveries(a, CrashedCommit(a, d, v, t.lh, k), ks))
  }

  lemma ExecuteIsAtomic<T>(a: Area, d: Disk<T>, t: Transaction<T>)
    requires d.head == [] && t.Valid(a, |d.blocks|)
    ensures var r := Execute(a, d, t);
            r.head == [] && SameHome(a, r.blocks, if t.Commits() then View(d.blocks, t.lh, t.data) else d.blocks)
  {
    var v := View(d.blocks, t.lh, t.data);
    match t.crash
    case Some((k, ks)) => CrashAtomicity(a, d, v, t.lh, k, ks);
    case None => CommitCompletes(a, d, v, t.lh);
  }

  predicate AllValid<T>(a: Area, n: nat, ts: seq<Transaction<T>>) {
    forall i :: 0 <= i < |ts| ==> ts[i].Valid(a, n)
  }

  function ExecuteAll<T>(a: Area, d: Disk<T>, ts: seq<Transaction<T>>): (r: Disk<T>)
    requires d.head == [] && AllValid(a, |d.blocks|, ts)
    ensures |r.blocks| == |d.blocks| && r.head == []
    decreases |ts|
  {
    if ts == [] then d
    else
      ExecuteIsAtomic(a, d, ts[0]);
      ExecuteAll(a, Execute(a, d, ts[0]), ts[1..])
  }

  /** The same history without a log: a transaction happens at once or not at all. */
  function IdealAll<T>(a: Area, blocks: seq<T>, ts: seq<Transaction<T>>): (r: seq<T>)
    requires AllValid(a, |blocks|, ts)
    ensures |r| == |blocks|
    decreases |ts|
  {
    if ts == [] then blocks
    else IdealAll(a, if ts[0].Commits() then View(blocks, ts[0].lh, ts[0].data) else blocks, ts[1..])
  }

  lemma {:induction false} IdealSameHome<T>(a: Area, d: seq<T>, e: seq<T>, ts: seq<Transaction<T>>)
    requires SameHome(a, d, e) && AllValid(a, |d|, ts)
    ensures SameHome(a, IdealAll(a, d, ts), IdealAll(a, e, ts))
    decreases |ts|
  {
    if ts != [] {
      ViewSameHome(a, d, e, ts[0].lh, ts[0].data);
      if ts[0].Commits() {
        IdealSameHome(a, View(d, ts[0].lh, ts[0].data), View(e, ts[0].lh, ts[0].data), ts[1..]);
      } else {
        IdealSameHome(a, d, e, ts[1..]);
      }
    }
  }

  /** Over any history of transactions, crashes and crashed recoveries the home
      blocks are those of the history in which each transaction is atomic. */
  lemma {:induction false} HistoryIsAtomic<T>(a: Area, d: Disk<T>, ts: seq<Transaction<T>>)
    requires d.head == [] && AllValid(a, |d.blocks|, ts)
    ensures SameHome(a, ExecuteAll(a, d, ts).blocks, IdealAll(a, d.blocks, ts))
    decreases |ts|
  {
    if ts != [] {
      var e := Execute(a, d, ts[0]);
      ExecuteIsAtomic(a, d, ts[0]);
      HistoryIsAtomic(a, e, ts[1..]);
      var ideal := if ts[0].Commits() then View(d.blocks, ts[0].lh, ts[0].data) else d.blocks;
      IdealSameHome(a, e.blocks, ideal, ts[1..]);
    }
  }

  /** Transaction t of the history commits block b. */
  predicate Gives<T>(ts: seq<Transaction<T>>, t: nat, b: nat)
    requires t < |ts|
  {
    (ts[t].crash.None? || ts[t].crash.value.0 > |ts[t].lh|) && b in ts[t].lh
  }

  lemma {:induction false} IdealKeeps<T>(a: Area, blocks: seq<T>, ts: seq<Transaction<T>>, b: nat)
    requires AllValid(a, |blocks|, ts) && b < |blocks| && forall t :: 0 <= t < |ts| ==> !Gives(ts, t, b)
    ensures IdealAll(a, blocks, ts)[b] == blocks[b]
    decreases |ts|
  {
    if ts != [] {
      assert !Gives(ts, 0, b);
      assert forall t :: 0 <= t < |ts| - 1 ==> Gives(ts[1..], t, b) == Gives(ts, t + 1, b);
      IdealKeeps(a, if ts[0].Commits() then View(blocks, ts[0].lh, ts[0].data) else blocks, ts[1..], b);
    }
  }

  lemma {:induction false} IdealHolds<T>(a: Area, blocks: seq<T>, ts: seq<Transaction<T>>, t: nat, i: nat)
    requires AllValid(a, |blocks|, ts) && t < |ts| && i < |ts[t].lh| && ts[t].lh[i] !in ts[t].lh[i + 1..]
    requires Gives(ts, t, ts[t].lh[i]) && forall u :: t < u < |ts| ==> !Gives(ts, u, ts[t].lh[i])
    ensures IdealAll(a, blocks, ts)[ts[t].lh[i]] == ts[t].data[i]
    decreases |ts|
  {
    var b, rest := ts[t].lh[i], ts[1..];
    var next := if ts[0].Commits() then View(blocks, ts[0].lh, ts[0].data) else blocks;
    assert forall u :: 0 <= u < |rest| ==> Gives(rest, u, b) == Gives(ts, u + 1, b);
    if t > 0 {
      IdealHolds(a, next, rest, t - 1, i);
    } else {
      ViewHolds(blocks, ts[0].lh, ts[0].data, i);
      IdealKeeps(a, next, rest, b);
    }
  }

  /** After any history each home block holds what the last committed transaction
      that names it gave it ... */
  lemma LastCommitWins<T>(a: Area, d: Disk<T>, ts: seq<Transaction<T>>, t: nat, i: nat)
    requires d.head == [] && AllValid(a, |d.blocks|, ts)
    requires t < |ts| && i < |ts[t].lh| && ts[t].lh[i] !in ts[t].lh[i + 1..]
    requires Gives(ts, t, ts[t].lh[i]) && forall u :: t < u < |ts| ==> !Gives(ts, u, ts[t].lh[i])
    ensures ExecuteAll(a, d, ts).blocks[ts[t].lh[i]] == ts[t].data[i]
  {
    HistoryIsAtomic(a, d, ts);
    IdealHolds(a, d.blocks, ts, t, i);
  }

  /** ... and its first contents if there is none. */
  lemma UncommittedStays<T>(a: Area, d: Disk<T>, ts: seq<Transaction<T>>, b: nat)
    requires d.head == [] && AllValid(a, |d.blocks|, ts)
    requires b < |d.blocks| && !a.Holds(b) && forall t :: 0 <= t < |ts| ==> !Gives(ts, t, b)
    ensures ExecuteAll(a, d, ts).blocks[b] == d.blocks[b]
  {
    HistoryIsAtomic(a, d, ts);
    IdealKeeps(a, d.blocks, ts, b);
  }
}
