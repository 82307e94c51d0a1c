/** The physical redo log of `log.c`: what each disk write leaves behind, what
    recovery makes of it, and the in-memory log that issues the writes. */
module Log {
  import opened Disk

  const LOGSIZE := 30
  const MAXOPBLOCKS := 10

  /** Where the log lives: a header block at `start`, then `size - 1` log blocks. */
  datatype Geometry = Geometry(nblocks: nat, start: nat, size: nat)

  predicate Fits(g: Geometry) {
    1 <= g.size && g.start + g.size <= g.nblocks <= 0x1_0000_0000
  }

  predicate IsHome(g: Geometry, b: nat) {
    b < g.nblocks && !(g.start <= b < g.start + g.size)
  }

  /** A list of block numbers that one transaction may carry. */
  predicate ValidList(g: Geometry, lh: seq<nat>) {
    && |lh| <= LOGSIZE && |lh| < g.size
    && (forall i | 0 <= i < |lh| :: IsHome(g, lh[i]))
    && (forall i, j | 0 <= i < j < |lh| :: lh[i] != lh[j])
  }

  // ---- The header block ----

  function HeadList(b: Block): seq<nat>
    requires GetWord(b, 0) <= LOGSIZE
  {
    seq(GetWord(b, 0), i requires 0 <= i < GetWord(b, 0) => GetWord(b, i + 1))
  }

  /** The header buffer once its count and its first `k` entries are filled in. */
  function PutHead(b: Block, lh: seq<nat>, k: nat): Block
    requires k <= |lh| <= LOGSIZE
    requires forall i | 0 <= i < |lh| :: lh[i] < 0x1_0000_0000
  {
    if k == 0 then SetWord(b, 0, |lh|)
    else SetWord(PutHead(b, lh, k - 1), k, lh[k - 1])
  }

  lemma {:induction false} PutHeadWords(b: Block, lh: seq<nat>, k: nat)
    requires k <= |lh| <= LOGSIZE
    requires forall i | 0 <= i < |lh| :: lh[i] < 0x1_0000_0000
    ensures GetWord(PutHead(b, lh, k), 0) == |lh|
    ensures forall i: nat | i < k :: GetWord(PutHead(b, lh, k), i + 1) == lh[i]
    ensures forall j: nat | k < j < WORDS :: GetWord(PutHead(b, lh, k), j) == GetWord(b, j)
  {
    if k == 0 {
      WordRoundTrip(b, 0, |lh|);
    } else {
      PutHeadWords(b, lh, k - 1);
      WordRoundTrip(PutHead(b, lh, k - 1), k, lh[k - 1]);
    }
  }

  /** What write_head stores is exactly what read_head reads back. */
  lemma HeadRoundTrip(b: Block, lh: seq<nat>)
    requires |lh| <= LOGSIZE
    requires forall i | 0 <= i < |lh| :: lh[i] < 0x1_0000_0000
    ensures GetWord(PutHead(b, lh, |lh|), 0) == |lh|
    ensures HeadList(PutHead(b, lh, |lh|)) == lh
  {
    PutHeadWords(b, lh, |lh|);
  }

  // ---- Images on disk ----

  predicate WellFormed(g: Geometry, d: Image) {
    && Fits(g) && |d| == g.nblocks
    && GetWord(d[g.start], 0) <= LOGSIZE
    && ValidList(g, HeadList(d[g.start]))
  }

  /** The first `k` logged blocks copied from the log to their homes. */
  function Install(g: Geometry, d: Image, lh: seq<nat>, k: nat): (r: Image)
    requires Fits(g) && |d| == g.nblocks && ValidList(g, lh) && k <= |lh|
    ensures |r| == |d|
  {
    if k == 0 then d
    else
      var before := Install(g, d, lh, k - 1);
      before[lh[k - 1] := before[g.start + k]]
  }

  lemma {:induction false} InstallAt(g: Geometry, d: Image, lh: seq<nat>, k: nat)
    requires Fits(g) && |d| == g.nblocks && ValidList(g, lh) && k <= |lh|
    ensures forall i | 0 <= i < k :: Install(g, d, lh, k)[lh[i]] == d[g.start + 1 + i]
    ensures forall x | 0 <= x < |d| && x !in lh[..k] :: Install(g, d, lh, k)[x] == d[x]
  {
    if k > 0 {
      InstallAt(g, d, lh, k - 1);
      assert lh[..k] == lh[..k - 1] + [lh[k - 1]];
      assert g.start + k !in lh[..k - 1];
    }
  }

  /** The image in which the log has been installed, as recovery would do. */
  function Recovered(g: Geometry, d: Image): Image
    requires WellFormed(g, d)
  {
    Install(g, d, HeadList(d[g.start]), |HeadList(d[g.start])|)
  }

  predicate SameHome(g: Geometry, a: Image, b: Image) {
    && |a| == |b| == g.nblocks
    && forall x | 0 <= x < g.nblocks && IsHome(g, x) :: a[x] == b[x]
  }

  /** The first `k` changed blocks copied from the cache into the log. */
  function LogCopy(g: Geometry, d: Image, mem: Image, lh: seq<nat>, k: nat): (r: Image)
    requires Fits(g) && |d| == |mem| == g.nblocks && ValidList(g, lh) && k <= |lh|
    ensures |r| == |d|
  {
    if k == 0 then d else LogCopy(g, d, mem, lh, k - 1)[g.start + k := mem[lh[k - 1]]]
  }

  lemma {:induction false} LogCopyAt(g: Geometry, d: Image, mem: Image, lh: seq<nat>, k: nat)
    requires Fits(g) && |d| == |mem| == g.nblocks && ValidList(g, lh) && k <= |lh|
    ensures forall i | 0 <= i < k :: LogCopy(g, d, mem, lh, k)[g.start + 1 + i] == mem[lh[i]]
    ensures forall x | 0 <= x < |d| && !(g.start < x <= g.start + k) ::
              LogCopy(g, d, mem, lh, k)[x] == d[x]
  {
    if k > 0 {
      LogCopyAt(g, d, mem, lh, k - 1);
    }
  }

  function WriteHeadImage(g: Geometry, d: Image, lh: seq<nat>): (r: Image)
    requires Fits(g) && |d| == g.nblocks && ValidList(g, lh)
    ensures |r| == |d|
  {
    d[g.start := PutHead(d[g.start], lh, |lh|)]
  }

  /** The disk after the first `k` of the 2n + 2 block writes of a commit. */
  function CommitImage(g: Geometry, d: Image, mem: Image, lh: seq<nat>, k: nat): (r: Image)
    requires Fits(g) && |d| == |mem| == g.nblocks && ValidList(g, lh) && k <= 2 * |lh| + 2
    ensures |r| == |d|
  {
    var n := |lh|;
    var committed := WriteHeadImage(g, LogCopy(g, d, mem, lh, n), lh);
    if k <= n then LogCopy(g, d, mem, lh, k)
    else if k <= 2 * n + 1 then Install(g, committed, lh, k - n - 1)
    else WriteHeadImage(g, Install(g, committed, lh, n), [])
  }

  /** The disk after the first `k` of the n + 1 block writes of recovery. */
  function RecoverImage(g: Geometry, d: Image, k: nat): (r: Image)
    requires WellFormed(g, d) && k <= |HeadList(d[g.start])| + 1
    ensures |r| == |d|
  {
    var lh := HeadList(d[g.start]);
    if k <= |lh| then Install(g, d, lh, k)
    else WriteHeadImage(g, Install(g, d, lh, |lh|), [])
  }

  /** The images of the first `k` copies into the log, in order. */
  function LogCopyTrace(g: Geometry, d: Image, mem: Image, lh: seq<nat>, k: nat): (r: seq<Image>)
    requires Fits(g) && |d| == |mem| == g.nblocks && ValidList(g, lh) && k <= |lh|
    ensures |r| == k && forall i | 0 <= i < k :: r[i] == LogCopy(g, d, mem, lh, i + 1)
  {
    if k == 0 then [] else LogCopyTrace(g, d, mem, lh, k - 1) + [LogCopy(g, d, mem, lh, k)]
  }

  /** The images of the first `k` copies out of the log, in order. */
  function InstallTrace(g: Geometry, d: Image, lh: seq<nat>, k: nat): (r: seq<Image>)
    requires Fits(g) && |d| == g.nblocks && ValidList(g, lh) && k <= |lh|
    ensures |r| == k && forall i | 0 <= i < k :: r[i] == Install(g, d, lh, i + 1)
  {
    if k == 0 then [] else InstallTrace(g, d, lh, k - 1) + [Install(g, d, lh, k)]
  }

  /** Every disk image a commit leaves behind, in order. */
  function CommitTrace(g: Geometry, d: Image, mem: Image, lh: seq<nat>): (r: seq<Image>)
    requires Fits(g) && |d| == |mem| == g.nblocks && ValidList(g, lh)
    ensures |r| == 2 * |lh| + 2
    ensures forall k | 0 <= k < |r| :: r[k] == CommitImage(g, d, mem, lh, k + 1)
  {
    var n := |lh|;
    var committed := WriteHeadImage(g, LogCopy(g, d, mem, lh, n), lh);
    LogCopyTrace(g, d, mem, lh, n) + [committed] + InstallTrace(g, committed, lh, n)
    + [WriteHeadImage(g, Install(g, committed, lh, n), [])]
  }

  /** Every disk image a recovery leaves behind, in order. */
  function RecoverTrace(g: Geometry, d: Image): (r: seq<Image>)
    requires WellFormed(g, d)
    ensures |r| == |HeadList(d[g.start])| + 1
    ensures forall k | 0 <= k < |r| :: r[k] == RecoverImage(g, d, k + 1)
  {
    var lh := HeadList(d[g.start]);
    InstallTrace(g, d, lh, |lh|) + [WriteHeadImage(g, Install(g, d, lh, |lh|), [])]
  }

  // ---- Crash atomicity ----

  /** An image whose header lists `lh` recovers to the logged contents at the
      logged blocks and to its own contents elsewhere. */
  lemma RecoveredAt(g: Geometry, d: Image, lh: seq<nat>)
    requires WellFormed(g, d) && HeadList(d[g.start]) == lh
    ensures |Recovered(g, d)| == g.nblocks
    ensures forall i | 0 <= i < |lh| :: Recovered(g, d)[lh[i]] == d[g.start + 1 + i]
    ensures forall x | 0 <= x < |d| && x !in lh :: Recovered(g, d)[x] == d[x]
  {
    InstallAt(g, d, lh, |lh|);
    assert lh[..|lh|] == lh;
  }

  /** Installing part of the log again changes nothing that recovery yields. */
  lemma InstallIdempotent(g: Geometry, d: Image, k: nat)
    requires WellFormed(g, d) && k <= |HeadList(d[g.start])|
    ensures var e := Install(g, d, HeadList(d[g.start]), k);
            WellFormed(g, e) && HeadList(e[g.start]) == HeadList(d[g.start])
            && SameHome(g, Recovered(g, e), Recovered(g, d))
  {
    var lh := HeadList(d[g.start]);
    var e := Install(g, d, lh, k);
    InstallAt(g, d, lh, k);
    assert forall y | g.start <= y <= g.start + |lh| :: y !in lh[..k] && e[y] == d[y];
    RecoveredAt(g, d, lh);
    RecoveredAt(g, e, lh);
    forall x | 0 <= x < g.nblocks && IsHome(g, x)
      ensures Recovered(g, e)[x] == Recovered(g, d)[x]
    {
      if x in lh {
        var i :| 0 <= i < |lh| && lh[i] == x;
        assert Recovered(g, e)[lh[i]] == e[g.start + 1 + i];
        assert Recovered(g, d)[lh[i]] == d[g.start + 1 + i];
      } else {
        assert x !in lh[..k];
      }
    }
  }

  /** Clearing the header of a fully installed log keeps every home block. */
  lemma ClearHead(g: Geometry, d: Image)
    requires Fits(g) && |d| == g.nblocks
    ensures var e := WriteHeadImage(g, d, []);
            WellFormed(g, e) && HeadList(e[g.start]) == [] && SameHome(g, e, d) && Recovered(g, e) == e
  {
    HeadRoundTrip(d[g.start], []);
  }

  /** Every image recovery passes through recovers to the same contents, and the
      last one has them in place with an empty log. */
  lemma RecoveryStep(g: Geometry, d: Image, k: nat)
    requires WellFormed(g, d) && k <= |HeadList(d[g.start])| + 1
    ensures var e := RecoverImage(g, d, k);
            WellFormed(g, e) && SameHome(g, Recovered(g, e), Recovered(g, d))
            && (k == |HeadList(d[g.start])| + 1 ==>
                  HeadList(e[g.start]) == [] && SameHome(g, e, Recovered(g, d)))
  {
    if k <= |HeadList(d[g.start])| {
      InstallIdempotent(g, d, k);
    } else {
      ClearHead(g, Recovered(g, d));
    }
  }

  /** A commit is entered with an empty log on disk and a cache that differs from
      the disk in logged blocks only. */
  predicate ReadyToCommit(g: Geometry, d: Image, mem: Image, lh: seq<nat>) {
    && WellFormed(g, d) && HeadList(d[g.start]) == []
    && |mem| == |d| && ValidList(g, lh)
    && forall b | 0 <= b < |d| && b !in lh :: mem[b] == d[b]
  }

  /** Logging one more block, or one already listed, leaves the log ready. */
  lemma LoggedReady(g: Geometry, d: Image, mem: Image, lh: seq<nat>, b: nat, data: Block)
    requires ReadyToCommit(g, d, mem, lh) && IsHome(g, b) && |lh| < LOGSIZE && |lh| < g.size - 1
    ensures b < |mem|
    ensures ReadyToCommit(g, d, mem[b := data], if b in lh then lh else lh + [b])
  {
    hide GetWord, HeadList;
  }

  /** The image the header write leaves recovers to the cached contents. */
  lemma CommitPoint(g: Geometry, d: Image, mem: Image, lh: seq<nat>)
    requires ReadyToCommit(g, d, mem, lh)
    ensures var e := WriteHeadImage(g, LogCopy(g, d, mem, lh, |lh|), lh);
            WellFormed(g, e) && HeadList(e[g.start]) == lh && SameHome(g, Recovered(g, e), mem)
  {
    var e := WriteHeadImage(g, LogCopy(g, d, mem, lh, |lh|), lh);
    LogCopyAt(g, d, mem, lh, |lh|);
    HeadRoundTrip(LogCopy(g, d, mem, lh, |lh|)[g.start], lh);
    RecoveredAt(g, e, lh);
    forall x | 0 <= x < g.nblocks && IsHome(g, x)
      ensures Recovered(g, e)[x] == mem[x]
    {
      if x in lh {
        var i :| 0 <= i < |lh| && lh[i] == x;
        assert Recovered(g, e)[lh[i]] == e[g.start + 1 + i] == mem[lh[i]];
      }
    }
  }

  /** After any number of the commit's block writes the disk recovers either to
      the old contents or to the new ones; write number n + 1 is the switch. */
  lemma CommitStep(g: Geometry, d: Image, mem: Image, lh: seq<nat>, k: nat)
    requires ReadyToCommit(g, d, mem, lh) && k <= 2 * |lh| + 2
    ensures var e := CommitImage(g, d, mem, lh, k);
            WellFormed(g, e) && SameHome(g, Recovered(g, e), if k <= |lh| then d else mem)
  {
    var n := |lh|;
    if k <= n {
      LogCopyAt(g, d, mem, lh, k);
      assert LogCopy(g, d, mem, lh, k)[g.start] == d[g.start];
      RecoveredAt(g, LogCopy(g, d, mem, lh, k), []);
    } else {
      var committed := WriteHeadImage(g, LogCopy(g, d, mem, lh, n), lh);
      CommitPoint(g, d, mem, lh);
      RecoveryStep(g, committed, k - n - 1);
    }
  }

  /** The last image of a commit holds the new contents, with an empty log. */
  lemma CommitCompletes(g: Geometry, d: Image, mem: Image, lh: seq<nat>)
    requires ReadyToCommit(g, d, mem, lh)
    ensures var e := CommitImage(g, d, mem, lh, 2 * |lh| + 2);
            WellFormed(g, e) && HeadList(e[g.start]) == [] && SameHome(g, e, mem)
  {
    CommitPoint(g, d, mem, lh);
    RecoveryStep(g, WriteHeadImage(g, LogCopy(g, d, mem, lh, |lh|), lh), |lh| + 1);
  }

  lemma HeadOnly(g: Geometry, d: Image, lh: seq<nat>)
    requires Fits(g) && |d| == g.nblocks && ValidList(g, lh)
    ensures var e := WriteHeadImage(g, d, lh); e == d[g.start := e[g.start]]
  {
  }

  lemma CommitTraceParts(g: Geometry, d: Image, mem: Image, lh: seq<nat>, t: seq<Image>)
    requires Fits(g) && |d| == |mem| == g.nblocks && ValidList(g, lh)
    ensures var n := |lh|;
            var committed := WriteHeadImage(g, LogCopy(g, d, mem, lh, n), lh);
            var cleared := WriteHeadImage(g, Install(g, committed, lh, n), []);
            && CommitImage(g, d, mem, lh, 2 * n + 2) == cleared
            && t + CommitTrace(g, d, mem, lh)
                 == t + LogCopyTrace(g, d, mem, lh, n) + [committed]
                      + InstallTrace(g, committed, lh, n) + [cleared]
  {
    hide GetWord, SetWord, PutHead, Install, LogCopy, WriteHeadImage, InstallTrace, LogCopyTrace;
    var n := |lh|;
    var committed := WriteHeadImage(g, LogCopy(g, d, mem, lh, n), lh);
    var cleared := WriteHeadImage(g, Install(g, committed, lh, n), []);
    Append4(t, LogCopyTrace(g, d, mem, lh, n), [committed], InstallTrace(g, committed, lh, n), [cleared]);
  }

  lemma Append4<T>(t: seq<T>, a: seq<T>, b: seq<T>, c: seq<T>, d: seq<T>)
    ensures t + (a + b + c + d) == t + a + b + c + d
  {
  }

  /** One attempt at recovery, cut short after `crash` block writes (or finished). */
  function RecoverOnce(g: Geometry, d: Image, crash: nat): Image
    requires WellFormed(g, d)
  {
    var all := |HeadList(d[g.start])| + 1;
    RecoverImage(g, d, if crash < all then crash else all)
  }

  /** Recovery attempted once for each entry of `crashes`, then run to its end. */
  function RecoverThroughCrashes(g: Geometry, d: Image, crashes: seq<nat>): Image
    requires WellFormed(g, d)
    decreases |crashes|
  {
    if crashes == [] then RecoverImage(g, d, |HeadList(d[g.start])| + 1)
    else
      RecoveryStep(g, d, if crashes[0] <= |HeadList(d[g.start])| then crashes[0]
                         else |HeadList(d[g.start])| + 1);
      RecoverThroughCrashes(g, RecoverOnce(g, d, crashes[0]), crashes[1..])
  }

  lemma {:induction false} RecoveryConverges(g: Geometry, d: Image, crashes: seq<nat>)
    requires WellFormed(g, d)
    ensures var e := RecoverThroughCrashes(g, d, crashes);
            WellFormed(g, e) && HeadList(e[g.start]) == [] && SameHome(g, e, Recovered(g, d))
    decreases |crashes|
  {
    var all := |HeadList(d[g.start])| + 1;
    if crashes == [] {
      RecoveryStep(g, d, all);
    } else {
      RecoveryStep(g, d, if crashes[0] < all then crashes[0] else all);
      RecoveryConverges(g, RecoverOnce(g, d, crashes[0]), crashes[1..]);
    }
  }

  /** Crash a commit after any block write, crash its recovery any number of
      times: the completed recovery leaves every home block at its old contents
      when the header had not been written yet, and every home block at its new
      contents when it had. */
  lemma CrashAtomicity(g: Geometry, d: Image, mem: Image, lh: seq<nat>, k: nat, crashes: seq<nat>)
    requires ReadyToCommit(g, d, mem, lh) && k <= 2 * |lh| + 2
    ensures WellFormed(g, CommitImage(g, d, mem, lh, k))
    ensures var e := RecoverThroughCrashes(g, CommitImage(g, d, mem, lh, k), crashes);
            WellFormed(g, e) && HeadList(e[g.start]) == []
            && SameHome(g, e, if k <= |lh| then d else mem)
  {
    CommitStep(g, d, mem, lh, k);
    RecoveryConverges(g, CommitImage(g, d, mem, lh, k), crashes);
  }

  // ---- The log in memory ----

  class LogState {
    const g: Geometry
    var disk: Image            // memdisk
    var mem: Image             // what bread returns for each block
    var lh: seq<nat>           // lh.block[0..lh.n]
    var outstanding: int
    var committing: bool
    ghost var trace: seq<Image>  // the disk after each block write so far

    ghost predicate Valid()
      reads this
    {
      ReadyToCommit(g, disk, mem, lh)
    }

    /** A log over a freshly booted machine: nothing cached, nothing logged. */
    constructor (g: Geometry, disk: Image)
      requires WellFormed(g, disk)
      ensures this.g == g && this.disk == this.mem == disk && trace == []
      ensures lh == [] && outstanding == 0 && !committing
    {
      this.g, this.disk, this.mem := g, disk, disk;
      lh, outstanding, committing, trace := [], 0, false, [];
    }

    /** bwrite: the one atomic step that changes the disk. */
    method BWrite(b: nat, data: Block)
      requires b < |disk| == |mem|
      modifies this`disk, this`mem, this`trace
      ensures disk == old(disk)[b := data] && mem == old(mem)[b := data]
      ensures trace == old(trace) + [disk]
    {
      disk, mem := disk[b := data], mem[b := data];
      trace := trace + [disk];
    }

    method WriteHead()
      requires Fits(g) && |disk| == |mem| == g.nblocks && ValidList(g, lh)
      requires mem[g.start] == disk[g.start]
      modifies this`disk, this`mem, this`trace
      ensures disk == WriteHeadImage(g, old(disk), lh)
      ensures mem == old(mem)[g.start := disk[g.start]]
      ensures trace == old(trace) + [disk]
    {
      var buf := SetWord(mem[g.start], 0, |lh|);
      var i := 0;
      while i < |lh|
        invariant 0 <= i <= |lh|
        invariant buf == PutHead(mem[g.start], lh, i)
      {
        buf := SetWord(buf, i + 1, lh[i]);
        i := i + 1;
      }
      BWrite(g.start, buf);
    }

    method ReadHead()
      requires WellFormed(g, disk) && |mem| == |disk| && mem[g.start] == disk[g.start]
      modifies this`lh
      ensures lh == HeadList(disk[g.start])
    {
      var n := GetWord(mem[g.start], 0);
      lh := [];
      var i := 0;
      while i < n
        invariant 0 <= i <= n
        invariant lh == HeadList(disk[g.start])[..i]
      {
        lh := lh + [GetWord(mem[g.start], i + 1)];
        i := i + 1;
      }
    }

    method WriteLog()
      requires Valid()
      modifies this`disk, this`mem, this`trace
      ensures |disk| == |mem| == g.nblocks
      ensures disk == LogCopy(g, old(disk), old(mem), lh, |lh|)
      ensures forall b | 0 <= b < |disk| && b !in lh :: mem[b] == disk[b]
      ensures forall b | 0 <= b < |disk| && b in lh :: mem[b] == old(mem[b])
      ensures trace == old(trace) + LogCopyTrace(g, old(disk), old(mem), lh, |lh|)
    {
      var tail := 0;
      while tail < |lh|
        invariant 0 <= tail <= |lh|
        invariant |mem| == |disk| == g.nblocks
        invariant disk == LogCopy(g, old(disk), old(mem), lh, tail)
        invariant forall b | 0 <= b < |disk| && b !in lh :: mem[b] == disk[b]
        invariant forall b | 0 <= b < |disk| && b in lh :: mem[b] == old(mem[b])
        invariant trace == old(trace) + LogCopyTrace(g, old(disk), old(mem), lh, tail)
      {
        BWrite(g.start + tail + 1, mem[lh[tail]]);
        tail := tail + 1;
      }
    }

    method InstallTrans()
      requires Fits(g) && |disk| == |mem| == g.nblocks && ValidList(g, lh)
      requires forall b | 0 <= b < |disk| && b !in lh :: mem[b] == disk[b]
      modifies this`disk, this`mem, this`trace
      ensures disk == mem == Install(g, old(disk), lh, |lh|)
      ensures trace == old(trace) + InstallTrace(g, old(disk), lh, |lh|)
    {
      var tail := 0;
      while tail < |lh|
        invariant 0 <= tail <= |lh|
        invariant |mem| == |disk| == g.nblocks
        invariant disk == Install(g, old(disk), lh, tail)
        invariant forall b | 0 <= b < |disk| && b !in lh[tail..] :: mem[b] == disk[b]
        invariant trace == old(trace) + InstallTrace(g, old(disk), lh, tail)
      {
        assert lh[tail..] == [lh[tail]] + lh[tail + 1..];
        BWrite(lh[tail], mem[g.start + tail + 1]);
        tail := tail + 1;
      }
      assert lh[|lh|..] == [];
    }

    /** recover_from_log: every write it makes is one of the recovery images, and
        it ends with the recovered contents in place and an empty log. */
    method RecoverFromLog()
      requires WellFormed(g, disk) && mem == disk
      modifies this`disk, this`mem, this`trace, this`lh
      ensures Valid() && lh == [] && mem == disk
      ensures SameHome(g, disk, Recovered(g, old(disk)))
      ensures trace == old(trace) + RecoverTrace(g, old(disk))
    {
      ReadHead();
      ghost var n := |lh|;
      RecoveryStep(g, disk, n + 1);
      InstallTrans();
      lh := [];
      WriteHead();
    }

    /** commit: the disk passes through exactly the commit images, and afterwards
        the cached contents are in place, the log empty and the cache clean. */
    method Commit()
      requires Valid()
      modifies this`disk, this`mem, this`trace, this`lh
      ensures Valid() && lh == [] && mem == disk
      ensures SameHome(g, disk, old(mem))
      ensures old(lh) == [] ==> trace == old(trace) && disk == old(disk)
      ensures old(lh) != [] ==>
                trace == old(trace) + CommitTrace(g, old(disk), old(mem), old(lh))
    {
      if |lh| > 0 {
        CommitList();
      }
    }

    /** commit, when there is something in the list. */
    method CommitList()
      requires Valid() && lh != []
      modifies this`disk, this`mem, this`trace, this`lh
      ensures Valid() && lh == [] && mem == disk
      ensures SameHome(g, disk, old(mem))
      ensures trace == old(trace) + CommitTrace(g, old(disk), old(mem), old(lh))
    {
      hide GetWord, SetWord, PutHead, HeadList, Install, LogCopy, CommitTrace, CommitImage,
           Recovered, SameHome, WriteHeadImage, InstallTrace, LogCopyTrace;
      ghost var d, m, l := disk, mem, lh;
      CommitCompletes(g, d, m, l);
      CommitTraceParts(g, d, m, l, trace);
      LogCopyAt(g, d, m, l, |l|);
      WriteLog();
      HeadOnly(g, disk, lh);
      WriteHead();
      InstallTrans();
      lh := [];
      HeadOnly(g, disk, lh);
      WriteHead();
    }

    /** log_write of a buffer whose new contents are `data`. The two guards are
        tested before the search for an entry to absorb the block into. */
    method LogWrite(b: nat, data: Block) returns (panicked: bool)
      requires Valid() && IsHome(g, b)
      modifies this`mem, this`lh
      ensures Valid()
      ensures panicked <==> |old(lh)| >= LOGSIZE || |old(lh)| >= g.size - 1 || outstanding < 1
      ensures panicked ==> lh == old(lh) && mem == old(mem)
      ensures !panicked ==> mem == old(mem)[b := data]
      ensures !panicked ==> lh == if b in old(lh) then old(lh) else old(lh) + [b]
    {
      if |lh| >= LOGSIZE || |lh| >= g.size - 1 {
        return true;
      }
      if outstanding < 1 {
        return true;
      }
      LoggedReady(g, disk, mem, lh, b, data);
      hide ReadyToCommit;
      var i := 0;
      while i < |lh| && lh[i] != b
        invariant 0 <= i <= |lh|
        invariant b !in lh[..i]
      {
        i := i + 1;
      }
      if i == |lh| {
        assert b !in lh;
        lh := lh + [b];
      } else {
        assert lh[i := b] == lh;
        lh := lh[i := b];
      }
      mem := mem[b := data];
      return false;
    }

    /** One pass of begin_op's loop: admit the operation, or leave it waiting. */
    method TryBeginOp() returns (admitted: bool)
      modifies this`outstanding
      ensures admitted <==> !committing && |lh| + (old(outstanding) + 1) * MAXOPBLOCKS <= LOGSIZE
      ensures outstanding == old(outstanding) + (if admitted then 1 else 0)
    {
      if committing {
        return false;
      } else if |lh| + (outstanding + 1) * MAXOPBLOCKS > LOGSIZE {
        return false;
      } else {
        outstanding := outstanding + 1;
        return true;
      }
    }

    /** end_op: the last operation to end commits what all of them logged. */
    method EndOp() returns (panicked: bool)
      requires Valid() && outstanding >= 1
      modifies this
      ensures panicked <==> old(committing)
      ensures outstanding == old(outstanding) - 1
      ensures Valid()
      ensures !panicked && outstanding == 0 ==>
                lh == [] && mem == disk && SameHome(g, disk, old(mem)) && !committing
      ensures trace == old(trace) + if !panicked && outstanding == 0 && old(lh) != []
                                    then CommitTrace(g, old(disk), old(mem), old(lh)) else []
      ensures panicked || outstanding != 0 ==>
                lh == old(lh) && mem == old(mem) && disk == old(disk) && committing == old(committing)
      ensures old(lh) == [] ==> disk == old(disk)
    {
      outstanding := outstanding - 1;
      if committing {
        return true;
      }
      if outstanding == 0 {
        committing := true;
        Commit();
        committing := false;
      }
      return false;
    }
  }
}
