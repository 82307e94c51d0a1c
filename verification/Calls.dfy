/** File-system calls made one at a time: begin_op, a log_write of each block that
    the call has changed, end_op, and the commit. What a call logs is all that it
    changes, so such calls come to whole operations on the cached disk; and every
    sequence of transactions within the budget has such a run. */
module Calls {
  import opened Disk
  import opened FileSystem
  import opened InodeTable
  import opened OnDisk
  import opened Mkfs
  import Log
  import Namei
  import Protocol = LogProtocol
  import FsRuns

  // ---- What one call leaves in the cache ----

  /** Where `f` has something in block `b`, it is `x`. */
  ghost predicate BlockHolds(sb: Super, f: Fs, b: nat, x: Block) {
    && (sb.nmeta <= b < |f.data| ==> x == f.data[b])
    && (forall i: nat | i < |f.dinode| && IBlock(sb, i) == b :: Stands(RecordAt(x, i % IPB), f.dinode[i]))
    && (forall k: nat | k < |f.bitmap| && sb.bmapstart + k / BSIZE == b :: x[k % BSIZE] == f.bitmap[k] as int)
  }

  lemma ChangesSized(sb: Super, n: nat, f: Fs, h: Fs, l: set<nat>)
    requires Sized(sb, n, f) && ChangesOnly(sb, f, h, l)
    ensures Sized(sb, n, h)
  {
  }

  /** When the logged blocks have their new bytes and all others those they had,
      the file system with the changes is held. */
  lemma ChangesHeld(sb: Super, n: nat, d: Image, e: Image, f: Fs, h: Fs, l: set<nat>)
    requires Holds(sb, n, d, f) && ChangesOnly(sb, f, h, l) && |e| == |d|
    requires forall b: nat | b < |d| && b !in l :: e[b] == d[b]
    requires forall b: nat | b < |d| && b in l :: BlockHolds(sb, h, b, e[b])
    ensures Holds(sb, n, e, h)
  {
    hide Stands, RecordAt, IBlock, BitmapBytes;
    forall i: nat | i < n ensures IBlock(sb, i) < |e| && Stands(RecordAt(e[IBlock(sb, i)], i % IPB), h.dinode[i]) {
      assert IBlock(sb, i) in l ==> BlockHolds(sb, h, IBlock(sb, i), e[IBlock(sb, i)]);
    }
    forall k: nat | k < |h.bitmap|
      ensures sb.bmapstart + k / BSIZE < |e| && e[sb.bmapstart + k / BSIZE][k % BSIZE] == h.bitmap[k] as int
    {
      var b := sb.bmapstart + k / BSIZE;
      assert b in l ==> BlockHolds(sb, h, b, e[b]);
    }
    forall b | sb.nmeta <= b < sb.size ensures e[b] == h.data[b] {
      assert b in l ==> BlockHolds(sb, h, b, e[b]);
    }
  }

  // ---- Runs of one call at a time ----

  ghost predicate OneAtATime(run: seq<Protocol.State>) {
    forall i, p, q | 0 <= i < |run| && 0 <= p < q < |run[i].ops| :: run[i].ops[p].Idle? || run[i].ops[q].Idle?
  }

  /** At `k` process `p` is in the call that it began at `m`. */
  predicate InCall(run: seq<Protocol.State>, steps: seq<Protocol.Step>, m: nat, k: nat, p: nat) {
    && m < k < |run| == |steps| + 1 && Quiet(run[m]) && steps[m] == Protocol.BeginOp(p)
    && forall t | m < t < k :: steps[t].LogWrite? && steps[t].p == p
  }

  /** The call made of `f` the transaction `h`: the blocks written are those that
      it logs, each with its new bytes. */
  ghost predicate CallDoes(sb: Super, f: Fs, h: Fs, s: Protocol.State, p: nat) {
    && FsRuns.Does(sb, f, h) && p < |s.ops| && s.ops[p].Active? && s.ops[p].logged == h.logged
    && forall b | b in h.logged && b < |s.mem| :: BlockHolds(sb, h, b, s.mem[b])
  }

  /** Every call that ends is a transaction on what the cache held at its beginning. */
  ghost predicate CallsDo(sb: Super, n: nat, run: seq<Protocol.State>, steps: seq<Protocol.Step>) {
    forall m: nat, k: nat, p: nat, f |
      && InCall(run, steps, m, k, p) && k < |steps| && steps[k] == Protocol.EndOp(p)
      && Holds(sb, n, run[m].mem, f) && FsRuns.Inv(sb, f) ::
      exists h :: CallDoes(sb, f, h, run[k], p)
  }

  /** One step of a run. */
  predicate IsStep(g: Log.Geometry, s: Protocol.State, t: Protocol.Step, s': Protocol.State) {
    Protocol.Shape(g, s) && Protocol.Enabled(g, s, t) && s' == Protocol.Do(g, s, t)
  }

  lemma RunLength(g: Log.Geometry, run: seq<Protocol.State>, steps: seq<Protocol.Step>)
    requires Protocol.IsRun(g, run, steps)
    ensures |run| == |steps| + 1
  {
  }

  lemma StepOf(g: Log.Geometry, run: seq<Protocol.State>, steps: seq<Protocol.Step>, k: nat)
    requires Protocol.IsRun(g, run, steps) && k < |steps|
    ensures k + 1 < |run| && IsStep(g, run[k], steps[k], run[k + 1])
    ensures Protocol.Inv(g, run[k]) && Protocol.Inv(g, run[k + 1])
  {
    Protocol.RunInv(g, run, steps, k);
    Protocol.RunInv(g, run, steps, k + 1);
    hide Protocol.Init, Protocol.Inv, Protocol.Shape, Protocol.Enabled, Protocol.Do;
  }

  /** Only process `p` is active, and since `d` only what it has logged has changed. */
  predicate Alone(s: Protocol.State, p: nat, d: Image) {
    && |s.mem| == |d| && p < |s.ops| && s.ops[p].Active?
    && (forall q | 0 <= q < |s.ops| && q != p :: s.ops[q].Idle?)
    && (forall b: nat | b < |d| && b !in s.ops[p].logged :: s.mem[b] == d[b])
  }

  lemma BeginsAlone(g: Log.Geometry, s: Protocol.State, t: Protocol.Step, s': Protocol.State)
    requires IsStep(g, s, t, s') && Quiet(s) && t.BeginOp?
    ensures 0 <= t.p && Alone(s', t.p, s.mem)
  {
    hide Protocol.Shape;
  }

  lemma LogsAlone(g: Log.Geometry, s: Protocol.State, t: Protocol.Step, s': Protocol.State, p: nat, d: Image)
    requires IsStep(g, s, t, s') && Alone(s, p, d) && t.LogWrite?
    ensures t.p == p && Alone(s', p, d)
  {
    assert t.block < |s.mem|;
    hide Protocol.Shape;
    assert s'.ops[p].logged == s.ops[p].logged + {t.block} && |s'.mem| == |s.mem|;
  }

  lemma {:induction false} CallFrame(g: Log.Geometry, run: seq<Protocol.State>, steps: seq<Protocol.Step>,
                                     m: nat, k: nat, p: nat)
    requires Protocol.IsRun(g, run, steps) && InCall(run, steps, m, k, p)
    ensures Alone(run[k], p, run[m].mem)
  {
    hide Protocol.IsRun, Alone, IsStep, Quiet;
    StepOf(g, run, steps, k - 1);
    if k == m + 1 {
      BeginsAlone(g, run[m], steps[m], run[k]);
    } else {
      CallFrame(g, run, steps, m, k - 1, p);
      LogsAlone(g, run[k - 1], steps[k - 1], run[k], p, run[m].mem);
    }
  }

  /** When calls come one at a time, every moment since a quiet one is quiet or in
      a call. */
  lemma {:induction false} QuietOrInCall(g: Log.Geometry, run: seq<Protocol.State>, steps: seq<Protocol.Step>,
                                         j: nat, k: nat)
    returns (m: nat, p: nat)
    requires Protocol.IsRun(g, run, steps) && OneAtATime(run)
    requires j <= k < |run| && Quiet(run[j]) && NoCrash(steps, j, k)
    ensures Quiet(run[k]) || (j <= m && InCall(run, steps, m, k, p))
  {
    hide Protocol.IsRun, Alone, IsStep, Quiet, Protocol.Inv, OneAtATime, InCall, NoCrash;
    m, p := j, 0;
    if j < k {
      RunLength(g, run, steps);
      var s, t, s' := run[k - 1], steps[k - 1], run[k];
      NoCrashYet(steps, j, k);
      m, p := QuietOrInCall(g, run, steps, j, k - 1);
      StepOf(g, run, steps, k - 1);
      if Quiet(s) {
        QuietStep(g, s, t, s');
        if t.BeginOp? {
          m, p := k - 1, t.p;
          CallBegins(run, steps, k - 1);
        }
      } else {
        InCallBounds(run, steps, m, k - 1, p);
        CallFrame(g, run, steps, m, k - 1, p);
        CallStep(g, s, t, s', p, run[m].mem);
        NotTwo(run, k);
        CallGoesOn(run, steps, m, k - 1, p);
      }
    }
  }

  lemma NoCrashYet(steps: seq<Protocol.Step>, j: nat, k: nat)
    requires NoCrash(steps, j, k) && j < k <= |steps|
    ensures NoCrash(steps, j, k - 1) && !steps[k - 1].Crash?
  {
  }

  lemma InCallBounds(run: seq<Protocol.State>, steps: seq<Protocol.Step>, m: nat, k: nat, p: nat)
    requires InCall(run, steps, m, k, p)
    ensures m < k < |run|
  {
  }

  lemma CallBegins(run: seq<Protocol.State>, steps: seq<Protocol.Step>, m: nat)
    requires m < |steps| == |run| - 1 && Quiet(run[m]) && steps[m].BeginOp? && 0 <= steps[m].p
    ensures InCall(run, steps, m, m + 1, steps[m].p)
  {
  }

  lemma CallGoesOn(run: seq<Protocol.State>, steps: seq<Protocol.Step>, m: nat, k: nat, p: nat)
    requires InCall(run, steps, m, k, p) && k < |steps|
    ensures steps[k].LogWrite? && steps[k].p == p ==> InCall(run, steps, m, k + 1, p)
  {
  }

  predicate Two(s: Protocol.State) {
    exists p, q :: 0 <= p < q < |s.ops| && s.ops[p].Active? && s.ops[q].Active?
  }

  lemma NotTwo(run: seq<Protocol.State>, k: nat)
    requires OneAtATime(run) && k < |run|
    ensures !Two(run[k])
  {
  }

  /** With one process in a call, it goes on, ends, or another call begins. */
  lemma CallStep(g: Log.Geometry, s: Protocol.State, t: Protocol.Step, s': Protocol.State, p: nat, d: Image)
    requires IsStep(g, s, t, s') && Protocol.Inv(g, s) && Alone(s, p, d) && !t.Crash?
    ensures Two(s') || (t.LogWrite? && t.p == p && !Quiet(s')) || (t.EndOp? && t.p == p && Quiet(s') && s'.mem == s.mem)
  {
    if !s.phase.Running? {
      Protocol.CommitFreezesLog(g, s, t);
      assert false;
    }
    hide Protocol.Inv, Protocol.Shape;
    if t.BeginOp? {
      var a, b := if t.p < p then t.p else p, if t.p < p then p else t.p;
      assert s'.ops[a].Active? && s'.ops[b].Active?;
    } else if t.LogWrite? {
      assert s'.ops[p].Active?;
    }
  }

  /** From a quiet moment, a call begins or all stays quiet. */
  lemma QuietStep(g: Log.Geometry, s: Protocol.State, t: Protocol.Step, s': Protocol.State)
    requires IsStep(g, s, t, s') && !t.Crash? && Quiet(s)
    ensures if t.BeginOp? then 0 <= t.p && !Quiet(s') else Quiet(s') && s'.hist == s.hist && s'.start == s.start
  {
    hide Protocol.Shape;
    assert t.BeginOp? ==> s'.ops[t.p].Active?;
  }

  /** Except in recovery, the cache holds all updates so far. */
  lemma CacheHolds(g: Log.Geometry, s: Protocol.State)
    requires Protocol.Inv(g, s) && !s.phase.Recovering?
    ensures Log.SameHome(g, s.mem, Protocol.Replay(s.start, s.hist))
  {
    hide Protocol.Replay, Protocol.OpsInv, Protocol.NamesInv, Protocol.LogHolds;
    assert s.hist[..|s.hist|] == s.hist;
  }

  lemma SameCache(g: Log.Geometry, s: Protocol.State, t: Protocol.State)
    requires Protocol.Inv(g, s) && Protocol.Inv(g, t) && Quiet(s) && Quiet(t)
    requires s.start == t.start && s.hist == t.hist
    ensures Log.SameHome(g, s.mem, t.mem)
  {
    CacheHolds(g, s);
    CacheHolds(g, t);
    hide Protocol.Inv, Protocol.Replay;
  }

  /** From one quiet moment to another, operations lead. */
  lemma {:induction false} SerialLeads(g: Log.Geometry, sb: Super, n: nat, run: seq<Protocol.State>,
                                       steps: seq<Protocol.Step>, j: nat, k: nat, f: Fs)
    returns (h: Fs)
    requires Protocol.IsRun(g, run, steps) && OneAtATime(run) && CallsDo(sb, n, run, steps) && Placed(g, sb, n)
    requires j <= k < |run| && Quiet(run[j]) && Quiet(run[k]) && NoCrash(steps, j, k)
    requires Holds(sb, n, run[j].mem, f) && FsRuns.Inv(sb, f)
    ensures Holds(sb, n, run[k].mem, h) && FsRuns.Leads(sb, f, h)
    decreases k
  {
    hide Holds, FsRuns.Inv, FsRuns.Leads, Placed, Protocol.Inv, Protocol.IsRun, OneAtATime, CallDoes, IsStep, Alone,
         Quiet;
    h := f;
    FsRuns.LeadsNowhere(sb, f);
    if j < k {
      RunLength(g, run, steps);
      StepOf(g, run, steps, k - 1);
      var s, t, s' := run[k - 1], steps[k - 1], run[k];
      var m, p := QuietOrInCall(g, run, steps, j, k - 1);
      if Quiet(s) {
        h := SerialLeads(g, sb, n, run, steps, j, k - 1, f);
        QuietStep(g, s, t, s');
        SameCache(g, s, s');
        HomesHold(g, sb, n, s.mem, s'.mem, h);
      } else {
        CallFrame(g, run, steps, m, k - 1, p);
        CallStep(g, s, t, s', p, run[m].mem);
        QuietNotTwo(s');
        var e := SerialLeads(g, sb, n, run, steps, j, m, f);
        FsRuns.LeadsInv(sb, f, e);
        assert InCall(run, steps, m, k - 1, p) && steps[k - 1] == Protocol.EndOp(p);
        h :| CallDoes(sb, e, h, s, p);
        CallHeld(sb, n, run[m].mem, s, p, e, h);
        FsRuns.LeadsOn(sb, f, e, h);
      }
    }
  }

  lemma QuietNotTwo(s: Protocol.State)
    requires Quiet(s)
    ensures !Two(s)
  {
  }

  lemma CallHeld(sb: Super, n: nat, d: Image, s: Protocol.State, p: nat, f: Fs, h: Fs)
    requires Holds(sb, n, d, f) && FsRuns.Inv(sb, f) && CallDoes(sb, f, h, s, p) && Alone(s, p, d)
    ensures Holds(sb, n, s.mem, h) && FsRuns.Leads(sb, f, h)
  {
    hide Holds, FsRuns.Inv, FsRuns.Leads, FsRuns.Does, BlockHolds, ChangesOnly;
    FsRuns.DoesLogs(sb, f, h);
    ChangesHeld(sb, n, d, s.mem, f, h, h.logged);
  }

  /** Calls made one at a time are whole file-system operations. */
  lemma SerialCalls(g: Log.Geometry, sb: Super, n: nat, run: seq<Protocol.State>, steps: seq<Protocol.Step>)
    requires Protocol.IsRun(g, run, steps) && OneAtATime(run) && CallsDo(sb, n, run, steps) && Placed(g, sb, n)
    ensures CallsAreOperations(sb, n, run, steps)
  {
    hide Protocol.IsRun, Holds, FsRuns.Inv, FsRuns.Leads, Placed, OneAtATime, CallsDo, Quiet, NoCrash;
    forall j, k, f |
      && 0 <= j <= k < |run| && Quiet(run[j]) && Quiet(run[k]) && NoCrash(steps, j, k)
      && Holds(sb, n, run[j].mem, f) && FsRuns.Inv(sb, f)
      ensures exists h :: Holds(sb, n, run[k].mem, h) && FsRuns.Leads(sb, f, h)
    {
      var h := SerialLeads(g, sb, n, run, steps, j, k, f);
    }
  }

  /** So a crash at any point of such a run, and any recovery, leave a disk that
      holds what whole operations make of the file system of mkfs. */
  lemma CrashedCalls(g: Log.Geometry, sb: Super, n: nat, run: seq<Protocol.State>, steps: seq<Protocol.Step>,
                     i: nat, crashes: seq<nat>)
    requires Protocol.IsRun(g, run, steps) && i < |run| && OneAtATime(run) && CallsDo(sb, n, run, steps)
    requires Placed(g, sb, n) && FsRuns.Makes(sb, n) && Holds(sb, n, run[0].disk, Root(sb, n))
    ensures Log.WellFormed(g, run[i].disk)
    ensures exists h ::
              && Holds(sb, n, Log.RecoverThroughCrashes(g, run[i].disk, crashes), h)
              && FsRuns.Leads(sb, Root(sb, n), h) && Good(sb, h) && Namei.Tree(sb, h)
  {
    SerialCalls(g, sb, n, run, steps);
    CrashedFileSystem(g, sb, n, run, steps, i, crashes);
  }

  // ---- Every sequence of transactions has such a run ----

  lemma BlockOfHolds(g: Log.Geometry, sb: Super, n: nat, f: Fs, b: nat)
    requires Placed(g, sb, n) && Sized(sb, n, f) && AllFit(f) && b < sb.size
    ensures BlockHolds(sb, f, b, BlockOf(sb, f, b))
  {
    hide Stands, RecordAt, Placed, IBlock, BitmapBytes, BitmapBlock, InodeBlock, InodeTable.Fits;
    forall i: nat | i < |f.dinode| && IBlock(sb, i) == b
      ensures Stands(RecordAt(BlockOf(sb, f, b), i % IPB), f.dinode[i])
    {
      InodesEncoded(g, sb, n, f, i);
    }
    forall k: nat | k < |f.bitmap| && sb.bmapstart + k / BSIZE == b
      ensures BlockOf(sb, f, b)[k % BSIZE] == f.bitmap[k] as int
    {
      BitsEncoded(g, sb, n, f, k);
    }
  }

  predicate LinksFit(f: Fs) {
    forall i | 0 <= i < |f.inode| :: -0x8000 <= f.inode[i].nlink < 0x8000
  }

  /** Sizes and block numbers fit their fields by themselves. */
  lemma NumbersFit(sb: Super, f: Fs)
    requires FsRuns.Inv(sb, f) && LinksFit(f)
    ensures AllFit(f)
  {
    InvMeans(sb, f);
    hide FsRuns.Inv;
    assert Sound(sb, f) && f.dinode == f.inode by {
      SoundOf(sb, f);
      StoredInodes(sb, f);
    }
    forall i: nat | i < |f.dinode| ensures InodeTable.Fits(f.dinode[i]) {
      forall j: nat | j < NDIRECT + 1 ensures f.inode[i].addrs[j] < 0x1_0000_0000 {
        var s := if j < NDIRECT then j else MAXFILE;
        SlotInRange(sb, f, i, s);
        assert SlotOf(f, i, s) == f.inode[i].addrs[j];
      }
    }
  }

  lemma StoredInodes(sb: Super, f: Fs)
    requires FsRuns.Inv(sb, f)
    ensures f.dinode == f.inode
  {
    hide Good;
  }

  lemma BlocksAreHome(g: Log.Geometry, sb: Super, n: nat, l: set<nat>)
    requires Placed(g, sb, n) && AreBlocks(sb, n, l)
    ensures forall b | b in l :: Log.IsHome(g, b) && b < sb.size
  {
  }

  lemma {:induction false} Listed(l: set<nat>) returns (bs: seq<nat>)
    ensures |bs| == |l| && (forall b :: b in bs <==> b in l)
    ensures forall i, j | 0 <= i < j < |bs| :: bs[i] != bs[j]
  {
    if l == {} {
      bs := [];
    } else {
      var b :| b in l;
      var rest := Listed(l - {b});
      bs := rest + [b];
    }
  }

  function Elements(bs: seq<nat>): set<nat> {
    set b | b in bs
  }

  lemma {:induction false} FewElements(bs: seq<nat>)
    ensures |Elements(bs)| <= |bs|
  {
    if bs == [] {
      assert Elements(bs) == {};
    } else {
      var n := |bs| - 1;
      FewElements(bs[..n]);
      assert bs == bs[..n] + [bs[n]];
      assert Elements(bs) == Elements(bs[..n]) + {bs[n]};
    }
  }

  lemma OneMore(bs: seq<nat>, k: nat)
    requires k < |bs| && forall i, j | 0 <= i < j < |bs| :: bs[i] != bs[j]
    ensures bs[..k + 1] == bs[..k] + [bs[k]] && bs[k] !in bs[..k]
    ensures Elements(bs[..k + 1]) == Elements(bs[..k]) + {bs[k]}
  {
  }

  // ---- Runs step by step ----

  /** A run of calls one at a time, each a transaction. */
  ghost predicate Serial(g: Log.Geometry, sb: Super, n: nat, run: seq<Protocol.State>, steps: seq<Protocol.Step>) {
    Protocol.IsRun(g, run, steps) && OneAtATime(run) && CallsDo(sb, n, run, steps)
  }

  lemma GoOn(g: Log.Geometry, sb: Super, n: nat, run: seq<Protocol.State>, steps: seq<Protocol.Step>,
             t: Protocol.Step, s': Protocol.State)
    requires Serial(g, sb, n, run, steps) && IsStep(g, run[|steps|], t, s') && !Two(s') && !t.EndOp?
    ensures Serial(g, sb, n, run + [s'], steps + [t])
  {
    Protocol.ExtendRun(g, run, steps, t);
    hide Protocol.IsRun, IsStep;
    StillOne(run, s');
    hide OneAtATime, Two, Holds, FsRuns.Inv, CallDoes;
    var run', steps' := run + [s'], steps + [t];
    forall m: nat, k: nat, p: nat, f |
      && InCall(run', steps', m, k, p) && k < |steps'| && steps'[k] == Protocol.EndOp(p)
      && Holds(sb, n, run'[m].mem, f) && FsRuns.Inv(sb, f)
      ensures exists h :: CallDoes(sb, f, h, run'[k], p)
    {
      assert k < |steps|;
      EarlierCall(run, steps, t, s', m, k, p);
    }
  }

  lemma StillOne(run: seq<Protocol.State>, s: Protocol.State)
    requires OneAtATime(run) && !Two(s)
    ensures OneAtATime(run + [s])
  {
  }

  lemma EarlierCall(run: seq<Protocol.State>, steps: seq<Protocol.Step>, t: Protocol.Step, s': Protocol.State,
                    m: nat, k: nat, p: nat)
    requires |run| == |steps| + 1 && InCall(run + [s'], steps + [t], m, k, p) && k < |run|
    ensures InCall(run, steps, m, k, p)
  {
    hide Quiet;
    forall i | m < i < k ensures steps[i].LogWrite? && steps[i].p == p {
      assert steps[i] == (steps + [t])[i];
    }
  }

  /** end_op of a call that has logged what its transaction changes. */
  lemma GoOnEnd(g: Log.Geometry, sb: Super, n: nat, run: seq<Protocol.State>, steps: seq<Protocol.Step>,
                m: nat, p: nat, f: Fs, h: Fs, s': Protocol.State)
    requires Serial(g, sb, n, run, steps) && IsStep(g, run[|steps|], Protocol.EndOp(p), s') && !Two(s')
    requires InCall(run, steps, m, |steps|, p) && Holds(sb, n, run[m].mem, f) && FsRuns.Inv(sb, f)
    requires CallDoes(sb, f, h, run[|steps|], p)
    ensures Serial(g, sb, n, run + [s'], steps + [Protocol.EndOp(p)])
  {
    var t := Protocol.EndOp(p);
    Protocol.ExtendRun(g, run, steps, t);
    hide Protocol.IsRun, IsStep;
    StillOne(run, s');
    hide OneAtATime, Two, Holds, FsRuns.Inv, CallDoes;
    var run', steps' := run + [s'], steps + [t];
    forall m': nat, k: nat, p': nat, e |
      && InCall(run', steps', m', k, p') && k < |steps'| && steps'[k] == Protocol.EndOp(p')
      && Holds(sb, n, run'[m'].mem, e) && FsRuns.Inv(sb, e)
      ensures exists h :: CallDoes(sb, e, h, run'[k], p')
    {
      EarlierCall(run, steps, t, s', m', k, p');
      if k == |steps| {
        assert steps'[k] == t;
        SameCall(run, steps, m, m', k, p);
        HeldOnce(sb, n, run[m].mem, f, e);
        SameDone(sb, f, e, h, run[k], p);
      } else {
        assert steps'[k] == steps[k];
      }
    }
  }

  lemma SameCall(run: seq<Protocol.State>, steps: seq<Protocol.Step>, m: nat, m': nat, k: nat, p: nat)
    requires InCall(run, steps, m, k, p) && InCall(run, steps, m', k, p)
    ensures m == m'
  {
  }

  lemma SameDone(sb: Super, f: Fs, e: Fs, h: Fs, s: Protocol.State, p: nat)
    requires CallDoes(sb, f, h, s, p) && e == f.(logged := e.logged)
    ensures CallDoes(sb, e, h, s, p)
  {
    hide BlockHolds, FsRuns.IsCall;
    assert e.(logged := {}) == f.(logged := {});
  }

  // ---- One call ----

  /** No call is under way and the log is empty. */
  predicate AtRest(s: Protocol.State) {
    s.phase.Running? && s.lh == [] && s.outstanding == 0 && Quiet(s)
  }

  /** Blocks that one call may log. */
  predicate Loggable(g: Log.Geometry, bs: seq<nat>) {
    && |bs| <= Log.MAXOPBLOCKS < g.size
    && (forall i | 0 <= i < |bs| :: Log.IsHome(g, bs[i]))
    && forall i, j | 0 <= i < j < |bs| :: bs[i] != bs[j]
  }

  /** The call of `p` has logged the first `k` blocks of the list, as `e` has them. */
  predicate LoggedTo(g: Log.Geometry, s: Protocol.State, p: nat, e: Image, bs: seq<nat>, k: nat)
    requires k <= |bs| && |e| == g.nblocks && Loggable(g, bs)
  {
    && s.phase.Running? && s.outstanding == 1 && s.lh == bs[..k]
    && p < |s.ops| && s.ops[p].Active? && s.ops[p].logged == Elements(bs[..k])
    && (forall q | 0 <= q < |s.ops| && q != p :: s.ops[q].Idle?)
    && |s.mem| == |e| && forall j | 0 <= j < k :: s.mem[bs[j]] == e[bs[j]]
  }

  lemma FirstStep(g: Log.Geometry, s: Protocol.State, p: nat, e: Image, bs: seq<nat>)
    requires Protocol.Inv(g, s) && AtRest(s) && p < |s.ops| && |e| == g.nblocks && Loggable(g, bs)
    ensures Protocol.Shape(g, s) && Protocol.Enabled(g, s, Protocol.BeginOp(p))
    ensures LoggedTo(g, Protocol.Do(g, s, Protocol.BeginOp(p)), p, e, bs, 0)
  {
    hide Protocol.DiskInv;
    assert Elements([]) == {};
  }

  lemma NextEnabled(g: Log.Geometry, s: Protocol.State, p: nat, e: Image, bs: seq<nat>, k: nat)
    requires Protocol.Inv(g, s) && |e| == g.nblocks && Loggable(g, bs) && k < |bs| && LoggedTo(g, s, p, e, bs, k)
    ensures Protocol.Shape(g, s) && Protocol.Enabled(g, s, Protocol.LogWrite(p, bs[k], e[bs[k]]))
  {
    hide Protocol.DiskInv, Protocol.OpsInv, Protocol.NamesInv, Protocol.Shape;
    OneMore(bs, k);
    FewElements(bs[..k + 1]);
  }

  lemma NextStep(g: Log.Geometry, s: Protocol.State, p: nat, e: Image, bs: seq<nat>, k: nat)
    requires Protocol.Inv(g, s) && |e| == g.nblocks && Loggable(g, bs) && k < |bs| && LoggedTo(g, s, p, e, bs, k)
    ensures Protocol.Shape(g, s) && Protocol.Enabled(g, s, Protocol.LogWrite(p, bs[k], e[bs[k]]))
    ensures LoggedTo(g, Protocol.Do(g, s, Protocol.LogWrite(p, bs[k], e[bs[k]])), p, e, bs, k + 1)
  {
    NextEnabled(g, s, p, e, bs, k);
    OneMore(bs, k);
    hide Protocol.Inv, Protocol.Shape, Protocol.Enabled, Elements;
  }

  lemma LoggedNotTwo(g: Log.Geometry, s: Protocol.State, p: nat, e: Image, bs: seq<nat>, k: nat)
    requires k <= |bs| && |e| == g.nblocks && Loggable(g, bs) && LoggedTo(g, s, p, e, bs, k)
    ensures !Two(s)
  {
  }

  lemma CallExtends(run: seq<Protocol.State>, steps: seq<Protocol.Step>, m: nat, p: nat,
                    t: Protocol.Step, s': Protocol.State)
    requires InCall(run, steps, m, |steps|, p) && t.LogWrite? && t.p == p
    ensures InCall(run + [s'], steps + [t], m, |steps| + 1, p)
  {
    hide Quiet;
  }

  /** begin_op and the log_writes. */
  lemma {:induction false} CallTo(g: Log.Geometry, sb: Super, n: nat, run: seq<Protocol.State>,
                                  steps: seq<Protocol.Step>, p: nat, e: Image, bs: seq<nat>, k: nat)
    returns (run': seq<Protocol.State>, steps': seq<Protocol.Step>)
    requires Serial(g, sb, n, run, steps) && AtRest(run[|steps|]) && p < |run[|steps|].ops|
    requires |e| == g.nblocks && Loggable(g, bs) && k <= |bs|
    ensures Serial(g, sb, n, run', steps') && |steps'| == |steps| + 1 + k
    ensures run'[0] == run[0] && run'[|steps|] == run[|steps|]
    ensures InCall(run', steps', |steps|, |steps'|, p) && LoggedTo(g, run'[|steps'|], p, e, bs, k)
    decreases k
  {
    assert k > 0 ==> Log.IsHome(g, bs[k - 1]);
    hide LoggedTo, Loggable, OneAtATime, CallsDo, Two, Protocol.IsRun, Protocol.Inv, Protocol.Shape, Protocol.Enabled,
         Protocol.Do, InCall, Quiet;
    RunLength(g, run, steps);
    if k == 0 {
      var s, t := run[|steps|], Protocol.BeginOp(p);
      Protocol.RunInv(g, run, steps, |steps|);
      FirstStep(g, s, p, e, bs);
      var s' := Protocol.Do(g, s, t);
      LoggedNotTwo(g, s', p, e, bs, 0);
      GoOn(g, sb, n, run, steps, t, s');
      run', steps' := run + [s'], steps + [t];
      CallBegins(run', steps', |steps|);
    } else {
      var run1, steps1 := CallTo(g, sb, n, run, steps, p, e, bs, k - 1);
      RunLength(g, run1, steps1);
      var s, t := run1[|steps1|], Protocol.LogWrite(p, bs[k - 1], e[bs[k - 1]]);
      Protocol.RunInv(g, run1, steps1, |steps1|);
      NextStep(g, s, p, e, bs, k - 1);
      var s' := Protocol.Do(g, s, t);
      LoggedNotTwo(g, s', p, e, bs, k);
      GoOn(g, sb, n, run1, steps1, t, s');
      CallExtends(run1, steps1, |steps|, p, t, s');
      run', steps' := run1 + [s'], steps1 + [t];
    }
  }

  // ---- The commit ----

  lemma CommitGoesOn(g: Log.Geometry, s: Protocol.State)
    requires Protocol.Inv(g, s) && Quiet(s) && !s.phase.Running?
    ensures Protocol.Shape(g, s) && Protocol.Enabled(g, s, Protocol.NextOf(s))
    ensures var s' := Protocol.Do(g, s, Protocol.NextOf(s));
      && Quiet(s') && s'.start == s.start && s'.hist == s.hist && (s'.phase.Running? ==> AtRest(s'))
      && 0 < Protocol.StepsLeft(s) && Protocol.StepsLeft(s') < Protocol.StepsLeft(s)
  {
    Protocol.OpsBounds(s.ops);
    Protocol.CommitEnds(g, s);
    hide Protocol.LogHolds, Protocol.Replay, Protocol.NamesInv, Protocol.ActiveOps, Protocol.Unused;
  }

  /** A commit ends with the log empty and the cache as it was. */
  lemma {:induction false} CommitEnds(g: Log.Geometry, sb: Super, n: nat, run: seq<Protocol.State>,
                                      steps: seq<Protocol.Step>)
    returns (run': seq<Protocol.State>, steps': seq<Protocol.Step>)
    requires Serial(g, sb, n, run, steps) && Quiet(run[|steps|]) && !run[|steps|].phase.Running?
    ensures Serial(g, sb, n, run', steps') && run'[0] == run[0] && AtRest(run'[|steps'|])
    ensures Log.SameHome(g, run[|steps|].mem, run'[|steps'|].mem)
    decreases Protocol.StepsLeft(run[|steps|])
  {
    hide OneAtATime, CallsDo, Two, Protocol.IsRun, Protocol.Inv, Protocol.Shape, Protocol.Enabled, Protocol.Do, Quiet;
    RunLength(g, run, steps);
    Protocol.RunInv(g, run, steps, |steps|);
    var s := run[|steps|];
    CommitGoesOn(g, s);
    var t := Protocol.NextOf(s);
    var s' := Protocol.Do(g, s, t);
    QuietNotTwo(s');
    GoOn(g, sb, n, run, steps, t, s');
    run', steps' := run + [s'], steps + [t];
    Protocol.RunInv(g, run', steps', |steps'|);
    SameCache(g, s, s');
    if !s'.phase.Running? {
      run', steps' := CommitEnds(g, sb, n, run', steps');
    }
  }

  // ---- One transaction, and any number of them ----

  lemma CallLogged(g: Log.Geometry, sb: Super, n: nat, d: Image, s: Protocol.State, p: nat, f: Fs, h: Fs, bs: seq<nat>)
    requires Placed(g, sb, n) && Holds(sb, n, d, f) && FsRuns.Inv(sb, f) && FsRuns.Does(sb, f, h) && AllFit(h)
    requires |h.data| == sb.size && Loggable(g, bs) && (forall b :: b in bs <==> b in h.logged)
    requires LoggedTo(g, s, p, DiskOf(sb, h), bs, |bs|)
    ensures CallDoes(sb, f, h, s, p)
  {
    FsRuns.DoesLogs(sb, f, h);
    ChangesSized(sb, n, f, h, h.logged);
    hide FsRuns.Inv, FsRuns.Does, Placed, BlockHolds, BlockOf, ChangesOnly, AllFit, Sized;
    assert bs[..|bs|] == bs && Elements(bs) == h.logged;
    forall b | b in h.logged && b < |s.mem| ensures BlockHolds(sb, h, b, s.mem[b]) {
      BlockOfHolds(g, sb, n, h, b);
      assert b in bs;
      var j :| 0 <= j < |bs| && bs[j] == b;
      assert s.mem[bs[j]] == DiskOf(sb, h)[bs[j]];
    }
  }

  lemma EndsQuiet(g: Log.Geometry, s: Protocol.State, p: nat, e: Image, bs: seq<nat>)
    requires Protocol.Inv(g, s) && |e| == g.nblocks && Loggable(g, bs) && LoggedTo(g, s, p, e, bs, |bs|)
    ensures Protocol.Shape(g, s) && Protocol.Enabled(g, s, Protocol.EndOp(p))
    ensures var s' := Protocol.Do(g, s, Protocol.EndOp(p));
      Quiet(s') && !s'.phase.Running? && s'.mem == s.mem
  {
    hide Protocol.DiskInv;
  }

  lemma BlocksLogged(g: Log.Geometry, sb: Super, n: nat, d: Image, f: Fs, h: Fs) returns (bs: seq<nat>)
    requires Placed(g, sb, n) && Log.MAXOPBLOCKS < g.size && Holds(sb, n, d, f) && FsRuns.Inv(sb, f)
    requires FsRuns.Does(sb, f, h) && |h.logged| <= Log.MAXOPBLOCKS && LinksFit(h)
    ensures Loggable(g, bs) && (forall b :: b in bs <==> b in h.logged)
    ensures |h.data| == sb.size == g.nblocks && AllFit(h)
  {
    FsRuns.DoesLogs(sb, f, h);
    NumbersFit(sb, h);
    ChangesSized(sb, n, f, h, h.logged);
    hide FsRuns.Inv, FsRuns.Does, FsRuns.Leads, ChangesOnly, AllFit, LinksFit, AreBlocks, HoldsInodes, HoldsBits;
    BlocksAreHome(g, sb, n, h.logged);
    bs := Listed(h.logged);
  }

  /** Whatever a process may make of the file system in one transaction within the
      budget, it makes of the disk in one call. */
  lemma OneCall(g: Log.Geometry, sb: Super, n: nat, run: seq<Protocol.State>, steps: seq<Protocol.Step>,
                p: nat, f: Fs, h: Fs)
    returns (run': seq<Protocol.State>, steps': seq<Protocol.Step>)
    requires Serial(g, sb, n, run, steps) && AtRest(run[|steps|]) && p < |run[|steps|].ops|
    requires Placed(g, sb, n) && Log.MAXOPBLOCKS < g.size
    requires Holds(sb, n, run[|steps|].mem, f) && FsRuns.Inv(sb, f)
    requires FsRuns.Does(sb, f, h) && |h.logged| <= Log.MAXOPBLOCKS && LinksFit(h)
    ensures Serial(g, sb, n, run', steps') && run'[0] == run[0] && AtRest(run'[|steps'|])
    ensures Holds(sb, n, run'[|steps'|].mem, h)
  {
    var bs := BlocksLogged(g, sb, n, run[|steps|].mem, f, h);
    hide Placed, Sized, Loggable, LoggedTo, OneAtATime, CallsDo, Two, Protocol.IsRun, Protocol.Inv, Protocol.Shape,
         Protocol.Enabled, Protocol.Do, InCall, Quiet, Holds, FsRuns.Inv, FsRuns.Does, FsRuns.Leads, ChangesOnly,
         AllFit, LinksFit, CallDoes, Alone;
    RunLength(g, run, steps);
    var d, e := run[|steps|].mem, DiskOf(sb, h);
    var run1, steps1 := CallTo(g, sb, n, run, steps, p, e, bs, |bs|);
    RunLength(g, run1, steps1);
    Protocol.RunInv(g, run1, steps1, |steps1|);
    var s := run1[|steps1|];
    CallLogged(g, sb, n, d, s, p, f, h, bs);
    CallFrame(g, run1, steps1, |steps|, |steps1|, p);
    CallHeld(sb, n, d, s, p, f, h);
    EndsQuiet(g, s, p, e, bs);
    var s' := Protocol.Do(g, s, Protocol.EndOp(p));
    QuietNotTwo(s');
    GoOnEnd(g, sb, n, run1, steps1, |steps|, p, f, h, s');
    run', steps' := CommitEnds(g, sb, n, run1 + [s'], steps1 + [Protocol.EndOp(p)]);
    HomesHold(g, sb, n, s'.mem, run'[|steps'|].mem, h);
  }

  /** Transactions, one after the other, from what mkfs makes: each within the
      budget of one call, and with link counts that fit 16 bits. */
  ghost predicate Transactions(sb: Super, n: nat, fs: seq<Fs>) {
    && FsRuns.Makes(sb, n) && fs != [] && fs[0] == Root(sb, n)
    && forall k | 0 < k < |fs| ::
         FsRuns.Does(sb, fs[k - 1], fs[k]) && |fs[k].logged| <= Log.MAXOPBLOCKS && LinksFit(fs[k])
  }

  lemma RootFits(g: Log.Geometry, sb: Super, n: nat)
    requires Placed(g, sb, n) && FsRuns.Makes(sb, n)
    ensures Sized(sb, n, Root(sb, n)) && AllFit(Root(sb, n))
  {
    hide RootBlock;
  }

  lemma FirstState(g: Log.Geometry, sb: Super, n: nat) returns (s: Protocol.State)
    requires Placed(g, sb, n) && FsRuns.Makes(sb, n)
    ensures Serial(g, sb, n, [s], []) && AtRest(s) && |s.ops| == 1
    ensures s.mem == s.disk && Holds(sb, n, s.disk, Root(sb, n))
  {
    RootFits(g, sb, n);
    DiskHolds(g, sb, n, Root(sb, n));
    hide Holds, Placed, Sized, AllFit, Root, Log.WellFormed, Log.HeadList;
    var d := DiskOf(sb, Root(sb, n));
    s := Protocol.State(d, d, [], 0, Protocol.Running, [Protocol.Idle], d, [], 0, 0, 0);
  }

  /** Every such sequence of transactions has a run of calls: it starts on a disk
      that holds what mkfs makes and ends with the last file system on the disk. */
  lemma {:induction false} TransactionsRun(g: Log.Geometry, sb: Super, n: nat, fs: seq<Fs>)
    returns (run: seq<Protocol.State>, steps: seq<Protocol.Step>)
    requires Placed(g, sb, n) && Log.MAXOPBLOCKS < g.size && Transactions(sb, n, fs)
    ensures Protocol.IsRun(g, run, steps) && OneAtATime(run) && CallsDo(sb, n, run, steps)
    ensures Holds(sb, n, run[0].disk, Root(sb, n))
    ensures AtRest(run[|steps|]) && Holds(sb, n, run[|steps|].disk, fs[|fs| - 1])
  {
    run, steps := TransactionsTo(g, sb, n, fs, |fs| - 1);
    RunLength(g, run, steps);
    Protocol.RunInv(g, run, steps, |steps|);
    hide Protocol.IsRun, OneAtATime, CallsDo, Placed, Holds;
    AtRestOnDisk(g, run[|steps|]);
  }

  lemma AtRestOnDisk(g: Log.Geometry, s: Protocol.State)
    requires Protocol.Inv(g, s) && AtRest(s)
    ensures s.disk == s.mem
  {
    hide Protocol.Replay, Protocol.LogHolds, Protocol.OpsInv, Protocol.NamesInv;
  }

  lemma {:induction false} TransactionsTo(g: Log.Geometry, sb: Super, n: nat, fs: seq<Fs>, k: nat)
    returns (run: seq<Protocol.State>, steps: seq<Protocol.Step>)
    requires Placed(g, sb, n) && Log.MAXOPBLOCKS < g.size && Transactions(sb, n, fs) && k < |fs|
    ensures Serial(g, sb, n, run, steps) && Holds(sb, n, run[0].disk, Root(sb, n)) && |run[0].ops| == 1
    ensures AtRest(run[|steps|]) && Holds(sb, n, run[|steps|].mem, fs[k]) && FsRuns.Inv(sb, fs[k])
  {
    hide Serial, Holds, Placed, AtRest, FsRuns.Inv, FsRuns.Does, Root, LinksFit;
    if k == 0 {
      var s := FirstState(g, sb, n);
      run, steps := [s], [];
      FsRuns.RootInv(sb, n);
    } else {
      run, steps := TransactionsTo(g, sb, n, fs, k - 1);
      SerialLength(g, sb, n, run, steps);
      SameProcesses(g, sb, n, run, steps, |steps|);
      run, steps := OneCall(g, sb, n, run, steps, 0, fs[k - 1], fs[k]);
      SerialLength(g, sb, n, run, steps);
      FsRuns.DoesLogs(sb, fs[k - 1], fs[k]);
    }
  }

  lemma SerialLength(g: Log.Geometry, sb: Super, n: nat, run: seq<Protocol.State>, steps: seq<Protocol.Step>)
    requires Serial(g, sb, n, run, steps)
    ensures |run| == |steps| + 1
  {
  }

  lemma {:induction false} SameProcesses(g: Log.Geometry, sb: Super, n: nat, run: seq<Protocol.State>,
                                         steps: seq<Protocol.Step>, k: nat)
    requires Serial(g, sb, n, run, steps) && k < |run|
    ensures |run[k].ops| == |run[0].ops|
  {
    hide CallsDo, OneAtATime;
    if k > 0 {
      SameProcesses(g, sb, n, run, steps, k - 1);
    }
  }
}
