/** Group commit as a state machine: file-system calls from any number of
    processes interleave with the block writes of commit and recovery, and the
    machine may crash between any two steps. */
module LogProtocol {
  import opened Disk
  import opened Log

  /** One log_write of an operation, kept as history. */
  datatype Update = Update(op: nat, block: nat, data: Block)

  /** What a process is doing between begin_op and end_op. */
  datatype Op = Idle | Active(id: nat, logged: set<nat>)

  datatype Phase =
    | Running                  // committing == 0
    | Copying(tail: nat)       // write_log, then write_head
    | Installing(tail: nat)    // install_trans, then the clearing write_head
    | Finishing                // commit() returned, committing not cleared yet
    | Recovering(tail: nat)    // recover_from_log

  /** `start`, `hist`, `durable`, `next` and `floor` are history: the contents
      the machine began with, every update since then that a crash has not
      undone, how many of them are committed, the next operation's name, and the
      first name that is not committed. */
  datatype State = State(
    disk: Image, mem: Image, lh: seq<nat>, outstanding: nat, phase: Phase, ops: seq<Op>,
    start: Image, hist: seq<Update>, durable: nat, next: nat, floor: nat)

  datatype Step =
    | BeginOp(p: nat) | LogWrite(p: nat, block: nat, data: Block) | EndOp(p: nat)
    | CopyBlock | WriteHead | InstallBlock | ClearHeadStep | Finish
    | Crash | RecoverBlock | RecoverClear

  function Replay(d: Image, hist: seq<Update>): (r: Image)
    ensures |r| == |d|
  {
    if hist == [] then d
    else
      var u := hist[|hist| - 1];
      var before := Replay(d, hist[..|hist| - 1]);
      if u.block < |before| then before[u.block := u.data] else before
  }

  predicate Init(g: Geometry, s: State) {
    && WellFormed(g, s.disk) && HeadList(s.disk[g.start]) == []
    && s == State(s.disk, s.disk, [], 0, Running, s.ops, s.disk, [], 0, 0, 0)
    && forall p | 0 <= p < |s.ops| :: s.ops[p].Idle?
  }

  predicate Guards(g: Geometry, s: State) {
    |s.lh| < LOGSIZE && |s.lh| < g.size - 1 && s.outstanding >= 1
  }

  /** The operation logs no more than MAXOPBLOCKS distinct blocks. */
  predicate WithinBudget(s: State, p: nat, block: nat) {
    && p < |s.ops| && s.ops[p].Active?
    && |s.ops[p].logged + {block}| <= MAXOPBLOCKS
  }

  predicate Enabled(g: Geometry, s: State, t: Step) {
    match t
    case BeginOp(p) =>
      && p < |s.ops| && s.ops[p].Idle? && s.phase.Running?
      && |s.lh| + (s.outstanding + 1) * MAXOPBLOCKS <= LOGSIZE
    case LogWrite(p, block, data) =>
      WithinBudget(s, p, block) && IsHome(g, block) && Guards(g, s)
    case EndOp(p) => p < |s.ops| && s.ops[p].Active? && s.outstanding >= 1
    case CopyBlock => s.phase.Copying? && s.phase.tail < |s.lh|
    case WriteHead => s.phase.Copying? && s.phase.tail == |s.lh|
    case InstallBlock => s.phase.Installing? && s.phase.tail < |s.lh|
    case ClearHeadStep => s.phase.Installing? && s.phase.tail == |s.lh|
    case Finish => s.phase.Finishing?
    case Crash => true
    case RecoverBlock => s.phase.Recovering? && s.phase.tail < |s.lh|
    case RecoverClear => s.phase.Recovering? && s.phase.tail == |s.lh|
  }

  /** bwrite. */
  function Put(s: State, b: nat, data: Block): State
    requires b < |s.disk| == |s.mem|
  {
    s.(disk := s.disk[b := data], mem := s.mem[b := data])
  }

  function Do(g: Geometry, s: State, t: Step): State
    requires Enabled(g, s, t) && Shape(g, s)
  {
    match t
    case BeginOp(p) =>
      s.(ops := s.ops[p := Active(s.next, {})], outstanding := s.outstanding + 1, next := s.next + 1)
    case LogWrite(p, block, data) =>
      s.(mem := s.mem[block := data],
         lh := if block in s.lh then s.lh else s.lh + [block],
         ops := s.ops[p := Active(s.ops[p].id, s.ops[p].logged + {block})],
         hist := s.hist + [Update(s.ops[p].id, block, data)])
    case EndOp(p) =>
      s.(ops := s.ops[p := Idle], outstanding := s.outstanding - 1,
         phase := if s.outstanding > 1 then s.phase
                  else if |s.lh| > 0 then Copying(0) else Finishing)
    case CopyBlock =>
      Put(s, g.start + s.phase.tail + 1, s.mem[s.lh[s.phase.tail]])
        .(phase := Copying(s.phase.tail + 1))
    case WriteHead =>
      Put(s, g.start, PutHead(s.mem[g.start], s.lh, |s.lh|))
        .(phase := Installing(0), durable := |s.hist|, floor := s.next)
    case InstallBlock =>
      Put(s, s.lh[s.phase.tail], s.mem[g.start + s.phase.tail + 1])
        .(phase := Installing(s.phase.tail + 1))
    case ClearHeadStep =>
      Put(s, g.start, PutHead(s.mem[g.start], [], 0)).(lh := [], phase := Finishing)
    case Finish => s.(phase := Running)
    case Crash =>
      s.(mem := s.disk, lh := HeadList(s.disk[g.start]), outstanding := 0,
         ops := seq(|s.ops|, _ => Idle), phase := Recovering(0), hist := s.hist[..s.durable],
         floor := s.next)
    case RecoverBlock =>
      Put(s, s.lh[s.phase.tail], s.mem[g.start + s.phase.tail + 1])
        .(phase := Recovering(s.phase.tail + 1))
    case RecoverClear =>
      Put(s, g.start, PutHead(s.mem[g.start], [], 0)).(lh := [], phase := Running)
  }

  // ---- The invariant ----

  predicate Shape(g: Geometry, s: State) {
    && WellFormed(g, s.disk) && |s.mem| == |s.disk| == |s.start|
    && ValidList(g, s.lh)
    && s.durable <= |s.hist|
    && (s.phase.Copying? || s.phase.Installing? || s.phase.Recovering? ==> s.phase.tail <= |s.lh|)
  }

  function ActiveOps(ops: seq<Op>): nat {
    if ops == [] then 0
    else ActiveOps(ops[..|ops| - 1]) + if ops[|ops| - 1].Active? then 1 else 0
  }

  /** The log slots that the operations in progress may still ask for. */
  function Unused(ops: seq<Op>): int {
    if ops == [] then 0
    else Unused(ops[..|ops| - 1])
         + if ops[|ops| - 1].Active? then MAXOPBLOCKS - |ops[|ops| - 1].logged| else 0
  }

  lemma {:induction false} OpsUpdate(ops: seq<Op>, p: nat, o: Op)
    requires p < |ops|
    ensures ActiveOps(ops[p := o]) == ActiveOps(ops) + (if o.Active? then 1 else 0)
                                      - (if ops[p].Active? then 1 else 0)
    ensures Unused(ops[p := o]) == Unused(ops)
              + (if o.Active? then MAXOPBLOCKS - |o.logged| else 0)
              - (if ops[p].Active? then MAXOPBLOCKS - |ops[p].logged| else 0)
  {
    var n := |ops| - 1;
    if p == n {
      assert ops[p := o][..n] == ops[..n];
    } else {
      OpsUpdate(ops[..n], p, o);
      assert ops[p := o][..n] == ops[..n][p := o];
    }
  }

  lemma {:induction false} OpsBounds(ops: seq<Op>)
    requires forall p | 0 <= p < |ops| && ops[p].Active? :: |ops[p].logged| <= MAXOPBLOCKS
    ensures 0 <= Unused(ops) <= ActiveOps(ops) * MAXOPBLOCKS
    ensures ActiveOps(ops) == 0 <==> forall p | 0 <= p < |ops| :: ops[p].Idle?
    ensures forall p | 0 <= p < |ops| && ops[p].Active? ::
              Unused(ops) >= MAXOPBLOCKS - |ops[p].logged|
  {
    if ops != [] {
      var n := |ops| - 1;
      OpsBounds(ops[..n]);
      assert forall p | 0 <= p < n :: ops[..n][p] == ops[p];
    }
  }

  /** The committed contents: what a crash now would be recovered to. */
  function Committed(s: State): Image
    requires s.durable <= |s.hist|
  {
    Replay(s.start, s.hist[..s.durable])
  }

  /** The log on disk lists `lh` and, with the blocks outside it, holds `d`. */
  predicate LogHolds(g: Geometry, disk: Image, lh: seq<nat>, d: Image)
    requires WellFormed(g, disk) && |d| == |disk| && ValidList(g, lh)
  {
    && HeadList(disk[g.start]) == lh
    && (forall i | 0 <= i < |lh| :: disk[g.start + 1 + i] == d[lh[i]])
    && (forall x | 0 <= x < |disk| && IsHome(g, x) && x !in lh :: disk[x] == d[x])
  }

  predicate CachedOutside(s: State) {
    |s.mem| == |s.disk| && forall b | 0 <= b < |s.disk| && b !in s.lh :: s.mem[b] == s.disk[b]
  }

  predicate DiskInv(g: Geometry, s: State)
    requires Shape(g, s)
  {
    && CachedOutside(s)
    && match s.phase
       case Running =>
         && HeadList(s.disk[g.start]) == [] && SameHome(g, s.disk, Committed(s))
         && SameHome(g, s.mem, Replay(s.start, s.hist))
       case Copying(tail) =>
         && HeadList(s.disk[g.start]) == [] && SameHome(g, s.disk, Committed(s))
         && SameHome(g, s.mem, Replay(s.start, s.hist))
         && forall i | 0 <= i < tail :: s.disk[g.start + 1 + i] == s.mem[s.lh[i]]
       case Installing(tail) =>
         && LogHolds(g, s.disk, s.lh, Committed(s))
         && (forall i | 0 <= i < tail :: s.disk[s.lh[i]] == Committed(s)[s.lh[i]])
         && SameHome(g, s.mem, Committed(s)) && s.durable == |s.hist|
       case Finishing =>
         && s.lh == [] && HeadList(s.disk[g.start]) == []
         && SameHome(g, s.disk, Committed(s))
         && SameHome(g, s.mem, Replay(s.start, s.hist))
       case Recovering(tail) =>
         && LogHolds(g, s.disk, s.lh, Committed(s))
         && (forall i | 0 <= i < tail :: s.disk[s.lh[i]] == Committed(s)[s.lh[i]])
         && s.mem == s.disk && s.durable == |s.hist|
  }

  /** Admission: committing excludes operations, and the log can still take
      everything the admitted operations are entitled to log. */
  predicate OpsInv(g: Geometry, s: State) {
    && s.outstanding == ActiveOps(s.ops)
    && (!s.phase.Running? ==> s.outstanding == 0)
    && (forall p | 0 <= p < |s.ops| && s.ops[p].Active? :: |s.ops[p].logged| <= MAXOPBLOCKS)
    && (forall p, b | 0 <= p < |s.ops| && s.ops[p].Active? && b in s.ops[p].logged :: b in s.lh)
    && (s.phase.Running? ==> |s.lh| + Unused(s.ops) <= LOGSIZE)
  }

  /** Operation names: committed updates carry names below `floor`, all others
      and all operations in progress carry names from `floor` on. */
  predicate NamesInv(s: State) {
    && s.durable <= |s.hist| && s.floor <= s.next
    && (forall i | 0 <= i < s.durable :: s.hist[i].op < s.floor)
    && (forall i | s.durable <= i < |s.hist| :: s.floor <= s.hist[i].op < s.next)
    && (forall p | 0 <= p < |s.ops| && s.ops[p].Active? :: s.floor <= s.ops[p].id < s.next)
    && (forall p, q | 0 <= p < q < |s.ops| && s.ops[p].Active? && s.ops[q].Active? ::
          s.ops[p].id != s.ops[q].id)
  }

  predicate Inv(g: Geometry, s: State) {
    Shape(g, s) && DiskInv(g, s) && OpsInv(g, s) && NamesInv(s)
  }

  lemma AllIdle(ops: seq<Op>)
    requires forall p | 0 <= p < |ops| :: ops[p].Idle?
    ensures ActiveOps(ops) == 0 && Unused(ops) == 0
  {
    OpsBounds(ops);
  }

  lemma InitInv(g: Geometry, s: State)
    requires Init(g, s)
    ensures Inv(g, s)
  {
    AllIdle(s.ops);
  }

  // ---- Each step keeps the invariant ----

  lemma OperationStep(g: Geometry, s: State, t: Step)
    requires Inv(g, s) && Enabled(g, s, t) && (t.BeginOp? || t.EndOp? || t.Finish?)
    ensures Inv(g, Do(g, s, t))
  {
    OperationLeavesDisk(g, s, t);
    match t
    case BeginOp(p) => BeginCounts(g, s, p);
    case EndOp(p) => EndCounts(g, s, p);
    case Finish => OpsBounds(s.ops);
  }

  lemma OperationLeavesDisk(g: Geometry, s: State, t: Step)
    requires Inv(g, s) && Enabled(g, s, t) && (t.BeginOp? || t.EndOp? || t.Finish?)
    ensures Shape(g, Do(g, s, t)) && DiskInv(g, Do(g, s, t))
  {
    hide GetWord, SetWord, PutHead, HeadList, Replay, LogHolds, ActiveOps, Unused, NamesInv;
  }

  lemma BeginCounts(g: Geometry, s: State, p: nat)
    requires Inv(g, s) && Enabled(g, s, BeginOp(p))
    ensures OpsInv(g, Do(g, s, BeginOp(p))) && NamesInv(Do(g, s, BeginOp(p)))
  {
    OpsBounds(s.ops);
    OpsUpdate(s.ops, p, Active(s.next, {}));
    hide GetWord, SetWord, PutHead, HeadList, Replay, DiskInv, Shape, ActiveOps, Unused;
  }

  lemma EndCounts(g: Geometry, s: State, p: nat)
    requires Inv(g, s) && Enabled(g, s, EndOp(p))
    ensures OpsInv(g, Do(g, s, EndOp(p))) && NamesInv(Do(g, s, EndOp(p)))
  {
    OpsBounds(s.ops);
    OpsUpdate(s.ops, p, Idle);
    hide GetWord, SetWord, PutHead, HeadList, Replay, DiskInv, Shape, ActiveOps, Unused;
  }

  /** A block that an operation has logged is in the log already, so logging it
      again takes no slot: every new slot comes out of the writer's own budget. */
  lemma SlotFromBudget(g: Geometry, s: State, p: nat, b: nat, data: Block)
    requires Inv(g, s) && Enabled(g, s, LogWrite(p, b, data))
    ensures OpsInv(g, Do(g, s, LogWrite(p, b, data)))
  {
    hide GetWord, SetWord, PutHead, HeadList, Replay;
    var s' := Do(g, s, LogWrite(p, b, data));
    var logged := s.ops[p].logged;
    OpsBounds(s.ops);
    OpsUpdate(s.ops, p, Active(s.ops[p].id, logged + {b}));
    if b in logged {
      assert logged + {b} == logged && s'.lh == s.lh;
    } else {
      assert |logged + {b}| == |logged| + 1;
    }
  }

  lemma LogWriteStep(g: Geometry, s: State, p: nat, b: nat, data: Block)
    requires Inv(g, s) && Enabled(g, s, LogWrite(p, b, data))
    ensures Inv(g, Do(g, s, LogWrite(p, b, data)))
  {
    hide GetWord, SetWord, PutHead, HeadList, ActiveOps, Unused;
    var s' := Do(g, s, LogWrite(p, b, data));
    SlotFromBudget(g, s, p, b, data);
    OpsBounds(s.ops);
    assert s'.hist[..s'.durable] == s.hist[..s.durable];
    assert s'.hist[..|s'.hist| - 1] == s.hist;
    assert CachedOutside(s');
  }

  lemma CopyBlockStep(g: Geometry, s: State)
    requires Inv(g, s) && Enabled(g, s, CopyBlock)
    ensures Inv(g, Do(g, s, CopyBlock))
  {
    var s' := Do(g, s, CopyBlock);
    assert s'.disk[g.start] == s.disk[g.start];
  }

  lemma WriteHeadStep(g: Geometry, s: State)
    requires Inv(g, s) && Enabled(g, s, WriteHead)
    ensures Inv(g, Do(g, s, WriteHead))
  {
    hide GetWord, SetWord, PutHead;
    var s' := Do(g, s, WriteHead);
    HeadRoundTrip(s.mem[g.start], s.lh);
    assert s'.disk[g.start] == PutHead(s.mem[g.start], s.lh, |s.lh|);
    assert s'.hist[..s'.durable] == s.hist;
    OpsBounds(s.ops);
    assert LogHolds(g, s'.disk, s.lh, Committed(s'));
  }

  /** Copying one block home leaves the log as it is and installs that block. */
  lemma InstallOne(g: Geometry, disk: Image, lh: seq<nat>, d: Image, tail: nat)
    requires WellFormed(g, disk) && |d| == |disk| && ValidList(g, lh) && tail < |lh|
    requires LogHolds(g, disk, lh, d) && forall i | 0 <= i < tail :: disk[lh[i]] == d[lh[i]]
    ensures var e := disk[lh[tail] := disk[g.start + tail + 1]];
            WellFormed(g, e) && LogHolds(g, e, lh, d)
            && forall i | 0 <= i < tail + 1 :: e[lh[i]] == d[lh[i]]
  {
    hide GetWord, SetWord;
    var e := disk[lh[tail] := disk[g.start + tail + 1]];
    assert e[g.start] == disk[g.start];
    assert e[lh[tail]] == disk[g.start + 1 + tail];
  }

  /** Copying one block out of the log, in a commit or in a recovery. */
  lemma InstallStep(g: Geometry, s: State, t: Step)
    requires Inv(g, s) && Enabled(g, s, t) && (t.InstallBlock? || t.RecoverBlock?)
    ensures Inv(g, Do(g, s, t))
  {
    hide GetWord, SetWord, PutHead, Replay, LogHolds;
    var s' := Do(g, s, t);
    assert s.mem[g.start + s.phase.tail + 1] == s.disk[g.start + s.phase.tail + 1];
    InstallOne(g, s.disk, s.lh, Committed(s), s.phase.tail);
    assert Committed(s') == Committed(s);
    assert Shape(g, s') && OpsInv(g, s') && NamesInv(s');
  }

  lemma ClearStep(g: Geometry, s: State, t: Step)
    requires Inv(g, s) && Enabled(g, s, t) && (t.ClearHeadStep? || t.RecoverClear?)
    ensures Inv(g, Do(g, s, t))
  {
    hide GetWord, SetWord, PutHead, Replay;
    var s' := Do(g, s, t);
    HeadRoundTrip(s.mem[g.start], []);
    assert s'.disk[g.start] == PutHead(s.mem[g.start], [], 0);
    assert s.hist[..|s.hist|] == s.hist;
    OpsBounds(s.ops);
    AllInstalled(g, s.disk, s.lh, Committed(s));
    hide LogHolds, ActiveOps, Unused;
  }

  lemma AllInstalled(g: Geometry, disk: Image, lh: seq<nat>, d: Image)
    requires WellFormed(g, disk) && |d| == |disk| && ValidList(g, lh) && LogHolds(g, disk, lh, d)
    requires forall i | 0 <= i < |lh| :: disk[lh[i]] == d[lh[i]]
    ensures SameHome(g, disk, d)
  {
    hide GetWord, HeadList;
    forall x | 0 <= x < |disk| && IsHome(g, x) ensures disk[x] == d[x] {
      if x in lh {
        var i :| 0 <= i < |lh| && lh[i] == x;
      }
    }
  }

  lemma CrashStep(g: Geometry, s: State)
    requires Inv(g, s)
    ensures Inv(g, Do(g, s, Crash))
  {
    var s' := Do(g, s, Crash);
    assert s'.hist[..s'.durable] == s.hist[..s.durable];
    AllIdle(s'.ops);
    assert LogHolds(g, s'.disk, s'.lh, Committed(s'));
  }

  lemma StepInv(g: Geometry, s: State, t: Step)
    requires Inv(g, s) && Enabled(g, s, t)
    ensures Inv(g, Do(g, s, t))
  {
    match t
    case BeginOp(_) | EndOp(_) | Finish => OperationStep(g, s, t);
    case LogWrite(p, b, data) => LogWriteStep(g, s, p, b, data);
    case CopyBlock => CopyBlockStep(g, s);
    case WriteHead => WriteHeadStep(g, s);
    case InstallBlock | RecoverBlock => InstallStep(g, s, t);
    case ClearHeadStep | RecoverClear => ClearStep(g, s, t);
    case Crash => CrashStep(g, s);
  }

  // ---- Runs ----

  predicate IsRun(g: Geometry, run: seq<State>, steps: seq<Step>) {
    && |run| == |steps| + 1 && Init(g, run[0])
    && forall i | 0 <= i < |steps| ::
         Shape(g, run[i]) && Enabled(g, run[i], steps[i]) && run[i + 1] == Do(g, run[i], steps[i])
  }

  lemma {:induction false} RunInv(g: Geometry, run: seq<State>, steps: seq<Step>, i: nat)
    requires IsRun(g, run, steps) && i < |run|
    ensures Inv(g, run[i])
  {
    if i == 0 {
      InitInv(g, run[0]);
    } else {
      RunInv(g, run, steps, i - 1);
      StepInv(g, run[i - 1], steps[i - 1]);
    }
  }

  /** A disk on which the log holds `d` recovers to `d`. */
  lemma LogRecovers(g: Geometry, disk: Image, lh: seq<nat>, d: Image)
    requires WellFormed(g, disk) && |d| == |disk| && ValidList(g, lh)
    requires LogHolds(g, disk, lh, d)
    ensures SameHome(g, Recovered(g, disk), d)
  {
    hide GetWord, SetWord, Install, Recovered;
    RecoveredAt(g, disk, lh);
    forall x | 0 <= x < g.nblocks && IsHome(g, x)
      ensures Recovered(g, disk)[x] == d[x]
    {
      if x in lh {
        var i :| 0 <= i < |lh| && lh[i] == x;
        assert Recovered(g, disk)[lh[i]] == disk[g.start + 1 + i];
      }
    }
  }

  lemma InvRecovers(g: Geometry, s: State)
    requires Inv(g, s)
    ensures SameHome(g, Recovered(g, s.disk), Committed(s))
  {
    hide GetWord, SetWord, PutHead, Replay, Recovered, Install;
    LogRecovers(g, s.disk, HeadList(s.disk[g.start]), Committed(s));
  }

  /** At every point of every run, a crash followed by recovery, itself crashed
      any number of times, ends with exactly the committed updates on disk. */
  lemma RunCrashSafety(g: Geometry, run: seq<State>, steps: seq<Step>, i: nat, crashes: seq<nat>)
    requires IsRun(g, run, steps) && i < |run|
    ensures WellFormed(g, run[i].disk) && run[i].durable <= |run[i].hist|
    ensures SameHome(g, RecoverThroughCrashes(g, run[i].disk, crashes),
                     Replay(run[i].start, run[i].hist[..run[i].durable]))
  {
    RunInv(g, run, steps, i);
    InvRecovers(g, run[i]);
    RecoveryConverges(g, run[i].disk, crashes);
  }

  /** The committed updates are those of whole operations: no operation has
      updates on both sides of the line, and none in progress has any behind it. */
  lemma WholeOperations(g: Geometry, run: seq<State>, steps: seq<Step>, i: nat)
    requires IsRun(g, run, steps) && i < |run|
    ensures var s := run[i];
      && s.durable <= |s.hist|
      && (forall a, b | 0 <= a < s.durable <= b < |s.hist| :: s.hist[a].op != s.hist[b].op)
      && (forall a, p | 0 <= a < s.durable && 0 <= p < |s.ops| && s.ops[p].Active? ::
            s.hist[a].op != s.ops[p].id)
  {
    RunInv(g, run, steps, i);
  }

  /** What recovery yields changes in one step only, the header write of a
      commit; no operation is then in progress and everything logged is taken. */
  lemma CommitIsHeaderWrite(g: Geometry, s: State, t: Step)
    requires Inv(g, s) && Enabled(g, s, t)
    ensures Shape(g, Do(g, s, t))
    ensures Committed(Do(g, s, t)) != Committed(s) ==> t.WriteHead?
    ensures t.WriteHead? ==>
      && (forall p | 0 <= p < |s.ops| :: s.ops[p].Idle?)
      && Committed(Do(g, s, t)) == Replay(s.start, s.hist)
      && SameHome(g, s.mem, Committed(Do(g, s, t)))
  {
    StepInv(g, s, t);
    hide GetWord, SetWord, PutHead, HeadList, Replay, LogHolds, ActiveOps, Unused, SameHome;
    var s' := Do(g, s, t);
    OpsBounds(s.ops);
    if t.WriteHead? {
      assert s'.hist[..s'.durable] == s.hist;
    } else {
      assert s'.hist[..s'.durable] == s.hist[..s.durable];
    }
  }

  /** With nothing listed nothing waits to be committed, and the last operation to
      end leaves nothing listed. */
  predicate Settles(s: State) {
    && ((s.phase.Running? || s.phase.Finishing?) && s.lh == [] ==> s.durable == |s.hist|)
    && (s.phase.Running? && s.outstanding == 0 ==> s.lh == [])
  }

  lemma SettlesStep(g: Geometry, s: State, t: Step)
    requires Inv(g, s) && Enabled(g, s, t) && Settles(s)
    ensures Settles(Do(g, s, t))
  {
    hide Replay, LogHolds, ActiveOps, Unused, PutHead, HeadList, NamesInv;
  }

  lemma {:induction false} RunSettles(g: Geometry, run: seq<State>, steps: seq<Step>, i: nat)
    requires IsRun(g, run, steps) && i < |run|
    ensures Settles(run[i])
  {
    hide Inv, Enabled, Do, Shape;
    if i > 0 {
      RunSettles(g, run, steps, i - 1);
      RunInv(g, run, steps, i - 1);
      SettlesStep(g, run[i - 1], steps[i - 1]);
    }
  }

  /** Whenever every operation has ended and no commit is under way, all their
      updates are committed: a crash then loses nothing. */
  lemma EndedIsDurable(g: Geometry, run: seq<State>, steps: seq<Step>, i: nat)
    requires IsRun(g, run, steps) && i < |run| && run[i].phase.Running? && run[i].outstanding == 0
    ensures run[i].durable == |run[i].hist|
    ensures WellFormed(g, run[i].disk) && SameHome(g, Recovered(g, run[i].disk), run[i].mem)
  {
    RunSettles(g, run, steps, i);
    RunInv(g, run, steps, i);
    InvRecovers(g, run[i]);
    assert run[i].hist[..run[i].durable] == run[i].hist;
    hide Replay, Recovered, LogHolds, OpsInv, NamesInv;
  }

  /** While a commit or a recovery is under way no operation is in progress and
      none can start, so nothing but the commit itself touches the log. */
  lemma CommitFreezesLog(g: Geometry, s: State, t: Step)
    requires Inv(g, s) && Enabled(g, s, t) && !s.phase.Running?
    ensures s.outstanding == 0 && forall p | 0 <= p < |s.ops| :: s.ops[p].Idle?
    ensures !t.BeginOp? && !t.LogWrite? && !t.EndOp?
    ensures t.ClearHeadStep? || t.RecoverClear? || t.Crash? || Do(g, s, t).lh == s.lh
  {
    OpsBounds(s.ops);
  }

  // ---- Commit and recovery come to an end ----

  /** The next step of a commit or a recovery. */
  function NextOf(s: State): Step
    requires !s.phase.Running?
  {
    match s.phase
    case Copying(tail) => if tail < |s.lh| then CopyBlock else WriteHead
    case Installing(tail) => if tail < |s.lh| then InstallBlock else ClearHeadStep
    case Finishing => Finish
    case Recovering(tail) => if tail < |s.lh| then RecoverBlock else RecoverClear
  }

  /** How many steps are left of it: 2n + 3 at the start of a commit of n blocks,
      n + 1 at the start of a recovery. */
  function StepsLeft(s: State): int {
    match s.phase
    case Running => 0
    case Copying(tail) => 2 * |s.lh| + 3 - tail
    case Installing(tail) => |s.lh| + 2 - tail
    case Finishing => 1
    case Recovering(tail) => |s.lh| + 1 - tail
  }

  /** That step can always be taken, and nothing but a crash can come before it. */
  lemma CommitEnds(g: Geometry, s: State)
    requires Inv(g, s) && !s.phase.Running?
    ensures Shape(g, s) && Enabled(g, s, NextOf(s)) && 0 < StepsLeft(s)
    ensures StepsLeft(Do(g, s, NextOf(s))) == StepsLeft(s) - 1
    ensures forall t | Enabled(g, s, t) :: t == NextOf(s) || t.Crash?
    ensures StepsLeft(s) == 1 <==> Do(g, s, NextOf(s)).phase.Running?
  {
    OpsBounds(s.ops);
    hide LogHolds, Replay, NamesInv, ActiveOps, Unused, PutHead, HeadList;
  }

  // ---- The reservation and the guards of log_write ----

  /** Admission control keeps its promise: an operation within its budget that
      logs a block it has not logged before finds the header with room for it. */
  lemma SlotReserved(g: Geometry, run: seq<State>, steps: seq<Step>, i: nat, p: nat, b: nat)
    requires IsRun(g, run, steps) && i < |run|
    requires WithinBudget(run[i], p, b) && b !in run[i].lh
    ensures |run[i].lh| < LOGSIZE && run[i].outstanding >= 1
  {
    RunInv(g, run, steps, i);
    var s := run[i];
    OpsBounds(s.ops);
    var logged := s.ops[p].logged;
    assert b !in logged && |logged + {b}| == |logged| + 1;
  }

  /** How many of the first `k` blocks fall to operation `p`. */
  function Share(k: nat, p: nat): nat {
    if k < p * MAXOPBLOCKS then 0
    else if k < (p + 1) * MAXOPBLOCKS then k - p * MAXOPBLOCKS else MAXOPBLOCKS
  }

  /** Three operations have logged the `k` blocks from `first` on, the first ten
      of them by the first operation, and so on. */
  predicate Filled(s: State, first: nat, k: nat) {
    && s.phase.Running? && s.outstanding == |s.ops| == 3
    && s.lh == seq(k, i => first + i)
    && forall p | 0 <= p < 3 :: s.ops[p].Active? && |s.ops[p].logged| == Share(k, p)
  }

  predicate RoomToFill(g: Geometry, d: Image, first: nat, k: nat) {
    && WellFormed(g, d) && HeadList(d[g.start]) == []
    && k <= LOGSIZE && k < g.size
    && g.start + g.size <= first && first + LOGSIZE <= g.nblocks
  }

  lemma FillOne(g: Geometry, d: Image, s: State, first: nat, k: nat)
    requires RoomToFill(g, d, first, k + 1)
    requires Inv(g, s) && Filled(s, first, k)
    ensures var t := LogWrite(k / MAXOPBLOCKS, first + k, s.disk[first + k]);
            Enabled(g, s, t) && Filled(Do(g, s, t), first, k + 1)
  {
    hide GetWord, SetWord, HeadList, DiskInv, NamesInv, PutHead;
    var p := k / MAXOPBLOCKS;
    var t := LogWrite(p, first + k, s.disk[first + k]);
    assert first + k !in s.lh;
    assert |s.ops[p].logged + {first + k}| == Share(k, p) + 1 == Share(k + 1, p);
    assert forall q | 0 <= q < 3 && q != p :: Share(k + 1, q) == Share(k, q);
  }

  lemma Start(g: Geometry, d: Image, first: nat) returns (run: seq<State>, steps: seq<Step>)
    requires RoomToFill(g, d, first, 0)
    ensures IsRun(g, run, steps) && run[0].disk == d && Filled(run[|steps|], first, 0)
  {
    var s0 := State(d, d, [], 0, Running, [Idle, Idle, Idle], d, [], 0, 0, 0);
    var s1 := Do(g, s0, BeginOp(0));
    var s2 := Do(g, s1, BeginOp(1));
    var s3 := Do(g, s2, BeginOp(2));
    run, steps := [s0, s1, s2, s3], [BeginOp(0), BeginOp(1), BeginOp(2)];
  }

  lemma ExtendRun(g: Geometry, run: seq<State>, steps: seq<Step>, t: Step)
    requires IsRun(g, run, steps)
    requires Shape(g, run[|steps|]) && Enabled(g, run[|steps|], t)
    ensures IsRun(g, run + [Do(g, run[|steps|], t)], steps + [t])
  {
    hide Shape, Enabled, Do, Init;
    var r, ts := run + [Do(g, run[|steps|], t)], steps + [t];
    assert r[0] == run[0];
    forall i | 0 <= i < |ts|
      ensures Shape(g, r[i]) && Enabled(g, r[i], ts[i]) && r[i + 1] == Do(g, r[i], ts[i])
    {
      if i < |steps| {
        assert r[i] == run[i] && r[i + 1] == run[i + 1] && ts[i] == steps[i];
      }
    }
  }

  lemma {:induction false} Fill(g: Geometry, d: Image, first: nat, k: nat)
    returns (run: seq<State>, steps: seq<Step>)
    requires RoomToFill(g, d, first, k)
    ensures IsRun(g, run, steps) && Filled(run[|steps|], first, k)
  {
    if k == 0 {
      run, steps := Start(g, d, first);
    } else {
      run, steps := Fill(g, d, first, k - 1);
      var s := run[|steps|];
      RunInv(g, run, steps, |steps|);
      FillOne(g, d, s, first, k - 1);
      var t := LogWrite((k - 1) / MAXOPBLOCKS, first + k - 1, s.disk[first + k - 1]);
      ExtendRun(g, run, steps, t);
      run, steps := run + [Do(g, s, t)], steps + [t];
    }
  }

  /** In every run, every write of a block that needs a new slot and is within
      its operation's budget passes the guards. */
  ghost predicate GuardsNeverFire(g: Geometry) {
    forall run, steps, i, p, b, s |
      && IsRun(g, run, steps) && 0 <= i < |run| && s == run[i]
      && WithinBudget(s, p, b) && b !in s.lh :: Guards(g, s)
  }

  /** The reservation protects every such write exactly when the log area has a
      block to spare beyond LOGSIZE; the area mkfs makes, LOGSIZE blocks with the
      header among them, is one block too small. */
  lemma GuardsExactly(g: Geometry, d: Image)
    requires WellFormed(g, d) && HeadList(d[g.start]) == []
    requires g.start + g.size + LOGSIZE <= g.nblocks
    ensures GuardsNeverFire(g) <==> g.size >= LOGSIZE + 1
  {
    if g.size >= LOGSIZE + 1 {
      forall run, steps, i, p, b, s |
        && IsRun(g, run, steps) && 0 <= i < |run| && s == run[i]
        && WithinBudget(s, p, b) && b !in s.lh
        ensures Guards(g, s)
      {
        SlotReserved(g, run, steps, i, p, b);
      }
    } else {
      var first, k := g.start + g.size, g.size - 1;
      var run, steps := Fill(g, d, first, k);
      RunInv(g, run, steps, |steps|);
      var s := run[|steps|];
      assert first + k !in s.lh && !Guards(g, s);
      assert |s.ops[2].logged + {first + k}| <= |s.ops[2].logged| + 1;
      assert WithinBudget(s, 2, first + k);
    }
  }

  /** The guards are tested before absorption: with the log full, even writing a
      block again that needs no slot fails, whatever the size of the log area, so
      long as it holds a block besides the header. */
  lemma GuardsPrecedeAbsorption(g: Geometry, d: Image)
    returns (run: seq<State>, steps: seq<Step>, p: nat, b: nat)
    requires WellFormed(g, d) && HeadList(d[g.start]) == []
    requires g.size >= 2 && g.start + g.size + LOGSIZE <= g.nblocks
    ensures IsRun(g, run, steps)
    ensures var s := run[|steps|]; WithinBudget(s, p, b) && b in s.lh && !Guards(g, s)
  {
    var k := if LOGSIZE < g.size then LOGSIZE else g.size - 1;
    run, steps := Fill(g, d, g.start + g.size, k);
    RunInv(g, run, steps, |steps|);
    var s := run[|steps|];
    p := (k - 1) / MAXOPBLOCKS;
    assert s.ops[p].logged != {} by { assert Share(k, p) > 0; }
    b :| b in s.ops[p].logged;
    assert s.ops[p].logged + {b} == s.ops[p].logged;
  }
}
