/** What becomes of the mark that `kill` leaves (`proc.c`): it stays with the slot,
    not with the process, until the slot is reaped. */
module KillMarks {
  import opened ExitWait
  import opened Wrappers

  predicate Marks(op: Op, p: nat) {
    op == Kill(p) || op == Fault(p)
  }

  predicate ReapsSlot(op: Op, p: nat) {
    op.Reap? && op.c == p
  }

  /** A fork that was making a process in slot `p` fails. */
  predicate FailsSlot(t: Table, op: Op, p: nat) {
    op.ForkFail? && op.cur < |t.procs| && t.procs[op.cur].making == Some(p)
  }

  predicate NotReaped(ops: seq<Op>, i: nat, j: nat, p: nat) {
    forall m | i <= m < j && m < |ops| :: !ReapsSlot(ops[m], p)
  }

  /** The slot has been marked, and not reaped since. */
  ghost predicate MarkedSince(ops: seq<Op>, i: nat, p: nat) {
    exists k | 0 <= k < i && k < |ops| :: Marks(ops[k], p) && NotReaped(ops, k + 1, i, p)
  }

  lemma MarkStep(t: Table, op: Op, p: nat)
    requires Inv(t) && Enabled(t, op) && p < |t.procs|
    ensures |Do(t, op).procs| == |t.procs|
    ensures Do(t, op).procs[p].killed <==> Marks(op, p) || (t.procs[p].killed && !ReapsSlot(op, p))
  {
    if op.Exit? {
      KilledKept(t.procs, op.cur);
    }
  }

  lemma KilledKept(s: seq<Proc>, cur: nat)
    requires cur < |s| && s[cur].parent.Some?
    ensures forall i | 0 <= i < |s| :: Exited(s, cur)[i].killed == s[i].killed
  {
  }

  lemma MarkedNext(ops: seq<Op>, i: nat, p: nat)
    requires i < |ops|
    ensures MarkedSince(ops, i + 1, p) <==> Marks(ops[i], p) || (MarkedSince(ops, i, p) && !ReapsSlot(ops[i], p))
  {
    hide Marks, ReapsSlot;
    if MarkedSince(ops, i, p) && !ReapsSlot(ops[i], p) {
      var k :| 0 <= k < i && Marks(ops[k], p) && NotReaped(ops, k + 1, i, p);
      assert NotReaped(ops, k + 1, i + 1, p);
    }
    if Marks(ops[i], p) {
      assert NotReaped(ops, i + 1, i + 1, p);
    }
    if MarkedSince(ops, i + 1, p) && !Marks(ops[i], p) {
      var k :| 0 <= k < i + 1 && Marks(ops[k], p) && NotReaped(ops, k + 1, i + 1, p);
      assert k < i && NotReaped(ops, k + 1, i, p);
    }
  }

  /** A slot is marked exactly when a kill stopped at it, or its process faulted,
      after the slot was last reaped; no fork clears the mark. */
  lemma {:induction false} KilledExactly(ts: seq<Table>, ops: seq<Op>, i: nat, p: nat)
    requires IsRun(ts, ops) && i < |ts| && p < |ts[0].procs|
    ensures |ts[i].procs| == |ts[0].procs|
    ensures ts[i].procs[p].killed <==> MarkedSince(ops, i, p)
  {
    if i > 0 {
      KilledExactly(ts, ops, i - 1, p);
      RunInv(ts, ops, i - 1);
      hide Inv, Do, Enabled, Marks, ReapsSlot;
      MarkStep(ts[i - 1], ops[i - 1], p);
      MarkedNext(ops, i - 1, p);
      hide MarkedSince;
    }
  }

  // ---- Killed processes wake ----

  predicate GoesToSleep(op: Op, p: nat) {
    (op.SleepOn? || op.WaitSleep?) && op.cur == p
  }

  /** After a kill that stopped at slot `p` its process sleeps only if it has gone
      to sleep since. */
  lemma {:induction false} KilledWakes(ts: seq<Table>, ops: seq<Op>, k: nat, j: nat, p: nat)
    requires IsRun(ts, ops) && k < j < |ts| && ops[k] == Kill(p) && p < |ts[0].procs|
    requires forall m | k < m < j :: !GoesToSleep(ops[m], p)
    ensures |ts[j].procs| == |ts[0].procs| && ts[j].procs[p].state != Sleeping
    decreases j - k
  {
    hide Inv, Do, Enabled, Takes, MarkedSince;
    KilledExactly(ts, ops, j, p);
    KilledExactly(ts, ops, j - 1, p);
    RunInv(ts, ops, j - 1);
    if j == k + 1 {
      KillRouses(ts[k], p);
    } else {
      KilledWakes(ts, ops, k, j - 1, p);
      SleepsOnlySo(ts[j - 1], ops[j - 1], p);
    }
  }

  lemma KillRouses(t: Table, p: nat)
    requires Enabled(t, Kill(p))
    ensures Do(t, Kill(p)).procs[p].state != Sleeping
  {
  }

  lemma SleepsOnlySo(t: Table, op: Op, p: nat)
    requires Inv(t) && Enabled(t, op) && p < |t.procs| && t.procs[p].state != Sleeping && !GoesToSleep(op, p)
    ensures |Do(t, op).procs| == |t.procs| && Do(t, op).procs[p].state != Sleeping
  {
    Life(t, op, p, Sleeping);
    hide Inv, Do, Enabled;
  }

  // ---- Whose mark it is ----

  /** A slot in use keeps its process until it is reaped or the fork fails. */
  lemma UseStep(t: Table, op: Op, p: nat)
    requires Inv(t) && Enabled(t, op) && p < |t.procs| == |Do(t, op).procs|
    ensures var a, b := t.procs[p], Do(t, op).procs[p];
      && Do(t, op).nextpid >= t.nextpid
      && (a.state != Unused && !ReapsSlot(op, p) && !FailsSlot(t, op, p) ==>
            b.state != Unused && b.pid == a.pid && (b.state == Embryo ==> a.state == Embryo))
      && (a.state == Unused && b.state != Unused ==> b.pid == t.nextpid)
      && (a.state != Unused && b.state != Unused ==> b.pid == a.pid)
      && (FailsSlot(t, op, p) ==> a.state == Embryo && b.state == Unused)
  {
    if op.Exit? {
      ExitedSlots(t.procs, op.cur);
    } else if op.Wakeup? {
      WakeKeeps(t.procs, op.chan);
    } else if op.ForkFail? || op.ForkDone? || op.SetParent? {
      assert Makes(t.procs, op.cur);
    }
  }

  ghost predicate NotFailed(ts: seq<Table>, ops: seq<Op>, i: nat, j: nat, p: nat) {
    forall m | i <= m < j && m < |ops| && m < |ts| :: !FailsSlot(ts[m], ops[m], p)
  }

  lemma {:induction false} SameProcess(ts: seq<Table>, ops: seq<Op>, i: nat, j: nat, p: nat)
    requires IsRun(ts, ops) && i <= j < |ts| && p < |ts[0].procs|
    requires |ts[i].procs| == |ts[0].procs| && ts[i].procs[p].state != Unused
    requires NotReaped(ops, i, j, p) && NotFailed(ts, ops, i, j, p)
    ensures |ts[j].procs| == |ts[0].procs|
    ensures var a, b := ts[i].procs[p], ts[j].procs[p];
      b.state != Unused && b.pid == a.pid && (b.state == Embryo ==> a.state == Embryo)
    decreases j - i
  {
    hide Inv, Do, Enabled, MarkedSince, ReapsSlot;
    if i < j {
      SameProcess(ts, ops, i, j - 1, p);
      RunInv(ts, ops, j - 1);
      KilledExactly(ts, ops, j, p);
      UseStep(ts[j - 1], ops[j - 1], p);
    }
  }

  /** What is in a slot that was empty has a pid given out since. */
  lemma {:induction false} LaterPid(ts: seq<Table>, ops: seq<Op>, i: nat, j: nat, p: nat)
    requires IsRun(ts, ops) && i <= j < |ts| && p < |ts[0].procs|
    requires |ts[i].procs| == |ts[0].procs| && ts[i].procs[p].state == Unused
    ensures |ts[j].procs| == |ts[0].procs| && ts[j].nextpid >= ts[i].nextpid
    ensures ts[j].procs[p].state == Unused || ts[j].procs[p].pid >= ts[i].nextpid
    decreases j - i
  {
    hide Inv, Do, Enabled, MarkedSince, ReapsSlot;
    if i < j {
      LaterPid(ts, ops, i, j - 1, p);
      RunInv(ts, ops, j - 1);
      KilledExactly(ts, ops, j, p);
      UseStep(ts[j - 1], ops[j - 1], p);
    }
  }

  /** The mark of the kill at step `k` is still on slot `p` at moment `j`, and a
      process is there: then it is marked. It has another pid than the slot had at
      the kill, so it is not the process that kill was to find, exactly when the
      slot was unused then, or its process was still being made and that fork has
      failed. */
  lemma MarkGoesAstray(ts: seq<Table>, ops: seq<Op>, k: nat, j: nat, p: nat)
    requires IsRun(ts, ops) && k < j < |ts| && ops[k] == Kill(p) && p < |ts[0].procs|
    requires NotReaped(ops, k + 1, j, p)
    ensures |ts[k].procs| == |ts[j].procs| == |ts[0].procs| && ts[j].procs[p].killed
    ensures var a, b := ts[k].procs[p], ts[j].procs[p];
      b.state != Unused ==>
        (b.pid != a.pid <==> a.state == Unused || (a.state == Embryo && !NotFailed(ts, ops, k, j, p)))
  {
    KilledExactly(ts, ops, k, p);
    KilledExactly(ts, ops, j, p);
    RunInv(ts, ops, k);
    var a, b := ts[k].procs[p], ts[j].procs[p];
    assert NotReaped(ops, k, j, p);
    assert a.pid < ts[k].nextpid;
    hide Inv, Do, Enabled;
    if a.state == Unused {
      LaterPid(ts, ops, k, j, p);
    } else if NotFailed(ts, ops, k, j, p) {
      SameProcess(ts, ops, k, j, p);
    } else {
      FailedFork(ts, ops, k, j, p);
    }
  }

  lemma {:induction false} FirstFailure(ts: seq<Table>, ops: seq<Op>, k: nat, j: nat, p: nat) returns (m: nat)
    requires k < j && !NotFailed(ts, ops, k, j, p)
    ensures k <= m < j && m < |ops| && m < |ts| && FailsSlot(ts[m], ops[m], p) && NotFailed(ts, ops, k, m, p)
    decreases j - k
  {
    hide FailsSlot;
    if NotFailed(ts, ops, k, j - 1, p) {
      m := j - 1;
    } else {
      m := FirstFailure(ts, ops, k, j - 1, p);
    }
  }

  /** The first fork to fail was making the process that was there at `k`, and
      whatever comes after has a later pid. */
  lemma FailedFork(ts: seq<Table>, ops: seq<Op>, k: nat, j: nat, p: nat)
    requires IsRun(ts, ops) && k < j < |ts| && p < |ts[0].procs| && |ts[k].procs| == |ts[0].procs|
    requires ts[k].procs[p].state != Unused && NotReaped(ops, k, j, p) && !NotFailed(ts, ops, k, j, p)
    ensures ts[k].procs[p].state == Embryo && |ts[j].procs| == |ts[0].procs|
    ensures ts[j].procs[p].state != Unused ==> ts[j].procs[p].pid != ts[k].procs[p].pid
  {
    var m := FirstFailure(ts, ops, k, j, p);
    SameProcess(ts, ops, k, m, p);
    RunInv(ts, ops, m);
    KilledExactly(ts, ops, m + 1, p);
    UseStep(ts[m], ops[m], p);
    LaterPid(ts, ops, m + 1, j, p);
    assert ts[m].procs[p].pid < ts[m].nextpid;
    hide Inv, Do, Enabled;
  }

  /** Two slots, init in the first, and what is in the second. */
  function Pair(init: PState, making: Option<nat>, p: Proc, nextpid: nat): Table {
    Table([Proc(init, 1, None, None, false, making), p], nextpid, map[])
  }

  lemma OneMore(ts: seq<Table>, ops: seq<Op>, op: Op, t: Table) returns (us: seq<Table>, ps: seq<Op>)
    requires IsRun(ts, ops) && Enabled(ts[|ops|], op) && t == Do(ts[|ops|], op)
    ensures us == ts + [t] && ps == ops + [op] && IsRun(us, ps)
    ensures |ts| == |ops| + 1 && us[|ps|] == t
  {
    hide Enabled, Do, Init;
    us, ps := ts + [t], ops + [op];
    assert us[0] == ts[0];
    forall i | 0 <= i < |ps| ensures Enabled(us[i], ps[i]) && us[i + 1] == Do(us[i], ps[i]) {
      if i < |ops| {
        assert us[i] == ts[i] && us[i + 1] == ts[i + 1] && ps[i] == ops[i];
      }
    }
  }

  /** A fork of init that succeeds, with whatever mark is on the slot. */
  lemma ForkSucceeds(ts: seq<Table>, ops: seq<Op>, pid: nat, killed: bool, next: nat)
    returns (us: seq<Table>, ps: seq<Op>)
    requires IsRun(ts, ops)
    requires ts[|ops|] == Pair(Running, None, Proc(Unused, pid, None, None, killed, None), next)
    ensures IsRun(us, ps) && |us| == |ts| + 3 && |ps| == |ops| + 3 && ts <= us && ops <= ps
    ensures us[|ps|] == Pair(Running, None, Proc(Runnable, next, Some(0), None, killed, None), next + 1)
  {
    hide IsRun;
    us, ps := OneMore(ts, ops, AllocProc(0, 1),
                      Pair(Running, Some(1), Proc(Embryo, next, None, None, killed, None), next + 1));
    us, ps := OneMore(us, ps, SetParent(0),
                      Pair(Running, Some(1), Proc(Embryo, next, Some(0), None, killed, None), next + 1));
    us, ps := OneMore(us, ps, ForkDone(0),
                      Pair(Running, None, Proc(Runnable, next, Some(0), None, killed, None), next + 1));
  }

  lemma InitRuns() returns (ts: seq<Table>, ops: seq<Op>)
    ensures IsRun(ts, ops) && |ops| == 1 && |ts| == 2
    ensures ts[1] == Pair(Running, None, Proc(Unused, 0, None, None, false, None), 2)
  {
    var t0 := Pair(Runnable, None, Proc(Unused, 0, None, None, false, None), 2);
    ts, ops := OneMore([t0], [], Dispatch(0), Pair(Running, None, Proc(Unused, 0, None, None, false, None), 2));
  }

  /** `kill(0)` marks an unused slot, and the next process in it is born killed. */
  lemma StrayKill() returns (ts: seq<Table>, ops: seq<Op>)
    ensures IsRun(ts, ops) && |ops| == 5 && ops[1] == Kill(1)
    ensures FirstWith(ts[1].procs, 0, 1) && ts[1].procs[1].state == Unused
    ensures var t := ts[5].procs; |t| == 2 && t[1].state == Runnable && t[1].pid != 0 && t[1].killed
  {
    ts, ops := InitRuns();
    hide IsRun;
    ts, ops := OneMore(ts, ops, Kill(1), Pair(Running, None, Proc(Unused, 0, None, None, true, None), 2));
    var us, ps := ts, ops;
    ts, ops := ForkSucceeds(ts, ops, 0, true, 2);
    assert ts[1] == us[1] && ops[1] == ps[1];
  }

  /** So does a kill that found a process in the making, when its fork fails. */
  lemma StrayKillOfEmbryo() returns (ts: seq<Table>, ops: seq<Op>)
    ensures IsRun(ts, ops) && |ops| == 7 && ops[2] == Kill(1)
    ensures FirstWith(ts[2].procs, 2, 1) && ts[2].procs[1].state == Embryo
    ensures var t := ts[7].procs; |t| == 2 && t[1].state == Runnable && t[1].pid == 3 && t[1].killed
  {
    ts, ops := InitRuns();
    hide IsRun;
    ts, ops := OneMore(ts, ops, AllocProc(0, 1), Pair(Running, Some(1), Proc(Embryo, 2, None, None, false, None), 3));
    ts, ops := OneMore(ts, ops, Kill(1), Pair(Running, Some(1), Proc(Embryo, 2, None, None, true, None), 3));
    ts, ops := OneMore(ts, ops, ForkFail(0), Pair(Running, None, Proc(Unused, 2, None, None, true, None), 3));
    var us, ps := ts, ops;
    ts, ops := ForkSucceeds(ts, ops, 2, true, 3);
    assert ts[2] == us[2] && ops[2] == ps[2];
  }
}
