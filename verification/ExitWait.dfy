/** fork, exit, wait and kill over the process table (`proc.c`). Each operation
    on the table is one critical section of ptable.lock (or one write to a slot
    only its owner uses), and processes take them in any order. */
module ExitWait {
  import opened Wrappers

  const INIT: nat := 0   // the slot of initproc

  datatype PState = Unused | Embryo | Sleeping | Runnable | Running | Zombie

  /** What a process sleeps on: a process's address, or anything else. */
  datatype Chan = OfProc(p: nat) | Other(n: nat)

  /** `making` is the local `np` of a fork under way. */
  datatype Proc = Proc(state: PState, pid: nat, parent: Option<nat>, chan: Option<Chan>, killed: bool,
                       making: Option<nat>)

  /** The table, and the pid of whoever reaped each pid that is gone. */
  datatype Table = Table(procs: seq<Proc>, nextpid: nat, reaped: map<nat, nat>)

  predicate Active(p: Proc) {
    p.state == Sleeping || p.state == Runnable || p.state == Running
  }

  predicate InWait(t: seq<Proc>, p: nat)
    requires p < |t|
  {
    t[p].state == Sleeping && t[p].chan == Some(OfProc(p))
  }

  predicate IsChild(t: seq<Proc>, c: nat, p: nat)
    requires c < |t|
  {
    t[c].parent == Some(p)
  }

  // ---- The invariant ----

  /** What process `p` is making is under construction, and its own. */
  predicate Makes(t: seq<Proc>, p: nat)
    requires p < |t|
  {
    t[p].making.Some? ==>
      var np := t[p].making.value;
      && Active(t[p]) && np < |t| && t[np].state == Embryo && (t[np].parent == None || t[np].parent == Some(p))
  }

  predicate MadeBy(t: seq<Proc>, c: nat)
    requires c < |t|
  {
    t[c].state == Embryo && t[c].parent.Some? ==>
      t[c].parent.value < |t| && t[t[c].parent.value].making == Some(c)
  }

  /** A process under construction belongs to the one fork that makes it. */
  ghost predicate Forks(t: seq<Proc>) {
    && (forall p {:trigger Makes(t, p)} | 0 <= p < |t| :: Makes(t, p))
    && (forall c {:trigger MadeBy(t, c)} | 0 <= c < |t| :: MadeBy(t, c))
    && (forall p, q | 0 <= p < q < |t| && t[p].making.Some? :: t[p].making != t[q].making)
  }

  predicate HasLiveParent(t: seq<Proc>, c: nat)
    requires c < |t|
  {
    t[c].parent.Some? && t[c].parent.value < |t| && Active(t[t[c].parent.value])
  }

  predicate Cared(t: seq<Proc>, c: nat)
    requires c < |t|
  {
    c != INIT && (Active(t[c]) || t[c].state == Zombie) ==> HasLiveParent(t, c)
  }

  /** Every process but init has a live parent; init is live. */
  ghost predicate Parents(t: seq<Proc>) {
    && INIT < |t| && Active(t[INIT]) && t[INIT].parent == None
    && (forall c {:trigger Cared(t, c)} | 0 <= c < |t| :: Cared(t, c))
    && (forall c | 0 <= c < |t| && t[c].state == Unused :: t[c].parent == None)
    && (forall c | 0 <= c < |t| :: t[c].parent != Some(c))
  }

  /** No process is asleep in wait while it has a zombie child. */
  ghost predicate NoneOverlooked(t: seq<Proc>) {
    forall p, c | 0 <= p < |t| && 0 <= c < |t| && InWait(t, p) && IsChild(t, c, p) :: t[c].state != Zombie
  }

  /** Pids are given out once. */
  ghost predicate Pids(t: Table) {
    && t.nextpid > 0
    && (forall p | 0 <= p < |t.procs| :: t.procs[p].pid < t.nextpid)
    && (forall p | 0 <= p < |t.procs| && t.procs[p].state != Unused :: t.procs[p].pid != 0)
    && (forall p, q | 0 <= p < q < |t.procs| && t.procs[p].pid != 0 :: t.procs[p].pid != t.procs[q].pid)
    && (forall pid | pid in t.reaped :: pid < t.nextpid)
    && (forall p | 0 <= p < |t.procs| && t.procs[p].pid != 0 :: t.procs[p].pid !in t.reaped)
  }

  ghost predicate Inv(t: Table) {
    Forks(t.procs) && Parents(t.procs) && NoneOverlooked(t.procs) && Pids(t)
  }

  // ---- The operations ----

  function Woken(p: Proc, chan: Chan): Proc {
    if p.state == Sleeping && p.chan == Some(chan) then p.(state := Runnable) else p
  }

  /** wakeup1. */
  function Wake(t: seq<Proc>, chan: Chan): (r: seq<Proc>)
    ensures |r| == |t|
  {
    seq(|t|, i requires 0 <= i < |t| => Woken(t[i], chan))
  }

  ghost predicate HasZombie(t: seq<Proc>, p: nat) {
    exists c | 0 <= c < |t| :: IsChild(t, c, p) && t[c].state == Zombie
  }

  function Orphaned(p: Proc, cur: nat): Proc {
    if p.parent == Some(cur) then p.(parent := Some(INIT)) else p
  }

  /** exit's second loop: the children go to init, which is woken for zombies. */
  ghost function Reparent(t: seq<Proc>, cur: nat): (r: seq<Proc>)
    ensures |r| == |t|
  {
    var u := seq(|t|, i requires 0 <= i < |t| => Orphaned(t[i], cur));
    if HasZombie(t, cur) then Wake(u, OfProc(INIT)) else u
  }

  ghost function Exited(t: seq<Proc>, cur: nat): (r: seq<Proc>)
    requires cur < |t| && t[cur].parent.Some?
    ensures |r| == |t|
  {
    var u := Reparent(Wake(t, OfProc(t[cur].parent.value)), cur);
    u[cur := u[cur].(state := Zombie)]
  }

  datatype Op =
    | AllocProc(cur: nat, np: nat)   // fork found the unused slot np
    | ForkFail(cur: nat)             // no stack or no memory
    | SetParent(cur: nat)
    | ForkDone(cur: nat)
    | Exit(cur: nat)
    | Reap(cur: nat, c: nat)         // wait found the zombie c
    | WaitSleep(cur: nat)            // wait found children but no zombie
    | SleepOn(cur: nat, chan: Chan)
    | Wakeup(chan: Chan)
    | Kill(p: nat)                   // kill found its pid in slot p
    | Fault(cur: nat)                // a trap in user code marks its own process
    | Dispatch(p: nat)               // the scheduler runs p
    | Yield(cur: nat)

  ghost predicate Enabled(t: Table, op: Op) {
    var s := t.procs;
    match op
    case AllocProc(cur, np) => cur < |s| && np < |s| && s[cur].state == Running && s[cur].making == None
                               && s[np].state == Unused
    case ForkFail(cur) => cur < |s| && s[cur].state == Running && s[cur].making.Some?
                          && s[cur].making.value < |s| && s[s[cur].making.value].parent == None
    case SetParent(cur) => cur < |s| && s[cur].state == Running && s[cur].making.Some? && s[cur].making.value < |s|
    case ForkDone(cur) => cur < |s| && s[cur].state == Running && s[cur].making.Some? && s[cur].making.value < |s|
                          && s[s[cur].making.value].parent == Some(cur)
    case Exit(cur) => cur < |s| && cur != INIT && s[cur].state == Running && s[cur].making == None
                      && s[cur].parent.Some?
    case Reap(cur, c) => cur < |s| && c < |s| && s[cur].state == Running && IsChild(s, c, cur) && s[c].state == Zombie
    case WaitSleep(cur) => cur < |s| && s[cur].state == Running && !HasZombie(s, cur)
    case SleepOn(cur, chan) => cur < |s| && s[cur].state == Running && chan != OfProc(cur)
    case Wakeup(chan) => true
    case Kill(p) => p < |s|
    case Fault(cur) => cur < |s| && s[cur].state == Running
    case Dispatch(p) => p < |s| && s[p].state == Runnable
    case Yield(cur) => cur < |s| && s[cur].state == Running
  }

  ghost function Do(t: Table, op: Op): Table
    requires Enabled(t, op)
  {
    var s := t.procs;
    match op
    case AllocProc(cur, np) =>
      var s1 := s[np := s[np].(state := Embryo, pid := t.nextpid)];
      t.(procs := s1[cur := s1[cur].(making := Some(np))], nextpid := t.nextpid + 1)
    case ForkFail(cur) =>
      var np := s[cur].making.value;
      var s1 := s[np := s[np].(state := Unused)];
      t.(procs := s1[cur := s1[cur].(making := None)])
    case SetParent(cur) =>
      var np := s[cur].making.value;
      t.(procs := s[np := s[np].(parent := Some(cur))])
    case ForkDone(cur) =>
      var np := s[cur].making.value;
      var s1 := s[np := s[np].(state := Runnable)];
      t.(procs := s1[cur := s1[cur].(making := None)])
    case Exit(cur) => t.(procs := Exited(s, cur))
    case Reap(cur, c) =>
      t.(procs := s[c := s[c].(state := Unused, pid := 0, parent := None, killed := false)],
         reaped := t.reaped[s[c].pid := s[cur].pid])
    case WaitSleep(cur) => t.(procs := s[cur := s[cur].(state := Sleeping, chan := Some(OfProc(cur)))])
    case SleepOn(cur, chan) => t.(procs := s[cur := s[cur].(state := Sleeping, chan := Some(chan))])
    case Wakeup(chan) => t.(procs := Wake(s, chan))
    case Kill(p) =>
      t.(procs := s[p := s[p].(killed := true, state := if s[p].state == Sleeping then Runnable else s[p].state)])
    case Fault(cur) => t.(procs := s[cur := s[cur].(killed := true)])
    case Dispatch(p) => t.(procs := s[p := s[p].(state := Running, chan := None)])
    case Yield(cur) => t.(procs := s[cur := s[cur].(state := Runnable)])
  }

  // ---- Every operation keeps the invariant ----

  lemma WakeKeeps(t: seq<Proc>, chan: Chan)
    ensures forall i | 0 <= i < |t| ::
              var a, b := t[i], Wake(t, chan)[i];
              && b.parent == a.parent && b.pid == a.pid && b.making == a.making && Active(b) == Active(a)
              && b.chan == a.chan && (b.state != a.state ==> a.state == Sleeping && b.state == Runnable)
              && (a.state == Sleeping && a.chan == Some(chan) ==> b.state == Runnable)
  {
  }

  /** exit, slot by slot. */
  lemma ExitedSlots(t: seq<Proc>, cur: nat)
    requires cur < |t| && t[cur].parent.Some? && t[cur].parent != Some(cur)
    ensures forall i | 0 <= i < |t| ::
              var a, b := t[i], Exited(t, cur)[i];
              && b.parent == (if a.parent == Some(cur) then Some(INIT) else a.parent)
              && b.pid == a.pid && b.making == a.making && b.chan == a.chan
              && (i == cur ==> b.state == Zombie)
              && (i != cur ==>
                    Active(b) == Active(a) && (b.state != a.state ==> a.state == Sleeping && b.state == Runnable))
              && (i != cur && a.state == Sleeping && a.chan == Some(OfProc(t[cur].parent.value)) ==>
                    b.state == Runnable)
              && (i != cur && HasZombie(t, cur) && a.state == Sleeping && a.chan == Some(OfProc(INIT)) ==>
                    b.state == Runnable)
  {
    var w := Wake(t, OfProc(t[cur].parent.value));
    if HasZombie(t, cur) {
      var c :| 0 <= c < |t| && IsChild(t, c, cur) && t[c].state == Zombie;
      assert IsChild(w, c, cur) && w[c].state == Zombie;
    }
  }

  /** The forest of processes is the same; only who runs and who sleeps differs. */
  predicate SameKind(a: Proc, b: Proc) {
    && b.parent == a.parent && b.pid == a.pid && b.making == a.making
    && Active(b) == Active(a) && (Active(a) || b.state == a.state)
  }

  ghost predicate SameForest(s: seq<Proc>, s': seq<Proc>) {
    |s'| == |s| && forall i | 0 <= i < |s| :: SameKind(s[i], s'[i])
  }

  lemma ForestKeeps(s: seq<Proc>, s': seq<Proc>)
    requires Forks(s) && Parents(s) && SameForest(s, s')
    ensures Forks(s') && Parents(s')
  {
    forall i | 0 <= i < |s| ensures Makes(s', i) && MadeBy(s', i) && Cared(s', i) {
      assert Makes(s, i) && MadeBy(s, i) && Cared(s, i);
    }
  }

  /** Operations that neither make nor end a process. */
  predicate Sleeps(op: Op) {
    op.WaitSleep? || op.SleepOn? || op.Wakeup? || op.Kill? || op.Fault? || op.Dispatch? || op.Yield?
  }

  lemma SleepForest(t: Table, op: Op)
    requires Enabled(t, op) && Sleeps(op)
    ensures var t' := Do(t, op);
      && SameForest(t.procs, t'.procs) && t'.nextpid == t.nextpid && t'.reaped == t.reaped
      && (forall p | 0 <= p < |t.procs| && InWait(t'.procs, p) :: InWait(t.procs, p) || !HasZombie(t.procs, p))
  {
    if op.Wakeup? {
      WakeKeeps(t.procs, op.chan);
    }
  }

  lemma SleepKeeps(t: Table, op: Op)
    requires Inv(t) && Enabled(t, op) && Sleeps(op)
    ensures Inv(Do(t, op))
  {
    hide Do, Enabled, Sleeps, Makes, MadeBy, Cared;
    SleepForest(t, op);
    var s, s' := t.procs, Do(t, op).procs;
    ForestKeeps(s, s');
    forall p, c | 0 <= p < |s'| && 0 <= c < |s'| && InWait(s', p) && IsChild(s', c, p) ensures s'[c].state != Zombie {
      assert SameKind(s[c], s'[c]) && IsChild(s, c, p);
    }
    assert forall i | 0 <= i < |s| :: SameKind(s[i], s'[i]);
  }

  lemma NobodysParent(t: Table, c: nat)
    requires Forks(t.procs) && Parents(t.procs) && c < |t.procs| && !Active(t.procs[c])
    ensures t.procs[c].making == None
    ensures forall i | 0 <= i < |t.procs| :: t.procs[i].parent != Some(c)
  {
    var s := t.procs;
    assert Makes(s, c);
    forall i | 0 <= i < |s| ensures s[i].parent != Some(c) {
      assert Cared(s, i) && MadeBy(s, i);
    }
  }

  lemma ReapKeeps(t: Table, cur: nat, c: nat)
    requires Inv(t) && Enabled(t, Reap(cur, c))
    ensures Inv(Do(t, Reap(cur, c)))
  {
    NobodysParent(t, c);
    var s, s' := t.procs, Do(t, Reap(cur, c)).procs;
    forall i | 0 <= i < |s| ensures Makes(s', i) && MadeBy(s', i) && Cared(s', i) {
      assert Makes(s, i) && MadeBy(s, i) && Cared(s, i);
    }
    forall p, k | 0 <= p < |s'| && 0 <= k < |s'| && InWait(s', p) && IsChild(s', k, p) ensures s'[k].state != Zombie {
      assert k != c && p != c;
      assert InWait(s, p) && IsChild(s, k, p);
    }
  }

  lemma ExitForest(t: Table, cur: nat)
    requires Forks(t.procs) && Parents(t.procs) && Enabled(t, Exit(cur))
    ensures Forks(Exited(t.procs, cur)) && Parents(Exited(t.procs, cur))
  {
    var s, s' := t.procs, Exited(t.procs, cur);
    ExitedSlots(s, cur);
    hide Exited;
    forall i | 0 <= i < |s| ensures Makes(s', i) && MadeBy(s', i) && Cared(s', i) {
      assert Makes(s, i) && MadeBy(s, i) && Cared(s, i);
    }
  }

  lemma ExitKeeps(t: Table, cur: nat)
    requires Inv(t) && Enabled(t, Exit(cur))
    ensures Inv(Do(t, Exit(cur)))
  {
    var s, s' := t.procs, Do(t, Exit(cur)).procs;
    ExitForest(t, cur);
    ExitedSlots(s, cur);
    hide Exited, Forks, Makes, MadeBy, Cared;
    forall p, c | 0 <= p < |s'| && 0 <= c < |s'| && InWait(s', p) && IsChild(s', c, p) ensures s'[c].state != Zombie {
      assert InWait(s, p) && (IsChild(s, c, cur) || IsChild(s, c, p));
    }
  }

  lemma OverlookedKeeps(s: seq<Proc>, s': seq<Proc>)
    requires NoneOverlooked(s) && |s'| == |s|
    requires forall c | 0 <= c < |s| :: s'[c].state == Zombie ==> s[c].state == Zombie && s'[c].parent == s[c].parent
    requires forall p | 0 <= p < |s| && InWait(s', p) :: InWait(s, p)
    ensures NoneOverlooked(s')
  {
    forall p, c | 0 <= p < |s'| && 0 <= c < |s'| && InWait(s', p) && IsChild(s', c, p) ensures s'[c].state != Zombie {
      assert InWait(s, p) && (s'[c].state == Zombie ==> IsChild(s, c, p));
    }
  }

  lemma ForkPids(t: Table, op: Op)
    requires Pids(t) && Enabled(t, op) && (op.AllocProc? || op.ForkFail? || op.SetParent? || op.ForkDone?)
    requires op.ForkDone? ==> t.procs[t.procs[op.cur].making.value].pid != 0
    ensures Pids(Do(t, op))
  {
    var s, s' := t.procs, Do(t, op).procs;
    if op.AllocProc? {
      assert forall i | 0 <= i < |s| && i != op.np :: s'[i].pid == s[i].pid;
    } else {
      assert forall i | 0 <= i < |s| :: s'[i].pid == s[i].pid;
    }
  }

  lemma AllocForest(t: Table, cur: nat, np: nat)
    requires Forks(t.procs) && Parents(t.procs) && Enabled(t, AllocProc(cur, np))
    ensures Forks(Do(t, AllocProc(cur, np)).procs) && Parents(Do(t, AllocProc(cur, np)).procs)
  {
    var s, s' := t.procs, Do(t, AllocProc(cur, np)).procs;
    NobodysParent(t, np);
    forall q | 0 <= q < |s| ensures s[q].making != Some(np) {
      assert Makes(s, q);
    }
    forall i | 0 <= i < |s| ensures Makes(s', i) && MadeBy(s', i) && Cared(s', i) {
      assert Makes(s, i) && MadeBy(s, i) && Cared(s, i);
    }
  }

  lemma AllocKeeps(t: Table, cur: nat, np: nat)
    requires Inv(t) && Enabled(t, AllocProc(cur, np))
    ensures Inv(Do(t, AllocProc(cur, np)))
  {
    var s, s' := t.procs, Do(t, AllocProc(cur, np)).procs;
    AllocForest(t, cur, np);
    ForkPids(t, AllocProc(cur, np));
    hide Pids, Forks, Parents, Makes, MadeBy, Cared;
    OverlookedKeeps(s, s');
  }

  lemma ForkFailForest(t: Table, cur: nat)
    requires Forks(t.procs) && Parents(t.procs) && Enabled(t, ForkFail(cur))
    ensures Forks(Do(t, ForkFail(cur)).procs) && Parents(Do(t, ForkFail(cur)).procs)
  {
    var s, s' := t.procs, Do(t, ForkFail(cur)).procs;
    assert Makes(s, cur);
    NobodysParent(t, s[cur].making.value);
    forall i | 0 <= i < |s| ensures Makes(s', i) && MadeBy(s', i) && Cared(s', i) {
      assert Makes(s, i) && MadeBy(s, i) && Cared(s, i);
    }
  }

  lemma ForkFailKeeps(t: Table, cur: nat)
    requires Inv(t) && Enabled(t, ForkFail(cur))
    ensures Inv(Do(t, ForkFail(cur)))
  {
    var s, s' := t.procs, Do(t, ForkFail(cur)).procs;
    assert Makes(s, cur);
    ForkFailForest(t, cur);
    ForkPids(t, ForkFail(cur));
    hide Pids, Forks, Parents, Makes, MadeBy, Cared;
    OverlookedKeeps(s, s');
  }

  lemma SetParentForest(t: Table, cur: nat)
    requires Forks(t.procs) && Parents(t.procs) && Enabled(t, SetParent(cur))
    ensures Forks(Do(t, SetParent(cur)).procs) && Parents(Do(t, SetParent(cur)).procs)
  {
    var s, s' := t.procs, Do(t, SetParent(cur)).procs;
    assert Makes(s, cur);
    forall i | 0 <= i < |s| ensures Makes(s', i) && MadeBy(s', i) && Cared(s', i) {
      assert Makes(s, i) && MadeBy(s, i) && Cared(s, i);
    }
  }

  lemma SetParentKeeps(t: Table, cur: nat)
    requires Inv(t) && Enabled(t, SetParent(cur))
    ensures Inv(Do(t, SetParent(cur)))
  {
    var s, s' := t.procs, Do(t, SetParent(cur)).procs;
    assert Makes(s, cur);
    SetParentForest(t, cur);
    ForkPids(t, SetParent(cur));
    hide Pids, Forks, Parents, Makes, MadeBy, Cared;
    OverlookedKeeps(s, s');
  }

  lemma ForkDoneForest(t: Table, cur: nat)
    requires Forks(t.procs) && Parents(t.procs) && Enabled(t, ForkDone(cur))
    ensures Forks(Do(t, ForkDone(cur)).procs) && Parents(Do(t, ForkDone(cur)).procs)
  {
    var s, s' := t.procs, Do(t, ForkDone(cur)).procs;
    assert Makes(s, cur);
    NobodysParent(t, s[cur].making.value);
    forall i | 0 <= i < |s| ensures Makes(s', i) && MadeBy(s', i) && Cared(s', i) {
      assert Makes(s, i) && MadeBy(s, i) && Cared(s, i);
    }
  }

  lemma ForkDoneKeeps(t: Table, cur: nat)
    requires Inv(t) && Enabled(t, ForkDone(cur))
    ensures Inv(Do(t, ForkDone(cur)))
  {
    var s, s' := t.procs, Do(t, ForkDone(cur)).procs;
    assert Makes(s, cur);
    ForkDoneForest(t, cur);
    ForkPids(t, ForkDone(cur));
    hide Pids, Forks, Parents, Makes, MadeBy, Cared;
    OverlookedKeeps(s, s');
  }

  lemma StepInv(t: Table, op: Op)
    requires Inv(t) && Enabled(t, op)
    ensures Inv(Do(t, op))
  {
    hide Inv, Enabled, Do;
    match op
    case AllocProc(cur, np) => AllocKeeps(t, cur, np);
    case ForkFail(cur) => ForkFailKeeps(t, cur);
    case SetParent(cur) => SetParentKeeps(t, cur);
    case ForkDone(cur) => ForkDoneKeeps(t, cur);
    case Exit(cur) => ExitKeeps(t, cur);
    case Reap(cur, c) => ReapKeeps(t, cur, c);
    case _ => SleepKeeps(t, op);
  }

  // ---- Runs ----

  /** After userinit: init can run, and no other slot is used. */
  predicate Init(t: Table) {
    && INIT < |t.procs| && t.procs[INIT] == Proc(Runnable, 1, None, None, false, None)
    && (forall p | 0 <= p < |t.procs| && p != INIT :: t.procs[p] == Proc(Unused, 0, None, None, false, None))
    && t.nextpid == 2 && t.reaped == map[]
  }

  ghost predicate IsRun(ts: seq<Table>, ops: seq<Op>) {
    && |ts| == |ops| + 1 && Init(ts[0])
    && (forall i | 0 <= i < |ops| :: Enabled(ts[i], ops[i]) && ts[i + 1] == Do(ts[i], ops[i]))
  }

  lemma InitInv(t: Table)
    requires Init(t)
    ensures Inv(t)
  {
    forall i | 0 <= i < |t.procs| ensures Makes(t.procs, i) && MadeBy(t.procs, i) && Cared(t.procs, i) {
    }
  }

  lemma {:induction false} RunInv(ts: seq<Table>, ops: seq<Op>, i: nat)
    requires IsRun(ts, ops) && i < |ts|
    ensures Inv(ts[i])
  {
    if i == 0 {
      InitInv(ts[0]);
    } else {
      RunInv(ts, ops, i - 1);
      StepInv(ts[i - 1], ops[i - 1]);
    }
  }

  /** No process is ever asleep in wait while it has a zombie child. */
  lemma NoZombieOverlooked(ts: seq<Table>, ops: seq<Op>, i: nat, p: nat, c: nat)
    requires IsRun(ts, ops) && i < |ts| && p < |ts[i].procs| && c < |ts[i].procs|
    requires InWait(ts[i].procs, p) && IsChild(ts[i].procs, c, p)
    ensures ts[i].procs[c].state != Zombie
  {
    RunInv(ts, ops, i);
  }

  /** Every process but init, zombies included, has a parent that can still wait for it. */
  lemma LiveParents(ts: seq<Table>, ops: seq<Op>, i: nat, c: nat)
    requires IsRun(ts, ops) && i < |ts| && c < |ts[i].procs| && c != INIT
    requires Active(ts[i].procs[c]) || ts[i].procs[c].state == Zombie
    ensures HasLiveParent(ts[i].procs, c)
  {
    RunInv(ts, ops, i);
    assert Cared(ts[i].procs, c);
  }

  lemma {:induction false} ReapedStays(ts: seq<Table>, ops: seq<Op>, i: nat, j: nat)
    requires IsRun(ts, ops) && i <= j < |ts|
    ensures forall pid | pid in ts[i].reaped :: pid in ts[j].reaped
    decreases j - i
  {
    if i < j {
      ReapedStays(ts, ops, i, j - 1);
      assert ts[j] == Do(ts[j - 1], ops[j - 1]);
    }
  }

  /** A process is reaped at most once, and by its parent at that moment. */
  lemma ReapedOnce(ts: seq<Table>, ops: seq<Op>, i: nat, j: nat)
    requires IsRun(ts, ops) && i < j < |ops| && ops[i].Reap? && ops[j].Reap?
    ensures ops[i].c < |ts[i].procs| && ops[j].c < |ts[j].procs|
    ensures ts[i].procs[ops[i].c].pid != ts[j].procs[ops[j].c].pid
    ensures ts[i].procs[ops[i].c].parent == Some(ops[i].cur)
  {
    RunInv(ts, ops, j);
    RunInv(ts, ops, i);
    assert Enabled(ts[i], ops[i]) && Enabled(ts[j], ops[j]);
    assert ts[i + 1] == Do(ts[i], ops[i]);
    ReapedStays(ts, ops, i + 1, j);
  }

  // ---- The life of a slot ----

  /** What wakes the sleeper in slot `p`: a wakeup on its channel, a kill, or an
      exit when it waits as the parent, or as init for zombies it is given. */
  ghost predicate WokenBy(t: Table, op: Op, p: nat)
    requires p < |t.procs|
  {
    var chan := t.procs[p].chan;
    match op
    case Kill(q) => q == p
    case Wakeup(c) => chan == Some(c)
    case Exit(cur) =>
      && cur < |t.procs| && t.procs[cur].parent.Some?
      && (chan == Some(OfProc(t.procs[cur].parent.value))
          || (HasZombie(t.procs, cur) && chan == Some(OfProc(INIT))))
    case _ => false
  }

  predicate MakesSlot(t: Table, cur: nat, p: nat) {
    cur < |t.procs| && t.procs[cur].making == Some(p)
  }

  /** The operation takes slot `p` from its state to `b`. */
  ghost predicate Takes(t: Table, op: Op, p: nat, b: PState)
    requires p < |t.procs|
  {
    match t.procs[p].state
    case Unused => b == Embryo && op.AllocProc? && op.np == p
    case Embryo =>
      || (b == Runnable && op.ForkDone? && MakesSlot(t, op.cur, p))
      || (b == Unused && op.ForkFail? && MakesSlot(t, op.cur, p))
    case Runnable => b == Running && op == Dispatch(p)
    case Running =>
      || (b == Runnable && op == Yield(p))
      || (b == Sleeping && (op.SleepOn? || op.WaitSleep?) && op.cur == p)
      || (b == Zombie && op == Exit(p))
    case Sleeping => b == Runnable && WokenBy(t, op, p)
    case Zombie => b == Unused && op.Reap? && op.c == p
  }

  /** These are the changes of state there are. */
  lemma Life(t: Table, op: Op, p: nat, b: PState)
    requires Inv(t) && Enabled(t, op) && p < |t.procs| && b != t.procs[p].state
    ensures |Do(t, op).procs| == |t.procs| && (Do(t, op).procs[p].state == b <==> Takes(t, op, p, b))
  {
    if op.Exit? {
      ExitLife(t, op.cur, p, b);
    } else if op.ForkFail? || op.ForkDone? || op.SetParent? || op.AllocProc? {
      ForkLife(t, op, p, b);
    } else {
      hide Inv, HasZombie;
    }
  }

  lemma ForkLife(t: Table, op: Op, p: nat, b: PState)
    requires Inv(t) && Enabled(t, op) && p < |t.procs| && b != t.procs[p].state
    requires op.ForkFail? || op.ForkDone? || op.SetParent? || op.AllocProc?
    ensures |Do(t, op).procs| == |t.procs| && (Do(t, op).procs[p].state == b <==> Takes(t, op, p, b))
  {
    assert Makes(t.procs, op.cur);
    hide Inv;
  }

  lemma ExitLife(t: Table, cur: nat, p: nat, b: PState)
    requires Inv(t) && Enabled(t, Exit(cur)) && p < |t.procs| && b != t.procs[p].state
    ensures |Do(t, Exit(cur)).procs| == |t.procs|
    ensures Do(t, Exit(cur)).procs[p].state == b <==> Takes(t, Exit(cur), p, b)
  {
    assert t.procs[cur].parent != Some(cur);
    hide Inv;
    ExitedSlots(t.procs, cur);
    if p != cur {
      ExitWakes(t.procs, cur, p);
    }
    hide HasZombie, Exited;
  }

  lemma ExitWakes(t: seq<Proc>, cur: nat, p: nat)
    requires cur < |t| && t[cur].parent.Some? && t[cur].parent != Some(cur) && p < |t| && p != cur
    ensures t[p].state == Sleeping && Exited(t, cur)[p].state != Sleeping ==>
              || t[p].chan == Some(OfProc(t[cur].parent.value))
              || (HasZombie(t, cur) && t[p].chan == Some(OfProc(INIT)))
  {
    var w := Wake(t, OfProc(t[cur].parent.value));
    if HasZombie(w, cur) {
      var c :| 0 <= c < |w| && IsChild(w, c, cur) && w[c].state == Zombie;
      assert IsChild(t, c, cur) && t[c].state == Zombie;
    }
  }

  // ---- Whom kill finds ----

  /** The slot at which kill's loop over the table stops. */
  predicate FirstWith(t: seq<Proc>, pid: nat, p: nat) {
    p < |t| && t[p].pid == pid && forall q | 0 <= q < p :: t[q].pid != pid
  }

  /** In a reachable table kill stops at a process exactly when some process has
      the pid, and then at that one; pid 0 belongs to no process. */
  lemma KillFindsProcess(ts: seq<Table>, ops: seq<Op>, i: nat, pid: nat, p: nat)
    requires IsRun(ts, ops) && i < |ts| && FirstWith(ts[i].procs, pid, p)
    ensures var t := ts[i].procs;
      && (t[p].state != Unused <==> exists q | 0 <= q < |t| :: t[q].state != Unused && t[q].pid == pid)
      && (forall q | 0 <= q < |t| && t[q].state != Unused && t[q].pid == pid :: q == p)
      && (pid == 0 ==> t[p].state == Unused)
  {
    RunInv(ts, ops, i);
  }

  /** Kill need not stop at a process: a fork that fails for lack of memory
      leaves its pid in the slot it gives back. */
  lemma StalePid() returns (ts: seq<Table>, ops: seq<Op>, pid: nat)
    ensures IsRun(ts, ops) && pid != 0
    ensures var t := ts[|ops|].procs; FirstWith(t, pid, 1) && t[1].state == Unused
  {
    var t0 := Table([Proc(Runnable, 1, None, None, false, None), Proc(Unused, 0, None, None, false, None)], 2, map[]);
    var t1 := Do(t0, Dispatch(0));
    var t2 := Do(t1, AllocProc(0, 1));
    var t3 := Do(t2, ForkFail(0));
    ts, ops, pid := [t0, t1, t2, t3], [Dispatch(0), AllocProc(0, 1), ForkFail(0)], 2;
  }

  // ---- The loops over the table ----

  datatype Waited = Reaped(pid: nat) | NoChildren | Slept

  function Partly(t: seq<Proc>, chan: Chan, n: nat): (r: seq<Proc>)
    ensures |r| == |t|
  {
    seq(|t|, i requires 0 <= i < |t| => if i < n then Woken(t[i], chan) else t[i])
  }

  ghost predicate ZombieBelow(t: seq<Proc>, p: nat, n: nat) {
    exists c | 0 <= c < n && c < |t| :: IsChild(t, c, p) && t[c].state == Zombie
  }

  ghost function PartlyReparented(t: seq<Proc>, cur: nat, n: nat): (r: seq<Proc>)
    ensures |r| == |t|
  {
    var u := seq(|t|, i requires 0 <= i < |t| => if i < n then Orphaned(t[i], cur) else t[i]);
    if ZombieBelow(t, cur, n) then Wake(u, OfProc(INIT)) else u
  }

  ghost predicate Childless(t: seq<Proc>, p: nat) {
    forall c | 0 <= c < |t| :: !IsChild(t, c, p)
  }

  class Ptable {
    var procs: seq<Proc>
    var nextpid: nat
    ghost var reaped: map<nat, nat>

    ghost function View(): Table
      reads this
    {
      Table(procs, nextpid, reaped)
    }

    method Wakeup1(chan: Chan)
      modifies this`procs
      ensures procs == Wake(old(procs), chan)
    {
      ghost var was := procs;
      var i := 0;
      while i < |procs|
        invariant 0 <= i <= |procs| == |was| && procs == Partly(was, chan, i)
      {
        if procs[i].state == Sleeping && procs[i].chan == Some(chan) {
          procs := procs[i := procs[i].(state := Runnable)];
        }
        i := i + 1;
      }
    }

    /** allocproc's critical section, for the fork of `cur`. */
    method AllocProc(cur: nat) returns (r: Option<nat>)
      requires cur < |procs| && procs[cur].state == Running && procs[cur].making == None
      modifies this`procs, this`nextpid
      ensures r.None? ==> View() == old(View()) && forall p | 0 <= p < |procs| :: procs[p].state != Unused
      ensures r.Some? ==>
                var op := Op.AllocProc(cur, r.value);
                && Enabled(old(View()), op) && View() == Do(old(View()), op)
                && forall q | 0 <= q < r.value :: old(procs)[q].state != Unused
    {
      var p := 0;
      while p < |procs|
        invariant 0 <= p <= |procs| && forall q | 0 <= q < p :: procs[q].state != Unused
      {
        if procs[p].state == Unused {
          procs := procs[p := procs[p].(state := Embryo, pid := nextpid)];
          nextpid := nextpid + 1;
          procs := procs[cur := procs[cur].(making := Some(p))];
          return Some(p);
        }
        p := p + 1;
      }
      r := None;
    }

    /** exit, from acquiring ptable.lock to leaving the processor. */
    method Exit(cur: nat)
      requires Inv(View()) && Enabled(View(), Op.Exit(cur))
      modifies this`procs
      ensures View() == old(Do(View(), Op.Exit(cur)))
    {
      hide Inv, Forks, Parents, Pids;
      Wakeup1(OfProc(procs[cur].parent.value));
      ghost var w := procs;
      assert procs == PartlyReparented(w, cur, 0);
      var p := 0;
      while p < |procs|
        invariant 0 <= p <= |procs| == |w| && procs == PartlyReparented(w, cur, p)
      {
        ReparentOne(w, cur, p);
        if procs[p].parent == Some(cur) {
          procs := procs[p := procs[p].(parent := Some(INIT))];
          if procs[p].state == Zombie {
            Wakeup1(OfProc(INIT));
          }
        }
        p := p + 1;
      }
      assert procs == Reparent(w, cur);
      procs := procs[cur := procs[cur].(state := Zombie)];
    }

    /** One pass of wait over the table, up to its return or its sleep. */
    method Wait(cur: nat) returns (r: Waited)
      requires Inv(View()) && cur < |procs| && procs[cur].state == Running
      modifies this`procs, this`reaped
      ensures r.Reaped? <==> old(HasZombie(procs, cur))
      ensures r.NoChildren? <==> old(!HasZombie(procs, cur) && (procs[cur].killed || Childless(procs, cur)))
      ensures r.Reaped? ==> exists c: nat ::
                && Enabled(old(View()), Reap(cur, c)) && View() == Do(old(View()), Reap(cur, c))
                && r.pid == old(procs)[c].pid
                && forall d | 0 <= d < c :: IsChild(old(procs), d, cur) ==> old(procs)[d].state != Zombie
      ensures r.NoChildren? ==> View() == old(View())
      ensures r.Slept? ==> Enabled(old(View()), WaitSleep(cur)) && View() == Do(old(View()), WaitSleep(cur))
    {
      hide Inv;
      var havekids := false;
      var p := 0;
      while p < |procs|
        invariant 0 <= p <= |procs|
        invariant forall c | 0 <= c < p && IsChild(procs, c, cur) :: procs[c].state != Zombie
        invariant havekids <==> exists c | 0 <= c < p :: IsChild(procs, c, cur)
      {
        if procs[p].parent == Some(cur) {
          assert IsChild(procs, p, cur);
          havekids := true;
          if procs[p].state == Zombie {
            var pid := procs[p].pid;
            reaped := reaped[pid := procs[cur].pid];
            procs := procs[p := procs[p].(pid := 0, parent := None, killed := false, state := Unused)];
            return Reaped(pid);
          }
        }
        p := p + 1;
      }
      if !havekids || procs[cur].killed {
        return NoChildren;
      }
      ghost var c :| 0 <= c < |procs| && IsChild(procs, c, cur);
      procs := procs[cur := procs[cur].(state := Sleeping, chan := Some(OfProc(cur)))];
      assert IsChild(procs, c, cur);
      r := Slept;
    }

    /** Marks and wakes what is in the first slot with this pid. */
    method Kill(pid: nat) returns (r: int)
      modifies this`procs
      ensures r == 0 || r == -1
      ensures r == 0 ==> exists p: nat ::
                && FirstWith(old(procs), pid, p) && Enabled(old(View()), Op.Kill(p))
                && View() == Do(old(View()), Op.Kill(p))
      ensures r == -1 ==> View() == old(View()) && forall p | 0 <= p < |procs| :: procs[p].pid != pid
    {
      var p := 0;
      while p < |procs|
        invariant 0 <= p <= |procs| && forall q | 0 <= q < p :: procs[q].pid != pid
      {
        if procs[p].pid == pid {
          procs := procs[p := procs[p].(killed := true)];
          if procs[p].state == Sleeping {
            procs := procs[p := procs[p].(state := Runnable)];
          }
          assert View() == old(Do(View(), Op.Kill(p)));
          return 0;
        }
        p := p + 1;
      }
      r := -1;
    }
  }

  lemma ReparentOne(w: seq<Proc>, cur: nat, p: nat)
    requires p < |w|
    ensures var a := PartlyReparented(w, cur, p);
      && a[p].parent == w[p].parent && (a[p].state == Zombie <==> w[p].state == Zombie)
      && PartlyReparented(w, cur, p + 1) ==
         (var b := if w[p].parent == Some(cur) then a[p := a[p].(parent := Some(INIT))] else a;
          if w[p].parent == Some(cur) && w[p].state == Zombie then Wake(b, OfProc(INIT)) else b)
    ensures PartlyReparented(w, cur, |w|) == Reparent(w, cur)
  {
    assert ZombieBelow(w, cur, p + 1) <==> ZombieBelow(w, cur, p) || (IsChild(w, p, cur) && w[p].state == Zombie);
    assert ZombieBelow(w, cur, |w|) <==> HasZombie(w, cur);
  }
}
