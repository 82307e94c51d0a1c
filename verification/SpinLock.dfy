/** The lock lab's spin lock (`spinlock.c`): a test-and-set lock with interrupt
    nesting, which the process registered in `pid` may acquire again while it
    holds it and then releases once. Any number of CPUs take single steps. */
module SpinLock {
  import opened Wrappers

  // ---- Interrupt nesting on one CPU ----

  /** The interrupt flag, the depth of pushcli, and what the flag was at depth 0. */
  datatype Cpu = Cpu(ifl: bool, ncli: nat, intena: bool)

  function PushCli(c: Cpu): Cpu {
    Cpu(false, c.ncli + 1, if c.ncli == 0 then c.ifl else c.intena)
  }

  predicate CanPop(c: Cpu) {
    !c.ifl && c.ncli > 0
  }

  /** popcli where it does not panic. */
  function PopCli(c: Cpu): Cpu
    requires CanPop(c)
  {
    Cpu(c.ncli == 1 && c.intena, c.ncli - 1, c.intena)
  }

  /** Interrupts are off while any pushcli is outstanding. */
  predicate Sane(c: Cpu) {
    c.ncli > 0 ==> !c.ifl
  }

  function Pushed(c: Cpu, n: nat): Cpu {
    if n == 0 then c else PushCli(Pushed(c, n - 1))
  }

  ghost predicate Pops(c: Cpu, n: nat)
    decreases n
  {
    n == 0 || (CanPop(c) && Pops(PopCli(c), n - 1))
  }

  ghost function Popped(c: Cpu, n: nat): Cpu
    requires Pops(c, n)
    decreases n
  {
    if n == 0 then c else Popped(PopCli(c), n - 1)
  }

  lemma {:induction false} PopDown(x: Cpu, n: nat, ncli: nat, ifl: bool)
    requires x.ncli == ncli + n && (ncli > 0 ==> !ifl)
    requires if n == 0 then x.ifl == ifl else !x.ifl && (ncli == 0 ==> x.intena == ifl)
    ensures Pops(x, n) && Popped(x, n).ncli == ncli && Popped(x, n).ifl == ifl
    decreases n
  {
    if n > 0 {
      PopDown(PopCli(x), n - 1, ncli, ifl);
    }
  }

  lemma {:induction false} PushedIs(c: Cpu, n: nat)
    requires Sane(c) && n > 0
    ensures Pushed(c, n) == Cpu(false, c.ncli + n, if c.ncli == 0 then c.ifl else c.intena)
  {
    if n > 1 {
      PushedIs(c, n - 1);
    }
  }

  /** As many popclis as pushclis never panic, and restore depth and flag. */
  lemma PushPop(c: Cpu, n: nat)
    requires Sane(c)
    ensures Pops(Pushed(c, n), n)
    ensures Popped(Pushed(c, n), n).ncli == c.ncli && Popped(Pushed(c, n), n).ifl == c.ifl
  {
    if n > 0 {
      PushedIs(c, n);
    }
    PopDown(Pushed(c, n), n, c.ncli, c.ifl);
  }

  // ---- The lock ----

  /** Where a CPU is in acquire or release; `again` marks an acquire made while
      holding the lock. */
  datatype Pc =
    | Out | In
    | Test(again: bool) | Spin | NestPop | Record(again: bool)
    | TestR | ClearCpu | ClearLocked | Pop
    | Panicked(held: bool)

  datatype State = State(locked: bool, cpu: Option<nat>, pid: int, cpus: seq<Cpu>, pc: seq<Pc>, proc: seq<int>)

  /** CPU `c` takes its next step, or another process comes to run on it. When
      it is outside, its next step is to call acquire; inside, `again` chooses
      between acquire and release. */
  datatype Act = Step(c: nat, again: bool) | Switch(c: nat, pid: int)

  predicate Enabled(s: State, a: Act) {
    && a.c < |s.pc| == |s.cpus| == |s.proc|
    && (a.Switch? ==> s.pc[a.c] == Out)
    && (a.Step? ==> !s.pc[a.c].Panicked?)
  }

  /** The test in holding(). */
  predicate Holding(s: State, c: nat) {
    s.locked && s.cpu == Some(c)
  }

  function Goto(s: State, c: nat, p: Pc): State
    requires c < |s.pc|
  {
    s.(pc := s.pc[c := p])
  }

  /** popcli, with both of its panics, on the way to `next`. */
  function PopTo(s: State, c: nat, next: Pc, held: bool): State
    requires c < |s.pc| == |s.cpus|
  {
    if CanPop(s.cpus[c]) then Goto(s, c, next).(cpus := s.cpus[c := PopCli(s.cpus[c])])
    else Goto(s, c, Panicked(held))
  }

  function Do(s: State, a: Act): State
    requires Enabled(s, a)
  {
    match a
    case Switch(c, pid) => s.(proc := s.proc[c := pid])
    case Step(c, again) =>
      match s.pc[c]
      case Out => Goto(s, c, Test(false)).(cpus := s.cpus[c := PushCli(s.cpus[c])])
      case In =>
        if again then Goto(s, c, Test(true)).(cpus := s.cpus[c := PushCli(s.cpus[c])])
        else Goto(s, c, TestR)
      // acquire
      case Test(held) =>
        if !Holding(s, c) then Goto(s, c, Spin)
        else if s.proc[c] != s.pid then Goto(s, c, Panicked(held))
        else Goto(s, c, NestPop)
      case Spin => Goto(s, c, if s.locked then Spin else Record(false)).(locked := true)   // xchg
      case NestPop => PopTo(s, c, Record(true), true)
      case Record(_) => Goto(s, c, In).(cpu := Some(c))
      // release
      case TestR => Goto(s, c, if Holding(s, c) then ClearCpu else Panicked(true))
      case ClearCpu => Goto(s, c, ClearLocked).(cpu := None)
      case ClearLocked => Goto(s, c, Pop).(locked := false)
      case Pop => PopTo(s, c, Out, false)
      case Panicked(_) => s
  }

  // ---- The invariant ----

  /** From the xchg that took the lock to the store that frees it. */
  predicate Owns(p: Pc) {
    p.In? || p.Record? || p.NestPop? || (p.Test? && p.again) || p.TestR? || p.ClearCpu? || p.ClearLocked?
    || (p.Panicked? && p.held)
  }

  /** Owning, with lk->cpu set. */
  predicate Recorded(p: Pc) {
    p.In? || (p.Record? && p.again) || p.NestPop? || (p.Test? && p.again) || p.TestR? || p.ClearCpu?
    || (p.Panicked? && p.held)
  }

  /** Pushclis of this lock outstanding. */
  function Depth(p: Pc): nat {
    if p.Out? || p.Panicked? then 0
    else if p.NestPop? || (p.Test? && p.again) then 2
    else 1
  }

  ghost predicate Lock(s: State) {
    && |s.pc| == |s.cpus| == |s.proc|
    && (forall c, d | 0 <= c < d < |s.pc| :: !(Owns(s.pc[c]) && Owns(s.pc[d])))
    && (forall c | 0 <= c < |s.pc| && Owns(s.pc[c]) :: s.locked)
    && (forall c | 0 <= c < |s.pc| :: Recorded(s.pc[c]) <==> s.cpu == Some(c))
    && (s.locked ==> exists c | 0 <= c < |s.pc| :: Owns(s.pc[c]))
  }

  predicate BalancedCpu(cpu: Cpu, start: Cpu, depth: nat) {
    && cpu.ncli == start.ncli + depth
    && (if depth == 0 then cpu.ifl == start.ifl
        else !cpu.ifl && (start.ncli == 0 ==> cpu.intena == start.ifl))
  }

  /** Depth and flag are those at the start plus what this lock pushed. */
  ghost predicate Balanced(s: State, start: seq<Cpu>) {
    && |s.pc| == |s.cpus| == |start|
    && (forall c | 0 <= c < |s.pc| && !s.pc[c].Panicked? :: BalancedCpu(s.cpus[c], start[c], Depth(s.pc[c])))
  }

  predicate Init(s: State) {
    && |s.pc| == |s.cpus| == |s.proc| && !s.locked && s.cpu == None
    && (forall c | 0 <= c < |s.pc| :: s.pc[c] == Out && Sane(s.cpus[c]))
  }

  /** How the CPU that moves takes, keeps or gives up the lock and its record. */
  lemma OwnLock(s: State, a: Act)
    requires Enabled(s, a)
    requires Owns(s.pc[a.c]) ==> s.locked
    requires Recorded(s.pc[a.c]) <==> s.cpu == Some(a.c)
    ensures var s', c := Do(s, a), a.c;
      && |s'.pc| == |s'.cpus| == |s'.proc| == |s.pc| && s'.pc == s.pc[c := s'.pc[c]]
      && var p, q := s.pc[c], s'.pc[c];
      && (|| (Owns(q) == Owns(p) && s'.locked == s.locked)
          || (Owns(q) && !s.locked && s'.locked)
          || (Owns(p) && !Owns(q) && !s'.locked))
      && (|| (Recorded(q) == Recorded(p) && s'.cpu == s.cpu)
          || (Recorded(q) && Owns(p) && s'.cpu == Some(c))
          || (Recorded(p) && !Recorded(q) && s'.cpu == None))
      && (Recorded(p) ==> Owns(p)) && (Recorded(q) ==> Owns(q))
  {
    hide PushCli, PopCli, CanPop;
  }

  lemma LockStep(s: State, a: Act)
    requires Lock(s) && Enabled(s, a)
    ensures Lock(Do(s, a))
  {
    OwnLock(s, a);
    var s', c := Do(s, a), a.c;
    assert c < |s.pc|;
    assert forall d | 0 <= d < |s.pc| :: Recorded(s.pc[d]) ==> Owns(s.pc[d]);
    hide Do, Enabled, Owns, Recorded;
    assert forall d | 0 <= d < |s.pc| && d != c :: s'.pc[d] == s.pc[d];
    if s'.locked && !Owns(s'.pc[c]) {
      assert s.locked;
      var d :| 0 <= d < |s.pc| && Owns(s.pc[d]);
      assert Owns(s'.pc[d]);
    }
  }

  /** Depth and flag of the CPU that moves, given that holding() is exact for it. */
  lemma OwnBalance(s: State, a: Act, start: Cpu)
    requires Enabled(s, a) && Sane(start)
    requires s.pc[a.c].Test? || s.pc[a.c].TestR? ==> (Holding(s, a.c) <==> Recorded(s.pc[a.c]))
    requires !s.pc[a.c].Panicked? ==> BalancedCpu(s.cpus[a.c], start, Depth(s.pc[a.c]))
    ensures var s' := Do(s, a);
      && |s'.pc| == |s'.cpus| == |s.pc|
      && (!s'.pc[a.c].Panicked? ==> BalancedCpu(s'.cpus[a.c], start, Depth(s'.pc[a.c])))
  {
  }

  lemma BalancedStep(s: State, a: Act, start: seq<Cpu>)
    requires Lock(s) && Balanced(s, start) && Enabled(s, a) && forall c | 0 <= c < |start| :: Sane(start[c])
    ensures Balanced(Do(s, a), start)
  {
    var s', c := Do(s, a), a.c;
    assert forall d | 0 <= d < |s.pc| && d != c :: s'.pc[d] == s.pc[d] && s'.cpus[d] == s.cpus[d];
    assert s.pc[c].Test? || s.pc[c].TestR? ==> (Holding(s, c) <==> Recorded(s.pc[c]));
    OwnBalance(s, a, start[c]);
    hide Do, BalancedCpu, Depth, PushCli, PopCli, Recorded, Holding;
  }

  // ---- Runs ----

  ghost predicate IsRun(states: seq<State>, acts: seq<Act>) {
    && |states| == |acts| + 1 && Init(states[0])
    && (forall i | 0 <= i < |acts| :: Enabled(states[i], acts[i]) && states[i + 1] == Do(states[i], acts[i]))
  }

  lemma {:induction false} RunInv(states: seq<State>, acts: seq<Act>, i: nat)
    requires IsRun(states, acts) && i < |states|
    ensures Lock(states[i]) && Balanced(states[i], states[0].cpus)
  {
    if i > 0 {
      RunInv(states, acts, i - 1);
      LockStep(states[i - 1], acts[i - 1]);
      BalancedStep(states[i - 1], acts[i - 1], states[0].cpus);
    }
  }

  /** At most one CPU is between taking the lock and freeing it. */
  lemma MutualExclusion(states: seq<State>, acts: seq<Act>, i: nat, c: nat, d: nat)
    requires IsRun(states, acts) && i < |states| && c < |states[i].pc| && d < |states[i].pc|
    requires Owns(states[i].pc[c]) && Owns(states[i].pc[d])
    ensures c == d && states[i].locked
  {
    RunInv(states, acts, i);
  }

  /** Wherever a CPU evaluates holding(), outside or inside, the answer is
      whether it owns the lock. */
  lemma HoldingExact(states: seq<State>, acts: seq<Act>, i: nat, c: nat)
    requires IsRun(states, acts) && i < |states| && c < |states[i].pc|
    requires var p := states[i].pc[c]; p.Out? || p.In? || p.Test? || p.TestR?
    ensures Holding(states[i], c) <==> Owns(states[i].pc[c])
  {
    RunInv(states, acts, i);
  }

  /** Where popcli is called it finds interrupts off and a pushcli to undo. */
  lemma PopsAreSafe(states: seq<State>, acts: seq<Act>, i: nat, c: nat)
    requires IsRun(states, acts) && i < |states| && c < |states[i].pc|
    requires states[i].pc[c].NestPop? || states[i].pc[c].Pop?
    ensures c < |states[i].cpus| && CanPop(states[i].cpus[c])
  {
    RunInv(states, acts, i);
  }

  /** Of all the panics of acquire, release and popcli, one can happen: a
      process that is not the registered one takes the lock again. */
  lemma {:induction false} PanicsOnlyUnregistered(states: seq<State>, acts: seq<Act>, i: nat, c: nat)
    requires IsRun(states, acts) && i < |acts| && acts[i].Step? && c == acts[i].c < |states[i].pc|
    ensures c < |states[i + 1].pc| && c < |states[i].proc|
    ensures states[i + 1].pc[c].Panicked? <==> states[i].pc[c] == Test(true) && states[i].proc[c] != states[i].pid
  {
    RunInv(states, acts, i);
    assert states[i + 1] == Do(states[i], acts[i]) && Enabled(states[i], acts[i]);
    var p := states[i].pc[c];
    if p.Out? || p.In? || p.Test? || p.TestR? {
      HoldingExact(states, acts, i, c);
    } else if p.NestPop? || p.Pop? {
      PopsAreSafe(states, acts, i, c);
    }
  }

  /** However often a CPU has acquired the lock before its one release, once it
      is outside again its depth and interrupt flag are as at the start, and
      the lock is free unless another CPU has it. */
  lemma ReleaseRestores(states: seq<State>, acts: seq<Act>, i: nat, c: nat)
    requires IsRun(states, acts) && i < |states| && c < |states[i].pc| && states[i].pc[c] == Out
    ensures |states[0].cpus| == |states[i].cpus| == |states[i].pc|
    ensures states[i].cpus[c].ncli == states[0].cpus[c].ncli && states[i].cpus[c].ifl == states[0].cpus[c].ifl
    ensures states[i].cpu != Some(c)
    ensures states[i].locked ==> exists d | 0 <= d < |states[i].pc| :: d != c && Owns(states[i].pc[d])
  {
    RunInv(states, acts, i);
  }

  // ---- recursionLock and reentrant ----

  /** The acts of one CPU for `n` nested acquires of a free lock. */
  function Acquires(c: nat, n: nat): seq<Act> {
    if n == 0 then []
    else if n == 1 then [Step(c, false), Step(c, false), Step(c, false), Step(c, false)]
    else Acquires(c, n - 1) + [Step(c, true), Step(c, false), Step(c, false), Step(c, false)]
  }

  function Releases(c: nat): seq<Act> {
    [Step(c, false), Step(c, false), Step(c, false), Step(c, false), Step(c, false)]
  }

  ghost predicate Can(s: State, acts: seq<Act>)
    decreases |acts|
  {
    acts == [] || (Enabled(s, acts[0]) && Can(Do(s, acts[0]), acts[1..]))
  }

  ghost function After(s: State, acts: seq<Act>): State
    requires Can(s, acts)
    decreases |acts|
  {
    if acts == [] then s else After(Do(s, acts[0]), acts[1..])
  }

  lemma {:induction false} AfterConcat(s: State, a: seq<Act>, b: seq<Act>)
    requires Can(s, a) && Can(After(s, a), b)
    ensures Can(s, a + b) && After(s, a + b) == After(After(s, a), b)
    decreases |a|
  {
    if a == [] {
      assert a + b == b;
    } else {
      AfterConcat(Do(s, a[0]), a[1..], b);
      assert (a + b)[1..] == a[1..] + b;
    }
  }

  lemma AfterCons(s: State, a: Act, rest: seq<Act>)
    requires Enabled(s, a) && Can(Do(s, a), rest)
    ensures Can(s, [a] + rest) && After(s, [a] + rest) == After(Do(s, a), rest)
  {
    assert ([a] + rest)[1..] == rest;
  }

  /** The lock in the hands of CPU `c`. */
  function Held(s: State, c: nat): State
    requires c < |s.pc| == |s.cpus|
  {
    s.(locked := true, cpu := Some(c), pc := s.pc[c := In], cpus := s.cpus[c := PushCli(s.cpus[c])])
  }

  predicate Free(s: State, c: nat) {
    && c < |s.pc| == |s.cpus| == |s.proc| && !s.locked && s.cpu == None
    && s.pc[c] == Out && Sane(s.cpus[c]) && s.proc[c] == s.pid
  }

  lemma FirstAcquire(s: State, c: nat)
    requires Free(s, c)
    ensures Can(s, Acquires(c, 1)) && After(s, Acquires(c, 1)) == Held(s, c)
  {
    var a := Step(c, false);
    var s1 := Do(s, a);
    var s2 := Do(s1, a);
    var s3 := Do(s2, a);
    var s4 := Do(s3, a);
    assert s4 == Held(s, c);
    AfterCons(s3, a, []);
    AfterCons(s2, a, [a]);
    AfterCons(s1, a, [a, a]);
    AfterCons(s, a, [a, a, a]);
    assert [a] + [a] == [a, a] && [a] + [a, a] == [a, a, a] && [a] + [a, a, a] == Acquires(c, 1);
    assert [a] + [] == [a];
  }

  /** Acquiring again changes nothing. */
  lemma AcquireAgain(s: State, c: nat)
    requires Free(s, c)
    ensures var h := Held(s, c);
      var acts := [Step(c, true), Step(c, false), Step(c, false), Step(c, false)];
      Can(h, acts) && After(h, acts) == h
  {
    var h, a := Held(s, c), Step(c, false);
    var h1 := Do(h, Step(c, true));
    var h2 := Do(h1, a);
    var h3 := Do(h2, a);
    var h4 := Do(h3, a);
    assert h4 == h;
    AfterCons(h3, a, []);
    AfterCons(h2, a, [a]);
    AfterCons(h1, a, [a, a]);
    AfterCons(h, Step(c, true), [a, a, a]);
    assert [a] + [a] == [a, a] && [a] + [a, a] == [a, a, a] && [a] + [] == [a];
    assert [Step(c, true)] + [a, a, a] == [Step(c, true), a, a, a];
  }

  lemma {:induction false} AcquiresHold(s: State, c: nat, n: nat)
    requires Free(s, c) && n > 0
    ensures Can(s, Acquires(c, n)) && After(s, Acquires(c, n)) == Held(s, c)
  {
    if n == 1 {
      FirstAcquire(s, c);
    } else {
      AcquiresHold(s, c, n - 1);
      AcquireAgain(s, c);
      AfterConcat(s, Acquires(c, n - 1), [Step(c, true), Step(c, false), Step(c, false), Step(c, false)]);
    }
  }

  lemma OneRelease(s: State, c: nat)
    requires Free(s, c)
    ensures Can(Held(s, c), Releases(c))
    ensures var r := After(Held(s, c), Releases(c));
      Free(r, c) && r.cpus[c].ncli == s.cpus[c].ncli && r.cpus[c].ifl == s.cpus[c].ifl
  {
    var h, a := Held(s, c), Step(c, false);
    var h1 := Do(h, a);
    var h2 := Do(h1, a);
    var h3 := Do(h2, a);
    var h4 := Do(h3, a);
    assert CanPop(h4.cpus[c]);
    var h5 := Do(h4, a);
    AfterCons(h4, a, []);
    AfterCons(h3, a, [a]);
    AfterCons(h2, a, [a, a]);
    AfterCons(h1, a, [a, a, a]);
    AfterCons(h, a, [a, a, a, a]);
    assert [a] + [] == [a] && [a] + [a] == [a, a] && [a] + [a, a] == [a, a, a] && [a] + [a, a, a] == [a, a, a, a];
    assert [a] + [a, a, a, a] == Releases(c);
  }

  /** The registered process may acquire the lock any number of times: one
      release leaves it free, with depth and interrupt flag as before. */
  lemma NestedAcquires(s: State, c: nat, n: nat)
    requires Free(s, c) && n > 0
    ensures var acts := Acquires(c, n) + Releases(c);
      && Can(s, acts)
      && var r := After(s, acts);
      Free(r, c) && r.cpus[c].ncli == s.cpus[c].ncli && r.cpus[c].ifl == s.cpus[c].ifl
  {
    AcquiresHold(s, c, n);
    OneRelease(s, c);
    AfterConcat(s, Acquires(c, n), Releases(c));
  }
}
