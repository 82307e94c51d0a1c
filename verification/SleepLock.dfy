/** Sleep locks over sleep and wakeup (`sleeplock.c`, `proc.c`), as a machine in
    which any number of processes take single steps in any order: acquiring and
    releasing the two spin locks, and each read or write under them. */
module SleepLock {
  import opened Wrappers

  /** Where a process is. `mine` records whether a caller of holdingsleep owns
      the lock, `i` the next slot wakeup1 looks at. */
  datatype Pc =
    | Idle
    // acquiresleep
    | WantLk | Test | SetLocked | SetPid | AcqDone
    // sleep, called from acquiresleep
    | WantPt | DropLk | SetChan | SetState | Sched | Asleep | ClearChan | DropPt
    // the owner, and releasesleep with wakeup inside
    | Owner | RelLk | ClearLocked | ClearPid | RelPt | Scan(i: nat) | RelDropPt | RelDropLk
    // holdingsleep
    | HoldLk(mine: bool) | HoldTest(mine: bool) | HoldDone(mine: bool, answer: bool)

  /** The sleep lock's fields and spin lock, ptable.lock, and the processes. */
  datatype State = State(pc: seq<Pc>, sleeping: seq<bool>, chan: seq<bool>,
                         lk: Option<nat>, pt: Option<nat>, locked: bool, pid: nat)

  datatype Want = Lock | Release | Ask

  /** A process runs one step (`want` matters where it has a choice), or kill
      wakes process `p`. */
  datatype Act = Run(p: nat, want: Want) | Kill(p: nat)

  function PidOf(p: nat): (n: nat)
    ensures n > 0
  {
    p + 1
  }

  predicate Init(s: State) {
    && |s.sleeping| == |s.pc| == |s.chan|
    && (forall p | 0 <= p < |s.pc| :: s.pc[p] == Idle && !s.sleeping[p] && !s.chan[p])
    && s.lk == None && s.pt == None && !s.locked && s.pid == 0
  }

  /** A spin lock is waited for until free; a sleeping process does not run; a
      woken one takes ptable.lock over from the scheduler. */
  predicate Enabled(s: State, a: Act) {
    && a.p < |s.pc| == |s.sleeping| == |s.chan|
    && match a
       case Kill(p) => s.pt == None
       case Run(p, want) =>
         match s.pc[p]
         case Idle => want != Release
         case Owner => want != Lock
         case WantLk => s.lk == None
         case RelLk => s.lk == None
         case HoldLk(_) => s.lk == None
         case WantPt => s.pt == None
         case RelPt => s.pt == None
         case Asleep => !s.sleeping[p] && s.pt == None
         case _ => true
  }

  function Goto(s: State, p: nat, c: Pc): State
    requires p < |s.pc|
  {
    s.(pc := s.pc[p := c])
  }

  function Do(s: State, a: Act): State
    requires Enabled(s, a)
  {
    match a
    case Kill(p) => s.(sleeping := s.sleeping[p := false])
    case Run(p, want) =>
      match s.pc[p]
      case Idle => Goto(s, p, if want == Lock then WantLk else HoldLk(false))
      // acquire(&lk->lk); while(lk->locked) sleep; set; release
      case WantLk => Goto(s, p, Test).(lk := Some(p))
      case Test => Goto(s, p, if s.locked then WantPt else SetLocked)
      case SetLocked => Goto(s, p, SetPid).(locked := true)
      case SetPid => Goto(s, p, AcqDone).(pid := PidOf(p))
      case AcqDone => Goto(s, p, Owner).(lk := None)
      // sleep: ptable.lock is taken before lk is let go
      case WantPt => Goto(s, p, DropLk).(pt := Some(p))
      case DropLk => Goto(s, p, SetChan).(lk := None)
      case SetChan => Goto(s, p, SetState).(chan := s.chan[p := true])
      case SetState => Goto(s, p, Sched).(sleeping := s.sleeping[p := true])
      case Sched => Goto(s, p, Asleep).(pt := None)
      case Asleep => Goto(s, p, ClearChan).(pt := Some(p))
      case ClearChan => Goto(s, p, DropPt).(chan := s.chan[p := false])
      case DropPt => Goto(s, p, WantLk).(pt := None)
      // releasesleep
      case Owner => Goto(s, p, if want == Release then RelLk else HoldLk(true))
      case RelLk => Goto(s, p, ClearLocked).(lk := Some(p))
      case ClearLocked => Goto(s, p, ClearPid).(locked := false)
      case ClearPid => Goto(s, p, RelPt).(pid := 0)
      case RelPt => Goto(s, p, Scan(0)).(pt := Some(p))
      case Scan(i) =>
        if i >= |s.pc| then Goto(s, p, RelDropPt)
        else Goto(s, p, Scan(i + 1)).(sleeping := s.sleeping[i := s.sleeping[i] && !s.chan[i]])
      case RelDropPt => Goto(s, p, RelDropLk).(pt := None)
      case RelDropLk => Goto(s, p, Idle).(lk := None)
      // holdingsleep
      case HoldLk(mine) => Goto(s, p, HoldTest(mine)).(lk := Some(p))
      case HoldTest(mine) => Goto(s, p, HoldDone(mine, s.locked && s.pid == PidOf(p)))
      case HoldDone(mine, _) => Goto(s, p, if mine then Owner else Idle).(lk := None)
  }

  // ---- The invariant ----

  predicate HasLk(c: Pc) {
    c.Test? || c.SetLocked? || c.SetPid? || c.AcqDone? || c.WantPt? || c.DropLk?
    || c.ClearLocked? || c.ClearPid? || c.RelPt? || c.Scan? || c.RelDropPt? || c.RelDropLk?
    || c.HoldTest? || c.HoldDone?
  }

  predicate HasPt(c: Pc) {
    c.DropLk? || c.SetChan? || c.SetState? || c.Sched? || c.ClearChan? || c.DropPt? || c.Scan? || c.RelDropPt?
  }

  /** From setting `locked` to clearing it. */
  predicate Owns(c: Pc) {
    c.SetPid? || c.AcqDone? || c.Owner? || c.RelLk? || c.ClearLocked?
    || (c.HoldLk? && c.mine) || (c.HoldTest? && c.mine) || (c.HoldDone? && c.mine)
  }

  /** Has cleared `locked` and has yet to look at slot `q`. */
  predicate WillWake(c: Pc, q: nat) {
    c.ClearPid? || c.RelPt? || (c.Scan? && c.i <= q)
  }

  /** Found the lock taken, and has not been woken since. */
  predicate Committed(s: State, q: nat)
    requires q < |s.pc| && q < |s.sleeping|
  {
    s.pc[q].SetChan? || s.pc[q].SetState? || s.sleeping[q]
  }

  ghost predicate Shape(s: State) {
    && |s.sleeping| == |s.pc| == |s.chan|
    && (forall p | 0 <= p < |s.pc| :: s.sleeping[p] ==> s.pc[p].Sched? || s.pc[p].Asleep?)
    && (forall p | 0 <= p < |s.pc| :: s.chan[p] <==>
          s.pc[p].SetState? || s.pc[p].Sched? || s.pc[p].Asleep? || s.pc[p].ClearChan?)
  }

  ghost predicate Spin(s: State) {
    && (forall p | 0 <= p < |s.pc| :: HasLk(s.pc[p]) <==> s.lk == Some(p))
    && (forall p | 0 <= p < |s.pc| :: HasPt(s.pc[p]) <==> s.pt == Some(p))
    && (s.lk.Some? ==> s.lk.value < |s.pc|) && (s.pt.Some? ==> s.pt.value < |s.pc|)
  }

  ghost predicate Exclusive(s: State) {
    && (forall p | 0 <= p < |s.pc| && Owns(s.pc[p]) :: s.locked)
    && (forall p, q | 0 <= p < q < |s.pc| :: !(Owns(s.pc[p]) && Owns(s.pc[q])))
    && (forall p | 0 <= p < |s.pc| :: s.pc[p].SetLocked? || s.pc[p].ClearPid? ==> !s.locked)
    && (s.locked ==> exists p | 0 <= p < |s.pc| :: Owns(s.pc[p]))
  }

  ghost predicate PidRight(s: State) {
    && (forall p | 0 <= p < |s.pc| && Owns(s.pc[p]) && !s.pc[p].SetPid? :: s.pid == PidOf(p))
    && (forall p | 0 <= p < |s.pc| && s.pc[p].HoldDone? :: s.pc[p].answer == s.pc[p].mine)
  }

  /** Whoever is committed to sleeping has the lock still to be released, or a
      releaser still to come by. */
  ghost predicate NoneLost(s: State) {
    |s.sleeping| == |s.pc|
    && (forall q | 0 <= q < |s.pc| && (s.pc[q].WantPt? || s.pc[q].DropLk?) :: s.locked)
    && (forall q | 0 <= q < |s.pc| && Committed(s, q) ::
          s.locked || exists r | 0 <= r < |s.pc| :: WillWake(s.pc[r], q))
  }

  ghost predicate Inv(s: State) {
    Shape(s) && Spin(s) && Exclusive(s) && PidRight(s) && NoneLost(s)
  }

  lemma InitInv(s: State)
    requires Init(s)
    ensures Inv(s)
  {
  }

  // ---- What one step does, without quantifiers ----

  /** Only the process that ran changes place. */
  lemma PcFacts(s: State, a: Act)
    requires Enabled(s, a)
    ensures var s' := Do(s, a);
      |s'.pc| == |s'.sleeping| == |s'.chan| == |s.pc| && s'.pc == s.pc[a.p := s'.pc[a.p]] && (a.Kill? ==> s'.pc == s.pc)
  {
  }

  lemma LkFacts(s: State, a: Act)
    requires Enabled(s, a)
    ensures var s' := Do(s, a);
      var c, c' := s.pc[a.p], s'.pc[a.p];
      || (HasLk(c') == HasLk(c) && s'.lk == s.lk)
      || (!HasLk(c) && HasLk(c') && s.lk == None && s'.lk == Some(a.p))
      || (HasLk(c) && !HasLk(c') && s'.lk == None)
  {
  }

  lemma PtFacts(s: State, a: Act)
    requires Enabled(s, a)
    ensures var s' := Do(s, a);
      var c, c' := s.pc[a.p], s'.pc[a.p];
      || (HasPt(c') == HasPt(c) && s'.pt == s.pt)
      || (!HasPt(c) && HasPt(c') && s.pt == None && s'.pt == Some(a.p))
      || (HasPt(c) && !HasPt(c') && s'.pt == None)
  {
  }

  lemma OwnFacts(s: State, a: Act)
    requires Enabled(s, a)
    ensures var s' := Do(s, a);
      var c, c' := s.pc[a.p], s'.pc[a.p];
      && (c'.SetLocked? ==> (a.Kill? && c.SetLocked?) || (c.Test? && !s.locked && s'.locked == s.locked))
      && (c'.ClearPid? ==> (a.Kill? && c.ClearPid?) || c.ClearLocked?)
      && (a.Kill? ==> s'.locked == s.locked)
      && (|| (Owns(c') == Owns(c) && s'.locked == s.locked)
          || (c.SetLocked? && Owns(c') && s'.locked)
          || (c.ClearLocked? && Owns(c) && !Owns(c') && !s'.locked))
  {
  }

  lemma PidFacts(s: State, a: Act)
    requires Enabled(s, a)
    ensures var s' := Do(s, a);
      var c, c' := s.pc[a.p], s'.pc[a.p];
      && (c.SetPid? && a.Run? ==> s'.pid == PidOf(a.p))
      && (!(c.SetPid? && a.Run?) ==> s'.pid == s.pid || (c.ClearPid? && a.Run?))
      && (Owns(c') && !c'.SetPid? ==> Owns(c))
      && (a.Run? && Owns(c) ==> !c'.SetPid?)
      && (c'.HoldDone? ==> (a.Kill? && c' == c)
                           || (c == HoldTest(c'.mine) && s'.pid == s.pid && s'.locked == s.locked
                               && c'.answer == (s.locked && s.pid == PidOf(a.p))))
  {
  }

  lemma SleepFacts(s: State, a: Act)
    requires Enabled(s, a)
    ensures var s' := Do(s, a);
      var p, c, c' := a.p, s.pc[a.p], s'.pc[a.p];
      && (a.Kill? || !c.Scan? ==> forall q | 0 <= q < |s.pc| && q != p :: s'.sleeping[q] == s.sleeping[q])
      && (a.Run? && c.Scan? ==> forall q | 0 <= q < |s.pc| ::
            s'.sleeping[q] == (s.sleeping[q] && !(q == c.i && s.chan[q])))
      && (forall q | 0 <= q < |s.pc| && q != p :: s'.chan[q] == s.chan[q])
  {
  }

  /** The same for the process that ran. */
  lemma OwnSleepFacts(s: State, a: Act)
    requires Enabled(s, a)
    ensures var s' := Do(s, a);
      var p, c, c' := a.p, s.pc[a.p], s'.pc[a.p];
      && (a.Kill? ==> !s'.sleeping[p] && s'.chan[p] == s.chan[p])
      && (a.Run? && !c.Scan? ==> s'.sleeping[p] == (c.SetState? || s.sleeping[p]))
      && (a.Run? ==> s'.chan[p] == if c.SetChan? then true else if c.ClearChan? then false else s.chan[p])
  {
  }

  /** How a step may change who waits and who will wake. */
  lemma WakeFacts(s: State, a: Act)
    requires Enabled(s, a)
    ensures var s' := Do(s, a);
      var p, c, c' := a.p, s.pc[a.p], s'.pc[a.p];
      && (a.Run? && c.ClearLocked? ==> c'.ClearPid?)
      && (a.Run? && (c.ClearPid? || c.RelPt?) ==> c'.RelPt? || c' == Scan(0))
      && (a.Run? && c.Scan? ==> c' == (if c.i >= |s.pc| then RelDropPt else Scan(c.i + 1)))
      && (c'.WantPt? ==> (a.Kill? && c == c') || (c.Test? && s.locked))
      && (c'.DropLk? ==> (a.Kill? && c == c') || c.WantPt?)
      && (c'.SetChan? ==> (a.Kill? && c == c') || c.DropLk?)
      && (c'.SetState? ==> (a.Kill? && c == c') || c.SetChan?)
      && (c'.Sched? ==> (a.Kill? && c == c') || c.SetState?)
      && (c'.Asleep? ==> (a.Kill? && c == c') || c.Sched?)
      && (c'.ClearChan? ==> (a.Kill? && c == c') || (c.Asleep? && !s.sleeping[p]))
      && (c.SetChan? && a.Run? ==> c'.SetState?) && (c.SetState? && a.Run? ==> c'.Sched?)
      && (c.Sched? && a.Run? ==> c'.Asleep?)
      && (c.Asleep? && a.Run? ==> c'.ClearChan? && !s.sleeping[p])
      && (s'.locked == s.locked || c.SetLocked? || (c.ClearLocked? && a.Run?))
  {
  }

  // ---- Every step keeps the invariant ----

  lemma ShapeStep(s: State, a: Act)
    requires Inv(s) && Enabled(s, a)
    ensures Shape(Do(s, a))
  {
    hide Exclusive, PidRight, NoneLost, Spin, WillWake;
    OwnShape(s, a);
    OtherShapes(s, a);
    SameSizes(s, a);
    hide *;
    FromEach(Do(s, a));
  }

  lemma FromEach(s: State)
    requires |s.pc| == |s.sleeping| == |s.chan| && forall p | 0 <= p < |s.pc| :: OwnShaped(s, p)
    ensures Shape(s)
  {
    forall p | 0 <= p < |s.pc|
      ensures s.sleeping[p] ==> s.pc[p].Sched? || s.pc[p].Asleep?
      ensures s.chan[p] <==> s.pc[p].SetState? || s.pc[p].Sched? || s.pc[p].Asleep? || s.pc[p].ClearChan?
    {
      assert OwnShaped(s, p);
    }
  }

  /** For the others, which can only be woken. */
  lemma OtherShapes(s: State, a: Act)
    requires Shape(s) && Enabled(s, a)
    ensures forall q | 0 <= q < |s.pc| && q != a.p :: OwnShaped(Do(s, a), q)
  {
    PcFacts(s, a);
    SleepFacts(s, a);
    SameSizes(s, a);
    hide Do, Enabled;
  }

  ghost predicate OwnShaped(s: State, p: nat) {
    && p < |s.pc| == |s.sleeping| == |s.chan|
    && (s.sleeping[p] ==> s.pc[p].Sched? || s.pc[p].Asleep?)
    && (s.chan[p] <==> s.pc[p].SetState? || s.pc[p].Sched? || s.pc[p].Asleep? || s.pc[p].ClearChan?)
  }

  /** For the process that ran. */
  lemma OwnShape(s: State, a: Act)
    requires Shape(s) && Enabled(s, a)
    ensures OwnShaped(Do(s, a), a.p)
  {
    OwnSleepFacts(s, a);
    WakeFacts(s, a);
    SameSizes(s, a);
    hide Do, Enabled;
  }

  lemma SameSizes(s: State, a: Act)
    requires Shape(s) && Enabled(s, a)
    ensures a.p < |s.pc| && var t := Do(s, a); |t.pc| == |s.pc| == |t.sleeping| == |t.chan|
  {
  }

  lemma SpinStep(s: State, a: Act)
    requires Inv(s) && Enabled(s, a)
    ensures Spin(Do(s, a))
  {
    PcFacts(s, a);
    LkFacts(s, a);
    PtFacts(s, a);
    var s' := Do(s, a);
    assert a.p < |s.pc|;
    hide Do, Enabled, Exclusive, PidRight, NoneLost, Shape, HasLk, HasPt;
    forall q | 0 <= q < |s.pc| && q != a.p ensures s'.pc[q] == s.pc[q] {
    }
  }

  lemma ExclusiveStep(s: State, a: Act)
    requires Inv(s) && Enabled(s, a)
    ensures Exclusive(Do(s, a))
  {
    PcFacts(s, a);
    OwnFacts(s, a);
    var s', p := Do(s, a), a.p;
    assert p < |s.pc|;
    assert s.pc[p].SetLocked? ==> HasLk(s.pc[p]);
    assert forall q | 0 <= q < |s.pc| && (s.pc[q].SetLocked? || s.pc[q].ClearPid?) :: HasLk(s.pc[q]);
    assert forall q | 0 <= q < |s.pc| && (s.pc[p].SetLocked? || s.pc[p].ClearLocked?)
                      && (s.pc[q].SetLocked? || s.pc[q].ClearPid?) :: q == p;
    hide Do, Enabled, PidRight, NoneLost, Shape, HasLk, HasPt, Owns;
    forall q | 0 <= q < |s.pc| && q != p ensures s'.pc[q] == s.pc[q] {
    }
    if s'.locked && !Owns(s'.pc[p]) {
      assert s.locked;
      var q :| 0 <= q < |s.pc| && Owns(s.pc[q]);
      assert Owns(s'.pc[q]);
    }
  }

  lemma PidStep(s: State, a: Act)
    requires Inv(s) && Enabled(s, a)
    ensures PidRight(Do(s, a))
  {
    PcFacts(s, a);
    PidFacts(s, a);
    OwnFacts(s, a);
    var s', p := Do(s, a), a.p;
    assert p < |s.pc|;
    assert s.pc[p].ClearPid? ==> !s.locked && !Owns(s.pc[p]);
    if s.pc[p] == HoldTest(false) {
      assert HasLk(s.pc[p]) && !Owns(s.pc[p]);
      assert forall q | 0 <= q < |s.pc| && s.pc[q].SetPid? :: HasLk(s.pc[q]);
    }
    if s.pc[p] == HoldTest(true) {
      assert Owns(s.pc[p]);
    }
    assert s.pc[p].SetPid? ==> Owns(s.pc[p]);
    hide Do, Enabled, NoneLost, Shape, HasPt, Owns, HasLk;
    forall q | 0 <= q < |s.pc| && q != p ensures s'.pc[q] == s.pc[q] {
    }
  }

  /** A process that stays committed to sleeping still has someone to wake it. */
  lemma CommittedStep(s: State, a: Act, q: nat)
    requires Inv(s) && Enabled(s, a) && q < |s.pc| && Committed(s, q)
    ensures var s' := Do(s, a);
      |s'.pc| == |s'.sleeping| == |s.pc| &&
      (Committed(s', q) ==> s'.locked || exists r | 0 <= r < |s'.pc| :: WillWake(s'.pc[r], q))
  {
    PcFacts(s, a);
    SleepFacts(s, a);
    WakeFacts(s, a);
    OwnFacts(s, a);
    var s', p := Do(s, a), a.p;
    assert p < |s.pc|;
    assert HasPt(s.pc[p]) && HasPt(s.pc[q]) ==> p == q;
    assert s.sleeping[q] ==> s.chan[q];
    hide Do, Enabled, Exclusive, PidRight, Owns;
    if s.locked && !s'.locked {
      assert WillWake(s'.pc[p], q);
    } else if !s.locked {
      var r :| 0 <= r < |s.pc| && WillWake(s.pc[r], q);
      if r != p || a.Kill? || !s.pc[p].Scan? || s.pc[p].i < q {
        assert s'.locked || WillWake(s'.pc[r], q);
      }
    }
  }

  lemma NoneLostStep(s: State, a: Act)
    requires Inv(s) && Enabled(s, a)
    ensures NoneLost(Do(s, a))
  {
    PcFacts(s, a);
    SleepFacts(s, a);
    OwnSleepFacts(s, a);
    WakeFacts(s, a);
    var s', p := Do(s, a), a.p;
    assert p < |s.pc|;
    assert forall q | 0 <= q < |s.pc| && (s.pc[q].WantPt? || s.pc[q].DropLk? || s.pc[q].ClearLocked?) :: HasLk(s.pc[q]);
    forall q | 0 <= q < |s.pc| && Committed(s', q)
      ensures s'.locked || exists r | 0 <= r < |s.pc| :: WillWake(s'.pc[r], q)
    {
      if Committed(s, q) {
        CommittedStep(s, a, q);
      } else {
        assert q == p && s.pc[p].DropLk? && s.locked;
      }
    }
    hide Do, Enabled, Exclusive, PidRight, Owns, WillWake;
    forall q | 0 <= q < |s.pc| && (s'.pc[q].WantPt? || s'.pc[q].DropLk?) ensures s'.locked {
      assert q != p ==> s.locked && s'.pc[q] == s.pc[q];
    }
  }

  lemma StepInv(s: State, a: Act)
    requires Inv(s) && Enabled(s, a)
    ensures Inv(Do(s, a))
  {
    ShapeStep(s, a);
    SpinStep(s, a);
    ExclusiveStep(s, a);
    PidStep(s, a);
    NoneLostStep(s, a);
  }

  // ---- Runs ----

  ghost predicate IsRun(states: seq<State>, acts: seq<Act>) {
    && |states| == |acts| + 1 && Init(states[0])
    && (forall i | 0 <= i < |acts| :: Enabled(states[i], acts[i]) && states[i + 1] == Do(states[i], acts[i]))
  }

  lemma {:induction false} RunInv(states: seq<State>, acts: seq<Act>, i: nat)
    requires IsRun(states, acts) && i < |states|
    ensures Inv(states[i])
  {
    if i == 0 {
      InitInv(states[0]);
    } else {
      RunInv(states, acts, i - 1);
      StepInv(states[i - 1], acts[i - 1]);
    }
  }

  /** At most one process owns the lock, and it is owned exactly while `locked`
      is set. */
  lemma MutualExclusion(states: seq<State>, acts: seq<Act>, i: nat)
    requires IsRun(states, acts) && i < |states|
    ensures var s := states[i];
      && (forall p, q | 0 <= p < |s.pc| && 0 <= q < |s.pc| && Owns(s.pc[p]) && Owns(s.pc[q]) :: p == q)
      && (s.locked <==> exists p | 0 <= p < |s.pc| :: Owns(s.pc[p]))
  {
    RunInv(states, acts, i);
    var s := states[i];
    assert forall p, q | 0 <= p < |s.pc| && 0 <= q < |s.pc| && Owns(s.pc[p]) && Owns(s.pc[q]) :: !(p < q) && !(q < p);
  }

  /** With the lock clear, a process asleep on it means that a releaser, holding
      the lock's spin lock, has cleared `locked` and has not reached its slot. */
  lemma NoLostWakeup(states: seq<State>, acts: seq<Act>, i: nat, q: nat)
    requires IsRun(states, acts) && i < |states| && q < |states[i].pc|
    requires |states[i].sleeping| == |states[i].pc| && states[i].sleeping[q] && !states[i].locked
    ensures exists r | 0 <= r < |states[i].pc| :: WillWake(states[i].pc[r], q) && states[i].lk == Some(r)
  {
    RunInv(states, acts, i);
    var s := states[i];
    assert Committed(s, q);
    var r :| 0 <= r < |s.pc| && WillWake(s.pc[r], q);
    assert HasLk(s.pc[r]);
  }

  /** holdingsleep answers whether its caller owns the lock. */
  lemma HoldingExact(states: seq<State>, acts: seq<Act>, i: nat, p: nat)
    requires IsRun(states, acts) && i < |states| && p < |states[i].pc| && states[i].pc[p].HoldDone?
    ensures states[i].pc[p].answer == Owns(states[i].pc[p])
  {
    RunInv(states, acts, i);
  }
}
