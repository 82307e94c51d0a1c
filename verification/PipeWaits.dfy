/** Who sleeps on a pipe: any number of processes read, write, are killed and
    close the ends, in any order. Each step is one stretch under the pipe's lock,
    with the wakeups that `pipe.c` does in it. */
module PipeWaits {
  import opened Disk
  import opened Pipe

  /** A call in progress: what is left of it, and whether it sleeps. */
  datatype Proc = Away | Reading(n: nat, asleep: bool) | Writing(rest: seq<Byte>, asleep: bool)

  datatype State = State(held: seq<Byte>, readopen: bool, writeopen: bool, procs: seq<Proc>, killed: set<nat>)

  datatype Step =
    | Read(p: nat, n: nat)
    | Write(p: nat, src: seq<Byte>)
    | Resume(p: nat)              // a process that was woken has the lock again
    | Kill(p: nat)
    | Close(writable: bool)       // the last descriptor of an end

  predicate Enabled(s: State, t: Step) {
    match t
    case Read(p, _) => p < |s.procs| && s.procs[p].Away? && s.readopen
    case Write(p, _) => p < |s.procs| && s.procs[p].Away? && s.writeopen
    case Resume(p) => p < |s.procs| && !s.procs[p].Away? && !s.procs[p].asleep
    case Kill(p) => p < |s.procs|
    case Close(true) => s.writeopen && forall p | 0 <= p < |s.procs| :: !s.procs[p].Writing?
    case Close(false) => s.readopen && forall p | 0 <= p < |s.procs| :: !s.procs[p].Reading?
  }

  /** Awake; a process that is away stays so. */
  function Awake(q: Proc): Proc {
    if q.Away? then q else q.(asleep := false)
  }

  /** wakeup of the readers, or of the writers. */
  function Woken(procs: seq<Proc>, readers: bool): (r: seq<Proc>)
    ensures |r| == |procs|
  {
    seq(|procs|, p requires 0 <= p < |procs| =>
                   if procs[p].Reading? == readers then Awake(procs[p]) else procs[p])
  }

  /** A stretch of piperead. */
  function ReadFrom(s: State, p: nat, n: nat): State
    requires p < |s.procs|
  {
    var (r, m) := ReadEnds(|s.held|, s.writeopen, p in s.killed, n);
    var procs := if r.Done? then Woken(s.procs, false) else s.procs;
    s.(held := s.held[m..], procs := procs[p := if r.Sleeps? then Reading(n, true) else Away])
  }

  /** A stretch of pipewrite. */
  function WriteFrom(s: State, p: nat, src: seq<Byte>): State
    requires p < |s.procs| && |s.held| <= PIPESIZE
  {
    var (r, m) := WriteEnds(|s.held|, s.readopen, p in s.killed, |src|);
    var procs := if r.Fails? then s.procs else Woken(s.procs, true);
    s.(held := s.held + src[..m], procs := procs[p := if r.Sleeps? then Writing(src[m..], true) else Away])
  }

  function Do(s: State, t: Step): State
    requires Enabled(s, t) && |s.held| <= PIPESIZE
  {
    match t
    case Read(p, n) => ReadFrom(s, p, n)
    case Write(p, src) => WriteFrom(s, p, src)
    case Resume(p) =>
      (match s.procs[p]
       case Reading(n, _) => ReadFrom(s, p, n)
       case Writing(rest, _) => WriteFrom(s, p, rest))
    case Kill(p) => s.(killed := s.killed + {p}, procs := s.procs[p := Awake(s.procs[p])])
    case Close(true) => s.(writeopen := false, procs := Woken(s.procs, true))
    case Close(false) => s.(readopen := false, procs := Woken(s.procs, false))
  }

  // ---- Who is overlooked ----

  predicate ReaderSleeps(s: State, p: nat) {
    p < |s.procs| && s.procs[p].Reading? && s.procs[p].asleep
  }

  predicate WriterSleeps(s: State, p: nat) {
    p < |s.procs| && s.procs[p].Writing? && s.procs[p].asleep
  }

  /** A reader sleeps though there is something to read, or nobody will write. */
  ghost predicate ReaderOverlooked(s: State) {
    (s.held != [] || !s.writeopen) && exists p :: ReaderSleeps(s, p)
  }

  /** A writer sleeps though there is room, or nobody will read. */
  ghost predicate WriterOverlooked(s: State) {
    (|s.held| < PIPESIZE || !s.readopen) && exists p :: WriterSleeps(s, p)
  }

  ghost predicate Inv(s: State) {
    && |s.held| <= PIPESIZE && !WriterOverlooked(s)
    && (!s.readopen ==> forall p | 0 <= p < |s.procs| :: !s.procs[p].Reading?)
    && (!s.writeopen ==> forall p | 0 <= p < |s.procs| :: !s.procs[p].Writing?)
    && (forall p | p in s.killed :: !ReaderSleeps(s, p) && !WriterSleeps(s, p))
  }

  /** The process that goes on writing in step `t`, and what it has left. */
  function Writer(s: State, t: Step): (r: (nat, seq<Byte>))
    requires Enabled(s, t) && (t.Write? || (t.Resume? && s.procs[t.p].Writing?))
  {
    if t.Write? then (t.p, t.src) else (t.p, s.procs[t.p].rest)
  }

  /** A killed writer fills a pipe that had room, has more to write, and a reader
      sleeps: pipewrite returns -1 there without a wakeup. */
  ghost predicate GivesUp(s: State, t: Step) {
    && Enabled(s, t) && (t.Write? || (t.Resume? && s.procs[t.p].Writing?))
    && var (p, src) := Writer(s, t);
    && p in s.killed && |s.held| < PIPESIZE < |s.held| + |src| && exists q :: ReaderSleeps(s, q)
  }

  lemma WokenSleep(procs: seq<Proc>, readers: bool, p: nat)
    requires p < |procs|
    ensures var q := Woken(procs, readers)[p];
      && q.Away? == procs[p].Away? && q.Reading? == procs[p].Reading?
      && (q.Reading? && q.asleep ==> !readers && procs[p].asleep)
      && (q.Writing? && q.asleep ==> readers && procs[p].asleep)
  {
  }

  lemma ReadStep(s: State, p: nat, n: nat)
    requires Inv(s) && p < |s.procs| && !WriterSleeps(s, p) && s.readopen
    requires s.procs[p].Away? || s.procs[p].Reading?
    ensures Inv(ReadFrom(s, p, n))
    ensures ReaderOverlooked(ReadFrom(s, p, n)) ==> ReaderOverlooked(s)
  {
    var s' := ReadFrom(s, p, n);
    forall q: nat | q < |s.procs| && q != p
      ensures ReaderSleeps(s', q) ==> ReaderSleeps(s, q)
      ensures WriterSleeps(s', q) ==> WriterSleeps(s, q) && !ReadEnds(|s.held|, s.writeopen, p in s.killed, n).0.Done?
    {
      WokenSleep(s.procs, false, q);
    }
  }

  lemma WriteStep(s: State, p: nat, src: seq<Byte>)
    requires Inv(s) && p < |s.procs| && s.writeopen && (s.procs[p].Away? || s.procs[p].Writing?)
    ensures Inv(WriteFrom(s, p, src))
    ensures !ReaderOverlooked(s) ==>
              (ReaderOverlooked(WriteFrom(s, p, src)) <==>
               p in s.killed && |s.held| < PIPESIZE < |s.held| + |src| && exists q :: ReaderSleeps(s, q))
  {
    var s' := WriteFrom(s, p, src);
    var r := WriteEnds(|s.held|, s.readopen, p in s.killed, |src|).0;
    forall q: nat | q < |s.procs| && q != p
      ensures ReaderSleeps(s', q) <==> ReaderSleeps(s, q) && r.Fails?
      ensures WriterSleeps(s', q) <==> WriterSleeps(s, q)
    {
      WokenSleep(s.procs, true, q);
    }
    if exists q :: ReaderSleeps(s, q) {
      var q :| ReaderSleeps(s, q);
      assert r.Fails? ==> ReaderSleeps(s', q);
    }
  }

  lemma CloseStep(s: State, writable: bool)
    requires Inv(s) && Enabled(s, Close(writable))
    ensures Inv(Do(s, Close(writable))) && (ReaderOverlooked(Do(s, Close(writable))) ==> ReaderOverlooked(s))
  {
    var s' := Do(s, Close(writable));
    forall q: nat | q < |s.procs|
      ensures s'.procs[q].Reading? == s.procs[q].Reading? && s'.procs[q].Writing? == s.procs[q].Writing?
      ensures ReaderSleeps(s', q) ==> ReaderSleeps(s, q) && !writable
      ensures WriterSleeps(s', q) ==> WriterSleeps(s, q) && writable
    {
      WokenSleep(s.procs, writable, q);
    }
  }

  lemma KillStep(s: State, p: nat)
    requires Inv(s) && Enabled(s, Kill(p))
    ensures Inv(Do(s, Kill(p))) && (ReaderOverlooked(Do(s, Kill(p))) ==> ReaderOverlooked(s))
  {
    var s' := Do(s, Kill(p));
    assert forall q: nat :: ReaderSleeps(s', q) ==> ReaderSleeps(s, q);
    assert forall q: nat :: WriterSleeps(s', q) ==> WriterSleeps(s, q);
  }

  /** Every step keeps the invariant, and a reader comes to be overlooked in one
      way only. */
  lemma StepInv(s: State, t: Step)
    requires Inv(s) && Enabled(s, t)
    ensures Inv(Do(s, t))
    ensures !ReaderOverlooked(s) ==> (ReaderOverlooked(Do(s, t)) <==> GivesUp(s, t))
  {
    match t
    case Read(p, n) => ReadStep(s, p, n);
    case Write(p, src) => WriteStep(s, p, src);
    case Resume(p) =>
      if s.procs[p].Reading? {
        ReadStep(s, p, s.procs[p].n);
      } else {
        WriteStep(s, p, s.procs[p].rest);
      }
    case Kill(p) => KillStep(s, p);
    case Close(writable) => CloseStep(s, writable);
  }

  // ---- Runs ----

  predicate Init(s: State) {
    s.held == [] && s.readopen && s.writeopen && s.killed == {} && forall p | 0 <= p < |s.procs| :: s.procs[p].Away?
  }

  predicate IsRun(run: seq<State>, steps: seq<Step>) {
    && |run| == |steps| + 1 && Init(run[0])
    && forall k | 0 <= k < |steps| ::
         Enabled(run[k], steps[k]) && |run[k].held| <= PIPESIZE && run[k + 1] == Do(run[k], steps[k])
  }

  lemma {:induction false} RunInv(run: seq<State>, steps: seq<Step>, k: nat)
    requires IsRun(run, steps) && k < |run|
    ensures Inv(run[k])
  {
    if k > 0 {
      RunInv(run, steps, k - 1);
      StepInv(run[k - 1], steps[k - 1]);
      hide Inv, Do, Enabled;
    }
  }

  /** No writer sleeps, in any run, while there is room or nobody to read. */
  lemma WritersWake(run: seq<State>, steps: seq<Step>, k: nat)
    requires IsRun(run, steps) && k < |run|
    ensures !WriterOverlooked(run[k])
  {
    RunInv(run, steps, k);
  }

  /** Nobody sleeps on once killed. */
  lemma KilledAwake(run: seq<State>, steps: seq<Step>, k: nat, p: nat)
    requires IsRun(run, steps) && k < |run| && p in run[k].killed
    ensures !ReaderSleeps(run[k], p) && !WriterSleeps(run[k], p)
  {
    RunInv(run, steps, k);
  }

  /** No reader is overlooked in a run exactly when no killed writer gives up in it
      with a reader asleep. */
  lemma ReadersWakeExactly(run: seq<State>, steps: seq<Step>)
    requires IsRun(run, steps)
    ensures (forall k | 0 <= k < |run| :: !ReaderOverlooked(run[k]))
       <==> (forall k | 0 <= k < |steps| :: !GivesUp(run[k], steps[k]))
  {
    hide Enabled, Do, Inv, GivesUp, ReaderOverlooked, Init;
    if forall k | 0 <= k < |run| :: !ReaderOverlooked(run[k]) {
      forall k | 0 <= k < |steps| ensures !GivesUp(run[k], steps[k]) {
        RunInv(run, steps, k);
        StepInv(run[k], steps[k]);
        assert !ReaderOverlooked(run[k]) && !ReaderOverlooked(run[k + 1]);
      }
    }
    if forall k | 0 <= k < |steps| :: !GivesUp(run[k], steps[k]) {
      forall k: nat | k < |run| ensures !ReaderOverlooked(run[k]) {
        NoneYet(run, steps, k);
      }
    }
  }

  lemma {:induction false} NoneYet(run: seq<State>, steps: seq<Step>, k: nat)
    requires IsRun(run, steps) && k < |run| && forall j | 0 <= j < |steps| :: !GivesUp(run[j], steps[j])
    ensures !ReaderOverlooked(run[k])
  {
    if k > 0 {
      NoneYet(run, steps, k - 1);
      RunInv(run, steps, k - 1);
      StepInv(run[k - 1], steps[k - 1]);
    }
  }

  /** Readers and writers never sleep at the same time, but for such a reader. */
  lemma NotBothAsleep(run: seq<State>, steps: seq<Step>, k: nat, p: nat, q: nat)
    requires IsRun(run, steps) && k < |run|
    requires forall j | 0 <= j < |steps| :: !GivesUp(run[j], steps[j])
    ensures !(ReaderSleeps(run[k], p) && WriterSleeps(run[k], q))
  {
    NoneYet(run, steps, k);
    WritersWake(run, steps, k);
  }

  /** Such a run: a reader sleeps with 512 bytes in the pipe, and no step but the
      reader's own end or a new writer will wake it. */
  lemma ReaderLeftAsleep() returns (run: seq<State>, steps: seq<Step>)
    ensures IsRun(run, steps) && ReaderOverlooked(run[|steps|]) && |run[|steps|].held| == PIPESIZE
    ensures forall p | 0 <= p < |run[|steps|].procs| :: run[|steps|].procs[p].Away? || run[|steps|].procs[p].asleep
  {
    var src := seq<Byte>(1025, _ => 0);
    var s0 := State([], true, true, [Away, Away], {});
    var s1 := Do(s0, Write(1, src));
    assert |s1.held| == 512 && s1.procs == [Away, Writing(src[512..], true)];
    var s2 := Do(s1, Read(0, 512));
    assert s2.held == [] && s2.procs == [Away, Writing(src[512..], false)];
    var s3 := Do(s2, Read(0, 1));
    assert s3.procs == [Reading(1, true), Writing(src[512..], false)];
    var s4 := Do(s3, Kill(1));
    var s5 := Do(s4, Resume(1));
    assert |s5.held| == 512 && s5.procs == [Reading(1, true), Away];
    assert ReaderSleeps(s5, 0);
    run := [s0, s1, s2, s3, s4, s5];
    steps := [Write(1, src), Read(0, 512), Read(0, 1), Kill(1), Resume(1)];
  }
}
