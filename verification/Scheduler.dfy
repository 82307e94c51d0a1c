/** One round of the three-level scheduler of the scheduling lab
    (`OS-lab-xv6-scheduling/proc.c`): lottery, then highest response ratio, then
    smallest priority. Ratios and priorities are reals. */
module Scheduler {
  import opened Wrappers

  datatype Level = LOTTERY | HRRN | SRPF

  datatype Proc = Proc(runnable: bool, running: bool, level: Level, tickets: int,
                       cycleNum: int, entryTime: nat, priority: real)

  /** `ticks * 12345678 + 87654321` modulo `ceil`, taken to fit in a long. */
  function GenerateRandom(ticks: nat, ceil: int): (r: int)
    ensures ceil == 0 ==> r == 1
    ensures ceil > 0 ==> 0 <= r < ceil
  {
    if ceil == 0 then 1 else (ticks * 12345678 + 87654321) % ceil
  }

  /** The draws of successive ticks go round the tickets in equal steps. */
  lemma DrawMoves(ticks: nat, ceil: int)
    requires ceil > 0
    ensures GenerateRandom(0, ceil) == 87654321 % ceil
    ensures GenerateRandom(ticks + 1, ceil) == (GenerateRandom(ticks, ceil) + 12345678) % ceil
  {
    var n := ticks * 12345678 + 87654321;
    var m := GenerateRandom(ticks, ceil) + 12345678;
    assert (ticks + 1) * 12345678 + 87654321 == n + 12345678;
    assert n + 12345678 == (n / ceil) * ceil + m;
    SameRemainder(n / ceil, m, ceil);
  }

  lemma SameRemainder(q: int, m: int, n: int)
    requires n > 0
    ensures (q * n + m) % n == m % n
  {
    var a := q * n + m;
    var x, y := a / n - (q + m / n), a % n - m % n;
    assert a == (a / n) * n + a % n && m == (m / n) * n + m % n;
    assert x * n + y == 0 by {
      assert x * n == (a / n) * n - (q * n + (m / n) * n);
    }
    assert x >= 1 ==> x * n >= n;
    assert x <= -1 ==> x * n <= -n;
  }

  // ---- The lottery ----

  predicate Entrant(p: Proc) {
    p.runnable && p.level == LOTTERY
  }

  /** The tickets of the runnable lottery slots below `k`. */
  function Prefix(s: seq<Proc>, k: nat): int
    requires k <= |s|
  {
    if k == 0 then 0 else Prefix(s, k - 1) + if Entrant(s[k - 1]) then s[k - 1].tickets else 0
  }

  /** getTotal: the tickets of every lottery slot, in whatever state. */
  function Total(s: seq<Proc>, k: nat): int
    requires k <= |s|
  {
    if k == 0 then 0 else Total(s, k - 1) + if s[k - 1].level == LOTTERY then s[k - 1].tickets else 0
  }

  /** Every lottery slot counts, running or asleep, and no other slot. */
  lemma {:induction false} TotalCounts(s: seq<Proc>, k: nat, p: Proc, n: nat)
    requires k < n <= |s|
    ensures Total(s[k := p], n) - Total(s, n)
         == (if p.level == LOTTERY then p.tickets else 0) - (if s[k].level == LOTTERY then s[k].tickets else 0)
    ensures (forall j | 0 <= j < n :: s[j].level != LOTTERY) ==> Total(s, n) == 0
  {
    if k < n - 1 {
      TotalCounts(s, k, p, n - 1);
    } else {
      SameTotal(s, s[k := p], n - 1);
      NoTotal(s, n - 1);
    }
  }

  lemma {:induction false} SameTotal(s: seq<Proc>, t: seq<Proc>, n: nat)
    requires n <= |s| && n <= |t| && forall j | 0 <= j < n :: s[j] == t[j]
    ensures Total(s, n) == Total(t, n)
  {
    if n > 0 {
      SameTotal(s, t, n - 1);
    }
  }

  lemma {:induction false} NoTotal(s: seq<Proc>, n: nat)
    requires n <= |s|
    ensures (forall j | 0 <= j < n :: s[j].level != LOTTERY) ==> Total(s, n) == 0
  {
    if n > 0 {
      NoTotal(s, n - 1);
    }
  }

  /** The draw falls to the first runnable lottery slot whose prefix sum reaches it. */
  ghost predicate IsWinner(s: seq<Proc>, draw: int, k: nat) {
    && k < |s| && Entrant(s[k]) && Prefix(s, k + 1) >= draw
    && (forall j | 0 <= j < k && Entrant(s[j]) :: Prefix(s, j + 1) < draw)
  }

  ghost predicate NoWinner(s: seq<Proc>, draw: int) {
    forall j | 0 <= j < |s| && Entrant(s[j]) :: Prefix(s, j + 1) < draw
  }

  /** Tickets count only in runnable slots, and are then positive. */
  ghost predicate Fair(s: seq<Proc>) {
    forall p | 0 <= p < |s| && s[p].level == LOTTERY && s[p].tickets != 0 :: s[p].runnable && s[p].tickets > 0
  }

  lemma {:induction false} FairTotal(s: seq<Proc>, k: nat)
    requires Fair(s) && k <= |s|
    ensures Total(s, k) == Prefix(s, k) >= 0
  {
    if k > 0 {
      FairTotal(s, k - 1);
    }
  }

  lemma {:induction false} PrefixGrows(s: seq<Proc>, i: nat, k: nat)
    requires Fair(s) && i <= k <= |s|
    ensures Prefix(s, i) <= Prefix(s, k)
    decreases k - i
  {
    if i < k {
      PrefixGrows(s, i, k - 1);
    }
  }

  ghost predicate IsFirst(s: seq<Proc>, k: nat) {
    forall j | 0 <= j < k && j < |s| :: !Entrant(s[j])
  }

  /** The last slot with tickets. */
  ghost predicate IsLast(s: seq<Proc>, k: nat) {
    k < |s| && s[k].tickets > 0 && Prefix(s, k + 1) == Total(s, |s|)
  }

  predicate Between(d: int, a: int, b: int) {
    a <= d < b
  }

  lemma {:induction false} CountBetween(a: int, b: int)
    requires a <= b
    ensures |set d | a <= d < b && Between(d, a, b)| == b - a
    decreases b - a
  {
    var all := set d | a <= d < b && Between(d, a, b);
    if a < b {
      var a1 := a + 1;
      var rest := set d | a1 <= d < b && Between(d, a1, b);
      assert all == rest + {a};
      CountBetween(a + 1, b);
    } else {
      assert all == {};
    }
  }

  lemma {:induction false} PrefixFirst(s: seq<Proc>, k: nat, i: nat)
    requires IsFirst(s, k) && i <= k <= |s|
    ensures Prefix(s, i) == 0
  {
    if i > 0 {
      PrefixFirst(s, k, i - 1);
    }
  }

  /** The draws below the total that slot `k` wins. */
  lemma WinsExactly(s: seq<Proc>, k: nat, draw: int)
    requires Fair(s) && k < |s| && Entrant(s[k]) && 0 <= draw < Total(s, |s|)
    ensures IsWinner(s, draw, k) <==> (IsFirst(s, k) || Prefix(s, k) < draw) && draw <= Prefix(s, k + 1)
  {
    if IsFirst(s, k) {
      assert IsWinner(s, draw, k) <==> draw <= Prefix(s, k + 1);
    } else {
      var l := LastBefore(s, k);
      SkipsTo(s, l + 1, k);
      forall i | 0 <= i < k && Entrant(s[i]) ensures Prefix(s, i + 1) <= Prefix(s, k) {
        PrefixGrows(s, i + 1, k);
      }
    }
  }

  lemma {:induction false} LastBefore(s: seq<Proc>, k: nat) returns (l: nat)
    requires k <= |s| && !IsFirst(s, k)
    ensures l < k && Entrant(s[l]) && forall j | l < j < k :: !Entrant(s[j])
  {
    if Entrant(s[k - 1]) {
      l := k - 1;
    } else {
      var j :| 0 <= j < k && Entrant(s[j]);
      assert j < k - 1;
      l := LastBefore(s, k - 1);
    }
  }

  lemma {:induction false} SkipsTo(s: seq<Proc>, i: nat, k: nat)
    requires i <= k <= |s| && forall j | i <= j < k :: !Entrant(s[j])
    ensures Prefix(s, i) == Prefix(s, k)
    decreases k - i
  {
    if i < k {
      SkipsTo(s, i, k - 1);
    }
  }

  /** Over all draws each slot wins as often as it has tickets, except that the
      first wins once more and the last with tickets once less. */
  lemma LotteryShares(s: seq<Proc>, k: nat)
    requires Fair(s) && k < |s| && Entrant(s[k]) && Total(s, |s|) > 0
    ensures |set d | 0 <= d < Total(s, |s|) && IsWinner(s, d, k)|
            == s[k].tickets + (if IsFirst(s, k) then 1 else 0) - (if IsLast(s, k) then 1 else 0)
  {
    var total := Total(s, |s|);
    FairTotal(s, |s|);
    FairTotal(s, k);
    PrefixGrows(s, k + 1, |s|);
    if IsFirst(s, k) {
      PrefixFirst(s, k, k);
    }
    var a := if IsFirst(s, k) then 0 else Prefix(s, k) + 1;
    var b := if Prefix(s, k + 1) < total then Prefix(s, k + 1) + 1 else total;
    var wins := set d | 0 <= d < total && IsWinner(s, d, k);
    var range := set d | a <= d < b && Between(d, a, b);
    if a <= b {
      forall d ensures d in wins <==> d in range {
        if 0 <= d < total {
          WinsExactly(s, k, d);
        }
      }
      assert wins == range;
      CountBetween(a, b);
    } else {
      forall d ensures d !in wins {
        if 0 <= d < total {
          WinsExactly(s, k, d);
        }
      }
      assert wins == {};
    }
  }

  /** Some slot wins every draw generate_random can make from the total. */
  lemma SomeoneWins(s: seq<Proc>, draw: int)
    requires Fair(s) && 0 <= draw < Total(s, |s|)
    ensures !NoWinner(s, draw)
  {
    FairTotal(s, |s|);
    assert !IsFirst(s, |s|) by {
      if IsFirst(s, |s|) {
        PrefixFirst(s, |s|, |s|);
      }
    }
    var l := LastBefore(s, |s|);
    SkipsTo(s, l + 1, |s|);
  }

  // ---- The other two levels ----

  predicate Waiting(p: Proc, level: Level) {
    p.runnable && p.level == level
  }

  /** calculateHRRN. */
  function Ratio(p: Proc, ticks: nat): real
    requires p.cycleNum > 0
  {
    (ticks as real - p.entryTime as real) / p.cycleNum as real
  }

  /** cycleNum starts at 1 and only grows. */
  ghost predicate Counted(s: seq<Proc>) {
    forall p | 0 <= p < |s| :: s[p].cycleNum > 0
  }

  /** `a` has waited less than `b` for each time it was chosen: its ticks since it
      came in, over its cycles, are fewer. */
  predicate Behind(a: Proc, b: Proc, ticks: nat) {
    (ticks - a.entryTime) * b.cycleNum < (ticks - b.entryTime) * a.cycleNum
  }

  /** The ratios are in that order. */
  lemma RatioOrder(a: Proc, b: Proc, ticks: nat)
    requires a.cycleNum > 0 && b.cycleNum > 0
    ensures Ratio(a, ticks) < Ratio(b, ticks) <==> Behind(a, b, ticks)
  {
    var x, y: real := ticks as real - a.entryTime as real, a.cycleNum as real;
    var z, w: real := ticks as real - b.entryTime as real, b.cycleNum as real;
    CrossMultiply(x, y, z, w);
    assert x * w == ((ticks - a.entryTime) * b.cycleNum) as real;
    assert z * y == ((ticks - b.entryTime) * a.cycleNum) as real;
  }

  lemma CrossMultiply(x: real, y: real, z: real, w: real)
    requires y > 0.0 && w > 0.0
    ensures x / y < z / w <==> x * w < z * y
  {
    var q, r := x / y, z / w;
    assert x == q * y && z == r * w;
    assert x * w == q * (y * w) && z * y == r * (y * w);
    assert y * w > 0.0;
    if q < r {
      assert (r - q) * (y * w) > 0.0;
    } else {
      assert (q - r) * (y * w) >= 0.0;
    }
  }

  /** The first of the waiting processes that none other is ahead of. */
  ghost predicate IsHighest(s: seq<Proc>, ticks: nat, k: nat) {
    && k < |s| && Waiting(s[k], HRRN)
    && (forall j | 0 <= j < |s| && Waiting(s[j], HRRN) :: !Behind(s[k], s[j], ticks))
    && (forall j | 0 <= j < k && Waiting(s[j], HRRN) :: Behind(s[j], s[k], ticks))
  }

  /** What that comes to: no process that came in before it, or as early with fewer
      cycles, waits in its place. */
  lemma HighestWaitsLongest(s: seq<Proc>, ticks: nat, k: nat, j: nat)
    requires Counted(s) && IsHighest(s, ticks, k) && j < |s| && Waiting(s[j], HRRN)
    ensures (ticks - s[j].entryTime) * s[k].cycleNum <= (ticks - s[k].entryTime) * s[j].cycleNum
    ensures s[j].cycleNum == s[k].cycleNum ==> s[k].entryTime <= s[j].entryTime
    ensures s[j].entryTime == s[k].entryTime < ticks ==> s[k].cycleNum <= s[j].cycleNum
    ensures j < k ==>
              (ticks - s[j].entryTime) * s[k].cycleNum < (ticks - s[k].entryTime) * s[j].cycleNum
  {
    assert !Behind(s[k], s[j], ticks);
  }

  /** The first of the waiting processes with the smallest priority. */
  ghost predicate IsSmallest(s: seq<Proc>, k: nat) {
    && k < |s| && Waiting(s[k], SRPF)
    && (forall j | 0 <= j < |s| && Waiting(s[j], SRPF) :: s[k].priority <= s[j].priority)
    && (forall j | 0 <= j < k && Waiting(s[j], SRPF) :: s[k].priority < s[j].priority)
  }

  lemma InOrder(s: seq<Proc>, ticks: nat, k: nat)
    requires Counted(s) && k < |s| && Waiting(s[k], HRRN)
    requires forall j | 0 <= j < |s| && Waiting(s[j], HRRN) :: Ratio(s[j], ticks) <= Ratio(s[k], ticks)
    requires forall j | 0 <= j < k && Waiting(s[j], HRRN) :: Ratio(s[j], ticks) < Ratio(s[k], ticks)
    ensures IsHighest(s, ticks, k)
  {
    hide Ratio, Behind;
    forall j | 0 <= j < |s| && Waiting(s[j], HRRN)
      ensures !Behind(s[k], s[j], ticks) && (j < k ==> Behind(s[j], s[k], ticks))
    {
      RatioOrder(s[j], s[k], ticks);
      RatioOrder(s[k], s[j], ticks);
    }
  }

  ghost predicate AnyWaiting(s: seq<Proc>, level: Level) {
    exists j | 0 <= j < |s| :: Waiting(s[j], level)
  }

  /** A process chosen to run, and the table as the switch to it found it. */
  datatype Switch = Switch(slot: nat, table: seq<Proc>)

  class Cpu {
    var procs: seq<Proc>

    method GetTotal() returns (total: int)
      ensures total == Total(procs, |procs|)
    {
      total := 0;
      var p := 0;
      while p < |procs|
        invariant 0 <= p <= |procs| && total == Total(procs, p)
      {
        if procs[p].level == LOTTERY {
          total := total + procs[p].tickets;
        }
        p := p + 1;
      }
    }

    /** swtch to slot `p`: other code runs until the scheduler is back, with the
        table then `next`. */
    method Run(p: nat, next: seq<Proc>) returns (at: Switch)
      requires p < |procs| && Counted(next)
      modifies this
      ensures at == Switch(p, old(procs)[p := old(procs)[p].(runnable := false, running := true)]) && procs == next
    {
      procs := procs[p := procs[p].(runnable := false, running := true)];
      at := Switch(p, procs);
      procs := next;
    }

    /** The lottery loop; `any` is the code's isLotteryQEmpty. */
    method Lottery(draw: int, next: seq<Proc>) returns (any: bool, ran: Option<Switch>)
      requires Counted(next)
      modifies this
      ensures ran.Some? ==> procs == next && any && IsWinner(old(procs), draw, ran.value.slot)
                            && ran.value.table == old(procs)[ran.value.slot :=
                                 old(procs)[ran.value.slot].(runnable := false, running := true)]
      ensures ran.None? ==> procs == old(procs) && NoWinner(procs, draw) && any == AnyWaiting(procs, LOTTERY)
    {
      any, ran := false, None;
      var rnd := draw;
      var p := 0;
      while p < |procs|
        invariant 0 <= p <= |procs| && procs == old(procs) && rnd == draw - Prefix(procs, p)
        invariant forall j | 0 <= j < p && Entrant(procs[j]) :: Prefix(procs, j + 1) < draw
        invariant any <==> exists j | 0 <= j < p :: Waiting(procs[j], LOTTERY)
      {
        if procs[p].runnable && procs[p].level == LOTTERY {
          any := true;
          assert Waiting(procs[p], LOTTERY);
          rnd := rnd - procs[p].tickets;
          if rnd <= 0 {
            var at := Run(p, next);
            ran := Some(at);
            return;
          }
        }
        p := p + 1;
      }
    }

    method Highest(ticks: nat) returns (best: Option<nat>)
      requires Counted(procs)
      ensures best.Some? ==> IsHighest(procs, ticks, best.value)
      ensures best.None? ==> !AnyWaiting(procs, HRRN)
    {
      best := None;
      var p := 0;
      while p < |procs|
        invariant 0 <= p <= |procs|
        invariant best.None? ==> forall j | 0 <= j < p :: !Waiting(procs[j], HRRN)
        invariant best.Some? ==>
                    && best.value < p && Waiting(procs[best.value], HRRN)
                    && (forall j | 0 <= j < p && Waiting(procs[j], HRRN) ::
                          Ratio(procs[j], ticks) <= Ratio(procs[best.value], ticks))
                    && (forall j | 0 <= j < best.value && Waiting(procs[j], HRRN) ::
                          Ratio(procs[j], ticks) < Ratio(procs[best.value], ticks))
      {
        if procs[p].runnable && procs[p].level == HRRN {
          if best.None? || Ratio(procs[best.value], ticks) < Ratio(procs[p], ticks) {
            best := Some(p);
          }
        }
        p := p + 1;
      }
      if best.Some? {
        InOrder(procs, ticks, best.value);
      }
    }

    method Smallest() returns (best: Option<nat>)
      ensures best.Some? ==> IsSmallest(procs, best.value)
      ensures best.None? ==> !AnyWaiting(procs, SRPF)
    {
      best := None;
      var p := 0;
      while p < |procs|
        invariant 0 <= p <= |procs|
        invariant best.None? ==> forall j | 0 <= j < p :: !Waiting(procs[j], SRPF)
        invariant best.Some? ==>
                    && best.value < p && Waiting(procs[best.value], SRPF)
                    && (forall j | 0 <= j < p && Waiting(procs[j], SRPF) ::
                          procs[best.value].priority <= procs[j].priority)
                    && (forall j | 0 <= j < best.value && Waiting(procs[j], SRPF) ::
                          procs[best.value].priority < procs[j].priority)
      {
        if procs[p].runnable && procs[p].level == SRPF {
          if best.None? || procs[best.value].priority > procs[p].priority {
            best := Some(p);
          }
        }
        p := p + 1;
      }
    }

    /** One round, from the draw to the release of ptable.lock. While a process
        runs the table changes freely: `next1` to `next3` are what it then is. */
    method Round(ticks: nat, total: int, next1: seq<Proc>, next2: seq<Proc>, next3: seq<Proc>)
      returns (lottery: Option<Switch>, hrrn: Option<Switch>, srpf: Option<Switch>)
      requires Counted(procs) && Counted(next1) && Counted(next2) && Counted(next3)
      modifies this
      // the lottery
      ensures lottery.Some? ==>
                && IsWinner(old(procs), GenerateRandom(ticks, total), lottery.value.slot)
                && lottery.value.table == old(procs)[lottery.value.slot :=
                     old(procs)[lottery.value.slot].(runnable := false, running := true)]
      ensures lottery.None? ==> NoWinner(old(procs), GenerateRandom(ticks, total))
      // the highest ratio, only when no lottery process could run
      ensures hrrn.Some? <==> !AnyWaiting(old(procs), LOTTERY) && AnyWaiting(old(procs), HRRN)
      ensures hrrn.Some? ==>
                && IsHighest(old(procs), ticks, hrrn.value.slot)
                && hrrn.value.table == old(procs)[hrrn.value.slot := old(procs)[hrrn.value.slot].(
                     runnable := false, running := true, cycleNum := old(procs)[hrrn.value.slot].cycleNum + 1)]
      // the smallest priority in the table then found, unless a ratio process ran
      ensures srpf.Some? <==> hrrn.None? && AnyWaiting(if lottery.Some? then next1 else old(procs), SRPF)
      ensures srpf.Some? ==>
                var t := if lottery.Some? then next1 else old(procs);
                var k := srpf.value.slot;
                && IsSmallest(t, k)
                && srpf.value.table == t[k := t[k].(runnable := false, running := true,
                     priority := if t[k].priority >= 0.1 then t[k].priority - 0.1 else t[k].priority)]
      ensures procs == if srpf.Some? then next3 else if hrrn.Some? then next2
                       else if lottery.Some? then next1 else old(procs)
    {
      var lotterySeen, hrrnSeen, srpfSeen := false, false, false;
      hrrn, srpf := None, None;
      var rnd := GenerateRandom(ticks, total);
      lotterySeen, lottery := Lottery(rnd, next1);
      assert lottery.Some? ==> AnyWaiting(old(procs), LOTTERY) by {
        assert lottery.Some? ==> Waiting(old(procs)[lottery.value.slot], LOTTERY);
      }
      if !lotterySeen {
        var best := Highest(ticks);
        if best.Some? {
          assert Waiting(procs[best.value], HRRN);
          hrrnSeen := true;
          procs := procs[best.value := procs[best.value].(cycleNum := procs[best.value].cycleNum + 1)];
          var at := Run(best.value, next2);
          hrrn := Some(at);
        }
      }
      if !hrrnSeen {
        var best := Smallest();
        if best.Some? {
          assert Waiting(procs[best.value], SRPF);
          srpfSeen := true;
          if procs[best.value].priority - 0.1 >= 0.0 {
            procs := procs[best.value := procs[best.value].(priority := procs[best.value].priority - 0.1)];
          }
          var at := Run(best.value, next3);
          srpf := Some(at);
        }
      }
      if !srpfSeen && hrrnSeen && lotterySeen {
        assert false;  // the `continue` that would keep ptable.lock is never reached
      }
    }
  }
}
