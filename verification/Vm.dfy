/** Two-level page tables and the physical page allocator (`vm.c`, `kalloc.c`).
    Physical memory is a sequence of page frames, each 1024 words, and virtual
    addresses are bytes; page `v` of an address space starts at 4096 * v. */
module Vm {
  const PGSIZE: nat := 4096
  const KERNBASE: nat := 0x80000000
  const USERPAGES: nat := 0x80000   // pages below KERNBASE
  const PAGES: nat := 0x100000
  const FRAMES: nat := 0xE000       // frames below PHYSTOP
  const PTE_P: nat := 1
  const PTE_W: nat := 2
  const PTE_U: nat := 4

  type Page = p: seq<nat> | |p| == 1024 witness seq(1024, _ => 0)
  type Mem = seq<Page>

  function Zeroes(): (p: Page)
    ensures forall i | 0 <= i < 1024 :: p[i] == 0
  {
    seq(1024, _ => 0)
  }

  /** What kfree fills a page with. */
  function Junk(): Page {
    seq(1024, _ => 0x01010101)
  }

  // ---- Page table entries ----

  predicate Present(w: nat) {
    w % 2 == 1
  }

  function Frame(w: nat): nat {
    w / 4096
  }

  function Flags(w: nat): nat {
    w % 4096
  }

  /** `pa | perm | PTE_P` for the frame at `pa`. */
  function MakePte(frame: nat, perm: nat): nat {
    frame * 4096 + if perm % 2 == 1 then perm else perm + 1
  }

  lemma MakePteReads(frame: nat, perm: nat)
    requires perm < 4096
    ensures var w := MakePte(frame, perm);
      Present(w) && Frame(w) == frame && Flags(w) == if perm % 2 == 1 then perm else perm + 1
  {
    var f := if perm % 2 == 1 then perm else perm + 1;
    Halves(frame * 2048, f);
    assert (perm + 1) % 2 != perm % 2;
  }

  // ---- An address space ----

  /** The entry of page `v` in the space rooted at frame `pd`; 0 when its page
      table is missing. */
  function Walk(mem: Mem, pd: nat, v: nat): nat {
    if pd < |mem| && v < PAGES && Present(mem[pd][v / 1024]) && Frame(mem[pd][v / 1024]) < |mem|
    then mem[Frame(mem[pd][v / 1024])][v % 1024]
    else 0
  }

  ghost predicate FreeOk(free: seq<nat>, lo: nat) {
    && (forall k | 0 <= k < |free| :: lo <= free[k] < FRAMES)
    && (forall k, l | 0 <= k < l < |free| :: free[k] != free[l])
  }

  /** Bits 0, 1 and 2 of an entry: present, writable, and open to user code. */
  predicate Bit(w: nat, value: nat)
    requires value > 0
  {
    w / value % 2 == 1
  }

  lemma BitsOf(frame: nat, f: nat)
    requires f < 8
    ensures var w := frame * 4096 + f;
      Frame(w) == frame && Flags(w) == f
      && (Present(w) <==> f % 2 == 1) && (Bit(w, 2) <==> f / 2 % 2 == 1) && (Bit(w, 4) <==> f / 4 == 1)
  {
    var k := frame * 512;
    Halves(4 * k, f);
    Halves(2 * k, f / 2);
    Halves(k, f / 4);
  }

  lemma Halves(k: nat, f: nat)
    ensures (2 * k + f) / 2 == k + f / 2 && (2 * k + f) % 2 == f % 2
  {
  }

  /** What the processor allows at page `v`, by the entries of both levels. */
  predicate Allows(mem: Mem, pd: nat, v: nat, value: nat)
    requires value > 0
  {
    && pd < |mem| && v < PAGES && Present(Walk(mem, pd, v))
    && Bit(mem[pd][v / 1024], value) && Bit(Walk(mem, pd, v), value)
  }

  /** The directory and its page tables are distinct pages, none of them free; the
      entries of the directory are present, writable and open to user code. */
  ghost predicate Tables(mem: Mem, free: seq<nat>, pd: nat, lo: nat) {
    && |mem| == FRAMES && lo <= pd < FRAMES && pd !in free
    && (forall i | 0 <= i < 1024 && Present(mem[pd][i]) ::
          && lo <= Frame(mem[pd][i]) < FRAMES && Frame(mem[pd][i]) != pd && Frame(mem[pd][i]) !in free
          && Flags(mem[pd][i]) == 7)
    && (forall i, k | 0 <= i < k < 1024 && Present(mem[pd][i]) && Present(mem[pd][k]) ::
          Frame(mem[pd][i]) != Frame(mem[pd][k]))
  }

  ghost predicate IsTable(mem: Mem, pd: nat, p: nat) {
    pd < |mem| && exists i | 0 <= i < 1024 :: Present(mem[pd][i]) && Frame(mem[pd][i]) == p
  }

  /** The pages mapped below KERNBASE are distinct and used for nothing else. */
  ghost predicate Users(mem: Mem, free: seq<nat>, pd: nat, lo: nat) {
    && (forall v | 0 <= v < USERPAGES && Present(Walk(mem, pd, v)) ::
          var p := Frame(Walk(mem, pd, v));
          lo <= p < FRAMES && p != pd && p !in free && !IsTable(mem, pd, p))
    && (forall v, u | 0 <= v < u < USERPAGES && Present(Walk(mem, pd, v)) && Present(Walk(mem, pd, u)) ::
          Frame(Walk(mem, pd, v)) != Frame(Walk(mem, pd, u)))
  }

  ghost predicate IsUser(mem: Mem, pd: nat, p: nat) {
    exists v | 0 <= v < USERPAGES :: Present(Walk(mem, pd, v)) && Frame(Walk(mem, pd, v)) == p
  }

  ghost predicate Space(mem: Mem, free: seq<nat>, pd: nat, lo: nat) {
    FreeOk(free, lo) && Tables(mem, free, pd, lo) && Users(mem, free, pd, lo)
  }

  /** Frame `p` belongs to the space. */
  ghost predicate Owned(mem: Mem, pd: nat, p: nat) {
    p == pd || IsTable(mem, pd, p) || IsUser(mem, pd, p)
  }

  /** Every frame that was free or owned still is, and no other was taken or written. */
  ghost predicate Conserved(mem: Mem, free: seq<nat>, mem': Mem, free': seq<nat>, pd: nat) {
    && |mem'| == |mem|
    && (forall p: nat :: p in free' || Owned(mem', pd, p) <==> p in free || Owned(mem, pd, p))
    && (forall p | 0 <= p < |mem| && p !in free && !Owned(mem, pd, p) :: mem'[p] == mem[p])
  }

  // ---- Single writes ----

  /** Writing the entry of page `v` changes that entry and no other. */
  lemma SetEntry(mem: Mem, free: seq<nat>, pd: nat, lo: nat, v: nat, w: nat)
    requires Tables(mem, free, pd, lo) && v < PAGES && Present(mem[pd][v / 1024])
    ensures var t := Frame(mem[pd][v / 1024]);
      var mem' := mem[t := mem[t][v % 1024 := w]];
      && Tables(mem', free, pd, lo) && mem'[pd] == mem[pd]
      && (forall u | 0 <= u < PAGES :: Walk(mem', pd, u) == if u == v then w else Walk(mem, pd, u))
  {
    hide Present, Frame;
    var t := Frame(mem[pd][v / 1024]);
    var mem' := mem[t := mem[t][v % 1024 := w]];
    forall u | 0 <= u < PAGES ensures Walk(mem', pd, u) == if u == v then w else Walk(mem, pd, u) {
      if Present(mem[pd][u / 1024]) && u / 1024 == v / 1024 {
        assert u % 1024 == v % 1024 ==> u == v;
      }
    }
  }

  /** Taking the first free page as a cleared page table maps nothing. */
  lemma AddTable(mem: Mem, free: seq<nat>, pd: nat, lo: nat, i: nat)
    requires FreeOk(free, lo) && Tables(mem, free, pd, lo) && i < 1024 && !Present(mem[pd][i]) && free != []
    ensures var mem' := mem[free[0] := Zeroes()][pd := mem[pd][i := MakePte(free[0], 7)]];
      && FreeOk(free[1..], lo) && Tables(mem', free[1..], pd, lo)
      && Present(mem'[pd][i]) && Frame(mem'[pd][i]) == free[0]
      && (forall u | 0 <= u < PAGES :: Walk(mem', pd, u) == Walk(mem, pd, u))
      && (forall p :: IsTable(mem', pd, p) <==> IsTable(mem, pd, p) || p == free[0])
  {
    MakePteReads(free[0], 7);
    NotPresentZero();
    hide Present, Frame, Flags, MakePte;
    var q := free[0];
    var dir := mem[pd][i := MakePte(q, 7)];
    var mem' := mem[q := Zeroes()][pd := dir];
    assert forall k | 0 <= k < |free| - 1 :: free[1..][k] == free[k + 1];
    assert q !in free[1..];
    forall p ensures IsTable(mem', pd, p) <==> IsTable(mem, pd, p) || p == q {
      if IsTable(mem, pd, p) {
        var k :| 0 <= k < 1024 && Present(mem[pd][k]) && Frame(mem[pd][k]) == p;
        assert mem'[pd][k] == mem[pd][k];
      }
      assert Present(mem'[pd][i]) && Frame(mem'[pd][i]) == q;
    }
  }

  lemma NotPresentZero()
    ensures !Present(0)
  {
  }

  /** Page tables were taken from the free list, and only they and the directory
      were written. */
  ghost predicate Took(mem: Mem, free: seq<nat>, mem': Mem, free': seq<nat>, pd: nat) {
    && |mem'| == |mem|
    && (forall p: nat | p in free' :: p in free)
    && (forall p: nat | IsTable(mem, pd, p) :: IsTable(mem', pd, p))
    && (forall p: nat :: p in free' || IsTable(mem', pd, p) <==> p in free || IsTable(mem, pd, p))
    && (forall p | 0 <= p < |mem| && p != pd && !IsTable(mem', pd, p) :: mem'[p] == mem[p])
  }

  lemma TookTransitive(m0: Mem, f0: seq<nat>, m1: Mem, f1: seq<nat>, m2: Mem, f2: seq<nat>, pd: nat)
    requires Took(m0, f0, m1, f1, pd) && Took(m1, f1, m2, f2, pd)
    ensures Took(m0, f0, m2, f2, pd)
  {
    hide IsTable;
  }

  lemma TookEntry(mem: Mem, free: seq<nat>, pd: nat, t: nat, page: Page)
    requires t < |mem| && pd < |mem| && t != pd && IsTable(mem, pd, t)
    ensures Took(mem, free, mem, free, pd) && Took(mem, free, mem[t := page], free, pd)
    ensures forall p :: IsTable(mem[t := page], pd, p) <==> IsTable(mem, pd, p)
  {
    var mem' := mem[t := page];
    assert mem'[pd] == mem[pd];
    assert forall p :: IsTable(mem', pd, p) <==> IsTable(mem, pd, p) by {
      forall p ensures IsTable(mem', pd, p) <==> IsTable(mem, pd, p) {
        if IsTable(mem, pd, p) {
          var i :| 0 <= i < 1024 && Present(mem[pd][i]) && Frame(mem[pd][i]) == p;
          assert Present(mem'[pd][i]);
        }
      }
    }
  }

  lemma TookNothing(mem: Mem, free: seq<nat>, pd: nat)
    ensures Took(mem, free, mem, free, pd)
  {
  }

  lemma Written(mem: Mem, free: seq<nat>, pd: nat, lo: nat, v: nat, w: nat)
    requires Tables(mem, free, pd, lo) && v < PAGES && Present(mem[pd][v / 1024])
    ensures var t := Frame(mem[pd][v / 1024]);
      t < |mem| && Took(mem, free, mem[t := mem[t][v % 1024 := w]], free, pd)
  {
    var t := Frame(mem[pd][v / 1024]);
    assert IsTable(mem, pd, t);
    TookEntry(mem, free, pd, t, mem[t][v % 1024 := w]);
  }

  /** The page number of an address. */
  function PageOf(va: nat): nat {
    va / 4096
  }

  // ---- How much memory it takes ----

  function Between(lo: nat, hi: nat): (r: set<nat>)
    requires lo <= hi
    ensures |r| == hi - lo && forall x: nat :: x in r <==> lo <= x < hi
    decreases hi
  {
    if lo == hi then {} else Between(lo, hi - 1) + {hi - 1}
  }

  /** The directory entries that are present. */
  ghost function Dir(mem: Mem, pd: nat): set<nat> {
    set i: nat | i < 1024 && pd < |mem| && Present(mem[pd][i])
  }

  /** The directory entries that pages `first` to `stop - 1` need. */
  ghost function Spans(first: nat, stop: nat): set<nat> {
    if first >= stop then {} else Between(first / 1024, (stop - 1) / 1024 + 1)
  }

  /** Page tables have been added at the entries `tables`, each for one page of
      the free list. */
  ghost predicate Paid(mem: Mem, free: seq<nat>, mem': Mem, free': seq<nat>, pd: nat, tables: set<nat>) {
    && Dir(mem', pd) == Dir(mem, pd) + tables
    && |free'| + |Dir(mem', pd)| == |free| + |Dir(mem, pd)|
  }

  lemma PaidNothing(mem: Mem, free: seq<nat>, pd: nat, v: nat)
    ensures Paid(mem, free, mem, free, pd, Spans(v, v))
  {
  }

  /** The tables not there before are what has been paid for. */
  lemma PaidFor(mem: Mem, free: seq<nat>, mem': Mem, free': seq<nat>, pd: nat, tables: set<nat>)
    requires Paid(mem, free, mem', free', pd, tables)
    ensures |free| == |free'| + |tables - Dir(mem, pd)|
  {
    hide Dir;
    assert Dir(mem', pd) == Dir(mem, pd) + (tables - Dir(mem, pd));
  }

  lemma PaidTransitive(m0: Mem, f0: seq<nat>, m1: Mem, f1: seq<nat>, m2: Mem, f2: seq<nat>, pd: nat, t1: set<nat>,
                       t2: set<nat>)
    requires Paid(m0, f0, m1, f1, pd, t1) && Paid(m1, f1, m2, f2, pd, t2)
    ensures Paid(m0, f0, m2, f2, pd, t1 + t2)
  {
    hide Dir;
  }

  lemma PaidSameDir(m0: Mem, f0: seq<nat>, m1: Mem, m2: Mem, f1: seq<nat>, pd: nat, tables: set<nat>)
    requires Paid(m0, f0, m1, f1, pd, tables) && pd < |m1| == |m2| && m2[pd] == m1[pd]
    ensures Paid(m0, f0, m2, f1, pd, tables)
  {
    SameDir(m1, m2, pd);
    hide Dir;
  }

  lemma TablePaid(mem: Mem, free: seq<nat>, mem': Mem, free': seq<nat>, pd: nat, i: nat)
    requires pd < |mem| == |mem'| && i < 1024 && !Present(mem[pd][i]) && Present(mem'[pd][i])
    requires mem'[pd] == mem[pd][i := mem'[pd][i]] && |free| == |free'| + 1
    ensures Paid(mem, free, mem', free', pd, {i})
  {
    hide Present;
    assert Dir(mem', pd) == Dir(mem, pd) + {i};
  }

  lemma SameDir(mem: Mem, mem': Mem, pd: nat)
    requires pd < |mem| == |mem'| && mem'[pd] == mem[pd]
    ensures Dir(mem', pd) == Dir(mem, pd)
  {
  }

  lemma SpansNext(first: nat, v: nat)
    requires first <= v
    ensures Spans(first, v + 1) == Spans(first, v) + {v / 1024}
    ensures Spans(v, v + 1) == {v / 1024}
  {
    hide Between;
    SpansOne(v);
    if first < v {
      var lo, hi := first / 1024, (v - 1) / 1024 + 1;
      assert lo <= v / 1024 && (v / 1024 == hi - 1 || v / 1024 == hi);
      assert Between(lo, v / 1024 + 1) == Between(lo, hi) + {v / 1024};
    }
  }

  lemma SpansOne(v: nat)
    ensures Spans(v, v + 1) == {v / 1024}
  {
    hide Between;
    assert Between(v / 1024, v / 1024 + 1) == {v / 1024};
  }

  lemma SpansGrow(first: nat, v: nat, stop: nat)
    requires first <= v <= stop
    ensures Spans(first, v) <= Spans(first, stop)
    ensures v < stop ==> v / 1024 in Spans(first, stop)
  {
    hide Between;
  }

  lemma SmallerSet(a: set<nat>, b: set<nat>)
    requires a <= b
    ensures |a| <= |b| && (a != b ==> |a| < |b|)
  {
    assert b == a + (b - a);
  }

  lemma Missing(a: set<nat>, b: set<nat>, d: set<nat>, x: nat)
    requires a <= b && x in b && x !in d + a
    ensures |a - d| < |b - d|
  {
    assert x in b - d && x !in a - d;
    SmallerSet(a - d, b - d);
  }

  /** With memory exhausted at page `v` there was too little for all of them. */
  lemma ShortOfTables(mem: Mem, free: seq<nat>, mem': Mem, pd: nat, first: nat, v: nat, stop: nat)
    requires Paid(mem, free, mem', [], pd, Spans(first, v)) && first <= v < stop && v / 1024 !in Dir(mem', pd)
    ensures |free| < |Spans(first, stop) - Dir(mem, pd)|
  {
    PaidFor(mem, free, mem', [], pd, Spans(first, v));
    SpansGrow(first, v, stop);
    hide Dir, Spans, Between;
    assert v / 1024 !in Dir(mem, pd) + Spans(first, v);
    hide Paid;
    Missing(Spans(first, v), Spans(first, stop), Dir(mem, pd), v / 1024);
  }

  /** The frames it takes to grow over pages `first` to `stop - 1`: the pages, and
      the page tables missing from the directory. */
  ghost function Need(dir: set<nat>, first: nat, stop: nat): nat {
    if first >= stop then 0 else stop - first + |Spans(first, stop) - dir|
  }

  /** Pages `first` to `v - 1` have been given frames, and tables where they had none. */
  ghost predicate Supplied(m0: Mem, f0: seq<nat>, mem: Mem, free: seq<nat>, pd: nat, first: nat, v: nat) {
    && first <= v && Dir(mem, pd) == Dir(m0, pd) + Spans(first, v)
    && |f0| == |free| + Need(Dir(m0, pd), first, v)
  }

  lemma SuppliedNothing(mem: Mem, free: seq<nat>, pd: nat, first: nat)
    ensures Supplied(mem, free, mem, free, pd, first, first)
  {
    hide Dir;
  }

  lemma NeedNext(dir: set<nat>, first: nat, v: nat)
    requires first <= v
    ensures Need(dir, first, v + 1) == Need(dir, first, v) + 1 + |{v / 1024} - (dir + Spans(first, v))|
  {
    SpansNext(first, v);
    SpansNone(first);
    hide Spans, Between;
    OneMore(Spans(first, v), dir, v / 1024);
  }

  lemma OneMore(a: set<nat>, d: set<nat>, x: nat)
    ensures |(a + {x}) - d| == |a - d| + |{x} - (d + a)|
  {
    if x in d || x in a {
      assert (a + {x}) - d == a - d && {x} - (d + a) == {};
    } else {
      assert (a + {x}) - d == (a - d) + {x} && {x} - (d + a) == {x};
    }
  }

  lemma SpansNone(first: nat)
    ensures Spans(first, first) == {}
  {
  }

  lemma {:induction false} NeedGrows(dir: set<nat>, first: nat, v: nat, stop: nat)
    requires first <= v <= stop
    ensures Need(dir, first, v) + (stop - v) <= Need(dir, first, stop)
    decreases stop - v
  {
    hide Need;
    if v < stop {
      NeedNext(dir, first, v);
      NeedGrows(dir, first, v + 1, stop);
    }
  }

  lemma SuppliedNext(m0: Mem, f0: seq<nat>, m: Mem, f: seq<nat>, m1: Mem, f1: seq<nat>, mem: Mem, free: seq<nat>,
                     pd: nat, first: nat, v: nat)
    requires Supplied(m0, f0, m, f, pd, first, v) && |f| == |f1| + 1 && Dir(m1, pd) == Dir(m, pd)
    requires Paid(m1, f1, mem, free, pd, Spans(v, v + 1))
    ensures Supplied(m0, f0, mem, free, pd, first, v + 1)
  {
    PaidFor(m1, f1, mem, free, pd, Spans(v, v + 1));
    NeedNext(Dir(m0, pd), first, v);
    SpansNext(first, v);
    hide Dir, Spans, Need;
  }

  lemma SuppliedAll(m0: Mem, f0: seq<nat>, mem: Mem, free: seq<nat>, pd: nat, first: nat, v: nat)
    requires Supplied(m0, f0, mem, free, pd, first, v)
    ensures |f0| == |free| + Need(Dir(m0, pd), first, v)
  {
  }

  lemma TakenDir(mem: Mem, free: seq<nat>, pd: nat, lo: nat, page: Page)
    requires Space(mem, free, pd, lo) && free != []
    ensures free[0] < |mem| && Dir(mem[free[0] := page], pd) == Dir(mem, pd)
  {
    SameDir(mem, mem[free[0] := page], pd);
  }

  /** No frame left for page `v`, or, once it has one, for its table. */
  lemma SuppliedShort(m0: Mem, f0: seq<nat>, m: Mem, f: seq<nat>, m1: Mem, f1: seq<nat>, pd: nat, first: nat, v: nat,
                      stop: nat)
    requires Supplied(m0, f0, m, f, pd, first, v) && v < stop
    requires f == [] || (|f| == |f1| + 1 && Dir(m1, pd) == Dir(m, pd) && |f1| < |Spans(v, v + 1) - Dir(m1, pd)|)
    ensures |f0| < Need(Dir(m0, pd), first, stop)
  {
    NeedNext(Dir(m0, pd), first, v);
    NeedGrows(Dir(m0, pd), first, v + 1, stop);
    SpansOne(v);
    hide Dir, Spans, Need;
  }

  /** The entries after mapping pages `first` to `stop - 1` to the frames from
      `frame` on. */
  ghost predicate MapsTo(mem: Mem, mem': Mem, pd: nat, first: nat, stop: nat, frame: nat, perm: nat) {
    forall u | 0 <= u < PAGES ::
      Walk(mem', pd, u) == if first <= u < stop then MakePte(frame + (u - first), perm) else Walk(mem, pd, u)
  }

  // ---- User pages coming and going ----

  /** A page off the free list can be written without touching the space. */
  lemma Loosen(mem: Mem, free: seq<nat>, pd: nat, lo: nat, page: Page)
    requires Space(mem, free, pd, lo) && free != []
    ensures var q := free[0];
      var mem' := mem[q := page];
      && Space(mem', free[1..], pd, lo) && q !in free[1..] && !Owned(mem', pd, q)
      && (forall u :: Walk(mem', pd, u) == Walk(mem, pd, u))
      && (forall p :: Owned(mem', pd, p) <==> Owned(mem, pd, p))
  {
    var q, free' := free[0], free[1..];
    var mem' := mem[q := page];
    assert forall k | 0 <= k < |free'| :: free'[k] == free[k + 1];
    assert forall p | p in free' :: p in free;
    SameSpace(mem, free, mem', free', pd, lo);
  }

  lemma PutBack(mem: Mem, free: seq<nat>, pd: nat, lo: nat, q: nat, page: Page)
    requires Space(mem, free, pd, lo) && lo <= q < FRAMES && q !in free && !Owned(mem, pd, q)
    ensures var mem' := mem[q := page];
      && Space(mem', [q] + free, pd, lo)
      && (forall u :: Walk(mem', pd, u) == Walk(mem, pd, u))
      && (forall p :: Owned(mem', pd, p) <==> Owned(mem, pd, p))
  {
    hide Walk;
    var mem' := mem[q := page];
    SameSpace(mem, free, mem', free, pd, lo);
    assert !Owned(mem', pd, q);
    forall v | 0 <= v < USERPAGES && Present(Walk(mem', pd, v)) ensures Frame(Walk(mem', pd, v)) != q {
      assert IsUser(mem', pd, Frame(Walk(mem', pd, v)));
    }
    forall i | 0 <= i < 1024 && Present(mem'[pd][i]) ensures Frame(mem'[pd][i]) != q {
      assert IsTable(mem', pd, Frame(mem'[pd][i]));
    }
  }

  /** A space is untouched by writes to pages it does not own. */
  lemma SameSpace(mem: Mem, free: seq<nat>, mem': Mem, free': seq<nat>, pd: nat, lo: nat)
    requires Space(mem, free, pd, lo) && FreeOk(free', lo) && |mem'| == |mem|
    requires forall p | 0 <= p < |mem| && Owned(mem, pd, p) :: mem'[p] == mem[p]
    requires forall p | p in free' :: p in free
    ensures Space(mem', free', pd, lo)
    ensures forall u :: Walk(mem', pd, u) == Walk(mem, pd, u)
    ensures forall p :: Owned(mem', pd, p) <==> Owned(mem, pd, p)
  {
    assert Owned(mem, pd, pd);
    SameWalk(mem, free, mem', pd, lo);
    assert forall p :: IsTable(mem', pd, p) <==> IsTable(mem, pd, p);
    hide Walk, IsTable;
    assert forall p :: IsUser(mem', pd, p) <==> IsUser(mem, pd, p) by {
      forall p ensures IsUser(mem', pd, p) <==> IsUser(mem, pd, p) {
        if v :| 0 <= v < USERPAGES && Present(Walk(mem, pd, v)) && Frame(Walk(mem, pd, v)) == p {
          assert Present(Walk(mem', pd, v));
        }
        if v :| 0 <= v < USERPAGES && Present(Walk(mem', pd, v)) && Frame(Walk(mem', pd, v)) == p {
          assert Present(Walk(mem, pd, v));
        }
      }
    }
  }

  lemma SameWalk(mem: Mem, free: seq<nat>, mem': Mem, pd: nat, lo: nat)
    requires Tables(mem, free, pd, lo) && |mem'| == |mem| && mem'[pd] == mem[pd]
    requires forall p | 0 <= p < |mem| && Owned(mem, pd, p) :: mem'[p] == mem[p]
    ensures forall u :: Walk(mem', pd, u) == Walk(mem, pd, u)
  {
    forall u: nat | u < PAGES ensures Walk(mem', pd, u) == Walk(mem, pd, u) {
      if Present(mem[pd][u / 1024]) {
        assert IsTable(mem, pd, Frame(mem[pd][u / 1024]));
        assert Owned(mem, pd, Frame(mem[pd][u / 1024]));
      }
    }
  }

  /** mappages mapped the loose page `q` at user page `v`, or failed. */
  lemma AfterMap(mem: Mem, free: seq<nat>, mem': Mem, free': seq<nat>, pd: nat, lo: nat, q: nat, v: nat, stop: nat,
                 perm: nat)
    requires Space(mem, free, pd, lo) && Took(mem, free, mem', free', pd)
    requires Tables(mem', free', pd, lo) && FreeOk(free', lo)
    requires lo <= q < FRAMES && q !in free && !Owned(mem, pd, q)
    requires v < USERPAGES && v <= stop <= v + 1 && perm < 4096
    requires !Present(Walk(mem, pd, v)) && MapsTo(mem, mem', pd, v, stop, q, perm)
    ensures Space(mem', free', pd, lo)
    ensures forall p :: p in free' || Owned(mem', pd, p) <==>
                        p in free || Owned(mem, pd, p) || (stop == v + 1 && p == q)
    ensures forall p | 0 <= p < |mem| && p !in free && !Owned(mem, pd, p) :: mem'[p] == mem[p]
  {
    MakePteReads(q, perm);
    hide Present, Frame, MakePte, Walk, IsTable, FreeOk, Tables;
    assert |mem| == FRAMES by {
      TablesSize(mem, free, pd, lo);
    }
    if stop == v + 1 {
      forall u | 0 <= u < USERPAGES
        ensures Walk(mem', pd, u) == if u == v then MakePte(q, perm) else Walk(mem, pd, u)
      {
      }
    } else {
      forall u | 0 <= u < USERPAGES ensures Walk(mem', pd, u) == Walk(mem, pd, u) {
      }
    }
    forall p ensures IsUser(mem', pd, p) <==> IsUser(mem, pd, p) || (stop == v + 1 && p == q) {
      if u :| 0 <= u < USERPAGES && Present(Walk(mem, pd, u)) && Frame(Walk(mem, pd, u)) == p {
        assert Present(Walk(mem', pd, u)) && Frame(Walk(mem', pd, u)) == p;
      }
      if u :| 0 <= u < USERPAGES && Present(Walk(mem', pd, u)) && Frame(Walk(mem', pd, u)) == p {
        assert u == v || Present(Walk(mem, pd, u));
      }
      if stop == v + 1 {
        assert Present(Walk(mem', pd, v)) && Frame(Walk(mem', pd, v)) == q;
      }
    }
    forall u | 0 <= u < USERPAGES && Present(Walk(mem, pd, u))
      ensures Frame(Walk(mem, pd, u)) != q
    {
      assert IsUser(mem, pd, Frame(Walk(mem, pd, u)));
    }
  }

  lemma TablesSize(mem: Mem, free: seq<nat>, pd: nat, lo: nat)
    requires Tables(mem, free, pd, lo)
    ensures |mem| == FRAMES && lo <= pd < FRAMES
  {
  }

  /** A user page unmapped and given back. */
  lemma Unmap(mem: Mem, free: seq<nat>, pd: nat, lo: nat, v: nat)
    requires Space(mem, free, pd, lo) && v < USERPAGES && Present(Walk(mem, pd, v))
    ensures Present(mem[pd][v / 1024])
    ensures var t, q := Frame(mem[pd][v / 1024]), Frame(Walk(mem, pd, v));
      && t < |mem| && q < |mem| && lo <= q && t != q && q !in free && Walk(mem, pd, v) == mem[t][v % 1024]
      && IsTable(mem, pd, t) && !IsTable(mem, pd, q) && t != pd && q != pd
      && var mem' := mem[q := Junk()][t := mem[t][v % 1024 := 0]];
      && Space(mem', [q] + free, pd, lo) && Conserved(mem, free, mem', [q] + free, pd)
      && (forall u | 0 <= u < PAGES :: Walk(mem', pd, u) == if u == v then 0 else Walk(mem, pd, u))
  {
    var t, q := Frame(mem[pd][v / 1024]), Frame(Walk(mem, pd, v));
    assert IsTable(mem, pd, t);
    var mem1 := mem[t := mem[t][v % 1024 := 0]];
    SetEntry(mem, free, pd, lo, v, 0);
    TookEntry(mem, free, pd, t, mem[t][v % 1024 := 0]);
    Cleared(mem, free, mem1, pd, lo, v);
    PutBack(mem1, free, pd, lo, q, Junk());
    assert mem[q := Junk()][t := mem[t][v % 1024 := 0]] == mem1[q := Junk()];
  }

  lemma Cleared(mem: Mem, free: seq<nat>, mem': Mem, pd: nat, lo: nat, v: nat)
    requires Space(mem, free, pd, lo) && v < USERPAGES && Present(Walk(mem, pd, v))
    requires Tables(mem', free, pd, lo)
    requires forall p :: IsTable(mem', pd, p) <==> IsTable(mem, pd, p)
    requires forall u | 0 <= u < PAGES :: Walk(mem', pd, u) == if u == v then 0 else Walk(mem, pd, u)
    ensures Space(mem', free, pd, lo)
    ensures forall p :: Owned(mem', pd, p) <==> Owned(mem, pd, p) && p != Frame(Walk(mem, pd, v))
  {
    NotPresentZero();
    hide Present, Frame, Walk, IsTable, FreeOk, Tables;
    forall p ensures IsUser(mem', pd, p) <==> IsUser(mem, pd, p) && p != Frame(Walk(mem, pd, v)) {
      if u :| 0 <= u < USERPAGES && Present(Walk(mem, pd, u)) && Frame(Walk(mem, pd, u)) == p {
        assert u == v || Present(Walk(mem', pd, u));
      }
      if u :| 0 <= u < USERPAGES && Present(Walk(mem', pd, u)) && Frame(Walk(mem', pd, u)) == p {
        assert Present(Walk(mem, pd, u));
      }
    }
  }

  lemma ConservedTransitive(m0: Mem, f0: seq<nat>, m1: Mem, f1: seq<nat>, m2: Mem, f2: seq<nat>, pd: nat)
    requires Conserved(m0, f0, m1, f1, pd) && Conserved(m1, f1, m2, f2, pd)
    ensures Conserved(m0, f0, m2, f2, pd)
  {
    hide Owned;
  }

  lemma ConservedNothing(mem: Mem, free: seq<nat>, pd: nat)
    ensures Conserved(mem, free, mem, free, pd)
  {
  }

  /** The pages a size of `sz` bytes takes: PGROUNDUP in pages. */
  function Pages(sz: nat): (n: nat)
    ensures sz <= n * 4096 < sz + 4096
  {
    (sz + PGSIZE - 1) / PGSIZE
  }

  /** The entries with the present ones of pages `first` to `stop - 1` cleared. */
  ghost predicate Unmapped(mem: Mem, mem': Mem, pd: nat, first: nat, stop: nat) {
    forall u | 0 <= u < PAGES ::
      Walk(mem', pd, u) == if first <= u < stop && Present(Walk(mem, pd, u)) then 0 else Walk(mem, pd, u)
  }

  /** Frame `p` holds one of the pages from `first` to `stop`. */
  ghost predicate MappedIn(mem: Mem, pd: nat, first: nat, stop: nat, p: nat) {
    exists u: nat :: first <= u < stop && Present(Walk(mem, pd, u)) && Frame(Walk(mem, pd, u)) == p
  }

  /** Every frame but the tables and those pages holds what it did; the pages have
      the bytes that kfree leaves. */
  ghost predicate OthersHold(mem: Mem, mem': Mem, pd: nat, first: nat, stop: nat) {
    && |mem'| == |mem| && pd < |mem| && mem'[pd] == mem[pd]
    && (forall p: nat | p < |mem| && p != pd && !IsTable(mem, pd, p) ::
          mem'[p] == if MappedIn(mem, pd, first, stop, p) then Junk() else mem[p])
  }

  lemma OthersHoldNone(mem: Mem, pd: nat, first: nat, stop: nat)
    requires pd < |mem| && stop <= first
    ensures OthersHold(mem, mem, pd, first, stop)
  {
  }

  lemma NoPageThere(mem: Mem, mem': Mem, pd: nat, first: nat, v: nat, stop: nat)
    requires OthersHold(mem, mem', pd, first, v) && v <= stop
    requires forall u | v <= u < stop :: !Present(Walk(mem, pd, u))
    ensures OthersHold(mem, mem', pd, first, stop)
  {
    hide Walk, Present, Frame, IsTable;
    forall p: nat ensures MappedIn(mem, pd, first, stop, p) <==> MappedIn(mem, pd, first, v, p) {
    }
  }

  lemma OnePageFreed(m0: Mem, mem: Mem, pd: nat, first: nat, v: nat, t: nat, table: Page, q: nat)
    requires OthersHold(m0, mem, pd, first, v) && first <= v && t < |mem| && q < |mem| && q != t && q != pd
    requires IsTable(mem, pd, t) && !IsTable(mem, pd, q) && t != pd
    requires Present(Walk(m0, pd, v)) && Frame(Walk(m0, pd, v)) == q
    ensures OthersHold(m0, mem[q := Junk()][t := table], pd, first, v + 1)
  {
    assert forall p: nat :: IsTable(m0, pd, p) == IsTable(mem, pd, p);
    hide Walk, Present, Frame, IsTable;
    forall p: nat ensures MappedIn(m0, pd, first, v + 1, p) <==> MappedIn(m0, pd, first, v, p) || p == q {
    }
  }

  /** What was in use before, but for the tables, holds what it did. */
  ghost predicate KeepsOld(m0: Mem, f0: seq<nat>, mem: Mem, free: seq<nat>, pd: nat) {
    && |mem| == |m0| && (forall p: nat | p in free :: p in f0)
    && (forall p: nat | IsTable(mem, pd, p) :: IsTable(m0, pd, p) || p in f0)
    && (forall p: nat | p < |m0| && p !in f0 && p != pd && !IsTable(m0, pd, p) :: mem[p] == m0[p])
  }

  lemma KeepsOldTook(m0: Mem, f0: seq<nat>, mem: Mem, free: seq<nat>, mem': Mem, free': seq<nat>, pd: nat)
    requires KeepsOld(m0, f0, mem, free, pd) && Took(mem, free, mem', free', pd)
    ensures KeepsOld(m0, f0, mem', free', pd)
  {
    hide IsTable;
  }

  lemma KeepsOldCleared(m0: Mem, f0: seq<nat>, mem: Mem, q: nat, free: seq<nat>, pd: nat, lo: nat)
    requires KeepsOld(m0, f0, mem, [q] + free, pd) && Tables(mem, [q] + free, pd, lo) && q < |mem|
    ensures KeepsOld(m0, f0, mem[q := Zeroes()], free, pd)
  {
    assert q in [q] + free && q != pd;
    assert mem[q := Zeroes()][pd] == mem[pd];
    assert forall p: nat :: IsTable(mem[q := Zeroes()], pd, p) == IsTable(mem, pd, p);
    hide IsTable, Tables;
  }

  /** What was in use before, but for the tables and the directory, holds what it did. */
  ghost predicate HoldsOld(m0: Mem, f0: seq<nat>, mem: Mem, pd: nat) {
    |mem| == |m0| && forall p: nat | p < |m0| && p !in f0 && p != pd && !IsTable(m0, pd, p) :: mem[p] == m0[p]
  }

  lemma KeepsItself(mem: Mem, free: seq<nat>, pd: nat)
    ensures KeepsOld(mem, free, mem, free, pd)
  {
  }

  lemma KeepsHolds(m0: Mem, f0: seq<nat>, mem: Mem, free: seq<nat>, pd: nat)
    requires KeepsOld(m0, f0, mem, free, pd)
    ensures HoldsOld(m0, f0, mem, pd)
  {
  }

  lemma HoldsOldBut(m0: Mem, f0: seq<nat>, mem: Mem, pd: nat, q: nat)
    requires HoldsOld(m0, f0, mem, pd) && q < |mem| && q in f0
    ensures HoldsOld(m0, f0, mem[q := Junk()], pd)
  {
    hide IsTable;
  }

  /** Undoing a growth touches only what was free before. */
  lemma KeepsOldUndone(m0: Mem, f0: seq<nat>, mem: Mem, free: seq<nat>, mem': Mem, pd: nat,
                       m: Mem, first: nat, v: nat, stop: nat)
    requires KeepsOld(m0, f0, mem, free, pd) && OthersHold(mem, mem', pd, first, stop)
    requires Grown(m0, f0, m, pd, first, v) && stop <= PAGES
    requires forall u | 0 <= u < PAGES :: Walk(mem, pd, u) == Walk(m, pd, u)
    requires forall u | first <= u < stop :: !Present(Walk(m0, pd, u))
    ensures HoldsOld(m0, f0, mem', pd)
  {
    hide IsTable, Walk, Present, Frame;
    forall p: nat | p < |m0| && p !in f0 ensures !MappedIn(mem, pd, first, stop, p) {
    }
  }

  /** The same pages are mapped, to the same frames with the same flags. */
  ghost predicate SameMapping(mem: Mem, mem': Mem, pd: nat) {
    forall u | 0 <= u < PAGES ::
      Walk(mem', pd, u) == Walk(mem, pd, u) || (!Present(Walk(mem', pd, u)) && !Present(Walk(mem, pd, u)))
  }

  /** No page of the four-megabyte region of `v` is mapped. */
  lemma NoTable(mem: Mem, pd: nat, v: nat)
    requires pd < |mem| && v < PAGES && !Present(mem[pd][v / 1024])
    ensures forall u | v / 1024 * 1024 <= u < (v / 1024 + 1) * 1024 :: Walk(mem, pd, u) == 0
    ensures !Present(0)
  {
  }

  lemma WalkTable(mem: Mem, free: seq<nat>, pd: nat, lo: nat, v: nat)
    requires Tables(mem, free, pd, lo) && v < PAGES && Present(mem[pd][v / 1024])
    ensures var t := Frame(mem[pd][v / 1024]);
      t < |mem| && Walk(mem, pd, v) == mem[t][v % 1024]
  {
  }

  /** A space has been dissolved: exactly its frames have joined the free list. */
  ghost predicate Dissolved(mem: Mem, free: seq<nat>, mem': Mem, free': seq<nat>, pd: nat) {
    && |mem'| == |mem|
    && (forall p: nat :: p in free' <==> p in free || Owned(mem, pd, p))
    && (forall p | 0 <= p < |mem| && p !in free && !Owned(mem, pd, p) :: mem'[p] == mem[p])
  }

  ghost predicate IsTableBelow(dir: Page, i: nat, p: nat) {
    exists k | 0 <= k < i && k < 1024 :: Present(dir[k]) && Frame(dir[k]) == p
  }

  lemma DissolvedAfter(m0: Mem, f0: seq<nat>, m1: Mem, f1: seq<nat>, m2: Mem, f2: seq<nat>, pd: nat)
    requires Conserved(m0, f0, m1, f1, pd) && pd < |m1| && |m2| == |m1|
    requires forall u | 0 <= u < USERPAGES :: !Present(Walk(m1, pd, u))
    requires forall p: nat :: p in f2 <==> p == pd || p in f1 || IsTableBelow(m1[pd], 1024, p)
    requires forall p | 0 <= p < |m1| && p !in f2 :: m2[p] == m1[p]
    ensures Dissolved(m0, f0, m2, f2, pd)
  {
    hide Present, Frame, Walk;
    forall p ensures Owned(m1, pd, p) <==> p == pd || IsTableBelow(m1[pd], 1024, p) {
      assert IsTable(m1, pd, p) <==> IsTableBelow(m1[pd], 1024, p);
    }
    hide Owned, IsTableBelow;
  }

  /** As Conserved, with the page `q` now in nobody's hands. */
  ghost predicate ConservedBut(mem: Mem, free: seq<nat>, mem': Mem, free': seq<nat>, pd: nat, q: nat) {
    && |mem'| == |mem| && q !in free' && !Owned(mem', pd, q) && (q in free || Owned(mem, pd, q))
    && (forall p: nat :: p in free' || Owned(mem', pd, p) || p == q <==> p in free || Owned(mem, pd, p))
    && (forall p | 0 <= p < |mem| && p !in free && !Owned(mem, pd, p) :: mem'[p] == mem[p])
  }

  lemma ConservedButTransitive(m0: Mem, f0: seq<nat>, m1: Mem, f1: seq<nat>, m2: Mem, f2: seq<nat>, pd: nat, q: nat)
    requires ConservedBut(m0, f0, m1, f1, pd, q) && Conserved(m1, f1, m2, f2, pd)
    ensures ConservedBut(m0, f0, m2, f2, pd, q)
  {
    hide Owned;
  }

  lemma ConservedAgain(m0: Mem, f0: seq<nat>, m1: Mem, f1: seq<nat>, pd: nat, lo: nat, q: nat, page: Page)
    requires ConservedBut(m0, f0, m1, f1, pd, q) && Space(m1, f1, pd, lo) && lo <= q < FRAMES
    ensures Space(m1[q := page], [q] + f1, pd, lo) && Conserved(m0, f0, m1[q := page], [q] + f1, pd)
    ensures q !in f1 && forall u :: Walk(m1[q := page], pd, u) == Walk(m1, pd, u)
  {
    PutBack(m1, f1, pd, lo, q, page);
    hide Owned;
    assert forall p :: p in [q] + f1 <==> p == q || p in f1;
  }

  /** A page taken off the free list, filled, and mapped at user page `v` — or
      still loose when mappages failed. */
  lemma PageMapped(mem: Mem, free: seq<nat>, q: nat, page: Page, mem': Mem, free': seq<nat>, pd: nat, lo: nat, v: nat,
                   stop: nat, perm: nat)
    requires Space(mem, [q] + free, pd, lo) && lo <= q < |mem|
    requires var m1 := mem[q := page];
      && Took(m1, free, mem', free', pd) && MapsTo(m1, mem', pd, v, stop, q, perm)
    requires Tables(mem', free', pd, lo) && FreeOk(free', lo)
    requires v < USERPAGES && v <= stop <= v + 1 && perm < 4096 && !Present(Walk(mem, pd, v))
    ensures Space(mem', free', pd, lo)
    ensures MapsTo(mem, mem', pd, v, stop, q, perm)
    ensures mem'[q] == page && forall p: nat | p in free' :: p in [q] + free
    ensures if stop == v + 1 then Conserved(mem, [q] + free, mem', free', pd)
            else ConservedBut(mem, [q] + free, mem', free', pd, q)
  {
    Loosen(mem, [q] + free, pd, lo, page);
    assert ([q] + free)[1..] == free;
    var m1 := mem[q := page];
    hide Present, Frame, Walk, MakePte, Tables, Users, FreeOk;
    AfterMap(m1, free, mem', free', pd, lo, q, v, stop, perm);
    hide Owned, Space, Took;
    assert forall p :: p in [q] + free <==> p == q || p in free;
  }

  /** Pages `first` to `stop - 1` are mapped to cleared pages that were free. */
  ghost predicate Grown(mem: Mem, free: seq<nat>, mem': Mem, pd: nat, first: nat, stop: nat) {
    forall u | 0 <= u < PAGES ::
      if first <= u < stop then
        var w := Walk(mem', pd, u);
        && Present(w) && Flags(w) == PTE_P + PTE_W + PTE_U
        && Frame(w) in free && Frame(w) < |mem'| && mem'[Frame(w)] == Zeroes()
      else Walk(mem', pd, u) == Walk(mem, pd, u)
  }

  lemma GrownOn(m0: Mem, f0: seq<nat>, mem: Mem, free: seq<nat>, q: nat, mem': Mem, free': seq<nat>, pd: nat, lo: nat,
                first: nat, v: nat)
    requires Grown(m0, f0, mem, pd, first, v) && first <= v < USERPAGES && q in f0
    requires Space(mem, [q] + free, pd, lo) && lo <= q < |mem|
    requires Space(mem', free', pd, lo) && Took(mem[q := Zeroes()], free, mem', free', pd)
    requires MapsTo(mem, mem', pd, v, v + 1, q, PTE_W + PTE_U) && mem'[q] == Zeroes()
    ensures Grown(m0, f0, mem', pd, first, v + 1)
  {
    MakePteReads(q, PTE_W + PTE_U);
    hide Present, Frame, Flags, Walk, MakePte, IsTable, Tables, FreeOk;
    forall u | first <= u < v ensures Walk(mem', pd, u) == Walk(mem, pd, u)
      ensures var p := Frame(Walk(mem, pd, u)); p < |mem| && p != q && mem'[p] == mem[p]
    {
      assert q in [q] + free;
      assert !IsTable(mem', pd, Frame(Walk(mem', pd, u)));
    }
  }

  /** The first `n` pages of `d` are copies of those of `pd`, with the same
      flags, and the rest of `d` is the kernel's. */
  ghost predicate Copied(mem: Mem, mem': Mem, pd: nat, d: nat, n: nat, data: nat) {
    forall u | 0 <= u < PAGES ::
      if u < n then
        var w, w' := Walk(mem, pd, u), Walk(mem', d, u);
        && Present(w') && Flags(w') == Flags(w)
        && Frame(w) < |mem| && Frame(w') < |mem'| && mem'[Frame(w')] == mem[Frame(w)]
      else Walk(mem', d, u) == KernelWord(data, u)
  }

  lemma CopiedOn(m0: Mem, mem: Mem, free: seq<nat>, q: nat, mem': Mem, free': seq<nat>, pd: nat, d: nat, lo: nat,
                 v: nat, data: nat)
    requires Copied(m0, mem, pd, d, v, data) && v < USERPAGES
    requires Present(Walk(m0, pd, v)) && Frame(Walk(m0, pd, v)) < |m0|
    requires Space(mem, [q] + free, d, lo) && lo <= q < |mem|
    requires var page := m0[Frame(Walk(m0, pd, v))];
      Took(mem[q := page], free, mem', free', d) && mem'[q] == page
    requires Space(mem', free', d, lo)
    requires MapsTo(mem, mem', d, v, v + 1, q, Flags(Walk(m0, pd, v)))
    ensures Copied(m0, mem', pd, d, v + 1, data)
  {
    FlagsOdd(Walk(m0, pd, v));
    MakePteReads(q, Flags(Walk(m0, pd, v)));
    hide Present, Frame, Flags, Walk, MakePte, IsTable, Tables, FreeOk, KernelWord;
    forall u | 0 <= u < v ensures Walk(mem', d, u) == Walk(mem, d, u)
      ensures var p := Frame(Walk(mem, d, u)); p < |mem| && p != q && mem'[p] == mem[p]
    {
      assert q in [q] + free;
      assert !IsTable(mem', d, Frame(Walk(mem', d, u)));
    }
  }

  lemma FlagsOdd(w: nat)
    requires Present(w)
    ensures Flags(w) < 4096 && Flags(w) % 2 == 1
  {
  }

  lemma OwnedNotFree(mem: Mem, free: seq<nat>, pd: nat, lo: nat)
    requires Space(mem, free, pd, lo)
    ensures forall p | p in free :: !Owned(mem, pd, p)
  {
  }

  /** The page to copy next is where the source's table says, unchanged so far,
      and the copy has nothing there yet: neither panic of copyuvm is reached. */
  lemma SourcePage(m0: Mem, f0: seq<nat>, mem: Mem, free: seq<nat>, pd: nat, d: nat, lo: nat, v: nat, data: nat,
                   sz: nat)
    requires lo > 0 && Space(m0, f0, pd, lo) && Space(mem, free, pd, lo)
    requires v * PGSIZE < sz <= KERNBASE && forall u | 0 <= u < Pages(sz) :: Present(Walk(m0, pd, u))
    requires forall u: nat :: Walk(mem, pd, u) == Walk(m0, pd, u)
    requires forall p | 0 <= p < FRAMES && p !in f0 :: mem[p] == m0[p]
    requires Copied(m0, mem, pd, d, v, data)
    ensures v < USERPAGES && v * PGSIZE / 0x400000 == v / 1024 && v * PGSIZE / 4096 % 1024 == v % 1024
    ensures Present(mem[pd][v / 1024]) && !Present(Walk(mem, d, v))
    ensures var t := Frame(mem[pd][v / 1024]);
      && 0 < t < |mem| && mem[t][v % 1024] == Walk(m0, pd, v)
    ensures var w := Walk(m0, pd, v);
      && Present(w) && Frame(w) < FRAMES && mem[Frame(w)] == m0[Frame(w)] && Flags(w) < 4096
  {
    assert v < Pages(sz) && v < USERPAGES;
    assert Present(Walk(m0, pd, v)) && !Present(0);
    assert Walk(mem, pd, v) == Walk(m0, pd, v);
    assert Present(mem[pd][v / 1024]);
    assert Walk(mem, d, v) == KernelWord(data, v) == 0;
  }

  /** Undoing the growth, once the last page failed to be mapped. */
  lemma ShrunkBack(m0: Mem, f0: seq<nat>, m: Mem, m1: Mem, m2: Mem, m3: Mem, pd: nat, first: nat, v: nat, stop: nat,
                   frame: nat, perm: nat)
    requires Grown(m0, f0, m, pd, first, v) && MapsTo(m, m1, pd, v, v, frame, perm)
    requires v <= stop && Unmapped(m1, m2, pd, first, stop)
    requires forall u: nat :: Walk(m3, pd, u) == Walk(m2, pd, u)
    requires forall u | first <= u < stop && u < PAGES :: !Present(Walk(m0, pd, u))
    ensures SameMapping(m0, m3, pd)
  {
    NotPresentZero();
    hide Present, Walk;
  }

  // ---- The kernel's mappings ----

  datatype Kmap = Kmap(virt: nat, start: nat, end: nat, perm: nat)

  /** The table `kmap`; `data` is the page of the kernel's data. */
  function KernelMap(data: nat): seq<Kmap>
    requires USERPAGES + 0x100 < data < USERPAGES + FRAMES
  {
    [Kmap(KERNBASE, 0, 0x100000, PTE_W),
     Kmap(KERNBASE + 0x100000, 0x100000, (data - USERPAGES) * PGSIZE, 0),
     Kmap(data * PGSIZE, (data - USERPAGES) * PGSIZE, FRAMES * PGSIZE, PTE_W),
     Kmap(0xFE000000, 0xFE000000, 0, PTE_W)]
  }

  /** What every address space has at page `v` above KERNBASE: physical memory
      in order, read-only where the kernel's text is, and the devices in place. */
  function KernelWord(data: nat, v: nat): nat {
    if USERPAGES <= v < USERPAGES + FRAMES
    then MakePte(v - USERPAGES, if USERPAGES + 0x100 <= v < data then 0 else PTE_W)
    else if 0xFE000 <= v < PAGES then MakePte(v, PTE_W)
    else 0
  }

  /** What that allows: physical memory from 0x80000000 on and the devices from
      0xFE000000 on are mapped, for the kernel only, and writable but for the text. */
  lemma KernelPages(mem: Mem, free: seq<nat>, pd: nat, lo: nat, data: nat, v: nat)
    requires Tables(mem, free, pd, lo) && KernelUpTo(mem, pd, data, PAGES) && v < 0x100000
    requires 0x80100 < data < 0x8E000
    ensures Present(Walk(mem, pd, v)) <==> 0x80000 <= v < 0x8E000 || 0xFE000 <= v
    ensures Present(Walk(mem, pd, v)) ==> Frame(Walk(mem, pd, v)) == if v < 0xFE000 then v - 0x80000 else v
    ensures !Allows(mem, pd, v, 4)
    ensures Present(Walk(mem, pd, v)) ==> (Allows(mem, pd, v, 2) <==> !(0x80100 <= v < data))
  {
    var w := KernelWord(data, v);
    assert Walk(mem, pd, v) == w;
    if w != 0 {
      assert Present(mem[pd][v / 1024]);
      OpenToAll(mem, free, pd, lo, v / 1024);
      KernelBits(data, v);
    }
    hide Walk, KernelWord, Tables;
  }

  /** An entry of the directory restricts nothing: the page's own entry decides. */
  lemma OpenToAll(mem: Mem, free: seq<nat>, pd: nat, lo: nat, i: nat)
    requires Tables(mem, free, pd, lo) && i < 1024 && Present(mem[pd][i])
    ensures Bit(mem[pd][i], 2) && Bit(mem[pd][i], 4)
  {
    var w := mem[pd][i];
    assert Flags(w) == 7 && w == (w / 4096) * 4096 + 7;
    BitsOf(w / 4096, 7);
  }

  lemma KernelBits(data: nat, v: nat)
    requires v < PAGES && KernelWord(data, v) != 0 && 0x80100 < data < 0x8E000
    ensures var w := KernelWord(data, v);
      && (0x80000 <= v < 0x8E000 || 0xFE000 <= v) && Present(w) && Frame(w) == (if v < 0xFE000 then v - 0x80000 else v)
      && !Bit(w, 4) && (Bit(w, 2) <==> !(0x80100 <= v < data))
  {
    var frame := if v < 0xFE000 then v - 0x80000 else v;
    EntryBits(frame);
    hide MakePte, Bit, Present, Frame;
  }

  lemma EntryBits(frame: nat)
    ensures MakePte(frame, 0) == frame * 4096 + 1 && MakePte(frame, 2) == frame * 4096 + 3
    ensures var r, w := MakePte(frame, 0), MakePte(frame, 2);
      && Present(r) && Present(w) && Frame(r) == Frame(w) == frame
      && !Bit(r, 4) && !Bit(w, 4) && !Bit(r, 2) && Bit(w, 2)
  {
    BitsOf(frame, 1);
    BitsOf(frame, 3);
    hide Bit, Present, Frame, Flags;
  }

  /** A page that allocuvm has added is for user code to write. */
  lemma GrownPages(mem: Mem, free: seq<nat>, mem': Mem, free': seq<nat>, pd: nat, lo: nat, first: nat, stop: nat,
                   u: nat)
    requires Grown(mem, free, mem', pd, first, stop) && Tables(mem', free', pd, lo) && first <= u < stop <= PAGES
    ensures Allows(mem', pd, u, 2) && Allows(mem', pd, u, 4)
  {
    var w := Walk(mem', pd, u);
    assert Present(w) && w == (w / 4096) * 4096 + 7;
    BitsOf(w / 4096, 7);
    hide Bit, Frame, Flags;
    OpenToAll(mem', free', pd, lo, u / 1024);
  }

  /** How far the first `k` entries of the table reach. */
  function Reach(data: nat, k: nat): nat {
    if k == 0 then USERPAGES else if k == 1 then USERPAGES + 0x100 else if k == 2 then data
    else if k == 3 then USERPAGES + FRAMES else PAGES
  }

  ghost predicate KernelUpTo(mem: Mem, pd: nat, data: nat, limit: nat) {
    forall v | 0 <= v < PAGES :: Walk(mem, pd, v) == if v < limit then KernelWord(data, v) else 0
  }

  lemma KernelEntry(mem: Mem, mem': Mem, pd: nat, data: nat, k: nat)
    requires USERPAGES + 0x100 < data < USERPAGES + FRAMES && k < 4
    requires KernelUpTo(mem, pd, data, Reach(data, k))
    requires var e := KernelMap(data)[k];
      var size := (e.end - e.start) % 0x1_0000_0000;
      MapsTo(mem, mem', pd, PageOf(e.virt), PageOf(e.virt + size - 1) + 1, e.start / PGSIZE, e.perm)
    ensures KernelUpTo(mem', pd, data, Reach(data, k + 1))
  {
    hide Walk, MakePte;
    var e := KernelMap(data)[k];
    var size := (e.end - e.start) % 0x1_0000_0000;
    forall v | 0 <= v < PAGES
      ensures Walk(mem', pd, v) == if v < Reach(data, k + 1) then KernelWord(data, v) else 0
    {
      assert PageOf(e.virt) <= v < PageOf(e.virt + size - 1) + 1 ==> v < Reach(data, k + 1);
    }
  }

  /** The table's entries are sound arguments for mappages. */
  lemma EntryUnmapped(mem: Mem, pd: nat, data: nat, k: nat)
    requires USERPAGES + 0x100 < data < USERPAGES + FRAMES && k < 4
    requires KernelUpTo(mem, pd, data, Reach(data, k))
    ensures var e := KernelMap(data)[k];
      var size := (e.end - e.start) % 0x1_0000_0000;
      && size > 0 && e.virt + size <= 0x1_0000_0000 && e.start % PGSIZE == 0 && e.perm < 4096
      && (forall u | PageOf(e.virt) <= u <= PageOf(e.virt + size - 1) :: !Present(Walk(mem, pd, u)))
  {
    NotPresentZero();
    hide Walk, MakePte;
    var e := KernelMap(data)[k];
    var size := (e.end - e.start) % 0x1_0000_0000;
    forall u | PageOf(e.virt) <= u <= PageOf(e.virt + size - 1) ensures !Present(Walk(mem, pd, u)) {
      assert Reach(data, k) <= u;
    }
  }

  /** The directory entries that the first `k` entries of the table need. */
  ghost function KernelDir(data: nat, k: nat): set<nat>
    requires USERPAGES + 0x100 < data < USERPAGES + FRAMES
  {
    if k == 0 then {} else if k == 1 then Between(512, 513) else if k == 2 then Between(512, (data - 1) / 1024 + 1)
    else if k == 3 then Between(512, 568) else Between(512, 568) + Between(1016, 1024)
  }

  lemma KernelDirNext(data: nat, k: nat)
    requires USERPAGES + 0x100 < data < USERPAGES + FRAMES && k < 4
    ensures var e := KernelMap(data)[k];
      var size := (e.end - e.start) % 0x1_0000_0000;
      e.virt + size > 0
      && KernelDir(data, k + 1) == KernelDir(data, k) + Spans(PageOf(e.virt), PageOf(e.virt + size - 1) + 1)
    ensures KernelDir(data, k) <= KernelDir(data, 4) && |KernelDir(data, 4)| == 64
  {
    hide Between;
    assert Between(512, 568) !! Between(1016, 1024);
    KernelSpans(data, k);
  }

  lemma KernelSpans(data: nat, k: nat)
    requires USERPAGES + 0x100 < data < USERPAGES + FRAMES && k < 4
    ensures var e := KernelMap(data)[k];
      var size := (e.end - e.start) % 0x1_0000_0000;
      e.virt + size > 0 && Spans(PageOf(e.virt), PageOf(e.virt + size - 1) + 1)
      == if k == 0 then Between(512, 513) else if k == 1 then Between(512, (data - 1) / 1024 + 1)
         else if k == 2 then Between(data / 1024, 568) else Between(1016, 1024)
  {
    hide Between;
  }

  /** A directory and the 64 page tables of the kernel's mappings. */
  const KVMPAGES: nat := 65

  lemma KernelStart(mem: Mem, free: seq<nat>, pd: nat, data: nat)
    requires USERPAGES + 0x100 < data < USERPAGES + FRAMES
    ensures Paid(mem, free, mem, free, pd, KernelDir(data, 0))
  {
  }

  lemma KernelPaid(mem: Mem, free: seq<nat>, m: Mem, f: seq<nat>, mem': Mem, free': seq<nat>, pd: nat, data: nat,
                   k: nat, spans: set<nat>)
    requires USERPAGES + 0x100 < data < USERPAGES + FRAMES && k < 4
    requires Paid(mem, free, m, f, pd, KernelDir(data, k))
    requires KernelDir(data, k + 1) == KernelDir(data, k) + spans
    requires Paid(m, f, mem', free', pd, spans)
    ensures Paid(mem, free, mem', free', pd, KernelDir(data, k + 1))
  {
    hide Dir, KernelDir;
    PaidTransitive(mem, free, m, f, mem', free', pd, KernelDir(data, k), spans);
  }

  lemma KernelShort(mem: Mem, free: seq<nat>, m: Mem, f: seq<nat>, pd: nat, data: nat, k: nat, spans: set<nat>)
    requires USERPAGES + 0x100 < data < USERPAGES + FRAMES && k < 4
    requires Paid(mem, free, m, f, pd, KernelDir(data, k)) && Dir(mem, pd) == {}
    requires KernelDir(data, k + 1) == KernelDir(data, k) + spans && |f| < |spans - Dir(m, pd)|
    ensures |free| < 64
  {
    KernelDirSize(data, k + 1);
    hide Dir, KernelDir, Between;
    assert Dir(m, pd) == KernelDir(data, k);
    UnionSize(KernelDir(data, k), spans);
  }

  lemma UnionSize(a: set<nat>, b: set<nat>)
    ensures |a + b| == |a| + |b - a|
  {
    assert a + b == a + (b - a);
  }

  lemma PaidAll(mem: Mem, free: seq<nat>, mem': Mem, free': seq<nat>, pd: nat, data: nat)
    requires USERPAGES + 0x100 < data < USERPAGES + FRAMES
    requires Paid(mem, free, mem', free', pd, KernelDir(data, 4)) && Dir(mem, pd) == {}
    ensures |free| == |free'| + 64 && Dir(mem', pd) == KernelDir(data, 4)
  {
    KernelDirSize(data, 4);
    hide Dir, KernelDir;
    assert Dir(mem', pd) == KernelDir(data, 4);
  }

  lemma KernelDirSize(data: nat, k: nat)
    requires USERPAGES + 0x100 < data < USERPAGES + FRAMES && k <= 4
    ensures |KernelDir(data, k)| <= 64 && |KernelDir(data, 4)| == 64
  {
    hide Between;
    assert Between(512, 568) !! Between(1016, 1024);
  }

  /** The frames of a space with `n` user pages from 0 on: directory, kernel
      tables, the pages, and a table for every 1024 of them. */
  function SpaceCost(n: nat): nat {
    KVMPAGES + n + (n + 1023) / 1024
  }

  lemma CostExactly(data: nat, n: nat)
    requires USERPAGES + 0x100 < data < USERPAGES + FRAMES && n <= USERPAGES
    ensures KVMPAGES + Need(KernelDir(data, 4), 0, n) == SpaceCost(n)
  {
    hide Between;
    if n > 0 {
      assert Spans(0, n) - KernelDir(data, 4) == Between(0, (n - 1) / 1024 + 1);
    }
  }

  ghost predicate NoUserPages(mem: Mem, pd: nat) {
    forall v | 0 <= v < USERPAGES :: Walk(mem, pd, v) == 0
  }

  /** The space a new directory makes: no user page, and no frame but the
      directory and its tables. */
  lemma NewSpace(m0: Mem, f0: seq<nat>, m1: Mem, f1: seq<nat>, m2: Mem, f2: seq<nat>, pd: nat, lo: nat)
    requires FreeOk(f2, lo) && Tables(m2, f2, pd, lo) && [pd] + f1 == f0
    requires Took(m1, f1, m2, f2, pd) && NoUserPages(m2, pd)
    requires |m0| == |m1| && (forall p | 0 <= p < |m0| && p != pd :: m1[p] == m0[p])
    requires forall p :: !IsTable(m1, pd, p)
    ensures Space(m2, f2, pd, lo)
    ensures forall p: nat :: p in f2 || Owned(m2, pd, p) <==> p in f0
    ensures forall p | 0 <= p < |m0| && p !in f0 :: m2[p] == m0[p]
  {
    NotPresentZero();
    hide Present, Frame, Walk, IsTable, FreeOk, Tables;
    assert forall p :: !IsUser(m2, pd, p);
    assert forall p :: p in f0 <==> p == pd || p in f1;
  }

  /** So it is while the kernel's entries are being made, and after they failed. */
  lemma KernelOnly(mem: Mem, mem': Mem, pd: nat, data: nat, limit: nat, first: nat, stop: nat, frame: nat, perm: nat)
    requires KernelUpTo(mem, pd, data, limit)
    ensures NoUserPages(mem, pd)
    ensures MapsTo(mem, mem', pd, first, stop, frame, perm) && USERPAGES <= first ==> NoUserPages(mem', pd)
  {
    hide Walk, MakePte;
  }

  lemma EmptyDirectory(mem: Mem, free: seq<nat>, pd: nat, lo: nat, data: nat)
    requires |mem| == FRAMES && lo <= pd < FRAMES && pd !in free && mem[pd] == Zeroes()
    ensures Tables(mem, free, pd, lo) && KernelUpTo(mem, pd, data, USERPAGES)
    ensures Dir(mem, pd) == {} && forall p :: !IsTable(mem, pd, p)
  {
  }

  class Memory {
    var mem: Mem
    var free: seq<nat>   // the free list, top first
    const lo: nat        // the first frame after the kernel
    const data: nat      // the page number where the kernel's data starts

    ghost predicate Ok()
      reads this
    {
      |mem| == FRAMES && 0 < lo <= FRAMES && FreeOk(free, lo) && USERPAGES + 0x100 < data < USERPAGES + FRAMES
    }

    constructor (lo: nat, data: nat)
      requires 0 < lo <= FRAMES && USERPAGES + 0x100 < data < USERPAGES + FRAMES
      ensures Ok() && free == [] && this.lo == lo && this.data == data
    {
      this.lo, this.data := lo, data;
      mem, free := seq(FRAMES, _ => Zeroes()), [];
    }

    method Kfree(p: nat)
      requires Ok() && lo <= p < FRAMES && p !in free
      modifies this
      ensures Ok() && free == [p] + old(free) && mem == old(mem)[p := Junk()]
    {
      mem := mem[p := Junk()];
      free := [p] + free;
    }

    /** 0 when memory has run out. */
    method Kalloc() returns (p: nat)
      requires Ok()
      modifies this`free
      ensures Ok()
      ensures p == 0 <==> old(free) == []
      ensures p == 0 ==> free == old(free)
      ensures p != 0 ==> [p] + free == old(free) && lo <= p < FRAMES && p !in free
    {
      p := 0;
      if free != [] {
        p := free[0];
        free := free[1..];
        assert forall k | 0 <= k < |free| :: free[k] == old(free)[k + 1];
      }
    }

    /** The whole pages between `vstart` and `vend` (physical addresses) become free. */
    method FreeRange(vstart: nat, vend: nat)
      requires Ok() && lo * PGSIZE <= vstart && vend <= FRAMES * PGSIZE
      requires forall p | p in free :: (p + 1) * PGSIZE <= vstart || vend <= p * PGSIZE
      modifies this
      ensures Ok()
      ensures forall p: nat :: p in free <==> p in old(free) || (vstart <= p * PGSIZE && (p + 1) * PGSIZE <= vend)
      ensures forall p: nat | p < FRAMES ::
                mem[p] == if vstart <= p * PGSIZE && (p + 1) * PGSIZE <= vend then Junk() else old(mem)[p]
    {
      var p := (vstart + PGSIZE - 1) / PGSIZE;
      ghost var first := p;
      while (p + 1) * PGSIZE <= vend
        invariant Ok() && first <= p && (first < p ==> p * PGSIZE <= vend)
        invariant forall q: nat :: q in free <==> q in old(free) || first <= q < p
        invariant forall q: nat | q < FRAMES :: mem[q] == if first <= q < p then Junk() else old(mem)[q]
        decreases vend - p
      {
        Kfree(p);
        p := p + 1;
      }
    }

    /** The page table for `va`, in which its entry is number `va / 4096 % 1024`;
        0 when there is none. */
    method WalkPgdir(pd: nat, va: nat, alloc: bool) returns (t: nat)
      requires Ok() && Tables(mem, free, pd, lo) && va < 0x1_0000_0000
      modifies this
      ensures Ok() && Tables(mem, free, pd, lo)
      ensures t == 0 <==> !old(Present(mem[pd][va / 0x400000])) && (!alloc || old(free) == [])
      ensures t != 0 ==> Present(mem[pd][va / 0x400000]) && Frame(mem[pd][va / 0x400000]) == t
      ensures Took(old(mem), old(free), mem, free, pd)
      ensures forall u | 0 <= u < PAGES :: Walk(mem, pd, u) == old(Walk(mem, pd, u))
      ensures t == 0 || old(Present(mem[pd][va / 0x400000])) ==> mem == old(mem) && free == old(free)
      ensures t != 0 ==> Paid(old(mem), old(free), mem, free, pd, {va / 0x400000})
      ensures t == 0 ==> va / 0x400000 !in Dir(mem, pd)
    {
      var i := va / 0x400000;
      if Present(mem[pd][i]) {
        t := Frame(mem[pd][i]);
        assert Dir(mem, pd) + {i} == Dir(mem, pd);
      } else {
        if !alloc {
          return 0;
        }
        t := Kalloc();
        if t == 0 {
          return 0;
        }
        AddTable(mem, old(free), pd, lo, i);
        mem := mem[t := Zeroes()];
        mem := mem[pd := mem[pd][i := MakePte(t, PTE_W + PTE_U)]];
        assert free == old(free)[1..];
        assert MakePte(t, 6) == MakePte(t, 7);
        TablePaid(old(mem), old(free), mem, free, pd, i);
      }
    }

    /** Maps the pages of `[va, va + size)` to the frames from `pa` on; -1 when
        memory for a page table ran out, with the pages below `stop` mapped. */
    method MapPages(pd: nat, va: nat, size: nat, pa: nat, perm: nat) returns (r: int, ghost stop: nat)
      requires Ok() && Tables(mem, free, pd, lo)
      requires size > 0 && va + size <= 0x1_0000_0000 && pa % PGSIZE == 0 && perm < 4096
      requires forall u | PageOf(va) <= u <= PageOf(va + size - 1) :: !Present(Walk(mem, pd, u))
      modifies this
      ensures Ok() && Tables(mem, free, pd, lo) && Took(old(mem), old(free), mem, free, pd)
      ensures r == 0 || r == -1
      ensures r == 0 ==> stop == PageOf(va + size - 1) + 1
      ensures r == -1 ==> PageOf(va) <= stop <= PageOf(va + size - 1) && free == []
      ensures MapsTo(old(mem), mem, pd, PageOf(va), stop, pa / PGSIZE, perm)
      ensures Paid(old(mem), old(free), mem, free, pd, Spans(PageOf(va), stop))
      ensures r == -1 <==> |old(free)| < |Spans(PageOf(va), PageOf(va + size - 1) + 1) - Dir(old(mem), pd)|
      ensures r == -1 ==> stop / 1024 !in Dir(mem, pd)
    {
      hide Present, Frame, MakePte, Walk, Took, IsTable, Tables, FreeOk, Paid, Dir, Spans;
      var a := va / PGSIZE * PGSIZE;
      var last := (va + size - 1) / PGSIZE * PGSIZE;
      var pa := pa;
      ghost var first, frame := PageOf(va), pa / PGSIZE;
      stop := first;
      TookNothing(mem, free, pd);
      PaidNothing(mem, free, pd, first);
      while true
        invariant first <= stop <= PageOf(va + size - 1) && a == stop * PGSIZE && pa == (frame + stop - first) * PGSIZE
        invariant Ok()
        invariant Tables(mem, free, pd, lo)
        invariant Took(old(mem), old(free), mem, free, pd)
        invariant MapsTo(old(mem), mem, pd, first, stop, frame, perm)
        invariant Paid(old(mem), old(free), mem, free, pd, Spans(first, stop))
        decreases PageOf(va + size - 1) - stop
      {
        ghost var m, f := mem, free;
        var t := WalkPgdir(pd, a, true);
        TookTransitive(old(mem), old(free), m, f, mem, free, pd);
        if t == 0 {
          ShortOfTables(old(mem), old(free), mem, pd, first, stop, PageOf(va + size - 1) + 1);
          return -1, stop;
        }
        PaidTransitive(old(mem), old(free), m, f, mem, free, pd, Spans(first, stop), {stop / 1024});
        SpansNext(first, stop);
        PaidSameDir(old(mem), old(free), mem, mem[t := mem[t][stop % 1024 := MakePte(frame + stop - first, perm)]],
                    free, pd, Spans(first, stop + 1));
        Written(mem, free, pd, lo, stop, MakePte(frame + stop - first, perm));
        TookTransitive(old(mem), old(free), mem, free,
                       mem[t := mem[t][stop % 1024 := MakePte(frame + stop - first, perm)]], free, pd);
        SetEntry(mem, free, pd, lo, stop, MakePte(frame + stop - first, perm));
        mem := mem[t := mem[t][a / PGSIZE % 1024 := MakePte(pa / PGSIZE, perm)]];
        stop := stop + 1;
        if a == last {
          break;
        }
        a := a + PGSIZE;
        pa := pa + PGSIZE;
      }
      PaidFor(old(mem), old(free), mem, free, pd, Spans(first, stop));
      r := 0;
    }

    /** The page at `a`, number `v`, is freed and its entry cleared. */
    method FreePage(pd: nat, a: nat, t: nat, ghost v: nat, ghost m0: Mem, ghost first: nat)
      requires Ok() && Space(mem, free, pd, lo) && first <= v < USERPAGES && a == v * PGSIZE
      requires Present(Walk(mem, pd, v)) && Walk(m0, pd, v) == Walk(mem, pd, v)
      requires Present(mem[pd][v / 1024]) && t == Frame(mem[pd][v / 1024]) < |mem|
      requires OthersHold(m0, mem, pd, first, v)
      modifies this
      ensures Ok() && Space(mem, free, pd, lo) && Conserved(old(mem), old(free), mem, free, pd)
      ensures forall u | 0 <= u < PAGES :: Walk(mem, pd, u) == if u == v then 0 else old(Walk(mem, pd, u))
      ensures OthersHold(m0, mem, pd, first, v + 1)
    {
      hide Present, Frame, Walk, Owned, Users, Conserved, FreeOk, OthersHold, IsTable, Tables;
      Unmap(mem, free, pd, lo, v);
      assert a / 4096 % 1024 == v % 1024;
      var q := Frame(mem[t][a / 4096 % 1024]);
      OnePageFreed(m0, mem, pd, first, v, t, mem[t][v % 1024 := 0], q);
      Kfree(q);
      mem := mem[t := mem[t][a / 4096 % 1024 := 0]];
    }

    /** Unmaps and frees the user pages from `newsz` up to `oldsz`. */
    method DeallocUvm(pd: nat, oldsz: nat, newsz: nat) returns (r: nat)
      requires Ok() && Space(mem, free, pd, lo) && oldsz <= KERNBASE
      modifies this
      ensures Ok() && Space(mem, free, pd, lo) && Conserved(old(mem), old(free), mem, free, pd)
      ensures r == if newsz >= oldsz then oldsz else newsz
      ensures Unmapped(old(mem), mem, pd, Pages(newsz), Pages(oldsz))
      ensures OthersHold(old(mem), mem, pd, Pages(newsz), Pages(oldsz))
    {
      hide Present, Frame, Walk, Owned, Users, Conserved, FreeOk, Paid, Dir, Spans, OthersHold, IsTable, Took;
      ConservedNothing(mem, free, pd);
      if newsz >= oldsz {
        OthersHoldNone(mem, pd, Pages(newsz), Pages(oldsz));
        return oldsz;
      }
      OthersHoldNone(mem, pd, Pages(newsz), Pages(newsz));
      var a := Pages(newsz) * PGSIZE;
      ghost var v := Pages(newsz);
      while a < oldsz
        invariant a == v * PGSIZE && Pages(newsz) <= v
        invariant Ok()
        invariant Space(mem, free, pd, lo)
        invariant Conserved(old(mem), old(free), mem, free, pd)
        invariant Unmapped(old(mem), mem, pd, Pages(newsz), if v <= Pages(oldsz) then v else Pages(oldsz))
        invariant OthersHold(old(mem), mem, pd, Pages(newsz), if v <= Pages(oldsz) then v else Pages(oldsz))
        decreases KERNBASE - a
      {
        ghost var m, f := mem, free;
        var t := WalkPgdir(pd, a, false);
        assert mem == m && free == f;
        if t == 0 {
          NoTable(mem, pd, v);
          ghost var w := (a / 0x400000 + 1) * 1024;
          NoPageThere(old(mem), mem, pd, Pages(newsz), v, if w <= Pages(oldsz) then w else Pages(oldsz));
          v := (a / 0x400000 + 1) * 1024 - 1;
          a := (a / 0x400000 + 1) * 0x400000 - PGSIZE;
        } else if Present(mem[t][a / 4096 % 1024]) {
          WalkTable(mem, free, pd, lo, v);
          FreePage(pd, a, t, v, old(mem), Pages(newsz));
          ConservedTransitive(old(mem), old(free), m, f, mem, free, pd);
        } else {
          WalkTable(mem, free, pd, lo, v);
          NoPageThere(old(mem), mem, pd, Pages(newsz), v, v + 1);
        }
        a := a + PGSIZE;
        v := v + 1;
      }
      r := newsz;
    }

    /** Frees the user pages, the page tables and the directory, each once. */
    method FreeVm(pd: nat)
      requires Ok() && Space(mem, free, pd, lo)
      modifies this
      ensures Ok() && Dissolved(old(mem), old(free), mem, free, pd)
    {
      hide Present, Frame, Walk, Owned, Users, Conserved, IsTable;
      var d := DeallocUvm(pd, KERNBASE, 0);
      NotPresentZero();
      ghost var m, f := mem, free;
      var i := 0;
      while i < 1024
        invariant 0 <= i <= 1024 && Ok()
        invariant mem[pd] == m[pd] && pd !in free
        invariant forall p: nat :: p in free <==> p in f || IsTableBelow(m[pd], i, p)
        invariant forall p | 0 <= p < FRAMES && p !in free :: mem[p] == m[p]
      {
        if Present(mem[pd][i]) {
          assert forall k | 0 <= k < i && Present(m[pd][k]) :: Frame(m[pd][k]) != Frame(m[pd][i]);
          Kfree(Frame(mem[pd][i]));
        }
        assert forall p :: IsTableBelow(m[pd], i + 1, p) <==>
            IsTableBelow(m[pd], i, p) || (Present(m[pd][i]) && Frame(m[pd][i]) == p) by {
          forall p ensures IsTableBelow(m[pd], i + 1, p) <==>
            IsTableBelow(m[pd], i, p) || (Present(m[pd][i]) && Frame(m[pd][i]) == p) {
          }
        }
        i := i + 1;
      }
      Kfree(pd);
      DissolvedAfter(old(mem), old(free), m, f, mem, free, pd);
    }

    /** The loop of setupkvm: the entries of the kernel's table, in the directory
        `pd` that is still empty, until memory runs out. */
    method MapKernel(pd: nat) returns (r: int)
      requires Ok() && Tables(mem, free, pd, lo) && KernelUpTo(mem, pd, data, USERPAGES) && Dir(mem, pd) == {}
      modifies this
      ensures Ok() && Tables(mem, free, pd, lo) && Took(old(mem), old(free), mem, free, pd) && NoUserPages(mem, pd)
      ensures r < 0 <==> |old(free)| < KVMPAGES - 1
      ensures r >= 0 ==> KernelUpTo(mem, pd, data, PAGES)
      ensures r >= 0 ==> |free| + (KVMPAGES - 1) == |old(free)| && Dir(mem, pd) == KernelDir(data, 4)
    {
      hide Present, Frame, Walk, IsTable, FreeOk, Tables, KernelUpTo, MapsTo, Took, Paid, Dir, Spans, KernelDir,
           NoUserPages;
      ghost var m1, f1 := mem, free;
      TookNothing(mem, free, pd);
      KernelStart(mem, free, pd, data);
      var kmap := KernelMap(data);
      var k := 0;
      while k < |kmap|
        invariant 0 <= k <= 4 && Ok()
        invariant Tables(mem, free, pd, lo)
        invariant Took(m1, f1, mem, free, pd)
        invariant KernelUpTo(mem, pd, data, Reach(data, k))
        invariant Paid(m1, f1, mem, free, pd, KernelDir(data, k))
      {
        var e := kmap[k];
        var size := (e.end - e.start) % 0x1_0000_0000;
        ghost var m, f := mem, free;
        EntryUnmapped(mem, pd, data, k);
        KernelDirNext(data, k);
        ghost var stop;
        r, stop := MapPages(pd, e.virt, size, e.start, e.perm);
        TookTransitive(m1, f1, m, f, mem, free, pd);
        ghost var spans := Spans(PageOf(e.virt), PageOf(e.virt + size - 1) + 1);
        if r < 0 {
          KernelShort(m1, f1, m, f, pd, data, k, spans);
          KernelOnly(m, mem, pd, data, Reach(data, k), PageOf(e.virt), stop, e.start / PGSIZE, e.perm);
          return;
        }
        KernelPaid(m1, f1, m, f, mem, free, pd, data, k, spans);
        KernelEntry(m, mem, pd, data, k);
        k := k + 1;
      }
      PaidAll(m1, f1, mem, free, pd, data);
      KernelOnly(mem, mem, pd, data, PAGES, USERPAGES, USERPAGES, 0, 0);
      r := 0;
    }

    /** A space with the kernel's mappings and no user page; 0, with nothing
        taken, when there is too little memory. */
    method SetupKvm() returns (pd: nat)
      requires Ok()
      modifies this
      ensures Ok()
      ensures pd == 0 <==> |old(free)| < KVMPAGES
      ensures pd == 0 ==> forall p: nat :: p in free <==> p in old(free)
      ensures pd != 0 ==> Space(mem, free, pd, lo) && KernelUpTo(mem, pd, data, PAGES)
      ensures pd != 0 ==> |free| + KVMPAGES == |old(free)| && Dir(mem, pd) == KernelDir(data, 4)
      ensures pd != 0 ==> forall p: nat :: p in free || Owned(mem, pd, p) <==> p in old(free)
      ensures forall p | 0 <= p < FRAMES && p !in old(free) :: mem[p] == old(mem)[p]
    {
      hide Present, Frame, Walk, IsTable, FreeOk, Tables, KernelUpTo, Took, Space, Owned, Dir, KernelDir, NoUserPages;
      ghost var m0 := mem;
      pd := Kalloc();
      if pd == 0 {
        return;
      }
      mem := mem[pd := Zeroes()];
      EmptyDirectory(mem, free, pd, lo, data);
      ghost var m1, f1 := mem, free;
      assert KERNBASE + FRAMES * PGSIZE <= 0xFE000000;  // "PHYSTOP too high" is not reached
      var r := MapKernel(pd);
      NewSpace(m0, old(free), m1, f1, mem, free, pd, lo);
      if r < 0 {
        FreeVm(pd);
        pd := 0;
      }
    }

    /** Grows the user part to `newsz`; 0 when there are too few frames for the pages
        and their missing tables (or the size is too large), with nothing mapped and no page lost. */
    method AllocUvm(pd: nat, oldsz: nat, newsz: nat) returns (r: nat)
      requires Ok() && Space(mem, free, pd, lo)
      requires newsz < KERNBASE ==> forall u | Pages(oldsz) <= u < Pages(newsz) :: !Present(Walk(mem, pd, u))
      modifies this
      ensures Ok() && Space(mem, free, pd, lo) && Conserved(old(mem), old(free), mem, free, pd)
      ensures newsz >= KERNBASE ==> r == 0
      ensures newsz < oldsz && newsz < KERNBASE ==> r == oldsz
      ensures oldsz <= newsz < KERNBASE ==> r == newsz || r == 0
      ensures oldsz <= newsz < KERNBASE ==>
                (r == newsz <==> |old(free)| >= Need(Dir(old(mem), pd), Pages(oldsz), Pages(newsz)))
      ensures oldsz <= newsz < KERNBASE && r == newsz ==>
                Grown(old(mem), old(free), mem, pd, Pages(oldsz), Pages(newsz))
      ensures r != newsz ==> SameMapping(old(mem), mem, pd)
      ensures HoldsOld(old(mem), old(free), mem, pd)
    {
      hide Present, Frame, Flags, Walk, MakePte, IsTable, Took, Tables, Users, FreeOk, Conserved, ConservedBut, Paid,
           Dir, Spans, Supplied, Need, KeepsOld, HoldsOld, OthersHold;
      ConservedNothing(mem, free, pd);
      KeepsItself(mem, free, pd);
      if newsz >= KERNBASE {
        KeepsHolds(mem, free, mem, free, pd);
        return 0;
      }
      if newsz < oldsz {
        KeepsHolds(mem, free, mem, free, pd);
        return oldsz;
      }
      var a := Pages(oldsz) * PGSIZE;
      ghost var first, v := Pages(oldsz), Pages(oldsz);
      SuppliedNothing(mem, free, pd, first);
      while a < newsz
        invariant a == v * PGSIZE && first <= v <= Pages(newsz)
        invariant Ok()
        invariant Space(mem, free, pd, lo)
        invariant Conserved(old(mem), old(free), mem, free, pd)
        invariant forall p: nat | p in free :: p in old(free)
        invariant Grown(old(mem), old(free), mem, pd, first, v)
        invariant Supplied(old(mem), old(free), mem, free, pd, first, v)
        invariant KeepsOld(old(mem), old(free), mem, free, pd)
        decreases newsz - a
      {
        ghost var m, f := mem, free;
        var q := Kalloc();
        if q == 0 {
          SuppliedShort(old(mem), old(free), m, f, m, f, pd, first, v, Pages(newsz));
          var d := DeallocUvm(pd, newsz, oldsz);
          KeepsOldUndone(old(mem), old(free), m, f, mem, pd, m, first, v, Pages(newsz));
          ConservedTransitive(old(mem), old(free), m, f, mem, free, pd);
          ShrunkBack(old(mem), old(free), m, m, mem, mem, pd, first, v, Pages(newsz), 0, 0);
          return 0;
        }
        mem := mem[q := Zeroes()];
        ghost var m1, f1 := mem, free;
        KeepsOldCleared(old(mem), old(free), m, q, f1, pd, lo);
        TakenDir(m, f, pd, lo, Zeroes());
        Loosen(m, f, pd, lo, Zeroes());
        assert f[1..] == f1;
        var r1;
        ghost var stop;
        r1, stop := MapPages(pd, a, PGSIZE, q * PGSIZE, PTE_W + PTE_U);
        KeepsOldTook(old(mem), old(free), m1, f1, mem, free, pd);
        assert !Present(Walk(m, pd, v));
        PageMapped(m, f1, q, Zeroes(), mem, free, pd, lo, v, stop, PTE_W + PTE_U);
        if r1 < 0 {
          SuppliedShort(old(mem), old(free), m, f, m1, f1, pd, first, v, Pages(newsz));
          ghost var m2, f2 := mem, free;
          var d := DeallocUvm(pd, newsz, oldsz);
          KeepsOldUndone(old(mem), old(free), m2, f2, mem, pd, m, first, v, Pages(newsz));
          ConservedButTransitive(m, f, m2, f2, mem, free, pd, q);
          ConservedAgain(m, f, mem, free, pd, lo, q, Junk());
          ShrunkBack(old(mem), old(free), m, m2, mem, mem[q := Junk()], pd, first, v, Pages(newsz), q, PTE_W + PTE_U);
          ghost var m3 := mem;
          Kfree(q);
          HoldsOldBut(old(mem), old(free), m3, pd, q);
          ConservedTransitive(old(mem), old(free), m, f, mem, free, pd);
          return 0;
        }
        SuppliedNext(old(mem), old(free), m, f, m1, f1, mem, free, pd, first, v);
        GrownOn(old(mem), old(free), m, f1, q, mem, free, pd, lo, first, v);
        ConservedTransitive(old(mem), old(free), m, f, mem, free, pd);
        a := a + PGSIZE;
        v := v + 1;
      }
      SuppliedAll(old(mem), old(free), mem, free, pd, first, v);
      KeepsHolds(old(mem), old(free), mem, free, pd);
      r := newsz;
    }

    /** One pass of copyuvm's loop, for page `v` at address `i`, in a copy of the
        space there was in `m0`; `m1` and `f1` are what setupkvm left. It fails
        when a frame is missing, with the page unmapped and given back. */
    method CopyPage(pd: nat, d: nat, i: nat, ghost v: nat, ghost sz: nat, ghost m0: Mem, ghost f0: seq<nat>,
                    ghost m1: Mem, ghost f1: seq<nat>)
      returns (bad: bool)
      requires Ok() && i == v * PGSIZE < sz <= KERNBASE && Space(m0, f0, pd, lo)
      requires forall u | 0 <= u < Pages(sz) :: Present(Walk(m0, pd, u))
      requires Space(mem, free, pd, lo) && (forall u: nat :: Walk(mem, pd, u) == Walk(m0, pd, u))
      requires Copying(m0, f0, mem, free, d, lo) && Copied(m0, mem, pd, d, v, data)
      requires Supplied(m1, f1, mem, free, d, 0, v)
      modifies this
      ensures Ok() && Copying(m0, f0, mem, free, d, lo)
      ensures bad ==> |f1| < Need(Dir(m1, d), 0, Pages(sz))
      ensures !bad ==> Copied(m0, mem, pd, d, v + 1, data) && Supplied(m1, f1, mem, free, d, 0, v + 1)
    {
      hide Present, Frame, Flags, Walk, MakePte, IsTable, Took, Tables, Users, FreeOk, Owned, KernelWord, Paid, Dir,
           Spans, KernelDir, Between, Supplied, Need, SpaceCost;
      ghost var m, f := mem, free;
      SourcePage(m0, f0, mem, free, pd, d, lo, v, data, sz);
      var t := WalkPgdir(pd, i, false);
      var pte := mem[t][i / 4096 % 1024];
      var q := Kalloc();
      if q == 0 {
        SuppliedShort(m1, f1, m, f, m, f, d, 0, v, Pages(sz));
        return true;
      }
      ghost var rest := free;
      assert [q] + rest == f;
      Loosen(m, f, d, lo, mem[Frame(pte)]);
      assert f[1..] == rest;
      TakenDir(m, f, d, lo, mem[Frame(pte)]);
      mem := mem[q := mem[Frame(pte)]];
      ghost var m2 := mem;
      var r;
      ghost var stop;
      r, stop := MapPages(d, i, PGSIZE, q * PGSIZE, Flags(pte));
      PageMapped(m, rest, q, m[Frame(pte)], mem, free, d, lo, v, stop, Flags(pte));
      if r < 0 {
        SuppliedShort(m1, f1, m, f, m2, rest, d, 0, v, Pages(sz));
        ConservedAgain(m, f, mem, free, d, lo, q, Junk());
        Kfree(q);
      } else {
        SuppliedNext(m1, f1, m, f, m2, rest, mem, free, d, 0, v);
        CopiedOn(m0, m, rest, q, mem, free, pd, d, lo, v, data);
      }
      bad := r < 0;
    }

    /** A copy of the space for a child; 0, with no page lost, exactly when there are
        too few frames for it. */
    method CopyUvm(pd: nat, sz: nat) returns (d: nat)
      requires Ok() && Space(mem, free, pd, lo) && sz <= KERNBASE
      requires forall v | 0 <= v < Pages(sz) :: Present(Walk(mem, pd, v))
      modifies this
      ensures Ok() && Space(mem, free, pd, lo)
      ensures forall u: nat :: Walk(mem, pd, u) == Walk(old(mem), pd, u)
      ensures forall p | 0 <= p < FRAMES && p !in old(free) :: mem[p] == old(mem)[p]
      ensures d == 0 <==> |old(free)| < SpaceCost(Pages(sz))
      ensures d == 0 ==> forall p: nat :: p in free <==> p in old(free)
      ensures d != 0 ==> Space(mem, free, d, lo) && Copied(old(mem), mem, pd, d, Pages(sz), data)
      ensures d != 0 ==> forall p: nat :: p in free || Owned(mem, d, p) <==> p in old(free)
    {
      hide Present, Frame, Flags, Walk, MakePte, IsTable, Took, Tables, Users, FreeOk, Owned, KernelWord, Paid, Dir,
           Spans, KernelDir, Between, Supplied, Need, SpaceCost;
      ghost var m0, f0 := mem, free;
      d := SetupKvm();
      OwnedNotFree(m0, f0, pd, lo);
      SameSpace(m0, f0, mem, free, pd, lo);
      CostExactly(data, Pages(sz));
      if d == 0 {
        return;
      }
      ghost var m1, f1 := mem, free;
      SuppliedNothing(mem, free, d, 0);
      var bad := false;
      var i := 0;
      ghost var v := 0;
      while i < sz
        invariant i == v * PGSIZE && v <= Pages(sz) && !bad && Ok()
        invariant Space(mem, free, pd, lo) && forall u: nat :: Walk(mem, pd, u) == Walk(m0, pd, u)
        invariant Copying(m0, f0, mem, free, d, lo) && Copied(m0, mem, pd, d, v, data)
        invariant Supplied(m1, f1, mem, free, d, 0, v)
        decreases sz - i
      {
        bad := CopyPage(pd, d, i, v, sz, m0, f0, m1, f1);
        if bad {
          break;
        }
        i := i + PGSIZE;
        v := v + 1;
        SameSpace(m0, f0, mem, free, pd, lo);
      }
      if bad {
        FreeVm(d);
        d := 0;
      } else {
        SuppliedAll(m1, f1, mem, free, d, 0, v);
      }
      SameSpace(m0, f0, mem, free, pd, lo);
    }
  }

  /** The space `d` and the free list share out what was free in `m0`, and the rest
      of memory is as it was. */
  ghost predicate Copying(m0: Mem, f0: seq<nat>, mem: Mem, free: seq<nat>, d: nat, lo: nat) {
    && Space(mem, free, d, lo) && |mem| == |m0| == FRAMES
    && (forall p: nat :: p in free || Owned(mem, d, p) <==> p in f0)
    && (forall p | 0 <= p < FRAMES && p !in f0 :: mem[p] == m0[p])
  }
}
