/** The inode cache (`fs.c`): references, links, and who may give an inode back.
    Any number of processes look inodes up, lock them, link and unlink them, and
    put them; a put takes its locks one after the other. */
module InodeCache {
  import opened Wrappers

  /** An inode on disk. */
  datatype Dinode = Dinode(free: bool, nlink: nat)

  /** An entry of the cache. `holders` is history: who has the references. */
  datatype Entry = Entry(ref: nat, inum: nat, valid: bool, nlink: nat, lock: Option<nat>, holders: multiset<nat>)

  /** Where a process is. `freed` says that its put has given the inode back. */
  datatype Act =
    | Calm
    | Allocated(i: nat)                 // in ialloc, before iget
    | Putting(e: nat)                   // in iput, with the inode locked
    | Freeing(e: nat)                   // it has seen no link and no other reference
    | Freed(e: nat)                     // itrunc and iupdate are done
    | Passing(e: nat, freed: bool)
    | Leaving(e: nat, freed: bool)      // unlocked; the count is still to go down

  /** `names` counts the entries of directories that are in the tree, which link
      counts are for; `stale` counts the `..` of directories that were removed. */
  datatype State = State(disk: seq<Dinode>, names: seq<nat>, stale: seq<nat>, cache: seq<Entry>, acts: seq<Act>)

  datatype Step =
    | Alloc(p: nat, i: nat) | GetAllocated(p: nat, e: nat)
    | Lookup(p: nat, i: nat, e: nat) | LookupStale(p: nat, i: nat, e: nat)
    | Dup(p: nat, q: nat, e: nat)
    | Lock(p: nat, e: nat) | Unlock(p: nat, e: nat) | Raise(p: nat, e: nat) | Lower(p: nat, e: nat)
    | Enter(i: nat) | Clear(i: nat)   // a name of inode `i`
    | Remove(i: nat)                  // of a directory whose `..` leads to inode `i`
    | ClearStale(i: nat)              // that directory's contents are freed
    | PutLock(p: nat, e: nat) | PutLook(p: nat) | PutFree(p: nat) | PutForget(p: nat) | PutUnlock(p: nat)
    | PutDrop(p: nat)

  predicate Shape(s: State) {
    && |s.names| == |s.stale| == |s.disk|
    && (forall e | 0 <= e < |s.cache| :: s.cache[e].inum < |s.disk|)
  }

  predicate Is(s: State, p: nat, a: Act) {
    p < |s.acts| && s.acts[p] == a
  }

  predicate Holds(s: State, p: nat, e: nat) {
    e < |s.cache| && p in s.cache[e].holders
  }

  predicate Owns(s: State, p: nat, e: nat) {
    e < |s.cache| && s.cache[e].lock == Some(p)
  }

  /** The loop of iget may end at entry `e` for inode `i`. */
  predicate CanGet(s: State, i: nat, e: nat) {
    && e < |s.cache| && i < |s.disk|
    && if s.cache[e].ref > 0 then s.cache[e].inum == i
       else forall d | 0 <= d < |s.cache| && s.cache[d].ref > 0 :: s.cache[d].inum != i
  }

  predicate Enabled(s: State, t: Step)
    requires Shape(s)
  {
    match t
    case Alloc(p, i) => Is(s, p, Calm) && i < |s.disk| && s.disk[i].free
    case GetAllocated(p, e) => p < |s.acts| && s.acts[p].Allocated? && CanGet(s, s.acts[p].i, e)
    case Lookup(p, i, e) => Is(s, p, Calm) && CanGet(s, i, e) && s.names[i] > 0
    case LookupStale(p, i, e) => Is(s, p, Calm) && CanGet(s, i, e) && s.stale[i] > 0
    case Dup(p, q, e) => Is(s, p, Calm) && Is(s, q, Calm) && Holds(s, p, e)
    case Lock(p, e) =>
      && Is(s, p, Calm) && Holds(s, p, e) && s.cache[e].lock == None
      && (s.cache[e].valid || !s.disk[s.cache[e].inum].free)
    case Unlock(p, e) => Is(s, p, Calm) && Owns(s, p, e)
    case Raise(p, e) => Is(s, p, Calm) && Owns(s, p, e) && s.cache[e].valid
    case Lower(p, e) =>
      && Is(s, p, Calm) && Owns(s, p, e) && s.cache[e].valid
      && s.names[s.cache[e].inum] < s.cache[e].nlink
    case Enter(i) => i < |s.disk| && s.names[i] < s.disk[i].nlink
    case Clear(i) => i < |s.disk| && s.names[i] > 0
    case Remove(i) => i < |s.disk| && s.names[i] > 0
    case ClearStale(i) => i < |s.disk| && s.stale[i] > 0
    case PutLock(p, e) => Is(s, p, Calm) && Holds(s, p, e) && s.cache[e].lock == None
    case PutLook(p) => p < |s.acts| && s.acts[p].Putting? && s.acts[p].e < |s.cache|
    case PutFree(p) => p < |s.acts| && s.acts[p].Freeing? && s.acts[p].e < |s.cache|
    case PutForget(p) => p < |s.acts| && s.acts[p].Freed? && s.acts[p].e < |s.cache|
    case PutUnlock(p) => p < |s.acts| && s.acts[p].Passing? && s.acts[p].e < |s.cache|
    case PutDrop(p) => p < |s.acts| && s.acts[p].Leaving? && Holds(s, p, s.acts[p].e) && s.cache[s.acts[p].e].ref > 0
  }

  /** ilock of an inode that is free: "ilock: no type". */
  predicate Panics(s: State, t: Step) {
    && Shape(s) && t.Lock? && Is(s, t.p, Calm) && Holds(s, t.p, t.e) && s.cache[t.e].lock == None
    && !s.cache[t.e].valid && s.disk[s.cache[t.e].inum].free
  }

  /** iget for process `p`. */
  function Got(s: State, p: nat, i: nat, e: nat): State
    requires e < |s.cache| && p < |s.acts|
  {
    var c := s.cache[e];
    var c' := if c.ref > 0 then c.(ref := c.ref + 1, holders := c.holders + multiset{p})
              else Entry(1, i, false, c.nlink, c.lock, multiset{p});
    s.(cache := s.cache[e := c'], acts := s.acts[p := Calm])
  }

  function WithLinks(s: State, e: nat, n: nat): State
    requires Shape(s) && e < |s.cache|
  {
    var c := s.cache[e];
    s.(cache := s.cache[e := c.(nlink := n)], disk := s.disk[c.inum := s.disk[c.inum].(nlink := n)])
  }

  function Do(s: State, t: Step): State
    requires Shape(s) && Enabled(s, t)
  {
    match t
    case Alloc(p, i) => s.(disk := s.disk[i := Dinode(false, 0)], acts := s.acts[p := Allocated(i)])
    case GetAllocated(p, e) => Got(s, p, s.acts[p].i, e)
    case Lookup(p, i, e) => Got(s, p, i, e)
    case LookupStale(p, i, e) => Got(s, p, i, e)
    case Dup(p, q, e) =>
      s.(cache := s.cache[e := s.cache[e].(ref := s.cache[e].ref + 1, holders := s.cache[e].holders + multiset{q})])
    case Lock(p, e) =>
      var c := s.cache[e];
      s.(cache := s.cache[e := c.(lock := Some(p), valid := true,
                                  nlink := if c.valid then c.nlink else s.disk[c.inum].nlink)])
    case Unlock(p, e) => s.(cache := s.cache[e := s.cache[e].(lock := None)])
    case Raise(p, e) => WithLinks(s, e, s.cache[e].nlink + 1)
    case Lower(p, e) => WithLinks(s, e, s.cache[e].nlink - 1)
    case Enter(i) => s.(names := s.names[i := s.names[i] + 1])
    case Clear(i) => s.(names := s.names[i := s.names[i] - 1])
    case Remove(i) => s.(names := s.names[i := s.names[i] - 1], stale := s.stale[i := s.stale[i] + 1])
    case ClearStale(i) => s.(stale := s.stale[i := s.stale[i] - 1])
    case PutLock(p, e) =>
      s.(cache := s.cache[e := s.cache[e].(lock := Some(p))], acts := s.acts[p := Putting(e)])
    case PutLook(p) =>
      var e := s.acts[p].e;
      s.(acts := s.acts[p := if Last(s, e) then Freeing(e) else Passing(e, false)])
    case PutFree(p) =>
      var e := s.acts[p].e;
      s.(disk := s.disk[s.cache[e].inum := Dinode(true, 0)], acts := s.acts[p := Freed(e)])
    case PutForget(p) =>
      var e := s.acts[p].e;
      s.(cache := s.cache[e := s.cache[e].(valid := false)], acts := s.acts[p := Passing(e, true)])
    case PutUnlock(p) =>
      var e := s.acts[p].e;
      s.(cache := s.cache[e := s.cache[e].(lock := None)], acts := s.acts[p := Leaving(e, s.acts[p].freed)])
    case PutDrop(p) =>
      var e := s.acts[p].e;
      s.(cache := s.cache[e := s.cache[e].(ref := s.cache[e].ref - 1, holders := s.cache[e].holders - multiset{p})],
         acts := s.acts[p := Calm])
  }

  /** What iput asks: no link, and no reference but its own. */
  predicate Last(s: State, e: nat)
    requires e < |s.cache|
  {
    s.cache[e].valid && s.cache[e].nlink == 0 && s.cache[e].ref == 1
  }

  // ---- The invariant ----

  predicate EntryInv(s: State, e: nat)
    requires Shape(s) && e < |s.cache|
  {
    var c := s.cache[e];
    && c.ref == |c.holders| && (forall p | p in c.holders :: p < |s.acts|)
    && (c.ref > 0 && c.valid ==> c.nlink == s.disk[c.inum].nlink)
    && (c.ref > 0 && c.valid && s.disk[c.inum].free ==> c.lock.Some? && Is(s, c.lock.value, Freed(e)))
    && (c.lock.Some? ==> c.lock.value in c.holders)
  }

  predicate ActInv(s: State, p: nat)
    requires Shape(s) && p < |s.acts|
  {
    match s.acts[p]
    case Calm => true
    case Allocated(i) => i < |s.disk|
    case Leaving(e, freed) => Holds(s, p, e) && !Owns(s, p, e) && (freed ==> s.cache[e].holders[p] == 1)
    case Freeing(e) =>
      && Owns(s, p, e) && s.cache[e].holders[p] == 1
      && s.cache[e].valid && s.cache[e].nlink == 0 && !s.disk[s.cache[e].inum].free
    case Putting(e) => Owns(s, p, e)
    case Freed(e) => Owns(s, p, e) && s.cache[e].holders[p] == 1
    case Passing(e, freed) => Owns(s, p, e) && (freed ==> s.cache[e].holders[p] == 1)
  }

  /** One entry for each inode in the cache. */
  predicate OneEntry(s: State) {
    forall d, e | 0 <= d < e < |s.cache| && s.cache[d].ref > 0 && s.cache[e].ref > 0 ::
      s.cache[d].inum != s.cache[e].inum
  }

  predicate LinksCount(s: State)
    requires Shape(s)
  {
    forall i | 0 <= i < |s.disk| :: s.names[i] <= s.disk[i].nlink && (s.disk[i].free ==> s.disk[i].nlink == 0)
  }

  predicate Inv(s: State) {
    && Shape(s) && OneEntry(s) && LinksCount(s)
    && (forall e | 0 <= e < |s.cache| :: EntryInv(s, e))
    && (forall p | 0 <= p < |s.acts| :: ActInv(s, p))
  }

  // ---- Who is let down ----

  /** Inode `i` is free, or some process has decided to free it. */
  predicate Going(s: State, i: nat)
    requires Shape(s) && i < |s.disk|
  {
    s.disk[i].free || exists p | 0 <= p < |s.acts| :: FreesInode(s, s.acts[p], i)
  }

  predicate FreesInode(s: State, a: Act, i: nat) {
    a.Freeing? && a.e < |s.cache| && s.cache[a.e].inum == i
  }

  /** The process that frees the inode of entry `e`, or has freed it. */
  predicate Frees(a: Act, e: nat) {
    match a
    case Freeing(d) => d == e
    case Freed(d) => d == e
    case Passing(d, freed) => d == e && freed
    case Leaving(d, freed) => d == e && freed
    case _ => false
  }

  /** `p` has a reference to entry `e` and has not itself given the inode back. */
  predicate Relies(s: State, p: nat, e: nat) {
    p < |s.acts| && Holds(s, p, e) && !Frees(s.acts[p], e)
  }

  /** Process `p` has a reference to an inode, or has just allocated it, that is
      free or about to be, and not of its own doing. */
  predicate LetDown(s: State, p: nat)
    requires Shape(s) && p < |s.acts|
  {
    || (s.acts[p].Allocated? && s.acts[p].i < |s.disk| && Going(s, s.acts[p].i))
    || exists e | 0 <= e < |s.cache| :: Relies(s, p, e) && Going(s, s.cache[e].inum)
  }

  predicate Bad(s: State)
    requires Shape(s)
  {
    exists p | 0 <= p < |s.acts| :: LetDown(s, p)
  }

  /** `..` of a removed directory leads to an inode that is free or going; or an
      inode that such a lookup has found is freed while its allocation goes on. */
  predicate Spoils(s: State, t: Step)
    requires Shape(s) && Enabled(s, t)
  {
    || (t.LookupStale? && Going(s, t.i))
    || (t.PutLook? && Last(s, s.acts[t.p].e)
        && exists q | 0 <= q < |s.acts| :: s.acts[q] == Allocated(s.cache[s.acts[t.p].e].inum))
  }

  // ---- iget ----

  /** The array of entries, under its lock. */
  class Icache {
    const inode: array<Entry>

    constructor (s: State)
      ensures fresh(inode) && inode[..] == s.cache
    {
      inode := new Entry[|s.cache|](e requires 0 <= e < |s.cache| => s.cache[e]);
      new;
      assert inode[..] == s.cache;
    }

    /** iget of inode `i` by process `p`: the entry that has it, or the first that is
        not in use; None, where the code panics, when there is neither. */
    method IGet(p: nat, i: nat, ghost s: State) returns (r: Option<nat>)
      requires inode[..] == s.cache && p < |s.acts| && i < |s.disk|
      modifies inode
      ensures r.None? ==>
                inode[..] == s.cache && forall e | 0 <= e < |s.cache| :: s.cache[e].ref > 0 && s.cache[e].inum != i
      ensures r.Some? ==> CanGet(s, i, r.value) && inode[..] == Got(s, p, i, r.value).cache
      ensures r.Some? ==> forall e | 0 <= e < r.value :: s.cache[e].ref > 0 || s.cache[r.value].ref > 0
    {
      var empty: Option<nat> := None;
      for e := 0 to inode.Length
        invariant inode[..] == s.cache
        invariant forall d | 0 <= d < e && s.cache[d].ref > 0 :: s.cache[d].inum != i
        invariant empty.None? ==> forall d | 0 <= d < e :: s.cache[d].ref > 0
        invariant empty.Some? ==> empty.value < e && s.cache[empty.value].ref == 0
        invariant empty.Some? ==> forall d | 0 <= d < empty.value :: s.cache[d].ref > 0
      {
        var c := inode[e];
        if c.ref > 0 && c.inum == i {
          inode[e] := c.(ref := c.ref + 1, holders := c.holders + multiset{p});
          return Some(e);
        }
        if empty.None? && c.ref == 0 {
          empty := Some(e);
        }
      }
      if empty.Some? {
        var c := inode[empty.value];
        inode[empty.value] := Entry(1, i, false, c.nlink, c.lock, multiset{p});
      }
      r := empty;
    }
  }

  // ---- Every step keeps the invariant ----

  lemma OwnerHolds(s: State, p: nat, e: nat)
    requires Inv(s) && (Owns(s, p, e) || Holds(s, p, e))
    ensures Holds(s, p, e) && p < |s.acts| && s.cache[e].ref > 0 && EntryInv(s, e)
  {
    assert EntryInv(s, e);
    assert s.cache[e].holders[p] > 0;
    assert multiset{p} <= s.cache[e].holders;
  }

  lemma GotEntry(s: State, p: nat, i: nat, e: nat, d: nat)
    requires Inv(s) && p < |s.acts| && (s.acts[p].Calm? || s.acts[p] == Allocated(i)) && CanGet(s, i, e)
    requires d < |s.cache|
    ensures EntryInv(Got(s, p, i, e), d)
  {
    assert EntryInv(s, d);
  }

  lemma GotAct(s: State, p: nat, i: nat, e: nat, q: nat)
    requires Inv(s) && p < |s.acts| && (s.acts[p].Calm? || s.acts[p] == Allocated(i)) && CanGet(s, i, e)
    requires q < |s.acts|
    ensures Shape(Got(s, p, i, e)) && ActInv(Got(s, p, i, e), q)
  {
    assert EntryInv(s, e) && ActInv(s, q);
  }

  lemma GotInv(s: State, p: nat, i: nat, e: nat)
    requires Inv(s) && p < |s.acts| && (s.acts[p].Calm? || s.acts[p] == Allocated(i)) && CanGet(s, i, e)
    ensures Inv(Got(s, p, i, e))
  {
    var s' := Got(s, p, i, e);
    hide EntryInv, ActInv;
    forall d | 0 <= d < |s.cache| ensures EntryInv(s', d) {
      GotEntry(s, p, i, e, d);
    }
    forall q | 0 <= q < |s.acts| ensures Shape(s') && ActInv(s', q) {
      GotAct(s, p, i, e, q);
    }
  }

  lemma AllocInv(s: State, p: nat, i: nat)
    requires Inv(s) && Enabled(s, Alloc(p, i))
    ensures Inv(Do(s, Alloc(p, i)))
  {
    var s' := Do(s, Alloc(p, i));
    forall d | 0 <= d < |s.cache| ensures EntryInv(s', d) {
      assert EntryInv(s, d);
    }
    forall q | 0 <= q < |s.acts| ensures ActInv(s', q) {
      assert ActInv(s, q);
    }
  }

  lemma DupInv(s: State, p: nat, q: nat, e: nat)
    requires Inv(s) && Enabled(s, Dup(p, q, e))
    ensures Inv(Do(s, Dup(p, q, e)))
  {
    var s' := Do(s, Dup(p, q, e));
    OwnerHolds(s, p, e);
    forall d | 0 <= d < |s.cache| ensures EntryInv(s', d) {
      assert EntryInv(s, d);
    }
    forall r | 0 <= r < |s.acts| ensures ActInv(s', r) {
      assert ActInv(s, r);
    }
  }

  lemma LockInv(s: State, t: Step)
    requires Inv(s) && Enabled(s, t) && (t.Lock? || t.PutLock?)
    ensures Inv(Do(s, t))
  {
    var s' := Do(s, t);
    forall d | 0 <= d < |s.cache| ensures EntryInv(s', d) {
      assert EntryInv(s, d);
    }
    forall q | 0 <= q < |s.acts| ensures ActInv(s', q) {
      assert ActInv(s, q);
    }
  }

  lemma UnlockInv(s: State, p: nat, e: nat, t: Step)
    requires Inv(s) && Enabled(s, t) && Owns(s, p, e)
    requires t == Unlock(p, e) || (t == PutUnlock(p) && s.acts[p].e == e)
    ensures Inv(Do(s, t))
  {
    var s' := Do(s, t);
    OwnerHolds(s, p, e);
    forall d | 0 <= d < |s.cache| ensures EntryInv(s', d) {
      assert EntryInv(s, d);
    }
    forall q | 0 <= q < |s.acts| ensures ActInv(s', q) {
      assert ActInv(s, q);
    }
  }

  lemma LinksInv(s: State, t: Step)
    requires Inv(s) && Enabled(s, t) && (t.Raise? || t.Lower?)
    ensures Inv(Do(s, t))
  {
    var s' := Do(s, t);
    OwnerHolds(s, t.p, t.e);
    forall d | 0 <= d < |s.cache| ensures EntryInv(s', d) {
      assert EntryInv(s, d);
    }
    forall q | 0 <= q < |s.acts| ensures ActInv(s', q) {
      assert ActInv(s, q);
      if s.acts[q].Freeing? {
        OwnerHolds(s, q, s.acts[q].e);
      }
    }
  }

  lemma NamesInv(s: State, t: Step)
    requires Inv(s) && Enabled(s, t) && (t.Enter? || t.Clear? || t.Remove? || t.ClearStale?)
    ensures Inv(Do(s, t))
  {
    var s' := Do(s, t);
    forall d | 0 <= d < |s.cache| ensures EntryInv(s', d) {
      assert EntryInv(s, d);
    }
    forall q | 0 <= q < |s.acts| ensures ActInv(s', q) {
      assert ActInv(s, q);
    }
  }

  lemma PutEntry(s: State, t: Step, d: nat)
    requires Inv(s) && Enabled(s, t) && (t.PutLook? || t.PutFree? || t.PutForget?) && d < |s.cache|
    ensures EntryInv(Do(s, t), d)
  {
    assert ActInv(s, t.p) && EntryInv(s, d);
    OwnerHolds(s, t.p, s.acts[t.p].e);
  }

  lemma PutAct(s: State, t: Step, q: nat)
    requires Inv(s) && Enabled(s, t) && (t.PutLook? || t.PutFree? || t.PutForget?) && q < |s.acts|
    ensures Shape(Do(s, t)) && ActInv(Do(s, t), q)
  {
    assert ActInv(s, t.p) && ActInv(s, q);
    OwnerHolds(s, t.p, s.acts[t.p].e);
    if q != t.p && s.acts[q].Freeing? {
      OwnerHolds(s, q, s.acts[q].e);
      assert s.acts[q].e != s.acts[t.p].e;
      assert s.cache[s.acts[q].e].inum != s.cache[s.acts[t.p].e].inum;
    }
  }

  lemma PutInv(s: State, t: Step)
    requires Inv(s) && Enabled(s, t) && (t.PutLook? || t.PutFree? || t.PutForget?)
    ensures Inv(Do(s, t))
  {
    var s' := Do(s, t);
    assert ActInv(s, t.p);
    OwnerHolds(s, t.p, s.acts[t.p].e);
    hide EntryInv, ActInv;
    forall d | 0 <= d < |s.cache| ensures EntryInv(s', d) {
      PutEntry(s, t, d);
    }
    forall q | 0 <= q < |s.acts| ensures Shape(s') && ActInv(s', q) {
      PutAct(s, t, q);
    }
  }

  lemma DropEntry(s: State, p: nat, d: nat)
    requires Inv(s) && Enabled(s, PutDrop(p)) && d < |s.cache|
    ensures EntryInv(Do(s, PutDrop(p)), d)
  {
    assert ActInv(s, p) && EntryInv(s, d);
  }

  lemma DropAct(s: State, p: nat, q: nat)
    requires Inv(s) && Enabled(s, PutDrop(p)) && q < |s.acts|
    ensures Shape(Do(s, PutDrop(p))) && ActInv(Do(s, PutDrop(p)), q)
  {
    assert ActInv(s, p) && ActInv(s, q);
  }

  lemma DropInv(s: State, p: nat)
    requires Inv(s) && Enabled(s, PutDrop(p))
    ensures Inv(Do(s, PutDrop(p)))
  {
    var s' := Do(s, PutDrop(p));
    hide EntryInv, ActInv;
    forall d | 0 <= d < |s.cache| ensures EntryInv(s', d) {
      DropEntry(s, p, d);
    }
    forall q | 0 <= q < |s.acts| ensures Shape(s') && ActInv(s', q) {
      DropAct(s, p, q);
    }
  }

  lemma StepInv(s: State, t: Step)
    requires Inv(s) && Enabled(s, t)
    ensures Inv(Do(s, t))
  {
    match t
    case Alloc(p, i) => AllocInv(s, p, i);
    case GetAllocated(p, e) => GotInv(s, p, s.acts[p].i, e);
    case Lookup(p, i, e) => GotInv(s, p, i, e);
    case LookupStale(p, i, e) => GotInv(s, p, i, e);
    case Dup(p, q, e) => DupInv(s, p, q, e);
    case Lock(_, _) | PutLock(_, _) => LockInv(s, t);
    case Unlock(p, e) => UnlockInv(s, p, e, t);
    case PutUnlock(p) =>
      assert ActInv(s, p);
      UnlockInv(s, p, s.acts[p].e, t);
    case Raise(_, _) | Lower(_, _) => LinksInv(s, t);
    case Enter(_) | Clear(_) | Remove(_) | ClearStale(_) => NamesInv(s, t);
    case PutLook(_) | PutFree(_) | PutForget(_) => PutInv(s, t);
    case PutDrop(p) => DropInv(s, p);
  }

  // ---- What each step counts ----

  /** Process `q` gains a reference to entry `e`. */
  predicate Gains(s: State, t: Step, q: nat, e: nat)
    requires Shape(s) && Enabled(s, t)
  {
    || ((t.GetAllocated? || t.Lookup? || t.LookupStale?) && t.p == q && t.e == e)
    || (t.Dup? && t.q == q && t.e == e)
  }

  /** References come from lookups, allocation and idup, and go with puts. */
  lemma ReferencesMove(s: State, t: Step, q: nat, e: nat)
    requires Inv(s) && Enabled(s, t) && e < |s.cache|
    ensures |Do(s, t).cache| == |s.cache|
    ensures Do(s, t).cache[e].holders[q] + (if t.PutDrop? && t.p == q && s.acts[q].e == e then 1 else 0)
         == s.cache[e].holders[q] + (if Gains(s, t, q, e) then 1 else 0)
  {
    assert EntryInv(s, e);
    hide ActInv, OneEntry, LinksCount, CanGet;
  }

  /** The links of inode `i` rise and fall by one, and are none when it is given out
      or back; its names come with entries and go, or become stale, with them. */
  lemma LinksMove(s: State, t: Step, i: nat)
    requires Inv(s) && Enabled(s, t) && i < |s.disk|
    ensures var s' := Do(s, t);
      && |s'.disk| == |s'.names| == |s'.stale| == |s.disk|
      && s'.disk[i].nlink ==
           (if t.Raise? && s.cache[t.e].inum == i then s.disk[i].nlink + 1
            else if t.Lower? && s.cache[t.e].inum == i then s.disk[i].nlink - 1
            else if t.PutFree? && s.cache[s.acts[t.p].e].inum == i then 0 else s.disk[i].nlink)
      && (s'.disk[i].free != s.disk[i].free <==>
            (t.PutFree? && s.cache[s.acts[t.p].e].inum == i) || (t.Alloc? && t.i == i))
      && s'.names[i] + (if t == Clear(i) || t == Remove(i) then 1 else 0)
         == s.names[i] + (if t == Enter(i) then 1 else 0)
      && s'.stale[i] + (if t == ClearStale(i) then 1 else 0) == s.stale[i] + (if t == Remove(i) then 1 else 0)
  {
    if t.Raise? || t.Lower? {
      OwnerHolds(s, t.p, t.e);
    }
    if t.PutFree? {
      assert ActInv(s, t.p);
    }
    hide OneEntry, CanGet;
  }

  // ---- When a process is let down ----

  lemma IsBad(s: State, p: nat, e: nat)
    requires Shape(s) && e < |s.cache| && Relies(s, p, e) && Going(s, s.cache[e].inum)
    ensures Bad(s)
  {
    hide Going;
    assert LetDown(s, p);
  }

  lemma AllocatedBad(s: State, p: nat)
    requires Shape(s) && p < |s.acts| && s.acts[p].Allocated? && s.acts[p].i < |s.disk| && Going(s, s.acts[p].i)
    ensures Bad(s)
  {
    assert LetDown(s, p);
  }

  /** What is going at `s'` was going at `s`, and who relies on it did so. */
  ghost predicate NoWorse(s: State, s': State)
    requires Shape(s) && Shape(s')
  {
    && |s'.acts| == |s.acts| && |s'.cache| == |s.cache| && |s'.disk| == |s.disk|
    && (forall i | 0 <= i < |s.disk| && Going(s', i) :: Going(s, i))
    && (forall p | 0 <= p < |s.acts| && s'.acts[p].Allocated? :: s.acts[p] == s'.acts[p])
    && (forall p: nat, e: nat | e < |s.cache| && Relies(s', p, e) ::
          s'.cache[e].inum == s.cache[e].inum && exists q :: Relies(s, q, e))
  }

  lemma StaysGood(s: State, s': State)
    requires Shape(s) && Shape(s') && NoWorse(s, s') && Bad(s')
    ensures Bad(s)
  {
    hide Going, Relies;
    var p :| 0 <= p < |s'.acts| && LetDown(s', p);
    if s'.acts[p].Allocated? && s'.acts[p].i < |s'.disk| && Going(s', s'.acts[p].i) {
      AllocatedBad(s, p);
    } else {
      var e :| 0 <= e < |s'.cache| && Relies(s', p, e) && Going(s', s'.cache[e].inum);
      var q :| Relies(s, q, e);
      IsBad(s, q, e);
    }
  }

  /** Steps that touch neither what is free nor who is freeing. */
  predicate Plain(t: Step) {
    || t.Enter? || t.Clear? || t.Remove? || t.ClearStale? || t.Raise? || t.Lower? || t.Lock? || t.Unlock?
    || t.PutLock? || t.PutUnlock? || t.Dup?
  }

  lemma PlainGoing(s: State, t: Step, i: nat)
    requires Shape(s) && Enabled(s, t) && Plain(t) && Shape(Do(s, t)) && i < |s.disk| && Going(Do(s, t), i)
    ensures Going(s, i)
  {
    var s' := Do(s, t);
    if !s.disk[i].free {
      var p :| 0 <= p < |s'.acts| && FreesInode(s', s'.acts[p], i);
      assert FreesInode(s, s.acts[p], i);
    }
  }

  lemma PlainRelies(s: State, t: Step, p: nat, e: nat)
    requires Shape(s) && Enabled(s, t) && Plain(t) && e < |s.cache| && Relies(Do(s, t), p, e)
    ensures Relies(s, if t.Dup? && e == t.e then t.p else p, e)
  {
  }

  lemma PlainStep(s: State, t: Step)
    requires Inv(s) && Enabled(s, t) && Plain(t)
    ensures Inv(Do(s, t)) && (Bad(Do(s, t)) ==> Bad(s))
  {
    var s' := Do(s, t);
    StepInv(s, t);
    hide Going, Relies, Inv, Bad;
    assert Shape(s') by {
      InvShape(s');
    }
    forall i | 0 <= i < |s.disk| && Going(s', i) ensures Going(s, i) {
      PlainGoing(s, t, i);
    }
    forall p: nat, e: nat | e < |s.cache| && Relies(s', p, e) ensures exists q :: Relies(s, q, e) {
      PlainRelies(s, t, p, e);
    }
    if Bad(s') {
      StaysGood(s, s');
    }
  }

  lemma InvShape(s: State)
    requires Inv(s)
    ensures Shape(s)
  {
  }

  /** itrunc and iupdate, and the clearing of `valid`. */
  lemma FreeStep(s: State, t: Step)
    requires Inv(s) && Enabled(s, t) && (t.PutFree? || t.PutForget?)
    ensures Inv(Do(s, t)) && (Bad(Do(s, t)) ==> Bad(s))
  {
    var s' := Do(s, t);
    StepInv(s, t);
    assert ActInv(s, t.p);
    forall i | 0 <= i < |s.disk| && Going(s', i) ensures Going(s, i) {
      if t.PutFree? && i == s.cache[s.acts[t.p].e].inum {
        assert FreesInode(s, s.acts[t.p], i);
      } else if !s.disk[i].free {
        var p :| 0 <= p < |s'.acts| && FreesInode(s', s'.acts[p], i);
        assert FreesInode(s, s.acts[p], i);
      }
    }
    forall p: nat, e: nat | e < |s.cache| && Relies(s', p, e) ensures exists q :: Relies(s, q, e) {
      assert Relies(s, p, e);
    }
    if Bad(s') {
      StaysGood(s, s');
    }
  }

  lemma DropStep(s: State, p: nat)
    requires Inv(s) && Enabled(s, PutDrop(p))
    ensures Inv(Do(s, PutDrop(p))) && (Bad(Do(s, PutDrop(p))) ==> Bad(s))
  {
    var s' := Do(s, PutDrop(p));
    StepInv(s, PutDrop(p));
    assert ActInv(s, p);
    forall i | 0 <= i < |s.disk| && Going(s', i) ensures Going(s, i) {
      if !s.disk[i].free {
        var q :| 0 <= q < |s'.acts| && FreesInode(s', s'.acts[q], i);
        assert FreesInode(s, s.acts[q], i);
      }
    }
    forall q: nat, e: nat | e < |s.cache| && Relies(s', q, e) ensures exists q :: Relies(s, q, e) {
      assert Relies(s, q, e);
    }
    if Bad(s') {
      StaysGood(s, s');
    }
  }

  /** ialloc gives out only what nobody is freeing. */
  lemma AllocStep(s: State, p: nat, i: nat)
    requires Inv(s) && Enabled(s, Alloc(p, i))
    ensures Inv(Do(s, Alloc(p, i))) && (Bad(Do(s, Alloc(p, i))) ==> Bad(s))
  {
    var s' := Do(s, Alloc(p, i));
    StepInv(s, Alloc(p, i));
    forall j | 0 <= j < |s.disk| && Going(s', j) ensures Going(s, j) && j != i {
      if !s'.disk[j].free {
        var q :| 0 <= q < |s'.acts| && FreesInode(s', s'.acts[q], j);
        assert ActInv(s, q);
        assert FreesInode(s, s.acts[q], j);
      }
    }
    if Bad(s') {
      var q :| 0 <= q < |s'.acts| && LetDown(s', q);
      if q != p && s'.acts[q].Allocated? && s'.acts[q].i < |s.disk| && Going(s', s'.acts[q].i) {
        AllocatedBad(s, q);
      } else {
        var e :| 0 <= e < |s'.cache| && Relies(s', q, e) && Going(s', s'.cache[e].inum);
        assert Relies(s, q, e);
        IsBad(s, q, e);
      }
    }
  }

  // ---- What iget finds ----

  lemma GotGoing(s: State, p: nat, i: nat, e: nat, j: nat)
    requires Inv(s) && p < |s.acts| && (s.acts[p].Calm? || s.acts[p] == Allocated(i)) && CanGet(s, i, e)
    requires Shape(Got(s, p, i, e)) && j < |s.disk|
    ensures Going(Got(s, p, i, e), j) <==> Going(s, j)
  {
    var s' := Got(s, p, i, e);
    forall q | 0 <= q < |s.acts| ensures FreesInode(s', s'.acts[q], j) <==> FreesInode(s, s.acts[q], j) {
      assert ActInv(s, q) && EntryInv(s, e);
    }
    if Going(s, j) && !s.disk[j].free {
      var q :| 0 <= q < |s.acts| && FreesInode(s, s.acts[q], j);
      assert FreesInode(s', s'.acts[q], j);
    }
    if Going(s', j) && !s.disk[j].free {
      var q :| 0 <= q < |s.acts| && FreesInode(s', s'.acts[q], j);
      assert FreesInode(s, s.acts[q], j);
    }
  }

  lemma GotRelies(s: State, p: nat, i: nat, e: nat)
    requires Inv(s) && p < |s.acts| && (s.acts[p].Calm? || s.acts[p] == Allocated(i)) && CanGet(s, i, e)
    ensures var s' := Got(s, p, i, e);
      && Relies(s', p, e) && s'.cache[e].inum == i && s'.acts[p].Calm?
      && (forall q: nat | q != p && q < |s.acts| :: s'.acts[q] == s.acts[q])
      && forall q: nat, d: nat | d < |s.cache| && Relies(s', q, d) && (q != p || d != e) ::
           Relies(s, q, d) && s'.cache[d].inum == s.cache[d].inum
  {
    assert EntryInv(s, e);
  }

  /** What a lookup finds lets somebody down exactly when it is going. */
  lemma GotStep(s: State, p: nat, i: nat, e: nat)
    requires Inv(s) && p < |s.acts| && (s.acts[p].Calm? || s.acts[p] == Allocated(i)) && CanGet(s, i, e)
    ensures Inv(Got(s, p, i, e))
    ensures !Bad(s) ==> (Bad(Got(s, p, i, e)) <==> Going(s, i))
  {
    var s' := Got(s, p, i, e);
    GotInv(s, p, i, e);
    GotRelies(s, p, i, e);
    assert Shape(s');
    hide Going, Relies, Inv, Got, CanGet;
    forall j: nat | j < |s.disk| ensures Going(s', j) <==> Going(s, j) {
      GotGoing(s, p, i, e, j);
    }
    if Going(s, i) {
      IsBad(s', p, e);
    }
    if Bad(s') && !Going(s, i) {
      var q :| 0 <= q < |s'.acts| && LetDown(s', q);
      if s'.acts[q].Allocated? && s'.acts[q].i < |s'.disk| && Going(s', s'.acts[q].i) {
        AllocatedBad(s, q);
      } else {
        var d :| 0 <= d < |s'.cache| && Relies(s', q, d) && Going(s', s'.cache[d].inum);
        IsBad(s, q, d);
      }
    }
  }

  /** A name that counts leads to an inode that stays. */
  lemma NamedStays(s: State, i: nat)
    requires Inv(s) && i < |s.disk| && s.names[i] > 0
    ensures !Going(s, i)
  {
    if p :| 0 <= p < |s.acts| && FreesInode(s, s.acts[p], i) {
      assert ActInv(s, p);
      OwnerHolds(s, p, s.acts[p].e);
    }
  }

  // ---- The look of iput ----

  /** iput goes on to free: that lets down those who have allocated the inode
      meanwhile, and nobody else. */
  lemma LookStep(s: State, p: nat)
    requires Inv(s) && Enabled(s, PutLook(p)) && !Bad(s)
    ensures Inv(Do(s, PutLook(p)))
    ensures Bad(Do(s, PutLook(p))) <==> Spoils(s, PutLook(p))
  {
    var s' := Do(s, PutLook(p));
    StepInv(s, PutLook(p));
    var e := s.acts[p].e;
    var i := s.cache[e].inum;
    assert ActInv(s, p) && EntryInv(s, e);
    assert Relies(s, p, e);
    assert !Going(s, i) by {
      if Going(s, i) { IsBad(s, p, e); }
    }
    forall j: nat | j < |s.disk| ensures Going(s', j) <==> Going(s, j) || (j == i && Last(s, e)) {
      LookGoing(s, p, j);
    }
    forall q: nat, d: nat | d < |s.cache| && Relies(s', q, d)
      ensures Relies(s, q, d) && (Last(s, e) ==> s.cache[d].inum != i)
    {
      LookRelies(s, p, q, d);
    }
    hide Going, Relies;
    if Bad(s') && !Spoils(s, PutLook(p)) {
      var q :| 0 <= q < |s'.acts| && LetDown(s', q);
      if s'.acts[q].Allocated? && s'.acts[q].i < |s'.disk| && Going(s', s'.acts[q].i) {
        AllocatedBad(s, q);
      } else {
        var d :| 0 <= d < |s'.cache| && Relies(s', q, d) && Going(s', s'.cache[d].inum);
        IsBad(s, q, d);
      }
    }
    if Spoils(s, PutLook(p)) {
      var q :| 0 <= q < |s.acts| && s.acts[q] == Allocated(i);
      AllocatedBad(s', q);
    }
  }

  lemma LookGoing(s: State, p: nat, j: nat)
    requires Inv(s) && Enabled(s, PutLook(p)) && j < |s.disk|
    ensures Shape(Do(s, PutLook(p)))
    ensures Going(Do(s, PutLook(p)), j) <==> Going(s, j) || (j == s.cache[s.acts[p].e].inum && Last(s, s.acts[p].e))
  {
    var s' := Do(s, PutLook(p));
    if Last(s, s.acts[p].e) {
      assert FreesInode(s', s'.acts[p], s.cache[s.acts[p].e].inum);
    }
    if q :| 0 <= q < |s.acts| && FreesInode(s, s.acts[q], j) {
      assert FreesInode(s', s'.acts[q], j);
    }
    if q :| 0 <= q < |s'.acts| && FreesInode(s', s'.acts[q], j) && q != p {
      assert FreesInode(s, s.acts[q], j);
    }
  }

  lemma OneElement(m: multiset<nat>, p: nat, q: nat)
    requires |m| == 1 && p in m && q in m
    ensures p == q
  {
    var rest := m - multiset{p};
    assert m == rest + multiset{p};
    assert |rest| == 0;
    assert q != p ==> q in rest;
  }

  lemma LookRelies(s: State, p: nat, q: nat, d: nat)
    requires Inv(s) && Enabled(s, PutLook(p)) && d < |s.cache| && Relies(Do(s, PutLook(p)), q, d)
    ensures Relies(s, q, d) && (Last(s, s.acts[p].e) ==> s.cache[d].inum != s.cache[s.acts[p].e].inum)
  {
    var e := s.acts[p].e;
    assert ActInv(s, p) && EntryInv(s, e);
    assert p in s.cache[e].holders;
    OwnerHolds(s, q, d);
    if Last(s, e) && d == e {
      OneElement(s.cache[e].holders, p, q);
    }
  }

  /** A process comes to be let down in two ways only. */
  lemma BadExactly(s: State, t: Step)
    requires Inv(s) && Enabled(s, t) && !Bad(s)
    ensures Inv(Do(s, t)) && (Bad(Do(s, t)) <==> Spoils(s, t))
  {
    match t
    case Alloc(p, i) => AllocStep(s, p, i);
    case GetAllocated(p, e) =>
      GotStep(s, p, s.acts[p].i, e);
      if Going(s, s.acts[p].i) { AllocatedBad(s, p); }
    case Lookup(p, i, e) =>
      GotStep(s, p, i, e);
      NamedStays(s, i);
    case LookupStale(p, i, e) => GotStep(s, p, i, e);
    case PutLook(p) => LookStep(s, p);
    case PutFree(_) | PutForget(_) => FreeStep(s, t);
    case PutDrop(p) => DropStep(s, p);
    case _ => PlainStep(s, t);
  }

  // ---- Runs ----

  /** Nobody uses the cache yet. */
  predicate Init(s: State) {
    && Shape(s) && LinksCount(s) && (forall i | 0 <= i < |s.stale| :: s.stale[i] == 0)
    && (forall e | 0 <= e < |s.cache| ::
          s.cache[e].ref == 0 && s.cache[e].holders == multiset{} && s.cache[e].lock == None)
    && (forall p | 0 <= p < |s.acts| :: s.acts[p].Calm?)
  }

  predicate IsRun(run: seq<State>, steps: seq<Step>) {
    && |run| == |steps| + 1 && Init(run[0])
    && forall k | 0 <= k < |steps| :: Shape(run[k]) && Enabled(run[k], steps[k]) && run[k + 1] == Do(run[k], steps[k])
  }

  lemma InitGood(s: State)
    requires Init(s)
    ensures Inv(s) && !Bad(s)
  {
  }

  lemma {:induction false} RunInv(run: seq<State>, steps: seq<Step>, k: nat)
    requires IsRun(run, steps) && k < |run|
    ensures Inv(run[k])
  {
    hide Init, Inv, Enabled, Do;
    if k == 0 {
      InitGood(run[0]);
    } else {
      RunInv(run, steps, k - 1);
      StepInv(run[k - 1], steps[k - 1]);
    }
  }

  /** In every run each inode has at most one entry with references, and an entry
      counts its references. */
  lemma OneEntryEach(run: seq<State>, steps: seq<Step>, k: nat, d: nat, e: nat)
    requires IsRun(run, steps) && k < |run| && d < |run[k].cache| && e < |run[k].cache|
    requires run[k].cache[d].ref > 0 && run[k].cache[e].ref > 0 && run[k].cache[d].inum == run[k].cache[e].inum
    ensures d == e && run[k].cache[e].ref == |run[k].cache[e].holders|
  {
    RunInv(run, steps, k);
    assert EntryInv(run[k], e);
  }

  /** Nobody is let down in a run exactly when no step of it spoils. */
  lemma NobodyLetDownExactly(run: seq<State>, steps: seq<Step>)
    requires IsRun(run, steps)
    ensures (forall k | 0 <= k < |run| :: Shape(run[k]) && !Bad(run[k]))
       <==> (forall k | 0 <= k < |steps| :: !Spoils(run[k], steps[k]))
  {
    hide Init, Inv, Enabled, Do, Bad, Spoils, Shape;
    if forall k | 0 <= k < |run| :: Shape(run[k]) && !Bad(run[k]) {
      forall k | 0 <= k < |steps| ensures !Spoils(run[k], steps[k]) {
        RunInv(run, steps, k);
        BadExactly(run[k], steps[k]);
        assert !Bad(run[k]) && !Bad(run[k + 1]);
      }
    }
    if forall k | 0 <= k < |steps| :: !Spoils(run[k], steps[k]) {
      forall k: nat | k < |run| ensures Shape(run[k]) && !Bad(run[k]) {
        GoodSoFar(run, steps, k);
      }
    }
  }

  lemma {:induction false} GoodSoFar(run: seq<State>, steps: seq<Step>, k: nat)
    requires IsRun(run, steps) && k < |run| && forall j | 0 <= j < |steps| :: !Spoils(run[j], steps[j])
    ensures Shape(run[k]) && !Bad(run[k])
  {
    hide Init, Inv, Enabled, Do, Bad, Spoils;
    RunInv(run, steps, k);
    InvShape(run[k]);
    if k == 0 {
      InitGood(run[0]);
    } else {
      GoodSoFar(run, steps, k - 1);
      RunInv(run, steps, k - 1);
      BadExactly(run[k - 1], steps[k - 1]);
    }
  }

  // ---- Without `..` of removed directories ----

  predicate IsAllocated(s: State, q: nat, i: nat) {
    q < |s.acts| && s.acts[q] == Allocated(i)
  }

  /** An inode that is being allocated has no links, and nobody else has it. */
  ghost predicate Fresh(s: State)
    requires Shape(s)
  {
    && (forall q | 0 <= q < |s.acts| && s.acts[q].Allocated? ::
          s.acts[q].i < |s.disk| && s.disk[s.acts[q].i] == Dinode(false, 0))
    && (forall q, r | 0 <= q < r < |s.acts| && s.acts[q].Allocated? :: s.acts[r] != s.acts[q])
    && (forall q, p: nat, e: nat | 0 <= q < |s.acts| && s.acts[q].Allocated? && e < |s.cache| && Relies(s, p, e) ::
          s.cache[e].inum != s.acts[q].i)
  }

  /** A step that allocates nothing and finds nothing. */
  predicate Onward(s: State, s': State)
    requires Shape(s)
  {
    && Shape(s') && |s'.acts| == |s.acts| && |s'.disk| == |s.disk| && |s'.cache| == |s.cache|
    && (forall q | 0 <= q < |s.acts| && s'.acts[q].Allocated? :: s.acts[q] == s'.acts[q])
    && (forall q | 0 <= q < |s.acts| && s.acts[q].Allocated? && s.acts[q].i < |s.disk| ::
          s'.disk[s.acts[q].i] == s.disk[s.acts[q].i])
  }

  ghost predicate NoNewReliance(s: State, s': State) {
    forall p: nat, e: nat | e < |s'.cache| && Relies(s', p, e) ::
      e < |s.cache| && s'.cache[e].inum == s.cache[e].inum && exists q :: Relies(s, q, e)
  }

  lemma FreshOnward(s: State, s': State)
    requires Shape(s) && Fresh(s) && Onward(s, s') && NoNewReliance(s, s')
    ensures Fresh(s')
  {
    hide Relies;
  }

  lemma PlainReliance(s: State, t: Step)
    requires Shape(s) && Enabled(s, t) && Plain(t)
    ensures NoNewReliance(s, Do(s, t))
  {
    var s' := Do(s, t);
    forall p: nat, e: nat | e < |s'.cache| && Relies(s', p, e)
      ensures e < |s.cache| && s'.cache[e].inum == s.cache[e].inum && exists q :: Relies(s, q, e)
    {
      PlainRelies(s, t, p, e);
      SamePlaces(s, t, e);
    }
  }

  lemma SamePlaces(s: State, t: Step, e: nat)
    requires Shape(s) && Enabled(s, t) && Plain(t)
    ensures |Do(s, t).cache| == |s.cache| && (e < |s.cache| ==> Do(s, t).cache[e].inum == s.cache[e].inum)
  {
  }

  lemma FreshPlain(s: State, t: Step)
    requires Inv(s) && Enabled(s, t) && !Bad(s) && Fresh(s) && Plain(t)
    ensures Shape(Do(s, t)) && Fresh(Do(s, t))
  {
    PlainReliance(s, t);
    StepInv(s, t);
    if t.Raise? || t.Lower? {
      assert Relies(s, t.p, t.e) by {
        OwnerHolds(s, t.p, t.e);
      }
    }
    hide Relies, Bad, OneEntry, LinksCount, EntryInv, ActInv, NoNewReliance;
    FreshOnward(s, Do(s, t));
  }

  lemma FreshPut(s: State, t: Step)
    requires Inv(s) && Enabled(s, t) && !Bad(s) && Fresh(s)
    requires t.PutFree? || t.PutForget? || t.PutDrop? || t.PutLook?
    ensures Shape(Do(s, t)) && Fresh(Do(s, t)) && !Spoils(s, t)
  {
    var s' := Do(s, t);
    StepInv(s, t);
    assert ActInv(s, t.p);
    if t.PutFree? || t.PutLook? {
      forall q: nat | q < |s.acts| && s.acts[q].Allocated? ensures s.acts[q].i != s.cache[s.acts[t.p].e].inum {
        if t.PutFree? && s.acts[q].i == s.cache[s.acts[t.p].e].inum {
          assert FreesInode(s, s.acts[t.p], s.acts[q].i);
          AllocatedBad(s, q);
        }
        if t.PutLook? {
          OwnerHolds(s, t.p, s.acts[t.p].e);
          assert Relies(s, t.p, s.acts[t.p].e);
        }
      }
    }
    forall p: nat, e: nat | e < |s'.cache| && Relies(s', p, e)
      ensures e < |s.cache| && s'.cache[e].inum == s.cache[e].inum && exists q :: Relies(s, q, e)
    {
      assert Relies(s, p, e);
    }
    hide Relies, Bad, OneEntry, LinksCount, EntryInv, ActInv;
    FreshOnward(s, s');
  }

  lemma FreshAlloc(s: State, p: nat, i: nat)
    requires Inv(s) && Enabled(s, Alloc(p, i)) && !Bad(s) && Fresh(s)
    ensures Shape(Do(s, Alloc(p, i))) && Fresh(Do(s, Alloc(p, i)))
  {
    var s' := Do(s, Alloc(p, i));
    forall q: nat, e: nat | e < |s.cache| && Relies(s', q, e) ensures Relies(s, q, e) && s.cache[e].inum != i {
      assert Relies(s, q, e);
      if s.cache[e].inum == i {
        IsBad(s, q, e);
      }
    }
    hide Relies, Bad, Inv;
  }

  lemma FreshGot(s: State, p: nat, i: nat, e: nat)
    requires Inv(s) && Fresh(s) && p < |s.acts| && (s.acts[p].Calm? || s.acts[p] == Allocated(i)) && CanGet(s, i, e)
    requires s.acts[p].Calm? ==> s.names[i] > 0
    ensures Shape(Got(s, p, i, e)) && Fresh(Got(s, p, i, e))
  {
    GotRelies(s, p, i, e);
    GotInv(s, p, i, e);
    var s' := Got(s, p, i, e);
    assert s'.disk == s.disk;
    hide Relies, Got, CanGet, OneEntry, EntryInv, ActInv;
    forall q | 0 <= q < |s.acts| && s'.acts[q].Allocated?
      ensures s.acts[q] == s'.acts[q] && q != p && s.acts[q].i != i
    {
    }
  }

  lemma FreshStep(s: State, t: Step)
    requires Inv(s) && Enabled(s, t) && !Bad(s) && Fresh(s) && !t.LookupStale?
    ensures Shape(Do(s, t)) && Fresh(Do(s, t)) && !Spoils(s, t)
  {
    match t
    case Alloc(p, i) => FreshAlloc(s, p, i);
    case GetAllocated(p, e) => FreshGot(s, p, s.acts[p].i, e);
    case Lookup(p, i, e) => FreshGot(s, p, i, e);
    case PutLook(_) | PutFree(_) | PutForget(_) | PutDrop(_) => FreshPut(s, t);
    case _ => FreshPlain(s, t);
  }

  /** When no call follows `..` out of a directory that was removed, every inode
      that a process has is allocated and stays so, and ilock does not panic. */
  lemma {:induction false} NobodyLetDown(run: seq<State>, steps: seq<Step>, k: nat)
    requires IsRun(run, steps) && k < |run| && forall j | 0 <= j < |steps| :: !steps[j].LookupStale?
    ensures Inv(run[k]) && !Bad(run[k]) && Fresh(run[k])
  {
    RunInv(run, steps, k);
    hide Inv, Enabled, Do, Bad;
    if k == 0 {
      InitGood(run[0]);
    } else {
      NobodyLetDown(run, steps, k - 1);
      FreshStep(run[k - 1], steps[k - 1]);
      BadExactly(run[k - 1], steps[k - 1]);
    }
  }

  lemma NoPanic(s: State, t: Step)
    requires Inv(s) && !Bad(s)
    ensures !Panics(s, t)
  {
    if Panics(s, t) {
      assert Relies(s, t.p, t.e);
      IsBad(s, t.p, t.e);
    }
  }

  // ---- When the last put gives an inode back ----

  /** `p` is somewhere in iput of entry `e`. */
  predicate PutsEntry(s: State, p: nat, e: nat) {
    p < |s.acts| && !s.acts[p].Calm? && !s.acts[p].Allocated? && s.acts[p].e == e
  }

  /** No two processes are in iput of one entry. */
  ghost predicate PutsApart(s: State) {
    forall p: nat, q: nat, e: nat | PutsEntry(s, p, e) && PutsEntry(s, q, e) :: p == q
  }

  /** A put whose process has locked the inode before. */
  predicate PutRead(s: State, t: Step)
    requires Shape(s) && Enabled(s, t)
  {
    t.PutLook? ==> s.cache[s.acts[t.p].e].valid
  }

  /** Some process is between the two halves of ialloc of inode `i`. */
  predicate Pending(s: State, i: nat) {
    exists q | 0 <= q < |s.acts| :: IsAllocated(s, q, i)
  }

  /** An inode without links is allocated, and nobody is about to have it. */
  predicate Unlinked(s: State, i: nat) {
    i < |s.disk| && s.disk[i] == Dinode(false, 0) && !Pending(s, i)
  }

  /** The last reference to such an inode goes. */
  predicate Loses(s: State, t: Step)
    requires Shape(s) && Enabled(s, t)
  {
    t.PutDrop? && var c := s.cache[s.acts[t.p].e]; c.ref == 1 && Unlinked(s, c.inum)
  }

  /** Whoever has decided not to free, or has freed: there is a link, or another
      reference, or the inode is free or somebody else's. */
  predicate Left(s: State, p: nat)
    requires Shape(s) && p < |s.acts|
  {
    (s.acts[p].Freed? || s.acts[p].Passing? || s.acts[p].Leaving?) && s.acts[p].e < |s.cache| ==>
      s.cache[s.acts[p].e].ref >= 2 || !Unlinked(s, s.cache[s.acts[p].e].inum)
  }

  lemma TwoHolders(s: State, p: nat, q: nat, e: nat)
    requires Inv(s) && Holds(s, p, e) && Holds(s, q, e) && p != q
    ensures s.cache[e].ref >= 2
  {
    assert EntryInv(s, e);
    if s.cache[e].ref == 1 {
      OneElement(s.cache[e].holders, p, q);
    }
    OwnerHolds(s, p, e);
  }

  lemma PutHolds(s: State, p: nat, e: nat)
    requires Inv(s) && PutsEntry(s, p, e)
    ensures Holds(s, p, e) && s.cache[e].ref > 0
  {
    assert ActInv(s, p);
    OwnerHolds(s, p, e);
  }

  /** The steps of the put itself. */
  lemma LeftOwn(s: State, t: Step, p: nat)
    requires Inv(s) && Enabled(s, t) && PutRead(s, t) && p < |s.acts| && Left(s, p)
    requires (t.PutLook? || t.PutFree? || t.PutForget? || t.PutUnlock? || t.PutDrop?) && t.p == p
    ensures Shape(Do(s, t)) && Left(Do(s, t), p)
  {
    var s', e := Do(s, t), s.acts[p].e;
    assert ActInv(s, p) && EntryInv(s, e);
    OwnerHolds(s, p, e);
    assert s'.cache[e].inum == s.cache[e].inum;
    if q :| 0 <= q < |s.acts| && IsAllocated(s, q, s.cache[e].inum) {
      assert IsAllocated(s', q, s.cache[e].inum);
    }
  }

  lemma LeftAlloc(s: State, t: Step, p: nat)
    requires Inv(s) && Enabled(s, t) && p < |s.acts| && Left(s, p)
    requires t.Alloc? || t.GetAllocated? || t.Lookup? || t.LookupStale?
    ensures Shape(Do(s, t)) && Left(Do(s, t), p)
  {
    var s', e := Do(s, t), if s.acts[p].Calm? || s.acts[p].Allocated? then 0 else s.acts[p].e;
    if PutsEntry(s, p, e) {
      PutHolds(s, p, e);
      assert s'.cache[e].inum == s.cache[e].inum && s'.cache[e].ref >= s.cache[e].ref;
      var i := s.cache[e].inum;
      if t.Alloc? && t.i == i {
        assert IsAllocated(s', t.p, i);
      } else if q :| 0 <= q < |s.acts| && IsAllocated(s, q, i) {
        assert q == t.p || IsAllocated(s', q, i);
        assert q == t.p ==> s'.cache[e].ref >= 2;
      }
    }
  }

  lemma LeftLinks(s: State, t: Step, p: nat)
    requires Inv(s) && Enabled(s, t) && p < |s.acts| && Left(s, p) && (t.Raise? || t.Lower?)
    ensures Shape(Do(s, t)) && Left(Do(s, t), p)
  {
    var s', e := Do(s, t), if s.acts[p].Calm? || s.acts[p].Allocated? then 0 else s.acts[p].e;
    if PutsEntry(s, p, e) {
      PutHolds(s, p, e);
      OwnerHolds(s, t.p, t.e);
      if e == t.e {
        TwoHolders(s, p, t.p, e);
      }
      var i := s.cache[e].inum;
      if q :| 0 <= q < |s.acts| && IsAllocated(s, q, i) {
        assert IsAllocated(s', q, i);
      }
    }
  }

  /** Steps that change no link count and find nothing, or belong to another put. */
  predicate Elsewhere(t: Step, p: nat) {
    || t.Dup? || t.Lock? || t.Unlock? || t.Enter? || t.Clear? || t.Remove? || t.ClearStale? || t.PutLock?
    || ((t.PutLook? || t.PutFree? || t.PutForget? || t.PutUnlock? || t.PutDrop?) && t.p != p)
  }

  lemma ElsewhereUnlinked(s: State, t: Step, p: nat, i: nat)
    requires Shape(s) && Enabled(s, t) && Elsewhere(t, p) && i < |s.disk| && Unlinked(Do(s, t), i)
    ensures Unlinked(s, i)
  {
    var s' := Do(s, t);
    if q :| 0 <= q < |s.acts| && IsAllocated(s, q, i) {
      assert IsAllocated(s', q, i);
    }
  }

  lemma ElsewhereEntry(s: State, t: Step, p: nat, e: nat)
    requires Shape(s) && Enabled(s, t) && Elsewhere(t, p) && p < |s.acts| && PutsEntry(s, p, e) && e < |s.cache|
    requires t.PutDrop? ==> s.acts[t.p].e != e
    ensures Shape(Do(s, t))
    ensures var s' := Do(s, t);
      |s'.acts| == |s.acts| && s'.acts[p] == s.acts[p] && |s'.cache| == |s.cache|
      && s'.cache[e].inum == s.cache[e].inum && s'.cache[e].ref >= s.cache[e].ref
  {
  }

  lemma ElsewhereCalm(s: State, t: Step, p: nat)
    requires Shape(s) && Enabled(s, t) && Elsewhere(t, p) && p < |s.acts| && (s.acts[p].Calm? || s.acts[p].Allocated?)
    ensures Shape(Do(s, t)) && p < |Do(s, t).acts| && Left(Do(s, t), p)
  {
  }

  lemma LeftOthers(s: State, t: Step, p: nat)
    requires Inv(s) && Enabled(s, t) && PutsApart(s) && p < |s.acts| && Left(s, p) && Elsewhere(t, p)
    ensures Shape(Do(s, t)) && p < |Do(s, t).acts| && Left(Do(s, t), p)
  {
    if s.acts[p].Calm? || s.acts[p].Allocated? {
      ElsewhereCalm(s, t, p);
    } else {
      var e := s.acts[p].e;
      PutHolds(s, p, e);
      assert PutsEntry(s, p, e) && (t.PutDrop? && s.acts[t.p].e == e ==> PutsEntry(s, t.p, e));
      ElsewhereEntry(s, t, p, e);
      hide Do, Enabled, Inv, Unlinked;
      if Unlinked(Do(s, t), s.cache[e].inum) {
        ElsewhereUnlinked(s, t, p, s.cache[e].inum);
      }
    }
  }

  lemma LeftPut(s: State, t: Step, p: nat)
    requires Inv(s) && Enabled(s, t) && PutsApart(s) && PutRead(s, t) && p < |s.acts| && Left(s, p)
    requires t.PutLook? || t.PutFree? || t.PutForget? || t.PutUnlock? || t.PutDrop?
    ensures Shape(Do(s, t)) && Left(Do(s, t), p)
  {
    if t.p == p {
      LeftOwn(s, t, p);
    } else {
      LeftOthers(s, t, p);
    }
  }

  lemma LeftStep(s: State, t: Step, p: nat)
    requires Inv(s) && Enabled(s, t) && PutsApart(s) && PutRead(s, t) && p < |s.acts| && Left(s, p)
    ensures Shape(Do(s, t)) && p < |Do(s, t).acts| && Left(Do(s, t), p)
  {
    match t
    case Alloc(_, _) | GetAllocated(_, _) | Lookup(_, _, _) | LookupStale(_, _, _) => LeftAlloc(s, t, p);
    case Raise(_, _) | Lower(_, _) => LeftLinks(s, t, p);
    case PutLook(_) | PutFree(_) | PutForget(_) | PutUnlock(_) | PutDrop(_) => LeftPut(s, t, p);
    case _ => LeftOthers(s, t, p);
  }

  /** Each inode without links is given back with its last reference when no two
      puts of one inode overlap, and every put has its inode read. */
  lemma NothingLost(run: seq<State>, steps: seq<Step>, k: nat)
    requires IsRun(run, steps) && k < |steps|
    requires forall j | 0 <= j <= k :: PutsApart(run[j]) && PutRead(run[j], steps[j])
    ensures !Loses(run[k], steps[k])
  {
    RunInv(run, steps, k);
    if steps[k].PutDrop? {
      LeftInRun(run, steps, k, steps[k].p);
    }
  }

  lemma {:induction false} LeftInRun(run: seq<State>, steps: seq<Step>, k: nat, p: nat)
    requires IsRun(run, steps) && k < |run| && p < |run[k].acts|
    requires forall j | 0 <= j < k :: PutsApart(run[j]) && PutRead(run[j], steps[j])
    ensures Shape(run[k]) && Left(run[k], p)
  {
    hide Inv, Enabled, Do, PutsApart, PutRead;
    if k == 0 {
      assert Shape(run[0]);
    } else {
      RunInv(run, steps, k - 1);
      SameProcesses(run[k - 1], steps[k - 1]);
      LeftInRun(run, steps, k - 1, p);
      hide Left, Init;
      assert PutsApart(run[k - 1]) && PutRead(run[k - 1], steps[k - 1]);
      LeftStep(run[k - 1], steps[k - 1], p);
    }
  }

  lemma SameProcesses(s: State, t: Step)
    requires Shape(s) && Enabled(s, t)
    ensures |Do(s, t).acts| == |s.acts|
  {
  }

  // ---- Two runs ----

  lemma Follow(run: seq<State>, steps: seq<Step>, t: Step, s: State) returns (run': seq<State>, steps': seq<Step>)
    requires IsRun(run, steps) && Shape(run[|steps|]) && Enabled(run[|steps|], t) && s == Do(run[|steps|], t)
    ensures IsRun(run', steps') && |steps'| == |steps| + 1 && run'[|steps'|] == s
  {
    hide Init, Enabled, Do, Shape;
    run', steps' := run + [s], steps + [t];
  }

  /** One entry of the cache, for inode 1, which has `nlink` links and `names` names. */
  function Only(free: bool, nlink: nat, names: nat, stale: nat, e: Entry, acts: seq<Act>): State {
    State([Dinode(true, 0), Dinode(free, nlink)], [0, names], [0, stale], [e], acts)
  }

  function Unused(nlink: nat): Entry {
    Entry(0, 1, false, nlink, None, multiset{})
  }

  function Used(ref: nat, nlink: nat, lock: Option<nat>, holders: multiset<nat>): Entry {
    Entry(ref, 1, true, nlink, lock, holders)
  }

  /** Inode 1 is found and locked by process 0. */
  lemma Found(acts: nat, names: nat) returns (run: seq<State>, steps: seq<Step>)
    requires 0 < acts && 0 < names
    ensures var calm := seq(acts, _ => Calm);
      IsRun(run, steps) && run[|steps|] == Only(false, names, names, 0, Used(1, names, Some(0), multiset{0}), calm)
  {
    var calm := seq<Act>(acts, _ => Calm);
    var s0 := Only(false, names, names, 0, Unused(0), calm);
    var s1 := Only(false, names, names, 0, Entry(1, 1, false, 0, None, multiset{0}), calm);
    var s2 := Only(false, names, names, 0, Used(1, names, Some(0), multiset{0}), calm);
    assert calm[0 := Calm] == calm;
    run, steps := [s0], [];
    run, steps := Follow(run, steps, Lookup(0, 1, 0), s1);
    run, steps := Follow(run, steps, Lock(0, 0), s2);
  }

  /** Both its names go, one of them the `..` of a directory that is removed. */
  lemma NamesGo(run: seq<State>, steps: seq<Step>) returns (run': seq<State>, steps': seq<Step>)
    requires IsRun(run, steps) && run[|steps|] == Only(false, 2, 2, 0, Used(1, 2, Some(0), multiset{0}), [Calm])
    ensures IsRun(run', steps') && run'[|steps'|] == Only(false, 0, 0, 1, Used(1, 0, None, multiset{0}), [Calm])
  {
    hide IsRun, Init;
    var own, one := Some(0), multiset{0};
    run', steps' := Follow(run, steps, Remove(1), Only(false, 2, 1, 1, Used(1, 2, own, one), [Calm]));
    run', steps' := Follow(run', steps', Lower(0, 0), Only(false, 1, 1, 1, Used(1, 1, own, one), [Calm]));
    run', steps' := Follow(run', steps', Clear(1), Only(false, 1, 0, 1, Used(1, 1, own, one), [Calm]));
    run', steps' := Follow(run', steps', Lower(0, 0), Only(false, 0, 0, 1, Used(1, 0, own, one), [Calm]));
    run', steps' := Follow(run', steps', Unlock(0, 0), Only(false, 0, 0, 1, Used(1, 0, None, one), [Calm]));
  }

  lemma GoesToFree(run: seq<State>, steps: seq<Step>) returns (run': seq<State>, steps': seq<Step>)
    requires IsRun(run, steps) && run[|steps|] == Only(false, 0, 0, 1, Used(1, 0, None, multiset{0}), [Calm])
    ensures IsRun(run', steps') && run'[|steps'|] == Only(true, 0, 0, 1, Used(1, 0, Some(0), multiset{0}), [Freed(0)])
  {
    hide IsRun, Init;
    var e := Used(1, 0, Some(0), multiset{0});
    run', steps' := Follow(run, steps, PutLock(0, 0), Only(false, 0, 0, 1, e, [Putting(0)]));
    run', steps' := Follow(run', steps', PutLook(0), Only(false, 0, 0, 1, e, [Freeing(0)]));
    run', steps' := Follow(run', steps', PutFree(0), Only(true, 0, 0, 1, e, [Freed(0)]));
  }

  lemma PutsAndReturns(run: seq<State>, steps: seq<Step>) returns (run': seq<State>, steps': seq<Step>)
    requires IsRun(run, steps) && run[|steps|] == Only(true, 0, 0, 1, Used(1, 0, Some(0), multiset{0}), [Freed(0)])
    ensures IsRun(run', steps')
    ensures run'[|steps'|] == Only(true, 0, 0, 1, Entry(1, 1, false, 0, None, multiset{0}), [Calm])
  {
    hide IsRun, Init;
    var e := Entry(1, 1, false, 0, None, multiset{0});
    run', steps' := Follow(run, steps, PutForget(0), Only(true, 0, 0, 1, e.(lock := Some(0)), [Passing(0, true)]));
    run', steps' := Follow(run', steps', PutUnlock(0), Only(true, 0, 0, 1, e, [Leaving(0, true)]));
    run', steps' := Follow(run', steps', PutDrop(0), Only(true, 0, 0, 1, Unused(0), [Calm]));
    run', steps' := Follow(run', steps', LookupStale(0, 1, 0), Only(true, 0, 0, 1, e, [Calm]));
  }

  /** A process in a removed directory opens `..` after that was removed as well:
      ilock finds a free inode. Inode 1 is the directory above; it counts its own
      name and the `..` of the first to go. */
  lemma DotDotPanics() returns (run: seq<State>, steps: seq<Step>, t: Step)
    ensures IsRun(run, steps) && Panics(run[|steps|], t)
  {
    hide IsRun;
    run, steps := Found(1, 2);
    assert seq<Act>(1, _ => Calm) == [Calm];
    run, steps := NamesGo(run, steps);
    run, steps := GoesToFree(run, steps);
    run, steps := PutsAndReturns(run, steps);
    t := Lock(0, 0);
  }

  /** A second process finds the inode, and its last link goes. */
  lemma LinkGoes(run: seq<State>, steps: seq<Step>) returns (run': seq<State>, steps': seq<Step>)
    requires IsRun(run, steps) && run[|steps|] == Only(false, 1, 1, 0, Used(1, 1, Some(0), multiset{0}), [Calm, Calm])
    ensures IsRun(run', steps')
    ensures run'[|steps'|] == Only(false, 0, 0, 0, Used(2, 0, None, multiset{0, 1}), [Calm, Calm])
  {
    hide IsRun, Init;
    var own, two := Some(0), multiset{0, 1};
    assert multiset{0} + multiset{1} == two;
    var s := Only(false, 1, 1, 0, Used(2, 1, own, two), [Calm, Calm]);
    run', steps' := Follow(run, steps, Lookup(1, 1, 0), s);
    run', steps' := Follow(run', steps', Clear(1), Only(false, 1, 0, 0, Used(2, 1, own, two), [Calm, Calm]));
    run', steps' := Follow(run', steps', Lower(0, 0), Only(false, 0, 0, 0, Used(2, 0, own, two), [Calm, Calm]));
    run', steps' := Follow(run', steps', Unlock(0, 0), Only(false, 0, 0, 0, Used(2, 0, None, two), [Calm, Calm]));
  }

  /** A put that sees another reference, up to its unlock. */
  lemma PutPasses(run: seq<State>, steps: seq<Step>, p: nat, acts: seq<Act>)
    returns (run': seq<State>, steps': seq<Step>)
    requires |acts| == 2 && p < 2 && acts[p] == Calm
    requires IsRun(run, steps) && run[|steps|] == Only(false, 0, 0, 0, Used(2, 0, None, multiset{0, 1}), acts)
    ensures IsRun(run', steps')
    ensures run'[|steps'|] == Only(false, 0, 0, 0, Used(2, 0, None, multiset{0, 1}), acts[p := Leaving(0, false)])
  {
    hide IsRun, Init;
    var e := Used(2, 0, Some(p), multiset{0, 1});
    run', steps' := Follow(run, steps, PutLock(p, 0), Only(false, 0, 0, 0, e, acts[p := Putting(0)]));
    run', steps' := Follow(run', steps', PutLook(p), Only(false, 0, 0, 0, e, acts[p := Passing(0, false)]));
    var s := Only(false, 0, 0, 0, e.(lock := None), acts[p := Leaving(0, false)]);
    run', steps' := Follow(run', steps', PutUnlock(p), s);
  }

  /** Two processes put an inode that has lost its last link: each sees the other's
      reference, both go, and nobody gives the inode back. */
  lemma OverlapLoses() returns (run: seq<State>, steps: seq<Step>, t: Step)
    ensures IsRun(run, steps) && Shape(run[|steps|]) && Enabled(run[|steps|], t) && Loses(run[|steps|], t)
  {
    hide IsRun;
    run, steps := Found(2, 1);
    assert seq<Act>(2, _ => Calm) == [Calm, Calm];
    run, steps := LinkGoes(run, steps);
    run, steps := PutPasses(run, steps, 0, [Calm, Calm]);
    run, steps := PutPasses(run, steps, 1, [Leaving(0, false), Calm]);
    assert multiset{0, 1} - multiset{0} == multiset{1};
    var s := Only(false, 0, 0, 0, Used(1, 0, None, multiset{1}), [Calm, Leaving(0, false)]);
    run, steps := Follow(run, steps, PutDrop(0), s);
    t := PutDrop(1);
  }
}
