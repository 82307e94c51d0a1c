/** The block cache (`bio.c`) over the in-memory disk driver (`memide.c`).
    Every method is one critical section, so what they all keep holds in every
    interleaving of any number of processes. */
module BufferCache {
  import opened Disk
  import opened Wrappers

  const NBUF: nat := 30
  const HEAD: nat := NBUF   // the list head, after the buffers

  /** A buffer; `holder` is the process holding its sleep lock, 0 when free. */
  datatype Buf = Buf(valid: bool, dirty: bool, dev: nat, blockno: nat, refcnt: nat, holder: nat,
                     data: Block, prev: nat, next: nat)

  // ---- The ring ----

  /** `next` and `prev` run through `ring`, from the head and back to it. */
  ghost predicate Linked(bufs: seq<Buf>, ring: seq<nat>) {
    && |bufs| == NBUF + 1
    && (forall i | 0 <= i < |ring| :: ring[i] < NBUF)
    && (forall i, j | 0 <= i < j < |ring| :: ring[i] != ring[j])
    && (forall i | 0 <= i <= |ring| ::
          && bufs[Cycle(ring)[i]].next == Cycle(ring)[i + 1]
          && bufs[Cycle(ring)[i + 1]].prev == Cycle(ring)[i])
  }

  ghost function Cycle(ring: seq<nat>): seq<nat> {
    [HEAD] + ring + [HEAD]
  }

  /** The same buffers apart from their links. */
  predicate SameButLinks(a: Buf, b: Buf) {
    a.(prev := 0, next := 0) == b.(prev := 0, next := 0)
  }

  function SetNext(bufs: seq<Buf>, b: nat, n: nat): seq<Buf>
    requires b < |bufs|
  {
    bufs[b := bufs[b].(next := n)]
  }

  function SetPrev(bufs: seq<Buf>, b: nat, p: nat): seq<Buf>
    requires b < |bufs|
  {
    bufs[b := bufs[b].(prev := p)]
  }

  /** Taking the buffer at position `k` out of the ring. */
  lemma Unlink(bufs: seq<Buf>, ring: seq<nat>, k: nat)
    requires Linked(bufs, ring) && k < |ring|
    ensures var b := ring[k];
      && bufs[b].next <= HEAD && bufs[b].prev <= HEAD
      && var out := SetPrev(bufs, bufs[b].next, bufs[b].prev);
      && Linked(SetNext(out, out[b].prev, out[b].next), ring[..k] + ring[k + 1..])
  {
    var b := ring[k];
    var c := Cycle(ring);
    assert c[k + 1] == b && bufs[c[k + 1]].next == c[k + 2] && bufs[c[k + 1]].prev == c[k];
    var out := SetPrev(bufs, c[k + 2], c[k]);
    assert out[b].prev == c[k] && out[b].next == c[k + 2] by {
      assert c[k + 2] != b;
    }
    var out' := SetNext(out, c[k], c[k + 2]);
    var ring' := ring[..k] + ring[k + 1..];
    var c' := Cycle(ring');
    assert forall i | 0 <= i <= k :: c'[i] == c[i];
    assert forall i | k + 1 <= i <= |ring'| + 1 :: c'[i] == c[i + 1];
    forall i | 0 <= i <= |ring'| ensures out'[c'[i]].next == c'[i + 1] && out'[c'[i + 1]].prev == c'[i] {
      if i < k {
        assert bufs[c[i]].next == c[i + 1] && bufs[c[i + 1]].prev == c[i];
      } else if i > k {
        assert bufs[c[i + 1]].next == c[i + 2] && bufs[c[i + 2]].prev == c[i + 1];
      }
    }
  }

  /** Putting a buffer in at the front. */
  lemma PushFront(bufs: seq<Buf>, ring: seq<nat>, b: nat)
    requires Linked(bufs, ring) && b < NBUF && b !in ring
    ensures bufs[HEAD].next <= HEAD && bufs[HEAD].next != b
    ensures var b1 := SetPrev(SetNext(bufs, b, bufs[HEAD].next), b, HEAD);
      Linked(SetNext(SetPrev(b1, b1[HEAD].next, b), HEAD, b), [b] + ring)
  {
    var c := Cycle(ring);
    var first := c[1];
    assert bufs[c[0]].next == c[1];
    var b1 := SetPrev(SetNext(bufs, b, first), b, HEAD);
    var out := SetNext(SetPrev(b1, first, b), HEAD, b);
    var c' := Cycle([b] + ring);
    assert c'[0] == HEAD && c'[1] == b && forall i | 1 <= i <= |ring| + 1 :: c'[i + 1] == c[i];
    forall i | 0 <= i <= |ring| + 1 ensures out[c'[i]].next == c'[i + 1] && out[c'[i + 1]].prev == c'[i] {
      if i > 1 {
        assert bufs[c[i - 1]].next == c[i] && bufs[c[i]].prev == c[i - 1];
      }
    }
  }

  /** Every buffer is in the ring. */
  ghost predicate Complete(ring: seq<nat>) {
    forall b | 0 <= b < NBUF :: b in ring
  }

  /** The ring runs from the buffer released last to the one released first. */
  ghost predicate ByRecency(ring: seq<nat>, last: seq<nat>, clock: nat) {
    && |last| == NBUF
    && (forall i | 0 <= i < |ring| :: ring[i] < NBUF && last[ring[i]] < clock)
    && (forall i, j | 0 <= i < j < |ring| && ring[i] < NBUF && ring[j] < NBUF :: last[ring[i]] > last[ring[j]])
  }

  // ---- Contents ----

  ghost predicate Unique(bufs: seq<Buf>) {
    |bufs| == NBUF + 1 && forall a, b | 0 <= a < b < NBUF && bufs[a].dev == bufs[b].dev != 0 ::
      bufs[a].blockno != bufs[b].blockno
  }

  /** `refs[b]` are the processes between bget and the end of brelse for `b`. */
  ghost predicate Counted(bufs: seq<Buf>, refs: seq<multiset<nat>>) {
    && |bufs| == NBUF + 1 && |refs| == NBUF
    && (forall b | 0 <= b < NBUF ::
          bufs[b].refcnt == |refs[b]| && (bufs[b].holder != 0 ==> bufs[b].holder in refs[b]))
  }

  predicate Caches(b: Buf, n: nat) {
    b.dev != 0 && b.blockno == n
  }

  /** `latest[n]` is what was last put into block `n`. A buffer that was read
      holds it; only a locked buffer may differ from the disk without being
      marked dirty; what no buffer holds is on the disk. */
  ghost predicate Coherent(bufs: seq<Buf>, disk: Image, latest: Image) {
    && |bufs| == NBUF + 1 && |latest| == |disk|
    && (forall b | 0 <= b < NBUF && bufs[b].dev != 0 :: bufs[b].dev == 1 && bufs[b].blockno < |disk|)
    && (forall b | 0 <= b < NBUF && bufs[b].dirty :: bufs[b].valid)
    && (forall b | 0 <= b < NBUF && bufs[b].valid :: bufs[b].dev != 0)
    && (forall b | 0 <= b < NBUF && bufs[b].valid :: bufs[b].data == latest[bufs[b].blockno])
    && (forall b | 0 <= b < NBUF && bufs[b].valid && !bufs[b].dirty && bufs[b].holder == 0 ::
          bufs[b].data == disk[bufs[b].blockno])
    && (forall b | 0 <= b < NBUF && bufs[b].dev != 0 && !bufs[b].valid ::
          disk[bufs[b].blockno] == latest[bufs[b].blockno])
    && (forall n | 0 <= n < |disk| && (forall b | 0 <= b < NBUF :: !Caches(bufs[b], n)) :: disk[n] == latest[n])
  }

  /** A buffer bget may reuse. */
  predicate Idle(b: Buf) {
    b.refcnt == 0 && !b.dirty
  }

  function Recycled(b: Buf, dev: nat, blockno: nat): Buf {
    b.(dev := dev, blockno := blockno, valid := false, dirty := false, refcnt := 1)
  }

  /** Reusing an idle buffer loses nothing. */
  lemma RecycleKeeps(bufs: seq<Buf>, disk: Image, latest: Image, refs: seq<multiset<nat>>, b: nat, blockno: nat,
                     pid: nat)
    requires Unique(bufs) && Counted(bufs, refs) && Coherent(bufs, disk, latest)
    requires b < NBUF && Idle(bufs[b]) && blockno < |disk|
    requires forall a | 0 <= a < NBUF :: !Caches(bufs[a], blockno)
    ensures var bufs' := bufs[b := Recycled(bufs[b], 1, blockno)];
      Unique(bufs') && Counted(bufs', refs[b := refs[b] + multiset{pid}]) && Coherent(bufs', disk, latest)
  {
    var bufs' := bufs[b := Recycled(bufs[b], 1, blockno)];
    assert bufs[b].holder == 0;
    forall n | 0 <= n < |disk| && (forall a | 0 <= a < NBUF :: !Caches(bufs'[a], n)) ensures disk[n] == latest[n] {
      if !Caches(bufs[b], n) {
        assert forall a | 0 <= a < NBUF :: !Caches(bufs[a], n) by {
          forall a | 0 <= a < NBUF ensures !Caches(bufs[a], n) {
            assert a != b ==> bufs'[a] == bufs[a];
          }
        }
      }
    }
    assert forall a, c | 0 <= a < c < NBUF && bufs'[a].dev == bufs'[c].dev != 0 ::
        bufs'[a].blockno != bufs'[c].blockno by {
      forall a, c | 0 <= a < c < NBUF && bufs'[a].dev == bufs'[c].dev != 0
        ensures bufs'[a].blockno != bufs'[c].blockno
      {
        assert !Caches(bufs[a], blockno) && !Caches(bufs[c], blockno);
      }
    }
  }

  lemma TakeKeeps(bufs: seq<Buf>, bufs': seq<Buf>, disk: Image, latest: Image, refs: seq<multiset<nat>>, b: nat,
                  pid: nat)
    requires Unique(bufs) && Counted(bufs, refs) && Coherent(bufs, disk, latest) && b < NBUF
    requires bufs' == bufs[b := bufs[b].(refcnt := bufs[b].refcnt + 1)]
    ensures Unique(bufs') && Counted(bufs', refs[b := refs[b] + multiset{pid}]) && Coherent(bufs', disk, latest)
  {
    forall n | 0 <= n < |disk| && (forall a | 0 <= a < NBUF :: !Caches(bufs'[a], n)) ensures disk[n] == latest[n] {
      SameCaches(bufs, bufs', n);
    }
  }

  lemma SameCaches(bufs: seq<Buf>, bufs': seq<Buf>, n: nat)
    requires |bufs| == |bufs'| == NBUF + 1
    requires forall a | 0 <= a < NBUF :: bufs'[a].dev == bufs[a].dev && bufs'[a].blockno == bufs[a].blockno
    requires forall a | 0 <= a < NBUF :: !Caches(bufs'[a], n)
    ensures forall a | 0 <= a < NBUF :: !Caches(bufs[a], n)
  {
    forall a | 0 <= a < NBUF ensures !Caches(bufs[a], n) {
      assert !Caches(bufs'[a], n);
    }
  }

  lemma SameLinks(bufs: seq<Buf>, bufs': seq<Buf>, ring: seq<nat>)
    requires Linked(bufs, ring) && |bufs'| == |bufs|
    requires forall b | 0 <= b < |bufs| :: bufs'[b].next == bufs[b].next && bufs'[b].prev == bufs[b].prev
    ensures Linked(bufs', ring)
  {
    assert forall i | 0 <= i < |Cycle(ring)| :: Cycle(ring)[i] <= HEAD;
  }

  /** Changing what the buffer of block `n` holds, with the disk and the latest
      contents of that block. */
  lemma ContentsKeep(bufs: seq<Buf>, disk: Image, latest: Image, refs: seq<multiset<nat>>, b: nat,
                     x: Buf, stored: Block, newest: Block)
    requires Unique(bufs) && Counted(bufs, refs) && Coherent(bufs, disk, latest) && b < NBUF && bufs[b].dev != 0
    requires x.dev == bufs[b].dev && x.blockno == bufs[b].blockno && x.refcnt == bufs[b].refcnt
    requires x.holder != 0 ==> x.holder in refs[b]
    requires x.dirty ==> x.valid
    requires x.valid ==> x.data == newest && (!x.dirty && x.holder == 0 ==> x.data == stored)
    requires !x.valid ==> stored == newest
    ensures var n, bufs' := bufs[b].blockno, bufs[b := x];
      && n < |disk| && Unique(bufs') && Counted(bufs', refs)
      && Coherent(bufs', disk[n := stored], latest[n := newest])
  {
    var n, bufs' := bufs[b].blockno, bufs[b := x];
    var disk', latest' := disk[n := stored], latest[n := newest];
    forall m | 0 <= m < |disk'| && (forall a | 0 <= a < NBUF :: !Caches(bufs'[a], m)) ensures disk'[m] == latest'[m] {
      SameCaches(bufs, bufs', m);
      assert !Caches(bufs[b], m);
    }
  }

  /** Links play no part in what the buffers hold. */
  lemma LinksKeep(bufs: seq<Buf>, bufs': seq<Buf>, disk: Image, latest: Image, refs: seq<multiset<nat>>)
    requires Unique(bufs) && Counted(bufs, refs) && Coherent(bufs, disk, latest)
    requires |bufs'| == |bufs| && forall b | 0 <= b < |bufs| :: SameButLinks(bufs[b], bufs'[b])
    ensures Unique(bufs') && Counted(bufs', refs) && Coherent(bufs', disk, latest)
  {
    forall n | 0 <= n < |disk| && (forall a | 0 <= a < NBUF :: !Caches(bufs'[a], n)) ensures disk[n] == latest[n] {
      assert forall a | 0 <= a < NBUF :: !Caches(bufs[a], n) by {
        forall a | 0 <= a < NBUF ensures !Caches(bufs[a], n) {
          assert !Caches(bufs'[a], n);
        }
      }
    }
  }

  lemma NoneCaches(bufs: seq<Buf>, disk: Image, latest: Image, n: nat)
    requires Coherent(bufs, disk, latest)
    requires forall a | 0 <= a < NBUF :: !(bufs[a].dev == 1 && bufs[a].blockno == n)
    ensures forall a | 0 <= a < NBUF :: !Caches(bufs[a], n)
  {
  }

  lemma DropKeeps(bufs: seq<Buf>, disk: Image, latest: Image, refs: seq<multiset<nat>>, b: nat, pid: nat)
    requires Unique(bufs) && Counted(bufs, refs) && Coherent(bufs, disk, latest) && b < NBUF
    requires pid in refs[b] && bufs[b].holder != pid
    ensures bufs[b].refcnt > 0
    ensures var bufs' := bufs[b := bufs[b].(refcnt := bufs[b].refcnt - 1)];
      Unique(bufs') && Counted(bufs', refs[b := refs[b] - multiset{pid}]) && Coherent(bufs', disk, latest)
  {
    assert |refs[b] - multiset{pid}| == |refs[b]| - 1;
    var bufs' := bufs[b := bufs[b].(refcnt := bufs[b].refcnt - 1)];
    forall n | 0 <= n < |disk| && (forall a | 0 <= a < NBUF :: !Caches(bufs'[a], n)) ensures disk[n] == latest[n] {
      SameCaches(bufs, bufs', n);
    }
  }

  ghost predicate SameBufs(bufs: seq<Buf>, bufs': seq<Buf>) {
    |bufs'| == |bufs| && forall a | 0 <= a < |bufs| :: SameButLinks(bufs[a], bufs'[a])
  }

  lemma SameStart(bufs: seq<Buf>)
    ensures SameBufs(bufs, bufs)
  {
  }

  lemma SameStep(was: seq<Buf>, bufs: seq<Buf>, b: nat, v: nat)
    requires SameBufs(was, bufs) && b < |bufs|
    ensures SameBufs(was, SetNext(bufs, b, v)) && SameBufs(was, SetPrev(bufs, b, v))
    ensures |SetNext(bufs, b, v)| == |bufs| == |SetPrev(bufs, b, v)|
  {
  }

  lemma LinkedSize(bufs: seq<Buf>, ring: seq<nat>)
    requires Linked(bufs, ring)
    ensures |bufs| == NBUF + 1
  {
  }

  lemma Distinct(bufs: seq<Buf>, ring: seq<nat>, k: nat)
    requires Linked(bufs, ring) && k < |ring|
    ensures ring[k] !in ring[..k] + ring[k + 1..]
  {
  }

  /** The ring stays complete and in order of release. */
  lemma FrontRecency(ring: seq<nat>, last: seq<nat>, clock: nat, k: nat)
    requires ByRecency(ring, last, clock) && Complete(ring) && k < |ring|
    requires ring[k] !in ring[..k] + ring[k + 1..]
    ensures var ring' := [ring[k]] + (ring[..k] + ring[k + 1..]);
      Complete(ring') && ByRecency(ring', last[ring[k] := clock], clock + 1)
  {
    FrontComplete(ring, k);
    hide Complete;
    var b, rest := ring[k], ring[..k] + ring[k + 1..];
    var ring', last' := [b] + rest, last[b := clock];
    forall i | 0 < i < |ring'|
      ensures ring'[i] == ring[if i <= k then i - 1 else i] && ring'[i] != b
    {
      assert ring'[i] == rest[i - 1];
    }
  }

  lemma FrontComplete(ring: seq<nat>, k: nat)
    requires Complete(ring) && k < |ring|
    ensures Complete([ring[k]] + (ring[..k] + ring[k + 1..]))
  {
    var ring' := [ring[k]] + (ring[..k] + ring[k + 1..]);
    forall a | 0 <= a < NBUF ensures a in ring' {
      assert a in ring;
      var i :| 0 <= i < |ring| && ring[i] == a;
      if i < k { assert ring'[i + 1] == a; }
      if i > k { assert ring'[i] == a; }
    }
  }

  function Zeroed(): (bufs: seq<Buf>)
    ensures |bufs| == NBUF + 1
  {
    seq(NBUF + 1, b => Buf(false, false, 0, 0, 0, 0, ZeroBlock(), 0, 0))
  }

  lemma EmptyRing()
    ensures Linked(SetNext(SetPrev(Zeroed(), HEAD, HEAD), HEAD, HEAD), [])
  {
  }

  // ---- What each critical section does, and runs of them ----

  /** What the cache and the disk hold, links apart. */
  datatype State = State(bufs: seq<Buf>, disk: Image, refs: seq<multiset<nat>>, latest: Image)

  datatype Op =
    | Get(n: nat, b: nat)       // bget finds or makes buffer `b` for block `n`
    | Lock(b: nat)              // and gets its sleep lock
    | Fill(b: nat)              // and bread reads the block if need be
    | Modify(b: nat, data: Block)
    | Pin(b: nat)
    | Write(b: nat)             // bwrite
    | Unlock(b: nat)            // the two halves of brelse
    | Unref(b: nat)

  datatype Act = Act(pid: nat, op: Op)

  ghost predicate Inv(s: State) {
    Unique(s.bufs) && Counted(s.bufs, s.refs) && Coherent(s.bufs, s.disk, s.latest)
  }

  /** Process `pid` holds the lock of buffer `b`, which belongs to a block. */
  predicate Locked(s: State, pid: nat, b: nat) {
    b < NBUF < |s.bufs| && pid != 0 && s.bufs[b].holder == pid && s.bufs[b].dev != 0
    && s.bufs[b].blockno < |s.disk| == |s.latest|
  }

  ghost predicate Got(s: State, pid: nat, n: nat, b: nat, t: State) {
    && n < |s.disk| && b < NBUF == |s.refs| && |s.bufs| == NBUF + 1
    && t.disk == s.disk && t.latest == s.latest && t.refs == s.refs[b := s.refs[b] + multiset{pid}]
    && if exists a :: 0 <= a < NBUF && Caches(s.bufs[a], n)
       then Caches(s.bufs[b], n) && t.bufs == s.bufs[b := s.bufs[b].(refcnt := s.bufs[b].refcnt + 1)]
       else Idle(s.bufs[b]) && t.bufs == s.bufs[b := Recycled(s.bufs[b], 1, n)]
  }

  ghost predicate Next(s: State, a: Act, t: State) {
    match a.op
    case Get(n, b) => Got(s, a.pid, n, b, t)
    case Lock(b) =>
      && b < NBUF < |s.bufs| && b < |s.refs| && a.pid in s.refs[b] && a.pid != 0 && s.bufs[b].dev != 0
      && s.bufs[b].holder == 0 && t == s.(bufs := s.bufs[b := s.bufs[b].(holder := a.pid)])
    case Fill(b) =>
      && Locked(s, a.pid, b)
      && t == if s.bufs[b].valid then s
              else s.(bufs := s.bufs[b := s.bufs[b].(valid := true, data := s.disk[s.bufs[b].blockno])])
    case Modify(b, data) =>
      && Locked(s, a.pid, b) && s.bufs[b].valid
      && t == s.(bufs := s.bufs[b := s.bufs[b].(data := data)], latest := s.latest[s.bufs[b].blockno := data])
    case Pin(b) =>
      Locked(s, a.pid, b) && s.bufs[b].valid && t == s.(bufs := s.bufs[b := s.bufs[b].(dirty := true)])
    case Write(b) =>
      && Locked(s, a.pid, b)
      && t == s.(bufs := s.bufs[b := s.bufs[b].(valid := true, dirty := false)],
                 disk := s.disk[s.bufs[b].blockno := s.bufs[b].data],
                 latest := s.latest[s.bufs[b].blockno := s.bufs[b].data])
    case Unlock(b) =>
      && Locked(s, a.pid, b)
      && (s.bufs[b].valid && !s.bufs[b].dirty ==> s.bufs[b].data == s.disk[s.bufs[b].blockno])
      && t == s.(bufs := s.bufs[b := s.bufs[b].(holder := 0)])
    case Unref(b) =>
      && b < NBUF == |s.refs| && |s.bufs| == NBUF + 1 && a.pid in s.refs[b] && s.bufs[b].holder != a.pid
      && s.bufs[b].refcnt > 0 && t == s.(bufs := t.bufs, refs := s.refs[b := s.refs[b] - multiset{a.pid}])
      && SameBufs(t.bufs, s.bufs[b := s.bufs[b].(refcnt := s.bufs[b].refcnt - 1)])
  }

  lemma StepInv(s: State, a: Act, t: State)
    requires Inv(s) && Next(s, a, t)
    ensures Inv(t)
  {
    hide Unique, Coherent;
    match a.op
    case Get(n, b) => GetStep(s, a.pid, n, b, t);
    case Unref(b) =>
      DropKeeps(s.bufs, s.disk, s.latest, s.refs, b, a.pid);
      LinksKeep(s.bufs[b := s.bufs[b].(refcnt := s.bufs[b].refcnt - 1)], t.bufs, s.disk, s.latest, t.refs);
    case _ => HolderStep(s, a, t);
  }

  lemma GetStep(s: State, pid: nat, n: nat, b: nat, t: State)
    requires Inv(s) && Got(s, pid, n, b, t)
    ensures Inv(t)
  {
    hide Unique, Counted, Coherent;
    if exists a :: 0 <= a < NBUF && Caches(s.bufs[a], n) {
      TakeKeeps(s.bufs, t.bufs, s.disk, s.latest, s.refs, b, pid);
    } else {
      RecycleKeeps(s.bufs, s.disk, s.latest, s.refs, b, n, pid);
    }
  }

  /** Every other step changes one buffer, whose lock its process holds or gets. */
  lemma HolderStep(s: State, a: Act, t: State)
    requires Inv(s) && Next(s, a, t) && !a.op.Get? && !a.op.Unref?
    ensures Inv(t)
  {
    var b := a.op.b;
    var n := s.bufs[b].blockno;
    ContentsKeep(s.bufs, s.disk, s.latest, s.refs, b, t.bufs[b], t.disk[n], t.latest[n]);
    assert t.bufs == s.bufs[b := t.bufs[b]];
    assert t.disk == s.disk[n := t.disk[n]] && t.latest == s.latest[n := t.latest[n]] && t.refs == s.refs;
  }

  lemma HasBlock(s: State, pid: nat, b: nat)
    requires Inv(s) && b < NBUF && pid != 0 && s.bufs[b].holder == pid && s.bufs[b].dev != 0
    ensures Locked(s, pid, b) && s.bufs[b].dev == 1 && |s.bufs| == NBUF + 1 && (s.bufs[b].dirty ==> s.bufs[b].valid)
  {
  }

  lemma Filled(s: State, b: nat)
    requires Inv(s) && b < NBUF && s.bufs[b].valid
    ensures s.bufs[b].blockno < |s.latest| && s.bufs[b].data == s.latest[s.bufs[b].blockno]
  {
  }

  lemma ValidHasBlock(s: State, b: nat)
    requires Inv(s) && b < NBUF && s.bufs[b].valid
    ensures s.bufs[b].dev != 0
  {
  }

  ghost predicate IsRun(states: seq<State>, acts: seq<Act>) {
    && |states| == |acts| + 1 && Inv(states[0])
    && forall i | 0 <= i < |acts| :: Next(states[i], acts[i], states[i + 1])
  }

  lemma {:induction false} RunInv(states: seq<State>, acts: seq<Act>, i: nat)
    requires IsRun(states, acts) && i < |states|
    ensures Inv(states[i])
  {
    hide Inv, Next;
    if i > 0 {
      RunInv(states, acts, i - 1);
      StepInv(states[i - 1], acts[i - 1], states[i]);
    }
  }

  // ---- bread ----

  /** How far a process has come in its bread of block `n` in buffer `b`. */
  datatype Stage = Waiting | Holding | HasRead

  ghost predicate Reading(s: State, pid: nat, b: nat, n: nat, stage: Stage) {
    && |s.bufs| == NBUF + 1 && b < NBUF == |s.refs| && pid != 0 && n < |s.latest|
    && pid in s.refs[b] && Caches(s.bufs[b], n)
    && (!stage.Waiting? ==> s.bufs[b].holder == pid)
    && (stage.HasRead? ==> s.bufs[b].valid && s.bufs[b].data == s.latest[n])
  }

  /** A buffer with a reference is not reused, and one that is locked is changed
      by its holder only: no step of another process undoes a reader's progress. */
  lemma OthersKeep(s: State, a: Act, t: State, pid: nat, b: nat, n: nat, stage: Stage)
    requires Inv(s) && Next(s, a, t) && a.pid != pid && Reading(s, pid, b, n, stage)
    ensures Reading(t, pid, b, n, stage)
    ensures !stage.Waiting? ==> t.latest[n] == s.latest[n] && t.bufs[b].data == s.bufs[b].data
  {
    match a.op
    case Get(m, c) => OthersGet(s, a.pid, m, c, t, pid, b, n, stage);
    case Unref(c) => OthersUnref(s, a, t, pid, b, n, stage);
    case _ =>
      if a.op.b != b {
        BlockApart(s, a.op.b, b);
      }
      hide Inv;
  }

  lemma OthersGet(s: State, q: nat, m: nat, c: nat, t: State, pid: nat, b: nat, n: nat, stage: Stage)
    requires Inv(s) && Got(s, q, m, c, t) && Reading(s, pid, b, n, stage)
    ensures Reading(t, pid, b, n, stage)
    ensures !stage.Waiting? ==> t.latest[n] == s.latest[n] && t.bufs[b].data == s.bufs[b].data
  {
    hide Unique, Coherent;
    assert s.bufs[b].refcnt == |s.refs[b]| > 0;
    hide Inv, Counted;
  }

  lemma OthersUnref(s: State, a: Act, t: State, pid: nat, b: nat, n: nat, stage: Stage)
    requires a.op.Unref? && Next(s, a, t) && a.pid != pid && Reading(s, pid, b, n, stage)
    ensures Reading(t, pid, b, n, stage)
    ensures !stage.Waiting? ==> t.latest[n] == s.latest[n] && t.bufs[b].data == s.bufs[b].data
  {
    assert SameButLinks(t.bufs[b], if a.op.b == b then s.bufs[b].(refcnt := s.bufs[b].refcnt - 1) else s.bufs[b]);
  }

  lemma BlockApart(s: State, a: nat, b: nat)
    requires Inv(s) && a < NBUF && b < NBUF && a != b && s.bufs[a].dev != 0 && s.bufs[b].dev != 0
    ensures s.bufs[a].blockno != s.bufs[b].blockno
  {
    assert s.bufs[a].dev == s.bufs[b].dev == 1;
  }

  lemma {:induction false} OthersRun(states: seq<State>, acts: seq<Act>, i: nat, j: nat, pid: nat, b: nat, n: nat,
                                     stage: Stage)
    requires IsRun(states, acts) && i <= j < |states|
    requires forall t | i <= t < j :: acts[t].pid != pid
    requires Reading(states[i], pid, b, n, stage)
    ensures Reading(states[j], pid, b, n, stage)
    ensures !stage.Waiting? ==>
              states[j].latest[n] == states[i].latest[n] && states[j].bufs[b].data == states[i].bufs[b].data
    decreases j - i
  {
    hide Inv, Next;
    if i < j {
      RunInv(states, acts, j - 1);
      OthersRun(states, acts, i, j - 1, pid, b, n, stage);
      OthersKeep(states[j - 1], acts[j - 1], states[j], pid, b, n, stage);
    }
  }

  /** bread: whatever others do between a process's steps, its buffer is that of
      the block asked for and holds what was last put into the block, from the
      moment it is filled until the process does something else. */
  lemma BreadReadsLatest(states: seq<State>, acts: seq<Act>, i: nat, j: nat, k: nat, m: nat, pid: nat, n: nat, b: nat)
    requires IsRun(states, acts) && i < j < k < m < |states| && pid != 0
    requires acts[i] == Act(pid, Get(n, b)) && acts[j] == Act(pid, Lock(b)) && acts[k] == Act(pid, Fill(b))
    requires forall t | i < t < m && t != j && t != k :: acts[t].pid != pid
    ensures Reading(states[j + 1], pid, b, n, Holding) && Reading(states[m], pid, b, n, HasRead)
    ensures states[m].latest[n] == states[j + 1].latest[n]
    ensures states[m].bufs[b].data == states[m].latest[n] == states[k + 1].bufs[b].data
  {
    RunInv(states, acts, i);
    GetReads(states[i], acts[i], states[i + 1]);
    OthersRun(states, acts, i + 1, j, pid, b, n, Waiting);
    LockReads(states[j], acts[j], states[j + 1], n);
    OthersRun(states, acts, j + 1, k, pid, b, n, Holding);
    RunInv(states, acts, k);
    FillReads(states[k], acts[k], states[k + 1], n);
    OthersRun(states, acts, k + 1, m, pid, b, n, HasRead);
  }

  lemma GetReads(s: State, a: Act, t: State)
    requires Inv(s) && Next(s, a, t) && a.op.Get? && a.pid != 0
    ensures Reading(t, a.pid, a.op.b, a.op.n, Waiting)
  {
  }

  lemma LockReads(s: State, a: Act, t: State, n: nat)
    requires Next(s, a, t) && a.op.Lock? && Reading(s, a.pid, a.op.b, n, Waiting)
    ensures Reading(t, a.pid, a.op.b, n, Holding)
  {
  }

  lemma FillReads(s: State, a: Act, t: State, n: nat)
    requires Inv(s) && Next(s, a, t) && a.op.Fill? && Reading(s, a.pid, a.op.b, n, Holding)
    ensures Reading(t, a.pid, a.op.b, n, HasRead) && t.latest == s.latest
  {
  }

  class Cache {
    var bufs: seq<Buf>
    var disk: Image
    ghost var ring: seq<nat>
    ghost var refs: seq<multiset<nat>>
    ghost var latest: Image
    ghost var last: seq<nat>    // when each buffer last moved to the front
    ghost var clock: nat

    ghost predicate Valid()
      reads this
    {
      && Linked(bufs, ring) && Complete(ring) && ByRecency(ring, last, clock)
      && Unique(bufs) && Counted(bufs, refs) && Coherent(bufs, disk, latest)
    }

    ghost function S(): State
      reads this
    {
      State(bufs, disk, refs, latest)
    }

    /** The zeroed bcache, made ready by binit. */
    constructor (disk: Image)
      ensures Valid() && this.disk == disk && latest == disk
      ensures forall b | 0 <= b < NBUF :: bufs[b].dev == 0 && bufs[b].refcnt == 0
    {
      this.disk, latest := disk, disk;
      bufs := Zeroed();
      ring, refs := [], seq(NBUF, _ => multiset{});
      last, clock := seq(NBUF, i => i), 0;
      new;
      Binit();
      LinksKeep(Zeroed(), bufs, disk, latest, refs);
    }

    method Binit()
      requires bufs == Zeroed() && ring == [] && last == seq(NBUF, i => i) && clock == 0
      modifies this`bufs, this`ring, this`clock
      ensures Linked(bufs, ring) && Complete(ring) && ByRecency(ring, last, clock)
      ensures |bufs| == |Zeroed()| && forall a | 0 <= a < |bufs| :: SameButLinks(Zeroed()[a], bufs[a])
    {
      EmptyRing();
      hide Linked;
      bufs := SetNext(SetPrev(bufs, HEAD, HEAD), HEAD, HEAD);
      var b := 0;
      while b < NBUF
        invariant 0 <= b <= NBUF && clock == b
        invariant Linked(bufs, ring)
        invariant ring == seq(b, i => b - 1 - i)
        invariant |bufs| == NBUF + 1 && forall a | 0 <= a < |bufs| :: SameButLinks(Zeroed()[a], bufs[a])
      {
        PushFront(bufs, ring, b);
        bufs := SetNext(bufs, b, bufs[HEAD].next);
        bufs := SetPrev(bufs, b, HEAD);
        bufs := SetPrev(bufs, bufs[HEAD].next, b);
        bufs := SetNext(bufs, HEAD, b);
        ring := [b] + ring;
        clock := clock + 1;
        b := b + 1;
      }
      forall a | 0 <= a < NBUF ensures a in ring {
        assert ring[NBUF - 1 - a] == a;
      }
    }

    /** The first loop of bget: the buffer caching the block, or HEAD. */
    method FindCached(dev: nat, blockno: nat) returns (b: nat)
      requires Linked(bufs, ring) && Complete(ring)
      ensures b == HEAD ==> forall a | 0 <= a < NBUF :: !(bufs[a].dev == dev && bufs[a].blockno == blockno)
      ensures b != HEAD ==> b < NBUF && bufs[b].dev == dev && bufs[b].blockno == blockno
    {
      b := bufs[HEAD].next;
      assert bufs[Cycle(ring)[0]].next == Cycle(ring)[1];
      ghost var i := 0;
      while b != HEAD
        invariant 0 <= i <= |ring| && b == Cycle(ring)[i + 1]
        invariant forall j | 0 <= j < i :: !(bufs[ring[j]].dev == dev && bufs[ring[j]].blockno == blockno)
        decreases |ring| - i
      {
        if bufs[b].dev == dev && bufs[b].blockno == blockno {
          return;
        }
        i := i + 1;
        assert bufs[Cycle(ring)[i]].next == Cycle(ring)[i + 1];
        b := bufs[b].next;
      }
      forall a | 0 <= a < NBUF ensures !(bufs[a].dev == dev && bufs[a].blockno == blockno) {
        assert a in ring;
      }
    }

    /** The second loop of bget: of the idle buffers, the one released longest ago. */
    method FindIdle() returns (b: nat)
      requires Linked(bufs, ring) && Complete(ring) && ByRecency(ring, last, clock)
      ensures b == HEAD ==> forall a | 0 <= a < NBUF :: !Idle(bufs[a])
      ensures b != HEAD ==> b < NBUF && Idle(bufs[b]) && forall a | 0 <= a < NBUF && Idle(bufs[a]) :: last[b] <= last[a]
    {
      b := bufs[HEAD].prev;
      ghost var n := |ring|;
      assert bufs[Cycle(ring)[n + 1]].prev == Cycle(ring)[n];
      ghost var i := n;
      while b != HEAD
        invariant 0 <= i <= n && b == Cycle(ring)[i]
        invariant forall j | i <= j < n :: !Idle(bufs[ring[j]])
        decreases i
      {
        if bufs[b].refcnt == 0 && !bufs[b].dirty {
          break;
        }
        assert bufs[Cycle(ring)[i]].prev == Cycle(ring)[i - 1];
        b := bufs[b].prev;
        i := i - 1;
      }
      forall a | 0 <= a < NBUF && Idle(bufs[a]) ensures b != HEAD && last[b] <= last[a] {
        assert a in ring;
        var j :| 0 <= j < n && ring[j] == a;
      }
    }

    /** Finds or makes the buffer for a block of disk 1 and takes a reference;
        None is "bget: no buffers". The caller then waits for the sleep lock. */
    method BGet(pid: nat, blockno: nat) returns (r: Option<nat>)
      requires Valid() && blockno < |disk|
      modifies this`bufs, this`refs
      ensures Valid()
      ensures r.None? <==> (forall a | 0 <= a < NBUF :: !old(Caches(bufs[a], blockno)) && !old(Idle(bufs[a])))
      ensures r.None? ==> bufs == old(bufs) && refs == old(refs)
      ensures r.Some? ==> Next(old(S()), Act(pid, Get(blockno, r.value)), S())
      ensures r.Some? && (forall a | 0 <= a < NBUF :: !old(Caches(bufs[a], blockno))) ==>
                forall a | 0 <= a < NBUF && old(Idle(bufs[a])) :: last[r.value] <= last[a]
    {
      hide ByRecency, Linked, Complete, Unique, Coherent;
      ghost var s := S();
      var b := FindCached(1, blockno);
      if b != HEAD {
        bufs := bufs[b := bufs[b].(refcnt := bufs[b].refcnt + 1)];
      } else {
        NoneCaches(bufs, disk, latest, blockno);
        b := FindIdle();
        if b == HEAD {
          return None;
        }
        bufs := bufs[b := Recycled(bufs[b], 1, blockno)];
      }
      refs := refs[b := refs[b] + multiset{pid}];
      GetStep(s, pid, blockno, b, S());
      SameLinks(s.bufs, bufs, ring);
      r := Some(b);
    }

    /** acquiresleep, once the lock is free. */
    method Lock(b: nat, pid: nat)
      requires Valid() && b < NBUF && pid != 0 && pid in refs[b] && bufs[b].dev != 0 && bufs[b].holder == 0
      modifies this`bufs
      ensures Valid() && bufs == old(bufs)[b := old(bufs)[b].(holder := pid)]
      ensures Next(old(S()), Act(pid, Op.Lock(b)), S())
    {
      hide Linked, ByRecency, Complete, Unique, Coherent;
      ghost var s := S();
      bufs := bufs[b := bufs[b].(holder := pid)];
      HolderStep(s, Act(pid, Op.Lock(b)), S());
      SameLinks(s.bufs, bufs, ring);
    }

    /** memide.c's disk: a dirty buffer is written, another one read. */
    method Iderw(b: nat)
      requires b < NBUF < |bufs| && bufs[b].holder != 0 && !(bufs[b].valid && !bufs[b].dirty)
      requires bufs[b].dev == 1 && bufs[b].blockno < |disk|
      modifies this`bufs, this`disk
      ensures old(bufs[b].dirty) ==> disk == old(disk)[old(bufs[b].blockno) := old(bufs[b].data)]
      ensures !old(bufs[b].dirty) ==> disk == old(disk)
      ensures bufs == old(bufs)[b := old(bufs)[b].(valid := true, dirty := false, data := disk[old(bufs[b].blockno)])]
    {
      var n := bufs[b].blockno;
      if bufs[b].dirty {
        bufs := bufs[b := bufs[b].(dirty := false)];
        disk := disk[n := bufs[b].data];
      } else {
        bufs := bufs[b := bufs[b].(data := disk[n])];
      }
      bufs := bufs[b := bufs[b].(valid := true)];
    }

    /** The rest of bread, with the buffer locked: it holds the latest contents. */
    method Fill(b: nat, pid: nat)
      requires Valid() && b < NBUF && pid != 0 && bufs[b].holder == pid && bufs[b].dev != 0
      modifies this`bufs, this`disk
      ensures Valid() && disk == old(disk)
      ensures bufs[b].valid && bufs[b].data == latest[bufs[b].blockno]
      ensures bufs == old(bufs)[b := old(bufs)[b].(valid := true, data := bufs[b].data)]
      ensures Next(old(S()), Act(pid, Op.Fill(b)), S())
    {
      hide Linked, ByRecency, Complete, Unique, Counted, Coherent;
      ghost var s := S();
      HasBlock(s, pid, b);
      if !bufs[b].valid {
        Iderw(b);
        SameLinks(s.bufs, bufs, ring);
      }
      HolderStep(s, Act(pid, Op.Fill(b)), S());
      Filled(S(), b);
    }

    /** The lock holder changes the contents. */
    method Modify(b: nat, pid: nat, data: Block)
      requires Valid() && b < NBUF && pid != 0 && bufs[b].holder == pid && bufs[b].valid
      modifies this`bufs, this`latest
      ensures Valid() && latest == old(latest)[old(bufs[b].blockno) := data]
      ensures bufs == old(bufs)[b := old(bufs)[b].(data := data)]
      ensures Next(old(S()), Act(pid, Op.Modify(b, data)), S())
    {
      hide Linked, ByRecency, Complete, Unique, Counted, Coherent;
      ghost var s := S();
      ValidHasBlock(s, b);
      HasBlock(s, pid, b);
      bufs := bufs[b := bufs[b].(data := data)];
      latest := latest[bufs[b].blockno := data];
      HolderStep(s, Act(pid, Op.Modify(b, data)), S());
      SameLinks(s.bufs, bufs, ring);
    }

    /** log_write's mark, which keeps the buffer from being reused. */
    method Pin(b: nat, pid: nat)
      requires Valid() && b < NBUF && pid != 0 && bufs[b].holder == pid && bufs[b].valid
      modifies this`bufs
      ensures Valid() && bufs == old(bufs)[b := old(bufs)[b].(dirty := true)]
      ensures Next(old(S()), Act(pid, Op.Pin(b)), S())
    {
      hide Linked, ByRecency, Complete, Unique, Counted, Coherent;
      ghost var s := S();
      ValidHasBlock(s, b);
      HasBlock(s, pid, b);
      bufs := bufs[b := bufs[b].(dirty := true)];
      HolderStep(s, Act(pid, Op.Pin(b)), S());
      SameLinks(s.bufs, bufs, ring);
    }

    method BWrite(b: nat, pid: nat)
      requires Valid() && b < NBUF && pid != 0 && bufs[b].holder == pid && bufs[b].dev != 0
      modifies this`bufs, this`disk, this`latest
      ensures Valid()
      ensures disk == old(disk)[old(bufs[b].blockno) := old(bufs[b].data)]
      ensures latest == old(latest)[old(bufs[b].blockno) := old(bufs[b].data)]
      ensures bufs == old(bufs)[b := old(bufs)[b].(valid := true, dirty := false)]
      ensures Next(old(S()), Act(pid, Op.Write(b)), S())
    {
      hide Linked, ByRecency, Complete, Unique, Counted, Coherent;
      ghost var s := S();
      HasBlock(s, pid, b);
      bufs := bufs[b := bufs[b].(dirty := true)];
      Iderw(b);
      latest := latest[bufs[b].blockno := bufs[b].data];
      HolderStep(s, Act(pid, Op.Write(b)), S());
      SameLinks(s.bufs, bufs, ring);
    }

    /** brelse's releasesleep: what was changed has been logged or written. */
    method Unlock(b: nat, pid: nat)
      requires Valid() && b < NBUF && pid != 0 && bufs[b].holder == pid
      requires bufs[b].valid && !bufs[b].dirty ==> bufs[b].data == disk[bufs[b].blockno]
      requires bufs[b].dev != 0
      modifies this`bufs
      ensures Valid() && bufs == old(bufs)[b := old(bufs)[b].(holder := 0)]
      ensures Next(old(S()), Act(pid, Op.Unlock(b)), S())
    {
      hide Linked, ByRecency, Complete, Unique, Counted, Coherent;
      ghost var s := S();
      HasBlock(s, pid, b);
      bufs := bufs[b := bufs[b].(holder := 0)];
      HolderStep(s, Act(pid, Op.Unlock(b)), S());
      SameLinks(s.bufs, bufs, ring);
    }

    /** The rest of brelse: the reference goes, and the buffer moves to the front
        when it was the last one. */
    method Unref(b: nat, pid: nat)
      requires Valid() && b < NBUF && pid != 0 && pid in refs[b] && bufs[b].holder != pid
      modifies this`bufs, this`refs, this`ring, this`last, this`clock
      ensures Valid() && refs == old(refs)[b := old(refs)[b] - multiset{pid}]
      ensures Next(old(S()), Act(pid, Op.Unref(b)), S())
      ensures |bufs| == |old(bufs)| && forall a | 0 <= a < |bufs| ::
                SameButLinks(bufs[a], if a == b then old(bufs)[a].(refcnt := old(bufs)[a].refcnt - 1) else old(bufs)[a])
      ensures refs[b] != multiset{} ==> ring == old(ring) && last == old(last)
      ensures refs[b] == multiset{} ==>
                ring != [] && ring[0] == b && last == old(last)[b := old(clock)] && clock == old(clock) + 1
    {
      hide ByRecency, Complete, Unique, Coherent;
      ghost var was := bufs;
      DropKeeps(bufs, disk, latest, refs, b, pid);
      bufs := bufs[b := bufs[b].(refcnt := bufs[b].refcnt - 1)];
      refs := refs[b := refs[b] - multiset{pid}];
      SameLinks(was, bufs, ring);
      if bufs[b].refcnt == 0 {
        MoveFront(b);
      }
    }

    /** The six assignments that relink a buffer behind the head. */
    method MoveFront(b: nat)
      requires Valid() && b < NBUF
      modifies this`bufs, this`ring, this`last, this`clock
      ensures Valid() && ring != [] && ring[0] == b && last == old(last)[b := old(clock)] && clock == old(clock) + 1
      ensures |bufs| == |old(bufs)| && forall a | 0 <= a < |bufs| :: SameButLinks(bufs[a], old(bufs)[a])
    {
      assert b in ring;
      ghost var k :| 0 <= k < |ring| && ring[k] == b;
      Distinct(bufs, ring, k);
      hide Linked, Unique, Counted, Coherent;
      ghost var was := bufs;
      Relink(b, k);
      FrontRecency(ring, last, clock, k);
      ring := [b] + (ring[..k] + ring[k + 1..]);
      last := last[b := clock];
      clock := clock + 1;
      LinksKeep(was, bufs, disk, latest, refs);
    }

    method Relink(b: nat, ghost k: nat)
      requires Linked(bufs, ring) && k < |ring| && ring[k] == b < NBUF
      modifies this`bufs
      ensures Linked(bufs, [b] + (ring[..k] + ring[k + 1..]))
      ensures SameBufs(old(bufs), bufs)
    {
      LinkedSize(bufs, ring);
      Unlink(bufs, ring, k);
      Distinct(bufs, ring, k);
      hide Linked, SetNext, SetPrev, SameBufs;
      ghost var was := bufs;
      SameStart(bufs);
      SameStep(was, bufs, bufs[b].next, bufs[b].prev);
      bufs := SetPrev(bufs, bufs[b].next, bufs[b].prev);
      SameStep(was, bufs, bufs[b].prev, bufs[b].next);
      bufs := SetNext(bufs, bufs[b].prev, bufs[b].next);
      PushFront(bufs, ring[..k] + ring[k + 1..], b);
      SameStep(was, bufs, b, bufs[HEAD].next);
      bufs := SetNext(bufs, b, bufs[HEAD].next);
      SameStep(was, bufs, b, HEAD);
      bufs := SetPrev(bufs, b, HEAD);
      SameStep(was, bufs, bufs[HEAD].next, b);
      bufs := SetPrev(bufs, bufs[HEAD].next, b);
      SameStep(was, bufs, HEAD, b);
      bufs := SetNext(bufs, HEAD, b);
    }
  }
}
