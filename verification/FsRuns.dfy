/** Whole runs of the file system: any sequence of writes, truncations, links,
    unlinks, and inodes taken and given back, from what mkfs makes. Each step is
    what the methods of `FileSystem` and `Directory` promise. */
module FsRuns {
  import opened Disk
  import opened Bitmap
  import opened FileSystem
  import opened Directory
  import opened Namei
  import opened Mkfs

  datatype Op =
    | Begin                                      // a transaction starts
    | Write(i: nat, off: nat, src: seq<Byte>)    // writei on a file
    | Truncate(i: nat)                           // itrunc of a file
    | Ialloc(i: nat, kind: Kind)
    | SetLinks(i: nat, nlink: int)               // a new nlink, and iupdate
    | Link(dp: nat, name: Name, inum: nat)       // dirlink
    | Unlink(dp: nat, slot: nat)                 // sys_unlink clears an entry
    | Drop(i: nat)                               // iput of the last reference

  /** A free inode holds nothing. */
  ghost predicate FreeBlank(f: Fs) {
    forall i | 0 <= i < |f.inode| && f.inode[i].kind.Free? :: f.inode[i].size == 0 && f.inode[i].addrs == NoBlocks()
  }

  ghost predicate Inv(sb: Super, f: Fs) {
    Tree(sb, f) && f.dinode == f.inode && FreeBlank(f)
  }

  /** Some other directory has an entry for inode `i`. */
  ghost predicate Named(sb: Super, f: Fs, i: nat)
    requires Tree(sb, f)
  {
    exists d, x | 0 <= d < |f.inode| && d != i && f.inode[d].kind.Dir? && x in Names(sb, f, d) ::
      Names(sb, f, d)[x] == i
  }

  function WithInode(f: Fs, i: nat, ip: Inode, ib: nat): Fs
    requires i < |f.inode| == |f.dinode|
  {
    f.(inode := f.inode[i := ip], dinode := f.dinode[i := ip], logged := f.logged + {ib})
  }

  ghost predicate Next(sb: Super, f: Fs, op: Op, g: Fs)
    requires Inv(sb, f)
  {
    match op
    case Begin => g == f.(logged := {})
    case Write(i, off, src) =>
      && i < |f.inode| && f.inode[i].kind.File? && off <= f.inode[i].size
      && WriteDone(sb, f, g, i, off, src) && g.dinode == g.inode
    case Truncate(i) =>
      i < |f.inode| && f.inode[i].kind.File? && Truncated(sb, f, g, i) && g.dinode == g.inode
    case Ialloc(i, kind) =>
      && i < |f.inode| && f.inode[i].kind.Free? && !kind.Free?
      && g == WithInode(f, i, Inode(kind, 0, 0, NoBlocks()), IBlock(sb, i))
    case SetLinks(i, nlink) =>
      i < |f.inode| && g == WithInode(f, i, f.inode[i].(nlink := nlink), IBlock(sb, i))
    case Link(dp, name, inum) =>
      && dp < |f.inode| && f.inode[dp].kind.Dir? && inum < |f.inode| && !f.inode[inum].kind.Free?
      && LinkDone(sb, f, g, dp, Key(name), inum) && g.dinode == g.inode
    case Unlink(dp, slot) =>
      && dp < |f.inode| && f.inode[dp].kind.Dir? && (slot + 1) * 16 <= f.inode[dp].size
      && EntryAt(Contents(sb, f, dp), slot).inum != 0
      && WriteDone(sb, f, g, dp, 16 * slot, seq(16, _ => 0)) && g.dinode == g.inode
    case Drop(i) =>
      && i < |f.inode| && i != ROOTINO && !Named(sb, f, i)
      && exists h: Fs :: Truncated(sb, f, h, i)
           && g == h.(inode := h.inode[i := h.inode[i].(kind := Free)], dinode := g.inode)
  }

  // ---- Every step keeps the tree of directories ----

  /** Changing one inode keeps the tree when that inode still fits in it. */
  lemma TreeKept(sb: Super, f: Fs, g: Fs, i: nat)
    requires Tree(sb, f) && Good(sb, g) && i < |f.inode| == |g.inode|
    requires forall j: nat | j < |f.inode| && j != i ::
               g.inode[j] == f.inode[j] && Contents(sb, g, j) == Contents(sb, f, j)
    requires g.inode[i].kind.Free? ==> i != ROOTINO && !Named(sb, f, i)
    requires g.inode[i].kind.Dir? ==>
               && IsDirectory(sb, g, i)
               && forall x | x in Names(sb, g, i) ::
                    Names(sb, g, i)[x] < |f.inode| && !g.inode[Names(sb, g, i)[x]].kind.Free?
    ensures Tree(sb, g)
  {
    hide Good, Contents, UniqueNames, DirMap;
    forall j | 0 <= j < |g.inode| && g.inode[j].kind.Dir? && j != i
      ensures IsDirectory(sb, g, j) && Names(sb, g, j) == Names(sb, f, j)
    {
      assert IsDirectory(sb, f, j);
    }
    forall j, x | 0 <= j < |g.inode| && g.inode[j].kind.Dir? && x in Names(sb, g, j)
      ensures Names(sb, g, j)[x] < |g.inode| && !g.inode[Names(sb, g, j)[x]].kind.Free?
    {
      if j != i {
        assert x in Names(sb, f, j);
        assert Names(sb, f, j)[x] == i ==> Named(sb, f, i);
      }
    }
  }

  /** A different kind or link count, or another log, leaves blocks and contents alone. */
  lemma SameBlocks(sb: Super, f: Fs, g: Fs)
    requires Good(sb, f) && g.bitmap == f.bitmap && g.data == f.data && g.owner == f.owner
    requires |g.inode| == |f.inode| == |g.dinode|
    requires forall j | 0 <= j < |f.inode| ::
               g.inode[j].size == f.inode[j].size && g.inode[j].addrs == f.inode[j].addrs
    ensures Good(sb, g)
    ensures forall j: nat | j < |f.inode| :: Contents(sb, g, j) == Contents(sb, f, j)
  {
    hide InUse, GetWord;
    assert forall j: nat, s: nat | j < |f.inode| :: SlotOf(g, j, s) == SlotOf(f, j, s);
    hide Slot, SlotOf;
    forall j: nat | j < |f.inode| ensures Contents(sb, g, j) == Contents(sb, f, j) {
      var c, d := Contents(sb, g, j), Contents(sb, f, j);
      forall k: nat | k < |c| ensures c[k] == d[k] {
        assert c[k] == ByteAt(g, j, k) && d[k] == ByteAt(f, j, k);
      }
    }
  }

  lemma InodeStep(sb: Super, f: Fs, g: Fs, i: nat)
    requires Inv(sb, f) && i < |f.inode| && g.bitmap == f.bitmap && g.data == f.data && g.owner == f.owner
    requires |g.inode| == |f.inode| && g.inode == g.dinode && g.inode == f.inode[i := g.inode[i]]
    requires g.inode[i].size == f.inode[i].size && g.inode[i].addrs == f.inode[i].addrs
    requires g.inode[i].kind == f.inode[i].kind || (f.inode[i].kind.Free? && f.inode[i].size == 0)
    requires !f.inode[i].kind.Free? ==> !g.inode[i].kind.Free?
    ensures Inv(sb, g)
  {
    SameBlocks(sb, f, g);
    hide Good, Contents, UniqueNames, DirMap;
    if g.inode[i].kind.Dir? {
      InodeNames(sb, f, g, i);
    }
    hide IsDirectory, Names;
    if g.inode[i].kind.Free? {
      assert i != ROOTINO && !Named(sb, f, i);
    }
    TreeKept(sb, f, g, i);
  }

  /** A directory's inode changed, or a free inode become a directory. */
  lemma InodeNames(sb: Super, f: Fs, g: Fs, i: nat)
    requires Tree(sb, f) && Good(sb, g) && i < |f.inode| == |g.inode| && Contents(sb, g, i) == Contents(sb, f, i)
    requires g.inode[i].size == f.inode[i].size && g.inode[i].kind.Dir?
    requires f.inode[i].kind.Dir? || f.inode[i].size == 0
    ensures IsDirectory(sb, g, i)
    ensures forall x | x in Names(sb, g, i) ::
              f.inode[i].kind.Dir? && x in Names(sb, f, i) && Names(sb, f, i)[x] == Names(sb, g, i)[x]
  {
    hide Good, Contents, UniqueNames, DirMap;
    if f.inode[i].kind.Dir? {
      assert IsDirectory(sb, f, i) && Names(sb, g, i) == Names(sb, f, i);
    } else {
      assert |Contents(sb, g, i)| == 0;
      NoEntries(Contents(sb, g, i));
    }
  }

  lemma NoEntries(c: seq<Byte>)
    requires c == []
    ensures UniqueNames(c) && DirMap(c, |c| / 16) == map[]
  {
  }

  lemma FileStep(sb: Super, f: Fs, op: Op, g: Fs)
    requires Inv(sb, f) && Next(sb, f, op, g) && (op.Write? || op.Truncate?)
    ensures Inv(sb, g)
  {
    hide Good, Contents, Overwritten, Footprint, NewSlots, EndBlock, FreeLog, SlotOf;
    TreeKept(sb, f, g, op.i);
  }

  lemma LinkStep(sb: Super, f: Fs, op: Op, g: Fs)
    requires Inv(sb, f) && Next(sb, f, op, g) && op.Link?
    ensures Inv(sb, g)
  {
    hide Good, Contents, UniqueNames, DirMap, Key;
    TreeKept(sb, f, g, op.dp);
  }

  lemma UnlinkStep(sb: Super, f: Fs, op: Op, g: Fs)
    requires Inv(sb, f) && Next(sb, f, op, g) && op.Unlink?
    ensures Inv(sb, g)
  {
    hide Good, Contents, UniqueNames, DirMap, Overwritten, Footprint, NewSlots, EndBlock, SlotOf, EntryAt, CString;
    ClearedEntry(sb, f, g, op.dp, op.slot);
    UnlinkedTree(sb, f, g, op.dp, CString(EntryAt(Contents(sb, f, op.dp), op.slot).name));
  }

  lemma UnlinkedTree(sb: Super, f: Fs, g: Fs, dp: nat, key: Name)
    requires Tree(sb, f) && dp < |f.inode| && f.inode[dp].kind.Dir? && UnlinkDone(sb, f, g, dp, key)
    ensures Tree(sb, g)
  {
    hide Good, Contents, UniqueNames, DirMap;
    TreeKept(sb, f, g, dp);
  }

  lemma DropStep(sb: Super, f: Fs, op: Op, g: Fs)
    requires Inv(sb, f) && Next(sb, f, op, g) && op.Drop?
    ensures Inv(sb, g)
  {
    var h: Fs :| Truncated(sb, f, h, op.i)
        && g == h.(inode := h.inode[op.i := h.inode[op.i].(kind := Free)], dinode := g.inode);
    SameBlocks(sb, h, g);
    hide Good, Contents, FreeLog, SlotOf;
    TreeKept(sb, f, g, op.i);
  }

  lemma StepInv(sb: Super, f: Fs, op: Op, g: Fs)
    requires Inv(sb, f) && Next(sb, f, op, g)
    ensures Inv(sb, g)
  {
    match op
    case Begin => BeginStep(sb, f, g);
    case Ialloc(i, _) => InodeStep(sb, f, g, i);
    case SetLinks(i, _) => InodeStep(sb, f, g, i);
    case Write(_, _, _) => FileStep(sb, f, op, g);
    case Truncate(_) => FileStep(sb, f, op, g);
    case Link(_, _, _) => LinkStep(sb, f, op, g);
    case Unlink(_, _) => UnlinkStep(sb, f, op, g);
    case Drop(_) => DropStep(sb, f, op, g);
  }

  lemma BeginStep(sb: Super, f: Fs, g: Fs)
    requires Inv(sb, f) && g == f.(logged := {})
    ensures Inv(sb, g)
  {
    InodeStep(sb, f, g, ROOTINO);
  }

  // ---- Every step logs what it changes ----

  lemma WithInodeLogs(sb: Super, f: Fs, i: nat, ip: Inode)
    requires i < |f.inode| == |f.dinode|
    ensures Logs(sb, f, WithInode(f, i, ip, IBlock(sb, i)))
  {
    InodeIsBlock(sb, |f.dinode|, i);
    LogsTheChanges(sb, f, WithInode(f, i, ip, IBlock(sb, i)), {IBlock(sb, i)});
  }

  lemma DropLogs(sb: Super, f: Fs, op: Op, g: Fs)
    requires Inv(sb, f) && Next(sb, f, op, g) && op.Drop?
    ensures Logs(sb, f, g)
  {
    var i := op.i;
    assert Sound(sb, f) && |f.inode[i].addrs| == NDIRECT + 1;
    hide Sound, AreBlocks, Good, Contents, FreeLog, SlotOf, InUse;
    var h: Fs :| Truncated(sb, f, h, i)
        && g == h.(inode := h.inode[i := h.inode[i].(kind := Free)], dinode := g.inode);
    var l := FreeLog(sb, f, i, MAXFILE + 1) + {IBlock(sb, i)};
    FreeLogBlocks(sb, f, i);
    assert ChangesOnly(sb, f, g, l);
    LogsTheChanges(sb, f, g, l);
  }

  lemma OpLogs(sb: Super, f: Fs, op: Op, g: Fs)
    requires Inv(sb, f) && Next(sb, f, op, g) && !op.Begin?
    ensures Logs(sb, f, g)
  {
    hide Good, Logs, ChangesOnly, WriteDone, Contents, EntryAt, FreeLog, SlotOf;
    match op
    case Write(i, off, src) => WriteDoneLogs(sb, f, g, i, off, src);
    case Truncate(i) => TruncatedLogs(sb, f, g, i);
    case Ialloc(i, kind) => WithInodeLogs(sb, f, i, Inode(kind, 0, 0, NoBlocks()));
    case SetLinks(i, nlink) => WithInodeLogs(sb, f, i, f.inode[i].(nlink := nlink));
    case Link(_, _, _) =>
    case Unlink(dp, slot) => WriteDoneLogs(sb, f, g, dp, 16 * slot, seq(16, _ => 0));
    case Drop(_) => DropLogs(sb, f, op, g);
  }

  // ---- Runs ----

  /** Each step is one of the operations. Next speaks of states with the invariant
      only; that a run from one has no others is StepsInv. */
  ghost predicate Steps(sb: Super, fs: seq<Fs>, ops: seq<Op>) {
    |fs| == |ops| + 1 && forall k | 0 <= k < |ops| && Inv(sb, fs[k]) :: Next(sb, fs[k], ops[k], fs[k + 1])
  }

  /** Whole operations lead from `f` to `h`. */
  ghost predicate Leads(sb: Super, f: Fs, h: Fs) {
    exists fs, ops :: Steps(sb, fs, ops) && fs[0] == f && fs[|ops|] == h
  }

  /** The operations of one transaction. */
  ghost predicate IsCall(sb: Super, fs: seq<Fs>, ops: seq<Op>) {
    Steps(sb, fs, ops) && forall k | 0 <= k < |ops| :: !ops[k].Begin?
  }

  /** What a transaction that begins at `f` makes of it. */
  ghost predicate Does(sb: Super, f: Fs, h: Fs) {
    exists fs, ops :: IsCall(sb, fs, ops) && fs[0] == f.(logged := {}) && fs[|ops|] == h
  }

  lemma {:induction false} CallLogs(sb: Super, fs: seq<Fs>, ops: seq<Op>, k: nat)
    requires IsCall(sb, fs, ops) && k < |fs| && Inv(sb, fs[0]) && fs[0].logged == {}
    ensures ChangesOnly(sb, fs[0], fs[k], fs[k].logged) && AreBlocks(sb, |fs[0].dinode|, fs[k].logged)
  {
    hide Inv, Next, Logs, ChangesOnly;
    if k == 0 {
      ChangesNothing(sb, fs[0], fs[0], {});
    } else {
      CallLogs(sb, fs, ops, k - 1);
      StepsInv(sb, fs, ops, k - 1);
      OpLogs(sb, fs[k - 1], ops[k - 1], fs[k]);
      LogsMore(sb, fs[0], fs[k - 1], fs[k]);
    }
  }

  /** Every transaction logs all that it changes, and leads on. */
  lemma DoesLogs(sb: Super, f: Fs, h: Fs)
    requires Inv(sb, f) && Does(sb, f, h)
    ensures ChangesOnly(sb, f, h, h.logged) && AreBlocks(sb, |f.dinode|, h.logged)
    ensures Leads(sb, f, h) && Inv(sb, h)
  {
    hide Next;
    var fs, ops :| IsCall(sb, fs, ops) && fs[0] == f.(logged := {}) && fs[|ops|] == h;
    assert Next(sb, f, Begin, fs[0]) by {
      BeginIs(sb, f);
    }
    BeginStep(sb, f, fs[0]);
    hide Inv;
    CallLogs(sb, fs, ops, |ops|);
    FirstStep(sb, f, fs, ops);
    LeadsInv(sb, f, h);
    ChangesIgnoreLog(sb, f, h);
  }

  lemma BeginIs(sb: Super, f: Fs)
    requires Inv(sb, f)
    ensures Next(sb, f, Begin, f.(logged := {}))
  {
  }

  lemma ChangesIgnoreLog(sb: Super, f: Fs, h: Fs)
    requires ChangesOnly(sb, f.(logged := {}), h, h.logged)
    ensures ChangesOnly(sb, f, h, h.logged)
  {
  }

  lemma FirstStep(sb: Super, f: Fs, fs: seq<Fs>, ops: seq<Op>)
    requires Inv(sb, f) && Steps(sb, fs, ops) && Next(sb, f, Begin, fs[0])
    ensures Leads(sb, f, fs[|ops|])
  {
    hide Inv, Next;
    var gs, all := [f] + fs, [Begin] + ops;
    assert forall k | 0 < k < |gs| :: gs[k] == fs[k - 1];
    assert forall k | 0 < k < |all| :: all[k] == ops[k - 1];
    assert Steps(sb, gs, all) && gs[0] == f && gs[|all|] == fs[|ops|];
  }

  predicate Makes(sb: Super, n: nat) {
    Sizes(sb) && sb.nmeta < sb.size && ROOTINO < n
  }

  /** A run from what mkfs makes. */
  ghost predicate IsRun(sb: Super, n: nat, fs: seq<Fs>, ops: seq<Op>) {
    Makes(sb, n) && Steps(sb, fs, ops) && fs[0] == Root(sb, n)
  }

  lemma RootInv(sb: Super, n: nat)
    requires Makes(sb, n)
    ensures Inv(sb, Root(sb, n))
  {
    RootTree(sb, n);
    RootGood(sb, n);
    hide Tree, BitsFrom, RootBlock;
  }

  lemma {:induction false} StepsInv(sb: Super, fs: seq<Fs>, ops: seq<Op>, k: nat)
    requires Steps(sb, fs, ops) && k < |fs| && Inv(sb, fs[0])
    ensures Inv(sb, fs[k])
  {
    hide Inv, Next;
    if k > 0 {
      StepsInv(sb, fs, ops, k - 1);
      StepInv(sb, fs[k - 1], ops[k - 1], fs[k]);
    }
  }

  lemma RunInv(sb: Super, n: nat, fs: seq<Fs>, ops: seq<Op>, k: nat)
    requires IsRun(sb, n, fs, ops) && k < |fs|
    ensures Inv(sb, fs[k])
  {
    RootInv(sb, n);
    hide Inv, Root, Steps;
    StepsInv(sb, fs, ops, k);
  }

  lemma LeadsInv(sb: Super, f: Fs, h: Fs)
    requires Inv(sb, f) && Leads(sb, f, h)
    ensures Inv(sb, h)
  {
    hide Inv;
    var fs, ops :| Steps(sb, fs, ops) && fs[0] == f && fs[|ops|] == h;
    hide Next;
    StepsInv(sb, fs, ops, |ops|);
  }

  lemma LeadsNowhere(sb: Super, f: Fs)
    ensures Leads(sb, f, f)
  {
    hide Inv, Next;
    assert Steps(sb, [f], []) && [f][0] == f;
  }

  lemma LeadsOn(sb: Super, f: Fs, g: Fs, h: Fs)
    requires Leads(sb, f, g) && Leads(sb, g, h)
    ensures Leads(sb, f, h)
  {
    hide Inv, Next;
    var fs, ops :| Steps(sb, fs, ops) && fs[0] == f && fs[|ops|] == g;
    var gs, more :| Steps(sb, gs, more) && gs[0] == g && gs[|more|] == h;
    var hs, all := fs + gs[1..], ops + more;
    assert forall k | 0 <= k < |fs| :: hs[k] == fs[k];
    assert forall k | |ops| <= k < |hs| :: hs[k] == gs[k - |ops|];
    assert forall k | |ops| <= k < |all| :: all[k] == more[k - |ops|];
    assert Steps(sb, hs, all);
  }

  /** In every reachable state the blocks in use are exactly the metadata blocks
      and the blocks of inodes, no block belongs to two slots, every byte of
      every file has a block, and no directory has a name twice. */
  lemma ReachableStates(sb: Super, n: nat, fs: seq<Fs>, ops: seq<Op>, k: nat)
    requires IsRun(sb, n, fs, ops) && k < |fs|
    ensures var f := fs[k];
      && Shape(sb, f)
      && (forall b: nat | b < sb.size ::
            InUse(f.bitmap, b) <==>
            b < sb.nmeta || exists i: nat, s: nat :: i < |f.inode| && s <= MAXFILE && SlotOf(f, i, s) == b)
      && (forall i: nat, s: nat, j: nat, t: nat |
            i < |f.inode| && j < |f.inode| && s <= MAXFILE && t <= MAXFILE && (i, s) != (j, t)
            && SlotOf(f, i, s) != 0 :: SlotOf(f, i, s) != SlotOf(f, j, t))
      && (forall i: nat, bn: nat | i < |f.inode| && bn * BSIZE < f.inode[i].size :: SlotOf(f, i, bn) != 0)
      && (forall i: nat | i < |f.inode| && f.inode[i].kind.Dir? :: IsDirectory(sb, f, i))
  {
    RunInv(sb, n, fs, ops, k);
    BlockOwnership(sb, fs[k]);
    hide InUse, Slot, SlotOf, IsDirectory, BitsMatch, SlotsOwned;
  }
}
