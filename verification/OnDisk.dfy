/** The file system as the disk holds it, and what a crash leaves of it: files
    decoded from the blocks that `fs.c` writes, under the log of `log.c`. */
module OnDisk {
  import opened Disk
  import opened Bitmap
  import opened FileSystem
  import opened InodeTable
  import opened Mkfs
  import Namei
  import Log
  import Protocol = LogProtocol
  import FsRuns

  // ---- Decoding ----

  /** Number of bytes in the free bitmap. */
  function BitmapBytes(sb: Super): nat {
    sb.size / 8 + 1
  }

  predicate HoldsBits(sb: Super, d: Image, bitmap: seq<bv8>) {
    forall k: nat | k < |bitmap| ::
      sb.bmapstart + k / BSIZE < |d| && d[sb.bmapstart + k / BSIZE][k % BSIZE] == bitmap[k] as int
  }

  /** The file system fits the layout. What its metadata blocks hold is held in
      decoded form, and their places among its data blocks are blank. */
  ghost predicate Sized(sb: Super, n: nat, f: Fs) {
    && |f.data| == sb.size && |f.dinode| == n && |f.bitmap| == BitmapBytes(sb) && sb.nmeta <= sb.size
    && forall b | 0 <= b < sb.nmeta :: f.data[b] == ZeroBlock()
  }

  predicate HoldsData(sb: Super, d: Image, data: seq<Block>) {
    |d| == |data| && forall b | sb.nmeta <= b < |data| :: d[b] == data[b]
  }

  /** The disk holds the file system `f` with its `n` inodes. */
  ghost predicate Holds(sb: Super, n: nat, d: Image, f: Fs) {
    Sized(sb, n, f) && HoldsData(sb, d, f.data) && HoldsInodes(sb, d, f.dinode) && HoldsBits(sb, d, f.bitmap)
  }

  /** balloc and bfree store the bit of a block: one byte of the bitmap changes. */
  lemma BitStored(sb: Super, d: Image, bitmap: seq<bv8>, b: nat, x: bv8)
    requires HoldsBits(sb, d, bitmap) && b / 8 < |bitmap|
    ensures var bb := BBlock(sb, b);
      bb < |d| && HoldsBits(sb, d[bb := d[bb][b % BPB / 8 := x as int]], bitmap[b / 8 := x])
  {
    var bb, k := BBlock(sb, b), b / 8;
    ByteOfBit(b);
    assert bb == sb.bmapstart + k / BSIZE && b % BPB / 8 == k % BSIZE;
    var d', bitmap' := d[bb := d[bb][k % BSIZE := x as int]], bitmap[k := x];
    forall m: nat | m < |bitmap'|
      ensures sb.bmapstart + m / BSIZE < |d'| && d'[sb.bmapstart + m / BSIZE][m % BSIZE] == bitmap'[m] as int
    {
      if m != k && m / BSIZE == k / BSIZE {
        assert m % BSIZE != k % BSIZE;
      }
    }
  }

  lemma ByteOfBit(b: nat)
    ensures b / 8 / BSIZE == b / BPB && b / 8 % BSIZE == b % BPB / 8
  {
    assert b == BPB * (b / BPB) + b % BPB;
  }

  /** The layout that mkfs computes: log, inode blocks, bitmap, data. */
  predicate Placed(g: Log.Geometry, sb: Super, n: nat) {
    && Log.Fits(g) && g.nblocks == sb.size && g.start + g.size <= sb.inodestart
    && sb.inodestart + n / IPB + 1 <= sb.bmapstart && sb.bmapstart + sb.size / BPB + 1 <= sb.nmeta <= sb.size
  }

  lemma InPlace(g: Log.Geometry, sb: Super, n: nat)
    requires Placed(g, sb, n)
    ensures forall i: nat | i < n :: Log.IsHome(g, IBlock(sb, i)) && IBlock(sb, i) < sb.bmapstart
    ensures forall k: nat | k < BitmapBytes(sb) ::
              Log.IsHome(g, sb.bmapstart + k / BSIZE) && sb.bmapstart + k / BSIZE < sb.nmeta
  {
    forall k: nat | k < BitmapBytes(sb) ensures sb.bmapstart + k / BSIZE < sb.nmeta {
      ByteOfBit(sb.size);
    }
  }

  /** What is decoded does not lie in the log. */
  lemma HomesHold(g: Log.Geometry, sb: Super, n: nat, d: Image, e: Image, f: Fs)
    requires Placed(g, sb, n) && Log.SameHome(g, d, e) && Holds(sb, n, d, f)
    ensures Holds(sb, n, e, f)
  {
    InPlace(g, sb, n);
    hide RecordAt, Stands, Placed, IBlock, Log.IsHome, BitmapBytes;
    assert forall x | 0 <= x < |d| && Log.IsHome(g, x) :: d[x] == e[x];
    assert forall b | sb.nmeta <= b < sb.size :: Log.IsHome(g, b) by {
      DataIsHome(g, sb, n);
    }
    hide Log.SameHome;
    forall k: nat | k < |f.bitmap| ensures e[sb.bmapstart + k / BSIZE] == d[sb.bmapstart + k / BSIZE] {
    }
  }

  lemma DataIsHome(g: Log.Geometry, sb: Super, n: nat)
    requires Placed(g, sb, n)
    ensures forall b | sb.nmeta <= b < sb.size :: Log.IsHome(g, b)
  {
  }

  /** Which bytes of the disk hold inode `i`. */
  lemma HeldInode(sb: Super, n: nat, d: Image, f: Fs, i: nat)
    requires Holds(sb, n, d, f) && i < n
    ensures sb.inodestart + i / 8 < |d|
    ensures var x, k, ip := d[sb.inodestart + i / 8], i % 8, f.dinode[i];
      && x[64 * k] == (match ip.kind case Free => 0 case Dir => 1 case File => 2) && x[64 * k + 1] == 0
      && (ip.nlink - (x[64 * k + 6] as int + 256 * (x[64 * k + 7] as int))) % 0x1_0000 == 0
      && ip.size == GetWord(x, 16 * k + 2)
      && |ip.addrs| == 13 && forall j: nat | j < 13 :: ip.addrs[j] == GetWord(x, 16 * k + 3 + j)
  {
    hide RecordAt, Stands, HoldsBits, HoldsData, Sized, GetWord;
    assert Stands(RecordAt(d[IBlock(sb, i)], i % IPB), f.dinode[i]) && i / 8 + sb.inodestart == IBlock(sb, i) by {
      SizedInodes(sb, n, f);
    }
    StandsInBytes(d[IBlock(sb, i)], i % 8, f.dinode[i]);
  }

  lemma SizedInodes(sb: Super, n: nat, f: Fs)
    requires Sized(sb, n, f)
    ensures |f.dinode| == n && sb.size / 8 < |f.bitmap|
  {
  }

  /** And which bit of which byte tells whether block `b` is in use. */
  lemma HeldBit(sb: Super, n: nat, d: Image, f: Fs, b: nat)
    requires Holds(sb, n, d, f) && b < sb.size
    ensures sb.bmapstart + b / 4096 < |d| && b / 8 < |f.bitmap|
    ensures d[sb.bmapstart + b / 4096][b % 4096 / 8] == f.bitmap[b / 8] as int
    ensures var bit: bv8 := match b % 8
                            case 0 => 0x01 case 1 => 0x02 case 2 => 0x04 case 3 => 0x08
                            case 4 => 0x10 case 5 => 0x20 case 6 => 0x40 case _ => 0x80;
      InUse(f.bitmap, b) <==> f.bitmap[b / 8] & bit != 0
  {
    MaskIsOneBit(b % 8);
    SizedInodes(sb, n, f);
    ByteOfBit(b);
    hide HoldsInodes, HoldsData, Sized, Mask;
    var k := b / 8;
    assert sb.bmapstart + k / BSIZE < |d| && d[sb.bmapstart + k / BSIZE][k % BSIZE] == f.bitmap[k] as int;
  }

  // ---- Encoding ----

  /** The numbers of every inode fit its record. */
  predicate AllFit(f: Fs) {
    forall i | 0 <= i < |f.dinode| :: InodeTable.Fits(f.dinode[i])
  }

  ghost function BitmapBlock(bits: seq<bv8>, m: nat): Block {
    seq<Byte>(BSIZE, j requires 0 <= j < BSIZE =>
                       if BSIZE * m + j < |bits| then bits[BSIZE * m + j] as int else 0)
  }

  /** The block of inodes `first`, `first + 1`, ..., the first `k` of them stored. */
  function InodeBlock(inodes: seq<Inode>, first: nat, k: nat): Block
    requires k <= IPB && forall i | 0 <= i < |inodes| :: InodeTable.Fits(inodes[i])
  {
    if k == 0 then ZeroBlock()
    else
      var before := InodeBlock(inodes, first, k - 1);
      if first + k - 1 < |inodes| then PutRecord(before, k - 1, Fields(inodes[first + k - 1])) else before
  }

  lemma {:induction false} InodeBlockAt(inodes: seq<Inode>, first: nat, k: nat)
    requires k <= IPB && forall i | 0 <= i < |inodes| :: InodeTable.Fits(inodes[i])
    ensures forall j: nat | j < k && first + j < |inodes| ::
              Stands(RecordAt(InodeBlock(inodes, first, k), j), inodes[first + j])
  {
    hide RecordAt, PutRecord, Stands, InodeTable.Fits;
    if k > 0 {
      InodeBlockAt(inodes, first, k - 1);
      if first + k - 1 < |inodes| {
        PutRecordAt(InodeBlock(inodes, first, k - 1), k - 1, Fields(inodes[first + k - 1]));
      }
    }
  }

  /** Block `b` of a disk that holds `f`. */
  ghost function BlockOf(sb: Super, f: Fs, b: nat): Block
    requires b < sb.size == |f.data| && AllFit(f)
  {
    if b >= sb.nmeta then f.data[b]
    else if b >= sb.bmapstart then BitmapBlock(f.bitmap, b - sb.bmapstart)
    else if b >= sb.inodestart then InodeBlock(f.dinode, IPB * (b - sb.inodestart), IPB)
    else ZeroBlock()
  }

  ghost function DiskOf(sb: Super, f: Fs): (d: Image)
    requires sb.size == |f.data| && AllFit(f)
    ensures |d| == sb.size
  {
    seq<Block>(sb.size, b requires 0 <= b < sb.size => BlockOf(sb, f, b))
  }

  lemma InodesEncoded(g: Log.Geometry, sb: Super, n: nat, f: Fs, i: nat)
    requires Placed(g, sb, n) && Sized(sb, n, f) && AllFit(f) && i < n
    ensures IBlock(sb, i) < sb.size && Stands(RecordAt(BlockOf(sb, f, IBlock(sb, i)), i % IPB), f.dinode[i])
  {
    hide RecordAt, Stands, InodeTable.Fits;
    InPlace(g, sb, n);
    assert IPB * (i / IPB) + i % IPB == i;
    InodeBlockAt(f.dinode, IPB * (i / IPB), IPB);
  }

  lemma BitsEncoded(g: Log.Geometry, sb: Super, n: nat, f: Fs, k: nat)
    requires Placed(g, sb, n) && Sized(sb, n, f) && AllFit(f) && k < |f.bitmap|
    ensures sb.bmapstart + k / BSIZE < sb.size
         && BlockOf(sb, f, sb.bmapstart + k / BSIZE)[k % BSIZE] == f.bitmap[k] as int
  {
    InPlace(g, sb, n);
    assert BSIZE * (k / BSIZE) + k % BSIZE == k;
    assert BlockOf(sb, f, sb.bmapstart + k / BSIZE) == BitmapBlock(f.bitmap, k / BSIZE);
  }

  /** Every file system whose numbers fit is held by a disk whose log is empty. */
  lemma DiskHolds(g: Log.Geometry, sb: Super, n: nat, f: Fs)
    requires Placed(g, sb, n) && Sized(sb, n, f) && AllFit(f)
    ensures Log.WellFormed(g, DiskOf(sb, f)) && Log.HeadList(DiskOf(sb, f)[g.start]) == []
    ensures Holds(sb, n, DiskOf(sb, f), f)
  {
    hide RecordAt, Stands, InodeTable.Fits, BlockOf, BitmapBytes;
    HeaderFirst(g, sb, n, f);
    EmptyHead(DiskOf(sb, f)[g.start]);
    hide Placed;
    forall i: nat | i < n
      ensures IBlock(sb, i) < sb.size && Stands(RecordAt(BlockOf(sb, f, IBlock(sb, i)), i % IPB), f.dinode[i])
    {
      InodesEncoded(g, sb, n, f, i);
    }
    forall k: nat | k < |f.bitmap|
      ensures sb.bmapstart + k / BSIZE < sb.size
           && BlockOf(sb, f, sb.bmapstart + k / BSIZE)[k % BSIZE] == f.bitmap[k] as int
    {
      BitsEncoded(g, sb, n, f, k);
    }
    DataEncoded(sb, f);
  }

  lemma DataEncoded(sb: Super, f: Fs)
    requires |f.data| == sb.size && AllFit(f)
    ensures forall b | sb.nmeta <= b < sb.size :: DiskOf(sb, f)[b] == f.data[b]
  {
  }

  lemma HeaderFirst(g: Log.Geometry, sb: Super, n: nat, f: Fs)
    requires Placed(g, sb, n) && Sized(sb, n, f) && AllFit(f)
    ensures Log.Fits(g) && g.nblocks == sb.size && g.start < sb.size && BlockOf(sb, f, g.start) == ZeroBlock()
  {
  }

  lemma EmptyHead(b: Block)
    requires b == ZeroBlock()
    ensures GetWord(b, 0) == 0 && Log.HeadList(b) == []
  {
    ZeroWords(0);
  }

  // ---- Decoding has one result ----

  lemma SameInodes(sb: Super, d: Image, s: seq<Inode>, t: seq<Inode>)
    requires HoldsInodes(sb, d, s) && HoldsInodes(sb, d, t) && |s| == |t|
    ensures s == t
  {
    hide RecordAt, IBlock;
    forall i: nat | i < |s| ensures s[i] == t[i] {
      assert IBlock(sb, i) < |d| && Stands(RecordAt(d[IBlock(sb, i)], i % IPB), s[i]);
      assert Stands(RecordAt(d[IBlock(sb, i)], i % IPB), t[i]);
    }
  }

  lemma SameBitmap(sb: Super, d: Image, s: seq<bv8>, t: seq<bv8>)
    requires HoldsBits(sb, d, s) && HoldsBits(sb, d, t) && |s| == |t|
    ensures s == t
  {
    forall k: nat | k < |s| ensures s[k] == t[k] {
      assert s[k] as int == t[k] as int;
      assert s[k] as int as bv8 == s[k] && t[k] as int as bv8 == t[k];
    }
  }

  lemma SameData(sb: Super, n: nat, d: Image, f: Fs, h: Fs)
    requires Sized(sb, n, f) && Sized(sb, n, h) && HoldsData(sb, d, f.data) && HoldsData(sb, d, h.data)
    ensures f.data == h.data
  {
    hide BitmapBytes;
    forall b: nat | b < |f.data| ensures f.data[b] == h.data[b] {
    }
  }

  lemma SameOwners(sb: Super, f: Fs, h: Fs)
    requires Sound(sb, f) && Sound(sb, h) && f.inode == h.inode && f.data == h.data
    ensures f.owner == h.owner
  {
    assert forall i: nat, s: nat | i < |f.inode| && s <= MAXFILE :: SlotOf(f, i, s) == SlotOf(h, i, s);
    hide Slot, SlotOf, GetWord, InUse;
    OwnersAmong(sb, f, h);
    OwnersAmong(sb, h, f);
  }

  lemma OwnersAmong(sb: Super, f: Fs, h: Fs)
    requires Sound(sb, f) && Sound(sb, h) && |f.inode| == |h.inode|
    requires forall i: nat, s: nat | i < |f.inode| && s <= MAXFILE :: SlotOf(f, i, s) == SlotOf(h, i, s)
    ensures forall b | b in f.owner :: b in h.owner && h.owner[b] == f.owner[b]
  {
    hide Slot, SlotOf, GetWord, InUse;
    forall b | b in f.owner ensures b in h.owner && h.owner[b] == f.owner[b] {
      var o := f.owner[b];
      assert SlotOf(f, o.0, o.1) == b && SlotOf(h, o.0, o.1) == b;
      OwnedNonzero(sb, f, b);
    }
  }

  lemma OwnedNonzero(sb: Super, f: Fs, b: nat)
    requires Sound(sb, f) && b in f.owner
    ensures 0 < b
  {
  }

  /** A disk holds no more than one file system: two that it holds differ at most
      in what the current transaction has logged. */
  lemma HeldOnce(sb: Super, n: nat, d: Image, f: Fs, h: Fs)
    requires FsRuns.Inv(sb, f) && FsRuns.Inv(sb, h) && Holds(sb, n, d, f) && Holds(sb, n, d, h)
    ensures h == f.(logged := h.logged)
  {
    SameInodes(sb, d, f.dinode, h.dinode);
    SameBitmap(sb, d, f.bitmap, h.bitmap);
    SameData(sb, n, d, f, h);
    hide Holds, Good;
    assert Sound(sb, f) && Sound(sb, h) && f.inode == h.inode by {
      InvMeans(sb, f);
      InvMeans(sb, h);
      SoundOf(sb, f);
      SoundOf(sb, h);
    }
    SameOwners(sb, f, h);
  }

  lemma SoundOf(sb: Super, f: Fs)
    requires Good(sb, f)
    ensures Sound(sb, f)
  {
  }

  /** iupdate of inode `i`, on the disk: the file system it then holds has the
      inode in the table and is otherwise the same. */
  lemma IupdateHolds(g: Log.Geometry, sb: Super, n: nat, d: Image, f: Fs, i: nat, ip: Inode)
    requires Placed(g, sb, n) && Holds(sb, n, d, f) && i < n && InodeTable.Fits(ip)
    ensures g.start + g.size <= IBlock(sb, i) < |d|
    ensures Holds(sb, n, Updated(sb, d, i, ip), f.(dinode := f.dinode[i := ip]))
  {
    InPlace(g, sb, n);
    var ib := IBlock(sb, i);
    assert ib < sb.bmapstart <= sb.nmeta && g.start + g.size <= ib;
    hide HoldsBits, HoldsInodes, Placed, InodeTable.Fits, IBlock, BitmapBytes, Updated;
    IupdateTable(sb, d, f.dinode, i, ip);
    BitsApart(sb, d, f.bitmap, ib, Updated(sb, d, i, ip));
    DataApart(sb, d, f.data, ib, Updated(sb, d, i, ip));
    hide HoldsData;
  }

  lemma DataApart(sb: Super, d: Image, data: seq<Block>, b: nat, e: Image)
    requires HoldsData(sb, d, data) && b < sb.nmeta && |e| == |d|
    requires forall c: nat | c < |d| && c != b :: e[c] == d[c]
    ensures HoldsData(sb, e, data)
  {
  }

  lemma BitsApart(sb: Super, d: Image, bitmap: seq<bv8>, b: nat, e: Image)
    requires HoldsBits(sb, d, bitmap) && b < sb.bmapstart && |e| == |d|
    requires forall c: nat | c < |d| && c != b :: e[c] == d[c]
    ensures HoldsBits(sb, e, bitmap)
  {
  }

  // ---- Crashes ----

  /** No call is between begin_op and end_op, and the cache is not being rebuilt. */
  predicate Quiet(s: Protocol.State) {
    !s.phase.Recovering? && forall p | 0 <= p < |s.ops| :: s.ops[p].Idle?
  }

  predicate NoCrash(steps: seq<Protocol.Step>, j: nat, k: nat) {
    forall t | j <= t < k && t < |steps| :: !steps[t].Crash?
  }

  /** `P` says something about home blocks only. */
  ghost predicate OfHomes(g: Log.Geometry, P: Image -> bool) {
    forall d, e | P(d) && Log.SameHome(g, d, e) :: P(e)
  }

  /** Whatever calls run between two quiet moments, they keep `P`. */
  ghost predicate CallsKeep(run: seq<Protocol.State>, steps: seq<Protocol.Step>, P: Image -> bool) {
    forall j, k | 0 <= j <= k < |run| && Quiet(run[j]) && Quiet(run[k]) && NoCrash(steps, j, k) && P(run[j].mem) ::
      P(run[k].mem)
  }

  /** What calls keep, the committed contents keep, and since the last crash there
      has been a quiet moment with it in the cache. */
  lemma {:induction false} CommittedKeeps(g: Log.Geometry, run: seq<Protocol.State>, steps: seq<Protocol.Step>, i: nat,
                                          P: Image -> bool)
    returns (j: nat)
    requires Protocol.IsRun(g, run, steps) && i < |run|
    requires OfHomes(g, P) && CallsKeep(run, steps, P) && P(run[0].disk)
    ensures run[i].durable <= |run[i].hist| && P(Protocol.Committed(run[i]))
    ensures !run[i].phase.Recovering? ==> j <= i && Quiet(run[j]) && NoCrash(steps, j, i) && P(run[j].mem)
  {
    hide Protocol.Inv, Protocol.Enabled, Protocol.Do, Protocol.Replay, Protocol.Shape;
    if i == 0 {
      j := 0;
      Beginning(g, run[0]);
    } else {
      j := CommittedKeeps(g, run, steps, i - 1, P);
      var s, t, s' := run[i - 1], steps[i - 1], run[i];
      Protocol.RunInv(g, run, steps, i - 1);
      CommitStep(g, s, t, s');
      if t.RecoverClear? {
        j := i;
      }
      assert t.WriteHead? ==> NoCrash(steps, j, i - 1) && P(s.mem);
      assert !s'.phase.Recovering? && !t.RecoverClear? ==> NoCrash(steps, j, i);
    }
  }

  lemma Beginning(g: Log.Geometry, s: Protocol.State)
    requires Protocol.Init(g, s)
    ensures s.durable <= |s.hist| && Protocol.Committed(s) == s.disk == s.mem && Quiet(s)
  {
  }

  /** What the steps do to the committed contents and to quiet. */
  lemma CommitStep(g: Log.Geometry, s: Protocol.State, t: Protocol.Step, s': Protocol.State)
    requires Protocol.Inv(g, s) && Protocol.Shape(g, s) && Protocol.Enabled(g, s, t) && s' == Protocol.Do(g, s, t)
    ensures s.durable <= |s.hist| && s'.durable <= |s'.hist|
    ensures t.WriteHead? ==> Quiet(s) && Log.SameHome(g, s.mem, Protocol.Committed(s'))
    ensures !t.WriteHead? ==> Protocol.Committed(s') == Protocol.Committed(s)
    ensures t.RecoverClear? ==> Quiet(s') && Log.SameHome(g, Protocol.Committed(s'), s'.mem)
    ensures t.Crash? ==> s'.phase.Recovering?
    ensures s.phase.Recovering? && !t.RecoverClear? ==> s'.phase.Recovering?
  {
    Protocol.CommitIsHeaderWrite(g, s, t);
    Protocol.StepInv(g, s, t);
    hide Protocol.Replay;
    if t.RecoverClear? {
      assert s'.hist[..s'.durable] == s'.hist;
      Protocol.OpsBounds(s'.ops);
    }
  }

  /** The calls between two quiet moments come to whole file-system operations. */
  ghost predicate CallsAreOperations(sb: Super, n: nat, run: seq<Protocol.State>, steps: seq<Protocol.Step>) {
    forall j, k, f |
      && 0 <= j <= k < |run| && Quiet(run[j]) && Quiet(run[k]) && NoCrash(steps, j, k)
      && Holds(sb, n, run[j].mem, f) && FsRuns.Inv(sb, f) ::
      exists h :: Holds(sb, n, run[k].mem, h) && FsRuns.Leads(sb, f, h)
  }

  /** From the disk mkfs makes, a crash at any point and a recovery, itself crashed
      any number of times, leave a disk that holds a file system to which whole
      operations lead, and so one that is consistent. */
  lemma CrashedFileSystem(g: Log.Geometry, sb: Super, n: nat, run: seq<Protocol.State>, steps: seq<Protocol.Step>,
                          i: nat, crashes: seq<nat>)
    requires Protocol.IsRun(g, run, steps) && i < |run|
    requires Placed(g, sb, n) && FsRuns.Makes(sb, n) && Holds(sb, n, run[0].disk, Root(sb, n))
    requires CallsAreOperations(sb, n, run, steps)
    ensures Log.WellFormed(g, run[i].disk)
    ensures exists h ::
              && Holds(sb, n, Log.RecoverThroughCrashes(g, run[i].disk, crashes), h)
              && FsRuns.Leads(sb, Root(sb, n), h) && Good(sb, h) && Namei.Tree(sb, h)
  {
    hide Protocol.IsRun, Holds, FsRuns.Leads, Root, Protocol.Replay, FsRuns.Inv, Log.RecoverThroughCrashes;
    FsRuns.LeadsNowhere(sb, Root(sb, n));
    FsRuns.RootInv(sb, n);
    HomesOnly(g, sb, n, Root(sb, n));
    OperationsKeep(sb, n, Root(sb, n), run, steps);
    var j := CommittedKeeps(g, run, steps, i, d => Reached(sb, n, Root(sb, n), d));
    Protocol.RunCrashSafety(g, run, steps, i, crashes);
    var d := Log.RecoverThroughCrashes(g, run[i].disk, crashes);
    assert Log.SameHome(g, Protocol.Committed(run[i]), d);
    assert Reached(sb, n, Root(sb, n), d);
    var h :| Holds(sb, n, d, h) && FsRuns.Leads(sb, Root(sb, n), h);
    FsRuns.LeadsInv(sb, Root(sb, n), h);
    InvMeans(sb, h);
  }

  lemma InvMeans(sb: Super, h: Fs)
    requires FsRuns.Inv(sb, h)
    ensures Good(sb, h) && Namei.Tree(sb, h)
  {
    hide Good;
  }

  /** The disk holds a file system that operations lead to from `r`. */
  ghost predicate Reached(sb: Super, n: nat, r: Fs, d: Image) {
    exists h :: Holds(sb, n, d, h) && FsRuns.Leads(sb, r, h)
  }

  lemma HomesOnly(g: Log.Geometry, sb: Super, n: nat, r: Fs)
    requires Placed(g, sb, n)
    ensures OfHomes(g, d => Reached(sb, n, r, d))
  {
    hide Holds, FsRuns.Leads, Log.SameHome, Placed;
    forall d, e | Reached(sb, n, r, d) && Log.SameHome(g, d, e) ensures Reached(sb, n, r, e) {
      var h :| Holds(sb, n, d, h) && FsRuns.Leads(sb, r, h);
      HomesHold(g, sb, n, d, e, h);
    }
  }

  lemma OperationsKeep(sb: Super, n: nat, r: Fs, run: seq<Protocol.State>, steps: seq<Protocol.Step>)
    requires CallsAreOperations(sb, n, run, steps) && FsRuns.Inv(sb, r)
    ensures CallsKeep(run, steps, d => Reached(sb, n, r, d))
  {
    hide Holds, FsRuns.Leads, FsRuns.Inv, Quiet, NoCrash;
    forall j, k | 0 <= j <= k < |run| && Quiet(run[j]) && Quiet(run[k]) && NoCrash(steps, j, k)
                  && Reached(sb, n, r, run[j].mem)
      ensures Reached(sb, n, r, run[k].mem)
    {
      var f :| Holds(sb, n, run[j].mem, f) && FsRuns.Leads(sb, r, f);
      FsRuns.LeadsInv(sb, r, f);
      var h :| Holds(sb, n, run[k].mem, h) && FsRuns.Leads(sb, f, h);
      FsRuns.LeadsOn(sb, r, f, h);
    }
  }
}
