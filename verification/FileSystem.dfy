/** Block allocation, inode block maps and file contents, after `fs.c`. Blocks
    are held by number, as bread returns them; the bitmap and the inode table
    occupy the metadata blocks and are held in decoded form. */
module FileSystem {
  import opened Disk
  import opened Bitmap
  import opened Wrappers

  const NDIRECT := 12
  const NINDIRECT := WORDS
  const MAXFILE := NDIRECT + NINDIRECT
  const MAXBYTES := 71680   // MAXFILE * BSIZE
  const BPB := BSIZE * 8
  const IPB := 8

  datatype Super = Super(size: nat, nmeta: nat, bmapstart: nat, inodestart: nat)

  /** Block of the free map that holds the bit of block `b`. */
  function BBlock(sb: Super, b: nat): nat {
    b / BPB + sb.bmapstart
  }

  /** Block of the inode table that holds inode `i`. */
  function IBlock(sb: Super, i: nat): nat {
    i / IPB + sb.inodestart
  }

  datatype Kind = Free | Dir | File

  datatype Inode = Inode(kind: Kind, nlink: int, size: nat, addrs: seq<nat>)

  /** The whole file system at one instant. `owner` and `logged` are for the
      proofs: which slot of which inode refers to a block, and which blocks the
      current transaction has passed to log_write. */
  datatype Fs = Fs(bitmap: seq<bv8>, data: seq<Block>, inode: seq<Inode>, dinode: seq<Inode>,
                   owner: map<nat, (nat, nat)>, logged: set<nat>)

  /** The slots of an inode: its data blocks 0..MAXFILE - 1 and, numbered
      MAXFILE, its indirect block. A slot is 0 when it holds no block. */
  function Slot(ip: Inode, data: seq<Block>, s: nat): nat
    requires |ip.addrs| == NDIRECT + 1
  {
    if s < NDIRECT then ip.addrs[s]
    else if s >= MAXFILE then ip.addrs[NDIRECT]
    else if 0 < ip.addrs[NDIRECT] < |data| then GetWord(data[ip.addrs[NDIRECT]], s - NDIRECT)
    else 0
  }

  predicate Shape(sb: Super, f: Fs) {
    && 1 <= sb.nmeta <= sb.size == |f.data| < 0x1_0000_0000
    && sb.size <= 8 * |f.bitmap|
    && |f.dinode| == |f.inode|
    && (forall i | 0 <= i < |f.inode| ::
          |f.inode[i].addrs| == NDIRECT + 1 && f.inode[i].size <= MAXBYTES)
  }

  function SlotOf(f: Fs, i: nat, s: nat): nat
    requires i < |f.inode| && |f.inode[i].addrs| == NDIRECT + 1
  {
    Slot(f.inode[i], f.data, s)
  }

  /** Bitmap, block maps and `owner` tell the same story. */
  ghost predicate BitsMatch(sb: Super, f: Fs)
    requires Shape(sb, f)
  {
    forall b | 0 <= b < sb.size :: InUse(f.bitmap, b) <==> b < sb.nmeta || b in f.owner
  }

  ghost predicate SlotsOwned(sb: Super, f: Fs)
    requires Shape(sb, f)
  {
    && (forall i: nat, s: nat | i < |f.inode| && s <= MAXFILE && SlotOf(f, i, s) != 0 ::
          SlotOf(f, i, s) in f.owner && f.owner[SlotOf(f, i, s)] == (i, s))
    && (forall b | b in f.owner ::
          && sb.nmeta <= b < sb.size && f.owner[b].0 < |f.inode| && f.owner[b].1 <= MAXFILE
          && SlotOf(f, f.owner[b].0, f.owner[b].1) == b)
  }

  ghost predicate NoHoles(sb: Super, f: Fs)
    requires Shape(sb, f)
  {
    forall i: nat, bn: nat | i < |f.inode| && bn * BSIZE < f.inode[i].size :: SlotOf(f, i, bn) != 0
  }

  /** All but the absence of holes. */
  ghost predicate Sound(sb: Super, f: Fs) {
    Shape(sb, f) && BitsMatch(sb, f) && SlotsOwned(sb, f)
  }

  ghost predicate Good(sb: Super, f: Fs) {
    Sound(sb, f) && NoHoles(sb, f)
  }

  // ---- Ownership ----

  /** What SlotsOwned means: blocks in use are the metadata blocks and, pairwise
      distinct, the blocks that the slots of inodes refer to. */
  lemma BlockOwnership(sb: Super, f: Fs)
    requires Good(sb, f)
    ensures forall b: nat | b < sb.size ::
              InUse(f.bitmap, b) <==>
              b < sb.nmeta || exists i: nat, s: nat :: i < |f.inode| && s <= MAXFILE && SlotOf(f, i, s) == b
    ensures forall i: nat, s: nat, j: nat, t: nat |
              i < |f.inode| && j < |f.inode| && s <= MAXFILE && t <= MAXFILE && (i, s) != (j, t)
              && SlotOf(f, i, s) != 0 :: SlotOf(f, i, s) != SlotOf(f, j, t)
    ensures forall i: nat, s: nat | i < |f.inode| && s <= MAXFILE && SlotOf(f, i, s) != 0 ::
              sb.nmeta <= SlotOf(f, i, s) < sb.size
  {
    hide InUse, Slot, GetWord;
    forall b: nat | b < sb.size
      ensures InUse(f.bitmap, b) <==>
              b < sb.nmeta || exists i: nat, s: nat :: i < |f.inode| && s <= MAXFILE && SlotOf(f, i, s) == b
    {
      if b in f.owner {
        assert SlotOf(f, f.owner[b].0, f.owner[b].1) == b;
      }
    }
  }

  lemma ZeroWords(k: nat)
    requires k < WORDS
    ensures GetWord(ZeroBlock(), k) == 0
  {
  }

  /** Slots are read off the inodes and their indirect blocks only. */
  lemma SlotFrame(sb: Super, f: Fs, data: seq<Block>)
    requires Sound(sb, f) && |data| == |f.data|
    requires forall b | b in f.owner && f.owner[b].1 == MAXFILE :: data[b] == f.data[b]
    ensures forall i: nat, s: nat | i < |f.inode| && s <= MAXFILE ::
              Slot(f.inode[i], data, s) == SlotOf(f, i, s)
  {
    forall i: nat, s: nat | i < |f.inode| && s <= MAXFILE
      ensures Slot(f.inode[i], data, s) == SlotOf(f, i, s)
    {
      var a := SlotOf(f, i, MAXFILE);
      assert a != 0 ==> f.owner[a] == (i, MAXFILE);
    }
  }

  /** Block `b` is not in use and may be handed out. */
  predicate FreshBlock(sb: Super, f: Fs, b: nat) {
    sb.nmeta <= b < sb.size && b !in f.owner
  }

  /** What balloc leaves behind: `b` marked, zeroed and logged. */
  function Allocated(sb: Super, f: Fs, b: nat): Fs
    requires Shape(sb, f) && b < sb.size
  {
    f.(bitmap := Mark(f.bitmap, b), data := f.data[b := ZeroBlock()],
       logged := f.logged + {BBlock(sb, b), b})
  }

  /** Block `b`, just allocated, entered in slot `s` of inode `i`. */
  function EnterDirect(f: Fs, i: nat, s: nat, b: nat): Fs
    requires i < |f.inode| && |f.inode[i].addrs| == NDIRECT + 1 && (s < NDIRECT || s == MAXFILE)
  {
    f.(inode := f.inode[i := f.inode[i].(addrs := f.inode[i].addrs[if s < NDIRECT then s else NDIRECT := b])],
       owner := f.owner[b := (i, s)])
  }

  function EnterIndirect(f: Fs, i: nat, s: nat, b: Word): Fs
    requires i < |f.inode| && |f.inode[i].addrs| == NDIRECT + 1 && NDIRECT <= s < MAXFILE
    requires f.inode[i].addrs[NDIRECT] < |f.data|
  {
    var ind := f.inode[i].addrs[NDIRECT];
    f.(data := f.data[ind := SetWord(f.data[ind], s - NDIRECT, b)],
       owner := f.owner[b := (i, s)], logged := f.logged + {ind})
  }

  predicate SameSlotsBut(f: Fs, g: Fs, i: nat, s: nat)
    requires |f.inode| == |g.inode|
    requires forall j | 0 <= j < |f.inode| ::
               |f.inode[j].addrs| == |g.inode[j].addrs| == NDIRECT + 1
  {
    forall j: nat, t: nat | j < |f.inode| && t <= MAXFILE && (j, t) != (i, s) ::
      SlotOf(g, j, t) == SlotOf(f, j, t)
  }

  lemma NotInUse(sb: Super, f: Fs, b: nat)
    requires Shape(sb, f) && BitsMatch(sb, f) && b < sb.size && !InUse(f.bitmap, b)
    ensures FreshBlock(sb, f, b)
  {
    hide InUse;
  }

  lemma MarkMatches(sb: Super, f: Fs, b: nat, o: (nat, nat), g: Fs)
    requires Shape(sb, f) && BitsMatch(sb, f) && FreshBlock(sb, f, b)
    requires Shape(sb, g) && g.bitmap == Mark(f.bitmap, b) && g.owner == f.owner[b := o]
    ensures BitsMatch(sb, g)
  {
    hide InUse, Mark, Slot;
    forall c: nat | c < sb.size
      ensures InUse(g.bitmap, c) <==> c < sb.nmeta || c in g.owner
    {
      OneBitChanges(f.bitmap, b, c);
    }
  }

  /** Entering block `b` in the one slot `(i, s)` that was empty keeps the
      agreement of maps and owners, and makes no hole. */
  lemma OneSlotGood(sb: Super, f: Fs, g: Fs, i: nat, s: nat, b: nat)
    requires Sound(sb, f) && FreshBlock(sb, f, b) && Shape(sb, g) && i < |f.inode| == |g.inode| && s <= MAXFILE
    requires SlotOf(f, i, s) == 0 && SlotOf(g, i, s) == b && SameSlotsBut(f, g, i, s)
    requires g.bitmap == Mark(f.bitmap, b) && g.owner == f.owner[b := (i, s)]
    requires forall j | 0 <= j < |f.inode| :: g.inode[j].size == f.inode[j].size
    ensures Sound(sb, g) && (NoHoles(sb, f) ==> NoHoles(sb, g))
  {
    hide InUse, Mark, GetWord, Slot, SlotOf, BitsMatch;
    MarkMatches(sb, f, b, (i, s), g);
    if NoHoles(sb, f) {
      forall j: nat, bn: nat | j < |g.inode| && bn * BSIZE < g.inode[j].size ensures SlotOf(g, j, bn) != 0 {
        assert SlotOf(f, j, bn) != 0;
      }
    }
  }

  lemma EnterDirectGood(sb: Super, f: Fs, i: nat, s: nat, b: nat)
    requires Sound(sb, f) && FreshBlock(sb, f, b)
    requires i < |f.inode| && (s < NDIRECT || s == MAXFILE) && SlotOf(f, i, s) == 0
    ensures var g := EnterDirect(Allocated(sb, f, b), i, s, b);
      && Sound(sb, g) && (NoHoles(sb, f) ==> NoHoles(sb, g))
      && SlotOf(g, i, s) == b && SameSlotsBut(f, g, i, s)
  {
    EnterDirectSlots(sb, f, i, s, b);
    hide InUse, Mark, GetWord, Slot, SlotOf, BitsMatch, SlotsOwned, NoHoles, SameSlotsBut;
    OneSlotGood(sb, f, EnterDirect(Allocated(sb, f, b), i, s, b), i, s, b);
  }

  lemma EnterDirectSlots(sb: Super, f: Fs, i: nat, s: nat, b: nat)
    requires Sound(sb, f) && FreshBlock(sb, f, b)
    requires i < |f.inode| && (s < NDIRECT || s == MAXFILE) && SlotOf(f, i, s) == 0
    ensures var g := EnterDirect(Allocated(sb, f, b), i, s, b);
            Shape(sb, g) && SlotOf(g, i, s) == b && SameSlotsBut(f, g, i, s)
  {
    hide InUse, Mark, GetWord, SetWord, BitsMatch, NoHoles;
    var a := Allocated(sb, f, b);
    var g := EnterDirect(a, i, s, b);
    SlotFrame(sb, f, a.data);
    assert g.data == a.data;
    if s == MAXFILE {
      forall k: nat | k < WORDS ensures GetWord(g.data[b], k) == 0 {
        ZeroWords(k);
      }
    }
  }

  lemma EnterIndirectGood(sb: Super, f: Fs, i: nat, s: nat, b: nat)
    requires Sound(sb, f) && FreshBlock(sb, f, b)
    requires i < |f.inode| && NDIRECT <= s < MAXFILE && SlotOf(f, i, s) == 0
    requires f.inode[i].addrs[NDIRECT] != 0
    ensures f.inode[i].addrs[NDIRECT] < sb.size
    ensures var g := EnterIndirect(Allocated(sb, f, b), i, s, b);
      && Sound(sb, g) && (NoHoles(sb, f) ==> NoHoles(sb, g))
      && SlotOf(g, i, s) == b && SameSlotsBut(f, g, i, s)
  {
    EnterIndirectSlots(sb, f, i, s, b);
    hide InUse, Mark, GetWord, SetWord, Slot, SlotOf, BitsMatch, SlotsOwned, NoHoles, SameSlotsBut;
    OneSlotGood(sb, f, EnterIndirect(Allocated(sb, f, b), i, s, b), i, s, b);
  }

  lemma EnterIndirectSlots(sb: Super, f: Fs, i: nat, s: nat, b: nat)
    requires Sound(sb, f) && FreshBlock(sb, f, b)
    requires i < |f.inode| && NDIRECT <= s < MAXFILE && SlotOf(f, i, s) == 0
    requires f.inode[i].addrs[NDIRECT] != 0
    ensures f.inode[i].addrs[NDIRECT] < sb.size
    ensures var g := EnterIndirect(Allocated(sb, f, b), i, s, b);
            Shape(sb, g) && SlotOf(g, i, s) == b && SameSlotsBut(f, g, i, s)
  {
    hide InUse, Mark, GetWord, SetWord, BitsMatch, NoHoles;
    var ind := f.inode[i].addrs[NDIRECT];
    assert SlotOf(f, i, MAXFILE) == ind && ind in f.owner;
    var a := Allocated(sb, f, b);
    var g := EnterIndirect(a, i, s, b);
    WordRoundTrip(f.data[ind], s - NDIRECT, b);
    SlotFrame(sb, f, a.data);
    forall j: nat, t: nat | j < |f.inode| && t <= MAXFILE && (j, t) != (i, s)
      ensures SlotOf(g, j, t) == SlotOf(f, j, t)
    {
      assert SlotOf(f, j, MAXFILE) == ind ==> j == i;
    }
  }

  // ---- Contents ----

  function ByteAt(f: Fs, i: nat, k: nat): Byte
    requires i < |f.inode| && |f.inode[i].addrs| == NDIRECT + 1
    requires SlotOf(f, i, k / BSIZE) < |f.data|
  {
    f.data[SlotOf(f, i, k / BSIZE)][k % BSIZE]
  }

  lemma SlotInRange(sb: Super, f: Fs, i: nat, s: nat)
    requires Sound(sb, f) && i < |f.inode| && s <= MAXFILE
    ensures SlotOf(f, i, s) < |f.data| && (SlotOf(f, i, s) != 0 ==> sb.nmeta <= SlotOf(f, i, s))
  {
    hide Slot, GetWord, InUse;
    assert SlotOf(f, i, s) != 0 ==> SlotOf(f, i, s) in f.owner;
  }

  /** The bytes of file `i`. */
  ghost function Contents(sb: Super, f: Fs, i: nat): (r: seq<Byte>)
    requires Good(sb, f) && i < |f.inode|
    ensures |r| == f.inode[i].size
    ensures forall k: nat | k < |r| ::
              SlotOf(f, i, k / BSIZE) < |f.data| && r[k] == ByteAt(f, i, k)
  {
    forall k: nat | k < f.inode[i].size ensures SlotOf(f, i, k / BSIZE) < |f.data| {
      SlotInRange(sb, f, i, k / BSIZE);
    }
    seq(f.inode[i].size, k requires 0 <= k < f.inode[i].size => ByteAt(f, i, k))
  }

  /** Where byte `k` of a file is: in one of twelve blocks that the inode names, or
      in a block named by the indirect block, in words low byte first. */
  lemma WhereBytesAre(sb: Super, f: Fs, i: nat, k: nat)
    requires Good(sb, f) && i < |f.inode| && k < f.inode[i].size
    ensures var a := f.inode[i].addrs;
      |a| == 13 && k / 512 < 140
      && (k < 6144 ==> a[k / 512] < |f.data| && Contents(sb, f, i)[k] == f.data[a[k / 512]][k % 512])
      && (k >= 6144 ==>
            && a[12] < |f.data|
            && var m, w := f.data[a[12]], 4 * (k / 512 - 12);
            var b := (m[w] as int) + 256 * (m[w + 1] as int) + 65536 * (m[w + 2] as int) + 16777216 * (m[w + 3] as int);
            b < |f.data| && Contents(sb, f, i)[k] == f.data[b][k % 512])
  {
    var bn := k / 512;
    assert Contents(sb, f, i)[k] == ByteAt(f, i, k) && SlotOf(f, i, bn) != 0;
    SlotInRange(sb, f, i, bn);
    hide InUse, BitsMatch, SlotsOwned, NoHoles, Contents;
  }

  /** Every inode but `i` has kept its map and its blocks. */
  ghost predicate OthersKept(sb: Super, f: Fs, g: Fs, i: nat)
    requires Sound(sb, f) && Sound(sb, g)
  {
    && |g.inode| == |f.inode|
    && (forall j | 0 <= j < |f.inode| && j != i :: g.inode[j] == f.inode[j])
    && (forall j: nat, s: nat | j < |f.inode| && j != i && s <= MAXFILE ::
          SlotOf(g, j, s) == SlotOf(f, j, s))
    && (forall b | b in f.owner && f.owner[b].0 != i :: g.data[b] == f.data[b])
  }

  lemma OthersUnchanged(sb: Super, f: Fs, g: Fs, i: nat)
    requires Good(sb, f) && Good(sb, g) && OthersKept(sb, f, g, i)
    ensures forall j: nat | j < |f.inode| && j != i :: Contents(sb, g, j) == Contents(sb, f, j)
  {
    hide Slot, GetWord, InUse;
    forall j: nat | j < |f.inode| && j != i
      ensures Contents(sb, g, j) == Contents(sb, f, j)
    {
      forall k: nat | k < f.inode[j].size
        ensures Contents(sb, g, j)[k] == Contents(sb, f, j)[k]
      {
        assert SlotOf(f, j, k / BSIZE) != 0;
        assert f.owner[SlotOf(f, j, k / BSIZE)].0 == j;
      }
    }
  }

  // ---- What the log has to hold ----

  /** From `f` to `g` no block has changed but those in `logged`: no data block, no
      block of the bitmap, no block of the inode table. (These last two are held in
      decoded form and leave their places among the data blocks alone.) */
  ghost predicate ChangesOnly(sb: Super, f: Fs, g: Fs, logged: set<nat>) {
    && |g.data| == |f.data| && |g.dinode| == |f.dinode|
    && (forall b: nat | b < |f.data| && (b !in logged || b < sb.nmeta) :: g.data[b] == f.data[b])
    && BitmapChanges(sb, f.bitmap, g.bitmap, logged)
    && (forall i: nat | i < |f.dinode| && IBlock(sb, i) !in logged :: g.dinode[i] == f.dinode[i])
  }

  /** Block `b` holds data, inodes or bits of the bitmap. */
  predicate IsBlock(sb: Super, n: nat, b: nat) {
    || sb.nmeta <= b < sb.size
    || (sb.inodestart <= b && (b - sb.inodestart) * IPB < n)
    || (sb.bmapstart <= b && (b - sb.bmapstart) * BPB < sb.size)
  }

  ghost predicate AreBlocks(sb: Super, n: nat, logged: set<nat>) {
    forall b | b in logged :: IsBlock(sb, n, b)
  }

  /** What has changed is among what has been logged meanwhile. */
  ghost predicate Logs(sb: Super, f: Fs, g: Fs) {
    exists l: set<nat> :: g.logged == f.logged + l && ChangesOnly(sb, f, g, l) && AreBlocks(sb, |f.dinode|, l)
  }

  lemma LogsTheChanges(sb: Super, f: Fs, g: Fs, l: set<nat>)
    requires g.logged == f.logged + l && ChangesOnly(sb, f, g, l) && AreBlocks(sb, |f.dinode|, l)
    ensures Logs(sb, f, g)
  {
  }

  /** A step more in a transaction that began at `f`. */
  lemma LogsMore(sb: Super, f: Fs, g: Fs, h: Fs)
    requires ChangesOnly(sb, f, g, g.logged) && AreBlocks(sb, |f.dinode|, g.logged) && Logs(sb, g, h)
    ensures ChangesOnly(sb, f, h, h.logged) && AreBlocks(sb, |f.dinode|, h.logged)
  {
    assert |g.dinode| == |f.dinode|;
    hide ChangesOnly, IsBlock;
    var l: set<nat> :| h.logged == g.logged + l && ChangesOnly(sb, g, h, l) && AreBlocks(sb, |g.dinode|, l);
    ChangesTransitive(sb, f, g, h, g.logged, l, h.logged);
  }

  ghost predicate BitmapChanges(sb: Super, before: seq<bv8>, after: seq<bv8>, logged: set<nat>) {
    && |after| == |before|
    && forall k: nat | k < |before| && sb.bmapstart + k / BSIZE !in logged :: after[k] == before[k]
  }

  lemma UnmarkChanges(sb: Super, before: seq<bv8>, after: seq<bv8>, logged: set<nat>, b: nat)
    requires BitmapChanges(sb, before, after, logged) && b / 8 < |after|
    ensures BitmapChanges(sb, before, Unmark(after, b), logged + {BBlock(sb, b)})
  {
    ByteOfBit(b);
  }

  lemma ChangesNothing(sb: Super, f: Fs, g: Fs, logged: set<nat>)
    requires g.data == f.data && g.bitmap == f.bitmap && g.dinode == f.dinode
    ensures ChangesOnly(sb, f, g, logged)
  {
  }

  lemma ChangesTransitive(sb: Super, f: Fs, g: Fs, h: Fs, l: set<nat>, m: set<nat>, all: set<nat>)
    requires ChangesOnly(sb, f, g, l) && ChangesOnly(sb, g, h, m) && l + m <= all
    ensures ChangesOnly(sb, f, h, all)
  {
    hide IBlock;
  }

  lemma ByteOfBit(b: nat)
    ensures b / 8 / BSIZE == b / BPB && b / 8 % BSIZE == b % BPB / 8
  {
    assert b == BPB * (b / BPB) + b % BPB;
  }

  /** One bit of the bitmap. */
  lemma BitChanges(sb: Super, f: Fs, g: Fs, b: nat)
    requires b / 8 < |f.bitmap| == |g.bitmap| && g.bitmap == f.bitmap[b / 8 := g.bitmap[b / 8]]
    requires g.data == f.data && g.dinode == f.dinode
    ensures ChangesOnly(sb, f, g, {BBlock(sb, b)})
  {
    ByteOfBit(b);
  }

  lemma BlockChanges(sb: Super, f: Fs, g: Fs, b: nat)
    requires sb.nmeta <= b < |f.data| == |g.data| && g.data == f.data[b := g.data[b]]
    requires g.bitmap == f.bitmap && g.dinode == f.dinode
    ensures ChangesOnly(sb, f, g, {b})
  {
  }

  lemma AllocatedChanges(sb: Super, f: Fs, b: nat)
    requires Shape(sb, f) && sb.nmeta <= b < sb.size
    ensures ChangesOnly(sb, f, Allocated(sb, f, b), {b, BBlock(sb, b)})
  {
    var g := f.(bitmap := Mark(f.bitmap, b));
    BitChanges(sb, f, g, b);
    BlockChanges(sb, g, Allocated(sb, f, b), b);
    hide BBlock, Mark, ChangesOnly;
    ChangesTransitive(sb, f, g, Allocated(sb, f, b), {BBlock(sb, b)}, {b}, {b, BBlock(sb, b)});
  }

  lemma EnterDirectChanges(sb: Super, f: Fs, i: nat, s: nat, b: nat)
    requires Shape(sb, f) && sb.nmeta <= b < sb.size && i < |f.inode| && (s < NDIRECT || s == MAXFILE)
    ensures ChangesOnly(sb, f, EnterDirect(Allocated(sb, f, b), i, s, b), {b, BBlock(sb, b)})
  {
    AllocatedChanges(sb, f, b);
    hide BBlock, Mark;
    var a := Allocated(sb, f, b);
    ChangesNothing(sb, a, EnterDirect(a, i, s, b), {});
    hide ChangesOnly, Allocated, EnterDirect;
    ChangesTransitive(sb, f, a, EnterDirect(a, i, s, b), {b, BBlock(sb, b)}, {}, {b, BBlock(sb, b)});
  }

  lemma EnterIndirectChanges(sb: Super, f: Fs, i: nat, s: nat, b: nat)
    requires Shape(sb, f) && sb.nmeta <= b < sb.size && i < |f.inode| && NDIRECT <= s < MAXFILE
    requires sb.nmeta <= f.inode[i].addrs[NDIRECT] < |f.data|
    ensures ChangesOnly(sb, f, EnterIndirect(Allocated(sb, f, b), i, s, b),
                        {b, BBlock(sb, b), f.inode[i].addrs[NDIRECT]})
  {
    AllocatedChanges(sb, f, b);
    hide BBlock, Mark, SetWord;
    var a, ind := Allocated(sb, f, b), f.inode[i].addrs[NDIRECT];
    BlockChanges(sb, a, EnterIndirect(a, i, s, b), ind);
    hide ChangesOnly, Allocated, EnterIndirect;
    ChangesTransitive(sb, f, a, EnterIndirect(a, i, s, b), {b, BBlock(sb, b)}, {ind}, {b, BBlock(sb, b), ind});
  }

  // ---- One call to bmap ----

  /** `g` is `f` with more blocks in inode `i`: nothing already there has moved. */
  ghost predicate Extended(sb: Super, f: Fs, g: Fs, i: nat) {
    && Sound(sb, f) && Sound(sb, g) && i < |f.inode|
    && OthersKept(sb, f, g, i) && g.dinode == f.dinode
    && g.inode[i] == f.inode[i].(addrs := g.inode[i].addrs)
    && (forall s: nat | s <= MAXFILE && SlotOf(f, i, s) != 0 :: SlotOf(g, i, s) == SlotOf(f, i, s))
  }

  function NewSlots(f: Fs, g: Fs, i: nat): set<nat>
    requires i < |f.inode| && |f.inode[i].addrs| == NDIRECT + 1
    requires i < |g.inode| && |g.inode[i].addrs| == NDIRECT + 1
  {
    set s: nat | s <= MAXFILE && SlotOf(f, i, s) == 0 && SlotOf(g, i, s) != 0
  }

  /** The blocks logged for the allocations that lead from `f` to `g`: the new
      blocks, their bitmap blocks, and the indirect block if an entry was made. */
  ghost function AllocLog(sb: Super, f: Fs, g: Fs, i: nat): set<nat>
    requires i < |f.inode| && |f.inode[i].addrs| == NDIRECT + 1
    requires i < |g.inode| && |g.inode[i].addrs| == NDIRECT + 1
  {
    (set s | s in NewSlots(f, g, i) :: SlotOf(g, i, s))
    + (set s | s in NewSlots(f, g, i) :: BBlock(sb, SlotOf(g, i, s)))
    + (if exists s :: s in NewSlots(f, g, i) && NDIRECT <= s < MAXFILE
       then {SlotOf(g, i, MAXFILE)} else {})
  }

  /** What bmap does: slot `bn` now holds a block, zeroed if it is a new one. */
  ghost predicate Mapped(sb: Super, f: Fs, g: Fs, i: nat, bn: nat) {
    && Extended(sb, f, g, i) && bn < MAXFILE
    && SlotOf(g, i, bn) != 0
    && (SlotOf(f, i, bn) != 0 ==> g == f)
    && (SlotOf(f, i, bn) == 0 ==> SlotOf(g, i, bn) < |g.data| && g.data[SlotOf(g, i, bn)] == ZeroBlock())
    && (forall s: nat | s < MAXFILE && s != bn :: SlotOf(g, i, s) == SlotOf(f, i, s))
    && (forall s: nat | s < MAXFILE && SlotOf(f, i, s) != 0 ::
          SlotOf(f, i, s) < |f.data| && g.data[SlotOf(f, i, s)] == f.data[SlotOf(f, i, s)])
    && g.logged == f.logged + AllocLog(sb, f, g, i) && ChangesOnly(sb, f, g, AllocLog(sb, f, g, i))
  }

  /** Filling one slot of inode `i` extends it. */
  lemma FillsOneSlot(sb: Super, f: Fs, g: Fs, i: nat, s: nat)
    requires Sound(sb, f) && Sound(sb, g) && i < |f.inode| == |g.inode| && s <= MAXFILE
    requires SameSlotsBut(f, g, i, s) && SlotOf(f, i, s) == 0 && SlotOf(g, i, s) != 0
    requires forall j | 0 <= j < |f.inode| && j != i :: g.inode[j] == f.inode[j]
    requires g.inode[i] == f.inode[i].(addrs := g.inode[i].addrs) && g.dinode == f.dinode
    requires forall b | b in f.owner && f.owner[b].0 != i :: b < |f.data| && g.data[b] == f.data[b]
    ensures Extended(sb, f, g, i) && NewSlots(f, g, i) == {s}
    ensures forall t: nat | t <= MAXFILE && t != s :: SlotOf(g, i, t) == SlotOf(f, i, t)
  {
    hide InUse, GetWord, BitsMatch, NoHoles, Slot, SlotOf, SlotsOwned;
    assert forall t: nat | t <= MAXFILE && t != s :: (i, t) != (i, s);
  }

  lemma EnterDirectExtends(sb: Super, f: Fs, i: nat, s: nat, b: nat)
    requires Sound(sb, f) && FreshBlock(sb, f, b)
    requires i < |f.inode| && (s < NDIRECT || s == MAXFILE) && SlotOf(f, i, s) == 0
    ensures var g := EnterDirect(Allocated(sb, f, b), i, s, b);
      && Extended(sb, f, g, i) && NewSlots(f, g, i) == {s} && SlotOf(g, i, s) == b
      && (forall t: nat | t <= MAXFILE && t != s :: SlotOf(g, i, t) == SlotOf(f, i, t))
      && (forall c | c in f.owner :: c != b && g.data[c] == f.data[c])
  {
    hide InUse, Mark, GetWord, SetWord, BitsMatch, NoHoles, Slot, SlotOf, SlotsOwned, SameSlotsBut,
         Extended, NewSlots;
    EnterDirectGood(sb, f, i, s, b);
    OwnedInRange(sb, f);
    FillsOneSlot(sb, f, EnterDirect(Allocated(sb, f, b), i, s, b), i, s);
  }

  lemma OwnedInRange(sb: Super, f: Fs)
    requires Sound(sb, f)
    ensures forall b | b in f.owner :: b < |f.data|
    ensures forall i: nat, s: nat | i < |f.inode| && s <= MAXFILE && SlotOf(f, i, s) != 0 ::
              SlotOf(f, i, s) in f.owner && f.owner[SlotOf(f, i, s)] == (i, s)
  {
    hide InUse, GetWord, Slot, SlotOf;
  }

  lemma EnterDirectMapped(sb: Super, f: Fs, i: nat, bn: nat, b: nat)
    requires Sound(sb, f) && FreshBlock(sb, f, b)
    requires i < |f.inode| && bn < NDIRECT && SlotOf(f, i, bn) == 0
    ensures var g := EnterDirect(Allocated(sb, f, b), i, bn, b);
            Mapped(sb, f, g, i, bn) && SlotOf(g, i, bn) == b
  {
    hide InUse, Mark, GetWord, SetWord, BitsMatch, Slot, SlotOf, SlotsOwned, NoHoles, Extended, NewSlots;
    EnterDirectExtends(sb, f, i, bn, b);
    OwnedInRange(sb, f);
    EnterDirectChanges(sb, f, i, bn, b);
    var g := EnterDirect(Allocated(sb, f, b), i, bn, b);
    assert AllocLog(sb, f, g, i) == {b} + {BBlock(sb, b)};
    hide ChangesOnly;
    assert {b} + {BBlock(sb, b)} == {b, BBlock(sb, b)};
  }

  /** `g` is `f` with block `b` entered in the indirect block, in slot `bn`. */
  ghost predicate EntryAdded(sb: Super, f: Fs, g: Fs, i: nat, bn: nat, b: nat) {
    && Extended(sb, f, g, i) && NewSlots(f, g, i) == {bn} && SlotOf(g, i, bn) == b
    && SlotOf(g, i, MAXFILE) == SlotOf(f, i, MAXFILE) == f.inode[i].addrs[NDIRECT]
    && (forall s: nat | s < MAXFILE && s != bn :: SlotOf(g, i, s) == SlotOf(f, i, s))
  }

  lemma EntryFills(sb: Super, f: Fs, g: Fs, i: nat, bn: nat, b: nat)
    requires Sound(sb, f) && Sound(sb, g) && g.inode == f.inode && g.dinode == f.dinode && i < |f.inode|
    requires NDIRECT <= bn < MAXFILE && b != 0
    requires SlotOf(f, i, bn) == 0 && SlotOf(g, i, bn) == b && SameSlotsBut(f, g, i, bn)
    requires SlotOf(f, i, MAXFILE) == f.inode[i].addrs[NDIRECT]
    requires forall c | c in f.owner && f.owner[c].0 != i :: c < |f.data| && g.data[c] == f.data[c]
    ensures EntryAdded(sb, f, g, i, bn, b)
  {
    hide InUse, GetWord, Good, Slot, SlotOf, SameSlotsBut, Extended, NewSlots;
    FillsOneSlot(sb, f, g, i, bn);
  }

  /** Only the new block and the indirect block of `i` are written. */
  lemma EntryFrame(sb: Super, f: Fs, i: nat, bn: nat, b: nat)
    requires Sound(sb, f) && FreshBlock(sb, f, b) && i < |f.inode| && NDIRECT <= bn < MAXFILE
    requires SlotOf(f, i, MAXFILE) != 0
    ensures b != f.inode[i].addrs[NDIRECT] < |f.data| && SlotOf(f, i, MAXFILE) == f.inode[i].addrs[NDIRECT]
    ensures var g := EnterIndirect(Allocated(sb, f, b), i, bn, b);
      && g.inode == f.inode && g.dinode == f.dinode
      && forall c | c in f.owner && f.owner[c].0 != i :: c < |f.data| && g.data[c] == f.data[c]
  {
    MapBlockInRange(sb, f, i);
    OwnedInRange(sb, f);
    assert SlotOf(f, i, MAXFILE) == f.inode[i].addrs[NDIRECT];
    hide InUse, Mark, GetWord, SetWord, BitsMatch, NoHoles, Slot, SlotOf, SlotsOwned;
  }

  lemma EnterEntryExtends(sb: Super, f: Fs, i: nat, bn: nat, b: nat)
    requires Sound(sb, f) && FreshBlock(sb, f, b)
    requires i < |f.inode| && NDIRECT <= bn < MAXFILE && SlotOf(f, i, bn) == 0
    requires SlotOf(f, i, MAXFILE) != 0
    ensures b != f.inode[i].addrs[NDIRECT] < |f.data|
    ensures EntryAdded(sb, f, EnterIndirect(Allocated(sb, f, b), i, bn, b), i, bn, b)
  {
    EntryFrame(sb, f, i, bn, b);
    hide InUse, Mark, GetWord, SetWord, BitsMatch, NoHoles, Slot, SlotOf, SlotsOwned, SameSlotsBut, EntryAdded;
    EnterIndirectGood(sb, f, i, bn, b);
    EntryFills(sb, f, EnterIndirect(Allocated(sb, f, b), i, bn, b), i, bn, b);
  }

  lemma EntryLog(sb: Super, f: Fs, g: Fs, i: nat, bn: nat)
    requires i < |f.inode| && |f.inode[i].addrs| == NDIRECT + 1
    requires i < |g.inode| && |g.inode[i].addrs| == NDIRECT + 1
    requires NewSlots(f, g, i) == {bn} && NDIRECT <= bn < MAXFILE
    ensures AllocLog(sb, f, g, i)
         == {BBlock(sb, SlotOf(g, i, bn)), SlotOf(g, i, bn)} + {SlotOf(g, i, MAXFILE)}
  {
    hide SlotOf, BBlock, NewSlots;
    assert bn in NewSlots(f, g, i);
  }

  lemma EntryData(sb: Super, f: Fs, i: nat, b: nat, ind: nat, s: nat)
    requires Sound(sb, f) && FreshBlock(sb, f, b) && i < |f.inode|
    requires ind == SlotOf(f, i, MAXFILE) != 0 && s < MAXFILE && SlotOf(f, i, s) != 0
    ensures b != ind && SlotOf(f, i, s) != b && SlotOf(f, i, s) != ind && SlotOf(f, i, s) < |f.data|
  {
    hide InUse, BitsMatch, NoHoles, SlotOf;
    assert SlotOf(f, i, s) in f.owner && f.owner[ind] == (i, MAXFILE);
  }

  lemma EnterEntryMapped(sb: Super, f: Fs, i: nat, bn: nat, b: nat)
    requires Sound(sb, f) && FreshBlock(sb, f, b)
    requires i < |f.inode| && NDIRECT <= bn < MAXFILE && SlotOf(f, i, bn) == 0
    requires SlotOf(f, i, MAXFILE) != 0
    ensures f.inode[i].addrs[NDIRECT] < |f.data|
    ensures var g := EnterIndirect(Allocated(sb, f, b), i, bn, b);
            Mapped(sb, f, g, i, bn) && SlotOf(g, i, bn) == b
  {
    hide InUse, Mark, GetWord, SetWord, BitsMatch, NoHoles, Extended, SlotOf, SlotsOwned, NewSlots, AllocLog;
    hide ChangesOnly;
    EnterEntryExtends(sb, f, i, bn, b);
    MapBlockInRange(sb, f, i);
    EnterIndirectChanges(sb, f, i, bn, b);
    var g := EnterIndirect(Allocated(sb, f, b), i, bn, b);
    EntryLog(sb, f, g, i, bn);
    var ind := f.inode[i].addrs[NDIRECT];
    assert {BBlock(sb, b), b} + {ind} == {b, BBlock(sb, b), ind};
    forall s: nat | s < MAXFILE && SlotOf(f, i, s) != 0
      ensures SlotOf(f, i, s) < |f.data| && g.data[SlotOf(f, i, s)] == f.data[SlotOf(f, i, s)]
    {
      EntryData(sb, f, i, b, ind, s);
    }
    assert g.data[b] == ZeroBlock();
  }

  /** A new indirect block by itself. */
  lemma EnterMapBlock(sb: Super, f: Fs, i: nat, c: nat)
    requires Sound(sb, f) && FreshBlock(sb, f, c) && i < |f.inode| && SlotOf(f, i, MAXFILE) == 0
    ensures var e := EnterDirect(Allocated(sb, f, c), i, MAXFILE, c);
      && Extended(sb, f, e, i) && SlotOf(e, i, MAXFILE) == c
      && (forall s: nat | s < MAXFILE :: SlotOf(e, i, s) == SlotOf(f, i, s))
      && (forall b | b in f.owner :: e.data[b] == f.data[b])
      && e.logged == f.logged + AllocLog(sb, f, e, i) && ChangesOnly(sb, f, e, AllocLog(sb, f, e, i))
  {
    hide InUse, Mark, GetWord, SetWord, BitsMatch, Slot, SlotOf, SlotsOwned, NoHoles, Extended, NewSlots, ChangesOnly;
    EnterDirectExtends(sb, f, i, MAXFILE, c);
    EnterDirectChanges(sb, f, i, MAXFILE, c);
    var e := EnterDirect(Allocated(sb, f, c), i, MAXFILE, c);
    assert AllocLog(sb, f, e, i) == {c} + {BBlock(sb, c)};
    assert {c} + {BBlock(sb, c)} == {c, BBlock(sb, c)};
  }

  lemma ExtendedTransitive(sb: Super, f: Fs, g: Fs, h: Fs, i: nat)
    requires Extended(sb, f, g, i) && Extended(sb, g, h, i)
    ensures Extended(sb, f, h, i)
  {
    hide InUse, GetWord, BitsMatch, Slot;
    forall b | b in f.owner && f.owner[b].0 != i
      ensures h.data[b] == f.data[b]
    {
      var o := f.owner[b];
      assert SlotOf(f, o.0, o.1) == b;
      assert SlotOf(g, o.0, o.1) == b && g.owner[b] == o;
    }
  }

  lemma EntryNeedsMapBlock(sb: Super, f: Fs, i: nat, s: nat)
    requires Sound(sb, f) && i < |f.inode| && NDIRECT <= s < MAXFILE && SlotOf(f, i, s) != 0
    ensures SlotOf(f, i, MAXFILE) != 0
  {
  }

  lemma AllocLogComposes(sb: Super, f: Fs, g: Fs, h: Fs, i: nat)
    requires Extended(sb, f, g, i) && Extended(sb, g, h, i)
    ensures NewSlots(f, h, i) == NewSlots(f, g, i) + NewSlots(g, h, i)
    ensures AllocLog(sb, f, h, i) == AllocLog(sb, f, g, i) + AllocLog(sb, g, h, i)
  {
    hide InUse, GetWord, BitsMatch, Slot, SlotsOwned, NoHoles, OthersKept;
    forall s | s in NewSlots(f, g, i) && NDIRECT <= s < MAXFILE
      ensures SlotOf(h, i, MAXFILE) == SlotOf(g, i, MAXFILE)
    {
      EntryNeedsMapBlock(sb, g, i, s);
    }
    var a, b, c := NewSlots(f, g, i), NewSlots(g, h, i), NewSlots(f, h, i);
    assert c == a + b;
    assert forall s | s in a :: SlotOf(h, i, s) == SlotOf(g, i, s);
    assert (set s | s in c :: SlotOf(h, i, s))
        == (set s | s in a :: SlotOf(g, i, s)) + (set s | s in b :: SlotOf(h, i, s));
    assert (set s | s in c :: BBlock(sb, SlotOf(h, i, s)))
        == (set s | s in a :: BBlock(sb, SlotOf(g, i, s))) + (set s | s in b :: BBlock(sb, SlotOf(h, i, s)));
  }

  /** Both allocations: a new indirect block, then an entry in it. */
  lemma EnterBothMapped(sb: Super, f: Fs, i: nat, bn: nat, c: nat, b: nat)
    requires Sound(sb, f) && FreshBlock(sb, f, c)
    requires i < |f.inode| && NDIRECT <= bn < MAXFILE && SlotOf(f, i, MAXFILE) == 0
    requires FreshBlock(sb, EnterDirect(Allocated(sb, f, c), i, MAXFILE, c), b)
    ensures var e := EnterDirect(Allocated(sb, f, c), i, MAXFILE, c);
      && Shape(sb, e)
      && var g := EnterIndirect(Allocated(sb, e, b), i, bn, b);
      Mapped(sb, f, g, i, bn) && SlotOf(g, i, bn) == b
  {
    var e := EnterDirect(Allocated(sb, f, c), i, MAXFILE, c);
    EnterMapBlock(sb, f, i, c);
    assert SlotOf(f, i, bn) == 0;
    EnterEntryMapped(sb, e, i, bn, b);
    var g := EnterIndirect(Allocated(sb, e, b), i, bn, b);
    BothMapped(sb, f, e, g, i, bn);
  }

  lemma BothMapped(sb: Super, f: Fs, e: Fs, g: Fs, i: nat, bn: nat)
    requires Extended(sb, f, e, i) && e.logged == f.logged + AllocLog(sb, f, e, i)
    requires ChangesOnly(sb, f, e, AllocLog(sb, f, e, i)) && bn < MAXFILE && SlotOf(f, i, bn) == 0
    requires forall s: nat | s < MAXFILE :: SlotOf(e, i, s) == SlotOf(f, i, s)
    requires forall b | b in f.owner :: e.data[b] == f.data[b]
    requires Mapped(sb, e, g, i, bn)
    ensures Mapped(sb, f, g, i, bn)
  {
    hide InUse, GetWord, BitsMatch, NoHoles, Slot, SlotOf, SlotsOwned, AllocLog, NewSlots, OthersKept, ChangesOnly;
    ExtendedTransitive(sb, f, e, g, i);
    AllocLogComposes(sb, f, e, g, i);
    ChangesTransitive(sb, f, e, g, AllocLog(sb, f, e, i), AllocLog(sb, e, g, i), AllocLog(sb, f, g, i));
    OwnedInRange(sb, f);
    forall s: nat | s < MAXFILE && SlotOf(f, i, s) != 0
      ensures SlotOf(f, i, s) < |f.data| && g.data[SlotOf(f, i, s)] == f.data[SlotOf(f, i, s)]
    {
      assert SlotOf(f, i, s) in f.owner && SlotOf(e, i, s) == SlotOf(f, i, s);
    }
  }

  // ---- Writing through the map ----

  lemma ExtendedReflexive(sb: Super, f: Fs, i: nat)
    requires Sound(sb, f) && i < |f.inode|
    ensures Extended(sb, f, f, i) && NewSlots(f, f, i) == {} && AllocLog(sb, f, f, i) == {}
  {
    hide InUse, GetWord, BitsMatch, NoHoles, Slot;
  }

  function Stored(f: Fs, a: nat, b: Block): Fs
    requires a < |f.data|
  {
    f.(data := f.data[a := b], logged := f.logged + {a})
  }

  lemma StoreKeeps(sb: Super, f: Fs, i: nat, bn: nat, b: Block)
    requires Sound(sb, f) && i < |f.inode| && bn < MAXFILE && SlotOf(f, i, bn) != 0
    ensures SlotOf(f, i, bn) < |f.data|
    ensures var g := Stored(f, SlotOf(f, i, bn), b);
      && Extended(sb, f, g, i)
      && NewSlots(f, g, i) == {} && AllocLog(sb, f, g, i) == {}
      && (forall s: nat | s <= MAXFILE :: SlotOf(g, i, s) == SlotOf(f, i, s))
      && (forall s: nat | s < MAXFILE && s != bn && SlotOf(f, i, s) != 0 ::
            SlotOf(f, i, s) < |f.data| && g.data[SlotOf(f, i, s)] == f.data[SlotOf(f, i, s)])
  {
    var a := SlotOf(f, i, bn);
    assert a in f.owner && f.owner[a] == (i, bn);
    SlotFrame(sb, f, f.data[a := b]);
    hide InUse, GetWord, Slot;
    var g := Stored(f, a, b);
    assert forall j: nat, s: nat | j < |f.inode| && s <= MAXFILE :: SlotOf(g, j, s) == SlotOf(f, j, s);
    forall s: nat | s < MAXFILE && s != bn && SlotOf(f, i, s) != 0
      ensures SlotOf(f, i, s) < |f.data| && g.data[SlotOf(f, i, s)] == f.data[SlotOf(f, i, s)]
    {
      assert SlotOf(f, i, s) in f.owner;
    }
  }

  /** The first `tot` bytes of `src` have reached file `i` at `off`; the other bytes
      of blocks the file had are kept, and those of new blocks are zeros. */
  ghost predicate Written(f: Fs, g: Fs, i: nat, off: nat, src: seq<Byte>, tot: nat)
    requires i < |f.inode| && |f.inode[i].addrs| == NDIRECT + 1
    requires i < |g.inode| && |g.inode[i].addrs| == NDIRECT + 1 && tot <= |src|
  {
    forall k: nat | k < MAXBYTES ::
      var a, b := SlotOf(f, i, k / BSIZE), SlotOf(g, i, k / BSIZE);
      && a < |f.data| && b < |g.data| && (a != 0 ==> b == a)
      && (off <= k < off + tot ==> b != 0 && g.data[b][k % BSIZE] == src[k - off])
      && (!(off <= k < off + tot) && b != 0 ==> g.data[b][k % BSIZE] == if a != 0 then f.data[a][k % BSIZE] else 0)
  }

  lemma NothingWritten(sb: Super, f: Fs, i: nat, off: nat, src: seq<Byte>)
    requires Sound(sb, f) && i < |f.inode|
    ensures Written(f, f, i, off, src, 0)
  {
    hide InUse, GetWord, Slot, BitsMatch;
    forall k: nat | k < MAXBYTES ensures SlotOf(f, i, k / BSIZE) < |f.data| {
      SlotInRange(sb, f, i, k / BSIZE);
    }
  }

  /** The block as memmove leaves it: `m` bytes of `src` placed at `o`. */
  function Spliced(b: Block, o: nat, src: seq<Byte>): Block
    requires o + |src| <= BSIZE
  {
    b[..o] + src + b[o + |src|..]
  }

  lemma WriteStep(sb: Super, f: Fs, g: Fs, h: Fs, i: nat, off: nat, src: seq<Byte>, tot: nat, m: nat)
    requires Sound(sb, f) && i < |f.inode| && i < |g.inode| && |g.inode[i].addrs| == NDIRECT + 1
    requires tot + m <= |src| && Written(f, g, i, off, src, tot)
    requires var o := (off + tot) % BSIZE; 0 < m <= BSIZE - o
    requires Mapped(sb, g, h, i, (off + tot) / BSIZE)
    ensures var bn := (off + tot) / BSIZE; SlotOf(h, i, bn) < |h.data|
    ensures var bn, o := (off + tot) / BSIZE, (off + tot) % BSIZE;
            var a := SlotOf(h, i, bn);
            var e := Stored(h, a, Spliced(h.data[a], o, src[tot..tot + m]));
            Sound(sb, e) && Written(f, e, i, off, src, tot + m)
  {
    hide InUse, GetWord, Slot, SlotOf, BitsMatch, SlotsOwned, NoHoles, AllocLog, ChangesOnly;
    var bn, o := (off + tot) / BSIZE, (off + tot) % BSIZE;
    var a := SlotOf(h, i, bn);
    SlotInRange(sb, h, i, bn);
    var e := Stored(h, a, Spliced(h.data[a], o, src[tot..tot + m]));
    StoreKeeps(sb, h, i, bn, Spliced(h.data[a], o, src[tot..tot + m]));
    forall k: nat | k < MAXBYTES
      ensures var x, z := SlotOf(f, i, k / BSIZE), SlotOf(e, i, k / BSIZE);
        && x < |f.data| && z < |e.data| && (x != 0 ==> z == x)
        && (off <= k < off + (tot + m) ==> z != 0 && e.data[z][k % BSIZE] == src[k - off])
        && (!(off <= k < off + (tot + m)) && z != 0 ==>
              e.data[z][k % BSIZE] == if x != 0 then f.data[x][k % BSIZE] else 0)
    {
      SlotInRange(sb, h, i, k / BSIZE);
      if k / BSIZE == bn {
        assert SlotOf(e, i, bn) == a;
        if off + tot <= k < off + (tot + m) {
          assert k % BSIZE == o + (k - (off + tot));
        } else {
          assert e.data[a][k % BSIZE] == h.data[a][k % BSIZE];
        }
      } else {
        assert !(off + tot <= k < off + (tot + m));
        assert SlotOf(e, i, k / BSIZE) == SlotOf(h, i, k / BSIZE) == SlotOf(g, i, k / BSIZE);
      }
    }
  }

  // ---- Logging ----

  /** Data blocks `lo .. hi` of inode `i`. */
  function DataBlocks(f: Fs, i: nat, lo: nat, hi: nat): set<nat>
    requires i < |f.inode| && |f.inode[i].addrs| == NDIRECT + 1
  {
    set bn: nat | lo <= bn < hi :: SlotOf(f, i, bn)
  }

  /** The number of the block after the one holding byte `off + n - 1`. */
  function EndBlock(off: nat, n: nat): nat {
    if n == 0 then off / BSIZE else (off + n - 1) / BSIZE + 1
  }

  /** Every block that writing `n` bytes at `off` passes to log_write, when it
      leads from `f` to `g`. */
  ghost function Footprint(sb: Super, f: Fs, g: Fs, i: nat, off: nat, n: nat): set<nat>
    requires i < |f.inode| && |f.inode[i].addrs| == NDIRECT + 1
    requires i < |g.inode| && |g.inode[i].addrs| == NDIRECT + 1
  {
    AllocLog(sb, f, g, i)
    + DataBlocks(g, i, off / BSIZE, EndBlock(off, n))
    + (if n > 0 && off + n > f.inode[i].size then {IBlock(sb, i)} else {})
  }

  /** What a file that held `before` holds when `src` is written over it at `off`;
      a write that starts past the end is refused. */
  function Overwritten(before: seq<Byte>, off: nat, src: seq<Byte>): seq<Byte> {
    if off > |before| then before
    else before[..off] + src + (if off + |src| < |before| then before[off + |src|..] else [])
  }

  /** `off + n < off` in 32-bit arithmetic. */
  predicate Wraps(off: Word, n: Word)
    ensures Wraps(off, n) <==> off + n >= 0x1_0000_0000
  {
    (off + n) % 0x1_0000_0000 < off
  }

  datatype WriteResult = Wrote(count: nat) | Refused | Panicked

  function Min(a: int, b: int): int {
    if a < b then a else b
  }

  lemma DataBlocksGrow(g: Fs, e: Fs, i: nat, lo: nat, hi: nat, bn: nat)
    requires i < |g.inode| && |g.inode[i].addrs| == NDIRECT + 1
    requires i < |e.inode| && |e.inode[i].addrs| == NDIRECT + 1
    requires lo <= bn && (hi == bn || hi == bn + 1)
    requires forall s: nat | lo <= s < hi :: SlotOf(e, i, s) == SlotOf(g, i, s)
    ensures DataBlocks(e, i, lo, bn + 1) == DataBlocks(g, i, lo, hi) + {SlotOf(e, i, bn)}
  {
    hide SlotOf;
    var a, b := DataBlocks(e, i, lo, bn + 1), DataBlocks(g, i, lo, hi) + {SlotOf(e, i, bn)};
    forall x | x in a ensures x in b {
      var s: nat :| lo <= s < bn + 1 && SlotOf(e, i, s) == x;
      assert s < hi ==> SlotOf(g, i, s) in DataBlocks(g, i, lo, hi);
    }
    forall x | x in b ensures x in a {
      if x in DataBlocks(g, i, lo, hi) {
        var s: nat :| lo <= s < hi && SlotOf(g, i, s) == x;
        assert SlotOf(e, i, s) in a;
      }
    }
  }

  lemma MappedNew(sb: Super, f: Fs, g: Fs, i: nat, bn: nat)
    requires Mapped(sb, f, g, i, bn)
    ensures NewSlots(f, g, i) <= {bn, MAXFILE}
  {
    hide InUse, GetWord, Slot, SlotOf, BitsMatch, SlotsOwned, NoHoles, AllocLog, OthersKept;
  }

  /** One pass of writei's loop, for the log: bmap and then a store to the block
      it returned add that block and the allocations. */
  lemma LogStep(sb: Super, f: Fs, g: Fs, h: Fs, e: Fs, i: nat, lo: nat, hi: nat, bn: nat, b: Block)
    requires Extended(sb, f, g, i) && Mapped(sb, g, h, i, bn)
    requires SlotOf(h, i, bn) < |h.data| && e == Stored(h, SlotOf(h, i, bn), b)
    requires lo <= bn && (hi == bn || hi == bn + 1)
    requires forall s: nat | lo <= s < hi :: SlotOf(g, i, s) != 0
    requires g.logged == f.logged + AllocLog(sb, f, g, i) + DataBlocks(g, i, lo, hi)
    requires forall s | s in NewSlots(f, g, i) :: s == MAXFILE || lo <= s < hi
    requires ChangesOnly(sb, f, g, AllocLog(sb, f, g, i) + DataBlocks(g, i, lo, hi))
    ensures Extended(sb, f, e, i)
    ensures forall s | s in NewSlots(f, e, i) :: s == MAXFILE || lo <= s < bn + 1
    ensures e.logged == f.logged + AllocLog(sb, f, e, i) + DataBlocks(e, i, lo, bn + 1)
    ensures ChangesOnly(sb, f, e, AllocLog(sb, f, e, i) + DataBlocks(e, i, lo, bn + 1))
    ensures forall s: nat | lo <= s < bn + 1 :: SlotOf(e, i, s) != 0
  {
    hide InUse, GetWord, Slot, SlotOf, BitsMatch, SlotsOwned, NoHoles, AllocLog, NewSlots, OthersKept,
         DataBlocks, ChangesOnly;
    SlotInRange(sb, h, i, bn);
    StoreKeeps(sb, h, i, bn, b);
    ExtendedTransitive(sb, f, g, h, i);
    ExtendedTransitive(sb, f, h, e, i);
    AllocLogComposes(sb, f, g, h, i);
    AllocLogComposes(sb, f, h, e, i);
    MappedNew(sb, g, h, i, bn);
    forall s: nat | lo <= s < hi ensures SlotOf(e, i, s) == SlotOf(g, i, s) {
      assert SlotOf(h, i, s) == SlotOf(g, i, s);
    }
    DataBlocksGrow(g, e, i, lo, hi, bn);
    StepChanges(sb, f, g, h, e, SlotOf(h, i, bn), AllocLog(sb, f, g, i) + DataBlocks(g, i, lo, hi),
                AllocLog(sb, g, h, i), AllocLog(sb, f, e, i) + DataBlocks(e, i, lo, bn + 1));
  }

  lemma StepChanges(sb: Super, f: Fs, g: Fs, h: Fs, e: Fs, a: nat, l: set<nat>, m: set<nat>, all: set<nat>)
    requires ChangesOnly(sb, f, g, l) && ChangesOnly(sb, g, h, m) && l + m + {a} <= all
    requires sb.nmeta <= a < |h.data| == |e.data| && e.data == h.data[a := e.data[a]]
    requires e.bitmap == h.bitmap && e.dinode == h.dinode
    ensures ChangesOnly(sb, f, e, all)
  {
    BlockChanges(sb, h, e, a);
    hide ChangesOnly;
    ChangesTransitive(sb, f, g, h, l, m, l + m);
    ChangesTransitive(sb, f, h, e, l + m, {a}, all);
  }

  class FileSystem {
    const sb: Super
    var bitmap: seq<bv8>
    var data: seq<Block>
    var inode: seq<Inode>       // the cached inodes, by inode number
    var dinode: seq<Inode>      // the inodes as iupdate has stored them
    ghost var owner: map<nat, (nat, nat)>
    ghost var logged: set<nat>

    ghost function S(): Fs
      reads this
    {
      Fs(bitmap, data, inode, dinode, owner, logged)
    }

    /** Between calls the stored inodes are up to date as well. */
    ghost predicate Valid()
      reads this
    {
      Good(sb, S()) && dinode == inode
    }

    /** A file system in the state `f`, with nothing logged yet. */
    constructor (sb: Super, f: Fs)
      requires Good(sb, f) && f.dinode == f.inode
      ensures Valid() && this.sb == sb && S() == f
    {
      this.sb, bitmap, data, inode, dinode := sb, f.bitmap, f.data, f.inode, f.dinode;
      owner, logged := f.owner, f.logged;
    }

    /** What balloc does with the free block it has found: the stores and log_writes. */
    method MarkAndZero(b: nat, bi: nat)
      requires Shape(sb, S()) && b % 8 == 0 && b + bi < sb.size
      modifies this`bitmap, this`data, this`logged
      ensures S() == Allocated(sb, old(S()), b + bi)
    {
      BitInByte(b, bi);
      bitmap := bitmap[(b + bi) / 8 := SetBit(bitmap[(b + bi) / 8], bi % 8)];
      assert bitmap == Mark(old(bitmap), b + bi);
      hide Mark, BBlock, ZeroBlock;
      logged := logged + {BBlock(sb, b + bi)};
      data := data[b + bi := ZeroBlock()];
      logged := logged + {b + bi};
      assert logged == old(logged) + {BBlock(sb, b + bi), b + bi};
    }

    method Balloc() returns (r: Option<nat>)
      requires Shape(sb, S()) && BitsMatch(sb, S())
      modifies this`bitmap, this`data, this`logged
      ensures r.None? ==> S() == old(S()) && forall c | 0 <= c < sb.size :: InUse(bitmap, c)
      ensures r.Some? ==> FreshBlock(sb, old(S()), r.value) && S() == Allocated(sb, old(S()), r.value)
      ensures r.Some? ==> forall c | 0 <= c < r.value :: InUse(old(bitmap), c)
    {
      hide Slot, HasBit, SetBit, BitsMatch, FreshBlock, ZeroBlock;
      var b := 0;
      while b < sb.size
        invariant b % 8 == 0 && S() == old(S())
        invariant forall c | 0 <= c < b && c < sb.size :: InUse(bitmap, c)
      {
        var bi := 0;
        while bi < BPB && b + bi < sb.size
          invariant 0 <= bi <= BPB && S() == old(S())
          invariant forall c | 0 <= c < b + bi && c < sb.size :: InUse(bitmap, c)
        {
          BitInByte(b, bi);
          if !HasBit(bitmap[(b + bi) / 8], bi % 8) {
            assert !InUse(bitmap, b + bi);
            NotInUse(sb, old(S()), b + bi);
            MarkAndZero(b, bi);
            return Some(b + bi);
          }
          bi := bi + 1;
        }
        b := b + BPB;
      }
      return None;
    }

    method Bmap(i: nat, bn: nat) returns (r: Option<nat>)
      requires Sound(sb, S()) && i < |inode|
      modifies this`bitmap, this`data, this`inode, this`logged, this`owner
      ensures r.Some? ==> Mapped(sb, old(S()), S(), i, bn) && r.value == SlotOf(S(), i, bn)
      ensures bn < MAXFILE && SlotOf(old(S()), i, bn) != 0 ==> r.Some? && S() == old(S())
      ensures r.None? ==> Sound(sb, S()) && |inode| == old(|inode|) && (old(Good(sb, S())) ==> Good(sb, S()))
      ensures r.None? ==>
                bn >= MAXFILE
                || (SlotOf(old(S()), i, bn) == 0 && forall c | 0 <= c < sb.size :: InUse(bitmap, c))
      ensures dinode == old(dinode)
    {
      ghost var f := S();
      hide InUse, Mark, GetWord, SetWord, BitsMatch, SlotsOwned, NoHoles, Extended, AllocLog, ChangesOnly;
      if bn < NDIRECT {
        var addr := inode[i].addrs[bn];
        if addr == 0 {
          var a := Balloc();
          if a.None? {
            return None;
          }
          addr := a.value;
          inode := inode[i := inode[i].(addrs := inode[i].addrs[bn := addr])];
          owner := owner[addr := (i, bn)];
          EnterDirectMapped(sb, f, i, bn, addr);
          assert S() == EnterDirect(Allocated(sb, f, addr), i, bn, addr);
          assert SlotOf(S(), i, bn) == addr;
        } else {
          AlreadyMapped(sb, f, i, bn);
        }
        return Some(addr);
      }
      var k := bn - NDIRECT;
      if k < NINDIRECT {
        var ind := inode[i].addrs[NDIRECT];
        if ind == 0 {
          var c := Balloc();
          if c.None? {
            return None;
          }
          ind := c.value;
          inode := inode[i := inode[i].(addrs := inode[i].addrs[NDIRECT := ind])];
          owner := owner[ind := (i, MAXFILE)];
          EnterMapBlock(sb, f, i, ind);
          EnterDirectGood(sb, f, i, MAXFILE, ind);
        }
        ghost var e := S();
        MapBlockInRange(sb, e, i);
        var addr := GetWord(data[ind], k);
        assert addr == SlotOf(e, i, bn);
        if addr == 0 {
          var a := Balloc();
          if a.None? {
            return None;
          }
          addr := a.value;
          data := data[ind := SetWord(data[ind], k, addr)];
          owner := owner[addr := (i, bn)];
          logged := logged + {ind};
          if f.inode[i].addrs[NDIRECT] == 0 {
            EnterBothMapped(sb, f, i, bn, ind, addr);
          } else {
            EnterEntryMapped(sb, f, i, bn, addr);
          }
          assert S() == EnterIndirect(Allocated(sb, e, addr), i, bn, addr);
          assert SlotOf(S(), i, bn) == addr;
        } else {
          AlreadyMapped(sb, f, i, bn);
          assert S() == f;
        }
        return Some(addr);
      }
      return None;
    }

    /** readi's copying loop. */
    method ReadLoop(i: nat, off: nat, n: nat) returns (dst: seq<Byte>)
      requires Good(sb, S()) && i < |inode| && off + n <= inode[i].size
      modifies this`bitmap, this`data, this`inode, this`logged, this`owner
      ensures S() == old(S())
      ensures dst == Contents(sb, S(), i)[off..off + n]
    {
      hide InUse, GetWord, Slot, SlotOf, BitsMatch, SlotsOwned, NoHoles, Contents, Mapped, Good;
      ghost var f := S();
      ghost var c := Contents(sb, f, i);
      dst := [];
      var tot := 0;
      while tot < n
        invariant S() == f && 0 <= tot <= n
        invariant dst == c[off..off + tot]
      {
        var at := off + tot;
        HeldBlock(sb, f, i, at);
        GoodIsSound(sb, S());
        var a := Bmap(i, at / BSIZE);
        SlotInRange(sb, f, i, at / BSIZE);
        var m := Min(n - tot, BSIZE - at % BSIZE);
        ReadStep(sb, f, i, at, m);
        SliceJoin(c, off, at, at + m);
        dst := dst + data[a.value][at % BSIZE..at % BSIZE + m];
        tot := tot + m;
      }
    }

    /** readi of `n` bytes; None is its -1. */
    method ReadI(i: nat, off: Word, n: Word) returns (r: Option<seq<Byte>>)
      requires Valid() && i < |inode|
      modifies this`bitmap, this`data, this`inode, this`logged, this`owner
      ensures S() == old(S())
      ensures r.None? <==> off > inode[i].size || off + n >= 0x1_0000_0000
      ensures r.Some? ==> r.value == Contents(sb, S(), i)[off..Min(off + n, inode[i].size)]
    {
      if off > inode[i].size || Wraps(off, n) {
        return None;
      }
      var want := if off + n > inode[i].size then inode[i].size - off else n;
      var dst := ReadLoop(i, off, want);
      return Some(dst);
    }

    /** One pass of writei's loop, `tot` bytes into a write that began with the
        file system `f`; 0 when the disk is full. */
    method WritePass(i: nat, off: nat, src: seq<Byte>, tot: nat, ghost f: Fs) returns (m: nat)
      requires Passed(sb, f, S(), i, off, src, tot) && tot < |src| && off + |src| <= MAXBYTES
      modifies this`bitmap, this`data, this`inode, this`logged, this`owner
      ensures m == 0 ==> DiskFull(sb, f, S()) && Lacks(f, i, off, |src|)
      ensures m > 0 ==> tot + m <= |src| && Passed(sb, f, S(), i, off, src, tot + m)
    {
      hide InUse, GetWord, Slot, SlotOf, BitsMatch, SlotsOwned, NoHoles, Written, Extended, Good, SoFar,
           AllocLog, DataBlocks, EndBlock, NewSlots, ChangesOnly;
      ghost var g := S();
      var at := off + tot;
      m := Min(|src| - tot, BSIZE - at % BSIZE);
      WroteHeld(sb, f, g, i, off, src, tot);
      var a := Bmap(i, at / BSIZE);
      if a.None? {
        LackedFirst(sb, f, g, i, off, src, tot);
        return 0;
      }
      ghost var h := S();
      MappedInRange(sb, g, h, i, at / BSIZE);
      data := data[a.value := Spliced(data[a.value], at % BSIZE, src[tot..tot + m])];
      logged := logged + {a.value};
      PassStep(sb, f, g, h, S(), i, off, src, tot, m);
    }

    lemma Begun(i: nat, off: nat, src: seq<Byte>)
      requires Sound(sb, S()) && i < |inode|
      ensures Passed(sb, S(), S(), i, off, src, 0)
    {
      WriteStart(sb, S(), i, off, src);
    }

    /** writei's copying loop. On a full disk it stops part of the way. */
    method WriteLoop(i: nat, off: nat, src: seq<Byte>) returns (panicked: bool)
      requires Sound(sb, S()) && i < |inode| && off + |src| <= MAXBYTES
      modifies this`bitmap, this`data, this`inode, this`logged, this`owner
      ensures panicked ==> DiskFull(sb, old(S()), S()) && Lacks(old(S()), i, off, |src|)
      ensures !panicked ==> Passed(sb, old(S()), S(), i, off, src, |src|)
    {
      hide *;
      ghost var f := S();
      Begun(i, off, src);
      var tot := 0;
      while tot < |src|
        invariant 0 <= tot <= |src| && Passed(sb, f, S(), i, off, src, tot)
      {
        var m := WritePass(i, off, src, tot, f);
        if m == 0 {
          return true;
        }
        tot := tot + m;
      }
      return false;
    }

    /** iupdate. */
    method Iupdate(i: nat)
      requires i < |inode| == |dinode|
      modifies this`dinode, this`logged
      ensures dinode == old(dinode)[i := inode[i]]
      ensures logged == old(logged) + {IBlock(sb, i)}
    {
      dinode := dinode[i := inode[i]];
      logged := logged + {IBlock(sb, i)};
    }

    /** The part of writei after its guards, on files with or without holes. */
    method WriteAt(i: nat, src: seq<Byte>, off: nat) returns (panicked: bool)
      requires Sound(sb, S()) && i < |inode| && off <= inode[i].size && off + |src| <= MAXBYTES
      modifies this
      ensures panicked ==> DiskFull(sb, old(S()), S()) && Lacks(old(S()), i, off, |src|)
      ensures !panicked ==> Writes(sb, old(S()), S(), i, off, src)
      ensures !panicked && old(Valid()) ==> dinode == inode
    {
      hide InUse, GetWord, Slot, SlotOf, BitsMatch, SlotsOwned, NoHoles, SoFar, Writes, Good, DiskFull, Passed;
      ghost var f := S();
      panicked := WriteLoop(i, off, src);
      if !panicked {
        ghost var g := S();
        PassedAll(sb, f, g, i, off, src);
        if |src| > 0 && off + |src| > inode[i].size {
          GrewTo(sb, f, g, i, off, src);
          inode := inode[i := inode[i].(size := off + |src|)];
          Iupdate(i);
          assert S() == Resized(g, i, off + |src|, IBlock(sb, i));
        } else {
          WroteInPlace(sb, f, g, i, off, src);
        }
      }
    }

    /** writei of `src`. Panicked stands for balloc's panic on a full disk, which
        takes a block that the file does not have yet. */
    method WriteI(i: nat, src: seq<Byte>, off: Word) returns (r: WriteResult)
      requires Valid() && i < |inode| && |src| < 0x1_0000_0000
      modifies this
      ensures Good(sb, S())
      ensures r.Refused? <==> old(inode[i].size) < off || off + |src| >= 0x1_0000_0000
                              || off + |src| > MAXBYTES
      ensures r.Refused? ==> S() == old(S())
      ensures r.Panicked? ==> (forall c | 0 <= c < sb.size :: InUse(bitmap, c)) && Lacks(old(S()), i, off, |src|)
      ensures r.Wrote? ==> Valid() && r.count == |src| && WriteDone(sb, old(S()), S(), i, off, src)
    {
      hide InUse, Good, Sound, WriteDone, Writes, DiskFull, Lacks;
      ghost var f := S();
      if off > inode[i].size || Wraps(off, |src|) || off + |src| > MAXBYTES {
        r := Refused;
      } else {
        GoodIsSound(sb, f);
        var panicked := WriteAt(i, src, off);
        if panicked {
          DiskFullGood(sb, f, S());
        } else {
          WritesGood(sb, f, S(), i, off, src);
        }
        r := if panicked then Panicked else Wrote(|src|);
      }
    }

    method Bfree(b: nat) returns (panicked: bool)
      requires b < sb.size <= 8 * |bitmap|
      modifies this`bitmap, this`logged
      ensures panicked <==> !InUse(old(bitmap), b)
      ensures panicked ==> bitmap == old(bitmap)
      ensures !panicked ==> bitmap == Unmark(old(bitmap), b) && logged == old(logged) + {BBlock(sb, b)}
    {
      hide HasBit, ClearBit, Mask;
      var bi := b % BPB;
      BitOfBlock(b);
      if !HasBit(bitmap[b / 8], bi % 8) {
        return true;
      }
      bitmap := bitmap[b / 8 := ClearBit(bitmap[b / 8], bi % 8)];
      logged := logged + {BBlock(sb, b)};
      return false;
    }

    /** itrunc's first loop. */
    method FreeDirect(i: nat) returns (panicked: bool)
      requires Good(sb, S()) && i < |inode| && FreedTo(sb, S(), bitmap, logged, i, 0)
      modifies this`bitmap, this`logged, this`inode
      ensures !panicked && FreedTo(sb, old(S()), bitmap, logged, i, NDIRECT)
      ensures |inode| == |old(inode)| && inode == old(inode)[i := old(inode[i]).(addrs := inode[i].addrs)]
      ensures |inode[i].addrs| == NDIRECT + 1 && inode[i].addrs[NDIRECT] == old(inode[i].addrs[NDIRECT])
      ensures forall t: nat | t < NDIRECT :: inode[i].addrs[t] == 0
    {
      hide InUse, Unmark, GetWord, BitsMatch, SlotsOwned, NoHoles, FreedTo;
      ghost var f := S();
      panicked := false;
      var s := 0;
      while s < NDIRECT
        invariant 0 <= s <= NDIRECT && FreedTo(sb, f, bitmap, logged, i, s)
        invariant |inode| == |f.inode| && inode == f.inode[i := f.inode[i].(addrs := inode[i].addrs)]
        invariant |inode[i].addrs| == NDIRECT + 1 && !panicked
        invariant forall t: nat | t < s :: inode[i].addrs[t] == 0
        invariant forall t: nat | s <= t <= NDIRECT :: inode[i].addrs[t] == f.inode[i].addrs[t]
      {
        var b := inode[i].addrs[s];
        FreedToNext(sb, f, bitmap, logged, i, s);
        if b != 0 {
          panicked := Bfree(b);
          inode := inode[i := inode[i].(addrs := inode[i].addrs[s := 0])];
        }
        s := s + 1;
      }
    }

    /** itrunc's second loop, over the entries of the indirect block `ind` of
        what was the file system `f`, and that block itself. */
    method FreeMapped(i: nat, ind: nat, ghost f: Fs) returns (panicked: bool)
      requires Good(sb, f) && i < |f.inode| && ind == f.inode[i].addrs[NDIRECT] != 0
      requires data == f.data && FreedTo(sb, f, bitmap, logged, i, NDIRECT)
      modifies this`bitmap, this`logged
      ensures !panicked && FreedTo(sb, f, bitmap, logged, i, MAXFILE + 1)
    {
      hide InUse, Unmark, GetWord, BitsMatch, SlotsOwned, NoHoles, FreedTo;
      MapBlockInRange(sb, f, i);
      panicked := false;
      var j := 0;
      while j < NINDIRECT
        invariant 0 <= j <= NINDIRECT && !panicked && FreedTo(sb, f, bitmap, logged, i, NDIRECT + j)
      {
        var b := GetWord(data[ind], j);
        FreedToNext(sb, f, bitmap, logged, i, NDIRECT + j);
        if b != 0 {
          panicked := Bfree(b);
        }
        j := j + 1;
      }
      FreedToNext(sb, f, bitmap, logged, i, MAXFILE);
      panicked := Bfree(ind);
    }

    /** itrunc up to the inode's new size. */
    method FreeAll(i: nat) returns (panicked: bool)
      requires Good(sb, S()) && i < |inode|
      modifies this`bitmap, this`logged, this`inode
      ensures !panicked && FreedTo(sb, old(S()), bitmap, logged, i, MAXFILE + 1)
      ensures inode == old(inode)[i := old(inode[i]).(addrs := NoBlocks())]
    {
      ghost var f := S();
      NothingFreed(sb, f, i);
      hide InUse, Mark, Unmark, GetWord, SetWord, BitsMatch, SlotsOwned, NoHoles, FreedTo, SlotOf, Slot;
      panicked := FreeDirect(i);
      if inode[i].addrs[NDIRECT] != 0 {
        panicked := FreeMapped(i, inode[i].addrs[NDIRECT], f);
        inode := inode[i := inode[i].(addrs := inode[i].addrs[NDIRECT := 0])];
      } else {
        NoMapBlock(sb, f, bitmap, logged, i, NDIRECT);
      }
      assert inode[i].addrs == NoBlocks();
    }

    /** itrunc. Its calls of bfree never find a block that is free already. */
    method Itrunc(i: nat) returns (panicked: bool)
      requires Valid() && i < |inode|
      modifies this
      ensures !panicked && Valid() && Truncated(sb, old(S()), S(), i)
    {
      ghost var f := S();
      assert |f.dinode| == |f.inode|;
      hide Shape, FreedTo, Truncated, Sound, Good, NoBlocks, IBlock, Disowned;
      panicked := FreeAll(i);
      ghost var log := logged;
      inode := inode[i := inode[i].(size := 0)];
      Iupdate(i);
      owner := Disowned(owner, i);
      assert S() == Emptied(f, i, bitmap, log, IBlock(sb, i));
      EmptiedGood(sb, f, i, bitmap, log);
    }
  }

  /** The bitmap blocks logged once the blocks in slots below `n` of inode `i`
      have been freed. */
  function FreeLog(sb: Super, f: Fs, i: nat, n: nat): set<nat>
    requires i < |f.inode| && |f.inode[i].addrs| == NDIRECT + 1
  {
    set s: nat | s < n && SlotOf(f, i, s) != 0 :: BBlock(sb, SlotOf(f, i, s))
  }

  lemma FreeLogNone(sb: Super, f: Fs, i: nat)
    requires i < |f.inode| && |f.inode[i].addrs| == NDIRECT + 1
    ensures FreeLog(sb, f, i, 0) == {}
  {
  }

  lemma FreeLogNext(sb: Super, f: Fs, i: nat, n: nat)
    requires i < |f.inode| && |f.inode[i].addrs| == NDIRECT + 1
    ensures FreeLog(sb, f, i, n + 1)
         == FreeLog(sb, f, i, n) + (if SlotOf(f, i, n) != 0 then {BBlock(sb, SlotOf(f, i, n))} else {})
  {
    hide SlotOf, BBlock;
  }

  lemma TruncatedLogs(sb: Super, f: Fs, e: Fs, i: nat)
    requires Good(sb, f) && i < |f.inode| && Truncated(sb, f, e, i)
    ensures Logs(sb, f, e)
  {
    FreeLogBlocks(sb, f, i);
    hide Good, Contents, FreeLog, SlotOf, ChangesOnly, AreBlocks;
    LogsTheChanges(sb, f, e, FreeLog(sb, f, i, MAXFILE + 1) + {IBlock(sb, i)});
  }

  lemma FreeLogBlocks(sb: Super, f: Fs, i: nat)
    requires Sound(sb, f) && i < |f.inode|
    ensures AreBlocks(sb, |f.dinode|, FreeLog(sb, f, i, MAXFILE + 1) + {IBlock(sb, i)})
  {
    InodeIsBlock(sb, |f.dinode|, i);
    hide InUse, GetWord, Slot, SlotOf, BitsMatch, SlotsOwned, IsBlock, BBlock, IBlock;
    forall s: nat | s <= MAXFILE && SlotOf(f, i, s) != 0 ensures IsBlock(sb, |f.dinode|, BBlock(sb, SlotOf(f, i, s))) {
      SlotIsBlock(sb, f, i, s);
    }
  }

  lemma NothingFreed(sb: Super, f: Fs, i: nat)
    requires Good(sb, f) && i < |f.inode|
    ensures FreedTo(sb, f, f.bitmap, f.logged, i, 0)
  {
    FreeLogNone(sb, f, i);
    hide InUse, Slot, GetWord, FreeLog;
  }

  function NoBlocks(): seq<nat> {
    seq(NDIRECT + 1, _ => 0)
  }

  /** The bitmap once the blocks in slots below `n` of inode `i` are free. */
  ghost predicate Freed(sb: Super, f: Fs, bitmap: seq<bv8>, i: nat, n: nat)
    requires Shape(sb, f) && |bitmap| == |f.bitmap|
  {
    forall b: nat | b < sb.size ::
      InUse(bitmap, b) <==>
      b < sb.nmeta || (b in f.owner && !(f.owner[b].0 == i && f.owner[b].1 < n))
  }

  lemma FreedNext(sb: Super, f: Fs, bitmap: seq<bv8>, i: nat, s: nat)
    requires Good(sb, f) && |bitmap| == |f.bitmap| && i < |f.inode| && s <= MAXFILE
    requires Freed(sb, f, bitmap, i, s)
    ensures var b := SlotOf(f, i, s);
      if b == 0 then Freed(sb, f, bitmap, i, s + 1)
      else b < sb.size && InUse(bitmap, b) && Freed(sb, f, Unmark(bitmap, b), i, s + 1)
  {
    hide InUse, Unmark, GetWord, Slot, BitsMatch, NoHoles;
    var b := SlotOf(f, i, s);
    if b != 0 {
      assert b in f.owner;
      forall c: nat | c < sb.size
        ensures InUse(Unmark(bitmap, b), c) <==>
          c < sb.nmeta || (c in f.owner && !(f.owner[c].0 == i && f.owner[c].1 < s + 1))
      {
        OneBitChanges(bitmap, b, c);
      }
    }
  }

  /** The blocks in slots below `s` of inode `i` are free, and the blocks of the
      bitmap in which that shows are logged. */
  ghost predicate FreedTo(sb: Super, f: Fs, bitmap: seq<bv8>, logged: set<nat>, i: nat, s: nat)
    requires Shape(sb, f) && i < |f.inode|
  {
    && |bitmap| == |f.bitmap| && Freed(sb, f, bitmap, i, s)
    && logged == f.logged + FreeLog(sb, f, i, s) && BitmapChanges(sb, f.bitmap, bitmap, FreeLog(sb, f, i, s))
  }

  lemma ShapeBits(sb: Super, f: Fs, b: nat)
    requires Shape(sb, f) && b < sb.size
    ensures b / 8 < |f.bitmap|
  {
  }

  lemma FreedToNext(sb: Super, f: Fs, bitmap: seq<bv8>, logged: set<nat>, i: nat, s: nat)
    requires Good(sb, f) && i < |f.inode| && s <= MAXFILE && FreedTo(sb, f, bitmap, logged, i, s)
    ensures |bitmap| == |f.bitmap|
    ensures var b := SlotOf(f, i, s);
      if b == 0 then FreedTo(sb, f, bitmap, logged, i, s + 1)
      else b < sb.size && InUse(bitmap, b)
           && FreedTo(sb, f, Unmark(bitmap, b), logged + {BBlock(sb, b)}, i, s + 1)
  {
    assert Shape(sb, f) && |f.inode[i].addrs| == NDIRECT + 1;
    hide Good, Shape, InUse, Unmark, Freed, FreeLog, BitmapChanges, SlotOf, BBlock;
    FreedNext(sb, f, bitmap, i, s);
    FreeLogNext(sb, f, i, s);
    if SlotOf(f, i, s) != 0 {
      ShapeBits(sb, f, SlotOf(f, i, s));
      UnmarkChanges(sb, f.bitmap, bitmap, FreeLog(sb, f, i, s), SlotOf(f, i, s));
    }
  }

  lemma {:induction false} NoMapBlock(sb: Super, f: Fs, bitmap: seq<bv8>, logged: set<nat>, i: nat, s: nat)
    requires Good(sb, f) && i < |f.inode| && NDIRECT <= s <= MAXFILE + 1
    requires f.inode[i].addrs[NDIRECT] == 0 && FreedTo(sb, f, bitmap, logged, i, s)
    ensures FreedTo(sb, f, bitmap, logged, i, MAXFILE + 1)
    decreases MAXFILE + 1 - s
  {
    hide FreedTo, InUse, BitsMatch, SlotsOwned, NoHoles;
    if s <= MAXFILE {
      FreedToNext(sb, f, bitmap, logged, i, s);
      assert SlotOf(f, i, s) == 0;
      NoMapBlock(sb, f, bitmap, logged, i, s + 1);
    }
  }

  /** What itrunc does: inode `i` is empty, exactly the blocks it held are free
      (block 0 is never any inode's), every other file is as it was, and the
      bitmap blocks of what was freed and the inode's block are logged. */
  ghost predicate Truncated(sb: Super, f: Fs, e: Fs, i: nat)
    requires Good(sb, f) && i < |f.inode|
  {
    && Good(sb, e) && e.data == f.data
    && e.inode == f.inode[i := f.inode[i].(size := 0, addrs := NoBlocks())]
    && (forall b: nat | 0 < b < sb.size ::
          InUse(e.bitmap, b) <==>
          InUse(f.bitmap, b) && forall s: nat | s <= MAXFILE :: SlotOf(f, i, s) != b)
    && (forall j: nat | j < |f.inode| && j != i :: Contents(sb, e, j) == Contents(sb, f, j))
    && e.logged == f.logged + (FreeLog(sb, f, i, MAXFILE + 1) + {IBlock(sb, i)})
    && ChangesOnly(sb, f, e, FreeLog(sb, f, i, MAXFILE + 1) + {IBlock(sb, i)})
  }

  lemma TruncatedGood(sb: Super, f: Fs, e: Fs, i: nat, log: set<nat>)
    requires Good(sb, f) && i < |f.inode| && FreedTo(sb, f, e.bitmap, log, i, MAXFILE + 1)
    requires e.data == f.data && e.inode == f.inode[i := f.inode[i].(size := 0, addrs := NoBlocks())]
    requires |e.dinode| == |e.inode| && e.dinode == f.dinode[i := e.dinode[i]] && e.logged == log + {IBlock(sb, i)}
    requires e.owner == map b | b in f.owner && f.owner[b].0 != i :: f.owner[b]
    ensures Truncated(sb, f, e, i) && Good(sb, e)
  {
    hide InUse, GetWord, Slot, SlotOf, BitsMatch, SlotsOwned, NoHoles, OthersKept, FreeLog, Freed, ChangesOnly,
         BitmapChanges;
    TruncatedSlots(sb, f, e, i);
    TruncatedBits(sb, f, e, i);
    TruncatedChanges(sb, f, e, i, FreeLog(sb, f, i, MAXFILE + 1));
    hide Shape;
    OthersUnchanged(sb, f, e, i);
  }

  ghost function Disowned(owner: map<nat, (nat, nat)>, i: nat): map<nat, (nat, nat)> {
    map b | b in owner && owner[b].0 != i :: owner[b]
  }

  /** The file system with inode `i` empty, in the cache and on disk. */
  ghost function Emptied(f: Fs, i: nat, bitmap: seq<bv8>, log: set<nat>, ib: nat): Fs
    requires i < |f.inode| == |f.dinode|
  {
    var ip := f.inode[i].(size := 0, addrs := NoBlocks());
    Fs(bitmap, f.data, f.inode[i := ip], f.dinode[i := ip], Disowned(f.owner, i), log + {ib})
  }

  lemma EmptiedGood(sb: Super, f: Fs, i: nat, bitmap: seq<bv8>, log: set<nat>)
    requires Good(sb, f) && i < |f.inode| == |f.dinode| && f.dinode == f.inode
    requires FreedTo(sb, f, bitmap, log, i, MAXFILE + 1)
    ensures var e := Emptied(f, i, bitmap, log, IBlock(sb, i));
      Truncated(sb, f, e, i) && Good(sb, e) && e.dinode == e.inode
  {
    hide FreedTo, Good, Truncated, NoBlocks, IBlock;
    TruncatedGood(sb, f, Emptied(f, i, bitmap, log, IBlock(sb, i)), i, log);
  }

  lemma TruncatedChanges(sb: Super, f: Fs, e: Fs, i: nat, log: set<nat>)
    requires i < |f.dinode| == |e.dinode| && e.data == f.data && e.dinode == f.dinode[i := e.dinode[i]]
    requires BitmapChanges(sb, f.bitmap, e.bitmap, log)
    ensures ChangesOnly(sb, f, e, log + {IBlock(sb, i)})
  {
  }

  lemma TruncatedSlots(sb: Super, f: Fs, e: Fs, i: nat)
    requires Good(sb, f) && i < |f.inode| && |e.bitmap| == |f.bitmap|
    requires e.data == f.data && e.inode == f.inode[i := f.inode[i].(size := 0, addrs := NoBlocks())]
    requires |e.dinode| == |e.inode|
    requires e.owner == map b | b in f.owner && f.owner[b].0 != i :: f.owner[b]
    ensures Shape(sb, e) && SlotsOwned(sb, e) && NoHoles(sb, e)
    ensures BitsMatch(sb, e) ==> OthersKept(sb, f, e, i)
  {
    hide InUse, GetWord, BitsMatch;
    assert forall s: nat | s <= MAXFILE :: SlotOf(e, i, s) == 0;
    assert forall j: nat, s: nat | j < |f.inode| && j != i && s <= MAXFILE ::
        SlotOf(e, j, s) == SlotOf(f, j, s);
    hide Slot, SlotOf;
  }

  lemma TruncatedBits(sb: Super, f: Fs, e: Fs, i: nat)
    requires Good(sb, f) && i < |f.inode| && |e.bitmap| == |f.bitmap|
    requires Freed(sb, f, e.bitmap, i, MAXFILE + 1) && Shape(sb, e)
    requires e.owner == map b | b in f.owner && f.owner[b].0 != i :: f.owner[b]
    ensures BitsMatch(sb, e)
    ensures forall b: nat | 0 < b < sb.size ::
              InUse(e.bitmap, b) <==>
              InUse(f.bitmap, b) && forall s: nat | s <= MAXFILE :: SlotOf(f, i, s) != b
  {
    hide InUse, GetWord, Slot, NoHoles;
    forall b: nat | 0 < b < sb.size
      ensures InUse(e.bitmap, b) <==>
              InUse(f.bitmap, b) && forall s: nat | s <= MAXFILE :: SlotOf(f, i, s) != b
    {
      if b in f.owner && f.owner[b].0 == i {
        assert SlotOf(f, i, f.owner[b].1) == b;
      }
      assert forall s: nat | s <= MAXFILE && SlotOf(f, i, s) == b && b != 0 :: f.owner[b] == (i, s);
    }
  }

  /** The file's new size recorded, in the cache and on disk. */
  function Resized(f: Fs, i: nat, size: nat, ib: nat): Fs
    requires i < |f.inode| == |f.dinode|
  {
    var ip := f.inode[i].(size := size);
    f.(inode := f.inode[i := ip], dinode := f.dinode[i := ip], logged := f.logged + {ib})
  }

  /** The outcome that writei promises. */
  ghost predicate WriteDone(sb: Super, f: Fs, e: Fs, i: nat, off: nat, src: seq<Byte>)
    requires Good(sb, f) && i < |f.inode| && off <= f.inode[i].size
  {
    && Good(sb, e) && |e.inode| == |f.inode|
    && Contents(sb, e, i) == Overwritten(Contents(sb, f, i), off, src)
    && (forall j: nat | j < |f.inode| && j != i ::
          e.inode[j] == f.inode[j] && Contents(sb, e, j) == Contents(sb, f, j))
    && e.inode[i].kind == f.inode[i].kind && e.inode[i].nlink == f.inode[i].nlink
    && (forall s: nat | s <= MAXFILE && SlotOf(f, i, s) != 0 :: SlotOf(e, i, s) == SlotOf(f, i, s))
    && e.logged == f.logged + Footprint(sb, f, e, i, off, |src|)
    && ChangesOnly(sb, f, e, Footprint(sb, f, e, i, off, |src|))
    && (forall s | s in NewSlots(f, e, i) :: s == MAXFILE || off / BSIZE <= s < EndBlock(off, |src|))
  }

  lemma SlotIsBlock(sb: Super, f: Fs, i: nat, s: nat)
    requires Sound(sb, f) && i < |f.inode| && s <= MAXFILE && SlotOf(f, i, s) != 0
    ensures IsBlock(sb, |f.dinode|, SlotOf(f, i, s)) && IsBlock(sb, |f.dinode|, BBlock(sb, SlotOf(f, i, s)))
  {
    hide InUse, GetWord, Slot, SlotOf;
  }

  lemma InodeIsBlock(sb: Super, n: nat, i: nat)
    requires i < n
    ensures IsBlock(sb, n, IBlock(sb, i))
  {
  }

  lemma FootprintBlocks(sb: Super, f: Fs, e: Fs, i: nat, off: nat, n: nat)
    requires Good(sb, e) && i < |e.inode| && off + n <= e.inode[i].size
    requires i < |f.inode| && |f.inode[i].addrs| == NDIRECT + 1
    ensures AreBlocks(sb, |e.dinode|, Footprint(sb, f, e, i, off, n))
  {
    hide InUse, GetWord, Slot, SlotOf, BitsMatch, SlotsOwned, IsBlock, BBlock, IBlock;
    forall bn: nat | off / BSIZE <= bn < EndBlock(off, n) ensures bn < MAXFILE && SlotOf(e, i, bn) != 0 {
      assert bn * BSIZE < e.inode[i].size;
    }
    if exists s :: s in NewSlots(f, e, i) && NDIRECT <= s < MAXFILE {
      var s :| s in NewSlots(f, e, i) && NDIRECT <= s < MAXFILE;
      EntryNeedsMapBlock(sb, e, i, s);
    }
    InodeIsBlock(sb, |e.dinode|, i);
    hide NoHoles, EndBlock;
    forall s: nat | s <= MAXFILE && SlotOf(e, i, s) != 0
      ensures IsBlock(sb, |e.dinode|, SlotOf(e, i, s)) && IsBlock(sb, |e.dinode|, BBlock(sb, SlotOf(e, i, s)))
    {
      SlotIsBlock(sb, e, i, s);
    }
  }

  lemma WriteDoneLogs(sb: Super, f: Fs, e: Fs, i: nat, off: nat, src: seq<Byte>)
    requires Good(sb, f) && i < |f.inode| && off <= f.inode[i].size && WriteDone(sb, f, e, i, off, src)
    ensures Logs(sb, f, e)
  {
    OverwrittenBytes(Contents(sb, f, i), off, src);
    assert |src| > 0 ==> |Contents(sb, e, i)| >= off + |src|;
    hide InUse, GetWord, Slot, SlotOf, BitsMatch, SlotsOwned, NoHoles, Footprint, NewSlots, Overwritten, ChangesOnly,
         IsBlock, Contents, EndBlock;
    FootprintBlocks(sb, f, e, i, off, |src|);
    LogsTheChanges(sb, f, e, Footprint(sb, f, e, i, off, |src|));
  }

  function NewSize(size: nat, off: nat, n: nat): nat {
    if n > 0 && off + n > size then off + n else size
  }

  /** What writei leaves, said of slots and bytes: files may have holes. */
  ghost predicate Writes(sb: Super, f: Fs, e: Fs, i: nat, off: nat, src: seq<Byte>) {
    MapAfter(sb, f, e, i, off, |src|) && BlocksAfter(f, e, i, off, src) && LogAfter(sb, f, e, i, off, |src|)
  }

  /** The inode has its new size and nothing that was in a map has moved. */
  ghost predicate MapAfter(sb: Super, f: Fs, e: Fs, i: nat, off: nat, n: nat) {
    && Sound(sb, f) && Sound(sb, e) && i < |f.inode| && OthersKept(sb, f, e, i)
    && off <= f.inode[i].size && off + n <= MAXBYTES
    && e.inode[i] == f.inode[i].(size := NewSize(f.inode[i].size, off, n), addrs := e.inode[i].addrs)
    && (forall s: nat | s <= MAXFILE && SlotOf(f, i, s) != 0 :: SlotOf(e, i, s) == SlotOf(f, i, s))
  }

  /** The blocks touched are there, and no others are new, and hold the bytes. */
  ghost predicate BlocksAfter(f: Fs, e: Fs, i: nat, off: nat, src: seq<Byte>)
    requires HasMap(f, i) && HasMap(e, i)
  {
    && (forall s | s in NewSlots(f, e, i) :: s == MAXFILE || off / BSIZE <= s < EndBlock(off, |src|))
    && (forall s: nat | off / BSIZE <= s < EndBlock(off, |src|) :: SlotOf(e, i, s) != 0)
    && Written(f, e, i, off, src, |src|)
  }

  /** The footprint is logged, and nothing else has changed. */
  ghost predicate LogAfter(sb: Super, f: Fs, e: Fs, i: nat, off: nat, n: nat)
    requires HasMap(f, i) && HasMap(e, i)
  {
    e.logged == f.logged + Footprint(sb, f, e, i, off, n) && ChangesOnly(sb, f, e, Footprint(sb, f, e, i, off, n))
  }

  lemma GoodIsSound(sb: Super, f: Fs)
    ensures Good(sb, f) ==> Sound(sb, f)
  {
  }

  /** A write makes no hole, and where there was none it does what it promises. */
  lemma WritesGood(sb: Super, f: Fs, e: Fs, i: nat, off: nat, src: seq<Byte>)
    requires Writes(sb, f, e, i, off, src) && Good(sb, f)
    ensures WriteDone(sb, f, e, i, off, src) && Good(sb, e)
  {
    WritesNoHole(sb, f, e, i, off, src);
    hide InUse, GetWord, Slot, SlotOf, BitsMatch, SlotsOwned, NoHoles, Footprint, NewSlots, EndBlock, ChangesOnly,
         Written, OthersKept;
    WrittenContents(sb, f, e, i, off, src);
    OthersUnchanged(sb, f, e, i);
    OthersInodes(sb, f, e, i);
    hide Contents, Overwritten, Shape;
  }

  lemma WritesNoHole(sb: Super, f: Fs, e: Fs, i: nat, off: nat, src: seq<Byte>)
    requires Writes(sb, f, e, i, off, src) && NoHoles(sb, f)
    ensures NoHoles(sb, e)
  {
    hide InUse, GetWord, Slot, SlotOf, BitsMatch, SlotsOwned, Footprint, NewSlots, ChangesOnly, Written;
    forall j: nat, bn: nat | j < |e.inode| && bn * BSIZE < e.inode[j].size ensures SlotOf(e, j, bn) != 0 {
      if j != i {
        assert SlotOf(f, j, bn) != 0;
      } else if bn * BSIZE < f.inode[i].size {
        assert SlotOf(f, i, bn) != 0;
      } else {
        assert off / BSIZE <= bn < EndBlock(off, |src|);
      }
    }
  }

  lemma WrittenContents(sb: Super, f: Fs, e: Fs, i: nat, off: nat, src: seq<Byte>)
    requires Good(sb, f) && Good(sb, e) && i < |f.inode| == |e.inode| && off <= f.inode[i].size
    requires Written(f, e, i, off, src, |src|)
    requires e.inode[i].size == NewSize(f.inode[i].size, off, |src|)
    ensures Contents(sb, e, i) == Overwritten(Contents(sb, f, i), off, src)
  {
    hide InUse, GetWord, Slot, SlotOf, BitsMatch, SlotsOwned, Overwritten;
    var c, d := Contents(sb, e, i), Contents(sb, f, i);
    OverwrittenBytes(d, off, src);
    forall k: nat | k < |c| ensures c[k] == Overwritten(d, off, src)[k] {
      assert SlotOf(e, i, k / BSIZE) != 0 && c[k] == ByteAt(e, i, k);
      assert k < |d| ==> SlotOf(f, i, k / BSIZE) != 0 && d[k] == ByteAt(f, i, k);
    }
  }

  lemma OverwrittenBytes(d: seq<Byte>, off: nat, src: seq<Byte>)
    requires off <= |d|
    ensures |Overwritten(d, off, src)| == NewSize(|d|, off, |src|)
    ensures forall k: nat | k < |Overwritten(d, off, src)| ::
              Overwritten(d, off, src)[k] == if off <= k < off + |src| then src[k - off] else d[k]
  {
  }

  lemma WroteInPlace(sb: Super, f: Fs, g: Fs, i: nat, off: nat, src: seq<Byte>)
    requires SoFar(sb, f, g, i, off, src, |src|) && off <= f.inode[i].size && off + |src| <= MAXBYTES
    requires |src| == 0 || off + |src| <= f.inode[i].size
    ensures Writes(sb, f, g, i, off, src)
  {
    hide InUse, GetWord, Slot, SlotOf, BitsMatch, SlotsOwned, NoHoles, AllocLog, DataBlocks, EndBlock, Written,
         OthersKept, NewSlots, ChangesOnly;
    assert PassLog(sb, f, g, i, off, |src|) == Footprint(sb, f, g, i, off, |src|);
  }

  lemma ResizedSound(sb: Super, g: Fs, i: nat, size: nat)
    requires Sound(sb, g) && i < |g.inode| && size <= MAXBYTES
    ensures var e := Resized(g, i, size, IBlock(sb, i));
      && Sound(sb, e) && forall j: nat, s: nat | j < |g.inode| && s <= MAXFILE :: SlotOf(e, j, s) == SlotOf(g, j, s)
  {
    hide InUse, GetWord, BitsMatch;
    var e := Resized(g, i, size, IBlock(sb, i));
    assert forall j: nat, s: nat | j < |g.inode| && s <= MAXFILE :: SlotOf(e, j, s) == SlotOf(g, j, s);
    hide Slot, SlotOf;
    SameBits(sb, g, e);
  }

  lemma SameBits(sb: Super, f: Fs, g: Fs)
    requires Shape(sb, f) && Shape(sb, g) && g.bitmap == f.bitmap && g.owner == f.owner
    ensures BitsMatch(sb, f) <==> BitsMatch(sb, g)
  {
  }

  lemma ResizedChanges(sb: Super, f: Fs, g: Fs, i: nat, size: nat, l: set<nat>)
    requires i < |g.inode| == |g.dinode| && ChangesOnly(sb, f, g, l)
    ensures ChangesOnly(sb, f, Resized(g, i, size, IBlock(sb, i)), l + {IBlock(sb, i)})
  {
    var e := Resized(g, i, size, IBlock(sb, i));
    assert ChangesOnly(sb, g, e, {IBlock(sb, i)});
    hide ChangesOnly;
    ChangesTransitive(sb, f, g, e, l, {IBlock(sb, i)}, l + {IBlock(sb, i)});
  }

  lemma GrewTo(sb: Super, f: Fs, g: Fs, i: nat, off: nat, src: seq<Byte>)
    requires SoFar(sb, f, g, i, off, src, |src|) && off <= f.inode[i].size && off + |src| <= MAXBYTES
    requires |src| > 0 && off + |src| > f.inode[i].size
    ensures i < |g.inode| == |g.dinode|
    ensures Writes(sb, f, Resized(g, i, off + |src|, IBlock(sb, i)), i, off, src)
  {
    hide InUse, GetWord, Slot, SlotOf, BitsMatch, SlotsOwned, NoHoles, PassLog, ChangesOnly, NewSlots, EndBlock,
         Footprint, Written, OthersKept, MapAfter, BBlock, NewSize;
    var e := Resized(g, i, off + |src|, IBlock(sb, i));
    GrewMap(sb, f, g, i, off, src);
    ResizedChanges(sb, f, g, i, off + |src|, PassLog(sb, f, g, i, off, |src|));
    LastBlock(off, |src|);
    SameFootprint(sb, f, g, e, i, off, |src|);
    SameBytes(f, g, e, i, off, src);
    hide Extended, Sound, IBlock;
  }

  lemma GrewMap(sb: Super, f: Fs, g: Fs, i: nat, off: nat, src: seq<Byte>)
    requires SoFar(sb, f, g, i, off, src, |src|) && off <= f.inode[i].size && off + |src| <= MAXBYTES
    requires |src| > 0 && off + |src| > f.inode[i].size
    ensures HasMap(f, i) && HasMap(g, i) && |g.inode| == |g.dinode|
    ensures var e := Resized(g, i, off + |src|, IBlock(sb, i));
      && MapAfter(sb, f, e, i, off, |src|) && HasMap(e, i)
      && forall s: nat | s <= MAXFILE :: SlotOf(e, i, s) == SlotOf(g, i, s)
  {
    hide InUse, GetWord, Slot, SlotOf, BitsMatch, SlotsOwned, NoHoles, PassLog, ChangesOnly, NewSlots, EndBlock,
         Written, OthersKept;
    ResizedSound(sb, g, i, off + |src|);
    ResizedOthers(sb, f, g, Resized(g, i, off + |src|, IBlock(sb, i)), i, off + |src|);
  }

  lemma ResizedOthers(sb: Super, f: Fs, g: Fs, e: Fs, i: nat, size: nat)
    requires Extended(sb, f, g, i) && i < |g.inode| == |g.dinode| && e == Resized(g, i, size, IBlock(sb, i))
    requires Sound(sb, e) && forall j: nat, s: nat | j < |g.inode| && s <= MAXFILE :: SlotOf(e, j, s) == SlotOf(g, j, s)
    ensures OthersKept(sb, f, e, i) && i < |f.inode|
    ensures e.inode[i] == f.inode[i].(size := size, addrs := e.inode[i].addrs)
    ensures forall s: nat | s <= MAXFILE && SlotOf(f, i, s) != 0 :: SlotOf(e, i, s) == SlotOf(f, i, s)
  {
    hide InUse, GetWord, Slot, SlotOf, BitsMatch, SlotsOwned, NoHoles;
  }

  lemma LastBlock(off: nat, n: nat)
    requires off + n <= MAXBYTES
    ensures EndBlock(off, n) <= MAXFILE
  {
  }

  /** The inode's block is the one more that is logged. */
  lemma SameFootprint(sb: Super, f: Fs, g: Fs, e: Fs, i: nat, off: nat, n: nat)
    requires HasMap(f, i) && HasMap(g, i) && HasMap(e, i) && EndBlock(off, n) <= MAXFILE
    requires n > 0 && off + n > f.inode[i].size
    requires forall s: nat | s <= MAXFILE :: SlotOf(e, i, s) == SlotOf(g, i, s)
    ensures NewSlots(f, e, i) == NewSlots(f, g, i)
    ensures Footprint(sb, f, e, i, off, n)
         == PassLog(sb, f, g, i, off, n) + {IBlock(sb, i)}
  {
    hide SlotOf, BBlock, EndBlock;
    var u := NewSlots(f, g, i);
    assert NewSlots(f, e, i) == u;
    assert (set s | s in u :: SlotOf(e, i, s)) == (set s | s in u :: SlotOf(g, i, s));
    assert (set s | s in u :: BBlock(sb, SlotOf(e, i, s))) == (set s | s in u :: BBlock(sb, SlotOf(g, i, s)));
    assert DataBlocks(e, i, off / BSIZE, EndBlock(off, n)) == DataBlocks(g, i, off / BSIZE, EndBlock(off, n));
  }

  lemma SameBytes(f: Fs, g: Fs, e: Fs, i: nat, off: nat, src: seq<Byte>)
    requires i < |f.inode| && |f.inode[i].addrs| == NDIRECT + 1
    requires i < |g.inode| && |g.inode[i].addrs| == NDIRECT + 1
    requires i < |e.inode| && |e.inode[i].addrs| == NDIRECT + 1
    requires e.data == g.data && forall s: nat | s <= MAXFILE :: SlotOf(e, i, s) == SlotOf(g, i, s)
    requires Written(f, g, i, off, src, |src|)
    ensures Written(f, e, i, off, src, |src|)
  {
    hide SlotOf;
  }

  lemma ExtendedSize(sb: Super, f: Fs, g: Fs, i: nat)
    requires Extended(sb, f, g, i)
    ensures i < |f.inode| == |g.inode| && g.inode[i].size == f.inode[i].size && g.dinode == f.dinode
    ensures forall j: nat | j < |f.inode| && j != i :: g.inode[j] == f.inode[j]
  {
    hide InUse, GetWord, Slot, SlotOf;
  }

  lemma OthersInodes(sb: Super, f: Fs, g: Fs, i: nat)
    requires Sound(sb, f) && Sound(sb, g) && OthersKept(sb, f, g, i)
    ensures |g.inode| == |f.inode| && forall j: nat | j < |f.inode| && j != i :: g.inode[j] == f.inode[j]
  {
  }

  predicate HasMap(f: Fs, i: nat) {
    i < |f.inode| && |f.inode[i].addrs| == NDIRECT + 1
  }

  /** What writei's loop has logged after `tot` bytes. */
  ghost function PassLog(sb: Super, f: Fs, g: Fs, i: nat, off: nat, tot: nat): set<nat>
    requires HasMap(f, i) && HasMap(g, i)
  {
    AllocLog(sb, f, g, i) + DataBlocks(g, i, off / BSIZE, EndBlock(off, tot))
  }

  /** The state of writei's loop after `tot` bytes. */
  ghost predicate SoFar(sb: Super, f: Fs, g: Fs, i: nat, off: nat, src: seq<Byte>, tot: nat) {
    && tot <= |src| && Extended(sb, f, g, i) && Written(f, g, i, off, src, tot)
    && g.logged == f.logged + PassLog(sb, f, g, i, off, tot) && ChangesOnly(sb, f, g, PassLog(sb, f, g, i, off, tot))
    && (forall s | s in NewSlots(f, g, i) :: s == MAXFILE || off / BSIZE <= s < EndBlock(off, tot))
    && forall s: nat | off / BSIZE <= s < EndBlock(off, tot) :: SlotOf(g, i, s) != 0
  }

  lemma WriteStart(sb: Super, f: Fs, i: nat, off: nat, src: seq<Byte>)
    requires Sound(sb, f) && i < |f.inode|
    ensures SoFar(sb, f, f, i, off, src, 0) && Passed(sb, f, f, i, off, src, 0)
  {
    ExtendedReflexive(sb, f, i);
    NothingWritten(sb, f, i, off, src);
    ChangesNothing(sb, f, f, AllocLog(sb, f, f, i) + DataBlocks(f, i, off / BSIZE, EndBlock(off, 0)));
    hide InUse, GetWord, Slot, SlotOf, BitsMatch, SlotsOwned, NoHoles, Written, Extended, AllocLog, ChangesOnly;
    assert DataBlocks(f, i, off / BSIZE, EndBlock(off, 0)) == {};
  }

  /** Where the file already reaches, the block to be written is there, when the
      file had no holes. */
  lemma WroteHeld(sb: Super, f: Fs, g: Fs, i: nat, off: nat, src: seq<Byte>, tot: nat)
    requires SoFar(sb, f, g, i, off, src, tot) && tot < |src| && off + |src| <= MAXBYTES
    ensures i < |f.inode| == |g.inode| && |g.inode[i].addrs| == NDIRECT + 1
    ensures (off + tot) / BSIZE < MAXFILE
    ensures Good(sb, g) && off + tot < f.inode[i].size ==> SlotOf(g, i, (off + tot) / BSIZE) != 0
  {
    if Good(sb, g) {
      HeldBlockOf(sb, g, i, off + tot);
    }
    hide InUse, GetWord, Slot, SlotOf, BitsMatch, SlotsOwned, NoHoles, AllocLog, Written, ChangesOnly;
    assert g.inode[i].size == f.inode[i].size;
  }

  /** A write stops with no block left, and leaves the file system consistent. */
  /** Inode `i` lacks one of the blocks that `n` bytes at `off` lie in. */
  ghost predicate Lacks(f: Fs, i: nat, off: nat, n: nat) {
    HasMap(f, i) && exists bn: nat :: off / BSIZE <= bn < EndBlock(off, n) && SlotOf(f, i, bn) == 0
  }

  /** Inside a file without holes no block is missing. */
  lemma LacksNothing(sb: Super, f: Fs, i: nat, off: nat, n: nat)
    requires Good(sb, f) && i < |f.inode|
    ensures off + n <= f.inode[i].size ==> !Lacks(f, i, off, n)
  {
    hide InUse, GetWord, Slot, SlotOf, BitsMatch, SlotsOwned;
    forall bn: nat | off / BSIZE <= bn < EndBlock(off, n) && off + n <= f.inode[i].size ensures SlotOf(f, i, bn) != 0 {
      assert bn * BSIZE < f.inode[i].size;
    }
  }

  /** A block that is missing on the way was missing at first. */
  lemma LackedFirst(sb: Super, f: Fs, g: Fs, i: nat, off: nat, src: seq<Byte>, tot: nat)
    requires SoFar(sb, f, g, i, off, src, tot) && tot < |src| && off + |src| <= MAXBYTES
    requires HasMap(g, i) && SlotOf(g, i, (off + tot) / BSIZE) == 0
    ensures Lacks(f, i, off, |src|)
  {
    hide InUse, GetWord, Slot, SlotOf, BitsMatch, SlotsOwned, Written, OthersKept, NewSlots, ChangesOnly;
    var bn := (off + tot) / BSIZE;
    assert off / BSIZE <= bn < EndBlock(off, |src|) && bn <= MAXFILE;
    assert SlotOf(f, i, bn) == 0;
  }

  ghost predicate DiskFull(sb: Super, f: Fs, g: Fs) {
    Kept(sb, f, g) && forall c: nat | c < sb.size :: InUse(g.bitmap, c)
  }

  ghost predicate Kept(sb: Super, f: Fs, g: Fs) {
    Sound(sb, g) && |g.inode| == |f.inode| && g.dinode == f.dinode && (Good(sb, f) ==> Good(sb, g))
  }

  /** SoFar, and what follows from it; within a file without holes no block is added. */
  ghost predicate Passed(sb: Super, f: Fs, g: Fs, i: nat, off: nat, src: seq<Byte>, tot: nat) {
    && SoFar(sb, f, g, i, off, src, tot) && Kept(sb, f, g) && i < |f.inode|
    && (Good(sb, f) && off + tot <= f.inode[i].size ==> g.inode == f.inode)
  }

  lemma DiskFullGood(sb: Super, f: Fs, g: Fs)
    requires DiskFull(sb, f, g) && Good(sb, f)
    ensures Good(sb, g) && forall c: nat | c < sb.size :: InUse(g.bitmap, c)
  {
    hide Good, InUse;
  }

  lemma PassedAll(sb: Super, f: Fs, g: Fs, i: nat, off: nat, src: seq<Byte>)
    requires Passed(sb, f, g, i, off, src, |src|)
    ensures SoFar(sb, f, g, i, off, src, |src|) && i < |f.inode| == |g.inode| && g.dinode == f.dinode
    ensures g.inode[i].size == f.inode[i].size && forall j: nat | j < |f.inode| && j != i :: g.inode[j] == f.inode[j]
    ensures Good(sb, f) && off + |src| <= f.inode[i].size ==> g.inode == f.inode
  {
    hide Extended, AllocLog, DataBlocks, ChangesOnly, Written, Good;
    ExtendedSize(sb, f, g, i);
  }

  lemma HeldBlockOf(sb: Super, f: Fs, i: nat, at: nat)
    requires Good(sb, f) && i < |f.inode|
    ensures at < f.inode[i].size ==> SlotOf(f, i, at / BSIZE) != 0
  {
    if at < f.inode[i].size {
      HeldBlock(sb, f, i, at);
    }
  }

  /** `e` is `h` with `src` stored at byte `at` of file `i`, all in one block. */
  ghost predicate StoredAt(h: Fs, e: Fs, i: nat, at: nat, src: seq<Byte>) {
    && i < |h.inode| && |h.inode[i].addrs| == NDIRECT + 1 && at % BSIZE + |src| <= BSIZE
    && SlotOf(h, i, at / BSIZE) < |h.data|
    && e == Stored(h, SlotOf(h, i, at / BSIZE), Spliced(h.data[SlotOf(h, i, at / BSIZE)], at % BSIZE, src))
  }

  lemma MappedInRange(sb: Super, f: Fs, g: Fs, i: nat, bn: nat)
    requires Mapped(sb, f, g, i, bn)
    ensures i < |g.inode| && |g.inode[i].addrs| == NDIRECT + 1 && SlotOf(g, i, bn) < |g.data|
  {
    hide InUse, GetWord, Slot, SlotOf, BitsMatch, NoHoles, OthersKept, AllocLog;
    SlotInRange(sb, g, i, bn);
  }

  lemma PassStep(sb: Super, f: Fs, g: Fs, h: Fs, e: Fs, i: nat, off: nat, src: seq<Byte>, tot: nat, m: nat)
    requires SoFar(sb, f, g, i, off, src, tot) && tot + m <= |src| && off + |src| <= MAXBYTES
    requires 0 < m <= BSIZE - (off + tot) % BSIZE
    requires Mapped(sb, g, h, i, (off + tot) / BSIZE) && StoredAt(h, e, i, off + tot, src[tot..tot + m])
    ensures SoFar(sb, f, e, i, off, src, tot + m) && Sound(sb, e) && |e.inode| == |f.inode|
    ensures Good(sb, g) ==> Good(sb, e)
  {
    hide InUse, GetWord, Slot, SlotOf, BitsMatch, SlotsOwned, NoHoles, Written, AllocLog, DataBlocks,
         EndBlock, Spliced, OthersKept, ChangesOnly;
    var bn, o := (off + tot) / BSIZE, (off + tot) % BSIZE;
    WriteStep(sb, f, g, h, i, off, src, tot, m);
    EndBlockStep(off, tot, m);
    var b := Spliced(h.data[SlotOf(h, i, bn)], o, src[tot..tot + m]);
    LogStep(sb, f, g, h, e, i, off / BSIZE, EndBlock(off, tot), bn, b);
    StoreKeeps(sb, h, i, bn, b);
    ExtendedGood(sb, g, h, i);
    ExtendedGood(sb, h, e, i);
  }

  /** More blocks make no hole. */
  lemma ExtendedGood(sb: Super, f: Fs, g: Fs, i: nat)
    requires Extended(sb, f, g, i)
    ensures |g.inode| == |f.inode| && (Good(sb, f) ==> Good(sb, g))
  {
    hide InUse, GetWord, Slot, SlotOf, BitsMatch, SlotsOwned;
    if NoHoles(sb, f) {
      forall j: nat, bn: nat | j < |g.inode| && bn * BSIZE < g.inode[j].size ensures SlotOf(g, j, bn) != 0 {
        assert SlotOf(f, j, bn) != 0;
      }
    }
  }

  lemma EndBlockStep(off: nat, tot: nat, m: nat)
    requires 0 < m <= BSIZE - (off + tot) % BSIZE
    ensures var bn := (off + tot) / BSIZE;
            off / BSIZE <= bn && bn <= EndBlock(off, tot) <= bn + 1 && EndBlock(off, tot + m) == bn + 1
  {
  }

  lemma SliceJoin<T>(c: seq<T>, lo: nat, mid: nat, hi: nat)
    requires lo <= mid <= hi <= |c|
    ensures c[lo..mid] + c[mid..hi] == c[lo..hi]
  {
  }

  lemma HeldBlock(sb: Super, f: Fs, i: nat, at: nat)
    requires Good(sb, f) && i < |f.inode| && at < f.inode[i].size
    ensures at / BSIZE < MAXFILE && SlotOf(f, i, at / BSIZE) != 0
  {
  }

  lemma SameBlock(at: nat, j: nat)
    requires at <= j < at + (BSIZE - at % BSIZE)
    ensures j / BSIZE == at / BSIZE && j % BSIZE == at % BSIZE + (j - at)
  {
  }

  lemma ReadStep(sb: Super, f: Fs, i: nat, at: nat, m: nat)
    requires Good(sb, f) && i < |f.inode| && at + m <= f.inode[i].size
    requires m <= BSIZE - at % BSIZE && SlotOf(f, i, at / BSIZE) < |f.data|
    ensures Contents(sb, f, i)[at..at + m]
         == f.data[SlotOf(f, i, at / BSIZE)][at % BSIZE..at % BSIZE + m]
  {
    hide InUse, GetWord, Slot, SlotOf, BitsMatch, SlotsOwned, NoHoles;
    var c, b := Contents(sb, f, i), f.data[SlotOf(f, i, at / BSIZE)];
    forall j: nat | at <= j < at + m ensures c[j] == b[at % BSIZE + (j - at)] {
      SameBlock(at, j);
    }
  }

  lemma BitInByte(b: nat, bi: nat)
    ensures b % 8 == 0 ==> (b + bi) % 8 == bi % 8
  {
  }

  lemma BitOfBlock(b: nat)
    ensures (b % BPB) % 8 == b % 8
  {
    var q := b / BPB;
    assert b == 8 * (BSIZE * q) + b % BPB;
  }

  lemma AlreadyMapped(sb: Super, f: Fs, i: nat, bn: nat)
    requires Sound(sb, f) && i < |f.inode| && bn < MAXFILE && SlotOf(f, i, bn) != 0
    ensures Mapped(sb, f, f, i, bn)
  {
    ExtendedReflexive(sb, f, i);
    ChangesNothing(sb, f, f, AllocLog(sb, f, f, i));
    hide InUse, GetWord, BitsMatch, Slot, ChangesOnly;
  }

  lemma MapBlockInRange(sb: Super, f: Fs, i: nat)
    requires Sound(sb, f) && i < |f.inode| && f.inode[i].addrs[NDIRECT] != 0
    ensures sb.nmeta <= f.inode[i].addrs[NDIRECT] < |f.data|
  {
    assert SlotOf(f, i, MAXFILE) in f.owner;
  }
}
