/** File systems made from scratch, after `mkfs.c`: the states from which every
    other one is reached. */
module Mkfs {
  import opened Disk
  import opened Bitmap
  import opened FileSystem
  import opened Directory
  import opened Namei

  /** The file system with these inodes and blocks, its bitmap marking the
      metadata blocks and the blocks in `owner`. */
  ghost function Made(sb: Super, inode: seq<Inode>, data: seq<Block>, owner: map<nat, (nat, nat)>): Fs {
    Fs(BitsFrom(b => b < sb.nmeta || b in owner, sb.size / 8 + 1), data, inode, inode, owner, {})
  }

  lemma MadeBits(sb: Super, inode: seq<Inode>, data: seq<Block>, owner: map<nat, (nat, nat)>)
    requires Shape(sb, Made(sb, inode, data, owner))
    ensures BitsMatch(sb, Made(sb, inode, data, owner))
  {
    hide InUse, BitsFrom;
    var f := Made(sb, inode, data, owner);
    forall b | 0 <= b < sb.size ensures InUse(f.bitmap, b) <==> b < sb.nmeta || b in owner {
      BitsFromInUse(b => b < sb.nmeta || b in owner, sb.size / 8 + 1, b);
    }
  }

  /** A byte of the bitmap depends on its eight blocks only. */
  lemma MadeByte(sb: Super, f: Fs, g: Fs, k: nat)
    requires f == Made(sb, f.inode, f.data, f.owner) && g == Made(sb, g.inode, g.data, g.owner)
    requires k < |f.bitmap| && forall b: nat | b / 8 == k :: b in f.owner <==> b in g.owner
    ensures |g.bitmap| == |f.bitmap| && g.bitmap[k] == f.bitmap[k]
  {
    var o, o' := f.owner, g.owner;
    var p, q: nat -> bool := b => b < sb.nmeta || b in o, b => b < sb.nmeta || b in o';
    hide ByteFrom;
    SameByte(p, q, k, 8);
    assert f.bitmap == BitsFrom(p, sb.size / 8 + 1) && g.bitmap == BitsFrom(q, sb.size / 8 + 1);
  }

  function BlankInode(): Inode {
    Inode(Free, 0, 0, NoBlocks())
  }

  predicate Sizes(sb: Super) {
    1 <= sb.nmeta <= sb.size < 0x1_0000_0000
  }

  function Zeroed(sb: Super): seq<Block> {
    seq(sb.size, _ => ZeroBlock())
  }

  /** Nothing but metadata: `n` free inodes and no data block in use. */
  ghost function Blank(sb: Super, n: nat): Fs {
    Made(sb, seq(n, _ => BlankInode()), Zeroed(sb), map[])
  }

  lemma BlankGood(sb: Super, n: nat)
    requires Sizes(sb)
    ensures Good(sb, Blank(sb, n)) && Blank(sb, n).dinode == Blank(sb, n).inode
  {
    MadeBits(sb, seq(n, _ => BlankInode()), Zeroed(sb), map[]);
    hide InUse, BitsFrom;
  }

  // ---- The root directory ----

  function RootBlock(): (b: Block) {
    Encode(ROOTINO, [46]) + Encode(ROOTINO, [46, 46]) + seq(480, _ => 0)
  }

  function RootInode(sb: Super): Inode {
    Inode(Dir, 1, 512, NoBlocks()[0 := sb.nmeta])
  }

  /** What mkfs makes with no files to copy: `n` inodes, of which the root is a
      directory of one block with the entries `.` and `..`. */
  ghost function Root(sb: Super, n: nat): (f: Fs)
    requires sb.nmeta < sb.size && ROOTINO < n
  {
    Made(sb, seq(n, _ => BlankInode())[ROOTINO := RootInode(sb)], Zeroed(sb)[sb.nmeta := RootBlock()],
         map[sb.nmeta := (ROOTINO, 0)])
  }

  lemma RootSlots(sb: Super, n: nat)
    requires Sizes(sb) && sb.nmeta < sb.size && ROOTINO < n
    ensures Shape(sb, Root(sb, n))
    ensures forall i: nat, s: nat | i < n && s <= MAXFILE ::
              SlotOf(Root(sb, n), i, s) == if i == ROOTINO && s == 0 then sb.nmeta else 0
  {
    hide BitsFrom, RootBlock;
  }

  lemma RootGood(sb: Super, n: nat)
    requires Sizes(sb) && sb.nmeta < sb.size && ROOTINO < n
    ensures Good(sb, Root(sb, n)) && Root(sb, n).dinode == Root(sb, n).inode
    ensures Contents(sb, Root(sb, n), ROOTINO) == RootBlock()
  {
    hide InUse, BitsFrom, RootBlock, Slot, SlotOf;
    var f := Root(sb, n);
    RootSlots(sb, n);
    MadeBits(sb, f.inode, f.data, f.owner);
    assert NoHoles(sb, f) by {
      forall i: nat, bn: nat | i < n && bn * BSIZE < f.inode[i].size ensures SlotOf(f, i, bn) != 0 {
        assert i == ROOTINO;
        assert bn == 0;
      }
    }
    var c := Contents(sb, f, ROOTINO);
    forall k: nat | k < 512 ensures c[k] == RootBlock()[k] {
      assert c[k] == ByteAt(f, ROOTINO, k);
    }
    assert c == RootBlock();
  }

  /** The entries of the root: its own number under two names, and 30 free ones. */
  lemma RootEntries(k: nat)
    requires k < 32
    ensures EntryAt(RootBlock(), k).inum == if k < 2 then ROOTINO else 0
    ensures k < 2 ==> CString(EntryAt(RootBlock(), k).name) == if k == 0 then [46] else [46, 46]
  {
    var c := RootBlock();
    if k == 0 {
      assert c[0..16] == Encode(ROOTINO, [46]);
      EntryRoundTrip(ROOTINO, [46]);
    } else if k == 1 {
      assert c[16..32] == Encode(ROOTINO, [46, 46]);
      EntryRoundTrip(ROOTINO, [46, 46]);
    } else {
      assert c[16 * k] == 0 && c[16 * k + 1] == 0;
    }
  }

  /** The root is a directory, and its names lead to itself. */
  lemma RootTree(sb: Super, n: nat)
    requires Sizes(sb) && sb.nmeta < sb.size && ROOTINO < n
    ensures Tree(sb, Root(sb, n)) && IsDirectory(sb, Root(sb, n), ROOTINO)
    ensures Names(sb, Root(sb, n), ROOTINO) == map[[46] := ROOTINO, [46, 46] := ROOTINO]
  {
    RootNames(sb, n);
    RootGood(sb, n);
    hide InUse, BitsFrom, RootBlock, Good, Contents, IsDirectory, Names;
    var f := Root(sb, n);
    forall i | 0 <= i < n ensures f.inode[i].kind.Dir? <==> i == ROOTINO {
    }
  }

  lemma RootNames(sb: Super, n: nat)
    requires Sizes(sb) && sb.nmeta < sb.size && ROOTINO < n
    ensures IsDirectory(sb, Root(sb, n), ROOTINO)
    ensures Names(sb, Root(sb, n), ROOTINO) == map[[46] := ROOTINO, [46, 46] := ROOTINO]
  {
    RootGood(sb, n);
    RootUnique();
    hide InUse, BitsFrom, RootBlock, Good, Contents, UniqueNames, DirMap;
    assert IsDirectory(sb, Root(sb, n), ROOTINO);
    assert Names(sb, Root(sb, n), ROOTINO) == DirMap(RootBlock(), 32);
  }

  lemma RootUnique()
    ensures UniqueNames(RootBlock()) && DirMap(RootBlock(), 32) == map[[46] := ROOTINO, [46, 46] := ROOTINO]
  {
    var c := RootBlock();
    hide RootBlock, Decode, CString, EntryAt;
    forall k: nat | k < 32
      ensures EntryAt(c, k).inum == if k < 2 then ROOTINO else 0
      ensures k < 2 ==> CString(EntryAt(c, k).name) == if k == 0 then [46] else [46, 46]
    {
      RootEntries(k);
    }
    DirMapHolds(c, 32);
    var m := DirMap(c, 32);
    assert m[CString(EntryAt(c, 0).name)] == ROOTINO && m[CString(EntryAt(c, 1).name)] == ROOTINO;
    forall x | x in m ensures x == [46] || x == [46, 46] {
      var k: nat :| k < 32 && EntryAt(c, k).inum != 0 && CString(EntryAt(c, k).name) == x;
    }
  }
}
