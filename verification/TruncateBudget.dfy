/** How many blocks `itrunc` (`fs.c`) logs, against the log's share of one call:
    one for each bitmap block with a bit of the file, and the inode's. */
module TruncateBudget {
  import opened Bitmap
  import opened FileSystem
  import opened FileWrite
  import opened Mkfs
  import Directory
  import FsRuns
  import Namei
  import Log

  /** What truncating file `i` logs. */
  function TruncateLog(sb: Super, f: Fs, i: nat): set<nat>
    requires i < |f.inode| && |f.inode[i].addrs| == NDIRECT + 1
  {
    FreeLog(sb, f, i, MAXFILE + 1) + {IBlock(sb, i)}
  }

  lemma TruncateLogged(sb: Super, f: Fs, e: Fs, i: nat)
    requires Good(sb, f) && i < |f.inode| && Truncated(sb, f, e, i)
    ensures e.logged == f.logged + TruncateLog(sb, f, i)
  {
    hide FreeLog, Good, InUse, SlotOf, Contents;
  }

  /** Every file that calls can come across, whatever the number of inodes. */
  ghost predicate TruncationsFit(sb: Super) {
    forall f, i: nat | FsRuns.Inv(sb, f) && Namei.ROOTINO < i < |f.inode| ::
      |TruncateLog(sb, f, i)| <= Log.MAXOPBLOCKS
  }

  /** The bitmap block, counted from the first, with the bit of block `b`. */
  function Part(b: nat): nat {
    b / BPB
  }

  lemma PartsOrdered(b: nat, c: nat)
    requires b <= c
    ensures Part(b) <= Part(c)
  {
  }

  lemma FreeLogWithin(sb: Super, f: Fs, i: nat)
    requires Good(sb, f) && i < |f.inode| && sb.nmeta < sb.size
    ensures Part(sb.nmeta) <= Part(sb.size - 1)
    ensures FreeLog(sb, f, i, MAXFILE + 1)
         <= Interval(Part(sb.nmeta) + sb.bmapstart, Part(sb.size - 1) + sb.bmapstart + 1)
  {
    PartsOrdered(sb.nmeta, sb.size - 1);
    hide InUse, Slot, SlotOf;
    forall s: nat | s <= MAXFILE && SlotOf(f, i, s) != 0
      ensures Part(sb.nmeta) <= Part(SlotOf(f, i, s)) <= Part(sb.size - 1)
    {
      assert SlotOf(f, i, s) in f.owner;
      PartsOrdered(sb.nmeta, SlotOf(f, i, s));
      PartsOrdered(SlotOf(f, i, s), sb.size - 1);
    }
  }

  // ---- A file spread over ten bitmap blocks ----

  /** The first data block, and the first block of each of the parts after it. */
  function Spread(sb: Super, k: nat): nat {
    if k == 0 then sb.nmeta else BPB * (Part(sb.nmeta) + k)
  }

  lemma SpreadAt(sb: Super, k: nat)
    requires sb.nmeta < sb.size && Part(sb.size - 1) >= Part(sb.nmeta) + 9 && k < 10
    ensures sb.nmeta <= Spread(sb, k) < sb.size && Part(Spread(sb, k)) == Part(sb.nmeta) + k
  {
    if k > 0 {
      assert BPB * (Part(sb.nmeta) + k) <= BPB * Part(sb.size - 1) <= sb.size - 1;
      assert sb.nmeta < BPB * (Part(sb.nmeta) + 1);
    }
  }

  predicate Wide(sb: Super) {
    Sizes(sb) && sb.nmeta < sb.size && Part(sb.size - 1) >= Part(sb.nmeta) + 9
  }

  ghost function SpreadOwners(sb: Super): map<nat, (nat, nat)>
    requires Wide(sb)
  {
    forall k: nat | k < 10 ensures Part(Spread(sb, k)) == Part(sb.nmeta) + k {
      SpreadAt(sb, k);
    }
    map k: nat | k < 10 :: Spread(sb, k) := (2, k)
  }

  function SpreadInode(sb: Super): Inode {
    Inode(File, 1, 5120, seq<nat>(NDIRECT + 1, s requires 0 <= s < NDIRECT + 1 => if s < 10 then Spread(sb, s) else 0))
  }

  /** An empty root directory, and one file. */
  ghost function SpreadFile(sb: Super): Fs
    requires Wide(sb)
  {
    Made(sb, [BlankInode(), Inode(Dir, 1, 0, NoBlocks()), SpreadInode(sb)], Zeroed(sb), SpreadOwners(sb))
  }

  lemma SpreadSlots(sb: Super)
    requires Wide(sb)
    ensures Shape(sb, SpreadFile(sb))
    ensures forall i: nat, s: nat | i < 3 && s <= MAXFILE ::
              SlotOf(SpreadFile(sb), i, s) == if i == 2 && s < 10 then Spread(sb, s) else 0
  {
    hide BitsFrom, Spread, SpreadOwners;
  }

  lemma SpreadGood(sb: Super)
    requires Wide(sb)
    ensures Good(sb, SpreadFile(sb))
  {
    hide InUse, BitsFrom, SlotOf, Spread, SpreadOwners;
    var f := SpreadFile(sb);
    SpreadSlots(sb);
    MadeBits(sb, f.inode, f.data, f.owner);
    assert |f.inode| == 3 && f.inode[0].size == f.inode[1].size == 0 && f.inode[2].size == 5120;
    assert f.owner == SpreadOwners(sb);
    hide SpreadFile, BitsMatch;
    forall k: nat | k < 10 ensures sb.nmeta <= Spread(sb, k) < sb.size {
      SpreadAt(sb, k);
    }
    OwnersSpread(sb);
    assert SlotsOwned(sb, f);
    assert NoHoles(sb, f);
  }

  lemma OwnersSpread(sb: Super)
    requires Wide(sb)
    ensures forall k: nat | k < 10 :: Spread(sb, k) in SpreadOwners(sb) && SpreadOwners(sb)[Spread(sb, k)] == (2, k)
    ensures forall b | b in SpreadOwners(sb) ::
              SpreadOwners(sb)[b].0 == 2 && SpreadOwners(sb)[b].1 < 10 && Spread(sb, SpreadOwners(sb)[b].1) == b
  {
    forall k: nat | k < 10 ensures Part(Spread(sb, k)) == Part(sb.nmeta) + k {
      SpreadAt(sb, k);
    }
    hide Spread, Part;
  }

  lemma SpreadInv(sb: Super)
    requires Wide(sb)
    ensures FsRuns.Inv(sb, SpreadFile(sb))
  {
    SpreadGood(sb);
    var f := SpreadFile(sb);
    hide Good, BitsFrom, Spread, SpreadOwners;
    assert |Contents(sb, f, Namei.ROOTINO)| == 0;
    FsRuns.NoEntries(Contents(sb, f, Namei.ROOTINO));
    hide Contents, Directory.UniqueNames, Directory.DirMap;
  }

  lemma SpreadLog(sb: Super)
    requires Wide(sb) && sb.inodestart < sb.bmapstart
    ensures |SpreadFile(sb).inode| == 3 && |SpreadFile(sb).inode[2].addrs| == NDIRECT + 1
    ensures |TruncateLog(sb, SpreadFile(sb), 2)| == 11
  {
    hide InUse, BitsFrom, SlotOf;
    var f := SpreadFile(sb);
    SpreadSlots(sb);
    hide SpreadFile, Spread;
    var lo := Part(sb.nmeta) + sb.bmapstart;
    var log := FreeLog(sb, f, 2, MAXFILE + 1);
    forall k: nat | k < 10 ensures BBlock(sb, SlotOf(f, 2, k)) == lo + k && SlotOf(f, 2, k) != 0 {
      SpreadAt(sb, k);
    }
    assert log == Interval(lo, lo + 10) by {
      forall x | x in Interval(lo, lo + 10) ensures x in log {
        assert BBlock(sb, SlotOf(f, 2, x - lo)) == x;
      }
    }
    assert IBlock(sb, 2) !in log;
  }

  /** Truncations fit the log's share exactly when data blocks have their bits in
      at most nine bitmap blocks. */
  lemma TruncationsExactly(sb: Super)
    requires Sizes(sb) && sb.nmeta < sb.size && sb.inodestart < sb.bmapstart
    ensures TruncationsFit(sb) <==> Part(sb.size - 1) < Part(sb.nmeta) + 9
  {
    hide BitsMatch, SlotsOwned, NoHoles, Part, SpreadFile, TruncateLog, SlotOf, Directory.IsDirectory, Directory.Names;
    if Part(sb.size - 1) < Part(sb.nmeta) + 9 {
      forall f, i: nat | FsRuns.Inv(sb, f) && i < |f.inode|
        ensures |f.inode[i].addrs| == NDIRECT + 1 && |TruncateLog(sb, f, i)| <= Log.MAXOPBLOCKS
      {
        TruncateSize(sb, f, i);
      }
    } else {
      SpreadInv(sb);
      SpreadLog(sb);
      var f, i: nat := SpreadFile(sb), 2;
      assert Namei.ROOTINO < i < |f.inode|;
    }
  }

  lemma TruncateSize(sb: Super, f: Fs, i: nat)
    requires Good(sb, f) && i < |f.inode| && sb.nmeta < sb.size && Part(sb.size - 1) < Part(sb.nmeta) + 9
    ensures |TruncateLog(sb, f, i)| <= Log.MAXOPBLOCKS
  {
    FreeLogWithin(sb, f, i);
    hide Good, FreeLog, Part, IBlock;
    var log := FreeLog(sb, f, i, MAXFILE + 1);
    SubsetSize(log, Interval(Part(sb.nmeta) + sb.bmapstart, Part(sb.size - 1) + sb.bmapstart + 1));
    UnionSize(log, {IBlock(sb, i)});
  }
}
