/** Two nearly full disks on which a chunk of `filewrite` costs the most: one
    where it logs all ten blocks it is allowed, and one with a hole in the file,
    where it logs eleven. Each bitmap block has one free block left, its last. */
module WorstWrite {
  import opened Disk
  import opened Bitmap
  import opened FileSystem
  import opened FileWrite
  import opened Mkfs
  import Directory
  import FsRuns
  import Namei
  import Log

  const RUN: nat := 342      // inodes whose blocks one bitmap block covers
  const START: nat := 5633   // the second byte of block 11
  const FILE: nat := 2       // the inode of the file written; 0 is free, 1 the root

  /** The number of bitmap blocks with data. */
  function Groups(hole: bool): nat {
    if hole then 5 else 4
  }

  function Layout(hole: bool): Super {
    Super(if hole then 24576 else 20480, 4096, 400, 100)
  }

  /** The slot of the file written that takes the free block of group `k`. */
  function Gift(hole: bool, k: nat): nat {
    if hole then
      if k == 1 then 11 else if k == 2 then MAXFILE else if k == 3 then 12 else if k == 4 then 13 else 14
    else
      if k == 1 then MAXFILE else if k == 2 then 12 else if k == 3 then 13 else 14
  }

  /** The slot that block `b` belongs to. Files take their blocks in order, twelve
      each and the last of a group three; the hole's block is a file of its own. */
  function Owner(hole: bool, b: nat): (nat, nat)
    requires b >= 4096
  {
    if b % 4096 == 4095 then (FILE, Gift(hole, b / 4096))
    else if hole && b == 4107 then (FILE + RUN * 5, 0)
    else (FILE + (RUN * (b / 4096 - 1) + b % 4096 / 12), b % 4096 % 12)
  }

  ghost function Owners(hole: bool, filled: bool): map<nat, (nat, nat)> {
    map b: nat | 4096 <= b < Layout(hole).size && (filled || b % 4096 != 4095) :: Owner(hole, b)
  }

  /** The block in slot `s` of inode `i`. */
  function At(hole: bool, filled: bool, i: nat, s: nat): nat {
    if i < FILE then 0 else FileAt(hole, filled, i - FILE, s)
  }

  function FileAt(hole: bool, filled: bool, i: nat, s: nat): nat {
    if i == 0 then
      if s < 11 then 4096 + s
      else if s == 11 then if !hole then 4107 else if filled then 8191 else 0
      else if !filled then 0
      else if s == MAXFILE then if hole then 12287 else 8191
      else if s == 12 then if hole then 16383 else 12287
      else if s == 13 then if hole then 20479 else 16383
      else if s == 14 then if hole then 24575 else 20479
      else 0
    else if i == RUN * Groups(hole) then if hole && s == 0 then 4107 else 0
    else if s < 12 && 12 * (i % RUN) + s < 4095 then 4096 * (i / RUN + 1) + 12 * (i % RUN) + s
    else 0
  }

  function Size(hole: bool, filled: bool, i: nat): nat {
    if i == 0 then if filled then START + CHUNK else 6144
    else if i == RUN * Groups(hole) then if hole then 512 else 0
    else if i % RUN == 341 then 1536 else 6144
  }

  function Node(hole: bool, filled: bool, i: nat): Inode {
    if i == 0 then BlankInode()
    else if i == Namei.ROOTINO then Inode(Dir, 1, 0, NoBlocks())
    else Inode(File, 1, Size(hole, filled, i - FILE),
               seq<nat>(13, s requires 0 <= s < 13 => At(hole, filled, i, if s < 12 then s else MAXFILE)))
  }

  function Inodes(hole: bool): nat {
    FILE + RUN * Groups(hole) + 1
  }

  function Nodes(hole: bool, filled: bool): (r: seq<Inode>)
    ensures |r| == Inodes(hole)
  {
    seq(Inodes(hole), i requires 0 <= i < Inodes(hole) => Node(hole, filled, i))
  }

  /** The indirect block of the file once it has its three entries. */
  function MapBlock(hole: bool): Block {
    var first := SetWord(ZeroBlock(), 0, At(hole, true, FILE, 12));
    SetWord(SetWord(first, 1, At(hole, true, FILE, 13)), 2, At(hole, true, FILE, 14))
  }

  function Blocks(hole: bool, filled: bool): (r: seq<Block>)
    ensures |r| == Layout(hole).size
  {
    if filled then Zeroed(Layout(hole))[At(hole, true, FILE, MAXFILE) := MapBlock(hole)] else Zeroed(Layout(hole))
  }

  /** The disk before the write, and after it (`filled`). */
  ghost function State(hole: bool, filled: bool): (f: Fs)
    ensures |f.inode| == Inodes(hole)
  {
    Made(Layout(hole), Nodes(hole, filled), Blocks(hole, filled), Owners(hole, filled))
  }

  lemma MapBlockWords(hole: bool, k: nat)
    requires k < WORDS
    ensures GetWord(MapBlock(hole), k) == if k < 3 then At(hole, true, FILE, 12 + k) else 0
  {
    var b1 := SetWord(ZeroBlock(), 0, At(hole, true, FILE, 12));
    var b2 := SetWord(b1, 1, At(hole, true, FILE, 13));
    WordRoundTrip(ZeroBlock(), 0, At(hole, true, FILE, 12));
    WordRoundTrip(b1, 1, At(hole, true, FILE, 13));
    WordRoundTrip(b2, 2, At(hole, true, FILE, 14));
    ZeroWords(k);
  }

  /** The slots are as laid out. */
  lemma Slots(hole: bool, filled: bool, i: nat, s: nat)
    requires i < Inodes(hole) && s <= MAXFILE
    ensures var f := State(hole, filled);
      |f.inode[i].addrs| == NDIRECT + 1 && SlotOf(f, i, s) == At(hole, filled, i, s)
  {
    hide BitsFrom, GetWord, SetWord, MapBlock;
    var f := State(hole, filled);
    assert f.inode[i] == Node(hole, filled, i);
    if NDIRECT <= s < MAXFILE {
      assert f.inode[i].addrs[NDIRECT] == At(hole, filled, i, MAXFILE);
      if i == FILE && filled {
        MapBlockWords(hole, s - NDIRECT);
        assert f.data[At(hole, true, FILE, MAXFILE)] == MapBlock(hole);
      }
    }
  }

  lemma OwnedOnce(hole: bool, filled: bool, i: nat, s: nat)
    requires i < Inodes(hole) && s <= MAXFILE && At(hole, filled, i, s) != 0
    ensures var b := At(hole, filled, i, s);
      b in Owners(hole, filled) && Owners(hole, filled)[b] == (i, s)
  {
    var j := i - FILE;
    if 0 < j < RUN * Groups(hole) {
      var g, m := j / RUN, j % RUN;
      assert RUN * g + m == j && g < Groups(hole);
      BlockInGroup(g, m, s);
      assert At(hole, filled, i, s) == 4096 * (g + 1) + 12 * m + s;
      assert 4096 * (g + 1) + 12 * m + s < 4096 * (g + 2) <= Layout(hole).size;
      assert Owner(hole, 4096 * (g + 1) + 12 * m + s) == (i, s);
    } else if j == 0 {
      assert At(hole, filled, i, s) < Layout(hole).size;
      assert Owner(hole, At(hole, filled, i, s)) == (i, s);
    } else {
      assert At(hole, filled, i, s) == 4107;
    }
  }

  lemma BlockInGroup(g: nat, m: nat, s: nat)
    requires s < 12 && 12 * m + s < 4095
    ensures var b := 4096 * (g + 1) + 12 * m + s;
      b / 4096 == g + 1 && b % 4096 == 12 * m + s && b % 4096 / 12 == m && b % 4096 % 12 == s
  {
  }

  lemma OwnersHold(hole: bool, filled: bool, b: nat)
    requires b in Owners(hole, filled)
    ensures var o := Owners(hole, filled)[b];
      o.0 < Inodes(hole) && o.1 <= MAXFILE && At(hole, filled, o.0, o.1) == b
  {
    var q, r := b / 4096, b % 4096;
    assert b == 4096 * q + r && 1 <= q <= Groups(hole);
    if r != 4095 && !(hole && b == 4107) {
      PlaceInGroup(q - 1, r);
      OwnerHolds(hole, filled, q, r);
    }
  }

  lemma PlaceInGroup(g: nat, r: nat)
    requires r < 4095
    ensures var i := RUN * g + r / 12; i / RUN == g && i % RUN == r / 12
  {
  }

  lemma OwnerHolds(hole: bool, filled: bool, q: nat, r: nat)
    requires 1 <= q <= Groups(hole) && r < 4095 && !(hole && q == 1 && r == 11)
    requires var i := RUN * (q - 1) + r / 12; i / RUN == q - 1 && i % RUN == r / 12
    ensures var i := RUN * (q - 1) + r / 12;
      i < RUN * Groups(hole) && At(hole, filled, FILE + i, r % 12) == 4096 * q + r
  {
    assert 12 * (r / 12) + r % 12 == r;
  }

  /** Both disks are consistent. */
  lemma StateMatches(hole: bool, filled: bool)
    ensures Shape(Layout(hole), State(hole, filled))
    ensures BitsMatch(Layout(hole), State(hole, filled)) && SlotsOwned(Layout(hole), State(hole, filled))
  {
    var sb, f := Layout(hole), State(hole, filled);
    StateShape(hole, filled);
    MadeBits(sb, f.inode, f.data, f.owner);
    hide BitsFrom, MapBlock, SlotOf, At, Owners, InUse;
    forall i: nat, s: nat | i < |f.inode| && s <= MAXFILE
      ensures SlotOf(f, i, s) == At(hole, filled, i, s)
    {
      Slots(hole, filled, i, s);
    }
    forall i: nat, s: nat | i < |f.inode| && s <= MAXFILE && SlotOf(f, i, s) != 0
      ensures SlotOf(f, i, s) in f.owner && f.owner[SlotOf(f, i, s)] == (i, s)
    {
      OwnedOnce(hole, filled, i, s);
    }
    forall b | b in f.owner
      ensures sb.nmeta <= b < sb.size && f.owner[b].0 < |f.inode| && f.owner[b].1 <= MAXFILE
           && SlotOf(f, f.owner[b].0, f.owner[b].1) == b
    {
      OwnersHold(hole, filled, b);
    }
  }

  lemma StateShape(hole: bool, filled: bool)
    ensures Shape(Layout(hole), State(hole, filled))
  {
    hide BitsFrom, MapBlock, At, Owners;
  }

  /** Only the one file, before the write, has a hole. */
  lemma StateHoles(hole: bool, filled: bool)
    ensures Shape(Layout(hole), State(hole, filled))
    ensures NoHoles(Layout(hole), State(hole, filled)) <==> !hole || filled
  {
    var sb, f := Layout(hole), State(hole, filled);
    StateShape(hole, filled);
    hide BitsFrom, MapBlock, SlotOf, Owners;
    forall i: nat, s: nat | i < |f.inode| && s <= MAXFILE
      ensures SlotOf(f, i, s) == At(hole, filled, i, s)
    {
      Slots(hole, filled, i, s);
    }
    if hole && !filled {
      assert f.inode[FILE].size == 6144 && SlotOf(f, FILE, 11) == 0;
    } else {
      forall i: nat, bn: nat | i < |f.inode| && bn * BSIZE < f.inode[i].size ensures SlotOf(f, i, bn) != 0 {
        assert f.inode[i] == Node(hole, filled, i);
      }
    }
  }

  // ---- The write ----

  /** The new slots of a write of 1536 bytes from byte 5633 of the file. */
  function News(hole: bool): set<nat> {
    {12, 13, 14, MAXFILE} + if hole then {11} else {}
  }

  /** What is left for such a write to do. */
  ghost predicate TakesRest(hole: bool, e: Fs) {
    var sb, f := Layout(hole), State(hole, false);
    && Shape(sb, e) && SlotsOwned(sb, e) && Shape(sb, f) && |e.inode| == |f.inode|
    && (forall j: nat | j < |f.inode| && j != FILE :: e.inode[j] == f.inode[j])
    && (forall s: nat | s <= MAXFILE && SlotOf(f, FILE, s) != 0 :: SlotOf(e, FILE, s) == SlotOf(f, FILE, s))
    && NewSlots(f, e, FILE) == News(hole)
  }

  /** Blocks in use before belong to the same slots after. */
  lemma OldBlock(hole: bool, e: Fs, b: nat)
    requires TakesRest(hole, e) && b in Owners(hole, false)
    ensures b in e.owner && e.owner[b] == Owners(hole, false)[b]
    ensures var o := e.owner[b]; o.0 < |State(hole, false).inode| && SlotOf(State(hole, false), o.0, o.1) == b
  {
    hide BitsFrom, SlotOf, At, Owners;
    var f := State(hole, false);
    StateMatches(hole, false);
    var j, t := f.owner[b].0, f.owner[b].1;
    if j != FILE {
      Slots(hole, false, j, t);
      DirectOnly(hole, j, t);
      SameDirect(f, e, j, t);
    }
  }

  lemma NewBlock(hole: bool, e: Fs, s: nat)
    requires TakesRest(hole, e) && s in News(hole)
    ensures SlotOf(e, FILE, s) in e.owner && e.owner[SlotOf(e, FILE, s)] == (FILE, s)
    ensures 4096 <= SlotOf(e, FILE, s) < Layout(hole).size && SlotOf(e, FILE, s) % 4096 == 4095
  {
    hide BitsFrom, SlotOf, At, Owners;
    var b := SlotOf(e, FILE, s);
    assert s in NewSlots(State(hole, false), e, FILE);
    if b in Owners(hole, false) {
      OldBlock(hole, e, b);
    }
    TakenUnless(hole, b);
  }

  lemma SameDirect(f: Fs, e: Fs, j: nat, t: nat)
    requires j < |f.inode| && |f.inode[j].addrs| == NDIRECT + 1 && t < NDIRECT
    requires j < |e.inode| && e.inode[j] == f.inode[j]
    ensures SlotOf(e, j, t) == SlotOf(f, j, t)
  {
  }

  lemma DirectOnly(hole: bool, j: nat, t: nat)
    requires j != FILE && At(hole, false, j, t) != 0
    ensures t < 12
  {
  }

  lemma TakenUnless(hole: bool, b: nat)
    requires 4096 <= b < Layout(hole).size && b !in Owners(hole, false)
    ensures b % 4096 == 4095
  {
  }

  /** The new blocks lie in as many bitmap blocks. */
  lemma RestScattered(hole: bool, e: Fs)
    requires TakesRest(hole, e)
    requires forall s: nat | 11 <= s < 15 :: SlotOf(e, FILE, s) != 0
    ensures Scattered(Layout(hole), e, FILE, News(hole), 11, 15)
  {
    hide BitsFrom, SlotOf, At, Owners, State, SlotsOwned;
    var sb := Layout(hole);
    forall s | s in News(hole) ensures InPlace(sb, e, s) && SlotOf(e, FILE, s) % 4096 == 4095 {
      NewBlock(hole, e, s);
    }
    forall s: nat | 11 <= s < 15 ensures InPlace(sb, e, s) {
      Owned(sb, e, s);
    }
    hide TakesRest, Scattered, InPlace;
    LastBlocksScattered(sb, e, News(hole));
  }

  ghost predicate InPlace(sb: Super, e: Fs, s: nat)
    requires FILE < |e.inode| && |e.inode[FILE].addrs| == NDIRECT + 1
  {
    var b := SlotOf(e, FILE, s);
    b in e.owner && e.owner[b] == (FILE, s) && sb.nmeta <= b < sb.size
  }

  lemma LastBlocksScattered(sb: Super, e: Fs, news: set<nat>)
    requires FILE < |e.inode| && |e.inode[FILE].addrs| == NDIRECT + 1
    requires sb.nmeta == 4096 && sb.size < 100 * 4096 && sb.bmapstart == 400 && sb.inodestart == 100
    requires MAXFILE in news && forall s | s in news :: InPlace(sb, e, s) && SlotOf(e, FILE, s) % 4096 == 4095
    requires forall s: nat | 11 <= s < 15 :: InPlace(sb, e, s)
    ensures Scattered(sb, e, FILE, news, 11, 15)
  {
    hide SlotOf;
    forall s: nat | 11 <= s < 15 || s == MAXFILE
      ensures var b := SlotOf(e, FILE, s); b in e.owner && e.owner[b] == (FILE, s) && b >= 4096
    {
      assert InPlace(sb, e, s);
    }
    forall s | s in news ensures 400 <= BBlock(sb, SlotOf(e, FILE, s)) < 500 {
      assert InPlace(sb, e, s);
    }
    forall s, t | s in news && t in news && s != t
      ensures BBlock(sb, SlotOf(e, FILE, s)) != BBlock(sb, SlotOf(e, FILE, t))
    {
      LastOfDifferent(SlotOf(e, FILE, s), SlotOf(e, FILE, t));
    }
  }

  lemma LastOfDifferent(b: nat, c: nat)
    requires b != c && b % 4096 == c % 4096
    ensures b / 4096 != c / 4096
  {
  }

  lemma Owned(sb: Super, e: Fs, s: nat)
    requires Shape(sb, e) && SlotsOwned(sb, e) && FILE < |e.inode| && s <= MAXFILE && SlotOf(e, FILE, s) != 0
    ensures var b := SlotOf(e, FILE, s); b in e.owner && e.owner[b] == (FILE, s) && sb.nmeta <= b < sb.size
  {
  }

  /** So a write that is left that to do logs ten blocks, and eleven with a hole. */
  lemma RestLogged(hole: bool, e: Fs)
    requires TakesRest(hole, e)
    requires forall s: nat | 11 <= s < 15 :: SlotOf(e, FILE, s) != 0
    ensures |Footprint(Layout(hole), State(hole, false), e, FILE, START, CHUNK)|
         == Log.MAXOPBLOCKS + if hole then 1 else 0
  {
    RestScattered(hole, e);
    hide BitsFrom, SlotOf, At, Owners, SlotsOwned, Scattered, Footprint, NewSlots;
    if hole {
      HolesBreakTheBudget(Layout(hole), State(hole, false), e, FILE, START, News(hole));
    } else {
      BudgetTight(Layout(hole), State(hole, false), e, FILE, START, News(hole));
    }
  }

  function Chunk(): seq<Byte> {
    seq(CHUNK, _ => 0)
  }

  /** The disk after the write, with what it logged. */
  ghost function Done(hole: bool): Fs {
    State(hole, true).(logged := Footprint(Layout(hole), State(hole, false), State(hole, true), FILE, START, CHUNK))
  }

  lemma DoneSound(hole: bool)
    ensures Sound(Layout(hole), State(hole, false)) && Sound(Layout(hole), Done(hole))
  {
    StateMatches(hole, false);
    StateMatches(hole, true);
    hide State, InUse, Slot, Footprint;
    var f, e := State(hole, true), Done(hole);
    assert forall i: nat, s: nat | i < |f.inode| && s <= MAXFILE :: SlotOf(e, i, s) == SlotOf(f, i, s);
  }

  /** The slots of the disk after, beside those of the disk before. */
  lemma DoneSlots(hole: bool, i: nat, s: nat)
    requires i < Inodes(hole) && s <= MAXFILE
    ensures var f, e := State(hole, false), Done(hole);
      && i < |f.inode| == |e.inode| && |f.inode[i].addrs| == |e.inode[i].addrs| == NDIRECT + 1
      && SlotOf(f, i, s) == At(hole, false, i, s) && SlotOf(e, i, s) == At(hole, true, i, s)
      && (i != FILE ==> e.inode[i] == f.inode[i])
  {
    Slots(hole, false, i, s);
    Slots(hole, true, i, s);
    hide At, Owners, BitsFrom, Footprint, MapBlock;
    if i != FILE {
      SameElsewhere(hole, i);
    }
  }

  lemma SameElsewhere(hole: bool, i: nat)
    requires i < Inodes(hole) && i != FILE
    ensures Node(hole, false, i) == Node(hole, true, i)
  {
    assert forall s: nat :: At(hole, false, i, s) == At(hole, true, i, s);
  }

  /** The write takes place. */
  lemma WriteHappens(hole: bool)
    ensures Writes(Layout(hole), State(hole, false), Done(hole), FILE, START, Chunk())
  {
    DoneMap(hole);
    DoneBlocks(hole);
    DoneLogs(hole);
    hide State, Done, MapAfter, BlocksAfter, LogAfter;
  }

  lemma DoneMap(hole: bool)
    ensures MapAfter(Layout(hole), State(hole, false), Done(hole), FILE, START, CHUNK)
  {
    DoneSound(hole);
    DoneOthers(hole);
    DoneGrows(hole);
    DoneKeeps(hole);
    hide State, Done, SlotOf, Sound, OthersKept, Layout;
  }

  lemma DoneGrows(hole: bool)
    ensures FILE < |State(hole, false).inode| == |Done(hole).inode|
    ensures var a, b := State(hole, false).inode[FILE], Done(hole).inode[FILE];
      START <= a.size && b == a.(size := NewSize(a.size, START, CHUNK), addrs := b.addrs)
  {
    assert State(hole, false).inode[FILE] == Node(hole, false, FILE);
    assert Done(hole).inode[FILE] == Node(hole, true, FILE);
    hide State, Done, At;
  }

  /** What was in a slot of the file is there still. */
  lemma DoneKeeps(hole: bool)
    ensures HasMap(State(hole, false), FILE) && HasMap(Done(hole), FILE)
    ensures forall s: nat | s <= MAXFILE && SlotOf(State(hole, false), FILE, s) != 0 ::
              SlotOf(Done(hole), FILE, s) == SlotOf(State(hole, false), FILE, s)
  {
    DoneSlots(hole, FILE, 0);
    hide State, Done, SlotOf, At;
    forall s: nat | s <= MAXFILE && SlotOf(State(hole, false), FILE, s) != 0
      ensures SlotOf(Done(hole), FILE, s) == SlotOf(State(hole, false), FILE, s)
    {
      DoneSlots(hole, FILE, s);
      SlotKept(hole, s);
    }
  }

  lemma SlotKept(hole: bool, s: nat)
    requires At(hole, false, FILE, s) != 0
    ensures At(hole, true, FILE, s) == At(hole, false, FILE, s)
  {
  }

  lemma DoneOthers(hole: bool)
    ensures Sound(Layout(hole), State(hole, false)) && Sound(Layout(hole), Done(hole))
    ensures OthersKept(Layout(hole), State(hole, false), Done(hole), FILE)
  {
    var f, e := State(hole, false), Done(hole);
    DoneSound(hole);
    hide BitsFrom, Footprint, MapBlock, SlotOf, Owner, Sound, NoHoles, At;
    forall j: nat, s: nat | j < |f.inode| && j != FILE && s <= MAXFILE
      ensures e.inode[j] == f.inode[j] && SlotOf(e, j, s) == SlotOf(f, j, s)
    {
      DoneSlots(hole, j, s);
      SameSlotElsewhere(hole, j, s);
    }
    forall j: nat | j < |f.inode| && j != FILE ensures e.inode[j] == f.inode[j] {
      DoneSlots(hole, j, 0);
    }
    MapBlockIsNew(hole);
  }

  lemma SameSlotElsewhere(hole: bool, i: nat, s: nat)
    requires i != FILE
    ensures At(hole, true, i, s) == At(hole, false, i, s)
  {
  }

  lemma MapBlockIsNew(hole: bool)
    ensures At(hole, true, FILE, MAXFILE) !in Owners(hole, false)
  {
  }

  lemma DoneBlocks(hole: bool)
    ensures HasMap(State(hole, false), FILE) && HasMap(Done(hole), FILE)
    ensures BlocksAfter(State(hole, false), Done(hole), FILE, START, Chunk())
  {
    var f, e := State(hole, false), Done(hole);
    DoneNews(hole);
    DoneBytes(hole);
    hide State, Done, At, SlotOf, NewSlots, Written;
    assert START / BSIZE == 11 && EndBlock(START, CHUNK) == 15;
  }

  lemma DoneNews(hole: bool)
    ensures HasMap(State(hole, false), FILE) && HasMap(Done(hole), FILE)
    ensures NewSlots(State(hole, false), Done(hole), FILE) == News(hole)
    ensures forall s: nat | 11 <= s < 15 :: SlotOf(Done(hole), FILE, s) != 0
  {
    hide State, Done, SlotOf, NewSlots, News, At;
    forall s: nat | s <= MAXFILE
      ensures HasMap(State(hole, false), FILE) && SlotOf(State(hole, false), FILE, s) == At(hole, false, FILE, s)
      ensures HasMap(Done(hole), FILE) && SlotOf(Done(hole), FILE, s) == At(hole, true, FILE, s)
    {
      DoneSlots(hole, FILE, s);
    }
    DoneSlots(hole, FILE, 0);
    FromSlots(hole, State(hole, false), Done(hole));
  }

  lemma FromSlots(hole: bool, f: Fs, e: Fs)
    requires HasMap(f, FILE) && HasMap(e, FILE)
    requires forall s: nat | s <= MAXFILE ::
               SlotOf(f, FILE, s) == At(hole, false, FILE, s) && SlotOf(e, FILE, s) == At(hole, true, FILE, s)
    ensures NewSlots(f, e, FILE) == News(hole) && forall s: nat | 11 <= s < 15 :: SlotOf(e, FILE, s) != 0
  {
    hide SlotOf;
  }

  /** The blocks of the file's bytes. */
  lemma FileBlocks(hole: bool, s: nat)
    requires s < MAXFILE
    ensures var a, b := At(hole, false, FILE, s), At(hole, true, FILE, s);
      && a < Layout(hole).size && b < Layout(hole).size && b != At(hole, true, FILE, MAXFILE)
      && (a != 0 ==> b == a) && (11 <= s < 15 ==> b != 0)
  {
  }

  lemma DoneBytes(hole: bool)
    ensures HasMap(State(hole, false), FILE) && HasMap(Done(hole), FILE)
    ensures Written(State(hole, false), Done(hole), FILE, START, Chunk(), CHUNK)
  {
    var f, e := State(hole, false), Done(hole);
    DoneSlots(hole, FILE, 0);
    assert f.data == Zeroed(Layout(hole));
    assert e.data == Zeroed(Layout(hole))[At(hole, true, FILE, MAXFILE) := MapBlock(hole)];
    hide State, Done, Layout, At, MapBlock, SlotOf;
    forall s: nat | s < MAXFILE ensures ZeroAt(f, e, s) {
      FileBlocks(hole, s);
      DoneSlots(hole, FILE, s);
    }
    hide ZeroAt;
    ZeroBytes(f, e);
  }

  /** Block `s` of the file holds zeros, before and after. */
  ghost predicate ZeroAt(f: Fs, e: Fs, s: nat)
    requires HasMap(f, FILE) && HasMap(e, FILE)
  {
    var a, b := SlotOf(f, FILE, s), SlotOf(e, FILE, s);
    && a < |f.data| && b < |e.data| && (a != 0 ==> b == a) && (11 <= s < 15 ==> b != 0)
    && f.data[a] == ZeroBlock() && e.data[b] == ZeroBlock()
  }

  lemma ZeroBytes(f: Fs, e: Fs)
    requires HasMap(f, FILE) && HasMap(e, FILE) && forall s: nat | s < MAXFILE :: ZeroAt(f, e, s)
    ensures Written(f, e, FILE, START, Chunk(), CHUNK)
  {
    hide SlotOf;
    forall k: nat | k < MAXBYTES
      ensures var a, b := SlotOf(f, FILE, k / BSIZE), SlotOf(e, FILE, k / BSIZE);
        && a < |f.data| && b < |e.data| && (a != 0 ==> b == a) && (START <= k < START + CHUNK ==> b != 0)
        && f.data[a][k % BSIZE] == 0 && e.data[b][k % BSIZE] == 0
    {
      assert ZeroAt(f, e, k / BSIZE);
    }
  }

  // ---- What the write logs ----

  /** What the write passes to log_write. */
  ghost function Logged(hole: bool): set<nat> {
    DoneSlots(hole, FILE, 0);
    Footprint(Layout(hole), State(hole, false), Done(hole), FILE, START, CHUNK)
  }

  lemma LoggedBlocks(hole: bool)
    ensures IBlock(Layout(hole), FILE) in Logged(hole) && At(hole, true, FILE, MAXFILE) in Logged(hole)
    ensures forall s | s in News(hole) :: BBlock(Layout(hole), At(hole, true, FILE, s)) in Logged(hole)
  {
    var sb, f, e := Layout(hole), State(hole, false), Done(hole);
    DoneNews(hole);
    assert f.inode[FILE] == Node(hole, false, FILE);
    hide State, Done, At, SlotOf, NewSlots, BBlock;
    forall s | s in News(hole)
      ensures SlotOf(e, FILE, s) == At(hole, true, FILE, s) && s in NewSlots(f, e, FILE)
    {
      DoneSlots(hole, FILE, s);
    }
    assert BBlock(sb, SlotOf(e, FILE, MAXFILE)) in AllocLog(sb, f, e, FILE);
  }

  lemma DoneLogs(hole: bool)
    ensures HasMap(State(hole, false), FILE) && HasMap(Done(hole), FILE)
    ensures LogAfter(Layout(hole), State(hole, false), Done(hole), FILE, START, CHUNK)
  {
    LoggedBlocks(hole);
    DoneBits(hole);
    DoneInodes(hole);
    DoneData(hole);
    DoneLogged(hole);
    LoggedIs(hole);
    hide State, Done, At, Footprint, IBlock, BitmapChanges, Logged, Shape;
    OnlyThese(Layout(hole), State(hole, false), Done(hole), At(hole, true, FILE, MAXFILE), Logged(hole));
  }

  lemma DoneData(hole: bool)
    ensures var f, e, m := State(hole, false), Done(hole), At(hole, true, FILE, MAXFILE);
      && Layout(hole).nmeta <= m && |e.data| == |f.data| && f.dinode == f.inode && e.dinode == e.inode
      && forall b: nat | b < |f.data| && b != m :: e.data[b] == f.data[b]
  {
    hide BitsFrom, Owners, Nodes, Footprint, MapBlock;
  }

  lemma OnlyThese(sb: Super, f: Fs, e: Fs, m: nat, l: set<nat>)
    requires |e.data| == |f.data| && f.dinode == f.inode && e.dinode == e.inode && |e.inode| == |f.inode|
    requires forall b: nat | b < |f.data| && b != m :: e.data[b] == f.data[b]
    requires forall i: nat | i < |e.inode| && i != FILE :: e.inode[i] == f.inode[i]
    requires m in l && sb.nmeta <= m && IBlock(sb, FILE) in l && BitmapChanges(sb, f.bitmap, e.bitmap, l)
    ensures ChangesOnly(sb, f, e, l)
  {
  }

  lemma LoggedIs(hole: bool)
    ensures HasMap(State(hole, false), FILE) && HasMap(Done(hole), FILE)
    ensures Logged(hole) == Footprint(Layout(hole), State(hole, false), Done(hole), FILE, START, CHUNK)
  {
    DoneSlots(hole, FILE, 0);
  }

  lemma DoneInodes(hole: bool)
    ensures |Done(hole).inode| == |State(hole, false).inode|
    ensures forall i: nat | i < |Done(hole).inode| && i != FILE :: Done(hole).inode[i] == State(hole, false).inode[i]
  {
    forall i: nat | i < |Done(hole).inode| && i != FILE ensures Done(hole).inode[i] == State(hole, false).inode[i] {
      DoneSlots(hole, i, 0);
    }
  }

  /** Each bitmap block with a new bit has the bit of a new slot. */
  lemma GiftTaken(hole: bool, q: nat)
    requires 1 <= q <= Groups(hole)
    ensures Gift(hole, q) in News(hole) && At(hole, true, FILE, Gift(hole, q)) == 4096 * q + 4095
    ensures BBlock(Layout(hole), At(hole, true, FILE, Gift(hole, q))) == Layout(hole).bmapstart + q
  {
  }

  lemma NewBits(hole: bool, b: nat)
    requires b in Owners(hole, true) && b !in Owners(hole, false)
    ensures 1 <= b / 4096 <= Groups(hole)
  {
  }

  lemma DoneBits(hole: bool)
    ensures BitmapChanges(Layout(hole), State(hole, false).bitmap, Done(hole).bitmap, Logged(hole))
  {
    var sb, f, e := Layout(hole), State(hole, false), Done(hole);
    var e' := State(hole, true);
    assert e.bitmap == e'.bitmap && |f.bitmap| == |e'.bitmap|;
    assert f.owner == Owners(hole, false) && e'.owner == Owners(hole, true);
    assert f == Made(sb, f.inode, f.data, f.owner) && e' == Made(sb, e'.inode, e'.data, e'.owner);
    hide State, Done, Owners, Logged, Made, Layout;
    forall k: nat | k < |f.bitmap| && sb.bmapstart + k / BSIZE !in Logged(hole) ensures e.bitmap[k] == f.bitmap[k] {
      forall b: nat | b / 8 == k ensures b in f.owner <==> b in e'.owner {
        SameOwned(hole, k, b);
      }
      MadeByte(sb, f, e', k);
    }
  }

  lemma SameOwned(hole: bool, k: nat, b: nat)
    requires Layout(hole).bmapstart + k / BSIZE !in Logged(hole) && b / 8 == k
    ensures b in Owners(hole, false) <==> b in Owners(hole, true)
  {
    LoggedBlocks(hole);
    OwnersGrow(hole, b);
    hide At, Owners, Logged;
    GroupOfByte(k, b);
    if b in Owners(hole, true) && b !in Owners(hole, false) {
      NewBits(hole, b);
      GiftTaken(hole, b / 4096);
    }
  }

  lemma GroupOfByte(k: nat, b: nat)
    requires b / 8 == k
    ensures b / 4096 == k / 512
  {
  }

  lemma OwnersGrow(hole: bool, b: nat)
    ensures b in Owners(hole, false) ==> b in Owners(hole, true)
  {
  }

  lemma DoneLogged(hole: bool)
    ensures Shape(Layout(hole), State(hole, false)) && Shape(Layout(hole), Done(hole))
    ensures State(hole, false).logged == {}
    ensures Done(hole).logged == Footprint(Layout(hole), State(hole, false), Done(hole), FILE, START, CHUNK)
  {
    StateShape(hole, false);
    StateShape(hole, true);
    assert State(hole, false).logged == {};
    hide State, Footprint;
    LogIsNotRead(Layout(hole), State(hole, false), State(hole, true), Done(hole), FILE, START, CHUNK);
  }

  lemma LogIsNotRead(sb: Super, f: Fs, g: Fs, e: Fs, i: nat, off: nat, n: nat)
    requires Shape(sb, f) && Shape(sb, g) && i < |f.inode| == |g.inode| && e == g.(logged := e.logged)
    ensures Shape(sb, e) && Footprint(sb, f, e, i, off, n) == Footprint(sb, f, g, i, off, n)
  {
    assert forall s: nat :: SlotOf(e, i, s) == SlotOf(g, i, s);
    hide SlotOf, BBlock, EndBlock;
    var u := NewSlots(f, g, i);
    assert NewSlots(f, e, i) == u;
    assert (set s | s in u :: SlotOf(e, i, s)) == (set s | s in u :: SlotOf(g, i, s));
    assert (set s | s in u :: BBlock(sb, SlotOf(e, i, s))) == (set s | s in u :: BBlock(sb, SlotOf(g, i, s)));
    assert DataBlocks(e, i, off / BSIZE, EndBlock(off, n)) == DataBlocks(g, i, off / BSIZE, EndBlock(off, n));
  }

  /** Any outcome of such a write has taken the four or five free blocks. */
  lemma MustTakeRest(hole: bool, e: Fs, src: seq<Byte>)
    requires Shape(Layout(hole), State(hole, false)) && |src| == CHUNK
    requires Shape(Layout(hole), e) && SlotsOwned(Layout(hole), e) && |e.inode| == |State(hole, false).inode|
    requires forall j: nat | j < |e.inode| && j != FILE :: e.inode[j] == State(hole, false).inode[j]
    requires forall s: nat | s <= MAXFILE && SlotOf(State(hole, false), FILE, s) != 0 ::
               SlotOf(e, FILE, s) == SlotOf(State(hole, false), FILE, s)
    requires forall s | s in NewSlots(State(hole, false), e, FILE) :: s == MAXFILE || 11 <= s < 15
    requires forall s: nat | 11 <= s < 15 :: SlotOf(e, FILE, s) != 0
    ensures TakesRest(hole, e)
  {
    var f := State(hole, false);
    BeforeSlots(hole);
    EntriesNeedMap(e);
    hide State, SlotOf, SlotsOwned, Shape;
    assert NewSlots(f, e, FILE) == News(hole);
  }

  lemma BeforeSlots(hole: bool)
    ensures |State(hole, false).inode[FILE].addrs| == NDIRECT + 1
    ensures forall s: nat | s <= MAXFILE :: SlotOf(State(hole, false), FILE, s) != 0 <==> s < 11 || (s == 11 && !hole)
  {
    hide SlotOf;
    forall s: nat | s <= MAXFILE
      ensures |State(hole, false).inode[FILE].addrs| == NDIRECT + 1
      ensures SlotOf(State(hole, false), FILE, s) == At(hole, false, FILE, s)
    {
      Slots(hole, false, FILE, s);
    }
    Slots(hole, false, FILE, 0);
    hide State;
  }

  lemma EntriesNeedMap(e: Fs)
    requires FILE < |e.inode| && |e.inode[FILE].addrs| == NDIRECT + 1 && SlotOf(e, FILE, 12) != 0
    ensures SlotOf(e, FILE, MAXFILE) != 0
  {
  }

  // ---- The tree of the disk without holes ----

  lemma BeforeGood(hole: bool)
    ensures Sound(Layout(hole), State(hole, false)) && (NoHoles(Layout(hole), State(hole, false)) <==> !hole)
    ensures FILE < |State(hole, false).inode| && State(hole, false).inode[FILE].kind.File?
    ensures START <= State(hole, false).inode[FILE].size
  {
    StateMatches(hole, false);
    StateHoles(hole, false);
    assert State(hole, false).inode[FILE] == Node(hole, false, FILE);
    hide State, SlotOf, BitsMatch, SlotsOwned, At;
  }

  lemma EmptyDirectory(sb: Super, f: Fs, i: nat)
    requires Good(sb, f) && i < |f.inode| && f.inode[i].kind.Dir? && f.inode[i].size == 0
    ensures Directory.IsDirectory(sb, f, i) && Directory.Names(sb, f, i) == map[]
  {
    assert Contents(sb, f, i) == [];
  }

  /** Its root is an empty directory, and all else are files. */
  lemma BeforeInv()
    ensures FsRuns.Inv(Layout(false), State(false, false))
  {
    var sb, f := Layout(false), State(false, false);
    BeforeGood(false);
    forall i: nat | i < |f.inode| ensures f.inode[i] == Node(false, false, i) {
    }
    assert f.dinode == f.inode;
    hide State, SlotOf, Layout, Good, At, Size, Directory.IsDirectory, Directory.Names;
    assert Good(sb, f) by {
      GoodIf(sb, f);
    }
    EmptyDirectory(sb, f, Namei.ROOTINO);
  }

  lemma GoodIf(sb: Super, f: Fs)
    requires Sound(sb, f) && NoHoles(sb, f)
    ensures Good(sb, f)
  {
  }

  /** The budget is reached: on a disk with all that calls keep, a chunk is written
      that logs all ten blocks, and there every write of 1536 bytes at that place does. */
  lemma BudgetReached()
    ensures FsRuns.Inv(Layout(false), State(false, false)) && Good(Layout(false), State(false, false))
    ensures FILE < |State(false, false).inode| && START <= State(false, false).inode[FILE].size
    ensures FsRuns.Next(Layout(false), State(false, false), FsRuns.Write(FILE, START, Chunk()), Done(false))
    ensures forall e, src | |src| == CHUNK && WriteDone(Layout(false), State(false, false), e, FILE, START, src) ::
              |Footprint(Layout(false), State(false, false), e, FILE, START, |src|)| == Log.MAXOPBLOCKS
  {
    var sb, f := Layout(false), State(false, false);
    BeforeGood(false);
    BeforeInv();
    DoneStored();
    WriteHappens(false);
    hide State, Done, Layout, Writes, Footprint, BitsMatch, SlotsOwned, NoHoles, FsRuns.Inv, TakesRest, Chunk, SlotOf,
         Contents, Overwritten, NewSlots, EndBlock, ChangesOnly, Directory.IsDirectory;
    WritesGood(sb, f, Done(false), FILE, START, Chunk());
    forall e, src | |src| == CHUNK && WriteDone(sb, f, e, FILE, START, src)
      ensures |Footprint(sb, f, e, FILE, START, |src|)| == Log.MAXOPBLOCKS
    {
      DoneTakesRest(e, src);
      RestLogged(false, e);
    }
  }

  lemma DoneStored()
    ensures Done(false).dinode == Done(false).inode
  {
  }

  lemma DoneTakesRest(e: Fs, src: seq<Byte>)
    requires Good(Layout(false), State(false, false))
    requires FILE < |State(false, false).inode| && START <= State(false, false).inode[FILE].size
    requires |src| == CHUNK && WriteDone(Layout(false), State(false, false), e, FILE, START, src)
    ensures TakesRest(false, e) && forall s: nat | 11 <= s < 15 :: SlotOf(e, FILE, s) != 0
  {
    var sb, f := Layout(false), State(false, false);
    hide State, SlotOf, NewSlots, Footprint, BitsMatch, SlotsOwned, Nodes, ChangesOnly;
    assert START / BSIZE == 11 && EndBlock(START, CHUNK) == 15;
    assert e.inode[FILE].size >= START + CHUNK by {
      assert |Contents(sb, e, FILE)| >= START + CHUNK;
    }
    forall s: nat | 11 <= s < 15 ensures SlotOf(e, FILE, s) != 0 {
      assert s * BSIZE < e.inode[FILE].size;
    }
    MustTakeRest(false, e, src);
  }

  /** On a disk that is consistent but for one hole, the same write takes place and
      logs eleven. */
  lemma HoleBreaksBudget()
    ensures Sound(Layout(true), State(true, false)) && !NoHoles(Layout(true), State(true, false))
    ensures FILE < |State(true, false).inode| && State(true, false).inode[FILE].kind.File?
    ensures Writes(Layout(true), State(true, false), Done(true), FILE, START, Chunk())
    ensures forall e, src | |src| == CHUNK && Writes(Layout(true), State(true, false), e, FILE, START, src) ::
              |Footprint(Layout(true), State(true, false), e, FILE, START, |src|)| == Log.MAXOPBLOCKS + 1
  {
    var sb, f := Layout(true), State(true, false);
    BeforeGood(true);
    WriteHappens(true);
    hide State, Done, Layout, Footprint, ChangesOnly, Written, NewSlots, SlotOf, BitsMatch, SlotsOwned;
    forall e, src | |src| == CHUNK && Writes(sb, f, e, FILE, START, src)
      ensures |Footprint(sb, f, e, FILE, START, |src|)| == Log.MAXOPBLOCKS + 1
    {
      assert START / BSIZE == 11 && EndBlock(START, CHUNK) == 15;
      MustTakeRest(true, e, src);
      RestLogged(true, e);
    }
  }
}
