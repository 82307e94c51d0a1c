/** filewrite (`file.c`): one write system call cut into transactions small enough
    for the log, and the count of blocks each of them logs. */
module FileWrite {
  import opened Disk
  import opened Bitmap
  import opened FileSystem
  import opened Wrappers
  import Log

  /** Three blocks: half of what the log's share leaves once the inode, the
      indirect block and two blocks of slop are set aside. */
  const CHUNK: nat := 1536

  // ---- Counting ----

  lemma {:induction false} ValuesSize(m: map<nat, nat>)
    ensures |m.Values| <= |m|
    decreases |m|
  {
    if m.Keys == {} {
      assert m.Values == {};
    } else {
      var k :| k in m.Keys;
      var rest := m - {k};
      ValuesSize(rest);
      assert m.Keys == rest.Keys + {k};
      assert m.Values == rest.Values + {m[k]};
    }
  }

  lemma {:induction false} InjectiveSize(m: map<nat, nat>)
    requires forall a, b | a in m && b in m && a != b :: m[a] != m[b]
    ensures |m.Values| == |m|
    decreases |m|
  {
    if m.Keys == {} {
      assert m.Values == {};
    } else {
      var k :| k in m.Keys;
      var rest := m - {k};
      InjectiveSize(rest);
      assert m.Keys == rest.Keys + {k};
      assert m.Values == rest.Values + {m[k]};
    }
  }

  function Interval(lo: nat, hi: nat): (r: set<nat>)
    requires lo <= hi
    ensures |r| == hi - lo && forall x: nat :: x in r <==> lo <= x < hi
    decreases hi
  {
    if lo == hi then {} else Interval(lo, hi - 1) + {hi - 1}
  }

  /** Data blocks `lo .. hi` number at most `hi - lo`, and exactly that many when
      no two of the slots hold the same block. */
  lemma DataBlocksSize(f: Fs, i: nat, lo: nat, hi: nat)
    requires i < |f.inode| && |f.inode[i].addrs| == NDIRECT + 1 && lo <= hi
    ensures |DataBlocks(f, i, lo, hi)| <= hi - lo
    ensures (forall s: nat, t: nat | lo <= s < t < hi :: SlotOf(f, i, s) != SlotOf(f, i, t)) ==>
              |DataBlocks(f, i, lo, hi)| == hi - lo
  {
    hide SlotOf;
    var m := map s | s in Interval(lo, hi) :: SlotOf(f, i, s);
    assert m.Keys == Interval(lo, hi);
    assert |m| == |m.Keys|;
    ValuesSize(m);
    assert m.Values == DataBlocks(f, i, lo, hi) by {
      forall x | x in m.Values ensures x in DataBlocks(f, i, lo, hi) {
        var s :| s in m && m[s] == x;
      }
      forall x | x in DataBlocks(f, i, lo, hi) ensures x in m.Values {
        var s: nat :| lo <= s < hi && SlotOf(f, i, s) == x;
        assert m[s] == x;
      }
    }
    if forall s: nat, t: nat | lo <= s < t < hi :: SlotOf(f, i, s) != SlotOf(f, i, t) {
      InjectiveSize(m);
    }
  }

  function BitmapBlocks(sb: Super, f: Fs, i: nat, n: set<nat>): set<nat>
    requires i < |f.inode| && |f.inode[i].addrs| == NDIRECT + 1
  {
    set s | s in n :: BBlock(sb, SlotOf(f, i, s))
  }

  lemma BitmapBlocksSize(sb: Super, f: Fs, i: nat, n: set<nat>)
    requires i < |f.inode| && |f.inode[i].addrs| == NDIRECT + 1
    ensures |BitmapBlocks(sb, f, i, n)| <= |n|
    ensures (forall s, t | s in n && t in n && s != t ::
               BBlock(sb, SlotOf(f, i, s)) != BBlock(sb, SlotOf(f, i, t))) ==>
              |BitmapBlocks(sb, f, i, n)| == |n|
  {
    hide SlotOf, BBlock;
    var m := map s | s in n :: BBlock(sb, SlotOf(f, i, s));
    assert m.Keys == n;
    ValuesSize(m);
    assert m.Values == BitmapBlocks(sb, f, i, n);
    if forall s, t | s in n && t in n && s != t ::
         BBlock(sb, SlotOf(f, i, s)) != BBlock(sb, SlotOf(f, i, t)) {
      InjectiveSize(m);
    }
  }

  lemma UnionSize(a: set<nat>, b: set<nat>)
    ensures |a + b| <= |a| + |b|
    ensures a !! b ==> |a + b| == |a| + |b|
  {
    assert a + b == a + (b - a);
    assert |a + (b - a)| == |a| + |b - a|;
    assert b == (b - a) + (b * a);
  }

  lemma SubsetSize(a: set<nat>, b: set<nat>)
    requires a <= b
    ensures |a| <= |b|
  {
    assert b == a + (b - a);
  }

  // ---- The log budget of a write ----

  predicate NewWithin(f: Fs, e: Fs, i: nat, lo: nat, hi: nat)
    requires i < |f.inode| && |f.inode[i].addrs| == NDIRECT + 1
    requires i < |e.inode| && |e.inode[i].addrs| == NDIRECT + 1
  {
    forall s | s in NewSlots(f, e, i) :: s == MAXFILE || lo <= s < hi
  }

  /** A chunk touches four blocks at most, and then the first of them in part. */
  lemma ChunkBlocks(off: nat, n: nat)
    requires 0 < n <= CHUNK
    ensures 1 <= EndBlock(off, n) - off / BSIZE <= 4
    ensures EndBlock(off, n) - off / BSIZE == 4 ==> off / BSIZE * BSIZE < off
  {
  }

  /** A write of at most CHUNK bytes reaches at most three new data blocks: of four
      blocks touched, the first holds bytes the file already has. */
  lemma FewNewSlots(sb: Super, f: Fs, e: Fs, i: nat, off: nat, n: nat)
    requires Good(sb, f) && Good(sb, e) && i < |f.inode| == |e.inode|
    requires off <= f.inode[i].size && 0 < n <= CHUNK
    requires NewWithin(f, e, i, off / BSIZE, EndBlock(off, n))
    ensures var touched := EndBlock(off, n) - off / BSIZE;
            1 <= touched <= 4 && touched + |NewSlots(f, e, i)| <= 8
  {
    hide InUse, GetWord, Slot, SlotOf, BitsMatch, SlotsOwned;
    var lo, hi := off / BSIZE, EndBlock(off, n);
    var first := if hi - lo == 4 then lo + 1 else lo;
    ChunkBlocks(off, n);
    hide EndBlock;
    if hi - lo == 4 {
      assert SlotOf(f, i, lo) != 0;
    }
    hide NoHoles;
    assert NewSlots(f, e, i) <= Interval(first, hi) + {MAXFILE};
    SubsetSize(NewSlots(f, e, i), Interval(first, hi) + {MAXFILE});
    UnionSize(Interval(first, hi), {MAXFILE});
  }

  /** Every transaction of a write system call fits its share of the log, however
      the allocator spreads the new blocks over the bitmap. */
  lemma WriteBudget(sb: Super, f: Fs, e: Fs, i: nat, off: nat, src: seq<Byte>)
    requires Good(sb, f) && i < |f.inode| && off <= f.inode[i].size
    requires WriteDone(sb, f, e, i, off, src) && |src| <= CHUNK
    ensures |Footprint(sb, f, e, i, off, |src|)| <= Log.MAXOPBLOCKS
  {
    var n := |src|;
    hide Contents, Overwritten, ChangesOnly, BitsMatch, SlotsOwned, NoHoles, SlotOf, NewSlots, Footprint;
    if n == 0 {
      assert NewSlots(f, e, i) <= {MAXFILE};
      SubsetSize(NewSlots(f, e, i), {MAXFILE});
    } else {
      FewNewSlots(sb, f, e, i, off, n);
    }
    FootprintAtMost(sb, f, e, i, off, n);
  }

  lemma FootprintAtMost(sb: Super, f: Fs, e: Fs, i: nat, off: nat, n: nat)
    requires i < |f.inode| == |e.inode| && |f.inode[i].addrs| == |e.inode[i].addrs| == NDIRECT + 1
    requires NewWithin(f, e, i, off / BSIZE, EndBlock(off, n)) && off / BSIZE <= EndBlock(off, n)
    ensures |Footprint(sb, f, e, i, off, n)|
         <= EndBlock(off, n) - off / BSIZE + |NewSlots(f, e, i)| + 2
  {
    FootprintWithin(sb, f, e, i, off, n);
    hide SlotOf, BBlock, EndBlock, Footprint, DataBlocks, BitmapBlocks, NewSlots, NewWithin;
    var lo, hi := off / BSIZE, EndBlock(off, n);
    var d, b := DataBlocks(e, i, lo, hi), BitmapBlocks(sb, e, i, NewSlots(f, e, i));
    var rest := {SlotOf(e, i, MAXFILE), IBlock(sb, i)};
    SubsetSize(Footprint(sb, f, e, i, off, n), d + b + rest);
    DataBlocksSize(e, i, lo, hi);
    BitmapBlocksSize(sb, e, i, NewSlots(f, e, i));
    UnionSize(d, b);
    UnionSize(d + b, rest);
    assert |rest| <= 2;
  }

  lemma FootprintWithin(sb: Super, f: Fs, e: Fs, i: nat, off: nat, n: nat)
    requires i < |f.inode| == |e.inode| && |f.inode[i].addrs| == |e.inode[i].addrs| == NDIRECT + 1
    requires NewWithin(f, e, i, off / BSIZE, EndBlock(off, n)) && off / BSIZE <= EndBlock(off, n)
    ensures Footprint(sb, f, e, i, off, n)
         <= DataBlocks(e, i, off / BSIZE, EndBlock(off, n)) + BitmapBlocks(sb, e, i, NewSlots(f, e, i))
            + {SlotOf(e, i, MAXFILE), IBlock(sb, i)}
  {
    hide SlotOf, BBlock, EndBlock;
    var lo, hi := off / BSIZE, EndBlock(off, n);
    forall s | s in NewSlots(f, e, i)
      ensures SlotOf(e, i, s) in DataBlocks(e, i, lo, hi) + {SlotOf(e, i, MAXFILE)}
    {
      if s != MAXFILE {
        assert lo <= s < hi;
      }
    }
  }

  /** The new blocks lie in different bitmap blocks, and metadata blocks differ
      from data blocks and from each other. */
  ghost predicate Scattered(sb: Super, e: Fs, i: nat, news: set<nat>, lo: nat, hi: nat)
    requires i < |e.inode| && |e.inode[i].addrs| == NDIRECT + 1
  {
    && (forall s, t | s in news && t in news && s != t ::
          BBlock(sb, SlotOf(e, i, s)) != BBlock(sb, SlotOf(e, i, t)))
    && (forall s: nat, t: nat | lo <= s < t < hi :: SlotOf(e, i, s) != SlotOf(e, i, t))
    && (forall s: nat | lo <= s < hi :: SlotOf(e, i, s) != SlotOf(e, i, MAXFILE))
    && (forall s: nat, t | (lo <= s < hi || s == MAXFILE) && t in news ::
          SlotOf(e, i, s) != BBlock(sb, SlotOf(e, i, t)))
    && (forall s: nat | lo <= s < hi || s == MAXFILE :: SlotOf(e, i, s) != IBlock(sb, i))
    && (forall t | t in news :: BBlock(sb, SlotOf(e, i, t)) != IBlock(sb, i))
  }

  /** How many blocks exactly, in the worst case of allocation. */
  lemma FootprintExactly(sb: Super, f: Fs, e: Fs, i: nat, off: nat, n: nat,
                         lo: nat, hi: nat, news: set<nat>, entry: nat)
    requires i < |f.inode| == |e.inode| && |f.inode[i].addrs| == |e.inode[i].addrs| == NDIRECT + 1
    requires lo == off / BSIZE <= hi == EndBlock(off, n) && news == NewSlots(f, e, i)
    requires NewWithin(f, e, i, lo, hi) && Scattered(sb, e, i, news, lo, hi)
    requires n > 0 && off + n > f.inode[i].size
    requires entry in news && NDIRECT <= entry < MAXFILE
    ensures |Footprint(sb, f, e, i, off, n)| == hi - lo + |news| + 2
  {
    hide SlotOf, BBlock, IBlock, EndBlock, Footprint, NewSlots, NewWithin;
    FootprintSets(sb, f, e, i, off, n, entry);
    ScatteredSets(sb, e, i, news, lo, hi, entry);
    hide DataBlocks, BitmapBlocks, Scattered;
    var d, b := DataBlocks(e, i, lo, hi), BitmapBlocks(sb, e, i, news);
    var rest := {SlotOf(e, i, MAXFILE), IBlock(sb, i)};
    UnionSize(d, b);
    UnionSize(d + b, rest);
  }

  lemma ScatteredSets(sb: Super, e: Fs, i: nat, news: set<nat>, lo: nat, hi: nat, entry: nat)
    requires i < |e.inode| && |e.inode[i].addrs| == NDIRECT + 1
    requires Scattered(sb, e, i, news, lo, hi) && lo <= hi && entry in news
    ensures var d, b := DataBlocks(e, i, lo, hi), BitmapBlocks(sb, e, i, news);
            var rest := {SlotOf(e, i, MAXFILE), IBlock(sb, i)};
            |d| == hi - lo && |b| == |news| && |rest| == 2 && d !! b && (d + b) !! rest
  {
    hide SlotOf, BBlock, IBlock;
    DataBlocksSize(e, i, lo, hi);
    BitmapBlocksSize(sb, e, i, news);
  }

  lemma FootprintSets(sb: Super, f: Fs, e: Fs, i: nat, off: nat, n: nat, entry: nat)
    requires i < |f.inode| == |e.inode| && |f.inode[i].addrs| == |e.inode[i].addrs| == NDIRECT + 1
    requires NewWithin(f, e, i, off / BSIZE, EndBlock(off, n))
    requires n > 0 && off + n > f.inode[i].size
    requires entry in NewSlots(f, e, i) && NDIRECT <= entry < MAXFILE
    ensures Footprint(sb, f, e, i, off, n)
         == DataBlocks(e, i, off / BSIZE, EndBlock(off, n)) + BitmapBlocks(sb, e, i, NewSlots(f, e, i))
            + {SlotOf(e, i, MAXFILE), IBlock(sb, i)}
  {
    hide SlotOf, BBlock, EndBlock;
    var lo, hi := off / BSIZE, EndBlock(off, n);
    forall s | s in NewSlots(f, e, i)
      ensures SlotOf(e, i, s) in DataBlocks(e, i, lo, hi) + {SlotOf(e, i, MAXFILE)}
    {
      if s != MAXFILE {
        assert lo <= s < hi;
      }
    }
  }

  lemma LastDirectChunk(off: nat)
    requires (NDIRECT - 1) * BSIZE < off < NDIRECT * BSIZE
    ensures off / BSIZE == NDIRECT - 1 && EndBlock(off, CHUNK) == NDIRECT + 3
  {
  }

  /** The bound is tight: a full chunk that starts in the last direct block and
      brings in the indirect block logs all ten. */
  lemma BudgetTight(sb: Super, f: Fs, e: Fs, i: nat, off: nat, news: set<nat>)
    requires i < |f.inode| == |e.inode| && |f.inode[i].addrs| == |e.inode[i].addrs| == NDIRECT + 1
    requires (NDIRECT - 1) * BSIZE < off < NDIRECT * BSIZE && f.inode[i].size <= NDIRECT * BSIZE
    requires NewSlots(f, e, i) == news == {NDIRECT, NDIRECT + 1, NDIRECT + 2, MAXFILE}
    requires Scattered(sb, e, i, news, NDIRECT - 1, NDIRECT + 3)
    ensures |Footprint(sb, f, e, i, off, CHUNK)| == Log.MAXOPBLOCKS
  {
    hide SlotOf, Footprint, NewSlots, Scattered, EndBlock;
    LastDirectChunk(off);
    FootprintExactly(sb, f, e, i, off, CHUNK, NDIRECT - 1, NDIRECT + 3, news, NDIRECT);
  }

  /** With a hole in place of the first block the same write would log eleven. */
  lemma HolesBreakTheBudget(sb: Super, f: Fs, e: Fs, i: nat, off: nat, news: set<nat>)
    requires i < |f.inode| == |e.inode| && |f.inode[i].addrs| == |e.inode[i].addrs| == NDIRECT + 1
    requires (NDIRECT - 1) * BSIZE < off < NDIRECT * BSIZE && f.inode[i].size <= NDIRECT * BSIZE
    requires NewSlots(f, e, i) == news == {NDIRECT - 1, NDIRECT, NDIRECT + 1, NDIRECT + 2, MAXFILE}
    requires Scattered(sb, e, i, news, NDIRECT - 1, NDIRECT + 3)
    ensures |Footprint(sb, f, e, i, off, CHUNK)| == Log.MAXOPBLOCKS + 1
  {
    hide SlotOf, Footprint, NewSlots, Scattered, EndBlock;
    LastDirectChunk(off);
    FootprintExactly(sb, f, e, i, off, CHUNK, NDIRECT - 1, NDIRECT + 3, news, NDIRECT);
  }

  // ---- The system call ----

  lemma OverwriteTwice(c: seq<Byte>, off: nat, a: seq<Byte>, b: seq<Byte>)
    requires off <= |c|
    ensures off + |a| <= |Overwritten(c, off, a)|
    ensures Overwritten(Overwritten(c, off, a), off + |a|, b) == Overwritten(c, off, a + b)
  {
  }

  class OpenFile {
    const fs: FileSystem
    const i: nat
    var off: nat
    ghost var transactions: seq<set<nat>>   // what each past transaction logged

    constructor (fs: FileSystem, i: nat)
      ensures this.fs == fs && this.i == i && off == 0 && transactions == []
    {
      this.fs, this.i, off, transactions := fs, i, 0, [];
    }

    ghost predicate Valid()
      reads this, fs
    {
      fs.Valid() && i < |fs.inode|
    }

    /** filewrite, begun with the file system `f` and the offset `off0`, has
        written `k` bytes of `addr`. */
    ghost predicate Written(f: Fs, off0: nat, addr: seq<Byte>, k: nat, stopped: bool)
      reads this, fs
    {
      Progress(fs.sb, f, fs.S(), i, off0, addr, k, off, stopped)
    }

    /** What one transaction comes to, from the file system `g`, the offset `o`
        and the past transactions `ts`: writei refuses exactly a chunk past the end
        of the file or past its largest size, and then nothing has changed; else
        the chunk is written, the offset moves by it, and the transaction fits. */
    ghost predicate ChunkDone(g: Fs, o: nat, ts: seq<set<nat>>, src: seq<Byte>, w: WriteResult)
      reads this, fs
    {
      && i < |g.inode|
      && (w.Refused? <==> o > g.inode[i].size || o + |src| > MAXBYTES)
      && (w.Refused? ==> Valid() && off == o && transactions == ts && FileWritten(fs.sb, g, fs.S(), i, o, []))
      && (w.Panicked? ==> transactions == ts && off == o)
      && (w.Wrote? ==>
            && Valid() && w.count == |src| && off == o + |src| && FileWritten(fs.sb, g, fs.S(), i, o, src)
            && transactions == ts + [fs.logged] && |fs.logged| <= Log.MAXOPBLOCKS)
    }

    /** One transaction: begin_op, writei of `src`, end_op. */
    method WriteChunk(src: seq<Byte>) returns (w: WriteResult)
      requires Valid() && 0 < |src| <= CHUNK && off < 0x1_0000_0000
      modifies this, fs
      ensures ChunkDone(old(fs.S()), old(off), old(transactions), src, w)
    {
      hide InUse, GetWord, Slot, SlotOf, BitsMatch, SlotsOwned, NoHoles, Footprint, NewSlots, Contents;
      fs.logged := {};
      ghost var g := fs.S();
      ContentsIgnoreLog(fs.sb, old(fs.S()), g);
      w := fs.WriteI(i, src, off);
      if w.Wrote? {
        WriteBudget(fs.sb, g, fs.S(), i, off, src);
        off := off + w.count;
        transactions := transactions + [fs.logged];
      } else {
        OverwriteNothing(Contents(fs.sb, g, i), off, []);
      }
    }

    lemma PassDone(f: Fs, off0: nat, addr: seq<Byte>, k: nat, n: nat, g: Fs, o: nat, ts: seq<set<nat>>, w: WriteResult)
      requires k < |addr| && n == Min(CHUNK, |addr| - k)
      requires Progress(fs.sb, f, g, i, off0, addr, k, o, false)
      requires ChunkDone(g, o, ts, addr[k..k + n], w)
      ensures !w.Panicked? ==> Valid()
      ensures w.Refused? ==> Written(f, off0, addr, k, true)
      ensures w.Wrote? ==> k + w.count <= |addr| && w.count > 0 && Written(f, off0, addr, k + w.count, false)
      ensures AllFit(ts, transactions)
    {
      hide Good, Contents, Overwritten, SameContents, FileWritten, Progress, AllFit;
      AllFitReflexive(ts);
      if w.Refused? {
        Stopped(fs.sb, f, g, fs.S(), i, off0, addr, k, o);
      } else if w.Wrote? {
        WriteNext(fs.sb, f, g, fs.S(), i, off0, addr, k, n, o);
        AllFitOneMore(ts, ts, fs.logged);
      }
    }

    /** One pass of filewrite's loop, `done` bytes into a write that began with
        the file system `f` and the offset `off0`. */
    method WritePass(addr: seq<Byte>, done: nat, ghost f: Fs, ghost off0: nat) returns (w: WriteResult)
      requires Valid() && done < |addr| < 0x8000_0000 && off0 < 0x8000_0000
      requires Written(f, off0, addr, done, false)
      modifies this, fs
      ensures !w.Panicked? ==> Valid()
      ensures w.Refused? ==> Written(f, off0, addr, done, true)
      ensures w.Wrote? ==> done + w.count <= |addr| && w.count > 0 && Written(f, off0, addr, done + w.count, false)
      ensures AllFit(old(transactions), transactions)
    {
      ghost var g, o, ts := fs.S(), off, transactions;
      hide *;
      UnderWay(f, off0, addr, done);
      var n1 := |addr| - done;
      if n1 > CHUNK {
        n1 := CHUNK;
      }
      w := WriteChunk(addr[done..done + n1]);
      PassDone(f, off0, addr, done, n1, g, o, ts, w);
    }

    lemma UnderWay(f: Fs, off0: nat, addr: seq<Byte>, k: nat)
      requires Written(f, off0, addr, k, false) && k < |addr| && off0 < 0x8000_0000
      ensures Progress(fs.sb, f, fs.S(), i, off0, addr, k, off, false) && off < 0x1_0000_0000
      ensures Min(CHUNK, |addr| - k) == if |addr| - k > CHUNK then CHUNK else |addr| - k
    {
      OffsetFits(fs.sb, f, fs.S(), i, off0, addr, k, off);
    }

    lemma Begun(addr: seq<Byte>)
      requires Valid()
      ensures Written(fs.S(), off, addr, 0, false)
    {
      NothingToWrite(fs.sb, fs.S(), i, off, addr);
    }

    /** filewrite on an inode. Some(n) is the return value n, None is -1. The
        bytes written are all of `addr`, or whole chunks of it up to the first
        one that would take the file past its largest size. */
    method FileWrite(addr: seq<Byte>) returns (r: Option<nat>, panicked: bool, ghost k: nat)
      requires Valid() && |addr| < 0x8000_0000 && off < 0x8000_0000
      modifies this, fs
      ensures AllFit(old(transactions), transactions)
      ensures !panicked ==> Valid()
      ensures !panicked ==> Written(old(fs.S()), old(off), addr, k, r.None?)
      ensures !panicked && r.Some? ==> r.value == k == |addr|
    {
      hide *;
      ghost var f := fs.S();
      Begun(addr);
      AllFitReflexive(transactions);
      var done, refused := 0, false;
      panicked := false;
      while done < |addr| && !panicked && !refused
        invariant 0 <= done <= |addr|
        invariant !panicked ==> Valid()
        invariant AllFit(old(transactions), transactions)
        invariant !panicked ==> Written(f, old(off), addr, done, refused)
        decreases |addr| - done, !panicked && !refused
      {
        ghost var ts := transactions;
        var w := WritePass(addr, done, f, old(off));
        AllFitTransitive(old(transactions), ts, transactions);
        match w
        case Panicked => panicked := true;
        case Refused => refused := true;
        case Wrote(n) => done := done + n;
      }
      k := done;
      r := if refused then None else Some(done);
    }
  }

  /** filewrite has written the first `k` bytes of `addr`, in whole chunks unless
      that is all of it, and has moved the file offset from `off` to `now`. It has
      `stopped` when writei refuses the next chunk: the offset is past the end of
      the file, or the file would outgrow its largest size. */
  ghost predicate Progress(sb: Super, f: Fs, g: Fs, i: nat, off: nat, addr: seq<Byte>, k: nat, now: nat,
                           stopped: bool) {
    && k <= |addr| && now == off + k && (k == |addr| || k % CHUNK == 0)
    && FileWritten(sb, f, g, i, off, addr[..k])
    && (k > 0 ==> off <= f.inode[i].size && now <= MAXBYTES)
    && (stopped ==> k < |addr| && if off > f.inode[i].size then k == 0
                                  else now + Min(CHUNK, |addr| - k) > MAXBYTES)
  }

  /** Every file but `i` holds in `g` what it held in `f`. */
  ghost predicate SameContents(sb: Super, f: Fs, g: Fs, i: nat) {
    && Good(sb, f) && Good(sb, g) && |g.inode| == |f.inode|
    && forall j: nat | j < |f.inode| && j != i :: Contents(sb, g, j) == Contents(sb, f, j)
  }

  /** File `i` has had `src` written over it at `off`; the others are as they were. */
  ghost predicate FileWritten(sb: Super, f: Fs, g: Fs, i: nat, off: nat, src: seq<Byte>) {
    && SameContents(sb, f, g, i) && i < |f.inode|
    && Contents(sb, g, i) == Overwritten(Contents(sb, f, i), off, src)
  }

  /** `after` adds transactions to `before`, all within the log's share. */
  ghost predicate AllFit(before: seq<set<nat>>, after: seq<set<nat>>) {
    && before <= after
    && forall t | |before| <= t < |after| :: |after[t]| <= Log.MAXOPBLOCKS
  }

  lemma AllFitReflexive(ts: seq<set<nat>>)
    ensures AllFit(ts, ts)
  {
  }

  lemma AllFitOneMore(before: seq<set<nat>>, ts: seq<set<nat>>, t: set<nat>)
    requires AllFit(before, ts) && |t| <= Log.MAXOPBLOCKS
    ensures AllFit(before, ts + [t])
  {
  }

  lemma AllFitTransitive(a: seq<set<nat>>, b: seq<set<nat>>, c: seq<set<nat>>)
    requires AllFit(a, b) && AllFit(b, c)
    ensures AllFit(a, c)
  {
    assert forall t | 0 <= t < |b| :: c[t] == b[t];
  }

  lemma NothingToWrite(sb: Super, f: Fs, i: nat, off: nat, addr: seq<Byte>)
    requires Good(sb, f) && i < |f.inode|
    ensures Progress(sb, f, f, i, off, addr, 0, off, false)
  {
    hide InUse, GetWord, Slot, SlotOf, BitsMatch, SlotsOwned, NoHoles;
    OverwriteNothing(Contents(sb, f, i), off, addr);
  }

  lemma OffsetFits(sb: Super, f: Fs, g: Fs, i: nat, off: nat, addr: seq<Byte>, k: nat, now: nat)
    requires Progress(sb, f, g, i, off, addr, k, now, false) && off < 0x8000_0000
    ensures now < 0x1_0000_0000
  {
    hide Contents, Good, FileWritten;
  }

  lemma WriteNext(sb: Super, f: Fs, g: Fs, h: Fs, i: nat, off: nat, addr: seq<Byte>, k: nat, n: nat,
                  now: nat)
    requires k < |addr| && n == Min(CHUNK, |addr| - k)
    requires Progress(sb, f, g, i, off, addr, k, now, false)
    requires FileWritten(sb, g, h, i, now, addr[k..k + n])
    requires now <= g.inode[i].size && now + n <= MAXBYTES
    ensures Progress(sb, f, h, i, off, addr, k + n, now + n, false)
  {
    hide InUse, GetWord, Slot, SlotOf, BitsMatch, SlotsOwned, NoHoles, Overwritten;
    ContentsSize(sb, f, i);
    ContentsSize(sb, g, i);
    if k == 0 {
      OverwriteNothing(Contents(sb, f, i), off, addr);
    }
    OverwriteNext(Contents(sb, f, i), off, addr, k, n);
    ChunkStep(k, |addr|);
    hide Contents, Good;
    assert FileWritten(sb, f, h, i, off, addr[..k + n]);
  }

  lemma ChunkStep(k: nat, len: nat)
    requires k < len && k % CHUNK == 0
    ensures var n := Min(CHUNK, len - k); k + n == len || (k + n) % CHUNK == 0
  {
  }

  lemma ContentsSize(sb: Super, f: Fs, i: nat)
    requires Good(sb, f) && i < |f.inode|
    ensures |Contents(sb, f, i)| == f.inode[i].size
  {
  }

  lemma Stopped(sb: Super, f: Fs, g: Fs, h: Fs, i: nat, off: nat, addr: seq<Byte>, k: nat, now: nat)
    requires k < |addr| && Progress(sb, f, g, i, off, addr, k, now, false)
    requires FileWritten(sb, g, h, i, now, [])
    requires now > g.inode[i].size || now + Min(CHUNK, |addr| - k) > MAXBYTES
    ensures Progress(sb, f, h, i, off, addr, k, now, true)
  {
    hide InUse, GetWord, Slot, SlotOf, BitsMatch, SlotsOwned, NoHoles;
    ContentsSize(sb, f, i);
    ContentsSize(sb, g, i);
    OverwriteNothing(Contents(sb, g, i), now, []);
    if off <= f.inode[i].size {
      OverwriteSize(Contents(sb, f, i), off, addr[..k]);
    }
  }

  lemma OverwriteSize(c: seq<Byte>, off: nat, src: seq<Byte>)
    requires off <= |c|
    ensures off + |src| <= |Overwritten(c, off, src)|
  {
  }

  /** What the transaction has logged is not part of any file. */
  lemma ContentsIgnoreLog(sb: Super, f: Fs, g: Fs)
    requires Good(sb, f) && g == f.(logged := {})
    ensures Good(sb, g)
    ensures forall j: nat | j < |f.inode| :: Contents(sb, g, j) == Contents(sb, f, j)
  {
    hide InUse, GetWord, Slot;
    assert forall j: nat, s: nat | j < |f.inode| :: SlotOf(g, j, s) == SlotOf(f, j, s);
    forall j: nat | j < |f.inode| ensures Contents(sb, g, j) == Contents(sb, f, j) {
      forall k: nat | k < f.inode[j].size ensures Contents(sb, g, j)[k] == Contents(sb, f, j)[k] {
      }
    }
  }

  lemma OverwriteNothing(c: seq<Byte>, off: nat, src: seq<Byte>)
    ensures Overwritten(c, off, src[..0]) == c
  {
  }

  lemma OverwriteNext(c: seq<Byte>, off: nat, src: seq<Byte>, k: nat, n: nat)
    requires off <= |c| && k + n <= |src|
    ensures off + k <= |Overwritten(c, off, src[..k])|
    ensures Overwritten(Overwritten(c, off, src[..k]), off + k, src[k..k + n])
         == Overwritten(c, off, src[..k + n])
  {
    OverwriteTwice(c, off, src[..k], src[k..k + n]);
    assert src[..k] + src[k..k + n] == src[..k + n];
  }
}
