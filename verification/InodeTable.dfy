/** Inodes as the inode blocks hold them (`fs.h`, `fs.c`): eight records of 64
    bytes in a block, which iupdate writes and ilock reads back. */
module InodeTable {
  import opened Disk
  import opened FileSystem

  const RECORD: nat := 64

  type Short = x: int | -0x8000 <= x < 0x8000
  type Addrs = s: seq<Word> | |s| == NDIRECT + 1 witness seq(NDIRECT + 1, _ => 0)

  /** `struct dinode`. */
  datatype Dinode = Dinode(typ: Short, major: Short, minor: Short, nlink: Short, size: Word, addrs: Addrs)

  // ---- Numbers in bytes, low byte first ----

  function ShortBytes(x: Short): (r: seq<Byte>)
    ensures |r| == 2
  {
    [x % 0x100, x / 0x100 % 0x100]
  }

  function ShortOf(s: seq<Byte>): Short
    requires |s| == 2
  {
    var u := s[0] as int + 0x100 * (s[1] as int);
    if u < 0x8000 then u else u - 0x1_0000
  }

  lemma ShortRoundTrip(x: Short)
    ensures ShortOf(ShortBytes(x)) == x
  {
  }

  function WordBytes(w: Word): (r: seq<Byte>)
    ensures |r| == 4
  {
    [w % 0x100, w / 0x100 % 0x100, w / 0x1_0000 % 0x100, w / 0x100_0000]
  }

  function WordOf(s: seq<Byte>): Word
    requires |s| == 4
  {
    s[0] as int + 0x100 * (s[1] as int) + 0x1_0000 * (s[2] as int) + 0x100_0000 * (s[3] as int)
  }

  lemma WordBytesRoundTrip(w: Word)
    ensures WordOf(WordBytes(w)) == w
  {
    BytesOfWord(w);
  }

  function WordsBytes(ws: seq<Word>): (r: seq<Byte>)
    ensures |r| == 4 * |ws|
  {
    if ws == [] then [] else WordsBytes(ws[..|ws| - 1]) + WordBytes(ws[|ws| - 1])
  }

  lemma {:induction false} WordsBytesAt(ws: seq<Word>, j: nat)
    requires j < |ws|
    ensures WordsBytes(ws)[4 * j..4 * j + 4] == WordBytes(ws[j])
  {
    var n := |ws| - 1;
    if j < n {
      WordsBytesAt(ws[..n], j);
      assert WordsBytes(ws)[4 * j..4 * j + 4] == WordsBytes(ws[..n])[4 * j..4 * j + 4];
    }
  }

  // ---- Records ----

  function Bytes(d: Dinode): (r: seq<Byte>)
    ensures |r| == RECORD
  {
    ShortBytes(d.typ) + ShortBytes(d.major) + ShortBytes(d.minor) + ShortBytes(d.nlink) + WordBytes(d.size)
    + WordsBytes(d.addrs)
  }

  function Record(s: seq<Byte>): Dinode
    requires |s| == RECORD
  {
    Dinode(ShortOf(s[0..2]), ShortOf(s[2..4]), ShortOf(s[4..6]), ShortOf(s[6..8]), WordOf(s[8..12]),
           seq(NDIRECT + 1, j requires 0 <= j < NDIRECT + 1 => WordOf(s[12 + 4 * j..16 + 4 * j])))
  }

  lemma RecordRoundTrip(d: Dinode)
    ensures Record(Bytes(d)) == d
  {
    var s := Bytes(d);
    assert s[0..2] == ShortBytes(d.typ) && s[2..4] == ShortBytes(d.major);
    assert s[4..6] == ShortBytes(d.minor) && s[6..8] == ShortBytes(d.nlink) && s[8..12] == WordBytes(d.size);
    ShortRoundTrip(d.typ);
    ShortRoundTrip(d.major);
    ShortRoundTrip(d.minor);
    ShortRoundTrip(d.nlink);
    WordBytesRoundTrip(d.size);
    forall j: nat | j < NDIRECT + 1 ensures WordOf(s[12 + 4 * j..16 + 4 * j]) == d.addrs[j] {
      WordsBytesAt(d.addrs, j);
      assert s[12 + 4 * j..16 + 4 * j] == WordsBytes(d.addrs)[4 * j..4 * j + 4];
      WordBytesRoundTrip(d.addrs[j]);
    }
    assert Record(s).addrs == d.addrs;
  }

  /** `new` written over `s` from position `at`. */
  function Put(s: seq<Byte>, at: nat, new': seq<Byte>): (r: seq<Byte>)
    requires at + |new'| <= |s|
    ensures |r| == |s|
  {
    s[..at] + new' + s[at + |new'|..]
  }

  lemma PutTwice(s: seq<Byte>, at: nat, a: seq<Byte>, b: seq<Byte>)
    requires at + |a| + |b| <= |s|
    ensures Put(Put(s, at, a), at + |a|, b) == Put(s, at, a + b)
  {
  }

  lemma PutOne(b: seq<Byte>, at: nat, s: seq<Byte>, j: nat)
    requires at + |s| <= |b| && j < |s|
    ensures Put(b, at, s[..j])[at + j := s[j]] == Put(b, at, s[..j + 1])
  {
  }

  /** Record `k` of an inode block. */
  function RecordAt(b: Block, k: nat): Dinode
    requires k < IPB
  {
    Record(b[RECORD * k..RECORD * k + RECORD])
  }

  function PutRecord(b: Block, k: nat, d: Dinode): Block
    requires k < IPB
  {
    Put(b, RECORD * k, Bytes(d))
  }

  /** A stored record reads back, and the seven others in its block are kept. */
  lemma PutRecordAt(b: Block, k: nat, d: Dinode)
    requires k < IPB
    ensures RecordAt(PutRecord(b, k, d), k) == d
    ensures forall j: nat | j < IPB && j != k :: RecordAt(PutRecord(b, k, d), j) == RecordAt(b, j)
  {
    hide Record, Bytes;
    var c := PutRecord(b, k, d);
    RecordRoundTrip(d);
    assert c[RECORD * k..RECORD * k + RECORD] == Bytes(d);
    forall j: nat | j < IPB && j != k ensures RecordAt(c, j) == RecordAt(b, j) {
      assert RECORD * j + RECORD <= RECORD * k || RECORD * k + RECORD <= RECORD * j;
      assert c[RECORD * j..RECORD * j + RECORD] == b[RECORD * j..RECORD * j + RECORD];
    }
  }

  // ---- The other way round: what is read from bytes is stored as those bytes ----

  lemma ShortBack(s: seq<Byte>)
    requires |s| == 2
    ensures ShortBytes(ShortOf(s)) == s
  {
  }

  lemma WordBack(s: seq<Byte>)
    requires |s| == 4
    ensures WordBytes(WordOf(s)) == s
  {
    var a, b, c, d := s[0] as int, s[1] as int, s[2] as int, s[3] as int;
    var w := WordOf(s) as int;
    BytesOfWord(w);
    var w1 := b + 0x100 * c + 0x1_0000 * d;
    assert w == a + 0x100 * w1;
    assert w % 0x100 == a && w / 0x100 == w1;
    var w2 := c + 0x100 * d;
    assert w1 == b + 0x100 * w2;
    assert w1 % 0x100 == b && w1 / 0x100 == w2;
    assert w / 0x1_0000 == w2 && w / 0x100_0000 == d;
  }

  lemma {:induction false} WordsBack(ws: seq<Word>, s: seq<Byte>)
    requires |s| == 4 * |ws| && forall j: nat | j < |ws| :: ws[j] == WordOf(s[4 * j..4 * j + 4])
    ensures WordsBytes(ws) == s
  {
    hide WordOf, WordBytes;
    if ws != [] {
      var n := |ws| - 1;
      var t := s[..4 * n];
      forall j: nat | j < n ensures ws[..n][j] == WordOf(t[4 * j..4 * j + 4]) {
        assert t[4 * j..4 * j + 4] == s[4 * j..4 * j + 4];
      }
      WordsBack(ws[..n], t);
      WordBack(s[4 * n..4 * n + 4]);
      assert WordsBytes(ws) == t + s[4 * n..4 * n + 4];
      assert s == t + s[4 * n..4 * n + 4];
    }
  }

  lemma BytesRoundTrip(s: seq<Byte>)
    requires |s| == RECORD
    ensures Bytes(Record(s)) == s
  {
    var d := Record(s);
    ShortBack(s[0..2]);
    ShortBack(s[2..4]);
    ShortBack(s[4..6]);
    ShortBack(s[6..8]);
    WordBack(s[8..12]);
    hide ShortBytes, ShortOf, WordBytes, WordOf, WordsBytes;
    forall j: nat | j < NDIRECT + 1 ensures s[12..][4 * j..4 * j + 4] == s[12 + 4 * j..16 + 4 * j] {
    }
    WordsBack(d.addrs, s[12..]);
    assert s == s[0..2] + s[2..4] + s[4..6] + s[6..8] + s[8..12] + s[12..];
  }

  /** The record in place `k` is the one whose bytes are there. */
  lemma RecordThere(b: Block, k: nat)
    requires k < IPB
    ensures PutRecord(b, k, RecordAt(b, k)) == b
    ensures forall c: Block, d | b == PutRecord(c, k, d) :: RecordAt(b, k) == d
  {
    BytesRoundTrip(b[RECORD * k..RECORD * k + RECORD]);
    hide Record, Bytes;
    forall c: Block, d | b == PutRecord(c, k, d) ensures RecordAt(b, k) == d {
      PutRecordAt(c, k, d);
    }
  }

  lemma Subslice(b: seq<Byte>, p: nat, q: nat, i: nat, j: nat)
    requires p <= q <= |b| && i <= j <= q - p
    ensures b[p..q][i..j] == b[p + i..p + j]
  {
    var x, y := b[p..q][i..j], b[p + i..p + j];
    assert forall k | 0 <= k < j - i :: x[k] == y[k];
  }

  // ---- The buffer that iupdate and ilock work on ----

  /** The buffer of an inode block, between bread and brelse. */
  class Buffer {
    const data: array<Byte>

    constructor (b: Block)
      ensures data.Length == BSIZE && data[..] == b && fresh(data)
    {
      data := new Byte[BSIZE](i requires 0 <= i < BSIZE => b[i]);
      new;
      assert data[..] == b;
    }

    /** A store of the bytes `s`, one after the other. */
    method Store(at: nat, s: seq<Byte>)
      requires at + |s| <= data.Length
      modifies data
      ensures data[..] == Put(old(data[..]), at, s)
    {
      for j := 0 to |s|
        invariant data[..] == Put(old(data[..]), at, s[..j])
      {
        PutOne(old(data[..]), at, s, j);
        ghost var was := data[..];
        data[at + j] := s[j];
        assert data[..] == was[at + j := s[j]];
      }
      assert s[..|s|] == s;
    }

    method StoreShort(at: nat, x: Short)
      requires at + 2 <= data.Length
      modifies data
      ensures data[..] == Put(old(data[..]), at, ShortBytes(x))
    {
      Store(at, ShortBytes(x));
    }

    /** The part of iupdate between bread and log_write: the fields of record `k`
        one by one, and then the block map. */
    method Iupdate(k: nat, ip: Dinode)
      requires data.Length == BSIZE && k < IPB
      modifies data
      ensures data[..] == PutRecord(old(data[..]), k, ip)
    {
      hide ShortBytes, WordBytes, WordsBytes, Put;
      ghost var b, at := data[..], RECORD * k;
      var p := RECORD * k;
      StoreShort(p, ip.typ);
      StoreShort(p + 2, ip.major);
      PutTwice(b, at, ShortBytes(ip.typ), ShortBytes(ip.major));
      StoreShort(p + 4, ip.minor);
      PutTwice(b, at, ShortBytes(ip.typ) + ShortBytes(ip.major), ShortBytes(ip.minor));
      StoreShort(p + 6, ip.nlink);
      PutTwice(b, at, ShortBytes(ip.typ) + ShortBytes(ip.major) + ShortBytes(ip.minor), ShortBytes(ip.nlink));
      Store(p + 8, WordBytes(ip.size));
      ghost var fields := ShortBytes(ip.typ) + ShortBytes(ip.major) + ShortBytes(ip.minor) + ShortBytes(ip.nlink);
      PutTwice(b, at, fields, WordBytes(ip.size));
      Store(p + 12, WordsBytes(ip.addrs));
      PutTwice(b, at, fields + WordBytes(ip.size), WordsBytes(ip.addrs));
    }

    method LoadShort(at: nat) returns (x: Short)
      requires at + 2 <= data.Length
      ensures x == ShortOf(data[at..at + 2])
    {
      var u := data[at] as int + 0x100 * (data[at + 1] as int);
      x := if u < 0x8000 then u else u - 0x1_0000;
    }

    method LoadWord(at: nat) returns (w: Word)
      requires at + 4 <= data.Length
      ensures w == WordOf(data[at..at + 4])
    {
      w := data[at] as int + 0x100 * (data[at + 1] as int) + 0x1_0000 * (data[at + 2] as int)
           + 0x100_0000 * (data[at + 3] as int);
    }

    /** The part of ilock between bread and brelse: the fields of record `k` one by
        one, and then the block map. It undoes iupdate: the bytes that iupdate
        stores for the result are the bytes there. */
    method Ilock(k: nat) returns (ip: Dinode)
      requires data.Length == BSIZE && k < IPB
      ensures PutRecord(data[..], k, ip) == data[..]
      ensures forall b: Block, d | data[..] == PutRecord(b, k, d) :: ip == d
    {
      var p := RECORD * k;
      var typ := LoadShort(p);
      var major := LoadShort(p + 2);
      var minor := LoadShort(p + 4);
      var nlink := LoadShort(p + 6);
      var size := LoadWord(p + 8);
      var addrs: seq<Word> := [];
      hide ShortOf, WordOf;
      while |addrs| < NDIRECT + 1
        invariant |addrs| <= NDIRECT + 1
        invariant forall j: nat | j < |addrs| :: addrs[j] == WordOf(data[p + 12 + 4 * j..p + 16 + 4 * j])
      {
        var a := LoadWord(p + 12 + 4 * |addrs|);
        addrs := addrs + [a];
      }
      ip := Dinode(typ, major, minor, nlink, size, addrs);
      FieldsRead(data[..], k, ip);
      RecordThere(data[..], k);
    }
  }

  lemma FieldsRead(b: Block, k: nat, ip: Dinode)
    requires k < IPB
    requires var p := RECORD * k;
      && ip.typ == ShortOf(b[p..p + 2]) && ip.major == ShortOf(b[p + 2..p + 4])
      && ip.minor == ShortOf(b[p + 4..p + 6]) && ip.nlink == ShortOf(b[p + 6..p + 8])
      && ip.size == WordOf(b[p + 8..p + 12])
      && forall j: nat | j < NDIRECT + 1 :: ip.addrs[j] == WordOf(b[p + 12 + 4 * j..p + 16 + 4 * j])
    ensures ip == RecordAt(b, k)
  {
    hide ShortOf, WordOf;
    var p := RECORD * k;
    Subslice(b, p, p + RECORD, 0, 2);
    Subslice(b, p, p + RECORD, 2, 4);
    Subslice(b, p, p + RECORD, 4, 6);
    Subslice(b, p, p + RECORD, 6, 8);
    Subslice(b, p, p + RECORD, 8, 12);
    forall j: nat | j < NDIRECT + 1 ensures ip.addrs[j] == RecordAt(b, k).addrs[j] {
      Subslice(b, p, p + RECORD, 12 + 4 * j, 16 + 4 * j);
    }
    assert ip.addrs == RecordAt(b, k).addrs;
  }

  // ---- The table of inodes ----

  function KindCode(k: Kind): Short {
    match k
    case Free => 0
    case Dir => 1
    case File => 2
  }

  /** The record stands for the inode; files have no device numbers. */
  predicate Stands(d: Dinode, ip: Inode) {
    d.typ == KindCode(ip.kind) && d.nlink == ip.nlink && d.size == ip.size && d.addrs == ip.addrs
  }

  /** The inode's numbers fit the fields of a record. */
  predicate Fits(ip: Inode) {
    && -0x8000 <= ip.nlink < 0x8000 && ip.size < 0x1_0000_0000 && |ip.addrs| == NDIRECT + 1
    && forall j | 0 <= j < NDIRECT + 1 :: ip.addrs[j] < 0x1_0000_0000
  }

  function Fields(ip: Inode): (d: Dinode)
    requires Fits(ip)
    ensures Stands(d, ip)
  {
    var addrs: seq<Word> := seq(NDIRECT + 1, j requires 0 <= j < NDIRECT + 1 => ip.addrs[j]);
    assert addrs == ip.addrs;
    Dinode(KindCode(ip.kind), 0, 0, ip.nlink, ip.size, addrs)
  }

  /** The bytes of a stored inode: the type as in stat.h, no device, and the other
      numbers low byte first; the bytes of other records are kept. */
  lemma StoredBytes(b: Block, k: nat, ip: Inode)
    requires k < IPB && Fits(ip)
    ensures var c, p := PutRecord(b, k, Fields(ip)), RECORD * k;
      && c[p..p + 6] == [match ip.kind case Free => 0 case Dir => 1 case File => 2, 0, 0, 0, 0, 0]
      && (ip.nlink - (c[p + 6] as int + 256 * (c[p + 7] as int))) % 0x1_0000 == 0
      && ip.size == GetWord(c, 16 * k + 2)
      && (forall j: nat | j < NDIRECT + 1 :: ip.addrs[j] == GetWord(c, 16 * k + 3 + j))
      && c[..p] == b[..p] && c[p + RECORD..] == b[p + RECORD..]
  {
    var d, c := Fields(ip), PutRecord(b, k, Fields(ip));
    assert c[RECORD * k..RECORD * k + RECORD] == Bytes(d);
    hide Bytes, GetWord, Fits;
    FieldsInBytes(c, k, d);
    NumbersInBytes(c, k, d);
  }

  lemma FieldsInBytes(c: Block, k: nat, d: Dinode)
    requires k < IPB && c[RECORD * k..RECORD * k + RECORD] == Bytes(d)
    requires d.major == 0 && d.minor == 0 && 0 <= d.typ < 256
    ensures c[RECORD * k..RECORD * k + 6] == [d.typ, 0, 0, 0, 0, 0]
  {
    hide Bytes, WordsBytes, WordBytes, ShortBytes;
    var p, s := RECORD * k, Bytes(d);
    BytesLayout(d);
    FieldBytes(d.typ, d.nlink);
    Subslice(c, p, p + RECORD, 0, 6);
    assert s[0..6] == s[0..2] + s[2..4] + s[4..6];
  }

  lemma NumbersInBytes(c: Block, k: nat, d: Dinode)
    requires k < IPB && c[RECORD * k..RECORD * k + RECORD] == Bytes(d)
    ensures var p := RECORD * k;
      && (0 <= d.typ < 256 ==> c[p] == d.typ && c[p + 1] == 0)
      && (d.nlink - (c[p + 6] as int + 256 * (c[p + 7] as int))) % 0x1_0000 == 0
      && d.size == GetWord(c, 16 * k + 2)
      && forall j: nat | j < NDIRECT + 1 :: d.addrs[j] == GetWord(c, 16 * k + 3 + j)
  {
    hide Bytes, WordsBytes, WordBytes, ShortBytes, GetWord;
    var p, s := RECORD * k, Bytes(d);
    BytesLayout(d);
    FieldBytes(d.typ, d.nlink);
    Subslice(c, p, p + RECORD, 0, 2);
    Subslice(c, p, p + RECORD, 6, 8);
    Subslice(c, p, p + RECORD, 8, 12);
    assert [c[p], c[p + 1]] == c[p..p + 2] && [c[p + 6], c[p + 7]] == c[p + 6..p + 8];
    WordInBytes(c, 16 * k + 2, d.size);
    forall j: nat | j < NDIRECT + 1 ensures d.addrs[j] == GetWord(c, 16 * k + 3 + j) {
      Subslice(c, p, p + RECORD, 12 + 4 * j, 16 + 4 * j);
      WordInBytes(c, 16 * k + 3 + j, d.addrs[j]);
    }
  }

  lemma BytesLayout(d: Dinode)
    ensures var s := Bytes(d);
      && s[0..2] == ShortBytes(d.typ) && s[2..4] == ShortBytes(d.major) && s[4..6] == ShortBytes(d.minor)
      && s[6..8] == ShortBytes(d.nlink) && s[8..12] == WordBytes(d.size)
      && forall j: nat | j < NDIRECT + 1 :: s[12 + 4 * j..16 + 4 * j] == WordBytes(d.addrs[j])
  {
    var s := Bytes(d);
    hide WordsBytes, WordBytes, ShortBytes;
    forall j: nat | j < NDIRECT + 1 ensures s[12 + 4 * j..16 + 4 * j] == WordBytes(d.addrs[j]) {
      WordsBytesAt(d.addrs, j);
      assert s[12 + 4 * j..16 + 4 * j] == WordsBytes(d.addrs)[4 * j..4 * j + 4];
    }
  }

  /** An inode that a record stands for, byte by byte. */
  lemma StandsInBytes(x: Block, k: nat, ip: Inode)
    requires k < IPB && Stands(RecordAt(x, k), ip)
    ensures var p := RECORD * k;
      && x[p] == (match ip.kind case Free => 0 case Dir => 1 case File => 2) && x[p + 1] == 0
      && (ip.nlink - (x[p + 6] as int + 256 * (x[p + 7] as int))) % 0x1_0000 == 0
      && ip.size == GetWord(x, 16 * k + 2)
      && |ip.addrs| == NDIRECT + 1 && forall j: nat | j < NDIRECT + 1 :: ip.addrs[j] == GetWord(x, 16 * k + 3 + j)
  {
    var d := RecordAt(x, k);
    BytesRoundTrip(x[RECORD * k..RECORD * k + RECORD]);
    assert Bytes(d) == x[RECORD * k..RECORD * k + RECORD];
    hide RecordAt, Bytes, GetWord;
    NumbersInBytes(x, k, d);
  }

  lemma FieldBytes(typ: Short, nlink: Short)
    ensures ShortBytes(0) == [0, 0] && (0 <= typ < 256 ==> ShortBytes(typ) == [typ, 0])
    ensures (nlink - (ShortBytes(nlink)[0] as int + 256 * (ShortBytes(nlink)[1] as int))) % 0x1_0000 == 0
  {
  }

  lemma WordInBytes(c: Block, i: nat, w: Word)
    requires i < WORDS && c[4 * i..4 * i + 4] == WordBytes(w)
    ensures GetWord(c, i) == w
  {
    BytesOfWord(w);
    assert forall j | 0 <= j < 4 :: c[4 * i + j] == WordBytes(w)[j];
  }

  /** The inode blocks of `d` hold the inodes. */
  predicate HoldsInodes(sb: Super, d: Image, inodes: seq<Inode>) {
    forall i: nat | i < |inodes| :: IBlock(sb, i) < |d| && Stands(RecordAt(d[IBlock(sb, i)], i % IPB), inodes[i])
  }

  lemma OtherRecord(i: nat, j: nat)
    requires i != j && i / IPB == j / IPB
    ensures i % IPB != j % IPB
  {
  }

  /** The disk after iupdate of inode `i`. */
  function Updated(sb: Super, d: Image, i: nat, ip: Inode): (r: Image)
    requires IBlock(sb, i) < |d| && Fits(ip)
    ensures |r| == |d| && forall b: nat | b < |d| && b != IBlock(sb, i) :: r[b] == d[b]
  {
    d[IBlock(sb, i) := PutRecord(d[IBlock(sb, i)], i % IPB, Fields(ip))]
  }

  /** iupdate of inode `i` stores that inode and no other: the inode blocks then
      hold the table with `ip` in place `i`, which is what ilock reads back. */
  lemma IupdateTable(sb: Super, d: Image, inodes: seq<Inode>, i: nat, ip: Inode)
    requires HoldsInodes(sb, d, inodes) && i < |inodes| && Fits(ip)
    ensures IBlock(sb, i) < |d| && HoldsInodes(sb, Updated(sb, d, i, ip), inodes[i := ip])
  {
    hide RecordAt, PutRecord, Stands;
    var ib := IBlock(sb, i);
    var d' := Updated(sb, d, i, ip);
    PutRecordAt(d[ib], i % IPB, Fields(ip));
    forall j: nat | j < |inodes|
      ensures IBlock(sb, j) < |d'| && Stands(RecordAt(d'[IBlock(sb, j)], j % IPB), inodes[i := ip][j])
    {
      if j != i && IBlock(sb, j) == ib {
        OtherRecord(i, j);
      }
    }
  }
}
