/** Directories (`fs.c`): files of 16-byte entries that act as finite maps from
    names, cut off at 14 bytes, to inode numbers. */
module Directory {
  import opened Disk
  import opened Bitmap
  import opened FileSystem

  const DIRSIZ: nat := 14
  const ENTRY: nat := 16

  /** A C string without its terminator. */
  type Name = s: seq<Byte> | forall k | 0 <= k < |s| :: s[k] != 0

  function At(s: seq<Byte>, k: nat): Byte {
    if k < |s| then s[k] else 0
  }

  /** The part of a name that directories keep. */
  function Key(s: Name): Name {
    if |s| <= DIRSIZ then s else s[..DIRSIZ]
  }

  /** The C string at the start of a buffer. */
  function CString(t: seq<Byte>): Name {
    if t == [] || t[0] == 0 then [] else [t[0]] + CString(t[1..])
  }

  // ---- Comparing and copying names ----

  lemma {:induction false} CStringAt(t: seq<Byte>)
    ensures |CString(t)| <= |t| && CString(t) == t[..|CString(t)|]
    ensures |CString(t)| < |t| ==> t[|CString(t)|] == 0
  {
    if t != [] && t[0] != 0 {
      var c := CString(t[1..]);
      CStringAt(t[1..]);
      assert CString(t) == [t[0]] + c;
      assert [t[0]] + c == t[..1 + |c|];
      assert 1 + |c| < |t| ==> t[1 + |c|] == t[1..][|c|];
    } else {
      assert CString(t) == [] == t[..0];
    }
  }

  /** namecmp: the two names agree as far as directories keep them. */
  method NameCmp(s: Name, t: seq<Byte>) returns (differ: bool)
    requires |t| == DIRSIZ
    ensures !differ <==> Key(s) == CString(t)
  {
    CStringAt(t);
    var n, k := DIRSIZ, 0;
    while n > 0 && At(s, k) != 0 && At(s, k) == At(t, k)
      invariant n + k == DIRSIZ && k <= |s| && k <= |CString(t)| <= |t|
      invariant s[..k] == t[..k]
      decreases n
    {
      n, k := n - 1, k + 1;
    }
    var c := CString(t);
    if n == 0 {
      assert c == t && Key(s) == s[..DIRSIZ];
      return false;
    }
    differ := At(s, k) != At(t, k);
    if !differ {
      assert |s| == k && |c| == k;
    }
  }

  function Padded(s: Name): (r: seq<Byte>)
    ensures |r| == DIRSIZ
  {
    Key(s) + seq(DIRSIZ - |Key(s)|, _ => 0)
  }

  lemma {:induction false} CStringOfPadding(s: Name, n: nat)
    ensures CString(s + seq(n, _ => 0)) == s
  {
    var t: seq<Byte> := s + seq(n, _ => 0);
    if s != [] {
      CStringOfPadding(s[1..], n);
      assert t[1..] == s[1..] + seq(n, _ => 0);
    }
  }

  /** What strncpy stores is read back as the name it was given. */
  lemma PaddedReadsBack(s: Name)
    ensures CString(Padded(s)) == Key(s)
  {
    CStringOfPadding(Key(s), DIRSIZ - |Key(s)|);
  }

  method StrNCpy(s: Name) returns (r: seq<Byte>)
    ensures r == Padded(s)
  {
    r := [];
    var n, k := DIRSIZ as int, 0;
    var copying := true;
    while n > 0 && copying
      invariant 0 <= n <= DIRSIZ && |r| == DIRSIZ - n
      invariant copying ==> k == |r| <= |s| && r == s[..k]
      invariant !copying ==> k == |s| + 1 == |r| && r == s + [0]
      decreases n, copying
    {
      n := n - 1;
      r := r + [At(s, k)];
      copying := At(s, k) != 0;
      k := k + 1;
    }
    while n > 0
      invariant 0 <= n <= DIRSIZ && |r| == DIRSIZ - n
      invariant n > 0 || !copying ==> |s| < |r| && r == s + seq(|r| - |s|, _ => 0)
      invariant copying && n == 0 ==> r == Key(s)
    {
      n := n - 1;
      r := r + [0];
    }
  }

  // ---- Entries ----

  datatype Dirent = Dirent(inum: nat, name: seq<Byte>)

  function Decode(b: seq<Byte>): (d: Dirent)
    requires |b| == ENTRY
    ensures |d.name| == DIRSIZ
  {
    Dirent(b[0] as int + 256 * (b[1] as int), b[2..])
  }

  function Encode(inum: nat, name: Name): (b: seq<Byte>)
    requires inum < 0x1_0000
    ensures |b| == ENTRY
  {
    [inum % 256, inum / 256] + Padded(name)
  }

  lemma EncodeIs(inum: nat, name: Name)
    requires inum < 0x1_0000
    ensures Encode(inum, name) == [inum % 256, inum / 256] + Padded(name)
  {
  }

  lemma EntryRoundTrip(inum: nat, name: Name)
    requires inum < 0x1_0000
    ensures Decode(Encode(inum, name)).inum == inum
    ensures CString(Decode(Encode(inum, name)).name) == Key(name)
  {
    PaddedReadsBack(name);
    assert Encode(inum, name)[2..] == Padded(name);
  }

  function EntryAt(c: seq<Byte>, k: nat): Dirent
    requires (k + 1) * 16 <= |c|
  {
    Decode(c[16 * k..16 * k + 16])
  }

  /** Where an entry's number and name are. */
  lemma EntryBytes(c: seq<Byte>, k: nat)
    requires (k + 1) * 16 <= |c|
    ensures EntryAt(c, k).inum == c[16 * k] as int + 256 * (c[16 * k + 1] as int)
    ensures EntryAt(c, k).name == c[16 * k + 2..16 * k + 16]
  {
  }

  /** The map that the first `n` entries stand for. */
  function DirMap(c: seq<Byte>, n: nat): map<Name, nat>
    requires n * 16 <= |c|
  {
    if n == 0 then map[]
    else if EntryAt(c, n - 1).inum == 0 then DirMap(c, n - 1)
    else DirMap(c, n - 1)[CString(EntryAt(c, n - 1).name) := EntryAt(c, n - 1).inum]
  }

  /** No two entries in use have the same name. */
  ghost predicate UniqueNames(c: seq<Byte>) {
    forall j: nat, k: nat | j < k && (k + 1) * 16 <= |c|
                            && EntryAt(c, j).inum != 0 && EntryAt(c, k).inum != 0 ::
      CString(EntryAt(c, j).name) != CString(EntryAt(c, k).name)
  }

  ghost predicate IsDirectory(sb: Super, f: Fs, dp: nat) {
    && Good(sb, f) && dp < |f.inode| && f.inode[dp].kind.Dir?
    && f.inode[dp].size % 16 == 0 && UniqueNames(Contents(sb, f, dp))
  }

  /** The directory as a finite map. */
  ghost function Names(sb: Super, f: Fs, dp: nat): map<Name, nat>
    requires IsDirectory(sb, f, dp)
  {
    DirMap(Contents(sb, f, dp), |Contents(sb, f, dp)| / 16)
  }

  /** The map holds exactly the entries in use. */
  lemma {:induction false} DirMapHolds(c: seq<Byte>, n: nat)
    requires n * 16 <= |c| && UniqueNames(c)
    ensures forall k: nat | k < n && EntryAt(c, k).inum != 0 ::
              CString(EntryAt(c, k).name) in DirMap(c, n)
              && DirMap(c, n)[CString(EntryAt(c, k).name)] == EntryAt(c, k).inum
    ensures forall x | x in DirMap(c, n) ::
              exists k: nat :: k < n && EntryAt(c, k).inum != 0 && CString(EntryAt(c, k).name) == x
  {
    hide Decode, CString;
    if n > 0 {
      DirMapHolds(c, n - 1);
      forall x | x in DirMap(c, n)
        ensures exists k: nat :: k < n && EntryAt(c, k).inum != 0 && CString(EntryAt(c, k).name) == x
      {
        if x in DirMap(c, n - 1) {
          var k: nat :| k < n - 1 && EntryAt(c, k).inum != 0 && CString(EntryAt(c, k).name) == x;
        } else {
          assert CString(EntryAt(c, n - 1).name) == x;
        }
      }
    }
  }

  /** `slot` is the position of the entry; its byte offset is 16 times that. */
  datatype Lookup = Found(inum: nat, slot: nat) | Absent

  ghost predicate Answers(c: seq<Byte>, m: map<Name, nat>, key: Name, r: Lookup) {
    match r
    case Found(inum, slot) =>
      && key in m && m[key] == inum
      && (slot + 1) * 16 <= |c| && EntryAt(c, slot).inum == inum
      && CString(EntryAt(c, slot).name) == key
    case Absent => key !in m
  }

  /** No entry before the `n`th is in use under the name `key`. */
  ghost predicate NotBefore(c: seq<Byte>, key: Name, n: nat)
    requires n * 16 <= |c|
  {
    forall k: nat | k < n && EntryAt(c, k).inum != 0 :: CString(EntryAt(c, k).name) != key
  }

  lemma NoneBefore(c: seq<Byte>, key: Name)
    ensures NotBefore(c, key, 0)
  {
  }

  lemma NextNotBefore(c: seq<Byte>, key: Name, n: nat)
    requires (n + 1) * 16 <= |c| && NotBefore(c, key, n)
    requires EntryAt(c, n).inum != 0 ==> CString(EntryAt(c, n).name) != key
    ensures NotBefore(c, key, n + 1)
  {
  }

  lemma Found1(c: seq<Byte>, key: Name, n: nat)
    requires |c| % 16 == 0 && (n + 1) * 16 <= |c| && UniqueNames(c)
    requires EntryAt(c, n).inum != 0 && CString(EntryAt(c, n).name) == key
    ensures Answers(c, DirMap(c, |c| / 16), key, Found(EntryAt(c, n).inum, n))
  {
    hide Decode, CString;
    DirMapHolds(c, |c| / 16);
  }

  lemma NotFound(c: seq<Byte>, key: Name)
    requires |c| % 16 == 0 && UniqueNames(c) && NotBefore(c, key, |c| / 16)
    ensures Answers(c, DirMap(c, |c| / 16), key, Absent)
  {
    hide Decode, CString;
    DirMapHolds(c, |c| / 16);
  }

  /** The bytes of one entry, read from the file. */
  method ReadEntry(fs: FileSystem, dp: nat, k: nat) returns (de: Dirent)
    requires fs.Valid() && dp < |fs.inode| && (k + 1) * 16 <= fs.inode[dp].size
    modifies fs
    ensures fs.S() == old(fs.S())
    ensures de == EntryAt(Contents(fs.sb, fs.S(), dp), k)
  {
    SizeBound(fs.sb, fs.S(), dp);
    hide InUse, GetWord, Slot, SlotOf, Contents, Good, Decode;
    var b := fs.ReadI(dp, 16 * k, 16);
    de := Decode(b.value);
  }

  /** dirlookup: what the map holds under the name, and where. */
  method DirLookup(fs: FileSystem, dp: nat, name: Name) returns (r: Lookup)
    requires fs.Valid() && IsDirectory(fs.sb, fs.S(), dp)
    modifies fs
    ensures fs.S() == old(fs.S())
    ensures Answers(Contents(fs.sb, fs.S(), dp), Names(fs.sb, fs.S(), dp), Key(name), r)
  {
    ghost var f := fs.S();
    ghost var c := Contents(fs.sb, f, dp);
    SizeBound(fs.sb, f, dp);
    hide InUse, GetWord, Slot, SlotOf, Contents, Good, Decode, CString, Key, DirMap, UniqueNames, Answers,
         NotBefore, EntryAt;
    NoneBefore(c, Key(name));
    var k := 0;
    while k * 16 < fs.inode[dp].size
      invariant fs.S() == f && k * 16 <= |c| && NotBefore(c, Key(name), k)
      decreases |c| - k * 16
    {
      var de := ReadEntry(fs, dp, k);
      if de.inum != 0 {
        var differ := NameCmp(name, de.name);
        if !differ {
          Found1(c, Key(name), k);
          return Found(de.inum, k);
        }
      }
      NextNotBefore(c, Key(name), k);
      k := k + 1;
    }
    NotFound(c, Key(name));
    return Absent;
  }

  /** `d` is `c` with entry `k`, free or just past the end, replaced. */
  ghost predicate Replaced(c: seq<Byte>, d: seq<Byte>, k: nat) {
    && |c| % 16 == 0 && |d| % 16 == 0 && k * 16 <= |c| && (k + 1) * 16 <= |d|
    && |d| == (if k * 16 == |c| then |c| + 16 else |c|)
    && (k * 16 < |c| ==> EntryAt(c, k).inum == 0)
    && forall j: nat | (j + 1) * 16 <= |c| && j != k :: EntryAt(d, j) == EntryAt(c, j)
  }

  lemma OverwriteEntry(c: seq<Byte>, k: nat, e: seq<Byte>)
    requires |c| % 16 == 0 && k * 16 <= |c| && |e| == 16
    requires k * 16 < |c| ==> EntryAt(c, k).inum == 0
    ensures var d := Overwritten(c, 16 * k, e);
            Replaced(c, d, k) && EntryAt(d, k) == Decode(e)
  {
    hide Decode;
    var d := Overwritten(c, 16 * k, e);
    assert d[16 * k..16 * k + 16] == e;
    forall j: nat | (j + 1) * 16 <= |c| && j != k ensures EntryAt(d, j) == EntryAt(c, j) {
      assert d[16 * j..16 * j + 16] == c[16 * j..16 * j + 16];
    }
  }

  lemma {:induction false} LinkMap(c: seq<Byte>, d: seq<Byte>, k: nat, key: Name, inum: nat, n: nat)
    requires Replaced(c, d, k) && n * 16 <= |d| && inum != 0
    requires EntryAt(d, k).inum == inum && CString(EntryAt(d, k).name) == key
    requires NotBefore(c, key, |c| / 16)
    ensures n <= k ==> n * 16 <= |c| && DirMap(d, n) == DirMap(c, n)
    ensures n > k ==> DirMap(d, n) == DirMap(c, if n * 16 <= |c| then n else n - 1)[key := inum]
  {
    hide Decode, CString, EntryAt;
    if n > 0 {
      LinkMap(c, d, k, key, inum, n - 1);
      if n - 1 != k {
        assert EntryAt(d, n - 1) == EntryAt(c, n - 1);
      }
    }
  }

  lemma LinkUnique(c: seq<Byte>, d: seq<Byte>, k: nat, key: Name)
    requires Replaced(c, d, k) && UniqueNames(c) && NotBefore(c, key, |c| / 16)
    requires CString(EntryAt(d, k).name) == key
    ensures UniqueNames(d)
  {
    hide Decode, CString, EntryAt;
    forall i: nat, j: nat | i < j && (j + 1) * 16 <= |d|
                            && EntryAt(d, i).inum != 0 && EntryAt(d, j).inum != 0
      ensures CString(EntryAt(d, i).name) != CString(EntryAt(d, j).name)
    {
      if i != k {
        assert (i + 1) * 16 <= |c| && EntryAt(d, i) == EntryAt(c, i);
      }
      if j != k {
        assert (j + 1) * 16 <= |c| && EntryAt(d, j) == EntryAt(c, j);
      }
    }
  }

  /** Entering a name that is absent, in a free slot or at the end: the map gains
      that name, and names stay unique. */
  lemma LinkEntry(c: seq<Byte>, k: nat, inum: nat, name: Name)
    requires |c| % 16 == 0 && k * 16 <= |c| && 0 < inum < 0x1_0000 && UniqueNames(c)
    requires k * 16 < |c| ==> EntryAt(c, k).inum == 0
    requires Key(name) !in DirMap(c, |c| / 16)
    ensures var d := Overwritten(c, 16 * k, Encode(inum, name));
      && |d| % 16 == 0 && UniqueNames(d)
      && DirMap(d, |d| / 16) == DirMap(c, |c| / 16)[Key(name) := inum]
  {
    hide Decode, CString, EntryAt, Encode, Overwritten, Key, DirMap;
    DirMapHolds(c, |c| / 16);
    OverwriteEntry(c, k, Encode(inum, name));
    EntryRoundTrip(inum, name);
    var d := Overwritten(c, 16 * k, Encode(inum, name));
    LinkUnique(c, d, k, Key(name));
    LinkMap(c, d, k, Key(name), inum, |d| / 16);
  }

  /** A name in the map comes from an entry, and an entry both contents share
      gives both maps its name. */
  lemma SharedEntry(c: seq<Byte>, d: seq<Byte>, n: nat, x: Name) returns (j: nat)
    requires n * 16 <= |c| && n * 16 <= |d| && UniqueNames(c) && UniqueNames(d) && x in DirMap(c, n)
    ensures j < n && EntryAt(c, j).inum != 0 && CString(EntryAt(c, j).name) == x
    ensures DirMap(c, n)[x] == EntryAt(c, j).inum
    ensures EntryAt(d, j) == EntryAt(c, j) ==> x in DirMap(d, n) && DirMap(d, n)[x] == DirMap(c, n)[x]
  {
    hide Decode, CString, EntryAt, DirMap;
    DirMapHolds(c, n);
    DirMapHolds(d, n);
    j :| 0 <= j < n && EntryAt(c, j).inum != 0 && CString(EntryAt(c, j).name) == x;
  }

  /** Clearing an entry in use: the map loses that name and no other. */
  lemma UnlinkEntry(c: seq<Byte>, k: nat)
    requires |c| % 16 == 0 && (k + 1) * 16 <= |c| && UniqueNames(c) && EntryAt(c, k).inum != 0
    ensures var d := Overwritten(c, 16 * k, seq(16, _ => 0));
      && |d| == |c| && UniqueNames(d)
      && DirMap(d, |d| / 16) == DirMap(c, |c| / 16) - {CString(EntryAt(c, k).name)}
  {
    var d := Overwritten(c, 16 * k, seq(16, _ => 0));
    Cleared(c, k);
    ClearedMap(c, d, k, |c| / 16);
  }

  lemma ClearedMap(c: seq<Byte>, d: seq<Byte>, k: nat, n: nat)
    requires k < n && n * 16 <= |c| && n * 16 <= |d| && UniqueNames(c) && UniqueNames(d)
    requires EntryAt(c, k).inum != 0 && EntryAt(d, k).inum == 0
    requires forall j: nat | j < n && j != k :: EntryAt(d, j) == EntryAt(c, j)
    ensures DirMap(d, n) == DirMap(c, n) - {CString(EntryAt(c, k).name)}
  {
    hide Decode, CString, EntryAt, DirMap;
    var m, m', gone := DirMap(c, n), DirMap(d, n), CString(EntryAt(c, k).name);
    forall x | x in m' ensures x in m && m[x] == m'[x] && x != gone {
      var j := SharedEntry(d, c, n, x);
    }
    forall x | x in m && x != gone ensures x in m' {
      var j := SharedEntry(c, d, n, x);
    }
  }

  lemma Cleared(c: seq<Byte>, k: nat)
    requires |c| % 16 == 0 && (k + 1) * 16 <= |c| && UniqueNames(c)
    ensures var d := Overwritten(c, 16 * k, seq(16, _ => 0));
      && |d| == |c| && UniqueNames(d) && EntryAt(d, k).inum == 0
      && forall j: nat | (j + 1) * 16 <= |c| && j != k :: EntryAt(d, j) == EntryAt(c, j)
  {
    var d := Overwritten(c, 16 * k, seq(16, _ => 0));
    forall j: nat | (j + 1) * 16 <= |c| && j != k ensures EntryAt(d, j) == EntryAt(c, j) {
      assert d[16 * j..16 * j + 16] == c[16 * j..16 * j + 16];
    }
    assert d[16 * k] == 0 && d[16 * k + 1] == 0;
    hide Decode, CString;
  }

  datatype LinkResult = Linked | Present | LinkPanicked

  /** What a successful dirlink does to the directory, and to nothing else. */
  ghost predicate LinkDone(sb: Super, f: Fs, g: Fs, dp: nat, key: Name, inum: nat)
    requires IsDirectory(sb, f, dp)
  {
    && IsDirectory(sb, g, dp) && |g.inode| == |f.inode|
    && key !in Names(sb, f, dp) && Names(sb, g, dp) == Names(sb, f, dp)[key := inum]
    && g.inode[dp].kind == f.inode[dp].kind && Logs(sb, f, g)
    && forall j: nat | j < |f.inode| && j != dp ::
         g.inode[j] == f.inode[j] && Contents(sb, g, j) == Contents(sb, f, j)
  }

  lemma WriteDoneContents(sb: Super, f: Fs, g: Fs, i: nat, off: nat, src: seq<Byte>)
    requires Good(sb, f) && i < |f.inode| && off <= f.inode[i].size && WriteDone(sb, f, g, i, off, src)
    ensures Good(sb, g) && |g.inode| == |f.inode| && g.inode[i].kind == f.inode[i].kind
    ensures Contents(sb, g, i) == Overwritten(Contents(sb, f, i), off, src) && Logs(sb, f, g)
    ensures forall j: nat | j < |f.inode| && j != i ::
              g.inode[j] == f.inode[j] && Contents(sb, g, j) == Contents(sb, f, j)
  {
    WriteDoneLogs(sb, f, g, i, off, src);
    hide InUse, GetWord, Slot, SlotOf, BitsMatch, SlotsOwned, NoHoles, Footprint, NewSlots, Overwritten, ChangesOnly,
         Logs;
  }

  lemma EnteredAt(sb: Super, f: Fs, g: Fs, dp: nat, k: nat, inum: nat, name: Name)
    requires IsDirectory(sb, f, dp) && IsDirectory(sb, g, dp) && inum < 0x1_0000
    requires FirstFree(Contents(sb, f, dp), k) && WriteDone(sb, f, g, dp, 16 * k, Encode(inum, name))
    ensures Entered(sb, f, g, dp, name, inum)
  {
    SizeBound(sb, f, dp);
    var c, e := Contents(sb, f, dp), Encode(inum, name);
    hide InUse, GetWord, Slot, SlotOf, Contents, Good, EntryAt, Encode, UniqueNames, Overwritten;
    assert Contents(sb, g, dp) == Overwritten(c, 16 * k, e);
    assert |c| % 16 == 0;
    EntryOver(c, k, e);
  }

  lemma EntryOver(c: seq<Byte>, k: nat, e: seq<Byte>)
    requires |c| % 16 == 0 && k * 16 <= |c| && |e| == 16
    ensures Overwritten(c, 16 * k, e) == c[..16 * k] + e + (if 16 * k < |c| then c[16 * k + 16..] else [])
  {
  }

  lemma WroteName(sb: Super, f: Fs, g: Fs, dp: nat, k: nat, inum: nat, name: Name)
    requires IsDirectory(sb, f, dp) && 0 < inum < 0x1_0000
    requires k * 16 <= |Contents(sb, f, dp)|
    requires k * 16 < |Contents(sb, f, dp)| ==> EntryAt(Contents(sb, f, dp), k).inum == 0
    requires Key(name) !in Names(sb, f, dp)
    requires WriteDone(sb, f, g, dp, 16 * k, Encode(inum, name))
    ensures IsDirectory(sb, g, dp) && LinkDone(sb, f, g, dp, Key(name), inum)
  {
    SizeBound(sb, f, dp);
    SizeBound(sb, g, dp);
    hide InUse, GetWord, Slot, SlotOf, Contents, Good, Decode, CString, Key, DirMap, UniqueNames,
         Encode, EntryAt, WriteDone, Overwritten, Logs;
    WriteDoneContents(sb, f, g, dp, 16 * k, Encode(inum, name));
    LinkEntry(Contents(sb, f, dp), k, inum, name);
  }

  lemma DirectorySize(sb: Super, f: Fs, dp: nat)
    requires IsDirectory(sb, f, dp)
    ensures Good(sb, f) && dp < |f.inode| && |Contents(sb, f, dp)| == f.inode[dp].size <= MAXBYTES
    ensures f.inode[dp].size % 16 == 0
  {
    SizeBound(sb, f, dp);
  }

  lemma WroteEntry(sb: Super, f: Fs, g: Fs, dp: nat, k: nat, inum: nat, name: Name)
    requires IsDirectory(sb, f, dp) && 0 < inum < 0x1_0000
    requires FirstFree(Contents(sb, f, dp), k) && 16 * k <= f.inode[dp].size
    requires Key(name) !in Names(sb, f, dp)
    requires WriteDone(sb, f, g, dp, 16 * k, Encode(inum, name))
    ensures LinkDone(sb, f, g, dp, Key(name), inum) && Entered(sb, f, g, dp, name, inum)
  {
    hide Contents, Good, IsDirectory, Key, Encode, EntryAt, WriteDone, Names, Entered, LinkDone;
    DirectorySize(sb, f, dp);
    WroteName(sb, f, g, dp, k, inum, name);
    hide FirstFree;
    EnteredAt(sb, f, g, dp, k, inum, name);
  }

  /** Where dirlink cannot write, the directory has no entry to spare. */
  lemma NoRoom(sb: Super, f: Fs, dp: nat, k: nat)
    requires IsDirectory(sb, f, dp) && FirstFree(Contents(sb, f, dp), k) && 16 * k <= f.inode[dp].size
    requires Lacks(f, dp, 16 * k, 16) || 16 * k + 16 > MAXBYTES
    ensures NoneFree(Contents(sb, f, dp)) && 16 * k == f.inode[dp].size
  {
    DirectorySize(sb, f, dp);
    LacksNothing(sb, f, dp, 16 * k, 16);
    hide Contents, EntryAt, Good, IsDirectory, Lacks, AllUsed, NoneFree;
    var n := f.inode[dp].size / 16;
    assert f.inode[dp].size == 16 * n && k == n;
    NoneLeft(Contents(sb, f, dp), k);
  }

  /** What clearing entry `k` does to the directory, and to nothing else. */
  ghost predicate UnlinkDone(sb: Super, f: Fs, g: Fs, dp: nat, key: Name)
    requires IsDirectory(sb, f, dp)
  {
    && IsDirectory(sb, g, dp) && |g.inode| == |f.inode|
    && key in Names(sb, f, dp) && Names(sb, g, dp) == Names(sb, f, dp) - {key}
    && forall j: nat | j < |f.inode| && j != dp ::
         g.inode[j] == f.inode[j] && Contents(sb, g, j) == Contents(sb, f, j)
  }

  lemma ClearedEntry(sb: Super, f: Fs, g: Fs, dp: nat, k: nat)
    requires IsDirectory(sb, f, dp) && (k + 1) * 16 <= |Contents(sb, f, dp)|
    requires EntryAt(Contents(sb, f, dp), k).inum != 0
    requires WriteDone(sb, f, g, dp, 16 * k, seq(16, _ => 0))
    ensures UnlinkDone(sb, f, g, dp, CString(EntryAt(Contents(sb, f, dp), k).name))
  {
    var c := Contents(sb, f, dp);
    SizeBound(sb, f, dp);
    SizeBound(sb, g, dp);
    hide InUse, GetWord, Slot, SlotOf, Contents, Good, Decode, CString, DirMap, UniqueNames, EntryAt, WriteDone,
         Overwritten, Logs;
    WriteDoneContents(sb, f, g, dp, 16 * k, seq(16, _ => 0));
    UnlinkEntry(c, k);
    EntryNamed(c, k);
  }

  lemma EntryNamed(c: seq<Byte>, k: nat)
    requires |c| % 16 == 0 && (k + 1) * 16 <= |c| && UniqueNames(c) && EntryAt(c, k).inum != 0
    ensures CString(EntryAt(c, k).name) in DirMap(c, |c| / 16)
  {
    hide Decode, CString, EntryAt;
    DirMapHolds(c, |c| / 16);
  }

  /** Entry `k` is the first not in use, or the place just past the last entry. */
  ghost predicate FirstFree(c: seq<Byte>, k: nat) {
    && AllUsed(c, k) && ((k + 1) * 16 <= |c| ==> EntryAt(c, k).inum == 0)
  }

  ghost predicate AllUsed(c: seq<Byte>, k: nat) {
    k * 16 <= |c| && forall j: nat | j < k :: EntryAt(c, j).inum != 0
  }

  lemma AllUsedNone(c: seq<Byte>)
    ensures AllUsed(c, 0)
  {
  }

  lemma AllUsedEnd(c: seq<Byte>, k: nat)
    requires AllUsed(c, k) && |c| <= 16 * k
    ensures FirstFree(c, k)
  {
  }

  lemma NoneLeft(c: seq<Byte>, k: nat)
    requires AllUsed(c, k) && |c| == 16 * k
    ensures NoneFree(c)
  {
  }

  lemma UsedNext(c: seq<Byte>, k: nat)
    requires AllUsed(c, k) && (k + 1) * 16 <= |c|
    ensures EntryAt(c, k).inum != 0 ==> AllUsed(c, k + 1)
    ensures EntryAt(c, k).inum == 0 ==> FirstFree(c, k)
  {
  }

  ghost predicate NoneFree(c: seq<Byte>) {
    forall k: nat | (k + 1) * 16 <= |c| :: EntryAt(c, k).inum != 0
  }

  /** The bytes of the directory once the entry is in its place: the directory grows
      only when it has no entry to spare. */
  ghost predicate Entered(sb: Super, f: Fs, g: Fs, dp: nat, name: Name, inum: nat)
    requires IsDirectory(sb, f, dp) && IsDirectory(sb, g, dp) && inum < 0x1_0000
  {
    var c, d := Contents(sb, f, dp), Contents(sb, g, dp);
    exists k: nat :: FirstFree(c, k)
      && d == c[..16 * k] + ([inum % 256, inum / 256] + Padded(name)) + (if 16 * k < |c| then c[16 * k + 16..] else [])
  }

  /** dirlink's search for an entry that is not in use. */
  method FreeSlot(fs: FileSystem, dp: nat) returns (k: nat)
    requires fs.Valid() && IsDirectory(fs.sb, fs.S(), dp)
    modifies fs
    ensures fs.S() == old(fs.S())
    ensures FirstFree(Contents(fs.sb, fs.S(), dp), k) && 16 * k <= fs.inode[dp].size
  {
    ghost var f := fs.S();
    ghost var c := Contents(fs.sb, f, dp);
    DirectorySize(fs.sb, f, dp);
    AllUsedNone(c);
    hide Contents, Good, IsDirectory, EntryAt, AllUsed, FirstFree;
    k := 0;
    while k * 16 < fs.inode[dp].size
      invariant fs.S() == f && k * 16 <= |c| && AllUsed(c, k)
      decreases |c| - k * 16
    {
      UsedNext(c, k);
      var de := ReadEntry(fs, dp, k);
      if de.inum == 0 {
        return k;
      }
      k := k + 1;
    }
    AllUsedEnd(c, k);
  }

  /** dirlink: insert if absent. */
  method DirLink(fs: FileSystem, dp: nat, name: Name, inum: nat) returns (r: LinkResult)
    requires fs.Valid() && IsDirectory(fs.sb, fs.S(), dp) && 0 < inum < 0x1_0000
    modifies fs
    ensures r.Present? <==> Key(name) in Names(fs.sb, old(fs.S()), dp)
    ensures r.Present? ==> fs.S() == old(fs.S())
    ensures r.Linked? ==> fs.Valid() && LinkDone(fs.sb, old(fs.S()), fs.S(), dp, Key(name), inum)
    ensures r.Linked? ==> Entered(fs.sb, old(fs.S()), fs.S(), dp, name, inum)
    ensures r.LinkPanicked? ==> Good(fs.sb, fs.S()) && NoneFree(Contents(fs.sb, old(fs.S()), dp))
    ensures r.LinkPanicked? ==>
              || (forall b | 0 <= b < fs.sb.size :: InUse(fs.bitmap, b))
              || old(fs.inode[dp].size) + 16 > MAXBYTES
  {
    ghost var f := fs.S();
    SizeBound(fs.sb, f, dp);
    hide InUse, GetWord, Slot, SlotOf, Contents, Good, Decode, CString, Key, DirMap, UniqueNames,
         Encode, WriteDone, LinkDone, EntryAt, Entered, Lacks, NoneFree, FirstFree, Names;
    var present := DirLookup(fs, dp, name);
    if present.Found? {
      r := Present;
    } else {
      var k := FreeSlot(fs, dp);
      var padded := StrNCpy(name);
      EncodeIs(inum, name);
      var w := fs.WriteI(dp, [inum % 256, inum / 256] + padded, 16 * k);
      if w.Wrote? {
        WroteEntry(fs.sb, f, fs.S(), dp, k, inum, name);
        r := Linked;
      } else {
        NoRoom(fs.sb, f, dp, k);
        r := LinkPanicked;
      }
    }
  }

  lemma SizeBound(sb: Super, f: Fs, i: nat)
    requires Good(sb, f) && i < |f.inode|
    ensures |Contents(sb, f, i)| == f.inode[i].size <= MAXBYTES
  {
  }
}
