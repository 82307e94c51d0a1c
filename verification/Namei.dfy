/** Path resolution (`namex` in `fs.c`): a path leads where following its
    components through the directories, as finite maps, leads. */
module Namei {
  import opened Disk
  import opened FileSystem
  import opened Directory
  import opened Path
  import opened Wrappers

  const ROOTINO: nat := 1

  /** Directories are well formed and name only inodes in use. */
  ghost predicate Tree(sb: Super, f: Fs) {
    && Good(sb, f) && ROOTINO < |f.inode| && !f.inode[ROOTINO].kind.Free?
    && (forall i | 0 <= i < |f.inode| && f.inode[i].kind.Dir? :: IsDirectory(sb, f, i))
    && (forall i, x | 0 <= i < |f.inode| && f.inode[i].kind.Dir? && x in Names(sb, f, i) ::
          Names(sb, f, i)[x] < |f.inode| && !f.inode[Names(sb, f, i)[x]].kind.Free?)
  }

  /** Where the components `elems` lead from inode `ip`. */
  ghost function Resolve(sb: Super, f: Fs, ip: nat, elems: seq<Name>): (r: Option<nat>)
    requires Tree(sb, f) && ip < |f.inode|
    ensures r.Some? ==> r.value < |f.inode|
    decreases |elems|
  {
    if elems == [] then Some(ip)
    else if !f.inode[ip].kind.Dir? || elems[0] !in Names(sb, f, ip) then None
    else Resolve(sb, f, Names(sb, f, ip)[elems[0]], elems[1..])
  }

  /** The directory that is to hold the last component. */
  ghost function ResolveParent(sb: Super, f: Fs, ip: nat, elems: seq<Name>): (r: Option<nat>)
    requires Tree(sb, f) && ip < |f.inode|
  {
    if elems == [] then None
    else
      var r := Resolve(sb, f, ip, elems[..|elems| - 1]);
      if r.Some? && f.inode[r.value].kind.Dir? then r else None
  }

  /** One component taken from the front. */
  lemma ElementsStep(p: Name)
    requires Skip(p).Some?
    ensures Elements(p) == [Skip(p).value.elem] + Elements(Skip(p).value.rest)
    ensures Key(Skip(p).value.elem) == Skip(p).value.elem
    ensures Skip(p).value.rest == [] <==> Elements(Skip(p).value.rest) == []
  {
    SkipShortens(p);
    var q := DropSlashes(p);
    var rest := q[ElemLength(q)..];
    DropSlashesShort(rest);
    if Skip(p).value.rest != [] {
      assert DropSlashes(Skip(p).value.rest) == Skip(p).value.rest;
    }
  }

  lemma NoElements(p: Name)
    requires Skip(p).None?
    ensures Elements(p) == []
  {
  }

  function Last(elems: seq<Name>): Name
    requires elems != []
  {
    elems[|elems| - 1]
  }

  /** What a pass of namex's loop comes to: its return, or the next inode and
      how far the path has been read. */
  datatype Pass = Return(ip: Option<nat>) | Go(next: nat, read: nat)

  /** What is still to be found from inode `ip`. */
  ghost function Target(sb: Super, f: Fs, ip: nat, elems: seq<Name>, parent: bool): Option<nat>
    requires Tree(sb, f) && ip < |f.inode|
  {
    if parent then ResolveParent(sb, f, ip, elems) else Resolve(sb, f, ip, elems)
  }

  lemma TargetEnd(sb: Super, f: Fs, ip: nat, parent: bool)
    requires Tree(sb, f) && ip < |f.inode|
    ensures Target(sb, f, ip, [], parent) == if parent then None else Some(ip)
  {
  }

  lemma TargetLast(sb: Super, f: Fs, ip: nat, elem: Name)
    requires Tree(sb, f) && ip < |f.inode| && f.inode[ip].kind.Dir?
    ensures Target(sb, f, ip, [elem], true) == Some(ip)
  {
    assert [elem][..0] == [];
  }

  lemma TargetFails(sb: Super, f: Fs, ip: nat, elem: Name, after: seq<Name>, parent: bool)
    requires Tree(sb, f) && ip < |f.inode|
    requires !f.inode[ip].kind.Dir? || (elem !in Names(sb, f, ip) && !(parent && after == []))
    ensures Target(sb, f, ip, [elem] + after, parent) == None
  {
  }

  lemma TargetStep(sb: Super, f: Fs, ip: nat, elem: Name, after: seq<Name>, parent: bool)
    requires Tree(sb, f) && ip < |f.inode| && f.inode[ip].kind.Dir? && elem in Names(sb, f, ip)
    requires parent ==> after != []
    ensures Names(sb, f, ip)[elem] < |f.inode|
    ensures Target(sb, f, ip, [elem] + after, parent) == Target(sb, f, Names(sb, f, ip)[elem], after, parent)
  {
    hide Good, Names, IsDirectory;
    var elems := [elem] + after;
    assert elems[1..] == after;
    if parent {
      assert elems[..|elems| - 1] == [elem] + after[..|after| - 1];
      assert elems[..|elems| - 1][1..] == after[..|after| - 1];
    }
  }

  /** One pass of the loop, at inode `ip` with the path `p` still to read. */
  method FollowOne(fs: FileSystem, ip: nat, p: Name, parent: bool, name: array<Byte>) returns (pass: Pass)
    requires fs.Valid() && Tree(fs.sb, fs.S()) && ip < |fs.S().inode| && name.Length == DIRSIZ
    modifies fs, name
    ensures fs.S() == old(fs.S()) && fs.Valid()
    ensures pass.Return? ==>
              && pass.ip == Target(fs.sb, old(fs.S()), ip, Elements(p), parent)
              && (parent && pass.ip.Some? ==> Elements(p) != [] && CString(name[..]) == Last(Elements(p)))
    ensures pass.Go? ==>
              && 0 < pass.read <= |p| && pass.next < |old(fs.S()).inode|
              && Target(fs.sb, old(fs.S()), pass.next, Elements(p[pass.read..]), parent)
                 == Target(fs.sb, old(fs.S()), ip, Elements(p), parent)
              && Elements(p) != []
              && (Elements(p[pass.read..]) != [] ==> Last(Elements(p[pass.read..])) == Last(Elements(p)))
  {
    ghost var sb, f := fs.sb, fs.S();
    var n := SkipElem(p, name);
    if n.None? {
      NoElements(p);
      TargetEnd(sb, f, ip, parent);
      return Return(if parent then None else Some(ip));
    }
    ElementsStep(p);
    SkipShortens(p);
    ghost var elem, after := CString(name[..]), Elements(p[n.value..]);
    assert Elements(p) == [elem] + after && Key(elem) == elem && (after == [] <==> n.value == |p|);
    hide Skip, Elements, CString, Key, DropSlashes;
    if !fs.inode[ip].kind.Dir? {
      TargetFails(sb, f, ip, elem, after, parent);
      return Return(None);
    }
    if parent && n.value == |p| {
      TargetLast(sb, f, ip, elem);
      assert [elem] + after == [elem];
      return Return(Some(ip));
    }
    assert IsDirectory(sb, f, ip);
    hide Good, Contents, DirMap, UniqueNames, Names, IsDirectory, Tree, Target;
    var next := DirLookup(fs, ip, CString(name[..]));
    if next.Absent? {
      TargetFails(sb, f, ip, elem, after, parent);
      return Return(None);
    }
    TargetStep(sb, f, ip, elem, after, parent);
    pass := Go(next.inum, n.value);
  }

  /** The loop itself. */
  method FollowAll(fs: FileSystem, start: nat, p: Name, parent: bool, name: array<Byte>) returns (r: Option<nat>)
    requires fs.Valid() && Tree(fs.sb, fs.S()) && start < |fs.S().inode| && name.Length == DIRSIZ
    modifies fs, name
    ensures fs.S() == old(fs.S())
    ensures r == Target(fs.sb, old(fs.S()), start, Elements(p), parent)
    ensures parent && r.Some? ==> Elements(p) != [] && CString(name[..]) == Last(Elements(p))
  {
    hide *;
    ghost var f := fs.S();
    assert p[0..] == p;
    var ip: nat, path: nat := start, 0;
    while true
      invariant path <= |p| && ip < |f.inode| && fs.S() == f && fs.Valid()
      invariant Target(fs.sb, f, ip, Elements(p[path..]), parent) == Target(fs.sb, f, start, Elements(p), parent)
      invariant Elements(p[path..]) != [] ==> Elements(p) != [] && Last(Elements(p[path..])) == Last(Elements(p))
      decreases |p| - path
    {
      var pass := FollowOne(fs, ip, p[path..], parent, name);
      if pass.Return? {
        return pass.ip;
      }
      assert p[path..][pass.read..] == p[path + pass.read..];
      ip, path := pass.next, path + pass.read;
    }
  }

  /** namex from inode `cwd` (or the root, for an absolute path); `name` receives
      the components in turn. None is its 0. */
  method NameX(fs: FileSystem, cwd: nat, p: Name, parent: bool, name: array<Byte>) returns (r: Option<nat>)
    requires fs.Valid() && Tree(fs.sb, fs.S()) && cwd < |fs.inode| && name.Length == DIRSIZ
    modifies fs, name
    ensures fs.S() == old(fs.S())
    ensures var start := if p != [] && p[0] == SLASH then ROOTINO else cwd;
      var elems := NonEmpty(Split(p));
      && (!parent ==> r == Resolve(fs.sb, old(fs.S()), start, elems))
      && (parent ==> r == ResolveParent(fs.sb, old(fs.S()), start, elems))
      && (parent && r.Some? ==> elems != [] && CString(name[..]) == elems[|elems| - 1])
  {
    PathComponents(p);
    hide Good, Contents, DirMap, CString, UniqueNames, Elements, NonEmpty, Split, Skip, Resolve, ResolveParent, Names,
         IsDirectory;
    var ip: nat := if At(p, 0) == SLASH then ROOTINO else cwd;
    r := FollowAll(fs, ip, p, parent, name);
  }
}
