/** Path names (`fs.c`): taking a path apart one element at a time. */
module Path {
  import opened Disk
  import opened Directory
  import opened Wrappers

  const SLASH: Byte := 47

  function DropSlashes(p: Name): Name {
    if p != [] && p[0] == SLASH then DropSlashes(p[1..]) else p
  }

  /** The number of bytes before the next slash or the end. */
  function ElemLength(p: Name): (n: nat)
    ensures n <= |p|
  {
    if p == [] || p[0] == SLASH then 0 else 1 + ElemLength(p[1..])
  }

  /** The name that skipelem stores, and the path that it returns. */
  datatype Skipped = Skipped(elem: Name, rest: Name)

  function Skip(p: Name): Option<Skipped> {
    var q := DropSlashes(p);
    if q == [] then None
    else Some(Skipped(Key(q[..ElemLength(q)]), DropSlashes(q[ElemLength(q)..])))
  }

  /** while(*path == '/') path++ */
  method PassSlashes(p: Name, from: nat) returns (path: nat)
    requires from <= |p|
    ensures from <= path <= |p| && p[path..] == DropSlashes(p[from..])
  {
    path := from;
    while At(p, path) == SLASH
      invariant from <= path <= |p| && DropSlashes(p[from..]) == DropSlashes(p[path..])
      decreases |p| - path
    {
      assert p[path..][1..] == p[path + 1..];
      path := path + 1;
    }
  }

  /** while(*path != '/' && *path != 0) path++ */
  method PassElem(p: Name, from: nat) returns (path: nat)
    requires from <= |p|
    ensures from <= path <= |p| && path == from + ElemLength(p[from..])
  {
    path := from;
    while At(p, path) != SLASH && At(p, path) != 0
      invariant from <= path <= |p|
      invariant ElemLength(p[from..]) == path - from + ElemLength(p[path..])
      decreases |p| - path
    {
      assert p[path..][1..] == p[path + 1..];
      path := path + 1;
    }
  }

  /** The element copied into `name`: DIRSIZ bytes of it, or all and a NUL. */
  method StoreName(elem: Name, name: array<Byte>)
    requires name.Length == DIRSIZ
    modifies name
    ensures CString(name[..]) == Key(elem)
  {
    var len := |elem|;
    if len >= DIRSIZ {
      forall k | 0 <= k < DIRSIZ {
        name[k] := elem[k];
      }
      assert name[..] == Key(elem);
      CStringOfPadding(Key(elem), 0);
      assert Key(elem) + seq(0, _ => 0) == name[..];
    } else {
      forall k | 0 <= k < len {
        name[k] := elem[k];
      }
      name[len] := 0;
      assert name[..] == elem + [0] + name[len + 1..];
      CStringStops(elem, name[len + 1..]);
    }
  }

  /** skipelem, with `path` as an index. `name` is the buffer of DIRSIZ bytes; it
      is left without a terminator when the element fills it. */
  method SkipElem(p: Name, name: array<Byte>) returns (r: Option<nat>)
    requires name.Length == DIRSIZ
    modifies name
    ensures r.None? <==> Skip(p).None?
    ensures r.None? ==> name[..] == old(name[..])
    ensures r.Some? ==> r.value <= |p| && p[r.value..] == Skip(p).value.rest
                        && CString(name[..]) == Skip(p).value.elem
  {
    hide DropSlashes, ElemLength, CString, Key;
    assert p[0..] == p;
    var s := PassSlashes(p, 0);
    if At(p, s) == 0 {
      return None;
    }
    var path := PassElem(p, s);
    assert p[s..][..path - s] == p[s..path] && p[s..][path - s..] == p[path..];
    StoreName(p[s..path], name);
    path := PassSlashes(p, path);
    return Some(path);
  }

  lemma {:induction false} CStringStops(s: Name, t: seq<Byte>)
    ensures CString(s + [0] + t) == s
  {
    if s != [] {
      CStringStops(s[1..], t);
      assert (s + [0] + t)[1..] == s[1..] + [0] + t;
    }
  }

  // ---- The components of a path ----

  /** Split at every slash: n slashes give n + 1 pieces, some of them empty. */
  function Split(p: Name): (r: seq<Name>)
    ensures |r| > 0
  {
    if p == [] then [[]]
    else if p[0] == SLASH then [[]] + Split(p[1..])
    else [[p[0]] + Split(p[1..])[0]] + Split(p[1..])[1..]
  }

  function NonEmpty(ps: seq<Name>): seq<Name> {
    if ps == [] then []
    else (if ps[0] == [] then [] else [Key(ps[0])]) + NonEmpty(ps[1..])
  }

  /** The elements that repeated calls of skipelem deliver. */
  function Elements(p: Name): seq<Name>
    decreases |p|
  {
    var s := Skip(p);
    if s.None? then []
    else SkipShortens(p); [s.value.elem] + Elements(s.value.rest)
  }

  lemma {:induction false} DropSlashesShort(p: Name)
    ensures |DropSlashes(p)| <= |p|
    ensures DropSlashes(p) != [] ==> DropSlashes(p)[0] != SLASH
  {
    if p != [] && p[0] == SLASH {
      DropSlashesShort(p[1..]);
    }
  }

  lemma SkipShortens(p: Name)
    requires Skip(p).Some?
    ensures |Skip(p).value.rest| < |p|
  {
    DropSlashesShort(p);
    var q := DropSlashes(p);
    DropSlashesShort(q[ElemLength(q)..]);
  }

  lemma {:induction false} SplitSlashes(p: Name)
    ensures NonEmpty(Split(p)) == NonEmpty(Split(DropSlashes(p)))
  {
    if p != [] && p[0] == SLASH {
      SplitSlashes(p[1..]);
    }
  }

  lemma {:induction false} SplitElem(p: Name)
    ensures var n := ElemLength(p);
            Split(p)[0] == p[..n]
            && Split(p)[1..] == if n == |p| then [] else Split(p[n + 1..])
  {
    if p != [] && p[0] != SLASH {
      SplitElem(p[1..]);
      var n := ElemLength(p);
      assert p[..n] == [p[0]] + p[1..][..n - 1];
      assert n < |p| ==> p[1..][n..] == p[n + 1..];
    }
  }

  lemma {:induction false} ElemEnds(p: Name)
    ensures ElemLength(p) < |p| ==> p[ElemLength(p)] == SLASH
  {
    if p != [] && p[0] != SLASH {
      ElemEnds(p[1..]);
    }
  }

  lemma SplitOneElem(q: Name)
    requires q != [] && q[0] != SLASH
    ensures var n := ElemLength(q);
            0 < n && NonEmpty(Split(q)) == [Key(q[..n])] + NonEmpty(Split(DropSlashes(q[n..])))
  {
    var n := ElemLength(q);
    SplitElem(q);
    ElemEnds(q);
    assert NonEmpty(Split(q)) == [Key(q[..n])] + NonEmpty(Split(q)[1..]);
    if n < |q| {
      assert q[n..][1..] == q[n + 1..];
      SplitSlashes(q[n + 1..]);
    }
  }

  /** Repeated skipelem takes a path into exactly its non-empty components, each
      cut off as directories cut it off. */
  lemma {:induction false} PathComponents(p: Name)
    ensures Elements(p) == NonEmpty(Split(p))
    decreases |p|
  {
    var q := DropSlashes(p);
    SplitSlashes(p);
    DropSlashesShort(p);
    if q != [] {
      SkipShortens(p);
      SplitOneElem(q);
      PathComponents(Skip(p).value.rest);
      hide DropSlashes, ElemLength, Split, Key;
    }
  }
}
