/** The user-level allocator of `umalloc.c` (section 8.7 of The C Programming
    Language, 2nd edition): an address-ordered circular list of free blocks.
    Addresses and sizes are in units of one header; BASE is the static header
    `base`, which lies below the heap. */
module Umalloc {
  import opened Wrappers

  const BASE: int := 1
  const HEADER: nat := 8
  const MINCORE: nat := 4096

  // ---- The list as a sequence of blocks ----

  /** Following `ptr` visits `s` in order and returns to its start. */
  ghost predicate Linked(ptr: map<int, int>, s: seq<int>) {
    && |s| > 0
    && (forall k | 0 <= k < |s| :: s[k] in ptr)
    && (forall k | 0 <= k < |s| - 1 :: ptr[s[k]] == s[k + 1])
    && ptr[s[|s| - 1]] == s[0]
  }

  /** Free blocks in address order with a gap after each, so fully coalesced;
      the first is the empty block at BASE. */
  ghost predicate Ordered(size: map<int, int>, s: seq<int>, top: int) {
    && |s| > 0 && s[0] == BASE && BASE < top
    && (forall k | 0 <= k < |s| :: s[k] in size)
    && size[BASE] == 0
    && (forall k | 0 < k < |s| :: size[s[k]] > 0 && s[k] + size[s[k]] <= top)
    && (forall k, l | 0 <= k < l < |s| :: s[k] + size[s[k]] < s[l])
  }

  ghost predicate LiveApart(size: map<int, int>, live: map<int, int>, top: int) {
    && (forall a | a in live :: BASE < a && a in size && size[a] == live[a] > 0 && a + live[a] <= top)
    && (forall a, b | a in live && b in live && a < b :: a + live[a] <= b)
  }

  /** Unit `u` lies in a free block. */
  ghost predicate InFree(size: map<int, int>, s: seq<int>, u: int) {
    exists k | 0 <= k < |s| :: s[k] in size && s[k] <= u < s[k] + size[s[k]]
  }

  /** Unit `u` lies in a block handed out. */
  ghost predicate InLive(live: map<int, int>, u: int) {
    exists a | a in live :: a <= u < a + live[a]
  }

  /** The units obtained from sbrk are the free and the live ones, and no unit
      is both. */
  ghost predicate Accounted(size: map<int, int>, s: seq<int>, live: map<int, int>, obtained: iset<int>) {
    && (forall u :: u in obtained <==> InFree(size, s, u) || InLive(live, u))
    && (forall u :: !(InFree(size, s, u) && InLive(live, u)))
  }

  ghost predicate Sound(ptr: map<int, int>, size: map<int, int>, ring: seq<int>, live: map<int, int>,
                        top: int, obtained: iset<int>) {
    && Linked(ptr, ring) && Ordered(size, ring, top)
    && LiveApart(size, live, top) && Accounted(size, ring, live, obtained)
  }

  /** A free block of at least `n` units exists. */
  ghost predicate Fits(size: map<int, int>, s: seq<int>, n: int) {
    exists k | 0 <= k < |s| :: s[k] in size && size[s[k]] >= n
  }

  // ---- Searching the circle ----

  /** Steps along the circle of `n` from position `k` to position `f`. */
  function Dist(n: nat, k: nat, f: nat): nat
    requires k < n && f < n
  {
    if k <= f then f - k else f + n - k
  }

  /** Where a block at `bp` belongs: after the last free block below it. */
  ghost predicate BelongsAfter(s: seq<int>, bp: int, j: nat) {
    j < |s| && s[j] < bp && (j + 1 < |s| ==> bp < s[j + 1])
  }

  lemma {:induction false} FindPlace(size: map<int, int>, s: seq<int>, top: int, bp: int, n: nat) returns (j: nat)
    requires Ordered(size, s, top) && BASE < bp && 0 < n <= |s|
    requires forall k | 0 <= k < |s| :: s[k] != bp
    requires n < |s| ==> bp < s[n]
    ensures BelongsAfter(s, bp, j)
  {
    if s[n - 1] < bp {
      j := n - 1;
    } else {
      j := FindPlace(size, s, top, bp, n - 1);
    }
  }

  /** The two tests of free's search together hold exactly at that place. */
  lemma SearchStops(ptr: map<int, int>, size: map<int, int>, s: seq<int>, top: int, bp: int, j: nat, k: nat)
    requires Linked(ptr, s) && Ordered(size, s, top) && BelongsAfter(s, bp, j) && k < |s|
    ensures var p := s[k];
      (p < bp < ptr[p] || (p >= ptr[p] && (bp > p || bp < ptr[p]))) <==> k == j
  {
    if k < j {
      assert s[k] + size[s[k]] < s[j] && ptr[s[k]] == s[k + 1];
      assert k + 1 == j || s[k + 1] + size[s[k + 1]] < s[j];
    } else if j < k {
      assert j + 1 == k || s[j + 1] + size[s[j + 1]] < s[k];
      assert k + 1 < |s| ==> s[k] + size[s[k]] < s[k + 1];
      assert k + 1 == |s| ==> ptr[s[k]] == BASE;
    } else {
      assert k + 1 == |s| ==> ptr[s[k]] == BASE;
    }
  }

  // ---- Rewriting the list ----

  /** `s` with the blocks strictly between positions `j` and `m` replaced by `mid`. */
  function Splice(s: seq<int>, j: nat, mid: seq<int>, m: nat): seq<int>
    requires j < m <= |s|
  {
    s[..j + 1] + mid + s[m..]
  }

  /** The block after position `m - 1` on the circle. */
  function At(s: seq<int>, m: nat): int
    requires 0 < |s| && m <= |s|
  {
    if m < |s| then s[m] else s[0]
  }

  lemma SpliceLinked(ptr: map<int, int>, ptr': map<int, int>, s: seq<int>, j: nat, mid: seq<int>, m: nat)
    requires Linked(ptr, s) && j < m <= |s| && |mid| <= 1
    requires forall k | 0 <= k < |s| && k != j :: s[k] in ptr' && ptr'[s[k]] == ptr[s[k]]
    requires s[j] in ptr' && ptr'[s[j]] == if mid == [] then At(s, m) else mid[0]
    requires mid != [] ==> mid[0] in ptr' && ptr'[mid[0]] == At(s, m)
    ensures Linked(ptr', Splice(s, j, mid, m))
  {
    var t := Splice(s, j, mid, m);
    var d := j + 1 + |mid|;
    assert forall k | d <= k < |t| :: t[k] == s[m + (k - d)];
    if |t| > d {
      assert t[|t| - 1] == s[|s| - 1];
    }
    forall k | 0 <= k < |t| - 1 ensures ptr'[t[k]] == t[k + 1] {
      if k >= d {
        assert t[k + 1] == s[m + (k - d) + 1];
      }
    }
  }

  /** The sizes `size'` fit the list in which `mid` replaces what lies between
      `j` and `m`: other sizes are as before, and gaps remain on both sides. */
  ghost predicate SpliceFits(size: map<int, int>, size': map<int, int>, s: seq<int>, j: nat, mid: seq<int>, m: nat,
                             top: int) {
    && j < m <= |s| && |mid| <= 1 && s[j] in size'
    && (forall k | 0 <= k < |s| && (k < j || m <= k) ::
         s[k] in size && s[k] in size' && size'[s[k]] == size[s[k]])
    && (if j == 0 then size'[s[j]] == 0 else size'[s[j]] > 0)
    && (mid == [] ==> s[j] + size'[s[j]] <= top && (m < |s| ==> s[j] + size'[s[j]] < s[m]))
    && (mid != [] ==>
          && mid[0] in size' && size'[mid[0]] > 0 && s[j] + size'[s[j]] < mid[0]
          && mid[0] + size'[mid[0]] <= top && (m < |s| ==> mid[0] + size'[mid[0]] < s[m]))
  }

  lemma SpliceGap(size: map<int, int>, size': map<int, int>, s: seq<int>, j: nat, mid: seq<int>, m: nat, top: int,
                  k: nat, l: nat)
    requires Ordered(size, s, top) && SpliceFits(size, size', s, j, mid, m, top)
    requires k < l < |Splice(s, j, mid, m)|
    ensures var t := Splice(s, j, mid, m);
      t[k] in size' && t[k] + size'[t[k]] < t[l]
  {
    var t := Splice(s, j, mid, m);
    var d := j + 1 + |mid|;
    if l < d {
      if k < j {
        assert t[k] == s[k] && s[k] + size[s[k]] < s[j];
      }
    } else {
      var l' := m + (l - d);
      assert t[l] == s[l'];
      if d <= k {
        assert t[k] == s[m + (k - d)];
      } else if k < j {
        assert t[k] == s[k] && s[k] + size[s[k]] < s[l'];
      } else {
        assert l' > m ==> s[m] + size[s[m]] < s[l'] && size[s[m]] > 0;
      }
    }
  }

  lemma SpliceOrdered(size: map<int, int>, size': map<int, int>, s: seq<int>, j: nat, mid: seq<int>, m: nat, top: int)
    requires Ordered(size, s, top) && SpliceFits(size, size', s, j, mid, m, top)
    ensures Ordered(size', Splice(s, j, mid, m), top)
  {
    var t := Splice(s, j, mid, m);
    var d := j + 1 + |mid|;
    assert t[0] == s[0];
    forall k | 0 <= k < |t|
      ensures t[k] in size' && (k > 0 ==> size'[t[k]] > 0 && t[k] + size'[t[k]] <= top)
    {
      if d <= k {
        assert t[k] == s[m + (k - d)];
      } else if k < j {
        assert t[k] == s[k];
      }
    }
    forall k, l | 0 <= k < l < |t| ensures t[k] + size'[t[k]] < t[l] {
      SpliceGap(size, size', s, j, mid, m, top, k, l);
    }
  }

  /** A unit is free after a splice when it lies in a block that stayed, in the
      block at `s[j]` or in the one at `mid`. */
  lemma SpliceUnits(size: map<int, int>, size': map<int, int>, s: seq<int>, j: nat, mid: seq<int>, m: nat,
                    top: int, u: int)
    requires SpliceFits(size, size', s, j, mid, m, top)
    ensures InFree(size', Splice(s, j, mid, m), u) <==>
      || (exists k | 0 <= k < |s| && (k < j || m <= k) :: s[k] <= u < s[k] + size[s[k]])
      || s[j] <= u < s[j] + size'[s[j]]
      || (mid != [] && mid[0] <= u < mid[0] + size'[mid[0]])
  {
    var t := Splice(s, j, mid, m);
    var d := j + 1 + |mid|;
    assert forall k | 0 <= k <= j :: t[k] == s[k];
    assert forall k | m <= k < |s| :: t[d + (k - m)] == s[k];
    assert mid != [] ==> t[j + 1] == mid[0];
    if k :| 0 <= k < |t| && t[k] <= u < t[k] + size'[t[k]] {
      if d <= k {
        assert t[k] == s[m + (k - d)];
      }
    }
  }

  /** A block of `n` units at `bp` can come into the list after position `j`;
      `m` skips the block above when the two touch. */
  ghost predicate Entering(size: map<int, int>, s: seq<int>, bp: int, n: int, j: nat, m: nat, top: int) {
    && BASE < bp && n > 0 && bp + n <= top && BelongsAfter(s, bp, j) && j < m <= |s|
    && (forall k | 0 <= k < |s| :: s[k] in size)
    && s[j] + size[s[j]] <= bp
    && (j + 1 < |s| ==> bp + n <= s[j + 1])
    && m == (if j + 1 < |s| && bp + n == s[j + 1] then j + 2 else j + 1)
  }

  lemma EnteringIsNew(size: map<int, int>, s: seq<int>, bp: int, n: int, j: nat, m: nat, top: int)
    requires Ordered(size, s, top) && Entering(size, s, bp, n, j, m, top)
    ensures forall k | 0 <= k < |s| :: s[k] != bp
    ensures forall k | 0 <= k < |s| && k != j :: s[k] != s[j]
  {
    forall k | 0 <= k < |s| ensures s[k] != bp && (k != j ==> s[k] != s[j]) {
      if k < j { assert s[k] + size[s[k]] < s[j]; }
      if k > j { assert s[j] + size[s[j]] < s[k]; }
      if k > j + 1 { assert s[j + 1] + size[s[j + 1]] < s[k]; }
    }
  }

  /** The sizes after the first statement of free: bp has taken in the block above. */
  function Grown(size: map<int, int>, s: seq<int>, bp: int, n: int, j: nat, m: nat): map<int, int>
    requires j < m <= |s| && (m == j + 2 ==> s[j + 1] in size)
  {
    size[bp := n + if m == j + 2 then size[s[j + 1]] else 0]
  }

  /** Linking bp in as a block of its own. */
  lemma EnterApart(size: map<int, int>, s: seq<int>, bp: int, n: int, j: nat, m: nat, top: int)
    requires Ordered(size, s, top) && Entering(size, s, bp, n, j, m, top) && s[j] + size[s[j]] < bp
    ensures Ordered(Grown(size, s, bp, n, j, m), Splice(s, j, [bp], m), top)
    ensures forall u ::
              InFree(Grown(size, s, bp, n, j, m), Splice(s, j, [bp], m), u) <==>
              InFree(size, s, u) || bp <= u < bp + n
  {
    var size' := Grown(size, s, bp, n, j, m);
    EnteringIsNew(size, s, bp, n, j, m, top);
    assert m < |s| && m == j + 2 ==> s[j + 1] + size[s[j + 1]] < s[m];
    assert SpliceFits(size, size', s, j, [bp], m, top);
    SpliceOrdered(size, size', s, j, [bp], m, top);
    forall u ensures InFree(size', Splice(s, j, [bp], m), u) <==> InFree(size, s, u) || bp <= u < bp + n {
      SpliceUnits(size, size', s, j, [bp], m, top, u);
      SplitUnits(size, s, j, m, u);
    }
  }

  /** Adding bp to the free block it touches from above. */
  lemma EnterBelow(size: map<int, int>, s: seq<int>, bp: int, n: int, j: nat, m: nat, top: int)
    requires Ordered(size, s, top) && Entering(size, s, bp, n, j, m, top) && s[j] + size[s[j]] == bp
    ensures var grown := Grown(size, s, bp, n, j, m);
      var size' := grown[s[j] := size[s[j]] + grown[bp]];
      && Ordered(size', Splice(s, j, [], m), top)
      && (forall u :: InFree(size', Splice(s, j, [], m), u) <==> InFree(size, s, u) || bp <= u < bp + n)
  {
    var grown := Grown(size, s, bp, n, j, m);
    var size' := grown[s[j] := size[s[j]] + grown[bp]];
    EnteringIsNew(size, s, bp, n, j, m, top);
    assert j != 0;
    assert m < |s| && m == j + 2 ==> s[j + 1] + size[s[j + 1]] < s[m];
    assert SpliceFits(size, size', s, j, [], m, top);
    SpliceOrdered(size, size', s, j, [], m, top);
    forall u ensures InFree(size', Splice(s, j, [], m), u) <==> InFree(size, s, u) || bp <= u < bp + n {
      SpliceUnits(size, size', s, j, [], m, top, u);
      SplitUnits(size, s, j, m, u);
    }
  }

  lemma SplitUnits(size: map<int, int>, s: seq<int>, j: nat, m: nat, u: int)
    requires j < m <= |s| && m <= j + 2 && forall k | 0 <= k < |s| :: s[k] in size
    ensures InFree(size, s, u) <==>
      || (exists k | 0 <= k < |s| && (k < j || m <= k) :: s[k] <= u < s[k] + size[s[k]])
      || s[j] <= u < s[j] + size[s[j]]
      || (m == j + 2 && s[j + 1] <= u < s[j + 1] + size[s[j + 1]])
  {
    if k :| 0 <= k < |s| && s[k] <= u < s[k] + size[s[k]] {
      assert k < j || m <= k || k == j || k == j + 1;
    }
  }

  // ---- What free and malloc do to the whole heap ----

  /** A live block does not overlap a free one. */
  lemma LiveOutsideFree(ptr: map<int, int>, size: map<int, int>, s: seq<int>, live: map<int, int>, top: int,
                        obtained: iset<int>, k: nat, a: int)
    requires Sound(ptr, size, s, live, top, obtained) && k < |s| && a in live
    ensures s[k] + size[s[k]] <= a || a + live[a] <= s[k]
    ensures s[k] != a
  {
    if k == 0 {
      assert s[k] + size[s[k]] <= a;
    } else {
      assert InFree(size, s, s[k]) && InLive(live, a);
      assert s[k] <= a < s[k] + size[s[k]] ==> InFree(size, s, a);
      assert a <= s[k] < a + live[a] ==> InLive(live, s[k]);
    }
  }

  /** A live block has a place among the free ones. */
  lemma LiveEnters(ptr: map<int, int>, size: map<int, int>, s: seq<int>, live: map<int, int>, top: int,
                   obtained: iset<int>, bp: int) returns (j: nat, m: nat)
    requires Sound(ptr, size, s, live, top, obtained) && bp in live
    ensures Entering(size, s, bp, live[bp], j, m, top) && BelongsAfter(s, bp, j) && j < |s|
  {
    forall k | 0 <= k < |s|
      ensures s[k] != bp && (s[k] + size[s[k]] <= bp || bp + live[bp] <= s[k])
    {
      LiveOutsideFree(ptr, size, s, live, top, obtained, k, bp);
    }
    j := FindPlace(size, s, top, bp, |s|);
    m := if j + 1 < |s| && bp + live[bp] == s[j + 1] then j + 2 else j + 1;
  }

  /** The two lists after free, and after malloc carved a block: the units of
      the block change sides and nothing else does. */
  lemma LiveToFree(ptr: map<int, int>, size: map<int, int>, s: seq<int>, live: map<int, int>, top: int,
                   obtained: iset<int>, bp: int, ptr': map<int, int>, size': map<int, int>, s': seq<int>)
    requires Sound(ptr, size, s, live, top, obtained) && bp in live
    requires Linked(ptr', s') && Ordered(size', s', top)
    requires forall u :: InFree(size', s', u) <==> InFree(size, s, u) || bp <= u < bp + live[bp]
    requires forall a | a in live && a != bp :: a in size' && size'[a] == size[a]
    ensures Sound(ptr', size', s', live - {bp}, top, obtained)
  {
    var live' := live - {bp};
    forall u
      ensures InLive(live, u) <==> InLive(live', u) || bp <= u < bp + live[bp]
      ensures !(InLive(live', u) && bp <= u < bp + live[bp])
    {
      if a :| a in live && a <= u < a + live[a] {
        assert a != bp ==> a in live';
      }
      if a :| a in live' && a <= u < a + live'[a] {
        assert a in live;
      }
    }
  }

  lemma FreeToLive(ptr: map<int, int>, size: map<int, int>, s: seq<int>, live: map<int, int>, top: int,
                   obtained: iset<int>, bp: int, n: int, ptr': map<int, int>, size': map<int, int>, s': seq<int>)
    requires Sound(ptr, size, s, live, top, obtained) && BASE < bp && n > 0 && bp + n <= top
    requires Linked(ptr', s') && Ordered(size', s', top)
    requires forall u :: InFree(size, s, u) <==> InFree(size', s', u) || bp <= u < bp + n
    requires forall u :: !(InFree(size', s', u) && bp <= u < bp + n)
    requires bp in size' && size'[bp] == n
    requires forall a | a in live && a != bp :: a in size' && size'[a] == size[a]
    ensures bp !in live
    ensures Sound(ptr', size', s', live[bp := n], top, obtained)
  {
    assert InFree(size, s, bp);
    var live' := live[bp := n];
    assert bp in live ==> InLive(live, bp);
    forall a | a in live ensures a + live[a] <= bp || bp + n <= a {
      assert bp <= a < bp + n ==> InFree(size, s, a) && InLive(live, a);
      assert a <= bp < a + live[a] ==> InLive(live, bp);
    }
    forall u ensures InLive(live', u) <==> InLive(live, u) || bp <= u < bp + n {
      if a :| a in live && a <= u < a + live[a] {
        assert a in live' && live'[a] == live[a];
      }
      if bp <= u < bp + n {
        assert bp in live' && live'[bp] == n;
      }
    }
  }

  /** Unlinking a free block of exactly `n` units. */
  lemma WholeUnits(size: map<int, int>, s: seq<int>, top: int, k: nat)
    requires Ordered(size, s, top) && 0 < k < |s| && SpliceFits(size, size, s, k - 1, [], k + 1, top)
    ensures var s', bp, n := Splice(s, k - 1, [], k + 1), s[k], size[s[k]];
      forall u ::
        && (InFree(size, s, u) <==> InFree(size, s', u) || bp <= u < bp + n)
        && !(InFree(size, s', u) && bp <= u < bp + n)
  {
    var s', bp, n := Splice(s, k - 1, [], k + 1), s[k], size[s[k]];
    forall u
      ensures InFree(size, s, u) <==> InFree(size, s', u) || bp <= u < bp + n
      ensures !(InFree(size, s', u) && bp <= u < bp + n)
    {
      SpliceUnits(size, size, s, k - 1, [], k + 1, top, u);
      SplitUnits(size, s, k - 1, k + 1, u);
      if s[k] <= u < s[k] + size[s[k]] {
        Elsewhere(size, s, top, k, u);
      }
    }
  }

  lemma CarveWhole(ptr: map<int, int>, size: map<int, int>, s: seq<int>, live: map<int, int>, top: int,
                   obtained: iset<int>, k: nat)
    requires Sound(ptr, size, s, live, top, obtained) && 0 < k < |s|
    ensures Sound(ptr[s[k - 1] := ptr[s[k]]], size, Splice(s, k - 1, [], k + 1), live[s[k] := size[s[k]]], top,
                  obtained)
    ensures s[k] !in live
  {
    var ptr' := ptr[s[k - 1] := ptr[s[k]]];
    var s' := Splice(s, k - 1, [], k + 1);
    var bp, n := s[k], size[s[k]];
    assert forall i | 0 <= i < |s| && i != k - 1 :: s[i] != s[k - 1] by {
      forall i | 0 <= i < |s| && i != k - 1 ensures s[i] != s[k - 1] {
        if i < k - 1 { assert s[i] + size[s[i]] < s[k - 1]; }
        if i > k - 1 { assert s[k - 1] + size[s[k - 1]] < s[i]; }
      }
    }
    SpliceLinked(ptr, ptr', s, k - 1, [], k + 1);
    assert s[k - 1] + size[s[k - 1]] < s[k];
    assert k + 1 < |s| ==> s[k - 1] + size[s[k - 1]] < s[k + 1];
    assert SpliceFits(size, size, s, k - 1, [], k + 1, top);
    SpliceOrdered(size, size, s, k - 1, [], k + 1, top);
    WholeUnits(size, s, top, k);
    FreeToLive(ptr, size, s, live, top, obtained, bp, n, ptr', size, s');
  }

  lemma TailCut(size: map<int, int>, s: seq<int>, top: int, k: nat, n: int)
    requires Ordered(size, s, top) && 0 < k < |s| && 0 < n < size[s[k]]
    ensures var bp := s[k] + size[s[k]] - n;
      var size' := size[s[k] := size[s[k]] - n][bp := n];
      && SpliceFits(size, size', s, k, [], k + 1, top) && Splice(s, k, [], k + 1) == s
      && Ordered(size', s, top)
  {
    var bp := s[k] + size[s[k]] - n;
    var size' := size[s[k] := size[s[k]] - n][bp := n];
    forall i | 0 <= i < |s| ensures s[i] != bp && (i != k ==> s[i] != s[k]) {
      if i < k { assert s[i] + size[s[i]] < s[k]; }
      if i > k { assert s[k] + size[s[k]] < s[i]; }
    }
    assert k + 1 < |s| ==> s[k] + size[s[k]] < s[k + 1];
    assert SpliceFits(size, size', s, k, [], k + 1, top);
    TailOrdered(size, size', s, top, k);
  }

  lemma TailOrdered(size: map<int, int>, size': map<int, int>, s: seq<int>, top: int, k: nat)
    requires Ordered(size, s, top) && k < |s| && SpliceFits(size, size', s, k, [], k + 1, top)
    ensures Splice(s, k, [], k + 1) == s && Ordered(size', s, top)
  {
    hide SpliceFits;
    assert Splice(s, k, [], k + 1) == s;
    SpliceOrdered(size, size', s, k, [], k + 1, top);
  }

  lemma TailUnits(size: map<int, int>, s: seq<int>, top: int, k: nat, n: int, u: int)
    requires Ordered(size, s, top) && 0 < k < |s| && 0 < n < size[s[k]]
    ensures var bp := s[k] + size[s[k]] - n;
      var size' := size[s[k] := size[s[k]] - n][bp := n];
      && (InFree(size, s, u) <==> InFree(size', s, u) || bp <= u < bp + n)
      && !(InFree(size', s, u) && bp <= u < bp + n)
  {
    hide InFree, SpliceFits, Splice;
    var bp := s[k] + size[s[k]] - n;
    var size' := size[s[k] := size[s[k]] - n][bp := n];
    TailCut(size, s, top, k, n);
    SpliceUnits(size, size', s, k, [], k + 1, top, u);
    SplitUnits(size, s, k, k + 1, u);
    if s[k] <= u < s[k] + size[s[k]] {
      Elsewhere(size, s, top, k, u);
    }
  }

  /** Cutting `n` units off the end of a larger free block. */
  lemma CarveTail(ptr: map<int, int>, size: map<int, int>, s: seq<int>, live: map<int, int>, top: int,
                  obtained: iset<int>, k: nat, n: int)
    requires Sound(ptr, size, s, live, top, obtained) && 0 < k < |s| && 0 < n < size[s[k]]
    ensures var bp := s[k] + size[s[k]] - n;
      && bp !in live
      && Sound(ptr, size[s[k] := size[s[k]] - n][bp := n], s, live[bp := n], top, obtained)
  {
    hide Linked, InFree, Splice, SpliceFits;
    var bp := s[k] + size[s[k]] - n;
    var size' := size[s[k] := size[s[k]] - n][bp := n];
    TailCut(size, s, top, k, n);
    forall u
      ensures InFree(size, s, u) <==> InFree(size', s, u) || bp <= u < bp + n
      ensures !(InFree(size', s, u) && bp <= u < bp + n)
    {
      TailUnits(size, s, top, k, n, u);
    }
    forall a | a in live ensures a != s[k] && a != bp {
      LiveOutsideFree(ptr, size, s, live, top, obtained, k, a);
      TailUnits(size, s, top, k, n, bp);
      assert a == bp ==> InLive(live, bp);
    }
    FreeToLive(ptr, size, s, live, top, obtained, bp, n, ptr, size', s);
  }

  /** No other free block holds a unit of the one at position `k`. */
  lemma Elsewhere(size: map<int, int>, s: seq<int>, top: int, k: nat, u: int)
    requires Ordered(size, s, top) && 0 < k < |s| && s[k] <= u < s[k] + size[s[k]]
    ensures forall i | 0 <= i < |s| && i != k :: !(s[i] <= u < s[i] + size[s[i]])
  {
    forall i | 0 <= i < |s| && i != k ensures !(s[i] <= u < s[i] + size[s[i]]) {
      if i < k { assert s[i] + size[s[i]] < s[k]; }
      if i > k { assert s[k] + size[s[k]] < s[i]; }
    }
  }

  lemma Next(ptr: map<int, int>, s: seq<int>, k: nat)
    requires Linked(ptr, s) && k < |s|
    ensures ptr[s[k]] == At(s, k + 1)
  {
  }

  /** The heap after free linked the block in by itself, or into the one below. */
  lemma FreedApart(ptr: map<int, int>, size: map<int, int>, s: seq<int>, live: map<int, int>, top: int,
                   obtained: iset<int>, bp: int, j: nat, m: nat)
    requires Sound(ptr, size, s, live, top, obtained) && bp in live
    requires Entering(size, s, bp, live[bp], j, m, top) && s[j] + size[s[j]] < bp
    ensures Sound(ptr[bp := At(s, m)][s[j] := bp], Grown(size, s, bp, live[bp], j, m), Splice(s, j, [bp], m),
                  live - {bp}, top, obtained)
  {
    hide InFree;
    EnteringIsNew(size, s, bp, live[bp], j, m, top);
    EnterApart(size, s, bp, live[bp], j, m, top);
    SpliceLinked(ptr, ptr[bp := At(s, m)][s[j] := bp], s, j, [bp], m);
    LiveToFree(ptr, size, s, live, top, obtained, bp, ptr[bp := At(s, m)][s[j] := bp],
               Grown(size, s, bp, live[bp], j, m), Splice(s, j, [bp], m));
  }

  lemma FreedBelow(ptr: map<int, int>, size: map<int, int>, s: seq<int>, live: map<int, int>, top: int,
                   obtained: iset<int>, bp: int, j: nat, m: nat)
    requires Sound(ptr, size, s, live, top, obtained) && bp in live
    requires Entering(size, s, bp, live[bp], j, m, top) && s[j] + size[s[j]] == bp
    ensures var grown := Grown(size, s, bp, live[bp], j, m);
      Sound(ptr[bp := At(s, m)][s[j] := At(s, m)], grown[s[j] := size[s[j]] + grown[bp]], Splice(s, j, [], m),
            live - {bp}, top, obtained)
  {
    hide InFree;
    var grown := Grown(size, s, bp, live[bp], j, m);
    EnteringIsNew(size, s, bp, live[bp], j, m, top);
    EnterBelow(size, s, bp, live[bp], j, m, top);
    SpliceLinked(ptr, ptr[bp := At(s, m)][s[j] := At(s, m)], s, j, [], m);
    forall a | a in live && a != bp ensures a != s[j] {
      LiveOutsideFree(ptr, size, s, live, top, obtained, j, a);
    }
    LiveToFree(ptr, size, s, live, top, obtained, bp, ptr[bp := At(s, m)][s[j] := At(s, m)],
               grown[s[j] := size[s[j]] + grown[bp]], Splice(s, j, [], m));
  }

  /** New memory past the break, taken as a block handed out. */
  lemma Grow(ptr: map<int, int>, size: map<int, int>, s: seq<int>, live: map<int, int>, top: int,
             obtained: iset<int>, bp: int, n: int)
    requires Sound(ptr, size, s, live, top, obtained) && top <= bp && n > 0
    ensures bp !in live
    ensures Sound(ptr, size[bp := n], s, live[bp := n], bp + n, obtained + Range(bp, n))
  {
    var size', live' := size[bp := n], live[bp := n];
    forall k | 0 <= k < |s| ensures s[k] != bp && s[k] + size[s[k]] <= top {
    }
    forall u
      ensures InFree(size', s, u) <==> InFree(size, s, u)
      ensures InLive(live', u) <==> InLive(live, u) || bp <= u < bp + n
    {
      if a :| a in live && a <= u < a + live[a] {
        assert a in live' && live'[a] == live[a];
      }
      if bp <= u < bp + n {
        assert bp in live' && live'[bp] == n;
      }
    }
  }

  /** What one pass over the list from the block after position `f` has seen
      when it stands at position `k`: nothing large enough. */
  ghost predicate Seen(size: map<int, int>, s: seq<int>, f: nat, k: nat, n: int) {
    && f < |s| && k < |s|
    && (forall i | 0 <= i < |s| && Dist(|s|, i, f) > Dist(|s|, k, f) :: s[i] in size && size[s[i]] < n)
  }

  lemma FitsAt(size: map<int, int>, s: seq<int>, k: nat, n: int)
    requires k < |s| && s[k] in size && size[s[k]] >= n
    ensures Fits(size, s, n)
  {
  }

  lemma NoneFits(size: map<int, int>, n: int)
    ensures !Fits(size, [], n)
  {
  }

  lemma FitsLess(size: map<int, int>, s: seq<int>, m: int, n: int)
    requires Fits(size, s, m) && n <= m
    ensures Fits(size, s, n)
  {
  }

  lemma SeenAll(size: map<int, int>, s: seq<int>, f: nat, n: int)
    requires Seen(size, s, f, f, n) && s[f] in size && size[s[f]] < n
    ensures !Fits(size, s, n)
  {
    forall i | 0 <= i < |s| && i != f ensures Dist(|s|, i, f) > Dist(|s|, f, f) {
    }
  }

  /** The position after `k` on a circle of `n`. */
  function After(n: nat, k: nat): (r: nat)
    requires k < n
    ensures r < n
  {
    if k + 1 < n then k + 1 else 0
  }

  lemma SeenStart(size: map<int, int>, s: seq<int>, f: nat, n: int)
    requires f < |s|
    ensures Seen(size, s, f, After(|s|, f), n)
  {
    forall i | 0 <= i < |s| ensures Dist(|s|, i, f) <= Dist(|s|, After(|s|, f), f) {
    }
  }

  lemma SeenOn(size: map<int, int>, s: seq<int>, f: nat, k: nat, n: int)
    requires k != f && Seen(size, s, f, k, n) && s[k] in size && size[s[k]] < n
    ensures Seen(size, s, f, After(|s|, k), n)
    ensures Dist(|s|, After(|s|, k), f) < Dist(|s|, k, f)
  {
    forall i | 0 <= i < |s| && Dist(|s|, i, f) > Dist(|s|, After(|s|, k), f)
      ensures i == k || Dist(|s|, i, f) > Dist(|s|, k, f)
    {
    }
  }

  /** `p` is the last block of the list that starts below `bp`. */
  ghost predicate LastBelow(s: seq<int>, bp: int, p: int) {
    p in s && p < bp && forall k | 0 <= k < |s| :: s[k] <= p || bp <= s[k]
  }

  lemma PlaceIsLast(size: map<int, int>, s: seq<int>, bp: int, j: nat, top: int)
    requires Ordered(size, s, top) && BelongsAfter(s, bp, j)
    ensures LastBelow(s, bp, s[j])
  {
    forall k | 0 <= k < |s| ensures s[k] <= s[j] || bp <= s[k] {
      assert k < j ==> s[k] + size[s[k]] < s[j];
      assert k > j + 1 ==> s[j + 1] + size[s[j + 1]] < s[k];
    }
  }

  lemma SpliceLast(size: map<int, int>, s: seq<int>, bp: int, j: nat, m: nat, top: int, t: seq<int>)
    requires Ordered(size, s, top) && j < m <= |s| && (exists n :: Entering(size, s, bp, n, j, m, top))
    requires t == Splice(s, j, [], m) || t == Splice(s, j, [bp], m)
    ensures LastBelow(t, bp, s[j])
  {
    assert t[j] == s[j];
    forall k | 0 <= k < |s| ensures if k <= j then s[k] <= s[j] else bp <= s[k] {
      if k < j {
        assert s[k] + size[s[k]] < s[j] && size[s[k]] >= 0;
      } else if k > j + 1 {
        assert s[j + 1] + size[s[j + 1]] < s[k];
      }
    }
    hide Ordered, Entering;
    forall k | 0 <= k < |t| ensures t[k] == bp || (exists i :: 0 <= i < |s| && t[k] == s[i]) {
      if k <= j {
        assert t[k] == s[k];
      } else if t[k] != bp {
        assert t[k] == s[|s| - (|t| - k)];
      }
    }
  }

  /** The sizes of the blocks in `s` but the one at `p` are the same. */
  ghost predicate SameSizes(size: map<int, int>, size': map<int, int>, s: seq<int>, p: int) {
    forall x | x in s && x != p :: x in size && x in size' && size'[x] == size[x]
  }

  /** The free list once `n` units at `bp` are part of it: a block of its own, or
      joined to the neighbours it touches. `p` is the free block below. */
  ghost predicate Joins(size: map<int, int>, s: seq<int>, bp: int, n: int, size': map<int, int>, s': seq<int>, p: int) {
    exists j: nat, m: nat :: JoinsAt(size, s, bp, n, size', s', j, m) && p == s[j]
  }

  ghost predicate JoinsAt(size: map<int, int>, s: seq<int>, bp: int, n: int, size': map<int, int>, s': seq<int>,
                          j: nat, m: nat) {
    && BelongsAfter(s, bp, j) && s[j] in size && (j + 1 < |s| ==> s[j + 1] in size)
    && m == (if j + 1 < |s| && bp + n == s[j + 1] then j + 2 else j + 1)
    && var all := n + if m == j + 2 then size[s[j + 1]] else 0;
    if s[j] + size[s[j]] == bp then
      && s' == Splice(s, j, [], m) && SameSizes(size, size', s', s[j])
      && s[j] in size' && size'[s[j]] == size[s[j]] + all
    else
      && s' == Splice(s, j, [bp], m) && SameSizes(size, size', s', bp)
      && bp in size' && size'[bp] == all
  }

  /** The list once block `k` of it has lost its upper `n` units. */
  ghost predicate Cut(size: map<int, int>, s: seq<int>, k: nat, n: int, size': map<int, int>, s': seq<int>) {
    && k < |s| && s[k] in size && size[s[k]] >= n && SameSizes(size, size', s', s[k])
    && if size[s[k]] == n then s' == s[..k] + s[k + 1..]
       else s' == s && s[k] in size' && size'[s[k]] == size[s[k]] - n
  }

  /** malloc's choice and what becomes of the list: going round from the block
      after `freep`, the first of at least `n` units loses its upper end, at `bp`;
      the next search starts where this one ended. */
  ghost predicate Serves(size: map<int, int>, s: seq<int>, freep: int, n: int, bp: int,
                         size': map<int, int>, s': seq<int>, freep': int) {
    exists f: nat, k: nat :: ServesAt(size, s, freep, n, bp, size', s', freep', f, k)
  }

  ghost predicate ServesAt(size: map<int, int>, s: seq<int>, freep: int, n: int, bp: int,
                           size': map<int, int>, s': seq<int>, freep': int, f: nat, k: nat) {
    && f < |s| && s[f] == freep && Seen(size, s, f, k, n) && Cut(size, s, k, n, size', s')
    && bp == s[k] + size[s[k]] - n && 0 < k && freep' == s[k - 1]
  }

  /** The list once sbrk has given `m` units at `p`, past everything in it. */
  ghost predicate Enlarged(size: map<int, int>, s: seq<int>, p: int, m: int, size': map<int, int>, s': seq<int>,
                           freep': int) {
    && s != [] && var last := s[|s| - 1];
    && last in size && freep' == last
    && if last + size[last] == p then
         s' == s && SameSizes(size, size', s, last) && last in size' && size'[last] == size[last] + m
       else
         s' == s + [p] && SameSizes(size, size', s', p) && p in size' && size'[p] == m
  }

  /** The list with sbrk's `m` units at `p` in it has served a request of `n` units. */
  ghost predicate ServesEnlarged(size: map<int, int>, s: seq<int>, p: int, m: int, n: int, bp: int, top: int,
                                 size': map<int, int>, s': seq<int>, freep': int) {
    exists size1, s1, freep1 ::
      && Enlarged(size, s, p, m, size1, s1, freep1) && Ordered(size1, s1, top)
      && Serves(size1, s1, freep1, n, bp, size', s', freep')
  }

  lemma ServedEnlarged(size: map<int, int>, s: seq<int>, p: int, m: int, n: int, bp: int, top: int,
                       size': map<int, int>, s': seq<int>, freep': int,
                       size1: map<int, int>, s1: seq<int>, freep1: int)
    requires Enlarged(size, s, p, m, size1, s1, freep1) && Ordered(size1, s1, top)
    requires Serves(size1, s1, freep1, n, bp, size', s', freep')
    ensures ServesEnlarged(size, s, p, m, n, bp, top, size', s', freep')
  {
  }

  /** The free block before the one that sbrk's memory at `p` is part of. */
  function BeforeNew(size: map<int, int>, s: seq<int>, p: int): int {
    if s == [] then BASE
    else
      var last := s[|s| - 1];
      if |s| > 1 && last in size && last + size[last] == p then s[|s| - 2] else last
  }

  lemma ServedAt(size: map<int, int>, s: seq<int>, freep: int, n: int, bp: int,
                 size': map<int, int>, s': seq<int>, freep': int, f: nat, k: nat)
    requires ServesAt(size, s, freep, n, bp, size', s', freep', f, k)
    ensures Serves(size, s, freep, n, bp, size', s', freep')
  {
  }

  lemma Joined(size: map<int, int>, s: seq<int>, bp: int, n: int, j: nat, m: nat, top: int,
               size': map<int, int>, s': seq<int>)
    requires Ordered(size, s, top) && Entering(size, s, bp, n, j, m, top)
    requires var grown := Grown(size, s, bp, n, j, m);
      if s[j] + size[s[j]] == bp then s' == Splice(s, j, [], m) && size' == grown[s[j] := size[s[j]] + grown[bp]]
      else s' == Splice(s, j, [bp], m) && size' == grown
    ensures Joins(size, s, bp, n, size', s', s[j])
  {
    EnteringIsNew(size, s, bp, n, j, m, top);
    assert forall x | x in s' :: x in s || x == bp;
    assert JoinsAt(size, s, bp, n, size', s', j, m);
  }

  lemma JoinsLast(size: map<int, int>, s: seq<int>, p: int, m: int, top: int, size': map<int, int>, s': seq<int>,
                  freep': int)
    requires Ordered(size, s, top) && top <= p && Joins(size, s, p, m, size', s', freep')
    ensures Enlarged(size, s, p, m, size', s', freep')
  {
    var j: nat, i: nat :| JoinsAt(size, s, p, m, size', s', j, i) && freep' == s[j];
    var l := |s| - 1;
    assert s[l] + size[s[l]] <= top && size[s[l]] >= 0;
    assert j == l;
    assert Splice(s, l, [], |s|) == s && Splice(s, l, [p], |s|) == s + [p];
  }

  lemma JoinedNew(ptr: map<int, int>, size: map<int, int>, s: seq<int>, live: map<int, int>, top: int,
                  obtained: iset<int>, p: int, n: int, size': map<int, int>, s': seq<int>, freep': int)
    requires Sound(ptr, size, s, live, top, obtained) && top <= p
    requires Joins(size[p := n], s, p, n, size', s', freep')
    ensures Enlarged(size, s, p, n, size', s', freep')
  {
    assert forall k | 0 <= k < |s| :: s[k] + size[s[k]] <= top && size[s[k]] >= 0;
    assert p !in s;
    assert Ordered(size[p := n], s, top);
    JoinsLast(size[p := n], s, p, n, top, size', s', freep');
    hide Joins, Ordered;
  }

  /** No other block was large enough, so the new memory serves: its upper end. */
  lemma NewMemoryServes(size: map<int, int>, s: seq<int>, p: int, m: int, n: int, size1: map<int, int>, s1: seq<int>,
                        freep1: int, bp: int, size': map<int, int>, s': seq<int>, freep': int)
    requires s != [] && !Fits(size, s, n) && 0 < n <= m && (forall x | x in s :: x in size && x < p)
    requires Enlarged(size, s, p, m, size1, s1, freep1) && Serves(size1, s1, freep1, n, bp, size', s', freep')
    requires forall i, k | 0 <= i < k < |s| :: s[i] != s[k]
    ensures bp == p + m - n && freep' == BeforeNew(size, s, p)
  {
    var f: nat, k: nat :| ServesAt(size1, s1, freep1, n, bp, size', s', freep', f, k);
    assert forall i | 0 <= i < |s| :: s[i] in s && size[s[i]] < n;
  }

  /** A second request of `n` units at once takes the units just below the first,
      when the block chosen has twice as many. */
  lemma NextBelow(size: map<int, int>, s: seq<int>, freep: int, n: int, bp: int, size': map<int, int>, s': seq<int>,
                  freep': int, top: int, k: nat)
    requires Ordered(size, s, top) && 0 < n && Serves(size, s, freep, n, bp, size', s', freep')
    requires k < |s| && bp + n == s[k] + size[s[k]] && size[s[k]] >= 2 * n
    ensures Fits(size', s', n)
    ensures forall bp2, size2, s2, freep2 | Serves(size', s', freep', n, bp2, size2, s2, freep2) :: bp2 == bp - n
  {
    var f: nat, i: nat :| ServesAt(size, s, freep, n, bp, size', s', freep', f, i);
    SameEnd(size, s, top, i, k);
    FitsAt(size', s, k, n);
    hide Seen, Ordered;
    forall bp2, size2, s2, freep2 | Serves(size', s', freep', n, bp2, size2, s2, freep2) ensures bp2 == bp - n {
      var f2: nat, k2: nat :| ServesAt(size', s', freep', n, bp2, size2, s2, freep2, f2, k2);
      SamePlace(size, s, top, f2, k - 1);
      FirstSeen(size', s, k - 1, k2, n);
    }
  }

  /** The block after the one where the search starts is looked at first. */
  lemma FirstSeen(size: map<int, int>, s: seq<int>, f: nat, k: nat, n: int)
    requires f + 1 < |s| && s[f + 1] in size && size[s[f + 1]] >= n && k < |s| && Seen(size, s, f, k, n)
    ensures k == f + 1
  {
    assert Dist(|s|, f + 1, f) == |s| - 1;
  }

  lemma SameEnd(size: map<int, int>, s: seq<int>, top: int, i: nat, k: nat)
    requires Ordered(size, s, top) && i < |s| && k < |s| && s[i] + size[s[i]] == s[k] + size[s[k]]
    ensures i == k
  {
  }

  lemma SamePlace(size: map<int, int>, s: seq<int>, top: int, i: nat, k: nat)
    requires Ordered(size, s, top) && i < |s| && k < |s| && s[i] == s[k]
    ensures i == k
  {
  }

  /** The units from `from` to `from + n`. */
  ghost function Range(from: int, n: int): iset<int> {
    iset u | Between(u, from, n)
  }

  predicate Between(u: int, from: int, n: int) {
    from <= u < from + n
  }

  /** morecore's request for `nu` units, at least MINCORE, `gap` past the break. */
  ghost predicate Obtained(top: int, obtained: iset<int>, gap: nat, nu: nat, top': int, obtained': iset<int>) {
    var n := if nu < 4096 then 4096 else nu;
    top' == top + gap + n && obtained' == obtained + Range(top + gap, n)
  }

  // ---- The allocator ----

  /** Header units for a request of `nbytes` bytes. */
  function Units(nbytes: nat): (n: nat)
    ensures n > 0 && nbytes <= (n - 1) * 8 < nbytes + 8
  {
    (nbytes + HEADER - 1) / HEADER + 1
  }

  /** The list as malloc's first statements leave it, made if there is none yet. */
  function Ring0(s: seq<int>): seq<int> {
    if s == [] then [BASE] else s
  }

  function Sizes0(size: map<int, int>, freep: int): map<int, int> {
    if freep == 0 then size[BASE := 0] else size
  }

  class Heap {
    var ptr: map<int, int>
    var size: map<int, int>
    var freep: int              // 0 before the first call of malloc
    ghost var ring: seq<int>    // the free list from BASE on
    ghost var live: map<int, int>  // blocks handed out, with their sizes
    var top: int                // the break, kept by the kernel
    ghost var obtained: iset<int>

    ghost predicate Valid()
      reads this
    {
      if freep == 0 then ring == [] && live == map[] && obtained == iset{} && BASE < top
      else freep in ring && Sound(ptr, size, ring, live, top, obtained)
    }

    constructor (brk: int)
      requires BASE < brk
      ensures Valid() && live == map[] && obtained == iset{} && top == brk
    {
      ptr, size, freep := map[], map[], 0;
      ring, live, top, obtained := [], map[], brk, iset{};
    }

    /** The search of free, along the list from `freep`. */
    method FindSlot(bp: int) returns (p: int, ghost j: nat, ghost m: nat)
      requires Valid() && bp in live
      ensures Entering(size, ring, bp, live[bp], j, m, top) && p == ring[j]
      ensures LastBelow(ring, bp, p)
    {
      hide InFree, InLive, LiveApart, Accounted, LastBelow, Ordered, Entering, BelongsAfter;
      j, m := LiveEnters(ptr, size, ring, live, top, obtained, bp);
      PlaceIsLast(size, ring, bp, j, top);
      p := freep;
      ghost var k :| 0 <= k < |ring| && ring[k] == freep;
      SearchStops(ptr, size, ring, top, bp, j, k);
      while !(bp > p && bp < ptr[p])
        invariant 0 <= k < |ring| && p == ring[k]
        invariant (p < bp < ptr[p] || (p >= ptr[p] && (bp > p || bp < ptr[p]))) <==> k == j
        decreases Dist(|ring|, k, j)
      {
        if p >= ptr[p] && (bp > p || bp < ptr[p]) {
          break;
        }
        p := ptr[p];
        k := if k + 1 < |ring| then k + 1 else 0;
        SearchStops(ptr, size, ring, top, bp, j, k);
      }
    }

    /** The block at `bp` goes back; `freep` is the free block holding it or the
        one just below it. */
    method Release(bp: int)
      requires Valid() && bp in live
      modifies this`ptr, this`size, this`freep, this`ring, this`live
      ensures Valid() && freep != 0 && live == old(live) - {bp}
      ensures Fits(size, ring, old(live[bp])) && LastBelow(ring, bp, freep)
      ensures Joins(old(size), old(ring), bp, old(live[bp]), size, ring, freep)
    {
      hide Sound, Ordered, InFree, LastBelow, Joins;
      var p;
      ghost var j, m;
      p, j, m := FindSlot(bp);
      BlocksInMaps(bp, j, m);
      var next := ptr[p];
      if bp + size[bp] == next {
        size := size[bp := size[bp] + size[next]];
        ptr := ptr[bp := ptr[next]];
      } else {
        ptr := ptr[bp := ptr[p]];
      }
      assert ptr == old(ptr)[bp := At(ring, m)] && size == Grown(old(size), ring, bp, live[bp], j, m);
      if p + size[p] == bp {
        FreedBelow(old(ptr), old(size), ring, live, top, obtained, bp, j, m);
        size := size[p := size[p] + size[bp]];
        ptr := ptr[p := ptr[bp]];
        ring := Splice(ring, j, [], m);
        assert ring[j] == p && size[p] >= old(live[bp]);
      } else {
        FreedApart(old(ptr), old(size), ring, live, top, obtained, bp, j, m);
        ptr := ptr[p := bp];
        ring := Splice(ring, j, [bp], m);
        assert ring[j] == p && ring[j + 1] == bp && size[bp] >= old(live[bp]);
      }
      Joined(old(size), old(ring), bp, live[bp], j, m, top, size, ring);
      live := live - {bp};
      freep := p;
      SpliceLast(old(size), old(ring), bp, j, m, top, ring);
    }

    /** What the assignments of free read. */
    lemma BlocksInMaps(bp: int, j: nat, m: nat)
      requires Valid() && bp in live && Entering(size, ring, bp, live[bp], j, m, top)
      ensures freep != 0 && Sound(ptr, size, ring, live, top, obtained)
      ensures ring[j] in ptr && ring[j] in size && ring[j] != bp && size[ring[j]] >= 0
      ensures bp in size && size[bp] == live[bp]
      ensures bp + live[bp] == ptr[ring[j]] <==> m == j + 2
      ensures ptr[ring[j]] == At(ring, j + 1) && ptr[ring[j]] in ptr
      ensures m == j + 2 ==>
                ring[j + 1] in size && size[ring[j + 1]] > 0 && ring[j + 1] != bp && ptr[ring[j + 1]] == At(ring, m)
      ensures 0 != ring[j]
    {
      Next(ptr, ring, j);
      if m == j + 2 {
        Next(ptr, ring, j + 1);
      }
      EnteringIsNew(size, ring, bp, live[bp], j, m, top);
      assert j > 0 ==> ring[0] + size[ring[0]] < ring[j];
    }

    method Free(ap: int)
      requires Valid() && ap - 1 in live
      modifies this`ptr, this`size, this`freep, this`ring, this`live
      ensures Valid() && live == old(live) - {ap - 1} && LastBelow(ring, ap - 1, freep)
      ensures Joins(old(size), old(ring), ap - 1, old(live[ap - 1]), size, ring, freep)
    {
      Release(ap - 1);
    }

    /** `grow` is the answer of sbrk: None when it fails, else how far the
        break had moved since the last call. */
    method MoreCore(nu: nat, grow: Option<nat>) returns (hp: int)
      requires Valid() && freep != 0 && nu > 0
      modifies this
      ensures Valid() && freep != 0 && live == old(live)
      ensures hp == if grow.None? then 0 else freep
      ensures grow.None? ==>
                && ptr == old(ptr) && size == old(size) && ring == old(ring) && top == old(top)
                && obtained == old(obtained) && freep == old(freep)
      ensures grow.Some? ==> Fits(size, ring, nu) && Obtained(old(top), old(obtained), grow.value, nu, top, obtained)
      ensures grow.Some? ==>
                var m := if nu < MINCORE then MINCORE else nu;
                Enlarged(old(size), old(ring), top - m, m, size, ring, freep)
    {
      hide Sound, Fits, Range, Joins, Enlarged;
      var n := if nu < MINCORE then MINCORE else nu;
      if grow.None? {
        return 0;
      }
      var p := top + grow.value;
      Grow(ptr, size, ring, live, top, obtained, p, n);
      size := size[p := n];
      live, top, obtained := live[p := n], p + n, obtained + Range(p, n);
      Release(p);
      JoinedNew(old(ptr), old(size), old(ring), old(live), old(top), old(obtained), p, n, size, ring, freep);
      FitsLess(size, ring, n, nu);
      assert live == old(live);
      hp := freep;
    }

    /** What the assignments of malloc read. */
    lemma TakeReads(k: nat)
      requires Valid() && freep != 0 && 0 < k < |ring|
      ensures Sound(ptr, size, ring, live, top, obtained)
      ensures ring[k] in ptr && ring[k] in size && size[ring[k]] > 0 && BASE < ring[k]
      ensures ring[k - 1] in ptr && ring[k - 1] != 0
    {
      assert ring[0] + size[ring[0]] < ring[k];
      assert k > 1 ==> ring[0] + size[ring[0]] < ring[k - 1];
    }

    /** The body of malloc's loop once a large enough block `p` is found. */
    method Take(prevp: int, p: int, n: nat, ghost k: nat) returns (r: int)
      requires Valid() && freep != 0 && n > 0
      requires 0 < k < |ring| && ring[k] == p && ring[k - 1] == prevp && p in size && size[p] >= n
      modifies this`ptr, this`size, this`freep, this`ring, this`live
      ensures Valid() && r > 1 && r - 1 !in old(live) && live == old(live)[r - 1 := n]
      ensures p in old(size) && r - 1 == p + old(size)[p] - n && freep == prevp
      ensures Cut(old(size), old(ring), k, n, size, ring)
    {
      hide Sound;
      RingInSize(k);
      TakeReads(k);
      var q := p;
      if size[p] == n {
        CarveWhole(ptr, size, ring, live, top, obtained, k);
        ptr := ptr[prevp := ptr[p]];
        ring := Splice(ring, k - 1, [], k + 1);
        assert ring[k - 1] == prevp;
      } else {
        CarveTail(ptr, size, ring, live, top, obtained, k, n);
        size := size[p := size[p] - n];
        q := p + size[p];
        size := size[q := n];
      }
      live := live[q := n];
      freep := prevp;
      r := q + 1;
    }

    lemma RingInSize(k: nat)
      requires Valid() && freep != 0 && k < |ring|
      ensures forall i | 0 <= i < |ring| :: ring[i] in size && (i != k ==> ring[i] != ring[k])
      ensures forall i | 0 <= i < |ring| :: ring[i] + size[ring[i]] <= top
      ensures forall i | 0 <= i < |ring| && i != k ::
                ring[i] != ring[k] + size[ring[k]] && !(ring[k] < ring[i] < ring[k] + size[ring[k]])
    {
      forall i | 0 <= i < |ring| && i != k
        ensures ring[i] != ring[k] && !(ring[k] <= ring[i] <= ring[k] + size[ring[k]])
      {
        if i < k { assert ring[i] + size[ring[i]] < ring[k]; }
        if i > k { assert ring[k] + size[ring[k]] < ring[i]; }
      }
    }

    /** The first call of malloc makes the list of the empty block at BASE. */
    method Start() returns (prevp: int)
      requires Valid()
      modifies this`ptr, this`size, this`freep, this`ring
      ensures Valid() && freep != 0 && prevp == freep
      ensures forall n | n > 0 :: Fits(size, ring, n) == old(Fits(size, ring, n))
      ensures old(freep) != 0 ==> size == old(size) && ring == old(ring) && freep == old(freep)
      ensures old(freep) == 0 ==> old(ring) == []
      ensures ring == Ring0(old(ring)) && size == Sizes0(old(size), old(freep))
    {
      if freep == 0 {
        freep := BASE;
        ptr := ptr[BASE := BASE];
        size := size[BASE := 0];
        ring := [BASE];
        assert Ordered(size, ring, top);
      }
      prevp := freep;
    }

    /** What the loop of malloc reads at position `k`. */
    lemma LoopReads(k: nat)
      requires Valid() && freep != 0 && k < |ring|
      ensures ring[k] in ptr && ring[k] in size && ptr[ring[k]] == ring[After(|ring|, k)]
      ensures size[ring[k]] > 0 ==> k > 0
      ensures forall i | 0 <= i < |ring| && ring[i] == ring[k] :: i == k
    {
      forall i | 0 <= i < |ring| && i != k ensures ring[i] != ring[k] {
        if i < k { assert ring[i] + size[ring[i]] < ring[k]; }
        if i > k { assert ring[k] + size[ring[k]] < ring[i]; }
      }
    }

    /** One pass of malloc's loop round the list, from the block after `freep`
        at position `f`: it stops at the first block of `n` units, or at `freep`. */
    method Search(n: nat, ghost f: nat) returns (prevp: int, p: int, ghost k: nat)
      requires Valid() && freep != 0 && f < |ring| && ring[f] == freep
      ensures k < |ring| && ring[k] == p && (k > 0 ==> ring[k - 1] == prevp)
      ensures Seen(size, ring, f, k, n) && p in size
      ensures size[p] >= n || p == freep
    {
      hide Sound, Seen;
      LoopReads(f);
      SeenStart(size, ring, f, n);
      prevp, k := freep, After(|ring|, f);
      p := ptr[prevp];
      LoopReads(k);
      while size[p] < n && p != freep
        invariant 0 <= k < |ring| && ring[k] == p && (k > 0 ==> ring[k - 1] == prevp)
        invariant p in size && p in ptr && ptr[p] == ring[After(|ring|, k)]
        invariant Seen(size, ring, f, k, n)
        decreases Dist(|ring|, k, f)
      {
        SeenOn(size, ring, f, k, n);
        prevp, k := p, After(|ring|, k);
        p := ptr[p];
        LoopReads(k);
      }
    }

    /** What malloc does once round the list without success: it asks sbrk, and goes
        round once more, to the block that the new memory is in. */
    method AskAndTake(n: nat, grow: Option<nat>) returns (r: int)
      requires Valid() && freep != 0 && n > 0 && !Fits(size, ring, n)
      modifies this
      ensures Valid() && (r == 0 <==> grow.None?)
      ensures r == 0 ==> live == old(live) && top == old(top) && obtained == old(obtained)
      ensures r != 0 ==> r - 1 !in old(live) && live == old(live)[r - 1 := n]
      ensures r != 0 ==> Obtained(old(top), old(obtained), grow.value, n, top, obtained)
      ensures r != 0 ==>
                var m := if n < MINCORE then MINCORE else n;
                && r - 1 == top - n && freep == BeforeNew(old(size), old(ring), top - m)
                && ServesEnlarged(old(size), old(ring), top - m, m, n, r - 1, top, size, ring, freep)
    {
      hide Sound, Fits, Range, Seen, Serves, ServesEnlarged, Ordered, Cut, Enlarged, BeforeNew, Obtained;
      ghost var size0, ring0, m := size, ring, if n < MINCORE then MINCORE else n;
      RingInSize(0);
      BelowTop();
      var p := MoreCore(n, grow);
      if p == 0 {
        return 0;
      }
      NewPlace(old(top), old(obtained), grow.value, n, top, obtained);
      ghost var f :| 0 <= f < |ring| && ring[f] == freep;
      var prevp;
      ghost var k;
      prevp, p, k := Search(n, f);
      LoopReads(f);
      Reached(f, k, n);
      LoopReads(k);
      ghost var size1, ring1, freep1 := size, ring, freep;
      InOrder();
      r := Take(prevp, p, n, k);
      ServedAt(size1, ring1, freep1, n, r - 1, size, ring, freep, f, k);
      NewMemoryServes(size0, ring0, top - m, m, n, size1, ring1, freep1, r - 1, size, ring, freep);
      ServedEnlarged(size0, ring0, top - m, m, n, r - 1, top, size, ring, freep, size1, ring1, freep1);
    }

    lemma InOrder()
      requires Valid() && freep != 0
      ensures Ordered(size, ring, top)
    {
    }

    lemma BelowTop()
      requires Valid() && freep != 0
      ensures ring != [] && forall x | x in ring :: x in size && x < top
      ensures forall i, k | 0 <= i < k < |ring| :: ring[i] != ring[k]
    {
      forall i, k | 0 <= i < k < |ring| ensures ring[i] != ring[k] {
        assert ring[i] + size[ring[i]] < ring[k];
      }
      forall i | 0 <= i < |ring| ensures ring[i] in size && ring[i] < top {
        assert i == 0 || size[ring[i]] > 0;
      }
    }

    lemma NewPlace(top0: int, obtained0: iset<int>, gap: nat, n: nat, top1: int, obtained1: iset<int>)
      requires Obtained(top0, obtained0, gap, n, top1, obtained1)
      ensures top0 <= top1 - if n < MINCORE then MINCORE else n
    {
      hide Range;
    }

    /** `asked` tells whether sbrk was called; it is called at most once, and the
        loop then goes round once more. */
    method Malloc(nbytes: nat, grow: Option<nat>) returns (r: int, ghost asked: bool)
      requires Valid()
      modifies this
      ensures Valid()
      ensures asked == !old(Fits(size, ring, Units(nbytes)))
      ensures r == 0 <==> asked && grow.None?
      ensures r == 0 ==> live == old(live)
      ensures r != 0 ==> r - 1 !in old(live) && live == old(live)[r - 1 := Units(nbytes)]
      ensures !asked ==> Serves(old(size), old(ring), old(freep), Units(nbytes), r - 1, size, ring, freep)
      ensures !(asked && grow.Some?) ==> top == old(top) && obtained == old(obtained)
      ensures asked && grow.Some? ==> Obtained(old(top), old(obtained), grow.value, Units(nbytes), top, obtained)
      ensures asked && grow.Some? ==>
                var m := if Units(nbytes) < MINCORE then MINCORE else Units(nbytes);
                && r - 1 == top - Units(nbytes) && freep == BeforeNew(old(size), old(ring), top - m)
                && ServesEnlarged(Sizes0(old(size), old(freep)), Ring0(old(ring)), top - m, m, Units(nbytes), r - 1,
                                  top, size, ring, freep)
    {
      hide Sound, Fits, Range, Seen, Serves, ServesEnlarged, Cut, Obtained;
      var nunits := Units(nbytes);
      asked := false;
      NoneFits(size, nunits);
      var prevp := Start();
      ghost var f :| 0 <= f < |ring| && ring[f] == freep;
      var p;
      ghost var k;
      prevp, p, k := Search(nunits, f);
      LoopReads(f);
      if size[p] >= nunits {
        FitsAt(size, ring, k, nunits);
        LoopReads(k);
        ghost var size1, ring1, freep1 := size, ring, freep;
        r := Take(prevp, p, nunits, k);
        ServedAt(size1, ring1, freep1, nunits, r - 1, size, ring, freep, f, k);
      } else {
        SeenAll(size, ring, f, nunits);
        asked := true;
        r := AskAndTake(nunits, grow);
      }
    }

    /** With a large enough block in the list a pass finds one. */
    lemma Reached(f: nat, k: nat, n: nat)
      requires f < |ring| && k < |ring| && Seen(size, ring, f, k, n) && Fits(size, ring, n)
      requires ring[k] in size && (size[ring[k]] >= n || k == f)
      ensures size[ring[k]] >= n
    {
      if k == f && size[ring[k]] < n {
        SeenAll(size, ring, f, n);
      }
    }
  }
}
