/** The free bitmap: bit `b % 8` of byte `b / 8` says whether block `b` is in use. */
module Bitmap {

  function Mask(i: nat): bv8
    requires i < 8
  {
    1 << i
  }

  predicate HasBit(x: bv8, i: nat)
    requires i < 8
  {
    x & Mask(i) != 0
  }

  function SetBit(x: bv8, i: nat): bv8
    requires i < 8
  {
    x | Mask(i)
  }

  function ClearBit(x: bv8, i: nat): bv8
    requires i < 8
  {
    x & !Mask(i)
  }

  predicate InUse(bitmap: seq<bv8>, b: nat)
    requires b / 8 < |bitmap|
  {
    HasBit(bitmap[b / 8], b % 8)
  }

  function Mark(bitmap: seq<bv8>, b: nat): (r: seq<bv8>)
    requires b / 8 < |bitmap|
    ensures |r| == |bitmap|
  {
    bitmap[b / 8 := SetBit(bitmap[b / 8], b % 8)]
  }

  function Unmark(bitmap: seq<bv8>, b: nat): (r: seq<bv8>)
    requires b / 8 < |bitmap|
    ensures |r| == |bitmap|
  {
    bitmap[b / 8 := ClearBit(bitmap[b / 8], b % 8)]
  }

  lemma MaskIsOneBit(i: nat)
    requires i < 8
    ensures Mask(i) == match i
                       case 0 => 0x01 case 1 => 0x02 case 2 => 0x04 case 3 => 0x08
                       case 4 => 0x10 case 5 => 0x20 case 6 => 0x40 case _ => 0x80
  {
  }

  lemma MasksApart(i: nat, j: nat)
    requires i < 8 && j < 8
    ensures Mask(i) != 0
    ensures i != j ==> Mask(i) != Mask(j) && Mask(i) & Mask(j) == 0
  {
    MaskIsOneBit(i);
    MaskIsOneBit(j);
  }

  lemma OneBitOf(x: bv8, a: bv8, b: bv8)
    requires b != 0 && (a == b || a & b == 0)
    ensures (x | a) & b != 0 <==> a == b || x & b != 0
    ensures a == b ==> x & !a & b == 0
    ensures a & b == 0 ==> x & !a & b == x & b
  {
  }

  lemma BitsOfByte(x: bv8, i: nat, j: nat)
    requires i < 8 && j < 8
    ensures HasBit(SetBit(x, i), j) <==> i == j || HasBit(x, j)
    ensures HasBit(ClearBit(x, i), j) <==> i != j && HasBit(x, j)
  {
    MasksApart(i, j);
    hide Mask;
    OneBitOf(x, Mask(i), Mask(j));
  }

  lemma SameBit(b: nat, c: nat)
    ensures b / 8 == c / 8 && b % 8 == c % 8 ==> b == c
  {
    assert b == 8 * (b / 8) + b % 8 && c == 8 * (c / 8) + c % 8;
  }

  /** Marking or unmarking a block changes that block's bit and no other. */
  lemma OneBitChanges(bitmap: seq<bv8>, b: nat, c: nat)
    requires b / 8 < |bitmap| && c / 8 < |bitmap|
    ensures InUse(Mark(bitmap, b), c) <==> c == b || InUse(bitmap, c)
    ensures InUse(Unmark(bitmap, b), c) <==> c != b && InUse(bitmap, c)
  {
    hide HasBit, SetBit, ClearBit;
    SameBit(b, c);
    BitsOfByte(bitmap[b / 8], b % 8, c % 8);
  }

  // ---- A bitmap made from scratch ----

  /** The byte whose bit `k` is `p(8 * j + k)`, filled in up to bit `n`. */
  ghost function ByteFrom(p: nat -> bool, j: nat, n: nat): bv8
    requires n <= 8
  {
    if n == 0 then 0
    else if p(8 * j + n - 1) then SetBit(ByteFrom(p, j, n - 1), n - 1)
    else ByteFrom(p, j, n - 1)
  }

  ghost function BitsFrom(p: nat -> bool, bytes: nat): (r: seq<bv8>)
    ensures |r| == bytes
  {
    seq(bytes, j requires 0 <= j < bytes => ByteFrom(p, j, 8))
  }

  lemma {:induction false} ByteFromBits(p: nat -> bool, j: nat, n: nat, k: nat)
    requires n <= 8 && k < 8
    ensures HasBit(ByteFrom(p, j, n), k) <==> k < n && p(8 * j + k)
  {
    hide HasBit, SetBit;
    if n == 0 {
      NoBits(k);
    } else {
      ByteFromBits(p, j, n - 1, k);
      BitsOfByte(ByteFrom(p, j, n - 1), n - 1, k);
    }
  }

  lemma {:induction false} SameByte(p: nat -> bool, q: nat -> bool, j: nat, n: nat)
    requires n <= 8 && forall b: nat | b / 8 == j :: p(b) == q(b)
    ensures ByteFrom(p, j, n) == ByteFrom(q, j, n)
  {
    if n > 0 {
      assert (8 * j + n - 1) / 8 == j;
      SameByte(p, q, j, n - 1);
    }
  }

  lemma NoBits(k: nat)
    requires k < 8
    ensures !HasBit(0, k)
  {
  }

  /** The blocks it has in use are those it was made for. */
  lemma BitsFromInUse(p: nat -> bool, bytes: nat, b: nat)
    requires b / 8 < bytes
    ensures InUse(BitsFrom(p, bytes), b) <==> p(b)
  {
    ByteFromBits(p, b / 8, 8, b % 8);
    assert 8 * (b / 8) + b % 8 == b;
  }
}
