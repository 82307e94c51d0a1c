/** Pipes (`pipe.c`): a ring of 512 bytes between two 32-bit counters that wrap.
    Each method is what one process does between taking the pipe's lock and
    sleeping or returning. */
module Pipe {
  import opened Disk

  const PIPESIZE: nat := 512
  const WRAP: nat := 0x1_0000_0000

  datatype Ring = Ring(data: seq<Byte>, nread: Word, nwrite: Word)

  function Incremented(w: Word): Word {
    (w + 1) % 0x1_0000_0000
  }

  predicate Full(r: Ring) {
    r.nwrite == (r.nread + 512) % 0x1_0000_0000
  }

  predicate Empty(r: Ring) {
    r.nread == r.nwrite
  }

  /** What the counters and the buffer stand for: every byte stored so far and
      every byte delivered so far. */
  ghost predicate Represents(r: Ring, stored: seq<Byte>, delivered: seq<Byte>) {
    && |r.data| == 512
    && delivered <= stored && |stored| - |delivered| <= 512
    && r.nread == |delivered| % 0x1_0000_0000 && r.nwrite == |stored| % 0x1_0000_0000
    && (forall k | |delivered| <= k < |stored| :: r.data[k % 512] == stored[k])
  }

  /** 512 divides the wrap, so positions in the ring survive it. */
  lemma WrapKeepsPlace(n: nat)
    ensures n % 0x1_0000_0000 % 512 == n % 512
    ensures (n % 0x1_0000_0000 + 1) % 0x1_0000_0000 == (n + 1) % 0x1_0000_0000
  {
  }

  lemma PlacesDiffer(k: nat, n: nat)
    requires k < n < k + 512
    ensures k % 512 != n % 512
  {
  }

  lemma FullExactly(r: Ring, stored: seq<Byte>, delivered: seq<Byte>)
    requires Represents(r, stored, delivered)
    ensures Full(r) <==> |stored| - |delivered| == 512
    ensures Empty(r) <==> |stored| == |delivered|
    ensures (r.nwrite - r.nread) % 0x1_0000_0000 == |stored| - |delivered|
  {
  }

  function Put(r: Ring, b: Byte): Ring
    requires |r.data| == 512
  {
    Ring(r.data[r.nwrite % 512 := b], r.nread, Incremented(r.nwrite))
  }

  lemma PutKeeps(r: Ring, stored: seq<Byte>, delivered: seq<Byte>, b: Byte)
    requires Represents(r, stored, delivered) && !Full(r)
    ensures Represents(Put(r, b), stored + [b], delivered)
  {
    FullExactly(r, stored, delivered);
    hide Full;
    WrapKeepsPlace(|stored|);
    forall k | |delivered| <= k < |stored| + 1 ensures Put(r, b).data[k % 512] == (stored + [b])[k] {
      if k < |stored| {
        PlacesDiffer(k, |stored|);
      }
    }
  }

  function Get(r: Ring): Ring {
    r.(nread := Incremented(r.nread))
  }

  lemma GetKeeps(r: Ring, stored: seq<Byte>, delivered: seq<Byte>)
    requires Represents(r, stored, delivered) && !Empty(r)
    ensures Represents(Get(r), stored, delivered + [r.data[r.nread % 512]])
  {
    FullExactly(r, stored, delivered);
    WrapKeepsPlace(|delivered|);
    assert r.data[|delivered| % 512] == stored[|delivered|];
    var b := r.data[r.nread % 512];
    assert b == stored[|delivered|];
    assert delivered + [b] <= stored;
  }

  // ---- Any interleaving of single bytes ----

  datatype Event = Store(b: Byte) | Take

  datatype Play = Play(ring: Ring, stored: seq<Byte>, taken: seq<Byte>)

  /** Writers and readers act in the order `evs`; one that finds the ring full
      or empty does nothing until its next turn. */
  ghost function Played(start: Ring, evs: seq<Event>): Play
    requires |start.data| == 512
    ensures |Played(start, evs).ring.data| == 512
  {
    if evs == [] then Play(start, [], [])
    else
      var p := Played(start, evs[..|evs| - 1]);
      match evs[|evs| - 1]
      case Store(b) => if Full(p.ring) then p else p.(ring := Put(p.ring, b), stored := p.stored + [b])
      case Take =>
        if Empty(p.ring) then p
        else p.(ring := Get(p.ring), taken := p.taken + [p.ring.data[p.ring.nread % 512]])
  }

  /** What comes out is what went in, in order, with at most 512 bytes between;
      the counters tell how many even after they wrap. */
  lemma {:induction false} Fifo(start: Ring, evs: seq<Event>)
    requires |start.data| == 512 && start.nread == 0 && start.nwrite == 0
    ensures var p := Played(start, evs);
      && p.taken <= p.stored && |p.stored| - |p.taken| <= 512
      && (p.ring.nwrite - p.ring.nread) % 0x1_0000_0000 == |p.stored| - |p.taken|
      && Represents(p.ring, p.stored, p.taken)
  {
    var p := Played(start, evs);
    if evs != [] {
      var q := Played(start, evs[..|evs| - 1]);
      Fifo(start, evs[..|evs| - 1]);
      match evs[|evs| - 1] {
        case Store(b) => if !Full(q.ring) { PutKeeps(q.ring, q.stored, q.taken, b); }
        case Take => if !Empty(q.ring) { GetKeeps(q.ring, q.stored, q.taken); }
      }
    }
    FullExactly(p.ring, p.stored, p.taken);
  }

  // ---- The operations ----

  datatype Outcome = Sleeps | Fails | Done

  function Min(a: nat, b: nat): nat {
    if a < b then a else b
  }

  /** How a stretch of pipewrite that has `left` bytes to store ends, in a pipe that
      holds `held`, and how many bytes it stores. */
  function WriteEnds(held: nat, readopen: bool, killed: bool, left: nat): (Outcome, nat)
    requires held <= PIPESIZE
  {
    var m := Min(left, PIPESIZE - held);
    (if m == left then Done else if !readopen || killed then Fails else Sleeps, m)
  }

  /** How a stretch of piperead ends, and how many bytes it takes. */
  function ReadEnds(held: nat, writeopen: bool, killed: bool, n: nat): (Outcome, nat) {
    if held == 0 && writeopen then (if killed then Fails else Sleeps, 0) else (Done, Min(n, held))
  }

  class PipeState {
    const data: array<Byte>
    var nread: Word
    var nwrite: Word
    var readopen: bool
    var writeopen: bool
    var freed: bool
    ghost var stored: seq<Byte>
    ghost var delivered: seq<Byte>

    ghost predicate Valid()
      reads this, data
    {
      && data.Length == 512 && Represents(Ring(data[..], nread, nwrite), stored, delivered)
      && freed == (!readopen && !writeopen)
    }

    constructor ()
      ensures Valid() && fresh(data) && stored == [] && delivered == [] && readopen && writeopen
    {
      data := new Byte[512](_ => 0);
      nread, nwrite, readopen, writeopen, freed := 0, 0, true, true, false;
      stored, delivered := [], [];
    }

    /** One stretch of pipewrite over `addr`, from byte `i`: it sleeps when the
        pipe is full, fails when nobody can read or it is killed. It wakes the
        readers before it sleeps and when it is done, but not when it fails. */
    method Write(addr: seq<Byte>, i: nat, killed: bool) returns (r: Outcome, i': nat, wakes: bool)
      requires Valid() && !freed && i <= |addr|
      modifies this`nwrite, this`stored, data
      ensures Valid() && delivered == old(delivered)
      ensures i <= i' <= |addr| && stored == old(stored) + addr[i..i']
      ensures old(|delivered| <= |stored| <= |delivered| + 512)
      ensures (r, i' - i) == WriteEnds(old(|stored| - |delivered|), readopen, killed, |addr| - i)
      ensures r == Done <==> i' == |addr|
      ensures r != Done ==> |stored| - |delivered| == 512
      ensures r == Fails <==> i' < |addr| && (!readopen || killed)
      ensures wakes <==> r != Fails
    {
      i', wakes := i, false;
      while i' < |addr|
        invariant Valid() && i <= i' <= |addr| && stored == old(stored) + addr[i..i'] && !wakes
      {
        FullExactly(Ring(data[..], nread, nwrite), stored, delivered);
        if nwrite == (nread + PIPESIZE) % WRAP {
          if !readopen || killed {
            return Fails, i', wakes;
          }
          return Sleeps, i', true;
        }
        PutKeeps(Ring(data[..], nread, nwrite), stored, delivered, addr[i']);
        ghost var was := data[..];
        data[nwrite % PIPESIZE] := addr[i'];
        assert data[..] == was[nwrite % 512 := addr[i']];
        nwrite := (nwrite + 1) % WRAP;
        stored := stored + [addr[i']];
        i' := i' + 1;
      }
      r, wakes := Done, true;
    }

    /** One stretch of piperead of up to `n` bytes: it sleeps while the pipe is
        empty and can still be written. When it is done it wakes the writers. */
    method Read(n: nat, killed: bool) returns (r: Outcome, addr: seq<Byte>, wakes: bool)
      requires Valid() && !freed
      modifies this`nread, this`delivered
      ensures Valid() && stored == old(stored) && delivered == old(delivered) + addr
      ensures old(|delivered| <= |stored|)
      ensures (r, |addr|) == ReadEnds(old(|stored| - |delivered|), writeopen, killed, n)
      ensures r == Done <==> old(|stored| > |delivered|) || !writeopen
      ensures r == Done ==> |addr| == if old(|stored| - |delivered|) < n then old(|stored| - |delivered|) else n
      ensures r == Fails ==> killed
      ensures r == Sleeps ==> !killed
      ensures wakes <==> r == Done
    {
      addr, wakes := [], false;
      FullExactly(Ring(data[..], nread, nwrite), stored, delivered);
      if nread == nwrite && writeopen {
        if killed {
          return Fails, [], wakes;
        }
        return Sleeps, [], wakes;
      }
      var i := 0;
      while i < n
        invariant Valid() && i == |addr| <= n && delivered == old(delivered) + addr
      {
        FullExactly(Ring(data[..], nread, nwrite), stored, delivered);
        if nread == nwrite {
          break;
        }
        GetKeeps(Ring(data[..], nread, nwrite), stored, delivered);
        var b := data[nread % PIPESIZE];
        addr := addr + [b];
        delivered := delivered + [b];
        nread := (nread + 1) % WRAP;
        i := i + 1;
      }
      r, wakes := Done, true;
    }

    /** The pipe's page is freed by whichever end closes last. Closing an end wakes
        those who wait at the other. */
    method Close(writable: bool)
      requires Valid() && (if writable then writeopen else readopen)
      modifies this`readopen, this`writeopen, this`freed
      ensures Valid() && stored == old(stored) && delivered == old(delivered)
      ensures writeopen == (old(writeopen) && !writable) && readopen == (old(readopen) && writable)
      ensures freed <==> !old(if writable then readopen else writeopen)
    {
      if writable {
        writeopen := false;
      } else {
        readopen := false;
      }
      if !readopen && !writeopen {
        freed := true;
      }
    }
  }
}
