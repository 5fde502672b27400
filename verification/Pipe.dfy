/** src/pipe.c. Each method is what one process does between getting the pipe's lock and
    giving it up, by returning or in sleep; processes take turns in any order. */
module Pipe {
  const PIPESIZE := 512
  const UINT := 0x1_0000_0000

  datatype Answer = Returns(n: int) | Sleeps

  /** The counters, which wrap, tell an empty pipe from a full one, and find the slot. */
  lemma Counters(r: nat, w: nat)
    requires r <= w <= r + PIPESIZE
    ensures r % UINT == w % UINT <==> r == w
    ensures (r % UINT + PIPESIZE) % UINT == w % UINT <==> w == r + PIPESIZE
    ensures w % UINT % PIPESIZE == w % PIPESIZE && r % UINT % PIPESIZE == r % PIPESIZE
    ensures (w % UINT + 1) % UINT == (w + 1) % UINT && (r % UINT + 1) % UINT == (r + 1) % UINT
  {
    Remainder(r);
    Remainder(w);
    Wraps(r, w - r);
    Wraps(r, PIPESIZE);
    Wraps(w, 1);
    Wraps(r, 1);
    Apart(r, w);
    Apart(w, r + PIPESIZE);
  }

  lemma Wraps(x: nat, d: nat)
    ensures (x % UINT + d) % UINT == (x + d) % UINT
  {}

  lemma Apart(a: nat, b: nat)
    requires a <= b < a + UINT
    ensures a % UINT == b % UINT <==> a == b
  {}

  lemma Remainder(x: int)
    ensures x % UINT % PIPESIZE == x % PIPESIZE
  {}

  /** The bytes in flight are in the ring. */
  ghost predicate InRing(data: seq<int>, stored: seq<int>, r: int) {
    && |data| == PIPESIZE && 0 <= r <= |stored| <= r + PIPESIZE
    && forall k {:trigger stored[k]} | r <= k < |stored| :: data[k % PIPESIZE] == stored[k]
  }

  lemma StoreKeepsRing(data: seq<int>, stored: seq<int>, r: int, b: int)
    requires InRing(data, stored, r) && |stored| < r + PIPESIZE
    ensures InRing(data[|stored| % PIPESIZE := b], stored + [b], r)
  {}

  class Pipe {
    const data: array<int>
    var nread: int
    var nwrite: int
    var readopen: bool
    var writeopen: bool
    /** Processes asleep in piperead and in pipewrite. */
    var readers: set<int>
    var writers: set<int>
    /** All bytes ever stored, and how many of them have been read. */
    ghost var stored: seq<int>
    ghost var taken: nat

    /** While somebody holds the lock. */
    ghost predicate Consistent()
      reads this, data
    {
      && data.Length == PIPESIZE && InRing(data[..], stored, taken)
      && nread == taken % UINT && nwrite == |stored| % UINT
    }

    /** When the lock is free: a sleeping reader means an empty pipe and a writer to
        come, a sleeping writer a full pipe and a reader to come. */
    ghost predicate Valid()
      reads this, data
    {
      && Consistent()
      && (readers != {} ==> taken == |stored| && writeopen && readopen)
      && (writers != {} ==> |stored| == taken + PIPESIZE && readopen && writeopen)
    }

    constructor ()
      ensures Valid() && stored == [] && taken == 0 && readopen && writeopen && readers == {} == writers && fresh(data)
    {
      data := new int[PIPESIZE];
      nread, nwrite, readopen, writeopen, readers, writers, stored, taken := 0, 0, true, true, {}, {}, [], 0;
    }

    /** One byte into a pipe that is not full. */
    method Store(b: int)
      requires Consistent() && |stored| < taken + PIPESIZE
      modifies this`nwrite, this`stored, data
      ensures Consistent() && stored == old(stored) + [b]
    {
      Counters(taken, |stored|);
      StoreKeepsRing(data[..], stored, taken, b);
      ghost var ring := data[..];
      data[nwrite % PIPESIZE] := b;
      assert data[..] == ring[|stored| % PIPESIZE := b];
      nwrite := (nwrite + 1) % UINT;
      stored := stored + [b];
    }

    /** pipewrite by process `me`, which has stored `addr[..i]` already: it stores what
        fits; then it has stored all, or meets a full pipe and fails, if no reader is
        left or it was killed, or sleeps. Failing, it wakes nobody: if a reader was
        asleep, so that the pipe was empty, and the write fills it before it notices
        that it was killed, that reader sleeps on with a full pipe. Only then. */
    method Write(addr: seq<int>, i: nat, killed: bool, me: int) returns (r: Answer, j: nat)
      requires Valid() && writeopen && i <= |addr|
      modifies this, data
      ensures Valid() <==> !(killed && old(readers) != {} && |addr| - i > PIPESIZE)
      ensures Consistent() && i <= j <= |addr| && stored == old(stored) + addr[i..j] && taken == old(taken)
      ensures readopen == old(readopen) && writeopen == old(writeopen)
      ensures j < |addr| ==> |stored| == taken + PIPESIZE
      ensures r == if j == |addr| then Returns(|addr|) else if !readopen || killed then Returns(-1) else Sleeps
      ensures writers == if r == Sleeps then old(writers) + {me} else old(writers)
      ensures readers == if r == Returns(-1) then old(readers) else {}
    {
      j := i;
      while j < |addr|
        invariant i <= j <= |addr| && Consistent() && stored == old(stored) + addr[i..j] && taken == old(taken)
        invariant readopen == old(readopen) && writeopen == old(writeopen) && readers == old(readers)
        invariant writers == old(writers)
        invariant old(|stored|) == old(taken) + PIPESIZE ==> j == i
      {
        Counters(taken, |stored|);
        if nwrite == (nread + PIPESIZE) % UINT {
          if !readopen || killed {
            r := Returns(-1);
            return;
          }
          readers := {};
          writers := writers + {me};
          return Sleeps, j;
        }
        Store(addr[j]);
        j := j + 1;
      }
      readers := {};
      return Returns(|addr|), j;
    }

    /** One byte out of a pipe that is not empty. */
    method Fetch() returns (b: int)
      requires Consistent() && taken < |stored|
      modifies this`nread, this`taken
      ensures Consistent() && taken == old(taken) + 1 && b == stored[old(taken)]
    {
      Counters(taken, |stored|);
      b := data[nread % PIPESIZE];
      assert b == data[..][taken % PIPESIZE];
      nread := (nread + 1) % UINT;
      taken := taken + 1;
    }

    /** piperead by process `me`: it sleeps on an empty pipe while a writer may come, unless
        killed; otherwise it gets the next bytes, as many as there are. */
    method Read(n: nat, killed: bool, me: int) returns (r: Answer, got: seq<int>)
      requires Valid() && readopen
      modifies this
      ensures Valid() && stored == old(stored) && taken == old(taken) + |got| && got == stored[old(taken)..taken]
      ensures readopen == old(readopen) && writeopen == old(writeopen)
      ensures if old(taken) == |stored| && writeopen then got == [] && r == (if killed then Returns(-1) else Sleeps)
        else r == Returns(|got|) && |got| == if n < |stored| - old(taken) then n else |stored| - old(taken)
      ensures readers == if r == Sleeps then old(readers) + {me} else old(readers)
      ensures writers == if old(taken) == |stored| && writeopen then old(writers) else {}
    {
      got := [];
      Counters(taken, |stored|);
      if nread == nwrite && writeopen {
        if killed {
          return Returns(-1), got;
        }
        readers := readers + {me};
        return Sleeps, got;
      }
      var i := 0;
      while i < n
        invariant 0 <= i <= n && Consistent() && stored == old(stored) && taken == old(taken) + i && |got| == i
        invariant got == stored[old(taken)..taken]
        invariant readopen == old(readopen) && writeopen == old(writeopen) && readers == old(readers)
      {
        Counters(taken, |stored|);
        if nread == nwrite {
          break;
        }
        var b := Fetch();
        got := got + [b];
        i := i + 1;
      }
      writers := {};
      return Returns(i), got;
    }

    /** pipeclose of an end nobody sleeps at; true if the pipe is freed. */
    method Close(writable: bool) returns (freed: bool)
      requires Valid() && (if writable then writers == {} else readers == {})
      modifies this
      ensures Valid() && stored == old(stored) && taken == old(taken)
      ensures writeopen == (old(writeopen) && !writable) && readopen == (old(readopen) && writable)
      ensures freed <==> !readopen && !writeopen
      ensures if writable then readers == {} else writers == {}
    {
      if writable {
        writeopen := false;
        readers := {};
      } else {
        readopen := false;
        writers := {};
      }
      freed := !readopen && !writeopen;
    }

    /** Readers and writers are never both asleep. */
    lemma NotBothAsleep()
      requires Valid()
      ensures readers == {} || writers == {}
    {}
  }

  /** How that case comes about: one process reads from an empty pipe and sleeps, another
      writes 513 bytes and is killed. The reader sleeps beside a full pipe. */
  method StrandReader() returns (p: Pipe)
    ensures fresh(p) && !p.Valid() && p.readers == {1} && |p.stored| == p.taken + PIPESIZE && p.writeopen
  {
    p := new Pipe();
    var r, got := p.Read(1, false, 1);
    var w, j := p.Write(seq(PIPESIZE + 1, k => 0), 0, true, 2);
  }
}
