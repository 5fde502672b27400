/** src/bio.c: the buffer cache. Each method is what runs under bcache.lock, with the
    iderw that follows on a buffer nobody else may touch. */
module BufCache {
  import opened Blocks
  import opened Ide

  const NBUF := 10
  /** bcache.head, as an index into `next` and `prev`. */
  const HEAD := NBUF
  const NODEV := -1

  // ---- the LRU list ----

  /** `next` and `prev` link the head and then the buffers of `lru`, in a circle. */
  ghost predicate Ring(next: seq<int>, prev: seq<int>, lru: seq<int>) {
    && |next| == |prev| == NBUF + 1
    && next[HEAD] == (if lru == [] then HEAD else lru[0]) && prev[HEAD] == (if lru == [] then HEAD else lru[|lru| - 1])
    && (forall k {:trigger lru[k]} | 0 <= k < |lru| :: 0 <= lru[k] < NBUF)
    && (forall k {:trigger next[lru[k]]} | 0 <= k < |lru| :: next[lru[k]] == if k + 1 < |lru| then lru[k + 1] else HEAD)
    && (forall k {:trigger prev[lru[k]]} | 0 <= k < |lru| :: prev[lru[k]] == if k > 0 then lru[k - 1] else HEAD)
  }

  ghost predicate Distinct(s: seq<int>) {
    forall j, k {:trigger s[j], s[k]} | 0 <= j < k < |s| :: s[j] != s[k]
  }

  /** `lru` lists every buffer once. */
  ghost predicate Permutation(lru: seq<int>) {
    Distinct(lru) && |lru| == NBUF && forall i | 0 <= i < NBUF :: i in lru
  }

  ghost function Without(lru: seq<int>, k: int): seq<int>
    requires 0 <= k < |lru|
  {
    lru[..k] + lru[k + 1..]
  }

  lemma RingWithout(next: seq<int>, prev: seq<int>, lru: seq<int>, k: int)
    requires Ring(next, prev, lru) && Distinct(lru) && 0 <= k < |lru|
    ensures var b := lru[k];
      && 0 <= next[b] <= HEAD && 0 <= prev[b] <= HEAD
      && Ring(next[prev[b] := next[b]], prev[next[b] := prev[b]], Without(lru, k))
  {
    var b, rest := lru[k], Without(lru, k);
    var next', prev' := next[prev[b] := next[b]], prev[next[b] := prev[b]];
    assert k > 0 ==> lru[k - 1] != b;
    assert k + 1 < |lru| ==> lru[k + 1] != b;
    forall j | 0 <= j < |rest|
      ensures 0 <= rest[j] < NBUF && next'[rest[j]] == (if j + 1 < |rest| then rest[j + 1] else HEAD)
        && prev'[rest[j]] == if j > 0 then rest[j - 1] else HEAD
    {
      var i := if j < k then j else j + 1;
      assert rest[j] == lru[i];
    }
  }

  lemma RingFront(next: seq<int>, prev: seq<int>, lru: seq<int>, b: int)
    requires Ring(next, prev, lru) && Distinct(lru) && 0 <= b < NBUF && b !in lru
    ensures 0 <= next[HEAD] <= HEAD
    ensures Ring(next[b := next[HEAD]][HEAD := b], prev[b := HEAD][next[HEAD] := b], [b] + lru)
  {}

  // ---- which sectors the cache holds, and what they are worth ----

  /** No real sector has two buffers. */
  ghost predicate Unique(bufs: seq<Buf>) {
    forall i, j {:trigger bufs[i], bufs[j]} | 0 <= i < j < |bufs| && bufs[i].dev != NODEV ::
      !(bufs[i].dev == bufs[j].dev && bufs[i].sector == bufs[j].sector)
  }

  /** `current` is what was last written to each sector of disk 1. A buffer of it that
      is valid and not in somebody's hands holds that, and so does the disk, except
      where a dirty buffer keeps it. */
  ghost predicate Coherent(bufs: seq<Buf>, disk: Disk, current: Disk) {
    && |current| == |disk|
    && (forall i {:trigger bufs[i]} | 0 <= i < |bufs| && bufs[i].dev != NODEV ::
          && bufs[i].dev == 1 && 0 <= bufs[i].sector < |disk| && (bufs[i].dirty ==> bufs[i].valid)
          && (bufs[i].valid && !bufs[i].busy ==> bufs[i].data == current[bufs[i].sector])
          && (!bufs[i].dirty ==> disk[bufs[i].sector] == current[bufs[i].sector]))
    && (forall i {:trigger bufs[i]} | 0 <= i < |bufs| && bufs[i].dev == NODEV :: !bufs[i].dirty && !bufs[i].busy)
    && (forall s {:trigger disk[s]} | 0 <= s < |disk| && disk[s] != current[s] ::
          exists i :: 0 <= i < |bufs| && bufs[i].dev == 1 && bufs[i].sector == s)
  }

  predicate Holds(b: Buf, sector: int) {
    b.dev == 1 && b.sector == sector
  }

  function Taken(b: Buf): Buf {
    b.(busy := true)
  }

  function Recycled(b: Buf, sector: int): Buf {
    b.(dev := 1, sector := sector, busy := true, valid := false, dirty := false)
  }

  lemma TakeKeeps(bufs: seq<Buf>, disk: Disk, current: Disk, i: int)
    requires Unique(bufs) && Coherent(bufs, disk, current) && 0 <= i < |bufs| && bufs[i].dev == 1
    ensures Unique(bufs[i := Taken(bufs[i])]) && Coherent(bufs[i := Taken(bufs[i])], disk, current)
  {
    var bufs' := bufs[i := Taken(bufs[i])];
    forall s | 0 <= s < |disk| && disk[s] != current[s]
      ensures exists j :: 0 <= j < |bufs'| && bufs'[j].dev == 1 && bufs'[j].sector == s
    {
      var j :| 0 <= j < |bufs| && bufs[j].dev == 1 && bufs[j].sector == s;
      assert bufs'[j].sector == s;
    }
  }

  /** A clean buffer may be recycled: its sector is on disk. */
  lemma RecycleKeeps(bufs: seq<Buf>, disk: Disk, current: Disk, i: int, sector: int)
    requires Unique(bufs) && Coherent(bufs, disk, current) && 0 <= i < |bufs| && !bufs[i].dirty && 0 <= sector < |disk|
    requires forall j | 0 <= j < |bufs| :: !Holds(bufs[j], sector)
    ensures Unique(bufs[i := Recycled(bufs[i], sector)])
    ensures Coherent(bufs[i := Recycled(bufs[i], sector)], disk, current)
  {
    var bufs' := bufs[i := Recycled(bufs[i], sector)];
    forall s | 0 <= s < |disk| && disk[s] != current[s]
      ensures exists j :: 0 <= j < |bufs'| && bufs'[j].dev == 1 && bufs'[j].sector == s
    {
      var j :| 0 <= j < |bufs| && bufs[j].dev == 1 && bufs[j].sector == s;
      assert bufs'[j].sector == s;
    }
    assert disk[sector] == current[sector];
  }

  /** A change to a buffer in somebody's hands, with what that does to disk and to the
      last written values: the same buffer, valid from now on, and dirty unless the
      disk has the last value. */
  lemma HeldChangeKeeps(bufs: seq<Buf>, disk: Disk, current: Disk, i: int, b: Buf, disk': Disk, current': Disk)
    requires Unique(bufs) && Coherent(bufs, disk, current) && 0 <= i < |bufs| && bufs[i].busy && b.dev == bufs[i].dev
    requires b.sector == bufs[i].sector
    requires |disk'| == |current'| == |disk| && 0 <= b.sector < |disk|
    requires forall s | 0 <= s < |disk| && s != b.sector :: disk'[s] == disk[s] && current'[s] == current[s]
    requires b.dirty ==> b.valid
    requires !b.dirty ==> disk'[b.sector] == current'[b.sector]
    requires b.valid && !b.busy ==> b.data == current'[b.sector]
    ensures Unique(bufs[i := b]) && Coherent(bufs[i := b], disk', current')
  {
    var bufs' := bufs[i := b];
    forall j | 0 <= j < |bufs'| && bufs'[j].dev != NODEV && j != i
      ensures bufs'[j].sector != b.sector
    {}
    forall s | 0 <= s < |disk'| && disk'[s] != current'[s]
      ensures exists j :: 0 <= j < |bufs'| && bufs'[j].dev == 1 && bufs'[j].sector == s
    {
      if s == b.sector {
        assert bufs'[i].sector == s;
      } else {
        assert disk[s] != current[s];
        var j :| 0 <= j < |bufs| && bufs[j].dev == 1 && bufs[j].sector == s;
        assert bufs'[j].sector == s;
      }
    }
  }

  /** Releasing moves a buffer to the front of the list. */
  lemma MovedToFront(next: seq<int>, prev: seq<int>, lru: seq<int>, k: int)
    requires Ring(next, prev, lru) && Permutation(lru) && 0 <= k < |lru|
    ensures Permutation([lru[k]] + Without(lru, k)) && Distinct(Without(lru, k)) && lru[k] !in Without(lru, k)
  {
    var rest := Without(lru, k);
    forall i, j {:trigger rest[i], rest[j]} | 0 <= i < j < |rest|
      ensures rest[i] != rest[j]
    {
      assert rest[i] == lru[if i < k then i else i + 1] && rest[j] == lru[if j < k then j else j + 1];
    }
    forall i | 0 <= i < |rest|
      ensures rest[i] != lru[k]
    {
      assert rest[i] == lru[if i < k then i else i + 1];
    }
    var lru' := [lru[k]] + rest;
    forall i | 0 <= i < NBUF
      ensures i in lru'
    {
      assert i in lru;
      var j :| 0 <= j < |lru| && lru[j] == i;
      assert j < k ==> rest[j] == i;
      assert j > k ==> rest[j - 1] == i;
      assert j == k ==> lru'[0] == i;
    }
  }

  /** Every buffer released before buffer `i` was is busy or dirty. */
  ghost predicate OldestFree(bufs: seq<Buf>, lru: seq<int>, i: int) {
    exists k :: 0 <= k < |lru| && lru[k] == i && forall j {:trigger lru[j]} | k < j < |lru| ::
      0 <= lru[j] < |bufs| && (bufs[lru[j]].busy || bufs[lru[j]].dirty)
  }

  datatype Answer = Got(i: int) | Sleep(i: int) | Panic

  class Cache {
    var bufs: seq<Buf>
    var next: seq<int>
    var prev: seq<int>
    var disk: Disk
    ghost var lru: seq<int>
    ghost var current: Disk

    ghost predicate Listed()
      reads this
    {
      |bufs| == NBUF && Ring(next, prev, lru) && Permutation(lru)
    }

    ghost predicate Valid()
      reads this
    {
      Listed() && Unique(bufs) && Coherent(bufs, disk, current)
    }

    /** binit: no buffer is of a real device yet, and all are in the list. */
    constructor (d: Disk)
      ensures Valid() && disk == d && current == d && forall i | 0 <= i < NBUF :: bufs[i].dev == NODEV && !bufs[i].busy
    {
      disk, current := d, d;
      var bs := seq(NBUF, i => Buf(false, false, false, NODEV, 0, Block([])));
      var nx, pv := seq(NBUF + 1, i => HEAD), seq(NBUF + 1, i => HEAD);
      ghost var order: seq<int> := [];
      var b := 0;
      while b < NBUF
        invariant 0 <= b <= NBUF == |bs| && |order| == b && (forall k | 0 <= k < b :: order[k] == b - 1 - k)
        invariant Ring(nx, pv, order)
        invariant forall i | 0 <= i < NBUF :: bs[i].dev == NODEV && !bs[i].busy && !bs[i].dirty
      {
        RingFront(nx, pv, order, b);
        nx := nx[b := nx[HEAD]];
        pv := pv[b := HEAD];
        pv := pv[nx[HEAD] := b];
        nx := nx[HEAD := b];
        order := [b] + order;
        b := b + 1;
      }
      forall i | 0 <= i < NBUF
        ensures i in order
      {
        assert order[NBUF - 1 - i] == i;
      }
      bufs, next, prev, lru := bs, nx, pv, order;
    }

    /** bget's first loop: the buffer that holds the sector, or HEAD. */
    method FindSector(sector: int) returns (b: int)
      requires Listed()
      ensures b == HEAD || (0 <= b < NBUF && Holds(bufs[b], sector))
      ensures b == HEAD ==> forall i | 0 <= i < NBUF :: !Holds(bufs[i], sector)
    {
      b := next[HEAD];
      ghost var k := 0;
      while b != HEAD && !(bufs[b].dev == 1 && bufs[b].sector == sector)
        invariant 0 <= k <= NBUF && b == (if k < NBUF then lru[k] else HEAD)
        invariant forall j {:trigger lru[j]} | 0 <= j < k :: !Holds(bufs[lru[j]], sector)
        decreases NBUF - k
      {
        b, k := next[b], k + 1;
      }
      if b == HEAD {
        forall i | 0 <= i < NBUF
          ensures !Holds(bufs[i], sector)
        {
          assert i in lru;
        }
      }
    }

    /** bget's second loop: the least recently released buffer that is neither busy
        nor dirty, or HEAD. */
    method FindClean() returns (b: int)
      requires Listed()
      ensures b == HEAD || (0 <= b < NBUF && !bufs[b].busy && !bufs[b].dirty && OldestFree(bufs, lru, b))
      ensures b == HEAD ==> forall i | 0 <= i < NBUF :: bufs[i].busy || bufs[i].dirty
    {
      b := prev[HEAD];
      ghost var k := NBUF - 1;
      while b != HEAD && (bufs[b].busy || bufs[b].dirty)
        invariant -1 <= k < NBUF && b == (if k >= 0 then lru[k] else HEAD)
        invariant forall j {:trigger lru[j]} | k < j < NBUF :: bufs[lru[j]].busy || bufs[lru[j]].dirty
        decreases k + 1
      {
        b, k := prev[b], k - 1;
      }
      if b == HEAD {
        forall i | 0 <= i < NBUF
          ensures bufs[i].busy || bufs[i].dirty
        {
          assert i in lru;
        }
      }
    }

    /** One pass of bget: a buffer for the sector, busy; or sleep on the busy one that
        holds it; or no buffer can be recycled. */
    method Bget(sector: int) returns (r: Answer)
      requires Valid() && 0 <= sector < |disk|
      modifies this`bufs
      ensures Valid() && (!r.Got? ==> bufs == old(bufs))
      ensures !r.Panic? ==> 0 <= r.i < NBUF
      ensures r.Sleep? ==> Holds(bufs[r.i], sector) && bufs[r.i].busy
      ensures r.Got? ==>
        && !old(bufs)[r.i].busy && bufs[r.i].busy && Holds(bufs[r.i], sector)
        && forall j | 0 <= j < NBUF && j != r.i :: bufs[j] == old(bufs)[j]
      ensures r.Got? && Holds(old(bufs)[r.i], sector) ==> bufs == old(bufs)[r.i := Taken(old(bufs)[r.i])]
      ensures r.Got? && !Holds(old(bufs)[r.i], sector) ==>
        && bufs == old(bufs)[r.i := Recycled(old(bufs)[r.i], sector)] && !old(bufs)[r.i].dirty
        && OldestFree(old(bufs), lru, r.i)
      ensures r.Panic? ==>
        forall i | 0 <= i < NBUF :: !Holds(old(bufs)[i], sector) && (old(bufs)[i].busy || old(bufs)[i].dirty)
    {
      var b := FindSector(sector);
      if b != HEAD {
        if bufs[b].busy {
          return Sleep(b);
        }
        TakeKeeps(bufs, disk, current, b);
        bufs := bufs[b := bufs[b].(busy := true)];
        return Got(b);
      }
      b := FindClean();
      if b == HEAD {
        return Panic;
      }
      RecycleKeeps(bufs, disk, current, b, sector);
      bufs := bufs[b := bufs[b].(dev := 1, sector := sector, busy := true, valid := false, dirty := false)];
      return Got(b);
    }

    /** iderw on a held buffer, as on the memory disk. */
    method Rw(i: int)
      requires 0 <= i < |bufs| && 0 <= bufs[i].sector < |disk|
      modifies this`bufs, this`disk
      ensures disk == Written(old(disk), old(bufs)[i]) && bufs == old(bufs)[i := Synced(old(disk), old(bufs)[i])]
    {
      disk, bufs := Written(disk, bufs[i]), bufs[i := Synced(disk, bufs[i])];
    }

    /** bread, unless it sleeps or panics: a held buffer with the last value written. */
    method Bread(sector: int) returns (r: Answer)
      requires Valid() && 0 <= sector < |disk|
      modifies this`bufs, this`disk
      ensures Valid() && disk == old(disk) && (!r.Got? ==> bufs == old(bufs))
      ensures r.Sleep? ==> 0 <= r.i < NBUF && Holds(bufs[r.i], sector) && bufs[r.i].busy
      ensures r.Panic? ==> forall i | 0 <= i < NBUF :: !Holds(bufs[i], sector) && (bufs[i].busy || bufs[i].dirty)
      ensures r.Got? ==>
        && 0 <= r.i < NBUF && Holds(bufs[r.i], sector) && bufs[r.i].busy && bufs[r.i].valid
        && bufs[r.i].data == current[sector]
      ensures r.Got? ==> !old(bufs)[r.i].busy && forall j | 0 <= j < NBUF && j != r.i :: bufs[j] == old(bufs)[j]
    {
      r := Bget(sector);
      if r.Got? && !bufs[r.i].valid {
        HeldChangeKeeps(bufs, disk, current, r.i, Synced(disk, bufs[r.i]), disk, current);
        Rw(r.i);
      }
    }

    /** A client's store into a buffer it holds. */
    method Modify(i: int, data: Block)
      requires Valid() && 0 <= i < NBUF && bufs[i].busy && bufs[i].valid
      modifies this`bufs
      ensures Valid() && bufs == old(bufs)[i := old(bufs)[i].(data := data)]
    {
      HeldChangeKeeps(bufs, disk, current, i, bufs[i].(data := data), disk, current);
      bufs := bufs[i := bufs[i].(data := data)];
    }

    /** bwrite: what the buffer holds is on disk, and the last value written. */
    method Bwrite(i: int) returns (ok: bool)
      requires Valid() && 0 <= i < NBUF && bufs[i].valid && bufs[i].dev == 1
      modifies this`bufs, this`disk, this`current
      ensures Valid() && ok == old(bufs)[i].busy
      ensures ok ==> 0 <= old(bufs)[i].sector < |old(disk)| == |old(current)|
      ensures ok ==>
        && disk == old(disk)[old(bufs)[i].sector := old(bufs)[i].data]
        && current == old(current)[old(bufs)[i].sector := old(bufs)[i].data]
      ensures ok ==> bufs == old(bufs)[i := old(bufs)[i].(dirty := false)]
      ensures !ok ==> bufs == old(bufs) && disk == old(disk) && current == old(current)
    {
      if !bufs[i].busy {
        return false;
      }
      ghost var b := bufs[i];
      bufs := bufs[i := bufs[i].(dirty := true)];
      ghost var current' := current[b.sector := b.data];
      HeldChangeKeeps(old(bufs), disk, current, i, b.(dirty := false), disk[b.sector := b.data], current');
      Rw(i);
      current := current';
      assert bufs == old(bufs)[i := b.(dirty := false)];
      return true;
    }

    /** log_write's `b->flags |= B_DIRTY`: the cache now keeps the last value written. */
    method Pin(i: int)
      requires Valid() && 0 <= i < NBUF && bufs[i].busy && bufs[i].valid && bufs[i].dev == 1
      modifies this`bufs, this`current
      ensures Valid() && bufs == old(bufs)[i := old(bufs)[i].(dirty := true)]
      ensures current == old(current)[bufs[i].sector := bufs[i].data]
    {
      ghost var current' := current[bufs[i].sector := bufs[i].data];
      HeldChangeKeeps(bufs, disk, current, i, bufs[i].(dirty := true), disk, current');
      bufs := bufs[i := bufs[i].(dirty := true)];
      current := current';
    }

    /** brelse by a client that has written what it changed: the buffer is the most
        recently used one. */
    method Brelse(i: int) returns (ok: bool)
      requires Valid() && 0 <= i < NBUF && bufs[i].dev == 1
      requires bufs[i].valid ==> bufs[i].data == current[bufs[i].sector]
      modifies this`bufs, this`next, this`prev, this`lru
      ensures Valid() && ok == old(bufs)[i].busy
      ensures !ok ==> bufs == old(bufs) && lru == old(lru)
      ensures ok ==> bufs == old(bufs)[i := old(bufs)[i].(busy := false)] && lru[0] == i
      ensures ok ==> exists k :: 0 <= k < NBUF && old(lru)[k] == i && lru == [i] + Without(old(lru), k)
    {
      if !bufs[i].busy {
        return false;
      }
      HeldChangeKeeps(bufs, disk, current, i, bufs[i].(busy := false), disk, current);
      assert i in lru;
      ghost var k :| 0 <= k < |lru| && lru[k] == i;
      MoveToFront(i, k);
      bufs := bufs[i := bufs[i].(busy := false)];
      return true;
    }

    /** The six pointer assignments of brelse. */
    method MoveToFront(b: int, ghost k: int)
      requires Listed() && 0 <= k < NBUF && lru[k] == b
      modifies this`next, this`prev, this`lru
      ensures Listed() && lru == [b] + Without(old(lru), k)
    {
      RingWithout(next, prev, lru, k);
      MovedToFront(next, prev, lru, k);
      prev := prev[next[b] := prev[b]];
      next := next[prev[b] := next[b]];
      lru := Without(lru, k);
      RingFront(next, prev, lru, b);
      next := next[b := next[HEAD]];
      prev := prev[b := HEAD];
      prev := prev[next[HEAD] := b];
      next := next[HEAD := b];
      lru := [b] + lru;
    }
  }
}
