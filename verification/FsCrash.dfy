/** The file system on top of the log (src/file.c, src/fs.c, src/log.c): filewrite, its
    transactions run through the log of src/log.c, leaves a whole number of chunks on disk
    wherever it crashes. */
module FsCrash {
  import opened Blocks
  import opened Options
  import opened RedoLog
  import opened Fs
  import Log

  /** The in-memory header names exactly these sectors, each once. */
  ghost predicate Names(h: Header, ss: set<int>) {
    && h.Sized() && h.n == |ss|
    && forall s {:trigger s in ss} :: s in ss <==> Last(h.sector, h.n, s) >= 0
  }

  lemma LoggedNames(h: Header, ss: set<int>, sector: int)
    requires Names(h, ss) && |ss| < |h.sector|
    ensures Names(h.Logged(sector), ss + {sector})
  {
    var h', ss' := h.Logged(sector), ss + {sector};
    forall s
      ensures s in ss' <==> Last(h'.sector, h'.n, s) >= 0
    {
      LastAfterLogging(h, sector, s);
      assert s in ss <==> Last(h.sector, h.n, s) >= 0;
    }
    if sector in ss {
      assert ss' == ss;
    }
  }

  lemma {:induction false} HeaderCounts(h: Header, ws: seq<Write>, k: nat)
    requires h.n == 0 && |h.sector| == Log.LOGSIZE && k <= |ws| && forall j | 0 <= j < k :: |Sectors(ws, j)| < MAXLOGGED
    ensures Names(Log.HeaderAfter(h, ws, k), Sectors(ws, k))
  {
    if k > 0 {
      HeaderCounts(h, ws, k - 1);
      assert |Sectors(ws, k - 1)| < MAXLOGGED;
      LoggedNames(Log.HeaderAfter(h, ws, k - 1), Sectors(ws, k - 1), ws[k - 1].sector);
    }
  }

  /** The calls go to sectors outside the log. */
  ghost predicate GoHome(l: Layout, ws: seq<Write>) {
    forall i {:trigger ws[i]} | 0 <= i < |ws| :: l.IsHome(ws[i].sector)
  }

  /** Calls that tally without the panic do not meet it in the log, if it is of full size. */
  lemma {:induction false} TalliedIsLoggable(l: Layout, h: Header, ws: seq<Write>, t: Logged, k: nat)
    requires Tallied(ws, t) && !t.panic && GoHome(l, ws) && k <= |ws|
    requires h.n == 0 && |h.sector| == Log.LOGSIZE == l.cap && l.size >= Log.LOGSIZE
    ensures Log.Loggable(l, h, ws, k)
  {
    if k > 0 {
      TalliedIsLoggable(l, h, ws, t, k - 1);
      assert forall j | 0 <= j < k :: |Sectors(ws, j)| < MAXLOGGED;
      HeaderCounts(h, ws, k - 1);
      assert l.IsHome(ws[k - 1].sector);
    }
  }

  lemma {:induction false} HomeAfter(d: Disk, e: Disk, l: Layout, ws: seq<Write>, k: nat)
    requires l.Fits(d) && l.Fits(e) && Home(d, l) == Home(e, l) && GoHome(l, ws) && k <= |ws|
    ensures l.Fits(After(e, ws, k)) && After(Home(d, l), ws, k) == Home(After(e, ws, k), l)
  {
    if k == 0 {
    } else {
      HomeAfter(d, e, l, ws, k - 1);
      assert l.IsHome(ws[k - 1].sector);
    }
  }

  /** The disk holds what volume `v` says, in its home sectors, and its log is idle. */
  ghost predicate Rests(f: Format, l: Layout, d: Disk, h: Header, v: Volume) {
    Log.Idle(d, l, h) && l.size >= Log.LOGSIZE && l.Fits(OnDisk(f, v)) && Home(d, l) == Home(OnDisk(f, v), l)
  }

  /** Interrupted by these crashes, recovery at last leaves in the home sectors what `v` says. */
  ghost predicate Recovers(f: Format, l: Layout, crashes: seq<Disk>, v: Volume) {
    && crashes != [] && l.Fits(OnDisk(f, v))
    && var last := crashes[|crashes| - 1];
    && Logical(last, l).Some? && l.Fits(Recovered(last, l)) && Home(Recovered(last, l), l) == Home(OnDisk(f, v), l)
  }

  /** A transaction of calls `ws` crashes after `k` sector writes, and then recovery does. */
  ghost predicate Crashes(l: Layout, d: Disk, h: Header, ws: seq<Write>, k: nat, crashes: seq<Disk>) {
    && Log.Idle(d, l, h) && Log.Loggable(l, h, ws, |ws|) && k <= Log.Length(d, l, h, ws)
    && CrashChain(crashes, l) && crashes[0] == Log.DiskAfter(d, l, h, ws, k)
  }

  lemma JournaledDisk(f: Format, t: Transaction)
    requires Journal(f, t.before, t.after, t.calls, t.logged).Some?
    ensures ApplyWrites(OnDisk(f, t.before), t.calls) == OnDisk(f, t.after)
  {
    var after := OnDisk(f, t.after);
    forall s: nat | s < |after|
      ensures ApplyWrites(OnDisk(f, t.before), t.calls)[s] == after[s]
    {
      assert after[s] == SectorOf(f, t.after, s);
    }
  }

  /** Crash atomicity of file system transactions. Let all changes of a transaction be
      journaled, none of its log_writes panic, and all of them go to home sectors; crash
      after any `k` sector writes of its run, then crash any number of recoveries. The
      recovery that completes leaves in the home sectors exactly what was to be on disk
      before the transaction, or exactly what was to be there after it. */
  lemma TransactionIsAtomic(f: Format, t: Transaction, l: Layout, d: Disk, h: Header, k: nat, crashes: seq<Disk>)
    requires Journal(f, t.before, t.after, t.calls, t.logged).Some? && !t.logged.panic && GoHome(l, t.calls)
    requires Rests(f, l, d, h, t.before)
    ensures Log.Loggable(l, h, t.calls, |t.calls|)
    ensures Crashes(l, d, h, t.calls, k, crashes) ==>
      Recovers(f, l, crashes, if k <= |t.calls| then t.before else t.after)
    ensures k == Log.Length(d, l, h, t.calls) ==>
      Rests(f, l, Log.DiskAfter(d, l, h, t.calls, k), HeaderDone(h, t.calls), t.after)
  {
    hide Journal, Tallied, OnDisk, Log.Length, Log.DiskAfter, CrashChain, Logical, Home, Recovered, Log.HeaderAfter;
    TalliedIsLoggable(l, h, t.calls, t.logged, |t.calls|) by { JournalTallies(f, t); }
    HomeAfter(d, OnDisk(f, t.before), l, t.calls, |t.calls|);
    JournaledDisk(f, t);
    if Crashes(l, d, h, t.calls, k, crashes) {
      SomeCrash(crashes, l);
      Log.TransactionIsCrashAtomic(d, l, h, t.calls, k, crashes);
    }
    if k == Log.Length(d, l, h, t.calls) {
      Log.TransactionSwitchesOnce(d, l, h, t.calls, k);
    }
  }

  lemma SomeCrash(crashes: seq<Disk>, l: Layout)
    requires CrashChain(crashes, l)
    ensures crashes != []
  {}

  lemma JournalTallies(f: Format, t: Transaction)
    requires Journal(f, t.before, t.after, t.calls, t.logged).Some?
    ensures Tallied(t.calls, t.logged)
  {}

  /** The in-memory header a transaction leaves. */
  function HeaderDone(h: Header, ws: seq<Write>): (r: Header)
    requires h.Sized()
    ensures r.n == 0 && |r.sector| == |h.sector|
  {
    Log.HeaderAfter(h, ws, |ws|).(n := 0)
  }

  // ---- filewrite as a whole ----

  /** mkfs puts the log at the end of the disk, and initlog finds it there. */
  ghost predicate LogAtEnd(f: Format, l: Layout) {
    l.total == f.total && l.start == f.log && l.start + l.size == l.total
  }

  /** With the log at the end, the home sectors are those below it. */
  lemma BelowIsHome(f: Format, l: Layout, ws: seq<Write>)
    requires LogAtEnd(f, l)
    ensures GoHome(l, ws) <==> Below(ws, f.log)
  {
    if GoHome(l, ws) {
      forall i | 0 <= i < |ws|
        ensures 0 <= ws[i].sector < f.log
      {
        assert l.IsHome(ws[i].sector);
      }
    } else {
      var i :| 0 <= i < |ws| && !l.IsHome(ws[i].sector);
      assert !(0 <= ws[i].sector < f.log);
    }
  }

  datatype Machine = Machine(disk: Disk, head: Header)

  /** The disk, and the header in memory, before transaction `i` of `ts`, run one after
      the other. */
  ghost function Before(l: Layout, m: Machine, ts: seq<Transaction>, i: nat): Option<Machine>
    requires i <= |ts|
  {
    if i == 0 then Some(m)
    else
      var p, ws := Before(l, m, ts, i - 1), ts[i - 1].calls;
      if p.Some? && Log.Idle(p.value.disk, l, p.value.head) && Log.Loggable(l, p.value.head, ws, |ws|)
      then
        var d, h := p.value.disk, p.value.head;
        Some(Machine(Log.DiskAfter(d, l, h, ws, Log.Length(d, l, h, ws)), HeaderDone(h, ws)))
      else None
  }

  /** The disk, and the volume it holds, before each of the transactions of a ledger. */
  ghost predicate Chained(f: Format, from: Volume, to: Volume, ts: seq<Transaction>) {
    forall i {:trigger ts[i]} | 0 <= i < |ts| ::
      && Journal(f, ts[i].before, ts[i].after, ts[i].calls, ts[i].logged).Some?
      && (|ts[i].logged.bitmap| <= 3 ==> !ts[i].logged.panic)
      && ts[i].before == (if i == 0 then from else ts[i - 1].after) && (i == |ts| - 1 ==> ts[i].after == to)
  }

  /** A ledger with one transaction more at its end. */
  lemma ChainedMore(f: Format, from: Volume, ts: seq<Transaction>, t: Transaction)
    requires Chained(f, from, t.before, ts) && (ts == [] ==> t.before == from)
    requires Journal(f, t.before, t.after, t.calls, t.logged).Some? && (|t.logged.bitmap| <= 3 ==> !t.logged.panic)
    ensures Chained(f, from, t.after, ts + [t])
  {
    hide Journal;
    var us := ts + [t];
    assert us[|ts|] == t && forall i | 0 <= i < |ts| :: us[i] == ts[i];
    forall i | 0 <= i < |us|
      ensures us[i].before == if i == 0 then from else us[i - 1].after
    {
      if i == |ts| && i > 0 {
        assert ts[i - 1].after == t.before;
      }
    }
  }

  lemma {:induction false} LedgerIsChained(f: Format, from: Volume, to: Volume, ts: seq<Transaction>)
    requires LedTo(f, from, to, ts)
    ensures Chained(f, from, to, ts) && (ts == [] ==> to == from)
    decreases |ts|
  {
    hide Journal, Chained;
    if ts == [] {
      NothingChained(f, from);
    } else {
      var t, us := ts[|ts| - 1], ts[..|ts| - 1];
      LedgerIsChained(f, from, t.before, us);
      ChainedMore(f, from, us, t);
      assert us + [t] == ts;
    }
  }

  lemma NothingChained(f: Format, from: Volume)
    ensures Chained(f, from, from, [])
  {}

  /** None of these transactions goes into the log area, or makes the log panic. */
  ghost predicate KeepHome(l: Layout, ts: seq<Transaction>) {
    forall i {:trigger ts[i]} | 0 <= i < |ts| :: GoHome(l, ts[i].calls) && !ts[i].logged.panic
  }

  lemma ChainedAt(f: Format, from: Volume, to: Volume, ts: seq<Transaction>, l: Layout, i: nat)
    requires Chained(f, from, to, ts) && KeepHome(l, ts) && i < |ts|
    ensures Journal(f, ts[i].before, ts[i].after, ts[i].calls, ts[i].logged).Some? && !ts[i].logged.panic
    ensures GoHome(l, ts[i].calls)
    ensures ts[i].before == VolumeAt(from, ts, i)
  {
    hide Journal, GoHome;
    assert ts[i].before == VolumeAt(from, ts, i);
  }

  /** What is to be on disk before transaction `i`. */
  ghost function VolumeAt(from: Volume, ts: seq<Transaction>, i: nat): Volume
    requires i <= |ts|
  {
    if i == 0 then from else ts[i - 1].after
  }

  lemma OneMore(f: Format, t: Transaction, l: Layout, d: Disk, h: Header)
    requires Journal(f, t.before, t.after, t.calls, t.logged).Some? && !t.logged.panic && GoHome(l, t.calls)
    requires Rests(f, l, d, h, t.before)
    ensures Log.Idle(d, l, h) && Log.Loggable(l, h, t.calls, |t.calls|)
    ensures Rests(f, l, Log.DiskAfter(d, l, h, t.calls, Log.Length(d, l, h, t.calls)), HeaderDone(h, t.calls), t.after)
  {
    hide Journal, GoHome, Log.Length, Log.DiskAfter;
    TransactionIsAtomic(f, t, l, d, h, 0, []);
    TransactionIsAtomic(f, t, l, d, h, Log.Length(d, l, h, t.calls), []);
  }

  /** Run one after the other, each transaction finds on disk what the one before it left. */
  lemma {:induction false} RunRests(f: Format, from: Volume, to: Volume, ts: seq<Transaction>, l: Layout, m: Machine,
                                    i: nat)
    requires Chained(f, from, to, ts) && KeepHome(l, ts) && Rests(f, l, m.disk, m.head, from) && i <= |ts|
    ensures Before(l, m, ts, i).Some?
    ensures var p := Before(l, m, ts, i).value; Rests(f, l, p.disk, p.head, VolumeAt(from, ts, i))
  {
    hide Journal, Rests, GoHome, Chained, KeepHome, Log.Length, Log.DiskAfter, Log.Idle, Log.Loggable, HeaderDone;
    if i > 0 {
      RunRests(f, from, to, ts, l, m, i - 1);
      var p := Before(l, m, ts, i - 1).value;
      ChainedAt(f, from, to, ts, l, i - 1);
      OneMore(f, ts[i - 1], l, p.disk, p.head);
    }
  }

  /** The machine runs the transactions, and crashes after `k` sector writes of number `i`. */
  ghost predicate CrashesAt(l: Layout, m: Machine, ts: seq<Transaction>, i: nat, k: nat, crashes: seq<Disk>) {
    && i < |ts|
    && var p := Before(l, m, ts, i);
    && p.Some? && Crashes(l, p.value.disk, p.value.head, ts[i].calls, k, crashes)
  }

  /** What is on disk then. */
  ghost function Survivor(t: Transaction, k: nat): Volume {
    if k <= |t.calls| then t.before else t.after
  }

  /** Wherever the run crashes, the transactions before are on disk, those after are not,
      and the one it crashed in is or is not. */
  lemma RunIsAtomic(f: Format, from: Volume, to: Volume, ts: seq<Transaction>, l: Layout, m: Machine, i: nat, k: nat,
                    crashes: seq<Disk>)
    requires Chained(f, from, to, ts) && KeepHome(l, ts) && Rests(f, l, m.disk, m.head, from)
    requires CrashesAt(l, m, ts, i, k, crashes)
    ensures Recovers(f, l, crashes, Survivor(ts[i], k))
  {
    hide Journal, Rests, GoHome, Crashes, Recovers, Chained, KeepHome, Before;
    RunRests(f, from, to, ts, l, m, i);
    var p := Before(l, m, ts, i).value;
    ChainedAt(f, from, to, ts, l, i);
    TransactionIsAtomic(f, ts[i], l, p.disk, p.head, k, crashes);
  }

  /** What keeps filewrite out of the log, and clear of its panic: no more than three bitmap
      sectors, no file with blocks in the log area, and as many free blocks below as it takes. */
  ghost predicate Ample(f: Format, img: Image, owner: map<int, Place>, ino: int, n: nat, off: nat) {
    && f.total <= 3 * BPB && 0 <= ino < |img.inodes| && f.log <= |img.used| && OwnedBelow(owner, f.log)
    && Taken(img, ino, n, off) <= FreeBelow(img.used, f.log)
  }

  lemma {:induction false} FreeBelowMore(used: seq<bool>, j: nat, k: nat)
    requires j <= k <= |used|
    ensures FreeBelow(used, j) <= FreeBelow(used, k)
  {
    if j < k {
      FreeBelowMore(used, j, k - 1);
    }
  }

  lemma ChainKeepsHome(f: Format, from: Volume, to: Volume, ts: seq<Transaction>, first: nat, l: Layout)
    requires first <= |ts| && Chained(f, from, to, ts[first..]) && AllHome(ts, first, f.log) && LogAtEnd(f, l)
    requires f.total <= 3 * BPB
    ensures KeepHome(l, ts[first..])
  {
    hide Journal, Below, GoHome, LogAtEnd;
    var us := ts[first..];
    forall i | 0 <= i < |us|
      ensures GoHome(l, us[i].calls) && !us[i].logged.panic
    {
      assert us[i] == ts[first + i];
      BelowIsHome(f, l, us[i].calls);
      FewBitmapSectors(f, us[i].before, us[i].after, us[i].calls, us[i].logged);
    }
  }

  /** How many chunks are on disk after a crash in transaction `i`. */
  function Chunks(t: Transaction, i: nat, k: nat): nat {
    if k <= |t.calls| then i else i + 1
  }

  lemma SurvivorHolds(f: Format, from: Volume, to: Volume, ts: seq<Transaction>, first: nat, i: nat, k: nat,
                      ino: int, c: seq<int>, src: seq<int>, n: nat, off: nat)
    requires first <= |ts| && Chained(f, from, to, ts[first..]) && ChunkByChunk(ts, first, ino, c, src, n, off)
    requires i < |ts[first..]|
    requires HoldsChunks(from, ino, c, src, n, off, 0)
    ensures HoldsChunks(Survivor(ts[first..][i], k), ino, c, src, n, off, Chunks(ts[first..][i], i, k))
  {
    hide Journal, HoldsChunks;
    var us := ts[first..];
    assert us[i] == ts[first + i];
    if i > 0 {
      assert us[i - 1] == ts[first + i - 1];
    }
  }

  /** Let the machine crash after any number of sector writes of any of the transactions, and
      then any number of recoveries: the recovery that completes leaves on disk the file
      with the chunks of the transactions before, and with the next one or not. */
  ghost predicate WholeChunks(f: Format, l: Layout, m: Machine, ts: seq<Transaction>, ino: int, c: seq<int>,
                              src: seq<int>, n: nat, off: nat) {
    forall i: nat, k: nat, crashes {:trigger CrashesAt(l, m, ts, i, k, crashes)} | CrashesAt(l, m, ts, i, k, crashes) ::
      && Recovers(f, l, crashes, Survivor(ts[i], k))
      && HoldsChunks(Survivor(ts[i], k), ino, c, src, n, off, Chunks(ts[i], i, k))
  }

  lemma RunLeavesChunks(f: Format, from: Volume, to: Volume, ts: seq<Transaction>, first: nat, l: Layout, m: Machine,
                        ino: int, c: seq<int>, src: seq<int>, n: nat, off: nat)
    requires first <= |ts| && Chained(f, from, to, ts[first..]) && KeepHome(l, ts[first..])
    requires Rests(f, l, m.disk, m.head, from)
    requires ChunkByChunk(ts, first, ino, c, src, n, off) && HoldsChunks(from, ino, c, src, n, off, 0)
    ensures WholeChunks(f, l, m, ts[first..], ino, c, src, n, off)
  {
    hide Chained, KeepHome, Rests, ChunkByChunk, HoldsChunks, Recovers, Crashes, Before;
    var us := ts[first..];
    forall i: nat, k: nat, crashes {:trigger CrashesAt(l, m, us, i, k, crashes)} | CrashesAt(l, m, us, i, k, crashes)
      ensures Recovers(f, l, crashes, Survivor(us[i], k))
      ensures HoldsChunks(Survivor(us[i], k), ino, c, src, n, off, Chunks(us[i], i, k))
    {
      RunIsAtomic(f, from, to, us, l, m, i, k, crashes);
      SurvivorHolds(f, from, to, ts, first, i, k, ino, c, src, n, off);
    }
  }

  /** filewrite across crashes. Let the file have no holes and its inode be on disk, the
      disk hold what the file system in memory says, and there be ample room. Then
      filewrite does not panic, nor does the log, which runs all its transactions; and
      wherever that run crashes, a whole number of chunks is on disk. */
  method WriteDurably(fs: FileSystem, l: Layout, ino: int, src: seq<int>, n: int, off: int, ghost m: Machine)
    returns (r: Answer, off': int)
    requires fs.Valid() && 0 <= ino < |fs.inodes| && fs.inodes[ino].kind != T_DEV && 0 <= off < UINT && 0 <= n <= |src|
    requires forall i | 0 <= i < |src| :: 0 <= src[i] < 0x100
    requires Settled(fs.Img(), fs.dinodes, ino) && Ample(fs.format, fs.Img(), fs.owner, ino, n, off)
    requires LogAtEnd(fs.format, l) && Rests(fs.format, l, m.disk, m.head, fs.Vol())
    modifies fs`used, fs`blocks, fs`logged, fs`calls, fs`inodes, fs`dinodes, fs`owner, fs`room, fs`before, fs`committed
    ensures r.Fail? <==> n > 0 && (off > old(fs.inodes)[ino].size || off + n > MAXFILE * BSIZE)
    ensures !r.Panic? && fs.Valid() && Settled(fs.Img(), fs.dinodes, ino) && OwnedBelow(fs.owner, fs.format.log)
    ensures fs.format.log <= |fs.used| && FreeBelow(fs.used, fs.format.log)
      == FreeBelow(old(fs.used), fs.format.log) - Taken(old(fs.Img()), ino, n, off)
    ensures |old(fs.committed)| <= |fs.committed| && off' == off + SentAfter(|fs.committed| - |old(fs.committed)|, n)
    ensures var ts := fs.committed[|old(fs.committed)|..];
      && var end := Before(l, m, ts, |ts|);
      && end.Some? && Rests(fs.format, l, end.value.disk, end.value.head, fs.Vol())
    ensures var ts, c := fs.committed[|old(fs.committed)|..], Contents(old(fs.Img()), ino);
      WholeChunks(fs.format, l, m, ts, ino, c, src, n, off)
  {
    hide Sound, Journal, RoomOk, Rests, Crashes, Recovers, HoldsChunks, Progress, ChunkByChunk, AllHome, OwnedBelow,
      Taken, FreeBelow, Contents, Settled, NoHoles, SentAfter, Chained, KeepHome, LedTo, Before, WholeChunks;
    ghost var f, v0, c, first := fs.format, fs.Vol(), Contents(fs.Img(), ino), |fs.committed|;
    StartsWithNone(fs.Img(), fs.dinodes, ino, src, n, off);
    FreeBelowMore(fs.used, f.log, |fs.used|);
    ghost var sent;
    r, off', sent := fs.Filewrite(ino, src, n, off);
    ghost var all, v1 := fs.committed, fs.Vol();
    ghost var ts := all[first..];
    LedgerIsChained(f, v0, v1, ts);
    ChainKeepsHome(f, v0, v1, all, first, l);
    RunRests(f, v0, v1, ts, l, m, |ts|);
    ChainEnds(f, v0, v1, ts);
    RunLeavesChunks(f, v0, v1, all, first, l, m, ino, c, src, n, off);
  }

  lemma ChainEnds(f: Format, from: Volume, to: Volume, ts: seq<Transaction>)
    requires Chained(f, from, to, ts) && (ts == [] ==> to == from)
    ensures VolumeAt(from, ts, |ts|) == to
  {}

  lemma StartsWithNone(img: Image, dinodes: seq<Inode>, ino: int, src: seq<int>, n: nat, off: nat)
    requires Settled(img, dinodes, ino) && n <= |src|
    ensures HoldsChunks(Volume(img.used, img.blocks, dinodes), ino, Contents(img, ino), src, n, off, 0)
  {
    SameInode(Image(img.used, img.blocks, dinodes), img, ino);
  }

  // ---- when the blocks below the log run out ----

  lemma {:induction false} AllUsedBelow(used: seq<bool>, k: nat)
    requires k <= |used| && forall b | 0 <= b < k :: used[b]
    ensures FreeBelow(used, k) == 0
  {
    if k > 0 {
      AllUsedBelow(used, k - 1);
    }
  }

  lemma OneIsFree(used: seq<bool>, b: nat)
    requires b < |used| && !used[b]
    ensures FreeBelow(used, |used|) > 0
  {
    FreeBelowMore(used, b + 1, |used|);
  }

  lemma FirstByteTakesOne(img: Image, ino: int)
    requires 0 <= ino < |img.inodes| && img.inodes[ino].size == 0 && BlockAt(img, ino, 0) == 0
    ensures Taken(img, ino, 1, 0) == 1
  {
    LackOne(img, ino, 0);
  }

  /** All blocks below the log are in use and one in the log area is not: to write one byte
      to an empty file, balloc hands that one out, and the transaction that is committed has
      a log_write the log must not have. */
  method WriteAstray(fs: FileSystem, l: Layout, ino: int, src: seq<int>, ghost b: int) returns (r: Answer)
    requires fs.Valid() && 0 <= ino < |fs.inodes| && fs.inodes[ino].kind != T_DEV && |src| == 1 && 0 <= src[0] < 0x100
    requires fs.inodes[ino].size == 0 && BlockAt(fs.Img(), ino, 0) == 0
    requires LogAtEnd(fs.format, l) && OwnedBelow(fs.owner, l.start)
    requires (forall c | 0 <= c < l.start && c < |fs.used| :: fs.used[c]) && 0 <= b < |fs.used| && !fs.used[b]
    modifies fs`used, fs`blocks, fs`logged, fs`calls, fs`inodes, fs`dinodes, fs`owner, fs`room, fs`before, fs`committed
    ensures r == Done(1)
    ensures exists i :: |old(fs.committed)| <= i < |fs.committed| && !GoHome(l, fs.committed[i].calls)
  {
    hide Sound, Journal, RoomOk, Progress, ChunkByChunk, Ledger, OwnedBelow, Taken, FreeBelow, Contents, LogAtEnd,
      GoHome, BlockAt;
    FirstByteTakesOne(fs.Img(), ino);
    OneIsFree(fs.used, b);
    LogStart(fs.format, l);
    if l.start <= |fs.used| {
      AllUsedBelow(fs.used, l.start);
    }
    ghost var off', sent;
    ghost var first := |fs.committed|;
    r, off', sent := fs.Filewrite(ino, src, 1, 0);
    ghost var i :| first <= i < |fs.committed| && !Below(fs.committed[i].calls, fs.format.log);
    BelowIsHome(fs.format, l, fs.committed[i].calls);
  }

  lemma LogStart(f: Format, l: Layout)
    requires LogAtEnd(f, l)
    ensures l.start == f.log
  {}

  // ---- what the home sectors tell ----

  /** No inode and no bit is lost in packing. */
  ghost predicate Packs(f: Format) {
    && (forall a, b {:trigger f.inodes(a), f.inodes(b)} | |a| == |b| <= IPB && f.inodes(a) == f.inodes(b) :: a == b)
    && (forall a, b {:trigger f.bits(a), f.bits(b)} | |a| == |b| <= BPB && f.bits(a) == f.bits(b) :: a == b)
  }

  lemma SameSector(f: Format, l: Layout, v: Volume, w: Volume, s: nat)
    requires LogAtEnd(f, l) && l.Fits(OnDisk(f, v)) && l.Fits(OnDisk(f, w))
    requires Home(OnDisk(f, v), l) == Home(OnDisk(f, w), l) && s < f.log
    ensures s < |v.blocks| && s < |w.blocks| && SectorOf(f, v, s) == SectorOf(f, w, s)
  {
    var a, b := OnDisk(f, v), OnDisk(f, w);
    assert Home(a, l)[s] == a[s] && Home(b, l)[s] == b[s];
  }

  /** Element `r` of group `k`. */
  lemma GroupAt<T>(s: seq<T>, k: nat, n: nat, r: nat)
    requires k * n + r < |s| && r < n && (k + 1) * n == k * n + n
    ensures r < |Group(s, k, n)| <= n && Group(s, k, n)[r] == s[k * n + r]
  {}

  lemma SameDinode(f: Format, v: Volume, w: Volume, i: nat)
    requires Packs(f) && i < |v.dinodes| == |w.dinodes| <= f.ninodes && f.InodeSector(i) < |v.blocks|
    requires f.InodeSector(i) < |w.blocks|
    requires SectorOf(f, v, f.InodeSector(i)) == SectorOf(f, w, f.InodeSector(i))
    ensures v.dinodes[i] == w.dinodes[i]
  {
    GroupAt(v.dinodes, i / IPB, IPB, i % IPB);
    GroupAt(w.dinodes, i / IPB, IPB, i % IPB);
    var a, b := Group(v.dinodes, i / IPB, IPB), Group(w.dinodes, i / IPB, IPB);
    assert i / IPB <= f.ninodes / IPB;
    assert f.inodes(a) == f.inodes(b);
  }

  lemma SameBit(f: Format, v: Volume, w: Volume, b: nat)
    requires Packs(f) && b < |v.used| == |w.used| == f.total && f.BitmapSector(b) < |v.blocks|
    requires f.BitmapSector(b) < |w.blocks|
    requires SectorOf(f, v, f.BitmapSector(b)) == SectorOf(f, w, f.BitmapSector(b))
    ensures v.used[b] == w.used[b]
  {
    GroupAt(v.used, b / BPB, BPB, b % BPB);
    GroupAt(w.used, b / BPB, BPB, b % BPB);
    var x, y := Group(v.used, b / BPB, BPB), Group(w.used, b / BPB, BPB);
    assert b / BPB <= f.total / BPB;
    assert f.bits(x) == f.bits(y);
  }

  /** Two volumes with the same home sectors have the same bitmap, inodes, and blocks below
      the log. */
  lemma HomeTellsAll(f: Format, l: Layout, v: Volume, w: Volume)
    requires Packs(f) && LogAtEnd(f, l) && f.DataStart() <= f.log && |v.used| == |w.used| == f.total
    requires |v.dinodes| == |w.dinodes| <= f.ninodes
    requires l.Fits(OnDisk(f, v)) && l.Fits(OnDisk(f, w)) && Home(OnDisk(f, v), l) == Home(OnDisk(f, w), l)
    ensures w.used == v.used && w.dinodes == v.dinodes && |v.blocks| == |w.blocks| == f.total
    ensures forall b | f.DataStart() <= b < f.log :: v.blocks[b] == w.blocks[b]
  {
    forall i | 0 <= i < |v.dinodes|
      ensures v.dinodes[i] == w.dinodes[i]
    {
      assert i / IPB <= f.ninodes / IPB;
      SameSector(f, l, v, w, f.InodeSector(i));
      SameDinode(f, v, w, i);
    }
    forall b | 0 <= b < |v.used|
      ensures v.used[b] == w.used[b]
    {
      assert b / BPB <= f.total / BPB;
      SameSector(f, l, v, w, f.BitmapSector(b));
      SameBit(f, v, w, b);
    }
    forall b | f.DataStart() <= b < f.log
      ensures v.blocks[b] == w.blocks[b]
    {
      SameSector(f, l, v, w, b);
    }
  }

  /** ... and so the same bytes in a file none of whose blocks is in the log area. */
  lemma HomeTellsFile(f: Format, l: Layout, v: Volume, w: Volume, ino: int, c: seq<int>)
    requires Packs(f) && LogAtEnd(f, l) && f.DataStart() <= f.log && |v.used| == |w.used| == f.total
    requires |v.dinodes| == |w.dinodes| <= f.ninodes
    requires l.Fits(OnDisk(f, v)) && l.Fits(OnDisk(f, w)) && Home(OnDisk(f, v), l) == Home(OnDisk(f, w), l)
    requires forall i ::
      var b := BlockAt(Image(v.used, v.blocks, v.dinodes), ino, i); b == 0 || f.DataStart() <= b < f.log
    requires Holds(v, ino, c)
    ensures Holds(w, ino, c)
  {
    HomeTellsAll(f, l, v, w);
    var a, b := Image(v.used, v.blocks, v.dinodes), Image(w.used, w.blocks, w.dinodes);
    assert BlockAt(a, ino, NDIRECT) == Addr(a, ino, NDIRECT);
    forall i
      ensures BlockAt(b, ino, i) == BlockAt(a, ino, i)
    {}
    forall k: nat
      ensures FileByte(b, ino, k) == FileByte(a, ino, k)
    {}
  }
}
