/** src/log.c: the single-transaction redo log. `DiskAfter` is the disk after any
    number of the sector writes of one transaction; class `TransLog` is the C code,
    whose ghost `history` records every bwrite it makes. */
module Log {
  import opened Blocks
  import opened Options
  import opened RedoLog

  const LOGSIZE := 10

  /** The in-memory header after the first `k` log_write calls of a transaction. */
  function HeaderAfter(h: Header, ws: seq<Write>, k: nat): (r: Header)
    requires h.Sized() && k <= |ws|
    ensures r.Sized() && |r.sector| == |h.sector|
  {
    if k == 0 then h else HeaderAfter(h, ws, k - 1).Logged(ws[k - 1].sector)
  }

  /** The sector write of the `i`th of those calls: it goes to its slot in the log area. */
  function LogWriteOf(l: Layout, h: Header, ws: seq<Write>, i: nat): Write
    requires h.Sized() && i < |ws|
  {
    Write(l.start + 1 + HeaderAfter(h, ws, i).Slot(ws[i].sector), ws[i].data)
  }

  /** The disk, and the history of sector writes, after the first `k` log_write calls. */
  function DiskLogged(d: Disk, l: Layout, h: Header, ws: seq<Write>, k: nat): (r: Disk)
    requires h.Sized() && k <= |ws|
    ensures |r| == |d|
  {
    if k == 0 then d
    else
      var w, r := LogWriteOf(l, h, ws, k - 1), DiskLogged(d, l, h, ws, k - 1);
      if w.sector < |d| then r[w.sector := w.data] else r
  }

  function HistoryLogged(past: History, l: Layout, h: Header, ws: seq<Write>, k: nat): History
    requires h.Sized() && k <= |ws|
  {
    if k == 0 then past else Then(HistoryLogged(past, l, h, ws, k - 1), LogWriteOf(l, h, ws, k - 1))
  }

  /** The first `k` log_writes of `ws` do not panic: each names a home sector, and
      before each the header names fewer than MaxBlocks sectors. */
  ghost predicate Loggable(l: Layout, h: Header, ws: seq<Write>, k: nat)
    requires h.Sized() && k <= |ws| && 0 < l.size
  {
    k > 0 ==>
      Loggable(l, h, ws, k - 1) && l.IsHome(ws[k - 1].sector) && HeaderAfter(h, ws, k - 1).n < l.MaxBlocks()
  }

  /** One log append or absorption: the log area now overlays one more write. */
  lemma OverlayLogged(d: Disk, l: Layout, h: Header, w: Write)
    requires l.Fits(d) && h.Sized() && l.cap == |h.sector| && h.n < l.MaxBlocks() && l.IsHome(w.sector)
    ensures var d', h' := d[l.start + 1 + h.Slot(w.sector) := w.data], h.Logged(w.sector);
      l.Fits(d') && Overlay(d', l, h'.sector, h'.n) == Overlay(d, l, h.sector, h.n)[w.sector := w.data]
  {
    var d', h' := d[l.start + 1 + h.Slot(w.sector) := w.data], h.Logged(w.sector);
    forall s: nat | s < |d|
      ensures OverlayAt(d', l, h'.sector, h'.n, s) == if s == w.sector
        then w.data
        else OverlayAt(d, l, h.sector, h.n, s)
    {
      LastAfterLogging(h, w.sector, s);
    }
  }

  /** A transaction in progress on a disk that was `d`: the disk is now `e`, the
      in-memory header is `h`, and the calls so far built file system `fs`. */
  ghost predicate InProgress(d: Disk, e: Disk, l: Layout, h: Header, fs: Disk) {
    && l.Fits(d) && l.Fits(e) && e[l.start].words[0] == 0 && Logical(e, l) == Some(Home(d, l))
    && h.Sized() && |h.sector| == l.cap && h.n <= l.MaxBlocks() && GoodSectors(h.sector, h.n, l)
    && Overlay(e, l, h.sector, h.n) == fs
  }

  lemma LoggingStep(d: Disk, e: Disk, l: Layout, h: Header, fs: Disk, w: Write)
    requires InProgress(d, e, l, h, fs) && l.IsHome(w.sector) && h.n < l.MaxBlocks()
    ensures InProgress(d, e[l.start + 1 + h.Slot(w.sector) := w.data], l, h.Logged(w.sector), fs[w.sector := w.data])
  {
    LogAreaWrite(e, l, h.Slot(w.sector), w.data);
    OverlayLogged(e, l, h, w);
  }

  /** An idle log: nothing logged in memory, an empty header on disk. */
  ghost predicate Idle(d: Disk, l: Layout, h: Header) {
    l.Fits(d) && l.cap == LOGSIZE == |h.sector| && d[l.start].words[0] == 0 && h.n == 0
  }

  /** The state of disk and header after the first `k` log_writes of a transaction. */
  lemma {:induction false} LoggingState(d: Disk, l: Layout, h: Header, ws: seq<Write>, k: nat)
    requires Idle(d, l, h) && k <= |ws| && Loggable(l, h, ws, k)
    ensures InProgress(d, DiskLogged(d, l, h, ws, k), l, HeaderAfter(h, ws, k), After(Home(d, l), ws, k))
  {
    if k == 0 {
      assert HeadSectors(d[l.start]) == [];
      assert Overlay(d, l, h.sector, 0) == Home(d, l);
    } else {
      LoggingState(d, l, h, ws, k - 1);
      var w, e, h1 := ws[k - 1], DiskLogged(d, l, h, ws, k - 1), HeaderAfter(h, ws, k - 1);
      LoggingStep(d, e, l, h1, After(Home(d, l), ws, k - 1), w);
      assert DiskLogged(d, l, h, ws, k) == e[l.start + 1 + h1.Slot(w.sector) := w.data];
    }
  }

  lemma {:induction false} LoggablePrefix(l: Layout, h: Header, ws: seq<Write>, n: nat, k: nat)
    requires h.Sized() && k <= n <= |ws| && 0 < l.size && Loggable(l, h, ws, n)
    ensures Loggable(l, h, ws, k)
  {
    if k < n {
      LoggablePrefix(l, h, ws, n - 1, k);
    }
  }

  /** The disk once a transaction's log writes are done and its header is written:
      the rest of commit_trans is recovery of this disk. */
  function AtCommit(d: Disk, l: Layout, h: Header, ws: seq<Write>): (c: Disk)
    requires Idle(d, l, h) && Loggable(l, h, ws, |ws|)
    ensures Logical(c, l).Some?
  {
    LoggingState(d, l, h, ws, |ws|);
    var e, h' := DiskLogged(d, l, h, ws, |ws|), HeaderAfter(h, ws, |ws|);
    CommittedStandsForOverlay(e, l, h'.sector, h'.n);
    Committed(e, l, h'.sector, h'.n)
  }

  /** How many sector writes a transaction makes: none if it logs nothing. */
  function Length(d: Disk, l: Layout, h: Header, ws: seq<Write>): nat
    requires Idle(d, l, h) && Loggable(l, h, ws, |ws|)
  {
    if ws == [] then 0 else |ws| + 1 + |RecoveryTrace(AtCommit(d, l, h, ws), l)|
  }

  /** The disk after the first `k` sector writes of a transaction: its log writes, the
      header, then the writes of recovery. */
  function DiskAfter(d: Disk, l: Layout, h: Header, ws: seq<Write>, k: nat): Disk
    requires Idle(d, l, h) && Loggable(l, h, ws, |ws|) && k <= Length(d, l, h, ws)
  {
    if k <= |ws| then DiskLogged(d, l, h, ws, k)
    else
      var c := AtCommit(d, l, h, ws);
      After(c, RecoveryTrace(c, l), k - |ws| - 1)
  }

  /** The sector writes `DiskAfter` runs through, added to what was written before. */
  function TransactionHistory(past: History, d: Disk, l: Layout, h: Header, ws: seq<Write>): History
    requires Idle(d, l, h) && Loggable(l, h, ws, |ws|)
  {
    if ws == [] then past
    else
      LoggingState(d, l, h, ws, |ws|);
      var e, h', c := DiskLogged(d, l, h, ws, |ws|), HeaderAfter(h, ws, |ws|), AtCommit(d, l, h, ws);
      var logged := HistoryLogged(past, l, h, ws, |ws|);
      Record(Then(logged, HeadWrite(e, l, h'.sector, h'.n)), RecoveryTrace(c, l), |RecoveryTrace(c, l)|)
  }

  lemma NoneLogged(past: History, d: Disk, l: Layout, h: Header, ws: seq<Write>)
    requires h.Sized()
    ensures HeaderAfter(h, ws, 0) == h && DiskLogged(d, l, h, ws, 0) == d && HistoryLogged(past, l, h, ws, 0) == past
  {}

  lemma {:induction false} FirstOfLogged(past: History, l: Layout, h: Header, ws: seq<Write>, n: nat, k: nat)
    requires h.Sized() && k <= n <= |ws|
    ensures Writes(HistoryLogged(past, l, h, ws, n)) == Writes(past) + n
    ensures First(HistoryLogged(past, l, h, ws, n), Writes(past) + k) == HistoryLogged(past, l, h, ws, k)
  {
    hide LogWriteOf;
    if n > 0 {
      FirstOfLogged(past, l, h, ws, n - 1, if k < n then k else n - 1);
    }
  }

  lemma {:induction false} ReplayLogged(d: Disk, past: History, l: Layout, h: Header, ws: seq<Write>, k: nat)
    requires h.Sized() && k <= |ws|
    ensures Replay(d, HistoryLogged(past, l, h, ws, k)) == DiskLogged(Replay(d, past), l, h, ws, k)
  {
    if k > 0 {
      ReplayLogged(d, past, l, h, ws, k - 1);
    }
  }

  /** The history up to and with the header write. */
  function CommitHistory(past: History, d: Disk, l: Layout, h: Header, ws: seq<Write>): (r: History)
    requires Idle(d, l, h) && Loggable(l, h, ws, |ws|)
  {
    LoggingState(d, l, h, ws, |ws|);
    var e, h' := DiskLogged(d, l, h, ws, |ws|), HeaderAfter(h, ws, |ws|);
    Then(HistoryLogged(past, l, h, ws, |ws|), HeadWrite(e, l, h'.sector, h'.n))
  }

  lemma CommitIsReplayed(d0: Disk, past: History, d: Disk, l: Layout, h: Header, ws: seq<Write>)
    requires Idle(d, l, h) && Loggable(l, h, ws, |ws|) && Replay(d0, past) == d
    ensures Writes(CommitHistory(past, d, l, h, ws)) == Writes(past) + |ws| + 1
    ensures Replay(d0, CommitHistory(past, d, l, h, ws)) == AtCommit(d, l, h, ws)
  {
    LoggingState(d, l, h, ws, |ws|);
    FirstOfLogged(past, l, h, ws, |ws|, |ws|);
    ReplayLogged(d0, past, l, h, ws, |ws|);
  }

  lemma HistoryRuns(past: History, d: Disk, l: Layout, h: Header, ws: seq<Write>)
    requires Idle(d, l, h) && Loggable(l, h, ws, |ws|) && ws != []
    ensures var rs := RecoveryTrace(AtCommit(d, l, h, ws), l);
      TransactionHistory(past, d, l, h, ws) == Record(CommitHistory(past, d, l, h, ws), rs, |rs|)
  {}

  lemma FirstOfThen(h: History, w: Write, j: nat)
    ensures First(Then(h, w), j) == if j <= Writes(h) then First(h, j) else Then(h, w)
  {}

  lemma FirstOfCommit(past: History, d: Disk, l: Layout, h: Header, ws: seq<Write>, k: nat)
    requires Idle(d, l, h) && Loggable(l, h, ws, |ws|) && k <= |ws| + 1
    ensures First(CommitHistory(past, d, l, h, ws), Writes(past) + k)
      == if k <= |ws| then HistoryLogged(past, l, h, ws, k) else CommitHistory(past, d, l, h, ws)
  {
    hide Loggable, HistoryLogged, DiskLogged, HeaderAfter, HeadWrite, First, Writes;
    var c := CommitHistory(past, d, l, h, ws);
    FirstOfThen(c.past, c.write, Writes(past) + k);
    FirstOfLogged(past, l, h, ws, |ws|, |ws|);
    if k <= |ws| {
      FirstOfLogged(past, l, h, ws, |ws|, k);
    }
  }

  lemma FirstWhileLogging(past: History, d: Disk, l: Layout, h: Header, ws: seq<Write>, k: nat)
    requires Idle(d, l, h) && Loggable(l, h, ws, |ws|) && ws != [] && k <= |ws|
    ensures First(TransactionHistory(past, d, l, h, ws), Writes(past) + k) == HistoryLogged(past, l, h, ws, k)
  {
    hide Loggable, Record, HistoryLogged, CommitHistory, TransactionHistory, RecoveryTrace, AtCommit, Writes, First,
      HeaderAfter, DiskLogged;
    HistoryRuns(past, d, l, h, ws);
    CommitWrites(past, d, l, h, ws);
    FirstOfCommit(past, d, l, h, ws, k);
    var rs := RecoveryTrace(AtCommit(d, l, h, ws), l);
    FirstOfRecord(CommitHistory(past, d, l, h, ws), rs, |rs|, Writes(past) + k);
  }

  lemma FirstAfterCommit(past: History, d: Disk, l: Layout, h: Header, ws: seq<Write>, k: nat)
    requires Idle(d, l, h) && Loggable(l, h, ws, |ws|) && ws != [] && |ws| < k <= Length(d, l, h, ws)
    ensures First(TransactionHistory(past, d, l, h, ws), Writes(past) + k)
      == Record(CommitHistory(past, d, l, h, ws), RecoveryTrace(AtCommit(d, l, h, ws), l), k - |ws| - 1)
  {
    hide Loggable, HistoryLogged, CommitHistory, TransactionHistory, RecoveryTrace, AtCommit, Writes, First,
      HeaderAfter, DiskLogged;
    HistoryRuns(past, d, l, h, ws);
    CommitWrites(past, d, l, h, ws);
    FirstOfCommit(past, d, l, h, ws, |ws| + 1);
    var rs := RecoveryTrace(AtCommit(d, l, h, ws), l);
    FirstOfRecord(CommitHistory(past, d, l, h, ws), rs, |rs|, Writes(past) + k);
  }

  lemma TransactionWrites(past: History, d: Disk, l: Layout, h: Header, ws: seq<Write>)
    requires Idle(d, l, h) && Loggable(l, h, ws, |ws|)
    ensures Writes(TransactionHistory(past, d, l, h, ws)) == Writes(past) + Length(d, l, h, ws)
  {
    if ws != [] {
      hide Loggable, Record, HistoryLogged, CommitHistory, TransactionHistory, RecoveryTrace, AtCommit, Writes, First,
        HeaderAfter, DiskLogged;
      HistoryRuns(past, d, l, h, ws);
      CommitWrites(past, d, l, h, ws);
      var rs := RecoveryTrace(AtCommit(d, l, h, ws), l);
      FirstOfRecord(CommitHistory(past, d, l, h, ws), rs, |rs|, 0);
    }
  }

  lemma CommitWrites(past: History, d: Disk, l: Layout, h: Header, ws: seq<Write>)
    requires Idle(d, l, h) && Loggable(l, h, ws, |ws|)
    ensures Writes(CommitHistory(past, d, l, h, ws)) == Writes(past) + |ws| + 1
  {
    FirstOfLogged(past, l, h, ws, |ws|, |ws|);
  }

  /** The disk after `k` sector writes of a transaction is the replay of all writes before it
      and of the first `k` it adds to the history. */
  lemma HistoryIsReplayed(d0: Disk, past: History, d: Disk, l: Layout, h: Header, ws: seq<Write>, k: nat)
    requires Idle(d, l, h) && Loggable(l, h, ws, |ws|) && k <= Length(d, l, h, ws) && Replay(d0, past) == d
    ensures Writes(TransactionHistory(past, d, l, h, ws)) == Writes(past) + Length(d, l, h, ws)
    ensures DiskAfter(d, l, h, ws, k) == Replay(d0, First(TransactionHistory(past, d, l, h, ws), Writes(past) + k))
  {
    hide Loggable, Record, HistoryLogged, CommitHistory, TransactionHistory, RecoveryTrace, AtCommit, DiskLogged,
      Replay, First;
    if ws != [] {
      TransactionWrites(past, d, l, h, ws);
      if k <= |ws| {
        FirstWhileLogging(past, d, l, h, ws, k);
        ReplayLogged(d0, past, l, h, ws, k);
      } else {
        FirstAfterCommit(past, d, l, h, ws, k);
        CommitIsReplayed(d0, past, d, l, h, ws);
        ReplayRecord(d0, CommitHistory(past, d, l, h, ws), RecoveryTrace(AtCommit(d, l, h, ws), l), k - |ws| - 1);
      }
    } else {
      NothingLogged(past, d, l, h);
    }
  }

  lemma NothingLogged(past: History, d: Disk, l: Layout, h: Header)
    requires Idle(d, l, h)
    ensures TransactionHistory(past, d, l, h, []) == past == First(past, Writes(past))
    ensures DiskLogged(d, l, h, [], 0) == d
  {}

  /** Up to the header write the disk stands for the old file system, from then on for
      the new one; a completed transaction has installed it and emptied the log. */
  lemma TransactionSwitchesOnce(d: Disk, l: Layout, h: Header, ws: seq<Write>, k: nat)
    requires Idle(d, l, h) && Loggable(l, h, ws, |ws|) && k <= Length(d, l, h, ws)
    ensures var e := DiskAfter(d, l, h, ws, k);
      && Logical(e, l) == Some(if k <= |ws| then Home(d, l) else ApplyWrites(Home(d, l), ws))
      && (k == Length(d, l, h, ws) ==>
           l.Fits(e) && e[l.start].words[0] == 0 && Home(e, l) == ApplyWrites(Home(d, l), ws))
  {
    if k <= |ws| {
      LoggablePrefix(l, h, ws, |ws|, k);
      LoggingState(d, l, h, ws, k);
    } else {
      AtCommitStandsForNew(d, l, h, ws);
      RecoveryKeepsLogical(AtCommit(d, l, h, ws), l, k - |ws| - 1);
    }
  }

  lemma AtCommitStandsForNew(d: Disk, l: Layout, h: Header, ws: seq<Write>)
    requires Idle(d, l, h) && Loggable(l, h, ws, |ws|)
    ensures Logical(AtCommit(d, l, h, ws), l) == Some(ApplyWrites(Home(d, l), ws))
  {
    LoggingState(d, l, h, ws, |ws|);
    var h' := HeaderAfter(h, ws, |ws|);
    CommittedStandsForOverlay(DiskLogged(d, l, h, ws, |ws|), l, h'.sector, h'.n);
  }

  /** Crash atomicity. Crash after any `k` sector writes of a transaction, then crash
      any number of recoveries anywhere; the recovery that completes leaves the home
      sectors all old if the header had not been written, and otherwise all new. */
  lemma TransactionIsCrashAtomic(d: Disk, l: Layout, h: Header, ws: seq<Write>, k: nat, crashes: seq<Disk>)
    requires Idle(d, l, h) && Loggable(l, h, ws, |ws|) && k <= Length(d, l, h, ws)
    requires CrashChain(crashes, l) && crashes[0] == DiskAfter(d, l, h, ws, k)
    ensures var last := crashes[|crashes| - 1];
      && Logical(last, l).Some? && l.Fits(Recovered(last, l))
      && Home(Recovered(last, l), l) == if k <= |ws| then Home(d, l) else ApplyWrites(Home(d, l), ws)
  {
    TransactionSwitchesOnce(d, l, h, ws, k);
    RepeatedCrashesRecover(crashes, l);
  }

  // ---- the C code ----

  datatype Outcome = Done | Panic(message: string)

  /** The log area, the in-memory header and the pinned buffers agree: exactly the
      sectors the header names are pinned, each with the contents of its log block. */
  ghost predicate Pinned(d: Disk, l: Layout, h: Header, pinned: map<int, Block>)
    requires l.Fits(d) && h.Sized() && h.n <= l.MaxBlocks()
  {
    forall s {:trigger s in pinned} {:trigger Last(h.sector, h.n, s)} ::
      if Last(h.sector, h.n, s) >= 0 then s in pinned && pinned[s] == d[l.start + 1 + Last(h.sector, h.n, s)]
      else s !in pinned
  }

  /** While a transaction runs, reading through the pinned buffers sees exactly what
      the log area overlays. */
  lemma ViewIsOverlay(d: Disk, l: Layout, h: Header, pinned: map<int, Block>)
    requires l.Fits(d) && h.Sized() && h.n <= l.MaxBlocks() && Pinned(d, l, h, pinned)
    ensures ViewOf(d, pinned, l) == Overlay(d, l, h.sector, h.n)
  {}

  /** The in-memory header, if everything log_write relies on holds: it fits, names
      no sector twice, and agrees with the pinned buffers and the log area. */
  ghost function Agreed(d: Disk, l: Layout, h: Header, pinned: map<int, Block>): Option<Header> {
    if l.Fits(d) && l.cap == LOGSIZE == |h.sector| && h.Sized() && h.n <= l.MaxBlocks() && h.Distinct() &&
      Pinned(d, l, h, pinned)
    then Some(h)
    else None
  }

  lemma AgreedSizes(d: Disk, l: Layout, h: Header, pinned: map<int, Block>)
    requires Agreed(d, l, h, pinned).Some?
    ensures l.Fits(d) && l.cap == LOGSIZE == |h.sector| && h.Sized()
  {}

  lemma AgreedAfterLogging(d: Disk, l: Layout, h: Header, pinned: map<int, Block>, w: Write)
    requires Agreed(d, l, h, pinned).Some? && h.n < l.MaxBlocks()
    ensures var h' := h.Logged(w.sector);
      Agreed(d[l.start + 1 + h.Slot(w.sector) := w.data], l, h', pinned[w.sector := w.data]) == Some(h')
  {
    DistinctAfterLogging(h, w.sector);
    var k, h' := h.Slot(w.sector), h.Logged(w.sector);
    var d' := d[l.start + 1 + k := w.data];
    forall s
      ensures Last(h'.sector, h'.n, s) == if s == w.sector then k else Last(h.sector, h.n, s)
      ensures s != w.sector ==> Last(h.sector, h.n, s) != k
    {
      LastAfterLogging(h, w.sector, s);
    }
  }

  lemma ViewAfterLogging(d: Disk, l: Layout, pinned: map<int, Block>, w: Write, k: nat)
    requires l.Fits(d) && l.IsHome(w.sector) && k < l.size - 1
    ensures ViewOf(d[l.start + 1 + k := w.data], pinned[w.sector := w.data], l)
      == ViewOf(d, pinned, l)[w.sector := w.data]
  {}

  lemma EmptyLog(d: Disk, l: Layout, h: Header)
    requires l.Fits(d) && h.Sized() && h.n == 0
    ensures ViewOf(d, map[], l) == Home(d, l) && Pinned(d, l, h, map[])
  {}

  lemma PinnedAreLogged(d: Disk, l: Layout, h: Header, pinned: map<int, Block>)
    requires l.Fits(d) && h.Sized() && h.n <= l.MaxBlocks() && Pinned(d, l, h, pinned)
    ensures forall s | s in pinned :: s in h.sector[..h.n]
  {}

  lemma {:induction false} LoggedSomething(h: Header, ws: seq<Write>, k: nat)
    requires h.n == 0 < |h.sector| && k <= |ws|
    ensures HeaderAfter(h, ws, k).n == 0 <==> k == 0
  {}

  /** Installing and then clearing the header is the whole of recovery. */
  lemma RecoverySteps(d: Disk, l: Layout, past: History)
    requires Logical(d, l).Some?
    ensures var secs := HeadSectors(d[l.start]);
      && var e := ApplyWrites(d, InstallTrace(d, l, secs));
      && Recovered(d, l) == e[l.start := PutHead(d[l.start], [], 0, 0)]
      && Record(past, RecoveryTrace(d, l), |secs| + 1)
         == Then(Record(past, InstallTrace(d, l, secs), |secs|), Write(l.start, PutHead(d[l.start], [], 0, 0)))
  {
    var secs := HeadSectors(d[l.start]);
    AfterPrefix(d, InstallTrace(d, l, secs), RecoveryTrace(d, l), |secs|);
    RecordPrefix(past, InstallTrace(d, l, secs), RecoveryTrace(d, l), |secs|);
  }

  /** The kernel's `struct log`, the disk it is on, and the buffers log_write keeps
      pinned (B_DIRTY) in the cache. `history` records every bwrite. */
  class TransLog {
    const l: Layout
    var disk: Disk
    var busy: bool
    var n: nat
    const sector: array<int>
    var pinned: map<int, Block>
    ghost var history: History

    ghost function Head(): Header
      reads this, sector
    {
      Header(n, sector[..])
    }

    ghost predicate Valid()
      reads this, sector
    {
      Agreed(disk, l, Head(), pinned) == Some(Head())
    }

    /** The file system as running code reads it. */
    ghost function View(): (v: Disk)
      reads this
    {
      ViewOf(disk, pinned, l)
    }

    /** Boot, or reboot after a crash: memory is empty, the disk is as found. */
    constructor (d: Disk, start: nat, size: nat)
      requires Layout(|d|, start, size, LOGSIZE).Fits(d)
      ensures Valid() && n == 0 && !busy && pinned == map[] && disk == d && history == Boot
      ensures l == Layout(|d|, start, size, LOGSIZE) && fresh(sector)
    {
      l := Layout(|d|, start, size, LOGSIZE);
      disk, busy, n, pinned, history := d, false, 0, map[], Boot;
      sector := new int[LOGSIZE];
    }

    method Bwrite(s: nat, b: Block)
      requires s < |disk|
      modifies this`disk, this`history
      ensures disk == old(disk)[s := b] && history == Then(old(history), Write(s, b))
    {
      disk := disk[s := b];
      history := Then(history, Write(s, b));
    }

    /** read_head: the first words of the header sector, count then sector numbers. */
    method ReadHead()
      requires Logical(disk, l).Some? && l.cap == LOGSIZE == sector.Length
      modifies this`n, sector
      ensures n == disk[l.start].words[0] && forall i | 0 <= i < n :: sector[i] == HeadSectors(disk[l.start])[i]
    {
      var buf := disk[l.start];
      n := buf.words[0];
      var i := 0;
      while i < n
        invariant i <= n == buf.words[0]
        invariant forall j | 0 <= j < i :: sector[j] == buf.words[1 + j]
      {
        sector[i] := buf.words[1 + i];
        i := i + 1;
      }
    }

    method WriteHead()
      requires l.Fits(disk) && n <= LOGSIZE == sector.Length
      modifies this`disk, this`history
      ensures disk == old(disk)[l.start := PutHead(old(disk)[l.start], sector[..], n, n)]
      ensures history == Then(old(history), HeadWrite(old(disk), l, sector[..], n))
    {
      var buf := Block(disk[l.start].words[0 := n]);
      var i := 0;
      while i < n
        invariant i <= n && buf == PutHead(disk[l.start], sector[..], n, i)
      {
        buf := Block(buf.words[1 + i := sector[i]]);
        i := i + 1;
      }
      Bwrite(l.start, buf);
    }

    /** install_trans on a disk whose header names `secs`, which it has in memory. */
    method InstallTrans(ghost secs: seq<int>)
      requires l.Fits(disk) && n == |secs| <= LOGSIZE == l.cap == sector.Length && n <= l.MaxBlocks()
      requires GoodSectors(secs, n, l) && forall i | 0 <= i < n :: sector[i] == secs[i]
      modifies this`disk, this`pinned, this`history
      ensures history == Record(old(history), InstallTrace(old(disk), l, secs), n)
      ensures disk == ApplyWrites(old(disk), InstallTrace(old(disk), l, secs))
      ensures forall s | s in pinned :: s in old(pinned) && s !in secs
    {
      ghost var d0, ws := disk, InstallTrace(disk, l, secs);
      var tail := 0;
      while tail < n
        invariant tail <= n
        invariant history == Record(old(history), ws, tail) && disk == After(d0, ws, tail)
        invariant forall s: nat {:trigger disk[s]} | l.start <= s < l.start + l.size :: disk[s] == d0[s]
        invariant forall s | s in pinned :: s in old(pinned) && forall i | 0 <= i < tail :: secs[i] != s
      {
        var lbuf := disk[l.start + tail + 1];
        Bwrite(sector[tail], lbuf);
        pinned := pinned - {sector[tail]};
        tail := tail + 1;
      }
    }

    /** The tail shared by commit_trans and recover_from_log: install the logged
        blocks, then clear the header. */
    method InstallAndErase(ghost secs: seq<int>)
      requires Logical(disk, l).Some? && l.cap == LOGSIZE == sector.Length && secs == HeadSectors(disk[l.start])
      requires n == |secs| && forall i | 0 <= i < n :: sector[i] == secs[i]
      requires forall s | s in pinned :: s in secs
      modifies this`disk, this`pinned, this`history, this`n
      ensures history == Record(old(history), RecoveryTrace(old(disk), l), |RecoveryTrace(old(disk), l)|)
      ensures disk == Recovered(old(disk), l)
      ensures n == 0 && pinned == map[]
    {
      ghost var d0, past := disk, history;
      InstallPrefix(d0, l, secs, n);
      InstallTrans(secs);
      n := 0;
      WriteHead();
      RecoverySteps(d0, l, past);
      assert pinned == map[] by { assert forall s :: s !in pinned; }
    }

    method RecoverFromLog()
      requires Logical(disk, l).Some? && l.cap == LOGSIZE == sector.Length && pinned == map[]
      modifies this, sector
      ensures history == Record(old(history), RecoveryTrace(old(disk), l), |RecoveryTrace(old(disk), l)|)
      ensures disk == Recovered(old(disk), l) && disk[l.start].words[0] == 0
      ensures Valid() && n == 0 && pinned == map[] && busy == old(busy)
      ensures View() == Home(disk, l) == Logical(old(disk), l).value
    {
      RecoveryKeepsLogical(disk, l, |RecoveryTrace(disk, l)|);
      ghost var secs := HeadSectors(disk[l.start]);
      ReadHead();
      InstallAndErase(secs);
      EmptyLog(disk, l, Head());
    }

    /** One pass of begin_trans's loop: sleep while another transaction is active. */
    method BeginTrans() returns (slept: bool)
      modifies this`busy
      ensures slept == old(busy) && busy
    {
      if busy { return true; }
      busy := true;
      return false;
    }

    /** The absorption scan of log_write. */
    method FindSector(s: int) returns (i: nat)
      requires Head().Sized() && Head().Distinct()
      ensures i == Head().Slot(s)
    {
      i := 0;
      while i < n && sector[i] != s
        invariant i <= n && forall j | 0 <= j < i :: sector[j] != s
      {
        i := i + 1;
      }
      LastIsLast(sector[..], n, s);
      assert i < n ==> Last(sector[..], n, sector[..][i]) == i;
    }

    /** log_write past its two panics: find the slot, write the log block, note the
        sector in the header, pin the buffer. */
    method Append(b: Write)
      requires Valid() && n < l.MaxBlocks()
      modifies this`disk, this`history, this`n, this`pinned, sector
      ensures disk == old(disk)[l.start + 1 + old(Head()).Slot(b.sector) := b.data]
      ensures history == Then(old(history), Write(l.start + 1 + old(Head()).Slot(b.sector), b.data))
      ensures Head() == old(Head()).Logged(b.sector)
      ensures pinned == old(pinned)[b.sector := b.data]
    {
      ghost var h := Head();
      var i := FindSector(b.sector);
      sector[i] := b.sector;
      Bwrite(l.start + i + 1, b.data);
      if i == n { n := n + 1; }
      pinned := pinned[b.sector := b.data];
      assert sector[..] == h.sector[i := b.sector];
      assert Head() == h.Logged(b.sector) by {
        if i < h.n { assert h.sector[i := b.sector] == h.sector; }
      }
    }

    method LogWrite(b: Write) returns (r: Outcome)
      requires Valid() && l.IsHome(b.sector)
      modifies this`disk, this`history, this`n, this`pinned, sector
      ensures Valid()
      ensures r.Panic? <==> old(n) >= LOGSIZE || old(n) >= l.size - 1 || !busy
      ensures r.Panic? ==>
        disk == old(disk) && history == old(history) && Head() == old(Head()) && pinned == old(pinned)
      ensures r.Done? ==>
        && disk == old(disk)[l.start + 1 + old(Head()).Slot(b.sector) := b.data]
        && history == Then(old(history), Write(l.start + 1 + old(Head()).Slot(b.sector), b.data))
        && Head() == old(Head()).Logged(b.sector)
        && View() == old(View())[b.sector := b.data]
    {
      hide Agreed, Pinned, ViewOf;
      AgreedSizes(disk, l, Head(), pinned);
      if n >= LOGSIZE || n >= l.size - 1 {
        r := Panic("too big a transaction");
      } else if !busy {
        r := Panic("write outside of trans");
      } else {
        ViewAfterLogging(disk, l, pinned, b, Head().Slot(b.sector));
        AgreedAfterLogging(disk, l, Head(), pinned, b);
        Append(b);
        r := Done;
      }
    }

    method CommitTrans()
      requires Valid() && GoodSectors(Head().sector, n, l)
      modifies this
      ensures Valid() && n == 0 && pinned == map[] && !busy && View() == old(View()) == Home(disk, l)
      ensures old(n) == 0 ==> history == old(history) && disk == old(disk)
      ensures old(n) > 0 ==>
        && var c := Committed(old(disk), l, old(Head().sector), old(n));
        && Logical(c, l).Some? && disk == Recovered(c, l)
        && history == Record(Then(old(history), HeadWrite(old(disk), l, old(Head().sector), old(n))),
             RecoveryTrace(c, l), |RecoveryTrace(c, l)|)
    {
      ViewIsOverlay(disk, l, Head(), pinned);
      if n > 0 {
        CommitLogged();
      }
      assert pinned == map[] by { assert forall s :: s !in pinned; }
      EmptyLog(disk, l, Head());
      busy := false;
    }

    /** commit_trans when something was logged. */
    method CommitLogged()
      requires Valid() && GoodSectors(Head().sector, n, l)
      modifies this`disk, this`pinned, this`history, this`n
      ensures n == 0 && pinned == map[] && l.Fits(disk)
      ensures Home(disk, l) == Overlay(old(disk), l, old(Head().sector), old(n))
      ensures var c := Committed(old(disk), l, old(Head().sector), old(n));
        && Logical(c, l).Some? && disk == Recovered(c, l)
        && history == Record(Then(old(history), HeadWrite(old(disk), l, old(Head().sector), old(n))),
             RecoveryTrace(c, l), |RecoveryTrace(c, l)|)
    {
      ghost var c := Committed(disk, l, Head().sector, n);
      CommittedStandsForOverlay(disk, l, Head().sector, n);
      RecoveryKeepsLogical(c, l, |RecoveryTrace(c, l)|);
      PinnedAreLogged(disk, l, Head(), pinned);
      WriteHead();
      InstallAndErase(sector[..n]);
    }

    /** The `i`th log_write call of a system call that started from `d`, `h` and `past`. */
    method LogNext(ws: seq<Write>, i: nat, ghost d: Disk, ghost h: Header, ghost past: History)
      requires Valid() && busy && h.Sized() && i < |ws| && Loggable(l, h, ws, i + 1)
      requires Head() == HeaderAfter(h, ws, i) && disk == DiskLogged(d, l, h, ws, i)
      requires history == HistoryLogged(past, l, h, ws, i)
      modifies this`disk, this`history, this`n, this`pinned, sector
      ensures Valid()
      ensures Head() == HeaderAfter(h, ws, i + 1) && disk == DiskLogged(d, l, h, ws, i + 1)
      ensures history == HistoryLogged(past, l, h, ws, i + 1)
    {
      hide Agreed;
      AgreedSizes(disk, l, Head(), pinned);
      var r := LogWrite(ws[i]);
    }

    /** The log_write calls of one system call. */
    method LogAll(ws: seq<Write>)
      requires Valid() && busy && Loggable(l, Head(), ws, |ws|)
      modifies this`disk, this`history, this`n, this`pinned, sector
      ensures Valid() && Head() == HeaderAfter(old(Head()), ws, |ws|)
      ensures disk == DiskLogged(old(disk), l, old(Head()), ws, |ws|)
      ensures history == HistoryLogged(old(history), l, old(Head()), ws, |ws|)
    {
      hide Agreed, Loggable, HeaderAfter, DiskLogged, HistoryLogged;
      ghost var d, h, past := disk, Head(), history;
      AgreedSizes(d, l, h, pinned);
      NoneLogged(past, d, l, h, ws);
      var i := 0;
      while i < |ws|
        invariant i <= |ws| && Valid() && Head() == HeaderAfter(h, ws, i)
        invariant disk == DiskLogged(d, l, h, ws, i)
        invariant history == HistoryLogged(past, l, h, ws, i)
      {
        LoggablePrefix(l, h, ws, |ws|, i + 1);
        LogNext(ws, i, d, h, past);
        i := i + 1;
      }
    }

    /** A system call's use of the log: begin_trans, its log_write calls, commit_trans.
        It makes exactly the sector writes `DiskAfter` runs through. */
    method RunTransaction(ws: seq<Write>)
      requires Valid() && !busy && Idle(disk, l, Head()) && Loggable(l, Head(), ws, |ws|)
      modifies this, sector
      ensures Valid() && n == 0 && !busy
      ensures history == TransactionHistory(old(history), old(disk), l, old(Head()), ws)
      ensures disk == DiskAfter(old(disk), l, old(Head()), ws, Length(old(disk), l, old(Head()), ws))
    {
      LoggingState(disk, l, Head(), ws, |ws|);
      LoggedSomething(Head(), ws, |ws|);
      var slept := BeginTrans();
      LogAll(ws);
      CommitTrans();
    }
  }
}
