/** src/fmt/log.c: the later log, where many operations share one transaction. A state
    machine whose steps are what runs under log.lock, plus the unlocked panic checks of
    log_write and every sector write of commit; any interleaving of threads is a run. */
module GroupCommit {
  import opened Blocks
  import opened Options
  import opened RedoLog

  const MAXOPBLOCKS := 10
  const LOGSIZE := 30

  /** A log with room for LOGSIZE blocks. */
  ghost predicate Roomy(l: Layout) {
    l.cap == LOGSIZE < l.size
  }

  // ---- the operations of a run, and the file systems they build ----

  /** The log_write calls made so far, the latest outermost: who, and what. */
  datatype Calls = Start | Call(past: Calls, op: int, write: Write)

  function Build(fs: Disk, cs: Calls): (r: Disk)
    ensures |r| == |fs|
  {
    match cs
    case Start => fs
    case Call(past, _, w) => var r := Build(fs, past); if 0 <= w.sector < |r| then r[w.sector := w.data] else r
  }

  function Callers(cs: Calls): set<int> {
    match cs
    case Start => {}
    case Call(past, op, _) => Callers(past) + {op}
  }

  /** Operation `op` has made log_write call `w`. */
  predicate Made(cs: Calls, op: int, w: Write) {
    cs.Call? && ((cs.op == op && cs.write == w) || Made(cs.past, op, w))
  }

  lemma {:induction false} MadeByCaller(cs: Calls, op: int, w: Write)
    ensures Made(cs, op, w) ==> op in Callers(cs)
  {
    if cs.Call? {
      MadeByCaller(cs.past, op, w);
    }
  }

  function Join(a: Calls, b: Calls): Calls {
    match b
    case Start => a
    case Call(past, op, w) => Call(Join(a, past), op, w)
  }

  lemma {:induction false} JoinBuilds(fs: Disk, a: Calls, b: Calls)
    ensures Build(fs, Join(a, b)) == Build(Build(fs, a), b)
    ensures Callers(Join(a, b)) == Callers(a) + Callers(b)
  {
    if b.Call? {
      JoinBuilds(fs, a, b.past);
    }
  }

  // ---- the disk, the header and the pinned buffers ----

  /** Where commit has got to: not started, `done` log blocks written, committed on
      disk `at` and `done` of the writes of recovery made, finished. */
  datatype Phase = Running | Writing(done: nat) | Installing(at: Disk, done: nat) | Erased

  /** `durable` and `group` are the calls of committed and of current transactions. */
  datatype Store = Store(disk: Disk, head: Header, pinned: map<int, Block>, phase: Phase,
                         durable: Calls, group: Calls)

  /** The in-memory header names exactly the pinned buffers. */
  ghost predicate NamesPinned(h: Header, pinned: map<int, Block>)
    requires h.Sized()
  {
    forall s {:trigger s in pinned} {:trigger Last(h.sector, h.n, s)} :: s in pinned <==> Last(h.sector, h.n, s) >= 0
  }

  /** The header fits, names home sectors, and names exactly the pinned buffers. */
  ghost predicate Kept(l: Layout, h: Header, pinned: map<int, Block>) {
    h.n <= |h.sector| == LOGSIZE && GoodSectors(h.sector, h.n, l) && NamesPinned(h, pinned)
  }

  /** The file system in the home sectors of a disk with an empty log. */
  ghost function Plain(d: Disk, l: Layout): Option<Disk> {
    if l.Fits(d) && d[l.start].words[0] == 0 then Some(Home(d, l)) else None
  }

  /** The pinned buffers of the first `k` named sectors are in the log area. */
  ghost predicate Copied(d: Disk, l: Layout, h: Header, pinned: map<int, Block>, k: nat)
    requires Roomy(l) && l.Fits(d) && Kept(l, h, pinned) && k <= h.n
  {
    forall i | 0 <= i < k :: Last(h.sector, h.n, h.sector[i]) >= 0 && d[l.start + 1 + i] == pinned[h.sector[i]]
  }

  /** Before the header is written: the home sectors hold the committed calls, the
      pinned buffers add the current ones, `k` of them copied to the log area. */
  ghost predicate Collecting(l: Layout, fs: Disk, st: Store, k: nat)
    requires Roomy(l)
  {
    && Plain(st.disk, l) == Some(Build(fs, st.durable))
    && Kept(l, st.head, st.pinned)
    && ViewOf(st.disk, st.pinned, l) == Build(Build(fs, st.durable), st.group)
    && (st.head.n == 0 <==> st.group.Start?)
    && k <= st.head.n
    && Copied(st.disk, l, st.head, st.pinned, k)
  }

  lemma CopiedBlocksStand(d: Disk, l: Layout, h: Header, pinned: map<int, Block>)
    requires Roomy(l) && l.Fits(d) && Kept(l, h, pinned) && Copied(d, l, h, pinned, h.n)
    ensures Overlay(d, l, h.sector, h.n) == ViewOf(d, pinned, l)
  {}

  function LogCall(st: Store, op: int, w: Write): Store
    requires st.head.Sized()
  {
    st.(head := st.head.Logged(w.sector), pinned := st.pinned[w.sector := w.data], group := Call(st.group, op, w))
  }

  lemma KeptAfterCall(l: Layout, h: Header, pinned: map<int, Block>, w: Write)
    requires Kept(l, h, pinned) && l.IsHome(w.sector) && h.Slot(w.sector) < LOGSIZE
    ensures Kept(l, h.Logged(w.sector), pinned[w.sector := w.data])
  {
    var h' := h.Logged(w.sector);
    forall s
      ensures Last(h'.sector, h'.n, s) >= 0 <==> s == w.sector || Last(h.sector, h.n, s) >= 0
    {
      if h.n < LOGSIZE {
        LastAfterLogging(h, w.sector, s);
      }
    }
  }

  lemma ViewAfterCall(d: Disk, l: Layout, pinned: map<int, Block>, w: Write)
    requires l.Fits(d) && l.IsHome(w.sector)
    ensures ViewOf(d, pinned[w.sector := w.data], l) == ViewOf(d, pinned, l)[w.sector := w.data]
  {}

  lemma CallKeepsCollecting(l: Layout, fs: Disk, st: Store, op: int, w: Write)
    requires Roomy(l) && Collecting(l, fs, st, 0) && l.IsHome(w.sector) && st.head.Slot(w.sector) < LOGSIZE
    ensures Collecting(l, fs, LogCall(st, op, w), 0)
  {
    KeptAfterCall(l, st.head, st.pinned, w);
    ViewAfterCall(st.disk, l, st.pinned, w);
  }

  /** Once the header is written, at disk `at`: `k` writes of recovery have been made,
      the blocks they install are unpinned, and every call is durable. */
  ghost predicate Settling(l: Layout, fs: Disk, st: Store, at: Disk, k: nat)
    requires Roomy(l)
  {
    && Logical(at, l) == Some(Build(fs, st.durable)) && st.group.Start?
    && st.head.n <= |st.head.sector| == LOGSIZE && k <= st.head.n
    && HeadSectors(at[l.start]) == st.head.sector[..st.head.n]
    && st.disk == After(at, RecoveryTrace(at, l), k)
    && forall s | s in st.pinned :: s in st.head.sector[k..st.head.n]
  }

  ghost predicate StoreOk(l: Layout, fs: Disk, st: Store)
    requires Roomy(l)
  {
    match st.phase
    case Running => Collecting(l, fs, st, 0)
    case Writing(k) => Collecting(l, fs, st, k) && 0 < st.head.n
    case Installing(at, k) => Settling(l, fs, st, at, k)
    case Erased => Collecting(l, fs, st, 0) && st.head.n == 0
  }

  /** commit: nothing to do if nothing was logged. */
  function StartCommit(st: Store): Store {
    st.(phase := if st.head.n > 0 then Writing(0) else Erased)
  }

  /** One iteration of write_log. */
  function WriteLogBlock(l: Layout, st: Store, k: nat): Store
    requires k < |st.head.sector| && st.head.sector[k] in st.pinned && l.start + 1 + k < |st.disk|
  {
    st.(disk := st.disk[l.start + 1 + k := st.pinned[st.head.sector[k]]], phase := Writing(k + 1))
  }

  /** write_head, the commit point: the calls of this group are now durable. */
  function WriteHead(l: Layout, st: Store): Store
    requires l.Fits(st.disk) && st.head.Sized() && st.head.n <= l.MaxBlocks()
  {
    var at := Committed(st.disk, l, st.head.sector, st.head.n);
    st.(disk := at, phase := Installing(at, 0), durable := Join(st.durable, st.group), group := Start)
  }

  /** One iteration of install_trans. */
  function InstallBlock(l: Layout, st: Store, at: Disk, k: nat): Store
    requires k < |st.head.sector| && 0 <= st.head.sector[k] < |st.disk| && l.start + 1 + k < |st.disk|
  {
    st.(disk := st.disk[st.head.sector[k] := st.disk[l.start + 1 + k]], pinned := st.pinned - {st.head.sector[k]},
        phase := Installing(at, k + 1))
  }

  /** The end of commit: an empty header in memory and on disk. */
  function Erase(l: Layout, st: Store): Store
    requires l.start < |st.disk| && st.disk[l.start].Full()
  {
    st.(disk := st.disk[l.start := PutHead(st.disk[l.start], st.head.sector, 0, 0)], head := st.head.(n := 0), phase :=
      Erased)
  }

  /** The next sector write of commit, wherever it has got to. */
  ghost function CommitWrite(l: Layout, st: Store): (r: Store)
    requires Roomy(l) && l.Fits(st.disk) && st.head.n <= |st.head.sector| == LOGSIZE
  {
    match st.phase
    case Writing(k) =>
      if k < st.head.n then if st.head.sector[k] in st.pinned then WriteLogBlock(l, st, k) else st else WriteHead(l, st)
    case Installing(at, k) =>
      if k < st.head.n then if l.IsHome(st.head.sector[k]) then InstallBlock(l, st, at, k) else st else Erase(l, st)
    case _ => st
  }

  lemma CopyKeepsCollecting(l: Layout, fs: Disk, st: Store, k: nat)
    requires Roomy(l) && Collecting(l, fs, st, k) && k < st.head.n
    ensures st.head.sector[k] in st.pinned && Collecting(l, fs, WriteLogBlock(l, st, k), k + 1)
  {
    LastIsLast(st.head.sector, st.head.n, st.head.sector[k]);
    var st' := WriteLogBlock(l, st, k);
    forall s: nat | s < |st.disk|
      ensures OverlayAt(st'.disk, l, [], 0, s) == OverlayAt(st.disk, l, [], 0, s)
      ensures ViewAt(st'.disk, st.pinned, l, s) == ViewAt(st.disk, st.pinned, l, s)
    {}
    assert ViewOf(st'.disk, st.pinned, l) == ViewOf(st.disk, st.pinned, l);
    assert Home(st'.disk, l) == Home(st.disk, l);
  }

  lemma HeadSettles(l: Layout, fs: Disk, st: Store)
    requires Roomy(l) && Collecting(l, fs, st, st.head.n)
    ensures Settling(l, fs, WriteHead(l, st), Committed(st.disk, l, st.head.sector, st.head.n), 0)
  {
    CopiedBlocksStand(st.disk, l, st.head, st.pinned);
    CommittedStandsForOverlay(st.disk, l, st.head.sector, st.head.n);
    JoinBuilds(fs, st.durable, st.group);
    forall s | s in st.pinned
      ensures s in st.head.sector[0..st.head.n]
    {
      assert st.head.sector[0..st.head.n][Last(st.head.sector, st.head.n, s)] == s;
    }
  }

  /** Where the first `k` writes of recovery of `at` have left header and log area. */
  lemma SettlingDisk(l: Layout, fs: Disk, st: Store, at: Disk, k: nat)
    requires Roomy(l) && Settling(l, fs, st, at, k)
    ensures l.Fits(st.disk) && Logical(st.disk, l) == Logical(at, l)
    ensures forall s: nat {:trigger st.disk[s]} | l.start <= s < l.start + l.size :: st.disk[s] == at[s]
  {
    var secs := HeadSectors(at[l.start]);
    InstallPrefix(at, l, secs, k);
    AfterPrefix(at, InstallTrace(at, l, secs), RecoveryTrace(at, l), k);
  }

  lemma InstallSettles(l: Layout, fs: Disk, st: Store, at: Disk, k: nat)
    requires Roomy(l) && Settling(l, fs, st, at, k) && k < st.head.n
    ensures l.Fits(st.disk) && l.IsHome(st.head.sector[k]) && Settling(l, fs, InstallBlock(l, st, at, k), at, k + 1)
  {
    SettlingDisk(l, fs, st, at, k);
    var secs := HeadSectors(at[l.start]);
    assert secs[k] == st.head.sector[k];
    assert After(at, RecoveryTrace(at, l), k + 1) == st.disk[secs[k] := at[l.start + 1 + k]];
  }

  lemma EraseSettles(l: Layout, fs: Disk, st: Store, at: Disk)
    requires Roomy(l) && Settling(l, fs, st, at, st.head.n)
    ensures l.Fits(st.disk) && Collecting(l, fs, Erase(l, st), 0)
  {
    SettlingDisk(l, fs, st, at, st.head.n);
    var st' := Erase(l, st);
    RecoveryKeepsLogical(at, l, st.head.n + 1);
    assert After(at, RecoveryTrace(at, l), st.head.n + 1) == st'.disk;
    assert st.pinned == map[] by { assert forall s :: s !in st.pinned; }
    EmptyView(st'.disk, l);
  }

  lemma EmptyView(d: Disk, l: Layout)
    requires l.Fits(d)
    ensures ViewOf(d, map[], l) == Home(d, l)
  {}

  lemma StoreIsSized(l: Layout, fs: Disk, st: Store)
    requires Roomy(l) && StoreOk(l, fs, st)
    ensures l.Fits(st.disk) && st.head.n <= |st.head.sector| == LOGSIZE
  {
    if st.phase.Installing? {
      SettlingDisk(l, fs, st, st.phase.at, st.phase.done);
    }
  }

  /** Neither loop of commit goes past the header's count. */
  lemma HowFar(l: Layout, fs: Disk, st: Store)
    requires Roomy(l) && StoreOk(l, fs, st)
    ensures st.phase.Writing? ==> st.phase.done <= st.head.n
    ensures st.phase.Installing? ==> st.phase.done <= st.head.n
  {}

  /** No sector write of commit breaks the store. */
  lemma CommitWriteKeepsStore(l: Layout, fs: Disk, st: Store)
    requires Roomy(l) && StoreOk(l, fs, st)
    ensures l.Fits(st.disk) && st.head.n <= |st.head.sector| == LOGSIZE && StoreOk(l, fs, CommitWrite(l, st))
  {
    StoreIsSized(l, fs, st);
    HowFar(l, fs, st);
    hide Collecting, Settling, Committed, PutHead;
    match st.phase
    case Writing(k) =>
      if k < st.head.n { CopyKeepsCollecting(l, fs, st, k); } else { HeadSettles(l, fs, st); }
    case Installing(at, k) =>
      if k < st.head.n { InstallSettles(l, fs, st, at, k); } else { EraseSettles(l, fs, st, at); }
    case _ =>
  }

  /** At every moment the disk stands for exactly the durable calls. */
  lemma DiskStandsForDurable(l: Layout, fs: Disk, st: Store)
    requires Roomy(l) && StoreOk(l, fs, st)
    ensures Logical(st.disk, l) == Some(Build(fs, st.durable))
  {
    if st.phase.Installing? {
      SettlingDisk(l, fs, st, st.phase.at, st.phase.done);
    } else {
      PlainIsLogical(st.disk, l);
    }
  }

  lemma PlainIsLogical(d: Disk, l: Layout)
    requires Plain(d, l).Some?
    ensures Logical(d, l) == Plain(d, l)
  {}

  // ---- threads, reservations and the lock-protected counters ----

  /** A thread: not in an operation, woken and about to retry begin_op, asleep in it,
      in operation `op` having logged `logged` (and past log_write's panic checks for
      `pending`), or running commit. */
  datatype Thread = Out | Woken | Asleep | In(op: int, logged: set<int>, pending: Option<Write>) | Committer

  /** `nextOp` names the next operation; `committer` is the thread that last set `committing`. */
  datatype State = State(store: Store, outstanding: int, committing: bool, committer: nat, threads: seq<Thread>,
    nextOp: int)

  function InOp(t: Thread): nat {
    if t.In? then 1 else 0
  }

  /** What begin_op set aside for a thread and its log_writes have not used. */
  function Unused(t: Thread): nat {
    if t.In? && |t.logged| < MAXOPBLOCKS then MAXOPBLOCKS - |t.logged| else 0
  }

  function Count(ts: seq<Thread>, k: nat): nat
    requires k <= |ts|
  {
    if k == 0 then 0 else Count(ts, k - 1) + InOp(ts[k - 1])
  }

  function Reserved(ts: seq<Thread>, k: nat): nat
    requires k <= |ts|
  {
    if k == 0 then 0 else Reserved(ts, k - 1) + Unused(ts[k - 1])
  }

  lemma {:induction false} Switch(ts: seq<Thread>, p: nat, t: Thread, k: nat)
    requires p < |ts| && k <= |ts|
    ensures Count(ts[p := t], k) == Count(ts, k) + if p < k then InOp(t) - InOp(ts[p]) else 0
    ensures Reserved(ts[p := t], k) == Reserved(ts, k) + if p < k then Unused(t) - Unused(ts[p]) else 0
    ensures p < k ==> Unused(ts[p]) <= Reserved(ts, k) && InOp(ts[p]) <= Count(ts, k)
  {
    if k > 0 {
      Switch(ts, p, t, k - 1);
    }
  }

  function Awake(t: Thread): Thread {
    if t.Asleep? then Woken else t
  }

  /** wakeup(&log) */
  function Wakeup(ts: seq<Thread>): (r: seq<Thread>)
    ensures |r| == |ts|
  {
    seq(|ts|, i requires 0 <= i < |ts| => Awake(ts[i]))
  }

  lemma {:induction false} WakeupCounts(ts: seq<Thread>, k: nat)
    requires k <= |ts|
    ensures Count(Wakeup(ts), k) == Count(ts, k) && Reserved(Wakeup(ts), k) == Reserved(ts, k)
  {
    if k > 0 {
      WakeupCounts(ts, k - 1);
    }
  }

  lemma {:induction false} NobodyIn(ts: seq<Thread>, k: nat)
    requires k <= |ts| && Count(ts, k) == 0
    ensures forall i | 0 <= i < k :: !ts[i].In?
    ensures Reserved(ts, k) == 0
  {
    if k > 0 {
      NobodyIn(ts, k - 1);
    }
  }

  // ---- the steps ----

  datatype Action = Begin(p: nat) | Check(p: nat, w: Write) | Append(p: nat) | End(p: nat) | Commit | Finish(p: nat)

  /** begin_op's two reasons to sleep. */
  predicate MustWait(s: State) {
    s.committing || s.store.head.n + (s.outstanding + 1) * MAXOPBLOCKS > LOGSIZE
  }

  function BeginOp(s: State, p: nat): State
    requires p < |s.threads|
  {
    if MustWait(s) then s.(threads := s.threads[p := Asleep])
    else s.(outstanding := s.outstanding + 1, threads := s.threads[p := In(s.nextOp, {}, None)], nextOp := s.nextOp + 1)
  }

  /** log_write's checks, made before it takes the lock. */
  predicate TooBig(l: Layout, s: State) {
    s.store.head.n >= LOGSIZE || s.store.head.n >= l.size - 1
  }

  predicate OutsideOfTrans(s: State) {
    s.outstanding < 1
  }

  function AppendBlock(s: State, p: nat): State
    requires p < |s.threads| && s.threads[p].In? && s.threads[p].pending.Some? && s.store.head.Sized()
  {
    var t := s.threads[p];
    var w := t.pending.value;
    s.(store := LogCall(s.store, t.op, w), threads := s.threads[p := In(t.op, t.logged + {w.sector}, None)])
  }

  function EndOp(s: State, p: nat): State
    requires p < |s.threads|
  {
    if s.outstanding - 1 == 0 then
      s.(outstanding := 0, committing := true, committer := p, threads := s.threads[p := Committer], store :=
        StartCommit(s.store))
    else
      s.(outstanding := s.outstanding - 1, threads := Wakeup(s.threads[p := Out]))
  }

  function FinishCommit(s: State, p: nat): State
    requires p < |s.threads|
  {
    s.(committing := false, threads := Wakeup(s.threads[p := Out]), store := s.store.(phase := Running))
  }

  /** What a client promises of log_write: a home sector, and at most MAXOPBLOCKS
      distinct ones an operation. */
  predicate Promised(l: Layout, t: Thread, w: Write) {
    t.In? && l.IsHome(w.sector) && |t.logged + {w.sector}| <= MAXOPBLOCKS
  }

  /** One thread, between two steps. */
  ghost predicate ThreadOk(l: Layout, s: State, p: nat)
    requires p < |s.threads|
  {
    match s.threads[p]
    case In(op, logged, pending) =>
      && !s.committing && op < s.nextOp && op !in Callers(s.store.durable)
      && |logged| <= MAXOPBLOCKS && (pending.Some? ==> Promised(l, s.threads[p], pending.value))
      && s.store.head.Sized() && forall x | x in logged :: Last(s.store.head.sector, s.store.head.n, x) >= 0
    case Asleep => s.committing || s.outstanding > 0
    case Committer => s.committing && p == s.committer
    case _ => true
  }

  ghost predicate ThreadsOk(l: Layout, s: State) {
    forall p | 0 <= p < |s.threads| :: ThreadOk(l, s, p)
  }

  ghost predicate CountsOk(s: State) {
    && s.outstanding == Count(s.threads, |s.threads|)
    && s.store.head.n + Reserved(s.threads, |s.threads|) <= LOGSIZE
    && s.committing == !s.store.phase.Running?
    && (s.committing ==> s.outstanding == 0 && s.committer < |s.threads| && s.threads[s.committer].Committer?)
    && (!s.committing && s.outstanding == 0 ==> s.store.head.n == 0)
  }

  /** Only finished operations are durable, and no operation has calls on both sides. */
  ghost predicate WholeOps(s: State) {
    Callers(s.store.durable) !! Callers(s.store.group) && Older(s.store.durable, s.nextOp) &&
      Older(s.store.group, s.nextOp)
  }

  ghost predicate Older(cs: Calls, next: int) {
    forall op | op in Callers(cs) :: op < next
  }

  ghost predicate Inv(l: Layout, fs: Disk, s: State)
    requires Roomy(l)
  {
    StoreOk(l, fs, s.store) && CountsOk(s) && ThreadsOk(l, s) && WholeOps(s)
  }

  lemma {:induction false} BoundedByReserve(ts: seq<Thread>, k: nat)
    requires k <= |ts|
    ensures Reserved(ts, k) <= MAXOPBLOCKS * Count(ts, k)
  {
    if k > 0 {
      BoundedByReserve(ts, k - 1);
    }
  }

  lemma BeginKeeps(l: Layout, fs: Disk, s: State, p: nat)
    requires Roomy(l) && Inv(l, fs, s) && p < |s.threads| && (s.threads[p].Out? || s.threads[p].Woken?)
    ensures Inv(l, fs, BeginOp(s, p))
  {
    hide StoreOk, Callers;
    StoreIsSized(l, fs, s.store);
    Switch(s.threads, p, BeginOp(s, p).threads[p], |s.threads|);
    BoundedByReserve(s.threads, |s.threads|);
    forall q | 0 <= q < |s.threads|
      ensures ThreadOk(l, BeginOp(s, p), q)
    {
      assert ThreadOk(l, s, q);
    }
  }

  /** A thread past the unlocked checks finds a free slot, whatever ran in between. */
  lemma RoomToAppend(l: Layout, fs: Disk, s: State, p: nat)
    requires Roomy(l) && Inv(l, fs, s) && p < |s.threads| && s.threads[p].In? && s.threads[p].pending.Some?
    ensures s.store.phase.Running? && s.store.head.n <= |s.store.head.sector| == LOGSIZE
    ensures s.store.head.Slot(s.threads[p].pending.value.sector) < LOGSIZE
  {
    var t := s.threads[p];
    assert ThreadOk(l, s, p);
    Switch(s.threads, p, t, |s.threads|);
    if t.pending.value.sector in t.logged {
      assert Last(s.store.head.sector, s.store.head.n, t.pending.value.sector) >= 0;
    }
  }

  lemma AppendKeepsCounts(l: Layout, fs: Disk, s: State, p: nat)
    requires Roomy(l) && Inv(l, fs, s) && p < |s.threads| && s.threads[p].In? && s.threads[p].pending.Some?
    ensures s.store.head.Sized() && CountsOk(AppendBlock(s, p)) && WholeOps(AppendBlock(s, p))
  {
    var t, s' := s.threads[p], AppendBlock(s, p);
    assert ThreadOk(l, s, p);
    Switch(s.threads, p, s'.threads[p], |s.threads|);
    if t.pending.value.sector in t.logged {
      assert Last(s.store.head.sector, s.store.head.n, t.pending.value.sector) >= 0;
      assert t.logged + {t.pending.value.sector} == t.logged;
    }
  }

  lemma AppendKeepsThreads(l: Layout, fs: Disk, s: State, p: nat)
    requires Roomy(l) && Inv(l, fs, s) && p < |s.threads| && s.threads[p].In? && s.threads[p].pending.Some?
    ensures s.store.head.Sized() && ThreadsOk(l, AppendBlock(s, p))
  {
    RoomToAppend(l, fs, s, p);
    var s', w := AppendBlock(s, p), s.threads[p].pending.value;
    forall x
      ensures Last(s'.store.head.sector, s'.store.head.n, x) >= 0 <==>
        x == w.sector || Last(s.store.head.sector, s.store.head.n, x) >= 0
    {
      if s.store.head.n < LOGSIZE {
        LastAfterLogging(s.store.head, w.sector, x);
      }
    }
    assert ThreadOk(l, s, p);
    forall q | 0 <= q < |s.threads|
      ensures ThreadOk(l, s', q)
    {
      assert ThreadOk(l, s, q);
    }
  }

  lemma AppendKeeps(l: Layout, fs: Disk, s: State, p: nat)
    requires Roomy(l) && Inv(l, fs, s) && p < |s.threads| && s.threads[p].In? && s.threads[p].pending.Some?
    ensures s.store.head.Sized() && Inv(l, fs, AppendBlock(s, p))
  {
    var t := s.threads[p];
    assert ThreadOk(l, s, p);
    RoomToAppend(l, fs, s, p);
    AppendKeepsCounts(l, fs, s, p);
    AppendKeepsThreads(l, fs, s, p);
    CallKeepsCollecting(l, fs, s.store, t.op, t.pending.value);
  }

  lemma EndKeeps(l: Layout, fs: Disk, s: State, p: nat)
    requires Roomy(l) && Inv(l, fs, s) && p < |s.threads| && s.threads[p].In?
    ensures Inv(l, fs, EndOp(s, p))
  {
    var s' := EndOp(s, p);
    var ts := s.threads[p := if s.outstanding - 1 == 0 then Committer else Out];
    assert ThreadOk(l, s, p);
    Switch(s.threads, p, ts[p], |s.threads|);
    WakeupCounts(ts, |ts|);
    if s.outstanding - 1 == 0 {
      NobodyIn(ts, |ts|);
    }
    forall q | 0 <= q < |s.threads|
      ensures ThreadOk(l, s', q)
    {
      assert ThreadOk(l, s, q);
      assert !s'.committing || !ts[q].In?;
    }
  }

  lemma FinishKeeps(l: Layout, fs: Disk, s: State, p: nat)
    requires Roomy(l) && Inv(l, fs, s) && p < |s.threads| && s.threads[p].Committer? && s.store.phase.Erased?
    ensures Inv(l, fs, FinishCommit(s, p))
  {
    var s' := FinishCommit(s, p);
    Switch(s.threads, p, Out, |s.threads|);
    WakeupCounts(s.threads[p := Out], |s.threads|);
    assert ThreadOk(l, s, p);
    forall q | 0 <= q < |s.threads|
      ensures ThreadOk(l, s', q)
    {
      assert ThreadOk(l, s, q);
    }
  }

  // ---- runs ----

  ghost predicate Enabled(l: Layout, s: State, a: Action) {
    match a
    case Begin(p) => p < |s.threads| && (s.threads[p].Out? || s.threads[p].Woken?)
    case Check(p, w) =>
      p < |s.threads| && Promised(l, s.threads[p], w) && s.threads[p].pending.None? && !TooBig(l, s) &&
        !OutsideOfTrans(s)
    case Append(p) => p < |s.threads| && s.threads[p].In? && s.threads[p].pending.Some? && s.store.head.Sized()
    case End(p) => p < |s.threads| && s.threads[p].In? && s.threads[p].pending.None? && !s.committing
    case Commit =>
      && s.committing && (s.store.phase.Writing? || s.store.phase.Installing?)
      && l.Fits(s.store.disk) && s.store.head.n <= |s.store.head.sector| == LOGSIZE
    case Finish(p) => p < |s.threads| && s.threads[p].Committer? && s.store.phase.Erased?
  }

  ghost function Do(l: Layout, s: State, a: Action): State
    requires Roomy(l) && Enabled(l, s, a)
  {
    match a
    case Begin(p) => BeginOp(s, p)
    case Check(p, w) => s.(threads := s.threads[p := s.threads[p].(pending := Some(w))])
    case Append(p) => AppendBlock(s, p)
    case End(p) => EndOp(s, p)
    case Commit => s.(store := CommitWrite(l, s.store))
    case Finish(p) => FinishCommit(s, p)
  }

  lemma CheckKeeps(l: Layout, fs: Disk, s: State, p: nat, w: Write)
    requires Roomy(l) && Inv(l, fs, s) && Enabled(l, s, Check(p, w))
    ensures Inv(l, fs, Do(l, s, Check(p, w)))
  {
    var s' := Do(l, s, Check(p, w));
    Switch(s.threads, p, s'.threads[p], |s.threads|);
    forall q | 0 <= q < |s.threads|
      ensures ThreadOk(l, s', q)
    {
      assert ThreadOk(l, s, q);
    }
  }

  lemma CommitKeeps(l: Layout, fs: Disk, s: State)
    requires Roomy(l) && Inv(l, fs, s) && Enabled(l, s, Commit)
    ensures Inv(l, fs, Do(l, s, Commit))
  {
    hide StoreOk, Committed, PutHead;
    var s' := Do(l, s, Commit);
    CommitWriteKeepsStore(l, fs, s.store);
    JoinBuilds(fs, s.store.durable, s.store.group);
    forall q | 0 <= q < |s.threads|
      ensures ThreadOk(l, s', q)
    {
      assert ThreadOk(l, s, q);
    }
  }

  /** Every step of every thread keeps the invariant. */
  lemma StepKeeps(l: Layout, fs: Disk, s: State, a: Action)
    requires Roomy(l) && Inv(l, fs, s) && Enabled(l, s, a)
    ensures Inv(l, fs, Do(l, s, a))
  {
    match a
    case Begin(p) => BeginKeeps(l, fs, s, p);
    case Check(p, w) => CheckKeeps(l, fs, s, p, w);
    case Append(p) => AppendKeeps(l, fs, s, p);
    case End(p) => EndKeeps(l, fs, s, p);
    case Commit => CommitKeeps(l, fs, s);
    case Finish(p) => FinishKeeps(l, fs, s, p);
  }

  /** A kernel just booted on disk `d`, whose log recovery has emptied. */
  ghost predicate Booted(l: Layout, d: Disk, s: State) {
    && Plain(d, l).Some?
    && s.store.disk == d && s.store.head.n == 0 && |s.store.head.sector| == LOGSIZE && s.store.pinned == map[]
    && s.store.phase.Running? && s.store.durable == Start && s.store.group == Start
    && s.outstanding == 0 && !s.committing && s.nextOp == 0
    && forall p | 0 <= p < |s.threads| :: s.threads[p].Out?
  }

  /** A run: an interleaving of steps, the latest outermost. */
  datatype Run = From(s: State) | Step(before: Run, a: Action)

  ghost function Outcome(l: Layout, r: Run): Option<State>
    requires Roomy(l)
  {
    match r
    case From(s) => Some(s)
    case Step(r', a) =>
      match Outcome(l, r')
      case None => None
      case Some(s) => if Enabled(l, s, a) then Some(Do(l, s, a)) else None
  }

  ghost function First(r: Run): State {
    match r
    case From(s) => s
    case Step(r', _) => First(r')
  }

  lemma {:induction false} NobodyYet(ts: seq<Thread>, k: nat)
    requires k <= |ts| && forall i | 0 <= i < |ts| :: ts[i].Out?
    ensures Count(ts, k) == 0 && Reserved(ts, k) == 0
  {
    if k > 0 {
      NobodyYet(ts, k - 1);
    }
  }

  lemma BootHolds(l: Layout, d: Disk, s: State)
    requires Roomy(l) && Booted(l, d, s)
    ensures Inv(l, Plain(d, l).value, s)
  {
    NobodyYet(s.threads, |s.threads|);
    EmptyView(d, l);
  }

  lemma {:induction false} RunHolds(l: Layout, d: Disk, r: Run)
    requires Roomy(l) && Booted(l, d, First(r)) && Outcome(l, r).Some?
    ensures Inv(l, Plain(d, l).value, Outcome(l, r).value)
  {
    match r
    case From(s) => BootHolds(l, d, s);
    case Step(r', a) =>
      RunHolds(l, d, r');
      StepKeeps(l, Plain(d, l).value, Outcome(l, r').value, a);
  }

  /** Crash atomicity of operations. Crash after any step of any interleaving, then
      crash any number of recoveries: the recovery that completes leaves the initial
      file system changed by exactly the durable calls, and no operation has some calls
      among those and others not, or is durable and still running. */
  lemma GroupCommitIsCrashAtomic(l: Layout, d: Disk, r: Run, crashes: seq<Disk>)
    requires Roomy(l) && Booted(l, d, First(r)) && Outcome(l, r).Some?
    requires CrashChain(crashes, l) && crashes[0] == Outcome(l, r).value.store.disk
    ensures var s, last := Outcome(l, r).value, crashes[|crashes| - 1];
      && Logical(last, l).Some? && l.Fits(Recovered(last, l))
      && Home(Recovered(last, l), l) == Build(Plain(d, l).value, s.store.durable)
      && Callers(s.store.durable) !! Callers(s.store.group)
      && forall p {:trigger s.threads[p]} | 0 <= p < |s.threads| && s.threads[p].In? ::
           s.threads[p].op !in Callers(s.store.durable)
  {
    var s := Outcome(l, r).value;
    RunHolds(l, d, r);
    DiskStandsForDurable(l, Plain(d, l).value, s.store);
    RepeatedCrashesRecover(crashes, l);
    forall p | 0 <= p < |s.threads| && s.threads[p].In?
      ensures s.threads[p].op !in Callers(s.store.durable)
    {
      assert ThreadOk(l, s, p);
    }
  }

  /** So if one call of an operation is durable, all that it has made are, and it is over. */
  lemma NoOperationIsSplit(l: Layout, d: Disk, r: Run, op: int, w: Write, v: Write)
    requires Roomy(l) && Booted(l, d, First(r)) && Outcome(l, r).Some?
    requires Made(Outcome(l, r).value.store.durable, op, w)
    ensures var s := Outcome(l, r).value;
      && (Made(Join(s.store.durable, s.store.group), op, v) ==> Made(s.store.durable, op, v))
      && forall p {:trigger s.threads[p]} | 0 <= p < |s.threads| && s.threads[p].In? :: s.threads[p].op != op
  {
    var s := Outcome(l, r).value;
    RunHolds(l, d, r);
    MadeByCaller(s.store.durable, op, w);
    MadeByCaller(s.store.group, op, v);
    MadeInJoin(s.store.durable, s.store.group, op, v);
    forall p | 0 <= p < |s.threads| && s.threads[p].In?
      ensures s.threads[p].op != op
    {
      assert ThreadOk(l, s, p);
    }
  }

  lemma {:induction false} MadeInJoin(a: Calls, b: Calls, op: int, w: Write)
    ensures Made(Join(a, b), op, w) <==> Made(a, op, w) || Made(b, op, w)
  {
    if b.Call? {
      MadeInJoin(a, b.past, op, w);
    }
  }

  /** No call is lost or reordered: only log_write adds to the calls, at the end. */
  lemma StepAddsOnlyCalls(l: Layout, s: State, a: Action)
    requires Roomy(l) && Enabled(l, s, a)
    ensures var s' := Do(l, s, a);
      Join(s'.store.durable, s'.store.group) ==
        if a.Append? then Call(Join(s.store.durable, s.store.group), s.threads[a.p].op, s.threads[a.p].pending.value)
        else Join(s.store.durable, s.store.group)
    ensures var was, now := Join(s.store.durable, s.store.group), Do(l, s, a).store;
      forall op, w :: Made(Join(now.durable, now.group), op, w) <==>
        Made(was, op, w) || (a.Append? && op == s.threads[a.p].op && w == s.threads[a.p].pending.value)
  {}

  /** When commit finishes, every call made so far is durable and nobody sleeps. */
  lemma FinishedIsDurable(l: Layout, fs: Disk, s: State, p: nat)
    requires Roomy(l) && Inv(l, fs, s) && Enabled(l, s, Finish(p))
    ensures s.store.group == Start && Do(l, s, Finish(p)).store.group == Start
    ensures forall q | 0 <= q < |s.threads| :: !Do(l, s, Finish(p)).threads[q].Asleep?
  {}

  // ---- panics ----

  /** Nobody who keeps the client's promise meets log_write's second panic or
      end_op's. The first one is met exactly when the log is full, and then every
      operation in progress has logged all the blocks it may. */
  lemma WhoPanics(l: Layout, fs: Disk, s: State, p: nat)
    requires Roomy(l) && Inv(l, fs, s) && p < |s.threads| && s.threads[p].In?
    ensures !OutsideOfTrans(s) && !s.committing
    ensures TooBig(l, s) <==> s.store.head.n == LOGSIZE
    ensures TooBig(l, s) ==> |s.threads[p].logged| == MAXOPBLOCKS
  {
    assert ThreadOk(l, s, p);
    Switch(s.threads, p, s.threads[p], |s.threads|);
  }

  // A run to that panic: three operations log ten sectors each, then one logs a
  // sector again, which would have been absorbed.

  /** Of the first `k` sectors, those of the `i`th ten. */
  function Chunk(i: nat, k: nat): set<int> {
    if k == 0 then {}
    else if MAXOPBLOCKS * i <= k - 1 < MAXOPBLOCKS * (i + 1) then Chunk(i, k - 1) + {k - 1}
    else Chunk(i, k - 1)
  }

  lemma {:induction false} ChunkSize(i: nat, k: nat)
    ensures |Chunk(i, k)| <= if k <= MAXOPBLOCKS * i then 0 else if k <= MAXOPBLOCKS * (i + 1)
      then k - MAXOPBLOCKS * i
      else MAXOPBLOCKS
  {
    if k > 0 {
      ChunkSize(i, k - 1);
    }
  }

  function Filling(s: State, b: Block, k: nat): Run {
    if k == 0 then Step(Step(Step(From(s), Begin(0)), Begin(1)), Begin(2))
    else
      var p := (k - 1) / MAXOPBLOCKS;
      Step(Step(Filling(s, b, k - 1), Check(p, Write(k - 1, b))), Append(p))
  }

  ghost predicate Filled(s: State, k: nat) {
    && s.outstanding == 3 && s.store.head.n == k <= |s.store.head.sector| == LOGSIZE && |s.threads| >= 3
    && (forall i | 0 <= i < k :: s.store.head.sector[i] == i)
    && forall i | 0 <= i < 3 :: s.threads[i] == In(i, Chunk(i, k), None)
  }

  lemma FillStep(l: Layout, s: State, b: Block, k: nat)
    requires Roomy(l) && LOGSIZE <= l.start && l.start + l.size <= l.total && Filled(s, k) && k < LOGSIZE
    ensures var p, w := k / MAXOPBLOCKS, Write(k, b);
      && Enabled(l, s, Check(p, w))
      && Enabled(l, Do(l, s, Check(p, w)), Append(p))
      && Filled(Do(l, Do(l, s, Check(p, w)), Append(p)), k + 1)
  {
    var p := k / MAXOPBLOCKS;
    ChunkSize(p, k + 1);
    assert s.threads[p] == In(p, Chunk(p, k), None);
  }

  lemma FillStart(l: Layout, d: Disk, s: State)
    requires Roomy(l) && Booted(l, d, s) && 3 <= |s.threads|
    ensures Filled(BeginOp(BeginOp(BeginOp(s, 0), 1), 2), 0)
  {}

  lemma TwoSteps(l: Layout, r: Run, s: State, a: Action, b: Action)
    requires Roomy(l) && Outcome(l, r) == Some(s) && Enabled(l, s, a) && Enabled(l, Do(l, s, a), b)
    ensures Outcome(l, Step(Step(r, a), b)) == Some(Do(l, Do(l, s, a), b))
  {}

  lemma {:induction false} FillingFills(l: Layout, d: Disk, s: State, b: Block, k: nat)
    requires Roomy(l) && LOGSIZE <= l.start && Booted(l, d, s) && 3 <= |s.threads| && k <= LOGSIZE
    ensures Outcome(l, Filling(s, b, k)).Some? && Filled(Outcome(l, Filling(s, b, k)).value, k)
  {
    if k == 0 {
      FillStart(l, d, s);
      assert s.threads[0].Out? && s.threads[1].Out? && s.threads[2].Out?;
      TwoSteps(l, From(s), s, Begin(0), Begin(1));
    } else {
      FillingFills(l, d, s, b, k - 1);
      var t, p := Outcome(l, Filling(s, b, k - 1)).value, (k - 1) / MAXOPBLOCKS;
      FillStep(l, t, b, k - 1);
      TwoSteps(l, Filling(s, b, k - 1), t, Check(p, Write(k - 1, b)), Append(p));
    }
  }

  /** Keeping the promise of at most MAXOPBLOCKS blocks an operation does not avoid
      the first panic: it is reached although the log_write would need no new block. */
  lemma FullLogPanics(l: Layout, d: Disk, s: State, b: Block)
    requires Roomy(l) && LOGSIZE <= l.start && Booted(l, d, s) && 3 <= |s.threads|
    ensures var r, w := Outcome(l, Filling(s, b, LOGSIZE)), Write(LOGSIZE - 1, b);
      && r.Some? && Promised(l, r.value.threads[2], w) && r.value.threads[2].pending.None?
      && Last(r.value.store.head.sector, r.value.store.head.n, w.sector) >= 0
      && TooBig(l, r.value)
  {
    FillingFills(l, d, s, b, LOGSIZE);
    var t := Outcome(l, Filling(s, b, LOGSIZE)).value;
    ChunkSize(2, LOGSIZE);
    assert t.threads[2] == In(2, Chunk(2, LOGSIZE), None);
    assert Chunk(2, LOGSIZE) + {LOGSIZE - 1} == Chunk(2, LOGSIZE);
    assert t.store.head.sector[LOGSIZE - 1] == LOGSIZE - 1;
  }

  // ---- sleepers ----

  /** In every reachable state begin_op goes ahead exactly if no commit is running and ten
      blocks more fit beside those logged and ten for each operation in progress; it then has
      that reservation, and is one operation more. Otherwise the thread sleeps, and nothing
      else changes. */
  lemma BeginGoesAheadIff(l: Layout, fs: Disk, s: State, p: nat)
    requires Roomy(l) && Inv(l, fs, s) && Enabled(l, s, Begin(p))
    ensures var t := Do(l, s, Begin(p));
      if !s.committing && s.store.head.n + 10 * Count(s.threads, |s.threads|) + 10 <= 30 then
        && t.threads == s.threads[p := In(s.nextOp, {}, None)] && t.outstanding == s.outstanding + 1
        && Reserved(t.threads, |t.threads|) == Reserved(s.threads, |s.threads|) + 10 && t.store == s.store
        && Count(t.threads, |t.threads|) == Count(s.threads, |s.threads|) + 1 && t.committing == s.committing
      else t == s.(threads := s.threads[p := Asleep])
  {
    Switch(s.threads, p, In(s.nextOp, {}, None), |s.threads|);
  }

  /** A thread asleep in begin_op has a waker: an operation still in progress, or a
      commit that is running, and running to its end. */
  lemma SleeperHasWaker(l: Layout, fs: Disk, s: State, q: nat)
    requires Roomy(l) && Inv(l, fs, s) && q < |s.threads| && s.threads[q].Asleep?
    ensures s.committing || s.outstanding > 0
    ensures s.outstanding > 0 ==> exists p | 0 <= p < |s.threads| :: s.threads[p].In?
    ensures s.committing ==>
      s.threads[s.committer].Committer? && (Enabled(l, s, Commit) || Enabled(l, s, Finish(s.committer)))
  {
    assert ThreadOk(l, s, q);
    if s.outstanding > 0 {
      SomebodyIn(s.threads, |s.threads|);
    }
    CommitWriteKeepsStore(l, fs, s.store);
  }

  lemma {:induction false} SomebodyIn(ts: seq<Thread>, k: nat)
    requires k <= |ts| && Count(ts, k) > 0
    ensures exists i | 0 <= i < k :: ts[i].In?
  {
    if !ts[k - 1].In? {
      SomebodyIn(ts, k - 1);
    }
  }

  /** Sector writes commit still has to make. */
  function Remaining(st: Store): int {
    match st.phase
    case Running => 0
    case Writing(k) => st.head.n - k + 1 + st.head.n + 1
    case Installing(_, k) => st.head.n - k + 1
    case Erased => 0
  }

  lemma CommitProgresses(l: Layout, fs: Disk, st: Store)
    requires Roomy(l) && StoreOk(l, fs, st) && (st.phase.Writing? || st.phase.Installing?)
    ensures l.Fits(st.disk) && st.head.n <= |st.head.sector| == LOGSIZE
    ensures 0 < Remaining(st) && Remaining(CommitWrite(l, st)) == Remaining(st) - 1
  {
    match st.phase
    case Writing(k) => if k < st.head.n { CopyKeepsCollecting(l, fs, st, k); }
    case Installing(at, k) =>
      SettlingDisk(l, fs, st, at, k);
      if k < st.head.n { InstallSettles(l, fs, st, at, k); }
  }

  /** While commit runs no thread logs, and only commit's own steps change the store: each
      is one sector write less to make, and commit can finish when none is left. */
  lemma CommitStep(l: Layout, fs: Disk, s: State, a: Action)
    requires Roomy(l) && Inv(l, fs, s) && s.committing && Enabled(l, s, a) && !a.Finish?
    ensures var t := Do(l, s, a);
      && t.committing && t.committer == s.committer && !a.Append?
      && Remaining(t.store) == Remaining(s.store) - if a.Commit? then 1 else 0
  {
    hide StoreOk, Callers, Committed, PutHead, CommitWrite;
    NobodyIn(s.threads, |s.threads|);
    if a.Commit? {
      CommitProgresses(l, fs, s.store);
    }
  }

  lemma CanFinish(l: Layout, fs: Disk, s: State)
    requires Roomy(l) && Inv(l, fs, s) && s.committing
    ensures 0 <= Remaining(s.store)
    ensures Remaining(s.store) == 0 <==> Enabled(l, s, Finish(s.committer))
    ensures Remaining(s.store) == 0 ==> s.store.group == Start
  {
    HowFar(l, fs, s.store);
  }

  function CommitSteps(r: Run): nat {
    match r
    case From(_) => 0
    case Step(r', a) => CommitSteps(r') + if a.Commit? then 1 else 0
  }

  predicate Finishes(r: Run) {
    match r
    case From(_) => false
    case Step(r', a) => a.Finish? || Finishes(r')
  }

  /** However other threads interleave with a commit, it makes exactly the sector writes that
      remained, and when they are made, and not before, it can finish; every call made until
      it began is then durable. */
  lemma {:induction false} CommitCompletes(l: Layout, fs: Disk, r: Run)
    requires Roomy(l) && Inv(l, fs, First(r)) && First(r).committing && Outcome(l, r).Some? && !Finishes(r)
    ensures var s, t := First(r), Outcome(l, r).value;
      && Inv(l, fs, t) && t.committing && t.committer == s.committer
      && Join(t.store.durable, t.store.group) == Join(s.store.durable, s.store.group)
      && Remaining(t.store) == Remaining(s.store) - CommitSteps(r) && CommitSteps(r) <= Remaining(s.store)
      && (CommitSteps(r) == Remaining(s.store) <==> Enabled(l, t, Finish(t.committer)))
      && (CommitSteps(r) == Remaining(s.store) ==> t.store.durable == Join(s.store.durable, s.store.group))
  {
    hide Inv, Do, Enabled, Remaining;
    match r
    case From(s) => CanFinish(l, fs, s);
    case Step(r', a) =>
      CommitCompletes(l, fs, r');
      var t := Outcome(l, r').value;
      StepKeeps(l, fs, t, a);
      CommitStep(l, fs, t, a);
      StepAddsOnlyCalls(l, t, a);
      CanFinish(l, fs, Do(l, t, a));
  }

  /** Commit needs nobody else: its own steps alone get it there. */
  lemma {:induction false} CommitCanComplete(l: Layout, fs: Disk, s: State, k: nat) returns (r: Run)
    requires Roomy(l) && Inv(l, fs, s) && s.committing && k <= Remaining(s.store)
    ensures First(r) == s && Outcome(l, r).Some? && !Finishes(r) && CommitSteps(r) == k
    ensures k == Remaining(s.store) ==> Enabled(l, Outcome(l, r).value, Finish(s.committer))
  {
    hide Inv, Do;
    if k == 0 {
      r := From(s);
      CanFinish(l, fs, s);
    } else {
      var r' := CommitCanComplete(l, fs, s, k - 1);
      CommitCompletes(l, fs, r');
      CanCommit(l, fs, Outcome(l, r').value);
      r := Step(r', Commit);
      CommitCompletes(l, fs, r);
    }
  }

  lemma CanCommit(l: Layout, fs: Disk, s: State)
    requires Roomy(l) && Inv(l, fs, s) && s.committing && 0 < Remaining(s.store)
    ensures Enabled(l, s, Commit)
  {
    StoreIsSized(l, fs, s.store);
  }

  /** The end of the last operation begins a commit, with each logged block to be written to
      the log and home, and the header twice, if there are any; no other end does. */
  lemma LastEndCommits(l: Layout, fs: Disk, s: State, p: nat)
    requires Roomy(l) && Inv(l, fs, s) && Enabled(l, s, End(p))
    ensures var t := Do(l, s, End(p));
      && (t.committing <==> forall q | 0 <= q < |s.threads| && q != p :: !s.threads[q].In?)
      && (t.committing ==>
           t.committer == p && Remaining(t.store) == if s.store.head.n > 0 then 2 * s.store.head.n + 2 else 0)
  {
    var ts := s.threads[p := Out];
    Switch(s.threads, p, Out, |s.threads|);
    if s.outstanding == 1 {
      NobodyIn(ts, |ts|);
    } else {
      SomebodyIn(ts, |ts|);
      var q :| 0 <= q < |ts| && ts[q].In?;
      assert s.threads[q].In?;
    }
    assert forall q | 0 <= q < |s.threads| && q != p :: ts[q] == s.threads[q];
  }

  /** end_op either starts the commit or leaves nobody asleep. */
  lemma EndWakes(s: State, p: nat, q: nat)
    requires p < |s.threads| && q < |s.threads|
    ensures EndOp(s, p).committing || !EndOp(s, p).threads[q].Asleep?
  {}
}
