/** src/spinlock.c, and how sched, yield, sleep, exit and scheduler (src/proc.c) pass
    ptable.lock and the interrupt flag through swtch. A state machine over CPUs. */
module Locks {
  import opened Options

  const NONE := -1
  /** ptable.lock, among the locks. */
  const PTABLE := 0

  datatype Status = UNUSED | SLEEPING | RUNNABLE | RUNNING | ZOMBIE

  /** `running` is the process whose kernel thread the CPU executes, NONE for the
      scheduler's. `held` are the locks the CPU holds. `handling`: an interrupt handler runs on
      top of the scheduler. `unswitched`: the scheduler has taken ptable.lock and not switched
      since. */
  datatype Cpu = Cpu(ncli: int, intena: bool, iflag: bool, running: int, held: set<int>, handling: bool,
    unswitched: bool)

  datatype Lock = Lock(locked: bool, cpu: int)

  /** `saved` is sched's local variable; `on` the CPU that executes the process; `want`
      the interrupt flag before its outermost pushcli; `started`: it has been run. */
  datatype Proc = Proc(state: Status, saved: bool, on: int, want: bool, started: bool)

  datatype State = State(cpus: seq<Cpu>, locks: seq<Lock>, procs: seq<Proc>)

  // ---- pushcli and popcli ----

  function PushCli(c: Cpu): Cpu {
    c.(iflag := false, ncli := c.ncli + 1, intena := if c.ncli == 0 then c.iflag else c.intena)
  }

  /** popcli's two panics. */
  predicate PopPanics(c: Cpu) {
    c.iflag || c.ncli - 1 < 0
  }

  function PopCli(c: Cpu): Cpu {
    c.(ncli := c.ncli - 1, iflag := c.ncli == 1 && c.intena)
  }

  /** The CPU executes its scheduler itself. */
  predicate Scheduling(u: Cpu) {
    u.running == NONE && !u.handling
  }

  predicate Holding(s: State, c: int, l: int)
    requires 0 <= l < |s.locks|
  {
    s.locks[l].locked && s.locks[l].cpu == c
  }

  // ---- steps ----

  /** acquire, once the lock is free. The outermost pushcli of a process notes the
      interrupt flag it is to give back. */
  function Acquire(s: State, c: int, l: int): State
    requires 0 <= c < |s.cpus| && 0 <= l < |s.locks|
  {
    var u := s.cpus[c];
    var procs := if 0 <= u.running < |s.procs| && u.ncli == 0
      then s.procs[u.running := s.procs[u.running].(want := u.iflag)]
      else s.procs;
    s.(cpus := s.cpus[c := PushCli(u).(held := u.held + {l}, unswitched := Scheduling(u))],
       locks := s.locks[l := Lock(true, c)], procs := procs)
  }

  function Release(s: State, c: int, l: int): State
    requires 0 <= c < |s.cpus| && 0 <= l < |s.locks|
  {
    s.(cpus := s.cpus[c := PopCli(s.cpus[c]).(held := s.cpus[c].held - {l})], locks := s.locks[l := Lock(false, NONE)])
  }

  /** The panics of sched. */
  predicate SchedPanics(s: State, c: int)
    requires 0 <= c < |s.cpus| && 0 <= s.cpus[c].running < |s.procs| && 0 < |s.locks|
  {
    !Holding(s, c, PTABLE) || s.cpus[c].ncli != 1 || s.procs[s.cpus[c].running].state == RUNNING || s.cpus[c].iflag
  }

  /** sched's swtch: the CPU goes on in its scheduler. */
  function SwitchOut(s: State, c: int): State
    requires 0 <= c < |s.cpus| && 0 <= s.cpus[c].running < |s.procs|
  {
    var p := s.cpus[c].running;
    s.(procs := s.procs[p := s.procs[p].(saved := s.cpus[c].intena, on := NONE)],
       cpus := s.cpus[c := s.cpus[c].(running := NONE, unswitched := false)])
  }

  /** scheduler's swtch: the CPU goes on in the process, which restores its intena if it
      left through sched. */
  function SwitchIn(s: State, c: int, p: int): State
    requires 0 <= c < |s.cpus| && 0 <= p < |s.procs|
  {
    var q := s.procs[p];
    s.(procs := s.procs[p := q.(state := RUNNING, on := c, started := true)],
       cpus := s.cpus[c :=
         s.cpus[c].(running := p, unswitched := false, intena := if q.started then q.saved else s.cpus[c].intena)])
  }

  datatype Action =
    | Take(c: int, l: int)
    | Give(c: int, l: int)
    | Flag(c: int, b: bool)              // outside of all locks: a trap in a process or its return, cli, sti
    | Interrupt(c: int)                  // a trap on an idle CPU, and its return
    | Return(c: int)
    | Mark(c: int, st: Status)           // yield, sleep and exit set the state
    | Out(c: int)
    | In(c: int, p: int)
    | Wake(c: int, p: int)
    | Create(p: int)                     // fork's child becomes runnable
    | Reap(c: int, p: int)               // wait frees a zombie, its kernel stack too

  ghost predicate Enabled(s: State, a: Action) {
    match a
    case Take(c, l) =>
      && IsCpu(s, c) && 0 <= l < |s.locks| && !s.locks[l].locked
      && (Scheduling(s.cpus[c]) ==> OwnAcquire(s.cpus[c], l))
    case Give(c, l) => IsCpu(s, c) && 0 <= l < |s.locks| && Holding(s, c, l) && (l == PTABLE ==> !Leaving(s, c))
    case Flag(c, b) => IsCpu(s, c) && s.cpus[c].ncli == 0 && (s.cpus[c].running == NONE ==> b && !s.cpus[c].handling)
    case Interrupt(c) => IsCpu(s, c) && Scheduling(s.cpus[c]) && s.cpus[c].iflag
    case Return(c) => IsCpu(s, c) && s.cpus[c].handling && s.cpus[c].ncli == 0
    case Mark(c, st) =>
      IsCpu(s, c) && OnProc(s, c) && Holding(s, c, PTABLE) && (st == RUNNABLE || st == SLEEPING || st == ZOMBIE)
    case Out(c) => IsCpu(s, c) && OnProc(s, c) && !SchedPanics(s, c)
    case In(c, p) =>
      && IsCpu(s, c) && Scheduling(s.cpus[c]) && s.cpus[c].unswitched && Holding(s, c, PTABLE)
      && 0 <= p < |s.procs| && s.procs[p].state == RUNNABLE
    case Wake(c, p) => IsCpu(s, c) && Holding(s, c, PTABLE) && 0 <= p < |s.procs| && s.procs[p].state == SLEEPING
    case Create(p) => 0 <= p < |s.procs| && s.procs[p].state == UNUSED
    case Reap(c, p) =>
      IsCpu(s, c) && Holding(s, c, PTABLE) && 0 <= p < |s.procs| && s.procs[p].state == ZOMBIE && s.cpus[c].running != p
  }

  /** The one acquire of scheduler: of ptable.lock, right after it enables interrupts. */
  predicate OwnAcquire(u: Cpu, l: int) {
    l == PTABLE && u.iflag && u.ncli == 0
  }

  predicate IsCpu(s: State, c: int) {
    0 <= c < |s.cpus| && 0 < |s.locks|
  }

  predicate OnProc(s: State, c: int)
    requires 0 <= c < |s.cpus|
  {
    0 <= s.cpus[c].running < |s.procs|
  }

  /** Between setting its state and sched, a process keeps ptable.lock. */
  predicate Leaving(s: State, c: int)
    requires 0 <= c < |s.cpus|
  {
    OnProc(s, c) && s.procs[s.cpus[c].running].state != RUNNING
  }

  ghost function Do(s: State, a: Action): State
    requires Enabled(s, a)
  {
    match a
    case Take(c, l) => Acquire(s, c, l)
    case Give(c, l) => Release(s, c, l)
    case Flag(c, b) => s.(cpus := s.cpus[c := s.cpus[c].(iflag := b)])
    case Interrupt(c) => s.(cpus := s.cpus[c := s.cpus[c].(iflag := false, handling := true)])
    case Return(c) => s.(cpus := s.cpus[c := s.cpus[c].(iflag := true, handling := false)])
    case Mark(c, st) => s.(procs := s.procs[s.cpus[c].running := s.procs[s.cpus[c].running].(state := st)])
    case Out(c) => SwitchOut(s, c)
    case In(c, p) => SwitchIn(s, c, p)
    case Wake(c, p) => s.(procs := s.procs[p := s.procs[p].(state := RUNNABLE)])
    case Create(p) => s.(procs := s.procs[p := Proc(RUNNABLE, false, NONE, true, false)])
    case Reap(c, p) => s.(procs := s.procs[p := s.procs[p].(state := UNUSED)])
  }

  // ---- the invariant ----

  ghost predicate CpuOk(s: State, c: int)
    requires 0 <= c < |s.cpus|
  {
    var u := s.cpus[c];
    && u.ncli == |u.held| && (u.ncli > 0 ==> !u.iflag)
    && (forall l {:trigger l in u.held} :: l in u.held <==> 0 <= l < |s.locks| && Holding(s, c, l))
    && (u.running != NONE ==> 0 <= u.running < |s.procs| && s.procs[u.running].on == c)
    && (u.handling ==> u.running == NONE)
    && (Scheduling(u) ==> u.held == {} || u.held == {PTABLE})
    && (Scheduling(u) && u.unswitched && u.ncli > 0 ==> u.intena)
  }

  ghost predicate ProcOk(s: State, p: int)
    requires 0 <= p < |s.procs|
  {
    var q := s.procs[p];
    && (q.on != NONE ==>
         0 <= q.on < |s.cpus| && s.cpus[q.on].running == p && q.started &&
         (s.cpus[q.on].ncli > 0 ==> s.cpus[q.on].intena == q.want))
    && (q.state == RUNNING ==> q.on != NONE)
    && (q.on != NONE && q.state != RUNNING ==> 0 < |s.locks| && Holding(s, q.on, PTABLE))
    && (q.on == NONE && q.started ==> q.saved == q.want)
    && (!q.started ==> q.want)
    && (q.state == UNUSED ==> q.on == NONE)
  }

  ghost predicate LockOk(s: State, l: int)
    requires 0 <= l < |s.locks|
  {
    s.locks[l].locked ==> 0 <= s.locks[l].cpu < |s.cpus|
  }

  ghost predicate Inv(s: State) {
    && (forall c {:trigger CpuOk(s, c)} | 0 <= c < |s.cpus| :: CpuOk(s, c))
    && (forall p {:trigger ProcOk(s, p)} | 0 <= p < |s.procs| :: ProcOk(s, p))
    && (forall l {:trigger LockOk(s, l)} | 0 <= l < |s.locks| :: LockOk(s, l))
  }

  lemma CpuPart(s: State, c: int)
    requires Inv(s) && 0 <= c < |s.cpus|
    ensures CpuOk(s, c) && (OnProc(s, c) ==> ProcOk(s, s.cpus[c].running))
  {}

  lemma ProcPart(s: State, p: int)
    requires Inv(s) && 0 <= p < |s.procs|
    ensures ProcOk(s, p)
  {}

  lemma OnlyPtable(s: State, c: int)
    requires 0 <= c < |s.cpus| && 0 < |s.locks| && CpuOk(s, c) && Holding(s, c, PTABLE) && s.cpus[c].ncli == 1
    ensures s.cpus[c].held == {PTABLE}
  {
    var h := s.cpus[c].held;
    assert PTABLE in h && |h - {PTABLE}| == 0;
  }

  /** What is said of a CPU depends on it, on the locks it holds, and on where its process is. */
  lemma CpuUnchanged(s: State, s': State, c: int)
    requires 0 <= c < |s.cpus| == |s'.cpus| && CpuOk(s, c) && s'.cpus[c] == s.cpus[c]
    requires |s'.locks| == |s.locks| && forall l | 0 <= l < |s.locks| :: Holding(s', c, l) == Holding(s, c, l)
    requires |s'.procs| == |s.procs|
    requires forall p | 0 <= p < |s.procs| && s.procs[p].on == c :: s'.procs[p].on == c
    ensures CpuOk(s', c)
  {}

  /** CPU `c` after a step of another one. */
  lemma OtherCpuStays(s: State, a: Action, c: int)
    requires Inv(s) && !a.Create? && Enabled(s, a) && 0 <= c < |s.cpus| && c != a.c
    ensures CpuOk(Do(s, a), c)
  {
    hide Inv;
    CpuPart(s, a.c);
    CpuPart(s, c);
    if a.In? || a.Wake? || a.Reap? { ProcPart(s, a.p); }
    CpuUnchanged(s, Do(s, a), c);
  }

  /** ... and of its own: of lock functions and handlers, and of processes. */
  lemma LockStepStays(s: State, a: Action)
    requires Inv(s) && (a.Take? || a.Give? || a.Flag? || a.Interrupt? || a.Return?) && Enabled(s, a)
    ensures CpuOk(Do(s, a), a.c)
  {
    assert CpuOk(s, a.c);
  }

  lemma SwitchStepStays(s: State, a: Action)
    requires Inv(s) && (a.Mark? || a.Out? || a.In? || a.Wake? || a.Reap?) && Enabled(s, a)
    ensures CpuOk(Do(s, a), a.c)
  {
    assert CpuOk(s, a.c);
    assert OnProc(s, a.c) ==> ProcOk(s, s.cpus[a.c].running);
    assert a.In? || a.Wake? || a.Reap? ==> ProcOk(s, a.p);
    if a.Out? {
      OnlyPtable(s, a.c);
    }
  }

  lemma ProcStays(s: State, a: Action, p: int)
    requires Inv(s) && !a.Create? && Enabled(s, a) && 0 <= p < |s.procs|
    ensures ProcOk(Do(s, a), p)
  {
    hide Inv;
    CpuPart(s, a.c);
    ProcPart(s, p);
  }

  lemma StepKeeps(s: State, a: Action)
    requires Inv(s) && Enabled(s, a)
    ensures Inv(Do(s, a))
  {
    var s' := Do(s, a);
    forall c | 0 <= c < |s'.cpus|
      ensures CpuOk(s', c)
    {
      if a.Create? {
        assert CpuOk(s, c) && ProcOk(s, a.p);
      } else if c != a.c {
        OtherCpuStays(s, a, c);
      } else if a.Take? || a.Give? || a.Flag? || a.Interrupt? || a.Return? {
        LockStepStays(s, a);
      } else {
        SwitchStepStays(s, a);
      }
    }
    forall p | 0 <= p < |s'.procs|
      ensures ProcOk(s', p)
    {
      if a.Create? {
        assert ProcOk(s, p);
      } else {
        ProcStays(s, a, p);
      }
    }
    forall l | 0 <= l < |s'.locks|
      ensures LockOk(s', l)
    {
      assert LockOk(s, l);
    }
  }

  /** A run of all CPUs, interleaved in any way. */
  ghost predicate Runs(ss: seq<State>, steps: seq<Action>) {
    |ss| == |steps| + 1 && forall k | 0 <= k < |steps| :: Enabled(ss[k], steps[k]) && ss[k + 1] == Do(ss[k], steps[k])
  }

  /** A machine that has booted: every CPU enters its scheduler without a lock, and no
      process has run yet. */
  ghost predicate Booted(s: State) {
    && (forall c {:trigger s.cpus[c]} | 0 <= c < |s.cpus| ::
         s.cpus[c].ncli == 0 && s.cpus[c].held == {} && Scheduling(s.cpus[c]))
    && (forall l {:trigger s.locks[l]} | 0 <= l < |s.locks| :: !s.locks[l].locked)
    && (forall p {:trigger s.procs[p]} | 0 <= p < |s.procs| ::
          (s.procs[p].state == UNUSED || s.procs[p].state == RUNNABLE) && s.procs[p].on == NONE &&
            !s.procs[p].started && s.procs[p].want)
  }

  lemma BootHolds(s: State)
    requires Booted(s)
    ensures Inv(s)
  {}

  lemma {:induction false} RunKeeps(ss: seq<State>, steps: seq<Action>, k: nat)
    requires Runs(ss, steps) && Booted(ss[0]) && k <= |steps|
    ensures Inv(ss[k])
  {
    if k == 0 {
      BootHolds(ss[0]);
    } else {
      RunKeeps(ss, steps, k - 1);
      StepKeeps(ss[k - 1], steps[k - 1]);
    }
  }

  // ---- what it means ----

  /** No two CPUs execute the same process, even while it is on its way out. */
  lemma OneCpuEach(s: State, c: int, d: int)
    requires Inv(s) && 0 <= c < |s.cpus| && 0 <= d < |s.cpus| && s.cpus[c].running == s.cpus[d].running != NONE
    ensures c == d
  {
    assert CpuOk(s, c) && CpuOk(s, d);
  }

  /** A process that has set its state passes the checks of sched exactly if ptable.lock
      is the one lock its CPU holds. */
  lemma SchedPassesIff(s: State, c: int)
    requires Inv(s) && IsCpu(s, c) && Leaving(s, c)
    ensures !SchedPanics(s, c) <==> s.cpus[c].held == {PTABLE}
  {
    var h := s.cpus[c].held;
    assert CpuOk(s, c);
    if PTABLE in h && |h| == 1 {
      assert |h - {PTABLE}| == 0;
      assert h == {PTABLE};
    }
  }

  /** wait frees the stack of a zombie only when no CPU is on it any more. */
  lemma ReapedIsOffCpu(s: State, c: int, p: int)
    requires Inv(s) && Enabled(s, Reap(c, p))
    ensures s.procs[p].on == NONE && forall d | 0 <= d < |s.cpus| :: s.cpus[d].running != p
  {
    assert CpuOk(s, c) && ProcOk(s, p);
    forall d | 0 <= d < |s.cpus|
      ensures s.cpus[d].running != p
    {
      assert CpuOk(s, d);
    }
  }

  /** swtch, either way, is made with exactly ptable.lock held, one pushcli deep and with
      interrupts off, and leaves it so: whoever goes on can release the lock that the other
      one took, and it is the only one it can. */
  lemma SwitchHandsLockOver(s: State, a: Action)
    requires Inv(s) && (a.Out? || a.In?) && Enabled(s, a)
    ensures s.cpus[a.c].held == {PTABLE} && s.cpus[a.c].ncli == 1 && !s.cpus[a.c].iflag
    ensures var t := Do(s, a);
      && t.cpus[a.c].held == {PTABLE} && t.cpus[a.c].ncli == 1 && !t.cpus[a.c].iflag
      && forall l :: Enabled(t, Give(a.c, l)) <==> l == PTABLE
  {
    assert CpuOk(s, a.c) && PTABLE in s.cpus[a.c].held;
    if a.Out? {
      OnlyPtable(s, a.c);
    }
    StepKeeps(s, a);
    assert CpuOk(Do(s, a), a.c);
    forall l
      ensures Enabled(Do(s, a), Give(a.c, l)) <==> l == PTABLE
    {
      assert l in Do(s, a).cpus[a.c].held <==> l == PTABLE;
    }
  }

  /** The lock functions never meet the panics of popcli; acquire and release panic
      exactly on a lock held already, or not held. */
  lemma PopNeverPanics(s: State, c: int, l: int)
    requires Inv(s) && 0 <= c < |s.cpus| && 0 <= l < |s.locks| && Holding(s, c, l)
    ensures !PopPanics(s.cpus[c])
  {
    assert CpuOk(s, c);
    assert l in s.cpus[c].held;
    assert s.cpus[c].held != {};
  }

  /** A process's outermost popcli gives it back the interrupt flag it had before its
      outermost pushcli, wherever it was suspended in between; for a process that has
      just been made, interrupts on. */
  lemma ProcessGetsFlagBack(s: State, c: int, l: int)
    requires Inv(s) && IsCpu(s, c) && OnProc(s, c) && Enabled(s, Give(c, l)) && s.cpus[c].ncli == 1
    ensures Do(s, Give(c, l)).cpus[c].iflag == s.procs[s.cpus[c].running].want
  {
    assert CpuOk(s, c);
    assert ProcOk(s, s.cpus[c].running);
  }

  /** The scheduler's does not: after a process has left through sched, releasing
      ptable.lock gives the scheduler the flag of that process. It took the lock with
      interrupts on, so it gets its own back if and only if the process is to. */
  lemma SchedulerGetsProcessFlag(s: State, c: int)
    requires Inv(s) && Enabled(s, Out(c))
    ensures var t := SwitchOut(s, c);
      && Enabled(t, Give(c, PTABLE))
      && (Release(t, c, PTABLE).cpus[c].iflag <==> s.procs[s.cpus[c].running].want)
  {
    assert CpuOk(s, c);
    assert ProcOk(s, s.cpus[c].running);
  }

  // ---- what the steps come to ----

  /** These steps one after the other, if each is possible. */
  ghost function Script(s: State, steps: seq<Action>): Option<State>
    decreases |steps|
  {
    if steps == [] then Some(s)
    else if Enabled(s, steps[0]) then Script(Do(s, steps[0]), steps[1..])
    else None
  }

  lemma Three(s: State, a: Action, b: Action, c: Action)
    requires Enabled(s, a) && Enabled(Do(s, a), b) && Enabled(Do(Do(s, a), b), c)
    ensures Script(s, [a, b, c]) == Some(Do(Do(Do(s, a), b), c))
  {
    var t := Do(Do(Do(s, a), b), c);
    assert Script(t, []) == Some(t);
    assert [c][1..] == [] && [b, c][1..] == [c] && [a, b, c][1..] == [b, c];
    assert Script(Do(Do(s, a), b), [c]) == Some(t);
    assert Script(Do(s, a), [b, c]) == Some(t);
  }

  /** Nothing holds CPU `c` back: it has no lock, and ptable.lock is free. */
  ghost predicate Ready(s: State, c: int) {
    && Inv(s) && IsCpu(s, c) && s.cpus[c].ncli == 0 && s.cpus[c].held == {}
    && s.locks[PTABLE] == Lock(false, NONE)
  }

  /** A pass of scheduler that has chosen `p`: it ends with `p` running on this CPU, no lock held,
      and interrupts as `p` had them, on if it is new. */
  lemma PassRuns(s: State, c: int, p: int)
    requires Ready(s, c) && Scheduling(s.cpus[c]) && s.cpus[c].iflag && 0 <= p < |s.procs|
    requires s.procs[p].state == RUNNABLE
    ensures var t := Script(s, [Take(c, PTABLE), In(c, p), Give(c, PTABLE)]);
      && t.Some? && Ready(t.value, c) && |t.value.procs| == |s.procs| && t.value.cpus[c].running == p
      && t.value.procs[p].on == c
      && t.value.procs[p].state == RUNNING && t.value.procs[p].started
      && t.value.cpus[c].iflag == s.procs[p].want
      && forall q | 0 <= q < |s.procs| && q != p :: t.value.procs[q] == s.procs[q]
  {
    hide Script, Inv;
    var s1 := Do(s, Take(c, PTABLE));
    StepKeeps(s, Take(c, PTABLE));
    CpuPart(s, c);
    CpuPart(s1, c);
    ProcPart(s, p);
    var s2 := Do(s1, In(c, p));
    StepKeeps(s1, In(c, p));
    CpuPart(s2, c);
    ProcPart(s2, p);
    Three(s, Take(c, PTABLE), In(c, p), Give(c, PTABLE));
    StepKeeps(s2, Give(c, PTABLE));
    CpuPart(Do(s2, Give(c, PTABLE)), c);
  }

  /** yield, sleep and exit: the process leaves the CPU in the state it has set, and the scheduler
      goes on without a lock, interrupts as the process had them. */
  lemma ProcessLeaves(s: State, c: int, st: Status)
    requires Ready(s, c) && OnProc(s, c) && s.procs[s.cpus[c].running].state == RUNNING
    requires st == RUNNABLE || st == SLEEPING || st == ZOMBIE
    ensures var p, t := s.cpus[c].running, Script(s, [Take(c, PTABLE), Mark(c, st), Out(c)]);
      && t.Some? && Enabled(t.value, Give(c, PTABLE))
      && var u := Do(t.value, Give(c, PTABLE));
      && Ready(u, c) && Scheduling(u.cpus[c]) && |u.procs| == |s.procs| && u.procs[p].state == st
      && u.procs[p].on == NONE
      && u.procs[p].want == u.procs[p].saved == u.cpus[c].iflag == s.cpus[c].iflag
      && forall q | 0 <= q < |s.procs| && q != p :: u.procs[q] == s.procs[q]
  {
    hide Script, Inv;
    var p := s.cpus[c].running;
    var s1 := Do(s, Take(c, PTABLE));
    StepKeeps(s, Take(c, PTABLE));
    CpuPart(s, c);
    CpuPart(s1, c);
    var s2 := Do(s1, Mark(c, st));
    StepKeeps(s1, Mark(c, st));
    CpuPart(s2, c);
    ProcPart(s2, p);
    Three(s, Take(c, PTABLE), Mark(c, st), Out(c));
    var s3 := Do(s2, Out(c));
    StepKeeps(s2, Out(c));
    CpuPart(s3, c);
    ProcPart(s3, p);
    StepKeeps(s3, Give(c, PTABLE));
    CpuPart(Do(s3, Give(c, PTABLE)), c);
  }

  /** wakeup, called by a process or an interrupt handler that holds no lock, makes a sleeper
      runnable, and changes no other process. */
  lemma WakeUnderPtable(s: State, c: int, p: int)
    requires Ready(s, c) && (s.cpus[c].running != NONE || s.cpus[c].handling)
    requires 0 <= p < |s.procs| && p != s.cpus[c].running && s.procs[p].state == SLEEPING
    ensures var t := Script(s, [Take(c, PTABLE), Wake(c, p), Give(c, PTABLE)]);
      && t.Some? && Ready(t.value, c) && t.value.cpus[c].iflag == s.cpus[c].iflag && |t.value.procs| == |s.procs|
      && t.value.procs[p] == s.procs[p].(state := RUNNABLE)
      && (forall q | 0 <= q < |s.procs| && q != p && q != s.cpus[c].running :: t.value.procs[q] == s.procs[q])
  {
    hide Script, Inv;
    var s1 := Do(s, Take(c, PTABLE));
    StepKeeps(s, Take(c, PTABLE));
    CpuPart(s, c);
    CpuPart(s1, c);
    var s2 := Do(s1, Wake(c, p));
    StepKeeps(s1, Wake(c, p));
    CpuPart(s2, c);
    Three(s, Take(c, PTABLE), Wake(c, p), Give(c, PTABLE));
    StepKeeps(s2, Give(c, PTABLE));
    CpuPart(Do(s2, Give(c, PTABLE)), c);
  }

  /** ... and wait frees a zombie. */
  lemma ReapUnderPtable(s: State, c: int, p: int)
    requires Ready(s, c) && (s.cpus[c].running != NONE || s.cpus[c].handling)
    requires 0 <= p < |s.procs| && p != s.cpus[c].running && s.procs[p].state == ZOMBIE
    ensures var t := Script(s, [Take(c, PTABLE), Reap(c, p), Give(c, PTABLE)]);
      && t.Some? && Ready(t.value, c) && t.value.cpus[c].iflag == s.cpus[c].iflag && |t.value.procs| == |s.procs|
      && t.value.procs[p] == s.procs[p].(state := UNUSED)
      && (forall q | 0 <= q < |s.procs| && q != p && q != s.cpus[c].running :: t.value.procs[q] == s.procs[q])
  {
    hide Script, Inv;
    var s1 := Do(s, Take(c, PTABLE));
    StepKeeps(s, Take(c, PTABLE));
    CpuPart(s, c);
    CpuPart(s1, c);
    var s2 := Do(s1, Reap(c, p));
    StepKeeps(s1, Reap(c, p));
    CpuPart(s2, c);
    Three(s, Take(c, PTABLE), Reap(c, p), Give(c, PTABLE));
    StepKeeps(s2, Give(c, PTABLE));
    CpuPart(Do(s2, Give(c, PTABLE)), c);
  }

  /** An interrupt on an idle CPU: the handler has interrupts off, and its return restores
      everything. */
  lemma InterruptReturns(s: State, c: int)
    requires Inv(s) && Enabled(s, Interrupt(c)) && s.cpus[c].ncli == 0
    ensures var t := Do(s, Interrupt(c));
      && !t.cpus[c].iflag && !Scheduling(t.cpus[c]) && Enabled(t, Return(c)) && Do(t, Return(c)) == s
  {
    var t := Do(s, Interrupt(c));
    assert Do(t, Return(c)).cpus[c] == s.cpus[c];
    assert Do(t, Return(c)).cpus == s.cpus;
  }

  /** cli and sti outside of all locks do what they say, and fork's child can be run. */
  lemma FlagAndFork(s: State, c: int, b: bool, p: int)
    requires Inv(s)
    ensures Enabled(s, Flag(c, b)) ==> Do(s, Flag(c, b)).cpus[c] == s.cpus[c].(iflag := b)
    ensures Enabled(s, Create(p)) ==>
      && Do(s, Create(p)).procs[p].state == RUNNABLE && Do(s, Create(p)).procs[p].want
      && forall d :: Ready(s, d) ==> Ready(Do(s, Create(p)), d)
  {
    if Enabled(s, Create(p)) {
      StepKeeps(s, Create(p));
    }
  }
}
