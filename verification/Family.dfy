/** src/proc.c: fork, exit, wait, sleep, wakeup and kill, as what each does to the
    process table while it holds ptable.lock. */
module Family {
  import opened Options

  const NONE := -1

  datatype Status = UNUSED | EMBRYO | SLEEPING | RUNNABLE | RUNNING | ZOMBIE

  /** What a process sleeps on: a process table entry, as wait does, or something else. */
  datatype Chan = Nothing | Entry(i: int) | Other(address: int)

  /** `making` is the entry of the child that a fork in progress is setting up, and
      `maker`, in that entry, the process doing it. */
  datatype Proc = Proc(state: Status, pid: int, parent: int, chan: Chan, killed: bool, making: int, maker: int)

  /** Is the process asleep on `c`? */
  predicate SleepsOn(q: Proc, c: Chan) {
    q.state == SLEEPING && q.chan == c
  }

  function Roused(q: Proc, c: Chan): Proc {
    if SleepsOn(q, c) then q.(state := RUNNABLE) else q
  }

  /** wakeup1 */
  function Wakened(ps: seq<Proc>, c: Chan): (r: seq<Proc>)
    ensures |r| == |ps|
  {
    seq(|ps|, i requires 0 <= i < |ps| => Roused(ps[i], c))
  }

  predicate Live(q: Proc) {
    q.state == SLEEPING || q.state == RUNNABLE || q.state == RUNNING
  }

  // ---- the invariant ----

  /** One entry, whenever ptable.lock is free. */
  ghost predicate EntryOk(ps: seq<Proc>, init: int, i: int)
    requires 0 <= i < |ps|
  {
    var q := ps[i];
    && q.parent != i && (i == init ==> q.parent == NONE)
    && (q.parent != NONE ==> 0 <= q.parent < |ps| && Live(ps[q.parent]) && q.state != UNUSED)
    && ((Live(q) && i != init) || q.state == ZOMBIE ==> q.parent != NONE)
    && (q.state == SLEEPING && q.chan.Entry? ==> q.chan.i == i)
    && (q.making != NONE ==> 0 <= q.making < |ps| && ps[q.making].state == EMBRYO && ps[q.making].maker == i && Live(q))
  }

  /** No process asleep in wait has a zombie child. */
  ghost predicate NoLostExit(ps: seq<Proc>) {
    forall i {:trigger ps[i]} | 0 <= i < |ps| && ps[i].state == ZOMBIE ::
      0 <= ps[i].parent < |ps| && !SleepsOn(ps[ps[i].parent], Entry(ps[i].parent))
  }

  ghost predicate Inv(ps: seq<Proc>, init: int) {
    && 0 <= init < |ps| && Live(ps[init])
    && (forall i {:trigger EntryOk(ps, init, i)} | 0 <= i < |ps| :: EntryOk(ps, init, i))
    && NoLostExit(ps)
  }

  // ---- exit ----

  ghost predicate HasZombie(ps: seq<Proc>, p: int) {
    exists i :: 0 <= i < |ps| && ps[i].parent == p && ps[i].state == ZOMBIE
  }

  lemma WakeupKeeps(ps: seq<Proc>, init: int, c: Chan)
    requires Inv(ps, init)
    ensures Inv(Wakened(ps, c), init)
  {
    forall i | 0 <= i < |ps|
      ensures EntryOk(Wakened(ps, c), init, i)
    {
      assert EntryOk(ps, init, i);
    }
  }

  /** The children of `p` are init's. */
  function Reparented(ps: seq<Proc>, init: int, p: int): (r: seq<Proc>)
    ensures |r| == |ps|
  {
    seq(|ps|, i requires 0 <= i < |ps| => if ps[i].parent == p then ps[i].(parent := init) else ps[i])
  }

  /** exit of process `p`: its parent is woken, its children go to init, which is woken
      if one of them is a zombie, and it is a zombie itself. */
  ghost function Exited(ps: seq<Proc>, init: int, p: int): (r: seq<Proc>)
    requires 0 <= p < |ps|
    ensures |r| == |ps|
  {
    var woken := Wakened(ps, Entry(ps[p].parent));
    var orphaned := Reparented(if HasZombie(ps, p) then Wakened(woken, Entry(init)) else woken, init, p);
    orphaned[p := orphaned[p].(state := ZOMBIE)]
  }

  lemma ReparentKeeps(ps: seq<Proc>, init: int, p: int)
    requires Inv(ps, init) && 0 <= p < |ps| && p != init && (HasZombie(ps, p) ==> !SleepsOn(ps[init], Entry(init)))
    ensures Inv(Reparented(ps, init, p), init)
  {
    var ps' := Reparented(ps, init, p);
    assert EntryOk(ps, init, init);
    forall i | 0 <= i < |ps|
      ensures EntryOk(ps', init, i)
    {
      assert EntryOk(ps, init, i);
    }
    forall i | 0 <= i < |ps'| && ps'[i].state == ZOMBIE
      ensures 0 <= ps'[i].parent < |ps'| && !SleepsOn(ps'[ps'[i].parent], Entry(ps'[i].parent))
    {
      assert ps[i].state == ZOMBIE;
      assert ps[i].parent == p ==> HasZombie(ps, p);
    }
  }

  lemma ZombieKeeps(ps: seq<Proc>, init: int, p: int)
    requires Inv(ps, init) && 0 <= p < |ps| && p != init && ps[p].state == RUNNING && ps[p].making == NONE
    requires forall i | 0 <= i < |ps| :: ps[i].parent != p
    requires 0 <= ps[p].parent < |ps| ==> !SleepsOn(ps[ps[p].parent], Entry(ps[p].parent))
    ensures Inv(ps[p := ps[p].(state := ZOMBIE)], init)
  {
    var ps' := ps[p := ps[p].(state := ZOMBIE)];
    assert EntryOk(ps, init, p);
    forall i | 0 <= i < |ps|
      ensures EntryOk(ps', init, i)
    {
      assert EntryOk(ps, init, i);
    }
    forall i | 0 <= i < |ps'| && ps'[i].state == ZOMBIE
      ensures 0 <= ps'[i].parent < |ps'| && !SleepsOn(ps'[ps'[i].parent], Entry(ps'[i].parent))
    {
      assert i != p ==> ps[i].state == ZOMBIE;
    }
  }

  lemma InitIsLive(ps: seq<Proc>, init: int, p: int)
    requires Inv(ps, init) && 0 <= p < |ps|
    ensures 0 <= init < |ps| && EntryOk(ps, init, p) && EntryOk(ps, init, init)
  {}

  /** After both of exit's wakeups, nobody it is about to leave a zombie with is asleep in
      wait. */
  lemma ExitWakes(ps: seq<Proc>, init: int, p: int, r: int, both: seq<Proc>)
    requires Inv(ps, init) && 0 <= p < |ps| && 0 <= init < |ps| && ps[p].state == RUNNING
    requires var woken := Wakened(ps, Entry(r)); both == if HasZombie(ps, p) then Wakened(woken, Entry(init)) else woken
    ensures Inv(both, init) && |both| == |ps| && both[p] == ps[p]
    ensures forall i | 0 <= i < |ps| ::
      both[i].parent == ps[i].parent && (both[i].state == ZOMBIE <==> ps[i].state == ZOMBIE)
    ensures HasZombie(both, p) ==> !SleepsOn(both[init], Entry(init))
    ensures 0 <= r < |ps| ==> !SleepsOn(both[r], Entry(r))
  {
    WakeupKeeps(ps, init, Entry(r));
    WakeupKeeps(Wakened(ps, Entry(r)), init, Entry(init));
  }

  lemma ExitKeeps(ps: seq<Proc>, init: int, p: int)
    requires Inv(ps, init) && 0 <= p < |ps| && p != init && ps[p].state == RUNNING && ps[p].making == NONE
    ensures Inv(Exited(ps, init, p), init)
  {
    var r := ps[p].parent;
    InitIsLive(ps, init, p);
    hide Inv, HasZombie, Wakened;
    var woken := Wakened(ps, Entry(r));
    var both := if HasZombie(ps, p) then Wakened(woken, Entry(init)) else woken;
    ExitWakes(ps, init, p, r, both);
    ReparentKeeps(both, init, p);
    ZombieKeeps(Reparented(both, init, p), init, p);
  }

  // ---- wait ----

  /** wait has found zombie child `i`. */
  function Reaped(ps: seq<Proc>, i: int): seq<Proc>
    requires 0 <= i < |ps|
  {
    ps[i := ps[i].(state := UNUSED, pid := 0, parent := NONE, killed := false)]
  }

  lemma ReapKeeps(ps: seq<Proc>, init: int, p: int, i: int)
    requires Inv(ps, init) && 0 <= p < |ps| && 0 <= i < |ps| && ps[i].parent == p && ps[i].state == ZOMBIE
    ensures Inv(Reaped(ps, i), init)
  {
    var ps' := Reaped(ps, i);
    assert EntryOk(ps, init, i);
    forall j | 0 <= j < |ps|
      ensures EntryOk(ps', init, j)
    {
      assert EntryOk(ps, init, j);
    }
  }

  /** Process `p` goes to sleep on `c`. */
  function Slept(ps: seq<Proc>, p: int, c: Chan): seq<Proc>
    requires 0 <= p < |ps|
  {
    ps[p := ps[p].(state := SLEEPING, chan := c)]
  }

  /** Sleeping in wait is safe exactly when no child is a zombie; elsewhere always. */
  lemma SleepKeepsIff(ps: seq<Proc>, init: int, p: int, c: Chan)
    requires Inv(ps, init) && 0 <= p < |ps| && ps[p].state == RUNNING && (c.Entry? ==> c.i == p)
    ensures Inv(Slept(ps, p, c), init) <==> (c.Entry? ==> !HasZombie(ps, p))
  {
    var ps' := Slept(ps, p, c);
    assert EntryOk(ps, init, p);
    if c.Entry? && HasZombie(ps, p) {
      var i :| 0 <= i < |ps| && ps[i].parent == p && ps[i].state == ZOMBIE;
      assert ps'[i].state == ZOMBIE;
    } else {
      forall j | 0 <= j < |ps|
        ensures EntryOk(ps', init, j)
      {
        assert EntryOk(ps, init, j);
      }
      forall j | 0 <= j < |ps'| && ps'[j].state == ZOMBIE
        ensures 0 <= ps'[j].parent < |ps'| && !SleepsOn(ps'[ps'[j].parent], Entry(ps'[j].parent))
      {
        assert EntryOk(ps, init, j) && ps[j].state == ZOMBIE;
      }
    }
  }

  // ---- the rest ----

  /** A change of entry `i` alone that leaves its parent, and does not end a fork. */
  ghost predicate Harmless(q: Proc, q': Proc, i: int) {
    && q'.parent == q.parent && q'.making == q.making && q'.maker == q.maker
    && (q'.state == SLEEPING && q'.chan.Entry? ==> q.state == SLEEPING && q'.chan == q.chan)
    && (q'.state == q.state || (Live(q) && Live(q')))
  }

  lemma HarmlessKeeps(ps: seq<Proc>, init: int, i: int, q': Proc)
    requires Inv(ps, init) && 0 <= i < |ps| && Harmless(ps[i], q', i)
    ensures Inv(ps[i := q'], init)
  {
    var ps' := ps[i := q'];
    assert EntryOk(ps, init, i);
    forall j | 0 <= j < |ps|
      ensures EntryOk(ps', init, j)
    {
      assert EntryOk(ps, init, j);
    }
    forall j | 0 <= j < |ps'| && ps'[j].state == ZOMBIE
      ensures 0 <= ps'[j].parent < |ps'| && !SleepsOn(ps'[ps'[j].parent], Entry(ps'[j].parent))
    {
      assert ps[j].state == ZOMBIE;
    }
  }

  /** The first entry from `k` on with that pid, or the length. */
  function WithPid(ps: seq<Proc>, pid: int, k: nat): (r: nat)
    requires k <= |ps|
    ensures k <= r <= |ps| && (r < |ps| ==> ps[r].pid == pid) && forall j | k <= j < r :: ps[j].pid != pid
    decreases |ps| - k
  {
    if k == |ps| || ps[k].pid == pid then k else WithPid(ps, pid, k + 1)
  }

  /** kill, of entry `i` if there is one. */
  function KilledIn(ps: seq<Proc>, i: nat): (r: seq<Proc>)
    ensures |r| == |ps|
  {
    if i < |ps| then
      ps[i := ps[i].(killed := true, state := if ps[i].state == SLEEPING then RUNNABLE else ps[i].state)]
    else ps
  }

  /** What one process, holding ptable.lock or having the entry to itself, does. */
  datatype Action =
    | Claim(p: int, i: int, pid: int) // fork's allocproc: an unused entry becomes an embryo
    | Adopt(p: int, i: int)        // fork: np->parent = proc
    | Release(p: int, i: int)      // fork: the child is runnable
    | Abandon(p: int, i: int)      // fork fails before it has set the parent
    | Exit(p: int)
    | Reap(p: int, i: int)         // wait finds a zombie
    | WaitSleep(p: int)            // wait finds children but no zombie
    | Sleep(p: int, c: Chan)       // sleep on anything else
    | Wakeup(c: Chan)
    | Kill(pid: int)
    | Run(i: int)                  // the scheduler picks it
    | Yield(i: int)

  ghost predicate Enabled(ps: seq<Proc>, init: int, a: Action) {
    match a
    case Claim(p, i, pid) =>
      Forking(ps, p, i, UNUSED) && ps[p].making == NONE && 0 < pid && forall j | 0 <= j < |ps| :: ps[j].pid < pid
    case Adopt(p, i) => Forking(ps, p, i, EMBRYO) && ps[p].making == i && ps[i].parent == NONE
    case Release(p, i) => Forking(ps, p, i, EMBRYO) && ps[p].making == i && ps[i].parent == p
    case Abandon(p, i) => Forking(ps, p, i, EMBRYO) && ps[p].making == i && ps[i].parent == NONE
    case Exit(p) => 0 <= p < |ps| && p != init && ps[p].state == RUNNING && ps[p].making == NONE
    case Reap(p, i) => 0 <= p < |ps| && ps[p].state == RUNNING && 0 <= i < |ps| && ps[i].parent == p &&
      ps[i].state == ZOMBIE
    case WaitSleep(p) => 0 <= p < |ps| && ps[p].state == RUNNING && !HasZombie(ps, p)
    case Sleep(p, c) => 0 <= p < |ps| && ps[p].state == RUNNING && !c.Entry?
    case Wakeup(c) => true
    case Kill(pid) => true
    case Run(i) => 0 <= i < |ps| && ps[i].state == RUNNABLE
    case Yield(i) => 0 <= i < |ps| && ps[i].state == RUNNING
  }

  predicate Forking(ps: seq<Proc>, p: int, i: int, state: Status) {
    0 <= p < |ps| && ps[p].state == RUNNING && 0 <= i < |ps| && i != p && ps[i].state == state
  }

  ghost function Do(ps: seq<Proc>, init: int, a: Action): (r: seq<Proc>)
    requires Enabled(ps, init, a)
    ensures |r| == |ps|
  {
    match a
    case Claim(p, i, pid) => ps[i := ps[i].(state := EMBRYO, pid := pid, maker := p)][p := ps[p].(making := i)]
    case Adopt(p, i) => ps[i := ps[i].(parent := p)]
    case Release(p, i) => ps[i := ps[i].(state := RUNNABLE)][p := ps[p].(making := NONE)]
    case Abandon(p, i) => ps[i := ps[i].(state := UNUSED)][p := ps[p].(making := NONE)]
    case Exit(p) => Exited(ps, init, p)
    case Reap(p, i) => Reaped(ps, i)
    case WaitSleep(p) => Slept(ps, p, Entry(p))
    case Sleep(p, c) => Slept(ps, p, c)
    case Wakeup(c) => Wakened(ps, c)
    case Kill(pid) => KilledIn(ps, WithPid(ps, pid, 0))
    case Run(i) => ps[i := ps[i].(state := RUNNING)]
    case Yield(i) => ps[i := ps[i].(state := RUNNABLE)]
  }

  lemma ForkKeepsEntry(ps: seq<Proc>, init: int, a: Action, j: nat)
    requires Inv(ps, init) && (a.Claim? || a.Adopt? || a.Release? || a.Abandon?) && Enabled(ps, init, a) && j < |ps|
    ensures j < |Do(ps, init, a)| && EntryOk(Do(ps, init, a), init, j)
  {
    assert EntryOk(ps, init, a.p) && EntryOk(ps, init, a.i) && EntryOk(ps, init, j);
  }

  lemma ForkKeeps(ps: seq<Proc>, init: int, a: Action)
    requires Inv(ps, init) && (a.Claim? || a.Adopt? || a.Release? || a.Abandon?) && Enabled(ps, init, a)
    ensures Inv(Do(ps, init, a), init)
  {
    var ps' := Do(ps, init, a);
    forall j | 0 <= j < |ps|
      ensures EntryOk(ps', init, j)
    {
      ForkKeepsEntry(ps, init, a, j);
    }
    assert EntryOk(ps, init, a.p) && EntryOk(ps, init, a.i);
    forall j | 0 <= j < |ps'| && ps'[j].state == ZOMBIE
      ensures 0 <= ps'[j].parent < |ps'| && !SleepsOn(ps'[ps'[j].parent], Entry(ps'[j].parent))
    {
      assert ps[j].state == ZOMBIE;
    }
  }

  /** Every critical section, and every step of fork, keeps the invariant. */
  lemma StepKeeps(ps: seq<Proc>, init: int, a: Action)
    requires Inv(ps, init) && Enabled(ps, init, a)
    ensures Inv(Do(ps, init, a), init)
  {
    match a
    case Exit(p) => ExitKeeps(ps, init, p);
    case Reap(p, i) => ReapKeeps(ps, init, p, i);
    case WaitSleep(p) => SleepKeepsIff(ps, init, p, Entry(p));
    case Sleep(p, c) => SleepKeepsIff(ps, init, p, c);
    case Wakeup(c) => WakeupKeeps(ps, init, c);
    case Kill(pid) =>
      var i := WithPid(ps, pid, 0);
      if i < |ps| {
        HarmlessKeeps(ps, init, i, Do(ps, init, a)[i]);
      }
    case Run(i) => HarmlessKeeps(ps, init, i, Do(ps, init, a)[i]);
    case Yield(i) => HarmlessKeeps(ps, init, i, Do(ps, init, a)[i]);
    case _ => ForkKeeps(ps, init, a);
  }

  // ---- pids ----

  /** A process has a pid, and shares it with no other entry. */
  ghost predicate PidsOk(ps: seq<Proc>) {
    && (forall i {:trigger ps[i]} | 0 <= i < |ps| :: ps[i].pid >= 0 && (ps[i].state != UNUSED ==> ps[i].pid > 0))
    && (forall i, j {:trigger ps[i], ps[j]} | 0 <= i < j < |ps| && ps[i].pid != 0 :: ps[i].pid != ps[j].pid)
  }

  lemma StepKeepsPids(ps: seq<Proc>, init: int, a: Action)
    requires PidsOk(ps) && Enabled(ps, init, a)
    ensures PidsOk(Do(ps, init, a))
  {
    var ps' := Do(ps, init, a);
    forall i | 0 <= i < |ps|
      ensures if a.Claim? && i == a.i then ps'[i].pid == a.pid
        else ps'[i].pid == ps[i].pid || (a.Reap? && i == a.i && ps'[i].pid == 0)
      ensures ps'[i].state != UNUSED ==> ps[i].state != UNUSED || (a.Claim? && i == a.i)
    {}
  }

  /** kill takes effect on one process, and on that alone. */
  lemma KillHitsOne(ps: seq<Proc>, init: int, i: int)
    requires PidsOk(ps) && 0 <= i < |ps| && ps[i].state != UNUSED
    ensures var ps' := Do(ps, init, Kill(ps[i].pid));
      && ps'[i] == ps[i].(killed := true, state := if ps[i].state == SLEEPING then RUNNABLE else ps[i].state)
      && forall j | 0 <= j < |ps| && j != i :: ps'[j] == ps[j]
  {
    var j := WithPid(ps, ps[i].pid, 0);
    assert j <= i && ps[j].pid == ps[i].pid;
  }

  /** No unused entry is marked killed: a process made in it is not killed at birth, for
      allocproc does not clear the mark. */
  ghost predicate Unmarked(ps: seq<Proc>) {
    forall i {:trigger ps[i]} | 0 <= i < |ps| && ps[i].state == UNUSED :: !ps[i].killed
  }

  /** exit changes no pid and no mark, and frees no entry. */
  lemma ExitLeaves(ps: seq<Proc>, init: int, p: int, i: int)
    requires 0 <= p < |ps| && 0 <= i < |ps| && ps[p].state != UNUSED
    ensures var q := Exited(ps, init, p)[i];
      q.pid == ps[i].pid && q.killed == ps[i].killed && (q.state == UNUSED <==> ps[i].state == UNUSED)
  {
    hide HasZombie;
    var woken := Wakened(ps, Entry(ps[p].parent));
    var both := if HasZombie(ps, p) then Wakened(woken, Entry(init)) else woken;
    assert woken[i] == Roused(ps[i], Entry(ps[p].parent));
    assert both[i] == woken[i] || both[i] == Roused(woken[i], Entry(init));
  }

  lemma MarkComes(ps: seq<Proc>, init: int, a: Action, i: int)
    requires Enabled(ps, init, a) && 0 <= i < |ps| && Do(ps, init, a)[i].state == UNUSED && Do(ps, init, a)[i].killed
    ensures
      || (ps[i].state == UNUSED && (ps[i].killed || (a.Kill? && WithPid(ps, a.pid, 0) == i)))
      || (a.Abandon? && a.i == i && ps[i].killed)
  {
    hide Exited, HasZombie, WithPid;
    var q := Do(ps, init, a)[i];
    match a
    case Exit(p) => ExitLeaves(ps, init, p, i);
    case Wakeup(c) => assert q == Roused(ps[i], c);
    case Reap(p, j) => assert i != j && q == ps[i];
    case Kill(pid) => assert i != WithPid(ps, pid, 0) ==> q == ps[i];
    case Abandon(p, j) => assert i != p && (i != j ==> q == ps[i]);
    case _ => assert q.killed == ps[i].killed && ps[i].state == UNUSED;
  }

  /** Every step keeps it so but two: kill of a pid that an unused entry still has, as 0, and a
      fork that fails once its embryo has been killed. */
  lemma StepKeepsUnmarkedIff(ps: seq<Proc>, init: int, a: Action)
    requires PidsOk(ps) && Unmarked(ps) && Enabled(ps, init, a)
    ensures Unmarked(Do(ps, init, a)) <==>
      && !(a.Kill? && WithPid(ps, a.pid, 0) < |ps| && ps[WithPid(ps, a.pid, 0)].state == UNUSED)
      && !(a.Abandon? && ps[a.i].killed)
  {
    var ps' := Do(ps, init, a);
    if a.Kill? {
      var i := WithPid(ps, a.pid, 0);
      if i < |ps| && ps[i].state == UNUSED {
        assert ps'[i].state == UNUSED && ps'[i].killed;
      }
    } else if a.Abandon? && ps[a.i].killed {
      assert ps'[a.i].state == UNUSED && ps'[a.i].killed;
    } else {
      forall i | 0 <= i < |ps'| && ps'[i].state == UNUSED
        ensures !ps'[i].killed
      {
        if ps'[i].killed {
          MarkComes(ps, init, a, i);
        }
      }
    }
  }

  /** kill(0), and then fork: the child is killed at birth. */
  lemma KilledAtBirth(ps: seq<Proc>, init: int, p: int, i: int, pid: int)
    requires Enabled(ps, init, Claim(p, i, pid)) && ps[i].pid == 0 && forall j | 0 <= j < i :: ps[j].pid != 0
    ensures var ps' := Do(ps, init, Kill(0));
      Enabled(ps', init, Claim(p, i, pid)) && Do(ps', init, Claim(p, i, pid))[i].killed
  {}

  // ---- fork as a whole ----

  /** fork, once it has an entry and memory: its three steps make one runnable child, and change
      nothing else. */
  lemma ForkMakesChild(ps: seq<Proc>, init: int, p: int, i: int, pid: int)
    requires Inv(ps, init) && 0 <= p < |ps| && ps[p].state == RUNNING && ps[p].making == NONE
    requires 0 <= i < |ps| && ps[i].state == UNUSED && 0 < pid && forall j | 0 <= j < |ps| :: ps[j].pid < pid
    ensures Enabled(ps, init, Claim(p, i, pid))
    ensures var ps1 := Do(ps, init, Claim(p, i, pid));
      && Enabled(ps1, init, Adopt(p, i))
      && var ps2 := Do(ps1, init, Adopt(p, i));
      && Enabled(ps2, init, Release(p, i))
      && Do(ps2, init, Release(p, i)) == ps[i := ps[i].(state := RUNNABLE, pid := pid, parent := p, maker := p)]
  {
    assert EntryOk(ps, init, i) && ps[p].(making := NONE) == ps[p];
    var ps2 := Do(Do(ps, init, Claim(p, i, pid)), init, Adopt(p, i));
    var ps3, end :=
      Do(ps2, init, Release(p, i)), ps[i := ps[i].(state := RUNNABLE, pid := pid, parent := p, maker := p)];
    assert forall j | 0 <= j < |ps| :: ps3[j] == end[j];
  }

  /** A fork that fails leaves nothing but a stale pid. */
  lemma FailedForkLeaves(ps: seq<Proc>, init: int, p: int, i: int, pid: int)
    requires Inv(ps, init) && Enabled(ps, init, Claim(p, i, pid))
    ensures var ps1 := Do(ps, init, Claim(p, i, pid));
      && Enabled(ps1, init, Abandon(p, i))
      && Do(ps1, init, Abandon(p, i)) == ps[i := ps[i].(pid := pid, maker := p)]
  {
    assert EntryOk(ps, init, i) && ps[p].(making := NONE) == ps[p];
    var ps2, end := Do(Do(ps, init, Claim(p, i, pid)), init, Abandon(p, i)), ps[i := ps[i].(pid := pid, maker := p)];
    assert forall j | 0 <= j < |ps| :: ps2[j] == end[j];
  }

  /** A dispatch and a yield undo each other; and whoever sleeps on something is dispatched again
      after a wakeup of that, and not after another. */
  lemma SleepsUntilWoken(ps: seq<Proc>, init: int, p: int, c: Chan)
    requires 0 <= p < |ps| && ps[p].state == RUNNABLE && !c.Entry?
    ensures var on := Do(ps, init, Run(p));
      && on[p].state == RUNNING && Enabled(on, init, Yield(p)) && Do(on, init, Yield(p)) == ps
      && Enabled(on, init, Sleep(p, c))
      && var asleep := Do(on, init, Sleep(p, c));
      && forall d :: Enabled(Do(asleep, init, Wakeup(d)), init, Run(p)) <==> d == c
  {
    var on := Do(ps, init, Run(p));
    assert Do(on, init, Yield(p))[p] == ps[p];
    assert Do(on, init, Yield(p)) == ps;
  }

  // ---- runs ----

  /** A zombie stays one until the process that is then its parent reaps it. */
  lemma OnlyParentReaps(ps: seq<Proc>, init: int, a: Action, i: int)
    requires Inv(ps, init) && Enabled(ps, init, a) && 0 <= i < |ps| && ps[i].state == ZOMBIE
    ensures var q := Do(ps, init, a)[i];
      if a.Reap? && a.i == i then a.p == ps[i].parent && q.state == UNUSED
      else
        && q.state == ZOMBIE && q.pid == ps[i].pid
        && (q.parent == ps[i].parent || (a == Exit(ps[i].parent) && q.parent == init))
  {}

  /** Process tables after the first `k` steps of a run. */
  ghost predicate Runs(pss: seq<seq<Proc>>, init: int, steps: seq<Action>) {
    |pss| == |steps| + 1 && forall k | 0 <= k < |steps| ::
      Enabled(pss[k], init, steps[k]) && pss[k + 1] == Do(pss[k], init, steps[k])
  }

  /** The table as userinit leaves it: the first process, and no other. */
  ghost predicate Booted(ps: seq<Proc>, init: int) {
    && 0 <= init < |ps| && ps[init].state == RUNNABLE && ps[init].pid == 1
    && forall i {:trigger ps[i]} | 0 <= i < |ps| ::
         (i != init ==> ps[i].state == UNUSED && ps[i].pid == 0) && ps[i].parent == NONE == ps[i].making
  }

  /** Whatever the processes do, no parent pointer dangles and no exit goes unnoticed. */
  lemma {:induction false} RunKeeps(pss: seq<seq<Proc>>, init: int, steps: seq<Action>, k: nat)
    requires Runs(pss, init, steps) && Booted(pss[0], init) && k <= |steps|
    ensures Inv(pss[k], init) && PidsOk(pss[k])
  {
    if k > 0 {
      RunKeeps(pss, init, steps, k - 1);
      StepKeeps(pss[k - 1], init, steps[k - 1]);
      StepKeepsPids(pss[k - 1], init, steps[k - 1]);
    }
  }

  // ---- the C code ----

  datatype Waited = Child(pid: int) | Failed | Asleep

  class ProcTable {
    const initproc: int
    var procs: seq<Proc>

    ghost predicate Valid()
      reads this
    {
      Inv(procs, initproc)
    }

    method Wakeup1(c: Chan)
      modifies this
      ensures procs == Wakened(old(procs), c)
      ensures |procs| == |old(procs)| && forall j | 0 <= j < |procs| ::
        && procs[j] == old(procs)[j].(state := procs[j].state) && !(procs[j].state == SLEEPING && procs[j].chan == c)
        && (!(old(procs)[j].state == SLEEPING && old(procs)[j].chan == c) ==> procs[j].state == old(procs)[j].state)
        && (old(procs)[j].state == SLEEPING && old(procs)[j].chan == c ==> procs[j].state == RUNNABLE)
    {
      var p := 0;
      while p < |procs|
        invariant 0 <= p <= |procs| == |old(procs)|
        invariant forall j | 0 <= j < |procs| :: procs[j] == if j < p then Roused(old(procs)[j], c) else old(procs)[j]
      {
        if procs[p].state == SLEEPING && procs[p].chan == c {
          procs := procs[p := procs[p].(state := RUNNABLE)];
        }
        p := p + 1;
      }
    }

    /** exit's loop: pass the children of `proc` to init. */
    method PassChildren(proc: int)
      requires 0 <= proc < |procs| && proc != initproc
      modifies this
      ensures var woken := if HasZombie(old(procs), proc) then Wakened(old(procs), Entry(initproc)) else old(procs);
        procs == Reparented(woken, initproc, proc)
    {
      var p := 0;
      ghost var woken := false;
      while p < |procs|
        invariant 0 <= p <= |procs| == |old(procs)|
        invariant woken <==> exists j :: 0 <= j < p && old(procs)[j].parent == proc && old(procs)[j].state == ZOMBIE
        invariant forall j | 0 <= j < |procs| :: procs[j] == PassedAt(old(procs)[j], woken, initproc, proc, j < p)
      {
        if procs[p].parent == proc {
          procs := procs[p := procs[p].(parent := initproc)];
          if procs[p].state == ZOMBIE {
            Wakeup1(Entry(initproc));
            woken := true;
          }
        }
        p := p + 1;
      }
    }

    /** exit, once files and directory are closed, up to its call of sched. */
    method ExitLocked(proc: int)
      requires Valid() && 0 <= proc < |procs| && proc != initproc && procs[proc].state == RUNNING
      requires procs[proc].making == NONE
      modifies this
      ensures Valid() && procs == Exited(old(procs), initproc, proc)
      ensures |procs| == |old(procs)| && procs[proc].state == ZOMBIE
      ensures forall j | 0 <= j < |procs| ::
        && procs[j] == old(procs)[j].(state := procs[j].state, parent := procs[j].parent)
        && procs[j].parent == if old(procs)[j].parent == proc then initproc else old(procs)[j].parent
      ensures forall j | 0 <= j < |procs| && j != proc ::
        var was := old(procs)[j];
        var wakes := was.state == SLEEPING &&
          (was.chan == Entry(old(procs)[proc].parent) || (was.chan == Entry(initproc) && HasZombie(old(procs), proc)));
        procs[j].state == if wakes then RUNNABLE else was.state
    {
      ExitKeeps(procs, initproc, proc);
      Wakeup1(Entry(procs[proc].parent));
      ghost var woken := procs;
      assert HasZombie(woken, proc) == HasZombie(old(procs), proc) by {
        assert forall i | 0 <= i < |woken| ::
          woken[i].parent == old(procs)[i].parent && (woken[i].state == ZOMBIE <==> old(procs)[i].state == ZOMBIE);
      }
      PassChildren(proc);
      procs := procs[proc := procs[proc].(state := ZOMBIE)];
    }

    /** One pass of wait's loop. */
    method WaitOnce(proc: int) returns (r: Waited)
      requires Valid() && 0 <= proc < |procs| && procs[proc].state == RUNNING
      modifies this
      ensures Valid()
      ensures r.Child? <==> HasZombie(old(procs), proc)
      ensures r.Child? ==> exists i ::
        && 0 <= i < |old(procs)| && old(procs)[i].parent == proc && old(procs)[i].state == ZOMBIE
        && r.pid == old(procs)[i].pid && procs == Reaped(old(procs), i) && |procs| == |old(procs)|
        && procs[i].state == UNUSED && procs[i].pid == 0 && procs[i].parent == NONE && !procs[i].killed
        && forall j | 0 <= j < |procs| && j != i :: procs[j] == old(procs)[j]
      ensures r.Failed? <==>
        && !HasZombie(old(procs), proc)
        && (old(procs)[proc].killed || forall i | 0 <= i < |old(procs)| :: old(procs)[i].parent != proc)
      ensures r.Failed? ==> procs == old(procs)
      ensures r.Asleep? ==> procs == Slept(old(procs), proc, Entry(proc))
      ensures r.Asleep? ==>
        && |procs| == |old(procs)| && procs[proc].state == SLEEPING && procs[proc].chan == Entry(proc)
        && procs[proc] == old(procs)[proc].(state := procs[proc].state, chan := procs[proc].chan)
        && forall j | 0 <= j < |procs| && j != proc :: procs[j] == old(procs)[j]
    {
      var havekids := false;
      var p := 0;
      while p < |procs|
        invariant 0 <= p <= |procs| && procs == old(procs)
        invariant havekids <==> exists j :: 0 <= j < p && procs[j].parent == proc
        invariant forall j | 0 <= j < p && procs[j].parent == proc :: procs[j].state != ZOMBIE
      {
        if procs[p].parent == proc {
          havekids := true;
          if procs[p].state == ZOMBIE {
            ReapKeeps(procs, initproc, proc, p);
            r := Child(procs[p].pid);
            procs := procs[p := procs[p].(state := UNUSED, pid := 0, parent := NONE, killed := false)];
            return;
          }
        }
        p := p + 1;
      }
      if !havekids || procs[proc].killed {
        return Failed;
      }
      SleepKeepsIff(procs, initproc, proc, Entry(proc));
      procs := procs[proc := procs[proc].(state := SLEEPING, chan := Entry(proc))];
      return Asleep;
    }

    /** kill: false if no entry has that pid. */
    method Kill(pid: int) returns (ok: bool)
      requires Valid()
      modifies this
      ensures Valid() && |procs| == |old(procs)|
      ensures !ok ==> procs == old(procs) && forall j | 0 <= j < |procs| :: procs[j].pid != pid
      ensures ok ==> exists i ::
        && 0 <= i < |procs| && old(procs)[i].pid == pid && (forall j | 0 <= j < i :: procs[j].pid != pid)
        && procs[i].killed && procs[i] == old(procs)[i].(killed := true, state := procs[i].state)
        && procs[i].state == (if old(procs)[i].state == SLEEPING then RUNNABLE else old(procs)[i].state)
        && forall j | 0 <= j < |procs| && j != i :: procs[j] == old(procs)[j]
    {
      var p := 0;
      while p < |procs|
        invariant 0 <= p <= |procs| && procs == old(procs) && forall j | 0 <= j < p :: procs[j].pid != pid
      {
        if procs[p].pid == pid {
          var q := procs[p].(killed := true);
          if q.state == SLEEPING {
            q := q.(state := RUNNABLE);
          }
          HarmlessKeeps(procs, initproc, p, q);
          procs := procs[p := q];
          return true;
        }
        p := p + 1;
      }
      return false;
    }
  }

  /** An entry while exit passes children on. */
  function PassedAt(q: Proc, woken: bool, init: int, p: int, passed: bool): Proc {
    var q' := if woken then Roused(q, Entry(init)) else q;
    if passed && q'.parent == p then q'.(parent := init) else q'
  }
}
