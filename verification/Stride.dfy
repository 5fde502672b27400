/** src/proc.c: the tickets of allocproc and the stride branch of scheduler. */
module Stride {
  /** A process whose step has reached this is not run any more. */
  const CUTOFF := 5000000

  /** allocproc's stride for a number of tickets. */
  function SizeStep(tickets: int): (r: int)
    ensures 10 <= r <= 200
  {
    if tickets == 0 then 10000 / 500
    else if tickets <= 50 then 10000 / 50
    else if tickets >= 1000 then 10000 / 1000
    else 10000 / tickets
  }

  /** More tickets never make the stride longer, but for the special case of none; and
      between the clamps the stride is the largest with `tickets * stride <= 10000`. */
  lemma SizeStepIsInverse(t: int, u: int)
    ensures t <= u && t != 0 && u != 0 ==> SizeStep(u) <= SizeStep(t)
    ensures 50 < t < 1000 ==> t * SizeStep(t) <= 10000 < t * (SizeStep(t) + 1)
    ensures SizeStep(0) == 20 && (t != 0 && t <= 50 ==> SizeStep(t) == 200) && (t >= 1000 ==> SizeStep(t) == 10)
  {
    if 50 < t < 1000 {
      assert 10000 == t * (10000 / t) + 10000 % t;
      if t <= u < 1000 {
        Quotients(t, u);
      } else if t <= u {
        Quotients(t, 1000);
      }
      assert 10000 / t <= 200 by { Quotients(50, t); }
    } else if 50 < u < 1000 {
      Quotients(50, u);
    }
  }

  lemma Quotients(t: int, u: int)
    requires 0 < t <= u
    ensures 10000 / u <= 10000 / t
  {
    var q, r := 10000 / u, 10000 / t;
    assert q * u <= 10000 < (r + 1) * t;
    Product(q, t, u);
    if r < q {
      Product(t, r + 1, q);
    }
  }

  lemma Product(a: int, b: int, c: int)
    requires 0 <= a && b <= c
    ensures a * b <= a * c && b * a <= c * a
  {}

  /** What the scheduler looks at, and `runs`, how often a process has been dispatched
      since allocproc. */
  datatype Proc = Proc(runnable: bool, step: int, size: int, runs: nat)

  // ---- choosing ----

  /** The first of the processes from `k` on that is runnable with the least step below
      `min`, or `best` if none is. */
  function Least(ps: seq<Proc>, k: nat, min: int, best: int): int
    requires k <= |ps|
    decreases |ps| - k
  {
    if k == |ps| then best
    else if ps[k].runnable && ps[k].step < min then Least(ps, k + 1, ps[k].step, k) else Least(ps, k + 1, min, best)
  }

  const NONE := -1

  function Pick(ps: seq<Proc>): int {
    Least(ps, 0, CUTOFF, NONE)
  }

  /** The loop of scheduler over the process table. */
  method Scan(ps: seq<Proc>) returns (minP: int)
    ensures minP == Pick(ps)
  {
    var min := CUTOFF;
    minP := NONE;
    var p := 0;
    while p < |ps|
      invariant 0 <= p <= |ps| && Pick(ps) == Least(ps, p, min, minP)
    {
      if ps[p].runnable && ps[p].step < min {
        min := ps[p].step;
        minP := p;
      }
      p := p + 1;
    }
  }

  /** `best` is the first least runnable process below the cutoff among the first `k`,
      and `min` its step; NONE and the cutoff if there is none. */
  ghost predicate Best(ps: seq<Proc>, k: nat, min: int, best: int)
    requires k <= |ps|
  {
    if best == NONE then min == CUTOFF && forall i | 0 <= i < k && ps[i].runnable :: ps[i].step >= CUTOFF
    else
      && 0 <= best < k && ps[best].runnable && ps[best].step == min < CUTOFF
      && (forall i | 0 <= i < k && ps[i].runnable :: min <= ps[i].step)
      && (forall i | 0 <= i < best && ps[i].runnable :: min < ps[i].step)
  }

  lemma {:induction false} LeastIsBest(ps: seq<Proc>, k: nat, min: int, best: int)
    requires k <= |ps| && Best(ps, k, min, best)
    ensures var r := Least(ps, k, min, best); Best(ps, |ps|, if 0 <= r < |ps| then ps[r].step else CUTOFF, r)
    decreases |ps| - k
  {
    if k < |ps| {
      var better := ps[k].runnable && ps[k].step < min;
      LeastIsBest(ps, k + 1, if better then ps[k].step else min, if better then k else best);
    }
  }

  // ---- dispatching ----

  function Dispatch(ps: seq<Proc>): (r: seq<Proc>)
    ensures |r| == |ps|
  {
    var p := Pick(ps);
    if 0 <= p < |ps| then ps[p := ps[p].(step := ps[p].step + ps[p].size, runs := ps[p].runs + 1)] else ps
  }

  /** The process table as scheduler and allocproc change it. */
  class Table {
    var procs: seq<Proc>

    /** One pass of scheduler: whom it gives the CPU, NONE if nobody. It is charged its stride
        and one dispatch, and nothing else changes. */
    method Pass() returns (minP: int)
      modifies this
      ensures minP == Pick(old(procs)) && procs == Dispatch(old(procs))
      ensures if minP == NONE
        then procs == old(procs) && forall i | 0 <= i < |procs| && procs[i].runnable :: procs[i].step >= CUTOFF
        else
          && 0 <= minP < |old(procs)| && old(procs)[minP].runnable && old(procs)[minP].step < CUTOFF
          && (forall i | 0 <= i < |old(procs)| && old(procs)[i].runnable :: old(procs)[minP].step <= old(procs)[i].step)
          && |procs| == |old(procs)| && (forall i | 0 <= i < |procs| && i != minP :: procs[i] == old(procs)[i])
          && procs[minP].step == old(procs)[minP].step + old(procs)[minP].size
          && procs[minP].runs == old(procs)[minP].runs + 1
          && procs[minP].size == old(procs)[minP].size && procs[minP].runnable
    {
      minP := Scan(procs);
      LeastIsBest(procs, 0, CUTOFF, NONE);
      if minP != NONE {
        procs := procs[minP := procs[minP].(step := procs[minP].step + procs[minP].size, runs := procs[minP].runs + 1)];
      }
    }

    /** The end of allocproc, for the entry it has found. */
    method Allot(p: nat, tickets: int)
      requires p < |procs|
      modifies this
      ensures procs == old(procs)[p := Proc(false, 0, SizeStep(tickets), 0)]
    {
      var size;
      if tickets == 0 {
        size := 10000 / 500;
      } else if tickets <= 50 {
        size := 10000 / 50;
      } else if tickets >= 1000 {
        size := 10000 / 1000;
      } else {
        size := 10000 / tickets;
      }
      procs := procs[p := Proc(false, 0, size, 0)];
    }
  }

  /** What may happen between two passes of the scheduler: a process ceases to be
      runnable, as the one dispatched does at once, or becomes so again, or a slot is
      given to a new process. */
  datatype Event = Dispatched | Switched(i: nat, runnable: bool) | Allocated(i: nat, tickets: int)

  function Happens(ps: seq<Proc>, e: Event): (r: seq<Proc>)
    ensures |r| == |ps|
  {
    match e
    case Dispatched => Dispatch(ps)
    case Switched(i, runnable) => if i < |ps| then ps[i := ps[i].(runnable := runnable)] else ps
    case Allocated(i, tickets) => if i < |ps| then ps[i := Proc(false, 0, SizeStep(tickets), 0)] else ps
  }

  /** A process table after the first `k` events of a run. */
  function After(ps: seq<Proc>, es: seq<Event>, k: nat): (r: seq<Proc>)
    requires k <= |es|
    ensures |r| == |ps|
  {
    if k == 0 then ps else Happens(After(ps, es, k - 1), es[k - 1])
  }

  /** A step is the stride times the dispatches, and one stride past the cutoff at most. */
  ghost predicate Bounded(ps: seq<Proc>) {
    forall i {:trigger ps[i]} | 0 <= i < |ps| ::
      10 <= ps[i].size <= 200 && ps[i].step == ps[i].runs * ps[i].size && ps[i].step < CUTOFF + ps[i].size
  }

  lemma DispatchKeepsBounds(ps: seq<Proc>)
    requires Bounded(ps)
    ensures Bounded(Dispatch(ps))
  {
    LeastIsBest(ps, 0, CUTOFF, NONE);
    var p := Pick(ps);
    if p != NONE {
      assert (ps[p].runs + 1) * ps[p].size == ps[p].runs * ps[p].size + ps[p].size;
    }
  }

  /** In every run no step exceeds 5000199, and a process is dispatched in its life at
      most as often as its stride goes into the cutoff, rounded up. */
  lemma {:induction false} LifetimeIsBounded(ps: seq<Proc>, es: seq<Event>, k: nat)
    requires k <= |es| && Bounded(ps)
    ensures Bounded(After(ps, es, k))
    ensures forall i {:trigger After(ps, es, k)[i]} | 0 <= i < |ps| :: After(ps, es, k)[i].step <= 5000199
  {
    if k > 0 {
      LifetimeIsBounded(ps, es, k - 1);
      var qs, e := After(ps, es, k - 1), es[k - 1];
      if e.Dispatched? {
        DispatchKeepsBounds(qs);
      }
    }
  }

  /** Dispatches in a lifetime, against the least number that reaches the cutoff. */
  lemma DispatchesInLife(ps: seq<Proc>, i: nat, limit: nat)
    requires Bounded(ps) && i < |ps| && limit * ps[i].size >= CUTOFF
    ensures ps[i].runs <= limit
    ensures ps[i].runs == limit ==> Pick(ps) != i
  {
    LeastIsBest(ps, 0, CUTOFF, NONE);
    if ps[i].runs > limit {
      Product(ps[i].size, limit + 1, ps[i].runs);
    }
  }

  // ---- newcomers ----

  /** A new process starts at step 0 and is dispatched alone until it has caught up with `m`,
      below which nobody else is; everybody else keeps waiting meanwhile. */
  lemma {:induction false} NewcomerCatchesUp(ps: seq<Proc>, i: nat, tickets: int, m: int, es: seq<Event>, k: nat)
    requires i < |ps| && forall j | 0 <= j < |ps| && j != i :: ps[j].step >= m
    requires |es| >= k + 2 && es[0] == Allocated(i, tickets) && es[1] == Switched(i, true)
    requires forall e | 2 <= e < k + 2 :: es[e] == Dispatched
    requires k > 0 ==> (k - 1) * SizeStep(tickets) < m && (k - 1) * SizeStep(tickets) < CUTOFF
    ensures After(ps, es, k + 2) == ps[i := Proc(true, k * SizeStep(tickets), SizeStep(tickets), k)]
  {
    var size := SizeStep(tickets);
    if k == 0 {
      assert After(ps, es, 1) == ps[i := Proc(false, 0, size, 0)];
      assert After(ps, es, 2) == ps[i := Proc(true, 0, size, 0)];
    } else {
      Product(size, k - 2, k - 1);
      NewcomerCatchesUp(ps, i, tickets, m, es, k - 1);
      var qs := After(ps, es, k + 1);
      LeastIsBest(qs, 0, CUTOFF, NONE);
      assert qs[i].runnable && qs[i].step < m && qs[i].step < CUTOFF;
      assert Pick(qs) == i;
      assert (k - 1) * size + size == k * size;
    }
  }

  // ---- progress ----

  /** Dispatches so far of the first `k` processes. */
  function Runs(ps: seq<Proc>, k: nat): nat
    requires k <= |ps|
  {
    if k == 0 then 0 else Runs(ps, k - 1) + ps[k - 1].runs
  }

  lemma {:induction false} OneRunMore(ps: seq<Proc>, qs: seq<Proc>, p: int, k: nat)
    requires k <= |ps| == |qs| && 0 <= p < |ps| && qs[p].runs == ps[p].runs + 1
    requires forall i | 0 <= i < |ps| && i != p :: qs[i].runs == ps[i].runs
    ensures Runs(qs, k) == Runs(ps, k) + if p < k then 1 else 0
  {
    if k > 0 {
      OneRunMore(ps, qs, p, k - 1);
    }
  }

  /** Somebody is runnable below the cutoff. */
  ghost predicate Someone(ps: seq<Proc>) {
    exists i :: 0 <= i < |ps| && ps[i].runnable && ps[i].step < CUTOFF
  }

  /** A dispatch is made exactly if somebody can be dispatched. */
  lemma DispatchProgresses(ps: seq<Proc>)
    ensures Runs(Dispatch(ps), |ps|) == Runs(ps, |ps|) + if Someone(ps) then 1 else 0
  {
    LeastIsBest(ps, 0, CUTOFF, NONE);
    if Pick(ps) != NONE {
      OneRunMore(ps, Dispatch(ps), Pick(ps), |ps|);
    }
  }

  /** While somebody can be dispatched, every pass dispatches one. */
  lemma {:induction false} PassesProgress(ps: seq<Proc>, k: nat)
    requires forall j {:trigger Passes(ps, j)} | 0 <= j < k :: Someone(Passes(ps, j))
    ensures Runs(Passes(ps, k), |ps|) == Runs(ps, |ps|) + k
  {
    if k > 0 {
      PassesProgress(ps, k - 1);
      DispatchProgresses(Passes(ps, k - 1));
    }
  }

  // ---- fairness ----

  /** Nobody is ahead of anybody by more than its own stride. */
  ghost predicate Level(ps: seq<Proc>) {
    forall i, j {:trigger ps[i], ps[j]} | 0 <= i < |ps| && 0 <= j < |ps| :: ps[i].step <= ps[j].step + ps[i].size
  }

  ghost predicate AllRunnable(ps: seq<Proc>) {
    forall i {:trigger ps[i]} | 0 <= i < |ps| :: ps[i].runnable && ps[i].size > 0
  }

  /** A fixed set of runnable processes after `k` passes of the scheduler. */
  function Passes(ps: seq<Proc>, k: nat): (r: seq<Proc>)
    ensures |r| == |ps|
  {
    if k == 0 then ps else Dispatch(Passes(ps, k - 1))
  }

  lemma DispatchKeepsLevel(ps: seq<Proc>)
    requires AllRunnable(ps) && Level(ps)
    ensures AllRunnable(Dispatch(ps)) && Level(Dispatch(ps))
  {
    LeastIsBest(ps, 0, CUTOFF, NONE);
  }

  lemma {:induction false} PassesKeepLevel(ps: seq<Proc>, k: nat)
    requires AllRunnable(ps) && Level(ps)
    ensures AllRunnable(Passes(ps, k)) && Level(Passes(ps, k))
    ensures forall i {:trigger Passes(ps, k)[i]} | 0 <= i < |ps| ::
      && Passes(ps, k)[i].size == ps[i].size
      && Passes(ps, k)[i].step - ps[i].step == (Passes(ps, k)[i].runs - ps[i].runs) * ps[i].size
  {
    if k > 0 {
      PassesKeepLevel(ps, k - 1);
      var qs := Passes(ps, k - 1);
      DispatchKeepsLevel(qs);
      LeastIsBest(qs, 0, CUTOFF, NONE);
      var p := Pick(qs);
      if p != NONE {
        assert (qs[p].runs + 1 - ps[p].runs) * ps[p].size == (qs[p].runs - ps[p].runs) * ps[p].size + ps[p].size;
      }
    }
  }

  /** Stride fairness. Between any two moments of a run, `a` and then `b` more passes in,
      what any two processes were given, counted in strides, differs by at most the sum
      of their strides. Processes that start level, as with equal steps, stay so. */
  lemma WindowIsFair(ps: seq<Proc>, a: nat, b: nat, i: nat, j: nat)
    requires AllRunnable(ps) && Level(ps) && i < |ps| && j < |ps|
    ensures var qs, rs := Passes(ps, a), Passes(Passes(ps, a), b);
      var gi, gj := (rs[i].runs - qs[i].runs) * ps[i].size, (rs[j].runs - qs[j].runs) * ps[j].size;
      -(ps[i].size + ps[j].size) <= gi - gj <= ps[i].size + ps[j].size
  {
    PassesKeepLevel(ps, a);
    PassesKeepLevel(Passes(ps, a), b);
    var qs := Passes(ps, a);
    var rs := Passes(qs, b);
    assert qs[i].step <= qs[j].step + qs[i].size && qs[j].step <= qs[i].step + qs[j].size;
    assert rs[i].step <= rs[j].step + rs[i].size && rs[j].step <= rs[i].step + rs[j].size;
  }

  lemma {:induction false} RunsGap(ps: seq<Proc>, qs: seq<Proc>, i: nat, k: nat)
    requires k <= |ps| == |qs| && i < |ps| && qs[i].runs == ps[i].runs
    requires forall j | 0 <= j < |ps| :: qs[j].runs <= ps[j].runs + 21
    ensures Runs(qs, k) <= Runs(ps, k) + 21 * (if i < k then k - 1 else k)
  {
    if k > 0 {
      RunsGap(ps, qs, i, k - 1);
    }
  }

  /** Whoever has not been dispatched leaves at most 21 dispatches to everybody else. */
  lemma GapIsSmall(g: int, s: int, t: int)
    requires 10 <= s <= 200 && 10 <= t <= 200 && g * s <= t + s
    ensures g <= 21
  {
    if g >= 22 {
      Product(s, 22, g);
    }
  }

  lemma GapToOne(ps: seq<Proc>, a: nat, b: nat, i: nat, j: nat)
    requires AllRunnable(ps) && Level(ps) && i < |ps| && j < |ps| && 10 <= ps[i].size <= 200 && 10 <= ps[j].size <= 200
    requires Passes(Passes(ps, a), b)[i].runs == Passes(ps, a)[i].runs
    ensures Passes(Passes(ps, a), b)[j].runs <= Passes(ps, a)[j].runs + 21
  {
    hide Passes, Level, AllRunnable;
    WindowIsFair(ps, a, b, i, j);
    GapIsSmall(Passes(Passes(ps, a), b)[j].runs - Passes(ps, a)[j].runs, ps[j].size, ps[i].size);
  }

  /** Nobody starves. Among `n` processes that stay runnable, with nobody past the cutoff, each
      is dispatched within any `21 * (n - 1) + 1` passes. */
  lemma NobodyStarves(ps: seq<Proc>, a: nat, b: nat, i: nat)
    requires AllRunnable(ps) && Level(ps) && i < |ps| && b > 21 * (|ps| - 1)
    requires forall j | 0 <= j < |ps| :: 10 <= ps[j].size <= 200
    requires forall j {:trigger Passes(Passes(ps, a), j)} | 0 <= j < b :: Someone(Passes(Passes(ps, a), j))
    ensures Passes(Passes(ps, a), b)[i].runs > Passes(ps, a)[i].runs
  {
    hide Passes, Level, AllRunnable, Someone;
    var qs := Passes(ps, a);
    PassesProgress(qs, b);
    var rs := Passes(qs, b);
    if rs[i].runs <= qs[i].runs {
      RunsGrow(qs, b, i);
      forall j | 0 <= j < |ps|
        ensures rs[j].runs <= qs[j].runs + 21
      {
        GapToOne(ps, a, b, i, j);
      }
      RunsGap(qs, rs, i, |ps|);
      assert false;
    }
  }

  lemma {:induction false} RunsGrow(ps: seq<Proc>, k: nat, i: nat)
    requires i < |ps|
    ensures Passes(ps, k)[i].runs >= ps[i].runs
  {
    if k > 0 {
      RunsGrow(ps, k - 1, i);
    }
  }
}
