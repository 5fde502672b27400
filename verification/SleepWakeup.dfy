/** sleep and wakeup (src/proc.c) at the grain of single lock operations: consumers that
    sleep until a counter is positive and producers that raise it, any number of each,
    as src/sleep1.p has them for two and two. */
module SleepWakeup {
  const NONE := -1

  /** A consumer wants `lk`, looks at the counter with it, and if that is zero goes
      through sleep: it takes ptable.lock, releases `lk`, marks itself SLEEPING, and
      loses the CPU and with it ptable.lock. Woken, it looks again. */
  datatype Thread =
    | Wants | Looks | Decided | BothLocks | LetGo | Marked | Asleep | Woken
    // A producer raises the counter under `lk`, and calls wakeup before or after it
    // releases `lk`.
    | Offers | Adds | Raised | RaisedFree | Waking | WakingFree | Woke | WokeFree

  datatype State = State(value: int, lk: int, ptable: int, threads: seq<Thread>)

  predicate HasLk(t: Thread) {
    t.Looks? || t.Decided? || t.BothLocks? || t.Adds? || t.Raised? || t.Waking? || t.Woke?
  }

  predicate HasPtable(t: Thread) {
    t.BothLocks? || t.LetGo? || t.Marked? || t.Waking? || t.WakingFree?
  }

  /** Has raised the counter and not yet woken anybody. */
  predicate Owes(t: Thread) {
    t.Raised? || t.RaisedFree? || t.Waking? || t.WakingFree?
  }

  /** Has given up `lk` for sleep and has not been woken. */
  predicate Sleepy(t: Thread) {
    t.LetGo? || t.Marked? || t.Asleep?
  }

  function Roused(ts: seq<Thread>): (r: seq<Thread>)
    ensures |r| == |ts|
  {
    seq(|ts|, i requires 0 <= i < |ts| => if ts[i].Asleep? then Woken else ts[i])
  }

  /** The next step of thread `i`, `early` saying whether a producer calls wakeup before
      it releases `lk`; no change if it has to wait for a lock or for a wakeup. */
  function Step(s: State, i: nat, early: bool): State
    requires i < |s.threads|
  {
    match s.threads[i]
    case Wants => if s.lk == NONE then s.(lk := i, threads := s.threads[i := Looks]) else s
    case Looks => if s.value > 0
      then s.(value := s.value - 1, lk := NONE, threads := s.threads[i := Wants])
      else s.(threads := s.threads[i := Decided])
    case Decided => if s.ptable == NONE then s.(ptable := i, threads := s.threads[i := BothLocks]) else s
    case BothLocks => s.(lk := NONE, threads := s.threads[i := LetGo])
    case LetGo => s.(threads := s.threads[i := Marked])
    case Marked => s.(ptable := NONE, threads := s.threads[i := Asleep])
    case Asleep => s
    case Woken => s.(threads := s.threads[i := Wants])
    case Offers => if s.lk == NONE then s.(lk := i, threads := s.threads[i := Adds]) else s
    case Adds => s.(value := s.value + 1, threads := s.threads[i := Raised])
    case Raised =>
      if !early then s.(lk := NONE, threads := s.threads[i := RaisedFree])
      else if s.ptable == NONE then s.(ptable := i, threads := s.threads[i := Waking]) else s
    case RaisedFree => if s.ptable == NONE then s.(ptable := i, threads := s.threads[i := WakingFree]) else s
    case Waking => s.(ptable := NONE, threads := Roused(s.threads)[i := Woke])
    case WakingFree => s.(ptable := NONE, threads := Roused(s.threads)[i := WokeFree])
    case Woke => s.(lk := NONE, threads := s.threads[i := Offers])
    case WokeFree => s.(threads := s.threads[i := Offers])
  }

  ghost predicate Someone(ts: seq<Thread>) {
    exists j :: 0 <= j < |ts| && Owes(ts[j])
  }

  /** The locks have one holder each; the counter is not negative, and zero while
      somebody has decided to sleep under `lk`; and whoever sleeps, or is about to, while
      the counter is positive, is owed a wakeup. */
  ghost predicate ThreadOk(s: State, t: Thread, i: int) {
    LocksOk(s, t, i) && (Sleepy(t) && s.value > 0 ==> Someone(s.threads))
  }

  predicate LocksOk(s: State, t: Thread, i: int) {
    (HasLk(t) <==> s.lk == i) && (HasPtable(t) <==> s.ptable == i) && (t.Decided? || t.BothLocks? ==> s.value == 0)
  }

  ghost predicate Inv(s: State) {
    && s.value >= 0
    && (forall i {:trigger s.threads[i]} | 0 <= i < |s.threads| :: ThreadOk(s, s.threads[i], i))
    && (s.lk == NONE || 0 <= s.lk < |s.threads|) && (s.ptable == NONE || 0 <= s.ptable < |s.threads|)
  }

  lemma LocksStayOk(s: State, i: nat, early: bool, j: nat)
    requires i < |s.threads| && j < |s.threads| && LocksOk(s, s.threads[i], i) && LocksOk(s, s.threads[j], j)
    requires s.value >= 0
    ensures LocksOk(Step(s, i, early), Step(s, i, early).threads[j], j)
  {
    var s', t, u := Step(s, i, early), s.threads[i], s.threads[j];
    if i != j {
      assert s'.threads[j] == (if (t.Waking? || t.WakingFree?) && u.Asleep? then Woken else u);
    }
  }

  /** Only a wakeup is what was owed. */
  lemma StillOwed(s: State, i: nat, early: bool, j: nat)
    requires i < |s.threads| && j < |s.threads| && Owes(s.threads[j]) && !s.threads[i].Waking?
    requires !s.threads[i].WakingFree?
    ensures j < |Step(s, i, early).threads| && Owes(Step(s, i, early).threads[j])
  {}

  /** Who is asleep afterwards, with the counter positive, is owed a wakeup. */
  lemma SleepersStayOwed(s: State, i: nat, early: bool, j: nat)
    requires Inv(s) && i < |s.threads| && j < |s.threads|
    ensures var s' := Step(s, i, early); Sleepy(s'.threads[j]) && s'.value > 0 ==> Someone(s'.threads)
  {
    var s', t, u := Step(s, i, early), s.threads[i], s.threads[j];
    assert ThreadOk(s, t, i) && ThreadOk(s, u, j);
    if t.Adds? {
      assert Owes(s'.threads[i]);
    } else if t.Waking? || t.WakingFree? {
      assert HasPtable(u) ==> i == j;
    } else if Someone(s.threads) {
      var k :| 0 <= k < |s.threads| && Owes(s.threads[k]);
      StillOwed(s, i, early, k);
    }
  }

  lemma StepKeepsThread(s: State, i: nat, early: bool, j: nat)
    requires Inv(s) && i < |s.threads| && j < |s.threads|
    ensures ThreadOk(Step(s, i, early), Step(s, i, early).threads[j], j)
  {
    assert ThreadOk(s, s.threads[i], i) && ThreadOk(s, s.threads[j], j);
    LocksStayOk(s, i, early, j);
    SleepersStayOwed(s, i, early, j);
  }

  lemma StepKeeps(s: State, i: nat, early: bool)
    requires Inv(s) && i < |s.threads|
    ensures Inv(Step(s, i, early))
  {
    var s' := Step(s, i, early);
    assert ThreadOk(s, s.threads[i], i);
    forall j | 0 <= j < |s'.threads|
      ensures ThreadOk(s', s'.threads[j], j)
    {
      StepKeepsThread(s, i, early, j);
    }
  }

  /** Runs of any length. */
  ghost predicate Runs(ss: seq<State>, who: seq<nat>, how: seq<bool>) {
    |ss| == |who| + 1 == |how| + 1 && forall k | 0 <= k < |who| ::
      who[k] < |ss[k].threads| && ss[k + 1] == Step(ss[k], who[k], how[k])
  }

  /** Nobody has started, and nothing is there to consume. */
  predicate AtStart(s: State) {
    s.value == 0 && s.lk == NONE == s.ptable && forall i | 0 <= i < |s.threads| ::
      s.threads[i].Wants? || s.threads[i].Offers?
  }

  lemma {:induction false} RunKeeps(ss: seq<State>, who: seq<nat>, how: seq<bool>, k: nat)
    requires Runs(ss, who, how) && AtStart(ss[0]) && k <= |who|
    ensures Inv(ss[k])
  {
    if k > 0 {
      RunKeeps(ss, who, how, k - 1);
      StepKeeps(ss[k - 1], who[k - 1], how[k - 1]);
    }
  }

  /** How often, in the first `k` steps, a producer has added one, and a consumer that found
      the counter positive has taken one. */
  function Added(ss: seq<State>, who: seq<nat>, k: nat): nat
    requires k <= |who| <= |ss|
  {
    if k == 0 then 0
    else
      var s, i := ss[k - 1], who[k - 1];
      Added(ss, who, k - 1) + if i < |s.threads| && s.threads[i].Adds? then 1 else 0
  }

  function Taken(ss: seq<State>, who: seq<nat>, k: nat): nat
    requires k <= |who| <= |ss|
  {
    if k == 0 then 0
    else
      var s, i := ss[k - 1], who[k - 1];
      Taken(ss, who, k - 1) + if i < |s.threads| && s.threads[i].Looks? && s.value > 0 then 1 else 0
  }

  /** What has been added is there or has been taken, once. */
  lemma {:induction false} NothingIsLost(ss: seq<State>, who: seq<nat>, how: seq<bool>, k: nat)
    requires Runs(ss, who, how) && AtStart(ss[0]) && k <= |who|
    ensures Added(ss, who, k) == ss[k].value + Taken(ss, who, k)
  {
    if k > 0 {
      NothingIsLost(ss, who, how, k - 1);
    }
  }

  /** A producer that wakes early still holds `lk` when it does, another one has released it. */
  lemma WakesBeforeOrAfter(s: State, i: nat, early: bool)
    requires Inv(s) && i < |s.threads| && s.threads[i].Raised?
    ensures Step(s, i, early).lk == if early then i else NONE
    ensures early && s.ptable == NONE ==> Step(s, i, early).ptable == i && Step(s, i, early).threads[i].Waking?
    ensures !early ==> Step(s, i, early).threads[i].RaisedFree?
  {
    assert ThreadOk(s, s.threads[i], i);
  }

  /** No wakeup is lost: if the counter is positive and nobody owes a wakeup, nobody is
      asleep or on the way there; and a wakeup leaves nobody asleep. */
  lemma NobodyLeftBehind(s: State, i: nat, early: bool)
    requires Inv(s) && i < |s.threads|
    ensures var t := s.threads[i];
      && (s.value > 0 && (t.LetGo? || t.Marked? || t.Asleep?) ==>
           exists j | 0 <= j < |s.threads| :: var u := s.threads[j];
             u.Raised? || u.RaisedFree? || u.Waking? || u.WakingFree?)
      && (t.Waking? || t.WakingFree? ==> forall j | 0 <= j < |s.threads| :: var u := Step(s, i, early).threads[j];
           !u.LetGo? && !u.Marked? && if s.threads[j].Asleep? then u.Woken? else j != i ==> u == s.threads[j])
  {
    assert ThreadOk(s, s.threads[i], i);
  }

  /** Nor do the two locks deadlock: as long as somebody is not asleep, somebody can take
      a step, and it is the holder of ptable.lock, or else of `lk`, if there is one. */
  lemma SomebodyMoves(s: State, early: bool)
    requires Inv(s) && exists i :: 0 <= i < |s.threads| && !s.threads[i].Asleep?
    ensures exists i :: 0 <= i < |s.threads| && Step(s, i, early) != s
  {
    var i :| 0 <= i < |s.threads| && !s.threads[i].Asleep?;
    var m := if s.ptable != NONE then s.ptable else if s.lk != NONE then s.lk else i;
    assert Step(s, m, early).threads[m] != s.threads[m];
  }
}
