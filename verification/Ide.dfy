/** src/ide.c, the queued and interrupt-driven disk, and src/memide.c, the synchronous
    one it is to be like. */
module Ide {
  import opened Blocks
  import opened Options

  const NIL := -1
  /** idestart sends 28 bits of the sector number. */
  const MAXSECTORS := 0x1000_0000

  type Disk = seq<Block>
  datatype Buf = Buf(busy: bool, valid: bool, dirty: bool, dev: int, sector: int, data: Block)

  // ---- memide.c ----

  /** A disk and the buffers. */
  datatype Mem = Mem(disk: Disk, bufs: seq<Buf>)

  /** iderw, past its panics: a dirty buffer is written, another one read. */
  function Synced(disk: Disk, b: Buf): Buf
    requires 0 <= b.sector < |disk|
  {
    if b.dirty then b.(dirty := false, valid := true) else b.(data := disk[b.sector], valid := true)
  }

  function Written(disk: Disk, b: Buf): Disk
    requires 0 <= b.sector < |disk|
  {
    if b.dirty then disk[b.sector := b.data] else disk
  }

  function MemRw(m: Mem, i: int): Mem
    requires 0 <= i < |m.bufs| && 0 <= m.bufs[i].sector < |m.disk|
  {
    Mem(Written(m.disk, m.bufs[i]), m.bufs[i := Synced(m.disk, m.bufs[i])])
  }

  /** What both versions of iderw demand of their buffer. */
  predicate Ready(b: Buf, disksize: int) {
    b.busy && (b.dirty || !b.valid) && b.dev == 1 && 0 <= b.sector < disksize
  }

  class MemDisk {
    var disk: Disk

    /** memide's iderw; false is one of its panics. */
    method Iderw(b: Buf) returns (r: Buf, ok: bool)
      requires 0 <= b.sector
      modifies this
      ensures ok == Ready(b, |old(disk)|)
      ensures !ok <==> !b.busy || (b.valid && !b.dirty) || b.dev != 1 || b.sector >= |old(disk)|
      ensures ok ==> disk == Written(old(disk), b) && r == Synced(old(disk), b)
      ensures ok ==> r.valid && !r.dirty && b.sector < |disk| && disk[b.sector] == r.data
      ensures ok ==> r.data == if b.dirty then b.data else old(disk)[b.sector]
      ensures ok ==> |disk| == |old(disk)| && forall s | 0 <= s < |disk| && s != b.sector :: disk[s] == old(disk)[s]
      ensures !ok ==> disk == old(disk) && r == b
    {
      r := b;
      if !b.busy || (b.valid && !b.dirty) || b.dev != 1 || b.sector >= |disk| {
        return r, false;
      }
      if r.dirty {
        r := r.(dirty := false);
        disk := disk[r.sector := r.data];
      } else {
        r := r.(data := disk[r.sector]);
      }
      r := r.(valid := true);
      ok := true;
    }
  }

  // ---- ide.c: driver and device as a state machine ----

  /** What idestart has told the device to do. */
  datatype Command = Idle | Read(sector: int) | Write(sector: int, data: Block)

  /** A queued request: a buffer, and a number no other request ever had. */
  datatype Request = Request(b: int, ticket: int)

  /** `done`: the device has finished its command, and interrupts. `asleep`: buffers whose
      process sleeps in iderw. `served`: requests completed so far. */
  datatype State = State(bufs: seq<Buf>, queue: seq<Request>, cmd: Command, done: bool, platter: Disk,
                         asleep: set<int>, served: int)

  function CommandFor(b: Buf): Command {
    if b.dirty then Write(b.sector % MAXSECTORS, b.data) else Read(b.sector % MAXSECTORS)
  }

  function Started(s: State): State
    requires s.queue == [] || 0 <= s.queue[0].b < |s.bufs|
  {
    s.(cmd := if s.queue == [] then Idle else CommandFor(s.bufs[s.queue[0].b]), done := false)
  }

  /** iderw up to its sleep: the request goes to the end of the queue. */
  function Submit(s: State, i: int): State
    requires 0 <= i < |s.bufs| && (s.queue == [] || 0 <= s.queue[0].b < |s.bufs|)
  {
    var s' := s.(queue := s.queue + [Request(i, s.served + |s.queue|)], asleep := s.asleep + {i});
    if s.queue == [] then Started(s') else s'
  }

  /** The device finishes; a write is on the platter. */
  function Finish(s: State): State {
    var s' := s.(done := true);
    if s.cmd.Write? && 0 <= s.cmd.sector < |s.platter|
      then s'.(platter := s.platter[s.cmd.sector := s.cmd.data])
      else s'
  }

  /** ideintr: the first request is complete, its process wakes, the next one starts. */
  function Interrupt(s: State): State
    requires s.queue != [] ==> 0 <= s.queue[0].b < |s.bufs|
    requires |s.queue| > 1 ==> 0 <= s.queue[1].b < |s.bufs|
  {
    if s.queue == [] then s
    else
      var i := s.queue[0].b;
      var b := s.bufs[i];
      var b' := if !b.dirty && s.cmd.Read? && 0 <= s.cmd.sector < |s.platter|
        then b.(data := s.platter[s.cmd.sector])
        else b;
      Started(s.(bufs := s.bufs[i := b'.(valid := true, dirty := false)], queue := s.queue[1..],
                 asleep := s.asleep - {i}, served := s.served + 1))
  }

  /** `Client`: a process changes a buffer that it holds and is not waiting for. */
  datatype Action = Submitted(i: int) | Finished | Interrupted | Client(i: int, b: Buf)

  ghost predicate Queued(s: State, i: int) {
    exists k :: 0 <= k < |s.queue| && s.queue[k].b == i
  }

  ghost predicate Enabled(s: State, a: Action) {
    match a
    case Submitted(i) => 0 <= i < |s.bufs| && i !in s.asleep && Ready(s.bufs[i], |s.platter|)
    case Finished => !s.cmd.Idle? && !s.done
    case Interrupted => s.done || s.queue == []
    case Client(i, _) => 0 <= i < |s.bufs| && i !in s.asleep
  }

  /** Whose request is queued is asleep in iderw, and nobody else is. */
  lemma AwakeIsNotQueued(s: State, i: int)
    requires Shaped(s)
    ensures i in s.asleep <==> Queued(s, i)
  {}

  ghost predicate Shaped(s: State) {
    && (forall k {:trigger s.queue[k]} | 0 <= k < |s.queue| ::
          0 <= s.queue[k].b < |s.bufs| && Ready(s.bufs[s.queue[k].b], |s.platter|) && s.queue[k].ticket == s.served + k)
    && (forall j, k {:trigger s.queue[j], s.queue[k]} | 0 <= j < k < |s.queue| :: s.queue[j].b != s.queue[k].b)
    && (forall i {:trigger i in s.asleep} | i in s.asleep :: Queued(s, i))
    && (forall k {:trigger s.queue[k]} | 0 <= k < |s.queue| :: s.queue[k].b in s.asleep)
    && |s.platter| <= MAXSECTORS
    && s.cmd == (if s.queue == [] then Idle else CommandFor(s.bufs[s.queue[0].b]))
    && (s.done ==> s.queue != [])
  }

  ghost function Do(s: State, a: Action): State
    requires Shaped(s) && Enabled(s, a)
  {
    match a
    case Submitted(i) => Submit(s, i)
    case Finished => Finish(s)
    case Interrupted => Interrupt(s)
    case Client(i, b) => s.(bufs := s.bufs[i := b])
  }

  /** What the same step is to memide: nothing, a whole iderw, or the client's change. */
  ghost function DoMem(m: Mem, s: State, a: Action): Mem
    requires Shaped(s) && Enabled(s, a) && m.bufs == s.bufs && |m.disk| == |s.platter|
  {
    match a
    case Interrupted => if s.queue == [] then m else MemRw(m, s.queue[0].b)
    case Client(i, b) => m.(bufs := m.bufs[i := b])
    case _ => m
  }

  /** The buffers are the same, and so is the disk but for a write that the device has
      finished and the driver does not know of. */
  ghost predicate Simulates(s: State, m: Mem) {
    && Shaped(s) && m.bufs == s.bufs && |m.disk| == |s.platter|
    && s.platter == if s.done then Written(m.disk, s.bufs[s.queue[0].b]) else m.disk
  }

  lemma StillQueued(s: State, s': State, r: Request, j: int)
    requires s'.queue == s.queue + [r] && (Queued(s, j) || j == r.b)
    ensures Queued(s', j)
  {
    if j == r.b {
      assert s'.queue[|s.queue|].b == j;
    } else {
      var k :| 0 <= k < |s.queue| && s.queue[k].b == j;
      assert s'.queue[k].b == j;
    }
  }

  /** The queue grows at its end, and so does the set of sleepers. */
  lemma SubmitShapes(s: State, i: int)
    requires Shaped(s) && Enabled(s, Submitted(i))
    ensures Shaped(Submit(s, i))
  {
    hide CommandFor, Queued;
    var s' := Submit(s, i);
    assert s'.queue[|s.queue|].b == i && s'.asleep == s.asleep + {i};
    assert forall k | 0 <= k < |s.queue| :: s'.queue[k] == s.queue[k];
    forall j | j in s'.asleep
      ensures Queued(s', j)
    {
      StillQueued(s, s', s'.queue[|s.queue|], j);
    }
  }

  lemma SubmitSimulates(s: State, m: Mem, i: int)
    requires Simulates(s, m) && Enabled(s, Submitted(i))
    ensures Simulates(Submit(s, i), m)
  {
    SubmitShapes(s, i);
    hide CommandFor, Written, Queued;
    assert s.queue != [] ==> Submit(s, i).queue[0] == s.queue[0];
  }

  lemma FinishSimulates(s: State, m: Mem)
    requires Simulates(s, m) && Enabled(s, Finished)
    ensures Simulates(Finish(s), m)
  {
    assert forall k | 0 <= k < |s.queue| :: Finish(s).queue[k] == s.queue[k];
  }

  /** The queue moves up, and nobody but the first sleeper wakes. */
  lemma InterruptShapes(s: State)
    requires Shaped(s) && s.queue != []
    ensures Shaped(Interrupt(s)) && Interrupt(s).queue == s.queue[1..]
  {
    hide CommandFor;
    var s', i := Interrupt(s), s.queue[0].b;
    assert forall k | 0 <= k < |s'.queue| :: s'.queue[k] == s.queue[k + 1];
    forall j | j in s'.asleep
      ensures Queued(s', j)
    {
      var k :| 0 <= k < |s.queue| && s.queue[k].b == j;
      assert s'.queue[k - 1].b == j;
    }
  }

  lemma InterruptSimulates(s: State, m: Mem)
    requires Simulates(s, m) && Enabled(s, Interrupted)
    ensures Simulates(Interrupt(s), DoMem(m, s, Interrupted))
  {
    if s.queue != [] {
      InterruptShapes(s);
      FirstIsReady(s);
      hide Shaped;
    }
  }

  lemma FirstIsReady(s: State)
    requires Shaped(s) && s.queue != []
    ensures 0 <= s.queue[0].b < |s.bufs| && Ready(s.bufs[s.queue[0].b], |s.platter|) && |s.platter| <= MAXSECTORS
    ensures s.cmd == CommandFor(s.bufs[s.queue[0].b]) && (|s.queue| > 1 ==> 0 <= s.queue[1].b < |s.bufs|)
  {}

  lemma ClientSimulates(s: State, m: Mem, i: int, b: Buf)
    requires Simulates(s, m) && Enabled(s, Client(i, b))
    ensures Simulates(s.(bufs := s.bufs[i := b]), m.(bufs := m.bufs[i := b]))
  {}

  lemma StepSimulates(s: State, m: Mem, a: Action)
    requires Simulates(s, m) && Enabled(s, a)
    ensures Simulates(Do(s, a), DoMem(m, s, a))
  {
    match a
    case Submitted(i) => SubmitSimulates(s, m, i);
    case Finished => FinishSimulates(s, m);
    case Interrupted => InterruptSimulates(s, m);
    case Client(i, b) => ClientSimulates(s, m, i, b);
  }

  /** A run: an interleaving of iderw calls, device, interrupts and clients, the latest
      step outermost. */
  datatype Run = From(s: State) | Step(before: Run, a: Action)

  ghost function End(r: Run): Option<State> {
    match r
    case From(s) => if Shaped(s) && !s.done then Some(s) else None
    case Step(r', a) =>
      var s := End(r');
      if s.Some? && Shaped(s.value) && Enabled(s.value, a) then Some(Do(s.value, a)) else None
  }

  /** The same run on the memory disk: each iderw whole, when its request is completed. */
  ghost function MemEnd(r: Run): Mem {
    match r
    case From(s) => Mem(s.platter, s.bufs)
    case Step(r', a) =>
      var s, m := End(r'), MemEnd(r');
      if s.Some? && Shaped(s.value) && Enabled(s.value, a) && m.bufs == s.value.bufs && |m.disk| == |s.value.platter|
      then DoMem(m, s.value, a)
      else m
  }

  /** In every interleaving the driver's buffers are those of memide run in queue order,
      and its disk too, up to a write whose interrupt is pending. */
  lemma {:induction false} RunRefinesMemide(r: Run)
    requires End(r).Some?
    ensures Simulates(End(r).value, MemEnd(r))
  {
    match r
    case From(s) =>
    case Step(r', a) =>
      RunRefinesMemide(r');
      StepSimulates(End(r').value, MemEnd(r'), a);
  }

  /** The buffers of all calls of iderw, in the order in which they were made. */
  ghost function Calls(r: Run): seq<int> {
    match r
    case From(s) => seq(|s.queue|, k requires 0 <= k < |s.queue| => s.queue[k].b)
    case Step(r', Submitted(i)) => Calls(r') + [i]
    case Step(r', _) => Calls(r')
  }

  ghost function ServedAtFirst(r: Run): int {
    match r
    case From(s) => s.served
    case Step(r', _) => ServedAtFirst(r')
  }

  /** Of these calls, those from number `s.served - n` on are the queue. */
  ghost predicate InTurn(calls: seq<int>, n: int, s: State) {
    && n <= s.served && |calls| == s.served - n + |s.queue|
    && forall k {:trigger s.queue[k]} | 0 <= k < |s.queue| :: s.queue[k].b == calls[s.served - n + k]
  }

  lemma QueueAfter(s: State, a: Action)
    requires Shaped(s) && Enabled(s, a)
    ensures var s' := Do(s, a);
      if a.Submitted? then s'.queue == s.queue + [Request(a.i, s.served + |s.queue|)] && s'.served == s.served
      else if a.Interrupted? && s.queue != [] then s'.queue == s.queue[1..] && s'.served == s.served + 1
      else s'.queue == s.queue && s'.served == s.served
  {
    if s.queue != [] {
      FirstIsReady(s);
    }
  }

  lemma StepServesInTurn(s: State, a: Action, calls: seq<int>, n: int)
    requires Shaped(s) && Enabled(s, a) && InTurn(calls, n, s)
    ensures InTurn(if a.Submitted? then calls + [a.i] else calls, n, Do(s, a))
  {
    QueueAfter(s, a);
    hide Shaped, Enabled, Do;
  }

  /** No call is lost, and none is served twice or out of turn: those served come first,
      and those after them are the queue. */
  lemma {:induction false} CallsAreServedInOrder(r: Run)
    requires End(r).Some?
    ensures InTurn(Calls(r), ServedAtFirst(r), End(r).value)
  {
    hide Shaped, Enabled, Do, InTurn;
    match r
    case From(s) => NoneServed(s);
    case Step(r', a) =>
      CallsAreServedInOrder(r');
      StepServesInTurn(End(r').value, a, Calls(r'), ServedAtFirst(r'));
  }

  lemma NoneServed(s: State)
    ensures InTurn(Calls(From(s)), s.served, s)
  {}

  /** A process that called iderw goes on only after an interrupt, with its buffer valid,
      clean, and the same as its sector of the memory disk. */
  lemma WakesServed(r: Run, a: Action, i: int)
    requires End(Step(r, a)).Some? && i in End(r).value.asleep && i !in End(Step(r, a)).value.asleep
    ensures var s, b := End(Step(r, a)).value, End(Step(r, a)).value.bufs[i];
      && a.Interrupted? && i == End(r).value.queue[0].b && b.valid && !b.dirty
      && 0 <= b.sector < |MemEnd(Step(r, a)).disk| && MemEnd(Step(r, a)).disk[b.sector] == b.data
  {
    RunRefinesMemide(r);
    StepSimulates(End(r).value, MemEnd(r), a);
  }

  /** From every state the device and its interrupts serve all that is queued. */
  lemma {:induction false} AllAreServed(r: Run) returns (r': Run)
    requires End(r).Some?
    ensures End(r').Some? && Calls(r') == Calls(r) && ServedAtFirst(r') == ServedAtFirst(r)
    ensures End(r').value.queue == [] && End(r').value.asleep == {}
    ensures End(r').value.served == End(r).value.served + |End(r).value.queue|
    decreases |End(r).value.queue|
  {
    RunRefinesMemide(r);
    var s := End(r).value;
    if s.queue == [] {
      r' := r;
      assert s.asleep == {} by { assert forall i :: i !in s.asleep; }
    } else {
      var r1 := if s.done then r else Step(r, Finished);
      InterruptServesNext(s, MemEnd(r));
      RunRefinesMemide(r1);
      if !s.done {
        QueueAfter(s, Finished);
      }
      QueueAfter(End(r1).value, Interrupted);
      RunRefinesMemide(Step(r1, Interrupted));
      r' := AllAreServed(Step(r1, Interrupted));
    }
  }

  /** A call of iderw for a buffer that is ready, and not being waited for, can be made, and can
      return. */
  lemma IderwReturns(r: Run, i: int) returns (r': Run)
    requires End(r).Some? && 0 <= i < |End(r).value.bufs| && i !in End(r).value.asleep
    requires Ready(End(r).value.bufs[i], |End(r).value.platter|)
    ensures End(r').Some? && Calls(r') == Calls(r) + [i] && End(r').value.asleep == {}
    ensures End(Step(r, Submitted(i))).Some? && i in End(Step(r, Submitted(i))).value.asleep
  {
    RunRefinesMemide(r);
    RunRefinesMemide(Step(r, Submitted(i)));
    r' := AllAreServed(Step(r, Submitted(i)));
  }

  /** Requests are completed in order, each once: the next to be completed is number
      `served`, its process wakes and finds its buffer as iderw waits for it, every
      other request moves up one, and nobody else wakes. */
  lemma InterruptServesNext(s: State, m: Mem)
    requires Simulates(s, m) && s.queue != []
    ensures if s.done then Enabled(s, Interrupted) else Enabled(s, Finished) && Do(s, Finished).done
    ensures var s', i := Interrupt(s), s.queue[0].b;
      && s.queue[0].ticket == s.served && s'.served == s.served + 1 && s'.queue == s.queue[1..]
      && s'.asleep == s.asleep - {i} && s'.bufs[i].valid && !s'.bufs[i].dirty && !Queued(s', i)
  {}

  // ---- the queue, linked through the buffers ----

  /** `idequeue` and the `qnext` fields. */
  class Queue {
    const qnext: array<int>
    var idequeue: int
    ghost var members: seq<int>

    ghost predicate Valid()
      reads this, qnext
    {
      && idequeue == (if members == [] then NIL else members[0])
      && (forall k {:trigger members[k]} | 0 <= k < |members| :: 0 <= members[k] < qnext.Length)
      && (forall k {:trigger qnext[members[k]]} | 0 <= k < |members| ::
           qnext[members[k]] == if k + 1 < |members| then members[k + 1] else NIL)
      && (forall j, k {:trigger members[j], members[k]} | 0 <= j < k < |members| :: members[j] != members[k])
    }

    constructor (n: nat)
      ensures Valid() && members == [] && qnext.Length == n && fresh(qnext)
    {
      qnext := new int[n];
      idequeue, members := NIL, [];
    }

    /** The walk of iderw to the end of the queue; it ends. */
    method Append(b: int)
      requires Valid() && 0 <= b < qnext.Length && b !in members
      modifies this, qnext
      ensures Valid() && members == old(members) + [b]
    {
      qnext[b] := NIL;
      if idequeue == NIL {
        idequeue := b;
      } else {
        var p := idequeue;
        ghost var k := 0;
        while qnext[p] != NIL
          invariant 0 <= k < |members| && p == members[k] && members == old(members)
          invariant forall j {:trigger qnext[members[j]]} | 0 <= j < |members| ::
            qnext[members[j]] == if j + 1 < |members| then members[j + 1] else NIL
          invariant idequeue == members[0] && qnext[b] == NIL
          decreases |members| - k
        {
          p, k := qnext[p], k + 1;
        }
        qnext[p] := b;
      }
      members := members + [b];
    }

    /** ideintr: the first request, or NIL. */
    method Remove() returns (b: int)
      requires Valid()
      modifies this
      ensures Valid()
      ensures if old(members) == []
        then b == NIL && members == []
        else b == old(members)[0] && members == old(members)[1..]
    {
      b := idequeue;
      if b != NIL {
        idequeue := qnext[b];
        members := members[1..];
      }
    }
  }
}
