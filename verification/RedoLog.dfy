/** The on-disk redo log shared by both logging protocols (src/log.c and the group
    commit of src/fmt/log.c): a header sector naming home sectors, followed by one
    log sector per named home sector. A run is the list of its sector writes, each
    of them atomic; a crash keeps some prefix of that list. */
module RedoLog {
  import opened Blocks
  import opened Options

  type Disk = seq<Block>
  datatype Write = Write(sector: int, data: Block)

  /** A disk of `total` sectors with a log at `start`: a header and `size - 1` log
      sectors, of which at most `cap` (LOGSIZE) are used. */
  datatype Layout = Layout(total: nat, start: nat, size: nat, cap: nat) {
    ghost predicate Fits(d: Disk) {
      0 < size && start + size <= total == |d| && d[start].Full() && cap < WORDS - 1
    }
    predicate IsHome(s: int) {
      0 <= s < total && !(start <= s < start + size)
    }
    function MaxBlocks(): nat
      requires 0 < size
    {
      if cap < size - 1 then cap else size - 1
    }
  }

  /** The disk after the first `k` of a list of sector writes: what a crash then leaves. */
  function After(d: Disk, ws: seq<Write>, k: nat): (r: Disk)
    requires k <= |ws|
    ensures |r| == |d|
  {
    if k == 0 then d
    else
      var w, r := ws[k - 1], After(d, ws, k - 1);
      if 0 <= w.sector < |d| then r[w.sector := w.data] else r
  }

  function ApplyWrites(d: Disk, ws: seq<Write>): (r: Disk)
    ensures |r| == |d|
  {
    After(d, ws, |ws|)
  }

  /** Running `ws` and then the first `k` of `vs`. */
  lemma {:induction false} AfterConcat(d: Disk, ws: seq<Write>, vs: seq<Write>, k: nat)
    requires k <= |vs|
    ensures After(d, ws + vs, |ws| + k) == After(ApplyWrites(d, ws), vs, k)
  {
    if k == 0 {
      AfterPrefix(d, ws, ws + vs, |ws|);
    } else {
      AfterConcat(d, ws, vs, k - 1);
    }
  }

  lemma {:induction false} AfterPrefix(d: Disk, ws: seq<Write>, vs: seq<Write>, k: nat)
    requires k <= |ws| && k <= |vs| && forall i | 0 <= i < k :: ws[i] == vs[i]
    ensures After(d, ws, k) == After(d, vs, k)
  {
    if k > 0 {
      AfterPrefix(d, ws, vs, k - 1);
    }
  }

  /** The sector writes a kernel has made so far, the latest outermost. */
  datatype History = Boot | Then(past: History, write: Write)

  /** `h` followed by the first `k` of `ws`. */
  function Record(h: History, ws: seq<Write>, k: nat): History
    requires k <= |ws|
  {
    if k == 0 then h else Then(Record(h, ws, k - 1), ws[k - 1])
  }

  lemma {:induction false} RecordPrefix(h: History, ws: seq<Write>, vs: seq<Write>, k: nat)
    requires k <= |ws| && k <= |vs| && forall i | 0 <= i < k :: ws[i] == vs[i]
    ensures Record(h, ws, k) == Record(h, vs, k)
  {
    if k > 0 {
      RecordPrefix(h, ws, vs, k - 1);
    }
  }

  function Writes(h: History): nat {
    if h.Boot? then 0 else Writes(h.past) + 1
  }

  /** The first `n` writes of a history. */
  function First(h: History, n: nat): (r: History)
    ensures n <= Writes(h) ==> Writes(r) == n
  {
    if Writes(h) <= n then h else First(h.past, n)
  }

  /** The disk a history leaves. */
  function Replay(d: Disk, h: History): (r: Disk)
    ensures |r| == |d|
  {
    if h.Boot? then d
    else
      var w, r := h.write, Replay(d, h.past);
      if 0 <= w.sector < |d| then r[w.sector := w.data] else r
  }

  /** Recording writes adds them at the end, and replaying them is writing them. */
  lemma {:induction false} FirstOfRecord(h: History, ws: seq<Write>, n: nat, j: nat)
    requires n <= |ws| && j <= Writes(h) + n
    ensures Writes(Record(h, ws, n)) == Writes(h) + n
    ensures First(Record(h, ws, n), j) == if j <= Writes(h) then First(h, j) else Record(h, ws, j - Writes(h))
  {
    if n > 0 {
      FirstOfRecord(h, ws, n - 1, if j < Writes(h) + n then j else Writes(h) + n - 1);
    }
  }

  lemma {:induction false} ReplayRecord(d: Disk, h: History, ws: seq<Write>, k: nat)
    requires k <= |ws|
    ensures Replay(d, Record(h, ws, k)) == After(Replay(d, h), ws, k)
  {
    if k > 0 {
      ReplayRecord(d, h, ws, k - 1);
    }
  }

  function SectorsOf(ws: seq<Write>): seq<int> {
    seq(|ws|, i requires 0 <= i < |ws| => ws[i].sector)
  }

  /** Every sector holds the value last written to it, or its old value if nothing was. */
  lemma {:induction false} AfterIsLastValue(d: Disk, ws: seq<Write>, k: nat, s: nat)
    requires s < |d| && k <= |ws|
    ensures var i := Last(SectorsOf(ws), k, s);
      After(d, ws, k)[s] == if i >= 0 then ws[i].data else d[s]
  {
    if k > 0 {
      AfterIsLastValue(d, ws, k - 1, s);
    }
  }

  /** The home sectors a header names, in order. */
  function HeadSectors(head: Block): (secs: seq<int>)
    requires head.Full() && 0 <= head.words[0] < WORDS
    ensures |secs| == head.words[0]
  {
    seq(head.words[0], i requires 0 <= i < head.words[0] => head.words[1 + i])
  }

  ghost predicate GoodSectors(secs: seq<int>, n: nat, l: Layout)
    requires n <= |secs|
  {
    forall i | 0 <= i < n :: l.IsHome(secs[i])
  }

  /** A disk whose log header is well formed: it names at most as many blocks as
      the log holds, all of them outside the log. */
  ghost predicate WellFormed(d: Disk, l: Layout) {
    && l.Fits(d)
    && 0 <= d[l.start].words[0] <= l.MaxBlocks()
    && GoodSectors(HeadSectors(d[l.start]), d[l.start].words[0], l)
  }

  /** Position of the last of the first `n` entries naming `s`, or -1. */
  function Last(secs: seq<int>, n: nat, s: int): (k: int)
    requires n <= |secs|
    ensures -1 <= k < n
    ensures k >= 0 ==> secs[k] == s
  {
    if n == 0 then -1 else if secs[n - 1] == s then n - 1 else Last(secs, n - 1, s)
  }

  lemma {:induction false} LastIsLast(secs: seq<int>, n: nat, s: int)
    requires n <= |secs|
    ensures forall i | Last(secs, n, s) < i < n :: secs[i] != s
  {
    if n > 0 {
      LastIsLast(secs, n - 1, s);
    }
  }

  lemma {:induction false} LastAgrees(secs: seq<int>, secs': seq<int>, n: nat, s: int)
    requires n <= |secs| && n <= |secs'| && forall i | 0 <= i < n :: secs[i] == secs'[i]
    ensures Last(secs, n, s) == Last(secs', n, s)
  {
    if n > 0 {
      LastAgrees(secs, secs', n - 1, s);
    }
  }

  /** The in-memory `struct logheader`: a count and an array of fixed size. */
  datatype Header = Header(n: nat, sector: seq<int>) {
    predicate Sized() {
      n <= |sector|
    }
    /** The log slot a write to `s` goes to: the one already holding `s` (absorption),
        else the next free one. */
    function Slot(s: int): (k: nat)
      requires Sized()
      ensures k <= n
    {
      if Last(sector, n, s) >= 0 then Last(sector, n, s) else n
    }
    /** The header after logging `s`: unchanged if absorbed. */
    function Logged(s: int): (h: Header)
      requires Sized()
      ensures h.Sized() && |h.sector| == |sector|
    {
      if Last(sector, n, s) >= 0 || n == |sector| then this else Header(n + 1, sector[n := s])
    }
    /** No sector is named twice. */
    ghost predicate Distinct()
      requires Sized()
    {
      forall i {:trigger Last(sector, n, sector[i])} | 0 <= i < n :: Last(sector, n, sector[i]) == i
    }
  }

  lemma LastAfterLogging(h: Header, sector: int, s: int)
    requires h.Sized() && h.n < |h.sector|
    ensures var h' := h.Logged(sector);
      Last(h'.sector, h'.n, s) == if s == sector then h.Slot(sector) else Last(h.sector, h.n, s)
    ensures s != sector ==> Last(h.sector, h.n, s) != h.Slot(sector)
  {
    LastAgrees(h.sector, h.sector[h.n := sector], h.n, s);
  }

  lemma DistinctAfterLogging(h: Header, sector: int)
    requires h.Sized() && h.n < |h.sector| && h.Distinct()
    ensures h.Logged(sector).Distinct()
  {
    var h' := h.Logged(sector);
    forall i | 0 <= i < h'.n
      ensures Last(h'.sector, h'.n, h'.sector[i]) == i
    {
      LastAfterLogging(h, sector, h'.sector[i]);
      if i < h.n {
        assert Last(h.sector, h.n, h.sector[i]) == i;
      }
    }
  }

  /** Sector `s` as it would be if the log blocks were installed for the first
      `n` of `secs`; the log's own sectors are masked out. */
  ghost function OverlayAt(d: Disk, l: Layout, secs: seq<int>, n: nat, s: nat): Block
    requires l.Fits(d) && n <= |secs| && n <= l.MaxBlocks() && s < |d|
  {
    if !l.IsHome(s) then Block([])
    else if Last(secs, n, s) >= 0 then d[l.start + 1 + Last(secs, n, s)]
    else d[s]
  }

  /** The whole file system as it would be then. */
  ghost function Overlay(d: Disk, l: Layout, secs: seq<int>, n: nat): (fs: Disk)
    requires l.Fits(d) && n <= |secs| && n <= l.MaxBlocks()
    ensures |fs| == |d|
    ensures forall s: nat {:trigger fs[s]} | s < |d| :: fs[s] == OverlayAt(d, l, secs, n, s)
  {
    seq(|d|, s requires 0 <= s < |d| => OverlayAt(d, l, secs, n, s))
  }

  /** The file system in the home sectors, whatever the log holds. */
  ghost function Home(d: Disk, l: Layout): (fs: Disk)
    requires l.Fits(d)
    ensures |fs| == |d|
  {
    Overlay(d, l, [], 0)
  }

  /** The file system a disk stands for, if its log header is well formed: the home
      sectors with the committed log replayed. */
  ghost function Logical(d: Disk, l: Layout): (fs: Option<Disk>)
    ensures fs.Some? ==> |fs.value| == |d|
  {
    if WellFormed(d, l) then Some(Overlay(d, l, HeadSectors(d[l.start]), d[l.start].words[0])) else None
  }

  /** Sector `s` as running code reads it: the pinned buffer if there is one. */
  ghost function ViewAt(d: Disk, pinned: map<int, Block>, l: Layout, s: nat): Block
    requires s < |d|
  {
    if !l.IsHome(s) then Block([]) else if s in pinned then pinned[s] else d[s]
  }

  ghost function ViewOf(d: Disk, pinned: map<int, Block>, l: Layout): (v: Disk)
    ensures |v| == |d|
    ensures forall s: nat {:trigger v[s]} | s < |d| :: v[s] == ViewAt(d, pinned, l, s)
  {
    seq(|d|, s requires 0 <= s < |d| => ViewAt(d, pinned, l, s))
  }

  // ---- what one sector write does to the logical file system ----

  /** A write inside the log area that the header does not name changes nothing. */
  lemma LogAreaWrite(d: Disk, l: Layout, k: nat, b: Block)
    requires Logical(d, l).Some? && d[l.start].words[0] <= k < l.size - 1
    ensures Logical(d[l.start + 1 + k := b], l) == Logical(d, l)
  {
    var secs, n := HeadSectors(d[l.start]), d[l.start].words[0];
    forall t: nat | t < |d|
      ensures OverlayAt(d[l.start + 1 + k := b], l, secs, n, t) == OverlayAt(d, l, secs, n, t)
    {}
    assert Overlay(d[l.start + 1 + k := b], l, secs, n) == Overlay(d, l, secs, n);
  }

  /** A write to a home sector the header names changes nothing: recovery would
      overwrite it anyway. */
  lemma InstallWrite(d: Disk, l: Layout, s: int, b: Block)
    requires Logical(d, l).Some? && s in HeadSectors(d[l.start])
    ensures Logical(d[s := b], l) == Logical(d, l)
  {
    var secs, n := HeadSectors(d[l.start]), d[l.start].words[0];
    LastIsLast(secs, n, s);
    forall t: nat | t < |d|
      ensures OverlayAt(d[s := b], l, secs, n, t) == OverlayAt(d, l, secs, n, t)
    {}
    assert Overlay(d[s := b], l, secs, n) == Overlay(d, l, secs, n);
  }

  /** Writing the header is the commit point: it replaces the logical file system
      by whatever the log area overlays for the new header's sectors. */
  lemma HeaderWrite(d: Disk, l: Layout, head: Block)
    requires l.Fits(d) && head.Full() && 0 <= head.words[0] <= l.MaxBlocks()
    requires GoodSectors(HeadSectors(head), head.words[0], l)
    ensures Logical(d[l.start := head], l) == Some(Overlay(d, l, HeadSectors(head), head.words[0]))
  {
    var secs, n := HeadSectors(head), head.words[0];
    forall t: nat | t < |d|
      ensures OverlayAt(d[l.start := head], l, secs, n, t) == OverlayAt(d, l, secs, n, t)
    {}
    assert Overlay(d[l.start := head], l, secs, n) == Overlay(d, l, secs, n);
  }

  // ---- recovery ----

  /** The header sector after write_head overlays the first `n` of
      `secs`, `k` of them so far; words past the count
      keep whatever they held. */
  function PutHead(head: Block, secs: seq<int>, n: nat, k: nat): (r: Block)
    requires head.Full() && k <= n <= |secs| && n < WORDS - 1
    ensures r.Full() && r.words[0] == n
    ensures forall i | 0 <= i < k :: r.words[1 + i] == secs[i]
  {
    if k == 0 then Block(head.words[0 := n])
    else Block(PutHead(head, secs, n, k - 1).words[k := secs[k - 1]])
  }

  /** The writes of install_trans: each log block to its home sector. */
  function InstallTrace(d: Disk, l: Layout, secs: seq<int>): (ws: seq<Write>)
    requires l.start + |secs| < |d|
    ensures |ws| == |secs|
  {
    seq(|secs|, t requires 0 <= t < |secs| => Write(secs[t], d[l.start + 1 + t]))
  }

  /** The writes of recover_from_log: install what the header names, clear the header. */
  function RecoveryTrace(d: Disk, l: Layout): (ws: seq<Write>)
    requires Logical(d, l).Some?
  {
    InstallTrace(d, l, HeadSectors(d[l.start])) + [Write(l.start, PutHead(d[l.start], [], 0, 0))]
  }

  lemma InstallStep(d: Disk, l: Layout, secs: seq<int>, t: nat, e: Disk)
    requires l.Fits(d) && l.Fits(e) && t < |secs| <= l.MaxBlocks() && GoodSectors(secs, |secs|, l)
    requires Home(e, l) == Overlay(d, l, secs, t)
    ensures Home(e[secs[t] := d[l.start + 1 + t]], l) == Overlay(d, l, secs, t + 1)
  {
    var e' := e[secs[t] := d[l.start + 1 + t]];
    forall s: nat | s < |d|
      ensures OverlayAt(e', l, [], 0, s) == OverlayAt(d, l, secs, t + 1, s)
    {
      assert Home(e, l)[s] == OverlayAt(d, l, secs, t, s);
    }
  }

  /** After `t` installs the log area is untouched, the first `t` logged blocks are
      home, and the disk still stands for the same file system. */
  lemma {:induction false} InstallPrefix(d: Disk, l: Layout, secs: seq<int>, t: nat)
    requires Logical(d, l).Some? && secs == HeadSectors(d[l.start]) && t <= |secs|
    ensures var e := After(d, InstallTrace(d, l, secs), t);
      && (forall s: nat {:trigger e[s]} | l.start <= s < l.start + l.size :: e[s] == d[s])
      && Logical(e, l) == Logical(d, l)
      && Home(e, l) == Overlay(d, l, secs, t)
  {
    if t > 0 {
      InstallPrefix(d, l, secs, t - 1);
      var ws := InstallTrace(d, l, secs);
      var e := After(d, ws, t - 1);
      assert After(d, ws, t) == e[secs[t - 1] := d[l.start + t]];
      InstallWrite(e, l, secs[t - 1], d[l.start + t]);
      InstallStep(d, l, secs, t - 1, e);
    }
  }

  /** No sector write of recovery changes the logical file system; once recovery
      completes, the home sectors are that file system and the log is empty. */
  lemma RecoveryKeepsLogical(d: Disk, l: Layout, k: nat)
    requires Logical(d, l).Some? && k <= |RecoveryTrace(d, l)|
    ensures var e := After(d, RecoveryTrace(d, l), k);
      && Logical(e, l) == Logical(d, l)
      && (k == |RecoveryTrace(d, l)| ==> l.Fits(e) && e[l.start].words[0] == 0 && Home(e, l) == Logical(d, l).value)
  {
    var secs, ws := HeadSectors(d[l.start]), RecoveryTrace(d, l);
    var installs, j := InstallTrace(d, l, secs), if k <= |secs| then k else |secs|;
    InstallPrefix(d, l, secs, j);
    AfterPrefix(d, installs, ws, j);
    if k > |secs| {
      var head := PutHead(d[l.start], [], 0, 0);
      HeaderWrite(After(d, ws, j), l, head);
      assert HeadSectors(head) == [];
      assert After(d, ws, k) == After(d, ws, j)[l.start := head];
    }
  }

  /** `ds` is a run of crashes: each disk is left by interrupting the recovery of
      the one before after some number of its sector writes. */
  ghost predicate CrashChain(ds: seq<Disk>, l: Layout) {
    && ds != []
    && Logical(ds[0], l).Some?
    && (|ds| > 1 ==>
      && CrashChain(ds[..|ds| - 1], l)
      && Logical(ds[|ds| - 2], l).Some?
      && CrashedRecovery(ds[|ds| - 2], ds[|ds| - 1], l))
  }

  ghost predicate CrashedRecovery(d: Disk, e: Disk, l: Layout)
    requires Logical(d, l).Some?
  {
    exists k | 0 <= k <= |RecoveryTrace(d, l)| :: e == After(d, RecoveryTrace(d, l), k)
  }

  /** The disk once recovery has run to completion. */
  function Recovered(d: Disk, l: Layout): (r: Disk)
    requires Logical(d, l).Some?
    ensures |r| == |d|
  {
    ApplyWrites(d, RecoveryTrace(d, l))
  }

  /** However often recovery crashes, and wherever, the recovery that completes
      restores exactly the file system the first crash left on disk. */
  lemma {:induction false} RepeatedCrashesRecover(ds: seq<Disk>, l: Layout)
    requires CrashChain(ds, l)
    ensures var last := ds[|ds| - 1];
      && Logical(last, l) == Logical(ds[0], l)
      && l.Fits(Recovered(last, l)) && Home(Recovered(last, l), l) == Logical(ds[0], l).value
  {
    hide Logical, RecoveryTrace, Home, After;
    var last := ds[|ds| - 1];
    if |ds| > 1 {
      var prev := ds[|ds| - 2];
      RepeatedCrashesRecover(ds[..|ds| - 1], l);
      var k :| 0 <= k <= |RecoveryTrace(prev, l)| && last == After(prev, RecoveryTrace(prev, l), k);
      RecoveryKeepsLogical(prev, l, k);
    }
    RecoveryKeepsLogical(last, l, |RecoveryTrace(last, l)|);
  }

  // ---- commit ----

  /** The write that commits: the header now names the first `n` of `secs`. */
  function HeadWrite(d: Disk, l: Layout, secs: seq<int>, n: nat): Write
    requires l.start < |d| && d[l.start].Full() && n <= |secs| && n < WORDS - 1
  {
    Write(l.start, PutHead(d[l.start], secs, n, n))
  }

  /** The disk right after that write. What commit does from there on, installing the
      logged blocks and clearing the header, is exactly recovery of this disk. */
  function Committed(d: Disk, l: Layout, secs: seq<int>, n: nat): (c: Disk)
    requires l.Fits(d) && n <= |secs| && n <= l.MaxBlocks()
    ensures l.Fits(c) && c[l.start].words[0] == n
  {
    d[l.start := HeadWrite(d, l, secs, n).data]
  }

  lemma CommittedStandsForOverlay(d: Disk, l: Layout, secs: seq<int>, n: nat)
    requires l.Fits(d) && n <= |secs| && n <= l.MaxBlocks() && GoodSectors(secs, n, l)
    ensures Logical(Committed(d, l, secs, n), l) == Some(Overlay(d, l, secs, n))
    ensures HeadSectors(Committed(d, l, secs, n)[l.start]) == secs[..n]
  {
    var head := HeadWrite(d, l, secs, n).data;
    assert HeadSectors(head) == secs[..n];
    assert forall i | 0 <= i < n :: HeadSectors(head)[i] == secs[i];
    HeaderWrite(d, l, head);
    forall s: nat | s < |d|
      ensures OverlayAt(d, l, HeadSectors(head), n, s) == OverlayAt(d, l, secs, n, s)
    {
      LastAgrees(HeadSectors(head), secs, n, s);
    }
    assert Overlay(d, l, HeadSectors(head), n) == Overlay(d, l, secs, n);
  }
}
