/** src/vm.c and src/kalloc.c: page tables and the frames they are made of. Frames are
    numbered; a frame in use is a page directory or page table, or holds bytes. */
module Vm {
  import opened Options

  const PGSIZE := 4096
  const NENTRIES := 1024
  /** Bytes that one page table maps. */
  const SPAN := 0x40_0000
  const KERNBASE := 0x8000_0000
  /** Page directory entries below KERNBASE. */
  const USERDIRS := 512
  /** PTE_W | PTE_U */
  const WU := 6

  datatype Pte = Absent | To(frame: int, flags: int)

  /** `tables` and `data` are the frames in use; `free` those on the free list. */
  datatype Mem = Mem(tables: map<int, seq<Pte>>, data: map<int, seq<int>>, free: set<int>)

  function EntryOf(m: Mem, t: int, j: int): Pte {
    if t in m.tables && 0 <= j < |m.tables[t]| then m.tables[t][j] else Absent
  }

  /** The flat map that a page directory stands for: what page `j` of part `i` maps to. */
  function PageAt(m: Mem, d: int, i: int, j: int): Pte {
    match EntryOf(m, d, i)
    case Absent => Absent
    case To(t, _) => EntryOf(m, t, j)
  }

  // ---- well-formed page tables ----

  /** What a frame is to an address space. */
  datatype Role = Directory | Table(i: int) | Page(i: int, j: int)

  ghost predicate Formed(m: Mem, t: int) {
    t in m.tables && |m.tables[t]| == NENTRIES
  }

  /** Directory, tables and user pages of address space `d` are all different frames, in
      use, and `owner` says which they are. The kernel's pages belong to nobody. */
  ghost predicate Space(m: Mem, d: int, owner: map<int, Role>) {
    && d in owner && owner[d] == Directory && Formed(m, d)
    && (forall i {:trigger EntryOf(m, d, i)} | EntryOf(m, d, i).To? ::
          var t := EntryOf(m, d, i).frame; t in owner && owner[t] == Table(i) && Formed(m, t))
    && (forall i, j {:trigger PageAt(m, d, i, j)} | i < USERDIRS && PageAt(m, d, i, j).To? ::
          var f := PageAt(m, d, i, j).frame; f in owner && owner[f] == Page(i, j) && f in m.data)
    && (forall f {:trigger f in owner} | f in owner ::
          f !in m.free && match owner[f]
          case Directory => f == d
          case Table(i) => EntryOf(m, d, i).To? && EntryOf(m, d, i).frame == f
          case Page(i, j) => i < USERDIRS && PageAt(m, d, i, j).To? && PageAt(m, d, i, j).frame == f)
  }

  /** What happens to frames that are not its own does not matter to an address space. */
  lemma SpaceElsewhere(m: Mem, m': Mem, d: int, owner: map<int, Role>)
    requires Space(m, d, owner)
    requires forall f {:trigger f in m'.tables} {:trigger f in m.tables} | f in owner && f in m.tables ::
      f in m'.tables && m'.tables[f] == m.tables[f]
    requires forall f | f in owner && f in m.data :: f in m'.data
    requires forall f | f in owner :: f !in m'.free
    ensures Space(m', d, owner)
    ensures forall i, j :: PageAt(m', d, i, j) == PageAt(m, d, i, j)
  {
    forall i
      ensures EntryOf(m', d, i) == EntryOf(m, d, i)
    {}
    forall i, j
      ensures PageAt(m', d, i, j) == PageAt(m, d, i, j)
    {
      assert EntryOf(m, d, i).To? ==> EntryOf(m, d, i).frame in owner;
    }
  }

  // ---- one frame more or less ----

  function EmptyTable(): (t: seq<Pte>)
    ensures |t| == NENTRIES && forall j | 0 <= j < NENTRIES :: t[j] == Absent
  {
    seq(NENTRIES, j => Absent)
  }

  /** Frame `f`, filled with `es`, becomes the page table of part `i`. */
  function TableAdded(m: Mem, d: int, i: int, f: int, es: seq<Pte>): Mem
    requires d in m.tables && 0 <= i < |m.tables[d]|
  {
    m.(tables := m.tables[f := es][d := m.tables[d][i := To(f, WU)]], free := m.free - {f})
  }

  lemma TableAddedKeeps(m: Mem, d: int, owner: map<int, Role>, i: int, f: int, es: seq<Pte>)
    requires Space(m, d, owner) && 0 <= i < NENTRIES && EntryOf(m, d, i).Absent? && f !in owner
    requires |es| == NENTRIES && (i < USERDIRS ==> es == EmptyTable())
    ensures Space(TableAdded(m, d, i, f, es), d, owner[f := Table(i)])
    ensures forall i' :: EntryOf(TableAdded(m, d, i, f, es), d, i') == if i' == i then To(f, WU) else EntryOf(m, d, i')
    ensures forall i', j' | i' < USERDIRS || i' != i ::
      PageAt(TableAdded(m, d, i, f, es), d, i', j') == PageAt(m, d, i', j')
    ensures forall j' | 0 <= j' < NENTRIES :: PageAt(TableAdded(m, d, i, f, es), d, i, j') == es[j']
  {
    var m', owner' := TableAdded(m, d, i, f, es), owner[f := Table(i)];
    forall i'
      ensures EntryOf(m', d, i') == if i' == i then To(f, WU) else EntryOf(m, d, i')
    {}
    forall i', j' | i' < USERDIRS || i' != i
      ensures PageAt(m', d, i', j') == PageAt(m, d, i', j')
    {
      assert EntryOf(m, d, i').To? ==> EntryOf(m, d, i').frame in owner;
    }
  }

  /** Entry `j` of page table `t`, which is part `i`, is set. */
  function EntrySet(m: Mem, t: int, j: int, e: Pte): Mem
    requires t in m.tables && 0 <= j < |m.tables[t]|
  {
    m.(tables := m.tables[t := m.tables[t][j := e]])
  }

  lemma EntrySetPages(m: Mem, d: int, owner: map<int, Role>, i: int, j: int, e: Pte, i': int, j': int)
    requires Space(m, d, owner) && EntryOf(m, d, i).To? && 0 <= j < NENTRIES
    ensures Formed(m, EntryOf(m, d, i).frame)
    ensures var m' := EntrySet(m, EntryOf(m, d, i).frame, j, e);
      EntryOf(m', d, i') == EntryOf(m, d, i') && PageAt(m', d, i', j') == if i' == i && j' == j
        then e
        else PageAt(m, d, i', j')
  {}

  /** A user page is mapped to frame `f`, which holds `bytes`. */
  function PageAdded(m: Mem, t: int, j: int, f: int, flags: int, bytes: seq<int>): Mem
    requires t in m.tables && 0 <= j < |m.tables[t]|
  {
    EntrySet(m, t, j, To(f, flags)).(data := m.data[f := bytes], free := m.free - {f})
  }

  lemma PageAddedKeeps(m: Mem, d: int, owner: map<int, Role>, i: int, j: int, f: int, flags: int, bytes: seq<int>)
    requires Space(m, d, owner) && 0 <= i < USERDIRS && 0 <= j < NENTRIES && EntryOf(m, d, i).To?
    requires PageAt(m, d, i, j).Absent? && f !in owner
    ensures Formed(m, EntryOf(m, d, i).frame)
    ensures Space(PageAdded(m, EntryOf(m, d, i).frame, j, f, flags, bytes), d, owner[f := Page(i, j)])
    ensures forall i', j' ::
      PageAt(PageAdded(m, EntryOf(m, d, i).frame, j, f, flags, bytes), d, i', j') == if i' == i && j' == j
        then To(f, flags)
        else PageAt(m, d, i', j')
    ensures forall i' :: EntryOf(PageAdded(m, EntryOf(m, d, i).frame, j, f, flags, bytes), d, i') == EntryOf(m, d, i')
  {
    var t := EntryOf(m, d, i).frame;
    assert t in owner;
    var m', owner' := PageAdded(m, t, j, f, flags, bytes), owner[f := Page(i, j)];
    forall i'
      ensures EntryOf(m', d, i') == EntryOf(m, d, i')
    {
      EntrySetPages(m, d, owner, i, j, To(f, flags), i', 0);
      assert EntryOf(m', d, i') == EntryOf(EntrySet(m, t, j, To(f, flags)), d, i');
    }
    forall i', j'
      ensures PageAt(m', d, i', j') == if i' == i && j' == j then To(f, flags) else PageAt(m, d, i', j')
    {
      EntrySetPages(m, d, owner, i, j, To(f, flags), i', j');
      assert PageAt(m', d, i', j') == PageAt(EntrySet(m, t, j, To(f, flags)), d, i', j');
    }
  }

  /** A user page is unmapped and its frame freed. */
  function PageRemoved(m: Mem, t: int, j: int, f: int): Mem
    requires t in m.tables && 0 <= j < |m.tables[t]|
  {
    EntrySet(m, t, j, Absent).(data := m.data - {f}, free := m.free + {f})
  }

  lemma PageRemovedKeeps(m: Mem, d: int, owner: map<int, Role>, i: int, j: int)
    requires Space(m, d, owner) && 0 <= i < USERDIRS && 0 <= j < NENTRIES && PageAt(m, d, i, j).To?
    ensures EntryOf(m, d, i).To? && Formed(m, EntryOf(m, d, i).frame)
    ensures var f := PageAt(m, d, i, j).frame;
      f in owner && f !in m.free && Space(PageRemoved(m, EntryOf(m, d, i).frame, j, f), d, owner - {f})
  {
    var t, f := EntryOf(m, d, i).frame, PageAt(m, d, i, j).frame;
    assert t in owner && f in owner;
    var m' := PageRemoved(m, t, j, f);
    forall i'
      ensures EntryOf(m', d, i') == EntryOf(m, d, i')
    {
      EntrySetPages(m, d, owner, i, j, Absent, i', 0);
      assert EntryOf(m', d, i') == EntryOf(EntrySet(m, t, j, Absent), d, i');
    }
    forall i', j'
      ensures PageAt(m', d, i', j') == if i' == i && j' == j then Absent else PageAt(m, d, i', j')
    {
      EntrySetPages(m, d, owner, i, j, Absent, i', j');
      assert PageAt(m', d, i', j') == PageAt(EntrySet(m, t, j, Absent), d, i', j');
    }
  }

  // ---- addresses ----

  function PartOf(a: int): int {
    a / SPAN
  }
  function IndexOf(a: int): int {
    a / PGSIZE % NENTRIES
  }
  function Address(i: int, j: int): int {
    i * SPAN + j * PGSIZE
  }
  function RoundUp(a: int): int {
    (a + PGSIZE - 1) / PGSIZE * PGSIZE
  }

  lemma AddressOfPage(a: int)
    requires 0 <= a && a % PGSIZE == 0
    ensures a == Address(PartOf(a), IndexOf(a)) && 0 <= IndexOf(a) < NENTRIES
  {}

  lemma UserPage(a: int)
    requires 0 <= a < KERNBASE && a % PGSIZE == 0
    ensures 0 <= PartOf(a) < USERDIRS && 0 <= IndexOf(a) < NENTRIES && a == Address(PartOf(a), IndexOf(a))
  {}

  lemma PageOfAddress(i: int, j: int)
    requires 0 <= i && 0 <= j < NENTRIES
    ensures PartOf(Address(i, j)) == i && IndexOf(Address(i, j)) == j && Address(i, j) % PGSIZE == 0
  {}

  // ---- what may happen to an address space that shrinks ----

  /** Frames that were the space's own may have been freed; nothing else has changed. */
  ghost predicate Shrunk(m0: Mem, owner0: map<int, Role>, m: Mem, owner: map<int, Role>) {
    && owner.Keys <= owner0.Keys
    && m.free == m0.free + (owner0.Keys - owner.Keys)
    && m.tables.Keys == m0.tables.Keys
    && (forall f {:trigger m.tables[f]} | f in m0.tables && f !in owner0 :: m.tables[f] == m0.tables[f])
    && (forall f {:trigger f in m.data} {:trigger f in m0.data} | f !in owner0 || f in owner ::
         (f in m.data <==> f in m0.data) && (f in m.data ==> m.data[f] == m0.data[f]))
  }

  /** Pages of `d` are as in `m0`, or gone; its directory is as it was. */
  ghost predicate PagesGone(m0: Mem, m: Mem, d: int) {
    && (forall i {:trigger EntryOf(m, d, i)} :: EntryOf(m, d, i) == EntryOf(m0, d, i))
    && (forall i, j {:trigger PageAt(m, d, i, j)} ::
         PageAt(m, d, i, j) == PageAt(m0, d, i, j) || (PageAt(m, d, i, j).Absent? && i < USERDIRS))
  }

  /** ... and gone are exactly those from `lo` up to `hi`. */
  ghost predicate ExactlyGone(m0: Mem, m: Mem, d: int, lo: int, hi: int) {
    forall i, j {:trigger PageAt(m, d, i, j)} | 0 <= i < USERDIRS && 0 <= j < NENTRIES ::
      PageAt(m, d, i, j) == if lo <= Address(i, j) < hi then Absent else PageAt(m0, d, i, j)
  }

  lemma RemovalShrinks(m0: Mem, owner0: map<int, Role>, m: Mem, d: int, owner: map<int, Role>, i: int, j: int)
    requires Space(m, d, owner) && Shrunk(m0, owner0, m, owner) && PagesGone(m0, m, d)
    requires 0 <= i < USERDIRS && 0 <= j < NENTRIES && PageAt(m, d, i, j).To?
    ensures EntryOf(m, d, i).To? && Formed(m, EntryOf(m, d, i).frame)
    ensures var t, f := EntryOf(m, d, i).frame, PageAt(m, d, i, j).frame;
      var m' := PageRemoved(m, t, j, f);
      && f in owner && f !in m.free && Space(m', d, owner - {f}) && Shrunk(m0, owner0, m', owner - {f})
      && PagesGone(m0, m', d)
      && forall i', j' {:trigger PageAt(m', d, i', j')} ::
           PageAt(m', d, i', j') == if i' == i && j' == j then Absent else PageAt(m, d, i', j')
  {
    PageRemovedKeeps(m, d, owner, i, j);
    var t, f := EntryOf(m, d, i).frame, PageAt(m, d, i, j).frame;
    var m' := PageRemoved(m, t, j, f);
    forall i'
      ensures EntryOf(m', d, i') == EntryOf(m, d, i')
    {
      EntrySetPages(m, d, owner, i, j, Absent, i', 0);
      assert EntryOf(m', d, i') == EntryOf(EntrySet(m, t, j, Absent), d, i');
    }
    forall i', j'
      ensures PageAt(m', d, i', j') == if i' == i && j' == j then Absent else PageAt(m, d, i', j')
    {
      EntrySetPages(m, d, owner, i, j, Absent, i', j');
      assert PageAt(m', d, i', j') == PageAt(EntrySet(m, t, j, Absent), d, i', j');
    }
    assert t in owner;
  }

  /** The first part from `p` on that has a page table, or USERDIRS. */
  function FirstTable(m: Mem, d: int, p: nat): (q: nat)
    ensures p <= q && (p < USERDIRS ==> q <= USERDIRS) && (q < USERDIRS ==> EntryOf(m, d, q).To?)
    ensures forall i {:trigger EntryOf(m, d, i)} | p <= i < q :: EntryOf(m, d, i).Absent?
    decreases USERDIRS - p
  {
    if p >= USERDIRS || EntryOf(m, d, p).To? then p else FirstTable(m, d, p + 1)
  }

  /** Where deallocuvm, started at page `q` of part `p`, lands when it has skipped missing
      page tables: at page `q` again, so that it misses the pages below. */
  ghost predicate Missed(m: Mem, d: int, p: nat, q: int, i: int, j: int) {
    p < i == FirstTable(m, d, p) && j < q
  }

  /** Gone are the pages from that one up to `hi`, but for those missed. */
  ghost predicate Freed(m0: Mem, m: Mem, d: int, p: nat, q: int, hi: int) {
    forall i, j {:trigger PageAt(m, d, i, j)} | 0 <= i < USERDIRS && 0 <= j < NENTRIES ::
      PageAt(m, d, i, j) ==
        if Address(p, q) <= Address(i, j) < hi && !Missed(m0, d, p, q, i, j) then Absent else PageAt(m0, d, i, j)
  }

  /** Nothing is there to be missed. */
  ghost predicate NoneMissed(m: Mem, d: int, p: nat, q: int, hi: int) {
    forall i, j {:trigger PageAt(m, d, i, j)} | 0 <= i < USERDIRS && 0 <= j < NENTRIES ::
      Address(i, j) < hi && Missed(m, d, p, q, i, j) ==> PageAt(m, d, i, j).Absent?
  }

  /** So the range is freed exactly if no page was missed: if its start is at a table's
      boundary, or in a table, or no page below its index is in the first table after it. */
  lemma FreedExactlyIff(m0: Mem, m: Mem, d: int, p: nat, q: int, hi: int)
    requires Freed(m0, m, d, p, q, hi) && 0 <= q < NENTRIES
    ensures ExactlyGone(m0, m, d, Address(p, q), hi) <==> NoneMissed(m0, d, p, q, hi)
    ensures q == 0 || (p < USERDIRS && EntryOf(m0, d, p).To?) ==> NoneMissed(m0, d, p, q, hi)
  {
    if ExactlyGone(m0, m, d, Address(p, q), hi) {
      forall i, j | 0 <= i < USERDIRS && 0 <= j < NENTRIES && Address(i, j) < hi && Missed(m0, d, p, q, i, j)
        ensures PageAt(m0, d, i, j).Absent?
      {
        assert PageAt(m, d, i, j) == PageAt(m0, d, i, j);
      }
    }
    if NoneMissed(m0, d, p, q, hi) {
      forall i, j | 0 <= i < USERDIRS && 0 <= j < NENTRIES
        ensures PageAt(m, d, i, j) == if Address(p, q) <= Address(i, j) < hi then Absent else PageAt(m0, d, i, j)
      {
        assert PageAt(m0, d, i, j) == PageAt(m0, d, i, j);
      }
    }
  }

  /** A space with one page, the first one of part 1, and no table for part 0. */
  function ApartSpace(): Mem {
    Mem(map[1 := EmptyTable()[1 := To(2, WU)], 2 := EmptyTable()[0 := To(3, WU)]], map[3 := []], {})
  }

  /** Freed from page 1 of part 0 on, it keeps that page. */
  lemma ApartPageIsMissed(m: Mem)
    requires Freed(ApartSpace(), m, 1, 0, 1, Address(2, 0))
    ensures Space(ApartSpace(), 1, map[1 := Directory, 2 := Table(1), 3 := Page(1, 0)])
    ensures PageAt(m, 1, 1, 0) == To(3, WU) && !ExactlyGone(ApartSpace(), m, 1, Address(0, 1), Address(2, 0))
  {
    var m0 := ApartSpace();
    assert EntryOf(m0, 1, 0).Absent? && EntryOf(m0, 1, 1) == To(2, WU) && PageAt(m0, 1, 1, 0) == To(3, WU);
    assert FirstTable(m0, 1, 0) == 1;
    assert PageAt(m, 1, 1, 0) == To(3, WU);
    assert Address(0, 1) <= Address(1, 0) < Address(2, 0);
  }

  /** Where deallocuvm's loop can be, at page `j` of part `i`: skipping, or past the table it
      landed in, at a table's start or in a table. */
  ghost predicate OnTrack(m: Mem, d: int, p: nat, q: int, i: int, j: int) {
    var first := FirstTable(m, d, p);
    || (j == q && p <= i < first)
    || ((j == 0 || EntryOf(m, d, i).To?) && (p < first && q > 0 ==> Address(first, q) <= Address(i, j)))
  }

  /** One pass, from page `j` of part `i` on. */
  lemma FreedFurther(m0: Mem, m: Mem, m': Mem, d: int, p: nat, q: int, i: int, j: int, i': int, j': int, hi: int)
    requires 0 <= q < NENTRIES && 0 <= i < USERDIRS && 0 <= j < NENTRIES
    requires Address(p, q) <= Address(i, j) < hi <= KERNBASE
    requires OnTrack(m0, d, p, q, i, j) && Freed(m0, m, d, p, q, Address(i, j))
    requires forall k, l {:trigger PageAt(m', d, k, l)} ::
      PageAt(m', d, k, l) == if k == i && l == j then Absent else PageAt(m, d, k, l)
    requires if EntryOf(m0, d, i).Absent? then i' == i + 1 && j' == j
      else if j + 1 < NENTRIES then i' == i && j' == j + 1 else i' == i + 1 && j' == 0
    ensures Freed(m0, m', d, p, q, if Address(i', j') < hi then Address(i', j') else hi)
    ensures Address(i', j') < hi ==> OnTrack(m0, d, p, q, i', j')
  {
    var first := FirstTable(m0, d, p);
    forall k, l | 0 <= k < USERDIRS && 0 <= l < NENTRIES
      ensures PageAt(m', d, k, l) ==
        if Address(p, q) <= Address(k, l) < Address(i', j') && Address(k, l) < hi && !Missed(m0, d, p, q, k, l)
          then Absent
        else PageAt(m0, d, k, l)
    {
      assert PageAt(m, d, k, l) == PageAt(m, d, k, l);
      assert EntryOf(m0, d, k).Absent? ==> PageAt(m0, d, k, l).Absent?;
    }
  }

  /** Pages are a page apart, and parts a part. */
  lemma PagesApart(p: int, q: int, i: int, j: int)
    requires 0 <= q < NENTRIES && 0 <= j < NENTRIES
    ensures Address(i, j) < Address(p, q) || Address(i, j) >= Address(p, q) + PGSIZE || (i == p && j == q)
    ensures q == 0 && Address(p, q) <= Address(i, j) < Address(p, q) + SPAN ==> i == p
  {}

  lemma PassedPage(a: int, i: int, j: int)
    requires 0 <= a && a % PGSIZE == 0 && 0 <= i && 0 <= j < NENTRIES
    ensures Address(i, j) < a || Address(i, j) >= a + PGSIZE || (i == PartOf(a) && j == IndexOf(a))
    ensures a % SPAN == 0 && a <= Address(i, j) < a + SPAN ==> i == PartOf(a)
  {
    AddressOfPage(a);
    PagesApart(PartOf(a), IndexOf(a), i, j);
    if a % SPAN == 0 {
      assert a == PartOf(a) * SPAN;
    }
  }

  lemma NextPage(a: int)
    requires 0 <= a && a % PGSIZE == 0
    ensures PartOf(a + SPAN) == PartOf(a) + 1 && IndexOf(a + SPAN) == IndexOf(a)
    ensures IndexOf(a) + 1 < NENTRIES ==> PartOf(a + PGSIZE) == PartOf(a) && IndexOf(a + PGSIZE) == IndexOf(a) + 1
    ensures IndexOf(a) + 1 == NENTRIES ==> PartOf(a + PGSIZE) == PartOf(a) + 1 && IndexOf(a + PGSIZE) == 0
    ensures (a + SPAN) % PGSIZE == 0 && (a + PGSIZE) % PGSIZE == 0
  {
    AddressOfPage(a);
    var i, j := PartOf(a), IndexOf(a);
    PageOfAddress(i + 1, j);
    if j + 1 < NENTRIES {
      PageOfAddress(i, j + 1);
    } else {
      PageOfAddress(i + 1, 0);
    }
    assert a + SPAN == Address(i + 1, j) && a + PGSIZE == if j + 1 < NENTRIES
      then Address(i, j + 1)
      else Address(i + 1, 0);
  }

  lemma RoundUpIsPage(a: int)
    requires 0 <= a
    ensures RoundUp(a) % PGSIZE == 0 && a <= RoundUp(a) < a + PGSIZE
  {}

  /** freevm's loop: the tables of the first `k` parts are freed too. */
  ghost predicate TablesFreed(m1: Mem, d: int, owner: map<int, Role>, m: Mem, k: int) {
    && (forall f {:trigger f in m.free} ::
         f in m.free <==> f in m1.free || (f in owner && owner[f].Table? && 0 <= owner[f].i < k))
    && d in m.tables && d in m1.tables && m.tables[d] == m1.tables[d]
    && (forall f {:trigger f in m.tables} | f !in owner ::
         (f in m.tables <==> f in m1.tables) && (f in m.tables ==> m.tables[f] == m1.tables[f]))
    && m.data == m1.data
  }

  /** Without user pages, a space is its directory and its tables. */
  lemma OnlyTables(m: Mem, d: int, owner: map<int, Role>)
    requires Space(m, d, owner) && forall i, j | 0 <= i < USERDIRS && 0 <= j < NENTRIES :: PageAt(m, d, i, j).Absent?
    ensures forall f | f in owner :: f == d || (owner[f].Table? && 0 <= owner[f].i < NENTRIES)
  {}

  lemma DirectoryOf(m: Mem, d: int, owner: map<int, Role>)
    requires Space(m, d, owner)
    ensures d in m.tables && forall f | f in owner && owner[f].Table? :: 0 <= owner[f].i
  {}

  /** So after the loop the directory is what is left to free, of all the space had. */
  lemma DirectoryIsLeft(m0: Mem, d: int, owner: map<int, Role>, m1: Mem, owner1: map<int, Role>, m: Mem)
    requires Space(m0, d, owner) && Space(m1, d, owner1) && Shrunk(m0, owner, m1, owner1)
    requires forall i, j | 0 <= i < USERDIRS && 0 <= j < NENTRIES :: PageAt(m1, d, i, j).Absent?
    requires TablesFreed(m1, d, owner1, m, NENTRIES)
    ensures d !in m.free && m.free + {d} == m0.free + owner.Keys
    ensures forall f | f !in owner ::
      (f in m.tables <==> f in m0.tables) && (f in m.tables ==> m.tables[f] == m0.tables[f])
    ensures forall f | f !in owner :: (f in m.data <==> f in m0.data) && (f in m.data ==> m.data[f] == m0.data[f])
    ensures d in owner
  {
    OnlyTables(m1, d, owner1);
    hide PageAt, EntryOf;
    assert d in owner1 && owner1[d] == Directory && owner1.Keys <= owner.Keys;
    forall f
      ensures f in m.free + {d} <==> f in m0.free + owner.Keys
    {
      assert f in owner1 || f in owner1.Keys || f !in owner1;
    }
  }

  lemma AllPagesGone(m0: Mem, m: Mem, d: int)
    requires Freed(m0, m, d, 0, 0, KERNBASE)
    ensures forall i, j | 0 <= i < USERDIRS && 0 <= j < NENTRIES :: PageAt(m, d, i, j).Absent?
  {
    forall i, j | 0 <= i < USERDIRS && 0 <= j < NENTRIES
      ensures PageAt(m, d, i, j).Absent?
    {
      assert 0 <= Address(i, j) < KERNBASE;
    }
  }

  // ---- what copying a space does to the rest ----

  /** A new space's frames were free, and frames in use before are as they were. */
  ghost predicate Grew(m0: Mem, m: Mem, owner: map<int, Role>) {
    && owner.Keys <= m0.free && m.free <= m0.free
    && (forall f {:trigger f in m.tables} {:trigger f in m0.tables} | f !in m0.free ::
         (f in m.tables <==> f in m0.tables) && (f in m.tables ==> m.tables[f] == m0.tables[f]))
    && (forall f {:trigger f in m.data} {:trigger f in m0.data} | f !in m0.free ::
         (f in m.data <==> f in m0.data) && (f in m.data ==> m.data[f] == m0.data[f]))
  }

  /** So an address space that was there before is there still, page by page. */
  lemma GrownElsewhere(m0: Mem, m: Mem, owner: map<int, Role>, p: int, powner: map<int, Role>)
    requires Space(m0, p, powner) && Grew(m0, m, owner)
    ensures Space(m, p, powner) && powner.Keys !! owner.Keys && owner.Keys <= m0.free
    ensures forall f | f in powner && f in m0.data :: f in m.data && m.data[f] == m0.data[f]
    ensures forall i, j :: PageAt(m, p, i, j) == PageAt(m0, p, i, j)
    ensures forall i :: EntryOf(m, p, i) == EntryOf(m0, p, i)
  {
    SpaceElsewhere(m0, m, p, powner);
    forall f | f in powner.Keys
      ensures f !in owner.Keys
    {
      assert f in powner;
    }
  }

  /** The pages of `d` below address `a` hold the bytes, and have the flags, that those
      of `p` did in `m0`; above it there are none. */
  ghost predicate CopiedTo(m0: Mem, p: int, m: Mem, d: int, a: int) {
    forall i, j {:trigger PageAt(m, d, i, j)} | 0 <= i < USERDIRS && 0 <= j < NENTRIES ::
      if Address(i, j) < a then SamePage(m0, PageAt(m0, p, i, j), m, PageAt(m, d, i, j)) else PageAt(m, d, i, j).Absent?
  }

  ghost predicate SamePage(m0: Mem, e0: Pte, m: Mem, e: Pte) {
    e0.To? && e.To? && e.flags == e0.flags && e0.frame in m0.data && e.frame in m.data &&
      m.data[e.frame] == m0.data[e0.frame]
  }

  /** All user pages below `sz` are there. */
  ghost predicate Present(m: Mem, d: int, sz: int) {
    forall i, j {:trigger PageAt(m, d, i, j)} | 0 <= i < USERDIRS && 0 <= j < NENTRIES && Address(i, j) < sz ::
      PageAt(m, d, i, j).To?
  }

  /** Filling a frame nobody has does not touch the spaces. */
  lemma CopyStart(m0: Mem, m: Mem, m': Mem, d: int, owner: map<int, Role>, f: int)
    requires Space(m, d, owner) && Grew(m0, m, owner) && f in m0.free && f !in owner
    requires m'.tables == m.tables && m'.free <= m.free && f in m'.data && m'.data == m.data[f := m'.data[f]]
    ensures Space(m', d, owner) && Grew(m0, m', owner)
    ensures forall i, j :: PageAt(m', d, i, j) == PageAt(m, d, i, j)
    ensures forall i :: EntryOf(m', d, i) == EntryOf(m, d, i)
  {
    SpaceElsewhere(m, m', d, owner);
  }

  lemma FreeIsNobodys(m0: Mem, m: Mem, d: int, owner: map<int, Role>, f: int)
    requires Space(m, d, owner) && Grew(m0, m, owner) && f in m.free
    ensures f !in owner && f in m0.free
  {}

  /** A page of an old space, as copyuvm finds it. */
  lemma OldPage(m0: Mem, m: Mem, p: int, powner: map<int, Role>, owner: map<int, Role>, i: int, j: int)
    requires Space(m0, p, powner) && Grew(m0, m, owner) && 0 <= i < USERDIRS && 0 <= j < NENTRIES
    requires PageAt(m0, p, i, j).To?
    ensures p in m.tables && |m.tables[p]| == NENTRIES && m.tables[p][i].To?
    ensures m.tables[p][i].frame in m.tables && |m.tables[m.tables[p][i].frame]| == NENTRIES
    ensures m.tables[m.tables[p][i].frame][j] == PageAt(m0, p, i, j)
    ensures PageAt(m0, p, i, j).frame in m0.data && PageAt(m0, p, i, j).frame in m.data
    ensures m.data[PageAt(m0, p, i, j).frame] == m0.data[PageAt(m0, p, i, j).frame]
  {
    GrownElsewhere(m0, m, owner, p, powner);
    assert EntryOf(m, p, i).To? && PageAt(m, p, i, j) == PageAt(m0, p, i, j);
    assert EntryOf(m, p, i).frame in powner && PageAt(m0, p, i, j).frame in powner;
  }

  lemma PageIsPresent(m: Mem, d: int, sz: int, a: int)
    requires Present(m, d, sz) && 0 <= a < sz <= KERNBASE && a % PGSIZE == 0
    ensures PageAt(m, d, PartOf(a), IndexOf(a)).To?
  {
    UserPage(a);
  }

  lemma CopiedNothing(m0: Mem, p: int, m: Mem, d: int)
    ensures CopiedTo(m0, 0, m, d, 0) ==> CopiedTo(m0, p, m, d, 0)
  {}

  lemma CopyEnds(m0: Mem, p: int, m: Mem, d: int, i: int, j: int)
    requires CopiedTo(m0, p, m, d, Address(i, j)) && 0 <= i < USERDIRS && 0 <= j < NENTRIES
    ensures PageAt(m, d, i, j).Absent?
  {}

  lemma CopiedFurther(m0: Mem, p: int, m: Mem, m': Mem, d: int, owner: map<int, Role>, a: int, f: int, e0: Pte)
    requires 0 <= a < KERNBASE && a % PGSIZE == 0 && CopiedTo(m0, p, m, d, a) && Space(m, d, owner) && f !in owner
    requires e0 == PageAt(m0, p, PartOf(a), IndexOf(a)) && e0.To? && e0.frame in m0.data
    requires m'.data == m.data[f := m0.data[e0.frame]]
    requires forall i, j | i < USERDIRS ::
      PageAt(m', d, i, j) == if i == PartOf(a) && j == IndexOf(a) then To(f, e0.flags) else PageAt(m, d, i, j)
    ensures CopiedTo(m0, p, m', d, a + PGSIZE)
  {
    AddressOfPage(a);
    forall i, j | 0 <= i < USERDIRS && 0 <= j < NENTRIES
      ensures if Address(i, j) < a + PGSIZE
        then SamePage(m0, PageAt(m0, p, i, j), m', PageAt(m', d, i, j))
        else PageAt(m', d, i, j).Absent?
    {
      PassedPage(a, i, j);
      assert PageAt(m', d, i, j) == if i == PartOf(a) && j == IndexOf(a) then To(f, e0.flags) else PageAt(m, d, i, j);
    }
  }

  // ---- how many frames it takes ----

  /** The page tables of the first `k` parts of the kernel. */
  function KernelTables(kernel: seq<Option<seq<Pte>>>, k: nat): nat
    requires k <= |kernel|
  {
    if k == 0 then 0 else KernelTables(kernel, k - 1) + if kernel[k - 1].Some? then 1 else 0
  }

  lemma {:induction false} KernelTablesGrow(kernel: seq<Option<seq<Pte>>>, j: nat, k: nat)
    requires j <= k <= |kernel|
    ensures KernelTables(kernel, j) <= KernelTables(kernel, k)
  {
    if j < k {
      KernelTablesGrow(kernel, j, k - 1);
    }
  }

  /** What copyuvm takes for the pages below `a` and their tables. */
  function CopyFrames(a: int): int {
    a / PGSIZE + (a + SPAN - 1) / SPAN
  }

  lemma CopyFramesAt(i: int, j: int)
    requires 0 <= i && 0 <= j < NENTRIES
    ensures CopyFrames(Address(i, j)) == (NENTRIES + 1) * i + j + if j == 0 then 0 else 1
  {
    assert Address(i, j) == PGSIZE * (i * NENTRIES + j);
    PageQuotient(i * NENTRIES + j);
    if j == 0 {
      PartQuotient(i, SPAN - 1);
    } else {
      PartQuotient(i + 1, j * PGSIZE - 1);
    }
  }

  lemma PageQuotient(q: int)
    ensures PGSIZE * q / PGSIZE == q
  {}

  lemma PartQuotient(q: int, r: int)
    requires 0 <= r < SPAN
    ensures (SPAN * q + r) / SPAN == q
  {}

  lemma FullRemainder(q: int, r: int)
    requires 0 <= r <= NENTRIES
    ensures ((NENTRIES + 1) * q + r) % (NENTRIES + 1) == r
  {}

  lemma CopyFramesMore(a: int)
    requires 0 <= a && a % PGSIZE == 0
    ensures CopyFrames(a + PGSIZE) == CopyFrames(a) + 1 + if IndexOf(a) == 0 then 1 else 0
  {
    AddressOfPage(a);
    var i, j := PartOf(a), IndexOf(a);
    CopyFramesAt(i, j);
    if j + 1 < NENTRIES {
      CopyFramesAt(i, j + 1);
      assert a + PGSIZE == Address(i, j + 1);
    } else {
      CopyFramesAt(i + 1, 0);
      assert a + PGSIZE == Address(i + 1, 0);
    }
  }

  lemma CopyFramesGrow(a: int, b: int)
    requires 0 <= a <= b
    ensures CopyFrames(0) == 0 && CopyFrames(a) <= CopyFrames(b)
  {
    Multiples(a, b, PGSIZE);
    Multiples(a + SPAN - 1, b + SPAN - 1, SPAN);
  }

  lemma Multiples(a: int, b: int, k: int)
    requires 0 <= a <= b && 0 < k
    ensures a / k <= b / k
  {
    Times(b / k + 1, a / k, k);
  }

  lemma Times(x: int, y: int, k: int)
    ensures x <= y && 0 < k ==> x * k <= y * k
  {}

  /** With `left` frames copyuvm stops at page `a`: for want of the page's own frame, or,
      exactly if one frame is left over after a number of full tables, for want of its table. */
  lemma StopsForTable(a: int, left: int)
    requires 0 <= a && a % PGSIZE == 0 && CopyFrames(a) <= left < CopyFrames(a + PGSIZE)
    ensures left == CopyFrames(a) + 1 <==> left % (NENTRIES + 1) == 1
  {
    CopyFramesMore(a);
    AddressOfPage(a);
    var i, j := PartOf(a), IndexOf(a);
    CopyFramesAt(i, j);
    var r := left - (NENTRIES + 1) * i;
    FullRemainder(i, r);
    assert left % (NENTRIES + 1) == r;
  }

  /** The first page that copyuvm cannot be given a table for: its frame is lost. */
  lemma OneFrameIsLost(kernel: seq<Option<seq<Pte>>>, free: int, sz: int)
    requires |kernel| == NENTRIES && free == 1 + KernelTables(kernel, NENTRIES) + 1 && 0 < sz
    ensures free < 1 + KernelTables(kernel, NENTRIES) + CopyFrames(RoundUp(sz))
    ensures (free - 1 - KernelTables(kernel, NENTRIES)) % (NENTRIES + 1) == 1
  {
    RoundUpIsPage(sz);
    CopyFramesGrow(PGSIZE, RoundUp(sz));
  }

  lemma DirectoryEntry(m: Mem, d: int, owner: map<int, Role>, i: int)
    requires Space(m, d, owner) && 0 <= i < NENTRIES
    ensures d in m.tables && |m.tables[d]| == NENTRIES && EntryOf(m, d, i) == m.tables[d][i]
  {}

  /** The kernel's parts below `k` are mapped as it demands, table by table and page by page. */
  ghost predicate KernelIn(kernel: seq<Option<seq<Pte>>>, m: Mem, d: int, k: int)
    requires |kernel| == NENTRIES
  {
    && (forall i {:trigger EntryOf(m, d, i)} | USERDIRS <= i < k && i < NENTRIES ::
         EntryOf(m, d, i).To? <==> kernel[i].Some?)
    && (forall i, j {:trigger PageAt(m, d, i, j)} | USERDIRS <= i < k && i < NENTRIES && 0 <= j < NENTRIES ::
         PageAt(m, d, i, j) == if kernel[i].Some? && j < |kernel[i].value| then kernel[i].value[j] else Absent)
  }

  /** So the tables are the kernel's. */
  lemma KernelTablesAreIn(kernel: seq<Option<seq<Pte>>>, m: Mem, d: int, owner: map<int, Role>)
    requires |kernel| == NENTRIES && Space(m, d, owner) && KernelIn(kernel, m, d, NENTRIES)
    requires forall i | 0 <= i < NENTRIES && kernel[i].Some? :: |kernel[i].value| == NENTRIES
    ensures forall i | USERDIRS <= i < NENTRIES ::
      && (EntryOf(m, d, i).To? <==> kernel[i].Some?)
      && (kernel[i].Some? ==>
           EntryOf(m, d, i).frame in m.tables && m.tables[EntryOf(m, d, i).frame] == kernel[i].value)
  {
    forall i | USERDIRS <= i < NENTRIES && kernel[i].Some?
      ensures EntryOf(m, d, i).frame in m.tables && m.tables[EntryOf(m, d, i).frame] == kernel[i].value
    {
      var t := EntryOf(m, d, i).frame;
      assert Formed(m, t);
      forall j | 0 <= j < NENTRIES
        ensures m.tables[t][j] == kernel[i].value[j]
      {
        assert PageAt(m, d, i, j) == m.tables[t][j];
      }
    }
  }

  /** Parts and pages from KERNBASE up are as before. */
  ghost predicate KernelSame(m: Mem, m': Mem, d: int) {
    && (forall i {:trigger EntryOf(m', d, i)} | USERDIRS <= i :: EntryOf(m', d, i) == EntryOf(m, d, i))
    && (forall i, j {:trigger PageAt(m', d, i, j)} | USERDIRS <= i :: PageAt(m', d, i, j) == PageAt(m, d, i, j))
  }

  lemma KernelStays(kernel: seq<Option<seq<Pte>>>, m: Mem, m': Mem, d: int, k: int)
    requires |kernel| == NENTRIES && KernelIn(kernel, m, d, k) && KernelSame(m, m', d)
    ensures KernelIn(kernel, m', d, k)
  {}

  lemma KernelOneMore(kernel: seq<Option<seq<Pte>>>, m: Mem, m': Mem, d: int, k: int)
    requires |kernel| == NENTRIES && 0 <= k < NENTRIES && KernelIn(kernel, m, d, k)
    requires kernel[k].Some? ==> k >= USERDIRS && |kernel[k].value| == NENTRIES
    requires forall i | i != k :: EntryOf(m', d, i) == EntryOf(m, d, i)
    requires forall i, j | i != k :: PageAt(m', d, i, j) == PageAt(m, d, i, j)
    requires EntryOf(m', d, k).To? <==> kernel[k].Some?
    requires kernel[k].Some? ==> forall j | 0 <= j < NENTRIES :: PageAt(m', d, k, j) == kernel[k].value[j]
    ensures KernelIn(kernel, m', d, k + 1)
  {}

  /** A space that grows from `m0`, with the kernel's tables for its first `k` parts. */
  ghost predicate PartMapped(kernel: seq<Option<seq<Pte>>>, m0: Mem, m: Mem, d: int, owner: map<int, Role>, k: int,
                             taken: int) {
    && 0 <= k <= |kernel|
    && Space(m, d, owner) && Grew(m0, m, owner) && m.free == m0.free - owner.Keys && m.data == m0.data
    && (forall i {:trigger EntryOf(m, d, i)} | k <= i || i < USERDIRS :: EntryOf(m, d, i).Absent?)
    && |kernel| == NENTRIES && KernelIn(kernel, m, d, k)
    && taken == 1 + KernelTables(kernel, k)
  }

  lemma KernelMapped(kernel: seq<Option<seq<Pte>>>, m0: Mem, m: Mem, d: int, owner: map<int, Role>, taken: int)
    requires |kernel| == NENTRIES && PartMapped(kernel, m0, m, d, owner, NENTRIES, taken)
    ensures Grew(m0, m, owner) && m.data == m0.data && Space(m, d, owner) && m.free == m0.free - owner.Keys
    ensures KernelIn(kernel, m, d, NENTRIES)
    ensures CopiedTo(m0, 0, m, d, 0) && TablesBelow(m, d, 0) && taken == 1 + KernelTables(kernel, NENTRIES)
  {
    forall i, j | 0 <= i < USERDIRS
      ensures PageAt(m, d, i, j).Absent?
    {
      assert EntryOf(m, d, i).Absent?;
    }
  }

  /** The parts that have a table once the pages below `a` are there. */
  ghost predicate TablesBelow(m: Mem, d: int, a: int) {
    forall k {:trigger EntryOf(m, d, k)} | 0 <= k < USERDIRS :: EntryOf(m, d, k).To? <==> Address(k, 0) < a
  }

  lemma TablesOneMore(m: Mem, m': Mem, d: int, a: int)
    requires TablesBelow(m, d, a) && 0 <= a < KERNBASE && a % PGSIZE == 0 && EntryOf(m', d, PartOf(a)).To?
    requires forall k | k != PartOf(a) :: EntryOf(m', d, k) == EntryOf(m, d, k)
    ensures TablesBelow(m', d, a + PGSIZE)
  {
    AddressOfPage(a);
  }

  lemma TableIsBelow(m: Mem, d: int, a: int)
    requires TablesBelow(m, d, a) && 0 <= a < KERNBASE && a % PGSIZE == 0
    ensures EntryOf(m, d, PartOf(a)).To? <==> IndexOf(a) != 0
  {
    AddressOfPage(a);
  }

  /** Does page `b`, of pages added from `lo` on, need a new table? */
  predicate NewTable(m: Mem, d: int, lo: int, b: int) {
    (b == lo || IndexOf(b) == 0) && EntryOf(m, d, PartOf(b)).Absent?
  }

  /** What allocuvm takes for the pages from `lo` up to `a`. */
  function AllocFrames(m: Mem, d: int, lo: int, a: int): nat
    decreases a - lo
  {
    if a <= lo then 0
    else AllocFrames(m, d, lo, a - PGSIZE) + 1 + if NewTable(m, d, lo, a - PGSIZE) then 1 else 0
  }

  lemma {:induction false} AllocFramesGrow(m: Mem, d: int, lo: int, a: int, n: nat)
    ensures AllocFrames(m, d, lo, a) <= AllocFrames(m, d, lo, a + n * PGSIZE)
  {
    if n > 0 {
      AllocFramesGrow(m, d, lo, a, n - 1);
      assert a + n * PGSIZE - PGSIZE == a + (n - 1) * PGSIZE;
    }
  }

  /** The parts that have a table once pages have been added from `lo` up to `a`. */
  ghost predicate TablesAdded(m0: Mem, m: Mem, d: int, lo: int, a: int) {
    forall k {:trigger EntryOf(m, d, k)} | 0 <= k < USERDIRS ::
      EntryOf(m, d, k).To? <==> EntryOf(m0, d, k).To? || (lo < a && PartOf(lo) <= k && Address(k, 0) < a)
  }

  /** allocuvm has taken what the pages up to `a` take, or all there was: of `n0` frames `n`
      are left. */
  ghost predicate Counted(m0: Mem, m: Mem, d: int, lo: int, a: int, hole: bool, n0: int, n: int) {
    if !hole then TablesAdded(m0, m, d, lo, a) && n == n0 - AllocFrames(m0, d, lo, a)
    else n == 0 && n0 == AllocFrames(m0, d, lo, a) - 1 && lo < a && NewTable(m0, d, lo, a - PGSIZE)
  }

  /** Whether the next page needs a table, and that there is nothing left once a frame is lost. */
  lemma CountedTables(m0: Mem, m: Mem, d: int, lo: int, a: int, hole: bool, n0: int, n: int)
    requires Counted(m0, m, d, lo, a, hole, n0, n) && 0 <= lo <= a < KERNBASE && a % PGSIZE == 0
    ensures if !hole then EntryOf(m, d, PartOf(a)).To? <==> !NewTable(m0, d, lo, a) else n == 0
  {
    if !hole {
      TableIsNew(m0, m, d, lo, a);
    }
  }

  lemma CountedMore(m0: Mem, m: Mem, m': Mem, d: int, lo: int, a: int, ok: bool, n0: int, n: nat, n': nat)
    requires Counted(m0, m, d, lo, a, false, n0, n) && 0 <= lo <= a < KERNBASE && a % PGSIZE == 0 && n > 0
    requires ok == (EntryOf(m, d, PartOf(a)).To? || n > 1)
    requires n' == n - 1 - if ok && EntryOf(m, d, PartOf(a)).Absent? then 1 else 0
    requires ok ==> EntryOf(m', d, PartOf(a)).To? && forall k | k != PartOf(a) :: EntryOf(m', d, k) == EntryOf(m, d, k)
    ensures Counted(m0, m', d, lo, a + PGSIZE, !ok, n0, n')
  {
    TableIsNew(m0, m, d, lo, a);
    if ok {
      TablesAddedMore(m0, m, m', d, lo, a);
    }
    assert AllocFrames(m0, d, lo, a + PGSIZE) == AllocFrames(m0, d, lo, a) + 1 + if NewTable(m0, d, lo, a)
      then 1
      else 0;
  }

  lemma TableIsNew(m0: Mem, m: Mem, d: int, lo: int, a: int)
    requires TablesAdded(m0, m, d, lo, a) && 0 <= lo <= a < KERNBASE && a % PGSIZE == 0
    ensures EntryOf(m, d, PartOf(a)).To? <==> !NewTable(m0, d, lo, a)
  {
    AddressOfPage(a);
  }

  lemma TablesAddedMore(m0: Mem, m: Mem, m': Mem, d: int, lo: int, a: int)
    requires TablesAdded(m0, m, d, lo, a) && 0 <= lo <= a < KERNBASE && a % PGSIZE == 0 && EntryOf(m', d, PartOf(a)).To?
    requires forall k | k != PartOf(a) :: EntryOf(m', d, k) == EntryOf(m, d, k)
    ensures TablesAdded(m0, m', d, lo, a + PGSIZE)
  {
    AddressOfPage(a);
    forall k | 0 <= k < USERDIRS
      ensures EntryOf(m', d, k).To? <==> EntryOf(m0, d, k).To? || (PartOf(lo) <= k && Address(k, 0) < a + PGSIZE)
    {
      assert Address(k, 0) < a + PGSIZE <==> Address(k, 0) < a || (k == PartOf(a) && IndexOf(a) == 0);
      assert lo == a ==> (PartOf(lo) <= k && Address(k, 0) < a + PGSIZE <==> k == PartOf(a));
    }
  }

  /** `n` frames are enough for the pages from `lo` to `hi`, but perhaps for the last one's table. */
  predicate Affordable(m: Mem, d: int, lo: int, hi: int, n: int) {
    hi <= lo || n > AllocFrames(m, d, lo, hi - PGSIZE)
  }

  predicate LastTableMissing(m: Mem, d: int, lo: int, hi: int, n: int) {
    lo < hi && NewTable(m, d, lo, hi - PGSIZE) && n == AllocFrames(m, d, lo, hi - PGSIZE) + 1
  }

  lemma WasAffordable(m0: Mem, m: Mem, d: int, lo: int, a: int, hi: int, hole: bool, n0: int, n: nat)
    requires Counted(m0, m, d, lo, a, hole, n0, n) && (if lo < a then a == hi else hi <= lo == a)
    ensures Affordable(m0, d, lo, hi, n0) && (hole <==> LastTableMissing(m0, d, lo, hi, n0))
  {}

  lemma NotAffordable(m0: Mem, m: Mem, d: int, lo: int, a: int, hi: int, hole: bool, n0: int)
    requires Counted(m0, m, d, lo, a, hole, n0, 0) && lo <= a < hi && a % PGSIZE == 0 && hi % PGSIZE == 0
    ensures !Affordable(m0, d, lo, hi, n0)
  {
    var n := (hi - PGSIZE - a) / PGSIZE;
    assert hi - PGSIZE == a + n * PGSIZE;
    AllocFramesGrow(m0, d, lo, a, n);
  }

  // ---- growing an address space ----

  function ZeroPage(): (p: seq<int>)
    ensures |p| == PGSIZE && forall k | 0 <= k < PGSIZE :: p[k] == 0
  {
    seq(PGSIZE, k => 0)
  }

  ghost predicate NewPage(m0: Mem, m: Mem, e: Pte) {
    && e.To? && e.flags == WU && e.frame in m0.free && e.frame in m.data
    && |m.data[e.frame]| == PGSIZE && forall k | 0 <= k < PGSIZE :: m.data[e.frame][k] == 0
  }

  /** From `lo` up to `hi` there are zeroed pages in frames that were free, but for the last
      of them if that was left out; all other pages are as before. */
  ghost predicate Filled(m0: Mem, m: Mem, d: int, lo: int, hi: int, hole: bool) {
    forall i, j {:trigger PageAt(m, d, i, j)} | 0 <= i < USERDIRS && 0 <= j < NENTRIES ::
      if !(lo <= Address(i, j) < hi) then PageAt(m, d, i, j) == PageAt(m0, d, i, j)
      else if hole && Address(i, j) == hi - PGSIZE then PageAt(m, d, i, j).Absent?
      else NewPage(m0, m, PageAt(m, d, i, j))
  }

  ghost predicate Unmapped(m: Mem, d: int, lo: int, hi: int) {
    forall i, j {:trigger PageAt(m, d, i, j)} | 0 <= i < USERDIRS && 0 <= j < NENTRIES && lo <= Address(i, j) < hi ::
      PageAt(m, d, i, j).Absent?
  }

  ghost predicate SameUserPages(m0: Mem, m: Mem, d: int) {
    forall i, j {:trigger PageAt(m, d, i, j)} | 0 <= i < USERDIRS && 0 <= j < NENTRIES ::
      PageAt(m, d, i, j) == PageAt(m0, d, i, j)
  }

  lemma UnmappedPage(m: Mem, d: int, lo: int, hi: int, a: int)
    requires Unmapped(m, d, lo, hi) && 0 <= a < KERNBASE && lo <= a < hi && a % PGSIZE == 0
    ensures PageAt(m, d, PartOf(a), IndexOf(a)).Absent?
  {
    UserPage(a);
  }

  /** A space that has been given frames that were free; the frames in `lost` nobody has. */
  ghost predicate Given(m0: Mem, m: Mem, d: int, owner0: map<int, Role>, owner: map<int, Role>, lost: set<int>) {
    && Space(m, d, owner) && Grew(m0.(free := m0.free + owner0.Keys), m, owner)
    && m.free == m0.free - owner.Keys - lost && lost !! owner.Keys && |lost| <= 1 && KernelSame(m0, m, d)
    && forall f {:trigger f in m.data} {:trigger f in m0.data} | f in owner0 && f in m0.data ::
         f in m.data && m.data[f] == m0.data[f]
  }

  lemma GivenSpace(m0: Mem, m: Mem, d: int, owner0: map<int, Role>, owner: map<int, Role>, lost: set<int>)
    requires Given(m0, m, d, owner0, owner, lost)
    ensures Space(m, d, owner) && Grew(m0.(free := m0.free + owner0.Keys), m, owner) && m.free <= m0.free
  {}

  /** One frame more, mapped or not. */
  lemma GivenMore(m0: Mem, m: Mem, m': Mem, d: int, owner0: map<int, Role>, owner: map<int, Role>,
                  owner': map<int, Role>, f: int, ok: bool)
    requires Space(m0, d, owner0) && Given(m0, m, d, owner0, owner, {}) && f in m.free
    requires m'.data == m.data[f := ZeroPage()]
    requires Space(m', d, owner') && Grew(m0.(free := m0.free + owner0.Keys), m', owner')
    requires owner.Keys <= owner'.Keys <= owner.Keys + m.free && (if ok then f in owner' else owner' == owner)
    requires m'.free == m.free - {f} - (owner'.Keys - owner.Keys) && KernelSame(m, m', d)
    ensures Given(m0, m', d, owner0, owner', if ok then {} else {f})
  {
    assert forall g | g in owner0 :: g !in m0.free;
  }

  lemma FilledEnds(m0: Mem, m: Mem, d: int, lo: int, a: int, hole: bool)
    requires Filled(m0, m, d, lo, a, hole) && 0 <= a < KERNBASE && a % PGSIZE == 0
    ensures PageAt(m, d, PartOf(a), IndexOf(a)) == PageAt(m0, d, PartOf(a), IndexOf(a))
  {
    UserPage(a);
  }

  lemma FilledFurther(m0: Mem, m: Mem, m': Mem, d: int, owner: map<int, Role>, lo: int, a: int, f: int)
    requires Space(m, d, owner) && Filled(m0, m, d, lo, a, false) && 0 <= lo <= a && a % PGSIZE == 0
    requires PageAt(m0, d, PartOf(a), IndexOf(a)).Absent?
    requires f !in owner && f in m0.free && m'.data == m.data[f := ZeroPage()]
    ensures (forall i, j | i < USERDIRS ::
      PageAt(m', d, i, j) == if i == PartOf(a) && j == IndexOf(a) then To(f, WU) else PageAt(m, d, i, j))
      ==> Filled(m0, m', d, lo, a + PGSIZE, false)
    ensures (forall i, j | i < USERDIRS :: PageAt(m', d, i, j) == PageAt(m, d, i, j)) ==>
      Filled(m0, m', d, lo, a + PGSIZE, true)
  {
    AddressOfPage(a);
    forall i, j | 0 <= i < USERDIRS && 0 <= j < NENTRIES
      ensures Address(i, j) < a || Address(i, j) >= a + PGSIZE || (i == PartOf(a) && j == IndexOf(a))
      ensures Address(i, j) < a ==> Address(i, j) <= a - PGSIZE
      ensures PageAt(m, d, i, j).To? ==> PageAt(m, d, i, j).frame in owner
    {
      PassedPage(a, i, j);
      PageOfAddress(i, j);
    }
  }

  lemma FilledTo(m0: Mem, m: Mem, d: int, lo: int, a: int, sz: int, hole: bool)
    requires Filled(m0, m, d, lo, a, hole) && a % PGSIZE == 0 && sz <= a && (a == lo || a - PGSIZE < sz)
    requires hole ==> lo < a
    ensures Filled(m0, m, d, lo, RoundUp(sz), hole)
  {
    Rounded(a, sz);
  }

  lemma Rounded(a: int, sz: int)
    requires a % PGSIZE == 0 && sz <= a
    ensures RoundUp(sz) <= a && (a - PGSIZE < sz ==> RoundUp(sz) == a)
  {}

  lemma GivenNothing(m: Mem, d: int, owner: map<int, Role>, lo: int)
    requires Space(m, d, owner)
    ensures Given(m, m, d, owner, owner, {}) && Filled(m, m, d, lo, lo, false)
    ensures forall n :: Counted(m, m, d, lo, lo, false, n, n)
  {
    assert forall f | f in owner :: f !in m.free;
  }

  /** deallocuvm undoes all of it: if it might miss a page, none has been mapped. */
  lemma FilledUndone(m0: Mem, m1: Mem, m2: Mem, d: int, p: nat, q: int, a: int, hi: int, hole: bool)
    requires Filled(m0, m1, d, Address(p, q), a, hole) && 0 <= q < NENTRIES && Address(p, q) <= a < hi <= KERNBASE
    requires a % PGSIZE == 0
    requires hole ==> Address(p, q) < a
    requires Unmapped(m0, d, Address(p, q), hi)
    requires Freed(m1, m2, d, p, q, hi)
    ensures SameUserPages(m0, m2, d)
  {
    forall i, j | 0 <= i < USERDIRS && 0 <= j < NENTRIES
      ensures PageAt(m2, d, i, j) == PageAt(m0, d, i, j)
    {
      assert PageAt(m0, d, i, j) == PageAt(m0, d, i, j) && PageAt(m1, d, i, j) == PageAt(m1, d, i, j);
      if Missed(m1, d, p, q, i, j) {
        assert EntryOf(m1, d, p).Absent?;
        assert PageAt(m1, d, p, q).Absent?;
        PagesApart(p, q, i, j);
      }
    }
  }

  /** What was freed in undoing it had been free before. */
  lemma GivenBack(m0: Mem, m1: Mem, m2: Mem, d: int, owner0: map<int, Role>, owner1: map<int, Role>,
                  owner2: map<int, Role>, lost: set<int>, lo: int, a: int, hole: bool)
    requires Space(m0, d, owner0) && Given(m0, m1, d, owner0, owner1, lost) && Filled(m0, m1, d, lo, a, hole)
    requires Space(m2, d, owner2) && Shrunk(m1, owner1, m2, owner2) && PagesGone(m1, m2, d)
    requires SameUserPages(m0, m2, d)
    ensures Given(m0, m2, d, owner0, owner2, lost)
  {
    forall f | f in owner1
      ensures f in owner2 || f in m0.free
    {
      assert d in owner2;
      match owner1[f]
      case Directory =>
      case Table(i) => assert EntryOf(m2, d, i) == EntryOf(m1, d, i);
      case Page(i, j) => assert PageAt(m2, d, i, j) == PageAt(m2, d, i, j);
    }
    assert forall f | f in owner0 :: f !in m0.free;
  }

  // ---- the C code ----

  class Memory {
    var m: Mem
    /** What setupkvm's mappings come to: the page tables of the parts from KERNBASE up. */
    const kernel: seq<Option<seq<Pte>>>

    ghost predicate KernelOk() {
      && |kernel| == NENTRIES
      && forall i {:trigger kernel[i]} | 0 <= i < NENTRIES ::
           kernel[i].Some? ==> i >= USERDIRS && |kernel[i].value| == NENTRIES
    }

    /** kmem.freelist: the free frames, the one freed last first. */
    var freelist: seq<int>

    /** The list has each free frame once. */
    ghost predicate Listed()
      reads this
    {
      && (forall f {:trigger f in m.free} {:trigger f in freelist} :: f in freelist <==> f in m.free)
      && (forall j, k {:trigger freelist[j], freelist[k]} | 0 <= j < k < |freelist| :: freelist[j] != freelist[k])
    }

    method Kalloc() returns (r: Option<int>)
      requires Listed()
      modifies this
      ensures Listed() && (r.None? ==> m == old(m) && m.free == {} && freelist == old(freelist) == [])
      ensures r.Some? ==>
        && r.value in old(m).free && m == old(m).(free := old(m).free - {r.value}) && old(freelist) != []
        && r.value == old(freelist)[0]
      ensures r.Some? ==> freelist == old(freelist)[1..]
    {
      if freelist == [] {
        assert m.free == {} by { assert forall f | f in m.free :: f in freelist; }
        return None;
      }
      var f := freelist[0];
      assert f in freelist;
      freelist, m := freelist[1..], m.(free := m.free - {f});
      return Some(f);
    }

    /** kfree of a frame that is in use: no frame is ever freed twice. */
    method Kfree(f: int)
      requires Listed() && f !in m.free
      modifies this
      ensures Listed() && m == old(m).(free := old(m).free + {f}) && freelist == [f] + old(freelist)
    {
      freelist, m := [f] + freelist, m.(free := m.free + {f});
    }

    /** One pass of deallocuvm's loop, at address `a`; `next` is the address after. */
    method DeallocPage(d: int, a: int, ghost owner: map<int, Role>, ghost m0: Mem, ghost owner0: map<int, Role>)
      returns (next: int, ghost owner': map<int, Role>)
      requires Listed() && Space(m, d, owner) && Shrunk(m0, owner0, m, owner) && PagesGone(m0, m, d)
      requires 0 <= a < KERNBASE && a % PGSIZE == 0
      modifies this
      ensures Listed() && Space(m, d, owner') && Shrunk(m0, owner0, m, owner') && PagesGone(m0, m, d)
      ensures next == if EntryOf(m0, d, PartOf(a)).To? then a + PGSIZE else a + SPAN
      ensures forall i, j {:trigger PageAt(m, d, i, j)} ::
        PageAt(m, d, i, j) == if i == PartOf(a) && j == IndexOf(a) then Absent else PageAt(old(m), d, i, j)
    {
      AddressOfPage(a);
      var i, j := PartOf(a), IndexOf(a);
      owner' := owner;
      var pde := m.tables[d][i];
      assert pde == EntryOf(m, d, i);
      if pde.Absent? {
        return a + (NENTRIES - 1) * PGSIZE + PGSIZE, owner';
      }
      var t := pde.frame;
      var pte := m.tables[t][j];
      assert pte == PageAt(m, d, i, j);
      if pte.To? {
        RemovalShrinks(m0, owner0, m, d, owner, i, j);
        Kfree(pte.frame);
        m := m.(tables := m.tables[t := m.tables[t][j := Absent]], data := m.data - {pte.frame});
        owner' := owner - {pte.frame};
        assert m == PageRemoved(old(m), t, j, pte.frame);
      }
      next := a + PGSIZE;
    }

    /** deallocuvm. It frees, each once, the pages from `newsz`, rounded up, to `oldsz`, but
        for those it misses: exactly the range, if none of those is there. */
    method Deallocuvm(d: int, oldsz: int, newsz: int, ghost owner: map<int, Role>)
      returns (r: int, ghost owner': map<int, Role>)
      requires Listed() && Space(m, d, owner) && 0 <= newsz && 0 <= oldsz <= KERNBASE
      modifies this
      ensures r == if newsz >= oldsz then oldsz else newsz
      ensures Listed() && Space(m, d, owner') && Shrunk(old(m), owner, m, owner') && PagesGone(old(m), m, d)
      ensures Freed(old(m), m, d, PartOf(RoundUp(newsz)), IndexOf(RoundUp(newsz)), oldsz)
      ensures ExactlyGone(old(m), m, d, RoundUp(newsz), oldsz)
        <==> NoneMissed(old(m), d, PartOf(RoundUp(newsz)), IndexOf(RoundUp(newsz)), oldsz)
    {
      ghost var m0, lo := m, RoundUp(newsz);
      RoundUpIsPage(newsz);
      AddressOfPage(lo);
      ghost var p, q := PartOf(lo), IndexOf(lo);
      owner' := owner;
      if newsz >= oldsz {
        FreedExactlyIff(m0, m, d, p, q, oldsz);
        return oldsz, owner';
      }
      var a := (newsz + PGSIZE - 1) / PGSIZE * PGSIZE;
      while a < oldsz
        invariant lo <= a && a % PGSIZE == 0 && (a < oldsz ==> OnTrack(m0, d, p, q, PartOf(a), IndexOf(a)))
        invariant Listed() && Space(m, d, owner') && Shrunk(m0, owner, m, owner') && PagesGone(m0, m, d)
        invariant Freed(m0, m, d, p, q, if a < oldsz then a else oldsz)
        decreases oldsz - a
      {
        a, owner' := DeallocStep(d, a, oldsz, owner', m0, owner, p, q);
      }
      FreedExactlyIff(m0, m, d, p, q, oldsz);
      r := newsz;
    }

    /** ... and where that leaves the loop. */
    method DeallocStep(d: int, a: int, hi: int, ghost owner: map<int, Role>, ghost m0: Mem,
                       ghost owner0: map<int, Role>, ghost p: nat, ghost q: int)
      returns (next: int, ghost owner': map<int, Role>)
      requires Listed() && Space(m, d, owner) && Shrunk(m0, owner0, m, owner) && PagesGone(m0, m, d)
      requires 0 <= a < hi <= KERNBASE && a % PGSIZE == 0 && 0 <= q < NENTRIES && Address(p, q) <= a
      requires OnTrack(m0, d, p, q, PartOf(a), IndexOf(a)) && Freed(m0, m, d, p, q, a)
      modifies this
      ensures a < next && next % PGSIZE == 0 && (next < hi ==> OnTrack(m0, d, p, q, PartOf(next), IndexOf(next)))
      ensures Listed() && Space(m, d, owner') && Shrunk(m0, owner0, m, owner') && PagesGone(m0, m, d)
      ensures Freed(m0, m, d, p, q, if next < hi then next else hi)
    {
      hide Space, Shrunk, PagesGone, Freed, OnTrack;
      ghost var before := m;
      AddressOfPage(a);
      next, owner' := DeallocPage(d, a, owner, m0, owner0);
      NextPage(a);
      AddressOfPage(next);
      FreedFurther(m0, before, m, d, p, q, PartOf(a), IndexOf(a), PartOf(next), IndexOf(next), hi);
    }

    /** kfree of a frame that was a directory or a page table. */
    method KfreeTable(f: int)
      requires Listed() && f !in m.free
      modifies this
      ensures Listed() && m == old(m).(free := old(m).free + {f}, tables := old(m).tables - {f})
    {
      Kfree(f);
      m := m.(tables := m.tables - {f});
    }

    /** One pass of freevm's loop. */
    method FreeTable(d: int, i: int, ghost owner: map<int, Role>, ghost m1: Mem)
      requires Listed() && Space(m1, d, owner) && TablesFreed(m1, d, owner, m, i) && 0 <= i < NENTRIES
      modifies this
      ensures Listed() && TablesFreed(m1, d, owner, m, i + 1)
    {
      var pde := m.tables[d][i];
      assert pde == EntryOf(m1, d, i);
      if pde.To? {
        assert pde.frame in owner && owner[pde.frame] == Table(i);
        KfreeTable(pde.frame);
      }
      forall f | f in owner && owner[f] == Table(i)
        ensures f == pde.frame
      {}
    }

    /** freevm gives back exactly the frames of the space: its user pages, its page
        tables and its directory, each once; every other frame is as it was. */
    method Freevm(d: int, ghost owner: map<int, Role>)
      requires Listed() && Space(m, d, owner)
      modifies this
      ensures Listed() && m.free == old(m).free + owner.Keys
      ensures forall f | f !in owner ::
        (f in m.tables <==> f in old(m).tables) && (f in m.tables ==> m.tables[f] == old(m).tables[f])
      ensures forall f | f !in owner ::
        (f in m.data <==> f in old(m).data) && (f in m.data ==> m.data[f] == old(m).data[f])
    {
      hide PageAt, Space, Freed, Shrunk, ExactlyGone, NoneMissed, Listed;
      var r;
      ghost var owner1;
      r, owner1 := Deallocuvm(d, KERNBASE, 0, owner);
      ghost var m1 := m;
      AllPagesGone(old(m), m1, d);
      DirectoryOf(m1, d, owner1);
      var i := 0;
      while i < NENTRIES
        invariant 0 <= i <= NENTRIES && Listed() && TablesFreed(m1, d, owner1, m, i)
      {
        FreeTable(d, i, owner1, m1);
        i := i + 1;
      }
      DirectoryIsLeft(old(m), d, owner, m1, owner1, m);
      KfreeTable(d);
    }

    /** A new page table for part `i` of a growing space. */
    method AddTable(d: int, i: int, es: seq<Pte>, ghost owner: map<int, Role>, ghost m0: Mem)
      returns (ok: bool, ghost owner': map<int, Role>)
      requires Listed() && Space(m, d, owner) && Grew(m0, m, owner) && 0 <= i < NENTRIES && EntryOf(m, d, i).Absent?
      requires |es| == NENTRIES && (i < USERDIRS ==> es == EmptyTable())
      modifies this
      ensures Listed() && Space(m, d, owner') && Grew(m0, m, owner') && m.data == old(m).data
      ensures ok == (old(freelist) != [])
      ensures !ok ==> m == old(m) && owner' == owner && freelist == old(freelist) && m.free == {}
      ensures ok ==>
        m.free == old(m).free - (owner'.Keys - owner.Keys) && owner.Keys <= owner'.Keys <= owner.Keys + old(m).free
      ensures ok ==> |freelist| == |old(freelist)| - 1
      ensures ok ==> EntryOf(m, d, i).To? && forall i' | i' != i :: EntryOf(m, d, i') == EntryOf(old(m), d, i')
      ensures forall i', j' | i' < USERDIRS || i' != i :: PageAt(m, d, i', j') == PageAt(old(m), d, i', j')
      ensures ok ==> forall j' | 0 <= j' < NENTRIES :: PageAt(m, d, i, j') == es[j']
    {
      var f := Kalloc();
      owner' := owner;
      if f.None? {
        return false, owner';
      }
      assert f.value !in owner;
      TableAddedKeeps(old(m), d, owner, i, f.value, es);
      owner' := owner[f.value := Table(i)];
      m := m.(tables := m.tables[f.value := es][d := m.tables[d][i := To(f.value, WU)]]);
      assert m == TableAdded(old(m), d, i, f.value, es);
      ok := true;
    }

    /** setupkvm: a space with the kernel's part only, mapped by the kernel's tables. It fails
        exactly if there are fewer frames than that takes; what it has allocated, which is all
        there was, is then lost. */
    method Setupkvm() returns (r: Option<int>, ghost owner: map<int, Role>)
      requires Listed() && KernelOk()
      modifies this
      ensures Listed() && Grew(old(m), m, owner) && m.data == old(m).data
      ensures r.None? <==> |old(freelist)| < 1 + KernelTables(kernel, NENTRIES)
      ensures r.None? ==> m.free == {}
      ensures r.Some? ==>
        Space(m, r.value, owner) && m.free == old(m).free - owner.Keys && CopiedTo(old(m), 0, m, r.value, 0)
      ensures r.Some? ==>
        |freelist| == |old(freelist)| - 1 - KernelTables(kernel, NENTRIES) && TablesBelow(m, r.value, 0)
      ensures r.Some? ==> KernelIn(kernel, m, r.value, NENTRIES)
      ensures r.Some? ==> forall i | USERDIRS <= i < NENTRIES ::
        && (EntryOf(m, r.value, i).To? <==> kernel[i].Some?)
        && (kernel[i].Some? ==>
             && EntryOf(m, r.value, i).frame in m.tables
             && m.tables[EntryOf(m, r.value, i).frame] == kernel[i].value)
    {
      hide Space, Grew, PartMapped, KernelIn;
      ghost var m0 := m;
      r, owner := NewDirectory();
      if r.None? { return; }
      var d := r.value;
      var i := 0;
      while i < NENTRIES
        invariant 0 <= i <= NENTRIES && Listed() && PartMapped(kernel, m0, m, d, owner, i, |old(freelist)| - |freelist|)
      {
        KernelTablesGrow(kernel, i + 1, NENTRIES);
        var ok;
        ok, owner := AddKernelTable(d, i, owner, m0, |old(freelist)|);
        if !ok {
          return None, owner;
        }
        i := i + 1;
      }
      KernelMapped(kernel, m0, m, d, owner, |old(freelist)| - |freelist|);
      KernelTablesAreIn(kernel, m, d, owner);
    }

    /** setupkvm's empty page directory. */
    method NewDirectory() returns (r: Option<int>, ghost owner: map<int, Role>)
      requires Listed() && KernelOk()
      modifies this
      ensures Listed() && Grew(old(m), m, owner) && m.data == old(m).data
      ensures r.None? <==> old(freelist) == []
      ensures r.None? ==> m.free == {}
      ensures r.Some? ==> PartMapped(kernel, old(m), m, r.value, owner, 0, |old(freelist)| - |freelist|)
    {
      r := Kalloc();
      owner := map[];
      if r.Some? {
        m := m.(tables := m.tables[r.value := EmptyTable()]);
        owner := map[r.value := Directory];
      }
    }

    /** The mappings of the kernel's part `i`. */
    method AddKernelTable(d: int, i: int, ghost owner: map<int, Role>, ghost m0: Mem, ghost n0: int)
      returns (ok: bool, ghost owner': map<int, Role>)
      requires Listed() && KernelOk() && 0 <= i < NENTRIES && PartMapped(kernel, m0, m, d, owner, i, n0 - |freelist|)
      modifies this
      ensures Listed() && Grew(m0, m, owner') && m.data == m0.data
      ensures if ok then PartMapped(kernel, m0, m, d, owner', i + 1, n0 - |freelist|)
        else kernel[i].Some? && m.free == {} && n0 == 1 + KernelTables(kernel, i)
    {
      ok, owner' := true, owner;
      if kernel[i].Some? {
        ok, owner' := AddTable(d, i, kernel[i].value, owner, m0);
      }
      if ok {
        KernelOneMore(kernel, old(m), m, d, i);
      }
    }

    /** mappages of one user page, in frame `f`: false if no page table can be had. */
    method MapPage(d: int, i: int, j: int, f: int, flags: int, ghost owner: map<int, Role>, ghost m0: Mem)
      returns (ok: bool, ghost owner': map<int, Role>)
      requires Listed() && Space(m, d, owner) && Grew(m0, m, owner) && 0 <= i < USERDIRS && 0 <= j < NENTRIES
      requires PageAt(m, d, i, j).Absent?
      requires f in m0.free && f !in m.free && f !in owner && f in m.data
      modifies this
      ensures Listed() && Space(m, d, owner') && Grew(m0, m, owner') && m.data == old(m).data
      ensures if ok
        then m.free == old(m).free - (owner'.Keys - owner.Keys) && f in owner'
        else owner' == owner && m == old(m)
      ensures ok == (EntryOf(old(m), d, i).To? || old(freelist) != [])
      ensures |freelist| == |old(freelist)| - if ok && EntryOf(old(m), d, i).Absent? then 1 else 0
      ensures ok ==> EntryOf(m, d, i).To? && forall k | k != i :: EntryOf(m, d, k) == EntryOf(old(m), d, k)
      ensures owner.Keys <= owner'.Keys && owner'.Keys <= owner.Keys + old(m).free + {f}
      ensures forall i', j' ::
        PageAt(m, d, i', j') == if ok && i' == i && j' == j then To(f, flags) else PageAt(old(m), d, i', j')
    {
      hide Space, Grew, EntryOf, PageAt;
      owner' := owner;
      DirectoryEntry(m, d, owner, i);
      if m.tables[d][i].Absent? {
        ok, owner' := AddTable(d, i, EmptyTable(), owner, m0);
        if !ok { return; }
      }
      owner' := MapInTable(d, i, j, f, flags, owner', m0);
      ok := true;
    }

    /** ... once there is a page table. */
    method MapInTable(d: int, i: int, j: int, f: int, flags: int, ghost owner: map<int, Role>, ghost m0: Mem)
      returns (ghost owner': map<int, Role>)
      requires Listed() && Space(m, d, owner) && Grew(m0, m, owner) && 0 <= i < USERDIRS && 0 <= j < NENTRIES
      requires EntryOf(m, d, i).To? && PageAt(m, d, i, j).Absent? && f in m0.free && f !in m.free && f !in owner
      requires f in m.data
      modifies this
      ensures Listed() && Space(m, d, owner') && Grew(m0, m, owner') && m.data == old(m).data && m.free == old(m).free
      ensures freelist == old(freelist)
      ensures owner'.Keys == owner.Keys + {f} && forall k :: EntryOf(m, d, k) == EntryOf(old(m), d, k)
      ensures forall i', j' ::
        PageAt(m, d, i', j') == if i' == i && j' == j then To(f, flags) else PageAt(old(m), d, i', j')
    {
      var t := m.tables[d][i].frame;
      PageAddedKeeps(m, d, owner, i, j, f, flags, m.data[f]);
      ghost var before := m;
      m := m.(tables := m.tables[t := m.tables[t][j := To(f, flags)]]);
      assert m.data[f := m.data[f]] == m.data && m.free - {f} == m.free;
      assert m == PageAdded(before, t, j, f, flags, before.data[f]);
      assert t in owner;
      owner' := owner[f := Page(i, j)];
    }

    /** One pass of allocuvm's loop, at address `a`; false if kalloc fails. That mappages
        may fail it does not notice: then the page is not there, its frame is lost, and no
        frame is left. */
    method AllocPage(d: int, a: int, ghost m0: Mem, ghost lo: int, ghost owner0: map<int, Role>,
                     ghost owner: map<int, Role>, ghost lost: set<int>,
                     ghost n0: int)
      returns (ok: bool, ghost owner': map<int, Role>, ghost lost': set<int>)
      requires Listed() && Space(m0, d, owner0) && Given(m0, m, d, owner0, owner, lost)
      requires Counted(m0, m, d, lo, a, lost != {}, n0, |freelist|)
      requires 0 <= lo <= a < KERNBASE && a % PGSIZE == 0 && PageAt(m0, d, PartOf(a), IndexOf(a)).Absent?
      requires Filled(m0, m, d, lo, a, lost != {})
      modifies this
      ensures Listed() && Given(m0, m, d, owner0, owner', lost') && ok == (old(freelist) != [])
      ensures if ok
        then Filled(m0, m, d, lo, a + PGSIZE, lost' != {}) &&
        Counted(m0, m, d, lo, a + PGSIZE, lost' != {}, n0, |freelist|)
        else m == old(m) && owner' == owner && lost' == lost && freelist == []
    {
      hide Space, Grew, Given, Filled, Counted, TablesAdded, CopiedTo, TablesBelow, Present, EntryOf, PageAt, PartOf,
        IndexOf, Address;
      ghost var base, before := m0.(free := m0.free + owner0.Keys), m;
      owner', lost' := owner, lost;
      UserPage(a);
      GivenSpace(m0, m, d, owner0, owner, lost);
      FilledEnds(m0, m, d, lo, a, lost != {});
      CountedTables(m0, m, d, lo, a, lost != {}, n0, |freelist|);
      var f := Kalloc();
      if f.None? {
        return false, owner', lost';
      }
      FreeIsNobodys(base, before, d, owner, f.value);
      m := m.(data := m.data[f.value := ZeroPage()]);
      CopyStart(base, before, m, d, owner, f.value);
      ghost var start := m;
      ok, owner' := MapPage(d, PartOf(a), IndexOf(a), f.value, WU, owner, base);
      if !ok {
        lost' := {f.value};
      }
      assert KernelSame(before, m, d);
      GivenMore(m0, before, m, d, owner0, owner, owner', f.value, ok);
      FilledFurther(m0, before, m, d, owner, lo, a, f.value);
      CountedMore(m0, before, m, d, lo, a, ok, n0, |old(freelist)|, |freelist|);
      ok := true;
    }

    /** allocuvm of a range that has no pages yet. It succeeds exactly if there are frames for
        all pages and tables but those of the last page, and one more. Then there are zeroed
        pages in the range; but if that last page needed a table, and there was no frame
        for it, the page is not there and its frame is lost. If it fails, all pages are as before,
        and the frames that were free are so again but for page tables and perhaps one that
        is lost. */
    method Allocuvm(d: int, oldsz: int, newsz: int, ghost owner: map<int, Role>)
      returns (r: int, ghost owner': map<int, Role>, ghost lost: set<int>)
      requires Listed() && Space(m, d, owner) && 0 <= oldsz && 0 <= newsz
      requires Unmapped(m, d, RoundUp(oldsz), newsz)
      modifies this
      ensures Listed() && Given(old(m), m, d, owner, owner', lost)
      ensures newsz >= KERNBASE ==> r == 0 && m == old(m)
      ensures newsz < KERNBASE && newsz < oldsz ==> r == oldsz && m == old(m)
      ensures oldsz <= newsz < KERNBASE ==>
        r == if Affordable(old(m), d, RoundUp(oldsz), RoundUp(newsz), |old(freelist)|) then newsz else 0
      ensures oldsz <= newsz < KERNBASE && Affordable(old(m), d, RoundUp(oldsz), RoundUp(newsz), |old(freelist)|) ==>
        Filled(old(m), m, d, RoundUp(oldsz), RoundUp(newsz), lost != {}) &&
          (lost != {} <==> LastTableMissing(old(m), d, RoundUp(oldsz), RoundUp(newsz), |old(freelist)|))
      ensures oldsz <= newsz < KERNBASE && !Affordable(old(m), d, RoundUp(oldsz), RoundUp(newsz), |old(freelist)|) ==>
        SameUserPages(old(m), m, d)
    {
      hide Space, Grew, Given, Filled, Counted, TablesAdded, Affordable, LastTableMissing, Unmapped, SameUserPages,
        RoundUp;
      ghost var m0, n0 := m, |freelist|;
      owner', lost := owner, {};
      GivenNothing(m, d, owner, RoundUp(oldsz));
      if newsz >= KERNBASE {
        return 0, owner', lost;
      }
      if newsz < oldsz {
        return oldsz, owner', lost;
      }
      var a := RoundUp(oldsz);
      ghost var lo := a;
      RoundUpIsPage(oldsz);
      RoundUpIsPage(newsz);
      while a < newsz
        invariant lo <= a && a % PGSIZE == 0 && (a == lo || a - PGSIZE < newsz) && (lost != {} ==> lo < a)
        invariant Listed() && Given(m0, m, d, owner, owner', lost) && Filled(m0, m, d, lo, a, lost != {})
        invariant Counted(m0, m, d, lo, a, lost != {}, n0, |freelist|)
      {
        UnmappedPage(m0, d, lo, newsz, a);
        var ok;
        ghost var owner1, m1 := owner', m;
        ok, owner', lost := AllocPage(d, a, m0, lo, owner, owner', lost, n0);
        if !ok {
          ghost var owner2 := UndoAlloc(d, oldsz, newsz, a, m0, owner, owner', lost);
          NotAffordable(m0, m1, d, lo, a, RoundUp(newsz), lost != {}, n0);
          return 0, owner2, lost;
        }
        a := a + PGSIZE;
      }
      Rounded(a, newsz);
      FilledTo(m0, m, d, lo, a, newsz, lost != {});
      WasAffordable(m0, m, d, lo, a, RoundUp(newsz), lost != {}, n0, |freelist|);
      r := newsz;
    }

    /** allocuvm's call of deallocuvm. */
    method UndoAlloc(d: int, oldsz: int, newsz: int, a: int, ghost m0: Mem, ghost owner0: map<int, Role>,
                     ghost owner: map<int, Role>, ghost lost: set<int>)
      returns (ghost owner': map<int, Role>)
      requires Listed() && Space(m0, d, owner0) && Given(m0, m, d, owner0, owner, lost)
      requires Filled(m0, m, d, RoundUp(oldsz), a, lost != {})
      requires 0 <= oldsz && RoundUp(oldsz) <= a < newsz < KERNBASE && a % PGSIZE == 0
      requires lost != {} ==> RoundUp(oldsz) < a
      requires Unmapped(m0, d, RoundUp(oldsz), newsz)
      modifies this
      ensures Listed() && Given(m0, m, d, owner0, owner', lost)
      ensures SameUserPages(m0, m, d)
    {
      hide Space, Shrunk, PagesGone, Freed, Filled, Grew, Unmapped, SameUserPages, RoundUp;
      ghost var lo, m1 := RoundUp(oldsz), m;
      RoundUpIsPage(oldsz);
      AddressOfPage(lo);
      var r;
      r, owner' := Deallocuvm(d, newsz, oldsz, owner);
      FilledUndone(m0, m1, m, d, PartOf(lo), IndexOf(lo), a, newsz, lost != {});
      GivenBack(m0, m1, m, d, owner0, owner, owner', lost, lo, a, lost != {});
    }

    /** One pass of copyuvm's loop, for the page at address `a`. If it fails for want of a
        page table, the frame that was to hold the copy is lost. */
    method CopyPage(p: int, d: int, a: int, ghost powner: map<int, Role>, ghost owner: map<int, Role>, ghost m0: Mem)
      returns (ok: bool, ghost owner': map<int, Role>, ghost lost: set<int>)
      requires Listed() && Space(m0, p, powner) && Space(m, d, owner) && Grew(m0, m, owner)
      requires m.free == m0.free - owner.Keys
      requires 0 <= a < KERNBASE && a % PGSIZE == 0 && PageAt(m0, p, PartOf(a), IndexOf(a)).To?
      requires CopiedTo(m0, p, m, d, a) && TablesBelow(m, d, a) && KernelOk() && KernelIn(kernel, m, d, NENTRIES)
      modifies this
      ensures Listed() && Space(m, d, owner') && Grew(m0, m, owner') && m.free == m0.free - owner'.Keys - lost
      ensures lost !! owner'.Keys && lost <= m0.free
      ensures ok == (|old(freelist)| >= 1 + if IndexOf(a) == 0 then 1 else 0)
      ensures ok ==> lost == {} && CopiedTo(m0, p, m, d, a + PGSIZE) && TablesBelow(m, d, a + PGSIZE)
      ensures ok ==> KernelIn(kernel, m, d, NENTRIES)
      ensures ok ==> |freelist| == |old(freelist)| - 1 - if IndexOf(a) == 0 then 1 else 0
      ensures !ok ==> |lost| == |old(freelist)|
    {
      hide Space, Grew, Given, Filled, Counted, TablesAdded, CopiedTo, TablesBelow, Present, EntryOf, PageAt, PartOf,
        IndexOf, Address, KernelIn;
      var i, j := PartOf(a), IndexOf(a);
      UserPage(a);
      TableIsBelow(m, d, a);
      OldPage(m0, m, p, powner, owner, i, j);
      CopyEnds(m0, p, m, d, i, j);
      owner', lost := owner, {};
      var pte := m.tables[m.tables[p][i].frame][j];
      ghost var before := m;
      var f := Kalloc();
      if f.None? {
        return false, owner', lost;
      }
      FreeIsNobodys(m0, before, d, owner, f.value);
      m := m.(data := m.data[f.value := m.data[pte.frame]]);
      CopyStart(m0, before, m, d, owner, f.value);
      ok, owner' := MapPage(d, i, j, f.value, pte.flags, owner, m0);
      if ok {
        TablesOneMore(before, m, d, a);
        CopiedFurther(m0, p, before, m, d, owner, a, f.value, pte);
        KernelStays(kernel, before, m, d, NENTRIES);
      } else {
        lost := {f.value};
      }
    }

    /** copyuvm of a space whose pages below `sz` are all there. It succeeds exactly if there
        are frames for directory, kernel tables, pages and their tables; then the new
        space has, in frames of its own that were free, the same bytes under the same
        flags at every address below `sz`, and above KERNBASE the kernel. If it fails, it gives
        back what it took, but for one frame exactly if a page's table was what could not be
        had; and if setupkvm failed already, all frames there were are lost. Either way the old
        space is as it was. */
    method Copyuvm(p: int, sz: int, ghost powner: map<int, Role>)
      returns (r: Option<int>, ghost owner: map<int, Role>, ghost lost: set<int>)
      requires Listed() && KernelOk() && Space(m, p, powner) && 0 <= sz <= KERNBASE && Present(m, p, sz)
      modifies this
      ensures Listed() && Space(m, p, powner) && forall i, j :: PageAt(m, p, i, j) == PageAt(old(m), p, i, j)
      ensures forall f | f in powner && f in old(m).data :: f in m.data && m.data[f] == old(m).data[f]
      ensures r.Some? <==> |old(freelist)| >= 1 + KernelTables(kernel, NENTRIES) + CopyFrames(RoundUp(sz))
      ensures r.Some? ==> Space(m, r.value, owner) && CopiedTo(old(m), p, m, r.value, RoundUp(sz))
      ensures r.Some? ==> KernelIn(kernel, m, r.value, NENTRIES)
      ensures r.Some? ==> forall i | USERDIRS <= i < NENTRIES ::
        && (EntryOf(m, r.value, i).To? <==> kernel[i].Some?)
        && (kernel[i].Some? ==>
             && EntryOf(m, r.value, i).frame in m.tables
             && m.tables[EntryOf(m, r.value, i).frame] == kernel[i].value)
      ensures r.Some? ==> m.free == old(m).free - owner.Keys && owner.Keys <= old(m).free && powner.Keys !! owner.Keys
      ensures r.None? ==> m.free == old(m).free - lost && lost <= old(m).free
      ensures r.None? ==> var left := |old(freelist)| - 1 - KernelTables(kernel, NENTRIES);
        if left < 0 then lost == old(m).free else |lost| == if left % (NENTRIES + 1) == 1 then 1 else 0
    {
      hide Space, Grew, CopiedTo, TablesBelow, Present, CopyFrames, KernelIn, Listed, PartOf, IndexOf, PageAt, EntryOf;
      ghost var m0 := m;
      lost := {};
      r, owner := Setupkvm();
      GrownElsewhere(m0, m, owner, p, powner);
      RoundUpIsPage(sz);
      CopiedNothing(m0, p, m, if r.Some? then r.value else 0);
      CopyFramesGrow(0, RoundUp(sz));
      if r.None? {
        lost := m0.free;
        return;
      }
      var d := r.value;
      ghost var left := |freelist|;
      var i := 0;
      while i < sz
        invariant 0 <= i <= RoundUp(sz) && i % PGSIZE == 0 && lost == {}
        invariant Listed() && Space(m, d, owner) && Grew(m0, m, owner) && m.free == m0.free - owner.Keys
        invariant CopiedTo(m0, p, m, d, i) && KernelIn(kernel, m, d, NENTRIES)
        invariant TablesBelow(m, d, i) && |freelist| == left - CopyFrames(i)
      {
        PageIsPresent(m0, p, sz, i);
        CopyFramesMore(i);
        var ok;
        ok, owner, lost := CopyPage(p, d, i, powner, owner, m0);
        if !ok {
          StopsForTable(i, left);
          CopyFramesGrow(i + PGSIZE, RoundUp(sz));
          GiveUp(p, d, m0, powner, owner, lost);
          return None, owner, lost;
        }
        i := i + PGSIZE;
      }
      assert i == RoundUp(sz);
      GrownElsewhere(m0, m, owner, p, powner);
      KernelTablesAreIn(kernel, m, d, owner);
      r := Some(d);
    }

    /** copyuvm's way out: the new space is freed. */
    method GiveUp(p: int, d: int, ghost m0: Mem, ghost powner: map<int, Role>, ghost owner: map<int, Role>,
                  ghost lost: set<int>)
      requires Listed() && Space(m0, p, powner) && Space(m, d, owner) && Grew(m0, m, owner)
      requires m.free == m0.free - owner.Keys - lost && lost !! owner.Keys
      modifies this
      ensures Listed() && m.free == m0.free - lost && Space(m, p, powner)
      ensures forall i, j :: PageAt(m, p, i, j) == PageAt(m0, p, i, j)
      ensures forall f | f in powner && f in m0.data :: f in m.data && m.data[f] == m0.data[f]
    {
      Freevm(d, owner);
      assert m.free == m0.free - lost;
      assert Grew(m0, m, map[]);
      GrownElsewhere(m0, m, map[], p, powner);
    }
  }
}
