/** src/umalloc.c: the circular, address-ordered, coalescing free list of section 8.7
    of "The C Programming Language", 2nd edition. Addresses and sizes are in units of
    a header, eight bytes. */
module UMalloc {
  /** What the headers in memory hold, with the blocks they stand for: `free` are the
      list members, `live` the blocks handed out, and `owner` maps every unit obtained
      from sbrk to the block it is part of. */
  datatype Arena = Arena(ptr: map<int, int>, size: map<int, int>, free: set<int>, live: set<int>, owner: map<int, int>)

  /** `free` is one cycle in address order: `ptr` leads to the next member up, and
      from the topmost back to `base`, the lowest. */
  ghost predicate Linked(free: set<int>, ptr: map<int, int>, base: int) {
    && base in free
    && (forall a {:trigger a in free} | a in free :: base <= a)
    && (forall a {:trigger a in ptr} | a in free :: a in ptr)
    && (forall a {:trigger ptr[a]} | a in free :: ptr[a] in free && (ptr[a] <= a ==> ptr[a] == base))
    && (forall a, c {:trigger ptr[a], c in free} | a in free && c in free && a < c :: a < ptr[a] <= c)
  }

  lemma LinkInsert(free: set<int>, ptr: map<int, int>, base: int, p: int, b: int)
    requires Linked(free, ptr, base) && p in free && p < b && (p < ptr[p] ==> b < ptr[p])
    ensures b !in free
    ensures Linked(free + {b}, ptr[b := ptr[p]][p := b], base)
  {}

  lemma LinkRemove(free: set<int>, ptr: map<int, int>, base: int, p: int, b: int)
    requires Linked(free, ptr, base) && p in free && b == ptr[p] && b != base
    ensures p < b && Linked(free - {b}, ptr[p := ptr[b]], base)
  {}

  /** Block `a` owns exactly its units. */
  ghost predicate Owns(size: map<int, int>, owner: map<int, int>, a: int) {
    && a in size && 0 < size[a]
    && (forall u {:trigger u in owner} | a <= u < a + size[a] :: u in owner && owner[u] == a)
    && (forall u {:trigger owner[u]} | u in owner && owner[u] == a :: a <= u < a + size[a])
  }

  /** Free and live blocks partition the units between `base` and `brk` that sbrk gave. */
  ghost predicate Partition(s: Arena, base: int, brk: int) {
    && s.free !! s.live && base in s.free && base in s.size && s.size[base] == 0
    && (forall u {:trigger u in s.owner} | u in s.owner :: base < u < brk)
    && (forall u {:trigger s.owner[u]} | u in s.owner :: s.owner[u] != base && s.owner[u] in s.free + s.live)
    && (forall a | a in s.free + s.live && a != base :: Owns(s.size, s.owner, a))
  }

  /** No list member outside `except` touches its successor. */
  ghost predicate NoneTouch(s: Arena, except: set<int>) {
    forall a {:trigger s.ptr[a]} | a in s.free && a !in except && a in s.ptr && a in s.size ::
      (a < s.ptr[a] ==> a + s.size[a] != s.ptr[a])
  }

  /** No two blocks overlap, free or live. */
  lemma BlocksAreDisjoint(s: Arena, base: int, brk: int, a: int, c: int)
    requires Partition(s, base, brk) && a in s.free + s.live && c in s.free + s.live && a != base && c != base && a < c
    ensures a in s.size && a + s.size[a] <= c
  {
    assert Owns(s.size, s.owner, a) && Owns(s.size, s.owner, c);
    assert c in s.owner && s.owner[c] == c;
  }

  // ---- free ----

  /** Member `p` is where block `b` belongs: the topmost member below it. */
  ghost predicate Below(s: Arena, p: int, b: int) {
    p in s.free && p in s.ptr && p < b && (p < s.ptr[p] ==> b < s.ptr[p])
  }

  /** Live block `b` joins the list after `p`. */
  ghost function Insert(s: Arena, p: int, b: int): Arena
    requires p in s.ptr
  {
    s.(ptr := s.ptr[b := s.ptr[p]][p := b], free := s.free + {b}, live := s.live - {b})
  }

  /** Member `a` absorbs its successor `b`. */
  ghost function Merge(s: Arena, a: int, b: int): Arena
    requires b in s.ptr && a in s.size && b in s.size
  {
    s.(ptr := s.ptr[a := s.ptr[b]], size := s.size[a := s.size[a] + s.size[b]], free := s.free - {b},
       owner := map u | u in s.owner :: if s.owner[u] == b then a else s.owner[u])
  }

  lemma InsertKeeps(s: Arena, base: int, brk: int, p: int, b: int)
    requires Linked(s.free, s.ptr, base) && Partition(s, base, brk) && NoneTouch(s, {}) && Below(s, p, b) && b in s.live
    ensures var s' := Insert(s, p, b);
      Linked(s'.free, s'.ptr, base) && Partition(s', base, brk) && NoneTouch(s', {p, b})
  {
    LinkInsert(s.free, s.ptr, base, p, b);
    var s' := Insert(s, p, b);
    assert s'.free + s'.live == s.free + s.live;
  }

  lemma MergeKeeps(s: Arena, base: int, brk: int, a: int, b: int, except: set<int>)
    requires Linked(s.free, s.ptr, base) && Partition(s, base, brk) && NoneTouch(s, except) && b !in except
    requires a in s.free && a in s.size && a in s.ptr && a != base && b == s.ptr[a] && a + s.size[a] == b && b in s.size
    ensures b in s.ptr
    ensures var s' := Merge(s, a, b);
      Linked(s'.free, s'.ptr, base) && Partition(s', base, brk) && NoneTouch(s', except - {a})
  {
    assert Owns(s.size, s.owner, a);
    LinkRemove(s.free, s.ptr, base, a, b);
    var s' := Merge(s, a, b);
    forall c | c in s'.free + s'.live && c != base
      ensures Owns(s'.size, s'.owner, c)
    {
      assert Owns(s.size, s.owner, c) && Owns(s.size, s.owner, b);
    }
  }

  /** The list and the blocks between two calls. */
  ghost predicate Wf(s: Arena, base: int, brk: int) {
    Linked(s.free, s.ptr, base) && Partition(s, base, brk) && NoneTouch(s, {})
  }

  /** Live block `b` joins the list, absorbing its successor if they touch. */
  ghost function JoinUpper(s: Arena, p: int, b: int): Arena
    requires p in s.ptr && b in s.size && (s.ptr[p] in s.ptr && s.ptr[p] in s.size)
  {
    if b + s.size[b] == s.ptr[p] then Merge(Insert(s, p, b), b, s.ptr[p]) else Insert(s, p, b)
  }

  /** ... and then is absorbed by its predecessor if they touch. */
  ghost function FreeBlock(s: Arena, p: int, b: int): Arena
    requires p in s.ptr && p in s.size && b in s.size && (s.ptr[p] in s.ptr && s.ptr[p] in s.size)
  {
    if p + s.size[p] == b then Merge(JoinUpper(s, p, b), p, b) else JoinUpper(s, p, b)
  }

  lemma FreeKeeps(s: Arena, base: int, brk: int, p: int, b: int)
    requires Wf(s, base, brk) && Below(s, p, b) && b in s.live
    ensures p in s.size && b in s.size && s.ptr[p] in s.ptr && s.ptr[p] in s.size
    ensures Wf(FreeBlock(s, p, b), base, brk) && p in FreeBlock(s, p, b).free
  {
    var q := s.ptr[p];
    assert Owns(s.size, s.owner, b);
    assert p == base || Owns(s.size, s.owner, p);
    assert q == base || Owns(s.size, s.owner, q);
    InsertKeeps(s, base, brk, p, b);
    var s1 := Insert(s, p, b);
    if b + s.size[b] == q {
      MergeKeeps(s1, base, brk, b, q, {p, b});
    }
    var s2 := JoinUpper(s, p, b);
    assert NoneTouch(s2, {p});
    if p + s.size[p] == b {
      MergeKeeps(s2, base, brk, p, b, {p});
    }
  }

  /** Member `p` or its successor has at least `n` units. */
  ghost predicate FitsAt(s: Arena, p: int, n: int) {
    p in s.size && p in s.ptr && s.ptr[p] in s.size && (s.size[p] >= n || s.size[s.ptr[p]] >= n)
  }

  /** free gives back exactly its block: the other live blocks keep their place and
      size, and no unit is gained or lost. */
  lemma FreeFreesOne(s: Arena, base: int, brk: int, p: int, b: int)
    requires Wf(s, base, brk) && Below(s, p, b) && b in s.live
    ensures p in s.size && b in s.size && s.ptr[p] in s.ptr && s.ptr[p] in s.size
    ensures var s' := FreeBlock(s, p, b);
      && s'.live == s.live - {b} && s'.owner.Keys == s.owner.Keys
      && (forall c | c in s'.live :: c in s.size && c in s'.size && s'.size[c] == s.size[c])
      && FitsAt(s', p, s.size[b])
  {
    FreeKeeps(s, base, brk, p, b);
    assert Owns(s.size, s.owner, b) && (p == base || Owns(s.size, s.owner, p)) &&
      (s.ptr[p] == base || Owns(s.size, s.owner, s.ptr[p]));
    forall c | c in s.live
      ensures c in s.size && c != p && c != s.ptr[p]
    {
      assert Owns(s.size, s.owner, c);
    }
  }

  /** What free's assignments leave in the `ptr` and `size` fields. */
  function FreedPtr(ptr: map<int, int>, size: map<int, int>, p: int, b: int): map<int, int>
    requires p in ptr && ptr[p] in ptr && b in size && p in size
  {
    var ptr1 := if b + size[b] == ptr[p] then ptr[b := ptr[ptr[p]]] else ptr[b := ptr[p]];
    if p + size[p] == b then ptr1[p := ptr1[b]] else ptr1[p := b]
  }

  function FreedSize(ptr: map<int, int>, size: map<int, int>, p: int, b: int): map<int, int>
    requires p in ptr && ptr[p] in size && b in size && p in size
  {
    var size1 := if b + size[b] == ptr[p] then size[b := size[b] + size[ptr[p]]] else size;
    if p + size[p] == b then size1[p := size1[p] + size1[b]] else size1
  }

  lemma FreedFields(s: Arena, base: int, brk: int, p: int, b: int)
    requires Wf(s, base, brk) && Below(s, p, b) && b in s.live
    ensures p in s.size && b in s.size && s.ptr[p] in s.ptr && s.ptr[p] in s.size
    ensures FreedPtr(s.ptr, s.size, p, b) == FreeBlock(s, p, b).ptr
    ensures FreedSize(s.ptr, s.size, p, b) == FreeBlock(s, p, b).size
  {
    FreeKeeps(s, base, brk, p, b);
    assert Owns(s.size, s.owner, b) && (p == base || Owns(s.size, s.owner, p));
  }

  /** One pass of free's search loop: it either is at the slot or gets nearer. */
  lemma SearchStep(s: Arena, base: int, brk: int, p: int, b: int)
    requires Wf(s, base, brk) && p in s.free && b in s.live
    ensures p in s.ptr && s.ptr[p] in s.free && p < brk && p != b
    ensures !(b > p && b < s.ptr[p]) && !(p >= s.ptr[p] && (b > p || b < s.ptr[p])) ==>
      if p > b then p < s.ptr[p] || s.ptr[p] < b else p < s.ptr[p] < b
    ensures (b > p && b < s.ptr[p]) || (p >= s.ptr[p] && (b > p || b < s.ptr[p])) <==> Below(s, p, b)
  {
    assert Owns(s.size, s.owner, b) && (p == base || Owns(s.size, s.owner, p));
    assert b in s.owner && s.owner[b] == b;
    assert p == base || (p in s.owner && s.owner[p] == p);
  }

  // ---- malloc ----

  /** An exact fit: member `b` leaves the list, whole. */
  ghost function Unlink(s: Arena, p: int, b: int): Arena
    requires b in s.ptr
  {
    s.(ptr := s.ptr[p := s.ptr[b]], free := s.free - {b}, live := s.live + {b})
  }

  /** Otherwise the last `n` units of member `b` become a block of their own. */
  ghost function Carve(s: Arena, b: int, n: int): Arena
    requires b in s.size
  {
    var t := b + s.size[b] - n;
    s.(size := s.size[b := s.size[b] - n][t := n], live := s.live + {t},
       owner := Reassign(s.owner, t, n))
  }

  lemma UnlinkKeeps(s: Arena, base: int, brk: int, p: int, b: int)
    requires Wf(s, base, brk) && p in s.free && p in s.ptr && s.ptr[p] == b && b != base
    ensures b in s.ptr && b !in s.live && Wf(Unlink(s, p, b), base, brk)
  {
    LinkRemove(s.free, s.ptr, base, p, b);
    var s' := Unlink(s, p, b);
    assert s'.free + s'.live == s.free + s.live;
    assert Owns(s.size, s.owner, b) && (p == base || Owns(s.size, s.owner, p));
    assert b in s.owner && s.owner[b] == b;
  }

  /** The owners once units `t` to `t + n` are a block of their own. */
  ghost function Reassign(owner: map<int, int>, t: int, n: int): (r: map<int, int>)
    ensures forall u {:trigger u in r} :: u in r <==> u in owner
    ensures forall u {:trigger r[u]} | u in r :: r[u] == if t <= u < t + n then t else owner[u]
  {
    map u | u in owner :: if t <= u < t + n then t else owner[u]
  }

  /** Blocks `b` and `t` split what `b` owned. */
  lemma CarvedSplits(size: map<int, int>, owner: map<int, int>, b: int, n: int)
    requires Owns(size, owner, b) && 0 < n < size[b]
    requires forall u {:trigger owner[u]} | u in owner :: owner[u] != b + size[b] - n
    ensures var t := b + size[b] - n;
      var size', owner' := size[b := size[b] - n][t := n], Reassign(owner, t, n);
      Owns(size', owner', b) && Owns(size', owner', t)
  {}

  /** Any other block is as before. */
  lemma CarvedSpares(size: map<int, int>, owner: map<int, int>, b: int, n: int, c: int)
    requires Owns(size, owner, b) && 0 < n < size[b] && c != b && c != b + size[b] - n && Owns(size, owner, c)
    ensures var t := b + size[b] - n;
      Owns(size[b := size[b] - n][t := n], Reassign(owner, t, n), c)
  {
    var t := b + size[b] - n;
    forall u | t <= u < t + n
      ensures u in owner && owner[u] == b
    {}
  }

  lemma CarvedOwns(s: Arena, base: int, brk: int, b: int, n: int, c: int)
    requires Partition(s, base, brk) && b in s.free && b != base && b in s.size && 0 < n < s.size[b]
    requires c in s.free + s.live && c != base
    ensures var t, s' := b + s.size[b] - n, Carve(s, b, n);
      t in s.owner && s.owner[t] == b && t !in s.free + s.live && Owns(s'.size, s'.owner, c) &&
        Owns(s'.size, s'.owner, t)
  {
    var t := b + s.size[b] - n;
    assert Owns(s.size, s.owner, b);
    assert t in s.owner && s.owner[t] == b;
    assert !Owns(s.size, s.owner, t);
    CarvedSplits(s.size, s.owner, b, n);
    assert Owns(s.size, s.owner, c);
    if c != b {
      CarvedSpares(s.size, s.owner, b, n, c);
    }
  }

  lemma CarveKeepsOwners(s: Arena, base: int, brk: int, b: int, n: int)
    requires Partition(s, base, brk) && b in s.free && b != base && b in s.size && 0 < n < s.size[b]
    ensures var t := b + s.size[b] - n;
      t in s.owner && s.owner[t] == b && t !in s.free + s.live && Partition(Carve(s, b, n), base, brk)
  {
    var t, s' := b + s.size[b] - n, Carve(s, b, n);
    CarvedOwns(s, base, brk, b, n, b);
    forall c | c in s'.free + s'.live && c != base
      ensures Owns(s'.size, s'.owner, c)
    {
      if c != t {
        CarvedOwns(s, base, brk, b, n, c);
      }
    }
  }

  lemma CarveKeeps(s: Arena, base: int, brk: int, b: int, n: int)
    requires Wf(s, base, brk) && b in s.free && b in s.size && 0 < n < s.size[b]
    ensures b in s.ptr
    ensures var t := b + s.size[b] - n;
      t !in s.live && Wf(Carve(s, b, n), base, brk)
  {
    var q := s.ptr[b];
    CarveKeepsOwners(s, base, brk, b, n);
    assert Owns(s.size, s.owner, b) && (q == base || Owns(s.size, s.owner, q));
    assert b < q ==> q in s.owner && s.owner[q] == q;
  }

  /** sbrk gave `n` units at `a`: for the moment they are a live block. */
  ghost function Grow(s: Arena, a: int, n: nat): Arena {
    s.(size := s.size[a := n], live := s.live + {a}, owner := Extend(s.owner, a, n))
  }

  ghost function Extend(owner: map<int, int>, a: int, n: nat): (r: map<int, int>)
    ensures forall u {:trigger u in r} :: u in r <==> u in owner || a <= u < a + n
    ensures forall u {:trigger r[u]} | u in r :: r[u] == if a <= u < a + n then a else owner[u]
  {
    if n == 0 then owner else Extend(owner, a, n - 1)[a + n - 1 := a]
  }

  lemma GrowKeeps(s: Arena, base: int, brk: int, a: int, n: nat)
    requires Wf(s, base, brk) && base < brk <= a && 0 < n
    ensures a !in s.free + s.live && Wf(Grow(s, a, n), base, a + n)
  {
    var s' := Grow(s, a, n);
    assert a !in s.owner;
    assert !Owns(s.size, s.owner, a);
    forall c | c in s'.free + s'.live && c != base
      ensures Owns(s'.size, s'.owner, c)
    {
      assert c == a || Owns(s.size, s.owner, c);
    }
  }

  // ---- sizes ----

  const TWO31 := 0x8000_0000
  const TWO32 := 0x1_0000_0000
  const MINUNITS := 4096

  /** The units malloc looks for: 32-bit unsigned arithmetic, which may wrap. */
  function Units(nbytes: int): (n: int)
    requires 0 <= nbytes < TWO32
    ensures 1 <= n <= TWO32 / 8
  {
    (nbytes + 7) % TWO32 / 8 + 1
  }

  /** A block of that many units holds `nbytes` behind its header, and no spare unit,
      exactly when the sum does not wrap. */
  lemma UnitsHoldBytes(nbytes: int)
    requires 0 <= nbytes < TWO32
    ensures 8 * (Units(nbytes) - 1) >= nbytes <==> nbytes + 7 < TWO32
    ensures nbytes + 7 < TWO32 ==> 8 * (Units(nbytes) - 1) < nbytes + 8
  {}

  /** The units morecore asks for. */
  function Request(nu: int): int {
    if nu < MINUNITS then MINUNITS else nu
  }

  /** What sbrk, whose parameter is a signed int, is asked for. */
  function AskedBytes(nu: int): int
    requires 0 <= nu <= TWO32 / 8
  {
    var u := Request(nu) * 8 % TWO32;
    if u < TWO31 then u else u - TWO32
  }

  lemma AskedIsExact(nbytes: int)
    requires 0 <= nbytes < TWO32
    ensures AskedBytes(Units(nbytes)) == 8 * Request(Units(nbytes)) <==> nbytes < TWO31 - 15 || nbytes + 7 >= TWO32
  {}

  // ---- malloc's walk ----

  ghost predicate HasFit(free: set<int>, size: map<int, int>, n: int) {
    exists c :: c in free && c in size && size[c] >= n
  }

  lemma FitFound(free: set<int>, size: map<int, int>, c: int, n: int)
    requires c in free && c in size && size[c] >= n
    ensures HasFit(free, size, n)
  {}

  /** Going round from just after `start`, all members before `p` are too small. */
  ghost predicate Passed(s: Arena, start: int, p: int, n: int) {
    forall c | c in s.free && (if start < p then start < c < p else c > start || c < p) :: c in s.size && s.size[c] < n
  }

  lemma WalkStart(s: Arena, base: int, brk: int, start: int, n: int)
    requires Wf(s, base, brk) && base < brk && start in s.free
    ensures start in s.ptr && s.ptr[start] in s.free && Passed(s, start, s.ptr[start], n)
    ensures forall c | c in s.free :: c in s.size && c < brk
    ensures forall c | c in s.live :: c in s.size
  {
    forall c | c in s.free + s.live
      ensures c in s.size && c < brk
    {
      assert c == base || Owns(s.size, s.owner, c);
      assert c == base || c in s.owner;
    }
  }

  /** One step of the walk: nothing fits once it is back at `start`, and until then
      it gets nearer. */
  lemma WalkStep(s: Arena, base: int, brk: int, start: int, p: int, n: int)
    requires Wf(s, base, brk) && start in s.free && p in s.free && p in s.size && s.size[p] < n
    ensures p in s.ptr && s.ptr[p] in s.free
    ensures p == start && Passed(s, start, p, n) ==> !HasFit(s.free, s.size, n)
    ensures p != start && Passed(s, start, p, n) ==> Passed(s, start, s.ptr[p], n)
    ensures p != start ==> if p > start then p < s.ptr[p] || s.ptr[p] <= start else p < s.ptr[p] <= start
  {}

  /** The first malloc makes `base` the only list member, of size 0. */
  lemma FirstMember(ptr: map<int, int>, size: map<int, int>, base: int, brk: int)
    ensures Wf(Arena(ptr[base := base], size[base := 0], {base}, {}, map[]), base, brk)
  {}

  // ---- the C code ----

  datatype Pointer = Null | WrappedRequest | Payload(at: int)

  class Allocator {
    const base: int
    var ptr: map<int, int>
    var size: map<int, int>
    var freep: int
    var brk: int
    ghost var free: set<int>
    ghost var live: set<int>
    ghost var owner: map<int, int>

    ghost function Now(): Arena
      reads this
    {
      Arena(ptr, size, free, live, owner)
    }

    /** `freep` is a list member, or 0 before the first call. */
    ghost predicate Valid()
      reads this
    {
      && 0 < base < brk
      && if freep == 0 then free == {} && live == {} && owner == map[] else freep in free && Wf(Now(), base, brk)
    }

    constructor (base: int, brk: int)
      requires 0 < base < brk
      ensures Valid() && live == {} && owner == map[] && this.brk == brk
    {
      this.base, this.brk, freep := base, brk, 0;
      ptr, size, free, live, owner := map[], map[], {}, {}, map[];
    }

    /** The search loop of free: it ends at the topmost member below `bp`. */
    method FindSlot(bp: int) returns (p: int)
      requires Valid() && freep != 0 && bp in live
      ensures Below(Now(), p, bp)
    {
      p := freep;
      SearchStep(Now(), base, brk, p, bp);
      while !(bp > p && bp < ptr[p])
        invariant p in free && p in ptr
        invariant p < brk && p != bp
        decreases if p > bp then 1 else 0, if p > bp then brk - p else bp - p
      {
        SearchStep(Now(), base, brk, p, bp);
        if p >= ptr[p] && (bp > p || bp < ptr[p]) {
          break;
        }
        p := ptr[p];
        SearchStep(Now(), base, brk, p, bp);
      }
    }

    method Free(ap: int)
      requires Valid() && freep != 0 && ap - 1 in live
      modifies this
      ensures Valid() && brk == old(brk) && freep != 0
      ensures live == old(live) - {ap - 1} && owner.Keys == old(owner.Keys)
      ensures forall c | c in live :: c in old(size) && c in size && size[c] == old(size)[c]
      ensures ap - 1 in old(size) && FitsAt(Now(), freep, old(size)[ap - 1])
    {
      var bp := ap - 1;
      var p := FindSlot(bp);
      ghost var s := Now();
      FreedFields(s, base, brk, p, bp);
      FreeFreesOne(s, base, brk, p, bp);
      FreeKeeps(s, base, brk, p, bp);
      LinkFreed(p, bp);
      free, live, owner := FreeBlock(s, p, bp).free, FreeBlock(s, p, bp).live, FreeBlock(s, p, bp).owner;
      freep := p;
      assert Now() == FreeBlock(s, p, bp);
    }

    /** The body of free past its search. */
    method LinkFreed(p: int, bp: int)
      requires p in ptr && ptr[p] in ptr && ptr[p] in size && bp in size && p in size && p != bp
      modifies this`ptr, this`size
      ensures ptr == FreedPtr(old(ptr), old(size), p, bp) && size == FreedSize(old(ptr), old(size), p, bp)
    {
      var q := ptr[p];
      if bp + size[bp] == q {
        ptr := ptr[bp := ptr[q]];
        size := size[bp := size[bp] + size[q]];
      } else {
        ptr := ptr[bp := q];
      }
      if p + size[p] == bp {
        size := size[p := size[p] + size[bp]];
        ptr := ptr[p := ptr[bp]];
      } else {
        ptr := ptr[p := bp];
      }
    }

    /** morecore, where `sbrk` is the address sbrk returns, or -1. The new block is
        the list member it returns or the one after it. */
    method MoreCore(nu: int, sbrk: int) returns (hp: int)
      requires Valid() && freep != 0 && 0 < nu <= TWO32 / 8 && (sbrk == -1 || brk <= sbrk)
      modifies this
      ensures Valid() && freep != 0 && live == old(live)
      ensures forall c | c in live :: c in old(size) && c in size && size[c] == old(size)[c]
      ensures sbrk == -1 ==> hp == 0 && Now() == old(Now()) && freep == old(freep) && brk == old(brk)
      ensures sbrk != -1 ==> hp == freep && FitsAt(Now(), freep, nu) && brk == sbrk + Request(nu)
      ensures sbrk != -1 ==> brk == sbrk + if nu < 4096 then 4096 else nu
      ensures sbrk != -1 ==> forall u :: u in owner <==> u in old(owner) || sbrk <= u < brk
    {
      if sbrk == -1 {
        assert forall c | c in live :: Owns(size, owner, c);
        return 0;
      }
      var n := if nu < MINUNITS then MINUNITS else nu;
      GrowKeeps(Now(), base, brk, sbrk, n);
      ghost var s := Grow(Now(), sbrk, n);
      AddUnits(sbrk, n);
      assert Now() == s;
      Free(sbrk + 1);
      return freep;
    }

    /** hp->s.size = nu: the new units are a block. */
    method AddUnits(hp: int, n: nat)
      modifies this`size, this`live, this`owner, this`brk
      ensures size == old(size)[hp := n] && live == old(live) + {hp} && owner == Extend(old(owner), hp, n)
      ensures brk == hp + n
    {
      size := size[hp := n];
      live := live + {hp};
      owner := Extend(owner, hp, n);
      brk := hp + n;
    }

    /** What malloc does with the block `p` it has chosen, the successor of `prevp`. */
    method Take(prevp: int, p: int, n: int) returns (b: int)
      requires Valid() && freep != 0 && prevp in free && prevp in ptr && ptr[prevp] == p && p in size
      requires 0 < n <= size[p]
      modifies this
      ensures Valid() && freep == prevp && brk == old(brk) && owner.Keys == old(owner.Keys)
      ensures b !in old(live) && live == old(live) + {b} && b in size && size[b] == n
      ensures forall c | c in old(live) :: c in old(size) && c in size && size[c] == old(size)[c]
    {
      ghost var s := Now();
      assert forall c | c in live :: Owns(size, owner, c);
      if size[p] == n {
        UnlinkKeeps(s, base, brk, prevp, p);
        ptr := ptr[prevp := ptr[p]];
        free, live, b := free - {p}, live + {p}, p;
        assert Now() == Unlink(s, prevp, p);
      } else {
        CarveKeeps(s, base, brk, p, n);
        size := size[p := size[p] - n];
        b := p + size[p];
        size := size[b := n];
        live, owner := live + {b}, Reassign(owner, b, n);
        assert Now() == Carve(s, p, n);
      }
      freep := prevp;
    }

    /** The first call only: an empty list. */
    method Init()
      requires Valid()
      modifies this
      ensures Valid() && freep != 0 && live == old(live) && owner == old(owner) && brk == old(brk)
      ensures old(freep) != 0 ==> Now() == old(Now())
      ensures forall n :: n > 0 ==> HasFit(free, size, n) == HasFit(old(free), old(size), n)
    {
      if freep == 0 {
        FirstMember(ptr, size, base, brk);
        ptr, size, freep, free := ptr[base := base], size[base := 0], base, {base};
      }
    }

    /** malloc; `sbrk` is what sbrk would return. */
    method Malloc(nbytes: int, sbrk: int) returns (r: Pointer)
      requires Valid() && 0 <= nbytes < TWO32 && (sbrk == -1 || brk <= sbrk)
      modifies this
      ensures Valid() && forall c | c in old(live) :: c in old(size) && c in size && size[c] == old(size)[c]
      ensures r.Payload? ==>
        r.at - 1 !in old(live) && live == old(live) + {r.at - 1} && r.at - 1 in size && size[r.at - 1] == Units(nbytes)
      ensures !r.Payload? ==> live == old(live) && owner == old(owner) && brk == old(brk)
      ensures HasFit(old(free), old(size), Units(nbytes)) ==>
        r.Payload? && owner.Keys == old(owner.Keys) && brk == old(brk)
      ensures !HasFit(old(free), old(size), Units(nbytes)) ==>
        if Request(Units(nbytes)) * 8 >= TWO31 then r.WrappedRequest?
        else if sbrk == -1 then r.Null?
        else r.Payload? && brk == sbrk + if Units(nbytes) < 4096 then 4096 else Units(nbytes)
    {
      hide Wf, Passed, HasFit;
      var nunits := (nbytes + 7) % TWO32 / 8 + 1;
      ghost var size0, grown := size, false;
      Init();
      ghost var s0 := Now();
      WalkStart(Now(), base, brk, freep, nunits);
      var prevp := freep;
      var p := ptr[prevp];
      while true
        invariant Valid() && freep != 0 && prevp in free && prevp in ptr && p == ptr[prevp] && p in free && p in size
        invariant p < brk
        invariant live == s0.live && forall c | c in live :: c in s0.size && c in size && size[c] == s0.size[c]
        invariant !grown ==> Now() == s0 && brk == old(brk) && Passed(s0, freep, p, nunits)
        invariant grown ==>
          && !HasFit(s0.free, s0.size, nunits) && Request(nunits) * 8 < TWO31 && sbrk != -1
          && brk == sbrk + Request(nunits)
        invariant grown ==> freep in size && (size[freep] >= nunits || size[p] >= nunits)
        decreases if grown then 0 else 1, if p > freep then 1 else 0, if p > freep then brk - p else freep - p
      {
        if size[p] >= nunits {
          FitFound(free, size, p, nunits);
          var b := Take(prevp, p, nunits);
          return Payload(b + 1);
        }
        WalkStep(Now(), base, brk, freep, p, nunits);
        if p == freep {
          if Request(nunits) * 8 >= TWO31 {
            return WrappedRequest;
          }
          p := MoreCore(nunits, sbrk);
          if p == 0 {
            return Null;
          }
          grown := true;
        }
        WalkStart(Now(), base, brk, freep, nunits);
        prevp := p;
        p := ptr[p];
      }
    }
  }
}
