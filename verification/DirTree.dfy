/** Directories: dirlookup and dirlink (src/fs.c), create, sys_link and sys_unlink
    (src/sysfile.c), on directory contents as arrays of entries. */
module DirTree {
  import opened Options

  const ROOT := 1
  const T_FREE := 0
  const T_DIR := 1
  const T_FILE := 2
  const T_DEV := 3
  const DIRSIZ := 14
  /** 4480 entries of 16 bytes fill the largest file. */
  const MAXENTRIES := 4480
  const SHRT_MAX := 32767

  /** A directory entry; inode number 0 marks a free one. */
  datatype Entry = Entry(inum: int, name: string)
  datatype Node = Node(kind: int, nlink: int, entries: seq<Entry>)

  predicate Short(n: int) {
    -SHRT_MAX - 1 <= n <= SHRT_MAX
  }

  /** `nlink` is a C short. */
  function Increment(n: int): (r: int)
    ensures Short(n) ==> Short(r) && (r - (n + 1)) % 0x1_0000 == 0
  {
    if n == SHRT_MAX then -SHRT_MAX - 1 else n + 1
  }

  function Decrement(n: int): (r: int)
    ensures Short(n) ==> Short(r) && (r - (n - 1)) % 0x1_0000 == 0
  {
    if n == -SHRT_MAX - 1 then SHRT_MAX else n - 1
  }

  // ---- one directory ----

  /** The first entry from `k` on that is in use under `name`, or the length. */
  function Lookup(es: seq<Entry>, name: string, k: nat): (r: nat)
    requires k <= |es|
    ensures k <= r <= |es|
    ensures r < |es| ==> es[r].inum != 0 && es[r].name == name
    decreases |es| - k
  {
    if k == |es| || (es[k].inum != 0 && es[k].name == name) then k else Lookup(es, name, k + 1)
  }

  /** The first free entry from `k` on, or the length. */
  function FreeSlot(es: seq<Entry>, k: nat): (r: nat)
    requires k <= |es|
    ensures k <= r <= |es|
    ensures r < |es| ==> es[r].inum == 0
    decreases |es| - k
  {
    if k == |es| || es[k].inum == 0 then k else FreeSlot(es, k + 1)
  }

  /** Entry `k` set to `e`; the one past the end makes the directory grow. */
  function Put(es: seq<Entry>, k: nat, e: Entry): (r: seq<Entry>)
    requires k <= |es|
    ensures |r| == if k == |es| then |es| + 1 else |es|
    ensures forall j | 0 <= j < |r| :: r[j] == if j == k then e else es[j]
  {
    if k < |es| then es[k := e] else es + [e]
  }

  lemma {:induction false} LookupMisses(es: seq<Entry>, name: string, k: nat)
    requires k <= |es|
    ensures forall j | k <= j < Lookup(es, name, k) :: es[j].inum == 0 || es[j].name != name
    decreases |es| - k
  {
    if k < |es| && !(es[k].inum != 0 && es[k].name == name) {
      LookupMisses(es, name, k + 1);
    }
  }

  /** Every entry in use is the one its name finds: names are unique. */
  ghost predicate Unique(es: seq<Entry>) {
    forall k {:trigger es[k]} | 0 <= k < |es| && es[k].inum != 0 :: Lookup(es, es[k].name, 0) == k
  }

  lemma {:induction false} LookupAt(es: seq<Entry>, name: string, k: nat, from: nat)
    requires from <= k < |es| && es[k].inum != 0 && es[k].name == name
    requires forall j | from <= j < k :: es[j].inum == 0 || es[j].name != name
    ensures Lookup(es, name, from) == k
    decreases k - from
  {
    if from < k {
      LookupAt(es, name, k, from + 1);
    }
  }

  /** The inode that a name finds, 0 if none. */
  function Finds(es: seq<Entry>, name: string): int {
    var k := Lookup(es, name, 0);
    if k < |es| then es[k].inum else 0
  }

  /** The name finds the inode now, and every other name what it found before. */
  ghost predicate Renamed(es: seq<Entry>, es': seq<Entry>, name: string, inum: int) {
    Finds(es', name) == inum && forall n {:trigger Finds(es', n)} | n != name :: Finds(es', n) == Finds(es, n)
  }

  /** Changing an entry that was not in use, or its use, is seen under its name only. */
  lemma {:induction false} LookupElsewhere(es: seq<Entry>, es': seq<Entry>, k: nat, name: string, from: nat)
    requires k <= |es| <= |es'| <= |es| + 1 && from <= |es| && (k < |es| ==> |es'| == |es|)
    requires forall j | 0 <= j < |es'| && j != k :: j < |es| && es'[j] == es[j]
    requires k < |es'| ==> es'[k].inum == 0 || es'[k].name != name
    requires k < |es| ==> es[k].inum == 0 || es[k].name != name
    ensures var r, r' := Lookup(es, name, from), Lookup(es', name, from);
      if r < |es| then r' == r && r != k else r' == |es'|
    decreases |es| - from
  {
    if from < |es| && !(es[from].inum != 0 && es[from].name == name) {
      LookupElsewhere(es, es', k, name, from + 1);
    }
  }

  lemma PutFinds(es: seq<Entry>, k: nat, name: string, inum: int)
    requires k <= |es| && (k < |es| ==> es[k].inum == 0) && Lookup(es, name, 0) == |es| && inum != 0
    ensures Renamed(es, Put(es, k, Entry(inum, name)), name, inum)
  {
    var es' := Put(es, k, Entry(inum, name));
    LookupMisses(es, name, 0);
    LookupAt(es', name, k, 0);
    forall n | n != name
      ensures Finds(es', n) == Finds(es, n)
    {
      LookupElsewhere(es, es', k, n, 0);
    }
  }

  lemma ClearedFinds(es: seq<Entry>, k: nat, e: Entry)
    requires Unique(es) && k < |es| && es[k].inum != 0 && e.inum == 0
    ensures Renamed(es, es[k := e], es[k].name, 0)
  {
    var es', name := es[k := e], es[k].name;
    LookupMisses(es, name, 0);
    forall n | n != name
      ensures Finds(es', n) == Finds(es, n)
    {
      LookupElsewhere(es, es', k, n, 0);
    }
  }

  lemma UniquePut(es: seq<Entry>, k: nat, e: Entry)
    requires Unique(es) && k <= |es| && (k < |es| ==> es[k].inum == 0)
    requires e.inum != 0 ==> Lookup(es, e.name, 0) == |es|
    ensures Unique(Put(es, k, e))
  {
    var es' := Put(es, k, e);
    LookupMisses(es, e.name, 0);
    forall m | 0 <= m < |es'| && es'[m].inum != 0
      ensures Lookup(es', es'[m].name, 0) == m
    {
      if m != k {
        assert Lookup(es, es[m].name, 0) == m;
        LookupMisses(es, es[m].name, 0);
      }
      LookupAt(es', es'[m].name, m, 0);
    }
  }

  /** Clearing an entry. */
  lemma UniqueCleared(es: seq<Entry>, k: nat, e: Entry)
    requires Unique(es) && k < |es| && e.inum == 0
    ensures Unique(es[k := e])
  {
    var es' := es[k := e];
    forall m | 0 <= m < |es'| && es'[m].inum != 0
      ensures Lookup(es', es'[m].name, 0) == m
    {
      assert Lookup(es, es[m].name, 0) == m;
      LookupMisses(es, es[m].name, 0);
      LookupAt(es', es'[m].name, m, 0);
    }
  }

  /** Does entry `e` count as a link to inode `i`? "." does not. */
  function Links(e: Entry, i: int): int {
    if e.inum == i && e.name != "." then 1 else 0
  }

  /** Links to `i` among the first `k` entries. */
  function Slots(es: seq<Entry>, i: int, k: nat): (r: int)
    requires k <= |es|
    ensures r >= 0
  {
    if k == 0 then 0 else Slots(es, i, k - 1) + Links(es[k - 1], i)
  }

  lemma {:induction false} SlotsPut(es: seq<Entry>, k: nat, e: Entry, i: int, n: nat)
    requires k <= |es| && n <= |Put(es, k, e)|
    ensures n <= |es| ==>
      Slots(Put(es, k, e), i, n) == Slots(es, i, n) + (if k < n then Links(e, i) - Links(es[k], i) else 0)
    ensures n == |es| + 1 ==> Slots(Put(es, k, e), i, n) == Slots(es, i, |es|) + Links(e, i)
  {
    if n > 0 {
      SlotsPut(es, k, e, i, n - 1);
    }
  }

  // ---- all directories ----

  /** Links to `i` in the linked directories among the first `n` inodes. */
  function Count(nodes: seq<Node>, linked: set<int>, i: int, n: nat): (r: int)
    requires n <= |nodes|
    ensures r >= 0
  {
    if n == 0 then 0
    else Count(nodes, linked, i, n - 1) + if n - 1 in linked
      then Slots(nodes[n - 1].entries, i, |nodes[n - 1].entries|)
      else 0
  }

  function LinksIn(node: Node, i: int): (r: int)
    ensures r >= 0
  {
    Slots(node.entries, i, |node.entries|)
  }

  /** Changing one inode, and whether it is linked, changes the count by what it held
      and now holds. */
  lemma {:induction false} CountChanges(nodes: seq<Node>, linked: set<int>, d: nat, node: Node, linked': set<int>,
                                        i: int, n: nat)
    requires d < |nodes| && n <= |nodes| && linked' + {d} == linked + {d}
    ensures Count(nodes[d := node], linked', i, n) == Count(nodes, linked, i, n) +
      if d < n then (if d in linked' then LinksIn(node, i) else 0) - (if d in linked then LinksIn(nodes[d], i) else 0)
        else 0
  {
    if n > 0 {
      CountChanges(nodes, linked, d, node, linked', i, n - 1);
      assert n - 1 != d ==>
        (n - 1 in linked' <==> n - 1 in linked' + {d}) && (n - 1 in linked <==> n - 1 in linked + {d});
    }
  }

  /** A count is positive exactly if some linked directory holds a link. */
  lemma {:induction false} SlotCounts(es: seq<Entry>, i: int, n: nat)
    requires n <= |es|
    ensures Slots(es, i, n) == 0 <==> forall k {:trigger es[k]} | 0 <= k < n :: Links(es[k], i) == 0
  {
    if n > 0 {
      SlotCounts(es, i, n - 1);
    }
  }

  lemma {:induction false} LinkCounts(nodes: seq<Node>, linked: set<int>, i: int, n: nat)
    requires n <= |nodes|
    ensures Count(nodes, linked, i, n) == 0 <==>
      forall d {:trigger nodes[d]} | 0 <= d < n && d in linked :: LinksIn(nodes[d], i) == 0
  {
    if n > 0 {
      LinkCounts(nodes, linked, i, n - 1);
    }
  }

  /** One link suffices. */
  lemma OneLinkCounts(nodes: seq<Node>, linked: set<int>, i: int, d: int, k: int)
    requires 0 <= d < |nodes| && d in linked && 0 <= k < |nodes[d].entries| && Links(nodes[d].entries[k], i) == 1
    ensures Count(nodes, linked, i, |nodes|) > 0
  {
    LinkCounts(nodes, linked, i, |nodes|);
    SlotCounts(nodes[d].entries, i, |nodes[d].entries|);
    assert nodes[d] == nodes[d] && nodes[d].entries[k] == nodes[d].entries[k];
  }

  // ---- the tree ----

  /** Where a linked directory hangs: entry `at` of directory `up`, `depth` below the root. */
  datatype Place = Place(up: int, at: int, depth: int)

  /** Entry `k` of linked directory `d` names an inode in use, and a directory only if
      that is where it hangs. */
  ghost predicate Named(nodes: seq<Node>, pl: map<int, Place>, d: int, k: int)
    requires 0 <= d < |nodes| && 0 <= k < |nodes[d].entries|
  {
    var c := nodes[d].entries[k].inum;
    0 < c < |nodes| && nodes[c].kind != T_FREE &&
      (nodes[c].kind == T_DIR ==> c != ROOT && c in pl && pl[c].up == d && pl[c].at == k)
  }

  /** A linked directory starts with "." and "..", the latter naming where it hangs. */
  ghost predicate EntriesOk(nodes: seq<Node>, pl: map<int, Place>, d: int)
    requires d in pl
  {
    && 0 < d < |nodes| && nodes[d].kind == T_DIR && 0 < pl[d].up
    && |nodes[d].entries| >= 2 && nodes[d].entries[0] == Entry(d, ".") && nodes[d].entries[1] == Entry(pl[d].up, "..")
    && Unique(nodes[d].entries)
    && forall k {:trigger nodes[d].entries[k]} | 2 <= k < |nodes[d].entries| && nodes[d].entries[k].inum != 0 ::
         Named(nodes, pl, d, k)
  }

  ghost predicate PlaceOk(nodes: seq<Node>, pl: map<int, Place>, c: int)
    requires c in pl
  {
    var p := pl[c];
    if c == ROOT then p.up == ROOT
    else
      && p.up in pl && p.depth == pl[p.up].depth + 1 && 0 < p.up < |nodes| && 2 <= p.at < |nodes[p.up].entries|
      && nodes[p.up].entries[p.at].inum == c
  }

  ghost predicate Empty(es: seq<Entry>) {
    forall k {:trigger es[k]} | 2 <= k < |es| :: es[k].inum == 0
  }

  /** The first two entries are in use for "." and "..", of `n` inodes. */
  ghost predicate Dotted(es: seq<Entry>, n: int) {
    |es| >= 2 && es[0].name == "." && es[1].name == ".." && 0 < es[0].inum < n && 0 < es[1].inum < n
  }

  /** Link counts are exact, free inodes have no entries, and a directory that is not
      linked any more has none but its first two. */
  ghost predicate NodeOk(nodes: seq<Node>, pl: map<int, Place>, i: int)
    requires 0 <= i < |nodes|
  {
    && nodes[i].nlink == Count(nodes, pl.Keys, i, |nodes|) <= SHRT_MAX
    && (nodes[i].kind == T_FREE ==> nodes[i].nlink == 0 && nodes[i].entries == [])
    && (i !in pl ==> Empty(nodes[i].entries) && (nodes[i].kind == T_DIR ==> Dotted(nodes[i].entries, |nodes|)))
  }

  ghost predicate Inv(nodes: seq<Node>, pl: map<int, Place>) {
    && ROOT in pl
    && (forall d {:trigger EntriesOk(nodes, pl, d)} | d in pl :: EntriesOk(nodes, pl, d))
    && (forall d {:trigger PlaceOk(nodes, pl, d)} | d in pl :: PlaceOk(nodes, pl, d))
    && (forall i {:trigger NodeOk(nodes, pl, i)} | 0 < i < |nodes| :: NodeOk(nodes, pl, i))
  }

  /** A disk as mkfs starts it: the root directory, its own parent, and free inodes. */
  lemma EmptyTree(nodes: seq<Node>)
    requires |nodes| > ROOT && nodes[ROOT] == Node(T_DIR, 1, [Entry(ROOT, "."), Entry(ROOT, "..")])
    requires forall i | 0 <= i < |nodes| && i != ROOT :: nodes[i] == Node(T_FREE, 0, [])
    ensures Inv(nodes, map[ROOT := Place(ROOT, 1, 0)])
  {
    var pl := map[ROOT := Place(ROOT, 1, 0)];
    forall i | 0 < i < |nodes|
      ensures NodeOk(nodes, pl, i)
    {
      assert pl.Keys == {ROOT};
      OnlyRoot(nodes, i, |nodes|);
    }
    assert Lookup(nodes[ROOT].entries, ".", 0) == 0 && Lookup(nodes[ROOT].entries, "..", 0) == 1;
  }

  lemma {:induction false} OnlyRoot(nodes: seq<Node>, i: int, n: nat)
    requires ROOT < |nodes| && n <= |nodes| && nodes[ROOT].entries == [Entry(ROOT, "."), Entry(ROOT, "..")]
    ensures Count(nodes, {ROOT}, i, n) == if n > ROOT && i == ROOT then 1 else 0
  {
    if n > 0 {
      OnlyRoot(nodes, i, n - 1);
      DotSlots(ROOT, ROOT, i);
    }
  }

  // ---- create ----

  /** create's new inode: for a directory, with its two entries. */
  function Fresh(kind: int, c: int, dp: int): Node {
    Node(kind, 1, if kind == T_DIR then [Entry(c, "."), Entry(dp, "..")] else [])
  }

  /** The directory it is entered in. */
  function Entered(parent: Node, name: string, kind: int, c: int): Node {
    Node(parent.kind, if kind == T_DIR then Increment(parent.nlink) else parent.nlink,
         Put(parent.entries, FreeSlot(parent.entries, 0), Entry(c, name)))
  }

  function Created(nodes: seq<Node>, dp: int, name: string, kind: int, c: int): seq<Node>
    requires 0 <= dp < |nodes| && 0 <= c < |nodes|
  {
    nodes[c := Fresh(kind, c, dp)][dp := Entered(nodes[dp], name, kind, c)]
  }

  ghost function PlacesAfterCreate(nodes: seq<Node>, pl: map<int, Place>, dp: int, kind: int, c: int): map<int, Place>
    requires 0 <= dp < |nodes| && dp in pl
  {
    if kind == T_DIR then pl[c := Place(dp, FreeSlot(nodes[dp].entries, 0), pl[dp].depth + 1)] else pl
  }

  /** What create is for: the name now finds inode `c`, which was free and is of that kind, with
      one link, and for a directory with "." and ".."; the parent of a directory has a link more.
      Every other name finds what it did, and no other inode changes. */
  ghost predicate Creates(nodes: seq<Node>, nodes': seq<Node>, dp: int, name: string, kind: int, c: int) {
    && |nodes'| == |nodes| && 0 <= dp < |nodes| && 0 <= c < |nodes| && c != dp && nodes[c].kind == T_FREE
    && nodes'[c].kind == kind && nodes'[c].nlink == 1
    && (kind != T_DIR ==> nodes'[c].entries == [])
    && (kind == T_DIR ==>
         |nodes'[c].entries| == 2 && Finds(nodes'[c].entries, ".") == c && Finds(nodes'[c].entries, "..") == dp)
    && nodes'[dp].kind == nodes[dp].kind && Renamed(nodes[dp].entries, nodes'[dp].entries, name, c)
    && nodes'[dp].nlink == (if kind == T_DIR then Increment(nodes[dp].nlink) else nodes[dp].nlink)
    && forall i {:trigger nodes'[i]} | 0 <= i < |nodes| && i != dp && i != c :: nodes'[i] == nodes[i]
  }

  lemma CreatedCreates(nodes: seq<Node>, dp: int, name: string, kind: int, c: int)
    requires CanCreate(nodes, dp, name, kind, c)
    ensures Creates(nodes, Created(nodes, dp, name, kind, c), dp, name, kind, c)
  {
    PutFinds(nodes[dp].entries, FreeSlot(nodes[dp].entries, 0), name, c);
    if kind == T_DIR {
      var es := [Entry(c, "."), Entry(dp, "..")];
      LookupAt(es, ".", 0, 0);
      LookupAt(es, "..", 1, 0);
    }
  }

  /** create under directory `dp`, which holds no `name`, with free inode `c`. */
  ghost predicate CanCreate(nodes: seq<Node>, dp: int, name: string, kind: int, c: int) {
    && 0 < dp < |nodes| && 0 < c < |nodes| && nodes[dp].kind == T_DIR && nodes[c].kind == T_FREE && kind != T_FREE
    && Lookup(nodes[dp].entries, name, 0) == |nodes[dp].entries|
  }

  /** A directory has "." and ".." for as long as it is one. */
  lemma HasDots(nodes: seq<Node>, pl: map<int, Place>, d: int)
    requires Inv(nodes, pl) && 0 < d < |nodes| && nodes[d].kind == T_DIR
    ensures Lookup(nodes[d].entries, ".", 0) == 0 && Lookup(nodes[d].entries, "..", 0) == 1 && |nodes[d].entries| >= 2
    ensures forall k | 0 <= k < |nodes[d].entries| :: 0 <= nodes[d].entries[k].inum < |nodes|
  {
    assert NodeOk(nodes, pl, d);
    if d in pl {
      assert EntriesOk(nodes, pl, d) && PlaceOk(nodes, pl, d);
      forall k | 2 <= k < |nodes[d].entries| && nodes[d].entries[k].inum != 0
        ensures 0 < nodes[d].entries[k].inum < |nodes|
      {
        assert Named(nodes, pl, d, k);
      }
    }
    var es := nodes[d].entries;
    LookupAt(es, ".", 0, 0);
    LookupAt(es, "..", 1, 0);
  }

  lemma CreateCounts(nodes: seq<Node>, pl: map<int, Place>, dp: int, name: string, kind: int, c: int, i: int)
    requires Inv(nodes, pl) && CanCreate(nodes, dp, name, kind, c) && dp in pl && 0 < i < |nodes|
    ensures name != "." && c !in pl
    ensures Count(Created(nodes, dp, name, kind, c), PlacesAfterCreate(nodes, pl, dp, kind, c).Keys, i, |nodes|)
      == Count(nodes, pl.Keys, i, |nodes|) + (if i == c then 1 else 0) + if kind == T_DIR && i == dp then 1 else 0
  {
    assert EntriesOk(nodes, pl, dp);
    assert c in pl ==> EntriesOk(nodes, pl, c);
    var es, pl' := nodes[dp].entries, PlacesAfterCreate(nodes, pl, dp, kind, c);
    CountChanges(nodes, pl.Keys, c, Fresh(kind, c, dp), pl'.Keys, i, |nodes|);
    CountChanges(nodes[c := Fresh(kind, c, dp)], pl'.Keys, dp, Entered(nodes[dp], name, kind, c), pl'.Keys, i, |nodes|);
    SlotsPut(es, FreeSlot(es, 0), Entry(c, name), i, |Put(es, FreeSlot(es, 0), Entry(c, name))|);
    DotSlots(c, dp, i);
  }

  lemma DotSlots(c: int, dp: int, i: int)
    ensures Slots([Entry(c, "."), Entry(dp, "..")], i, 2) == if i == dp then 1 else 0
  {
    var es := [Entry(c, "."), Entry(dp, "..")];
    assert Slots(es, i, 1) == Slots(es, i, 0) + Links(es[0], i);
  }

  lemma SlotIsPastDots(nodes: seq<Node>, pl: map<int, Place>, d: int)
    requires d in pl && EntriesOk(nodes, pl, d)
    ensures 2 <= FreeSlot(nodes[d].entries, 0)
  {}

  lemma CreateKeepsEntries(nodes: seq<Node>, pl: map<int, Place>, dp: int, name: string, kind: int, c: int, d: int)
    requires Inv(nodes, pl) && CanCreate(nodes, dp, name, kind, c) && dp in pl
    requires d in PlacesAfterCreate(nodes, pl, dp, kind, c)
    ensures EntriesOk(Created(nodes, dp, name, kind, c), PlacesAfterCreate(nodes, pl, dp, kind, c), d)
  {
    var nodes', es := Created(nodes, dp, name, kind, c), nodes[dp].entries;
    assert EntriesOk(nodes, pl, dp) && (c in pl ==> EntriesOk(nodes, pl, c)) && (d in pl ==> EntriesOk(nodes, pl, d));
    UniquePut(es, FreeSlot(es, 0), Entry(c, name));
    if d in pl {
      forall k {:trigger nodes'[d].entries[k]} | 2 <= k < |nodes'[d].entries| && nodes'[d].entries[k].inum != 0
        ensures Named(nodes', PlacesAfterCreate(nodes, pl, dp, kind, c), d, k)
      {
        CreateKeepsNamed(nodes, pl, dp, name, kind, c, d, k);
      }
      SlotIsPastDots(nodes, pl, dp);
    } else {
      LookupAt(nodes'[c].entries, "..", 1, 0);
    }
  }

  lemma CreateKeepsNamed(nodes: seq<Node>, pl: map<int, Place>, dp: int, name: string, kind: int, c: int, d: int,
                         k: int)
    requires Inv(nodes, pl) && CanCreate(nodes, dp, name, kind, c) && dp in pl && d in pl
    requires 0 <= d < |nodes| && 2 <= k < |Created(nodes, dp, name, kind, c)[d].entries|
    requires Created(nodes, dp, name, kind, c)[d].entries[k].inum != 0
    ensures Named(Created(nodes, dp, name, kind, c), PlacesAfterCreate(nodes, pl, dp, kind, c), d, k)
  {
    assert EntriesOk(nodes, pl, dp) && (c in pl ==> EntriesOk(nodes, pl, c)) && EntriesOk(nodes, pl, d);
    assert k < |nodes[d].entries| && nodes[d].entries[k].inum != 0 ==> Named(nodes, pl, d, k);
  }

  lemma CreateKeepsPlace(nodes: seq<Node>, pl: map<int, Place>, dp: int, name: string, kind: int, c: int, d: int)
    requires Inv(nodes, pl) && CanCreate(nodes, dp, name, kind, c) && dp in pl
    requires d in PlacesAfterCreate(nodes, pl, dp, kind, c)
    ensures PlaceOk(Created(nodes, dp, name, kind, c), PlacesAfterCreate(nodes, pl, dp, kind, c), d)
  {
    assert EntriesOk(nodes, pl, dp);
    SlotIsPastDots(nodes, pl, dp);
    if d in pl {
      assert PlaceOk(nodes, pl, d) && EntriesOk(nodes, pl, d);
      assert d != ROOT ==> EntriesOk(nodes, pl, pl[d].up);
    }
  }

  lemma CreateKeeps(nodes: seq<Node>, pl: map<int, Place>, dp: int, name: string, kind: int, c: int)
    requires Inv(nodes, pl) && CanCreate(nodes, dp, name, kind, c) && dp in pl
    requires kind == T_DIR ==> nodes[dp].nlink < SHRT_MAX
    ensures Inv(Created(nodes, dp, name, kind, c), PlacesAfterCreate(nodes, pl, dp, kind, c))
  {
    var nodes', pl' := Created(nodes, dp, name, kind, c), PlacesAfterCreate(nodes, pl, dp, kind, c);
    forall d | d in pl'
      ensures EntriesOk(nodes', pl', d) && PlaceOk(nodes', pl', d)
    {
      CreateKeepsEntries(nodes, pl, dp, name, kind, c, d);
      CreateKeepsPlace(nodes, pl, dp, name, kind, c, d);
    }
    forall i | 0 < i < |nodes'|
      ensures NodeOk(nodes', pl', i)
    {
      CreateCounts(nodes, pl, dp, name, kind, c, i);
      assert NodeOk(nodes, pl, i) && NodeOk(nodes, pl, c);
    }
  }

  // ---- when create breaks the tree ----

  /** A directory is linked exactly if its link count is positive. */
  lemma LinkedDirs(nodes: seq<Node>, pl: map<int, Place>, d: int)
    requires Inv(nodes, pl) && 0 < d < |nodes| && nodes[d].kind == T_DIR
    ensures d in pl <==> nodes[d].nlink > 0
    ensures d !in pl ==> nodes[d].nlink == 0
  {
    assert NodeOk(nodes, pl, d);
    if d in pl {
      assert EntriesOk(nodes, pl, d) && PlaceOk(nodes, pl, d);
      if d == ROOT {
        OneLinkCounts(nodes, pl.Keys, d, d, 1);
      } else {
        var p := pl[d];
        assert EntriesOk(nodes, pl, p.up);
        DotsAreFirst(nodes, pl, p.up, p.at);
        OneLinkCounts(nodes, pl.Keys, d, p.up, p.at);
      }
    } else {
      forall e | 0 <= e < |nodes| && e in pl
        ensures LinksIn(nodes[e], d) == 0
      {
        NoLinkTo(nodes, pl, e, d);
      }
      LinkCounts(nodes, pl.Keys, d, |nodes|);
    }
  }

  lemma DotsAreFirst(nodes: seq<Node>, pl: map<int, Place>, d: int, k: int)
    requires d in pl && EntriesOk(nodes, pl, d) && 2 <= k < |nodes[d].entries| && nodes[d].entries[k].inum != 0
    ensures nodes[d].entries[k].name != "." && nodes[d].entries[k].name != ".."
  {}

  /** A linked directory holds no link to a free inode or an unlinked directory. */
  lemma NoLinkTo(nodes: seq<Node>, pl: map<int, Place>, e: int, c: int)
    requires Inv(nodes, pl) && e in pl && 0 < c < |nodes| && c !in pl
    requires nodes[c].kind == T_DIR || nodes[c].kind == T_FREE
    ensures 0 <= e < |nodes| && LinksIn(nodes[e], c) == 0
    ensures forall k {:trigger nodes[e].entries[k]} | 0 <= k < |nodes[e].entries| :: nodes[e].entries[k].inum != c
  {
    assert EntriesOk(nodes, pl, e) && PlaceOk(nodes, pl, e);
    forall k | 0 <= k < |nodes[e].entries|
      ensures nodes[e].entries[k].inum != c
    {
      if k >= 2 && nodes[e].entries[k].inum != 0 { assert Named(nodes, pl, e, k); }
    }
    SlotCounts(nodes[e].entries, c, |nodes[e].entries|);
  }

  /** The same name in a directory that is no longer linked: no tree has these inodes. */
  lemma CreateUnderUnlinkedBreaks(nodes: seq<Node>, pl: map<int, Place>, dp: int, name: string, kind: int, c: int,
                                  pl': map<int, Place>)
    requires Inv(nodes, pl) && CanCreate(nodes, dp, name, kind, c) && dp !in pl
    ensures !Inv(Created(nodes, dp, name, kind, c), pl')
  {
    var nodes' := Created(nodes, dp, name, kind, c);
    HasDots(nodes, pl, dp);
    if Inv(nodes', pl') {
      assert NodeOk(nodes, pl, dp) && NodeOk(nodes, pl, c) && NodeOk(nodes', pl', c);
      assert c in pl ==> EntriesOk(nodes, pl, c);
      UnlinkedStayOut(nodes, pl, dp, name, kind, c, pl', dp);
      UnlinkedStayOut(nodes, pl, dp, name, kind, c, pl', c);
      forall e | 0 <= e < |nodes'| && e in pl'
        ensures LinksIn(nodes'[e], c) == 0
      {
        assert EntriesOk(nodes', pl', e);
        if e !in pl {
          UnlinkedStayOut(nodes, pl, dp, name, kind, c, pl', e);
        }
        NoLinkTo(nodes, pl, e, c);
      }
      LinkCounts(nodes', pl'.Keys, c, |nodes'|);
    }
  }

  /** Nothing but `dp` has been given an entry, so whatever hung nowhere still does. */
  lemma UnlinkedStayOut(nodes: seq<Node>, pl: map<int, Place>, dp: int, name: string, kind: int, c: int,
                        pl': map<int, Place>, e: int)
    requires Inv(nodes, pl) && CanCreate(nodes, dp, name, kind, c) && dp !in pl && c !in pl
    requires 0 < e < |nodes| && e !in pl && (nodes[e].kind == T_DIR || e == c)
    requires Inv(Created(nodes, dp, name, kind, c), pl')
    ensures e !in pl'
  {
    var nodes' := Created(nodes, dp, name, kind, c);
    if e in pl' {
      assert PlaceOk(nodes', pl', e);
      var p := pl'[e];
      assert EntriesOk(nodes', pl', p.up) && PlaceOk(nodes', pl', p.up) && NodeOk(nodes, pl, p.up) &&
        NodeOk(nodes, pl, dp);
      if p.up in pl {
        NoLinkTo(nodes, pl, p.up, e);
      } else if p.up == dp {
        var q := pl'[dp];
        assert EntriesOk(nodes', pl', q.up) && NodeOk(nodes, pl, q.up);
        if q.up in pl {
          NoLinkTo(nodes, pl, q.up, dp);
        }
      }
    }
  }

  /** create keeps the tree exactly when the directory is still linked and its link
      count, if it is to grow, does not overflow. */
  lemma CreateKeepsTreeIff(nodes: seq<Node>, pl: map<int, Place>, dp: int, name: string, kind: int, c: int)
    requires Inv(nodes, pl) && CanCreate(nodes, dp, name, kind, c)
    ensures (exists pl' :: Inv(Created(nodes, dp, name, kind, c), pl')) <==>
      nodes[dp].nlink > 0 && (kind == T_DIR ==> nodes[dp].nlink < SHRT_MAX)
  {
    LinkedDirs(nodes, pl, dp);
    if dp !in pl {
      forall pl'
        ensures !Inv(Created(nodes, dp, name, kind, c), pl')
      {
        CreateUnderUnlinkedBreaks(nodes, pl, dp, name, kind, c, pl');
      }
    } else if kind == T_DIR && nodes[dp].nlink == SHRT_MAX {
      forall pl'
        ensures !Inv(Created(nodes, dp, name, kind, c), pl')
      {
        assert Inv(Created(nodes, dp, name, kind, c), pl') ==> NodeOk(Created(nodes, dp, name, kind, c), pl', dp);
      }
    } else {
      assert NodeOk(nodes, pl, dp);
      CreateKeeps(nodes, pl, dp, name, kind, c);
    }
  }

  // ---- link ----

  /** sys_link: one more link to file `f`, entered in `dp`. */
  function Linked(nodes: seq<Node>, dp: int, name: string, f: int): seq<Node>
    requires 0 <= dp < |nodes| && 0 <= f < |nodes|
  {
    var es := nodes[dp].entries;
    nodes[f := nodes[f].(nlink := Increment(nodes[f].nlink))][dp :=
      nodes[dp].(entries := Put(es, FreeSlot(es, 0), Entry(f, name)))]
  }

  ghost predicate CanLink(nodes: seq<Node>, dp: int, name: string, f: int) {
    && 0 < dp < |nodes| && 0 < f < |nodes| && nodes[dp].kind == T_DIR && nodes[f].kind != T_DIR
    && nodes[f].kind != T_FREE
    && Lookup(nodes[dp].entries, name, 0) == |nodes[dp].entries|
  }

  lemma LinkKeepsEntries(nodes: seq<Node>, pl: map<int, Place>, dp: int, name: string, f: int, d: int)
    requires Inv(nodes, pl) && CanLink(nodes, dp, name, f) && dp in pl && d in pl
    ensures EntriesOk(Linked(nodes, dp, name, f), pl, d) && PlaceOk(Linked(nodes, dp, name, f), pl, d)
  {
    var nodes', es := Linked(nodes, dp, name, f), nodes[dp].entries;
    assert EntriesOk(nodes, pl, dp) && EntriesOk(nodes, pl, d) && PlaceOk(nodes, pl, d) &&
      (f in pl ==> EntriesOk(nodes, pl, f));
    SlotIsPastDots(nodes, pl, dp);
    UniquePut(es, FreeSlot(es, 0), Entry(f, name));
    forall k {:trigger nodes'[d].entries[k]} | 2 <= k < |nodes'[d].entries| && nodes'[d].entries[k].inum != 0
      ensures Named(nodes', pl, d, k)
    {
      assert k < |nodes[d].entries| && nodes[d].entries[k].inum != 0 ==> Named(nodes, pl, d, k);
    }
  }

  lemma LinkKeeps(nodes: seq<Node>, pl: map<int, Place>, dp: int, name: string, f: int)
    requires Inv(nodes, pl) && CanLink(nodes, dp, name, f) && dp in pl && nodes[f].nlink < SHRT_MAX
    ensures Inv(Linked(nodes, dp, name, f), pl)
  {
    var nodes' := Linked(nodes, dp, name, f);
    forall d | d in pl
      ensures EntriesOk(nodes', pl, d) && PlaceOk(nodes', pl, d)
    {
      LinkKeepsEntries(nodes, pl, dp, name, f, d);
    }
    assert f in pl ==> EntriesOk(nodes, pl, f);
    forall i | 0 < i < |nodes'|
      ensures NodeOk(nodes', pl, i)
    {
      assert NodeOk(nodes, pl, i) && NodeOk(nodes, pl, f);
      LinkedCounts(nodes, pl, dp, name, f, i);
    }
  }

  lemma LinkedCounts(nodes: seq<Node>, pl: map<int, Place>, dp: int, name: string, f: int, i: int)
    requires Inv(nodes, pl) && CanLink(nodes, dp, name, f) && 0 < i < |nodes|
    ensures Count(Linked(nodes, dp, name, f), pl.Keys, i, |nodes|) ==
      Count(nodes, pl.Keys, i, |nodes|) + if i == f && dp in pl then 1 else 0
  {
    var es, f' := nodes[dp].entries, nodes[f].(nlink := Increment(nodes[f].nlink));
    assert dp in pl ==> EntriesOk(nodes, pl, dp);
    CountChanges(nodes, pl.Keys, f, f', pl.Keys, i, |nodes|);
    var parent := nodes[dp].(entries := Put(es, FreeSlot(es, 0), Entry(f, name)));
    CountChanges(nodes[f := f'], pl.Keys, dp, parent, pl.Keys, i, |nodes|);
    SlotsPut(es, FreeSlot(es, 0), Entry(f, name), i, |Put(es, FreeSlot(es, 0), Entry(f, name))|);
  }

  lemma {:induction false} CountShrinks(nodes: seq<Node>, linked: set<int>, nodes': seq<Node>, linked': set<int>,
                                        i: int, n: nat)
    requires n <= |nodes| == |nodes'| && linked' <= linked
    requires forall d | 0 <= d < n && d in linked' :: nodes'[d].entries == nodes[d].entries
    ensures Count(nodes', linked', i, n) <= Count(nodes, linked, i, n)
  {
    if n > 0 {
      CountShrinks(nodes, linked, nodes', linked', i, n - 1);
    }
  }

  /** A link from an unlinked directory is never counted again. */
  lemma LinkUnderUnlinkedBreaks(nodes: seq<Node>, pl: map<int, Place>, dp: int, name: string, f: int,
                                pl': map<int, Place>)
    requires Inv(nodes, pl) && CanLink(nodes, dp, name, f) && dp !in pl && nodes[f].nlink < SHRT_MAX
    ensures !Inv(Linked(nodes, dp, name, f), pl')
  {
    var nodes' := Linked(nodes, dp, name, f);
    if Inv(nodes', pl') {
      assert f in pl ==> EntriesOk(nodes, pl, f);
      forall e | e in pl'
        ensures e in pl
      {
        assert EntriesOk(nodes', pl', e) && PlaceOk(nodes', pl', e);
        if e !in pl {
          var p := pl'[e];
          assert EntriesOk(nodes', pl', p.up) && NodeOk(nodes, pl, p.up) && NodeOk(nodes, pl, dp);
          if p.up in pl {
            NoLinkTo(nodes, pl, p.up, e);
          }
        }
      }
      forall e | 0 <= e < |nodes| && e in pl'
        ensures nodes'[e].entries == nodes[e].entries
      {}
      assert NodeOk(nodes, pl, f) && NodeOk(nodes', pl', f);
      CountShrinks(nodes, pl.Keys, nodes', pl'.Keys, f, |nodes|);
    }
  }

  lemma LinkKeepsTreeIff(nodes: seq<Node>, pl: map<int, Place>, dp: int, name: string, f: int)
    requires Inv(nodes, pl) && CanLink(nodes, dp, name, f)
    ensures (exists pl' :: Inv(Linked(nodes, dp, name, f), pl')) <==> nodes[dp].nlink > 0 && nodes[f].nlink < SHRT_MAX
  {
    LinkedDirs(nodes, pl, dp);
    assert NodeOk(nodes, pl, f);
    if nodes[f].nlink == SHRT_MAX {
      forall pl'
        ensures !Inv(Linked(nodes, dp, name, f), pl')
      {
        assert Inv(Linked(nodes, dp, name, f), pl') ==> NodeOk(Linked(nodes, dp, name, f), pl', f);
      }
    } else if dp !in pl {
      forall pl'
        ensures !Inv(Linked(nodes, dp, name, f), pl')
      {
        LinkUnderUnlinkedBreaks(nodes, pl, dp, name, f, pl');
      }
    } else {
      LinkKeeps(nodes, pl, dp, name, f);
    }
  }

  // ---- unlink ----

  /** sys_unlink of entry `k` of `dp`. */
  function Unlinked(nodes: seq<Node>, dp: int, k: int): seq<Node>
    requires 0 <= dp < |nodes| && 0 <= k < |nodes[dp].entries| && 0 <= nodes[dp].entries[k].inum < |nodes|
  {
    var c, es := nodes[dp].entries[k].inum, nodes[dp].entries[k := Entry(0, "")];
    var nlink := if nodes[c].kind == T_DIR then Decrement(nodes[dp].nlink) else nodes[dp].nlink;
    var parent := Node(nodes[dp].kind, nlink, es);
    nodes[dp := parent][c := nodes[dp := parent][c].(nlink := Decrement(nodes[dp := parent][c].nlink))]
  }

  ghost function PlacesAfterUnlink(nodes: seq<Node>, pl: map<int, Place>, c: int): map<int, Place>
    requires 0 <= c < |nodes|
  {
    if nodes[c].kind == T_DIR then pl - {c} else pl
  }

  /** What sys_unlink checks: not "." or "..", and not a directory that holds anything. */
  ghost predicate CanUnlink(nodes: seq<Node>, dp: int, k: int) {
    && 0 < dp < |nodes| && 0 <= k < |nodes[dp].entries| && 0 < nodes[dp].entries[k].inum < |nodes|
    && nodes[dp].entries[k].name != "." && nodes[dp].entries[k].name != ".."
    && (nodes[nodes[dp].entries[k].inum].kind == T_DIR ==> Empty(nodes[nodes[dp].entries[k].inum].entries))
  }

  /** What an entry of a linked directory names has a link: sys_unlink cannot panic. */
  lemma NamedIsLinked(nodes: seq<Node>, pl: map<int, Place>, dp: int, k: int)
    requires Inv(nodes, pl) && 0 < dp < |nodes| && dp in pl && 0 <= k < |nodes[dp].entries|
    requires nodes[dp].entries[k].inum != 0
    requires nodes[dp].entries[k].name != "." && nodes[dp].entries[k].name != ".."
    ensures var c := nodes[dp].entries[k].inum; 0 < c < |nodes| && nodes[c].nlink >= 1
  {
    var c := nodes[dp].entries[k].inum;
    assert EntriesOk(nodes, pl, dp) && Named(nodes, pl, dp, k);
    OneLinkCounts(nodes, pl.Keys, c, dp, k);
    assert NodeOk(nodes, pl, c);
  }

  lemma UnlinkCounts(nodes: seq<Node>, pl: map<int, Place>, dp: int, k: int, i: int)
    requires Inv(nodes, pl) && CanUnlink(nodes, dp, k) && dp in pl && 0 < i < |nodes|
    ensures var c := nodes[dp].entries[k].inum;
      && c != dp && 2 <= k && Named(nodes, pl, dp, k)
      && Count(Unlinked(nodes, dp, k), PlacesAfterUnlink(nodes, pl, c).Keys, i, |nodes|) ==
           Count(nodes, pl.Keys, i, |nodes|) - (if i == c then 1 else 0) - if nodes[c].kind == T_DIR && i == dp
             then 1
             else 0
  {
    var es, c := nodes[dp].entries, nodes[dp].entries[k].inum;
    assert EntriesOk(nodes, pl, dp) && Named(nodes, pl, dp, k) &&
      (c in pl ==> EntriesOk(nodes, pl, c) && PlaceOk(nodes, pl, c)) && PlaceOk(nodes, pl, dp);
    var nodes', pl' := Unlinked(nodes, dp, k), PlacesAfterUnlink(nodes, pl, c);
    CountChanges(nodes, pl.Keys, dp, nodes'[dp], pl.Keys, i, |nodes|);
    CountChanges(nodes[dp := nodes'[dp]], pl.Keys, c, nodes'[c], pl'.Keys, i, |nodes|);
    SlotsPut(es, k, Entry(0, ""), i, |es|);
    if nodes[c].kind == T_DIR {
      EmptySlots(nodes[c].entries, c, dp, i, |nodes[c].entries|);
    }
  }

  lemma {:induction false} EmptySlots(es: seq<Entry>, c: int, dp: int, i: int, n: nat)
    requires 2 <= n <= |es| && es[0] == Entry(c, ".") && es[1] == Entry(dp, "..") && Empty(es) && 0 < i
    ensures Slots(es, i, n) == if i == dp then 1 else 0
  {
    if n > 2 {
      EmptySlots(es, c, dp, i, n - 1);
    } else {
      assert Slots(es, i, 1) == Slots(es, i, 0) + Links(es[0], i);
    }
  }

  lemma UnlinkKeepsEntries(nodes: seq<Node>, pl: map<int, Place>, dp: int, k: int, d: int)
    requires Inv(nodes, pl) && CanUnlink(nodes, dp, k) && dp in pl
    requires d in PlacesAfterUnlink(nodes, pl, nodes[dp].entries[k].inum)
    ensures EntriesOk(Unlinked(nodes, dp, k), PlacesAfterUnlink(nodes, pl, nodes[dp].entries[k].inum), d)
  {
    var c := nodes[dp].entries[k].inum;
    var nodes', pl' := Unlinked(nodes, dp, k), PlacesAfterUnlink(nodes, pl, c);
    UnlinkCounts(nodes, pl, dp, k, ROOT);
    assert EntriesOk(nodes, pl, dp) && EntriesOk(nodes, pl, d);
    UniqueCleared(nodes[dp].entries, k, Entry(0, ""));
    forall j {:trigger nodes'[d].entries[j]} | 2 <= j < |nodes'[d].entries| && nodes'[d].entries[j].inum != 0
      ensures Named(nodes', pl', d, j)
    {
      assert nodes[d].entries[j].inum != 0 && Named(nodes, pl, d, j);
    }
  }

  /** unlink keeps the tree: a removed directory takes its ".." along, and nothing
      hangs from it. */
  lemma UnlinkKeeps(nodes: seq<Node>, pl: map<int, Place>, dp: int, k: int)
    requires Inv(nodes, pl) && CanUnlink(nodes, dp, k) && dp in pl
    ensures Inv(Unlinked(nodes, dp, k), PlacesAfterUnlink(nodes, pl, nodes[dp].entries[k].inum))
  {
    var c := nodes[dp].entries[k].inum;
    var nodes', pl' := Unlinked(nodes, dp, k), PlacesAfterUnlink(nodes, pl, c);
    UnlinkCounts(nodes, pl, dp, k, ROOT);
    assert EntriesOk(nodes, pl, dp) && (c in pl ==> EntriesOk(nodes, pl, c));
    forall d | d in pl'
      ensures EntriesOk(nodes', pl', d) && PlaceOk(nodes', pl', d)
    {
      UnlinkKeepsEntries(nodes, pl, dp, k, d);
      assert PlaceOk(nodes, pl, d) && EntriesOk(nodes, pl, d);
    }
    forall i | 0 < i < |nodes'|
      ensures NodeOk(nodes', pl', i)
    {
      UnlinkCounts(nodes, pl, dp, k, i);
      assert NodeOk(nodes, pl, i);
    }
  }

  /** The last reference to an unlinked inode is dropped: iput frees it. */
  lemma ReclaimKeeps(nodes: seq<Node>, pl: map<int, Place>, i: int)
    requires Inv(nodes, pl) && 0 < i < |nodes| && nodes[i].nlink == 0
    ensures Inv(nodes[i := Node(T_FREE, 0, [])], pl)
  {
    var node := Node(T_FREE, 0, []);
    var nodes' := nodes[i := node];
    assert NodeOk(nodes, pl, i);
    if i in pl {
      assert EntriesOk(nodes, pl, i);
      LinkedDirs(nodes, pl, i);
    }
    LinkCounts(nodes, pl.Keys, i, |nodes|);
    forall d | d in pl
      ensures EntriesOk(nodes', pl, d) && PlaceOk(nodes', pl, d)
    {
      assert EntriesOk(nodes, pl, d) && PlaceOk(nodes, pl, d);
      SlotCounts(nodes[d].entries, i, |nodes[d].entries|);
      forall k {:trigger nodes'[d].entries[k]} | 2 <= k < |nodes'[d].entries| && nodes'[d].entries[k].inum != 0
        ensures Named(nodes', pl, d, k)
      {
        DotsAreFirst(nodes, pl, d, k);
        assert Named(nodes, pl, d, k);
        assert Links(nodes[d].entries[k], i) == 0;
      }
    }
    forall j | 0 < j < |nodes'|
      ensures NodeOk(nodes', pl, j)
    {
      assert NodeOk(nodes, pl, j);
      CountChanges(nodes, pl.Keys, i, node, pl.Keys, j, |nodes|);
    }
  }

  /** What the invariant says of a linked directory: its ".." is the one linked
      directory that holds an entry for it, in one place. */
  lemma DotDotIsParent(nodes: seq<Node>, pl: map<int, Place>, c: int)
    requires Inv(nodes, pl) && c in pl && c != ROOT
    ensures 0 < c < |nodes| && |nodes[c].entries| >= 2 && nodes[c].entries[1] == Entry(pl[c].up, "..")
    ensures pl[c].up in pl && pl[c].up != c && pl[c].depth == pl[pl[c].up].depth + 1
    ensures 0 < pl[c].up < |nodes| && 2 <= pl[c].at < |nodes[pl[c].up].entries|
    ensures nodes[pl[c].up].entries[pl[c].at].inum == c
    ensures forall d, k | d in pl && 0 <= d < |nodes| && 2 <= k < |nodes[d].entries| && nodes[d].entries[k].inum == c ::
      d == pl[c].up && k == pl[c].at
  {
    assert EntriesOk(nodes, pl, c) && PlaceOk(nodes, pl, c);
    forall d, k | d in pl && 0 <= d < |nodes| && 2 <= k < |nodes[d].entries| && nodes[d].entries[k].inum == c
      ensures d == pl[c].up && k == pl[c].at
    {
      assert EntriesOk(nodes, pl, d);
      assert Named(nodes, pl, d, k);
    }
  }

  // ---- directories removed while they are still open ----

  /** mkdir and rmdir of one directory, inode 2, on a new disk. */
  function MadeAndRemoved(nodes: seq<Node>): (r: seq<Node>)
    requires |nodes| > 3 && nodes[ROOT] == Node(T_DIR, 1, [Entry(ROOT, "."), Entry(ROOT, "..")])
    ensures r == nodes[ROOT := Node(T_DIR, 1, [Entry(ROOT, "."), Entry(ROOT, ".."), Entry(0, "")])][2 :=
      Node(T_DIR, 0, [Entry(2, "."), Entry(ROOT, "..")])]
  {
    var made := Created(nodes, ROOT, "a", T_DIR, 2);
    FirstSlot(nodes[ROOT].entries);
    var es := [Entry(ROOT, "."), Entry(ROOT, ".."), Entry(2, "a")];
    assert made[ROOT].entries == nodes[ROOT].entries + [Entry(2, "a")] == es;
    assert made == nodes[2 := Node(T_DIR, 1, [Entry(2, "."), Entry(ROOT, "..")])][ROOT := Node(T_DIR, 2, es)];
    assert es[2 := Entry(0, "")] == [Entry(ROOT, "."), Entry(ROOT, ".."), Entry(0, "")];
    Unlinked(made, ROOT, 2)
  }

  lemma FirstSlot(es: seq<Entry>)
    requires |es| == 2 && es[0].inum != 0 && es[1].inum != 0
    ensures FreeSlot(es, 0) == 2 && forall e :: Put(es, 2, e) == es + [e]
  {
    assert FreeSlot(es, 2) == 2 && FreeSlot(es, 1) == 2;
  }

  /** A new disk, as in EmptyTree, of at least four inodes. */
  ghost predicate New(nodes: seq<Node>) {
    && |nodes| > 3 && nodes[ROOT] == Node(T_DIR, 1, [Entry(ROOT, "."), Entry(ROOT, "..")])
    && forall i | 0 <= i < |nodes| && i != ROOT :: nodes[i] == Node(T_FREE, 0, [])
  }

  lemma RemovedIsTree(nodes: seq<Node>)
    requires New(nodes)
    ensures Inv(MadeAndRemoved(nodes), map[ROOT := Place(ROOT, 1, 0)])
  {
    var pl := map[ROOT := Place(ROOT, 1, 0)];
    EmptyTree(nodes);
    var es := nodes[ROOT].entries;
    FirstSlot(es);
    assert Lookup(es, "a", 2) == 2 && Lookup(es, "a", 1) == 2 && Lookup(es, "a", 0) == 2;
    CreateKeeps(nodes, pl, ROOT, "a", T_DIR, 2);
    var made, pl1 := Created(nodes, ROOT, "a", T_DIR, 2), PlacesAfterCreate(nodes, pl, ROOT, T_DIR, 2);
    assert made[ROOT] == Node(T_DIR, 2, [Entry(ROOT, "."), Entry(ROOT, ".."), Entry(2, "a")]);
    UnlinkKeeps(made, pl1, ROOT, 2);
    assert PlacesAfterUnlink(made, pl1, 2) == pl;
  }

  /** In that directory, still open, create makes a file that no tree has; with a link to an
      existing file it is the same. */
  lemma CreateAfterRmdir(nodes: seq<Node>)
    requires New(nodes)
    ensures CanCreate(MadeAndRemoved(nodes), 2, "b", T_FILE, 3)
    ensures !exists pl :: Inv(Created(MadeAndRemoved(nodes), 2, "b", T_FILE, 3), pl)
  {
    var removed := MadeAndRemoved(nodes);
    RemovedIsTree(nodes);
    var es := removed[2].entries;
    assert Lookup(es, "b", 2) == 2 && Lookup(es, "b", 1) == 2 && Lookup(es, "b", 0) == 2;
    CreateKeepsTreeIff(removed, map[ROOT := Place(ROOT, 1, 0)], 2, "b", T_FILE, 3);
  }

  /** ... and so does link, of a file made in the root. */
  lemma LinkAfterRmdir(nodes: seq<Node>)
    requires New(nodes)
    ensures CanCreate(MadeAndRemoved(nodes), ROOT, "f", T_FILE, 3)
    ensures var filed := Created(MadeAndRemoved(nodes), ROOT, "f", T_FILE, 3);
      CanLink(filed, 2, "b", 3) && !exists pl :: Inv(Linked(filed, 2, "b", 3), pl)
  {
    var removed, pl := MadeAndRemoved(nodes), map[ROOT := Place(ROOT, 1, 0)];
    RemovedIsTree(nodes);
    var top, es := removed[ROOT].entries, removed[2].entries;
    assert Lookup(top, "f", 3) == 3 && Lookup(top, "f", 2) == 3 && Lookup(top, "f", 1) == 3 && Lookup(top, "f", 0) == 3;
    CreateKeeps(removed, pl, ROOT, "f", T_FILE, 3);
    assert Lookup(es, "b", 2) == 2 && Lookup(es, "b", 1) == 2 && Lookup(es, "b", 0) == 2;
    LinkKeepsTreeIff(Created(removed, ROOT, "f", T_FILE, 3), pl, 2, "b", 3);
  }

  // ---- the C code ----

  datatype Answer = Refused | Found(ino: int) | Made(ino: int) | Panic

  /** The inodes, with directory contents as entries. */
  class DirFs {
    var nodes: seq<Node>
    ghost var pl: map<int, Place>

    /** Between system calls the inodes form a tree, once they do. */
    ghost predicate Valid()
      reads this
    {
      Inv(nodes, pl)
    }

    method Dirlookup(dp: int, name: string) returns (k: int)
      requires 0 <= dp < |nodes|
      ensures k == Lookup(nodes[dp].entries, name, 0)
      ensures 0 <= k <= |nodes[dp].entries|
      ensures forall j | 0 <= j < k :: nodes[dp].entries[j].inum == 0 || nodes[dp].entries[j].name != name
      ensures k < |nodes[dp].entries| ==> nodes[dp].entries[k].inum != 0 && nodes[dp].entries[k].name == name
    {
      LookupMisses(nodes[dp].entries, name, 0);
      k := 0;
      while k < |nodes[dp].entries|
        invariant 0 <= k <= |nodes[dp].entries|
        invariant Lookup(nodes[dp].entries, name, 0) == Lookup(nodes[dp].entries, name, k)
      {
        var de := nodes[dp].entries[k];
        if de.inum != 0 && de.name == name {
          return;
        }
        k := k + 1;
      }
    }

    /** dirlink; false is its panic, when the directory is as large as a file can be. */
    method Dirlink(dp: int, name: string, inum: int) returns (r: int, ok: bool)
      requires 0 <= dp < |nodes|
      modifies this`nodes
      ensures var es := old(nodes)[dp].entries;
        if Lookup(es, name, 0) < |es| then r == -1 && ok && nodes == old(nodes)
        else if FreeSlot(es, 0) >= MAXENTRIES then !ok && nodes == old(nodes)
        else
          && r == 0 && ok
          && nodes == old(nodes)[dp := old(nodes)[dp].(entries := Put(es, FreeSlot(es, 0), Entry(inum, name)))]
      ensures ok && r == 0 && inum != 0 ==>
        && |nodes| == |old(nodes)| && Renamed(old(nodes)[dp].entries, nodes[dp].entries, name, inum)
        && nodes[dp].kind == old(nodes)[dp].kind && nodes[dp].nlink == old(nodes)[dp].nlink
        && forall i | 0 <= i < |nodes| && i != dp :: nodes[i] == old(nodes)[i]
    {
      var k := Dirlookup(dp, name);
      if k < |nodes[dp].entries| {
        return -1, true;
      }
      var off := 0;
      while off < |nodes[dp].entries| && nodes[dp].entries[off].inum != 0
        invariant 0 <= off <= |nodes[dp].entries| && FreeSlot(nodes[dp].entries, 0) == FreeSlot(nodes[dp].entries, off)
      {
        off := off + 1;
      }
      if off >= MAXENTRIES {
        return -1, false;
      }
      var es := nodes[dp].entries;
      nodes := nodes[dp :=
        nodes[dp].(entries := if off < |es| then es[off := Entry(inum, name)] else es + [Entry(inum, name)])];
      if inum != 0 {
        PutFinds(es, off, name, inum);
      }
      return 0, true;
    }

    method IsDirEmpty(dp: int) returns (empty: bool)
      requires 0 <= dp < |nodes|
      ensures empty <==> Empty(nodes[dp].entries)
      ensures empty <==> forall k | 2 <= k < |nodes[dp].entries| :: nodes[dp].entries[k].inum == 0
    {
      var off := 2;
      while off < |nodes[dp].entries|
        invariant 2 <= off && forall k | 2 <= k < off && k < |nodes[dp].entries| :: nodes[dp].entries[k].inum == 0
      {
        if nodes[dp].entries[off].inum != 0 {
          return false;
        }
        off := off + 1;
      }
      return true;
    }

    /** ialloc: the first free inode from 1 on, or the length. */
    method Ialloc() returns (c: int)
      ensures 1 <= c && (c < |nodes| ==> nodes[c].kind == T_FREE)
      ensures forall i | 0 < i < c && i < |nodes| :: nodes[i].kind != T_FREE
    {
      c := 1;
      while c < |nodes| && nodes[c].kind != T_FREE
        invariant 1 <= c && forall i | 0 < i < c && i < |nodes| :: nodes[i].kind != T_FREE
      {
        c := c + 1;
      }
    }

    /** create past its checks: the inode, its "." and "..", its entry. */
    method MakeEntry(dp: int, name: string, kind: int, c: int) returns (r: Answer)
      requires CanCreate(nodes, dp, name, kind, c)
      modifies this`nodes
      ensures if FreeSlot(old(nodes)[dp].entries, 0) >= MAXENTRIES
        then r.Panic?
        else
          && r == Made(c) && nodes == Created(old(nodes), dp, name, kind, c)
          && Creates(old(nodes), nodes, dp, name, kind, c)
    {
      hide Creates, Renamed;
      var es := nodes[dp].entries;
      nodes := nodes[c := Node(kind, 0, [])];
      nodes := nodes[c := nodes[c].(nlink := 1)];
      if kind == T_DIR {
        nodes := nodes[dp := nodes[dp].(nlink := Increment(nodes[dp].nlink))];
        var dot, ok := Dirlink(c, ".", c);
        assert nodes[c].entries == [Entry(c, ".")];
        var dotdot, ok' := Dirlink(c, "..", dp);
        assert nodes[c].entries == [Entry(c, "."), Entry(dp, "..")];
        if dot < 0 || dotdot < 0 || !ok || !ok' {
          return Panic;
        }
      }
      assert nodes[dp].entries == es && nodes[c] == Fresh(kind, c, dp);
      var linked, ok := Dirlink(dp, name, c);
      if linked < 0 || !ok {
        return Panic;
      }
      CreatedCreates(old(nodes), dp, name, kind, c);
      assert nodes == Created(old(nodes), dp, name, kind, c);
      return Made(c);
    }

    /** create below directory `dp`. */
    method Create(dp: int, name: string, kind: int) returns (r: Answer)
      requires Valid() && 0 < dp < |nodes| && nodes[dp].kind == T_DIR && kind != T_FREE
      modifies this
      ensures forall k | 0 <= k < |old(nodes)[dp].entries| :: 0 <= old(nodes)[dp].entries[k].inum < |old(nodes)|
      ensures var k := Lookup(old(nodes)[dp].entries, name, 0);
        k < |old(nodes)[dp].entries| ==>
          && nodes == old(nodes) && pl == old(pl)
          && r == (if kind == T_FILE && old(nodes)[old(nodes)[dp].entries[k].inum].kind == T_FILE
               then Found(old(nodes)[dp].entries[k].inum)
               else Refused)
      ensures Lookup(old(nodes)[dp].entries, name, 0) == |old(nodes)[dp].entries| ==>
        if r.Panic? then
          || FreeSlot(old(nodes)[dp].entries, 0) >= MAXENTRIES
          || forall i | 0 < i < |old(nodes)| :: old(nodes)[i].kind != T_FREE
        else
          && r.Made? && CanCreate(old(nodes), dp, name, kind, r.ino)
          && nodes == Created(old(nodes), dp, name, kind, r.ino)
      ensures r.Found? ==> kind == T_FILE && Finds(old(nodes)[dp].entries, name) == r.ino && nodes[r.ino].kind == T_FILE
      ensures !r.Made? && !r.Panic? ==> nodes == old(nodes) && Finds(old(nodes)[dp].entries, name) != 0
      ensures r.Made? ==>
        && Finds(old(nodes)[dp].entries, name) == 0 && Creates(old(nodes), nodes, dp, name, kind, r.ino)
        && 0 < r.ino < |nodes| && nodes[r.ino].kind == kind && nodes[r.ino].nlink == 1
        && Finds(nodes[dp].entries, name) == r.ino
        && forall i | 0 <= i < |nodes| && i != dp && i != r.ino :: nodes[i] == old(nodes)[i]
      ensures old(nodes)[dp].nlink > 0 && (kind == T_DIR ==> old(nodes)[dp].nlink < SHRT_MAX) && !r.Panic? ==> Valid()
    {
      HasDots(nodes, pl, dp);
      var k := Dirlookup(dp, name);
      if k < |nodes[dp].entries| {
        var f := nodes[dp].entries[k].inum;
        return if kind == T_FILE && nodes[f].kind == T_FILE then Found(f) else Refused;
      }
      var c := Ialloc();
      if c >= |nodes| {
        return Panic;
      }
      r := MakeEntry(dp, name, kind, c);
      if r.Made? && old(nodes)[dp].nlink > 0 && (kind == T_DIR ==> old(nodes)[dp].nlink < SHRT_MAX) {
        LinkedDirs(old(nodes), old(pl), dp);
        CreateKeeps(old(nodes), old(pl), dp, name, kind, c);
        pl := PlacesAfterCreate(old(nodes), old(pl), dp, kind, c);
      }
    }

    /** create of a file, twice: the second finds what the first has made or found. */
    method CreateTwice(dp: int, name: string) returns (r: Answer, again: Answer)
      requires Valid() && 0 < dp < |nodes| && nodes[dp].kind == T_DIR && nodes[dp].nlink > 0
      modifies this
      ensures r.Made? || r.Found? ==>
        Valid() && again == Found(r.ino) && dp < |nodes| && Finds(nodes[dp].entries, name) == r.ino
      ensures r.Refused? ==> again.Refused? && nodes == old(nodes)
    {
      r := Create(dp, name, T_FILE);
      again := Panic;
      if !r.Panic? {
        again := Create(dp, name, T_FILE);
      }
    }

    /** sys_link to inode `f` as `name` in `dp`, if the new path has a parent. */
    method Link(f: int, dp: Option<int>, name: string) returns (r: int, ok: bool)
      requires Valid() && 0 < f < |nodes| && nodes[f].kind != T_FREE
      requires dp.Some? ==> 0 < dp.value < |nodes| && nodes[dp.value].kind == T_DIR
      modifies this
      ensures ok && r < 0 ==> nodes == old(nodes)
      ensures ok ==> (r == 0 <==> dp.Some? && CanLink(old(nodes), dp.value, name, f))
      ensures ok && r == 0 ==> nodes == Linked(old(nodes), dp.value, name, f)
      ensures ok ==>
        (r == 0 <==> dp.Some? && old(nodes)[f].kind != T_DIR && Finds(old(nodes)[dp.value].entries, name) == 0)
      ensures ok && r == 0 ==>
        && |nodes| == |old(nodes)| && f != dp.value
        && Renamed(old(nodes)[dp.value].entries, nodes[dp.value].entries, name, f)
        && nodes[dp.value].kind == old(nodes)[dp.value].kind && nodes[dp.value].nlink == old(nodes)[dp.value].nlink
        && nodes[f] == old(nodes)[f].(nlink := nodes[f].nlink)
        && (old(nodes)[f].nlink < SHRT_MAX ==> nodes[f].nlink == old(nodes)[f].nlink + 1)
        && forall i | 0 <= i < |nodes| && i != f && i != dp.value :: nodes[i] == old(nodes)[i]
      ensures !ok ==> dp.Some? && FreeSlot(old(nodes)[dp.value].entries, 0) >= MAXENTRIES
      ensures ok && (r == 0 ==> old(nodes)[dp.value].nlink > 0 && old(nodes)[f].nlink < SHRT_MAX) ==> Valid()
    {
      if nodes[f].kind == T_DIR {
        return -1, true;
      }
      assert NodeOk(nodes, pl, f);
      nodes := nodes[f := nodes[f].(nlink := Increment(nodes[f].nlink))];
      if dp.Some? {
        r, ok := Dirlink(dp.value, name, f);
        if !ok { return; }
        if r == 0 {
          assert nodes == Linked(old(nodes), dp.value, name, f);
          if old(nodes)[dp.value].nlink > 0 && old(nodes)[f].nlink < SHRT_MAX {
            LinkedDirs(old(nodes), old(pl), dp.value);
            LinkKeeps(old(nodes), old(pl), dp.value, name, f);
          }
          return;
        }
      }
      nodes := nodes[f := nodes[f].(nlink := Decrement(nodes[f].nlink))];
      assert nodes == old(nodes);
      return -1, true;
    }

    /** sys_unlink of `name` in `dp`. The panic on a link count below one is never met. */
    method Unlink(dp: int, name: string) returns (r: int, panic: bool)
      requires Valid() && 0 < dp < |nodes| && nodes[dp].kind == T_DIR
      modifies this
      ensures !panic && Valid()
      ensures r < 0 ==> nodes == old(nodes)
      ensures forall k | 0 <= k < |old(nodes)[dp].entries| :: 0 <= old(nodes)[dp].entries[k].inum < |old(nodes)|
      ensures var k := Lookup(old(nodes)[dp].entries, name, 0);
        && (r == 0 <==> k < |old(nodes)[dp].entries| && CanUnlink(old(nodes), dp, k))
        && (r == 0 ==> nodes == Unlinked(old(nodes), dp, k))
      ensures var c := Finds(old(nodes)[dp].entries, name);
        && 0 <= c < |old(nodes)|
        && (r == 0 <==>
             && name != "." && name != ".." && c != 0
             && (old(nodes)[c].kind == T_DIR ==>
                  forall k | 2 <= k < |old(nodes)[c].entries| :: old(nodes)[c].entries[k].inum == 0))
        && (r == 0 ==>
             && |nodes| == |old(nodes)| && c != dp && Renamed(old(nodes)[dp].entries, nodes[dp].entries, name, 0)
             && nodes[dp].kind == old(nodes)[dp].kind
             && nodes[dp].nlink == old(nodes)[dp].nlink - (if old(nodes)[c].kind == T_DIR then 1 else 0)
             && nodes[c] == old(nodes)[c].(nlink := old(nodes)[c].nlink - 1)
             && forall i | 0 <= i < |nodes| && i != c && i != dp :: nodes[i] == old(nodes)[i])
    {
      hide Renamed;
      HasDots(nodes, pl, dp);
      if name == "." || name == ".." {
        return -1, false;
      }
      var k := Dirlookup(dp, name);
      if k == |nodes[dp].entries| {
        return -1, false;
      }
      var c := nodes[dp].entries[k].inum;
      assert NodeOk(nodes, pl, dp);
      NamedIsLinked(nodes, pl, dp, k);
      if nodes[c].nlink < 1 {
        return -1, true;
      }
      if nodes[c].kind == T_DIR {
        var empty := IsDirEmpty(c);
        if !empty { return -1, false; }
      }
      UnlinkKeeps(nodes, pl, dp, k);
      assert EntriesOk(nodes, pl, dp);
      ClearedFinds(nodes[dp].entries, k, Entry(0, ""));
      nodes := nodes[dp := nodes[dp].(entries := nodes[dp].entries[k := Entry(0, "")])];
      if nodes[c].kind == T_DIR {
        nodes := nodes[dp := nodes[dp].(nlink := Decrement(nodes[dp].nlink))];
      }
      nodes := nodes[c := nodes[c].(nlink := Decrement(nodes[c].nlink))];
      pl := PlacesAfterUnlink(old(nodes), pl, c);
      assert nodes == Unlinked(old(nodes), dp, k);
      return 0, false;
    }
  }
}
