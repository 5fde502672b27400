/** src/fs.c: the block allocator and the blocks of inodes, over the blocks as the log
    layer shows them. */
module Fs {
  import opened Blocks
  import opened Options
  import opened RedoLog

  const NDIRECT := 12
  const NINDIRECT := 128
  const MAXFILE := 140
  const T_DEV := 3
  const UINT := 0x1_0000_0000

  datatype Inode = Inode(kind: int, nlink: int, size: int, addrs: seq<int>)

  /** Bitmap bits, blocks, and inodes as they are in memory. */
  datatype Image = Image(used: seq<bool>, blocks: seq<Block>, inodes: seq<Inode>)

  ghost predicate Shaped(img: Image) {
    && |img.used| == |img.blocks|
    && (forall b {:trigger img.blocks[b]} | 0 <= b < |img.blocks| :: img.blocks[b].Full())
    && (forall ino {:trigger img.inodes[ino]} | 0 <= ino < |img.inodes| :: |img.inodes[ino].addrs| == NDIRECT + 1)
  }

  /** A place in an inode that can name a block: `i` below NDIRECT is a direct block,
      NDIRECT the indirect block, and `NDIRECT + 1 + j` entry `j` of that block. */
  datatype Place = Place(ino: int, i: int)

  function Addr(img: Image, ino: int, i: int): int {
    if 0 <= ino < |img.inodes| && 0 <= i < |img.inodes[ino].addrs| then img.inodes[ino].addrs[i] else 0
  }

  function Entry(img: Image, t: int, j: int): int {
    if 0 < t < |img.blocks| && 0 <= j < |img.blocks[t].words| then img.blocks[t].words[j] else 0
  }

  /** The block that place names, 0 if none. */
  function BlockAt(img: Image, ino: int, i: int): int {
    if i <= NDIRECT then Addr(img, ino, i) else Entry(img, Addr(img, ino, NDIRECT), i - NDIRECT - 1)
  }

  /** Every block that some place names is in use, named by no other place, and not a
      reserved one; every other block in use is reserved. Not counted are the first
      `k` entries of the indirect block of inode `gone`, freed by itrunc. */
  ghost predicate OwnedBut(img: Image, owner: map<int, Place>, reserved: set<int>, gone: int, k: int) {
    && (forall ino, i {:trigger BlockAt(img, ino, i)} ::
          BlockAt(img, ino, i) != 0 && !(ino == gone && NDIRECT < i <= NDIRECT + k) ==>
          BlockAt(img, ino, i) in owner && owner[BlockAt(img, ino, i)] == Place(ino, i))
    && (forall b {:trigger b in owner} | b in owner ::
          0 < b < |img.used| && img.used[b] && BlockAt(img, owner[b].ino, owner[b].i) == b && b !in reserved
          && !(owner[b].ino == gone && NDIRECT < owner[b].i <= NDIRECT + k))
    && (forall b {:trigger img.used[b]} | 0 <= b < |img.used| :: img.used[b] ==> b in reserved || b in owner)
    && (forall b {:trigger b in reserved} | b in reserved && 0 <= b < |img.used| :: img.used[b])
  }

  ghost predicate Owned(img: Image, owner: map<int, Place>, reserved: set<int>) {
    OwnedBut(img, owner, reserved, 0, 0)
  }

  /** A disk without files, as mkfs begins with: the blocks in use are the reserved ones. */
  lemma NewDiskIsOwned(img: Image)
    requires Shaped(img)
    requires forall ino, i {:trigger img.inodes[ino].addrs[i]} | 0 <= ino < |img.inodes| && 0 <= i <= NDIRECT ::
      img.inodes[ino].addrs[i] == 0
    ensures Owned(img, map[], set b | 0 <= b < |img.used| && img.used[b])
  {
    forall ino, i
      ensures BlockAt(img, ino, i) == 0
    {
      assert Addr(img, ino, NDIRECT) == 0;
    }
  }

  /** The image, if it is well formed, owned, and has as many inodes on disk; block 0
      is never handed out. */
  ghost function Sound(img: Image, owner: map<int, Place>, reserved: set<int>, ondisk: int): Option<Image> {
    if Shaped(img) && Owned(img, owner, reserved) && |img.inodes| == ondisk && 0 in reserved then Some(img) else None
  }

  /** The place of the `bn`th block of a file. */
  function DataPlace(bn: int): int {
    if bn < NDIRECT then bn else bn + 1
  }

  /** Byte `k` of a block, 0 in no block. */
  function ByteIn(img: Image, b: int, k: int): int
    requires 0 <= k < BSIZE
  {
    if 0 < b < |img.blocks| && img.blocks[b].Full() then ByteOf(img.blocks[b], k) else 0
  }

  /** Byte `k` of file `ino`, whatever its size: 0 where there is no block. */
  function FileByte(img: Image, ino: int, k: nat): int {
    ByteIn(img, BlockAt(img, ino, DataPlace(k / BSIZE)), k % BSIZE)
  }

  // ---- the disk ----

  const BPB := 4096
  const IPB := 8

  /** What a disk of `total` sectors holds, as mkfs lays it out: boot and super block, inodes,
      the bitmap, data, and from `log` on the log. `inodes` and `bits` pack the inodes and
      bits of one sector. */
  datatype Format = Format(total: nat, ninodes: nat, log: nat, inodes: seq<Inode> -> Block, bits: seq<bool> -> Block) {
    function BitmapStart(): int {
      ninodes / IPB + 3
    }
    function DataStart(): int {
      BitmapStart() + total / BPB + 1
    }
    function BitmapSector(b: int): int {
      b / BPB + ninodes / IPB + 3
    }
    function InodeSector(ino: int): int {
      ino / IPB + 2
    }
  }

  /** Bitmap, blocks and inodes as they are to be on disk. */
  datatype Volume = Volume(used: seq<bool>, blocks: seq<Block>, dinodes: seq<Inode>)

  /** The `k`th group of `n` elements. */
  function Group<T>(s: seq<T>, k: nat, n: nat): (r: seq<T>) {
    if (k + 1) * n <= |s| then s[k * n..(k + 1) * n] else if k * n <= |s| then s[k * n..] else []
  }

  function SectorOf(f: Format, v: Volume, s: nat): Block
    requires s < |v.blocks|
  {
    if 2 <= s < f.BitmapStart() then f.inodes(Group(v.dinodes, s - 2, IPB))
    else if f.BitmapStart() <= s < f.DataStart() then f.bits(Group(v.used, s - f.BitmapStart(), BPB))
    else v.blocks[s]
  }

  function OnDisk(f: Format, v: Volume): (d: Disk)
    ensures |d| == |v.blocks|
    ensures forall s: nat {:trigger d[s]} | s < |d| :: d[s] == SectorOf(f, v, s)
  {
    seq(|v.blocks|, s requires 0 <= s < |v.blocks| => SectorOf(f, v, s))
  }

  lemma OutsideGroup(i: nat, k: nat, n: nat)
    requires 0 < n && k != i / n
    ensures i < k * n || (k + 1) * n <= i
  {
    var q := i / n;
    assert n * q <= i < n * q + n;
    if k < q {
      Product(k + 1, q, n);
    } else {
      Product(q + 1, k, n);
    }
  }

  lemma Product(a: int, b: int, n: int)
    requires a <= b && 0 <= n
    ensures a * n <= b * n
  {}

  /** A change of one element changes one group. */
  lemma GroupChanges<T>(s: seq<T>, i: nat, x: T, k: nat, n: nat)
    requires i < |s| && 0 < n && k != i / n
    ensures Group(s[i := x], k, n) == Group(s, k, n)
  {
    OutsideGroup(i, k, n);
    var lo, hi := k * n, (k + 1) * n;
    assert lo <= hi by { Product(k, k + 1, n); }
    SliceStays(s, i, x, lo, if hi <= |s| then hi else |s|);
  }

  lemma SliceStays<T>(s: seq<T>, i: nat, x: T, lo: nat, hi: nat)
    requires i < |s| && (i < lo || hi <= i)
    ensures lo <= hi <= |s| ==> s[i := x][lo..hi] == s[lo..hi]
  {}

  /** The home sectors named in the first `k` of a list of writes. */
  function Sectors(ws: seq<Write>, k: nat): set<int>
    requires k <= |ws|
  {
    if k == 0 then {} else Sectors(ws, k - 1) + {ws[k - 1].sector}
  }

  lemma {:induction false} SectorsMore(ws: seq<Write>, w: Write, k: nat)
    requires k <= |ws|
    ensures Sectors(ws + [w], k) == Sectors(ws, k)
  {
    if k > 0 {
      SectorsMore(ws, w, k - 1);
    }
  }

  /** The calls of log_write that tally as `l`. */
  ghost predicate Tallied(calls: seq<Write>, l: Logged) {
    forall k {:trigger Sectors(calls, k)} | 0 <= k <= |calls| ::
      if k == |calls| then Sectors(calls, k) == l.Sectors() else !l.panic ==> |Sectors(calls, k)| < MAXLOGGED
  }

  lemma TalliedMore(calls: seq<Write>, l: Logged, w: Write, l': Logged)
    requires Tallied(calls, l) && l'.Sectors() == l.Sectors() + {w.sector} && l'.panic == l.Full()
    ensures Tallied(calls + [w], l')
  {
    assert Sectors(calls, |calls|) == l.Sectors();
    forall k | 0 <= k <= |calls|
      ensures Sectors(calls + [w], k) == Sectors(calls, k)
    {
      SectorsMore(calls, w, k);
    }
  }

  /** The volume, if the calls of log_write made so far lead from the disk before the
      transaction to exactly what is to be on disk now: every change has been logged. */
  ghost function Journal(f: Format, before: Volume, v: Volume, calls: seq<Write>, l: Logged): Option<Volume> {
    if && |v.used| == |v.blocks| == |before.blocks| == f.total && |v.dinodes| <= f.ninodes
       && (forall s: nat {:trigger SectorOf(f, v, s)} | s < |v.blocks| ::
            ApplyWrites(OnDisk(f, before), calls)[s] == SectorOf(f, v, s))
       && Tallied(calls, l)
       && (forall s {:trigger s in l.bitmap} | s in l.bitmap :: f.BitmapStart() <= s <= f.BitmapSector(f.total - 1))
    then Some(v)
    else None
  }

  lemma JournalStarts(f: Format, v: Volume)
    requires |v.used| == |v.blocks| == f.total && |v.dinodes| <= f.ninodes
    ensures Journal(f, v, v, [], Logged({}, {}, {}, {}, false)).Some?
  {}

  /** A change that shows in one sector only, and a log_write of that sector. */
  lemma JournalGoesOn(f: Format, before: Volume, v: Volume, calls: seq<Write>, l: Logged, v': Volume, w: Write,
                      l': Logged)
    requires Journal(f, before, v, calls, l).Some? && |v'.used| == |v.used| && |v'.blocks| == |v.blocks|
    requires |v'.dinodes| == |v.dinodes|
    requires 0 <= w.sector < |v.blocks| && w.data == SectorOf(f, v', w.sector)
    requires forall s: nat | s < |v.blocks| && s != w.sector :: SectorOf(f, v', s) == SectorOf(f, v, s)
    requires l'.Sectors() == l.Sectors() + {w.sector} && l'.panic == l.Full()
    requires l'.bitmap == l.bitmap ||
      (l'.bitmap == l.bitmap + {w.sector} && f.BitmapStart() <= w.sector <= f.BitmapSector(f.total - 1))
    ensures Journal(f, before, v', calls + [w], l').Some?
  {
    TalliedMore(calls, l, w, l');
    AfterPrefix(OnDisk(f, before), calls, calls + [w], |calls|);
  }

  lemma JournalsBit(f: Format, before: Volume, v: Volume, calls: seq<Write>, l: Logged, b: int, on: bool)
    requires Journal(f, before, v, calls, l).Some? && 0 <= b < |v.used| && f.DataStart() <= f.total
    ensures var v', s := v.(used := v.used[b := on]), f.BitmapSector(b);
      && 0 <= s < |v.blocks|
      && Journal(f, before, v', calls + [Write(s, SectorOf(f, v', s))], l.Bitmap(s)).Some?
  {
    var v', s := v.(used := v.used[b := on]), f.BitmapSector(b);
    assert b / BPB <= f.total / BPB;
    forall r: nat | r < |v.blocks| && r != s
      ensures SectorOf(f, v', r) == SectorOf(f, v, r)
    {
      if f.BitmapStart() <= r < f.DataStart() {
        GroupChanges(v.used, b, on, r - f.BitmapStart(), BPB);
      }
    }
    JournalGoesOn(f, before, v, calls, l, v', Write(s, SectorOf(f, v', s)), l.Bitmap(s));
  }

  lemma JournalsBlock(f: Format, before: Volume, v: Volume, calls: seq<Write>, l: Logged, b: int, blk: Block,
                      table: bool)
    requires Journal(f, before, v, calls, l).Some? && f.DataStart() <= b < |v.blocks|
    ensures var l' := if table then l.Table(b) else l.Data(b);
      Journal(f, before, v.(blocks := v.blocks[b := blk]), calls + [Write(b, blk)], l').Some?
  {
    var l' := if table then l.Table(b) else l.Data(b);
    JournalGoesOn(f, before, v, calls, l, v.(blocks := v.blocks[b := blk]), Write(b, blk), l');
  }

  lemma JournalsInode(f: Format, before: Volume, v: Volume, calls: seq<Write>, l: Logged, ino: int, ip: Inode)
    requires Journal(f, before, v, calls, l).Some? && 0 <= ino < |v.dinodes| && f.DataStart() <= f.total
    ensures var v', s := v.(dinodes := v.dinodes[ino := ip]), f.InodeSector(ino);
      && 0 <= s < |v.blocks|
      && Journal(f, before, v', calls + [Write(s, SectorOf(f, v', s))], l.Inode(s)).Some?
  {
    var v', s := v.(dinodes := v.dinodes[ino := ip]), f.InodeSector(ino);
    assert ino / IPB <= f.ninodes / IPB;
    forall r: nat | r < |v.blocks| && r != s
      ensures SectorOf(f, v', r) == SectorOf(f, v, r)
    {
      if 2 <= r < f.BitmapStart() {
        GroupChanges(v.dinodes, ino, ip, r - 2, IPB);
      }
    }
    JournalGoesOn(f, before, v, calls, l, v', Write(s, SectorOf(f, v', s)), l.Inode(s));
  }

  // ---- allocating a block for a place ----

  /** `b`, zeroed, becomes the block of a place that names none. */
  function Allocated(img: Image, ino: int, i: int, b: int): (r: Image)
    requires 0 <= b < |img.used| == |img.blocks| && 0 <= ino < |img.inodes| && 0 <= i
    requires |img.inodes[ino].addrs| == NDIRECT + 1
  {
    var used, blocks := img.used[b := true], img.blocks[b := Zeroed()];
    if i <= NDIRECT
      then Image(used, blocks, img.inodes[ino := img.inodes[ino].(addrs := img.inodes[ino].addrs[i := b])])
    else
      var t, j := img.inodes[ino].addrs[NDIRECT], i - NDIRECT - 1;
      if 0 < t < |blocks| && j < |blocks[t].words|
        then Image(used, blocks[t := Block(blocks[t].words[j := b])], img.inodes)
      else Image(used, blocks, img.inodes)
  }

  /** A place that can be given a block now. */
  ghost predicate Vacant(img: Image, ino: int, i: int) {
    && 0 <= ino < |img.inodes| && 0 <= i <= MAXFILE && BlockAt(img, ino, i) == 0
    && (i > NDIRECT ==> Addr(img, ino, NDIRECT) != 0)
  }

  /** Only the vacant place changes what it names. */
  lemma AllocatedPlaces(img: Image, owner: map<int, Place>, reserved: set<int>, ino: int, i: int, b: int, ino': int,
                        i': int)
    requires Shaped(img) && Owned(img, owner, reserved) && Vacant(img, ino, i) && 0 < b < |img.used| && !img.used[b]
    ensures Shaped(Allocated(img, ino, i, b))
    ensures BlockAt(Allocated(img, ino, i, b), ino', i') == if ino' == ino && i' == i then b else BlockAt(img, ino', i')
  {
    var t, t' := BlockAt(img, ino, NDIRECT), BlockAt(img, ino', NDIRECT);
  }

  lemma AllocatedOwned(img: Image, owner: map<int, Place>, reserved: set<int>, ino: int, i: int, b: int)
    requires Shaped(img) && Owned(img, owner, reserved) && Vacant(img, ino, i) && 0 < b < |img.used| && !img.used[b]
    ensures b !in owner && Shaped(Allocated(img, ino, i, b))
    ensures Owned(Allocated(img, ino, i, b), owner[b := Place(ino, i)], reserved)
  {
    var img' := Allocated(img, ino, i, b);
    assert b !in owner && b !in reserved;
    forall ino', i'
      ensures BlockAt(img', ino', i') == if ino' == ino && i' == i then b else BlockAt(img, ino', i')
    {
      AllocatedPlaces(img, owner, reserved, ino, i, b, ino', i');
    }
    assert img'.used == img.used[b := true];
  }

  /** No byte of any file changes: the new block is zero, as no block was. */
  lemma AllocatedBytes(img: Image, owner: map<int, Place>, reserved: set<int>, ino: int, i: int, b: int, ino': int,
                       k: nat)
    requires Shaped(img) && Owned(img, owner, reserved) && Vacant(img, ino, i) && 0 < b < |img.used| && !img.used[b]
    ensures FileByte(Allocated(img, ino, i, b), ino', k) == FileByte(img, ino', k)
  {
    var i' := DataPlace(k / BSIZE);
    AllocatedPlaces(img, owner, reserved, ino, i, b, ino', i');
    ZeroedBytes(k % BSIZE);
    assert BlockAt(img, ino', i') != 0 ==> BlockAt(img, ino', i') in owner;
    assert BlockAt(img, ino, NDIRECT) != 0 ==> BlockAt(img, ino, NDIRECT) in owner;
  }

  // ---- writing into a file's block ----

  /** Block `b` after memmove of `m` bytes to `at`. */
  function Stored(img: Image, b: int, at: int, src: seq<int>, from: int, m: nat): Image
    requires 0 <= b < |img.blocks| && img.blocks[b].Full() && 0 <= at && at + m <= BSIZE && 0 <= from
    requires from + m <= |src|
  {
    img.(blocks := img.blocks[b := CopyIn(img.blocks[b], at, src, from, m)])
  }

  /** Data blocks hold no block numbers, so ownership is as before. */
  lemma StoredPlaces(img: Image, owner: map<int, Place>, reserved: set<int>, ino: int, bn: int, at: int, src: seq<int>,
                     from: int, m: nat)
    requires Shaped(img) && Owned(img, owner, reserved) && 0 <= bn && BlockAt(img, ino, DataPlace(bn)) != 0
    requires 0 <= at && at + m <= BSIZE && 0 <= from && from + m <= |src|
    ensures 0 < BlockAt(img, ino, DataPlace(bn)) < |img.blocks|
    ensures var img' := Stored(img, BlockAt(img, ino, DataPlace(bn)), at, src, from, m);
      && Shaped(img') && Owned(img', owner, reserved)
      && forall ino', i' {:trigger BlockAt(img', ino', i')} :: BlockAt(img', ino', i') == BlockAt(img, ino', i')
  {
    var b := BlockAt(img, ino, DataPlace(bn));
    assert b in owner;
    var img' := Stored(img, b, at, src, from, m);
    forall ino', i'
      ensures BlockAt(img', ino', i') == BlockAt(img, ino', i')
    {
      assert BlockAt(img, ino', NDIRECT) != b;
    }
  }

  /** Exactly those bytes of exactly that file change. */
  lemma StoredBytes(img: Image, owner: map<int, Place>, reserved: set<int>, ino: int, bn: nat, at: int, src: seq<int>,
                    from: int, m: nat, ino': int, k: nat)
    requires Shaped(img) && Owned(img, owner, reserved) && BlockAt(img, ino, DataPlace(bn)) != 0
    requires 0 <= at && at + m <= BSIZE && 0 <= from && from + m <= |src|
    requires forall i | 0 <= i < |src| :: 0 <= src[i] < 0x100
    ensures 0 < BlockAt(img, ino, DataPlace(bn)) < |img.blocks|
    ensures FileByte(Stored(img, BlockAt(img, ino, DataPlace(bn)), at, src, from, m), ino', k) ==
      if ino' == ino && bn * BSIZE + at <= k < bn * BSIZE + at + m
        then src[from + k - bn * BSIZE - at]
        else FileByte(img, ino', k)
  {
    StoredPlaces(img, owner, reserved, ino, bn, at, src, from, m);
    var b, i' := BlockAt(img, ino, DataPlace(bn)), DataPlace(k / BSIZE);
    CopyInBytes(img.blocks[b], at, src, from, m, k % BSIZE);
    assert k == k / BSIZE * BSIZE + k % BSIZE;
    if BlockAt(img, ino', i') == b {
      assert owner[b] == Place(ino, DataPlace(bn));
    }
  }

  // ---- freeing the blocks of an inode ----

  /** itrunc at a direct block. */
  function DirectFreed(img: Image, ino: int, i: int): Image
    requires 0 <= ino < |img.inodes| && 0 <= i < |img.inodes[ino].addrs| && 0 <= img.inodes[ino].addrs[i] < |img.used|
  {
    img.(used := img.used[img.inodes[ino].addrs[i] := false],
         inodes := img.inodes[ino := img.inodes[ino].(addrs := img.inodes[ino].addrs[i := 0])])
  }

  lemma DirectFreedOwned(img: Image, owner: map<int, Place>, reserved: set<int>, ino: int, i: int)
    requires Shaped(img) && Owned(img, owner, reserved) && 0 <= ino < |img.inodes| && 0 <= i < NDIRECT
    requires BlockAt(img, ino, i) != 0
    ensures var b := BlockAt(img, ino, i);
      && 0 < b < |img.used| && img.used[b] && b in owner && owner[b].ino == ino
      && Shaped(DirectFreed(img, ino, i)) && Owned(DirectFreed(img, ino, i), owner - {b}, reserved)
  {
    var b, img' := BlockAt(img, ino, i), DirectFreed(img, ino, i);
    forall ino', i'
      ensures BlockAt(img', ino', i') == if ino' == ino && i' == i then 0 else BlockAt(img, ino', i')
    {}
    assert b in owner && owner[b] == Place(ino, i);
  }

  /** itrunc at an entry of the indirect block: the entry itself stays. */
  lemma EntryFreedOwned(img: Image, owner: map<int, Place>, reserved: set<int>, ino: int, k: int)
    requires Shaped(img) && OwnedBut(img, owner, reserved, ino, k) && 0 <= k < NINDIRECT
    ensures var b := BlockAt(img, ino, NDIRECT + 1 + k);
      if b == 0 then OwnedBut(img, owner, reserved, ino, k + 1)
      else
        && 0 < b < |img.used| && img.used[b] && b in owner && owner[b].ino == ino
        && OwnedBut(img.(used := img.used[b := false]), owner - {b}, reserved, ino, k + 1)
  {
    var b := BlockAt(img, ino, NDIRECT + 1 + k);
    if b != 0 {
      assert b in owner && owner[b] == Place(ino, NDIRECT + 1 + k);
      var img' := img.(used := img.used[b := false]);
      forall ino', i'
        ensures BlockAt(img', ino', i') == BlockAt(img, ino', i')
      {}
    }
  }

  /** itrunc at the indirect block, once its entries are free. */
  lemma TableFreedOwned(img: Image, owner: map<int, Place>, reserved: set<int>, ino: int)
    requires Shaped(img) && OwnedBut(img, owner, reserved, ino, NINDIRECT) && 0 <= ino < |img.inodes|
    requires BlockAt(img, ino, NDIRECT) != 0
    ensures var t := BlockAt(img, ino, NDIRECT);
      && 0 < t < |img.used| && img.used[t] && t in owner && owner[t].ino == ino
      && Shaped(DirectFreed(img, ino, NDIRECT)) && Owned(DirectFreed(img, ino, NDIRECT), owner - {t}, reserved)
  {
    var t, img' := BlockAt(img, ino, NDIRECT), DirectFreed(img, ino, NDIRECT);
    forall ino', i'
      ensures BlockAt(img', ino', i') == if ino' == ino && i' >= NDIRECT then 0 else BlockAt(img, ino', i')
    {}
    assert t in owner && owner[t] == Place(ino, NDIRECT);
  }

  /** So far, of what `img0` and `owner0` were, only blocks of `ino` have been given up. */
  ghost predicate Shrunk(img0: Image, owner0: map<int, Place>, img: Image, owner: map<int, Place>, ino: int) {
    && img.blocks == img0.blocks && |img.used| == |img0.used| && |img.inodes| == |img0.inodes|
    && (forall ino' {:trigger img.inodes[ino']} | 0 <= ino' < |img.inodes| && ino' != ino ::
         img.inodes[ino'] == img0.inodes[ino'])
    && (forall b {:trigger b in owner} | b in owner :: b in owner0 && owner[b] == owner0[b])
    && (forall b {:trigger b in owner0} | b in owner0 && b !in owner :: owner0[b].ino == ino)
  }

  /** An inode without addresses has given up exactly its own blocks, and no other
      inode has lost a byte. */
  lemma TruncatedExactly(img0: Image, owner0: map<int, Place>, img: Image, owner: map<int, Place>, reserved: set<int>,
                         ino: int)
    requires Owned(img0, owner0, reserved) && Shaped(img) && Owned(img, owner, reserved)
    requires Shrunk(img0, owner0, img, owner, ino)
    requires forall i | 0 <= i <= NDIRECT :: Addr(img, ino, i) == 0
    ensures |img.inodes| == |img0.inodes| && |img.used| == |img0.used|
    ensures forall ino' | 0 <= ino' < |img.inodes| && ino' != ino :: img.inodes[ino'] == img0.inodes[ino']
    ensures forall i :: BlockAt(img, ino, i) == 0
    ensures forall b | 0 <= b < |img.used| ::
      img.used[b] <==> img0.used[b] && !(exists i :: BlockAt(img0, ino, i) == b && b != 0)
    ensures forall ino', k: nat | ino' != ino :: FileByte(img, ino', k) == FileByte(img0, ino', k)
  {}

  // ---- what bmap may change ----

  /** The same bytes in every file, and the same inodes but for block addresses. */
  ghost predicate SameFiles(img: Image, img': Image) {
    && |img'.inodes| == |img.inodes| && |img'.used| == |img.used|
    && (forall ino, k: nat {:trigger FileByte(img', ino, k)} :: FileByte(img', ino, k) == FileByte(img, ino, k))
    && (forall ino {:trigger img'.inodes[ino]} | 0 <= ino < |img.inodes| ::
          img'.inodes[ino].(addrs := []) == img.inodes[ino].(addrs := []))
  }

  /** Places keep their blocks; inode `ino` may have gained one at `i`, and an indirect block
      if that is where place `i` is. */
  ghost predicate Gained(img: Image, img': Image, ino: int, i: int) {
    && BlockAt(img', ino, i) != 0
    && (forall ino', i' {:trigger BlockAt(img', ino', i')} ::
          BlockAt(img', ino', i') == BlockAt(img, ino', i')
          || (ino' == ino && (i' == i || (i' == NDIRECT && NDIRECT < i)) && BlockAt(img, ino', i') == 0))
  }

  lemma AllocatedGains(img: Image, owner: map<int, Place>, reserved: set<int>, ino: int, i: int, b: int)
    requires Shaped(img) && Owned(img, owner, reserved) && Vacant(img, ino, i) && 0 < b < |img.used| && !img.used[b]
    ensures var img' := Allocated(img, ino, i, b);
      Shaped(img') && SameFiles(img, img') && Gained(img, img', ino, i) && BlockAt(img', ino, i) == b
  {
    var img' := Allocated(img, ino, i, b);
    forall ino', i'
      ensures BlockAt(img', ino', i') == if ino' == ino && i' == i then b else BlockAt(img, ino', i')
    {
      AllocatedPlaces(img, owner, reserved, ino, i, b, ino', i');
    }
    forall ino', k: nat
      ensures FileByte(img', ino', k) == FileByte(img, ino', k)
    {
      AllocatedBytes(img, owner, reserved, ino, i, b, ino', k);
    }
  }

  lemma GainedNothing(img: Image, ino: int, i: int)
    requires BlockAt(img, ino, i) != 0
    ensures SameFiles(img, img) && Gained(img, img, ino, i)
  {}

  lemma GainedTwice(a: Image, b: Image, c: Image, ino: int, i: int)
    requires SameFiles(a, b) && Gained(a, b, ino, NDIRECT) && SameFiles(b, c) && Gained(b, c, ino, i) && NDIRECT < i
    ensures SameFiles(a, c) && Gained(a, c, ino, i)
  {}

  // ---- files as flat byte sequences ----

  /** Every block below the size is there. */
  ghost predicate NoHoles(img: Image, ino: int)
    requires 0 <= ino < |img.inodes|
  {
    forall bn {:trigger DataPlace(bn)} | 0 <= bn && bn * BSIZE < img.inodes[ino].size ::
      BlockAt(img, ino, DataPlace(bn)) != 0
  }

  /** The contents of a file. */
  ghost function Contents(img: Image, ino: int): (c: seq<int>)
    requires 0 <= ino < |img.inodes|
  {
    var size := img.inodes[ino].size;
    seq(if size < 0 then 0 else size, k requires 0 <= k => FileByte(img, ino, k))
  }

  /** `img'` is `img` with `src[..m]` written to file `ino` at `off`: all blocks it lies
      in are there, no other byte and no size has changed. */
  ghost predicate Written(img: Image, img': Image, ino: int, src: seq<int>, off: int, m: int)
    requires 0 <= m <= |src|
  {
    && |img'.inodes| == |img.inodes| && |img'.used| == |img.used|
    && (forall ino' {:trigger img'.inodes[ino']} | 0 <= ino' < |img.inodes| ::
          img'.inodes[ino'].(addrs := []) == img.inodes[ino'].(addrs := []))
    && (forall ino', k: nat {:trigger FileByte(img', ino', k)} ::
          FileByte(img', ino', k) == if ino' == ino && off <= k < off + m then src[k - off] else FileByte(img, ino', k))
    && (forall ino', i {:trigger BlockAt(img', ino', i)} ::
          BlockAt(img', ino', i) == BlockAt(img, ino', i) || (ino' == ino && BlockAt(img, ino', i) == 0))
    && (forall bn {:trigger DataPlace(bn)} | 0 < m && off / BSIZE <= bn && bn * BSIZE < off + m ::
         BlockAt(img', ino, DataPlace(bn)) != 0)
  }

  /** Blocks of a range that grows within block `(off + m) / BSIZE`: that one, and those before. */
  lemma BlocksOfMore(off: int, m: int, d: int, bn: int)
    requires 0 <= off && 0 <= m && 0 <= d && (off + m) % BSIZE + d <= BSIZE && bn * BSIZE < off + m + d
    requires off / BSIZE <= bn
    ensures bn == (off + m) / BSIZE || (0 < m && bn * BSIZE < off + m)
  {}

  /** The bytes of one block more. */
  lemma WrittenMore(img: Image, a: Image, b: Image, owner: map<int, Place>, reserved: set<int>, ino: int, src: seq<int>,
                    off: int, m: int, d: int)
    requires 0 <= off && 0 <= m && 0 <= d && m + d <= |src| && forall i | 0 <= i < |src| :: 0 <= src[i] < 0x100
    requires Written(img, a, ino, src, off, m) && SameFiles(a, b) && Gained(a, b, ino, DataPlace((off + m) / BSIZE))
    requires Shaped(b) && Owned(b, owner, reserved) && (off + m) % BSIZE + d <= BSIZE
    ensures var blk := BlockAt(b, ino, DataPlace((off + m) / BSIZE));
      && 0 < blk < |b.blocks|
      && var c := Stored(b, blk, (off + m) % BSIZE, src, m, d);
      && Shaped(c) && Owned(c, owner, reserved) && Written(img, c, ino, src, off, m + d)
      && BlockAt(c, ino, NDIRECT) == BlockAt(b, ino, NDIRECT)
  {
    hide FileByte, BlockAt, Owned, DataPlace;
    var bn, at := (off + m) / BSIZE, (off + m) % BSIZE;
    StoredPlaces(b, owner, reserved, ino, bn, at, src, m, d);
    var c := Stored(b, BlockAt(b, ino, DataPlace(bn)), at, src, m, d);
    forall bn' | 0 < m + d && off / BSIZE <= bn' && bn' * BSIZE < off + m + d
      ensures BlockAt(c, ino, DataPlace(bn')) != 0
    {
      BlocksOfMore(off, m, d, bn');
    }
    forall ino', k: nat
      ensures FileByte(c, ino', k) == if ino' == ino && off <= k < off + m + d
        then src[k - off]
        else FileByte(img, ino', k)
    {
      StoredBytes(b, owner, reserved, ino, bn, at, src, m, d, ino', k);
    }
  }

  /** `c` with `d` written at `at`, growing if it goes past the end. */
  function Spliced(c: seq<int>, d: seq<int>, at: nat): seq<int>
    requires at <= |c|
  {
    if d == [] then c else c[..at] + d + (if at + |d| < |c| then c[at + |d|..] else [])
  }

  function Resized(img: Image, ino: int, size: int): Image
    requires 0 <= ino < |img.inodes|
  {
    img.(inodes := img.inodes[ino := img.inodes[ino].(size := size)])
  }

  lemma ResizedPlaces(img: Image, owner: map<int, Place>, reserved: set<int>, ino: int, size: int)
    requires Shaped(img) && Owned(img, owner, reserved) && 0 <= ino < |img.inodes|
    ensures var r := Resized(img, ino, size);
      && Shaped(r) && Owned(r, owner, reserved)
      && (forall ino', i {:trigger BlockAt(r, ino', i)} :: BlockAt(r, ino', i) == BlockAt(img, ino', i))
      && (forall ino', k: nat {:trigger FileByte(r, ino', k)} :: FileByte(r, ino', k) == FileByte(img, ino', k))
  {
    var r := Resized(img, ino, size);
    forall ino', i
      ensures BlockAt(r, ino', i) == BlockAt(img, ino', i)
    {}
  }

  /** The size writei leaves. */
  function SizeAfter(size: int, off: int, n: int): int {
    if n > 0 && off + n > size then off + n else size
  }

  lemma SplicedAt(c: seq<int>, d: seq<int>, at: nat, k: nat)
    requires at <= |c|
    ensures |Spliced(c, d, at)| == SizeAfter(|c|, at, |d|)
    ensures k < |Spliced(c, d, at)| ==> Spliced(c, d, at)[k] == if at <= k < at + |d| then d[k - at] else c[k]
  {}

  /** `b` is `a`, which is `img` with `src[..n]` written at `off`, and the new size. */
  ghost predicate Finished(img: Image, a: Image, b: Image, ino: int, src: seq<int>, off: int, n: int)
    requires 0 <= n <= |src|
  {
    && Written(img, a, ino, src, off, n) && 0 <= ino < |img.inodes| == |b.inodes|
    && b.inodes[ino].size == SizeAfter(img.inodes[ino].size, off, n)
    && (forall ino' {:trigger b.inodes[ino']} | 0 <= ino' < |a.inodes| && ino' != ino ::
         b.inodes[ino'] == a.inodes[ino'])
    && (forall ino', i {:trigger BlockAt(b, ino', i)} :: BlockAt(b, ino', i) == BlockAt(a, ino', i))
    && (forall ino', k: nat {:trigger FileByte(b, ino', k)} :: FileByte(b, ino', k) == FileByte(a, ino', k))
  }

  /** Seen as flat files, the write is a splice into one file. */
  lemma WrittenContents(img: Image, a: Image, b: Image, ino: int, src: seq<int>, off: nat, n: nat)
    requires n <= |src| && Finished(img, a, b, ino, src, off, n) && off <= img.inodes[ino].size
    ensures Contents(b, ino) == Spliced(Contents(img, ino), src[..n], off)
  {
    var c, s := Contents(b, ino), Spliced(Contents(img, ino), src[..n], off);
    SplicedAt(Contents(img, ino), src[..n], off, 0);
    forall k: nat | k < |c|
      ensures c[k] == s[k]
    {
      SplicedAt(Contents(img, ino), src[..n], off, k);
      assert FileByte(b, ino, k) == FileByte(a, ino, k);
    }
  }

  /** ... and no other file changes. */
  lemma WrittenElsewhere(img: Image, a: Image, b: Image, ino: int, src: seq<int>, off: nat, n: nat, ino': int)
    requires n <= |src| && Finished(img, a, b, ino, src, off, n) && 0 <= ino' < |img.inodes| && ino' != ino
    ensures Contents(b, ino') == Contents(img, ino')
  {}

  lemma WrittenNoHoles(img: Image, a: Image, b: Image, ino: int, src: seq<int>, off: nat, n: nat)
    requires n <= |src| && Finished(img, a, b, ino, src, off, n) && off <= img.inodes[ino].size && NoHoles(img, ino)
    ensures NoHoles(b, ino)
  {}

  // ---- what a transaction logs ----

  const MAXLOGGED := 9
  const CHUNK := (10 - 1 - 1 - 2) / 2 * BSIZE

  /** The distinct sectors logged so far, and whether a log_write came when the log,
      of MAXLOGGED blocks, was full: that one panics (src/log.c). */
  datatype Logged = Logged(bitmap: set<int>, data: set<int>, table: set<int>, inode: set<int>, panic: bool) {
    ghost function Sectors(): set<int> {
      bitmap + data + table + inode
    }
    ghost function Full(): bool {
      panic || |Sectors()| >= MAXLOGGED
    }
    ghost function Bitmap(s: int): Logged {
      this.(bitmap := bitmap + {s}, panic := Full())
    }
    ghost function Data(s: int): Logged {
      this.(data := data + {s}, panic := Full())
    }
    ghost function Table(s: int): Logged {
      this.(table := table + {s}, panic := Full())
    }
    /** A block `b` marked in bitmap sector `s` and zeroed, perhaps to be a table. */
    ghost function Zeroed(s: int, b: int, table: bool): Logged {
      if table then Bitmap(s).Table(b) else Bitmap(s).Data(b)
    }
    /** A block `b` allocated for place `i`: its bitmap sector, the block, and the
        indirect block `t` if that is where it is entered. */
    ghost function Attached(s: int, b: int, i: int, t: int): Logged {
      if i < NDIRECT then Bitmap(s).Data(b) else if i == NDIRECT then Bitmap(s).Table(b) else Bitmap(s).Data(b).Table(t)
    }
    ghost function Inode(s: int): Logged {
      this.(inode := inode + {s}, panic := Full())
    }
  }

  /** More is logged, and no panic came while fewer than MAXLOGGED sectors were. */
  ghost predicate Grown(a: Logged, b: Logged) {
    && a.bitmap <= b.bitmap && a.data <= b.data && a.table <= b.table && a.inode <= b.inode
    && (b.panic ==> a.panic || |b.Sectors()| >= MAXLOGGED)
  }

  /** A disk of up to three bitmap sectors. */
  lemma FewBitmapSectors(f: Format, before: Volume, v: Volume, calls: seq<Write>, l: Logged)
    requires Journal(f, before, v, calls, l).Some? && f.total <= 3 * BPB
    ensures |l.bitmap| <= 3
  {
    var b := f.BitmapStart();
    forall s | s in l.bitmap
      ensures s in {b, b + 1, b + 2}
    {
      assert (f.total - 1) / BPB <= 2;
    }
    SubsetSize(l.bitmap, {b, b + 1, b + 2});
    var three := {b, b + 1, b + 2};
    assert |three| <= 3;
  }

  lemma SubsetSize(a: set<int>, b: set<int>)
    requires a <= b
    ensures |a| <= |b|
  {
    assert b == a + (b - a);
  }

  lemma GrownTwice(a: Logged, b: Logged, c: Logged)
    requires Grown(a, b) && Grown(b, c)
    ensures Grown(a, c)
  {
    SubsetSize(b.Sectors(), c.Sectors());
  }

  lemma AttachedGrows(l: Logged, s: int, b: int, i: int, t: int)
    ensures Grown(l, l.Attached(s, b, i, t)) && l.Attached(s, b, i, t).inode == l.inode
    ensures l.Attached(s, b, i, t).data <= l.data + if i == NDIRECT then {} else {b}
    ensures l.Attached(s, b, i, t).table <= l.table + if i == NDIRECT then {b} else if i < NDIRECT then {} else {t}
  {
    var r := l.Attached(s, b, i, t);
    var l1 := l.Bitmap(s);
    SubsetSize(l.Sectors(), r.Sectors());
    SubsetSize(l1.Sectors(), r.Sectors());
    SubsetSize(l1.Data(b).Sectors(), l1.Data(b).Table(t).Sectors());
  }

  /** What bmap logs besides bitmap sectors: the block and the indirect block. */
  ghost predicate BmapLogs(a: Logged, b: Logged, addr: int, t: int) {
    Grown(a, b) && b.data <= a.data + {addr} && b.table <= a.table + ({t} - {0}) && b.inode == a.inode
  }

  /** What writing one block logs: one data block at most, and the indirect block,
      which may be new. */
  ghost predicate BlockLogged(a: Logged, b: Logged, t: int, t': int) {
    Grown(a, b) && |b.data| <= |a.data| + 1 && b.table <= a.table + ({t'} - {0}) && b.inode == a.inode &&
      (t != 0 ==> t' == t)
  }

  lemma DataLogs(a: Logged, b: Logged, addr: int, t: int, t': int)
    requires BmapLogs(a, b, addr, t') && (t != 0 ==> t' == t)
    ensures BlockLogged(a, b.Data(addr), t, t')
  {
    SubsetSize(b.Sectors(), b.Data(addr).Sectors());
    GrownTwice(a, b, b.Data(addr));
    SubsetSize(b.data + {addr}, a.data + {addr});
  }

  /** Distinct blocks that `n` bytes from `off` lie in. */
  function Spanned(off: int, n: int): int {
    if n <= 0 then 0 else (off + n - 1) / BSIZE - off / BSIZE + 1
  }

  /** What writei has logged since `a`, given the indirect block `t`, after `m` bytes. */
  ghost predicate WriteLogged(a: Logged, b: Logged, t: int, off: int, m: int) {
    Grown(a, b) && |b.data| <= |a.data| + Spanned(off, m) && b.table <= a.table + ({t} - {0}) && b.inode == a.inode
  }

  lemma WriteLogsMore(a: Logged, b: Logged, c: Logged, t: int, t': int, off: int, m: int, d: int)
    requires WriteLogged(a, b, t, off, m) && BlockLogged(b, c, t, t')
    requires 0 <= off && 0 <= m && 0 < d && (m == 0 || (off + m) % BSIZE == 0) && (off + m) % BSIZE + d <= BSIZE
    ensures WriteLogged(a, c, t', off, m + d)
  {
    GrownTwice(a, b, c);
    assert Spanned(off, m + d) == Spanned(off, m) + 1;
  }

  /** What writei logs: its blocks, perhaps the indirect block, and last perhaps its inode. */
  ghost predicate LoggedBy(a: Logged, b: Logged, t: int, off: int, n: int, s: int) {
    exists c :: WriteLogged(a, c, t, off, n) && (b == c || b == c.Inode(s))
  }

  /** A chunk of filewrite lies in at most four blocks, so it logs at most four data
      blocks, the indirect block and, last, its inode, besides bitmap sectors: three
      of those are no more than the log holds. */
  lemma ChunkFitsLog(b: Logged, t: int, off: int, n: int, s: int)
    requires LoggedBy(Logged({}, {}, {}, {}, false), b, t, off, n, s) && 0 <= off && 0 <= n <= CHUNK && |b.bitmap| <= 3
    ensures !b.panic && |b.data| <= 4 && |b.table| <= 1 && |b.inode| <= 1
  {
    var a := Logged({}, {}, {}, {}, false);
    var c :| WriteLogged(a, c, t, off, n) && (b == c || b == c.Inode(s));
    SubsetSize(c.table, {t});
    assert c.inode == {};
    assert |c.Sectors()| <= |c.bitmap| + |c.data| + |c.table| + |c.inode|;
  }

  lemma SplicedTwice(c: seq<int>, d: seq<int>, e: seq<int>, at: nat)
    requires at <= |c|
    ensures |Spliced(c, d, at)| >= at + |d| || d == []
    ensures Spliced(Spliced(c, d, at), e, at + |d|) == Spliced(c, d + e, at)
  {}

  /** The image `b`, if it is `a` with `d` spliced into file `ino` at `off` and no other
      file changed. */
  ghost function FileSpliced(a: Image, b: Image, ino: int, d: seq<int>, off: int): Option<Image> {
    if && 0 <= ino < |a.inodes| == |b.inodes| && 0 <= off <= a.inodes[ino].size
       && b.inodes[ino].kind == a.inodes[ino].kind && b.inodes[ino].size == SizeAfter(a.inodes[ino].size, off, |d|)
       && Contents(b, ino) == Spliced(Contents(a, ino), d, off)
       && (forall ino' {:trigger Contents(b, ino')} | 0 <= ino' < |a.inodes| && ino' != ino ::
            Contents(b, ino') == Contents(a, ino'))
    then Some(b)
    else None
  }

  /** writei's loop and then its new size are a splice, and leave no hole. */
  lemma WriteIsSplice(img: Image, a: Image, owner: map<int, Place>, reserved: set<int>, ondisk: int, ino: int,
                      src: seq<int>, off: nat, n: nat)
    requires 0 <= ino < |img.inodes| && off <= img.inodes[ino].size && n <= |src| && Written(img, a, ino, src, off, n)
    requires Sound(a, owner, reserved, ondisk).Some?
    ensures var b := Resized(a, ino, SizeAfter(img.inodes[ino].size, off, n));
      && Sound(b, owner, reserved, ondisk).Some? && FileSpliced(img, b, ino, src[..n], off).Some?
      && (NoHoles(img, ino) ==> NoHoles(b, ino))
      && a.inodes[ino].size == img.inodes[ino].size && BlockAt(b, ino, NDIRECT) == BlockAt(a, ino, NDIRECT)
  {
    var b := Resized(a, ino, SizeAfter(img.inodes[ino].size, off, n));
    assert a.inodes[ino].(addrs := []) == img.inodes[ino].(addrs := []);
    ResizedPlaces(a, owner, reserved, ino, SizeAfter(img.inodes[ino].size, off, n));
    assert Finished(img, a, b, ino, src, off, n);
    WrittenContents(img, a, b, ino, src, off, n);
    forall ino' | 0 <= ino' < |img.inodes| && ino' != ino
      ensures Contents(b, ino') == Contents(img, ino')
    {
      WrittenElsewhere(img, a, b, ino, src, off, n, ino');
    }
    if NoHoles(img, ino) {
      WrittenNoHoles(img, a, b, ino, src, off, n);
    }
  }

  /** The image `img'`, if it is `img` with the first `i` bytes of `src` written to file
      `ino` at `off`, by whatever chunks. */
  ghost function Progress(img: Image, img': Image, ino: int, src: seq<int>, i: int, off: int): Option<Image>
    requires 0 <= i <= |src| && 0 <= off
  {
    if && 0 <= ino < |img.inodes| == |img'.inodes|
       && (i > 0 ==> off <= |Contents(img, ino)| && off + i <= img'.inodes[ino].size)
       && Contents(img', ino) == Sent(Contents(img, ino), src, i, off)
       && (forall ino' {:trigger Contents(img', ino')} | 0 <= ino' < |img.inodes| && ino' != ino ::
            Contents(img', ino') == Contents(img, ino'))
    then Some(img')
    else None
  }

  lemma ProgressStart(img: Image, ino: int, src: seq<int>, off: int)
    requires 0 <= off && 0 <= ino < |img.inodes|
    ensures Progress(img, img, ino, src, 0, off).Some?
  {}

  /** `c` with the first `i` of `src` written at `off`, if that is any. */
  function Sent(c: seq<int>, src: seq<int>, i: nat, off: nat): seq<int>
    requires i <= |src| && (i > 0 ==> off <= |c|)
  {
    if i == 0 then c else Spliced(c, src[..i], off)
  }

  lemma SplicedMore(c: seq<int>, src: seq<int>, i: nat, n: nat, off: nat)
    requires i + n <= |src| && (i > 0 ==> off <= |c|) && off + i <= |Sent(c, src, i, off)|
    ensures i + n > 0 ==> off <= |c|
    ensures Spliced(Sent(c, src, i, off), src[i..][..n], off + i) == Sent(c, src, i + n, off)
  {
    if i > 0 {
      SplicedTwice(c, src[..i], src[i..][..n], off);
    }
    assert src[..i] + src[i..][..n] == src[..i + n];
  }

  lemma ProgressMore(img: Image, a: Image, b: Image, ino: int, src: seq<int>, i: int, n: int, off: int)
    requires 0 <= i && 0 <= n && i + n <= |src| && 0 <= off && Progress(img, a, ino, src, i, off).Some?
    requires FileSpliced(a, b, ino, src[i..][..n], off + i).Some?
    ensures Progress(img, b, ino, src, i + n, off).Some? && 0 <= ino < |a.inodes| == |b.inodes|
    ensures b.inodes[ino].kind == a.inodes[ino].kind
  {
    SplicedMore(Contents(img, ino), src, i, n, off);
  }

  // ---- blocks below the log ----

  /** Free blocks below `k`. */
  function FreeBelow(used: seq<bool>, k: nat): nat
    requires k <= |used|
  {
    if k == 0 then 0 else FreeBelow(used, k - 1) + if used[k - 1] then 0 else 1
  }

  lemma {:induction false} FreeTaken(used: seq<bool>, b: nat, k: nat)
    requires b < |used| && !used[b] && k <= |used|
    ensures FreeBelow(used[b := true], k) == FreeBelow(used, k) - if b < k then 1 else 0
  {
    if k > 0 {
      FreeTaken(used, b, k - 1);
    }
  }

  lemma {:induction false} FirstFree(used: seq<bool>, b: nat, k: nat)
    requires b <= |used| && (b < |used| ==> !used[b]) && k <= |used| && forall c | 0 <= c < b :: used[c]
    ensures FreeBelow(used, k) > 0 <==> b < k
  {
    if k > 0 {
      FirstFree(used, b, k - 1);
    }
  }

  /** Of the blocks `p` to `q` of a file, those it does not have. */
  function Holes(img: Image, ino: int, p: int, q: int): nat
    decreases q - p
  {
    if p >= q then 0 else Holes(img, ino, p + 1, q) + if BlockAt(img, ino, DataPlace(p)) == 0 then 1 else 0
  }

  /** How many blocks it takes to give a file its blocks `p` to `q`: those, and perhaps the
      indirect block. */
  function Lack(img: Image, ino: int, p: int, q: int): nat {
    Holes(img, ino, p, q) + if p < q && NDIRECT < q && BlockAt(img, ino, NDIRECT) == 0 then 1 else 0
  }

  lemma {:induction false} SameHoles(img: Image, a: Image, ino: int, p: int, q: int)
    requires forall bn {:trigger DataPlace(bn)} | p <= bn < q ::
      BlockAt(a, ino, DataPlace(bn)) == 0 <==> BlockAt(img, ino, DataPlace(bn)) == 0
    ensures Holes(a, ino, p, q) == Holes(img, ino, p, q)
    decreases q - p
  {
    if p < q {
      SameHoles(img, a, ino, p + 1, q);
      assert BlockAt(a, ino, DataPlace(p)) == 0 <==> BlockAt(img, ino, DataPlace(p)) == 0;
    }
  }

  /** Block `p` has been given: it is not lacking any more. */
  lemma LackLess(img: Image, a: Image, ino: int, p: nat, q: int)
    requires Gained(img, a, ino, DataPlace(p)) && p < q
    ensures Lack(img, ino, p, q) == Lack(img, ino, p, p + 1) + Lack(a, ino, p, q)
  {
    forall bn {:trigger DataPlace(bn)} | p + 1 <= bn < q
      ensures BlockAt(a, ino, DataPlace(bn)) == 0 <==> BlockAt(img, ino, DataPlace(bn)) == 0
    {
      assert DataPlace(bn) != DataPlace(p) && DataPlace(bn) != NDIRECT;
    }
    SameHoles(img, a, ino, p + 1, q);
    assert Holes(img, ino, p + 1, p + 1) == 0;
    assert BlockAt(a, ino, NDIRECT) == BlockAt(a, ino, NDIRECT);
  }

  /** A block that is there may be passed over. */
  lemma LackNext(img: Image, ino: int, p: nat, q: int)
    requires BlockAt(img, ino, DataPlace(p)) != 0 && p < q
    ensures Lack(img, ino, p + 1, q) == Lack(img, ino, p, q)
  {}

  lemma SameLack(img: Image, a: Image, ino: int, p: int, q: int)
    requires forall i {:trigger BlockAt(a, ino, i)} :: BlockAt(a, ino, i) == BlockAt(img, ino, i)
    ensures Lack(a, ino, p, q) == Lack(img, ino, p, q)
  {
    SameHoles(img, a, ino, p, q);
    assert BlockAt(a, ino, NDIRECT) == BlockAt(img, ino, NDIRECT);
  }

  /** The end of `n` bytes at `off`, in blocks. */
  function EndBlock(off: int, n: int): int {
    if n <= 0 then off / BSIZE else (off + n - 1) / BSIZE + 1
  }

  /** The free blocks; and of those below the log, in a transaction that began with no file in
      the log area, how many are left, if none of its calls has gone to the log area. */
  datatype Room = Left(n: nat, free: int) | Astray(free: int) | Unknown(free: int)

  function Spent(r: Room, k: nat): Room {
    match r
    case Left(n, f) => if k <= n then Left(n - k, f - k) else Astray(f - k)
    case Astray(f) => Astray(f - k)
    case Unknown(f) => Unknown(f - k)
  }

  ghost predicate Short(r: Room) {
    !r.Left? && r.free < 0
  }

  /** What there will be left when a file has its blocks `p` to `q`. */
  function Outlook(r: Room, img: Image, ino: int, p: int, q: int): Room {
    Spent(r, Lack(img, ino, p, q))
  }

  ghost predicate Below(ws: seq<Write>, k: int) {
    forall i {:trigger ws[i]} | 0 <= i < |ws| :: 0 <= ws[i].sector < k
  }

  ghost predicate OwnedBelow(owner: map<int, Place>, k: int) {
    forall b {:trigger b in owner} | b in owner :: b < k
  }

  /** What is left at the beginning of a transaction. */
  ghost function RoomNow(log: nat, used: seq<bool>, owner: map<int, Place>): Room {
    var free := FreeBelow(used, |used|);
    if log <= |used| && OwnedBelow(owner, log) then Left(FreeBelow(used, log), free) else Unknown(free)
  }

  /** The room, if it is that. */
  ghost function RoomOk(log: nat, r: Room, used: seq<bool>, calls: seq<Write>, owner: map<int, Place>): Option<Room> {
    if && r.free == FreeBelow(used, |used|)
       && match r
          case Left(_, _) => RoomNow(log, used, owner) == r && Below(calls, log)
          case Astray(_) => !Below(calls, log)
          case Unknown(_) => true
    then Some(r)
    else None
  }

  /** The calls of log_write since `a` have been for the sectors `ss`. */
  ghost predicate Called(a: seq<Write>, b: seq<Write>, ss: seq<int>) {
    |b| == |a| + |ss| && a <= b && forall i {:trigger ss[i]} | 0 <= i < |ss| :: b[|a| + i].sector == ss[i]
  }

  lemma CalledTwice(a: seq<Write>, b: seq<Write>, c: seq<Write>, ss: seq<int>, tt: seq<int>)
    requires Called(a, b, ss) && Called(b, c, tt)
    ensures Called(a, c, ss + tt)
  {
    forall i | 0 <= i < |ss + tt|
      ensures c[|a| + i].sector == (ss + tt)[i]
    {
      if i < |ss| {
        assert c[|a| + i] == b[|a| + i] && b[|a| + i].sector == ss[i];
      } else {
        assert c[|b| + (i - |ss|)].sector == tt[i - |ss|];
      }
    }
  }

  /** Balloc hands out a block below the log as long as there is one, and otherwise one
      in the log area. */
  lemma RoomTaken(log: nat, r: Room, used: seq<bool>, calls: seq<Write>, owner: map<int, Place>, b: nat, p: Place,
                  calls': seq<Write>, ss: seq<int>)
    requires RoomOk(log, r, used, calls, owner).Some? && log <= |used|
    requires b < |used| && !used[b] && (forall c | 0 <= c < b :: used[c])
    requires Called(calls, calls', ss) && b in ss
    requires forall i | 0 <= i < |ss| :: 0 <= ss[i] && (ss[i] == b || ss[i] < log || ss[i] in owner)
    ensures RoomOk(log, Spent(r, 1), used[b := true], calls', owner[b := p]).Some?
  {
    FirstFree(used, b, log);
    FreeTaken(used, b, log);
    FreeTaken(used, b, |used|);
    if !Below(calls, log) {
      var i :| 0 <= i < |calls| && !(0 <= calls[i].sector < log);
      assert calls'[i] == calls[i];
    } else if b < log {
      forall i | 0 <= i < |calls'|
        ensures r.Left? ==> 0 <= calls'[i].sector < log
      {
        if i < |calls| {
          assert calls'[i] == calls[i];
        } else {
          assert calls'[|calls| + (i - |calls|)].sector == ss[i - |calls|];
        }
      }
    } else {
      var i :| 0 <= i < |ss| && ss[i] == b;
      assert calls'[|calls| + i].sector == b;
    }
  }

  lemma NoRoom(log: nat, r: Room, used: seq<bool>, calls: seq<Write>, owner: map<int, Place>)
    requires RoomOk(log, r, used, calls, owner).Some? && log <= |used| && forall b | 0 <= b < |used| :: used[b]
    ensures Short(Spent(r, 1))
  {
    FirstFree(used, |used|, |used|);
    FirstFree(used, |used|, log);
  }

  /** A call for a block of a file, or for a sector below the log, changes nothing. */
  lemma RoomStays(log: nat, r: Room, used: seq<bool>, calls: seq<Write>, owner: map<int, Place>, w: Write)
    requires RoomOk(log, r, used, calls, owner).Some? && 0 <= w.sector && (w.sector < log || w.sector in owner)
    ensures RoomOk(log, r, used, calls + [w], owner).Some?
  {
    if !Below(calls, log) {
      var i :| 0 <= i < |calls| && !(0 <= calls[i].sector < log);
      assert (calls + [w])[i] == calls[i];
    }
  }

  lemma RoomIsLeft(log: nat, used: seq<bool>, owner: map<int, Place>)
    ensures RoomOk(log, RoomNow(log, used, owner), used, [], owner).Some?
  {}

  // ---- what the steps of writei do, as values ----

  lemma SoundInodes(img: Image, owner: map<int, Place>, reserved: set<int>, ondisk: int)
    requires Sound(img, owner, reserved, ondisk).Some?
    ensures |img.inodes| == ondisk
  {}

  /** What bmap finds in an inode and its indirect block. */
  lemma BlockIs(img: Image, owner: map<int, Place>, reserved: set<int>, ondisk: int, ino: int, bn: int)
    requires Sound(img, owner, reserved, ondisk).Some? && 0 <= ino < |img.inodes| && 0 <= bn < MAXFILE
    ensures |img.inodes[ino].addrs| == NDIRECT + 1 && img.inodes[ino].addrs[NDIRECT] == BlockAt(img, ino, NDIRECT)
    ensures bn < NDIRECT ==>
      && img.inodes[ino].addrs[bn] == BlockAt(img, ino, bn)
      && (BlockAt(img, ino, bn) == 0 ==> Vacant(img, ino, bn))
    ensures bn >= NDIRECT && BlockAt(img, ino, NDIRECT) == 0 ==>
      BlockAt(img, ino, bn + 1) == 0 && Vacant(img, ino, NDIRECT)
    ensures bn >= NDIRECT && BlockAt(img, ino, NDIRECT) != 0 ==>
      && 0 < BlockAt(img, ino, NDIRECT) < |img.blocks| && bn - NDIRECT < |img.blocks[BlockAt(img, ino, NDIRECT)].words|
      && img.blocks[BlockAt(img, ino, NDIRECT)].words[bn - NDIRECT] == BlockAt(img, ino, bn + 1)
      && (BlockAt(img, ino, bn + 1) == 0 ==> Vacant(img, ino, bn + 1))
  {
    assert BlockAt(img, ino, NDIRECT) == Addr(img, ino, NDIRECT);
  }

  /** Where a vacant place is, with `b` the free block it is to be given. */
  lemma VacantIs(img: Image, owner: map<int, Place>, reserved: set<int>, ondisk: int, ino: int, i: int)
    requires Sound(img, owner, reserved, ondisk).Some? && Vacant(img, ino, i)
    ensures 0 <= ino < |img.inodes| && 0 <= i <= MAXFILE && |img.used| == |img.blocks|
    ensures |img.inodes[ino].addrs| == NDIRECT + 1 && img.inodes[ino].addrs[NDIRECT] == BlockAt(img, ino, NDIRECT)
    ensures i > NDIRECT ==>
      && var t := BlockAt(img, ino, NDIRECT);
      && t in owner && t !in reserved && 0 < t < |img.blocks| && img.used[t] && i - NDIRECT - 1 < |img.blocks[t].words|
  {}

  lemma NewBlock(img: Image, owner: map<int, Place>, reserved: set<int>, ondisk: int, ino: int, i: int, b: int)
    requires Sound(img, owner, reserved, ondisk).Some? && Vacant(img, ino, i) && 0 <= b < |img.used| == |img.blocks|
    requires !img.used[b]
    requires 0 <= ino < |img.inodes| && 0 <= i && |img.inodes[ino].addrs| == NDIRECT + 1
    ensures var img' := Allocated(img, ino, i, b);
      && Sound(img', owner[b := Place(ino, i)], reserved, ondisk).Some? && SameFiles(img, img')
      && Gained(img, img', ino, i)
      && BlockAt(img', ino, i) == b
      && BlockAt(img', ino, NDIRECT) == if i == NDIRECT then b else BlockAt(img, ino, NDIRECT)
  {
    AllocatedOwned(img, owner, reserved, ino, i, b);
    AllocatedGains(img, owner, reserved, ino, i, b);
    AllocatedPlaces(img, owner, reserved, ino, i, b, ino, NDIRECT);
  }

  lemma NewTableIsEmpty(img: Image, a: Image, ino: int, bn: int)
    requires SameFiles(img, a) && Gained(img, a, ino, NDIRECT) && BlockAt(img, ino, bn + 1) == 0 && NDIRECT <= bn
    ensures |a.inodes| == |img.inodes| && BlockAt(a, ino, bn + 1) == 0 && BlockAt(a, ino, NDIRECT) != 0
  {
    assert BlockAt(a, ino, bn + 1) == BlockAt(img, ino, bn + 1);
  }

  lemma TableStays(a: Image, b: Image, ino: int, i: int)
    requires Gained(a, b, ino, i)
    ensures BlockAt(a, ino, NDIRECT) != 0 ==> BlockAt(b, ino, NDIRECT) == BlockAt(a, ino, NDIRECT)
  {
    assert BlockAt(b, ino, NDIRECT) == BlockAt(b, ino, NDIRECT);
  }

  /** The second of two gains, or the only one. */
  lemma GainedAgain(a: Image, b: Image, c: Image, ino: int, i: int)
    requires b == a || (SameFiles(a, b) && Gained(a, b, ino, NDIRECT))
    requires SameFiles(b, c) && Gained(b, c, ino, i) && NDIRECT < i
    ensures SameFiles(a, c) && Gained(a, c, ino, i)
  {
    if b != a {
      GainedTwice(a, b, c, ino, i);
    }
  }

  lemma LackOne(img: Image, ino: int, bn: int)
    ensures Lack(img, ino, bn, bn + 1) ==
      (if BlockAt(img, ino, DataPlace(bn)) == 0 then 1 else 0) + if NDIRECT <= bn && BlockAt(img, ino, NDIRECT) == 0
        then 1
        else 0
  {
    assert Holes(img, ino, bn + 1, bn + 1) == 0;
  }

  /** The first block's part of what there will be left. */
  lemma OutlookParts(r: Room, img: Image, ino: int, bn: int, upto: int)
    requires bn < upto
    ensures Short(Outlook(r, img, ino, bn, bn + 1)) ==> Short(Outlook(r, img, ino, bn, upto))
  {
    LackOne(img, ino, bn);
    assert Holes(img, ino, bn, upto) >= if BlockAt(img, ino, DataPlace(bn)) == 0 then 1 else 0;
  }

  /** What readi finds in a block, and that bmap has left it so. */
  lemma BlockBytes(img: Image, now: Image, owner: map<int, Place>, reserved: set<int>, ondisk: int, ino: int, bn: nat)
    requires Sound(now, owner, reserved, ondisk).Some? && BlockAt(now, ino, DataPlace(bn)) != 0 && SameFiles(img, now)
    ensures var b := BlockAt(now, ino, DataPlace(bn));
      && 0 < b < |now.blocks| && now.blocks[b].Full()
      && forall k: nat | k / BSIZE == bn :: FileByte(img, ino, k) == ByteOf(now.blocks[b], k % BSIZE)
  {
    forall k: nat | k / BSIZE == bn
      ensures FileByte(img, ino, k) == ByteOf(now.blocks[BlockAt(now, ino, DataPlace(bn))], k % BSIZE)
    {
      assert FileByte(now, ino, k) == FileByte(img, ino, k);
    }
  }

  lemma SameTwice(a: Image, b: Image, c: Image)
    requires SameFiles(a, b) && SameFiles(b, c)
    ensures SameFiles(a, c)
  {
    forall ino, k: nat
      ensures FileByte(c, ino, k) == FileByte(a, ino, k)
    {
      assert FileByte(b, ino, k) == FileByte(a, ino, k);
    }
  }

  lemma NothingGained(img: Image)
    ensures SameFiles(img, img)
  {}

  lemma SameInodes(img: Image, now: Image)
    requires SameFiles(img, now)
    ensures |now.inodes| == |img.inodes|
  {}

  lemma BlockIsThere(img: Image, ino: int, k: nat)
    requires 0 <= ino < |img.inodes| && k < img.inodes[ino].size
    ensures NoHoles(img, ino) ==> BlockAt(img, ino, DataPlace(k / BSIZE)) != 0
  {
    assert k / BSIZE * BSIZE <= k;
  }

  lemma HasBlock(img: Image, now: Image, ino: int, bn: int)
    requires Gained(img, now, ino, DataPlace(bn))
    ensures BlockAt(now, ino, DataPlace(bn)) != 0
  {}

  lemma StoredSound(img: Image, owner: map<int, Place>, reserved: set<int>, ondisk: int, ino: int, bn: int, at: int,
                    src: seq<int>, from: int, m: nat)
    requires Sound(img, owner, reserved, ondisk).Some? && 0 <= bn && BlockAt(img, ino, DataPlace(bn)) != 0
    requires 0 <= at && at + m <= BSIZE && 0 <= from && from + m <= |src|
    ensures var b := BlockAt(img, ino, DataPlace(bn));
      && 0 < b < |img.blocks| && img.blocks[b].Full() && b in owner && b !in reserved
      && Sound(Stored(img, b, at, src, from, m), owner, reserved, ondisk).Some?
  {
    StoredPlaces(img, owner, reserved, ino, bn, at, src, from, m);
  }

  /** One more block of writei, as a value. */
  lemma BlockWritten(img: Image, a: Image, b: Image, owner: map<int, Place>, reserved: set<int>, ondisk: int, ino: int,
                     src: seq<int>, off: int, m: int, d: int)
    requires 0 <= off && 0 <= m && 0 <= d && m + d <= |src| && forall i | 0 <= i < |src| :: 0 <= src[i] < 0x100
    requires Written(img, a, ino, src, off, m) && SameFiles(a, b) && Gained(a, b, ino, DataPlace((off + m) / BSIZE))
    requires Sound(b, owner, reserved, ondisk).Some? && (off + m) % BSIZE + d <= BSIZE
    ensures var blk := BlockAt(b, ino, DataPlace((off + m) / BSIZE));
      && 0 < blk < |b.blocks| && b.blocks[blk].Full()
      && var c := Stored(b, blk, (off + m) % BSIZE, src, m, d);
      && Written(img, c, ino, src, off, m + d) && BlockAt(c, ino, NDIRECT) == BlockAt(b, ino, NDIRECT)
      && c.inodes == b.inodes
  {
    WrittenMore(img, a, b, owner, reserved, ino, src, off, m, d);
  }

  lemma OutlookGoesOn(r0: Room, r: Room, a: Image, b: Image, owner: map<int, Place>, reserved: set<int>, ondisk: int,
                      ino: int, src: seq<int>, off: int, m: int, d: int, upto: int)
    requires 0 <= off && 0 <= m && 0 < d && m + d <= |src| && (off + m) % BSIZE + d <= BSIZE
    requires Gained(a, b, ino, DataPlace((off + m) / BSIZE)) && Sound(b, owner, reserved, ondisk).Some?
    requires (off + m) / BSIZE < upto
    requires r == Outlook(r0, a, ino, (off + m) / BSIZE, (off + m) / BSIZE + 1)
    ensures var blk := BlockAt(b, ino, DataPlace((off + m) / BSIZE));
      && 0 < blk < |b.blocks| && b.blocks[blk].Full()
      && var c := Stored(b, blk, (off + m) % BSIZE, src, m, d);
      Outlook(r, c, ino, (off + m + d) / BSIZE, upto) == Outlook(r0, a, ino, (off + m) / BSIZE, upto)
  {
    var p, at := (off + m) / BSIZE, (off + m) % BSIZE;
    StoredPlaces(b, owner, reserved, ino, p, at, src, m, d);
    var c := Stored(b, BlockAt(b, ino, DataPlace(p)), at, src, m, d);
    LackLess(a, b, ino, p, upto);
    SameLack(b, c, ino, p, upto);
    assert BlockAt(c, ino, DataPlace(p)) == BlockAt(b, ino, DataPlace(p));
    LackNext(c, ino, p, upto);
    assert (off + m + d) / BSIZE == if at + d == BSIZE then p + 1 else p;
  }

  lemma NothingWritten(img: Image, ino: int, src: seq<int>, off: int, l: Logged)
    ensures Written(img, img, ino, src, off, 0)
    ensures forall t :: WriteLogged(l, l, t, off, 0)
  {}

  /** While writing within a file without holes, the next block is there. */
  lemma StillNoHoles(img: Image, a: Image, ino: int, src: seq<int>, off: int, m: int, n: int)
    requires 0 <= ino < |img.inodes| && 0 <= m < n <= |src| && 0 <= off && Written(img, a, ino, src, off, m)
    ensures NoHoles(img, ino) && off + n <= img.inodes[ino].size ==> BlockAt(a, ino, DataPlace((off + m) / BSIZE)) != 0
  {
    var bn := (off + m) / BSIZE;
    assert BlockAt(a, ino, DataPlace(bn)) == BlockAt(a, ino, DataPlace(bn)) && bn * BSIZE <= off + m;
  }

  lemma WrittenInodes(img: Image, a: Image, ino: int, src: seq<int>, off: int, m: int)
    requires 0 <= m <= |src| && Written(img, a, ino, src, off, m)
    ensures |a.inodes| == |img.inodes|
  {}

  /** What has been written is not lacking. */
  lemma LackAtEnd(img: Image, a: Image, ino: int, src: seq<int>, off: int, n: int)
    requires 0 <= off && 0 <= n <= |src| && Written(img, a, ino, src, off, n)
    ensures n > 0 ==> Lack(a, ino, (off + n) / BSIZE, EndBlock(off, n)) == 0
  {
    if n > 0 {
      var last := (off + n - 1) / BSIZE;
      assert last * BSIZE < off + n && off / BSIZE <= last;
      assert BlockAt(a, ino, DataPlace(last)) != 0;
      assert (off + n) / BSIZE == last || (off + n) / BSIZE == last + 1;
      LackOne(a, ino, last);
    }
  }

  lemma ResizedLack(img: Image, owner: map<int, Place>, reserved: set<int>, ondisk: int, ino: int, size: int, r: Room,
                    p: int, q: int)
    requires Sound(img, owner, reserved, ondisk).Some? && 0 <= ino < |img.inodes|
    ensures Lack(Resized(img, ino, size), ino, p, q) == Lack(img, ino, p, q)
    ensures Outlook(r, Resized(img, ino, size), ino, p, q) == Outlook(r, img, ino, p, q)
  {
    ResizedPlaces(img, owner, reserved, ino, size);
    SameLack(img, Resized(img, ino, size), ino, p, q);
  }

  lemma InodeIsBelow(f: Format, before: Volume, v: Volume, calls: seq<Write>, l: Logged, ino: int)
    requires Journal(f, before, v, calls, l).Some? && 0 <= ino < |v.dinodes|
    ensures 0 <= f.InodeSector(ino) < f.DataStart()
  {}

  // ---- the C code ----

  /** A committed transaction: its calls of log_write, how they count, and what was to be
      on disk before and after. */
  datatype Transaction = Transaction(before: Volume, calls: seq<Write>, after: Volume, logged: Logged)

  /** Transactions that lead from one volume to another, each logging all it changes. None
      met the log's panic unless it allocated from more than three bitmap sectors. */
  ghost predicate LedTo(f: Format, from: Volume, to: Volume, ts: seq<Transaction>)
    decreases |ts|
  {
    if ts == [] then to == from
    else
      var t := ts[|ts| - 1];
      && LedTo(f, from, t.before, ts[..|ts| - 1]) && t.after == to
      && Journal(f, t.before, t.after, t.calls, t.logged).Some? && (t.logged.panic ==> |t.logged.bitmap| > 3)
  }

  /** The same of the transactions from number `n` on. */
  ghost function Ledger(f: Format, from: Volume, to: Volume, ts: seq<Transaction>, n: nat): Option<Volume> {
    if n <= |ts| && LedTo(f, from, to, ts[n..]) then Some(to) else None
  }

  lemma LedFurther(f: Format, from: Volume, ts: seq<Transaction>, n: nat, t: Transaction)
    requires Ledger(f, from, t.before, ts, n).Some?
    requires Journal(f, t.before, t.after, t.calls, t.logged).Some? && (t.logged.panic ==> |t.logged.bitmap| > 3)
    ensures Ledger(f, from, t.after, ts + [t], n).Some?
  {
    var us := (ts + [t])[n..];
    assert us[|us| - 1] == t && us[..|us| - 1] == ts[n..];
  }

  /** How much filewrite writes: nothing from past the end of the file on, and otherwise the
      chunks that fit the largest file. */
  function WillSend(off: int, size: int, n: int): int {
    if n <= 0 || off > size then 0
    else if off + n <= MAXFILE * BSIZE then n
    else if off > MAXFILE * BSIZE then 0
    else (MAXFILE * BSIZE - off) / CHUNK * CHUNK
  }

  /** Bytes in the first `k` chunks of `n`. */
  function SentAfter(k: nat, n: int): int {
    if CHUNK * k < n then CHUNK * k else n
  }

  lemma SendsChunk(off: int, size: int, n: int, k: nat)
    requires 0 <= off <= size && CHUNK * k < n && off + SentAfter(k + 1, n) <= MAXFILE * BSIZE
    ensures SentAfter(k + 1, n) <= WillSend(off, size, n)
  {}

  lemma StopsThere(off: int, size: int, n: int, k: nat)
    requires 0 <= off && CHUNK * k < n && (k > 0 ==> off <= size && off + CHUNK * k <= MAXFILE * BSIZE)
    requires off > size || off + SentAfter(k + 1, n) > MAXFILE * BSIZE
    ensures WillSend(off, size, n) == CHUNK * k
  {}

  lemma EndBlockMore(off: int, i: int, n: int, sent: int)
    requires 0 <= i && 0 < n && i + n <= sent
    ensures EndBlock(off + i, n) == EndBlock(off, i + n) <= EndBlock(off, sent)
  {}

  /** The chunk after the first `k`: it goes where filewrite is to go, or filewrite stops. */
  lemma NextChunk(off: nat, size: int, n: nat, i: nat, k: nat, m: int)
    requires i == SentAfter(k, n) < n && m == (if n - i > CHUNK then CHUNK else n - i)
    requires i > 0 ==> off <= size && off + i <= MAXFILE * BSIZE
    ensures 0 < m <= CHUNK && i + m == SentAfter(k + 1, n) <= n
    ensures if off <= size && off + i + m <= MAXFILE * BSIZE
      then i + m <= WillSend(off, size, n) &&
        EndBlock(off + i, m) == EndBlock(off, i + m) <= EndBlock(off, WillSend(off, size, n))
      else WillSend(off, size, n) == i
  {
    if off <= size && off + i + m <= MAXFILE * BSIZE {
      SendsChunk(off, size, n, k);
      EndBlockMore(off, i, m, WillSend(off, size, n));
    } else {
      StopsThere(off, size, n, k);
    }
  }

  // ---- filewrite, chunk by chunk ----

  ghost predicate AllHome(ts: seq<Transaction>, first: nat, log: int) {
    forall k {:trigger ts[k]} | first <= k < |ts| :: Below(ts[k].calls, log)
  }

  /** As long as all transactions have kept below the log, what is `now` left and what is
      lacking come to `out`; and if that is something, they have. */
  ghost function Tracked(ts: seq<Transaction>, first: nat, log: int, now: Room, lack: nat, out: Room): Option<Room> {
    if && out.free == now.free - lack
       && (!out.Unknown? ==>
            && (AllHome(ts, first, log) ==> now.Left? && Spent(now, lack) == out)
            && (out.Left? ==> AllHome(ts, first, log)))
    then Some(out)
    else None
  }

  lemma TrackedMore(ts: seq<Transaction>, first: nat, log: nat, now: Room, lack: nat, out: Room, t: Transaction,
                    room: Room, used: seq<bool>, owner: map<int, Place>, lack': nat)
    requires Tracked(ts, first, log, now, lack, out).Some? && first <= |ts|
    requires Spent(room, lack') == Spent(now, lack) && RoomOk(log, room, used, t.calls, owner).Some?
    ensures Tracked(ts + [t], first, log, RoomNow(log, used, owner), lack', out).Some?
  {
    var us := ts + [t];
    assert us[|ts|] == t && forall k | 0 <= k < |ts| :: us[k] == ts[k];
    assert AllHome(us, first, log) <==> AllHome(ts, first, log) && Below(t.calls, log);
  }

  /** File `ino` as it is on disk. */
  ghost predicate Holds(v: Volume, ino: int, c: seq<int>) {
    0 <= ino < |v.dinodes| && Contents(Image(v.used, v.blocks, v.dinodes), ino) == c
  }

  lemma SameInode(a: Image, b: Image, ino: int)
    requires 0 <= ino < |a.inodes| && ino < |b.inodes| && a.inodes[ino] == b.inodes[ino] && a.blocks == b.blocks
    ensures Contents(a, ino) == Contents(b, ino)
  {
    forall k: nat
      ensures FileByte(a, ino, k) == FileByte(b, ino, k)
    {}
  }

  /** File `ino` as it is on disk is `c` with the first `k` chunks of `src[..n]` written at `off`. */
  ghost predicate HoldsChunks(v: Volume, ino: int, c: seq<int>, src: seq<int>, n: nat, off: nat, k: int) {
    && 0 <= k && n <= |src| && (k > 0 && n > 0 ==> off <= |c|) && Holds(v, ino, Sent(c, src, SentAfter(k, n), off))
  }

  /** Each transaction from number `first` on has left one chunk more. */
  ghost predicate ChunkByChunk(ts: seq<Transaction>, first: nat, ino: int, c: seq<int>, src: seq<int>, n: nat,
                               off: nat) {
    forall k {:trigger ts[k]} | first <= k < |ts| :: HoldsChunks(ts[k].after, ino, c, src, n, off, k - first + 1)
  }

  /** The file has no holes, and its inode is on disk as in memory. */
  ghost predicate Settled(img: Image, dinodes: seq<Inode>, ino: int) {
    0 <= ino < |img.inodes| && ino < |dinodes| && NoHoles(img, ino) && img.inodes[ino] == dinodes[ino]
  }

  /** What filewrite is to do, the state it started in, and the room there is to be left once
      the file has its blocks up to `upto`. */
  datatype Job = Job(ino: int, src: seq<int>, n: nat, off: nat, img: Image, vol: Volume, first: nat, upto: int,
    room: Room, settled: bool)

  ghost function NewJob(log: nat, img: Image, dinodes: seq<Inode>, owner: map<int, Place>, ino: int, src: seq<int>,
                        n: nat, off: nat,
                        first: nat): Job
    requires 0 <= ino < |img.inodes|
  {
    var upto := EndBlock(off, WillSend(off, img.inodes[ino].size, n));
    Job(ino, src, n, off, img, Volume(img.used, img.blocks, dinodes), first, upto,
      Outlook(RoomNow(log, img.used, owner), img, ino, off / BSIZE, upto), Settled(img, dinodes, ino))
  }

  /** How many blocks filewrite takes. */
  ghost function Taken(img: Image, ino: int, n: nat, off: nat): nat
    requires 0 <= ino < |img.inodes|
  {
    Lack(img, ino, off / BSIZE, EndBlock(off, WillSend(off, img.inodes[ino].size, n)))
  }

  lemma RoomIsFit(log: nat, img: Image, dinodes: seq<Inode>, owner: map<int, Place>, ino: int, src: seq<int>, n: nat,
                  off: nat, first: nat)
    requires 0 <= ino < |img.inodes| && log <= |img.used|
    ensures var room, takes := NewJob(log, img, dinodes, owner, ino, src, n, off, first).room, Taken(img, ino, n, off);
      && room.free == FreeBelow(img.used, |img.used|) - takes
      && (room.Left? <==> OwnedBelow(owner, log) && takes <= FreeBelow(img.used, log))
      && (room.Left? ==> room.n == FreeBelow(img.used, log) - takes)
      && (room.Unknown? <==> !OwnedBelow(owner, log))
  {}

  lemma SendBounds(off: nat, size: int, n: nat)
    ensures 0 <= WillSend(off, size, n) <= n
  {}

  /** The job is done as far as byte `i`. */
  ghost predicate At(f: Format, j: Job, i: int, img: Image, dinodes: seq<Inode>, owner: map<int, Place>,
                     ts: seq<Transaction>) {
    && 0 <= i <= j.n <= |j.src| && 0 <= j.ino < |j.img.inodes| && j.ino < |img.inodes| && j.first <= |ts|
    && i == SentAfter(|ts| - j.first, j.n)
    && Progress(j.img, img, j.ino, j.src, i, j.off).Some?
    && Ledger(f, j.vol, Volume(img.used, img.blocks, dinodes), ts, j.first).Some?
    && Tracked(ts, j.first, f.log, RoomNow(f.log, img.used, owner), Lack(img, j.ino, (j.off + i) / BSIZE, j.upto),
         j.room).Some?
    && (j.settled ==>
         Settled(img, dinodes, j.ino) && ChunkByChunk(ts, j.first, j.ino, Contents(j.img, j.ino), j.src, j.n, j.off))
  }

  lemma JobIsThere(f: Format, j: Job, i: int, img: Image, dinodes: seq<Inode>, owner: map<int, Place>,
                   ts: seq<Transaction>)
    requires At(f, j, i, img, dinodes, owner, ts)
    ensures 0 <= i <= j.n <= |j.src| && 0 <= j.ino < |img.inodes| && j.first <= |ts|
    ensures i == SentAfter(|ts| - j.first, j.n)
    ensures Short(Outlook(RoomNow(f.log, img.used, owner), img, j.ino, (j.off + i) / BSIZE, j.upto)) ==> Short(j.room)
  {}

  /** At the end nothing is lacking: all calls have gone below the log if there was room. */
  lemma JobIsDone(f: Format, j: Job, i: int, img: Image, dinodes: seq<Inode>, owner: map<int, Place>,
                  ts: seq<Transaction>)
    requires At(f, j, i, img, dinodes, owner, ts)
    requires j.upto == EndBlock(j.off, i) && (i > 0 ==> Lack(img, j.ino, (j.off + i) / BSIZE, EndBlock(j.off, i)) == 0)
    ensures 0 <= i <= |j.src| && Progress(j.img, img, j.ino, j.src, i, j.off).Some?
    ensures Ledger(f, j.vol, Volume(img.used, img.blocks, dinodes), ts, j.first).Some?
    ensures 0 <= j.room.free == FreeBelow(img.used, |img.used|)
    ensures j.room.Left? ==> f.log <= |img.used| && OwnedBelow(owner, f.log) && FreeBelow(img.used, f.log) == j.room.n
    ensures !j.room.Unknown? ==> (j.room.Left? <==> AllHome(ts, j.first, f.log))
    ensures j.settled ==>
      && 0 <= j.ino < |j.img.inodes| && Settled(img, dinodes, j.ino)
      && ChunkByChunk(ts, j.first, j.ino, Contents(j.img, j.ino), j.src, j.n, j.off)
  {}

  lemma JobStarts(f: Format, j: Job, dinodes: seq<Inode>, owner: map<int, Place>, ts: seq<Transaction>)
    requires j.n <= |j.src| && 0 <= j.ino < |j.img.inodes| && j.first == |ts|
    requires j.vol == Volume(j.img.used, j.img.blocks, dinodes) && j.settled == Settled(j.img, dinodes, j.ino)
    requires j.room == Outlook(RoomNow(f.log, j.img.used, owner), j.img, j.ino, j.off / BSIZE, j.upto)
    ensures At(f, j, 0, j.img, dinodes, owner, ts)
  {
    ProgressStart(j.img, j.ino, j.src, j.off);
    assert ts[|ts|..] == [];
  }

  /** One chunk more. */
  lemma JobGoesOn(f: Format, j: Job, i: int, n: int, a: Image, da: seq<Inode>, oa: map<int, Place>,
                  ts: seq<Transaction>,
                  b: Image, db: seq<Inode>, ob: map<int, Place>, t: Transaction, room: Room)
    requires At(f, j, i, a, da, oa, ts) && 0 < n == SentAfter(|ts| - j.first + 1, j.n) - i
    requires FileSpliced(a, b, j.ino, j.src[i..][..n], j.off + i).Some?
    requires t.before == Volume(a.used, a.blocks, da) && t.after == Volume(b.used, b.blocks, db)
    requires Journal(f, t.before, t.after, t.calls, t.logged).Some? && (t.logged.panic ==> |t.logged.bitmap| > 3)
    requires RoomOk(f.log, room, b.used, t.calls, ob).Some?
    requires Outlook(room, b, j.ino, (j.off + i + n) / BSIZE, j.upto)
      == Outlook(RoomNow(f.log, a.used, oa), a, j.ino, (j.off + i) / BSIZE, j.upto)
    requires Settled(a, da, j.ino) ==> Settled(b, db, j.ino)
    ensures At(f, j, i + n, b, db, ob, ts + [t])
  {
    hide Journal, RoomOk, Settled, Lack, Progress, FileSpliced, RoomNow, Ledger, ChunkByChunk, NoHoles, Contents;
    ProgressMore(j.img, a, b, j.ino, j.src, i, n, j.off);
    LedFurther(f, j.vol, ts, j.first, t);
    TrackedMore(ts, j.first, f.log, RoomNow(f.log, a.used, oa), Lack(a, j.ino, (j.off + i) / BSIZE, j.upto), j.room, t,
      room, b.used, ob, Lack(b, j.ino, (j.off + i + n) / BSIZE, j.upto));
    if j.settled {
      LeavesChunk(j, i + n, b, db, ts, t);
    }
  }

  lemma LeavesChunk(j: Job, i: int, b: Image, db: seq<Inode>, ts: seq<Transaction>, t: Transaction)
    requires 0 <= j.ino < |j.img.inodes| && j.first <= |ts| && 0 <= i <= j.n <= |j.src|
    requires i == SentAfter(|ts| - j.first + 1, j.n)
    requires ChunkByChunk(ts, j.first, j.ino, Contents(j.img, j.ino), j.src, j.n, j.off)
    requires Progress(j.img, b, j.ino, j.src, i, j.off).Some? && Settled(b, db, j.ino)
    requires t.after == Volume(b.used, b.blocks, db)
    ensures ChunkByChunk(ts + [t], j.first, j.ino, Contents(j.img, j.ino), j.src, j.n, j.off)
  {
    hide Contents, NoHoles, Sent;
    SameInode(Image(b.used, b.blocks, db), b, j.ino);
    assert HoldsChunks(t.after, j.ino, Contents(j.img, j.ino), j.src, j.n, j.off, |ts| - j.first + 1);
  }

  /** What a splice leaves of the inode. */
  lemma SplicedSize(a: Image, b: Image, ino: int, d: seq<int>, off: int)
    requires FileSpliced(a, b, ino, d, off).Some?
    ensures 0 <= ino < |a.inodes| == |b.inodes| && b.inodes[ino].kind == a.inodes[ino].kind
    ensures |d| > 0 ==> off + |d| <= b.inodes[ino].size
  {}

  lemma JournalSizes(f: Format, before: Volume, v: Volume, calls: seq<Write>, l: Logged)
    requires Journal(f, before, v, calls, l).Some?
    ensures |v.used| == |v.blocks| == f.total
  {}

  datatype Answer = Fail | Done(n: int) | Panic

  class FileSystem {
    const format: Format
    var used: seq<bool>
    var blocks: seq<Block>
    /** Inodes as cached in memory, and as the inode blocks have them. */
    var inodes: seq<Inode>
    var dinodes: seq<Inode>
    /** The transaction in progress: what the disk held before it, its calls of log_write,
        and how they count. */
    ghost var before: Volume
    ghost var calls: seq<Write>
    ghost var logged: Logged
    ghost var room: Room
    /** The transactions filewrite has committed. */
    ghost var committed: seq<Transaction>
    ghost var owner: map<int, Place>
    ghost const reserved: set<int>

    ghost function Img(): Image
      reads this
    {
      Image(used, blocks, inodes)
    }

    ghost function Vol(): Volume
      reads this
    {
      Volume(used, blocks, dinodes)
    }

    /** All changes since the transaction began have been logged. */
    ghost predicate Journaled()
      reads this
    {
      Journal(format, before, Vol(), calls, logged).Some?
    }

    /** The sectors before the data are not handed out. */
    ghost predicate Laid() {
      && format.DataStart() <= format.log <= format.total
      && forall s {:trigger s in reserved} | 0 <= s < format.DataStart() :: s in reserved
    }

    /** `room` is what is left. */
    ghost predicate Roomy()
      reads this
    {
      RoomOk(format.log, room, used, calls, owner).Some?
    }

    ghost predicate Valid()
      reads this
    {
      Sound(Img(), owner, reserved, |dinodes|).Some? && Laid() && Journaled() && Roomy()
    }

    /** The disk at boot, its log recovered: what is in memory is what is on disk, and no
        transaction is in progress. */
    constructor (f: Format, v: Volume, ghost own: map<int, Place>, ghost res: set<int>)
      requires Shaped(Image(v.used, v.blocks, v.dinodes)) && Owned(Image(v.used, v.blocks, v.dinodes), own, res)
      requires |v.used| == f.total && |v.dinodes| <= f.ninodes && f.DataStart() <= f.log <= f.total
      requires forall s {:trigger s in res} | 0 <= s < f.DataStart() :: s in res
      ensures Valid() && Vol() == v && Img() == Image(v.used, v.blocks, v.dinodes)
      ensures format == f && owner == own && reserved == res && calls == [] && committed == []
    {
      format, used, blocks, inodes, dinodes := f, v.used, v.blocks, v.dinodes, v.dinodes;
      before, calls, logged, committed := v, [], Logged({}, {}, {}, {}, false), [];
      owner, reserved, room := own, res, RoomNow(f.log, v.used, own);
      new;
      JournalStarts(f, v);
    }

    ghost predicate OutOfBlocks()
      reads this
    {
      forall b | 0 <= b < |used| :: used[b]
    }

    /** The first free block, marked used and zeroed; None is the out-of-blocks panic.
        `table` says whether it is to be an indirect block. */
    method Balloc(ghost table: bool) returns (r: Option<int>)
      requires Valid()
      modifies this`used, this`blocks, this`logged, this`calls
      ensures Journaled()
      ensures r.None? ==>
        used == old(used) && blocks == old(blocks) && logged == old(logged) && calls == old(calls) && OutOfBlocks()
      ensures r.Some? ==>
        && 0 <= r.value < |old(used)| && !old(used)[r.value] && (forall c | 0 <= c < r.value :: old(used)[c])
        && used == old(used)[r.value := true] && blocks == old(blocks)[r.value := Zeroed()]
        && logged == old(logged).Zeroed(format.BitmapSector(r.value), r.value, table)
        && Called(old(calls), calls, [format.BitmapSector(r.value), r.value]) && format.DataStart() <= r.value
    {
      var b := 0;
      while b < |used|
        invariant 0 <= b && forall c | 0 <= c < b && c < |used| :: used[c]
        invariant used == old(used) && blocks == old(blocks) && logged == old(logged) && calls == old(calls)
      {
        var bi := 0;
        while bi < BPB && b + bi < |used|
          invariant 0 <= bi <= BPB && (forall c | 0 <= c < b + bi && c < |used| :: used[c])
          invariant used == old(used) && blocks == old(blocks) && logged == old(logged) && calls == old(calls)
        {
          if !used[b + bi] {
            assert b + bi !in reserved;
            MarkAndZero(b + bi, table);
            return Some(b + bi);
          }
          bi := bi + 1;
        }
        b := b + BPB;
      }
      return None;
    }

    /** What balloc does with the free block it has found. */
    method MarkAndZero(b: int, ghost table: bool)
      requires Journaled() && Laid() && format.DataStart() <= b < |used|
      modifies this`used, this`blocks, this`logged, this`calls
      ensures Journaled() && used == old(used)[b := true] && blocks == old(blocks)[b := Zeroed()]
      ensures logged == old(logged).Zeroed(format.BitmapSector(b), b, table)
      ensures Called(old(calls), calls, [format.BitmapSector(b), b])
    {
      ghost var s := format.BitmapSector(b);
      JournalsBit(format, before, Vol(), calls, logged, b, true);
      used := used[b := true];
      calls, logged := calls + [Write(s, SectorOf(format, Vol(), s))], logged.Bitmap(s);
      JournalsBlock(format, before, Vol(), calls, logged, b, Zeroed(), table);
      blocks := blocks[b := Zeroed()];
      calls, logged := calls + [Write(b, blocks[b])], if table then logged.Table(b) else logged.Data(b);
    }

    /** A new block for a vacant place: bmap's assignments from balloc. */
    method Attach(ino: int, i: int) returns (r: Option<int>)
      requires Valid() && Vacant(Img(), ino, i)
      modifies this`used, this`blocks, this`logged, this`calls, this`inodes, this`owner, this`room
      ensures r.Some? ==>
        && Valid() && SameFiles(old(Img()), Img()) && Gained(old(Img()), Img(), ino, i)
        && r.value == BlockAt(Img(), ino, i)
        && Grown(old(logged), logged) && logged.inode == old(logged).inode
        && logged.data <= old(logged).data + (if i == NDIRECT then {} else {r.value})
        && logged.table <= old(logged).table + ({BlockAt(Img(), ino, NDIRECT)} - {0})
      ensures r.Some? ==> room == Spent(old(room), 1)
      ensures r.None? ==> OutOfBlocks() && Short(Spent(old(room), 1))
    {
      hide Sound, Journal, RoomOk, SameFiles, Gained, BlockAt, Vacant, Grown, Called, RoomNow;
      ghost var img, logged0, owner0, calls0, t := Img(), logged, owner, calls, BlockAt(Img(), ino, NDIRECT);
      VacantIs(img, owner, reserved, |dinodes|, ino, i);
      JournalSizes(format, before, Vol(), calls, logged);
      r := Balloc(i == NDIRECT);
      if r.Some? {
        var b := r.value;
        NewBlock(img, owner, reserved, |dinodes|, ino, i, b);
        AttachedGrows(logged0, format.BitmapSector(b), b, i, t);
        ghost var calls1 := calls;
        Store(ino, i, b);
        ghost var ss := [format.BitmapSector(b), b] + if i > NDIRECT then [t] else [];
        CalledTwice(calls0, calls1, calls, [format.BitmapSector(b), b], if i > NDIRECT then [t] else []);
        assert ss[1] == b;
        RoomTaken(format.log, room, img.used, calls0, owner0, b, Place(ino, i), calls, ss);
        assert logged == logged0.Attached(format.BitmapSector(b), b, i, t);
        owner, room := owner[b := Place(ino, i)], Spent(room, 1);
        assert Img() == Allocated(img, ino, i, b);
      } else {
        NoRoom(format.log, room, used, calls, owner);
      }
    }

    /** ... the assignment itself: in the inode, or in the indirect block, which is logged. */
    method Store(ino: int, i: int, b: int)
      requires 0 <= ino < |inodes| && 0 <= i && |inodes[ino].addrs| == NDIRECT + 1
      requires Journaled() && Laid()
      requires i > NDIRECT ==>
        && format.DataStart() <= inodes[ino].addrs[NDIRECT] < |blocks|
        && i - NDIRECT - 1 < |blocks[inodes[ino].addrs[NDIRECT]].words|
      modifies this`blocks, this`inodes, this`logged, this`calls
      ensures Journaled()
      ensures i <= NDIRECT ==>
        && blocks == old(blocks) && logged == old(logged)
        && inodes == old(inodes)[ino := old(inodes)[ino].(addrs := old(inodes)[ino].addrs[i := b])]
      ensures i > NDIRECT ==>
        && var t := old(inodes)[ino].addrs[NDIRECT];
        && inodes == old(inodes) && 0 < t < |old(blocks)| && i - NDIRECT - 1 < |old(blocks)[t].words|
        && blocks == old(blocks)[t := Block(old(blocks)[t].words[i - NDIRECT - 1 := b])]
        && logged == old(logged).Table(t)
      ensures Called(old(calls), calls, if i <= NDIRECT then [] else [old(inodes)[ino].addrs[NDIRECT]])
    {
      if i <= NDIRECT {
        inodes := inodes[ino := inodes[ino].(addrs := inodes[ino].addrs[i := b])];
      } else {
        var t := inodes[ino].addrs[NDIRECT];
        JournalsBlock(format, before, Vol(), calls, logged, t, Block(blocks[t].words[i - NDIRECT - 1 := b]), true);
        blocks := blocks[t := Block(blocks[t].words[i - NDIRECT - 1 := b])];
        calls, logged := calls + [Write(t, blocks[t])], logged.Table(t);
      }
    }

    /** The block of `bn`, allocated if there is none; None is balloc's panic. */
    method Bmap(ino: int, bn: int) returns (r: Option<int>)
      requires Valid() && 0 <= ino < |inodes| && 0 <= bn < MAXFILE
      modifies this`used, this`blocks, this`logged, this`calls, this`inodes, this`owner, this`room
      ensures r.Some? ==> Valid() && SameFiles(old(Img()), Img()) && Gained(old(Img()), Img(), ino, DataPlace(bn))
      ensures r.Some? ==> r.value == BlockAt(Img(), ino, DataPlace(bn))
      ensures BlockAt(old(Img()), ino, DataPlace(bn)) != 0 ==> r.Some? && Img() == old(Img()) && logged == old(logged)
      ensures r.Some? ==> BmapLogs(old(logged), logged, r.value, BlockAt(Img(), ino, NDIRECT))
      ensures r.Some? ==> room == Outlook(old(room), old(Img()), ino, bn, bn + 1)
      ensures r.None? ==> OutOfBlocks() && Short(Outlook(old(room), old(Img()), ino, bn, bn + 1))
    {
      hide Sound, Journal, RoomOk, SameFiles, Gained, BlockAt, Vacant, Lack;
      ghost var img0 := Img();
      BlockIs(img0, owner, reserved, |dinodes|, ino, bn);
      LackOne(img0, ino, bn);
      if bn < NDIRECT {
        var addr := inodes[ino].addrs[bn];
        if addr == 0 {
          r := Attach(ino, bn);
          return;
        }
        GainedNothing(img0, ino, bn);
        return Some(addr);
      }
      var t := inodes[ino].addrs[NDIRECT];
      ghost var b := img0;
      if t == 0 {
        r := Attach(ino, NDIRECT);
        if r.None? { return; }
        t := r.value;
        b := Img();
        NewTableIsEmpty(img0, b, ino, bn);
        BlockIs(b, owner, reserved, |dinodes|, ino, bn);
      }
      ghost var logged1 := logged;
      var addr := blocks[t].words[bn - NDIRECT];
      if addr == 0 {
        r := Attach(ino, bn + 1);
        if r.Some? {
          GrownTwice(old(logged), logged1, logged);
          TableStays(b, Img(), ino, bn + 1);
          GainedAgain(img0, b, Img(), ino, bn + 1);
        }
        return;
      }
      GainedNothing(img0, ino, bn + 1);
      return Some(addr);
    }

    /** One iteration of writei's loop: `m` bytes have been written, `r` more are now,
        or it panics. The file is to have its blocks up to `upto`. */
    method WriteBlock(ino: int, src: seq<int>, off: int, m: int, n: int, ghost img: Image, ghost upto: int)
      returns (r: Option<int>)
      requires Valid() && 0 <= ino < |inodes| && 0 <= off && 0 <= m < n <= |src| && off + n <= MAXFILE * BSIZE
      requires EndBlock(off, n) <= upto
      requires (forall i | 0 <= i < |src| :: 0 <= src[i] < 0x100) && Written(img, Img(), ino, src, off, m)
      modifies this`used, this`blocks, this`logged, this`calls, this`inodes, this`owner, this`room
      ensures r.Some? ==>
        && 0 < r.value && (off + m) % BSIZE + r.value <= BSIZE && m + r.value <= n
        && (m + r.value == n || (off + m + r.value) % BSIZE == 0)
        && Valid() && Written(img, Img(), ino, src, off, m + r.value)
      ensures BlockAt(old(Img()), ino, DataPlace((off + m) / BSIZE)) != 0 ==> r.Some? && inodes == old(inodes)
      ensures r.Some? ==>
        BlockLogged(old(logged), logged, BlockAt(old(Img()), ino, NDIRECT), BlockAt(Img(), ino, NDIRECT))
      ensures var was := Outlook(old(room), old(Img()), ino, (off + m) / BSIZE, upto);
        if r.Some? then Outlook(room, Img(), ino, (off + m + r.value) / BSIZE, upto) == was
          else OutOfBlocks() && Short(was)
    {
      hide Sound, Journal, RoomOk, SameFiles, Gained, BlockAt, Written, Lack, Outlook;
      ghost var a := Img();
      var bn := (off + m) / BSIZE;
      r := Bmap(ino, bn);
      OutlookParts(old(room), a, ino, bn, upto);
      if r.None? { return; }
      var b, at := r.value, (off + m) % BSIZE;
      var d := if n - m < BSIZE - at then n - m else BSIZE - at;
      TableStays(a, Img(), ino, DataPlace(bn));
      DataLogs(old(logged), logged, b, BlockAt(a, ino, NDIRECT), BlockAt(Img(), ino, NDIRECT));
      ghost var now := Img();
      BlockWritten(img, a, now, owner, reserved, |dinodes|, ino, src, off, m, d);
      OutlookGoesOn(old(room), room, a, now, owner, reserved, |dinodes|, ino, src, off, m, d, upto);
      Memmove(b, at, src, m, d, ino, bn);
      r := Some(d);
    }

    /** writei's memmove into block `b`, which is the `bn`th of file `ino`, and its log_write. */
    method Memmove(b: int, at: int, src: seq<int>, from: int, d: nat, ghost ino: int, ghost bn: int)
      requires Valid() && 0 <= bn && b == BlockAt(Img(), ino, DataPlace(bn)) != 0
      requires 0 <= at && at + d <= BSIZE && 0 <= from && from + d <= |src|
      modifies this`blocks, this`logged, this`calls
      ensures Valid() && logged == old(logged).Data(b)
      ensures 0 < b < |old(blocks)| && old(blocks)[b].Full() && Img() == Stored(old(Img()), b, at, src, from, d)
    {
      hide Sound, Journal, RoomOk, CopyIn;
      StoredSound(Img(), owner, reserved, |dinodes|, ino, bn, at, src, from, d);
      JournalsBlock(format, before, Vol(), calls, logged, b, CopyIn(blocks[b], at, src, from, d), false);
      RoomStays(format.log, room, used, calls, owner, Write(b, CopyIn(blocks[b], at, src, from, d)));
      blocks := blocks[b := CopyIn(blocks[b], at, src, from, d)];
      calls, logged := calls + [Write(b, blocks[b])], logged.Data(b);
    }

    method Iupdate(ino: int)
      requires Journaled() && Laid() && Roomy() && 0 <= ino < |inodes| == |dinodes|
      modifies this`dinodes, this`logged, this`calls
      ensures Journaled() && Roomy()
      ensures dinodes == old(dinodes)[ino := inodes[ino]] && logged == old(logged).Inode(format.InodeSector(ino))
    {
      ghost var s := format.InodeSector(ino);
      hide Journal, RoomOk;
      JournalsInode(format, before, Vol(), calls, logged, ino, inodes[ino]);
      InodeIsBelow(format, before, Vol(), calls, logged, ino);
      RoomStays(format.log, room, used, calls, owner,
        Write(s, SectorOf(format, Vol().(dinodes := dinodes[ino := inodes[ino]]), s)));
      dinodes := dinodes[ino := inodes[ino]];
      calls, logged := calls + [Write(s, SectorOf(format, Vol(), s))], logged.Inode(s);
    }

    /** The loop of writei. */
    method WriteBlocks(ino: int, src: seq<int>, off: int, n: int, ghost upto: int) returns (panic: bool)
      requires Valid() && 0 <= ino < |inodes| && 0 <= off && 0 <= n <= |src| && off + n <= MAXFILE * BSIZE
      requires EndBlock(off, n) <= upto
      requires forall i | 0 <= i < |src| :: 0 <= src[i] < 0x100
      modifies this`used, this`blocks, this`logged, this`calls, this`inodes, this`owner, this`room
      ensures !panic ==> Valid() && Written(old(Img()), Img(), ino, src, off, n)
      ensures !panic ==> WriteLogged(old(logged), logged, BlockAt(Img(), ino, NDIRECT), off, n)
      ensures !panic && NoHoles(old(Img()), ino) && off + n <= old(inodes)[ino].size ==> inodes == old(inodes)
      ensures var was := Outlook(old(room), old(Img()), ino, off / BSIZE, upto);
        if panic then OutOfBlocks() && Short(was) else Outlook(room, Img(), ino, (off + n) / BSIZE, upto) == was
    {
      hide Sound, Journal, RoomOk, Written, WriteLogged, BlockAt, Outlook, NoHoles;
      ghost var img, logged0, inodes0 := Img(), logged, inodes;
      ghost var was := Outlook(room, img, ino, off / BSIZE, upto);
      var tot := 0;
      NothingWritten(img, ino, src, off, logged);
      while tot < n
        invariant 0 <= tot <= n && (tot == 0 || tot == n || (off + tot) % BSIZE == 0)
        invariant Valid() && Written(img, Img(), ino, src, off, tot) && 0 <= ino < |inodes|
        invariant WriteLogged(logged0, logged, BlockAt(Img(), ino, NDIRECT), off, tot)
        invariant NoHoles(img, ino) && off + n <= inodes0[ino].size ==> inodes == inodes0
        invariant Outlook(room, Img(), ino, (off + tot) / BSIZE, upto) == was
      {
        ghost var b, t := logged, BlockAt(Img(), ino, NDIRECT);
        StillNoHoles(img, Img(), ino, src, off, tot, n);
        var r := WriteBlock(ino, src, off, tot, n, img, upto);
        if r.None? { return true; }
        WrittenInodes(img, Img(), ino, src, off, tot + r.value);
        WriteLogsMore(logged0, b, logged, t, BlockAt(Img(), ino, NDIRECT), off, tot, r.value);
        tot := tot + r.value;
      }
      return false;
    }

    /** writei on a file. It fails, changing nothing, exactly when the offset is past
        the end or the sum wraps or exceeds the largest file. Otherwise, unless the
        disk is full, it is a splice of this file alone; and if the inode was on
        disk as in memory, without holes, it is so again. It takes from the room below the
        log what the file lacks of its blocks up to `upto`, any that are to be there. */
    method Writei(ino: int, src: seq<int>, off: int, n: int, ghost upto: int) returns (r: Answer)
      requires Valid() && 0 <= ino < |inodes| && inodes[ino].kind != T_DEV && 0 <= off < UINT && 0 <= n <= |src|
      requires n < UINT
      requires forall i | 0 <= i < |src| :: 0 <= src[i] < 0x100
      modifies this`used, this`blocks, this`logged, this`calls, this`inodes, this`dinodes, this`owner, this`room
      ensures r.Fail? <==> off > old(inodes)[ino].size || off + n >= UINT || off + n > MAXFILE * BSIZE
      ensures r.Fail? ==> Img() == old(Img()) && dinodes == old(dinodes) && logged == old(logged) && owner == old(owner)
      ensures r.Fail? ==> calls == old(calls) && room == old(room)
      ensures r.Done? ==> r.n == n && Valid() && FileSpliced(old(Img()), Img(), ino, src[..n], off).Some?
      ensures r.Done? && NoHoles(old(Img()), ino) ==> NoHoles(Img(), ino)
      ensures r.Done? && NoHoles(old(Img()), ino) && old(inodes)[ino] == old(dinodes)[ino] ==>
        inodes[ino] == dinodes[ino]
      ensures r.Done? ==> LoggedBy(old(logged), logged, BlockAt(Img(), ino, NDIRECT), off, n, format.InodeSector(ino))
      ensures r.Panic? ==> OutOfBlocks()
      ensures EndBlock(off, n) <= upto ==>
        var was := Outlook(old(room), old(Img()), ino, off / BSIZE, upto);
        && (r.Panic? ==> Short(was))
        && (r.Done? ==> Outlook(room, Img(), ino, (off + n) / BSIZE, upto) == was)
      ensures r.Done? && n > 0 ==> Lack(Img(), ino, (off + n) / BSIZE, EndBlock(off, n)) == 0
    {
      hide Sound, Journal, RoomOk, Written, WriteLogged, BlockAt, Outlook, NoHoles, FileSpliced, Lack;
      if off > inodes[ino].size || (off + n) % UINT < off {
        return Fail;
      }
      if (off + n) % UINT > MAXFILE * BSIZE {
        return Fail;
      }
      ghost var img, upto1 := Img(), if EndBlock(off, n) <= upto then upto else EndBlock(off, n);
      var panic := WriteBlocks(ino, src, off, n, upto1);
      if panic {
        return Panic;
      }
      ghost var a := Img();
      WriteIsSplice(img, a, owner, reserved, |dinodes|, ino, src, off, n);
      WrittenInodes(img, a, ino, src, off, n);
      SoundInodes(a, owner, reserved, |dinodes|);
      LackAtEnd(img, a, ino, src, off, n);
      ghost var size, p := SizeAfter(img.inodes[ino].size, off, n), (off + n) / BSIZE;
      ResizedLack(a, owner, reserved, |dinodes|, ino, size, room, p, upto);
      ResizedLack(a, owner, reserved, |dinodes|, ino, size, room, p, EndBlock(off, n));
      FinishWrite(ino, off, n);
      return Done(n);
    }

    /** The end of writei: the size if it has grown. */
    method FinishWrite(ino: int, off: int, n: int)
      requires Journaled() && Laid() && Roomy() && 0 <= ino < |inodes| == |dinodes|
      modifies this`logged, this`calls, this`inodes, this`dinodes
      ensures Journaled() && Roomy()
      ensures 0 <= ino < |old(inodes)| && Img() == Resized(old(Img()), ino, SizeAfter(old(inodes)[ino].size, off, n))
      ensures if n > 0 && off + n > old(inodes)[ino].size
        then dinodes == old(dinodes)[ino := inodes[ino]] && logged == old(logged).Inode(format.InodeSector(ino))
        else dinodes == old(dinodes) && logged == old(logged)
    {
      if n > 0 && off + n > inodes[ino].size {
        inodes := inodes[ino := inodes[ino].(size := off + n)];
        Iupdate(ino);
      }
    }

    /** begin_trans: nothing has been logged. */
    ghost method BeginTrans()
      requires Valid()
      modifies this`before, this`calls, this`logged, this`room
      ensures Valid() && before == Vol() && logged == Logged({}, {}, {}, {}, false)
      ensures room == RoomNow(format.log, used, owner)
    {
      before, calls, logged, room := Vol(), [], Logged({}, {}, {}, {}, false), RoomNow(format.log, used, owner);
      JournalStarts(format, before);
      RoomIsLeft(format.log, used, owner);
    }

    ghost predicate IsAt(j: Job, i: int)
      reads this
    {
      At(format, j, i, Img(), dinodes, owner, committed)
    }

    /** One transaction of filewrite: `i` bytes have been written, and the next `n` are to be. */
    method FileChunk(ino: int, src: seq<int>, i: int, n: int, off: int, ghost job: Job) returns (r: Answer)
      requires Valid() && 0 <= ino < |inodes| && inodes[ino].kind != T_DEV && 0 <= off && off + i < UINT && 0 <= i
      requires 0 < n <= CHUNK && i + n <= |src|
      requires forall j | 0 <= j < |src| :: 0 <= src[j] < 0x100
      requires job.ino == ino && job.src == src && job.off == off && IsAt(job, i)
      requires |committed| >= job.first && i + n == SentAfter(|committed| - job.first + 1, job.n)
      requires off + i <= inodes[ino].size && off + i + n <= MAXFILE * BSIZE ==> EndBlock(off + i, n) <= job.upto
      modifies this`used, this`blocks, this`logged, this`calls, this`inodes, this`dinodes, this`owner, this`room,
        this`before, this`committed
      ensures r.Fail? <==> off + i > old(inodes)[ino].size || off + i + n > MAXFILE * BSIZE
      ensures r.Done? ==> r.n == n && Valid() && IsAt(job, i + n) && |committed| == |old(committed)| + 1
      ensures r.Done? ==> ino < |inodes| && inodes[ino].kind == old(inodes)[ino].kind && off + i + n <= inodes[ino].size
      ensures r.Done? ==> Lack(Img(), ino, (off + i + n) / BSIZE, EndBlock(off + i, n)) == 0
      ensures r.Fail? ==> Valid() && Img() == old(Img()) && IsAt(job, i) && committed == old(committed)
      ensures r.Panic? ==> OutOfBlocks() && Short(job.room)
    {
      hide Sound, Journal, RoomOk, At, Lack, FileSpliced, LoggedBy, NoHoles, Contents, Outlook, RoomNow, EndBlock;
      ghost var a, da, oa, ts := Img(), dinodes, owner, committed;
      JobIsThere(format, job, i, a, da, oa, ts);
      BeginTrans();
      r := Writei(ino, src[i..], off + i, n, job.upto);
      if r.Done? {
        if |logged.bitmap| <= 3 {
          ChunkFitsLog(logged, BlockAt(Img(), ino, NDIRECT), off + i, n, format.InodeSector(ino));
        }
        SplicedSize(a, Img(), ino, src[i..][..n], off + i);
        SoundInodes(Img(), owner, reserved, |dinodes|);
        SoundInodes(a, oa, reserved, |da|);
        ghost var t := Transaction(before, calls, Vol(), logged);
        JobGoesOn(format, job, i, n, a, da, oa, ts, Img(), dinodes, owner, t, room);
        committed := committed + [t];
      }
    }

    /** filewrite on an inode: one transaction a chunk. It fails exactly when it starts
        past the end of the file or would end past the largest one, and panics exactly when
        fewer blocks are free than it takes; the chunks written, of `sent` bytes, add up to
        one splice. Each
        transaction logs all it changes, and meets the log's panic only if it allocated
        from more than three bitmap sectors; and if the file had no holes and its inode
        was on disk, each leaves one chunk more in the file on disk. If no file has blocks
        in the log area, all its calls of log_write go below the log exactly when as many
        blocks are free there as it takes. */
    method Filewrite(ino: int, src: seq<int>, n: int, off: int) returns (r: Answer, off': int, ghost sent: int)
      requires Valid() && 0 <= ino < |inodes| && inodes[ino].kind != T_DEV && 0 <= off < UINT && 0 <= n <= |src|
      requires forall i | 0 <= i < |src| :: 0 <= src[i] < 0x100
      modifies this`used, this`blocks, this`logged, this`calls, this`inodes, this`dinodes, this`owner, this`room,
        this`before, this`committed
      ensures r.Panic? <==> FreeBelow(old(used), |old(used)|) < Taken(old(Img()), ino, n, off)
      ensures r.Panic? ==> OutOfBlocks()
      ensures !r.Panic? ==> (r.Fail? <==> n > 0 && (off > old(inodes)[ino].size || off + n > MAXFILE * BSIZE))
      ensures 0 <= sent <= n && off' == off + sent && (r.Done? ==> r.n == sent == n)
      ensures !r.Panic? ==>
        FreeBelow(used, |used|) == FreeBelow(old(used), |old(used)|) - Taken(old(Img()), ino, n, off)
      ensures !r.Panic? ==> |old(committed)| <= |committed|
      ensures !r.Panic? ==>
        sent == WillSend(off, old(inodes)[ino].size, n) == SentAfter(|committed| - |old(committed)|, n)
      ensures !r.Panic? ==> Valid() && Progress(old(Img()), Img(), ino, src, sent, off).Some?
      ensures !r.Panic? ==> Ledger(format, old(Vol()), Vol(), committed, |old(committed)|).Some?
      ensures !r.Panic? && Settled(old(Img()), old(dinodes), ino) ==>
        && Settled(Img(), dinodes, ino)
        && ChunkByChunk(committed, |old(committed)|, ino, Contents(old(Img()), ino), src, n, off)
      ensures !r.Panic? && OwnedBelow(old(owner), format.log) ==>
        && format.log <= |old(used)|
        && (AllHome(committed, |old(committed)|, format.log) <==>
             Taken(old(Img()), ino, n, off) <= FreeBelow(old(used), format.log))
        && (AllHome(committed, |old(committed)|, format.log) ==>
             && format.log <= |used| && OwnedBelow(owner, format.log)
             && FreeBelow(used, format.log) == FreeBelow(old(used), format.log) - Taken(old(Img()), ino, n, off))
    {
      hide Sound, Journal, RoomOk, At, Lack, NoHoles, Contents, AllHome, Ledger, Settled, ChunkByChunk, OwnedBelow,
        Taken, FreeBelow, WillSend, EndBlock, Progress, Outlook, RoomNow, OutOfBlocks, SentAfter;
      ghost var size0 := inodes[ino].size;
      JournalSizes(format, before, Vol(), calls, logged);
      ghost var job := NewJob(format.log, Img(), dinodes, owner, ino, src, n, off, |committed|);
      RoomIsFit(format.log, Img(), dinodes, owner, ino, src, n, off, |committed|);
      JobStarts(format, job, dinodes, owner, committed);
      JobIsThere(format, job, 0, Img(), dinodes, owner, committed);
      SendBounds(off, size0, n);
      off', sent := off, 0;
      var i := 0;
      while i < n
        invariant 0 <= i == sent <= n && off' == off + i < UINT && |committed| >= job.first
        invariant i == SentAfter(|committed| - job.first, n)
        invariant Valid() && 0 <= ino < |inodes| && inodes[ino].kind != T_DEV && IsAt(job, i)
        invariant if i == 0 then inodes[ino].size == size0
          else off <= size0 && off + i <= inodes[ino].size && off + i <= MAXFILE * BSIZE
        invariant i <= WillSend(off, size0, n)
        invariant i > 0 ==> Lack(Img(), ino, (off + i) / BSIZE, EndBlock(off, i)) == 0
      {
        var n1 := if n - i > CHUNK then CHUNK else n - i;
        NextChunk(off, size0, n, i, |committed| - job.first, n1);
        r := FileChunk(ino, src, i, n1, off, job);
        if r.Panic? { return; }
        if r.Fail? {
          JobIsDone(format, job, i, Img(), dinodes, owner, committed);
          return;
        }
        off', i := off' + r.n, i + r.n;
        sent := i;
      }
      JobIsDone(format, job, i, Img(), dinodes, owner, committed);
      r := Done(n);
    }

    /** One iteration of readi's loop. */
    method ReadBlock(ino: int, off: int, n: int, dst: seq<int>, ghost img: Image) returns (r: Option<seq<int>>)
      requires Valid() && 0 <= ino < |inodes| && 0 <= off && |dst| < n && off + n <= MAXFILE * BSIZE
      requires SameFiles(img, Img()) && forall j: nat | j < |dst| :: dst[j] == FileByte(img, ino, off + j)
      modifies this`used, this`blocks, this`logged, this`calls, this`inodes, this`owner, this`room
      ensures r.Some? ==> Valid() && SameFiles(img, Img()) && |dst| < |r.value| <= n
      ensures r.Some? ==> forall j: nat | j < |r.value| :: r.value[j] == FileByte(img, ino, off + j)
      ensures BlockAt(old(Img()), ino, DataPlace((off + |dst|) / BSIZE)) != 0 ==>
        r.Some? && Img() == old(Img()) && logged == old(logged)
      ensures r.None? ==> OutOfBlocks()
    {
      hide Sound, Journal, RoomOk, Gained, BlockAt, Lack, Outlook, SameFiles, FileByte, ByteOf;
      var k := off + |dst|;
      ghost var was := Img();
      var bn := Bmap(ino, k / BSIZE);
      if bn.None? { return None; }
      ghost var now := Img();
      HasBlock(was, now, ino, k / BSIZE);
      SameTwice(img, was, now);
      BlockBytes(img, now, owner, reserved, |dinodes|, ino, k / BSIZE);
      var m := if n - |dst| < BSIZE - k % BSIZE then n - |dst| else BSIZE - k % BSIZE;
      var b := blocks[bn.value];
      var out := dst + seq(m, j requires 0 <= j < m => ByteOf(b, k % BSIZE + j));
      forall j: nat | |dst| <= j < |out|
        ensures out[j] == FileByte(img, ino, off + j)
      {
        assert (off + j) / BSIZE == k / BSIZE && (off + j) % BSIZE == k % BSIZE + j - |dst|;
      }
      r := Some(out);
    }

    /** readi on a file: the slice of its contents, as much as there is. Without holes it
        changes nothing. */
    method Readi(ino: int, off: int, n: int) returns (r: Answer, dst: seq<int>)
      requires Valid() && 0 <= ino < |inodes| && inodes[ino].kind != T_DEV && inodes[ino].size <= MAXFILE * BSIZE
      requires 0 <= off < UINT && 0 <= n < UINT
      modifies this`used, this`blocks, this`logged, this`calls, this`inodes, this`owner, this`room
      ensures r.Fail? <==> off > old(inodes)[ino].size || off + n >= UINT
      ensures r.Done? ==>
        && Valid() && SameFiles(old(Img()), Img())
        && r.n == if off + n > old(inodes)[ino].size then old(inodes)[ino].size - off else n
      ensures r.Done? ==> off + r.n <= |Contents(old(Img()), ino)| && dst == Contents(old(Img()), ino)[off..off + r.n]
      ensures NoHoles(old(Img()), ino) ==> !r.Panic? && Img() == old(Img()) && logged == old(logged)
      ensures r.Panic? ==> OutOfBlocks()
    {
      hide Sound, Journal, RoomOk, SameFiles, NoHoles, FileByte, BlockAt, OutOfBlocks;
      dst := [];
      if off > inodes[ino].size || (off + n) % UINT < off {
        return Fail, dst;
      }
      NothingGained(Img());
      var m := if off + n > inodes[ino].size then inodes[ino].size - off else n;
      ghost var img := Img();
      while |dst| < m
        invariant |dst| <= m && Valid() && SameFiles(img, Img())
        invariant forall j: nat | j < |dst| :: dst[j] == FileByte(img, ino, off + j)
        invariant NoHoles(img, ino) ==> Img() == img && logged == old(logged)
      {
        BlockIsThere(img, ino, off + |dst|);
        SameInodes(img, Img());
        var d := ReadBlock(ino, off, m, dst, img);
        if d.None? { return Panic, dst; }
        dst := d.value;
      }
      r := Done(m);
    }

    /** bfree; it panics exactly when the block is already free. */
    method Bfree(b: int) returns (ok: bool)
      requires Journaled() && Laid() && 0 <= b < |used|
      modifies this`used, this`logged, this`calls
      ensures Journaled()
      ensures ok == old(used)[b]
      ensures ok ==> used == old(used)[b := false] && logged == old(logged).Bitmap(format.BitmapSector(b))
      ensures !ok ==> used == old(used) && logged == old(logged)
    {
      if !used[b] { return false; }
      ghost var s := format.BitmapSector(b);
      JournalsBit(format, before, Vol(), calls, logged, b, false);
      used := used[b := false];
      calls, logged := calls + [Write(s, SectorOf(format, Vol(), s))], logged.Bitmap(s);
      return true;
    }

    /** itrunc's loop over direct blocks, at `i`; `r` says whether bfree panicked. */
    method FreeDirect(ino: int, i: int) returns (ok: bool)
      requires Journaled() && Laid() && Shaped(Img()) && Owned(Img(), owner, reserved) && 0 <= ino < |inodes|
      requires 0 <= i < NDIRECT
      modifies this`used, this`logged, this`calls, this`inodes, this`owner
      ensures ok && Journaled() && Shaped(Img()) && Owned(Img(), owner, reserved)
      ensures Shrunk(old(Img()), old(owner), Img(), owner, ino)
      ensures Addr(Img(), ino, i) == 0
      ensures forall k | 0 <= k <= NDIRECT && k != i :: Addr(Img(), ino, k) == Addr(old(Img()), ino, k)
    {
      var b := inodes[ino].addrs[i];
      assert b == BlockAt(Img(), ino, i);
      ok := true;
      if b != 0 {
        DirectFreedOwned(Img(), owner, reserved, ino, i);
        ok := Bfree(b);
        inodes := inodes[ino := inodes[ino].(addrs := inodes[ino].addrs[i := 0])];
        owner := owner - {b};
        assert Img() == DirectFreed(old(Img()), ino, i);
      }
    }

    /** itrunc's loop over the entries of the indirect block, at `j`. */
    method FreeEntry(ino: int, t: int, j: int) returns (ok: bool)
      requires Journaled() && Laid() && Shaped(Img()) && OwnedBut(Img(), owner, reserved, ino, j) && 0 <= ino < |inodes|
      requires 0 <= j < NINDIRECT
      requires 0 < t < |blocks| && t == Addr(Img(), ino, NDIRECT)
      modifies this`used, this`logged, this`calls, this`owner
      ensures ok && Journaled() && Shaped(Img()) && OwnedBut(Img(), owner, reserved, ino, j + 1)
      ensures Shrunk(old(Img()), old(owner), Img(), owner, ino)
    {
      var b := blocks[t].words[j];
      assert b == BlockAt(Img(), ino, NDIRECT + 1 + j);
      EntryFreedOwned(Img(), owner, reserved, ino, j);
      ok := true;
      if b != 0 {
        ok := Bfree(b);
        owner := owner - {b};
        assert Img() == old(Img()).(used := old(used)[b := false]);
      }
    }

    method FreeEntries(ino: int, t: int) returns (ok: bool)
      requires Journaled() && Laid() && Shaped(Img()) && Owned(Img(), owner, reserved) && 0 <= ino < |inodes|
      requires 0 < t < |blocks| && t == Addr(Img(), ino, NDIRECT)
      modifies this`used, this`logged, this`calls, this`owner
      ensures ok && Journaled() && Shaped(Img()) && OwnedBut(Img(), owner, reserved, ino, NINDIRECT)
      ensures Shrunk(old(Img()), old(owner), Img(), owner, ino)
    {
      ghost var img0, owner0 := Img(), owner;
      ok := true;
      var j := 0;
      while j < NINDIRECT
        invariant 0 <= j <= NINDIRECT && ok && Journaled() && Shaped(Img()) && OwnedBut(Img(), owner, reserved, ino, j)
        invariant Shrunk(img0, owner0, Img(), owner, ino)
      {
        var freed := FreeEntry(ino, t, j);
        ok := ok && freed;
        j := j + 1;
      }
    }

    /** itrunc's second half: the indirect block, after its entries. */
    method FreeTable(ino: int) returns (ok: bool)
      requires Journaled() && Laid() && Shaped(Img()) && Owned(Img(), owner, reserved) && 0 <= ino < |inodes|
      modifies this`used, this`logged, this`calls, this`inodes, this`owner
      ensures ok && Journaled() && Shaped(Img()) && Owned(Img(), owner, reserved)
      ensures Shrunk(old(Img()), old(owner), Img(), owner, ino)
      ensures Addr(Img(), ino, NDIRECT) == 0
      ensures forall k | 0 <= k < NDIRECT :: Addr(Img(), ino, k) == Addr(old(Img()), ino, k)
    {
      var t := inodes[ino].addrs[NDIRECT];
      assert t == BlockAt(Img(), ino, NDIRECT);
      ok := true;
      if t != 0 {
        ok := FreeEntries(ino, t);
        TableFreedOwned(Img(), owner, reserved, ino);
        ghost var img1 := Img();
        var freed := Bfree(t);
        ok := ok && freed;
        inodes := inodes[ino := inodes[ino].(addrs := inodes[ino].addrs[NDIRECT := 0])];
        owner := owner - {t};
        assert Img() == DirectFreed(img1, ino, NDIRECT);
      }
    }

    /** itrunc. It never meets bfree's panic, frees exactly the blocks of this inode, and
        changes no other file. */
    method Itrunc(ino: int) returns (ok: bool)
      requires Valid() && 0 <= ino < |inodes|
      modifies this`used, this`logged, this`calls, this`inodes, this`dinodes, this`owner, this`room
      ensures ok && Valid() && |inodes| == |old(inodes)| && inodes[ino].size == 0
      ensures dinodes == old(dinodes)[ino := inodes[ino]]
      ensures forall i :: BlockAt(Img(), ino, i) == 0
      ensures |used| == |old(used)|
      ensures forall b | 0 <= b < |used| ::
        used[b] <==> old(used)[b] && !(exists i :: BlockAt(old(Img()), ino, i) == b && b != 0)
      ensures forall ino' | 0 <= ino' < |inodes| && ino' != ino :: inodes[ino'] == old(inodes)[ino']
      ensures forall ino', k: nat | ino' != ino :: FileByte(Img(), ino', k) == FileByte(old(Img()), ino', k)
    {
      hide Journal, Shrunk, FileByte, Owned, Shaped;
      ghost var img0, owner0 := Img(), owner;
      ok := FreeDirects(ino);
      var freed := FreeTable(ino);
      ok := ok && freed;
      TruncatedExactly(img0, owner0, Img(), owner, reserved, ino);
      ResizedPlaces(Img(), owner, reserved, ino, 0);
      inodes := inodes[ino := inodes[ino].(size := 0)];
      room := Unknown(FreeBelow(used, |used|));
      Iupdate(ino);
    }

    method FreeDirects(ino: int) returns (ok: bool)
      requires Journaled() && Laid() && Shaped(Img()) && Owned(Img(), owner, reserved) && 0 <= ino < |inodes|
      modifies this`used, this`logged, this`calls, this`inodes, this`owner
      ensures ok && Journaled() && Shaped(Img()) && Owned(Img(), owner, reserved)
      ensures Shrunk(old(Img()), old(owner), Img(), owner, ino)
      ensures forall k | 0 <= k < NDIRECT :: Addr(Img(), ino, k) == 0
    {
      ghost var img0, owner0 := Img(), owner;
      ok := true;
      var i := 0;
      while i < NDIRECT
        invariant 0 <= i <= NDIRECT && ok && Journaled() && Shaped(Img()) && Owned(Img(), owner, reserved)
        invariant Shrunk(img0, owner0, Img(), owner, ino)
        invariant forall k | 0 <= k < i :: Addr(Img(), ino, k) == 0
      {
        var freed := FreeDirect(ino, i);
        ok := ok && freed;
        i := i + 1;
      }
    }
  }
}
