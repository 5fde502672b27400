/** Disk sectors: 512 bytes (BSIZE, src/fs.h:10), which C code also reads and writes
    as 128 little-endian ints. A block is kept as its ints; byte `k` is a digit. */
module Blocks {
  const BSIZE := 512
  const WORDS := 128

  datatype Block = Block(words: seq<int>) {
    predicate Full() {
      |words| == WORDS
    }
  }

  function Zeroed(): (b: Block)
    ensures b.Full() && forall i | 0 <= i < WORDS :: b.words[i] == 0
  {
    Block(seq(WORDS, i => 0))
  }

  /** Byte `r` of an int. */
  function Digit(w: int, r: int): int
    requires 0 <= r
    decreases r
  {
    if r == 0 then w % 0x100 else Digit(w / 0x100, r - 1)
  }

  function WithDigit(w: int, r: int, v: int): int
    requires 0 <= r
    decreases r
  {
    if r == 0 then w - w % 0x100 + v else w % 0x100 + 0x100 * WithDigit(w / 0x100, r - 1, v)
  }

  /** Storing one byte of an int leaves the others. */
  lemma {:induction false} StoredDigit(w: int, r: int, v: int, q: int)
    requires 0 <= r && 0 <= q && 0 <= v < 0x100
    ensures Digit(WithDigit(w, r, v), q) == if q == r then v else Digit(w, q)
    decreases r
  {
    var w' := WithDigit(w, r, v);
    if r == 0 {
      assert w' / 0x100 == w / 0x100;
    } else {
      assert w' / 0x100 == WithDigit(w / 0x100, r - 1, v) && w' % 0x100 == w % 0x100;
      if q > 0 {
        StoredDigit(w / 0x100, r - 1, v, q - 1);
      }
    }
  }

  /** Byte `k` of a block. */
  function ByteOf(b: Block, k: int): int
    requires b.Full() && 0 <= k < BSIZE
  {
    Digit(b.words[k / 4], k % 4)
  }

  lemma ZeroedBytes(k: int)
    requires 0 <= k < BSIZE
    ensures ByteOf(Zeroed(), k) == 0
  {
    ZeroDigit(k % 4);
  }

  lemma {:induction false} ZeroDigit(r: nat)
    ensures Digit(0, r) == 0
  {
    if r > 0 {
      ZeroDigit(r - 1);
    }
  }

  function PutByte(b: Block, k: int, v: int): (r: Block)
    requires b.Full() && 0 <= k < BSIZE
    ensures r.Full()
  {
    Block(b.words[k / 4 := WithDigit(b.words[k / 4], k % 4, v)])
  }

  lemma PutByteOnly(b: Block, k: int, v: int, j: int)
    requires b.Full() && 0 <= k < BSIZE && 0 <= j < BSIZE && 0 <= v < 0x100
    ensures ByteOf(PutByte(b, k, v), j) == if j == k then v else ByteOf(b, j)
  {
    if j / 4 == k / 4 {
      StoredDigit(b.words[k / 4], k % 4, v, j % 4);
    }
  }

  /** memmove(b->data + at, src + from, m) */
  function CopyIn(b: Block, at: int, src: seq<int>, from: int, m: nat): (r: Block)
    requires b.Full() && 0 <= at && at + m <= BSIZE && 0 <= from && from + m <= |src|
    ensures r.Full()
  {
    if m == 0 then b else PutByte(CopyIn(b, at, src, from, m - 1), at + m - 1, src[from + m - 1])
  }

  lemma {:induction false} CopyInBytes(b: Block, at: int, src: seq<int>, from: int, m: nat, j: int)
    requires b.Full() && 0 <= at && at + m <= BSIZE && 0 <= from && from + m <= |src| && 0 <= j < BSIZE
    requires forall i | 0 <= i < |src| :: 0 <= src[i] < 0x100
    ensures ByteOf(CopyIn(b, at, src, from, m), j) == if at <= j < at + m then src[from + j - at] else ByteOf(b, j)
  {
    if m > 0 {
      CopyInBytes(b, at, src, from, m - 1, j);
      PutByteOnly(CopyIn(b, at, src, from, m - 1), at + m - 1, src[from + m - 1], j);
    }
  }
}
