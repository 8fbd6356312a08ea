/**
  The bytes behind the end of a file.  Nothing clears the rest of the last block
  when a file is cut, so a file that grows again may show bytes from before.
 */
module SfsTail {
  import opened Bytes
  import opened SfsDisk
  import opened SfsFile
  import opened SfsSpec

  // The mapped bytes between the two positions are zero.
  ghost predicate ZeroIn(data: seq<Block>, from: nat, to: nat) {
    forall p: nat :: from <= p < to && p < |data| * BLKSIZE ==> Flat(data, p) == 0
  }

  // Every mapped byte behind the size is zero.
  ghost predicate Clean(f: File) { ZeroIn(f.data, f.size, |f.data| * BLKSIZE) }

  // The file after a successful sfs_truncfile to `len`.
  function Truncated(f: File, len: nat): (r: File) { File(len, Fit(f.data, RoundUpDiv(len))) }

  lemma RoundUp(len: nat)
    ensures len <= RoundUpDiv(len) * BLKSIZE < len + BLKSIZE
  {
  }

  lemma {:induction false} FitFlat(data: seq<Block>, n: nat, p: nat)
    requires p < n * BLKSIZE
    ensures Flat(Fit(data, n), p) == if p < |data| * BLKSIZE then Flat(data, p) else 0
  {
    if p < |data| * BLKSIZE {
      assert p / BLKSIZE < |data|;
    } else {
      assert p / BLKSIZE >= |data|;
    }
  }

  // ------------------------------------------------------ growing

  // What a file shows after it was extended from its size to `len`.
  lemma Extension(f: File, len: nat, p: nat)
    requires Backed(f) && f.size <= p < len
    ensures Backed(Truncated(f, len))
    ensures Content(Truncated(f, len))[p] == if p < |f.data| * BLKSIZE then Flat(f.data, p) else 0
  {
    RoundUp(len);
    FitFlat(f.data, RoundUpDiv(len), p);
  }

  // The new part reads as zero exactly if the mapped bytes it takes in are zero.
  lemma ExtensionZero(f: File, len: nat)
    requires Backed(f) && f.size < len
    ensures Backed(Truncated(f, len))
    ensures (forall p: nat :: f.size <= p < len ==> Content(Truncated(f, len))[p] == 0) <==> ZeroIn(f.data, f.size, len)
  {
    hide Flat, Fit, RoundUpDiv;
    RoundUp(len);
    forall p: nat | f.size <= p < len
      ensures Content(Truncated(f, len))[p] == if p < |f.data| * BLKSIZE then Flat(f.data, p) else 0
    {
      Extension(f, len, p);
    }
  }

  // For a file with just the blocks of its size these bytes are the rest of its
  // last block, and there are none if the size is a multiple of the block size.
  ghost predicate ZeroBlock(b: Block, from: nat, to: nat) {
    forall k: nat :: from <= k < to && k < BLKSIZE ==> b[k] == 0
  }

  lemma LastBlock(f: File, len: nat)
    requires Backed(f) && f.size < len && |f.data| == RoundUpDiv(f.size)
    ensures var k := f.size % BLKSIZE;
      ZeroIn(f.data, f.size, len) <==> k == 0 || ZeroBlock(f.data[|f.data| - 1], k, k + len - f.size)
  {
    if f.size % BLKSIZE != 0 {
      var base, last := (|f.data| - 1) * BLKSIZE, f.data[|f.data| - 1];
      assert base + f.size % BLKSIZE == f.size;
      forall k: nat {:trigger last[k]} | k < BLKSIZE ensures Flat(f.data, base + k) == last[k] {}
      forall p: nat | base <= p < |f.data| * BLKSIZE ensures Flat(f.data, p) == last[p - base] {}
    }
  }

  // A write that starts behind the size takes in the bytes between.
  lemma GapZero(v0: map<nat, File>, v: map<nat, File>, ino: nat, offset: nat, buf: seq<byte>, n: nat)
    requires Filled(v0, v, ino, offset, buf, n) && Backed(v0[ino]) && Backed(v[ino]) && v0[ino].size <= offset
    ensures (forall p: nat :: v0[ino].size <= p < offset ==> Content(v[ino])[p] == 0) <==>
      ZeroIn(v0[ino].data, v0[ino].size, offset)
  {
    hide Flat;
    var f, f' := v0[ino], v[ino];
    forall p: nat | f.size <= p < offset
      ensures Content(f')[p] == if p < |f.data| * BLKSIZE then Flat(f.data, p) else 0 {}
  }

  // ------------------------------------------------------ who keeps it clean

  lemma WriteClean(v0: map<nat, File>, v: map<nat, File>, ino: nat, offset: nat, buf: seq<byte>, n: nat)
    requires Filled(v0, v, ino, offset, buf, n) && Clean(v0[ino])
    ensures Clean(v[ino])
  {
    hide Flat;
    var f, f' := v0[ino], v[ino];
    forall p: nat | f'.size <= p < |f'.data| * BLKSIZE ensures Flat(f'.data, p) == 0 {
      if p < |f.data| * BLKSIZE { var _ := Flat(f.data, p); }
    }
  }

  // More blocks, whether or not the size follows.
  lemma GrowClean(f: File, n: nat, size: nat)
    requires Clean(f) && n >= |f.data| && size >= f.size
    ensures Clean(File(size, Fit(f.data, n)))
  {
    hide Flat, Fit;
    forall p: nat | size <= p < n * BLKSIZE ensures Flat(Fit(f.data, n), p) == 0 { FitFlat(f.data, n, p); }
  }

  // Only a cut inside a block leaves bytes behind, and does so exactly if the
  // bytes cut off from that block are not all zero.
  lemma CutClean(f: File, len: nat)
    requires Backed(f) && Clean(f) && len <= f.size
    ensures Clean(Truncated(f, len)) <==>
      forall p: nat :: len <= p < f.size && p < RoundUpDiv(len) * BLKSIZE ==> Content(f)[p] == 0
    ensures len % BLKSIZE == 0 ==> Clean(Truncated(f, len))
  {
    hide Flat, Fit;
    var n, f' := RoundUpDiv(len), Truncated(f, len);
    RoundUp(len);
    assert n <= |f.data|;
    forall p: nat | p < n * BLKSIZE ensures Flat(f'.data, p) == Flat(f.data, p) { FitFlat(f.data, n, p); }
    if forall p: nat :: len <= p < f.size && p < n * BLKSIZE ==> Content(f)[p] == 0 {
      forall p: nat | len <= p < n * BLKSIZE ensures Flat(f'.data, p) == 0 {
        if p < f.size { assert Content(f)[p] == 0; }
      }
    }
    if Clean(f') {
      forall p: nat | len <= p < f.size && p < n * BLKSIZE ensures Content(f)[p] == 0 { assert Flat(f'.data, p) == 0; }
    }
  }

  // ------------------------------------------------------ old bytes come back

  // Cut and extended again: the rest of the last block is as it was.
  lemma CutThenExtend(f: File, cut: nat, len: nat, p: nat)
    requires Backed(f) && cut <= f.size && cut <= p < len
    ensures var f' := Truncated(Truncated(f, cut), len);
      Backed(f') && Content(f')[p] == if p < RoundUpDiv(cut) * BLKSIZE then Flat(f.data, p) else 0
  {
    hide Flat, Fit;
    RoundUp(cut);
    assert RoundUpDiv(cut) <= |f.data|;
    Extension(Truncated(f, cut), len, p);
    if p < RoundUpDiv(cut) * BLKSIZE { FitFlat(f.data, RoundUpDiv(cut), p); }
  }

  // 5000 bytes, cut to 4100 and extended to 5000: the last 900 are the old ones.
  lemma OldBytesBack(f: File, p: nat)
    requires f.size == 5000 && Backed(f) && 4100 <= p < 5000
    ensures var f' := Truncated(Truncated(f, 4100), 5000); Backed(f') && Content(f')[p] == Content(f)[p]
  {
    hide Flat, Fit;
    CutThenExtend(f, 4100, 5000, p);
  }

  // A file of 5000 sevens.
  function Sevens(): (f: File)
    ensures f.size == 5000 && Backed(f) && Clean(f) && forall p: nat :: p < 5000 ==> Content(f)[p] == 7
  {
    var last: Block := seq(BLKSIZE, k => if k < 904 then 7 else 0);
    File(5000, [seq(BLKSIZE, _ => 7), last])
  }

  // It was clean, and shows sevens where the new part should be zero.
  lemma OldBytesShown(p: nat)
    requires 4100 <= p < 5000
    ensures var f' := Truncated(Truncated(Sevens(), 4100), 5000);
      Backed(f') && Content(f')[p] == 7 && !Clean(Truncated(Sevens(), 4100))
  {
    hide Flat, Fit, Sevens;
    OldBytesBack(Sevens(), p);
    CutClean(Sevens(), 4100);
    assert Content(Sevens())[4100] == 7;
  }

  // A full disk and an empty file: a write at 100 stores nothing and still
  // leaves a size of 100 without a block behind it.
  lemma SizeWithoutBlock(ino: nat, buf: seq<byte>)
    ensures var v0, v := map[ino := File(0, [])], map[ino := File(100, [])];
      Filled(v0, v, ino, 100, buf, 0) && Backed(v0[ino]) && !Backed(v[ino])
  {
    WroteNothing([], 100, buf);
  }

  // ------------------------------------------------------ what callers do

  // The operations that reach a file: sfs_io with any outcome, sfs_tryseek
  // beyond the end, which extends the file or runs out of blocks, and O_TRUNC.
  datatype Op = Stored(offset: nat, buf: seq<byte>, n: nat) | Extended(len: nat) | Starved(blocks: nat) | Emptied

  ghost predicate Does(f: File, op: Op, f': File) {
    match op
    case Stored(offset, buf, n) => n <= |buf| && Wrote(f.data, f'.data, offset, buf, n) && f'.size == Max(f.size, offset + n)
    case Extended(len) => len > f.size && f' == Truncated(f, len)
    case Starved(blocks) => blocks >= |f.data| && f' == File(f.size, Fit(f.data, blocks))
    case Emptied => f' == Truncated(f, 0)
  }

  lemma DoesClean(f: File, op: Op, f': File)
    requires Clean(f) && Does(f, op, f')
    ensures Clean(f')
  {
    match op
    case Stored(offset, buf, n) => WriteClean(map[0 := f], map[0 := f'], 0, offset, buf, n);
    case Extended(len) => ExtendClean(f, len);
    case Starved(blocks) => GrowClean(f, blocks, f.size);
    case Emptied =>
  }

  lemma ExtendClean(f: File, len: nat)
    requires Clean(f) && len >= f.size
    ensures Clean(Truncated(f, len))
  {
    hide Flat, Fit;
    var n := RoundUpDiv(len);
    forall p: nat | len <= p < n * BLKSIZE ensures Flat(Fit(f.data, n), p) == 0 { FitFlat(f.data, n, p); }
  }

  // A run of such operations on a file.
  ghost predicate History(files: seq<File>, ops: seq<Op>) {
    |files| == |ops| + 1 && forall i :: 0 <= i < |ops| ==> Does(files[i], ops[i], files[i + 1])
  }

  lemma {:induction false} AlwaysClean(files: seq<File>, ops: seq<Op>)
    requires History(files, ops) && Clean(files[0])
    ensures Clean(files[|ops|])
    decreases |ops|
  {
    hide Clean, Does;
    if ops != [] {
      DoesClean(files[0], ops[0], files[1]);
      AlwaysClean(files[1..], ops[1..]);
    }
  }

  // So with the callers there are, a file that was clean at first, such as a new
  // one, never shows old bytes: every extension reads as zero.
  lemma AlwaysZero(files: seq<File>, ops: seq<Op>, len: nat)
    requires History(files, ops) && Clean(files[0])
    requires var f := files[|ops|]; Backed(f) && f.size < len
    ensures var f := files[|ops|];
      Backed(Truncated(f, len)) && forall p: nat :: f.size <= p < len ==> Content(Truncated(f, len))[p] == 0
  {
    AlwaysClean(files, ops);
    hide Flat, Fit, History;
    ExtensionZero(files[|ops|], len);
  }

  lemma NewClean()
    ensures Clean(File(0, []))
  {
  }
}
