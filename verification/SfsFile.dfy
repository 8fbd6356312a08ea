/**
  What a file looks like from above: a size and a sequence of data blocks, read
  as one flat sequence of bytes.
 */
module SfsFile {
  import opened Bytes
  import opened SfsDisk
  import opened SfsMap
  import opened SfsGrow

  const MAX_FILE_SIZE := 1024 * 1024 * 128

  datatype File = File(size: nat, data: seq<Block>)

  function FileOf(fs: Fs, ino: nat): (f: File)
    requires ino in fs.dins
    ensures |f.data| == fs.dins[ino].blocks
  {
    File(fs.dins[ino].size, seq(fs.dins[ino].blocks, i requires 0 <= i => Load(fs, Where(fs, DataOf(ino, i)))))
  }

  // All the files of the file system.
  function View(fs: Fs): (v: map<nat, File>)
    ensures v.Keys == fs.dins.Keys
  {
    map ino | ino in fs.dins :: FileOf(fs, ino)
  }

  // ------------------------------------------------------ steps on the view

  // A file whose blocks neither move nor change.
  ghost predicate Still(fs: Fs, fs': Fs, j: nat, n: nat) {
    forall i: nat :: i < n ==> Where(fs', DataOf(j, i)) == Where(fs, DataOf(j, i)) && Where(fs, DataOf(j, i)) != 0
  }

  lemma StillData(fs: Fs, fs': Fs, j: nat, n: nat)
    requires j in fs.dins && j in fs'.dins && n <= fs.dins[j].blocks && n <= fs'.dins[j].blocks && DataKept(fs, fs')
    requires Still(fs, fs', j, n)
    ensures FileOf(fs', j).data[..n] == FileOf(fs, j).data[..n]
  {
    hide Where, Load;
    forall i: nat | i < n ensures FileOf(fs', j).data[i] == FileOf(fs, j).data[i] {
      assert Where(fs', DataOf(j, i)) == Where(fs, DataOf(j, i)) != 0;
    }
  }

  // Only the file `ino` changed.
  lemma ViewOk(fs: Fs, fs': Fs, ino: nat, f: File)
    requires ino in fs.dins && fs'.dins.Keys == fs.dins.Keys && FileOf(fs', ino) == f && DataKept(fs, fs')
    requires forall j :: j in fs.dins && j != ino ==>
      fs'.dins[j].size == fs.dins[j].size && fs'.dins[j].blocks == fs.dins[j].blocks
    requires forall j :: j in fs.dins && j != ino ==> Still(fs, fs', j, fs.dins[j].blocks)
    ensures View(fs') == View(fs)[ino := f]
  {
    hide Where, Load, Still, DataKept;
    forall j | j in fs.dins && j != ino ensures FileOf(fs', j) == FileOf(fs, j) {
      StillData(fs, fs', j, fs.dins[j].blocks);
      assert FileOf(fs', j).data == FileOf(fs', j).data[..fs.dins[j].blocks];
      assert FileOf(fs, j).data == FileOf(fs, j).data[..fs.dins[j].blocks];
    }
  }

  function SetBlocks(fs: Fs, ino: nat, n: nat): Fs
    requires ino in fs.dins
  {
    fs.(dins := fs.dins[ino := fs.dins[ino].(blocks := n)])
  }

  function SetSize(fs: Fs, ino: nat, n: nat): Fs
    requires ino in fs.dins
  {
    fs.(dins := fs.dins[ino := fs.dins[ino].(size := n)])
  }

  lemma SetBlocksSame(fs: Fs, ino: nat, n: nat)
    requires ino in fs.dins
    ensures SameOwners(fs, SetBlocks(fs, ino, n))
    ensures Owned(fs) ==> Owned(SetBlocks(fs, ino, n))
  {
    if Owned(fs) { SameOk(fs, SetBlocks(fs, ino, n)); }
  }

  lemma SetSizeSame(fs: Fs, ino: nat, n: nat)
    requires ino in fs.dins
    ensures SameOwners(fs, SetSize(fs, ino, n))
  {
  }

  lemma LoadSame(fs: Fs, fs': Fs)
    requires fs'.disk == fs.disk
    ensures forall b :: Load(fs', b) == Load(fs, b)
  {
  }

  lemma SetSizeOk(fs: Fs, ino: nat, n: nat)
    requires Inv(fs) && ino in fs.dins
    ensures Inv(SetSize(fs, ino, n))
    ensures View(SetSize(fs, ino, n)) == View(fs)[ino := View(fs)[ino].(size := n)]
  {
    hide Where, Load;
    var fs' := SetSize(fs, ino, n);
    assert SameOwners(fs, fs') by { SetSizeSame(fs, ino, n); }
    LoadSame(fs, fs');
    SameOk(fs, fs');
    forall j | j in fs'.dins ensures DenseAt(fs', j) { assert DenseAt(fs, j); }
    forall j | j in fs.dins ensures FileOf(fs', j).data == FileOf(fs, j).data {}
  }

  lemma DenseOk(fs: Fs, fs': Fs, ino: nat)
    requires Dense(fs) && ino in fs.dins && fs'.dins.Keys == fs.dins.Keys && fs'.dins[ino].blocks <= MAX_INDEX
    requires forall j :: j in fs.dins && j != ino ==> fs'.dins[j].blocks == fs.dins[j].blocks
    requires forall j: nat, i: nat :: j in fs.dins && i < MAX_INDEX ==>
      (Where(fs', DataOf(j, i)) != 0 <==> if j == ino then i < fs'.dins[ino].blocks else Where(fs, DataOf(j, i)) != 0)
    ensures Dense(fs')
  {
    hide Where;
    forall j | j in fs'.dins ensures DenseAt(fs', j) { assert DenseAt(fs, j); }
  }

  // Growing at the end of `ino` leaves every mapped block where it was.
  lemma GrownStill(fs: Fs, t: Fs, ino: nat, j: nat)
    requires Dense(fs) && ino in fs.dins && j in fs.dins && Grown(fs, t, DataOf(ino, fs.dins[ino].blocks))
    ensures Still(fs, t, j, fs.dins[j].blocks)
  {
    hide Where, Load;
    assert DenseAt(fs, j);
  }

  lemma KeptView(fs: Fs, t: Fs, ino: nat)
    requires Inv(fs) && Owned(t) && ino in fs.dins && Grown(fs, t, DataOf(ino, fs.dins[ino].blocks))
    requires Where(t, DataOf(ino, fs.dins[ino].blocks)) == Where(fs, DataOf(ino, fs.dins[ino].blocks))
    ensures Inv(t) && View(t) == View(fs)
  {
    hide Where, Load;
    forall j | j in fs.dins ensures Still(fs, t, j, fs.dins[j].blocks) { GrownStill(fs, t, ino, j); }
    hide Still;
    StillData(fs, t, ino, fs.dins[ino].blocks);
    var n := fs.dins[ino].blocks;
    assert FileOf(t, ino).data == FileOf(t, ino).data[..n] && FileOf(fs, ino).data == FileOf(fs, ino).data[..n];
    ViewOk(fs, t, ino, FileOf(fs, ino));
    assert DenseAt(fs, ino);
    DenseOk(fs, t, ino);
  }

  // A block was mapped at the end and `blocks` incremented: the file is one
  // block longer.
  lemma ExtendOk(fs: Fs, t: Fs, ino: nat, v: Block)
    requires Inv(fs) && Owned(t) && ino in fs.dins && fs.dins[ino].blocks < MAX_INDEX
    requires Grown(fs, t, DataOf(ino, fs.dins[ino].blocks)) && ino in t.dins
    requires Where(t, DataOf(ino, fs.dins[ino].blocks)) != 0 && Load(t, Where(t, DataOf(ino, fs.dins[ino].blocks))) == v
    ensures var fs' := SetBlocks(t, ino, fs.dins[ino].blocks + 1);
      Inv(fs') && View(fs') == View(fs)[ino := View(fs)[ino].(data := View(fs)[ino].data + [v])]
  {
    hide Where, Load;
    var n := fs.dins[ino].blocks;
    var fs' := SetBlocks(t, ino, n + 1);
    SetBlocksSame(t, ino, n + 1);
    LoadSame(t, fs');
    assert DenseAt(fs, ino);
    DenseOk(fs, fs', ino);
    forall j | j in fs.dins ensures Still(fs, fs', j, fs.dins[j].blocks) { GrownStill(fs, t, ino, j); }
    assert DataKept(fs, fs');
    hide Still;
    StillData(fs, fs', ino, n);
    var f, f' := FileOf(fs, ino), FileOf(fs', ino);
    assert f'.data[n] == v by { assert Where(fs', DataOf(ino, n)) == Where(t, DataOf(ino, n)); }
    assert f'.data == f'.data[..n] + [f'.data[n]] && f.data == f.data[..n];
    ViewOk(fs, fs', ino, f.(data := f.data + [v]));
  }

  // A data block was overwritten.
  lemma WriteOk(fs: Fs, ino: nat, i: nat, v: Block)
    requires Inv(fs) && ino in fs.dins && i < fs.dins[ino].blocks
    ensures var fs' := Written(fs, Where(fs, DataOf(ino, i)), v);
      Inv(fs') && View(fs') == View(fs)[ino := View(fs)[ino].(data := View(fs)[ino].data[i := v])]
  {
    var b := Where(fs, DataOf(ino, i));
    assert DenseAt(fs, ino);
    assert b != 0;
    var fs' := Written(fs, b, v);
    hide Where;
    DataWrite(fs, fs', b, v);
    SameOk(fs, fs');
    DenseOk(fs, fs', ino);
    assert View(fs') == View(fs)[ino := View(fs)[ino].(data := View(fs)[ino].data[i := v])] by {
      forall j | j in fs.dins
        ensures View(fs')[j] == if j == ino then View(fs)[ino].(data := View(fs)[ino].data[i := v]) else View(fs)[j] {
        forall k: nat | k < fs.dins[j].blocks
          ensures FileOf(fs', j).data[k] == if j == ino && k == i then v else FileOf(fs, j).data[k] {
          assert Where(fs', DataOf(j, k)) == Where(fs, DataOf(j, k));
        }
      }
    }
  }

  // The last block was unmapped and `blocks` decremented.
  lemma TruncateOk(fs: Fs, t: Fs, ino: nat)
    requires Inv(fs) && Owned(t) && ino in fs.dins && fs.dins[ino].blocks > 0 && ino in t.dins
    requires SameFiles(fs, t) && DataKept(fs, t) && Moved(fs, t, DataOf(ino, fs.dins[ino].blocks - 1), 0)
    ensures var fs' := SetBlocks(t, ino, fs.dins[ino].blocks - 1); var n := fs.dins[ino].blocks - 1;
      Inv(fs') && View(fs') == View(fs)[ino := View(fs)[ino].(data := View(fs)[ino].data[..n])]
  {
    hide Where, Load, Still, DataKept, DenseAt, Owned;
    var n := fs.dins[ino].blocks - 1;
    var fs' := SetBlocks(t, ino, n);
    SetBlocksSame(t, ino, n);
    LoadSame(t, fs');
    MovedAlong(fs, t, fs', ino, n);
    StillData(fs, fs', ino, n);
    var f, f' := FileOf(fs, ino), FileOf(fs', ino);
    assert f'.data == f'.data[..n];
    ViewOk(fs, fs', ino, f.(data := f.data[..n]));
  }

  lemma MovedAlong(fs: Fs, t: Fs, fs': Fs, ino: nat, n: nat)
    requires Dense(fs) && ino in fs.dins && fs.dins[ino].blocks == n + 1 && SameFiles(fs, t) && DataKept(fs, t)
    requires Moved(fs, t, DataOf(ino, n), 0)
    requires SameOwners(t, fs') && (forall b :: Load(fs', b) == Load(t, b)) && ino in t.dins
    requires fs'.dins == t.dins[ino := t.dins[ino].(blocks := n)]
    ensures Dense(fs') && DataKept(fs, fs')
    ensures forall j :: j in fs.dins ==> Still(fs, fs', j, if j == ino then n else fs.dins[j].blocks)
  {
    hide Where, Load;
    forall p ensures Where(fs', p) == if p == DataOf(ino, n) then 0 else Where(fs, p) { var _ := Where(t, p); }
    assert DenseAt(fs, ino);
    DenseOk(fs, fs', ino);
    forall j | j in fs.dins
      ensures Still(fs, fs', j, if j == ino then n else fs.dins[j].blocks) { assert DenseAt(fs, j); }
  }

  // ------------------------------------------------------ flat bytes

  function Flat(data: seq<Block>, p: nat): byte
    requires p < |data| * BLKSIZE
  {
    data[p / BLKSIZE][p % BLKSIZE]
  }

  // The file's blocks reach its size.
  predicate Backed(f: File) { f.size <= |f.data| * BLKSIZE }

  // The bytes of the file.
  function Content(f: File): (s: seq<byte>)
    requires Backed(f)
    ensures |s| == f.size
  {
    seq(f.size, p requires 0 <= p < f.size => Flat(f.data, p))
  }

  // After writing buf[..n] at `offset`.  New blocks are zero elsewhere.
  ghost predicate Wrote(data0: seq<Block>, data: seq<Block>, offset: nat, buf: seq<byte>, n: nat)
    requires n <= |buf|
  {
    && |data0| <= |data|
    && (if n == 0 then offset / BLKSIZE <= |data| else offset + n <= |data| * BLKSIZE)
    && forall p: nat :: p < |data| * BLKSIZE ==>
      Flat(data, p) == if offset <= p < offset + n then buf[p - offset]
                       else if p < |data0| * BLKSIZE then Flat(data0, p) else 0
  }

  lemma WroteNothing(data: seq<Block>, offset: nat, buf: seq<byte>)
    requires offset / BLKSIZE <= |data|
    ensures Wrote(data, data, offset, buf, 0)
  {
  }

  lemma WroteExtend(data0: seq<Block>, data: seq<Block>, offset: nat, buf: seq<byte>, n: nat)
    requires n <= |buf| && Wrote(data0, data, offset, buf, n)
    ensures Wrote(data0, data + [Zeros()], offset, buf, n)
  {
    var data' := data + [Zeros()];
    forall p: nat | p < |data'| * BLKSIZE
      ensures Flat(data', p) == if offset <= p < offset + n then buf[p - offset]
                                else if p < |data0| * BLKSIZE then Flat(data0, p) else 0
    {
      if p < |data| * BLKSIZE {
        assert Flat(data', p) == Flat(data, p);
      } else {
        assert p / BLKSIZE == |data|;
      }
    }
  }

  // One more piece: buf[n..n + len] into block `i` at `off`.
  lemma WroteMore(data0: seq<Block>, data: seq<Block>, offset: nat, buf: seq<byte>, n: nat, i: nat, off: nat, len: nat)
    requires n + len <= |buf| && Wrote(data0, data, offset, buf, n)
    requires i < |data| && off + len <= BLKSIZE && offset + n == i * BLKSIZE + off
    requires len > 0
    ensures Wrote(data0, data[i := Splice(data[i], off, buf[n..n + len])], offset, buf, n + len)
  {
    var data' := data[i := Splice(data[i], off, buf[n..n + len])];
    assert offset + n + len <= (i + 1) * BLKSIZE <= |data| * BLKSIZE;
    forall p: nat | p < |data'| * BLKSIZE
      ensures Flat(data', p) == if offset <= p < offset + (n + len) then buf[p - offset]
                                else if p < |data0| * BLKSIZE then Flat(data0, p) else 0
    {
      var _ := Flat(data, p);
      if p / BLKSIZE == i {
        assert p == i * BLKSIZE + p % BLKSIZE;
      } else if p / BLKSIZE < i {
        assert p < i * BLKSIZE;
      } else {
        assert p >= (i + 1) * BLKSIZE;
      }
    }
  }

  // In terms of the file's bytes.
  lemma WroteContent(f: File, data: seq<Block>, offset: nat, buf: seq<byte>, n: nat)
    requires n <= |buf| && Backed(f) && offset <= f.size && Wrote(f.data, data, offset, buf, n)
    ensures var f' := File(if f.size < offset + n then offset + n else f.size, data);
      Backed(f') && Content(f') == Content(f)[..offset] + buf[..n] + (if offset + n < f.size then Content(f)[offset + n..] else [])
  {
    var f' := File(if f.size < offset + n then offset + n else f.size, data);
    assert |f.data| * BLKSIZE <= |data| * BLKSIZE;
  }
}
