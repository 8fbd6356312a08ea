/**
  The image builder (mksfs): it hands out blocks in ascending order, appends
  blocks to files through cached index blocks, and writes the free map.  `disk`
  is the image as it is once the cached blocks are flushed.
 */
module ImageBuilder {
  import opened SfsDisk
  import opened SfsMap
  import opened SfsGrow
  import opened SfsFile

  const LN_NBLKS := MAX_FILE_SIZE / BLKSIZE
  const L1 := NDIRECT
  const L2 := NDIRECT + NENTRY

  // The blocks not yet handed out.
  function FreeFrom(next: nat, ninos: nat): (s: set<nat>)
    ensures forall b :: b in s <==> next <= b < ninos
    decreases ninos - next
  {
    if next >= ninos then {} else {next} + FreeFrom(next + 1, ninos)
  }

  lemma {:induction false} FreeCount(next: nat, ninos: nat)
    requires next <= ninos
    ensures |FreeFrom(next, ninos)| == ninos - next
    decreases ninos - next
  {
    if next < ninos { FreeCount(next + 1, ninos); }
  }

  // A file that was only ever appended to has exactly the index blocks it needs.
  ghost predicate Tight(fs: Fs, f: nat)
    requires f in fs.dins
  {
    var n := fs.dins[f].blocks;
    && (Where(fs, IndOf(f)) != 0 <==> n > L1)
    && (Where(fs, DbOf(f)) != 0 <==> n > L2)
    && (forall k: nat {:trigger SecOf(f, k)} :: k < NENTRY ==> (Where(fs, SecOf(f, k)) != 0 <==> n > L2 + NENTRY * k))
  }

  // The cached blocks are the index blocks that the last append went through.
  ghost predicate Cached(fs: Fs, f: nat, l1: nat, l2: nat)
    requires f in fs.dins
  {
    var n := fs.dins[f].blocks;
    && (L1 < n <= L2 ==> l1 == Where(fs, IndOf(f)))
    && (L2 < n ==> l2 == Where(fs, DbOf(f)) && l1 == Where(fs, SecOf(f, (n - 1 - L2) / NENTRY)))
  }

  // Only these owners of file `f` have moved.
  ghost predicate Only(fs: Fs, t: Fs, f: nat, i: nat, k: nat) {
    forall p {:trigger Where(t, p)} :: p !in {DataOf(f, i), IndOf(f), DbOf(f), SecOf(f, k)} ==>
        Where(t, p) == Where(fs, p)
  }

  lemma OnlySame(fs: Fs, t: Fs, f: nat, i: nat, k: nat)
    requires SameOwners(fs, t)
    ensures Only(fs, t, f, i, k)
  {
    hide Where;
  }

  lemma OnlyMore(fs: Fs, g: Fs, t: Fs, f: nat, i: nat, k: nat, o: Owner, b: nat)
    requires Only(fs, g, f, i, k) && Moved(g, t, o, b) && o in {DataOf(f, i), IndOf(f), DbOf(f), SecOf(f, k)}
    ensures Only(fs, t, f, i, k)
  {
    hide Where;
    forall p | p !in {DataOf(f, i), IndOf(f), DbOf(f), SecOf(f, k)}
      ensures Where(t, p) == Where(fs, p) { var _ := Where(g, p); }
  }

  // The second-level block that the index `n` is under.
  function Second(n: nat): nat { if n < L2 then 0 else (n - L2) / NENTRY }

  lemma TightOthers(fs: Fs, t: Fs, f: nat, i: nat, k: nat, g: nat, l1: nat, l2: nat)
    requires Only(fs, t, f, i, k) && g != f && g in fs.dins && g in t.dins && t.dins[g].blocks == fs.dins[g].blocks
    requires Tight(fs, g) && Cached(fs, g, l1, l2)
    ensures Tight(t, g) && Cached(t, g, l1, l2)
  {
    hide Where;
    assert Where(t, IndOf(g)) == Where(fs, IndOf(g)) && Where(t, DbOf(g)) == Where(fs, DbOf(g));
    forall j: nat ensures Where(t, SecOf(g, j)) == Where(fs, SecOf(g, j)) {}
  }

  // The index blocks on the way to index `n`, and no others, were added.
  ghost predicate Path(fs: Fs, t: Fs, f: nat, n: nat, l1: nat, l2: nat) {
    && Only(fs, t, f, n, Second(n))
    && (if L1 <= n < L2 then l1 == Where(t, IndOf(f)) != 0 else Where(t, IndOf(f)) == Where(fs, IndOf(f)))
    && (if L2 <= n then l2 == Where(t, DbOf(f)) != 0 && l1 == Where(t, SecOf(f, Second(n))) != 0
        else Where(t, DbOf(f)) == Where(fs, DbOf(f)) && Where(t, SecOf(f, Second(n))) == Where(fs, SecOf(f, Second(n))))
  }

  lemma TightAfter(fs: Fs, t: Fs, f: nat, l1: nat, l2: nat)
    requires f in fs.dins && f in t.dins && Tight(fs, f) && t.dins[f].blocks == fs.dins[f].blocks + 1
    requires fs.dins[f].blocks < MAX_INDEX
    requires Path(fs, t, f, fs.dins[f].blocks, l1, l2)
    ensures Tight(t, f) && Cached(t, f, l1, l2)
  {
    hide Where;
    var n := fs.dins[f].blocks;
    forall k: nat | k < NENTRY ensures Where(t, SecOf(f, k)) != 0 <==> n + 1 > L2 + NENTRY * k {
      assert Where(fs, SecOf(f, k)) != 0 <==> n > L2 + NENTRY * k;
      if k != Second(n) { assert Where(t, SecOf(f, k)) == Where(fs, SecOf(f, k)); }
    }
  }

  // ------------------------------------------------------------ one append

  // What an append of block `b`, holding `v`, to the file `f` must achieve.
  ghost predicate Appended(fs: Fs, t: Fs, f: nat, b: nat, v: Block)
    requires f in fs.dins
  {
    && Owned(t) && f in t.dins && Grown(fs, t, DataOf(f, fs.dins[f].blocks))
    && Where(t, DataOf(f, fs.dins[f].blocks)) == b && Load(t, b) == v
  }

  lemma AppendDirect(fs: Fs, f: nat, b: nat, v: Block)
    requires Inv(fs) && f in fs.dins && fs.dins[f].blocks < L1 && b in fs.free && Tight(fs, f)
    ensures |fs.dins[f].direct| == NDIRECT
    ensures var n := fs.dins[f].blocks; var t := Taken(SetDirect(Written(fs, b, v), f, n, b), b);
      Appended(fs, t, f, b, v) && Path(fs, t, f, n, 0, 0)
  {
    var n := fs.dins[f].blocks;
    var g := Written(fs, b, v);
    var o := DataOf(f, n);
    EndFree(fs, f);
    WriteFree(fs, b, v, o);
    assert g.dins[f].direct[n] == 0;
    LinkDirect(g, f, n, b);
    var t := Taken(SetDirect(g, f, n, b), b);
    assert Load(t, b) == v;
    hide Where, Load;
    GrownTrans(fs, g, t, o);
    MovedSame(fs, g, t, o, b);
    OnlySame(fs, fs, f, n, 0);
    OnlyMore(fs, fs, t, f, n, 0, o, b);
  }

  // The index behind the last block is free, and a block is behind an index
  // block of the file when there is one.
  lemma EndFree(fs: Fs, f: nat)
    requires Inv(fs) && f in fs.dins && fs.dins[f].blocks < MAX_INDEX
    ensures Where(fs, DataOf(f, fs.dins[f].blocks)) == 0 && |fs.dins[f].direct| == NDIRECT && Owned(fs)
  {
    hide Where;
    assert DenseAt(fs, f);
  }

  lemma IndexesOf(fs: Fs, f: nat, k: nat)
    requires f in fs.dins && Tight(fs, f) && k < NENTRY
    ensures fs.dins[f].blocks <= L1 ==> Where(fs, IndOf(f)) == 0
    ensures fs.dins[f].blocks <= L2 ==> Where(fs, DbOf(f)) == 0
    ensures fs.dins[f].blocks <= L2 + NENTRY * k ==> Where(fs, SecOf(f, k)) == 0
    ensures fs.dins[f].blocks > L1 ==> Where(fs, IndOf(f)) != 0
    ensures fs.dins[f].blocks > L2 ==> Where(fs, DbOf(f)) != 0
    ensures fs.dins[f].blocks > L2 + NENTRY * k ==> Where(fs, SecOf(f, k)) != 0
  {
    hide Where;
    var _ := SecOf(f, k);
  }

  // An index block more: the file's data is as before.
  ghost predicate Ready(fs: Fs, g: Fs, f: nat, b: nat, v: Block)
    requires f in fs.dins
  {
    && Owned(g) && f in g.dins && Grown(fs, g, DbOf(f)) && b in g.free && Load(g, b) == v
    && Where(g, DataOf(f, fs.dins[f].blocks)) == 0
  }

  lemma ReadyStart(fs: Fs, f: nat, b: nat, v: Block)
    requires Inv(fs) && f in fs.dins && fs.dins[f].blocks < MAX_INDEX && b in fs.free
    ensures Ready(fs, Written(fs, b, v), f, b, v) && SameOwners(fs, Written(fs, b, v))
  {
    EndFree(fs, f);
    WriteFree(fs, b, v, DbOf(f));
    hide Where;
  }

  // A new indirect block.
  lemma ReadyIndirect(fs: Fs, g: Fs, f: nat, b: nat, v: Block, e: nat)
    requires f in fs.dins && Ready(fs, g, f, b, v) && e in g.free && e != b && g.dins[f].indirect == 0
    ensures var t := Taken(SetIndirect(Zeroed(g, e), f, e), e);
      Ready(fs, t, f, b, v) && Moved(g, t, IndOf(f), e) && t.disk[e] == Zeros()
  {
    var z := Zeroed(g, e);
    ZeroFree(g, e, DbOf(f));
    assert Load(z, b) == v;
    LinkIndirect(z, f, e, DbOf(f));
    var t := Taken(SetIndirect(z, f, e), e);
    assert Load(t, b) == v;
    hide Where, Load;
    GrownTrans(fs, g, z, DbOf(f));
    GrownTrans(fs, z, t, DbOf(f));
    MovedSame(g, z, t, IndOf(f), e);
  }

  lemma MovedSame(g: Fs, z: Fs, t: Fs, o: Owner, e: nat)
    requires SameOwners(g, z) && Moved(z, t, o, e)
    ensures Moved(g, t, o, e)
  {
    hide Where;
    forall p ensures Where(t, p) == if p == o then e else Where(g, p) { var _ := Where(z, p); }
  }

  // A new double-indirect block.
  lemma ReadyDb(fs: Fs, g: Fs, f: nat, b: nat, v: Block, e: nat)
    requires f in fs.dins && Ready(fs, g, f, b, v) && e in g.free && e != b && g.dins[f].db == 0
    ensures var t := Taken(SetDb(Zeroed(g, e), f, e), e);
      Ready(fs, t, f, b, v) && Moved(g, t, DbOf(f), e) && t.disk[e] == Zeros()
  {
    var z := Zeroed(g, e);
    ZeroFree(g, e, DbOf(f));
    assert Load(z, b) == v;
    LinkDb(z, f, e, DbOf(f));
    var t := Taken(SetDb(z, f, e), e);
    assert Load(t, b) == v;
    hide Where, Load;
    GrownTrans(fs, g, z, DbOf(f));
    GrownTrans(fs, z, t, DbOf(f));
    MovedSame(g, z, t, DbOf(f), e);
  }

  // A new second-level block.
  lemma ReadySecond(fs: Fs, g: Fs, f: nat, b: nat, v: Block, k: nat, e: nat)
    requires f in fs.dins && Ready(fs, g, f, b, v) && e in g.free && e != b && k < NENTRY && g.dins[f].db != 0
    requires At(g.disk, g.dins[f].db, k) == 0
    ensures g.dins[f].db in g.disk
    ensures var t := Taken(SetAt(Zeroed(g, e), g.dins[f].db, k, e), e);
      Ready(fs, t, f, b, v) && Moved(g, t, SecOf(f, k), e) && t.disk[e] == Zeros()
  {
    var z := Zeroed(g, e);
    ZeroFree(g, e, DbOf(f));
    assert Where(g, DbOf(f)) == g.dins[f].db != e;
    assert At(z.disk, g.dins[f].db, k) == 0;
    assert Load(z, b) == v && Where(g, DbOf(f)) != b;
    LinkSecond(z, f, k, e, DbOf(f));
    var t := Taken(SetAt(z, g.dins[f].db, k, e), e);
    assert Load(t, b) == v;
    hide Where, Load, SetEntry;
    GrownTrans(fs, g, z, DbOf(f));
    GrownTrans(fs, z, t, DbOf(f));
    MovedSame(g, z, t, SecOf(f, k), e);
  }

  lemma GrownFor(fs: Fs, t: Fs, f: nat, o: Owner)
    requires Grown(fs, t, DbOf(f))
    ensures Grown(fs, t, o)
  {
    hide Where, Load;
  }

  // The entry for the data block, in the indirect block.
  lemma EntryIndirect(fs: Fs, g: Fs, f: nat, b: nat, v: Block, k: nat)
    requires f in fs.dins && Ready(fs, g, f, b, v) && g.dins[f].indirect != 0 && k < NENTRY
    requires fs.dins[f].blocks == L1 + k
    ensures g.dins[f].indirect in g.disk
    ensures var t := Taken(SetAt(g, g.dins[f].indirect, k, b), b);
      Appended(fs, t, f, b, v) && Moved(g, t, DataOf(f, L1 + k), b)
  {
    var o := DataOf(f, L1 + k);
    assert Where(g, o) == At(g.disk, g.dins[f].indirect, k) && Where(g, IndOf(f)) == g.dins[f].indirect != b;
    LinkIndirectEntry(g, f, k, b);
    var t := Taken(SetAt(g, g.dins[f].indirect, k, b), b);
    assert Load(t, b) == v;
    hide Where, Load, SetEntry, At;
    GrownFor(fs, g, f, o);
    GrownTrans(fs, g, t, o);
  }

  // And in a second-level block.
  lemma EntrySecond(fs: Fs, g: Fs, f: nat, b: nat, v: Block, k: nat, j: nat)
    requires f in fs.dins && Ready(fs, g, f, b, v) && k < NENTRY && j < NENTRY && At(g.disk, g.dins[f].db, k) != 0
    requires fs.dins[f].blocks == L2 + NENTRY * k + j
    ensures At(g.disk, g.dins[f].db, k) in g.disk
    ensures var t := Taken(SetAt(g, At(g.disk, g.dins[f].db, k), j, b), b);
      Appended(fs, t, f, b, v) && Moved(g, t, DataOf(f, L2 + NENTRY * k + j), b)
  {
    var o := DataOf(f, L2 + NENTRY * k + j);
    var s := At(g.disk, g.dins[f].db, k);
    assert (NENTRY * k + j) / NENTRY == k && (NENTRY * k + j) % NENTRY == j;
    assert Where(g, o) == At(g.disk, s, j) && Where(g, SecOf(f, k)) == s != b;
    LinkSecondEntry(g, f, k, j, b);
    var t := Taken(SetAt(g, s, j, b), b);
    assert Load(t, b) == v;
    hide Where, Load, SetEntry, At;
    GrownFor(fs, g, f, o);
    GrownTrans(fs, g, t, o);
  }

  // ------------------------------------------------------------ the way to an index

  // Owners that an append at index `n` may move.
  predicate OnTheWay(o: Owner, f: nat, n: nat) {
    o == DataOf(f, n) || (if n < L2 then o == IndOf(f) && n >= L1 else o == DbOf(f) || o == SecOf(f, Second(n)))
  }

  ghost predicate Way(fs: Fs, g: Fs, f: nat, n: nat) {
    forall p {:trigger Where(g, p)} :: !OnTheWay(p, f, n) ==> Where(g, p) == Where(fs, p)
  }

  lemma WayStart(fs: Fs, g: Fs, f: nat, n: nat)
    requires SameOwners(fs, g)
    ensures Way(fs, g, f, n)
  {
    hide Where;
  }

  lemma WayMore(fs: Fs, g: Fs, t: Fs, f: nat, n: nat, o: Owner, b: nat)
    requires Way(fs, g, f, n) && Moved(g, t, o, b) && OnTheWay(o, f, n)
    ensures Way(fs, t, f, n)
  {
    hide Where;
    forall p | !OnTheWay(p, f, n) ensures Where(t, p) == Where(fs, p) { var _ := Where(g, p); }
  }

  lemma WayEnds(fs: Fs, t: Fs, f: nat, n: nat, a: nat, c: nat)
    requires Way(fs, t, f, n)
    requires L1 <= n < L2 ==> a == Where(t, IndOf(f)) != 0
    requires L2 <= n ==> c == Where(t, DbOf(f)) != 0 && a == Where(t, SecOf(f, Second(n))) != 0
    ensures Path(fs, t, f, n, a, c)
  {
    hide Where;
  }

  // The index block in hand is the one that the next append needs.
  lemma HaveIndirect(fs: Fs, f: nat, k: nat, l1: nat, l2: nat)
    requires f in fs.dins && Tight(fs, f) && Cached(fs, f, l1, l2) && fs.dins[f].blocks == L1 + k && k < NENTRY
    ensures fs.dins[f].indirect != 0 ==> l1 == fs.dins[f].indirect
  {
    assert Where(fs, IndOf(f)) == fs.dins[f].indirect;
  }

  lemma HaveDouble(fs: Fs, f: nat, k: nat, j: nat, l1: nat, l2: nat)
    requires f in fs.dins && Tight(fs, f) && Cached(fs, f, l1, l2) && fs.dins[f].blocks == L2 + NENTRY * k + j
    requires k < NENTRY && j < NENTRY
    ensures Where(fs, DbOf(f)) != 0 ==> l2 == Where(fs, DbOf(f))
    ensures Where(fs, SecOf(f, k)) != 0 ==> l1 == Where(fs, SecOf(f, k))
    ensures Where(fs, SecOf(f, k)) != 0 ==> Where(fs, DbOf(f)) != 0
  {
    hide Where;
    IndexesOf(fs, f, k);
    if j > 0 { assert (NENTRY * k + j - 1) / NENTRY == k; }
  }

  lemma Under(i: nat)
    requires i < NENTRY * NENTRY
    ensures i / NENTRY < NENTRY && i % NENTRY < NENTRY && i == NENTRY * (i / NENTRY) + i % NENTRY
    ensures Second(L2 + i) == i / NENTRY
  {
  }

  // The end of an append: the image is again one the kernel can start from.
  lemma AppendEnds(fs: Fs, t: Fs, f: nat, b: nat, v: Block, a: nat, c: nat)
    requires Inv(fs) && f in fs.dins && fs.dins[f].blocks < LN_NBLKS && Appended(fs, t, f, b, v) && Tight(fs, f)
    requires Path(fs, t, f, fs.dins[f].blocks, a, c) && f in t.dins && b != 0
    ensures var n := fs.dins[f].blocks; var fs' := SetBlocks(t, f, n + 1);
      && Inv(fs') && View(fs') == View(fs)[f := View(fs)[f].(data := View(fs)[f].data + [v])]
      && t.dins[f].blocks == n && Where(fs', DataOf(f, n)) == b && Tight(fs', f) && Cached(fs', f, a, c)
      && Path(fs, fs', f, n, a, c)
  {
    hide Where, Load, View, Grown, Inv, Owned, Tight, Cached, Path, SameOwners;
    var n := fs.dins[f].blocks;
    var fs' := SetBlocks(t, f, n + 1);
    SetBlocksSame(t, f, n + 1);
    OwnerSame(t, fs', DataOf(f, n));
    ExtendOk(fs, t, f, v);
    PathSame(fs, t, fs', f, n, a, c);
    SizeKept(fs, t, f);
    TightAfter(fs, fs', f, a, c);
  }

  lemma OwnerSame(t: Fs, fs': Fs, o: Owner)
    requires SameOwners(t, fs')
    ensures Where(fs', o) == Where(t, o)
  {
    hide Where;
  }

  lemma SizeKept(fs: Fs, t: Fs, f: nat)
    requires f in fs.dins && Grown(fs, t, DataOf(f, fs.dins[f].blocks))
    ensures t.dins.Keys == fs.dins.Keys && forall g :: g in fs.dins ==> t.dins[g].blocks == fs.dins[g].blocks
  {
    hide Where, Load;
  }

  lemma PathSame(fs: Fs, t: Fs, fs': Fs, f: nat, n: nat, a: nat, c: nat)
    requires Path(fs, t, f, n, a, c) && SameOwners(t, fs')
    ensures Path(fs, fs', f, n, a, c)
  {
    hide Where;
    forall p ensures Where(fs', p) == Where(t, p) {}
  }

  // Every block mapped before is mapped as before.
  lemma MapKept(fs: Fs, t: Fs, f: nat, g: nat, i: nat)
    requires Inv(fs) && f in fs.dins && g in fs.dins && i < fs.dins[g].blocks
    requires Grown(fs, t, DataOf(f, fs.dins[f].blocks)) && f in t.dins
    ensures var fs' := SetBlocks(t, f, fs.dins[f].blocks + 1); Where(fs', DataOf(g, i)) == Where(fs, DataOf(g, i))
  {
    assert DenseAt(fs, g);
    SetBlocksSame(t, f, fs.dins[f].blocks + 1) by { hide Where, Load; }
    hide Where, Load;
    assert Where(fs, DataOf(g, i)) != 0;
    var _ := Where(t, DataOf(g, i));
  }

  // ------------------------------------------------------------ the builder

  // hash32: the upper ten bits of the product.
  function Hash32(val: nat): nat { val * 0x9e370001 % 0x1_0000_0000 / 0x40_0000 }

  // The first block of a small image, number 3, is not where it is looked for.
  lemma Misfiled()
    ensures Hash32(0) == 0 && Hash32(3) == 874
  {
  }

  class Builder {
    const ninos: nat
    const firstFree: nat
    var next: nat                  // next_ino
    var unused: nat                // super.unused_blocks
    var disk: map<nat, Block>
    var dins: map<nat, Din>
    var l1: map<nat, nat>          // the cached index blocks of each inode,
    var l2: map<nat, nat>          // 0 for none
    var filed: seq<nat>            // the hash list number Hash32(0), which holds every cached block

    ghost function FS(): Fs reads this { Fs(ninos, firstFree, disk, FreeFrom(next, ninos), dins) }

    ghost predicate Files()
      reads this
    {
      forall f :: f in dins ==> f in l1 && f in l2 && Tight(FS(), f) && Cached(FS(), f, l1[f], l2[f])
    }

    // The image is one that the kernel's operations start from.
    ghost predicate Valid()
      reads this
    {
      Inv(FS()) && unused + next == ninos && Files()
    }

    // create_sfs on an image of `ninos` blocks: the root inode and nothing else.
    constructor (ninos: nat, image: map<nat, Block>)
      requires FirstBlock(ninos) < ninos <= 0x1_0000_0000 && forall b :: b in image <==> b < ninos
      ensures Valid() && dins.Keys == {ROOT} && View(FS()) == map[ROOT := File(0, [])] && this.ninos == ninos
    {
      this.ninos := ninos;
      firstFree, next := FirstBlock(ninos), FirstBlock(ninos);
      unused := ninos - FirstBlock(ninos);
      disk, dins, l1, l2, filed := image, map[ROOT := NewDin()], map[ROOT := 0], map[ROOT := 0], [];
      StartOk(ninos, image);
    }

    // alloc_cache_inode.
    method NewInode() returns (ok: bool, ino: nat)
      requires Valid()
      modifies this
      ensures ok <==> old(next) < ninos
      ensures ok ==>
        Valid() && ino == old(next) && ino !in old(dins) && View(FS()) == old(View(FS()))[ino := File(0, [])]
    {
      hide Inv, View, Where, Tight, Cached, Files, AllFiles;
      ghost var fs := FS();
      FilesAll();
      ok, ino := AllocIno();
      if !ok { return; }
      NewOk(fs, ino, l1, l2);
      dins := dins[ino := NewDin()];
      l1, l2 := l1[ino := 0], l2[ino := 0];
      assert FreeFrom(next, ninos) == fs.free - {ino};
      assert FS() == Taken(fs.(dins := fs.dins[ino := NewDin()]), ino);
      FilesFrom();
    }

    // A whole file, block by block.
    method AppendAll(f: nat, data: seq<Block>) returns (ok: bool, inos: seq<nat>)
      requires Valid() && f in dins
      modifies this
      ensures ok ==> Valid() && f in dins && |inos| == |data|
      ensures ok ==> View(FS()) == old(View(FS()))[f := old(View(FS()))[f].(data := old(View(FS()))[f].data + data)]
      ensures ok ==> forall i :: 0 <= i < |data| ==> Bmap(disk, dins[f], old(dins[f].blocks) + i) == inos[i]
      ensures ok ==> forall i :: 0 <= i < |data| ==> old(next) <= inos[i] < next
      ensures !ok ==> old(dins[f].blocks) + |data| > LN_NBLKS || unused == 0
    {
      hide Inv, View, Tight, Cached, Files, MapsAsBefore, Where, Bmap, Laid;
      inos, ok := [], true;
      ghost var v0 := View(FS());
      ViewBlocks(FS(), f);
      ghost var n0 := dins[f].blocks;
      ViewNone(v0, f, data);
      assert Laid(FS(), f, n0, []) by { LaidNone(FS(), f, n0); }
      var i: nat := 0;
      while i < |data|
        invariant i <= |data| && Valid() && f in dins && |inos| == i && dins[f].blocks == n0 + i && old(next) <= next
        invariant View(FS()) == Longer(v0, f, data, i)
        invariant Laid(FS(), f, n0, inos) && forall j :: 0 <= j < i ==> old(next) <= inos[j] < next
      {
        var b := next;
        ghost var fs := FS();
        ok := AppendData(f, data[i]);
        if !ok { return; }
        ViewBlocks(FS(), f);
        ViewMore(v0, f, data, i);
        LaidMore(fs, FS(), f, n0, inos, b);
        inos := inos + [b];
        i := i + 1;
      }
      assert data[..i] == data;
      LaidMap(FS(), f, n0, inos);
    }

    // sfs_alloc_ino; the program stops when the disk is full.
    method AllocIno() returns (ok: bool, b: nat)
      requires unused + next == ninos
      modifies this`next, this`unused
      ensures unused + next == ninos && (ok <==> old(next) < ninos)
      ensures if ok then b == old(next) && next == b + 1 else next == old(next)
    {
      if next < ninos {
        unused := unused - 1;
        next := next + 1;
        return true, next - 1;
      }
      ok, b := false, 0;
    }

    // update_cache.  A new block is filed under number 0, not under its own, so
    // a block that is not in hand is found exactly if its number hashes like 0.
    method UpdateCache(cb: nat, ino: nat) returns (ok: bool, e: nat)
      requires unused + next == ninos
      modifies this`next, this`unused, this`disk, this`filed
      ensures unused + next == ninos && next >= old(next)
      ensures ok <==>
        if ino == 0 then old(next) < ninos else cb == ino || (Hash32(ino) == Hash32(0) && ino in old(filed))
      ensures !ok && ino == 0 ==> unused == 0
      ensures ino != 0 ==> e == ino && next == old(next) && disk == old(disk) && filed == old(filed)
      ensures ok && ino == 0 ==>
        e == old(next) && next == e + 1 && disk == old(disk)[e := Zeros()] && filed == [e] + old(filed)
    {
      if ino == 0 {
        ok, e := AllocIno();
        if ok {
          disk := disk[e := Zeros()];
          filed := [e] + filed;
        }
      } else {
        ok, e := true, ino;
        if cb != ino { ok := SearchCache(ino); }
      }
    }

    // search_cache_block.
    method SearchCache(ino: nat) returns (found: bool)
      ensures found <==> Hash32(ino) == Hash32(0) && ino in filed
    {
      var list := if Hash32(ino) == Hash32(0) then filed else [];
      var i := 0;
      while i < |list| && list[i] != ino
        invariant i <= |list| && ino !in list[..i]
      {
        i := i + 1;
      }
      found := i < |list|;
    }

    // The state with the block `b` not yet taken.
    ghost function Without(b: nat): Fs
      reads this
    {
      Fs(ninos, firstFree, disk, FreeFrom(next, ninos) + {b}, dins)
    }

    // open_file and add_entry for one block: allocate it, write it, append it.
    method AppendData(f: nat, v: Block) returns (ok: bool)
      requires Valid() && f in dins
      modifies this
      ensures ok ==> Valid() && f in dins && dins.Keys == old(dins.Keys) && next > old(next)
      ensures ok ==> View(FS()) == old(View(FS()))[f := old(View(FS()))[f].(data := old(View(FS()))[f].data + [v])]
      ensures ok ==> Where(FS(), DataOf(f, old(dins[f].blocks))) == old(next)
      ensures ok ==> MapsAsBefore(old(FS()), FS())
      ensures !ok ==> old(dins[f].blocks) >= LN_NBLKS || unused == 0
    {
      hide Inv, Files, View, Load, Tight, Cached, Appended, Path, Where, MapsAsBefore;
      ghost var fs := FS();
      ghost var l1', l2' := l1, l2;
      FilesAt(f);
      InvFacts(fs);
      var b;
      ok, b := AllocIno();
      if !ok || dins[f].blocks >= LN_NBLKS { return false; }
      disk := disk[b := v];
      var a, c;
      ok, a, c := AppendBlock(f, b, v, fs);
      if !ok { return; }
      ghost var t := FS();
      AppendEnds(fs, t, f, b, v, a, c);
      AppendFiles(fs, t, f, b, v, a, c, l1', l2');
      dins := dins[f := dins[f].(blocks := dins[f].blocks + 1)];
      l1, l2 := l1[f := a], l2[f := c];
      assert FS() == SetBlocks(t, f, fs.dins[f].blocks + 1);
      FilesFrom();
    }

    // The facts that hold of each inode.
    lemma FilesAt(f: nat)
      requires Files() && f in dins
      ensures f in l1 && f in l2 && Tight(FS(), f) && Cached(FS(), f, l1[f], l2[f])
      ensures AllFiles(FS(), l1, l2)
    {
    }

    lemma FilesAll()
      requires Files()
      ensures AllFiles(FS(), l1, l2)
    {
    }

    lemma FilesFrom()
      requires AllFiles(FS(), l1, l2)
      ensures Files()
    {
    }

    // __append_block for a block `b` already taken and written; the new cached
    // index blocks are returned.  `fs` is the state before `b` was taken.
    method AppendBlock(f: nat, b: nat, v: Block, ghost fs: Fs) returns (ok: bool, a: nat, c: nat)
      requires Inv(fs) && f in fs.dins && f in l1 && f in l2 && Tight(fs, f) && Cached(fs, f, l1[f], l2[f])
      requires unused + next == ninos && b in fs.free && b < next && Without(b) == Written(fs, b, v)
      requires fs.dins[f].blocks < LN_NBLKS
      modifies this`next, this`unused, this`disk, this`dins, this`filed
      ensures unused + next == ninos && next >= old(next) && (!ok ==> unused == 0)
      ensures (ok ==> Appended(fs, FS(), f, b, v) && Path(fs, FS(), f, fs.dins[f].blocks, a, c) && f in dins)
    {
      hide Inv, Where, Load, Tight, Cached, Appended, Path, Way;
      var nblks := dins[f].blocks;
      a, c := l1[f], l2[f];
      if nblks < L1 {
        AppendDirect(fs, f, b, v);
        dins := dins[f := dins[f].(direct := dins[f].direct[nblks := b])];
        assert FS() == Taken(SetDirect(Written(fs, b, v), f, nblks, b), b);
        DirectPath(fs, FS(), f, nblks, a, c);
        ok := true;
      } else if nblks < L2 {
        ok, a := AppendIndirect(f, nblks - L1, b, v, fs);
      } else {
        ok, a, c := AppendDouble(f, nblks - L2, b, v, fs);
      }
    }

    method AppendIndirect(f: nat, k: nat, b: nat, v: Block, ghost fs: Fs) returns (ok: bool, a: nat)
      requires Inv(fs) && f in fs.dins && f in l1 && f in l2 && Tight(fs, f) && Cached(fs, f, l1[f], l2[f])
      requires unused + next == ninos && b in fs.free && b < next && Without(b) == Written(fs, b, v)
      requires fs.dins[f].blocks == L1 + k && k < NENTRY
      modifies this`next, this`unused, this`disk, this`dins, this`filed
      ensures unused + next == ninos && next >= old(next) && (!ok ==> unused == 0)
      ensures (ok ==> f in dins && Appended(fs, FS(), f, b, v) && Path(fs, FS(), f, L1 + k, a, l2[f]))
    {
      hide Inv, Where, Load, Tight, Cached, Appended, Path, Ready, SetEntry, Moved, Way;
      ghost var g := Written(fs, b, v);
      ReadyStart(fs, f, b, v);
      WayStart(fs, g, f, L1 + k);
      HaveIndirect(fs, f, k, l1[f], l2[f]);
      ReadyIn(fs, g, f, b, v);
      ok, a := UpdateCache(l1[f], dins[f].indirect);
      if !ok { return; }
      if dins[f].indirect == 0 {
        ReadyIndirect(fs, g, f, b, v, a);
        WayMore(fs, g, Taken(SetIndirect(Zeroed(g, a), f, a), a), f, L1 + k, IndOf(f), a);
        g := Taken(SetIndirect(Zeroed(g, a), f, a), a);
        dins := dins[f := dins[f].(indirect := a)];
        assert FreeFrom(next, ninos) + {b} == g.free;
        assert g == Without(b);
      }
      EntryIndirect(fs, g, f, b, v, k);
      ghost var t := Taken(SetAt(g, a, k, b), b);
      WayMore(fs, g, t, f, L1 + k, DataOf(f, L1 + k), b);
      disk := disk[a := SetEntry(disk[a], k, b)];
      assert FreeFrom(next, ninos) == t.free;
      assert FS() == t;
      IndirectWhere(t, f);
      WayEnds(fs, t, f, L1 + k, a, l2[f]);
    }

    method AppendDouble(f: nat, i: nat, b: nat, v: Block, ghost fs: Fs) returns (ok: bool, a: nat, c: nat)
      requires Inv(fs) && f in fs.dins && f in l1 && f in l2 && Tight(fs, f) && Cached(fs, f, l1[f], l2[f])
      requires unused + next == ninos && b in fs.free && b < next && Without(b) == Written(fs, b, v)
      requires fs.dins[f].blocks == L2 + i && i < NENTRY * NENTRY
      modifies this`next, this`unused, this`disk, this`dins, this`filed
      ensures unused + next == ninos && next >= old(next) && (!ok ==> unused == 0)
      ensures (ok ==> f in dins && Appended(fs, FS(), f, b, v) && Path(fs, FS(), f, L2 + i, a, c))
    {
      hide Inv, Where, Load, Tight, Cached, Appended, Path, Ready, SetEntry, Entry, Moved, Way, At;
      Under(i);
      var k, j := i / NENTRY, i % NENTRY;
      ghost var n := L2 + i;
      HaveDouble(fs, f, k, j, l1[f], l2[f]);
      ghost var g;
      ok, c, g := NeedDb(f, n, b, v, fs);
      if !ok { a := 0; return; }
      ok, a, g := NeedSecond(f, n, k, c, b, v, fs, g);
      if !ok { return; }
      ReadyIn(fs, g, f, b, v);
      EntrySecond(fs, g, f, b, v, k, j);
      ghost var t := Taken(SetAt(g, a, j, b), b);
      WayMore(fs, g, t, f, n, DataOf(f, n), b);
      SecondKept(g, t, f, k, n, b);
      disk := disk[a := SetEntry(disk[a], j, b)];
      assert FreeFrom(next, ninos) == t.free;
      assert FS() == t;
      WayEnds(fs, t, f, n, a, c);
    }

    // The double-indirect block.
    method NeedDb(f: nat, ghost n: nat, b: nat, v: Block, ghost fs: Fs) returns (ok: bool, c: nat, ghost g: Fs)
      requires Inv(fs) && f in fs.dins && f in l2 && (Where(fs, DbOf(f)) != 0 ==> l2[f] == Where(fs, DbOf(f)))
      requires unused + next == ninos && b in fs.free && b < next && Without(b) == Written(fs, b, v)
      requires fs.dins[f].blocks == n && L2 <= n < MAX_INDEX
      modifies this`next, this`unused, this`disk, this`dins, this`filed
      ensures unused + next == ninos && next >= old(next) && (!ok ==> unused == 0)
      ensures ok ==>
        b < next && g == Without(b) && Ready(fs, g, f, b, v) && Way(fs, g, f, n) && f in dins && dins[f].db == c != 0
      ensures ok ==> Where(g, SecOf(f, Second(n))) == Where(fs, SecOf(f, Second(n)))
    {
      hide Inv, Load, Ready, SetEntry, Moved, Way, At, Where;
      g := Written(fs, b, v);
      ReadyStart(fs, f, b, v);
      WayStart(fs, g, f, n);
      ReadyIn(fs, g, f, b, v);
      DbWhere(fs, f);
      OwnerSame(fs, g, SecOf(f, Second(n)));
      ok, c := UpdateCache(l2[f], dins[f].db);
      if !ok { return; }
      if dins[f].db == 0 {
        ghost var t := Taken(SetDb(Zeroed(g, c), f, c), c);
        ReadyDb(fs, g, f, b, v, c);
        WayMore(fs, g, t, f, n, DbOf(f), c);
        MovedAt(g, t, DbOf(f), c, SecOf(f, Second(n)));
        g := t;
        dins := dins[f := dins[f].(db := c)];
        assert FreeFrom(next, ninos) + {b} == g.free;
        assert g == Without(b);
      }
    }

    // The second-level block.
    method NeedSecond(f: nat, ghost n: nat, k: nat, c: nat, b: nat, v: Block, ghost fs: Fs, ghost g0: Fs)
      returns (ok: bool, a: nat, ghost g: Fs)
      requires f in fs.dins && f in l1 && k < NENTRY && Second(n) == k && L2 <= n && b < next && unused + next == ninos
      requires g0 == Without(b) && Ready(fs, g0, f, b, v) && Way(fs, g0, f, n) && f in dins && dins[f].db == c != 0
      requires Where(g0, SecOf(f, k)) != 0 ==> l1[f] == Where(g0, SecOf(f, k))
      modifies this`next, this`unused, this`disk, this`filed
      ensures unused + next == ninos && next >= old(next) && (!ok ==> unused == 0)
      ensures ok ==>
        b < next && g == Without(b) && Ready(fs, g, f, b, v) && Way(fs, g, f, n) && At(disk, c, k) == a != 0
    {
      hide Load, Ready, SetEntry, Entry, Moved, Way, Where;
      g := g0;
      ReadyIn(fs, g, f, b, v);
      SecondWhere(g, f, k);
      InDisk(fs, g, f, b, v);
      var s := Entry(disk[c], k);
      ok, a := UpdateCache(l1[f], s);
      if !ok { return; }
      if s == 0 {
        ghost var t := Taken(SetAt(Zeroed(g, a), c, k, a), a);
        ReadySecond(fs, g, f, b, v, k, a);
        WayMore(fs, g, t, f, n, SecOf(f, k), a);
        MovedAt(g, t, SecOf(f, k), a, SecOf(f, k));
        g := t;
        disk := disk[c := SetEntry(disk[c], k, a)];
        assert FreeFrom(next, ninos) + {b} == g.free;
        assert g == Without(b);
        SecondWhere(g, f, k);
      }
    }
  }

  // ------------------------------------------------------------ starting

  // The first block behind the free map.
  function FirstBlock(ninos: nat): nat { 2 + (ninos + BLKBITS - 1) / BLKBITS }

  lemma StartOk(ninos: nat, image: map<nat, Block>)
    requires FirstBlock(ninos) < ninos <= 0x1_0000_0000 && forall b :: b in image <==> b < ninos
    ensures var n := FirstBlock(ninos); var fs := Fs(ninos, n, image, FreeFrom(n, ninos), map[ROOT := NewDin()]);
      Inv(fs) && View(fs) == map[ROOT := File(0, [])] && Tight(fs, ROOT) && Cached(fs, ROOT, 0, 0)
  {
    var n := FirstBlock(ninos);
    var fs := Fs(ninos, n, image, FreeFrom(n, ninos), map[ROOT := NewDin()]);
    forall o ensures Where(fs, o) == match o case Reserved(b) => (if 2 <= b < n then b else 0) case InodeOf(ino) => (if ino == ROOT then ROOT else 0) case _ => 0 {}
    hide Where;
    forall b | 0 < b < ninos && b !in fs.free ensures HasOwner(fs, b) {
      assert Where(fs, if b == ROOT then InodeOf(ROOT) else Reserved(b)) == b;
    }
    assert DenseAt(fs, ROOT);
    assert FileOf(fs, ROOT).data == [];
  }

  // A new inode owns its block, and no other owner moves.
  ghost predicate NewOwners(fs: Fs, t: Fs, ino: nat) {
    forall p: Owner {:trigger Where(t, p)} :: Where(t, p) ==
      if p == InodeOf(ino) then ino else if !p.Reserved? && p.ino == ino then 0 else Where(fs, p)
  }

  lemma NewOk(fs: Fs, ino: nat, l1: map<nat, nat>, l2: map<nat, nat>)
    requires Inv(fs) && ino in fs.free && AllFiles(fs, l1, l2)
    ensures ino !in fs.dins
    ensures var t := Taken(fs.(dins := fs.dins[ino := NewDin()]), ino);
      Inv(t) && View(t) == View(fs)[ino := File(0, [])] && AllFiles(t, l1[ino := 0], l2[ino := 0])
  {
    hide Where, Load, View, Tight, Cached, Dense;
    AddInode(fs, ino);
    var t := Taken(fs.(dins := fs.dins[ino := NewDin()]), ino);
    assert NewOwners(fs, t, ino) by { NewWhere(fs, ino); }
    hide NewOwners, Owned;
    NewView(fs, t, ino);
    forall j | j in t.dins ensures Tight(t, j) && Cached(t, j, l1[ino := 0][j], l2[ino := 0][j]) {
      NewTight(fs, t, ino, j, l1[ino := 0][j], l2[ino := 0][j]);
    }
  }

  lemma NewWhere(fs: Fs, ino: nat)
    requires ino !in fs.dins
    ensures NewOwners(fs, Taken(fs.(dins := fs.dins[ino := NewDin()]), ino), ino)
  {
  }

  lemma NewView(fs: Fs, t: Fs, ino: nat)
    requires Dense(fs) && NewOwners(fs, t, ino) && t.disk == fs.disk && t.dins == fs.dins[ino := NewDin()]
    requires ino !in fs.dins
    ensures Dense(t) && View(t) == View(fs)[ino := File(0, [])]
  {
    hide Where;
    forall j | j in t.dins ensures DenseAt(t, j) { if j != ino { assert DenseAt(fs, j); } }
    forall j | j in fs.dins ensures FileOf(t, j) == FileOf(fs, j) {
      forall i: nat | i < fs.dins[j].blocks ensures FileOf(t, j).data[i] == FileOf(fs, j).data[i] {
        assert Where(t, DataOf(j, i)) == Where(fs, DataOf(j, i));
      }
    }
    assert FileOf(t, ino).data == [];
  }

  lemma NewTight(fs: Fs, t: Fs, ino: nat, j: nat, l1: nat, l2: nat)
    requires NewOwners(fs, t, ino) && t.dins == fs.dins[ino := NewDin()] && j in t.dins
    requires j != ino ==> Tight(fs, j) && Cached(fs, j, l1, l2)
    ensures Tight(t, j) && Cached(t, j, l1, l2)
  {
    hide Where;
    assert Where(t, IndOf(j)) == if j == ino then 0 else Where(fs, IndOf(j));
    assert Where(t, DbOf(j)) == if j == ino then 0 else Where(fs, DbOf(j));
    forall k: nat ensures Where(t, SecOf(j, k)) == if j == ino then 0 else Where(fs, SecOf(j, k)) {}
  }

  function Longer(v: map<nat, File>, f: nat, data: seq<Block>, i: nat): map<nat, File>
    requires f in v && i <= |data|
  {
    v[f := v[f].(data := v[f].data + data[..i])]
  }

  lemma ViewNone(v: map<nat, File>, f: nat, data: seq<Block>)
    requires f in v
    ensures Longer(v, f, data, 0) == v
  {
    assert v[f].data + data[..0] == v[f].data;
  }

  lemma ViewMore(v: map<nat, File>, f: nat, data: seq<Block>, i: nat)
    requires f in v && i < |data|
    ensures var w := Longer(v, f, data, i); w[f := w[f].(data := w[f].data + [data[i]])] == Longer(v, f, data, i + 1)
    ensures |Longer(v, f, data, i + 1)[f].data| == |v[f].data| + i + 1
  {
    assert v[f].data + data[..i] + [data[i]] == v[f].data + data[..i + 1];
  }

  // The blocks of the file from index `n` on.
  ghost predicate Laid(fs: Fs, f: nat, n: nat, inos: seq<nat>) {
    forall j :: 0 <= j < |inos| ==> Where(fs, DataOf(f, n + j)) == inos[j]
  }

  lemma LaidNone(fs: Fs, f: nat, n: nat)
    ensures Laid(fs, f, n, [])
  {
  }

  lemma LaidMore(fs: Fs, fs': Fs, f: nat, n: nat, inos: seq<nat>, b: nat)
    requires MapsAsBefore(fs, fs') && f in fs.dins && n + |inos| == fs.dins[f].blocks && Laid(fs, f, n, inos)
    requires Where(fs', DataOf(f, n + |inos|)) == b
    ensures Laid(fs', f, n, inos + [b])
  {
    hide Where;
  }

  lemma LaidMap(fs: Fs, f: nat, n: nat, inos: seq<nat>)
    requires Laid(fs, f, n, inos) && f in fs.dins
    ensures forall j :: 0 <= j < |inos| ==> Bmap(fs.disk, fs.dins[f], n + j) == inos[j]
  {
    hide Bmap;
    forall j | 0 <= j < |inos|
      ensures Bmap(fs.disk, fs.dins[f], n + j) == inos[j] { assert Where(fs, DataOf(f, n + j)) == inos[j]; }
  }

  lemma ViewBlocks(fs: Fs, f: nat)
    requires f in fs.dins
    ensures f in View(fs) && |View(fs)[f].data| == fs.dins[f].blocks
  {
  }

  // ------------------------------------------------------------ small facts

  ghost predicate AllFiles(fs: Fs, l1: map<nat, nat>, l2: map<nat, nat>) {
    forall f :: f in fs.dins ==> f in l1 && f in l2 && Tight(fs, f) && Cached(fs, f, l1[f], l2[f])
  }

  // Every block that was mapped is mapped where it was.
  ghost predicate MapsAsBefore(fs: Fs, fs': Fs) {
    forall g: nat, i: nat :: g in fs.dins && i < fs.dins[g].blocks ==>
        Where(fs', DataOf(g, i)) == Where(fs, DataOf(g, i))
  }

  lemma AppendFiles(fs: Fs, t: Fs, f: nat, b: nat, v: Block, a: nat, c: nat, l1: map<nat, nat>, l2: map<nat, nat>)
    requires Inv(fs) && f in fs.dins && fs.dins[f].blocks < LN_NBLKS && Appended(fs, t, f, b, v) && AllFiles(fs, l1, l2)
    requires Path(fs, t, f, fs.dins[f].blocks, a, c) && f in t.dins && b != 0
    ensures var fs' := SetBlocks(t, f, fs.dins[f].blocks + 1);
      fs'.dins.Keys == fs.dins.Keys && AllFiles(fs', l1[f := a], l2[f := c]) && MapsAsBefore(fs, fs')
  {
    hide Where, Load, Grown, Inv, Tight, Cached, Path, View, Owned;
    var n := fs.dins[f].blocks;
    var fs' := SetBlocks(t, f, n + 1);
    AppendEnds(fs, t, f, b, v, a, c);
    SizeKept(fs, t, f);
    forall h | h in fs'.dins && h != f ensures Tight(fs', h) && Cached(fs', h, l1[h], l2[h]) {
      PathOnly(fs, fs', f, n, a, c);
      TightOthers(fs, fs', f, n, Second(n), h, l1[h], l2[h]);
    }
    forall g: nat, i: nat | g in fs.dins && i < fs.dins[g].blocks
      ensures Where(fs', DataOf(g, i)) == Where(fs, DataOf(g, i)) {
      MapKept(fs, t, f, g, i);
    }
  }

  lemma DirectPath(fs: Fs, t: Fs, f: nat, n: nat, a: nat, c: nat)
    requires Path(fs, t, f, n, 0, 0) && n < L1
    ensures Path(fs, t, f, n, a, c)
  {
    hide Where;
  }

  lemma PathOnly(fs: Fs, t: Fs, f: nat, n: nat, a: nat, c: nat)
    requires Path(fs, t, f, n, a, c)
    ensures Only(fs, t, f, n, Second(n))
  {
  }

  lemma InvFacts(fs: Fs)
    requires Inv(fs)
    ensures 0 !in fs.free
  {
    hide Where;
  }

  lemma ReadyIn(fs: Fs, g: Fs, f: nat, b: nat, v: Block)
    requires f in fs.dins && Ready(fs, g, f, b, v)
    ensures f in g.dins && b in g.free && forall x :: x in g.free ==> 0 < x < 0x1_0000_0000
  {
    hide Where, Load, Grown;
  }

  lemma InDisk(fs: Fs, g: Fs, f: nat, b: nat, v: Block)
    requires f in fs.dins && Ready(fs, g, f, b, v)
    ensures f in g.dins && (g.dins[f].db != 0 ==> g.dins[f].db in g.disk)
  {
    assert Where(g, DbOf(f)) == if f in g.dins then g.dins[f].db else 0;
    hide Where, Load, Grown;
  }

  lemma IndirectWhere(t: Fs, f: nat)
    requires f in t.dins
    ensures Where(t, IndOf(f)) == t.dins[f].indirect
  {
  }

  lemma DbWhere(t: Fs, f: nat)
    requires f in t.dins
    ensures Where(t, DbOf(f)) == t.dins[f].db
  {
  }

  lemma SecondWhere(t: Fs, f: nat, k: nat)
    requires f in t.dins
    ensures Where(t, SecOf(f, k)) == At(t.disk, t.dins[f].db, k)
  {
  }

  lemma MovedAt(g: Fs, t: Fs, o: Owner, b: nat, p: Owner)
    requires Moved(g, t, o, b)
    ensures Where(t, p) == if p == o then b else Where(g, p)
  {
    hide Where;
  }

  lemma SecondKept(g: Fs, t: Fs, f: nat, k: nat, n: nat, b: nat)
    requires Moved(g, t, DataOf(f, n), b) && f in g.dins && f in t.dins && t.dins == g.dins
    ensures Where(t, DbOf(f)) == g.dins[f].db && Where(t, SecOf(f, k)) == At(g.disk, g.dins[f].db, k)
  {
    SecondWhere(g, f, k);
    DbWhere(g, f);
    hide Where, At;
    MovedAt(g, t, DataOf(f, n), b, DbOf(f));
    MovedAt(g, t, DataOf(f, n), b, SecOf(f, k));
  }
}
