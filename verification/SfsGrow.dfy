/**
  How a file grows: a zeroed free block becomes a data block or an index block,
  and nothing that was owned moves or changes.
 */
module SfsGrow {
  import opened SfsDisk
  import opened SfsMap

  function Load(fs: Fs, b: nat): Block { if b in fs.disk then fs.disk[b] else Zeros() }

  function Written(fs: Fs, b: nat, v: Block): Fs { fs.(disk := fs.disk[b := v]) }

  function Zeroed(fs: Fs, b: nat): Fs { Written(fs, b, Zeros()) }

  function Taken(fs: Fs, b: nat): Fs { fs.(free := fs.free - {b}) }

  ghost predicate SameOwners(fs: Fs, fs': Fs) {
    forall p {:trigger Where(fs', p)} :: Where(fs', p) == Where(fs, p)
  }

  // Sizes and data of every file stay; index blocks may have been added.
  ghost predicate SameFiles(fs: Fs, fs': Fs) {
    && fs'.nblocks == fs.nblocks && fs'.firstFree == fs.firstFree
    && (forall ino :: ino in fs.dins <==> ino in fs'.dins)
    && (forall ino :: ino in fs.dins ==>
        fs'.dins[ino].size == fs.dins[ino].size && fs'.dins[ino].blocks == fs.dins[ino].blocks)
  }

  ghost predicate Kept(fs: Fs, fs': Fs) {
    && SameFiles(fs, fs')
    && (forall o {:trigger Where(fs', o)} :: Where(fs, o) != 0 ==> Where(fs', o) == Where(fs, o))
    && DataKept(fs, fs')
  }

  // No data block was written.
  ghost predicate DataKept(fs: Fs, fs': Fs) {
    forall o: Owner {:trigger Where(fs, o)} :: o.DataOf? && Where(fs, o) != 0 ==>
        Load(fs', Where(fs, o)) == Load(fs, Where(fs, o))
  }

  // `fs'` keeps `fs` and has no new data block but that of `o`.
  ghost predicate Grown(fs: Fs, fs': Fs, o: Owner) {
    && Kept(fs, fs')
    && (forall p: Owner {:trigger Where(fs', p)} :: p.DataOf? && p != o ==> Where(fs', p) == Where(fs, p))
  }

  lemma GrownTrans(a: Fs, b: Fs, c: Fs, o: Owner)
    requires Grown(a, b, o) && Grown(b, c, o)
    ensures Grown(a, c, o)
  {
    hide Where, Load;
    forall p ensures Where(a, p) != 0 ==> Where(c, p) == Where(a, p) { var _ := Where(b, p); }
    forall p: Owner | p.DataOf? && p != o ensures Where(c, p) == Where(a, p) { var _ := Where(b, p); }
    forall p: Owner | p.DataOf? && Where(a, p) != 0 ensures Load(c, Where(a, p)) == Load(a, Where(a, p)) {
      assert Where(b, p) == Where(a, p);
      var _ := Load(b, Where(a, p));
    }
  }

  // Writing a free block changes no file.
  lemma WriteFree(fs: Fs, b: nat, v: Block, o: Owner)
    requires Owned(fs) && b in fs.free
    ensures Owned(Written(fs, b, v)) && Grown(fs, Written(fs, b, v), o)
    ensures SameOwners(fs, Written(fs, b, v))
  {
    hide Where;
    var fs' := Written(fs, b, v);
    DataWrite(fs, fs', b, v);
    SameOk(fs, fs');
  }

  lemma ZeroFree(fs: Fs, b: nat, o: Owner)
    requires Owned(fs) && b in fs.free
    ensures Owned(Zeroed(fs, b)) && Grown(fs, Zeroed(fs, b), o)
    ensures SameOwners(fs, Zeroed(fs, b))
  {
    hide Where, Owned, Grown, SameOwners;
    WriteFree(fs, b, Zeros(), o);
  }

  // What a link of a zeroed free block must do, to be a good link.
  lemma LinkGrows(fs: Fs, fs': Fs, o: Owner, b: nat, d: Owner)
    requires Owned(fs) && b in fs.free && Where(fs, o) == 0 && Moved(fs, fs', o, b)
    requires SameFiles(fs, fs') && Shape(fs') && fs'.free == fs.free && (o.DataOf? ==> d == o)
    requires DataKept(fs, fs')
    ensures Owned(Taken(fs', b)) && Grown(fs, Taken(fs', b), d) && Moved(fs, Taken(fs', b), o, b)
  {
    var t := Taken(fs', b);
    forall p ensures Where(t, p) == Where(fs', p) {}
    forall c ensures Load(t, c) == Load(fs', c) {}
    hide Where, Load;
    LinkOk(fs, t, o, b);
  }

  lemma LinkDirect(fs: Fs, ino: nat, i: nat, b: nat)
    requires Owned(fs) && b in fs.free && ino in fs.dins && i < NDIRECT && fs.dins[ino].direct[i] == 0
    ensures var o := DataOf(ino, i); var t := Taken(SetDirect(fs, ino, i, b), b);
            Owned(t) && Grown(fs, t, o) && Moved(fs, t, o, b)
  {
    SetDirectMoved(fs, ino, i, b);
    assert Where(fs, DataOf(ino, i)) == 0;
    forall c ensures Load(SetDirect(fs, ino, i, b), c) == Load(fs, c) {}
    hide Where, Load;
    LinkGrows(fs, SetDirect(fs, ino, i, b), DataOf(ino, i), b, DataOf(ino, i));
  }

  lemma LinkIndirect(fs: Fs, ino: nat, b: nat, d: Owner)
    requires Owned(fs) && b in fs.free && ino in fs.dins && fs.dins[ino].indirect == 0 && Load(fs, b) == Zeros()
    ensures var t := Taken(SetIndirect(fs, ino, b), b); Owned(t) && Grown(fs, t, d) && Moved(fs, t, IndOf(ino), b)
  {
    ZeroEmpty(fs, b);
    SetIndirectMoved(fs, ino, b);
    assert Where(fs, IndOf(ino)) == 0;
    forall c ensures Load(SetIndirect(fs, ino, b), c) == Load(fs, c) {}
    hide Where, Load;
    LinkGrows(fs, SetIndirect(fs, ino, b), IndOf(ino), b, d);
  }

  lemma LinkDb(fs: Fs, ino: nat, b: nat, d: Owner)
    requires Owned(fs) && b in fs.free && ino in fs.dins && fs.dins[ino].db == 0 && Load(fs, b) == Zeros()
    ensures var t := Taken(SetDb(fs, ino, b), b); Owned(t) && Grown(fs, t, d) && Moved(fs, t, DbOf(ino), b)
  {
    ZeroEmpty(fs, b);
    SetDbMoved(fs, ino, b);
    assert Where(fs, DbOf(ino)) == 0;
    forall c ensures Load(SetDb(fs, ino, b), c) == Load(fs, c) {}
    hide Where, Load;
    LinkGrows(fs, SetDb(fs, ino, b), DbOf(ino), b, d);
  }

  // Writing into an index block touches no data block.
  lemma IndexWrite(fs: Fs, q: Owner, k: nat, b: nat)
    requires Owned(fs) && !q.DataOf? && Where(fs, q) != 0 && k < NENTRY && b < 0x1_0000_0000
    ensures Where(fs, q) in fs.disk
    ensures var fs' := SetAt(fs, Where(fs, q), k, b);
      Shape(fs') && SameFiles(fs, fs') && DataKept(fs, fs')
  {
    hide Where, Entry, SetEntry;
  }

  lemma LinkIndirectEntry(fs: Fs, ino: nat, k: nat, b: nat)
    requires Owned(fs) && b in fs.free && ino in fs.dins && fs.dins[ino].indirect != 0 && k < NENTRY
    requires At(fs.disk, fs.dins[ino].indirect, k) == 0
    ensures fs.dins[ino].indirect in fs.disk
    ensures var o := DataOf(ino, NDIRECT + k); var t := Taken(SetAt(fs, fs.dins[ino].indirect, k, b), b);
            Owned(t) && Grown(fs, t, o) && Moved(fs, t, o, b)
  {
    assert Where(fs, IndOf(ino)) == fs.dins[ino].indirect && Where(fs, DataOf(ino, NDIRECT + k)) == 0;
    hide Where, Load, At, SetEntry;
    SetIndirectEntry(fs, ino, k, b);
    IndexWrite(fs, IndOf(ino), k, b);
    LinkGrows(fs, SetAt(fs, fs.dins[ino].indirect, k, b), DataOf(ino, NDIRECT + k), b, DataOf(ino, NDIRECT + k));
  }

  lemma ZeroEmpty(fs: Fs, b: nat)
    requires Load(fs, b) == Zeros()
    ensures Empty(fs.disk, b)
  {
    forall i: nat | i < NENTRY ensures At(fs.disk, b, i) == 0 { EntryZero(i); }
  }

  lemma LinkSecond(fs: Fs, ino: nat, k: nat, b: nat, d: Owner)
    requires Owned(fs) && b in fs.free && ino in fs.dins && fs.dins[ino].db != 0 && k < NENTRY && Load(fs, b) == Zeros()
    requires At(fs.disk, fs.dins[ino].db, k) == 0
    ensures fs.dins[ino].db in fs.disk
    ensures var t := Taken(SetAt(fs, fs.dins[ino].db, k, b), b);
      Owned(t) && Grown(fs, t, d) && Moved(fs, t, SecOf(ino, k), b)
  {
    assert Where(fs, DbOf(ino)) == fs.dins[ino].db && Where(fs, SecOf(ino, k)) == 0;
    ZeroEmpty(fs, b);
    assert Empty(fs.disk, 0);
    hide Where, Load, At, SetEntry, Empty;
    SetSecond(fs, ino, k, b);
    IndexWrite(fs, DbOf(ino), k, b);
    LinkGrows(fs, SetAt(fs, fs.dins[ino].db, k, b), SecOf(ino, k), b, d);
  }

  lemma LinkSecondEntry(fs: Fs, ino: nat, k: nat, j: nat, b: nat)
    requires Owned(fs) && b in fs.free && ino in fs.dins && k < NENTRY && j < NENTRY
    requires At(fs.disk, fs.dins[ino].db, k) != 0 && At(fs.disk, At(fs.disk, fs.dins[ino].db, k), j) == 0
    ensures At(fs.disk, fs.dins[ino].db, k) in fs.disk
    ensures var o := DataOf(ino, NDIRECT + NENTRY + NENTRY * k + j); var t := Taken(SetAt(fs, At(fs.disk, fs.dins[ino].db, k), j, b), b);
      
            Owned(t) && Grown(fs, t, o) && Moved(fs, t, o, b)
  {
    var o := DataOf(ino, NDIRECT + NENTRY + NENTRY * k + j);
    assert (NENTRY * k + j) / NENTRY == k && (NENTRY * k + j) % NENTRY == j;
    assert Where(fs, SecOf(ino, k)) == At(fs.disk, fs.dins[ino].db, k) && Where(fs, o) == 0;
    hide Where, Load, At, SetEntry;
    SetSecondEntry(fs, ino, k, j, b);
    IndexWrite(fs, SecOf(ino, k), j, b);
    LinkGrows(fs, SetAt(fs, At(fs.disk, fs.dins[ino].db, k), j, b), o, b, o);
  }

  // ------------------------------------- the ways sfs_bmap_get_nolock grows

  lemma GrowDirect(fs: Fs, ino: nat, i: nat, b: nat)
    requires Owned(fs) && b in fs.free && ino in fs.dins && i < NDIRECT && fs.dins[ino].direct[i] == 0
    ensures var o := DataOf(ino, i); var t := SetDirect(Taken(Zeroed(fs, b), b), ino, i, b);
            Owned(t) && Grown(fs, t, o) && Where(t, o) == b && Load(t, b) == Zeros()
  {
    var o, z := DataOf(ino, i), Zeroed(fs, b);
    ZeroFree(fs, b, o);
    LinkDirect(z, ino, i, b);
    var t := Taken(SetDirect(z, ino, i, b), b);
    assert t == SetDirect(Taken(Zeroed(fs, b), b), ino, i, b);
    assert Load(t, b) == Zeros();
    hide Where, Load;
    GrownTrans(fs, z, t, o);
  }

  // The entry `k` of the indirect block.
  lemma GrowIndirect(fs: Fs, ino: nat, k: nat, b: nat)
    requires Owned(fs) && b in fs.free && ino in fs.dins && fs.dins[ino].indirect != 0 && k < NENTRY
    requires At(fs.disk, fs.dins[ino].indirect, k) == 0
    ensures fs.dins[ino].indirect in fs.disk
    ensures var o := DataOf(ino, NDIRECT + k); var t := Taken(SetAt(Zeroed(fs, b), fs.dins[ino].indirect, k, b), b);
            Owned(t) && Grown(fs, t, o) && Where(t, o) == b && Load(t, b) == Zeros()
  {
    var o, z, ent := DataOf(ino, NDIRECT + k), Zeroed(fs, b), fs.dins[ino].indirect;
    ZeroFree(fs, b, o);
    assert Where(fs, IndOf(ino)) == ent != b;
    LinkIndirectEntry(z, ino, k, b) by { assert At(z.disk, ent, k) == 0; }
    var t := Taken(SetAt(z, ent, k, b), b);
    assert Load(t, b) == Zeros();
    hide Where, Load, SetEntry;
    GrownTrans(fs, z, t, o);
  }

  // The first block of the indirect level: index block and data block together.
  lemma GrowIndirectFresh(fs: Fs, ino: nat, k: nat, e: nat, b: nat)
    requires Owned(fs) && e in fs.free && b in fs.free && e != b && ino in fs.dins && fs.dins[ino].indirect == 0
    requires k < NENTRY
    ensures var o := DataOf(ino, NDIRECT + k);
            var t := SetIndirect(Taken(Taken(SetAt(Zeroed(Zeroed(fs, e), b), e, k, b), e), b), ino, e);
            Owned(t) && Grown(fs, t, o) && Where(t, o) == b && Load(t, b) == Zeros()
  {
    var o, z := DataOf(ino, NDIRECT + k), Zeroed(fs, e);
    ZeroFree(fs, e, o);
    LinkIndirect(z, ino, e, o);
    var l := Taken(SetIndirect(z, ino, e), e);
    ZeroEmpty(l, e);
    GrowIndirect(l, ino, k, b);
    var t := Taken(SetAt(Zeroed(l, b), e, k, b), b);
    assert t == SetIndirect(Taken(Taken(SetAt(Zeroed(Zeroed(fs, e), b), e, k, b), e), b), ino, e);
    hide Where, Load, SetEntry, At;
    GrownTrans(fs, z, l, o);
    GrownTrans(fs, l, t, o);
  }

  // A second-level block under the double-indirect block.
  lemma GrowSecond(fs: Fs, ino: nat, k: nat, b: nat, d: Owner)
    requires Owned(fs) && b in fs.free && ino in fs.dins && fs.dins[ino].db != 0 && k < NENTRY
    requires At(fs.disk, fs.dins[ino].db, k) == 0
    ensures fs.dins[ino].db in fs.disk
    ensures var t := Taken(SetAt(Zeroed(fs, b), fs.dins[ino].db, k, b), b);
            Owned(t) && Grown(fs, t, d) && Where(t, SecOf(ino, k)) == b && Load(t, b) == Zeros()
  {
    var z, ent := Zeroed(fs, b), fs.dins[ino].db;
    ZeroFree(fs, b, d);
    assert Where(fs, DbOf(ino)) == ent != b;
    LinkSecond(z, ino, k, b, d) by { assert At(z.disk, ent, k) == 0; }
    var t := Taken(SetAt(z, ent, k, b), b);
    assert Load(t, b) == Zeros();
    hide Where, Load, SetEntry;
    GrownTrans(fs, z, t, d);
  }

  // The double-indirect block and its first second-level block together.
  lemma GrowDbFresh(fs: Fs, ino: nat, k: nat, e: nat, b: nat, d: Owner)
    requires Owned(fs) && e in fs.free && b in fs.free && e != b && ino in fs.dins && fs.dins[ino].db == 0 && k < NENTRY
    ensures var t := SetDb(Taken(Taken(SetAt(Zeroed(Zeroed(fs, e), b), e, k, b), e), b), ino, e);
            Owned(t) && Grown(fs, t, d) && Where(t, SecOf(ino, k)) == b && Load(t, b) == Zeros()
  {
    var z := Zeroed(fs, e);
    ZeroFree(fs, e, d);
    LinkDb(z, ino, e, d);
    var l := Taken(SetDb(z, ino, e), e);
    ZeroEmpty(l, e);
    GrowSecond(l, ino, k, b, d);
    var t := Taken(SetAt(Zeroed(l, b), e, k, b), b);
    assert t == SetDb(Taken(Taken(SetAt(Zeroed(Zeroed(fs, e), b), e, k, b), e), b), ino, e);
    hide Where, Load, SetEntry, At;
    GrownTrans(fs, z, l, d);
    GrownTrans(fs, l, t, d);
  }

  // A data block under a second-level block.
  lemma GrowSecondEntry(fs: Fs, ino: nat, k: nat, j: nat, b: nat)
    requires Owned(fs) && b in fs.free && ino in fs.dins && k < NENTRY && j < NENTRY
    requires Where(fs, SecOf(ino, k)) != 0 && At(fs.disk, Where(fs, SecOf(ino, k)), j) == 0
    ensures Where(fs, SecOf(ino, k)) in fs.disk
    ensures var o := DataOf(ino, NDIRECT + NENTRY + NENTRY * k + j); var t := Taken(SetAt(Zeroed(fs, b), Where(fs, SecOf(ino, k)), j, b), b);
      
            Owned(t) && Grown(fs, t, o) && Where(t, o) == b && Load(t, b) == Zeros()
  {
    var o, z, ent := DataOf(ino, NDIRECT + NENTRY + NENTRY * k + j), Zeroed(fs, b), Where(fs, SecOf(ino, k));
    ZeroFree(fs, b, o);
    assert ent != b && Where(z, SecOf(ino, k)) == ent;
    LinkSecondEntry(z, ino, k, j, b) by { assert At(z.disk, ent, j) == 0; }
    var t := Taken(SetAt(z, ent, j, b), b);
    assert Load(t, b) == Zeros();
    hide Where, Load, SetEntry;
    GrownTrans(fs, z, t, o);
  }

  // A new inode: no size, no blocks.
  function NewDin(): Din { Din(0, 0, seq(NDIRECT, _ => 0), 0, 0) }

  lemma AddInode(fs: Fs, ino: nat)
    requires Owned(fs) && ino in fs.free
    ensures ino !in fs.dins
    ensures Owned(Taken(fs.(dins := fs.dins[ino := NewDin()]), ino))
  {
    var t := Taken(fs.(dins := fs.dins[ino := NewDin()]), ino);
    assert Where(fs, InodeOf(ino)) != ino;
    assert ino !in fs.dins;
    forall p ensures Where(t, p) == if p == InodeOf(ino) then ino else Where(fs, p) {}
    hide Where;
    LinkOk(fs, t, InodeOf(ino), ino);
  }
}
