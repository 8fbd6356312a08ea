/**
  How a file shrinks: a data block, or an index block that has become empty,
  returns to the free map, and nothing else moves or changes.
 */
module SfsShrink {
  import opened SfsDisk
  import opened SfsMap
  import opened SfsGrow

  function Freed(fs: Fs, b: nat): Fs { fs.(free := fs.free + {b}) }

  // `o` gave its block up; sizes and every other owner's block are as before.
  ghost predicate Shrunk(fs: Fs, fs': Fs, o: Owner) {
    && SameFiles(fs, fs') && DataKept(fs, fs') && Moved(fs, fs', o, 0)
  }

  lemma UnlinkShrinks(fs: Fs, fs': Fs, o: Owner)
    requires Owned(fs) && Where(fs, o) != 0 && Moved(fs, fs', o, 0)
    requires SameFiles(fs, fs') && Shape(fs') && fs'.free == fs.free && DataKept(fs, fs')
    ensures Owned(Freed(fs', Where(fs, o))) && Shrunk(fs, Freed(fs', Where(fs, o)), o)
  {
    var t := Freed(fs', Where(fs, o));
    forall p ensures Where(t, p) == Where(fs', p) {}
    forall c ensures Load(t, c) == Load(fs', c) {}
    hide Where, Load;
    UnlinkOk(fs, t, o);
  }

  lemma UnlinkDirect(fs: Fs, ino: nat, i: nat)
    requires Owned(fs) && ino in fs.dins && i < NDIRECT && fs.dins[ino].direct[i] != 0
    ensures var o := DataOf(ino, i); var t := Freed(SetDirect(fs, ino, i, 0), fs.dins[ino].direct[i]);
            Owned(t) && Shrunk(fs, t, o)
  {
    SetDirectMoved(fs, ino, i, 0);
    assert Where(fs, DataOf(ino, i)) == fs.dins[ino].direct[i];
    forall c ensures Load(SetDirect(fs, ino, i, 0), c) == Load(fs, c) {}
    hide Where, Load;
    UnlinkShrinks(fs, SetDirect(fs, ino, i, 0), DataOf(ino, i));
  }

  lemma UnlinkIndirectEntry(fs: Fs, ino: nat, k: nat)
    requires Owned(fs) && ino in fs.dins && fs.dins[ino].indirect != 0 && k < NENTRY
    requires At(fs.disk, fs.dins[ino].indirect, k) != 0
    ensures fs.dins[ino].indirect in fs.disk
    ensures var t := Freed(SetAt(fs, fs.dins[ino].indirect, k, 0), At(fs.disk, fs.dins[ino].indirect, k));
            Owned(t) && Shrunk(fs, t, DataOf(ino, NDIRECT + k))
  {
    var o := DataOf(ino, NDIRECT + k);
    assert Where(fs, IndOf(ino)) == fs.dins[ino].indirect && Where(fs, o) == At(fs.disk, fs.dins[ino].indirect, k);
    hide Where, Load, At, SetEntry;
    SetIndirectEntry(fs, ino, k, 0);
    IndexWrite(fs, IndOf(ino), k, 0);
    UnlinkShrinks(fs, SetAt(fs, fs.dins[ino].indirect, k, 0), o);
  }

  lemma UnlinkSecondEntry(fs: Fs, ino: nat, k: nat, j: nat)
    requires Owned(fs) && ino in fs.dins && k < NENTRY && j < NENTRY
    requires At(fs.disk, fs.dins[ino].db, k) != 0 && At(fs.disk, At(fs.disk, fs.dins[ino].db, k), j) != 0
    ensures At(fs.disk, fs.dins[ino].db, k) in fs.disk
    ensures var ent := At(fs.disk, fs.dins[ino].db, k); var t := Freed(SetAt(fs, ent, j, 0), At(fs.disk, ent, j));
            Owned(t) && Shrunk(fs, t, DataOf(ino, NDIRECT + NENTRY + NENTRY * k + j))
  {
    var o := DataOf(ino, NDIRECT + NENTRY + NENTRY * k + j);
    var ent := At(fs.disk, fs.dins[ino].db, k);
    assert (NENTRY * k + j) / NENTRY == k && (NENTRY * k + j) % NENTRY == j;
    assert Where(fs, SecOf(ino, k)) == ent && Where(fs, o) == At(fs.disk, ent, j);
    hide Where, Load, At, SetEntry;
    SetSecondEntry(fs, ino, k, j, 0);
    IndexWrite(fs, SecOf(ino, k), j, 0);
    UnlinkShrinks(fs, SetAt(fs, ent, j, 0), o);
  }

  // ------------------------------------------------ tearing an inode down

  // The inode has no data blocks left.
  ghost predicate NoData(fs: Fs, ino: nat) {
    forall i :: 0 <= i < MAX_INDEX ==> Where(fs, DataOf(ino, i)) == 0
  }

  lemma NoDataIndirect(fs: Fs, ino: nat)
    requires NoData(fs, ino) && ino in fs.dins
    ensures Empty(fs.disk, fs.dins[ino].indirect)
  {
    forall k: nat | k < NENTRY ensures At(fs.disk, fs.dins[ino].indirect, k) == 0 {
      assert Where(fs, DataOf(ino, NDIRECT + k)) == 0;
    }
  }

  lemma NoDataSecond(fs: Fs, ino: nat, k: nat)
    requires NoData(fs, ino) && ino in fs.dins && k < NENTRY
    ensures Empty(fs.disk, At(fs.disk, fs.dins[ino].db, k))
  {
    forall j: nat | j < NENTRY ensures At(fs.disk, At(fs.disk, fs.dins[ino].db, k), j) == 0 {
      assert (NENTRY * k + j) / NENTRY == k && (NENTRY * k + j) % NENTRY == j;
      assert NENTRY * k + j < NENTRY * NENTRY;
      assert Where(fs, DataOf(ino, NDIRECT + NENTRY + (NENTRY * k + j))) == 0;
    }
  }

  lemma UnlinkIndirect(fs: Fs, ino: nat)
    requires Owned(fs) && ino in fs.dins && fs.dins[ino].indirect != 0 && NoData(fs, ino)
    ensures var t := Freed(SetIndirect(fs, ino, 0), fs.dins[ino].indirect); Owned(t) && Shrunk(fs, t, IndOf(ino))
  {
    NoDataIndirect(fs, ino);
    assert Empty(fs.disk, 0);
    SetIndirectMoved(fs, ino, 0);
    assert Where(fs, IndOf(ino)) == fs.dins[ino].indirect;
    forall c ensures Load(SetIndirect(fs, ino, 0), c) == Load(fs, c) {}
    hide Where, Load, Empty, NoData;
    UnlinkShrinks(fs, SetIndirect(fs, ino, 0), IndOf(ino));
  }

  lemma UnlinkSecond(fs: Fs, ino: nat, k: nat)
    requires Owned(fs) && ino in fs.dins && k < NENTRY && At(fs.disk, fs.dins[ino].db, k) != 0 && NoData(fs, ino)
    ensures fs.dins[ino].db in fs.disk
    ensures var t := Freed(SetAt(fs, fs.dins[ino].db, k, 0), At(fs.disk, fs.dins[ino].db, k));
      Owned(t) && Shrunk(fs, t, SecOf(ino, k))
  {
    NoDataSecond(fs, ino, k);
    assert Empty(fs.disk, 0);
    assert Where(fs, DbOf(ino)) == fs.dins[ino].db && Where(fs, SecOf(ino, k)) == At(fs.disk, fs.dins[ino].db, k);
    assert fs.dins[ino].db != 0;
    hide Where, Load, At, SetEntry, Empty, NoData;
    SetSecond(fs, ino, k, 0);
    IndexWrite(fs, DbOf(ino), k, 0);
    UnlinkShrinks(fs, SetAt(fs, fs.dins[ino].db, k, 0), SecOf(ino, k));
  }

  lemma UnlinkDb(fs: Fs, ino: nat)
    requires Owned(fs) && ino in fs.dins && fs.dins[ino].db != 0 && Empty(fs.disk, fs.dins[ino].db)
    ensures var t := Freed(SetDb(fs, ino, 0), fs.dins[ino].db); Owned(t) && Shrunk(fs, t, DbOf(ino))
  {
    assert Empty(fs.disk, 0);
    SetDbMoved(fs, ino, 0);
    assert Where(fs, DbOf(ino)) == fs.dins[ino].db;
    forall c ensures Load(SetDb(fs, ino, 0), c) == Load(fs, c) {}
    hide Where, Load, Empty;
    UnlinkShrinks(fs, SetDb(fs, ino, 0), DbOf(ino));
  }

  // The inode itself, when nothing hangs on it.
  lemma DropInode(fs: Fs, ino: nat)
    requires Owned(fs) && ino in fs.dins && ino != 0 && NoData(fs, ino) && fs.dins[ino].indirect == 0
    requires fs.dins[ino].db == 0
    ensures Owned(Freed(fs.(dins := fs.dins - {ino}), ino))
  {
    var t := Freed(fs.(dins := fs.dins - {ino}), ino);
    forall p ensures Where(t, p) == if p == InodeOf(ino) then 0 else Where(fs, p) {
      if p.DataOf? && p.ino == ino && p.i < NDIRECT { assert Where(fs, DataOf(ino, p.i)) == 0; }
    }
    assert Where(fs, InodeOf(ino)) == ino;
    hide Where;
    UnlinkOk(fs, t, InodeOf(ino));
  }
}
