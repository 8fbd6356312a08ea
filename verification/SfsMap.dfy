/**
  The block map of an SFS inode: twelve direct blocks, one indirect block and
  one double-indirect block, and who owns each block of the disk.
 */
module SfsMap {
  import opened SfsDisk

  const NDIRECT := 12
  const MAX_INDEX := NDIRECT + NENTRY + NENTRY * NENTRY

  // The on-disk inode; `direct` has NDIRECT entries.
  datatype Din = Din(size: nat, blocks: nat, direct: seq<nat>, indirect: nat, db: nat)

  // A mounted file system: `nblocks` blocks, of which 2 .. firstFree - 1 hold
  // the free map.  Block 0 is the superblock; 0 also stands for "no block".
  datatype Fs = Fs(nblocks: nat, firstFree: nat, disk: map<nat, Block>, free: set<nat>, dins: map<nat, Din>)

  // Who may own a block.
  datatype Owner =
    | Reserved(b: nat)
    | InodeOf(ino: nat)
    | DataOf(ino: nat, i: nat)
    | IndOf(ino: nat)
    | DbOf(ino: nat)
    | SecOf(ino: nat, k: nat)

  function At(disk: map<nat, Block>, ent: nat, i: nat): nat {
    if ent != 0 && ent in disk && i < NENTRY then Entry(disk[ent], i) else 0
  }

  // The block of index `i`, 0 when there is none: what sfs_bmap_get_nolock
  // finds without creating.
  function Bmap(disk: map<nat, Block>, din: Din, i: nat): nat {
    if i < NDIRECT then (if i < |din.direct| then din.direct[i] else 0)
    else if i < NDIRECT + NENTRY then At(disk, din.indirect, i - NDIRECT)
    else
      var j := i - NDIRECT - NENTRY;
      At(disk, At(disk, din.db, j / NENTRY), j % NENTRY)
  }

  // The block that an owner owns, 0 when it owns none.
  function Where(fs: Fs, o: Owner): nat {
    match o
    case Reserved(b) => if 2 <= b < fs.firstFree then b else 0
    case InodeOf(ino) => if ino in fs.dins then ino else 0
    case DataOf(ino, i) => if ino in fs.dins then Bmap(fs.disk, fs.dins[ino], i) else 0
    case IndOf(ino) => if ino in fs.dins then fs.dins[ino].indirect else 0
    case DbOf(ino) => if ino in fs.dins then fs.dins[ino].db else 0
    case SecOf(ino, k) => if ino in fs.dins then At(fs.disk, fs.dins[ino].db, k) else 0
  }

  // ------------------------------------------------------------ invariant

  ghost predicate Shape(fs: Fs) {
    && fs.nblocks <= 0x1_0000_0000
    && (forall b :: b in fs.disk <==> b < fs.nblocks)
    && (forall ino :: ino in fs.dins ==> |fs.dins[ino].direct| == NDIRECT)
    && (forall b :: b in fs.free ==> 0 < b < fs.nblocks)
  }

  ghost predicate OwnedInUse(fs: Fs) {
    forall o {:trigger Where(fs, o)} :: Where(fs, o) != 0 ==> Where(fs, o) < fs.nblocks && Where(fs, o) !in fs.free
  }

  ghost predicate OwnedOnce(fs: Fs) {
    forall o, o' {:trigger Where(fs, o), Where(fs, o')} :: Where(fs, o) != 0 && Where(fs, o) == Where(fs, o') ==>
        o == o'
  }

  ghost predicate HasOwner(fs: Fs, b: nat) { exists o :: Where(fs, o) == b }

  // Every block in use has exactly one owner.
  ghost predicate Owned(fs: Fs) {
    && Shape(fs) && OwnedInUse(fs) && OwnedOnce(fs)
    && (forall b :: 0 < b < fs.nblocks && b !in fs.free ==> HasOwner(fs, b))
  }

  // A file of `blocks` blocks has exactly the indices below that number.
  ghost predicate Dense(fs: Fs) {
    forall ino :: ino in fs.dins ==> DenseAt(fs, ino)
  }

  ghost predicate DenseAt(fs: Fs, ino: nat)
    requires ino in fs.dins
  {
    && fs.dins[ino].blocks <= MAX_INDEX
    && forall i :: 0 <= i < MAX_INDEX ==> (Where(fs, DataOf(ino, i)) != 0 <==> i < fs.dins[ino].blocks)
  }

  ghost predicate Inv(fs: Fs) { Owned(fs) && Dense(fs) }

  // ------------------------------------------------------------ changes

  // The two file systems agree on every owner but `o`, which now has `b`.
  ghost predicate Moved(fs: Fs, fs': Fs, o: Owner, b: nat) {
    forall p {:trigger Where(fs', p)} :: Where(fs', p) == if p == o then b else Where(fs, p)
  }

  lemma LinkOk(fs: Fs, fs': Fs, o: Owner, b: nat)
    requires Owned(fs) && Where(fs, o) == 0 && b in fs.free && Shape(fs') && Moved(fs, fs', o, b)
    requires fs'.free == fs.free - {b} && fs'.nblocks == fs.nblocks
    ensures Owned(fs')
  {
    hide Where;
    forall c | 0 < c < fs.nblocks && c !in fs'.free ensures HasOwner(fs', c) {
      if c == b {
        assert Where(fs', o) == b;
      } else {
        assert HasOwner(fs, c);
        var p :| Where(fs, p) == c;
        assert Where(fs', p) == c;
      }
    }
  }

  lemma UnlinkOk(fs: Fs, fs': Fs, o: Owner)
    requires Owned(fs) && Where(fs, o) != 0 && Shape(fs') && Moved(fs, fs', o, 0)
    requires fs'.free == fs.free + {Where(fs, o)} && fs'.nblocks == fs.nblocks
    ensures Owned(fs')
  {
    hide Where;
    forall c | 0 < c < fs.nblocks && c !in fs'.free ensures HasOwner(fs', c) {
      assert HasOwner(fs, c);
      var p :| Where(fs, p) == c;
      assert Where(fs', p) == c;
    }
  }

  lemma SameOk(fs: Fs, fs': Fs)
    requires Owned(fs) && Shape(fs') && fs'.free == fs.free && fs'.nblocks == fs.nblocks
    requires forall p {:trigger Where(fs', p)} :: Where(fs', p) == Where(fs, p)
    ensures Owned(fs')
  {
    hide Where;
    forall c | 0 < c < fs.nblocks && c !in fs'.free ensures HasOwner(fs', c) {
      assert HasOwner(fs, c);
      var p :| Where(fs, p) == c;
      assert Where(fs', p) == c;
    }
  }

  // ------------------------------------------------------------ framing

  // The owners whose block is an index block of `ino`.
  predicate Indexes(o: Owner) { o.IndOf? || o.DbOf? || o.SecOf? }

  // Changing a block that is no index block moves nothing.
  lemma DataWrite(fs: Fs, fs': Fs, b: nat, v: Block)
    requires fs' == fs.(disk := fs.disk[b := v]) && b in fs.disk
    requires forall o {:trigger Where(fs, o)} :: Indexes(o) && Where(fs, o) != 0 ==> Where(fs, o) != b
    ensures forall p {:trigger Where(fs', p)} :: Where(fs', p) == Where(fs, p)
  {
    forall p ensures Where(fs', p) == Where(fs, p) {
      match p
      case DataOf(ino, i) => DataFrame(fs, fs', b, v, ino, i);
      case SecOf(ino, k) => if ino in fs.dins { var _ := Where(fs, DbOf(ino)); }
      case _ =>
    }
  }

  lemma DataFrame(fs: Fs, fs': Fs, b: nat, v: Block, ino: nat, i: nat)
    requires fs' == fs.(disk := fs.disk[b := v]) && b in fs.disk
    requires forall o {:trigger Where(fs, o)} :: Indexes(o) && Where(fs, o) != 0 ==> Where(fs, o) != b
    ensures Where(fs', DataOf(ino, i)) == Where(fs, DataOf(ino, i))
  {
    if ino in fs.dins && i >= NDIRECT {
      if i < NDIRECT + NENTRY {
        assert Where(fs, IndOf(ino)) != b || b == 0;
      } else {
        var j := i - NDIRECT - NENTRY;
        assert Where(fs, DbOf(ino)) != b || b == 0;
        assert Where(fs, SecOf(ino, j / NENTRY)) != b || b == 0;
      }
    }
  }

  // ------------------------------------------------------------ links

  function SetDirect(fs: Fs, ino: nat, i: nat, b: nat): Fs
    requires ino in fs.dins && i < |fs.dins[ino].direct|
  {
    fs.(dins := fs.dins[ino := fs.dins[ino].(direct := fs.dins[ino].direct[i := b])])
  }

  function SetIndirect(fs: Fs, ino: nat, b: nat): Fs
    requires ino in fs.dins
  {
    fs.(dins := fs.dins[ino := fs.dins[ino].(indirect := b)])
  }

  function SetDb(fs: Fs, ino: nat, b: nat): Fs
    requires ino in fs.dins
  {
    fs.(dins := fs.dins[ino := fs.dins[ino].(db := b)])
  }

  // Entry `k` of the index block `ent`.
  function SetAt(fs: Fs, ent: nat, k: nat, b: nat): Fs
    requires ent in fs.disk && k < NENTRY && b < 0x1_0000_0000
  {
    fs.(disk := fs.disk[ent := SetEntry(fs.disk[ent], k, b)])
  }

  lemma SetDirectMoved(fs: Fs, ino: nat, i: nat, b: nat)
    requires ino in fs.dins && |fs.dins[ino].direct| == NDIRECT && i < NDIRECT
    ensures Moved(fs, SetDirect(fs, ino, i, b), DataOf(ino, i), b)
  {
  }

  // An empty block becomes the indirect block, or an empty one leaves.
  lemma SetIndirectMoved(fs: Fs, ino: nat, b: nat)
    requires ino in fs.dins && Empty(fs.disk, fs.dins[ino].indirect) && Empty(fs.disk, b)
    ensures Moved(fs, SetIndirect(fs, ino, b), IndOf(ino), b)
  {
  }

  lemma SetDbMoved(fs: Fs, ino: nat, b: nat)
    requires ino in fs.dins && Empty(fs.disk, fs.dins[ino].db) && Empty(fs.disk, b)
    ensures Moved(fs, SetDb(fs, ino, b), DbOf(ino), b)
  {
    var fs' := SetDb(fs, ino, b);
    forall p ensures Where(fs', p) == if p == DbOf(ino) then b else Where(fs, p) {
      if p.DataOf? && p.ino == ino && p.i >= NDIRECT + NENTRY {
        var k := (p.i - NDIRECT - NENTRY) / NENTRY;
        assert k < NENTRY ==> At(fs.disk, b, k) == 0;
        assert k < NENTRY ==> At(fs.disk, fs.dins[ino].db, k) == 0;
      }
    }
  }

  // Writing one entry of the indirect block moves one data block.
  lemma SetIndirectEntry(fs: Fs, ino: nat, k: nat, b: nat)
    requires Owned(fs) && ino in fs.dins && fs.dins[ino].indirect != 0 && k < NENTRY && b < 0x1_0000_0000
    ensures fs.dins[ino].indirect in fs.disk
    ensures Moved(fs, SetAt(fs, fs.dins[ino].indirect, k, b), DataOf(ino, NDIRECT + k), b)
  {
    var ent := Where(fs, IndOf(ino));
    var fs' := SetAt(fs, ent, k, b);
    forall p ensures Where(fs', p) == if p == DataOf(ino, NDIRECT + k) then b else Where(fs, p) {
      if p.DataOf? && p.ino == ino && NDIRECT <= p.i < NDIRECT + NENTRY {
        EntrySet(fs.disk[ent], k, b, p.i - NDIRECT);
      } else {
        EntryFrame(fs, ent, IndOf(ino), k, b, p);
      }
    }
  }

  // An owner that does not look into the index block `ent` is not moved.
  lemma EntryFrame(fs: Fs, ent: nat, o: Owner, k: nat, b: nat, p: Owner)
    requires Owned(fs) && ent != 0 && Where(fs, o) == ent && k < NENTRY && b < 0x1_0000_0000 && ent in fs.disk
    requires p.DataOf? && p.i >= NDIRECT ==>
      if p.i < NDIRECT + NENTRY then o != IndOf(p.ino)
      else o != DbOf(p.ino) && o != SecOf(p.ino, (p.i - NDIRECT - NENTRY) / NENTRY)
    requires p.SecOf? ==> o != DbOf(p.ino)
    ensures Where(SetAt(fs, ent, k, b), p) == Where(fs, p)
  {
    var fs' := SetAt(fs, ent, k, b);
    match p
    case DataOf(ino, i) =>
      if ino in fs.dins && i >= NDIRECT {
        if i < NDIRECT + NENTRY {
          assert Where(fs, IndOf(ino)) != ent;
        } else {
          assert Where(fs, DbOf(ino)) != ent;
          assert Where(fs, SecOf(ino, (i - NDIRECT - NENTRY) / NENTRY)) != ent;
        }
      }
    case SecOf(ino, j) => if ino in fs.dins { assert Where(fs, DbOf(ino)) != ent; }
    case _ =>
  }

  // Linking a zeroed block into the double-indirect block moves no data block;
  // neither does unlinking an empty one.
  lemma SetSecond(fs: Fs, ino: nat, k: nat, b: nat)
    requires Owned(fs) && ino in fs.dins && fs.dins[ino].db != 0 && k < NENTRY && b < 0x1_0000_0000
    requires Empty(fs.disk, b) && Empty(fs.disk, At(fs.disk, fs.dins[ino].db, k)) && b != fs.dins[ino].db
    ensures fs.dins[ino].db in fs.disk
    ensures Moved(fs, SetAt(fs, fs.dins[ino].db, k, b), SecOf(ino, k), b)
  {
    hide Empty;
    var ent := Where(fs, DbOf(ino));
    var fs' := SetAt(fs, ent, k, b);
    forall p ensures Where(fs', p) == if p == SecOf(ino, k) then b else Where(fs, p) {
      if p.DataOf? && p.ino == ino && p.i >= NDIRECT + NENTRY {
        SecondData(fs, ino, k, b, p.i);
      } else if p.SecOf? && p.ino == ino {
        if p.k < NENTRY { EntrySet(fs.disk[ent], k, b, p.k); }
      } else {
        EntryFrame(fs, ent, DbOf(ino), k, b, p);
      }
    }
  }

  lemma SecondData(fs: Fs, ino: nat, k: nat, b: nat, i: nat)
    requires Owned(fs) && ino in fs.dins && fs.dins[ino].db != 0 && k < NENTRY && b < 0x1_0000_0000
    requires i >= NDIRECT + NENTRY
    requires Empty(fs.disk, b) && Empty(fs.disk, At(fs.disk, fs.dins[ino].db, k)) && b != fs.dins[ino].db
    requires fs.dins[ino].db in fs.disk
    ensures Where(SetAt(fs, fs.dins[ino].db, k, b), DataOf(ino, i)) == Where(fs, DataOf(ino, i))
  {
    var ent := Where(fs, DbOf(ino));
    var fs' := SetAt(fs, ent, k, b);
    var j := i - NDIRECT - NENTRY;
    if j / NENTRY < NENTRY {
      EntrySet(fs.disk[ent], k, b, j / NENTRY);
      assert Where(fs, SecOf(ino, j / NENTRY)) != ent;
      if j / NENTRY == k {
        assert At(fs'.disk, b, j % NENTRY) == At(fs.disk, b, j % NENTRY) == 0;
      }
    }
  }

  ghost predicate Empty(disk: map<nat, Block>, b: nat) {
    forall i: nat :: i < NENTRY ==> At(disk, b, i) == 0
  }

  // Writing one entry of a second-level block moves one data block.
  lemma SetSecondEntry(fs: Fs, ino: nat, k: nat, j: nat, b: nat)
    requires Owned(fs) && ino in fs.dins && k < NENTRY && j < NENTRY && b < 0x1_0000_0000
    requires At(fs.disk, fs.dins[ino].db, k) != 0
    ensures At(fs.disk, fs.dins[ino].db, k) in fs.disk
    ensures Moved(fs, SetAt(fs, At(fs.disk, fs.dins[ino].db, k), j, b), DataOf(ino, NDIRECT + NENTRY + NENTRY * k + j), b)
  {
    var ent := Where(fs, SecOf(ino, k));
    var fs' := SetAt(fs, ent, j, b);
    forall p ensures Where(fs', p) == if p == DataOf(ino, NDIRECT + NENTRY + NENTRY * k + j) then b else Where(fs, p) {
      if p.DataOf? && p.ino == ino && p.i >= NDIRECT + NENTRY && (p.i - NDIRECT - NENTRY) / NENTRY == k {
        assert Where(fs, DbOf(ino)) != ent;
        EntrySet(fs.disk[ent], j, b, (p.i - NDIRECT - NENTRY) % NENTRY);
      } else {
        EntryFrame(fs, ent, SecOf(ino, k), j, b, p);
      }
    }
  }
}
