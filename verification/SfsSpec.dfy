/**
  What the operations of the file system do, on values: the outcomes of the
  block map operations, transfers, truncation and the end of an inode.
 */
module SfsSpec {
  import opened Bytes
  import opened SfsDisk
  import opened SfsMap
  import opened SfsGrow
  import opened SfsShrink
  import opened SfsFile

  // The results of the operations: 0, -E_NO_MEM and -E_INVAL.
  datatype Ret = Done | NoMem | Inval

  // What sfs_bmap_get_sub_nolock does with the index block `ent`.
  ghost predicate SubOutcome(fs: Fs, fs': Fs, ent: nat, k: nat, create: bool, ok: bool, ent': nat, b: nat)
    requires k < NENTRY && Shape(fs) && (ent != 0 ==> ent in fs.disk)
  {
    if !create || At(fs.disk, ent, k) != 0 then
      ok && fs' == fs && ent' == ent && b == At(fs.disk, ent, k)
    else if ent != 0 then
      && (ok <==> fs.free != {})
      && (ok ==> ent' == ent && b in fs.free && ent in Zeroed(fs, b).disk && fs' == Taken(SetAt(Zeroed(fs, b), ent, k, b), b))
      && (!ok ==> fs' == fs)
    else
      && (ok <==> |fs.free| >= 2)
      && (ok ==> ent' in fs.free && b in fs.free && ent' != b
                 && fs' == Taken(Taken(SetAt(Zeroed(Zeroed(fs, ent'), b), ent', k, b), ent'), b))
      && (!ok ==> fs' == fs || exists e :: e in fs.free && fs' == Zeroed(fs, e))
  }

  lemma ZeroInUse(fs: Fs)
    requires Shape(fs)
    ensures 0 !in fs.free
  {
  }

  // The index block just allocated is all there was: it goes back.
  lemma SubFails(fs: Fs, t: Fs, ent: nat)
    requires Shape(fs) && ent in fs.free && t == Taken(Zeroed(fs, ent), ent) && t.free == {}
    ensures 0 < ent < fs.nblocks && Freed(t, ent) == Zeroed(fs, ent) && |fs.free| == 1
  {
    assert fs.free == {ent};
  }

  // The new block enters the index block.
  lemma SubGets(fs: Fs, t: Fs, ent0: nat, ent: nat, k: nat, b: nat)
    requires Shape(fs) && k < NENTRY && (ent0 != 0 ==> ent == ent0 && ent in fs.disk && ent !in fs.free)
    requires if ent0 != 0 then b in fs.free && t == Taken(Zeroed(fs, b), b)
             else ent in fs.free && b in fs.free - {ent} && t == Taken(Zeroed(Taken(Zeroed(fs, ent), ent), b), b)
    ensures b < 0x1_0000_0000 && ent in t.disk && Shape(SetAt(t, ent, k, b))
    ensures ent0 != 0 ==> SetAt(t, ent, k, b) == Taken(SetAt(Zeroed(fs, b), ent, k, b), b)
    ensures ent0 == 0 ==>
      SetAt(t, ent, k, b) == Taken(Taken(SetAt(Zeroed(Zeroed(fs, ent), b), ent, k, b), ent), b) && |fs.free| >= 2
  {
    hide SetEntry;
    if ent0 == 0 {
      assert {ent, b} <= fs.free;
      assert |fs.free - {ent, b}| == |fs.free| - 2;
    }
  }

  // How many blocks sfs_bmap_get_nolock must allocate to create the index.
  function Missing(fs: Fs, ino: nat, i: nat): nat
    requires ino in fs.dins
  {
    var din := fs.dins[ino];
    if Where(fs, DataOf(ino, i)) != 0 then 0
    else if i < NDIRECT then 1
    else if i < NDIRECT + NENTRY then (if din.indirect == 0 then 2 else 1)
    else if din.db == 0 then 3
    else if At(fs.disk, din.db, (i - NDIRECT - NENTRY) / NENTRY) == 0 then 2
    else 1
  }

  // What sfs_bmap_get_nolock does: at most the block of that one index is new,
  // and it is zeroed; a failure adds no data block.
  ghost predicate GetOutcome(fs: Fs, fs': Fs, ino: nat, i: nat, create: bool, ok: bool, b: nat)
    requires ino in fs.dins
  {
    var o := DataOf(ino, i);
    && Owned(fs') && Grown(fs, fs', o)
    && (!create ==> fs' == fs)
    && (ok <==> !create || |fs.free| >= Missing(fs, ino, i))
    && Where(fs', o) == (if ok then b else 0)
    && (ok && create ==> b != 0)
    && (ok && create && Where(fs, o) == 0 ==> Load(fs', b) == Zeros())
  }

  // A failure to create an index leaves fewer free blocks than it needed.
  lemma Scarce(fs: Fs, fs': Fs, ino: nat, i: nat, create: bool, ok: bool, b: nat)
    requires ino in fs.dins && GetOutcome(fs, fs', ino, i, create, ok, b) && !ok && fs'.free <= fs.free
    ensures |fs'.free| < 3
  {
    hide Where, Load, Owned, Grown, At;
    Subset(fs'.free, fs.free);
  }

  lemma Subset(a: set<nat>, b: set<nat>)
    requires a <= b
    ensures |a| <= |b|
  {
    assert b == a + (b - a);
  }

  lemma GrownSame(fs: Fs, o: Owner)
    ensures Grown(fs, fs, o)
  {
    hide Where, Load;
  }

  lemma IndirectOutcome(fs: Fs, t: Fs, ino: nat, k: nat, create: bool, ok: bool, ent: nat, b: nat)
    requires Owned(fs) && ino in fs.dins && k < NENTRY
    requires (fs.dins[ino].indirect != 0 ==> fs.dins[ino].indirect in fs.disk)
    requires SubOutcome(fs, t, fs.dins[ino].indirect, k, create, ok, ent, b) && ino in t.dins
    ensures GetOutcome(fs, if ok then SetIndirect(t, ino, ent) else t, ino, NDIRECT + k, create, ok, b)
  {
    var o := DataOf(ino, NDIRECT + k);
    var ind := fs.dins[ino].indirect;
    GrownSame(fs, o);
    assert Where(fs, o) == At(fs.disk, ind, k);
    if !create || At(fs.disk, ind, k) != 0 {
      assert SetIndirect(t, ino, ent) == fs;
      hide Where, Load, Owned, Grown, At;
    } else if ind != 0 {
      if ok {
        assert SetIndirect(t, ino, ent) == t;
        GrowIndirect(fs, ino, k, b);
      }
      hide Where, Load, Owned, Grown, At;
    } else if ok {
      GrowIndirectFresh(fs, ino, k, ent, b);
      hide Where, Load, Owned, Grown, At;
    } else {
      if t != fs {
        var e :| e in fs.free && t == Zeroed(fs, e);
        ZeroFree(fs, e, o);
        assert Where(t, o) == 0;
      }
      hide Where, Load, Owned, Grown, At;
    }
  }

  // The first half of the double-indirect path: no data block is added.
  ghost predicate SecondOutcome(fs: Fs, fs': Fs, ino: nat, k: nat, create: bool, ok: bool, b: nat)
    requires ino in fs.dins
  {
    var need := if At(fs.disk, fs.dins[ino].db, k) != 0 then 0 else if fs.dins[ino].db != 0 then 1 else 2;
    && Owned(fs') && Grown(fs, fs', DbOf(ino))
    && (!create ==> fs' == fs)
    && (ok <==> !create || |fs.free| >= need)
    && (ok && create ==> b != 0 && |fs'.free| == |fs.free| - need)
    && (ok ==> Where(fs', SecOf(ino, k)) == b)
  }

  lemma DoubleOutcome(fs: Fs, t: Fs, ino: nat, k: nat, create: bool, ok: bool, ent: nat, b: nat)
    requires Owned(fs) && ino in fs.dins && k < NENTRY && (fs.dins[ino].db != 0 ==> fs.dins[ino].db in fs.disk)
    requires SubOutcome(fs, t, fs.dins[ino].db, k, create, ok, ent, b) && ino in t.dins
    ensures SecondOutcome(fs, if ok then SetDb(t, ino, ent) else t, ino, k, create, ok, b)
  {
    var o := DbOf(ino);
    var db := fs.dins[ino].db;
    GrownSame(fs, o);
    assert Where(fs, SecOf(ino, k)) == At(fs.disk, db, k);
    if !create || At(fs.disk, db, k) != 0 {
      assert SetDb(t, ino, ent) == fs;
      hide Where, Load, Owned, Grown, At;
    } else if db != 0 {
      if ok {
        assert SetDb(t, ino, ent) == t;
        GrowSecond(fs, ino, k, b, o);
      }
      hide Where, Load, Owned, Grown, At;
    } else if ok {
      GrowDbFresh(fs, ino, k, ent, b, o);
      assert t.free == fs.free - {ent} - {b};
      hide Where, Load, Owned, Grown, At;
    } else {
      if t != fs {
        var e :| e in fs.free && t == Zeroed(fs, e);
        ZeroFree(fs, e, o);
      }
      hide Where, Load, Owned, Grown, At;
    }
  }

  lemma SecondEntryOutcome(fs: Fs, t: Fs, ino: nat, k: nat, j: nat, create: bool, ok: bool, ent: nat, b: nat)
    requires Owned(fs) && ino in fs.dins && k < NENTRY && j < NENTRY
    requires Where(fs, SecOf(ino, k)) != 0 && Where(fs, SecOf(ino, k)) in fs.disk
    requires SubOutcome(fs, t, Where(fs, SecOf(ino, k)), j, create, ok, ent, b)
    ensures GetOutcome(fs, t, ino, NDIRECT + NENTRY + NENTRY * k + j, create, ok, b)
  {
    var o := DataOf(ino, NDIRECT + NENTRY + NENTRY * k + j);
    var sec := Where(fs, SecOf(ino, k));
    GrownSame(fs, o);
    assert (NENTRY * k + j) / NENTRY == k && (NENTRY * k + j) % NENTRY == j;
    assert Where(fs, o) == At(fs.disk, sec, j);
    assert sec == At(fs.disk, fs.dins[ino].db, k);
    assert fs.dins[ino].db != 0;
    if !create || At(fs.disk, sec, j) != 0 {
      hide Where, Load, Owned, Grown, At;
    } else {
      if ok { GrowSecondEntry(fs, ino, k, j, b); }
      hide Where, Load, Owned, Grown, At;
    }
  }

  // An addition that brings no data block may be read as one for any index.
  lemma GrownAny(fs: Fs, t: Fs, ino: nat, o: Owner)
    requires Grown(fs, t, DbOf(ino))
    ensures Grown(fs, t, o)
  {
    hide Where, Load;
  }

  lemma SecondWhere(fs: Fs, t: Fs, ino: nat, k: nat, create: bool, b: nat)
    requires ino in fs.dins && SecondOutcome(fs, t, ino, k, create, true, b)
    ensures Owned(t) && Where(t, SecOf(ino, k)) == b && ino in t.dins
  {
    hide Where, Load, Owned;
  }

  // A block that has an owner is a block of the disk and not free.
  lemma InUse(fs: Fs, o: Owner)
    requires Owned(fs)
    ensures Where(fs, o) != 0 ==> Where(fs, o) in fs.disk && Where(fs, o) !in fs.free
  {
    hide Where;
  }

  lemma DirectWhere(fs: Fs, ino: nat, i: nat)
    requires ino in fs.dins && i < |fs.dins[ino].direct| && i < NDIRECT
    ensures Where(fs, DataOf(ino, i)) == fs.dins[ino].direct[i]
  {
  }

  lemma IndexInUse(fs: Fs, ino: nat)
    requires Owned(fs) && ino in fs.dins
    ensures var e := fs.dins[ino].indirect; e != 0 ==> e in fs.disk && e !in fs.free
    ensures var e := fs.dins[ino].db; e != 0 ==> e in fs.disk && e !in fs.free
  {
    InUse(fs, IndOf(ino));
    InUse(fs, DbOf(ino));
  }

  lemma GetShape(fs: Fs, fs': Fs, ino: nat, i: nat, create: bool, ok: bool, b: nat)
    requires ino in fs.dins && GetOutcome(fs, fs', ino, i, create, ok, b)
    ensures Shape(fs')
  {
    hide Where, Load, Grown;
  }

  lemma SecondShape(fs: Fs, fs': Fs, ino: nat, k: nat, create: bool, ok: bool, b: nat)
    requires ino in fs.dins && SecondOutcome(fs, fs', ino, k, create, ok, b)
    ensures Shape(fs')
  {
    hide Where, Load, Grown;
  }

  // The two halves of the double-indirect path together.
  lemma DoubleCompose(fs: Fs, t: Fs, u: Fs, ino: nat, k: nat, j: nat, create: bool, ent: nat, ok: bool, b: nat)
    requires Owned(fs) && ino in fs.dins && k < NENTRY && j < NENTRY && ino in t.dins
    requires SecondOutcome(fs, t, ino, k, create, true, ent) && ent != 0
    requires GetOutcome(t, u, ino, NDIRECT + NENTRY + NENTRY * k + j, create, ok, b)
    ensures GetOutcome(fs, u, ino, NDIRECT + NENTRY + NENTRY * k + j, create, ok, b)
  {
    var i := NDIRECT + NENTRY + NENTRY * k + j;
    var o := DataOf(ino, i);
    assert (NENTRY * k + j) / NENTRY == k && (NENTRY * k + j) % NENTRY == j;
    assert Where(t, SecOf(ino, k)) == At(t.disk, t.dins[ino].db, k) == ent;
    assert Where(fs, o) != 0 ==> At(fs.disk, fs.dins[ino].db, k) != 0;
    assert Where(t, o) == Where(fs, o);
    assert t.dins[ino].db != 0;
    assert At(fs.disk, fs.dins[ino].db, k) != 0 ==> fs.dins[ino].db != 0;
    hide Where, Load, At, Owned;
    GrownAny(fs, t, ino, o);
    hide Grown;
    GrownTrans(fs, t, u, o);
  }

  // Without the second-level block there is no data block.
  lemma DoubleNone(fs: Fs, t: Fs, ino: nat, k: nat, j: nat, create: bool, ok: bool, b: nat)
    requires Owned(fs) && ino in fs.dins && k < NENTRY && j < NENTRY && SecondOutcome(fs, t, ino, k, create, ok, b)
    requires (ok ==> b == 0)
    ensures GetOutcome(fs, t, ino, NDIRECT + NENTRY + NENTRY * k + j, create, ok, 0)
  {
    var o := DataOf(ino, NDIRECT + NENTRY + NENTRY * k + j);
    assert (NENTRY * k + j) / NENTRY == k && (NENTRY * k + j) % NENTRY == j;
    assert At(fs.disk, fs.dins[ino].db, k) == 0 by { if ok && !create { assert Where(fs, SecOf(ino, k)) == 0; } }
    assert Where(fs, o) == 0;
    assert Where(t, o) == 0;
    hide Where, Load, At, Owned;
    GrownAny(fs, t, ino, o);
  }

  // What sfs_bmap_free_nolock does.
  ghost predicate FreeOutcome(fs: Fs, fs': Fs, ino: nat, i: nat) {
    var o := DataOf(ino, i);
    && Owned(fs')
    && if Where(fs, o) == 0 then fs' == fs
       else Shrunk(fs, fs', o) && fs'.free == fs.free + {Where(fs, o)}
  }

  lemma FreeDirectOutcome(fs: Fs, ino: nat, i: nat)
    requires Owned(fs) && ino in fs.dins && i < NDIRECT
    ensures var b := fs.dins[ino].direct[i];
      if b == 0 then FreeOutcome(fs, fs, ino, i)
      else b in fs.disk && b < fs.nblocks && b !in fs.free && FreeOutcome(fs, Freed(SetDirect(fs, ino, i, 0), b), ino, i)
  {
    assert Where(fs, DataOf(ino, i)) == fs.dins[ino].direct[i];
    InUse(fs, DataOf(ino, i));
    if fs.dins[ino].direct[i] != 0 { UnlinkDirect(fs, ino, i); }
    hide Where, Load, Shrunk;
  }

  lemma FreeIndirectOutcome(fs: Fs, ino: nat, k: nat)
    requires Owned(fs) && ino in fs.dins && k < NENTRY
    ensures var ent := fs.dins[ino].indirect; var b := At(fs.disk, ent, k);
      && (ent != 0 ==> ent in fs.disk && ent !in fs.free)
      && (b != 0 ==> ent != 0 && b in fs.disk && b !in fs.free)
      && if b == 0 then FreeOutcome(fs, fs, ino, NDIRECT + k)
         else FreeOutcome(fs, Freed(SetAt(fs, ent, k, 0), b), ino, NDIRECT + k)
  {
    var o := DataOf(ino, NDIRECT + k);
    var ent := fs.dins[ino].indirect;
    assert Where(fs, o) == At(fs.disk, ent, k) && Where(fs, IndOf(ino)) == ent;
    InUse(fs, o);
    InUse(fs, IndOf(ino));
    if At(fs.disk, ent, k) != 0 { UnlinkIndirectEntry(fs, ino, k); }
    hide Where, Load, Shrunk, SetEntry;
  }

  lemma FreeSecondOutcome(fs: Fs, ino: nat, k: nat, j: nat)
    requires Owned(fs) && ino in fs.dins && k < NENTRY && j < NENTRY
    ensures var db := fs.dins[ino].db; var ent := At(fs.disk, db, k); var b := At(fs.disk, ent, j); var i := NDIRECT + NENTRY + NENTRY * k + j;
      
      && (db != 0 ==> db in fs.disk)
      && (ent != 0 ==> db != 0 && ent in fs.disk && ent !in fs.free)
      && (b != 0 ==> ent != 0 && b in fs.disk && b !in fs.free)
      && if b == 0 then FreeOutcome(fs, fs, ino, i)
         else FreeOutcome(fs, Freed(SetAt(fs, ent, j, 0), b), ino, i)
  {
    var o := DataOf(ino, NDIRECT + NENTRY + NENTRY * k + j);
    var ent := At(fs.disk, fs.dins[ino].db, k);
    assert (NENTRY * k + j) / NENTRY == k && (NENTRY * k + j) % NENTRY == j;
    assert Where(fs, o) == At(fs.disk, ent, j);
    assert Where(fs, SecOf(ino, k)) == ent && Where(fs, DbOf(ino)) == fs.dins[ino].db;
    InUse(fs, o);
    InUse(fs, SecOf(ino, k));
    InUse(fs, DbOf(ino));
    if At(fs.disk, ent, j) != 0 { UnlinkSecondEntry(fs, ino, k, j); }
    hide Where, Load, Shrunk, SetEntry;
  }

  // One zeroed block more.
  function Extended(v: map<nat, File>, ino: nat): map<nat, File> {
    if ino in v then v[ino := v[ino].(data := v[ino].data + [Zeros()])] else v
  }

  lemma LoadFacts(fs: Fs, ino: nat, i: nat)
    requires Inv(fs) && ino in fs.dins && i <= fs.dins[ino].blocks && i < MAX_INDEX
    ensures Owned(fs) && (Where(fs, DataOf(ino, i)) != 0 <==> i < fs.dins[ino].blocks)
  {
    hide Where;
    assert DenseAt(fs, ino);
  }

  lemma GrownKeys(fs: Fs, t: Fs, ino: nat, i: nat)
    requires Grown(fs, t, DataOf(ino, i)) && ino in fs.dins
    ensures ino in t.dins && t.dins[ino].blocks == fs.dins[ino].blocks && t.dins[ino].size == fs.dins[ino].size
  {
    hide Where, Load;
  }

  lemma LoadExtends(fs: Fs, t: Fs, ino: nat)
    requires Inv(fs) && Owned(t) && ino in fs.dins && fs.dins[ino].blocks < MAX_INDEX
    requires Grown(fs, t, DataOf(ino, fs.dins[ino].blocks)) && ino in t.dins
    requires Where(t, DataOf(ino, fs.dins[ino].blocks)) != 0
    requires Load(t, Where(t, DataOf(ino, fs.dins[ino].blocks))) == Zeros()
    ensures var n := fs.dins[ino].blocks; var fs' := SetBlocks(t, ino, n + 1);
      Inv(fs') && View(fs') == Extended(View(fs), ino) && Shape(fs')
          && Where(fs', DataOf(ino, n)) == Where(t, DataOf(ino, n))
  {
    ExtendOk(fs, t, ino, Zeros());
    SetBlocksSame(t, ino, fs.dins[ino].blocks + 1);
    hide Where, Load, Grown;
  }

  // One block less.
  function Cut(v: map<nat, File>, ino: nat): map<nat, File> {
    if ino in v && v[ino].data != [] then v[ino := v[ino].(data := v[ino].data[..|v[ino].data| - 1])] else v
  }

  // The last data block of `ino` has gone and no other owner moved.
  ghost predicate Shrunken(fs: Fs, fs': Fs, ino: nat) {
    && ino in fs.dins && fs'.dins.Keys == fs.dins.Keys && fs.dins[ino].blocks > 0
    && fs'.dins[ino].blocks == fs.dins[ino].blocks - 1
    && Moved(fs, fs', DataOf(ino, fs.dins[ino].blocks - 1), 0)
  }

  lemma LastFacts(fs: Fs, ino: nat)
    requires Inv(fs) && ino in fs.dins && fs.dins[ino].blocks > 0
    ensures Owned(fs) && fs.dins[ino].blocks <= MAX_INDEX && Where(fs, DataOf(ino, fs.dins[ino].blocks - 1)) != 0
  {
    hide Where;
    assert DenseAt(fs, ino);
  }

  lemma TruncateFacts(fs: Fs, t: Fs, ino: nat)
    requires Inv(fs) && ino in fs.dins && fs.dins[ino].blocks > 0 && FreeOutcome(fs, t, ino, fs.dins[ino].blocks - 1)
    ensures ino in t.dins && t.dins[ino].blocks == fs.dins[ino].blocks
    ensures var n := fs.dins[ino].blocks - 1; var fs' := SetBlocks(t, ino, n);
      Inv(fs') && Shape(fs') && View(fs') == Cut(View(fs), ino) && Shrunken(fs, fs', ino)
          && fs'.free == fs.free + {Where(fs, DataOf(ino, n))}
  {
    LastFacts(fs, ino);
    var n := fs.dins[ino].blocks - 1;
    SetBlocksSame(t, ino, n) by { hide Where, Load; }
    hide Where, Load;
    TruncateOk(fs, t, ino);
  }

  // ------------------------------------------------------------ transfers

  // `chunk` written into block `i`, which may be the one after the last.
  function Put(v: map<nat, File>, ino: nat, i: nat, off: nat, chunk: seq<byte>): map<nat, File>
    requires ino in v && i <= |v[ino].data| && off + |chunk| <= BLKSIZE
  {
    var data := if i == |v[ino].data| then v[ino].data + [Zeros()] else v[ino].data;
    v[ino := v[ino].(data := data[i := Splice(data[i], off, chunk)])]
  }

  lemma PieceFacts(fs: Fs, ino: nat, i: nat)
    requires Inv(fs) && ino in fs.dins && i < fs.dins[ino].blocks
    ensures var b := Where(fs, DataOf(ino, i)); b in fs.disk && fs.disk[b] == View(fs)[ino].data[i]
  {
    assert DenseAt(fs, ino);
    InUse(fs, DataOf(ino, i));
    hide Where;
  }

  lemma PieceWrites(v: map<nat, File>, fs: Fs, ino: nat, i: nat, b: nat, off: nat, chunk: seq<byte>)
    requires Inv(fs) && ino in fs.dins && i < fs.dins[ino].blocks && off + |chunk| <= BLKSIZE
    requires b == Where(fs, DataOf(ino, i)) && b in fs.disk
    requires ino in v && i <= |v[ino].data| && View(fs) == if i == |v[ino].data| then Extended(v, ino) else v
    ensures var fs' := Written(fs, b, Splice(fs.disk[b], off, chunk));
      Inv(fs') && Shape(fs') && View(fs') == Put(v, ino, i, off, chunk)
  {
    PieceFacts(fs, ino, i);
    WriteOk(fs, ino, i, Splice(View(fs)[ino].data[i], off, chunk));
    hide Where, View;
  }

  lemma ViewAt(fs: Fs, ino: nat)
    requires ino in fs.dins
    ensures ino in View(fs) && View(fs)[ino].size == fs.dins[ino].size && |View(fs)[ino].data| == fs.dins[ino].blocks
  {
  }

  // off_t arithmetic: 32 bits, signed.
  function Wrap32(x: int): int {
    var m := x % 0x1_0000_0000;
    if m >= 0x8000_0000 then m - 0x1_0000_0000 else m
  }

  // The test `offset > endpos` catches exactly the transfers that overflow.
  lemma WrapTest(offset: int, len: nat)
    requires 0 <= offset < MAX_FILE_SIZE && len < 0x1_0000_0000
    ensures offset > Wrap32(offset + len) <==> offset + len >= 0x8000_0000
    ensures offset + len < 0x8000_0000 ==> Wrap32(offset + len) == offset + len
  {
  }

  function Min(x: int, y: int): int { if x < y then x else y }

  // The part of `s` between the two positions.
  function Slice(s: seq<byte>, from: nat, to: nat): seq<byte> {
    if from >= |s| then [] else if to >= |s| then s[from..] else if from > to then [] else s[from..to]
  }

  // `s` with `t` written at `p`, longer if need be.
  function Overwrite(s: seq<byte>, p: nat, t: seq<byte>): seq<byte>
    requires p <= |s|
  {
    s[..p] + t + (if p + |t| < |s| then s[p + |t|..] else [])
  }

  // The state of a transfer after `n` bytes.
  ghost predicate IoAt(v0: map<nat, File>, v: map<nat, File>, ino: nat, offset: nat, buf: seq<byte>, n: nat,
                       out: seq<byte>, write: bool) {
    && ino in v0 && ino in v && Backed(v0[ino])
    && if write then n <= |buf| && v == v0[ino := v0[ino].(data := v[ino].data)] && Wrote(v0[ino].data, v[ino].data, offset, buf, n)
       else v == v0 && offset + n <= v0[ino].size && out == Content(v0[ino])[offset..offset + n]
  }

  lemma StartFacts(v: map<nat, File>, ino: nat, offset: nat, buf: seq<byte>, write: bool)
    requires ino in v && Backed(v[ino]) && (if write then offset / BLKSIZE <= |v[ino].data| else offset <= v[ino].size)
    ensures IoAt(v, v, ino, offset, buf, 0, [], write)
  {
    if write { WroteNothing(v[ino].data, offset, buf); }
    assert v == v[ino := v[ino].(data := v[ino].data)];
  }

  // The block of the next piece is mapped, or, for a write, the next one.
  lemma StepFacts(v0: map<nat, File>, v: map<nat, File>, ino: nat, offset: nat, buf: seq<byte>, n: nat, out: seq<byte>,
                  write: bool, i: nat, off: nat, size: nat)
    requires IoAt(v0, v, ino, offset, buf, n, out, write) && offset + n == i * BLKSIZE + off && 0 < size
    requires off + size <= BLKSIZE
    requires !write ==> offset + n + size <= v0[ino].size
    ensures if write then i <= |v[ino].data| else i < |v[ino].data|
  {
    hide Flat;
  }

  lemma StepMore(v0: map<nat, File>, v: map<nat, File>, v': map<nat, File>, ino: nat, offset: nat, buf: seq<byte>,
                 n: nat, out: seq<byte>, write: bool,
                 i: nat, off: nat, size: nat, got: seq<byte>)
    requires IoAt(v0, v, ino, offset, buf, n, out, write) && offset + n == i * BLKSIZE + off && 0 < size
    requires off + size <= BLKSIZE
    requires if write then n + size <= |buf| && i <= |v[ino].data| && v' == Put(v, ino, i, off, buf[n..n + size])
             else offset + n + size <= v0[ino].size && v' == v && i < |v[ino].data| && got == v[ino].data[i][off..off + size]
    ensures IoAt(v0, v', ino, offset, buf, n + size, out + got, write)
  {
    if write {
      var d := v[ino].data;
      hide Wrote;
      if i == |d| {
        WroteExtend(v0[ino].data, d, offset, buf, n);
        WroteMore(v0[ino].data, d + [Zeros()], offset, buf, n, i, off, size);
      } else {
        WroteMore(v0[ino].data, d, offset, buf, n, i, off, size);
      }
    } else {
      var f := v0[ino];
      forall j: nat | j < size ensures Content(f)[offset + n + j] == got[j] {
        assert (i * BLKSIZE + (off + j)) / BLKSIZE == i && (i * BLKSIZE + (off + j)) % BLKSIZE == off + j;
      }
      assert out + got == Content(f)[offset..offset + n + size];
    }
  }

  // The file's bytes with buf[..n] written at `offset`; no other file changes.
  ghost predicate Rewritten(v0: map<nat, File>, v: map<nat, File>, ino: nat, offset: nat, buf: seq<byte>, n: nat) {
    && ino in v0 && ino in v && Backed(v0[ino]) && Backed(v[ino]) && n <= |buf| && offset <= v0[ino].size
    && Content(v[ino]) == Overwrite(Content(v0[ino]), offset, buf[..n])
    && v == v0[ino := v[ino]]
  }

  lemma NothingIo(v: map<nat, File>, ino: nat, offset: nat, buf: seq<byte>)
    requires ino in v && Backed(v[ino]) && offset <= v[ino].size
    ensures Rewritten(v, v, ino, offset, buf, 0)
  {
    assert Content(v[ino]) == Overwrite(Content(v[ino]), offset, buf[..0]);
  }

  // The blocks hold buf[..n] at `offset`, all other bytes of them are as they
  // were or, in new blocks, zero, and the size covers offset + n.
  ghost predicate Filled(v0: map<nat, File>, v: map<nat, File>, ino: nat, offset: nat, buf: seq<byte>, n: nat) {
    && ino in v0 && ino in v && n <= |buf| && Wrote(v0[ino].data, v[ino].data, offset, buf, n)
    && v == v0[ino := File(Max(v0[ino].size, offset + n), v[ino].data)]
  }

  function Max(x: int, y: int): int { if x < y then y else x }

  lemma FinishFacts(v0: map<nat, File>, v: map<nat, File>, ino: nat, offset: nat, buf: seq<byte>, n: nat,
                    out: seq<byte>, write: bool)
    requires IoAt(v0, v, ino, offset, buf, n, out, write)
    ensures v[ino].size == v0[ino].size
    ensures !write ==> offset + n <= v0[ino].size && v == v0 && out == Content(v0[ino])[offset..offset + n]
    ensures write ==>
      Filled(v0, if v[ino].size < offset + n then v[ino := v[ino].(size := offset + n)] else v, ino, offset, buf, n)
  {
    hide Wrote, Content;
  }

  // A write that starts inside or right behind the file, on its bytes.
  lemma FilledContent(v0: map<nat, File>, v: map<nat, File>, ino: nat, offset: nat, buf: seq<byte>, n: nat)
    requires Filled(v0, v, ino, offset, buf, n) && Backed(v0[ino]) && offset <= v0[ino].size
    ensures Rewritten(v0, v, ino, offset, buf, n)
  {
    hide Wrote, Content;
    WroteContent(v0[ino], v[ino].data, offset, buf, n);
    assert v[ino] == File(if v0[ino].size < offset + n then offset + n else v0[ino].size, v[ino].data);
  }

  // The blocks reach the new size, unless a write behind the last block found
  // no room for its first byte.
  lemma FilledBacked(v0: map<nat, File>, v: map<nat, File>, ino: nat, offset: nat, buf: seq<byte>, n: nat)
    requires Filled(v0, v, ino, offset, buf, n) && Backed(v0[ino]) && (n == 0 ==> v[ino].data == v0[ino].data)
    ensures Backed(v[ino]) <==> n > 0 || offset <= |v0[ino].data| * BLKSIZE
  {
    hide Flat;
  }

  // The size never shrinks.
  function Resized(fs: Fs, ino: nat, n: nat): Fs
    requires ino in fs.dins
  {
    if n > fs.dins[ino].size then SetSize(fs, ino, n) else fs
  }

  lemma FinishSized(v0: map<nat, File>, fs: Fs, ino: nat, offset: nat, buf: seq<byte>, n: nat, out: seq<byte>,
                    write: bool)
    requires Inv(fs) && ino in fs.dins && IoAt(v0, View(fs), ino, offset, buf, n, out, write)
    ensures var fs' := Resized(fs, ino, offset + n);
      && Inv(fs') && Shape(fs') && Backed(v0[ino])
      && (!write ==> fs' == fs && View(fs) == v0 && offset + n <= v0[ino].size && out == Content(v0[ino])[offset..offset + n])
      && (write ==> Filled(v0, View(fs'), ino, offset, buf, n) && View(fs')[ino].data == View(fs)[ino].data)
  {
    ViewAt(fs, ino);
    FinishFacts(v0, View(fs), ino, offset, buf, n, out, write);
    SetSizeOk(fs, ino, offset + n);
    hide Where, View, IoAt, Content, Overwrite;
  }

  // ------------------------------------------------------------ inodes

  function RoundUpDiv(len: nat): nat { (len + BLKSIZE - 1) / BLKSIZE }

  // `data` cut, or extended by zeroed blocks, to `n` blocks.
  function Fit(data: seq<Block>, n: nat): (r: seq<Block>)
    ensures |r| == n
  {
    if n <= |data| then data[..n] else data + seq(n - |data|, _ => Zeros())
  }

  // The file `ino` with `n` blocks.
  function Fitted(v: map<nat, File>, ino: nat, n: nat): map<nat, File>
    requires ino in v
  {
    v[ino := v[ino].(data := Fit(v[ino].data, n))]
  }

  lemma FitSame(v: map<nat, File>, ino: nat)
    requires ino in v
    ensures Fitted(v, ino, |v[ino].data|) == v
  {
    assert Fit(v[ino].data, |v[ino].data|) == v[ino].data;
  }

  lemma FitUnchanged(v: map<nat, File>, ino: nat)
    requires ino in v
    ensures v[ino := File(v[ino].size, Fit(v[ino].data, |v[ino].data|))] == v
  {
    assert Fit(v[ino].data, |v[ino].data|) == v[ino].data;
  }

  lemma FitMore(v: map<nat, File>, ino: nat, n: nat)
    requires ino in v && n >= |v[ino].data|
    ensures Extended(Fitted(v, ino, n), ino) == Fitted(v, ino, n + 1)
  {
    assert Fit(v[ino].data, n) + [Zeros()] == Fit(v[ino].data, n + 1);
  }

  lemma FitLess(v: map<nat, File>, ino: nat, n: nat)
    requires ino in v && 0 < n <= |v[ino].data|
    ensures Cut(Fitted(v, ino, n), ino) == Fitted(v, ino, n - 1)
  {
    assert Fit(v[ino].data, n)[..n - 1] == Fit(v[ino].data, n - 1);
  }

  lemma FittedAt(v: map<nat, File>, ino: nat, n: nat)
    requires ino in v
    ensures |Fitted(v, ino, n)[ino].data| == n
  {
  }

  lemma FittedSize(v: map<nat, File>, ino: nat, n: nat, len: nat)
    requires ino in v
    ensures Fitted(v, ino, n)[ino := Fitted(v, ino, n)[ino].(size := len)] == v[ino := File(len, Fit(v[ino].data, n))]
  {
  }

  lemma SetSizeShape(fs: Fs, ino: nat, n: nat)
    requires Shape(fs) && ino in fs.dins
    ensures Shape(SetSize(fs, ino, n))
  {
  }

  // Bytes that survive a truncation or an extension.
  lemma FitContent(f: File, len: nat, p: nat)
    requires Backed(f) && p < f.size && p < len
    ensures var f' := File(len, Fit(f.data, RoundUpDiv(len))); Backed(f') && Content(f')[p] == Content(f)[p]
  {
  }

  function WithInode(fs: Fs, ino: nat): Fs { Taken(Zeroed(fs, ino), ino).(dins := fs.dins[ino := NewDin()]) }

  lemma NewInodeOk(fs: Fs, ino: nat)
    requires Inv(fs) && ino in fs.free
    ensures Inv(Zeroed(fs, ino)) && View(Zeroed(fs, ino)) == View(fs)
    ensures ino !in fs.dins && Inv(WithInode(fs, ino)) && View(WithInode(fs, ino)) == View(fs)[ino := File(0, [])]
    ensures Shape(WithInode(fs, ino))
  {
    hide Where, Load, View, Dense, Owned;
    var z := Zeroed(fs, ino);
    var t := WithInode(fs, ino);
    ZeroFree(fs, ino, InodeOf(ino));
    AddInode(z, ino);
    assert t == Taken(z.(dins := z.dins[ino := NewDin()]), ino);
    NewWhere(z, t, ino);
    ZeroKept(fs, z, ino);
    StillAll(fs, z);
    StillAll(z, t) by { assert DataKept(z, t) by { LoadSame(z, t); } }
    NewEmpty(fs, t, ino);
    assert Shape(t) by { InShape(t); }
  }

  // A new inode moves no other owner, and owns nothing but its block.
  lemma NewWhere(z: Fs, t: Fs, ino: nat)
    requires ino !in z.dins && t == Taken(z.(dins := z.dins[ino := NewDin()]), ino)
    ensures forall o: Owner {:trigger Where(t, o)} :: o.DataOf? ==>
      Where(t, o) == if o.ino == ino then 0 else Where(z, o)
  {
  }

  lemma ZeroKept(fs: Fs, z: Fs, ino: nat)
    requires Grown(fs, z, InodeOf(ino)) && SameOwners(fs, z)
    ensures DataKept(fs, z) && forall o: Owner {:trigger Where(z, o)} :: o.DataOf? ==> Where(z, o) == Where(fs, o)
  {
    hide Where, Load;
  }

  // The files of `fs` are in `t` as they were.
  lemma StillAll(fs: Fs, t: Fs)
    requires Dense(fs) && DataKept(fs, t) && (forall j :: j in fs.dins ==> j in t.dins && t.dins[j] == fs.dins[j])
    requires forall o: Owner {:trigger Where(t, o)} :: o.DataOf? && o.ino in fs.dins ==> Where(t, o) == Where(fs, o)
    ensures forall j :: j in fs.dins ==> DenseAt(t, j) && FileOf(t, j) == FileOf(fs, j)
    ensures t.dins.Keys == fs.dins.Keys ==> Dense(t) && View(t) == View(fs)
  {
    hide Where, Load;
    forall j | j in fs.dins ensures DenseAt(t, j) && FileOf(t, j) == FileOf(fs, j) {
      assert DenseAt(fs, j);
      assert Still(fs, t, j, fs.dins[j].blocks);
      StillData(fs, t, j, fs.dins[j].blocks);
      assert FileOf(fs, j).data[..fs.dins[j].blocks] == FileOf(fs, j).data;
    }
  }

  lemma NewEmpty(fs: Fs, t: Fs, ino: nat)
    requires t.dins == fs.dins[ino := NewDin()] && ino !in fs.dins
    requires (forall j :: j in fs.dins ==> DenseAt(t, j) && FileOf(t, j) == FileOf(fs, j))
    requires forall o: Owner {:trigger Where(t, o)} :: o.DataOf? && o.ino == ino ==> Where(t, o) == 0
    ensures Dense(t) && View(t) == View(fs)[ino := File(0, [])]
  {
    hide Where, Load;
    assert DenseAt(t, ino);
    assert FileOf(t, ino).data == [];
  }

  lemma InShape(t: Fs)
    requires Owned(t)
    ensures Shape(t)
  {
  }

  // The owners that belong to an inode.
  predicate Of(o: Owner, ino: nat) { !o.Reserved? && o.ino == ino }

  // `free` has gained exactly the footprint of the inode.
  ghost predicate Returned(fs0: Fs, free: set<nat>, ino: nat) {
    forall b :: b in free <==> b in fs0.free || (b != 0 && exists o :: Of(o, ino) && Where(fs0, o) == b)
  }

  // `ino` is being torn down: everything else is as it was in `fs0`.
  ghost predicate Tearing(fs0: Fs, g: Fs, ino: nat) {
    && Inv(fs0) && g.nblocks == fs0.nblocks && ino in fs0.dins && ino in g.dins
    && (forall p :: !Of(p, ino) ==> Where(g, p) == Where(fs0, p))
    && View(g) - {ino} == View(fs0) - {ino}
  }

  lemma TearingStart(fs: Fs, ino: nat)
    requires Inv(fs) && ino in fs.dins
    ensures Tearing(fs, fs, ino)
  {
  }

  lemma ShrunkenBlocks(fs: Fs, fs': Fs, ino: nat)
    requires Shrunken(fs, fs', ino)
    ensures ino in fs.dins && ino in fs'.dins && fs'.dins[ino].blocks == fs.dins[ino].blocks - 1
  {
  }

  lemma TearingCut(fs0: Fs, g: Fs, g': Fs, ino: nat)
    requires Tearing(fs0, g, ino) && Shrunken(g, g', ino) && g'.nblocks == g.nblocks && View(g') == Cut(View(g), ino)
    ensures Tearing(fs0, g', ino)
  {
    hide Where, View;
    assert Cut(View(g), ino) - {ino} == View(g) - {ino};
    forall p | !Of(p, ino) ensures Where(g', p) == Where(fs0, p) { assert Where(g, p) == Where(fs0, p); }
  }

  // Giving up an index block changes no file.
  lemma ShrunkTearing(fs0: Fs, g: Fs, g': Fs, o: Owner, ino: nat)
    requires Inv(g) && Tearing(fs0, g, ino) && Owned(g') && Shrunk(g, g', o) && Of(o, ino) && !o.DataOf? && !o.InodeOf?
    ensures Inv(g') && Tearing(fs0, g', ino)
  {
    hide Where, Load;
    forall j | j in g.dins ensures DenseAt(g', j) { assert DenseAt(g, j); }
    forall j | j in g.dins ensures FileOf(g', j) == FileOf(g, j) {
      assert DenseAt(g, j);
      assert Still(g, g', j, g.dins[j].blocks);
      StillData(g, g', j, g.dins[j].blocks);
      assert FileOf(g, j).data[..g.dins[j].blocks] == FileOf(g, j).data;
    }
    assert View(g') == View(g);
    forall p | !Of(p, ino) ensures Where(g', p) == Where(fs0, p) { assert Where(g, p) == Where(fs0, p); }
  }

  // The blocks of the inode itself and of its index blocks are in use.
  lemma TearingInUse(g: Fs, ino: nat)
    requires Inv(g) && ino in g.dins && ino != 0
    ensures 0 < ino < g.nblocks && ino !in g.free
    ensures var e := g.dins[ino].indirect; e != 0 ==> 0 < e < g.nblocks && e !in g.free && e != ino
    ensures var e := g.dins[ino].db; e != 0 ==> 0 < e < g.nblocks && e !in g.free && e != ino && e in g.disk
  {
    assert Where(g, InodeOf(ino)) == ino;
    assert Where(g, IndOf(ino)) == g.dins[ino].indirect && Where(g, DbOf(ino)) == g.dins[ino].db;
    hide Where;
  }

  lemma NoBlocksNoData(g: Fs, ino: nat)
    requires Inv(g) && ino in g.dins && g.dins[ino].blocks == 0
    ensures NoData(g, ino)
  {
    hide Where;
    assert DenseAt(g, ino);
  }

  // `g` is `fs` but for the inode `ino`, whose own block `g` has in use and
  // whose index blocks it may have given up.
  ghost predicate Behind(g: Fs, fs: Fs, ino: nat) {
    && g.nblocks == fs.nblocks && g.firstFree == fs.firstFree && g.disk == fs.disk && ino in fs.free
    && g.free == fs.free - {ino}
    && ino in fs.dins && ino in g.dins && g.dins == fs.dins[ino := g.dins[ino]]
    && g.dins[ino].indirect == 0 && (g.dins[ino].db == 0 || g.dins[ino].db == fs.dins[ino].db)
    && g.dins[ino].blocks == fs.dins[ino].blocks
  }

  // Without the indirect block.
  function NoIndirect(g: Fs, ino: nat): Fs
    requires ino in g.dins
  {
    if g.dins[ino].indirect == 0 then g else Freed(SetIndirect(g, ino, 0), g.dins[ino].indirect)
  }

  lemma TearingIndirect(fs0: Fs, g: Fs, ino: nat)
    requires Inv(g) && Tearing(fs0, g, ino) && ino in g.dins && g.dins[ino].blocks == 0
    ensures Inv(NoIndirect(g, ino)) && Tearing(fs0, NoIndirect(g, ino), ino) && Shape(NoIndirect(g, ino))
  {
    if g.dins[ino].indirect != 0 {
      hide Where, Load, Tearing;
      NoBlocksNoData(g, ino);
      UnlinkIndirect(g, ino);
      ShrunkTearing(fs0, g, NoIndirect(g, ino), IndOf(ino), ino);
    }
  }

  lemma BehindFacts(g: Fs, fs: Fs, ino: nat)
    requires Behind(g, fs, ino)
    ensures ino in g.dins && ino in fs.dins && g.dins[ino].blocks == fs.dins[ino].blocks
    ensures g.disk == fs.disk && g.nblocks == fs.nblocks && fs.free == g.free + {ino}
  {
  }

  lemma BehindStart(g: Fs, ino: nat)
    requires ino in g.dins && ino !in g.free && g.dins[ino].indirect != ino
    ensures var fs := Freed(g, ino); var e := g.dins[ino].indirect;
      Behind(NoIndirect(g, ino), if e == 0 then fs else Freed(fs, e), ino)
    ensures ino in NoIndirect(g, ino).dins && NoIndirect(g, ino).dins[ino].db == g.dins[ino].db
  {
  }

  lemma BehindEnd(g: Fs, fs: Fs, ino: nat)
    requires Behind(g, fs, ino)
    ensures fs.(dins := fs.dins - {ino}) == Freed(g.(dins := g.dins - {ino}), ino)
    ensures ino in g.dins && ino in fs.dins && g.dins[ino].blocks == fs.dins[ino].blocks && g.dins[ino].indirect == 0
  {
    assert fs.free == g.free + {ino};
  }

  // Without the second-level block number `k`.
  function NoSecond(g: Fs, ino: nat, k: nat): Fs
    requires ino in g.dins && g.dins[ino].db in g.disk && k < NENTRY
  {
    var b := At(g.disk, g.dins[ino].db, k);
    if b == 0 then g else Freed(SetAt(g, g.dins[ino].db, k, 0), b)
  }

  lemma TearingSecond(fs0: Fs, g: Fs, ino: nat, k: nat)
    requires Inv(g) && Tearing(fs0, g, ino) && ino in g.dins && g.dins[ino].blocks == 0 && g.dins[ino].db in g.disk
    requires g.dins[ino].db != 0 && k < NENTRY
    ensures Inv(NoSecond(g, ino, k)) && Tearing(fs0, NoSecond(g, ino, k), ino)
    ensures forall j: nat :: j < NENTRY ==>
      At(NoSecond(g, ino, k).disk, g.dins[ino].db, j) == if j == k then 0 else At(g.disk, g.dins[ino].db, j)
    ensures var b := At(g.disk, g.dins[ino].db, k);
      b != 0 ==> 0 < b < g.nblocks && b in g.disk && b !in g.free && b != ino
  {
    var b := At(g.disk, g.dins[ino].db, k);
    forall j: nat | j < NENTRY
      ensures At(NoSecond(g, ino, k).disk, g.dins[ino].db, j) == if j == k then 0 else At(g.disk, g.dins[ino].db, j) {
      EntrySet(g.disk[g.dins[ino].db], k, 0, j);
    }
    if b != 0 {
      assert Where(g, SecOf(ino, k)) == b && Where(g, InodeOf(ino)) == ino;
      hide Where, Load, Tearing, At, SetEntry;
      NoBlocksNoData(g, ino);
      UnlinkSecond(g, ino, k);
      ShrunkTearing(fs0, g, NoSecond(g, ino, k), SecOf(ino, k), ino);
    }
  }

  lemma BehindSecond(g: Fs, fs: Fs, ino: nat, k: nat)
    requires Behind(g, fs, ino) && g.dins[ino].db in g.disk && k < NENTRY && At(g.disk, g.dins[ino].db, k) != ino
    ensures var b := At(fs.disk, g.dins[ino].db, k);
      Behind(NoSecond(g, ino, k), if b == 0 then fs else Freed(SetAt(fs, g.dins[ino].db, k, 0), b), ino)
    ensures NoSecond(g, ino, k).dins == g.dins
  {
    hide SetEntry, At;
  }

  lemma BehindDb(g: Fs, fs: Fs, ino: nat)
    requires Behind(g, fs, ino) && g.dins[ino].db != ino
    ensures Behind(Freed(SetDb(g, ino, 0), g.dins[ino].db), Freed(fs, g.dins[ino].db), ino)
  {
  }

  lemma TearingDb(fs0: Fs, g: Fs, ino: nat)
    requires Inv(g) && Tearing(fs0, g, ino) && ino in g.dins && g.dins[ino].blocks == 0 && g.dins[ino].db != 0
    requires forall j: nat :: j < NENTRY ==> At(g.disk, g.dins[ino].db, j) == 0
    ensures var t := Freed(SetDb(g, ino, 0), g.dins[ino].db); Inv(t) && Tearing(fs0, t, ino)
  {
    hide Where, Load, Tearing;
    UnlinkDb(g, ino);
    ShrunkTearing(fs0, g, Freed(SetDb(g, ino, 0), g.dins[ino].db), DbOf(ino), ino);
  }

  // Dropping the bare inode: exactly its footprint has become free.
  lemma TearingEnd(fs0: Fs, g: Fs, ino: nat)
    requires Inv(g) && Tearing(fs0, g, ino) && ino in g.dins && ino != 0 && g.dins[ino].blocks == 0
    requires g.dins[ino].indirect == 0 && g.dins[ino].db == 0
    ensures var t := Freed(g.(dins := g.dins - {ino}), ino);
      Inv(t) && Shape(t) && View(t) == View(fs0) - {ino} &&
      Returned(fs0, t.free, ino)
  {
    var t := Freed(g.(dins := g.dins - {ino}), ino);
    NoBlocksNoData(g, ino) by { hide Where; }
    DropInode(g, ino) by { hide Where; }
    forall p ensures Where(t, p) == if Of(p, ino) then 0 else Where(fs0, p) {
      if !Of(p, ino) { assert Where(t, p) == Where(g, p); }
    }
    forall b ensures Load(t, b) == Load(g, b) {}
    forall j | j in t.dins ensures FileOf(t, j) == FileOf(g, j) && DenseAt(t, j) {
      assert DenseAt(g, j);
      assert Still(g, t, j, g.dins[j].blocks);
      StillData(g, t, j, g.dins[j].blocks);
      assert FileOf(g, j).data[..g.dins[j].blocks] == FileOf(g, j).data;
    }
    assert View(t) == View(g) - {ino};
    hide Where, View, FileOf, Load;
    Footprint(fs0, t, ino);
  }

  // With unique ownership on both sides, the new free blocks are those whose
  // owners have gone.
  lemma Footprint(fs0: Fs, t: Fs, ino: nat)
    requires Owned(fs0) && Owned(t) && t.nblocks == fs0.nblocks
    requires forall p {:trigger Where(t, p)} :: Where(t, p) == if Of(p, ino) then 0 else Where(fs0, p)
    ensures Returned(fs0, t.free, ino)
  {
    hide Where;
    forall b ensures b in t.free <==> b in fs0.free || (b != 0 && exists o :: Of(o, ino) && Where(fs0, o) == b) {
      if 0 < b < t.nblocks && b !in t.free {
        assert HasOwner(t, b);
        var o :| Where(t, o) == b;
        assert Where(fs0, o) == b;
      }
      if 0 < b < t.nblocks && b !in fs0.free {
        assert HasOwner(fs0, b);
        var o :| Where(fs0, o) == b;
        assert Where(t, o) == if Of(o, ino) then 0 else b;
      }
    }
  }
}
