/**
  The mounted file system and its operations on blocks and files.
 */
module SimpleFs {
  import opened Bytes
  import opened SfsDisk
  import opened SfsMap
  import opened SfsGrow
  import opened SfsShrink
  import opened SfsFile
  import opened SfsSpec
  import opened Bitmaps

  class Sfs {
    const nblocks: nat
    const firstFree: nat
    const freemap: Bitmap
    ghost var free: set<nat>     // the bits set in the free map
    var unused: nat              // super.unused_blocks
    var buffer: Block            // sfs_buffer, shared by all block I/O
    var disk: map<nat, Block>
    var dins: map<nat, Din>

    ghost function FS(): Fs reads this { Fs(nblocks, firstFree, disk, free, dins) }

    // The free map's words stand for the free blocks.
    ghost predicate Mapped()
      reads this`free, freemap, freemap.words
    {
      freemap.Valid() && free == freemap.Bits() && nblocks <= freemap.nbits
    }

    // The free map and its count agree.
    ghost predicate Counted()
      reads this, freemap, freemap.words
    {
      Mapped() && Shape(FS()) && unused == |free|
    }

    ghost predicate Valid()
      reads this, freemap, freemap.words
    {
      Counted() && Inv(FS())
    }

    // The end of sfs_do_mount: the free map is loaded and counted.
    constructor (nblocks: nat, firstFree: nat, freemap: Bitmap, unused: nat, disk: map<nat, Block>, dins: map<nat, Din>)
      requires freemap.Valid() && nblocks <= freemap.nbits && unused == |freemap.Bits()|
      requires Inv(Fs(nblocks, firstFree, disk, freemap.Bits(), dins))
      ensures Valid() && FS() == Fs(nblocks, firstFree, disk, freemap.Bits(), dins) && this.freemap == freemap
    {
      this.nblocks, this.firstFree, this.freemap, free := nblocks, firstFree, freemap, freemap.Bits();
      this.unused, buffer, this.disk, this.dins := unused, Zeros(), disk, dins;
    }

    // ---------------------------------------------------------- blocks

    method BlockAlloc() returns (ok: bool, b: nat)
      requires Counted()
      modifies freemap.words, this`free, this`unused, this`buffer, this`disk
      ensures Counted()
      ensures ok <==> old(free) != {}
      ensures ok ==> b in old(free) && forall c :: c in old(free) ==> b <= c
      ensures FS() == if ok then Taken(Zeroed(old(FS()), b), b) else old(FS())
    {
      ok, b := freemap.Alloc();
      if !ok { return; }
      free := free - {b};
      unused := unused - 1;
      ClearBlock(b);
    }

    method BlockFree(b: nat)
      requires Counted() && 0 < b < nblocks && b !in free
      modifies freemap.words, this`free, this`unused
      ensures Counted() && FS() == Freed(old(FS()), b)
    {
      freemap.Free(b);
      free := free + {b};
      unused := unused + 1;
    }

    // ---------------------------------------------------------- block map

    method BmapGetSub(ent0: nat, k: nat, create: bool) returns (ok: bool, ent: nat, b: nat)
      requires Counted() && k < NENTRY && (ent0 != 0 ==> ent0 in disk && ent0 !in free)
      modifies freemap.words, this`free, this`unused, this`buffer, this`disk
      ensures Counted() && SubOutcome(old(FS()), FS(), ent0, k, create, ok, ent, b) && free <= old(free)
    {
      hide Entry, SetEntry, Shape, Mapped;
      ghost var fs := FS();
      ZeroInUse(fs);
      ent, b := ent0, 0;
      if ent != 0 {
        b := Entry(disk[ent], k);
        if b != 0 || !create { return true, ent, b; }
      } else {
        if !create { return true, ent, b; }
        ok, ent := BlockAlloc();
        if !ok { return; }
      }
      ok, b := BlockAlloc();
      if !ok {
        if ent != ent0 {
          SubFails(fs, FS(), ent);
          BlockFree(ent);
        }
        return;
      }
      SubGets(fs, FS(), ent0, ent, k, b);
      disk := disk[ent := SetEntry(disk[ent], k, b)];
    }

    method BmapGet(ino: nat, index: nat, create: bool) returns (ok: bool, b: nat)
      requires Counted() && Owned(FS()) && ino in dins && index < MAX_INDEX
      modifies freemap.words, this`free, this`unused, this`buffer, this`disk, this`dins
      ensures Counted() && GetOutcome(old(FS()), FS(), ino, index, create, ok, b) && free <= old(free)
    {
      hide GetOutcome, Owned, Mapped;
      if index < NDIRECT {
        ok, b := BmapGetDirect(ino, index, create);
      } else if index < NDIRECT + NENTRY {
        ok, b := BmapGetIndirect(ino, index - NDIRECT, create);
      } else {
        ok, b := BmapGetDouble(ino, index - NDIRECT - NENTRY, create);
      }
    }

    method BmapGetDirect(ino: nat, i: nat, create: bool) returns (ok: bool, b: nat)
      requires Counted() && Owned(FS()) && ino in dins && i < NDIRECT
      modifies freemap.words, this`free, this`unused, this`buffer, this`disk, this`dins
      ensures Counted() && GetOutcome(old(FS()), FS(), ino, i, create, ok, b) && free <= old(free)
    {
      hide Where, Load, Owned, Grown, Mapped;
      ghost var fs := FS();
      GrownSame(fs, DataOf(ino, i));
      DirectWhere(fs, ino, i);
      b := dins[ino].direct[i];
      ok := true;
      if b == 0 && create {
        ok, b := BlockAlloc();
        if !ok { return; }
        GrowDirect(fs, ino, i, b);
        dins := dins[ino := dins[ino].(direct := dins[ino].direct[i := b])];
        assert FS() == SetDirect(Taken(Zeroed(fs, b), b), ino, i, b);
      }
    }

    method BmapGetIndirect(ino: nat, k: nat, create: bool) returns (ok: bool, b: nat)
      requires Counted() && Owned(FS()) && ino in dins && k < NENTRY
      modifies freemap.words, this`free, this`unused, this`buffer, this`disk, this`dins
      ensures Counted() && GetOutcome(old(FS()), FS(), ino, NDIRECT + k, create, ok, b) && free <= old(free)
    {
      hide Owned, GetOutcome, SubOutcome, Where, Shape, At, Mapped;
      ghost var fs := FS();
      IndexInUse(fs, ino);
      var ent;
      ok, ent, b := BmapGetSub(dins[ino].indirect, k, create);
      IndirectOutcome(fs, FS(), ino, k, create, ok, ent, b);
      if !ok { return; }
      GetShape(fs, SetIndirect(FS(), ino, ent), ino, NDIRECT + k, create, ok, b);
      ghost var t := SetIndirect(FS(), ino, ent);
      if ent != dins[ino].indirect {
        dins := dins[ino := dins[ino].(indirect := ent)];
      }
      assert FS() == t;
    }

    method BmapGetSecond(ino: nat, k: nat, create: bool) returns (ok: bool, b: nat)
      requires Counted() && Owned(FS()) && ino in dins && k < NENTRY
      modifies freemap.words, this`free, this`unused, this`buffer, this`disk, this`dins
      ensures Counted() && SecondOutcome(old(FS()), FS(), ino, k, create, ok, b) && free <= old(free)
    {
      hide Owned, SubOutcome, SecondOutcome, Where, Shape, At, Mapped;
      ghost var fs := FS();
      IndexInUse(fs, ino);
      var ent;
      ok, ent, b := BmapGetSub(dins[ino].db, k, create);
      DoubleOutcome(fs, FS(), ino, k, create, ok, ent, b);
      if !ok { return; }
      SecondShape(fs, SetDb(FS(), ino, ent), ino, k, create, ok, b);
      ghost var t := SetDb(FS(), ino, ent);
      if ent != dins[ino].db {
        dins := dins[ino := dins[ino].(db := ent)];
      }
      assert FS() == t;
    }

    method BmapGetDouble(ino: nat, i: nat, create: bool) returns (ok: bool, b: nat)
      requires Counted() && Owned(FS()) && ino in dins && i < NENTRY * NENTRY
      modifies freemap.words, this`free, this`unused, this`buffer, this`disk, this`dins
      ensures Counted() && GetOutcome(old(FS()), FS(), ino, NDIRECT + NENTRY + i, create, ok, b) && free <= old(free)
    {
      hide Owned, GetOutcome, SubOutcome, SecondOutcome, Where, Shape, At, Mapped;
      ghost var fs := FS();
      var k, j := i / NENTRY, i % NENTRY;
      assert NDIRECT + NENTRY + i == NDIRECT + NENTRY + NENTRY * k + j;
      ok, b := BmapGetSecond(ino, k, create);
      ghost var t := FS();
      if !ok || b == 0 {
        DoubleNone(fs, t, ino, k, j, create, ok, b);
        return ok, 0;
      }
      ghost var sec := b;
      SecondWhere(fs, t, ino, k, create, b);
      InUse(t, SecOf(ino, k));
      var ent;
      ok, ent, b := BmapGetSub(b, j, create);
      SecondEntryOutcome(t, FS(), ino, k, j, create, ok, ent, b);
      DoubleCompose(fs, t, FS(), ino, k, j, create, sec, ok, b);
    }

    method BmapFreeSub(ent: nat, k: nat)
      requires Counted() && k < NENTRY && ent in disk && ent != 0 && ent !in free
      requires At(disk, ent, k) != 0 ==> At(disk, ent, k) in disk && At(disk, ent, k) !in free
      modifies freemap.words, this`free, this`unused, this`buffer, this`disk
      ensures Counted()
      ensures FS() == if At(old(disk), ent, k) == 0 then old(FS())
          else Freed(SetAt(old(FS()), ent, k, 0), At(old(disk), ent, k))
    {
      hide Entry, SetEntry, Mapped;
      ghost var fs := FS();
      var b := Entry(disk[ent], k);
      if b != 0 {
        disk := disk[ent := SetEntry(disk[ent], k, 0)];
        BlockFree(b);
        assert FS() == Freed(SetAt(fs, ent, k, 0), b);
      }
    }

    method BmapFree(ino: nat, index: nat)
      requires Counted() && Owned(FS()) && ino in dins && index < MAX_INDEX
      modifies freemap.words, this`free, this`unused, this`buffer, this`disk, this`dins
      ensures Counted() && FreeOutcome(old(FS()), FS(), ino, index)
    {
      hide Owned, Where, At, FreeOutcome, Mapped;
      ghost var fs := FS();
      assert Shape(fs);
      if index < NDIRECT {
        FreeDirectOutcome(fs, ino, index);
        var b := dins[ino].direct[index];
        if b != 0 {
          BlockFree(b);
          dins := dins[ino := dins[ino].(direct := dins[ino].direct[index := 0])];
          assert FS() == Freed(SetDirect(fs, ino, index, 0), b);
        }
      } else if index < NDIRECT + NENTRY {
        var k := index - NDIRECT;
        assert index == NDIRECT + k;
        FreeIndirectOutcome(fs, ino, k);
        if dins[ino].indirect != 0 {
          BmapFreeSub(dins[ino].indirect, k);
        }
      } else {
        var i := index - NDIRECT - NENTRY;
        var k, j := i / NENTRY, i % NENTRY;
        assert index == NDIRECT + NENTRY + NENTRY * k + j;
        FreeSecondOutcome(fs, ino, k, j);
        if dins[ino].db != 0 {
          var ent := BmapRead(dins[ino].db, k);
          if ent != 0 {
            BmapFreeSub(ent, j);
          }
        }
      }
    }

    // sfs_bmap_get_sub_nolock of an existing index block, without creating.
    method BmapRead(ent: nat, k: nat) returns (b: nat)
      requires ent in disk && ent != 0 && k < NENTRY
      ensures b == At(disk, ent, k)
    {
      b := Entry(disk[ent], k);
    }

    method BmapLoad(ino: nat, index: nat) returns (ok: bool, b: nat)
      requires Valid() && ino in dins && index <= dins[ino].blocks && index < MAX_INDEX
      modifies freemap.words, this`free, this`unused, this`buffer, this`disk, this`dins
      ensures Valid()
      ensures ok <==> index < old(dins[ino].blocks) || |old(free)| >= Missing(old(FS()), ino, index)
      ensures index < old(dins[ino].blocks) ==> FS() == old(FS())
      ensures View(FS()) == if index == old(dins[ino].blocks) && ok then Extended(old(View(FS())), ino)
          else old(View(FS()))
      ensures ok ==> ino in dins && index < dins[ino].blocks && b == Where(FS(), DataOf(ino, index))
      ensures !ok ==> |free| < 3
    {
      hide Inv, Dense, Owned, Where, Load, Shape, Missing, View, Grown, Extended, Mapped;
      ghost var fs := FS();
      var create := index == dins[ino].blocks;
      LoadFacts(fs, ino, index);
      ok, b := BmapGet(ino, index, create);
      ghost var t := FS();
      GrownKeys(fs, t, ino, index);
      if !ok {
        Scarce(fs, t, ino, index, create, ok, b);
        KeptView(fs, t, ino);
        return;
      }
      if create {
        dins := dins[ino := dins[ino].(blocks := dins[ino].blocks + 1)];
        assert FS() == SetBlocks(t, ino, fs.dins[ino].blocks + 1);
        LoadExtends(fs, t, ino);
      }
    }

    method BmapTruncate(ino: nat)
      requires Valid() && ino in dins && dins[ino].blocks != 0
      modifies freemap.words, this`free, this`unused, this`buffer, this`disk, this`dins
      ensures Valid()
      ensures View(FS()) == Cut(old(View(FS())), ino)
      ensures free == old(free) + {Where(old(FS()), DataOf(ino, old(dins[ino].blocks) - 1))}
      ensures Shrunken(old(FS()), FS(), ino)
    {
      hide Inv, Owned, Where, Shape, View, Cut, FreeOutcome, Shrunken, Mapped;
      ghost var fs := FS();
      var n := dins[ino].blocks;
      LastFacts(fs, ino);
      BmapFree(ino, n - 1);
      ghost var t := FS();
      TruncateFacts(fs, t, ino);
      dins := dins[ino := dins[ino].(blocks := n - 1)];
      assert FS() == SetBlocks(t, ino, n - 1);
    }

    // ---------------------------------------------------------- block I/O

    // sfs_rwblock_nolock on the shared buffer.
    method RwBuffer(b: nat, write: bool)
      requires b in disk
      modifies this`buffer, this`disk
      ensures if write then buffer == old(buffer) && disk == old(disk)[b := buffer]
          else disk == old(disk) && buffer == disk[b]
    {
      if write {
        disk := disk[b := buffer];
      } else {
        buffer := disk[b];
      }
    }

    // sfs_clear_block of one block.
    method ClearBlock(b: nat)
      requires b in disk
      modifies this`buffer, this`disk
      ensures FS() == Zeroed(old(FS()), b)
    {
      buffer := Zeros();
      RwBuffer(b, true);
    }

    // sfs_rbuf, and sfs_rblock when `off` is 0 and `len` a whole block: the
    // bytes on the disk, whatever the buffer held.
    method ReadBuf(len: nat, b: nat, off: nat) returns (out: seq<byte>)
      requires b in disk && off + len <= BLKSIZE
      modifies this`buffer, this`disk
      ensures disk == old(disk) && |out| == len && forall j :: 0 <= j < len ==> out[j] == disk[b][off + j]
    {
      RwBuffer(b, false);
      out := buffer[off..off + len];
    }

    // sfs_wbuf, and sfs_wblock when `off` is 0 and `buf` a whole block: the
    // block is read, changed and written back, so that reading the place again
    // gives `buf` and the rest of the block and of the disk is as it was.
    method WriteBuf(buf: seq<byte>, b: nat, off: nat)
      requires b in disk && off + |buf| <= BLKSIZE
      modifies this`buffer, this`disk
      ensures disk.Keys == old(disk.Keys) && disk[b][off..off + |buf|] == buf
      ensures forall c :: c in disk && c != b ==> disk[c] == old(disk)[c]
      ensures forall j :: 0 <= j < BLKSIZE && !(off <= j < off + |buf|) ==> disk[b][j] == old(disk)[b][j]
      ensures FS() == Written(old(FS()), b, Splice(old(disk)[b], off, buf))
    {
      RwBuffer(b, false);
      buffer := Splice(buffer, off, buf);
      RwBuffer(b, true);
    }

    // One piece of a transfer: load the block and copy.
    method Piece(ino: nat, blkno: nat, off: nat, size: nat, chunk: seq<byte>, write: bool)
      returns (ok: bool, got: seq<byte>)
      requires Valid() && ino in dins && off + size <= BLKSIZE && blkno < MAX_INDEX
      requires if write then blkno <= dins[ino].blocks && |chunk| == size else blkno < dins[ino].blocks
      modifies freemap.words, this`free, this`unused, this`buffer, this`disk, this`dins
      ensures Valid() && ino in dins
      ensures !write ==> ok && FS() == old(FS()) && got == View(FS())[ino].data[blkno][off..off + size]
      ensures write ==> View(FS()) == if ok then Put(old(View(FS())), ino, blkno, off, chunk) else old(View(FS()))
      ensures !ok ==> |free| < 3
    {
      hide Inv, Shape, View, Where, Missing, Put, Extended, Mapped;
      ghost var v := View(FS());
      ghost var n := dins[ino].blocks;
      ViewAt(FS(), ino);
      got := [];
      var b;
      ok, b := BmapLoad(ino, blkno);
      if !ok { return; }
      ghost var fs := FS();
      PieceFacts(fs, ino, blkno);
      if write {
        WriteBuf(chunk, b, off);
        PieceWrites(v, fs, ino, blkno, b, off, chunk);
      } else {
        got := ReadBuf(size, b, off);
      }
    }

    // sfs_io_nolock.  A write starts in a mapped block or in the next one.
    method Io(ino: nat, buf: seq<byte>, offset: int, len: nat, write: bool)
      returns (ret: Ret, alen: nat, out: seq<byte>)
      requires Valid() && ino in dins && len < 0x1_0000_0000 && (write ==> |buf| == len)
      requires Backed(View(FS())[ino])
      requires write && len > 0 && offset < MAX_FILE_SIZE && offset + len < 0x8000_0000 ==>
        offset / BLKSIZE <= dins[ino].blocks
      modifies freemap.words, this`free, this`unused, this`buffer, this`disk, this`dins
      ensures Valid() && ino in dins
      ensures Backed(View(FS())[ino]) <==> !(ret == NoMem && alen == 0 && offset > old(dins[ino].blocks) * BLKSIZE)
      ensures ret == Inval <==> offset < 0 || offset >= MAX_FILE_SIZE || offset + len >= 0x8000_0000
      ensures ret == Inval || len == 0 || !write ==> FS() == old(FS())
      ensures ret == Inval ==> alen == 0
      ensures !write && ret != Inval ==>
        ret == Done && |out| == alen && out == Slice(Content(View(FS())[ino]), offset, Min(offset + len, MAX_FILE_SIZE))
      ensures write && ret != Inval && len > 0 ==> Filled(old(View(FS())), View(FS()), ino, offset, buf, alen)
      ensures write && ret != Inval && offset <= old(dins[ino].size) ==>
        Rewritten(old(View(FS())), View(FS()), ino, offset, buf, alen)
      ensures ret == NoMem ==> |free| < 3
      ensures write && ret != Inval ==>
        if ret == Done then offset + alen == Min(offset + len, MAX_FILE_SIZE) else offset + alen < Min(offset + len, MAX_FILE_SIZE)
    {
      hide Inv, Shape, View, Rewritten, Filled, Content, Wrap32, Mapped;
      ghost var v0 := View(FS());
      ViewAt(FS(), ino);
      alen, out, ret := 0, [], Done;
      if 0 <= offset < MAX_FILE_SIZE { WrapTest(offset, len); }
      var endpos := Wrap32(offset + len);
      if offset < 0 || offset >= MAX_FILE_SIZE || offset > endpos { return Inval, 0, []; }
      if offset == endpos {
        if write && offset <= dins[ino].size { NothingIo(v0, ino, offset, buf); }
        return;
      }
      if endpos > MAX_FILE_SIZE { endpos := MAX_FILE_SIZE; }
      if !write {
        if offset >= dins[ino].size {
          return;
        }
        if endpos > dins[ino].size { endpos := dins[ino].size; }
      }
      ret, alen, out := TransferSized(ino, buf, offset, endpos, write);
    }

    // The transfer and the new size.
    method TransferSized(ino: nat, buf: seq<byte>, offset: nat, endpos: nat, write: bool)
      returns (ret: Ret, alen: nat, out: seq<byte>)
      requires Valid() && ino in dins && offset < endpos <= MAX_FILE_SIZE && Backed(View(FS())[ino])
      requires if write then offset / BLKSIZE <= dins[ino].blocks && endpos - offset <= |buf|
          else endpos <= dins[ino].size
      modifies freemap.words, this`free, this`unused, this`buffer, this`disk, this`dins
      ensures Valid() && ino in dins && alen <= endpos - offset
      ensures Backed(View(FS())[ino]) <==> !(ret == NoMem && alen == 0 && offset > old(dins[ino].blocks) * BLKSIZE)
      ensures ret == (if alen == endpos - offset then Done else NoMem) && (ret == NoMem ==> |free| < 3)
      ensures !write ==> FS() == old(FS()) && ret == Done && out == Content(View(FS())[ino])[offset..endpos]
      ensures write ==> Filled(old(View(FS())), View(FS()), ino, offset, buf, alen)
      ensures write && offset <= old(dins[ino].size) ==> Rewritten(old(View(FS())), View(FS()), ino, offset, buf, alen)
    {
      hide Inv, Shape, View, IoAt, Rewritten, Filled, Content, Backed, Mapped;
      ghost var v0 := View(FS());
      ViewAt(FS(), ino);
      ret, alen, out := Transfer(ino, buf, offset, endpos, write);
      ghost var fs := FS();
      FinishSized(v0, fs, ino, offset, buf, alen, out, write);
      if offset + alen > dins[ino].size {
        dins := dins[ino := dins[ino].(size := offset + alen)];
      }
      assert FS() == Resized(fs, ino, offset + alen);
      if write {
        FilledBacked(v0, View(FS()), ino, offset, buf, alen);
        if offset <= v0[ino].size { FilledContent(v0, View(FS()), ino, offset, buf, alen); }
      }
    }

    // The three pieces: head, whole blocks and tail.
    method Transfer(ino: nat, buf: seq<byte>, offset: nat, endpos: nat, write: bool)
      returns (ret: Ret, alen: nat, out: seq<byte>)
      requires Valid() && ino in dins && offset < endpos <= MAX_FILE_SIZE && Backed(View(FS())[ino])
      requires if write then offset / BLKSIZE <= dins[ino].blocks && endpos - offset <= |buf|
          else endpos <= dins[ino].size
      modifies freemap.words, this`free, this`unused, this`buffer, this`disk, this`dins
      ensures Valid() && ino in dins && alen <= endpos - offset && (alen == 0 ==> View(FS()) == old(View(FS())))
      ensures ret == (if alen == endpos - offset then Done else NoMem) && (ret == NoMem ==> |free| < 3)
      ensures IoAt(old(View(FS())), View(FS()), ino, offset, buf, alen, out, write)
      ensures !write ==> FS() == old(FS()) && ret == Done
    {
      hide Inv, Shape, View, Content, Put, IoAt, Mapped;
      ghost var v0 := View(FS());
      ViewAt(FS(), ino);
      StartFacts(v0, ino, offset, buf, write);
      ret, alen, out := Done, 0, [];
      var blkno := offset / BLKSIZE;
      var nblks := endpos / BLKSIZE - blkno;
      var blkoff := offset % BLKSIZE;
      if blkoff != 0 {
        var size := if nblks != 0 then BLKSIZE - blkoff else endpos - offset;
        ret, alen, out := Step(ino, buf, offset, alen, out, blkno, blkoff, size, write, v0);
        if ret != Done || nblks == 0 { return; }
        blkno, nblks := blkno + 1, nblks - 1;
      }
      while nblks != 0
        invariant Valid() && ino in dins && ret == Done && offset + alen == blkno * BLKSIZE
        invariant blkno + nblks == endpos / BLKSIZE
        invariant alen <= endpos - offset && IoAt(v0, View(FS()), ino, offset, buf, alen, out, write)
        invariant !write ==> FS() == old(FS())
        invariant alen == 0 ==> View(FS()) == v0
      {
        ret, alen, out := Step(ino, buf, offset, alen, out, blkno, 0, BLKSIZE, write, v0);
        if ret != Done { return; }
        blkno, nblks := blkno + 1, nblks - 1;
      }
      var size := endpos % BLKSIZE;
      if size != 0 {
        ret, alen, out := Step(ino, buf, offset, alen, out, blkno, 0, size, write, v0);
      }
    }

    // A piece and the accounting after it.
    method Step(ino: nat, buf: seq<byte>, offset: nat, done: nat, sofar: seq<byte>, blkno: nat, off: nat, size: nat,
                write: bool, ghost v0: map<nat, File>)
      returns (ret: Ret, alen: nat, out: seq<byte>)
      requires Valid() && ino in dins && offset + done == blkno * BLKSIZE + off && 0 < size && off + size <= BLKSIZE
      requires blkno < MAX_INDEX
      requires ino in v0 && Backed(v0[ino]) && IoAt(v0, View(FS()), ino, offset, buf, done, sofar, write)
      requires if write then done + size <= |buf| else offset + done + size <= v0[ino].size
      modifies freemap.words, this`free, this`unused, this`buffer, this`disk, this`dins
      ensures Valid() && ino in dins
      ensures if ret == Done then alen == done + size
          else ret == NoMem && alen == done && |free| < 3 && View(FS()) == old(View(FS()))
      ensures IoAt(v0, View(FS()), ino, offset, buf, alen, out, write)
      ensures !write ==> ret == Done && FS() == old(FS())
    {
      hide Inv, Shape, View, Content, Put, IoAt, Mapped;
      ghost var v := View(FS());
      ViewAt(FS(), ino);
      StepFacts(v0, v, ino, offset, buf, done, sofar, write, blkno, off, size);
      ret, alen, out := NoMem, done, sofar;
      var chunk := if write then buf[done..done + size] else [];
      var ok, got := Piece(ino, blkno, off, size, chunk, write);
      if !ok { return; }
      StepMore(v0, v, View(FS()), ino, offset, buf, done, sofar, write, blkno, off, size, got);
      ret, alen, out := Done, done + size, sofar + got;
    }

    // ---------------------------------------------------------- inodes

    // sfs_truncfile.  A file is extended with zeroed blocks; bytes between the
    // old size and the end of its last block keep what the block holds.
    method TruncFile(ino: nat, len: int) returns (ret: Ret)
      requires Valid() && ino in dins
      requires len == dins[ino].size ==> RoundUpDiv(len) == dins[ino].blocks
      modifies freemap.words, this`free, this`unused, this`buffer, this`disk, this`dins
      ensures Valid() && ino in dins
      ensures ret == Inval <==> len < 0 || len > MAX_FILE_SIZE
      ensures ret == Inval ==> FS() == old(FS())
      ensures ret == Done ==>
        View(FS()) == old(View(FS()))[ino := File(len, Fit(old(View(FS()))[ino].data, RoundUpDiv(len)))]
      ensures ret == NoMem ==> old(dins[ino].blocks) <= dins[ino].blocks < RoundUpDiv(len) && |free| < 3
      ensures ret == NoMem ==> View(FS()) == Fitted(old(View(FS())), ino, dins[ino].blocks)
    {
      hide Inv, Shape, View, Fitted, Fit, Where, Mapped;
      ghost var v0 := View(FS());
      ViewAt(FS(), ino);
      if len < 0 || len > MAX_FILE_SIZE { return Inval; }
      var tblks := RoundUpDiv(len);
      FitSame(v0, ino);
      FitUnchanged(v0, ino);
      if dins[ino].size == len { return Done; }
      var nblks := dins[ino].blocks;
      if nblks < tblks {
        var ok := GrowTo(ino, tblks);
        if !ok { return NoMem; }
      } else {
        ShrinkTo(ino, tblks);
      }
      ghost var fs := FS();
      SetSizeOk(fs, ino, len);
      SetSizeShape(fs, ino, len);
      FittedSize(v0, ino, tblks, len);
      dins := dins[ino := dins[ino].(size := len)];
      assert FS() == SetSize(fs, ino, len);
      ret := Done;
    }

    // The two loops of sfs_truncfile.
    method GrowTo(ino: nat, tblks: nat) returns (ok: bool)
      requires Valid() && ino in dins && dins[ino].blocks < tblks <= MAX_INDEX
      modifies freemap.words, this`free, this`unused, this`buffer, this`disk, this`dins
      ensures Valid() && ino in dins && old(dins[ino].blocks) <= dins[ino].blocks <= tblks
      ensures ok <==> dins[ino].blocks == tblks
      ensures !ok ==> |free| < 3
      ensures View(FS()) == Fitted(old(View(FS())), ino, dins[ino].blocks)
    {
      hide Inv, Shape, View, Fitted, Missing, Where, Extended, Mapped;
      ghost var v0 := View(FS());
      ViewAt(FS(), ino);
      var nblks := dins[ino].blocks;
      FitSame(v0, ino);
      while nblks != tblks
        invariant Valid() && ino in dins && old(dins[ino].blocks) <= nblks <= tblks && dins[ino].blocks == nblks
        invariant View(FS()) == Fitted(v0, ino, nblks)
      {
        FitMore(v0, ino, nblks);
        var b;
        ok, b := BmapLoad(ino, nblks);
        ViewAt(FS(), ino);
        FittedAt(v0, ino, nblks);
        FittedAt(v0, ino, nblks + 1);
        if !ok { return; }
        nblks := nblks + 1;
      }
      ok := true;
    }

    method ShrinkTo(ino: nat, tblks: nat)
      requires Valid() && ino in dins && tblks <= dins[ino].blocks
      modifies freemap.words, this`free, this`unused, this`buffer, this`disk, this`dins
      ensures Valid() && ino in dins && dins[ino].blocks == tblks
      ensures View(FS()) == Fitted(old(View(FS())), ino, tblks)
    {
      hide Inv, Shape, View, Fitted, Shrunken, Where, Cut, Mapped;
      ghost var v0 := View(FS());
      ViewAt(FS(), ino);
      var nblks := dins[ino].blocks;
      FitSame(v0, ino);
      while tblks != nblks
        invariant Valid() && ino in dins && tblks <= nblks <= old(dins[ino].blocks) && dins[ino].blocks == nblks
        invariant View(FS()) == Fitted(v0, ino, nblks)
      {
        ghost var fs := FS();
        FitLess(v0, ino, nblks);
        BmapTruncate(ino);
        ShrunkenBlocks(fs, FS(), ino);
        nblks := nblks - 1;
      }
    }

    // The block and the record of a new inode (sfs_dirent_create_inode).
    // `created`: whether memory for the in-memory inode was available.
    method CreateInode(created: bool) returns (ret: Ret, ino: nat)
      requires Valid()
      modifies freemap.words, this`free, this`unused, this`buffer, this`disk, this`dins
      ensures Valid()
      ensures ret == Done <==> created && old(free) != {}
      ensures ret == Done ==> ino !in old(dins) && View(FS()) == old(View(FS()))[ino := File(0, [])]
      ensures ret != Done ==> free == old(free) && View(FS()) == old(View(FS()))
    {
      hide Where, View, Inv, Mapped;
      ghost var fs := FS();
      var ok;
      ok, ino := BlockAlloc();
      if !ok { return NoMem, 0; }
      NewInodeOk(fs, ino);
      if !created {
        BlockFree(ino);
        assert FS() == Zeroed(fs, ino) by { assert free == fs.free; }
        return NoMem, 0;
      }
      dins := dins[ino := NewDin()];
      assert FS() == WithInode(fs, ino);
      ret := Done;
    }

    // The part of sfs_reclaim that destroys an inode without links.
    method Reclaim(ino: nat)
      requires Valid() && ino in dins && ino != 0
      modifies freemap.words, this`free, this`unused, this`buffer, this`disk, this`dins
      ensures Valid()
      ensures View(FS()) == old(View(FS())) - {ino}
      ensures Returned(old(FS()), free, ino)
    {
      hide Inv, Shape, View, Where, Shrunken, Tearing, Cut, Mapped;
      ghost var fs0 := FS();
      TearingStart(fs0, ino);
      while dins[ino].blocks != 0
        invariant Valid() && ino in dins && Tearing(fs0, FS(), ino)
        decreases dins[ino].blocks
      {
        ghost var fs := FS();
        ViewAt(fs, ino);
        BmapTruncate(ino);
        ShrunkenBlocks(fs, FS(), ino);
        TearingCut(fs0, fs, FS(), ino);
      }
      ReleaseInode(ino, fs0);
    }

    // The inode's own block and its index blocks, in the order of the source.
    // In the ghost state `g` the inode's own block is still in use.
    method ReleaseInode(ino: nat, ghost fs0: Fs)
      requires Valid() && ino in dins && ino != 0 && dins[ino].blocks == 0 && Tearing(fs0, FS(), ino)
      modifies freemap.words, this`free, this`unused, this`buffer, this`disk, this`dins
      ensures Valid() && View(FS()) == View(fs0) - {ino}
      ensures Returned(fs0, free, ino)
    {
      hide Inv, Shape, View, Tearing, Behind, NoIndirect, Returned, Mapped;
      ghost var g := FS();
      TearingInUse(g, ino);
      TearingIndirect(fs0, g, ino);
      BehindStart(g, ino);
      BlockFree(ino);
      var ent := dins[ino].indirect;
      if ent != 0 {
        BlockFree(ent);
      }
      g := NoIndirect(g, ino);
      ent := dins[ino].db;
      if ent != 0 {
        g := ReleaseDb(ino, ent, fs0, g);
      }
      BehindEnd(g, FS(), ino);
      TearingEnd(fs0, g, ino);
      dins := dins - {ino};
    }

    method ReleaseDb(ino: nat, ent: nat, ghost fs0: Fs, ghost g0: Fs) returns (ghost g: Fs)
      requires Counted() && Inv(g0) && Tearing(fs0, g0, ino) && Behind(g0, FS(), ino) && ino != 0
      requires ino in dins && ent == dins[ino].db != 0 && dins[ino].blocks == 0 && ino in g0.dins
      requires g0.dins[ino].db == ent
      modifies freemap.words, this`free, this`unused, this`buffer, this`disk
      ensures Counted() && Inv(g) && Tearing(fs0, g, ino) && Behind(g, FS(), ino)
      ensures ino in g.dins && g.dins[ino].db == 0
    {
      hide Inv, Shape, Tearing, At, SetEntry, NoSecond, Behind, Mapped;
      g := g0;
      BehindFacts(g, FS(), ino);
      var i := 0;
      while i < NENTRY
        invariant i <= NENTRY && Counted() && g.dins == g0.dins
        invariant Inv(g) && Tearing(fs0, g, ino) && Behind(g, FS(), ino)
        invariant forall j: nat :: j < i ==> At(disk, ent, j) == 0
      {
        BehindFacts(g, FS(), ino);
        TearingInUse(g, ino);
        TearingSecond(fs0, g, ino, i);
        BehindSecond(g, FS(), ino, i);
        BmapFreeSub(ent, i);
        g := NoSecond(g, ino, i);
        BehindFacts(g, FS(), ino);
        i := i + 1;
      }
      BehindFacts(g, FS(), ino);
      TearingInUse(g, ino);
      TearingDb(fs0, g, ino);
      BehindDb(g, FS(), ino);
      BlockFree(ent);
      g := Freed(SetDb(g, ino, 0), ent);
    }
  }
}
