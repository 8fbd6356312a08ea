/**
  Closing an image and mounting it: the free map that the image builder writes is
  read into the words of a bitmap and counted, and the kernel starts from there.
 */
module Mounting {
  import opened Words
  import opened Bitmaps
  import opened Freemap
  import opened SfsMap
  import opened SfsFile
  import opened SimpleFs
  import opened ImageBuilder

  // The bits of a map read from disk, block by block.
  lemma BitOfBlock(ws: seq<bv32>, blocks: seq<seq<bv32>>, i: nat)
    requires |ws| == |blocks| * NWORDS && (forall k :: 0 <= k < |blocks| ==> |blocks[k]| == NWORDS)
    requires forall k: nat {:trigger blocks[k]} :: k < |blocks| ==> ws[k * NWORDS..(k + 1) * NWORDS] == blocks[k]
    ensures Bit(ws, i) <==> FreeBit(blocks, i)
  {
    hide HasBit;
    var k, j := i / BLKBITS, i % BLKBITS;
    WordOf(i);
    if k < |blocks| {
      assert ws[k * NWORDS..(k + 1) * NWORDS][j / WORD_BITS] == blocks[k][j / WORD_BITS];
    }
  }

  lemma WordOf(i: nat)
    ensures i / WORD_BITS == (i / BLKBITS) * NWORDS + (i % BLKBITS) / WORD_BITS
    ensures i % WORD_BITS == (i % BLKBITS) % WORD_BITS && (i % BLKBITS) / WORD_BITS < NWORDS
  {
    var k, j := i / BLKBITS, i % BLKBITS;
    var q, r := j / WORD_BITS, j % WORD_BITS;
    assert i == (k * NWORDS + q) * WORD_BITS + r;
    Place(k * NWORDS + q, r);
  }

  // sfs_init_freemap.
  method InitFreemap(freemap: Bitmap, blocks: seq<seq<bv32>>)
    requires freemap.Valid() && freemap.nbits == |blocks| * BLKBITS
    requires forall k :: 0 <= k < |blocks| ==> |blocks[k]| == NWORDS
    modifies freemap.words
    ensures freemap.Valid() && forall b: nat :: b in freemap.Bits() <==> FreeBit(blocks, b)
  {
    hide Bit, FreeBit;
    var data := freemap.words;
    assert data.Length == |blocks| * NWORDS;
    var n: nat := 0;
    while n < |blocks|
      invariant n <= |blocks|
      invariant forall k: nat {:trigger blocks[k]} :: k < n ==> data[k * NWORDS..(k + 1) * NWORDS] == blocks[k]
    {
      forall j: nat | j < NWORDS { data[n * NWORDS + j] := blocks[n][j]; }
      assert data[n * NWORDS..(n + 1) * NWORDS] == blocks[n];
      n := n + 1;
    }
    ghost var ws := data[..];
    forall k: nat {:trigger blocks[k]} | k < |blocks| ensures ws[k * NWORDS..(k + 1) * NWORDS] == blocks[k] {
      assert ws[k * NWORDS..(k + 1) * NWORDS] == data[k * NWORDS..(k + 1) * NWORDS];
    }
    forall i: nat ensures Bit(ws, i) <==> FreeBit(blocks, i) { BitOfBlock(ws, blocks, i); }
    forall i: nat | FreeBit(blocks, i) ensures i < freemap.nbits { Inside(blocks, i); }
  }

  lemma Inside(blocks: seq<seq<bv32>>, b: nat)
    requires FreeBit(blocks, b)
    ensures b < |blocks| * BLKBITS
  {
  }

  // The loop of sfs_do_mount that counts the free blocks.
  method CountFree(freemap: Bitmap) returns (unused: nat)
    requires freemap.Valid()
    ensures unused == |freemap.Bits()|
  {
    hide Bit;
    ghost var ws := freemap.words[..];
    unused := 0;
    var i: nat := 0;
    assert BitSet(ws, 0) == {};
    while i < freemap.nbits
      invariant i <= freemap.nbits && unused == |BitSet(ws, i)|
    {
      var free := freemap.Test(i);
      assert BitSet(ws, i + 1) == if free then BitSet(ws, i) + {i} else BitSet(ws, i);
      if free { unused := unused + 1; }
      i := i + 1;
    }
  }

  // close_sfs, and sfs_do_mount of the image: the assertion on the count holds,
  // every block is as the builder left it, and exactly the blocks that it did not
  // hand out are free.
  method CloseAndMount(builder: Builder) returns (sfs: Sfs)
    requires builder.Valid() && builder.ninos > 0
    ensures fresh(sfs) && sfs.Valid() && sfs.FS() == builder.FS() && View(sfs.FS()) == View(builder.FS())
    ensures sfs.free == FreeFrom(builder.next, builder.ninos) && sfs.unused == builder.unused
  {
    hide Inv, View, Where, Bit, FreeBit;
    var blocks := Close(builder.next, builder.ninos);
    RoundUp(builder.ninos);
    var freemap := new Bitmap(|blocks| * BLKBITS);
    InitFreemap(freemap, blocks);
    var unused := CountFree(freemap);
    FreeMapOk(blocks, freemap.Bits(), builder.next, builder.ninos);
    assert unused == builder.unused;
    sfs := new Sfs(builder.ninos, builder.firstFree, freemap, unused, builder.disk, builder.dins);
  }

  lemma RoundUp(n: nat)
    ensures n <= (n + BLKBITS - 1) / BLKBITS * BLKBITS && (n > 0 ==> (n + BLKBITS - 1) / BLKBITS > 0)
  {
  }

  lemma FreeMapOk(blocks: seq<seq<bv32>>, bits: set<nat>, next: nat, ninos: nat)
    requires MarksAll(blocks, next, ninos) && next <= ninos <= |blocks| * BLKBITS
    requires forall b: nat :: b in bits <==> FreeBit(blocks, b)
    ensures bits == FreeFrom(next, ninos) && |bits| == ninos - next
  {
    hide Bit, FreeBit;
    forall b: nat ensures b in bits <==> next <= b < ninos {
      if FreeBit(blocks, b) { Inside(blocks, b); }
    }
    assert bits == FreeFrom(next, ninos);
    FreeCount(next, ninos);
  }
}
