/**
  The free map on disk: what the image builder writes when it closes an image.
 */
module Freemap {
  import opened Words
  import opened Bitmaps
  import D = SfsDisk

  const BLKBITS := D.BLKBITS
  const NWORDS := 1024

  // Bit `b` of the free map, block by block.
  predicate FreeBit(blocks: seq<seq<bv32>>, b: nat) {
    b / BLKBITS < |blocks| && Bit(blocks[b / BLKBITS], b % BLKBITS)
  }

  // The bits of one block that start at bit `i` of the map.
  ghost predicate Marks(ws: seq<bv32>, i: nat, lo: nat, hi: nat) {
    forall j: nat :: j < BLKBITS ==> (Bit(ws, j) <==> lo <= i + j < hi)
  }

  // The free map marks exactly the blocks lo .. hi - 1.
  ghost predicate MarksAll(blocks: seq<seq<bv32>>, lo: nat, hi: nat) {
    forall b: nat :: b < |blocks| * BLKBITS ==> (FreeBit(blocks, b) <==> lo <= b < hi)
  }

  lemma ZeroBits(ws: seq<bv32>, j: nat)
    requires forall k :: 0 <= k < |ws| ==> ws[k] == 0
    ensures !Bit(ws, j)
  {
    if j / WORD_BITS < |ws| { ZeroWord(ws[j / WORD_BITS]); }
  }

  // data[j / bits] |= 1 << (j % bits).
  method SetBit(data: array<bv32>, j: nat)
    requires j < data.Length * WORD_BITS
    modifies data
    ensures IsSet(old(data[..]), data[..], j)
  {
    hide Bit, Mask, HasBit, IsSet, Or;
    var k, o := j / WORD_BITS, j % WORD_BITS;
    assert k * WORD_BITS + o == j;
    ghost var before := data[..];
    SetAll(before, k, o);
    data[k] := Or(data[k], Mask(o));
    assert data[..] == before[k := Or(before[k], Mask(o))];
  }

  // One block of close_sfs's loop.
  method WriteBlock(i: nat, next: nat, ninos: nat) returns (ws: seq<bv32>)
    requires next <= ninos && i < ninos
    ensures |ws| == NWORDS && Marks(ws, i, next, ninos)
  {
    hide Bit, Mask, HasBit;
    var data := new bv32[NWORDS](_ => 0);
    forall j: nat ensures !Bit(data[..], j) { ZeroBits(data[..], j); }
    if i + BLKBITS > next {
      var start: nat, end: nat := 0, BLKBITS;
      if i < next { start := next - i; }
      if i + BLKBITS > ninos { end := ninos - i; }
      var j := start;
      while j < end
        invariant start <= j && (start <= end ==> j <= end)
        invariant forall k: nat :: Bit(data[..], k) <==> start <= k < j
      {
        SetBit(data, j);
        j := j + 1;
      }
    }
    ws := data[..];
  }

  // The free map part of close_sfs.
  method Close(next: nat, ninos: nat) returns (blocks: seq<seq<bv32>>)
    requires next <= ninos
    ensures |blocks| == (ninos + BLKBITS - 1) / BLKBITS && MarksAll(blocks, next, ninos)
    ensures forall k :: 0 <= k < |blocks| ==> |blocks[k]| == NWORDS
  {
    blocks := [];
    var i := 0;
    while i < ninos
      invariant i == |blocks| * BLKBITS && i < ninos + BLKBITS && MarksAll(blocks, next, ninos)
      invariant forall k :: 0 <= k < |blocks| ==> |blocks[k]| == NWORDS
    {
      var ws := WriteBlock(i, next, ninos);
      MarksMore(blocks, ws, next, ninos);
      blocks := blocks + [ws];
      i := i + BLKBITS;
    }
  }

  lemma MarksMore(blocks: seq<seq<bv32>>, ws: seq<bv32>, lo: nat, hi: nat)
    requires MarksAll(blocks, lo, hi) && Marks(ws, |blocks| * BLKBITS, lo, hi)
    ensures MarksAll(blocks + [ws], lo, hi)
  {
    hide Bit;
    var more := blocks + [ws];
    forall b: nat | b < |more| * BLKBITS ensures FreeBit(more, b) <==> lo <= b < hi {
      if b < |blocks| * BLKBITS {
        assert FreeBit(more, b) <==> FreeBit(blocks, b);
      } else {
        var j := b - |blocks| * BLKBITS;
        assert b / BLKBITS == |blocks| && b % BLKBITS == j;
      }
    }
  }
}
