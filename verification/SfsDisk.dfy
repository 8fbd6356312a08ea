/**
  Disk blocks: bytes, and the little-endian 32-bit entries of index blocks.
 */
module SfsDisk {
  import opened Bytes

  const BLKSIZE := 4096
  const BLKBITS := 8 * BLKSIZE
  const NENTRY := 1024

  // The block of the root inode.
  const ROOT: nat := 1

  // The contents of a block.
  type Block = s: seq<byte> | |s| == BLKSIZE witness seq(BLKSIZE, _ => 0)

  function Zeros(): (r: Block)
    ensures forall j :: 0 <= j < BLKSIZE ==> r[j] == 0
  {
    var r := seq(BLKSIZE, _ => 0); r
  }

  // The index entry number `i` of a block.
  function Entry(b: Block, i: nat): nat
    requires i < NENTRY
  {
    var b0: nat, b1: nat, b2: nat, b3: nat := b[4 * i], b[4 * i + 1], b[4 * i + 2], b[4 * i + 3];
    b0 + 0x100 * b1 + 0x1_0000 * b2 + 0x100_0000 * b3
  }

  // memcpy of `data` over the block at `off`, as in sfs_wbuf.
  function Splice(b: Block, off: nat, data: seq<byte>): (r: Block)
    requires off + |data| <= BLKSIZE
    ensures forall j :: 0 <= j < BLKSIZE ==> r[j] == if off <= j < off + |data| then data[j - off] else b[j]
  {
    b[..off] + data + b[off + |data|..]
  }

  function Bytes4(x: nat): (r: seq<byte>)
    requires x < 0x1_0000_0000
    ensures |r| == 4
  {
    [x % 0x100, x / 0x100 % 0x100, x / 0x1_0000 % 0x100, x / 0x100_0000]
  }

  function SetEntry(b: Block, i: nat, x: nat): Block
    requires i < NENTRY && x < 0x1_0000_0000
  {
    Splice(b, 4 * i, Bytes4(x))
  }

  lemma Bytes4Sum(x: nat)
    requires x < 0x1_0000_0000
    ensures x % 0x100 + 0x100 * (x / 0x100 % 0x100) + 0x1_0000 * (x / 0x1_0000 % 0x100) + 0x100_0000 * (x / 0x100_0000) == x
  {
    assert x / 0x1_0000 == x / 0x100 / 0x100;
    assert x / 0x100_0000 == x / 0x100 / 0x100 / 0x100;
  }

  lemma EntrySet(b: Block, i: nat, x: nat, j: nat)
    requires i < NENTRY && j < NENTRY && x < 0x1_0000_0000
    ensures Entry(SetEntry(b, i, x), j) == if i == j then x else Entry(b, j)
  {
    if i == j {
      var r := SetEntry(b, i, x);
      assert r[4 * i] == Bytes4(x)[0] && r[4 * i + 1] == Bytes4(x)[1];
      assert r[4 * i + 2] == Bytes4(x)[2] && r[4 * i + 3] == Bytes4(x)[3];
      Bytes4Sum(x);
    }
  }

  lemma EntryZero(i: nat)
    requires i < NENTRY
    ensures Entry(Zeros(), i) == 0
  {
  }
}
