/**
  The free map as an array of words: a bit that is set marks a free block.
 */
module Bitmaps {
  import opened Words

  predicate Bit(ws: seq<bv32>, i: nat) {
    i / WORD_BITS < |ws| && HasBit(ws[i / WORD_BITS], i % WORD_BITS)
  }

  lemma Place(ix: nat, o: nat)
    requires o < WORD_BITS
    ensures (ix * WORD_BITS + o) / WORD_BITS == ix && (ix * WORD_BITS + o) % WORD_BITS == o
  {
  }

  lemma Toggled(ws: seq<bv32>, ix: nat, o: nat, i: nat)
    requires ix < |ws| && o < WORD_BITS
    ensures var t := ws[ix := Xor(ws[ix], Mask(o))];
      Bit(t, i) <==> if i == ix * WORD_BITS + o then !Bit(ws, i) else Bit(ws, i)
  {
    hide Mask, HasBit, Or, Xor;
    Place(ix, o);
    if i / WORD_BITS == ix { XorBit(ws[ix], o, i % WORD_BITS); }
  }

  lemma Set(ws: seq<bv32>, ix: nat, o: nat, i: nat)
    requires ix < |ws| && o < WORD_BITS
    ensures var t := ws[ix := Or(ws[ix], Mask(o))]; Bit(t, i) <==> i == ix * WORD_BITS + o || Bit(ws, i)
  {
    hide Mask, HasBit, Or, Xor;
    Place(ix, o);
    if i / WORD_BITS == ix { OrBit(ws[ix], o, i % WORD_BITS); }
  }

  // The words with one bit toggled, and with one bit set.
  ghost predicate IsToggled(ws: seq<bv32>, t: seq<bv32>, k: nat) {
    forall i: nat :: Bit(t, i) <==> if i == k then !Bit(ws, i) else Bit(ws, i)
  }

  lemma ToggledAll(ws: seq<bv32>, ix: nat, o: nat)
    requires ix < |ws| && o < WORD_BITS
    ensures IsToggled(ws, ws[ix := Xor(ws[ix], Mask(o))], ix * WORD_BITS + o)
  {
    hide Bit;
    forall i: nat { Toggled(ws, ix, o, i); }
  }

  ghost predicate IsSet(ws: seq<bv32>, t: seq<bv32>, k: nat) {
    forall i: nat :: Bit(t, i) <==> i == k || Bit(ws, i)
  }

  lemma SetAll(ws: seq<bv32>, ix: nat, o: nat)
    requires ix < |ws| && o < WORD_BITS
    ensures IsSet(ws, ws[ix := Or(ws[ix], Mask(o))], ix * WORD_BITS + o)
  {
    hide Bit;
    forall i: nat { Set(ws, ix, o, i); }
  }

  // The bits below `n` that are set.
  ghost function BitSet(ws: seq<bv32>, n: nat): set<nat> {
    set i: nat | i < n && Bit(ws, i)
  }

  ghost predicate Clear(ws: seq<bv32>, lo: nat, hi: nat) {
    forall i: nat :: lo <= i < hi ==> !Bit(ws, i)
  }

  lemma BitsOfWord(ws: seq<bv32>, ix: nat)
    requires ix < |ws|
    ensures ws[ix] == 0 <==> Clear(ws, ix * WORD_BITS, (ix + 1) * WORD_BITS)
  {
    hide HasBit;
    ZeroWord(ws[ix]);
    forall o: nat | o < WORD_BITS ensures Bit(ws, ix * WORD_BITS + o) <==> HasBit(ws[ix], o) { Place(ix, o); }
    if ws[ix] == 0 {
      forall i: nat | ix * WORD_BITS <= i < (ix + 1) * WORD_BITS
        ensures !Bit(ws, i) { assert i == ix * WORD_BITS + (i - ix * WORD_BITS); }
    }
  }

  class Bitmap {
    const nbits: nat
    const words: array<bv32>

    ghost predicate Valid()
      reads this, words
    {
      && nbits > 0 && words.Length == (nbits + WORD_BITS - 1) / WORD_BITS
      && forall i: nat :: Bit(words[..], i) ==> i < nbits
    }

    // The bits that are set.
    ghost function Bits(): set<nat>
      reads this, words
    {
      BitSet(words[..], nbits)
    }

    // bitmap_create: every bit of the map is set, the left-over bits of the
    // last word are not.
    constructor (nbits: nat)
      requires nbits > 0
      ensures Valid() && fresh(words) && this.nbits == nbits && forall i: nat :: i in Bits() <==> i < nbits
    {
      var nwords: nat := (nbits + WORD_BITS - 1) / WORD_BITS;
      this.nbits := nbits;
      var m := new bv32[nwords](_ => 0xffff_ffff);
      forall i: nat ensures Bit(m[..], i) <==> i < nwords * WORD_BITS {
        AllOnes(i % WORD_BITS);
      }
      if nbits != nwords * WORD_BITS {
        var ix: nat := nwords - 1;
        var overbits: nat := nbits - ix * WORD_BITS;
        ClearTail(m, nbits, ix, overbits);
      }
      words := m;
    }

    // bitmap_alloc: the lowest free bit.
    method Alloc() returns (ok: bool, index: nat)
      requires Valid()
      modifies words
      ensures Valid() && (ok <==> old(Bits()) != {})
      ensures ok ==>
        index in old(Bits()) && (forall i :: i in old(Bits()) ==> index <= i) && Bits() == old(Bits()) - {index}
      ensures !ok ==> Bits() == old(Bits())
    {
      hide Mask, HasBit, Bit, Or, Xor;
      ghost var ws := words[..];
      var ix: nat := 0;
      while ix < words.Length
        invariant ix <= words.Length && words[..] == ws
        invariant Clear(ws, 0, ix * WORD_BITS)
      {
        BitsOfWord(ws, ix);
        if words[ix] != 0 {
          var o := FirstIn(ix);
          ToggledAll(ws, ix, o);
          words[ix] := Xor(words[ix], Mask(o));
          assert words[..] == ws[ix := Xor(ws[ix], Mask(o))];
          index := ix * WORD_BITS + o;
          assert Bit(ws, index) && index in old(Bits());
          return true, index;
        }
        ix := ix + 1;
      }
      BeyondWords(ws, ix);
      ok, index := false, 0;
      assert forall i: nat :: i in old(Bits()) ==> Bit(ws, i);
    }

    // The inner loop: the lowest bit of a word that is not zero.
    method FirstIn(ix: nat) returns (o: nat)
      requires ix < words.Length && words[ix] != 0
      ensures o < WORD_BITS && Bit(words[..], ix * WORD_BITS + o)
      ensures Clear(words[..], ix * WORD_BITS, ix * WORD_BITS + o)
    {
      hide Mask, HasBit;
      ZeroWord(words[ix]);
      o := 0;
      while !HasBit(words[ix], o)
        invariant o < WORD_BITS && forall p: nat :: p < o ==> !HasBit(words[ix], p)
        decreases WORD_BITS - o
      {
        o := o + 1;
      }
      Place(ix, o);
      forall i: nat | ix * WORD_BITS <= i < ix * WORD_BITS + o
        ensures !Bit(words[..], i) { Place(ix, i - ix * WORD_BITS); }
    }

    method Test(index: nat) returns (free: bool)
      requires Valid() && index < nbits
      ensures free <==> index in Bits()
    {
      hide Mask;
      free := words[index / WORD_BITS] & Mask(index % WORD_BITS) != 0;
    }

    // bitmap_free of a block in use.
    method Free(index: nat)
      requires Valid() && index < nbits && index !in Bits()
      modifies words
      ensures Valid() && Bits() == old(Bits()) + {index}
    {
      hide Mask, HasBit, Bit, Or, Xor;
      var ix, o := index / WORD_BITS, index % WORD_BITS;
      ghost var ws := words[..];
      assert ix * WORD_BITS + o == index;
      SetAll(ws, ix, o);
      words[ix] := Or(words[ix], Mask(o));
      assert words[..] == ws[ix := Or(ws[ix], Mask(o))];
    }
  }

  lemma BeyondWords(ws: seq<bv32>, ix: nat)
    requires ix == |ws| && Clear(ws, 0, ix * WORD_BITS)
    ensures forall i: nat :: !Bit(ws, i)
  {
  }

  // The left-over bits of the last word, one after the other.
  method ClearTail(m: array<bv32>, nbits: nat, ix: nat, overbits0: nat)
    requires ix + 1 == m.Length && nbits == ix * WORD_BITS + overbits0 && overbits0 <= WORD_BITS
    requires forall i: nat :: Bit(m[..], i) <==> i < m.Length * WORD_BITS
    modifies m
    ensures forall i: nat :: Bit(m[..], i) <==> i < nbits
  {
    hide Mask, HasBit, Bit, Or, Xor;
    var overbits := overbits0;
    while overbits < WORD_BITS
      invariant overbits0 <= overbits <= WORD_BITS
      invariant forall i: nat :: Bit(m[..], i) <==> i < nbits || ix * WORD_BITS + overbits <= i < m.Length * WORD_BITS
    {
      ghost var ws := m[..];
      ToggledAll(ws, ix, overbits);
      m[ix] := Xor(m[ix], Mask(overbits));
      assert m[..] == ws[ix := Xor(ws[ix], Mask(overbits))];
      overbits := overbits + 1;
    }
  }
}
