/**
  32-bit words as sets of bits.
 */
module Words {

  const WORD_BITS := 32

  // 1 << o.
  function Mask(o: nat): bv32
    requires o < WORD_BITS
  {
    match o
    case 0 => 0x1
    case 1 => 0x2
    case 2 => 0x4
    case 3 => 0x8
    case 4 => 0x10
    case 5 => 0x20
    case 6 => 0x40
    case 7 => 0x80
    case 8 => 0x100
    case 9 => 0x200
    case 10 => 0x400
    case 11 => 0x800
    case 12 => 0x1000
    case 13 => 0x2000
    case 14 => 0x4000
    case 15 => 0x8000
    case 16 => 0x10000
    case 17 => 0x20000
    case 18 => 0x40000
    case 19 => 0x80000
    case 20 => 0x100000
    case 21 => 0x200000
    case 22 => 0x400000
    case 23 => 0x800000
    case 24 => 0x1000000
    case 25 => 0x2000000
    case 26 => 0x4000000
    case 27 => 0x8000000
    case 28 => 0x10000000
    case 29 => 0x20000000
    case 30 => 0x40000000
    case _ => 0x80000000
  }

  predicate Meets(w: bv32, m: bv32) { w & m != 0 }

  predicate Holds(w: bv32, m: bv32) { w & m == m }

  predicate One(m: bv32) { m != 0 }

  predicate HasBit(w: bv32, o: nat)
    requires o < WORD_BITS
  {
    Meets(w, Mask(o))
  }

  lemma MaskOne(i: nat)
    requires i < WORD_BITS
    ensures One(Mask(i))
  {
  }

  lemma MaskApart(i: nat, j: nat)
    requires i < WORD_BITS && j < WORD_BITS && i != j
    ensures !Meets(Mask(i), Mask(j))
  {
    hide Mask;
    MaskAnd(i, j);
  }

  lemma MaskAnd(i: nat, j: nat)
    requires i < WORD_BITS && j < WORD_BITS && i != j
    ensures Mask(i) & Mask(j) == 0
  {
    hide Mask;
    if i < 8 { MaskFirst(i, j); } else if i < 16 { MaskSecond(i, j); } else if i < 24 { MaskThird(i, j); } else { MaskFourth(i, j); }
  }

  // Byte by byte.
  lemma MaskFirst(i: nat, j: nat)
    requires i < 8 && j < WORD_BITS && i != j
    ensures Mask(i) & Mask(j) == 0
  {
  }

  lemma MaskSecond(i: nat, j: nat)
    requires 8 <= i < 16 && j < WORD_BITS && i != j
    ensures Mask(i) & Mask(j) == 0
  {
  }

  lemma MaskThird(i: nat, j: nat)
    requires 16 <= i < 24 && j < WORD_BITS && i != j
    ensures Mask(i) & Mask(j) == 0
  {
  }

  lemma MaskFourth(i: nat, j: nat)
    requires 24 <= i < WORD_BITS && j < WORD_BITS && i != j
    ensures Mask(i) & Mask(j) == 0
  {
  }

  // A single bit of a word is there or not.
  lemma MaskWhole(w: bv32, i: nat)
    requires i < WORD_BITS
    ensures Meets(w, Mask(i)) ==> Holds(w, Mask(i))
  {
  }

  // Setting bits, and toggling them.
  function Or(w: bv32, m: bv32): bv32 { w | m }

  function Xor(w: bv32, m: bv32): bv32 { w ^ m }

  lemma OrBit(w: bv32, i: nat, j: nat)
    requires i < WORD_BITS && j < WORD_BITS
    ensures HasBit(Or(w, Mask(i)), j) <==> i == j || HasBit(w, j)
  {
    hide Mask, Meets, Or, One;
    MaskOne(i);
    if i == j {
      OrKeeps(w, Mask(i));
    } else {
      MaskApart(i, j);
      OrMisses(w, Mask(i), Mask(j));
    }
  }

  lemma OrKeeps(w: bv32, m: bv32)
    requires One(m)
    ensures Meets(Or(w, m), m)
  {
  }

  lemma OrMisses(w: bv32, m: bv32, n: bv32)
    requires !Meets(m, n)
    ensures Meets(Or(w, m), n) <==> Meets(w, n)
  {
  }

  lemma XorBit(w: bv32, i: nat, j: nat)
    requires i < WORD_BITS && j < WORD_BITS
    ensures HasBit(Xor(w, Mask(i)), j) <==> if i == j then !HasBit(w, i) else HasBit(w, j)
  {
    hide Mask, Meets, Holds, Xor, One;
    MaskOne(i);
    MaskWhole(w, i);
    if i != j {
      MaskApart(i, j);
      XorMisses(w, Mask(i), Mask(j));
    } else if Meets(w, Mask(i)) {
      XorClears(w, Mask(i));
    } else {
      XorSets(w, Mask(i));
    }
  }

  lemma XorClears(w: bv32, m: bv32)
    requires Holds(w, m)
    ensures !Meets(Xor(w, m), m)
  {
  }

  lemma XorSets(w: bv32, m: bv32)
    requires One(m) && !Meets(w, m)
    ensures Meets(Xor(w, m), m)
  {
  }

  lemma XorMisses(w: bv32, m: bv32, n: bv32)
    requires !Meets(m, n)
    ensures Meets(Xor(w, m), n) <==> Meets(w, n)
  {
  }

  // A word is zero exactly if it has no bit.
  lemma ZeroWord(w: bv32)
    ensures w == 0 <==> forall o: nat :: o < WORD_BITS ==> !HasBit(w, o)
  {
    if forall o: nat :: o < WORD_BITS ==> !HasBit(w, o) {
      assert !HasBit(w, 0) && !HasBit(w, 1) && !HasBit(w, 2) && !HasBit(w, 3);
      assert !HasBit(w, 4) && !HasBit(w, 5) && !HasBit(w, 6) && !HasBit(w, 7);
      assert !HasBit(w, 8) && !HasBit(w, 9) && !HasBit(w, 10) && !HasBit(w, 11);
      assert !HasBit(w, 12) && !HasBit(w, 13) && !HasBit(w, 14) && !HasBit(w, 15);
      assert !HasBit(w, 16) && !HasBit(w, 17) && !HasBit(w, 18) && !HasBit(w, 19);
      assert !HasBit(w, 20) && !HasBit(w, 21) && !HasBit(w, 22) && !HasBit(w, 23);
      assert !HasBit(w, 24) && !HasBit(w, 25) && !HasBit(w, 26) && !HasBit(w, 27);
      assert !HasBit(w, 28) && !HasBit(w, 29) && !HasBit(w, 30) && !HasBit(w, 31);
    }
  }

  lemma AllOnes(o: nat)
    requires o < WORD_BITS
    ensures HasBit(0xffff_ffff, o)
  {
  }
}
