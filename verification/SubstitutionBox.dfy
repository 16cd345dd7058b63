/** The substitution table of the cipher is the one of section 5.1.1 of FIPS 197: the affine map, written by
    its bits, of the inverse in GF(2^8). */
module SubstitutionBox {
  import opened Aes

  /** Bit `i` of a byte, moved to the lowest place. */
  function Bit(x: bv8, i: bv8): bv8
    requires i < 8
  {
    (x >> i) & 1
  }

  /** Bit `i` of the affine map: the sum of five bits of the byte and a bit of 0x63. */
  function AffineBit(x: bv8, i: bv8): bv8
    requires i < 8
  {
    Bit(x, i) ^ Bit(x, (i + 4) % 8) ^ Bit(x, (i + 5) % 8) ^ Bit(x, (i + 6) % 8) ^ Bit(x, (i + 7) % 8) ^ Bit(0x63, i)
  }

  function RotateLeft(x: bv8, k: bv8): bv8
    requires 0 < k < 8
  {
    (x << k) | (x >> (8 - k))
  }

  /** The byte that the affine map sends to `y`. */
  function Unaffine(y: bv8): bv8 {
    RotateLeft(y, 1) ^ RotateLeft(y, 3) ^ RotateLeft(y, 6) ^ 0x05
  }

  lemma UnaffineInverts(y: bv8, i: bv8)
    requires i < 8
    ensures AffineBit(Unaffine(y), i) == Bit(y, i)
  {
  }

  predicate IsInverse(b: bv8) {
    b != 0 ==> GfMul(b, Unaffine(SBox(b))) == 1
  }

  /** Every entry is, bit by bit, the affine map of a byte `x` that is inverse to its index; zero counts as
      its own inverse. */
  lemma TableIsInverses(b: bv8) returns (x: bv8)
    ensures forall i: bv8 :: i < 8 ==> Bit(SBox(b), i) == AffineBit(x, i)
    ensures if b == 0 then x == 0 else GfMul(b, x) == 1
  {
    x := Unaffine(SBox(b));
    IsInverseEverywhere(b);
    ZeroIsZero();
    forall i: bv8 | i < 8
      ensures Bit(SBox(b), i) == AffineBit(x, i)
    {
      UnaffineInverts(SBox(b), i);
    }
  }

  lemma ZeroIsZero()
    ensures Unaffine(SBox(0)) == 0
  {
  }

  /** The product worked out in section 4.2 of FIPS 197. */
  lemma ProductOfStandard()
    ensures GfMul(0x57, 0x83) == 0xc1 && GfMul(0x57, 0x13) == 0xfe
  {
  }

  lemma IsInverseEverywhere(b: bv8)
    ensures IsInverse(b)
  {
    hide IsInverse;
    match b >> 4
    case 0 => IsInverseRow0(b);
    case 1 => IsInverseRow1(b);
    case 2 => IsInverseRow2(b);
    case 3 => IsInverseRow3(b);
    case 4 => IsInverseRow4(b);
    case 5 => IsInverseRow5(b);
    case 6 => IsInverseRow6(b);
    case 7 => IsInverseRow7(b);
    case 8 => IsInverseRow8(b);
    case 9 => IsInverseRow9(b);
    case 10 => IsInverseRow10(b);
    case 11 => IsInverseRow11(b);
    case 12 => IsInverseRow12(b);
    case 13 => IsInverseRow13(b);
    case 14 => IsInverseRow14(b);
    case _ => IsInverseRow15(b);
  }

  lemma IsInverseRow0(b: bv8)
    requires b >> 4 == 0
    ensures IsInverse(b)
  {
    if b == 0 || b == 1 {
    } else if b == 2 || b == 3 {
    } else if b >> 2 == 1 {
    } else if b >> 2 == 2 {
    } else {
      assert b >> 2 == 3;
    }
  }

  lemma IsInverseRow1(b: bv8)
    requires b >> 4 == 1
    ensures IsInverse(b)
  {
    if b >> 2 == 4 {
    } else if b >> 2 == 5 {
    } else if b >> 2 == 6 {
    } else {
      assert b >> 2 == 7;
    }
  }

  lemma IsInverseRow2(b: bv8)
    requires b >> 4 == 2
    ensures IsInverse(b)
  {
    if b >> 2 == 8 {
    } else if b >> 2 == 9 {
    } else if b >> 2 == 10 {
    } else {
      assert b >> 2 == 11;
    }
  }

  lemma IsInverseRow3(b: bv8)
    requires b >> 4 == 3
    ensures IsInverse(b)
  {
    if b >> 2 == 12 {
    } else if b >> 2 == 13 {
    } else if b >> 2 == 14 {
    } else {
      assert b >> 2 == 15;
    }
  }

  lemma IsInverseRow4(b: bv8)
    requires b >> 4 == 4
    ensures IsInverse(b)
  {
    if b >> 2 == 16 {
    } else if b >> 2 == 17 {
    } else if b >> 2 == 18 {
    } else {
      assert b >> 2 == 19;
    }
  }

  lemma IsInverseRow5(b: bv8)
    requires b >> 4 == 5
    ensures IsInverse(b)
  {
    if b >> 2 == 20 {
    } else if b >> 2 == 21 {
    } else if b >> 2 == 22 {
    } else {
      assert b >> 2 == 23;
    }
  }

  lemma IsInverseRow6(b: bv8)
    requires b >> 4 == 6
    ensures IsInverse(b)
  {
    if b >> 2 == 24 {
    } else if b >> 2 == 25 {
    } else if b >> 2 == 26 {
    } else {
      assert b >> 2 == 27;
    }
  }

  lemma IsInverseRow7(b: bv8)
    requires b >> 4 == 7
    ensures IsInverse(b)
  {
    if b >> 2 == 28 {
    } else if b >> 2 == 29 {
    } else if b >> 2 == 30 {
    } else {
      assert b >> 2 == 31;
    }
  }

  lemma IsInverseRow8(b: bv8)
    requires b >> 4 == 8
    ensures IsInverse(b)
  {
    if b >> 2 == 32 {
    } else if b >> 2 == 33 {
    } else if b >> 2 == 34 {
    } else {
      assert b >> 2 == 35;
    }
  }

  lemma IsInverseRow9(b: bv8)
    requires b >> 4 == 9
    ensures IsInverse(b)
  {
    if b >> 2 == 36 {
    } else if b >> 2 == 37 {
    } else if b >> 2 == 38 {
    } else {
      assert b >> 2 == 39;
    }
  }

  lemma IsInverseRow10(b: bv8)
    requires b >> 4 == 10
    ensures IsInverse(b)
  {
    if b >> 2 == 40 {
    } else if b >> 2 == 41 {
    } else if b >> 2 == 42 {
    } else {
      assert b >> 2 == 43;
    }
  }

  lemma IsInverseRow11(b: bv8)
    requires b >> 4 == 11
    ensures IsInverse(b)
  {
    if b >> 2 == 44 {
    } else if b >> 2 == 45 {
    } else if b >> 2 == 46 {
    } else {
      assert b >> 2 == 47;
    }
  }

  lemma IsInverseRow12(b: bv8)
    requires b >> 4 == 12
    ensures IsInverse(b)
  {
    if b >> 2 == 48 {
    } else if b >> 2 == 49 {
    } else if b >> 2 == 50 {
    } else {
      assert b >> 2 == 51;
    }
  }

  lemma IsInverseRow13(b: bv8)
    requires b >> 4 == 13
    ensures IsInverse(b)
  {
    if b >> 2 == 52 {
    } else if b >> 2 == 53 {
    } else if b >> 2 == 54 {
    } else {
      assert b >> 2 == 55;
    }
  }

  lemma IsInverseRow14(b: bv8)
    requires b >> 4 == 14
    ensures IsInverse(b)
  {
    if b >> 2 == 56 {
    } else if b >> 2 == 57 {
    } else if b >> 2 == 58 {
    } else {
      assert b >> 2 == 59;
    }
  }

  lemma IsInverseRow15(b: bv8)
    requires b >> 4 == 15
    ensures IsInverse(b)
  {
    if b >> 2 == 60 {
    } else if b >> 2 == 61 {
    } else if b >> 2 == 62 {
    } else {
      assert b >> 2 == 63;
    }
  }
}
