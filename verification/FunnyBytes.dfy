/** The byte table that mixes initialisation vectors, and its inverse: it is a permutation of all bytes. */
module FunnyBytes {

  function FunnyByte(b: bv8): bv8 {
    var lo := b & 0x0f;
    match b >> 4
    case 0 =>
      (match lo case 0 => 0xec case 1 => 0x3f case 2 => 0x77 case 3 => 0xa4 case 4 => 0x45 case 5 => 0xd0
       case 6 => 0x71 case 7 => 0xbf case 8 => 0xb7 case 9 => 0x98 case 10 => 0x20
       case 11 => 0xfc case 12 => 0x4b case 13 => 0xe9 case 14 => 0xb3 case _ => 0xe1)
    case 1 =>
      (match lo case 0 => 0x5c case 1 => 0x22 case 2 => 0xf7 case 3 => 0x0c case 4 => 0x44 case 5 => 0x1b
       case 6 => 0x81 case 7 => 0xbd case 8 => 0x63 case 9 => 0x8d case 10 => 0xd4
       case 11 => 0xc3 case 12 => 0xf2 case 13 => 0x10 case 14 => 0x19 case _ => 0xe0)
    case 2 =>
      (match lo case 0 => 0xfb case 1 => 0xa1 case 2 => 0x6e case 3 => 0x66 case 4 => 0xea case 5 => 0xae
       case 6 => 0xd6 case 7 => 0xce case 8 => 0x06 case 9 => 0x18 case 10 => 0x4e
       case 11 => 0xeb case 12 => 0x78 case 13 => 0x95 case 14 => 0xdb case _ => 0xba)
    case 3 =>
      (match lo case 0 => 0xb6 case 1 => 0x42 case 2 => 0x7a case 3 => 0x2a case 4 => 0x83 case 5 => 0x0b
       case 6 => 0x54 case 7 => 0x67 case 8 => 0x6d case 9 => 0xe8 case 10 => 0x65
       case 11 => 0xe7 case 12 => 0x2f case 13 => 0x07 case 14 => 0xf3 case _ => 0xaa)
    case 4 =>
      (match lo case 0 => 0x27 case 1 => 0x7b case 2 => 0x85 case 3 => 0xb0 case 4 => 0x26 case 5 => 0xfd
       case 6 => 0x8b case 7 => 0xa9 case 8 => 0xfa case 9 => 0xbe case 10 => 0xa8
       case 11 => 0xd7 case 12 => 0xcb case 13 => 0xcc case 14 => 0x92 case _ => 0xda)
    case 5 =>
      (match lo case 0 => 0xf9 case 1 => 0x93 case 2 => 0x60 case 3 => 0x2d case 4 => 0xdd case 5 => 0xd2
       case 6 => 0xa2 case 7 => 0x9b case 8 => 0x39 case 9 => 0x5f case 10 => 0x82
       case 11 => 0x21 case 12 => 0x4c case 13 => 0x69 case 14 => 0xf8 case _ => 0x31)
    case 6 =>
      (match lo case 0 => 0x87 case 1 => 0xee case 2 => 0x8e case 3 => 0xad case 4 => 0x8c case 5 => 0x6a
       case 6 => 0xbc case 7 => 0xb5 case 8 => 0x6b case 9 => 0x59 case 10 => 0x13
       case 11 => 0xf1 case 12 => 0x04 case 13 => 0x00 case 14 => 0xf6 case _ => 0x5a)
    case 7 =>
      (match lo case 0 => 0x35 case 1 => 0x79 case 2 => 0x48 case 3 => 0x8f case 4 => 0x15 case 5 => 0xcd
       case 6 => 0x97 case 7 => 0x57 case 8 => 0x12 case 9 => 0x3e case 10 => 0x37
       case 11 => 0xff case 12 => 0x9d case 13 => 0x4f case 14 => 0x51 case _ => 0xf5)
    case 8 =>
      (match lo case 0 => 0xa3 case 1 => 0x70 case 2 => 0xbb case 3 => 0x14 case 4 => 0x75 case 5 => 0xc2
       case 6 => 0xb8 case 7 => 0x72 case 8 => 0xc0 case 9 => 0xed case 10 => 0x7d
       case 11 => 0x68 case 12 => 0xc9 case 13 => 0x2e case 14 => 0x0d case _ => 0x62)
    case 9 =>
      (match lo case 0 => 0x46 case 1 => 0x17 case 2 => 0x11 case 3 => 0x4d case 4 => 0x6c case 5 => 0xc4
       case 6 => 0x7e case 7 => 0x53 case 8 => 0xc1 case 9 => 0x25 case 10 => 0xc7
       case 11 => 0x9a case 12 => 0x1c case 13 => 0x88 case 14 => 0x58 case _ => 0x2c)
    case 10 =>
      (match lo case 0 => 0x89 case 1 => 0xdc case 2 => 0x02 case 3 => 0x64 case 4 => 0x40 case 5 => 0x01
       case 6 => 0x5d case 7 => 0x38 case 8 => 0xa5 case 9 => 0xe2 case 10 => 0xaf
       case 11 => 0x55 case 12 => 0xd5 case 13 => 0xef case 14 => 0x1a case _ => 0x7c)
    case 11 =>
      (match lo case 0 => 0xa7 case 1 => 0x5b case 2 => 0xa6 case 3 => 0x6f case 4 => 0x86 case 5 => 0x9f
       case 6 => 0x73 case 7 => 0xe6 case 8 => 0x0a case 9 => 0xde case 10 => 0x2b
       case 11 => 0x99 case 12 => 0x4a case 13 => 0x47 case 14 => 0x9c case _ => 0xdf)
    case 12 =>
      (match lo case 0 => 0x09 case 1 => 0x76 case 2 => 0x9e case 3 => 0x30 case 4 => 0x0e case 5 => 0xe4
       case 6 => 0xb2 case 7 => 0x94 case 8 => 0xa0 case 9 => 0x3b case 10 => 0x34
       case 11 => 0x1d case 12 => 0x28 case 13 => 0x0f case 14 => 0x36 case _ => 0xe3)
    case 13 =>
      (match lo case 0 => 0x23 case 1 => 0xb4 case 2 => 0x03 case 3 => 0xd8 case 4 => 0x90 case 5 => 0xc8
       case 6 => 0x3c case 7 => 0xfe case 8 => 0x5e case 9 => 0x32 case 10 => 0x24
       case 11 => 0x50 case 12 => 0x1f case 13 => 0x3a case 14 => 0x43 case _ => 0x8a)
    case 14 =>
      (match lo case 0 => 0x96 case 1 => 0x41 case 2 => 0x74 case 3 => 0xac case 4 => 0x52 case 5 => 0x33
       case 6 => 0xf0 case 7 => 0xd9 case 8 => 0x29 case 9 => 0x80 case 10 => 0xb1
       case 11 => 0x16 case 12 => 0xd3 case 13 => 0xab case 14 => 0x91 case _ => 0xb9)
    case _ =>
      (match lo case 0 => 0x84 case 1 => 0x7f case 2 => 0x61 case 3 => 0x1e case 4 => 0xcf case 5 => 0xc5
       case 6 => 0xd1 case 7 => 0x56 case 8 => 0x3d case 9 => 0xca case 10 => 0xf4
       case 11 => 0x05 case 12 => 0xc6 case 13 => 0xe5 case 14 => 0x08 case _ => 0x49)
  }

  /** Where a byte stands in the table. */
  function FunnyIndex(b: bv8): bv8 {
    var lo := b & 0x0f;
    match b >> 4
    case 0 =>
      (match lo case 0 => 0x6d case 1 => 0xa5 case 2 => 0xa2 case 3 => 0xd2 case 4 => 0x6c case 5 => 0xfb
       case 6 => 0x28 case 7 => 0x3d case 8 => 0xfe case 9 => 0xc0 case 10 => 0xb8
       case 11 => 0x35 case 12 => 0x13 case 13 => 0x8e case 14 => 0xc4 case _ => 0xcd)
    case 1 =>
      (match lo case 0 => 0x1d case 1 => 0x92 case 2 => 0x78 case 3 => 0x6a case 4 => 0x83 case 5 => 0x74
       case 6 => 0xeb case 7 => 0x91 case 8 => 0x29 case 9 => 0x1e case 10 => 0xae
       case 11 => 0x15 case 12 => 0x9c case 13 => 0xcb case 14 => 0xf3 case _ => 0xdc)
    case 2 =>
      (match lo case 0 => 0x0a case 1 => 0x5b case 2 => 0x11 case 3 => 0xd0 case 4 => 0xda case 5 => 0x99
       case 6 => 0x44 case 7 => 0x40 case 8 => 0xcc case 9 => 0xe8 case 10 => 0x33
       case 11 => 0xba case 12 => 0x9f case 13 => 0x53 case 14 => 0x8d case _ => 0x3c)
    case 3 =>
      (match lo case 0 => 0xc3 case 1 => 0x5f case 2 => 0xd9 case 3 => 0xe5 case 4 => 0xca case 5 => 0x70
       case 6 => 0xce case 7 => 0x7a case 8 => 0xa7 case 9 => 0x58 case 10 => 0xdd
       case 11 => 0xc9 case 12 => 0xd6 case 13 => 0xf8 case 14 => 0x79 case _ => 0x01)
    case 4 =>
      (match lo case 0 => 0xa4 case 1 => 0xe1 case 2 => 0x31 case 3 => 0xde case 4 => 0x14 case 5 => 0x04
       case 6 => 0x90 case 7 => 0xbd case 8 => 0x72 case 9 => 0xff case 10 => 0xbc
       case 11 => 0x0c case 12 => 0x5c case 13 => 0x93 case 14 => 0x2a case _ => 0x7d)
    case 5 =>
      (match lo case 0 => 0xdb case 1 => 0x7e case 2 => 0xe4 case 3 => 0x97 case 4 => 0x36 case 5 => 0xab
       case 6 => 0xf7 case 7 => 0x77 case 8 => 0x9e case 9 => 0x69 case 10 => 0x6f
       case 11 => 0xb1 case 12 => 0x10 case 13 => 0xa6 case 14 => 0xd8 case _ => 0x59)
    case 6 =>
      (match lo case 0 => 0x52 case 1 => 0xf2 case 2 => 0x8f case 3 => 0x18 case 4 => 0xa3 case 5 => 0x3a
       case 6 => 0x23 case 7 => 0x37 case 8 => 0x8b case 9 => 0x5d case 10 => 0x65
       case 11 => 0x68 case 12 => 0x94 case 13 => 0x38 case 14 => 0x22 case _ => 0xb3)
    case 7 =>
      (match lo case 0 => 0x81 case 1 => 0x06 case 2 => 0x87 case 3 => 0xb6 case 4 => 0xe2 case 5 => 0x84
       case 6 => 0xc1 case 7 => 0x02 case 8 => 0x2c case 9 => 0x71 case 10 => 0x32
       case 11 => 0x41 case 12 => 0xaf case 13 => 0x8a case 14 => 0x96 case _ => 0xf1)
    case 8 =>
      (match lo case 0 => 0xe9 case 1 => 0x16 case 2 => 0x5a case 3 => 0x34 case 4 => 0xf0 case 5 => 0x42
       case 6 => 0xb4 case 7 => 0x60 case 8 => 0x9d case 9 => 0xa0 case 10 => 0xdf
       case 11 => 0x46 case 12 => 0x64 case 13 => 0x19 case 14 => 0x62 case _ => 0x73)
    case 9 =>
      (match lo case 0 => 0xd4 case 1 => 0xee case 2 => 0x4e case 3 => 0x51 case 4 => 0xc7 case 5 => 0x2d
       case 6 => 0xe0 case 7 => 0x76 case 8 => 0x09 case 9 => 0xbb case 10 => 0x9b
       case 11 => 0x57 case 12 => 0xbe case 13 => 0x7c case 14 => 0xc2 case _ => 0xb5)
    case 10 =>
      (match lo case 0 => 0xc8 case 1 => 0x21 case 2 => 0x56 case 3 => 0x80 case 4 => 0x03 case 5 => 0xa8
       case 6 => 0xb2 case 7 => 0xb0 case 8 => 0x4a case 9 => 0x47 case 10 => 0x3f
       case 11 => 0xed case 12 => 0xe3 case 13 => 0x63 case 14 => 0x25 case _ => 0xaa)
    case 11 =>
      (match lo case 0 => 0x43 case 1 => 0xea case 2 => 0xc6 case 3 => 0x0e case 4 => 0xd1 case 5 => 0x67
       case 6 => 0x30 case 7 => 0x08 case 8 => 0x86 case 9 => 0xef case 10 => 0x2f
       case 11 => 0x82 case 12 => 0x66 case 13 => 0x17 case 14 => 0x49 case _ => 0x07)
    case 12 =>
      (match lo case 0 => 0x88 case 1 => 0x98 case 2 => 0x85 case 3 => 0x1b case 4 => 0x95 case 5 => 0xf5
       case 6 => 0xfc case 7 => 0x9a case 8 => 0xd5 case 9 => 0x8c case 10 => 0xf9
       case 11 => 0x4c case 12 => 0x4d case 13 => 0x75 case 14 => 0x27 case _ => 0xf4)
    case 13 =>
      (match lo case 0 => 0x05 case 1 => 0xf6 case 2 => 0x55 case 3 => 0xec case 4 => 0x1a case 5 => 0xac
       case 6 => 0x26 case 7 => 0x4b case 8 => 0xd3 case 9 => 0xe7 case 10 => 0x4f
       case 11 => 0x2e case 12 => 0xa1 case 13 => 0x54 case 14 => 0xb9 case _ => 0xbf)
    case 14 =>
      (match lo case 0 => 0x1f case 1 => 0x0f case 2 => 0xa9 case 3 => 0xcf case 4 => 0xc5 case 5 => 0xfd
       case 6 => 0xb7 case 7 => 0x3b case 8 => 0x39 case 9 => 0x0d case 10 => 0x24
       case 11 => 0x2b case 12 => 0x00 case 13 => 0x89 case 14 => 0x61 case _ => 0xad)
    case _ =>
      (match lo case 0 => 0xe6 case 1 => 0x6b case 2 => 0x1c case 3 => 0x3e case 4 => 0xfa case 5 => 0x7f
       case 6 => 0x6e case 7 => 0x12 case 8 => 0x5e case 9 => 0x50 case 10 => 0x48
       case 11 => 0x20 case 12 => 0x0b case 13 => 0x45 case 14 => 0xd7 case _ => 0x7b)
  }

  predicate IsUndone(b: bv8) { FunnyIndex(FunnyByte(b)) == b }

  /** Different bytes have different entries. */
  lemma FunnyIsPermutation(a: bv8, b: bv8)
    ensures FunnyIndex(FunnyByte(a)) == a
    ensures FunnyByte(a) == FunnyByte(b) ==> a == b
  {
    hide FunnyByte, FunnyIndex;
    IsUndoneEverywhere(a);
    IsUndoneEverywhere(b);
  }

  lemma IsUndoneEverywhere(b: bv8)
    ensures IsUndone(b)
  {
    hide IsUndone;
    match b >> 4
    case 0 => IsUndoneRow0(b);
    case 1 => IsUndoneRow1(b);
    case 2 => IsUndoneRow2(b);
    case 3 => IsUndoneRow3(b);
    case 4 => IsUndoneRow4(b);
    case 5 => IsUndoneRow5(b);
    case 6 => IsUndoneRow6(b);
    case 7 => IsUndoneRow7(b);
    case 8 => IsUndoneRow8(b);
    case 9 => IsUndoneRow9(b);
    case 10 => IsUndoneRow10(b);
    case 11 => IsUndoneRow11(b);
    case 12 => IsUndoneRow12(b);
    case 13 => IsUndoneRow13(b);
    case 14 => IsUndoneRow14(b);
    case _ => IsUndoneRow15(b);
  }

  lemma IsUndoneRow0(b: bv8)
    requires b >> 4 == 0
    ensures IsUndone(b)
  {
    if b >> 2 == 0 {
    } else if b >> 2 == 1 {
    } else if b >> 2 == 2 {
    } else {
      assert b >> 2 == 3;
    }
  }

  lemma IsUndoneRow1(b: bv8)
    requires b >> 4 == 1
    ensures IsUndone(b)
  {
    if b >> 2 == 4 {
    } else if b >> 2 == 5 {
    } else if b >> 2 == 6 {
    } else {
      assert b >> 2 == 7;
    }
  }

  lemma IsUndoneRow2(b: bv8)
    requires b >> 4 == 2
    ensures IsUndone(b)
  {
    if b >> 2 == 8 {
    } else if b >> 2 == 9 {
    } else if b >> 2 == 10 {
    } else {
      assert b >> 2 == 11;
    }
  }

  lemma IsUndoneRow3(b: bv8)
    requires b >> 4 == 3
    ensures IsUndone(b)
  {
    if b >> 2 == 12 {
    } else if b >> 2 == 13 {
    } else if b >> 2 == 14 {
    } else {
      assert b >> 2 == 15;
    }
  }

  lemma IsUndoneRow4(b: bv8)
    requires b >> 4 == 4
    ensures IsUndone(b)
  {
    if b >> 2 == 16 {
    } else if b >> 2 == 17 {
    } else if b >> 2 == 18 {
    } else {
      assert b >> 2 == 19;
    }
  }

  lemma IsUndoneRow5(b: bv8)
    requires b >> 4 == 5
    ensures IsUndone(b)
  {
    if b >> 2 == 20 {
    } else if b >> 2 == 21 {
    } else if b >> 2 == 22 {
    } else {
      assert b >> 2 == 23;
    }
  }

  lemma IsUndoneRow6(b: bv8)
    requires b >> 4 == 6
    ensures IsUndone(b)
  {
    if b >> 2 == 24 {
    } else if b >> 2 == 25 {
    } else if b >> 2 == 26 {
    } else {
      assert b >> 2 == 27;
    }
  }

  lemma IsUndoneRow7(b: bv8)
    requires b >> 4 == 7
    ensures IsUndone(b)
  {
    if b >> 2 == 28 {
    } else if b >> 2 == 29 {
    } else if b >> 2 == 30 {
    } else {
      assert b >> 2 == 31;
    }
  }

  lemma IsUndoneRow8(b: bv8)
    requires b >> 4 == 8
    ensures IsUndone(b)
  {
    if b >> 2 == 32 {
    } else if b >> 2 == 33 {
    } else if b >> 2 == 34 {
    } else {
      assert b >> 2 == 35;
    }
  }

  lemma IsUndoneRow9(b: bv8)
    requires b >> 4 == 9
    ensures IsUndone(b)
  {
    if b >> 2 == 36 {
    } else if b >> 2 == 37 {
    } else if b >> 2 == 38 {
    } else {
      assert b >> 2 == 39;
    }
  }

  lemma IsUndoneRow10(b: bv8)
    requires b >> 4 == 10
    ensures IsUndone(b)
  {
    if b >> 2 == 40 {
    } else if b >> 2 == 41 {
    } else if b >> 2 == 42 {
    } else {
      assert b >> 2 == 43;
    }
  }

  lemma IsUndoneRow11(b: bv8)
    requires b >> 4 == 11
    ensures IsUndone(b)
  {
    if b >> 2 == 44 {
    } else if b >> 2 == 45 {
    } else if b >> 2 == 46 {
    } else {
      assert b >> 2 == 47;
    }
  }

  lemma IsUndoneRow12(b: bv8)
    requires b >> 4 == 12
    ensures IsUndone(b)
  {
    if b >> 2 == 48 {
    } else if b >> 2 == 49 {
    } else if b >> 2 == 50 {
    } else {
      assert b >> 2 == 51;
    }
  }

  lemma IsUndoneRow13(b: bv8)
    requires b >> 4 == 13
    ensures IsUndone(b)
  {
    if b >> 2 == 52 {
    } else if b >> 2 == 53 {
    } else if b >> 2 == 54 {
    } else {
      assert b >> 2 == 55;
    }
  }

  lemma IsUndoneRow14(b: bv8)
    requires b >> 4 == 14
    ensures IsUndone(b)
  {
    if b >> 2 == 56 {
    } else if b >> 2 == 57 {
    } else if b >> 2 == 58 {
    } else {
      assert b >> 2 == 59;
    }
  }

  lemma IsUndoneRow15(b: bv8)
    requires b >> 4 == 15
    ensures IsUndone(b)
  {
    if b >> 2 == 60 {
    } else if b >> 2 == 61 {
    } else if b >> 2 == 62 {
    } else {
      assert b >> 2 == 63;
    }
  }
}
