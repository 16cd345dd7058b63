/** AES-256 forward encryption as the packet cipher runs it, in place on a 16-byte buffer,
    and the cipher of section 5.1 of FIPS 197 that it is proved to compute. */
module Aes {

  datatype Word = Word(b0: bv8, b1: bv8, b2: bv8, b3: bv8)

  type Block = s: seq<bv8> | |s| == 16 witness [0, 0, 0, 0, 0, 0, 0, 0, 0, 0, 0, 0, 0, 0, 0, 0]

  /** The substitution table of section 5.1.1 of FIPS 197. */
  function SBox(b: bv8): bv8 {
    var lo := b & 0x0f;
    match b >> 4
    case 0 =>
      (match lo case 0 => 0x63 case 1 => 0x7c case 2 => 0x77 case 3 => 0x7b case 4 => 0xf2 case 5 => 0x6b
       case 6 => 0x6f case 7 => 0xc5 case 8 => 0x30 case 9 => 0x01 case 10 => 0x67
       case 11 => 0x2b case 12 => 0xfe case 13 => 0xd7 case 14 => 0xab case _ => 0x76)
    case 1 =>
      (match lo case 0 => 0xca case 1 => 0x82 case 2 => 0xc9 case 3 => 0x7d case 4 => 0xfa case 5 => 0x59
       case 6 => 0x47 case 7 => 0xf0 case 8 => 0xad case 9 => 0xd4 case 10 => 0xa2
       case 11 => 0xaf case 12 => 0x9c case 13 => 0xa4 case 14 => 0x72 case _ => 0xc0)
    case 2 =>
      (match lo case 0 => 0xb7 case 1 => 0xfd case 2 => 0x93 case 3 => 0x26 case 4 => 0x36 case 5 => 0x3f
       case 6 => 0xf7 case 7 => 0xcc case 8 => 0x34 case 9 => 0xa5 case 10 => 0xe5
       case 11 => 0xf1 case 12 => 0x71 case 13 => 0xd8 case 14 => 0x31 case _ => 0x15)
    case 3 =>
      (match lo case 0 => 0x04 case 1 => 0xc7 case 2 => 0x23 case 3 => 0xc3 case 4 => 0x18 case 5 => 0x96
       case 6 => 0x05 case 7 => 0x9a case 8 => 0x07 case 9 => 0x12 case 10 => 0x80
       case 11 => 0xe2 case 12 => 0xeb case 13 => 0x27 case 14 => 0xb2 case _ => 0x75)
    case 4 =>
      (match lo case 0 => 0x09 case 1 => 0x83 case 2 => 0x2c case 3 => 0x1a case 4 => 0x1b case 5 => 0x6e
       case 6 => 0x5a case 7 => 0xa0 case 8 => 0x52 case 9 => 0x3b case 10 => 0xd6
       case 11 => 0xb3 case 12 => 0x29 case 13 => 0xe3 case 14 => 0x2f case _ => 0x84)
    case 5 =>
      (match lo case 0 => 0x53 case 1 => 0xd1 case 2 => 0x00 case 3 => 0xed case 4 => 0x20 case 5 => 0xfc
       case 6 => 0xb1 case 7 => 0x5b case 8 => 0x6a case 9 => 0xcb case 10 => 0xbe
       case 11 => 0x39 case 12 => 0x4a case 13 => 0x4c case 14 => 0x58 case _ => 0xcf)
    case 6 =>
      (match lo case 0 => 0xd0 case 1 => 0xef case 2 => 0xaa case 3 => 0xfb case 4 => 0x43 case 5 => 0x4d
       case 6 => 0x33 case 7 => 0x85 case 8 => 0x45 case 9 => 0xf9 case 10 => 0x02
       case 11 => 0x7f case 12 => 0x50 case 13 => 0x3c case 14 => 0x9f case _ => 0xa8)
    case 7 =>
      (match lo case 0 => 0x51 case 1 => 0xa3 case 2 => 0x40 case 3 => 0x8f case 4 => 0x92 case 5 => 0x9d
       case 6 => 0x38 case 7 => 0xf5 case 8 => 0xbc case 9 => 0xb6 case 10 => 0xda
       case 11 => 0x21 case 12 => 0x10 case 13 => 0xff case 14 => 0xf3 case _ => 0xd2)
    case 8 =>
      (match lo case 0 => 0xcd case 1 => 0x0c case 2 => 0x13 case 3 => 0xec case 4 => 0x5f case 5 => 0x97
       case 6 => 0x44 case 7 => 0x17 case 8 => 0xc4 case 9 => 0xa7 case 10 => 0x7e
       case 11 => 0x3d case 12 => 0x64 case 13 => 0x5d case 14 => 0x19 case _ => 0x73)
    case 9 =>
      (match lo case 0 => 0x60 case 1 => 0x81 case 2 => 0x4f case 3 => 0xdc case 4 => 0x22 case 5 => 0x2a
       case 6 => 0x90 case 7 => 0x88 case 8 => 0x46 case 9 => 0xee case 10 => 0xb8
       case 11 => 0x14 case 12 => 0xde case 13 => 0x5e case 14 => 0x0b case _ => 0xdb)
    case 10 =>
      (match lo case 0 => 0xe0 case 1 => 0x32 case 2 => 0x3a case 3 => 0x0a case 4 => 0x49 case 5 => 0x06
       case 6 => 0x24 case 7 => 0x5c case 8 => 0xc2 case 9 => 0xd3 case 10 => 0xac
       case 11 => 0x62 case 12 => 0x91 case 13 => 0x95 case 14 => 0xe4 case _ => 0x79)
    case 11 =>
      (match lo case 0 => 0xe7 case 1 => 0xc8 case 2 => 0x37 case 3 => 0x6d case 4 => 0x8d case 5 => 0xd5
       case 6 => 0x4e case 7 => 0xa9 case 8 => 0x6c case 9 => 0x56 case 10 => 0xf4
       case 11 => 0xea case 12 => 0x65 case 13 => 0x7a case 14 => 0xae case _ => 0x08)
    case 12 =>
      (match lo case 0 => 0xba case 1 => 0x78 case 2 => 0x25 case 3 => 0x2e case 4 => 0x1c case 5 => 0xa6
       case 6 => 0xb4 case 7 => 0xc6 case 8 => 0xe8 case 9 => 0xdd case 10 => 0x74
       case 11 => 0x1f case 12 => 0x4b case 13 => 0xbd case 14 => 0x8b case _ => 0x8a)
    case 13 =>
      (match lo case 0 => 0x70 case 1 => 0x3e case 2 => 0xb5 case 3 => 0x66 case 4 => 0x48 case 5 => 0x03
       case 6 => 0xf6 case 7 => 0x0e case 8 => 0x61 case 9 => 0x35 case 10 => 0x57
       case 11 => 0xb9 case 12 => 0x86 case 13 => 0xc1 case 14 => 0x1d case _ => 0x9e)
    case 14 =>
      (match lo case 0 => 0xe1 case 1 => 0xf8 case 2 => 0x98 case 3 => 0x11 case 4 => 0x69 case 5 => 0xd9
       case 6 => 0x8e case 7 => 0x94 case 8 => 0x9b case 9 => 0x1e case 10 => 0x87
       case 11 => 0xe9 case 12 => 0xce case 13 => 0x55 case 14 => 0x28 case _ => 0xdf)
    case _ =>
      (match lo case 0 => 0x8c case 1 => 0xa1 case 2 => 0x89 case 3 => 0x0d case 4 => 0xbf case 5 => 0xe6
       case 6 => 0x42 case 7 => 0x68 case 8 => 0x41 case 9 => 0x99 case 10 => 0x2d
       case 11 => 0x0f case 12 => 0xb0 case 13 => 0x54 case 14 => 0xbb case _ => 0x16)
  }

  /** The round keys as the program stores them, one row of sixteen bytes for each round. */
  function RoundKeyWord(i: nat): Word
    requires i < 60
  {
    var lo := i % 4;
    match i / 4
    case 0 =>
      (match lo case 0 => Word(0x13, 0x00, 0x00, 0x00) case 1 => Word(0x08, 0x00, 0x00, 0x00)
       case 2 => Word(0x06, 0x00, 0x00, 0x00) case _ => Word(0xb4, 0x00, 0x00, 0x00))
    case 1 =>
      (match lo case 0 => Word(0x1b, 0x00, 0x00, 0x00) case 1 => Word(0x0f, 0x00, 0x00, 0x00)
       case 2 => Word(0x33, 0x00, 0x00, 0x00) case _ => Word(0x52, 0x00, 0x00, 0x00))
    case 2 =>
      (match lo case 0 => Word(0x71, 0x63, 0x63, 0x00) case 1 => Word(0x79, 0x63, 0x63, 0x00)
       case 2 => Word(0x7f, 0x63, 0x63, 0x00) case _ => Word(0xcb, 0x63, 0x63, 0x00))
    case 3 =>
      (match lo case 0 => Word(0x04, 0xfb, 0xfb, 0x63) case 1 => Word(0x0b, 0xfb, 0xfb, 0x63)
       case 2 => Word(0x38, 0xfb, 0xfb, 0x63) case _ => Word(0x6a, 0xfb, 0xfb, 0x63))
    case 4 =>
      (match lo case 0 => Word(0x7c, 0x6c, 0x98, 0x02) case 1 => Word(0x05, 0x0f, 0xfb, 0x02)
       case 2 => Word(0x7a, 0x6c, 0x98, 0x02) case _ => Word(0xb1, 0x0f, 0xfb, 0x02))
    case 5 =>
      (match lo case 0 => Word(0xcc, 0x8d, 0xf4, 0x14) case 1 => Word(0xc7, 0x76, 0x0f, 0x77)
       case 2 => Word(0xff, 0x8d, 0xf4, 0x14) case _ => Word(0x95, 0x76, 0x0f, 0x77))
    case 6 =>
      (match lo case 0 => Word(0x40, 0x1a, 0x6d, 0x28) case 1 => Word(0x45, 0x15, 0x96, 0x2a)
       case 2 => Word(0x3f, 0x79, 0x0e, 0x28) case _ => Word(0x8e, 0x76, 0xf5, 0x2a))
    case 7 =>
      (match lo case 0 => Word(0xd5, 0xb5, 0x12, 0xf1) case 1 => Word(0x12, 0xc3, 0x1d, 0x86)
       case 2 => Word(0xed, 0x4e, 0xe9, 0x92) case _ => Word(0x78, 0x38, 0xe6, 0xe5))
    case 8 =>
      (match lo case 0 => Word(0x4f, 0x94, 0xb4, 0x94) case 1 => Word(0x0a, 0x81, 0x22, 0xbe)
       case 2 => Word(0x35, 0xf8, 0x2c, 0x96) case _ => Word(0xbb, 0x8e, 0xd9, 0xbc))
    case 9 =>
      (match lo case 0 => Word(0x3f, 0xac, 0x27, 0x94) case 1 => Word(0x2d, 0x6f, 0x3a, 0x12)
       case 2 => Word(0xc0, 0x21, 0xd3, 0x80) case _ => Word(0xb8, 0x19, 0x35, 0x65))
    case 10 =>
      (match lo case 0 => Word(0x8b, 0x02, 0xf9, 0xf8) case 1 => Word(0x81, 0x83, 0xdb, 0x46)
       case 2 => Word(0xb4, 0x7b, 0xf7, 0xd0) case _ => Word(0x0f, 0xf5, 0x2e, 0x6c))
    case 11 =>
      (match lo case 0 => Word(0x49, 0x4a, 0x16, 0xc4) case 1 => Word(0x64, 0x25, 0x2c, 0xd6)
       case 2 => Word(0xa4, 0x04, 0xff, 0x56) case _ => Word(0x1c, 0x1d, 0xca, 0x33))
    case 12 =>
      (match lo case 0 => Word(0x0f, 0x76, 0x3a, 0x64) case 1 => Word(0x8e, 0xf5, 0xe1, 0x22)
       case 2 => Word(0x3a, 0x8e, 0x16, 0xf2) case _ => Word(0x35, 0x7b, 0x38, 0x9e))
    case 13 =>
      (match lo case 0 => Word(0xdf, 0x6b, 0x11, 0xcf) case 1 => Word(0xbb, 0x4e, 0x3d, 0x19)
       case 2 => Word(0x1f, 0x4a, 0xc2, 0x4f) case _ => Word(0x03, 0x57, 0x08, 0x7c))
    case _ =>
      (match lo case 0 => Word(0x14, 0x46, 0x2a, 0x1f) case 1 => Word(0x9a, 0xb3, 0xcb, 0x3d)
       case 2 => Word(0xa0, 0x3d, 0xdd, 0xcf) case _ => Word(0x95, 0x46, 0xe5, 0x51))
  }

  function RoundKeyByte(k: nat): bv8
    requires k < 240
  {
    var w := RoundKeyWord(k / 4);
    if k % 4 == 0 then w.b0 else if k % 4 == 1 then w.b1 else if k % 4 == 2 then w.b2 else w.b3
  }

  lemma RoundKeyBytes(i: nat, j: nat)
    requires i < 60 && j < 4
    ensures var w := RoundKeyWord(i); RoundKeyByte(4 * i + j) == [w.b0, w.b1, w.b2, w.b3][j]
  {
    assert (4 * i + j) / 4 == i && (4 * i + j) % 4 == j;
  }

  /** Addition in GF(2^8). */
  function Xor(a: bv8, b: bv8): bv8 { a ^ b }

  function Xor4(a: bv8, b: bv8, c: bv8, d: bv8): bv8 { a ^ b ^ c ^ d }

  function XTime(x: bv8): bv8 {
    (x << 1) ^ (((x >> 7) & 1) * 0x1b)
  }

  // ---------- the standard ----------

  /** The product of two polynomials over GF(2), without reduction. */
  function PolyProduct(a: bv8, b: bv8): bv16 {
    var w := a as bv16;
    (if b & 0x01 != 0 then w else 0) ^ (if b & 0x02 != 0 then w << 1 else 0)
    ^ (if b & 0x04 != 0 then w << 2 else 0) ^ (if b & 0x08 != 0 then w << 3 else 0)
    ^ (if b & 0x10 != 0 then w << 4 else 0) ^ (if b & 0x20 != 0 then w << 5 else 0)
    ^ (if b & 0x40 != 0 then w << 6 else 0) ^ (if b & 0x80 != 0 then w << 7 else 0)
  }

  /** One step of the division by x^8 + x^4 + x^3 + x + 1, clearing bit 8 + k. */
  function ReduceBit(p: bv16, k: bv8): bv16
    requires k < 7
  {
    if p & (0x100 << k) != 0 then p ^ (0x11b << k) else p
  }

  /** Multiplication in GF(2^8), section 4.2 of FIPS 197. */
  function GfMul(a: bv8, b: bv8): bv8 {
    var p := PolyProduct(a, b);
    var r := ReduceBit(ReduceBit(ReduceBit(ReduceBit(ReduceBit(ReduceBit(ReduceBit(p, 6), 5), 4), 3), 2), 1), 0);
    (r & 0xff) as bv8
  }

  /** Row 0 of the matrix of section 5.1.3; every further row is rotated by one place. */
  function MixCoefficient(row: nat, k: nat): bv8 {
    var d := (k + 4 - row % 4) % 4;
    if d == 0 then 2 else if d == 1 then 3 else 1
  }

  function SubBytes(s: Block): Block {
    seq(16, i requires 0 <= i < 16 => SBox(s[i]))
  }

  /** Row r = i mod 4 of column c = i div 4 comes from column (c + r) mod 4. */
  function ShiftRows(s: Block): Block {
    seq(16, i requires 0 <= i < 16 => s[i % 4 + 4 * ((i / 4 + i % 4) % 4)])
  }

  function MixedByte(s: Block, i: nat): bv8
    requires i < 16
  {
    var r, c := i % 4, i / 4;
    Xor4(GfMul(MixCoefficient(r, 0), s[4 * c]), GfMul(MixCoefficient(r, 1), s[4 * c + 1]),
         GfMul(MixCoefficient(r, 2), s[4 * c + 2]), GfMul(MixCoefficient(r, 3), s[4 * c + 3]))
  }

  function MixColumns(s: Block): Block {
    seq(16, i requires 0 <= i < 16 => MixedByte(s, i))
  }

  function AddRoundKey(s: Block, round: nat): Block
    requires round < 15
  {
    seq(16, i requires 0 <= i < 16 => s[i] ^ RoundKeyByte(16 * round + i))
  }

  /** The state after the initial key addition and `n` full rounds. */
  function Rounds(s: Block, n: nat): Block
    requires n < 15
  {
    if n == 0 then AddRoundKey(s, 0)
    else AddRoundKey(MixColumns(ShiftRows(SubBytes(Rounds(s, n - 1)))), n)
  }

  function Cipher(s: Block): Block {
    AddRoundKey(ShiftRows(SubBytes(Rounds(s, 13))), 14)
  }

  // ---------- the program ----------

  method AddRoundKeyInPlace(round: nat, state: array<bv8>)
    requires state.Length == 16 && round < 15
    modifies state
    ensures state[..] == AddRoundKey(old(state[..]), round)
  {
    hide RoundKeyByte;
    for i := 0 to 4
      invariant forall k :: 0 <= k < 16 ==>
        state[k] == if k < 4 * i then old(state[k]) ^ RoundKeyByte(16 * round + k) else old(state[k])
    {
      for j := 0 to 4
        invariant forall k :: 0 <= k < 16 ==>
          state[k] == if k < 4 * i + j then old(state[k]) ^ RoundKeyByte(16 * round + k) else old(state[k])
      {
        state[4 * i + j] := state[4 * i + j] ^ RoundKeyByte(16 * round + 4 * i + j);
      }
    }
  }

  method SubBytesInPlace(state: array<bv8>)
    requires state.Length == 16
    modifies state
    ensures state[..] == SubBytes(old(state[..]))
  {
    hide SBox;
    for i := 0 to 4
      invariant forall k :: 0 <= k < 16 ==> state[k] == if k % 4 < i then SBox(old(state[k])) else old(state[k])
    {
      for j := 0 to 4
        invariant forall k :: 0 <= k < 16 ==>
          state[k] == if k % 4 < i || (k % 4 == i && k / 4 < j) then SBox(old(state[k])) else old(state[k])
      {
        state[4 * j + i] := SBox(state[4 * j + i]);
      }
    }
  }

  lemma ShiftRowsByElement(s: Block)
    ensures ShiftRows(s) == [s[0], s[5], s[10], s[15], s[4], s[9], s[14], s[3],
                             s[8], s[13], s[2], s[7], s[12], s[1], s[6], s[11]]
  {
  }

  /** Rotates the second row one column to the left. */
  method RotateRow1(state: array<bv8>)
    requires state.Length == 16
    modifies state
    ensures state[1] == old(state[5]) && state[5] == old(state[9])
    ensures state[9] == old(state[13]) && state[13] == old(state[1])
    ensures forall k :: 0 <= k < 16 && k % 4 != 1 ==> state[k] == old(state[k])
  {
    var temp := state[1];
    state[1] := state[5];
    state[5] := state[9];
    state[9] := state[13];
    state[13] := temp;
  }

  /** Rotates the third row two columns to the left. */
  method RotateRow2(state: array<bv8>)
    requires state.Length == 16
    modifies state
    ensures state[2] == old(state[10]) && state[10] == old(state[2])
    ensures state[6] == old(state[14]) && state[14] == old(state[6])
    ensures forall k :: 0 <= k < 16 && k % 4 != 2 ==> state[k] == old(state[k])
  {
    var temp := state[2];
    state[2] := state[10];
    state[10] := temp;
    temp := state[6];
    state[6] := state[14];
    state[14] := temp;
  }

  /** Rotates the fourth row three columns to the left. */
  method RotateRow3(state: array<bv8>)
    requires state.Length == 16
    modifies state
    ensures state[3] == old(state[15]) && state[15] == old(state[11])
    ensures state[11] == old(state[7]) && state[7] == old(state[3])
    ensures forall k :: 0 <= k < 16 && k % 4 != 3 ==> state[k] == old(state[k])
  {
    var temp := state[3];
    state[3] := state[15];
    state[15] := state[11];
    state[11] := state[7];
    state[7] := temp;
  }

  method ShiftRowsInPlace(state: array<bv8>)
    requires state.Length == 16
    modifies state
    ensures state[..] == ShiftRows(old(state[..]))
  {
    hide ShiftRows;
    RotateRow1(state);
    RotateRow2(state);
    RotateRow3(state);
    ShiftRowsByElement(old(state[..]));
  }

  lemma GfMulByOne(x: bv8)
    ensures GfMul(1, x) == x
  {
  }

  lemma GfMulByTwo(x: bv8)
    ensures GfMul(2, x) == XTime(x)
  {
  }

  lemma GfMulByThree(x: bv8)
    ensures GfMul(3, x) == XTime(x) ^ x
  {
  }

  lemma XTimeAdds(x: bv8, y: bv8)
    ensures XTime(x ^ y) == XTime(x) ^ XTime(y)
  {
  }

  /** The new byte that the `xtime` trick computes from a byte, its successor in the column and the column's sum. */
  function Tricked(x: bv8, next: bv8, sum: bv8): bv8 {
    x ^ (XTime(x ^ next) ^ sum)
  }

  /** The `xtime` trick on one column is the matrix product of section 5.1.3. */
  lemma ColumnTrick(a: bv8, b: bv8, c: bv8, d: bv8)
    ensures Tricked(a, b, Xor4(a, b, c, d)) == Xor4(GfMul(2, a), GfMul(3, b), GfMul(1, c), GfMul(1, d))
  {
    hide GfMul, XTime;
    GfMulByTwo(a);
    GfMulByThree(b);
    GfMulByOne(c);
    GfMulByOne(d);
    XTimeAdds(a, b);
    XorRegroups(XTime(a), XTime(b), a, b, c, d);
  }

  lemma XorRegroups(xa: bv8, xb: bv8, a: bv8, b: bv8, c: bv8, d: bv8)
    ensures a ^ ((xa ^ xb) ^ (a ^ b ^ c ^ d)) == xa ^ (xb ^ b) ^ c ^ d
  {
  }

  lemma XorRotates(a: bv8, b: bv8, c: bv8, d: bv8)
    ensures Xor4(a, b, c, d) == Xor4(b, c, d, a)
  {
    assert a ^ b ^ c ^ d == b ^ c ^ d ^ a;
  }

  method MixColumnInPlace(state: array<bv8>, i: nat)
    requires state.Length == 16 && i < 4
    modifies state
    ensures forall k :: 0 <= k < 16 ==>
              state[k] == if k / 4 == i then MixedByte(old(state[..]), k) else old(state[k])
  {
    hide MixedByte, Tricked, Xor4;
    MixedColumn(state[..], i);
    var t := state[4 * i];
    var tmp := Xor4(state[4 * i], state[4 * i + 1], state[4 * i + 2], state[4 * i + 3]);
    state[4 * i] := Tricked(state[4 * i], state[4 * i + 1], tmp);
    state[4 * i + 1] := Tricked(state[4 * i + 1], state[4 * i + 2], tmp);
    state[4 * i + 2] := Tricked(state[4 * i + 2], state[4 * i + 3], tmp);
    state[4 * i + 3] := Tricked(state[4 * i + 3], t, tmp);
  }

  method MixColumnsInPlace(state: array<bv8>)
    requires state.Length == 16
    modifies state
    ensures state[..] == MixColumns(old(state[..]))
  {
    hide MixedByte;
    ghost var s: Block := state[..];
    for i := 0 to 4
      invariant forall k :: 0 <= k < 16 ==> state[k] == if k < 4 * i then MixedByte(s, k) else s[k]
    {
      ghost var s1: Block := state[..];
      MixColumnInPlace(state, i);
      forall k | 0 <= k < 16 && k / 4 == i
        ensures MixedByte(s1, k) == MixedByte(s, k)
      {
        MixedByteReadsColumn(s1, s, k);
      }
    }
  }

  lemma MixedByteReadsColumn(s: Block, t: Block, k: nat)
    requires k < 16 && forall j :: 0 <= j < 16 && j / 4 == k / 4 ==> s[j] == t[j]
    ensures MixedByte(s, k) == MixedByte(t, k)
  {
    hide GfMul;
  }

  lemma MixedColumn(s: Block, i: nat)
    requires i < 4
    ensures var a, b, c, d := s[4 * i], s[4 * i + 1], s[4 * i + 2], s[4 * i + 3];
            var sum := Xor4(a, b, c, d);
            && MixedByte(s, 4 * i) == Tricked(a, b, sum)
            && MixedByte(s, 4 * i + 1) == Tricked(b, c, sum)
            && MixedByte(s, 4 * i + 2) == Tricked(c, d, sum)
            && MixedByte(s, 4 * i + 3) == Tricked(d, a, sum)
  {
    hide MixedByte, Tricked, Xor4;
    MixedRow0(s, i);
    MixedRow1(s, i);
    MixedRow2(s, i);
    MixedRow3(s, i);
  }

  lemma MixedAt(s: Block, i: nat, r: nat)
    requires i < 4 && r < 4
    ensures MixedByte(s, 4 * i + r)
            == Xor4(GfMul(MixCoefficient(r, 0), s[4 * i]), GfMul(MixCoefficient(r, 1), s[4 * i + 1]),
                    GfMul(MixCoefficient(r, 2), s[4 * i + 2]), GfMul(MixCoefficient(r, 3), s[4 * i + 3]))
  {
    hide GfMul, MixCoefficient, Xor4;
    assert (4 * i + r) % 4 == r && (4 * i + r) / 4 == i;
  }

  /** The rows of the matrix of section 5.1.3. */
  lemma Coefficients(r: nat)
    requires r < 4
    ensures [MixCoefficient(r, 0), MixCoefficient(r, 1), MixCoefficient(r, 2), MixCoefficient(r, 3)]
            == if r == 0 then [2, 3, 1, 1] else if r == 1 then [1, 2, 3, 1]
               else if r == 2 then [1, 1, 2, 3] else [3, 1, 1, 2]
  {
  }

  lemma MixedRow0(s: Block, i: nat)
    requires i < 4
    ensures MixedByte(s, 4 * i)
            == Tricked(s[4 * i], s[4 * i + 1], Xor4(s[4 * i], s[4 * i + 1], s[4 * i + 2], s[4 * i + 3]))
  {
    hide GfMul, Tricked, Xor4, MixedByte, MixCoefficient;
    MixedAt(s, i, 0);
    Coefficients(0);
    ColumnTrick(s[4 * i], s[4 * i + 1], s[4 * i + 2], s[4 * i + 3]);
  }

  lemma MixedRow1(s: Block, i: nat)
    requires i < 4
    ensures MixedByte(s, 4 * i + 1)
            == Tricked(s[4 * i + 1], s[4 * i + 2], Xor4(s[4 * i], s[4 * i + 1], s[4 * i + 2], s[4 * i + 3]))
  {
    hide GfMul, Tricked, Xor4, MixedByte, MixCoefficient;
    MixedAt(s, i, 1);
    Coefficients(1);
    var a, b, c, d := s[4 * i], s[4 * i + 1], s[4 * i + 2], s[4 * i + 3];
    ColumnTrick(b, c, d, a);
    XorRotates(a, b, c, d);
    XorRotates(GfMul(1, a), GfMul(2, b), GfMul(3, c), GfMul(1, d));
  }

  lemma MixedRow2(s: Block, i: nat)
    requires i < 4
    ensures MixedByte(s, 4 * i + 2)
            == Tricked(s[4 * i + 2], s[4 * i + 3], Xor4(s[4 * i], s[4 * i + 1], s[4 * i + 2], s[4 * i + 3]))
  {
    hide GfMul, Tricked, Xor4, MixedByte, MixCoefficient;
    MixedAt(s, i, 2);
    Coefficients(2);
    var a, b, c, d := s[4 * i], s[4 * i + 1], s[4 * i + 2], s[4 * i + 3];
    ColumnTrick(c, d, a, b);
    XorRotates(a, b, c, d);
    XorRotates(b, c, d, a);
    XorRotates(GfMul(1, a), GfMul(1, b), GfMul(2, c), GfMul(3, d));
    XorRotates(GfMul(1, b), GfMul(2, c), GfMul(3, d), GfMul(1, a));
  }

  lemma MixedRow3(s: Block, i: nat)
    requires i < 4
    ensures MixedByte(s, 4 * i + 3)
            == Tricked(s[4 * i + 3], s[4 * i], Xor4(s[4 * i], s[4 * i + 1], s[4 * i + 2], s[4 * i + 3]))
  {
    hide GfMul, Tricked, Xor4, MixedByte, MixCoefficient;
    MixedAt(s, i, 3);
    Coefficients(3);
    var a, b, c, d := s[4 * i], s[4 * i + 1], s[4 * i + 2], s[4 * i + 3];
    ColumnTrick(d, a, b, c);
    XorRotates(d, a, b, c);
    XorRotates(GfMul(2, d), GfMul(3, a), GfMul(1, b), GfMul(1, c));
  }

  method EncryptBlock(state: array<bv8>)
    requires state.Length == 16
    modifies state
    ensures state[..] == Cipher(old(state[..]))
  {
    hide SubBytes, ShiftRows, MixColumns, AddRoundKey;
    ghost var s: Block := state[..];
    AddRoundKeyInPlace(0, state);
    var round := 1;
    while true
      invariant 1 <= round <= 14 && state[..] == Rounds(s, round - 1)
      decreases 14 - round
    {
      SubBytesInPlace(state);
      ShiftRowsInPlace(state);
      if round == 14 {
        break;
      }
      MixColumnsInPlace(state);
      AddRoundKeyInPlace(round, state);
      round := round + 1;
    }
    AddRoundKeyInPlace(14, state);
  }

  // ---------- the stored round keys ----------

  function Rcon(n: nat): bv8
    requires n > 0
  {
    if n == 1 then 1 else XTime(Rcon(n - 1))
  }

  /** One step of the key expansion of section 5.2 of FIPS 197 for 256-bit keys. */
  function KeyStep(back8: Word, back1: Word, i: nat): Word
    requires i >= 8
  {
    var t := if i % 8 == 0 then Word(SBox(back1.b1) ^ Rcon(i / 8), SBox(back1.b2), SBox(back1.b3), SBox(back1.b0))
             else if i % 8 == 4 then Word(SBox(back1.b0), SBox(back1.b1), SBox(back1.b2), SBox(back1.b3))
             else back1;
    Word(back8.b0 ^ t.b0, back8.b1 ^ t.b1, back8.b2 ^ t.b2, back8.b3 ^ t.b3)
  }

  /** The key expansion of the 256-bit key held in the first eight stored words. */
  function ExpandedWord(i: nat): Word {
    if i < 8 then RoundKeyWord(i) else KeyStep(ExpandedWord(i - 8), ExpandedWord(i - 1), i)
  }

  predicate StoredStep(i: nat)
    requires 8 <= i < 60
  {
    RoundKeyWord(i) == KeyStep(RoundKeyWord(i - 8), RoundKeyWord(i - 1), i)
  }

  lemma Substituted1()
    ensures SBox(0x52) == 0x00 && SBox(0x00) == 0x63 && SBox(0xcb) == 0x1f && SBox(0x63) == 0xfb && SBox(0x6a) == 0x02
    ensures SBox(0xfb) == 0x0f && SBox(0xb1) == 0xc8 && SBox(0x0f) == 0x76 && SBox(0x02) == 0x77 && SBox(0x95) == 0x2a
    ensures SBox(0x76) == 0x38 && SBox(0x77) == 0xf5
  {
  }

  lemma Substituted2()
    ensures SBox(0x8e) == 0x19 && SBox(0x76) == 0x38 && SBox(0xf5) == 0xe6 && SBox(0x2a) == 0xe5 && SBox(0x78) == 0xbc
    ensures SBox(0x38) == 0x07 && SBox(0xe6) == 0x8e && SBox(0xe5) == 0xd9 && SBox(0xbb) == 0xea && SBox(0xd9) == 0x35
    ensures SBox(0xbc) == 0x65 && SBox(0xb8) == 0x6c && SBox(0x19) == 0xd4 && SBox(0x35) == 0x96 && SBox(0x65) == 0x4d
  {
  }

  lemma Substituted3()
    ensures SBox(0x0f) == 0x76 && SBox(0xf5) == 0xe6 && SBox(0x2e) == 0x31 && SBox(0x6c) == 0x50 && SBox(0x1c) == 0x9c
    ensures SBox(0x1d) == 0xa4 && SBox(0xca) == 0x74 && SBox(0x33) == 0xc3 && SBox(0x35) == 0x96 && SBox(0x7b) == 0x21
    ensures SBox(0x38) == 0x07 && SBox(0x9e) == 0x0b && SBox(0x03) == 0x7b && SBox(0x57) == 0x5b && SBox(0x08) == 0x30
    ensures SBox(0x7c) == 0x10
  {
  }

  lemma StoredSteps8()
    ensures StoredStep(8) && StoredStep(9) && StoredStep(10) && StoredStep(11)
  {
    hide SBox;
    Substituted1();
  }

  lemma StoredSteps12()
    ensures StoredStep(12) && StoredStep(13) && StoredStep(14) && StoredStep(15)
  {
    hide SBox;
    Substituted1();
  }

  lemma StoredSteps16()
    ensures StoredStep(16) && StoredStep(17) && StoredStep(18) && StoredStep(19)
  {
    hide SBox;
    Substituted1();
  }

  lemma StoredSteps20()
    ensures StoredStep(20) && StoredStep(21) && StoredStep(22) && StoredStep(23)
  {
    hide SBox;
    Substituted1();
  }

  lemma StoredSteps24()
    ensures StoredStep(24) && StoredStep(25) && StoredStep(26) && StoredStep(27)
  {
    hide SBox;
    Substituted1();
  }

  lemma StoredSteps28()
    ensures StoredStep(28) && StoredStep(29) && StoredStep(30) && StoredStep(31)
  {
    hide SBox;
    Substituted2();
  }

  lemma StoredSteps32()
    ensures StoredStep(32) && StoredStep(33) && StoredStep(34) && StoredStep(35)
  {
    hide SBox;
    Substituted2();
  }

  lemma StoredSteps36()
    ensures StoredStep(36) && StoredStep(37) && StoredStep(38) && StoredStep(39)
  {
    hide SBox;
    Substituted2();
  }

  lemma StoredSteps40()
    ensures StoredStep(40) && StoredStep(41) && StoredStep(42) && StoredStep(43)
  {
    hide SBox;
    Substituted2();
  }

  lemma StoredSteps44()
    ensures StoredStep(44) && StoredStep(45) && StoredStep(46) && StoredStep(47)
  {
    hide SBox;
    Substituted3();
  }

  lemma StoredSteps48()
    ensures StoredStep(48) && StoredStep(49) && StoredStep(50) && StoredStep(51)
  {
    hide SBox;
    Substituted3();
  }

  lemma StoredSteps52()
    ensures StoredStep(52) && StoredStep(53) && StoredStep(54) && StoredStep(55)
  {
    hide SBox;
    Substituted3();
  }

  lemma StoredSteps56()
    ensures StoredStep(56) && StoredStep(57) && StoredStep(58) && StoredStep(59)
  {
    hide SBox;
    Substituted3();
  }

  lemma StoredStepsAll(i: nat)
    requires 8 <= i < 60
    ensures StoredStep(i)
  {
    hide StoredStep;
    if i < 12 { StoredSteps8(); }
    else if i < 16 { StoredSteps12(); }
    else if i < 20 { StoredSteps16(); }
    else if i < 24 { StoredSteps20(); }
    else if i < 28 { StoredSteps24(); }
    else if i < 32 { StoredSteps28(); }
    else if i < 36 { StoredSteps32(); }
    else if i < 40 { StoredSteps36(); }
    else if i < 44 { StoredSteps40(); }
    else if i < 48 { StoredSteps44(); }
    else if i < 52 { StoredSteps48(); }
    else if i < 56 { StoredSteps52(); }
    else { StoredSteps56(); }
  }

  /** The precomputed table is the key expansion of its own first two rows. */
  lemma {:induction false} StoredKeysAreExpanded(i: nat)
    requires i < 60
    ensures RoundKeyWord(i) == ExpandedWord(i)
  {
    hide RoundKeyWord, KeyStep;
    if i >= 8 {
      StoredKeysAreExpanded(i - 8);
      StoredKeysAreExpanded(i - 1);
      StoredStepsAll(i);
    }
  }
}
