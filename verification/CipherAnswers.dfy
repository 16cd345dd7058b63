/** Known answers of the packet cipher, worked out from the program's own formulas and tables. */
module CipherAnswers {
  import opened Aes
  import opened FunnyBytes
  import opened PacketCipher

  /** The vector that follows 00 00 00 00. */
  lemma NextOfZero()
    ensures NextIv([0x00, 0x00, 0x00, 0x00]) == [0x11, 0xbb, 0x64, 0xc7]
  {
    hide ShuffleStep;
    var iv: Iv := [0x00, 0x00, 0x00, 0x00];
    NextOfZero1();
    NextOfZero2();
    NextOfZero3();
    NextOfZero4();
    assert Shuffled(iv, 1) == Word(0xfc, 0xb8, 0x14, 0x9f);
    assert Shuffled(iv, 2) == Word(0x34, 0x00, 0xc6, 0x29);
    assert Shuffled(iv, 3) == Word(0x07, 0xb1, 0xf6, 0xae);
  }

  lemma NextOfZero1()
    ensures ShuffleStep(Word(0xf2, 0x53, 0x50, 0xc6), 0x00) == Word(0xfc, 0xb8, 0x14, 0x9f)
  {
  }

  lemma NextOfZero2()
    ensures ShuffleStep(Word(0xfc, 0xb8, 0x14, 0x9f), 0x00) == Word(0x34, 0x00, 0xc6, 0x29)
  {
  }

  lemma NextOfZero3()
    ensures ShuffleStep(Word(0x34, 0x00, 0xc6, 0x29), 0x00) == Word(0x07, 0xb1, 0xf6, 0xae)
  {
  }

  lemma NextOfZero4()
    ensures ShuffleStep(Word(0x07, 0xb1, 0xf6, 0xae), 0x00) == Word(0x11, 0xbb, 0x64, 0xc7)
  {
  }

  /** The vector that follows 46 72 7A 52. */
  lemma NextOfFirst()
    ensures NextIv([0x46, 0x72, 0x7a, 0x52]) == [0x6d, 0xc0, 0x51, 0x75]
  {
    hide ShuffleStep;
    var iv: Iv := [0x46, 0x72, 0x7a, 0x52];
    NextOfFirst1();
    NextOfFirst2();
    NextOfFirst3();
    NextOfFirst4();
    assert Shuffled(iv, 1) == Word(0xcb, 0xc6, 0x43, 0xc5);
    assert Shuffled(iv, 2) == Word(0x58, 0xd8, 0xad, 0x10);
    assert Shuffled(iv, 3) == Word(0xe0, 0xf1, 0xd9, 0x5b);
  }

  lemma NextOfFirst1()
    ensures ShuffleStep(Word(0xf2, 0x53, 0x50, 0xc6), 0x46) == Word(0xcb, 0xc6, 0x43, 0xc5)
  {
  }

  lemma NextOfFirst2()
    ensures ShuffleStep(Word(0xcb, 0xc6, 0x43, 0xc5), 0x72) == Word(0x58, 0xd8, 0xad, 0x10)
  {
  }

  lemma NextOfFirst3()
    ensures ShuffleStep(Word(0x58, 0xd8, 0xad, 0x10), 0x7a) == Word(0xe0, 0xf1, 0xd9, 0x5b)
  {
  }

  lemma NextOfFirst4()
    ensures ShuffleStep(Word(0xe0, 0xf1, 0xd9, 0x5b), 0x52) == Word(0x6d, 0xc0, 0x51, 0x75)
  {
  }

  /** What the six passes make of the message 01 80 FF. */
  lemma ScrambledMessage()
    ensures Scramble([0x01, 0x80, 0xff]) == [0x2f, 0x8c, 0x3f]
  {
    hide EncryptForward, EncryptBackward;
    Pass1();
    Pass2();
    Pass3();
    Pass4();
    Pass5();
    Pass6();
    assert Twice([0x01, 0x80, 0xff]) == [0x24, 0xc9, 0x81];
    assert Twice([0x24, 0xc9, 0x81]) == [0x26, 0x81, 0x15];
  }

  lemma Pass1()
    ensures EncryptForward([0x01, 0x80, 0xff], 3, 0) == [0xe6, 0x04, 0xc1]
  {
    assert [0x01, 0x80, 0xff][1..] == [0x80, 0xff] && [0x80, 0xff][1..] == [0xff];
    assert [0xff][1..] == [];
  }

  lemma Pass2()
    ensures EncryptBackward([0xe6, 0x04, 0xc1], 3, 0) == [0x24, 0xc9, 0x81]
  {
    assert [0xe6, 0x04, 0xc1][..2] == [0xe6, 0x04] && [0xe6, 0x04][..1] == [0xe6];
    assert [0xe6][..0] == [];
  }

  lemma Pass3()
    ensures EncryptForward([0x24, 0xc9, 0x81], 3, 0) == [0xc3, 0x2a, 0x8b]
  {
    assert [0x24, 0xc9, 0x81][1..] == [0xc9, 0x81] && [0xc9, 0x81][1..] == [0x81];
    assert [0x81][1..] == [];
  }

  lemma Pass4()
    ensures EncryptBackward([0xc3, 0x2a, 0x8b], 3, 0) == [0x26, 0x81, 0x15]
  {
    assert [0xc3, 0x2a, 0x8b][..2] == [0xc3, 0x2a] && [0xc3, 0x2a][..1] == [0xc3];
    assert [0xc3][..0] == [];
  }

  lemma Pass5()
    ensures EncryptForward([0x26, 0x81, 0x15], 3, 0) == [0xc1, 0xb9, 0x7e]
  {
    assert [0x26, 0x81, 0x15][1..] == [0x81, 0x15] && [0x81, 0x15][1..] == [0x15];
    assert [0x15][1..] == [];
  }

  lemma Pass6()
    ensures EncryptBackward([0xc1, 0xb9, 0x7e], 3, 0) == [0x2f, 0x8c, 0x3f]
  {
    assert [0xc1, 0xb9, 0x7e][..2] == [0xc1, 0xb9] && [0xc1, 0xb9][..1] == [0xc1];
    assert [0xc1][..0] == [];
  }

  /** The counter of a pass is the low byte of the length. */
  lemma Counters()
    ensures Low(3) == 3 && Low(255) == 255 && Low(256) == 0 && Low(0x1234) == 0x34
  {
  }

  /** The keystream starts again after 1456 bytes and from then on after every 1460. */
  lemma Restarts()
    ensures ChunkOffset(1455) == 1455 && ChunkOffset(1456) == 0
    ensures ChunkOffset(2915) == 1459 && ChunkOffset(2916) == 0
  {
  }

  /** The block that the keystream starts from is the vector four times over. */
  lemma FourTimes(iv: Iv)
    ensures Repeated(iv) == iv + iv + iv + iv
  {
  }

  /** The header of a message of 258 bytes, sent by version 83 under a vector ending in 7A 52. */
  lemma HeaderBytes()
    ensures Header(0x7a, 0x52, Swap16(83), 0x0102) == Word(0x29, 0x52, 0x2b, 0x53)
  {
  }

  /** The first column of the first round of the example in appendix B of FIPS 197. */
  lemma MixedColumnOfStandard(s: Block)
    requires s[0] == 0xd4 && s[1] == 0xbf && s[2] == 0x5d && s[3] == 0x30
    ensures [MixedByte(s, 0), MixedByte(s, 1), MixedByte(s, 2), MixedByte(s, 3)] == [0x04, 0x66, 0x81, 0xe5]
  {
    hide MixedByte;
    MixedColumn(s, 0);
  }
}
