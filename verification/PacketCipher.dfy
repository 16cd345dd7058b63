/** The packet cipher: six chained byte passes, an AES keystream restarted for every chunk,
    and a shuffle of the initialisation vector after every message. */
module PacketCipher {
  import opened Common
  import opened Aes
  import opened FunnyBytes

  type Iv = s: seq<bv8> | |s| == 4 witness [0, 0, 0, 0]

  type Length = n: nat | n < 0x1_0000

  // ---------- byte rotations ----------

  function RollLeft(b: bv8, count: bv8): bv8 {
    var tmp := (b as bv16) << (count % 8);
    ((tmp | (tmp >> 8)) & 0xff) as bv8
  }

  function RollRight(b: bv8, count: bv8): bv8 {
    var tmp := ((b as bv16) << 8) >> (count % 8);
    ((tmp | (tmp >> 8)) & 0xff) as bv8
  }

  /** Both are rotations by the count modulo eight. */
  lemma RollsRotate(b: bv8, count: bv8)
    ensures RollLeft(b, count) == if count % 8 == 0 then b else (b << (count % 8)) | (b >> (8 - count % 8))
    ensures RollRight(b, count) == if count % 8 == 0 then b else (b >> (count % 8)) | (b << (8 - count % 8))
  {
  }

  // ---------- the chained passes ----------

  function ForwardMix(b: bv8, left: bv8, remember: bv8): bv8 { (RollLeft(b, 3) + left) ^ remember }

  function ForwardOut(cur: bv8, left: bv8): bv8 { !RollRight(cur, left) + 0x48 }

  function ForwardIn(b: bv8, left: bv8): bv8 { RollLeft(!(b - 0x48), left) }

  function ForwardUnmix(cur: bv8, left: bv8, remember: bv8): bv8 { RollRight((cur ^ remember) - left, 3) }

  function BackwardMix(b: bv8, left: bv8, remember: bv8): bv8 { (RollLeft(b, 4) + left) ^ remember }

  function BackwardOut(cur: bv8): bv8 { RollRight(cur ^ 0x13, 3) }

  function BackwardIn(b: bv8): bv8 { RollLeft(b, 3) ^ 0x13 }

  function BackwardUnmix(cur: bv8, left: bv8, remember: bv8): bv8 { RollRight((cur ^ remember) - left, 4) }

  lemma ForwardByteInverts(b: bv8, left: bv8, remember: bv8)
    ensures var cur := ForwardMix(b, left, remember);
            ForwardIn(ForwardOut(cur, left), left) == cur && ForwardUnmix(cur, left, remember) == b
  {
  }

  lemma BackwardByteInverts(b: bv8, left: bv8, remember: bv8)
    ensures var cur := BackwardMix(b, left, remember);
            BackwardIn(BackwardOut(cur)) == cur && BackwardUnmix(cur, left, remember) == b
  {
  }

  /** First to last byte; `left` counts down and wraps, `remember` is the previous mixed byte. */
  function EncryptForward(s: seq<bv8>, left: bv8, remember: bv8): (r: seq<bv8>)
    ensures |r| == |s|
  {
    if s == [] then []
    else
      var cur := ForwardMix(s[0], left, remember);
      [ForwardOut(cur, left)] + EncryptForward(s[1..], left - 1, cur)
  }

  function DecryptForward(s: seq<bv8>, left: bv8, remember: bv8): (r: seq<bv8>)
    ensures |r| == |s|
  {
    if s == [] then []
    else
      var cur := ForwardIn(s[0], left);
      [ForwardUnmix(cur, left, remember)] + DecryptForward(s[1..], left - 1, cur)
  }

  /** Last to first byte. */
  function EncryptBackward(s: seq<bv8>, left: bv8, remember: bv8): (r: seq<bv8>)
    ensures |r| == |s|
  {
    if s == [] then []
    else
      var n := |s| - 1;
      var cur := BackwardMix(s[n], left, remember);
      EncryptBackward(s[..n], left - 1, cur) + [BackwardOut(cur)]
  }

  function DecryptBackward(s: seq<bv8>, left: bv8, remember: bv8): (r: seq<bv8>)
    ensures |r| == |s|
  {
    if s == [] then []
    else
      var n := |s| - 1;
      var cur := BackwardIn(s[n]);
      DecryptBackward(s[..n], left - 1, cur) + [BackwardUnmix(cur, left, remember)]
  }

  lemma {:induction false} ForwardInverts(s: seq<bv8>, left: bv8, remember: bv8)
    ensures DecryptForward(EncryptForward(s, left, remember), left, remember) == s
    decreases s
  {
    hide ForwardMix, ForwardIn, ForwardOut, ForwardUnmix;
    if s != [] {
      var cur := ForwardMix(s[0], left, remember);
      ForwardByteInverts(s[0], left, remember);
      ForwardInverts(s[1..], left - 1, cur);
      assert EncryptForward(s, left, remember)[1..] == EncryptForward(s[1..], left - 1, cur);
    }
  }

  lemma {:induction false} BackwardInverts(s: seq<bv8>, left: bv8, remember: bv8)
    ensures DecryptBackward(EncryptBackward(s, left, remember), left, remember) == s
    decreases s
  {
    hide BackwardMix, BackwardIn, BackwardOut, BackwardUnmix;
    if s != [] {
      var n := |s| - 1;
      var cur := BackwardMix(s[n], left, remember);
      BackwardByteInverts(s[n], left, remember);
      BackwardInverts(s[..n], left - 1, cur);
      var e := EncryptBackward(s, left, remember);
      assert e[..n] == EncryptBackward(s[..n], left - 1, cur) && e[n] == BackwardOut(cur);
      assert DecryptBackward(e, left, remember) == s[..n] + [s[n]];
    }
  }

  /** The length as the 8-bit counter every pass starts from. */
  function Low(n: nat): bv8 { (n % 256) as bv8 }

  function Twice(s: seq<bv8>): (r: seq<bv8>)
    ensures |r| == |s|
  {
    EncryptBackward(EncryptForward(s, Low(|s|), 0), Low(|s|), 0)
  }

  function Untwice(s: seq<bv8>): seq<bv8> {
    DecryptForward(DecryptBackward(s, Low(|s|), 0), Low(|s|), 0)
  }

  function Scramble(s: seq<bv8>): seq<bv8> { Twice(Twice(Twice(s))) }

  function Unscramble(s: seq<bv8>): seq<bv8> { Untwice(Untwice(Untwice(s))) }

  lemma TwiceInverts(s: seq<bv8>)
    ensures Untwice(Twice(s)) == s
  {
    hide Low;
    ForwardInverts(s, Low(|s|), 0);
    BackwardInverts(EncryptForward(s, Low(|s|), 0), Low(|s|), 0);
  }

  lemma ScrambleInverts(s: seq<bv8>)
    ensures |Scramble(s)| == |s| && Unscramble(Scramble(s)) == s
  {
    hide Twice, Untwice;
    TwiceInverts(s);
    TwiceInverts(Twice(s));
    TwiceInverts(Twice(Twice(s)));
  }

  // ---------- the keystream ----------

  function Repeated(iv: Iv): Block {
    seq(16, i requires 0 <= i < 16 => iv[i % 4])
  }

  /** The n-th output block of output feedback (section 6.4 of NIST SP 800-38A) on the repeated vector. */
  function OutputBlock(iv: Iv, n: nat): Block {
    if n == 0 then Repeated(iv) else Cipher(OutputBlock(iv, n - 1))
  }

  /** The position of byte `p` inside its chunk: the first chunk has 0x5B0 bytes, all others 0x5B4. */
  function ChunkOffset(p: nat): nat {
    if p < 0x5B0 then p else (p - 0x5B0) % 0x5B4
  }

  function KeyByte(iv: Iv, p: nat): bv8 {
    OutputBlock(iv, ChunkOffset(p) / 16 + 1)[ChunkOffset(p) % 16]
  }

  function Keyed(iv: Iv, s: seq<bv8>): seq<bv8> {
    seq(|s|, p requires 0 <= p < |s| => Xor(s[p], KeyByte(iv, p)))
  }

  lemma KeyedInverts(iv: Iv, s: seq<bv8>)
    ensures |Keyed(iv, s)| == |s| && Keyed(iv, Keyed(iv, s)) == s
  {
    hide KeyByte;
    forall p | 0 <= p < |s|
      ensures Keyed(iv, Keyed(iv, s))[p] == s[p]
    {
      XorCancels(s[p], KeyByte(iv, p));
    }
  }

  lemma XorCancels(a: bv8, k: bv8)
    ensures (a ^ k) ^ k == a
  {
  }

  // ---------- the next initialisation vector ----------

  /** A 32-bit word in little-endian bytes, rotated left by three. */
  function Rotated(w: Word): Word {
    var merry := (w.b0 as bv32) | ((w.b1 as bv32) << 8) | ((w.b2 as bv32) << 16) | ((w.b3 as bv32) << 24);
    var turned := (merry >> 29) | (merry << 3);
    Word((turned & 0xff) as bv8, ((turned >> 8) & 0xff) as bv8, ((turned >> 16) & 0xff) as bv8, (turned >> 24) as bv8)
  }

  /** The four bytes before they are rotated; each one uses the bytes computed before it. */
  function Mixed(w: Word, b: bv8): Word {
    var n0 := Sum(w.b0, Difference(FunnyByte(w.b1), b));
    var n1 := Difference(w.b1, Xor(w.b2, FunnyByte(b)));
    var n2 := Xor(w.b2, Sum(FunnyByte(w.b3), b));
    var n3 := Difference(w.b3, Difference(n0, FunnyByte(b)));
    Word(n0, n1, n2, n3)
  }

  function ShuffleStep(w: Word, b: bv8): Word { Rotated(Mixed(w, b)) }

  function Number(b: bv8): nat { b as nat }

  function Sum(x: bv8, y: bv8): bv8 { x + y }

  function Difference(x: bv8, y: bv8): bv8 { x - y }

  /** Every byte is a sum modulo 256 of old bytes and table entries. */
  lemma MixedIsSums(w: Word, b: bv8)
    ensures var n, f := Mixed(w, b), FunnyByte(b);
            && Number(n.b0) == (Number(w.b0) + Number(FunnyByte(w.b1)) - Number(b)) % 0x100
            && Number(n.b1) == (Number(w.b1) - Number(Xor(w.b2, f))) % 0x100
            && Number(Xor(n.b2, w.b2)) == (Number(FunnyByte(w.b3)) + Number(b)) % 0x100
            && Number(n.b3) == (Number(w.b3) - Number(n.b0) + Number(f)) % 0x100
  {
    hide FunnyByte, Number, Sum, Difference, Xor;
    var f1, f3, f := FunnyByte(w.b1), FunnyByte(w.b3), FunnyByte(b);
    var n0 := Mixed(w, b).b0;
    FirstSum(w.b0, f1, b);
    SubModulo(w.b1, Xor(w.b2, f));
    AddModulo(f3, b);
    XorTwice(w.b2, Sum(f3, b));
    LastSum(w.b3, n0, f);
  }

  lemma XorTwice(x: bv8, y: bv8)
    ensures Xor(Xor(x, y), x) == y
  {
  }

  lemma FirstSum(x: bv8, y: bv8, z: bv8)
    ensures Number(Sum(x, Difference(y, z))) == (Number(x) + Number(y) - Number(z)) % 0x100
  {
    hide Number, Sum, Difference;
    SubModulo(y, z);
    AddModulo(x, Difference(y, z));
    ReduceInside(Number(x), Number(y) - Number(z));
  }

  lemma LastSum(x: bv8, y: bv8, z: bv8)
    ensures Number(Difference(x, Difference(y, z))) == (Number(x) - Number(y) + Number(z)) % 0x100
  {
    hide Number, Sum, Difference;
    SubModulo(y, z);
    SubModulo(x, Difference(y, z));
    ReduceNegated(Number(x), Number(y) - Number(z));
  }

  lemma ReduceInside(a: int, c: int)
    ensures (a + c % 0x100) % 0x100 == (a + c) % 0x100
  {
    var q := c / 0x100;
    Divided(a + c % 0x100, 0x100, (a + c) / 0x100 - q, (a + c) % 0x100);
  }

  lemma ReduceNegated(a: int, c: int)
    ensures (a - c % 0x100) % 0x100 == (a - c) % 0x100
  {
    var q := c / 0x100;
    Divided(a - c % 0x100, 0x100, (a - c) / 0x100 + q, (a - c) % 0x100);
  }

  function Wide(x: bv8, y: bv8): bv16 { x as bv16 + y as bv16 }

  function WideNumber(z: bv16): nat { z as nat }

  function LowByte(z: bv16): bv8 { (z & 0xff) as bv8 }

  lemma AddModulo(x: bv8, y: bv8)
    ensures Number(Sum(x, y)) == (Number(x) + Number(y)) % 0x100
  {
    hide Number, Sum, Wide, WideNumber, LowByte;
    WideSum(x, y);
    WideSplit(Wide(x, y));
    LowOfWide(x, y);
    InRange(Sum(x, y));
    ghost var high := WideNumber(Wide(x, y) >> 8);
    Divided(Number(x) + Number(y), 0x100, high, Number(Sum(x, y)));
  }

  lemma WideSum(x: bv8, y: bv8)
    ensures WideNumber(Wide(x, y)) == Number(x) + Number(y)
  {
  }

  lemma WideSplit(z: bv16)
    ensures WideNumber(z) == Number(LowByte(z)) + 0x100 * WideNumber(z >> 8)
  {
    WideLow(z);
    WideHigh(z);
  }

  lemma WideHigh(z: bv16)
    ensures z as int == (z & 0xff) as int + 0x100 * (z >> 8) as int
  {
  }

  lemma WideLow(z: bv16)
    ensures ((z & 0xff) as bv8) as int == (z & 0xff) as int
  {
  }

  lemma LowOfWide(x: bv8, y: bv8)
    ensures Sum(x, y) == LowByte(Wide(x, y))
  {
  }

  lemma SubModulo(x: bv8, y: bv8)
    ensures Number(Difference(x, y)) == (Number(x) - Number(y)) % 0x100
  {
    hide Number, Sum, Difference;
    AddModulo(Difference(x, y), y);
    SubThenAdd(x, y);
    InRange(x);
    InRange(y);
    InRange(Difference(x, y));
    Undo(Number(x), Number(y), Number(Difference(x, y)));
  }

  lemma InRange(x: bv8)
    ensures Number(x) < 0x100
  {
  }

  lemma SubThenAdd(x: bv8, y: bv8)
    ensures Sum(Difference(x, y), y) == x
  {
  }

  lemma Undo(x: int, y: int, z: int)
    requires 0 <= x < 0x100 && 0 <= y < 0x100 && 0 <= z < 0x100 && x == (z + y) % 0x100
    ensures z == (x - y) % 0x100
  {
  }

  /** The number that four bytes spell, least significant first. */
  function Value(w: Word): nat {
    w.b0 as nat + 0x100 * w.b1 as nat + 0x1_0000 * w.b2 as nat + 0x100_0000 * w.b3 as nat
  }

  /** Turning left by three is multiplying by eight and bringing the top three bits round. */
  lemma RotatedIsTurnedLeft(w: Word)
    ensures Value(Rotated(w)) == Value(w) * 8 % 0x1_0000_0000 + Value(w) / 0x2000_0000
  {
    hide Rotated;
    RotatedBytes(w);
    Carried(w.b0, w.b3);
    Carried(w.b1, w.b0);
    Carried(w.b2, w.b1);
    Carried(w.b3, w.b2);
    Turned(w.b0 as int, w.b1 as int, w.b2 as int, w.b3 as int, Value(w), Value(Rotated(w)));
  }

  lemma Turned(b0: int, b1: int, b2: int, b3: int, v: int, t: int)
    requires 0 <= b0 < 0x100 && 0 <= b1 < 0x100 && 0 <= b2 < 0x100 && 0 <= b3 < 0x100
    requires v == b0 + 0x100 * b1 + 0x1_0000 * b2 + 0x100_0000 * b3
    requires t == (8 * b0 - 0x100 * (b0 / 32) + b3 / 32)
                  + 0x100 * (8 * b1 - 0x100 * (b1 / 32) + b0 / 32)
                  + 0x1_0000 * (8 * b2 - 0x100 * (b2 / 32) + b1 / 32)
                  + 0x100_0000 * (8 * b3 - 0x100 * (b3 / 32) + b2 / 32)
    ensures t == v * 8 % 0x1_0000_0000 + v / 0x2000_0000
  {
    var q := b3 / 32;
    var r := v - q * 0x2000_0000;
    Divided(v, 0x2000_0000, q, r);
    Divided(v * 8, 0x1_0000_0000, q, 8 * r);
    assert t == 8 * r + q;
  }

  /** Byte by byte: three bits move in from the byte below, and into the lowest one from the highest. */
  lemma RotatedBytes(w: Word)
    ensures Rotated(w) == Word((w.b0 << 3) | (w.b3 >> 5), (w.b1 << 3) | (w.b0 >> 5),
                               (w.b2 << 3) | (w.b1 >> 5), (w.b3 << 3) | (w.b2 >> 5))
  {
  }

  lemma Carried(x: bv8, y: bv8)
    ensures ((x << 3) | (y >> 5)) as int == 8 * x as int - 0x100 * (x as int / 32) + y as int / 32
  {
    Joined(x, y);
    TopBits(x);
    TopBits(y);
  }

  lemma Joined(x: bv8, y: bv8)
    ensures ((x << 3) | (y >> 5)) as int == 8 * x as int - 0x100 * (x >> 5) as int + (y >> 5) as int
  {
  }

  lemma TopBits(x: bv8)
    ensures (x >> 5) as int == x as int / 32
  {
  }

  const SHUFFLE_START := Word(0xF2, 0x53, 0x50, 0xC6)

  function Shuffled(iv: Iv, n: nat): Word
    requires n <= 4
  {
    if n == 0 then SHUFFLE_START else ShuffleStep(Shuffled(iv, n - 1), iv[n - 1])
  }

  function NextIv(iv: Iv): Iv {
    var w := Shuffled(iv, 4);
    [w.b0, w.b1, w.b2, w.b3]
  }

  // ---------- whole messages and whole sessions ----------

  function Encrypted(iv: Iv, s: seq<bv8>): seq<bv8> { Keyed(iv, Scramble(s)) }

  function Decrypted(iv: Iv, s: seq<bv8>): seq<bv8> { Unscramble(Keyed(iv, s)) }

  lemma MessageRoundTrip(iv: Iv, s: seq<bv8>)
    ensures |Encrypted(iv, s)| == |s| && Decrypted(iv, Encrypted(iv, s)) == s
  {
    hide Scramble, Unscramble, Keyed;
    ScrambleInverts(s);
    KeyedInverts(iv, Scramble(s));
  }

  function IvAfter(iv: Iv, n: nat): Iv
    decreases n
  {
    if n == 0 then iv else IvAfter(NextIv(iv), n - 1)
  }

  /** What a sender starting from `iv` puts on the wire. */
  function SendAll(iv: Iv, msgs: seq<seq<bv8>>): seq<seq<bv8>>
    decreases msgs
  {
    if msgs == [] then [] else [Encrypted(iv, msgs[0])] + SendAll(NextIv(iv), msgs[1..])
  }

  function ReceiveAll(iv: Iv, wire: seq<seq<bv8>>): seq<seq<bv8>>
    decreases wire
  {
    if wire == [] then [] else [Decrypted(iv, wire[0])] + ReceiveAll(NextIv(iv), wire[1..])
  }

  lemma {:induction false} SessionRoundTrip(iv: Iv, msgs: seq<seq<bv8>>)
    ensures |SendAll(iv, msgs)| == |msgs|
    ensures ReceiveAll(iv, SendAll(iv, msgs)) == msgs
    decreases msgs
  {
    hide Encrypted, Decrypted, NextIv;
    if msgs != [] {
      MessageRoundTrip(iv, msgs[0]);
      SessionRoundTrip(NextIv(iv), msgs[1..]);
      assert SendAll(iv, msgs)[1..] == SendAll(NextIv(iv), msgs[1..]);
    }
  }

  // ---------- the program ----------

  lemma EncryptForwardStep(s: seq<bv8>, i: nat, left: bv8, remember: bv8, done: seq<bv8>)
    requires i < |s|
    ensures var cur := ForwardMix(s[i], left, remember);
            done + EncryptForward(s[i..], left, remember)
            == done + [ForwardOut(cur, left)] + EncryptForward(s[i + 1..], left - 1, cur)
  {
    hide ForwardMix, ForwardOut;
    assert s[i..][1..] == s[i + 1..];
  }

  method EncryptForwardInPlace(length: Length, data: array<bv8>)
    requires length <= data.Length
    modifies data
    ensures data[..length] == EncryptForward(old(data[..length]), Low(length), 0)
    ensures data[length..] == old(data[length..])
  {
    hide ForwardMix, ForwardOut, Low, EncryptForward;
    var remember: bv8, left := 0, Low(length);
    ghost var s, goal := data[..length], EncryptForward(data[..length], left, 0);
    assert s[0..] == s;
    for i := 0 to length
      invariant data[..i] + EncryptForward(s[i..], left, remember) == goal
      invariant forall k :: i <= k < data.Length ==> data[k] == old(data[k])
    {
      ghost var done := data[..i];
      EncryptForwardStep(s, i, left, remember, done);
      var cur := ForwardMix(data[i], left, remember);
      data[i] := ForwardOut(cur, left);
      assert data[..i + 1] == done + [data[i]];
      remember := cur;
      left := left - 1;
    }
  }

  lemma DecryptForwardStep(s: seq<bv8>, i: nat, left: bv8, remember: bv8, done: seq<bv8>)
    requires i < |s|
    ensures var cur := ForwardIn(s[i], left);
            done + DecryptForward(s[i..], left, remember)
            == done + [ForwardUnmix(cur, left, remember)] + DecryptForward(s[i + 1..], left - 1, cur)
  {
    hide ForwardIn, ForwardUnmix;
    assert s[i..][1..] == s[i + 1..];
  }

  method DecryptForwardInPlace(length: Length, data: array<bv8>)
    requires length <= data.Length
    modifies data
    ensures data[..length] == DecryptForward(old(data[..length]), Low(length), 0)
    ensures data[length..] == old(data[length..])
  {
    hide ForwardIn, ForwardUnmix, Low, DecryptForward;
    var remember: bv8, left := 0, Low(length);
    ghost var s, goal := data[..length], DecryptForward(data[..length], left, 0);
    assert s[0..] == s;
    for i := 0 to length
      invariant data[..i] + DecryptForward(s[i..], left, remember) == goal
      invariant forall k :: i <= k < data.Length ==> data[k] == old(data[k])
    {
      ghost var done := data[..i];
      DecryptForwardStep(s, i, left, remember, done);
      var cur := ForwardIn(data[i], left);
      data[i] := ForwardUnmix(cur, left, remember);
      assert data[..i + 1] == done + [data[i]];
      remember := cur;
      left := left - 1;
    }
  }

  lemma EncryptBackwardStep(s: seq<bv8>, k: nat, left: bv8, remember: bv8, done: seq<bv8>)
    requires k < |s|
    ensures var cur := BackwardMix(s[k], left, remember);
            EncryptBackward(s[..k + 1], left, remember) + done
            == EncryptBackward(s[..k], left - 1, cur) + ([BackwardOut(cur)] + done)
  {
    hide BackwardMix, BackwardOut;
    assert s[..k + 1][..k] == s[..k];
  }

  method EncryptBackwardInPlace(length: Length, data: array<bv8>)
    requires length <= data.Length
    modifies data
    ensures data[..length] == EncryptBackward(old(data[..length]), Low(length), 0)
    ensures data[length..] == old(data[length..])
  {
    hide BackwardMix, BackwardOut, Low, EncryptBackward;
    var remember: bv8, left := 0, Low(length);
    ghost var s, goal := data[..length], EncryptBackward(data[..length], left, 0);
    assert s[..length] == s;
    for i := 0 to length
      invariant EncryptBackward(s[..length - i], left, remember) + data[length - i..length] == goal
      invariant forall k :: 0 <= k < length - i || length <= k < data.Length ==> data[k] == old(data[k])
    {
      var k := length - i - 1;
      ghost var done := data[k + 1..length];
      EncryptBackwardStep(s, k, left, remember, done);
      var cur := BackwardMix(data[k], left, remember);
      data[k] := BackwardOut(cur);
      assert data[k..length] == [data[k]] + done;
      remember := cur;
      left := left - 1;
    }
  }

  lemma DecryptBackwardStep(s: seq<bv8>, k: nat, left: bv8, remember: bv8, done: seq<bv8>)
    requires k < |s|
    ensures var cur := BackwardIn(s[k]);
            DecryptBackward(s[..k + 1], left, remember) + done
            == DecryptBackward(s[..k], left - 1, cur) + ([BackwardUnmix(cur, left, remember)] + done)
  {
    hide BackwardIn, BackwardUnmix;
    assert s[..k + 1][..k] == s[..k];
  }

  method DecryptBackwardInPlace(length: Length, data: array<bv8>)
    requires length <= data.Length
    modifies data
    ensures data[..length] == DecryptBackward(old(data[..length]), Low(length), 0)
    ensures data[length..] == old(data[length..])
  {
    hide BackwardIn, BackwardUnmix, Low, DecryptBackward;
    var remember: bv8, left := 0, Low(length);
    ghost var s, goal := data[..length], DecryptBackward(data[..length], left, 0);
    assert s[..length] == s;
    for i := 0 to length
      invariant DecryptBackward(s[..length - i], left, remember) + data[length - i..length] == goal
      invariant forall k :: 0 <= k < length - i || length <= k < data.Length ==> data[k] == old(data[k])
    {
      var k := length - i - 1;
      ghost var done := data[k + 1..length];
      DecryptBackwardStep(s, k, left, remember, done);
      var cur := BackwardIn(data[k]);
      data[k] := BackwardUnmix(cur, left, remember);
      assert data[k..length] == [data[k]] + done;
      remember := cur;
      left := left - 1;
    }
  }

  method ShuffleIv(iv: array<bv8>)
    requires iv.Length == 4
    modifies iv
    ensures iv[..] == NextIv(old(iv[..]))
  {
    hide ShuffleStep;
    var w := SHUFFLE_START;
    for i := 0 to 4
      invariant w == Shuffled(iv[..], i)
    {
      w := ShuffleStep(w, iv[i]);
    }
    iv[0], iv[1], iv[2], iv[3] := w.b0, w.b1, w.b2, w.b3;
  }

  ghost predicate ChunkStart(start: nat) {
    start == 0 || (start >= 0x5B0 && (start - 0x5B0) % 0x5B4 == 0)
  }

  lemma KeyByteInChunk(iv: Iv, start: nat, k: nat)
    requires ChunkStart(start) && k < (if start == 0 then 0x5B0 else 0x5B4)
    ensures KeyByte(iv, start + k) == OutputBlock(iv, k / 16 + 1)[k % 16]
  {
    hide OutputBlock;
    assert ChunkOffset(start + k) == k by {
      if start > 0 {
        assert (start + k - 0x5B0) % 0x5B4 == k;
      }
    }
  }

  lemma NextOutputBlock(iv: Iv, n: nat)
    ensures OutputBlock(iv, n + 1) == Cipher(OutputBlock(iv, n))
  {
  }

  /** Copies the vector four times over and XORs one chunk with the keystream that starts from it. */
  method CryptChunk(iv: array<bv8>, start: nat, llength: nat, data: array<bv8>)
    requires iv.Length == 4 && iv != data && start + llength <= data.Length
    requires ChunkStart(start) && llength <= (if start == 0 then 0x5B0 else 0x5B4)
    modifies data
    ensures forall p :: 0 <= p < data.Length ==>
      data[p] == if start <= p < start + llength then Xor(old(data[p]), KeyByte(iv[..], p)) else old(data[p])
  {
    hide Cipher, OutputBlock, KeyByte, Xor, ChunkStart;
    var myIv := RepeatIv(iv);
    for i := start to start + llength
      invariant myIv[..] == OutputBlock(iv[..], (i - start + 15) / 16)
      invariant forall p :: 0 <= p < data.Length ==>
        data[p] == if start <= p < i then Xor(old(data[p]), KeyByte(iv[..], p)) else old(data[p])
    {
      var k := i - start;
      if k % 16 == 0 {
        NextOutputBlock(iv[..], k / 16);
        EncryptBlock(myIv);
      }
      KeyByteInChunk(iv[..], start, k);
      assert myIv[k % 16] == myIv[..][k % 16];
      data[i] := Xor(data[i], myIv[k % 16]);
    }
  }

  method RepeatIv(iv: array<bv8>) returns (myIv: array<bv8>)
    requires iv.Length == 4
    ensures fresh(myIv) && myIv.Length == 16 && myIv[..] == OutputBlock(iv[..], 0)
  {
    myIv := new bv8[16](i => 0);
    for i := 0 to 16
      invariant forall j :: 0 <= j < i ==> myIv[j] == iv[j % 4]
    {
      myIv[i] := iv[i % 4];
    }
  }

  method Crypt(iv: array<bv8>, length: nat, data: array<bv8>)
    requires iv.Length == 4 && iv != data && length <= data.Length
    modifies iv, data
    ensures data[..length] == Keyed(old(iv[..]), old(data[..length]))
    ensures data[length..] == old(data[length..])
    ensures iv[..] == NextIv(old(iv[..]))
  {
    hide KeyByte, NextIv;
    var start, remaining, llength := 0, length, 0x5B0;
    while remaining > 0
      invariant start + remaining == length
      invariant remaining > 0 ==> ChunkStart(start) && llength == if start == 0 then 0x5B0 else 0x5B4
      invariant iv[..] == old(iv[..])
      invariant forall p :: 0 <= p < data.Length ==>
        data[p] == if p < start then Xor(old(data[p]), KeyByte(old(iv[..]), p)) else old(data[p])
    {
      if remaining < llength {
        llength := remaining;
      }
      CryptChunk(iv, start, llength, data);
      start := start + llength;
      remaining := remaining - llength;
      llength := 0x5B4;
    }
    ShuffleIv(iv);
  }

  // ---------- headers ----------

  function Swap16(v: bv16): bv16 { (v << 8) | (v >> 8) }

  lemma SwapTwice(v: bv16)
    ensures Swap16(Swap16(v)) == v
  {
  }

  /** The last two bytes of a vector mixed with the byte-swapped version. */
  function MixedVersion(b2: bv8, b3: bv8, swappedVersion: bv16): bv16 {
    ((b3 as bv16) | ((b2 as bv16) << 8)) ^ swappedVersion
  }

  function Header(b2: bv8, b3: bv8, swappedVersion: bv16, size: bv16): Word {
    var iiv := MixedVersion(b2, b3, swappedVersion);
    var xorIv := iiv ^ Swap16(size);
    Word((iiv >> 8) as bv8, (iiv & 0xff) as bv8, (xorIv >> 8) as bv8, (xorIv & 0xff) as bv8)
  }

  /** The size a receiver computes: the upper half of the little-endian header XORed with the lower half. */
  function ReceivedSize(h: Word): bv16 {
    var low := (h.b0 as bv16) | ((h.b1 as bv16) << 8);
    var high := (h.b2 as bv16) | ((h.b3 as bv16) << 8);
    high ^ low
  }

  function ReceivedVersion(h: Word, b2: bv8, b3: bv8): bv16 {
    Swap16((((h.b0 as bv16) << 8) | (h.b1 as bv16)) ^ ((b3 as bv16) | ((b2 as bv16) << 8)))
  }

  /** A header tells its reader the size, and together with the vector the version. */
  lemma HeaderDetermines(b2: bv8, b3: bv8, version: bv16, size: bv16)
    ensures ReceivedSize(Header(b2, b3, Swap16(version), size)) == size
    ensures ReceivedVersion(Header(b2, b3, Swap16(version), size), b2, b3) == version
  {
  }

  // ---------- contexts ----------

  class EncryptionContext {
    const iv: array<bv8>
    const mapleVersion: bv16

    constructor (start: Iv, version: bv16)
      ensures fresh(iv) && iv.Length == 4 && iv[..] == start && mapleVersion == Swap16(version)
    {
      iv := new bv8[] [start[0], start[1], start[2], start[3]];
      mapleVersion := Swap16(version);
    }

    method WriteHeader(size: bv16) returns (out: Word)
      requires iv.Length == 4
      ensures ReceivedSize(out) == size && ReceivedVersion(out, iv[2], iv[3]) == Swap16(mapleVersion)
    {
      hide ReceivedSize, ReceivedVersion, Header;
      out := Header(iv[2], iv[3], mapleVersion, size);
      SwapTwice(mapleVersion);
      HeaderDetermines(iv[2], iv[3], Swap16(mapleVersion), size);
    }

    method Encrypt(length: Length, data: array<bv8>)
      requires iv.Length == 4 && iv != data && length <= data.Length
      modifies iv, data
      ensures data[..length] == Encrypted(old(iv[..]), old(data[..length]))
      ensures data[length..] == old(data[length..])
      ensures iv[..] == NextIv(old(iv[..]))
    {
      hide EncryptForward, EncryptBackward, Low, Keyed, NextIv;
      ghost var s := data[..length];
      for j := 0 to 6
        invariant iv[..] == old(iv[..]) && data[length..] == old(data[length..])
        invariant data[..length] == Passes(s, j)
      {
        if j % 2 == 0 {
          EncryptForwardInPlace(length, data);
        } else {
          EncryptBackwardInPlace(length, data);
        }
      }
      SixPasses(s);
      Crypt(iv, length, data);
    }
  }

  /** The data after the first `j` of the alternating encryption passes. */
  ghost function Passes(s: seq<bv8>, j: nat): (r: seq<bv8>)
    ensures |r| == |s|
  {
    if j == 0 then s
    else if j % 2 == 1 then EncryptForward(Passes(s, j - 1), Low(|s|), 0)
    else EncryptBackward(Passes(s, j - 1), Low(|s|), 0)
  }

  lemma SixPasses(s: seq<bv8>)
    ensures Passes(s, 6) == Scramble(s)
  {
    hide EncryptForward, EncryptBackward;
    assert |Passes(s, 1)| == |Passes(s, 2)| == |Passes(s, 3)| == |Passes(s, 4)| == |Passes(s, 5)| == |s|;
    assert Passes(s, 2) == Twice(Passes(s, 0));
    assert Passes(s, 4) == Twice(Passes(s, 2));
    assert Passes(s, 6) == Twice(Passes(s, 4));
  }

  ghost function Unpasses(s: seq<bv8>, j: nat): (r: seq<bv8>)
    ensures |r| == |s|
  {
    if j == 0 then s
    else if j % 2 == 1 then DecryptBackward(Unpasses(s, j - 1), Low(|s|), 0)
    else DecryptForward(Unpasses(s, j - 1), Low(|s|), 0)
  }

  lemma SixUnpasses(s: seq<bv8>)
    ensures Unpasses(s, 6) == Unscramble(s)
  {
    hide DecryptForward, DecryptBackward;
    assert |Unpasses(s, 1)| == |Unpasses(s, 2)| == |Unpasses(s, 3)| == |Unpasses(s, 4)| == |Unpasses(s, 5)| == |s|;
    assert Unpasses(s, 2) == Untwice(Unpasses(s, 0));
    assert Unpasses(s, 4) == Untwice(Unpasses(s, 2));
    assert Unpasses(s, 6) == Untwice(Unpasses(s, 4));
  }

  class DecryptionContext {
    const iv: array<bv8>

    constructor (start: Iv)
      ensures fresh(iv) && iv.Length == 4 && iv[..] == start
    {
      iv := new bv8[] [start[0], start[1], start[2], start[3]];
    }

    method Decrypt(length: Length, data: array<bv8>)
      requires iv.Length == 4 && iv != data && length <= data.Length
      modifies iv, data
      ensures data[..length] == Decrypted(old(iv[..]), old(data[..length]))
      ensures data[length..] == old(data[length..])
      ensures iv[..] == NextIv(old(iv[..]))
    {
      hide DecryptForward, DecryptBackward, Low, Keyed, NextIv;
      Crypt(iv, length, data);
      ghost var s, next := data[..length], iv[..];
      for j := 1 to 7
        invariant iv[..] == next && data[length..] == old(data[length..])
        invariant data[..length] == Unpasses(s, j - 1)
      {
        if j % 2 == 0 {
          DecryptForwardInPlace(length, data);
        } else {
          DecryptBackwardInPlace(length, data);
        }
      }
      SixUnpasses(s);
    }
  }

  function SizeOf(msg: seq<bv8>): bv16
    requires |msg| < 0x1_0000
  {
    |msg| as bv16
  }

  /** Two connected peers exchanging any messages: everything arrives, every header tells the
      receiver the size and the version, and after every message both sides hold the same vector. */
  method RunSession(start: Iv, version: bv16, msgs: seq<seq<bv8>>)
    returns (received: seq<seq<bv8>>, headers: seq<(bv16, bv16)>, sendIvs: seq<Iv>, receiveIvs: seq<Iv>)
    requires forall i :: 0 <= i < |msgs| ==> |msgs[i]| < 0x1_0000
    ensures received == msgs
    ensures |headers| == |msgs| && forall i :: 0 <= i < |msgs| ==> headers[i] == (SizeOf(msgs[i]), version)
    ensures |sendIvs| == |msgs| && sendIvs == receiveIvs
    ensures forall i :: 0 <= i < |msgs| ==> sendIvs[i] == IvAfter(start, i + 1)
  {
    hide Encrypted, Decrypted, NextIv, ReceivedSize, ReceivedVersion, Swap16, SizeOf, IvAfter;
    var sender := new EncryptionContext(start, version);
    var receiver := new DecryptionContext(start);
    received, headers, sendIvs, receiveIvs := [], [], [], [];
    SwapTwice(version);
    IvAfterStep(start, 0);
    for i := 0 to |msgs|
      invariant fresh(sender.iv) && fresh(receiver.iv) && sender.iv != receiver.iv
      invariant sender.iv.Length == receiver.iv.Length == 4
      invariant sender.iv[..] == receiver.iv[..] == IvAfter(start, i)
      invariant received == msgs[..i] && sendIvs == receiveIvs
      invariant |headers| == |sendIvs| == i
      invariant forall k :: 0 <= k < i ==>
        headers[k] == (SizeOf(msgs[k]), version) && sendIvs[k] == IvAfter(start, k + 1)
    {
      var size, seen, data := Exchange(sender, receiver, msgs[i]);
      received, headers := received + [data], headers + [(size, seen)];
      sendIvs, receiveIvs := sendIvs + [sender.iv[..]], receiveIvs + [receiver.iv[..]];
      IvAfterStep(start, i);
    }
  }

  lemma {:induction false} IvAfterStep(iv: Iv, n: nat)
    ensures IvAfter(iv, 0) == iv
    ensures IvAfter(iv, n + 1) == NextIv(IvAfter(iv, n))
    decreases n
  {
    hide NextIv;
    if n > 0 {
      IvAfterStep(NextIv(iv), n - 1);
    }
  }

  method Exchange(sender: EncryptionContext, receiver: DecryptionContext, msg: seq<bv8>)
    returns (size: bv16, version: bv16, received: seq<bv8>)
    requires |msg| < 0x1_0000 && sender.iv.Length == receiver.iv.Length == 4
    requires sender.iv != receiver.iv && sender.iv[..] == receiver.iv[..]
    modifies sender.iv, receiver.iv
    ensures size == SizeOf(msg) && version == Swap16(sender.mapleVersion) && received == msg
    ensures sender.iv[..] == receiver.iv[..] == NextIv(old(sender.iv[..]))
  {
    hide Encrypted, Decrypted, NextIv, ReceivedSize, ReceivedVersion, Swap16, SizeOf;
    var n := |msg|;
    var data := new bv8[n](k requires 0 <= k < n => msg[k]);
    assert data[..n] == msg;
    MessageRoundTrip(sender.iv[..], msg);
    var h := sender.WriteHeader(SizeOf(msg));
    assert sender.iv[2] == sender.iv[..][2] && sender.iv[3] == sender.iv[..][3];
    size, version := ReceivedSize(h), ReceivedVersion(h, receiver.iv[2], receiver.iv[3]);
    sender.Encrypt(n, data);
    receiver.Decrypt(n, data);
    received := data[..n];
  }
}
