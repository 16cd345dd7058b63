/** Writing typed fields into a packet and reading them back, in little-endian byte order. */
module Wire {
  import opened Common

  datatype Field =
    | Unsigned(width: nat, value: int)
    | Signed(width: nat, value: int)
    | Text(bytes: seq<Byte>)   // preceded by its 16-bit length
    | Raw(bytes: seq<Byte>)

  /** What the reader asks for; a text is limited by the room for it. */
  datatype Kind = UnsignedOf(width: nat) | SignedOf(width: nat) | TextUpTo(max: nat) | RawOf(len: nat)

  function Range(width: nat): (r: int)
    ensures r > 0
  {
    if width == 0 then 1 else 0x100 * Range(width - 1)
  }

  /** The low `width` bytes of a value, least significant first; negative values in two's complement. */
  function Encode(value: int, width: nat): (r: seq<Byte>)
    ensures |r| == width
    decreases width
  {
    if width == 0 then [] else [value % 0x100] + Encode(value / 0x100, width - 1)
  }

  function Decode(bytes: seq<Byte>): (r: nat)
    ensures r < Range(|bytes|)
  {
    if bytes == [] then 0 else bytes[0] + 0x100 * Decode(bytes[1..])
  }

  function ToSigned(v: nat, width: nat): int {
    if 2 * v >= Range(width) then v - Range(width) else v
  }

  /** Decoding yields the value up to a multiple of the range. */
  lemma {:induction false} DecodeEncode(value: int, width: nat) returns (q: int)
    ensures Decode(Encode(value, width)) == value - q * Range(width)
    decreases width
  {
    if width == 0 {
      q := value;
    } else {
      q := DecodeEncode(value / 0x100, width - 1);
      assert Encode(value, width)[1..] == Encode(value / 0x100, width - 1);
      assert 0x100 * (q * Range(width - 1)) == q * Range(width);
    }
  }

  lemma SameResidue(a: int, b: int, q: int, m: int)
    requires 0 <= a < m && 0 <= b < m && a == b - q * m
    ensures a == b
  {
  }

  lemma UnsignedRoundTrip(value: int, width: nat)
    requires 0 <= value < Range(width)
    ensures Decode(Encode(value, width)) == value
  {
    var q := DecodeEncode(value, width);
    SameResidue(Decode(Encode(value, width)), value, q, Range(width));
  }

  lemma SignedRoundTrip(value: int, width: nat)
    requires -Range(width) <= 2 * value < Range(width)
    ensures ToSigned(Decode(Encode(value, width)), width) == value
  {
    var m := Range(width);
    var q := DecodeEncode(value, width);
    if value >= 0 {
      SameResidue(Decode(Encode(value, width)), value, q, m);
    } else {
      assert value - q * m == (value + m) - (q + 1) * m;
      SameResidue(Decode(Encode(value, width)), value + m, q + 1, m);
    }
  }

  // ---------- fields ----------

  ghost predicate Representable(f: Field) {
    match f
    case Unsigned(w, v) => 0 <= v < Range(w)
    case Signed(w, v) => -Range(w) <= 2 * v < Range(w)
    case Text(b) => |b| < 0x1_0000
    case Raw(_) => true
  }

  function Bytes(f: Field): seq<Byte> {
    match f
    case Unsigned(w, v) => Encode(v, w)
    case Signed(w, v) => Encode(v, w)
    case Text(b) => Encode(|b|, 2) + b
    case Raw(b) => b
  }

  function AllBytes(fields: seq<Field>): (r: seq<Byte>)
    ensures fields == [] ==> r == []
  {
    if fields == [] then [] else Bytes(fields[0]) + AllBytes(fields[1..])
  }

  /** The request that reads a field back. */
  predicate Asks(k: Kind, f: Field) {
    match f
    case Unsigned(w, _) => k == UnsignedOf(w)
    case Signed(w, _) => k == SignedOf(w)
    case Text(b) => k.TextUpTo? && |b| <= k.max
    case Raw(b) => k == RawOf(|b|)
  }

  class Writer {
    const size: nat
    const packet: array<Byte>
    var pos: nat

    constructor (size: nat, packet: array<Byte>)
      requires size <= packet.Length
      ensures this.size == size && this.packet == packet && pos == 0
    {
      this.size, this.packet, pos := size, packet, 0;
    }

    ghost predicate Valid()
      reads this
    {
      pos <= size <= packet.Length
    }

    /** Copies the bytes to the current position; a field that does not fit fails an assertion. */
    method Put(bytes: seq<Byte>)
      requires Valid() && pos + |bytes| <= size
      modifies this`pos, packet
      ensures Valid() && pos == old(pos) + |bytes|
      ensures packet[..pos] == old(packet[..pos]) + bytes && packet[pos..] == old(packet[pos + |bytes|..])
    {
      for i := 0 to |bytes|
        invariant pos == old(pos)
        invariant packet[..pos] == old(packet[..pos]) && packet[pos..pos + i] == bytes[..i]
        invariant packet[pos + |bytes|..] == old(packet[pos + |bytes|..])
      {
        packet[pos + i] := bytes[i];
      }
      pos := pos + |bytes|;
    }

    method WriteField(f: Field)
      requires Valid() && pos + |Bytes(f)| <= size
      modifies this`pos, packet
      ensures Valid() && pos == old(pos) + |Bytes(f)|
      ensures packet[..pos] == old(packet[..pos]) + Bytes(f)
    {
      hide Encode;
      match f
      case Unsigned(w, v) => Put(Encode(v, w));
      case Signed(w, v) => Put(Encode(v, w));
      case Text(b) =>
        Put(Encode(|b|, 2));
        Put(b);
      case Raw(b) => Put(b);
    }
  }

  class Reader {
    const size: nat
    const packet: array<Byte>
    var pos: nat

    constructor (size: nat, packet: array<Byte>)
      requires size <= packet.Length
      ensures this.size == size && this.packet == packet && pos == 0
    {
      this.size, this.packet, pos := size, packet, 0;
    }

    method Skip(len: nat)
      modifies this
      ensures pos == old(pos) + len
    {
      pos := pos + len;
    }

    /** Copies bytes out if they lie inside the packet, wherever skips may have led. */
    method Take(len: nat) returns (r: Option<seq<Byte>>)
      requires size <= packet.Length
      modifies this
      ensures r.Some? <==> old(pos) + len <= size
      ensures r.Some? ==> r.value == packet[..size][old(pos)..old(pos) + len] && pos == old(pos) + len
      ensures r.None? ==> pos == old(pos)
    {
      if pos + len > size {
        return None;
      }
      r := Some(packet[..size][pos..pos + len]);
      pos := pos + len;
    }

    method ReadField(k: Kind) returns (r: Option<Field>)
      requires size <= packet.Length
      modifies this
      ensures (r, pos) == Parsed(k, packet[..size], old(pos))
    {
      hide Decode, ToSigned;
      match k
      case UnsignedOf(w) =>
        var b := Take(w);
        r := if b.Some? then Some(Unsigned(w, Decode(b.value))) else None;
      case SignedOf(w) =>
        var b := Take(w);
        r := if b.Some? then Some(Signed(w, ToSigned(Decode(b.value), w))) else None;
      case RawOf(len) =>
        var b := Take(len);
        r := if b.Some? then Some(Raw(b.value)) else None;
      case TextUpTo(max) =>
        var head := Take(2);
        if head.None? {
          return None;
        }
        var len := Decode(head.value);
        if len > max {
          return None;
        }
        var b := Take(len);
        r := if b.Some? then Some(Text(b.value)) else None;
    }
  }

  /** One read from position `p` of the bytes `s`: the field, if the bytes suffice, and the new position.
      A text that is too long or cut off has consumed its length all the same. */
  function Parsed(k: Kind, s: seq<Byte>, p: nat): (Option<Field>, nat) {
    match k
    case UnsignedOf(w) => if p + w > |s| then (None, p) else (Some(Unsigned(w, Decode(s[p..p + w]))), p + w)
    case SignedOf(w) => if p + w > |s| then (None, p) else (Some(Signed(w, ToSigned(Decode(s[p..p + w]), w))), p + w)
    case RawOf(len) => if p + len > |s| then (None, p) else (Some(Raw(s[p..p + len])), p + len)
    case TextUpTo(max) =>
      if p + 2 > |s| then (None, p)
      else
        var len := Decode(s[p..p + 2]);
        if len > max || p + 2 + len > |s| then (None, p + 2)
        else (Some(Text(s[p + 2..p + 2 + len])), p + 2 + len)
  }

  /** Reading with the right request returns what was written, wherever it stands. */
  lemma FieldRoundTrip(f: Field, k: Kind, s: seq<Byte>, p: nat)
    requires Asks(k, f) && Representable(f) && p + |Bytes(f)| <= |s| && s[p..p + |Bytes(f)|] == Bytes(f)
    ensures Parsed(k, s, p) == (Some(f), p + |Bytes(f)|)
  {
    hide Decode, Encode, ToSigned, Range;
    match f
    case Unsigned(w, v) => UnsignedRoundTrip(v, w);
    case Signed(w, v) => SignedRoundTrip(v, w);
    case Raw(b) =>
    case Text(b) =>
      var t := s[p..p + 2 + |b|];
      assert s[p..p + 2] == t[..2] == Encode(|b|, 2);
      assert s[p + 2..p + 2 + |b|] == t[2..] == b;
      RangeOfTwo();
      UnsignedRoundTrip(|b|, 2);
  }

  lemma {:induction false} EncodeDecode(bytes: seq<Byte>)
    ensures Encode(Decode(bytes), |bytes|) == bytes
  {
    if bytes != [] {
      EncodeDecode(bytes[1..]);
      Lowest(bytes[0], Decode(bytes[1..]));
    }
  }

  lemma Lowest(b: Byte, d: int)
    ensures (b + 0x100 * d) % 0x100 == b && (b + 0x100 * d) / 0x100 == d
  {
  }

  /** Encoding sees a value only up to multiples of the range. */
  lemma {:induction false} EncodeWraps(v: int, width: nat)
    ensures Encode(v - Range(width), width) == Encode(v, width)
    decreases width
  {
    if width > 0 {
      var m := Range(width - 1);
      Lowest(v % 0x100, v / 0x100 - m);
      assert v - Range(width) == v % 0x100 + 0x100 * (v / 0x100 - m);
      EncodeWraps(v / 0x100, width - 1);
    }
  }

  /** The converse: whatever is read stands in the packet, bytes and all, at the place it was read from. */
  lemma ReadIsThere(k: Kind, s: seq<Byte>, p: nat)
    requires Parsed(k, s, p).0.Some?
    ensures var (r, q) := Parsed(k, s, p);
            && Asks(k, r.value) && Representable(r.value)
            && q == p + |Bytes(r.value)| <= |s| && s[p..q] == Bytes(r.value)
  {
    hide Decode, Encode, Range;
    match k
    case UnsignedOf(w) => EncodeDecode(s[p..p + w]);
    case SignedOf(w) =>
      EncodeDecode(s[p..p + w]);
      EncodeWraps(Decode(s[p..p + w]), w);
    case RawOf(_) =>
    case TextUpTo(_) =>
      EncodeDecode(s[p..p + 2]);
      RangeOfTwo();
      var len := Decode(s[p..p + 2]);
      assert s[p..p + 2 + len] == s[p..p + 2] + s[p + 2..p + 2 + len];
  }

  // ---------- any interleaving of skips and reads ----------

  datatype Step = SkipBy(len: nat) | Read(kind: Kind)

  /** One step from position `p` to `q`. A read returns a field exactly if the bytes of a field that
      answers the request stand at `p` inside the packet. */
  ghost predicate StepOk(step: Step, s: seq<Byte>, p: nat, out: Option<Field>, q: nat) {
    match step
    case SkipBy(len) => out.None? && q == p + len
    case Read(kind) => if out.Some? then Stands(kind, s, p, out.value) && q == p + |Bytes(out.value)|
                       else q <= p + 2 && forall f :: !Stands(kind, s, p, f)
  }

  ghost predicate Stands(kind: Kind, s: seq<Byte>, p: nat, f: Field) {
    && Asks(kind, f) && Representable(f)
    && p + |Bytes(f)| <= |s| && s[p..p + |Bytes(f)|] == Bytes(f)
  }

  lemma ReadExactly(kind: Kind, s: seq<Byte>, p: nat)
    ensures StepOk(Read(kind), s, p, Parsed(kind, s, p).0, Parsed(kind, s, p).1)
  {
    hide Asks, Representable, Bytes, Decode, ToSigned;
    if Parsed(kind, s, p).0.Some? {
      ReadIsThere(kind, s, p);
    } else {
      forall f | Stands(kind, s, p, f)
        ensures false
      {
        FieldRoundTrip(f, kind, s, p);
      }
    }
  }

  /** Whatever is skipped and asked for, every read is decided by the first `size` bytes alone. */
  method RunReader(size: nat, packet: array<Byte>, steps: seq<Step>)
    returns (outs: seq<Option<Field>>, positions: seq<nat>)
    requires size <= packet.Length
    ensures |outs| == |steps| && |positions| == |steps| + 1 && positions[0] == 0
    ensures forall i :: 0 <= i < |steps| ==> StepOk(steps[i], packet[..size], positions[i], outs[i], positions[i + 1])
  {
    hide Parsed, Stands;
    var reader := new Reader(size, packet);
    outs, positions := [], [0];
    for i := 0 to |steps|
      invariant reader.size == size && reader.packet == packet
      invariant |outs| == i && |positions| == i + 1 && positions[0] == 0 && positions[i] == reader.pos
      invariant forall k :: 0 <= k < i ==> StepOk(steps[k], packet[..size], positions[k], outs[k], positions[k + 1])
    {
      var out := None;
      match steps[i] {
        case SkipBy(len) =>
          reader.Skip(len);
        case Read(kind) =>
          ReadExactly(kind, packet[..size], reader.pos);
          out := reader.ReadField(kind);
      }
      outs, positions := outs + [out], positions + [reader.pos];
    }
  }

  lemma RangeOfTwo()
    ensures Range(1) == 0x100 && Range(2) == 0x1_0000
  {
    assert Range(0) == 1;
    assert Range(1) == 0x100;
  }

  lemma RangeOfFour()
    ensures Range(4) == 0x1_0000_0000 && Range(8) == 0x1_0000_0000_0000_0000
  {
    RangeOfTwo();
    assert Range(3) == 0x100_0000;
    assert Range(5) == 0x100_0000_0000 && Range(6) == 0x1_0000_0000_0000 && Range(7) == 0x100_0000_0000_0000;
  }

  /** The first byte is the least significant one. */
  lemma DecodeByPlaces(a: Byte, b: Byte, c: Byte, d: Byte)
    ensures Decode([a]) == a && Decode([a, b]) == a + 0x100 * b
    ensures Decode([a, b, c, d]) == a + 0x100 * b + 0x1_0000 * c + 0x100_0000 * d
  {
    assert [a][1..] == [] && [a, b][1..] == [b] && [b][1..] == [];
    assert [a, b, c, d][1..] == [b, c, d] && [b, c, d][1..] == [c, d] && [c, d][1..] == [d] && [d][1..] == [];
    assert Decode([d]) == d && Decode([c, d]) == c + 0x100 * d;
    assert Decode([b, c, d]) == b + 0x100 * (c + 0x100 * d);
  }

  lemma EncodedBytes()
    ensures Encode(0x01020304, 4) == [4, 3, 2, 1] && Encode(-2, 2) == [0xfe, 0xff]
  {
    DecodeByPlaces(4, 3, 2, 1);
    EncodeDecode([4, 3, 2, 1]);
    DecodeByPlaces(0xfe, 0xff, 0, 0);
    EncodeDecode([0xfe, 0xff]);
    RangeOfTwo();
    EncodeWraps(0xfffe, 2);
  }

  ghost predicate AskAll(kinds: seq<Kind>, fields: seq<Field>) {
    |kinds| == |fields| && forall i :: 0 <= i < |fields| ==> Asks(kinds[i], fields[i]) && Representable(fields[i])
  }

  lemma {:induction false} AllBytesStep(fields: seq<Field>, i: nat)
    requires i < |fields|
    ensures AllBytes(fields[..i + 1]) == AllBytes(fields[..i]) + Bytes(fields[i])
    decreases i
  {
    hide Bytes;
    if i == 0 {
      assert fields[..1] == [fields[0]];
      assert AllBytes([fields[0]]) == Bytes(fields[0]) + AllBytes([]);
    } else {
      AllBytesStep(fields[1..], i - 1);
      assert fields[1..][..i] == fields[..i + 1][1..] && fields[1..][..i - 1] == fields[..i][1..];
      assert AllBytes(fields[..i + 1]) == Bytes(fields[0]) + AllBytes(fields[1..][..i]);
      assert AllBytes(fields[..i]) == Bytes(fields[0]) + AllBytes(fields[1..][..i - 1]);
    }
  }

  /** Any representable fields that fit come back unchanged, and the reader ends exactly at the end. */
  method WriteThenRead(fields: seq<Field>, kinds: seq<Kind>) returns (back: seq<Field>, atEnd: bool)
    requires AskAll(kinds, fields)
    ensures back == fields && atEnd
  {
    hide Parsed, Asks, Representable, Bytes, AllBytes;
    var size := PacketSize(fields);
    var packet := new Byte[size](_ => 0);
    var w := new Writer(size, packet);
    for i := 0 to |fields|
      invariant w.Valid() && w.packet == packet && w.size == size && w.pos == |AllBytes(fields[..i])|
      invariant packet[..w.pos] == AllBytes(fields[..i])
    {
      AllBytesStep(fields, i);
      PrefixOfAll(fields, i + 1);
      w.WriteField(fields[i]);
    }
    assert fields[..|fields|] == fields && packet[..size] == packet[..];
    var r := new Reader(size, packet);
    back := [];
    for i := 0 to |fields|
      invariant r.packet == packet && r.size == size && packet[..] == AllBytes(fields)
      invariant back == fields[..i] && r.pos == |AllBytes(fields[..i])| && AllBytes(fields[..i]) <= packet[..]
    {
      AllBytesStep(fields, i);
      PrefixOfAll(fields, i + 1);
      var a := AllBytes(fields[..i]);
      assert packet[..size][|a|..|a| + |Bytes(fields[i])|] == Bytes(fields[i]);
      FieldRoundTrip(fields[i], kinds[i], packet[..size], |a|);
      var f := r.ReadField(kinds[i]);
      back := back + [f.value];
    }
    atEnd := r.pos == r.size;
  }

  lemma {:induction false} PrefixOfAll(fields: seq<Field>, i: nat)
    requires i <= |fields|
    ensures AllBytes(fields[..i]) <= AllBytes(fields)
    decreases |fields| - i
  {
    hide Bytes, AllBytes;
    if i < |fields| {
      AllBytesStep(fields, i);
      PrefixOfAll(fields, i + 1);
    } else {
      assert fields[..i] == fields;
    }
  }

  method PacketSize(fields: seq<Field>) returns (n: nat)
    ensures n == |AllBytes(fields)|
  {
    n := 0;
    for i := 0 to |fields|
      invariant n == |AllBytes(fields[..i])|
    {
      AllBytesStep(fields, i);
      n := n + |Bytes(fields[i])|;
    }
    assert fields[..|fields|] == fields;
  }
}
