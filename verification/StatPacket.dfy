/** The stat-change packet: a bit mask of stats followed by their values, and the value list
    that a client's pending changes produce for it. */
module StatPacket {
  import opened Common
  import opened Wire

  const STAT_COUNT := 20

  const PET := 18

  const PET_BITS: bv32 := 0x180008

  const MAX_LENGTH := 57

  datatype Stat =
    | Skin | Face | Hair | Level | Job | Str | Dex | Int | Luk | Hp | MaxHp | Mp | MaxMp
    | Ap | Sp | Exp | Fame | Meso | Pet | GachaExp

  /** The members of the union that carries a value. */
  datatype Member = U8 | I16 | U16 | I32 | U32

  function Size(m: Member): (w: nat)
    ensures 1 <= w <= 4
  {
    match m
    case U8 => 1
    case I16 => 2
    case U16 => 2
    case I32 => 4
    case U32 => 4
  }

  // ---------- three tables that were written independently ----------

  /** The flags as they are declared. */
  function Flag(s: Stat): bv32 {
    match s
    case Skin => 0x1 case Face => 0x2 case Hair => 0x4 case Level => 0x10 case Job => 0x20
    case Str => 0x40 case Dex => 0x80 case Int => 0x100 case Luk => 0x200 case Hp => 0x400
    case MaxHp => 0x800 case Mp => 0x1000 case MaxMp => 0x2000 case Ap => 0x4000 case Sp => 0x8000
    case Exp => 0x10000 case Fame => 0x20000 case Meso => 0x40000 case Pet => 0x180008 case GachaExp => 0x200000
  }

  /** How wide a stat of a character is; a job is an enumeration that fits two bytes. */
  function FieldWidth(s: Stat): nat {
    match s
    case Skin => 1 case Level => 1
    case Face => 4 case Hair => 4 case Exp => 4 case Meso => 4 case Pet => 4 case GachaExp => 4
    case _ => 2
  }

  /** The chain of tests of the packet builder: the flag tested in the `i`-th place. */
  function Bit(i: nat): bv32
    requires i < STAT_COUNT
  {
    match i
    case 0 => 0x1 case 1 => 0x2 case 2 => 0x4 case 3 => 0x10 case 4 => 0x20
    case 5 => 0x40 case 6 => 0x80 case 7 => 0x100 case 8 => 0x200 case 9 => 0x400
    case 10 => 0x800 case 11 => 0x1000 case 12 => 0x2000 case 13 => 0x4000 case 14 => 0x8000
    case 15 => 0x10000 case 16 => 0x20000 case 17 => 0x40000 case 18 => 0x180008 case _ => 0x200000
  }

  /** The member that the builder reads in the `i`-th place. */
  function MemberRead(i: nat): Member
    requires i < STAT_COUNT
  {
    match i
    case 0 => U8 case 1 => U32 case 2 => U32 case 3 => U8 case 4 => U16
    case 5 => I16 case 6 => I16 case 7 => I16 case 8 => I16 case 9 => I16
    case 10 => I16 case 11 => I16 case 12 => I16 case 13 => I16 case 14 => I16
    case 15 => I32 case 16 => I16 case 17 => I32 case 18 => U32 case _ => I32
  }

  /** A test in the client's chain: whose flag is tested, which stat is stored for it, and the member
      it is stored in; for the pet flag nothing is stored. */
  datatype Push = Push(tested: Stat, stat: Stat, member: Option<Member>)

  function PushAt(i: nat): Push
    requires i < STAT_COUNT
  {
    match i
    case 0 => Push(Skin, Skin, Some(U8))
    case 1 => Push(Face, Face, Some(U32))
    case 2 => Push(Hair, Hair, Some(U32))
    case 3 => Push(Level, Level, Some(U8))
    case 4 => Push(Job, Job, Some(U16))
    case 5 => Push(Str, Str, Some(I16))
    case 6 => Push(Dex, Dex, Some(I16))
    case 7 => Push(Int, Int, Some(I16))
    case 8 => Push(Luk, Luk, Some(I16))
    case 9 => Push(Hp, Hp, Some(I16))
    case 10 => Push(MaxHp, MaxHp, Some(I16))
    case 11 => Push(Mp, Mp, Some(I16))
    case 12 => Push(MaxMp, MaxMp, Some(I16))
    case 13 => Push(Ap, Ap, Some(I16))
    case 14 => Push(Sp, Sp, Some(I16))
    case 15 => Push(Exp, Exp, Some(I32))
    case 16 => Push(Fame, Fame, Some(I16))
    case 17 => Push(Meso, Meso, Some(I32))
    case 18 => Push(Pet, Pet, None)
    case _ => Push(GachaExp, GachaExp, Some(I32))
  }

  /** In every place the client stores the stat whose flag the builder tests there, in a member of
      the width that the builder reads and the stat has. */
  lemma ChainsAgree(i: nat)
    requires i < STAT_COUNT
    ensures PushAt(i).tested == PushAt(i).stat && Flag(PushAt(i).tested) == Bit(i)
    ensures PushAt(i).member.None? <==> i == PET
    ensures i != PET ==> Size(PushAt(i).member.value) == Width(i) == FieldWidth(PushAt(i).stat)
  {
    hide Flag, Bit, PushAt, MemberRead, FieldWidth;
    FlagsAgree(i);
    MembersAgree(i);
    WidthsAgree(i);
  }

  lemma FlagsAgree(i: nat)
    requires i < STAT_COUNT
    ensures PushAt(i).tested == PushAt(i).stat && Flag(PushAt(i).tested) == Bit(i)
  {
  }

  lemma MembersAgree(i: nat)
    requires i < STAT_COUNT
    ensures PushAt(i).member == if i == PET then None else Some(MemberRead(i))
  {
    hide Flag, Bit, FieldWidth;
  }

  lemma WidthsAgree(i: nat)
    requires i < STAT_COUNT
    ensures Width(i) == FieldWidth(PushAt(i).stat)
  {
    hide Flag, Bit;
  }

  function Width(i: nat): (w: nat)
    requires i < STAT_COUNT
    ensures 1 <= w <= 4
  {
    Size(MemberRead(i))
  }

  // ---------- the union ----------

  /** The four bytes of a value. */
  type Union = s: seq<Byte> | |s| == 4 witness [0, 0, 0, 0]

  /** Storing a member overwrites its bytes and leaves the others as they were. */
  function Store(before: Union, m: Member, v: int): Union {
    Encode(v, Size(m)) + before[Size(m)..]
  }

  /** The bytes that reading a member and writing it out yields. */
  function Load(u: Union, w: nat): (r: seq<Byte>)
    requires w <= 4
    ensures |r| == w
  {
    u[..w]
  }

  lemma LoadStored(before: Union, m: Member, v: int)
    ensures Load(Store(before, m, v), Size(m)) == Encode(v, Size(m))
  {
  }

  // ---------- sets of flags ----------

  predicate Overlaps(a: bv32, b: bv32) { a & b != 0 }

  function Clear(stats: bv32, bits: bv32): bv32 { stats & !bits }

  predicate Has(stats: bv32, i: nat)
    requires i < STAT_COUNT
  {
    Overlaps(stats, Bit(i))
  }

  /** Only the bits of known flags are set. */
  predicate Known(stats: bv32) { stats & 0xffc00000 == 0 }

  ghost function NumFlags(stats: bv32, k: nat): nat
    requires k <= STAT_COUNT
    decreases STAT_COUNT - k
  {
    if k == STAT_COUNT then 0 else NumFlags(stats, k + 1) + if Has(stats, k) then 1 else 0
  }

  /** The first set flag from `k` on. */
  function FirstFlag(stats: bv32, k: nat): (r: nat)
    requires k <= STAT_COUNT
    ensures k <= r <= STAT_COUNT
    ensures r < STAT_COUNT ==> Has(stats, r)
    ensures forall j :: k <= j < r ==> !Has(stats, j)
    decreases STAT_COUNT - k
  {
    if k == STAT_COUNT || Has(stats, k) then k else FirstFlag(stats, k + 1)
  }

  // ---------- clearing flags ----------

  lemma BitsDisjoint(i: nat, j: nat)
    requires i < STAT_COUNT && j < STAT_COUNT && i != j
    ensures !Overlaps(Bit(i), Bit(j))
  {
  }

  lemma ClearDisjoint(s: bv32, a: bv32, b: bv32)
    ensures !Overlaps(a, b) ==> (Overlaps(Clear(s, a), b) <==> Overlaps(s, b))
    ensures !Overlaps(Clear(s, a), a)
  {
  }

  lemma ClearFlag(s: bv32, i: nat, j: nat)
    requires i < STAT_COUNT && j < STAT_COUNT
    ensures Has(Clear(s, Bit(i)), j) <==> j != i && Has(s, j)
  {
    hide Bit, Overlaps, Clear;
    ClearDisjoint(s, Bit(i), Bit(j));
    if i != j {
      BitsDisjoint(i, j);
    }
  }

  lemma {:induction false} ClearedCount(s: bv32, i: nat, k: nat)
    requires i < STAT_COUNT && k <= STAT_COUNT && Has(s, i)
    ensures NumFlags(Clear(s, Bit(i)), k) == NumFlags(s, k) - if k <= i then 1 else 0
    decreases STAT_COUNT - k
  {
    hide Has, Bit, Clear;
    if k < STAT_COUNT {
      ClearFlag(s, i, k);
      ClearedCount(s, i, k + 1);
    }
  }

  /** No bit of `s` lies below the single bit `b`. */
  predicate NothingUnder(s: bv32, b: bv32) { s & (b - 1) == 0 }

  predicate Single(b: bv32) { b & (b - 1) == 0 }

  predicate Petless(s: bv32) { s & PET_BITS == 0 }

  /** Without pet bits, no flag before `k` means no bit below that flag. */
  lemma {:induction false} NothingBelow(s: bv32, k: nat)
    requires k < STAT_COUNT && k != PET && Petless(s)
    requires forall j :: 0 <= j < k ==> !Has(s, j)
    ensures NothingUnder(s, Bit(k))
  {
    hide Bit, Overlaps, NothingUnder, Petless, Fills;
    if k == 0 {
      FirstBit(s);
    } else {
      var p := if k - 1 == PET then k - 2 else k - 1;
      NothingBelow(s, p);
      assert !Has(s, p);
      BelowNext(p, k);
      AssembleBelow(s, Bit(p), Bit(k));
    }
  }

  lemma FirstBit(s: bv32)
    ensures NothingUnder(s, Bit(0))
  {
  }

  /** Apart from pet bits, everything below `bk` is `bp` or below it. */
  predicate Fills(bp: bv32, bk: bv32) { (bk - 1) & !(bp - 1) & !bp & !PET_BITS == 0 }

  lemma BelowNext(p: nat, k: nat)
    requires p < k < STAT_COUNT && p != PET && k != PET && (k == p + 1 || (k == PET + 1 && p == PET - 1))
    ensures Fills(Bit(p), Bit(k))
  {
  }

  lemma AssembleBelow(s: bv32, bp: bv32, bk: bv32)
    requires Petless(s) && NothingUnder(s, bp) && !Overlaps(s, bp) && Fills(bp, bk)
    ensures NothingUnder(s, bk)
  {
  }

  /** A mask without its lowest bit. */
  function DropLowest(s: bv32): bv32 { s & (s - 1) }

  lemma LowestBit(s: bv32, k: nat)
    requires k < STAT_COUNT && k != PET && Has(s, k) && NothingUnder(s, Bit(k))
    ensures DropLowest(s) == Clear(s, Bit(k))
  {
    hide Bit, Overlaps, NothingUnder, Single, DropLowest, Clear;
    OneBit(k);
    LowestOf(s, Bit(k));
  }

  lemma OneBit(k: nat)
    requires k < STAT_COUNT && k != PET
    ensures Single(Bit(k))
  {
  }

  lemma LowestOf(s: bv32, b: bv32)
    requires Overlaps(s, b) && NothingUnder(s, b) && Single(b)
    ensures DropLowest(s) == Clear(s, b)
  {
  }

  // ---------- counting ----------

  lemma NoPet(s: bv32)
    ensures Bit(PET) == PET_BITS && (Has(s, PET) <==> !Petless(s))
  {
  }

  lemma Subset(s: bv32, t: bv32)
    requires Known(s)
    ensures Known(Clear(s, t)) && (Petless(s) ==> Petless(Clear(s, t))) && Petless(Clear(s, PET_BITS))
  {
  }

  lemma LastFlag(s: bv32)
    requires s != 0 && Known(s) && NothingUnder(s, Bit(STAT_COUNT - 1))
    ensures Has(s, STAT_COUNT - 1)
  {
  }

  lemma LowestFlag(s: bv32) returns (k: nat)
    requires s != 0 && Known(s) && Petless(s)
    ensures k < STAT_COUNT && k != PET && Has(s, k) && NothingUnder(s, Bit(k))
  {
    hide Has, Bit, Known, Petless, NothingUnder;
    k := FirstFlag(s, 0);
    NoPet(s);
    if k == STAT_COUNT {
      NothingBelow(s, STAT_COUNT - 1);
      LastFlag(s);
    } else {
      NothingBelow(s, k);
    }
  }

  lemma {:induction false} NoFlags(k: nat)
    requires k <= STAT_COUNT
    ensures NumFlags(0, k) == 0
    decreases STAT_COUNT - k
  {
    hide Has;
    if k < STAT_COUNT {
      NothingHas(k);
      NoFlags(k + 1);
    }
  }

  lemma NothingHas(k: nat)
    requires k < STAT_COUNT
    ensures !Has(0, k)
  {
    hide Bit;
  }

  /** One turn of the loop that clears the lowest bit removes exactly one flag. */
  lemma ClearLowest(s: bv32)
    requires s != 0 && Known(s) && Petless(s)
    ensures var t := DropLowest(s);
            Known(t) && Petless(t) && NumFlags(s, 0) > 0 && NumFlags(t, 0) == NumFlags(s, 0) - 1
  {
    hide NumFlags, Has, Bit, Known, Petless, DropLowest, Clear, NothingUnder;
    var k := LowestFlag(s);
    LowestBit(s, k);
    ClearedCount(s, k, 0);
    Subset(s, Bit(k));
  }

  /** Counts the flags: the three pet bits as one, all others by clearing the lowest bit. */
  method CountFlags(stats: bv32) returns (count: nat)
    requires Known(stats)
    ensures count == NumFlags(stats, 0)
  {
    hide NumFlags, Has, Bit, Known, Petless, DropLowest, Clear;
    count := 0;
    var s := stats;
    NoPet(stats);
    if !Petless(s) {
      ClearedCount(s, PET, 0);
      Subset(s, PET_BITS);
      s := Clear(s, PET_BITS);
      count := 1;
    }
    while s != 0
      invariant Known(s) && Petless(s)
      invariant count + NumFlags(s, 0) == NumFlags(stats, 0)
      decreases NumFlags(s, 0)
    {
      ClearLowest(s);
      s := DropLowest(s);
      count := count + 1;
    }
    NoFlags(0);
  }

  // ---------- the packet ----------

  /** The values that follow the mask: one for every flag from `k` on, each in its own width. */
  ghost function Payload(stats: bv32, values: seq<Union>, k: nat): (r: seq<Byte>)
    requires k <= STAT_COUNT && |values| >= NumFlags(stats, k)
    decreases STAT_COUNT - k
  {
    if k == STAT_COUNT then []
    else if Has(stats, k) then Load(values[0], Width(k)) + Payload(stats, values[1..], k + 1)
    else Payload(stats, values, k + 1)
  }

  ghost function WidthsFrom(k: nat): nat
    requires k <= STAT_COUNT
    decreases STAT_COUNT - k
  {
    if k == STAT_COUNT then 0 else Width(k) + WidthsFrom(k + 1)
  }

  lemma {:induction false} PayloadFits(stats: bv32, values: seq<Union>, k: nat)
    requires k <= STAT_COUNT && |values| >= NumFlags(stats, k)
    ensures |Payload(stats, values, k)| <= WidthsFrom(k)
    decreases STAT_COUNT - k
  {
    hide Has, Load, Width;
    if k < STAT_COUNT {
      PayloadFits(stats, if Has(stats, k) then values[1..] else values, k + 1);
    }
  }

  lemma AllWidths()
    ensures 7 + WidthsFrom(0) == MAX_LENGTH
  {
    assert WidthsFrom(17) == 12;
    assert WidthsFrom(14) == 20;
    assert WidthsFrom(11) == 26;
    assert WidthsFrom(8) == 32;
    assert WidthsFrom(5) == 38;
    assert WidthsFrom(2) == 45;
  }

  /** Taking the first flag out of the mask takes its value off the front of the payload. */
  lemma {:induction false} PayloadStep(stats: bv32, values: seq<Union>, k: nat, i: nat)
    requires k <= i < STAT_COUNT && |values| >= NumFlags(stats, k) && Has(stats, i)
    requires forall j :: k <= j < i ==> !Has(stats, j)
    ensures NumFlags(stats, k) > 0 && NumFlags(Clear(stats, Bit(i)), k) == NumFlags(stats, k) - 1
    ensures Payload(stats, values, k) == Load(values[0], Width(i)) + Payload(Clear(stats, Bit(i)), values[1..], k)
    decreases STAT_COUNT - k
  {
    hide Has, Bit, Clear, Load, Width;
    ClearedCount(stats, i, k);
    ClearFlag(stats, i, k);
    if k < i {
      PayloadStep(stats, values, k + 1, i);
    } else {
      PayloadAbove(stats, values[1..], k + 1, i);
    }
  }

  lemma {:induction false} PayloadAbove(stats: bv32, values: seq<Union>, k: nat, i: nat)
    requires i < k <= STAT_COUNT && |values| >= NumFlags(stats, k) && Has(stats, i)
    ensures NumFlags(Clear(stats, Bit(i)), k) == NumFlags(stats, k)
    ensures Payload(Clear(stats, Bit(i)), values, k) == Payload(stats, values, k)
    decreases STAT_COUNT - k
  {
    hide Has, Bit, Clear, Load, Width;
    ClearedCount(stats, i, k);
    if k < STAT_COUNT {
      ClearFlag(stats, i, k);
      PayloadAbove(stats, if Has(stats, k) then values[1..] else values, k + 1, i);
    }
  }

  lemma {:induction false} NoFlagsNoPayload(stats: bv32, values: seq<Union>, k: nat)
    requires k <= STAT_COUNT && NumFlags(stats, k) == 0
    ensures Payload(stats, values, k) == []
    decreases STAT_COUNT - k
  {
    hide Has;
    if k < STAT_COUNT {
      NoFlagsNoPayload(stats, values, k + 1);
    }
  }

  lemma {:induction false} FlagExists(stats: bv32, k: nat)
    requires k <= STAT_COUNT && NumFlags(stats, k) > 0
    ensures FirstFlag(stats, k) < STAT_COUNT
    decreases STAT_COUNT - k
  {
    hide Has;
    if !Has(stats, k) {
      FlagExists(stats, k + 1);
    }
  }

  function Head(enableActions: bool, stats: bv32): (r: seq<Byte>)
    ensures |r| == 7
  {
    Encode(0x001F, 2) + [if enableActions then 1 else 0] + Encode(stats as int, 4)
  }

  /** The operation, the switch for further actions, and the mask. */
  lemma HeadHolds(enableActions: bool, stats: bv32)
    ensures Head(enableActions, stats)[..3] == [0x1f, 0, if enableActions then 1 else 0]
    ensures Decode(Head(enableActions, stats)[3..]) == stats as int
  {
    hide Encode, Decode, Range;
    OperationBytes();
    RangeOfFour();
    var head := Head(enableActions, stats);
    assert head[..3] == Encode(0x001F, 2) + [if enableActions then 1 else 0];
    assert head[3..] == Encode(stats as int, 4);
    UnsignedRoundTrip(stats as int, 4);
  }

  lemma OperationBytes()
    ensures Encode(0x001F, 2) == [0x1f, 0]
  {
    DecodeByPlaces(0x1f, 0, 0, 0);
    EncodeDecode([0x1f, 0]);
  }

  /** Writes the mask and then, for every flag in order, the next value in the width of that stat. */
  method StatChangePacket(enableActions: bool, stats: bv32, values: seq<Union>) returns (packet: seq<Byte>)
    requires Known(stats) && |values| >= NumFlags(stats, 0)
    ensures packet == Head(enableActions, stats) + Payload(stats, values, 0)
    ensures |packet| <= MAX_LENGTH
  {
    hide NumFlags, Has, Bit, Clear, Load, Width, Payload, Known;
    var count := CountFlags(stats);
    PayloadFits(stats, values, 0);
    AllWidths();
    var writer := StartPacket(enableActions, stats);
    var rest := stats;
    ghost var goal := Head(enableActions, stats) + Payload(stats, values, 0);
    for i := 0 to count
      invariant fresh(writer) && fresh(writer.packet) && writer.Valid() && writer.size == MAX_LENGTH
      invariant count - i == NumFlags(rest, 0) && |values| >= count
      invariant writer.packet[..writer.pos] + Payload(rest, values[i..], 0) == goal
    {
      rest := PutNext(writer, rest, values[i..], goal);
      assert values[i..][1..] == values[i + 1..];
    }
    NoFlagsNoPayload(rest, values[count..], 0);
    packet := writer.packet[..writer.pos];
  }

  method StartPacket(enableActions: bool, stats: bv32) returns (writer: Writer)
    ensures fresh(writer) && fresh(writer.packet) && writer.Valid() && writer.size == MAX_LENGTH
    ensures writer.packet[..writer.pos] == Head(enableActions, stats)
  {
    hide Encode;
    var buffer := new Byte[MAX_LENGTH](_ => 0);
    writer := new Writer(MAX_LENGTH, buffer);
    writer.Put(Encode(0x001F, 2));
    writer.Put([if enableActions then 1 else 0]);
    writer.Put(Encode(stats as int, 4));
  }

  /** Writes the value of the first flag that is left and clears the flag. */
  method PutNext(writer: Writer, rest: bv32, values: seq<Union>, ghost goal: seq<Byte>) returns (rest': bv32)
    requires writer.Valid() && writer.size == MAX_LENGTH && |goal| <= MAX_LENGTH
    requires |values| >= NumFlags(rest, 0) > 0
    requires writer.packet[..writer.pos] + Payload(rest, values, 0) == goal
    modifies writer`pos, writer.packet
    ensures writer.Valid() && NumFlags(rest', 0) == NumFlags(rest, 0) - 1
    ensures writer.packet[..writer.pos] + Payload(rest', values[1..], 0) == goal
  {
    hide NumFlags, Has, Bit, Clear, Load, Width, Payload;
    FlagExists(rest, 0);
    var k := FirstFlag(rest, 0);
    PayloadStep(rest, values, 0, k);
    rest' := Clear(rest, Bit(k));
    ghost var done, bytes := writer.packet[..writer.pos], Load(values[0], Width(k));
    ghost var tail := Payload(rest', values[1..], 0);
    assert done + (bytes + tail) == (done + bytes) + tail;
    writer.Put(Load(values[0], Width(k)));
  }

  // ---------- the value list of a client ----------

  /** The values stored for the flagged stats by the tests from `k` on; `garbage` is what was in memory. */
  function CommitValues(stats: bv32, stat: Stat -> int, garbage: nat -> Union, k: nat): seq<Union>
    requires k <= STAT_COUNT
    decreases STAT_COUNT - k
  {
    if k == STAT_COUNT then []
    else
      var push, rest := PushAt(k), CommitValues(stats, stat, garbage, k + 1);
      if Overlaps(stats, Flag(push.tested)) && push.member.Some? then
        [Store(garbage(k), push.member.value, stat(push.stat))] + rest
      else rest
  }

  /** The stats in the order of their flags. */
  function StatAt(i: nat): Stat
    requires i < STAT_COUNT
  {
    match i
    case 0 => Skin case 1 => Face case 2 => Hair case 3 => Level case 4 => Job
    case 5 => Str case 6 => Dex case 7 => Int case 8 => Luk case 9 => Hp
    case 10 => MaxHp case 11 => Mp case 12 => MaxMp case 13 => Ap case 14 => Sp
    case 15 => Exp case 16 => Fame case 17 => Meso case 18 => Pet case _ => GachaExp
  }

  /** What the packet should hold behind the mask: every flagged stat's own value, in its own width. */
  ghost function Expected(stats: bv32, stat: Stat -> int, k: nat): seq<Byte>
    requires k <= STAT_COUNT
    decreases STAT_COUNT - k
  {
    if k == STAT_COUNT then []
    else
      var s, rest := StatAt(k), Expected(stats, stat, k + 1);
      if Overlaps(stats, Flag(s)) then Encode(stat(s), FieldWidth(s)) + rest else rest
  }

  lemma StatsInOrder(i: nat)
    requires i < STAT_COUNT
    ensures StatAt(i) == PushAt(i).stat
  {
  }

  /** There is a value for every flag exactly when the pet flag is not among them. */
  lemma {:induction false} ValuesMatchFlags(stats: bv32, stat: Stat -> int, garbage: nat -> Union, k: nat)
    requires k <= STAT_COUNT
    ensures |CommitValues(stats, stat, garbage, k)| == NumFlags(stats, k) - if k <= PET && Has(stats, PET) then 1 else 0
    decreases STAT_COUNT - k
  {
    hide Bit, PushAt, Store, Overlaps;
    if k < STAT_COUNT {
      ChainsAgree(k);
      ValuesMatchFlags(stats, stat, garbage, k + 1);
    }
  }

  /** Without the pet flag, what the builder reads from the client's values is what should be sent. */
  lemma {:induction false} ValuesLineUp(stats: bv32, stat: Stat -> int, garbage: nat -> Union, k: nat)
    requires k <= STAT_COUNT && !Has(stats, PET)
    ensures |CommitValues(stats, stat, garbage, k)| == NumFlags(stats, k)
    ensures Payload(stats, CommitValues(stats, stat, garbage, k), k) == Expected(stats, stat, k)
    decreases STAT_COUNT - k
  {
    hide Bit, PushAt, StatAt, Flag, Store, Load, Width, FieldWidth, Encode, Overlaps;
    ValuesMatchFlags(stats, stat, garbage, k);
    if k < STAT_COUNT {
      ChainsAgree(k);
      StatsInOrder(k);
      ValuesLineUp(stats, stat, garbage, k + 1);
      var push, values := PushAt(k), CommitValues(stats, stat, garbage, k);
      if Has(stats, k) {
        assert values[1..] == CommitValues(stats, stat, garbage, k + 1);
        LoadStored(garbage(k), push.member.value, stat(push.stat));
      }
    }
  }

  /** Behind the flags 0x10, 0x40 and 0x10000 stand one byte for the level, two for the strength
      and four for the experience. */
  lemma ThreeStats(stat: Stat -> int)
    requires stat(Level) == 10 && stat(Str) == 260 && stat(Exp) == 0x01020304
    ensures Expected(0x10050, stat, 0) == [10, 4, 1, 4, 3, 2, 1]
  {
    hide Encode, Flag, Overlaps;
    EncodedBytes();
    LevelAndStrength();
    var s: bv32 := 0x10050;
    forall i: nat | i < STAT_COUNT
      ensures Overlaps(s, Flag(StatAt(i))) <==> i == 3 || i == 5 || i == 15
    {
      ThreeFlags(i);
    }
    NoFurtherStats(s, stat, 20, 16);
    assert Expected(s, stat, 15) == [4, 3, 2, 1];
    NoFurtherStats(s, stat, 15, 6);
    assert Expected(s, stat, 5) == [4, 1, 4, 3, 2, 1];
    NoFurtherStats(s, stat, 5, 4);
    assert Expected(s, stat, 3) == [10, 4, 1, 4, 3, 2, 1];
    NoFurtherStats(s, stat, 3, 0);
  }

  lemma ThreeFlags(i: nat)
    requires i < STAT_COUNT
    ensures Overlaps(0x10050, Flag(StatAt(i))) <==> i == 3 || i == 5 || i == 15
  {
  }

  lemma LevelAndStrength()
    ensures Encode(10, 1) == [10] && Encode(260, 2) == [4, 1]
  {
    DecodeByPlaces(4, 1, 0, 0);
    EncodeDecode([4, 1]);
    DecodeByPlaces(10, 0, 0, 0);
    EncodeDecode([10]);
  }

  lemma {:induction false} NoFurtherStats(s: bv32, stat: Stat -> int, k: nat, j: nat)
    requires j <= k <= STAT_COUNT && forall i :: j <= i < k ==> !Overlaps(s, Flag(StatAt(i)))
    ensures Expected(s, stat, j) == Expected(s, stat, k)
    decreases k - j
  {
    hide Flag, StatAt, Overlaps;
    if j < k {
      NoFurtherStats(s, stat, k, j + 1);
    }
  }

  class Client {
    const stat: Stat -> int  // the stats of the character
    var stats: bv32          // the flags of the stats that changed since the last commit

    /** Committing sends every flagged stat behind its bit and starts over with no flags. */
    method CommitStats(garbage: nat -> Union) returns (packet: seq<Byte>)
      requires Known(stats) && Petless(stats)
      modifies this
      ensures packet == Head(true, old(stats)) + Expected(old(stats), stat, 0)
      ensures |packet| <= MAX_LENGTH && stats == 0
    {
      hide Known, Petless, Has, NumFlags, CommitValues, Expected, Payload;
      NoPet(stats);
      ValuesLineUp(stats, stat, garbage, 0);
      packet := StatChangePacket(true, stats, CommitValues(stats, stat, garbage, 0));
      stats := 0;
    }
  }
}
