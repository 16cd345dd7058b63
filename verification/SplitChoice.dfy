/** Where the foothold tree puts a new entry: the child to descend into, and how four
    entries are divided over two nodes. Only the shape of the answer matters to the
    tree; the scores are the code's own, quirks included. */
module SplitChoice {
  import opened Geometry

  // ---------- splitting four entries over two nodes ----------

  /** `One(out)` moves entry `out` to the new node; `Two(i, j)` keeps entries i and j. */
  datatype Split = One(out: nat) | Two(i: nat, j: nat)

  predicate ValidSplit(s: Split) {
    match s
    case One(out) => out < 4
    case Two(i, j) => i < j < 4
  }

  function KeptIndices(p: Split): (r: seq<nat>)
    requires ValidSplit(p)
    ensures 2 <= |r| <= 3 && forall i :: 0 <= i < |r| ==> r[i] < 4
  {
    match p
    case One(out) =>
      if out == 0 then [1, 2, 3] else if out == 1 then [0, 2, 3] else if out == 2 then [0, 1, 3] else [0, 1, 2]
    case Two(i, j) => [i, j]
  }

  function GivenIndices(p: Split): (r: seq<nat>)
    requires ValidSplit(p)
    ensures 1 <= |r| <= 2 && forall i :: 0 <= i < |r| ==> r[i] < 4
  {
    match p
    case One(out) => [out]
    case Two(i, j) =>
      if i == 0 then if j == 1 then [2, 3] else if j == 2 then [1, 3] else [1, 2]
      else if i == 1 then if j == 2 then [0, 3] else [0, 2]
      else [0, 1]
  }

  function Pick<T>(s: seq<T>, indices: seq<nat>): (r: seq<T>)
    requires forall i :: 0 <= i < |indices| ==> indices[i] < |s|
    ensures |r| == |indices| && forall i :: 0 <= i < |r| ==> r[i] == s[indices[i]]
  {
    seq(|indices|, i requires 0 <= i < |indices| => s[indices[i]])
  }

  function Kept<T>(s: seq<T>, p: Split): seq<T>
    requires |s| == 4 && ValidSplit(p)
  {
    Pick(s, KeptIndices(p))
  }

  function Given<T>(s: seq<T>, p: Split): seq<T>
    requires |s| == 4 && ValidSplit(p)
  {
    Pick(s, GivenIndices(p))
  }

  ghost predicate Distinct<T>(s: seq<T>) {
    forall i, j :: 0 <= i < j < |s| ==> s[i] != s[j]
  }

  lemma IndicesPartition(p: Split)
    requires ValidSplit(p)
    ensures Distinct(KeptIndices(p)) && Distinct(GivenIndices(p))
    ensures forall i :: 0 <= i < 4 ==> (i in KeptIndices(p)) != (i in GivenIndices(p))
  {
  }

  lemma SplitPartitions<T>(s: seq<T>, p: Split)
    requires |s| == 4 && ValidSplit(p) && Distinct(s)
    ensures Distinct(Kept(s, p)) && Distinct(Given(s, p))
    ensures forall x :: x in Kept(s, p) ==> x in s && x !in Given(s, p)
    ensures forall x :: x in Given(s, p) ==> x in s
    ensures forall x :: x in s ==> x in Kept(s, p) || x in Given(s, p)
  {
    hide KeptIndices, GivenIndices;
    var ki, gi := KeptIndices(p), GivenIndices(p);
    IndicesPartition(p);
    forall x | x in Kept(s, p)
      ensures x in s && x !in Given(s, p)
    {
      var a :| 0 <= a < |ki| && x == s[ki[a]];
      assert ki[a] in ki;
      forall b | 0 <= b < |gi|
        ensures x != s[gi[b]]
      {
        assert gi[b] in gi;
      }
    }
    forall x | x in s
      ensures x in Kept(s, p) || x in Given(s, p)
    {
      var i :| 0 <= i < 4 && x == s[i];
      if i in ki {
        var a :| 0 <= a < |ki| && ki[a] == i;
        assert Kept(s, p)[a] == x;
      } else {
        var b :| 0 <= b < |gi| && gi[b] == i;
        assert Given(s, p)[b] == x;
      }
    }
  }

  /** The division as it is carried out on the three places of a full node: entries move down
      over places already read, and none is lost or repeated. */
  method DivideInPlace<T>(entries: array<T>, extra: T, plan: Split) returns (count: nat, given: seq<T>)
    requires entries.Length == 3 && ValidSplit(plan)
    modifies entries
    ensures count <= 3 && entries[..count] == Kept(old(entries[..]) + [extra], plan)
    ensures given == Given(old(entries[..]) + [extra], plan)
  {
    if plan.One? {
      given := [if plan.out == 3 then extra else entries[plan.out]];
      LeaveOneOut(entries, extra, plan.out);
      count := 3;
    } else {
      var i, j := FindOthers(plan);
      given := [entries[i], if j == 3 then extra else entries[j]];
      entries[0] := entries[plan.i];
      entries[1] := if plan.j == 3 then extra else entries[plan.j];
      count := 2;
    }
  }

  /** The same for entries that are at rest in a sequence. */
  method DivideEntries<T>(entries: seq<T>, extra: T, plan: Split) returns (kept: seq<T>, given: seq<T>)
    requires |entries| == 3 && ValidSplit(plan)
    ensures kept == Kept(entries + [extra], plan) && given == Given(entries + [extra], plan)
  {
    hide Kept, Given;
    var places := new T[3](i requires 0 <= i < 3 => entries[i]);
    assert places[..] == entries;
    var count;
    count, given := DivideInPlace(places, extra, plan);
    kept := places[..count];
  }

  method LeaveOneOut<T>(entries: array<T>, extra: T, out: nat)
    requires entries.Length == 3 && out < 4
    modifies entries
    ensures entries[..] == Kept(old(entries[..]) + [extra], One(out))
  {
    ghost var all := entries[..] + [extra];
    var j := 0;
    for i := 0 to 4
      invariant j == (if i <= out then i else i - 1)
      invariant forall k :: 0 <= k < j ==> entries[k] == all[if k < out then k else k + 1]
      invariant forall k :: i <= k < 3 ==> entries[k] == all[k]
    {
      if i != out {
        entries[j] := if i == 3 then extra else entries[i];
        j := j + 1;
      }
    }
  }

  method FindOthers(plan: Split) returns (i: nat, j: nat)
    requires ValidSplit(plan) && plan.Two?
    ensures i < 3 && i < j && GivenIndices(plan) == [i, j]
  {
    ghost var others := GivenIndices(plan);
    i := 0;
    while i == plan.i || i == plan.j
      invariant i <= others[0]
      decreases others[0] - i
    {
      i := i + 1;
    }
    j := i + 1;
    while j == plan.i || j == plan.j
      invariant i == others[0] && i < j <= others[1]
      decreases others[1] - j
    {
      j := j + 1;
    }
  }

  // ---------- choosing a split ----------

  /** The place of a division in the order in which they are scored. */
  function Rank(p: Split): (r: nat)
    requires ValidSplit(p)
    ensures r < 10
  {
    match p
    case One(out) => out
    case Two(i, j) => PairRank(i, j)
  }

  function PairRank(i: nat, j: nat): (r: nat)
    requires i <= 2 && i < j <= 4
    ensures 4 <= r <= 10
  {
    if i == 0 then 3 + j else if i == 1 then 5 + j else 6 + j
  }

  /** The first three rectangles of a division that keeps three, in order. */
  lemma KeptOfOne(rs: seq<Rectangle>, i: nat)
    requires |rs| == 4 && i < 4
    ensures var kept := Kept(rs, One(i));
            kept == if i == 0 then [rs[1], rs[2], rs[3]]
                    else [rs[0], if i == 1 then rs[2] else rs[1], if i == 3 then rs[2] else rs[3]]
  {
  }

  /** The area score of a division of footholds. For two pairs, the first pair is scored as the code does:
      unless the new foothold is in it, its first rectangle against itself. */
  function LeafScore(rs: seq<Rectangle>, p: Split): int
    requires |rs| == 4 && ValidSplit(p)
  {
    match p
    case One(out) =>
      var kept := Kept(rs, p);
      Area(rs[out]) + WhiteArea3(kept[0], kept[1], kept[2])
    case Two(i, j) =>
      var given := Given(rs, p);
      WhiteArea2(rs[i], if j == 3 then rs[3] else rs[i]) + WhiteArea2(given[0], given[1])
  }

  /** `plan` has the smallest score of the first `n` divisions. */
  ghost predicate LeafBest(rs: seq<Rectangle>, plan: Split, n: nat)
    requires |rs| == 4 && ValidSplit(plan)
  {
    forall p :: ValidSplit(p) && Rank(p) < n ==> LeafScore(rs, plan) <= LeafScore(rs, p)
  }

  lemma LeafBestStep(rs: seq<Rectangle>, best: Split, p: Split, plan: Split)
    requires |rs| == 4 && ValidSplit(best) && ValidSplit(p) && LeafBest(rs, best, Rank(p))
    requires plan == best || plan == p
    requires LeafScore(rs, plan) <= LeafScore(rs, best) && LeafScore(rs, plan) <= LeafScore(rs, p)
    ensures LeafBest(rs, plan, Rank(p) + 1)
  {
    hide LeafScore;
    forall x | ValidSplit(x) && Rank(x) < Rank(p) + 1
      ensures LeafScore(rs, plan) <= LeafScore(rs, x)
    {
      if Rank(x) == Rank(p) {
        assert x == p;
      }
    }
  }

  lemma LeafBestOne(rs: seq<Rectangle>)
    requires |rs| == 4
    ensures LeafBest(rs, One(0), 1)
  {
    hide LeafScore;
    assert forall x :: ValidSplit(x) && Rank(x) < 1 ==> x == One(0);
  }

  /** Scores every division of three footholds and the new one (the last rectangle); no division has
      a smaller area score than the chosen one. */
  method ChooseLeafSplit(rs: seq<Rectangle>) returns (plan: Split)
    requires |rs| == 4
    ensures ValidSplit(plan)
    ensures forall p :: ValidSplit(p) ==> LeafScore(rs, plan) <= LeafScore(rs, p)
  {
    hide Area, Length, WhiteArea2, WhiteArea3, WhiteLength2, WhiteLength3, Mbr;
    hide LeafBest, KeptIndices, GivenIndices, Pick;
    KeptOfOne(rs, 0);
    var minArea := Area(rs[0]) + WhiteArea3(rs[1], rs[2], rs[3]);
    var minLength: int := if Area(rs[0]) == 0 then Length(rs[0]) else 0;
    if Area(Mbr(Mbr(rs[1], rs[2]), rs[3])) == 0 {
      minLength := minLength + WhiteLength3(rs[1], rs[2], rs[3]);
    }
    plan := One(0);
    LeafBestOne(rs);
    for i := 1 to 4
      invariant ValidSplit(plan) && minArea == LeafScore(rs, plan) && LeafBest(rs, plan, i)
    {
      KeptOfOne(rs, i);
      var r1 := rs[0];
      var r2 := if i == 1 then rs[2] else rs[1];
      var r3 := if i == 3 then rs[2] else rs[3];
      var area := Area(rs[i]) + WhiteArea3(r1, r2, r3);
      var length := if Area(rs[i]) == 0 then Length(rs[i]) else 0;
      if Area(Mbr(Mbr(r1, r2), r3)) == 0 {
        minLength := minLength + WhiteLength3(r1, r2, r3);
      }
      ghost var best := plan;
      if area < minArea {
        minArea, minLength, plan := area, length, One(i);
      } else if area == minArea && length < minLength {
        minLength, plan := length, One(i);
      }
      LeafBestStep(rs, best, One(i), plan);
    }
    for i := 0 to 3
      invariant ValidSplit(plan) && minArea == LeafScore(rs, plan)
      invariant LeafBest(rs, plan, if i < 3 then PairRank(i, i + 1) else 10)
    {
      for j := i + 1 to 4
        invariant ValidSplit(plan) && minArea == LeafScore(rs, plan) && LeafBest(rs, plan, PairRank(i, j))
      {
        var others := GivenIndices(Two(i, j));
        GivenOfTwo(rs, i, j);
        var r1 := rs[i];
        var r2 := if j == 3 then rs[3] else rs[i];
        var r3, r4 := rs[others[0]], rs[others[1]];
        var area1, area2 := WhiteArea2(r1, r2), WhiteArea2(r3, r4);
        var length1 := if area1 == 0 && Area(r1) == 0 then WhiteLength2(r1, r2) else 0;
        var length2 := if area2 == 0 && Area(r3) == 0 then WhiteLength2(r3, r4) else 0;
        ghost var best := plan;
        if area1 + area2 < minArea {
          minArea, minLength, plan := area1 + area2, length1 + length2, Two(i, j);
        } else if area1 + area2 == minArea && length1 + length2 < minLength {
          minLength, plan := length1 + length2, Two(i, j);
        }
        LeafBestStep(rs, best, Two(i, j), plan);
      }
    }
    LeafBestAll(rs, plan);
  }

  lemma GivenOfTwo(rs: seq<Rectangle>, i: nat, j: nat)
    requires |rs| == 4 && i < j < 4
    ensures var others := GivenIndices(Two(i, j));
            |others| == 2 && Given(rs, Two(i, j)) == [rs[others[0]], rs[others[1]]]
  {
  }

  lemma LeafBestAll(rs: seq<Rectangle>, plan: Split)
    requires |rs| == 4 && ValidSplit(plan) && LeafBest(rs, plan, 10)
    ensures forall p :: ValidSplit(p) ==> LeafScore(rs, plan) <= LeafScore(rs, p)
  {
    hide LeafScore;
  }

  /** The division of child bounds leaves only lines, so that it is scored by length. */
  predicate ByLength(rs: seq<Rectangle>, p: Split)
    requires |rs| == 4 && ValidSplit(p)
  {
    match p
    case One(_) =>
      var kept := Kept(rs, p);
      Area(kept[0]) == 0 && Area(kept[1]) == 0 && WhiteArea3(kept[0], kept[1], kept[2]) == 0
    case Two(i, j) =>
      var given := Given(rs, p);
      && Area(rs[i]) == 0 && WhiteArea2(rs[i], rs[j]) == 0
      && Area(given[0]) == 0 && WhiteArea2(given[0], given[1]) == 0
  }

  function InnerScore(rs: seq<Rectangle>, p: Split): int
    requires |rs| == 4 && ValidSplit(p)
  {
    match p
    case One(_) =>
      var kept := Kept(rs, p);
      if ByLength(rs, p) then WhiteLength3(kept[0], kept[1], kept[2]) else WhiteArea3(kept[0], kept[1], kept[2])
    case Two(i, j) =>
      var given := Given(rs, p);
      if ByLength(rs, p) then WhiteLength2(rs[i], rs[j]) + WhiteLength2(given[0], given[1])
      else WhiteArea2(rs[i], rs[j]) + WhiteArea2(given[0], given[1])
  }

  /** Among the first `n` divisions: the last one scored by length, or else one of the smallest area. */
  ghost predicate InnerBest(rs: seq<Rectangle>, plan: Split, n: nat)
    requires |rs| == 4 && ValidSplit(plan)
  {
    if ByLength(rs, plan) then
      forall p :: ValidSplit(p) && Rank(p) < n && ByLength(rs, p) ==> Rank(p) <= Rank(plan)
    else
      forall p :: ValidSplit(p) && Rank(p) < n ==> !ByLength(rs, p) && InnerScore(rs, plan) <= InnerScore(rs, p)
  }

  lemma InnerBestStep(rs: seq<Rectangle>, best: Split, p: Split, plan: Split)
    requires |rs| == 4 && ValidSplit(best) && ValidSplit(p) && InnerBest(rs, best, Rank(p)) && Rank(best) < Rank(p)
    requires plan == if ByLength(rs, p) then p
                     else if ByLength(rs, best) || InnerScore(rs, best) <= InnerScore(rs, p) then best else p
    ensures InnerBest(rs, plan, Rank(p) + 1)
  {
    hide ByLength, InnerScore;
    forall x | ValidSplit(x) && Rank(x) < Rank(p) + 1
      ensures if ByLength(rs, plan) then ByLength(rs, x) ==> Rank(x) <= Rank(plan)
              else !ByLength(rs, x) && InnerScore(rs, plan) <= InnerScore(rs, x)
    {
      if Rank(x) == Rank(p) {
        assert x == p;
      }
    }
  }

  lemma InnerBestOne(rs: seq<Rectangle>)
    requires |rs| == 4
    ensures InnerBest(rs, One(0), 1)
  {
    hide ByLength, InnerScore;
    assert forall x :: ValidSplit(x) && Rank(x) < 1 ==> x == One(0);
  }

  /** Scores every division of three child bounds and the bound of the new node (the last rectangle).
      As long as no division is scored by length the smallest area wins; otherwise the last one that is
      scored by length wins, whatever its length. */
  method ChooseInnerSplit(rs: seq<Rectangle>) returns (plan: Split)
    requires |rs| == 4
    ensures ValidSplit(plan) && InnerBest(rs, plan, 10)
  {
    hide Area, Length, WhiteArea2, WhiteArea3, WhiteLength2, WhiteLength3, InnerBest, KeptIndices, GivenIndices, Pick;
    KeptOfOne(rs, 0);
    var minMeasure := WhiteArea3(rs[1], rs[2], rs[3]);
    var minIsLength := Area(rs[1]) == 0 && Area(rs[2]) == 0 && minMeasure == 0;
    if minIsLength {
      minMeasure := WhiteLength3(rs[1], rs[2], rs[3]);
    }
    plan := One(0);
    InnerBestOne(rs);
    for i := 1 to 4
      invariant ValidSplit(plan) && Rank(plan) < i && InnerBest(rs, plan, i)
      invariant minIsLength == ByLength(rs, plan) && minMeasure == InnerScore(rs, plan)
    {
      KeptOfOne(rs, i);
      var r1 := rs[0];
      var r2 := if i == 1 then rs[2] else rs[1];
      var r3 := if i == 3 then rs[2] else rs[3];
      var measure := WhiteArea3(r1, r2, r3);
      var isLength := Area(r1) == 0 && Area(r2) == 0 && measure == 0;
      if isLength {
        measure := WhiteLength3(r1, r2, r3);
      }
      ghost var best := plan;
      if minIsLength == isLength && measure < minMeasure {
        minMeasure, plan := measure, One(i);
      } else if isLength {
        minMeasure, plan, minIsLength := measure, One(i), true;
      }
      InnerBestStep(rs, best, One(i), plan);
    }
    for i := 0 to 3
      invariant ValidSplit(plan) && minIsLength == ByLength(rs, plan) && minMeasure == InnerScore(rs, plan)
      invariant var n := if i < 3 then PairRank(i, i + 1) else 10; Rank(plan) < n && InnerBest(rs, plan, n)
    {
      for j := i + 1 to 4
        invariant ValidSplit(plan) && minIsLength == ByLength(rs, plan) && minMeasure == InnerScore(rs, plan)
        invariant Rank(plan) < PairRank(i, j) && InnerBest(rs, plan, PairRank(i, j))
      {
        var others := GivenIndices(Two(i, j));
        GivenOfTwo(rs, i, j);
        var r1, r2, r3, r4 := rs[i], rs[j], rs[others[0]], rs[others[1]];
        var measure1, measure2 := WhiteArea2(r1, r2), WhiteArea2(r3, r4);
        var isLength := Area(r1) == 0 && measure1 == 0 && Area(r3) == 0 && measure2 == 0;
        if isLength {
          measure1, measure2 := WhiteLength2(r1, r2), WhiteLength2(r3, r4);
        }
        ghost var best := plan;
        if minIsLength == isLength && measure1 + measure2 < minMeasure {
          minMeasure, plan := measure1 + measure2, Two(i, j);
        } else if isLength {
          minMeasure, plan, minIsLength := measure1 + measure2, Two(i, j), true;
        }
        InnerBestStep(rs, best, Two(i, j), plan);
      }
    }
  }

  /** Four segments of one line, lying in two neighbouring pairs: keeping the pairs together leaves far
      less unused length than the division that is chosen. */
  lemma LastLineWins(plan: Split)
    requires ValidSplit(plan)
    ensures var rs := [Segment(0, 1), Segment(100, 101), Segment(1, 2), Segment(101, 102)];
            InnerBest(rs, plan, 10) ==> plan == Two(2, 3) && InnerScore(rs, Two(0, 2)) < InnerScore(rs, plan)
  {
    hide Area, Length, WhiteArea2, WhiteArea3, WhiteLength2, WhiteLength3, Segment, Pick;
    var rs := [Segment(0, 1), Segment(100, 101), Segment(1, 2), Segment(101, 102)];
    Gap(1, 2, 101, 102);
    Gap(0, 1, 100, 101);
    Gap(0, 1, 1, 2);
    Gap(100, 101, 101, 102);
    assert Given(rs, Two(2, 3)) == [rs[0], rs[1]];
    assert Given(rs, Two(0, 2)) == [rs[1], rs[3]];
    assert Rank(plan) == 9 ==> plan == Two(2, 3);
    assert Rank(Two(2, 3)) == 9;
  }

  lemma Gap(a: Int16, b: Int16, c: Int16, d: Int16)
    requires 0 <= a <= b <= c <= d < 1000
    ensures Area(Segment(a, b)) == 0 && WhiteArea2(Segment(a, b), Segment(c, d)) == 0
    ensures WhiteLength2(Segment(a, b), Segment(c, d)) == c - b
  {
  }

  function Segment(a: Int16, b: Int16): Rectangle { Rectangle(Point(a, 0), Point(b, 0)) }

  // ---------- choosing a child ----------

  /** Taking the rectangle in, the bound stays a line, so that its growth is measured by length. */
  predicate StaysLine(bound: Rectangle, r: Rectangle) {
    Area(Mbr(bound, r)) == 0 && Area(bound) == 0
  }

  function GrowthOf(bound: Rectangle, r: Rectangle): int {
    if StaysLine(bound, r) then Length(Mbr(bound, r)) - Length(bound) else Area(Mbr(bound, r)) - Area(bound)
  }

  function SizeOf(bound: Rectangle, r: Rectangle): int {
    if StaysLine(bound, r) then Length(bound) else Area(bound)
  }

  /** Lines come before boxes, then the smaller growth, then the smaller bound. */
  predicate Better(a: Rectangle, b: Rectangle, r: Rectangle) {
    if StaysLine(a, r) != StaysLine(b, r) then StaysLine(a, r)
    else if GrowthOf(a, r) != GrowthOf(b, r) then GrowthOf(a, r) < GrowthOf(b, r)
    else SizeOf(a, r) < SizeOf(b, r)
  }

  /** The first of the best children. */
  method ChooseChild(bounds: seq<Rectangle>, r: Rectangle) returns (min: nat)
    requires |bounds| > 0
    ensures min < |bounds|
    ensures forall i :: 0 <= i < |bounds| ==> !Better(bounds[i], bounds[min], r)
    ensures forall i :: 0 <= i < min ==> Better(bounds[min], bounds[i], r)
  {
    hide Area, Length, Mbr, StaysLine, GrowthOf;
    var minMeasure, minIsLength := Growth(bounds[0], r);
    min := 0;
    for i := 1 to |bounds|
      invariant min < i && minMeasure == GrowthOf(bounds[min], r) && minIsLength == StaysLine(bounds[min], r)
      invariant forall k :: 0 <= k < i ==> !Better(bounds[k], bounds[min], r)
      invariant forall k :: 0 <= k < min ==> Better(bounds[min], bounds[k], r)
    {
      var measure, isLength := Growth(bounds[i], r);
      if !minIsLength && !isLength {
        if measure == minMeasure {
          if Area(bounds[i]) < Area(bounds[min]) {
            min := i;
          }
        } else if measure < minMeasure {
          minMeasure, min := measure, i;
        }
      } else if minIsLength && isLength {
        if measure == minMeasure {
          if Length(bounds[i]) < Length(bounds[min]) {
            min := i;
          }
        } else if measure < minMeasure {
          minMeasure, min := measure, i;
        }
      } else if isLength {
        minMeasure, min, minIsLength := measure, i, true;
      }
    }
  }

  method Growth(bound: Rectangle, r: Rectangle) returns (measure: int, isLength: bool)
    ensures isLength == StaysLine(bound, r) && measure == GrowthOf(bound, r)
  {
    hide Area, Length, Mbr;
    var bounding := Mbr(bound, r);
    measure := Area(bounding) - Area(bound);
    isLength := Area(bounding) == 0 && measure == 0;
    if isLength {
      measure := Length(bounding) - Length(bound);
    }
  }
}
