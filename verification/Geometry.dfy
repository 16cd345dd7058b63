/** Points, footholds and bounding rectangles of the foothold tree.
    The y axis points down, so `sw` holds the smallest x and the largest y. */
module Geometry {
  import opened Common

  type Int16 = v: int | -0x8000 <= v < 0x8000

  const INT16_MAX: Int16 := 0x7fff

  datatype Point = Point(x: Int16, y: Int16)

  datatype Foothold = Foothold(id: nat, p1: Point, p2: Point)

  datatype Rectangle = Rectangle(sw: Point, ne: Point)

  function Abs(a: int): nat { if a < 0 then -a else a }

  /** Conversion to a 16-bit signed integer. */
  function ToInt16(v: int): (r: Int16)
    ensures -0x8000 <= v < 0x8000 ==> r == v
  {
    (v + 0x8000) % 0x1_0000 - 0x8000
  }

  /** C division: the quotient is truncated toward zero. */
  function TruncDiv(n: int, d: int): int
    requires d != 0
  {
    var q := Abs(n) / Abs(d);
    if (n < 0) == (d < 0) then q else -q
  }

  function FootholdMbr(fh: Foothold): Rectangle {
    Rectangle(Point(Min(fh.p1.x, fh.p2.x), Max(fh.p1.y, fh.p2.y)),
              Point(Max(fh.p1.x, fh.p2.x), Min(fh.p1.y, fh.p2.y)))
  }

  function Mbr(r1: Rectangle, r2: Rectangle): Rectangle {
    Rectangle(Point(Min(r1.sw.x, r2.sw.x), Max(r1.sw.y, r2.sw.y)),
              Point(Max(r1.ne.x, r2.ne.x), Min(r1.ne.y, r2.ne.y)))
  }

  ghost predicate Inside(p: Point, r: Rectangle) {
    r.sw.x <= p.x <= r.ne.x && r.ne.y <= p.y <= r.sw.y
  }

  /** Both end points of every foothold of `m` lie inside `r`, and each of its four sides has one on it. */
  ghost predicate TightBox(r: Rectangle, m: multiset<Foothold>) {
    && (forall f <- m :: Inside(f.p1, r) && Inside(f.p2, r))
    && (exists f <- m :: f.p1.x == r.sw.x || f.p2.x == r.sw.x)
    && (exists f <- m :: f.p1.x == r.ne.x || f.p2.x == r.ne.x)
    && (exists f <- m :: f.p1.y == r.sw.y || f.p2.y == r.sw.y)
    && (exists f <- m :: f.p1.y == r.ne.y || f.p2.y == r.ne.y)
  }

  lemma TightBoxIsUnique(r1: Rectangle, r2: Rectangle, m: multiset<Foothold>)
    requires TightBox(r1, m) && TightBox(r2, m)
    ensures r1 == r2
  {
  }

  lemma TightBoxOfOne(f: Foothold)
    ensures TightBox(FootholdMbr(f), multiset{f})
  {
    assert f in multiset{f};
  }

  lemma TightBoxJoins(r1: Rectangle, m1: multiset<Foothold>, r2: Rectangle, m2: multiset<Foothold>)
    requires TightBox(r1, m1) && TightBox(r2, m2)
    ensures TightBox(Mbr(r1, r2), m1 + m2)
  {
  }

  // ---------- distance from a point down to a foothold ----------

  /** The distance before it is converted to 16 bits; negative if the foothold lies above the point. */
  function TrueDistance(fh: Foothold, p: Point): int {
    if fh.p1.x == fh.p2.x then
      Min(fh.p1.y, fh.p2.y) - p.y
    else
      TruncDiv((fh.p2.y - fh.p1.y) * (p.x - fh.p1.x), fh.p2.x - fh.p1.x) + fh.p1.y - p.y
  }

  function DistanceBelow(fh: Foothold, p: Point): Int16 {
    ToInt16(TrueDistance(fh, p))
  }

  /** The tests that make the search skip a foothold before comparing distances. */
  predicate Skipped(fh: Foothold, p: Point) {
    || (fh.p1.x > p.x && fh.p2.x > p.x)
    || (fh.p1.x < p.x && fh.p2.x < p.x)
    || (fh.p1.y < p.y && fh.p2.y < p.y)
    || (fh.p1.x == fh.p2.x && (p.x != fh.p1.x || p.y > fh.p1.y || p.y > fh.p2.y))
    || DistanceBelow(fh, p) < 0
  }

  /** A foothold the search can return: not skipped, and nearer than the
      sentinel distance that a fresh minimum starts from. */
  predicate Eligible(fh: Foothold, p: Point) {
    !Skipped(fh, p) && DistanceBelow(fh, p) < INT16_MAX
  }

  predicate Spans(fh: Foothold, p: Point) { Min(fh.p1.x, fh.p2.x) <= p.x <= Max(fh.p1.x, fh.p2.x) }

  predicate Small(p: Point) { -0x3fff <= p.x <= 0x3fff && -0x3fff <= p.y <= 0x3fff }

  /** `q` is the quotient n / d rounded toward zero. */
  ghost predicate Truncates(q: int, n: int, d: int) {
    && Abs(q * d) <= Abs(n) < Abs(q * d) + Abs(d)
    && (q != 0 ==> (q < 0) == ((n < 0) != (d < 0)))
  }

  lemma DivBounds(a: nat, d: nat)
    requires d > 0
    ensures a / d * d <= a < a / d * d + d
  {
  }

  lemma TruncDivMagnitude(n: int, d: int)
    requires d != 0
    ensures Abs(TruncDiv(n, d)) == Abs(n) / Abs(d)
    ensures TruncDiv(n, d) != 0 ==> (TruncDiv(n, d) < 0) == ((n < 0) != (d < 0))
  {
    NatDiv(Abs(n), Abs(d));
  }

  lemma NatDiv(a: nat, d: nat)
    requires d > 0
    ensures a / d >= 0
  {
  }

  lemma TruncDivTruncates(n: int, d: int)
    requires d != 0
    ensures Truncates(TruncDiv(n, d), n, d)
  {
    hide TruncDiv;
    var t, a, c := TruncDiv(n, d), Abs(n), Abs(d);
    TruncDivMagnitude(n, d);
    DivBounds(a, c);
    var q := a / c;
    assert Abs(t * d) == q * c by {
      MulAbs(t, d);
    }
  }

  lemma QuotientBound(a: nat, b: nat, c: nat)
    requires b <= c && c > 0
    ensures 0 <= a * b / c <= a
  {
    DivBounds(a * b, c);
    assert a * b <= a * c;
  }

  /** Interpolating between the end points never leaves their range. */
  lemma InterpolationStaysBetween(dy: int, b: int, c: int)
    requires c != 0 && (0 <= b <= c || c <= b <= 0)
    ensures Min(dy, 0) <= TruncDiv(dy * b, c) <= Max(dy, 0)
  {
    hide TruncDiv;
    QuotientBound(Abs(dy), Abs(b), Abs(c));
    TruncDivOfProduct(dy, b, c);
  }

  lemma TruncDivOfProduct(dy: int, b: int, c: int)
    requires c != 0 && (0 <= b <= c || c <= b <= 0)
    ensures TruncDiv(dy * b, c) == if dy < 0 then -(Abs(dy) * Abs(b) / Abs(c)) else Abs(dy) * Abs(b) / Abs(c)
  {
    MulAbs(dy, b);
    MulSign(dy, b);
    if dy == 0 || b == 0 {
      assert dy * b == 0;
    }
  }

  lemma MulAbs(a: int, b: int)
    ensures Abs(a * b) == Abs(a) * Abs(b)
  {
  }

  lemma MulSign(a: int, b: int)
    ensures a > 0 && b > 0 ==> a * b > 0
    ensures a < 0 && b < 0 ==> a * b > 0
    ensures a > 0 && b < 0 ==> a * b < 0
    ensures a < 0 && b > 0 ==> a * b < 0
  {
  }

  /** At the point, a foothold that spans it is no higher and no lower than its end points. */
  lemma DistanceInRange(fh: Foothold, p: Point)
    requires Spans(fh, p)
    ensures Min(fh.p1.y, fh.p2.y) - p.y <= TrueDistance(fh, p) <= Max(fh.p1.y, fh.p2.y) - p.y
    ensures fh.p1.x != fh.p2.x ==>
              Truncates(TrueDistance(fh, p) + p.y - fh.p1.y,
                        (fh.p2.y - fh.p1.y) * (p.x - fh.p1.x), fh.p2.x - fh.p1.x)
  {
    hide TruncDiv, Truncates;
    if fh.p1.x != fh.p2.x {
      var dy, b, c := fh.p2.y - fh.p1.y, p.x - fh.p1.x, fh.p2.x - fh.p1.x;
      InterpolationStaysBetween(dy, b, c);
      TruncDivTruncates(dy * b, c);
    }
  }

  /** What the conversion to 16 bits makes of distances that do not fit. */
  lemma Wraps(v: int)
    requires -0x1_0000 < v < 0x1_0000
    ensures ToInt16(v) == if v < -0x8000 then v + 0x1_0000 else if v < 0x8000 then v else v - 0x1_0000
  {
  }

  /** The distances for which a slanted or level foothold above the point wraps around to one below it. */
  predicate WrapsAround(fh: Foothold, p: Point) {
    fh.p1.x != fh.p2.x && Max(fh.p1.y, fh.p2.y) >= p.y && TrueDistance(fh, p) < -0x8001
  }

  /** For all 16-bit coordinates: the footholds the search can return are those that span the point
      less than 0x7fff below it, and those so far above it that the distance wraps around. */
  lemma EligibleExactly(fh: Foothold, p: Point)
    ensures Eligible(fh, p) <==> Spans(fh, p) && (0 <= TrueDistance(fh, p) < 0x7fff || WrapsAround(fh, p))
  {
    hide TrueDistance, ToInt16;
    if Spans(fh, p) {
      DistanceInRange(fh, p);
      Wraps(TrueDistance(fh, p));
      if fh.p1.x == fh.p2.x {
        VerticalDistance(fh, p);
      }
    }
  }

  lemma VerticalDistance(fh: Foothold, p: Point)
    requires fh.p1.x == fh.p2.x
    ensures TrueDistance(fh, p) == Min(fh.p1.y, fh.p2.y) - p.y
  {
  }

  /** The footholds that should be found are those that span the point and do not lie above it. Exactly
      those can be returned, except for these two families. */
  lemma RightExactly(fh: Foothold, p: Point)
    ensures (Eligible(fh, p) <==> Spans(fh, p) && TrueDistance(fh, p) >= 0)
            <==> !(Spans(fh, p) && (TrueDistance(fh, p) >= 0x7fff || WrapsAround(fh, p)))
  {
    hide TrueDistance, Eligible;
    EligibleExactly(fh, p);
  }

  /** While coordinates stay within +-0x3fff neither happens, and the distance is never converted. */
  lemma SmallCoordinatesDoNotWrap(fh: Foothold, p: Point)
    requires Small(fh.p1) && Small(fh.p2) && Small(p)
    ensures Eligible(fh, p) <==> Spans(fh, p) && TrueDistance(fh, p) >= 0
    ensures Spans(fh, p) ==> DistanceBelow(fh, p) == TrueDistance(fh, p)
  {
    hide TrueDistance, Eligible;
    EligibleExactly(fh, p);
    if Spans(fh, p) {
      DistanceInRange(fh, p);
    }
  }

  /** This foothold lies straight below the point, at distance 0x7fff, and can never be returned. */
  lemma SentinelDistanceIsLost()
    ensures var fh, p := Foothold(0, Point(0, 0x7fff), Point(10, 0x7fff)), Point(5, 0);
            Spans(fh, p) && TrueDistance(fh, p) == 0x7fff && !Eligible(fh, p)
  {
  }

  /** This foothold lies 0xffff above the point and counts as one step below it. */
  lemma DistanceAboveIsFound()
    ensures var fh, p := Foothold(0, Point(0, -0x8000), Point(10, 0x7fff)), Point(0, 0x7fff);
            TrueDistance(fh, p) == -0xffff && Eligible(fh, p) && DistanceBelow(fh, p) == 1
  {
  }

  /** What is tested against a subtree's bound rejects no eligible foothold inside it. */
  lemma PruningIsSound(r: Rectangle, fh: Foothold, p: Point)
    requires Inside(fh.p1, r) && Inside(fh.p2, r)
    requires r.sw.x > p.x || r.sw.y < p.y
    ensures !Eligible(fh, p)
  {
  }

  // ---------- measures that steer where a foothold is placed ----------

  function Intersection(r1: Rectangle, r2: Rectangle): Rectangle {
    var sw := Point(Max(r1.sw.x, r2.sw.x), Min(r1.sw.y, r2.sw.y));
    var ne := Point(Min(r1.ne.x, r2.ne.x), Max(r1.ne.y, r2.ne.y));
    if sw.x > ne.x || sw.y < ne.y then Rectangle(Point(0, 0), Point(0, 0)) else Rectangle(sw, ne)
  }

  lemma IntersectionIsCommon(r1: Rectangle, r2: Rectangle, p: Point)
    ensures (exists q :: Inside(q, r1) && Inside(q, r2)) ==>
              (Inside(p, Intersection(r1, r2)) <==> Inside(p, r1) && Inside(p, r2))
    ensures !(exists q :: Inside(q, r1) && Inside(q, r2)) ==>
              Intersection(r1, r2) == Rectangle(Point(0, 0), Point(0, 0)) || !Proper(r1) || !Proper(r2)
  {
    if Proper(r1) && Proper(r2) && Intersection(r1, r2) != Rectangle(Point(0, 0), Point(0, 0)) {
      assert Inside(Intersection(r1, r2).sw, r1);
    }
  }

  /** The corners are in the right order. */
  ghost predicate Proper(r: Rectangle) { r.sw.x <= r.ne.x && r.ne.y <= r.sw.y }

  function Area(r: Rectangle): int { (r.ne.x - r.sw.x) * (r.sw.y - r.ne.y) }

  function Length(r: Rectangle): Int16 { ToInt16((r.ne.x - r.sw.x) + (r.sw.y - r.ne.y)) }

  function WhiteArea2(r1: Rectangle, r2: Rectangle): int {
    Area(Mbr(r1, r2)) - (Area(r1) + Area(r2) - Area(Intersection(r1, r2)))
  }

  function WhiteLength2(r1: Rectangle, r2: Rectangle): int {
    Length(Mbr(r1, r2)) - (Length(r1) + Length(r2) - Length(Intersection(r1, r2)))
  }

  function WhiteArea3(r1: Rectangle, r2: Rectangle, r3: Rectangle): int {
    var i12 := Intersection(r1, r2);
    var cover := Area(r1) + Area(r2) + Area(r3)
                 - Area(i12) - Area(Intersection(r1, r3)) - Area(Intersection(r2, r3))
                 + Area(Intersection(i12, r3));
    Area(Mbr(Mbr(r1, r2), r3)) - cover
  }

  /** The measures of boxes of 20 by 10 that share a 10 by 10 part, and of a third one beside them. */
  lemma Measures()
    ensures var a, b, c := Rectangle(Point(0, 10), Point(20, 0)), Rectangle(Point(10, 10), Point(30, 0)),
                           Rectangle(Point(0, 40), Point(20, 30));
            && Area(a) == 200 && Length(a) == 30
            && Mbr(a, b) == Rectangle(Point(0, 10), Point(30, 0))
            && Intersection(a, b) == Rectangle(Point(10, 10), Point(20, 0))
            && WhiteArea2(a, b) == 0 && WhiteArea2(a, c) == 400 && WhiteArea3(a, b, c) == 700
            && WhiteLength2(a, b) == 0 && WhiteLength2(a, c) == 0 && WhiteLength3(a, b, c) == 0
    ensures var a, b, c := Rectangle(Point(0, 0), Point(1, 0)), Rectangle(Point(2, 0), Point(3, 0)),
                           Rectangle(Point(5, 0), Point(6, 0));
            Area(a) == 0 && WhiteLength2(a, b) == 1 && WhiteLength2(a, c) == 4 && WhiteLength3(a, b, c) == 3
  {
  }

  function WhiteLength3(r1: Rectangle, r2: Rectangle, r3: Rectangle): Int16 {
    var i12 := Intersection(r1, r2);
    var cover := Length(r1) + Length(r2) + Length(r3)
                 - Length(i12) - Length(Intersection(r1, r3)) - Length(Intersection(r2, r3))
                 + Length(Intersection(i12, r3));
    ToInt16(Length(Mbr(Mbr(r1, r2), r3)) - cover)
  }
}
