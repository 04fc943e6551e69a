/** Flow sizes drawn from a piecewise linear distribution, over exact reals: values, percentiles, and the
    integral of the values over the percentiles. */
module CustomRand {

  /** `y` percent of the values are at most `x`. */
  datatype Point = Point(x: real, y: real)

  type Cdf = seq<Point>

  /** What a valid distribution looks like: both coordinates increase strictly, from 0 to 100 percent. */
  ghost predicate Accepted(c: Cdf) {
    && |c| >= 2 && c[0].y == 0.0 && c[|c| - 1].y == 100.0
    && forall i, j | 0 <= i < j < |c| :: c[i].x < c[j].x && c[i].y < c[j].y
  }

  // ---- one segment --------------------------------------------------------------------------

  /** `t` steps of a slope that climbs `a` over `b`. */
  function Along(a: real, b: real, t: real): real
    requires b > 0.0
  {
    a / b * t
  }

  function Value(p: Point, q: Point, y: real): real
    requires p.y < q.y
  {
    p.x + Along(q.x - p.x, q.y - p.y, y - p.y)
  }

  function Percentile(p: Point, q: Point, x: real): real
    requires p.x < q.x
  {
    p.y + Along(q.y - p.y, q.x - p.x, x - p.x)
  }

  predicate Rises(p: Point, q: Point) { p.x < q.x && p.y < q.y }

  /** On one segment the two directions are inverse to each other, ... */
  lemma SegmentInverse(p: Point, q: Point, x: real, y: real)
    requires Rises(p, q)
    ensures Percentile(p, q, Value(p, q, y)) == y && Value(p, q, Percentile(p, q, x)) == x
  {
  }

  lemma AlongRises(a: real, b: real, t: real, t': real)
    requires a > 0.0 && b > 0.0 && t < t'
    ensures Along(a, b, t) < Along(a, b, t')
  {
    var s := a / b;
    assert s > 0.0;
    assert s * t' - s * t == s * (t' - t) > 0.0;
  }

  /** ... values rise with the percentile, ... */
  lemma SegmentRises(p: Point, q: Point, y: real, y': real)
    requires Rises(p, q) && y < y'
    ensures Value(p, q, y) < Value(p, q, y')
  {
    AlongRises(q.x - p.x, q.y - p.y, y - p.y, y' - p.y);
    hide Along;
  }

  /** ... and the ends of the segment correspond. */
  lemma SegmentEnds(p: Point, q: Point)
    requires Rises(p, q)
    ensures Value(p, q, p.y) == p.x && Value(p, q, q.y) == q.x
    ensures Percentile(p, q, p.x) == p.y && Percentile(p, q, q.x) == q.y
  {
  }

  // ---- the whole distribution -------------------------------------------------------------------

  /** The first segment that ends at or after percentile `y`, or value `x`. */
  ghost predicate FirstByY(c: Cdf, y: real, i: nat) { 1 <= i < |c| && y <= c[i].y && (i == 1 || c[i - 1].y < y) }

  ghost predicate FirstByX(c: Cdf, x: real, i: nat) { 1 <= i < |c| && x <= c[i].x && (i == 1 || c[i - 1].x < x) }

  /** `x` is the value at percentile `y`. */
  ghost predicate IsValue(c: Cdf, y: real, x: real)
    requires Accepted(c)
  {
    exists i: nat :: FirstByY(c, y, i) && x == Value(c[i - 1], c[i], y)
  }

  ghost predicate IsPercentile(c: Cdf, x: real, y: real)
    requires Accepted(c)
  {
    exists i: nat :: FirstByX(c, x, i) && y == Percentile(c[i - 1], c[i], x)
  }

  /** Value and percentile are in the proportion of the ends of the segment. */
  ghost predicate OnLine(p: Point, q: Point, x: real, y: real) { (x - p.x) * (q.y - p.y) == (q.x - p.x) * (y - p.y) }

  lemma OnLineIff(p: Point, q: Point, x: real, y: real)
    requires Rises(p, q)
    ensures OnLine(p, q, x, y) <==> x == Value(p, q, y)
  {
    var a, b, s, t := q.x - p.x, q.y - p.y, x - p.x, y - p.y;
    assert a / b * b == a;
    assert a / b * t * b == a * t;
    if s * b == a * t { Cancel(s, a / b * t, b); }
  }

  lemma Cancel(s: real, t: real, b: real)
    requires s * b == t * b && b > 0.0
    ensures s == t
  {
    assert (s - t) * b == 0.0;
  }

  /** The value at a percentile lies on the line of the first segment that ends at or after it. */
  lemma LiesOnLine(c: Cdf, x: real, y: real)
    requires Accepted(c)
    ensures IsValue(c, y, x) <==>
              exists i | 1 <= i < |c| :: y <= c[i].y && (i == 1 || c[i - 1].y < y) && OnLine(c[i - 1], c[i], x, y)
  {
    hide Value;
    hide OnLine;
    if IsValue(c, y, x) {
      var i: nat :| FirstByY(c, y, i) && x == Value(c[i - 1], c[i], y);
      OnLineIff(c[i - 1], c[i], x, y);
    }
    if i :| 1 <= i < |c| && y <= c[i].y && (i == 1 || c[i - 1].y < y) && OnLine(c[i - 1], c[i], x, y) {
      OnLineIff(c[i - 1], c[i], x, y);
      assert FirstByY(c, y, i);
    }
  }

  lemma SegmentOf(c: Cdf, y: real, x: real, i: nat)
    requires Accepted(c) && FirstByY(c, y, i) && x == Value(c[i - 1], c[i], y)
    ensures FirstByX(c, x, i) && y == Percentile(c[i - 1], c[i], x)
    ensures i > 1 || y >= 0.0 ==> c[i - 1].x <= x
  {
    var p, q := c[i - 1], c[i];
    SegmentInverse(p, q, x, y);
    SegmentEnds(p, q);
    if y < q.y { SegmentRises(p, q, y, q.y); }
    if p.y < y { SegmentRises(p, q, p.y, y); }
  }

  lemma SegmentOfX(c: Cdf, x: real, y: real, i: nat)
    requires Accepted(c) && FirstByX(c, x, i) && y == Percentile(c[i - 1], c[i], x)
    ensures FirstByY(c, y, i) && x == Value(c[i - 1], c[i], y)
  {
    var p, q := c[i - 1], c[i];
    SegmentInverse(p, q, x, y);
    SegmentEnds(p, q);
    if y > q.y { SegmentRises(p, q, q.y, y); }
    if y <= p.y && y < p.y { SegmentRises(p, q, y, p.y); }
  }

  /** Values and percentiles are inverse to each other, also where the first segment is extended to the left. */
  lemma Inverse(c: Cdf, x: real, y: real)
    requires Accepted(c)
    ensures IsValue(c, y, x) <==> IsPercentile(c, x, y)
  {
    if IsValue(c, y, x) {
      var i: nat :| FirstByY(c, y, i) && x == Value(c[i - 1], c[i], y);
      SegmentOf(c, y, x, i);
    }
    if IsPercentile(c, x, y) {
      var i: nat :| FirstByX(c, x, i) && y == Percentile(c[i - 1], c[i], x);
      SegmentOfX(c, x, y, i);
    }
  }

  /** Values rise strictly with the percentile. */
  lemma Rising(c: Cdf, y: real, y': real, x: real, x': real)
    requires Accepted(c) && IsValue(c, y, x) && IsValue(c, y', x')
    ensures y < y' <==> x < x'
  {
    hide Value;
    if y < y' {
      RisingOneWay(c, y, y', x, x');
    } else if y' < y {
      RisingOneWay(c, y', y, x', x);
    } else {
      var i: nat :| FirstByY(c, y, i) && x == Value(c[i - 1], c[i], y);
      var j: nat :| FirstByY(c, y', j) && x' == Value(c[j - 1], c[j], y');
      assert i == j;
    }
  }

  lemma RisingOneWay(c: Cdf, y: real, y': real, x: real, x': real)
    requires Accepted(c) && IsValue(c, y, x) && IsValue(c, y', x') && y < y'
    ensures x < x'
  {
    hide Value;
    var i: nat :| FirstByY(c, y, i) && x == Value(c[i - 1], c[i], y);
    var j: nat :| FirstByY(c, y', j) && x' == Value(c[j - 1], c[j], y');
    if i == j {
      SegmentRises(c[i - 1], c[i], y, y');
    } else {
      SegmentOf(c, y, x, i);
      SegmentEnds(c[j - 1], c[j]);
      SegmentRises(c[j - 1], c[j], c[j - 1].y, y');
      assert i <= j - 1;
    }
  }

  // ---- the integral ---------------------------------------------------------------------------------

  /** The area under a line from `a` to `b` over `d` percent. */
  function Trapezoid(a: real, b: real, d: real): real { 0.5 * (a + b) * d / 100.0 }

  /** The area under the values of a whole segment, and up to percentile `y` of it. */
  function Area(p: Point, q: Point): real { Trapezoid(p.x, q.x, q.y - p.y) }

  function Part(p: Point, q: Point, y: real): real
    requires p.y < q.y
  {
    Trapezoid(p.x, Value(p, q, y), y - p.y)
  }

  lemma PartEnds(p: Point, q: Point)
    requires Rises(p, q)
    ensures Part(p, q, p.y) == 0.0 && Part(p, q, q.y) == Area(p, q)
  {
  }

  /** The area of the segments before segment `i`. */
  function Upto(c: Cdf, i: nat): real
    requires 1 <= i <= |c|
  {
    if i == 1 then 0.0 else Upto(c, i - 1) + Area(c[i - 2], c[i - 1])
  }

  function Integral(c: Cdf, i: nat, y: real): real
    requires Accepted(c) && 1 <= i < |c|
  {
    Upto(c, i) + Part(c[i - 1], c[i], y)
  }

  ghost predicate IsIntegral(c: Cdf, y: real, v: real)
    requires Accepted(c)
  {
    exists i: nat :: FirstByY(c, y, i) && v == Integral(c, i, y)
  }

  /** Between two percentiles of a segment the area is their distance times the middle value. */
  lemma PartGrows(p: Point, q: Point, y: real, y': real)
    requires Rises(p, q)
    ensures Part(p, q, y') - Part(p, q, y) == Trapezoid(Value(p, q, y), Value(p, q, y'), y' - y)
  {
  }

  lemma Middle(lo: real, hi: real, y: real, y': real)
    requires lo <= hi && y <= y'
    ensures Between(lo, hi, y, y', Trapezoid(lo, hi, y' - y))
  {
  }

  lemma SegmentBounds(c: Cdf, i: nat, y: real, y': real)
    requires Accepted(c) && 1 <= i < |c| && y <= y'
    ensures Value(c[i - 1], c[i], y) <= Value(c[i - 1], c[i], y')
    ensures Between(Value(c[i - 1], c[i], y), Value(c[i - 1], c[i], y'), y, y', Integral(c, i, y') - Integral(c, i, y))
  {
    var p, q := c[i - 1], c[i];
    if y < y' { SegmentRises(p, q, y, y'); }
    PartGrows(p, q, y, y');
    hide Value;
    hide Part;
    hide Trapezoid;
    hide Between;
    Middle(Value(p, q, y), Value(p, q, y'), y, y');
  }

  /** Where two segments meet they agree. */
  lemma Meet(c: Cdf, i: nat)
    requires Accepted(c) && 1 < i < |c|
    ensures Value(c[i - 2], c[i - 1], c[i - 1].y) == c[i - 1].x == Value(c[i - 1], c[i], c[i - 1].y)
    ensures Integral(c, i - 1, c[i - 1].y) == Integral(c, i, c[i - 1].y)
  {
  }

  /** `growth` is the distance of the percentiles times some value from `lo` to `hi`. */
  predicate Between(lo: real, hi: real, y: real, y': real, growth: real) {
    lo * (y' - y) / 100.0 <= growth <= hi * (y' - y) / 100.0
  }

  lemma Combine(lo: real, mid: real, hi: real, y: real, k: real, y': real, v: real, w: real)
    requires lo <= mid <= hi && y <= k <= y' && Between(lo, mid, y, k, v) && Between(mid, hi, k, y', w)
    ensures Between(lo, hi, y, y', v + w)
  {
  }

  lemma {:induction false} SpanBounds(c: Cdf, i: nat, j: nat, y: real, y': real)
    requires Accepted(c) && 1 <= i <= j < |c| && y <= c[i].y && y <= y' && (i < j ==> c[j - 1].y <= y')
    ensures Value(c[i - 1], c[i], y) <= Value(c[j - 1], c[j], y')
    ensures Between(Value(c[i - 1], c[i], y), Value(c[j - 1], c[j], y'), y, y', Integral(c, j, y') - Integral(c, i, y))
    decreases j - i
  {
    if i == j {
      SegmentBounds(c, i, y, y');
    } else {
      var k := c[j - 1].y;
      SpanBounds(c, i, j - 1, y, k);
      SegmentBounds(c, j, k, y');
      Meet(c, j);
      hide *;
      Combine(Value(c[i - 1], c[i], y), c[j - 1].x, Value(c[j - 1], c[j], y'), y, k, y',
              Integral(c, j - 1, k) - Integral(c, i, y), Integral(c, j, y') - Integral(c, j, k));
    }
  }

  /** From one percentile to a higher one the integral grows by their distance times some value in between. */
  lemma IntegralBounds(c: Cdf, y: real, y': real, x: real, x': real, v: real, v': real)
    requires Accepted(c) && y <= y' && IsValue(c, y, x) && IsValue(c, y', x') && IsIntegral(c, y, v) && IsIntegral(c, y', v')
    ensures Between(x, x', y, y', v' - v)
  {
    var i := ValueAt(c, y, x);
    var j := ValueAt(c, y', x');
    IntegralAt(c, y, v, i);
    IntegralAt(c, y', v', j);
    FirstUnique(c, y, i, y', j);
    hide *;
    SpanBounds(c, i, j, y, y');
  }

  lemma ValueAt(c: Cdf, y: real, x: real) returns (i: nat)
    requires Accepted(c) && IsValue(c, y, x)
    ensures FirstByY(c, y, i) && x == Value(c[i - 1], c[i], y)
  {
    i :| FirstByY(c, y, i) && x == Value(c[i - 1], c[i], y);
  }

  lemma IntegralAt(c: Cdf, y: real, v: real, i: nat)
    requires Accepted(c) && IsIntegral(c, y, v) && FirstByY(c, y, i)
    ensures v == Integral(c, i, y)
  {
  }

  lemma FirstUnique(c: Cdf, y: real, i: nat, y': real, j: nat)
    requires Accepted(c) && FirstByY(c, y, i) && FirstByY(c, y', j) && y <= y'
    ensures 1 <= i <= j < |c| && y <= c[i].y && (y == y' ==> i == j) && (i < j ==> c[j - 1].y <= y')
  {
  }

  // ---- the class ----------------------------------------------------------------------------------------

  datatype Option<T> = None | Some(value: T)

  class CustomRand {
    var cdf: Cdf

    /** Raises on an empty list. */
    static method TestCdf(cdf: Cdf) returns (raised: bool, ok: bool)
      ensures raised <==> cdf == []
      ensures !raised ==> (ok <==> Accepted(cdf))
    {
      raised := cdf == [];
      if raised || cdf[0].y != 0.0 || cdf[|cdf| - 1].y != 100.0 {
        return raised, false;
      }
      for i := 1 to |cdf|
        invariant forall k, l | 0 <= k < l < i :: cdf[k].x < cdf[l].x && cdf[k].y < cdf[l].y
      {
        if cdf[i].y <= cdf[i - 1].y || cdf[i].x <= cdf[i - 1].x {
          return false, false;
        }
      }
      ok := true;
    }

    method SetCdf(cdf: Cdf) returns (raised: bool, ok: bool)
      modifies this
      ensures raised <==> cdf == []
      ensures !raised ==> (ok <==> Accepted(cdf))
      ensures this.cdf == if !raised && ok then cdf else old(this.cdf)
    {
      raised, ok := TestCdf(cdf);
      if !raised && ok {
        this.cdf := cdf;
      }
    }

    /** The average value is the integral over all percentiles. */
    method GetAvg() returns (avg: real)
      requires Accepted(cdf)
      ensures IsIntegral(cdf, 100.0, avg)
    {
      hide Area;
      var s := 0.0;
      var lastX, lastY := cdf[0].x, cdf[0].y;
      for i := 1 to |cdf|
        invariant lastX == cdf[i - 1].x && lastY == cdf[i - 1].y
        invariant s == 100.0 * Upto(cdf, i)
      {
        var x, y := cdf[i].x, cdf[i].y;
        AreaIs(cdf[i - 1], cdf[i]);
        s := s + (x + lastX) / 2.0 * (y - lastY);
        lastX := x;
        lastY := y;
      }
      avg := s / 100.0;
      WholeIntegral(cdf);
    }

    method GetPercentileFromValue(x: real) returns (y: real)
      requires Accepted(cdf)
      ensures if x < 0.0 || x > cdf[|cdf| - 1].x then y == -1.0 else IsPercentile(cdf, x, y)
    {
      hide Percentile;
      if x < 0.0 || x > cdf[|cdf| - 1].x {
        return -1.0;
      }
      for i := 1 to |cdf|
        invariant i > 1 ==> cdf[i - 1].x < x
      {
        if x <= cdf[i].x {
          var p, q := cdf[i - 1], cdf[i];
          assert FirstByX(cdf, x, i) && IsPercentile(cdf, x, Percentile(p, q, x));
          PercentileIs(p, q, x);
          return p.y + (q.y - p.y) / (q.x - p.x) * (x - p.x);
        }
      }
      assert false;
    }

    method GetValueFromPercentile(y: real) returns (x: Option<real>)
      requires Accepted(cdf)
      ensures if y > 100.0 then x.None? else x.Some? && IsValue(cdf, y, x.value)
    {
      hide Value;
      for i := 1 to |cdf|
        invariant i > 1 ==> cdf[i - 1].y < y
      {
        if y <= cdf[i].y {
          var p, q := cdf[i - 1], cdf[i];
          assert FirstByY(cdf, y, i) && IsValue(cdf, y, Value(p, q, y));
          ValueIs(p, q, y);
          return Some(p.x + (q.x - p.x) / (q.y - p.y) * (y - p.y));
        }
      }
      x := None;
    }

    method GetIntegralY(y: real) returns (s: real)
      requires Accepted(cdf)
      ensures IsIntegral(cdf, if y > 100.0 then 100.0 else y, s)
    {
      s := 0.0;
      hide Part;
      hide Area;
      for i := 1 to |cdf|
        invariant s == Upto(cdf, i) && (i > 1 ==> cdf[i - 1].y < y)
      {
        var p, q := cdf[i - 1], cdf[i];
        if y <= q.y {
          PartIs(p, q, y);
          s := s + 0.5 * (p.x + p.x + (q.x - p.x) / (q.y - p.y) * (y - p.y)) * (y - p.y) / 100.0;
          assert FirstByY(cdf, y, i) && s == Integral(cdf, i, y);
          return;
        } else {
          AreaIs(p, q);
          s := s + 0.5 * (q.x + p.x) * (q.y - p.y) / 100.0;
        }
      }
      WholeIntegral(cdf);
    }
  }

  lemma ValueIs(p: Point, q: Point, y: real)
    requires p.y < q.y
    ensures p.x + (q.x - p.x) / (q.y - p.y) * (y - p.y) == Value(p, q, y)
  {
  }

  lemma PercentileIs(p: Point, q: Point, x: real)
    requires p.x < q.x
    ensures p.y + (q.y - p.y) / (q.x - p.x) * (x - p.x) == Percentile(p, q, x)
  {
  }

  lemma PartIs(p: Point, q: Point, y: real)
    requires p.y < q.y
    ensures 0.5 * (p.x + p.x + (q.x - p.x) / (q.y - p.y) * (y - p.y)) * (y - p.y) / 100.0 == Part(p, q, y)
  {
  }

  lemma AreaIs(p: Point, q: Point)
    ensures 0.5 * (q.x + p.x) * (q.y - p.y) / 100.0 == Area(p, q)
    ensures (q.x + p.x) / 2.0 * (q.y - p.y) == 100.0 * Area(p, q)
  {
  }

  lemma WholeIntegral(c: Cdf)
    requires Accepted(c)
    ensures IsIntegral(c, 100.0, Upto(c, |c|))
  {
    var i := |c| - 1;
    PartEnds(c[i - 1], c[i]);
    hide Part;
    hide Area;
    assert FirstByY(c, 100.0, i) && Upto(c, |c|) == Integral(c, i, 100.0);
  }

  /** The average lies between the least and the greatest value. */
  lemma AverageInRange(c: Cdf, avg: real)
    requires Accepted(c) && IsIntegral(c, 100.0, avg)
    ensures c[0].x <= avg <= c[|c| - 1].x
  {
    var n := |c| - 1;
    SegmentEnds(c[0], c[1]);
    SegmentEnds(c[n - 1], c[n]);
    PartEnds(c[0], c[1]);
    hide Value;
    hide Part;
    assert FirstByY(c, 0.0, 1) && c[0].x == Value(c[0], c[1], 0.0) && Integral(c, 1, 0.0) == 0.0;
    assert IsValue(c, 0.0, c[0].x) && IsIntegral(c, 0.0, 0.0);
    assert FirstByY(c, 100.0, n) && c[n].x == Value(c[n - 1], c[n], 100.0);
    IntegralBounds(c, 0.0, 100.0, c[0].x, c[n].x, 0.0, avg);
  }
}
