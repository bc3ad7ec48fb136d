/** Scaling a coverage mask down by area, in exact arithmetic. */
module Icon {
  import opened Arith
  import opened Coverage

  // ------------------------------------------------------------------ overlaps

  function Clip(t: real, low: real, high: real): real { if t < low then low else if t > high then high else t }

  /** The length two intervals share: source pixel `s` and the stretch from `y0` to `y1`. */
  function Overlap(s: real, y0: real, y1: real): real {
    var wide := (if s + 1.0 < y1 then s + 1.0 else y1) - (if s > y0 then s else y0);
    if wide <= 0.0 then 0.0 else wide
  }

  function Overlaps(y0: real, y1: real): nat -> real { (s: nat) => Overlap(s as real, y0, y1) }

  lemma OverlapIsClipped(s: real, y0: real, y1: real)
    requires y0 <= y1
    ensures Overlap(s, y0, y1) == Clip(s + 1.0, y0, y1) - Clip(s, y0, y1)
    ensures Overlap(s, y0, y1) == Clip(y1, s, s + 1.0) - Clip(y0, s, s + 1.0)
    ensures 0.0 <= Overlap(s, y0, y1)
  {
  }

  /** Where destination pixel `d` begins, in source pixels. */
  function Edge(d: nat, f: real): real { d as real * f }

  /** The weights of the source pixels behind each destination pixel. */
  function Weights(f: real): Weighing { (d: nat) => WeightsOf(d, f) }

  function WeightsOf(d: nat, f: real): nat -> real { Overlaps(Edge(d, f), Edge(d + 1, f)) }

  lemma EdgesRise(d: nat, f: real)
    requires f >= 0.0
    ensures 0.0 <= Edge(d, f) <= Edge(d + 1, f) == Edge(d, f) + f
  {
  }

  lemma {:induction false} WeightsTelescope(n: nat, d: nat, f: real)
    requires f >= 0.0
    ensures Sum(n, Weights(f)(d)) == Clip(n as real, Edge(d, f), Edge(d + 1, f)) - Edge(d, f)
  {
    EdgesRise(d, f);
    if n > 0 {
      WeightsTelescope(n - 1, d, f);
      OverlapIsClipped((n - 1) as real, Edge(d, f), Edge(d + 1, f));
    }
  }

  lemma {:induction false} SharesTelescope(n: nat, s: nat, f: real)
    requires f >= 0.0
    ensures Sum(n, Share(Weights(f), s)) == Clip(Edge(n, f), s as real, s as real + 1.0) - s as real
  {
    if n > 0 {
      SharesTelescope(n - 1, s, f);
      EdgesRise(n - 1, f);
      OverlapIsClipped(s as real, Edge(n - 1, f), Edge(n, f));
    }
  }

  function Scale(n: nat, dn: nat): real
    requires dn > 0
  {
    n as real / dn as real
  }

  lemma LastEdge(n: nat, dn: nat, d: nat)
    requires d < dn
    ensures Scale(n, dn) >= 0.0 && Edge(dn, Scale(n, dn)) == n as real && Edge(d + 1, Scale(n, dn)) <= n as real
  {
    var f := Scale(n, dn);
    assert f * dn as real == n as real;
    assert f >= 0.0;
    Ordered((d + 1) as real, dn as real, f);
  }

  /** Every destination pixel weighs the same: as many source pixels as there are to one. */
  lemma WeightIsTheScale(n: nat, dn: nat, d: nat)
    requires d < dn
    ensures Sum(n, Weights(Scale(n, dn))(d)) == Scale(n, dn)
  {
    LastEdge(n, dn, d);
    WeightsTelescope(n, d, Scale(n, dn));
    EdgesRise(d, Scale(n, dn));
  }

  /** And every source pixel is given out whole. */
  lemma SharesAreWhole(n: nat, dn: nat, s: nat)
    requires 0 < dn && s < n
    ensures Sum(dn, Share(Weights(Scale(n, dn)), s)) == 1.0
  {
    LastEdge(n, dn, dn - 1);
    SharesTelescope(dn, s, Scale(n, dn));
  }

  lemma WeightsAreWhole(n: nat, dn: nat)
    requires 0 < dn
    ensures Whole(Weights(Scale(n, dn)), n, dn)
  {
    forall s: nat | s < n
      ensures Sum(dn, Share(Weights(Scale(n, dn)), s)) == 1.0
    {
      SharesAreWhole(n, dn, s);
    }
  }

  lemma WeightsArePositive(n: nat, dn: nat, d: nat)
    requires 0 < dn
    ensures Positive(n, Weights(Scale(n, dn))(d))
  {
    LastEdge(n, dn, dn - 1);
    EdgesRise(d, Scale(n, dn));
    forall s: nat | s < n
      ensures Weights(Scale(n, dn))(d)(s) >= 0.0
    {
      OverlapIsClipped(s as real, Edge(d, Scale(n, dn)), Edge(d + 1, Scale(n, dn)));
    }
  }

  // ------------------------------------------------------------------ which pixels to visit

  const SLIVER := 0.000000001
  const LARGEST := 1_000_000_000

  /** The source pixels behind a destination pixel: from the one its first edge is in, to the one its last edge is in,
      taken a sliver early so that an edge on a boundary does not reach into the next. */
  function First(d: nat, f: real): int { Edge(d, f).Floor }

  function Last(d: nat, f: real, n: nat): int { Min((Edge(d + 1, f) - SLIVER).Floor + 1, n) }

  /** Up to a size of 10^9 an edge off a boundary is off by more than the sliver, so none is cut short. */
  lemma SliverIsHarmless(n: nat, dn: nat, d: nat)
    requires d < dn <= LARGEST
    ensures Edge(d + 1, Scale(n, dn)) <= ((Edge(d + 1, Scale(n, dn)) - SLIVER).Floor + 1) as real
  {
    var y := Edge(d + 1, Scale(n, dn));
    var k := (y - SLIVER).Floor + 1;
    EdgeTimes(n, dn, d + 1);
    if y > k as real { NoFraction((d + 1) * n, k, dn, y); }
  }

  /** A quotient is on a whole number or at least a sliver off it. */
  lemma NoFraction(a: int, k: int, dn: nat, y: real)
    requires 0 < dn <= LARGEST && y * dn as real == a as real && k as real < y
    ensures y - k as real >= SLIVER
  {
    var t := dn as real;
    assert (y - k as real) * t == a as real - k as real * t;
    assert k as real * t == (k * dn) as real;
    assert (y - k as real) * t > 0.0;
    assert a - k * dn >= 1;
    AtLeastASliver(y - k as real, t);
  }

  lemma AtLeastASliver(x: real, t: real)
    requires 0.0 < t <= LARGEST as real && x * t >= 1.0
    ensures x >= SLIVER
  {
  }

  lemma EdgeTimes(n: nat, dn: nat, d: nat)
    requires 0 < dn
    ensures Edge(d, Scale(n, dn)) * dn as real == (d * n) as real
  {
    var f, t := Scale(n, dn), dn as real;
    assert f * t == n as real;
    assert d as real * f * t == d as real * (f * t);
  }

  /** What is not visited weighs nothing. */
  lemma VisitedAreAll(n: nat, dn: nat, d: nat)
    requires d < dn <= LARGEST
    ensures var f := Scale(n, dn); Visited(n, Edge(d, f), Edge(d + 1, f), First(d, f), Last(d, f, n))
  {
    var f := Scale(n, dn);
    SliverIsHarmless(n, dn, d);
    LastEdge(n, dn, d);
    EdgesRise(d, f);
    StepIsNoSliver(n, dn);
  }

  lemma StepIsNoSliver(n: nat, dn: nat)
    requires 0 < dn <= LARGEST
    ensures n == 0 || Scale(n, dn) >= SLIVER
  {
    assert Scale(n, dn) * dn as real == n as real;
    if n > 0 { AtLeastASliver(Scale(n, dn), dn as real); }
  }

  ghost predicate Visited(n: nat, y0: real, y1: real, first: int, last: int) {
    && 0 <= first <= last <= n
    && forall s: nat :: s < n && (s < first || last <= s) ==> Overlaps(y0, y1)(s) == 0.0
  }

  // ------------------------------------------------------------------ the picture scaled down

  function Area(sw: nat, sh: nat, dw: nat, dh: nat): real
    requires 0 < dw && 0 < dh
  {
    Scale(sw, dw) * Scale(sh, dh)
  }

  function TotalBehind(mask: seq<real>, sw: nat, sh: nat, dw: nat, dh: nat, dx: nat, dy: nat): real
    requires 0 < dw && 0 < dh
  {
    Box(At(mask), sw, sh, Weights(Scale(sw, dw))(dx), Weights(Scale(sh, dh))(dy))
  }

  /** The mean of the mask over the rectangle behind a destination pixel. */
  function Average(mask: seq<real>, sw: nat, sh: nat, dw: nat, dh: nat, dx: nat, dy: nat): real
    requires 0 < dw && 0 < dh
  {
    var area := Area(sw, sh, dw, dh);
    if area == 0.0 then 0.0
    else TotalBehind(mask, sw, sh, dw, dh, dx, dy) / area
  }

  ghost predicate IsScaled(mask: seq<real>, sw: nat, sh: nat, out: seq<real>, dw: nat, dh: nat)
    requires 0 < dw && 0 < dh
  {
    && |out| == dw * dh
    && forall dx: nat, dy: nat :: dx < dw && dy < dh ==>
         Row(At(out), dw, dy)(dx) == Average(mask, sw, sh, dw, dh, dx, dy)
  }

  lemma Quotient(x: real, y: real, q: real)
    requires y != 0.0 && q == x / y
    ensures x == y * q
  {
  }

  lemma AreaIsPositive(sw: nat, sh: nat, dw: nat, dh: nat)
    requires 0 < dw && 0 < dh && 0 < sw && 0 < sh
    ensures Area(sw, sh, dw, dh) > 0.0
  {
    assert Scale(sw, dw) > 0.0 && Scale(sh, dh) > 0.0;
  }

  lemma RowIsShared(m: nat -> real, full: nat -> real, sw: nat, sh: nat, dw: nat, wx: Weighing, wy: nat -> real,
                    dy: nat)
    requires forall dx: nat :: dx < dw ==> Row(full, dw, dy)(dx) == Box(m, sw, sh, wx(dx), wy)
    ensures Sum(dw, Boxes(m, sw, sh, wx, wy)) == RowTotals(full, dw)(dy)
  {
    SumSame(dw, Boxes(m, sw, sh, wx, wy), Row(full, dw, dy));
  }

  /** Pixels that hold what is behind them hold, together, what there was. */
  lemma AllShared(m: nat -> real, full: nat -> real, sw: nat, sh: nat, dw: nat, dh: nat, wx: Weighing, wy: Weighing)
    requires Whole(wx, sw, dw) && Whole(wy, sh, dh)
    requires forall dx: nat, dy: nat :: dx < dw && dy < dh ==>
               Row(full, dw, dy)(dx) == Box(m, sw, sh, wx(dx), wy(dy))
    ensures Sum(dh * dw, full) == Sum(sh * sw, m)
  {
    forall dy: nat | dy < dh
      ensures BoxRows(m, sw, sh, dw, wx, wy)(dy) == RowTotals(full, dw)(dy)
    {
      RowIsShared(m, full, sw, sh, dw, wx, wy(dy), dy);
    }
    SumSame(dh, RowTotals(full, dw), BoxRows(m, sw, sh, dw, wx, wy));
    BoxesAddUp(m, sw, sh, dw, dh, wx, wy);
    RowsAddUp(full, dw, dh);
  }

  /** Each pixel counted for the area it stands for holds what is behind it. */
  lemma FullPixel(out: nat -> real, dw: nat, dx: nat, dy: nat, area: real, behind: real)
    requires area > 0.0 && Row(out, dw, dy)(dx) == behind / area
    ensures Row(Scaled(area, out), dw, dy)(dx) == behind
  {
    Quotient(behind, area, Row(out, dw, dy)(dx));
  }

  lemma FullPixels(mask: seq<real>, sw: nat, sh: nat, out: seq<real>, dw: nat, dh: nat)
    requires 0 < dw && 0 < dh && 0 < sw && 0 < sh && |mask| == sw * sh && IsScaled(mask, sw, sh, out, dw, dh)
    ensures Sum(|out|, Scaled(Area(sw, sh, dw, dh), At(out))) == Sum(|mask|, At(mask))
  {
    var area := Area(sw, sh, dw, dh);
    AreaIsPositive(sw, sh, dw, dh);
    WeightsAreWhole(sw, dw);
    WeightsAreWhole(sh, dh);
    forall dx: nat, dy: nat | dx < dw && dy < dh
      ensures Row(Scaled(area, At(out)), dw, dy)(dx)
           == Box(At(mask), sw, sh, Weights(Scale(sw, dw))(dx), Weights(Scale(sh, dh))(dy))
    {
      FullPixel(At(out), dw, dx, dy, area, TotalBehind(mask, sw, sh, dw, dh, dx, dy));
    }
    AllShared(At(mask), Scaled(area, At(out)), sw, sh, dw, dh, Weights(Scale(sw, dw)), Weights(Scale(sh, dh)));
  }

  /** Coverage is conserved: the picture's total, each pixel counted for the area it stands for, is the mask's. */
  lemma CoverageIsConserved(mask: seq<real>, sw: nat, sh: nat, out: seq<real>, dw: nat, dh: nat)
    requires 0 < dw && 0 < dh && 0 < sw && 0 < sh && |mask| == sw * sh && IsScaled(mask, sw, sh, out, dw, dh)
    ensures Area(sw, sh, dw, dh) * Sum(|out|, At(out)) == Sum(|mask|, At(mask))
  {
    FullPixels(mask, sw, sh, out, dw, dh);
    ScaledComesTo(|out|, Area(sw, sh, dw, dh), At(out), Sum(|mask|, At(mask)));
  }

  /** And so is the mean. */
  lemma MeanIsPreserved(mask: seq<real>, sw: nat, sh: nat, out: seq<real>, dw: nat, dh: nat)
    requires 0 < dw && 0 < dh && 0 < sw && 0 < sh && |mask| == sw * sh && IsScaled(mask, sw, sh, out, dw, dh)
    ensures Sum(|out|, At(out)) / (dw * dh) as real == Sum(|mask|, At(mask)) / (sw * sh) as real
  {
    var area := OneArea(mask, sw, sh, out, dw, dh);
    MeansAgree(Sum(|out|, At(out)), Sum(|mask|, At(mask)), area, (dw * dh) as real, (sw * sh) as real);
  }

  /** What a pixel of the picture stands for, for the coverage as for the sizes. */
  lemma OneArea(mask: seq<real>, sw: nat, sh: nat, out: seq<real>, dw: nat, dh: nat) returns (area: real)
    requires 0 < dw && 0 < dh && 0 < sw && 0 < sh && |mask| == sw * sh && IsScaled(mask, sw, sh, out, dw, dh)
    ensures 0.0 < (dw * dh) as real && 0.0 < (sw * sh) as real
    ensures area * Sum(|out|, At(out)) == Sum(|mask|, At(mask)) && area * (dw * dh) as real == (sw * sh) as real
  {
    CoverageIsConserved(mask, sw, sh, out, dw, dh);
    AreaIsQuotient(sw, sh, dw, dh);
    area := Area(sw, sh, dw, dh);
  }

  lemma AreaIsQuotient(sw: nat, sh: nat, dw: nat, dh: nat)
    requires 0 < dw && 0 < dh && 0 < sw && 0 < sh
    ensures 0.0 < (dw * dh) as real && 0.0 < (sw * sh) as real
    ensures Area(sw, sh, dw, dh) * (dw * dh) as real == (sw * sh) as real
  {
    var a, b := Scale(sw, dw), Scale(sh, dh);
    assert a * dw as real == sw as real && b * dh as real == sh as real;
    assert a * b * (dw as real * dh as real) == (a * dw as real) * (b * dh as real);
  }

  lemma MeansAgree(out: real, mask: real, area: real, d: real, s: real)
    requires area * out == mask && area * d == s && d > 0.0 && s > 0.0
    ensures out / d == mask / s
  {
    assert mask * d == s * out;
    assert out / d == mask / s by {
      Quotient(out, d, out / d);
      assert mask == s * (out / d) by { assert s * (out / d) * d == s * out; }
    }
  }

  /** No pixel is darker than the darkest or lighter than the lightest of the mask. */
  lemma StaysInRange(mask: seq<real>, sw: nat, sh: nat, dw: nat, dh: nat, dx: nat, dy: nat, low: real, high: real)
    requires dx < dw && dy < dh && 0 < sw && 0 < sh && |mask| == sw * sh
    requires forall k :: 0 <= k < |mask| ==> low <= mask[k] <= high
    ensures low <= Average(mask, sw, sh, dw, dh, dx, dy) <= high
  {
    AverageAtLeast(mask, sw, sh, dw, dh, dx, dy, low);
    AverageAtMost(mask, sw, sh, dw, dh, dx, dy, high);
  }

  lemma AverageAtLeast(mask: seq<real>, sw: nat, sh: nat, dw: nat, dh: nat, dx: nat, dy: nat, low: real)
    requires dx < dw && dy < dh && 0 < sw && 0 < sh && |mask| == sw * sh
    requires forall k :: 0 <= k < |mask| ==> low <= mask[k]
    ensures low <= Average(mask, sw, sh, dw, dh, dx, dy)
  {
    AreaIsPositive(sw, sh, dw, dh);
    NotDarker(mask, sw, sh, dw, dh, dx, dy, low);
    DividedAbove(low, Area(sw, sh, dw, dh), TotalBehind(mask, sw, sh, dw, dh, dx, dy));
  }

  lemma AverageAtMost(mask: seq<real>, sw: nat, sh: nat, dw: nat, dh: nat, dx: nat, dy: nat, high: real)
    requires dx < dw && dy < dh && 0 < sw && 0 < sh && |mask| == sw * sh
    requires forall k :: 0 <= k < |mask| ==> mask[k] <= high
    ensures Average(mask, sw, sh, dw, dh, dx, dy) <= high
  {
    AreaIsPositive(sw, sh, dw, dh);
    NotLighter(mask, sw, sh, dw, dh, dx, dy, high);
    DividedBelow(high, Area(sw, sh, dw, dh), TotalBehind(mask, sw, sh, dw, dh, dx, dy));
  }

  lemma NotDarker(mask: seq<real>, sw: nat, sh: nat, dw: nat, dh: nat, dx: nat, dy: nat, low: real)
    requires dx < dw && dy < dh && |mask| == sw * sh && forall k :: 0 <= k < |mask| ==> low <= mask[k]
    ensures low * Area(sw, sh, dw, dh) <= TotalBehind(mask, sw, sh, dw, dh, dx, dy)
  {
    WeightIsTheScale(sw, dw, dx);
    WeightIsTheScale(sh, dh, dy);
    WeightsArePositive(sw, dw, dx);
    WeightsArePositive(sh, dh, dy);
    BoxAtLeast(At(mask), sw, sh, Weights(Scale(sw, dw))(dx), Weights(Scale(sh, dh))(dy), low,
               Scale(sw, dw), Scale(sh, dh));
  }

  lemma NotLighter(mask: seq<real>, sw: nat, sh: nat, dw: nat, dh: nat, dx: nat, dy: nat, high: real)
    requires dx < dw && dy < dh && |mask| == sw * sh && forall k :: 0 <= k < |mask| ==> mask[k] <= high
    ensures TotalBehind(mask, sw, sh, dw, dh, dx, dy) <= high * Area(sw, sh, dw, dh)
  {
    WeightIsTheScale(sw, dw, dx);
    WeightIsTheScale(sh, dh, dy);
    WeightsArePositive(sw, dw, dx);
    WeightsArePositive(sh, dh, dy);
    BoxAtMost(At(mask), sw, sh, Weights(Scale(sw, dw))(dx), Weights(Scale(sh, dh))(dy), high,
              Scale(sw, dw), Scale(sh, dh));
  }

  // ------------------------------------------------------------------ whole factors

  lemma WholeScale(dn: nat, k: nat)
    requires dn > 0
    ensures Scale(k * dn, dn) == k as real
  {
    assert (k * dn) as real == k as real * dn as real;
  }

  lemma WholeEdge(d: nat, k: nat)
    ensures Edge(d, k as real) == (d * k) as real
  {
  }

  /** A destination pixel takes its own `k` source pixels, each whole, and no others. */
  lemma WholeWeights(dn: nat, k: nat, d: nat)
    requires d < dn
    ensures Picks(k * dn, Weights(k as real)(d), d * k, k)
  {
    WholeEdge(d, k);
    EdgesRise(d, k as real);
    Inside(d, dn, k);
    WeightsBetween(k * dn, Weights(k as real)(d), d * k, k);
  }

  lemma WeightsBetween(n: nat, w: nat -> real, a: nat, k: nat)
    requires a + k <= n && w == Overlaps(a as real, a as real + k as real)
    ensures Picks(n, w, a, k)
  {
  }

  lemma Inside(d: nat, dn: nat, k: nat)
    requires d < dn
    ensures d * k + k <= k * dn
  {
    assert (d + 1) * k <= dn * k;
  }

  /** Scaled down by whole factors, each pixel is the plain mean of its own block of the mask. */
  lemma MeanOfBlock(mask: seq<real>, dw: nat, dh: nat, kx: nat, ky: nat, dx: nat, dy: nat)
    requires dx < dw && dy < dh && kx > 0 && ky > 0
    ensures Average(mask, kx * dw, ky * dh, dw, dh, dx, dy)
         == Block(At(mask), kx * dw, dx * kx, dy * ky, kx, ky) / (kx as real * ky as real)
  {
    WholeScale(dw, kx);
    WholeScale(dh, ky);
    WholeWeights(dw, kx, dx);
    WholeWeights(dh, ky, dy);
    AreaOf(kx * dw, ky * dh, dw, dh, kx as real, ky as real);
    MeanOfPicks(mask, kx * dw, ky * dh, dw, dh, dx, dy, kx, ky, dx * kx, dy * ky, kx as real, ky as real,
                kx as real * ky as real);
  }

  lemma MeanOfPicks(mask: seq<real>, sw: nat, sh: nat, dw: nat, dh: nat, dx: nat, dy: nat, kx: nat, ky: nat,
                    x: nat, y: nat, fx: real, fy: real, area: real)
    requires dw > 0 && dh > 0 && Scale(sw, dw) == fx && Scale(sh, dh) == fy && Area(sw, sh, dw, dh) == area != 0.0
    requires Picks(sw, Weights(fx)(dx), x, kx) && Picks(sh, Weights(fy)(dy), y, ky)
    ensures Average(mask, sw, sh, dw, dh, dx, dy) == Block(At(mask), sw, x, y, kx, ky) / area
  {
    BoxOfPicks(At(mask), sw, sh, Weights(fx)(dx), Weights(fy)(dy), x, y, kx, ky);
    AverageIs(mask, sw, sh, dw, dh, dx, dy, area, Block(At(mask), sw, x, y, kx, ky));
  }

  lemma AreaOf(sw: nat, sh: nat, dw: nat, dh: nat, a: real, b: real)
    requires dw > 0 && dh > 0 && Scale(sw, dw) == a > 0.0 && Scale(sh, dh) == b > 0.0
    ensures Area(sw, sh, dw, dh) == a * b > 0.0
  {
  }

  lemma AverageIs(mask: seq<real>, sw: nat, sh: nat, dw: nat, dh: nat, dx: nat, dy: nat, area: real, total: real)
    requires dw > 0 && dh > 0 && Area(sw, sh, dw, dh) == area != 0.0
    requires TotalBehind(mask, sw, sh, dw, dh, dx, dy) == total
    ensures Average(mask, sw, sh, dw, dh, dx, dy) == total / area
  {
  }

  // ------------------------------------------------------------------ the loops

  /** Two running sums. */
  ghost predicate Sums(total: real, weight: real, total0: real, weight0: real,
                       c: real, w: nat -> real, m: nat -> real, n: nat)
  {
    total == total0 + c * Dot(n, w, m) && weight == weight0 + c * Sum(n, w)
  }

  lemma SumsStep(total: real, weight: real, total0: real, weight0: real, c: real,
                 w: nat -> real, m: nat -> real, n: nat,
                 x: real, pixel: real)
    requires Sums(total, weight, total0, weight0, c, w, m, n)
    requires w(n) == (if x <= 0.0 then 0.0 else x) && m(n) == pixel
    ensures x <= 0.0 ==> Sums(total, weight, total0, weight0, c, w, m, n + 1)
    ensures x > 0.0 ==> Sums(total + pixel * (x * c), weight + x * c, total0, weight0, c, w, m, n + 1)
  {
    assert Product(w, m)(n) == w(n) * m(n);
    AddTerm(c, Dot(n, w, m), x * pixel);
    AddTerm(c, Sum(n, w), x);
    Reordered(x, c, pixel);
  }

  lemma AddTerm(c: real, sum: real, x: real)
    ensures c * (sum + x) == c * sum + c * x
  {
  }

  /** Leaving out what weighs nothing. */
  lemma SumsSkip(total: real, weight: real, total0: real, weight0: real, c: real,
                 w: nat -> real, m: nat -> real, a: nat, b: nat)
    requires a <= b && forall s: nat :: a <= s < b ==> w(s) == 0.0
    ensures Sums(total, weight, total0, weight0, c, w, m, a) <==> Sums(total, weight, total0, weight0, c, w, m, b)
  {
    SumOfNothing(a, b, w);
    SumOfNothing(a, b, Product(w, m));
  }

  /** `min(s + 1, y1) - max(s, y0)`. */
  function Extent(s: nat, y0: real, y1: real): real {
    (if s as real + 1.0 < y1 then s as real + 1.0 else y1) - (if s as real > y0 then s as real else y0)
  }

  lemma ExtentIsOverlap(s: nat, y0: real, y1: real)
    ensures Overlaps(y0, y1)(s) == if Extent(s, y0, y1) <= 0.0 then 0.0 else Extent(s, y0, y1)
  {
  }

  method AddPixel(wx: real, wy: real, pixel: real, totalSoFar: real, weightSoFar: real,
                  ghost total0: real, ghost weight0: real, ghost w: nat -> real, ghost m: nat -> real, ghost n: nat)
    returns (total: real, weight: real)
    requires Sums(totalSoFar, weightSoFar, total0, weight0, wy, w, m, n)
    requires w(n) == (if wx <= 0.0 then 0.0 else wx) && m(n) == pixel
    ensures Sums(total, weight, total0, weight0, wy, w, m, n + 1)
  {
    SumsStep(totalSoFar, weightSoFar, total0, weight0, wy, w, m, n, wx, pixel);
    total, weight := totalSoFar, weightSoFar;
    if wx <= 0.0 { return; }
    var a := wx * wy;
    total := total + pixel * a;
    weight := weight + a;
  }

  /** One row's part in a pixel. */
  method AddRow(mask: seq<real>, sw: nat, sy: nat, x0: real, x1: real, ix0: nat, ix1: nat,
                wy: real, total0: real, weight0: real)
    returns (total: real, weight: real)
    requires sy * sw + sw <= |mask| && Visited(sw, x0, x1, ix0, ix1)
    ensures Sums(total, weight, total0, weight0, wy, Overlaps(x0, x1), Row(At(mask), sw, sy), sw)
  {
    ghost var w, row := Overlaps(x0, x1), Row(At(mask), sw, sy);
    total, weight := total0, weight0;
    var base := sy * sw;
    SumsSkip(total, weight, total0, weight0, wy, w, row, 0, ix0);
    for sx := ix0 to ix1
      invariant Sums(total, weight, total0, weight0, wy, w, row, sx)
    {
      ExtentIsOverlap(sx, x0, x1);
      total, weight := AddPixel(Extent(sx, x0, x1), wy, mask[base + sx], total, weight, total0, weight0, w, row, sx);
    }
    SumsSkip(total, weight, total0, weight0, wy, w, row, ix1, sw);
  }

  lemma Reordered(wx: real, wy: real, pixel: real)
    ensures pixel * (wx * wy) == wy * (wx * pixel) && wx * wy == wy * wx
  {
  }

  /** One pixel: what is behind it, and how much of it there is. */
  method AddBox(mask: seq<real>, sw: nat, sh: nat, x0: real, x1: real, ix0: nat, ix1: nat,
                y0: real, y1: real, iy0: nat, iy1: nat)
    returns (total: real, weight: real)
    requires |mask| == sw * sh && Visited(sw, x0, x1, ix0, ix1) && Visited(sh, y0, y1, iy0, iy1)
    ensures BoxSums(total, weight, Sum(sw, Overlaps(x0, x1)), Overlaps(y0, y1),
        Across(At(mask), sw, Overlaps(x0, x1)), sh)
  {
    ghost var w, wxs := Overlaps(y0, y1), Overlaps(x0, x1);
    ghost var fx, across := Sum(sw, wxs), Across(At(mask), sw, wxs);
    total, weight := 0.0, 0.0;
    BoxSumsSkip(total, weight, fx, w, across, 0, iy0);
    for sy := iy0 to iy1
      invariant BoxSums(total, weight, fx, w, across, sy)
    {
      ExtentIsOverlap(sy, y0, y1);
      var wy := Extent(sy, y0, y1);
      BoxSumsStill(total, weight, fx, w, across, sy, wy);
      if wy <= 0.0 { continue; }
      InsideRow(sw, sh, sy);
      ghost var t, v := total, weight;
      total, weight := AddRow(mask, sw, sy, x0, x1, ix0, ix1, wy, total, weight);
      BoxSumsStep(t, v, total, weight, w, across, sy, wy, wxs, Row(At(mask), sw, sy), sw);
    }
    BoxSumsSkip(total, weight, fx, w, across, iy1, sh);
  }

  ghost predicate BoxSums(total: real, weight: real, fx: real, w: nat -> real, rows: nat -> real, n: nat) {
    total == Dot(n, w, rows) && weight == fx * Sum(n, w)
  }

  lemma BoxSumsStill(total: real, weight: real, fx: real, w: nat -> real, rows: nat -> real, n: nat, y: real)
    requires BoxSums(total, weight, fx, w, rows, n) && w(n) == if y <= 0.0 then 0.0 else y
    ensures y <= 0.0 ==> BoxSums(total, weight, fx, w, rows, n + 1)
  {
    if y <= 0.0 { BoxSumsSkip(total, weight, fx, w, rows, n, n + 1); }
  }

  lemma BoxSumsStep(t: real, v: real, total: real, weight: real, w: nat -> real, rows: nat -> real, n: nat, y: real,
                    wx: nat -> real, row: nat -> real, sw: nat)
    requires BoxSums(t, v, Sum(sw, wx), w, rows, n) && y > 0.0 && w(n) == y && rows(n) == Dot(sw, wx, row)
    requires Sums(total, weight, t, v, y, wx, row, sw)
    ensures BoxSums(total, weight, Sum(sw, wx), w, rows, n + 1)
  {
    assert Product(w, rows)(n) == y * Dot(sw, wx, row);
    AddTerm(Sum(sw, wx), Sum(n, w), y);
  }

  lemma BoxSumsSkip(total: real, weight: real, fx: real, w: nat -> real, rows: nat -> real, a: nat, b: nat)
    requires a <= b && forall s: nat :: a <= s < b ==> w(s) == 0.0
    ensures BoxSums(total, weight, fx, w, rows, a) <==> BoxSums(total, weight, fx, w, rows, b)
  {
    SumOfNothing(a, b, w);
    SumOfNothing(a, b, Product(w, rows));
  }

  lemma InsideRow(w: nat, h: nat, y: nat)
    requires y < h
    ensures y * w + w <= w * h
  {
    assert (y + 1) * w <= h * w;
  }

  ghost predicate PixelDone(mask: seq<real>, sw: nat, sh: nat, out: seq<real>, dw: nat, dh: nat, dx: nat, dy: nat)
    requires 0 < dw && 0 < dh
  {
    Row(At(out), dw, dy)(dx) == Average(mask, sw, sh, dw, dh, dx, dy)
  }

  /** All rows above `dy` and the pixels before `dx` in it. */
  ghost predicate DoneUpTo(mask: seq<real>, sw: nat, sh: nat, out: seq<real>, dw: nat, dh: nat, dx: nat, dy: nat)
    requires 0 < dw && 0 < dh
  {
    forall x: nat, y: nat :: x < dw && (y < dy || (y == dy && x < dx)) ==> PixelDone(mask, sw, sh, out, dw, dh, x, y)
  }

  lemma OneMoreDone(mask: seq<real>, sw: nat, sh: nat, out: seq<real>, dw: nat, dh: nat, dx: nat, dy: nat, pixel: real)
    requires dx < dw && dy < dh && |out| == dw * dh && dy * dw + dx < |out|
    requires DoneUpTo(mask, sw, sh, out, dw, dh, dx, dy) && pixel == Average(mask, sw, sh, dw, dh, dx, dy)
    ensures DoneUpTo(mask, sw, sh, out[dy * dw + dx := pixel], dw, dh, dx + 1, dy)
  {
    var after := out[dy * dw + dx := pixel];
    forall x: nat, y: nat | x < dw && (y < dy || (y == dy && x < dx + 1))
      ensures PixelDone(mask, sw, sh, after, dw, dh, x, y)
    {
      InsidePicture(dw, dh, x, y);
      if y < dy || x < dx {
        assert PixelDone(mask, sw, sh, out, dw, dh, x, y);
        Apart(dw, x, y, dx, dy);
      }
    }
  }

  lemma Apart(w: nat, x: nat, y: nat, dx: nat, dy: nat)
    requires x < w && dx < w && (y < dy || (y == dy && x < dx))
    ensures y * w + x < dy * w + dx
  {
    if y < dy { assert (y + 1) * w <= dy * w; }
  }

  method BoxDownscale(mask: seq<real>, sw: nat, sh: nat, dw: nat, dh: nat) returns (out: array<real>)
    requires |mask| == sw * sh && 0 < dw <= LARGEST && 0 < dh <= LARGEST
    ensures fresh(out) && IsScaled(mask, sw, sh, out[..], dw, dh)
  {
    out := new real[dw * dh](_ => 0.0);
    for dy := 0 to dh
      invariant DoneUpTo(mask, sw, sh, out[..], dw, dh, 0, dy)
    {
      ScaleRow(mask, sw, sh, dw, dh, dy, out);
    }
    AllDone(mask, sw, sh, out[..], dw, dh);
  }

  lemma AllDone(mask: seq<real>, sw: nat, sh: nat, out: seq<real>, dw: nat, dh: nat)
    requires 0 < dw && 0 < dh && |out| == dw * dh && DoneUpTo(mask, sw, sh, out, dw, dh, 0, dh)
    ensures IsScaled(mask, sw, sh, out, dw, dh)
  {
    forall dx: nat, dy: nat | dx < dw && dy < dh
      ensures Row(At(out), dw, dy)(dx) == Average(mask, sw, sh, dw, dh, dx, dy)
    {
      assert PixelDone(mask, sw, sh, out, dw, dh, dx, dy);
    }
  }

  method ScaleRow(mask: seq<real>, sw: nat, sh: nat, dw: nat, dh: nat, dy: nat, out: array<real>)
    requires |mask| == sw * sh && 0 < dw <= LARGEST && dy < dh <= LARGEST && out.Length == dw * dh
    requires DoneUpTo(mask, sw, sh, out[..], dw, dh, 0, dy)
    modifies out
    ensures DoneUpTo(mask, sw, sh, out[..], dw, dh, 0, dy + 1)
  {
    for dx := 0 to dw
      invariant DoneUpTo(mask, sw, sh, out[..], dw, dh, dx, dy)
    {
      ScalePixel(mask, sw, sh, dw, dh, dx, dy, out);
    }
    RowDone(mask, sw, sh, out[..], dw, dh, dy);
  }

  method ScalePixel(mask: seq<real>, sw: nat, sh: nat, dw: nat, dh: nat, dx: nat, dy: nat, out: array<real>)
    requires |mask| == sw * sh && dx < dw <= LARGEST && dy < dh <= LARGEST && out.Length == dw * dh
    requires DoneUpTo(mask, sw, sh, out[..], dw, dh, dx, dy)
    modifies out
    ensures DoneUpTo(mask, sw, sh, out[..], dw, dh, dx + 1, dy)
  {
    var pixel := AveragePixel(mask, sw, sh, dw, dh, dx, dy);
    InsidePicture(dw, dh, dx, dy);
    OneMoreDone(mask, sw, sh, out[..], dw, dh, dx, dy, pixel);
    Set(out, dy * dw + dx, pixel);
  }

  method Set(out: array<real>, at: nat, pixel: real)
    requires at < out.Length
    modifies out
    ensures out[..] == old(out[..])[at := pixel]
  {
    out[at] := pixel;
  }

  lemma RowDone(mask: seq<real>, sw: nat, sh: nat, out: seq<real>, dw: nat, dh: nat, dy: nat)
    requires 0 < dw && 0 < dh && DoneUpTo(mask, sw, sh, out, dw, dh, dw, dy)
    ensures DoneUpTo(mask, sw, sh, out, dw, dh, 0, dy + 1)
  {
  }

  method AveragePixel(mask: seq<real>, sw: nat, sh: nat, dw: nat, dh: nat, dx: nat, dy: nat) returns (pixel: real)
    requires |mask| == sw * sh && dx < dw <= LARGEST && dy < dh <= LARGEST
    ensures pixel == Average(mask, sw, sh, dw, dh, dx, dy)
  {
    var fx, fy := Scale(sw, dw), Scale(sh, dh);
    VisitedAreAll(sw, dw, dx);
    VisitedAreAll(sh, dh, dy);
    var total, weight := AddBox(mask, sw, sh, Edge(dx, fx), Edge(dx + 1, fx), First(dx, fx), Last(dx, fx, sw),
                                Edge(dy, fy), Edge(dy + 1, fy), First(dy, fy), Last(dy, fy, sh));
    TotalAndArea(mask, sw, sh, dw, dh, dx, dy, total, weight);
    pixel := if weight != 0.0 then total / weight else 0.0;
  }

  lemma TotalAndArea(mask: seq<real>, sw: nat, sh: nat, dw: nat, dh: nat, dx: nat, dy: nat, total: real, weight: real)
    requires dx < dw && dy < dh
    requires var wx, wy := Weights(Scale(sw, dw))(dx), Weights(Scale(sh, dh))(dy);
      BoxSums(total, weight, Sum(sw, wx), wy, Across(At(mask), sw, wx), sh)
    ensures total == TotalBehind(mask, sw, sh, dw, dh, dx, dy) && weight == Area(sw, sh, dw, dh)
  {
    WeightIsTheScale(sw, dw, dx);
    WeightIsTheScale(sh, dh, dy);
  }
}
