/** Weighed sums of a picture's pixels, and what is conserved when every pixel is given out whole. */
module Coverage {
  // ------------------------------------------------------------------ sums

  function Sum(n: nat, f: nat -> real): real { if n == 0 then 0.0 else Sum(n - 1, f) + f(n - 1) }

  lemma {:induction false} SumSame(n: nat, f: nat -> real, g: nat -> real)
    requires forall k: nat :: k < n ==> f(k) == g(k)
    ensures Sum(n, f) == Sum(n, g)
  {
    if n > 0 { SumSame(n - 1, f, g); }
  }

  lemma {:induction false} SumPlus(n: nat, f: nat -> real, g: nat -> real, h: nat -> real)
    requires forall k: nat :: k < n ==> h(k) == f(k) + g(k)
    ensures Sum(n, h) == Sum(n, f) + Sum(n, g)
  {
    if n > 0 { SumPlus(n - 1, f, g, h); }
  }

  lemma {:induction false} SumTimes(n: nat, c: real, f: nat -> real, h: nat -> real)
    requires forall k: nat :: k < n ==> h(k) == c * f(k)
    ensures Sum(n, h) == c * Sum(n, f)
  {
    if n > 0 { SumTimes(n - 1, c, f, h); }
  }

  function From(f: nat -> real, a: nat): nat -> real { (k: nat) => f(a + k) }

  lemma {:induction false} SumSplit(a: nat, b: nat, f: nat -> real)
    ensures Sum(a + b, f) == Sum(a, f) + Sum(b, From(f, a))
    decreases b
  {
    if b > 0 { SumSplit(a, b - 1, f); }
  }

  lemma {:induction false} SumOfNothing(a: nat, b: nat, f: nat -> real)
    requires a <= b && forall k: nat :: a <= k < b ==> f(k) == 0.0
    ensures Sum(b, f) == Sum(a, f)
    decreases b
  {
    if a < b { SumOfNothing(a, b - 1, f); }
  }

  // ------------------------------------------------------------------ sharing out

  /** For each destination, how much of each source it takes. */
  type Weighing = nat -> nat -> real

  function Share(w: Weighing, s: nat): nat -> real { (d: nat) => w(d)(s) }

  /** Every source is given out whole. */
  ghost predicate Whole(w: Weighing, n: nat, dn: nat) {
    forall s: nat :: s < n ==> Sum(dn, Share(w, s)) == 1.0
  }

  ghost predicate Positive(n: nat, w: nat -> real) { forall s: nat :: s < n ==> w(s) >= 0.0 }

  ghost predicate AllAtLeast(n: nat, m: nat -> real, low: real) { forall s: nat :: s < n ==> low <= m(s) }

  ghost predicate AllAtMost(n: nat, m: nat -> real, high: real) { forall s: nat :: s < n ==> m(s) <= high }

  function Product(w: nat -> real, m: nat -> real): nat -> real { (s: nat) => w(s) * m(s) }

  /** The sum of `m`, weighed. */
  function Dot(n: nat, w: nat -> real, m: nat -> real): real { Sum(n, Product(w, m)) }

  function Dots(w: Weighing, n: nat, m: nat -> real): nat -> real { (d: nat) => Dot(n, w(d), m) }

  function Scaled(c: real, f: nat -> real): nat -> real { (k: nat) => c * f(k) }

  lemma SumScaled(n: nat, c: real, f: nat -> real)
    ensures Sum(n, Scaled(c, f)) == c * Sum(n, f)
  {
    SumTimes(n, c, f, Scaled(c, f));
  }

  lemma ScaledComesTo(n: nat, c: real, f: nat -> real, total: real)
    requires Sum(n, Scaled(c, f)) == total
    ensures c * Sum(n, f) == total
  {
    SumScaled(n, c, f);
  }

  lemma OneSourceMore(w: Weighing, k: nat, dn: nat, m: nat -> real)
    ensures Sum(dn, Dots(w, k + 1, m)) == Sum(dn, Dots(w, k, m)) + m(k) * Sum(dn, Share(w, k))
  {
    var given := Scaled(m(k), Share(w, k));
    forall d: nat | d < dn
      ensures Dots(w, k + 1, m)(d) == Dots(w, k, m)(d) + given(d)
    {
      assert Product(w(d), m)(k) == w(d)(k) * m(k);
    }
    SumPlus(dn, Dots(w, k, m), given, Dots(w, k + 1, m));
    SumScaled(dn, m(k), Share(w, k));
  }

  lemma {:induction false} NoSources(w: Weighing, dn: nat, m: nat -> real)
    ensures Sum(dn, Dots(w, 0, m)) == 0.0
  {
    if dn > 0 {
      NoSources(w, dn - 1, m);
      assert Dot(0, w(dn - 1), m) == 0.0;
    }
  }

  /** What the destinations take is, all together, what there was. */
  lemma {:induction false} DotsAddUp(w: Weighing, n: nat, dn: nat, m: nat -> real, k: nat)
    requires Whole(w, n, dn) && k <= n
    ensures Sum(dn, Dots(w, k, m)) == Sum(k, m)
    decreases k
  {
    if k == 0 {
      NoSources(w, dn, m);
    } else {
      DotsAddUp(w, n, dn, m, k - 1);
      OneSourceMore(w, k - 1, dn, m);
    }
  }

  lemma {:induction false} DotAtLeast(n: nat, w: nat -> real, m: nat -> real, low: real)
    requires Positive(n, w) && AllAtLeast(n, m, low)
    ensures low * Sum(n, w) <= Dot(n, w, m)
    decreases n
  {
    if n > 0 {
      DotAtLeast(n - 1, w, m, low);
      Ordered(low, m(n - 1), w(n - 1));
    }
  }

  lemma {:induction false} DotAtMost(n: nat, w: nat -> real, m: nat -> real, high: real)
    requires Positive(n, w) && AllAtMost(n, m, high)
    ensures Dot(n, w, m) <= high * Sum(n, w)
    decreases n
  {
    if n > 0 {
      DotAtMost(n - 1, w, m, high);
      Ordered(m(n - 1), high, w(n - 1));
    }
  }

  lemma Ordered(a: real, b: real, f: real)
    requires a <= b && f >= 0.0
    ensures a * f <= b * f
  {
  }

  /** Weights that are one on `k` places from `a` on and nothing elsewhere. */
  ghost predicate Picks(n: nat, w: nat -> real, a: nat, k: nat) {
    a + k <= n && forall s: nat :: s < n ==> w(s) == if a <= s < a + k then 1.0 else 0.0
  }

  /** They give the sum of what they pick. */
  lemma DotOfPicks(n: nat, w: nat -> real, a: nat, k: nat, m: nat -> real)
    requires Picks(n, w, a, k)
    ensures Dot(n, w, m) == Sum(k, From(m, a))
  {
    var p := Product(w, m);
    forall s: nat | s < n
      ensures p(s) == if a <= s < a + k then m(s) else 0.0
    {
    }
    SumOfNothing(a + k, n, p);
    SumSplit(a, k, p);
    SumOfNothing(0, a, p);
    SumSame(k, From(p, a), From(m, a));
  }

  // ------------------------------------------------------------------ pictures

  /** A picture, row by row. */
  function At(pixels: seq<real>): nat -> real { (k: nat) => if k < |pixels| then pixels[k] else 0.0 }

  function Row(m: nat -> real, w: nat, y: nat): nat -> real { From(m, y * w) }

  function RowTotals(m: nat -> real, w: nat): nat -> real { (y: nat) => Sum(w, Row(m, w, y)) }

  lemma {:induction false} RowsAddUp(m: nat -> real, w: nat, h: nat)
    ensures Sum(h, RowTotals(m, w)) == Sum(h * w, m)
  {
    if h > 0 {
      RowsAddUp(m, w, h - 1);
      assert h * w == (h - 1) * w + w;
      SumSplit((h - 1) * w, w, m);
    }
  }

  /** Each row weighed for one column of destination pixels. */
  function Across(m: nat -> real, sw: nat, wx: nat -> real): nat -> real { (sy: nat) => Dot(sw, wx, Row(m, sw, sy)) }

  /** The first `rows` rows weighed for one destination pixel. */
  function Box(m: nat -> real, sw: nat, rows: nat, wx: nat -> real, wy: nat -> real): real {
    Dot(rows, wy, Across(m, sw, wx))
  }

  function Boxes(m: nat -> real, sw: nat, rows: nat, wx: Weighing, wy: nat -> real): nat -> real {
    (dx: nat) => Box(m, sw, rows, wx(dx), wy)
  }

  lemma OneRowMore(m: nat -> real, sw: nat, dw: nat, k: nat, wx: Weighing, wy: nat -> real)
    requires Whole(wx, sw, dw)
    ensures Sum(dw, Boxes(m, sw, k + 1, wx, wy))
         == Sum(dw, Boxes(m, sw, k, wx, wy)) + Product(wy, RowTotals(m, sw))(k)
  {
    var given := Scaled(wy(k), Dots(wx, sw, Row(m, sw, k)));
    forall dx: nat | dx < dw
      ensures Boxes(m, sw, k + 1, wx, wy)(dx) == Boxes(m, sw, k, wx, wy)(dx) + given(dx)
    {
      assert Product(wy, Across(m, sw, wx(dx)))(k) == given(dx);
    }
    SumPlus(dw, Boxes(m, sw, k, wx, wy), given, Boxes(m, sw, k + 1, wx, wy));
    RowGiven(Row(m, sw, k), sw, dw, wx, wy(k));
    assert Product(wy, RowTotals(m, sw))(k) == wy(k) * Sum(sw, Row(m, sw, k));
  }

  /** What a row gives, `c` times over, is `c` times the row. */
  lemma RowGiven(row: nat -> real, sw: nat, dw: nat, wx: Weighing, c: real)
    requires Whole(wx, sw, dw)
    ensures Sum(dw, Scaled(c, Dots(wx, sw, row))) == c * Sum(sw, row)
  {
    SumScaled(dw, c, Dots(wx, sw, row));
    DotsAddUp(wx, sw, dw, row, sw);
  }

  lemma {:induction false} NoRows(m: nat -> real, sw: nat, dw: nat, wx: Weighing, wy: nat -> real)
    ensures Sum(dw, Boxes(m, sw, 0, wx, wy)) == 0.0
  {
    if dw > 0 {
      NoRows(m, sw, dw - 1, wx, wy);
      assert Box(m, sw, 0, wx(dw - 1), wy) == 0.0;
    }
  }

  /** A row of destination pixels takes the row totals. */
  lemma {:induction false} RowOfBoxes(m: nat -> real, sw: nat, dw: nat, k: nat, wx: Weighing, wy: nat -> real)
    requires Whole(wx, sw, dw)
    ensures Sum(dw, Boxes(m, sw, k, wx, wy)) == Dot(k, wy, RowTotals(m, sw))
    decreases k
  {
    if k == 0 {
      NoRows(m, sw, dw, wx, wy);
    } else {
      RowOfBoxes(m, sw, dw, k - 1, wx, wy);
      OneRowMore(m, sw, dw, k - 1, wx, wy);
    }
  }

  function BoxRows(m: nat -> real, sw: nat, sh: nat, dw: nat, wx: Weighing, wy: Weighing): nat -> real {
    (dy: nat) => Sum(dw, Boxes(m, sw, sh, wx, wy(dy)))
  }

  /** The sum of `k` pixels from `a` on, for every row. */
  function Stretches(m: nat -> real, sw: nat, a: nat, k: nat): nat -> real {
    (sy: nat) => Sum(k, From(Row(m, sw, sy), a))
  }

  /** All of a block of pixels, `kx` wide and `ky` high, its upper left corner at `x`, `y`. */
  function Block(m: nat -> real, sw: nat, x: nat, y: nat, kx: nat, ky: nat): real {
    Sum(ky, From(Stretches(m, sw, x, kx), y))
  }

  /** A box that picks whole pixels is the block of them. */
  lemma BoxOfPicks(m: nat -> real, sw: nat, sh: nat, wx: nat -> real, wy: nat -> real,
                   x: nat, y: nat, kx: nat, ky: nat)
    requires Picks(sw, wx, x, kx) && Picks(sh, wy, y, ky)
    ensures Box(m, sw, sh, wx, wy) == Block(m, sw, x, y, kx, ky)
  {
    DotOfPicks(sh, wy, y, ky, Across(m, sw, wx));
    forall k: nat | k < ky
      ensures From(Across(m, sw, wx), y)(k) == From(Stretches(m, sw, x, kx), y)(k)
    {
      DotOfPicks(sw, wx, x, kx, Row(m, sw, y + k));
    }
    SumSame(ky, From(Across(m, sw, wx), y), From(Stretches(m, sw, x, kx), y));
  }

  /** All the boxes together take all there was. */
  lemma BoxesAddUp(m: nat -> real, sw: nat, sh: nat, dw: nat, dh: nat, wx: Weighing, wy: Weighing)
    requires Whole(wx, sw, dw) && Whole(wy, sh, dh)
    ensures Sum(dh, BoxRows(m, sw, sh, dw, wx, wy)) == Sum(sh * sw, m)
  {
    forall dy: nat | dy < dh
      ensures BoxRows(m, sw, sh, dw, wx, wy)(dy) == Dots(wy, sh, RowTotals(m, sw))(dy)
    {
      RowOfBoxes(m, sw, dw, sh, wx, wy(dy));
    }
    SumSame(dh, BoxRows(m, sw, sh, dw, wx, wy), Dots(wy, sh, RowTotals(m, sw)));
    DotsAddUp(wy, sh, dh, RowTotals(m, sw), sh);
    RowsAddUp(m, sw, sh);
  }

  lemma Multiplied(x: real, across: real, down: real, a: real, b: real) returns (row: real, box: real)
    requires across == a && down == b
    ensures row == x * across && box == row * down && box == x * (a * b)
  {
    row := x * across;
    box := row * down;
  }

  /** A box whose weights come to `a` across and `b` down is no less than that many of the least. */
  lemma BoxAtLeast(m: nat -> real, sw: nat, sh: nat, wx: nat -> real, wy: nat -> real, low: real, a: real, b: real)
    requires Positive(sw, wx) && Positive(sh, wy) && AllAtLeast(sw * sh, m, low) && Sum(sw, wx) == a && Sum(sh, wy) == b
    ensures low * (a * b) <= Box(m, sw, sh, wx, wy)
  {
    var box := BoxAtLeastOf(m, sw, sh, wx, wy, low, a, b);
  }

  lemma BoxAtLeastOf(m: nat -> real, sw: nat, sh: nat, wx: nat -> real, wy: nat -> real, low: real, a: real, b: real)
    returns (box: real)
    requires Positive(sw, wx) && Positive(sh, wy) && AllAtLeast(sw * sh, m, low) && Sum(sw, wx) == a && Sum(sh, wy) == b
    ensures box == low * (a * b) && box <= Box(m, sw, sh, wx, wy)
  {
    var row;
    row, box := Multiplied(low, Sum(sw, wx), Sum(sh, wy), a, b);
    BoxAtLeastBy(m, sw, sh, wx, wy, low, row, box);
  }

  lemma BoxAtLeastBy(m: nat -> real, sw: nat, sh: nat, wx: nat -> real, wy: nat -> real, low: real, row: real,
                     box: real)
    requires Positive(sw, wx) && Positive(sh, wy) && AllAtLeast(sw * sh, m, low)
    requires row == low * Sum(sw, wx) && box == row * Sum(sh, wy)
    ensures box <= Box(m, sw, sh, wx, wy)
  {
    RowsAtLeast(m, sw, sh, wx, low, row);
    DotAtLeast(sh, wy, Across(m, sw, wx), row);
  }

  lemma RowsAtLeast(m: nat -> real, sw: nat, sh: nat, wx: nat -> real, low: real, rowLow: real)
    requires Positive(sw, wx) && AllAtLeast(sw * sh, m, low) && rowLow == low * Sum(sw, wx)
    ensures AllAtLeast(sh, Across(m, sw, wx), rowLow)
  {
    forall sy: nat | sy < sh
      ensures rowLow <= Across(m, sw, wx)(sy)
    {
      RowAtLeast(m, sw, sh, wx, sy, low);
    }
  }

  lemma RowAtLeast(m: nat -> real, sw: nat, sh: nat, wx: nat -> real, sy: nat, low: real)
    requires Positive(sw, wx) && sy < sh && AllAtLeast(sw * sh, m, low)
    ensures low * Sum(sw, wx) <= Dot(sw, wx, Row(m, sw, sy))
  {
    forall sx: nat | sx < sw
      ensures low <= Row(m, sw, sy)(sx)
    {
      InsidePicture(sw, sh, sx, sy);
    }
    DotAtLeast(sw, wx, Row(m, sw, sy), low);
  }

  lemma BoxAtMost(m: nat -> real, sw: nat, sh: nat, wx: nat -> real, wy: nat -> real, high: real, a: real, b: real)
    requires Positive(sw, wx) && Positive(sh, wy) && AllAtMost(sw * sh, m, high) && Sum(sw, wx) == a && Sum(sh, wy) == b
    ensures Box(m, sw, sh, wx, wy) <= high * (a * b)
  {
    var box := BoxAtMostOf(m, sw, sh, wx, wy, high, a, b);
  }

  lemma BoxAtMostOf(m: nat -> real, sw: nat, sh: nat, wx: nat -> real, wy: nat -> real, high: real, a: real, b: real)
    returns (box: real)
    requires Positive(sw, wx) && Positive(sh, wy) && AllAtMost(sw * sh, m, high) && Sum(sw, wx) == a && Sum(sh, wy) == b
    ensures box == high * (a * b) && Box(m, sw, sh, wx, wy) <= box
  {
    var row;
    row, box := Multiplied(high, Sum(sw, wx), Sum(sh, wy), a, b);
    BoxAtMostBy(m, sw, sh, wx, wy, high, row, box);
  }

  lemma BoxAtMostBy(m: nat -> real, sw: nat, sh: nat, wx: nat -> real, wy: nat -> real, high: real, row: real,
                    box: real)
    requires Positive(sw, wx) && Positive(sh, wy) && AllAtMost(sw * sh, m, high)
    requires row == high * Sum(sw, wx) && box == row * Sum(sh, wy)
    ensures Box(m, sw, sh, wx, wy) <= box
  {
    RowsAtMost(m, sw, sh, wx, high, row);
    DotAtMost(sh, wy, Across(m, sw, wx), row);
  }

  lemma RowsAtMost(m: nat -> real, sw: nat, sh: nat, wx: nat -> real, high: real, rowHigh: real)
    requires Positive(sw, wx) && AllAtMost(sw * sh, m, high) && rowHigh == high * Sum(sw, wx)
    ensures AllAtMost(sh, Across(m, sw, wx), rowHigh)
  {
    forall sy: nat | sy < sh
      ensures Across(m, sw, wx)(sy) <= rowHigh
    {
      RowAtMost(m, sw, sh, wx, sy, high);
    }
  }

  lemma RowAtMost(m: nat -> real, sw: nat, sh: nat, wx: nat -> real, sy: nat, high: real)
    requires Positive(sw, wx) && sy < sh && AllAtMost(sw * sh, m, high)
    ensures Dot(sw, wx, Row(m, sw, sy)) <= high * Sum(sw, wx)
  {
    forall sx: nat | sx < sw
      ensures Row(m, sw, sy)(sx) <= high
    {
      InsidePicture(sw, sh, sx, sy);
    }
    DotAtMost(sw, wx, Row(m, sw, sy), high);
  }

  lemma InsidePicture(w: nat, h: nat, x: nat, y: nat)
    requires x < w && y < h
    ensures y * w + x < w * h
  {
    assert (y + 1) * w <= h * w;
  }

  lemma DividedAbove(low: real, area: real, box: real)
    requires area > 0.0 && low * area <= box
    ensures low <= box / area
  {
  }

  lemma DividedBelow(high: real, area: real, box: real)
    requires area > 0.0 && box <= high * area
    ensures box / area <= high
  {
  }
}
