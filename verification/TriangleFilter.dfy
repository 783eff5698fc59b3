/** What the bilinear resampler computes: the separable triangle filter, up to rounding. */
module TriangleFilter {
  import opened Resample

  // ---------------------------------------------------------------------------
  // The filter
  // ---------------------------------------------------------------------------

  /** Where output position `o` lies in the source, in pixels. */
  function SourceCenter(input: nat, output: nat, o: nat): real
    requires output > 0
  {
    (o as real + 0.5) * (input as real / output as real)
  }

  /** Half the width of the triangle: one source pixel, or one output pixel if that is wider. */
  function HalfWidth(input: nat, output: nat): (s: real)
    requires output > 0
    ensures s >= 1.0
  {
    var scale := input as real / output as real;
    if scale > 1.0 then scale else 1.0
  }

  /** The triangle of half width `s` around `c`, at the middle of pixel `p`. */
  function Triangle(c: real, s: real, p: nat): (w: real)
    requires s > 0.0
    ensures w >= 0.0
  {
    var d := p as real + 0.5 - c;
    if -s < d < s then
      var w := if d < 0.0 then (s + d) / s else (s - d) / s;
      assert w >= 0.0 by { NonNegativeQuotient(if d < 0.0 then s + d else s - d, s); }
      w
    else 0.0
  }

  lemma NonNegativeQuotient(a: real, s: real)
    requires a >= 0.0 && s > 0.0
    ensures a / s >= 0.0
  {
  }

  function Scaled(w: real, x: real): real { w * x }

  /** The weighted sum of the first `n` pixels. */
  function KernelSum(c: real, s: real, n: nat, f: nat -> real): real
    requires s > 0.0
  {
    if n == 0 then 0.0 else KernelSum(c, s, n - 1, f) + Scaled(Triangle(c, s, n - 1), f(n - 1))
  }

  function One(): nat -> real { p => 1.0 }

  /** The weighted mean of all `n` pixels of a line. */
  function TriangleMean(c: real, s: real, n: nat, f: nat -> real): real
    requires s > 0.0 && KernelSum(c, s, n, One()) != 0.0
  {
    KernelSum(c, s, n, f) / KernelSum(c, s, n, One())
  }

  // ---------------------------------------------------------------------------
  // The weights of the resampler are the triangle
  // ---------------------------------------------------------------------------

  lemma WeightIsTriangle(input: nat, output: nat, o: nat, p: nat)
    requires output > 0
    ensures Weight(input, output, o, p) == Triangle(SourceCenter(input, output, o), HalfWidth(input, output), p)
  {
    var c, s := SourceCenter(input, output, o), HalfWidth(input, output);
    assert Center(input, output, o) == c && Support(input, output) == s;
    hide Center, Support, SourceCenter, HalfWidth;
    var d := p as real + 0.5 - c;
    QuotientSigns(d, s);
  }

  lemma QuotientSigns(d: real, s: real)
    requires s > 0.0
    ensures d / s < 0.0 <==> d < 0.0
    ensures d / s < 1.0 <==> d < s
    ensures -(d / s) < 1.0 <==> -s < d
    ensures 1.0 - d / s == (s - d) / s && 1.0 + d / s == (s + d) / s
  {
    var q := d / s;
    assert q * s == d;
    if q < 1.0 {
      TimesLess(q, 1.0, s);
    } else {
      TimesAtMost(1.0, q, s);
    }
    if -q < 1.0 {
      TimesLess(-q, 1.0, s);
    } else {
      TimesAtMost(1.0, -q, s);
    }
    var less, more := (s - d) / s, (s + d) / s;
    assert less * s == s - d && more * s == s + d;
    Cancel(less, 1.0 - q, s);
    Cancel(more, 1.0 + q, s);
  }

  lemma TimesLess(a: real, b: real, s: real)
    requires a < b && s > 0.0
    ensures a * s < b * s
  {
  }

  lemma TimesAtMost(a: real, b: real, s: real)
    requires a <= b && s >= 0.0
    ensures a * s <= b * s
  {
  }

  lemma Cancel(a: real, b: real, s: real)
    requires a * s == b * s && s > 0.0
    ensures a == b
  {
    if a < b {
      TimesLess(a, b, s);
    } else if b < a {
      TimesLess(b, a, s);
    }
  }

  lemma TimesSum(a: real, b: real, s: real)
    ensures (a + b) * s == a * s + b * s
  {
  }

  /** No pixel outside the window has a weight. */
  lemma OutsideIsZero(input: nat, output: nat, o: nat, p: nat)
    requires input > 0 && o < output && p < input
    requires p < First(input, output, o) || p >= Last(input, output, o)
    ensures Triangle(SourceCenter(input, output, o), HalfWidth(input, output), p) == 0.0
  {
    var c, s := SourceCenter(input, output, o), HalfWidth(input, output);
    assert Center(input, output, o) == c && Support(input, output) == s;
    hide Center, Support, SourceCenter, HalfWidth;
    if p < First(input, output, o) {
      assert p as real + 1.0 <= c - s + 0.5;
    } else {
      assert c + s + 0.5 < p as real + 1.0;
    }
  }

  /** Windows move to the right with the output position. */
  lemma WindowsMoveOn(input: nat, output: nat, o: nat, o': nat)
    requires input > 0 && o <= o' < output
    ensures First(input, output, o) <= First(input, output, o')
    ensures Last(input, output, o) <= Last(input, output, o')
  {
    CenterInside(input, output, o);
    ScaleMonotone(o as real + 0.5, o' as real + 0.5, Scale(input, output));
    assert Center(input, output, o) <= Center(input, output, o');
    hide Center, Support;
  }

  /** The weighted sum of the window. */
  function WindowSum(ws: seq<real>, first: nat, f: nat -> real): real {
    if ws == [] then 0.0
    else
      var n := |ws| - 1;
      WindowSum(ws[..n], first, f) + Scaled(ws[n], f(first + n))
  }

  lemma {:induction false} KernelSumZero(c: real, s: real, a: nat, b: nat, f: nat -> real)
    requires s > 0.0 && a <= b && forall p: nat :: a <= p < b ==> Triangle(c, s, p) == 0.0
    ensures KernelSum(c, s, b, f) == KernelSum(c, s, a, f)
    decreases b
  {
    hide Triangle;
    if a < b {
      KernelSumZero(c, s, a, b - 1, f);
    }
  }

  lemma {:induction false} KernelSumWindow(c: real, s: real, first: nat, ws: seq<real>, f: nat -> real)
    requires s > 0.0 && KernelSum(c, s, first, f) == 0.0
    requires forall i :: 0 <= i < |ws| ==> ws[i] == Triangle(c, s, first + i)
    ensures KernelSum(c, s, first + |ws|, f) == WindowSum(ws, first, f)
  {
    hide Triangle;
    if ws != [] {
      KernelSumWindow(c, s, first, ws[..|ws| - 1], f);
    }
  }

  /** The window sees all of the filter. */
  lemma WindowIsKernel(input: nat, output: nat, o: nat, f: nat -> real)
    requires input > 0 && o < output
    ensures KernelSum(SourceCenter(input, output, o), HalfWidth(input, output), input, f)
            == WindowSum(Weights(input, output, o), First(input, output, o), f)
  {
    var c, s := SourceCenter(input, output, o), HalfWidth(input, output);
    var first, last, ws := First(input, output, o), Last(input, output, o), Weights(input, output, o);
    WindowInside(input, output, o);
    forall p: nat | p < input && (p < first || p >= last) ensures Triangle(c, s, p) == 0.0 {
      OutsideIsZero(input, output, o, p);
    }
    forall i | 0 <= i < |ws| ensures ws[i] == Triangle(c, s, first + i) {
      WeightIsTriangle(input, output, o, first + i);
    }
    assert |ws| == last - first;
    hide Triangle, SourceCenter, HalfWidth, First, Last, Weights;
    KernelSumZero(c, s, 0, first, f);
    KernelSumWindow(c, s, first, ws, f);
    KernelSumZero(c, s, last, input, f);
  }

  lemma {:induction false} SumIsWindowSum(ws: seq<real>, first: nat)
    ensures Sum(ws) == WindowSum(ws, first, One())
  {
    if ws != [] {
      SumIsWindowSum(ws[..|ws| - 1], first);
    }
  }

  // ---------------------------------------------------------------------------
  // One pass
  // ---------------------------------------------------------------------------

  predicate Near(a: real, b: real, r: real) {
    a - r <= b <= a + r
  }

  lemma NearSum(a: real, b: real, r: real, a': real, b': real, r': real)
    requires Near(a, b, r) && Near(a', b', r')
    ensures Near(a + a', b + b', r + r')
  {
  }

  /** The pixels of a window, as numbers. */
  ghost predicate AreValues(pixels: seq<int>, first: nat, f: nat -> real) {
    forall i :: 0 <= i < |pixels| ==> pixels[i] as real == f(first + i)
  }

  lemma RoundedTimes(w: real, sum: real, p: int)
    requires sum > 0.0 && 0 <= p <= MAX_VALUE
    ensures Near(Share(Scaled(w, p as real), sum), (p * Rounded(w, sum)) as real, 127.5)
  {
    var share, rounded := Share(w, sum), Rounded(w, sum) as real;
    assert share - 0.5 <= rounded <= share + 0.5;
    ProductAsReal(p, Rounded(w, sum));
    ShareTimes(w, sum, p as real);
    hide Share, Rounded;
    Spread(p as real, share, rounded - share);
    assert share + (rounded - share) == rounded;
  }

  lemma {:induction false} ProductAsReal(p: nat, r: int)
    ensures (p * r) as real == p as real * r as real
  {
    if p > 0 {
      ProductAsReal(p - 1, r);
      assert p * r == (p - 1) * r + r;
      TimesSum((p - 1) as real, 1.0, r as real);
    }
  }

  lemma ShareTimes(w: real, sum: real, q: real)
    requires sum > 0.0
    ensures Share(Scaled(w, q), sum) == q * Share(w, sum)
  {
    var x, y := w / sum, w * q / sum;
    assert x * sum == w && y * sum == w * q;
    assert (q * x) * sum == q * (x * sum);
    Cancel(y, q * x, sum);
  }

  lemma Spread(q: real, a: real, e: real)
    requires 0.0 <= q <= 255.0 && -0.5 <= e <= 0.5
    ensures Near(q * a, q * (a + e), 127.5)
  {
    var minus := -e;
    TimesSum(a, e, q);
    TimesSum(e, minus, q);
    TimesAtMost(minus, 0.5, q);
    TimesAtMost(e, 0.5, q);
    assert (e + minus) * q == 0.0;
  }

  /** Rounding the weights moves the weighted sum by at most half the greatest value per weight. */
  lemma {:induction false} DotNearShare(ws: seq<real>, sum: real, pixels: seq<int>, first: nat, f: nat -> real)
    requires sum > 0.0 && |ws| == |pixels| && Between(pixels, 0, MAX_VALUE) && AreValues(pixels, first, f)
    ensures Near(Share(WindowSum(ws, first, f), sum), Dot(RoundedAll(ws, sum), pixels) as real, 127.5 * |ws| as real)
  {
    if ws == [] {
      ShareSum(0.0, 0.0, sum);
    } else {
      var n := |ws| - 1;
      assert RoundedAll(ws, sum)[..n] == RoundedAll(ws[..n], sum);
      assert pixels[n] as real == f(first + n);
      hide Share, Rounded, Scaled, Near;
      DotNearShare(ws[..n], sum, pixels[..n], first, f);
      RoundedTimes(ws[n], sum, pixels[n]);
      ShareSum(WindowSum(ws[..n], first, f), Scaled(ws[n], f(first + n)), sum);
      NearSum(Share(WindowSum(ws[..n], first, f), sum), Dot(RoundedAll(ws[..n], sum), pixels[..n]) as real,
              127.5 * n as real, Share(Scaled(ws[n], f(first + n)), sum),
              (pixels[n] * Rounded(ws[n], sum)) as real, 127.5);
    }
  }

  lemma ShiftedNear(dot: int, share: real, n: nat)
    requires n <= MAX_DIMENSION && Near(share, dot as real, 127.5 * n as real)
    ensures Near(share / UNIT as real, Shifted(HALF_UNIT + dot) as real, 0.625)
  {
    var v := Shifted(HALF_UNIT + dot);
    assert v * UNIT <= HALF_UNIT + dot < v * UNIT + UNIT;
  }

  lemma ShareOfUnit(w: real, sum: real)
    requires sum != 0.0
    ensures Share(w, sum) / UNIT as real == w / sum
  {
  }

  /** The value of a pass is within five eighths of the mean under the triangle, for lines of up to 4096 pixels. */
  lemma PassIsNearMean(input: nat, output: nat, o: nat, pixels: seq<int>, f: nat -> real)
    requires 0 < input <= MAX_DIMENSION && o < output
    requires |pixels| == |Coefficients(input, output, o)| && Between(pixels, 0, MAX_VALUE)
    requires AreValues(pixels, First(input, output, o), f)
    ensures var c, s := SourceCenter(input, output, o), HalfWidth(input, output);
            && KernelSum(c, s, input, One()) > 0.0
            && Near(TriangleMean(c, s, input, f), PassValue(Coefficients(input, output, o), pixels) as real, 0.625)
  {
    var first, ws := First(input, output, o), Weights(input, output, o);
    WindowIsKernel(input, output, o, f);
    WindowIsKernel(input, output, o, One());
    SumIsWindowSum(ws, first);
    WeightSumPositive(input, output, o);
    PassInRange(input, output, o, pixels, 0, MAX_VALUE);
    CoefficientsFit(input, output, o);
    WindowInside(input, output, o);
    hide Weights, First, Last, KernelSum, WindowSum, Coefficients, Stride, SourceCenter, HalfWidth, Shifted;
    DotNearShare(ws, Sum(ws), pixels, first, f);
    ShiftedNear(Dot(RoundedAll(ws, Sum(ws)), pixels), Share(WindowSum(ws, first, f), Sum(ws)), |ws|);
    ShareOfUnit(WindowSum(ws, first, f), Sum(ws));
  }

  // ---------------------------------------------------------------------------
  // Both passes
  // ---------------------------------------------------------------------------

  function Line(image: Image, y: nat, c: nat): nat -> real { (p: nat) => image(p, y, c) as real }

  /** The triangle filter of a line of the source. */
  function FilteredLine(image: Image, width: nat, columns: nat, x: nat, y: nat, c: nat): real
    requires width > 0 && x < columns
  {
    KernelPositive(width, columns, x);
    TriangleMean(SourceCenter(width, columns, x), HalfWidth(width, columns), width, Line(image, y, c))
  }

  lemma KernelPositive(input: nat, output: nat, o: nat)
    requires input > 0 && o < output
    ensures KernelSum(SourceCenter(input, output, o), HalfWidth(input, output), input, One()) > 0.0
  {
    WindowIsKernel(input, output, o, One());
    SumIsWindowSum(Weights(input, output, o), First(input, output, o));
    WeightSumPositive(input, output, o);
  }

  /** The separable triangle filter of the image, along the lines first. */
  function Filtered(image: Image, width: nat, height: nat, columns: nat, rows: nat, x: nat, y: nat, c: nat): real
    requires width > 0 && height > 0 && x < columns && y < rows
  {
    KernelPositive(height, rows, y);
    TriangleMean(SourceCenter(height, rows, y), HalfWidth(height, rows), height,
                 (q: nat) => FilteredLine(image, width, columns, x, q, c))
  }

  ghost predicate IsImage(image: Image) {
    forall x, y, c :: 0 <= image(x, y, c) <= MAX_VALUE
  }

  lemma HorizontalNear(image: Image, width: nat, columns: nat, x: nat, y: nat, c: nat)
    requires 0 < width <= MAX_DIMENSION && x < columns && IsImage(image)
    ensures var v := Horizontal(image, width, columns)(x, y, c);
            0 <= v <= MAX_VALUE && Near(FilteredLine(image, width, columns, x, y, c), v as real, 0.625)
  {
    hide First, Count, PassValue, Coefficients, TriangleMean, KernelSum;
    var line := Row(image, width, columns, x, y, c);
    AsManyCoefficients(width, columns, x);
    forall i | 0 <= i < |line| ensures 0 <= line[i] <= MAX_VALUE {
      assert line[i] == image(First(width, columns, x) + i, y, c);
    }
    PassIsNearMean(width, columns, x, line, Line(image, y, c));
    PassInRange(width, columns, x, line, 0, MAX_VALUE);
  }

  /** Sums of values that are close are close. */
  lemma {:induction false} KernelSumNear(c: real, s: real, n: nat, f: nat -> real, g: nat -> real, r: real)
    requires s > 0.0 && forall p: nat :: p < n ==> Near(f(p), g(p), r)
    ensures Near(KernelSum(c, s, n, f), KernelSum(c, s, n, g), Scaled(KernelSum(c, s, n, One()), r))
  {
    if n == 0 {
      assert Scaled(0.0, r) == 0.0;
    } else {
      hide *;
      KernelSumNear(c, s, n - 1, f, g, r);
      var w, before := Triangle(c, s, n - 1), KernelSum(c, s, n - 1, One());
      KernelSumStep(c, s, n, f);
      KernelSumStep(c, s, n, g);
      KernelSumStep(c, s, n, One());
      ScaledOne(w, n - 1);
      ScaledNear(w, f(n - 1), g(n - 1), r);
      ScaledSum(before, w, r);
      NearSum(KernelSum(c, s, n - 1, f), KernelSum(c, s, n - 1, g), Scaled(before, r),
              Scaled(w, f(n - 1)), Scaled(w, g(n - 1)), Scaled(w, r));
    }
  }

  lemma KernelSumStep(c: real, s: real, n: nat, f: nat -> real)
    requires s > 0.0 && n > 0
    ensures KernelSum(c, s, n, f) == KernelSum(c, s, n - 1, f) + Scaled(Triangle(c, s, n - 1), f(n - 1))
  {
  }

  lemma ScaledOne(w: real, p: nat)
    ensures Scaled(w, One()(p)) == w
  {
  }

  lemma ScaledSum(a: real, b: real, r: real)
    ensures Scaled(a + b, r) == Scaled(a, r) + Scaled(b, r)
  {
    TimesSum(a, b, r);
  }

  lemma ScaledNear(w: real, a: real, b: real, r: real)
    requires w >= 0.0 && Near(a, b, r)
    ensures Near(Scaled(w, a), Scaled(w, b), Scaled(w, r))
  {
    var e := b - a;
    TimesSum(a, e, w);
    TimesAtMost(e, r, w);
    TimesAtMost(-r, e, w);
    assert (a + e) * w == Scaled(w, b);
  }

  lemma MeansNear(a: real, b: real, r: real, total: real)
    requires total > 0.0 && Near(a, b, Scaled(total, r))
    ensures Near(a / total, b / total, r)
  {
    var x, y := a / total, b / total;
    assert x * total == a && y * total == b;
    assert (y - x) * total == b - a;
    assert y - x > r ==> (y - x) * total > r * total;
    assert y - x < -r ==> (y - x) * total < -r * total;
  }

  /** The resized image is the separable triangle filter of the source, up to one and a quarter, for sources of up
      to 4096 by 4096 pixels and every target size. */
  lemma ResizedIsFiltered(image: Image, width: nat, height: nat, columns: nat, rows: nat, x: nat, y: nat, c: nat)
    requires 0 < width <= MAX_DIMENSION && 0 < height <= MAX_DIMENSION && x < columns && y < rows && IsImage(image)
    ensures Near(Filtered(image, width, height, columns, rows, x, y, c),
                 Resized(image, width, height, columns, rows)(x, y, c) as real, 1.25)
  {
    var wide := Horizontal(image, width, columns);
    var middle, half := SourceCenter(height, rows, y), HalfWidth(height, rows);
    var f := (q: nat) => FilteredLine(image, width, columns, x, q, c);
    var g := (q: nat) => wide(x, q, c) as real;
    forall q: nat ensures 0 <= wide(x, q, c) <= MAX_VALUE && Near(f(q), g(q), 0.625) {
      HorizontalNear(image, width, columns, x, q, c);
    }
    KernelPositive(height, rows, y);
    KernelSumNear(middle, half, height, f, g, 0.625);
    MeansNear(KernelSum(middle, half, height, f), KernelSum(middle, half, height, g), 0.625,
              KernelSum(middle, half, height, One()));
    var column := Column(wide, height, rows, x, y, c);
    AsManyCoefficients(height, rows, y);
    hide First, Count, PassValue, Coefficients, KernelSum, Horizontal, SourceCenter, HalfWidth, FilteredLine;
    PassIsNearMean(height, rows, y, column, g);
  }

  // ---------------------------------------------------------------------------
  // The same size
  // ---------------------------------------------------------------------------

  lemma SameSizeWindow(n: nat, o: nat)
    requires o < n
    ensures First(n, n, o) == o && 1 <= Count(n, n, o) <= 2 && Weights(n, n, o)[0] == 1.0
    ensures Count(n, n, o) == 2 ==> Weights(n, n, o)[1] == 0.0
  {
    assert Scale(n, n) == 1.0;
    assert Center(n, n, o) == o as real + 0.5 && Support(n, n) == 1.0;
    hide Center, Support, Scale;
    WindowInside(n, n, o);
  }

  lemma SameSizeCoefficients(n: nat, o: nat)
    requires o < n
    ensures var vs := Coefficients(n, n, o);
            1 <= |vs| <= 2 && vs[0] == UNIT && (|vs| == 2 ==> vs[1] == 0)
  {
    SameSizeWindow(n, o);
    var ws := Weights(n, n, o);
    hide Weights, First, Count;
    assert ws == [1.0] || ws == [1.0, 0.0];
    assert Sum([1.0]) == 1.0 by {
      assert [1.0][..0] == [];
    }
    assert Sum([1.0, 0.0]) == 1.0 by {
      assert [1.0, 0.0][..1] == [1.0];
    }
  }

  lemma UnitPass(vs: seq<int>, pixels: seq<int>)
    requires |vs| == |pixels| && 1 <= |vs| <= 2 && vs[0] == UNIT && (|vs| == 2 ==> vs[1] == 0)
    requires 0 <= pixels[0] <= MAX_VALUE
    ensures PassValue(vs, pixels) == pixels[0]
  {
    if |vs| == 2 {
      assert Dot(vs, pixels) == Dot(vs[..1], pixels[..1]) + pixels[1] * 0;
    }
    assert vs[..1][..0] == [] && pixels[..1][..0] == [];
    assert Dot(vs[..1], pixels[..1]) == Dot([], []) + pixels[0] * UNIT;
  }

  /** At its own size an image is reproduced exactly, pixel by pixel. */
  lemma SameSizeIsIdentity(image: Image, width: nat, height: nat, x: nat, y: nat, c: nat)
    requires x < width && y < height && IsImage(image)
    ensures Resized(image, width, height, width, height)(x, y, c) == image(x, y, c)
  {
    hide PassValue, Coefficients, Count, First;
    forall q: nat ensures Horizontal(image, width, width)(x, q, c) == image(x, q, c) {
      SameSizeCoefficients(width, x);
      SameSizeWindow(width, x);
      AsManyCoefficients(width, width, x);
      UnitPass(Coefficients(width, width, x), Row(image, width, width, x, q, c));
    }
    SameSizeCoefficients(height, y);
    SameSizeWindow(height, y);
    AsManyCoefficients(height, height, y);
    UnitPass(Coefficients(height, height, y), Column(Horizontal(image, width, width), height, height, x, y, c));
  }
}
