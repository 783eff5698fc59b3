/** Bilinear resampling with rounded 22-bit weights: the result of a pass never leaves the range of the
    source values it was computed from. The weights are exact reals before they are rounded. */
module Resample {
  import opened Arithmetic

  const COEFFICIENT_BITS: nat := 22
  const UNIT: nat := 0x40_0000
  const HALF_UNIT: nat := 0x20_0000
  const MAX_DIMENSION: nat := 4096
  const MAX_VALUE: nat := 255

  // ---------------------------------------------------------------------------
  // Where the weights of one output position lie
  // ---------------------------------------------------------------------------

  function Scale(input: nat, output: nat): real
    requires output > 0
  {
    input as real / output as real
  }

  function Support(input: nat, output: nat): (r: real)
    requires output > 0
    ensures r >= 1.0
  {
    if Scale(input, output) > 1.0 then Scale(input, output) else 1.0
  }

  function Center(input: nat, output: nat, o: nat): real
    requires output > 0
  {
    (o as real + 0.5) * Scale(input, output)
  }

  /** max(0, x) cast to an unsigned integer. */
  function Truncated(x: real): (r: nat)
    ensures r as real <= (if x < 0.0 then 0.0 else x) < r as real + 1.0
  {
    if x < 0.0 then 0 else x.Floor
  }

  function Ceiling(x: real): (r: int)
    ensures r as real - 1.0 < x <= r as real
  {
    -((-x).Floor)
  }

  function First(input: nat, output: nat, o: nat): nat
    requires output > 0
  {
    Truncated(Center(input, output, o) - Support(input, output) + 0.5)
  }

  function Last(input: nat, output: nat, o: nat): (r: nat)
    requires output > 0
    ensures r <= input
  {
    var last := Truncated(Center(input, output, o) + Support(input, output) + 0.5);
    if last < input then last else input
  }

  function Stride(input: nat, output: nat): nat
    requires output > 0
  {
    Ceiling(Support(input, output)) * 2 + 1
  }

  /** The triangle filter, for the source position `p`. */
  function Weight(input: nat, output: nat, o: nat, p: nat): (w: real)
    requires output > 0
    ensures w >= 0.0
  {
    var x := (p as real - Center(input, output, o) + 0.5) / Support(input, output);
    var distance := if x < 0.0 then -x else x;
    if distance < 1.0 then 1.0 - distance else 0.0
  }

  lemma CenterInside(input: nat, output: nat, o: nat)
    requires input > 0 && o < output
    ensures 0.0 < Center(input, output, o) <= input as real - 0.5 * Scale(input, output)
    ensures Scale(input, output) > 0.0
  {
    var scale, n := Scale(input, output), output as real;
    assert n * scale == input as real;
    ScaleMonotone(o as real + 0.5, n - 0.5, scale);
    assert (n - 0.5) * scale == n * scale - 0.5 * scale;
  }

  lemma ScaleMonotone(a: real, b: real, scale: real)
    requires a <= b && scale > 0.0
    ensures a * scale <= b * scale
    ensures a > 0.0 ==> a * scale > 0.0
  {
  }

  /** The pixel under the center. */
  function Nearest(input: nat, output: nat, o: nat): nat
    requires output > 0
  {
    Truncated(Center(input, output, o))
  }

  /** The window lies inside the source and its stride row, is not empty, and contains the pixel under
      the center. */
  lemma WindowInside(input: nat, output: nat, o: nat)
    requires input > 0 && o < output
    ensures var first, last := First(input, output, o), Last(input, output, o);
            && first < last <= input && last - first <= Stride(input, output)
            && first <= Nearest(input, output, o) < last
  {
    CenterInside(input, output, o);
    hide Center, Scale;
  }

  lemma NearestHasWeight(input: nat, output: nat, o: nat)
    requires input > 0 && o < output
    ensures Weight(input, output, o, Nearest(input, output, o)) >= 0.5
  {
    CenterInside(input, output, o);
    var s, d := Support(input, output), Nearest(input, output, o) as real - Center(input, output, o) + 0.5;
    assert -0.5 < d <= 0.5;
    hide Center, Scale, Support;
    Shrinks(d, s);
  }

  lemma Shrinks(d: real, s: real)
    requires s >= 1.0 && -0.5 <= d <= 0.5
    ensures -0.5 <= d / s <= 0.5
  {
    var q := d / s;
    assert q * s == d;
    assert q > 0.5 ==> q * s > 0.5;
    assert q < -0.5 ==> q * s < -0.5;
  }

  // ---------------------------------------------------------------------------
  // Weights, their sum, and their rounding
  // ---------------------------------------------------------------------------

  /** The weight of the `i`-th pixel of the window. */
  function WeightAt(input: nat, output: nat, o: nat, i: nat): (w: real)
    requires output > 0
    ensures w >= 0.0
  {
    Weight(input, output, o, First(input, output, o) + i)
  }

  function Count(input: nat, output: nat, o: nat): nat
    requires input > 0 && o < output
  {
    WindowInside(input, output, o);
    Last(input, output, o) - First(input, output, o)
  }

  function Weights(input: nat, output: nat, o: nat): (r: seq<real>)
    requires input > 0 && o < output
    ensures |r| == Count(input, output, o)
    ensures forall i :: 0 <= i < |r| ==> r[i] == WeightAt(input, output, o, i)
  {
    seq(Count(input, output, o), i requires 0 <= i < Count(input, output, o) => WeightAt(input, output, o, i))
  }

  function Sum(s: seq<real>): real {
    if s == [] then 0.0 else Sum(s[..|s| - 1]) + s[|s| - 1]
  }

  lemma {:induction false} SumAtLeast(s: seq<real>, i: nat)
    requires i < |s| && forall j :: 0 <= j < |s| ==> s[j] >= 0.0
    ensures Sum(s) >= s[i]
  {
    if i < |s| - 1 {
      SumAtLeast(s[..|s| - 1], i);
    } else {
      SumNotNegative(s[..|s| - 1]);
    }
  }

  lemma {:induction false} SumNotNegative(s: seq<real>)
    requires forall j :: 0 <= j < |s| ==> s[j] >= 0.0
    ensures Sum(s) >= 0.0
  {
    if s != [] {
      SumNotNegative(s[..|s| - 1]);
    }
  }

  /** The weights never sum to zero: the guard against it never fires. */
  lemma WeightSumPositive(input: nat, output: nat, o: nat)
    requires input > 0 && o < output
    ensures Sum(Weights(input, output, o)) >= 0.5
  {
    WindowInside(input, output, o);
    NearestHasWeight(input, output, o);
    hide Weight, Nearest, First, Last, Weights;
    SumAtLeast(Weights(input, output, o), Nearest(input, output, o) - First(input, output, o));
  }

  /** A weight as a share of UNIT, rounded to the nearest integer. */
  function Rounded(w: real, sum: real): int {
    ((if sum == 0.0 then 0.0 else w / sum) * UNIT as real + 0.5).Floor
  }

  function Share(w: real, sum: real): real
    requires sum != 0.0
  {
    w / sum * UNIT as real
  }

  lemma ShareSum(a: real, b: real, sum: real)
    requires sum > 0.0
    ensures Share(a, sum) + Share(b, sum) == Share(a + b, sum)
    ensures Share(sum, sum) == UNIT as real && Share(0.0, sum) == 0.0
  {
    assert a / sum + b / sum == (a + b) / sum;
  }

  function RoundedAll(ws: seq<real>, sum: real): (r: seq<int>)
    ensures |r| == |ws| && forall i :: 0 <= i < |r| ==> r[i] == Rounded(ws[i], sum)
  {
    seq(|ws|, i requires 0 <= i < |ws| => Rounded(ws[i], sum))
  }

  function Total(s: seq<int>): int {
    if s == [] then 0 else Total(s[..|s| - 1]) + s[|s| - 1]
  }

  /** Rounding moves the total by at most half a unit per weight. */
  lemma {:induction false} TotalNearShare(ws: seq<real>, sum: real)
    requires sum > 0.0
    ensures var total, share, n := Total(RoundedAll(ws, sum)) as real, Share(Sum(ws), sum), |ws| as real;
            share - n / 2.0 <= total <= share + n / 2.0
  {
    if ws == [] {
      ShareSum(0.0, 0.0, sum);
    } else {
      var front, w := ws[..|ws| - 1], ws[|ws| - 1];
      TotalNearShare(front, sum);
      ShareSum(Sum(front), w, sum);
      assert RoundedAll(ws, sum)[..|front|] == RoundedAll(front, sum);
      assert Share(w, sum) - 0.5 <= Rounded(w, sum) as real <= Share(w, sum) + 0.5;
    }
  }

  /** The rounded weights of one output position. */
  function Coefficients(input: nat, output: nat, o: nat): seq<int>
    requires input > 0 && o < output
  {
    RoundedAll(Weights(input, output, o), Sum(Weights(input, output, o)))
  }

  lemma CoefficientsNearUnit(input: nat, output: nat, o: nat)
    requires input > 0 && o < output
    ensures var vs := Coefficients(input, output, o);
            && 0 < |vs| <= input && |vs| <= Stride(input, output)
            && (forall i :: 0 <= i < |vs| ==> vs[i] >= 0)
            && 2 * UNIT - |vs| <= 2 * Total(vs) <= 2 * UNIT + |vs|
  {
    WindowInside(input, output, o);
    WeightSumPositive(input, output, o);
    hide Weight, First, Last, Stride, Weights;
    var ws := Weights(input, output, o);
    var sum := Sum(ws);
    TotalNearShare(ws, sum);
    ShareSum(0.0, 0.0, sum);
    forall i | 0 <= i < |ws| ensures Rounded(ws[i], sum) >= 0 {
      NotNegative(ws[i], sum);
    }
  }

  lemma NotNegative(w: real, sum: real)
    requires w >= 0.0 && sum > 0.0
    ensures Rounded(w, sum) >= 0
  {
    assert w / sum >= 0.0;
  }

  // ---------------------------------------------------------------------------
  // One pass
  // ---------------------------------------------------------------------------

  function Dot(vs: seq<int>, pixels: seq<int>): int
    requires |vs| == |pixels|
  {
    if vs == [] then 0 else Dot(vs[..|vs| - 1], pixels[..|vs| - 1]) + pixels[|vs| - 1] * vs[|vs| - 1]
  }

  /** sum >> COEFFICIENT_BITS */
  function Shifted(sum: int): int { sum / UNIT }

  function Clamp(x: int): int {
    if x < 0 then 0 else if x > MAX_VALUE then MAX_VALUE else x
  }

  function PassValue(vs: seq<int>, pixels: seq<int>): int
    requires |vs| == |pixels|
  {
    Clamp(Shifted(HALF_UNIT + Dot(vs, pixels)))
  }

  ghost predicate Between(pixels: seq<int>, lo: int, hi: int) {
    forall i :: 0 <= i < |pixels| ==> lo <= pixels[i] <= hi
  }

  lemma {:induction false} DotBounds(vs: seq<int>, pixels: seq<int>, lo: int, hi: int)
    requires |vs| == |pixels| && Between(pixels, lo, hi) && forall i :: 0 <= i < |vs| ==> vs[i] >= 0
    ensures lo * Total(vs) <= Dot(vs, pixels) <= hi * Total(vs)
  {
    if vs != [] {
      var n := |vs| - 1;
      DotBounds(vs[..n], pixels[..n], lo, hi);
      Monotone(lo, pixels[n], vs[n]);
      Monotone(pixels[n], hi, vs[n]);
      Distribute(lo, Total(vs[..n]), vs[n]);
      Distribute(hi, Total(vs[..n]), vs[n]);
    }
  }

  lemma Monotone(a: int, b: int, v: int)
    requires a <= b && v >= 0
    ensures a * v <= b * v
  {
  }

  lemma Distribute(a: int, x: int, y: int)
    ensures a * (x + y) == a * x + a * y
  {
  }

  /** The heart of it: the rounding of up to MAX_DIMENSION weights cannot push an 8-bit value over the
      next integer. */
  lemma RoundingStaysInside(total: int, count: nat, dot: int, lo: int, hi: int)
    requires count <= MAX_DIMENSION && 0 <= lo <= hi <= MAX_VALUE
    requires 2 * UNIT - count <= 2 * total <= 2 * UNIT + count
    requires lo * total <= dot <= hi * total
    ensures lo <= Shifted(HALF_UNIT + dot) <= hi
  {
    Monotone(2 * UNIT - MAX_DIMENSION, 2 * total, lo);
    Monotone(2 * total, 2 * UNIT + MAX_DIMENSION, hi);
    Twice(lo, total);
    Twice(hi, total);
    ShiftedBounds(dot, lo, hi);
  }

  lemma Twice(a: int, total: int)
    ensures (2 * total) * a == 2 * (a * total)
  {
  }

  lemma ShiftedBounds(dot: int, lo: int, hi: int)
    requires 0 <= lo && hi <= MAX_VALUE
    requires (2 * UNIT - MAX_DIMENSION) * lo <= 2 * dot <= (2 * UNIT + MAX_DIMENSION) * hi
    requires lo <= hi
    ensures lo <= Shifted(HALF_UNIT + dot) <= hi
  {
  }

  /** Every output value lies between the least and the greatest source value of its window, before the
      clamp already. */
  lemma PassInRange(input: nat, output: nat, o: nat, pixels: seq<int>, lo: int, hi: int)
    requires 0 < input <= MAX_DIMENSION && o < output
    requires |pixels| == |Coefficients(input, output, o)|
    requires 0 <= lo <= hi <= MAX_VALUE && Between(pixels, lo, hi)
    ensures var vs := Coefficients(input, output, o);
            && lo <= PassValue(vs, pixels) <= hi
            && PassValue(vs, pixels) == Shifted(HALF_UNIT + Dot(vs, pixels))
  {
    CoefficientsNearUnit(input, output, o);
    hide Coefficients, Stride, Shifted;
    var vs := Coefficients(input, output, o);
    DotBounds(vs, pixels, lo, hi);
    RoundingStaysInside(Total(vs), |vs|, Dot(vs, pixels), lo, hi);
  }

  // ---------------------------------------------------------------------------
  // The coefficient table
  // ---------------------------------------------------------------------------

  /** The weights of output position `o` are in values[o * stride..]. */
  datatype Table = Table(stride: nat, starts: seq<nat>, counts: seq<nat>, values: seq<int>)

  ghost predicate RowsFilled(t: Table, input: nat, output: nat, upTo: nat)
    requires input > 0 && output > 0 && upTo <= output
  {
    && t.stride == Stride(input, output) && |t.values| == output * t.stride
    && |t.starts| == |t.counts| == upTo
    && forall o :: 0 <= o < upTo ==> IsRow(t, input, output, o)
  }

  /** A row of the table: inside its stride, and the rounded weights. */
  ghost predicate IsRow(t: Table, input: nat, output: nat, o: nat)
    requires input > 0 && o < output && o < |t.starts| && o < |t.counts|
  {
    && t.starts[o] == First(input, output, o) && t.counts[o] == Count(input, output, o) <= t.stride
    && o * t.stride + t.stride <= |t.values|
    && t.values[o * t.stride..o * t.stride + t.counts[o]] == Coefficients(input, output, o)
  }

  method FillRow(values: seq<int>, base: nat, ws: seq<real>, sum: real) returns (r: seq<int>)
    requires base + |ws| <= |values|
    ensures |r| == |values| && r[base..base + |ws|] == RoundedAll(ws, sum)
    ensures forall k :: 0 <= k < |r| && !(base <= k < base + |ws|) ==> r[k] == values[k]
  {
    r := values;
    for i := 0 to |ws|
      invariant |r| == |values|
      invariant forall k :: 0 <= k < i ==> r[base + k] == Rounded(ws[k], sum)
      invariant forall k :: 0 <= k < |r| && !(base <= k < base + i) ==> r[k] == values[k]
    {
      r := r[base + i := Rounded(ws[i], sum)];
    }
  }

  method WindowWeights(input: nat, output: nat, o: nat) returns (ws: seq<real>, sum: real)
    requires input > 0 && o < output
    ensures ws == Weights(input, output, o) && sum == Sum(ws)
  {
    hide WeightAt, Count;
    ws, sum := [], 0.0;
    for i := 0 to Count(input, output, o)
      invariant |ws| == i && sum == Sum(ws) && forall k :: 0 <= k < i ==> ws[k] == WeightAt(input, output, o, k)
    {
      var w := WeightAt(input, output, o, i);
      assert (ws + [w])[..i] == ws;
      ws, sum := ws + [w], sum + w;
    }
  }

  lemma RowFits(o: nat, output: nat, stride: nat)
    requires o < output
    ensures o * stride + stride <= output * stride
  {
    MulGap(o, output, stride);
  }

  /** Filling a later row leaves the earlier ones alone. */
  lemma RowKept(t: Table, values: seq<int>, input: nat, output: nat, k: nat, o: nat)
    requires input > 0 && k < o < output && k < |t.starts| && k < |t.counts| && IsRow(t, input, output, k)
    requires |values| == |t.values| && forall j :: 0 <= j < o * t.stride ==> j < |values| && values[j] == t.values[j]
    ensures IsRow(t.(values := values), input, output, k)
  {
    hide Coefficients, First, Count;
    MulGap(k, o, t.stride);
  }

  lemma NextRow(t: Table, values: seq<int>, input: nat, output: nat, o: nat)
    requires input > 0 && o < output && RowsFilled(t, input, output, o) && |values| == |t.values|
    requires o * t.stride + Count(input, output, o) <= |values|
    requires values[o * t.stride..o * t.stride + Count(input, output, o)] == Coefficients(input, output, o)
    requires forall j :: 0 <= j < o * t.stride ==> j < |values| && values[j] == t.values[j]
    ensures var starts, counts := t.starts + [First(input, output, o)], t.counts + [Count(input, output, o)];
            RowsFilled(Table(t.stride, starts, counts, values), input, output, o + 1)
  {
    var t' := Table(t.stride, t.starts + [First(input, output, o)], t.counts + [Count(input, output, o)], values);
    RowFits(o, output, t.stride);
    WindowInside(input, output, o);
    assert Count(input, output, o) <= t.stride;
    hide Coefficients, First, Count, Stride;
    forall k | 0 <= k < o + 1 ensures IsRow(t', input, output, k) {
      if k < o {
        RowKept(t, values, input, output, k, o);
        assert t'.starts[k] == t.starts[k] && t'.counts[k] == t.counts[k];
      }
    }
  }

  method MakeBilinearCoefficients(input: nat, output: nat) returns (t: Table)
    requires input > 0 && output > 0
    ensures RowsFilled(t, input, output, output)
  {
    hide First, Count, Coefficients, IsRow, Weights;
    var stride := Stride(input, output);
    t := Table(stride, [], [], seq(output * stride, k => 0));
    for o := 0 to output
      invariant RowsFilled(t, input, output, o)
    {
      var ws, sum := WindowWeights(input, output, o);
      RowFits(o, output, stride);
      CoefficientsFit(input, output, o);
      var values := FillRow(t.values, o * stride, ws, sum);
      NextRow(t, values, input, output, o);
      t := Table(stride, t.starts + [First(input, output, o)], t.counts + [Count(input, output, o)], values);
    }
  }

  lemma CoefficientsFit(input: nat, output: nat, o: nat)
    requires input > 0 && o < output
    ensures |Weights(input, output, o)| == Count(input, output, o) <= Stride(input, output)
    ensures Coefficients(input, output, o) == RoundedAll(Weights(input, output, o), Sum(Weights(input, output, o)))
  {
    WindowInside(input, output, o);
  }

  // ---------------------------------------------------------------------------
  // Both passes
  // ---------------------------------------------------------------------------

  /** The value of a channel at a column and a row. */
  type Image = (nat, nat, nat) -> int

  function Row(image: Image, width: nat, columns: nat, x: nat, y: nat, channel: nat): (r: seq<int>)
    requires width > 0 && x < columns
    ensures |r| == Count(width, columns, x)
  {
    seq(Count(width, columns, x),
        i requires 0 <= i < Count(width, columns, x) => image(First(width, columns, x) + i, y, channel))
  }

  function Column(image: Image, height: nat, rows: nat, x: nat, y: nat, channel: nat): (r: seq<int>)
    requires height > 0 && y < rows
    ensures |r| == Count(height, rows, y)
  {
    seq(Count(height, rows, y),
        i requires 0 <= i < Count(height, rows, y) => image(x, First(height, rows, y) + i, channel))
  }

  function Horizontal(image: Image, width: nat, columns: nat): Image
    requires width > 0
  {
    (x: nat, y: nat, channel: nat) =>
      if x < columns then PassValue(Coefficients(width, columns, x), Row(image, width, columns, x, y, channel)) else 0
  }

  function Vertical(image: Image, height: nat, rows: nat): Image
    requires height > 0
  {
    (x: nat, y: nat, channel: nat) =>
      if y < rows then PassValue(Coefficients(height, rows, y), Column(image, height, rows, x, y, channel)) else 0
  }

  /** Columns first, then rows. */
  function Resized(image: Image, width: nat, height: nat, columns: nat, rows: nat): Image
    requires width > 0 && height > 0
  {
    Vertical(Horizontal(image, width, columns), height, rows)
  }

  /** One weighted sum over `pixels`, with the weights starting at values[base]. */
  method WeightedSum(values: seq<int>, base: nat, pixels: seq<int>) returns (v: int)
    requires base + |pixels| <= |values|
    ensures v == PassValue(values[base..base + |pixels|], pixels)
  {
    var sum := HALF_UNIT as int;
    ghost var vs := values[base..base + |pixels|];
    for i := 0 to |pixels|
      invariant sum == HALF_UNIT + Dot(vs[..i], pixels[..i])
    {
      assert vs[..i + 1][..i] == vs[..i] && pixels[..i + 1][..i] == pixels[..i];
      sum := sum + pixels[i] * values[base + i];
    }
    assert vs[..|pixels|] == vs && pixels[..|pixels|] == pixels;
    v := Clamp(Shifted(sum));
  }

  type Pixels = seq<seq<seq<int>>>

  ghost predicate IsRowOf(line: seq<seq<int>>, y: nat, columns: nat, image: Image) {
    && |line| == columns
    && forall x :: 0 <= x < columns ==> IsPixelOf(line[x], x, y, image)
  }

  ghost predicate IsPixelOf(pixel: seq<int>, x: nat, y: nat, image: Image) {
    |pixel| == 3 && forall c :: 0 <= c < 3 ==> pixel[c] == image(x, y, c)
  }

  /** Row by row, pixel by pixel, the values of `image`. */
  ghost predicate Shows(pixels: Pixels, rows: nat, columns: nat, image: Image) {
    |pixels| == rows && forall y :: 0 <= y < rows ==> IsRowOf(pixels[y], y, columns, image)
  }

  /** What the table says about one output position. */
  lemma RowOfTable(t: Table, input: nat, output: nat, o: nat)
    requires input > 0 && o < output && RowsFilled(t, input, output, output)
    ensures t.starts[o] == First(input, output, o) && t.counts[o] == Count(input, output, o)
    ensures t.starts[o] + t.counts[o] <= input && o * t.stride + t.counts[o] <= |t.values|
    ensures t.values[o * t.stride..o * t.stride + t.counts[o]] == Coefficients(input, output, o)
  {
    WindowInside(input, output, o);
    assert IsRow(t, input, output, o);
  }

  method HorizontalPixel(image: Image, t: Table, width: nat, columns: nat, x: nat, y: nat) returns (pixel: seq<int>)
    requires width > 0 && x < columns && RowsFilled(t, width, columns, columns)
    ensures IsPixelOf(pixel, x, y, Horizontal(image, width, columns))
  {
    RowOfTable(t, width, columns, x);
    hide Coefficients, First, Count, PassValue, RowsFilled;
    var start, count := t.starts[x], t.counts[x];
    pixel := [];
    for channel := 0 to 3
      invariant |pixel| == channel
      invariant forall c :: 0 <= c < channel ==> pixel[c] == Horizontal(image, width, columns)(x, y, c)
    {
      var window := seq(count, i requires 0 <= i < count => image(start + i, y, channel));
      assert window == Row(image, width, columns, x, y, channel);
      var v := WeightedSum(t.values, x * t.stride, window);
      pixel := pixel + [v];
    }
  }

  method VerticalPixel(pixels: Pixels, ghost image: Image, t: Table, height: nat, columns: nat, rows: nat, x: nat,
      y: nat)
    returns (pixel: seq<int>)
    requires height > 0 && y < rows && x < columns && RowsFilled(t, height, rows, rows)
    requires Shows(pixels, height, columns, image)
    ensures IsPixelOf(pixel, x, y, Vertical(image, height, rows))
  {
    RowOfTable(t, height, rows, y);
    hide Coefficients, First, Count, PassValue, RowsFilled;
    var start, count := t.starts[y], t.counts[y];
    pixel := [];
    for channel := 0 to 3
      invariant |pixel| == channel
      invariant forall c :: 0 <= c < channel ==> pixel[c] == Vertical(image, height, rows)(x, y, c)
    {
      forall r | start <= r < start + count ensures IsPixelOf(pixels[r][x], x, r, image) {
        assert IsRowOf(pixels[r], r, columns, image);
      }
      var window := seq(count, i requires 0 <= i < count => pixels[start + i][x][channel]);
      assert window == Column(image, height, rows, x, y, channel);
      var v := WeightedSum(t.values, y * t.stride, window);
      pixel := pixel + [v];
    }
  }

  method HorizontalPass(image: Image, t: Table, width: nat, height: nat, columns: nat) returns (pixels: Pixels)
    requires width > 0 && columns > 0 && RowsFilled(t, width, columns, columns)
    ensures Shows(pixels, height, columns, Horizontal(image, width, columns))
  {
    hide RowsFilled, IsPixelOf, Horizontal;
    pixels := [];
    for y := 0 to height
      invariant Shows(pixels, y, columns, Horizontal(image, width, columns))
    {
      var line: seq<seq<int>> := [];
      for x := 0 to columns
        invariant |line| == x && forall k :: 0 <= k < x ==> IsPixelOf(line[k], k, y, Horizontal(image, width, columns))
      {
        var pixel := HorizontalPixel(image, t, width, columns, x, y);
        line := line + [pixel];
      }
      pixels := pixels + [line];
    }
  }

  method VerticalPass(source: Pixels, ghost image: Image, t: Table, height: nat, columns: nat, rows: nat)
      returns (pixels: Pixels)
    requires height > 0 && rows > 0 && RowsFilled(t, height, rows, rows) && Shows(source, height, columns, image)
    ensures Shows(pixels, rows, columns, Vertical(image, height, rows))
  {
    hide RowsFilled, IsPixelOf, Vertical;
    pixels := [];
    for y := 0 to rows
      invariant Shows(pixels, y, columns, Vertical(image, height, rows))
    {
      var line: seq<seq<int>> := [];
      for x := 0 to columns
        invariant |line| == x && forall k :: 0 <= k < x ==> IsPixelOf(line[k], k, y, Vertical(image, height, rows))
      {
        var pixel := VerticalPixel(source, image, t, height, columns, rows, x, y);
        line := line + [pixel];
      }
      pixels := pixels + [line];
    }
  }

  method ResizeRgb(image: Image, width: nat, height: nat, columns: nat, rows: nat) returns (resized: Pixels)
    requires width > 0 && height > 0 && columns > 0 && rows > 0
    ensures Shows(resized, rows, columns, Resized(image, width, height, columns, rows))
  {
    hide RowsFilled, Shows;
    var horizontal := MakeBilinearCoefficients(width, columns);
    var vertical := MakeBilinearCoefficients(height, rows);
    var intermediate := HorizontalPass(image, horizontal, width, height, columns);
    resized := VerticalPass(intermediate, Horizontal(image, width, columns), vertical, height, columns, rows);
  }

  predicate InWindow(input: nat, output: nat, o: nat, p: nat)
    requires input > 0 && o < output
  {
    First(input, output, o) <= p < First(input, output, o) + Count(input, output, o)
  }

  /** All values of a channel in the source rectangle behind an output pixel lie within lo..hi. */
  ghost predicate WindowBetween(image: Image, width: nat, height: nat, columns: nat, rows: nat, x: nat, y: nat,
      c: nat, lo: int, hi: int)
    requires width > 0 && height > 0 && x < columns && y < rows
  {
    forall p: nat, q: nat :: InWindow(width, columns, x, p) && InWindow(height, rows, y, q) ==>
      lo <= image(p, q, c) <= hi
  }

  lemma AsManyCoefficients(input: nat, output: nat, o: nat)
    requires input > 0 && o < output
    ensures |Coefficients(input, output, o)| == Count(input, output, o)
  {
  }

  lemma HorizontalInRange(image: Image, width: nat, columns: nat, x: nat, y: nat, c: nat, lo: int, hi: int)
    requires 0 < width <= MAX_DIMENSION && x < columns && 0 <= lo <= hi <= MAX_VALUE
    requires forall p: nat :: InWindow(width, columns, x, p) ==> lo <= image(p, y, c) <= hi
    ensures lo <= Horizontal(image, width, columns)(x, y, c) <= hi
  {
    hide First, Count, PassValue, Coefficients;
    var line := Row(image, width, columns, x, y, c);
    forall i | 0 <= i < |line| ensures lo <= line[i] <= hi {
      assert InWindow(width, columns, x, First(width, columns, x) + i);
    }
    AsManyCoefficients(width, columns, x);
    PassInRange(width, columns, x, line, lo, hi);
  }

  lemma VerticalInRange(image: Image, height: nat, rows: nat, x: nat, y: nat, c: nat, lo: int, hi: int)
    requires 0 < height <= MAX_DIMENSION && y < rows && 0 <= lo <= hi <= MAX_VALUE
    requires forall q: nat :: InWindow(height, rows, y, q) ==> lo <= image(x, q, c) <= hi
    ensures lo <= Vertical(image, height, rows)(x, y, c) <= hi
  {
    hide First, Count, PassValue, Coefficients;
    var column := Column(image, height, rows, x, y, c);
    forall i | 0 <= i < |column| ensures lo <= column[i] <= hi {
      assert InWindow(height, rows, y, First(height, rows, y) + i);
    }
    AsManyCoefficients(height, rows, y);
    PassInRange(height, rows, y, column, lo, hi);
  }

  /** Two passes stay inside the range of the source rectangle; in particular a constant rectangle is
      reproduced exactly. */
  lemma ResizeStaysInRange(image: Image, width: nat, height: nat, columns: nat, rows: nat, x: nat, y: nat, c: nat,
      lo: int, hi: int)
    requires 0 < width <= MAX_DIMENSION && 0 < height <= MAX_DIMENSION && x < columns && y < rows
    requires 0 <= lo <= hi <= MAX_VALUE
    requires WindowBetween(image, width, height, columns, rows, x, y, c, lo, hi)
    ensures lo <= Resized(image, width, height, columns, rows)(x, y, c) <= hi
  {
    hide InWindow, Horizontal, Vertical;
    forall q: nat | InWindow(height, rows, y, q) ensures lo <= Horizontal(image, width, columns)(x, q, c) <= hi {
      HorizontalInRange(image, width, columns, x, q, c, lo, hi);
    }
    VerticalInRange(Horizontal(image, width, columns), height, rows, x, y, c, lo, hi);
  }

  /** An image of one color keeps it, at every size. */
  lemma ConstantImageStays(image: Image, width: nat, height: nat, columns: nat, rows: nat, x: nat, y: nat, c: nat,
      value: int)
    requires 0 < width <= MAX_DIMENSION && 0 < height <= MAX_DIMENSION && x < columns && y < rows
    requires 0 <= value <= MAX_VALUE && forall p, q :: image(p, q, c) == value
    ensures Resized(image, width, height, columns, rows)(x, y, c) == value
  {
    hide Resized;
    ResizeStaysInRange(image, width, height, columns, rows, x, y, c, value, value);
  }
}
