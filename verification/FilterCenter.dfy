/** Where the triangle filter has its center of mass: the mean position of the source pixels behind an output pixel
    is the output pixel's own place in the source only if the pixels lie evenly under the triangle. */
module FilterCenter {
  import opened Resample
  import opened TriangleFilter

  /** The middle of pixel `p`. */
  function Middle(): nat -> real { (p: nat) => p as real + 0.5 }

  function Offset(c: real): nat -> real { (p: nat) => p as real + 0.5 - c }

  lemma {:induction false} OffsetSum(c: real, s: real, n: nat)
    requires s > 0.0
    ensures KernelSum(c, s, n, Offset(c)) == KernelSum(c, s, n, Middle()) - Scaled(KernelSum(c, s, n, One()), c)
  {
    if n == 0 {
      assert Scaled(0.0, c) == 0.0;
    } else {
      hide *;
      OffsetSum(c, s, n - 1);
      var w := Triangle(c, s, n - 1);
      KernelSumStep(c, s, n, Offset(c));
      KernelSumStep(c, s, n, Middle());
      KernelSumStep(c, s, n, One());
      ScaledOne(w, n - 1);
      OffsetTerm(w, c, n - 1);
      ScaledSum(KernelSum(c, s, n - 1, One()), w, c);
    }
  }

  lemma OffsetTerm(w: real, c: real, p: nat)
    ensures Scaled(w, Offset(c)(p)) == Scaled(w, Middle()(p)) - Scaled(w, c)
  {
  }

  // ---------------------------------------------------------------------------
  // Levers
  // ---------------------------------------------------------------------------

  /** The pull of a pixel at distance `x`, times the half width `s`. */
  function Lever(s: real, x: real): real {
    if x < s then x * (s - x) else 0.0
  }

  /** The pull of `n` pixels at distances x, x + 1, ... */
  function Levers(s: real, x: real, n: nat): real {
    if n == 0 then 0.0 else Levers(s, x, n - 1) + Lever(s, x + (n - 1) as real)
  }

  lemma PullRight(c: real, s: real, p: nat, x: real)
    requires s > 0.0 && x >= 0.0 && Offset(c)(p) == x
    ensures Scaled(Scaled(Triangle(c, s, p), x), s) == Lever(s, x)
  {
    if x < s {
      var w := (s - x) / s;
      assert w * s == s - x;
      assert (w * x) * s == (w * s) * x;
    }
  }

  lemma PullLeft(c: real, s: real, p: nat, x: real)
    requires s > 0.0 && x > 0.0 && Offset(c)(p) == -x
    ensures Scaled(Scaled(Triangle(c, s, p), -x), s) == -Lever(s, x)
  {
    if x < s {
      var w := (s - x) / s;
      assert Triangle(c, s, p) == w by {
        assert s + -x == s - x;
      }
      assert w * s == s - x;
      assert (w * -x) * s == -((w * s) * x);
    }
  }

  lemma LeversStep(s: real, x: real, n: nat)
    requires n > 0
    ensures Levers(s, x, n) == Levers(s, x, n - 1) + Lever(s, x + (n - 1) as real)
  {
  }

  lemma OffsetAt(c: real, p: nat)
    ensures Offset(c)(p) == p as real + 0.5 - c
  {
  }

  /** The pixels left of the center, from the outside in. */
  lemma {:induction false} LeftMoment(c: real, s: real, q: nat, n: nat, x: real)
    requires s > 0.0 && n <= q && 0.0 < x <= 1.0 && q as real + 0.5 - c == 1.0 - x
    ensures Scaled(KernelSum(c, s, n, Offset(c)), s) == Levers(s, x, q - n) - Levers(s, x, q)
  {
    if n == 0 {
      assert Scaled(0.0, s) == 0.0;
    } else {
      hide *;
      LeftMoment(c, s, q, n - 1, x);
      KernelSumStep(c, s, n, Offset(c));
      var k: nat := q - n;
      var d := x + k as real;
      OffsetAt(c, n - 1);
      assert Offset(c)(n - 1) == -d;
      PullLeft(c, s, n - 1, d);
      LeversStep(s, x, k + 1);
      ScaledSum(KernelSum(c, s, n - 1, Offset(c)), Scaled(Triangle(c, s, n - 1), -d), s);
    }
  }

  /** Those right of it, from the inside out. */
  lemma {:induction false} RightMoment(c: real, s: real, q: nat, n: nat, x: real)
    requires s > 0.0 && 0.0 <= x < 1.0 && q as real + 0.5 - c == x
    ensures Scaled(KernelSum(c, s, q + n, Offset(c)), s) == Scaled(KernelSum(c, s, q, Offset(c)), s) + Levers(s, x, n)
  {
    if n > 0 {
      hide *;
      RightMoment(c, s, q, n - 1, x);
      var p := q + n - 1;
      var d := x + (n - 1) as real;
      KernelSumStep(c, s, q + n, Offset(c));
      OffsetAt(c, p);
      assert Offset(c)(p) == d;
      PullRight(c, s, p, d);
      LeversStep(s, x, n);
      ScaledSum(KernelSum(c, s, p, Offset(c)), Scaled(Triangle(c, s, p), d), s);
    }
  }

  /** Pixels beyond the half width do not pull. */
  lemma {:induction false} LeversEnd(s: real, x: real, n: nat, m: nat)
    requires n <= m && x + n as real >= s
    ensures Levers(s, x, m) == Levers(s, x, n)
  {
    if n < m {
      LeversEnd(s, x, n, m - 1);
    }
  }

  /** Pixels in pairs, at distances that add up to an odd number. */
  lemma {:induction false} LeverPairs(s: real, x: real, n: nat)
    requires 0.0 <= x < 1.0 && n as real <= s
    ensures Levers(s, x, n) - Levers(s, 1.0 - x, n) == (2.0 * x - 1.0) * (n as real * s - n as real * n as real)
  {
    if n > 0 {
      LeverPairs(s, x, n - 1);
      PairPull(s, x, (n - 1) as real);
      PairStep(s, 2.0 * x - 1.0, (n - 1) as real);
      hide Lever;
    }
  }

  lemma InsideLever(s: real, x: real)
    requires x <= s
    ensures Lever(s, x) == x * (s - x)
  {
  }

  lemma PairPull(s: real, x: real, k: real)
    requires 0.0 <= x < 1.0 && k + 1.0 <= s
    ensures Lever(s, x + k) - Lever(s, 1.0 - x + k) == (2.0 * x - 1.0) * (s - 1.0 - 2.0 * k)
  {
    InsideLever(s, x + k);
    InsideLever(s, 1.0 - x + k);
    hide Lever;
    PairPolynomial(s, x, k);
  }

  lemma PairPolynomial(s: real, x: real, k: real)
    ensures (x + k) * (s - (x + k)) - (1.0 - x + k) * (s - (1.0 - x + k)) == (2.0 * x - 1.0) * (s - 1.0 - 2.0 * k)
  {
  }

  lemma PairStep(s: real, a: real, n: real)
    ensures a * ((n + 1.0) * s - (n + 1.0) * (n + 1.0)) == a * (n * s - n * n) + a * (s - 1.0 - 2.0 * n)
  {
  }

  // ---------------------------------------------------------------------------
  // The balance
  // ---------------------------------------------------------------------------

  /** Where the pixels pull to the right and to the left alike: the first middle of a pixel at or right of the center
      is `x` away, and the half width is `n` and `rest`. */
  predicate IsBalanced(n: int, rest: real, x: real) {
    || rest == 0.0 || x == 0.0 || x == 0.5
    || (x < rest <= 1.0 - x && x == (2 * n + 1) as real * rest - n as real)
    || (1.0 - x < rest <= x && 1.0 - x == (2 * n + 1) as real * rest - n as real)
  }

  lemma ZeroProduct(a: real, b: real)
    ensures a * b == 0.0 <==> a == 0.0 || b == 0.0
  {
  }

  /** One pair of pixels may have one partner inside the half width and one outside. */
  lemma LastPull(s: real, n: nat, rest: real, x: real)
    requires s == n as real + rest && 0.0 <= rest < 1.0 && 0.0 <= x <= 1.0
    ensures Lever(s, x + n as real) == if x < rest then (x + n as real) * (rest - x) else 0.0
  {
  }

  /** The pull to the right less the pull to the left. */
  function Imbalance(n: real, rest: real, x: real): real {
    (2.0 * x - 1.0) * (n * rest) + (if x < rest then (x + n) * (rest - x) else 0.0)
      - if 1.0 - x < rest then (1.0 - x + n) * (rest - (1.0 - x)) else 0.0
  }

  lemma PolynomialRight(n: real, rest: real, x: real)
    ensures (2.0 * x - 1.0) * (n * rest) + (x + n) * (rest - x) == x * ((2.0 * n + 1.0) * rest - n - x)
  {
  }

  lemma PolynomialLeft(n: real, rest: real, x: real)
    ensures (2.0 * x - 1.0) * (n * rest) - (1.0 - x + n) * (rest - (1.0 - x))
            == -((1.0 - x) * ((2.0 * n + 1.0) * rest - n - (1.0 - x)))
  {
  }

  lemma PolynomialBoth(n: real, rest: real, x: real)
    ensures (2.0 * x - 1.0) * (n * rest) + (x + n) * (rest - x) - (1.0 - x + n) * (rest - (1.0 - x))
            == (2.0 * x - 1.0) * ((n + 1.0) * (rest - 1.0))
  {
  }

  lemma ImbalanceBoth(n: real, rest: real, x: real)
    requires n >= 1.0 && rest < 1.0 && x < rest && 1.0 - x < rest
    ensures Imbalance(n, rest, x) == 0.0 <==> x == 0.5
  {
    PolynomialBoth(n, rest, x);
    ZeroProduct(2.0 * x - 1.0, (n + 1.0) * (rest - 1.0));
    ZeroProduct(n + 1.0, rest - 1.0);
  }

  lemma ImbalanceRight(n: real, rest: real, x: real)
    requires x < rest && !(1.0 - x < rest)
    ensures Imbalance(n, rest, x) == 0.0 <==> x == 0.0 || x == (2.0 * n + 1.0) * rest - n
  {
    PolynomialRight(n, rest, x);
    ZeroProduct(x, (2.0 * n + 1.0) * rest - n - x);
  }

  lemma ImbalanceLeft(n: real, rest: real, x: real)
    requires x < 1.0 && !(x < rest) && 1.0 - x < rest
    ensures Imbalance(n, rest, x) == 0.0 <==> 1.0 - x == (2.0 * n + 1.0) * rest - n
  {
    PolynomialLeft(n, rest, x);
    ZeroProduct(1.0 - x, (2.0 * n + 1.0) * rest - n - (1.0 - x));
  }

  lemma ImbalanceNone(n: real, rest: real, x: real)
    requires n >= 1.0 && !(x < rest) && !(1.0 - x < rest)
    ensures Imbalance(n, rest, x) == 0.0 <==> x == 0.5 || rest == 0.0
  {
    ZeroProduct(2.0 * x - 1.0, n * rest);
    ZeroProduct(n, rest);
  }

  lemma ImbalanceIff(n: nat, rest: real, x: real)
    requires n >= 1 && 0.0 <= rest < 1.0 && 0.0 <= x < 1.0
    ensures Imbalance(n as real, rest, x) == 0.0 <==> IsBalanced(n, rest, x)
  {
    hide Imbalance;
    assert (2 * n + 1) as real == 2.0 * n as real + 1.0;
    if x < rest && 1.0 - x < rest {
      ImbalanceBoth(n as real, rest, x);
    } else if x < rest {
      ImbalanceRight(n as real, rest, x);
    } else if 1.0 - x < rest {
      ImbalanceLeft(n as real, rest, x);
    } else {
      ImbalanceNone(n as real, rest, x);
    }
  }

  lemma PairSum(s: real, n: real, rest: real)
    requires s == n + rest
    ensures n * s - n * n == n * rest
  {
  }

  lemma LeversDiffer(s: real, n: nat, rest: real, x: real)
    requires n >= 1 && s == n as real + rest && 0.0 <= rest < 1.0 && 0.0 <= x < 1.0
    ensures Levers(s, x, n + 1) - Levers(s, 1.0 - x, n + 1) == Imbalance(n as real, rest, x)
  {
    hide Lever, Levers;
    LeverPairs(s, x, n);
    LastPull(s, n, rest, x);
    LastPull(s, n, rest, 1.0 - x);
    LeversStep(s, x, n + 1);
    LeversStep(s, 1.0 - x, n + 1);
    PairSum(s, n as real, rest);
  }

  lemma BalanceIff(s: real, n: nat, rest: real, x: real)
    requires n >= 1 && s == n as real + rest && 0.0 <= rest < 1.0 && 0.0 <= x < 1.0
    ensures Levers(s, x, n + 1) == Levers(s, 1.0 - x, n + 1) <==> IsBalanced(n, rest, x)
  {
    hide *;
    LeversDiffer(s, n, rest, x);
    ImbalanceIff(n, rest, x);
  }

  /** The first pixel whose middle is at or right of `c`. */
  function FirstRight(c: real): (q: int)
    ensures 0.0 <= q as real + 0.5 - c < 1.0
  {
    -((0.5 - c).Floor)
  }

  lemma MomentIff(c: real, s: real, input: nat)
    requires s >= 1.0 && c - s >= 0.0 && c + s <= input as real
    ensures var q, n := FirstRight(c), s.Floor;
            KernelSum(c, s, input, Offset(c)) == 0.0 <==> IsBalanced(n, s - n as real, q as real + 0.5 - c)
  {
    hide *;
    var q: nat, n: nat := FirstRight(c), s.Floor;
    var x, rest := q as real + 0.5 - c, s - n as real;
    var right: nat := input - q;
    LeftMoment(c, s, q, q, 1.0 - x);
    RightMoment(c, s, q, right, x);
    assert q + right == input && q - q == 0;
    NoLevers(s, 1.0 - x);
    SameEnd(s, x, right, n + 1);
    SameEnd(s, 1.0 - x, q, n + 1);
    BalanceIff(s, n, rest, x);
    ScaledZero(KernelSum(c, s, input, Offset(c)), s);
  }

  lemma NoLevers(s: real, x: real)
    ensures Levers(s, x, 0) == 0.0
  {
  }

  lemma ScaledZero(a: real, s: real)
    requires s > 0.0
    ensures Scaled(a, s) == 0.0 <==> a == 0.0
  {
    ZeroProduct(a, s);
  }

  lemma SameEnd(s: real, x: real, a: nat, b: nat)
    requires x + a as real >= s && x + b as real >= s
    ensures Levers(s, x, a) == Levers(s, x, b)
  {
    if a <= b {
      LeversEnd(s, x, a, b);
    } else {
      LeversEnd(s, x, b, a);
    }
  }

  lemma MeanIff(a: real, total: real, c: real)
    requires total > 0.0
    ensures a / total == c <==> a == Scaled(total, c)
  {
    var mean := a / total;
    assert mean * total == a;
    if a == Scaled(total, c) {
      Cancel(mean, c, total);
    }
  }

  /** At an output position whose triangle lies inside the source, the mean position of the source pixels under the
      triangle is its center exactly if the pixels are balanced there. */
  lemma CenterOfMassIff(input: nat, output: nat, o: nat)
    requires input > 0 && o < output
    requires var c, s := SourceCenter(input, output, o), HalfWidth(input, output);
             c - s >= 0.0 && c + s <= input as real
    ensures var c, s := SourceCenter(input, output, o), HalfWidth(input, output);
            var n := s.Floor;
            && KernelSum(c, s, input, One()) > 0.0
            && (TriangleMean(c, s, input, Middle()) == c
                <==> IsBalanced(n, s - n as real, FirstRight(c) as real + 0.5 - c))
  {
    KernelPositive(input, output, o);
    var c, s := SourceCenter(input, output, o), HalfWidth(input, output);
    hide SourceCenter, HalfWidth, KernelSum, IsBalanced, Scaled;
    MomentIff(c, s, input);
    OffsetSum(c, s, input);
    MeanIff(KernelSum(c, s, input, Middle()), KernelSum(c, s, input, One()), c);
  }

  lemma WholeScale(input: nat, output: nat)
    requires output > 0 && (input <= output || input % output == 0)
    ensures var s := HalfWidth(input, output); s.Floor as real == s
  {
    var scale := input as real / output as real;
    if input > output {
      var q := input / output;
      assert input == q * output;
      ProductAsReal(q, output);
      assert scale * output as real == input as real;
      Cancel(scale, q as real, output as real);
    } else {
      assert scale * output as real == input as real;
      if scale > 1.0 {
        TimesLess(1.0, scale, output as real);
      }
    }
  }

  /** When a source is enlarged or reduced by a whole factor, every such mean position is exact. */
  lemma WholeScaleIsCentered(input: nat, output: nat, o: nat)
    requires input > 0 && o < output && (input <= output || input % output == 0)
    requires var c, s := SourceCenter(input, output, o), HalfWidth(input, output);
             c - s >= 0.0 && c + s <= input as real
    ensures var c, s := SourceCenter(input, output, o), HalfWidth(input, output);
            KernelSum(c, s, input, One()) > 0.0 && TriangleMean(c, s, input, Middle()) == c
  {
    CenterOfMassIff(input, output, o);
    WholeScale(input, output);
  }

  /** From six pixels to four the second one is off its place. */
  lemma SixToFourIsOff()
    ensures var c, s := SourceCenter(6, 4, 1), HalfWidth(6, 4);
            && c == 2.25 && s == 1.5 && KernelSum(c, s, 6, One()) > 0.0
            && TriangleMean(c, s, 6, Middle()) != c
  {
    assert SourceCenter(6, 4, 1) == 2.25 && HalfWidth(6, 4) == 1.5;
    CenterOfMassIff(6, 4, 1);
    assert FirstRight(2.25) == 2 && (1.5).Floor == 1;
  }
}
