/** The iterative in-place radix-2 FFT of the mel frontend, over exact complex arithmetic: bit
    reversal followed by the butterfly stages computes the discrete Fourier transform. */
module Fft {
  import opened Arithmetic

  // ---------------------------------------------------------------------------
  // Complex arithmetic
  // ---------------------------------------------------------------------------

  datatype Complex = Complex(re: real, im: real)

  const ZERO := Complex(0.0, 0.0)
  const ONE := Complex(1.0, 0.0)

  function Add(a: Complex, b: Complex): Complex { Complex(a.re + b.re, a.im + b.im) }
  function Sub(a: Complex, b: Complex): Complex { Complex(a.re - b.re, a.im - b.im) }
  function Mul(a: Complex, b: Complex): Complex { Complex(a.re * b.re - a.im * b.im, a.re * b.im + a.im * b.re) }
  function Neg(a: Complex): Complex { Complex(-a.re, -a.im) }

  lemma AddAssoc(a: Complex, b: Complex, c: Complex)
    ensures Add(Add(a, b), c) == Add(a, Add(b, c))
  {
  }

  /** (a + b) + (c + d) == (a + c) + (b + d) */
  lemma AddSwap(a: Complex, b: Complex, c: Complex, d: Complex)
    ensures Add(Add(a, b), Add(c, d)) == Add(Add(a, c), Add(b, d))
  {
  }

  lemma MulComm(a: Complex, b: Complex)
    ensures Mul(a, b) == Mul(b, a)
  {
  }

  lemma MulAssoc(a: Complex, b: Complex, c: Complex)
    ensures Mul(Mul(a, b), c) == Mul(a, Mul(b, c))
  {
    TripleProducts(a.re, b.re, c.re, a.im, b.im, c.im);
    TripleProducts(a.re, b.re, c.im, a.im, b.im, -c.re);
  }

  lemma TripleProducts(ar: real, br: real, cr: real, ai: real, bi: real, ci: real)
    ensures (ar * br - ai * bi) * cr - (ar * bi + ai * br) * ci == ar * (br * cr - bi * ci) - ai * (br * ci + bi * cr)
  {
    assert (ar * br - ai * bi) * cr == ar * (br * cr) - ai * (bi * cr);
    assert (ar * bi + ai * br) * ci == ar * (bi * ci) + ai * (br * ci);
  }

  lemma MulAdd(a: Complex, b: Complex, c: Complex)
    ensures Mul(a, Add(b, c)) == Add(Mul(a, b), Mul(a, c))
  {
  }

  lemma MulUnits(a: Complex)
    ensures Mul(ONE, a) == a && Mul(a, ONE) == a && Mul(a, ZERO) == ZERO
    ensures Mul(Neg(ONE), a) == Neg(a) && Mul(a, Neg(ONE)) == Neg(a)
    ensures Add(ZERO, a) == a && Add(a, ZERO) == a
  {
  }

  function Pow(w: Complex, n: nat): Complex {
    if n == 0 then ONE else Mul(Pow(w, n - 1), w)
  }

  lemma {:induction false} PowAdd(w: Complex, m: nat, n: nat)
    ensures Pow(w, m + n) == Mul(Pow(w, m), Pow(w, n))
  {
    hide Mul;
    if n == 0 {
      MulUnits(Pow(w, m));
    } else {
      PowAdd(w, m, n - 1);
      MulAssoc(Pow(w, m), Pow(w, n - 1), w);
    }
  }

  /** Powers of a root of unity only depend on the exponent up to multiples of its order. */
  lemma {:induction false} PowPeriod(w: Complex, order: nat, e: nat, times: nat)
    requires Pow(w, order) == ONE
    ensures Pow(w, e + order * times) == Pow(w, e)
  {
    hide Mul, Pow;
    if times > 0 {
      var before := e + order * (times - 1);
      TimesSucc(order, times);
      PowPeriod(w, order, e, times - 1);
      PowAdd(w, before, order);
      MulUnits(Pow(w, e));
    } else {
      assert order * times == 0;
    }
  }

  lemma TimesSucc(a: int, n: int)
    ensures a * n == a * (n - 1) + a
  {
  }

  // ---------------------------------------------------------------------------
  // The transform and its even/odd split
  // ---------------------------------------------------------------------------

  function At(x: seq<Complex>, i: nat): Complex {
    if i < |x| then x[i] else ZERO
  }

  ghost function Term(x: seq<Complex>, w: Complex, first: nat, stride: nat, i: nat, k: nat): Complex {
    Mul(At(x, first + i * stride), Pow(w, stride * i * k))
  }

  /** x[first] + x[first + stride] w^(stride k) + x[first + 2 stride] w^(2 stride k) + ..., `n` terms. */
  ghost function Sum(x: seq<Complex>, w: Complex, first: nat, stride: nat, n: nat, k: nat): Complex {
    if n == 0 then ZERO else Add(Sum(x, w, first, stride, n - 1, k), Term(x, w, first, stride, n - 1, k))
  }

  /** The k-th coefficient of the discrete Fourier transform of `x` with root `w`. */
  ghost function Dft(x: seq<Complex>, w: Complex, k: nat): Complex {
    Sum(x, w, 0, 1, |x|, k)
  }

  lemma SplitExponents(first: nat, st: nat, n: nat, k: nat)
    requires n > 0
    ensures first + (2 * n - 2) * st == first + (n - 1) * (2 * st)
    ensures first + (2 * n - 1) * st == first + st + (n - 1) * (2 * st)
    ensures st * (2 * n - 2) * k == (2 * st) * (n - 1) * k
    ensures st * (2 * n - 1) * k == st * k + (2 * st) * (n - 1) * k
  {
    assert st * (2 * n - 2) == (2 * st) * (n - 1);
    assert st * (2 * n - 1) == st + (2 * st) * (n - 1);
  }

  /** Even-indexed terms plus w^(stride k) times the odd-indexed ones. */
  lemma {:induction false} SplitEvenOdd(x: seq<Complex>, w: Complex, first: nat, st: nat, n: nat, k: nat)
    ensures Sum(x, w, first, st, 2 * n, k) ==
            Add(Sum(x, w, first, 2 * st, n, k), Mul(Pow(w, st * k), Sum(x, w, first + st, 2 * st, n, k)))
  {
    hide Add, Mul, Pow, At;
    var t := Pow(w, st * k);
    if n == 0 {
      MulUnits(t);
      MulUnits(ZERO);
    } else {
      var even, odd := Sum(x, w, first, 2 * st, n - 1, k), Sum(x, w, first + st, 2 * st, n - 1, k);
      var a, b := Term(x, w, first, st, 2 * n - 2, k), Term(x, w, first, st, 2 * n - 1, k);
      var c := Term(x, w, first + st, 2 * st, n - 1, k);
      SplitEvenOdd(x, w, first, st, n - 1, k);
      SplitExponents(first, st, n, k);
      assert a == Term(x, w, first, 2 * st, n - 1, k);
      OddTerm(At(x, first + (2 * n - 1) * st), w, st * k, (2 * st) * (n - 1) * k);
      assert b == Mul(t, c);
      assert Sum(x, w, first, st, 2 * n, k) == Add(Add(Sum(x, w, first, st, 2 * n - 2, k), a), b);
      AddAssoc(Add(even, Mul(t, odd)), a, b);
      AddSwap(even, Mul(t, odd), a, b);
      MulAdd(t, odd, c);
    }
  }

  lemma OddTerm(v: Complex, w: Complex, e: nat, f: nat)
    ensures Mul(v, Pow(w, e + f)) == Mul(Pow(w, e), Mul(v, Pow(w, f)))
  {
    hide Mul, Pow;
    var p, q := Pow(w, e), Pow(w, f);
    PowAdd(w, e, f);
    MulAssoc(v, p, q);
    MulComm(v, p);
    MulAssoc(p, v, q);
  }

  /** Half a period further the sums over every second sample repeat. */
  lemma {:induction false} SumPeriod(x: seq<Complex>, w: Complex, first: nat, st: nat, half: nat, n: nat, k: nat)
    requires Pow(w, st * half) == ONE
    ensures Sum(x, w, first, st, n, k + half) == Sum(x, w, first, st, n, k)
  {
    hide Add, Mul, Pow, At;
    if n > 0 {
      SumPeriod(x, w, first, st, half, n - 1, k);
      PeriodExponent(st, half, n - 1, k);
      PowPeriod(w, st * half, st * (n - 1) * k, n - 1);
    }
  }

  lemma PeriodExponent(st: nat, half: nat, i: nat, k: nat)
    ensures st * i * (k + half) == st * i * k + (st * half) * i
  {
    assert (st * i) * half == (st * half) * i;
  }

  // ---------------------------------------------------------------------------
  // Bit reversal
  // ---------------------------------------------------------------------------

  function Pow2(n: nat): (r: nat)
    ensures r > 0
  {
    if n == 0 then 1 else 2 * Pow2(n - 1)
  }

  lemma {:induction false} Pow2Add(m: nat, n: nat)
    ensures Pow2(m + n) == Pow2(m) * Pow2(n)
  {
    if n > 0 {
      Pow2Add(m, n - 1);
      assert Pow2(m) * Pow2(n) == 2 * (Pow2(m) * Pow2(n - 1));
    }
  }

  /** The low `b` bits of `i` in reverse order. */
  function Rev(i: nat, b: nat): (r: nat)
    ensures r < Pow2(b)
  {
    if b == 0 then 0 else Rev(i / 2, b - 1) + if i % 2 == 1 then Pow2(b - 1) else 0
  }

  /** (i >> b) & 1 */
  function Bit(i: nat, b: nat): (r: nat)
    ensures r < 2
  {
    if b == 0 then i % 2 else Bit(i / 2, b - 1)
  }

  /** Reversing one bit more appends the next higher bit at the bottom. */
  lemma {:induction false} RevHigh(i: nat, b: nat)
    ensures Rev(i, b + 1) == 2 * Rev(i, b) + Bit(i, b)
  {
    if b == 0 {
      assert Rev(i, 1) == Rev(i / 2, 0) + if i % 2 == 1 then Pow2(0) else 0;
    } else {
      RevHigh(i / 2, b - 1);
    }
  }

  /** A number with its bit `b` set: reversing the low bits ignores it, reading the bit finds it. */
  lemma {:induction false} TopBit(top: bool, low: nat, b: nat)
    requires low < Pow2(b)
    ensures var j := low + if top then Pow2(b) else 0;
            Rev(j, b) == Rev(low, b) && Bit(j, b) == if top then 1 else 0
  {
    if b > 0 {
      var j := low + if top then Pow2(b) else 0;
      assert j % 2 == low % 2 && j / 2 == low / 2 + if top then Pow2(b - 1) else 0;
      TopBit(top, low / 2, b - 1);
    }
  }

  /** Bit reversal is an involution. */
  lemma {:induction false} RevInvolution(i: nat, b: nat)
    requires i < Pow2(b)
    ensures Rev(Rev(i, b), b) == i
  {
    if b > 0 {
      var low := Rev(i / 2, b - 1);
      RevHigh(Rev(i, b), b - 1);
      TopBit(i % 2 == 1, low, b - 1);
      RevInvolution(i / 2, b - 1);
    }
  }

  /** Children of block `q` in the recursion: the even and the odd sub-sequence. */
  lemma RevChildren(q: nat, t: nat)
    requires t > 0
    ensures Rev(2 * q, t) == Rev(q, t - 1) && Rev(2 * q + 1, t) == Pow2(t - 1) + Rev(q, t - 1)
  {
    var even, odd := 2 * q, 2 * q + 1;
    assert even % 2 == 0 && even / 2 == q && odd % 2 == 1 && odd / 2 == q;
    assert Rev(even, t) == Rev(q, t - 1);
    assert Rev(odd, t) == Rev(q, t - 1) + Pow2(t - 1);
  }

  // ---------------------------------------------------------------------------
  // One butterfly stage
  // ---------------------------------------------------------------------------

  /** The w^j of the table, w^(n/2) = -1. */
  ghost predicate RootTables(cos: seq<real>, sin: seq<real>, w: Complex, half: nat) {
    && |cos| == |sin| == half
    && Pow(w, half) == Neg(ONE)
    && forall m :: 0 <= m < half ==> Complex(cos[m], -sin[m]) == Pow(w, m)
  }

  lemma SquareOfMinusI(w: Complex)
    requires w.re == 0.0 && w.im == -1.0
    ensures Mul(w, w) == Neg(ONE)
  {
  }

  lemma FirstPowers(w: Complex)
    ensures Pow(w, 0) == ONE && Pow(w, 1) == w && Pow(w, 2) == Mul(w, w)
  {
    MulUnits(w);
    hide Mul;
    assert Pow(w, 1) == Mul(Pow(w, 0), w);
    assert Pow(w, 2) == Mul(Pow(w, 1), w);
  }

  /** There are such tables over exact numbers: those of the four-point transform, 1 and -i. */
  lemma FourPointTables(cos: seq<real>, sin: seq<real>, w: Complex)
    requires |cos| == |sin| == 2 && w.re == 0.0 && w.im == -1.0
    requires cos[0] == 1.0 && sin[0] == 0.0 && cos[1] == 0.0 && sin[1] == 1.0
    ensures RootTables(cos, sin, w, 2)
  {
    hide Pow, Mul;
    FirstPowers(w);
    SquareOfMinusI(w);
    forall m | 0 <= m < 2 ensures Complex(cos[m], -sin[m]) == Pow(w, m) {
      if m == 0 {
        assert -sin[0] == 0.0;
      } else {
        assert m == 1 && -sin[1] == -1.0;
      }
    }
  }

  /** Entry `k` of block `p` of size 2^s is a coefficient of the transform of the sub-sequence that
      starts at the reversed block number and takes every 2^(bits - s)-th sample. */
  ghost predicate BlockValue(z: seq<Complex>, x: seq<Complex>, w: Complex, bits: nat, s: nat, p: nat, k: nat)
    requires s <= bits
  {
    At(z, p * Pow2(s) + k) == Sum(x, w, Rev(p, bits - s), Pow2(bits - s), Pow2(s), k)
  }

  ghost predicate StageDone(z: seq<Complex>, x: seq<Complex>, w: Complex, bits: nat, s: nat)
    requires s <= bits
  {
    forall p: nat, k: nat :: p < Pow2(bits - s) && k < Pow2(s) ==> BlockValue(z, x, w, bits, s, p, k)
  }

  /** The index of the twiddle factor of pair `k`. */
  function Twiddle(k: nat, step: nat): nat {
    k * step
  }

  ghost predicate ButterflyAt(z: seq<Complex>, z': seq<Complex>, w: Complex, half: nat, step: nat, base: nat, k: nat) {
    var x := Mul(At(z, base + k + half), Pow(w, Twiddle(k, step)));
    && At(z', base + k) == Add(At(z, base + k), x)
    && At(z', base + k + half) == Sub(At(z, base + k), x)
  }

  ghost predicate Butterflied(z: seq<Complex>, z': seq<Complex>, w: Complex, half: nat, step: nat) {
    forall q: nat, k: nat :: q < step && k < half ==> ButterflyAt(z, z', w, half, step, q * (2 * half), k)
  }

  /** The lower and upper coefficient of a block from those of its two half-size blocks. */
  lemma ButterflyIsSplit(x: seq<Complex>, w: Complex, first: nat, st: nat, half: nat, k: nat)
    requires Pow(w, st * half) == Neg(ONE)
    ensures var e := Sum(x, w, first, 2 * st, half, k);
            var o := Mul(Sum(x, w, first + st, 2 * st, half, k), Pow(w, k * st));
            && Sum(x, w, first, st, 2 * half, k) == Add(e, o)
            && Sum(x, w, first, st, 2 * half, k + half) == Sub(e, o)
  {
    var e, odd, t := Sum(x, w, first, 2 * st, half, k), Sum(x, w, first + st, 2 * st, half, k), Pow(w, st * k);
    SplitEvenOdd(x, w, first, st, half, k);
    SplitEvenOdd(x, w, first, st, half, k + half);
    FullTurn(w, st, half);
    SumPeriod(x, w, first, 2 * st, half, half, k);
    SumPeriod(x, w, first + st, 2 * st, half, half, k);
    HalfTurn(w, st, half, k);
    MulComm(odd, t);
    NegMul(t, odd);
    AddNeg(e, Mul(t, odd));
  }

  lemma DoubleProduct(a: nat, b: nat)
    ensures (2 * a) * b == a * b + a * b
  {
  }

  lemma SumProduct(a: nat, b: nat, c: nat)
    ensures a * (b + c) == a * b + a * c
  {
  }

  lemma SquareOfMinusOne(w: Complex, e: nat)
    requires Pow(w, e) == Neg(ONE)
    ensures Pow(w, e + e) == ONE
  {
    hide Pow;
    PowAdd(w, e, e);
  }

  lemma ShiftByMinusOne(w: Complex, e: nat, f: nat)
    requires Pow(w, f) == Neg(ONE)
    ensures Pow(w, e + f) == Neg(Pow(w, e))
  {
    hide Mul, Pow, Neg;
    PowAdd(w, e, f);
    MulUnits(Pow(w, e));
  }

  lemma FullTurn(w: Complex, st: nat, half: nat)
    requires Pow(w, st * half) == Neg(ONE)
    ensures Pow(w, (2 * st) * half) == ONE
  {
    hide Mul, Pow, Neg;
    DoubleProduct(st, half);
    SquareOfMinusOne(w, st * half);
  }

  lemma HalfTurn(w: Complex, st: nat, half: nat, k: nat)
    requires Pow(w, st * half) == Neg(ONE)
    ensures Pow(w, st * (k + half)) == Neg(Pow(w, st * k))
  {
    hide Mul, Pow, Neg;
    SumProduct(st, k, half);
    ShiftByMinusOne(w, st * k, st * half);
  }

  lemma NegMul(a: Complex, b: Complex)
    ensures Mul(Neg(a), b) == Neg(Mul(a, b))
  {
  }

  lemma AddNeg(a: Complex, b: Complex)
    ensures Add(a, Neg(b)) == Sub(a, b)
  {
  }

  lemma ChildBlocks(q: nat, half: nat, k: nat)
    ensures (2 * q) * half + k == q * (2 * half) + k
    ensures (2 * q + 1) * half + k == q * (2 * half) + k + half
    ensures q * (2 * half) + (k + half) == q * (2 * half) + k + half
  {
  }

  /** The two half-size blocks hold the transforms of the even and the odd samples. */
  lemma ChildValues(z: seq<Complex>, x: seq<Complex>, w: Complex, bits: nat, s: nat, q: nat, k: nat)
    requires s < bits && q < Pow2(bits - s - 1) && k < Pow2(s)
    requires StageDone(z, x, w, bits, s)
    ensures var half, st := Pow2(s), Pow2(bits - s - 1);
            var first := Rev(q, bits - s - 1);
            && At(z, q * (2 * half) + k) == Sum(x, w, first, 2 * st, half, k)
            && At(z, q * (2 * half) + k + half) == Sum(x, w, first + st, 2 * st, half, k)
  {
    hide Sum, Rev, Mul, Pow, At;
    RevChildren(q, bits - s);
    assert BlockValue(z, x, w, bits, s, 2 * q, k) && BlockValue(z, x, w, bits, s, 2 * q + 1, k);
    ChildBlocks(q, Pow2(s), k);
  }

  /** A butterfly turns the two half-size transforms of a block into the transform of the block. */
  lemma ButterflyJoins(z: seq<Complex>, z': seq<Complex>, x: seq<Complex>, w: Complex, first: nat, st: nat, half: nat,
                       base: nat, k: nat)
    requires Pow(w, st * half) == Neg(ONE)
    requires At(z, base + k) == Sum(x, w, first, 2 * st, half, k)
    requires At(z, base + k + half) == Sum(x, w, first + st, 2 * st, half, k)
    requires ButterflyAt(z, z', w, half, st, base, k)
    ensures At(z', base + k) == Sum(x, w, first, st, 2 * half, k)
    ensures At(z', base + k + half) == Sum(x, w, first, st, 2 * half, k + half)
  {
    hide Sum, Add, Sub, Mul, Pow, At;
    ButterflyIsSplit(x, w, first, st, half, k);
  }

  lemma HalfSizes(bits: nat, s: nat)
    requires s < bits
    ensures Pow2(s + 1) == 2 * Pow2(s) && Pow2(s) * Pow2(bits - s - 1) == Pow2(bits - 1)
  {
    Pow2Add(bits - s - 1, s);
  }

  lemma StageStepAt(z: seq<Complex>, z': seq<Complex>, x: seq<Complex>, w: Complex, bits: nat, s: nat, q: nat, k: nat)
    requires s < bits && q < Pow2(bits - s - 1) && k < Pow2(s)
    requires StageDone(z, x, w, bits, s) && Pow(w, Pow2(bits - 1)) == Neg(ONE)
    requires ButterflyAt(z, z', w, Pow2(s), Pow2(bits - s - 1), q * (2 * Pow2(s)), k)
    ensures BlockValue(z', x, w, bits, s + 1, q, k) && BlockValue(z', x, w, bits, s + 1, q, k + Pow2(s))
  {
    hide *;
    var half, st, base, first := Pow2(s), Pow2(bits - s - 1), q * (2 * Pow2(s)), Rev(q, bits - s - 1);
    HalfSizes(bits, s);
    ChildValues(z, x, w, bits, s, q, k);
    ButterflyJoins(z, z', x, w, first, st, half, base, k);
    BlockValueIs(z', x, w, bits, s + 1, q, k, base);
    BlockValueIs(z', x, w, bits, s + 1, q, k + half, base);
  }

  lemma BlockValueIs(z: seq<Complex>, x: seq<Complex>, w: Complex, bits: nat, s: nat, p: nat, k: nat, base: nat)
    requires s <= bits && base == p * Pow2(s)
    ensures BlockValue(z, x, w, bits, s, p, k) <==>
            At(z, base + k) == Sum(x, w, Rev(p, bits - s), Pow2(bits - s), Pow2(s), k)
  {
    hide Pow2, At, Sum, Rev;
  }

  lemma StageStep(z: seq<Complex>, z': seq<Complex>, x: seq<Complex>, w: Complex, bits: nat, s: nat)
    requires s < bits
    requires StageDone(z, x, w, bits, s) && Pow(w, Pow2(bits - 1)) == Neg(ONE)
    requires Butterflied(z, z', w, Pow2(s), Pow2(bits - s - 1))
    ensures StageDone(z', x, w, bits, s + 1)
  {
    var half, next := Pow2(s), s + 1;
    forall q: nat, k: nat | q < Pow2(bits - next) && k < Pow2(next)
      ensures BlockValue(z', x, w, bits, next, q, k)
    {
      var k0 := if k < half then k else k - half;
      assert ButterflyAt(z, z', w, half, Pow2(bits - s - 1), q * (2 * half), k0);
      StageStepAt(z, z', x, w, bits, s, q, k0);
    }
  }

  // ---------------------------------------------------------------------------
  // The in-place algorithm
  // ---------------------------------------------------------------------------

  ghost function View(re: array<real>, im: array<real>): (z: seq<Complex>)
    requires re.Length == im.Length
    reads re, im
    ensures |z| == re.Length
  {
    seq(re.Length, i requires 0 <= i < re.Length reads re, im => Complex(re[i], im[i]))
  }

  /** The swap loop exchanged exactly the entries whose pair has an index below `i`. */
  ghost predicate SwappedBelow(z: seq<Complex>, x: seq<Complex>, bits: nat, i: nat)
    requires |z| == |x| == Pow2(bits)
  {
    forall p :: 0 <= p < |z| ==> z[p] == if p < i || Rev(p, bits) < i then x[Rev(p, bits)] else x[p]
  }

  lemma SwapStep(z: seq<Complex>, z': seq<Complex>, x: seq<Complex>, bits: nat, i: nat)
    requires |z| == |z'| == |x| == Pow2(bits) && i < |x|
    requires SwappedBelow(z, x, bits, i)
    requires z' == if Rev(i, bits) > i then z[i := z[Rev(i, bits)]][Rev(i, bits) := z[i]] else z
    ensures SwappedBelow(z', x, bits, i + 1)
  {
    forall p | 0 <= p < |x|
      ensures z'[p] == if p < i + 1 || Rev(p, bits) < i + 1 then x[Rev(p, bits)] else x[p]
    {
      RevInvolution(p, bits);
      RevInvolution(i, bits);
    }
  }

  lemma AppendBit(r: nat, bit: nat, p: nat)
    ensures r * (2 * p) + bit * p == (2 * r + bit) * p
  {
  }

  /** One table entry; the bits set so far are all above the one added. */
  method ReverseBits(i: nat, bits: nat) returns (r: nat)
    ensures r == Rev(i, bits)
  {
    r := 0;
    for b := 0 to bits
      invariant r == Rev(i, b) * Pow2(bits - b)
    {
      RevHigh(i, b);
      AppendBit(Rev(i, b), Bit(i, b), Pow2(bits - 1 - b));
      r := r + Bit(i, b) * Pow2(bits - 1 - b);
    }
  }

  /** Entries `a` and `b` become their sum and difference, `b` turned by `f`. */
  ghost function Combined(v: seq<Complex>, a: nat, b: nat, f: Complex): seq<Complex>
    requires a < |v| && b < |v|
  {
    v[a := Add(v[a], Mul(v[b], f))][b := Sub(v[a], Mul(v[b], f))]
  }

  /** Within a block the first `k` pairs are combined, every other entry is as it was in `z0`. */
  ghost predicate BlockDone(z: seq<Complex>, z0: seq<Complex>, v: seq<Complex>, w: Complex, half: nat, step: nat,
      base: nat, k: nat) {
    && |z| == |z0| == |v| && k <= half && base + 2 * half <= |z|
    && (forall i :: base <= i < base + 2 * half ==> z0[i] == z[i])
    && (forall j: nat :: j < k ==> ButterflyAt(z, v, w, half, step, base, j))
    && (forall i :: 0 <= i < |v| && !(base <= i < base + k) && !(base + half <= i < base + half + k) ==> v[i] == z0[i])
  }

  lemma BlockStep(z: seq<Complex>, z0: seq<Complex>, v: seq<Complex>, v': seq<Complex>, w: Complex,
                  half: nat, step: nat, base: nat, k: nat)
    requires BlockDone(z, z0, v, w, half, step, base, k) && k < half
    requires base + k + half < |v| && v' == Combined(v, base + k, base + k + half, Pow(w, Twiddle(k, step)))
    ensures BlockDone(z, z0, v', w, half, step, base, k + 1)
  {
    hide Mul, Pow, Add, Sub;
    forall j: nat | j < k + 1 ensures ButterflyAt(z, v', w, half, step, base, j) {
      if j < k {
        assert ButterflyAt(z, v, w, half, step, base, j);
      }
    }
  }

  /** The first `q` blocks are combined, the others untouched. */
  ghost predicate BlocksDone(z: seq<Complex>, v: seq<Complex>, w: Complex, half: nat, step: nat, q: nat) {
    && |v| == |z| == step * (2 * half) && q <= step
    && (forall p: nat, k: nat :: p < q && k < half ==> ButterflyAt(z, v, w, half, step, p * (2 * half), k))
    && (forall i :: q * (2 * half) <= i < |z| ==> v[i] == z[i])
  }

  lemma BlocksStart(z: seq<Complex>, w: Complex, half: nat, step: nat)
    requires |z| == step * (2 * half)
    ensures BlocksDone(z, z, w, half, step, 0)
  {
  }

  lemma BlocksAhead(z: seq<Complex>, v: seq<Complex>, w: Complex, half: nat, step: nat, q: nat, base: nat)
    requires BlocksDone(z, v, w, half, step, q)
    requires base == q * (2 * half) && base + 2 * half <= |z|
    ensures BlockDone(z, v, v, w, half, step, base, 0)
  {
  }

  lemma BlocksEnd(z: seq<Complex>, v: seq<Complex>, w: Complex, half: nat, step: nat)
    requires BlocksDone(z, v, w, half, step, step)
    ensures Butterflied(z, v, w, half, step)
  {
  }

  lemma BlocksStep(z: seq<Complex>, v: seq<Complex>, v': seq<Complex>, w: Complex, half: nat, step: nat, q: nat)
    requires BlocksDone(z, v, w, half, step, q) && q < step
    requires BlockDone(z, v, v', w, half, step, q * (2 * half), half)
    ensures BlocksDone(z, v', w, half, step, q + 1)
  {
    hide Mul, Pow, Add, Sub;
    var len := 2 * half;
    assert (q + 1) * len == q * len + len;
    forall p: nat, k: nat | p < q + 1 && k < half
      ensures ButterflyAt(z, v', w, half, step, p * (2 * half), k)
    {
      if p < q {
        assert ButterflyAt(z, v, w, half, step, p * (2 * half), k);
        MulGap(p, q, len);
      }
    }
  }

  /** kNFft is 2^9; the tables and the transform work for every power of two. */
  class FftTables {
    const bits: nat
    const size: nat
    var bitrev: seq<nat>
    var cos: seq<real>
    var sin: seq<real>

    ghost predicate Valid(w: Complex)
      reads this
    {
      && bits > 0 && size == Pow2(bits)
      && |bitrev| == size && (forall i :: 0 <= i < size ==> bitrev[i] == Rev(i, bits))
      && RootTables(cos, sin, w, Pow2(bits - 1))
    }

    /** The cosine and sine values are given; the bit-reversal table is built bit by bit. */
    constructor (bits: nat, cos: seq<real>, sin: seq<real>, ghost w: Complex)
      requires bits > 0 && RootTables(cos, sin, w, Pow2(bits - 1))
      ensures Valid(w) && this.bits == bits
    {
      hide Rev, Pow, Pow2;
      this.bits, this.cos, this.sin := bits, cos, sin;
      var n := Pow2(bits);
      size := n;
      var table: seq<nat> := [];
      for i := 0 to n
        invariant |table| == i && forall j :: 0 <= j < i ==> table[j] == Rev(j, bits)
      {
        var r := ReverseBits(i, bits);
        table := table + [r];
      }
      bitrev := table;
    }

    method Permute(re: array<real>, im: array<real>, ghost w: Complex)
      requires Valid(w) && re != im && re.Length == im.Length == size
      modifies re, im
      ensures forall p :: 0 <= p < size ==> View(re, im)[p] == old(View(re, im))[Rev(p, bits)]
    {
      ghost var x := View(re, im);
      for i := 0 to size
        invariant SwappedBelow(View(re, im), x, bits, i)
      {
        ghost var z := View(re, im);
        var j := bitrev[i];
        if j > i {
          re[i], re[j] := re[j], re[i];
          im[i], im[j] := im[j], im[i];
        }
        assert View(re, im) == if Rev(i, bits) > i then z[i := z[Rev(i, bits)]][Rev(i, bits) := z[i]] else z;
        SwapStep(z, View(re, im), x, bits, i);
      }
    }

    /** One butterfly, turned by w^tw. */
    method Butterfly(re: array<real>, im: array<real>, a: nat, b: nat, tw: nat, ghost w: Complex)
      requires Valid(w) && re != im && re.Length == im.Length == size
      requires a < b < size && tw < Pow2(bits - 1)
      modifies re, im
      ensures View(re, im) == Combined(old(View(re, im)), a, b, Pow(w, tw))
    {
      hide Pow, Rev, Pow2;
      ghost var z := View(re, im);
      var wr, wi := cos[tw], -sin[tw];
      var xr := re[b] * wr - im[b] * wi;
      var xi := re[b] * wi + im[b] * wr;
      ghost var x := Complex(xr, xi);
      assert x == Mul(z[b], Pow(w, tw));
      re[b] := re[a] - xr;
      im[b] := im[a] - xi;
      re[a] := re[a] + xr;
      im[a] := im[a] + xi;
      assert View(re, im) == z[a := Add(z[a], x)][b := Sub(z[a], x)];
    }

    /** Pair `k` of a block. */
    method Pair(re: array<real>, im: array<real>, base: nat, half: nat, step: nat, k: nat,
                ghost w: Complex, ghost z: seq<Complex>, ghost z0: seq<Complex>)
      requires Valid(w) && re != im && re.Length == im.Length == size
      requires base + 2 * half <= size && step > 0 && Twiddle(half, step) == Pow2(bits - 1) && k < half
      requires BlockDone(z, z0, View(re, im), w, half, step, base, k)
      modifies re, im
      ensures BlockDone(z, z0, View(re, im), w, half, step, base, k + 1)
    {
      hide *;
      ghost var before := View(re, im);
      TwiddleInTable(k, half, step);
      Butterfly(re, im, base + k, base + k + half, Twiddle(k, step), w);
      BlockStep(z, z0, before, View(re, im), w, half, step, base, k);
    }

    /** The butterflies of one block of `2 * half` entries. */
    method Block(re: array<real>, im: array<real>, base: nat, half: nat, step: nat, ghost w: Complex,
        ghost z: seq<Complex>)
      requires Valid(w) && re != im && re.Length == im.Length == size
      requires base + 2 * half <= size && step > 0 && Twiddle(half, step) == Pow2(bits - 1)
      requires BlockDone(z, View(re, im), View(re, im), w, half, step, base, 0)
      modifies re, im
      ensures BlockDone(z, old(View(re, im)), View(re, im), w, half, step, base, half)
    {
      hide *;
      ghost var z0 := View(re, im);
      for k := 0 to half
        invariant BlockDone(z, z0, View(re, im), w, half, step, base, k)
      {
        Pair(re, im, base, half, step, k, w, z, z0);
      }
    }

    /** One pass over all blocks of length `len`. */
    method Stage(re: array<real>, im: array<real>, len: nat, ghost s: nat, ghost w: Complex, ghost x: seq<Complex>)
      requires Valid(w) && re != im && re.Length == im.Length == size
      requires s < bits && len == Pow2(s + 1)
      requires StageDone(View(re, im), x, w, bits, s)
      modifies re, im
      ensures StageDone(View(re, im), x, w, bits, s + 1)
    {
      ghost var z := View(re, im);
      var half, step := len / 2, size / len;
      StageSizes(bits, s);
      hide Pow, Rev, Pow2, StageDone, BlocksDone, BlockDone, View;
      BlocksStart(z, w, half, step);
      var base: nat := 0;
      ghost var q: nat := 0;
      while base < size
        invariant base == q * len && q <= step
        invariant BlocksDone(z, View(re, im), w, half, step, q)
        decreases step - q
      {
        ghost var before := View(re, im);
        NextBlockFits(q, step, len);
        BlocksAhead(z, before, w, half, step, q, base);
        Block(re, im, base, half, step, w, z);
        BlocksStep(z, before, View(re, im), w, half, step, q);
        base := base + len;
        q := q + 1;
      }
      NoBlockLeft(q, step, len);
      BlocksEnd(z, View(re, im), w, half, step);
      StageStep(z, View(re, im), x, w, bits, s);
    }

    /** The forward transform: every coefficient of the discrete Fourier transform, in order. */
    method Forward(re: array<real>, im: array<real>, ghost w: Complex)
      requires Valid(w) && re != im && re.Length == im.Length == size
      modifies re, im
      ensures var x := old(View(re, im)); forall k :: 0 <= k < size ==> View(re, im)[k] == Dft(x, w, k)
    {
      hide Pow, Rev, Sum, StageDone, Dft, RootTables, Mul, View;
      ghost var x := View(re, im);
      Permute(re, im, w);
      PermutedIsStageZero(View(re, im), x, w, bits);
      var len: nat := 2;
      ghost var s: nat := 0;
      while len <= size
        invariant s <= bits && len == Pow2(s + 1) && StageDone(View(re, im), x, w, bits, s)
        decreases bits - s
      {
        Pow2Mono(s + 1, bits);
        Stage(re, im, len, s, w, x);
        len := len * 2;
        s := s + 1;
      }
      Pow2Mono(s + 1, bits);
      LastStageIsDft(View(re, im), x, w, bits);
    }
  }

  lemma TwiddleInTable(k: nat, half: nat, step: nat)
    requires k < half && step > 0
    ensures Twiddle(k, step) < Twiddle(half, step)
  {
  }

  lemma NextBlockFits(q: nat, step: nat, len: nat)
    requires q * len < step * len
    ensures q < step && q * len + len <= step * len && q * len + len == (q + 1) * len
  {
    if step < q {
      MulGap(step, q, len);
    } else if q < step {
      MulGap(q, step, len);
    }
  }

  lemma NoBlockLeft(q: nat, step: nat, len: nat)
    requires q <= step && q * len >= step * len && len > 0
    ensures q == step
  {
    if q < step {
      MulGap(q, step, len);
    }
  }

  lemma StageSizes(bits: nat, s: nat)
    requires s < bits
    ensures Pow2(s + 1) / 2 == Pow2(s) && Pow2(bits) / Pow2(s + 1) == Pow2(bits - s - 1)
    ensures Pow2(bits) == Pow2(bits - s - 1) * Pow2(s + 1)
    ensures Pow2(s) * Pow2(bits - s - 1) == Pow2(bits - 1)
  {
    Pow2Add(bits - s - 1, s + 1);
    Pow2Add(s, bits - s - 1);
    var step, len := Pow2(bits - s - 1), Pow2(s + 1);
    assert len == 2 * Pow2(s);
    assert Pow2(bits) == step * len;
    hide Pow2;
    DivMod(step, 0, len);
  }

  lemma {:induction false} Pow2Mono(a: nat, b: nat)
    ensures a <= b <==> Pow2(a) <= Pow2(b)
  {
    if a > 0 && b > 0 {
      Pow2Mono(a - 1, b - 1);
    }
  }

  /** Single entries in reversed order are the transforms of the one-sample sub-sequences. */
  lemma PermutedIsStageZero(z: seq<Complex>, x: seq<Complex>, w: Complex, bits: nat)
    requires |z| == |x| == Pow2(bits)
    requires forall p :: 0 <= p < |z| ==> z[p] == x[Rev(p, bits)]
    ensures StageDone(z, x, w, bits, 0)
  {
    forall p: nat, k: nat | p < Pow2(bits - 0) && k < Pow2(0) ensures BlockValue(z, x, w, bits, 0, p, k) {
      MulUnits(x[Rev(p, bits)]);
    }
  }

  /** One block of full length holds the transform of the whole sequence. */
  lemma LastStageIsDft(z: seq<Complex>, x: seq<Complex>, w: Complex, bits: nat)
    requires |z| == |x| == Pow2(bits) && StageDone(z, x, w, bits, bits)
    ensures forall k :: 0 <= k < |z| ==> z[k] == Dft(x, w, k)
  {
    forall k | 0 <= k < |z| ensures z[k] == Dft(x, w, k) {
      assert BlockValue(z, x, w, bits, bits, 0, k);
    }
  }
}
