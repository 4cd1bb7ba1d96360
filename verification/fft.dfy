/**
 The in-place radix-2 FFT of the MilkDrop visualiser, in exact complex arithmetic.

 The cosine and sine that the program computes once per pass are an input here:
 `roots[s]` stands for the pair (cos, sin) of -2*pi/2^s.  The only fact the proof uses
 about them is the half-angle law, `roots[s+1]` squared is `roots[s]`, with `roots[1] == -1`.
 */
module Complex {
  datatype Complex = Complex(re: real, im: real)

  const ZERO := Complex(0.0, 0.0)
  const ONE := Complex(1.0, 0.0)

  function Add(a: Complex, b: Complex): Complex {
    Complex(a.re + b.re, a.im + b.im)
  }

  function Sub(a: Complex, b: Complex): Complex {
    Complex(a.re - b.re, a.im - b.im)
  }

  function Mul(a: Complex, b: Complex): Complex {
    Complex(a.re * b.re - a.im * b.im, a.re * b.im + a.im * b.re)
  }

  function Neg(a: Complex): Complex {
    Complex(-a.re, -a.im)
  }

  function Pow(w: Complex, e: nat): Complex {
    if e == 0 then ONE else Mul(Pow(w, e - 1), w)
  }

  lemma MulAssociative(a: Complex, b: Complex, c: Complex)
    ensures Mul(Mul(a, b), c) == Mul(a, Mul(b, c))
  {
    Regroup(a.re, b.re, -a.im, b.im, c.re);
    Regroup(a.re, b.im, a.im, b.re, c.im);
    Regroup(a.re, b.re, -a.im, b.im, c.im);
    Regroup(a.re, b.im, a.im, b.re, c.re);
    Distribute(a.re, b.re * c.re, -(b.im * c.im));
    Distribute(a.im, b.re * c.im, b.im * c.re);
    Distribute(a.re, b.re * c.im, b.im * c.re);
    Distribute(a.im, b.re * c.re, -(b.im * c.im));
  }

  lemma Regroup(x: real, y: real, z: real, w: real, v: real)
    ensures (x * y + z * w) * v == x * (y * v) + z * (w * v)
  {
    Distribute(v, x * y, z * w);
  }

  lemma Distribute(x: real, y: real, z: real)
    ensures x * (y + z) == x * y + x * z
  {
  }

  lemma MulCommutative(a: Complex, b: Complex)
    ensures Mul(a, b) == Mul(b, a)
  {
  }

  lemma MulDistributes(a: Complex, b: Complex, c: Complex)
    ensures Mul(a, Add(b, c)) == Add(Mul(a, b), Mul(a, c))
  {
  }

  /** Magnitudes multiply. */
  lemma MulMagnitude(a: Complex, b: Complex)
    ensures var p := Mul(a, b);
            p.re * p.re + p.im * p.im == (a.re * a.re + a.im * a.im) * (b.re * b.re + b.im * b.im)
  {
    Distribute(a.re * b.re - a.im * b.im, a.re * b.re, -(a.im * b.im));
    Distribute(a.re * b.im + a.im * b.re, a.re * b.im, a.im * b.re);
    Distribute(a.re * a.re + a.im * a.im, b.re * b.re, b.im * b.im);
  }

  lemma MulZero(a: Complex)
    ensures Mul(a, ZERO) == ZERO
  {
  }

  /** Powers of a product and of a square: the exponent laws the transform needs. */
  lemma {:induction false} PowAdd(w: Complex, a: nat, b: nat)
    ensures Pow(w, a + b) == Mul(Pow(w, a), Pow(w, b))
  {
    if b != 0 {
      PowAdd(w, a, b - 1);
      MulAssociative(Pow(w, a), Pow(w, b - 1), w);
    }
  }

  lemma {:induction false} PowSquare(w: Complex, e: nat)
    ensures Mul(Pow(w, e), Pow(w, e)) == Pow(Mul(w, w), e)
  {
    if e != 0 {
      var p := Pow(w, e - 1);
      PowSquare(w, e - 1);
      MulAssociative(p, w, Mul(p, w));
      MulAssociative(w, p, w);
      MulCommutative(w, p);
      MulAssociative(p, w, w);
      MulAssociative(p, p, Mul(w, w));
    }
  }
}

module Fft {
  import opened Complex

  function Pow2(p: nat): (n: nat)
    ensures n >= 1
  {
    if p == 0 then 1 else 2 * Pow2(p - 1)
  }

  // ------------------------------------------------------------ the reference transform

  /** Sum over m < count of x[m] * w^(m*k): the definition of the transform. */
  function DftSum(x: seq<Complex>, w: Complex, k: nat, count: nat): Complex
    requires count <= |x|
  {
    if count == 0 then ZERO
    else Add(DftSum(x, w, k, count - 1), Mul(x[count - 1], Pow(w, (count - 1) * k)))
  }

  function Dft(x: seq<Complex>, w: Complex): (y: seq<Complex>) {
    seq(|x|, k requires 0 <= k => DftSum(x, w, k, |x|))
  }

  /** Horner's form of the same sum, at the point z. */
  function Horner(x: seq<Complex>, z: Complex): Complex {
    if x == [] then ZERO else Add(x[0], Mul(z, Horner(x[1..], z)))
  }

  lemma {:induction false} HornerSnoc(x: seq<Complex>, c: Complex, z: Complex)
    ensures Horner(x + [c], z) == Add(Horner(x, z), Mul(c, Pow(z, |x|)))
  {
    if x == [] {
      assert x + [c] == [c];
    } else {
      assert (x + [c])[1..] == x[1..] + [c];
      HornerSnoc(x[1..], c, z);
      var p := Pow(z, |x| - 1);
      MulDistributes(z, Horner(x[1..], z), Mul(c, p));
      MulAssociative(z, c, p);
      MulCommutative(z, c);
      MulAssociative(c, z, p);
      MulCommutative(z, p);
    }
  }

  lemma {:induction false} PowPow(w: Complex, k: nat, m: nat)
    ensures Pow(Pow(w, k), m) == Pow(w, m * k)
  {
    hide Mul;
    if m != 0 {
      PowPow(w, k, m - 1);
      PowAdd(w, (m - 1) * k, k);
      assert (m - 1) * k + k == m * k;
    }
  }

  /** The transform's k-th sum is the polynomial x evaluated at w^k. */
  lemma {:induction false} DftIsHorner(x: seq<Complex>, w: Complex, k: nat, count: nat)
    requires count <= |x|
    ensures DftSum(x, w, k, count) == Horner(x[..count], Pow(w, k))
  {
    if count != 0 {
      DftIsHorner(x, w, k, count - 1);
      HornerSnoc(x[..count - 1], x[count - 1], Pow(w, k));
      assert x[..count] == x[..count - 1] + [x[count - 1]];
      PowPow(w, k, count - 1);
    }
  }

  // ------------------------------------------------------------ decimation in time

  function Evens(x: seq<Complex>): (e: seq<Complex>)
    requires |x| % 2 == 0
    ensures |e| == |x| / 2
  {
    seq(|x| / 2, i requires 0 <= i < |x| / 2 => x[2 * i])
  }

  function Odds(x: seq<Complex>): (o: seq<Complex>)
    requires |x| % 2 == 0
    ensures |o| == |x| / 2
  {
    seq(|x| / 2, i requires 0 <= i < |x| / 2 => x[2 * i + 1])
  }

  lemma {:induction false} HornerSplits(x: seq<Complex>, z: Complex)
    requires |x| % 2 == 0
    ensures Horner(x, z) ==
            Add(Horner(Evens(x), Mul(z, z)), Mul(z, Horner(Odds(x), Mul(z, z))))
  {
    hide Mul;
    if x == [] {
      MulZero(z);
    } else {
      var t := x[2..];
      HornerSplits(t, z);
      assert Evens(x)[1..] == Evens(t);
      assert Odds(x)[1..] == Odds(t);
      assert x[1..][1..] == t;
      assert Horner(x, z) == Add(x[0], Mul(z, Add(x[1], Mul(z, Horner(t, z)))));
      var zz, e, o := Mul(z, z), Horner(Evens(t), Mul(z, z)), Horner(Odds(t), Mul(z, z));
      SplitAlgebra(x[0], x[1], z, e, o);
    }
  }

  lemma SplitAlgebra(a: Complex, b: Complex, z: Complex, e: Complex, o: Complex)
    ensures Add(a, Mul(z, Add(b, Mul(z, Add(e, Mul(z, o)))))) ==
            Add(Add(a, Mul(Mul(z, z), e)), Mul(z, Add(b, Mul(Mul(z, z), o))))
  {
    var inner := Add(e, Mul(z, o));
    MulDistributes(z, b, Mul(z, inner));
    MulAssociative(z, z, inner);
    MulDistributes(Mul(z, z), e, Mul(z, o));
    MulDistributes(z, b, Mul(Mul(z, z), o));
    MulAssociative(Mul(z, z), z, o);
    MulCommutative(Mul(z, z), z);
    MulAssociative(z, Mul(z, z), o);
  }

  // ------------------------------------------------------------ bit reversal

  /** i read as p binary digits, in reverse. */
  function Reverse(p: nat, i: nat): (r: nat)
    requires i < Pow2(p)
    ensures r < Pow2(p)
  {
    if p == 0 then 0
    else if i % 2 == 1 then Pow2(p - 1) + Reverse(p - 1, i / 2)
    else Reverse(p - 1, i / 2)
  }

  lemma {:induction false} ReverseFromTop(p: nat, i: nat)
    requires p > 0 && i < Pow2(p)
    ensures i < Pow2(p - 1) ==> Reverse(p, i) == 2 * Reverse(p - 1, i)
    ensures i >= Pow2(p - 1) ==> Reverse(p, i) == 2 * Reverse(p - 1, i - Pow2(p - 1)) + 1
  {
    if p > 1 {
      ReverseFromTop(p - 1, i / 2);
      if i >= Pow2(p - 1) {
        var h := Pow2(p - 1);
        assert h == 2 * Pow2(p - 2);
        assert (i - h) / 2 == i / 2 - Pow2(p - 2) && (i - h) % 2 == i % 2;
      }
    }
  }

  lemma {:induction false} ReverseInvolution(p: nat, i: nat)
    requires i < Pow2(p)
    ensures Reverse(p, Reverse(p, i)) == i
  {
    if p > 0 {
      ReverseInvolution(p - 1, i / 2);
      ReverseFromTop(p, Reverse(p, i));
    }
  }

  /** Adding one at the most significant end, the carry running downwards. */
  function ReversedIncrement(p: nat, j: nat): nat
    requires j + 1 < Pow2(p)
  {
    if j < Pow2(p - 1) then j + Pow2(p - 1)
    else ReversedIncrement(p - 1, j - Pow2(p - 1))
  }

  lemma {:induction false} ReverseSuccessor(p: nat, i: nat)
    requires i + 1 < Pow2(p)
    ensures Reverse(p, i) + 1 < Pow2(p)
    ensures Reverse(p, i + 1) == ReversedIncrement(p, Reverse(p, i))
  {
    if i % 2 == 0 {
      assert (i + 1) / 2 == i / 2 && (i + 1) % 2 == 1;
    } else {
      assert (i + 1) / 2 == i / 2 + 1 && (i + 1) % 2 == 0;
      ReverseSuccessor(p - 1, i / 2);
    }
  }

  /** The order in which the butterflies expect their input. */
  function BitReversed(x: seq<Complex>, p: nat): (y: seq<Complex>)
    requires |x| == Pow2(p)
    ensures |y| == |x|
    decreases p
  {
    if p == 0 then x else BitReversed(Evens(x), p - 1) + BitReversed(Odds(x), p - 1)
  }

  lemma {:induction false} BitReversedAt(x: seq<Complex>, p: nat, i: nat)
    requires |x| == Pow2(p) && i < |x|
    ensures BitReversed(x, p)[i] == x[Reverse(p, i)]
    decreases p
  {
    if p > 0 {
      ReverseFromTop(p, i);
      if i < Pow2(p - 1) {
        BitReversedAt(Evens(x), p - 1, i);
      } else {
        BitReversedAt(Odds(x), p - 1, i - Pow2(p - 1));
      }
    }
  }

  // ------------------------------------------------------------ butterflies

  /** One butterfly block: halves lo and hi combined with the powers of w. */
  function Butterfly(lo: seq<Complex>, hi: seq<Complex>, w: Complex): (y: seq<Complex>)
    requires |lo| == |hi|
    ensures |y| == 2 * |lo|
  {
    seq(|lo|, j requires 0 <= j < |lo| => Add(lo[j], Mul(hi[j], Pow(w, j)))) +
    seq(|lo|, j requires 0 <= j < |lo| => Sub(lo[j], Mul(hi[j], Pow(w, j))))
  }

  /** All passes of one block of 2^s slots. */
  function Passes(z: seq<Complex>, s: nat, roots: seq<Complex>): (y: seq<Complex>)
    requires |z| == Pow2(s) && s < |roots|
    ensures |y| == |z|
  {
    if s == 0 then z
    else
      var h := Pow2(s - 1);
      Butterfly(Passes(z[..h], s - 1, roots), Passes(z[h..], s - 1, roots), roots[s])
  }

  /** The half-angle law, and the half turn. */
  ghost predicate Roots(roots: seq<Complex>) {
    && (|roots| > 0 ==> roots[0] == ONE)
    && (|roots| > 1 ==> roots[1] == Neg(ONE))
    && forall s :: 1 <= s < |roots| - 1 ==> Mul(roots[s + 1], roots[s + 1]) == roots[s]
  }

  lemma {:induction false} HalfTurn(roots: seq<Complex>, s: nat)
    requires Roots(roots) && 0 < s < |roots|
    ensures Pow(roots[s], Pow2(s - 1)) == Neg(ONE)
  {
    if s > 1 {
      var w, h := roots[s], Pow2(s - 2);
      HalfTurn(roots, s - 1);
      assert Mul(roots[s - 1 + 1], roots[s - 1 + 1]) == roots[s - 1];
      PowAdd(w, h, h);
      PowSquare(w, h);
    } else {
      assert Pow2(0) == 1;
      assert Pow(roots[1], 1) == Mul(Pow(roots[1], 0), roots[1]);
    }
  }

  /** The passes over bit-reversed input compute the transform: Danielson and Lanczos. */
  lemma {:induction false} PassesComputeDft(x: seq<Complex>, p: nat, roots: seq<Complex>)
    requires |x| == Pow2(p) && p < |roots| && Roots(roots)
    ensures Passes(BitReversed(x, p), p, roots) == Dft(x, roots[p])
    decreases p
  {
    hide Butterfly, Mul, Dft, Roots, Evens, Odds;
    if p == 0 {
      DftOfOne(x, roots[0]);
    } else {
      var h := Pow2(p - 1);
      PassesComputeDft(Evens(x), p - 1, roots);
      PassesComputeDft(Odds(x), p - 1, roots);
      var a, b := BitReversed(Evens(x), p - 1), BitReversed(Odds(x), p - 1);
      assert (a + b)[..h] == a && (a + b)[h..] == b;
      ButterflyOfDfts(x, p, roots);
    }
  }

  lemma DftOfOne(x: seq<Complex>, w: Complex)
    requires |x| == 1
    ensures Dft(x, w) == x
  {
    assert DftSum(x, w, 0, 1) == Add(DftSum(x, w, 0, 0), Mul(x[0], Pow(w, 0)));
  }

  lemma ButterflyOfDfts(x: seq<Complex>, p: nat, roots: seq<Complex>)
    requires 0 < p < |roots| && |x| == Pow2(p) && Roots(roots)
    ensures Butterfly(Dft(Evens(x), roots[p - 1]), Dft(Odds(x), roots[p - 1]), roots[p]) == Dft(x, roots[p])
  {
    hide Mul, Roots, DftSum;
    var h, e, o := Pow2(p - 1), Evens(x), Odds(x);
    var y, d := Butterfly(Dft(e, roots[p - 1]), Dft(o, roots[p - 1]), roots[p]), Dft(x, roots[p]);
    forall k | 0 <= k < |x| ensures y[k] == d[k] {
      CombineHalves(x, p, roots, if k < h then k else k - h);
    }
  }

  lemma CombineHalves(x: seq<Complex>, p: nat, roots: seq<Complex>, j: nat)
    requires 0 < p < |roots| && |x| == Pow2(p) && Roots(roots) && j < Pow2(p - 1)
    ensures
      var h, w, v := Pow2(p - 1), roots[p], roots[p - 1];
      var t := Mul(DftSum(Odds(x), v, j, h), Pow(w, j));
      && DftSum(x, w, j, |x|) == Add(DftSum(Evens(x), v, j, h), t)
      && DftSum(x, w, j + h, |x|) == Sub(DftSum(Evens(x), v, j, h), t)
  {
    hide Mul;
    var h, w, v := Pow2(p - 1), roots[p], roots[p - 1];
    var e, o, z := Evens(x), Odds(x), Pow(w, j);
    SquareIsPreviousRoot(roots, p);
    HalfTurn(roots, p);
    PowAdd(w, j, h);
    PowSquare(w, j);
    assert x[..|x|] == x && e[..h] == e && o[..h] == o;
    DftIsHorner(x, w, j, |x|);
    DftIsHorner(x, w, j + h, |x|);
    DftIsHorner(e, v, j, h);
    DftIsHorner(o, v, j, h);
    NegIsMul(z);
    NegSquare(z);
    HornerSplits(x, z);
    HornerSplits(x, Neg(z));
    MulCommutative(z, Horner(o, Mul(z, z)));
    NegMul(z, Horner(o, Mul(z, z)));
  }

  lemma NegIsMul(z: Complex)
    ensures Mul(z, Neg(ONE)) == Neg(z)
  {
  }

  lemma NegSquare(z: Complex)
    ensures Mul(Neg(z), Neg(z)) == Mul(z, z)
  {
  }

  lemma NegMul(z: Complex, a: Complex)
    ensures Mul(Neg(z), a) == Neg(Mul(z, a))
  {
  }

  lemma SquareIsPreviousRoot(roots: seq<Complex>, p: nat)
    requires Roots(roots) && 0 < p < |roots|
    ensures Mul(roots[p], roots[p]) == roots[p - 1]
  {
    if p > 1 {
      assert Mul(roots[p - 1 + 1], roots[p - 1 + 1]) == roots[p - 1];
    }
  }

  // ------------------------------------------------------------ the program

  ghost function Signal(re: array<real>, im: array<real>): (x: seq<Complex>)
    requires re.Length == im.Length
    reads re, im
    ensures |x| == re.Length
    ensures forall i :: 0 <= i < |x| ==> x[i] == Complex(re[i], im[i])
  {
    seq(re.Length, i requires 0 <= i < re.Length reads re, im => Complex(re[i], im[i]))
  }

  predicate HasBit(j: nat, bit: nat)
    requires bit > 0
  {
    (j / bit) % 2 == 1
  }

  /** One step of the reversed counter: j is Reverse(p, i - 1) before and Reverse(p, i) after. */
  method AdvanceReversed(p: nat, n: nat, j0: nat) returns (j: nat)
    requires n == Pow2(p) && j0 + 1 < n
    ensures j < n && j == ReversedIncrement(p, j0)
  {
    j := j0;
    var bit := n / 2;
    ghost var q := p;
    while HasBit(j, bit)
      invariant q > 0 && bit == Pow2(q - 1) && q <= p
      invariant j + 1 < Pow2(q)
      invariant ReversedIncrement(q, j) == ReversedIncrement(p, j0)
      decreases q
    {
      BitOfBounded(j, bit);
      j := j - bit;
      bit := bit / 2;
      q := q - 1;
    }
    BitOfBounded(j, bit);
    j := j + bit;
    Pow2Monotone(q, p);
  }

  lemma BitOfBounded(j: nat, bit: nat)
    requires bit > 0 && j < 2 * bit
    ensures HasBit(j, bit) <==> j >= bit
  {
    if j < bit {
      assert j / bit == 0;
    } else {
      assert j == 1 * bit + (j - bit);
      assert j / bit == 1;
    }
  }

  lemma {:induction false} Pow2Monotone(q: nat, p: nat)
    requires q <= p
    ensures Pow2(q) <= Pow2(p)
  {
    if q < p {
      Pow2Monotone(q, p - 1);
    }
  }

  /** The state of the swap loop after index i: every pair with a member at most i is swapped. */
  ghost predicate SwappedUpTo(a: seq<Complex>, x: seq<Complex>, p: nat, i: nat) {
    && |a| == |x| == Pow2(p)
    && forall k :: 0 <= k < |x| ==>
         a[k] == if k <= i || Reverse(p, k) <= i then x[Reverse(p, k)] else x[k]
  }

  method SwapReversed(re: array<real>, im: array<real>, p: nat)
    requires re != im && re.Length == im.Length == Pow2(p)
    modifies re, im
    ensures Signal(re, im) == BitReversed(old(Signal(re, im)), p)
  {
    hide BitReversed, SwappedUpTo, Reverse, ReversedIncrement;
    var n := re.Length;
    ghost var x := Signal(re, im);
    var i, j := 1, 0;
    ReverseZero(p);
    NothingSwappedYet(x, p);
    while i < n
      invariant 1 <= i <= n
      invariant j < n && j == Reverse(p, i - 1)
      invariant SwappedUpTo(Signal(re, im), x, p, i - 1)
    {
      ghost var before := Signal(re, im);
      ReverseSuccessor(p, i - 1);
      j := AdvanceReversed(p, n, j);
      if i < j {
        re[i], re[j] := re[j], re[i];
        im[i], im[j] := im[j], im[i];
        assert Signal(re, im) == before[i := before[j]][j := before[i]];
      } else {
        assert Signal(re, im) == before;
      }
      SwapStep(before, Signal(re, im), x, p, i);
      i := i + 1;
    }
    AllSwapped(Signal(re, im), x, p);
  }

  lemma AllSwapped(a: seq<Complex>, x: seq<Complex>, p: nat)
    requires SwappedUpTo(a, x, p, Pow2(p) - 1)
    ensures a == BitReversed(x, p)
  {
    hide BitReversed;
    forall k | 0 <= k < |x| ensures a[k] == BitReversed(x, p)[k] {
      BitReversedAt(x, p, k);
    }
  }

  lemma {:induction false} ReverseZero(p: nat)
    ensures Reverse(p, 0) == 0
  {
    if p > 0 {
      ReverseZero(p - 1);
    }
  }

  lemma SwapStep(a: seq<Complex>, b: seq<Complex>, x: seq<Complex>, p: nat, i: nat)
    requires 0 < i < Pow2(p) && SwappedUpTo(a, x, p, i - 1)
    requires var j := Reverse(p, i); b == if i < j then a[i := a[j]][j := a[i]] else a
    ensures SwappedUpTo(b, x, p, i)
  {
    var j := Reverse(p, i);
    ReverseInvolution(p, i);
    forall k | 0 <= k < |x|
      ensures b[k] == if k <= i || Reverse(p, k) <= i then x[Reverse(p, k)] else x[k]
    {
      ReverseInvolution(p, k);
    }
  }

  lemma NothingSwappedYet(x: seq<Complex>, p: nat)
    requires |x| == Pow2(p)
    ensures SwappedUpTo(x, x, p, 0)
  {
    ReverseZero(p);
    forall k | 0 <= k < |x| && Reverse(p, k) == 0 ensures k == 0 {
      ReverseInvolution(p, k);
    }
  }

  /** The whole array after the pass with blocks of 2^s slots. */
  function AfterPass(y: seq<Complex>, s: nat, roots: seq<Complex>): (z: seq<Complex>)
    requires s < |roots| && Multiple(|y|, Pow2(s))
    ensures |z| == |y|
  {
    if y == [] then []
    else Passes(y[..Pow2(s)], s, roots) + AfterPass(y[Pow2(s)..], s, roots)
  }

  predicate Multiple(m: nat, d: nat)
    requires d > 0
  {
    m == 0 || (m >= d && Multiple(m - d, d))
  }

  lemma {:induction false} MultipleHalf(m: nat, h: nat)
    requires h > 0 && Multiple(m, 2 * h)
    ensures Multiple(m, h)
  {
    if m > 0 {
      MultipleHalf(m - 2 * h, h);
      assert Multiple(m - h, h);
    }
  }

  lemma {:induction false} MultiplePow2(s: nat, p: nat)
    requires s <= p
    ensures Multiple(Pow2(p), Pow2(s))
    decreases p - s
  {
    if s < p {
      MultiplePow2(s + 1, p);
      MultipleHalf(Pow2(p), Pow2(s));
    } else {
      assert Multiple(0, Pow2(s));
    }
  }

  lemma {:induction false} AfterNoPass(y: seq<Complex>, roots: seq<Complex>)
    requires |roots| > 0 && Multiple(|y|, Pow2(0))
    ensures AfterPass(y, 0, roots) == y
  {
    if y != [] {
      AfterNoPass(y[1..], roots);
    }
  }

  lemma {:induction false} AfterPassAppend(y: seq<Complex>, z: seq<Complex>, s: nat, roots: seq<Complex>)
    requires s < |roots| && Multiple(|y|, Pow2(s)) && |z| == Pow2(s)
    ensures Multiple(|y + z|, Pow2(s))
    ensures AfterPass(y + z, s, roots) == AfterPass(y, s, roots) + Passes(z, s, roots)
  {
    hide Passes, Mul;
    var d := Pow2(s);
    assert Multiple(0, d);
    if y == [] {
      AfterPassCons(z, [], s, roots);
      assert z + [] == z && y + z == z;
    } else {
      AfterPassAppend(y[d..], z, s, roots);
      AfterPassCons(y[..d], y[d..] + z, s, roots);
      assert y + z == y[..d] + (y[d..] + z);
    }
  }

  /** The block the next step of a pass works on, cut out of the previous pass's result. */
  lemma NextBlock(y: seq<Complex>, s: nat, roots: seq<Complex>)
    requires 0 < s < |roots| && y != [] && Multiple(|y|, Pow2(s)) && Multiple(|y|, Pow2(s - 1))
    ensures
      var h := Pow2(s - 1);
      var z := AfterPass(y, s - 1, roots);
      && |y| >= 2 * h && Multiple(|y| - 2 * h, h) && Multiple(|y| - 2 * h, 2 * h)
      && Butterfly(z[..h], z[h..2 * h], roots[s]) == Passes(y[..2 * h], s, roots)
      && z[2 * h..] == AfterPass(y[2 * h..], s - 1, roots)
  {
    hide Mul, Butterfly, AfterPass;
    var h := Pow2(s - 1);
    MultipleHalf(|y| - 2 * h, h);
    var a, b, c := y[..h], y[h..2 * h], y[2 * h..];
    AfterPassCons(b, c, s - 1, roots);
    AfterPassCons(a, b + c, s - 1, roots);
    assert y == a + (b + c);
    CutInThree(Passes(a, s - 1, roots), Passes(b, s - 1, roots), AfterPass(c, s - 1, roots), h);
    assert y[..2 * h][..h] == a && y[..2 * h][h..] == b;
  }

  lemma CutInThree(a: seq<Complex>, b: seq<Complex>, c: seq<Complex>, h: nat)
    requires |a| == |b| == h
    ensures (a + (b + c))[..h] == a && (a + (b + c))[h..2 * h] == b && (a + (b + c))[2 * h..] == c
  {
  }

  lemma AfterPassCons(b: seq<Complex>, r: seq<Complex>, s: nat, roots: seq<Complex>)
    requires s < |roots| && |b| == Pow2(s) && Multiple(|r|, Pow2(s))
    ensures Multiple(|b + r|, Pow2(s))
    ensures AfterPass(b + r, s, roots) == Passes(b, s, roots) + AfterPass(r, s, roots)
  {
    hide Passes;
    assert (b + r)[..Pow2(s)] == b && (b + r)[Pow2(s)..] == r;
  }

  /** The body of the innermost loop on slots a and b. */
  method ButterflyPair(re: array<real>, im: array<real>, a: nat, b: nat, cur: Complex)
    requires re != im && re.Length == im.Length && a < b < re.Length
    modifies re, im
    ensures
      var x := old(Signal(re, im));
      var t := Mul(x[b], cur);
      Signal(re, im) == x[a := Add(x[a], t)][b := Sub(x[a], t)]
  {
    ghost var x := Signal(re, im);
    var tRe := re[b] * cur.re - im[b] * cur.im;
    var tIm := re[b] * cur.im + im[b] * cur.re;
    re[b] := re[a] - tRe;
    im[b] := im[a] - tIm;
    re[a] := re[a] + tRe;
    im[a] := im[a] + tIm;
    ghost var t := Mul(x[b], cur);
    ghost var y := x[a := Add(x[a], t)][b := Sub(x[a], t)];
    assert forall k :: 0 <= k < |x| ==> Signal(re, im)[k] == y[k];
  }

  /** The block at i with its first j pairs combined. */
  function PartialBlock(x: seq<Complex>, i: nat, h: nat, w: Complex, j: nat): (y: seq<Complex>)
    requires i + 2 * h <= |x| && j <= h
    ensures |y| == |x|
  {
    if j == 0 then x
    else
      var y := PartialBlock(x, i, h, w, j - 1);
      var a, b := i + j - 1, i + h + j - 1;
      var t := Mul(y[b], Pow(w, j - 1));
      y[a := Add(y[a], t)][b := Sub(y[a], t)]
  }

  lemma {:induction false} PartialBlockAt(x: seq<Complex>, i: nat, h: nat, w: Complex, j: nat, k: nat)
    requires i + 2 * h <= |x| && j <= h && k < |x|
    ensures PartialBlock(x, i, h, w, j)[k] ==
            if i <= k < i + j then Add(x[k], Mul(x[k + h], Pow(w, k - i)))
            else if i + h <= k < i + h + j then Sub(x[k - h], Mul(x[k], Pow(w, k - i - h)))
            else x[k]
  {
    hide Mul, Add, Sub;
    if j > 0 {
      PartialBlockAt(x, i, h, w, j - 1, k);
      PartialBlockAt(x, i, h, w, j - 1, i + j - 1);
      PartialBlockAt(x, i, h, w, j - 1, i + h + j - 1);
    }
  }

  /** x with the 2h slots from i on replaced by the butterfly of their halves. */
  function WithBlock(x: seq<Complex>, i: nat, h: nat, w: Complex): (y: seq<Complex>)
    requires i + 2 * h <= |x|
    ensures |y| == |x|
  {
    x[..i] + Butterfly(x[i..i + h], x[i + h..i + 2 * h], w) + x[i + 2 * h..]
  }

  lemma WholeBlockCombined(x: seq<Complex>, i: nat, h: nat, w: Complex)
    requires i + 2 * h <= |x|
    ensures PartialBlock(x, i, h, w, h) == WithBlock(x, i, h, w)
  {
    hide Mul, Add, Sub, PartialBlock;
    var y := WithBlock(x, i, h, w);
    forall k | 0 <= k < |x| ensures PartialBlock(x, i, h, w, h)[k] == y[k] {
      PartialBlockAt(x, i, h, w, h, k);
    }
  }

  /** The innermost loop: one butterfly block, in place, the twiddle factor carried along. */
  method ButterflyBlock(re: array<real>, im: array<real>, i: nat, h: nat, w: Complex)
    requires re != im && re.Length == im.Length && i + 2 * h <= re.Length
    modifies re, im
    ensures Signal(re, im) == WithBlock(old(Signal(re, im)), i, h, w)
  {
    hide Mul, Add, Sub, WithBlock;
    ghost var x := Signal(re, im);
    var cur := ONE;
    var j := 0;
    while j < h
      invariant j <= h
      invariant cur == Pow(w, j)
      invariant Signal(re, im) == PartialBlock(x, i, h, w, j)
    {
      ButterflyPair(re, im, i + j, i + j + h, cur);
      cur := Mul(cur, w);
      j := j + 1;
    }
    WholeBlockCombined(x, i, h, w);
  }

  /** The program: bit reversal, then one pass for each block length 2, 4, ..., n. */
  method FftDit(re: array<real>, im: array<real>, p: nat, roots: seq<Complex>)
    requires re != im && re.Length == im.Length == Pow2(p)
    requires p < |roots| && Roots(roots)
    modifies re, im
    ensures Signal(re, im) == Dft(old(Signal(re, im)), roots[p])
  {
    hide Mul, Passes, AfterPass, Dft, BitReversed, Roots;
    var n := re.Length;
    ghost var x := Signal(re, im);
    SwapReversed(re, im, p);
    ghost var y := Signal(re, im);
    var len, s := 2, 1;
    MultiplePow2(0, p);
    AfterNoPass(y, roots);
    while len <= n
      invariant 1 <= s <= p + 1 && len == Pow2(s)
      invariant Multiple(n, Pow2(s - 1)) && Signal(re, im) == AfterPass(y, s - 1, roots)
    {
      PowerBound(s, p);
      MultiplePow2(s, p);
      OnePass(re, im, s, roots, y);
      len, s := len * 2, s + 1;
    }
    PowerBound(s, p);
    WholeBlock(y, p, roots);
    PassesComputeDft(x, p, roots);
  }

  lemma PowerBound(s: nat, p: nat)
    ensures Pow2(s) <= Pow2(p) <==> s <= p
  {
    if s <= p {
      Pow2Monotone(s, p);
    } else {
      Pow2Monotone(p + 1, s);
    }
  }

  lemma WholeBlock(y: seq<Complex>, p: nat, roots: seq<Complex>)
    requires |y| == Pow2(p) && p < |roots| && Multiple(|y|, Pow2(p))
    ensures AfterPass(y, p, roots) == Passes(y, p, roots)
  {
    assert y[..Pow2(p)] == y && y[Pow2(p)..] == [];
    assert AfterPass([], p, roots) == [];
  }

  /** One pass over the array, block by block. */
  method OnePass(re: array<real>, im: array<real>, s: nat, roots: seq<Complex>, ghost y: seq<Complex>)
    requires re != im && re.Length == im.Length == |y| && 0 < s < |roots|
    requires Multiple(|y|, Pow2(s)) && Multiple(|y|, Pow2(s - 1))
    requires Signal(re, im) == AfterPass(y, s - 1, roots)
    modifies re, im
    ensures Signal(re, im) == AfterPass(y, s, roots)
  {
    hide PassState, AfterPass, WithBlock, Multiple, Pow2;
    var len, h := Pow2(s), Pow2(s - 1);
    HalfLength(s);
    var i := 0;
    PassStarts(Signal(re, im), y, s, roots);
    while i < re.Length
      invariant i <= re.Length
      invariant PassState(Signal(re, im), y, s, i, roots)
      decreases re.Length - i
    {
      ghost var x := Signal(re, im);
      BlockFits(x, y, s, i, roots);
      ButterflyBlock(re, im, i, h, roots[s]);
      BlockStep(x, Signal(re, im), y, s, i, roots);
      i := i + len;
    }
    PassEnds(Signal(re, im), y, s, roots);
  }

  lemma HalfLength(s: nat)
    requires s > 0
    ensures Pow2(s) == 2 * Pow2(s - 1)
  {
  }

  lemma AfterPassOfNothing(s: nat, roots: seq<Complex>)
    requires s < |roots|
    ensures Multiple(0, Pow2(s)) && AfterPass([], s, roots) == []
  {
  }

  /** During a pass: done up to slot i, as the previous pass left it from there on. */
  ghost predicate PassState(a: seq<Complex>, y: seq<Complex>, s: nat, i: nat, roots: seq<Complex>)
    requires 0 < s < |roots|
  {
    && i <= |y| == |a|
    && Multiple(i, Pow2(s)) && Multiple(|y| - i, Pow2(s)) && Multiple(|y| - i, Pow2(s - 1))
    && a == AfterPass(y[..i], s, roots) + AfterPass(y[i..], s - 1, roots)
  }

  lemma PassStarts(a: seq<Complex>, y: seq<Complex>, s: nat, roots: seq<Complex>)
    requires 0 < s < |roots| && |a| == |y| && Multiple(|y|, Pow2(s)) && Multiple(|y|, Pow2(s - 1))
    requires a == AfterPass(y, s - 1, roots)
    ensures PassState(a, y, s, 0, roots)
  {
    AfterPassOfNothing(s, roots);
    assert y[..0] == [] && y[0..] == y;
  }

  lemma PassEnds(a: seq<Complex>, y: seq<Complex>, s: nat, roots: seq<Complex>)
    requires 0 < s < |roots| && PassState(a, y, s, |y|, roots)
    ensures Multiple(|y|, Pow2(s)) && a == AfterPass(y, s, roots)
  {
    AfterPassOfNothing(s - 1, roots);
    assert y[..|y|] == y && y[|y|..] == [];
  }

  lemma BlockFits(a: seq<Complex>, y: seq<Complex>, s: nat, i: nat, roots: seq<Complex>)
    requires 0 < s < |roots| && PassState(a, y, s, i, roots) && i < |y|
    ensures i + Pow2(s) <= |y|
  {
    hide AfterPass;
  }

  lemma Sliced(x: seq<Complex>, a: seq<Complex>, r: seq<Complex>, i: nat, h: nat)
    requires x == a + r && |a| == i && 2 * h <= |r|
    ensures x[..i] == a && x[i..] == r
    ensures x[i..i + h] == r[..h] && x[i + h..i + 2 * h] == r[h..2 * h] && x[i + 2 * h..] == r[2 * h..]
  {
  }

  /** The array before (x) and after (z) the block at i. */
  lemma BlockStep(x: seq<Complex>, z: seq<Complex>, y: seq<Complex>, s: nat, i: nat, roots: seq<Complex>)
    requires 0 < s < |roots| && PassState(x, y, s, i, roots) && i + Pow2(s) <= |y|
    requires z == WithBlock(x, i, Pow2(s - 1), roots[s])
    ensures PassState(z, y, s, i + Pow2(s), roots)
  {
    hide Passes, AfterPass, Butterfly;
    var h, rest := Pow2(s - 1), y[i..];
    var r := AfterPass(rest, s - 1, roots);
    NextBlock(rest, s, roots);
    Sliced(x, AfterPass(y[..i], s, roots), r, i, h);
    AfterPassAppend(y[..i], rest[..2 * h], s, roots);
    assert y[..i] + rest[..2 * h] == y[..i + 2 * h] && rest[2 * h..] == y[i + 2 * h..];
  }
}
