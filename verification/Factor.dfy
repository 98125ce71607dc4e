/** Dijkstra's smallest prime factor, src/games/factor.c.

    The digit array denotes N in a mixed radix with bases f, f+1, f+2, ...; raising f by one
    is a pass of borrows over the digits, and f divides N exactly when the lowest digit is 0.
 */
module Factor {
  import opened Words

  const DIGITS := 24

  ghost predicate Divides(d: int, n: int)
    requires d != 0
  {
    n % d == 0
  }

  /** No number from 2 up to but not including `f` divides `n`. */
  ghost predicate NoneBelow(n: nat, f: nat)
  {
    forall d | 2 <= d < f :: !Divides(d, n)
  }

  ghost predicate Prime(p: nat) { p >= 2 && NoneBelow(p, p) }

  ghost predicate SmallestPrimeFactor(p: nat, n: nat)
  {
    Prime(p) && Divides(p, n) && NoneBelow(n, p)
  }

  // ---- the mixed-radix representation ----

  /** `f * (f+1) * ... * (f+k-1)`, the weight of digit `k`. */
  ghost function Rising(f: nat, k: nat): (r: nat)
    ensures f > 0 ==> r > 0
  {
    if k == 0 then 1 else Rising(f, k - 1) * (f + k - 1)
  }

  /** The number denoted by the digits `lo..hi` in the bases f, f+1, ... */
  ghost function Sum(v: seq<int>, f: nat, lo: nat, hi: nat): int
    requires lo <= hi <= |v|
    decreases hi - lo
  {
    if lo == hi then 0 else v[lo] * Rising(f, lo) + Sum(v, f, lo + 1, hi)
  }

  ghost predicate Digits(v: seq<int>, f: nat, lo: nat, hi: nat)
    requires hi <= |v|
  {
    forall k {:trigger v[k]} | lo <= k < hi :: 0 <= v[k] < f + k
  }

  lemma {:induction false} SumFrame(v: seq<int>, w: seq<int>, f: nat, lo: nat, hi: nat)
    requires lo <= hi <= |v| && |v| == |w| && forall k | lo <= k < hi :: v[k] == w[k]
    ensures Sum(v, f, lo, hi) == Sum(w, f, lo, hi)
    decreases hi - lo
  {
    if lo < hi { SumFrame(v, w, f, lo + 1, hi); }
  }

  lemma {:induction false} SumLast(v: seq<int>, f: nat, lo: nat, hi: nat)
    requires lo <= hi < |v|
    ensures Sum(v, f, lo, hi + 1) == Sum(v, f, lo, hi) + v[hi] * Rising(f, hi)
    decreases hi - lo
  {
    if lo < hi { SumLast(v, f, lo + 1, hi); }
  }

  lemma MulComm(a: int, b: int)
    ensures a * b == b * a
  {
  }

  /** The weights with the first base split off. */
  lemma {:induction false} RisingHead(f: nat, k: nat)
    ensures Rising(f, k + 1) == f * Rising(f + 1, k)
  {
    if k == 0 {
      assert Rising(f, 1) == Rising(f, 0) * f;
    } else {
      RisingHead(f, k - 1);
      MulAssoc(f, Rising(f + 1, k - 1), f + k);
    }
  }

  /** Weight k for base f-1, in terms of the weights for base f. */
  lemma RisingShift(f: nat, k: nat)
    requires f > 0
    ensures Rising(f - 1, k + 1) == Rising(f, k + 1) - (k + 1) * Rising(f, k)
  {
    RisingHead(f - 1, k);
    var r := Rising(f, k);
    assert (f - 1) * r == r * (f + k) - (k + 1) * r;
  }

  lemma {:induction false} SumBound(v: seq<int>, f: nat, hi: nat)
    requires hi <= |v| && f > 0 && Digits(v, f, 0, hi)
    ensures 0 <= Sum(v, f, 0, hi) < Rising(f, hi)
  {
    if hi > 0 {
      SumBound(v, f, hi - 1);
      SumLast(v, f, 0, hi - 1);
      var r, d := Rising(f, hi - 1), v[hi - 1];
      MulMono(0, d, r);
      MulMono(d + 1, f + hi - 1, r);
      MulComm(r, f + hi - 1);
      assert (d + 1) * r == d * r + r;
    }
  }

  /** Every weight but the lowest is a multiple of f. */
  lemma {:induction false} SumMultiple(v: seq<int>, f: nat, lo: nat, hi: nat) returns (q: int)
    requires 1 <= lo <= hi <= |v|
    ensures Sum(v, f, lo, hi) == q * f
    decreases hi - lo
  {
    if lo == hi {
      q := 0;
    } else {
      var q' := SumMultiple(v, f, lo + 1, hi);
      RisingHead(f, lo - 1);
      q := v[lo] * Rising(f + 1, lo - 1) + q';
      MulComm(f, Rising(f + 1, lo - 1));
      MulAssoc(v[lo], Rising(f + 1, lo - 1), f);
      assert (v[lo] * Rising(f + 1, lo - 1) + q') * f == v[lo] * Rising(f + 1, lo - 1) * f + q' * f;
    }
  }

  lemma LowDigit(v: seq<int>, f: nat, hi: nat)
    requires 0 < hi <= |v| && f > 0 && Digits(v, f, 0, hi)
    ensures Sum(v, f, 0, hi) % f == v[0]
  {
    var q := SumMultiple(v, f, 1, hi);
    assert Rising(f, 0) == 1;
    DivModUnique(Sum(v, f, 0, hi), f, q, v[0]);
  }

  // ---- arithmetic of divisors ----

  lemma QuotientDivides(n: nat, d: nat) returns (e: nat)
    requires n > 0 && d > 0 && Divides(d, n)
    ensures e > 0 && n == e * d && Divides(e, n)
  {
    e := n / d;
    assert n == e * d;
    MulComm(e, d);
    DivModUnique(n, e, d, 0);
  }

  /** Nothing up to f divides n, and n is below f(f+1): then n is prime. */
  lemma PrimeBySquare(n: nat, f: nat)
    requires n >= 2 && f >= 1 && NoneBelow(n, f + 1) && n < f * (f + 1)
    ensures Prime(n)
  {
    forall d | 2 <= d < n ensures !Divides(d, n) {
      if Divides(d, n) {
        var e := QuotientDivides(n, d);
        if e == 1 { assert false; }
        if d > f && e > f {
          MulMono(f + 1, e, d);
          MulMono(f, d, f + 1);
          MulComm(f + 1, d);
          assert false;
        }
      }
    }
  }

  lemma DividesTransitive(d: nat, p: nat, n: nat)
    requires d > 0 && p > 0 && n > 0 && Divides(d, p) && Divides(p, n)
    ensures Divides(d, n)
  {
    var a := QuotientDivides(p, d);
    var b := QuotientDivides(n, p);
    MulAssoc(b, a, d);
    DivModUnique(n, d, b * a, 0);
  }

  /** The least divisor above 1 is prime. */
  lemma LeastDivisorPrime(p: nat, n: nat)
    requires p >= 2 && n > 0 && Divides(p, n) && NoneBelow(n, p)
    ensures SmallestPrimeFactor(p, n)
  {
    forall d | 2 <= d < p ensures !Divides(d, p) {
      if Divides(d, p) { DividesTransitive(d, p, n); }
    }
  }

  // ---- factor ----

  lemma {:induction false} RisingMono(f: nat, j: nat, k: nat)
    requires f > 0 && j <= k
    ensures Rising(f, j) <= Rising(f, k)
    decreases k
  {
    if j < k {
      RisingMono(f, j, k - 1);
      MulMono(1, f + k - 1, Rising(f, k - 1));
      MulComm(Rising(f, k - 1), f + k - 1);
    }
  }

  lemma ThirteenFactorial()
    ensures Rising(2, 12) > 0x7fff_ffff
  {
    assert Rising(2, 4) == 120;
    assert Rising(2, 6) == 5040;
    assert Rising(2, 8) == 362880;
    assert Rising(2, 10) == 39916800;
    assert Rising(2, 11) == 479001600;
  }

  lemma FewDigits(x: nat, k: nat)
    requires x > 0 && x * Rising(2, k) <= 0x7fff_ffff
    ensures k < 12
  {
    MulMono(1, x, Rising(2, k));
    ThirteenFactorial();
    if k >= 12 { RisingMono(2, 12, k); }
  }

  lemma PutDigit(q: int, y: int, r: int, w: int)
    ensures (q * y + r) * w == q * (w * y) + r * w
  {
    assert (q * y + r) * w == q * y * w + r * w;
    MulAssoc(q, y, w);
    MulComm(y, w);
  }

  lemma RepresentStep(v: seq<int>, w: seq<int>, h: nat, x: int, q: int, r: int)
    requires h < |v| && w == v[h := r] && x == q * (h + 2) + r
    ensures Sum(w, 2, 0, h + 1) + q * Rising(2, h + 1) == Sum(v, 2, 0, h) + x * Rising(2, h)
  {
    SumFrame(v, w, 2, 0, h);
    SumLast(w, 2, 0, h);
    PutDigit(q, h + 2, r, Rising(2, h));
  }

  method QuotientRemainder(x: nat, y: nat) returns (q: nat, r: nat)
    requires x > 0 && y >= 2
    ensures x == q * y + r && r < y && q < x && (q == 0 ==> r == x)
  {
    q, r := x / y, x % y;
    assert x == q * y + r;
    MulMono(2, y, q);
    MulComm(q, y);
  }

  /** Write N in the bases 2, 3, 4, ...: the first loop of `factor`. */
  method Represent(N: nat, val: array<int>) returns (hib: nat)
    requires 1 <= N <= 0x7fff_ffff && val.Length == DIGITS
    modifies val
    ensures hib < 12 && val[hib] > 0
    ensures Digits(val[..], 2, 0, hib + 1) && Sum(val[..], 2, 0, hib + 1) == N
  {
    var h, x, y := -1, N, 2;
    while x != 0
      invariant -1 <= h < 12 && y == h + 3 && 0 <= x
      invariant x == 0 ==> h >= 0 && val[h] > 0
      invariant Digits(val[..], 2, 0, h + 1)
      invariant Sum(val[..], 2, 0, h + 1) + x * Rising(2, h + 1) == N
      decreases x
    {
      SumBound(val[..], 2, h + 1);
      FewDigits(x, h + 1);
      ghost var v := val[..];
      h := h + 1;
      var q, r := QuotientRemainder(x, y);
      val[h] := r;
      assert val[..] == v[h := r];
      RepresentStep(v, val[..], h, x, q, r);
      x := q;
      y := y + 1;
    }
    hib := h;
  }

  /** What digit i and the digits above it are worth while base f replaces base f-1. */
  ghost function Mixed(v: seq<int>, f: nat, i: nat, hib: nat): int
    requires i <= hib < |v| && f > 0
  {
    Sum(v, f, 0, i) + v[i] * Rising(f, i) + Sum(v, f - 1, i + 1, hib + 1)
  }

  lemma BorrowArithmetic(a: int, b: int, base: int, r: int)
    ensures (a + base) * r + (b - 1) * (r * base) == a * r + b * (r * base)
  {
    assert (a + base) * r == a * r + base * r;
    assert (b - 1) * (r * base) == b * (r * base) - r * base;
    MulComm(r, base);
  }

  /** A borrow of one from digit i+1 is worth f+i in digit i. */
  lemma Borrow(v: seq<int>, w: seq<int>, f: nat, i: nat, hib: nat)
    requires i < hib < |v| && f > 0
    requires w == v[i := v[i] + (f + i)][i + 1 := v[i + 1] - 1]
    ensures Mixed(w, f, i + 1, hib) == Mixed(v, f, i + 1, hib)
  {
    SumLast(v, f, 0, i);
    SumLast(w, f, 0, i);
    SumFrame(v, w, f, 0, i);
    SumFrame(v, w, f - 1, i + 2, hib + 1);
    BorrowArithmetic(v[i], v[i + 1], f + i, Rising(f, i));
  }

  /** Digits 0..i+1 in base f, the higher ones still in base f-1. */
  lemma MixedNext(v: seq<int>, f: nat, i: nat, hib: nat)
    requires i < hib < |v| && f > 0
    ensures Mixed(v, f, i + 1, hib)
         == Mixed(v, f, i, hib) - v[i + 1] * Rising(f - 1, i + 1) + v[i + 1] * Rising(f, i + 1)
  {
    SumLast(v, f, 0, i);
  }

  lemma Subtract(v: seq<int>, w: seq<int>, f: nat, i: nat, hib: nat)
    requires i < hib < |v| && f > 0 && w == v[i := v[i] - (i + 1) * v[i + 1]]
    ensures Mixed(w, f, i + 1, hib) == Mixed(v, f, i, hib)
  {
    MixedNext(w, f, i, hib);
    SumFrame(v, w, f, 0, i);
    SumFrame(v, w, f - 1, i + 2, hib + 1);
    RisingShift(f, i);
    var r, j, d := Rising(f, i), i + 1, v[i + 1];
    assert (v[i] - j * d) * r == v[i] * r - j * d * r;
    assert d * (Rising(f, i + 1) - j * r) == d * Rising(f, i + 1) - d * (j * r);
    MulAssoc(d, j, r);
    MulComm(j, d);
  }

  predicate Int32(x: int) { -0x8000_0000 <= x <= 0x7fff_ffff }

  lemma InRange(vi: int, vj: int, f: nat, i: nat)
    requires -(i as int) <= vi < f + i && 0 <= vj < f + i && (i + 1) * (f + i) < 0x7fff_ff00 && i < DIGITS
    ensures 0 <= (i + 1) * vj <= (i + 1) * (f + i) && f + i <= (i + 1) * (f + i)
  {
    MulMono(0, vj, i + 1);
    MulMono(vj, f + i, i + 1);
    MulMono(1, i + 1, f + i);
    MulComm(i + 1, vj);
    MulComm(i + 1, f + i);
  }

  /** At most i + 1 borrows are made for digit i. */
  lemma BorrowCount(vi: int, vj: int, b: int, f: nat, i: nat)
    requires -(i as int) <= vi && 0 <= vj < f + i && vi - (i + 1) * vj + b * (f + i) < 0
    ensures b < i + 1
  {
    MulMono(vj, f + i - 1, i + 1);
    assert (f + i - 1) * (i + 1) == (i + 1) * (f + i) - (i + 1);
    MulComm(i + 1, vj);
    if b >= i + 1 {
      MulMono(i + 1, b, f + i);
      assert false;
    }
  }

  lemma OneMoreBorrow(b: int, base: int)
    ensures (b + 1) * base == b * base + base
  {
  }

  /** The bases stay small: their square is at most N. */
  lemma SmallBases(f: nat, i: nat)
    requires f >= 1 && f * (f - 1) <= 0x7fff_ffff && i < DIGITS
    ensures (i + 1) * (f + i) < 0x7fff_ff00
  {
    if f >= 46342 {
      MulMono(46342, f, f - 1);
      MulMono(46341, f - 1, 46342);
      MulComm(46342, f - 1);
      assert false;
    }
    MulMono(i + 1, 24, f + i);
  }

  /** One digit of a pass: subtract, then borrow until the digit is not negative.  As long as the bases
      are small nothing leaves the range of an int on the way. */
  method StepDigit(val: array<int>, f: nat, i: nat, hib: nat)
    requires i < hib < val.Length && f >= 3 && (i + 1) * (f + i) < 0x7fff_ff00 && i < DIGITS && val[i] >= -(i as int)
    requires val[i] < f + i && 0 <= val[i + 1] < f + i
    modifies val
    ensures forall k | 0 <= k < val.Length && k != i && k != i + 1 :: val[k] == old(val[k])
    ensures 0 <= val[i] < f + i && -(i + 1) <= val[i + 1] <= old(val[i + 1])
    ensures Mixed(val[..], f, i + 1, hib) == old(Mixed(val[..], f, i, hib))
  {
    var j := i + 1;
    ghost var v := val[..];
    InRange(val[i], val[j], f, i);
    assert Int32(j * val[j]) && Int32(val[i] - j * val[j]) && Int32(f + i);
    val[i] := val[i] - j * val[j];
    assert val[..] == v[i := v[i] - (i + 1) * v[i + 1]];
    Subtract(v, val[..], f, i, hib);
    while val[i] < 0
      invariant val[i] < f + i && val[j] <= v[j] && val[i] == v[i] - j * v[j] + (v[j] - val[j]) * (f + i) && v[j] - val[j] <= j
      invariant forall k | 0 <= k < val.Length && k != i && k != j :: val[k] == old(val[k])
      invariant Mixed(val[..], f, j, hib) == Mixed(v, f, i, hib)
      decreases -val[i]
    {
      ghost var u := val[..];
      BorrowCount(v[i], v[j], v[j] - val[j], f, i);
      OneMoreBorrow(v[j] - val[j], f + i);
      assert Int32(val[i] + (f + i)) && Int32(val[j] - 1);
      val[i] := val[i] + (f + i);
      val[j] := val[j] - 1;
      assert val[..] == u[i := u[i] + (f + i)][i + 1 := u[i + 1] - 1];
      Borrow(u, val[..], f, i, hib);
    }
  }

  /** The top digit absorbs borrows without going negative. */
  lemma TopDigit(v: seq<int>, f: nat, hib: nat, N: nat)
    requires hib < |v| && f > 0 && N > 0 && Digits(v, f, 0, hib) && v[hib] < f + hib
    requires Mixed(v, f, hib, hib) == N
    ensures Digits(v, f, 0, hib + 1) && Sum(v, f, 0, hib + 1) == N
  {
    SumBound(v, f, hib);
    SumLast(v, f, 0, hib);
    if v[hib] < 0 { MulMono(v[hib], -1, Rising(f, hib)); }
  }

  lemma ZeroDigit(v: seq<int>, f: nat, hib: nat)
    requires hib < |v| && v[hib] == 0 && Sum(v, f, 0, hib + 1) > 0
    ensures hib > 0 && Sum(v, f, 0, hib) == Sum(v, f, 0, hib + 1)
  {
    SumLast(v, f, 0, hib);
    assert Sum(v, f, 0, 0) == 0;
  }

  /** Raise the first base from f-1 to f: the body of the main loop, in 32-bit arithmetic. */
  method Rebase(val: array<int>, f: nat, hib0: nat, ghost N: nat) returns (hib: nat)
    requires hib0 < val.Length && hib0 < DIGITS && f >= 3 && N > 0 && f * (f - 1) <= 0x7fff_ffff
    requires Digits(val[..], f - 1, 0, hib0 + 1) && Sum(val[..], f - 1, 0, hib0 + 1) == N
    modifies val
    ensures hib <= hib0 && val[hib] > 0
    ensures Digits(val[..], f, 0, hib + 1) && Sum(val[..], f, 0, hib + 1) == N
  {
    assert Rising(f - 1, 0) == 1 && Rising(f, 0) == 1;
    var i := 0;
    while i != hib0
      invariant 0 <= i <= hib0
      invariant Digits(val[..], f, 0, i) && -i <= val[i] < f + i
      invariant Digits(val[..], f - 1, i + 1, hib0 + 1)
      invariant Mixed(val[..], f, i, hib0) == N
      decreases hib0 - i
    {
      ghost var v := val[..];
      assert v[i + 1] == val[i + 1];
      SmallBases(f, i);
      StepDigit(val, f, i, hib0);
      assert forall k | 0 <= k < val.Length && k != i && k != i + 1 :: val[..][k] == v[k];
      i := i + 1;
    }
    TopDigit(val[..], f, hib0, N);
    hib := hib0;
    while val[hib] == 0
      invariant hib <= hib0
      invariant Digits(val[..], f, 0, hib + 1) && Sum(val[..], f, 0, hib + 1) == N
      decreases hib
    {
      ZeroDigit(val[..], f, hib);
      hib := hib - 1;
    }
    assert val[..][hib] == val[hib];
  }

  lemma HighDigit(v: seq<int>, f: nat, hib: nat, N: nat)
    requires hib < |v| && f > 0 && Digits(v, f, 0, hib + 1) && v[hib] > 0
    requires Sum(v, f, 0, hib + 1) == N
    ensures Rising(f, hib) <= N < Rising(f, hib + 1)
  {
    SumBound(v, f, hib);
    SumBound(v, f, hib + 1);
    SumLast(v, f, 0, hib);
    MulMono(1, v[hib], Rising(f, hib));
  }

  lemma RisingTwo(f: nat)
    ensures Rising(f, 0) == 1 && Rising(f, 1) == f && Rising(f, 2) == f * (f + 1)
  {
  }

  /** With three digits or more the next base is small against N. */
  lemma NextBase(v: seq<int>, f: nat, hib: nat, N: nat)
    requires 2 <= hib < |v| && f > 0 && Digits(v, f, 0, hib + 1) && v[hib] > 0 && Sum(v, f, 0, hib + 1) == N
    ensures (f + 1) * f <= N && f < N
  {
    HighDigit(v, f, hib, N);
    RisingTwo(f);
    RisingMono(f, 2, hib);
    MulMono(2, f + 1, f);
    MulComm(f, f + 1);
  }

  /** `factor(N)`: the smallest prime factor of every N > 1 that fits in an int. */
  method SmallestFactor(N: nat) returns (p: nat)
    requires 1 <= N <= 0x7fff_ffff
    ensures N > 1 ==> SmallestPrimeFactor(p, N)
    ensures N == 1 ==> p == 1
  {
    var val := new int[DIGITS];
    var hib := Represent(N, val);
    var f := 2;
    LowDigit(val[..], f, hib + 1);
    while val[0] != 0 && hib > 1
      invariant 2 <= f && hib < 12 && val[hib] > 0
      invariant Digits(val[..], f, 0, hib + 1) && Sum(val[..], f, 0, hib + 1) == N
      invariant NoneBelow(N, f) && N % f == val[0]
      decreases N - f
    {
      NextBase(val[..], f, hib, N);
      f := f + 1;
      hib := Rebase(val, f, hib, N);
      LowDigit(val[..], f, hib + 1);
    }
    HighDigit(val[..], f, hib, N);
    RisingTwo(f);
    RisingMono(f, hib + 1, if hib <= 1 then 2 else hib + 1);
    if val[0] == 0 {
      p := f;
      LeastDivisorPrime(f, N);
    } else {
      p := N;
      if N > 1 {
        PrimeBySquare(N, f);
        DivModUnique(N, N, 1, 0);
      }
    }
  }

  // ---- printfactors ----

  ghost function Product(ps: seq<nat>): nat
  {
    if ps == [] then 1 else Product(ps[..|ps| - 1]) * ps[|ps| - 1]
  }

  lemma NextFactorLarger(n: nat, p: nat, q: nat)
    requires n > 0 && SmallestPrimeFactor(p, n) && n / p > 1 && SmallestPrimeFactor(q, n / p)
    ensures p <= q
  {
    var e := QuotientDivides(n, p);
    DivModUnique(n, p, e, 0);
    DividesTransitive(q, e, n);
  }

  /** `printfactors(n)`: the prime factorization of n, smallest factor first. */
  method PrintFactors(n0: nat) returns (out: seq<nat>)
    requires 1 <= n0 <= 0x7fff_ffff
    ensures n0 == 1 ==> out == [1]
    ensures n0 > 1 ==> forall k | 0 <= k < |out| :: Prime(out[k])
    ensures forall j, k | 0 <= j < k < |out| :: out[j] <= out[k]
    ensures Product(out) == n0
  {
    if n0 == 1 {
      out := [1];
      assert out[..0] == [];
      return;
    }
    var n := n0;
    out := [];
    while n != 1
      invariant 1 <= n <= n0 && Product(out) * n == n0
      invariant forall k | 0 <= k < |out| :: Prime(out[k])
      invariant forall j, k | 0 <= j < k < |out| :: out[j] <= out[k]
      invariant out != [] && n > 1 ==> forall q | SmallestPrimeFactor(q, n) :: out[|out| - 1] <= q
      decreases n
    {
      var prime := SmallestFactor(n);
      ghost var e := QuotientDivides(n, prime);
      DivModUnique(n, prime, e, 0);
      MulMono(2, prime, e);
      MulAssoc(Product(out), prime, e);
      MulComm(e, prime);
      ghost var before := out;
      out := out + [prime];
      assert out[..|out| - 1] == before;
      forall q | e > 1 && SmallestPrimeFactor(q, e) ensures prime <= q {
        NextFactorLarger(n, prime, q);
      }
      n := n / prime;
    }
  }
}
