/** The exact floating remainder of src/libm/fmod.c, on the two 32-bit words of a double.

    Magnitudes are measured in units of 2^-1074, the smallest subnormal, so that every
    finite double is a whole number of units and the remainder can be stated with `%`.
 */
module Fmod {
  import opened Words

  /** A double as `EXTRACT_WORDS` splits it and `INSERT_WORDS` joins it. */
  datatype Double = Double(msw: Word, lsw: Word)

  datatype Remainder = Number(value: Double) | Invalid

  predicate Negative(d: Double) { d.msw >= 0x8000_0000 }

  function Magnitude(d: Double): nat { d.msw % 0x8000_0000 }

  function Exponent(d: Double): nat { Magnitude(d) / 0x10_0000 }

  function Fraction(d: Double): nat { Join(Magnitude(d) % 0x10_0000, d.lsw) }

  predicate Finite(d: Double) { Exponent(d) < 2047 }

  predicate NaN(d: Double) { Exponent(d) == 2047 && Fraction(d) != 0 }

  function Join(hi: int, lo: int): int { hi * 0x1_0000_0000 + lo }

  /** The magnitude of a finite double in units of 2^-1074. */
  function Units(d: Double): nat { UnitsOf(Exponent(d), Fraction(d)) }

  function UnitsOf(exponent: nat, fraction: nat): nat
  {
    if exponent == 0 then fraction else Shl(0x10_0000_0000_0000 + fraction, exponent - 1)
  }

  /** `m * 2^(e+1022)` is `units`: a 53-bit significand `m` with binary exponent `e`. */
  ghost predicate Scaled(m: int, e: int, units: int)
  {
    Shl(m, Pos(e + 1022)) == Shl(units, Pos(-(e + 1022)))
  }

  function Pos(n: int): nat { if n < 0 then 0 else n }

  // ---- order of magnitudes ----

  lemma WordOrder(x: Double, y: Double)
    requires Join(Magnitude(x), x.lsw) < Join(Magnitude(y), y.lsw)
    ensures Exponent(x) < Exponent(y) || (Exponent(x) == Exponent(y) && Fraction(x) < Fraction(y))
  {
  }

  lemma UnitsBounds(e: nat, f: nat)
    requires f < 0x10_0000_0000_0000
    ensures e == 0 ==> UnitsOf(e, f) < Shl(1, 52)
    ensures e != 0 ==> Shl(1, e + 51) <= UnitsOf(e, f) < Shl(1, e + 52)
  {
    hide Shl, Shr, Low, Or;
    Power52();
    Power53();
    if e != 0 {
      var m := 0x10_0000_0000_0000 + f;
      ShlShl(1, 52, e - 1);
      ShlShl(1, 53, e - 1);
      ShlLess(m, Shl(1, 52), e - 1);
      ShlLess(m, Shl(1, 53), e - 1);
    }
  }

  lemma UnitsOfMono(e: nat, f: nat, e': nat, f': nat)
    requires f < 0x10_0000_0000_0000 && f' < 0x10_0000_0000_0000
    requires e < e' || (e == e' && f < f')
    ensures UnitsOf(e, f) < UnitsOf(e', f')
  {
    hide Shl, Shr, Low, Or;
    if e == e' {
      if e != 0 { ShlLess(0x10_0000_0000_0000 + f, 0x10_0000_0000_0000 + f', e - 1); }
    } else {
      UnitsBounds(e, f);
      UnitsBounds(e', f');
      ShlGrows(1, e + 52, e' + 51);
      ShlGrows(1, 52, e' + 51);
    }
  }

  /** The integer order of the words is the order of the magnitudes. */
  lemma UnitsMono(x: Double, y: Double)
    requires Join(Magnitude(x), x.lsw) < Join(Magnitude(y), y.lsw)
    ensures Units(x) < Units(y)
  {
    WordOrder(x, y);
    UnitsOfMono(Exponent(x), Fraction(x), Exponent(y), Fraction(y));
  }

  lemma ZeroUnits(y: Double)
    ensures Units(y) == 0 <==> Magnitude(y) == 0 && y.lsw == 0
  {
  }

  // ---- scaling ----

  lemma ShlFront(x: int, n: nat)
    requires n > 0
    ensures Shl(2 * x, n - 1) == Shl(x, n)
  {
    ShlShl(x, 1, n - 1);
    assert Shl(x, 1) == 2 * x;
  }

  lemma ScaledDouble(m: int, e: int, units: int)
    requires Scaled(m, e, units)
    ensures Scaled(2 * m, e - 1, units)
  {
    if e + 1022 > 0 {
      ShlFront(m, e + 1022);
    }
  }

  lemma {:induction false} ScaledShift(m: int, e: int, units: int, n: nat)
    requires Scaled(m, e, units)
    ensures Scaled(Shl(m, n), e - n, units)
    decreases n
  {
    if n != 0 {
      ScaledShift(m, e, units, n - 1);
      ScaledDouble(Shl(m, n - 1), e - (n - 1), units);
    }
  }

  lemma ModDouble(x: nat, y: nat)
    requires y > 0
    ensures 2 * x % (2 * y) == 2 * (x % y)
  {
    var q, r := x / y, x % y;
    assert x == q * y + r;
    MulAssoc(q, 2, y);
    assert 2 * x == q * (2 * y) + 2 * r;
    DivModUnique(2 * x, 2 * y, q, 2 * r);
  }

  lemma {:induction false} ModShl(x: nat, y: nat, n: nat)
    requires y > 0
    ensures Shl(x, n) % Shl(y, n) == Shl(x % y, n)
  {
    if n != 0 {
      ModShl(x, y, n - 1);
      ModDouble(Shl(x, n - 1), Shl(y, n - 1));
    }
  }

  /** The remainder of aligned significands is the remainder of the numbers. */
  lemma ScaledMod(x: nat, y: nat, e: int, ux: nat, uy: nat)
    requires y > 0 && uy > 0 && Scaled(x, e, ux) && Scaled(y, e, uy)
    ensures Scaled(x % y, e, ux % uy)
  {
    ModShl(x, y, Pos(e + 1022));
    ModShl(ux, uy, Pos(-(e + 1022)));
  }

  /** Of two 53-bit significands the larger number has the larger exponent. */
  lemma ExponentOrder(m: nat, i: int, u: nat, d: nat, j: int, v: nat)
    requires 0x10_0000_0000_0000 <= m < 0x20_0000_0000_0000
    requires 0x10_0000_0000_0000 <= d < 0x20_0000_0000_0000
    requires Scaled(m, i, u) && Scaled(d, j, v) && v <= u
    ensures i >= j
  {
    if i < j {
      ScaledShift(d, j, v, j - i);
      ShlGrows(d, 1, j - i);
      assert Shl(d, 1) == 2 * d;
      ShlLess(u, v, Pos(-(i + 1022)));
      ShlLess(m, Shl(d, j - i), Pos(i + 1022));
      assert false;
    }
  }

  /** Dividing the significands after aligning them divides the numbers. */
  lemma Aligned(m: nat, i: int, u: nat, d: nat, j: int, v: nat)
    requires 0x10_0000_0000_0000 <= m < 0x20_0000_0000_0000
    requires 0x10_0000_0000_0000 <= d < 0x20_0000_0000_0000
    requires Scaled(m, i, u) && Scaled(d, j, v) && 0 < v <= u
    ensures i >= j && Scaled(Shl(m, i - j) % d, j, u % v)
  {
    hide Shl, Shr, Low, Or;
    ExponentOrder(m, i, u, d, j, v);
    ScaledShift(m, i, u, i - j);
    ScaledMod(Shl(m, i - j), d, j, u, v);
  }

  // ---- two-word numbers ----

  lemma JoinShl(hi: nat, lo: nat)
    ensures Join(hi, lo) == Shl(hi, 32) + lo
  {
    Power32();
    ShlBy(hi, 32, 0x1_0000_0000);
  }

  /** Where the top bit of a shifted number came from. */
  lemma TopBit(x: nat, n: nat, k: nat)
    requires n <= k
    ensures Shl(x, n) < Shl(1, k) <==> x < Shl(1, k - n)
  {
    ShlShl(1, k - n, n);
    ShlLess(x, Shl(1, k - n), n);
  }

  lemma ShiftCount(x: nat, n: nat, k: nat)
    requires x > 0 && Shl(x, n) < Shl(1, k)
    ensures n < k
  {
    if k <= n { ShlGrows(1, k, n); ShlLess(x, 1, n); }
  }

  /** Binary exponent of a nonzero finite magnitude (`ix = ilogb(x)` in the source). */
  method Ilogb(hi: nat, lo: Word) returns (e: int)
    requires hi < 0x7ff0_0000 && Join(hi, lo) > 0
    ensures hi >= 0x10_0000 ==> e == hi / 0x10_0000 - 1023
    ensures hi < 0x10_0000 ==>
      e < -1022 && Shl(1, 52) <= Shl(Join(hi, lo), -1022 - e) < Shl(1, 53)
  {
    hide Shr, Low, Or;
    Power20();
    Power21();
    Power31();
    Power32();
    Power52();
    Power53();
    if hi < 0x10_0000 {
      var i: nat;
      ghost var n := 0;
      if hi == 0 {
        e, i := -1043, lo;
        while 0 < i < 0x8000_0000
          invariant 0 < i < 0x1_0000_0000 && e == -1043 - n && i == Shl(lo, n)
          decreases 0x1_0000_0000 - i
        {
          i, e, n := 2 * i, e - 1, n + 1;
        }
        ShlShl(lo, n, 21);
        ShlBy(i, 21, 0x20_0000);
      } else {
        e, i := -1022, Shl32(hi, 11);
        Power11();
        ShlBy(hi, 11, 0x800);
        while 0 < i < 0x8000_0000
          invariant 0 < i < 0x1_0000_0000 && e == -1022 - n && i == Shl(hi, 11 + n)
          invariant n == 0 ==> i < 0x8000_0000
          decreases 0x1_0000_0000 - i
        {
          i, e, n := 2 * i, e - 1, n + 1;
        }
        HighBits(hi, lo, n);
      }
    } else {
      e := Shr(hi, 20) - 1023;
      Shr20(hi);
    }
  }

  lemma Shr20(x: nat)
    ensures Shr(x, 20) == x / 0x10_0000 && Low(x, 20) == x % 0x10_0000
  {
    Power20();
    SplitBy(x, 20, 0x10_0000);
  }

  lemma HighBits(hi: nat, lo: Word, n: nat)
    requires hi > 0 && Shl(1, 31) <= Shl(hi, 11 + n) < Shl(1, 32)
    ensures Shl(1, 52) <= Shl(Join(hi, lo), n) < Shl(1, 53)
  {
    hide Shl, Shr, Low, Or;
    ShiftCount(hi, 11 + n, 32);
    TopBit(hi, 11 + n, 31);
    TopBit(hi, 11 + n, 32);
    JoinBounds(hi, lo, 20 - n);
    TopBit(Join(hi, lo), n, 52);
    TopBit(Join(hi, lo), n, 53);
  }

  lemma JoinBounds(hi: nat, lo: Word, k: nat)
    requires Shl(1, k) <= hi < Shl(1, k + 1)
    ensures Shl(1, k + 32) <= Join(hi, lo) < Shl(1, k + 33)
  {
    hide Shr, Low, Or;
    Power32();
    ShlShl(1, k, 32);
    ShlBy(Shl(1, k), 32, 0x1_0000_0000);
  }

  /** What leaves the low word on a shift by `n` is its top `n` bits. */
  lemma ShiftLow(lo: Word, n: nat)
    requires 0 < n <= 31
    ensures Shl(lo, n) == Join(Shr(lo, 32 - n), Shl32(lo, n)) && Shr(lo, 32 - n) < Shl(1, n)
  {
    hide Shl, Shr, Low, Or;
    var q := 32 - n;
    var t, b := Shr(lo, q), Low(lo, q);
    Power32();
    Split(lo, q);
    ShlAdd(Shl(t, q), b, n);
    ShlShl(t, q, n);
    ShlBy(t, 32, 0x1_0000_0000);
    TopBit(b, n, 32);
    TopBit(t, q, 32);
    DivModUnique(Shl(lo, n), 0x1_0000_0000, t, Shl(b, n));
  }

  lemma ShiftJoin(hi: nat, lo: nat, n: nat)
    ensures Shl(Join(hi, lo), n) == Join(Shl(hi, n), Shl(lo, n))
  {
    hide Shl, Shr, Low, Or;
    JoinShl(hi, lo);
    ShlAdd(Shl(hi, 32), lo, n);
    ShlShl(hi, 32, n);
    ShlShl(hi, n, 32);
    JoinShl(Shl(hi, n), Shl(lo, n));
  }

  /** Splitting `x * 2^n` into words: what `(hx<<n)|(lx>>(32-n))` and `lx<<n` compute. */
  lemma ShiftWords(hi: nat, lo: Word, n: nat)
    requires 0 < n <= 31 && Shl(Join(hi, lo), n) < 0x20_0000_0000_0000
    ensures Join(Or(Shl32(hi, n), Shr(lo, 32 - n)), Shl32(lo, n)) == Shl(Join(hi, lo), n)
  {
    hide Shl, Shr, Low, Or;
    ShiftLow(lo, n);
    ShiftJoin(hi, lo, n);
    assert Shl(hi, n) < 0x20_0000;
    assert Shl32(hi, n) == Shl(hi, n);
    OrDisjoint(hi, Shr(lo, 32 - n), n);
  }

  /** Significand of a nonzero finite magnitude, a subnormal one shifted up to bit 52. */
  method Significand(hi: nat, lo: Word, e: int) returns (h: nat, l: Word)
    requires hi < 0x7ff0_0000
    requires hi >= 0x10_0000 ==> e == hi / 0x10_0000 - 1023
    requires hi < 0x10_0000 ==>
      e < -1022 && Shl(1, 52) <= Shl(Join(hi, lo), -1022 - e) < Shl(1, 53)
    ensures 0x10_0000 <= h < 0x20_0000
    ensures hi >= 0x10_0000 ==> Join(h, l) == 0x10_0000_0000_0000 + Join(hi % 0x10_0000, lo)
    ensures hi < 0x10_0000 ==> Join(h, l) == Shl(Join(hi, lo), -1022 - e)
  {
    hide Shl, Shr, Low, Or;
    ShiftByZero(1);
    ShiftByZero(hi);
    Power20();
    Power52();
    Power53();
    if e >= -1022 {
      AndMask(hi, 0, 20);
      Shr20(hi);
      OrDisjoint(1, And(hi, 0xf_ffff), 20);
      h, l := Or(0x10_0000, And(hi, 0xf_ffff)), lo;
    } else {
      var n := -1022 - e;
      if n <= 31 {
        ShiftWords(hi, lo, n);
        h := Or(Shl32(hi, n), Shr(lo, 32 - n));
        l := Shl32(lo, n);
      } else {
        SubnormalLow(hi, lo, n);
        h := Shl32(lo, n - 32);
        l := 0;
      }
    }
  }

  lemma SubnormalLow(hi: nat, lo: Word, n: nat)
    requires n > 31 && Shl(Join(hi, lo), n) < 0x20_0000_0000_0000
    ensures hi == 0 && Shl32(lo, n - 32) == Shl(lo, n - 32)
    ensures Shl(lo, n) == Shl(lo, n - 32) * 0x1_0000_0000
  {
    hide Shl, Shr, Low, Or;
    Power32();
    ShlGrows(Join(hi, lo), 32, n);
    ShlBy(Join(hi, lo), 32, 0x1_0000_0000);
    ShlShl(lo, n - 32, 32);
    ShlBy(Shl(lo, n - 32), 32, 0x1_0000_0000);
  }

  /** What `Ilogb` and `Significand` compute is the number itself. */
  lemma SignificandScaled(d: Double, e: int, m: nat)
    requires Exponent(d) != 0 ==> e == Exponent(d) - 1023 && m == 0x10_0000_0000_0000 + Fraction(d)
    requires Exponent(d) == 0 ==> e < -1022 && m == Shl(Fraction(d), -1022 - e)
    ensures Scaled(m, e, Units(d))
  {
  }

  /** Subtraction of two-word numbers with borrow: `hz=hx-hy; lz=lx-ly; if(lx<ly) hz-=1;`. */
  method SubWords(hx: nat, lx: Word, hy: nat, ly: Word) returns (hz: int, lz: Word)
    ensures Join(hz, lz) == Join(hx, lx) - Join(hy, ly)
    ensures hz < 0 <==> Join(hx, lx) < Join(hy, ly)
  {
    hz, lz := hx - hy, (lx - ly) % 0x1_0000_0000;
    if lx < ly { hz := hz - 1; }
  }

  /** Doubling a two-word number: `hx = hx+hx+(lx>>31); lx = lx+lx;`. */
  method DoubleWords(hx: nat, lx: Word) returns (h: nat, l: Word)
    ensures Join(h, l) == 2 * Join(hx, lx)
  {
    Power31();
    Shr31(lx);
    h, l := hx + hx + Shr(lx, 31), (lx + lx) % 0x1_0000_0000;
  }

  lemma AddMultiple(x: nat, y: nat, k: nat)
    requires y > 0
    ensures (x + y * k) % y == x % y
  {
    var q, r := x / y, x % y;
    assert x + y * k == (q + k) * y + r;
    DivModUnique(x + y * k, y, q + k, r);
  }

  /** One subtraction does not change the remainder of the shifted number. */
  lemma StepMod(m: nat, y: nat, n: nat)
    requires 0 < y <= m && n > 0
    ensures Shl(m, n) % y == Shl(2 * (m - y), n - 1) % y
  {
    hide Shl, Shr, Low, Or;
    ShlAdd(m - y, y, n);
    ShlFront(m - y, n);
    ShlIsMul(y, n);
    AddMultiple(Shl(m - y, n), y, Shl(1, n));
  }

  lemma ModSmall(x: nat, y: nat)
    requires 0 < y && x < 2 * y
    ensures x % y == if x < y then x else x - y
  {
    DivModUnique(x, y, if x < y then 0 else 1, if x < y then x else x - y);
  }

  /** The fixed-point loop: shift and subtract `n0` times, then subtract once more. */
  method FixedPoint(hx0: nat, lx0: Word, hy: nat, ly: Word, n0: nat) returns (hx: nat, lx: Word)
    requires Join(hx0, lx0) < 2 * Join(hy, ly)
    ensures Join(hx, lx) == Shl(Join(hx0, lx0), n0) % Join(hy, ly)
  {
    hide Shl, Or;
    ghost var y, goal := Join(hy, ly), Shl(Join(hx0, lx0), n0) % Join(hy, ly);
    var hz, lz;
    var n := n0;
    hx, lx := hx0, lx0;
    while n != 0
      invariant 0 <= n && Join(hx, lx) < 2 * y && Shl(Join(hx, lx), n) % y == goal
      decreases n
    {
      ghost var m := Join(hx, lx);
      hz, lz := SubWords(hx, lx, hy, ly);
      if hz < 0 {
        ShlFront(m, n);
        hx, lx := DoubleWords(hx, lx);
      } else {
        StepMod(m, y, n);
        OrIsZero(hz, lz);
        if Or(hz, lz) == 0 {
          ShlZero(n - 1);
          ModSmall(0, y);
          hx, lx := 0, 0;
          return;
        }
        hx, lx := DoubleWords(hz, lz);
      }
      n := n - 1;
    }
    ShiftByZero(Join(hx, lx));
    ModSmall(Join(hx, lx), y);
    hz, lz := SubWords(hx, lx, hy, ly);
    if hz >= 0 { hx, lx := hz, lz; }
  }

  /** Shift a nonzero significand up until bit 52 is its top bit. */
  method Normalize(hx0: nat, lx0: Word, e0: int, ghost units: nat) returns (hx: nat, lx: Word, e: int)
    requires hx0 < 0x20_0000 && Join(hx0, lx0) > 0 && Scaled(Join(hx0, lx0), e0, units)
    ensures 0x10_0000 <= hx < 0x20_0000 && e <= e0 && Scaled(Join(hx, lx), e, units)
  {
    hx, lx, e := hx0, lx0, e0;
    while hx < 0x10_0000
      invariant hx < 0x20_0000 && Join(hx, lx) > 0 && e <= e0 && Scaled(Join(hx, lx), e, units)
      decreases 0x20_0000_0000_0000 - Join(hx, lx)
    {
      ScaledDouble(Join(hx, lx), e, units);
      hx, lx := DoubleWords(hx, lx);
      e := e - 1;
    }
  }

  lemma ShiftDownLow(hx: nat, lx: Word, n: nat, units: nat)
    requires 0 < n <= 31 && Join(hx, lx) == Shl(units, n)
    ensures units == Shl(hx, 32 - n) + Shr(lx, n) && Shr(lx, n) < Shl(1, 32 - n)
  {
    hide Shl, Shr, Low, Or;
    var q := 32 - n;
    var s, c := Shr(lx, n), Low(lx, n);
    Power32();
    Split(lx, n);
    JoinShl(hx, lx);
    ShlShl(hx, q, n);
    ShlAdd(Shl(hx, q), s, n);
    SplitUnique(Join(hx, lx), n, Shl(hx, q) + s, c);
    SplitUnique(Join(hx, lx), n, units, 0);
    TopBit(s, n, 32);
  }

  lemma ShiftDownHigh(hx: nat, n: nat)
    requires 0 < n <= 31
    ensures Shl(hx, 32 - n) == Join(Shr(hx, n), Shl32(hx, 32 - n))
    ensures Shl32(hx, 32 - n) == Shl(Low(hx, n), 32 - n)
    ensures Shl32(hx, 32 - n) + Shl(1, 32 - n) <= 0x1_0000_0000
  {
    hide Shl, Shr, Low, Or;
    var q := 32 - n;
    var t, b := Shr(hx, n), Low(hx, n);
    Power32();
    Split(hx, n);
    ShlAdd(Shl(t, n), b, q);
    ShlShl(t, n, q);
    ShlBy(t, 32, 0x1_0000_0000);
    ShlAdd(b, 1, q);
    ShlShl(1, n, q);
    ShlLess(Shl(1, n), b + 1, q);
    DivModUnique(Shl(hx, q), 0x1_0000_0000, t, Shl(b, q));
  }

  /** The right shift by up to 31 that makes a subnormal result drops only zero bits. */
  lemma ShiftDownExact(hx: nat, lx: Word, n: nat, units: nat)
    requires 0 < n <= 31 && Join(hx, lx) == Shl(units, n)
    ensures Or(Shr(lx, n), Shl32(hx, 32 - n)) < 0x1_0000_0000
    ensures Join(Shr(hx, n), Or(Shr(lx, n), Shl32(hx, 32 - n))) == units
  {
    hide Shl, Shr, Low, Or;
    ShiftDownLow(hx, lx, n, units);
    ShiftDownHigh(hx, n);
    OrDisjoint(Low(hx, n), Shr(lx, n), 32 - n);
    OrComm(Shl32(hx, 32 - n), Shr(lx, n));
  }

  lemma ShiftDownFar(hx: nat, lx: Word, n: nat, units: nat)
    requires n > 31 && hx < 0x20_0000 && Join(hx, lx) == Shl(units, n)
    ensures Shr(hx, n - 32) == units < 0x20_0000
  {
    hide Shl, Shr, Low, Or;
    Power32();
    ShlShl(units, n - 32, 32);
    ShlBy(Shl(units, n - 32), 32, 0x1_0000_0000);
    SplitUnique(hx, n - 32, units, 0);
  }

  lemma HighShiftedOut(hx: nat, n: nat)
    requires hx < 0x20_0000
    ensures n > 20 ==> Shr(hx, n) == 0
    ensures n > 0 ==> Shr(hx, n) < 0x10_0000
  {
    Power21();
    if n > 20 {
      ShlGrows(1, 21, n);
      ShlZero(n);
      SplitUnique(hx, n, 0, hx);
    } else if n > 0 {
      Split(hx, n);
      ShlGrows(Shr(hx, n), 1, n);
      assert Shl(Shr(hx, n), 1) == 2 * Shr(hx, n);
    }
  }

  lemma OrSign(h: nat, sx: Word)
    requires (h < 0x8000_0000 || h == sx) && (sx == 0 || sx == 0x8000_0000)
    ensures Or(h, sx) == if h == sx then sx else h + sx
  {
    Power31();
    if h < 0x8000_0000 {
      ShlZero(31);
      OrDisjoint(if sx == 0 then 0 else 1, h, 31);
      OrComm(h, sx);
    } else {
      OrIdem(sx);
    }
  }

  /** Put a normalized significand back into a double, with the sign word `sx`. */
  method Pack(hx: nat, lx: Word, e: int, sx: Word, ghost units: nat) returns (r: Double)
    requires 0x10_0000 <= hx < 0x20_0000 && e <= 1023 && (sx == 0 || sx == 0x8000_0000)
    requires Scaled(Join(hx, lx), e, units)
    ensures Finite(r) && Units(r) == units
    ensures Negative(r) <==> sx != 0
  {
    hide Shl, Shr, Or;
    ShiftByZero(units);
    if e >= -1022 {
      ExponentWord(hx, e + 1023);
      var h := Or(hx - 0x10_0000, Shl32(e + 1023, 20));
      OrSign(h, sx);
      r := Double(Or(h, sx), lx);
      Decode(r, e + 1023, hx - 0x10_0000);
      NormalUnits(r, hx, lx, e);
    } else {
      ShiftByZero(Join(hx, lx));
      var h, l := ShiftDown(hx, lx, -1022 - e, sx, units);
      r := Double(Or(h, sx), l);
    }
  }

  /** The subnormal output: shift right, and put the sign in place of an empty high word. */
  method ShiftDown(hx: nat, lx: Word, n: nat, sx: Word, ghost units: nat) returns (h: nat, l: Word)
    requires 0x10_0000 <= hx < 0x20_0000 && (sx == 0 || sx == 0x8000_0000)
    requires n > 0 && Join(hx, lx) == Shl(units, n)
    ensures Or(h, sx) < 0x1_0000_0000
    ensures Units(Double(Or(h, sx), l)) == units && Exponent(Double(Or(h, sx), l)) == 0
    ensures Negative(Double(Or(h, sx), l)) <==> sx != 0
  {
    hide Shl, Shr, Or;
    HighShiftedOut(hx, n);
    if n <= 31 { ShiftDownExact(hx, lx, n, units); } else { ShiftDownFar(hx, lx, n, units); }
    ghost var top := if n <= 20 then Shr(hx, n) else 0;
    if n <= 20 {
      l := Or(Shr(lx, n), Shl32(hx, 32 - n));
      h := Shr(hx, n);
    } else if n <= 31 {
      OrComm(Shr(lx, n), Shl32(hx, 32 - n));
      l := Or(Shl32(hx, 32 - n), Shr(lx, n));
      h := sx;
    } else {
      l := Shr(hx, n - 32);
      h := sx;
    }
    assert Join(top, l) == units;
    OrSign(h, sx);
    Decode(Double(Or(h, sx), l), 0, top);
  }

  lemma NormalUnits(d: Double, hx: nat, lx: Word, e: int)
    requires e >= -1022 && hx >= 0x10_0000
    requires Exponent(d) == e + 1023 && Fraction(d) == Join(hx - 0x10_0000, lx)
    ensures Units(d) == Shl(Join(hx, lx), e + 1022)
  {
  }

  /** The fields of a double whose high word was put together from them. */
  lemma Decode(d: Double, exponent: nat, top: nat)
    requires top < 0x10_0000 && exponent < 2048
    requires d.msw % 0x8000_0000 == exponent * 0x10_0000 + top
    ensures Exponent(d) == exponent && Fraction(d) == Join(top, d.lsw)
  {
  }

  lemma ExponentWord(hx: nat, b: nat)
    requires 0x10_0000 <= hx < 0x20_0000 && b <= 2046
    ensures Or(hx - 0x10_0000, Shl32(b, 20)) == b * 0x10_0000 + (hx - 0x10_0000)
  {
    hide Shl, Shr, Low, Or;
    Power20();
    ShlBy(b, 20, 0x10_0000);
    OrDisjoint(b, hx - 0x10_0000, 20);
    OrComm(Shl(b, 20), hx - 0x10_0000);
  }

  function Zero(sx: Word): (r: Double)
    requires sx == 0 || sx == 0x8000_0000
    ensures Finite(r) && Units(r) == 0 && (Negative(r) <==> sx != 0)
  {
    Double(sx, 0)
  }

  /** `(ly|-ly)>>31` is 1 exactly when ly is not zero, so the test singles out the NaNs. */
  lemma NaNTest(y: Double)
    ensures NaN(y) <==> Or(Magnitude(y), if y.lsw == 0 then 0 else 1) > 0x7ff0_0000
  {
    var h := Magnitude(y);
    assert Or(h / 2, 0) == h / 2;
    assert Or(h, 1) == if h % 2 == 0 then h + 1 else h;
  }

  lemma SignOfNegative(ly: Word)
    ensures Shr(Or(ly, (0x1_0000_0000 - ly) % 0x1_0000_0000), 31) == if ly == 0 then 0 else 1
  {
    var m := (0x1_0000_0000 - ly) % 0x1_0000_0000;
    Power32();
    OrBounds(ly, m, 32);
    Shr31(Or(ly, m));
  }

  /** Convert the fixed-point remainder back to floating and restore the sign. */
  method Convert(hx: nat, lx: Word, iy: int, sx: Word, ghost units: nat) returns (r: Double)
    requires hx < 0x20_0000 && iy <= 1023 && (sx == 0 || sx == 0x8000_0000)
    requires Scaled(Join(hx, lx), iy, units)
    ensures Finite(r) && Units(r) == units && (Negative(r) <==> sx != 0)
  {
    hide Shl, Or;
    OrIsZero(hx, lx);
    if Or(hx, lx) == 0 {
      ShlZero(Pos(iy + 1022));
      return Zero(sx);
    }
    var h, l, e := Normalize(hx, lx, iy, units);
    r := Pack(h, l, e, sx, units);
  }

  /** The case |x| > |y|. */
  method Divide(x: Double, y: Double, hx: nat, hy: nat, sx: Word) returns (r: Double)
    requires Finite(x) && Finite(y) && 0 < Units(y) < Units(x)
    requires hx == Magnitude(x) && hy == Magnitude(y)
    requires sx == if Negative(x) then 0x8000_0000 else 0
    ensures Finite(r) && (Negative(r) <==> Negative(x))
    ensures Units(r) == Units(x) % Units(y)
  {
    hide Shl, Or;
    ZeroUnits(x);
    ZeroUnits(y);
    var ix := Ilogb(hx, x.lsw);
    var iy := Ilogb(hy, y.lsw);
    var hx', lx := Significand(hx, x.lsw, ix);
    var hy', ly := Significand(hy, y.lsw, iy);
    ghost var m, d, u := Join(hx', lx), Join(hy', ly), Units(x) % Units(y);
    SignificandScaled(x, ix, m);
    SignificandScaled(y, iy, d);
    Aligned(m, ix, Units(x), d, iy, Units(y));
    var h, l := FixedPoint(hx', lx, hy', ly, ix - iy);
    assert h < 0x20_0000;
    r := Convert(h, l, iy, sx, u);
  }

  /** `fmod` is exact: section 7.12.10.1 of ISO C99 on every finite x and nonzero, non-NaN y. */
  method FMod(x: Double, y: Double) returns (r: Remainder)
    ensures r.Invalid? <==> !Finite(x) || NaN(y) || (Finite(y) && Units(y) == 0)
    ensures r.Number? ==> Finite(r.value) && (Negative(r.value) <==> Negative(x))
    ensures r.Number? && Finite(y) ==> Units(y) > 0 && Units(r.value) == Units(x) % Units(y)
    ensures r.Number? && !Finite(y) ==> r.value == x
  {
    var sx, hx := SplitSign(x.msw);
    var _, hy := SplitSign(y.msw);
    var exceptional := Exceptional(x, y, hx, hy);
    if exceptional {
      return Invalid;
    }
    var z := Reduce(x, y, hx, hy, sx);
    r := Number(z);
  }

  /** `fmod` past the exceptional arguments: compare the magnitudes, then divide. */
  method Reduce(x: Double, y: Double, hx: nat, hy: nat, sx: Word) returns (r: Double)
    requires Finite(x) && !NaN(y) && !(Finite(y) && Units(y) == 0)
    requires hx == Magnitude(x) && hy == Magnitude(y)
    requires sx == if Negative(x) then 0x8000_0000 else 0
    ensures Finite(r) && (Negative(r) <==> Negative(x))
    ensures Finite(y) ==> Units(y) > 0 && Units(r) == Units(x) % Units(y)
    ensures !Finite(y) ==> r == x
  {
    if hx <= hy {
      if hx < hy || x.lsw < y.lsw {
        Smaller(x, y);
        return x;
      }
      if x.lsw == y.lsw {
        Equal(x, y);
        return Zero(sx);
      }
    }
    assert Finite(y);
    UnitsMono(y, x);
    r := Divide(x, y, hx, hy, sx);
  }

  /** `sx = hx&0x80000000; hx ^= sx;` */
  method SplitSign(msw: Word) returns (sx: Word, h: nat)
    ensures sx == (if msw >= 0x8000_0000 then 0x8000_0000 else 0) && h == msw % 0x8000_0000
  {
    SignBits(msw);
    sx := And(msw, 0x8000_0000);
    h := And(msw, 0x7fff_ffff);
  }

  /** The test for y = 0, x not finite, or y not a number. */
  method Exceptional(x: Double, y: Double, hx: nat, hy: nat) returns (b: bool)
    requires hx == Magnitude(x) && hy == Magnitude(y)
    ensures b <==> !Finite(x) || NaN(y) || (Finite(y) && Units(y) == 0)
  {
    var ly: nat := y.lsw;
    OrIsZero(hy, ly);
    ZeroUnits(y);
    NaNTest(y);
    SignOfNegative(ly);
    b := Or(hy, ly) == 0 || hx >= 0x7ff0_0000
         || Or(hy, Shr(Or(ly, (0x1_0000_0000 - ly) % 0x1_0000_0000), 31)) > 0x7ff0_0000;
  }

  lemma Smaller(x: Double, y: Double)
    requires Join(Magnitude(x), x.lsw) < Join(Magnitude(y), y.lsw)
    ensures Units(y) > 0 && Units(x) % Units(y) == Units(x)
  {
    UnitsMono(x, y);
    ModSmall(Units(x), Units(y));
  }

  lemma Equal(x: Double, y: Double)
    requires Magnitude(x) == Magnitude(y) && x.lsw == y.lsw && Units(y) != 0
    ensures Units(x) % Units(y) == 0
  {
    ModSmall(Units(x), Units(y));
  }
}
