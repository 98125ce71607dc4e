/** Shifts, masks and the bitwise operators on natural numbers.

    The programs modelled in this project use C's `<<`, `>>`, `&` and `|` on non-negative
    machine words.  Here they are defined bit by bit, and the lemmas turn every use the
    programs make of them into arithmetic: shifting multiplies or divides by a power of
    two, a mask keeps a range of bits, and an "or" of words that share no bit is a sum.
 */
module Words {

  /** A 32-bit unsigned machine word. */
  type Word = w: nat | w < 0x1_0000_0000

  /** `x * 2^n` */
  function Shl(x: int, n: nat): (r: int)
    ensures 0 <= x ==> x <= r
    decreases n, x
  {
    if n == 0 then x else 2 * Shl(x, n - 1)
  }

  /** `x / 2^n` */
  function Shr(x: nat, n: nat): nat
    decreases n, x
  {
    if n == 0 then x else Shr(x / 2, n - 1)
  }

  /** `x % 2^n` */
  function Low(x: nat, n: nat): nat
    decreases n, x
  {
    if n == 0 then 0 else x % 2 + 2 * Low(x / 2, n - 1)
  }

  function And(a: nat, b: nat): nat
  {
    if a == 0 || b == 0 then 0
    else (if a % 2 == 1 && b % 2 == 1 then 1 else 0) + 2 * And(a / 2, b / 2)
  }

  function Or(a: nat, b: nat): nat
  {
    if a == 0 then b
    else if b == 0 then a
    else (if a % 2 == 1 || b % 2 == 1 then 1 else 0) + 2 * Or(a / 2, b / 2)
  }

  /** C's `x << n` on a 32-bit unsigned word. */
  function Shl32(x: nat, n: nat): nat
  {
    Shl(x, n) % 0x1_0000_0000
  }

  // ---- shifting ----

  lemma {:induction false} ShlAdd(x: int, y: int, n: nat)
    ensures Shl(x + y, n) == Shl(x, n) + Shl(y, n)
  {
    if n != 0 { ShlAdd(x, y, n - 1); }
  }

  lemma {:induction false} ShlShl(x: int, m: nat, n: nat)
    ensures Shl(Shl(x, m), n) == Shl(x, m + n)
  {
    if n != 0 { ShlShl(x, m, n - 1); }
  }

  lemma {:induction false} ShlLess(x: int, y: int, n: nat)
    ensures x < y <==> Shl(x, n) < Shl(y, n)
    ensures x == y <==> Shl(x, n) == Shl(y, n)
  {
    if n != 0 { ShlLess(x, y, n - 1); }
  }

  lemma {:induction false} ShlZero(n: nat)
    ensures Shl(0, n) == 0
  {
    if n != 0 { ShlZero(n - 1); }
  }

  lemma ShiftByZero(x: nat)
    ensures Shl(x, 0) == x == Shr(x, 0) && Low(x, 0) == 0
  {
  }

  lemma {:induction false} ShlGrows(x: nat, m: nat, n: nat)
    requires m <= n
    ensures 0 <= Shl(x, m) <= Shl(x, n)
  {
    if m < n {
      ShlGrows(x, m, n - 1);
    } else if n != 0 {
      ShlGrows(x, m - 1, n - 1);
    }
  }

  /** `Shl` is multiplication by a power of two. */
  lemma {:induction false} ShlIsMul(x: int, n: nat)
    ensures Shl(x, n) == x * Shl(1, n)
  {
    if n != 0 {
      ShlIsMul(x, n - 1);
      MulAssoc(2, x, Shl(1, n - 1));
    }
  }

  /** The same with the power written out, so that the product is by a constant. */
  lemma ShlBy(x: int, n: nat, c: nat)
    requires c == Shl(1, n)
    ensures Shl(x, n) == x * c
  {
    ShlIsMul(x, n);
  }

  // The powers of two that the programs write as constants.

  lemma Power1() ensures Shl(1, 1) == 2 { }

  lemma Power2() ensures Shl(1, 2) == 4 { }

  lemma Power8() ensures Shl(1, 8) == 256 { PowerAdd(4, 4); }

  lemma Power9() ensures Shl(1, 9) == 512 { Power8(); }

  lemma Power15() ensures Shl(1, 15) == 0x8000 { Power11(); PowerAdd(11, 4); }

  lemma Power11() ensures Shl(1, 11) == 0x800 { Power8(); }

  lemma Power16() ensures Shl(1, 16) == 0x1_0000 { Power8(); PowerAdd(8, 8); }

  lemma Power24() ensures Shl(1, 24) == 0x100_0000 { Power8(); Power16(); PowerAdd(16, 8); }

  lemma Power20() ensures Shl(1, 20) == 0x10_0000 { Power16(); PowerAdd(16, 4); }

  lemma Power21() ensures Shl(1, 21) == 0x20_0000 { Power20(); }

  lemma Power31() ensures Shl(1, 31) == 0x8000_0000 { Power20(); PowerAdd(20, 11); PowerAdd(8, 3); Power8(); }

  lemma Power32() ensures Shl(1, 32) == 0x1_0000_0000 { Power31(); }

  lemma Power52() ensures Shl(1, 52) == 0x10_0000_0000_0000 { Power20(); Power32(); PowerAdd(32, 20); }

  lemma Power53() ensures Shl(1, 53) == 0x20_0000_0000_0000 { Power52(); }

  lemma PowerAdd(m: nat, n: nat)
    ensures Shl(1, m + n) == Shl(1, m) * Shl(1, n)
  {
    ShlShl(1, m, n);
    ShlIsMul(Shl(1, m), n);
  }

  /** Quotient and remainder by a power of two. */
  lemma {:induction false} Split(x: nat, n: nat)
    ensures x == Shl(Shr(x, n), n) + Low(x, n)
    ensures Low(x, n) < Shl(1, n)
    decreases n
  {
    if n != 0 { Split(x / 2, n - 1); }
  }

  lemma SplitBy(x: nat, n: nat, c: nat)
    requires c == Shl(1, n)
    ensures x == Shr(x, n) * c + Low(x, n) && Low(x, n) < c
  {
    Split(x, n);
    ShlIsMul(Shr(x, n), n);
  }

  lemma {:induction false} SplitUnique(x: nat, n: nat, q: nat, r: nat)
    requires x == Shl(q, n) + r && r < Shl(1, n)
    ensures Shr(x, n) == q && Low(x, n) == r
    decreases n
  {
    if n != 0 { SplitUnique(x / 2, n - 1, q, r / 2); }
  }

  lemma MulAssoc(a: int, b: int, c: int)
    ensures (a * b) * c == a * (b * c)
  {
  }

  lemma MulMono(a: int, b: int, c: int)
    requires a <= b && 0 <= c
    ensures a * c <= b * c
  {
  }

  /** Quotient and remainder are unique. */
  lemma DivModUnique(x: int, d: int, q: int, r: int)
    requires d > 0 && x == q * d + r && 0 <= r < d
    ensures x / d == q && x % d == r
  {
    var q', r' := x / d, x % d;
    assert x == q' * d + r';
    if q < q' { MulMono(q + 1, q', d); } else if q' < q { MulMono(q' + 1, q, d); }
  }

  // ---- masks and joins ----

  /** A mask of the bits `lo..hi` keeps exactly those bits. */
  lemma {:induction false} AndMask(x: nat, lo: nat, hi: nat)
    requires lo <= hi
    ensures Shl(1, lo) <= Shl(1, hi) && Low(x, lo) <= Low(x, hi)
    ensures And(x, Shl(1, hi) - Shl(1, lo)) == Low(x, hi) - Low(x, lo)
    decreases hi
  {
    ShlGrows(1, lo, hi);
    if hi != 0 {
      AndMask(x / 2, if lo == 0 then 0 else lo - 1, hi - 1);
      var m := Shl(1, hi) - Shl(1, lo);
      if lo == 0 {
        assert m / 2 == Shl(1, hi - 1) - 1 && m % 2 == 1;
      } else {
        assert m / 2 == Shl(1, hi - 1) - Shl(1, lo - 1) && m % 2 == 0;
      }
    }
  }

  /** Words without a common bit are joined by adding them. */
  lemma {:induction false} OrDisjoint(a: nat, b: nat, n: nat)
    requires b < Shl(1, n)
    ensures Or(Shl(a, n), b) == Shl(a, n) + b
    decreases n
  {
    if n != 0 && Shl(a, n) != 0 && b != 0 {
      OrDisjoint(a, b / 2, n - 1);
    }
  }

  lemma ZeroBits(a: nat)
    ensures And(a, 0) == 0 == And(0, a) && Or(a, 0) == a == Or(0, a)
  {
  }

  lemma {:induction false} OrComm(a: nat, b: nat)
    ensures Or(a, b) == Or(b, a)
    decreases a
  {
    if a != 0 && b != 0 { OrComm(a / 2, b / 2); }
  }

  lemma {:induction false} OrIdem(a: nat)
    ensures Or(a, a) == a
  {
    if a != 0 { OrIdem(a / 2); }
  }

  lemma {:induction false} OrIsZero(a: nat, b: nat)
    ensures Or(a, b) == 0 <==> a == 0 && b == 0
    decreases a
  {
    if a != 0 && b != 0 { OrIsZero(a / 2, b / 2); }
  }

  lemma Shr31(x: nat)
    ensures Shr(x, 31) == x / 0x8000_0000 && Low(x, 31) == x % 0x8000_0000
  {
    Power31();
    SplitBy(x, 31, 0x8000_0000);
  }

  lemma {:induction false} OrBounds(a: nat, b: nat, n: nat)
    requires a < Shl(1, n) && b < Shl(1, n)
    ensures a <= Or(a, b) < Shl(1, n) && b <= Or(a, b)
    decreases n
  {
    if n != 0 && a != 0 && b != 0 { OrBounds(a / 2, b / 2, n - 1); }
  }

  lemma SignBits(w: Word)
    ensures And(w, 0x8000_0000) == (if w >= 0x8000_0000 then 0x8000_0000 else 0)
    ensures And(w, 0x7fff_ffff) == w % 0x8000_0000
  {
    Power31();
    Power32();
    Shr31(w);
    ShlZero(32);
    SplitUnique(w, 32, 0, w);
    AndMask(w, 31, 32);
    AndMask(w, 0, 31);
  }

  function Xor(a: nat, b: nat): nat
  {
    if a == 0 then b
    else if b == 0 then a
    else (if a % 2 != b % 2 then 1 else 0) + 2 * Xor(a / 2, b / 2)
  }

  /** The top bit of an exclusive or is set when the operands' top bits differ. */
  lemma {:induction false} XorTop(a: nat, b: nat, n: nat)
    requires a < Shl(1, n + 1) && b < Shl(1, n + 1)
    ensures Xor(a, b) < Shl(1, n + 1)
    ensures Xor(a, b) >= Shl(1, n) <==> (a >= Shl(1, n)) != (b >= Shl(1, n))
    decreases n
  {
    if n != 0 && a != 0 && b != 0 { XorTop(a / 2, b / 2, n - 1); }
  }
}
