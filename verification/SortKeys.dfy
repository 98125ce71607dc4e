/** The comparisons of src/cmd/sort.c: `cmpa`, which compares whole lines, and the numeric branch
    of `cmp`, which orders decimal strings of any length without converting them. */
module SortKeys {
  import opened Quicksort

  // ---- cmpa ----

  function CmpA(rflg: int, x: string, y: string): int
  {
    if x == "" && y == "" then 0
    else if x == "" then rflg
    else if y == "" then -rflg
    else if x[0] == y[0] then CmpA(rflg, x[1..], y[1..])
    else if y[0] > x[0] then rflg else -rflg
  }

  /** The character at k, a line being ended by its newline. */
  function At(s: string, k: nat): char { if k < |s| then s[k] else '\n' }

  method Cmpa(rflg: int, x: string, y: string) returns (r: int)
    requires '\n' !in x && '\n' !in y
    ensures r == CmpA(rflg, x, y)
  {
    var k := 0;
    while At(x, k) == At(y, k)
      invariant k <= |x| && k <= |y| && CmpA(rflg, x, y) == CmpA(rflg, x[k..], y[k..])
      decreases |x| - k
    {
      if At(x, k) == '\n' { return 0; }
      k := k + 1;
    }
    r := if At(x, k) == '\n' then rflg
         else if At(y, k) == '\n' then -rflg
         else if At(y, k) > At(x, k) then rflg
         else -rflg;
  }

  /** x is a proper prefix of y, or has the smaller character at the first place they differ. */
  ghost predicate Lexical(x: string, y: string)
  {
    exists k | 0 <= k <= |x| && k <= |y| :: DiffersAt(x, y, k)
  }

  ghost predicate DiffersAt(x: string, y: string, k: nat)
    requires k <= |x| && k <= |y|
  {
    x[..k] == y[..k] && k < |y| && (k == |x| || x[k] < y[k])
  }

  lemma {:induction false} CmpaLexical(x: string, y: string)
    ensures CmpA(1, x, y) > 0 <==> Lexical(x, y)
    ensures CmpA(1, x, y) == 0 <==> x == y
    ensures CmpA(-1, x, y) == -CmpA(1, x, y) == CmpA(1, y, x)
  {
    if x != "" && y != "" && x[0] == y[0] {
      CmpaLexical(x[1..], y[1..]);
      TailDiffers(x, y);
      assert x == [x[0]] + x[1..] && y == [y[0]] + y[1..];
    } else if x == "" && y != "" {
      assert DiffersAt(x, y, 0);
    } else if x != "" && y != "" {
      if x[0] < y[0] { assert DiffersAt(x, y, 0); }
      if Lexical(x, y) {
        var k :| 0 <= k <= |x| && k <= |y| && DiffersAt(x, y, k);
        SameFirst(x, y, k);
      }
    }
  }

  /** With the same first character the rest decides. */
  lemma TailDiffers(x: string, y: string)
    requires x != "" && y != "" && x[0] == y[0]
    ensures Lexical(x, y) <==> Lexical(x[1..], y[1..])
  {
    var u, v := x[1..], y[1..];
    if Lexical(u, v) {
      var k :| 0 <= k <= |u| && k <= |v| && DiffersAt(u, v, k);
      assert x[..k + 1] == [x[0]] + u[..k] && y[..k + 1] == [y[0]] + v[..k];
      assert DiffersAt(x, y, k + 1);
    }
    if Lexical(x, y) {
      var k :| 0 <= k <= |x| && k <= |y| && DiffersAt(x, y, k);
      assert u[..k - 1] == x[..k][1..] && v[..k - 1] == y[..k][1..];
      assert DiffersAt(u, v, k - 1);
    }
  }

  lemma SameFirst(x: string, y: string, k: nat)
    requires k <= |x| && k <= |y| && DiffersAt(x, y, k)
    ensures k > 0 ==> x[0] == y[0]
  {
    if k > 0 { assert x[0] == x[..k][0] == y[..k][0] == y[0]; }
  }

  lemma {:induction false} CmpaChain(rflg: int, x: string, y: string, z: string)
    requires rflg == 1 || rflg == -1
    requires CmpA(rflg, x, y) <= 0 && CmpA(rflg, y, z) <= 0
    ensures CmpA(rflg, x, z) <= 0
    decreases |x|
  {
    if x != "" && y != "" && z != "" && x[0] == y[0] == z[0] { CmpaChain(rflg, x[1..], y[1..], z[1..]); }
  }

  lemma CmpaPreorder(rflg: int)
    requires rflg == 1 || rflg == -1
    ensures Preorder((x, y) => CmpA(rflg, x, y))
  {
    forall x, y ensures Sign(CmpA(rflg, x, y)) == -Sign(CmpA(rflg, y, x)) {
      CmpaLexical(x, y);
      CmpaLexical(y, x);
    }
    forall x, y, z | CmpA(rflg, x, y) <= 0 && CmpA(rflg, y, z) <= 0 ensures CmpA(rflg, x, z) <= 0 {
      CmpaChain(rflg, x, y, z);
    }
  }

  // ---- numbers ----

  predicate Blank(c: char) { c == ' ' || c == '\t' }

  predicate IsDigit(c: char) { '0' <= c <= '9' }

  function Digit(c: char): (d: int)
    requires IsDigit(c)
    ensures 0 <= d <= 9 && (d == 0 <==> c == '0')
  {
    c as int - '0' as int
  }

  function SkipBlanks(s: string, k: nat): (m: nat)
    ensures k <= m
    decreases |s| - k
  {
    if Blank(At(s, k)) then SkipBlanks(s, k + 1) else k
  }

  /** The end of the digits from k on, not beyond la. */
  function DigitsEnd(s: string, k: nat, la: nat): (e: nat)
    requires la <= |s|
    ensures k <= e && Digits(s, k, e) && (k <= la ==> e <= la)
    ensures (e > k ==> e <= la) && (e < la ==> !IsDigit(s[e]))
    decreases la - k
  {
    if k < la && IsDigit(s[k]) then DigitsEnd(s, k + 1, la) else k
  }

  predicate Digits(s: string, lo: nat, hi: nat)
  {
    lo <= hi && (lo == hi || hi <= |s|) && forall i | lo <= i < hi :: IsDigit(s[i])
  }

  function IntVal(s: string, lo: nat, hi: nat): (v: nat)
    requires Digits(s, lo, hi)
    decreases hi - lo
  {
    if lo == hi then 0 else 10 * IntVal(s, lo, hi - 1) + Digit(s[hi - 1])
  }

  function FracVal(s: string, lo: nat, hi: nat): real
    requires Digits(s, lo, hi)
    decreases hi - lo
  {
    if lo == hi then 0.0 else (Digit(s[lo]) as real + FracVal(s, lo + 1, hi)) / 10.0
  }

  /** Where the number of a key pa..la begins: after a separator and blanks. */
  function Start(s: string, pa: nat, la: nat, tab: char): nat
  {
    SkipBlanks(s, if tab != '\0' && pa < la && At(s, pa) == tab then pa + 1 else pa)
  }

  function AfterSign(s: string, k: nat): nat { if At(s, k) == '-' then k + 1 else k }

  function AfterPoint(s: string, k: nat): nat { if At(s, k) == '.' then k + 1 else k }

  /** The number a key stands for: blanks, a minus sign, digits, a point, digits; any of them may
      be missing, and what follows is ignored. */
  function Value(s: string, pa: nat, la: nat, tab: char): real
    requires la <= |s|
  {
    var k := Start(s, pa, la, tab);
    var p := AfterSign(s, k);
    var e := DigitsEnd(s, p, la);
    var q := AfterPoint(s, e);
    var v := IntVal(s, p, e) as real + FracVal(s, q, DigitsEnd(s, q, la));
    if At(s, k) == '-' then -v else v
  }

  function SignR(x: real): int { if x < 0.0 then -1 else if x == 0.0 then 0 else 1 }

  function Pow10(n: nat): (p: nat)
    ensures p >= 1
  {
    if n == 0 then 1 else 10 * Pow10(n - 1)
  }

  lemma {:induction false} IntBound(s: string, lo: nat, hi: nat)
    requires Digits(s, lo, hi)
    ensures IntVal(s, lo, hi) < Pow10(hi - lo)
    decreases hi - lo
  {
    if lo < hi { IntBound(s, lo, hi - 1); }
  }

  /** Splitting the digits at i. */
  lemma {:induction false} IntSplit(s: string, lo: nat, i: nat, hi: nat)
    requires Digits(s, lo, hi) && lo <= i <= hi
    ensures IntVal(s, lo, hi) == IntVal(s, lo, i) * Pow10(hi - i) + IntVal(s, i, hi)
    decreases hi - i
  {
    if i < hi {
      IntSplit(s, lo, i, hi - 1);
      Distribute(IntVal(s, lo, i), Pow10(hi - 1 - i));
    }
  }

  lemma Distribute(a: nat, p: nat)
    ensures 10 * (a * p) == a * (10 * p)
  {
  }

  lemma IntFront(s: string, i: nat, hi: nat)
    requires Digits(s, i, hi) && i < hi
    ensures IntVal(s, i, hi) == Digit(s[i]) * Pow10(hi - i - 1) + IntVal(s, i + 1, hi)
  {
    IntSplit(s, i, i + 1, hi);
    assert IntVal(s, i, i) == 0;
  }

  /** A digit further to the left decides over all to its right. */
  lemma LeadingDigit(x: int, y: int, p: nat, a: nat, b: nat)
    requires a < p && b < p
    ensures x < y ==> x * p + a < y * p + b
    ensures x == y ==> Sign((y * p + b) - (x * p + a)) == Sign(b - a)
    ensures x > y ==> x * p + a > y * p + b
  {
    if x < y { Times(x, y, p); }
    if y < x { Times(y, x, p); }
  }

  lemma Times(x: int, y: int, p: nat)
    requires x < y
    ensures x * p + p <= y * p
  {
    var d: nat := y - x;
    assert y * p == (x + d) * p == x * p + d * p;
    Positive(p, d);
  }

  /** Comparing the digits both numbers have, from the right: the last difference seen decides. */
  method CompareInts(s: string, pa: nat, ea: nat, t: string, pb: nat, eb: nat) returns (a: int, ipa: nat, ipb: nat)
    requires Digits(s, pa, ea) && Digits(t, pb, eb)
    ensures pa <= ipa <= ea && pb <= ipb <= eb && ea - ipa == eb - ipb && (ipa == pa || ipb == pb)
    ensures Sign(a) == Sign(IntVal(t, ipb, eb) - IntVal(s, ipa, ea))
  {
    hide IntVal, Pow10;
    a, ipa, ipb := 0, ea, eb;
    NoDigits(s, ea);
    NoDigits(t, eb);
    while ipa > pa && ipb > pb
      invariant pa <= ipa <= ea && pb <= ipb <= eb && ea - ipa == eb - ipb
      invariant Sign(a) == Sign(IntVal(t, ipb, eb) - IntVal(s, ipa, ea))
    {
      ipb := ipb - 1;
      ipa := ipa - 1;
      IntFront(s, ipa, ea);
      IntFront(t, ipb, eb);
      IntBound(s, ipa + 1, ea);
      IntBound(t, ipb + 1, eb);
      LeadingDigit(Digit(s[ipa]), Digit(t[ipb]), Pow10(ea - ipa - 1), IntVal(s, ipa + 1, ea), IntVal(t, ipb + 1, eb));
      var b := t[ipb] as int - s[ipa] as int;
      if b != 0 { a := b; }
    }
  }

  lemma NoDigits(s: string, e: nat)
    ensures IntVal(s, e, e) == 0 && FracVal(s, e, e) == 0.0
  {
  }

  /** Is there a digit other than 0, looking from the right? */
  method NonzeroInt(s: string, pa: nat, ea: nat) returns (nz: bool)
    requires Digits(s, pa, ea)
    ensures nz <==> IntVal(s, pa, ea) > 0
  {
    var k := ea;
    while k > pa
      invariant pa <= k <= ea && IntVal(s, k, ea) == 0
    {
      k := k - 1;
      IntFront(s, k, ea);
      if s[k] != '0' {
        IntSplit(s, pa, k, ea);
        Positive(Digit(s[k]), Pow10(ea - k - 1));
        Positive(IntVal(s, pa, k), Pow10(ea - k));
        return true;
      }
      assert Digit(s[k]) == 0;
    }
    nz := false;
  }

  lemma Positive(d: nat, p: nat)
    requires p >= 1
    ensures d * p >= d && p * d >= d
  {
  }

  // ---- fractions ----

  lemma {:induction false} FracBound(s: string, lo: nat, hi: nat)
    requires Digits(s, lo, hi)
    ensures 0.0 <= FracVal(s, lo, hi) < 1.0
    decreases hi - lo
  {
    if lo < hi { FracBound(s, lo + 1, hi); }
  }

  lemma FracNext(s: string, lo: nat, hi: nat)
    requires Digits(s, lo, hi) && lo < hi
    ensures FracVal(s, lo, hi) * 10.0 == Digit(s[lo]) as real + FracVal(s, lo + 1, hi)
    ensures 0.0 <= FracVal(s, lo, hi) < 1.0 && 0.0 <= FracVal(s, lo + 1, hi) < 1.0
  {
    FracBound(s, lo, hi);
    FracBound(s, lo + 1, hi);
  }

  /** Comparing the digits both fractions have, from the left. */
  method CompareFracs(s: string, pa0: nat, la: nat, t: string, pb0: nat, lb: nat) returns (a: int, pa: nat, pb: nat)
    requires la <= |s| && lb <= |t|
    ensures pa0 <= pa && pb0 <= pb
    ensures Digits(s, pa, DigitsEnd(s, pa0, la)) && Digits(t, pb, DigitsEnd(t, pb0, lb))
    ensures DigitsEnd(s, pa, la) == DigitsEnd(s, pa0, la) && DigitsEnd(t, pb, lb) == DigitsEnd(t, pb0, lb)
    ensures
      var fa, fb := FracVal(s, pa0, DigitsEnd(s, pa0, la)), FracVal(t, pb0, DigitsEnd(t, pb0, lb));
      var ra, rb := FracVal(s, pa, DigitsEnd(s, pa0, la)), FracVal(t, pb, DigitsEnd(t, pb0, lb));
      && (a != 0 ==> Sign(a) == SignR(fb - fa))
      && (a == 0 ==> SignR(fb - fa) == SignR(rb - ra) && (ra == 0.0 || rb == 0.0))
  {
    hide FracVal, Digits;
    a, pa, pb := 0, pa0, pb0;
    ghost var ea, eb := DigitsEnd(s, pa0, la), DigitsEnd(t, pb0, lb);
    while pa < la && IsDigit(s[pa]) && pb < lb && IsDigit(t[pb])
      invariant pa0 <= pa && pb0 <= pb && Digits(s, pa, ea) && Digits(t, pb, eb)
      invariant DigitsEnd(s, pa, la) == ea && DigitsEnd(t, pb, lb) == eb
      invariant SignR(FracVal(t, pb0, eb) - FracVal(s, pa0, ea)) == SignR(FracVal(t, pb, eb) - FracVal(s, pa, ea))
      decreases la - pa
    {
      FracNext(s, pa, ea);
      FracNext(t, pb, eb);
      Tail(s, pa, ea);
      Tail(t, pb, eb);
      a := t[pb] as int - s[pa] as int;
      pa, pb := pa + 1, pb + 1;
      if a != 0 { return; }
    }
    NoDigits(s, pa);
    NoDigits(t, pb);
  }

  lemma Tail(s: string, lo: nat, hi: nat)
    requires Digits(s, lo, hi) && lo < hi
    ensures Digits(s, lo + 1, hi)
  {
  }

  /** Is there a digit other than 0, looking from the left? */
  method NonzeroFrac(s: string, pa: nat, la: nat) returns (nz: bool)
    requires la <= |s|
    ensures nz <==> FracVal(s, pa, DigitsEnd(s, pa, la)) > 0.0
  {
    hide FracVal, Digits;
    var k := pa;
    ghost var e := DigitsEnd(s, pa, la);
    while k < la && IsDigit(s[k])
      invariant pa <= k && Digits(s, k, e) && DigitsEnd(s, k, la) == e
      invariant FracVal(s, pa, e) > 0.0 <==> FracVal(s, k, e) > 0.0
      decreases la - k
    {
      FracNext(s, k, e);
      Tail(s, k, e);
      if s[k] != '0' { return true; }
      k := k + 1;
    }
    NoDigits(s, k);
    nz := false;
  }

  // ---- the numeric branch ----

  /** The parts of a number, as the pointer walk finds them. */
  ghost predicate Parsed(s: string, pa: nat, la: nat, tab: char, p: nat, e: nat, neg: bool)
  {
    && la <= |s| && p == AfterSign(s, Start(s, pa, la, tab)) && e == DigitsEnd(s, p, la)
    && (neg <==> At(s, Start(s, pa, la, tab)) == '-')
  }

  ghost function Whole(s: string, p: nat, e: nat): real
    requires Digits(s, p, e)
  {
    IntVal(s, p, e) as real
  }

  ghost function Part(s: string, e: nat, la: nat): real
    requires la <= |s|
  {
    FracVal(s, AfterPoint(s, e), DigitsEnd(s, AfterPoint(s, e), la))
  }

  lemma ParsedValue(s: string, pa: nat, la: nat, tab: char, p: nat, e: nat, neg: bool)
    requires Parsed(s, pa, la, tab, p, e, neg)
    ensures p <= e && Digits(s, p, e) && 0.0 <= Whole(s, p, e) && 0.0 <= Part(s, e, la) < 1.0
    ensures Value(s, pa, la, tab) == if neg then -(Whole(s, p, e) + Part(s, e, la)) else Whole(s, p, e) + Part(s, e, la)
  {
    FracBound(s, AfterPoint(s, e), DigitsEnd(s, AfterPoint(s, e), la));
  }

  /** Separator, blanks and sign; then the end of the digits. */
  method Parse(s: string, pa0: nat, la: nat, tab: char, rflg: int) returns (pa: nat, jpa: nat, sa: int)
    requires la <= |s|
    ensures sa == rflg || sa == -rflg
    ensures rflg != 0 ==> Parsed(s, pa0, la, tab, pa, jpa, sa == -rflg)
  {
    pa := pa0;
    if tab != '\0' {
      if pa < la && At(s, pa) == tab { pa := pa + 1; }
    }
    while Blank(At(s, pa))
      invariant SkipBlanks(s, pa) == Start(s, pa0, la, tab)
      decreases |s| - pa
    {
      pa := pa + 1;
    }
    sa := rflg;
    if At(s, pa) == '-' {
      pa := pa + 1;
      sa := -sa;
    }
    jpa := pa;
    while jpa < la && IsDigit(s[jpa])
      invariant pa <= jpa && DigitsEnd(s, jpa, la) == DigitsEnd(s, pa, la)
      decreases la - jpa
    {
      jpa := jpa + 1;
    }
  }

  /** The integer parts: a nonzero result is the answer, zero means that they are equal, or that
      both are zero when the signs differ. */
  method IntegerBranch(s: string, pa: nat, jpa: nat, sa: int, t: string, pb: nat, jpb: nat, sb: int) returns (r: int)
    requires pa <= jpa && pb <= jpb && Digits(s, pa, jpa) && Digits(t, pb, jpb) && sa in {1, -1} && sb in {1, -1}
    ensures
      var va, vb := IntVal(s, pa, jpa), IntVal(t, pb, jpb);
      if sa == sb then Sign(r) == sa * Sign(vb - va)
      else Sign(r) == if va > 0 then -sa else if vb > 0 then sb else 0
  {
    hide IntVal, Pow10, Digits;
    var a, ipa, ipb := 0, jpa, jpb;
    NoDigits(s, jpa);
    NoDigits(t, jpb);
    if sa == sb { a, ipa, ipb := CompareInts(s, pa, jpa, t, pb, jpb); }
    Halves(s, pa, ipa, jpa);
    Halves(t, pb, ipb, jpb);
    if sa == sb {
      Longer(IntVal(s, pa, ipa), IntVal(s, ipa, jpa), IntVal(t, pb, ipb), IntVal(t, ipb, jpb), Pow10(jpa - ipa));
      if ipa == pa { NoDigits(s, pa); } else { NoDigits(t, pb); }
    }
    var nz := NonzeroInt(s, pa, ipa);
    if nz { return -sa; }
    nz := NonzeroInt(t, pb, ipb);
    if nz { return sb; }
    r := a * sa;
    Product(a, sa);
  }

  lemma Product(a: int, sa: int)
    requires sa in {1, -1}
    ensures Sign(a * sa) == sa * Sign(a)
  {
  }

  lemma Halves(s: string, p: nat, i: nat, e: nat)
    requires Digits(s, p, e) && p <= i <= e
    ensures Digits(s, p, i) && Digits(s, i, e)
    ensures IntVal(s, p, e) == IntVal(s, p, i) * Pow10(e - i) + IntVal(s, i, e) && IntVal(s, i, e) < Pow10(e - i)
  {
    IntSplit(s, p, i, e);
    IntBound(s, i, e);
  }

  /** Only one of the numbers has digits h or k to the left of those compared. */
  lemma Longer(h: nat, a: nat, k: nat, b: nat, p: nat)
    requires a < p && b < p
    ensures h > 0 && k == 0 ==> h * p + a > k * p + b
    ensures k > 0 && h == 0 ==> h * p + a < k * p + b
    ensures h == 0 && k == 0 ==> Sign((k * p + b) - (h * p + a)) == Sign(b - a)
  {
    LeadingDigit(h, k, p, a, b);
  }

  /** The fractions, when the integer parts have not decided. */
  method FractionBranch(s: string, jpa: nat, la: nat, sa: int, t: string, jpb: nat, lb: nat, sb: int) returns (r: int)
    requires la <= |s| && lb <= |t| && sa in {1, -1} && sb in {1, -1}
    ensures
      var va, vb := Part(s, jpa, la), Part(t, jpb, lb);
      if sa == sb then Sign(r) == sa * SignR(vb - va)
      else Sign(r) == if va > 0.0 then -sa else if vb > 0.0 then sb else 0
  {
    hide FracVal, Digits, DigitsEnd;
    var pa := if At(s, jpa) == '.' then jpa + 1 else jpa;
    var pb := if At(t, jpb) == '.' then jpb + 1 else jpb;
    if sa == sb {
      var a;
      a, pa, pb := CompareFracs(s, pa, la, t, pb, lb);
      Product(a, sa);
      if a != 0 { return a * sa; }
    }
    FracBound(s, pa, DigitsEnd(s, pa, la));
    FracBound(t, pb, DigitsEnd(t, pb, lb));
    var nz := NonzeroFrac(s, pa, la);
    if nz { return -sa; }
    nz := NonzeroFrac(t, pb, lb);
    if nz { return sb; }
    r := 0;
  }

  /** The numeric branch of `cmp` orders keys as the numbers they stand for. */
  method CompareNumbers(s: string, pa: nat, la: nat, t: string, pb: nat, lb: nat, tab: char, rflg: int) returns (r: int)
    requires la <= |s| && lb <= |t| && (rflg == 1 || rflg == -1)
    ensures Sign(r) == rflg * SignR(Value(t, pb, lb, tab) - Value(s, pa, la, tab))
  {
    hide Value, Parsed, Part, IntVal, Digits;
    var p, e, sa := Parse(s, pa, la, tab, rflg);
    var q, f, sb := Parse(t, pb, lb, tab, rflg);
    ParsedValue(s, pa, la, tab, p, e, sa == -rflg);
    ParsedValue(t, pb, lb, tab, q, f, sb == -rflg);
    r := IntegerBranch(s, p, e, sa, t, q, f, sb);
    if r == 0 {
      r := FractionBranch(s, e, la, sa, t, f, lb, sb);
    }
  }

  // ---- the order on lines ----

  /** `cmp` with the single key that is the whole line, under `-n`. */
  function Cmp(rflg: int, uflg: bool, tab: char, x: string, y: string): int
  {
    var d := rflg * SignR(Value(y, 0, |y|, tab) - Value(x, 0, |x|, tab));
    if d != 0 then d else if uflg then 0 else CmpA(rflg, x, y)
  }

  method CompareLines(rflg: int, uflg: bool, tab: char, x: string, y: string) returns (r: int)
    requires '\n' !in x && '\n' !in y && (rflg == 1 || rflg == -1)
    ensures Sign(r) == Sign(Cmp(rflg, uflg, tab, x, y))
  {
    hide Value, CmpA;
    r := CompareNumbers(x, 0, |x|, y, 0, |y|, tab, rflg);
    if r == 0 && !uflg { r := Cmpa(rflg, x, y); }
  }

  /** Numeric order is a total preorder, with and without the order of whole lines behind it. */
  lemma CmpPreorder(rflg: int, uflg: bool, tab: char)
    requires rflg == 1 || rflg == -1
    ensures Preorder((x, y) => Cmp(rflg, uflg, tab, x, y))
  {
    hide Value, CmpA;
    forall x, y ensures Sign(Cmp(rflg, uflg, tab, x, y)) == -Sign(Cmp(rflg, uflg, tab, y, x)) {
      CmpaLexical(x, y);
      CmpaLexical(y, x);
    }
    forall x, y, z | Cmp(rflg, uflg, tab, x, y) <= 0 && Cmp(rflg, uflg, tab, y, z) <= 0
      ensures Cmp(rflg, uflg, tab, x, z) <= 0
    {
      if CmpA(rflg, x, y) <= 0 && CmpA(rflg, y, z) <= 0 { CmpaChain(rflg, x, y, z); }
    }
  }
}
