/** The in-place quicksort of src/cmd/sort.c, for any comparison that is a total preorder.

    An array cell is a line, the mark `-u` leaves on a repeated line (its first character
    zeroed), and what is still to be read of the file the line came from: `sort` sorts bare
    lines, `merge` sorts files by their current line.  A positive comparison means that the
    first line is to be written first; the array is sorted the other way round, and is written
    out from its end.
 */
module Quicksort {
  datatype Item = Item(line: string, blank: bool, rest: seq<string>)

  type Compare = (string, string) -> int

  function Sign(x: int): int { if x < 0 then -1 else if x == 0 then 0 else 1 }

  ghost predicate Preorder(c: Compare)
  {
    && (forall x, y :: Sign(c(x, y)) == -Sign(c(y, x)))
    && (forall x, y, z :: c(x, y) <= 0 && c(y, z) <= 0 ==> c(x, z) <= 0)
  }

  lemma Opposite(c: Compare, x: string, y: string)
    requires Preorder(c)
    ensures Sign(c(x, y)) == -Sign(c(y, x)) && c(x, x) == 0
  {
    assert Sign(c(x, x)) == -Sign(c(x, x));
  }

  /** Lines that compare equal compare alike with every other. */
  lemma SameClass(c: Compare, x: string, p: string, q: string)
    requires Preorder(c) && c(p, q) == 0
    ensures Sign(c(x, p)) == Sign(c(x, q)) && Sign(c(p, x)) == Sign(c(q, x))
  {
    hide Preorder;
    Opposite(c, p, q);
    Opposite(c, x, p);
    Opposite(c, x, q);
    Chain(c, x, p, q);
    Chain(c, x, q, p);
    Chain(c, q, p, x);
    Chain(c, p, q, x);
  }

  lemma Chain(c: Compare, x: string, y: string, z: string)
    requires Preorder(c)
    ensures c(x, y) <= 0 && c(y, z) <= 0 ==> c(x, z) <= 0
  {
  }

  /** Everything on one side of a class goes before everything on the other. */
  lemma Across(c: Compare, x: string, p: string, y: string)
    requires Preorder(c) && c(x, p) <= 0 && c(y, p) >= 0
    ensures c(x, y) <= 0 && (c(x, p) < 0 || c(y, p) > 0 ==> c(x, y) < 0)
  {
    hide Preorder;
    Opposite(c, y, p);
    Chain(c, x, p, y);
    Opposite(c, x, y);
    if c(x, y) == 0 { SameClass(c, p, x, y); Opposite(c, x, p); }
  }

  ghost predicate Sorted(c: Compare, s: seq<Item>)
  {
    forall i, j | 0 <= i < j < |s| :: c(s[i].line, s[j].line) <= 0
  }

  /** The cells after sorting: in order, and under `-u` blanked where the line before is equal. */
  ghost predicate Result(c: Compare, uflg: bool, z: seq<Item>, s: seq<Item>)
  {
    && |z| == |s|
    && forall k | 0 <= k < |s| :: z[k] == CellOf(c, uflg, s, k)
  }

  ghost function CellOf(c: Compare, uflg: bool, s: seq<Item>, k: nat): Item
    requires k < |s|
  {
    if uflg && k > 0 && c(s[k - 1].line, s[k].line) == 0 then s[k].(blank := true) else s[k]
  }

  // ---- exchanging cells ----

  function Swapped<T>(z: seq<T>, i: nat, j: nat): seq<T>
    requires i < |z| && j < |z|
  {
    z[i := z[j]][j := z[i]]
  }

  /** The three-way exchange: r to p, q to r, p to q. */
  function Rotated<T>(z: seq<T>, p: nat, q: nat, r: nat): seq<T>
    requires p < |z| && q < |z| && r < |z|
  {
    var y := z[p := z[r]];
    y[r := y[q]][q := z[p]]
  }

  /** A rearrangement of the cells lo..hi. */
  ghost predicate Perm<T>(z: seq<T>, w: seq<T>, lo: nat, hi: nat)
  {
    && |z| == |w| && multiset(z) == multiset(w)
    && forall k | 0 <= k < |z| && !(lo <= k < hi) :: z[k] == w[k]
  }

  lemma SwapPerm<T>(z: seq<T>, i: nat, j: nat, w: seq<T>, lo: nat, hi: nat)
    requires Perm(z, w, lo, hi) && lo <= i < hi <= |z| && lo <= j < hi
    ensures Perm(Swapped(z, i, j), w, lo, hi)
  {
  }

  lemma RotatePerm<T>(z: seq<T>, p: nat, q: nat, r: nat, w: seq<T>, lo: nat, hi: nat)
    requires Perm(z, w, lo, hi) && hi <= |z| && lo <= p < hi && lo <= q < hi && lo <= r < hi && p != q && p != r
    ensures Perm(Rotated(z, p, q, r), w, lo, hi)
  {
    hide Perm;
    assert Rotated(z, p, q, r) == Swapped(Swapped(z, p, r), q, r);
    SwapPerm(z, p, r, w, lo, hi);
    SwapPerm(Swapped(z, p, r), q, r, w, lo, hi);
  }

  lemma PermSlice<T>(z: seq<T>, w: seq<T>, lo: nat, hi: nat)
    requires Perm(z, w, lo, hi) && lo <= hi <= |z|
    ensures multiset(z[lo..hi]) == multiset(w[lo..hi])
  {
    Three(z, lo, hi);
    Three(w, lo, hi);
    assert z[..lo] == w[..lo] && z[hi..] == w[hi..];
    Cancel(multiset(z[..lo]), multiset(z[lo..hi]), multiset(w[lo..hi]), multiset(z[hi..]));
  }

  lemma Three<T>(z: seq<T>, lo: nat, hi: nat)
    requires lo <= hi <= |z|
    ensures multiset(z) == multiset(z[..lo]) + multiset(z[lo..hi]) + multiset(z[hi..])
  {
    assert z == z[..lo] + z[lo..hi] + z[hi..];
  }

  lemma Cancel<T>(p: multiset<T>, x: multiset<T>, y: multiset<T>, q: multiset<T>)
    requires p + x + q == p + y + q
    ensures x == y
  {
    forall e ensures x[e] == y[e] {
      assert (p + x + q)[e] == p[e] + x[e] + q[e] && (p + y + q)[e] == p[e] + y[e] + q[e];
    }
  }

  // ---- the partition ----

  /** Before i: smaller than the pivot; lp..hp: equal; after j: greater; the rest is not known. */
  ghost predicate Parts(c: Compare, p: string, z: seq<Item>, lo: nat, i: nat, lp: nat, hp: nat, j: nat, hi: nat)
  {
    && lo <= i <= lp <= hp <= j < hi <= |z|
    && (forall k | lo <= k < i :: c(z[k].line, p) < 0)
    && (forall k | lp <= k <= hp :: c(z[k].line, p) == 0)
    && (forall k | j < k < hi :: c(z[k].line, p) > 0)
    && (forall k | lo <= k < hi :: !z[k].blank)
  }

  /** lp goes down over a cell found equal. */
  lemma TakeLow(c: Compare, p: string, z: seq<Item>, lo: nat, i: nat, lp: nat, hp: nat, j: nat, hi: nat)
    requires Parts(c, p, z, lo, i, lp, hp, j, hi) && i < lp && c(z[i].line, p) == 0
    ensures Parts(c, p, Swapped(z, i, lp - 1), lo, i, lp - 1, hp, j, hi)
  {
  }

  lemma TakeHigh(c: Compare, p: string, z: seq<Item>, lo: nat, i: nat, lp: nat, hp: nat, j: nat, hi: nat)
    requires Parts(c, p, z, lo, i, lp, hp, j, hi) && hp < j && c(z[j].line, p) == 0
    ensures Parts(c, p, Swapped(z, hp + 1, j), lo, i, lp, hp + 1, j, hi)
  {
  }

  /** A small cell on the right and nothing left to look at on the left. */
  lemma MoveSmall(c: Compare, p: string, z: seq<Item>, lo: nat, i: nat, lp: nat, hp: nat, j: nat, hi: nat)
    requires Parts(c, p, z, lo, i, lp, hp, j, hi) && hp < j && i == lp && c(z[j].line, p) < 0
    ensures Parts(c, p, Rotated(z, i, hp + 1, j), lo, i + 1, lp + 1, hp + 1, j, hi)
  {
  }

  /** A great cell on the left and nothing left to look at on the right. */
  lemma MoveGreat(c: Compare, p: string, z: seq<Item>, lo: nat, i: nat, lp: nat, hp: nat, j: nat, hi: nat)
    requires Parts(c, p, z, lo, i, lp, hp, j, hi) && i < lp && j == hp && c(z[i].line, p) > 0
    ensures Parts(c, p, Rotated(z, j, lp - 1, i), lo, i, lp - 1, hp - 1, hp - 1, hi)
  {
  }

  lemma Cross(c: Compare, p: string, z: seq<Item>, lo: nat, i: nat, lp: nat, hp: nat, j: nat, hi: nat)
    requires Parts(c, p, z, lo, i, lp, hp, j, hi) && i < lp && hp < j && c(z[i].line, p) > 0 && c(z[j].line, p) < 0
    ensures Parts(c, p, Swapped(z, i, j), lo, i + 1, lp, hp, j - 1, hi)
  {
  }

  lemma StepLeft(c: Compare, p: string, z: seq<Item>, lo: nat, i: nat, lp: nat, hp: nat, j: nat, hi: nat)
    requires Parts(c, p, z, lo, i, lp, hp, j, hi) && i < lp && c(z[i].line, p) < 0
    ensures Parts(c, p, z, lo, i + 1, lp, hp, j, hi)
  {
  }

  lemma StepRight(c: Compare, p: string, z: seq<Item>, lo: nat, i: nat, lp: nat, hp: nat, j: nat, hi: nat)
    requires Parts(c, p, z, lo, i, lp, hp, j, hi) && hp < j && c(z[j].line, p) > 0
    ensures Parts(c, p, z, lo, i, lp, hp, j - 1, hi)
  {
  }

  method Exchange<T>(a: array<T>, i: nat, j: nat)
    requires i < a.Length && j < a.Length
    modifies a
    ensures a[..] == Swapped(old(a[..]), i, j)
  {
    var t := a[i];
    a[i] := a[j];
    a[j] := t;
  }

  method Exchange3<T>(a: array<T>, p: nat, q: nat, r: nat)
    requires p < a.Length && q < a.Length && r < a.Length
    modifies a
    ensures a[..] == Rotated(old(a[..]), p, q, r)
  {
    var t := a[p];
    a[p] := a[r];
    a[r] := a[q];
    a[q] := t;
  }

  /** `(*compare)(x, y)`: only lines that are not blanked are ever compared. */
  method CompareItems(c: Compare, x: Item, y: Item) returns (r: int)
    requires !x.blank && !y.blank
    ensures r == c(x.line, y.line)
  {
    r := c(x.line, y.line);
  }

  /** How a cell compares with the pivot, found through any cell of the pivot's class. */
  lemma ThroughClass(c: Compare, p: string, x: Item, q: Item)
    requires Preorder(c) && c(q.line, p) == 0
    ensures Sign(c(x.line, q.line)) == Sign(c(x.line, p))
    ensures Sign(c(q.line, x.line)) == -Sign(c(x.line, p))
  {
    hide Preorder;
    SameClass(c, x.line, q.line, p);
    Opposite(c, q.line, x.line);
  }

  lemma PartsPivot(c: Compare, p: string, z: seq<Item>, lo: nat, i: nat, lp: nat, hp: nat, j: nat, hi: nat)
    requires Parts(c, p, z, lo, i, lp, hp, j, hi)
    ensures lo <= i <= lp <= hp <= j < hi <= |z|
    ensures c(z[lp].line, p) == 0 && c(z[hp].line, p) == 0
    ensures !z[i].blank && !z[j].blank && !z[lp].blank && !z[hp].blank
  {
  }

  lemma PartsStart(c: Compare, z: seq<Item>, lo: nat, m: nat, hi: nat)
    requires Preorder(c) && lo <= m < hi <= |z| && forall k | lo <= k < hi :: !z[k].blank
    ensures Parts(c, z[m].line, z, lo, lo, m, m, hi - 1, hi)
  {
    Opposite(c, z[m].line, z[m].line);
  }

  datatype Next = Head | Label | Done

  /** The head of the loop: settle the cell at i, or find it greater than the pivot. */
  method AtHead(a: array<Item>, c: Compare, lo: nat, i: nat, lp: nat, ghost hp: nat, ghost j: nat, hi: nat,
                ghost p: string, ghost w: seq<Item>)
    returns (i': nat, lp': nat, again: bool)
    requires Preorder(c) && Parts(c, p, a[..], lo, i, lp, hp, j, hi) && Perm(a[..], w, lo, hi)
    modifies a
    ensures Parts(c, p, a[..], lo, i', lp', hp, j, hi) && Perm(a[..], w, lo, hi) && i' <= lp' <= hp
    ensures again ==> lp' - i' < lp - i
    ensures !again ==> a[..] == old(a[..]) && i' == i && lp' == lp && (i < lp ==> c(a[i].line, p) > 0)
  {
    hide Preorder, Parts, Perm, Swapped;
    i', lp', again := i, lp, false;
    ghost var z := a[..];
    PartsPivot(c, p, z, lo, i, lp, hp, j, hi);
    if i < lp {
      ThroughClass(c, p, z[i], z[lp]);
      var r := CompareItems(c, a[i], a[lp]);
      if r == 0 {
        TakeLow(c, p, z, lo, i, lp, hp, j, hi);
        SwapPerm(z, i, lp - 1, w, lo, hi);
        lp' := lp - 1;
        Exchange(a, i, lp');
        again := true;
      } else if r < 0 {
        StepLeft(c, p, z, lo, i, lp, hp, j, hi);
        i' := i + 1;
        again := true;
      }
    }
  }

  /** The label inside the loop: settle the cell at j, or a great cell at i when there is none. */
  method AtLabel(a: array<Item>, c: Compare, lo: nat, i: nat, lp: nat, hp: nat, j: nat, hi: nat,
                 ghost p: string, ghost w: seq<Item>)
    returns (i': nat, lp': nat, hp': nat, j': nat, next: Next)
    requires Preorder(c) && Parts(c, p, a[..], lo, i, lp, hp, j, hi) && Perm(a[..], w, lo, hi)
    requires hi <= a.Length && i < lp < hi ==> c(a[i].line, p) > 0
    modifies a
    ensures Parts(c, p, a[..], lo, i', lp', hp', j', hi) && Perm(a[..], w, lo, hi)
    ensures i' <= lp' <= hp' <= j' < hi <= a.Length
    ensures next.Done? ==> i' == lp' && j' == hp'
    ensures !next.Done? ==> (lp' - i') + (j' - hp') < (lp - i) + (j - hp)
    ensures next.Label? && i' < lp' ==> c(a[i'].line, p) > 0
  {
    hide Preorder, Parts, Perm, Swapped, Rotated;
    i', lp', hp', j', next := i, lp, hp, j, Label;
    ghost var z := a[..];
    PartsPivot(c, p, z, lo, i, lp, hp, j, hi);
    if j > hp {
      ThroughClass(c, p, z[j], z[hp]);
      var r := CompareItems(c, a[hp], a[j]);
      if r == 0 {
        TakeHigh(c, p, z, lo, i, lp, hp, j, hi);
        SwapPerm(z, hp + 1, j, w, lo, hi);
        SwapKeeps(z, i, lp, hp, j);
        hp' := hp + 1;
        Exchange(a, hp', j);
      } else if r < 0 {
        StepRight(c, p, z, lo, i, lp, hp, j, hi);
        j' := j - 1;
      } else if i == lp {
        MoveSmall(c, p, z, lo, i, lp, hp, j, hi);
        RotatePerm(z, i, hp + 1, j, w, lo, hi);
        hp' := hp + 1;
        Exchange3(a, i, hp', j);
        lp' := lp + 1;
        i' := lp';
      } else {
        Cross(c, p, z, lo, i, lp, hp, j, hi);
        SwapPerm(z, i, j, w, lo, hi);
        Exchange(a, i, j);
        j', i', next := j - 1, i + 1, Head;
      }
    } else if i == lp {
      next := Done;
    } else {
      MoveGreat(c, p, z, lo, i, lp, hp, j, hi);
      RotatePerm(z, j, lp - 1, i, w, lo, hi);
      lp' := lp - 1;
      Exchange3(a, j, lp', i);
      hp', j', next := hp - 1, hp - 1, Head;
    }
  }

  /** The goto loop; `next` tells whether control is at its head or at the label inside it. */
  method Partition(a: array<Item>, c: Compare, lo: nat, hi: nat) returns (lp: nat, hp: nat, ghost p: string)
    requires Preorder(c) && lo + 1 < hi <= a.Length && forall k | lo <= k < hi :: !a[k].blank
    modifies a
    ensures Parts(c, p, a[..], lo, lp, lp, hp, hp, hi) && Perm(a[..], old(a[..]), lo, hi)
  {
    hide Preorder, Parts, Perm;
    ghost var w := a[..];
    var n := (hi - lo) / 2;
    lp, hp := lo + n, lo + n;
    var i: nat, j: nat := lo, hi - 1;
    p := a[lp].line;
    PartsStart(c, w, lo, lp, hi);
    PermSame(w, lo, hi);
    var next := Head;
    while !next.Done?
      invariant Parts(c, p, a[..], lo, i, lp, hp, j, hi) && Perm(a[..], w, lo, hi)
      invariant i <= lp <= hp <= j < hi
      invariant next.Label? && i < lp ==> c(a[i].line, p) > 0
      invariant next.Done? ==> i == lp && j == hp
      decreases (lp - i) + (j - hp), !next.Done?
    {
      var again := false;
      if next.Head? {
        i, lp, again := AtHead(a, c, lo, i, lp, hp, j, hi, p, w);
      }
      if !again {
        i, lp, hp, j, next := AtLabel(a, c, lo, i, lp, hp, j, hi, p, w);
      }
    }
  }

  lemma PermSame<T>(w: seq<T>, lo: nat, hi: nat)
    ensures Perm(w, w, lo, hi)
  {
  }

  lemma SwapKeeps<T>(z: seq<T>, i: nat, lp: nat, hp: nat, j: nat)
    requires i <= lp <= hp < j < |z|
    ensures Swapped(z, hp + 1, j)[i] == z[i]
  {
  }

  // ---- the recursion ----

  /** Every line of x goes strictly before every line of y. */
  ghost predicate Strict(c: Compare, x: multiset<Item>, y: multiset<Item>)
  {
    forall u, v | u in x && v in y :: c(u.line, v.line) < 0
  }

  ghost predicate Class(c: Compare, e: seq<Item>)
  {
    forall i, j | 0 <= i < |e| && 0 <= j < |e| :: c(e[i].line, e[j].line) == 0
  }

  ghost predicate NoBlanks(z: seq<Item>)
  {
    forall k | 0 <= k < |z| :: !z[k].blank
  }

  /** What `-u` makes of a class: all but its first line blanked. */
  function Blanked(uflg: bool, e: seq<Item>): seq<Item>
  {
    seq(|e|, k requires 0 <= k < |e| => if uflg && k > 0 then e[k].(blank := true) else e[k])
  }

  /** Sorting under way: `mid` still to do, the cells on both sides final and their lines in order. */
  ghost predicate State(c: Compare, uflg: bool, lc: seq<Item>, left: seq<Item>, mid: seq<Item>,
                        rc: seq<Item>, right: seq<Item>, all: multiset<Item>)
  {
    && multiset(left) + multiset(mid) + multiset(right) == all
    && Sorted(c, left) && Sorted(c, right) && Result(c, uflg, lc, left) && Result(c, uflg, rc, right)
    && Strict(c, multiset(left), multiset(mid)) && Strict(c, multiset(mid), multiset(right))
    && Strict(c, multiset(left), multiset(right)) && NoBlanks(mid)
  }

  lemma StrictUnion(c: Compare, x: multiset<Item>, y: multiset<Item>, z: multiset<Item>)
    ensures Strict(c, x + y, z) <==> Strict(c, x, z) && Strict(c, y, z)
    ensures Strict(c, z, x + y) <==> Strict(c, z, x) && Strict(c, z, y)
  {
    if Strict(c, x + y, z) { assert forall u | u in x || u in y :: u in x + y; }
    if Strict(c, z, x + y) { assert forall u | u in x || u in y :: u in x + y; }
  }

  lemma SortedCat(c: Compare, x: seq<Item>, y: seq<Item>)
    requires Sorted(c, x) && Sorted(c, y) && Strict(c, multiset(x), multiset(y))
    ensures Sorted(c, x + y)
  {
    var s := x + y;
    forall i, j | 0 <= i < j < |s| ensures c(s[i].line, s[j].line) <= 0 {
      if i < |x| <= j { assert x[i] in multiset(x) && y[j - |x|] in multiset(y); }
    }
  }

  lemma ResultCat(c: Compare, uflg: bool, z: seq<Item>, x: seq<Item>, v: seq<Item>, y: seq<Item>)
    requires Result(c, uflg, z, x) && Result(c, uflg, v, y) && Strict(c, multiset(x), multiset(y))
    ensures Result(c, uflg, z + v, x + y)
  {
    forall k | 0 <= k < |x + y| ensures (z + v)[k] == CellOf(c, uflg, x + y, k) {
      if k < |x| { CellBefore(c, uflg, x, y, k); } else { CellAfter(c, uflg, x, y, k - |x|); }
    }
  }

  lemma CellBefore(c: Compare, uflg: bool, x: seq<Item>, y: seq<Item>, k: nat)
    requires k < |x|
    ensures CellOf(c, uflg, x + y, k) == CellOf(c, uflg, x, k)
  {
  }

  lemma CellAfter(c: Compare, uflg: bool, x: seq<Item>, y: seq<Item>, k: nat)
    requires k < |y| && Strict(c, multiset(x), multiset(y))
    ensures CellOf(c, uflg, x + y, |x| + k) == CellOf(c, uflg, y, k)
  {
    if k == 0 && x != [] {
      assert x[|x| - 1] in multiset(x) && y[0] in multiset(y);
      assert (x + y)[|x| - 1] == x[|x| - 1];
    }
  }

  lemma ClassSorted(c: Compare, uflg: bool, e: seq<Item>)
    requires Class(c, e)
    ensures Sorted(c, e) && Result(c, uflg, Blanked(uflg, e), e)
  {
  }

  lemma Append3(c: Compare, uflg: bool, x: seq<Item>, xc: seq<Item>, y: seq<Item>, yc: seq<Item>, z: seq<Item>, zc: seq<Item>)
    requires Sorted(c, x) && Sorted(c, y) && Sorted(c, z)
    requires Result(c, uflg, xc, x) && Result(c, uflg, yc, y) && Result(c, uflg, zc, z)
    requires Strict(c, multiset(x), multiset(y)) && Strict(c, multiset(x), multiset(z)) && Strict(c, multiset(y), multiset(z))
    ensures Sorted(c, x + y + z) && Result(c, uflg, xc + yc + zc, x + y + z)
  {
    hide Sorted, Result, Strict;
    SortedCat(c, x, y);
    ResultCat(c, uflg, xc, x, yc, y);
    StrictUnion(c, multiset(x), multiset(y), multiset(z));
    assert multiset(x + y) == multiset(x) + multiset(y);
    SortedCat(c, x + y, z);
    ResultCat(c, uflg, xc + yc, x + y, zc, z);
  }

  /** The part m2 sorted and put with the class e before what was done on the right. */
  lemma DoneRight(c: Compare, uflg: bool, lc: seq<Item>, left: seq<Item>, mid: seq<Item>, rc: seq<Item>, right: seq<Item>,
                  all: multiset<Item>, m1: seq<Item>, e: seq<Item>, m2: seq<Item>, t: seq<Item>, tc: seq<Item>)
    requires State(c, uflg, lc, left, mid, rc, right, all) && Split(c, mid, m1, e, m2)
    requires multiset(t) == multiset(m2) && Sorted(c, t) && Result(c, uflg, tc, t)
    ensures State(c, uflg, lc, left, m1, Blanked(uflg, e) + tc + rc, e + t + right, all)
  {
    hide Sorted, Result, Strict, Blanked, Class, NoBlanks;
    ClassSorted(c, uflg, e);
    Around(c, multiset(left), mid, m1, e, m2, multiset(right));
    Append3(c, uflg, e, Blanked(uflg, e), t, tc, right, rc);
    assert multiset(e + t + right) == multiset(e) + multiset(t) + multiset(right);
    StrictUnion(c, multiset(e), multiset(t), multiset(left));
    StrictUnion(c, multiset(e) + multiset(t), multiset(right), multiset(left));
    StrictUnion(c, multiset(e), multiset(t), multiset(m1));
    StrictUnion(c, multiset(e) + multiset(t), multiset(right), multiset(m1));
    Regroup(multiset(left), multiset(m1), multiset(e), multiset(t), multiset(right));
  }

  lemma DoneLeft(c: Compare, uflg: bool, lc: seq<Item>, left: seq<Item>, mid: seq<Item>, rc: seq<Item>, right: seq<Item>,
                 all: multiset<Item>, m1: seq<Item>, e: seq<Item>, m2: seq<Item>, t: seq<Item>, tc: seq<Item>)
    requires State(c, uflg, lc, left, mid, rc, right, all) && Split(c, mid, m1, e, m2)
    requires multiset(t) == multiset(m1) && Sorted(c, t) && Result(c, uflg, tc, t)
    ensures State(c, uflg, lc + tc + Blanked(uflg, e), left + t + e, m2, rc, right, all)
  {
    hide Sorted, Result, Strict, Blanked, Class, NoBlanks;
    ClassSorted(c, uflg, e);
    Around(c, multiset(left), mid, m1, e, m2, multiset(right));
    Append3(c, uflg, left, lc, t, tc, e, Blanked(uflg, e));
    assert multiset(left + t + e) == multiset(left) + multiset(t) + multiset(e);
    StrictUnion(c, multiset(left), multiset(t), multiset(right));
    StrictUnion(c, multiset(left) + multiset(t), multiset(e), multiset(right));
    StrictUnion(c, multiset(left), multiset(t), multiset(m2));
    StrictUnion(c, multiset(left) + multiset(t), multiset(e), multiset(m2));
    Regroup(multiset(left), multiset(t), multiset(e), multiset(m2), multiset(right));
  }

  lemma Regroup<T>(l: multiset<T>, m: multiset<T>, e: multiset<T>, t: multiset<T>, r: multiset<T>)
    ensures l + (m + e + t) + r == l + m + (e + t + r) == (l + m + e) + t + r
  {
  }

  /** The three parts a partition leaves. */
  ghost predicate Split(c: Compare, mid: seq<Item>, m1: seq<Item>, e: seq<Item>, m2: seq<Item>)
  {
    && multiset(mid) == multiset(m1) + multiset(e) + multiset(m2) && Class(c, e)
    && Strict(c, multiset(m1), multiset(e)) && Strict(c, multiset(e), multiset(m2)) && Strict(c, multiset(m1), multiset(m2))
    && NoBlanks(m1) && NoBlanks(m2)
  }

  lemma Around(c: Compare, l: multiset<Item>, mid: seq<Item>, m1: seq<Item>, e: seq<Item>, m2: seq<Item>, r: multiset<Item>)
    requires Split(c, mid, m1, e, m2) && Strict(c, l, multiset(mid)) && Strict(c, multiset(mid), r)
    ensures Strict(c, l, multiset(m1)) && Strict(c, l, multiset(e)) && Strict(c, l, multiset(m2))
    ensures Strict(c, multiset(m1), r) && Strict(c, multiset(e), r) && Strict(c, multiset(m2), r)
  {
    hide Strict;
    StrictUnion(c, multiset(m1), multiset(e), l);
    StrictUnion(c, multiset(m1) + multiset(e), multiset(m2), l);
    StrictUnion(c, multiset(m1), multiset(e), r);
    StrictUnion(c, multiset(m1) + multiset(e), multiset(m2), r);
  }

  lemma StrictParts(c: Compare, p: string, x: seq<Item>, y: seq<Item>)
    requires Preorder(c)
    requires (forall k | 0 <= k < |x| :: c(x[k].line, p) <= 0) && (forall k | 0 <= k < |y| :: c(y[k].line, p) >= 0)
    requires (forall k | 0 <= k < |x| :: c(x[k].line, p) < 0) || (forall k | 0 <= k < |y| :: c(y[k].line, p) > 0)
    ensures Strict(c, multiset(x), multiset(y))
  {
    hide Preorder;
    forall u, v | u in multiset(x) && v in multiset(y) ensures c(u.line, v.line) < 0 {
      var i :| 0 <= i < |x| && x[i] == u;
      var j :| 0 <= j < |y| && y[j] == v;
      Across(c, u.line, p, v.line);
    }
  }

  lemma PartsSplit(c: Compare, p: string, z: seq<Item>, lo: nat, lp: nat, hp: nat, hi: nat)
    requires Preorder(c) && Parts(c, p, z, lo, lp, lp, hp, hp, hi)
    ensures Split(c, z[lo..hi], z[lo..lp], z[lp..hp + 1], z[hp + 1..hi])
  {
    hide Preorder, Strict, Class;
    var m1, e, m2 := z[lo..lp], z[lp..hp + 1], z[hp + 1..hi];
    assert z[lo..hi] == m1 + e + m2;
    StrictParts(c, p, m1, e);
    StrictParts(c, p, e, m2);
    StrictParts(c, p, m1, m2);
    ClassOf(c, p, e);
  }

  lemma ClassOf(c: Compare, p: string, e: seq<Item>)
    requires Preorder(c) && forall k | 0 <= k < |e| :: c(e[k].line, p) == 0
    ensures Class(c, e)
  {
    hide Preorder;
    forall i, j | 0 <= i < |e| && 0 <= j < |e| ensures c(e[i].line, e[j].line) == 0 {
      SameClass(c, e[i].line, e[j].line, p);
    }
  }

  /** `**k++ = '\0'` over all but the first line of the class. */
  method BlankClass(a: array<Item>, lp: nat, hp: nat)
    requires lp <= hp < a.Length
    modifies a
    ensures a[..] == old(a[..lp]) + Blanked(true, old(a[lp..hp + 1])) + old(a[hp + 1..])
  {
    var k := lp + 1;
    while k <= hp
      invariant lp + 1 <= k <= hp + 1
      invariant forall i {:trigger a[i]} | 0 <= i < a.Length ::
        a[i] == if lp < i < k then old(a[i]).(blank := true) else old(a[i])
    {
      a[k] := a[k].(blank := true);
      k := k + 1;
    }
    assert a[..] == old(a[..lp]) + Blanked(true, old(a[lp..hp + 1])) + old(a[hp + 1..]);
  }

  ghost function Pow2(n: nat): nat { if n == 0 then 1 else 2 * Pow2(n - 1) }

  function Max(a: nat, b: nat): nat { if a < b then b else a }

  /** The array while sorting lo0..hi0, with lo..hi still to do. */
  ghost predicate Under(c: Compare, uflg: bool, z: seq<Item>, w: seq<Item>, lo0: nat, lo: nat, hi: nat, hi0: nat,
                        left: seq<Item>, right: seq<Item>)
  {
    && lo0 <= lo <= hi <= hi0 <= |z| == |w|
    && (forall k | 0 <= k < |z| && !(lo0 <= k < hi0) :: z[k] == w[k])
    && State(c, uflg, z[lo0..lo], left, z[lo..hi], z[hi..hi0], right, multiset(w[lo0..hi0]))
  }

  lemma UnderStart(c: Compare, uflg: bool, w: seq<Item>, lo: nat, hi: nat)
    requires lo <= hi <= |w| && forall k | lo <= k < hi :: !w[k].blank
    ensures Under(c, uflg, w, w, lo, lo, hi, hi, [], [])
  {
    assert multiset([]) + multiset(w[lo..hi]) + multiset([]) == multiset(w[lo..hi]);
  }

  lemma UnderPerm(c: Compare, uflg: bool, z: seq<Item>, y: seq<Item>, w: seq<Item>, lo0: nat, lo: nat, hi: nat, hi0: nat,
                  left: seq<Item>, right: seq<Item>, p: string, lp: nat, hp: nat)
    requires Under(c, uflg, z, w, lo0, lo, hi, hi0, left, right) && Perm(y, z, lo, hi)
    requires Parts(c, p, y, lo, lp, lp, hp, hp, hi)
    ensures Under(c, uflg, y, w, lo0, lo, hi, hi0, left, right)
  {
    hide Sorted, Result, Strict;
    PermSlice(y, z, lo, hi);
    assert y[lo0..lo] == z[lo0..lo] && y[hi..hi0] == z[hi..hi0];
  }

  /** Cells x..y of the array sorted, and nothing else changed. */
  ghost predicate Did(c: Compare, uflg: bool, z: seq<Item>, y: seq<Item>, lo: nat, hi: nat, s: seq<Item>)
  {
    && lo <= hi <= |z| == |y|
    && (forall k | 0 <= k < |z| && !(lo <= k < hi) :: z[k] == y[k])
    && multiset(s) == multiset(y[lo..hi]) && Sorted(c, s) && Result(c, uflg, z[lo..hi], s)
  }

  /** `y` is `z` with the class lp..hp blanked, and then `x` is `y` with the part on the right sorted. */
  lemma UnderRight(c: Compare, uflg: bool, z: seq<Item>, y: seq<Item>, x: seq<Item>, w: seq<Item>,
                   lo0: nat, lo: nat, hi: nat, hi0: nat, left: seq<Item>, right: seq<Item>, lp: nat, hp: nat, t: seq<Item>)
    requires Under(c, uflg, z, w, lo0, lo, hi, hi0, left, right) && lo <= lp <= hp < hi
    requires Split(c, z[lo..hi], z[lo..lp], z[lp..hp + 1], z[hp + 1..hi])
    requires y == z[..lp] + Blanked(uflg, z[lp..hp + 1]) + z[hp + 1..]
    requires Did(c, uflg, x, y, hp + 1, hi, t)
    ensures Under(c, uflg, x, w, lo0, lo, lp, hi0, left, z[lp..hp + 1] + t + right)
  {
    hide State, Split, Sorted, Result, Blanked;
    var e, ec := z[lp..hp + 1], Blanked(uflg, z[lp..hp + 1]);
    BlankedLength(uflg, e);
    Inner(z, y, ec, lp, hp, hi);
    DoneRight(c, uflg, z[lo0..lo], left, z[lo..hi], z[hi..hi0], right, multiset(w[lo0..hi0]),
              z[lo..lp], e, z[hp + 1..hi], t, x[hp + 1..hi]);
    Outer(z, y, x, ec, lp, hp, hp + 1, hi, lo0, lo);
    Outer(z, y, x, ec, lp, hp, hp + 1, hi, lo, lp);
    Outer(z, y, x, ec, lp, hp, hp + 1, hi, hi, hi0);
    Join3(x, lp, hp + 1, hi, hi0);
  }

  lemma UnderLeft(c: Compare, uflg: bool, z: seq<Item>, y: seq<Item>, x: seq<Item>, w: seq<Item>,
                  lo0: nat, lo: nat, hi: nat, hi0: nat, left: seq<Item>, right: seq<Item>, lp: nat, hp: nat, t: seq<Item>)
    requires Under(c, uflg, z, w, lo0, lo, hi, hi0, left, right) && lo <= lp <= hp < hi
    requires Split(c, z[lo..hi], z[lo..lp], z[lp..hp + 1], z[hp + 1..hi])
    requires y == z[..lp] + Blanked(uflg, z[lp..hp + 1]) + z[hp + 1..]
    requires Did(c, uflg, x, y, lo, lp, t)
    ensures Under(c, uflg, x, w, lo0, hp + 1, hi, hi0, left + t + z[lp..hp + 1], right)
  {
    hide State, Split, Sorted, Result, Blanked;
    var e, ec := z[lp..hp + 1], Blanked(uflg, z[lp..hp + 1]);
    BlankedLength(uflg, e);
    Inner(z, y, ec, lp, hp, hi);
    assert y[lo..lp] == z[lo..lp];
    DoneLeft(c, uflg, z[lo0..lo], left, z[lo..hi], z[hi..hi0], right, multiset(w[lo0..hi0]),
             z[lo..lp], e, z[hp + 1..hi], t, x[lo..lp]);
    Outer(z, y, x, ec, lp, hp, lo, lp, lo0, lo);
    Outer(z, y, x, ec, lp, hp, lo, lp, hp + 1, hi);
    Outer(z, y, x, ec, lp, hp, lo, lp, hi, hi0);
    Join3(x, lo0, lo, lp, hp + 1);
  }

  lemma Inner<T>(z: seq<T>, y: seq<T>, ec: seq<T>, lp: nat, hp: nat, hi: nat)
    requires lp <= hp < hi <= |z| && |ec| == hp + 1 - lp && y == z[..lp] + ec + z[hp + 1..]
    ensures |y| == |z| && y[hp + 1..hi] == z[hp + 1..hi] && y[lp..hp + 1] == ec && y[..lp] == z[..lp]
  {
  }

  /** A slice i..j away from the class and from the part u..v just sorted is as before. */
  lemma Outer<T>(z: seq<T>, y: seq<T>, x: seq<T>, ec: seq<T>, lp: nat, hp: nat, u: nat, v: nat, i: nat, j: nat)
    requires lp <= hp < |z| && |ec| == hp + 1 - lp && y == z[..lp] + ec + z[hp + 1..] && |x| == |y|
    requires forall k | 0 <= k < |x| && !(u <= k < v) :: x[k] == y[k]
    requires i <= j <= |x| && (j <= lp || hp + 1 <= i) && (j <= u || v <= i) && (v <= lp || hp + 1 <= u)
    ensures x[i..j] == z[i..j] && x[lp..hp + 1] == ec
  {
    assert y[lp..hp + 1] == ec;
    assert forall k | lp <= k <= hp :: x[k] == y[k];
  }

  lemma Join3<T>(x: seq<T>, i: nat, j: nat, k: nat, l: nat)
    requires i <= j <= k <= l <= |x|
    ensures x[i..l] == x[i..j] + x[j..k] + x[k..l]
  {
  }

  lemma BlankedLength(uflg: bool, e: seq<Item>)
    ensures |Blanked(uflg, e)| == |e| && (!uflg ==> Blanked(uflg, e) == e)
  {
  }

  /** At most one cell is left. */
  lemma UnderDone(c: Compare, uflg: bool, z: seq<Item>, w: seq<Item>, lo0: nat, lo: nat, hi: nat, hi0: nat,
                  left: seq<Item>, right: seq<Item>)
    requires Preorder(c) && Under(c, uflg, z, w, lo0, lo, hi, hi0, left, right) && hi - lo <= 1
    ensures Did(c, uflg, z, w, lo0, hi0, left + z[lo..hi] + right)
  {
    hide Sorted, Result, Strict, Preorder;
    var mid := z[lo..hi];
    OneSorted(c, uflg, mid);
    Append3(c, uflg, left, z[lo0..lo], mid, mid, right, z[hi..hi0]);
    assert z[lo0..hi0] == z[lo0..lo] + mid + z[hi..hi0];
    assert multiset(left + mid + right) == multiset(left) + multiset(mid) + multiset(right);
  }

  lemma OneSorted(c: Compare, uflg: bool, s: seq<Item>)
    requires |s| <= 1
    ensures Sorted(c, s) && Result(c, uflg, s, s)
  {
  }

  /** Partition and, under `-u`, blank the class of the pivot. */
  method Divide(a: array<Item>, c: Compare, uflg: bool, lo: nat, hi: nat,
                ghost w: seq<Item>, ghost lo0: nat, ghost hi0: nat, ghost left: seq<Item>, ghost right: seq<Item>)
    returns (lp: nat, hp: nat, ghost z: seq<Item>)
    requires Preorder(c) && lo + 1 < hi <= a.Length && Under(c, uflg, a[..], w, lo0, lo, hi, hi0, left, right)
    modifies a
    ensures lo <= lp <= hp < hi <= |z| == a.Length && Under(c, uflg, z, w, lo0, lo, hi, hi0, left, right)
    ensures Split(c, z[lo..hi], z[lo..lp], z[lp..hp + 1], z[hp + 1..hi])
    ensures a[..] == z[..lp] + Blanked(uflg, z[lp..hp + 1]) + z[hp + 1..]
    ensures forall k | lo <= k < lp || hp < k < hi :: !a[k].blank
  {
    hide Preorder, Under, Parts, Perm, Split, Blanked;
    ghost var z0 := a[..];
    UnderBlank(c, uflg, z0, w, lo0, lo, hi, hi0, left, right);
    ghost var p;
    lp, hp, p := Partition(a, c, lo, hi);
    z := a[..];
    UnderPerm(c, uflg, z0, z, w, lo0, lo, hi, hi0, left, right, p, lp, hp);
    PartsSplit(c, p, z, lo, lp, hp, hi);
    PartsPivot(c, p, z, lo, lp, lp, hp, hp, hi);
    BlankedLength(uflg, z[lp..hp + 1]);
    if uflg { BlankClass(a, lp, hp); }
    SidesBlank(c, p, uflg, z, a[..], lo, lp, hp, hi);
  }

  /** `qusort`.  The lines come out sorted, each class under `-u` with one line not blanked, and the
      calls nest at most log2(n) deep: a call sorts the smaller part, and starts over with the other. */
  method Qusort(a: array<Item>, c: Compare, uflg: bool, lo0: nat, hi0: nat) returns (ghost s: seq<Item>, ghost nest: nat)
    requires Preorder(c) && lo0 <= hi0 <= a.Length && forall k | lo0 <= k < hi0 :: !a[k].blank
    modifies a
    ensures Did(c, uflg, a[..], old(a[..]), lo0, hi0, s)
    ensures Pow2(nest) <= Max(1, hi0 - lo0)
    decreases hi0 - lo0
  {
    hide Preorder, Under, Did, Parts, Perm, Split, Blanked;
    ghost var w := a[..];
    var lo, hi := lo0, hi0;
    ghost var left: seq<Item>, right: seq<Item> := [], [];
    nest := 0;
    UnderStart(c, uflg, w, lo0, hi0);
    while hi - lo > 1
      invariant lo0 <= lo <= hi <= hi0 && Under(c, uflg, a[..], w, lo0, lo, hi, hi0, left, right)
      invariant Pow2(nest) <= Max(1, hi0 - lo0)
      decreases hi - lo
    {
      var lp, hp; ghost var z;
      lp, hp, z := Divide(a, c, uflg, lo, hi, w, lo0, hi0, left, right);
      ghost var y := a[..];
      ghost var t, n;
      if lp - lo >= hi - hp {
        t, n := Qusort(a, c, uflg, hp + 1, hi);
        UnderRight(c, uflg, z, y, a[..], w, lo0, lo, hi, hi0, left, right, lp, hp, t);
        right := z[lp..hp + 1] + t + right;
        hi := lp;
      } else {
        t, n := Qusort(a, c, uflg, lo, lp);
        UnderLeft(c, uflg, z, y, a[..], w, lo0, lo, hi, hi0, left, right, lp, hp, t);
        left := left + t + z[lp..hp + 1];
        lo := hp + 1;
      }
      if n + 1 > nest { nest := n + 1; }
    }
    UnderDone(c, uflg, a[..], w, lo0, lo, hi, hi0, left, right);
    s := left + a[lo..hi] + right;
  }

  lemma UnderBlank(c: Compare, uflg: bool, z: seq<Item>, w: seq<Item>, lo0: nat, lo: nat, hi: nat, hi0: nat,
                   left: seq<Item>, right: seq<Item>)
    requires Under(c, uflg, z, w, lo0, lo, hi, hi0, left, right)
    ensures hi <= |z| && forall k | lo <= k < hi :: !z[k].blank
  {
    forall k | lo <= k < hi ensures !z[k].blank {
      assert z[k] == z[lo..hi][k - lo];
    }
  }

  /** Blanking the class leaves the sides as they were. */
  lemma SidesBlank(c: Compare, p: string, uflg: bool, z: seq<Item>, y: seq<Item>, lo: nat, lp: nat, hp: nat, hi: nat)
    requires Parts(c, p, z, lo, lp, lp, hp, hp, hi)
    requires y == z[..lp] + Blanked(uflg, z[lp..hp + 1]) + z[hp + 1..]
    ensures |y| == |z| && (forall k | lo <= k < lp || hp < k < hi :: !y[k].blank)
  {
  }

  /** What `-u` promises: of every class of lines exactly one is left. */
  lemma OnePerClass(c: Compare, z: seq<Item>, s: seq<Item>, k: nat)
    requires Preorder(c) && Sorted(c, s) && Result(c, true, z, s) && NoBlanks(s) && k < |s|
    ensures exists m | 0 <= m < |z| :: Left(c, z, s, k, m) && forall i | 0 <= i < |z| && Left(c, z, s, k, i) :: i == m
  {
    hide Preorder;
    var m := FirstOf(c, s, k);
    Opposite(c, s[m].line, s[k].line);
    assert z[m] == CellOf(c, true, s, m);
    assert Left(c, z, s, k, m);
    forall i | 0 <= i < |z| && Left(c, z, s, k, i) ensures i == m {
      SameClass(c, s[m].line, s[k].line, s[i].line);
      if m < i {
        Between(c, s, m, i - 1, i);
      } else if i < m {
        Opposite(c, s[i].line, s[m].line);
        SameClass(c, s[i].line, s[k].line, s[m].line);
        Between(c, s, i, m - 1, m);
      }
    }
  }

  /** A line of the class of line k that is not blanked. */
  ghost predicate Left(c: Compare, z: seq<Item>, s: seq<Item>, k: nat, m: nat)
    requires |z| == |s| && k < |s|
  {
    m < |s| && !z[m].blank && c(s[k].line, s[m].line) == 0
  }

  lemma FirstOf(c: Compare, s: seq<Item>, k: nat) returns (m: nat)
    requires Preorder(c) && Sorted(c, s) && k < |s|
    ensures m <= k && c(s[m].line, s[k].line) == 0 && (m > 0 ==> c(s[m - 1].line, s[m].line) != 0)
  {
    hide Preorder, Sorted;
    Opposite(c, s[k].line, s[k].line);
    m := k;
    while m > 0 && c(s[m - 1].line, s[m].line) == 0
      invariant m <= k && c(s[m].line, s[k].line) == 0
    {
      SameClass(c, s[m - 1].line, s[m].line, s[k].line);
      m := m - 1;
    }
  }

  lemma Between(c: Compare, s: seq<Item>, i: nat, j: nat, k: nat)
    requires Preorder(c) && Sorted(c, s) && i <= j < k < |s| && c(s[i].line, s[k].line) == 0
    ensures c(s[j].line, s[k].line) == 0
  {
    hide Preorder;
    Opposite(c, s[i].line, s[k].line);
    Opposite(c, s[j].line, s[k].line);
    if i < j { Chain(c, s[k].line, s[i].line, s[j].line); }
  }
}
