/** The merge join of src/cmd/join.c, with its `ftell`/`fseek` rewinding of the second file.

    A file is a sequence of lines already split into fields; a file position is the number of
    the next line.  Reading at the end of a file yields zero fields, as `input` does.
 */
module Join {

  /** `strcmp`: negative, zero or positive. */
  function Strcmp(a: string, b: string): int
  {
    if a == [] && b == [] then 0
    else if a == [] then -1
    else if b == [] then 1
    else if a[0] < b[0] then -1
    else if a[0] > b[0] then 1
    else Strcmp(a[1..], b[1..])
  }

  lemma {:induction false} StrcmpEqual(a: string, b: string)
    ensures Strcmp(a, b) == 0 <==> a == b
  {
    if a != [] && b != [] && a[0] == b[0] {
      StrcmpEqual(a[1..], b[1..]);
      assert a == [a[0]] + a[1..] && b == [b[0]] + b[1..];
    }
  }

  lemma {:induction false} StrcmpReverse(a: string, b: string)
    ensures Strcmp(a, b) < 0 <==> Strcmp(b, a) > 0
  {
    if a != [] && b != [] && a[0] == b[0] { StrcmpReverse(a[1..], b[1..]); }
  }

  lemma {:induction false} StrcmpTransitive(a: string, b: string, c: string)
    requires Strcmp(a, b) <= 0 && Strcmp(b, c) <= 0
    ensures Strcmp(a, c) <= 0 && (Strcmp(a, b) < 0 || Strcmp(b, c) < 0 ==> Strcmp(a, c) < 0)
  {
    if a != [] && b != [] && c != [] && a[0] == b[0] == c[0] {
      StrcmpTransitive(a[1..], b[1..], c[1..]);
    }
  }

  type Line = seq<string>

  /** What one call of `output` prints: a joined pair, or an unpaired line of either file. */
  datatype Row = Pair(i: nat, j: nat) | Left(i: nat) | Right(j: nat)

  /** The two files and the join fields (counted from 0). */
  datatype Tables = Tables(f1: seq<Line>, f2: seq<Line>, fj1: nat, fj2: nat) {

    /** Every line has its join field, so no line is blank. */
    ghost predicate HasKeys() {
      && (forall i | 0 <= i < |f1| :: fj1 < |f1[i]|)
      && (forall j | 0 <= j < |f2| :: fj2 < |f2[j]|)
    }

    ghost function K1(i: nat): string requires HasKeys() && i < |f1| { f1[i][fj1] }

    ghost function K2(j: nat): string requires HasKeys() && j < |f2| { f2[j][fj2] }

    ghost predicate Sorted()
      requires HasKeys()
    {
      && (forall a, b | 0 <= a <= b < |f1| :: Strcmp(K1(a), K1(b)) <= 0)
      && (forall a, b | 0 <= a <= b < |f2| :: Strcmp(K2(a), K2(b)) <= 0)
    }

    // ---- the join, by nested loops ----

    /** The pairs of line i with the lines lo..hi of the second file. */
    ghost function RowPairs(i: nat, lo: nat, hi: nat): seq<Row>
      requires HasKeys() && i < |f1| && lo <= hi <= |f2|
      decreases hi
    {
      if lo == hi then []
      else RowPairs(i, lo, hi - 1) + (if K1(i) == K2(hi - 1) then [Pair(i, hi - 1)] else [])
    }

    ghost function NestedJoin(n: nat): seq<Row>
      requires HasKeys() && n <= |f1|
    {
      if n == 0 then [] else NestedJoin(n - 1) + RowPairs(n - 1, 0, |f2|)
    }

    ghost predicate Paired1(i: nat) requires HasKeys() && i < |f1| {
      exists j :: 0 <= j < |f2| && K1(i) == K2(j)
    }

    ghost predicate Paired2(j: nat) requires HasKeys() && j < |f2| {
      exists i :: 0 <= i < |f1| && K1(i) == K2(j)
    }

    ghost function Unpaired1(n: nat): seq<Row>
      requires HasKeys() && n <= |f1|
    {
      if n == 0 then [] else Unpaired1(n - 1) + (if Paired1(n - 1) then [] else [Left(n - 1)])
    }

    ghost function Unpaired2(n: nat): seq<Row>
      requires HasKeys() && n <= |f2|
    {
      if n == 0 then [] else Unpaired2(n - 1) + (if Paired2(n - 1) then [] else [Right(n - 1)])
    }

    /** Lines before i and j are done with: neither can pair with a line still to come. */
    ghost predicate Frontier(i: nat, j: nat)
      requires HasKeys() && i <= |f1| && j <= |f2|
    {
      && (forall a, b | 0 <= a < i && j <= b < |f2| :: Strcmp(K1(a), K2(b)) < 0)
      && (forall a, b | i <= a < |f1| && 0 <= b < j :: Strcmp(K1(a), K2(b)) > 0)
    }

    lemma SkipLeft(i: nat, j: nat)
      requires HasKeys() && Sorted() && i < |f1| && j <= |f2| && Frontier(i, j)
      requires j < |f2| ==> Strcmp(K1(i), K2(j)) < 0
      ensures Frontier(i + 1, j) && !Paired1(i) && RowPairs(i, 0, |f2|) == []
    {
      hide Strcmp;
      forall b | 0 <= b < |f2| ensures Strcmp(K1(i), K2(b)) != 0 && (b >= j ==> Strcmp(K1(i), K2(b)) < 0) {
        if b >= j { StrcmpTransitive(K1(i), K2(j), K2(b)); }
      }
      forall b | 0 <= b < |f2| ensures K1(i) != K2(b) { StrcmpEqual(K1(i), K2(b)); }
      NoPairs(i, 0, |f2|);
    }

    lemma SkipRight(i: nat, j: nat)
      requires HasKeys() && Sorted() && i <= |f1| && j < |f2| && Frontier(i, j)
      requires i < |f1| ==> Strcmp(K1(i), K2(j)) > 0
      ensures Frontier(i, j + 1) && !Paired2(j)
    {
      hide Strcmp;
      forall a | 0 <= a < |f1| ensures Strcmp(K1(a), K2(j)) != 0 && (a >= i ==> Strcmp(K1(a), K2(j)) > 0) {
        if a >= i {
          StrcmpReverse(K2(j), K1(i));
          StrcmpTransitive(K2(j), K1(i), K1(a));
          StrcmpReverse(K2(j), K1(a));
        }
      }
      forall a | 0 <= a < |f1| ensures K1(a) != K2(j) { StrcmpEqual(K1(a), K2(j)); }
    }

    lemma {:induction false} NoPairs(i: nat, lo: nat, hi: nat)
      requires HasKeys() && i < |f1| && lo <= hi <= |f2|
      requires forall b | lo <= b < hi :: K1(i) != K2(b)
      ensures RowPairs(i, lo, hi) == []
      decreases hi
    {
      if lo < hi { NoPairs(i, lo, hi - 1); }
    }

    /** The nested loops yield exactly the pairs of lines with equal keys. */
    lemma {:induction false} NestedJoinPairs(n: nat, r: Row)
      requires HasKeys() && n <= |f1|
      ensures r in NestedJoin(n) <==> r.Pair? && r.i < n && r.j < |f2| && K1(r.i) == K2(r.j)
    {
      if n > 0 {
        NestedJoinPairs(n - 1, r);
        RowPairsExact(n - 1, |f2|, r);
      }
    }

    lemma {:induction false} RowPairsExact(i: nat, hi: nat, r: Row)
      requires HasKeys() && i < |f1| && hi <= |f2|
      ensures r in RowPairs(i, 0, hi) <==> r.Pair? && r.i == i && r.j < hi && K1(i) == K2(r.j)
    {
      if hi > 0 { RowPairsExact(i, hi - 1, r); }
    }

    lemma {:induction false} JoinRanges(i: nat, lo: nat, mid: nat, hi: nat)
      requires HasKeys() && i < |f1| && lo <= mid <= hi <= |f2|
      ensures RowPairs(i, lo, hi) == RowPairs(i, lo, mid) + RowPairs(i, mid, hi)
      decreases hi
    {
      if mid < hi { JoinRanges(i, lo, mid, hi - 1); }
    }

    /** Lines j..g of the second file are exactly those with key k. */
    ghost predicate Group(j: nat, g: nat, k: string)
      requires HasKeys()
    {
      && j < g <= |f2|
      && (forall b | j <= b < g :: K2(b) == k)
      && (forall b | 0 <= b < j :: Strcmp(k, K2(b)) > 0)
      && (forall b | g <= b < |f2| :: Strcmp(k, K2(b)) < 0)
    }

    lemma GroupRange(j: nat, g: nat, k: string)
      requires HasKeys() && Group(j, g, k)
      ensures j < g <= |f2|
    {
    }

    lemma GroupPairs(i: nat, j: nat, g: nat)
      requires HasKeys() && i < |f1| && Group(j, g, K1(i))
      ensures RowPairs(i, 0, |f2|) == RowPairs(i, j, g)
    {
      hide Strcmp;
      forall b | 0 <= b < j || g <= b < |f2| ensures K1(i) != K2(b) { StrcmpEqual(K1(i), K2(b)); }
      NoPairs(i, 0, j);
      NoPairs(i, g, |f2|);
      JoinRanges(i, 0, j, |f2|);
      JoinRanges(i, j, g, |f2|);
    }

    lemma AfterGroup(j: nat, g: nat, k: string, i0: nat, i: nat)
      requires HasKeys() && Sorted() && i0 <= i <= |f1| && j <= |f2| && Frontier(i0, j) && Group(j, g, k)
      requires forall a | i0 <= a < i :: K1(a) == k
      requires i < |f1| ==> Strcmp(K1(i), k) > 0
      ensures Frontier(i, g)
    {
      hide Strcmp;
      forall a, b | i <= a < |f1| && j <= b < g ensures Strcmp(K1(a), K2(b)) > 0 {
        StrcmpReverse(k, K1(i));
        StrcmpTransitive(k, K1(i), K1(a));
        StrcmpReverse(k, K1(a));
      }
    }
  }

  predicate IsPair(r: Row) { r.Pair? }
  predicate IsLeft(r: Row) { r.Left? }
  predicate IsRight(r: Row) { r.Right? }

  ghost function Only(p: Row -> bool, s: seq<Row>): seq<Row>
  {
    if s == [] then []
    else Only(p, s[..|s| - 1]) + (if p(s[|s| - 1]) then [s[|s| - 1]] else [])
  }

  lemma OnlyAppend(p: Row -> bool, s: seq<Row>, r: Row)
    ensures Only(p, s + [r]) == Only(p, s) + (if p(r) then [r] else [])
  {
    assert (s + [r])[..|s|] == s;
  }

  /** Output so far, with files read up to line i and line j: the nested-loop join of the
      lines before i, and with -a every unpaired line before i and before j. */
  ghost predicate Done(t: Tables, a1: bool, a2: bool, out: seq<Row>, i: nat, j: nat)
    requires t.HasKeys() && i <= |t.f1| && j <= |t.f2|
  {
    && Only(IsPair, out) == t.NestedJoin(i)
    && Only(IsLeft, out) == (if a1 then t.Unpaired1(i) else [])
    && Only(IsRight, out) == (if a2 then t.Unpaired2(j) else [])
  }

  lemma DoneRight(t: Tables, a1: bool, a2: bool, out: seq<Row>, i: nat, j: nat)
    requires t.HasKeys() && i <= |t.f1| && j < |t.f2| && Done(t, a1, a2, out, i, j) && !t.Paired2(j)
    ensures Done(t, a1, a2, if a2 then out + [Right(j)] else out, i, j + 1)
  {
    AppendRow(out, Right(j));
  }

  lemma DoneLeft(t: Tables, a1: bool, a2: bool, out: seq<Row>, i: nat, j: nat)
    requires t.HasKeys() && i < |t.f1| && j <= |t.f2| && Done(t, a1, a2, out, i, j)
    requires !t.Paired1(i) && t.RowPairs(i, 0, |t.f2|) == []
    ensures Done(t, a1, a2, if a1 then out + [Left(i)] else out, i + 1, j)
  {
    AppendRow(out, Left(i));
  }

  lemma AppendRow(out: seq<Row>, r: Row)
    ensures Only(IsPair, out + [r]) == Only(IsPair, out) + (if r.Pair? then [r] else [])
    ensures Only(IsLeft, out + [r]) == Only(IsLeft, out) + (if r.Left? then [r] else [])
    ensures Only(IsRight, out + [r]) == Only(IsRight, out) + (if r.Right? then [r] else [])
  {
    OnlyAppend(IsPair, out, r);
    OnlyAppend(IsLeft, out, r);
    OnlyAppend(IsRight, out, r);
  }

  /** Once the second file is used up, the remaining lines of the first have no pairs. */
  lemma {:induction false} NoMorePairs(t: Tables, i: nat, n: nat)
    requires t.HasKeys() && i <= n <= |t.f1| && t.Frontier(i, |t.f2|)
    ensures t.NestedJoin(n) == t.NestedJoin(i)
  {
    hide Strcmp;
    if i < n {
      NoMorePairs(t, i, n - 1);
      forall b | 0 <= b < |t.f2| ensures t.K1(n - 1) != t.K2(b) { StrcmpEqual(t.K1(n - 1), t.K2(b)); }
      t.NoPairs(n - 1, 0, |t.f2|);
    }
  }

  lemma {:induction false} GroupIsPaired(t: Tables, i: nat, j: nat, g: nat)
    requires t.HasKeys() && i < |t.f1| && j <= g <= |t.f2|
    requires forall b | j <= b < g :: t.K1(i) == t.K2(b)
    ensures t.Unpaired2(g) == t.Unpaired2(j)
    decreases g
  {
    if j < g {
      GroupIsPaired(t, i, j, g - 1);
      assert t.K1(i) == t.K2(g - 1);
      assert t.Paired2(g - 1);
    }
  }

  /** A line of the first file with the group's key, once its pairs are out. */
  lemma LineDone(t: Tables, i: nat, j: nat, g: nat)
    requires t.HasKeys() && i < |t.f1| && t.Group(j, g, t.K1(i))
    ensures t.NestedJoin(i + 1) == t.NestedJoin(i) + t.RowPairs(i, j, g)
    ensures t.Unpaired1(i + 1) == t.Unpaired1(i)
  {
    t.GroupPairs(i, j, g);
    assert t.K1(i) == t.K2(j);
    assert t.Paired1(i);
  }

  /** Comparing a line with one of the group, or with the first one past it. */
  lemma AgainstGroup(t: Tables, i0: nat, i: nat, j: nat, g: nat, c: nat, k: string)
    requires t.HasKeys() && t.Sorted() && i0 <= i < |t.f1| && t.Group(j, g, k) && j <= c <= g
    requires t.K1(i0) == k && (c > j ==> t.K1(i) == k)
    ensures c < g ==> t.K2(c) == k && Strcmp(t.K1(i), k) >= 0
    ensures c < g && Strcmp(t.K1(i), k) == 0 ==> t.K1(i) == k
    ensures c == g ==> t.K1(i) == k && (c < |t.f2| ==> Strcmp(t.K1(i), t.K2(c)) < 0)
    ensures Strcmp(k, k) == 0
  {
    hide Strcmp;
    StrcmpReverse(k, t.K1(i));
    StrcmpReverse(t.K1(i), k);
    StrcmpEqual(t.K1(i), k);
    StrcmpEqual(k, k);
  }

  lemma GroupEnds(t: Tables, i: nat, j: nat, g: nat)
    requires t.HasKeys() && t.Sorted() && i < |t.f1| && j < g <= |t.f2| && t.Frontier(i, j)
    requires forall b | j <= b < g :: Strcmp(t.K1(i), t.K2(b)) == 0
    requires g < |t.f2| ==> Strcmp(t.K1(i), t.K2(g)) != 0
    ensures t.Group(j, g, t.K1(i))
  {
    hide Strcmp;
    var k := t.K1(i);
    forall b | j <= b < g ensures t.K2(b) == k { StrcmpEqual(k, t.K2(b)); }
    forall b | g <= b < |t.f2| ensures Strcmp(k, t.K2(b)) < 0 {
      assert Strcmp(t.K2(j), t.K2(g)) <= 0;
      StrcmpTransitive(k, t.K2(g), t.K2(b));
    }
  }

  /** Lines before i are done, and line i up to line c of the group j..g. */
  ghost predicate Partial(t: Tables, a1: bool, a2: bool, out: seq<Row>, i: nat, j: nat, c: nat, g: nat)
    requires t.HasKeys() && i <= |t.f1| && j <= c <= g <= |t.f2| && (j < c ==> i < |t.f1|)
  {
    && Only(IsPair, out) == t.NestedJoin(i) + (if j < c then t.RowPairs(i, j, c) else [])
    && Only(IsLeft, out) == (if a1 then t.Unpaired1(i) else [])
    && Only(IsRight, out) == (if a2 then t.Unpaired2(g) else [])
  }

  lemma PartialIsDone(t: Tables, a1: bool, a2: bool, out: seq<Row>, i: nat, j: nat, g: nat)
    requires t.HasKeys() && i <= |t.f1| && j <= g <= |t.f2|
    ensures Partial(t, a1, a2, out, i, j, j, g) <==> Done(t, a1, a2, out, i, g)
  {
  }

  lemma PartialPair(t: Tables, a1: bool, a2: bool, out: seq<Row>, i: nat, j: nat, c: nat, g: nat)
    requires t.HasKeys() && i < |t.f1| && j <= c < g <= |t.f2| && t.K1(i) == t.K2(c)
    requires Partial(t, a1, a2, out, i, j, c, g)
    ensures Partial(t, a1, a2, out + [Pair(i, c)], i, j, c + 1, g)
  {
    hide Only;
    AppendRow(out, Pair(i, c));
    assert t.RowPairs(i, j, j) == [];
    assert t.RowPairs(i, j, c + 1) == t.RowPairs(i, j, c) + [Pair(i, c)];
  }

  lemma PartialLine(t: Tables, a1: bool, a2: bool, out: seq<Row>, i: nat, j: nat, g: nat)
    requires t.HasKeys() && i < |t.f1| && j < g <= |t.f2| && t.Group(j, g, t.K1(i))
    requires Partial(t, a1, a2, out, i, j, g, g)
    ensures Partial(t, a1, a2, out, i + 1, j, j, g)
  {
    hide Only, Tables.NestedJoin, Tables.RowPairs, Tables.Unpaired1, Tables.Unpaired2;
    LineDone(t, i, j, g);
  }

  lemma Finished(t: Tables, a1: bool, a2: bool, out: seq<Row>, i: nat, j: nat)
    requires t.HasKeys() && i <= |t.f1| && j <= |t.f2| && t.Frontier(i, j) && Done(t, a1, a2, out, i, j)
    requires i == |t.f1| || j == |t.f2|
    requires a1 || a2 ==> i == |t.f1| && j == |t.f2|
    ensures Done(t, a1, a2, out, |t.f1|, |t.f2|)
  {
    if j == |t.f2| { NoMorePairs(t, i, |t.f1|); }
  }

  lemma EmptyDone(t: Tables, a1: bool, a2: bool)
    requires t.HasKeys()
    ensures t.Frontier(0, 0) && Done(t, a1, a2, [], 0, 0)
  {
  }

  class Joiner {
    const t: Tables
    const a1: bool          // aflg & 1
    const a2: bool          // aflg & 2
    var out: seq<Row>
    var pos1: nat           // file positions: the next line to read
    var pos2: nat
    var cur1: nat           // lines last read into the buffers
    var cur2: nat
    var n1: nat             // their number of fields, 0 at end of file
    var n2: nat

    constructor (t: Tables, a1: bool, a2: bool)
      ensures this.t == t && this.a1 == a1 && this.a2 == a2
      ensures out == [] && pos1 == 0 && pos2 == 0
    {
      this.t, this.a1, this.a2 := t, a1, a2;
      out, pos1, pos2 := [], 0, 0;
    }

    /** The buffer of file 1 holds line i, or the file is at its end. */
    ghost predicate At1(i: nat)
      reads this
    {
      if i < |t.f1| then cur1 == i && pos1 == i + 1 && n1 == |t.f1[i]| else i == pos1 == |t.f1| && n1 == 0
    }

    ghost predicate At2(j: nat)
      reads this
    {
      if j < |t.f2| then cur2 == j && pos2 == j + 1 && n2 == |t.f2[j]| else j == pos2 == |t.f2| && n2 == 0
    }

    method Get1()
      requires pos1 <= |t.f1|
      modifies this`pos1, this`cur1, this`n1
      ensures At1(old(pos1))
    {
      if pos1 == |t.f1| {
        n1 := 0;
      } else {
        cur1, n1, pos1 := pos1, |t.f1[pos1]|, pos1 + 1;
      }
    }

    method Get2()
      requires pos2 <= |t.f2|
      modifies this`pos2, this`cur2, this`n2
      ensures At2(old(pos2))
    {
      if pos2 == |t.f2| {
        n2 := 0;
      } else {
        cur2, n2, pos2 := pos2, |t.f2[pos2]|, pos2 + 1;
      }
    }

    function Comp(): int
      requires t.HasKeys() && cur1 < |t.f1| && cur2 < |t.f2|
      reads this
    {
      Strcmp(t.f1[cur1][t.fj1], t.f2[cur2][t.fj2])
    }

    /** The merge loop. */
    method Merge()
      requires t.HasKeys() && t.Sorted() && out == [] && pos1 == 0 && pos2 == 0
      modifies this
      ensures Done(t, a1, a2, out, |t.f1|, |t.f2|)
    {
      hide Strcmp, Only, Done, Tables.Frontier, Tables.Sorted, Tables.NestedJoin, Tables.Unpaired1, Tables.Unpaired2;
      hide Tables.Paired1, Tables.Paired2, Tables.RowPairs;
      EmptyDone(t, a1, a2);
      Get1();
      var bot2: nat := pos2;
      Get2();
      ghost var i: nat := 0;
      while (n1 > 0 && n2 > 0) || ((a1 || a2) && n1 + n2 > 0)
        invariant i <= |t.f1| && bot2 <= |t.f2| && At1(i) && At2(bot2)
        invariant t.Frontier(i, bot2) && Done(t, a1, a2, out, i, bot2)
        decreases |t.f1| - i + (|t.f2| - bot2)
      {
        if (n1 > 0 && n2 > 0 && Comp() > 0) || n1 == 0 {
          t.SkipRight(i, bot2);
          DoneRight(t, a1, a2, out, i, bot2);
          if a2 { out := out + [Right(cur2)]; }
          bot2 := pos2;
          Get2();
        } else if (n1 > 0 && n2 > 0 && Comp() < 0) || n2 == 0 {
          t.SkipLeft(i, bot2);
          DoneLeft(t, a1, a2, out, i, bot2);
          if a1 { out := out + [Left(cur1)]; }
          Get1();
          i := i + 1;
        } else {
          i, bot2 := Equal(i, bot2);
        }
      }
      Finished(t, a1, a2, out, i, bot2);
    }

    /** The lines of both files that share the key of line i: all pairs, by rewinding. */
    method Equal(ghost i0: nat, bot2: nat) returns (ghost i: nat, top2: nat)
      requires t.HasKeys() && t.Sorted() && i0 < |t.f1| && bot2 < |t.f2| && At1(i0) && At2(bot2)
      requires t.Frontier(i0, bot2) && Done(t, a1, a2, out, i0, bot2)
      requires Strcmp(t.K1(i0), t.K2(bot2)) == 0
      modifies this`out, this`pos1, this`pos2, this`cur1, this`cur2, this`n1, this`n2
      ensures i0 < i <= |t.f1| && bot2 < top2 <= |t.f2| && At1(i) && At2(top2)
      ensures t.Frontier(i, top2) && Done(t, a1, a2, out, i, top2)
    {
      hide Strcmp, Only, Tables.NestedJoin, Tables.RowPairs, Tables.Unpaired1, Tables.Unpaired2;
      hide Tables.Sorted, Tables.Frontier;
      top2 := FirstRow(i0, bot2);
      ghost var k := t.K1(i0);
      LineDone(t, i0, bot2, top2);
      GroupIsPaired(t, i0, bot2, top2);
      pos2 := bot2;
      Get2();
      Get1();
      i := OtherRows(i0, bot2, top2, k);
      t.AfterGroup(bot2, top2, k, i0, i);
      pos2 := top2;
      Get2();
    }

    /** The other lines of the first file that have the group's key. */
    method OtherRows(ghost i0: nat, bot2: nat, ghost top2: nat, ghost k: string) returns (ghost i: nat)
      requires t.HasKeys() && t.Sorted() && i0 < |t.f1| && At1(i0 + 1) && At2(bot2)
      requires t.Group(bot2, top2, k) && t.K1(i0) == k && Done(t, a1, a2, out, i0 + 1, top2)
      modifies this`out, this`pos1, this`pos2, this`cur1, this`cur2, this`n1, this`n2
      ensures i0 < i <= |t.f1| && At1(i) && Done(t, a1, a2, out, i, top2)
      ensures forall a | i0 <= a < i :: t.K1(a) == k
      ensures i < |t.f1| ==> Strcmp(t.K1(i), k) > 0
    {
      hide Strcmp, Done, Partial, Tables.Sorted, Tables.Group;
      t.GroupRange(bot2, top2, k);
      PartialIsDone(t, a1, a2, out, i0 + 1, bot2, top2);
      i := i0 + 1;
      ghost var c: nat := bot2;
      while true
        invariant i0 < i <= |t.f1| && bot2 <= c <= top2 && At1(i) && At2(c)
        invariant forall a | i0 <= a < i :: t.K1(a) == k
        invariant c > bot2 ==> i < |t.f1| && t.K1(i) == k
        invariant Partial(t, a1, a2, out, i, bot2, c, top2)
        decreases |t.f1| - i, top2 - c
      {
        if n1 > 0 { AgainstGroup(t, i0, i, bot2, top2, c, k); }
        if n1 > 0 && n2 > 0 && Comp() == 0 {
          PartialPair(t, a1, a2, out, i, bot2, c, top2);
          out := out + [Pair(cur1, cur2)];
          Get2();
          c := c + 1;
        } else if (n1 > 0 && n2 > 0 && Comp() < 0) || n2 == 0 {
          PartialLine(t, a1, a2, out, i, bot2, top2);
          pos2 := bot2;
          Get2();
          Get1();
          i, c := i + 1, bot2;
        } else {
          break;
        }
      }
      PartialIsDone(t, a1, a2, out, i, bot2, top2);
    }

    /** The first line of the group against every line of the second file with its key. */
    method FirstRow(ghost i: nat, ghost bot2: nat) returns (top2: nat)
      requires t.HasKeys() && t.Sorted() && i < |t.f1| && bot2 < |t.f2| && At1(i) && At2(bot2)
      requires t.Frontier(i, bot2) && Strcmp(t.K1(i), t.K2(bot2)) == 0
      modifies this`out, this`pos2, this`cur2, this`n2
      ensures At1(i) && pos2 <= |t.f2| && t.Group(bot2, top2, t.K1(i))
      ensures Only(IsPair, out) == Only(IsPair, old(out)) + t.RowPairs(i, bot2, top2)
      ensures Only(IsLeft, out) == Only(IsLeft, old(out)) && Only(IsRight, out) == Only(IsRight, old(out))
    {
      hide Strcmp, Only;
      ghost var k := t.K1(i);
      ghost var c: nat := bot2;
      top2 := pos2;
      while n2 > 0 && Comp() == 0
        invariant bot2 <= c <= |t.f2| && At1(i) && At2(c) && (c > bot2 ==> top2 == c)
        invariant c == bot2 ==> c < |t.f2| && Strcmp(k, t.K2(c)) == 0
        invariant forall b | bot2 <= b < c :: Strcmp(k, t.K2(b)) == 0
        invariant Only(IsPair, out) == Only(IsPair, old(out)) + t.RowPairs(i, bot2, c)
        invariant Only(IsLeft, out) == Only(IsLeft, old(out)) && Only(IsRight, out) == Only(IsRight, old(out))
        decreases |t.f2| - c
      {
        AppendRow(out, Pair(cur1, cur2));
        StrcmpEqual(k, t.K2(c));
        out := out + [Pair(cur1, cur2)];
        top2 := pos2;
        Get2();
        c := c + 1;
      }
      GroupEnds(t, i, bot2, c);
    }
  }
}
