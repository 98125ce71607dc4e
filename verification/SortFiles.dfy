/** The files of src/cmd/sort.c: sorted runs of what fits in memory, and the passes that merge
    them seven at a time.  A line is held without its newline, and a file is the sequence of its
    lines. */
module SortFiles {
  import opened Quicksort

  const N := 7
  const L := 1024

  /** In the order of the output. */
  ghost predicate OutOrder(c: Compare, s: seq<string>)
  {
    forall i, j | 0 <= i < j < |s| :: c(s[i], s[j]) >= 0
  }

  ghost predicate StrictOrder(c: Compare, s: seq<string>)
  {
    forall i, j | 0 <= i < j < |s| :: c(s[i], s[j]) > 0
  }

  // ---- what an array of items holds ----

  ghost function LinesOf(x: Item): multiset<string> { multiset{x.line} + multiset(x.rest) }

  ghost function Held(z: seq<Item>): multiset<string>
  {
    if z == [] then multiset{} else Held(z[..|z| - 1]) + LinesOf(z[|z| - 1])
  }

  lemma {:induction false} HeldCat(y: seq<Item>, z: seq<Item>)
    ensures Held(y + z) == Held(y) + Held(z)
    decreases |z|
  {
    if z == [] {
      assert y + z == y;
    } else {
      assert (y + z)[..|y + z| - 1] == y + z[..|z| - 1];
      HeldCat(y, z[..|z| - 1]);
    }
  }

  lemma HeldOne(x: Item)
    ensures Held([x]) == LinesOf(x)
  {
    assert [x][..0] == [];
  }

  /** Rearranging the array changes nothing in what it holds. */
  lemma {:induction false} HeldPerm(y: seq<Item>, z: seq<Item>)
    requires multiset(y) == multiset(z)
    ensures Held(y) == Held(z)
    decreases |y|
  {
    if y == [] {
      assert |multiset(z)| == 0;
      assert z == [];
    } else {
      var n := |y| - 1;
      assert y[n] in multiset(y) && y[n] in multiset(z);
      var k :| 0 <= k < |z| && z[k] == y[n];
      RemoveOne(y, z, k);
      HeldPerm(y[..n], z[..k] + z[k + 1..]);
      HeldAround(z, k);
    }
  }

  lemma RemoveOne<T>(y: seq<T>, z: seq<T>, k: nat)
    requires y != [] && k < |z| && z[k] == y[|y| - 1] && multiset(y) == multiset(z)
    ensures multiset(y[..|y| - 1]) == multiset(z[..k] + z[k + 1..])
  {
    var n, w := |y| - 1, z[..k] + z[k + 1..];
    TakenOut(y, n);
    TakenOut(z, k);
    assert y[..n] + y[n + 1..] == y[..n];
    Cancel(multiset{}, multiset(y[..n]), multiset(w), multiset{y[n]});
  }

  lemma TakenOut<T>(z: seq<T>, k: nat)
    requires k < |z|
    ensures multiset(z) == multiset{} + multiset(z[..k] + z[k + 1..]) + multiset{z[k]}
  {
    assert z == z[..k] + [z[k]] + z[k + 1..];
  }

  lemma HeldAround(z: seq<Item>, k: nat)
    requires k < |z|
    ensures Held(z) == Held(z[..k] + z[k + 1..]) + LinesOf(z[k])
  {
    hide Held, LinesOf;
    assert z == z[..k] + [z[k]] + z[k + 1..];
    HeldCat(z[..k] + [z[k]], z[k + 1..]);
    HeldCat(z[..k], [z[k]]);
    HeldCat(z[..k], z[k + 1..]);
    HeldOne(z[k]);
  }

  lemma {:induction false} HeldFrom(z: seq<Item>, r: string) returns (k: nat)
    requires r in Held(z)
    ensures k < |z| && r in LinesOf(z[k])
  {
    if r in LinesOf(z[|z| - 1]) { k := |z| - 1; } else { k := HeldFrom(z[..|z| - 1], r); }
  }

  // ---- merging ----

  /** A file read up to its current line, in order. */
  ghost predicate Good(c: Compare, x: Item)
  {
    !x.blank && OutOrder(c, [x.line] + x.rest)
  }

  ghost predicate Merging(c: Compare, z: seq<Item>, out: seq<string>, all: multiset<string>)
  {
    && OutOrder(c, out) && multiset(out) + Held(z) == all
    && (forall x | x in z :: Good(c, x))
    && (forall o, r | o in out && r in Held(z) :: c(o, r) >= 0)
  }

  /** The last file has the line to write next. */
  lemma TopFirst(c: Compare, z: seq<Item>, r: string)
    requires Preorder(c) && z != [] && Sorted(c, z) && (forall x | x in z :: Good(c, x)) && r in Held(z)
    ensures c(z[|z| - 1].line, r) >= 0
  {
    hide Preorder;
    var t := z[|z| - 1].line;
    var k := HeldFrom(z, r);
    var u := z[k];
    assert u in z;
    Opposite(c, t, u.line);
    GoodFirst(c, u, r);
    Opposite(c, u.line, r);
    Opposite(c, t, r);
    Chain(c, r, u.line, t);
  }

  lemma GoodFirst(c: Compare, u: Item, r: string)
    requires Preorder(c) && Good(c, u) && r in LinesOf(u)
    ensures c(u.line, r) >= 0
  {
    Opposite(c, u.line, u.line);
    if r in u.rest {
      var i :| 0 <= i < |u.rest| && u.rest[i] == r;
      var s := [u.line] + u.rest;
      assert s[0] == u.line && s[i + 1] == r;
    }
  }

  /** Writing the last file's line and reading its next, or dropping the file at its end. */
  lemma Emit(c: Compare, z: seq<Item>, out: seq<string>, all: multiset<string>, y: seq<Item>)
    requires Preorder(c) && Merging(c, z, out, all) && z != [] && Sorted(c, z)
    requires y == Advanced(z)
    ensures Merging(c, y, out + [z[|z| - 1].line], all)
  {
    hide Preorder, Sorted, OutOrder, Held, LinesOf;
    var n := |z| - 1;
    var t := z[n];
    HeldNext(z);
    forall r | r in Held(z) ensures c(t.line, r) >= 0 { TopFirst(c, z, r); }
    EmitOrder(c, out, Held(z), t.line);
    NextGood(c, z);
    var o' := out + [t.line];
    assert multiset(o') == multiset(out) + multiset{t.line};
    forall o, r | o in o' && r in Held(y) ensures c(o, r) >= 0 {
      assert r in Held(z);
    }
  }

  /** The array after `rline` on its last file. */
  function Advanced(z: seq<Item>): seq<Item>
    requires z != []
  {
    var n := |z| - 1;
    if z[n].rest == [] then z[..n] else z[n := Item(z[n].rest[0], false, z[n].rest[1..])]
  }

  lemma HeldLast(z: seq<Item>)
    requires z != []
    ensures Held(z) == Held(z[..|z| - 1]) + LinesOf(z[|z| - 1])
  {
    hide Held, LinesOf;
    var n := |z| - 1;
    assert z == z[..n] + [z[n]];
    HeldCat(z[..n], [z[n]]);
    HeldOne(z[n]);
  }

  lemma HeldNext(z: seq<Item>)
    requires z != []
    ensures multiset{z[|z| - 1].line} + Held(Advanced(z)) == Held(z)
    ensures z[|z| - 1].line in Held(z)
  {
    hide Held, LinesOf;
    var n := |z| - 1;
    var t := z[n];
    var one, before := multiset{t.line}, Held(z[..n]);
    HeldLast(z);
    NextLines(t);
    if t.rest != [] {
      var t' := Item(t.rest[0], false, t.rest[1..]);
      assert Advanced(z)[..n] == z[..n];
      HeldLast(Advanced(z));
      Shuffle(one, before, LinesOf(t'));
    } else {
      Shuffle(one, before, multiset{});
    }
  }

  lemma NextLines(t: Item)
    ensures t.line in LinesOf(t)
    ensures t.rest == [] ==> LinesOf(t) == multiset{t.line}
    ensures t.rest != [] ==> LinesOf(t) == multiset{t.line} + LinesOf(Item(t.rest[0], false, t.rest[1..]))
  {
    if t.rest != [] { assert t.rest == [t.rest[0]] + t.rest[1..]; }
  }

  lemma Shuffle<T>(a: multiset<T>, b: multiset<T>, c: multiset<T>)
    ensures a + (b + c) == b + (a + c) && a + b == b + a
  {
  }

  lemma EmitOrder(c: Compare, out: seq<string>, held: multiset<string>, t: string)
    requires OutOrder(c, out) && t in held && forall o, r | o in out && r in held :: c(o, r) >= 0
    ensures OutOrder(c, out + [t])
  {
  }

  lemma NextGood(c: Compare, z: seq<Item>)
    requires z != [] && forall x | x in z :: Good(c, x)
    ensures forall x | x in Advanced(z) :: Good(c, x)
  {
    var n := |z| - 1;
    var t := z[n];
    if t.rest != [] {
      assert Good(c, t);
      var s := [t.line] + t.rest;
      assert [t.rest[0]] + t.rest[1..] == s[1..];
      var t' := Item(t.rest[0], false, t.rest[1..]);
      assert Good(c, t');
      assert Advanced(z) == z[..n] + [t'];
    }
  }

  /** Sorted but for the cell at ip, which may belong further down. */
  ghost predicate Sinking(c: Compare, z: seq<Item>, ip: nat)
  {
    forall a, b | 0 <= a < b < |z| && b != ip :: c(z[a].line, z[b].line) <= 0
  }

  lemma Sink(c: Compare, z: seq<Item>, ip: nat)
    requires 1 <= ip < |z| && Sinking(c, z, ip) && c(z[ip].line, z[ip - 1].line) < 0
    ensures Sinking(c, Swapped(z, ip, ip - 1), ip - 1)
  {
    var y := Swapped(z, ip, ip - 1);
    forall a, b | 0 <= a < b < |y| && b != ip - 1 ensures c(y[a].line, y[b].line) <= 0 {
      var a' := if a == ip then ip - 1 else if a == ip - 1 then ip else a;
      var b' := if b == ip then ip - 1 else b;
      assert y[a] == z[a'] && y[b] == z[b'];
    }
  }

  lemma Sunk(c: Compare, z: seq<Item>, ip: nat)
    requires Preorder(c) && ip < |z| && Sinking(c, z, ip) && (ip > 0 ==> c(z[ip].line, z[ip - 1].line) >= 0)
    ensures Sorted(c, z)
  {
    hide Preorder;
    forall a, b | 0 <= a < b < |z| ensures c(z[a].line, z[b].line) <= 0 {
      if b == ip {
        Opposite(c, z[ip].line, z[ip - 1].line);
        if a < ip - 1 { Chain(c, z[a].line, z[ip - 1].line, z[ip].line); }
      }
    }
  }

  /** The inner loop of `merge`: the file just read goes down to its place. */
  method Settle(ibuf: array<Item>, c: Compare, i: nat)
    requires Preorder(c) && 1 <= i <= ibuf.Length && Sinking(c, ibuf[..i], i - 1)
    requires forall x | x in ibuf[..i] :: !x.blank
    modifies ibuf
    ensures Sorted(c, ibuf[..i]) && multiset(ibuf[..i]) == multiset(old(ibuf[..i]))
  {
    hide Preorder, Sorted, Sinking, Swapped, Perm;
    ghost var w := ibuf[..i];
    PermSame(w, 0, i);
    var ip := i - 1;
    while ip > 0
      invariant 0 <= ip < i && Sinking(c, ibuf[..i], ip) && Perm(ibuf[..i], w, 0, i)
      invariant forall x | x in ibuf[..i] :: !x.blank
    {
      ghost var z, whole := ibuf[..i], ibuf[..];
      assert ibuf[ip] == z[ip] && ibuf[ip - 1] == z[ip - 1] && z[ip] in z && z[ip - 1] in z;
      var r := CompareItems(c, ibuf[ip], ibuf[ip - 1]);
      if r >= 0 { break; }
      Sink(c, z, ip);
      SwapPerm(z, ip, ip - 1, w, 0, i);
      Exchange(ibuf, ip, ip - 1);
      SwapTake(whole, ip, ip - 1, i);
      ip := ip - 1;
    }
    Sunk(c, ibuf[..i], ip);
    PermWhole(ibuf[..i], w);
  }

  lemma SwapTake(z: seq<Item>, p: nat, q: nat, i: nat)
    requires p < i <= |z| && q < i
    ensures Swapped(z, p, q)[..i] == Swapped(z[..i], p, q)
    ensures forall x | x in Swapped(z[..i], p, q) :: x in z[..i]
  {
  }

  lemma PermWhole<T>(z: seq<T>, w: seq<T>)
    requires Perm(z, w, 0, |w|)
    ensures multiset(z) == multiset(w)
  {
  }

  ghost function Contents(files: seq<seq<string>>): multiset<string>
  {
    if files == [] then multiset{} else Contents(files[..|files| - 1]) + multiset(files[|files| - 1])
  }

  lemma {:induction false} ContentsCat(x: seq<seq<string>>, y: seq<seq<string>>)
    ensures Contents(x + y) == Contents(x) + Contents(y)
    decreases |y|
  {
    if y == [] {
      assert x + y == x;
    } else {
      assert (x + y)[..|x + y| - 1] == x + y[..|y| - 1];
      ContentsCat(x, y[..|y| - 1]);
    }
  }

  ghost predicate Ordered(c: Compare, files: seq<seq<string>>)
  {
    forall k | 0 <= k < |files| :: OutOrder(c, files[k])
  }

  /** Opening the files: an empty one is left out at once. */
  method Open(files: seq<seq<string>>, c: Compare) returns (ibuf: array<Item>, j: nat)
    requires Ordered(c, files)
    ensures fresh(ibuf) && j <= ibuf.Length && Held(ibuf[..j]) == Contents(files)
    ensures forall x | x in ibuf[..j] :: Good(c, x)
  {
    hide Held, Contents, OutOrder, LinesOf;
    ibuf := new Item[|files|](_ => Item("", false, []));
    j := 0;
    var i := 0;
    NothingHeld();
    assert ibuf[..j] == [] && files[..i] == [];
    while i < |files|
      invariant j <= i <= |files| && Held(ibuf[..j]) == Contents(files[..i])
      invariant forall x | x in ibuf[..j] :: Good(c, x)
    {
      ghost var z := ibuf[..j];
      OpenNext(files, i, z);
      if files[i] != [] {
        ibuf[j] := Item(files[i][0], false, files[i][1..]);
        assert [files[i][0]] + files[i][1..] == files[i];
        j := j + 1;
        assert ibuf[..j] == z + [Item(files[i][0], false, files[i][1..])];
      }
      i := i + 1;
    }
    assert files[..i] == files;
  }

  lemma NothingHeld()
    ensures Held([]) == Contents([]) == multiset{}
  {
  }

  lemma OpenNext(files: seq<seq<string>>, i: nat, z: seq<Item>)
    requires i < |files| && Held(z) == Contents(files[..i])
    ensures files[i] == [] ==> Held(z) == Contents(files[..i + 1])
    ensures files[i] != [] ==> Held(z + [Item(files[i][0], false, files[i][1..])]) == Contents(files[..i + 1])
  {
    assert files[..i + 1][..i] == files[..i];
    assert Contents(files[..i + 1]) == Contents(files[..i]) + multiset(files[i]);
    if files[i] != [] {
      var x := Item(files[i][0], false, files[i][1..]);
      assert [files[i][0]] + files[i][1..] == files[i];
      HeldCat(z, [x]);
      HeldOne(x);
    }
  }

  /** `rline` on the last file, which goes at its end. */
  method ReadNext(ibuf: array<Item>, i: nat) returns (i': nat)
    requires 1 <= i <= ibuf.Length
    modifies ibuf
    ensures i' <= i && ibuf[..i'] == Advanced(old(ibuf[..i]))
  {
    i' := i;
    var t := ibuf[i - 1];
    if t.rest == [] {
      i' := i - 1;
    } else {
      ibuf[i - 1] := Item(t.rest[0], false, t.rest[1..]);
    }
  }

  /** `merge`, without `-u` and `-c`: the lines of all the files, in order. */
  method Merge(files: seq<seq<string>>, c: Compare) returns (out: seq<string>)
    requires Preorder(c) && Ordered(c, files) && |files| <= N
    ensures OutOrder(c, out) && multiset(out) == Contents(files)
  {
    hide Preorder, Sorted, Merging, Did, Held, Contents, Ordered, Sinking, Good, Advanced;
    var ibuf, j := Open(files, c);
    ghost var z0 := ibuf[..];
    GoodBlank(c, z0, j);
    ghost var s, nest := Qusort(ibuf, c, false, 0, j);
    MergeStart(c, z0, ibuf[..], j, s);
    out := [];
    var i: nat := j;
    while i > 0
      invariant i <= ibuf.Length && Sorted(c, ibuf[..i]) && Merging(c, ibuf[..i], out, Contents(files))
      decreases |Contents(files)| - |out|
    {
      ghost var z := ibuf[..i];
      MergeGood(c, z, out, Contents(files));
      Emit(c, z, out, Contents(files), Advanced(z));
      AdvancedCells(c, z);
      out := out + [ibuf[i - 1].line];
      i := ReadNext(ibuf, i);
      if i == 0 { break; }
      MergeGood(c, Advanced(z), out, Contents(files));
      Settle(ibuf, c, i);
      MergePerm(c, Advanced(z), ibuf[..i], out, Contents(files));
    }
    assert ibuf[..i] == [];
    MergeEnd(c, out, Contents(files));
  }

  lemma GoodBlank(c: Compare, z: seq<Item>, j: nat)
    requires j <= |z| && forall x | x in z[..j] :: Good(c, x)
    ensures forall k | 0 <= k < j :: !z[k].blank
  {
    forall k | 0 <= k < j ensures !z[k].blank { assert z[..j][k] in z[..j]; }
  }

  /** With `-u` off the sorted cells are the lines themselves. */
  lemma DidLines(c: Compare, z: seq<Item>, y: seq<Item>, lo: nat, hi: nat, s: seq<Item>)
    requires Did(c, false, y, z, lo, hi, s)
    ensures hi <= |y| == |z| && Sorted(c, y[lo..hi]) && multiset(y[lo..hi]) == multiset(z[lo..hi])
  {
    assert y[lo..hi] == s;
  }

  lemma MergeStart(c: Compare, z: seq<Item>, y: seq<Item>, j: nat, s: seq<Item>)
    requires j <= |z| && (forall x | x in z[..j] :: Good(c, x)) && Did(c, false, y, z, 0, j, s)
    ensures |y| == |z| && Sorted(c, y[..j]) && Merging(c, y[..j], [], Held(z[..j]))
  {
    hide Good, Did, Sorted, Held;
    DidLines(c, z, y, 0, j, s);
    assert y[0..j] == y[..j] && z[0..j] == z[..j];
    HeldPerm(y[..j], z[..j]);
    forall x | x in y[..j] ensures Good(c, x) {
      assert x in multiset(y[..j]) && x in multiset(z[..j]);
    }
  }

  lemma MergeGood(c: Compare, z: seq<Item>, out: seq<string>, all: multiset<string>)
    requires Merging(c, z, out, all)
    ensures (forall x | x in z :: !x.blank) && |out| <= |all|
  {
    assert |multiset(out)| + |Held(z)| == |all|;
  }

  /** Reading the next line can only disturb the last place. */
  lemma AdvancedCells(c: Compare, z: seq<Item>)
    requires z != [] && Sorted(c, z)
    ensures Advanced(z) != [] ==> Sinking(c, Advanced(z), |Advanced(z)| - 1)
  {
  }

  lemma MergePerm(c: Compare, z: seq<Item>, y: seq<Item>, out: seq<string>, all: multiset<string>)
    requires Merging(c, z, out, all) && multiset(y) == multiset(z)
    ensures Merging(c, y, out, all)
  {
    hide Good, Held, OutOrder;
    HeldPerm(y, z);
    forall x | x in y ensures Good(c, x) {
      assert x in multiset(y) && x in multiset(z);
    }
  }

  lemma MergeEnd(c: Compare, out: seq<string>, all: multiset<string>)
    requires Merging(c, [], out, all)
    ensures OutOrder(c, out) && multiset(out) == all
  {
    assert multiset(out) + multiset{} == multiset(out);
  }

  /** The pass loop of `main`: merge seven files into a new one at the end of the list until at
      most seven are left, and those into the output. */
  method Passes(runs: seq<seq<string>>, c: Compare) returns (out: seq<string>)
    requires Preorder(c) && Ordered(c, runs)
    ensures OutOrder(c, out) && multiset(out) == Contents(runs)
  {
    hide Preorder, Contents, OutOrder;
    var files, a := runs, 0;
    assert files[0..] == runs;
    while a + N < |files|
      invariant a <= |files| && Ordered(c, files) && Contents(files[a..]) == Contents(runs)
      decreases |files| - a
    {
      var i := a + N;
      var merged := Merge(files[a..i], c);
      PassOne(files, a, i, merged);
      files := files + [merged];
      a := i;
    }
    if a != |files| {
      out := Merge(files[a..], c);
    } else {
      out := [];
      assert files[a..] == [];
      NothingMerged(c);
    }
  }

  lemma PassOne(files: seq<seq<string>>, a: nat, i: nat, merged: seq<string>)
    requires a <= i <= |files| && multiset(merged) == Contents(files[a..i])
    ensures Contents((files + [merged])[i..]) == Contents(files[a..])
  {
    hide Contents;
    assert files[a..] == files[a..i] + files[i..] && (files + [merged])[i..] == files[i..] + [merged];
    ContentsCat(files[a..i], files[i..]);
    ContentsCat(files[i..], [merged]);
    OneFile(merged);
    Shuffle(multiset(merged), Contents(files[i..]), multiset{});
  }

  lemma OneFile(f: seq<string>)
    ensures Contents([f]) == multiset(f)
  {
    assert [f][..0] == [];
  }

  lemma NothingMerged(c: Compare)
    ensures OutOrder(c, []) && multiset([]) == Contents([])
  {
  }

  // ---- reading ----

  /** The place of the first newline, or the end. */
  function NewlineAt(s: string): (n: nat)
    ensures n <= |s|
  {
    if s == "" || s[0] == '\n' then 0 else 1 + NewlineAt(s[1..])
  }

  lemma {:induction false} FirstNewline(s: string, n: nat)
    requires n <= |s| && forall k | 0 <= k < n :: s[k] != '\n'
    ensures NewlineAt(s) >= n && (n == |s| || s[n] == '\n' ==> NewlineAt(s) == n)
  {
    if n > 0 { FirstNewline(s[1..], n - 1); }
  }

  /** What is left of a file after its first line. */
  function AfterLine(s: string): string
  {
    if NewlineAt(s) < |s| then s[NewlineAt(s) + 1..] else ""
  }

  /** The lines of a file that `sort` takes: every line shorter than the buffer, with or without
      a newline at the end of the file. */
  function Accepted(s: string): seq<string>
    decreases |s|
  {
    if s == "" then []
    else (if NewlineAt(s) <= L - 2 then [s[..NewlineAt(s)]] else []) + Accepted(AfterLine(s))
  }

  /** What is still to come: the rest of the open file and the files after it. */
  function ToCome(inputs: seq<string>, i: nat, rest: string): seq<string>
    requires i <= |inputs|
    decreases |inputs| - i
  {
    Accepted(rest) + if i == |inputs| then [] else ToCome(inputs, i + 1, inputs[i])
  }

  /** `fgets` into a buffer of L characters. */
  method Fgets(s: string) returns (n: nat)
    requires s != ""
    ensures 1 <= n <= |s| && n <= L - 1
    ensures s[n - 1] == '\n' ==> NewlineAt(s) == n - 1
    ensures s[n - 1] != '\n' ==> NewlineAt(s) >= n && (n == L - 1 || NewlineAt(s) == n == |s|)
  {
    n := 1;
    while n < L - 1 && n < |s| && s[n - 1] != '\n'
      invariant 1 <= n <= |s| && n <= L - 1 && forall k | 0 <= k < n - 1 :: s[k] != '\n'
    {
      n := n + 1;
    }
    FirstNewline(s, n - 1);
    if s[n - 1] != '\n' { FirstNewline(s, n); }
  }

  /** Throwing away the rest of a line that is too long. */
  method SkipLine(s: string, n0: nat) returns (rest: string)
    requires n0 <= NewlineAt(s)
    ensures rest == AfterLine(s)
  {
    var n := n0;
    while n < |s| && s[n] != '\n'
      invariant n <= NewlineAt(s) <= |s|
    {
      BeforeNewline(s, n);
      n := n + 1;
    }
    BeforeNewline(s, n);
    rest := if n < |s| then s[n + 1..] else "";
  }

  lemma {:induction false} BeforeNewline(s: string, n: nat)
    requires n <= NewlineAt(s)
    ensures n < NewlineAt(s) <==> n < |s| && s[n] != '\n'
  {
    if n > 0 { BeforeNewline(s[1..], n - 1); }
  }

  function Texts(z: seq<Item>): seq<string>
  {
    seq(|z|, k requires 0 <= k < |z| => z[k].line)
  }

  /** The room the lines take in the text space, each with its newline and a terminator. */
  function Size(t: seq<string>): nat
  {
    if t == [] then 0 else Size(t[..|t| - 1]) + |t[|t| - 1]| + 2
  }

  ghost predicate Fresh(z: seq<Item>)
  {
    forall k | 0 <= k < |z| :: !z[k].blank && z[k].rest == []
  }

  /** The inner loop of `sort`: lines go to `lspace` until it or the text space is full, or until
      the last file ends. */
  method Fill(inputs: seq<string>, i0: nat, rest0: string, lspace: array<Item>, ntext: nat)
    returns (lp: nat, i: nat, rest: string, done: bool)
    requires i0 <= |inputs| && lspace.Length >= 1 && ntext >= 1
    modifies lspace
    ensures i <= |inputs| && lp <= lspace.Length && Fresh(lspace[..lp])
    ensures Texts(lspace[..lp]) + ToCome(inputs, i, rest) == ToCome(inputs, i0, rest0)
    ensures done ==> ToCome(inputs, i, rest) == []
    ensures !done ==> lp > 0
    ensures Size(Texts(lspace[..lp])) < ntext + L
    ensures done <==> Fits(ToCome(inputs, i0, rest0), lspace.Length, ntext)
  {
    hide Accepted, ToCome, Texts, Fresh, NewlineAt, AfterLine, Size;
    lp, i, rest, done := 0, i0, rest0, false;
    var lines, text: int := lspace.Length, ntext;
    assert lspace[..lp] == [];
    NoTexts();
    while lines > 0 && text > 0
      invariant !done && i <= |inputs| && lp <= lspace.Length && lines == lspace.Length - lp && Fresh(lspace[..lp])
      invariant Texts(lspace[..lp]) + ToCome(inputs, i, rest) == ToCome(inputs, i0, rest0)
      invariant lp == 0 ==> text > 0
      invariant Size(Texts(lspace[..lp])) == ntext - text < ntext + L
      decreases |inputs| - i, |rest|
    {
      if rest == "" {
        NextFile(inputs, i);
        if i >= |inputs| {
          done := true;
          AllTaken(lspace[..lp], ToCome(inputs, i, rest));
          return;
        }
        rest := inputs[i];
        i := i + 1;
        continue;
      }
      NextLine(inputs, i, rest);
      var ok, line, len;
      ok, line, len, rest := TakeLine(rest);
      if !ok { continue; }
      ghost var z := lspace[..lp];
      lspace[lp] := Item(line, false, []);
      lp := lp + 1;
      OneText(z, lspace[..lp], line, ToCome(inputs, i, rest));
      lines, text := lines - 1, text - len;
    }
    NotAll(lspace[..lp], ToCome(inputs, i, rest), lspace.Length, ntext);
  }

  /** All the lines fit in memory, with room for one more. */
  predicate Fits(t: seq<string>, nlines: nat, ntext: nat)
  {
    |t| < nlines && Size(t) < ntext
  }

  lemma AllTaken(z: seq<Item>, t: seq<string>)
    requires t == []
    ensures Texts(z) + t == Texts(z) && |Texts(z)| == |z|
  {
  }

  lemma NotAll(z: seq<Item>, t: seq<string>, nlines: nat, ntext: nat)
    requires |z| >= nlines || Size(Texts(z)) >= ntext
    ensures !Fits(Texts(z) + t, nlines, ntext)
  {
    SizeGrows(Texts(z), t);
  }

  lemma {:induction false} SizeGrows(t: seq<string>, u: seq<string>)
    ensures Size(t + u) >= Size(t)
    decreases |u|
  {
    if u == [] {
      assert t + u == t;
    } else {
      assert (t + u)[..|t + u| - 1] == t + u[..|u| - 1];
      SizeGrows(t, u[..|u| - 1]);
    }
  }

  /** Reading one line; a line too long for the buffer is skipped, a missing newline put in. */
  method TakeLine(s: string) returns (ok: bool, line: string, len: nat, rest: string)
    requires s != ""
    ensures rest == AfterLine(s) && (ok <==> NewlineAt(s) <= L - 2)
    ensures ok ==> line == s[..NewlineAt(s)] && len == |line| + 2 <= L
  {
    hide NewlineAt;
    ok, line, rest := true, "", "";
    var n := Fgets(s);
    len := n + 1;
    if s[n - 1] != '\n' {
      if len == L {
        rest := SkipLine(s, n);
        ok := false;
        return;
      }
      len := len + 1;
      line := s[..n];
    } else {
      line := s[..n - 1];
    }
    rest := s[n..];
  }

  lemma NoTexts()
    ensures Texts([]) == [] && Fresh([]) && Size([]) == 0
    ensures forall t: seq<string> {:trigger Texts([]) + t} :: Texts([]) + t == t
  {
  }

  lemma OneText(z: seq<Item>, y: seq<Item>, line: string, t: seq<string>)
    requires Fresh(z) && y == z + [Item(line, false, [])]
    ensures Fresh(y) && Texts(y) + t == Texts(z) + ([line] + t) && Size(Texts(y)) == Size(Texts(z)) + |line| + 2
  {
    assert Texts(y) == Texts(z) + [line] && (Texts(z) + [line])[..|z|] == Texts(z);
  }

  lemma NextFile(inputs: seq<string>, i: nat)
    requires i <= |inputs|
    ensures ToCome(inputs, i, "") == if i == |inputs| then [] else ToCome(inputs, i + 1, inputs[i])
  {
    assert Accepted("") == [];
  }

  lemma NextLine(inputs: seq<string>, i: nat, rest: string)
    requires i <= |inputs| && rest != ""
    ensures ToCome(inputs, i, rest)
         == (if NewlineAt(rest) <= L - 2 then [rest[..NewlineAt(rest)]] else []) + ToCome(inputs, i, AfterLine(rest))
    ensures |AfterLine(rest)| < |rest|
  {
    var after := AfterLine(rest);
    var line := if NewlineAt(rest) <= L - 2 then [rest[..NewlineAt(rest)]] else [];
    var more := if i == |inputs| then [] else ToCome(inputs, i + 1, inputs[i]);
    assert Accepted(rest) == line + Accepted(after);
    assert ToCome(inputs, i, after) == Accepted(after) + more && ToCome(inputs, i, rest) == Accepted(rest) + more;
    Associates(line, Accepted(after), more);
  }

  lemma Associates<T>(x: seq<T>, y: seq<T>, z: seq<T>)
    ensures (x + y) + z == x + (y + z)
  {
  }

  // ---- writing ----

  /** The lines not blanked, from the end of the array. */
  function Written(z: seq<Item>): seq<string>
  {
    if z == [] then []
    else (if z[|z| - 1].blank then [] else [z[|z| - 1].line]) + Written(z[..|z| - 1])
  }

  /** The writing loop of `sort`. */
  method Write(lspace: array<Item>, lp0: nat) returns (os: seq<string>)
    requires lp0 <= lspace.Length
    ensures os == Written(lspace[..lp0])
  {
    var lp: nat := lp0;
    os := [];
    while lp > 0
      invariant lp <= lp0 && os + Written(lspace[..lp]) == Written(lspace[..lp0])
    {
      assert lspace[..lp][..lp - 1] == lspace[..lp - 1];
      lp := lp - 1;
      if !lspace[lp].blank { os := os + [lspace[lp].line]; }
    }
    assert lspace[..lp] == [];
  }

  lemma {:induction false} WrittenFrom(c: Compare, uflg: bool, z: seq<Item>, s: seq<Item>, x: string)
    requires Result(c, uflg, z, s) && x in Written(z)
    ensures exists k | 0 <= k < |s| :: s[k].line == x && !z[k].blank
  {
    var n := |z| - 1;
    if z[n].blank || x != z[n].line {
      assert x in Written(z[..n]);
      ResultPrefix(c, uflg, z, s, n);
      WrittenFrom(c, uflg, z[..n], s[..n], x);
      var k :| 0 <= k < |s[..n]| && s[..n][k].line == x && !z[..n][k].blank;
      assert s[k].line == x && !z[k].blank;
    } else {
      assert z[n] == CellOf(c, uflg, s, n);
      assert s[n].line == x && !z[n].blank;
    }
  }

  lemma ResultPrefix(c: Compare, uflg: bool, z: seq<Item>, s: seq<Item>, n: nat)
    requires Result(c, uflg, z, s) && n <= |s|
    ensures Result(c, uflg, z[..n], s[..n])
  {
    forall k | 0 <= k < n ensures z[..n][k] == CellOf(c, uflg, s[..n], k) {
      assert z[k] == CellOf(c, uflg, s, k);
    }
  }

  /** Lines in a sorted array before the last come later in the output. */
  lemma {:induction false} WrittenOrder(c: Compare, uflg: bool, z: seq<Item>, s: seq<Item>)
    requires Preorder(c) && Sorted(c, s) && Result(c, uflg, z, s)
    ensures OutOrder(c, Written(z)) && (uflg ==> StrictOrder(c, Written(z)))
  {
    hide Preorder, Sorted, Result, CellOf;
    if z != [] {
      var n := |z| - 1;
      SortedPrefix(c, uflg, z, s, n);
      WrittenOrder(c, uflg, z[..n], s[..n]);
      if !z[n].blank {
        forall x | x in Written(z[..n]) ensures c(z[n].line, x) >= 0 && (uflg ==> c(z[n].line, x) > 0) {
          LastFirst(c, uflg, z, s, x);
        }
        PutFirst(c, uflg, z[n].line, Written(z[..n]));
      } else {
        assert Written(z) == Written(z[..n]);
      }
    }
  }

  lemma SortedPrefix(c: Compare, uflg: bool, z: seq<Item>, s: seq<Item>, n: nat)
    requires Sorted(c, s) && Result(c, uflg, z, s) && n <= |z|
    ensures |s| == |z| && Sorted(c, s[..n]) && Result(c, uflg, z[..n], s[..n])
  {
    ResultPrefix(c, uflg, z, s, n);
  }

  lemma PutFirst(c: Compare, uflg: bool, x: string, t: seq<string>)
    requires OutOrder(c, t) && (uflg ==> StrictOrder(c, t))
    requires forall y | y in t :: c(x, y) >= 0 && (uflg ==> c(x, y) > 0)
    ensures OutOrder(c, [x] + t) && (uflg ==> StrictOrder(c, [x] + t))
  {
    var s := [x] + t;
    forall i, j | 0 <= i < j < |s| ensures c(s[i], s[j]) >= 0 && (uflg ==> c(s[i], s[j]) > 0) {
      assert s[j] == t[j - 1] && s[j] in t;
      if i > 0 { assert s[i] == t[i - 1]; }
    }
  }

  /** A last line that is left goes before every other, and under `-u` strictly. */
  lemma LastFirst(c: Compare, uflg: bool, z: seq<Item>, s: seq<Item>, x: string)
    requires Preorder(c) && Sorted(c, s) && Result(c, uflg, z, s) && z != [] && !z[|z| - 1].blank
    requires x in Written(z[..|z| - 1])
    ensures c(z[|z| - 1].line, x) >= 0 && (uflg ==> c(z[|z| - 1].line, x) > 0)
  {
    hide Preorder, Sorted, Result, CellOf, Written;
    var n := |z| - 1;
    LastCell(c, uflg, z, s);
    ResultPrefix(c, uflg, z, s, n);
    WrittenFrom(c, uflg, z[..n], s[..n], x);
    var k :| 0 <= k < n && s[..n][k].line == x;
    Beats(c, uflg, s, k, n);
  }

  lemma LastCell(c: Compare, uflg: bool, z: seq<Item>, s: seq<Item>)
    requires Result(c, uflg, z, s) && z != [] && !z[|z| - 1].blank
    ensures |s| == |z| && z[|z| - 1].line == s[|z| - 1].line
    ensures uflg && |z| > 1 ==> c(s[|z| - 2].line, s[|z| - 1].line) != 0
  {
    assert z[|z| - 1] == CellOf(c, uflg, s, |z| - 1);
  }

  lemma Beats(c: Compare, uflg: bool, s: seq<Item>, k: nat, n: nat)
    requires Preorder(c) && Sorted(c, s) && k < n < |s| && (uflg ==> c(s[n - 1].line, s[n].line) != 0)
    ensures c(s[n].line, s[k].line) >= 0 && (uflg ==> c(s[n].line, s[k].line) > 0)
  {
    hide Preorder;
    Opposite(c, s[k].line, s[n].line);
    if uflg && c(s[k].line, s[n].line) == 0 { Between(c, s, k, n - 1, n); }
  }

  /** Without `-u` every line is written; with it, one that compares equal is. */
  lemma {:induction false} WrittenAll(c: Compare, z: seq<Item>, s: seq<Item>)
    requires Result(c, false, z, s) && Fresh(s)
    ensures multiset(Written(z)) == Held(s)
  {
    if z != [] {
      var n := |z| - 1;
      ResultPrefix(c, false, z, s, n);
      WrittenAll(c, z[..n], s[..n]);
      assert z[n] == CellOf(c, false, s, n);
      assert Written(z) == [s[n].line] + Written(z[..n]);
      assert LinesOf(s[n]) == multiset{s[n].line};
    }
  }

  lemma {:induction false} WrittenCell(z: seq<Item>, k: nat)
    requires k < |z| && !z[k].blank
    ensures z[k].line in Written(z)
  {
    if k < |z| - 1 { WrittenCell(z[..|z| - 1], k); }
  }

  lemma WrittenClass(c: Compare, z: seq<Item>, s: seq<Item>, k: nat)
    requires Preorder(c) && Sorted(c, s) && Result(c, true, z, s) && Fresh(s) && k < |s|
    ensures exists x | x in Written(z) :: c(x, s[k].line) == 0
  {
    hide Preorder, Sorted;
    var m := FirstOf(c, s, k);
    assert z[m] == CellOf(c, true, s, m);
    WrittenCell(z, m);
  }

  lemma {:induction false} HeldTexts(z: seq<Item>)
    requires Fresh(z)
    ensures Held(z) == multiset(Texts(z))
  {
    if z != [] {
      var n := |z| - 1;
      HeldTexts(z[..n]);
      assert Texts(z) == Texts(z[..n]) + [z[n].line];
      assert LinesOf(z[n]) == multiset{z[n].line};
    }
  }

  /** What a run is to the lines it was made of. */
  ghost predicate Run(c: Compare, uflg: bool, lines: seq<string>, run: seq<string>)
  {
    && OutOrder(c, run)
    && (!uflg ==> multiset(run) == multiset(lines))
    && (uflg ==> StrictOrder(c, run) && (forall y | y in run :: y in lines) && Covers(c, run, lines))
  }

  /** Every line has one in the run that compares equal. */
  ghost predicate Covers(c: Compare, run: seq<string>, lines: seq<string>)
  {
    forall x | x in lines :: exists y | y in run :: c(y, x) == 0
  }

  lemma RunWritten(c: Compare, uflg: bool, w: seq<Item>, z: seq<Item>, lp: nat, s: seq<Item>)
    requires Preorder(c) && lp <= |w| && Fresh(w[..lp]) && Did(c, uflg, z, w, 0, lp, s)
    ensures |z| == |w| && Run(c, uflg, Texts(w[..lp]), Written(z[..lp]))
  {
    hide Preorder, Sorted, Result, CellOf, Held, OutOrder, StrictOrder;
    assert z[0..lp] == z[..lp] && w[0..lp] == w[..lp];
    FreshPerm(w[..lp], s);
    WrittenOrder(c, uflg, z[..lp], s);
    HeldTexts(w[..lp]);
    HeldPerm(s, w[..lp]);
    if !uflg {
      WrittenAll(c, z[..lp], s);
    } else {
      forall x | x in Texts(w[..lp]) ensures exists y | y in Written(z[..lp]) :: c(y, x) == 0 {
        TextOfItem(w[..lp], s, x);
        var k :| 0 <= k < |s| && s[k].line == x;
        WrittenClass(c, z[..lp], s, k);
      }
      forall y | y in Written(z[..lp]) ensures y in Texts(w[..lp]) {
        WrittenFrom(c, uflg, z[..lp], s, y);
        var k :| 0 <= k < |s| && s[k].line == y;
        ItemText(w[..lp], s, k);
      }
    }
  }

  lemma ItemText(w: seq<Item>, s: seq<Item>, k: nat)
    requires multiset(s) == multiset(w) && k < |s|
    ensures s[k].line in Texts(w)
  {
    assert s[k] in multiset(s) && s[k] in multiset(w);
    var j :| 0 <= j < |w| && w[j] == s[k];
    assert Texts(w)[j] == s[k].line;
  }

  lemma FreshPerm(w: seq<Item>, s: seq<Item>)
    requires Fresh(w) && multiset(s) == multiset(w)
    ensures Fresh(s)
  {
    forall k | 0 <= k < |s| ensures !s[k].blank && s[k].rest == [] {
      assert s[k] in multiset(s) && s[k] in multiset(w);
    }
  }

  lemma TextOfItem(w: seq<Item>, s: seq<Item>, x: string)
    requires multiset(s) == multiset(w) && x in Texts(w)
    ensures exists k | 0 <= k < |s| :: s[k].line == x
  {
    var j :| 0 <= j < |w| && Texts(w)[j] == x;
    assert w[j] in multiset(w) && w[j] in multiset(s);
    var k :| 0 <= k < |s| && s[k] == w[j];
  }

  // ---- the whole ----

  ghost predicate Runs(c: Compare, uflg: bool, parts: seq<seq<string>>, runs: seq<seq<string>>)
  {
    |parts| == |runs| && forall k | 0 <= k < |runs| :: Run(c, uflg, parts[k], runs[k])
  }

  ghost function Flat(parts: seq<seq<string>>): seq<string>
  {
    if parts == [] then [] else Flat(parts[..|parts| - 1]) + parts[|parts| - 1]
  }

  /** `sort`: the input cut into parts that fit in memory, a run for each of them.  The output is
      written at once when there is only one. */
  method Sort(inputs: seq<string>, c: Compare, uflg: bool, nlines: nat, ntext: nat)
    returns (runs: seq<seq<string>>, ghost parts: seq<seq<string>>)
    requires Preorder(c) && nlines >= 1 && ntext >= 1
    ensures Runs(c, uflg, parts, runs) && |runs| >= 1 && Flat(parts) == ToCome(inputs, 0, "")
    ensures |runs| == 1 <==> Fits(ToCome(inputs, 0, ""), nlines, ntext)
  {
    hide Preorder, Did, Run, Texts, Written, ToCome, Fresh, Flat, Fits;
    var lspace := new Item[nlines](_ => Item("", false, []));
    var i: nat, rest, done := 0, "", false;
    runs, parts := [], [];
    NoParts();
    while !done
      invariant i <= |inputs| && Runs(c, uflg, parts, runs) && (done ==> |runs| >= 1)
      invariant Flat(parts) + ToCome(inputs, i, rest) == ToCome(inputs, 0, "")
      invariant done ==> ToCome(inputs, i, rest) == []
      invariant runs == [] ==> ToCome(inputs, i, rest) == ToCome(inputs, 0, "")
      invariant runs != [] ==> ((done && |runs| == 1) <==> Fits(ToCome(inputs, 0, ""), nlines, ntext))
      decreases !done, |ToCome(inputs, i, rest)|
    {
      ghost var before := ToCome(inputs, i, rest);
      var lp;
      lp, i, rest, done := Fill(inputs, i, rest, lspace, ntext);
      ghost var w := lspace[..];
      assert w[..lp] == lspace[..lp];
      TextsLength(w[..lp]);
      FreshCells(w, lp);
      ghost var s, nest := Qusort(lspace, c, uflg, 0, lp);
      ghost var z := lspace[..];
      RunWritten(c, uflg, w, z, lp, s);
      assert z[..lp] == lspace[..lp];
      var os := Write(lspace, lp);
      NextPart(parts, Texts(w[..lp]));
      runs, parts := runs + [os], parts + [Texts(w[..lp])];
    }
  }

  lemma NoParts()
    ensures Flat([]) == []
    ensures forall t: seq<string> {:trigger Flat([]) + t} :: Flat([]) + t == t
  {
  }

  lemma NextPart(parts: seq<seq<string>>, t: seq<string>)
    ensures Flat(parts + [t]) == Flat(parts) + t
    ensures forall u: seq<string> {:trigger Flat(parts + [t]) + u} :: Flat(parts + [t]) + u == Flat(parts) + (t + u)
  {
    assert (parts + [t])[..|parts|] == parts;
  }

  lemma TextsLength(z: seq<Item>)
    ensures |Texts(z)| == |z|
  {
  }

  lemma FreshCells(w: seq<Item>, lp: nat)
    requires lp <= |w| && Fresh(w[..lp])
    ensures forall k | 0 <= k < lp :: !w[k].blank
  {
    forall k | 0 <= k < lp ensures !w[k].blank { assert w[k] == w[..lp][k]; }
  }

  lemma {:induction false} RunsContents(c: Compare, parts: seq<seq<string>>, runs: seq<seq<string>>)
    requires Runs(c, false, parts, runs)
    ensures Ordered(c, runs) && Contents(runs) == multiset(Flat(parts))
  {
    hide OutOrder;
    if runs != [] {
      var n := |runs| - 1;
      assert Run(c, false, parts[n], runs[n]);
      RunsContents(c, parts[..n], runs[..n]);
      assert runs == runs[..n] + [runs[n]];
      assert Flat(parts) == Flat(parts[..n]) + parts[n];
    }
  }

  /** `main`, without `-u`, `-m` and `-c`: however many runs were spilled, the output is the
      accepted lines of all the input files, in order. */
  method SortAll(inputs: seq<string>, c: Compare, nlines: nat, ntext: nat) returns (out: seq<string>)
    requires Preorder(c) && nlines >= 1 && ntext >= 1
    ensures OutOrder(c, out) && multiset(out) == multiset(ToCome(inputs, 0, ""))
  {
    hide Preorder, ToCome, OutOrder, Flat;
    var runs; ghost var parts;
    runs, parts := Sort(inputs, c, false, nlines, ntext);
    RunsContents(c, parts, runs);
    if |runs| == 1 {
      out := runs[0];
      OneFile(out);
      assert runs == [out];
    } else {
      out := Passes(runs, c);
    }
  }

  /** With `-u`: every run is strictly in order and made of input lines, and together they have a line of
      every class.  Exactly when the input fits in memory there is one run, which is the output: one line
      of every class. */
  method SortUnique(inputs: seq<string>, c: Compare, nlines: nat, ntext: nat) returns (runs: seq<seq<string>>)
    requires Preorder(c) && nlines >= 1 && ntext >= 1
    ensures |runs| >= 1 && (|runs| == 1 <==> Fits(ToCome(inputs, 0, ""), nlines, ntext))
    ensures forall k | 0 <= k < |runs| :: StrictOrder(c, runs[k]) && forall y | y in runs[k] :: y in ToCome(inputs, 0, "")
    ensures Covers(c, Flat(runs), ToCome(inputs, 0, ""))
    ensures |runs| == 1 ==> Flat(runs) == runs[0]
  {
    hide Preorder, ToCome, OutOrder, StrictOrder, Flat, Fits, Covers;
    ghost var parts;
    runs, parts := Sort(inputs, c, true, nlines, ntext);
    CoversAll(c, parts, runs);
    forall k | 0 <= k < |runs| ensures StrictOrder(c, runs[k]) && forall y | y in runs[k] :: y in Flat(parts) {
      assert Run(c, true, parts[k], runs[k]);
      InFlat(parts, k);
    }
    if |runs| == 1 { FlatOne(runs); }
  }

  lemma {:induction false} InFlat(parts: seq<seq<string>>, k: nat)
    requires k < |parts|
    ensures forall y | y in parts[k] :: y in Flat(parts)
  {
    if k < |parts| - 1 { InFlat(parts[..|parts| - 1], k); }
  }

  lemma FlatOne(runs: seq<seq<string>>)
    requires |runs| == 1
    ensures Flat(runs) == runs[0]
  {
    assert runs[..0] == [];
  }

  lemma {:induction false} CoversAll(c: Compare, parts: seq<seq<string>>, runs: seq<seq<string>>)
    requires Runs(c, true, parts, runs)
    ensures Covers(c, Flat(runs), Flat(parts))
  {
    hide OutOrder, StrictOrder, Covers;
    NothingToCover(c);
    if runs != [] {
      var n := |runs| - 1;
      assert Run(c, true, parts[n], runs[n]);
      CoversAll(c, parts[..n], runs[..n]);
      CoversCat(c, Flat(runs[..n]), Flat(parts[..n]), runs[n], parts[n]);
    }
  }

  lemma NothingToCover(c: Compare)
    ensures Covers(c, [], [])
  {
  }

  lemma CoversCat(c: Compare, run: seq<string>, lines: seq<string>, run': seq<string>, lines': seq<string>)
    requires Covers(c, run, lines) && Covers(c, run', lines')
    ensures Covers(c, run + run', lines + lines')
  {
    forall x | x in lines + lines' ensures exists y | y in run + run' :: c(y, x) == 0 {
      if x in lines {
        var y :| y in run && c(y, x) == 0;
        assert y in run + run';
      } else {
        var y :| y in run' && c(y, x) == 0;
        assert y in run + run';
      }
    }
  }
}
