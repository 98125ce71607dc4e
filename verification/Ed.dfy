/** The line table of the editor, src/cmd/ed.c: `append`, `rdelete`, `gdelete`, `global`, `move`.

    `zero[1..dol]` holds one handle per line of the buffer, its lowest bit a mark for `global`.
    The text of the buffer is what `getline` returns for the handles, so every operation on
    the table is also stated as an operation on the text.
 */
module Ed {
  import opened Basics
  import opened EdTemp

  // ---- sequences ----

  function Clean(s: seq<nat>): seq<nat>
  {
    seq(|s|, i requires 0 <= i < |s| => Unmark(s[i]))
  }

  /** Cut lines a..b (from 1) out of the buffer and put them after line t. */
  function Spliced<T>(s: seq<T>, block: seq<T>, a: nat, b: nat, t: nat): seq<T>
    requires 1 <= a <= b <= |s| && t <= |s| && !(a <= t <= b)
  {
    if t < a then s[..t] + block + s[t..a - 1] + s[b..]
    else s[..a - 1] + s[b..t] + block + s[t..]
  }

  /** A sequence with the part lo..hi reversed. */
  function Reversed<T>(s: seq<T>, lo: nat, hi: nat): seq<T>
    requires lo <= hi <= |s|
  {
    seq(|s|, k requires 0 <= k < |s| => if lo <= k < hi then s[lo + hi - 1 - k] else s[k])
  }

  /** A sequence with the neighbours lo..mid and mid..hi exchanged. */
  function Exchanged<T>(s: seq<T>, lo: nat, mid: nat, hi: nat): seq<T>
    requires lo <= mid <= hi <= |s|
  {
    s[..lo] + s[mid..hi] + s[lo..mid] + s[hi..]
  }

  /** Reversing two neighbours and then the whole exchanges them. */
  lemma ThreeReversals<T>(s: seq<T>, lo: nat, mid: nat, hi: nat)
    requires lo <= mid <= hi <= |s|
    ensures Reversed(Reversed(Reversed(s, lo, mid), mid, hi), lo, hi) == Exchanged(s, lo, mid, hi)
  {
    var r := Reversed(Reversed(Reversed(s, lo, mid), mid, hi), lo, hi);
    var e := Exchanged(s, lo, mid, hi);
    forall k | 0 <= k < |s| ensures r[k] == e[k] {
      if k < lo || hi <= k {
      } else if k < lo + hi - mid {
        assert r[k] == s[mid + (k - lo)];
      } else {
        assert r[k] == s[k - (hi - mid)];
      }
    }
  }

  predicate Marked(e: nat) { e % 2 == 1 }

  /** The unmarked lines, in order. */
  function Unmarked(s: seq<nat>): seq<nat>
  {
    if s == [] then []
    else Unmarked(s[..|s| - 1]) + (if Marked(s[|s| - 1]) then [] else [s[|s| - 1]])
  }

  function Marks(s: seq<nat>): nat
  {
    if s == [] then 0 else Marks(s[..|s| - 1]) + (if Marked(s[|s| - 1]) then 1 else 0)
  }

  /** Where the last marked line would stand once the marked lines before it are gone. */
  function LastMark(s: seq<nat>): nat
  {
    if s == [] then 0
    else if Marked(s[|s| - 1]) then |Unmarked(s[..|s| - 1])| + 1
    else LastMark(s[..|s| - 1])
  }

  lemma {:induction false} CountLines(s: seq<nat>)
    ensures |Unmarked(s)| + Marks(s) == |s|
  {
    if s != [] { CountLines(s[..|s| - 1]); }
  }

  lemma {:induction false} NoMarks(s: seq<nat>)
    requires forall k | 0 <= k < |s| :: !Marked(s[k])
    ensures Unmarked(s) == s && Marks(s) == 0 && LastMark(s) == 0
  {
    if s != [] { NoMarks(s[..|s| - 1]); assert s == s[..|s| - 1] + [s[|s| - 1]]; }
  }

  lemma {:induction false} MarksAppend(s: seq<nat>, t: seq<nat>)
    ensures Unmarked(s + t) == Unmarked(s) + Unmarked(t)
    ensures Marks(s + t) == Marks(s) + Marks(t)
    ensures LastMark(s + t) == if Marks(t) > 0 then |Unmarked(s)| + LastMark(t) else LastMark(s)
    decreases |t|
  {
    if t == [] {
      assert s + t == s;
    } else {
      assert (s + t)[..|s + t| - 1] == s + t[..|t| - 1];
      MarksAppend(s, t[..|t| - 1]);
    }
  }

  /** Deleting the first marked line: the others keep their order and their places. */
  lemma DeleteFirstMark(s: seq<nat>, i: nat)
    requires i < |s| && Marked(s[i]) && forall k | 0 <= k < i :: !Marked(s[k])
    ensures
      var d := s[..i] + s[i + 1..];
      && Unmarked(d) == Unmarked(s) && Marks(d) == Marks(s) - 1
      && (Marks(d) > 0 ==> LastMark(d) == LastMark(s))
      && (Marks(d) == 0 ==> LastMark(s) == i + 1)
  {
    hide Unmarked, Marks, LastMark;
    var a, m, b := s[..i], [s[i]], s[i + 1..];
    assert s == a + (m + b);
    NoMarks(a);
    OneMark(s[i]);
    MarksAppend(a, m + b);
    MarksAppend(m, b);
    MarksAppend(a, b);
  }

  lemma OneMark(e: nat)
    requires Marked(e)
    ensures Unmarked([e]) == [] && Marks([e]) == 1 && LastMark([e]) == 1
  {
    assert [e][..0] == [];
  }

  // ---- the text ----

  ghost predicate Known(s: seq<nat>, store: map<nat, string>)
  {
    forall k | 0 <= k < |s| :: s[k] < 0x1_0000 && Unmark(s[k]) in store
  }

  ghost function TextOf(s: seq<nat>, store: map<nat, string>): seq<string>
    requires Known(s, store)
  {
    seq(|s|, i requires 0 <= i < |s| => store[Unmark(s[i])])
  }

  class Editor {
    const file: TempFile
    var zero: array<nat>
    var nlall: nat
    var dol: nat
    var dot: nat

    /** The table has `nlall` cells, of which the one at 0 and those of the lines are in use. */
    ghost predicate Valid()
      reads this, zero, file, file.ibuff, file.obuff
    {
      && file.Valid() && zero.Length == nlall && dol < nlall
      && Known(Lines(), file.store)
    }

    ghost function Lines(): seq<nat>
      requires dol < zero.Length
      reads this, zero
    {
      zero[1..dol + 1]
    }

    ghost function Text(): seq<string>
      requires Valid()
      reads this, zero, file, file.ibuff, file.obuff
    {
      TextOf(Lines(), file.store)
    }

    constructor ()
      ensures Valid() && Lines() == [] && dot == 0 && nlall == 128 && file.tline == 2
      ensures fresh(zero) && fresh(file) && fresh(file.ibuff) && fresh(file.obuff)
    {
      file := new TempFile();
      zero := new nat[128](_ => 0);
      nlall, dol, dot := 128, 0, 0;
    }

    /** `reverse` */
    method Reverse(lo: nat, hi: nat)
      requires lo < hi <= zero.Length
      modifies zero
      ensures zero[..] == Reversed(old(zero[..]), lo, hi)
    {
      var a1, a2 := lo, hi;
      while true
        invariant lo <= a1 <= a2 <= hi && a1 - lo == hi - a2
        invariant forall k {:trigger zero[k]} | 0 <= k < zero.Length ::
          zero[k] == if lo <= k < a1 || a2 <= k < hi then old(zero[lo + hi - 1 - k]) else old(zero[k])
        decreases a2 - a1
      {
        a2 := a2 - 1;
        var t := zero[a2];
        if a2 <= a1 {
          break;
        }
        zero[a2] := zero[a1];
        zero[a1] := t;
        a1 := a1 + 1;
      }
    }

    /** The three reversals of `move`: exchange the neighbours lo..mid and mid..hi. */
    method Exchange(lo: nat, mid: nat, hi: nat)
      requires lo < mid < hi <= zero.Length
      modifies zero
      ensures zero[..] == Exchanged(old(zero[..]), lo, mid, hi)
    {
      hide Reversed, Exchanged;
      ghost var s := zero[..];
      Reverse(lo, mid);
      Reverse(mid, hi);
      Reverse(lo, hi);
      ThreeReversals(s, lo, mid, hi);
    }

    /** `*ad1++ &= ~01` over the addressed lines. */
    method ClearMarks(a: nat, b: nat)
      requires 1 <= a <= b + 1 <= zero.Length
      modifies zero
      ensures zero[..] == old(zero[..a]) + Clean(old(zero[a..b + 1])) + old(zero[b + 1..])
    {
      var k := a;
      while k <= b
        invariant a <= k <= b + 1
        invariant forall i {:trigger zero[i]} | 0 <= i < zero.Length ::
          zero[i] == if a <= i < k then Unmark(old(zero[i])) else old(zero[i])
      {
        zero[k] := Unmark(zero[k]);
        k := k + 1;
      }
      assert zero[..] == old(zero[..a]) + Clean(old(zero[a..b + 1])) + old(zero[b + 1..]);
    }

    /** The reversals of `move` on the table, with the marks of the block already cleared. */
    method MoveBlock(a: nat, b: nat, t: nat)
      requires dol < zero.Length && 1 <= a <= b <= dol && t <= dol && !(a <= t <= b)
      modifies zero
      ensures zero[..] == MovedTable(old(zero[..]), a, b, t)
    {
      hide Exchanged;
      if t < a {
        if t + 1 == a {
          AlreadyThere(zero[..], a, b);
          return;
        }
        Exchange(t + 1, a, b + 1);
      } else {
        Exchange(a, b + 1, t + 1);
      }
    }

    /** `move`, for lines a..b to after line t: cut and splice, `dot` on the last line moved.
        It is an error to move a block into itself. */
    method Move(a: nat, b: nat, t: nat) returns (ok: bool)
      requires Valid() && 1 <= a <= b <= dol && t <= dol
      modifies this`dot, zero
      ensures Valid() && (ok <==> !(a <= t <= b))
      ensures ok ==> Lines() == Spliced(old(Lines()), Clean(old(Lines())[a - 1..b]), a, b, t)
      ensures ok ==> Text() == Spliced(old(Text()), old(Text())[a - 1..b], a, b, t)
      ensures ok ==> dot == (if t < a then t + (b + 1 - a) else t) && Text()[dot - 1] == old(Text())[b - 1]
      ensures !ok ==> Text() == old(Text()) && dot == old(dot)
    {
      hide Known, TextOf, Spliced, MovedTable, Clean, TempFile.Valid;
      ghost var w, store := zero[..], file.store;
      ClearMarks(a, b);
      ghost var z := zero[..];
      MoveResult(w, z, dol, a, b, t, store);
      if t < a {
        dot := t + (b + 1 - a);
        MoveBlock(a, b, t);
      } else if t >= b + 1 {
        dot := t;
        MoveBlock(a, b, t);
      } else {
        return false;
      }
      ok := true;
    }

    /** The copying loop of `rdelete`, which runs at least once.  `beyond` is whatever memory holds after
        the table; `inside` tells that it was not read. */
    method CopyDown(a: nat, b: nat, beyond: nat) returns (inside: bool)
      requires 1 <= a <= b <= dol < zero.Length
      modifies zero
      ensures Closed(zero[..], old(zero[..]), a, b + 1 - a, dol)
      ensures inside <==> !(b == dol && dol + 1 == zero.Length)
    {
      hide CopiedDown, Closed;
      var a1, a2, a3 := a, b + 1, dol;
      ghost var w, gap := zero[..], b + 1 - a;
      inside := a2 < zero.Length;
      if !inside {
        zero[a1] := beyond;
        LastLines(w, zero[..], a, dol);
        return;
      }
      CopyStart(w, a, gap);
      ghost var z := zero[..];
      zero[a1] := zero[a2];
      CopyStep(z, zero[..], w, a, a1, gap);
      a1, a2 := a1 + 1, a2 + 1;
      while a2 <= a3
        invariant a2 == a1 + gap && a < a1 && a2 <= dol + 2
        invariant CopiedDown(zero[..], w, a, a1, gap)
      {
        z := zero[..];
        zero[a1] := zero[a2];
        CopyStep(z, zero[..], w, a, a1, gap);
        a1, a2 := a1 + 1, a2 + 1;
      }
      CopyDone(zero[..], w, a, a1, gap, dol);
    }

    /** `rdelete`: lines a..b go, `dot` is the line after them or else the last.  The cell after the table
        is read if and only if the last line goes and the table is full; its contents do not matter. */
    method RDelete(a: nat, b: nat, beyond: nat) returns (inside: bool)
      requires dol < nlall && zero.Length == nlall && 1 <= a <= b <= dol
      modifies this`dol, this`dot, zero
      ensures dol == old(dol) - (b + 1 - a) && Lines() == old(Lines())[..a - 1] + old(Lines())[b..]
      ensures dot == Min(a, dol) && zero[0] == old(zero[0])
      ensures inside <==> !(b == old(dol) && old(dol) + 1 == nlall)
    {
      hide Closed;
      ghost var w := zero[..];
      inside := CopyDown(a, b, beyond);
      ghost var z := zero[..];
      DeletedLines(w, z, dol, a, b);
      dol := dol - (b + 1 - a);
      dot := if a > dol then dol else a;
    }

    /** The second loop of `gdelete`: close the gaps after the first marked line. */
    method Compact(first: nat, ghost s: seq<nat>) returns (a1: nat)
      requires 1 <= first <= dol < zero.Length && s == zero[1..dol + 1]
      requires Unmarked(s[..first]) == s[..first - 1] && Marks(s[..first]) == 1
      modifies zero, this`dot
      ensures 1 <= a1 <= dol && zero[1..a1] == Unmarked(s) && zero[0] == old(zero[0])
      ensures dot == if Marks(s) == 1 then old(dot) else LastMark(s)
      ensures Marks(s) >= 1
    {
      hide Unmarked, Marks, LastMark, Marked, Compacted;
      ghost var w := zero[..];
      a1 := first;
      assert zero[1..a1] == s[..first - 1];
      CompactStart(s, first, dot);
      var a2 := first + 1;
      while a2 <= dol
        invariant 1 <= a1 < a2 <= dol + 1
        invariant forall k {:trigger zero[k]} | a2 <= k < zero.Length || k == 0 :: zero[k] == w[k]
        invariant Compacted(s, a2 - 1, zero[1..a1], old(dot), dot)
        decreases dol - a2
      {
        CompactNext(s, a2 - 1, zero[1..a1], old(dot), dot);
        assert s[a2 - 1] == zero[a2];
        if Marked(zero[a2]) {
          a2 := a2 + 1;
          dot := a1;
        } else {
          ghost var done := zero[1..a1];
          zero[a1] := zero[a2];
          a1, a2 := a1 + 1, a2 + 1;
          assert zero[1..a1] == done + [s[a2 - 2]];
        }
      }
      CompactEnd(s, zero[1..a1], old(dot), dot);
    }

    /** `gdelete`: the special case g/.../d, in one pass. */
    method GDelete()
      requires 1 <= dol < nlall && zero.Length == nlall
      modifies this`dol, this`dot, zero
      ensures dol <= old(dol) && Lines() == Unmarked(old(Lines()))
      ensures dot == GDeleteDot(old(Lines()), old(dot)) && zero[0] == old(zero[0])
    {
      hide Unmarked, Marks, LastMark;
      ghost var s := Lines();
      var a1 := 1;
      while !Marked(zero[a1])
        invariant 1 <= a1 <= dol && forall k | 0 <= k < a1 - 1 :: !Marked(s[k])
        decreases dol - a1
      {
        assert s[a1 - 1] == zero[a1];
        if a1 >= dol {
          NoMarks(s);
          return;
        }
        a1 := a1 + 1;
      }
      FirstMark(s, a1 - 1);
      a1 := Compact(a1, s);
      dol := a1 - 1;
      if dot > dol { dot := dol; }
    }

    /** The marking pass of `global`: `chosen` says which lines the pattern selects. */
    method MarkLines(a: nat, b: nat, chosen: seq<bool>)
      requires dol < zero.Length && |chosen| == dol
      modifies zero
      ensures !Marked(zero[0])
      ensures forall k | 1 <= k <= dol ::
        zero[k] == Unmark(old(zero[k])) + if a <= k <= b && chosen[k - 1] then 1 else 0
    {
      var k := 0;
      while k <= dol
        invariant k <= dol + 1 && (k > 0 ==> !Marked(zero[0]))
        invariant forall i {:trigger zero[i]} | 1 <= i <= dol ::
          zero[i] == if i < k then Unmark(old(zero[i])) + (if a <= i <= b && chosen[i - 1] then 1 else 0)
                     else old(zero[i])
      {
        zero[k] := Unmark(zero[k]);
        if k >= 1 && a <= k <= b && chosen[k - 1] { zero[k] := zero[k] + 1; }
        k := k + 1;
      }
    }

    /** A turn of the general loop of `global` with the command `d`: unmark the line, go there, and delete it. */
    method DeleteMarked(a1: nat, beyond: nat) returns (inside: bool)
      requires 1 <= a1 <= dol < nlall && zero.Length == nlall
      modifies this`dol, this`dot, zero
      ensures dol == old(dol) - 1 && zero[0] == old(zero[0])
      ensures Lines() == old(Lines())[..a1 - 1] + old(Lines())[a1..] && dot == Min(a1, dol)
      ensures inside <==> !(a1 == old(dol) && old(dol) + 1 == nlall)
    {
      ghost var now := Lines();
      zero[a1] := Unmark(zero[a1]);
      assert Lines() == now[a1 - 1 := Unmark(now[a1 - 1])];
      dot := a1;
      inside := RDelete(dot, dot, beyond);
    }

    /** The general loop of `global`, running the command `d` on every marked line.  The cell after the
        table is read if and only if the table is full and only its last line is marked. */
    method GlobalDelete(beyond: nat) returns (inside: bool)
      requires dol < nlall && zero.Length == nlall && !Marked(zero[0])
      modifies this`dol, this`dot, zero
      ensures dol <= old(dol) && Lines() == Unmarked(old(Lines()))
      ensures dot == GlobalDot(old(Lines()), old(dot))
      ensures inside <==> !(old(dol) + 1 == nlall && OnlyLast(old(Lines())))
    {
      hide Unmarked, Marks, LastMark, OnlyLast, Progress;
      ghost var s := Lines();
      NoProgress(s, dot);
      inside := true;
      var a1 := 0;
      while a1 <= dol
        invariant dol <= old(dol) && 0 <= a1 <= dol + 1 && !Marked(zero[0])
        invariant forall k | 0 <= k < a1 - 1 :: !Marked(Lines()[k])
        invariant Progress(s, Lines(), old(dot), dot)
        invariant Lines() == s ==> inside
        invariant Lines() != s ==> dol < old(dol) && (inside <==> !(old(dol) + 1 == nlall && OnlyLast(s)))
        decreases Marks(Lines()), dol + 1 - a1
      {
        ghost var now := Lines();
        if Marked(zero[a1]) {
          assert zero[a1] == now[a1 - 1];
          NextMark(s, now, a1 - 1, old(dot), dot);
          OnlyLastIs(now, a1 - 1);
          var here := DeleteMarked(a1, beyond);
          inside := inside && here;
          a1 := 0;
        }
        a1 := a1 + 1;
      }
      AllProgress(s, Lines(), old(dot), dot);
      NotLast(Lines());
    }

    /** Making room in `append`: the table grows by 512 when one more line would not fit. */
    method Grow()
      requires zero.Length == nlall && dol < nlall
      modifies this`zero, this`nlall
      ensures zero.Length == nlall && dol + 1 < nlall && Lines() == old(Lines())
      ensures nlall == if dol + 1 >= old(nlall) then old(nlall) + 512 else old(nlall)
      ensures fresh(zero) || zero == old(zero)
    {
      if dol + 1 >= nlall {
        nlall := nlall + 512;
        var old_ := zero;
        zero := new nat[nlall](k requires 0 <= k reads old_ => if k < old_.Length then old_[k] else 0);
      }
    }

    /** The body of the loop of `append`: put a handle after `dot`, and `dot` on it. */
    method Insert(tl: nat)
      requires zero.Length == nlall && dot <= dol && dol + 1 < nlall
      modifies this`dol, this`dot, zero
      ensures dol == old(dol) + 1 && dot == old(dot) + 1
      ensures Lines() == old(Lines())[..old(dot)] + [tl] + old(Lines())[old(dot)..]
    {
      hide ShiftedUp;
      dol := dol + 1;
      dot := dot + 1;
      var a1, a2, rdot := dol, dol + 1, dot;
      ghost var w := zero[..];
      ShiftStart(w, dol);
      while a1 > rdot
        invariant rdot <= a1 <= dol && a2 == a1 + 1 && rdot == dot == old(dot) + 1 && dol == old(dol) + 1
        invariant ShiftedUp(zero[..], w, a1, dol)
      {
        ghost var z := zero[..];
        a2 := a2 - 1;
        a1 := a1 - 1;
        zero[a2] := zero[a1];
        ShiftStep(z, zero[..], w, a2, dol);
      }
      ghost var z := zero[..];
      ShiftDone(z, w, dot, dol, tl);
      zero[rdot] := tl;
      assert zero[..] == z[dot := tl];
    }

    /** One round of `append`: grow, store the line, insert it; nothing but room in the table
        changes when the temporary file is full. */
    method AppendLine(linebuf: string) returns (ok: bool)
      requires Valid() && dot <= dol && Terminated(linebuf)
      modifies this, zero, file, file.ibuff, file.obuff
      ensures Valid() && (fresh(zero) || zero == old(zero))
      ensures !ok <==> 2 * old(file.tline) + |LineOf(linebuf)| >= BLOCK * 255
      ensures !ok ==> Text() == old(Text()) && dot == old(dot) && dol == old(dol) && file.tline == old(file.tline)
      ensures ok ==> dot == old(dot) + 1 && dol == old(dol) + 1
      ensures ok ==> Text() == old(Text())[..old(dot)] + [LineOf(linebuf)] + old(Text())[old(dot)..]
      ensures ok ==> 2 * file.tline <= 2 * old(file.tline) + |LineOf(linebuf)| + 4
      ensures nlall == if old(dol) + 1 >= old(nlall) then old(nlall) + 512 else old(nlall)
    {
      hide Known, TextOf, TempFile.Valid, TempFile.Lines, TempFile.Paged;
      ghost var s, store := Lines(), file.store;
      file.EvenHandle();
      Grow();
      var r, _ := file.PutLine(linebuf);
      match r
      case None => return false;
      case Some(tl) =>
        InsertText(s, store, dot, tl, LineOf(linebuf));
        Insert(tl);
        ok := true;
    }

    /** `append`: the new lines go in, in order, after line a; `dot` is the last of them. */
    method Append(a: nat, input: seq<string>) returns (nline: nat)
      requires Valid() && a <= dol && forall k | 0 <= k < |input| :: Terminated(input[k])
      modifies this, zero, file, file.ibuff, file.obuff
      ensures Valid() && nline <= |input| && dot == a + nline && dol == old(dol) + nline
      ensures |old(Text())| == old(dol) && Text() == Appended(old(Text()), a, input[..nline])
      ensures nline < |input| ==> 2 * file.tline + |LineOf(input[nline])| >= BLOCK * 255
      ensures 2 * file.tline <= 2 * old(file.tline) + Need(input[..nline])
      ensures (old(dol) + |input| < old(nlall) ==> nlall == old(nlall)) && (fresh(zero) || zero == old(zero))
    {
      hide Known, TextOf, TempFile.Valid, Need, LinesOf, Appended;
      nline := 0;
      dot := a;
      TextLength(Lines(), file.store);
      ghost var t := Text();
      AppendNone(t, a, input);
      while nline < |input|
        invariant Valid() && nline <= |input| && dot == a + nline && dol == old(dol) + nline
        invariant fresh(zero) || zero == old(zero)
        invariant Text() == Appended(t, a, input[..nline])
        invariant 2 * file.tline <= 2 * old(file.tline) + Need(input[..nline])
        invariant old(dol) + |input| < old(nlall) ==> nlall == old(nlall)
      {
        var ok := AppendLine(input[nline]);
        if !ok { return; }
        AppendNext(t, a, input, nline);
        nline := nline + 1;
      }
      assert input[..nline] == input;
    }

    /** Printing line k: what `getline` brings back is the text of the line. */
    method Print(k: nat) returns (line: string)
      requires Valid() && 1 <= k <= dol
      modifies file, file.ibuff
      ensures Valid() && Text() == old(Text()) && line == Text()[k - 1]
    {
      hide TempFile.Valid, TempFile.Lines, TempFile.Paged;
      assert zero[k] == Lines()[k - 1];
      line := file.GetLine(zero[k]);
    }

    /** g/.../d on lines a..b, `chosen` being the lines the pattern selects: exactly those go. */
    method Global(a: nat, b: nat, chosen: seq<bool>, shortcut: bool, beyond: nat)
      requires Valid() && 1 <= dol && |chosen| == dol
      modifies this`dol, this`dot, zero
      ensures Valid() && |old(Text())| == old(dol)
      ensures Text() == Filter(old(Text()), Keep(old(dol), a, b, chosen))
    {
      hide Known, TextOf, Unmarked, Filter, Keep, TempFile.Valid;
      ghost var s, store := Lines(), file.store;
      MarkLines(a, b, chosen);
      ghost var m := Lines();
      forall k | 0 <= k < |s|
        ensures m[k] == Unmark(s[k]) + (if a <= k + 1 <= b && chosen[k] then 1 else 0)
      {
        assert m[k] == zero[k + 1] && s[k] == old(zero[k + 1]);
      }
      MarkedText(s, m, a, b, chosen, store);
      if shortcut {
        GDelete();
      } else {
        var _ := GlobalDelete(beyond);
      }
    }
  }

  // ---- deleting the marked lines one by one ----

  /** Only the last line is marked. */
  ghost predicate OnlyLast(s: seq<nat>)
  {
    Marks(s) == 1 && s != [] && Marked(s[|s| - 1])
  }

  /** Of the first n lines of `s`, at least one of them marked, `gdelete` has kept the unmarked ones. */
  ghost predicate Compacted(s: seq<nat>, n: nat, kept: seq<nat>, dot0: nat, dot: nat)
  {
    && n <= |s| && kept == Unmarked(s[..n]) && Marks(s[..n]) >= 1
    && dot == if Marks(s[..n]) == 1 then dot0 else LastMark(s[..n])
  }

  lemma CompactStart(s: seq<nat>, n: nat, dot: nat)
    requires 1 <= n <= |s| && Unmarked(s[..n]) == s[..n - 1] && Marks(s[..n]) == 1
    ensures Compacted(s, n, s[..n - 1], dot, dot)
  {
  }

  lemma CompactNext(s: seq<nat>, n: nat, kept: seq<nat>, dot0: nat, dot: nat)
    requires Compacted(s, n, kept, dot0, dot) && n < |s|
    ensures Marked(s[n]) ==> Compacted(s, n + 1, kept, dot0, |kept| + 1)
    ensures !Marked(s[n]) ==> Compacted(s, n + 1, kept + [s[n]], dot0, dot)
  {
    hide Unmarked, Marks, LastMark, Marked;
    NextLine(s, n);
  }

  lemma CompactEnd(s: seq<nat>, kept: seq<nat>, dot0: nat, dot: nat)
    requires Compacted(s, |s|, kept, dot0, dot)
    ensures kept == Unmarked(s) && Marks(s) >= 1 && dot == if Marks(s) == 1 then dot0 else LastMark(s)
  {
    assert s[..|s|] == s;
  }

  /** `s` with some of its marked lines gone, first ones first. */
  ghost predicate Progress(s: seq<nat>, now: seq<nat>, dot0: nat, dot: nat)
  {
    && Unmarked(now) == Unmarked(s) && Marks(now) <= Marks(s)
    && (Marks(now) > 0 ==> LastMark(now) == LastMark(s))
    && (Marks(now) == Marks(s) ==> dot == dot0)
    && (Marks(now) == 0 < Marks(s) ==> dot == Min(LastMark(s), |now|))
  }

  lemma NoProgress(s: seq<nat>, dot: nat)
    ensures Progress(s, s, dot, dot)
  {
    hide Unmarked, Marks, LastMark;
  }

  /** When no mark is left the loop is done. */
  lemma AllProgress(s: seq<nat>, now: seq<nat>, dot0: nat, dot: nat)
    requires Progress(s, now, dot0, dot) && forall k | 0 <= k < |now| :: !Marked(now[k])
    ensures now == Unmarked(s) && dot == GlobalDot(s, dot0)
  {
    hide Unmarked, Marks, LastMark;
    NoMarks(now);
    CountLines(s);
  }

  lemma NextMark(s: seq<nat>, now: seq<nat>, i: nat, dot0: nat, dot: nat)
    requires Progress(s, now, dot0, dot) && i < |now| && Marked(now[i]) && forall k | 0 <= k < i :: !Marked(now[k])
    ensures
      var d := now[..i] + now[i + 1..];
      Progress(s, d, dot0, Min(i + 1, |d|)) && Marks(d) < Marks(now)
  {
    hide Unmarked, Marks, LastMark;
    DeleteFirstMark(now, i);
  }

  /** The first mark is on the last line exactly when it is the only one, and there. */
  lemma OnlyLastIs(s: seq<nat>, i: nat)
    requires i < |s| && Marked(s[i]) && forall k | 0 <= k < i :: !Marked(s[k])
    ensures OnlyLast(s) <==> i == |s| - 1
  {
    hide Unmarked, Marks, LastMark;
    var a, m, b := s[..i], [s[i]], s[i + 1..];
    assert s == a + (m + b);
    NoMarks(a);
    OneMark(s[i]);
    MarksAppend(a, m + b);
    MarksAppend(m, b);
    if i == |s| - 1 {
      assert b == [];
      NoMarks(b);
    } else if OnlyLast(s) {
      OnlyMark(s, i);
      OnlyMark(s, |s| - 1);
      assert false;
    }
  }

  lemma NotLast(s: seq<nat>)
    requires forall k | 0 <= k < |s| :: !Marked(s[k])
    ensures !OnlyLast(s)
  {
  }

  // ---- append ----

  /** Cells a1..dol moved up by one. */
  ghost predicate ShiftedUp(z: seq<nat>, w: seq<nat>, a1: nat, dol: nat)
  {
    && a1 <= dol < |w| == |z|
    && (forall k {:trigger z[k]} | a1 < k <= dol :: z[k] == w[k - 1])
    && (forall k {:trigger z[k]} | 0 <= k <= a1 || dol < k < |w| :: z[k] == w[k])
  }

  lemma ShiftStart(w: seq<nat>, dol: nat)
    requires dol < |w|
    ensures ShiftedUp(w, w, dol, dol)
  {
  }

  lemma ShiftStep(z: seq<nat>, y: seq<nat>, w: seq<nat>, a1: nat, dol: nat)
    requires ShiftedUp(z, w, a1, dol) && 1 <= a1 && y == z[a1 := z[a1 - 1]]
    ensures ShiftedUp(y, w, a1 - 1, dol)
  {
    assert z[a1 - 1] == w[a1 - 1];
  }

  lemma ShiftDone(z: seq<nat>, w: seq<nat>, dot: nat, dol: nat, tl: nat)
    requires 1 <= dot && ShiftedUp(z, w, dot, dol)
    ensures z[dot := tl][1..dol + 1] == w[1..dol][..dot - 1] + [tl] + w[1..dol][dot - 1..]
  {
    var x, y := z[dot := tl][1..dol + 1], w[1..dol][..dot - 1] + [tl] + w[1..dol][dot - 1..];
    forall k | 0 <= k < dol ensures x[k] == y[k] {
      assert x[k] == z[dot := tl][k + 1];
    }
  }

  /** A line put in the table after line d. */
  lemma InsertText(s: seq<nat>, store: map<nat, string>, d: nat, h: nat, line: string)
    requires Known(s, store) && d <= |s| && h !in store && h < 0x1_0000 && h % 2 == 0
    ensures
      var m, text := s[..d] + [h] + s[d..], TextOf(s, store);
      && |text| == |s| && Known(s, store[h := line]) && Known(m, store[h := line])
      && TextOf(m, store[h := line]) == text[..d] + [line] + text[d..]
  {
    var bigger := store[h := line];
    assert forall k | 0 <= k < |s| :: Unmark(s[k]) in bigger && bigger[Unmark(s[k])] == store[Unmark(s[k])];
    assert TextOf(s, bigger) == TextOf(s, store);
    assert Known([h], bigger) && TextOf([h], bigger) == [line];
    TextSlice(s, 0, d, bigger);
    TextSlice(s, d, |s|, bigger);
    assert s[0..d] == s[..d] && s[d..|s|] == s[d..];
    TextAppend(s[..d], [h], bigger);
    TextAppend(s[..d] + [h], s[d..], bigger);
  }

  function LinesOf(input: seq<string>): seq<string>
  {
    seq(|input|, i requires 0 <= i < |input| => LineOf(input[i]))
  }

  /** The bytes of the temporary file that lines can take at most. */
  function Need(input: seq<string>): nat
  {
    if input == [] then 0 else Need(input[..|input| - 1]) + |LineOf(input[|input| - 1])| + 4
  }

  lemma {:induction false} NeedEmpty(input: seq<string>)
    requires forall k | 0 <= k < |input| :: input[k] == "\n"
    ensures Need(input) == 4 * |input|
  {
    if input != [] { NeedEmpty(input[..|input| - 1]); }
  }

  /** With 127 empty lines in a new buffer, deleting the last one reads the cell after the table. */
  method LastLineOverruns(beyond: nat) returns (inside: bool)
    ensures !inside
  {
    hide Known, TextOf, TempFile.Valid;
    var e := new Editor();
    var input := seq(127, _ => "\n");
    assert forall k | 0 <= k < |input| :: Terminated(input[k]);
    var n := e.Append(0, input);
    NeedEmpty(input[..n]);
    inside := e.RDelete(127, 127, beyond);
  }

  /** The text with new lines after line a. */
  function Appended(t: seq<string>, a: nat, input: seq<string>): seq<string>
    requires a <= |t|
  {
    t[..a] + LinesOf(input) + t[a..]
  }

  lemma AppendNone(t: seq<string>, a: nat, input: seq<string>)
    requires a <= |t|
    ensures Appended(t, a, input[..0]) == t && Need(input[..0]) == 0
  {
  }

  lemma AppendNext(t: seq<string>, a: nat, input: seq<string>, n: nat)
    requires a <= |t| && n < |input|
    ensures
      var u := Appended(t, a, input[..n]);
      a + n <= |u| && u[..a + n] + [LineOf(input[n])] + u[a + n..] == Appended(t, a, input[..n + 1])
    ensures Need(input[..n + 1]) == Need(input[..n]) + |LineOf(input[n])| + 4
  {
    hide LineOf;
    var u, done := Appended(t, a, input[..n]), LinesOf(input[..n]);
    assert u[..a + n] == t[..a] + done && u[a + n..] == t[a..];
    assert LinesOf(input[..n + 1]) == done + [LineOf(input[n])];
    assert input[..n + 1][..n] == input[..n];
  }

  // ---- global ----

  /** The lines of a text that `keep` asks for. */
  function Filter<T>(s: seq<T>, keep: seq<bool>): seq<T>
    requires |s| == |keep|
  {
    if s == [] then []
    else Filter(s[..|s| - 1], keep[..|s| - 1]) + (if keep[|s| - 1] then [s[|s| - 1]] else [])
  }

  lemma {:induction false} FilterText(s: seq<nat>, keep: seq<bool>, store: map<nat, string>)
    requires Known(s, store) && |s| == |keep| && forall k | 0 <= k < |s| :: Marked(s[k]) <==> !keep[k]
    ensures |TextOf(s, store)| == |s| && Known(Unmarked(s), store)
    ensures TextOf(Unmarked(s), store) == Filter(TextOf(s, store), keep)
  {
    TextLength(s, store);
    if s != [] {
      var n, text := |s| - 1, TextOf(s, store);
      TextSlice(s, 0, n, store);
      assert s[0..n] == s[..n] && text[0..n] == text[..n];
      FilterText(s[..n], keep[..n], store);
      var one := if Marked(s[n]) then [] else [s[n]];
      assert Known(one, store) && TextOf(one, store) == if keep[n] then [text[n]] else [];
      TextAppend(Unmarked(s[..n]), one, store);
    }
  }

  /** Which lines g/.../d keeps. */
  function Keep(dol: nat, a: nat, b: nat, chosen: seq<bool>): seq<bool>
    requires |chosen| == dol
  {
    seq(dol, k requires 0 <= k < dol => !(a <= k + 1 <= b && chosen[k]))
  }

  lemma MarkedText(s: seq<nat>, m: seq<nat>, a: nat, b: nat, chosen: seq<bool>, store: map<nat, string>)
    requires |s| == |m| == |chosen| && Known(s, store)
    requires forall k | 0 <= k < |s| :: m[k] == Unmark(s[k]) + (if a <= k + 1 <= b && chosen[k] then 1 else 0)
    ensures Known(m, store) && TextOf(m, store) == TextOf(s, store)
    ensures Known(Unmarked(m), store) && |TextOf(s, store)| == |s|
    ensures TextOf(Unmarked(m), store) == Filter(TextOf(s, store), Keep(|s|, a, b, chosen))
  {
    TextLength(s, store);
    assert forall k | 0 <= k < |s| :: Unmark(m[k]) == Unmark(s[k]) && m[k] < 0x1_0000;
    assert Known(m, store) && TextOf(m, store) == TextOf(s, store);
    FilterText(m, Keep(|s|, a, b, chosen), store);
  }

  /** `dot` after `gdelete`: a single marked line leaves it where it was. */
  function GDeleteDot(s: seq<nat>, dot: nat): nat
  {
    if Marks(s) == 0 then dot
    else if Marks(s) == 1 then Min(dot, |Unmarked(s)|)
    else Min(LastMark(s), |Unmarked(s)|)
  }

  /** `dot` after deleting the marked lines one by one. */
  function GlobalDot(s: seq<nat>, dot: nat): nat
  {
    if Marks(s) == 0 then dot else Min(LastMark(s), |Unmarked(s)|)
  }

  lemma {:induction false} SomeMark(s: seq<nat>) returns (i: nat)
    requires Marks(s) > 0
    ensures i < |s| && Marked(s[i])
  {
    if Marked(s[|s| - 1]) { i := |s| - 1; } else { i := SomeMark(s[..|s| - 1]); }
  }

  lemma OnlyMark(s: seq<nat>, i: nat)
    requires Marks(s) == 1 && i < |s| && Marked(s[i])
    ensures LastMark(s) == i + 1 && |Unmarked(s)| == |s| - 1
  {
    hide Marks, LastMark, Unmarked;
    var a, m, b := s[..i], [s[i]], s[i + 1..];
    assert s == a + (m + b);
    OneMark(s[i]);
    MarksAppend(a, m + b);
    MarksAppend(m, b);
    CountLines(a);
    CountLines(s);
  }

  /** The shortcut and the general loop leave the same buffer, and the same `dot` unless one
      single line i is marked: then `dot` stays with the one and goes to i with the other. */
  lemma DotAgrees(s: seq<nat>, dot: nat)
    ensures GDeleteDot(s, dot) == GlobalDot(s, dot)
       <==> (Marks(s) == 1 ==> forall i | 0 <= i < |s| && Marked(s[i]) :: Min(dot, |s| - 1) == Min(i + 1, |s| - 1))
  {
    hide Marks, LastMark, Unmarked;
    if Marks(s) == 1 {
      var j := SomeMark(s);
      forall i | 0 <= i < |s| && Marked(s[i])
        ensures GDeleteDot(s, dot) == Min(dot, |s| - 1) && GlobalDot(s, dot) == Min(i + 1, |s| - 1)
      {
        OnlyMark(s, i);
      }
    }
  }

  /** With lines 1 to 3, line 3 marked and `dot` at 1, the two ways of running g/.../d differ. */
  lemma DotDiffers()
    ensures GDeleteDot([2, 4, 7], 1) == 1 && GlobalDot([2, 4, 7], 1) == 2
  {
    var s := [2, 4, 7];
    assert s == [2, 4] + [7];
    NoMarks([2, 4]);
    OneMark(7);
    MarksAppend([2, 4], [7]);
  }

  lemma FirstMark(s: seq<nat>, i: nat)
    requires i < |s| && Marked(s[i]) && forall k | 0 <= k < i :: !Marked(s[k])
    ensures Unmarked(s[..i + 1]) == s[..i] && Marks(s[..i + 1]) == 1
  {
    NoMarks(s[..i]);
    assert s[..i + 1][..i] == s[..i];
  }

  lemma NextLine(s: seq<nat>, i: nat)
    requires i < |s|
    ensures Unmarked(s[..i + 1]) == Unmarked(s[..i]) + (if Marked(s[i]) then [] else [s[i]])
    ensures Marks(s[..i + 1]) == Marks(s[..i]) + (if Marked(s[i]) then 1 else 0)
    ensures LastMark(s[..i + 1]) == if Marked(s[i]) then |Unmarked(s[..i])| + 1 else LastMark(s[..i])
  {
    assert s[..i + 1][..i] == s[..i];
  }

  /** Cells a..a1 filled from `gap` cells further on, the rest as it was. */
  ghost predicate CopiedDown(z: seq<nat>, w: seq<nat>, a: nat, a1: nat, gap: nat)
  {
    && |z| == |w| && a <= a1 && a1 + gap <= |w|
    && (forall k {:trigger z[k]} | a <= k < a1 :: z[k] == w[k + gap])
    && (forall k {:trigger z[k]} | 0 <= k < a || a1 <= k < |w| :: z[k] == w[k])
  }

  lemma CopyStart(w: seq<nat>, a: nat, gap: nat)
    requires a + gap <= |w|
    ensures CopiedDown(w, w, a, a, gap)
  {
  }

  lemma CopyStep(z: seq<nat>, y: seq<nat>, w: seq<nat>, a: nat, a1: nat, gap: nat)
    requires CopiedDown(z, w, a, a1, gap) && gap >= 1 && a1 + gap < |z| == |y|
    requires y == z[a1 := z[a1 + gap]]
    ensures CopiedDown(y, w, a, a1 + 1, gap)
  {
    assert z[a1 + gap] == w[a1 + gap];
  }

  /** The gap at a is closed: every line after it has come down. */
  ghost predicate Closed(z: seq<nat>, w: seq<nat>, a: nat, gap: nat, dol: nat)
  {
    && 1 <= a && a + gap <= dol + 1 <= |w| == |z|
    && forall k {:trigger z[k]} | 0 <= k <= dol - gap :: z[k] == if a <= k then w[k + gap] else w[k]
  }

  lemma CopyDone(z: seq<nat>, w: seq<nat>, a: nat, a1: nat, gap: nat, dol: nat)
    requires CopiedDown(z, w, a, a1, gap) && 1 <= a && a + gap <= dol + 1 <= a1 + gap && dol + 1 <= |w|
    ensures Closed(z, w, a, gap, dol)
  {
  }

  /** Deleting up to the last line needs no copying. */
  lemma LastLines(w: seq<nat>, z: seq<nat>, a: nat, dol: nat)
    requires 1 <= a <= dol < |w| == |z| && z == w[a := z[a]]
    ensures Closed(z, w, a, dol + 1 - a, dol)
  {
  }

  lemma DeletedLines(w: seq<nat>, z: seq<nat>, dol: nat, a: nat, b: nat)
    requires 1 <= a <= b <= dol && Closed(z, w, a, b + 1 - a, dol)
    ensures z[0] == w[0]
    ensures z[1..dol - (b + 1 - a) + 1] == w[1..dol + 1][..a - 1] + w[1..dol + 1][b..]
  {
    var n := dol - (b + 1 - a);
    var x, y := z[1..n + 1], w[1..dol + 1][..a - 1] + w[1..dol + 1][b..];
    forall k | 0 <= k < n ensures x[k] == y[k] {
      assert x[k] == z[k + 1];
    }
  }

  // ---- the table and the lines in it ----

  lemma SubSlice<T>(w: seq<T>, dol: nat, i: nat, j: nat)
    requires dol < |w| && i <= j <= dol
    ensures w[1..dol + 1][i..j] == w[i + 1..j + 1]
  {
    var x, y := w[1..dol + 1][i..j], w[i + 1..j + 1];
    forall k | 0 <= k < j - i ensures x[k] == y[k] {
      assert x[k] == w[1..dol + 1][i + k];
    }
  }

  /** Dropping the first cell and the cells after the last line. */
  lemma TrimEnds<T>(p: seq<T>, m: seq<T>, q: seq<T>, dol: nat)
    requires |p| >= 1 && |p| + |m| <= dol + 1 <= |p| + |m| + |q|
    ensures (p + m + q)[1..dol + 1] == p[1..] + m + q[..dol + 1 - |p| - |m|]
  {
    var x, y := (p + m + q)[1..dol + 1], p[1..] + m + q[..dol + 1 - |p| - |m|];
    forall k | 0 <= k < dol ensures x[k] == y[k] {
      assert x[k] == (p + m + q)[k + 1];
    }
  }

  lemma TableClean(w: seq<nat>, z: seq<nat>, dol: nat, a: nat, b: nat)
    requires dol < |w| && 1 <= a <= b <= dol && z == w[..a] + Clean(w[a..b + 1]) + w[b + 1..]
    ensures
      var s := w[1..dol + 1];
      |z| == |w| && z[1..dol + 1] == s[..a - 1] + Clean(s[a - 1..b]) + s[b..]
  {
    SubSlice(w, dol, 0, a - 1);
    SubSlice(w, dol, a - 1, b);
    SubSlice(w, dol, b, dol);
    var s, c := w[1..dol + 1], Clean(w[a..b + 1]);
    assert s[..a - 1] == w[1..a] && s[b..] == w[b + 1..dol + 1];
    assert s[a - 1..b] == w[a..b + 1];
    assert Clean(s[a - 1..b]) == c && |c| == b + 1 - a;
    TrimEnds(w[..a], c, w[b + 1..], dol);
    assert w[..a][1..] == w[1..a] && w[b + 1..][..dol - b] == w[b + 1..dol + 1];
  }

  ghost function MovedTable(w: seq<nat>, a: nat, b: nat, t: nat): (z: seq<nat>)
    ensures |z| == |w|
    requires 1 <= a <= b < |w| && t < |w| && !(a <= t <= b)
  {
    if t < a then Exchanged(w, t + 1, a, b + 1) else Exchanged(w, a, b + 1, t + 1)
  }

  lemma AlreadyThere(w: seq<nat>, a: nat, b: nat)
    requires 1 <= a <= b < |w|
    ensures MovedTable(w, a, b, a - 1) == w
  {
  }

  lemma MovedLines(w: seq<nat>, dol: nat, a: nat, b: nat, t: nat)
    requires dol < |w| && 1 <= a <= b <= dol && t <= dol && !(a <= t <= b)
    ensures
      var s := w[1..dol + 1];
      |MovedTable(w, a, b, t)| == |w| && MovedTable(w, a, b, t)[1..dol + 1] == Spliced(s, s[a - 1..b], a, b, t)
  {
    if t < a { MovedUp(w, dol, a, b, t); } else { MovedDown(w, dol, a, b, t); }
  }

  lemma MovedUp(w: seq<nat>, dol: nat, a: nat, b: nat, t: nat)
    requires dol < |w| && 1 <= a <= b <= dol && t < a
    ensures
      var s := w[1..dol + 1];
      (w[..t + 1] + w[a..b + 1] + w[t + 1..a] + w[b + 1..])[1..dol + 1] == s[..t] + s[a - 1..b] + s[t..a - 1] + s[b..]
  {
    SubSlice(w, dol, 0, t);
    SubSlice(w, dol, a - 1, b);
    SubSlice(w, dol, t, a - 1);
    SubSlice(w, dol, b, dol);
    var m := w[a..b + 1] + w[t + 1..a];
    TrimEnds(w[..t + 1], m, w[b + 1..], dol);
    assert w[..t + 1][1..] == w[1..t + 1] && w[b + 1..][..dol - b] == w[b + 1..dol + 1];
    assert w[..t + 1] + w[a..b + 1] + w[t + 1..a] + w[b + 1..] == w[..t + 1] + m + w[b + 1..];
  }

  lemma MovedDown(w: seq<nat>, dol: nat, a: nat, b: nat, t: nat)
    requires dol < |w| && 1 <= a <= b < t <= dol
    ensures
      var s := w[1..dol + 1];
      (w[..a] + w[b + 1..t + 1] + w[a..b + 1] + w[t + 1..])[1..dol + 1] == s[..a - 1] + s[b..t] + s[a - 1..b] + s[t..]
  {
    SubSlice(w, dol, 0, a - 1);
    SubSlice(w, dol, b, t);
    SubSlice(w, dol, a - 1, b);
    SubSlice(w, dol, t, dol);
    var m := w[b + 1..t + 1] + w[a..b + 1];
    TrimEnds(w[..a], m, w[t + 1..], dol);
    assert w[..a][1..] == w[1..a] && w[t + 1..][..dol - t] == w[t + 1..dol + 1];
    assert w[..a] + w[b + 1..t + 1] + w[a..b + 1] + w[t + 1..] == w[..a] + m + w[t + 1..];
  }

  // ---- tables and texts ----

  lemma TextLength(s: seq<nat>, store: map<nat, string>)
    requires Known(s, store)
    ensures |TextOf(s, store)| == |s|
  {
  }

  lemma TextAppend(s: seq<nat>, t: seq<nat>, store: map<nat, string>)
    ensures Known(s + t, store) <==> Known(s, store) && Known(t, store)
    ensures Known(s + t, store) ==> TextOf(s + t, store) == TextOf(s, store) + TextOf(t, store)
  {
    if Known(s + t, store) {
      assert forall k | 0 <= k < |s| :: (s + t)[k] == s[k];
      assert forall k | 0 <= k < |t| :: (s + t)[|s| + k] == t[k];
    }
  }

  lemma TextSlice(s: seq<nat>, i: nat, j: nat, store: map<nat, string>)
    requires Known(s, store) && i <= j <= |s|
    ensures Known(s[i..j], store) && TextOf(s[i..j], store) == TextOf(s, store)[i..j]
  {
  }

  lemma TextClean(s: seq<nat>, store: map<nat, string>)
    requires Known(s, store)
    ensures Known(Clean(s), store) && TextOf(Clean(s), store) == TextOf(s, store)
  {
    assert forall k | 0 <= k < |s| :: Unmark(Clean(s)[k]) == Unmark(s[k]) && Clean(s)[k] <= s[k];
  }

  /** Clearing marks leaves the text alone. */
  lemma TextParts(s: seq<nat>, a: nat, b: nat, store: map<nat, string>)
    requires Known(s, store) && 1 <= a <= b <= |s|
    ensures
      var c := s[..a - 1] + Clean(s[a - 1..b]) + s[b..];
      Known(c, store) && TextOf(c, store) == TextOf(s, store)
  {
    hide Known, TextOf, Clean;
    var x, y, z := s[..a - 1], s[a - 1..b], s[b..];
    TextSlice(s, 0, a - 1, store);
    TextSlice(s, a - 1, b, store);
    TextSlice(s, b, |s|, store);
    assert s[0..a - 1] == x && s[b..|s|] == z;
    TextClean(y, store);
    TextAppend(x, Clean(y), store);
    TextAppend(x + Clean(y), z, store);
    TextAppend(x, y, store);
    TextAppend(x + y, z, store);
    assert x + y + z == s;
  }

  lemma ThreeParts(x: seq<nat>, y: seq<nat>, z: seq<nat>)
    ensures var c := x + y + z; c[..|x|] == x && c[|x|..|x| + |y|] == y && c[|x| + |y|..] == z
  {
    assert x + y + z == x + (y + z);
  }

  lemma SplicedClean(s: seq<nat>, c: seq<nat>, a: nat, b: nat, t: nat)
    requires 1 <= a <= b <= |s| && t <= |s| && c == s[..a - 1] + Clean(s[a - 1..b]) + s[b..]
    ensures |c| == |s|
    ensures !(a <= t <= b) ==>
      Spliced(c, c[a - 1..b], a, b, t) == Spliced(s, Clean(s[a - 1..b]), a, b, t)
  {
    var x, y, z := s[..a - 1], Clean(s[a - 1..b]), s[b..];
    ThreeParts(x, y, z);
    hide Clean;
    if t < a {
      assert c[..t] == s[..t] && c[t..a - 1] == s[t..a - 1];
    } else if t > b {
      assert c[b..t] == s[b..t] && c[t..] == s[t..];
    }
  }

  /** Splicing the table splices the text. */
  lemma SplicedText(s: seq<nat>, a: nat, b: nat, t: nat, store: map<nat, string>)
    requires Known(s, store) && 1 <= a <= b <= |s| && t <= |s| && !(a <= t <= b)
    ensures
      var m := Spliced(s, s[a - 1..b], a, b, t);
      var text := TextOf(s, store);
      |text| == |s| && Known(m, store) && TextOf(m, store) == Spliced(text, text[a - 1..b], a, b, t)
  {
    TextLength(s, store);
    hide Known, TextOf;
    if t < a {
      FourTexts(s, 0, t, a - 1, b, t, a - 1, b, store);
    } else {
      FourTexts(s, 0, a - 1, b, t, a - 1, b, t, store);
    }
  }

  /** Four slices of the table, the last one up to its end. */
  lemma FourTexts(s: seq<nat>, i0: nat, j0: nat, i1: nat, j1: nat, i2: nat, j2: nat, i3: nat, store: map<nat, string>)
    requires Known(s, store) && i0 == 0 && i0 <= j0 <= |s| && i1 <= j1 <= |s| && i2 <= j2 <= |s| && i3 <= |s|
    ensures
      var m, text := s[..j0] + s[i1..j1] + s[i2..j2] + s[i3..], TextOf(s, store);
      && |text| == |s| && Known(m, store)
      && TextOf(m, store) == text[..j0] + text[i1..j1] + text[i2..j2] + text[i3..]
  {
    TextLength(s, store);
    hide Known, TextOf;
    var text := TextOf(s, store);
    TextSlice(s, i0, j0, store);
    TextSlice(s, i1, j1, store);
    TextSlice(s, i2, j2, store);
    TextSlice(s, i3, |s|, store);
    assert s[i0..j0] == s[..j0] && s[i3..|s|] == s[i3..];
    assert text[i0..j0] == text[..j0] && text[i3..|s|] == text[i3..];
    JoinTexts(s[..j0], s[i1..j1], s[i2..j2], s[i3..], store);
  }

  /** What `move` makes of a table `w` and its text, `z` being the table with marks cleared. */
  lemma MoveResult(w: seq<nat>, z: seq<nat>, dol: nat, a: nat, b: nat, t: nat, store: map<nat, string>)
    requires dol < |w| && 1 <= a <= b <= dol && t <= dol && Known(w[1..dol + 1], store)
    requires z == w[..a] + Clean(w[a..b + 1]) + w[b + 1..]
    ensures |z| == |w| && Known(z[1..dol + 1], store)
    ensures TextOf(z[1..dol + 1], store) == TextOf(w[1..dol + 1], store)
    ensures !(a <= t <= b) ==>
      var s, m, text := w[1..dol + 1], MovedTable(z, a, b, t)[1..dol + 1], TextOf(w[1..dol + 1], store);
      && |text| == |s| == dol && m == Spliced(s, Clean(s[a - 1..b]), a, b, t)
      && Known(m, store) && TextOf(m, store) == Spliced(text, text[a - 1..b], a, b, t)
      && |TextOf(m, store)| == dol
      && TextOf(m, store)[(if t < a then t + (b + 1 - a) else t) - 1] == text[b - 1]
  {
    hide Known, TextOf, Spliced, MovedTable, Clean;
    TableClean(w, z, dol, a, b);
    var s, c := w[1..dol + 1], z[1..dol + 1];
    TextParts(s, a, b, store);
    TextLength(s, store);
    if !(a <= t <= b) {
      SplicedClean(s, c, a, b, t);
      MovedLines(z, dol, a, b, t);
      SplicedText(c, a, b, t, store);
      SplicedLast(TextOf(c, store), a, b, t);
    }
  }

  /** Where the last line of the block lands. */
  lemma SplicedLast<T>(s: seq<T>, a: nat, b: nat, t: nat)
    requires 1 <= a <= b <= |s| && t <= |s| && !(a <= t <= b)
    ensures |Spliced(s, s[a - 1..b], a, b, t)| == |s|
    ensures Spliced(s, s[a - 1..b], a, b, t)[(if t < a then t + (b + 1 - a) else t) - 1] == s[b - 1]
  {
    assert s[a - 1..b][b - a] == s[b - 1];
  }

  lemma JoinTexts(w: seq<nat>, x: seq<nat>, y: seq<nat>, z: seq<nat>, store: map<nat, string>)
    requires Known(w, store) && Known(x, store) && Known(y, store) && Known(z, store)
    ensures Known(w + x + y + z, store)
    ensures TextOf(w + x + y + z, store) == TextOf(w, store) + TextOf(x, store) + TextOf(y, store) + TextOf(z, store)
  {
    hide Known, TextOf;
    TextAppend(w, x, store);
    TextAppend(w + x, y, store);
    TextAppend(w + x + y, z, store);
  }
}
