/** The program of src/cmd/sort.c as a whole, for its two orders: whole lines, and numbers. */
module Sort {
  import opened Quicksort
  import opened SortFiles
  import opened SortKeys

  /** The output of `sort`, with `-r` if reverse: in dictionary order, the other way round under `-r`. */
  ghost predicate InLineOrder(reverse: bool, out: seq<string>)
  {
    forall i, j | 0 <= i < j < |out| ::
      out[i] == out[j] || if reverse then Lexical(out[j], out[i]) else Lexical(out[i], out[j])
  }

  /** By value, and lines of equal value in dictionary order. */
  ghost predicate InValueOrder(reverse: bool, tab: char, out: seq<string>)
  {
    forall i, j | 0 <= i < j < |out| ::
      var x, y := Value(out[i], 0, |out[i]|, tab), Value(out[j], 0, |out[j]|, tab);
      && (if reverse then x >= y else x <= y)
      && (x == y ==> out[i] == out[j] || if reverse then Lexical(out[j], out[i]) else Lexical(out[i], out[j]))
  }

  function Flag(reverse: bool): int { if reverse then -1 else 1 }

  /** `sort` and `sort -r` */
  method SortLines(inputs: seq<string>, reverse: bool, nlines: nat, ntext: nat) returns (out: seq<string>)
    requires nlines >= 1 && ntext >= 1
    ensures InLineOrder(reverse, out) && multiset(out) == multiset(ToCome(inputs, 0, ""))
  {
    hide Preorder, ToCome;
    var rflg := Flag(reverse);
    CmpaPreorder(rflg);
    var c: Compare := (x, y) => CmpA(rflg, x, y);
    out := SortAll(inputs, c, nlines, ntext);
    LineOrder(reverse, c, out);
  }

  lemma LineOrder(reverse: bool, c: Compare, out: seq<string>)
    requires OutOrder(c, out) && forall x, y :: c(x, y) == CmpA(Flag(reverse), x, y)
    ensures InLineOrder(reverse, out)
  {
    hide CmpA, Lexical;
    forall i, j | 0 <= i < j < |out|
      ensures out[i] == out[j] || if reverse then Lexical(out[j], out[i]) else Lexical(out[i], out[j])
    {
      assert c(out[i], out[j]) >= 0;
      CmpaLexical(out[i], out[j]);
      CmpaLexical(out[j], out[i]);
    }
  }

  /** `sort -n` and `sort -nr` */
  method SortNumbers(inputs: seq<string>, reverse: bool, tab: char, nlines: nat, ntext: nat) returns (out: seq<string>)
    requires nlines >= 1 && ntext >= 1
    ensures InValueOrder(reverse, tab, out) && multiset(out) == multiset(ToCome(inputs, 0, ""))
  {
    hide Preorder, ToCome;
    var rflg := Flag(reverse);
    CmpPreorder(rflg, false, tab);
    var c: Compare := (x, y) => Cmp(rflg, false, tab, x, y);
    out := SortAll(inputs, c, nlines, ntext);
    ValueOrder(reverse, tab, c, out);
  }

  lemma ValueOrder(reverse: bool, tab: char, c: Compare, out: seq<string>)
    requires OutOrder(c, out) && forall x, y :: c(x, y) == Cmp(Flag(reverse), false, tab, x, y)
    ensures InValueOrder(reverse, tab, out)
  {
    hide CmpA, Lexical, Value;
    forall i, j | 0 <= i < j < |out|
      ensures
        var x, y := Value(out[i], 0, |out[i]|, tab), Value(out[j], 0, |out[j]|, tab);
        && (if reverse then x >= y else x <= y)
        && (x == y ==> out[i] == out[j] || if reverse then Lexical(out[j], out[i]) else Lexical(out[i], out[j]))
    {
      assert c(out[i], out[j]) >= 0;
      CmpaLexical(out[i], out[j]);
      CmpaLexical(out[j], out[i]);
    }
  }
}
