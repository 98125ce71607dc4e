/** Regular expressions of src/cmd/grep.c: `compile`, `advance` and the search of `execute`,
    against the language a pattern stands for.

    A compiled pattern is a sequence of cells; a cell holds an operation, a character, the number
    of a bracket, or eight bits of a character class.
 */
module Grep {
  import opened Basics

  const NUL := '\0'
  const CBRA := 1
  const CCHR := 2
  const CDOT := 4
  const CCL := 6
  const CDOL := 10
  const CEOF := 11
  const CKET := 12
  const STAR := 1
  const ESIZE := 256
  const NBRA := 9

  // ---- patterns and their language ----

  datatype Atom = Lit(c: char) | Any | Class(neg: bool, members: set<char>)

  datatype Item = One(atom: Atom) | Star(atom: Atom) | Open(n: nat) | Close(n: nat)

  predicate Has(a: Atom, c: char)
  {
    match a
    case Lit(x) => c == x
    case Any => true
    case Class(neg, members) => (c in members) != neg
  }

  ghost predicate All(a: Atom, w: string)
  {
    forall k | 0 <= k < |w| :: Has(a, w[k])
  }

  /** The language of a sequence of items: brackets stand for nothing, a starred atom for any
      number of characters it has. */
  ghost predicate In(items: seq<Item>, w: string)
    decreases |items|
  {
    if items == [] then w == ""
    else match items[0]
      case One(a) => w != "" && Has(a, w[0]) && In(items[1..], w[1..])
      case Star(a) => exists k | 0 <= k <= |w| :: All(a, w[..k]) && In(items[1..], w[k..])
      case Open(_) => In(items[1..], w)
      case Close(_) => In(items[1..], w)
  }

  /** Some prefix of the line from lp on is in the language, the whole of it before a `$`. */
  ghost predicate Matches(items: seq<Item>, dollar: bool, line: string, lp: nat)
  {
    exists j | lp <= j <= |line| :: Prefix(items, dollar, line, lp, j)
  }

  ghost predicate Prefix(items: seq<Item>, dollar: bool, line: string, lp: nat, j: nat)
    requires lp <= j <= |line|
  {
    (dollar ==> j == |line|) && In(items, line[lp..j])
  }

  ghost predicate AllFrom(a: Atom, line: string, lp: nat, k: nat)
  {
    lp <= k <= |line| && forall i | lp <= i < k :: Has(a, line[i])
  }

  lemma MatchNil(dollar: bool, line: string, lp: nat)
    requires lp <= |line|
    ensures Matches([], dollar, line, lp) <==> (dollar ==> lp == |line|)
  {
    if dollar ==> lp == |line| {
      assert Prefix([], dollar, line, lp, lp);
    }
  }

  lemma MatchOne(a: Atom, rest: seq<Item>, dollar: bool, line: string, lp: nat)
    requires lp <= |line|
    ensures Matches([One(a)] + rest, dollar, line, lp)
       <==> lp < |line| && Has(a, line[lp]) && Matches(rest, dollar, line, lp + 1)
  {
    var items := [One(a)] + rest;
    assert items[1..] == rest;
    forall j | lp <= j <= |line|
      ensures Prefix(items, dollar, line, lp, j)
         <==> lp < j && Has(a, line[lp]) && Prefix(rest, dollar, line, lp + 1, j)
    {
      if lp < j { assert line[lp..j][1..] == line[lp + 1..j]; }
    }
    if lp < |line| && Has(a, line[lp]) && Matches(rest, dollar, line, lp + 1) {
      var j :| lp + 1 <= j <= |line| && Prefix(rest, dollar, line, lp + 1, j);
      assert Prefix(items, dollar, line, lp, j);
    }
  }

  lemma MatchBracket(x: Item, rest: seq<Item>, dollar: bool, line: string, lp: nat)
    requires lp <= |line| && (x.Open? || x.Close?)
    ensures Matches([x] + rest, dollar, line, lp) <==> Matches(rest, dollar, line, lp)
  {
    var items := [x] + rest;
    assert items[1..] == rest;
    assert forall j | lp <= j <= |line| :: Prefix(items, dollar, line, lp, j) <==> Prefix(rest, dollar, line, lp, j);
  }

  lemma StarPrefix(a: Atom, rest: seq<Item>, dollar: bool, line: string, lp: nat, k: nat, j: nat)
    requires lp <= k <= j <= |line|
    ensures All(a, line[lp..j][..k - lp]) <==> AllFrom(a, line, lp, k)
    ensures (dollar ==> j == |line|) && In(rest, line[lp..j][k - lp..]) <==> Prefix(rest, dollar, line, k, j)
  {
    var w := line[lp..j];
    assert w[k - lp..] == line[k..j];
    assert w[..k - lp] == line[lp..k];
    if All(a, line[lp..k]) {
      forall i | lp <= i < k ensures Has(a, line[i]) { assert line[i] == line[lp..k][i - lp]; }
    }
  }

  lemma MatchStar(a: Atom, rest: seq<Item>, dollar: bool, line: string, lp: nat)
    requires lp <= |line|
    ensures Matches([Star(a)] + rest, dollar, line, lp)
       <==> exists k | lp <= k <= |line| :: AllFrom(a, line, lp, k) && Matches(rest, dollar, line, k)
  {
    hide All, AllFrom, Has;
    var items := [Star(a)] + rest;
    assert items[1..] == rest;
    if Matches(items, dollar, line, lp) {
      var j :| lp <= j <= |line| && Prefix(items, dollar, line, lp, j);
      var w := line[lp..j];
      var i :| 0 <= i <= |w| && All(a, w[..i]) && In(rest, w[i..]);
      StarPrefix(a, rest, dollar, line, lp, lp + i, j);
      assert AllFrom(a, line, lp, lp + i) && Matches(rest, dollar, line, lp + i);
    }
    if exists k | lp <= k <= |line| :: AllFrom(a, line, lp, k) && Matches(rest, dollar, line, k) {
      var k :| lp <= k <= |line| && AllFrom(a, line, lp, k) && Matches(rest, dollar, line, k);
      var j :| k <= j <= |line| && Prefix(rest, dollar, line, k, j);
      StarPrefix(a, rest, dollar, line, lp, k, j);
      var w := line[lp..j];
      assert All(a, w[..k - lp]) && In(rest, w[k - lp..]);
      assert Prefix(items, dollar, line, lp, j);
    }
  }

  // ---- the compiled form ----

  datatype Cell = Op(op: nat) | Arg(value: int) | Bits(bits: bv8)

  function Bittab(i: nat): bv8
    requires i < 8
  {
    if i == 0 then 1 else if i == 1 then 2 else if i == 2 then 4 else if i == 3 then 8
    else if i == 4 then 16 else if i == 5 then 32 else if i == 6 then 64 else 128
  }

  predicate Ascii(c: char) { 0 < c as int < 128 }

  predicate InBits(bits: seq<bv8>, c: char)
    requires |bits| == 16 && c as int < 128
  {
    bits[c as int / 8] & Bittab(c as int % 8) != 0
  }

  function Bit(on: bool, i: nat): bv8
    requires i < 8
  {
    if on then Bittab(i) else 0
  }

  predicate Member(neg: bool, members: set<char>, n: nat)
    requires n < 128
  {
    n != 0 && (n as char in members) != neg
  }

  function Byte(m: seq<bool>): bv8
    requires |m| == 8
  {
    Bit(m[0], 0) | Bit(m[1], 1) | Bit(m[2], 2) | Bit(m[3], 3) | Bit(m[4], 4) | Bit(m[5], 5) | Bit(m[6], 6) | Bit(m[7], 7)
  }

  /** The eight characters of a row of the class. */
  function Row(neg: bool, members: set<char>, r: nat): bv8
    requires r < 16
  {
    Byte(seq(8, i requires 0 <= i < 8 => Member(neg, members, 8 * r + i)))
  }

  function BitsOf(neg: bool, members: set<char>): (b: seq<bv8>)
    ensures |b| == 16
  {
    seq(16, r requires 0 <= r < 16 => Row(neg, members, r))
  }

  /** A byte is its eight bits. */
  lemma ByteUnique(b: bv8, d: bv8)
    requires forall i: nat | i < 8 :: (b & Bittab(i) != 0) <==> (d & Bittab(i) != 0)
    ensures b == d
  {
    assert (b & Bittab(0) != 0) <==> (d & Bittab(0) != 0);
    assert (b & Bittab(1) != 0) <==> (d & Bittab(1) != 0);
    assert (b & Bittab(2) != 0) <==> (d & Bittab(2) != 0);
    assert (b & Bittab(3) != 0) <==> (d & Bittab(3) != 0);
    assert (b & Bittab(4) != 0) <==> (d & Bittab(4) != 0);
    assert (b & Bittab(5) != 0) <==> (d & Bittab(5) != 0);
    assert (b & Bittab(6) != 0) <==> (d & Bittab(6) != 0);
    assert (b & Bittab(7) != 0) <==> (d & Bittab(7) != 0);
  }

  lemma ByteBit(m: seq<bool>, i: nat)
    requires |m| == 8 && i < 8
    ensures Byte(m) & Bittab(i) != 0 <==> m[i]
  {
  }

  lemma BitsMember(neg: bool, members: set<char>, c: char)
    requires c as int < 128
    ensures InBits(BitsOf(neg, members), c) <==> Member(neg, members, c as int)
  {
    hide Member, Bittab, Byte;
    var r := c as int / 8;
    ByteBit(seq(8, i requires 0 <= i < 8 => Member(neg, members, 8 * r + i)), c as int % 8);
  }

  /** The sixteen bytes are determined by the characters they contain. */
  lemma BitsUnique(b: seq<bv8>, neg: bool, members: set<char>)
    requires |b| == 16 && forall n: nat | n < 128 :: InBits(b, n as char) <==> Member(neg, members, n)
    ensures b == BitsOf(neg, members)
  {
    hide Bittab, Row, Member, BitsOf;
    var d := BitsOf(neg, members);
    forall r | 0 <= r < 16 ensures b[r] == d[r] {
      forall i: nat | i < 8 ensures (b[r] & Bittab(i) != 0) <==> (d[r] & Bittab(i) != 0) {
        var n := 8 * r + i;
        BitsMember(neg, members, n as char);
        assert InBits(b, n as char) <==> Member(neg, members, n);
      }
      ByteUnique(b[r], d[r]);
    }
  }

  function BitCells(b: seq<bv8>): (s: seq<Cell>)
    ensures |s| == |b| && forall k | 0 <= k < |b| :: s[k] == Bits(b[k])
  {
    seq(|b|, k requires 0 <= k < |b| => Bits(b[k]))
  }

  function AtomCells(a: Atom, star: nat): (s: seq<Cell>)
    ensures s != []
  {
    match a
    case Lit(c) => [Op(CCHR + star), Arg(c as int)]
    case Any => [Op(CDOT + star)]
    case Class(neg, members) => [Op(CCL + star)] + BitCells(BitsOf(neg, members))
  }

  function Cells(x: Item): (s: seq<Cell>)
    ensures s != []
  {
    match x
    case One(a) => AtomCells(a, 0)
    case Star(a) => AtomCells(a, STAR)
    case Open(n) => [Op(CBRA), Arg(n)]
    case Close(n) => [Op(CKET), Arg(n)]
  }

  function Tail(dollar: bool): seq<Cell> { if dollar then [Op(CDOL), Op(CEOF)] else [Op(CEOF)] }

  function Encode(items: seq<Item>, dollar: bool): (s: seq<Cell>)
    ensures s != []
  {
    if items == [] then Tail(dollar) else Cells(items[0]) + Encode(items[1..], dollar)
  }

  predicate Good(x: Item)
  {
    (x.One? || x.Star?) && x.atom.Lit? ==> Ascii(x.atom.c)
  }

  ghost predicate At0(code: seq<Cell>, ep: nat, items: seq<Item>, dollar: bool)
  {
    ep < |code| && code[ep..] == Encode(items, dollar) && forall x | x in items :: Good(x)
  }

  /** The cells of the first item, and what stands after them. */
  lemma Decode(code: seq<Cell>, ep: nat, items: seq<Item>, dollar: bool)
    requires At0(code, ep, items, dollar)
    ensures items == [] ==> ep + |Tail(dollar)| == |code| && forall k | 0 <= k < |Tail(dollar)| :: code[ep + k] == Tail(dollar)[k]
    ensures items != [] ==>
      var n := |Cells(items[0])|;
      && ep + n < |code| && At0(code, ep + n, items[1..], dollar) && Good(items[0])
      && code[ep] == Cells(items[0])[0] && code[ep..ep + n] == Cells(items[0])
  {
    hide Cells;
    var s := code[ep..];
    if items != [] {
      var n := |Cells(items[0])|;
      assert s == Cells(items[0]) + Encode(items[1..], dollar);
      assert s[n..] == Encode(items[1..], dollar);
      assert code[ep + n..] == s[n..] && code[ep] == s[0];
      assert code[ep..ep + n] == s[..n];
    }
  }

  /** The character at k; a line ends in a zero. */
  function At(s: string, k: nat): char { if k < |s| then s[k] else NUL }

  ghost predicate Plain(s: string) { forall k | 0 <= k < |s| :: Ascii(s[k]) }

  lemma LineEnd(line: string, lp: nat)
    requires Plain(line) && lp <= |line|
    ensures At(line, lp) as int < 128 && (At(line, lp) == NUL <==> lp == |line|)
  {
  }

  /** `ep[c >> 3] & bittab[c & 07]` */
  predicate InCells(code: seq<Cell>, ep: nat, c: char)
    requires ep + 16 <= |code| && c as int < 128 && forall k | ep <= k < ep + 16 :: code[k].Bits?
  {
    code[ep + c as int / 8].bits & Bittab(c as int % 8) != 0
  }

  lemma ClassCells(code: seq<Cell>, ep: nat, neg: bool, members: set<char>, c: char)
    requires ep + 17 <= |code| && code[ep + 1..ep + 17] == BitCells(BitsOf(neg, members)) && c as int < 128
    ensures forall k | ep + 1 <= k < ep + 17 :: code[k].Bits?
    ensures InCells(code, ep + 1, c) <==> c != NUL && Has(Class(neg, members), c)
  {
    hide Row, Bittab, BitsOf;
    var b := BitsOf(neg, members);
    assert forall k | 0 <= k < 16 :: code[ep + 1 + k] == code[ep + 1..ep + 17][k] == Bits(b[k]);
    BitsMember(neg, members, c);
  }

  // ---- advance ----

  /** The item that an operation belongs to. */
  ghost predicate AtomAt(code: seq<Cell>, ep: nat, items: seq<Item>, dollar: bool, atom: Atom)
  {
    && items != [] && (items[0] == One(atom) || items[0] == Star(atom)) && Good(items[0])
    && match atom
       case Lit(c) => ep + 2 < |code| && code[ep + 1] == Arg(c as int) && At0(code, ep + 2, items[1..], dollar)
       case Any => ep + 1 < |code| && At0(code, ep + 1, items[1..], dollar)
       case Class(neg, members) =>
         && ep + 17 < |code| && code[ep + 1..ep + 17] == BitCells(BitsOf(neg, members))
         && At0(code, ep + 17, items[1..], dollar)
  }

  function OpOf(a: Atom): nat { match a case Lit(_) => CCHR case Any => CDOT case Class(_, _) => CCL }

  lemma ReadOp(code: seq<Cell>, ep: nat, items: seq<Item>, dollar: bool)
    requires At0(code, ep, items, dollar)
    ensures code[ep].Op?
    ensures items == [] ==> code[ep].op == if dollar then CDOL else CEOF
    ensures items == [] && dollar ==> ep + 1 < |code| && code[ep + 1] == Op(CEOF)
    ensures items != [] && (items[0].One? || items[0].Star?) ==>
      && AtomAt(code, ep, items, dollar, items[0].atom)
      && code[ep].op == OpOf(items[0].atom) + (if items[0].Star? then STAR else 0)
    ensures items != [] && (items[0].Open? || items[0].Close?) ==>
      && code[ep].op == (if items[0].Open? then CBRA else CKET)
      && ep + 2 < |code| && At0(code, ep + 2, items[1..], dollar)
  {
    hide At0, Encode, BitsOf;
    Decode(code, ep, items, dollar);
    if items == [] {
      assert code[ep + 0] == Tail(dollar)[0];
      if dollar { assert code[ep + 1] == Tail(dollar)[1]; }
    } else {
      var n := |Cells(items[0])|;
      if n >= 2 { assert code[ep + 1] == code[ep..ep + n][1]; }
      if (items[0].One? || items[0].Star?) && items[0].atom.Class? {
        assert code[ep + 1..ep + 17] == Cells(items[0])[1..];
      }
    }
  }

  /** Does the atom at ep have the character at lp?  The three tests of `advance`. */
  method Test(code: seq<Cell>, ep: nat, op: nat, line: string, lp: nat, ghost items: seq<Item>, ghost dollar: bool, ghost a: Atom)
    returns (r: bool)
    requires AtomAt(code, ep, items, dollar, a) && op == OpOf(a) && Plain(line) && lp <= |line|
    ensures r <==> lp < |line| && Has(a, line[lp])
  {
    hide At0, BitsOf;
    LineEnd(line, lp);
    var c := At(line, lp);
    if op == CCHR {
      assert a.Lit?;
      r := code[ep + 1].value == c as int;
    } else if op == CDOT {
      assert a.Any?;
      r := c != NUL;
    } else {
      ClassCells(code, ep, a.neg, a.members, c);
      r := InCells(code, ep + 1, c);
    }
  }

  function Width(op: nat): nat { if op == CCHR then 2 else if op == CDOT then 1 else 17 }

  /** The scans of the starred cases: as far as the atom goes. */
  method Scan(code: seq<Cell>, ep: nat, op: nat, line: string, curlp: nat, ghost items: seq<Item>, ghost dollar: bool, ghost a: Atom)
    returns (lp: nat)
    requires AtomAt(code, ep, items, dollar, a) && op == OpOf(a) && Plain(line) && curlp <= |line|
    ensures curlp <= lp <= |line| && forall k: nat :: AllFrom(a, line, curlp, k) <==> curlp <= k <= lp
  {
    hide AtomAt, Has;
    lp := curlp;
    while true
      invariant curlp <= lp <= |line| && AllFrom(a, line, curlp, lp)
      decreases |line| - lp
    {
      var r := Test(code, ep, op, line, lp, items, dollar, a);
      if !r { break; }
      lp := lp + 1;
    }
    RunEnds(a, line, curlp, lp);
  }

  lemma RunEnds(a: Atom, line: string, curlp: nat, lp: nat)
    requires AllFrom(a, line, curlp, lp) && !(lp < |line| && Has(a, line[lp]))
    ensures forall k: nat :: AllFrom(a, line, curlp, k) <==> curlp <= k <= lp
  {
    hide Has;
    forall k: nat ensures AllFrom(a, line, curlp, k) <==> curlp <= k <= lp {
      if AllFrom(a, line, curlp, k) && lp < k { assert false; }
    }
  }

  lemma FirstLit(code: seq<Cell>, ep: nat, items: seq<Item>, dollar: bool, line: string, lp: nat)
    requires At0(code, ep, items, dollar) && code[ep] == Op(CCHR) && lp <= |line| && Plain(line)
    ensures ep + 1 < |code| && code[ep + 1].Arg? && code[ep + 1].value != 0
    ensures Matches(items, dollar, line, lp) ==> At(line, lp) as int == code[ep + 1].value
  {
    ReadOp(code, ep, items, dollar);
    assert items == [items[0]] + items[1..];
    MatchOne(items[0].atom, items[1..], dollar, line, lp);
  }

  /** The loops after `star`: try from the longest run down; with a literal next, only where it is. */
  method TryEach(code: seq<Cell>, ep: nat, line: string, curlp: nat, lp0: nat, ghost items: seq<Item>, ghost dollar: bool)
    returns (r: bool)
    requires ep < |code| && At0(code, ep, items, dollar) && Plain(line) && curlp <= lp0 <= |line|
    ensures r <==> exists k | curlp <= k <= lp0 :: Matches(items, dollar, line, k)
    decreases |code| - ep, 1
  {
    hide At0, Matches, Plain;
    ReadOp(code, ep, items, dollar);
    var quick := code[ep] == Op(CCHR);
    if quick { FirstLit(code, ep, items, dollar, line, lp0); }
    var lp: int := lp0;
    while lp >= curlp
      invariant curlp - 1 <= lp <= lp0
      invariant forall k | lp < k <= lp0 :: !Matches(items, dollar, line, k)
    {
      if quick { FirstLit(code, ep, items, dollar, line, lp); }
      if !quick || At(line, lp) as int == code[ep + 1].value {
        var m := Advance(code, line, lp, ep, items, dollar);
        if m { return true; }
      }
      lp := lp - 1;
    }
    r := false;
  }

  /** `advance`: true exactly when some prefix of the line from lp0 on is in the language. */
  method Advance(code: seq<Cell>, line: string, lp0: nat, ep0: nat, ghost items0: seq<Item>, ghost dollar: bool)
    returns (r: bool)
    requires ep0 < |code| && At0(code, ep0, items0, dollar) && Plain(line) && lp0 <= |line|
    ensures r <==> Matches(items0, dollar, line, lp0)
    decreases |code| - ep0, 0
  {
    hide At0, Matches, Plain, AllFrom, Has;
    var lp: nat, ep: nat := lp0, ep0;
    ghost var items := items0;
    while true
      invariant ep0 <= ep < |code| && lp <= |line| && At0(code, ep, items, dollar)
      invariant Matches(items, dollar, line, lp) <==> Matches(items0, dollar, line, lp0)
      decreases |code| - ep
    {
      ReadOp(code, ep, items, dollar);
      var op := code[ep].op;
      if op == CEOF {
        MatchNil(dollar, line, lp);
        return true;
      } else if op == CDOL {
        MatchNil(dollar, line, lp);
        LineEnd(line, lp);
        return At(line, lp) == NUL;
      } else if op == CBRA || op == CKET {
        MatchBracket(items[0], items[1..], dollar, line, lp);
        assert items == [items[0]] + items[1..];
        ep, items := ep + 2, items[1..];
      } else if op % 2 == 0 {
        ghost var a := items[0].atom;
        assert items == [One(a)] + items[1..];
        MatchOne(a, items[1..], dollar, line, lp);
        var t := Test(code, ep, op, line, lp, items, dollar, a);
        if !t { return false; }
        lp, ep, items := lp + 1, ep + Width(op), items[1..];
      } else {
        ghost var a := items[0].atom;
        assert items == [Star(a)] + items[1..];
        MatchStar(a, items[1..], dollar, line, lp);
        var curlp := lp;
        lp := Scan(code, ep, op - STAR, line, curlp, items, dollar, a);
        ep, items := ep + Width(op - STAR), items[1..];
        if lp != curlp {
          r := TryEach(code, ep, line, curlp, lp, items, dollar);
          return;
        }
        assert AllFrom(a, line, curlp, curlp);
      }
    }
  }

  // ---- execute ----

  ghost predicate Found(circ: bool, items: seq<Item>, dollar: bool, line: string)
  {
    exists i | 0 <= i <= |line| && (circ ==> i == 0) :: Matches(items, dollar, line, i)
  }

  /** The search of `execute` on one line: from the start only after `^`; from every place, or from
      those that have the first character when the pattern begins with one. */
  method Execute(code: seq<Cell>, circf: bool, line: string, ghost items: seq<Item>, ghost dollar: bool) returns (found: bool)
    requires 0 < |code| && At0(code, 0, items, dollar) && Plain(line)
    ensures found <==> Found(circf, items, dollar, line)
  {
    hide At0, Matches, Plain;
    if circf {
      found := Advance(code, line, 0, 0, items, dollar);
      return;
    }
    ReadOp(code, 0, items, dollar);
    if code[0] == Op(CCHR) {
      FirstLit(code, 0, items, dollar, line, 0);
      var c, p := code[1].value, 0;
      while p <= |line|
        invariant p <= |line| + 1 && forall i | 0 <= i < p :: !Matches(items, dollar, line, i)
      {
        FirstLit(code, 0, items, dollar, line, p);
        if At(line, p) as int == c {
          var m := Advance(code, line, p, 0, items, dollar);
          if m { return true; }
        }
        p := p + 1;
      }
      return false;
    }
    var p := 0;
    while p <= |line|
      invariant p <= |line| + 1 && forall i | 0 <= i < p :: !Matches(items, dollar, line, i)
    {
      var m := Advance(code, line, p, 0, items, dollar);
      if m { return true; }
      p := p + 1;
    }
    found := false;
  }

  // ---- the syntax of patterns ----

  /** The items of a pattern; of one that is malformed, or has an escape outside the model, those before. */
  datatype Parsed = Parsed(items: seq<Item>, dollar: bool) | Bad(items: seq<Item>) | Other(items: seq<Item>)

  predicate Between(lo: char, c: char, hi: char) { lo <= c <= hi }

  /** A range the wrong way round is its first character. */
  function Range(lo: char, hi: char): set<char> { (set c: char | Between(lo, c, hi)) + {lo} }

  /** The members of a class from k on, after at least one: characters and ranges up to the bracket. */
  function ClassTail(s: string, k: nat, members: set<char>): (r: Option<(set<char>, nat)>)
    requires 1 <= k
    ensures r.Some? ==> k < r.value.1 <= |s|
    decreases |s| - k
  {
    if k >= |s| then None
    else if s[k] == ']' then Some((members, k + 1))
    else if s[k] == '-' && k + 1 >= |s| then None
    else if s[k] == '-' && s[k + 1] != ']' then ClassTail(s, k + 2, members + Range(s[k - 1], s[k + 1]))
    else ClassTail(s, k + 1, members + {s[k]})
  }

  /** The pattern ends with the minus of a range that has no end: the source then reads on past it. */
  predicate OpenRange(s: string, k: nat)
    decreases |s| - k
  {
    && k < |s| && s[k] != ']'
    && if s[k] == '-' && k + 1 >= |s| then true
       else if s[k] == '-' && s[k + 1] != ']' then OpenRange(s, k + 2)
       else OpenRange(s, k + 1)
  }

  /** Such a pattern has no class, and its last character is the minus. */
  lemma {:induction false} OpenRangeEnd(s: string, k: nat, members: set<char>)
    requires 1 <= k && OpenRange(s, k)
    ensures s[|s| - 1] == '-' && ClassTail(s, k, members).None?
    decreases |s| - k
  {
    hide Range;
    if s[k] == '-' && k + 1 >= |s| {
    } else if s[k] == '-' && s[k + 1] != ']' {
      OpenRangeEnd(s, k + 2, members + Range(s[k - 1], s[k + 1]));
    } else {
      OpenRangeEnd(s, k + 1, members + {s[k]});
    }
  }

  /** A class, k standing after its opening bracket.  Its first character is always a member. */
  function ParseClass(s: string, k: nat): (r: Option<(Atom, nat)>)
    ensures r.Some? ==> k < r.value.1 <= |s|
  {
    var neg := k < |s| && s[k] == '^';
    var first := if neg then k + 1 else k;
    if first >= |s| then None
    else match ClassTail(s, first + 1, {s[first]})
      case None => None
      case Some((members, e)) => Some((Class(neg, members), e))
  }

  function Prepend(x: Item, p: Parsed): Parsed
  {
    p.(items := [x] + p.items)
  }

  function Stars(s: string, k: nat): (e: nat)
    ensures k <= e && (k <= |s| ==> e <= |s|)
    decreases |s| - k
  {
    if k < |s| && s[k] == '*' then Stars(s, k + 1) else k
  }

  /** The pattern from k on.  A star after an atom makes it starred, more stars change nothing; a
      star anywhere else is an ordinary character. */
  function Parse(s: string, k: nat, numbra: nat, stack: seq<nat>): Parsed
    requires k <= |s|
    decreases |s| - k, 0
  {
    if k == |s| then Parsed([], false)
    else if s[k] == '$' && k + 1 == |s| then Parsed([], true)
    else if s[k] == '*' then Prepend(One(Lit('*')), Parse(s, k + 1, numbra, stack))
    else if s[k] == '.' then Repeated(Any, false, s, k + 1, numbra, stack)
    else if s[k] == '[' then
      match ParseClass(s, k + 1)
      case None => Bad([])
      case Some((a, e)) => Repeated(a, false, s, e, numbra, stack)
    else if s[k] == '\\' then
      if k + 1 == |s| then Bad([])
      else if s[k + 1] == '<' || s[k + 1] == '>' || '1' <= s[k + 1] <= '9' then Other([])
      else if s[k + 1] == '(' then
        if numbra >= NBRA then Bad([]) else Prepend(Open(numbra), Parse(s, k + 2, numbra + 1, stack + [numbra]))
      else if s[k + 1] == ')' then
        if stack == [] then Bad([])
        else Prepend(Close(stack[|stack| - 1]), Parse(s, k + 2, numbra, stack[..|stack| - 1]))
      else Repeated(Lit(s[k + 1]), false, s, k + 2, numbra, stack)
    else Repeated(Lit(s[k]), false, s, k + 1, numbra, stack)
  }

  /** An atom with the stars that follow it. */
  function Repeated(a: Atom, starred: bool, s: string, k: nat, numbra: nat, stack: seq<nat>): Parsed
    requires k <= |s|
    decreases |s| - k, 1
  {
    Prepend(if starred || Stars(s, k) > k then Star(a) else One(a), Parse(s, Stars(s, k), numbra, stack))
  }

  // ---- compiling a class ----

  ghost predicate Represents(bits: seq<bv8>, members: set<char>)
  {
    |bits| == 16 && forall c: char | c as int < 128 :: InBits(bits, c) <==> c in members
  }

  function SetBit(bits: seq<bv8>, c: char): (b: seq<bv8>)
    requires |bits| == 16 && c as int < 128
    ensures |b| == 16
  {
    bits[c as int / 8 := bits[c as int / 8] | Bittab(c as int % 8)]
  }

  lemma OrBit(b: bv8, i: nat, j: nat)
    requires i < 8 && j < 8
    ensures (b | Bittab(i)) & Bittab(j) != 0 <==> i == j || b & Bittab(j) != 0
  {
  }

  lemma SetMember(bits: seq<bv8>, c: char, members: set<char>)
    requires Represents(bits, members) && c as int < 128
    ensures Represents(SetBit(bits, c), members + {c})
  {
    hide Bittab, InBits, SetBit;
    forall d: char | d as int < 128 ensures InBits(SetBit(bits, c), d) <==> d in members + {c} {
      SetOne(bits, c, d);
      assert InBits(bits, d) <==> d in members;
    }
  }

  lemma SetOne(bits: seq<bv8>, c: char, d: char)
    requires |bits| == 16 && c as int < 128 && d as int < 128
    ensures InBits(SetBit(bits, c), d) <==> d == c || InBits(bits, d)
  {
    hide Bittab;
    OrBit(bits[c as int / 8], c as int % 8, d as int % 8);
    assert c as int == d as int ==> c == d;
  }

  lemma NotBit(b: bv8, i: nat)
    requires i < 8
    ensures (b ^ 255) & Bittab(i) != 0 <==> b & Bittab(i) == 0
    ensures (b & 254) & Bittab(i) != 0 <==> i != 0 && b & Bittab(i) != 0
  {
  }

  function Flipped(bits: seq<bv8>): (b: seq<bv8>)
    requires |bits| == 16
    ensures |b| == 16
  {
    var all := seq(16, k requires 0 <= k < 16 => bits[k] ^ 255);
    all[0 := all[0] & 254]
  }

  lemma FlipMember(bits: seq<bv8>, members: set<char>)
    requires Represents(bits, members)
    ensures Flipped(bits) == BitsOf(true, members)
  {
    hide Bittab, BitsOf;
    var b := Flipped(bits);
    forall n: nat | n < 128 ensures InBits(b, n as char) <==> Member(true, members, n) {
      NotBit(bits[n / 8], n % 8);
      NotBit(bits[n / 8] ^ 255, n % 8);
      assert InBits(bits, n as char) <==> n as char in members;
    }
    BitsUnique(b, true, members);
  }

  lemma PlainMember(bits: seq<bv8>, members: set<char>)
    requires Represents(bits, members) && NUL !in members
    ensures bits == BitsOf(false, members)
  {
    hide Bittab, BitsOf, InBits;
    forall n: nat | n < 128 ensures InBits(bits, n as char) <==> Member(false, members, n) {
      assert InBits(bits, n as char) <==> n as char in members;
    }
    BitsUnique(bits, false, members);
  }

  /** The range loop: the characters from lo up to hi; only lo when the range is the wrong way round. */
  method SetRange(bits0: seq<bv8>, lo: char, hi: char, ghost members: set<char>) returns (bits: seq<bv8>)
    requires Represents(bits0, members) && Ascii(lo) && Ascii(hi)
    ensures Represents(bits, members + Range(lo, hi))
  {
    hide Represents, SetBit;
    bits := bits0;
    var c := lo;
    ghost var done := members;
    SizeOf(bits, done);
    while c < hi
      invariant Ascii(c) && lo <= c && (lo <= hi ==> c <= hi) && (hi < lo ==> c == lo)
      invariant Represents(bits, done) && |bits| == 16
      invariant forall d: char :: d in done <==> d in members || Between(lo, d, (c as int - 1) as char)
      decreases 128 - c as int
    {
      SetMember(bits, c, done);
      bits, done := SetBit(bits, c), done + {c};
      c := (c as int + 1) as char;
    }
    SetMember(bits, c, done);
    bits := SetBit(bits, c);
    assert done + {c} == members + Range(lo, hi);
  }

  lemma SizeOf(bits: seq<bv8>, members: set<char>)
    requires Represents(bits, members)
    ensures |bits| == 16
  {
  }

  /** The class branch of `compile`, from the opening bracket on; `past` tells that the source would read
      on past the end of the pattern. */
  method CompileClass(s: string, sp0: nat) returns (ok: bool, bits: seq<bv8>, sp: nat, past: bool)
    requires Plain(s) && sp0 <= |s|
    ensures ok <==> ParseClass(s, sp0).Some?
    ensures ok ==> ParseClass(s, sp0).value.0.Class? && ParseClass(s, sp0).value.1 == sp
    ensures past <==> OpenRange(s, sp0 + if sp0 < |s| && s[sp0] == '^' then 2 else 1)
    ensures ok ==> bits == BitsOf(ParseClass(s, sp0).value.0.neg, ParseClass(s, sp0).value.0.members)
  {
    hide Represents, SetBit, BitsOf, Flipped, Range, Plain;
    bits, sp := seq(16, _ => 0), sp0;
    ghost var members: set<char> := {};
    ZeroBits(members);
    var neg := sp < |s| && s[sp] == '^';
    if neg { sp := sp + 1; }
    past := false;
    if sp >= |s| { return false, bits, sp, false; }
    var c := s[sp];
    sp := sp + 1;
    var cstart := sp;
    AsciiAt(s, sp - 1);
    SetMember(bits, c, members);
    SizeOf(bits, members);
    bits, members := SetBit(bits, c), members + {c};
    ghost var first := members;
    assert first == {c};
    while true
      invariant cstart <= sp <= |s| && Represents(bits, members) && NUL !in members
      invariant ClassTail(s, sp, members) == ClassTail(s, cstart, first) && OpenRange(s, sp) == OpenRange(s, cstart)
      decreases |s| - sp
    {
      if sp >= |s| { return false, bits, sp, false; }
      c := s[sp];
      sp := sp + 1;
      if c == ']' { break; }
      AsciiAt(s, sp - 1);
      AsciiAt(s, sp - 2);
      SizeOf(bits, members);
      if c == '-' && sp > cstart && !(sp < |s| && s[sp] == ']') {
        if sp >= |s| { return false, bits, sp, true; }
        AsciiAt(s, sp);
        bits := SetRange(bits, s[sp - 2], s[sp], members);
        NoNul(s[sp - 2], s[sp]);
        members := members + Range(s[sp - 2], s[sp]);
        sp := sp + 1;
      } else {
        SetMember(bits, c, members);
        bits, members := SetBit(bits, c), members + {c};
      }
    }
    SizeOf(bits, members);
    if neg {
      FlipMember(bits, members);
      bits := Flipped(bits);
    } else {
      PlainMember(bits, members);
    }
    ok := true;
  }

  lemma NoNul(lo: char, hi: char)
    requires Ascii(lo)
    ensures NUL !in Range(lo, hi)
  {
  }

  lemma AsciiAt(s: string, k: nat)
    requires Plain(s) && k < |s|
    ensures Ascii(s[k])
  {
  }

  lemma ZeroBits(members: set<char>)
    requires members == {}
    ensures Represents(seq(16, _ => 0), members)
  {
  }

  // ---- compiling ----

  /** The cells of a sequence of items, without the end. */
  function Body(items: seq<Item>): seq<Cell>
  {
    if items == [] then [] else Cells(items[0]) + Body(items[1..])
  }

  lemma {:induction false} BodyEnd(items: seq<Item>, dollar: bool)
    ensures Encode(items, dollar) == Body(items) + Tail(dollar)
  {
    if items != [] { BodyEnd(items[1..], dollar); }
  }

  lemma {:induction false} BodyNext(items: seq<Item>, x: Item)
    ensures Body(items + [x]) == Body(items) + Cells(x)
  {
    if items == [] {
      assert [x][1..] == [] && items + [x] == [x];
    } else {
      assert (items + [x])[1..] == items[1..] + [x];
      BodyNext(items[1..], x);
    }
  }

  function PrependAll(items: seq<Item>, p: Parsed): Parsed
  {
    p.(items := items + p.items)
  }

  lemma PrependNext(items: seq<Item>, x: Item, p: Parsed)
    ensures PrependAll(items, Prepend(x, p)) == PrependAll(items + [x], p)
  {
    assert items + ([x] + p.items) == items + [x] + p.items;
  }

  function Begin(s: string): nat { if s != "" && s[0] == '^' then 1 else 0 }

  /** The whole pattern: an anchor, and the rest of it. */
  function Syntax(s: string): Parsed { Parse(s, Begin(s), 0, []) }

  datatype State = State(sp: nat, code: seq<Cell>, lastep: Option<nat>, numbra: nat, stack: seq<nat>)

  /** Compiled up to sp, with nothing that a star could still change. */
  ghost predicate Settled(s: string, st: State, done: seq<Item>)
  {
    && st.sp <= |s| && st.code == Body(done) && (forall x | x in done :: Good(x))
    && Syntax(s) == PrependAll(done, Parse(s, st.sp, st.numbra, st.stack))
  }

  /** Compiled up to sp, the last cells being those of an atom that a star may follow. */
  ghost predicate Pending(s: string, st: State, done: seq<Item>, a: Atom, starred: bool)
  {
    && st.sp <= |s| && st.lastep == Some(|Body(done)|) && (forall x | x in done :: Good(x)) && Good(One(a))
    && st.code == Body(done) + AtomCells(a, if starred then STAR else 0)
    && Syntax(s) == PrependAll(done, Repeated(a, starred, s, st.sp, st.numbra, st.stack))
  }

  /** `lastep` is not at anything that can be starred. */
  ghost predicate NoAtom(st: State)
  {
    st.lastep == None || (st.lastep.value < |st.code| && st.code[st.lastep.value] in {Op(CBRA), Op(CKET)})
  }

  ghost predicate Compiling(s: string, st: State, done: seq<Item>, pend: Option<(Atom, bool)>)
  {
    match pend
    case None => Settled(s, st, done) && NoAtom(st)
    case Some((a, starred)) => Pending(s, st, done, a, starred)
  }

  /** The next character is no star: the atom is complete. */
  lemma Settle(s: string, st: State, done: seq<Item>, a: Atom, starred: bool)
    requires Pending(s, st, done, a, starred) && (st.sp == |s| || s[st.sp] != '*')
    ensures Settled(s, st, done + [if starred then Star(a) else One(a)])
  {
    hide Cells, AtomCells, Parse;
    var x := if starred then Star(a) else One(a);
    assert Stars(s, st.sp) == st.sp;
    BodyNext(done, x);
    CellsOf(a, starred);
    PrependNext(done, x, Parse(s, st.sp, st.numbra, st.stack));
  }

  lemma CellsOf(a: Atom, starred: bool)
    ensures Cells(if starred then Star(a) else One(a)) == AtomCells(a, if starred then STAR else 0)
    ensures Cells(One(a)) == AtomCells(a, 0)
  {
  }

  /** `*lastep |= STAR` */
  lemma AddStar(s: string, st: State, done: seq<Item>, a: Atom, starred: bool, st': State)
    requires Pending(s, st, done, a, starred) && st.sp < |s| && s[st.sp] == '*'
    requires st.lastep.Some? && st.lastep.value < |st.code| && st.code[st.lastep.value].Op?
    requires st' == st.(sp := st.sp + 1, code := st.code[st.lastep.value := Op(Starred(st.code[st.lastep.value].op))])
    ensures Pending(s, st', done, a, true)
  {
    hide Body, Parse, AtomCells;
    StarCells(a);
    var n, cells := |Body(done)|, AtomCells(a, if starred then STAR else 0);
    assert st.code[n] == cells[0];
    assert st'.code == Body(done) + cells[0 := Op(Starred(cells[0].op))];
    assert Stars(s, st.sp) == Stars(s, st.sp + 1) > st.sp;
  }

  lemma StarCells(a: Atom)
    ensures AtomCells(a, 0)[0] == Op(OpOf(a)) && AtomCells(a, STAR)[0] == Op(OpOf(a) + STAR)
    ensures AtomCells(a, 0)[0 := Op(Starred(OpOf(a)))] == AtomCells(a, STAR)
    ensures AtomCells(a, STAR)[0 := Op(Starred(OpOf(a) + STAR))] == AtomCells(a, STAR)
  {
    hide BitsOf;
  }

  /** `op | STAR`, STAR being the lowest bit. */
  function Starred(op: nat): nat { if op % 2 == 0 then op + STAR else op }

  lemma PendingLast(s: string, st: State, done: seq<Item>, a: Atom, starred: bool)
    requires Pending(s, st, done, a, starred)
    ensures st.lastep.Some? && st.lastep.value < |st.code|
    ensures st.code[st.lastep.value] == Op(OpOf(a) + if starred then STAR else 0)
  {
    hide Body, Parse, BitsOf;
    assert st.code[|Body(done)|] == AtomCells(a, if starred then STAR else 0)[0];
  }

  /** A new atom. */
  lemma NewAtom(s: string, st: State, done: seq<Item>, a: Atom, st': State)
    requires Settled(s, st, done) && Good(One(a)) && st'.sp <= |s|
    requires Parse(s, st.sp, st.numbra, st.stack) == Repeated(a, false, s, st'.sp, st'.numbra, st'.stack)
    requires st'.lastep == Some(|st.code|) && st'.code == st.code + AtomCells(a, 0)
    ensures Pending(s, st', done, a, false)
  {
  }

  /** A new item that no star can change. */
  lemma NewItem(s: string, st: State, done: seq<Item>, x: Item, st': State)
    requires Settled(s, st, done) && Good(x) && st'.sp <= |s|
    requires Parse(s, st.sp, st.numbra, st.stack) == Prepend(x, Parse(s, st'.sp, st'.numbra, st'.stack))
    requires st'.code == st.code + Cells(x)
    ensures Settled(s, st', done + [x])
  {
    hide Parse, Cells;
    BodyNext(done, x);
    PrependNext(done, x, Parse(s, st'.sp, st'.numbra, st'.stack));
  }

  lemma {:induction false} BodyLength(x: seq<Item>, y: seq<Item>)
    ensures |Body(x + y)| == |Body(x)| + |Body(y)|
  {
    if x == [] {
      assert x + y == y;
    } else {
      assert (x + y)[1..] == x[1..] + y;
      BodyLength(x[1..], y);
    }
  }

  /** Too long for the buffer. */
  ghost predicate Long(p: Parsed) { p.Parsed? && |Body(p.items)| + (if p.dollar then 1 else 0) >= ESIZE }

  lemma TooLong(done: seq<Item>, x: Item, p: Parsed)
    requires |Body(done)| + |Cells(x)| >= ESIZE || |Body(done)| >= ESIZE
    ensures !PrependAll(done, Prepend(x, p)).Parsed? || Long(PrependAll(done, Prepend(x, p)))
    ensures |Body(done)| >= ESIZE ==> !PrependAll(done, p).Parsed? || Long(PrependAll(done, p))
  {
    hide Cells, Body;
    if p.Parsed? {
      BodyLength(done, p.items);
      BodyLength(done + [x], p.items);
      BodyNext(done, x);
      assert done + [x] + p.items == done + ([x] + p.items);
    }
  }

  lemma CompilingLong(s: string, st: State, done: seq<Item>, pend: Option<(Atom, bool)>)
    requires Compiling(s, st, done, pend) && |st.code| >= ESIZE && FirstOver(done, pend)
    ensures !Syntax(s).Parsed? || Long(Syntax(s))
    ensures |st.code| > ESIZE <==> Overruns(Syntax(s).items)
  {
    hide Parse, AtomCells, Cells, Body, Overruns;
    match pend
    case None =>
      var p := Parse(s, st.sp, st.numbra, st.stack);
      TooLong(done, Open(0), p);
      NothingOver(done);
      var n := |done| - 1;
      assert done == done[..n] + [done[n]];
      BodyNext(done[..n], done[n]);
      OverrunAt(done[..n], done[n], p.items);
    case Some((a, starred)) =>
      var e := Stars(s, st.sp);
      var x, p := if starred || e > st.sp then Star(a) else One(a), Parse(s, e, st.numbra, st.stack);
      AtomWidth(a);
      CellsOf(a, true);
      CellsOf(a, false);
      TooLong(done, x, p);
      OverrunAt(done, x, p.items);
      assert done + ([x] + p.items) == done + [x] + p.items;
  }

  // ---- the end of the buffer ----

  /** Item n needs two cells and one is left. */
  ghost predicate OverAt(items: seq<Item>, n: nat)
  {
    n < |items| && |Body(items[..n])| == ESIZE - 1 && |Cells(items[n])| == 2
  }

  ghost predicate Overruns(items: seq<Item>) { exists n: nat :: OverAt(items, n) }

  /** All but the last item are within the buffer, and a class is altogether. */
  ghost predicate FirstOver(done: seq<Item>, pend: Option<(Atom, bool)>)
  {
    match pend
    case None => done != [] ==> Within(done[..|done| - 1], done[|done| - 1])
    case Some((a, starred)) => Within(done, One(a))
  }

  ghost predicate Within(before: seq<Item>, x: Item)
  {
    |Body(before)| < ESIZE && (|Cells(x)| > 2 ==> |Body(before)| + |Cells(x)| < ESIZE)
  }

  lemma NothingOver(done: seq<Item>)
    requires |Body(done)| >= ESIZE
    ensures done != []
  {
  }

  lemma BodyGrows(items: seq<Item>, n: nat)
    requires n <= |items|
    ensures |Body(items[..n])| <= |Body(items)| && (n < |items| ==> |Body(items[..n])| + |Cells(items[n])| <= |Body(items)|)
  {
    hide Body, Cells;
    assert items == items[..n] + items[n..];
    BodyLength(items[..n], items[n..]);
    if n < |items| {
      assert items[..n + 1] == items[..n] + [items[n]] && items == items[..n + 1] + items[n + 1..];
      BodyNext(items[..n], items[n]);
      BodyLength(items[..n + 1], items[n + 1..]);
    }
  }

  lemma NoOverrun(items: seq<Item>)
    requires |Body(items)| < ESIZE
    ensures !Overruns(items)
  {
    hide Body, Cells;
    forall n: nat | n < |items| ensures !OverAt(items, n) { BodyGrows(items, n); }
  }

  /** The first item that does not fit decides. */
  lemma OverrunAt(before: seq<Item>, x: Item, after: seq<Item>)
    requires |Body(before)| < ESIZE <= |Body(before)| + |Cells(x)|
    ensures Overruns(before + [x] + after) <==> |Body(before)| == ESIZE - 1 && |Cells(x)| == 2
  {
    hide Body, Cells;
    var items, m := before + [x] + after, |before|;
    assert items[..m] == before && items[m] == x && items[..m + 1] == before + [x];
    BodyNext(before, x);
    forall n: nat | OverAt(items, n) ensures n == m {
      if n < m {
        assert items[..n] == before[..n];
        BodyGrows(before, n);
      } else if n > m {
        assert items[..n][..m + 1] == items[..m + 1];
        BodyGrows(items[..n], m + 1);
      }
    }
    if |Body(before)| == ESIZE - 1 && |Cells(x)| == 2 { assert OverAt(items, m); }
  }

  lemma BeforeSettled(s: string, st: State, done: seq<Item>)
    requires Settled(s, st, done) && |st.code| < ESIZE
    ensures |Body(done)| < ESIZE && |Body(done)| == |st.code|
  {
    hide Body, Parse;
  }

  /** An item of one or two cells after what is within the buffer. */
  lemma SmallNext(done: seq<Item>, x: Item)
    requires |Body(done)| < ESIZE && |Cells(x)| <= 2
    ensures FirstOver(done + [x], None) && (x.One? ==> FirstOver(done, Some((x.atom, false))))
  {
    hide Body, Cells;
    assert (done + [x])[..|done|] == done;
  }

  lemma BeforeLast(s: string, st: State, done: seq<Item>, pend: Option<(Atom, bool)>)
    requires Compiling(s, st, done, pend) && |st.code| < ESIZE
    ensures |Body(done)| < ESIZE && (pend.None? ==> |Body(done)| == |st.code|)
    ensures pend.Some? ==> Within(done, One(pend.value.0))
  {
    hide Body, Parse, AtomCells, Cells;
    if pend.Some? {
      AtomWidth(pend.value.0);
      CellsOf(pend.value.0, true);
    }
  }

  lemma AtomWidth(a: Atom)
    ensures |AtomCells(a, 0)| == |AtomCells(a, STAR)| == |Cells(One(a))| == |Cells(Star(a))| == Width(OpOf(a))
  {
  }

  datatype Outcome = More | Fail | Foreign

  /** A star: a mark on the last atom, or an ordinary character where there is none. */
  method Asterisk(s: string, st: State, ghost done: seq<Item>, ghost pend: Option<(Atom, bool)>)
    returns (st': State, ghost done': seq<Item>, ghost pend': Option<(Atom, bool)>)
    requires Compiling(s, st, done, pend) && st.sp < |s| && s[st.sp] == '*' && |st.code| < ESIZE
    ensures Compiling(s, st', done', pend') && st'.sp == st.sp + 1 && FirstOver(done', pend')
  {
    BeforeLast(s, st, done, pend);
    hide Settled, Pending, Parse, Body;
    done', pend' := done, pend;
    if pend.Some? { PendingLast(s, st, done, pend.value.0, pend.value.1); }
    if st.lastep == None || st.code[st.lastep.value].op == CBRA || st.code[st.lastep.value].op == CKET {
      st' := st.(sp := st.sp + 1, code := st.code + [Op(CCHR), Arg('*' as int)]);
      LiteralStar(s, st, done, st');
      SmallNext(done, One(Lit('*')));
      done' := done + [One(Lit('*'))];
    } else {
      var l := st.lastep.value;
      st' := st.(sp := st.sp + 1, code := st.code[l := Op(Starred(st.code[l].op))]);
      AddStar(s, st, done, pend.value.0, pend.value.1, st');
      pend' := Some((pend.value.0, true));
    }
  }

  lemma LiteralStar(s: string, st: State, done: seq<Item>, st': State)
    requires Settled(s, st, done) && NoAtom(st) && st.sp < |s| && s[st.sp] == '*'
    requires st' == st.(sp := st.sp + 1, code := st.code + [Op(CCHR), Arg('*' as int)])
    ensures Settled(s, st', done + [One(Lit('*'))]) && NoAtom(st')
  {
    hide Body;
    NewItem(s, st, done, One(Lit('*')), st');
  }

  lemma TwoCells(x: Item)
    requires x.Open? || x.Close? || (x.One? && x.atom.Lit?)
    ensures |Cells(x)| == 2
    ensures x.Open? ==> Cells(x) == [Op(CBRA), Arg(x.n)]
    ensures x.Close? ==> Cells(x) == [Op(CKET), Arg(x.n)]
    ensures x.One? ==> AtomCells(x.atom, 0) == [Op(CCHR), Arg(x.atom.c as int)]
  {
  }

  lemma NewBracket(s: string, st: State, done: seq<Item>, x: Item, op: nat, st': State)
    requires Settled(s, st, done) && ((x.Open? && op == CBRA) || (x.Close? && op == CKET)) && Good(x) && st'.sp <= |s|
    requires Parse(s, st.sp, st.numbra, st.stack) == Prepend(x, Parse(s, st'.sp, st'.numbra, st'.stack))
    requires st'.code == st.code + [Op(op), Arg(x.n)] && st'.lastep == Some(|st.code|) && |st.code| < ESIZE
    ensures Compiling(s, st', done + [x], None) && FirstOver(done + [x], None)
  {
    hide Settled, Parse, Prepend, Cells, AtomCells;
    TwoCells(x);
    BeforeSettled(s, st, done);
    SmallNext(done, x);
    NewItem(s, st, done, x, st');
  }

  lemma NewLit(s: string, st: State, done: seq<Item>, c: char, st': State)
    requires Settled(s, st, done) && Good(One(Lit(c))) && st'.sp <= |s|
    requires Parse(s, st.sp, st.numbra, st.stack) == Repeated(Lit(c), false, s, st'.sp, st'.numbra, st'.stack)
    requires st'.code == st.code + [Op(CCHR), Arg(c as int)] && st'.lastep == Some(|st.code|) && |st.code| < ESIZE
    ensures Compiling(s, st', done, Some((Lit(c), false))) && FirstOver(done, Some((Lit(c), false)))
  {
    hide Settled, Pending, Parse, Repeated, Cells, AtomCells;
    TwoCells(One(Lit(c)));
    BeforeSettled(s, st, done);
    SmallNext(done, One(Lit(c)));
    NewAtom(s, st, done, Lit(c), st');
  }

  lemma EscapeParse(s: string, k: nat, numbra: nat, stack: seq<nat>)
    requires k < |s| && s[k] == '\\'
    ensures Parse(s, k, numbra, stack) ==
      if k + 1 == |s| then Bad([])
      else if s[k + 1] == '<' || s[k + 1] == '>' || '1' <= s[k + 1] <= '9' then Other([])
      else if s[k + 1] == '(' then
        if numbra >= NBRA then Bad([]) else Prepend(Open(numbra), Parse(s, k + 2, numbra + 1, stack + [numbra]))
      else if s[k + 1] == ')' then
        if stack == [] then Bad([])
        else Prepend(Close(stack[|stack| - 1]), Parse(s, k + 2, numbra, stack[..|stack| - 1]))
      else Repeated(Lit(s[k + 1]), false, s, k + 2, numbra, stack)
  {
    hide Repeated;
  }

  /** `\(`, `\)`, and other characters after a backslash. */
  method Escape(s: string, st: State, ghost done: seq<Item>)
    returns (r: Outcome, st': State, ghost done': seq<Item>, ghost pend': Option<(Atom, bool)>)
    requires Settled(s, st, done) && Plain(s) && st.sp < |s| && s[st.sp] == '\\' && |st.code| < ESIZE
    ensures r.More? ==> Compiling(s, st', done', pend') && st'.sp > st.sp && FirstOver(done', pend')
    ensures r.Fail? ==> Parse(s, st.sp, st.numbra, st.stack) == Bad([])
    ensures r.Foreign? ==> Parse(s, st.sp, st.numbra, st.stack) == Other([])
  {
    hide Settled, Compiling, FirstOver, Plain, Parse, Repeated, Prepend;
    EscapeParse(s, st.sp, st.numbra, st.stack);
    st', done', pend' := st, done, None;
    var ep := |st.code|;
    if st.sp + 1 == |s| { return Fail, st', done', pend'; }
    var c := s[st.sp + 1];
    AsciiAt(s, st.sp + 1);
    if c == '<' || c == '>' || '1' <= c <= '9' { return Foreign, st', done', pend'; }
    if c == '(' {
      if st.numbra >= NBRA { return Fail, st', done', pend'; }
      st' := State(st.sp + 2, st.code + [Op(CBRA), Arg(st.numbra)], Some(ep), st.numbra + 1, st.stack + [st.numbra]);
      NewBracket(s, st, done, Open(st.numbra), CBRA, st');
      done' := done + [Open(st.numbra)];
    } else if c == ')' {
      if st.stack == [] { return Fail, st', done', pend'; }
      var n := |st.stack| - 1;
      st' := State(st.sp + 2, st.code + [Op(CKET), Arg(st.stack[n])], Some(ep), st.numbra, st.stack[..n]);
      NewBracket(s, st, done, Close(st.stack[n]), CKET, st');
      done' := done + [Close(st.stack[n])];
    } else {
      st' := State(st.sp + 2, st.code + [Op(CCHR), Arg(c as int)], Some(ep), st.numbra, st.stack);
      NewLit(s, st, done, c, st');
      pend' := Some((Lit(c), false));
    }
    r := More;
  }

  /** Any other character than a star, at the end of an item; a `$` at the end is left to the caller. */
  method Ordinary(s: string, st: State, ghost done: seq<Item>)
    returns (r: Outcome, st': State, ghost done': seq<Item>, ghost pend': Option<(Atom, bool)>)
    requires Settled(s, st, done) && Plain(s) && st.sp < |s| && s[st.sp] != '*' && !(s[st.sp] == '$' && st.sp + 1 == |s|)
    requires |st.code| < ESIZE
    ensures r.More? ==> Compiling(s, st', done', pend') && st'.sp > st.sp && FirstOver(done', pend')
    ensures r.Fail? ==> (!Syntax(s).Parsed? || Long(Syntax(s))) && !Overruns(Syntax(s).items)
    ensures r.Foreign? ==> Syntax(s).Other? && !Overruns(Syntax(s).items)
  {
    BeforeSettled(s, st, done);
    hide Settled, Pending, Body, BitsOf, Long, Overruns;
    SettledSyntax(s, st, done);
    st', done', pend' := st, done, None;
    var ep, c := |st.code|, s[st.sp];
    AsciiAt(s, st.sp);
    if c == '.' {
      st' := st.(sp := st.sp + 1, code := st.code + [Op(CDOT)], lastep := Some(ep));
      NewAtom(s, st, done, Any, st');
      pend' := Some((Any, false));
    } else if c == '[' {
      if ep + 17 >= ESIZE {
        ClassLong(s, st, done);
        return Fail, st', done', pend';
      }
      var ok, bits, sp, past := CompileClass(s, st.sp + 1);
      if !ok { return Fail, st', done', pend'; }
      ghost var a := ParseClass(s, st.sp + 1).value.0;
      st' := st.(sp := sp, code := st.code + ([Op(CCL)] + BitCells(bits)), lastep := Some(ep));
      NewAtom(s, st, done, a, st');
      pend' := Some((a, false));
    } else if c == '\\' {
      r, st', done', pend' := Escape(s, st, done);
      return;
    } else {
      st' := st.(sp := st.sp + 1, code := st.code + [Op(CCHR), Arg(c as int)], lastep := Some(ep));
      NewLit(s, st, done, c, st');
      pend' := Some((Lit(c), false));
    }
    r := More;
  }

  lemma SettledSyntax(s: string, st: State, done: seq<Item>)
    requires Settled(s, st, done) && |st.code| < ESIZE
    ensures st.sp <= |s|
    ensures var p := Parse(s, st.sp, st.numbra, st.stack);
      p == Bad([]) || p == Other([]) ==> Syntax(s) == p.(items := done) && !Overruns(Syntax(s).items)
  {
    hide Overruns, Parse, Body;
    assert done + [] == done;
    NoOverrun(done);
  }

  lemma ClassLong(s: string, st: State, done: seq<Item>)
    requires Settled(s, st, done) && st.sp < |s| && s[st.sp] == '[' && ESIZE <= |st.code| + 17 < ESIZE + 17
    ensures (!Syntax(s).Parsed? || Long(Syntax(s))) && !Overruns(Syntax(s).items)
  {
    hide Long, Body, AtomCells, Cells, Overruns;
    match ParseClass(s, st.sp + 1)
    case None =>
      SettledSyntax(s, st, done);
    case Some((a, e)) =>
      assert a.Class?;
      assert Parse(s, st.sp, st.numbra, st.stack) == Repeated(a, false, s, e, st.numbra, st.stack);
      AtomWidth(a);
      var k := Stars(s, e);
      var x, p := if k > e then Star(a) else One(a), Parse(s, k, st.numbra, st.stack);
      TooLong(done, x, p);
      OverrunAt(done, x, p.items);
      assert done + ([x] + p.items) == done + [x] + p.items;
  }

  datatype Compiled = Code(circf: bool, code: seq<Cell>) | Error | Unmodelled

  /** `compile`: the cells of the items the pattern stands for, if it is well formed and fits.  `past`
      tells that a cell was stored after the last of `expbuf`: an item of two cells came when one was left. */
  method Compile(s: string) returns (r: Compiled, past: bool)
    requires Plain(s)
    ensures r.Code? <==> Syntax(s).Parsed? && !Long(Syntax(s))
    ensures r.Code? ==> r.circf == (s != "" && s[0] == '^') && r.code == Encode(Syntax(s).items, Syntax(s).dollar)
    ensures r.Code? ==> |r.code| <= ESIZE && forall x | x in Syntax(s).items :: Good(x)
    ensures r.Unmodelled? ==> Syntax(s).Other?
    ensures past <==> Overruns(Syntax(s).items)
    ensures past ==> r.Error?
  {
    hide Settled, Pending, Body, Encode, Parse, Plain, Overruns, OverAt;
    var circf := s != "" && s[0] == '^';
    var st := State(if circf then 1 else 0, [], None, 0, []);
    ghost var done: seq<Item>, pend: Option<(Atom, bool)> := [], None;
    StartState(s, st);
    while true
      invariant Compiling(s, st, done, pend) && FirstOver(done, pend)
      decreases |s| - st.sp
    {
      StateRange(s, st, done, pend);
      if |st.code| >= ESIZE {
        CompilingLong(s, st, done, pend);
        return Error, |st.code| > ESIZE;
      }
      if st.sp < |s| && s[st.sp] == '*' {
        st, done, pend := Asterisk(s, st, done, pend);
        continue;
      }
      if pend.Some? {
        Settle(s, st, done, pend.value.0, pend.value.1);
        done := done + [if pend.value.1 then Star(pend.value.0) else One(pend.value.0)];
      }
      if st.sp == |s| {
        Finish(s, st, done, false);
        return Code(circf, st.code + [Op(CEOF)]), false;
      }
      if s[st.sp] == '$' && st.sp + 1 == |s| {
        Finish(s, st, done, true);
        if |st.code| + 1 >= ESIZE {
          return Error, false;
        }
        return Code(circf, st.code + [Op(CDOL)] + [Op(CEOF)]), false;
      }
      var o;
      o, st, done, pend := Ordinary(s, st, done);
      if o == Fail { return Error, false; }
      if o == Foreign { return Unmodelled, false; }
    }
  }

  lemma StateRange(s: string, st: State, done: seq<Item>, pend: Option<(Atom, bool)>)
    requires Compiling(s, st, done, pend)
    ensures st.sp <= |s|
  {
  }

  lemma StartState(s: string, st: State)
    requires st == State(if s != "" && s[0] == '^' then 1 else 0, [], None, 0, [])
    ensures Compiling(s, st, [], None)
  {
    var p := Syntax(s);
    assert [] + p.items == p.items;
  }

  lemma Finish(s: string, st: State, done: seq<Item>, dollar: bool)
    requires Settled(s, st, done) && (if dollar then st.sp + 1 == |s| && s[st.sp] == '$' else st.sp == |s|)
    ensures Syntax(s) == Parsed(done, dollar) && st.code == Body(done) && (forall x | x in done :: Good(x))
    ensures Encode(done, dollar) == st.code + Tail(dollar) && (|st.code| < ESIZE ==> !Overruns(done))
  {
    hide Overruns;
    BodyEnd(done, dollar);
    if |st.code| < ESIZE { NoOverrun(done); }
    assert done + [] == done;
  }

  /** A line is selected exactly when the language of the pattern says so. */
  method Select(pattern: string, line: string) returns (r: Option<bool>)
    requires Plain(pattern) && Plain(line)
    ensures r.Some? <==> Syntax(pattern).Parsed? && !Long(Syntax(pattern))
    ensures r.Some? ==>
      (r.value <==> Found(pattern != "" && pattern[0] == '^', Syntax(pattern).items, Syntax(pattern).dollar, line))
  {
    hide Parse, Plain, Found, Long, Encode, Good;
    var c, _ := Compile(pattern);
    if !c.Code? { return None; }
    ghost var items, dollar := Syntax(pattern).items, Syntax(pattern).dollar;
    assert c.code[0..] == c.code;
    var found := Execute(c.code, c.circf, line, items, dollar);
    r := Some(found);
  }

  // ---- two patterns the source mishandles ----

  /** n dots and an `a`. */
  function Dots(n: nat): string { seq(n, _ => '.') + "a" }

  lemma {:induction false} DotsParse(n: nat, k: nat)
    requires k <= n
    ensures Parse(Dots(n), k, 0, []) == Parsed(seq(n - k, _ => One(Any)) + [One(Lit('a'))], false)
    decreases n - k
  {
    var s := Dots(n);
    if k == n {
      assert s[k] == 'a' && Stars(s, k + 1) == k + 1;
      assert Parse(s, k + 1, 0, []) == Parsed([], false);
      assert seq(0, _ => One(Any)) == [];
    } else {
      DotsParse(n, k + 1);
      assert s[k] == '.' && s[k + 1] != '*' && Stars(s, k + 1) == k + 1;
      assert seq(n - k, _ => One(Any)) == [One(Any)] + seq(n - k - 1, _ => One(Any));
    }
  }

  lemma {:induction false} DotsBody(items: seq<Item>)
    requires forall i | 0 <= i < |items| :: items[i] == One(Any)
    ensures |Body(items)| == |items|
  {
    if items != [] { DotsBody(items[1..]); }
  }

  /** After 255 dots the cell of an `a` is stored past the buffer, and only then. */
  lemma DotsOverrun(n: nat)
    ensures Overruns(Syntax(Dots(n)).items) <==> n == ESIZE - 1
  {
    hide Overruns;
    var dots, x := seq(n, _ => One(Any)), One(Lit('a'));
    assert Begin(Dots(n)) == 0;
    DotsParse(n, 0);
    DotsBody(dots);
    BodyNext(dots, x);
    assert dots + [x] + [] == dots + [x];
    if n + 2 < ESIZE {
      NoOverrun(dots + [x]);
    } else if n < ESIZE {
      OverrunAt(dots, x, []);
    } else {
      OverrunDots(n);
    }
  }

  lemma OverrunDots(n: nat)
    requires n >= ESIZE
    ensures !Overruns(seq(n, _ => One(Any)) + [One(Lit('a'))])
  {
    var items := seq(n, _ => One(Any)) + [One(Lit('a'))];
    forall k: nat | k < |items| ensures !OverAt(items, k) {
      if k == n { DotsBody(items[..k]); }
    }
  }

  /** `compile` on 255 dots and an `a`. */
  method StoresPast() returns (past: bool)
    ensures past
  {
    hide Overruns, Syntax, Long;
    var n := ESIZE - 1;
    DotsOverrun(n);
    var r;
    r, past := Compile(Dots(n));
  }

  /** The class branch of `compile` on `[a-`. */
  method ReadsPast() returns (past: bool)
    ensures past
  {
    var ok, bits, sp;
    ok, bits, sp, past := CompileClass("[a-", 1);
  }
}
