/** The rules of the game of src/games/canfield.c, and how each kind of move keeps them.

    The foundations ascend in one suit from the base rank; the tableaus descend in alternating
    colours; `bottom` has the bottom card of every tableau that has cards.  For an empty tableau
    `bottom` may be out of date, but then it names a card on a foundation, which never comes back.
 */
module CanfieldRules {
  import opened CanfieldTable

  ghost predicate Ascends(s: Pile, b: nat)
  {
    && (s != [] ==> Rank(s[0]) == b)
    && forall k | 0 < k < |s| :: Rank(s[k]) == Up(Rank(s[k - 1])) && Suit(s[k]) == Suit(s[k - 1])
  }

  ghost predicate Descends(s: Pile)
  {
    forall k | 0 < k < |s| :: Rank(s[k - 1]) == Up(Rank(s[k])) && Red(s[k - 1]) != Red(s[k])
  }

  ghost predicate NoBase(s: Pile, b: nat)
  {
    forall k | 0 <= k < |s| :: Rank(s[k]) != b
  }

  /** Foundations 0 to `base` are begun, each with a card of the base rank. */
  ghost predicate Foundations(piles: seq<Pile>, base: int, b: nat)
  {
    && |piles| == PILES && 0 <= base <= 3
    && forall p | FOUND <= p < TAB :: (piles[p] != [] <==> p - FOUND <= base) && Ascends(piles[p], b)
  }

  ghost predicate OnFoundation(loc: seq<(nat, nat)>, c: int)
  {
    |loc| == DECK && 0 <= c < DECK && FOUND <= loc[c].0 < TAB
  }

  ghost predicate Tableaus(piles: seq<Pile>, loc: seq<(nat, nat)>, bottom: seq<int>)
  {
    && |piles| == PILES && |bottom| == 4
    && forall p | TAB <= p < PILES :: Tableau(piles[p], loc, bottom[p - TAB])
  }

  ghost predicate Tableau(s: Pile, loc: seq<(nat, nat)>, bottom: int)
  {
    && Descends(s)
    && (s != [] ==> bottom == s[0])
    && (s == [] ==> bottom == NIL || OnFoundation(loc, bottom))
  }

  /** The counters agree with the piles. */
  ghost predicate Counted(piles: seq<Pile>, length: seq<int>, stockcnt: int, taloncnt: int, cinhand: int, cardsoff: int)
  {
    && |piles| == PILES && |length| == 4
    && stockcnt == |piles[STOCK]| && taloncnt == |piles[TALON]| && cinhand == |piles[HAND]|
    && cardsoff == |piles[FOUND]| + |piles[FOUND + 1]| + |piles[FOUND + 2]| + |piles[FOUND + 3]|
    && length[0] == 7 + |piles[TAB]| && length[1] == 7 + |piles[TAB + 1]|
    && length[2] == 7 + |piles[TAB + 2]| && length[3] == 7 + |piles[TAB + 3]|
    && stockcnt + taloncnt + cinhand + cardsoff + length[0] + length[1] + length[2] + length[3] == DECK + 4 * 7
  }

  // ---- piles ----

  lemma AscendsPush(s: Pile, b: nat, c: nat)
    requires Ascends(s, b) && s != [] && Rank(c) == Up(Rank(s[|s| - 1])) && Suit(c) == Suit(s[|s| - 1])
    ensures Ascends(s + [c], b)
  {
    hide Rank, Suit;
    assert forall k | 0 <= k < |s| :: (s + [c])[k] == s[k];
  }

  lemma DescendsPop(s: Pile)
    requires Descends(s) && s != []
    ensures Descends(s[..|s| - 1])
  {
    hide Rank, Red;
  }

  lemma DescendsJoin(x: Pile, y: Pile)
    requires Descends(x) && Descends(y)
    requires x != [] && y != [] ==> Rank(x[|x| - 1]) == Up(Rank(y[0])) && Red(x[|x| - 1]) != Red(y[0])
    ensures Descends(x + y)
  {
    hide Rank, Red;
    var s := x + y;
    forall k | 0 < k < |s| ensures Rank(s[k - 1]) == Up(Rank(s[k])) && Red(s[k - 1]) != Red(s[k]) {
      if k < |x| {
        assert s[k] == x[k] && s[k - 1] == x[k - 1];
      } else if k > |x| {
        assert s[k] == y[k - |x|] && s[k - 1] == y[k - |x| - 1];
      }
    }
  }

  /** How many ranks above the base. */
  function Dist(b: nat, r: nat): int { if r >= b then r - b else r + 13 - b }

  /** Going down a tableau the distance to the base rank shrinks, since the base rank is not there. */
  lemma {:induction false} DistFalls(s: Pile, b: nat, k: nat)
    requires Descends(s) && NoBase(s, b) && b < 13 && k < |s|
    ensures Dist(b, Rank(s[k])) + k == Dist(b, Rank(s[0]))
  {
    hide Rank;
    if k > 0 {
      DistFalls(s, b, k - 1);
      RankUp(b, s[k]);
      RankUp(b, s[k - 1]);
      assert Rank(s[k - 1]) == Up(Rank(s[k])) && Rank(s[k]) != b && Rank(s[k - 1]) != b;
    }
  }

  lemma RankUp(b: nat, c: nat)
    ensures Rank(c) < 13
  {
  }

  /** A tableau is never moved onto itself: its bottom card is not one below its top card. */
  lemma NotOntoItself(s: Pile, b: nat)
    requires Descends(s) && NoBase(s, b) && b < 13 && s != []
    ensures Up(Rank(s[0])) != Rank(s[|s| - 1])
  {
    DistFalls(s, b, |s| - 1);
    RankUp(b, s[0]);
    assert Rank(s[0]) != b && Rank(s[|s| - 1]) != b;
  }

  // ---- moving one card ----

  /** Neither pile is a foundation or a tableau. */
  lemma AwayMove(piles: seq<Pile>, loc: seq<(nat, nat)>, bottom: seq<int>, base: int, b: nat, p: nat, q: nat)
    requires Placed(piles, loc) && Foundations(piles, base, b) && Tableaus(piles, loc, bottom)
    requires p < FOUND && q < FOUND && p != q && piles[p] != []
    ensures piles[p][|piles[p]| - 1] < DECK
    ensures Foundations(Moved(piles, p, q), base, b)
    ensures Tableaus(Moved(piles, p, q), MovedLoc(piles, loc, p, q), bottom)
  {
    hide Ascends, Descends;
    MovedPiles(piles, p, q);
    StaleKeeps(piles, loc, bottom, p, q);
  }

  /** A card on a foundation stays there. */
  lemma StaleKeeps(piles: seq<Pile>, loc: seq<(nat, nat)>, bottom: seq<int>, p: nat, q: nat)
    requires Placed(piles, loc) && p < PILES && q < PILES && !(FOUND <= p < TAB) && piles[p] != []
    ensures piles[p][|piles[p]| - 1] < DECK
    ensures forall c :: OnFoundation(loc, c) ==> OnFoundation(MovedLoc(piles, loc, p, q), c)
    ensures FOUND <= q < TAB ==> OnFoundation(MovedLoc(piles, loc, p, q), piles[p][|piles[p]| - 1])
  {
    var n := |piles[p]| - 1;
    Apart(piles, loc, p, n, p, n);
    assert loc[piles[p][n]] == (p, n);
  }

  lemma FoundPush(piles: seq<Pile>, base: int, b: nat, p: nat, i: nat)
    requires Foundations(piles, base, b) && p < PILES && !(FOUND <= p < TAB) && piles[p] != [] && i < 4
    requires
      var c, s := piles[p][|piles[p]| - 1], piles[FOUND + i];
      s != [] && Rank(c) == Up(Rank(s[|s| - 1])) && Suit(c) == Suit(s[|s| - 1])
    ensures Foundations(Moved(piles, p, FOUND + i), base, b)
  {
    hide Ascends, Rank, Suit;
    MovedPiles(piles, p, FOUND + i);
    var m := Moved(piles, p, FOUND + i);
    AscendsPush(piles[FOUND + i], b, piles[p][|piles[p]| - 1]);
    forall r | FOUND <= r < TAB ensures (m[r] != [] <==> r - FOUND <= base) && Ascends(m[r], b) {
      if r != FOUND + i { assert m[r] == piles[r]; }
    }
  }

  /** Four cards have the base rank, so a fifth foundation is never begun. */
  lemma RoomForBase(piles: seq<Pile>, loc: seq<(nat, nat)>, base: int, b: nat, p: nat)
    requires Placed(piles, loc) && Foundations(piles, base, b) && p < PILES && !(FOUND <= p < TAB) && piles[p] != []
    requires Rank(piles[p][|piles[p]| - 1]) == b
    ensures 0 <= base < 3
  {
    if base == 3 {
      hide Rank, Placed;
      var n := |piles[p]| - 1;
      var c := piles[p][n];
      forall r: nat | FOUND <= r < TAB
        ensures piles[r] != [] && piles[r][0] < DECK && Rank(piles[r][0]) == b && piles[r][0] != c && c < DECK
      {
        assert Ascends(piles[r], b);
        Apart(piles, loc, p, n, r, 0);
      }
      Apart(piles, loc, FOUND, 0, FOUND + 1, 0);
      Apart(piles, loc, FOUND, 0, FOUND + 2, 0);
      Apart(piles, loc, FOUND, 0, FOUND + 3, 0);
      Apart(piles, loc, FOUND + 1, 0, FOUND + 2, 0);
      Apart(piles, loc, FOUND + 1, 0, FOUND + 3, 0);
      Apart(piles, loc, FOUND + 2, 0, FOUND + 3, 0);
      FiveSuits(piles[FOUND][0], piles[FOUND + 1][0], piles[FOUND + 2][0], piles[FOUND + 3][0], c);
    }
  }

  lemma FiveSuits(c0: nat, c1: nat, c2: nat, c3: nat, c: nat)
    requires c0 < DECK && c1 < DECK && c2 < DECK && c3 < DECK && c < DECK
    requires Rank(c0) == Rank(c1) == Rank(c2) == Rank(c3) == Rank(c)
    requires c0 != c1 && c0 != c2 && c0 != c3 && c1 != c2 && c1 != c3 && c2 != c3
    ensures c == c0 || c == c1 || c == c2 || c == c3
  {
    hide Rank, Suit;
    SuitOf(c0);
    SuitOf(c1);
    SuitOf(c2);
    SuitOf(c3);
    SuitOf(c);
    SameRank(c0, c1);
    SameRank(c0, c2);
    SameRank(c0, c3);
    SameRank(c1, c2);
    SameRank(c1, c3);
    SameRank(c2, c3);
    if c != c0 && c != c1 && c != c2 && c != c3 {
      SameRank(c, c0);
      SameRank(c, c1);
      SameRank(c, c2);
      SameRank(c, c3);
      Pigeons(Suit(c0), Suit(c1), Suit(c2), Suit(c3), Suit(c));
    }
  }

  lemma Pigeons(a: nat, b: nat, c: nat, d: nat, e: nat)
    requires a < 4 && b < 4 && c < 4 && d < 4 && e < 4
    requires a != b && a != c && a != d && b != c && b != d && c != d
    ensures e == a || e == b || e == c || e == d
  {
    if a == 0 { if b == 1 { } else if b == 2 { } } else if a == 1 { } else if a == 2 { }
  }

  lemma SuitOf(c: nat)
    requires c < DECK
    ensures Suit(c) < 4
  {
  }

  lemma SameRank(c: nat, d: nat)
    requires Rank(c) == Rank(d) && c != d
    ensures Suit(c) != Suit(d)
  {
    if Suit(c) == Suit(d) { CardIs(c, d); }
  }

  lemma FoundBegin(piles: seq<Pile>, base: int, b: nat, p: nat)
    requires Foundations(piles, base, b) && base < 3 && p < PILES && !(FOUND <= p < TAB) && piles[p] != []
    requires Rank(piles[p][|piles[p]| - 1]) == b
    ensures Foundations(Moved(piles, p, FOUND + (base + 1)), base + 1, b)
  {
    hide Rank, Suit;
    var q: nat := FOUND + (base + 1);
    MovedPiles(piles, p, q);
    var m := Moved(piles, p, q);
    assert piles[q] == [];
    forall r | FOUND <= r < TAB ensures (m[r] != [] <==> r - FOUND <= base + 1) && Ascends(m[r], b) {
      if r != q { assert m[r] == piles[r]; }
    }
  }

  /** Taking a card off to a foundation: the tableau it comes from may be left empty. */
  lemma TableauPop(piles: seq<Pile>, loc: seq<(nat, nat)>, bottom: seq<int>, p: nat, q: nat)
    requires Placed(piles, loc) && Tableaus(piles, loc, bottom) && p < PILES && !(FOUND <= p < TAB) && piles[p] != []
    requires FOUND <= q < TAB
    ensures piles[p][|piles[p]| - 1] < DECK && Tableaus(Moved(piles, p, q), MovedLoc(piles, loc, p, q), bottom)
  {
    hide Descends;
    MovedPiles(piles, p, q);
    StaleKeeps(piles, loc, bottom, p, q);
    var m, l := Moved(piles, p, q), MovedLoc(piles, loc, p, q);
    forall r | TAB <= r < PILES ensures Tableau(m[r], l, bottom[r - TAB]) {
      assert Tableau(piles[r], loc, bottom[r - TAB]);
      if r == p {
        DescendsPop(piles[p]);
        assert m[r] == piles[p][..|piles[p]| - 1];
        assert |piles[p]| > 1 ==> m[r][0] == piles[p][0];
      } else {
        assert m[r] == piles[r];
      }
    }
  }

  /** A card from the stock or the talon put on a tableau. */
  lemma TableauPush(piles: seq<Pile>, loc: seq<(nat, nat)>, bottom: seq<int>, base: int, b: nat, p: nat, d: nat)
    requires Placed(piles, loc) && Foundations(piles, base, b) && Tableaus(piles, loc, bottom)
    requires p < FOUND && piles[p] != [] && d < 4
    requires
      var c, s := piles[p][|piles[p]| - 1], piles[TAB + d];
      s != [] ==> Rank(s[|s| - 1]) == Up(Rank(c)) && Red(s[|s| - 1]) != Red(c)
    ensures piles[p][|piles[p]| - 1] < DECK
    ensures Foundations(Moved(piles, p, TAB + d), base, b)
    ensures
      var bottom' := if piles[TAB + d] == [] then bottom[d := piles[p][|piles[p]| - 1] as int] else bottom;
      Tableaus(Moved(piles, p, TAB + d), MovedLoc(piles, loc, p, TAB + d), bottom')
  {
    hide Ascends, Rank, Red;
    var q := TAB + d;
    var c := piles[p][|piles[p]| - 1];
    MovedPiles(piles, p, q);
    StaleKeeps(piles, loc, bottom, p, q);
    var m, l := Moved(piles, p, q), MovedLoc(piles, loc, p, q);
    assert forall r | FOUND <= r < TAB :: m[r] == piles[r];
    var bottom' := if piles[q] == [] then bottom[d := c as int] else bottom;
    forall r | TAB <= r < PILES ensures Tableau(m[r], l, bottom'[r - TAB]) {
      assert Tableau(piles[r], loc, bottom[r - TAB]);
      if r == q {
        assert m[r] == piles[q] + [c];
        DescendsJoin(piles[q], [c]);
      } else {
        assert m[r] == piles[r];
      }
    }
  }

  /** A whole tableau put on another. */
  lemma TableauJoin(piles: seq<Pile>, loc: seq<(nat, nat)>, bottom: seq<int>, base: int, b: nat, s: nat, d: nat)
    requires Placed(piles, loc) && Foundations(piles, base, b) && Tableaus(piles, loc, bottom)
    requires s < 4 && d < 4 && s != d && piles[TAB + s] != [] && piles[TAB + d] != []
    requires
      var x, y := piles[TAB + d], piles[TAB + s];
      Rank(x[|x| - 1]) == Up(Rank(y[0])) && Red(x[|x| - 1]) != Red(y[0])
    ensures Foundations(Joined(piles, TAB + s, TAB + d), base, b)
    ensures Tableaus(Joined(piles, TAB + s, TAB + d), JoinedLoc(piles, loc, TAB + s, TAB + d), bottom[s := NIL])
  {
    hide Ascends, Rank, Red;
    var m, l := Joined(piles, TAB + s, TAB + d), JoinedLoc(piles, loc, TAB + s, TAB + d);
    assert forall r | FOUND <= r < TAB :: m[r] == piles[r];
    forall r | TAB <= r < PILES ensures Tableau(m[r], l, bottom[s := NIL][r - TAB]) {
      assert Tableau(piles[r], loc, bottom[r - TAB]);
      if r == TAB + d {
        assert Tableau(piles[TAB + s], loc, bottom[s]);
        DescendsJoin(piles[TAB + d], piles[TAB + s]);
      } else if r == TAB + s {
        assert m[r] == [];
      } else {
        assert m[r] == piles[r];
      }
    }
  }

  // ---- counters ----

  function Delta(r: nat, p: nat, q: nat): int { if r == q then 1 else if r == p then -1 else 0 }

  lemma Lengths(piles: seq<Pile>, p: nat, q: nat)
    requires p < |piles| && q < |piles| && p != q && piles[p] != []
    ensures forall r: nat | r < |piles| :: |Moved(piles, p, q)[r]| == |piles[r]| + Delta(r, p, q)
  {
  }

  /** A card from p to a foundation. */
  lemma CountedFound(piles: seq<Pile>, length: seq<int>, stockcnt: int, taloncnt: int, cinhand: int, cardsoff: int, p: nat, q: nat)
    requires Counted(piles, length, stockcnt, taloncnt, cinhand, cardsoff)
    requires p < PILES && !(FOUND <= p < TAB) && p != HAND && FOUND <= q < TAB && piles[p] != []
    ensures Counted(Moved(piles, p, q), if p >= TAB then length[p - TAB := length[p - TAB] - 1] else length,
                    if p == STOCK then stockcnt - 1 else stockcnt, if p == TALON then taloncnt - 1 else taloncnt,
                    cinhand, cardsoff + 1)
  {
    hide Moved;
    Lengths(piles, p, q);
  }

  /** A card from the stock or the talon to a tableau. */
  lemma CountedTableau(piles: seq<Pile>, length: seq<int>, stockcnt: int, taloncnt: int, cinhand: int, cardsoff: int, p: nat, d: nat)
    requires Counted(piles, length, stockcnt, taloncnt, cinhand, cardsoff)
    requires (p == STOCK || p == TALON) && d < 4 && piles[p] != []
    ensures Counted(Moved(piles, p, TAB + d), length[d := length[d] + 1],
                    if p == STOCK then stockcnt - 1 else stockcnt, if p == TALON then taloncnt - 1 else taloncnt,
                    cinhand, cardsoff)
  {
    hide Moved;
    Lengths(piles, p, TAB + d);
  }

  lemma CountedAway(piles: seq<Pile>, length: seq<int>, stockcnt: int, taloncnt: int, cinhand: int, cardsoff: int, p: nat, q: nat)
    requires Counted(piles, length, stockcnt, taloncnt, cinhand, cardsoff)
    requires (p == HAND && q == TALON) || (p == TALON && q == HAND)
    requires piles[p] != []
    ensures Counted(Moved(piles, p, q), length, stockcnt, taloncnt + Delta(TALON, p, q), cinhand + Delta(HAND, p, q), cardsoff)
  {
    hide Moved;
    Lengths(piles, p, q);
  }

  lemma CountedJoin(piles: seq<Pile>, length: seq<int>, stockcnt: int, taloncnt: int, cinhand: int, cardsoff: int, s: nat, d: nat)
    requires Counted(piles, length, stockcnt, taloncnt, cinhand, cardsoff) && s < 4 && d < 4 && s != d
    ensures Counted(Joined(piles, TAB + s, TAB + d), length[d := length[d] + (length[s] - 7)][s := 7],
                    stockcnt, taloncnt, cinhand, cardsoff)
  {
  }

  // ---- cards seen and paid for ----

  function Count(s: seq<bool>): (n: nat)
    ensures n <= |s|
  {
    if s == [] then 0 else Count(s[..|s| - 1]) + if s[|s| - 1] then 1 else 0
  }

  lemma {:induction false} CountSet(s: seq<bool>, c: nat)
    requires c < |s|
    ensures Count(s[c := true]) == Count(s) + if s[c] then 0 else 1
  {
    var n := |s| - 1;
    if c < n {
      CountSet(s[..n], c);
      assert s[c := true][..n] == s[..n][c := true];
    } else {
      assert s[c := true][..n] == s[..n];
    }
  }

  /** What has been paid for is visible, and every dollar of information paid for another card, the
      first eighteen being free. */
  ghost predicate Informed(visible: seq<bool>, paid: seq<bool>, information: int)
  {
    && |visible| == DECK && |paid| == DECK && (forall c | 0 <= c < DECK :: paid[c] ==> visible[c])
    && 0 <= information && information + 18 <= Count(paid)
  }

  lemma InformedBound(visible: seq<bool>, paid: seq<bool>, information: int)
    requires Informed(visible, paid, information)
    ensures information <= 34
  {
  }

  lemma Show(visible: seq<bool>, paid: seq<bool>, information: int, c: nat)
    requires Informed(visible, paid, information) && c < DECK
    ensures Informed(visible[c := true], paid, information)
  {
  }

  lemma Pay(visible: seq<bool>, paid: seq<bool>, information: int, c: nat, cost: nat)
    requires Informed(visible, paid, information) && c < DECK && visible[c] && cost <= 1 && (cost == 1 ==> !paid[c])
    ensures Informed(visible, paid[c := true], information + cost)
  {
    CountSet(paid, c);
  }

  // ---- what can be played where ----

  /** One rank lower and of the other colour: what a tableau takes. */
  ghost predicate Fits(c: nat, d: nat)
  {
    Rank(d) == Up(Rank(c)) && Red(d) != Red(c)
  }

  /** The next card of the suit: what a foundation takes. */
  ghost predicate Accepts(s: Pile, c: nat)
  {
    s != [] && Rank(c) == Up(Rank(s[|s| - 1])) && Suit(c) == Suit(s[|s| - 1])
  }

  /** No tableau among the first m has a card of the base rank. */
  ghost predicate Clean(piles: seq<Pile>, b: nat, m: nat)
  {
    |piles| == PILES && forall p | TAB <= p < PILES && p < TAB + m :: NoBase(piles[p], b)
  }

  ghost predicate TopClean(s: Pile, b: nat)
  {
    s != [] ==> Rank(s[|s| - 1]) != b
  }

  /** Cards of the base rank taken off p, down to one of another rank. */
  ghost predicate Uncovered(piles: seq<Pile>, m: seq<Pile>, p: nat, b: nat)
  {
    && |piles| == PILES && |m| == PILES && p < PILES
    && |m[p]| <= |piles[p]| && m[p] == piles[p][..|m[p]|]
    && (forall k | |m[p]| <= k < |piles[p]| :: Rank(piles[p][k]) == b)
    && (forall r | 0 <= r < PILES && r != p && !(FOUND <= r < TAB) :: m[r] == piles[r])
    && (forall r | FOUND <= r < TAB && piles[r] != [] :: m[r] == piles[r])
  }

  lemma UncoverNone(piles: seq<Pile>, p: nat, b: nat)
    requires |piles| == PILES && p < PILES
    ensures Uncovered(piles, piles, p, b)
  {
  }

  lemma UncoverOne(piles: seq<Pile>, m: seq<Pile>, p: nat, b: nat, q: nat)
    requires Uncovered(piles, m, p, b) && !(FOUND <= p < TAB) && FOUND <= q < TAB && m[p] != [] && m[q] == []
    requires Rank(m[p][|m[p]| - 1]) == b
    ensures Uncovered(piles, Moved(m, p, q), p, b)
  {
    hide Rank;
    MovedPiles(m, p, q);
    var n := |m[p]| - 1;
    assert Moved(m, p, q)[p] == piles[p][..n];
    assert piles[p][n] == m[p][n];
  }

  lemma CleanUncovered(piles: seq<Pile>, m: seq<Pile>, p: nat, b: nat, n: nat)
    requires Uncovered(piles, m, p, b) && Clean(piles, b, n) && n <= 4
    ensures Clean(m, b, n)
    ensures TAB <= p == TAB + n && n < 4 && m[p] == [] ==> Clean(m, b, n + 1)
  {
    hide Rank;
  }

  lemma CleanMoved(piles: seq<Pile>, b: nat, p: nat, q: nat)
    requires Clean(piles, b, 4) && p < PILES && q < PILES && p != q && piles[p] != []
    requires q >= TAB ==> Rank(piles[p][|piles[p]| - 1]) != b
    ensures Clean(Moved(piles, p, q), b, 4)
  {
    hide Rank;
    MovedPiles(piles, p, q);
    var m := Moved(piles, p, q);
    forall r | TAB <= r < PILES ensures NoBase(m[r], b) {
      assert NoBase(piles[r], b);
    }
  }

  lemma CleanJoined(piles: seq<Pile>, b: nat, s: nat, d: nat)
    requires Clean(piles, b, 4) && TAB <= s < PILES && TAB <= d < PILES && s != d
    ensures Clean(Joined(piles, s, d), b, 4)
  {
    hide Rank;
    var m := Joined(piles, s, d);
    forall r | TAB <= r < PILES ensures NoBase(m[r], b) {
      assert NoBase(piles[r], b) && NoBase(piles[s], b);
    }
  }

  // ---- the deal ----

  /** `deck` lists every card once; `pos` is where each is. */
  ghost predicate IsDeck(deck: seq<nat>, pos: seq<nat>)
  {
    && |deck| == DECK && |pos| == DECK
    && (forall i | 0 <= i < DECK :: deck[i] < DECK && pos[deck[i]] == i)
    && (forall c | 0 <= c < DECK :: pos[c] < DECK && deck[pos[c]] == c)
  }

  lemma SwapDeck(deck: seq<nat>, pos: seq<nat>, i: nat, j: nat)
    requires IsDeck(deck, pos) && i < DECK && j < DECK
    ensures IsDeck(deck[i := deck[j]][j := deck[i]], pos[deck[i] := j][deck[j] := i])
  {
  }

  /** The card under the one dealt at place i. */
  function Under(deck: seq<nat>, i: nat): int
    requires |deck| == DECK && i < DECK
  {
    if 1 <= i <= 12 then deck[i - 1] else if 18 <= i <= 50 then deck[i + 1] else NIL
  }

  function Dealt(deck: seq<nat>): (r: seq<Pile>)
    requires |deck| == DECK
    ensures |r| == PILES
  {
    [deck[..13], [], seq(34, k requires 0 <= k < 34 => deck[51 - k]),
     [deck[13]], [], [], [],
     [deck[14]], [deck[15]], [deck[16]], [deck[17]]]
  }

  function PlaceOf(i: nat): (nat, nat)
  {
    if i < 13 then (STOCK, i) else if i == 13 then (FOUND, 0) else if i < 18 then (i - 14 + TAB, 0)
    else if i < DECK then (HAND, 51 - i) else (PILES, 0)
  }

  ghost function DealtLoc(pos: seq<nat>): seq<(nat, nat)>
  {
    seq(|pos|, c requires 0 <= c < |pos| => PlaceOf(pos[c]))
  }

  lemma DealtCard(deck: seq<nat>, i: nat)
    requires |deck| == DECK && i < DECK
    ensures At(Dealt(deck), PlaceOf(i).0, PlaceOf(i).1, deck[i])
  {
  }

  lemma DealtPlace(deck: seq<nat>, p: nat, k: nat) returns (i: nat)
    requires |deck| == DECK && p < PILES && k < |Dealt(deck)[p]|
    ensures i < DECK && PlaceOf(i) == (p, k) && Dealt(deck)[p][k] == deck[i]
  {
    i := if p == STOCK then k else if p == HAND then 51 - k else if p == FOUND then 13 else p - TAB + 14;
  }

  lemma DealtPlaced(deck: seq<nat>, pos: seq<nat>)
    requires IsDeck(deck, pos)
    ensures Placed(Dealt(deck), DealtLoc(pos))
  {
    hide Dealt, PlaceOf;
    var piles, loc := Dealt(deck), DealtLoc(pos);
    forall c | 0 <= c < DECK ensures At(piles, loc[c].0, loc[c].1, c) {
      DealtCard(deck, pos[c]);
    }
    forall p: nat, k: nat | p < PILES && k < |piles[p]| ensures piles[p][k] < DECK && loc[piles[p][k]] == (p, k) {
      var i := DealtPlace(deck, p, k);
    }
  }

  lemma DealtChained(deck: seq<nat>, next: seq<int>, p: nat)
    requires |deck| == DECK && |next| == DECK && p < PILES
    requires forall i | 0 <= i < DECK :: deck[i] < DECK && next[deck[i]] == Under(deck, i)
    ensures Chained(next, Dealt(deck)[p])
  {
    hide Under;
    var s := Dealt(deck)[p];
    forall k {:trigger s[k]} | 0 <= k < |s| ensures s[k] < DECK && next[s[k]] == Below(s, k) {
      var i := DealtPlace(deck, p, k);
      UnderBelow(deck, p, k, i);
    }
  }

  lemma UnderBelow(deck: seq<nat>, p: nat, k: nat, i: nat)
    requires |deck| == DECK && i < DECK && p < PILES && k < |Dealt(deck)[p]| && PlaceOf(i) == (p, k)
    ensures Under(deck, i) == Below(Dealt(deck)[p], k)
  {
  }

  function DealtTops(deck: seq<nat>): seq<int>
    requires |deck| == DECK
  {
    [deck[12] as int, NIL, deck[18] as int, deck[13] as int, NIL, NIL, NIL,
     deck[14] as int, deck[15] as int, deck[16] as int, deck[17] as int]
  }

  /** After the deal everything is in order. */
  lemma DealtLinked(deck: seq<nat>, pos: seq<nat>, next: seq<int>)
    requires IsDeck(deck, pos) && |next| == DECK && forall i | 0 <= i < DECK :: next[deck[i]] == Under(deck, i)
    ensures Linked(next, DealtTops(deck), Dealt(deck))
  {
    hide Under, Chained;
    forall p: nat | p < PILES ensures DealtTops(deck)[p] == Top(Dealt(deck)[p]) && Chained(next, Dealt(deck)[p]) {
      DealtChained(deck, next, p);
    }
  }

  lemma DealtRules(deck: seq<nat>, pos: seq<nat>)
    requires IsDeck(deck, pos)
    ensures Foundations(Dealt(deck), 0, Rank(deck[13]))
    ensures Tableaus(Dealt(deck), DealtLoc(pos), [deck[14] as int, deck[15] as int, deck[16] as int, deck[17] as int])
  {
    hide Rank, DealtLoc;
  }

  lemma DealtCounted(deck: seq<nat>)
    requires |deck| == DECK
    ensures Counted(Dealt(deck), [8, 8, 8, 8], 13, 0, 34, 1)
  {
  }

  lemma {:induction false} NoneCounted(s: seq<bool>)
    requires forall c | 0 <= c < |s| :: !s[c]
    ensures Count(s) == 0
  {
    if s != [] { NoneCounted(s[..|s| - 1]); }
  }

  /** A tableau of one card that is not of the base rank. */
  lemma FirstClean(piles: seq<Pile>, m: seq<Pile>, b: nat, n: nat)
    requires n < 4 && Uncovered(piles, m, TAB + n, b) && Clean(piles, b, n) && |piles[TAB + n]| <= 1 && TopClean(m[TAB + n], b)
    ensures Clean(m, b, n + 1)
    ensures forall r | TAB + n < r < PILES :: m[r] == piles[r]
  {
    hide Rank;
  }

  // ---- moves as relations between the piles before and after ----

  /** What may be put on tableau d: on cards the next lower of the other colour, on none the stock,
      and the talon once the stock is gone. */
  ghost predicate Legal(piles: seq<Pile>, p: nat, d: nat)
    requires |piles| == PILES && p < PILES && d < 4
  {
    && piles[p] != []
    && if piles[TAB + d] == [] then p == STOCK || piles[STOCK] == []
       else Fits(piles[p][|piles[p]| - 1], piles[TAB + d][|piles[TAB + d]| - 1])
  }

  ghost predicate Joinable(piles: seq<Pile>, s: nat, d: nat)
    requires |piles| == PILES && s < 4 && d < 4
  {
    && s != d && piles[TAB + s] != [] && piles[TAB + d] != []
    && Fits(piles[TAB + s][0], piles[TAB + d][|piles[TAB + d]| - 1])
  }

  /** The top card of p on the foundation that takes it; nothing if there is none. */
  ghost predicate PlayedOff(before: seq<Pile>, after: seq<Pile>, p: nat)
    requires |before| == PILES && p < PILES && !(FOUND <= p < TAB)
  {
    if exists q | FOUND <= q < TAB :: Takes(before, p, q)
    then exists q | FOUND <= q < TAB :: Takes(before, p, q) && after == Moved(before, p, q)
    else after == before
  }

  ghost predicate Takes(piles: seq<Pile>, p: nat, q: nat)
    requires |piles| == PILES && p < PILES && q < PILES
  {
    piles[p] != [] && Accepts(piles[q], piles[p][|piles[p]| - 1])
  }

  /** A command that moves from p, the tableau TAB + source or the stock or the talon. */
  ghost predicate Played(before: seq<Pile>, after: seq<Pile>, p: nat, source: nat, dest: char)
    requires |before| == PILES && source < 4 && (p == STOCK || p == TALON || p == TAB + source)
  {
    if dest == 'f' || dest == 'F' then PlayedOff(before, after, p)
    else if '1' <= dest <= '4' then
      var d := dest as int - '1' as int;
      if p < FOUND then after == (if Legal(before, p, d) then Moved(before, p, TAB + d) else before)
      else after == (if Joinable(before, source, d) then Joined(before, p, TAB + d) else before)
    else after == before
  }
}
