/** The table of the solitaire game of src/games/canfield.c: eleven piles of the 52 cards, kept as
    lists linked through the cards, and the rules the piles obey.

    A card is a number: its suit is card / 13 (spades, clubs, hearts, diamonds), its rank
    card % 13, the ace being 0.  Here a pile is a sequence with its top card last.
 */
module CanfieldTable {
  const NIL := -1
  const STOCK: nat := 0
  const TALON: nat := 1
  const HAND: nat := 2
  const FOUND: nat := 3    // and the three after it
  const TAB: nat := 7      // and the three after it
  const PILES: nat := 11
  const DECK: nat := 52

  type Pile = seq<nat>

  function Suit(c: nat): nat { c / 13 }

  function Rank(c: nat): (r: nat) ensures r < 13 { c % 13 }

  predicate Red(c: nat) { Suit(c) >= 2 }

  /** The next rank, an ace following a king. */
  function Up(r: nat): nat { if r == 12 then 0 else r + 1 }

  lemma CardIs(c: nat, d: nat)
    requires Suit(c) == Suit(d) && Rank(c) == Rank(d)
    ensures c == d
  {
  }

  function Top(s: Pile): int { if s == [] then NIL else s[|s| - 1] }

  function Below(s: Pile, k: nat): int
    requires k < |s|
  {
    if k == 0 then NIL else s[k - 1]
  }

  // ---- lists ----

  ghost predicate Chained(next: seq<int>, s: Pile)
  {
    |next| == DECK && forall k {:trigger s[k]} | 0 <= k < |s| :: s[k] < DECK && next[s[k]] == Below(s, k)
  }

  /** The linked lists are the piles. */
  ghost predicate Linked(next: seq<int>, top: seq<int>, piles: seq<Pile>)
  {
    && |next| == DECK && |top| == PILES && |piles| == PILES
    && forall p | 0 <= p < PILES :: top[p] == Top(piles[p]) && Chained(next, piles[p])
  }

  /** Every card is in one place: `loc` gives the pile and the position of each. */
  ghost predicate Placed(piles: seq<Pile>, loc: seq<(nat, nat)>)
  {
    && |piles| == PILES && |loc| == DECK
    && (forall c | 0 <= c < DECK :: At(piles, loc[c].0, loc[c].1, c))
    && (forall p, i | 0 <= p < PILES && 0 <= i < |piles[p]| :: piles[p][i] < DECK && loc[piles[p][i]] == (p, i))
  }

  ghost predicate At(piles: seq<Pile>, p: nat, i: nat, c: nat)
  {
    p < |piles| && i < |piles[p]| && piles[p][i] == c
  }

  /** The top card of p put on q. */
  ghost function Moved(piles: seq<Pile>, p: nat, q: nat): (r: seq<Pile>)
    requires p < |piles| && q < |piles| && p != q && piles[p] != []
    ensures |r| == |piles|
  {
    var n := |piles[p]| - 1;
    piles[p := piles[p][..n]][q := piles[q] + [piles[p][n]]]
  }

  ghost function MovedLoc(piles: seq<Pile>, loc: seq<(nat, nat)>, p: nat, q: nat): seq<(nat, nat)>
    requires p < |piles| && q < |piles| && piles[p] != [] && piles[p][|piles[p]| - 1] < |loc|
  {
    loc[piles[p][|piles[p]| - 1] := (q, |piles[q]|)]
  }

  lemma MovedPiles(piles: seq<Pile>, p: nat, q: nat)
    requires p < |piles| && q < |piles| && p != q && piles[p] != []
    ensures Moved(piles, p, q)[p] == piles[p][..|piles[p]| - 1]
    ensures Moved(piles, p, q)[q] == piles[q] + [piles[p][|piles[p]| - 1]]
    ensures forall r | 0 <= r < |piles| && r != p && r != q :: Moved(piles, p, q)[r] == piles[r]
  {
  }

  /** Two cards in different places are different. */
  lemma Apart(piles: seq<Pile>, loc: seq<(nat, nat)>, p: nat, i: nat, q: nat, j: nat)
    requires Placed(piles, loc) && p < PILES && q < PILES && i < |piles[p]| && j < |piles[q]|
    ensures piles[p][i] < DECK && piles[q][j] < DECK
    ensures piles[p][i] == piles[q][j] ==> p == q && i == j
  {
    assert loc[piles[p][i]] == (p, i) && loc[piles[q][j]] == (q, j);
  }

  lemma MovedPlaced(piles: seq<Pile>, loc: seq<(nat, nat)>, p: nat, q: nat)
    requires Placed(piles, loc) && p < PILES && q < PILES && p != q && piles[p] != []
    ensures piles[p][|piles[p]| - 1] < DECK && Placed(Moved(piles, p, q), MovedLoc(piles, loc, p, q))
  {
    var n := |piles[p]| - 1;
    var c := piles[p][n];
    var m, l := Moved(piles, p, q), MovedLoc(piles, loc, p, q);
    assert loc[c] == (p, n);
    forall d | 0 <= d < DECK ensures At(m, l[d].0, l[d].1, d) {
      assert At(piles, loc[d].0, loc[d].1, d);
    }
    forall r, i | 0 <= r < PILES && 0 <= i < |m[r]| ensures m[r][i] < DECK && l[m[r][i]] == (r, i) {
      if r == q && i == |piles[q]| {
        assert m[r][i] == c;
      } else {
        assert m[r][i] == piles[r][i];
        Apart(piles, loc, p, n, r, i);
      }
    }
  }

  lemma NotIn(piles: seq<Pile>, loc: seq<(nat, nat)>, p: nat, r: nat)
    requires Placed(piles, loc) && p < PILES && r < PILES && piles[p] != []
    ensures piles[p][|piles[p]| - 1] < DECK
    ensures piles[p][|piles[p]| - 1] !in if r == p then piles[p][..|piles[p]| - 1] else piles[r]
  {
    var n := |piles[p]| - 1;
    forall i | 0 <= i < |piles[r]| ensures piles[r][i] == piles[p][n] ==> r == p && i == n {
      Apart(piles, loc, p, n, r, i);
    }
    Apart(piles, loc, p, n, p, n);
  }

  lemma ChainSize(next: seq<int>, s: Pile)
    requires Chained(next, s)
    ensures |next| == DECK
  {
  }

  lemma ChainKeep(next: seq<int>, s: Pile, c: nat, v: int)
    requires Chained(next, s) && c < DECK && c !in s
    ensures Chained(next[c := v], s)
  {
    forall k | 0 <= k < |s| ensures next[c := v][s[k]] == Below(s, k) { assert s[k] in s; }
  }

  lemma ChainDrop(next: seq<int>, s: Pile)
    requires Chained(next, s) && s != []
    ensures Chained(next, s[..|s| - 1]) && next[s[|s| - 1]] == Top(s[..|s| - 1])
  {
  }

  lemma ChainPush(next: seq<int>, s: Pile, c: nat)
    requires Chained(next, s) && c < DECK && c !in s
    ensures Chained(next[c := Top(s)], s + [c])
  {
    ChainSize(next, s);
    hide Chained;
    ChainKeep(next, s, c, Top(s));
    ChainEnd(next[c := Top(s)], s, c);
  }

  lemma ChainEnd(next: seq<int>, s: Pile, c: nat)
    requires Chained(next, s) && c < DECK && next[c] == Top(s)
    ensures Chained(next, s + [c])
  {
  }

  /** What `transit` makes of the links. */
  lemma TransitLinked(next: seq<int>, top: seq<int>, piles: seq<Pile>, loc: seq<(nat, nat)>, p: nat, q: nat)
    requires Linked(next, top, piles) && Placed(piles, loc) && p < PILES && q < PILES && p != q && piles[p] != []
    ensures
      var c := top[p];
      0 <= c < DECK && Linked(next[c := top[q]], top[p := next[c]][q := c], Moved(piles, p, q))
  {
    hide Chained, Placed;
    var n := |piles[p]| - 1;
    var c := piles[p][n];
    var m := Moved(piles, p, q);
    NotIn(piles, loc, p, p);
    ChainDrop(next, piles[p]);
    var next' := next[c := top[q]];
    forall r | 0 <= r < PILES ensures (top[p := next[c]][q := c])[r] == Top(m[r]) && Chained(next', m[r]) {
      NotIn(piles, loc, p, r);
      if r == p {
        ChainKeep(next, piles[p][..n], c, top[q]);
      } else if r == q {
        ChainPush(next, piles[q], c);
      } else {
        ChainKeep(next, piles[r], c, top[q]);
      }
    }
  }

  // ---- a whole tableau put on another ----

  ghost function Joined(piles: seq<Pile>, s: nat, d: nat): (r: seq<Pile>)
    requires s < |piles| && d < |piles| && s != d
    ensures |r| == |piles|
  {
    piles[s := []][d := piles[d] + piles[s]]
  }

  ghost function JoinedLoc(piles: seq<Pile>, loc: seq<(nat, nat)>, s: nat, d: nat): seq<(nat, nat)>
    requires d < |piles|
  {
    seq(|loc|, c requires 0 <= c < |loc| => if loc[c].0 == s then (d, |piles[d]| + loc[c].1) else loc[c])
  }

  lemma JoinedPlaced(piles: seq<Pile>, loc: seq<(nat, nat)>, s: nat, d: nat)
    requires Placed(piles, loc) && s < PILES && d < PILES && s != d
    ensures Placed(Joined(piles, s, d), JoinedLoc(piles, loc, s, d))
  {
    var m, l := Joined(piles, s, d), JoinedLoc(piles, loc, s, d);
    forall c | 0 <= c < DECK ensures At(m, l[c].0, l[c].1, c) {
      assert At(piles, loc[c].0, loc[c].1, c);
    }
    forall r, i | 0 <= r < PILES && 0 <= i < |m[r]| ensures m[r][i] < DECK && l[m[r][i]] == (r, i) {
      if r == d && i >= |piles[d]| {
        assert m[r][i] == piles[s][i - |piles[d]|];
      } else {
        assert m[r][i] == piles[r][i];
      }
    }
  }

  /** The bottom card of s linked to the top of d. */
  lemma JoinedLinked(next: seq<int>, top: seq<int>, piles: seq<Pile>, loc: seq<(nat, nat)>, s: nat, d: nat)
    requires Linked(next, top, piles) && Placed(piles, loc) && s < PILES && d < PILES && s != d && piles[s] != []
    ensures
      var c := piles[s][0];
      c < DECK && Linked(next[c := top[d]], top[d := top[s]][s := NIL], Joined(piles, s, d))
  {
    hide Chained, Placed;
    var c := piles[s][0];
    var m := Joined(piles, s, d);
    BottomNotIn(piles, loc, s, s);
    var next' := next[c := top[d]];
    forall r | 0 <= r < PILES ensures (top[d := top[s]][s := NIL])[r] == Top(m[r]) && Chained(next', m[r]) {
      BottomNotIn(piles, loc, s, r);
      if r == s {
        NoChain(next');
      } else {
        ChainKeep(next, piles[r], c, top[d]);
        if r == d { ChainJoin(next, next', piles[d], piles[s]); }
      }
    }
  }

  lemma NoChain(next: seq<int>)
    requires |next| == DECK
    ensures Chained(next, [])
  {
  }

  lemma ChainJoin(next: seq<int>, next': seq<int>, x: Pile, y: Pile)
    requires Chained(next', x) && Chained(next, y) && y != [] && y[0] < DECK && y[0] !in y[1..] && next' == next[y[0] := Top(x)]
    ensures Chained(next', x + y)
  {
    forall k {:trigger (x + y)[k]} | 0 <= k < |x + y| ensures (x + y)[k] < DECK && next'[(x + y)[k]] == Below(x + y, k) {
      if k < |x| {
        assert (x + y)[k] == x[k];
      } else if k == |x| {
        assert (x + y)[k] == y[0];
      } else {
        assert (x + y)[k] == y[k - |x|] == y[1..][k - |x| - 1];
        assert y[k - |x|] in y[1..];
      }
    }
  }

  lemma BottomNotIn(piles: seq<Pile>, loc: seq<(nat, nat)>, s: nat, r: nat)
    requires Placed(piles, loc) && s < PILES && r < PILES && piles[s] != []
    ensures piles[s][0] < DECK
    ensures piles[s][0] !in if r == s then piles[s][1..] else piles[r]
  {
    forall i | 0 <= i < |piles[r]| ensures piles[r][i] == piles[s][0] ==> r == s && i == 0 {
      Apart(piles, loc, s, 0, r, i);
    }
    Apart(piles, loc, s, 0, s, 0);
  }

  /** Every card of the deck is in exactly one place. */
  lemma EachOnce(piles: seq<Pile>, loc: seq<(nat, nat)>, c: nat) returns (p: nat, i: nat)
    requires Placed(piles, loc) && c < DECK
    ensures At(piles, p, i, c)
    ensures forall q: nat, j: nat | At(piles, q, j, c) :: q == p && j == i
  {
    p, i := loc[c].0, loc[c].1;
    assert At(piles, p, i, c);
    forall q: nat, j: nat | At(piles, q, j, c) ensures q == p && j == i {
      Apart(piles, loc, p, i, q, j);
    }
  }
}
