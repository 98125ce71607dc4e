/** The game engine of src/games/canfield.c: the linked piles, the counters and the betting, driven by
    any sequence of commands.  Screen output and thinking time are not part of the model. */
module Canfield {
  import opened Basics
  import opened CanfieldTable
  import opened CanfieldRules

  const INSPECTION_COST := 13
  const GAME_COST := 26
  const RUN_COST := 5
  const INFORMATION_COST := 1
  const CARD_VALUE := 5
  const TABLEAU_ROW := 8

  /** A command, with the answers to give if the program asks. */
  datatype Command = Command(src: char, dest: char, inspect: bool, buy: bool)

  class Game {
    var next: seq<int>
    var top: seq<int>
    var bottom: seq<int>
    var length: seq<int>
    var visible: seq<bool>
    var paid: seq<bool>
    var stockcnt: int
    var taloncnt: int
    var cinhand: int
    var cardsoff: int
    var base: int
    var basecard: nat
    var timesthru: int
    var cflag: bool
    var betting: bool
    var startedgame: bool
    var infullgame: bool
    var done: bool
    var information: int
    var inspection: int
    var game: int
    var runs: int
    var wins: int
    ghost var piles: seq<Pile>
    ghost var loc: seq<(nat, nat)>

    /** The lists are the piles, every card is in one place, and the piles obey the rules. */
    ghost predicate Board()
      reads this`next, this`top, this`bottom, this`base, this`basecard, this`piles, this`loc
    {
      Lists() && Foundations(piles, base, Rank(basecard))
    }

    ghost predicate Lists()
      reads this`next, this`top, this`bottom, this`piles, this`loc
    {
      Linked(next, top, piles) && Placed(piles, loc) && Tableaus(piles, loc, bottom)
    }

    ghost predicate Counters()
      reads this`length, this`stockcnt, this`taloncnt, this`cinhand, this`cardsoff, this`piles
    {
      Counted(piles, length, stockcnt, taloncnt, cinhand, cardsoff)
    }

    ghost predicate Seen()
      reads this`visible, this`paid, this`information
    {
      Informed(visible, paid, information)
    }

    /** Five dollars for each card on the foundations once the game is bought, nothing before. */
    ghost predicate Winnings()
      reads this`wins, this`infullgame, this`cardsoff
    {
      wins == if infullgame then 5 * cardsoff else 0
    }

    ghost predicate Valid()
      reads this`next, this`top, this`bottom, this`base, this`basecard, this`piles, this`loc, this`length,
            this`stockcnt, this`taloncnt, this`cinhand, this`cardsoff, this`visible, this`paid,
            this`information, this`wins, this`infullgame
    {
      Board() && Counters() && Seen() && Winnings()
    }

    /** What holds whenever a command is asked for. */
    ghost predicate Ready()
      reads this`next, this`top, this`bottom, this`base, this`basecard, this`piles, this`loc, this`length,
            this`stockcnt, this`taloncnt, this`cinhand, this`cardsoff, this`visible, this`paid,
            this`information, this`wins, this`infullgame
    {
      && Valid() && Clean(piles, Rank(basecard), 4)
      && TopClean(piles[STOCK], Rank(basecard)) && TopClean(piles[TALON], Rank(basecard))
    }

    lemma Sizes()
      requires Lists()
      ensures |next| == DECK && |top| == PILES && |piles| == PILES && |bottom| == 4
    {
    }

    lemma Shape()
      requires Lists()
      ensures |next| == DECK && |top| == PILES && |piles| == PILES && |bottom| == 4
      ensures forall p | 0 <= p < PILES :: top[p] == Top(piles[p])
      ensures forall p | 0 <= p < PILES && piles[p] != [] :: 0 <= top[p] < DECK
    {
      hide Ascends, Descends, Rank;
      forall p | 0 <= p < PILES && piles[p] != [] ensures 0 <= top[p] < DECK {
        Apart(piles, loc, p, |piles[p]| - 1, p, |piles[p]| - 1);
      }
    }

    lemma TopIs(p: nat)
      requires Lists() && p < PILES
      ensures |top| == PILES && |piles| == PILES && top[p] == Top(piles[p]) && (piles[p] != [] ==> 0 <= top[p] < DECK)
    {
      hide Tableaus;
      if piles[p] != [] { Apart(piles, loc, p, |piles[p]| - 1, p, |piles[p]| - 1); }
    }

    /** `transit` */
    method Transit(p: nat, q: nat)
      requires Linked(next, top, piles) && Placed(piles, loc) && p < PILES && q < PILES && p != q && piles[p] != []
      modifies this`next, this`top, this`piles, this`loc
      ensures Linked(next, top, piles) && Placed(piles, loc)
      ensures piles == Moved(old(piles), p, q)
      ensures old(piles[p][|piles[p]| - 1]) < DECK && loc == MovedLoc(old(piles), old(loc), p, q)
    {
      MovedPlaced(piles, loc, p, q);
      TransitLinked(next, top, piles, loc, p, q);
      hide Placed, Moved, MovedLoc;
      var temp := top[p];
      top := top[p := next[temp]];
      next := next[temp := top[q]];
      top := top[q := temp];
      piles, loc := Moved(piles, p, q), MovedLoc(piles, loc, p, q);
    }

    /** `usedtalon` */
    method UsedTalon()
      requires Linked(next, top, piles) && Placed(piles, loc) && Seen()
      modifies this`visible, this`paid, this`information, this`taloncnt
      ensures Seen() && taloncnt == old(taloncnt) - 1 && |top| == PILES
      ensures Glimpsed(top[TALON], cflag, old(visible), old(paid), old(information), visible, paid, information)
    {
      var c := top[TALON];
      if piles[TALON] != [] { Apart(piles, loc, TALON, |piles[TALON]| - 1, TALON, |piles[TALON]| - 1); }
      hide Placed, Informed;
      InformedSizes(visible, paid, information);
      if c != NIL && !visible[c] {
        Show(visible, paid, information, c);
        visible := visible[c := true];
        if cflag {
          Pay(visible, paid, information, c, INFORMATION_COST);
          information := information + INFORMATION_COST;
          paid := paid[c := true];
        }
      }
      taloncnt := taloncnt - 1;
    }

    /** `usedstock` */
    method UsedStock()
      modifies this`stockcnt
      ensures stockcnt == old(stockcnt) - 1
    {
      stockcnt := stockcnt - 1;
    }

    /** The counter of the stock or the talon after a card of it is played. */
    method Used(origin: nat)
      requires Linked(next, top, piles) && Placed(piles, loc) && Seen()
      modifies this`visible, this`paid, this`information, this`taloncnt, this`stockcnt
      ensures Seen() && stockcnt == (if origin == STOCK then old(stockcnt) - 1 else old(stockcnt))
      ensures taloncnt == if origin == TALON then old(taloncnt) - 1 else old(taloncnt)
    {
      hide Linked, Placed, Informed;
      if origin == STOCK {
        UsedStock();
      } else if origin == TALON {
        UsedTalon();
      }
    }

    /** A card taken off p to a foundation, with the counters of p and the winnings.  The length of a
        tableau is brought up to date by the caller. */
    method TakeOff(p: nat, q: nat, origin: nat)
      requires Lists() && Seen() && Winnings()
      requires p < PILES && !(FOUND <= p < TAB) && p != HAND && FOUND <= q < TAB && piles[p] != []
      requires (origin == STOCK <==> p == STOCK) && (origin == TALON <==> p == TALON) && |length| == 4
      requires Counted(piles, if p >= TAB then length[p - TAB := length[p - TAB] + 1] else length,
                       stockcnt, taloncnt, cinhand, cardsoff)
      modifies this`next, this`top, this`piles, this`loc, this`visible, this`paid, this`information,
               this`taloncnt, this`stockcnt, this`cardsoff, this`wins
      ensures Lists() && Counters() && Seen() && Winnings()
      ensures piles == Moved(old(piles), p, q)
    {
      hide Game.Seen, Linked, Placed, Foundations, Tableaus, Moved, MovedLoc, Counted, Rank;
      ghost var l := if p >= TAB then length[p - TAB := length[p - TAB] + 1] else length;
      CountedFound(piles, l, stockcnt, taloncnt, cinhand, cardsoff, p, q);
      assert length == if p >= TAB then l[p - TAB := l[p - TAB] - 1] else l;
      TableauPop(piles, loc, bottom, p, q);
      Transit(p, q);
      Used(origin);
      cardsoff := cardsoff + 1;
      if infullgame { wins := wins + CARD_VALUE; }
    }

    /** The tops of different piles are different cards. */
    lemma TopsDiffer(p: nat, q: nat)
      requires Lists() && p < PILES && q < PILES && piles[p] != []
      ensures |top| == PILES && (top[p] == top[q] <==> p == q)
    {
      hide Tableaus;
      if piles[q] != [] { Apart(piles, loc, p, |piles[p]| - 1, q, |piles[q]| - 1); }
    }

    /** The length of the tableau whose top card is the card about to go. */
    method Shrink(p: nat)
      requires Lists() && Counters() && p < PILES && piles[p] != []
      modifies this`length
      ensures |length| == 4 == |old(length)|
      ensures length == if p >= TAB then old(length)[p - TAB := old(length)[p - TAB] - 1] else old(length)
    {
      hide Game.Lists, Counted;
      CountedSizes(piles, length, stockcnt, taloncnt, cinhand, cardsoff);
      TopsDiffer(p, TAB);
      TopsDiffer(p, TAB + 1);
      TopsDiffer(p, TAB + 2);
      TopsDiffer(p, TAB + 3);
      if top[p] == top[TAB] { length := length[0 := length[0] - 1]; }
      if top[p] == top[TAB + 1] { length := length[1 := length[1] - 1]; }
      if top[p] == top[TAB + 2] { length := length[2 := length[2] - 1]; }
      if top[p] == top[TAB + 3] { length := length[3 := length[3] - 1]; }
    }

    /** `fndbase`: cards of the base rank on top of p begin new foundations. */
    method FndBase(p: nat)
      requires Valid() && p < PILES && !(FOUND <= p < TAB) && p != HAND
      modifies this`next, this`top, this`piles, this`loc, this`visible, this`paid, this`information,
               this`taloncnt, this`stockcnt, this`length, this`cardsoff, this`wins, this`base
      ensures Valid() && Uncovered(old(piles), piles, p, Rank(basecard)) && TopClean(piles[p], Rank(basecard))
    {
      hide Linked, Placed, Foundations, Tableaus, Moved, MovedLoc, Informed, Counted, Rank, Uncovered;
      Shape();
      UncoverNone(piles, p, Rank(basecard));
      if top[p] == NIL {
        return;
      }
      var nomore := false;
      while !nomore
        invariant Valid() && Uncovered(old(piles), piles, p, Rank(basecard)) && |piles| == PILES
        invariant if nomore then TopClean(piles[p], Rank(basecard)) else piles[p] != []
        decreases |piles[p]|, !nomore
      {
        Shape();
        var c := top[p];
        if Rank(c) == Rank(basecard) {
          RoomForBase(piles, loc, base, Rank(basecard), p);
          FoundBegin(piles, base, Rank(basecard), p);
          UncoverNext(old(piles), piles, p, base, Rank(basecard));
          base := base + 1;
          ghost var l := length;
          Shrink(p);
          assert l == if p >= TAB then length[p - TAB := length[p - TAB] + 1] else length;
          TakeOff(p, FOUND + base, p);
          Shape();
          nomore := top[p] == NIL;
        } else {
          nomore := true;
        }
      }
    }

    /** `tabok`, for the card cp and the tableau d. */
    method TabOk(cp: nat, d: nat) returns (ok: bool)
      requires Lists() && cp < DECK && d < 4
      ensures piles[TAB + d] != [] ==> (ok <==> Fits(cp, piles[TAB + d][|piles[TAB + d]| - 1]))
      ensures piles[TAB + d] == [] ==> (ok <==> cp == top[STOCK] || (piles[STOCK] == [] && forall i | 0 <= i < 4 :: cp != bottom[i]))
    {
      Shape();
      hide Linked, Placed, Tableaus;
      var t := top[TAB + d];
      if cp == top[STOCK] && t == NIL {
        ok := true;
      } else if t == NIL {
        ok := top[STOCK] == NIL && cp != bottom[0] && cp != bottom[1] && cp != bottom[2] && cp != bottom[3];
      } else {
        ok := RankLower(cp, t) && Red(cp) != Red(t);
      }
    }

    /** A card on the stock or the talon is not the bottom of any tableau, nor was. */
    lemma NotBottom(p: nat)
      requires Lists() && p < FOUND && piles[p] != []
      ensures forall i | 0 <= i < 4 :: top[p] != bottom[i]
    {
      hide Descends;
      var n := |piles[p]| - 1;
      forall i | 0 <= i < 4 ensures top[p] != bottom[i] {
        assert Tableau(piles[TAB + i], loc, bottom[i]);
        Apart(piles, loc, p, n, p, n);
        assert loc[piles[p][n]] == (p, n);
        if piles[TAB + i] != [] { Apart(piles, loc, p, n, TAB + i, 0); }
      }
    }

    /** `simpletableau`: the top card of the stock or the talon goes to tableau d if that is legal. */
    method SimpleTableau(p: nat, d: nat) returns (ok: bool)
      requires Valid() && (p == STOCK || p == TALON) && d < 4
      modifies this`next, this`top, this`piles, this`loc, this`visible, this`paid, this`information,
               this`taloncnt, this`stockcnt, this`length, this`bottom, this`timesthru
      ensures Valid() && |old(piles)| == PILES && (ok <==> Legal(old(piles), p, d))
      ensures piles == if ok then Moved(old(piles), p, TAB + d) else old(piles)
      ensures timesthru == if ok then 0 else old(timesthru)
    {
      hide Linked, Placed, Foundations, Tableaus, Moved, Informed, Counted, Fits, Rank;
      Shape();
      if top[p] == NIL { return false; }
      ok := Allowed(p, d);
      if !ok { return; }
      TopsDiffer(p, STOCK);
      var origin := if top[p] == top[STOCK] then STOCK else TALON;
      PutOn(p, d, origin);
    }

    /** For a card of the stock or the talon `tabok` says what the rules say. */
    method Allowed(p: nat, d: nat) returns (ok: bool)
      requires Lists() && (p == STOCK || p == TALON) && d < 4 && piles[p] != []
      ensures ok <==> Legal(piles, p, d)
    {
      Shape();
      TopsDiffer(p, STOCK);
      NotBottom(p);
      hide Game.Lists, Fits;
      ok := TabOk(top[p], d);
    }

    /** The move of `simpletableau`. */
    method PutOn(p: nat, d: nat, origin: nat)
      requires Valid() && (p == STOCK || p == TALON) && d < 4 && origin == p && Legal(piles, p, d)
      modifies this`next, this`top, this`piles, this`loc, this`visible, this`paid, this`information,
               this`taloncnt, this`stockcnt, this`length, this`bottom, this`timesthru
      ensures Valid() && |old(piles)| == PILES && piles == Moved(old(piles), p, TAB + d) && timesthru == 0
    {
      hide Game.Seen, Linked, Placed, Foundations, Tableaus, Rank, Legal, Moved, Counted;
      CountedSizes(piles, length, stockcnt, taloncnt, cinhand, cardsoff);
      PileThere(piles, p, d);
      CountedTableau(piles, length, stockcnt, taloncnt, cinhand, cardsoff, p, d);
      length := length[d := length[d] + 1];
      timesthru := 0;
      PutCard(p, d);
      Used(origin);
    }

    method PutCard(p: nat, d: nat)
      requires Board() && |piles| == PILES && (p == STOCK || p == TALON) && d < 4 && Legal(piles, p, d)
      modifies this`next, this`top, this`piles, this`loc, this`bottom
      ensures Board() && |old(piles)| == PILES && Legal(old(piles), p, d) && piles == Moved(old(piles), p, TAB + d)
    {
      hide Linked, Placed, Foundations, Tableaus, Moved, MovedLoc, Rank, Red;
      Sizes();
      TopIs(p);
      TopIs(TAB + d);
      TableauPush(piles, loc, bottom, base, Rank(basecard), p, d);
      if top[TAB + d] == NIL { bottom := bottom[d := top[p]]; }
      Transit(p, TAB + d);
    }

    /** `tabtotab`: a whole tableau goes onto another; to an empty one, or onto itself, never. */
    method TabToTab(s: nat, d: nat) returns (ok: bool)
      requires Valid() && Clean(piles, Rank(basecard), 4) && s < 4 && d < 4
      modifies this`next, this`top, this`piles, this`loc, this`length, this`bottom, this`timesthru
      ensures Valid() && |old(piles)| == PILES
      ensures ok <==> Joinable(old(piles), s, d)
      ensures piles == if ok then Joined(old(piles), TAB + s, TAB + d) else old(piles)
      ensures timesthru == if ok then 0 else old(timesthru)
    {
      hide Linked, Placed, Foundations, Tableaus, Joined, Informed, Counted, Fits, Rank, Clean;
      Shape();
      BottomOf(s);
      if top[TAB + s] == NIL { return false; }
      NeverItself(s);
      TopsDiffer(TAB + s, STOCK);
      BottomNotStock(s);
      ok := TabOk(bottom[s], d);
      if !ok { return; }
      Join(s, d);
    }

    /** The move of `tabtotab`. */
    method Join(s: nat, d: nat)
      requires Valid() && s < 4 && d < 4 && s != d && piles[TAB + s] != [] && piles[TAB + d] != []
      requires Fits(piles[TAB + s][0], piles[TAB + d][|piles[TAB + d]| - 1])
      modifies this`next, this`top, this`piles, this`loc, this`length, this`bottom, this`timesthru
      ensures Valid() && |old(piles)| == PILES && piles == Joined(old(piles), TAB + s, TAB + d) && timesthru == 0
    {
      hide Game.Board, Game.Seen, Game.Winnings, Joined, Counted, Fits;
      CountedSizes(piles, length, stockcnt, taloncnt, cinhand, cardsoff);
      CountedJoin(piles, length, stockcnt, taloncnt, cinhand, cardsoff, s, d);
      length := length[d := length[d] + (length[s] - (TABLEAU_ROW - 1))][s := TABLEAU_ROW - 1];
      timesthru := 0;
      JoinLists(s, d);
    }

    method JoinLists(s: nat, d: nat)
      requires Board() && |piles| == PILES && s < 4 && d < 4 && s != d && piles[TAB + s] != [] && piles[TAB + d] != []
      requires Fits(piles[TAB + s][0], piles[TAB + d][|piles[TAB + d]| - 1])
      modifies this`next, this`top, this`piles, this`loc, this`bottom
      ensures Board() && |old(piles)| == PILES && piles == Joined(old(piles), TAB + s, TAB + d)
    {
      hide Linked, Placed, Foundations, Tableaus, Joined, JoinedLoc, Rank, Red;
      Sizes();
      BottomOf(s);
      BottomOf(d);
      TableauJoin(piles, loc, bottom, base, Rank(basecard), s, d);
      JoinedPlaced(piles, loc, TAB + s, TAB + d);
      JoinedLinked(next, top, piles, loc, TAB + s, TAB + d);
      var temp := bottom[s];
      bottom := bottom[s := NIL];
      if bottom[d] == NIL { assert false; }  // the bottom card of a tableau with cards is known
      next := next[temp := top[TAB + d]];
      top := top[TAB + d := top[TAB + s]];
      top := top[TAB + s := NIL];
      piles, loc := Joined(piles, TAB + s, TAB + d), JoinedLoc(piles, loc, TAB + s, TAB + d);
    }

    lemma BottomOf(s: nat)
      requires Lists() && s < 4
      ensures piles[TAB + s] != [] ==> bottom[s] == piles[TAB + s][0] && 0 <= bottom[s] < DECK
    {
      hide Descends;
      assert Tableau(piles[TAB + s], loc, bottom[s]);
      if piles[TAB + s] != [] { Apart(piles, loc, TAB + s, 0, TAB + s, 0); }
    }

    lemma BottomNotStock(s: nat)
      requires Lists() && s < 4 && piles[TAB + s] != []
      ensures bottom[s] != top[STOCK]
    {
      BottomOf(s);
      hide Tableaus;
      if piles[STOCK] != [] { Apart(piles, loc, TAB + s, 0, STOCK, |piles[STOCK]| - 1); }
    }

    lemma NeverItself(s: nat)
      requires Lists() && s < 4 && piles[TAB + s] != [] && Clean(piles, Rank(basecard), 4)
      ensures !Fits(piles[TAB + s][0], piles[TAB + s][|piles[TAB + s]| - 1])
    {
      hide Rank, Red, Linked, Placed, Descends, NoBase;
      assert Tableau(piles[TAB + s], loc, bottom[s]);
      RankUp(0, basecard);
      NotOntoItself(piles[TAB + s], Rank(basecard));
    }

    /** `movetofound`: the top card of p goes to the foundation that takes it, if there is one. */
    method MoveToFound(p: nat, source: nat) returns (ok: bool, q: nat)
      requires Valid() && source < 4 && (p == STOCK || p == TALON || p == TAB + source)
      modifies this`next, this`top, this`piles, this`loc, this`visible, this`paid, this`information,
               this`taloncnt, this`stockcnt, this`length, this`cardsoff, this`wins, this`timesthru
      ensures Valid() && |old(piles)| == PILES
      ensures ok ==> FOUND <= q < TAB && Takes(old(piles), p, q) && piles == Moved(old(piles), p, q)
      ensures !ok ==> piles == old(piles) && forall r | FOUND <= r < TAB :: !Takes(old(piles), p, r)
      ensures timesthru == if ok then 0 else old(timesthru)
    {
      hide Linked, Placed, Foundations, Tableaus, Moved, Informed, Counted, Rank, Suit, Accepts;
      Shape();
      ok, q := false, FOUND;
      if top[p] == NIL { return; }
      q := Taker(p);
      if q != TAB {
        TopsDiffer(p, STOCK);
        TopsDiffer(p, TALON);
        var origin := if top[p] == top[STOCK] then STOCK else if top[p] == top[TALON] then TALON else TAB;
        ToFound(p, q, origin, source);
        ok := true;
      }
    }

    /** The search of `movetofound`: the first foundation that takes the card. */
    method Taker(p: nat) returns (q: nat)
      requires Lists() && p < PILES && piles[p] != []
      ensures FOUND <= q <= TAB && forall r | FOUND <= r < q :: !Accepts(piles[r], piles[p][|piles[p]| - 1])
      ensures q < TAB ==> Accepts(piles[q], piles[p][|piles[p]| - 1])
    {
      hide Game.Lists, Rank, Suit, Accepts, RankHigher;
      Sizes();
      TopIs(p);
      q := FOUND;
      while q != TAB
        invariant FOUND <= q <= TAB && forall r | FOUND <= r < q :: !Accepts(piles[r], piles[p][|piles[p]| - 1])
      {
        TopIs(q);
        Taking(piles[q], top[p]);
        if top[q] != NIL && RankHigher(top[p], top[q]) && Suit(top[p]) == Suit(top[q]) { return; }
        q := q + 1;
      }
    }

    /** The move of `movetofound`. */
    method ToFound(p: nat, q: nat, origin: nat, source: nat)
      requires Valid() && source < 4 && (p == STOCK || p == TALON || p == TAB + source) && FOUND <= q < TAB
      requires origin == (if p < FOUND then p else TAB) && piles[p] != [] && Accepts(piles[q], piles[p][|piles[p]| - 1])
      modifies this`next, this`top, this`piles, this`loc, this`visible, this`paid, this`information,
               this`taloncnt, this`stockcnt, this`length, this`cardsoff, this`wins, this`timesthru
      ensures Valid() && |old(piles)| == PILES && piles == Moved(old(piles), p, q) && timesthru == 0
    {
      hide Linked, Placed, Foundations, Tableaus, Moved, Informed, Counted, Rank, Suit;
      CountedSizes(piles, length, stockcnt, taloncnt, cinhand, cardsoff);
      FoundPush(piles, base, Rank(basecard), p, q - FOUND);
      timesthru := 0;
      ghost var l := length;
      if origin == TAB {
        length := length[source := length[source] - 1];
        assert l == length[p - TAB := length[p - TAB] + 1];
      }
      TakeOff(p, q, origin);
    }

    // ---- showing cards ----

    /** A visible card not paid for is charged. */
    method PayCard(c: nat)
      requires Seen() && c < DECK
      modifies this`paid, this`information
      ensures Seen() && |visible| == DECK && |old(paid)| == DECK
      ensures paid == if visible[c] then old(paid)[c := true] else old(paid)
      ensures information - old(information) == Count(paid) - Count(old(paid))
    {
      hide Informed, Count;
      InformedSizes(visible, paid, information);
      if !paid[c] && visible[c] {
        CountSet(paid, c);
        Pay(visible, paid, information, c, INFORMATION_COST);
        paid := paid[c := true];
        information := information + INFORMATION_COST;
      }
      assert visible[c] && old(paid)[c] ==> old(paid)[c := true] == old(paid);
    }

    /** A walk of `showstat` along a pile: every card that is visible is paid for. */
    method PayPile(p: nat)
      requires Linked(next, top, piles) && Seen() && p < PILES
      modifies this`paid, this`information
      ensures Seen() && Paying(old(paid), old(information), paid, information, visible, piles[p], 0)
    {
      hide Informed, Linked, Walk, Paying;
      WalkStart(next, top, piles, p);
      var ptr := top[p];
      ghost var k: nat, s := |piles[p]|, piles[p];
      PayingStart(paid, visible, information, s);
      while ptr != NIL
        invariant Walk(next, s, k, ptr) && Seen() && Paying(old(paid), old(information), paid, information, visible, s, k)
        decreases k
      {
        WalkStep(next, s, k, ptr);
        PayingStep(old(paid), old(information), paid, information, visible, s, k);
        PayCard(ptr);
        ptr := next[ptr];
        k := k - 1;
      }
      WalkEnd(next, s, k);
    }

    /** `showstat` */
    method ShowStat()
      requires Linked(next, top, piles) && Seen()
      modifies this`paid, this`information
      ensures Seen() && information - old(information) == Count(paid) - Count(old(paid))
      ensures !cflag ==> paid == old(paid)
      ensures cflag ==> |old(paid)| == DECK && Set(old(paid), paid, visible, piles[TALON] + piles[HAND])
    {
      hide Linked, Informed, Count;
      InformedSizes(visible, paid, information);
      if !cflag { return; }
      LinkedSize(next, top, piles);
      PayPile(TALON);
      PayPile(HAND);
      Ends(piles[TALON]);
      Ends(piles[HAND]);
    }

    method ShowCard(c: nat)
      requires Seen() && c < DECK
      modifies this`visible, this`paid
      ensures Seen() && |old(visible)| == DECK && |old(paid)| == DECK
      ensures visible == old(visible)[c := true] && paid == old(paid)[c := true]
    {
      hide Informed;
      InformedSizes(visible, paid, information);
      Show(visible, paid, information, c);
      visible := visible[c := true];
      Pay(visible, paid, information, c, 0);
      paid := paid[c := true];
    }

    method ShowPile(p: nat)
      requires Linked(next, top, piles) && Seen() && p < PILES
      modifies this`visible, this`paid
      ensures Seen() && |old(paid)| == DECK && |old(visible)| == DECK
      ensures Shown(old(paid), paid, old(visible), visible, piles[p])
    {
      hide Informed, Linked, Walk, Shown, From;
      InformedSizes(visible, paid, information);
      WalkStart(next, top, piles, p);
      var ptr := top[p];
      ghost var k: nat, s := |piles[p]|, piles[p];
      Ends(s);
      NothingShown(paid, visible);
      while ptr != NIL
        invariant Walk(next, s, k, ptr) && k <= |s| && Seen() && Shown(old(paid), paid, old(visible), visible, From(s, k))
        decreases k
      {
        WalkStep(next, s, k, ptr);
        ShownNext(old(paid), paid, old(visible), visible, s, k);
        ShowCard(ptr);
        ptr := next[ptr];
        k := k - 1;
      }
      WalkEnd(next, s, k);
    }

    /** `showcards`: at the end the cards of the talon and the hand are shown, and not charged for. */
    method ShowCards()
      requires Linked(next, top, piles) && Seen()
      modifies this`visible, this`paid, this`information
      ensures Seen() && information == old(information)
      ensures |visible| == DECK && |paid| == DECK
      ensures cflag && cardsoff != DECK ==>
        forall c | 0 <= c < DECK && c in piles[TALON] + piles[HAND] :: visible[c] && paid[c]
    {
      hide Informed, Count;
      InformedSizes(visible, paid, information);
      if !cflag || cardsoff == DECK { return; }
      LinkedSize(next, top, piles);
      ShowPile(TALON);
      ShowPile(HAND);
      hide Linked;
      InformedSizes(visible, paid, information);
      ghost var before := paid;
      ShowStat();
      InformedSizes(visible, paid, information);
      assert paid == before;
    }

    // ---- dealing ----

    /** The talon becomes the hand. */
    method Refill()
      requires Board() && Counters()
      modifies this`next, this`top, this`piles, this`loc, this`taloncnt, this`cinhand
      ensures Board() && Counters() && |old(piles)| == PILES
      ensures piles == MovedN(old(piles), TALON, HAND, |old(piles)[TALON]|)
    {
      hide Linked, Placed, Foundations, Tableaus, Moved, MovedLoc, Counted, Rank, MovedN;
      CountedSizes(piles, length, stockcnt, taloncnt, cinhand, cardsoff);
      MovedNone(piles, TALON, HAND);
      ghost var i: nat, left := 0, taloncnt;
      TopIs(TALON);
      while top[TALON] != NIL
        invariant Board() && Counted(piles, length, stockcnt, left, cinhand, cardsoff) && |piles| == PILES && |top| == PILES
        invariant left == |piles[TALON]| == |old(piles)[TALON]| - i && piles == MovedN(old(piles), TALON, HAND, i)
        invariant top[TALON] == NIL <==> piles[TALON] == []
        decreases left
      {
        MovedNext(old(piles), TALON, HAND, i);
        MovedPiles(piles, TALON, HAND);
        AwayMove(piles, loc, bottom, base, Rank(basecard), TALON, HAND);
        CountedAway(piles, length, stockcnt, left, cinhand, cardsoff, TALON, HAND);
        Transit(TALON, HAND);
        TopIs(TALON);
        cinhand := cinhand + 1;
        i, left := i + 1, left - 1;
      }
      taloncnt := 0;
    }

    /** The dealing loop: fin cards from the hand to the talon, of which the last is seen. */
    method Deal(fin: nat)
      requires Board() && Counters() && Seen() && |piles| == PILES && fin <= |piles[HAND]|
      modifies this`next, this`top, this`piles, this`loc, this`taloncnt, this`cinhand, this`visible, this`paid, this`information
      ensures Board() && Counters() && Seen() && |old(piles)| == PILES && piles == MovedN(old(piles), HAND, TALON, fin)
      ensures fin > 0 ==> |visible| == DECK && 0 <= top[TALON] < DECK && visible[top[TALON]]
    {
      hide Linked, Placed, Foundations, Tableaus, Moved, MovedLoc, Counted, Rank, MovedN, Informed, Count;
      CountedSizes(piles, length, stockcnt, taloncnt, cinhand, cardsoff);
      MovedNone(piles, HAND, TALON);
      Sizes();
      InformedSizes(visible, paid, information);
      var i: nat := 0;
      while i < fin
        invariant i <= fin && Board() && Seen() && |piles| == PILES && |top| == PILES && |visible| == DECK
        invariant Counted(piles, length, stockcnt, taloncnt + i, cinhand - i, cardsoff)
        invariant piles == MovedN(old(piles), HAND, TALON, i)
        invariant i == fin > 0 ==> 0 <= top[TALON] < DECK && visible[top[TALON]]
      {
        MovedNext(old(piles), HAND, TALON, i);
        MovedPiles(piles, HAND, TALON);
        AwayMove(piles, loc, bottom, base, Rank(basecard), HAND, TALON);
        CountedAway(piles, length, stockcnt, taloncnt + i, cinhand - i, cardsoff, HAND, TALON);
        Transit(HAND, TALON);
        TopIs(TALON);
        DealOne(i == fin - 1);
        i := i + 1;
      }
      cinhand := cinhand - fin;
      taloncnt := taloncnt + fin;
    }

    /** The talon turned over, for five dollars. */
    method TurnOver()
      requires Valid()
      modifies this`next, this`top, this`piles, this`loc, this`taloncnt, this`cinhand, this`paid, this`information, this`runs
      ensures Valid() && |old(piles)| == PILES && piles == MovedN(old(piles), TALON, HAND, |old(piles)[TALON]|)
      ensures runs == old(runs) + 5
    {
      hide Game.Seen, Linked, Placed, Foundations, Tableaus, Rank, Counted, MovedN, Count, Set;
      runs := runs + RUN_COST;
      Refill();
      ShowStat();
    }

    /** How many cards to deal; the talon is turned over when the hand is empty, but not a fourth time
        in a row without a card played. */
    method Draw() returns (fin: nat)
      requires Valid()
      modifies this`next, this`top, this`piles, this`loc, this`taloncnt, this`cinhand, this`paid, this`information,
               this`timesthru, this`runs, this`done
      ensures Valid() && |old(piles)| == PILES && piles == Turned(old(piles), old(timesthru)) && fin == Min(3, |piles[HAND]|)
      ensures runs == old(runs) + if TurnsOver(old(piles), old(timesthru)) then 5 else 0
      ensures timesthru == old(timesthru) + if HandOut(old(piles)) then 1 else 0
      ensures done == (old(done) || Lost(old(piles), old(timesthru)))
    {
      hide Game.Seen, Linked, Placed, Foundations, Tableaus, Rank, Counted, MovedN;
      Counts();
      TurnedHand(piles);
      if cinhand >= 3 {
        fin := 3;
      } else if cinhand > 0 {
        fin := cinhand;
      } else if top[TALON] != NIL {
        timesthru := timesthru + 1;
        if timesthru != 4 {
          TurnOver();
          Counts();
          fin := if cinhand >= 3 then 3 else cinhand;
        } else {
          fin := 0;
          done := true;
        }
      } else {
        fin := 0;
      }
    }

    lemma Counts()
      requires Valid()
      ensures |piles| == PILES && |top| == PILES && cinhand == |piles[HAND]| && (top[TALON] == NIL <==> piles[TALON] == [])
    {
      hide Placed, Foundations, Tableaus;
      CountedSizes(piles, length, stockcnt, taloncnt, cinhand, cardsoff);
      TopIs(TALON);
    }

    /** `movetotalon`: up to three cards from the hand, turned over first if need be, to the talon; then
        cards of the base rank go to their foundations. */
    method MoveToTalon()
      requires Valid() && TopClean(piles[TALON], Rank(basecard))
      modifies this`next, this`top, this`piles, this`loc, this`taloncnt, this`cinhand, this`visible, this`paid,
               this`information, this`timesthru, this`runs, this`done, this`stockcnt, this`length, this`cardsoff,
               this`wins, this`base
      ensures Valid() && |old(piles)| == PILES && TopClean(piles[TALON], Rank(basecard))
      ensures DealsTo(old(piles), piles, old(timesthru), Rank(basecard))
      ensures runs == old(runs) + if TurnsOver(old(piles), old(timesthru)) then 5 else 0
      ensures timesthru == old(timesthru) + if HandOut(old(piles)) then 1 else 0
      ensures done == (old(done) || Lost(old(piles), old(timesthru)))
    {
      hide Linked, Placed, Foundations, Tableaus, Counted, Rank, MovedN, Informed, Uncovered, TopClean;
      Sizes();
      var fin := Draw();
      Sizes();
      ghost var turned := piles;
      Deal(fin);
      if fin != 0 {
        FndBase(TALON);
      } else {
        MovedNone(turned, HAND, TALON);
        NoDeal(old(piles), turned, old(timesthru), Rank(basecard));
      }
    }

    method DealOne(last: bool)
      requires Seen() && |top| == PILES && 0 <= top[TALON] < DECK
      modifies this`visible, this`paid, this`information
      ensures Seen() && |visible| == DECK && (last ==> visible[top[TALON]])
    {
      hide Informed;
      InformedSizes(visible, paid, information);
      if last {
        Show(visible, paid, information, top[TALON]);
        visible := visible[top[TALON] := true];
      }
      if cflag { PayCard(top[TALON]); }
    }

    // ---- commands ----

    ghost predicate Tidy()
      reads this`next, this`top, this`bottom, this`base, this`basecard, this`piles, this`loc, this`length,
            this`stockcnt, this`taloncnt, this`cinhand, this`cardsoff, this`visible, this`paid,
            this`information, this`wins, this`infullgame
    {
      Valid() && Clean(piles, Rank(basecard), 4)
    }

    /** Commands 's' and 't', and '1' to '4' with a foundation. */
    method FromPile(p: nat, source: nat, dest: char)
      requires Ready() && source < 4 && (p == STOCK || p == TALON || p == TAB + source)
      modifies this`next, this`top, this`piles, this`loc, this`visible, this`paid, this`information,
               this`taloncnt, this`stockcnt, this`length, this`cardsoff, this`wins, this`timesthru, this`bottom
      ensures Tidy() && |old(piles)| == PILES && Played(old(piles), piles, p, source, dest)
    {
      hide Game.Valid, Rank, Clean, Moved, Joined, Fits, Accepts;
      ReadySizes();
      if dest == 'f' || dest == 'F' {
        var ok, q := MoveToFound(p, source);
        if ok { CleanMoved(old(piles), Rank(basecard), p, q); }
      } else if '1' <= dest <= '4' {
        var d: nat := dest as int - '1' as int;
        if p < FOUND {
          var ok := SimpleTableau(p, d);
          if ok { CleanMoved(old(piles), Rank(basecard), p, TAB + d); }
        } else {
          var ok := TabToTab(source, d);
          if ok { CleanJoined(old(piles), Rank(basecard), p, TAB + d); }
        }
      }
    }

    lemma ReadySizes()
      requires Valid()
      ensures |piles| == PILES && |top| == PILES
    {
    }

    /** The deal a player asks for, and the one made when the talon is empty. */
    method NewCards()
      requires Ready()
      modifies this`next, this`top, this`piles, this`loc, this`taloncnt, this`cinhand, this`visible, this`paid,
               this`information, this`timesthru, this`runs, this`done, this`stockcnt, this`length, this`cardsoff,
               this`wins, this`base
      ensures Ready() && |old(piles)| == PILES && DealsTo(old(piles), piles, old(timesthru), Rank(basecard))
      ensures timesthru == old(timesthru) + if HandOut(old(piles)) then 1 else 0
      ensures done == (old(done) || Lost(old(piles), old(timesthru)))
    {
      hide Game.Valid, Rank, Clean, TopClean, DealsTo;
      ReadySizes();
      ghost var before := piles;
      MoveToTalon();
      ReadySizes();
      DealtClean(before, piles, Rank(basecard), old(timesthru));
    }

    /** What commands that move cards leave alone. */
    ghost function Settings(): (bool, bool, bool, int)
      reads this`cflag, this`betting, this`startedgame, this`inspection
    {
      (cflag, betting, startedgame, inspection)
    }

    /** Command 'h': the first time the game is bought. */
    method FromHand(dest: char, buy: bool)
      requires Ready()
      modifies this
      ensures Tidy() && |old(piles)| == PILES && basecard == old(basecard)
      ensures HandPlayed(old(piles), piles, dest, old(infullgame) || !old(betting) || buy, old(timesthru), Rank(basecard))
      ensures infullgame == (old(infullgame) || ((dest == 't' || dest == 'T') && (!old(betting) || buy)))
      ensures game == old(game) + if infullgame && !old(infullgame) then 26 else 0
      ensures !infullgame && (dest == 't' || dest == 'T') ==> done
      ensures Settings() == old(Settings())
    {
      hide Game.Valid, DealsTo, Clean, TopClean, Rank;
      ReadySizes();
      if dest != 't' && dest != 'T' {
        return;
      }
      if !infullgame {
        if betting && !buy {
          Quit();
          return;
        }
        Buy();
      }
      NewCards();
    }

    /** The game is bought, with five dollars for each card already up. */
    method Buy()
      requires Ready() && !infullgame
      modifies this`infullgame, this`wins, this`game
      ensures Ready() && infullgame && game == old(game) + 26
    {
      hide Clean, TopClean, Linked, Placed, Foundations, Tableaus, Counted, Informed, Rank;
      infullgame := true;
      wins := wins + CARD_VALUE * cardsoff;
      game := game + GAME_COST;
    }

    /** The switch of `movecard`. */
    method Act(src: char, dest: char, source: nat, buy: bool)
      requires Ready() && source < 4 && ('1' <= src <= '4' ==> source == src as int - '1' as int)
      modifies this
      ensures Tidy() && |old(piles)| == PILES && basecard == old(basecard)
      ensures Acted(old(piles), piles, src, dest, source, old(infullgame) || !old(betting) || buy, old(timesthru), Rank(basecard))
      ensures src == 'q' ==> done
      ensures infullgame == (old(infullgame) || (src == 'h' && (dest == 't' || dest == 'T') && (!old(betting) || buy)))
      ensures cflag == (if src == 'c' then !old(cflag) else old(cflag)) && startedgame == old(startedgame)
      ensures betting == if src == 'b' then true else if src == 'x' || src == 'i' then false else old(betting)
      ensures inspection == old(inspection)
    {
      hide Game.Valid, DealsTo, Played, HandPlayed, Clean, TopClean, Rank;
      ReadySizes();
      if src == 't' {
        FromPile(TALON, source, dest);
      } else if src == 's' {
        FromPile(STOCK, source, dest);
      } else if src == 'h' {
        FromHand(dest, buy);
      } else if src == 'q' {
        Quit();
      } else if src == 'b' {
        betting := true;
      } else if src == 'x' || src == 'i' {
        betting := false;
      } else if src == 'c' {
        CountCards();
      } else if '1' <= src <= '4' {
        FromPile(TAB + source, source, dest);
      }
    }

    method Quit()
      requires Valid()
      modifies this`visible, this`paid, this`information, this`done
      ensures Valid() && done
    {
      hide Linked, Placed, Foundations, Tableaus, Counted, Informed, Rank;
      ShowCards();
      done := true;
    }

    /** Command 'c': card counting on or off. */
    method CountCards()
      requires Valid()
      modifies this`cflag, this`paid, this`information
      ensures Valid() && cflag == !old(cflag)
    {
      hide Linked, Placed, Foundations, Tableaus, Counted, Informed, Rank, Set, Count;
      cflag := !cflag;
      if cflag { ShowStat(); }
    }

    /** One round of the command loop. */
    method Round(c: Command, source0: nat)
      returns (source: nat, src: char, ghost dealt: seq<Pile>, ghost acted: seq<Pile>, ghost swept: seq<Pile>)
      requires Ready() && source0 < 4
      modifies this
      ensures Ready() && source < 4 && |old(piles)| == PILES && |dealt| == PILES && |acted| == PILES && basecard == old(basecard)
      ensures if old(piles)[TALON] == [] && old(piles)[HAND] != []
              then DealsTo(old(piles), dealt, old(timesthru), Rank(basecard)) else dealt == old(piles)
      ensures '1' <= src <= '4' ==> source == src as int - '1' as int
      ensures src == Chosen(c, Off(dealt) == DECK, old(startedgame), old(betting))
      ensures startedgame == (old(startedgame) || Begins(c, Off(dealt) == DECK, old(startedgame)))
      ensures inspection == old(inspection)
        + if Begins(c, Off(dealt) == DECK, old(startedgame)) && (c.inspect || !old(betting)) then 13 else 0
      ensures Acted(dealt, acted, src, c.dest, source, old(infullgame) || !old(betting) || c.buy, old(timesthru), Rank(basecard))
      ensures Uncovered(acted, swept, STOCK, Rank(basecard)) && Uncovered(swept, piles, TALON, Rank(basecard))
    {
      hide Game.Valid, Clean, TopClean, Rank, Uncovered, DealsTo, Acted, Off;
      ReadySizes();
      ReadyTops();
      if top[TALON] == NIL && top[HAND] != NIL { NewCards(); }
      ReadyTops();
      dealt := piles;
      source, src := Choose(c, source0);
      Act(src, c.dest, source, c.buy);
      ReadySizes();
      acted := piles;
      swept := Sweep();
    }

    /** The command to carry out; the first that moves a card is paid for, or ends the game. */
    method Choose(c: Command, source0: nat) returns (source: nat, src: char)
      requires source0 < 4
      modifies this`startedgame, this`inspection
      ensures source < 4 && ('1' <= src <= '4' ==> source == src as int - '1' as int)
      ensures src == Chosen(c, cardsoff == DECK, old(startedgame), betting)
      ensures startedgame == (old(startedgame) || Begins(c, cardsoff == DECK, old(startedgame)))
      ensures inspection == old(inspection)
        + if Begins(c, cardsoff == DECK, old(startedgame)) && (c.inspect || !betting) then 13 else 0
    {
      src := if cardsoff == DECK then 'q' else c.src;
      source := if '1' <= src <= '4' then src as int - '1' as int else source0;
      if !startedgame && IsMove(src) {
        startedgame := true;
        if betting && !c.inspect {
          src := 'q';
        } else {
          inspection := inspection + INSPECTION_COST;
        }
      }
    }

    lemma ReadyTops()
      requires Valid()
      ensures |top| == PILES && |piles| == PILES
      ensures (top[TALON] == NIL <==> piles[TALON] == []) && (top[HAND] == NIL <==> piles[HAND] == [])
      ensures cardsoff == Off(piles)
    {
      TopIs(TALON);
      TopIs(HAND);
    }

    /** The end of a round: base cards on the stock and the talon go to their foundations. */
    method Sweep() returns (ghost swept: seq<Pile>)
      requires Tidy()
      modifies this`next, this`top, this`piles, this`loc, this`visible, this`paid, this`information,
               this`taloncnt, this`stockcnt, this`length, this`cardsoff, this`wins, this`base
      ensures Ready() && Uncovered(old(piles), swept, STOCK, Rank(basecard)) && Uncovered(swept, piles, TALON, Rank(basecard))
    {
      hide Game.Valid, Rank, Clean, TopClean, Uncovered;
      ReadySizes();
      ghost var before := piles;
      FndBase(STOCK);
      ReadySizes();
      CleanUncovered(before, piles, STOCK, Rank(basecard), 4);
      swept := piles;
      FndBase(TALON);
      ReadySizes();
      CleanUncovered(swept, piles, TALON, Rank(basecard), 4);
      UncoveredElse(swept, piles, TALON, Rank(basecard), STOCK);
    }

    /** `movecard`: whatever the player types, for as long as the player types, every state in which a
        command is asked for is in order. */
    method MoveCard(inputs: seq<Command>)
      requires Ready()
      modifies this
      ensures Ready() && information <= 34
      ensures wins == if infullgame then 5 * cardsoff else 0
    {
      hide Clean, TopClean, Rank, Linked, Placed, Foundations, Tableaus, Counted, Informed;
      done := false;
      var source, k := 0, 0;
      while !done && k < |inputs|
        invariant Ready() && source < 4 && k <= |inputs|
        decreases |inputs| - k
      {
        var src; ghost var dealt, acted, swept;
        source, src, dealt, acted, swept := Round(inputs[k], source);
        k := k + 1;
      }
      InformedBound(visible, paid, information);
    }

    // ---- starting ----

    constructor ()
    {
      cflag, betting := false, false;
    }

    /** `initgame`: the piles laid out from the deck, its first eighteen cards for all to see. */
    method InitGame(deck: seq<nat>, ghost pos: seq<nat>)
      requires IsDeck(deck, pos) && Clear()
      modifies this`next, this`top, this`bottom, this`base, this`basecard, this`piles, this`loc, this`visible, this`paid,
               this`information, this`stockcnt, this`cinhand, this`taloncnt, this`timesthru, this`cardsoff, this`length,
               this`wins, this`infullgame
      ensures Valid() && piles == Dealt(deck) && basecard == deck[13] && !infullgame
      ensures information == 0 && cardsoff == 1 && base == 0
    {
      hide Linked, Placed, Foundations, Tableaus, Counted, Informed, Rank, Dealt, IsDeck, Game.Clear, Game.Seen;
      DeckSize(deck, pos);
      FirstCounts();
      FreeCards(deck, pos);
      LayOut(deck, pos);
      DealtCounted(deck);
    }

    method FirstCounts()
      modifies this`stockcnt, this`cinhand, this`taloncnt, this`timesthru, this`cardsoff, this`length, this`wins, this`infullgame
      ensures stockcnt == 13 && cinhand == 34 && taloncnt == 0 && timesthru == 0 && cardsoff == 1 && length == [8, 8, 8, 8]
      ensures wins == 0 && !infullgame
    {
      stockcnt, cinhand, taloncnt, timesthru, cardsoff := 13, 34, 0, 0, 1;
      length := [TABLEAU_ROW, TABLEAU_ROW, TABLEAU_ROW, TABLEAU_ROW];
      wins, infullgame := 0, false;
    }

    /** The piles of `initgame`. */
    method LayOut(deck: seq<nat>, ghost pos: seq<nat>)
      requires IsDeck(deck, pos)
      modifies this`next, this`top, this`bottom, this`base, this`basecard, this`piles, this`loc
      ensures Board() && |deck| == DECK && piles == Dealt(deck) && basecard == deck[13] && base == 0
    {
      hide Linked, Placed, Foundations, Tableaus, Rank, Dealt, DealtLoc, DealtTops, IsDeck, Game.LinkedFrom;
      DeckSize(deck, pos);
      LinkPiles(deck, pos);
      FromLinked(deck, pos);
      DealtPlaced(deck, pos);
      DealtRules(deck, pos);
      top := DealtTops(deck);
      basecard := deck[13];
      bottom := [deck[14], deck[15], deck[16], deck[17]];
      base := 0;
      piles, loc := Dealt(deck), DealtLoc(pos);
    }

    lemma FromLinked(deck: seq<nat>, pos: seq<nat>)
      requires IsDeck(deck, pos) && LinkedFrom(deck, 0, DECK)
      ensures Linked(next, DealtTops(deck), Dealt(deck))
    {
      DealtLinked(deck, pos, next);
    }

    /** No card seen or paid for, as `shuffle` leaves them. */
    ghost predicate Clear()
      reads this`visible, this`paid
    {
      |visible| == DECK && |paid| == DECK && forall c | 0 <= c < DECK :: !visible[c] && !paid[c]
    }

    /** The first eighteen cards are seen for nothing. */
    method FreeCards(deck: seq<nat>, ghost pos: seq<nat>)
      requires IsDeck(deck, pos) && Clear()
      modifies this`visible, this`paid, this`information
      ensures Seen() && information == 0
    {
      hide Count;
      NoneCounted(paid);
      information := 0;
      var i := 0;
      while i < 18
        invariant i <= 18 && |visible| == DECK && |paid| == DECK && information == 0 && Count(paid) == i
        invariant forall c | 0 <= c < DECK :: paid[c] == (pos[c] < i) && visible[c] == (pos[c] < i)
      {
        assert pos[deck[i]] == i;
        CountSet(paid, deck[i]);
        visible := visible[deck[i] := true];
        paid := paid[deck[i] := true];
        i := i + 1;
      }
    }

    ghost predicate LinkedFrom(deck: seq<nat>, lo: nat, hi: nat)
      requires |deck| == DECK
      reads this`next
    {
      |next| == DECK && hi <= DECK && forall i | lo <= i < hi :: deck[i] < DECK && next[deck[i]] == Under(deck, i)
    }

    /** A link set at a place before those already set. */
    method Link(deck: seq<nat>, ghost pos: seq<nat>, i: nat, v: int, ghost lo: nat, ghost hi: nat)
      requires IsDeck(deck, pos) && i < DECK && v == Under(deck, i)
      requires LinkedFrom(deck, lo, hi) && (i == hi || i + 1 == lo) && lo <= hi
      modifies this`next
      ensures if i == hi then LinkedFrom(deck, lo, hi + 1) else LinkedFrom(deck, lo - 1, hi)
    {
      hide Under;
      assert pos[deck[i]] == i;
      next := next[deck[i] := v];
    }

    /** The links of stock, first foundation, tableaus and hand. */
    method LinkPiles(deck: seq<nat>, ghost pos: seq<nat>)
      requires IsDeck(deck, pos)
      modifies this`next
      ensures LinkedFrom(deck, 0, DECK)
    {
      hide IsDeck, Game.LinkedFrom;
      DeckSize(deck, pos);
      next := seq(DECK, _ => NIL);
      NoLinks(deck);
      var i := 12;
      while i >= 1
        invariant 0 <= i <= 12 && LinkedFrom(deck, i + 1, 13)
      {
        Link(deck, pos, i, deck[i - 1], i + 1, 13);
        i := i - 1;
      }
      Link(deck, pos, 0, NIL, 1, 13);
      Link(deck, pos, 13, NIL, 0, 13);
      i := 14;
      while i < 18
        invariant 14 <= i <= 18 && LinkedFrom(deck, 0, i)
      {
        Link(deck, pos, i, NIL, 0, i);
        i := i + 1;
      }
      while i < DECK - 1
        invariant 18 <= i <= 51 && LinkedFrom(deck, 0, i)
      {
        Link(deck, pos, i, deck[i + 1], 0, i);
        i := i + 1;
      }
      Link(deck, pos, 51, NIL, 0, 51);
    }

    lemma NoLinks(deck: seq<nat>)
      requires |deck| == DECK && |next| == DECK
      ensures LinkedFrom(deck, 13, 13)
    {
    }

    /** `shuffle`: whatever numbers are drawn, the deck has every card once, all unseen. */
    method Shuffle(deck: array<nat>, random: seq<nat>, ghost pos0: seq<nat>) returns (ghost pos: seq<nat>)
      requires deck.Length == DECK && IsDeck(deck[..], pos0) && |random| == DECK
      modifies this`visible, this`paid, deck
      ensures IsDeck(deck[..], pos) && Clear()
    {
      hide IsDeck;
      visible, paid := seq(DECK, _ => false), seq(DECK, _ => false);
      pos := pos0;
      var i := DECK - 1;
      while i >= 0
        invariant -1 <= i < DECK && IsDeck(deck[..], pos) && Clear()
      {
        var j := random[i] % DECK;
        ghost var s := deck[..];
        SwapDeck(s, pos, i, j);
        DeckSizes(s, pos);
        if i != j {
          var temp := deck[i];
          deck[i] := deck[j];
          deck[j] := temp;
          assert deck[..] == s[i := s[j]][j := s[i]];
          pos := pos[s[i] := j][s[j] := i];
        }
        i := i - 1;
      }
    }

    /** `startgame`: every deal leads to a state in order, with up to three cards turned. */
    method StartGame(deck: array<nat>, random: seq<nat>, ghost pos0: seq<nat>)
      requires deck.Length == DECK && IsDeck(deck[..], pos0) && |random| == DECK
      modifies this, deck
      ensures Ready() && !infullgame && !startedgame
    {
      hide Game.Valid, Game.Ready, Rank, Dealt, IsDeck, Clean, TopClean, Game.Clear;
      ghost var pos := Shuffle(deck, random, pos0);
      var cards := deck[..];
      DeckSizes(cards, pos);
      InitGame(cards, pos);
      DealtTableaus(cards, Rank(basecard));
      inspection, game, runs := 0, 0, 0;
      startedgame, done := false, false;
      Opening();
    }

    /** The rest of `startgame`. */
    method Opening()
      requires Valid() && Clean(piles, Rank(basecard), 0) && piles[TALON] == [] && !infullgame
      requires forall r | TAB <= r < PILES :: |piles[r]| <= 1
      modifies this`next, this`top, this`piles, this`loc, this`taloncnt, this`cinhand, this`visible, this`paid,
               this`information, this`timesthru, this`runs, this`done, this`stockcnt, this`length, this`cardsoff,
               this`wins, this`base
      ensures Ready()
    {
      hide Linked, Placed, Foundations, Tableaus, Counted, Informed, Rank, Clean, TopClean, Uncovered, Set, Count;
      BaseTableaus();
      ghost var before := piles;
      FndBase(STOCK);
      ReadySizes();
      CleanUncovered(before, piles, STOCK, Rank(basecard), 4);
      UncoveredElse(before, piles, STOCK, Rank(basecard), TALON);
      ShowStat();
      EmptyClean(Rank(basecard));
      NewCards();
    }

    /** Cards of the base rank dealt to the tableaus. */
    method BaseTableaus()
      requires Valid() && Clean(piles, Rank(basecard), 0) && piles[TALON] == [] && !infullgame
      requires forall r | TAB <= r < PILES :: |piles[r]| <= 1
      modifies this`next, this`top, this`piles, this`loc, this`visible, this`paid, this`information,
               this`taloncnt, this`stockcnt, this`length, this`cardsoff, this`wins, this`base
      ensures Tidy() && piles[TALON] == []
    {
      hide Game.Valid, Rank, Clean, TopClean, Uncovered;
      ReadySizes();
      var j := 0;
      while j <= 3
        invariant j <= 4 && Valid() && |piles| == PILES && Clean(piles, Rank(basecard), j) && piles[TALON] == []
        invariant forall r | TAB + j <= r < PILES :: |piles[r]| <= 1
      {
        ghost var before := piles;
        FndBase(TAB + j);
        ReadySizes();
        FirstClean(before, piles, Rank(basecard), j);
        UncoveredElse(before, piles, TAB + j, Rank(basecard), TALON);
        j := j + 1;
      }
    }
  }

  lemma DeckSize(deck: seq<nat>, pos: seq<nat>)
    requires IsDeck(deck, pos)
    ensures |deck| == DECK
  {
  }

  lemma DeckSizes(deck: seq<nat>, pos: seq<nat>)
    requires IsDeck(deck, pos)
    ensures |deck| == DECK && |pos| == DECK && (forall c | 0 <= c < DECK :: pos[c] < DECK)
    ensures forall i | 0 <= i < DECK :: deck[i] < DECK
  {
  }

  lemma DealtTableaus(deck: seq<nat>, b: nat)
    requires |deck| == DECK
    ensures Clean(Dealt(deck), b, 0) && Dealt(deck)[TALON] == []
    ensures forall r | TAB <= r < PILES :: |Dealt(deck)[r]| <= 1
  {
  }

  lemma EmptyClean(b: nat)
    ensures TopClean([], b)
  {
  }

  lemma PileThere(piles: seq<Pile>, p: nat, d: nat)
    requires |piles| == PILES && p < PILES && d < 4 && Legal(piles, p, d)
    ensures piles[p] != []
  {
  }

  lemma UncoveredElse(piles: seq<Pile>, m: seq<Pile>, p: nat, b: nat, r: nat)
    requires Uncovered(piles, m, p, b) && r < FOUND && r != p
    ensures |piles| == PILES && |m| == PILES && m[r] == piles[r]
  {
  }

  /** A deal: up to three cards, the talon turned over before it, base cards taken off after it. */
  ghost predicate DealsTo(before: seq<Pile>, after: seq<Pile>, timesthru: int, b: nat)
    requires |before| == PILES
  {
    var r := Turned(before, timesthru);
    Uncovered(MovedN(r, HAND, TALON, Min(3, |r[HAND]|)), after, TALON, b)
  }

  ghost predicate HandPlayed(before: seq<Pile>, after: seq<Pile>, dest: char, plays: bool, timesthru: int, b: nat)
    requires |before| == PILES
  {
    if (dest == 't' || dest == 'T') && plays then DealsTo(before, after, timesthru, b) else after == before
  }

  /** What each command does to the piles; `plays` if the game is bought, or not played for money. */
  ghost predicate Acted(before: seq<Pile>, after: seq<Pile>, src: char, dest: char, source: nat, plays: bool, timesthru: int, b: nat)
    requires |before| == PILES && source < 4
  {
    if src == 't' then Played(before, after, TALON, source, dest)
    else if src == 's' then Played(before, after, STOCK, source, dest)
    else if '1' <= src <= '4' then Played(before, after, TAB + source, source, dest)
    else if src == 'h' then HandPlayed(before, after, dest, plays, timesthru, b)
    else after == before
  }

  /** A deal touches neither the tableaus nor the stock. */
  lemma DealtClean(before: seq<Pile>, after: seq<Pile>, b: nat, timesthru: int)
    requires |before| == PILES && Clean(before, b, 4) && DealsTo(before, after, timesthru, b)
    ensures Clean(after, b, 4) && |after| == PILES && after[STOCK] == before[STOCK]
  {
    hide Rank, NoBase;
    var turned := Turned(before, timesthru);
    var m := MovedN(turned, HAND, TALON, Min(3, |turned[HAND]|));
    assert forall r | TAB <= r < PILES || r == STOCK :: turned[r] == before[r] && m[r] == turned[r];
    assert Clean(m, b, 4);
    CleanUncovered(m, after, TALON, b, 4);
    UncoveredElse(m, after, TALON, b, STOCK);
  }

  /** Nothing to deal, nothing changes. */
  lemma NoDeal(before: seq<Pile>, turned: seq<Pile>, timesthru: int, b: nat)
    requires |before| == PILES && turned == Turned(before, timesthru) && turned[HAND] == []
    ensures DealsTo(before, turned, timesthru, b) && turned == before
  {
    MovedNone(turned, HAND, TALON);
    UncoverNone(turned, TALON, b);
    if TurnsOver(before, timesthru) { TurnedHand(before); assert false; }
  }

  /** The talon has been gone through three times and no card of it can be played. */
  ghost predicate Lost(piles: seq<Pile>, timesthru: int)
    requires |piles| == PILES
  {
    piles[HAND] == [] && piles[TALON] != [] && timesthru == 3
  }

  /** The cards on the foundations. */
  ghost function Off(piles: seq<Pile>): nat
    requires |piles| == PILES
  {
    |piles[FOUND]| + |piles[FOUND + 1]| + |piles[FOUND + 2]| + |piles[FOUND + 3]|
  }

  /** A command that moves cards; the first of a game asks for the inspection to be paid. */
  predicate IsMove(src: char) { src == 't' || src == 's' || src == 'h' || '1' <= src <= '4' }

  predicate Begins(c: Command, off: bool, started: bool) { !off && !started && IsMove(c.src) }

  /** The command carried out: quitting, when all cards are up or the inspection is refused. */
  function Chosen(c: Command, off: bool, started: bool, betting: bool): char
  {
    if off || (Begins(c, off, started) && betting && !c.inspect) then 'q' else c.src
  }

  ghost predicate HandOut(piles: seq<Pile>)
    requires |piles| == PILES
  {
    piles[HAND] == [] && piles[TALON] != []
  }

  ghost predicate TurnsOver(piles: seq<Pile>, timesthru: int)
    requires |piles| == PILES
  {
    piles[HAND] == [] && piles[TALON] != [] && timesthru != 3
  }

  /** The piles before a deal: the talon turned over if the hand is empty. */
  ghost function Turned(piles: seq<Pile>, timesthru: int): (r: seq<Pile>)
    requires |piles| == PILES
    ensures |r| == PILES
  {
    if TurnsOver(piles, timesthru) then MovedN(piles, TALON, HAND, |piles[TALON]|) else piles
  }

  lemma TurnedHand(piles: seq<Pile>)
    requires |piles| == PILES
    ensures |MovedN(piles, TALON, HAND, |piles[TALON]|)[HAND]| == |piles[HAND]| + |piles[TALON]|
  {
  }

  /** n cards moved from p to q, so that their order is reversed. */
  ghost function MovedN(piles: seq<Pile>, p: nat, q: nat, n: nat): (r: seq<Pile>)
    requires p < |piles| && q < |piles| && p != q && n <= |piles[p]|
    ensures |r| == |piles|
  {
    var s := piles[p];
    piles[p := s[..|s| - n]][q := piles[q] + seq(n, i requires 0 <= i < n => s[|s| - 1 - i])]
  }

  lemma MovedNone(piles: seq<Pile>, p: nat, q: nat)
    requires p < |piles| && q < |piles| && p != q
    ensures MovedN(piles, p, q, 0) == piles
  {
    var m := MovedN(piles, p, q, 0);
    assert m[p] == piles[p] && m[q] == piles[q];
    assert forall r | 0 <= r < |piles| :: m[r] == piles[r];
  }

  lemma MovedNext(piles: seq<Pile>, p: nat, q: nat, n: nat)
    requires p < |piles| && q < |piles| && p != q && n < |piles[p]|
    ensures
      var m := MovedN(piles, p, q, n);
      m[p] != [] && MovedN(piles, p, q, n + 1) == Moved(m, p, q)
  {
    var m, s := MovedN(piles, p, q, n), piles[p];
    var x, y := MovedN(piles, p, q, n + 1), Moved(m, p, q);
    assert m[p] == s[..|s| - n] && m[p][|s| - n - 1] == s[|s| - n - 1];
    assert x[p] == y[p];
    assert x[q] == y[q];
    assert forall r | 0 <= r < |piles| :: x[r] == y[r];
  }

  /** A card that comes to light is seen, and paid for while cards are counted. */
  ghost predicate Glimpsed(c: int, cflag: bool, visible0: seq<bool>, paid0: seq<bool>, info0: int,
                           visible: seq<bool>, paid: seq<bool>, info: int)
  {
    if 0 <= c < |visible0| && c < |paid0| && !visible0[c] then
      && visible == visible0[c := true]
      && paid == (if cflag then paid0[c := true] else paid0)
      && info == info0 + if cflag then 1 else 0
    else visible == visible0 && paid == paid0 && info == info0
  }

  ghost function AllSeen(): seq<bool> { seq(DECK, _ => true) }

  /** The flags of the cards of t that may be seen are set, the others are as before. */
  ghost predicate Set(before: seq<bool>, after: seq<bool>, seen: seq<bool>, t: Pile)
  {
    && |before| == DECK && |after| == DECK && |seen| == DECK
    && forall c | 0 <= c < DECK :: after[c] == (before[c] || (c in t && seen[c]))
  }

  lemma NothingSet(before: seq<bool>, seen: seq<bool>)
    requires |before| == DECK && |seen| == DECK
    ensures Set(before, before, seen, [])
  {
  }

  ghost function From(s: Pile, k: nat): Pile
    requires k <= |s|
  {
    s[k..]
  }

  lemma Ends(s: Pile)
    ensures From(s, |s|) == [] && From(s, 0) == s
  {
  }

  /** A walk down a pile: k cards are left, and ptr is the next of them. */
  ghost predicate Walk(next: seq<int>, s: Pile, k: nat, ptr: int)
  {
    Chained(next, s) && k <= |s| && ptr == if k == 0 then NIL else s[k - 1]
  }

  lemma WalkStart(next: seq<int>, top: seq<int>, piles: seq<Pile>, p: nat)
    requires Linked(next, top, piles) && p < PILES
    ensures |top| == PILES && |piles| == PILES && Walk(next, piles[p], |piles[p]|, top[p])
  {
    assert Chained(next, piles[p]);
  }

  lemma WalkStep(next: seq<int>, s: Pile, k: nat, ptr: int)
    requires Walk(next, s, k, ptr) && ptr != NIL
    ensures 1 <= k <= |s| && |next| == DECK && 0 <= ptr < DECK && ptr == s[k - 1] && Walk(next, s, k - 1, next[ptr])
  {
  }

  lemma WalkEnd(next: seq<int>, s: Pile, k: nat)
    requires Walk(next, s, k, NIL)
    ensures k == 0 && From(s, k) == s
  {
  }

  /** The cards passed are paid for if seen, and each new payment cost a dollar. */
  ghost predicate Paying(paid0: seq<bool>, info0: int, paid: seq<bool>, info: int, visible: seq<bool>, s: Pile, k: nat)
  {
    k <= |s| && Set(paid0, paid, visible, From(s, k)) && info - info0 == Count(paid) - Count(paid0)
  }

  lemma PayingStart(paid: seq<bool>, visible: seq<bool>, info: int, s: Pile)
    requires Informed(visible, paid, info)
    ensures Paying(paid, info, paid, info, visible, s, |s|)
  {
    NothingSet(paid, visible);
    Ends(s);
  }

  lemma PayingStep(paid0: seq<bool>, info0: int, paid: seq<bool>, info: int, visible: seq<bool>, s: Pile, k: nat)
    requires Paying(paid0, info0, paid, info, visible, s, k) && 1 <= k <= |s| && s[k - 1] < DECK
    ensures |paid| == DECK && |visible| == DECK
    ensures
      var after := if visible[s[k - 1]] then paid[s[k - 1] := true] else paid;
      Paying(paid0, info0, after, info + Count(after) - Count(paid), visible, s, k - 1)
  {
    hide Count;
    SetNext(paid0, paid, visible, s, k);
  }

  ghost predicate Shown(paid0: seq<bool>, paid: seq<bool>, visible0: seq<bool>, visible: seq<bool>, t: Pile)
  {
    Set(paid0, paid, AllSeen(), t) && Set(visible0, visible, AllSeen(), t)
  }

  lemma NothingShown(paid: seq<bool>, visible: seq<bool>)
    requires |paid| == DECK && |visible| == DECK
    ensures Shown(paid, paid, visible, visible, [])
  {
    NothingSet(paid, AllSeen());
    NothingSet(visible, AllSeen());
  }

  lemma ShownNext(paid0: seq<bool>, paid: seq<bool>, visible0: seq<bool>, visible: seq<bool>, s: Pile, k: nat)
    requires 1 <= k <= |s| && s[k - 1] < DECK && Shown(paid0, paid, visible0, visible, From(s, k))
    ensures |paid| == DECK && |visible| == DECK
    ensures Shown(paid0, paid[s[k - 1] := true], visible0, visible[s[k - 1] := true], From(s, k - 1))
  {
    SetNext(paid0, paid, AllSeen(), s, k);
    SetNext(visible0, visible, AllSeen(), s, k);
  }

  lemma SetNext(before: seq<bool>, after: seq<bool>, seen: seq<bool>, s: Pile, k: nat)
    requires 1 <= k <= |s| && s[k - 1] < DECK && Set(before, after, seen, From(s, k))
    ensures Set(before, if seen[s[k - 1]] then after[s[k - 1] := true] else after, seen, From(s, k - 1))
  {
    assert s[k - 1..] == [s[k - 1]] + s[k..];
  }

  /** `rankhigher` */
  function RankHigher(c: nat, f: nat): (r: bool)
    ensures r <==> Rank(c) == Up(Rank(f))
  {
    if Rank(f) == 12 then Rank(c) == 0 else Rank(c) == Rank(f) + 1
  }

  lemma Taking(s: Pile, c: int)
    requires 0 <= c
    ensures Accepts(s, c) <==> s != [] && Rank(c) == Up(Rank(s[|s| - 1])) && Suit(c) == Suit(s[|s| - 1])
  {
  }

  lemma LinkedSize(next: seq<int>, top: seq<int>, piles: seq<Pile>)
    requires Linked(next, top, piles)
    ensures |piles| == PILES
  {
  }

  /** `ranklower` */
  function RankLower(c: nat, d: nat): (r: bool)
    ensures r <==> Rank(d) == Up(Rank(c))
  {
    if Rank(d) == 0 then Rank(c) == 12 else Rank(c) + 1 == Rank(d)
  }

  lemma UncoverNext(was: seq<Pile>, piles: seq<Pile>, p: nat, base: int, b: nat)
    requires Uncovered(was, piles, p, b) && Foundations(piles, base, b) && base < 3
    requires !(FOUND <= p < TAB) && piles[p] != [] && Rank(piles[p][|piles[p]| - 1]) == b
    ensures Uncovered(was, Moved(piles, p, FOUND + (base + 1)), p, b)
    ensures |Moved(piles, p, FOUND + (base + 1))[p]| < |piles[p]|
  {
    hide Rank, Ascends;
    assert piles[FOUND + (base + 1)] == [];
    UncoverOne(was, piles, p, b, FOUND + (base + 1));
  }

  lemma InformedSizes(visible: seq<bool>, paid: seq<bool>, information: int)
    requires Informed(visible, paid, information)
    ensures |visible| == DECK && |paid| == DECK && forall c | 0 <= c < DECK :: paid[c] ==> visible[c]
  {
  }

  lemma CountedSizes(piles: seq<Pile>, length: seq<int>, stockcnt: int, taloncnt: int, cinhand: int, cardsoff: int)
    requires Counted(piles, length, stockcnt, taloncnt, cinhand, cardsoff)
    ensures |length| == 4 && |piles| == PILES && cinhand == |piles[HAND]| && taloncnt == |piles[TALON]|
  {
  }
}
