/** The keyword matcher of src/cmd/fgrep.c: a trie with failure links, without `-x` and `-y`.

    A node has one character `inp` and the node `nst` it leads to; `link` is the next node of the same
    state, and 0 stands for no node.  All nodes of a state share the string read on the way to it.
 */
module Fgrep {
  import opened FgrepQueue

  const NUL := '\0'
  const MAXSIZ: nat := 4000

  ghost predicate Suffix(x: string, y: string)
  {
    |x| <= |y| && y[|y| - |x|..] == x
  }

  lemma SuffixTrans(x: string, y: string, z: string)
    requires Suffix(x, y) && Suffix(y, z)
    ensures Suffix(x, z)
  {
    assert z[|z| - |x|..] == z[|z| - |y|..][|y| - |x|..];
  }

  lemma SuffixNext(x: string, y: string, c: char)
    requires Suffix(x, y)
    ensures Suffix(x + [c], y + [c])
  {
    assert (y + [c])[|y + [c]| - |x + [c]|..] == y[|y| - |x|..] + [c];
  }

  lemma SuffixNone(y: string)
    ensures Suffix("", y)
  {
  }

  /** A line of the keyword list; what follows the last newline counts unless it is empty. */
  ghost predicate IsWord(text: string, b: nat, e: nat)
  {
    && b <= e <= |text| && (b == 0 || text[b - 1] == '\n') && (forall k | b <= k < e :: text[k] != '\n')
    && if e < |text| then text[e] == '\n' else b < e
  }

  ghost predicate Keyword(text: string, x: string)
  {
    exists b: nat, e: nat | IsWord(text, b, e) :: text[b..e] == x
  }

  /** Some keyword ends x. */
  ghost predicate Ends(text: string, x: string)
  {
    exists w | Keyword(text, w) :: Suffix(w, x)
  }

  lemma EndsSuffix(text: string, x: string, y: string)
    requires Ends(text, x) && Suffix(x, y)
    ensures Ends(text, y)
  {
    hide Keyword;
    var w :| Keyword(text, w) && Suffix(w, x);
    SuffixTrans(w, x, y);
  }

  lemma KeywordEnds(text: string, x: string)
    requires Keyword(text, x)
    ensures Ends(text, x)
  {
    assert Suffix(x, x);
  }

  // ---- the states as a tree ----

  /** `head` is the first node of a node's state; `par` is the node that leads to a state; `str` is what
      was read on the way to it. */
  datatype Shape = Shape(inp: seq<char>, nst: seq<nat>, link: seq<nat>, str: seq<string>, head: seq<nat>, par: seq<nat>, smax: nat)
  {
    ghost predicate Sized()
    {
      |inp| == |nst| == |link| == |str| == |head| == |par| == MAXSIZ && smax < MAXSIZ
    }
  }

  ghost predicate InTree(t: Shape, i: nat)
    requires t.Sized() && i <= t.smax
  {
    && t.head[i] <= i && t.head[t.head[i]] == t.head[i] && t.str[t.head[i]] == t.str[i] && (t.head[i] == 0 <==> t.str[i] == "")
    && (t.inp[i] != NUL ==> Leading(t, i))
    && (t.link[i] != 0 ==> t.inp[i] != NUL && i < t.link[i] <= t.smax && t.head[t.link[i]] == t.head[i] && t.str[t.link[i]] == t.str[i])
    && (t.head[i] == i && i > 0 ==> t.par[i] < i && t.inp[t.par[i]] != NUL && t.nst[t.par[i]] == i)
    && NoneBetween(t, i)
  }

  /** The state that i leads to is one character further. */
  ghost predicate Leading(t: Shape, i: nat)
    requires t.Sized() && i <= t.smax
  {
    && i < t.nst[i] <= t.smax && t.head[t.nst[i]] == t.nst[i] && t.par[t.nst[i]] == i
    && t.inp[i] != '\n' && t.str[t.nst[i]] == t.str[i] + [t.inp[i]]
  }

  /** The next node of a state is the next to be made: `link` skips none. */
  ghost predicate NoneBetween(t: Shape, i: nat)
    requires t.Sized() && i <= t.smax
  {
    forall x: nat | i < x <= t.smax && t.head[x] == t.head[i] :: t.link[i] != 0 && t.link[i] <= x
  }

  /** The nodes of a state have different characters. */
  ghost predicate Distinct(t: Shape)
    requires t.Sized()
  {
    forall x: nat, y: nat | x < y <= t.smax && t.head[x] == t.head[y] :: t.inp[x] != t.inp[y]
  }

  ghost predicate Spare(t: Shape)
    requires t.Sized()
  {
    forall i: nat | t.smax < i < MAXSIZ :: t.inp[i] == NUL && t.link[i] == 0
  }

  ghost predicate Tree(t: Shape)
  {
    t.Sized() && t.head[0] == 0 && (forall i: nat | i <= t.smax :: InTree(t, i)) && Distinct(t) && Spare(t)
  }

  /** What a node says about the tree. */
  lemma Leads(t: Shape, i: nat)
    requires Tree(t) && i <= t.smax
    ensures t.inp[i] != NUL ==> Leading(t, i)
    ensures t.head[i] == i && i > 0 ==> t.par[i] < i && t.inp[t.par[i]] != NUL && t.nst[t.par[i]] == i
    ensures t.link[i] != 0 ==> t.inp[i] != NUL && i < t.link[i] <= t.smax && t.head[t.link[i]] == t.head[i] && t.str[t.link[i]] == t.str[i]
    ensures NoneBetween(t, i)
  {
    assert InTree(t, i);
  }

  lemma HeadFirst(t: Shape, x: nat)
    requires Tree(t) && x <= t.smax
    ensures t.head[x] <= x && t.head[t.head[x]] == t.head[x] && t.str[t.head[x]] == t.str[x] && (t.head[x] == 0 <==> t.str[x] == "")
  {
    assert InTree(t, x);
  }

  // ---- growing the trie ----

  /** A new state, reached from s by c. */
  function Grown(t: Shape, s: nat, c: char): Shape
    requires t.Sized() && s <= t.smax && t.smax + 1 < MAXSIZ
  {
    var n := t.smax + 1;
    Shape(t.inp[s := c], t.nst[s := n], t.link, t.str[n := t.str[s] + [c]], t.head[n := n], t.par[n := s], n)
  }

  /** A new node of the state of s. */
  function Branched(t: Shape, s: nat): Shape
    requires t.Sized() && s <= t.smax && t.smax + 1 < MAXSIZ
  {
    var n := t.smax + 1;
    Shape(t.inp, t.nst, t.link[s := n], t.str[n := t.str[s]], t.head[n := t.head[s]], t.par, n)
  }

  /** t' has all nodes of t, with the same strings and states. */
  ghost predicate Kept(t: Shape, t': Shape)
  {
    && t.Sized() && t'.Sized() && t.smax <= t'.smax
    && forall i | 0 <= i <= t.smax :: t'.str[i] == t.str[i] && t'.head[i] == t.head[i]
  }

  /** No node of the state of s has c. */
  ghost predicate Lacks(t: Shape, s: nat, c: char)
    requires t.Sized() && s < MAXSIZ
  {
    forall x: nat | x <= t.smax && t.head[x] == t.head[s] :: t.inp[x] != c
  }

  lemma TreeExtend(t: Shape, s: nat, c: char)
    requires Tree(t) && s <= t.smax && t.inp[s] == NUL && t.smax + 1 < MAXSIZ && c != NUL && c != '\n' && Lacks(t, s, c)
    ensures Tree(Grown(t, s, c))
  {
    hide InTree;
    var t' := Grown(t, s, c);
    forall i: nat | i <= t'.smax ensures InTree(t', i) {
      if i <= t.smax { ExtendOld(t, s, c, i); } else { ExtendNew(t, s, c); }
    }
    assert Distinct(t') by {
      forall x: nat | x <= t.smax ensures t.head[x] <= x { HeadFirst(t, x); }
    }
  }

  lemma ExtendOld(t: Shape, s: nat, c: char, i: nat)
    requires t.Sized() && i <= t.smax && InTree(t, i) && s <= t.smax && t.inp[s] == NUL && t.smax + 1 < MAXSIZ && c != NUL && c != '\n'
    ensures InTree(Grown(t, s, c), i)
  {
    hide NoneBetween;
    assert NoneBetween(Grown(t, s, c), i) by { ExtendBetween(t, s, c, i); }
  }

  lemma ExtendBetween(t: Shape, s: nat, c: char, i: nat)
    requires t.Sized() && i <= t.smax && t.head[i] <= i && NoneBetween(t, i) && s <= t.smax && t.smax + 1 < MAXSIZ
    ensures NoneBetween(Grown(t, s, c), i)
  {
  }

  lemma ExtendNew(t: Shape, s: nat, c: char)
    requires t.Sized() && s <= t.smax && t.smax + 1 < MAXSIZ && c != NUL && t.inp[t.smax + 1] == NUL && t.link[t.smax + 1] == 0
    ensures InTree(Grown(t, s, c), t.smax + 1)
  {
  }

  lemma TreeBranch(t: Shape, s: nat)
    requires Tree(t) && s <= t.smax && t.inp[s] != NUL && t.link[s] == 0 && t.smax + 1 < MAXSIZ
    ensures Tree(Branched(t, s))
  {
    hide InTree;
    var t' := Branched(t, s);
    forall i: nat | i <= t'.smax ensures InTree(t', i) {
      if i <= t.smax { BranchOld(t, s, i); } else { BranchNew(t, s); }
    }
    forall x: nat, y: nat | x < y <= t'.smax && t'.head[x] == t'.head[y] ensures t'.inp[x] != t'.inp[y] {
      Leads(t, x);
      Leads(t, s);
    }
  }

  lemma BranchOld(t: Shape, s: nat, i: nat)
    requires t.Sized() && i <= t.smax && InTree(t, i) && s <= t.smax && InTree(t, s) && t.inp[s] != NUL && t.link[s] == 0 && t.smax + 1 < MAXSIZ
    ensures InTree(Branched(t, s), i)
  {
    hide NoneBetween;
    assert NoneBetween(Branched(t, s), i) by { BranchBetween(t, s, i); }
  }

  /** The new node is the last of its state. */
  lemma BranchBetween(t: Shape, s: nat, i: nat)
    requires t.Sized() && i <= t.smax && s <= t.smax && NoneBetween(t, i) && NoneBetween(t, s) && t.link[s] == 0 && t.smax + 1 < MAXSIZ
    requires t.link[i] != 0 ==> t.link[i] <= t.smax
    ensures NoneBetween(Branched(t, s), i)
  {
    var t', n := Branched(t, s), t.smax + 1;
    forall x: nat | i < x <= n && t'.head[x] == t'.head[i] ensures t'.link[i] != 0 && t'.link[i] <= x {
      if x == n && i != s {
        assert t.head[s] == t.head[i];
      }
    }
  }

  lemma BranchNew(t: Shape, s: nat)
    requires t.Sized() && s <= t.smax && InTree(t, s) && t.smax + 1 < MAXSIZ && t.inp[t.smax + 1] == NUL && t.link[t.smax + 1] == 0
    ensures InTree(Branched(t, s), t.smax + 1)
  {
  }

  // ---- marks and failure links ----

  /** A marked state is a keyword. */
  ghost predicate Keys(out: seq<bool>, str: seq<string>, smax: nat, text: string)
  {
    && |out| == |str| == MAXSIZ
    && (forall i: nat | i < MAXSIZ && out[i] :: i <= smax && Keyword(text, str[i]))
  }

  /** u begins a line of the keyword list. */
  ghost predicate IsPrefix(text: string, u: string)
  {
    exists b: nat, k: nat | Prefix(text, b, k) :: text[b..k] == u
  }

  /** Every state has the beginning of a line for its string. */
  ghost predicate Prefixes(str: seq<string>, smax: nat, text: string)
  {
    |str| == MAXSIZ && forall x: nat | x <= smax && x < MAXSIZ :: IsPrefix(text, str[x])
  }

  lemma PrefixesGrow(str: seq<string>, smax: nat, text: string, u: string)
    requires Prefixes(str, smax, text) && smax + 1 < MAXSIZ && IsPrefix(text, u)
    ensures Prefixes(str[smax + 1 := u], smax + 1, text)
  {
    hide IsPrefix;
  }

  lemma PrefixAt(str: seq<string>, smax: nat, text: string, x: nat)
    requires Prefixes(str, smax, text) && x <= smax < MAXSIZ
    ensures IsPrefix(text, str[x])
  {
  }

  lemma BeginsLine(text: string, b: nat, k: nat)
    requires Prefix(text, b, k)
    ensures IsPrefix(text, text[b..k])
  {
  }

  /** The states but the root, by their first nodes. */
  ghost function Heads(t: Shape): set<nat>
    requires t.Sized()
  {
    set x: nat | 0 < x <= t.smax && t.head[x] == x
  }

  lemma HeadsGrown(t: Shape, s: nat, c: char)
    requires t.Sized() && s <= t.smax && t.smax + 1 < MAXSIZ
    ensures |Heads(Grown(t, s, c))| == |Heads(t)| + 1
  {
    assert Heads(Grown(t, s, c)) == Heads(t) + {t.smax + 1};
  }

  lemma HeadsBranched(t: Shape, s: nat)
    requires Tree(t) && s <= t.smax && t.smax + 1 < MAXSIZ
    ensures Heads(Branched(t, s)) == Heads(t)
  {
    hide InTree, Distinct, Spare;
    HeadFirst(t, s);
  }

  /** A marked state ends in a keyword. */
  ghost predicate Outs(out: seq<bool>, str: seq<string>, smax: nat, text: string)
  {
    && |out| == |str| == MAXSIZ
    && (forall i: nat | i < MAXSIZ && out[i] :: i <= smax && Ends(text, str[i]))
  }

  ghost predicate Fails(fail: seq<nat>, str: seq<string>, smax: nat)
  {
    && |fail| == |str| == MAXSIZ && smax < MAXSIZ
    && forall i: nat | i <= smax && fail[i] != 0 :: FailOk(fail[i], str, smax, i)
  }

  ghost predicate FailOk(f: nat, str: seq<string>, smax: nat, i: nat)
    requires |str| == MAXSIZ && smax < MAXSIZ && i <= smax
  {
    f <= smax && Suffix(str[f], str[i]) && |str[f]| < |str[i]|
  }

  lemma KeysGrow(out: seq<bool>, str: seq<string>, smax: nat, text: string, x: string)
    requires Keys(out, str, smax, text) && smax + 1 < MAXSIZ
    ensures Keys(out, str[smax + 1 := x], smax + 1, text)
  {
    hide Keyword;
  }

  lemma KeysSet(out: seq<bool>, str: seq<string>, smax: nat, text: string, i: nat)
    requires Keys(out, str, smax, text) && i <= smax < MAXSIZ && Keyword(text, str[i])
    ensures Keys(out[i := true], str, smax, text)
  {
    hide Keyword;
  }

  lemma KeysEnd(out: seq<bool>, str: seq<string>, smax: nat, text: string)
    requires Keys(out, str, smax, text)
    ensures Outs(out, str, smax, text)
  {
    hide Keyword, Ends;
    forall i: nat | i < MAXSIZ && out[i] ensures Ends(text, str[i]) {
      KeywordEnds(text, str[i]);
    }
  }

  lemma OutsSet(out: seq<bool>, str: seq<string>, smax: nat, text: string, i: nat)
    requires Outs(out, str, smax, text) && i <= smax < MAXSIZ && Ends(text, str[i])
    ensures Outs(out[i := true], str, smax, text)
  {
    hide Ends;
  }

  // ---- the search that gives the failure links ----

  /** The failure link of the state that s leads to, given that of s. */
  ghost function Wanted(t: Shape, f: nat, s: nat): nat
    requires t.Sized() && s < MAXSIZ
  {
    var a := FailNode(t.inp, t.link, f, t.inp[s]);
    if t.head[s] != 0 && t.inp[s] != NUL && a < MAXSIZ then t.nst[a] else 0
  }

  /** The failure link of x when the nodes of `done` have given links to the states they lead to. */
  ghost function LinkOf(t: Shape, fail: seq<nat>, done: set<nat>, x: nat): nat
    requires t.Sized() && |fail| == MAXSIZ && x < MAXSIZ
  {
    var s := if t.head[x] < MAXSIZ then t.par[t.head[x]] else MAXSIZ;
    if t.head[x] != 0 && s < MAXSIZ && s in done then Wanted(t, fail[s], s) else 0
  }

  ghost predicate Given(t: Shape, fail: seq<nat>, done: set<nat>)
    requires t.Sized()
  {
    |fail| == MAXSIZ && forall x: nat | x <= t.smax :: fail[x] == LinkOf(t, fail, done, x)
  }

  /** A state is open once the node that leads to it is done, or is in the root. */
  ghost predicate Opened(t: Shape, done: set<nat>, h: nat)
    requires t.Sized()
  {
    h < MAXSIZ && t.par[h] < MAXSIZ && (t.par[h] in done || t.head[t.par[h]] == 0)
  }

  ghost predicate IsHead(t: Shape, h: nat)
    requires t.Sized()
  {
    0 < h <= t.smax && t.head[h] == h
  }

  ghost predicate DoneOk(t: Shape, done: set<nat>)
    requires t.Sized()
  {
    forall s | s in done :: s <= t.smax && t.head[s] != 0 && Opened(t, done, t.head[s])
  }

  /** A state waiting: open, and none of its nodes done. */
  ghost predicate Waits(t: Shape, done: set<nat>, q: nat)
    requires t.Sized()
  {
    IsHead(t, q) && Opened(t, done, q) && forall x | x in done && x < MAXSIZ :: t.head[x] != q
  }

  ghost predicate QueueOk(t: Shape, done: set<nat>, queue: seq<nat>)
    requires t.Sized()
  {
    && (forall i | 0 <= i < |queue| :: Waits(t, done, queue[i]))
    && (forall i, j | 0 <= i < j < |queue| :: queue[i] != queue[j])
  }

  ghost predicate AllDone(t: Shape, done: set<nat>, h: nat)
    requires t.Sized()
  {
    forall x: nat | x <= t.smax && t.head[x] == h :: x in done
  }

  /** Open states wait or are all done, but for the one being looked at. */
  ghost predicate Covered(t: Shape, done: set<nat>, queue: seq<nat>, now: nat)
    requires t.Sized()
  {
    forall h: nat | IsHead(t, h) && Opened(t, done, h) && h != now :: h in queue || AllDone(t, done, h)
  }

  ghost function Depth(t: Shape, c: nat): nat { if t.Sized() && c < MAXSIZ then |t.str[c]| else 0 }

  /** The queue holds the states by length, of two lengths at most. */
  ghost predicate InOrder(t: Shape, queue: seq<nat>)
    requires t.Sized()
  {
    && (forall q | q in queue :: q <= t.smax)
    && (forall i, j | 0 <= i < j < |queue| :: Depth(t, queue[i]) <= Depth(t, queue[j]) <= Depth(t, queue[i]) + 1)
  }

  ghost predicate Search(t: Shape, fail: seq<nat>, done: set<nat>, queue: seq<nat>, now: nat)
  {
    && Tree(t) && Given(t, fail, done) && DoneOk(t, done) && QueueOk(t, done, queue) && Covered(t, done, queue, now)
    && InOrder(t, if now == 0 then queue else [now] + queue)
  }

  /** State h taken from the queue, its nodes before s done. */
  ghost predicate Visiting(t: Shape, fail: seq<nat>, done: set<nat>, queue: seq<nat>, h: nat, s: nat)
  {
    && Search(t, fail, done, queue, h) && IsHead(t, h) && Opened(t, done, h) && h !in queue
    && s <= t.smax && t.head[s] == h && forall x: nat | x <= t.smax && t.head[x] == h :: x in done <==> x < s
  }

  lemma Take(t: Shape, fail: seq<nat>, done: set<nat>, queue: seq<nat>)
    requires Search(t, fail, done, queue, 0) && queue != []
    ensures Visiting(t, fail, done, queue[1..], queue[0], queue[0])
  {
    hide Given, Opened, InOrder, InTree, Distinct, Spare;
    var h, rest := queue[0], queue[1..];
    assert Waits(t, done, h);
    assert queue == [h] + rest;
    forall x: nat | x <= t.smax && t.head[x] == h ensures x in done <==> x < h {
      HeadFirst(t, x);
    }
    TakeQueue(t, done, queue);
    TakeCovered(t, done, queue);
  }

  lemma TakeQueue(t: Shape, done: set<nat>, queue: seq<nat>)
    requires t.Sized() && QueueOk(t, done, queue) && queue != []
    ensures QueueOk(t, done, queue[1..]) && queue[0] !in queue[1..]
  {
    hide Waits;
    assert forall i | 0 <= i < |queue| - 1 :: queue[1..][i] == queue[i + 1];
  }

  lemma TakeCovered(t: Shape, done: set<nat>, queue: seq<nat>)
    requires t.Sized() && Covered(t, done, queue, 0) && queue != []
    ensures Covered(t, done, queue[1..], queue[0])
  {
    hide Opened, AllDone;
    forall g: nat | IsHead(t, g) && Opened(t, done, g) && g != queue[0] ensures g in queue[1..] || AllDone(t, done, g) {
      assert g in queue || AllDone(t, done, g);
    }
  }

  /** The links after s has given one to the state it leads to. */
  ghost function Handed(t: Shape, fail: seq<nat>, s: nat): (r: seq<nat>)
    requires t.Sized() && |fail| == MAXSIZ && s < MAXSIZ
    ensures |r| == MAXSIZ
  {
    seq(MAXSIZ, x requires 0 <= x < MAXSIZ =>
      if x <= t.smax && t.inp[s] != NUL && t.head[x] == t.nst[s] then Wanted(t, fail[s], s) else fail[x])
  }

  function Longer(t: Shape, queue: seq<nat>, s: nat): seq<nat>
    requires t.Sized() && s < MAXSIZ
  {
    if t.inp[s] != NUL then queue + [t.nst[s]] else queue
  }

  lemma HandedGiven(t: Shape, fail: seq<nat>, done: set<nat>, s: nat)
    requires Tree(t) && Given(t, fail, done) && DoneOk(t, done) && s <= t.smax && t.head[s] != 0 && s !in done
    ensures Given(t, Handed(t, fail, s), done + {s})
  {
    hide Wanted, InTree, Distinct, Spare;
    var fail', done' := Handed(t, fail, s), done + {s};
    forall x: nat | x <= t.smax ensures fail'[x] == LinkOf(t, fail', done', x) {
      Leads(t, s);
      Leads(t, x);
      HeadFirst(t, x);
      HeadFirst(t, s);
      if t.head[x] != 0 {
        Leads(t, t.head[x]);
        var p := t.par[t.head[x]];
        if p in done { Stays(t, fail, done, s, p); }
      }
    }
  }

  /** A node that is done keeps its failure link. */
  lemma Stays(t: Shape, fail: seq<nat>, done: set<nat>, s: nat, p: nat)
    requires Tree(t) && |fail| == MAXSIZ && DoneOk(t, done) && s <= t.smax && t.head[s] != 0 && s !in done && p in done
    ensures p <= t.smax && Handed(t, fail, s)[p] == fail[p]
  {
    hide Wanted, InTree, Distinct, Spare;
    Leads(t, s);
    assert Opened(t, done, t.head[p]);
  }

  lemma DoneNext(t: Shape, done: set<nat>, s: nat)
    requires t.Sized() && DoneOk(t, done) && s <= t.smax && t.head[s] != 0 && Opened(t, done, t.head[s])
    ensures DoneOk(t, done + {s})
  {
  }

  lemma QueueNext(t: Shape, fail: seq<nat>, done: set<nat>, queue: seq<nat>, h: nat, s: nat)
    requires Visiting(t, fail, done, queue, h, s)
    ensures QueueOk(t, done + {s}, Longer(t, queue, s)) && h !in Longer(t, queue, s)
  {
    hide Given, Covered, InOrder, InTree, Distinct, Spare;
    Leads(t, s);
    HeadFirst(t, s);
    var done', queue' := done + {s}, Longer(t, queue, s);
    forall i | 0 <= i < |queue'| ensures Waits(t, done', queue'[i]) {
      if i < |queue| {
        assert queue'[i] == queue[i] && Waits(t, done, queue[i]) && queue[i] in queue;
      } else {
        NewWaits(t, done, s);
      }
    }
    forall i, j | 0 <= i < j < |queue'| ensures queue'[i] != queue'[j] {
      assert queue'[i] == queue[i] && Waits(t, done, queue[i]);
    }
  }

  /** The state s leads to begins to wait. */
  lemma NewWaits(t: Shape, done: set<nat>, s: nat)
    requires Tree(t) && DoneOk(t, done) && s <= t.smax && t.head[s] != 0 && s !in done && t.inp[s] != NUL
    ensures Waits(t, done + {s}, t.nst[s]) && !Opened(t, done, t.nst[s])
  {
    hide InTree, Distinct, Spare;
    Leads(t, s);
    HeadFirst(t, s);
    forall x | x in done + {s} && x < MAXSIZ ensures t.head[x] != t.nst[s] {
      if x in done { assert Opened(t, done, t.head[x]); }
    }
  }

  lemma CoveredNext(t: Shape, done: set<nat>, queue: seq<nat>, h: nat, s: nat)
    requires Tree(t) && Covered(t, done, queue, h) && s <= t.smax && t.head[s] != 0
    ensures Covered(t, done + {s}, Longer(t, queue, s), h)
  {
    hide InTree, Distinct, Spare;
    var done', queue' := done + {s}, Longer(t, queue, s);
    forall g: nat | IsHead(t, g) && Opened(t, done', g) && g != h ensures g in queue' || AllDone(t, done', g) {
      Leads(t, g);
      if Opened(t, done, g) {
        assert g in queue || AllDone(t, done, g);
      } else {
        assert queue'[|queue|] == g;
      }
    }
  }

  lemma OrderTail(t: Shape, h: nat, queue: seq<nat>)
    requires t.Sized() && InOrder(t, [h] + queue)
    ensures InOrder(t, queue)
  {
    hide Depth;
    var all := [h] + queue;
    forall q | q in queue ensures q <= t.smax { assert q in all; }
    forall i, j | 0 <= i < j < |queue| ensures Depth(t, queue[i]) <= Depth(t, queue[j]) <= Depth(t, queue[i]) + 1 {
      assert queue[i] == all[i + 1] && queue[j] == all[j + 1];
    }
  }

  lemma OrderLast(t: Shape, queue: seq<nat>, q: nat)
    requires t.Sized() && queue != [] && InOrder(t, queue) && q <= t.smax && Depth(t, q) == Depth(t, queue[0]) + 1
    ensures InOrder(t, queue + [q])
  {
    hide Depth;
    var now := queue + [q];
    forall i, j | 0 <= i < j < |now| ensures Depth(t, now[i]) <= Depth(t, now[j]) <= Depth(t, now[i]) + 1 {
      assert now[i] == queue[i];
      assert i == 0 || Depth(t, queue[0]) <= Depth(t, queue[i]) <= Depth(t, queue[0]) + 1;
    }
  }

  /** The state s leads to is one longer than that of s. */
  lemma OrderNext(t: Shape, queue: seq<nat>, h: nat, s: nat)
    requires Tree(t) && InOrder(t, [h] + queue) && s <= t.smax && t.head[s] == h
    ensures InOrder(t, [h] + Longer(t, queue, s)) && InOrder(t, Longer(t, queue, s))
  {
    hide InTree, Distinct, Spare, InOrder;
    HeadFirst(t, s);
    Leads(t, s);
    var was, now := [h] + queue, [h] + Longer(t, queue, s);
    if t.inp[s] != NUL {
      assert now == was + [t.nst[s]];
      OrderLast(t, was, t.nst[s]);
    }
    OrderTail(t, h, Longer(t, queue, s));
  }

  /** One node done: on to the next of its state, or back to the queue. */
  lemma Visit(t: Shape, fail: seq<nat>, done: set<nat>, queue: seq<nat>, h: nat, s: nat)
    requires Visiting(t, fail, done, queue, h, s)
    ensures t.Sized() && s <= t.smax && |fail| == MAXSIZ
    ensures t.link[s] != 0 ==> Visiting(t, Handed(t, fail, s), done + {s}, Longer(t, queue, s), h, t.link[s])
    ensures t.link[s] == 0 ==> Search(t, Handed(t, fail, s), done + {s}, Longer(t, queue, s), 0)
  {
    hide InTree, Distinct, Spare, Given, DoneOk, QueueOk, Covered, InOrder, Handed, Longer;
    GivenSize(t, fail, done);
    assert s !in done;
    HandedGiven(t, fail, done, s);
    DoneNext(t, done, s);
    QueueNext(t, fail, done, queue, h, s);
    CoveredNext(t, done, queue, h, s);
    OrderNext(t, queue, h, s);
    Leads(t, s);
    if t.link[s] == 0 {
      LastDone(t, done + {s}, Longer(t, queue, s), h, s);
    }
  }

  /** The state s leads to has no failure link yet. */
  lemma NothingYet(t: Shape, fail: seq<nat>, done: set<nat>, queue: seq<nat>, h: nat, s: nat)
    requires Visiting(t, fail, done, queue, h, s)
    ensures t.Sized() && s <= t.smax && |fail| == MAXSIZ
    ensures t.inp[s] != NUL ==> forall x: nat | x <= t.smax && t.head[x] == t.nst[s] :: fail[x] == 0
  {
    hide InTree, Distinct, Spare, DoneOk, QueueOk, Covered, InOrder, Wanted;
    Leads(t, s);
    if t.inp[s] != NUL {
      forall x: nat | x <= t.smax && t.head[x] == t.nst[s] ensures fail[x] == 0 {
        assert fail[x] == LinkOf(t, fail, done, x);
      }
    }
  }

  lemma GivenSize(t: Shape, fail: seq<nat>, done: set<nat>)
    requires t.Sized() && Given(t, fail, done)
    ensures |fail| == MAXSIZ
  {
  }

  lemma LastDone(t: Shape, done: set<nat>, queue: seq<nat>, h: nat, s: nat)
    requires t.Sized() && Covered(t, done, queue, h) && s <= t.smax && t.head[s] == h && NoneBetween(t, s) && t.link[s] == 0
    requires forall x: nat | x <= s && t.head[x] == h :: x in done
    ensures Covered(t, done, queue, 0)
  {
    assert AllDone(t, done, h);
  }

  /** At the start the states one character from the root wait. */
  ghost predicate RootsOnly(t: Shape, queue: seq<nat>, n: nat)
    requires t.Sized()
  {
    && (forall i | 0 <= i < |queue| :: IsHead(t, queue[i]) && t.par[queue[i]] < n && t.par[queue[i]] < MAXSIZ && t.head[t.par[queue[i]]] == 0)
    && (forall i, j | 0 <= i < j < |queue| :: queue[i] != queue[j])
    && (forall s: nat | s < n && s <= t.smax && t.head[s] == 0 && t.inp[s] != NUL :: t.nst[s] in queue)
  }

  lemma NoRoots(t: Shape)
    requires t.Sized()
    ensures RootsOnly(t, [], 0)
  {
  }

  lemma NextRoot(t: Shape, queue: seq<nat>, s: nat)
    requires Tree(t) && RootsOnly(t, queue, s) && s <= t.smax && t.head[s] == 0
    ensures t.link[s] != 0 ==> t.link[s] <= t.smax && t.head[t.link[s]] == 0 && RootsOnly(t, Longer(t, queue, s), t.link[s])
    ensures t.link[s] == 0 ==> RootsOnly(t, Longer(t, queue, s), MAXSIZ)
  {
    hide InTree, Distinct, Spare;
    Leads(t, s);
    var queue' := Longer(t, queue, s);
    forall i | 0 <= i < |queue'| ensures IsHead(t, queue'[i]) && t.par[queue'[i]] <= s && t.head[t.par[queue'[i]]] == 0 { }
    forall i, j | 0 <= i < j < |queue'| ensures queue'[i] != queue'[j] {
      assert t.par[queue'[i]] < s;
    }
    forall r: nat | r <= s && r <= t.smax && t.head[r] == 0 && t.inp[r] != NUL ensures t.nst[r] in queue' {
      if r == s { assert queue'[|queue|] == t.nst[s]; } else { assert t.nst[r] in queue; }
    }
  }

  lemma RootsInOrder(t: Shape, queue: seq<nat>)
    requires Tree(t) && RootsOnly(t, queue, MAXSIZ)
    ensures InOrder(t, queue)
  {
    hide InTree, Distinct, Spare;
    forall i | 0 <= i < |queue| ensures queue[i] <= t.smax && Depth(t, queue[i]) == 1 {
      var q := queue[i];
      Leads(t, q);
      Leads(t, t.par[q]);
      HeadFirst(t, t.par[q]);
    }
  }

  lemma SearchStart(t: Shape, fail: seq<nat>, queue: seq<nat>)
    requires Tree(t) && RootsOnly(t, queue, MAXSIZ) && |fail| == MAXSIZ && forall x: nat | x < MAXSIZ :: fail[x] == 0
    ensures Search(t, fail, {}, queue, 0)
  {
    hide InTree, Distinct, Spare, InOrder;
    forall h: nat | IsHead(t, h) && Opened(t, {}, h) ensures h in queue {
      Leads(t, h);
    }
    assert InOrder(t, queue) by { RootsInOrder(t, queue); }
  }

  /** Every failure link is the one wanted, given that of the node that leads to the state. */
  ghost predicate LinksRight(t: Shape, fail: seq<nat>)
  {
    && t.Sized() && |fail| == MAXSIZ
    && forall x: nat | x <= t.smax ::
         if t.head[x] == 0 then fail[x] == 0
         else t.head[x] <= t.smax && LinkRight(t, fail, x, t.par[t.head[x]])
  }

  ghost predicate LinkRight(t: Shape, fail: seq<nat>, x: nat, p: nat)
    requires t.Sized() && |fail| == MAXSIZ && x < MAXSIZ
  {
    p < MAXSIZ && fail[x] == Wanted(t, fail[p], p)
  }

  lemma {:induction false} AllVisited(t: Shape, done: set<nat>, s: nat)
    requires Tree(t) && DoneOk(t, done) && Covered(t, done, [], 0) && s <= t.smax && t.head[s] != 0
    ensures s in done && t.par[t.head[s]] < t.head[s] <= s
    decreases s
  {
    hide InTree, Distinct, Spare;
    HeadFirst(t, s);
    var h := t.head[s];
    Leads(t, h);
    var p := t.par[h];
    if t.head[p] != 0 { AllVisited(t, done, p); }
    assert IsHead(t, h) && Opened(t, done, h);
    assert AllDone(t, done, h);
  }

  lemma RootWants(t: Shape, f: nat, p: nat)
    requires t.Sized() && p < MAXSIZ && t.head[p] == 0
    ensures Wanted(t, f, p) == 0
  {
  }

  lemma SearchEnd(t: Shape, fail: seq<nat>, done: set<nat>)
    requires Search(t, fail, done, [], 0)
    ensures LinksRight(t, fail)
  {
    hide InTree, Distinct, Spare, InOrder, Wanted;
    forall x: nat | x <= t.smax
      ensures if t.head[x] == 0 then fail[x] == 0
              else t.head[x] <= t.smax && LinkRight(t, fail, x, t.par[t.head[x]])
    {
      HeadFirst(t, x);
      if t.head[x] != 0 {
        AllVisited(t, done, x);
        var p := t.par[t.head[x]];
        if t.head[p] != 0 { AllVisited(t, done, p); } else { RootWants(t, fail[p], p); }
      }
    }
  }

  // ---- the marks ----

  /** The states failed to have their own links. */
  ghost predicate Settled(t: Shape, fail: seq<nat>, done: set<nat>)
    requires t.Sized() && |fail| == MAXSIZ
  {
    forall y: nat | y <= t.smax && fail[y] != 0 :: fail[y] < MAXSIZ && Opened(t, done, t.head[fail[y]])
  }

  ghost predicate Inherited(fail: seq<nat>, out: seq<bool>, x: nat)
    requires |fail| == |out| == MAXSIZ && x < MAXSIZ
  {
    0 < fail[x] < MAXSIZ && out[fail[x]]
  }

  /** A node is marked if it was before, or if the state it fails to is marked, and no other is. */
  ghost predicate Inherits(t: Shape, fail: seq<nat>, out0: seq<bool>, out: seq<bool>)
  {
    && |fail| == |out0| == |out| == MAXSIZ && t.smax < MAXSIZ
    && forall x: nat | x <= t.smax :: out[x] <==> out0[x] || Inherited(fail, out, x)
  }

  /** The marks after s has given a link to the state it leads to. */
  ghost function Passed(t: Shape, fail: seq<nat>, out: seq<bool>, s: nat): (r: seq<bool>)
    requires t.Sized() && |fail| == |out| == MAXSIZ && s < MAXSIZ
    ensures |r| == MAXSIZ
  {
    var w := Wanted(t, fail[s], s);
    seq(MAXSIZ, x requires 0 <= x < MAXSIZ =>
      out[x] || (x <= t.smax && t.inp[s] != NUL && t.head[x] == t.nst[s] && 0 < w < MAXSIZ && out[w]))
  }

  /** A node not done is no shorter than the state being looked at. */
  lemma {:induction false} Undone(t: Shape, fail: seq<nat>, done: set<nat>, queue: seq<nat>, h: nat, s: nat, x: nat)
    requires Visiting(t, fail, done, queue, h, s) && x <= t.smax && t.head[x] != 0 && x !in done
    ensures |t.str[x]| >= |t.str[h]|
    decreases x
  {
    hide InTree, Distinct, Spare, Given, DoneOk, QueueOk;
    HeadFirst(t, x);
    var g := t.head[x];
    Leads(t, g);
    assert IsHead(t, g);
    if !Opened(t, done, g) {
      Undone(t, fail, done, queue, h, s, t.par[g]);
      Leads(t, t.par[g]);
    } else if g != h {
      assert g in queue || AllDone(t, done, g);
      var k :| 0 <= k < |queue| && queue[k] == g;
      var all := [h] + queue;
      assert all[0] == h && all[k + 1] == g;
    }
  }

  /** The node with a character is one of the state. */
  lemma {:induction false} AlongIn(t: Shape, c: nat, ch: char)
    requires Tree(t) && c <= t.smax
    ensures var a := Along(t.inp, t.link, c, ch); a < MAXSIZ ==> a <= t.smax && t.head[a] == t.head[c] && t.inp[a] == ch
    decreases t.smax - c
  {
    hide InTree, Distinct, Spare;
    Leads(t, c);
    AlongStep(t.inp, t.link, c, ch);
    if t.inp[c] != ch && t.link[c] != 0 { AlongIn(t, t.link[c], ch); }
  }

  /** The state wanted has its own link already: it is shorter than the one that gets the link. */
  lemma WantedOpen(t: Shape, fail: seq<nat>, done: set<nat>, queue: seq<nat>, h: nat, s: nat)
    requires Visiting(t, fail, done, queue, h, s) && Fails(fail, t.str, t.smax)
    ensures var w := Wanted(t, fail[s], s); w != 0 ==> IsHead(t, w) && Opened(t, done, w)
  {
    hide InTree, Distinct, Spare, Given, DoneOk, QueueOk, Covered, InOrder, Along;
    var f, c := fail[s], t.inp[s];
    var a := FailNode(t.inp, t.link, f, c);
    if Wanted(t, f, s) != 0 {
      AlongIn(t, 0, c);
      if f != 0 {
        assert FailOk(f, t.str, t.smax, s);
        AlongIn(t, f, c);
      }
      Leads(t, a);
      HeadFirst(t, a);
      HeadFirst(t, f);
      HeadFirst(t, s);
      if t.head[a] != 0 && a !in done { Undone(t, fail, done, queue, h, s, a); }
    }
  }

  lemma InheritNext(t: Shape, fail: seq<nat>, done: set<nat>, queue: seq<nat>, h: nat, s: nat, out0: seq<bool>, out: seq<bool>)
    requires Visiting(t, fail, done, queue, h, s) && Fails(fail, t.str, t.smax) && Settled(t, fail, done) && Inherits(t, fail, out0, out)
    ensures Settled(t, Handed(t, fail, s), done + {s}) && Inherits(t, Handed(t, fail, s), out0, Passed(t, fail, out, s))
  {
    hide InTree, Distinct, Spare, Given, DoneOk, QueueOk, Covered, InOrder, Wanted, Fails;
    var w, fail', out' := Wanted(t, fail[s], s), Handed(t, fail, s), Passed(t, fail, out, s);
    WantedOpen(t, fail, done, queue, h, s);
    NothingYet(t, fail, done, queue, h, s);
    Leads(t, s);
    if t.inp[s] != NUL { NewStateWaits(t, fail, done, queue, h, s); }
    forall x: nat | x <= t.smax ensures out'[x] <==> out0[x] || Inherited(fail', out', x) {
      assert out[x] <==> out0[x] || Inherited(fail, out, x);
      if fail[x] != 0 { assert Opened(t, done, t.head[fail[x]]); }
    }
  }

  lemma NewStateWaits(t: Shape, fail: seq<nat>, done: set<nat>, queue: seq<nat>, h: nat, s: nat)
    requires Visiting(t, fail, done, queue, h, s) && t.inp[s] != NUL
    ensures !Opened(t, done, t.nst[s])
  {
    hide InTree, Distinct, Spare, Given, QueueOk, Covered, InOrder;
    NewWaits(t, done, s);
  }

  // ---- the order of the search, and the room it needs ----

  /** The states that the nodes of a state lead to, from s on. */
  ghost function Children(t: Shape, s: nat): seq<nat>
    decreases MAXSIZ - s
  {
    if !t.Sized() || s > t.smax then []
    else Longer(t, [], s) + if t.link[s] > s then Children(t, t.link[s]) else []
  }

  /** The states in the order of the search, as far as they are known when k of them were looked at. */
  ghost function Order(t: Shape, k: nat): seq<nat>
  {
    if k == 0 then Children(t, 0)
    else
      var o := Order(t, k - 1);
      if k - 1 < |o| then o + Children(t, o[k - 1]) else o
  }

  /** The queue runs empty at its last cell, and more states come. */
  ghost predicate Strands(t: Shape, k: nat)
  {
    |Order(t, k)| == k + 1 && (k + 1) % QSIZE == QSIZE - 1 && |Order(t, k + 1)| > k + 1
  }

  /** What becomes of the queue when the k-th state is looked at. */
  ghost function Outcome(t: Shape, k: nat): Report
  {
    if Strands(t, k) then Past else if |Order(t, k + 1)| > k + QSIZE then Full else Fine
  }

  ghost predicate RoomTo(t: Shape, k: nat)
  {
    |Order(t, 0)| < QSIZE - 1 && forall i: nat | i < k && i < |Order(t, i)| :: Outcome(t, i) == Fine
  }

  /** The queue is large enough for the whole search. */
  ghost predicate Room(t: Shape)
  {
    |Order(t, 0)| < QSIZE - 1 && forall i: nat | i < |Order(t, i)| :: Outcome(t, i) == Fine
  }

  /** The queue is in order until it leaves the array. */
  ghost predicate Leaves(t: Shape)
  {
    exists k: nat :: RoomTo(t, k) && Strands(t, k)
  }

  ghost predicate Listed(t: Shape, k: nat, queue: seq<nat>)
  {
    k <= |Order(t, k)| && queue == Order(t, k)[k..]
  }

  /** The k-th state is being looked at, from s on. */
  ghost predicate Partly(t: Shape, k: nat, queue: seq<nat>, s: nat)
  {
    && k < |Order(t, k)| <= k + 1 + |queue| && k + 1 <= |Order(t, k + 1)|
    && Order(t, k + 1)[k + 1..] == queue + Children(t, s)
    && (|Order(t, k)| < k + 1 + |queue| ==> !Strands(t, k))
  }

  lemma PartlyStart(t: Shape, k: nat, queue: seq<nat>)
    requires Listed(t, k, queue) && queue != []
    ensures Partly(t, k, queue[1..], queue[0])
  {
    hide Children, Strands;
    var o, c := Order(t, k), Children(t, queue[0]);
    assert o[k] == queue[0];
    assert (o + c)[k + 1..] == o[k + 1..] + c;
    assert queue[1..] == o[k + 1..];
  }

  lemma ChildStep(t: Shape, s: nat)
    requires Tree(t) && s <= t.smax
    ensures Children(t, s) == Longer(t, [], s) + if t.link[s] != 0 then Children(t, t.link[s]) else []
  {
    hide InTree, Distinct, Spare, Longer;
    Leads(t, s);
  }

  /** One node of the state done. */
  lemma PartlyNext(t: Shape, k: nat, queue: seq<nat>, s: nat)
    requires Tree(t) && s <= t.smax && Partly(t, k, queue, s)
    ensures t.inp[s] != NUL && |queue| == QSIZE - 1 ==> Outcome(t, k) == Full
    ensures t.inp[s] != NUL && queue == [] && (k + 1) % QSIZE == QSIZE - 1 ==> Outcome(t, k) == Past
    ensures t.link[s] != 0 && !Stops(t, k, queue, s) ==> Partly(t, k, Longer(t, queue, s), t.link[s])
    ensures t.link[s] == 0 && !Stops(t, k, queue, s) && |queue| < QSIZE ==>
      Listed(t, k + 1, Longer(t, queue, s)) && Outcome(t, k) == Fine
  {
    hide Children, Order, Tree;
    TreeRoot(t);
    ChildStep(t, s);
    var rest := if t.link[s] != 0 then Children(t, t.link[s]) else [];
    assert queue + (Longer(t, [], s) + rest) == Longer(t, queue, s) + rest;
    assert Longer(t, queue, s) + [] == Longer(t, queue, s);
  }

  /** No room for the state that s leads to. */
  ghost predicate Stops(t: Shape, k: nat, queue: seq<nat>, s: nat)
    requires t.Sized() && s < MAXSIZ
  {
    t.inp[s] != NUL && (|queue| == QSIZE - 1 || (queue == [] && (k + 1) % QSIZE == QSIZE - 1))
  }

  lemma {:induction false} OrderStays(t: Shape, k: nat, i: nat)
    requires |Order(t, k)| <= k <= i
    ensures Order(t, i) == Order(t, k)
    decreases i
  {
    hide Children;
    if i > k { OrderStays(t, k, i - 1); }
  }

  lemma AllRoom(t: Shape, k: nat)
    requires RoomTo(t, k) && |Order(t, k)| <= k
    ensures Room(t) && !Leaves(t)
  {
    hide Outcome, Order, Strands;
    forall i: nat | i < |Order(t, i)| ensures Outcome(t, i) == Fine {
      if i >= k { OrderStays(t, k, i); }
    }
    forall i: nat ensures !Strands(t, i) { StrandsPast(t, i); }
  }

  lemma StrandsPast(t: Shape, k: nat)
    ensures (Outcome(t, k) == Past <==> Strands(t, k)) && (Strands(t, k) ==> k < |Order(t, k)|)
  {
    hide Order;
  }

  lemma NoRoom(t: Shape, k: nat)
    requires RoomTo(t, k) && k < |Order(t, k)| && Outcome(t, k) != Fine
    ensures !Room(t) && (Leaves(t) <==> Outcome(t, k) == Past)
  {
    hide Order, Outcome, Strands;
    StrandsPast(t, k);
    if Outcome(t, k) == Past {
      assert RoomTo(t, k) && Strands(t, k);
    } else {
      forall i: nat ensures !(RoomTo(t, i) && Strands(t, i)) { NotBefore(t, k, i); }
    }
  }

  lemma NotBefore(t: Shape, k: nat, i: nat)
    requires RoomTo(t, k) && k < |Order(t, k)| && Outcome(t, k) == Full
    ensures !(RoomTo(t, i) && Strands(t, i))
  {
    hide Order, Outcome, Strands;
    StrandsPast(t, i);
  }

  /** States are listed once, after the states that lead to them. */
  ghost predicate OnceEach(t: Shape, o: seq<nat>, k: nat)
    requires t.Sized()
  {
    && (forall i | 0 <= i < |o| :: IsHead(t, o[i]) && LedTo(t, o, k, o[i]))
    && (forall i, j | 0 <= i < j < |o| :: o[i] != o[j])
  }

  /** The node that leads to x is in the root or in one of the first k states. */
  ghost predicate LedTo(t: Shape, o: seq<nat>, k: nat, x: nat)
    requires t.Sized()
  {
    x < MAXSIZ && t.par[x] < MAXSIZ && var g := t.head[t.par[x]]; g == 0 || exists i :: 0 <= i < k && i < |o| && o[i] == g
  }

  lemma {:induction false} ChildrenOf(t: Shape, s: nat)
    requires Tree(t) && s <= t.smax
    ensures LedFrom(t, Children(t, s), s)
    decreases MAXSIZ - s
  {
    hide Tree;
    TreeRoot(t);
    Leads(t, s);
    if t.link[s] != 0 { ChildrenOf(t, t.link[s]); }
  }

  /** Different states that nodes of one state lead to, from s on. */
  ghost predicate LedFrom(t: Shape, c: seq<nat>, s: nat)
    requires t.Sized() && s < MAXSIZ
  {
    && (forall i | 0 <= i < |c| :: IsHead(t, c[i]) && s <= t.par[c[i]] <= t.smax && t.head[t.par[c[i]]] == t.head[s])
    && (forall i, j | 0 <= i < j < |c| :: c[i] != c[j])
  }

  lemma {:induction false} OrderOnce(t: Shape, k: nat)
    requires Tree(t)
    ensures OnceEach(t, Order(t, k), k)
  {
    hide Tree, Children;
    TreeRoot(t);
    if k == 0 {
      ChildrenOf(t, 0);
      RootsOnce(t, Children(t, 0));
    } else {
      OrderOnce(t, k - 1);
      var o := Order(t, k - 1);
      if k - 1 < |o| {
        OnceNext(t, o, k);
      } else {
        assert forall i | 0 <= i < |o| :: LedTo(t, o, k - 1, o[i]) ==> LedTo(t, o, k, o[i]);
      }
    }
  }

  lemma RootsOnce(t: Shape, c: seq<nat>)
    requires t.Sized() && t.head[0] == 0 && LedFrom(t, c, 0)
    ensures OnceEach(t, c, 0)
  {
  }

  lemma TreeRoot(t: Shape)
    requires Tree(t)
    ensures t.Sized() && t.head[0] == 0 && t.str[0] == ""
  {
    assert InTree(t, 0);
  }

  lemma OnceNext(t: Shape, o: seq<nat>, k: nat)
    requires Tree(t) && 0 < k <= |o| && OnceEach(t, o, k - 1)
    ensures OnceEach(t, o + Children(t, o[k - 1]), k)
  {
    hide Tree, Children;
    TreeRoot(t);
    var h := o[k - 1];
    assert IsHead(t, h);
    ChildrenOf(t, h);
    OnceJoined(t, o, Children(t, h), k);
  }

  lemma OnceJoined(t: Shape, o: seq<nat>, c: seq<nat>, k: nat)
    requires t.Sized() && 0 < k <= |o| && OnceEach(t, o, k - 1) && IsHead(t, o[k - 1]) && LedFrom(t, c, o[k - 1])
    ensures OnceEach(t, o + c, k)
  {
    hide LedTo;
    var n := o + c;
    forall i | 0 <= i < |n| ensures IsHead(t, n[i]) && LedTo(t, n, k, n[i]) {
      if i < |o| { OldLed(t, o, c, k, o[i]); } else { FreshLed(t, o, c, k, i - |o|); }
    }
    forall i, j | 0 <= i < j < |n| ensures n[i] != n[j] {
      if i < |o| <= j {
        NewLed(t, o, k, o[i]);
        assert n[j] == c[j - |o|];
      }
    }
  }

  lemma FreshLed(t: Shape, o: seq<nat>, c: seq<nat>, k: nat, i: nat)
    requires t.Sized() && 0 < k <= |o| && i < |c| && IsHead(t, c[i]) && t.par[c[i]] < MAXSIZ && t.head[t.par[c[i]]] == o[k - 1]
    ensures LedTo(t, o + c, k, c[i])
  {
    assert (o + c)[k - 1] == o[k - 1];
  }

  lemma OldLed(t: Shape, o: seq<nat>, c: seq<nat>, k: nat, x: nat)
    requires t.Sized() && k > 0 && LedTo(t, o, k - 1, x)
    ensures LedTo(t, o + c, k, x)
  {
    var g := t.head[t.par[x]];
    if g != 0 {
      var i :| 0 <= i < k - 1 && i < |o| && o[i] == g;
      assert (o + c)[i] == g;
    }
  }

  /** A state listed before is not led to from the k-th. */
  lemma NewLed(t: Shape, o: seq<nat>, k: nat, x: nat)
    requires t.Sized() && 0 < k <= |o| && OnceEach(t, o, k - 1) && LedTo(t, o, k - 1, x)
    ensures t.head[t.par[x]] != o[k - 1]
  {
  }

  lemma {:induction false} Pigeons(o: seq<nat>, s: set<nat>)
    requires (forall i | 0 <= i < |o| :: o[i] in s) && forall i, j | 0 <= i < j < |o| :: o[i] != o[j]
    ensures |o| <= |s|
  {
    if o != [] {
      var n := |o| - 1;
      forall i | 0 <= i < n ensures o[..n][i] in s - {o[n]} { assert o[i] != o[n]; }
      Pigeons(o[..n], s - {o[n]});
    }
  }

  lemma OrderBound(t: Shape, k: nat)
    requires Tree(t)
    ensures |Order(t, k)| <= |Heads(t)|
  {
    hide Tree, Order;
    TreeRoot(t);
    OrderOnce(t, k);
    Pigeons(Order(t, k), Heads(t));
  }

  /** There is room for as many states as there are cells but two, whatever their order. */
  lemma FewStates(t: Shape)
    requires Tree(t) && |Heads(t)| < QSIZE - 1
    ensures Room(t)
  {
    hide Tree, Order, Heads;
    OrderBound(t, 0);
    forall i: nat | i < |Order(t, i)| ensures Outcome(t, i) == Fine {
      OrderBound(t, i);
      OrderBound(t, i + 1);
    }
  }

  lemma ChildNext(t: Shape, queue: seq<nat>, s: nat)
    requires Tree(t) && s <= t.smax
    ensures var q := Longer(t, queue, s);
      queue + Children(t, s) == if t.link[s] != 0 then q + Children(t, t.link[s]) else q
    ensures Longer(t, queue, s) == if t.inp[s] != NUL then queue + [t.nst[s]] else queue
  {
    hide Tree, Children;
    TreeRoot(t);
    ChildStep(t, s);
    var rest := if t.link[s] != 0 then Children(t, t.link[s]) else [];
    assert queue + (Longer(t, [], s) + rest) == Longer(t, queue, s) + rest;
    assert Longer(t, queue, s) + [] == Longer(t, queue, s);
  }

  lemma RootOrder(t: Shape)
    ensures [] + Children(t, 0) == Order(t, 0) && Listed(t, 0, Order(t, 0))
  {
    hide Children;
  }

  lemma NoCells(cells: seq<nat>)
    requires |cells| == QSIZE
    ensures Ring(cells, 0, 0, [], 0)
  {
  }

  lemma RootRoom(t: Shape)
    ensures |Order(t, 0)| < QSIZE - 1 ==> RoomTo(t, 0)
    ensures |Order(t, 0)| >= QSIZE - 1 ==> !Room(t) && !Leaves(t)
  {
    hide Order, Outcome, Strands;
  }

  lemma NextRoom(t: Shape, k: nat, queue: seq<nat>)
    requires RoomTo(t, k) && Listed(t, k, queue) && queue != []
    ensures Outcome(t, k) == Fine ==> RoomTo(t, k + 1)
    ensures Outcome(t, k) != Fine ==> !Room(t) && (Leaves(t) <==> Outcome(t, k) == Past)
  {
    hide Order, Outcome;
    if Outcome(t, k) != Fine { NoRoom(t, k); }
  }

  lemma EndRoom(t: Shape, k: nat)
    requires RoomTo(t, k) && Listed(t, k, [])
    ensures Room(t) && !Leaves(t)
  {
    hide Order, RoomTo;
    AllRoom(t, k);
  }

  class Matcher {
    var inp: seq<char>
    var out: seq<bool>
    var nst: seq<nat>
    var link: seq<nat>
    var fail: seq<nat>
    var smax: nat
    ghost var str: seq<string>
    ghost var head: seq<nat>
    ghost var par: seq<nat>

    constructor ()
      ensures Tree(Form()) && smax == 0
      ensures |out| == MAXSIZ && forall text :: Keys(out, str, smax, text) && Prefixes(str, smax, text)
      ensures |fail| == MAXSIZ && forall i | 0 <= i < MAXSIZ :: fail[i] == 0
    {
      inp, out := seq(MAXSIZ, _ => NUL), seq(MAXSIZ, _ => false);
      nst, link, fail := seq(MAXSIZ, _ => 0), seq(MAXSIZ, _ => 0), seq(MAXSIZ, _ => 0);
      smax, str := 0, seq(MAXSIZ, _ => "");
      head, par := seq(MAXSIZ, _ => 0), seq(MAXSIZ, _ => 0);
      new;
      forall text ensures IsPrefix(text, "") {
        BeginsLine(text, 0, 0);
        assert text[0..0] == "";
      }
    }

    ghost function Form(): Shape
      reads this`inp, this`nst, this`link, this`smax, this`str, this`head, this`par
    {
      Shape(inp, nst, link, str, head, par, smax)
    }

    /** The trie while it is made: states begin lines of the list, and what is marked is a keyword. */
    ghost predicate Growing(text: string)
      reads this`inp, this`out, this`nst, this`link, this`smax, this`str, this`head, this`par
    {
      Tree(Form()) && |out| == MAXSIZ && Keys(out, str, smax, text) && Prefixes(str, smax, text)
    }

    lemma Sizes()
      requires Tree(Form())
      ensures |inp| == |nst| == |link| == |str| == |head| == |par| == MAXSIZ && smax < MAXSIZ && head[0] == 0 && str[0] == ""
    {
      assert InTree(Form(), 0);
    }

    lemma At(i: nat)
      requires Tree(Form()) && i <= smax
      ensures |inp| == |nst| == |link| == |str| == |head| == MAXSIZ && smax < MAXSIZ
      ensures inp[i] != NUL ==> i < nst[i] <= smax && inp[i] != '\n' && str[nst[i]] == str[i] + [inp[i]] && head[nst[i]] == nst[i]
      ensures link[i] != 0 ==> inp[i] != NUL && i < link[i] <= smax && str[link[i]] == str[i] && head[link[i]] == head[i]
      ensures forall x: nat | i < x <= smax && head[x] == head[i] :: link[i] != 0 && link[i] <= x
      ensures head[i] <= i && str[head[i]] == str[i] && (head[i] == 0 <==> str[i] == "")
    {
      hide InTree, Distinct, Spare;
      Leads(Form(), i);
      HeadFirst(Form(), i);
    }

    /** The search along a state for a character: the node that has it, or the node to enter it at, a
        new one if the state is full.  No room is the only failure. */
    method Find(text: string, s0: nat, c: char) returns (ok: bool, found: bool, s: nat)
      requires Growing(text) && s0 <= smax && |head| == MAXSIZ && smax < MAXSIZ && head[s0] == s0 && c != NUL && c != '\n'
      modifies this`link, this`smax, this`str, this`head
      ensures Growing(text) && s <= smax && Kept(old(Form()), Form())
      ensures str[s] == old(str)[s0] && smax <= old(smax) + (if ok && !found then 1 else 0)
      ensures Heads(Form()) == Heads(old(Form()))
      ensures !ok ==> smax + 1 == MAXSIZ
      ensures found ==> ok && inp[s] == c && s < nst[s] <= smax && str[nst[s]] == str[s] + [c] && head[nst[s]] == nst[s]
      ensures ok && !found ==> inp[s] == NUL && Lacks(Form(), s, c)
    {
      hide Tree, Keys, Prefixes, Heads;
      s := s0;
      Sizes();
      while true
        invariant Growing(text) && s0 <= s <= smax && Form() == old(Form()) && str[s] == str[s0] && head[s] == s0
        invariant forall x: nat | s0 <= x < s && head[x] == s0 :: inp[x] != c
        decreases smax - s
      {
        At(s);
        if inp[s] == c { return true, true, s; }
        StateFrom(s0);
        if inp[s] == NUL { return true, false, s; }
        if link[s] == 0 {
          if smax >= MAXSIZ - 1 { return false, false, s; }
          HeadsBranched(Form(), s);
          NewLink(text, s);
          return true, false, smax;
        }
        s := link[s];
      }
    }

    lemma StateFrom(h: nat)
      requires Tree(Form()) && h <= smax
      ensures |head| == MAXSIZ && smax < MAXSIZ && forall x: nat | x <= smax && head[x] == h :: h <= x
    {
      hide InTree, Distinct, Spare;
      forall x: nat | x <= smax && head[x] == h ensures h <= x { HeadFirst(Form(), x); }
    }

    /** The state that s leads to by c, which is new. */
    method NewState(text: string, s: nat, c: char)
      requires Growing(text) && Form().Sized() && smax + 1 < MAXSIZ && s <= smax && inp[s] == NUL && c != NUL && c != '\n'
      requires Lacks(Form(), s, c) && IsPrefix(text, str[s] + [c])
      modifies this`inp, this`nst, this`smax, this`str, this`head, this`par
      ensures Growing(text) && old(Form()).Sized() && Form() == Grown(old(Form()), s, c) && inp[smax] == NUL
    {
      hide Tree, Keys, Lacks, Prefixes, IsPrefix;
      TreeExtend(Form(), s, c);
      PrefixesGrow(str, smax, text, str[s] + [c]);
      KeysGrow(out, str, smax, text, str[s] + [c]);
      NewNode(Form());
      inp := inp[s := c];
      nst := nst[s := smax + 1];
      str := str[smax + 1 := str[s] + [c]];
      head, par := head[smax + 1 := smax + 1], par[smax + 1 := s];
      smax := smax + 1;
    }

    /** A new node of the state whose last node is s. */
    method NewLink(text: string, s: nat)
      requires Growing(text) && Form().Sized() && smax + 1 < MAXSIZ && s <= smax && inp[s] != NUL && link[s] == 0
      modifies this`link, this`smax, this`str, this`head
      ensures Growing(text) && old(Form()).Sized() && Form() == Branched(old(Form()), s) && inp[smax] == NUL
    {
      hide Tree, Keys, Prefixes, IsPrefix;
      TreeBranch(Form(), s);
      PrefixAt(str, smax, text, s);
      PrefixesGrow(str, smax, text, str[s]);
      KeysGrow(out, str, smax, text, str[s]);
      NewNode(Form());
      link := link[s := smax + 1];
      head := head[smax + 1 := head[s]];
      smax, str := smax + 1, str[smax + 1 := str[s]];
    }

    /** `enter`: the rest of a word, each character in a new state, and the last one marked.  No room is
        the only failure. */
    method Enter(text: string, s0: nat, ghost b: nat, k0: nat) returns (ok: bool, k: nat)
      requires Growing(text) && s0 <= smax && Prefix(text, b, k0) && k0 < |text| && text[k0] != '\n' && NUL !in text
      requires Form().Sized() && str[s0] == text[b..k0] && inp[s0] == NUL && Lacks(Form(), s0, text[k0])
      modifies this`inp, this`nst, this`out, this`smax, this`str, this`head, this`par
      ensures Growing(text) && k0 < k <= |text| && |old(out)| == MAXSIZ && Kept(old(Form()), Form())
      ensures ok ==> Prefix(text, b, k) && (k < |text| ==> text[k] == '\n') && str[smax] == text[b..k] && head[smax] == smax
      ensures smax == old(smax) + k - k0 - (if ok then 0 else 1) && (!ok ==> smax + 1 == MAXSIZ)
      ensures |Heads(Form())| <= |Heads(old(Form()))| + k - k0
      ensures out == if ok then old(out)[smax := true] else old(out)
    {
      hide Tree, Keys, Keyword, Kept, Lacks, Prefixes, IsPrefix, Heads;
      var s: nat := s0;
      k := k0;
      Sizes();
      KeptSame(Form());
      while true
        invariant Growing(text) && s <= smax && k0 <= k < |text| && Prefix(text, b, k) && text[k] != '\n'
        invariant Form().Sized() && b <= k && str[s] == text[b..k] && inp[s] == NUL && Lacks(Form(), s, text[k])
        invariant smax == old(smax) + k - k0 && out == old(out)
        invariant Kept(old(Form()), Form()) && |Heads(Form())| == |Heads(old(Form()))| + k - k0
        decreases |text| - k
      {
        var c := text[k];
        if smax >= MAXSIZ - 1 { return false, k + 1; }
        PrefixNext(text, b, k);
        BeginsLine(text, b, k + 1);
        HeadsGrown(Form(), s, c);
        Alone(Form(), s, c);
        KeptGrown(old(Form()), Form(), s, c);
        NewState(text, s, c);
        s := smax;
        k := k + 1;
        if k == |text| || text[k] == '\n' { break; }
      }
      WordEnds(text, b, k);
      KeysSet(out, str, smax, text, smax);
      out := out[smax := true];
      ok := true;
    }

    /** A word that ends where the trie has its string already. */
    method MarkWord(text: string, s: nat, ghost b: nat, ghost k: nat)
      requires Growing(text) && Form().Sized() && s <= smax && head[s] == s && Entered(Form(), out, text, k)
      requires Prefix(text, b, k) && k < |text| && text[k] == '\n' && str[s] == text[b..k]
      modifies this`out
      ensures Growing(text) && |old(out)| == MAXSIZ && out == old(out)[s := true] && Entered(Form(), out, text, k + 1)
    {
      hide Tree, Keys, Keyword, Entered, Prefixes;
      WordEnds(text, b, k);
      KeysSet(out, str, smax, text, s);
      EnteredNext(Form(), out, out[s := true], text, b, k, s);
      out := out[s := true];
    }

    /** The list is read up to k, and s is the state of the line that begins at b. */
    ghost predicate Reached(text: string, s: nat, b: nat, k: nat)
      reads this`inp, this`out, this`nst, this`link, this`smax, this`str, this`head, this`par
    {
      && Growing(text) && Form().Sized() && smax <= 2 * k && |Heads(Form())| <= k && Entered(Form(), out, text, k)
      && Prefix(text, b, k) && s <= smax && str[s] == text[b..k] && head[s] == s
    }

    lemma StartReached(text: string)
      requires Growing(text) && smax == 0
      ensures Reached(text, 0, 0, 0)
    {
      hide Tree, Keys, Prefixes;
      Sizes();
      NothingEntered(Form(), out, text);
      assert Heads(Form()) == {};
    }

    /** The rest of a line that has left the trie, and its newline. */
    method Leave(text: string, s0: nat, ghost b0: nat, k0: nat) returns (ok: bool, s: nat, ghost b: nat, k: nat)
      requires Growing(text) && Prefix(text, b0, k0) && k0 < |text| && text[k0] != '\n' && NUL !in text
      requires Form().Sized() && s0 <= smax <= 2 * k0 + 1 && str[s0] == text[b0..k0] && inp[s0] == NUL && Lacks(Form(), s0, text[k0])
      requires |Heads(Form())| <= k0 && Entered(Form(), out, text, k0)
      modifies this`inp, this`nst, this`out, this`smax, this`str, this`head, this`par
      ensures Growing(text) && k0 < k <= |text| && (ok ==> Reached(text, s, b, k))
      ensures !ok ==> MAXSIZ == smax + 1 <= 2 * |text|
    {
      hide Tree, Keys, Keyword, Entered, Kept, Lacks, Prefixes, Heads, Prefix;
      b := b0;
      ghost var out0, t0 := out, Form();
      ok, k := Enter(text, s0, b0, k0);
      Sizes();
      s := smax;
      if !ok { return; }
      NoNewline(text, b, k0, k);
      EnteredSame(t0, out0, Form(), out, text, k0, k);
      if k == |text| { return; }
      EnteredNext(Form(), out, out, text, b, k, smax);
      PrefixNext(text, b, k);
      s := 0;
      k := k + 1;
      b := k;
    }

    /** One character of a line. */
    method Letter(text: string, s0: nat, ghost b0: nat, k0: nat) returns (ok: bool, s: nat, ghost b: nat, k: nat)
      requires Reached(text, s0, b0, k0) && k0 < |text| && text[k0] != '\n' && NUL !in text
      modifies this`inp, this`nst, this`link, this`out, this`smax, this`str, this`head, this`par
      ensures Growing(text) && k0 < k <= |text| && (ok ==> Reached(text, s, b, k))
      ensures !ok ==> MAXSIZ == smax + 1 <= 2 * |text|
    {
      hide Tree, Keys, Keyword, Entered, Kept, Lacks, Prefixes, Heads, Prefix;
      b, k := b0, k0 + 1;
      ghost var t0 := Form();
      PrefixNext(text, b, k0);
      NoNewline(text, b, k0, k);
      var found;
      ok, found, s := Find(text, s0, text[k0]);
      if !ok { return; }
      if found {
        EnteredSame(t0, out, Form(), out, text, k0, k);
        s := nst[s];
      } else {
        EnteredSame(t0, out, Form(), out, text, k0, k0);
        ok, s, b, k := Leave(text, s, b0, k0);
      }
    }

    /** `cgotofn`: the trie of the keyword list.  Whatever is marked is a keyword, and every keyword
        that has its newline is marked.  No room is the only failure, and a list of less than half as
        many characters as there are nodes fits. */
    method Cgotofn(text: string) returns (ok: bool)
      requires Growing(text) && smax == 0 && NUL !in text
      modifies this`inp, this`nst, this`link, this`out, this`smax, this`str, this`head, this`par
      ensures Growing(text) && Form().Sized() && (ok ==> Entered(Form(), out, text, |text|) && |Heads(Form())| <= |text|)
      ensures !ok ==> smax + 1 == MAXSIZ
      ensures 2 * |text| < MAXSIZ ==> ok
    {
      hide Tree, Keys, Keyword, Entered, Prefixes, Heads, Prefix;
      var s: nat, k: nat := 0, 0;
      ghost var b: nat := 0;
      StartReached(text);
      while k < |text|
        invariant k <= |text| && Reached(text, s, b, k)
      {
        if text[k] == '\n' {
          Sizes();
          PrefixNext(text, b, k);
          MarkWord(text, s, b, k);
          s := 0;
          k := k + 1;
          b := k;
        } else {
          ok, s, b, k := Letter(text, s, b, k);
          if !ok {
            Sizes();
            return;
          }
        }
      }
      ok := true;
    }

    /** The automaton: marks are sound, failure links lead to proper suffixes. */
    ghost predicate Valid(text: string)
      reads this
    {
      Tree(Form()) && |out| == MAXSIZ && Outs(out, str, smax, text) && Fails(fail, str, smax)
    }

    lemma FailAt(text: string, i: nat)
      requires Valid(text) && i <= smax
      ensures |fail| == |str| == MAXSIZ && smax < MAXSIZ && (fail[i] != 0 ==> FailOk(fail[i], str, smax, i))
    {
    }

    /** The loop at `floop`: a node of the failure state of s, or of the root, that has c. */
    method FindFail(text: string, s: nat, c: char) returns (found: bool, state: nat)
      requires Valid(text) && s <= smax && |str| == MAXSIZ && smax < MAXSIZ && str[s] != "" && c != NUL
      ensures found ==> state <= smax && |inp| == MAXSIZ && inp[state] == c
      ensures found ==> Suffix(str[state], str[s]) && |str[state]| < |str[s]|
      ensures |fail| == MAXSIZ && (found <==> FailNode(inp, link, fail[s], c) < MAXSIZ)
      ensures found ==> state == FailNode(inp, link, fail[s], c)
    {
      hide Tree, Outs, Fails, Along;
      FailAt(text, s);
      Sizes();
      SuffixNone(str[s]);
      state := fail[s];
      var bstart := false;
      while true
        invariant state <= smax && (bstart ==> str[state] == "")
        invariant state != 0 ==> Suffix(str[state], str[s]) && |str[state]| < |str[s]|
        invariant |inp| == |link| == |fail| == MAXSIZ && str[0] == ""
        invariant if bstart then Along(inp, link, state, c) == FailNode(inp, link, fail[s], c)
                  else if state == 0 then fail[s] == 0 || Along(inp, link, fail[s], c) == MAXSIZ
                  else fail[s] != 0 && Along(inp, link, state, c) == Along(inp, link, fail[s], c)
        decreases if bstart then 0 else if state == 0 then 1 else 2, smax - state
      {
        if state == 0 {
          bstart := true;
        }
        At(state);
        AlongStep(inp, link, state, c);
        if inp[state] == c {
          return true, state;
        }
        if link[state] != 0 {
          state := link[state];
        } else if !bstart {
          state := 0;
        } else {
          return false, state;
        }
      }
    }

    /** The loop at `qloop`: all nodes of the state q fail to f. */
    method SetFail(text: string, q0: nat, f: nat)
      requires Valid(text) && q0 <= smax && f <= smax && f != 0 && |head| == MAXSIZ && head[q0] == q0
      requires |str| == MAXSIZ && smax < MAXSIZ && FailOk(f, str, smax, q0)
      modifies this`fail, this`out
      ensures Valid(text) && |fail| == |old(fail)| == MAXSIZ && |out| == |old(out)| == MAXSIZ
      ensures forall x: nat | x < MAXSIZ :: fail[x] == if x <= smax && head[x] == q0 then f else old(fail)[x]
      ensures forall x: nat | x < MAXSIZ :: out[x] <==> old(out)[x] || (x <= smax && head[x] == q0 && old(out)[f])
    {
      hide Tree, Outs, Fails, Ends, Suffix;
      var q: nat := q0;
      Sizes();
      FailAt(text, q0);
      At(f);
      StateFrom(q0);
      while true
        invariant Valid(text) && q0 <= q <= smax && |str| == |link| == |out| == |fail| == |head| == MAXSIZ && str[q] == str[q0] && head[q] == q0
        invariant forall x: nat | x < MAXSIZ :: fail[x] == if x < q && head[x] == q0 then f else old(fail)[x]
        invariant forall x: nat | x < MAXSIZ :: out[x] <==> old(out)[x] || (x < q && head[x] == q0 && old(out)[f])
        decreases smax - q
      {
        SetFailOk(text, fail, str, smax, q0, q, f);
        fail := fail[q := f];
        if out[f] {
          MarkToo(text, out, str, smax, q, f);
          out := out[q := true];
        }
        At(q);
        if link[q] == 0 { return; }
        q := link[q];
      }
    }

    /** The states one character away from the root; room is tested for after each. */
    method Roots(cells: array<nat>) returns (r: Report, rear: nat, ghost queue: seq<nat>)
      requires Tree(Form()) && cells.Length == QSIZE
      modifies cells
      ensures r.Fine? ==> Waiting(queue, str, smax) && RootsOnly(Form(), queue, MAXSIZ)
      ensures r.Fine? ==> Ring(cells[..], 0, rear, queue, 0) && Listed(Form(), 0, queue)
      ensures r == if |Order(Form(), 0)| < QSIZE - 1 then Fine else Full
    {
      hide Tree, Outs, RootsOnly, Ring, Children, Longer, Listed, Order;
      Sizes();
      ghost var t := Form();
      queue, rear := [], 0;
      NoRoots(t);
      NoCells(cells[..]);
      RootOrder(t);
      var s: nat := 0;
      while true
        invariant t == Form() && s <= smax && str[s] == "" && Waiting(queue, str, smax) && RootsOnly(t, queue, s)
        invariant |queue| == rear < QSIZE - 1 && Ring(cells[..], 0, rear, queue, 0)
        invariant queue + Children(t, s) == Order(t, 0)
        decreases smax - s
      {
        At(s);
        NextRoot(t, queue, s);
        ChildNext(t, queue, s);
        if inp[s] != NUL {
          rear := PushFirst(cells, rear, nst[s], queue);
          queue := queue + [nst[s]];
          if rear >= QSIZE - 1 { return Full, rear, queue; }
        }
        if link[s] == 0 { return Fine, rear, queue; }
        s := link[s];
      }
    }

    /** How far the marks are passed on when the nodes of `done` have given links. */
    ghost predicate Passing(keys: seq<bool>, done: set<nat>)
      reads this
    {
      Form().Sized() && |fail| == MAXSIZ && Settled(Form(), fail, done) && Inherits(Form(), fail, keys, out)
    }

    /** Between two states of the search. */
    ghost predicate Idle(text: string, keys: seq<bool>, done: set<nat>, queue: seq<nat>, k: nat)
      reads this
    {
      && Valid(text) && Waiting(queue, str, smax) && Search(Form(), fail, done, queue, 0) && Passing(keys, done)
      && Listed(Form(), k, queue)
    }

    /** At node s of the k-th state h. */
    ghost predicate Busy(text: string, keys: seq<bool>, done: set<nat>, queue: seq<nat>, k: nat, h: nat, s: nat)
      reads this
    {
      && Valid(text) && Waiting(queue, str, smax) && Visiting(Form(), fail, done, queue, h, s) && Passing(keys, done)
      && Partly(Form(), k, queue, s) && s <= smax && |str| == |out| == MAXSIZ && str[s] != ""
    }

    ghost function Effort(queue: seq<nat>, s: nat): nat
      requires Form().Sized()
      reads this`inp, this`nst, this`link, this`smax, this`str, this`head, this`par
    {
      Work(inp, nst, link, smax, queue) + if s == 0 then 0 else Weight(inp, nst, link, smax, s)
    }

    lemma TakeFirst(text: string, keys: seq<bool>, done: set<nat>, queue: seq<nat>, k: nat)
      requires Idle(text, keys, done, queue, k) && queue != []
      ensures Busy(text, keys, done, queue[1..], k, queue[0], queue[0]) && Form().Sized()
      ensures Effort(queue[1..], queue[0]) == Effort(queue, 0)
    {
      hide Tree, Outs, Fails, Search, Visiting, Listed, Partly, Settled, Inherits, Work, Weight;
      Sizes();
      assert queue[0] in queue && forall q | q in queue[1..] :: q in queue;
      At(queue[0]);
      WorkFirst(inp, nst, link, smax, queue);
      Take(Form(), fail, done, queue);
      PartlyStart(Form(), k, queue);
    }

    lemma EffortNext(queue: seq<nat>, s: nat)
      requires Tree(Form()) && 0 < s <= smax
      ensures Form().Sized() && Effort(Longer(Form(), queue, s), link[s]) < Effort(queue, s)
    {
      hide Tree, Work, Weight;
      Sizes();
      At(s);
      WeightOf(inp, nst, link, smax, s);
      if inp[s] != NUL { WorkLast(inp, nst, link, smax, queue, nst[s]); }
    }

    /** A node: the state it leads to joins the queue if there is room, and gets its failure links. */
    method VisitNode(text: string, cells: array<nat>, front: nat, rear0: nat, s: nat, ghost queue0: seq<nat>, ghost k: nat,
                     ghost h: nat, ghost done: set<nat>, ghost keys: seq<bool>)
      returns (r: Report, rear: nat, ghost queue: seq<nat>)
      requires Busy(text, keys, done, queue0, k, h, s) && Ring(cells[..], front, rear0, queue0, k + 1)
      modifies this`fail, this`out, cells
      ensures Valid(text) && Form().Sized() && s <= smax && (!r.Fine? ==> r == Outcome(Form(), k))
      ensures r.Fine? ==> Ring(cells[..], front, rear, queue, k + 1) && queue == Longer(Form(), queue0, s)
      ensures r.Fine? && link[s] != 0 ==> Busy(text, keys, done + {s}, queue, k, h, link[s])
      ensures r.Fine? && link[s] == 0 ==> Idle(text, keys, done + {s}, queue, k + 1) && Outcome(Form(), k) == Fine
    {
      hide Tree, Outs, Fails, Ends, FailOk, Search, Visiting, Handed, Passed, Settled, Inherits, Ring, Listed, Partly, Outcome;
      Sizes();
      At(s);
      ghost var t := Form();
      Visit(t, fail, done, queue0, h, s);
      NothingYet(t, fail, done, queue0, h, s);
      InheritNext(t, fail, done, queue0, h, s, keys, out);
      PartlyNext(t, k, queue0, s);
      RingSizes(cells[..], front, rear0, queue0, k + 1);
      queue, rear := queue0, rear0;
      if inp[s] != NUL {
        r, rear := Push(cells, front, rear, nst[s], queue, k + 1);
        if !r.Fine? { return; }
        queue := queue + [nst[s]];
      }
      GiveFail(text, s);
      r := Fine;
    }

    /** The loop at `cloop` for the first state of the queue: its children join the queue and get their
        failure links, as long as there is room. */
    method Expand(text: string, cells: array<nat>, front0: nat, rear0: nat, ghost queue0: seq<nat>, ghost k: nat,
                  ghost done0: set<nat>, ghost keys: seq<bool>)
      returns (r: Report, front: nat, rear: nat, ghost queue: seq<nat>, ghost done: set<nat>)
      requires Idle(text, keys, done0, queue0, k) && queue0 != [] && Ring(cells[..], front0, rear0, queue0, k) && Form().Sized()
      modifies this`fail, this`out, cells
      ensures Valid(text) && r == Outcome(Form(), k) && Form().Sized()
      ensures r.Fine? ==> Idle(text, keys, done, queue, k + 1) && Ring(cells[..], front, rear, queue, k + 1)
      ensures r.Fine? ==> Effort(queue, 0) < Effort(queue0, 0)
    {
      hide Tree, Outs, Fails, Idle, Busy, Ring, Outcome, Effort, Longer;
      TakeFirst(text, keys, done0, queue0, k);
      var s;
      s, front := Pop(cells, front0, rear0, queue0, k);
      rear, queue, done := rear0, queue0[1..], done0;
      ghost var h := s;
      while true
        invariant Form().Sized() && Busy(text, keys, done, queue, k, h, s) && Ring(cells[..], front, rear, queue, k + 1)
        invariant Effort(queue, s) <= Effort(queue0, 0)
        decreases smax - s
      {
        BusyAt(text, keys, done, queue, k, h, s);
        EffortNext(queue, s);
        r, rear, queue := VisitNode(text, cells, front, rear, s, queue, k, h, done, keys);
        if !r.Fine? { return; }
        done := done + {s};
        if link[s] == 0 { return Fine, front, rear, queue, done; }
        s := link[s];
      }
    }

    lemma BusyAt(text: string, keys: seq<bool>, done: set<nat>, queue: seq<nat>, k: nat, h: nat, s: nat)
      requires Busy(text, keys, done, queue, k, h, s)
      ensures Valid(text) && Tree(Form()) && Form().Sized() && 0 < s <= smax && (link[s] != 0 ==> s < link[s] <= smax)
    {
      hide Tree, Outs, Fails, Search, Visiting, Partly, Settled, Inherits;
      Sizes();
      At(s);
    }

    /** The failure links and the marks of the state after s. */
    method GiveFail(text: string, s: nat)
      requires Valid(text) && s <= smax && |str| == |inp| == |fail| == MAXSIZ && smax < MAXSIZ && str[s] != "" && Form().Sized()
      requires inp[s] != NUL ==> forall x: nat | x <= smax && head[x] == nst[s] :: fail[x] == 0
      modifies this`fail, this`out
      ensures Valid(text) && |old(fail)| == |old(out)| == MAXSIZ && fail == Handed(Form(), old(fail), s)
      ensures out == Passed(Form(), old(fail), old(out), s)
    {
      hide Tree, Outs, Fails, Ends, Suffix, FailNode;
      Sizes();
      At(s);
      if inp[s] != NUL {
        var found, state := FindFail(text, s, inp[s]);
        if found {
          At(state);
          SuffixNext(str[state], str[s], inp[s]);
          SetFail(text, nst[s], nst[state]);
        }
      }
    }

    /** `cfail`: breadth first, every state gets the failure link found through that of the node that
        leads to it, by one failure and then from the root; and a node is marked if and only if it was before
        or the state it fails to is.  It ends so if and only if the queue has room for the search. */
    method Cfail(text: string) returns (r: Report)
      requires Valid(text) && forall i: nat | i < MAXSIZ :: i < |fail| && fail[i] == 0
      modifies this`fail, this`out
      ensures Valid(text) && (r.Fine? <==> Room(Form())) && (r.Past? <==> Leaves(Form()))
      ensures r.Fine? ==> LinksRight(Form(), fail) && Inherits(Form(), fail, old(out), out)
    {
      hide Tree, Outs, Fails, Ends, FailOk, Search, Settled, Inherits, Ring, Listed, Order, Outcome, Room, Leaves, RoomTo;
      Sizes();
      FailAt(text, 0);
      var cells := new nat[QSIZE];
      var front, rear: nat := 0, 0;
      ghost var queue, done: set<nat>, k: nat := [], {}, 0;
      r, rear, queue := Roots(cells);
      RootRoom(Form());
      if !r.Fine? { return; }
      SearchStart(Form(), fail, queue);
      NonePassed(Form(), fail, out);
      EmptyRing(cells[..], front, rear, queue, k);
      while rear != front
        invariant Idle(text, old(out), done, queue, k) && RoomTo(Form(), k) && Form().Sized()
        invariant Ring(cells[..], front, rear, queue, k) && (rear == front <==> queue == [])
        decreases Effort(queue, 0)
      {
        NextRoom(Form(), k, queue);
        r, front, rear, queue, done := Expand(text, cells, front, rear, queue, k, done, old(out));
        if !r.Fine? { return; }
        k := k + 1;
        EmptyRing(cells[..], front, rear, queue, k);
      }
      EndRoom(Form(), k);
      SearchEnd(Form(), fail, done);
      r := Fine;
    }

    ghost function Table(): Auto
      reads this`inp, this`out, this`nst, this`link, this`fail, this`str, this`head, this`par, this`smax
    {
      Auto(Form(), fail, out)
    }

    /** One character: along the state, then down the failure links, then from the root.  The new state is
        still a suffix of what was read. */
    method Step(text: string, c0: nat, ch: char, ghost read: string) returns (c: nat)
      requires Valid(text) && c0 <= smax && |str| == MAXSIZ && smax < MAXSIZ && Suffix(str[c0], read) && ch != NUL
      ensures c <= smax && Suffix(str[c], read + [ch]) && c == Next(Table(), c0, ch)
    {
      hide Tree, Outs, Fails, Ends, Suffix, Next, Along, Last;
      Sizes();
      ghost var t := Table();
      c := c0;
      while true
        invariant c <= smax && |str| == |inp| == |link| == |nst| == MAXSIZ && Suffix(str[c], read)
        invariant t == Table() && Next(t, c, ch) == Next(t, c0, ch)
        decreases |str[c]|, smax - c
      {
        At(c);
        FailAt(text, c);
        Moves(t, c, ch);
        SuffixNext(str[c], read, ch);
        if inp[c] == ch { return nst[c]; }
        if link[c] != 0 {
          c := link[c];
        } else if fail[c] != 0 {
          SuffixTrans(str[fail[c]], str[c], read);
          c := fail[c];
        } else {
          break;
        }
      }
      c := 0;
      SuffixNone(read);
      SuffixNone(read + [ch]);
      while true
        invariant c <= smax && |str| == |inp| == |link| == |nst| == MAXSIZ && str[c] == ""
        invariant t == Table() && FromRoot(t, c, ch) == Next(t, c0, ch)
        decreases smax - c
      {
        At(c);
        FailAt(text, c);
        Moves(t, c, ch);
        SuffixNext(str[c], read, ch);
        if inp[c] == ch { return nst[c]; }
        if link[c] == 0 { return; }
        c := link[c];
      }
    }

    /** The matching loop of `execute` on a whole file: the lines reported, each as the place where it
        begins and the place where the automaton entered a marked state.  There a keyword ends; and every
        line on which a marked state is entered is reported, once. */
    method Execute(text: string, file: string) returns (found: seq<(nat, nat)>)
      requires Valid(text) && NUL !in file
      ensures AllHits(text, file, found)
      ensures Reported(Table(), file, found, |file|)
    {
      hide Tree, Outs, Fails, Suffix, Ends, LineStart, AllHits, Read, Reported, Next, Silent;
      Sizes();
      ghost var t := Table();
      found := [];
      NoHits(text, file);
      NoReports(t, file);
      var c: nat, p: nat, nlp: nat := 0, 0, 0;
      NewLine(file, 0, str);
      while p < |file|
        invariant nlp <= p <= |file| && c <= smax && LineStart(file, nlp, p) && Suffix(str[c], Read(file, nlp, p))
        invariant AllHits(text, file, found) && Reported(t, file, found, nlp) && Silent(t, file, nlp, p, c)
      {
        ghost var c0 := c;
        c := Step(text, c, file[p], Read(file, nlp, p));
        NextChar(file, nlp, p, str);
        if out[c] {
          OutAt(text, c);
          AddHit(text, file, found, nlp, p, str[c]);
          ghost var was, b, k := found, nlp, p;
          found := found + [(nlp, p)];
          p := SkipLine(file, p);
          AddReport(t, file, was, b, k, c0, p);
          NewLine(file, p, str);
          NotYet(t, file, p);
          nlp := p;
          c := 0;
        } else {
          StaySilent(t, file, nlp, p, c0, found);
          p := p + 1;
          if file[p - 1] == '\n' {
            NotYet(t, file, p);
            nlp := p;
            c := 0;
          }
        }
      }
      EndReport(t, file, found, nlp, c);
    }

    lemma OutAt(text: string, i: nat)
      requires Valid(text) && i <= smax && |str| == MAXSIZ && smax < MAXSIZ && out[i]
      ensures Ends(text, str[i])
    {
    }
  }

  /** A line begins at b, and its newline is not before k. */
  ghost predicate LineStart(file: string, b: nat, k: nat)
  {
    b <= k <= |file| && (b == 0 || file[b - 1] == '\n' || b == |file|) && forall i | b <= i < k :: file[i] != '\n'
  }

  /** What was read of the line that begins at b. */
  ghost function Read(file: string, b: nat, p: nat): string
    requires b <= p <= |file|
  {
    file[b..p]
  }

  // ---- the automaton as a function ----

  datatype Auto = Auto(form: Shape, fail: seq<nat>, out: seq<bool>)
  {
    ghost predicate Sized() { form.Sized() && |fail| == |out| == MAXSIZ }
  }

  /** The node of the state that has ch, MAXSIZ if there is none. */
  ghost function Along(inp: seq<char>, link: seq<nat>, c: nat, ch: char): nat
    decreases MAXSIZ - c
  {
    if !(|inp| == |link| == MAXSIZ) || c >= MAXSIZ then MAXSIZ
    else if inp[c] == ch then c
    else if link[c] > c then Along(inp, link, link[c], ch) else MAXSIZ
  }

  ghost function Last(t: Auto, c: nat): nat
    decreases MAXSIZ - c
  {
    if t.Sized() && c < MAXSIZ && t.form.link[c] > c then Last(t, t.form.link[c]) else c
  }

  ghost function FromRoot(t: Auto, c: nat, ch: char): nat
  {
    var a := Along(t.form.inp, t.form.link, c, ch);
    if t.Sized() && a < MAXSIZ then t.form.nst[a] else Last(t, c)
  }

  /** The state after c on ch: within the state, else after failing as often as it takes, else from the root. */
  ghost function Next(t: Auto, c: nat, ch: char): nat
    decreases Depth(t.form, c)
  {
    var a, l := Along(t.form.inp, t.form.link, c, ch), Last(t, c);
    if !t.Sized() then 0
    else if a < MAXSIZ then t.form.nst[a]
    else if l < MAXSIZ && t.fail[l] != 0 && Depth(t.form, t.fail[l]) < Depth(t.form, c) then Next(t, t.fail[l], ch)
    else FromRoot(t, 0, ch)
  }

  /** The node with ch in the failure state f, else in the root: one failure, not more. */
  ghost function FailNode(inp: seq<char>, link: seq<nat>, f: nat, ch: char): nat
  {
    if f != 0 && Along(inp, link, f, ch) < MAXSIZ then Along(inp, link, f, ch) else Along(inp, link, 0, ch)
  }

  lemma AlongStep(inp: seq<char>, link: seq<nat>, c: nat, ch: char)
    requires |inp| == |link| == MAXSIZ && c < MAXSIZ && (link[c] != 0 ==> c < link[c])
    ensures Along(inp, link, c, ch) == if inp[c] == ch then c else if link[c] != 0 then Along(inp, link, link[c], ch) else MAXSIZ
  {
  }

  lemma Moves(t: Auto, c: nat, ch: char)
    requires t.Sized() && c < MAXSIZ
    requires t.form.link[c] != 0 ==> c < t.form.link[c] < MAXSIZ && t.form.str[t.form.link[c]] == t.form.str[c]
    requires t.fail[c] != 0 ==> t.fail[c] < MAXSIZ && |t.form.str[t.fail[c]]| < |t.form.str[c]|
    ensures t.form.inp[c] == ch ==> FromRoot(t, c, ch) == t.form.nst[c]
    ensures t.form.inp[c] != ch && t.form.link[c] != 0 ==> FromRoot(t, c, ch) == FromRoot(t, t.form.link[c], ch)
    ensures t.form.inp[c] != ch && t.form.link[c] == 0 ==> FromRoot(t, c, ch) == c
    ensures t.form.inp[c] == ch ==> Next(t, c, ch) == t.form.nst[c]
    ensures t.form.inp[c] != ch && t.form.link[c] != 0 ==> Next(t, c, ch) == Next(t, t.form.link[c], ch)
    ensures t.form.inp[c] != ch && t.form.link[c] == 0 && t.fail[c] != 0 ==> Next(t, c, ch) == Next(t, t.fail[c], ch)
    ensures t.form.inp[c] != ch && t.form.link[c] == 0 && t.fail[c] == 0 ==> Next(t, c, ch) == FromRoot(t, 0, ch)
  {
  }

  /** The state after a line's characters b..p. */
  ghost function Run(t: Auto, file: string, b: nat, p: nat): nat
    requires b <= p <= |file|
    decreases p
  {
    if p == b then 0 else Next(t, Run(t, file, b, p - 1), file[p - 1])
  }

  ghost predicate Marks(t: Auto, file: string, b: nat, p: nat)
    requires b <= p < |file|
  {
    var c := Run(t, file, b, p + 1);
    c < |t.out| && t.out[c]
  }

  /** The line that begins at b enters a marked state first at p. */
  ghost predicate First(t: Auto, file: string, b: nat, p: nat)
  {
    && b <= p < |file| && (b == 0 || file[b - 1] == '\n') && (forall i | b <= i < p :: file[i] != '\n')
    && Marks(t, file, b, p) && forall q | b <= q < p :: !Marks(t, file, b, q)
  }

  /** Of the lines that begin before n, exactly those that enter a marked state are reported. */
  ghost predicate Reported(t: Auto, file: string, found: seq<(nat, nat)>, n: nat)
  {
    && (forall b: nat, p: nat | b < n && First(t, file, b, p) :: (b, p) in found)
    && (forall m | m in found :: m.0 < n && First(t, file, m.0, m.1))
  }

  /** No marked state yet on the line that begins at b. */
  ghost predicate Silent(t: Auto, file: string, b: nat, p: nat, c: nat)
  {
    b <= p <= |file| && c == Run(t, file, b, p) && forall q | b <= q < p :: !Marks(t, file, b, q)
  }

  lemma NoReports(t: Auto, file: string)
    ensures Reported(t, file, [], 0) && Silent(t, file, 0, 0, 0)
  {
  }

  lemma NotYet(t: Auto, file: string, p: nat)
    requires p <= |file|
    ensures Silent(t, file, p, p, 0)
  {
  }

  lemma AddReport(t: Auto, file: string, found: seq<(nat, nat)>, b: nat, p: nat, c0: nat, n: nat)
    requires Reported(t, file, found, b) && LineStart(file, b, p) && p < |file| && Silent(t, file, b, p, c0)
    requires Next(t, c0, file[p]) < |t.out| && t.out[Next(t, c0, file[p])]
    requires p < n <= |file| && (forall i | p <= i < n - 1 :: file[i] != '\n')
    ensures Reported(t, file, found + [(b, p)], n)
  {
    hide Next, Run;
    RunNext(t, file, b, p);
    assert First(t, file, b, p);
    var f := found + [(b, p)];
    forall d: nat, q: nat | d < n && First(t, file, d, q) ensures (d, q) in f {
      if d < b {
        assert (d, q) in found;
      } else {
        assert d == b;
        OnlyFirst(t, file, b, p, q);
        assert f[|found|] == (d, q);
      }
    }
  }

  lemma RunNext(t: Auto, file: string, b: nat, p: nat)
    requires b <= p < |file|
    ensures Run(t, file, b, p + 1) == Next(t, Run(t, file, b, p), file[p])
  {
  }

  lemma OnlyFirst(t: Auto, file: string, b: nat, p: nat, q: nat)
    requires First(t, file, b, p) && First(t, file, b, q)
    ensures p == q
  {
    hide Marks;
  }

  lemma SameLine(file: string, b: nat, k: nat, d: nat)
    requires LineStart(file, b, k) && b <= d <= k && (d == 0 || file[d - 1] == '\n')
    ensures d == b
  {
  }

  lemma StaySilent(t: Auto, file: string, b: nat, p: nat, c0: nat, found: seq<(nat, nat)>)
    requires Silent(t, file, b, p, c0) && p < |file| && LineStart(file, b, p)
    requires !(Next(t, c0, file[p]) < |t.out| && t.out[Next(t, c0, file[p])]) && Reported(t, file, found, b)
    ensures Silent(t, file, b, p + 1, Next(t, c0, file[p]))
    ensures file[p] == '\n' ==> Reported(t, file, found, p + 1)
  {
    hide Next, Run;
    RunNext(t, file, b, p);
    if file[p] == '\n' {
      forall d: nat, q: nat | d < p + 1 && First(t, file, d, q) ensures (d, q) in found {
        if d >= b { SameLine(file, b, p, d); assert false; }
      }
    }
  }

  lemma EndReport(t: Auto, file: string, found: seq<(nat, nat)>, b: nat, c: nat)
    requires Reported(t, file, found, b) && Silent(t, file, b, |file|, c) && LineStart(file, b, |file|)
    ensures Reported(t, file, found, |file|)
  {
    forall d: nat, q: nat | d < |file| && First(t, file, d, q) ensures (d, q) in found {
      if d >= b { assert false; }
    }
  }

  lemma NewLine(file: string, p: nat, str: seq<string>)
    requires p <= |file| && (p == 0 || p == |file| || file[p - 1] == '\n') && |str| > 0 && str[0] == ""
    ensures LineStart(file, p, p) && Suffix(str[0], Read(file, p, p))
  {
  }

  lemma NextChar(file: string, b: nat, p: nat, str: seq<string>)
    requires LineStart(file, b, p) && p < |file| && |str| > 0 && str[0] == ""
    ensures Read(file, b, p + 1) == Read(file, b, p) + [file[p]]
    ensures file[p] != '\n' ==> LineStart(file, b, p + 1)
    ensures file[p] == '\n' ==> LineStart(file, p + 1, p + 1) && Suffix(str[0], Read(file, p + 1, p + 1))
  {
  }

  method SkipLine(file: string, p0: nat) returns (p: nat)
    requires p0 < |file|
    ensures p0 < p <= |file| && (p == |file| || file[p - 1] == '\n') && (forall i | p0 <= i < p - 1 :: file[i] != '\n')
  {
    p := p0;
    while p < |file| && file[p] != '\n'
      invariant p0 <= p <= |file| && forall i | p0 <= i < p :: file[i] != '\n'
    {
      p := p + 1;
    }
    if p < |file| { p := p + 1; }
  }

  /** The line that begins at b has a keyword that ends with the character at p. */
  ghost predicate Hit(text: string, file: string, b: nat, p: nat)
  {
    b <= p < |file| && LineStart(file, b, p) && Ends(text, file[b..p + 1])
  }

  ghost predicate AllHits(text: string, file: string, found: seq<(nat, nat)>)
  {
    forall i | 0 <= i < |found| :: Hit(text, file, found[i].0, found[i].1)
  }

  lemma NoHits(text: string, file: string)
    ensures AllHits(text, file, [])
  {
  }

  lemma AddHit(text: string, file: string, found: seq<(nat, nat)>, b: nat, p: nat, x: string)
    requires AllHits(text, file, found) && LineStart(file, b, p) && p < |file|
    requires Ends(text, x) && Suffix(x, Read(file, b, p + 1))
    ensures AllHits(text, file, found + [(b, p)])
  {
    hide Ends, Suffix;
    EndsSuffix(text, x, file[b..p + 1]);
    assert Hit(text, file, b, p);
  }

  ghost predicate Waiting(queue: seq<nat>, str: seq<string>, smax: nat)
  {
    |str| == MAXSIZ && smax < MAXSIZ && forall q | q in queue :: q <= smax && str[q] != ""
  }

  /** The nodes to visit from i on. */
  ghost function Weight(inp: seq<char>, nst: seq<nat>, link: seq<nat>, smax: nat, i: nat): nat
    requires |inp| == |nst| == |link| == MAXSIZ && smax < MAXSIZ
    decreases MAXSIZ - i
  {
    if i > smax then 0
    else 1 + (if inp[i] != NUL && nst[i] > i then Weight(inp, nst, link, smax, nst[i]) else 0)
           + (if link[i] > i then Weight(inp, nst, link, smax, link[i]) else 0)
  }

  ghost function Work(inp: seq<char>, nst: seq<nat>, link: seq<nat>, smax: nat, queue: seq<nat>): nat
    requires |inp| == |nst| == |link| == MAXSIZ && smax < MAXSIZ
  {
    if queue == [] then 0
    else Work(inp, nst, link, smax, queue[..|queue| - 1]) + Weight(inp, nst, link, smax, queue[|queue| - 1])
  }

  lemma WeightOf(inp: seq<char>, nst: seq<nat>, link: seq<nat>, smax: nat, i: nat)
    requires |inp| == |nst| == |link| == MAXSIZ && i <= smax < MAXSIZ
    ensures Weight(inp, nst, link, smax, i) == 1
      + (if inp[i] != NUL && nst[i] > i then Weight(inp, nst, link, smax, nst[i]) else 0)
      + (if link[i] > i then Weight(inp, nst, link, smax, link[i]) else 0)
  {
  }

  lemma WorkLast(inp: seq<char>, nst: seq<nat>, link: seq<nat>, smax: nat, queue: seq<nat>, x: nat)
    requires |inp| == |nst| == |link| == MAXSIZ && smax < MAXSIZ
    ensures Work(inp, nst, link, smax, queue + [x]) == Work(inp, nst, link, smax, queue) + Weight(inp, nst, link, smax, x)
  {
    assert (queue + [x])[..|queue|] == queue;
  }

  lemma {:induction false} WorkFirst(inp: seq<char>, nst: seq<nat>, link: seq<nat>, smax: nat, queue: seq<nat>)
    requires |inp| == |nst| == |link| == MAXSIZ && smax < MAXSIZ && queue != []
    ensures Work(inp, nst, link, smax, queue) == Weight(inp, nst, link, smax, queue[0]) + Work(inp, nst, link, smax, queue[1..])
  {
    hide Weight;
    var n := |queue| - 1;
    if n == 0 {
      assert queue[..n] == [] && queue[1..] == [];
    } else {
      WorkFirst(inp, nst, link, smax, queue[..n]);
      assert queue[..n][1..] == queue[1..][..n - 1];
    }
  }

  lemma SetFailOk(text: string, fail: seq<nat>, str: seq<string>, smax: nat, q0: nat, q: nat, f: nat)
    requires Fails(fail, str, smax) && q0 <= smax && q <= smax && str[q] == str[q0] && FailOk(f, str, smax, q0)
    ensures Fails(fail[q := f], str, smax)
  {
  }

  lemma MarkToo(text: string, out: seq<bool>, str: seq<string>, smax: nat, q: nat, f: nat)
    requires Outs(out, str, smax, text) && q <= smax < MAXSIZ && f <= smax && out[f] && Suffix(str[f], str[q])
    ensures Outs(out[q := true], str, smax, text)
  {
    hide Suffix, Ends;
    EndsSuffix(text, str[f], str[q]);
    OutsSet(out, str, smax, text, q);
  }

  /** Position k is in the word that begins at b. */
  ghost predicate Prefix(text: string, b: nat, k: nat)
  {
    b <= k <= |text| && (b == 0 || text[b - 1] == '\n') && forall i | b <= i < k :: text[i] != '\n'
  }

  lemma PrefixNext(text: string, b: nat, k: nat)
    requires Prefix(text, b, k) && k < |text|
    ensures text[k] != '\n' ==> Prefix(text, b, k + 1) && text[b..k + 1] == text[b..k] + [text[k]]
    ensures text[k] == '\n' ==> Prefix(text, k + 1, k + 1) && text[k + 1..k + 1] == ""
  {
  }

  lemma NoNewline(text: string, b: nat, k: nat, k': nat)
    requires Prefix(text, b, k) && Prefix(text, b, k') && k <= k'
    ensures k' <= |text| && forall e | k <= e < k' :: text[e] != '\n'
  {
  }

  lemma WordEnds(text: string, b: nat, e: nat)
    requires Prefix(text, b, e) && (if e < |text| then text[e] == '\n' else b < e)
    ensures Keyword(text, text[b..e])
  {
    assert IsWord(text, b, e);
  }

  /** Every keyword that ends before k is marked, at the first node of its state. */
  ghost predicate Entered(t: Shape, out: seq<bool>, text: string, k: nat)
  {
    && t.Sized() && |out| == MAXSIZ
    && forall b: nat, e: nat | IsWord(text, b, e) && e < k && e < |text| :: Marked(t, out, text[b..e])
  }

  ghost predicate Marked(t: Shape, out: seq<bool>, x: string)
    requires t.Sized() && |out| == MAXSIZ
  {
    exists i: nat | i <= t.smax :: out[i] && t.str[i] == x && t.head[i] == i
  }

  lemma NothingEntered(t: Shape, out: seq<bool>, text: string)
    requires t.Sized() && |out| == MAXSIZ
    ensures Entered(t, out, text, 0)
  {
  }

  lemma EnteredSame(t: Shape, out: seq<bool>, t': Shape, out': seq<bool>, text: string, k: nat, k': nat)
    requires Entered(t, out, text, k) && Kept(t, t') && |out'| == MAXSIZ && forall i | 0 <= i <= t.smax && out[i] :: out'[i]
    requires k <= k' <= |text| && forall e | k <= e < k' :: text[e] != '\n'
    ensures Entered(t', out', text, k')
  {
    forall b: nat, e: nat | IsWord(text, b, e) && e < k' && e < |text| ensures Marked(t', out', text[b..e]) {
      assert e < k;
      var i: nat :| i <= t.smax && out[i] && t.str[i] == text[b..e] && t.head[i] == i;
      assert out'[i] && t'.str[i] == text[b..e] && t'.head[i] == i;
    }
  }

  lemma EnteredNext(t: Shape, out: seq<bool>, out': seq<bool>, text: string, b: nat, k: nat, s: nat)
    requires Entered(t, out, text, k) && Prefix(text, b, k) && k < |text| && text[k] == '\n'
    requires s <= t.smax && (out' == out || out' == out[s := true]) && out'[s] && t.str[s] == text[b..k] && t.head[s] == s
    ensures Entered(t, out', text, k + 1)
  {
    forall c: nat, e: nat | IsWord(text, c, e) && e < k + 1 && e < |text| ensures Marked(t, out', text[c..e]) {
      if e == k {
        assert c == b;
      } else {
        var i: nat :| i <= t.smax && out[i] && t.str[i] == text[c..e] && t.head[i] == i;
        assert out'[i];
      }
    }
  }

  lemma NewNode(t: Shape)
    requires Tree(t) && t.smax + 1 < MAXSIZ
    ensures t.inp[t.smax + 1] == NUL && t.link[t.smax + 1] == 0
  {
    hide InTree;
  }

  /** A new state has one node, without a character. */
  lemma Alone(t: Shape, s: nat, c: char)
    requires Tree(t) && s <= t.smax && t.smax + 1 < MAXSIZ
    ensures var t' := Grown(t, s, c); forall d | d != NUL :: Lacks(t', t'.smax, d)
  {
    hide InTree, Distinct;
    forall x: nat | x <= t.smax ensures t.head[x] <= x { HeadFirst(t, x); }
  }

  lemma KeptSame(t: Shape)
    requires t.Sized()
    ensures Kept(t, t)
  {
  }

  lemma KeptGrown(t0: Shape, t: Shape, s: nat, c: char)
    requires Kept(t0, t) && s <= t.smax && t.smax + 1 < MAXSIZ
    ensures Kept(t0, Grown(t, s, c))
  {
  }

  lemma KeysKept(t: Shape, fail: seq<nat>, keys: seq<bool>, out: seq<bool>)
    requires Inherits(t, fail, keys, out)
    ensures |keys| == |out| == |fail| == MAXSIZ && t.smax < MAXSIZ && forall i | 0 <= i <= t.smax && keys[i] :: out[i]
  {
  }

  lemma EnteredKept(t: Shape, keys: seq<bool>, out: seq<bool>, text: string)
    requires Entered(t, keys, text, |text|) && |keys| == |out| == MAXSIZ && t.smax < MAXSIZ && forall i | 0 <= i <= t.smax && keys[i] :: out[i]
    ensures Entered(t, out, text, |text|)
  {
    hide Entered;
    EnteredSized(t, keys, text);
    KeptSame(t);
    EnteredSame(t, keys, t, out, text, |text|, |text|);
  }

  lemma EnteredSized(t: Shape, out: seq<bool>, text: string)
    requires Entered(t, out, text, |text|)
    ensures t.Sized() && |out| == MAXSIZ
  {
  }

  lemma NonePassed(t: Shape, fail: seq<nat>, out: seq<bool>)
    requires t.Sized() && |fail| == |out| == MAXSIZ && forall x: nat | x < MAXSIZ :: fail[x] == 0
    ensures Settled(t, fail, {}) && Inherits(t, fail, out, out)
  {
  }

  lemma NoFails(fail: seq<nat>, str: seq<string>, smax: nat)
    requires |fail| == |str| == MAXSIZ && smax < MAXSIZ && forall i: nat | i < MAXSIZ :: fail[i] == 0
    ensures Fails(fail, str, smax)
  {
  }

  // ---- lines that begin with a keyword ----

  /** A line begins at b, and begins with x. */
  ghost predicate BeginsWith(file: string, b: nat, x: string)
  {
    b + |x| <= |file| && (b == 0 || file[b - 1] == '\n') && file[b..b + |x|] == x
  }

  ghost predicate Shown(found: seq<(nat, nat)>, b: nat)
  {
    exists p: nat :: (b, p) in found
  }

  /** A line that begins with a keyword of the list that is not empty and has its newline is reported. */
  ghost predicate NoneMissed(text: string, file: string, found: seq<(nat, nat)>)
  {
    forall b: nat, e: nat, d: nat | IsWord(text, b, e) && b < e < |text| && BeginsWith(file, d, text[b..e]) :: Shown(found, d)
  }

  /** From any node of a state before p the search for the character of p ends at p. */
  lemma {:induction false} AlongTo(t: Shape, c: nat, p: nat)
    requires Tree(t) && c <= p <= t.smax && t.head[c] == t.head[p]
    ensures Along(t.inp, t.link, c, t.inp[p]) == p
    decreases p - c
  {
    hide InTree;
    if c < p {
      Leads(t, c);
      AlongTo(t, t.link[c], p);
    }
  }

  /** On the characters of a state's own string the automaton goes to the state, without failing. */
  lemma {:induction false} PathRun(t: Auto, file: string, b: nat, i: nat)
    requires t.Sized() && Tree(t.form) && i <= t.form.smax && t.form.head[i] == i
    requires b + |t.form.str[i]| <= |file| && file[b..b + |t.form.str[i]|] == t.form.str[i]
    ensures Run(t, file, b, b + |t.form.str[i]|) == i
    decreases i
  {
    hide InTree, Along, Last, Next;
    var s := t.form;
    HeadFirst(s, i);
    if i != 0 {
      Leads(s, i);
      var p := s.par[i];
      Leads(s, p);
      HeadFirst(s, p);
      var g, e := s.head[p], b + |s.str[i]| - 1;
      assert file[e] == file[b..e + 1][e - b];
      assert file[b..e] == file[b..e + 1][..e - b];
      PathRun(t, file, b, g);
      AlongTo(s, g, p);
      NextAlong(t, g, s.inp[p]);
    }
  }

  lemma NextAlong(t: Auto, c: nat, ch: char)
    requires t.Sized() && Along(t.form.inp, t.form.link, c, ch) < MAXSIZ
    ensures Next(t, c, ch) == t.form.nst[Along(t.form.inp, t.form.link, c, ch)]
  {
    hide Along;
  }

  /** The first marked state on a line that enters one. */
  lemma {:induction false} FirstOf(t: Auto, file: string, b: nat, p: nat) returns (q: nat)
    requires b <= p < |file| && (b == 0 || file[b - 1] == '\n') && (forall i | b <= i < p :: file[i] != '\n') && Marks(t, file, b, p)
    ensures First(t, file, b, q)
    decreases p
  {
    hide Marks;
    if r: nat :| b <= r < p && Marks(t, file, b, r) {
      q := FirstOf(t, file, b, r);
    } else {
      q := p;
    }
  }

  lemma AllShown(text: string, t: Auto, file: string, found: seq<(nat, nat)>)
    requires t.Sized() && Tree(t.form) && Entered(t.form, t.out, text, |text|) && Reported(t, file, found, |file|)
    ensures NoneMissed(text, file, found)
  {
    hide Tree, Reported;
    forall b: nat, e: nat, d: nat | IsWord(text, b, e) && b < e < |text| && BeginsWith(file, d, text[b..e]) ensures Shown(found, d) {
      var x := text[b..e];
      assert Marked(t.form, t.out, x);
      var i: nat :| i <= t.form.smax && t.out[i] && t.form.str[i] == x && t.form.head[i] == i;
      PathRun(t, file, d, i);
      forall k | d <= k < d + |x| ensures file[k] != '\n' { assert file[k] == x[k - d] == text[b + (k - d)]; }
      var q := FirstOf(t, file, d, d + |x| - 1);
      IsReported(t, file, found, d, q);
    }
  }

  lemma IsReported(t: Auto, file: string, found: seq<(nat, nat)>, b: nat, p: nat)
    requires Reported(t, file, found, |file|) && First(t, file, b, p)
    ensures Shown(found, b)
  {
    assert (b, p) in found;
  }

  /** The trie of a keyword list: its states begin lines of the list, and the keywords are marked. */
  ghost predicate Trie(text: string, t: Shape, keys: seq<bool>)
  {
    Tree(t) && Prefixes(t.str, t.smax, text) && Keys(keys, t.str, t.smax, text) && Entered(t, keys, text, |text|)
  }

  /** The automaton of a keyword list: the trie, the failure links of the search, and the marks they pass
      on. */
  ghost predicate Built(text: string, t: Auto, keys: seq<bool>)
  {
    && t.Sized() && Trie(text, t.form, keys)
    && LinksRight(t.form, t.fail) && Inherits(t.form, t.fail, keys, t.out)
  }

  /** How the program ends: a search of the file, or one of its two tables is too small. */
  datatype Ending = Searched | NodesFull | QueueFull | QueuePast

  /** The whole program on one file.  Unless the list is too long, of the lines exactly those that enter a
      marked state of the list's automaton are reported, so each has a keyword of the list, and those that
      begin with one are among them.  The nodes are enough for half as many characters, and the queue is
      enough if and only if there is room in it for the states of the list, as for any list of less than
      399 characters. */
  method Select(text: string, file: string)
    returns (r: Ending, found: seq<(nat, nat)>, ghost t: Auto, ghost keys: seq<bool>)
    requires NUL !in text && NUL !in file
    ensures r.NodesFull? ==> t.form.smax + 1 == MAXSIZ <= 2 * |text|
    ensures !r.NodesFull? ==> Trie(text, t.form, keys)
    ensures !r.NodesFull? ==> (r.Searched? <==> Room(t.form)) && (r.QueuePast? <==> Leaves(t.form))
    ensures |text| < QSIZE - 1 ==> r.Searched?
    ensures r.Searched? ==> Built(text, t, keys) && Reported(t, file, found, |file|)
    ensures r.Searched? ==> AllHits(text, file, found) && NoneMissed(text, file, found)
  {
    hide Tree, Keys, Outs, Fails, AllHits, Reported, LinksRight, Entered, Inherits, NoneMissed, Prefixes, Heads, Room, Leaves;
    found := [];
    var m := new Matcher();
    var ok := m.Cgotofn(text);
    keys, t := m.out, m.Table();
    if !ok { return NodesFull, found, t, keys; }
    m.Sizes();
    NoFails(m.fail, m.str, m.smax);
    KeysEnd(m.out, m.str, m.smax, text);
    if |text| < QSIZE - 1 { FewStates(t.form); }
    var e := m.Cfail(text);
    t := m.Table();
    match e {
      case Full => r := QueueFull;
      case Past => r := QueuePast;
      case Fine =>
        KeysKept(t.form, t.fail, keys, t.out);
        EnteredKept(t.form, keys, t.out, text);
        found := m.Execute(text, file);
        AllShown(text, t, file, found);
        r := Searched;
    }
  }
}
