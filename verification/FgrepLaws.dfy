/** What the automaton of src/cmd/fgrep.c misses, when it misses nothing, and the keyword its queue is too
    short for. */
module FgrepLaws {
  import opened Fgrep
  import opened FgrepQueue

  // ---- states and strings ----

  /** A first node of a state, or the root. */
  ghost predicate Begins(t: Shape, x: nat)
    requires t.Sized()
  {
    x <= t.smax && t.head[x] == x
  }

  /** A state is determined by its string. */
  lemma {:induction false} SameState(t: Shape, x: nat, y: nat)
    requires Tree(t) && Begins(t, x) && Begins(t, y) && t.str[x] == t.str[y]
    ensures x == y
    decreases x
  {
    hide InTree, Spare;
    HeadFirst(t, x);
    HeadFirst(t, y);
    if x != 0 {
      Leads(t, x);
      Leads(t, y);
      var p, q := t.par[x], t.par[y];
      Leads(t, p);
      Leads(t, q);
      HeadFirst(t, p);
      HeadFirst(t, q);
      SplitLast(t.str[p], t.inp[p], t.str[q], t.inp[q]);
      SameState(t, t.head[p], t.head[q]);
      assert t.head[p] == t.head[q] && t.inp[p] == t.inp[q];
    }
  }

  lemma SplitLast(u: string, c: char, v: string, d: char)
    requires u + [c] == v + [d]
    ensures u == v && c == d
  {
    assert (u + [c])[|u|] == c && (v + [d])[|v|] == d;
    assert u == (u + [c])[..|u|] && v == (v + [d])[..|v|];
  }

  ghost predicate HasState(t: Shape, u: string)
    requires t.Sized()
  {
    exists x: nat :: Begins(t, x) && t.str[x] == u
  }

  /** With a state its beginnings are states. */
  lemma {:induction false} Ancestor(t: Shape, x: nat, n: nat)
    requires Tree(t) && Begins(t, x) && n <= |t.str[x]|
    ensures HasState(t, t.str[x][..n])
    decreases x
  {
    hide Tree;
    TreeRoot(t);
    HeadFirst(t, x);
    if n == |t.str[x]| {
      assert t.str[x][..n] == t.str[x];
    } else {
      Leads(t, x);
      var p := t.par[x];
      Leads(t, p);
      HeadFirst(t, p);
      assert t.str[x][..n] == t.str[p][..n];
      Ancestor(t, t.head[p], n);
    }
  }

  /** Every beginning of a keyword that has its newline is a state. */
  lemma KeywordState(text: string, t: Shape, keys: seq<bool>, b: nat, e: nat, n: nat)
    requires Trie(text, t, keys) && IsWord(text, b, e) && e < |text| && b <= n <= e
    ensures HasState(t, text[b..n])
  {
    hide Tree, Keys, Prefixes;
    assert Marked(t, keys, text[b..e]);
    var i: nat :| i <= t.smax && keys[i] && t.str[i] == text[b..e] && t.head[i] == i;
    Ancestor(t, i, n - b);
    assert text[b..e][..n - b] == text[b..n];
  }

  /** A node of a state that has a character leads to a state the search lists. */
  lemma {:induction false} ChildIn(t: Shape, s: nat, p: nat)
    requires Tree(t) && s <= p <= t.smax && t.head[s] == t.head[p] && t.inp[p] != NUL
    ensures t.nst[p] in Children(t, s)
    decreases p - s
  {
    hide InTree, Distinct, Spare;
    ChildStep(t, s);
    Leads(t, s);
    var c := Children(t, s);
    if s == p {
      assert c[0] == t.nst[p];
    } else {
      ChildIn(t, t.link[s], p);
    }
  }

  // ---- one long keyword ----

  /** The states of the trie are the beginnings of w, all of them. */
  ghost predicate Chain(t: Shape, w: string)
  {
    && Tree(t) && (forall x: nat | x <= t.smax :: t.str[x] <= w) && (forall n | 0 <= n <= |w| :: HasState(t, w[..n]))
  }

  /** A state of a chain leads to the next. */
  lemma ChainChildren(t: Shape, w: string, h: nat)
    requires Chain(t, w) && Begins(t, h)
    ensures |t.str[h]| <= |w|
    ensures |Children(t, h)| == if |t.str[h]| < |w| then 1 else 0
    ensures forall y | y in Children(t, h) :: Begins(t, y) && |t.str[y]| == |t.str[h]| + 1
  {
    hide Tree, Children;
    TreeRoot(t);
    var n, c := |t.str[h]|, Children(t, h);
    assert t.str[h] <= w;
    ChildrenOf(t, h);
    forall i | 0 <= i < |c| ensures Begins(t, c[i]) && n < |w| && t.str[c[i]] == w[..n + 1] {
      assert IsHead(t, c[i]);
      ChildString(t, c[i], h);
      assert t.str[c[i]] <= w;
    }
    if |c| > 1 {
      SameState(t, c[0], c[1]);
      assert false;
    }
    if n < |w| {
      var x: nat :| Begins(t, x) && t.str[x] == w[..n + 1];
      ParentState(t, w, x, h);
    }
  }

  lemma ChildString(t: Shape, y: nat, h: nat)
    requires Tree(t) && Begins(t, h) && IsHead(t, y) && t.par[y] <= t.smax && t.head[t.par[y]] == h
    ensures |t.str[y]| == |t.str[h]| + 1
  {
    hide Tree;
    TreeRoot(t);
    Leads(t, y);
    Leads(t, t.par[y]);
    HeadFirst(t, t.par[y]);
  }

  lemma ParentState(t: Shape, w: string, x: nat, h: nat)
    requires Tree(t) && Begins(t, x) && Begins(t, h) && t.str[h] < w && t.str[x] == w[..|t.str[h]| + 1]
    ensures x in Children(t, h)
  {
    hide Tree, Children;
    TreeRoot(t);
    HeadFirst(t, x);
    Leads(t, x);
    var p := t.par[x];
    Leads(t, p);
    HeadFirst(t, p);
    var n := |t.str[h]|;
    assert w[..n + 1] == w[..n] + [w[n]] && w[..n] == t.str[h];
    SplitLast(t.str[p], t.inp[p], t.str[h], w[n]);
    SameState(t, t.head[p], h);
    ChildIn(t, h, p);
  }

  /** The search lists the states of a chain one by one. */
  lemma {:induction false} ChainOrder(t: Shape, w: string, k: nat)
    requires Chain(t, w) && w != ""
    ensures |Order(t, k)| == if k < |w| then k + 1 else |w|
    ensures forall i | 0 <= i < |Order(t, k)| :: Begins(t, Order(t, k)[i]) && |t.str[Order(t, k)[i]]| == i + 1
  {
    hide Chain, Children;
    ChainTree(t, w);
    if k == 0 {
      ChainChildren(t, w, 0);
    } else {
      ChainOrder(t, w, k - 1);
      var o := Order(t, k - 1);
      if k - 1 < |o| { ChainChildren(t, w, o[k - 1]); }
    }
  }

  lemma ChainTree(t: Shape, w: string)
    requires Chain(t, w)
    ensures Tree(t) && Begins(t, 0) && t.str[0] == ""
  {
    hide InTree;
    TreeRoot(t);
  }

  /** There is room for a chain if and only if it is shorter than the queue; a longer one leaves it. */
  lemma ChainRoom(t: Shape, w: string)
    requires Chain(t, w) && w != ""
    ensures (Room(t) <==> |w| < QSIZE) && (Leaves(t) <==> |w| >= QSIZE)
  {
    hide Chain, Order, Strands, Outcome;
    ChainOrder(t, w, 0);
    forall k: nat { ChainOutcome(t, w, k); }
    var last: nat := QSIZE - 2;
    if |w| >= QSIZE {
      ChainOutcome(t, w, last);
      assert RoomTo(t, last) && Strands(t, last);
    }
  }

  lemma ChainOutcome(t: Shape, w: string, k: nat)
    requires Chain(t, w) && w != ""
    ensures Strands(t, k) <==> (k + 1) % QSIZE == QSIZE - 1 && k + 1 < |w|
    ensures Outcome(t, k) == (if Strands(t, k) then Past else Fine) && (Strands(t, k) ==> k < |Order(t, k)|)
    ensures Strands(t, k) ==> k >= QSIZE - 2 && |w| >= QSIZE
  {
    hide Chain, Order;
    ChainOrder(t, w, k);
    ChainOrder(t, w, k + 1);
  }

  /** The trie of a list of one keyword is a chain. */
  lemma OneWord(w: string, t: Shape, keys: seq<bool>)
    requires '\n' !in w && Trie(w + "\n", t, keys)
    ensures Chain(t, w)
  {
    hide Tree, Keys, Entered;
    TreeRoot(t);
    var text := w + "\n";
    forall x: nat | x <= t.smax ensures t.str[x] <= w {
      PrefixAt(t.str, t.smax, text, x);
      var b: nat, k: nat :| Prefix(text, b, k) && text[b..k] == t.str[x];
      OnlyLine(w, b, k);
    }
    assert IsWord(text, 0, |w|);
    forall n | 0 <= n <= |w| ensures HasState(t, w[..n]) {
      KeywordState(text, t, keys, 0, |w|, n);
      assert text[0..n] == w[..n];
    }
  }

  lemma OnlyLine(w: string, b: nat, k: nat)
    requires '\n' !in w && Prefix(w + "\n", b, k)
    ensures (w + "\n")[b..k] <= w
  {
    var text := w + "\n";
    if b == 0 {
      assert text[|w|] == '\n';
      assert text[0..k] == w[..k];
    } else if b <= |w| {
      assert false;
    }
  }

  /** One keyword: the queue is enough if and only if it has less than 400 characters. */
  method OneKeyword(w: string) returns (r: Ending)
    requires w != "" && '\n' !in w && NUL !in w
    ensures r.Searched? ==> |w| < QSIZE
    ensures 2 * |w| + 2 < MAXSIZ ==> r == if |w| < QSIZE then Searched else QueuePast
  {
    hide Trie, Room, Leaves, Chain, Built, Reported, AllHits, NoneMissed;
    var found;
    ghost var t, keys;
    r, found, t, keys := Select(w + "\n", "");
    if !r.NodesFull? {
      OneWord(w, t.form, keys);
      ChainRoom(t.form, w);
    }
  }

  // ---- the failure links as strings ----

  /** The search along the state of h finds the state one character further, if there is one. */
  lemma AlongState(t: Shape, h: nat, c: char)
    requires Tree(t) && Begins(t, h) && c != NUL
    ensures var a := Along(t.inp, t.link, h, c);
      if HasState(t, t.str[h] + [c]) then a < MAXSIZ && Begins(t, t.nst[a]) && t.str[t.nst[a]] == t.str[h] + [c]
      else a >= MAXSIZ
  {
    hide Tree, Along;
    TreeRoot(t);
    AlongIn(t, h, c);
    var a, u := Along(t.inp, t.link, h, c), t.str[h] + [c];
    if a < MAXSIZ {
      Leads(t, a);
      HeadFirst(t, a);
      assert Begins(t, t.nst[a]) && t.str[t.nst[a]] == u;
    } else if HasState(t, u) {
      var x: nat :| Begins(t, x) && t.str[x] == u;
      var p := NodeBefore(t, x, h, c);
      AlongTo(t, h, p);
      assert false;
    }
  }

  /** The node of the state of h that leads to x. */
  lemma NodeBefore(t: Shape, x: nat, h: nat, c: char) returns (p: nat)
    requires Tree(t) && Begins(t, x) && Begins(t, h) && t.str[x] == t.str[h] + [c]
    ensures h <= p <= t.smax && t.head[p] == h && t.inp[p] == c && t.nst[p] == x && p == t.par[x] && c != NUL
  {
    hide Tree;
    TreeRoot(t);
    HeadFirst(t, x);
    Leads(t, x);
    p := t.par[x];
    Leads(t, p);
    HeadFirst(t, p);
    SplitLast(t.str[p], t.inp[p], t.str[h], c);
    SameState(t, t.head[p], h);
  }

  /** The state of u fails to the state of v, the root standing for none. */
  ghost predicate FailsTo(t: Auto, u: string, v: string)
    requires t.Sized()
  {
    forall x: nat | Begins(t.form, x) && t.form.str[x] == u :: FailsAt(t, x, v)
  }

  ghost predicate FailsAt(t: Auto, x: nat, v: string)
    requires t.Sized() && x < MAXSIZ
  {
    t.fail[x] < MAXSIZ && Begins(t.form, t.fail[x]) && t.form.str[t.fail[x]] == v
  }

  /** The failure link as a function of strings: one failure, then from the root. */
  ghost function LinkString(t: Shape, u: string): string
    requires t.Sized()
  {
    if |u| <= 1 then ""
    else
      var v, c := LinkString(t, u[..|u| - 1]), u[|u| - 1];
      if v != "" && HasState(t, v + [c]) then v + [c] else if HasState(t, [c]) then [c] else ""
  }

  /** The links of the automaton are those. */
  lemma {:induction false} LinksByString(t: Auto, u: string)
    requires t.Sized() && Tree(t.form) && LinksRight(t.form, t.fail)
    ensures FailsTo(t, u, LinkString(t.form, u))
  {
    hide Tree, LinksRight;
    TreeRoot(t.form);
    if |u| > 1 { LinksByString(t, u[..|u| - 1]); }
    forall x: nat | Begins(t.form, x) && t.form.str[x] == u ensures FailsAt(t, x, LinkString(t.form, u)) {
      if u == "" {
        HeadFirst(t.form, x);
        RootFails(t, x);
      } else {
        LinkOfState(t, u, x);
      }
    }
  }

  lemma RootFails(t: Auto, x: nat)
    requires t.Sized() && LinksRight(t.form, t.fail) && x <= t.form.smax && t.form.head[x] == 0
    ensures t.fail[x] == 0
  {
  }

  lemma LinkAt(t: Auto, x: nat)
    requires t.Sized() && LinksRight(t.form, t.fail) && x <= t.form.smax && t.form.head[x] != 0
    ensures t.form.head[x] <= t.form.smax && LinkRight(t.form, t.fail, x, t.form.par[t.form.head[x]])
  {
  }

  /** Nodes of one state have one link. */
  lemma SameLink(t: Auto, p: nat)
    requires t.Sized() && Tree(t.form) && LinksRight(t.form, t.fail) && p <= t.form.smax
    ensures t.form.head[p] <= t.form.smax && t.fail[p] == t.fail[t.form.head[p]]
  {
    hide Tree, Wanted, LinksRight;
    var h := t.form.head[p];
    HeadFirst(t.form, p);
    if h == 0 {
      RootFails(t, p);
      RootFails(t, h);
    } else {
      LinkAt(t, p);
      LinkAt(t, h);
    }
  }

  lemma LinkOfState(t: Auto, u: string, x: nat)
    requires t.Sized() && Tree(t.form) && LinksRight(t.form, t.fail) && Begins(t.form, x) && t.form.str[x] == u != ""
    requires |u| > 1 ==> FailsTo(t, u[..|u| - 1], LinkString(t.form, u[..|u| - 1]))
    ensures FailsAt(t, x, LinkString(t.form, u))
  {
    hide Tree, LinksRight, Along;
    TreeRoot(t.form);
    var s, n := t.form, |u| - 1;
    HeadFirst(s, x);
    Leads(s, x);
    var p := s.par[x];
    Leads(s, p);
    HeadFirst(s, p);
    var h, c := s.head[p], s.inp[p];
    assert u == s.str[h] + [c] && u[..n] == s.str[h] && u[n] == c;
    LinkAt(t, x);
    SameLink(t, p);
    AlongState(s, 0, c);
    assert s.str[0] + [c] == [c];
    if h != 0 {
      assert FailsAt(t, h, LinkString(s, u[..n]));
      HeadFirst(s, t.fail[h]);
      AlongState(s, t.fail[h], c);
    }
  }

  // ---- no mark ----

  ghost predicate Unmarked(t: Auto, u: string)
    requires t.Sized()
  {
    forall x: nat | Begins(t.form, x) && t.form.str[x] == u :: !t.out[x]
  }

  /** A state that is no keyword and fails to none or to an unmarked state is unmarked. */
  lemma StaysUnmarked(text: string, t: Auto, keys: seq<bool>, u: string)
    requires Built(text, t, keys) && !Keyword(text, u)
    requires var v := LinkString(t.form, u); v == "" || Unmarked(t, v)
    ensures Unmarked(t, u)
  {
    hide Tree, LinksRight, Keyword, LinkString;
    LinksByString(t, u);
    var v := LinkString(t.form, u);
    forall x: nat | Begins(t.form, x) && t.form.str[x] == u ensures !t.out[x] {
      assert FailsAt(t, x, v);
      HeadFirst(t.form, t.fail[x]);
      assert !keys[x];
    }
  }

  // ---- when nothing is missed ----

  predicate LineAt(text: string, k: nat)
  {
    k < |text| && (k == 0 || text[k - 1] == '\n')
  }

  /** No first character of a line of the list is found later in a line. */
  ghost predicate FirstsApart(text: string)
  {
    forall b: nat, k: nat | LineAt(text, b) && text[b] != '\n' && k < |text| && text[k] == text[b] :: LineAt(text, k)
  }

  /** The line that begins at d has x at p. */
  ghost predicate Occurs(file: string, d: nat, p: nat, x: string)
  {
    && d <= p && p + |x| <= |file| && (d == 0 || file[d - 1] == '\n') && (forall i | d <= i < p :: file[i] != '\n')
    && file[p..p + |x|] == x
  }

  /** Every line with a keyword of the list that is not empty and has its newline is reported. */
  ghost predicate Complete(text: string, file: string, found: seq<(nat, nat)>)
  {
    forall b: nat, e: nat, d: nat, p: nat | IsWord(text, b, e) && b < e < |text| && Occurs(file, d, p, text[b..e]) :: Shown(found, d)
  }

  ghost predicate RootHas(t: Shape, c: char)
    requires t.Sized()
  {
    exists r: nat :: r <= t.smax && t.head[r] == 0 && t.inp[r] == c
  }

  lemma InnerApart(text: string, t: Shape, p: nat)
    requires Tree(t) && Prefixes(t.str, t.smax, text) && FirstsApart(text) && p <= t.smax && t.head[p] != 0 && t.inp[p] != NUL
    ensures !RootHas(t, t.inp[p])
  {
    hide Tree, IsPrefix, Prefix;
    TreeRoot(t);
    var c := t.inp[p];
    HeadFirst(t, p);
    Leads(t, p);
    PrefixAt(t.str, t.smax, text, t.nst[p]);
    if RootHas(t, c) {
      var r: nat :| r <= t.smax && t.head[r] == 0 && t.inp[r] == c;
      HeadFirst(t, r);
      Leads(t, r);
      PrefixAt(t.str, t.smax, text, t.nst[r]);
      NotApart(text, t.str[p], c);
      assert false;
    }
  }

  lemma NotApart(text: string, u: string, c: char)
    requires u != "" && c != '\n' && IsPrefix(text, u + [c]) && IsPrefix(text, "" + [c])
    ensures !FirstsApart(text)
  {
    var b: nat, k: nat :| Prefix(text, b, k) && text[b..k] == u + [c];
    var d: nat, j: nat :| Prefix(text, d, j) && text[d..j] == "" + [c];
    assert |text[d..j]| == 1 && text[d..j][0] == c;
    assert |text[b..k]| == |u| + 1 && text[b..k][|u|] == c;
    assert text[d] == c && text[b + |u|] == c;
    assert LineAt(text, d) && !LineAt(text, b + |u|);
  }

  /** Then there are no failure links. */
  lemma {:induction false} NoLinks(text: string, t: Auto, x: nat)
    requires t.Sized() && Tree(t.form) && Prefixes(t.form.str, t.form.smax, text) && FirstsApart(text)
    requires LinksRight(t.form, t.fail) && x <= t.form.smax
    ensures t.fail[x] == 0
    decreases x
  {
    hide Tree, LinksRight, Prefixes, FirstsApart, Along;
    var s := t.form;
    TreeRoot(s);
    HeadFirst(s, x);
    if s.head[x] == 0 {
      RootFails(t, x);
    } else {
      LinkAt(t, x);
      Leads(s, s.head[x]);
      var p := s.par[s.head[x]];
      NoLinks(text, t, p);
      AlongIn(s, 0, s.inp[p]);
      if s.head[p] != 0 { InnerApart(text, s, p); }
    }
  }

  lemma {:induction false} LastIn(t: Auto, c: nat)
    requires t.Sized() && Tree(t.form) && c <= t.form.smax
    ensures Last(t, c) <= t.form.smax
    decreases MAXSIZ - c
  {
    hide Tree;
    Leads(t.form, c);
    if t.form.link[c] > c { LastIn(t, t.form.link[c]); }
  }

  /** A first character leads from anywhere to its state. */
  lemma Restart(text: string, t: Auto, keys: seq<bool>, c: nat, r: nat)
    requires Built(text, t, keys) && FirstsApart(text) && c <= t.form.smax
    requires r <= t.form.smax && t.form.head[r] == 0 && t.form.inp[r] != NUL
    ensures Next(t, c, t.form.inp[r]) == t.form.nst[r]
  {
    hide Tree, LinksRight, FirstsApart, Along, Last, Keys, Entered, Prefixes, Inherits;
    var s := t.form;
    TreeRoot(s);
    var ch := s.inp[r];
    AlongTo(s, 0, r);
    var a := Along(s.inp, s.link, c, ch);
    AlongIn(s, c, ch);
    if a < MAXSIZ {
      assert RootHas(s, ch);
      if s.head[a] != 0 {
        InnerApart(text, s, a);
        assert false;
      }
      AlongTo(s, 0, a);
    } else {
      LastIn(t, c);
      NoLinks(text, t, Last(t, c));
    }
  }

  lemma NextIn(text: string, t: Auto, keys: seq<bool>, c: nat, ch: char)
    requires Built(text, t, keys) && FirstsApart(text) && c <= t.form.smax && ch != NUL
    ensures Next(t, c, ch) <= t.form.smax
  {
    hide Tree, LinksRight, FirstsApart, Along, Last, Keys, Entered, Prefixes, Inherits;
    var s := t.form;
    TreeRoot(s);
    AlongIn(s, c, ch);
    AlongIn(s, 0, ch);
    LastIn(t, c);
    LastIn(t, 0);
    NoLinks(text, t, Last(t, c));
    var a, b := Along(s.inp, s.link, c, ch), Along(s.inp, s.link, 0, ch);
    if a < MAXSIZ { Leads(s, a); }
    if b < MAXSIZ { Leads(s, b); }
  }

  lemma {:induction false} RunIn(text: string, t: Auto, keys: seq<bool>, file: string, b: nat, p: nat)
    requires Built(text, t, keys) && FirstsApart(text) && NUL !in file && b <= p <= |file|
    ensures Run(t, file, b, p) <= t.form.smax
    decreases p
  {
    hide Built, FirstsApart, Next;
    if p > b {
      RunIn(text, t, keys, file, b, p - 1);
      NextIn(text, t, keys, Run(t, file, b, p - 1), file[p - 1]);
    }
  }

  /** Wherever the string of a state is read, the automaton is in the state. */
  lemma {:induction false} PathFrom(text: string, t: Auto, keys: seq<bool>, file: string, d: nat, p: nat, i: nat)
    requires Built(text, t, keys) && FirstsApart(text) && NUL !in file && d <= p
    requires i <= t.form.smax && t.form.head[i] == i > 0
    requires p + |t.form.str[i]| <= |file| && file[p..p + |t.form.str[i]|] == t.form.str[i]
    ensures Run(t, file, d, p + |t.form.str[i]|) == i
    decreases i
  {
    hide FirstsApart, Next, Tree, LinksRight, Keys, Entered, Prefixes, Inherits, Along;
    var s := t.form;
    TreeRoot(s);
    HeadFirst(s, i);
    Leads(s, i);
    var q := s.par[i];
    Leads(s, q);
    HeadFirst(s, q);
    var g, e := s.head[q], p + |s.str[i]| - 1;
    assert file[e] == file[p..e + 1][e - p];
    assert file[p..e] == file[p..e + 1][..e - p];
    RunNext(t, file, d, e);
    if g == 0 {
      assert e == p;
      RunIn(text, t, keys, file, d, e);
      Restart(text, t, keys, Run(t, file, d, e), q);
    } else {
      PathFrom(text, t, keys, file, d, p, g);
      AlongTo(s, g, q);
      NextAlong(t, g, s.inp[q]);
    }
  }

  /** With such a list nothing is missed. */
  lemma NothingMissed(text: string, t: Auto, keys: seq<bool>, file: string, found: seq<(nat, nat)>)
    requires Built(text, t, keys) && FirstsApart(text) && NUL !in file && Reported(t, file, found, |file|)
    ensures Complete(text, file, found)
  {
    hide Built, FirstsApart, Reported;
    forall b: nat, e: nat, d: nat, p: nat
      | IsWord(text, b, e) && b < e < |text| && Occurs(file, d, p, text[b..e]) ensures Shown(found, d)
    {
      var q := WordMarks(text, t, keys, file, d, p, b, e);
      IsReported(t, file, found, d, q);
    }
  }

  lemma WordMarks(text: string, t: Auto, keys: seq<bool>, file: string, d: nat, p: nat, b: nat, e: nat) returns (q: nat)
    requires Built(text, t, keys) && FirstsApart(text) && NUL !in file
    requires IsWord(text, b, e) && b < e < |text| && Occurs(file, d, p, text[b..e])
    ensures First(t, file, d, q)
  {
    hide FirstsApart, Tree, LinksRight, Keys, Prefixes, Run;
    var x := text[b..e];
    TreeRoot(t.form);
    assert Marked(t.form, keys, x);
    var i: nat :| i <= t.form.smax && keys[i] && t.form.str[i] == x && t.form.head[i] == i;
    HeadFirst(t.form, i);
    PathFrom(text, t, keys, file, d, p, i);
    forall k | p <= k < p + |x| ensures file[k] != '\n' {
      assert file[k] == file[p..p + |x|][k - p] == text[b + (k - p)];
    }
    assert t.out[i];
    q := FirstOf(t, file, d, p + |x| - 1);
  }

  /** The program as its user sees it: every line reported has a keyword, and if the first characters of
      the list are apart, every line with a keyword that is not empty and has its newline is reported. */
  method SelectAll(text: string, file: string) returns (r: Ending, found: seq<(nat, nat)>)
    requires NUL !in text && NUL !in file
    ensures |text| < QSIZE - 1 ==> r.Searched?
    ensures r.Searched? ==> AllHits(text, file, found) && (FirstsApart(text) ==> Complete(text, file, found))
  {
    hide Built, Reported, AllHits, NoneMissed, Complete, FirstsApart, Room, Leaves, Trie;
    ghost var t, keys;
    r, found, t, keys := Select(text, file);
    assert r.Searched? && FirstsApart(text) ==> Complete(text, file, found) by {
      if r.Searched? && FirstsApart(text) { NothingMissed(text, t, keys, file, found); }
    }
  }

  // ---- a line that is missed ----

  const LIST := "cabxq\nabz\nbx\n"

  lemma ListLines(b: nat, k: nat)
    requires Prefix(LIST, b, k)
    ensures LIST[b..k] <= "cabxq" || LIST[b..k] <= "abz" || LIST[b..k] <= "bx"
  {
    assert LIST[5] == '\n' && LIST[9] == '\n' && LIST[12] == '\n';
    assert b == 0 || b == 6 || b == 10 || b == 13;
    if b == 0 {
      assert LIST[0..k] == "cabxq"[..k];
    } else if b == 6 {
      assert LIST[6..k] == "abz"[..k - 6];
    } else if b == 10 {
      assert LIST[10..k] == "bx"[..k - 10];
    }
  }

  lemma ListPrefix(u: string)
    requires IsPrefix(LIST, u)
    ensures u <= "cabxq" || u <= "abz" || u <= "bx"
  {
    var b: nat, k: nat :| Prefix(LIST, b, k) && LIST[b..k] == u;
    ListLines(b, k);
  }

  lemma ListKeyword(u: string)
    requires Keyword(LIST, u)
    ensures u == "cabxq" || u == "abz" || u == "bx"
  {
    var b: nat, e: nat :| IsWord(LIST, b, e) && LIST[b..e] == u;
    OnlyWords(b, e);
    assert LIST[0..5] == "cabxq" && LIST[6..9] == "abz" && LIST[10..12] == "bx";
  }

  lemma OnlyWords(b: nat, e: nat)
    requires IsWord(LIST, b, e)
    ensures (b == 0 && e == 5) || (b == 6 && e == 9) || (b == 10 && e == 12)
  {
    assert LIST[5] == '\n' && LIST[9] == '\n' && LIST[12] == '\n';
    assert b == 0 || b == 6 || b == 10 || b == 13;
    assert e == 5 || e == 9 || e == 12;
  }

  lemma ListStates(t: Shape, keys: seq<bool>)
    requires Trie(LIST, t, keys)
    ensures t.Sized() && HasState(t, "c") && HasState(t, "ca") && HasState(t, "cab") && HasState(t, "cabx")
    ensures HasState(t, "a") && HasState(t, "ab") && HasState(t, "b")
    ensures !HasState(t, "abx") && !HasState(t, "x")
  {
    hide Trie, HasState;
    ListState(t, keys, 0, 5, 1, "c");
    ListState(t, keys, 0, 5, 2, "ca");
    ListState(t, keys, 0, 5, 3, "cab");
    ListState(t, keys, 0, 5, 4, "cabx");
    ListState(t, keys, 6, 9, 7, "a");
    ListState(t, keys, 6, 9, 8, "ab");
    ListState(t, keys, 10, 12, 11, "b");
    NotListed();
    NotAState(t, keys, "abx");
    NotAState(t, keys, "x");
  }

  lemma ListWords()
    ensures IsWord(LIST, 0, 5) && IsWord(LIST, 6, 9) && IsWord(LIST, 10, 12) && |LIST| == 13
  {
  }

  lemma ListState(t: Shape, keys: seq<bool>, b: nat, e: nat, n: nat, u: string)
    requires Trie(LIST, t, keys) && b <= n <= e <= |LIST| && LIST[b..n] == u
    requires (b == 0 && e == 5) || (b == 6 && e == 9) || (b == 10 && e == 12)
    ensures t.Sized() && HasState(t, u)
  {
    hide Trie, HasState, IsWord;
    ListWords();
    TrieParts(LIST, t, keys);
    KeywordState(LIST, t, keys, b, e, n);
  }

  lemma NotListed()
    ensures !("abx" <= "cabxq") && !("abx" <= "abz") && !("abx" <= "bx")
    ensures !("x" <= "cabxq") && !("x" <= "abz") && !("x" <= "bx")
  {
    assert "abx"[2] == 'x' && "abz"[2] == 'z';
    assert "abx"[0] == 'a' && "cabxq"[0] == 'c' && "bx"[0] == 'b' && "abz"[0] == 'a' && "x"[0] == 'x';
  }

  lemma TrieParts(text: string, t: Shape, keys: seq<bool>)
    requires Trie(text, t, keys)
    ensures Tree(t) && t.Sized() && Prefixes(t.str, t.smax, text)
  {
    hide InTree;
  }

  lemma NotAState(t: Shape, keys: seq<bool>, u: string)
    requires Trie(LIST, t, keys) && !(u <= "cabxq") && !(u <= "abz") && !(u <= "bx")
    ensures t.Sized() && !HasState(t, u)
  {
    hide Trie, Prefixes, IsPrefix;
    TrieParts(LIST, t, keys);
    forall x: nat | Begins(t, x) ensures t.str[x] != u {
      PrefixAt(t.str, t.smax, LIST, x);
      ListPrefix(t.str[x]);
    }
  }

  /** The links on the way to `cabx`: the last one is sought through `ab` only, and not found. */
  lemma ListLinks(t: Shape, keys: seq<bool>)
    requires Trie(LIST, t, keys)
    ensures t.Sized() && LinkString(t, "c") == "" && LinkString(t, "ca") == "a" && LinkString(t, "cab") == "ab"
    ensures LinkString(t, "cabx") == "" && LinkString(t, "a") == "" && LinkString(t, "ab") == "b" && LinkString(t, "b") == ""
  {
    hide Trie, HasState;
    ListStates(t, keys);
    assert "ca"[..1] == "c" && "cab"[..2] == "ca" && "cabx"[..3] == "cab" && "ab"[..1] == "a";
    assert "a" + ['b'] == "ab" && "ab" + ['x'] == "abx" && ['a'] == "a" && ['b'] == "b" && ['x'] == "x";
    assert LinkString(t, "ca") == "a";
    assert LinkString(t, "cab") == "ab";
  }

  lemma ListUnmarked(t: Auto, keys: seq<bool>)
    requires Built(LIST, t, keys)
    ensures Unmarked(t, "c") && Unmarked(t, "ca") && Unmarked(t, "cab") && Unmarked(t, "cabx")
  {
    hide Built, LinkString, Unmarked;
    BuiltTrie(LIST, t, keys);
    ListLinks(t.form, keys);
    forall u | u in {"a", "b", "c", "ab", "ca", "cab", "cabx"} ensures !Keyword(LIST, u) {
      if Keyword(LIST, u) {
        ListKeyword(u);
        assert false;
      }
    }
    StaysUnmarked(LIST, t, keys, "b");
    StaysUnmarked(LIST, t, keys, "a");
    StaysUnmarked(LIST, t, keys, "ab");
    StaysUnmarked(LIST, t, keys, "c");
    StaysUnmarked(LIST, t, keys, "ca");
    StaysUnmarked(LIST, t, keys, "cab");
    StaysUnmarked(LIST, t, keys, "cabx");
  }

  lemma BuiltTrie(text: string, t: Auto, keys: seq<bool>)
    requires Built(text, t, keys)
    ensures t.Sized() && Trie(text, t.form, keys) && Tree(t.form)
  {
    hide InTree;
  }

  lemma NoMark(t: Auto, keys: seq<bool>, file: string, q: nat)
    requires Built(LIST, t, keys) && q < |file| && HasState(t.form, file[..q + 1]) && Unmarked(t, file[..q + 1])
    ensures !Marks(t, file, 0, q)
  {
    hide Built, Run;
    BuiltTrie(LIST, t, keys);
    var x: nat :| Begins(t.form, x) && t.form.str[x] == file[..q + 1];
    assert file[0..q + 1] == file[..q + 1];
    PathRun(t, file, 0, x);
  }

  lemma NoneFound(t: Auto, file: string, found: seq<(nat, nat)>)
    requires Reported(t, file, found, |file|) && '\n' !in file && forall q: nat | q < |file| :: !Marks(t, file, 0, q)
    ensures found == []
  {
    hide Marks, First, Reported;
    if found != [] {
      NotFirst(t, file, found[0].0, found[0].1);
      FoundIs(t, file, found, 0);
      assert false;
    }
  }

  lemma NotFirst(t: Auto, file: string, b: nat, p: nat)
    requires '\n' !in file && forall q: nat | q < |file| :: !Marks(t, file, 0, q)
    ensures !First(t, file, b, p)
  {
    hide Marks;
    if 0 < b < |file| { assert file[b - 1] in file; }
  }

  lemma FoundIs(t: Auto, file: string, found: seq<(nat, nat)>, i: nat)
    requires Reported(t, file, found, |file|) && i < |found|
    ensures First(t, file, found[i].0, found[i].1)
  {
    hide First;
    assert found[i] in found;
  }

  /** With the keywords `cabxq`, `abz` and `bx` the line `cabx` has a keyword and is not reported. */
  method Misses() returns (r: Ending, found: seq<(nat, nat)>)
    ensures r.Searched? && found == []
    ensures IsWord(LIST, 10, 12) && Occurs("cabx", 0, 2, LIST[10..12])
  {
    hide Built, Trie, AllHits, NoneMissed, Room, Leaves, Marks, HasState, Unmarked;
    var file := "cabx";
    ghost var t, keys;
    r, found, t, keys := Select(LIST, file);
    BuiltTrie(LIST, t, keys);
    ListStates(t.form, keys);
    ListUnmarked(t, keys);
    assert file[..1] == "c" && file[..2] == "ca" && file[..3] == "cab" && file[..4] == "cabx";
    NoMark(t, keys, file, 0);
    NoMark(t, keys, file, 1);
    NoMark(t, keys, file, 2);
    NoMark(t, keys, file, 3);
    assert LIST[10..12] == "bx" && file[2..4] == "bx";
    NoneFound(t, file, found);
  }
}
