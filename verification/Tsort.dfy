/** Topological sort with cycle breaking, src/cmd/tsort.c.

    Nodes are numbered in order of first appearance; `preds[j]` is the predecessor list of
    node j, newest edge first.  A node is LIVE until it is printed, and VISITED only while
    `findloop` searches for a cycle.
 */
module Tsort {
  import opened Basics

  datatype Life = DEAD | LIVE | VISITED

  type Graph = seq<seq<nat>>

  ghost predicate WellFormed(g: Graph)
  {
    forall j, k | 0 <= j < |g| && 0 <= k < |g[j]| :: g[j][k] < |g|
  }

  ghost predicate Edge(g: Graph, u: nat, v: nat) { v < |g| && u in g[v] }

  /** A walk from predecessor to predecessor. */
  ghost predicate Walk(g: Graph, p: seq<nat>)
  {
    && |p| > 0 && p[0] < |g|
    && forall k | 0 <= k < |p| - 1 :: Linked(g, p, k)
  }

  ghost predicate Linked(g: Graph, p: seq<nat>, k: nat)
    requires k < |p| - 1
  {
    Edge(g, p[k + 1], p[k])
  }

  ghost predicate ClosedWalk(g: Graph, p: seq<nat>, v: nat)
  {
    Walk(g, p) && |p| >= 2 && p[0] == v == p[|p| - 1]
  }

  ghost predicate OnCycle(g: Graph, v: nat)
  {
    exists p: seq<nat> :: ClosedWalk(g, p, v)
  }

  ghost predicate Distinct(s: seq<nat>)
  {
    forall j, k | 0 <= j < k < |s| :: s[j] != s[k]
  }

  /** A node that is not printed, but all its predecessors are. */
  ghost predicate Ready(g: Graph, done: seq<nat>, v: nat)
  {
    v < |g| && v !in done && forall u | u in g[v] :: u in done
  }

  /** A cycle through v none of whose nodes is printed. */
  ghost predicate OnLiveCycle(g: Graph, done: seq<nat>, v: nat)
  {
    exists p: seq<nat> :: ClosedWalk(g, p, v) && forall x | x in p :: x !in done
  }

  /** The node to print after `done`: the first that is ready; only if there is none, one on a cycle
      of nodes that are not printed. */
  ghost predicate Follows(g: Graph, done: seq<nat>, v: nat)
  {
    if exists w: nat :: Ready(g, done, w) then Ready(g, done, v) && forall w: nat | w < v :: !Ready(g, done, w)
    else OnLiveCycle(g, done, v)
  }

  ghost predicate Ordered(g: Graph, out: seq<nat>)
  {
    forall k | 0 <= k < |out| :: Follows(g, out[..k], out[k])
  }

  /** An edge is violated only into a node on a cycle that is not printed yet. */
  lemma ViolatedIntoCycle(g: Graph, out: seq<nat>, k: nat, u: nat)
    requires Ordered(g, out) && k < |out| && Edge(g, u, out[k]) && u !in out[..k]
    ensures OnLiveCycle(g, out[..k], out[k]) && forall w: nat :: !Ready(g, out[..k], w)
  {
    hide OnLiveCycle;
    assert Follows(g, out[..k], out[k]);
    assert !Ready(g, out[..k], out[k]);
  }

  /** Every node is printed exactly once. */
  ghost predicate Complete(g: Graph, out: seq<nat>)
  {
    Distinct(out) && forall v :: v in out <==> 0 <= v < |g|
  }

  lemma LiveIsCycle(g: Graph, done: seq<nat>, v: nat)
    requires OnLiveCycle(g, done, v)
    ensures v < |g| && OnCycle(g, v)
  {
    var p :| ClosedWalk(g, p, v) && forall x | x in p :: x !in done;
  }

  /** On acyclic input the output is a topological order. */
  lemma AcyclicIsTopological(g: Graph, out: seq<nat>, u: nat, v: nat)
    requires WellFormed(g) && Complete(g, out) && Ordered(g, out) && Edge(g, u, v)
    requires forall w | 0 <= w < |g| :: !OnCycle(g, w)
    ensures exists j, k | 0 <= j < k < |out| :: out[j] == u && out[k] == v
  {
    assert v in out;
    var k :| 0 <= k < |out| && out[k] == v;
    if u !in out[..k] {
      ViolatedIntoCycle(g, out, k, u);
      LiveIsCycle(g, out[..k], v);
      assert false;
    }
    var j :| 0 <= j < k && out[..k][j] == u;
    assert out[j] == u;
  }

  ghost function LiveSet(live: seq<Life>): set<nat>
  {
    set v | 0 <= v < |live| && live[v] == LIVE
  }

  /** Every node not yet printed has a predecessor not yet printed. */
  ghost predicate NoneReady(g: Graph, live: seq<Life>)
    requires |g| == |live| && WellFormed(g)
  {
    forall v | 0 <= v < |live| && live[v] != DEAD :: HasPred(g, live, v)
  }

  ghost predicate HasPred(g: Graph, live: seq<Life>, v: nat)
    requires v < |g| == |live| && WellFormed(g)
  {
    exists k :: 0 <= k < |g[v]| && live[g[v][k]] != DEAD
  }

  ghost predicate LiveWalk(live: seq<Life>, p: seq<nat>)
  {
    forall x | x in p :: x < |live| && live[x] != DEAD
  }

  /** A cycle through v of nodes that are not DEAD. */
  ghost predicate LiveCycle(g: Graph, live: seq<Life>, v: nat)
  {
    exists p: seq<nat> :: ClosedWalk(g, p, v) && LiveWalk(live, p)
  }

  /** `a b` is one of the first n pairs of items. */
  ghost predicate PairAt(items: seq<string>, n: nat, a: string, b: string)
    requires 2 * n <= |items|
  {
    exists k :: 0 <= k < n && items[2 * k] == a && items[2 * k + 1] == b
  }

  /** The names of the first m items, and the edges of the first n pairs: the different ones. */
  ghost predicate Represents(names: seq<string>, g: Graph, items: seq<string>, n: nat, m: nat)
    requires 2 * n <= m <= |items|
  {
    && |names| == |g| && WellFormed(g)
    && (forall j, k | 0 <= j < k < |names| :: names[j] != names[k])
    && NamesOf(names, items[..m]) && EdgesOf(names, g, items, n)
    && (forall v | 0 <= v < |g| :: Distinct(g[v]))
  }

  ghost predicate NamesOf(names: seq<string>, read: seq<string>)
  {
    forall s :: s in names <==> s in read
  }

  ghost predicate EdgesOf(names: seq<string>, g: Graph, items: seq<string>, n: nat)
    requires |names| == |g| && 2 * n <= |items|
  {
    forall u, v | 0 <= u < |g| && 0 <= v < |g| :: EdgeOf(names, g, items, n, u, v)
  }

  ghost predicate EdgeOf(names: seq<string>, g: Graph, items: seq<string>, n: nat, u: nat, v: nat)
    requires |names| == |g| && 2 * n <= |items| && u < |g| && v < |g|
  {
    u in g[v] <==> u != v && PairAt(items, n, names[u], names[v])
  }

  lemma PairIsRead(items: seq<string>, n: nat, m: nat, a: string, b: string)
    requires 2 * n <= m <= |items| && PairAt(items, n, a, b)
    ensures a in items[..m] && b in items[..m]
  {
    var k :| 0 <= k < n && items[2 * k] == a && items[2 * k + 1] == b;
    assert items[..m][2 * k] == a && items[..m][2 * k + 1] == b;
  }

  lemma AddName(names: seq<string>, g: Graph, items: seq<string>, n: nat, m: nat)
    requires 2 * n <= m < |items| && Represents(names, g, items, n, m)
    ensures items[m] in names ==> Represents(names, g, items, n, m + 1)
    ensures items[m] !in names ==> Represents(names + [items[m]], g + [[]], items, n, m + 1)
  {
    hide PairAt, NamesOf, EdgesOf;
    assert items[..m + 1] == items[..m] + [items[m]];
    OneMoreName(names, items[..m], items[m]);
    if items[m] !in names {
      NewNoEdges(names, g, items, n, m);
      NewName(names, items[m]);
      NewNode(g);
    }
  }

  lemma OneMoreName(names: seq<string>, read: seq<string>, x: string)
    requires NamesOf(names, read)
    ensures NamesOf(if x in names then names else names + [x], read + [x])
  {
    var names' := if x in names then names else names + [x];
    forall s ensures s in names' <==> s in read + [x] {
      assert s in names <==> s in read;
      assert s in read + [x] <==> s in read || s == x;
    }
  }

  lemma NewNoEdges(names: seq<string>, g: Graph, items: seq<string>, n: nat, m: nat)
    requires 2 * n <= m < |items| && Represents(names, g, items, n, m) && items[m] !in names
    ensures EdgesOf(names + [items[m]], g + [[]], items, n)
  {
    hide PairAt, Represents, EdgeOf;
    RepresentsSize(names, g, items, n, m);
    var names', g' := names + [items[m]], g + [[]];
    forall u, v | 0 <= u < |g'| && 0 <= v < |g'| ensures EdgeOf(names', g', items, n, u, v) {
      NewNoEdge(names, g, items, n, m, u, v);
    }
  }

  lemma RepresentsSize(names: seq<string>, g: Graph, items: seq<string>, n: nat, m: nat)
    requires 2 * n <= m <= |items| && Represents(names, g, items, n, m)
    ensures |names| == |g|
  {
  }

  lemma NewNode(g: Graph)
    requires WellFormed(g) && forall v | 0 <= v < |g| :: Distinct(g[v])
    ensures WellFormed(g + [[]]) && forall v | 0 <= v < |g + [[]]| :: Distinct((g + [[]])[v])
  {
  }

  lemma NewName(names: seq<string>, x: string)
    requires x !in names && forall j, k | 0 <= j < k < |names| :: names[j] != names[k]
    ensures forall j, k | 0 <= j < k < |names + [x]| :: (names + [x])[j] != (names + [x])[k]
  {
    var names' := names + [x];
    forall j, k | 0 <= j < k < |names'| ensures names'[j] != names'[k] {
      assert names'[j] == names[j] && names[j] in names;
      if k < |names| { assert names'[k] == names[k]; }
    }
  }

  /** A new name has no edges: it is in no pair read so far. */
  lemma NewNoEdge(names: seq<string>, g: Graph, items: seq<string>, n: nat, m: nat, u: nat, v: nat)
    requires 2 * n <= m < |items| && Represents(names, g, items, n, m) && items[m] !in names
    requires u <= |g| && v <= |g|
    ensures EdgeOf(names + [items[m]], g + [[]], items, n, u, v)
  {
    hide PairAt;
    var names' := names + [items[m]];
    if u < |g| && v < |g| { assert EdgeOf(names, g, items, n, u, v); }
    if PairAt(items, n, names'[u], names'[v]) {
      PairIsRead(items, n, m, names'[u], names'[v]);
      assert names'[u] in names && names'[v] in names;
    }
  }

  lemma AddEdge(names: seq<string>, g: Graph, items: seq<string>, n: nat, i: nat, j: nat)
    requires 2 * n + 2 <= |items| && Represents(names, g, items, n, 2 * n + 2)
    requires i < |g| && j < |g| && names[i] == items[2 * n] && names[j] == items[2 * n + 1]
    ensures i == j || i in g[j] ==> Represents(names, g, items, n + 1, 2 * n + 2)
    ensures i != j && i !in g[j] ==> Represents(names, g[j := [i] + g[j]], items, n + 1, 2 * n + 2)
  {
    var h := if i == j || i in g[j] then g else g[j := [i] + g[j]];
    var read := n + 1;
    forall u, v | 0 <= u < |h| && 0 <= v < |h| ensures EdgeOf(names, h, items, read, u, v) {
      assert EdgeOf(names, g, items, n, u, v);
      NextPair(items, n, names[u], names[v]);
    }
  }

  lemma NextPair(items: seq<string>, n: nat, a: string, b: string)
    requires 2 * n + 1 < |items|
    ensures PairAt(items, n + 1, a, b)
       <==> PairAt(items, n, a, b) || (a == items[2 * n] && b == items[2 * n + 1])
  {
  }

  /** A search only turns LIVE nodes into VISITED ones. */
  ghost predicate Marked(before: seq<Life>, after: seq<Life>)
  {
    && |before| == |after|
    && forall v | 0 <= v < |before| ::
         after[v] == before[v] || (before[v] == LIVE && after[v] == VISITED)
  }

  class Sorter {
    var names: seq<string>
    var preds: Graph
    var live: seq<Life>

    ghost predicate Shape()
      reads this
    {
      |names| == |preds| == |live| && WellFormed(preds)
    }

    ghost predicate AllLive()
      reads this
    {
      forall v | 0 <= v < |live| :: live[v] == LIVE
    }

    // ---- reading the graph ----

    constructor ()
      ensures names == [] && preds == [] && live == []
    {
      names, preds, live := [], [], [];
    }

    /** `nindex`: the node of a name, added at the end when it is new. */
    method NIndex(s: string) returns (i: nat)
      requires Shape() && AllLive()
      modifies this
      ensures Shape() && AllLive() && i < |names| && names[i] == s
      ensures s in old(names) ==> names == old(names) && preds == old(preds)
      ensures s !in old(names) ==> names == old(names) + [s] && preds == old(preds) + [[]]
    {
      i := 0;
      while i < |names|
        invariant 0 <= i <= |names| && s !in names[..i]
      {
        if names[i] == s { return; }
        i := i + 1;
      }
      names, preds, live := names + [s], preds + [[]], live + [LIVE];
    }

    /** `present`: is i on j's predecessor list? */
    method Present(i: nat, j: nat) returns (b: bool)
      requires j < |preds|
      ensures b <==> i in preds[j]
    {
      var t := 0;
      while t < |preds[j]|
        invariant 0 <= t <= |preds[j]| && i !in preds[j][..t]
      {
        if preds[j][t] == i { return true; }
        t := t + 1;
      }
      return false;
    }

    /** The reading loop; false is the "odd data" error. */
    method ReadGraph(items: seq<string>) returns (ok: bool)
      requires names == [] && preds == [] && live == []
      modifies this
      ensures ok <==> |items| % 2 == 0
      ensures ok ==> Shape() && AllLive() && Represents(names, preds, items, |items| / 2, |items|)
    {
      var n := 0;
      while 2 * n < |items|
        invariant 0 <= 2 * n <= |items| && Shape() && AllLive()
        invariant Represents(names, preds, items, n, 2 * n)
      {
        if 2 * n + 1 == |items| { return false; }
        AddPair(items, n);
        n := n + 1;
      }
      return true;
    }

    method AddPair(items: seq<string>, n: nat)
      requires 2 * n + 1 < |items| && Shape() && AllLive() && Represents(names, preds, items, n, 2 * n)
      modifies this
      ensures Shape() && AllLive() && Represents(names, preds, items, n + 1, 2 * n + 2)
    {
      hide Represents;
      AddName(names, preds, items, n, 2 * n);
      var i := NIndex(items[2 * n]);
      AddName(names, preds, items, n, 2 * n + 1);
      var j := NIndex(items[2 * n + 1]);
      AddEdge(names, preds, items, n, i, j);
      var present := Present(i, j);
      if i == j || present {
        return;
      }
      preds := preds[j := [i] + preds[j]];
    }

    // ---- printing the order ----

    /** `anypred`: is there any live predecessor for i? */
    method AnyPred(i: nat) returns (b: bool)
      requires Shape() && i < |live|
      ensures b <==> exists k :: 0 <= k < |preds[i]| && live[preds[i][k]] == LIVE
    {
      var t := 0;
      while t < |preds[i]|
        invariant 0 <= t <= |preds[i]|
        invariant forall k | 0 <= k < t :: live[preds[i][k]] != LIVE
      {
        if live[preds[i][t]] == LIVE { return true; }
        t := t + 1;
      }
      return false;
    }

    /** `mark`: depth-first search along predecessors; `stack` is the path of active calls.

        When none is ready, a LIVE node never yields NULL, so every VISITED node is still on
        the stack and meeting one closes a cycle. */
    method Mark(i: nat, ghost stack: seq<nat>) returns (r: Option<nat>)
      requires Shape() && i < |live|
      requires Walk(preds, stack + [i]) && LiveWalk(live, stack)
      requires NoneReady(preds, live) ==> forall v | 0 <= v < |live| && live[v] == VISITED :: v in stack
      modifies this`live
      ensures Marked(old(live), live)
      ensures old(NoneReady(preds, live)) && r.None? ==> old(live[i]) == DEAD && live == old(live)
      ensures old(NoneReady(preds, live)) && r.Some? ==>
        r.value < |live| && live[r.value] != DEAD && LiveCycle(preds, live, r.value)
      decreases LiveSet(live)
    {
      hide NoneReady, LiveCycle, Walk;
      if live[i] == DEAD {
        return None;
      }
      if live[i] == VISITED {
        if NoneReady(preds, live) { ClosedByStack(preds, live, stack, i); }
        return Some(i);
      }
      live := live[i := VISITED];
      ghost var after := live;
      var t := 0;
      while t < |preds[i]|
        invariant 0 <= t <= |preds[i]| && Marked(old(live), live) && live[i] == VISITED
        invariant old(NoneReady(preds, live)) ==> live == after
        invariant old(NoneReady(preds, live)) ==> forall k | 0 <= k < t :: live[preds[i][k]] == DEAD
      {
        ExtendWalk(preds, stack, i, t);
        FewerLive(old(live), live, i);
        KeepsNoneReady(preds, old(live), live);
        var j := Mark(preds[i][t], stack + [i]);
        if j.Some? {
          return j;
        }
        t := t + 1;
      }
      KeepsNoneReady(preds, old(live), live);
      if NoneReady(preds, live) { OneIsReady(preds, live, i); }
      return None;
    }

    static lemma ExtendWalk(g: Graph, stack: seq<nat>, i: nat, t: nat)
      requires Walk(g, stack + [i]) && i < |g| && t < |g[i]|
      ensures Walk(g, stack + [i] + [g[i][t]])
    {
      var p := stack + [i];
      var q := p + [g[i][t]];
      forall k | 0 <= k < |q| - 1 ensures Linked(g, q, k) {
        if k < |p| - 1 { assert Linked(g, p, k); }
      }
    }

    static lemma FewerLive(before: seq<Life>, after: seq<Life>, i: nat)
      requires Marked(before, after) && i < |before| && before[i] == LIVE && after[i] == VISITED
      ensures LiveSet(after) < LiveSet(before)
    {
      assert i in LiveSet(before) && i !in LiveSet(after);
    }

    static lemma KeepsNoneReady(g: Graph, before: seq<Life>, after: seq<Life>)
      requires |g| == |before| && WellFormed(g) && Marked(before, after)
      ensures NoneReady(g, before) <==> NoneReady(g, after)
    {
      forall v | 0 <= v < |g| ensures HasPred(g, before, v) <==> HasPred(g, after, v) {
        assert forall k | 0 <= k < |g[v]| :: before[g[v][k]] != DEAD <==> after[g[v][k]] != DEAD;
      }
    }

    static lemma OneIsReady(g: Graph, live: seq<Life>, i: nat)
      requires |g| == |live| && WellFormed(g) && i < |g| && live[i] != DEAD && NoneReady(g, live)
      ensures exists k :: 0 <= k < |g[i]| && live[g[i][k]] != DEAD
    {
      assert HasPred(g, live, i);
    }

    /** A node met again while it is on the stack lies on a cycle of nodes that are not DEAD. */
    static lemma ClosedByStack(g: Graph, live: seq<Life>, stack: seq<nat>, i: nat)
      requires Walk(g, stack + [i]) && i in stack && i < |g| && LiveWalk(live, stack)
      ensures LiveCycle(g, live, i)
    {
      var k :| 0 <= k < |stack| && stack[k] == i;
      var p := stack + [i];
      var q := p[k..];
      forall m | 0 <= m < |q| - 1 ensures Linked(g, q, m) {
        assert Linked(g, p, k + m);
      }
      assert ClosedWalk(g, q, i);
      forall x | x in q ensures x in stack {
        var m :| 0 <= m < |q| && q[m] == x;
        assert q[m] == p[k + m];
      }
      assert LiveWalk(live, q);
    }

    /** `findloop`: some node on a cycle of live nodes; None is the "program error". */
    method FindLoop() returns (r: Option<nat>)
      requires Shape() && (exists v :: 0 <= v < |live| && live[v] == LIVE)
      requires forall v | 0 <= v < |live| :: live[v] != VISITED
      modifies this`live
      ensures live == old(live)
      ensures NoneReady(preds, live) ==> r.Some?
      ensures NoneReady(preds, live) && r.Some? ==> r.value < |live| && live[r.value] == LIVE && LiveCycle(preds, live, r.value)
    {
      var i := 0;
      while live[i] != LIVE
        invariant 0 <= i < |live|
        invariant exists v :: i <= v < |live| && live[v] == LIVE
        decreases |live| - i
      {
        i := i + 1;
      }
      hide LiveCycle;
      r := Mark(i, []);
      ghost var marked := live;
      var j := 0;
      while j < |live|
        invariant 0 <= j <= |live| && Marked(old(live), live)
        invariant forall v | 0 <= v < j :: live[v] == old(live[v])
      {
        if live[j] == VISITED { live := live[j := LIVE]; }
        j := j + 1;
      }
      assert live == old(live);
      if r.Some? && LiveCycle(preds, marked, r.value) { SameCycle(preds, marked, live, r.value); }
    }

    static lemma SameCycle(g: Graph, before: seq<Life>, after: seq<Life>, v: nat)
      requires Marked(after, before) && LiveCycle(g, before, v)
      ensures LiveCycle(g, after, v)
    {
      var p :| ClosedWalk(g, p, v) && LiveWalk(before, p);
      assert LiveWalk(after, p);
    }

    /** One sweep: the first live node without a live predecessor, or |live| if there is none. */
    method Sweep() returns (any: bool, i: nat)
      requires Shape() && forall v | 0 <= v < |live| :: live[v] != VISITED
      ensures i <= |live|
      ensures any <==> exists v :: 0 <= v < |live| && live[v] == LIVE
      ensures i < |live| ==> live[i] == LIVE && forall u | u in preds[i] :: live[u] == DEAD
      ensures i == |live| ==> NoneReady(preds, live)
      ensures forall v | 0 <= v < i && live[v] != DEAD :: HasPred(preds, live, v)
    {
      any, i := false, 0;
      while i < |live|
        invariant 0 <= i <= |live|
        invariant any <==> exists v :: 0 <= v < i && live[v] == LIVE
        invariant forall v | 0 <= v < i && live[v] != DEAD :: HasPred(preds, live, v)
      {
        if live[i] == LIVE {
          any := true;
          var p := AnyPred(i);
          if !p { return; }
        }
        i := i + 1;
      }
    }

    /** The printing loop: every node once, the first that is ready, and one on a cycle of unprinted nodes
        only when none is. */
    method Print() returns (out: seq<nat>)
      requires Shape() && forall v | 0 <= v < |live| :: live[v] == LIVE
      modifies this`live
      ensures Complete(preds, out) && Ordered(preds, out)
    {
      hide Ordered, Follows, LiveCycle, NoneReady, HasPred, LiveSet;
      out := [];
      EmptyOrdered(preds);
      while true
        invariant Shape() && Distinct(out) && Ordered(preds, out)
        invariant forall v | 0 <= v < |live| :: live[v] != VISITED
        invariant forall v | 0 <= v < |live| :: v in out <==> live[v] == DEAD
        invariant forall v | v in out :: v < |live|
        decreases LiveSet(live)
      {
        var any, i := Sweep();
        if !any { break; }
        if i == |live| {
          var r := FindLoop();
          if r.None? { assert false; }
          i := r.value;
          NoneIsReady(preds, live, out, i);
        } else {
          FirstReady(preds, live, out, i);
        }
        NextOrdered(preds, out, i);
        OneDies(live, i);
        out := out + [i];
        live := live[i := DEAD];
      }
    }

    static lemma EmptyOrdered(g: Graph)
      ensures Ordered(g, [])
    {
    }

    static lemma OneDies(live: seq<Life>, i: nat)
      requires i < |live| && live[i] == LIVE
      ensures LiveSet(live[i := DEAD]) < LiveSet(live)
    {
      assert LiveSet(live[i := DEAD]) == LiveSet(live) - {i};
      assert i in LiveSet(live);
    }

    /** `out` has the nodes that are DEAD. */
    static ghost predicate Printed(live: seq<Life>, out: seq<nat>)
    {
      (forall v | 0 <= v < |live| :: v in out <==> live[v] == DEAD) && forall v | v in out :: v < |live|
    }

    static lemma ReadyIs(g: Graph, live: seq<Life>, out: seq<nat>, v: nat)
      requires |g| == |live| && WellFormed(g) && Printed(live, out)
      ensures Ready(g, out, v) <==> v < |live| && live[v] != DEAD && !HasPred(g, live, v)
    {
      if v < |live| && live[v] != DEAD {
        if HasPred(g, live, v) {
          var k :| 0 <= k < |g[v]| && live[g[v][k]] != DEAD;
          assert g[v][k] in g[v];
        } else {
          forall u | u in g[v] ensures u in out {
            var k :| 0 <= k < |g[v]| && g[v][k] == u;
          }
        }
      }
    }

    static lemma FirstReady(g: Graph, live: seq<Life>, out: seq<nat>, i: nat)
      requires |g| == |live| && WellFormed(g) && Printed(live, out)
      requires i < |live| && live[i] == LIVE && forall u | u in g[i] :: u < |live| && live[u] == DEAD
      requires forall v | 0 <= v < i && live[v] != DEAD :: HasPred(g, live, v)
      ensures Follows(g, out, i)
    {
      hide HasPred;
      assert Ready(g, out, i);
      forall w: nat | w < i ensures !Ready(g, out, w) { ReadyIs(g, live, out, w); }
    }

    static lemma NoneIsReady(g: Graph, live: seq<Life>, out: seq<nat>, i: nat)
      requires |g| == |live| && WellFormed(g) && Printed(live, out) && NoneReady(g, live) && LiveCycle(g, live, i)
      ensures Follows(g, out, i)
    {
      hide HasPred;
      forall w: nat ensures !Ready(g, out, w) { ReadyIs(g, live, out, w); }
      var p :| ClosedWalk(g, p, i) && LiveWalk(live, p);
      assert OnLiveCycle(g, out, i);
    }

    static lemma NextOrdered(g: Graph, out: seq<nat>, i: nat)
      requires Ordered(g, out) && Follows(g, out, i)
      ensures Ordered(g, out + [i])
    {
      hide Follows;
      var next := out + [i];
      forall k | 0 <= k < |next| ensures Follows(g, next[..k], next[k]) {
        if k < |out| { assert next[..k] == out[..k]; } else { assert next[..k] == out; }
      }
    }
  }
}
