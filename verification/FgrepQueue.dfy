/** The circular queue of `cfail` in src/cmd/fgrep.c: cells, and the places where to take and to put. */
module FgrepQueue {
  const QSIZE: nat := 400

  /** `Full` is the program's own error; `Past` means that `rear` has left the array. */
  datatype Report = Fine | Full | Past

  /** The cells from `front` to `rear` hold the queue; v states were taken before. */
  ghost predicate Ring(cells: seq<nat>, front: nat, rear: nat, queue: seq<nat>, v: nat)
  {
    && |cells| == QSIZE && |queue| < QSIZE && front == v % QSIZE && rear == (v + |queue|) % QSIZE
    && forall i | 0 <= i < |queue| :: cells[(v + i) % QSIZE] == queue[i]
  }

  /** Where the n-th cell after v is. */
  lemma Place(v: nat, n: nat)
    requires n <= QSIZE
    ensures (v + n) % QSIZE == if v % QSIZE + n < QSIZE then v % QSIZE + n else v % QSIZE + n - QSIZE
  {
  }

  lemma Apart(v: nat, i: nat, n: nat)
    requires i < n < QSIZE
    ensures (v + i) % QSIZE != (v + n) % QSIZE
  {
    Place(v, i);
    Place(v, n);
  }

  lemma EmptyRing(cells: seq<nat>, front: nat, rear: nat, queue: seq<nat>, v: nat)
    requires Ring(cells, front, rear, queue, v)
    ensures front == rear <==> queue == []
  {
    Place(v, |queue|);
  }

  lemma RingNext(cells: seq<nat>, front: nat, rear: nat, queue: seq<nat>, v: nat, x: nat)
    requires Ring(cells, front, rear, queue, v) && |queue| + 1 < QSIZE
    ensures Ring(cells[rear := x], front, (v + |queue| + 1) % QSIZE, queue + [x], v)
  {
    var q, c := queue + [x], cells[rear := x];
    assert v + |q| == v + |queue| + 1;
    forall i | 0 <= i < |q| ensures c[(v + i) % QSIZE] == q[i] {
      if i < |queue| { Apart(v, i, |queue|); }
    }
  }

  /** Put x behind the rest.  The queue is full one cell early; it leaves the array when it is empty and
      stands at the last cell, because only the branch for a queue in one piece wraps around. */
  method Push(cells: array<nat>, front: nat, rear0: nat, x: nat, ghost queue: seq<nat>, ghost v: nat)
    returns (r: Report, rear: nat)
    requires Ring(cells[..], front, rear0, queue, v)
    modifies cells
    ensures r.Full? <==> |queue| == QSIZE - 1
    ensures r.Past? <==> queue == [] && v % QSIZE == QSIZE - 1
    ensures r.Fine? ==> Ring(cells[..], front, rear, queue + [x], v)
    ensures r.Past? ==> rear == QSIZE
  {
    hide Ring;
    RingSizes(cells[..], front, rear0, queue, v);
    ghost var was := cells[..];
    if |queue| + 1 < QSIZE { RingNext(was, front, rear0, queue, v, x); }
    cells[rear0] := x;
    assert cells[..] == was[rear0 := x];
    rear := rear0;
    if front < rear {
      if rear >= QSIZE - 1 {
        if front == 0 { return Full, rear; }
        rear := 0;
      } else {
        rear := rear + 1;
      }
    } else {
      rear := rear + 1;
      if rear == front { return Full, rear; }
      if rear == QSIZE { return Past, rear; }
    }
    r := Fine;
  }

  lemma RingSizes(cells: seq<nat>, front: nat, rear: nat, queue: seq<nat>, v: nat)
    requires Ring(cells, front, rear, queue, v)
    ensures |cells| == QSIZE && |queue| < QSIZE && front == v % QSIZE < QSIZE && rear < QSIZE
    ensures rear == if front + |queue| < QSIZE then front + |queue| else front + |queue| - QSIZE
    ensures (v + |queue| + 1) % QSIZE == if rear + 1 == QSIZE then 0 else rear + 1
  {
    Place(v, |queue|);
    Place(v, |queue| + 1);
  }

  /** Put x into a queue nothing was taken from yet, which does not wrap around. */
  method PushFirst(cells: array<nat>, rear0: nat, x: nat, ghost queue: seq<nat>) returns (rear: nat)
    requires Ring(cells[..], 0, rear0, queue, 0) && rear0 == |queue| < QSIZE - 1
    modifies cells
    ensures Ring(cells[..], 0, rear, queue + [x], 0) && rear == rear0 + 1
  {
    hide Ring;
    RingSizes(cells[..], 0, rear0, queue, 0);
    RingNext(cells[..], 0, rear0, queue, 0, x);
    ghost var was := cells[..];
    cells[rear0] := x;
    assert cells[..] == was[rear0 := x];
    rear := rear0 + 1;
  }

  /** Take the first. */
  method Pop(cells: array<nat>, front0: nat, rear: nat, ghost queue: seq<nat>, ghost v: nat) returns (x: nat, front: nat)
    requires Ring(cells[..], front0, rear, queue, v) && queue != []
    ensures x == queue[0] && Ring(cells[..], front, rear, queue[1..], v + 1)
  {
    Place(v, 0);
    Place(v, 1);
    x := cells[front0];
    front := if front0 == QSIZE - 1 then 0 else front0 + 1;
    assert v + |queue| == v + 1 + |queue[1..]|;
    forall i | 0 <= i < |queue[1..]| ensures cells[..][(v + 1 + i) % QSIZE] == queue[1..][i] {
      assert v + 1 + i == v + (i + 1);
    }
  }
}
