/** The intrusive first-in first-out queue, linked through its members. */
module Queues {

  datatype Option<T> = None | Some(value: T)

  /** A line keeps all who ever joined it, in order; those before `head` have
      left. So a member's place in `joined` never changes while it stands. */
  datatype Line<T> = Line(joined: seq<T>, head: nat) {
    ghost predicate Valid() {
      head <= |joined|
    }

    ghost function Items(): seq<T>
      requires Valid()
    {
      joined[head..]
    }

    ghost function Join(t: T): Line<T> {
      Line(joined + [t], head)
    }

    ghost function Leave(): (Line<T>, Option<T>)
      requires Valid()
    {
      if head == |joined| then (this, None) else (Line(joined, head + 1), Some(joined[head]))
    }
  }

  /** A line is a first-in first-out queue. */
  lemma LineIsFifo<T>(l: Line<T>, t: T)
    requires l.Valid()
    ensures l.Join(t).Valid() && l.Join(t).Items() == l.Items() + [t]
    ensures var (r, next) := l.Leave();
      && r.Valid()
      && if l.Items() == [] then next == None && r == l else next.Some? && l.Items() == [next.value] + r.Items()
  {
  }

  /** A thread's control block, with the link the queue uses. */
  class Node {
    const id: nat
    var next: Node?

    constructor (id: nat)
      ensures this.id == id
    {
      this.id := id;
      next := null;
    }
  }

  class Queue {
    var first: Node?
    var last: Node?
    ghost var line: Line<Node>

    ghost predicate Valid()
      reads this, line.joined
    {
      line.Valid() && Chained(first, last, line.joined[line.head..])
    }

    constructor ()
      ensures Valid() && line == Line([], 0)
    {
      first, last, line := null, null, Line([], 0);
    }

    /** `t` must not be in the queue already: its link would be lost. */
    method Add(t: Node)
      requires Valid() && t !in line.Items()
      modifies this, t, last
      ensures Valid() && line == old(line).Join(t)
    {
      ghost var q := line.joined[line.head..];
      t.next := null;
      if first == null {
        first := t;
      } else {
        last.next := t;
      }
      last := t;
      line := line.Join(t);
      assert line.joined[line.head..] == q + [t];
      forall i: nat, j: nat | i < j < |q + [t]| ensures Differ(q + [t], i, j) {
        assert j < |q| ==> Differ(q, i, j);
      }
      forall i: nat | i + 1 < |q + [t]| ensures Follows(q + [t], i) {
        if i + 1 < |q| { assert old(Follows(q, i)) && Differ(q, i, |q| - 1); }
      }
    }

    method Remove() returns (it: Node?)
      requires Valid()
      modifies this
      ensures Valid() && line == old(line).Leave().0
      ensures it == match old(line).Leave().1 case None => null case Some(t) => t
    {
      ghost var q := line.joined[line.head..];
      if first == null {
        return null;
      }
      it := first;
      assert 1 < |q| ==> Follows(q, 0) && Differ(q, 0, |q| - 1);
      first := it.next;
      if first == null {
        last := null;
      }
      line := line.Leave().0;
      assert line.joined[line.head..] == q[1..];
      forall i: nat, j: nat | i < j < |q[1..]| ensures Differ(q[1..], i, j) { assert Differ(q, i + 1, j + 1); }
      forall i: nat | i + 1 < |q[1..]| ensures Follows(q[1..], i) { assert Follows(q, i + 1); }
    }

    /** Everyone leaves at once, still linked to each other in order. */
    method RemoveAll() returns (it: Node?)
      requires Valid()
      modifies this
      ensures Valid() && line.Items() == [] && line.joined == old(line.joined)
      ensures Linked(it, old(line.Items()))
    {
      it := first;
      assert Linked(it, line.joined[line.head..]) by { LinkedFrom(line.joined[line.head..], 0); }
      first, last := null, null;
      line := Line(line.joined, |line.joined|);
    }
  }

  ghost predicate Differ(q: seq<Node>, i: nat, j: nat)
    requires i < |q| && j < |q|
  {
    q[i] != q[j]
  }

  ghost predicate Follows(q: seq<Node>, i: nat)
    requires i + 1 < |q|
    reads q
  {
    q[i].next == q[i + 1]
  }

  /** The members of `q` are different and linked in order, from `first` to `last`. */
  ghost predicate Chained(first: Node?, last: Node?, q: seq<Node>)
    reads q
  {
    && (forall i: nat, j: nat {:trigger Differ(q, i, j)} | i < j < |q| :: Differ(q, i, j))
    && (forall i: nat {:trigger Follows(q, i)} | i + 1 < |q| :: Follows(q, i))
    && first == (if q == [] then null else q[0])
    && last == (if q == [] then null else q[|q| - 1])
    && (q != [] ==> q[|q| - 1].next == null)
  }

  /** Following the links from `n` gives exactly `q`. */
  ghost predicate Linked(n: Node?, q: seq<Node>)
    reads q
  {
    if q == [] then n == null else n == q[0] && Linked(q[0].next, q[1..])
  }

  lemma {:induction false} LinkedFrom(q: seq<Node>, i: nat)
    requires i <= |q|
    requires forall k: nat {:trigger Follows(q, k)} | k + 1 < |q| :: Follows(q, k)
    requires q != [] ==> q[|q| - 1].next == null
    ensures Linked(if i == |q| then null else q[i], q[i..])
    decreases |q| - i
  {
    if i < |q| {
      assert i + 1 < |q| ==> Follows(q, i);
      LinkedFrom(q, i + 1);
      assert q[i..][1..] == q[i + 1..];
    }
  }
}
