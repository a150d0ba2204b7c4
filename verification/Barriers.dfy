/** Mesa condition variables with signal epochs, and the reusable barrier on
    top of one. */
module Barriers {
  import opened Queues

  // ---------------------------------------------------------------------
  // What the lock protects, as values
  // ---------------------------------------------------------------------

  /** A condition: how often it was signalled, and who waits. */
  datatype Cond<T> = Cond(epoch: nat, line: Line<T>) {

    /** Join the line, unless there was a signal since `oldEpoch`. */
    ghost function Park(t: T, oldEpoch: nat): (Cond<T>, bool) {
      if epoch == oldEpoch then (Cond(epoch, line.Join(t)), true) else (this, false)
    }

    ghost function Signal(): Cond<T> {
      Cond(epoch + 1, line)
    }

    /** The first `limit` waiters leave, one after the other. */
    ghost function Wake(limit: nat): (r: (Cond<T>, seq<T>))
      requires line.Valid()
      ensures r.0.line.Valid()
      decreases limit
    {
      var (l, next) := line.Leave();
      if limit == 0 || next.None? then (this, [])
      else
        var (c, rest) := Cond(epoch, l).Wake(limit - 1);
        (c, [next.value] + rest)
    }
  }

  /** Those who wake are the first in the line, and all of it if the limit allows. */
  lemma {:induction false} WakeTakesFirst<T>(c: Cond<T>, limit: nat)
    requires c.line.Valid()
    ensures
      var (r, woken) := c.Wake(limit);
      && woken <= c.line.Items() && (if |c.line.Items()| <= limit then woken == c.line.Items() else |woken| == limit)
      && r == Cond(c.epoch, Line(c.line.joined, c.line.head + |woken|))
    decreases limit
  {
    var (l, next) := c.line.Leave();
    if limit > 0 && next.Some? {
      LineIsFifo(c.line, next.value);
      WakeTakesFirst(Cond(c.epoch, l), limit - 1);
    }
  }

  lemma WakeIs<T>(c: Cond<T>, limit: nat, woken: seq<T>)
    requires c.line.Valid() && woken <= c.line.Items() && |woken| <= limit
    requires |woken| == limit || woken == c.line.Items()
    ensures c.Wake(limit) == (Cond(c.epoch, Line(c.line.joined, c.line.head + |woken|)), woken)
  {
    WakeTakesFirst(c, limit);
    var all, got := c.line.Items(), c.Wake(limit).1;
    assert got == all[..|got|] && woken == all[..|woken|];
  }

  /** A barrier for `initial` threads: how many are still to come in this generation. */
  datatype Gate = Gate(initial: nat, count: nat, epoch: nat) {

    /** One more arrival; the last one opens the next generation. */
    ghost function Arrive(): (Gate, bool)
      requires count > 0
    {
      if count == 1 then (Gate(initial, initial, epoch + 1), true) else (Gate(initial, count - 1, epoch), false)
    }
  }

  // ---------------------------------------------------------------------
  // The critical sections
  // ---------------------------------------------------------------------

  const EVERYONE: nat := 0xFFFF_FFFF_FFFF_FFFF

  class Condition {
    var epoch: nat
    const queue: Queue

    ghost predicate Valid()
      reads this, queue, queue.line.joined
    {
      queue.Valid()
    }

    ghost function View(): Cond<Node>
      reads this, queue
    {
      Cond(epoch, queue.line)
    }

    constructor ()
      ensures Valid() && View() == Cond(0, Line([], 0)) && fresh(queue)
    {
      epoch := 0;
      queue := new Queue();
    }

    /** The action after a waiter's switch: unless there was a signal since it
        gave up the lock, it joins the queue; otherwise it is to be scheduled. */
    method Park(me: Node, oldEpoch: nat) returns (parked: bool)
      requires Valid() && me !in queue.line.Items() && oldEpoch <= epoch
      modifies queue, me, queue.last
      ensures Valid() && (View(), parked) == old(View()).Park(me, oldEpoch)
    {
      parked := epoch == oldEpoch;
      if parked {
        queue.Add(me);
      }
    }

    /** Signal, and release the first `limit` waiters, in order. */
    method Notify(limit: nat) returns (released: seq<Node>)
      requires Valid()
      modifies this, queue
      ensures Valid() && (View(), released) == old(View()).Signal().Wake(limit)
    {
      epoch := epoch + 1;
      released := [];
      ghost var line := queue.line;
      var i := 0;
      while i < limit
        invariant i <= limit && Valid() && epoch == old(epoch) + 1 && |released| == i && line.head + i <= |line.joined|
        invariant queue.line == Line(line.joined, line.head + i)
        invariant released == line.Items()[..i]
      {
        var next := queue.Remove();
        if next == null {
          assert line.Items()[..i] == line.Items();
          break;
        }
        released := released + [next];
        i := i + 1;
      }
      WakeIs(Cond(epoch, line), limit, released);
    }
  }

  class ReusableBarrier {
    const initialCount: nat
    var count: nat
    var epoch: nat
    const newEpoch: Condition

    ghost predicate Valid()
      reads this, newEpoch, newEpoch.queue, newEpoch.queue.line.joined
    {
      newEpoch.Valid() && 1 <= count <= initialCount
    }

    ghost function View(): Gate
      reads this
    {
      Gate(initialCount, count, epoch)
    }

    constructor (count: nat)
      requires count >= 1
      ensures Valid() && View() == Gate(count, count, 0)
      ensures fresh(newEpoch) && fresh(newEpoch.queue) && newEpoch.View() == Cond(0, Line([], 0))
    {
      initialCount, this.count, epoch := count, count, 0;
      newEpoch := new Condition();
    }

    /** An arrival, up to the first test of the wait loop. The last one opens
        the next generation and releases everyone. */
    method Arrive() returns (t: nat, last: bool, released: seq<Node>)
      requires Valid()
      modifies this, newEpoch, newEpoch.queue
      ensures Valid() && t == old(epoch) && (View(), last) == old(View()).Arrive()
      ensures (newEpoch.View(), released) ==
        if last then old(newEpoch.View()).Signal().Wake(EVERYONE) else (old(newEpoch.View()), [])
    {
      t := epoch;
      count := count - 1;
      last := count == 0;
      released := [];
      if last {
        epoch := epoch + 1;
        count := initialCount;
        released := newEpoch.Notify(EVERYONE);
      }
    }
  }
}
