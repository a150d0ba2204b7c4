/** Counting semaphores that hand a token straight to the first waiter. */
module Semaphores {
  import opened Queues

  /** What a semaphore's lock protects. */
  datatype Sem<T> = Sem(count: nat, line: Line<T>) {

    ghost predicate Valid() {
      line.Valid()
    }

    /** Nobody waits while there is a token to take. */
    ghost predicate Tight() {
      line.Valid() && (line.Items() != [] ==> count == 0)
    }

    ghost function TryDown(): (Sem<T>, bool) {
      if count > 0 then (Sem(count - 1, line), true) else (this, false)
    }

    ghost function Enqueue(t: T): Sem<T> {
      Sem(count, line.Join(t))
    }

    ghost function Up(): (Sem<T>, Option<T>)
      requires Valid()
    {
      var (l, next) := line.Leave();
      (Sem(if next.None? then count + 1 else count, l), next)
    }
  }

  /** A semaphore with the threads that sleep on it, and its two operations as
      single steps. A thread that is asleep takes none. */
  datatype Whole = Whole(sem: Sem<nat>, asleep: set<nat>)

  datatype Act = Down(thread: nat) | Up(thread: nat)

  ghost function Do(w: Whole, act: Act): (r: Whole)
    requires w.sem.Valid()
    ensures r.sem.Valid()
  {
    if act.thread in w.asleep then w
    else
      match act
      case Down(th) =>
        var (sem, taken) := w.sem.TryDown();
        if taken then Whole(sem, w.asleep) else Whole(w.sem.Enqueue(th), w.asleep + {th})
      case Up(_) =>
        var (sem, next) := w.sem.Up();
        Whole(sem, if next.Some? then w.asleep - {next.value} else w.asleep)
  }

  ghost function DoAll(w: Whole, acts: seq<Act>): (r: Whole)
    requires w.sem.Valid()
    ensures r.sem.Valid()
  {
    if acts == [] then w else Do(DoAll(w, acts[..|acts| - 1]), acts[|acts| - 1])
  }

  /** Nothing happens to the semaphore, or one whole operation of `th`. */
  ghost predicate DoesAtMostOne(w: Whole, th: nat, w': Whole)
    requires w.sem.Valid()
  {
    w' == w || (th !in w.asleep && (w' == Do(w, Down(th)) || w' == Do(w, Up(th))))
  }

  /** The critical sections of down and up, on the linked queue. */
  class Semaphore {
    var count: nat
    const waiting: Queue

    ghost predicate Valid()
      reads this, waiting, waiting.line.joined
    {
      waiting.Valid()
    }

    ghost function View(): Sem<Node>
      reads this, waiting
    {
      Sem(count, waiting.line)
    }

    constructor (count: nat)
      ensures Valid() && View() == Sem(count, Line([], 0)) && fresh(waiting)
    {
      this.count := count;
      waiting := new Queue();
    }

    /** Up to the test: take a token if there is one. */
    method TryDown() returns (taken: bool)
      requires Valid()
      modifies this
      ensures Valid() && (View(), taken) == old(View()).TryDown()
    {
      if count > 0 {
        count := count - 1;
        return true;
      }
      return false;
    }

    /** The action after the switch away from `me`. */
    method Enqueue(me: Node)
      requires Valid() && me !in waiting.line.Items()
      modifies waiting, me, waiting.last
      ensures Valid() && View() == old(View()).Enqueue(me)
    {
      waiting.Add(me);
    }

    /** Returns the waiter to schedule, or null if the token stays. */
    method Up() returns (next: Node?)
      requires Valid()
      modifies this, waiting
      ensures Valid() && View() == old(View()).Up().0
      ensures next == match old(View()).Up().1 case None => null case Some(t) => t
    {
      next := waiting.Remove();
      if next == null {
        count := count + 1;
      }
    }
  }
}
