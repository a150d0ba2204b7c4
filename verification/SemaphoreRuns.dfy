/** Any number of threads on one semaphore, at the steps between which they
    interleave. */
module SemaphoreRuns {
  import opened Queues
  import opened Semaphores

  /** Where a thread is. Only `Testing`, `Switching` and `Raising` hold the lock;
      one that is switching has left its core but is not in the queue yet. */
  datatype Pc =
    | Outside
    | Testing
    | Switching
    | Asleep(place: nat)
    | InHand(giver: nat)
    | Raising
    | Scheduling(next: nat)

  /** `ups` and `grants` count the completed ups and the downs that got a token;
      `woken` lists the waiters in the order in which they got theirs. */
  datatype State = State(initial: nat, sem: Sem<nat>, lock: Option<nat>, pcs: seq<Pc>, ups: nat, grants: nat,
                         woken: seq<nat>)

  ghost function Init(initial: nat, threads: nat): State {
    State(initial, Sem(initial, Line([], 0)), None, seq(threads, i => Outside), 0, 0, [])
  }

  /** The next step of thread `th`; one that is outside starts a down or an up.
      A thread that spins or sleeps changes nothing. */
  ghost function Step(s: State, th: nat, down: bool): State
    requires th < |s.pcs| && s.sem.Valid()
  {
    match s.pcs[th]
    case Outside =>
      if s.lock.Some? then s
      else s.(lock := Some(th), pcs := s.pcs[th := if down then Testing else Raising])
    case Testing =>
      var (sem, taken) := s.sem.TryDown();
      if taken then s.(sem := sem, lock := None, pcs := s.pcs[th := Outside], grants := s.grants + 1)
      else s.(pcs := s.pcs[th := Switching])
    case Switching =>
      s.(sem := s.sem.Enqueue(th), lock := None, pcs := s.pcs[th := Asleep(|s.sem.line.joined|)])
    case Raising =>
      var (sem, next) := s.sem.Up();
      if next.None? || next.value >= |s.pcs| then
        s.(sem := sem, lock := None, pcs := s.pcs[th := Outside], ups := s.ups + 1)
      else
        s.(sem := sem, lock := None, pcs := s.pcs[th := Scheduling(next.value)][next.value := InHand(th)],
           ups := s.ups + 1, grants := s.grants + 1, woken := s.woken + [next.value])
    case Scheduling(next) =>
      if next < |s.pcs| then s.(pcs := s.pcs[th := Outside][next := Outside]) else s
    case _ => s
  }

  // ---------------------------------------------------------------------
  // The invariant
  // ---------------------------------------------------------------------

  ghost predicate ThreadOk(s: State, th: nat)
    requires th < |s.pcs|
  {
    match s.pcs[th]
    case Outside => s.lock != Some(th)
    case Testing => s.lock == Some(th)
    case Switching => s.lock == Some(th) && s.sem.count == 0
    case Asleep(k) => s.lock != Some(th) && s.sem.line.head <= k < |s.sem.line.joined| && s.sem.line.joined[k] == th
    case InHand(g) => s.lock != Some(th) && g < |s.pcs| && s.pcs[g] == Scheduling(th)
    case Raising => s.lock == Some(th)
    case Scheduling(n) => s.lock != Some(th) && n < |s.pcs| && s.pcs[n] == InHand(th)
  }

  ghost predicate PlaceOk(s: State, k: nat)
    requires k < |s.sem.line.joined|
  {
    s.sem.line.joined[k] < |s.pcs| && s.pcs[s.sem.line.joined[k]] == Asleep(k)
  }

  ghost predicate Inv(s: State) {
    && s.sem.Valid()
    && (s.lock.Some? ==> s.lock.value < |s.pcs|)
    && (forall th: nat {:trigger ThreadOk(s, th)} | th < |s.pcs| :: ThreadOk(s, th))
    && (forall k: nat {:trigger PlaceOk(s, k)} | s.sem.line.head <= k < |s.sem.line.joined| :: PlaceOk(s, k))
    && s.initial + s.ups == s.sem.count + s.grants
    && (s.sem.line.head < |s.sem.line.joined| ==> s.sem.count == 0)
    && s.woken == s.sem.line.joined[..s.sem.line.head]
  }

  /** The thread that moves ends up where it may be. */
  lemma MoverOk(s: State, th: nat, down: bool, s': State)
    requires Inv(s) && th < |s.pcs| && s' == Step(s, th, down)
    ensures ThreadOk(s', th)
  {
    assert ThreadOk(s, th);
    var l := s.sem.line;
    if s.pcs[th].Raising? && l.head < |l.joined| { assert PlaceOk(s, l.head); }
  }

  /** So does any other. */
  lemma ThreadStays(s: State, th: nat, down: bool, s': State, u: nat)
    requires Inv(s) && th < |s.pcs| && s' == Step(s, th, down) && u < |s'.pcs| && u != th
    ensures ThreadOk(s', u)
  {
    assert ThreadOk(s, th) && ThreadOk(s, u);
    var l := s.sem.line;
    if s.pcs[th].Raising? && l.head < |l.joined| { assert PlaceOk(s, l.head); }
  }

  lemma PlaceStays(s: State, th: nat, down: bool, s': State, k: nat)
    requires Inv(s) && th < |s.pcs| && s' == Step(s, th, down) && s'.sem.line.head <= k < |s'.sem.line.joined|
    ensures PlaceOk(s', k)
  {
    assert ThreadOk(s, th);
    var l := s.sem.line;
    if k < |l.joined| { assert PlaceOk(s, k); }
    if s.pcs[th].Raising? && l.head < |l.joined| { assert PlaceOk(s, l.head); }
  }

  lemma StepKeepsInv(s: State, th: nat, down: bool, s': State)
    requires Inv(s) && th < |s.pcs| && s' == Step(s, th, down)
    ensures Inv(s') && s'.initial == s.initial && |s'.pcs| == |s.pcs|
    ensures s.sem.line.joined <= s'.sem.line.joined && s.woken <= s'.woken
  {
    forall u: nat | u < |s'.pcs| ensures ThreadOk(s', u) {
      if u == th { MoverOk(s, th, down, s'); } else { ThreadStays(s, th, down, s', u); }
    }
    forall k: nat | s'.sem.line.head <= k < |s'.sem.line.joined| ensures PlaceOk(s', k) {
      PlaceStays(s, th, down, s', k);
    }
    assert ThreadOk(s, th);
    if s.pcs[th].Raising? && s.sem.line.head < |s.sem.line.joined| { assert PlaceOk(s, s.sem.line.head); }
  }

  /** A choice of whose turn it is, and of what a thread outside does next. */
  datatype Turn = Turn(thread: nat, down: bool)

  ghost function Run(s: State, turns: seq<Turn>): (r: State)
    requires Inv(s)
    ensures Inv(r) && r.initial == s.initial && |r.pcs| == |s.pcs|
    decreases |turns|
  {
    if turns == [] then s
    else if turns[0].thread < |s.pcs| then
      StepKeepsInv(s, turns[0].thread, turns[0].down, Step(s, turns[0].thread, turns[0].down));
      Run(Step(s, turns[0].thread, turns[0].down), turns[1..])
    else Run(s, turns[1..])
  }

  lemma InitInv(initial: nat, threads: nat)
    ensures Inv(Init(initial, threads))
  {
    var s := Init(initial, threads);
    forall th: nat | th < |s.pcs| ensures ThreadOk(s, th) {}
  }

  /** In every interleaving: no token is lost or made up, nobody sleeps while
      there is a token, and waiters get theirs in the order they queued in. */
  lemma SemaphoreSafe(initial: nat, threads: nat, turns: seq<Turn>)
    ensures Inv(Init(initial, threads))
    ensures
      var s := Run(Init(initial, threads), turns);
      && initial + s.ups == s.sem.count + s.grants
      && s.sem.Tight()
      && s.sem.line.joined == s.woken + s.sem.line.Items()
  {
    InitInv(initial, threads);
  }

  /** In every interleaving: who sleeps does so because there is no token; the
      holder of the lock can go on, and with the lock free so can everyone who is
      not asleep, or the thread that is about to schedule it. */
  lemma NobodyIsStuck(initial: nat, threads: nat, turns: seq<Turn>, th: nat, down: bool)
    requires th < threads
    ensures Inv(Init(initial, threads))
    ensures
      var s := Run(Init(initial, threads), turns);
      match s.pcs[th]
      case Asleep(_) => s.sem.count == 0
      case InHand(g) => g < threads && Step(s, g, down).pcs[th] == Outside
      case _ => s.lock == None || s.lock == Some(th) ==> Step(s, th, down).pcs[th] != s.pcs[th]
  {
    InitInv(initial, threads);
    var s := Run(Init(initial, threads), turns);
    assert ThreadOk(s, th);
    if s.pcs[th].InHand? { assert ThreadOk(s, s.pcs[th].giver); }
    if s.pcs[th].Raising? && s.sem.line.head < |s.sem.line.joined| { assert PlaceOk(s, s.sem.line.head); }
  }

  /** A thread sleeps in just one place of the queue, and one in the queue is asleep. */
  lemma SleepersAreQueued(s: State, th: nat)
    requires Inv(s) && th < |s.pcs|
    ensures s.pcs[th].Asleep? <==> th in s.sem.line.Items()
    ensures forall i: nat, j: nat | i < j < |s.sem.line.Items()| :: s.sem.line.Items()[i] != s.sem.line.Items()[j]
  {
    var l := s.sem.line;
    assert ThreadOk(s, th);
    forall i: nat | i < |l.Items()| ensures l.Items()[i] == l.joined[l.head + i] && PlaceOk(s, l.head + i) {}
    if s.pcs[th].Asleep? {
      var k := s.pcs[th].place;
      assert l.Items()[k - l.head] == th;
    }
  }

  // ---------------------------------------------------------------------
  // Down and up as single steps
  // ---------------------------------------------------------------------

  ghost function Sleepers(s: State): set<nat> {
    set th: nat | th < |s.pcs| && s.pcs[th].Asleep?
  }

  ghost function View(s: State): Whole {
    Whole(s.sem, Sleepers(s))
  }

  /** The operations that take effect in this step: a down when it gets its
      token or goes to sleep, an up when it raises the count or wakes a thread. */
  ghost function Effect(s: State, th: nat): seq<Act>
    requires th < |s.pcs|
  {
    match s.pcs[th]
    case Testing => if s.sem.count > 0 then [Down(th)] else []
    case Switching => [Down(th)]
    case Raising => [Up(th)]
    case _ => []
  }

  lemma StepTakesEffect(s: State, th: nat, down: bool, s': State)
    requires Inv(s) && th < |s.pcs| && s' == Step(s, th, down)
    ensures View(s') == if Effect(s, th) == [] then View(s) else Do(View(s), Effect(s, th)[0])
    ensures Effect(s, th) != [] ==> th !in Sleepers(s)
  {
    assert ThreadOk(s, th);
    var l := s.sem.line;
    if s.pcs[th].Raising? && l.head < |l.joined| { assert PlaceOk(s, l.head); }
    if s.pcs[th].Scheduling? { assert ThreadOk(s, s.pcs[th].next); }
    forall u: nat ensures u in Sleepers(s') <==>
        u in (if Effect(s, th) == [] then View(s) else Do(View(s), Effect(s, th)[0])).asleep {}
  }

  ghost function Effects(s: State, turns: seq<Turn>): seq<Act>
    requires Inv(s)
    decreases |turns|
  {
    if turns == [] then []
    else if turns[0].thread < |s.pcs| then
      StepKeepsInv(s, turns[0].thread, turns[0].down, Step(s, turns[0].thread, turns[0].down));
      Effect(s, turns[0].thread) + Effects(Step(s, turns[0].thread, turns[0].down), turns[1..])
    else Effects(s, turns[1..])
  }

  /** Every run is one of whole operations: interleaving inside them, with the
      lock, the switch and the queue, shows nothing else. */
  lemma {:induction false} RunIsAtomic(s: State, turns: seq<Turn>)
    requires Inv(s)
    ensures View(Run(s, turns)) == DoAll(View(s), Effects(s, turns))
    decreases |turns|
  {
    if turns == [] {
    } else if turns[0].thread < |s.pcs| {
      var th, s' := turns[0].thread, Step(s, turns[0].thread, turns[0].down);
      StepKeepsInv(s, th, turns[0].down, s');
      StepTakesEffect(s, th, turns[0].down, s');
      RunIsAtomic(s', turns[1..]);
      assert DoAll(View(s), Effect(s, th)) == View(s');
      DoAllJoin(View(s), Effect(s, th), Effects(s', turns[1..]));
    } else {
      RunIsAtomic(s, turns[1..]);
    }
  }

  lemma {:induction false} DoAllJoin(w: Whole, a: seq<Act>, b: seq<Act>)
    requires w.sem.Valid()
    ensures DoAll(w, a + b) == DoAll(DoAll(w, a), b)
    decreases |b|
  {
    if b == [] {
      assert a + b == a;
    } else {
      assert (a + b)[..|a + b| - 1] == a + b[..|b| - 1];
      DoAllJoin(w, a, b[..|b| - 1]);
    }
  }
}
