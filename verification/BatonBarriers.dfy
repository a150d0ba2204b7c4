/** The one-shot barrier: the last arrival raises a semaphore, and each thread
    that gets through passes the token on. */
module BatonBarriers {
  import opened Queues
  import opened Semaphores
  import opened Sums

  /** Where a thread is: not in the barrier yet; counted, with what was left to
      come; asleep; about to pass the token on; through; or the kernel has
      panicked because there were too many. */
  datatype Pc = Outside | Counted(left: int) | Asleep(place: nat) | Raising | Through | Panicked

  datatype State = State(initial: nat, count: int, sem: Sem<nat>, pcs: seq<Pc>)

  ghost function Init(initial: nat, threads: nat): State {
    State(initial, initial, Sem(0, Line([], 0)), seq(threads, i => Outside))
  }

  ghost function Step(s: State, th: nat): State
    requires th < |s.pcs| && s.sem.Valid()
  {
    match s.pcs[th]
    case Outside => s.(count := s.count - 1, pcs := s.pcs[th := Counted(s.count - 1)])
    case Counted(x) =>
      if x < 0 then s.(pcs := s.pcs[th := Panicked])
      else if x == 0 then s.(pcs := s.pcs[th := Raising])
      else
        var (sem, taken) := s.sem.TryDown();
        if taken then s.(sem := sem, pcs := s.pcs[th := Raising])
        else s.(sem := s.sem.Enqueue(th), pcs := s.pcs[th := Asleep(|s.sem.line.joined|)])
    case Raising =>
      var (sem, next) := s.sem.Up();
      var pcs := s.pcs[th := Through];
      s.(sem := sem, pcs := if next.Some? && next.value < |pcs| then pcs[next.value := Raising] else pcs)
    case _ => s
  }

  // ---------------------------------------------------------------------
  // The invariant
  // ---------------------------------------------------------------------

  ghost function Arrived(pc: Pc): nat {
    if pc.Outside? then 0 else 1
  }

  /** Whether a thread holds the token that opens the barrier. */
  ghost function Baton(pc: Pc): nat {
    if pc.Raising? || pc == Counted(0) then 1 else 0
  }

  ghost function ArrivedEach(pcs: seq<Pc>): seq<nat> {
    seq(|pcs|, i requires 0 <= i < |pcs| => Arrived(pcs[i]))
  }

  ghost function BatonEach(pcs: seq<Pc>): seq<nat> {
    seq(|pcs|, i requires 0 <= i < |pcs| => Baton(pcs[i]))
  }

  ghost function Arrivals(pcs: seq<Pc>): nat {
    Sum(ArrivedEach(pcs))
  }

  ghost function Batons(pcs: seq<Pc>): nat {
    Sum(BatonEach(pcs))
  }

  lemma Update(pcs: seq<Pc>, th: nat, pc: Pc, pcs': seq<Pc>)
    requires th < |pcs| && pcs' == pcs[th := pc]
    ensures Arrivals(pcs') == Arrivals(pcs) - Arrived(pcs[th]) + Arrived(pc) && Arrivals(pcs) >= Arrived(pcs[th])
    ensures Batons(pcs') == Batons(pcs) - Baton(pcs[th]) + Baton(pc) && Batons(pcs) >= Baton(pcs[th])
  {
    assert ArrivedEach(pcs') == ArrivedEach(pcs)[th := Arrived(pc)];
    assert BatonEach(pcs') == BatonEach(pcs)[th := Baton(pc)];
    SumUpdate(ArrivedEach(pcs), th, Arrived(pc));
    SumUpdate(BatonEach(pcs), th, Baton(pc));
  }

  ghost predicate ThreadOk(s: State, th: nat)
    requires th < |s.pcs|
  {
    match s.pcs[th]
    case Asleep(k) => s.sem.line.head <= k < |s.sem.line.joined| && s.sem.line.joined[k] == th
    case Counted(x) => x >= s.count
    case Raising => s.count <= 0
    case Through => s.count <= 0
    case _ => true
  }

  ghost predicate PlaceOk(s: State, k: nat)
    requires k < |s.sem.line.joined|
  {
    s.sem.line.joined[k] < |s.pcs| && s.pcs[s.sem.line.joined[k]] == Asleep(k)
  }

  /** Nobody has the token before the last arrival, and then it is in one place. */
  ghost predicate Inv(s: State) {
    && s.sem.Tight()
    && (forall th: nat {:trigger ThreadOk(s, th)} | th < |s.pcs| :: ThreadOk(s, th))
    && (forall k: nat {:trigger PlaceOk(s, k)} | s.sem.line.head <= k < |s.sem.line.joined| :: PlaceOk(s, k))
    && s.count == s.initial - Arrivals(s.pcs)
    && s.sem.count + Batons(s.pcs) == (if s.count > 0 then 0 else 1)
  }

  lemma InitInv(initial: nat, threads: nat)
    requires initial >= 1
    ensures Inv(Init(initial, threads))
  {
    var s := Init(initial, threads);
    SumZero(ArrivedEach(s.pcs));
    SumZero(BatonEach(s.pcs));
    forall th: nat | th < |s.pcs| ensures ThreadOk(s, th) {}
  }

  lemma ThreadsStay(s: State, th: nat, s': State)
    requires Inv(s) && th < |s.pcs| && s' == Step(s, th)
    ensures forall u: nat {:trigger ThreadOk(s', u)} | u < |s'.pcs| :: ThreadOk(s', u)
    ensures forall k: nat {:trigger PlaceOk(s', k)} | s'.sem.line.head <= k < |s'.sem.line.joined| :: PlaceOk(s', k)
  {
    var l := s.sem.line;
    assert ThreadOk(s, th);
    if l.head < |l.joined| { assert PlaceOk(s, l.head); }
    if s.pcs[th] == Counted(0) || s.sem.count > 0 { TokenMeansOpen(s, th); }
    forall u: nat | u < |s'.pcs| ensures ThreadOk(s', u) { assert ThreadOk(s, u); }
    forall k: nat | s'.sem.line.head <= k < |s'.sem.line.joined| ensures PlaceOk(s', k) {
      if k < |l.joined| { assert PlaceOk(s, k); }
    }
  }

  lemma TokenMeansOpen(s: State, th: nat)
    requires Inv(s) && th < |s.pcs| && (Baton(s.pcs[th]) == 1 || s.sem.count > 0)
    ensures s.count <= 0
  {
    Update(s.pcs, th, s.pcs[th], s.pcs[th := s.pcs[th]]);
  }

  lemma StepKeepsInv(s: State, th: nat, s': State)
    requires Inv(s) && th < |s.pcs| && s' == Step(s, th)
    ensures Inv(s') && s'.initial == s.initial && |s'.pcs| == |s.pcs|
  {
    ThreadsStay(s, th, s');
    var l := s.sem.line;
    assert ThreadOk(s, th);
    if l.head < |l.joined| { assert PlaceOk(s, l.head); }
    if s.pcs[th].Raising? {
      var pcs := s.pcs[th := Through];
      Update(s.pcs, th, Through, pcs);
      if l.head < |l.joined| { Update(pcs, l.joined[l.head], Raising, s'.pcs); }
    } else {
      Update(s.pcs, th, s'.pcs[th], s'.pcs);
    }
  }

  ghost function View(s: State): Whole {
    Whole(s.sem, set u: nat | u < |s.pcs| && s.pcs[u].Asleep?)
  }

  /** Each step does at most one whole operation on the semaphore, as defined
      for its own runs. */
  lemma StepIsAtomic(s: State, th: nat, s': State)
    requires Inv(s) && th < |s.pcs| && s' == Step(s, th)
    ensures DoesAtMostOne(View(s), th, View(s'))
  {
    var l := s.sem.line;
    if s.pcs[th].Raising? && l.head < |l.joined| { assert PlaceOk(s, l.head); }
    var w := if s.pcs[th].Raising? then Do(View(s), Up(th)) else if s.pcs[th].Counted? && s.pcs[th].left > 0
             then Do(View(s), Down(th)) else View(s);
    forall u: nat ensures u in View(s').asleep <==> u in w.asleep {}
    assert View(s') == w;
  }

  // ---------------------------------------------------------------------
  // Every run
  // ---------------------------------------------------------------------

  ghost function Run(s: State, turns: seq<nat>): (r: State)
    requires Inv(s)
    ensures Inv(r) && r.initial == s.initial && |r.pcs| == |s.pcs|
    decreases |turns|
  {
    if turns == [] then s
    else if turns[0] < |s.pcs| then
      StepKeepsInv(s, turns[0], Step(s, turns[0]));
      Run(Step(s, turns[0]), turns[1..])
    else Run(s, turns[1..])
  }

  /** No thread gets through before `initial` of them have arrived. */
  lemma NobodyThroughEarly(initial: nat, threads: nat, turns: seq<nat>, th: nat)
    requires initial >= 1 && th < threads
    ensures Inv(Init(initial, threads))
    ensures
      var s := Run(Init(initial, threads), turns);
      s.pcs[th].Through? || s.pcs[th].Raising? ==> Arrivals(s.pcs) >= initial
  {
    InitInv(initial, threads);
    assert ThreadOk(Run(Init(initial, threads), turns), th);
  }

  /** Nobody is left behind: once enough have arrived and no thread is on its
      way, none is asleep. */
  lemma NobodyLeftBehind(initial: nat, threads: nat, turns: seq<nat>, th: nat)
    requires initial >= 1 && th < threads
    ensures Inv(Init(initial, threads))
    ensures
      var s := Run(Init(initial, threads), turns);
      Arrivals(s.pcs) >= initial && (forall u: nat | u < threads :: !s.pcs[u].Counted? && !s.pcs[u].Raising?) ==>
        !s.pcs[th].Asleep?
  {
    InitInv(initial, threads);
    var s := Run(Init(initial, threads), turns);
    if forall u: nat | u < threads :: !s.pcs[u].Counted? && !s.pcs[u].Raising? {
      SumZero(BatonEach(s.pcs));
      assert ThreadOk(s, th);
    }
  }

  /** It is never in vain that it is the turn of a thread, unless it is asleep,
      through, or has panicked. */
  lemma NobodyIsStuck(initial: nat, threads: nat, turns: seq<nat>, th: nat)
    requires initial >= 1 && th < threads
    ensures Inv(Init(initial, threads))
    ensures
      var s := Run(Init(initial, threads), turns);
      s.pcs[th].Outside? || s.pcs[th].Counted? || s.pcs[th].Raising? ==> Step(s, th).pcs[th] != s.pcs[th]
  {
    InitInv(initial, threads);
    var s := Run(Init(initial, threads), turns);
    assert ThreadOk(s, th);
    if s.sem.line.head < |s.sem.line.joined| { assert PlaceOk(s, s.sem.line.head); }
  }

  // ---------------------------------------------------------------------
  // Too many threads
  // ---------------------------------------------------------------------

  /** A thread that came too late: it panics, or is about to. */
  ghost function Late(pc: Pc): nat {
    if pc.Panicked? || (pc.Counted? && pc.left < 0) then 1 else 0
  }

  ghost function LateEach(pcs: seq<Pc>): seq<nat> {
    seq(|pcs|, i requires 0 <= i < |pcs| => Late(pcs[i]))
  }

  ghost predicate LateOk(s: State) {
    Sum(LateEach(s.pcs)) == if s.count < 0 then -s.count else 0
  }

  lemma LateUpdate(pcs: seq<Pc>, th: nat, pc: Pc)
    requires th < |pcs|
    ensures Sum(LateEach(pcs[th := pc])) == Sum(LateEach(pcs)) - Late(pcs[th]) + Late(pc)
  {
    assert LateEach(pcs[th := pc]) == LateEach(pcs)[th := Late(pc)];
    SumUpdate(LateEach(pcs), th, Late(pc));
  }

  lemma StepKeepsLate(s: State, th: nat, s': State)
    requires Inv(s) && LateOk(s) && th < |s.pcs| && s' == Step(s, th)
    ensures LateOk(s')
  {
    var l := s.sem.line;
    LateUpdate(s.pcs, th, s'.pcs[th]);
    if s.pcs[th].Raising? && l.head < |l.joined| {
      assert PlaceOk(s, l.head);
      LateUpdate(s.pcs[th := Through], l.joined[l.head], Raising);
    }
  }

  lemma {:induction false} RunKeepsLate(s: State, turns: seq<nat>)
    requires Inv(s) && LateOk(s)
    ensures LateOk(Run(s, turns))
    decreases |turns|
  {
    if turns == [] {
    } else if turns[0] < |s.pcs| {
      StepKeepsInv(s, turns[0], Step(s, turns[0]));
      StepKeepsLate(s, turns[0], Step(s, turns[0]));
      RunKeepsLate(Step(s, turns[0]), turns[1..]);
    } else {
      RunKeepsLate(s, turns[1..]);
    }
  }

  /** In every interleaving just the threads beyond the first `initial` to arrive
      panic; with no more than `initial` of them nobody does. */
  lemma OnlyTooManyPanic(initial: nat, threads: nat, turns: seq<nat>)
    requires initial >= 1
    ensures Inv(Init(initial, threads))
    ensures
      var s := Run(Init(initial, threads), turns);
      Sum(LateEach(s.pcs)) == if Arrivals(s.pcs) > initial then Arrivals(s.pcs) - initial else 0
  {
    InitInv(initial, threads);
    SumZero(LateEach(Init(initial, threads).pcs));
    RunKeepsLate(Init(initial, threads), turns);
  }
}
