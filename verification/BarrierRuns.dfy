/** Any number of threads in the reusable barrier, at every step between which
    they interleave. */
module BarrierRuns {
  import opened Queues
  import opened Barriers
  import opened Sums

  /** Where a thread is. A thread of generation `t` that waits gives up the
      lock (`Gap`); after the switch the action takes the lock for it
      (`Action`) and either queues it (`Asleep`) or schedules it (`Passing`). */
  datatype Pc =
    | Outside
    | Entered
    | Last(t: nat)
    | Bumped(t: nat)
    | Notifying(t: nat)
    | Handing(t: nat, next: nat)
    | Check(t: nat)
    | Gap(t: nat, seen: nat)
    | Action(t: nat, seen: nat)
    | Passing(t: nat)
    | Asleep(t: nat, place: nat)
    | InHand(t: nat, giver: nat)
    | Ready(t: nat)
    | Leaving(t: nat)

  datatype Event = Arrived(thread: nat, gen: nat) | Left(thread: nat, gen: nat)

  /** `signals` is the condition's own epoch; `log` all arrivals and departures so far. */
  datatype State = State(initial: nat, count: nat, epoch: nat, signals: nat, line: Line<nat>,
                         lock: Option<nat>, pcs: seq<Pc>, log: seq<Event>)

  ghost function Init(initial: nat, threads: nat): State {
    State(initial, initial, 0, 0, Line([], 0), None, seq(threads, i => Outside), [])
  }

  ghost function Goto(s: State, th: nat, pc: Pc): State
    requires th < |s.pcs|
  {
    s.(pcs := s.pcs[th := pc])
  }

  /** The next step of thread `th`; nothing happens if it spins or sleeps. */
  ghost function Step(s: State, th: nat): State
    requires th < |s.pcs| && s.line.Valid()
  {
    match s.pcs[th]
    case Outside =>
      if s.lock.Some? then s else Goto(s, th, Entered).(lock := Some(th))
    case Entered =>
      if s.count == 0 then s
      else
        Goto(s, th, if s.count == 1 then Last(s.epoch) else Check(s.epoch))
        .(count := s.count - 1, log := s.log + [Arrived(th, s.epoch)])
    case Last(t) =>
      Goto(s, th, Bumped(t)).(epoch := s.epoch + 1, count := s.initial)
    case Bumped(t) =>
      Goto(s, th, Notifying(t)).(signals := s.signals + 1)
    case Notifying(t) =>
      var (line, next) := s.line.Leave();
      if next.None? || next.value >= |s.pcs| || !s.pcs[next.value].Asleep? then Goto(s, th, Leaving(t)).(line := line)
      else Goto(Goto(s, th, Handing(t, next.value)), next.value, InHand(s.pcs[next.value].t, th)).(line := line)
    case Handing(t, next) =>
      if next < |s.pcs| && s.pcs[next].InHand? then Goto(Goto(s, th, Notifying(t)), next, Ready(s.pcs[next].t)) else s
    case Check(t) =>
      if s.epoch <= t then Goto(s, th, Gap(t, s.signals)).(lock := None) else Goto(s, th, Leaving(t))
    case Gap(t, seen) =>
      if s.lock.Some? then s else Goto(s, th, Action(t, seen)).(lock := Some(th))
    case Action(t, seen) =>
      if s.signals == seen then Goto(s, th, Asleep(t, |s.line.joined|)).(line := s.line.Join(th), lock := None)
      else Goto(s, th, Passing(t)).(lock := None)
    case Passing(t) => Goto(s, th, Ready(t))
    case Ready(t) =>
      if s.lock.Some? then s else Goto(s, th, Check(t)).(lock := Some(th))
    case Leaving(t) =>
      Goto(s, th, Outside).(lock := None, log := s.log + [Left(th, t)])
    case _ => s
  }

  // ---------------------------------------------------------------------
  // The invariant
  // ---------------------------------------------------------------------

  ghost function Arrivals(log: seq<Event>, gen: nat): nat {
    if log == [] then 0
    else Arrivals(log[..|log| - 1], gen) + if log[|log| - 1].Arrived? && log[|log| - 1].gen == gen then 1 else 0
  }

  /** What the holder of the lock is doing. */
  ghost function Holder(s: State): Pc {
    if s.lock.Some? && s.lock.value < |s.pcs| then s.pcs[s.lock.value] else Outside
  }

  /** The last arrival is still on its way to waking everyone. */
  ghost predicate Clearing(s: State) {
    Holder(s).Bumped? || Holder(s).Notifying? || Holder(s).Handing?
  }

  ghost predicate ThreadOk(s: State, th: nat)
    requires th < |s.pcs|
  {
    match s.pcs[th]
    case Outside => s.lock != Some(th)
    case Entered => s.lock == Some(th)
    case Last(t) => s.lock == Some(th) && t == s.epoch
    case Bumped(t) => s.lock == Some(th) && t + 1 == s.epoch
    case Notifying(t) => s.lock == Some(th) && t + 1 == s.epoch
    case Handing(t, n) =>
      s.lock == Some(th) && t + 1 == s.epoch && n < |s.pcs| && s.pcs[n].InHand? && s.pcs[n].giver == th
    case Check(t) => s.lock == Some(th) && t <= s.epoch
    case Gap(t, seen) => s.lock != Some(th) && t <= s.epoch && seen == t
    case Action(t, seen) => s.lock == Some(th) && t <= s.epoch && seen == t
    case Passing(t) => s.lock != Some(th) && t < s.epoch
    case Asleep(t, k) =>
      && s.lock != Some(th) && s.line.head <= k < |s.line.joined| && s.line.joined[k] == th
      && t <= s.epoch && (t < s.epoch <==> Clearing(s))
    case InHand(t, g) => s.lock != Some(th) && t < s.epoch && g < |s.pcs| && s.pcs[g].Handing? && s.pcs[g].next == th
    case Ready(t) => s.lock != Some(th) && t < s.epoch
    case Leaving(t) => s.lock == Some(th) && t < s.epoch
  }

  ghost predicate PlaceOk(s: State, k: nat)
    requires k < |s.line.joined|
  {
    var th := s.line.joined[k];
    th < |s.pcs| && s.pcs[th].Asleep? && s.pcs[th].place == k
  }

  /** `initial` arrivals make up each past generation, and the rest are in the present one. */
  ghost predicate GenOk(s: State, g: nat) {
    Arrivals(s.log, g) ==
      if g < s.epoch then s.initial else if g == s.epoch && s.count <= s.initial then s.initial - s.count else 0
  }

  /** If entry `k` is a departure, its whole generation had arrived. */
  ghost predicate LeftOk(initial: nat, log: seq<Event>, k: nat)
    requires k < |log|
  {
    log[k].Left? ==> Arrivals(log[..k], log[k].gen) == initial
  }

  /** Whether a thread has arrived in generation `e` and not been released from it. */
  ghost function Waits(pc: Pc, e: nat): nat {
    match pc
    case Last(t) => if t == e then 1 else 0
    case Check(t) => if t == e then 1 else 0
    case Gap(t, _) => if t == e then 1 else 0
    case Action(t, _) => if t == e then 1 else 0
    case Asleep(t, _) => if t == e then 1 else 0
    case _ => 0
  }

  ghost function WaitsEach(pcs: seq<Pc>, e: nat): seq<nat> {
    seq(|pcs|, i requires 0 <= i < |pcs| => Waits(pcs[i], e))
  }

  ghost predicate WaitersOk(s: State) {
    Sum(WaitsEach(s.pcs, s.epoch)) + s.count == s.initial
  }

  ghost predicate Inv(s: State) {
    && s.line.Valid() && WaitersOk(s)
    && (s.lock.Some? ==> s.lock.value < |s.pcs|)
    && 1 <= s.initial && s.count <= s.initial && (s.count == 0 <==> Holder(s).Last?)
    && s.epoch == (if Holder(s).Bumped? then s.signals + 1 else s.signals)
    && (forall th: nat {:trigger ThreadOk(s, th)} | th < |s.pcs| :: ThreadOk(s, th))
    && (forall k: nat {:trigger PlaceOk(s, k)} | s.line.head <= k < |s.line.joined| :: PlaceOk(s, k))
    && (forall g: nat {:trigger GenOk(s, g)} :: GenOk(s, g))
    && (forall k: nat {:trigger LeftOk(s.initial, s.log, k)} | k < |s.log| :: LeftOk(s.initial, s.log, k))
  }

  lemma InitInv(initial: nat, threads: nat)
    requires initial >= 1
    ensures Inv(Init(initial, threads))
  {
    var s := Init(initial, threads);
    forall th: nat | th < |s.pcs| ensures ThreadOk(s, th) {}
    forall g: nat ensures GenOk(s, g) {}
    SumZero(WaitsEach(s.pcs, 0));
  }

  /** The thread that moves ends up where it may be. */
  lemma MoverOk(s: State, th: nat, s': State)
    requires Inv(s) && th < |s.pcs| && s' == Step(s, th)
    ensures ThreadOk(s', th)
  {
    assert ThreadOk(s, th);
    if s.pcs[th].Notifying? && s.line.head < |s.line.joined| { assert PlaceOk(s, s.line.head); }
  }

  /** A sleeper stays where it is, until the holder takes it in hand. */
  lemma SleeperOk(s: State, th: nat, s': State, u: nat)
    requires Inv(s) && th < |s.pcs| && s' == Step(s, th) && u < |s.pcs| && u != th && s.pcs[u].Asleep?
    ensures ThreadOk(s', u)
  {
    assert ThreadOk(s, th) && ThreadOk(s, u);
    if s.pcs[th].Notifying? && s.line.head < |s.line.joined| { assert PlaceOk(s, s.line.head); }
  }

  /** Any other thread stays fine; at most the one in hand moves with the holder. */
  lemma OtherOk(s: State, th: nat, s': State, u: nat)
    requires Inv(s) && th < |s.pcs| && s' == Step(s, th) && u < |s.pcs| && u != th && !s.pcs[u].Asleep?
    ensures ThreadOk(s', u)
  {
    assert ThreadOk(s, th) && ThreadOk(s, u);
    if s.pcs[th].Notifying? && s.line.head < |s.line.joined| { assert PlaceOk(s, s.line.head); }
  }

  lemma PlaceStays(s: State, th: nat, s': State, k: nat)
    requires Inv(s) && th < |s.pcs| && s' == Step(s, th) && s'.line.head <= k < |s'.line.joined|
    ensures PlaceOk(s', k)
  {
    assert ThreadOk(s, th);
    if k < |s.line.joined| { assert PlaceOk(s, k); }
    if s.pcs[th].Notifying? && s.line.head < |s.line.joined| { assert PlaceOk(s, s.line.head); }
  }

  lemma GenStays(s: State, th: nat, s': State, g: nat)
    requires Inv(s) && th < |s.pcs| && s' == Step(s, th)
    ensures GenOk(s', g)
  {
    assert ThreadOk(s, th) && GenOk(s, g);
    if |s'.log| > |s.log| { assert s'.log[..|s'.log| - 1] == s.log; }
  }

  lemma LeftStays(s: State, th: nat, s': State, k: nat)
    requires Inv(s) && th < |s.pcs| && s' == Step(s, th) && k < |s'.log|
    ensures LeftOk(s'.initial, s'.log, k)
  {
    assert ThreadOk(s, th);
    assert s'.log[..k] == s.log[..k];
    if k < |s.log| {
      assert LeftOk(s.initial, s.log, k);
    } else {
      assert s.log[..k] == s.log;
      if s'.log[k].Left? { assert GenOk(s, s'.log[k].gen); }
    }
  }

  /** Moving thread `u` changes the sum by what it counts. */
  lemma WaitsUpdate(pcs: seq<Pc>, u: nat, pc: Pc, e: nat)
    requires u < |pcs|
    ensures Sum(WaitsEach(pcs[u := pc], e)) == Sum(WaitsEach(pcs, e)) - Waits(pcs[u], e) + Waits(pc, e)
  {
    assert WaitsEach(pcs[u := pc], e) == WaitsEach(pcs, e)[u := Waits(pc, e)];
    SumUpdate(WaitsEach(pcs, e), u, Waits(pc, e));
  }

  /** The last arrival opens the next generation, in which nobody waits yet. */
  lemma LastWaiters(s: State, th: nat, s': State)
    requires Inv(s) && th < |s.pcs| && s.pcs[th].Last? && s' == Step(s, th)
    ensures WaitersOk(s')
  {
    assert ThreadOk(s, th);
    forall u: nat | u < |s'.pcs| ensures Waits(s'.pcs[u], s'.epoch) == 0 { if u != th { assert ThreadOk(s, u); } }
    SumZero(WaitsEach(s'.pcs, s'.epoch));
  }

  /** Those it wakes are of the generation before. */
  lemma WakingWaiters(s: State, th: nat, s': State)
    requires Inv(s) && th < |s.pcs| && (s.pcs[th].Notifying? || s.pcs[th].Handing?) && s' == Step(s, th)
    ensures WaitersOk(s')
  {
    assert ThreadOk(s, th);
    WaitsUpdate(s.pcs, th, s'.pcs[th], s.epoch);
    if s.pcs[th].Handing? || s.line.head < |s.line.joined| {
      if s.pcs[th].Notifying? { assert PlaceOk(s, s.line.head); }
      var n := if s.pcs[th].Handing? then s.pcs[th].next else s.line.joined[s.line.head];
      assert ThreadOk(s, n);
      WaitsUpdate(s.pcs[th := s'.pcs[th]], n, s'.pcs[n], s.epoch);
    }
  }

  lemma WaitersStay(s: State, th: nat, s': State)
    requires Inv(s) && th < |s.pcs| && s' == Step(s, th)
    ensures WaitersOk(s')
  {
    if s.pcs[th].Last? {
      LastWaiters(s, th, s');
    } else if s.pcs[th].Notifying? || s.pcs[th].Handing? {
      WakingWaiters(s, th, s');
    } else {
      assert ThreadOk(s, th);
      WaitsUpdate(s.pcs, th, s'.pcs[th], s.epoch);
    }
  }

  lemma SharedStays(s: State, th: nat, s': State)
    requires Inv(s) && th < |s.pcs| && s' == Step(s, th)
    ensures s'.line.Valid() && (s'.lock.Some? ==> s'.lock.value < |s'.pcs|)
    ensures s'.count <= s'.initial && (s'.count == 0 <==> Holder(s').Last?)
    ensures s'.epoch == if Holder(s').Bumped? then s'.signals + 1 else s'.signals
  {
    assert ThreadOk(s, th);
    if s.pcs[th].Notifying? && s.line.head < |s.line.joined| {
      assert PlaceOk(s, s.line.head) && ThreadOk(s, s.line.joined[s.line.head]);
    }
    if s.pcs[th].Handing? { assert ThreadOk(s, s.pcs[th].next); }
  }

  lemma StepKeepsInv(s: State, th: nat, s': State)
    requires Inv(s) && th < |s.pcs| && s' == Step(s, th)
    ensures Inv(s') && s'.initial == s.initial && |s'.pcs| == |s.pcs| && s.log <= s'.log
  {
    SharedStays(s, th, s');
    forall u: nat | u < |s'.pcs| ensures ThreadOk(s', u) {
      if u == th {
        MoverOk(s, th, s');
      } else if s.pcs[u].Asleep? {
        SleeperOk(s, th, s', u);
      } else {
        OtherOk(s, th, s', u);
      }
    }
    WaitersStay(s, th, s');
    forall k: nat | s'.line.head <= k < |s'.line.joined| ensures PlaceOk(s', k) { PlaceStays(s, th, s', k); }
    forall g: nat ensures GenOk(s', g) { GenStays(s, th, s', g); }
    forall k: nat | k < |s'.log| ensures LeftOk(s'.initial, s'.log, k) { LeftStays(s, th, s', k); }
  }

  // ---------------------------------------------------------------------
  // Every run
  // ---------------------------------------------------------------------

  /** Take the steps of the named threads, in that order. */
  ghost function Run(s: State, turns: seq<nat>): (r: State)
    requires Inv(s)
    ensures Inv(r) && r.initial == s.initial && |r.pcs| == |s.pcs|
    decreases |turns|
  {
    if turns == [] then s
    else if turns[0] < |s.pcs| then
      StepKeepsInv(s, turns[0], Step(s, turns[0]));
      Run(Step(s, turns[0]), turns[1..])
    else Run(s, turns[1..])
  }

  /** No thread leaves a generation before `initial` arrivals in it. */
  lemma NobodyLeavesEarly(initial: nat, threads: nat, turns: seq<nat>, k: nat)
    requires initial >= 1
    ensures Inv(Init(initial, threads))
    ensures
      var log := Run(Init(initial, threads), turns).log;
      k < |log| && log[k].Left? ==> Arrivals(log[..k], log[k].gen) == initial
  {
    InitInv(initial, threads);
    var s := Run(Init(initial, threads), turns);
    if k < |s.log| { assert LeftOk(s.initial, s.log, k); }
  }

  /** Whenever the lock is free, the count is a count of arrivals still
      missing, a thread still asleep is of the present generation, which is
      incomplete, and one that is not asleep can go on: no wakeup was lost in
      the gap between unlock and sleep. */
  lemma NoLostWakeup(initial: nat, threads: nat, turns: seq<nat>, th: nat)
    requires initial >= 1
    ensures Inv(Init(initial, threads))
    ensures
      var s := Run(Init(initial, threads), turns);
      s.lock.None? ==>
        && 1 <= s.count <= initial
        && Arrivals(s.log, s.epoch) == initial - s.count
        && (th < threads && s.pcs[th].Asleep? ==> s.pcs[th].t == s.epoch)
        && (th < threads && !s.pcs[th].Asleep? ==> Moves(s, th))
  {
    InitInv(initial, threads);
    var s := Run(Init(initial, threads), turns);
    assert GenOk(s, s.epoch);
    if th < threads { CanMove(s, th); }
  }

  /** It is not in vain that it is the turn of `th`. */
  ghost predicate Moves(s: State, th: nat) {
    th < |s.pcs| && s.line.Valid() && Step(s, th).pcs[th] != s.pcs[th]
  }

  /** The holder of the lock is never stuck, and with the lock free nobody is
      but those asleep. */
  lemma CanMove(s: State, th: nat)
    requires Inv(s) && th < |s.pcs|
    ensures s.lock == Some(th) ==> Moves(s, th)
    ensures s.lock.None? ==> Moves(s, th) || (s.pcs[th].Asleep? && s.pcs[th].t == s.epoch)
  {
    AwakeWhenFree(s, th);
    assert ThreadOk(s, th);
  }

  /** Nobody of a completed generation is asleep or in hand but while another
      thread has the lock. */
  lemma AwakeWhenFree(s: State, th: nat)
    requires Inv(s) && th < |s.pcs|
    ensures s.lock == None || s.lock == Some(th) ==>
              (s.pcs[th].Asleep? ==> s.pcs[th].t >= s.epoch) && !s.pcs[th].InHand?
  {
    assert ThreadOk(s, th);
    forall g: nat | g < |s.pcs| ensures s.pcs[g].Handing? ==> s.lock == Some(g) { assert ThreadOk(s, g); }
  }

  ghost function InsideEach(pcs: seq<Pc>): seq<nat> {
    seq(|pcs|, i requires 0 <= i < |pcs| => if pcs[i].Outside? then 0 else 1)
  }

  /** Nobody is left behind: with `initial` or more threads inside, one of them
      can go on. */
  lemma NobodyLeftBehind(initial: nat, threads: nat, turns: seq<nat>)
    requires initial >= 1
    ensures Inv(Init(initial, threads))
    ensures
      var s := Run(Init(initial, threads), turns);
      Sum(InsideEach(s.pcs)) >= initial ==> exists th: nat :: th < threads && !s.pcs[th].Outside? && Moves(s, th)
  {
    InitInv(initial, threads);
    var s := Run(Init(initial, threads), turns);
    if s.lock.Some? {
      var h := s.lock.value;
      CanMove(s, h);
      assert ThreadOk(s, h);
      assert h < threads && !s.pcs[h].Outside? && Moves(s, h);
    } else if th: nat :| th < threads && !s.pcs[th].Outside? && !s.pcs[th].Asleep? {
      CanMove(s, th);
      assert th < threads && !s.pcs[th].Outside? && Moves(s, th);
    } else {
      forall i: nat | i < |s.pcs| ensures InsideEach(s.pcs)[i] == WaitsEach(s.pcs, s.epoch)[i] {
        assert ThreadOk(s, i);
      }
      assert InsideEach(s.pcs) == WaitsEach(s.pcs, s.epoch);
      assert Sum(InsideEach(s.pcs)) < initial;
    }
  }

  /** The threads in the queue are exactly those asleep, each once. */
  lemma SleepersAreQueued(s: State, th: nat)
    requires Inv(s) && th < |s.pcs|
    ensures s.pcs[th].Asleep? <==> th in s.line.Items()
    ensures forall i: nat, j: nat | i < j < |s.line.Items()| :: s.line.Items()[i] != s.line.Items()[j]
  {
    assert ThreadOk(s, th);
    forall i: nat | i < |s.line.Items()|
      ensures s.line.Items()[i] == s.line.joined[s.line.head + i] && PlaceOk(s, s.line.head + i) {}
    if s.pcs[th].Asleep? { assert s.line.Items()[s.pcs[th].place - s.line.head] == th; }
  }

  // ---------------------------------------------------------------------
  // The critical sections of the classes are made of these steps
  // ---------------------------------------------------------------------

  ghost function GateOf(s: State): Gate {
    Gate(s.initial, s.count, s.epoch)
  }

  ghost function CondOf(s: State): Cond<nat> {
    Cond(s.signals, s.line)
  }

  ghost predicate StepAt(ss: seq<State>, th: nat, i: nat)
    requires i + 1 < |ss|
  {
    th < |ss[i].pcs| && ss[i].line.Valid() && ss[i + 1] == Step(ss[i], th)
  }

  /** From the first of these states to the last by steps of `th`, the holder
      of the lock, and of no other thread. */
  ghost predicate Solo(ss: seq<State>, th: nat) {
    ss != [] && forall i: nat {:trigger StepAt(ss, th, i)} | i + 1 < |ss| :: StepAt(ss, th, i)
  }

  lemma SoloStart(s: State, th: nat, rest: seq<State>) returns (ss: seq<State>)
    requires th < |s.pcs| && s.line.Valid() && Solo(rest, th) && rest[0] == Step(s, th)
    ensures Solo(ss, th) && ss[0] == s && ss[|ss| - 1] == rest[|rest| - 1]
  {
    ss := [s] + rest;
    forall i: nat | i + 1 < |ss| ensures StepAt(ss, th, i) {
      if i > 0 { assert StepAt(rest, th, i - 1) && ss[i] == rest[i - 1] && ss[i + 1] == rest[i]; }
    }
  }

  /** The action after a waiter's switch. */
  lemma ParkIsStep(s: State, th: nat)
    requires Inv(s) && th < |s.pcs| && s.pcs[th].Action?
    ensures
      var s', (c, parked) := Step(s, th), CondOf(s).Park(th, s.pcs[th].seen);
      && CondOf(s') == c && GateOf(s') == GateOf(s) && s'.lock == None
      && (if parked then s'.pcs[th].Asleep? else s'.pcs[th].Passing?)
  {
    assert ThreadOk(s, th);
  }

  ghost predicate Woken(pc: Pc, pc': Pc) {
    pc.Asleep? && pc' == Ready(pc.t)
  }

  /** Thread `th` has woken the threads `woken`, and no other thread moved. */
  ghost predicate OnlyWoken(s: State, th: nat, s': State, woken: seq<nat>)
    requires |s.pcs| == |s'.pcs|
  {
    forall u: nat | u < |s.pcs| && u != th :: if u in woken then Woken(s.pcs[u], s'.pcs[u]) else s'.pcs[u] == s.pcs[u]
  }

  /** The first in the line is taken in hand and scheduled. */
  lemma WakeFirst(s: State, th: nat, t: nat, s1: State, s2: State)
    requires Inv(s) && th < |s.pcs| && s.pcs[th] == Notifying(t) && s.line.head < |s.line.joined|
    requires s1 == Step(s, th) && Inv(s1) && |s1.pcs| == |s.pcs| && s2 == Step(s1, th)
    ensures CondOf(s2) == Cond(s.signals, s.line.Leave().0) && OutsideCond(s, s2) && |s2.pcs| == |s.pcs|
    ensures s2.pcs[th] == Notifying(t) && OnlyWoken(s, th, s2, [s.line.joined[s.line.head]])
  {
    assert ThreadOk(s, th) && PlaceOk(s, s.line.head);
  }

  /** All but the condition and the threads is the same. */
  ghost predicate OutsideCond(s: State, s': State) {
    GateOf(s') == GateOf(s) && s'.log == s.log && s'.lock == s.lock
  }

  /** The loop of `notifyAll`: the holder's steps wake all that `Wake` says. */
  lemma {:induction false} WakeIsSteps(s: State, th: nat, t: nat, limit: nat) returns (ss: seq<State>)
    requires Inv(s) && th < |s.pcs| && s.pcs[th] == Notifying(t) && |s.line.Items()| <= limit
    ensures Solo(ss, th) && ss[0] == s
    ensures
      var s', (c, woken) := ss[|ss| - 1], CondOf(s).Wake(limit);
      && CondOf(s') == c && OutsideCond(s, s') && |s'.pcs| == |s.pcs|
      && s'.pcs[th] == Leaving(t) && OnlyWoken(s, th, s', woken)
    decreases limit
  {
    assert ThreadOk(s, th);
    var s1 := Step(s, th);
    StepKeepsInv(s, th, s1);
    if s.line.head == |s.line.joined| {
      ss := SoloStart(s, th, [s1]);
    } else {
      var s2 := Step(s1, th);
      StepKeepsInv(s1, th, s2);
      WakeFirst(s, th, t, s1, s2);
      var rest := WakeIsSteps(s2, th, t, limit - 1);
      WokenThen(s, th, t, limit, s2, rest[|rest| - 1]);
      ss := SoloStart(s1, th, rest);
      ss := SoloStart(s, th, ss);
    }
  }

  /** Waking the first and then the rest. */
  lemma WokenThen(s: State, th: nat, t: nat, limit: nat, s2: State, s': State)
    requires s.line.Valid() && s2.line.Valid() && s.line.head < |s.line.joined| && 0 < limit
    requires |s.pcs| == |s2.pcs| == |s'.pcs|
    requires CondOf(s2) == Cond(s.signals, s.line.Leave().0) && OnlyWoken(s, th, s2, [s.line.joined[s.line.head]])
    requires OnlyWoken(s2, th, s', CondOf(s2).Wake(limit - 1).1)
    ensures CondOf(s).Wake(limit) ==
            (CondOf(s2).Wake(limit - 1).0, [s.line.joined[s.line.head]] + CondOf(s2).Wake(limit - 1).1)
    ensures OnlyWoken(s, th, s', CondOf(s).Wake(limit).1)
  {
  }

  /** An arrival is what `ReusableBarrier.Arrive` says: one step if it is not
      the last of its generation, and otherwise the steps up to the end of
      `notifyAll`, with no other thread in between. */
  lemma ArriveIsSteps(s: State, th: nat) returns (ss: seq<State>)
    requires Inv(s) && th < |s.pcs| && s.pcs[th].Entered? && |s.line.Items()| <= EVERYONE
    ensures Solo(ss, th) && ss[0] == s && s.count > 0
    ensures
      var s', (gate, last) := ss[|ss| - 1], GateOf(s).Arrive();
      var (c, woken) := if last then CondOf(s).Signal().Wake(EVERYONE) else (CondOf(s), []);
      && |s'.pcs| == |s.pcs| && OnlyWoken(s, th, s', woken)
      && s'.pcs[th] == (if last then Leaving(s.epoch) else Check(s.epoch))
      && GateOf(s') == gate && CondOf(s') == c && s'.log == s.log + [Arrived(th, s.epoch)] && s'.lock == s.lock
  {
    assert ThreadOk(s, th);
    var s1 := Step(s, th);
    StepKeepsInv(s, th, s1);
    if s.count > 1 {
      ss := SoloStart(s, th, [s1]);
    } else {
      var s2 := Step(s1, th);
      StepKeepsInv(s1, th, s2);
      var s3 := Step(s2, th);
      StepKeepsInv(s2, th, s3);
      LastArrival(s, th, s1, s2, s3);
      ss := WakeIsSteps(s3, th, s.epoch, EVERYONE);
      ss := SoloStart(s2, th, ss);
      ss := SoloStart(s1, th, ss);
      ss := SoloStart(s, th, ss);
    }
  }

  /** The last arrival opens the next generation and signals. */
  lemma LastArrival(s: State, th: nat, s1: State, s2: State, s3: State)
    requires Inv(s) && th < |s.pcs| && s.pcs[th].Entered? && s.count == 1
    requires s1 == Step(s, th) && Inv(s1) && |s1.pcs| == |s.pcs| && s2 == Step(s1, th)
    requires Inv(s2) && |s2.pcs| == |s.pcs| && s3 == Step(s2, th)
    ensures s3.pcs == s.pcs[th := Notifying(s.epoch)]
    ensures GateOf(s3) == GateOf(s).Arrive().0 && CondOf(s3) == CondOf(s).Signal()
    ensures s3.log == s.log + [Arrived(th, s.epoch)] && s3.lock == s.lock
  {
    assert s1.pcs[th] == Last(s.epoch) && s2.pcs[th] == Bumped(s.epoch);
  }

  // ---------------------------------------------------------------------
  // Everyone can leave
  // ---------------------------------------------------------------------

  /** How far the holder of the lock is from giving it up. */
  ghost function Distance(s: State, h: nat): nat
    requires h < |s.pcs| && s.line.Valid()
  {
    var n := 2 * |s.line.Items()|;
    match s.pcs[h]
    case Entered => n + 8
    case Last(_) => n + 7
    case Bumped(_) => n + 6
    case Handing(_, _) => n + 6
    case Notifying(_) => n + 5
    case Check(_) => 4
    case _ => 3
  }

  /** Apart from `h`, threads are where they were, or were woken. */
  ghost predicate OthersKept(s: State, h: nat, s': State) {
    && |s'.pcs| == |s.pcs|
    && forall u: nat {:trigger s'.pcs[u]} | u < |s.pcs| && u != h ::
         s'.pcs[u] == s.pcs[u] || ((s.pcs[u].Asleep? || s.pcs[u].InHand?) && s'.pcs[u] == Ready(s.pcs[u].t))
         || (s.pcs[u].Asleep? && s'.pcs[u].InHand? && s'.pcs[u].t == s.pcs[u].t)
  }

  /** From `s` to `s'`, thread `h` left generation `t`. */
  ghost predicate Gone(s: State, h: nat, t: nat, s': State) {
    h < |s'.pcs| && s'.pcs[h] == Outside && s'.log == s.log + [Left(h, t)]
  }

  /** The holder of the lock gave it up: it left its generation if that was
      complete, or is to be scheduled if it missed the signal. */
  ghost predicate Released(s: State, h: nat, s': State)
    requires h < |s.pcs|
  {
    && s'.lock == None && s.epoch <= s'.epoch && s.log <= s'.log && OthersKept(s, h, s')
    && match s.pcs[h]
       case Entered => true
       case Action(t, _) => t < s.epoch ==> s'.pcs[h] == Passing(t) && s'.log == s.log
       case Check(t) => t < s.epoch ==> Gone(s, h, t, s')
       case Last(t) => Gone(s, h, t, s')
       case Bumped(t) => Gone(s, h, t, s')
       case Notifying(t) => Gone(s, h, t, s')
       case Handing(t, _) => Gone(s, h, t, s')
       case Leaving(t) => Gone(s, h, t, s')
       case _ => true
  }

  /** One step of the holder. */
  lemma HolderStep(s: State, h: nat, s1: State)
    requires Inv(s) && s.lock == Some(h) && s1 == Step(s, h)
    ensures h < |s.pcs| && OthersKept(s, h, s1) && s.epoch <= s1.epoch && s.log <= s1.log
    ensures s1.lock == s.lock || s1.lock == None
    ensures s1.lock == None ==> Released(s, h, s1)
    ensures s1.lock == s.lock && s1.line.Valid() ==> Distance(s1, h) < Distance(s, h)
  {
    assert ThreadOk(s, h);
    if s.pcs[h].Notifying? && s.line.head < |s.line.joined| { assert PlaceOk(s, s.line.head); }
  }

  lemma ThenReleased(s: State, h: nat, s1: State, s': State)
    requires Inv(s) && s.lock == Some(h) && s1 == Step(s, h) && h < |s1.pcs| && s1.lock == s.lock
    requires OthersKept(s, h, s1) && s.epoch <= s1.epoch && s.log <= s1.log && Released(s1, h, s')
    ensures h < |s.pcs| && Released(s, h, s')
  {
    assert ThreadOk(s, h);
    forall u: nat | u < |s.pcs| && u != h
      ensures s'.pcs[u] == s.pcs[u] || ((s.pcs[u].Asleep? || s.pcs[u].InHand?) && s'.pcs[u] == Ready(s.pcs[u].t))
              || (s.pcs[u].Asleep? && s'.pcs[u].InHand? && s'.pcs[u].t == s.pcs[u].t)
    {
      assert s1.pcs[u] == s1.pcs[u] && s'.pcs[u] == s'.pcs[u];
    }
  }

  ghost predicate OnlyOf(turns: seq<nat>, th: nat) {
    forall i: nat | i < |turns| :: turns[i] == th
  }

  lemma RunFirst(s: State, th: nat, rest: seq<nat>, turns: seq<nat>)
    requires Inv(s) && th < |s.pcs| && turns == [th] + rest
    ensures Inv(Step(s, th)) && Run(s, turns) == Run(Step(s, th), rest)
  {
    StepKeepsInv(s, th, Step(s, th));
    assert turns[1..] == rest;
  }

  /** The holder gives up the lock by steps of its own. */
  lemma {:induction false} HolderReleases(s: State, h: nat) returns (turns: seq<nat>)
    requires Inv(s) && s.lock == Some(h)
    ensures OnlyOf(turns, h) && h < |s.pcs| && Released(s, h, Run(s, turns))
    decreases Distance(s, h)
  {
    var s1 := Step(s, h);
    StepKeepsInv(s, h, s1);
    HolderStep(s, h, s1);
    if s1.lock == None {
      turns := [h];
      RunFirst(s, h, [], turns);
    } else {
      var rest := HolderReleases(s1, h);
      turns := [h] + rest;
      RunFirst(s, h, rest, turns);
      ThenReleased(s, h, s1, Run(s1, rest));
    }
  }

  /** A thread of the completed generation `t` that has not left it. */
  ghost predicate Inside(s: State, th: nat, t: nat) {
    th < |s.pcs| && !s.pcs[th].Outside? && !s.pcs[th].Entered? && s.pcs[th].t == t && t < s.epoch
  }

  /** If it is not asleep or in hand, and no other thread has the lock, it
      leaves by steps of its own. */
  lemma {:induction false} LeavesAlone(s: State, th: nat, t: nat) returns (turns: seq<nat>)
    requires Inv(s) && Inside(s, th, t) && !s.pcs[th].Asleep? && !s.pcs[th].InHand?
    requires s.lock == None || s.lock == Some(th)
    ensures OnlyOf(turns, th) && Gone(s, th, t, Run(s, turns))
    decreases if s.pcs[th].Gap? then 3 else if s.pcs[th].Action? then 2 else if s.pcs[th].Passing? then 1 else 0
  {
    assert ThreadOk(s, th);
    if s.lock == Some(th) {
      turns := HolderReleases(s, th);
      if s.pcs[th].Action? {
        var rest := LeavesAlone(Run(s, turns), th, t);
        RunJoin(s, turns, rest);
        turns := turns + rest;
      }
    } else {
      var s1 := Step(s, th);
      StepKeepsInv(s, th, s1);
      var rest;
      if s.pcs[th].Ready? {
        rest := HolderReleases(s1, th);
      } else {
        rest := LeavesAlone(s1, th, t);
      }
      turns := [th] + rest;
      RunFirst(s, th, rest, turns);
    }
  }

  lemma {:induction false} RunJoin(s: State, a: seq<nat>, b: seq<nat>)
    requires Inv(s)
    ensures Run(s, a + b) == Run(Run(s, a), b)
    decreases |a|
  {
    if a == [] {
      assert a + b == b;
    } else {
      assert (a + b)[1..] == a[1..] + b;
      if a[0] < |s.pcs| {
        StepKeepsInv(s, a[0], Step(s, a[0]));
        RunJoin(Step(s, a[0]), a[1..], b);
      } else {
        RunJoin(s, a[1..], b);
      }
    }
  }

  /** From every reachable state every thread of a completed generation can
      leave it: first the holder of the lock gives it up, waking those asleep,
      and then the thread goes its way. */
  lemma EveryoneCanLeave(initial: nat, threads: nat, turns: seq<nat>, th: nat, t: nat) returns (more: seq<nat>)
    requires initial >= 1
    ensures Inv(Init(initial, threads))
    ensures
      var s := Run(Init(initial, threads), turns);
      Inside(s, th, t) ==>
        var log := Run(s, more).log;
        s.log < log && log[|log| - 1] == Left(th, t)
  {
    InitInv(initial, threads);
    var s := Run(Init(initial, threads), turns);
    more := [];
    if Inside(s, th, t) { more := CanLeave(s, th, t); }
  }

  lemma CanLeave(s: State, th: nat, t: nat) returns (turns: seq<nat>)
    requires Inv(s) && Inside(s, th, t)
    ensures var log := Run(s, turns).log; s.log < log && log[|log| - 1] == Left(th, t)
  {
    if s.lock == None || s.lock == Some(th) {
      AwakeWhenFree(s, th);
      turns := LeavesAlone(s, th, t);
    } else {
      turns := HolderReleases(s, s.lock.value);
      var s1 := Run(s, turns);
      assert s1.pcs[th] == s1.pcs[th];
      AwakeWhenFree(s1, th);
      var rest := LeavesAlone(s1, th, t);
      RunJoin(s, turns, rest);
      turns := turns + rest;
    }
  }
}
