/** Every step keeps every thread in one place, and what follows for all runs. */
module SchedulerRuns {
  import opened Queues
  import opened Scheduler

  /** Core `c` in this phase, its active thread at hand. */
  ghost predicate At(s: State, c: nat, p: Phase) {
    Inv(s) && c < |s.active| && s.phase[c] == p
  }

  lemma PickCores(s: State, c: nat, act: Action, must: bool, s': State, e: nat)
    requires At(s, c, Running) && MayPick(s, s.active[c], act) && s' == PickNext(s, c, act, must) && e < |s.active|
    ensures CoreOk(s', e)
  {
    var l := s.lines[READY];
    if l.head < |l.joined| { assert LineOk(s, READY, l.head) && PlaceOk(s, l.joined[l.head]); }
    assert CoreOk(s, c) && CoreOk(s, e);
    assert s.idle[c] in s.held && HeldOk(s, s.idle[c]);
  }

  lemma PickKeepsInv(s: State, c: nat, act: Action, must: bool, s': State)
    requires At(s, c, Running) && MayPick(s, s.active[c], act) && s' == PickNext(s, c, act, must)
    ensures Inv(s')
  {
    assert CoreOk(s, c);
    var l := s.lines[READY];
    if l.head < |l.joined| { assert LineOk(s, READY, l.head) && PlaceOk(s, l.joined[l.head]); }
    forall e: nat | e < |s'.active| ensures CoreOk(s', e) { PickCores(s, c, act, must, s', e); }
    forall q: nat, k: nat | q < |s'.lines| && s'.lines[q].head <= k < |s'.lines[q].joined| ensures LineOk(s', q, k) {
      assert LineOk(s, q, k);
    }
    forall t: nat | t in s'.place ensures PlaceOk(s', t) { assert PlaceOk(s, t); }
    forall u: nat | u in s'.held ensures HeldOk(s', u) { assert HeldOk(s, u); }
  }

  lemma InstallKeepsInv(s: State, c: nat, n: nat, act: Action, s': State)
    requires At(s, c, Picked(n, act)) && s' == Install1(s, c, n, act)
    ensures Inv(s')
  {
    assert CoreOk(s, c);
    forall e: nat | e < |s'.active| ensures CoreOk(s', e) { assert CoreOk(s, e); }
    forall q: nat, k: nat | q < |s'.lines| && s'.lines[q].head <= k < |s'.lines[q].joined| ensures LineOk(s', q, k) {
      assert LineOk(s, q, k);
    }
    forall t: nat | t in s'.place ensures PlaceOk(s', t) { assert PlaceOk(s, t); }
    forall u: nat | u in s'.held ensures HeldOk(s', u) { assert HeldOk(s, u); }
  }

  lemma SaveKeepsInv(s: State, c: nat, me: nat, act: Action, s': State)
    requires At(s, c, Installed(me, act)) && s' == Step(s, c, Save)
    ensures Inv(s')
  {
    assert CoreOk(s, c);
    assert s.active[c] in s.held && HeldOk(s, s.active[c]);
    forall e: nat | e < |s'.active| ensures CoreOk(s', e) { assert CoreOk(s, e); }
    forall q: nat, k: nat | q < |s'.lines| && s'.lines[q].head <= k < |s'.lines[q].joined| ensures LineOk(s', q, k) {
      assert LineOk(s, q, k);
    }
    forall t: nat | t in s'.place ensures PlaceOk(s', t) { assert PlaceOk(s, t); }
    forall u: nat | u in s'.held ensures HeldOk(s', u) { assert HeldOk(s, u); }
  }

  lemma ActCores(s: State, c: nat, me: nat, act: Action, s': State, e: nat)
    requires At(s, c, Switched(me, act)) && s' == ActOn(s, c, me, act) && e < |s.active|
    ensures CoreOk(s', e)
  {
    assert CoreOk(s, c) && CoreOk(s, e);
  }

  lemma ActKeepsInv(s: State, c: nat, me: nat, act: Action, s': State)
    requires At(s, c, Switched(me, act)) && s' == ActOn(s, c, me, act)
    ensures Inv(s')
  {
    assert CoreOk(s, c);
    forall e: nat | e < |s'.active| ensures CoreOk(s', e) { ActCores(s, c, me, act, s', e); }
    forall q: nat, k: nat | q < |s'.lines| && s'.lines[q].head <= k < |s'.lines[q].joined| ensures LineOk(s', q, k) {
      if k < |s.lines[q].joined| { assert LineOk(s, q, k); }
    }
    ActThreads(s, c, me, act, s');
  }

  lemma ActThreads(s: State, c: nat, me: nat, act: Action, s': State)
    requires At(s, c, Switched(me, act)) && s' == ActOn(s, c, me, act)
    ensures forall t: nat {:trigger PlaceOk(s', t)} | t in s'.place :: PlaceOk(s', t)
    ensures forall u: nat {:trigger HeldOk(s', u)} | u in s'.held :: HeldOk(s', u)
  {
    assert CoreOk(s, c);
    forall t: nat | t in s'.place ensures PlaceOk(s', t) { assert PlaceOk(s, t); }
    forall u: nat | u in s'.held ensures HeldOk(s', u) { assert HeldOk(s, u); }
  }

  lemma TakeKeepsInv(s: State, c: nat, q: nat, s': State)
    requires At(s, c, Running) && 1 <= q < |s.lines| && s.active[c] in s.held && s.held[s.active[c]] == Nothing
    requires s' == Take(s, s.active[c], q)
    ensures Inv(s')
  {
    var l := s.lines[q];
    assert CoreOk(s, c);
    if l.head < |l.joined| { assert LineOk(s, q, l.head) && PlaceOk(s, l.joined[l.head]); }
    forall e: nat | e < |s'.active| ensures CoreOk(s', e) { assert CoreOk(s, e); }
    forall r: nat, k: nat | r < |s'.lines| && s'.lines[r].head <= k < |s'.lines[r].joined| ensures LineOk(s', r, k) {
      assert LineOk(s, r, k);
    }
    TakeThreads(s, c, q, s');
  }

  lemma TakeThreads(s: State, c: nat, q: nat, s': State)
    requires At(s, c, Running) && 1 <= q < |s.lines| && s.active[c] in s.held && s.held[s.active[c]] == Nothing
    requires s' == Take(s, s.active[c], q)
    ensures forall t: nat {:trigger PlaceOk(s', t)} | t in s'.place :: PlaceOk(s', t)
    ensures forall u: nat {:trigger HeldOk(s', u)} | u in s'.held :: HeldOk(s', u)
  {
    var l := s.lines[q];
    assert CoreOk(s, c);
    if l.head < |l.joined| { assert LineOk(s, q, l.head) && PlaceOk(s, l.joined[l.head]); }
    forall t: nat | t in s'.place ensures PlaceOk(s', t) { assert PlaceOk(s, t); }
    forall u: nat | u in s'.held ensures HeldOk(s', u) { assert HeldOk(s, u); }
  }

  lemma CreateKeepsInv(s: State, c: nat, t: nat, s': State)
    requires At(s, c, Running) && s.active[c] in s.held && s.held[s.active[c]] == Nothing && t !in s.held
    requires s' == Step(s, c, Create(t))
    ensures Inv(s')
  {
    assert CoreOk(s, c);
    forall e: nat | e < |s'.active| ensures CoreOk(s', e) { assert CoreOk(s, e); }
    forall r: nat, k: nat | r < |s'.lines| && s'.lines[r].head <= k < |s'.lines[r].joined| ensures LineOk(s', r, k) {
      assert LineOk(s, r, k);
    }
    forall u: nat | u in s'.place ensures PlaceOk(s', u) { if u != t { assert PlaceOk(s, u); } }
    forall u: nat | u in s'.held ensures HeldOk(s', u) { if u != t { assert HeldOk(s, u); } }
  }

  lemma ScheduleKeepsInv(s: State, c: nat, t: nat, s': State)
    requires At(s, c, Running) && s.active[c] in s.held && s.held[s.active[c]] == ToSchedule(t)
    requires s' == FinishHeld(s, s.active[c])
    ensures Inv(s')
  {
    assert CoreOk(s, c) && HeldOk(s, s.active[c]) && PlaceOk(s, t);
    forall e: nat | e < |s'.active| ensures CoreOk(s', e) { assert CoreOk(s, e); }
    forall r: nat, k: nat | r < |s'.lines| && s'.lines[r].head <= k < |s'.lines[r].joined| ensures LineOk(s', r, k) {
      if k < |s.lines[r].joined| { assert LineOk(s, r, k); }
    }
    forall u: nat | u in s'.place ensures PlaceOk(s', u) { assert PlaceOk(s, u); }
    forall u: nat | u in s'.held ensures HeldOk(s', u) { assert HeldOk(s, u); }
  }

  lemma DeleteKeepsInv(s: State, c: nat, t: nat, s': State)
    requires At(s, c, Running) && s.active[c] in s.held && s.held[s.active[c]] == ToDelete(t)
    requires s' == FinishHeld(s, s.active[c])
    ensures Inv(s')
  {
    assert CoreOk(s, c) && HeldOk(s, s.active[c]) && PlaceOk(s, t) && HeldOk(s, t);
    forall e: nat | e < |s'.active| ensures CoreOk(s', e) { assert CoreOk(s, e); }
    forall r: nat, k: nat | r < |s'.lines| && s'.lines[r].head <= k < |s'.lines[r].joined| ensures LineOk(s', r, k) {
      assert LineOk(s, r, k);
    }
    forall u: nat | u in s'.place ensures PlaceOk(s', u) { assert PlaceOk(s, u); }
    forall u: nat | u in s'.held ensures HeldOk(s', u) { assert HeldOk(s, u); }
  }

  lemma RunningKeepsInv(s: State, c: nat, m: Move, s': State)
    requires At(s, c, Running) && s' == Step(s, c, m)
    ensures Inv(s')
  {
    var me := s.active[c];
    if me in s.held {
      match m
      case Pick(act, must) => if MayPick(s, me, act) { PickKeepsInv(s, c, act, must, s'); }
      case Wake(q) => if s.held[me] == Nothing && 2 <= q < |s.lines| { TakeKeepsInv(s, c, q, s'); }
      case Reap => if s.held[me] == Nothing { TakeKeepsInv(s, c, ZOMBIES, s'); }
      case Create(t) => if s.held[me] == Nothing && t !in s.held { CreateKeepsInv(s, c, t, s'); }
      case Finish =>
        match s.held[me] {
          case Nothing =>
          case ToSchedule(t) => ScheduleKeepsInv(s, c, t, s');
          case ToDelete(t) => DeleteKeepsInv(s, c, t, s');
        }
      case _ =>
    }
  }

  lemma StepKeepsInv(s: State, c: nat, m: Move, s': State)
    requires Inv(s) && c < |s.active| && s' == Step(s, c, m)
    ensures Inv(s')
  {
    match s.phase[c]
    case Picked(n, act) => if m == Install { InstallKeepsInv(s, c, n, act, s'); }
    case Installed(me, act) => if m == Save { SaveKeepsInv(s, c, me, act, s'); }
    case Switched(me, act) => if m == Act { ActKeepsInv(s, c, me, act, s'); }
    case Running => RunningKeepsInv(s, c, m, s');
  }

  /** The cores and their idle threads are fixed. */
  lemma StepKeepsCores(s: State, c: nat, m: Move, s': State)
    requires Shaped(s) && c < |s.active| && s' == Step(s, c, m)
    ensures |s'.active| == |s.active| && s'.idle == s.idle && s'.idleOf == s.idleOf
  {
  }

  // ---------------------------------------------------------------------
  // Every run
  // ---------------------------------------------------------------------

  /** The same value for all numbers below `n`. */
  ghost function Below<T>(n: nat, f: nat -> T): (r: map<nat, T>)
    ensures forall i: nat :: i in r <==> i < n
    ensures forall i: nat | i < n :: r[i] == f(i)
  {
    if n == 0 then map[] else Below(n - 1, f)[n - 1 := f(n - 1)]
  }

  /** Start-up: every core runs its idle thread, thread `i` on core `i`, and all queues are empty. */
  ghost function Init(cores: nat, queues: nat): State {
    var idle := seq(cores, i => i);
    State(idle, Below(cores, i => i), idle, seq(cores, i => Running), seq(queues + 2, i => Line([], 0)),
          {}, Below(cores, i => Nothing), map[])
  }

  lemma InitInv(cores: nat, queues: nat)
    ensures Inv(Init(cores, queues))
    ensures forall t: nat {:trigger t in Init(cores, queues).idleOf} :: t in Init(cores, queues).idleOf <==> t < cores
  {
    var s := Init(cores, queues);
    forall c: nat | c < cores ensures CoreOk(s, c) {}
    forall u: nat | u in s.held ensures HeldOk(s, u) {}
  }

  datatype Turn = Turn(core: nat, move: Move)

  ghost function Run(s: State, turns: seq<Turn>): (r: State)
    requires Inv(s)
    ensures Inv(r) && |r.active| == |s.active| && r.idle == s.idle && r.idleOf == s.idleOf
    decreases |turns|
  {
    if turns == [] then s
    else if turns[0].core < |s.active| then
      StepKeepsInv(s, turns[0].core, turns[0].move, Step(s, turns[0].core, turns[0].move));
      StepKeepsCores(s, turns[0].core, turns[0].move, Step(s, turns[0].core, turns[0].move));
      Run(Step(s, turns[0].core, turns[0].move), turns[1..])
    else Run(s, turns[1..])
  }

  /** What the cores, queues and hands themselves say about where `t` is. */
  ghost predicate Found(s: State, t: nat, p: Place)
    requires |s.active| == |s.phase|
  {
    match p
    case OnCore(c) => c < |s.active| && s.active[c] == t
    case InLine(q, k) => q < |s.lines| && s.lines[q].head <= k < |s.lines[q].joined| && s.lines[q].joined[k] == t
    case Chosen(c) => c < |s.active| && s.phase[c].Picked? && s.phase[c].next == t
    case Vacating(c) =>
      c < |s.active| && ((s.phase[c].Installed? && s.phase[c].me == t) || (s.phase[c].Switched? && s.phase[c].me == t))
    case HeldBy(u) => u in s.held && (s.held[u] == ToSchedule(t) || s.held[u] == ToDelete(t))
  }

  /** In every reachable state a thread that is not idle is in exactly one place. */
  lemma ExactlyOnePlace(cores: nat, queues: nat, turns: seq<Turn>, t: nat, p: Place)
    ensures Inv(Init(cores, queues))
    ensures
      var s := Run(Init(cores, queues), turns);
      t in s.held && t >= cores ==> t in s.place && (Found(s, t, p) <==> p == s.place[t])
  {
    InitInv(cores, queues);
    var s := Run(Init(cores, queues), turns);
    if t in s.held && t >= cores { OnePlace(s, t, p); }
  }

  lemma OnePlace(s: State, t: nat, p: Place)
    requires Inv(s) && t in s.held && t !in s.idleOf
    ensures t in s.place && (Found(s, t, p) <==> p == s.place[t])
  {
    assert HeldOk(s, t) && PlaceOk(s, t);
    if Found(s, t, p) {
      match p
      case OnCore(c) => assert CoreOk(s, c);
      case InLine(q, k) => assert LineOk(s, q, k);
      case Chosen(c) => assert CoreOk(s, c);
      case Vacating(c) => assert CoreOk(s, c);
      case HeldBy(u) => assert HeldOk(s, u);
    }
  }

  lemma ActiveOnce(s: State, c: nat, e: nat)
    requires Inv(s) && c < |s.active| && e < |s.active| && s.active[c] == s.active[e]
    ensures c == e
  {
    assert CoreOk(s, c) && CoreOk(s, e);
  }

  lemma QueuedOk(s: State, q: nat, k: nat)
    requires Inv(s) && q < |s.lines| && s.lines[q].head <= k < |s.lines[q].joined|
    ensures
      var t := s.lines[q].joined[k];
      t !in s.idleOf && t in s.saved && t in s.held && forall c: nat | c < |s.active| :: s.active[c] != t
  {
    var t := s.lines[q].joined[k];
    assert LineOk(s, q, k) && PlaceOk(s, t) && HeldOk(s, t);
    forall c: nat | c < |s.active| ensures s.active[c] != t { assert CoreOk(s, c); }
  }

  /** In every reachable state: an idle thread is active only on its own core,
      and no thread is active on two cores. */
  lemma CoresApart(cores: nat, queues: nat, turns: seq<Turn>, c: nat, e: nat)
    ensures Inv(Init(cores, queues))
    ensures
      var s := Run(Init(cores, queues), turns);
      && (c < cores && s.active[c] < cores ==> s.active[c] == c)
      && (c < cores && e < cores && s.active[c] == s.active[e] ==> c == e)
  {
    InitInv(cores, queues);
    var s := Run(Init(cores, queues), turns);
    if c < cores && s.active[c] < cores {
      assert CoreOk(s, c) && s.active[c] in s.held && HeldOk(s, s.active[c]);
    }
    if c < cores && e < cores && s.active[c] == s.active[e] { ActiveOnce(s, c, e); }
  }

  /** In every reachable state: whoever is in a queue is not idle, runs on no
      core, and had its context saved before. */
  lemma QueuedOnlyWhenSaved(cores: nat, queues: nat, turns: seq<Turn>, q: nat, k: nat)
    ensures Inv(Init(cores, queues))
    ensures
      var s := Run(Init(cores, queues), turns);
      q < |s.lines| && s.lines[q].head <= k < |s.lines[q].joined| ==>
        var t := s.lines[q].joined[k];
        t >= cores && t in s.saved && forall c: nat | c < |s.active| :: s.active[c] != t
  {
    InitInv(cores, queues);
    var s := Run(Init(cores, queues), turns);
    if q < |s.lines| && s.lines[q].head <= k < |s.lines[q].joined| { QueuedOk(s, q, k); }
  }

  /** A thread about to be deleted is off every core, in no queue, in nobody
      else's hands and has nothing in its own, and its context was saved. */
  lemma DeletedIsSwitchedOut(cores: nat, queues: nat, turns: seq<Turn>, u: nat, t: nat, p: Place)
    ensures Inv(Init(cores, queues))
    ensures
      var s := Run(Init(cores, queues), turns);
      u in s.held && s.held[u] == ToDelete(t) ==>
        && t >= cores && t in s.saved && t in s.held && s.held[t] == Nothing
        && (Found(s, t, p) <==> p == HeldBy(u))
  {
    InitInv(cores, queues);
    var s := Run(Init(cores, queues), turns);
    if u in s.held && s.held[u] == ToDelete(t) {
      assert HeldOk(s, u) && PlaceOk(s, t) && HeldOk(s, t);
      OnePlace(s, t, p);
    }
  }
}
