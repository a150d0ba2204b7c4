/** Thread control blocks on several cores: the switch-then-act primitive, the
    ready queue, wait queues, zombies, and what is in the hands of a thread. */
module Scheduler {
  import opened Queues

  const READY := 0
  const ZOMBIES := 1

  /** What is done with the thread that gives up its core, after the switch:
      yield, stop, or sleep in a wait queue. */
  datatype Action = Reschedule | Retire | Sleep(queue: nat)

  /** How far a core is in giving itself to another thread: `next` chosen but
      not installed; installed, with the context of `me` not saved yet; saved. */
  datatype Phase =
    | Running
    | Picked(next: nat, act: Action)
    | Installed(me: nat, act: Action)
    | Switched(me: nat, act: Action)

  /** A thread taken from a queue, or made, by a thread that has not passed it on yet. */
  datatype Held = Nothing | ToSchedule(t: nat) | ToDelete(t: nat)

  datatype Place =
    | OnCore(core: nat)
    | InLine(queue: nat, index: nat)
    | Chosen(core: nat)
    | Vacating(core: nat)
    | HeldBy(t: nat)

  /** `lines` are the ready queue, the zombies, and then all wait queues;
      `idleOf` gives the core of each idle thread; `held` has all threads, and
      `place` the place of each that is not idle. */
  datatype State = State(
    idle: seq<nat>, idleOf: map<nat, nat>, active: seq<nat>, phase: seq<Phase>, lines: seq<Line<nat>>,
    saved: set<nat>, held: map<nat, Held>, place: map<nat, Place>)

  datatype Move =
    | Pick(act: Action, mustBlock: bool)
    | Install
    | Save
    | Act
    | Wake(queue: nat)
    | Create(t: nat)
    | Reap
    | Finish

  // ---------------------------------------------------------------------
  // Steps
  // ---------------------------------------------------------------------

  ghost predicate Shaped(s: State) {
    && |s.active| == |s.phase| == |s.idle| && |s.lines| >= 2
    && (forall q: nat | q < |s.lines| :: s.lines[q].Valid())
  }

  ghost function Target(act: Action): nat {
    match act case Reschedule => READY case Retire => ZOMBIES case Sleep(q) => q
  }

  ghost function JoinLine(s: State, q: nat, t: nat): State
    requires q < |s.lines|
  {
    s.(lines := s.lines[q := s.lines[q].Join(t)], place := s.place[t := InLine(q, |s.lines[q].joined|)])
  }

  /** A thread may block only if it has nothing in hand, except to let another run. */
  ghost predicate MayPick(s: State, me: nat, act: Action) {
    && me in s.held && (act == Reschedule || s.held[me] == Nothing)
    && (act.Sleep? ==> 2 <= act.queue < |s.lines| && me in s.place)
  }

  /** The next thread, or the core's idle thread if there is none and there must be one. */
  ghost function PickNext(s: State, c: nat, act: Action, mustBlock: bool): State
    requires Shaped(s) && c < |s.active|
  {
    var (line, next) := s.lines[READY].Leave();
    match next
    case Some(t) => s.(lines := s.lines[READY := line], phase := s.phase[c := Picked(t, act)],
      place := s.place[t := Chosen(c)])
    case None =>
      if !mustBlock || s.active[c] in s.idleOf then s
      else s.(phase := s.phase[c := Picked(s.idle[c], act)])
  }

  ghost function Install1(s: State, c: nat, next: nat, act: Action): State
    requires Shaped(s) && c < |s.active|
  {
    var me := s.active[c];
    var place := if me in s.place then s.place[me := Vacating(c)] else s.place;
    s.(active := s.active[c := next], phase := s.phase[c := Installed(me, act)],
       place := if next in place then place[next := OnCore(c)] else place)
  }

  ghost function ActOn(s: State, c: nat, me: nat, act: Action): State
    requires Shaped(s) && c < |s.active|
  {
    var r := s.(phase := s.phase[c := Running]);
    if me in s.place && Target(act) < |s.lines| then JoinLine(r, Target(act), me) else r
  }

  /** Take the first of a line into the hands of `me`. */
  ghost function Take(s: State, me: nat, q: nat): State
    requires Shaped(s) && q < |s.lines|
  {
    var (line, next) := s.lines[q].Leave();
    match next
    case None => s
    case Some(t) =>
      s.(lines := s.lines[q := line], place := s.place[t := HeldBy(me)],
         held := s.held[me := if q == ZOMBIES then ToDelete(t) else ToSchedule(t)])
  }

  ghost function FinishHeld(s: State, me: nat): State
    requires Shaped(s) && me in s.held
  {
    match s.held[me]
    case Nothing => s
    case ToSchedule(t) => JoinLine(s.(held := s.held[me := Nothing]), READY, t)
    case ToDelete(t) => s.(held := s.held[me := Nothing] - {t}, saved := s.saved - {t}, place := s.place - {t})
  }

  /** One step on core `c`; nothing happens where it is not that step's turn. */
  ghost function Step(s: State, c: nat, m: Move): State
    requires Shaped(s) && c < |s.active|
  {
    var me := s.active[c];
    match s.phase[c]
    case Picked(next, act) => if m == Install then Install1(s, c, next, act) else s
    case Installed(old_, act) =>
      if m == Save then s.(phase := s.phase[c := Switched(old_, act)], saved := s.saved - {me} + {old_}) else s
    case Switched(old_, act) => if m == Act then ActOn(s, c, old_, act) else s
    case Running =>
      match m
      case Pick(act, must) => if MayPick(s, me, act) then PickNext(s, c, act, must) else s
      case Wake(q) => if me in s.held && s.held[me] == Nothing && 2 <= q < |s.lines| then Take(s, me, q) else s
      case Reap => if me in s.held && s.held[me] == Nothing then Take(s, me, ZOMBIES) else s
      case Create(t) =>
        if me in s.held && s.held[me] == Nothing && t !in s.held then
          s.(held := s.held[t := Nothing][me := ToSchedule(t)], saved := s.saved + {t},
            place := s.place[t := HeldBy(me)])
        else s
      case Finish => if me in s.held then FinishHeld(s, me) else s
      case _ => s
  }

  // ---------------------------------------------------------------------
  // The invariant
  // ---------------------------------------------------------------------

  /** Thread `t` is core `c`'s idle thread, or at place `p`. */
  ghost predicate IdleOr(s: State, t: nat, c: nat, p: Place) {
    if t in s.place then s.place[t] == p else t in s.idleOf && s.idleOf[t] == c
  }

  ghost predicate CanRetire(s: State, me: nat, act: Action) {
    && me in s.held && (act == Reschedule || s.held[me] == Nothing) && Target(act) < |s.lines| &&
      (act.Sleep? ==> act.queue >= 2)
  }

  ghost predicate CoreOk(s: State, c: nat)
    requires c < |s.active| == |s.phase| == |s.idle|
  {
    var a := s.active[c];
    && IdleOr(s, a, c, OnCore(c))
    && s.idle[c] in s.idleOf && s.idleOf[s.idle[c]] == c
    && (s.idle[c] in s.saved || s.idle[c] == a || (s.phase[c].Installed? && s.phase[c].me == s.idle[c]))
    && match s.phase[c]
       case Running => a !in s.saved
       case Picked(n, act) =>
         a !in s.saved && n != a && n in s.saved && IdleOr(s, n, c, Chosen(c)) && CanRetire(s, a, act)
       case Installed(me, act) =>
         a in s.saved && me !in s.saved && me != a && IdleOr(s, me, c, Vacating(c)) && CanRetire(s, me, act)
       case Switched(me, act) =>
         a !in s.saved && me in s.saved && me != a && IdleOr(s, me, c, Vacating(c)) && CanRetire(s, me, act)
  }

  ghost predicate LineOk(s: State, q: nat, k: nat)
    requires q < |s.lines| && k < |s.lines[q].joined|
  {
    s.lines[q].joined[k] in s.place && s.place[s.lines[q].joined[k]] == InLine(q, k)
  }

  /** Where `place` has thread `t`, there it is; and it is saved unless it runs. */
  ghost predicate PlaceOk(s: State, t: nat)
    requires t in s.place && |s.active| == |s.phase|
  {
    match s.place[t]
    case OnCore(c) => c < |s.active| && s.active[c] == t
    case InLine(q, k) =>
      && q < |s.lines| && s.lines[q].head <= k < |s.lines[q].joined| && s.lines[q].joined[k] == t
      && t in s.saved && t in s.held && (q == ZOMBIES ==> s.held[t] == Nothing)
    case Chosen(c) => c < |s.active| && s.phase[c].Picked? && s.phase[c].next == t
    case Vacating(c) =>
      c < |s.active| && ((s.phase[c].Installed? && s.phase[c].me == t) || (s.phase[c].Switched? && s.phase[c].me == t))
    case HeldBy(u) => u in s.held && t in s.saved && t != u && (s.held[u] == ToSchedule(t) || s.held[u] == ToDelete(t))
  }

  ghost predicate HeldOk(s: State, u: nat)
    requires u in s.held
  {
    && (u in s.place <==> u !in s.idleOf)
    && match s.held[u]
       case Nothing => true
       case ToSchedule(t) => t in s.place && s.place[t] == HeldBy(u)
       case ToDelete(t) => t in s.place && s.place[t] == HeldBy(u) && t in s.held && s.held[t] == Nothing
  }

  ghost predicate Known(s: State) {
    && (forall t: nat {:trigger t in s.held} :: t in s.held <==> t in s.place || t in s.idleOf)
    && (forall t: nat {:trigger t in s.idleOf} | t in s.idleOf :: s.idleOf[t] < |s.idle| && s.idle[s.idleOf[t]] == t)
  }

  ghost predicate Inv(s: State) {
    match s
    case State(_, _, _, _, _, _, _, _) =>
      && Shaped(s) && Known(s)
      && (forall c: nat {:trigger CoreOk(s, c)} | c < |s.active| :: CoreOk(s, c))
      && (forall q: nat, k: nat {:trigger LineOk(s, q, k)} |
            q < |s.lines| && s.lines[q].head <= k < |s.lines[q].joined| :: LineOk(s, q, k))
      && (forall t: nat {:trigger PlaceOk(s, t)} | t in s.place :: PlaceOk(s, t))
      && (forall u: nat {:trigger HeldOk(s, u)} | u in s.held :: HeldOk(s, u))
  }
}
