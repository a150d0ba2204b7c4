/** What whole moves of the scheduler come to, and what becomes of threads that stop. */
module SchedulerMoves {
  import opened Queues
  import opened Scheduler
  import opened SchedulerRuns

  // ---------------------------------------------------------------------
  // Whole moves
  // ---------------------------------------------------------------------

  /** Thread `me` is put away: at the end of the ready queue if it yielded, of
      the zombies if it stopped, of the queue it sleeps in if it sleeps. */
  ghost predicate PutAway(lines: seq<Line<nat>>, me: nat, act: Action, lines': seq<Line<nat>>) {
    |lines| == |lines'| >= 2 &&
       match act
       case Reschedule => lines' == lines[READY := lines[READY].Join(me)]
       case Retire => lines' == lines[ZOMBIES := lines[ZOMBIES].Join(me)]
       case Sleep(q) => 2 <= q < |lines| && lines' == lines[q := lines[q].Join(me)]
  }

  /** The action after the switch. An idle thread is in no queue. */
  lemma ActPutsAway(s: State, c: nat, me: nat, act: Action, s': State)
    requires At(s, c, Switched(me, act)) && s' == Step(s, c, Act)
    ensures if me in s.idleOf then s'.lines == s.lines else PutAway(s.lines, me, act, s'.lines)
    ensures s'.phase == s.phase[c := Running] && s'.active == s.active && s'.held == s.held && s'.saved == s.saved
  {
    assert CoreOk(s, c) && HeldOk(s, me);
  }

  /** The moves by which a thread gives up its core. */
  ghost function GiveUp(c: nat, act: Action, must: bool): seq<Turn> {
    [Turn(c, Pick(act, must)), Turn(c, Install), Turn(c, Save), Turn(c, Act)]
  }

  /** Core `c` went from thread `me` to `next`, which was not running, and `me`
      was saved and put away. */
  ghost predicate Switches(s: State, c: nat, me: nat, next: nat, act: Action, lines: seq<Line<nat>>, s': State)
    requires c < |s.active|
  {
    match s'
    case State(_, _, active, phase, lines', saved, held, _) =>
      && active == s.active[c := next] && phase == s.phase && next in s.saved
      && saved == s.saved - {next} + {me} && held == s.held
      && if me in s.idleOf then lines' == lines else PutAway(lines, me, act, lines')
  }

  lemma RunTurn(s: State, c: nat, m: Move, rest: seq<Turn>, s1: State)
    requires Inv(s) && c < |s.active| && s1 == Step(s, c, m)
    ensures Inv(s1) && c < |s1.active| && Run(s, [Turn(c, m)] + rest) == Run(s1, rest)
  {
    StepKeepsInv(s, c, m, s1);
    assert ([Turn(c, m)] + rest)[1..] == rest;
  }

  lemma FourTurns(s: State, c: nat, act: Action, must: bool)
      returns (s1: State, s2: State, s3: State, s4: State)
    requires Inv(s) && c < |s.active|
    ensures Inv(s1) && c < |s1.active| && s1 == Step(s, c, Pick(act, must))
    ensures Inv(s2) && c < |s2.active| && s2 == Step(s1, c, Install)
    ensures Inv(s3) && c < |s3.active| && s3 == Step(s2, c, Save)
    ensures Inv(s4) && s4 == Step(s3, c, Act) && s4 == Run(s, GiveUp(c, act, must))
  {
    var a, b, d, e := Turn(c, Pick(act, must)), Turn(c, Install), Turn(c, Save), Turn(c, Act);
    s1 := Step(s, c, Pick(act, must));
    RunTurn(s, c, Pick(act, must), [b, d, e], s1);
    s2 := Step(s1, c, Install);
    RunTurn(s1, c, Install, [d, e], s2);
    s3 := Step(s2, c, Save);
    RunTurn(s2, c, Save, [e], s3);
    s4 := Step(s3, c, Act);
    RunTurn(s3, c, Act, [], s4);
    assert [a] + [b, d, e] == [a, b, d, e] && [b] + [d, e] == [b, d, e] && [d] + [e] == [d, e] && [e] + [] == [e];
  }

  /** Giving up the core: to the first of the ready queue, or else to the core's
      idle thread if the caller must block and is not that thread; if there is
      no thread to switch to nothing changes. */
  lemma GivesUpCore(s: State, c: nat, act: Action, must: bool, s': State)
    requires At(s, c, Running) && MayPick(s, s.active[c], act) && s' == Run(s, GiveUp(c, act, must))
    ensures
      var me, ready := s.active[c], s.lines[READY].Items();
      if ready != [] then Switches(s, c, me, ready[0], act, s.lines[READY := s.lines[READY].Leave().0], s')
      else if must && me !in s.idleOf then Switches(s, c, me, s.idle[c], act, s.lines, s')
      else s' == s
  {
    var s1, s2, s3, s4 := FourTurns(s, c, act, must);
    if s1.phase[c].Picked? {
      PicksNext(s, c, act, must, s1);
      SwitchesAway(s, c, act, s1, s2, s3, s4);
    }
  }

  lemma SwitchesAway(s: State, c: nat, act: Action, s1: State, s2: State, s3: State, s4: State)
    requires At(s, c, Running) && c < |s1.phase| && s1.phase[c].Picked? && At(s1, c, Picked(s1.phase[c].next, act))
    requires s1.phase[c].next in s.saved && s1.active == s.active && s1.phase == s.phase[c := s1.phase[c]]
    requires s1.saved == s.saved && s1.held == s.held && s1.idleOf == s.idleOf
    requires s2 == Step(s1, c, Install) && Inv(s2) && c < |s2.active| && s3 == Step(s2, c, Save) && Inv(s3)
    requires c < |s3.active| && s4 == Step(s3, c, Act)
    ensures Switches(s, c, s.active[c], s1.phase[c].next, act, s1.lines, s4)
  {
    SwitchesTo(s1, c, s.active[c], s1.phase[c].next, act, s2, s3);
    ActPutsAway(s3, c, s.active[c], act, s4);
    assert s1.phase[c := Switched(s.active[c], act)][c := Running] == s.phase;
  }

  lemma PicksNext(s: State, c: nat, act: Action, must: bool, s1: State)
    requires At(s, c, Running) && MayPick(s, s.active[c], act) && s1 == Step(s, c, Pick(act, must))
    requires Inv(s1) && s1.phase[c].Picked?
    ensures s1.phase[c] == Picked(s1.phase[c].next, act) && s1.phase[c].next in s.saved
    ensures s1.idleOf == s.idleOf && s1.active == s.active && s1.phase == s.phase[c := s1.phase[c]]
    ensures s1.saved == s.saved && s1.held == s.held
    ensures
      var ready := s.lines[READY].Items();
      if ready != [] then s1.phase[c].next == ready[0] && s1.lines == s.lines[READY := s.lines[READY].Leave().0]
      else must && s.active[c] !in s.idleOf && s1.phase[c].next == s.idle[c] && s1.lines == s.lines
  {
    assert CoreOk(s, c) && CoreOk(s1, c);
  }

  lemma SwitchesTo(s1: State, c: nat, me: nat, next: nat, act: Action, s2: State, s3: State)
    requires At(s1, c, Picked(next, act)) && s1.active[c] == me && s2 == Step(s1, c, Install) && Inv(s2)
    requires c < |s2.active| && s3 == Step(s2, c, Save) && Inv(s3)
    ensures At(s3, c, Switched(me, act)) && s3.active == s1.active[c := next]
    ensures s3.phase == s1.phase[c := Switched(me, act)] && s3.lines == s1.lines && s3.held == s1.held
    ensures s3.saved == s1.saved - {next} + {me} && s3.idleOf == s1.idleOf
  {
  }

  lemma TwoTurns(s: State, c: nat, m: Move) returns (s1: State, s2: State)
    requires Inv(s) && c < |s.active|
    ensures Inv(s1) && c < |s1.active| && s1 == Step(s, c, m) && Inv(s2) && s2 == Step(s1, c, Finish)
    ensures Run(s, [Turn(c, m), Turn(c, Finish)]) == s2
  {
    s1 := Step(s, c, m);
    RunTurn(s, c, m, [Turn(c, Finish)], s1);
    s2 := Step(s1, c, Finish);
    RunTurn(s1, c, Finish, [], s2);
    assert [Turn(c, m)] + [Turn(c, Finish)] == [Turn(c, m), Turn(c, Finish)];
    assert [Turn(c, Finish)] + [] == [Turn(c, Finish)];
  }

  /** A running thread with nothing in hand. */
  ghost predicate Free(s: State, c: nat) {
    At(s, c, Running) && s.active[c] in s.held && s.held[s.active[c]] == Nothing
  }

  /** Thread `t` left queue `q`, which leaves `line`, and is ready. */
  ghost predicate Woken(s: State, q: nat, line: Line<nat>, t: nat, s': State)
    requires 2 <= q < |s.lines|
  {
    match s'
    case State(_, _, active, phase, lines, saved, held, _) =>
      && lines == s.lines[q := line][READY := s.lines[READY].Join(t)]
      && held == s.held && saved == s.saved && active == s.active && phase == s.phase
  }

  /** Waking: the first waiter goes to the end of the ready queue. */
  lemma WakesFirst(s: State, c: nat, q: nat, s': State)
    requires Free(s, c) && 2 <= q < |s.lines| && s' == Run(s, [Turn(c, Wake(q)), Turn(c, Finish)])
    ensures
      var (line, first) := s.lines[q].Leave();
      if first == None then s' == s else Woken(s, q, line, first.value, s')
  {
    var s1, s2 := TwoTurns(s, c, Wake(q));
    assert CoreOk(s, c);
    if s.lines[q].head < |s.lines[q].joined| { WakesThis(s, c, q, s1, s2); }
  }

  lemma WakesThis(s: State, c: nat, q: nat, s1: State, s2: State)
    requires Free(s, c) && 2 <= q < |s.lines| && s.lines[q].head < |s.lines[q].joined|
    requires s1 == Step(s, c, Wake(q)) && Inv(s1) && c < |s1.active| && s2 == Step(s1, c, Finish)
    ensures Woken(s, q, s.lines[q].Leave().0, s.lines[q].joined[s.lines[q].head], s2)
  {
    var me, t := s.active[c], s.lines[q].joined[s.lines[q].head];
    assert LineOk(s, q, s.lines[q].head) && PlaceOk(s, t) && CoreOk(s, c);
    assert s.held[me := ToSchedule(t)][me := Nothing] == s.held;
  }

  /** The zombie `t` is gone, and `line` is left. */
  ghost predicate Reaped(s: State, line: Line<nat>, t: nat, s': State)
    requires |s.lines| >= 2
  {
    match s'
    case State(_, _, active, phase, lines, saved, held, place) =>
      && lines == s.lines[ZOMBIES := line] && active == s.active && phase == s.phase
      && held == s.held - {t} && saved == s.saved - {t} && place == s.place - {t}
  }

  /** Reaping: the first zombie is gone, and nothing else changes. */
  lemma ReapsFirst(s: State, c: nat, s': State)
    requires Free(s, c) && s' == Run(s, [Turn(c, Reap), Turn(c, Finish)])
    ensures
      var (line, first) := s.lines[ZOMBIES].Leave();
      if first == None then s' == s else Reaped(s, line, first.value, s')
  {
    var s1, s2 := TwoTurns(s, c, Reap);
    assert CoreOk(s, c);
    if s.lines[ZOMBIES].head < |s.lines[ZOMBIES].joined| { ReapsThis(s, c, s1, s2); }
  }

  lemma ReapsThis(s: State, c: nat, s1: State, s2: State)
    requires Free(s, c) && s.lines[ZOMBIES].head < |s.lines[ZOMBIES].joined|
    requires s1 == Step(s, c, Reap) && Inv(s1) && c < |s1.active| && s2 == Step(s1, c, Finish)
    ensures Reaped(s, s.lines[ZOMBIES].Leave().0, s.lines[ZOMBIES].joined[s.lines[ZOMBIES].head], s2)
  {
    var me, t := s.active[c], s.lines[ZOMBIES].joined[s.lines[ZOMBIES].head];
    assert LineOk(s, ZOMBIES, s.lines[ZOMBIES].head) && PlaceOk(s, t) && CoreOk(s, c);
    assert s.held[me := ToDelete(t)][me := Nothing] == s.held;
    assert s.place[t := HeldBy(me)] - {t} == s.place - {t};
  }

  /** A new thread: saved, with nothing in hand, at the end of the ready queue. */
  lemma CreatesReady(s: State, c: nat, t: nat, s': State)
    requires Free(s, c) && t !in s.held && s' == Run(s, [Turn(c, Create(t)), Turn(c, Finish)])
    ensures s'.lines == s.lines[READY := s.lines[READY].Join(t)] && s'.active == s.active && s'.phase == s.phase
    ensures s'.held == s.held[t := Nothing] && s'.saved == s.saved + {t}
  {
    var s1, s2 := TwoTurns(s, c, Create(t));
    assert CoreOk(s, c);
  }

  // ---------------------------------------------------------------------
  // Threads that stop
  // ---------------------------------------------------------------------

  /** Thread `t` has stopped: it has left its core for good, or is among the
      zombies, or in the hands of a thread that will delete it. */
  ghost predicate Retired(s: State, t: nat) {
    && t in s.place
    && match s.place[t]
       case OnCore(_) => false
       case Chosen(_) => false
       case Vacating(c) =>
         c < |s.phase| && ((s.phase[c].Installed? || s.phase[c].Switched?) && s.phase[c].act == Retire)
       case InLine(q, _) => q == ZOMBIES
       case HeldBy(u) => u in s.held && s.held[u] == ToDelete(t)
  }

  lemma RetiredIsOff(s: State, t: nat)
    requires Inv(s) && Retired(s, t)
    ensures t in s.held && t !in s.idleOf && forall c: nat | c < |s.active| :: s.active[c] != t
  {
    assert PlaceOk(s, t) && t in s.held && HeldOk(s, t);
    forall c: nat | c < |s.active| ensures s.active[c] != t { assert CoreOk(s, c); }
  }

  /** The active thread of core `c` is about to delete `t`. */
  ghost predicate Deletes(s: State, turn: Turn, t: nat) {
    && turn.core < |s.active| && turn.move == Finish
    && s.active[turn.core] in s.held && s.held[s.active[turn.core]] == ToDelete(t)
  }

  /** Who has stopped stays so until it is deleted. */
  lemma RetiredStays(s: State, c: nat, m: Move, s': State, t: nat)
    requires Inv(s) && c < |s.active| && s' == Step(s, c, m) && Retired(s, t)
    ensures Retired(s', t) || (t !in s'.held && Deletes(s, Turn(c, m), t))
  {
    RetiredIsOff(s, t);
    assert CoreOk(s, c) && PlaceOk(s, t);
    match s.phase[c]
    case Running => RetiredWhileRunning(s, c, m, s', t);
    case Picked(n, act) => assert n in s.place ==> s.place[n] == Chosen(c);
    case Installed(me, act) =>
    case Switched(me, act) =>
  }

  lemma RetiredWhileRunning(s: State, c: nat, m: Move, s': State, t: nat)
    requires At(s, c, Running) && s' == Step(s, c, m) && Retired(s, t)
    ensures Retired(s', t) || (t !in s'.held && Deletes(s, Turn(c, m), t))
  {
    RetiredIsOff(s, t);
    assert CoreOk(s, c) && PlaceOk(s, t);
    var me := s.active[c];
    if me in s.held { assert HeldOk(s, me); }
    var l := s.lines[READY];
    if l.head < |l.joined| { assert LineOk(s, READY, l.head); }
    if m.Wake? && m.queue < |s.lines| && s.lines[m.queue].head < |s.lines[m.queue].joined| {
      assert LineOk(s, m.queue, s.lines[m.queue].head);
    }
    if s.lines[ZOMBIES].head < |s.lines[ZOMBIES].joined| { assert LineOk(s, ZOMBIES, s.lines[ZOMBIES].head); }
  }

  /** A thread stops only by its own doing. */
  lemma OnlyStopRetires(s: State, c: nat, m: Move, s': State, t: nat)
    requires Inv(s) && c < |s.active| && s' == Step(s, c, m) && Retired(s', t)
    ensures Retired(s, t) || (s.active[c] == t && m == Install && s.phase[c].Picked? && s.phase[c].act == Retire)
  {
    assert CoreOk(s, c);
    if t in s.place { assert PlaceOk(s, t); }
    if s.phase[c].Running? && s.active[c] in s.held { RetiresNobody(s, c, m, s', t); }
  }

  lemma RetiresNobody(s: State, c: nat, m: Move, s': State, t: nat)
    requires At(s, c, Running) && s' == Step(s, c, m) && Retired(s', t) && s.active[c] in s.held
    ensures Retired(s, t)
  {
    assert CoreOk(s, c) && HeldOk(s, s.active[c]);
    if t in s.place { assert PlaceOk(s, t); }
    if m.Wake? && m.queue < |s.lines| && s.lines[m.queue].head < |s.lines[m.queue].joined| {
      assert LineOk(s, m.queue, s.lines[m.queue].head);
    }
    if s.lines[ZOMBIES].head < |s.lines[ZOMBIES].joined| { assert LineOk(s, ZOMBIES, s.lines[ZOMBIES].head); }
  }

  /** Only threads that stopped leave the system. */
  lemma OnlyRetiredDeleted(s: State, c: nat, m: Move, s': State, t: nat)
    requires Inv(s) && c < |s.active| && s' == Step(s, c, m) && t in s.held && t !in s'.held
    ensures Retired(s, t) && Deletes(s, Turn(c, m), t)
  {
    assert s.active[c] in s.held ==> HeldOk(s, s.active[c]);
  }

  ghost predicate RetiredAfter(s: State, turns: seq<Turn>, i: nat, t: nat)
    requires Inv(s) && i <= |turns|
  {
    var r := Run(s, turns[..i]);
    Retired(r, t) && forall c: nat | c < |r.active| :: r.active[c] != t
  }

  /** In every run a thread that has stopped is never active on a core again, up
      to the end of the run or to the turn in which it is deleted. */
  lemma {:induction false} StoppedForGood(s: State, turns: seq<Turn>, t: nat) returns (n: nat)
    requires Inv(s) && Retired(s, t)
    ensures n <= |turns|
    ensures forall i: nat {:trigger RetiredAfter(s, turns, i, t)} | i <= n :: RetiredAfter(s, turns, i, t)
    ensures n < |turns| ==> Deletes(Run(s, turns[..n]), turns[n], t)
    decreases |turns|
  {
    RetiredIsOff(s, t);
    n := 0;
    assert turns[..0] == [];
    if turns != [] && turns[0].core < |s.active| {
      var s1 := Step(s, turns[0].core, turns[0].move);
      StepKeepsInv(s, turns[0].core, turns[0].move, s1);
      RetiredStays(s, turns[0].core, turns[0].move, s1, t);
      if Retired(s1, t) {
        var k := StoppedForGood(s1, turns[1..], t);
        n := k + 1;
        Later(s, s1, turns, n, t);
      }
    } else if turns != [] {
      var k := StoppedForGood(s, turns[1..], t);
      n := k + 1;
      Later(s, s, turns, n, t);
    }
  }

  lemma Later(s: State, s1: State, turns: seq<Turn>, n: nat, t: nat)
    requires Inv(s) && Inv(s1) && 0 < n <= |turns| && RetiredAfter(s, turns, 0, t)
    requires s1 == if turns[0].core < |s.active| then Step(s, turns[0].core, turns[0].move) else s
    requires forall i: nat {:trigger RetiredAfter(s1, turns[1..], i, t)} | i <= n - 1 ::
               RetiredAfter(s1, turns[1..], i, t)
    requires n < |turns| ==> Deletes(Run(s1, turns[1..][..n - 1]), turns[1..][n - 1], t)
    ensures forall i: nat {:trigger RetiredAfter(s, turns, i, t)} | i <= n :: RetiredAfter(s, turns, i, t)
    ensures n < |turns| ==> Deletes(Run(s, turns[..n]), turns[n], t)
  {
    forall i: nat | 0 < i <= n ensures Run(s, turns[..i]) == Run(s1, turns[1..][..i - 1]) {
      assert turns[..i][1..] == turns[1..][..i - 1];
    }
    forall i: nat | i <= n ensures RetiredAfter(s, turns, i, t) {
      if i > 0 { assert RetiredAfter(s1, turns[1..], i - 1, t); }
    }
  }
}
