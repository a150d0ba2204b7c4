/** Any number of threads putting into and getting from a bounded buffer, at
    each step of its three semaphores. */
module BufferRuns {
  import opened Queues
  import opened Semaphores
  import opened BoundedBuffers
  import opened Sums

  const EMPTY := 0
  const FULL := 1
  const LOCK := 2

  /** How far a put or get is: asleep for its token, with it, asleep for the
      lock, inside before changing the ring, inside after, out of the lock. */
  datatype Stage = TokenWait(place: nat) | Token | LockWait(place: nat) | In | Changed | Unlocked

  datatype Pc<T> = Outside | Putting(item: T, at: Stage) | Getting(at: Stage)

  /** `puts` and `gets` list all items that ever went in and came out. */
  datatype State<T> = State(data: seq<T>, head: nat, n: nat, sems: seq<Sem<nat>>, pcs: seq<Pc<T>>, puts: seq<T>,
                            gets: seq<T>)

  ghost function Init<T>(data: seq<T>, threads: nat): State<T> {
    State(data, 0, 0, [Sem(|data|, Line([], 0)), Sem(0, Line([], 0)), Sem(1, Line([], 0))],
          seq(threads, i => Outside), [], [])
  }

  // ---------------------------------------------------------------------
  // Steps
  // ---------------------------------------------------------------------

  ghost predicate Shaped<T>(s: State<T>) {
    |s.data| > 0 && s.head < |s.data| && |s.sems| == 3 && forall i: nat | i < 3 :: s.sems[i].Tight()
  }

  ghost function At<T>(pc: Pc<T>, stage: Stage): Pc<T>
    requires !pc.Outside?
  {
    match pc case Putting(x, _) => Putting(x, stage) case Getting(_) => Getting(stage)
  }

  /** Down: go on to `next`, or sleep as `pc`. */
  ghost function Down<T>(s: State<T>, th: nat, i: nat, next: Pc<T>): State<T>
    requires Shaped(s) && i < 3 && th < |s.pcs| && !next.Outside?
  {
    var (sem, taken) := s.sems[i].TryDown();
    if taken then s.(sems := s.sems[i := sem], pcs := s.pcs[th := next])
    else
      var place := |s.sems[i].line.joined|;
      s.(sems := s.sems[i := s.sems[i].Enqueue(th)],
         pcs := s.pcs[th := At(next, if i == LOCK then LockWait(place) else TokenWait(place))])
  }

  /** A sleeper that was handed a token goes on with it. */
  ghost function Granted<T>(pc: Pc<T>): Pc<T> {
    if pc.Outside? then pc
    else if pc.at.TokenWait? then At(pc, Token)
    else if pc.at.LockWait? then At(pc, In)
    else pc
  }

  /** Up: hand the token to the first sleeper, or leave it; then go on to `next`. */
  ghost function Up<T>(s: State<T>, th: nat, i: nat, next: Pc<T>): State<T>
    requires Shaped(s) && i < 3 && th < |s.pcs|
  {
    var (sem, waiter) := s.sems[i].Up();
    var pcs := s.pcs[th := next];
    if waiter.Some? && waiter.value < |s.pcs| then
      s.(sems := s.sems[i := sem], pcs := pcs[waiter.value := Granted(pcs[waiter.value])])
    else s.(sems := s.sems[i := sem], pcs := pcs)
  }

  ghost function PutItem<T>(s: State<T>, th: nat, x: T): State<T>
    requires Shaped(s) && th < |s.pcs|
  {
    var slot := Slot(s.head, s.n, |s.data|);
    s.(data := s.data[slot := x], n := s.n + 1, puts := s.puts + [x], pcs := s.pcs[th := Putting(x, Changed)])
  }

  ghost function GetItem<T>(s: State<T>, th: nat): State<T>
    requires Shaped(s) && th < |s.pcs|
  {
    s.(head := (s.head + 1) % |s.data|, n := if s.n == 0 then 0 else s.n - 1, gets := s.gets + [s.data[s.head]],
       pcs := s.pcs[th := Getting(Changed)])
  }

  /** The next step of thread `th`; one that is outside puts `work.value`, or gets. */
  ghost function Step<T>(s: State<T>, th: nat, work: Option<T>): State<T>
    requires Shaped(s) && th < |s.pcs|
  {
    match s.pcs[th]
    case Outside =>
      if work.Some? then Down(s, th, EMPTY, Putting(work.value, Token)) else Down(s, th, FULL, Getting(Token))
    case Putting(x, at) =>
      (match at
       case Token => Down(s, th, LOCK, Putting(x, In))
       case In => PutItem(s, th, x)
       case Changed => Up(s, th, LOCK, Putting(x, Unlocked))
       case Unlocked => Up(s, th, FULL, Outside)
       case _ => s)
    case Getting(at) =>
      (match at
       case Token => Down(s, th, LOCK, Getting(In))
       case In => GetItem(s, th)
       case Changed => Up(s, th, LOCK, Getting(Unlocked))
       case Unlocked => Up(s, th, EMPTY, Outside)
       case _ => s)
  }

  // ---------------------------------------------------------------------
  // Tokens
  // ---------------------------------------------------------------------

  /** Whether a thread holds one of the tokens that count towards semaphore `i`:
      an empty slot (a put before `n++`, a get after `n--`), a full one
      (a get before `n--`, a put after `n++`), or the lock. */
  ghost function Holds<T>(pc: Pc<T>, i: nat): nat {
    match pc
    case Outside => 0
    case Putting(_, at) =>
      if i == EMPTY then (if at.Token? || at.LockWait? || at.In? then 1 else 0)
      else if i == FULL then (if at.Changed? || at.Unlocked? then 1 else 0)
      else (if at.In? || at.Changed? then 1 else 0)
    case Getting(at) =>
      if i == EMPTY then (if at.Changed? || at.Unlocked? then 1 else 0)
      else if i == FULL then (if at.Token? || at.LockWait? || at.In? then 1 else 0)
      else (if at.In? || at.Changed? then 1 else 0)
  }

  ghost function HoldsEach<T>(pcs: seq<Pc<T>>, i: nat): seq<nat> {
    seq(|pcs|, j requires 0 <= j < |pcs| => Holds(pcs[j], i))
  }

  ghost function Total<T>(pcs: seq<Pc<T>>, i: nat): nat {
    Sum(HoldsEach(pcs, i))
  }

  lemma TotalUpdate<T>(pcs: seq<Pc<T>>, th: nat, pc: Pc<T>, i: nat)
    requires th < |pcs|
    ensures Total(pcs[th := pc], i) == Total(pcs, i) - Holds(pcs[th], i) + Holds(pc, i)
    ensures Total(pcs, i) >= Holds(pcs[th], i)
  {
    assert HoldsEach(pcs[th := pc], i) == HoldsEach(pcs, i)[th := Holds(pc, i)];
    SumUpdate(HoldsEach(pcs, i), th, Holds(pc, i));
  }

  lemma TotalTwo<T>(pcs: seq<Pc<T>>, th: nat, u: nat, i: nat)
    requires th < |pcs| && u < |pcs| && th != u
    ensures Total(pcs, i) >= Holds(pcs[th], i) + Holds(pcs[u], i)
  {
    TotalUpdate(pcs, th, Outside, i);
    TotalUpdate(pcs[th := Outside], u, Outside, i);
  }

  /** The sleeper's semaphore and its place there. */
  ghost function SleepsOn<T>(pc: Pc<T>): Option<(nat, nat)> {
    match pc
    case Outside => None
    case Putting(_, at) =>
      if at.TokenWait? then Some((EMPTY, at.place)) else if at.LockWait? then Some((LOCK, at.place)) else None
    case Getting(at) =>
      if at.TokenWait? then Some((FULL, at.place)) else if at.LockWait? then Some((LOCK, at.place)) else None
  }

  ghost predicate SleeperOk<T>(s: State<T>, th: nat)
    requires th < |s.pcs| && |s.sems| == 3
  {
    match SleepsOn(s.pcs[th])
    case None => true
    case Some(p) => p.0 < 3 && var l := s.sems[p.0].line; l.head <= p.1 < |l.joined| && l.joined[p.1] == th
  }

  ghost predicate PlaceOk<T>(s: State<T>, i: nat, k: nat)
    requires |s.sems| == 3 && i < 3 && k < |s.sems[i].line.joined|
  {
    s.sems[i].line.joined[k] < |s.pcs| && SleepsOn(s.pcs[s.sems[i].line.joined[k]]) == Some((i, k))
  }

  /** The threads asleep are exactly those in the three queues. */
  ghost predicate SleepersOk<T>(s: State<T>) {
    && |s.sems| == 3
    && (forall th: nat {:trigger SleeperOk(s, th)} | th < |s.pcs| :: SleeperOk(s, th))
    && (forall i: nat, k: nat {:trigger PlaceOk(s, i, k)} |
          i < 3 && s.sems[i].line.head <= k < |s.sems[i].line.joined| :: PlaceOk(s, i, k))
  }

  ghost predicate TokensOk<T>(s: State<T>)
    requires |s.sems| == 3
  {
    && s.sems[EMPTY].count + Total(s.pcs, EMPTY) + s.n == |s.data|
    && s.n == s.sems[FULL].count + Total(s.pcs, FULL)
    && s.sems[LOCK].count + Total(s.pcs, LOCK) == 1
  }

  ghost predicate RingOk<T>(s: State<T>)
    requires |s.data| > 0
  {
    |s.data| <= HALF && s.n <= |s.data| && s.puts == s.gets + Contents(s.data, s.head, s.n)
  }

  ghost predicate Inv<T>(s: State<T>) {
    Shaped(s) && SleepersOk(s) && TokensOk(s) && RingOk(s)
  }

  // ---------------------------------------------------------------------
  // Each kind of step
  // ---------------------------------------------------------------------

  /** The balance of semaphore `i`: tokens lying there and tokens held. */
  ghost function Balance<T>(s: State<T>, i: nat): nat
    requires |s.sems| == 3 && i < 3
  {
    s.sems[i].count + Total(s.pcs, i)
  }

  lemma DownSleepers<T>(s: State<T>, th: nat, i: nat, next: Pc<T>, s': State<T>)
    requires Shaped(s) && SleepersOk(s) && i < 3 && th < |s.pcs| && !next.Outside? && s' == Down(s, th, i, next)
    requires SleepsOn(s.pcs[th]) == None && SleepsOn(next) == None
    requires i == LOCK || (i == EMPTY && next.Putting?) || (i == FULL && next.Getting?)
    ensures Shaped(s') && SleepersOk(s')
  {
    forall u: nat | u < |s'.pcs| ensures SleeperOk(s', u) { assert SleeperOk(s, u); }
    forall j: nat, k: nat | j < 3 && s'.sems[j].line.head <= k < |s'.sems[j].line.joined| ensures PlaceOk(s', j, k) {
      if k < |s.sems[j].line.joined| { assert PlaceOk(s, j, k); }
    }
  }

  /** Down moves a token from the semaphore to the thread, or neither. */
  lemma DownTokens<T>(s: State<T>, th: nat, i: nat, next: Pc<T>, s': State<T>)
    requires Shaped(s) && i < 3 && th < |s.pcs| && !next.Outside? && s' == Down(s, th, i, next)
    requires Holds(next, i) == Holds(s.pcs[th], i) + 1
    requires forall j: nat | j < 3 && j != i :: Holds(next, j) == Holds(s.pcs[th], j)
    requires forall j: nat, k: nat | j < 3 ::
             Holds(At(next, if i == LOCK then LockWait(k) else TokenWait(k)), j) == Holds(s.pcs[th], j)
    ensures |s'.sems| == 3 && forall j: nat | j < 3 :: Balance(s', j) == Balance(s, j)
  {
    var pc := s'.pcs[th];
    forall j: nat | j < 3 ensures Balance(s', j) == Balance(s, j) {
      TotalUpdate(s.pcs, th, pc, j);
    }
  }

  lemma UpSleepers<T>(s: State<T>, th: nat, i: nat, next: Pc<T>, s': State<T>)
    requires Shaped(s) && SleepersOk(s) && i < 3 && th < |s.pcs| && s' == Up(s, th, i, next)
    requires SleepsOn(s.pcs[th]) == None && SleepsOn(next) == None
    ensures Shaped(s') && SleepersOk(s')
  {
    var l := s.sems[i].line;
    if l.head < |l.joined| { assert PlaceOk(s, i, l.head); }
    forall u: nat | u < |s'.pcs| ensures SleeperOk(s', u) { assert SleeperOk(s, u); }
    forall j: nat, k: nat | j < 3 && s'.sems[j].line.head <= k < |s'.sems[j].line.joined| ensures PlaceOk(s', j, k) {
      assert PlaceOk(s, j, k);
    }
  }

  /** Up moves a token from the thread to the semaphore or to the first sleeper. */
  lemma UpTokens<T>(s: State<T>, th: nat, i: nat, next: Pc<T>, s': State<T>, j: nat)
    requires Shaped(s) && SleepersOk(s) && i < 3 && th < |s.pcs| && s' == Up(s, th, i, next) && j < 3
    requires SleepsOn(s.pcs[th]) == None
    requires Holds(next, j) + (if j == i then 1 else 0) == Holds(s.pcs[th], j)
    ensures |s'.sems| == 3 && Balance(s', j) == Balance(s, j)
  {
    var l := s.sems[i].line;
    TotalUpdate(s.pcs, th, next, j);
    if l.head < |l.joined| {
      assert PlaceOk(s, i, l.head);
      var w := l.joined[l.head];
      TotalUpdate(s.pcs[th := next], w, Granted(s.pcs[w]), j);
    }
  }

  /** A thread inside that is about to put finds room, one about to get an item. */
  lemma RoomInside<T>(s: State<T>, th: nat)
    requires Inv(s) && th < |s.pcs|
    ensures s.pcs[th].Putting? && s.pcs[th].at.In? ==> s.n < |s.data|
    ensures s.pcs[th].Getting? && s.pcs[th].at.In? ==> s.n > 0
  {
    TotalUpdate(s.pcs, th, s.pcs[th], EMPTY);
    TotalUpdate(s.pcs, th, s.pcs[th], FULL);
  }

  lemma ChangeSleepers<T>(s: State<T>, th: nat, s': State<T>)
    requires Inv(s) && th < |s.pcs| && !s.pcs[th].Outside? && s.pcs[th].at.In? && s' == Step(s, th, None)
    ensures SleepersOk(s')
  {
    forall u: nat | u < |s'.pcs| ensures SleeperOk(s', u) { assert SleeperOk(s, u); }
    forall i: nat, k: nat | i < 3 && s'.sems[i].line.head <= k < |s'.sems[i].line.joined| ensures PlaceOk(s', i, k) {
      assert PlaceOk(s, i, k);
    }
  }

  lemma PutKeepsInv<T>(s: State<T>, th: nat, x: T, s': State<T>)
    requires Inv(s) && th < |s.pcs| && s.pcs[th] == Putting(x, In) && s' == PutItem(s, th, x)
    ensures Inv(s')
  {
    RoomInside(s, th);
    PutContents(s.data, s.head, s.n, x);
    ChangeSleepers(s, th, s');
    TotalUpdate(s.pcs, th, Putting(x, Changed), EMPTY);
    TotalUpdate(s.pcs, th, Putting(x, Changed), FULL);
    TotalUpdate(s.pcs, th, Putting(x, Changed), LOCK);
  }

  lemma GetKeepsInv<T>(s: State<T>, th: nat, s': State<T>)
    requires Inv(s) && th < |s.pcs| && s.pcs[th] == Getting(In) && s' == GetItem(s, th)
    ensures Inv(s')
  {
    RoomInside(s, th);
    GetContents(s.data, s.head, s.n);
    ChangeSleepers(s, th, s');
    TotalUpdate(s.pcs, th, Getting(Changed), EMPTY);
    TotalUpdate(s.pcs, th, Getting(Changed), FULL);
    TotalUpdate(s.pcs, th, Getting(Changed), LOCK);
  }

  lemma DownKeepsInv<T>(s: State<T>, th: nat, i: nat, next: Pc<T>, s': State<T>)
    requires Inv(s) && th < |s.pcs| && i < 3 && !next.Outside? && s' == Down(s, th, i, next)
    requires SleepsOn(s.pcs[th]) == None && next.at == if i == LOCK then In else Token
    requires if i == LOCK then !s.pcs[th].Outside? && s.pcs[th] == At(next, Token)
             else s.pcs[th].Outside? && (next.Putting? <==> i == EMPTY)
    ensures Inv(s')
  {
    DownSleepers(s, th, i, next, s');
    DownTokens(s, th, i, next, s');
    assert Balance(s', EMPTY) == Balance(s, EMPTY) && Balance(s', FULL) == Balance(s, FULL) &&
           Balance(s', LOCK) == Balance(s, LOCK);
  }

  lemma UpKeepsInv<T>(s: State<T>, th: nat, i: nat, next: Pc<T>, s': State<T>)
    requires Inv(s) && th < |s.pcs| && i < 3 && s' == Up(s, th, i, next) && !s.pcs[th].Outside?
    requires if i == LOCK then s.pcs[th].at.Changed? && next == At(s.pcs[th], Unlocked)
             else s.pcs[th].at.Unlocked? && next.Outside? && (s.pcs[th].Putting? <==> i == FULL)
    ensures Inv(s')
  {
    UpSleepers(s, th, i, next, s');
    UpTokens(s, th, i, next, s', EMPTY);
    UpTokens(s, th, i, next, s', FULL);
    UpTokens(s, th, i, next, s', LOCK);
    assert Balance(s', EMPTY) == Balance(s, EMPTY) && Balance(s', FULL) == Balance(s, FULL) &&
           Balance(s', LOCK) == Balance(s, LOCK);
  }

  lemma StepKeepsInv<T>(s: State<T>, th: nat, work: Option<T>, s': State<T>)
    requires Inv(s) && th < |s.pcs| && s' == Step(s, th, work)
    ensures Inv(s')
  {
    match s.pcs[th]
    case Outside =>
      if work.Some? { DownKeepsInv(s, th, EMPTY, Putting(work.value, Token), s'); }
      else { DownKeepsInv(s, th, FULL, Getting(Token), s'); }
    case Putting(x, at) =>
      match at {
       case Token => DownKeepsInv(s, th, LOCK, Putting(x, In), s');
       case In => PutKeepsInv(s, th, x, s');
       case Changed => UpKeepsInv(s, th, LOCK, Putting(x, Unlocked), s');
       case Unlocked => UpKeepsInv(s, th, FULL, Outside, s');
       case _ =>
      }
    case Getting(at) =>
      match at {
       case Token => DownKeepsInv(s, th, LOCK, Getting(In), s');
       case In => GetKeepsInv(s, th, s');
       case Changed => UpKeepsInv(s, th, LOCK, Getting(Unlocked), s');
       case Unlocked => UpKeepsInv(s, th, EMPTY, Outside, s');
       case _ =>
      }
  }

  // ---------------------------------------------------------------------
  // Whole operations
  // ---------------------------------------------------------------------

  ghost predicate AsleepOn<T>(pc: Pc<T>, j: nat) {
    SleepsOn(pc).Some? && SleepsOn(pc).value.0 == j
  }

  /** Semaphore `j` with those who sleep on it. */
  ghost function View<T>(s: State<T>, j: nat): Whole
    requires |s.sems| == 3 && j < 3
  {
    Whole(s.sems[j], set u: nat | u < |s.pcs| && AsleepOn(s.pcs[u], j))
  }

  lemma SameSleepers<T>(s: State<T>, s': State<T>, j: nat, th: nat)
    requires |s.sems| == |s'.sems| == 3 && j < 3 && s.sems[j].Valid() && s'.sems[j] == s.sems[j] && |s.pcs| == |s'.pcs|
    requires forall u: nat | u < |s.pcs| :: AsleepOn(s'.pcs[u], j) <==> AsleepOn(s.pcs[u], j)
    ensures DoesAtMostOne(View(s, j), th, View(s', j))
  {
    assert View(s', j).asleep == View(s, j).asleep;
  }

  lemma DownIsAtomic<T>(s: State<T>, th: nat, i: nat, next: Pc<T>, s': State<T>, j: nat)
    requires Shaped(s) && SleepersOk(s) && i < 3 && j < 3 && th < |s.pcs| && !next.Outside? &&
             s' == Down(s, th, i, next)
    requires SleepsOn(s.pcs[th]) == None && SleepsOn(next) == None
    requires i == LOCK || (i == EMPTY && next.Putting?) || (i == FULL && next.Getting?)
    ensures |s'.sems| == 3 && DoesAtMostOne(View(s, j), th, View(s', j))
  {
    if i != j {
      SameSleepers(s, s', j, th);
    } else {
      var w := Do(View(s, j), Semaphores.Down(th));
      forall u: nat ensures u in View(s', j).asleep <==> u in w.asleep {}
      assert View(s', j) == w;
    }
  }

  lemma UpIsAtomic<T>(s: State<T>, th: nat, i: nat, next: Pc<T>, s': State<T>, j: nat)
    requires Shaped(s) && SleepersOk(s) && i < 3 && j < 3 && th < |s.pcs| && s' == Up(s, th, i, next)
    requires SleepsOn(s.pcs[th]) == None && SleepsOn(next) == None
    ensures |s'.sems| == 3 && DoesAtMostOne(View(s, j), th, View(s', j))
  {
    var l := s.sems[i].line;
    if l.head < |l.joined| { assert PlaceOk(s, i, l.head); }
    if i != j {
      SameSleepers(s, s', j, th);
    } else {
      var w := Do(View(s, j), Semaphores.Up(th));
      forall u: nat ensures u in View(s', j).asleep <==> u in w.asleep {}
      assert View(s', j) == w;
    }
  }

  /** Each step does at most one whole operation on each semaphore, as defined
      for its own runs. */
  lemma StepIsAtomic<T>(s: State<T>, th: nat, work: Option<T>, s': State<T>, j: nat)
    requires Inv(s) && th < |s.pcs| && s' == Step(s, th, work) && j < 3
    ensures |s'.sems| == 3 && DoesAtMostOne(View(s, j), th, View(s', j))
  {
    match s.pcs[th]
    case Outside =>
      if work.Some? { DownIsAtomic(s, th, EMPTY, Putting(work.value, Token), s', j); }
      else { DownIsAtomic(s, th, FULL, Getting(Token), s', j); }
    case Putting(x, at) =>
      match at {
       case Token => DownIsAtomic(s, th, LOCK, Putting(x, In), s', j);
       case Changed => UpIsAtomic(s, th, LOCK, Putting(x, Unlocked), s', j);
       case Unlocked => UpIsAtomic(s, th, FULL, Outside, s', j);
       case _ => SameSleepers(s, s', j, th);
      }
    case Getting(at) =>
      match at {
       case Token => DownIsAtomic(s, th, LOCK, Getting(In), s', j);
       case Changed => UpIsAtomic(s, th, LOCK, Getting(Unlocked), s', j);
       case Unlocked => UpIsAtomic(s, th, EMPTY, Outside, s', j);
       case _ => SameSleepers(s, s', j, th);
      }
  }

  // ---------------------------------------------------------------------
  // Every run
  // ---------------------------------------------------------------------

  datatype Turn<T> = Turn(thread: nat, work: Option<T>)

  ghost function Run<T>(s: State<T>, turns: seq<Turn<T>>): (r: State<T>)
    requires Inv(s)
    ensures Inv(r) && |r.data| == |s.data| && |r.pcs| == |s.pcs|
    decreases |turns|
  {
    if turns == [] then s
    else if turns[0].thread < |s.pcs| then
      StepKeepsInv(s, turns[0].thread, turns[0].work, Step(s, turns[0].thread, turns[0].work));
      StepKeepsSizes(s, turns[0].thread, turns[0].work);
      Run(Step(s, turns[0].thread, turns[0].work), turns[1..])
    else Run(s, turns[1..])
  }

  lemma StepKeepsSizes<T>(s: State<T>, th: nat, work: Option<T>)
    requires Shaped(s) && th < |s.pcs|
    ensures |Step(s, th, work).data| == |s.data| && |Step(s, th, work).pcs| == |s.pcs|
  {
  }

  lemma TotalOutside<T>(pcs: seq<Pc<T>>, i: nat)
    requires forall j: nat | j < |pcs| :: pcs[j].Outside?
    ensures Total(pcs, i) == 0
  {
    SumZero(HoldsEach(pcs, i));
  }

  lemma InitInv<T>(data: seq<T>, threads: nat)
    requires 1 <= |data| <= HALF
    ensures Inv(Init(data, threads))
  {
    var s := Init(data, threads);
    TotalOutside(s.pcs, EMPTY);
    TotalOutside(s.pcs, FULL);
    TotalOutside(s.pcs, LOCK);
    forall th: nat | th < |s.pcs| ensures SleeperOk(s, th) {}
  }

  /** In every interleaving the buffer is a first-in first-out queue of at most
      its size, and tokens and items balance. */
  lemma BufferIsFifo<T>(data: seq<T>, threads: nat, turns: seq<Turn<T>>)
    requires 1 <= |data| <= HALF
    ensures Inv(Init(data, threads))
    ensures
      var s := Run(Init(data, threads), turns);
      && s.puts == s.gets + Contents(s.data, s.head, s.n) && s.n <= |data|
      && s.sems[EMPTY].count + Total(s.pcs, EMPTY) + s.n == |data|
      && s.n == s.sems[FULL].count + Total(s.pcs, FULL)
  {
    InitInv(data, threads);
  }

  /** In every interleaving: no item is put over another or got from an empty
      slot, and at most one thread is inside. */
  lemma NoOverwrite<T>(data: seq<T>, threads: nat, turns: seq<Turn<T>>, th: nat, u: nat)
    requires 1 <= |data| <= HALF && th < threads && u < threads
    ensures Inv(Init(data, threads))
    ensures
      var s := Run(Init(data, threads), turns);
      && (s.pcs[th].Putting? && s.pcs[th].at.In? ==> s.n < |data|)
      && (s.pcs[th].Getting? && s.pcs[th].at.In? ==> s.n > 0)
      && (Holds(s.pcs[th], LOCK) == 1 && Holds(s.pcs[u], LOCK) == 1 ==> th == u)
  {
    InitInv(data, threads);
    var s := Run(Init(data, threads), turns);
    RoomInside(s, th);
    if th != u { TotalTwo(s.pcs, th, u, LOCK); }
  }

  ghost predicate Sleeps<T>(pc: Pc<T>) {
    SleepsOn(pc).Some?
  }

  /** In every interleaving a thread that is not asleep can go on. */
  lemma NobodyIsStuck<T>(data: seq<T>, threads: nat, turns: seq<Turn<T>>, th: nat, work: Option<T>)
    requires 1 <= |data| <= HALF && th < threads
    ensures Inv(Init(data, threads))
    ensures
      var s := Run(Init(data, threads), turns);
      !Sleeps(s.pcs[th]) ==> Step(s, th, work).pcs[th] != s.pcs[th]
  {
    InitInv(data, threads);
    var s := Run(Init(data, threads), turns);
    forall i: nat | i < 3 && s.sems[i].line.head < |s.sems[i].line.joined| ensures PlaceOk(s, i, s.sems[i].line.head) {}
  }

  /** Nobody sleeps in vain: when all threads inside are asleep, a put sleeps only
      because the buffer is full, a get only because it is empty, and nobody for
      the lock. */
  lemma SleepersHaveReason<T>(data: seq<T>, threads: nat, turns: seq<Turn<T>>, th: nat)
    requires 1 <= |data| <= HALF && th < threads
    ensures Inv(Init(data, threads))
    ensures
      var s := Run(Init(data, threads), turns);
      (forall u: nat | u < threads :: s.pcs[u].Outside? || Sleeps(s.pcs[u])) && !s.pcs[th].Outside? ==>
        if s.pcs[th].Putting? then s.n == |data| else s.n == 0
  {
    InitInv(data, threads);
    var s := Run(Init(data, threads), turns);
    if (forall u: nat | u < threads :: s.pcs[u].Outside? || Sleeps(s.pcs[u])) && !s.pcs[th].Outside? {
      SumZero(HoldsEach(s.pcs, LOCK));
      forall u: nat | u < threads ensures s.pcs[u].Outside? || s.pcs[u].at.TokenWait? { assert SleeperOk(s, u); }
      SumZero(HoldsEach(s.pcs, EMPTY));
      SumZero(HoldsEach(s.pcs, FULL));
      assert SleeperOk(s, th);
    }
  }
}
