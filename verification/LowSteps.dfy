/** The steps that set up the shared low tables at start-up, and the step that
    gives up a whole address space at once. */
module LowSteps {
  import opened FrameModel
  import opened FrameSteps
  import opened TableSteps

  // ---------------------------------------------------------------------
  // The low tables
  // ---------------------------------------------------------------------

  /** There is no address space yet. */
  ghost predicate NoSpaces(s: Frames) {
    forall f: nat | f in s.place :: s.place[f].Free? || s.place[f].Loose? || s.place[f].LowDirectory? ||
      s.place[f].LowTable?
  }

  /** An empty frame in hand becomes the shared directory. */
  lemma AdoptSharedKeepsInv(c: Config, s: Frames, f: nat, c': Config, s': Frames)
    requires Inv(c, s) && NoSpaces(s) && c.shared == 0
    requires f in s.place && s.place[f] == Loose && s.mem[f] == ZeroWords(ENTRIES)
    requires c' == c.(shared := f, lowPages := 1) && s' == s.(place := s.place[f := LowDirectory])
    ensures Inv(c', s') && NoSpaces(s')
  {
    FreeStays(c, s, c', s');
    forall g: nat | g in s'.place ensures FrameOk(c', s', g) { assert FrameOk(c, s, g); }
    forall i: nat | i < ENTRIES ensures SharedOk(c', s', i) {}
  }

  /** Low page `n` is about to be mapped. */
  ghost predicate AtLow(c: Config, s: Frames, n: nat) {
    && Inv(c, s) && NoSpaces(s) && c.shared != 0 && c.shared < |s.mem| && n == c.lowPages &&
      1 <= n < PageNumber(PRIVATE, 0)
  }

  /** A frame taken for a low table is the only one in hand. */
  lemma AllocLow(c: Config, s: Frames, a: Frames, f: nat)
    requires Inv(c, s) && NoSpaces(s) && !Exhausted(c, s) && (a, f) == Alloc(c, s)
    requires forall g: nat | g in s.place :: !s.place[g].Loose?
    ensures NoSpaces(a) && forall g: nat | g in a.place && a.place[g].Loose? :: g == f
  {
    AllocKeepsInv(c, s, a, f);
    forall g: nat | g in a.place && g != f ensures g in s.place && a.place[g] == s.place[g] {
      assert Same(s, a, g);
    }
  }

  /** Its table is there. */
  lemma AddLowPageKeepsInv(c: Config, s: Frames, n: nat, i: nat, j: nat, c': Config, s': Frames)
    requires AtLow(c, s, n) && n == PageNumber(i, j) && j < ENTRIES && i < ENTRIES && Present(s.mem[c.shared][i])
    requires FrameOf(s.mem[c.shared][i]) < |s.mem|
    requires c' == c.(lowPages := n + 1) && s' == SetEntry(s, c.shared, i, j, Entry(n, false))
    ensures Inv(c', s') && NoSpaces(s')
  {
    assert SharedOk(c, s, i);
    assert ListsOk(s') by { FreeStays(c, s, c', s'); }
    assert FramesOk(c', s') by {
      FreeStays(c, s, c', s');
      forall g: nat | g in s'.place ensures FrameOk(c', s', g) { assert FrameOk(c, s, g); }
    }
    forall k: nat | k < ENTRIES ensures SharedOk(c', s', k) { assert SharedOk(c, s, k); }
  }

  /** Its table is not there, and `t` becomes that table. */
  lemma AddLowTableKeepsInv(c: Config, s: Frames, n: nat, i: nat, j: nat, t: nat, c': Config, m: Frames, s': Frames)
    requires AtLow(c, s, n) && n == PageNumber(i, j) && j < ENTRIES && i < ENTRIES && !Present(s.mem[c.shared][i])
    requires t in s.place && s.place[t] == Loose && t < |s.mem| && s.mem[t] == ZeroWords(ENTRIES)
    requires m == s.(mem := s.mem[c.shared := s.mem[c.shared][i := Entry(t, false)]])
    requires c' == c.(lowPages := n + 1) &&
             s' == SetEntry(m, c.shared, i, j, Entry(n, false)).(place := s.place[t := LowTable(i)])
    ensures Inv(c', s') && NoSpaces(s')
  {
    assert SharedOk(c, s, i);
    assert ListsOk(s') by { FreeStays(c, s, c', s'); }
    AddLowTableFrames(c, s, n, i, j, t, c', m, s');
    forall k: nat | k < ENTRIES ensures SharedOk(c', s', k) {
      assert SharedOk(c, s, k);
      assert k == i ==> FrameOf(s'.mem[c.shared][k]) == t;
    }
  }

  lemma AddLowTableFrames(c: Config, s: Frames, n: nat, i: nat, j: nat, t: nat, c': Config, m: Frames, s': Frames)
    requires AtLow(c, s, n) && n == PageNumber(i, j) && j < ENTRIES && i < ENTRIES && !Present(s.mem[c.shared][i])
    requires t in s.place && s.place[t] == Loose && t < |s.mem| && s.mem[t] == ZeroWords(ENTRIES)
    requires m == s.(mem := s.mem[c.shared := s.mem[c.shared][i := Entry(t, false)]])
    requires c' == c.(lowPages := n + 1) &&
             s' == SetEntry(m, c.shared, i, j, Entry(n, false)).(place := s.place[t := LowTable(i)])
    ensures FramesOk(c', s')
  {
    assert SharedOk(c, s, i);
    FreeStays(c, s, c', s');
    forall g: nat | g in s'.place ensures FrameOk(c', s', g) { assert FrameOk(c, s, g); }
  }

  // ---------------------------------------------------------------------
  // Giving up an address space
  // ---------------------------------------------------------------------

  /** Frame `f` is the directory, a table or a page of space `d`. */
  ghost predicate Within(s: Frames, f: nat, d: nat) {
    && f in s.place
    && match s.place[f]
       case Directory(_) => f == d
       case Table(e, _) => e == d
       case Data(e, _, _) => e == d
       case _ => false
  }

  /** All of space `d` in hand. */
  ghost function Doomed(s: Frames, d: nat): Frames {
    s.(place := map f | f in s.place :: if Within(s, f, d) then Loose else s.place[f])
  }

  lemma DoomedKeepsInv(c: Config, s: Frames, d: nat, s': Frames)
    requires Inv(c, s) && IsDirectory(s, d) && s' == Doomed(s, d)
    ensures Inv(c, s')
  {
    assert ListsOk(s') by { FreeStays(c, s, c, s'); }
    assert FramesOk(c, s') by {
      FreeStays(c, s, c, s');
      forall g: nat | g in s'.place ensures FrameOk(c, s', g) { assert FrameOk(c, s, g); }
    }
    assert DirectoriesOk(c, s') by {
      forall e: nat, k: nat | IsDirectory(s', e) && k < ENTRIES ensures DirEntryOk(c, s', e, k) {
        assert DirEntryOk(c, s, e, k);
      }
      forall e: nat | e in s'.place ensures ApicsOk(c, s', e) { assert ApicsOk(c, s, e); }
    }
    assert TablesOk(c, s') by {
      forall u: nat, k: nat | u in s'.place && s'.place[u].Table? && k < ENTRIES ensures TableEntryOk(c, s', u, k) {
        assert TableEntryOk(c, s, u, k);
      }
    }
    assert LowOk(c, s') by {
      forall k: nat | k < ENTRIES ensures SharedOk(c, s', k) { assert SharedOk(c, s, k); }
    }
  }
}
