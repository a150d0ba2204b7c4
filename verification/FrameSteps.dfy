/** The small steps that every operation on frames and tables is made of, and
    that each keeps the invariant. */
module FrameSteps {
  import opened FrameModel

  // ---------------------------------------------------------------------
  // Steps that touch no table
  // ---------------------------------------------------------------------

  /** A frame with a role in some address space or in the low tables. */
  ghost predicate Owned(s: Frames, f: nat) {
    f in s.place && !s.place[f].Free? && !s.place[f].Loose?
  }

  /** Frame `f` kept its role, and its words unless it is a data page. */
  ghost predicate RoleKept(s: Frames, s': Frames, f: nat)
    requires f in s.place && f < |s.mem| == |s'.mem|
  {
    && f in s'.place && s'.place[f] == s.place[f]
    && (s.place[f].Data? || s'.mem[f] == s.mem[f])
  }

  /** Roles are as they were, and so are the words of tables. */
  ghost predicate StructureKept(c: Config, s: Frames, s': Frames)
    requires Inv(c, s)
  {
    && Sized(c, s') && |s'.mem| == |s.mem|
    && (forall f: nat {:trigger RoleKept(s, s', f)} | Owned(s, f) :: RoleKept(s, s', f))
    && (forall f: nat {:trigger Owned(s', f)} | Owned(s', f) :: Owned(s, f))
  }

  lemma FrameStays(c: Config, s: Frames, s': Frames, f: nat)
    requires Inv(c, s) && StructureKept(c, s, s') && Owned(s', f)
    ensures FrameOk(c, s', f)
  {
    assert Owned(s, f) && RoleKept(s, s', f) && FrameOk(c, s, f);
    match s.place[f]
    case Table(d, i) => assert RoleKept(s, s', d);
    case LowTable(i) => assert RoleKept(s, s', c.shared);
    case Data(d, i, j) => assert RoleKept(s, s', d) && RoleKept(s, s', FrameOf(s.mem[d][i]));
    case _ =>
  }

  lemma DirectoriesStay(c: Config, s: Frames, s': Frames)
    requires Inv(c, s) && StructureKept(c, s, s')
    ensures DirectoriesOk(c, s')
  {
    forall d: nat, i: nat | IsDirectory(s', d) && i < ENTRIES ensures DirEntryOk(c, s', d, i) {
      assert Owned(s', d) && Owned(s, d) && RoleKept(s, s', d) && DirEntryOk(c, s, d, i);
      if i < PRIVATE { assert RoleKept(s, s', c.shared); }
      if PRIVATE <= i && Present(s.mem[d][i]) { assert RoleKept(s, s', FrameOf(s.mem[d][i])); }
    }
    forall d: nat | d in s'.place ensures ApicsOk(c, s', d) {
      if s'.place[d] == Directory(true) {
        assert Owned(s', d) && Owned(s, d) && RoleKept(s, s', d) && ApicsOk(c, s, d);
        var i, k := c.ioApic / ENTRIES, c.localApic / ENTRIES;
        assert DirEntryOk(c, s, d, i) && DirEntryOk(c, s, d, k);
        assert RoleKept(s, s', FrameOf(s.mem[d][i])) && RoleKept(s, s', FrameOf(s.mem[d][k]));
      }
    }
  }

  lemma TablesStay(c: Config, s: Frames, s': Frames)
    requires Inv(c, s) && StructureKept(c, s, s')
    ensures TablesOk(c, s') && LowOk(c, s')
  {
    forall t: nat, j: nat | t in s'.place && s'.place[t].Table? && j < ENTRIES ensures TableEntryOk(c, s', t, j) {
      assert Owned(s', t) && Owned(s, t) && RoleKept(s, s', t) && TableEntryOk(c, s, t, j);
      if Present(s.mem[t][j]) && !Special(c, s.place[t].pdi, j) { assert RoleKept(s, s', FrameOf(s.mem[t][j])); }
    }
    if c.shared != 0 {
      assert RoleKept(s, s', c.shared);
      forall i: nat | i < ENTRIES ensures SharedOk(c, s', i) {
        assert SharedOk(c, s, i);
        if i < PRIVATE && HasLow(c, i) { assert RoleKept(s, s', FrameOf(s.mem[c.shared][i])); }
      }
    }
  }

  /** If roles stay and the list is right, so is everything. */
  lemma StructureKeepsInv(c: Config, s: Frames, s': Frames)
    requires Inv(c, s) && StructureKept(c, s, s')
    requires forall f: nat {:trigger FrameOk(c, s', f)} | f in s'.place && s'.place[f].Free? :: FrameOk(c, s', f)
    requires ListsOk(s')
    ensures Inv(c, s')
  {
    assert FramesOk(c, s') by {
      forall f: nat | f in s'.place ensures FrameOk(c, s', f) {
        if Owned(s', f) { FrameStays(c, s, s', f); }
      }
    }
    DirectoriesStay(c, s, s');
    TablesStay(c, s, s');
  }

  /** Frame `g` is just as it was. */
  ghost predicate Same(s: Frames, s': Frames, g: nat) {
    && (g in s.place <==> g in s'.place)
    && (g in s.place && g < |s.mem| && g < |s'.mem| ==> s'.place[g] == s.place[g] && s'.mem[g] == s.mem[g])
  }

  /** A frame comes off the list, or is the next one, and is all zero. */
  lemma AllocKeepsInv(c: Config, s: Frames, s': Frames, f: nat)
    requires Inv(c, s) && !Exhausted(c, s) && (s', f) == Alloc(c, s)
    ensures Inv(c, s') && StructureKept(c, s, s')
    ensures f in s'.place && s'.place[f] == Loose && s'.mem[f] == ZeroWords(ENTRIES)
    ensures f in s.place ==> s.place[f].Free?
    ensures forall g: nat {:trigger Same(s, s', g)} | g != f :: Same(s, s', g)
  {
    if s.free != [] { assert ListOk(s, |s.free| - 1); }
    forall g: nat | Owned(s, g) ensures RoleKept(s, s', g) {}
    forall g: nat | g in s'.place && s'.place[g].Free? ensures FrameOk(c, s', g) {
      assert FrameOk(c, s, g);
    }
    forall k: nat | k < |s'.free| ensures ListOk(s', k) {
      assert ListOk(s, k);
    }
    StructureKeepsInv(c, s, s');
  }

  /** A frame goes back to the head of the list. */
  lemma DeallocKeepsInv(c: Config, s: Frames, f: nat, s': Frames)
    requires Inv(c, s) && f in s.place && s.place[f] == Loose && s' == Dealloc(c, s, f)
    ensures Inv(c, s') && StructureKept(c, s, s') && f in s'.place && s'.place[f].Free?
    ensures forall g: nat {:trigger Same(s, s', g)} | g != f :: Same(s, s', g)
  {
    forall g: nat | Owned(s, g) ensures RoleKept(s, s', g) {}
    forall g: nat | g in s'.place && s'.place[g].Free? ensures FrameOk(c, s', g) {
      if g != f { assert FrameOk(c, s, g); }
    }
    forall k: nat | k < |s'.free| ensures ListOk(s', k) {
      if k < |s.free| { assert ListOk(s, k); }
    }
    StructureKeepsInv(c, s, s');
  }

  /** The words of a data page, or of a frame in hand, may be anything. */
  lemma WriteKeepsInv(c: Config, s: Frames, f: nat, page: Page, s': Frames)
    requires Inv(c, s) && f in s.place && (s.place[f].Data? || s.place[f].Loose?)
    requires s' == s.(mem := s.mem[f := page])
    ensures Inv(c, s') && StructureKept(c, s, s')
  {
    forall g: nat | g in s'.place && s'.place[g].Free? ensures FrameOk(c, s', g) {
      assert FrameOk(c, s, g);
    }
    forall k: nat | k < |s'.free| ensures ListOk(s', k) {
      assert ListOk(s, k);
    }
    StructureKeepsInv(c, s, s');
  }
}
