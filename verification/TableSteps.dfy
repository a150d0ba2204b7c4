/** The steps that build and take apart the tables of an address space. Each
    changes one or two words or roles, and keeps the invariant. */
module TableSteps {
  import opened FrameModel

  /** The free list and its frames are untouched. */
  ghost predicate FreeKept(s: Frames, s': Frames) {
    && s'.free == s.free && s'.avail == s.avail && |s'.mem| == |s.mem| && s'.place.Keys == s.place.Keys
    && (forall f: nat {:trigger f in s'.place} | f in s.place && f < |s.mem| &&
      (s.place[f].Free? || s'.place[f].Free?) :: s'.place[f] == s.place[f] && s'.mem[f] == s.mem[f])
  }

  lemma FreeStays(c: Config, s: Frames, c': Config, s': Frames)
    requires Inv(c, s) && Sized(c', s') && FreeKept(s, s')
    ensures ListsOk(s')
    ensures forall f: nat {:trigger FrameOk(c', s', f)} | f in s'.place && s'.place[f].Free? :: FrameOk(c', s', f)
  {
    forall k: nat | k < |s'.free| ensures ListOk(s', k) {
      assert ListOk(s, k) && s.free[k] in s'.place;
    }
    forall f: nat | f in s'.place && s'.place[f].Free? ensures FrameOk(c', s', f) {
      assert FrameOk(c, s, f);
    }
  }

  // ---------------------------------------------------------------------
  // Directories
  // ---------------------------------------------------------------------

  /** A directory under construction: the low tables, and nothing private. */
  ghost predicate BlankDirectory(c: Config, s: Frames, d: nat)
    requires d < |s.mem| && c.shared < |s.mem|
  {
    forall i: nat | i < ENTRIES :: s.mem[d][i] == if i < PRIVATE then s.mem[c.shared][i] else 0
  }

  lemma AddDirectoryKeepsInv(c: Config, s: Frames, d: nat, s': Frames)
    requires Inv(c, s) && c.shared != 0 && d in s.place && s.place[d] == Loose && BlankDirectory(c, s, d)
    requires s' == s.(place := s.place[d := Directory(false)])
    ensures Inv(c, s')
  {
    assert ListsOk(s') by { FreeStays(c, s, c, s'); }
    assert FramesOk(c, s') by {
      FreeStays(c, s, c, s');
      forall f: nat | f in s'.place ensures FrameOk(c, s', f) { assert FrameOk(c, s, f); }
    }
    assert DirectoriesOk(c, s') by {
      forall e: nat, i: nat | IsDirectory(s', e) && i < ENTRIES ensures DirEntryOk(c, s', e, i) {
        if e != d { assert DirEntryOk(c, s, e, i); }
      }
      forall e: nat | e in s'.place ensures ApicsOk(c, s', e) {
        if e != d { assert ApicsOk(c, s, e); }
      }
    }
    assert TablesOk(c, s') by {
      forall t: nat, j: nat | t in s'.place && s'.place[t].Table? && j < ENTRIES ensures TableEntryOk(c, s', t, j) {
        assert TableEntryOk(c, s, t, j);
      }
    }
    assert LowOk(c, s') by {
      forall i: nat | i < ENTRIES ensures SharedOk(c, s', i) { assert SharedOk(c, s, i); }
    }
  }

  /** A directory that maps both APIC pages is finished. */
  lemma FinishDirectoryKeepsInv(c: Config, s: Frames, d: nat, s': Frames)
    requires Inv(c, s) && d in s.place && s.place[d] == Directory(false)
    requires MappedAt(s, d, c.ioApic / ENTRIES, c.ioApic % ENTRIES)
    requires MappedAt(s, d, c.localApic / ENTRIES, c.localApic % ENTRIES)
    requires s' == s.(place := s.place[d := Directory(true)])
    ensures Inv(c, s')
  {
    assert ListsOk(s') by { FreeStays(c, s, c, s'); }
    assert FramesOk(c, s') by {
      FreeStays(c, s, c, s');
      forall f: nat | f in s'.place ensures FrameOk(c, s', f) { assert FrameOk(c, s, f); }
    }
    assert DirectoriesOk(c, s') by {
      forall e: nat, i: nat | IsDirectory(s', e) && i < ENTRIES ensures DirEntryOk(c, s', e, i) {
        assert DirEntryOk(c, s, e, i);
      }
      forall e: nat | e in s'.place ensures ApicsOk(c, s', e) { assert ApicsOk(c, s, e); }
    }
    assert TablesOk(c, s') by {
      forall t: nat, j: nat | t in s'.place && s'.place[t].Table? && j < ENTRIES ensures TableEntryOk(c, s', t, j) {
        assert TableEntryOk(c, s, t, j);
      }
    }
    assert LowOk(c, s') by {
      forall i: nat | i < ENTRIES ensures SharedOk(c, s', i) { assert SharedOk(c, s, i); }
    }
  }

  // ---------------------------------------------------------------------
  // Tables
  // ---------------------------------------------------------------------

  ghost predicate CanAddTable(c: Config, s: Frames, d: nat, i: nat, t: nat) {
    && Inv(c, s) && IsDirectory(s, d) && PRIVATE <= i < ENTRIES && d < |s.mem| && !Present(s.mem[d][i])
    && t in s.place && s.place[t] == Loose && t < |s.mem| && s.mem[t] == ZeroWords(ENTRIES)
  }

  /** Word `w` is the right entry for table `t` in row `i`. */
  ghost predicate TableEntry(c: Config, i: nat, t: nat, w: nat) {
    Present(w) && FrameOf(w) == t && Bits(w) == if SpecialRow(c, i) then 3 else 7
  }

  /** Every page mapped before is mapped still, at the same frame. */
  ghost predicate MapsKept(s: Frames, s': Frames) {
    |s'.mem| == |s.mem| && forall d: nat, i: nat, j: nat {:trigger MappedAt(s', d, i, j)} | IsDirectory(s, d) &&
      MappedAt(s, d, i, j) :: MappedAt(s', d, i, j)
  }

  lemma ApicsStay(c: Config, s: Frames, s': Frames, e: nat)
    requires Inv(c, s) && Sized(c, s') && MapsKept(s, s')
    requires e in s.place && e in s'.place && (s'.place[e] == Directory(true) ==> s.place[e] == Directory(true))
    ensures ApicsOk(c, s', e)
  {
    assert ApicsOk(c, s, e);
  }

  /** Entry `i` of directory `d` comes to point at the empty table `t`. */
  lemma AddTableKeepsInv(c: Config, s: Frames, d: nat, i: nat, t: nat, w: nat, s': Frames)
    requires CanAddTable(c, s, d, i, t) && TableEntry(c, i, t, w)
    requires s' == s.(mem := s.mem[d := s.mem[d][i := w]], place := s.place[t := Table(d, i)])
    ensures Inv(c, s')
  {
    assert ListsOk(s') by { FreeStays(c, s, c, s'); }
    AddTableFrames(c, s, d, i, t, w, s');
    AddTableDirectories(c, s, d, i, t, w, s');
    assert TablesOk(c, s') by {
      forall u: nat, j: nat | u in s'.place && s'.place[u].Table? && j < ENTRIES ensures TableEntryOk(c, s', u, j) {
        if u != t { assert TableEntryOk(c, s, u, j); }
      }
    }
    assert LowOk(c, s') by {
      forall k: nat | k < ENTRIES ensures SharedOk(c, s', k) { assert SharedOk(c, s, k); }
    }
  }

  lemma AddTableDirectories(c: Config, s: Frames, d: nat, i: nat, t: nat, w: nat, s': Frames)
    requires CanAddTable(c, s, d, i, t) && TableEntry(c, i, t, w)
    requires s' == s.(mem := s.mem[d := s.mem[d][i := w]], place := s.place[t := Table(d, i)])
    ensures DirectoriesOk(c, s')
  {
    forall e: nat, k: nat | IsDirectory(s', e) && k < ENTRIES ensures DirEntryOk(c, s', e, k) {
      assert DirEntryOk(c, s, e, k);
    }
    forall e: nat | e in s'.place ensures ApicsOk(c, s', e) { ApicsStay(c, s, s', e); }
  }

  lemma AddTableFrames(c: Config, s: Frames, d: nat, i: nat, t: nat, w: nat, s': Frames)
    requires CanAddTable(c, s, d, i, t) && TableEntry(c, i, t, w)
    requires s' == s.(mem := s.mem[d := s.mem[d][i := w]], place := s.place[t := Table(d, i)])
    ensures FramesOk(c, s')
  {
    FreeStays(c, s, c, s');
    forall f: nat | f in s'.place ensures FrameOk(c, s', f) { assert FrameOk(c, s, f); }
  }

  ghost predicate CanAddPage(c: Config, s: Frames, d: nat, i: nat, j: nat) {
    && Inv(c, s) && IsDirectory(s, d) && PRIVATE <= i < ENTRIES && j < ENTRIES && d < |s.mem|
    && Present(s.mem[d][i]) && FrameOf(s.mem[d][i]) < |s.mem| && !Present(s.mem[FrameOf(s.mem[d][i])][j])
  }

  /** Set entry `j` of the table for `i` in directory `d`. */
  ghost function SetEntry(s: Frames, d: nat, i: nat, j: nat, entry: nat): (s': Frames)
    requires d < |s.mem| && i < ENTRIES && j < ENTRIES && FrameOf(s.mem[d][i]) < |s.mem|
  {
    var t := FrameOf(s.mem[d][i]);
    s.(mem := s.mem[t := s.mem[t][j := entry]])
  }

  /** A frame in hand becomes page (i, j) of `d`. */
  ghost predicate AddedPage(c: Config, s: Frames, d: nat, i: nat, j: nat, f: nat, w: nat, s': Frames) {
    && CanAddPage(c, s, d, i, j) && !Special(c, i, j) && f in s.place && s.place[f] == Loose
    && Present(w) && FrameOf(w) == f && Bits(w) == 7
    && s' == SetEntry(s, d, i, j, w).(place := s.place[f := Data(d, i, j)])
  }

  lemma AddPageKeepsInv(c: Config, s: Frames, d: nat, i: nat, j: nat, f: nat, w: nat, s': Frames)
    requires AddedPage(c, s, d, i, j, f, w, s')
    ensures Inv(c, s')
  {
    assert DirEntryOk(c, s, d, i);
    assert ListsOk(s') by { FreeStays(c, s, c, s'); }
    AddPageFrames(c, s, d, i, j, f, w, s');
    assert DirectoriesOk(c, s') by {
      forall e: nat, k: nat | IsDirectory(s', e) && k < ENTRIES ensures DirEntryOk(c, s', e, k) {
        assert DirEntryOk(c, s, e, k);
      }
      forall e: nat | e in s'.place ensures ApicsOk(c, s', e) { ApicsStay(c, s, s', e); }
    }
    AddPageTables(c, s, d, i, j, f, w, s');
    assert LowOk(c, s') by {
      forall k: nat | k < ENTRIES ensures SharedOk(c, s', k) { assert SharedOk(c, s, k); }
    }
  }

  lemma AddPageFrames(c: Config, s: Frames, d: nat, i: nat, j: nat, f: nat, w: nat, s': Frames)
    requires AddedPage(c, s, d, i, j, f, w, s') && Sized(c, s')
    ensures FramesOk(c, s')
  {
    assert DirEntryOk(c, s, d, i);
    FreeStays(c, s, c, s');
    forall g: nat | g in s'.place ensures FrameOk(c, s', g) { assert FrameOk(c, s, g); }
  }

  lemma AddPageTables(c: Config, s: Frames, d: nat, i: nat, j: nat, f: nat, w: nat, s': Frames)
    requires AddedPage(c, s, d, i, j, f, w, s') && Sized(c, s')
    ensures TablesOk(c, s')
  {
    assert DirEntryOk(c, s, d, i);
    forall u: nat, k: nat | u in s'.place && s'.place[u].Table? && k < ENTRIES ensures TableEntryOk(c, s', u, k) {
      assert TableEntryOk(c, s, u, k);
    }
  }

  /** Special page (i, j) of `d` is mapped to itself. */
  ghost predicate AddedSpecial(c: Config, s: Frames, d: nat, i: nat, j: nat, w: nat, s': Frames) {
    && CanAddPage(c, s, d, i, j) && Special(c, i, j)
    && Present(w) && FrameOf(w) == PageNumber(i, j) && Bits(w) == 3
    && s' == SetEntry(s, d, i, j, w)
  }

  lemma AddSpecialKeepsInv(c: Config, s: Frames, d: nat, i: nat, j: nat, w: nat, s': Frames)
    requires AddedSpecial(c, s, d, i, j, w, s')
    ensures Inv(c, s')
  {
    assert DirEntryOk(c, s, d, i);
    assert ListsOk(s') by { FreeStays(c, s, c, s'); }
    AddSpecialFrames(c, s, d, i, j, w, s');
    AddSpecialTables(c, s, d, i, j, w, s');
    assert LowOk(c, s') by {
      forall k: nat | k < ENTRIES ensures SharedOk(c, s', k) { assert SharedOk(c, s, k); }
    }
  }

  lemma AddSpecialFrames(c: Config, s: Frames, d: nat, i: nat, j: nat, w: nat, s': Frames)
    requires AddedSpecial(c, s, d, i, j, w, s') && Sized(c, s')
    ensures FramesOk(c, s')
  {
    assert DirEntryOk(c, s, d, i);
    FreeStays(c, s, c, s');
    forall g: nat | g in s'.place ensures FrameOk(c, s', g) { assert FrameOk(c, s, g); }
  }

  lemma AddSpecialTables(c: Config, s: Frames, d: nat, i: nat, j: nat, w: nat, s': Frames)
    requires AddedSpecial(c, s, d, i, j, w, s') && Sized(c, s')
    ensures DirectoriesOk(c, s') && TablesOk(c, s')
  {
    assert DirEntryOk(c, s, d, i);
    forall e: nat, k: nat | IsDirectory(s', e) && k < ENTRIES ensures DirEntryOk(c, s', e, k) {
      assert DirEntryOk(c, s, e, k);
    }
    forall e: nat | e in s'.place ensures ApicsOk(c, s', e) { ApicsStay(c, s, s', e); }
    forall u: nat, k: nat | u in s'.place && s'.place[u].Table? && k < ENTRIES ensures TableEntryOk(c, s', u, k) {
      assert TableEntryOk(c, s, u, k);
    }
  }

  /** Page (i, j) of `d`, at `f`, is unmapped, and its frame is in hand. */
  ghost predicate DroppedPage(c: Config, s: Frames, d: nat, i: nat, j: nat, f: nat, s': Frames) {
    && Inv(c, s) && f in s.place && s.place[f] == Data(d, i, j)
    && d < |s.mem| && i < ENTRIES && j < ENTRIES && FrameOf(s.mem[d][i]) < |s.mem|
    && s' == SetEntry(s, d, i, j, 0).(place := s.place[f := Loose])
  }

  lemma DropPageKeepsInv(c: Config, s: Frames, d: nat, i: nat, j: nat, f: nat, s': Frames)
    requires DroppedPage(c, s, d, i, j, f, s')
    ensures Inv(c, s')
  {
    assert FrameOk(c, s, f) && DirEntryOk(c, s, d, i);
    assert FramesOk(c, s') by { DropPageFrames(c, s, d, i, j, f, s'); }
    assert ListsOk(s') by { FreeStays(c, s, c, s'); }
    assert TablesOk(c, s') by { DropPageTables(c, s, d, i, j, f, s'); }
    assert DirectoriesOk(c, s') by {
      forall e: nat, k: nat | IsDirectory(s', e) && k < ENTRIES ensures DirEntryOk(c, s', e, k) {
        assert DirEntryOk(c, s, e, k);
      }
      forall e: nat | e in s'.place ensures ApicsOk(c, s', e) { DropPageApics(c, s, d, i, j, f, s', e); }
    }
    assert LowOk(c, s') by {
      forall k: nat | k < ENTRIES ensures SharedOk(c, s', k) { assert SharedOk(c, s, k); }
    }
  }

  lemma DropPageFrames(c: Config, s: Frames, d: nat, i: nat, j: nat, f: nat, s': Frames)
    requires DroppedPage(c, s, d, i, j, f, s') && Sized(c, s')
    ensures FramesOk(c, s')
  {
    assert FrameOk(c, s, f) && DirEntryOk(c, s, d, i);
    FreeStays(c, s, c, s');
    forall g: nat | g in s'.place ensures FrameOk(c, s', g) { assert FrameOk(c, s, g); }
  }

  lemma DropPageTables(c: Config, s: Frames, d: nat, i: nat, j: nat, f: nat, s': Frames)
    requires DroppedPage(c, s, d, i, j, f, s') && Sized(c, s')
    ensures TablesOk(c, s')
  {
    assert FrameOk(c, s, f);
    forall u: nat, k: nat | u in s'.place && s'.place[u].Table? && k < ENTRIES ensures TableEntryOk(c, s', u, k) {
      assert TableEntryOk(c, s, u, k) && FrameOk(c, s, u);
    }
  }

  lemma DropPageApics(c: Config, s: Frames, d: nat, i: nat, j: nat, f: nat, s': Frames, e: nat)
    requires DroppedPage(c, s, d, i, j, f, s') && Sized(c, s') && e in s'.place
    ensures ApicsOk(c, s', e)
  {
    assert FrameOk(c, s, f) && ApicsOk(c, s, e);
    if s'.place[e] == Directory(true) {
      var a, b := c.ioApic / ENTRIES, c.localApic / ENTRIES;
      assert DirEntryOk(c, s, e, a) && DirEntryOk(c, s, e, b);
      assert PageNumber(a, c.ioApic % ENTRIES) == c.ioApic && PageNumber(b, c.localApic % ENTRIES) == c.localApic;
    }
  }

  /** Table `i` of `d`, when it maps nothing and is not needed for the APICs,
      is unhooked and in hand. */
  ghost predicate DroppedTable(c: Config, s: Frames, d: nat, i: nat, t: nat, s': Frames) {
    && Inv(c, s) && t in s.place && s.place[t] == Table(d, i) && i < ENTRIES && d < |s.mem| && t < |s.mem|
    && (forall j: nat | j < ENTRIES :: !Present(s.mem[t][j]))
    && i != c.ioApic / ENTRIES && i != c.localApic / ENTRIES
    && s' == s.(mem := s.mem[d := s.mem[d][i := 0]], place := s.place[t := Loose])
  }

  lemma DropTableKeepsInv(c: Config, s: Frames, d: nat, i: nat, t: nat, s': Frames)
    requires DroppedTable(c, s, d, i, t, s')
    ensures Inv(c, s')
  {
    assert FrameOk(c, s, t);
    assert FramesOk(c, s') by {
      FreeStays(c, s, c, s');
      forall g: nat | g in s'.place ensures FrameOk(c, s', g) { assert FrameOk(c, s, g); }
    }
    assert ListsOk(s') by { FreeStays(c, s, c, s'); }
    DropTableDirectories(c, s, d, i, t, s');
    assert TablesOk(c, s') by {
      forall u: nat, k: nat | u in s'.place && s'.place[u].Table? && k < ENTRIES ensures TableEntryOk(c, s', u, k) {
        assert TableEntryOk(c, s, u, k);
      }
    }
    assert LowOk(c, s') by {
      forall k: nat | k < ENTRIES ensures SharedOk(c, s', k) { assert SharedOk(c, s, k); }
    }
  }

  lemma DropTableDirectories(c: Config, s: Frames, d: nat, i: nat, t: nat, s': Frames)
    requires DroppedTable(c, s, d, i, t, s') && Sized(c, s')
    ensures DirectoriesOk(c, s')
  {
    assert FrameOk(c, s, t);
    forall e: nat, k: nat | IsDirectory(s', e) && k < ENTRIES ensures DirEntryOk(c, s', e, k) {
      assert DirEntryOk(c, s, e, k);
    }
    forall e: nat | e in s'.place ensures ApicsOk(c, s', e) {
      assert ApicsOk(c, s, e);
      if s.place[e] == Directory(true) {
        assert DirEntryOk(c, s, e, c.ioApic / ENTRIES) && DirEntryOk(c, s, e, c.localApic / ENTRIES);
      }
    }
  }
}
