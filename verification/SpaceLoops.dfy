/** What the loops over rows and pages of a directory have done so far. */
module SpaceLoops {
  import opened FrameModel
  import opened FrameSteps
  import opened TableSteps
  import opened LowSteps
  import opened SpaceModel
  import opened SpaceSteps

  /** Page (k, l) comes before (i, j). */
  ghost predicate Before(k: nat, l: nat, i: nat, j: nat) {
    k < i || (k == i && l < j)
  }

  ghost predicate ClearedView(c: Config, s: Frames, s': Frames, d: nat, i: nat, j: nat, k: nat, l: nat) {
    Private(c, k, l) ==> View(s', d, k, l) == if Before(k, l, i, j) then Unmapped else View(s, d, k, l)
  }

  /** The own pages of `d` before (i, j) are unmapped, the others as they were. */
  ghost predicate Cleared(c: Config, s: Frames, s': Frames, d: nat, i: nat, j: nat) {
    forall k: nat, l: nat {:trigger ClearedView(c, s, s', d, i, j, k, l)} :: ClearedView(c, s, s', d, i, j, k, l)
  }

  ghost predicate RowClearedView(c: Config, s: Frames, s': Frames, d: nat, i: nat, j: nat, k: nat, l: nat) {
    Private(c, k, l) ==> View(s', d, k, l) == if k == i && l < j then Unmapped else View(s, d, k, l)
  }

  /** The own pages of row `i` before (i, j) are unmapped, the others as they were. */
  ghost predicate RowCleared(c: Config, s: Frames, s': Frames, d: nat, i: nat, j: nat) {
    forall k: nat, l: nat {:trigger RowClearedView(c, s, s', d, i, j, k, l)} :: RowClearedView(c, s, s', d, i, j, k, l)
  }

  /** One of the first `j` pages of row `i` is an APIC page. */
  ghost predicate SpecialBefore(c: Config, i: nat, j: nat) {
    exists l: nat :: l < j && (PageNumber(i, l) == c.ioApic || PageNumber(i, l) == c.localApic)
  }

  lemma SpecialInRow(c: Config, i: nat)
    ensures SpecialBefore(c, i, ENTRIES) <==> SpecialRow(c, i)
  {
    if i == c.ioApic / ENTRIES { assert PageNumber(i, c.ioApic % ENTRIES) == c.ioApic; }
    if i == c.localApic / ENTRIES { assert PageNumber(i, c.localApic % ENTRIES) == c.localApic; }
  }

  lemma RowUncleared(c: Config, s: Frames, d: nat, i: nat)
    ensures RowCleared(c, s, s, d, i, 0)
  {
    forall k: nat, l: nat ensures RowClearedView(c, s, s, d, i, 0, k, l) {}
  }

  /** The next page of the row: unmapped, or not mapped or not own in the first place. */
  lemma RowClearedNext(c: Config, s: Frames, m: Frames, s': Frames, d: nat, i: nat, j: nat, n: nat)
    requires Inv(c, m) && IsDirectory(m, d) && RowCleared(c, s, m, d, i, j) && j < ENTRIES && PRIVATE <= i < ENTRIES &&
             n == j + 1
    requires (s' == m && (Special(c, i, j) || !MappedAt(m, d, i, j))) || PutViews(c, m, s', d, i, j, Unmapped)
    ensures RowCleared(c, s, s', d, i, n)
    ensures SpecialBefore(c, i, n) <==> SpecialBefore(c, i, j) || Special(c, i, j)
  {
    if Private(c, i, j) { NotMapped(c, m, d, i, j); }
    forall k: nat, l: nat ensures RowClearedView(c, s, s', d, i, n, k, l) {
      assert RowClearedView(c, s, m, d, i, j, k, l);
      if PutViews(c, m, s', d, i, j, Unmapped) { assert PutView(c, m, s', d, i, j, Unmapped, k, l); }
    }
  }

  lemma RowClearedThen(c: Config, s: Frames, m: Frames, s': Frames, d: nat, i: nat)
    requires RowCleared(c, s, m, d, i, ENTRIES) && SameViews(c, m, s', d)
    ensures RowCleared(c, s, s', d, i, ENTRIES)
  {
    forall k: nat, l: nat ensures RowClearedView(c, s, s', d, i, ENTRIES, k, l) {
      assert RowClearedView(c, s, m, d, i, ENTRIES, k, l) && SameView(c, m, s', d, k, l);
    }
  }

  /** A cleared table without an APIC page maps nothing. */
  lemma RowEmpty(c: Config, s: Frames, m: Frames, d: nat, i: nat)
    requires Inv(c, m) && IsDirectory(m, d) && d < |m.mem| && PRIVATE <= i < ENTRIES &&
             RowCleared(c, s, m, d, i, ENTRIES)
    requires Present(m.mem[d][i]) && !SpecialRow(c, i)
    ensures FrameOf(m.mem[d][i]) in m.place && m.place[FrameOf(m.mem[d][i])] == Table(d, i) &&
            FrameOf(m.mem[d][i]) < |m.mem|
    ensures forall j: nat | j < ENTRIES :: !Present(m.mem[FrameOf(m.mem[d][i])][j])
  {
    assert DirEntryOk(c, m, d, i);
    forall j: nat | j < ENTRIES ensures !Present(m.mem[FrameOf(m.mem[d][i])][j]) {
      assert PageNumber(i, j) / ENTRIES == i;
      assert RowClearedView(c, s, m, d, i, ENTRIES, i, j);
      NotMapped(c, m, d, i, j);
    }
  }

  lemma NothingCleared(c: Config, s: Frames, d: nat)
    ensures Cleared(c, s, s, d, PRIVATE, 0)
  {
    forall k: nat, l: nat ensures ClearedView(c, s, s, d, PRIVATE, 0, k, l) {}
  }

  /** The next row: cleared, or without a table. */
  lemma ClearedRow(c: Config, s: Frames, m: Frames, s': Frames, d: nat, i: nat, n: nat)
    requires Cleared(c, s, m, d, i, 0) && PRIVATE <= i < ENTRIES && n == i + 1
    requires (s' == m && d < |m.mem| && !Present(m.mem[d][i])) || RowCleared(c, m, s', d, i, ENTRIES)
    ensures Cleared(c, s, s', d, n, 0)
  {
    forall k: nat, l: nat ensures ClearedView(c, s, s', d, n, 0, k, l) {
      assert ClearedView(c, s, m, d, i, 0, k, l);
      if RowCleared(c, m, s', d, i, ENTRIES) { assert RowClearedView(c, m, s', d, i, ENTRIES, k, l); }
    }
  }

  /** The process writes one of its own pages. */
  lemma WriteMoves(c: Config, s: Frames, d: nat, i: nat, j: nat, f: nat, page: Page, s': Frames)
    requires Inv(c, s) && Whole(s) && IsDirectory(s, d) && Private(c, i, j) && MappedAt(s, d, i, j)
    requires f == PageAt(s, d, i, j) && f < |s.mem| && s' == s.(mem := s.mem[f := page])
    ensures Moves(c, s, s', d) && PutViews(c, s, s', d, i, j, Mapped(page)) && Whole(s')
  {
    OwnPage(c, s, d, i, j);
    WriteKeepsInv(c, s, f, page, s');
    assert RoleKept(s, s', d);
    forall g: nat ensures Kept(s, s', d, g) {}
    forall k: nat, l: nat ensures PutView(c, s, s', d, i, j, Mapped(page), k, l) {
      if Private(c, k, l) { WriteView(c, s, d, i, j, f, page, s', k, l); }
    }
  }

  lemma WriteView(c: Config, s: Frames, d: nat, i: nat, j: nat, f: nat, page: Page, s': Frames, k: nat, l: nat)
    requires Inv(c, s) && IsDirectory(s, d) && Private(c, i, j) && MappedAt(s, d, i, j) && Private(c, k, l)
    requires f == PageAt(s, d, i, j) && f < |s.mem| && s' == s.(mem := s.mem[f := page])
    ensures View(s', d, k, l) == if (k, l) == (i, j) then Mapped(page) else View(s, d, k, l)
  {
    OwnPage(c, s, d, i, j);
    assert DirEntryOk(c, s, d, k);
    if MappedAt(s, d, k, l) { OwnPage(c, s, d, k, l); }
  }

  ghost predicate CopiedView(c: Config, s: Frames, s': Frames, d: nat, e: nat, i: nat, j: nat, k: nat, l: nat) {
    Private(c, k, l) ==> View(s', e, k, l) == if Before(k, l, i, j) then View(s, d, k, l) else Unmapped
  }

  /** Space `e` shows what `d` showed before (i, j), and nothing further. */
  ghost predicate Copied(c: Config, s: Frames, s': Frames, d: nat, e: nat, i: nat, j: nat) {
    forall k: nat, l: nat {:trigger CopiedView(c, s, s', d, e, i, j, k, l)} :: CopiedView(c, s, s', d, e, i, j, k, l)
  }

  /** After both APIC pages the new space is finished, and still has no pages of its own. */
  lemma FinishSpace(c: Config, s: Frames, b: Frames, e: Frames, g: Frames, s': Frames, d: nat)
    requires Inv(c, s) && KeptOutside(s, b, d) && Moves(c, b, e, d) && Moves(c, e, g, d) && SameViews(c, b, e, d) &&
             SameViews(c, e, g, d)
    requires Whole(g) && d in g.place && g.place[d] == Directory(false)
    requires forall k: nat, l: nat {:trigger MappedAt(b, d, k, l)} | PRIVATE <= k :: !MappedAt(b, d, k, l)
    requires MappedAt(e, d, c.ioApic / ENTRIES, c.ioApic % ENTRIES) &&
             MappedAt(g, d, c.localApic / ENTRIES, c.localApic % ENTRIES)
    requires MappedSame(e, g, d, c.localApic / ENTRIES, c.localApic % ENTRIES)
    requires s' == g.(place := g.place[d := Directory(true)])
    ensures Inv(c, s') && KeptOutside(s, s', d) && Whole(s')
    ensures forall k: nat, l: nat {:trigger View(s', d, k, l)} | Private(c, k, l) :: View(s', d, k, l) == Unmapped
  {
    KeptTwice(c, s, b, e, d);
    KeptTwice(c, s, e, g, d);
    FinishDirectoryKeepsInv(c, g, d, s');
    forall f: nat ensures Kept(g, s', d, f) {}
    KeptTwice(c, s, g, s', d);
    SameTwice(c, b, e, g, d);
    forall k: nat, l: nat | Private(c, k, l) ensures View(s', d, k, l) == Unmapped {
      assert !MappedAt(b, d, k, l) && SameView(c, b, g, d, k, l);
      assert View(s', d, k, l) == View(g, d, k, l);
    }
  }

  // ---------------------------------------------------------------------
  // Copying
  // ---------------------------------------------------------------------

  ghost predicate RowCopiedView(c: Config, s: Frames, s': Frames, d: nat, e: nat, i: nat, j: nat, k: nat, l: nat) {
    Private(c, k, l) ==> View(s', e, k, l) == if k == i && l < j then View(s, d, k, l) else View(s, e, k, l)
  }

  /** Space `e` shows what `d` showed in row `i` before (i, j), and is otherwise as it was. */
  ghost predicate RowCopied(c: Config, s: Frames, s': Frames, d: nat, e: nat, i: nat, j: nat) {
    forall k: nat, l: nat {:trigger RowCopiedView(c, s, s', d, e, i, j, k, l)} ::
      RowCopiedView(c, s, s', d, e, i, j, k, l)
  }

  /** Row `i` of `e` has no own pages. */
  ghost predicate RowBlank(c: Config, s: Frames, e: nat, i: nat) {
    forall l: nat {:trigger View(s, e, i, l)} | Private(c, i, l) :: View(s, e, i, l) == Unmapped
  }

  lemma RowUncopied(c: Config, s: Frames, s': Frames, d: nat, e: nat, i: nat)
    requires SameViews(c, s, s', e)
    ensures RowCopied(c, s, s', d, e, i, 0)
  {
    forall k: nat, l: nat ensures RowCopiedView(c, s, s', d, e, i, 0, k, l) {
      assert SameView(c, s, s', e, k, l);
    }
  }

  /** An empty page of the copy is to be filled only if it is an own page. */
  lemma OwnToCopy(c: Config, s: Frames, m: Frames, d: nat, e: nat, i: nat, j: nat)
    requires Inv(c, s) && Inv(c, m) && Moves(c, s, m, e) && IsDirectory(s, d) && d != e && m.place[e] == Directory(true)
    requires PRIVATE <= i < ENTRIES && j < ENTRIES && RowBlank(c, s, e, i) && RowCopied(c, s, m, d, e, i, j)
    ensures !Special(c, i, j) ==> !MappedAt(m, e, i, j)
    ensures Special(c, i, j) ==> MappedAt(m, e, i, j)
    ensures d in m.place && m.place[d] == s.place[d] && d < |m.mem| && m.mem[d] == s.mem[d]
    ensures !Special(c, i, j) ==> View(m, d, i, j) == View(s, d, i, j)
  {
    assert Kept(s, m, e, d) && Outside(s, e, d);
    assert RowCopiedView(c, s, m, d, e, i, j, i, j);
    if Special(c, i, j) {
      SpecialPages(c, m, e, i, j);
    } else {
      NotMapped(c, m, e, i, j);
      OthersSeeNothing(c, s, m, e, d, i, j);
    }
  }

  /** The next page of the row: copied, or with nothing to copy. */
  lemma RowCopiedNext(c: Config, s: Frames, m: Frames, s': Frames, d: nat, e: nat, i: nat, j: nat, n: nat)
    requires Inv(c, s) && Inv(c, m) && Moves(c, s, m, e) && IsDirectory(s, d) && d != e && m.place[e] == Directory(true)
    requires PRIVATE <= i < ENTRIES && j < ENTRIES && RowBlank(c, s, e, i) && RowCopied(c, s, m, d, e, i, j) &&
             n == j + 1
    requires (s' == m && (Special(c, i, j) || !MappedAt(m, d, i, j))) || PutViews(c, m, s', e, i, j, View(m, d, i, j))
    ensures RowCopied(c, s, s', d, e, i, n)
  {
    OwnToCopy(c, s, m, d, e, i, j);
    if Private(c, i, j) { NotMapped(c, m, d, i, j); }
    forall k: nat, l: nat ensures RowCopiedView(c, s, s', d, e, i, n, k, l) {
      assert RowCopiedView(c, s, m, d, e, i, j, k, l);
      if PutViews(c, m, s', e, i, j, View(m, d, i, j)) { assert PutView(c, m, s', e, i, j, View(m, d, i, j), k, l); }
    }
  }

  /** Before the first row, in a new space. */
  lemma NothingCopied(c: Config, s: Frames, s': Frames, d: nat, e: nat)
    requires forall k: nat, l: nat {:trigger View(s', e, k, l)} | Private(c, k, l) :: View(s', e, k, l) == Unmapped
    ensures Copied(c, s, s', d, e, PRIVATE, 0)
  {
    forall k: nat, l: nat ensures CopiedView(c, s, s', d, e, PRIVATE, 0, k, l) {}
  }

  lemma RowStillBlank(c: Config, s: Frames, m: Frames, d: nat, e: nat, i: nat)
    requires Copied(c, s, m, d, e, i, 0)
    ensures RowBlank(c, m, e, i)
  {
    forall l: nat | Private(c, i, l) ensures View(m, e, i, l) == Unmapped {
      assert CopiedView(c, s, m, d, e, i, 0, i, l);
    }
  }

  /** The next row: copied, or without a table. */
  lemma CopiedRow(c: Config, s: Frames, m: Frames, s': Frames, d: nat, e: nat, i: nat, n: nat)
    requires Inv(c, s) && Inv(c, m) && KeptOutside(s, m, e) && IsDirectory(s, d) && d != e && IsDirectory(m, e)
    requires Copied(c, s, m, d, e, i, 0) && PRIVATE <= i < ENTRIES && n == i + 1
    requires (s' == m && d < |m.mem| && !Present(m.mem[d][i])) || RowCopied(c, m, s', d, e, i, ENTRIES)
    ensures Copied(c, s, s', d, e, n, 0)
  {
    forall k: nat, l: nat ensures CopiedView(c, s, s', d, e, n, 0, k, l) {
      assert CopiedView(c, s, m, d, e, i, 0, k, l);
      if Private(c, k, l) { OthersSeeNothing(c, s, m, e, d, k, l); }
      if RowCopied(c, m, s', d, e, i, ENTRIES) { assert RowCopiedView(c, m, s', d, e, i, ENTRIES, k, l); }
    }
  }

  // ---------------------------------------------------------------------
  // Giving up a space
  // ---------------------------------------------------------------------

  /** A frame with this place is given back before the loop reaches page (i, j). */
  ghost predicate Passed(p: Place, i: nat, j: nat) {
    match p
    case Data(_, k, l) => Before(k, l, i, j)
    case Table(_, k) => k < i
    case _ => false
  }

  /** A frame of the space is free once passed, and in hand as it was before;
      no other frame is in hand. */
  ghost predicate Fate(s: Frames, s': Frames, d: nat, i: nat, j: nat, f: nat) {
    && !Within(s', f, d)
    && (if Within(s, f, d) then
          && f in s'.place && f < |s.mem| && f < |s'.mem|
          && if Passed(s.place[f], i, j) then s'.place[f].Free? else s'.place[f] == Loose && s'.mem[f] == s.mem[f]
        else
          f in s'.place ==> s'.place[f] != Loose)
  }

  ghost predicate Returning(c: Config, s: Frames, s': Frames, d: nat, i: nat, j: nat) {
    && Inv(c, s) && Inv(c, s') && KeptOutside(s, s', d) && IsDirectory(s, d)
    && forall f: nat {:trigger Fate(s, s', d, i, j, f)} :: Fate(s, s', d, i, j, f)
  }

  lemma DoomedReturning(c: Config, s: Frames, d: nat, s': Frames)
    requires Inv(c, s) && Whole(s) && IsDirectory(s, d) && s' == Doomed(s, d)
    ensures Returning(c, s, s', d, PRIVATE, 0)
  {
    DoomedKeepsInv(c, s, d, s');
    forall f: nat ensures Kept(s, s', d, f) {}
    forall f: nat ensures Fate(s, s', d, PRIVATE, 0, f) {
      if f in s.place { assert FrameOk(c, s, f); }
    }
  }

  /** The words of the directory, and of a table not passed, are still there. */
  lemma StillThere(c: Config, s: Frames, s': Frames, d: nat, i: nat, j: nat)
    requires Returning(c, s, s', d, i, j) && PRIVATE <= i < ENTRIES
    ensures d < |s.mem| && d < |s'.mem| && s'.mem[d] == s.mem[d]
    ensures Present(s.mem[d][i]) ==> var t := FrameOf(s.mem[d][i]);
      Within(s, t, d) && s.place[t] == Table(d, i) && t < |s.mem| && t < |s'.mem| && s'.mem[t] == s.mem[t]
  {
    assert Within(s, d, d) && Fate(s, s', d, i, j, d) && DirEntryOk(c, s, d, i);
    if Present(s.mem[d][i]) { assert Fate(s, s', d, i, j, FrameOf(s.mem[d][i])); }
  }

  /** Giving back frame `f` takes the loop from (i, j) to (k, l). */
  lemma ReturnOne(c: Config, s: Frames, m: Frames, f: nat, s': Frames, d: nat, i: nat, j: nat, k: nat, l: nat)
    requires Returning(c, s, m, d, i, j) && Within(s, f, d) && f in m.place && m.place[f] == Loose
    requires Passed(s.place[f], k, l) && s' == Dealloc(c, m, f)
    requires forall g: nat | Within(s, g, d) && g != f :: Passed(s.place[g], i, j) <==> Passed(s.place[g], k, l)
    ensures Returning(c, s, s', d, k, l)
  {
    DeallocKeepsInv(c, m, f, s');
    forall g: nat ensures Fate(s, s', d, k, l, g) { assert Fate(s, m, d, i, j, g) && (g != f ==> Same(m, s', g)); }
    forall g: nat ensures Kept(s, s', d, g) {
      assert Kept(s, m, d, g) && Fate(s, m, d, i, j, g) && (g != f ==> Same(m, s', g));
    }
  }

  /** With nothing to give back between (i, j) and (k, l). */
  lemma ReturnNone(c: Config, s: Frames, m: Frames, d: nat, i: nat, j: nat, k: nat, l: nat)
    requires Returning(c, s, m, d, i, j)
    requires forall g: nat | Within(s, g, d) :: Passed(s.place[g], i, j) <==> Passed(s.place[g], k, l)
    ensures Returning(c, s, m, d, k, l)
  {
    forall g: nat ensures Fate(s, m, d, k, l, g) { assert Fate(s, m, d, i, j, g); }
  }

  /** The page at (i, j), if it is an own page. */
  lemma ReturnPage(c: Config, s: Frames, m: Frames, f: nat, s': Frames, d: nat, i: nat, j: nat, n: nat)
    requires Returning(c, s, m, d, i, j) && PRIVATE <= i < ENTRIES && j < ENTRIES && n == j + 1
    requires if Private(c, i, j) && MappedAt(s, d, i, j)
             then f == PageAt(s, d, i, j) && f in m.place && m.place[f] == Loose && s' == Dealloc(c, m, f)
             else s' == m
    ensures Returning(c, s, s', d, i, n)
  {
    forall g: nat | Within(s, g, d)
      ensures s.place[g] == Data(d, i, j) || (Passed(s.place[g], i, j) <==> Passed(s.place[g], i, n)) {}
    if Private(c, i, j) && MappedAt(s, d, i, j) {
      OwnPage(c, s, d, i, j);
      forall g: nat | Within(s, g, d) && g != f ensures s.place[g] != Data(d, i, j) { assert FrameOk(c, s, g); }
      ReturnOne(c, s, m, f, s', d, i, j, i, n);
    } else {
      forall g: nat | Within(s, g, d) ensures s.place[g] != Data(d, i, j) { assert FrameOk(c, s, g); }
      ReturnNone(c, s, m, d, i, j, i, n);
    }
  }

  /** The table of row `i` after its pages. */
  lemma ReturnTable(c: Config, s: Frames, m: Frames, t: nat, s': Frames, d: nat, i: nat, n: nat)
    requires Returning(c, s, m, d, i, ENTRIES) && PRIVATE <= i < ENTRIES && n == i + 1 && d < |s.mem| &&
             Present(s.mem[d][i])
    requires t == FrameOf(s.mem[d][i]) && t in m.place && m.place[t] == Loose && s' == Dealloc(c, m, t)
    ensures Returning(c, s, s', d, n, 0)
  {
    assert DirEntryOk(c, s, d, i);
    forall g: nat | Within(s, g, d) && g != t ensures Passed(s.place[g], i, ENTRIES) <==> Passed(s.place[g], n, 0) {
      assert FrameOk(c, s, g);
    }
    ReturnOne(c, s, m, t, s', d, i, ENTRIES, n, 0);
  }

  /** A row without a table. */
  lemma ReturnEmptyRow(c: Config, s: Frames, m: Frames, d: nat, i: nat, n: nat)
    requires Returning(c, s, m, d, i, 0) && PRIVATE <= i < ENTRIES && n == i + 1 && d < |s.mem| && !Present(s.mem[d][i])
    ensures Returning(c, s, m, d, n, 0)
  {
    forall g: nat | Within(s, g, d) ensures Passed(s.place[g], i, 0) <==> Passed(s.place[g], n, 0) {
      assert FrameOk(c, s, g);
    }
    ReturnNone(c, s, m, d, i, 0, n, 0);
  }

  ghost predicate Gone(s: Frames, s': Frames, d: nat, f: nat) {
    (Within(s, f, d) ==> f in s'.place && s'.place[f].Free?) && !Within(s', f, d)
  }

  /** Every frame of space `d` is back on the list, and nothing is left of the space. */
  ghost predicate Returned(s: Frames, s': Frames, d: nat) {
    forall f: nat {:trigger Gone(s, s', d, f)} :: Gone(s, s', d, f)
  }

  /** The directory last. */
  lemma ReturnDirectory(c: Config, s: Frames, m: Frames, s': Frames, d: nat)
    requires Returning(c, s, m, d, ENTRIES, 0) && d in m.place && m.place[d] == Loose && s' == Dealloc(c, m, d)
    ensures Inv(c, s') && KeptOutside(s, s', d) && Returned(s, s', d) && Whole(s')
  {
    DeallocKeepsInv(c, m, d, s');
    forall g: nat ensures Kept(s, s', d, g) {
      assert Kept(s, m, d, g) && Fate(s, m, d, ENTRIES, 0, g) && (g != d ==> Same(m, s', g));
    }
    forall g: nat ensures Gone(s, s', d, g) {
      assert Fate(s, m, d, ENTRIES, 0, g) && (g != d ==> Same(m, s', g));
      if Within(s, g, d) { assert FrameOk(c, s, g); }
    }
    forall g: nat | g in s'.place ensures s'.place[g] != Loose {
      assert Fate(s, m, d, ENTRIES, 0, g) && (g != d ==> Same(m, s', g));
      if Within(s, g, d) { assert FrameOk(c, s, g); }
    }
  }
}
