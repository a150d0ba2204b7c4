/** The effect of mapping, filling and unmapping on one space, on the others,
    and on the frames in hand. */
module SpaceSteps {
  import opened FrameModel
  import opened FrameSteps
  import opened TableSteps
  import opened LowSteps
  import opened SpaceModel

  // ---------------------------------------------------------------------
  // Views as a whole
  // ---------------------------------------------------------------------

  ghost predicate SameView(c: Config, s: Frames, s': Frames, d: nat, k: nat, l: nat) {
    Private(c, k, l) ==> View(s', d, k, l) == View(s, d, k, l)
  }

  /** Space `d` shows the same. */
  ghost predicate SameViews(c: Config, s: Frames, s': Frames, d: nat) {
    forall k: nat, l: nat {:trigger SameView(c, s, s', d, k, l)} :: SameView(c, s, s', d, k, l)
  }

  ghost predicate PutView(c: Config, s: Frames, s': Frames, d: nat, i: nat, j: nat, v: Content, k: nat, l: nat) {
    Private(c, k, l) ==> View(s', d, k, l) == if (k, l) == (i, j) then v else View(s, d, k, l)
  }

  /** Space `d` shows `v` at page (i, j), and the same elsewhere. */
  ghost predicate PutViews(c: Config, s: Frames, s': Frames, d: nat, i: nat, j: nat, v: Content) {
    forall k: nat, l: nat {:trigger PutView(c, s, s', d, i, j, v, k, l)} :: PutView(c, s, s', d, i, j, v, k, l)
  }

  /** Space `d` goes from `s` to `s'`: the invariant holds, the directory is as
      finished as before, and nothing outside is touched. */
  ghost predicate Moves(c: Config, s: Frames, s': Frames, d: nat) {
    match s'
    case Frames(_, _, _, place) =>
      && Inv(c, s) && Inv(c, s') && IsDirectory(s, d) && IsDirectory(s', d) && place[d] == s.place[d]
      && KeptOutside(s, s', d)
  }

  lemma MovesTwice(c: Config, s: Frames, m: Frames, s': Frames, d: nat)
    requires Moves(c, s, m, d) && Moves(c, m, s', d)
    ensures Moves(c, s, s', d)
  {
    KeptTwice(c, s, m, s', d);
  }

  lemma SameTwice(c: Config, s: Frames, m: Frames, s': Frames, d: nat)
    requires SameViews(c, s, m, d) && SameViews(c, m, s', d)
    ensures SameViews(c, s, s', d)
  {
    forall k: nat, l: nat ensures SameView(c, s, s', d, k, l) {
      assert SameView(c, s, m, d, k, l) && SameView(c, m, s', d, k, l);
    }
  }

  lemma SamePut(c: Config, s: Frames, m: Frames, s': Frames, d: nat, i: nat, j: nat, v: Content)
    requires SameViews(c, s, m, d) && PutViews(c, m, s', d, i, j, v)
    ensures PutViews(c, s, s', d, i, j, v)
  {
    forall k: nat, l: nat ensures PutView(c, s, s', d, i, j, v, k, l) {
      assert SameView(c, s, m, d, k, l) && PutView(c, m, s', d, i, j, v, k, l);
    }
  }

  // ---------------------------------------------------------------------
  // The steps
  // ---------------------------------------------------------------------

  lemma AllocMoves(c: Config, s: Frames, s': Frames, f: nat, d: nat, hand: set<nat>)
    requires Inv(c, s) && !Exhausted(c, s) && (s', f) == Alloc(c, s) && IsDirectory(s, d) && InHand(s, hand)
    ensures Moves(c, s, s', d) && SameViews(c, s, s', d) && InHand(s', hand + {f})
    ensures f in s'.place && s'.place[f] == Loose && s'.mem[f] == ZeroWords(ENTRIES) && f < |s'.mem|
    ensures s'.mem[d] == s.mem[d]
  {
    AllocKeepsInv(c, s, s', f);
    assert Same(s, s', d);
    forall g: nat ensures Kept(s, s', d, g) { assert g != f ==> Same(s, s', g); }
    forall g: nat | Within(s, g, d) ensures Same(s, s', g) {}
    forall k: nat, l: nat ensures SameView(c, s, s', d, k, l) {
      if Private(c, k, l) { ViewStays(c, s, s', d, k, l); }
    }
    forall g: nat | g in s'.place && s'.place[g].Loose? ensures g in hand + {f} { assert g != f ==> Same(s, s', g); }
  }

  lemma DeallocMoves(c: Config, s: Frames, s': Frames, f: nat, d: nat, hand: set<nat>)
    requires Inv(c, s) && f in s.place && s.place[f] == Loose && s' == Dealloc(c, s, f) && IsDirectory(s, d) &&
             InHand(s, hand)
    ensures Moves(c, s, s', d) && SameViews(c, s, s', d) && InHand(s', hand - {f})
    ensures s'.mem[d] == s.mem[d]
  {
    DeallocKeepsInv(c, s, f, s');
    assert Same(s, s', d);
    forall g: nat ensures Kept(s, s', d, g) { assert g != f ==> Same(s, s', g); }
    forall g: nat | Within(s, g, d) ensures Same(s, s', g) {}
    forall k: nat, l: nat ensures SameView(c, s, s', d, k, l) {
      if Private(c, k, l) { ViewStays(c, s, s', d, k, l); }
    }
    forall g: nat | g in s'.place && s'.place[g].Loose? ensures g in hand - {f} { assert g != f ==> Same(s, s', g); }
  }

  /** Fill a frame in hand. */
  lemma FillMoves(c: Config, s: Frames, s': Frames, f: nat, page: Page, d: nat)
    requires Inv(c, s) && f in s.place && s.place[f] == Loose && s' == s.(mem := s.mem[f := page]) && IsDirectory(s, d)
    ensures Moves(c, s, s', d) && SameViews(c, s, s', d)
  {
    WriteKeepsInv(c, s, f, page, s');
    forall g: nat ensures Kept(s, s', d, g) {}
    forall g: nat | Within(s, g, d) ensures Same(s, s', g) {}
    forall k: nat, l: nat ensures SameView(c, s, s', d, k, l) {
      if Private(c, k, l) { ViewStays(c, s, s', d, k, l); }
    }
  }

  lemma AddTableMoves(c: Config, s: Frames, d: nat, i: nat, t: nat, w: nat, s': Frames, hand: set<nat>)
    requires CanAddTable(c, s, d, i, t) && TableEntry(c, i, t, w) && InHand(s, hand)
    requires s' == s.(mem := s.mem[d := s.mem[d][i := w]], place := s.place[t := Table(d, i)])
    ensures Moves(c, s, s', d) && SameViews(c, s, s', d) && InHand(s', hand - {t})
  {
    AddTableKeepsInv(c, s, d, i, t, w, s');
    forall g: nat ensures Kept(s, s', d, g) {}
    forall k: nat, l: nat ensures SameView(c, s, s', d, k, l) {
      if Private(c, k, l) { AddTableView(c, s, d, i, t, w, s', k, l); }
    }
  }

  lemma AddPageMoves(c: Config, s: Frames, d: nat, i: nat, j: nat, f: nat, w: nat, s': Frames, hand: set<nat>)
    requires AddedPage(c, s, d, i, j, f, w, s') && InHand(s, hand)
    ensures Moves(c, s, s', d) && PutViews(c, s, s', d, i, j, Mapped(s.mem[f])) && InHand(s', hand - {f})
  {
    AddPageKeepsInv(c, s, d, i, j, f, w, s');
    assert DirEntryOk(c, s, d, i);
    forall g: nat ensures Kept(s, s', d, g) {}
    forall k: nat, l: nat ensures PutView(c, s, s', d, i, j, Mapped(s.mem[f]), k, l) {
      if Private(c, k, l) { AddPageView(c, s, d, i, j, f, w, s', k, l); }
    }
  }

  lemma AddSpecialMoves(c: Config, s: Frames, d: nat, i: nat, j: nat, w: nat, s': Frames, hand: set<nat>)
    requires CanAddPage(c, s, d, i, j) && Special(c, i, j) && InHand(s, hand)
    requires Present(w) && FrameOf(w) == PageNumber(i, j) && Bits(w) == 3 && s' == SetEntry(s, d, i, j, w)
    ensures Moves(c, s, s', d) && SameViews(c, s, s', d) && InHand(s', hand) && MappedAt(s', d, i, j)
  {
    AddSpecialKeepsInv(c, s, d, i, j, w, s');
    assert DirEntryOk(c, s, d, i);
    forall g: nat ensures Kept(s, s', d, g) {}
    forall k: nat, l: nat ensures SameView(c, s, s', d, k, l) {
      if Private(c, k, l) { AddSpecialView(c, s, d, i, j, w, s', k, l); }
    }
  }

  lemma DropPageMoves(c: Config, s: Frames, d: nat, i: nat, j: nat, f: nat, s': Frames, hand: set<nat>)
    requires DroppedPage(c, s, d, i, j, f, s') && InHand(s, hand)
    ensures Moves(c, s, s', d) && PutViews(c, s, s', d, i, j, Unmapped) && InHand(s', hand + {f})
  {
    DropPageKeepsInv(c, s, d, i, j, f, s');
    assert FrameOk(c, s, f);
    forall g: nat ensures Kept(s, s', d, g) {}
    forall k: nat, l: nat ensures PutView(c, s, s', d, i, j, Unmapped, k, l) {
      if Private(c, k, l) { DropPageView(c, s, d, i, j, f, s', k, l); }
    }
  }

  lemma DropTableMoves(c: Config, s: Frames, d: nat, i: nat, t: nat, s': Frames, hand: set<nat>)
    requires DroppedTable(c, s, d, i, t, s') && InHand(s, hand)
    ensures Moves(c, s, s', d) && SameViews(c, s, s', d) && InHand(s', hand + {t})
  {
    DropTableKeepsInv(c, s, d, i, t, s');
    assert FrameOk(c, s, t);
    forall g: nat ensures Kept(s, s', d, g) {}
    forall k: nat, l: nat ensures SameView(c, s, s', d, k, l) {
      if Private(c, k, l) { DropTableView(c, s, d, i, t, s', k, l); }
    }
  }

  // ---------------------------------------------------------------------
  // Mapping a page, with a new table where there is none
  // ---------------------------------------------------------------------

  ghost function WithEntry(s: Frames, d: nat, i: nat, w: nat): Frames
    requires d < |s.mem| && i < ENTRIES
  {
    s.(mem := s.mem[d := s.mem[d][i := w]])
  }

  /** Mapping page (i, j) in the directory at `d` to `pa` wrote just these words. */
  ghost predicate MapWrote(c: Config, s: Frames, d: nat, i: nat, j: nat, pa: nat, t: nat, s': Frames) {
    && Inv(c, s) && d < |s.mem| && i < ENTRIES && j < ENTRIES
    && var user := !Special(c, i, j);
    if Present(s.mem[d][i]) then
      t == FrameOf(s.mem[d][i]) && t < |s.mem| && s' == SetEntry(s, d, i, j, Entry(pa, user))
    else
      && !Exhausted(c, s)
      && var (a, f) := Alloc(c, s);
      && f == t && t < |a.mem| && d < |a.mem|
      && s' == SetEntry(WithEntry(a, d, i, Entry(t, user)), d, i, j, Entry(pa, user))
  }

  /** The new table's role, where there is one. */
  ghost function Settle(s: Frames, s': Frames, d: nat, i: nat, t: nat): Frames
    requires d < |s.mem| && i < ENTRIES
  {
    if Present(s.mem[d][i]) then s' else s'.(place := s'.place[t := Table(d, i)])
  }

  /** With its table in place, if it had none. */
  lemma TableMoves(c: Config, s: Frames, d: nat, i: nat, j: nat, pa: nat, t: nat, s': Frames, hand: set<nat>)
    returns (m: Frames)
    requires MapWrote(c, s, d, i, j, pa, t, s') && IsDirectory(s, d) && PRIVATE <= i && !MappedAt(s, d, i, j) &&
             InHand(s, hand)
    requires !Present(s.mem[d][i]) ==> (Special(c, i, j) <==> SpecialRow(c, i))
    ensures Moves(c, s, m, d) && SameViews(c, s, m, d) && InHand(m, hand) && CanAddPage(c, m, d, i, j)
    ensures forall f | f in hand && f in s.place && s.place[f].Loose? ::
            f in m.place && m.place[f].Loose? && f < |s.mem| && f < |m.mem| && m.mem[f] == s.mem[f]
    ensures Settle(s, s', d, i, t) == SetEntry(m, d, i, j, Entry(pa, !Special(c, i, j)))
  {
    m := s;
    if !Present(s.mem[d][i]) {
      var (a, f) := Alloc(c, s);
      AllocMoves(c, s, a, t, d, hand);
      var w := Entry(t, !Special(c, i, j));
      m := WithEntry(a, d, i, w).(place := a.place[t := Table(d, i)]);
      AddTableMoves(c, a, d, i, t, w, m, hand + {t});
      MovesTwice(c, s, a, m, d);
      SameTwice(c, s, a, m, d);
      AllocKeepsHand(c, s, a, t, hand);
    } else {
      assert DirEntryOk(c, s, d, i);
    }
  }

  lemma AllocKeepsHand(c: Config, s: Frames, s': Frames, f: nat, hand: set<nat>)
    requires Inv(c, s) && !Exhausted(c, s) && (s', f) == Alloc(c, s)
    ensures forall g | g in hand && g in s.place && s.place[g].Loose? ::
            g != f && g in s'.place && s'.place[g].Loose? && g < |s.mem| && g < |s'.mem| && s'.mem[g] == s.mem[g]
  {
    AllocKeepsInv(c, s, s', f);
    forall g | g in hand && g in s.place && s.place[g].Loose? ensures g != f && Same(s, s', g) {}
  }

  /** A page in hand is mapped. */
  lemma MapPageMoves(c: Config, s: Frames, d: nat, i: nat, j: nat, pa: nat, t: nat, s1: Frames, s': Frames,
                     hand: set<nat>)
    requires MapWrote(c, s, d, i, j, pa, t, s1) && IsDirectory(s, d) && Private(c, i, j) && !MappedAt(s, d, i, j)
    requires InHand(s, hand) && pa in hand && pa in s.place && s.place[pa] == Loose
    requires SpecialRow(c, i) ==> Present(s.mem[d][i])
    requires s' == Settle(s, s1, d, i, t).(place := Settle(s, s1, d, i, t).place[pa := Data(d, i, j)])
    ensures Moves(c, s, s', d) && PutViews(c, s, s', d, i, j, Mapped(s.mem[pa])) && InHand(s', hand - {pa})
  {
    var m := TableMoves(c, s, d, i, j, pa, t, s1, hand);
    assert m.place[pa] == Loose && m.mem[pa] == s.mem[pa];
    AddPageMoves(c, m, d, i, j, pa, Entry(pa, true), s', hand);
    MovesTwice(c, s, m, s', d);
    SamePut(c, s, m, s', d, i, j, Mapped(s.mem[pa]));
  }

  /** Apart from page (i, j), the same pages of `d` are mapped. */
  ghost predicate MappedSame(s: Frames, s': Frames, d: nat, i: nat, j: nat) {
    forall k: nat, l: nat {:trigger MappedAt(s', d, k, l)} | PRIVATE <= k && (k, l) != (i, j) ::
      MappedAt(s', d, k, l) <==> MappedAt(s, d, k, l)
  }

  lemma MapMapsOne(c: Config, s: Frames, d: nat, i: nat, j: nat, pa: nat, t: nat, s1: Frames, s': Frames)
    requires MapWrote(c, s, d, i, j, pa, t, s1) && IsDirectory(s, d) && PRIVATE <= i && s' == Settle(s, s1, d, i, t)
    ensures MappedSame(s, s', d, i, j)
  {
    assert DirEntryOk(c, s, d, i);
    if Present(s.mem[d][i]) {
      forall k: nat, l: nat | PRIVATE <= k && (k, l) != (i, j)
        ensures MappedAt(s', d, k, l) <==> MappedAt(s, d, k, l)
      {
        assert k < ENTRIES ==> DirEntryOk(c, s, d, k);
      }
    } else {
      var (a, f) := Alloc(c, s);
      AllocKeepsInv(c, s, a, f);
      assert Same(s, a, d);
      forall k: nat, l: nat | PRIVATE <= k && (k, l) != (i, j)
        ensures MappedAt(s', d, k, l) <==> MappedAt(s, d, k, l)
      {
        if k < ENTRIES && k != i && Present(s.mem[d][k]) {
          assert DirEntryOk(c, s, d, k) && Same(s, a, FrameOf(s.mem[d][k]));
        }
      }
    }
  }

  /** A special page is mapped to itself. */
  lemma MapSpecialMoves(c: Config, s: Frames, d: nat, i: nat, j: nat, t: nat, s1: Frames, s': Frames, hand: set<nat>)
    requires MapWrote(c, s, d, i, j, PageNumber(i, j), t, s1) && IsDirectory(s, d) && PRIVATE <= i && Special(c, i, j)
    requires !MappedAt(s, d, i, j) && InHand(s, hand) && s' == Settle(s, s1, d, i, t)
    ensures Moves(c, s, s', d) && SameViews(c, s, s', d) && InHand(s', hand) && MappedAt(s', d, i, j)
    ensures MappedSame(s, s', d, i, j)
  {
    MapMapsOne(c, s, d, i, j, PageNumber(i, j), t, s1, s');
    assert PageNumber(i, j) / ENTRIES == i;
    var m := TableMoves(c, s, d, i, j, PageNumber(i, j), t, s1, hand);
    AddSpecialMoves(c, m, d, i, j, Entry(PageNumber(i, j), false), s', hand);
    MovesTwice(c, s, m, s', d);
    SameTwice(c, s, m, s', d);
  }

  // ---------------------------------------------------------------------
  // Steps in the order the operations take them
  // ---------------------------------------------------------------------

  /** Unmap a page and free its frame. */
  lemma ClearPageMoves(c: Config, s: Frames, d: nat, i: nat, j: nat, f: nat, m: Frames, s': Frames)
    requires DroppedPage(c, s, d, i, j, f, m) && Whole(s)
    requires f in m.place && m.place[f] == Loose && Inv(c, m) && s' == Dealloc(c, m, f)
    ensures Moves(c, s, s', d) && PutViews(c, s, s', d, i, j, Unmapped) && Whole(s')
    ensures s'.mem[d] == s.mem[d]
    ensures FrameOf(s.mem[d][i]) < |s'.mem| && s'.mem[FrameOf(s.mem[d][i])] == s.mem[FrameOf(s.mem[d][i])][j := 0]
  {
    DropPageMoves(c, s, d, i, j, f, m, {});
    DeallocMoves(c, m, s', f, d, {f});
    MovesTwice(c, s, m, s', d);
    forall k: nat, l: nat ensures PutView(c, s, s', d, i, j, Unmapped, k, l) {
      assert PutView(c, s, m, d, i, j, Unmapped, k, l) && SameView(c, m, s', d, k, l);
    }
    assert FrameOk(c, s, f);
  }

  /** Unhook a table that maps nothing and free its frame. */
  lemma ClearTableMoves(c: Config, s: Frames, d: nat, i: nat, t: nat, m: Frames, s': Frames)
    requires DroppedTable(c, s, d, i, t, m) && Whole(s)
    requires t in m.place && m.place[t] == Loose && Inv(c, m) && s' == Dealloc(c, m, t)
    ensures Moves(c, s, s', d) && SameViews(c, s, s', d) && Whole(s')
    ensures s'.mem[d] == s.mem[d][i := 0]
  {
    DropTableMoves(c, s, d, i, t, m, {});
    DeallocMoves(c, m, s', t, d, {t});
    MovesTwice(c, s, m, s', d);
    SameTwice(c, s, m, s', d);
    assert FrameOk(c, s, t);
  }

  /** Map a new page with the given words. */
  lemma CopyPageMoves(c: Config, s: Frames, d: nat, i: nat, j: nat, a: Frames, f: nat, page: Page, b: Frames, w: nat,
                      s': Frames)
    requires CanAddPage(c, s, d, i, j) && Private(c, i, j) && Whole(s) && !Exhausted(c, s) && (a, f) == Alloc(c, s)
    requires f < |a.mem| && b == a.(mem := a.mem[f := page]) && Present(w) && FrameOf(w) == f
    requires Bits(w) == 7
    requires d < |b.mem| && FrameOf(b.mem[d][i]) < |b.mem|
    requires s' == SetEntry(b, d, i, j, w).(place := b.place[f := Data(d, i, j)])
    ensures Moves(c, s, s', d) && PutViews(c, s, s', d, i, j, Mapped(page)) && Whole(s')
    ensures s'.mem[d] == s.mem[d]
    ensures FrameOf(s.mem[d][i]) < |s'.mem| && s'.mem[FrameOf(s.mem[d][i])] == s.mem[FrameOf(s.mem[d][i])][j := w]
  {
    var t := FrameOf(s.mem[d][i]);
    assert DirEntryOk(c, s, d, i);
    AllocMoves(c, s, a, f, d, {});
    AllocKeepsInv(c, s, a, f);
    assert Same(s, a, t);
    FillMoves(c, a, b, f, page, d);
    assert b.mem[d] == s.mem[d] && b.mem[t] == s.mem[t];
    AddPageMoves(c, b, d, i, j, f, w, s', {f});
    MovesTwice(c, s, a, b, d);
    MovesTwice(c, s, b, s', d);
    SameTwice(c, s, a, b, d);
    SamePut(c, s, b, s', d, i, j, Mapped(page));
  }

  /** Page (i, j) can be mapped in space `d`, whose table for it is at `t`, as a
      copy of the page in frame `from`. */
  ghost predicate CanCopy(c: Config, s: Frames, from: nat, d: nat, i: nat, j: nat, t: nat) {
    && CanAddPage(c, s, d, i, j) && Private(c, i, j) && Whole(s)
    && Owned(s, from) && Owned(s, t) && from < |s.mem| && t < |s.mem| && t == FrameOf(s.mem[d][i])
  }

  lemma CopyRoom(c: Config, s: Frames, parent: nat, d: nat, i: nat, j: nat)
    requires Inv(c, s) && Whole(s) && IsDirectory(s, parent) && IsDirectory(s, d) && Private(c, i, j)
    requires MappedAt(s, parent, i, j) && !MappedAt(s, d, i, j) && d < |s.mem| && Present(s.mem[d][i])
    ensures CanCopy(c, s, PageAt(s, parent, i, j), d, i, j, FrameOf(s.mem[d][i]))
    ensures View(s, parent, i, j) == Mapped(s.mem[PageAt(s, parent, i, j)])
  {
    OwnPage(c, s, parent, i, j);
    assert DirEntryOk(c, s, d, i);
  }

  /** Copy a page into a new frame and map it. */
  lemma CopyDone(c: Config, s: Frames, from: nat, d: nat, i: nat, j: nat, t: nat, a: Frames, f: nat, w: nat, s': Frames)
    requires Inv(c, s) && !Exhausted(c, s) && (a, f) == Alloc(c, s) && CanCopy(c, s, from, d, i, j, t)
    requires |a.mem| == |s.mem| && f < |a.mem| && Present(w) && FrameOf(w) == f && Bits(w) == 7
    requires
      var b := a.mem[f := a.mem[from]];
      s' == a.(mem := b[t := b[t][j := w]], place := a.place[f := Data(d, i, j)])
    ensures Moves(c, s, s', d) && PutViews(c, s, s', d, i, j, Mapped(s.mem[from])) && Whole(s') && s'.mem[d] == s.mem[d]
  {
    TakenApart(c, s, a, f, from, t, d);
    var b := a.(mem := a.mem[f := a.mem[from]]);
    CopyPageMoves(c, s, d, i, j, a, f, s.mem[from], b, w, s');
  }

  /** Take a frame, copy the low entries, and make it a directory: the rest is
      untouched, and the new space maps nothing of its own. */
  lemma NewDirectory(c: Config, s: Frames, a: Frames, d: nat, n: nat, page: Page, s': Frames)
    requires Inv(c, s) && Whole(s) && c.shared != 0 && !Exhausted(c, s) && (a, d) == Alloc(c, s)
    requires n <= PRIVATE && (forall i: nat | n <= i < PRIVATE :: !HasLow(c, i))
    requires d < |a.mem| && page == a.mem[c.shared][..n] + a.mem[d][n..]
    requires s' == a.(mem := a.mem[d := page], place := a.place[d := Directory(false)])
    ensures Inv(c, s') && KeptOutside(s, s', d) && !Owned(s, d) && Whole(s')
    ensures forall k: nat, l: nat {:trigger MappedAt(s', d, k, l)} | PRIVATE <= k :: !MappedAt(s', d, k, l)
  {
    AllocKeepsInv(c, s, a, d);
    var b := a.(mem := a.mem[d := page]);
    WriteKeepsInv(c, a, d, page, b);
    assert BlankDirectory(c, b, d) by {
      forall i: nat | i < ENTRIES ensures b.mem[d][i] == if i < PRIVATE then b.mem[c.shared][i] else 0 {
        assert SharedOk(c, b, i);
      }
    }
    AddDirectoryKeepsInv(c, b, d, s');
    forall g: nat ensures Kept(s, s', d, g) { assert g != d ==> Same(s, a, g); }
    forall g: nat | g in s'.place ensures !s'.place[g].Loose? { assert g != d ==> Same(s, a, g); }
  }

  /** After taking a frame for it, page (i, j) is still not mapped. */
  lemma FaultTakes(c: Config, s: Frames, a: Frames, f: nat, d: nat, i: nat, j: nat)
    requires Inv(c, s) && Whole(s) && !Exhausted(c, s) && (a, f) == Alloc(c, s) && IsDirectory(s, d)
    requires Private(c, i, j) && !MappedAt(s, d, i, j)
    ensures Moves(c, s, a, d) && SameViews(c, s, a, d) && InHand(a, {f}) && !MappedAt(a, d, i, j)
    ensures f in a.place && a.place[f] == Loose && f < |a.mem| && a.mem[f] == ZeroWords(ENTRIES)
    ensures d < |a.mem| && (Present(a.mem[d][i]) ==> FrameOf(a.mem[d][i]) < |a.mem|)
  {
    AllocMoves(c, s, a, f, d, {});
    assert SameView(c, s, a, d, i, j);
    NotMapped(c, s, d, i, j);
    NotMapped(c, a, d, i, j);
    assert DirEntryOk(c, a, d, i);
  }

  lemma FaultMoves(c: Config, s: Frames, a: Frames, f: nat, d: nat, i: nat, j: nat, t: nat, s1: Frames, s': Frames)
    requires Inv(c, s) && Whole(s) && !Exhausted(c, s) && (a, f) == Alloc(c, s) && IsDirectory(s, d)
    requires Private(c, i, j) && !MappedAt(s, d, i, j) && MapWrote(c, a, d, i, j, f, t, s1)
    requires s.place[d] == Directory(true)
    requires s' == Settle(a, s1, d, i, t).(place := Settle(a, s1, d, i, t).place[f := Data(d, i, j)])
    ensures Moves(c, s, s', d) && PutViews(c, s, s', d, i, j, Mapped(ZeroWords(ENTRIES))) && Whole(s')
  {
    FaultTakes(c, s, a, f, d, i, j);
    assert ApicsOk(c, a, d);
    MapPageMoves(c, a, d, i, j, f, t, s1, s', {f});
    MovesTwice(c, s, a, s', d);
    SamePut(c, s, a, s', d, i, j, Mapped(ZeroWords(ENTRIES)));
  }

  /** A frame just taken is none of those with a role, and their words stay. */
  lemma TakenApart(c: Config, s: Frames, a: Frames, f: nat, g: nat, t: nat, d: nat)
    requires Inv(c, s) && !Exhausted(c, s) && (a, f) == Alloc(c, s) && Owned(s, g) && Owned(s, t) && Owned(s, d)
    ensures f != g && f != t && f != d && f < |a.mem| && g < |a.mem| && t < |a.mem| && d < |a.mem|
    ensures a.mem[g] == s.mem[g] && a.mem[t] == s.mem[t] && a.mem[d] == s.mem[d]
  {
    AllocKeepsInv(c, s, a, f);
    assert Same(s, a, g) && Same(s, a, t) && Same(s, a, d);
  }
}
