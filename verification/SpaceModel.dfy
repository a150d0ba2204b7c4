/** What an address space shows to its process, and how the steps change it. */
module SpaceModel {
  import opened FrameModel
  import opened FrameSteps
  import opened TableSteps
  import opened LowSteps

  datatype Content = Unmapped | Mapped(words: Page)

  /** The frame that page (i, j) of `d` is mapped to. */
  ghost function PageAt(s: Frames, d: nat, i: nat, j: nat): nat
    requires MappedAt(s, d, i, j)
  {
    FrameOf(s.mem[FrameOf(s.mem[d][i])][j])
  }

  /** What page (i, j) of space `d` holds. */
  ghost function View(s: Frames, d: nat, i: nat, j: nat): Content {
    if MappedAt(s, d, i, j) && PageAt(s, d, i, j) < |s.mem| then Mapped(s.mem[PageAt(s, d, i, j)]) else Unmapped
  }

  /** A page number of a process's own part. */
  ghost predicate Private(c: Config, i: nat, j: nat) {
    PRIVATE <= i < ENTRIES && j < ENTRIES && !Special(c, i, j)
  }

  /** An own page that is mapped is in a frame with that role, and shows. */
  lemma OwnPage(c: Config, s: Frames, d: nat, i: nat, j: nat)
    requires Inv(c, s) && IsDirectory(s, d) && Private(c, i, j) && MappedAt(s, d, i, j)
    ensures PageAt(s, d, i, j) in s.place && s.place[PageAt(s, d, i, j)] == Data(d, i, j)
    ensures View(s, d, i, j) == Mapped(s.mem[PageAt(s, d, i, j)])
    ensures FrameOf(s.mem[d][i]) in s.place && s.place[FrameOf(s.mem[d][i])] == Table(d, i)
  {
    assert DirEntryOk(c, s, d, i);
    assert TableEntryOk(c, s, FrameOf(s.mem[d][i]), j);
  }

  lemma NotMapped(c: Config, s: Frames, d: nat, i: nat, j: nat)
    requires Inv(c, s) && IsDirectory(s, d) && Private(c, i, j)
    ensures View(s, d, i, j) == Unmapped <==> !MappedAt(s, d, i, j)
  {
    if MappedAt(s, d, i, j) { OwnPage(c, s, d, i, j); }
  }

  /** Different own pages, of one space or of two, are in different frames. */
  lemma DistinctFrames(c: Config, s: Frames, d: nat, i: nat, j: nat, e: nat, k: nat, l: nat)
    requires Inv(c, s) && IsDirectory(s, d) && Private(c, i, j) && MappedAt(s, d, i, j)
    requires IsDirectory(s, e) && Private(c, k, l) && MappedAt(s, e, k, l)
    requires (d, i, j) != (e, k, l)
    ensures PageAt(s, d, i, j) != PageAt(s, e, k, l)
  {
    OwnPage(c, s, d, i, j);
    OwnPage(c, s, e, k, l);
  }

  /** Every space maps the APIC pages to themselves, and low pages alike and to
      themselves, and none of its own frames is an APIC page. */
  lemma SpecialPages(c: Config, s: Frames, d: nat, i: nat, j: nat)
    requires Inv(c, s) && d in s.place && s.place[d] == Directory(true) && i < ENTRIES && j < ENTRIES
    requires PageNumber(i, j) == c.ioApic || PageNumber(i, j) == c.localApic || 0 < PageNumber(i, j) < c.lowPages
    ensures MappedAt(s, d, i, j) && PageAt(s, d, i, j) == PageNumber(i, j)
    ensures PRIVATE <= i ==> PageNumber(i, j) !in s.place
  {
    assert ApicsOk(c, s, d) && DirEntryOk(c, s, d, i);
    if PRIVATE <= i {
      assert PageNumber(i, j) / ENTRIES == i && PageNumber(i, j) % ENTRIES == j;
      assert MappedAt(s, d, i, j);
      assert TableEntryOk(c, s, FrameOf(s.mem[d][i]), j);
    } else {
      LowMapped(c, s, d, i, j);
    }
  }

  lemma LowMapped(c: Config, s: Frames, d: nat, i: nat, j: nat)
    requires Inv(c, s) && IsDirectory(s, d) && i < PRIVATE && j < ENTRIES && 0 < PageNumber(i, j) < c.lowPages
    ensures MappedAt(s, d, i, j) && PageAt(s, d, i, j) == PageNumber(i, j)
  {
    assert DirEntryOk(c, s, d, i) && SharedOk(c, s, i) && HasLow(c, i);
    assert s.mem[FrameOf(s.mem[d][i])][j] == Entry(PageNumber(i, j), false);
  }

  // ---------------------------------------------------------------------
  // What a space permits
  // ---------------------------------------------------------------------

  /** The low bits of the two entries by which page (i, j) of `d` is reached. */
  ghost predicate ReachedBy(s: Frames, d: nat, i: nat, j: nat, dirBits: nat, tableBits: nat) {
    MappedAt(s, d, i, j) && s.mem[d][i] % 4096 == dirBits && s.mem[FrameOf(s.mem[d][i])][j] % 4096 == tableBits
  }

  /** The entries for own pages are present, writable and open to the process;
      those for low and APIC pages, and the directory entries of rows that hold
      an APIC page, are for the kernel only. */
  ghost predicate Protected(c: Config, s: Frames, d: nat) {
    forall i: nat, j: nat {:trigger MappedAt(s, d, i, j)} | MappedAt(s, d, i, j) ::
      ReachedBy(s, d, i, j, if PRIVATE <= i && !SpecialRow(c, i) then 7 else 3, if Private(c, i, j) then 7 else 3)
  }

  lemma SpacesProtected(c: Config, s: Frames, d: nat)
    requires Inv(c, s) && IsDirectory(s, d)
    ensures Protected(c, s, d)
  {
    forall i: nat, j: nat | MappedAt(s, d, i, j)
      ensures ReachedBy(s, d, i, j, if PRIVATE <= i && !SpecialRow(c, i) then 7 else 3,
                        if Private(c, i, j) then 7 else 3)
    {
      assert DirEntryOk(c, s, d, i);
      if PRIVATE <= i {
        assert TableEntryOk(c, s, FrameOf(s.mem[d][i]), j);
      } else {
        LowProtected(c, s, d, i, j);
      }
    }
  }

  lemma LowProtected(c: Config, s: Frames, d: nat, i: nat, j: nat)
    requires Inv(c, s) && IsDirectory(s, d) && MappedAt(s, d, i, j) && i < PRIVATE
    ensures ReachedBy(s, d, i, j, 3, 3)
  {
    assert DirEntryOk(c, s, d, i) && SharedOk(c, s, i);
    var w := s.mem[FrameOf(s.mem[d][i])][j];
    assert w == Entry(PageNumber(i, j), false);
  }

  /** Both entries let the process in. */
  ghost predicate ProcessReaches(s: Frames, d: nat, i: nat, j: nat) {
    && MappedAt(s, d, i, j)
    && s.mem[d][i] % 4096 / 4 % 2 == 1 && s.mem[FrameOf(s.mem[d][i])][j] % 4096 / 4 % 2 == 1
  }

  /** A process reaches its own mapped pages, and no others, but not those in the
      same row as an APIC page: the table there is the one made for the APIC. */
  lemma ReachesOwnPages(c: Config, s: Frames, d: nat, i: nat, j: nat)
    requires Inv(c, s) && IsDirectory(s, d) && MappedAt(s, d, i, j)
    ensures ProcessReaches(s, d, i, j) <==> Private(c, i, j) && !SpecialRow(c, i)
  {
    SpacesProtected(c, s, d);
  }

  /** There are own pages that a process can never reach. */
  lemma OutOfReach(c: Config, s: Frames, d: nat) returns (i: nat, j: nat)
    requires Inv(c, s) && IsDirectory(s, d)
    ensures Private(c, i, j) && !ProcessReaches(s, d, i, j)
  {
    i := c.ioApic / ENTRIES;
    j := if c.ioApic % ENTRIES != 0 && PageNumber(i, 0) != c.localApic then 0
         else if c.ioApic % ENTRIES != 1 && PageNumber(i, 1) != c.localApic then 1 else 2;
    if MappedAt(s, d, i, j) { ReachesOwnPages(c, s, d, i, j); }
  }

  // ---------------------------------------------------------------------
  // What an operation on one space leaves alone
  // ---------------------------------------------------------------------

  /** A frame with a role outside space `d`. */
  ghost predicate Outside(s: Frames, d: nat, f: nat) {
    Owned(s, f) && !Within(s, f, d)
  }

  ghost predicate Kept(s: Frames, s': Frames, d: nat, f: nat) {
    && (Outside(s', d, f) ==> Outside(s, d, f))
    && (Outside(s, d, f) && f < |s.mem| && f < |s'.mem| ==>
      Outside(s', d, f) && s'.place[f] == s.place[f] && s'.mem[f] == s.mem[f])
  }

  /** Outside space `d` no role and no word changed, and no role was added. */
  ghost predicate KeptOutside(s: Frames, s': Frames, d: nat) {
    |s'.mem| == |s.mem| && forall f: nat {:trigger Kept(s, s', d, f)} :: Kept(s, s', d, f)
  }

  lemma KeptTwice(c: Config, s: Frames, m: Frames, s': Frames, d: nat)
    requires Inv(c, s) && KeptOutside(s, m, d) && KeptOutside(m, s', d)
    ensures KeptOutside(s, s', d)
  {
    forall f: nat ensures Kept(s, s', d, f) {
      assert Kept(s, m, d, f) && Kept(m, s', d, f);
    }
  }

  /** No other space sees a change. */
  lemma OthersSeeNothing(c: Config, s: Frames, s': Frames, d: nat, e: nat, i: nat, j: nat)
    requires Inv(c, s) && Inv(c, s') && KeptOutside(s, s', d) && IsDirectory(s, e) && e != d && Private(c, i, j)
    ensures IsDirectory(s', e) && View(s', e, i, j) == View(s, e, i, j)
    ensures MappedAt(s', e, i, j) <==> MappedAt(s, e, i, j)
  {
    assert Outside(s, d, e) && Kept(s, s', d, e) && DirEntryOk(c, s, e, i);
    if Present(s.mem[e][i]) {
      var t := FrameOf(s.mem[e][i]);
      assert Outside(s, d, t) && Kept(s, s', d, t) && TableEntryOk(c, s, t, j);
      if Present(s.mem[t][j]) {
        assert Outside(s, d, FrameOf(s.mem[t][j])) && Kept(s, s', d, FrameOf(s.mem[t][j]));
      }
    }
  }

  // ---------------------------------------------------------------------
  // Frames in hand
  // ---------------------------------------------------------------------

  /** Only frames of `hand` are neither free nor in a role. */
  ghost predicate InHand(s: Frames, hand: set<nat>) {
    forall f: nat {:trigger f in s.place} | f in s.place && s.place[f].Loose? :: f in hand
  }

  /** Every frame ever handed out is free or has a role. */
  ghost predicate Whole(s: Frames) {
    InHand(s, {})
  }

  // ---------------------------------------------------------------------
  // How steps change what a space shows
  // ---------------------------------------------------------------------

  /** Nothing with a role in space `d` changed. */
  ghost predicate InsideSame(s: Frames, s': Frames, d: nat) {
    |s'.mem| == |s.mem| && forall f: nat {:trigger Same(s, s', f)} | Within(s, f, d) :: Same(s, s', f)
  }

  lemma ViewStays(c: Config, s: Frames, s': Frames, d: nat, i: nat, j: nat)
    requires Inv(c, s) && IsDirectory(s, d) && InsideSame(s, s', d) && Private(c, i, j)
    ensures View(s', d, i, j) == View(s, d, i, j)
    ensures MappedAt(s', d, i, j) <==> MappedAt(s, d, i, j)
  {
    assert Within(s, d, d) && Same(s, s', d) && DirEntryOk(c, s, d, i);
    if Present(s.mem[d][i]) {
      var t := FrameOf(s.mem[d][i]);
      assert Within(s, t, d) && Same(s, s', t) && TableEntryOk(c, s, t, j);
      if Present(s.mem[t][j]) {
        assert Within(s, FrameOf(s.mem[t][j]), d) && Same(s, s', FrameOf(s.mem[t][j]));
      }
    }
  }

  lemma AddTableView(c: Config, s: Frames, d: nat, i: nat, t: nat, w: nat, s': Frames, k: nat, l: nat)
    requires CanAddTable(c, s, d, i, t) && TableEntry(c, i, t, w)
    requires s' == s.(mem := s.mem[d := s.mem[d][i := w]], place := s.place[t := Table(d, i)])
    requires Private(c, k, l)
    ensures View(s', d, k, l) == View(s, d, k, l)
  {
    assert DirEntryOk(c, s, d, k);
    if k != i && Present(s.mem[d][k]) { assert TableEntryOk(c, s, FrameOf(s.mem[d][k]), l); }
  }

  lemma AddPageView(c: Config, s: Frames, d: nat, i: nat, j: nat, f: nat, w: nat, s': Frames, k: nat, l: nat)
    requires AddedPage(c, s, d, i, j, f, w, s') && Private(c, k, l)
    ensures View(s', d, k, l) == if (k, l) == (i, j) then Mapped(s.mem[f]) else View(s, d, k, l)
  {
    assert DirEntryOk(c, s, d, i) && DirEntryOk(c, s, d, k);
    if Present(s.mem[d][k]) { assert TableEntryOk(c, s, FrameOf(s.mem[d][k]), l); }
  }

  lemma AddSpecialView(c: Config, s: Frames, d: nat, i: nat, j: nat, w: nat, s': Frames, k: nat, l: nat)
    requires CanAddPage(c, s, d, i, j) && Special(c, i, j) && s' == SetEntry(s, d, i, j, w) && Private(c, k, l)
    ensures View(s', d, k, l) == View(s, d, k, l)
  {
    assert DirEntryOk(c, s, d, i) && DirEntryOk(c, s, d, k);
    if Present(s.mem[d][k]) { assert TableEntryOk(c, s, FrameOf(s.mem[d][k]), l); }
  }

  lemma DropPageView(c: Config, s: Frames, d: nat, i: nat, j: nat, f: nat, s': Frames, k: nat, l: nat)
    requires DroppedPage(c, s, d, i, j, f, s') && Private(c, k, l)
    ensures View(s', d, k, l) == if (k, l) == (i, j) then Unmapped else View(s, d, k, l)
  {
    assert FrameOk(c, s, f) && DirEntryOk(c, s, d, i) && DirEntryOk(c, s, d, k);
    if Present(s.mem[d][k]) { assert TableEntryOk(c, s, FrameOf(s.mem[d][k]), l); }
  }

  lemma DropTableView(c: Config, s: Frames, d: nat, i: nat, t: nat, s': Frames, k: nat, l: nat)
    requires DroppedTable(c, s, d, i, t, s') && Private(c, k, l)
    ensures View(s', d, k, l) == View(s, d, k, l)
  {
    assert FrameOk(c, s, t) && DirEntryOk(c, s, d, k);
    if Present(s.mem[d][k]) { assert TableEntryOk(c, s, FrameOf(s.mem[d][k]), l); }
  }
}
