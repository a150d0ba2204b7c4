/** What holds over whole lives of address spaces. */
module SpaceTheorems {
  import opened FrameModel
  import opened FrameSteps
  import opened LowSteps
  import opened SpaceModel
  import opened SpaceSteps
  import opened SpaceLoops

  /** Every frame ever handed out is on the free list, just once, or has one role. */
  lemma {:induction false} FreeOnceOrOwned(c: Config, s: Frames, f: nat)
    requires Inv(c, s) && Whole(s) && c.start <= f < s.avail
    ensures Owned(s, f) <==> f !in s.free
    ensures forall k: nat, l: nat | k < |s.free| && l < |s.free| && s.free[k] == f && s.free[l] == f :: k == l
  {
    assert FrameOk(c, s, f);
    if s.place[f].Free? { assert s.free[s.place[f].index] == f; }
    forall k: nat | k < |s.free| ensures s.free[k] in s.place && s.place[s.free[k]] == Free(k) {
      assert ListOk(s, k);
    }
  }

  /** Following the links through the freed frames visits the list and ends. */
  ghost predicate ChainFrom(s: Frames, link: nat, k: nat)
    requires k <= |s.free|
    decreases k
  {
    if k == 0 then link == 0
    else
      && link == s.free[k - 1] * FRAME_SIZE && s.free[k - 1] < |s.mem|
      && ChainFrom(s, s.mem[s.free[k - 1]][0], k - 1)
  }

  lemma {:induction false} ChainReachesAll(c: Config, s: Frames, k: nat)
    requires Inv(c, s) && k <= |s.free|
    ensures ChainFrom(s, if k == 0 then 0 else s.free[k - 1] * FRAME_SIZE, k)
  {
    if k > 0 {
      ChainReachesAll(c, s, k - 1);
      assert ListOk(s, k - 1) && FrameOk(c, s, s.free[k - 1]);
    }
  }

  // ---------------------------------------------------------------------
  // Conservation
  // ---------------------------------------------------------------------

  /** Frames that can still be handed out. */
  ghost function Available(c: Config, s: Frames): int {
    |s.free| + c.limit - s.avail
  }

  ghost function OwnedFrames(s: Frames): set<nat> {
    set f | f in s.place && Owned(s, f)
  }

  ghost function Range(a: nat, b: nat): (r: set<nat>)
    requires a <= b
    ensures |r| == b - a && forall f :: f in r <==> a <= f < b
    decreases b - a
  {
    if a == b then {} else Range(a, b - 1) + {b - 1}
  }

  ghost function Elements(q: seq<nat>): set<nat> {
    set f | f in q
  }

  ghost predicate Repeatless(q: seq<nat>) {
    forall k: nat, l: nat | k < l < |q| :: q[k] != q[l]
  }

  lemma {:induction false} ElementsSize(q: seq<nat>)
    requires Repeatless(q)
    ensures |Elements(q)| == |q|
  {
    if q == [] {
      assert Elements(q) == {};
    } else {
      var p := q[..|q| - 1];
      assert Repeatless(p);
      ElementsSize(p);
      assert q == p + [q[|q| - 1]];
      assert Elements(q) == Elements(p) + {q[|q| - 1]};
    }
  }

  /** No frame is lost: what is owned and what is available make up all of memory. */
  lemma FramesConserved(c: Config, s: Frames)
    requires Inv(c, s) && Whole(s)
    ensures Available(c, s) + |OwnedFrames(s)| == c.limit - c.start
  {
    forall k: nat | k < |s.free| ensures s.free[k] in s.place && s.place[s.free[k]] == Free(k) {
      assert ListOk(s, k);
    }
    ElementsSize(s.free);
    forall f | f in Range(c.start, s.avail) ensures f in Elements(s.free) + OwnedFrames(s) {
      FreeOnceOrOwned(c, s, f);
    }
    assert Range(c.start, s.avail) == Elements(s.free) + OwnedFrames(s);
    assert Elements(s.free) !! OwnedFrames(s);
  }

  // ---------------------------------------------------------------------
  // Fork
  // ---------------------------------------------------------------------

  /** What a fork that succeeds ensures. */
  ghost predicate Forked(c: Config, s: Frames, s': Frames, parent: nat, child: nat) {
    && Inv(c, s) && Whole(s) && Inv(c, s') && Whole(s') && IsDirectory(s, parent)
    && KeptOutside(s, s', child) && !Owned(s, child) && child in s'.place && s'.place[child] == Directory(true)
    && Copied(c, s, s', parent, child, ENTRIES, 0)
  }

  /** Right after it the two spaces show the same, each own page in a frame that
      is the other's nowhere and was nobody's before. */
  lemma ForkIsDeepCopy(c: Config, s: Frames, s': Frames, parent: nat, child: nat, i: nat, j: nat)
    requires Forked(c, s, s', parent, child) && Private(c, i, j)
    ensures IsDirectory(s', parent) && parent != child
    ensures MappedAt(s', child, i, j) <==> MappedAt(s, parent, i, j)
    ensures View(s', child, i, j) == View(s, parent, i, j) == View(s', parent, i, j)
    ensures MappedAt(s', child, i, j) ==> !Owned(s, PageAt(s', child, i, j))
  {
    OthersSeeNothing(c, s, s', child, parent, i, j);
    assert CopiedView(c, s, s', parent, child, ENTRIES, 0, i, j);
    NotMapped(c, s, parent, i, j);
    NotMapped(c, s', child, i, j);
    if MappedAt(s', child, i, j) {
      OwnPage(c, s', child, i, j);
      NothingWithin(c, s, child, PageAt(s', child, i, j));
      assert Kept(s, s', child, PageAt(s', child, i, j));
    }
  }

  /** A space that is not there yet has no frames. */
  lemma NothingWithin(c: Config, s: Frames, d: nat, f: nat)
    requires Inv(c, s) && !Owned(s, d)
    ensures !Within(s, f, d)
  {
    if f in s.place { assert FrameOk(c, s, f); }
  }

  /** Whatever then happens in one of the two, as long as it stays in that
      space, the other shows what it showed. */
  lemma ForkedSpacesApart(c: Config, s: Frames, m: Frames, s': Frames, parent: nat, child: nat, i: nat, j: nat)
    requires Forked(c, s, m, parent, child) && Private(c, i, j)
    ensures Moves(c, m, s', child) ==> View(s', parent, i, j) == View(s, parent, i, j)
    ensures Moves(c, m, s', parent) ==> View(s', child, i, j) == View(s, parent, i, j)
  {
    ForkIsDeepCopy(c, s, m, parent, child, i, j);
    if Moves(c, m, s', child) { OthersSeeNothing(c, m, s', child, parent, i, j); }
    if Moves(c, m, s', parent) { OthersSeeNothing(c, m, s', parent, child, i, j); }
  }

  /** Deleting the child, after anything it did on its own, gives back exactly
      what the fork and the child took: every role and word is as before. */
  lemma ForkThenDelete(c: Config, s: Frames, m: Frames, n: Frames, s': Frames, parent: nat, child: nat)
    requires Forked(c, s, m, parent, child) && Moves(c, m, n, child)
    requires Inv(c, s') && Whole(s') && KeptOutside(n, s', child) && Returned(n, s', child)
    ensures forall f: nat {:trigger Owned(s', f)} :: Owned(s', f) <==> Owned(s, f)
    ensures forall f: nat {:trigger Owned(s, f)} | Owned(s, f) ::
            f in s'.place && s'.place[f] == s.place[f] && f < |s.mem| && f < |s'.mem| && s'.mem[f] == s.mem[f]
    ensures Available(c, s') == Available(c, s)
  {
    forall f: nat
      ensures Owned(s', f) <==> Owned(s, f)
      ensures Owned(s, f) ==>
                f in s'.place && s'.place[f] == s.place[f] && f < |s.mem| && f < |s'.mem| && s'.mem[f] == s.mem[f]
    {
      NothingWithin(c, s, child, f);
      assert Kept(s, m, child, f) && Kept(m, n, child, f) && Kept(n, s', child, f) && Gone(n, s', child, f);
    }
    assert OwnedFrames(s') == OwnedFrames(s);
    FramesConserved(c, s);
    FramesConserved(c, s');
  }
}
