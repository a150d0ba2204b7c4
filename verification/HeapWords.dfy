/** How a heap is laid out in words: signed sizes at both ends of each block,
    and the available list threaded through the blocks themselves. */
module HeapWords {
  import opened HeapModel

  /** Header and footer of the block at `h` hold its signed size. */
  ghost predicate TagAt(w: seq<int>, b: map<int, int>, h: int)
    requires h in b
  {
    && 0 <= h && 0 < Abs(b[h]) && h + Abs(b[h]) <= |w|
    && w[h] == b[h] && w[h + Abs(b[h]) - 1] == b[h]
  }

  ghost predicate Tagged(w: seq<int>, b: map<int, int>) {
    forall h {:trigger TagAt(w, b, h)} | h in b :: TagAt(w, b, h)
  }

  /** The blocks at `f[j]` and `f[k]` have room for their links. */
  ghost predicate Roomy(f: seq<int>, j: nat, k: nat)
    requires j < |f| && k < |f|
  {
    f[j] + 4 <= f[k] || f[k] + 4 <= f[j]
  }

  /** Blocks at `f` have room for two links and do not overlap. */
  ghost predicate Spread(len: int, f: seq<int>) {
    && (forall k | 0 <= k < |f| :: 2 <= f[k] && f[k] + 4 <= len)
    && (forall j: nat, k: nat {:trigger Roomy(f, j, k)} | j < k < |f| :: Roomy(f, j, k))
  }

  /** The words after the headers link neighbours `j` and `k` both ways. */
  ghost predicate Joined(w: seq<int>, f: seq<int>, j: int, k: int)
    requires 0 <= j < |f| && 0 <= k < |f| && Spread(|w|, f)
  {
    w[f[j] + 1] == f[k] && w[f[k] + 2] == f[j]
  }

  /** `avail` and the link words spell out the list `f` in both directions. */
  ghost predicate Linked(w: seq<int>, avail: int, f: seq<int>) {
    && Spread(|w|, f)
    && avail == (if f == [] then 0 else f[0])
    && (f != [] ==> w[f[0] + 2] == 0 && w[f[|f| - 1] + 1] == 0)
    && (forall j, k {:trigger Joined(w, f, j, k)} | 0 <= j < |f| && 0 <= k < |f| && k == j + 1 :: Joined(w, f, j, k))
  }

  /** The words and the list head `avail` lay out the heap `m`. */
  ghost predicate Represents(w: seq<int>, avail: int, m: Heap) {
    match m
    case Heap(len, blocks, free) => |w| == len && WellFormed(m) && Tagged(w, blocks) && Linked(w, avail, free)
  }

  /** The words and list head after unlinking `f[k]`. */
  ghost function Unlinked(w: seq<int>, f: seq<int>, k: nat): (w': seq<int>)
    requires Spread(|w|, f) && k < |f|
    ensures |w'| == |w|
    ensures forall j | 0 <= j < |w| ::
              w'[j] == w[j] || (0 < k && j == f[k - 1] + 1) || (k + 1 < |f| && j == f[k + 1] + 2)
  {
    var w1 := if k == 0 then w else w[f[k - 1] + 1 := if k + 1 < |f| then f[k + 1] else 0];
    if k + 1 == |f| then w1 else w1[f[k + 1] + 2 := if k == 0 then 0 else f[k - 1]]
  }

  lemma RoomyEither(len: int, f: seq<int>, j: nat, k: nat)
    requires Spread(len, f) && j < |f| && k < |f|
    ensures j == k || Roomy(f, j, k)
  {
    assert j < k ==> Roomy(f, j, k);
    assert k < j ==> Roomy(f, k, j);
  }

  lemma DropSpread(len: int, f: seq<int>, k: nat)
    requires Spread(len, f) && k < |f|
    ensures Spread(len, Drop(f, k))
  {
    var g := Drop(f, k);
    forall i: nat, j: nat | i < j < |g| ensures Roomy(g, i, j) {
      assert Roomy(f, if i < k then i else i + 1, if j < k then j else j + 1);
    }
  }

  /** The links of another block after unlinking `f[k]`. */
  lemma UnlinkedAt(w: seq<int>, f: seq<int>, k: nat, j: nat)
    requires Spread(|w|, f) && k < |f| && j < |f| && j != k
    ensures Unlinked(w, f, k)[f[j] + 1] == if j + 1 != k then w[f[j] + 1] else if k + 1 < |f| then f[k + 1] else 0
    ensures Unlinked(w, f, k)[f[j] + 2] == if j != k + 1 then w[f[j] + 2] else if k == 0 then 0 else f[k - 1]
  {
    if 0 < k { RoomyEither(|w|, f, j, k - 1); }
    if k + 1 < |f| { RoomyEither(|w|, f, j, k + 1); }
  }

  lemma UnlinkedJoined(w: seq<int>, avail: int, f: seq<int>, k: nat, i: nat)
    requires Linked(w, avail, f) && k < |f|
    requires Spread(|w|, Drop(f, k)) && i + 1 < |f| - 1
    ensures Joined(Unlinked(w, f, k), Drop(f, k), i, i + 1)
  {
    UnlinkedAt(w, f, k, if i < k then i else i + 1);
    UnlinkedAt(w, f, k, if i + 1 < k then i + 1 else i + 2);
    assert i + 1 < k ==> Joined(w, f, i, i + 1);
    assert k <= i ==> Joined(w, f, i + 1, i + 2);
  }

  lemma UnlinkedIsLinked(w: seq<int>, avail: int, f: seq<int>, k: nat)
    requires Linked(w, avail, f) && k < |f|
    ensures var g := Drop(f, k); Linked(Unlinked(w, f, k), if g == [] then 0 else g[0], g)
    ensures 0 < k ==> Joined(w, f, k - 1, k)
    ensures k + 1 < |f| ==> Joined(w, f, k, k + 1)
  {
    var g := Drop(f, k);
    var w' := Unlinked(w, f, k);
    DropSpread(|w|, f, k);
    forall i, j | 0 <= i < |g| && 0 <= j < |g| && j == i + 1 ensures Joined(w', g, i, j) {
      UnlinkedJoined(w, avail, f, k, i);
    }
    assert k == 0 || Joined(w, f, k - 1, k);
    assert k + 1 == |f| || Joined(w, f, k, k + 1);
  }

  /** The words after tagging `ints` words at `i` available, linked before `next`. */
  ghost function Filled(w: seq<int>, i: int, ints: int, next: int): (w': seq<int>)
    requires 2 <= i && 4 <= ints && i + ints <= |w|
    ensures |w'| == |w|
    ensures w'[i] == ints == w'[i + ints - 1] && w'[i + 1] == next && w'[i + 2] == 0
    ensures forall j | 0 <= j < |w| && !(i <= j < i + ints) :: w'[j] == w[j]
  {
    w[i := ints][i + ints - 1 := ints][i + 1 := next][i + 2 := 0]
  }

  /** ... and with the old first block linked back to `i`. */
  ghost function Pushed(w: seq<int>, f: seq<int>, i: int, ints: int): (w': seq<int>)
    requires Spread(|w|, f) && 2 <= i && 4 <= ints && i + ints <= |w|
    ensures |w'| == |w|
  {
    var w1 := Filled(w, i, ints, if f == [] then 0 else f[0]);
    if f == [] then w1 else w1[f[0] + 2 := i]
  }

  lemma PushedIsLinked(w: seq<int>, avail: int, f: seq<int>, i: int, ints: int)
    requires Linked(w, avail, f)
    requires 2 <= i && 4 <= ints && i + ints <= |w|
    requires forall k | 0 <= k < |f| :: f[k] + 4 <= i || i + ints <= f[k]
    ensures Linked(Pushed(w, f, i, ints), i, [i] + f)
  {
    var g := [i] + f;
    var w' := Pushed(w, f, i, ints);
    forall j | 0 < j < |g| ensures g[j] == f[j - 1] {}
    forall j: nat, k: nat | j < k < |g| ensures Roomy(g, j, k) {
      assert 0 < j ==> Roomy(f, j - 1, k - 1);
    }
    if f != [] { RoomyEither(|w|, f, 0, |f| - 1); }
    forall a, b | 0 <= a < |g| && 0 <= b < |g| && b == a + 1 ensures Joined(w', g, a, b) {
      if 0 < a {
        assert Joined(w, f, a - 1, a);
        RoomyEither(|w|, f, 0, a - 1);
        RoomyEither(|w|, f, 0, a);
      }
    }
  }

  // ---------------------------------------------------------------------
  // Words against blocks
  // ---------------------------------------------------------------------

  /** The header of no block. */
  const NONE := -1

  /** No word of the block at `h` differs. */
  ghost predicate Kept(w: seq<int>, w': seq<int>, b: map<int, int>, h: int)
    requires h in b
  {
    forall j | h <= j < h + Abs(b[h]) && 0 <= j < |w| && j < |w'| :: w'[j] == w[j]
  }

  /** No word of the taken blocks, other than those of block `except`, differs. */
  ghost predicate KeepsTaken(w: seq<int>, w': seq<int>, b: map<int, int>, except: int) {
    && |w| == |w'|
    && forall h {:trigger Kept(w, w', b, h)} | h in b && b[h] < 0 && h != except :: Kept(w, w', b, h)
  }

  /** The blocks in start..end are available, but for `except`. */
  ghost predicate OnlyTaken(b: map<int, int>, start: int, end: int, except: int) {
    forall g | g in b && start <= g < end :: 0 < b[g] || g == except
  }

  lemma KeepsTakenTwice(w: seq<int>, w1: seq<int>, w2: seq<int>, b: map<int, int>, except: int)
    requires KeepsTaken(w, w1, b, except) && KeepsTaken(w1, w2, b, except)
    ensures KeepsTaken(w, w2, b, except)
  {
    forall h | h in b && b[h] < 0 && h != except ensures Kept(w, w2, b, h) {
      assert Kept(w, w1, b, h) && Kept(w1, w2, b, h);
    }
  }

  /** Writing a link word of an available block changes no tag and no taken block. */
  lemma LinkWrite(w: seq<int>, len: int, b: map<int, int>, x: int, d: int, v: int, except: int)
    requires |w| == len && Shaped(len, b) && Apart(b) && Tagged(w, b)
    requires x in b && 0 < b[x] && 1 <= d <= 2
    ensures x + d < len && Tagged(w[x + d := v], b) && KeepsTaken(w, w[x + d := v], b, except)
  {
    assert 4 <= b[x];
    forall h | h in b
      ensures TagAt(w[x + d := v], b, h) && (b[h] < 0 ==> Kept(w, w[x + d := v], b, h))
    {
      assert TagAt(w, b, h) && Clear(b, h, x);
    }
  }

  /** Unlinking changes no tag and no taken block. */
  lemma UnlinkedTagged(w: seq<int>, len: int, b: map<int, int>, f: seq<int>, k: nat, except: int)
    requires |w| == len && Shaped(len, b) && Apart(b) && Tagged(w, b)
    requires Spread(len, f) && k < |f| && forall j | 0 <= j < |f| :: f[j] in b && 0 < b[f[j]]
    ensures Tagged(Unlinked(w, f, k), b) && KeepsTaken(w, Unlinked(w, f, k), b, except)
  {
    var w1 := w;
    if k != 0 {
      var v := if k + 1 < |f| then f[k + 1] else 0;
      LinkWrite(w, len, b, f[k - 1], 1, v, except);
      w1 := w[f[k - 1] + 1 := v];
    }
    if k + 1 != |f| {
      var v := if k == 0 then 0 else f[k - 1];
      LinkWrite(w1, len, b, f[k + 1], 2, v, except);
      KeepsTakenTwice(w, w1, w1[f[k + 1] + 2 := v], b, except);
    }
  }

  ghost predicate TaggedOutside(w: seq<int>, b: map<int, int>, start: int, end: int) {
    forall h {:trigger TagAt(w, b, h)} | h in b && !(start <= h < end) :: TagAt(w, b, h)
  }

  /** Words that differ from `w` only in start..end, and are tagged there as one
      available block, are tagged as the merged blocks say. */
  lemma RegionTagged(w: seq<int>, w1: seq<int>, len: int, b: map<int, int>, start: int, end: int)
    requires |w| == |w1| == len && TaggedOutside(w, b, start, end) && Apart(b)
    requires start in b && end in b && 0 <= start < end < len
    requires forall j | 0 <= j < len && !(start <= j < end) :: w1[j] == w[j]
    requires w1[start] == end - start == w1[end - 1]
    ensures Tagged(w1, Merge(b, start, end))
  {
    var c := Merge(b, start, end);
    forall g | g in c ensures TagAt(w1, c, g) {
      if g != start {
        assert TagAt(w, b, g);
        OutsideIsAside(b, start, end, g);
      }
    }
  }

  lemma RegionKeepsTaken(w: seq<int>, w1: seq<int>, b: map<int, int>, start: int, end: int, except: int)
    requires |w| == |w1| && Apart(b)
    requires start in b && end in b && start < end
    requires forall j | 0 <= j < |w| && !(start <= j < end) :: w1[j] == w[j]
    requires OnlyTaken(b, start, end, except)
    ensures KeepsTaken(w, w1, b, except)
  {
    forall h | h in b && b[h] < 0 && h != except ensures Kept(w, w1, b, h) {
      if !(start <= h < end) { OutsideIsAside(b, start, end, h); }
    }
  }

  /** Tagging and linking the free words start..end, none of them on the list. */
  lemma PushedTagged(w: seq<int>, len: int, b: map<int, int>, f: seq<int>, start: int, end: int, except: int)
    requires |w| == len && Apart(b) && TaggedOutside(w, b, start, end)
    requires start in b && end in b && 2 <= start && start + 4 <= end <= len - 2
    requires Shaped(len, Merge(b, start, end)) && Apart(Merge(b, start, end))
    requires Spread(len, f) && (f != [] ==> f[0] in b && 0 < b[f[0]] && !(start <= f[0] < end))
    requires OnlyTaken(b, start, end, except)
    ensures Tagged(Pushed(w, f, start, end - start), Merge(b, start, end))
    ensures KeepsTaken(w, Pushed(w, f, start, end - start), b, except)
  {
    var w1 := Filled(w, start, end - start, if f == [] then 0 else f[0]);
    RegionTagged(w, w1, len, b, start, end);
    RegionKeepsTaken(w, w1, b, start, end, except);
    if f != [] {
      assert f[0] in Merge(b, start, end);
      LinkWriteMerged(w, w1, len, b, f[0], start, end, except);
    }
  }

  lemma LinkWriteMerged(w: seq<int>, w1: seq<int>, len: int, b: map<int, int>, x: int, start: int, end: int,
                        except: int)
    requires |w1| == len && Shaped(len, Merge(b, start, end)) && Apart(Merge(b, start, end))
    requires Tagged(w1, Merge(b, start, end)) && KeepsTaken(w, w1, b, except)
    requires x in Merge(b, start, end) && 0 < Merge(b, start, end)[x]
    requires start < end && OnlyTaken(b, start, end, except)
    ensures x + 2 < len && Tagged(w1[x + 2 := start], Merge(b, start, end))
    ensures KeepsTaken(w, w1[x + 2 := start], b, except)
  {
    LinkWrite(w1, len, Merge(b, start, end), x, 2, start, except);
    KeepsTakenFine(w1, w1[x + 2 := start], b, start, end, except);
    KeepsTakenTwice(w, w1, w1[x + 2 := start], b, except);
  }

  lemma KeepsTakenFine(w: seq<int>, w1: seq<int>, b: map<int, int>, start: int, end: int, except: int)
    requires start < end && OnlyTaken(b, start, end, except)
    requires KeepsTaken(w, w1, Merge(b, start, end), except)
    ensures KeepsTaken(w, w1, b, except)
  {
    forall h | h in b && b[h] < 0 && h != except ensures Kept(w, w1, b, h) {
      assert Kept(w, w1, Merge(b, start, end), h);
    }
  }

  ghost function Retagged(w: seq<int>, i: int, ints: int): seq<int>
    requires 0 <= i && 0 < ints && i + ints <= |w|
  {
    w[i := -ints][i + ints - 1 := -ints]
  }

  /** Tagging a block off the list as taken leaves the list alone. */
  lemma RetaggedLinked(w: seq<int>, avail: int, f: seq<int>, i: int, ints: int)
    requires Linked(w, avail, f) && 0 <= i && 0 < ints && i + ints <= |w|
    requires forall k | 0 <= k < |f| :: f[k] + 4 <= i || i + ints <= f[k]
    ensures Linked(Retagged(w, i, ints), avail, f)
  {
    var w' := Retagged(w, i, ints);
    forall a, b | 0 <= a < |f| && 0 <= b < |f| && b == a + 1 ensures Joined(w', f, a, b) {
      assert Joined(w, f, a, b);
    }
  }

  lemma RetaggedWhole(w: seq<int>, len: int, b: map<int, int>, it: int)
    requires |w| == len && Shaped(len, b) && Apart(b) && Tagged(w, b)
    requires it in b && 4 <= b[it]
    ensures Tagged(Retagged(w, it, b[it]), b[it := -b[it]])
    ensures KeepsTaken(w, Retagged(w, it, b[it]), b, it)
  {
    var w1, c := Retagged(w, it, b[it]), b[it := -b[it]];
    forall h | h in b ensures TagAt(w1, c, h) && (h == it || Kept(w, w1, b, h)) {
      assert TagAt(w, b, h) && TagAt(w, b, it) && Clear(b, h, it);
    }
  }

  lemma RetaggedPart(w: seq<int>, len: int, b: map<int, int>, it: int, ints: int)
    requires |w| == len && Shaped(len, b) && Apart(b) && Tagged(w, b)
    requires it in b && 4 <= ints <= b[it] - 4
    ensures TaggedOutside(Retagged(w, it, ints), b[it := -ints][it + ints := b[it] - ints], it + ints, it + b[it])
    ensures KeepsTaken(w, Retagged(w, it, ints), b, it)
  {
    var w1, c := Retagged(w, it, ints), b[it := -ints][it + ints := b[it] - ints];
    forall h | h in b && h != it ensures TagAt(w1, b, h) && Kept(w, w1, b, h) {
      assert TagAt(w, b, h) && Clear(b, h, it);
    }
    forall h | h in c && h != it + ints ensures TagAt(w1, c, h) {
      if h != it {
        assert TagAt(w1, b, h);
      }
    }
  }

  // ---------------------------------------------------------------------
  // Steps of an operation
  // ---------------------------------------------------------------------

  /** The blocks `b` are tagged, and `f` links some of the available ones (all
      of them, except in the middle of an operation). */
  ghost predicate Partial(w: seq<int>, avail: int, len: int, b: map<int, int>, f: seq<int>) {
    && |w| == len && Shaped(len, b) && Apart(b)
    && Tagged(w, b)
    && Linked(w, avail, f)
    && forall k | 0 <= k < |f| :: f[k] in b && 0 < b[f[k]]
  }

  lemma UnlinkStep(w: seq<int>, avail: int, len: int, b: map<int, int>, f: seq<int>, k: nat, except: int)
    requires Partial(w, avail, len, b, f) && k < |f|
    ensures var g := Drop(f, k);
            Partial(Unlinked(w, f, k), if g == [] then 0 else g[0], len, b, g)
    ensures KeepsTaken(w, Unlinked(w, f, k), b, except)
  {
    UnlinkedIsLinked(w, avail, f, k);
    UnlinkedTagged(w, len, b, f, k, except);
  }

  /** A list of available blocks other than `it` stays clear of block `it`. */
  lemma ListClear(len: int, b: map<int, int>, f: seq<int>, start: int, end: int)
    requires Shaped(len, b) && Apart(b) && start in b && end in b && start < end
    requires forall k | 0 <= k < |f| :: f[k] in b && 0 < b[f[k]] && !(start <= f[k] < end)
    ensures forall k | 0 <= k < |f| :: f[k] + 4 <= start || end <= f[k]
  {
    forall k | 0 <= k < |f| ensures f[k] + 4 <= start || end <= f[k] {
      assert 4 <= Abs(b[f[k]]);
      OutsideIsAside(b, start, end, f[k]);
    }
  }

  lemma PushStep(w: seq<int>, avail: int, len: int, b: map<int, int>, f: seq<int>, start: int, end: int, except: int)
    requires |w| == len && Apart(b) && TaggedOutside(w, b, start, end) && Linked(w, avail, f)
    requires start in b && end in b && 2 <= start && start + 4 <= end <= len - 2
    requires Shaped(len, Merge(b, start, end)) && Apart(Merge(b, start, end))
    requires f != [] ==> f[0] in b && 0 < b[f[0]]
    requires forall k | 0 <= k < |f| :: f[k] + 4 <= start || end <= f[k]
    requires OnlyTaken(b, start, end, except)
    ensures var w' := Pushed(w, f, start, end - start);
            && Tagged(w', Merge(b, start, end)) && Linked(w', start, [start] + f)
            && KeepsTaken(w, w', b, except)
  {
    PushedIsLinked(w, avail, f, start, end - start);
    PushedTagged(w, len, b, f, start, end, except);
  }

  // ---------------------------------------------------------------------
  // Whole operations
  // ---------------------------------------------------------------------

  lemma RepresentsPartial(w: seq<int>, avail: int, m: Heap)
    requires Represents(w, avail, m)
    ensures Partial(w, avail, m.len, m.blocks, m.free)
  {
    forall k | 0 <= k < |m.free| ensures m.free[k] in m.blocks && 0 < m.blocks[m.free[k]] {
      assert OnList(m.free, m.free[k]);
    }
  }

  /** With block `it` off the list, tagging all of it as taken hands it out. */
  lemma CarvedWhole(w: seq<int>, avail: int, len: int, b: map<int, int>, f: seq<int>, it: int)
    requires Partial(w, avail, len, b, f) && it in b && 4 <= b[it] && it + b[it] in b
    requires forall k | 0 <= k < |f| :: f[k] != it
    ensures var w' := Retagged(w, it, b[it]);
            Tagged(w', b[it := -b[it]]) && Linked(w', avail, f) && KeepsTaken(w, w', b, it)
  {
    RetaggedWhole(w, len, b, it);
    forall k | 0 <= k < |f| ensures !(it <= f[k] < it + b[it]) { assert Clear(b, it, f[k]); }
    ListClear(len, b, f, it, it + b[it]);
    RetaggedLinked(w, avail, f, it, b[it]);
  }

  lemma ListAside(len: int, b: map<int, int>, f: seq<int>, it: int)
    requires Shaped(len, b) && Apart(b) && it in b && 4 <= b[it] && it + b[it] in b
    requires forall k | 0 <= k < |f| :: f[k] in b && 0 < b[f[k]] && f[k] != it
    ensures forall k | 0 <= k < |f| :: f[k] + 4 <= it || it + b[it] <= f[k]
  {
    forall k | 0 <= k < |f| ensures !(it <= f[k] < it + b[it]) { assert Clear(b, it, f[k]); }
    ListClear(len, b, f, it, it + b[it]);
  }

  /** With block `it` off the list, tagging its front as taken and putting the
      rest back on the list hands out the front. */
  lemma CarvedPart(w: seq<int>, avail: int, len: int, b: map<int, int>, f: seq<int>, it: int, ints: int)
    requires Partial(w, avail, len, b, f) && it in b && 4 <= ints && ints + 4 <= b[it] && it + b[it] in b
    requires it + b[it] <= len - 2 && 2 <= it
    requires forall k | 0 <= k < |f| :: f[k] != it
    requires Shaped(len, b[it := -ints][it + ints := b[it] - ints]) && Apart(b[it := -ints][it + ints := b[it] - ints])
    ensures var w' := Pushed(Retagged(w, it, ints), f, it + ints, b[it] - ints);
            && Tagged(w', b[it := -ints][it + ints := b[it] - ints])
            && Linked(w', it + ints, [it + ints] + f)
            && KeepsTaken(w, w', b, it)
  {
    var w1 := Retagged(w, it, ints);
    ListAside(len, b, f, it);
    assert Linked(w1, avail, f) by { RetaggedLinked(w, avail, f, it, ints); }
    RetaggedPart(w, len, b, it, ints);
    PushRest(w, w1, avail, len, b, f, it, ints);
  }

  lemma PushRest(w: seq<int>, w1: seq<int>, avail: int, len: int, b: map<int, int>, f: seq<int>, it: int, ints: int)
    requires |w1| == len && Apart(b) && it in b && 4 <= ints && ints + 4 <= b[it] && it + b[it] in b
    requires it + b[it] <= len - 2 && 2 <= it
    requires forall k | 0 <= k < |f| :: f[k] in b && 0 < b[f[k]] && (f[k] + 4 <= it || it + b[it] <= f[k])
    requires Shaped(len, b[it := -ints][it + ints := b[it] - ints]) && Apart(b[it := -ints][it + ints := b[it] - ints])
    requires Linked(w1, avail, f) && KeepsTaken(w, w1, b, it)
    requires TaggedOutside(w1, b[it := -ints][it + ints := b[it] - ints], it + ints, it + b[it])
    ensures var w' := Pushed(w1, f, it + ints, b[it] - ints);
            && Tagged(w', b[it := -ints][it + ints := b[it] - ints])
            && Linked(w', it + ints, [it + ints] + f)
            && KeepsTaken(w, w', b, it)
  {
    var c := b[it := -ints][it + ints := b[it] - ints];
    var end := it + b[it];
    var w2 := Pushed(w1, f, it + ints, end - (it + ints));
    assert it + ints !in b by { InsideIsNoHeader(b, it, it + ints); }
    PushBlock(w1, avail, len, c, f, it + ints, end, w2);
    KeepsTakenFewer(w1, w2, b, c, it, it + ints);
    KeepsTakenTwice(w, w1, w2, b, it);
  }

  /** Tagging and listing a block that is available already. */
  lemma PushBlock(w: seq<int>, avail: int, len: int, c: map<int, int>, f: seq<int>, start: int, end: int, w': seq<int>)
    requires |w| == len && Apart(c) && Shaped(len, c) && TaggedOutside(w, c, start, end) && Linked(w, avail, f)
    requires start in c && end in c && 2 <= start && start + 4 <= end <= len - 2 && c[start] == end - start
    requires f != [] ==> f[0] in c && 0 < c[f[0]]
    requires forall k | 0 <= k < |f| :: f[k] + 4 <= start || end <= f[k]
    requires w' == Pushed(w, f, start, end - start)
    ensures Tagged(w', c) && Linked(w', start, [start] + f) && KeepsTaken(w, w', c, start)
  {
    MergeSame(c, start, end);
    PushStep(w, avail, len, c, f, start, end, start);
  }

  lemma MergeSame(c: map<int, int>, start: int, end: int)
    requires Apart(c) && start in c && c[start] == end - start && start < end
    ensures Merge(c, start, end) == c
    ensures OnlyTaken(c, start, end, start)
  {
    forall g | g in c && g != start ensures !(start <= g < end) { assert Clear(c, start, g); }
  }

  lemma KeepsTakenFewer(w: seq<int>, w': seq<int>, b: map<int, int>, c: map<int, int>, except: int, other: int)
    requires KeepsTaken(w, w', c, other)
    requires forall h | h in b && h != except :: h in c && c[h] == b[h]
    requires other in b ==> 0 < b[other]
    ensures KeepsTaken(w, w', b, except)
  {
    forall h | h in b && b[h] < 0 && h != except ensures Kept(w, w', b, h) {
      assert Kept(w, w', c, h);
    }
  }

  // ---------------------------------------------------------------------
  // The same steps on a well-formed heap
  // ---------------------------------------------------------------------

  lemma UnlinkListed(w: seq<int>, avail: int, m: Heap, k: nat)
    requires Represents(w, avail, m) && k < |m.free|
    ensures Partial(w, avail, m.len, m.blocks, m.free)
    ensures m.free[k] in m.blocks && 4 <= m.blocks[m.free[k]] && 2 <= m.free[k]
    ensures m.free[k] + m.blocks[m.free[k]] in m.blocks && m.free[k] + m.blocks[m.free[k]] <= m.len - 2
    ensures forall j | 0 <= j < |m.free| - 1 :: Drop(m.free, k)[j] != m.free[k]
  {
    forall i | 0 <= i < |m.free| ensures m.free[i] in m.blocks && 0 < m.blocks[m.free[i]] {
      assert OnList(m.free, m.free[i]);
    }
    assert TakenRight(m.blocks, m.free[k]) && Clear(m.blocks, 0, m.free[k]);
    assert Clear(m.blocks, m.free[k] + m.blocks[m.free[k]], m.len - 2);
    forall j | 0 <= j < |m.free| - 1 ensures Drop(m.free, k)[j] != m.free[k] {
      assert if j < k then Differ(m.free, j, k) else Differ(m.free, k, j + 1);
    }
  }

  ghost function Head(f: seq<int>): int {
    if f == [] then 0 else f[0]
  }

  /** What the words at the `k`-th listed block say. */
  lemma ListedAt(w: seq<int>, avail: int, m: Heap, k: nat)
    requires Represents(w, avail, m) && k < |m.free|
    ensures var p := m.free[k];
            && 2 <= p && p + 4 <= |w| && p in m.blocks && 0 < m.blocks[p] <= m.len && w[p] == m.blocks[p]
            && w[p + 1] == if k + 1 < |m.free| then m.free[k + 1] else 0
  {
    assert OnList(m.free, m.free[k]) && TagAt(w, m.blocks, m.free[k]);
    assert k + 1 < |m.free| ==> Joined(w, m.free, k, k + 1);
  }

  /** A walk along the list `f` finds sizes and next links. */
  ghost predicate WalkAt(w: seq<int>, b: map<int, int>, f: seq<int>, k: nat)
    requires k < |f|
  {
    var p := f[k];
    && 2 <= p && p + 4 <= |w| && p in b && 0 < b[p] < 0x7FFF_FFFF && w[p] == b[p]
    && w[p + 1] == if k + 1 < |f| then f[k + 1] else 0
  }

  ghost predicate Walkable(w: seq<int>, b: map<int, int>, f: seq<int>) {
    forall k: nat {:trigger WalkAt(w, b, f, k)} | k < |f| :: WalkAt(w, b, f, k)
  }

  lemma ListedWalkable(w: seq<int>, avail: int, m: Heap)
    requires Represents(w, avail, m)
    ensures Walkable(w, m.blocks, m.free) && avail == Head(m.free)
  {
    forall k: nat | k < |m.free| ensures WalkAt(w, m.blocks, m.free, k) {
      ListedAt(w, avail, m, k);
    }
  }

  /** The list after handing out `ints` of the `mx` words at `f[k]`. */
  ghost function CarvedList(f: seq<int>, k: nat, mx: int, ints: int): seq<int>
    requires k < |f|
  {
    if 4 <= mx - ints then [f[k] + ints] + Drop(f, k) else Drop(f, k)
  }

  /** ... and the words. */
  ghost function CarvedWords(w: seq<int>, f: seq<int>, k: nat, mx: int, ints: int): seq<int>
    requires Spread(|w|, f) && k < |f| && 4 <= ints <= mx && f[k] + mx <= |w|
  {
    DropSpread(|w|, f, k);
    var it := f[k];
    var w1, g := Unlinked(w, f, k), Drop(f, k);
    if 4 <= mx - ints then
      Pushed(Retagged(w1, it, ints), g, it + ints, mx - ints)
    else
      Retagged(w1, it, mx)
  }

  lemma CarvedStep(w: seq<int>, avail: int, len: int, b: map<int, int>, f: seq<int>, k: nat, it: int, ints: int,
                   c: map<int, int>, w': seq<int>, f': seq<int>)
    requires Partial(w, avail, len, b, f) && k < |f| && it == f[k]
    requires 2 <= it && 4 <= ints <= b[it] && it + b[it] in b && it + b[it] <= len - 2
    requires forall j | 0 <= j < |f| - 1 :: Drop(f, k)[j] != it
    requires c == CarvedBlocks(b, it, ints) && Shaped(len, c) && Apart(c)
    requires w' == CarvedWords(w, f, k, b[it], ints) && f' == CarvedList(f, k, b[it], ints)
    ensures Tagged(w', c) && Linked(w', Head(f'), f') && KeepsTaken(w, w', b, it)
  {
    var w1, g := Unlinked(w, f, k), Drop(f, k);
    UnlinkStep(w, avail, len, b, f, k, it);
    CarvedWordsStep(w, w1, len, b, g, it, ints, c, w', f');
  }

  lemma CarvedWordsStep(w: seq<int>, w1: seq<int>, len: int, b: map<int, int>, g: seq<int>, it: int, ints: int,
                        c: map<int, int>, w': seq<int>, f': seq<int>)
    requires Partial(w1, Head(g), len, b, g)
    requires it in b && 2 <= it && 4 <= ints <= b[it] && it + b[it] in b && it + b[it] <= len - 2
    requires forall j | 0 <= j < |g| :: g[j] != it
    requires c == CarvedBlocks(b, it, ints) && Shaped(len, c) && Apart(c)
    requires w' == if 4 <= b[it] - ints then Pushed(Retagged(w1, it, ints), g, it + ints, b[it] - ints)
             else Retagged(w1, it, b[it])
    requires f' == if 4 <= b[it] - ints then [it + ints] + g else g
    requires KeepsTaken(w, w1, b, it)
    ensures Tagged(w', c) && Linked(w', Head(f'), f') && KeepsTaken(w, w', b, it)
  {
    if 4 <= b[it] - ints {
      CarvedPart(w1, Head(g), len, b, g, it, ints);
    } else {
      CarvedWhole(w1, Head(g), len, b, g, it);
    }
    KeepsTakenTwice(w, w1, w', b, it);
  }

  lemma CarvedLayout(w: seq<int>, avail: int, m: Heap, k: nat, ints: int)
    requires Represents(w, avail, m) && k < |m.free| && m.free[k] in m.blocks && 4 <= ints <= m.blocks[m.free[k]]
    requires m.free[k] + m.blocks[m.free[k]] <= |w|
    ensures var w', f' := CarvedWords(w, m.free, k, m.blocks[m.free[k]], ints),
            CarvedList(m.free, k, m.blocks[m.free[k]], ints);
            && Tagged(w', CarvedBlocks(m.blocks, m.free[k], ints)) && Linked(w', Head(f'), f')
            && KeepsTaken(w, w', m.blocks, m.free[k])
  {
    UnlinkListed(w, avail, m, k);
    CarveShaped(m, m.free[k], ints);
    CarvedStep(w, avail, m.len, m.blocks, m.free, k, m.free[k], ints, CarvedBlocks(m.blocks, m.free[k], ints),
               CarvedWords(w, m.free, k, m.blocks[m.free[k]], ints), CarvedList(m.free, k, m.blocks[m.free[k]], ints));
  }

  /** Handing out words of a listed block lays out the carved heap. */
  lemma CarvedRepresents(w: seq<int>, avail: int, m: Heap, k: nat, ints: int)
    requires Represents(w, avail, m) && k < |m.free| && m.free[k] in m.blocks && 4 <= ints <= m.blocks[m.free[k]]
    requires m.free[k] + m.blocks[m.free[k]] <= |w|
    ensures var w', f' := CarvedWords(w, m.free, k, m.blocks[m.free[k]], ints),
            CarvedList(m.free, k, m.blocks[m.free[k]], ints);
            && Represents(w', Head(f'), Carve(m, m.free[k], ints))
            && KeepsTaken(w, w', m.blocks, m.free[k])
  {
    CarvedLayout(w, avail, m, k, ints);
    assert Without(m.free, m.free[k]) == Drop(m.free, k) by { WithoutIndex(m.free, k); }
    assert WellFormed(Carve(m, m.free[k], ints)) by { CarveWellFormed(m, m.free[k], ints); }
  }

  // ---------------------------------------------------------------------
  // Releasing
  // ---------------------------------------------------------------------

  ghost function IndexOf(f: seq<int>, x: int): (k: nat)
    requires x in f
    ensures k < |f| && f[k] == x
  {
    var k: nat :| k < |f| && f[k] == x;
    k
  }

  /** The words and the list after unlinking `x` if it is available. */
  ghost function UnlinkedIf(w: seq<int>, f: seq<int>, cond: bool, x: int): (r: (seq<int>, seq<int>))
    requires Spread(|w|, f) && (cond ==> x in f)
    ensures |r.0| == |w| && Spread(|w|, r.1)
  {
    if cond then
      DropSpread(|w|, f, IndexOf(f, x));
      (Unlinked(w, f, IndexOf(f, x)), Drop(f, IndexOf(f, x)))
    else (w, f)
  }

  lemma UnlinkedIfStep(w: seq<int>, avail: int, len: int, b: map<int, int>, f: seq<int>, cond: bool, x: int,
                       except: int)
    requires Partial(w, avail, len, b, f) && (cond ==> x in f)
    ensures var (w', f') := UnlinkedIf(w, f, cond, x);
            Partial(w', Head(f'), len, b, f') && KeepsTaken(w, w', b, except)
  {
    if cond {
      UnlinkStep(w, avail, len, b, f, IndexOf(f, x), except);
    } else {
      forall h | h in b ensures Kept(w, w, b, h) {}
    }
  }

  lemma UnlinkedIfWithout(w: seq<int>, f: seq<int>, cond: bool, x: int)
    requires Spread(|w|, f) && NoDuplicates(f) && (cond <==> x in f)
    ensures UnlinkedIf(w, f, cond, x).1 == Without(f, x)
  {
    if cond {
      WithoutIndex(f, IndexOf(f, x));
    } else {
      WithoutAbsent(f, x);
    }
  }

  /** The lists while the neighbours of `h` are unlinked. */
  lemma FreedLists(w: seq<int>, m: Heap, h: int)
    requires |w| == m.len && WellFormed(m) && Live(m, h) && Spread(|w|, m.free)
    ensures var (p, r) := (Left(m, h), Right(m, h));
            && (0 < m.blocks[p] <==> p in m.free)
            && var (w1, f1) := UnlinkedIf(w, m.free, 0 < m.blocks[p], p);
            && f1 == Without(m.free, p)
            && (0 < m.blocks[r] <==> r in f1)
            && UnlinkedIf(w1, f1, 0 < m.blocks[r], r).1 == Without(f1, r)
  {
    var p, r := Left(m, h), Right(m, h);
    assert OnList(m.free, p) <==> 0 < m.blocks[p];
    assert OnList(m.free, r) <==> 0 < m.blocks[r];
    UnlinkedIfWithout(w, m.free, 0 < m.blocks[p], p);
    var (w1, f1) := UnlinkedIf(w, m.free, 0 < m.blocks[p], p);
    WithoutMembers(m.free, p);
    UnlinkedIfWithout(w1, f1, 0 < m.blocks[r], r);
  }

  /** With the available neighbours of `h` unlinked, tagging and linking the
      merged block lays out the heap in which `h` is released. */
  lemma FreedStep(w: seq<int>, w1: seq<int>, m: Heap, h: int, f: seq<int>, start: int, end: int, m2: Heap, w2: seq<int>)
    requires WellFormed(m) && Live(m, h) && Partial(w1, Head(f), m.len, m.blocks, f) && KeepsTaken(w, w1, m.blocks, h)
    requires f == Without(Without(m.free, Left(m, h)), Right(m, h)) && m2 == Free(m, h)
    requires start == MergedStart(m, h) && end == MergedEnd(m, h) && 2 <= start && start + 4 <= end <= |w1|
    requires w2 == Pushed(w1, f, start, end - start)
    ensures Represents(w2, start, m2) && KeepsTaken(w, w2, m.blocks, h)
  {
    FreedSpan(m, h);
    FreedListClear(m, h, f);
    FreedLayout(w, w1, Head(f), m.len, m.blocks, h, f, start, end, w2);
    assert WellFormed(m2) by { FreeWellFormed(m, h); }
    assert m2 == Heap(m.len, Merge(m.blocks, start, end), [start] + f);
  }

  lemma FreedLayout(w: seq<int>, w2: seq<int>, avail: int, len: int, b: map<int, int>, h: int, f: seq<int>, start: int,
                    end: int, w': seq<int>)
    requires Partial(w2, avail, len, b, f) && KeepsTaken(w, w2, b, h)
    requires start in b && end in b && 2 <= start && start + 4 <= end <= len - 2
    requires Shaped(len, Merge(b, start, end)) && Apart(Merge(b, start, end)) && OnlyTaken(b, start, end, h)
    requires forall k | 0 <= k < |f| :: f[k] + 4 <= start || end <= f[k]
    requires w' == Pushed(w2, f, start, end - start)
    ensures Tagged(w', Merge(b, start, end)) && Linked(w', start, [start] + f) && KeepsTaken(w, w', b, h)
  {
    PushStep(w2, avail, len, b, f, start, end, h);
    KeepsTakenTwice(w, w2, w', b, h);
  }

  lemma FreedSpan(m: Heap, h: int)
    requires WellFormed(m) && Live(m, h)
    ensures var start, end := MergedStart(m, h), MergedEnd(m, h);
            && start in m.blocks && end in m.blocks && 2 <= start && start + 4 <= end <= m.len - 2
            && Shaped(m.len, Merge(m.blocks, start, end)) && Apart(Merge(m.blocks, start, end))
            && OnlyTaken(m.blocks, start, end, h)
  {
    MergedSpan(m, h);
    MergeShaped(m.len, m.blocks, MergedStart(m, h), MergedEnd(m, h));
  }

  lemma NotMerged(m: Heap, h: int, g: int)
    requires WellFormed(m) && Live(m, h) && g in m.blocks && 0 < m.blocks[g] && g != Left(m, h) && g != Right(m, h)
    ensures !(MergedStart(m, h) <= g < MergedEnd(m, h))
  {
    MergedSpan(m, h);
  }

  lemma FreedListClear(m: Heap, h: int, f: seq<int>)
    requires WellFormed(m) && Live(m, h)
    requires f == Without(Without(m.free, Left(m, h)), Right(m, h))
    ensures forall k | 0 <= k < |f| :: f[k] in m.blocks && 0 < m.blocks[f[k]]
    ensures forall k | 0 <= k < |f| :: f[k] + 4 <= MergedStart(m, h) || MergedEnd(m, h) <= f[k]
  {
    WithoutTwice(m.free, Left(m, h), Right(m, h));
    assert MergedStart(m, h) in m.blocks && MergedEnd(m, h) in m.blocks &&
           MergedStart(m, h) < MergedEnd(m, h) by { MergedSpan(m, h); }
    forall k | 0 <= k < |f|
      ensures f[k] in m.blocks && 0 < m.blocks[f[k]] && !(MergedStart(m, h) <= f[k] < MergedEnd(m, h))
    {
      assert f[k] in Without(Without(m.free, Left(m, h)), Right(m, h));
      assert OnList(m.free, f[k]);
      NotMerged(m, h, f[k]);
    }
    ListClear(m.len, m.blocks, f, MergedStart(m, h), MergedEnd(m, h));
  }

  /** The headers on either side of a block. */
  datatype Sides = Sides(left: int, right: int)

  /** The words around `h`, before and while its neighbours are unlinked. */
  ghost predicate Releasable(w: seq<int>, h: int, s: Sides, f: seq<int>) {
    match s
    case Sides(p, r) =>
      && Spread(|w|, f)
      && 2 <= h < |w| && w[h] <= -4 && r == h - w[h] && r < |w|
      && 0 <= p < h && p == h - Abs(w[p]) && w[h - 1] == w[p]
      && w[p] != 0 && w[r] != 0 && (0 < w[p] ==> 2 <= p)
      && (0 < w[p] ==> p in f)
      && var (w1, f1) := UnlinkedIf(w, f, 0 < w[p], p);
         && w1[p] == w[p] && w1[r] == w[r] && Linked(w1, Head(f1), f1)
         && (0 < w1[r] ==> r in f1 && r + w1[r] <= |w|)
         && UnlinkedIf(w1, f1, 0 < w1[r], r).0[r] == w1[r]
  }

  /** The words and the list after unlinking the available ones of `p` and `r`. */
  ghost function Unlinked2(w: seq<int>, h: int, p: int, r: int, f: seq<int>): (res: (seq<int>, seq<int>))
    requires Releasable(w, h, Sides(p, r), f)
    ensures |res.0| == |w| && Spread(|w|, res.1)
  {
    var (w1, f1) := UnlinkedIf(w, f, 0 < w[p], p);
    UnlinkedIf(w1, f1, 0 < w[r], r)
  }

  lemma NeighbourTags(w: seq<int>, avail: int, m: Heap, h: int)
    requires Represents(w, avail, m) && Live(m, h)
    ensures var (p, r) := (Left(m, h), Right(m, h));
            && 2 <= h < |w| && w[h] == m.blocks[h] <= -4 && r == h - w[h] && r < |w| && w[r] == m.blocks[r] != 0
            && 0 <= p < h && w[p] == m.blocks[p] != 0 && p == h - Abs(w[p]) && w[h - 1] == w[p] && (0 < w[p] ==> 2 <= p)
            && (0 < w[r] ==> r + w[r] <= |w|)
  {
    var p, r := Left(m, h), Right(m, h);
    assert TagAt(w, m.blocks, h) && TagAt(w, m.blocks, p) && TagAt(w, m.blocks, r);
    assert Clear(m.blocks, 0, h) && Clear(m.blocks, 0, p);
  }

  lemma ReleaseUnlinks(w: seq<int>, avail: int, m: Heap, h: int)
    requires Represents(w, avail, m) && Live(m, h)
    ensures var (p, r) := (Left(m, h), Right(m, h));
            && (0 < m.blocks[p] ==> p in m.free)
            && var (w1, f1) := UnlinkedIf(w, m.free, 0 < m.blocks[p], p);
            && Partial(w1, Head(f1), m.len, m.blocks, f1)
            && (0 < m.blocks[r] ==> r in f1)
            && var (w2, f2) := UnlinkedIf(w1, f1, 0 < m.blocks[r], r);
            && Partial(w2, Head(f2), m.len, m.blocks, f2) && KeepsTaken(w, w2, m.blocks, h)
            && f2 == Without(Without(m.free, p), r)
  {
    var p, r := Left(m, h), Right(m, h);
    FreedLists(w, m, h);
    RepresentsPartial(w, avail, m);
    UnlinkedIfStep(w, avail, m.len, m.blocks, m.free, 0 < m.blocks[p], p, h);
    var (w1, f1) := UnlinkedIf(w, m.free, 0 < m.blocks[p], p);
    UnlinkedIfStep(w1, Head(f1), m.len, m.blocks, f1, 0 < m.blocks[r], r, h);
    KeepsTakenTwice(w, w1, UnlinkedIf(w1, f1, 0 < m.blocks[r], r).0, m.blocks, h);
  }

  lemma LiveReleasable(w: seq<int>, avail: int, m: Heap, h: int)
    requires Represents(w, avail, m) && Live(m, h)
    ensures Releasable(w, h, Sides(Left(m, h), Right(m, h)), m.free)
  {
    var p, r := Left(m, h), Right(m, h);
    NeighbourTags(w, avail, m, h);
    ReleaseUnlinks(w, avail, m, h);
    var (w1, f1) := UnlinkedIf(w, m.free, 0 < m.blocks[p], p);
    var (w2, f2) := UnlinkedIf(w1, f1, 0 < m.blocks[r], r);
    assert TagAt(w1, m.blocks, p) && TagAt(w1, m.blocks, r) && TagAt(w2, m.blocks, r);
  }

  lemma Unlinked2Partial(w: seq<int>, avail: int, m: Heap, h: int)
    requires Represents(w, avail, m) && Live(m, h) && Releasable(w, h, Sides(Left(m, h), Right(m, h)), m.free)
    ensures var (w2, f2) := Unlinked2(w, h, Left(m, h), Right(m, h), m.free);
            && Partial(w2, Head(f2), m.len, m.blocks, f2) && KeepsTaken(w, w2, m.blocks, h)
            && f2 == Without(Without(m.free, Left(m, h)), Right(m, h))
  {
    var p, r := Left(m, h), Right(m, h);
    assert w[p] == m.blocks[p] && w[r] == m.blocks[r] by { NeighbourTags(w, avail, m, h); }
    ReleaseUnlinks(w, avail, m, h);
  }

  /** What releasing a live block does to the words: unlink the available
      neighbours, then tag and link what they span with it. */
  lemma MergedLayout(w: seq<int>, avail: int, m: Heap, h: int, s: Sides, first: int, end: int, m2: Heap, w2: seq<int>)
    requires Represents(w, avail, m) && Live(m, h) && m2 == HeapModel.Free(m, h) && s == Sides(Left(m, h), Right(m, h))
    requires first == MergedStart(m, h) && end == MergedEnd(m, h) && Releasable(w, h, s, m.free) && 2 <= first &&
             first + 4 <= end <= |w|
    requires w2 == Pushed(Unlinked2(w, h, s.left, s.right, m.free).0, Unlinked2(w, h, s.left, s.right, m.free).1,
             first, end - first)
    ensures Represents(w2, first, m2) && KeepsTaken(w, w2, m.blocks, h)
  {
    Unlinked2Partial(w, avail, m, h);
    var (w1, f1) := Unlinked2(w, h, s.left, s.right, m.free);
    FreedStep(w, w1, m, h, f1, first, end, m2, w2);
  }

  lemma MergedBounds(m: Heap, h: int)
    requires WellFormed(m) && Live(m, h)
    ensures 2 <= MergedStart(m, h) && MergedStart(m, h) + 4 <= MergedEnd(m, h) <= m.len
  {
    FreedSpan(m, h);
  }

  /** Releasing `h`, with neighbours `p` and `r`: merged it is the words from
      `first` to `end`, and the words `w2` then lay out the heap `m2`. */
  lemma ReleaseLayout(w: seq<int>, avail: int, m: Heap, h: int, m2: Heap)
    returns (p: int, r: int, first: int, end: int, w2: seq<int>)
    requires Represents(w, avail, m) && Live(m, h) && m2 == HeapModel.Free(m, h)
    ensures Releasable(w, h, Sides(p, r), m.free)
    ensures first == (if 0 < w[p] then p else h) && end == if 0 < w[r] then r + w[r] else r
    ensures 2 <= first && first + 4 <= end <= |w|
    ensures w2 == Pushed(Unlinked2(w, h, p, r, m.free).0, Unlinked2(w, h, p, r, m.free).1, first, end - first)
    ensures Represents(w2, first, m2) && KeepsTaken(w, w2, m.blocks, h)
  {
    p, r, first, end := Left(m, h), Right(m, h), MergedStart(m, h), MergedEnd(m, h);
    LiveReleasable(w, avail, m, h);
    NeighbourTags(w, avail, m, h);
    MergedBounds(m, h);
    w2 := Pushed(Unlinked2(w, h, p, r, m.free).0, Unlinked2(w, h, p, r, m.free).1, first, end - first);
    MergedLayout(w, avail, m, h, Sides(p, r), first, end, m2, w2);
  }

  // ---------------------------------------------------------------------
  // Clients
  // ---------------------------------------------------------------------

  /** `w'` differs from `w` only in the payload of the block at `h`. */
  ghost predicate PayloadOnly(w: seq<int>, w': seq<int>, m: Heap, h: int)
    requires h in m.blocks
  {
    |w'| == |w| && forall j | 0 <= j < |w| && !(h < j < h + Abs(m.blocks[h]) - 1) :: w'[j] == w[j]
  }

  /** A client writing its own payload breaks nothing. */
  lemma PayloadWrite(w: seq<int>, w': seq<int>, avail: int, m: Heap, h: int)
    requires Represents(w, avail, m) && Live(m, h) && PayloadOnly(w, w', m, h)
    ensures Represents(w', avail, m)
    ensures KeepsTaken(w, w', m.blocks, h)
  {
    var b, f := m.blocks, m.free;
    assert Tagged(w', b) by {
      forall g | g in b ensures TagAt(w', b, g) {
        assert TagAt(w, b, g) && Clear(b, g, h);
      }
    }
    forall g | g in b && b[g] < 0 && g != h ensures Kept(w, w', b, g) {
      assert Clear(b, g, h);
    }
    PayloadLinks(w, w', avail, m, h);
  }

  lemma PayloadLinks(w: seq<int>, w': seq<int>, avail: int, m: Heap, h: int)
    requires Represents(w, avail, m) && Live(m, h) && PayloadOnly(w, w', m, h)
    ensures Linked(w', avail, m.free)
  {
    var b, f := m.blocks, m.free;
    forall k | 0 <= k < |f| ensures w'[f[k] + 1] == w[f[k] + 1] && w'[f[k] + 2] == w[f[k] + 2] {
      assert OnList(f, f[k]) && Clear(b, f[k], h);
    }
    forall i, j | 0 <= i < |f| && 0 <= j < |f| && j == i + 1 ensures Joined(w', f, i, j) {
      assert Joined(w, f, i, j);
    }
  }
}
