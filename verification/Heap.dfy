/** The boundary-tag heap over an array of words: the kernel's allocator and
    the user library's, which differ in how they choose a block. */
module BoundaryTagHeap {
  import opened HeapModel
  import opened HeapWords
  import opened WordBytes

  class Allocator {
    const words: array<int>
    var avail: int
    ghost var model: Heap

    ghost predicate Valid()
      reads this, words
    {
      Represents(words[..], avail, model)
    }

    function SizeAt(i: int): nat
      requires 0 <= i < words.Length
      reads words
    {
      Abs(words[i])
    }

    /** `heapInit`: one available block between two taken sentinels. What the
        words of `base` hold beforehand does not matter. */
    constructor (base: array<int>)
      requires 8 <= base.Length <= MAX_LEN
      modifies base
      ensures Valid() && words == base && model == Init(base.Length)
    {
      words := base;
      avail := 0;
      model := Init(base.Length);
      new;
      InitWellFormed(words.Length);
      MakeTaken(0, 2);
      MakeAvail(2, words.Length - 4, []);
      MakeTaken(words.Length - 2, 2);
      forall h | h in model.blocks ensures TagAt(words[..], model.blocks, h) {}
    }

    // -------------------------------------------------------------------
    // Links and tags
    // -------------------------------------------------------------------

    /** Unlink the `k`-th block of the list `f`. */
    method Remove(i: int, ghost f: seq<int>, ghost k: nat)
      requires Linked(words[..], avail, f) && k < |f| && f[k] == i
      modifies this`avail, words
      ensures words[..] == Unlinked(old(words[..]), f, k)
      ensures avail == if Drop(f, k) == [] then 0 else Drop(f, k)[0]
    {
      UnlinkedIsLinked(words[..], avail, f, k);
      var prevIndex := words[i + 2];
      var nextIndex := words[i + 1];
      if prevIndex == 0 {
        avail := nextIndex;
      } else {
        words[prevIndex + 1] := nextIndex;
      }
      if nextIndex != 0 {
        words[nextIndex + 2] := prevIndex;
      }
    }

    /** Tag `ints` words at `i` as available and put them at the head of the list. */
    method MakeAvail(i: int, ints: int, ghost f: seq<int>)
      requires Spread(words.Length, f) && avail == if f == [] then 0 else f[0]
      requires 2 <= i && 4 <= ints && i + ints <= words.Length
      modifies this`avail, words
      ensures words[..] == Pushed(old(words[..]), f, i, ints)
      ensures avail == i
    {
      words[i] := ints;
      words[i + SizeAt(i) - 1] := ints;
      words[i + 1] := avail;
      words[i + 2] := 0;
      if avail != 0 {
        words[avail + 2] := i;
      }
      avail := i;
    }

    method MakeTaken(i: int, ints: int)
      requires 0 <= i && 0 < ints && i + ints <= words.Length
      modifies words
      ensures words[..] == Retagged(old(words[..]), i, ints)
    {
      words[i] := -ints;
      words[i + SizeAt(i) - 1] := -ints;
    }

    // -------------------------------------------------------------------
    // Allocating
    // -------------------------------------------------------------------

    /** Unlink the block `it` of `mx` words, the `k`-th listed, tag `ints` words
        of it as taken and put the rest back if it is large enough. */
    method TakeWords(it: int, mx: int, ints: int, ghost f: seq<int>, ghost k: nat)
      requires Linked(words[..], avail, f) && k < |f| && f[k] == it
      requires 4 <= ints <= mx && it + mx <= words.Length
      modifies this`avail, words
      ensures words[..] == CarvedWords(old(words[..]), f, k, mx, ints) && avail == Head(CarvedList(f, k, mx, ints))
    {
      DropSpread(words.Length, f, k);
      Remove(it, f, k);
      var extra := mx - ints;
      if extra >= 4 {
        MakeTaken(it, ints);
        MakeAvail(it + ints, extra, Drop(f, k));
      } else {
        MakeTaken(it, mx);
      }
    }

    /** Hand out `ints` words of the available block `it`. */
    method TakeFrom(it: int, ints: int)
      requires Valid() && it in model.free && it in model.blocks && 4 <= ints <= model.blocks[it]
      modifies this, words
      ensures Valid() && model == Carve(old(model), it, ints)
      ensures KeepsTaken(old(words[..]), words[..], old(model.blocks), it)
    {
      ghost var k := IndexOf(model.free, it);
      ListedAt(words[..], avail, model, k);
      CarvedRepresents(words[..], avail, model, k, ints);
      TakeWords(it, SizeAt(it), ints, model.free, k);
      model := Carve(model, it, ints);
    }

    /** The kernel's search: walk the list, remember the smallest block that
        fits, and give up after `SEARCH_LIMIT` of them. */
    method Search(ints: int, ghost b: map<int, int>, ghost f: seq<int>) returns (it: int)
      requires avail == Head(f) && Walkable(words[..], b, f)
      ensures it == Smallest(b, Take(Fitting(b, f, ints), SEARCH_LIMIT))
    {
      var mx := 0x7FFF_FFFF;
      it := 0;
      var countDown := SEARCH_LIMIT;
      var p := avail;
      ghost var k: nat := 0;
      ghost var fits: seq<int> := [];
      while p != 0
        invariant 0 <= k <= |f| && p == if k < |f| then f[k] else 0
        invariant fits == FittingBefore(b, f, k, ints) && |fits| == SEARCH_LIMIT - countDown && 0 < countDown
        invariant it == Smallest(b, fits) && mx == if fits == [] then 0x7FFF_FFFF else SizeOf(b, it)
        decreases |f| - k
      {
        assert WalkAt(words[..], b, f, k);
        var sz := SizeAt(p);
        if sz >= ints {
          SmallestNext(b, fits, p);
          fits := fits + [p];
          if sz < mx {
            mx := sz;
            it := p;
          }
          countDown := countDown - 1;
          if countDown == 0 {
            FittingPrefix(b, f, k + 1, |f|, ints);
            assert fits == Take(Fitting(b, f, ints), SEARCH_LIMIT);
            return;
          }
        }
        p := words[p + 1];
        k := k + 1;
      }
      assert k < |f| ==> WalkAt(words[..], b, f, k);
    }

    /** The kernel's `malloc`. */
    method Malloc(bytes: nat) returns (res: Pointer)
      requires Valid() && bytes < UINT32_LIMIT
      modifies this, words
      ensures Valid()
      ensures (model, res) == HeapModel.Malloc(old(model), bytes)
      ensures KeepsTaken(old(words[..]), words[..], old(model.blocks), NONE)
    {
      if bytes == 0 {
        return Word(0);
      }
      var ints := (bytes + 3) % UINT32_LIMIT / 4 + 2;
      if ints < 4 { ints := 4; }
      BestFitUsable(model, ints);
      ListedWalkable(words[..], avail, model);
      var it := Search(ints, model.blocks, model.free);
      res := Null;
      if it != 0 {
        TakeFrom(it, ints);
        res := Word(it + 1);
      }
    }

    // -------------------------------------------------------------------
    // Releasing
    // -------------------------------------------------------------------

    /** Unlink `x` if it is available; `sz` is the number of words that gives. */
    method Absorb(x: int, ghost f: seq<int>) returns (sz: int)
      requires Linked(words[..], avail, f) && 0 <= x < words.Length && (0 < words[x] ==> x in f)
      requires UnlinkedIf(words[..], f, 0 < words[x], x).0[x] == words[x]
      modifies this`avail, words
      ensures words[..] == UnlinkedIf(old(words[..]), f, old(0 < words[x]), x).0
      ensures avail == Head(UnlinkedIf(old(words[..]), f, old(0 < words[x]), x).1)
      ensures sz == if old(0 < words[x]) then old(words[x]) else 0
    {
      sz := 0;
      if words[x] > 0 {
        Remove(x, f, IndexOf(f, x));
        sz := SizeAt(x);
      }
    }

    /** `free`. Null and the pointer of an empty request are ignored; a block
        that is already available is reported and left alone. */
    method Free(p: Pointer) returns (panicked: bool)
      requires Valid()
      requires p.Word? && p.index != 0 ==> p.index - 1 in model.blocks && 0 < p.index - 1 < model.len - 2
      modifies this, words
      ensures Valid()
      ensures panicked <==> p.Word? && p.index != 0 && !Live(old(model), p.index - 1)
      ensures model == if p.Word? && Live(old(model), p.index - 1) then HeapModel.Free(old(model), p.index - 1)
              else old(model)
      ensures KeepsTaken(old(words[..]), words[..], old(model.blocks), if p.Word? then p.index - 1 else NONE)
    {
      if p == Null || p == Word(0) {
        return false;
      }
      var idx := p.index - 1;
      assert TagAt(words[..], model.blocks, idx);
      if !(words[idx] < 0) {
        return true;
      }
      panicked := false;
      Release(idx);
    }

    /** Unlink the available neighbours of `h`, `p` on the left and `r` on the
        right; together with `h` they are the `n` words at `start`. */
    method AbsorbBoth(h: int, ghost p: int, ghost r: int, ghost f: seq<int>) returns (start: int, n: int)
      requires Linked(words[..], avail, f) && Releasable(words[..], h, Sides(p, r), f)
      modifies this`avail, words
      ensures words[..] == Unlinked2(old(words[..]), h, p, r, f).0
      ensures avail == Head(Unlinked2(old(words[..]), h, p, r, f).1)
      ensures start == if old(0 < words[p]) then p else h
      ensures start + n == if old(0 < words[r]) then r + old(words[r]) else r
    {
      ghost var f1 := UnlinkedIf(words[..], f, 0 < words[p], p).1;
      var sz := SizeAt(h);
      var leftIndex := h - 1 - SizeAt(h - 1) + 1;
      var rightIndex := h + sz;
      var onLeft := Absorb(leftIndex, f);
      var onRight := Absorb(rightIndex, f1);
      start, n := h - onLeft, onLeft + sz + onRight;
    }

    method ReleaseWords(h: int, ghost p: int, ghost r: int, ghost f: seq<int>, ghost first: int, ghost end: int,
                        ghost w2: seq<int>)
      requires Linked(words[..], avail, f) && Releasable(words[..], h, Sides(p, r), f)
      requires first == (if 0 < words[p] then p else h) && end == if 0 < words[r] then r + words[r] else r
      requires 2 <= first && first + 4 <= end <= words.Length
      modifies this`avail, words
      requires w2 == Pushed(Unlinked2(words[..], h, p, r, f).0, Unlinked2(words[..], h, p, r, f).1, first, end - first)
      ensures words[..] == w2 && avail == first
    {
      ghost var f2 := Unlinked2(words[..], h, p, r, f).1;
      var start, n := AbsorbBoth(h, p, r, f);
      MakeAvail(start, n, f2);
    }

    /** The body of `free`: merge `h` with its available neighbours. */
    method Release(h: int)
      requires Valid() && Live(model, h)
      modifies this, words
      ensures Valid() && model == HeapModel.Free(old(model), h)
      ensures KeepsTaken(old(words[..]), words[..], old(model.blocks), h)
    {
      ghost var m2 := HeapModel.Free(model, h);
      ReleaseBlock(h, m2);
      model := m2;
    }

    method ReleaseBlock(h: int, ghost m2: Heap)
      requires Valid() && Live(model, h) && m2 == HeapModel.Free(model, h)
      modifies this`avail, words
      ensures Represents(words[..], avail, m2) && KeepsTaken(old(words[..]), words[..], model.blocks, h)
    {
      ghost var w := words[..];
      ghost var p, r, first, end, w2 := ReleaseLayout(words[..], avail, model, h, m2);
      ReleaseWords(h, p, r, model.free, first, end, w2);
      SameWords(w, model.blocks, h, w2, first, m2, words[..], avail);
    }

    // -------------------------------------------------------------------
    // The user library
    // -------------------------------------------------------------------

    /** The user library's search: the first listed block that fits. */
    method SearchFirst(ints: int, ghost b: map<int, int>, ghost f: seq<int>) returns (it: int)
      requires avail == Head(f) && Walkable(words[..], b, f)
      ensures var fits := Fitting(b, f, ints); it == if fits == [] then 0 else fits[0]
    {
      it := avail;
      ghost var k: nat := 0;
      while it != 0
        invariant 0 <= k <= |f| && it == if k < |f| then f[k] else 0
        invariant FittingBefore(b, f, k, ints) == []
        decreases |f| - k
      {
        assert WalkAt(words[..], b, f, k);
        if SizeAt(it) >= ints {
          FittingPrefix(b, f, k + 1, |f|, ints);
          return;
        }
        it := words[it + 1];
        k := k + 1;
      }
      assert k < |f| ==> WalkAt(words[..], b, f, k);
    }

    /** The user library's `malloc`. */
    method MallocFirst(bytes: nat) returns (res: Pointer)
      requires Valid() && bytes < UINT32_LIMIT
      modifies this, words
      ensures Valid()
      ensures (model, res) == HeapModel.MallocFirst(old(model), bytes)
      ensures KeepsTaken(old(words[..]), words[..], old(model.blocks), NONE)
    {
      if bytes == 0 {
        return Word(0);
      }
      var ints := (bytes + 3) % UINT32_LIMIT / 4 + 2;
      if ints < 4 { ints := 4; }
      FirstFitUsable(model, ints);
      ListedWalkable(words[..], avail, model);
      var it := SearchFirst(ints, model.blocks, model.free);
      res := Null;
      if it != 0 {
        TakeFrom(it, ints);
        res := Word(it + 1);
      }
    }

    /** The user library's `realloc`, for null and live pointers. The bytes kept
        are those of the whole old block, which is two words longer than its
        payload, or the bytes asked for if they are fewer. The old block goes
        even when there is no room for the new one. A size so large that its
        rounding wraps is fine unless the copy then leaves the new payload. */
    method Realloc(p: Pointer, newSize: nat) returns (res: Pointer)
      requires Valid() && newSize < UINT32_LIMIT
      requires p.Word? ==> Live(model, p.index - 1)
      requires p.Word? && newSize != 0 ==> CopyFits(model, p.index - 1, newSize)
      modifies this, words
      ensures Valid()
      ensures (model, res) == HeapModel.Realloc(old(model), p, newSize)
      ensures p.Word? && res.Word? && newSize != 0 ==>
                SameBytes(old(words[..]), words[..], p.index, res.index, newSize, PayloadBytes(old(model), p.index - 1))
      ensures KeepsTaken(old(words[..]), words[..], old(model.blocks), if p.Word? then p.index - 1 else NONE)
    {
      if p == Null {
        res := MallocFirst(newSize);
        return;
      }
      var idx := p.index - 1;
      if newSize == 0 {
        Release(idx);
        return Null;
      }
      res := Move(idx, newSize);
    }

    /** Allocate, copy and release. */
    method Move(h: int, newSize: nat) returns (res: Pointer)
      requires Valid() && Live(model, h) && 0 < newSize < UINT32_LIMIT && CopyFits(model, h, newSize)
      modifies this, words
      ensures Valid() && (model, res) == Replace(old(model), h, newSize)
      ensures res != Null ==>
                res.Word? &&
                SameBytes(old(words[..]), words[..], h + 1, res.index, newSize, PayloadBytes(old(model), h))
      ensures KeepsTaken(old(words[..]), words[..], old(model.blocks), h)
    {
      ghost var m, w := model, words[..];
      MallocFirstKeeps(m, newSize);
      res := CopyOut(h, newSize);
      ghost var m1, w1 := model, words[..];
      Release(h);
      assert (model, res) == Replace(m, h, newSize);
      MovedKeeps(w, w1, words[..], m, m1, h);
      if res != Null {
        StillMoved(w, w1, words[..], m1, h, res.index - 1, newSize, CopyLength(m, h, newSize), PayloadBytes(m, h));
      }
    }

    /** Allocate and copy. */
    method CopyOut(h: int, newSize: nat) returns (res: Pointer)
      requires Valid() && Live(model, h) && 0 < newSize < UINT32_LIMIT && CopyFits(model, h, newSize)
      modifies this, words
      ensures Valid() && (model, res) == HeapModel.MallocFirst(old(model), newSize)
      ensures res != Null ==>
                res.Word? &&
                SameBytes(old(words[..]), words[..], h + 1, res.index, newSize, PayloadBytes(old(model), h))
      ensures KeepsTaken(old(words[..]), words[..], old(model.blocks), NONE)
    {
      ghost var m, w := model, words[..];
      assert TagAt(w, m.blocks, h);
      var sz := SizeAt(h) * 4;
      MallocFirstKeeps(m, newSize);
      res := MallocFirst(newSize);
      if res != Null {
        var n := if newSize > sz then sz else newSize;
        CopyInto(h, res.index - 1, newSize, n, w, m);
      }
    }

    /** Copy `n` bytes of block `h` into the new block `g`. */
    method CopyInto(h: int, g: int, newSize: nat, n: nat, ghost w: seq<int>, ghost m: Heap)
      requires Valid() && Granted(w, words[..], m, model, h, g, newSize, n)
      modifies words
      ensures Valid()
      ensures SameBytes(w, words[..], h + 1, g + 1, newSize, PayloadBytes(m, h)) &&
              KeepsTaken(w, words[..], m.blocks, NONE)
    {
      ghost var w1 := words[..];
      MoveRoom(w, w1, m, model, h, g, newSize, n);
      CopyBytes(words, g + 1, h + 1, n);
      CopyKeeps(w, w1, words[..], avail, m, model, h, g, newSize, n);
    }
  }

  function PayloadBytes(m: Heap, h: int): int
    requires Live(m, h)
  {
    4 * (Abs(m.blocks[h]) - 2)
  }

  /** Heap `m1` in words `w1` is heap `m` in words `w` after the block `g` was
      handed out, with room for the `n` bytes to be copied from block `h`. */
  ghost predicate Granted(w: seq<int>, w1: seq<int>, m: Heap, m1: Heap, h: int, g: int, newSize: nat, n: nat) {
    match m
    case Heap(len, blocks, _) =>
      && WellFormed(m) && WellFormed(m1) && |w| == |w1| == len == m1.len && KeepsTaken(w, w1, blocks, NONE)
      && (forall x | Live(m, x) :: x in m1.blocks && m1.blocks[x] == blocks[x])
      && Live(m, h) && Live(m1, h) && !Live(m, g) && Live(m1, g)
      && n == CopyLength(m, h, newSize) && n <= PayloadBytes(m1, g)
  }

  /** The words copied by `Realloc` are inside the heap, those written are the
      new block's payload, and none is both read and written. */
  lemma MoveRoom(w: seq<int>, w1: seq<int>, m: Heap, m1: Heap, h: int, g: int, newSize: nat, n: nat)
    requires Granted(w, w1, m, m1, h, g, newSize, n)
    ensures 0 <= h && 0 <= g && h + 1 + (n + 3) / 4 <= |w1| && g + 1 + (n + 3) / 4 <= |w1|
    ensures h + 1 + (n + 3) / 4 <= g + 1 || g + 1 + (n + 3) / 4 <= h + 1
  {
    assert Clear(m1.blocks, h, g) && Clear(m1.blocks, h, m1.len - 2) && Clear(m1.blocks, g, m1.len - 2);
  }

  /** Copying into the payload of the new block `g` breaks nothing and keeps
      the blocks that were taken before. */
  lemma CopyKeeps(w: seq<int>, w1: seq<int>, w2: seq<int>, avail: int, m: Heap, m1: Heap, h: int, g: int, newSize: nat,
                  n: nat)
    requires Granted(w, w1, m, m1, h, g, newSize, n) && Represents(w1, avail, m1) && 0 <= g && 0 <= h
    requires Copied(w1, w2, g + 1, h + 1, n)
    ensures Represents(w2, avail, m1) && KeepsTaken(w, w2, m.blocks, NONE)
    ensures SameBytes(w, w2, h + 1, g + 1, newSize, PayloadBytes(m, h))
  {
    assert Clear(m.blocks, h, m.len - 2);
    PayloadWrite(w1, w2, avail, m1, g);
    CopiedKeeps(w, w1, w2, m, m1, g);
    PayloadCopied(w, w1, w2, m, m1, h, g, n, newSize);
  }

  lemma SameWords(w: seq<int>, b: map<int, int>, h: int, w2: seq<int>, first: int, m2: Heap, w3: seq<int>, avail: int)
    requires w3 == w2 && avail == first && Represents(w2, first, m2) && KeepsTaken(w, w2, b, h)
    ensures Represents(w3, avail, m2) && KeepsTaken(w, w3, b, h)
  {
  }

  lemma CopiedKeeps(w: seq<int>, w1: seq<int>, w2: seq<int>, m: Heap, m1: Heap, g: int)
    requires WellFormed(m) && KeepsTaken(w, w1, m.blocks, NONE) && KeepsTaken(w1, w2, m1.blocks, g)
    requires WellFormed(m1) && m.len == m1.len && Live(m1, g) && !Live(m, g)
    requires forall x | Live(m, x) :: x in m1.blocks && m1.blocks[x] == m.blocks[x]
    ensures KeepsTaken(w, w2, m.blocks, NONE)
  {
    var b := m.blocks;
    forall x | x in b && b[x] < 0 && x != NONE ensures Kept(w, w2, b, x) {
      TakenStays(m, m1, x);
      assert Kept(w, w1, b, x) && Kept(w1, w2, m1.blocks, x);
    }
  }

  lemma TakenStays(m: Heap, m1: Heap, x: int)
    requires WellFormed(m) && WellFormed(m1) && m.len == m1.len && x in m.blocks && m.blocks[x] < 0
    requires forall x | Live(m, x) :: x in m1.blocks && m1.blocks[x] == m.blocks[x]
    ensures x in m1.blocks && m1.blocks[x] == m.blocks[x]
    ensures Live(m, x) || x == 0 || x == m.len - 2
  {
    assert Clear(m.blocks, x, 0) && Clear(m.blocks, x, m.len - 2);
  }

  lemma MovedKeeps(w: seq<int>, w1: seq<int>, w2: seq<int>, m: Heap, m1: Heap, h: int)
    requires WellFormed(m) && KeepsTaken(w, w1, m.blocks, NONE) && KeepsTaken(w1, w2, m1.blocks, h)
    requires WellFormed(m1) && m.len == m1.len
    requires forall x | Live(m, x) :: x in m1.blocks && m1.blocks[x] == m.blocks[x]
    ensures KeepsTaken(w, w2, m.blocks, h)
  {
    var b := m.blocks;
    forall x | x in b && b[x] < 0 && x != h ensures Kept(w, w2, b, x) {
      TakenStays(m, m1, x);
      assert Kept(w, w1, b, x) && Kept(w1, w2, m1.blocks, x);
    }
  }

  /** The bytes of block `h` that end up in block `g`. */
  lemma PayloadCopied(w: seq<int>, w1: seq<int>, w2: seq<int>, m: Heap, m1: Heap, h: int, g: int, n: nat, newSize: nat)
    requires Live(m, h) && h + Abs(m.blocks[h]) <= |w| == |w1| == |w2| && 0 <= g
    requires KeepsTaken(w, w1, m.blocks, NONE) && Copied(w1, w2, g + 1, h + 1, n)
    requires n == CopyLength(m, h, newSize)
    ensures SameBytes(w, w2, h + 1, g + 1, newSize, PayloadBytes(m, h))
  {
    assert Kept(w, w1, m.blocks, h);
    forall i: nat {:trigger SameByte(w, w2, h + 1, g + 1, i)} | i < newSize && i < PayloadBytes(m, h)
      ensures SameByte(w, w2, h + 1, g + 1, i)
    {
      var a, c := 4 * (g + 1) + i, 4 * (h + 1) + i;
      assert a / 4 == g + 1 + i / 4 && c / 4 == h + 1 + i / 4;
      assert ByteAt(w2, a) == ByteAt(w1, a - 4 * (g + 1) + 4 * (h + 1));
    }
  }

  /** Releasing `h` does not disturb the bytes in block `g`. */
  lemma StillMoved(w: seq<int>, w1: seq<int>, w2: seq<int>, m1: Heap, h: int, g: int, newSize: nat, n: nat, limit: int)
    requires Live(m1, g) && g != h && n <= PayloadBytes(m1, g) && (newSize <= n || limit <= n)
    requires KeepsTaken(w1, w2, m1.blocks, h) && SameBytes(w, w1, h + 1, g + 1, newSize, limit)
    ensures SameBytes(w, w2, h + 1, g + 1, newSize, limit)
  {
    assert Kept(w1, w2, m1.blocks, g);
    forall i: nat {:trigger SameByte(w, w2, h + 1, g + 1, i)} | i < newSize && i < limit
      ensures SameByte(w, w2, h + 1, g + 1, i)
    {
      assert SameByte(w, w1, h + 1, g + 1, i);
      assert (4 * (g + 1) + i) / 4 == g + 1 + i / 4;
    }
  }
}
