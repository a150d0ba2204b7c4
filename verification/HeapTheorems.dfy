/** What holds of every run of the heap: the tiling, the payloads handed out,
    when a request is refused, and that releasing undoes allocating. */
module HeapTheorems {
  import opened HeapModel

  // ---------------------------------------------------------------------
  // One allocation
  // ---------------------------------------------------------------------

  /** Zero bytes: the heap's own address, which is no block's. */
  lemma NothingAsked(m: Heap)
    requires WellFormed(m)
    ensures Malloc(m, 0) == (m, Word(0)) && MallocFirst(m, 0) == (m, Word(0)) && !Live(m, -1)
  {
  }

  lemma MallocKeeps(m: Heap, bytes: nat)
    requires WellFormed(m) && 0 < bytes
    ensures var (m', p) := Malloc(m, bytes);
            && WellFormed(m') && m'.len == m.len
            && (p == Null ==> m' == m)
            && (p != Null ==>
                && p.index - 1 in m'.blocks
                && Fits(Abs(m'.blocks[p.index - 1]), bytes) && !Fits(Abs(m'.blocks[p.index - 1]) - 4, bytes))
            && (forall h :: Live(m', h) <==> Live(m, h) || p == Word(h + 1))
            && (p != Null ==> !Live(m, p.index - 1))
            && (forall h | Live(m, h) :: m'.blocks[h] == m.blocks[h])
  {
    BestFitUsable(m, WordsFor(bytes));
    AllocateKeeps(m, BestFit(m, WordsFor(bytes)), WordsFor(bytes));
  }

  /** The block handed out holds the bytes asked for exactly when rounding the
      request up did not wrap around in 32 bits. */
  lemma PayloadHoldsRequestIff(m: Heap, bytes: nat)
    requires WellFormed(m) && 0 < bytes < UINT32_LIMIT && Malloc(m, bytes).1 != Null
    ensures var (m', p) := Malloc(m, bytes);
            && p.index - 1 in m'.blocks
            && (bytes <= 4 * (Abs(m'.blocks[p.index - 1]) - 2) <==> bytes + 3 < UINT32_LIMIT)
  {
    MallocKeeps(m, bytes);
  }

  /** A request of nearly 2^32 bytes is granted by every fresh heap. */
  lemma WrappedRequestGranted(len: int)
    requires 8 <= len <= MAX_LEN
    ensures WellFormed(Init(len))
    ensures Malloc(Init(len), 0xFFFF_FFFD).1 == Word(3) && 0xFFFF_FFFD > 4 * len
  {
    InitWellFormed(len);
    var m := Init(len);
    var n := WordsFor(0xFFFF_FFFD);
    assert FittingBefore(m.blocks, m.free, 1, n) == FittingBefore(m.blocks, m.free, 0, n) + [2];
    assert Smallest(m.blocks, [2]) == 2;
  }

  lemma FreeKeeps(m: Heap, h: int)
    requires WellFormed(m) && Live(m, h)
    ensures WellFormed(Free(m, h)) && Free(m, h).len == m.len
    ensures forall g :: Live(Free(m, h), g) <==> Live(m, g) && g != h
    ensures forall g | Live(m, g) && g != h :: g in Free(m, h).blocks && Free(m, h).blocks[g] == m.blocks[g]
  {
    FreeWellFormed(m, h);
    MergedSpan(m, h);
    var c := Free(m, h).blocks;
    forall g | Live(m, g) && g != h ensures g in c && c[g] == m.blocks[g] {}
  }

  // ---------------------------------------------------------------------
  // Every run
  // ---------------------------------------------------------------------

  datatype Call = Alloc(bytes: nat) | Release(header: int)

  /** A heap and the number of bytes each live block was asked to hold. */
  datatype Client = Client(heap: Heap, wanted: map<int, nat>)

  ghost predicate Sound(c: Client) {
    && WellFormed(c.heap)
    && (forall h :: h in c.wanted <==> Live(c.heap, h))
    && (forall h | h in c.wanted :: c.wanted[h] <= 4 * (Abs(c.heap.blocks[h]) - 2))
  }

  /** A request that does not wrap, or the release of a live pointer. */
  ghost predicate Allowed(c: Client, call: Call) {
    match call
    case Alloc(bytes) => bytes + 3 < UINT32_LIMIT
    case Release(h) => h in c.wanted
  }

  ghost function After(c: Client, call: Call): Client
    requires Sound(c) && Allowed(c, call)
  {
    match call
    case Alloc(bytes) =>
      var (m, p) := Malloc(c.heap, bytes);
      Client(m, if bytes == 0 || p == Null then c.wanted else c.wanted[p.index - 1 := bytes])
    case Release(h) =>
      Client(Free(c.heap, h), c.wanted - {h})
  }

  /** States `cs` are those of a run of `calls` on a fresh heap of `len` words. */
  ghost predicate IsRun(len: int, cs: seq<Client>, calls: seq<Call>) {
    && |cs| == |calls| + 1
    && cs[0] == Client(Init(len), map[])
    && forall i | 0 <= i < |calls| ::
         Sound(cs[i]) ==> Allowed(cs[i], calls[i]) && cs[i + 1] == After(cs[i], calls[i])
  }

  lemma AfterSound(c: Client, call: Call)
    requires Sound(c) && Allowed(c, call)
    ensures Sound(After(c, call))
  {
    match call
    case Alloc(bytes) =>
      if bytes != 0 {
        MallocKeeps(c.heap, bytes);
      }
    case Release(h) =>
      FreeKeeps(c.heap, h);
  }

  /** The words that hold the bytes asked for at `h`. */
  ghost function PayloadEnd(c: Client, h: int): int
    requires h in c.wanted
  {
    h + 1 + (c.wanted[h] + 3) / 4
  }

  /** Payloads lie strictly between the sentinels and do not overlap. */
  lemma PayloadsDisjoint(c: Client, g: int, h: int)
    requires Sound(c) && g in c.wanted && h in c.wanted && g < h
    ensures 2 < g + 1 && PayloadEnd(c, g) < h + 1 && PayloadEnd(c, h) < c.heap.len - 2
  {
    var b := c.heap.blocks;
    assert Clear(b, 0, g) && Clear(b, g, h) && Clear(b, h, c.heap.len - 2);
  }

  /** In every state of every run the blocks tile the heap, the list holds the
      available blocks once each, no two available blocks touch, the blocks in
      use are those the client holds, each has room for the bytes asked for,
      and their payloads do not overlap. */
  lemma {:induction false} EveryRunIsSound(len: int, cs: seq<Client>, calls: seq<Call>, i: nat)
    requires 8 <= len <= MAX_LEN && IsRun(len, cs, calls) && i < |cs|
    ensures Sound(cs[i])
    ensures forall g, h | g in cs[i].wanted && h in cs[i].wanted && g < h :: PayloadEnd(cs[i], g) < h + 1
  {
    if i == 0 {
      InitWellFormed(len);
    } else {
      EveryRunIsSound(len, cs, calls, i - 1);
      AfterSound(cs[i - 1], calls[i - 1]);
      assert cs[(i - 1) + 1] == After(cs[i - 1], calls[i - 1]);
    }
    forall g, h | g in cs[i].wanted && h in cs[i].wanted && g < h ensures PayloadEnd(cs[i], g) < h + 1 {
      PayloadsDisjoint(cs[i], g, h);
    }
  }

  // ---------------------------------------------------------------------
  // The tiling, word by word
  // ---------------------------------------------------------------------

  ghost predicate Covers(b: map<int, int>, h: int, w: int) {
    h in b && h <= w < h + Abs(b[h])
  }

  /** Each word of the heap belongs to exactly one block. */
  lemma {:induction false} EveryWordInOneBlock(m: Heap, w: nat) returns (h: int)
    requires WellFormed(m) && w < m.len
    ensures forall g :: Covers(m.blocks, g, w) <==> g == h
  {
    if w == 0 {
      h := 0;
    } else {
      h := EveryWordInOneBlock(m, w - 1);
      assert Covers(m.blocks, h, w - 1);
      assert HasRight(m.len, m.blocks, h);
      if w == h + Abs(m.blocks[h]) {
        h := w;
      }
    }
    assert Covers(m.blocks, h, w);
    forall g | Covers(m.blocks, g, w) ensures g == h { assert Clear(m.blocks, g, h); }
  }

  ghost predicate FreeWord(b: map<int, int>, w: int) {
    exists h :: Covers(b, h, w) && 0 < b[h]
  }

  /** `n` consecutive words starting at `a` are all free. */
  ghost predicate Gap(b: map<int, int>, a: int, n: int) {
    forall w | a <= w < a + n :: FreeWord(b, w)
  }

  lemma TakenHeaderNotFree(m: Heap, h: int)
    requires WellFormed(m) && h in m.blocks && m.blocks[h] < 0
    ensures !FreeWord(m.blocks, h)
  {
    forall g | Covers(m.blocks, g, h) ensures m.blocks[g] < 0 { assert Clear(m.blocks, g, h); }
  }

  lemma GapInOneBlock(m: Heap, a: int, n: int) returns (h: int)
    requires WellFormed(m) && 0 < n && Gap(m.blocks, a, n)
    ensures h in m.blocks && 0 < m.blocks[h] && h <= a && a + n <= h + m.blocks[h]
  {
    assert FreeWord(m.blocks, a);
    h :| Covers(m.blocks, h, a) && 0 < m.blocks[h];
    assert TakenRight(m.blocks, h);
    TakenHeaderNotFree(m, h + m.blocks[h]);
  }

  /** Somewhere as many words as the request fits in are free in a row. */
  ghost predicate HasRoom(b: map<int, int>, bytes: nat) {
    exists a, n :: Gap(b, a, n) && Fits(n, bytes)
  }

  /** The least number of words that fit will do. */
  lemma RoomIffGap(b: map<int, int>, bytes: nat)
    ensures HasRoom(b, bytes) <==> exists a :: Gap(b, a, WordsFor(bytes))
  {
    assert Fits(WordsFor(bytes), bytes);
    if HasRoom(b, bytes) {
      var a, n :| Gap(b, a, n) && Fits(n, bytes);
      assert Gap(b, a, WordsFor(bytes));
    }
  }

  /** A request is refused exactly when no gap in the heap is long enough. */
  lemma MallocFailsIffNoGap(m: Heap, bytes: nat)
    requires WellFormed(m) && 0 < bytes
    ensures Malloc(m, bytes).1 == Null <==> !HasRoom(m.blocks, bytes)
  {
    RoomIffGap(m.blocks, bytes);
    var n := WordsFor(bytes);
    var k := BestFitIsEarliestSmallest(m, n);
    var it := BestFit(m, n);
    if it == 0 {
      forall h | h in m.blocks && 0 < m.blocks[h] ensures m.blocks[h] < n { assert OnList(m.free, h); }
      forall a ensures !Gap(m.blocks, a, n) {
        if Gap(m.blocks, a, n) {
          var h := GapInOneBlock(m, a, n);
        }
      }
    } else {
      forall w | it <= w < it + n ensures FreeWord(m.blocks, w) {
        assert Covers(m.blocks, it, w);
      }
      assert Gap(m.blocks, it, n);
    }
  }

  // ---------------------------------------------------------------------
  // Which block is handed out
  // ---------------------------------------------------------------------

  /** How many of the first `j` listed blocks the request fits in. */
  function Rivals(m: Heap, j: nat, bytes: nat): nat
    requires j <= |m.free|
  {
    if j == 0 then 0
    else Rivals(m, j - 1, bytes) + if Fits(SizeOf(m.blocks, m.free[j - 1]), bytes) then 1 else 0
  }

  lemma {:induction false} FittingAt(m: Heap, n: nat, j: nat, bytes: nat)
    requires n <= |m.free|
    ensures var fits := FittingBefore(m.blocks, m.free, n, WordsFor(bytes));
            && |fits| == Rivals(m, n, bytes)
            && (j < n && Fits(SizeOf(m.blocks, m.free[j]), bytes) ==>
                Rivals(m, j, bytes) < |fits| && fits[Rivals(m, j, bytes)] == m.free[j])
  {
    if n > 0 { FittingAt(m, n - 1, j, bytes); }
    if 0 < n == j + 1 { FittingAt(m, j, j, bytes); }
  }

  lemma {:induction false} FittingFrom(m: Heap, n: nat, i: nat, bytes: nat) returns (j: nat)
    requires n <= |m.free| && i < |FittingBefore(m.blocks, m.free, n, WordsFor(bytes))|
    ensures j < n && Rivals(m, j, bytes) == i && Fits(SizeOf(m.blocks, m.free[j]), bytes)
    ensures FittingBefore(m.blocks, m.free, n, WordsFor(bytes))[i] == m.free[j]
  {
    if i < |FittingBefore(m.blocks, m.free, n - 1, WordsFor(bytes))| {
      j := FittingFrom(m, n - 1, i, bytes);
    } else {
      j := n - 1;
      FittingAt(m, n - 1, j, bytes);
    }
  }

  /** Block `k` of the list is handed out: its front, if what is left is large
      enough to go on the list, first, and the whole block otherwise. */
  ghost predicate HandsOut(m: Heap, k: nat, m': Heap, p: Pointer)
    requires k < |m.free|
  {
    var h := m.free[k];
    && p == Word(h + 1) && h in m.blocks && h in m'.blocks
    && if -m'.blocks[h] < m.blocks[h] then m'.free == [h - m'.blocks[h]] + Drop(m.free, k)
       else m'.free == Drop(m.free, k)
  }

  lemma {:induction false} HandedOut(m: Heap, k: nat, bytes: nat)
    requires WellFormed(m) && k < |m.free| && Fits(SizeOf(m.blocks, m.free[k]), bytes)
    ensures m.free[k] in m.blocks
    ensures HandsOut(m, k, Carve(m, m.free[k], WordsFor(bytes)), Word(m.free[k] + 1))
  {
    assert OnList(m.free, m.free[k]);
    assert Without(m.free, m.free[k]) == Drop(m.free, k) by { WithoutIndex(m.free, k); }
  }

  /** The kernel's `malloc` hands out the earliest smallest of the first 20
      listed blocks, at most, that the request fits in. */
  lemma {:induction false} MallocPicks(m: Heap, bytes: nat, m': Heap, p: Pointer) returns (k: nat)
    requires WellFormed(m) && 0 < bytes && (m', p) == Malloc(m, bytes) && p != Null
    ensures k < |m.free| && HandsOut(m, k, m', p)
    ensures Fits(SizeOf(m.blocks, m.free[k]), bytes) && Rivals(m, k, bytes) < 20
    ensures forall j: nat | j < |m.free| && Fits(SizeOf(m.blocks, m.free[j]), bytes) && Rivals(m, j, bytes) < 20 ::
              && SizeOf(m.blocks, m.free[k]) <= SizeOf(m.blocks, m.free[j])
              && (j < k ==> SizeOf(m.blocks, m.free[k]) < SizeOf(m.blocks, m.free[j]))
  {
    k := PickedIsLeast(m, bytes);
    HandedOut(m, k, bytes);
  }

  lemma {:induction false} PickedIsLeast(m: Heap, bytes: nat) returns (k: nat)
    requires WellFormed(m) && BestFit(m, WordsFor(bytes)) != 0
    ensures k < |m.free| && m.free[k] == BestFit(m, WordsFor(bytes))
    ensures Fits(SizeOf(m.blocks, m.free[k]), bytes) && Rivals(m, k, bytes) < 20
    ensures forall j: nat | j < |m.free| && Fits(SizeOf(m.blocks, m.free[j]), bytes) && Rivals(m, j, bytes) < 20 ::
              && SizeOf(m.blocks, m.free[k]) <= SizeOf(m.blocks, m.free[j])
              && (j < k ==> SizeOf(m.blocks, m.free[k]) < SizeOf(m.blocks, m.free[j]))
  {
    var fits := Take(Fitting(m.blocks, m.free, WordsFor(bytes)), SEARCH_LIMIT);
    var i := BestFitIsEarliestSmallest(m, WordsFor(bytes));
    k := FittingFrom(m, |m.free|, i, bytes);
    forall j: nat | j < |m.free| && Fits(SizeOf(m.blocks, m.free[j]), bytes) && Rivals(m, j, bytes) < 20
      ensures SizeOf(m.blocks, fits[i]) <= SizeOf(m.blocks, m.free[j])
      ensures j < k ==> SizeOf(m.blocks, fits[i]) < SizeOf(m.blocks, m.free[j])
    {
      FittingAt(m, |m.free|, j, bytes);
      assert fits[Rivals(m, j, bytes)] == m.free[j];
      if j < k { RivalsGrow(m, j, k, bytes); }
    }
  }

  lemma {:induction false} RivalsGrow(m: Heap, j: nat, k: nat, bytes: nat)
    requires j < k <= |m.free| && Fits(SizeOf(m.blocks, m.free[j]), bytes)
    ensures Rivals(m, j, bytes) < Rivals(m, k, bytes)
  {
    if j < k - 1 { RivalsGrow(m, j, k - 1, bytes); }
  }

  /** The user library's `malloc` hands out the first listed block that fits. */
  lemma {:induction false} MallocFirstPicks(m: Heap, bytes: nat, m': Heap, p: Pointer) returns (k: nat)
    requires WellFormed(m) && 0 < bytes && (m', p) == MallocFirst(m, bytes) && p != Null
    ensures k < |m.free| && HandsOut(m, k, m', p) && Fits(SizeOf(m.blocks, m.free[k]), bytes)
    ensures forall j: nat | j < k :: !Fits(SizeOf(m.blocks, m.free[j]), bytes)
  {
    k := FittingFrom(m, |m.free|, 0, bytes);
    forall j: nat | j < k ensures !Fits(SizeOf(m.blocks, m.free[j]), bytes) {
      if Fits(SizeOf(m.blocks, m.free[j]), bytes) { RivalsGrow(m, j, k, bytes); }
    }
    HandedOut(m, k, bytes);
  }

  /** A released block, with what it merged with, is the first to be looked at,
      and the others keep their order. */
  lemma {:induction false} FreedIsFirst(m: Heap, h: int)
    requires WellFormed(m) && Live(m, h)
    ensures var m' := Free(m, h);
            && m'.free != [] && Covers(m'.blocks, m'.free[0], h)
            && m'.free[1..] == Without(Without(m.free, Left(m, h)), Right(m, h))
  {
    MergedSpan(m, h);
  }

  // ---------------------------------------------------------------------
  // The user library's realloc
  // ---------------------------------------------------------------------

  /** First fit refuses a request exactly when no gap is long enough. */
  lemma FirstFails(m: Heap, bytes: nat)
    requires WellFormed(m) && 0 < bytes
    ensures MallocFirst(m, bytes).1 == Null <==> !HasRoom(m.blocks, bytes)
  {
    RoomIffGap(m.blocks, bytes);
    var n := WordsFor(bytes);
    var it := FirstFit(m, n);
    FirstFitUsable(m, n);
    FittingMembers(m.blocks, m.free, |m.free|, n);
    assert m.free[..|m.free|] == m.free;
    if it == 0 {
      forall h | h in m.blocks && 0 < m.blocks[h] ensures m.blocks[h] < n {
        assert OnList(m.free, h) && (OnList(m.free, 0) <==> 0 < m.blocks[0]);
        assert h !in Fitting(m.blocks, m.free, n);
      }
      forall a ensures !Gap(m.blocks, a, n) {
        if Gap(m.blocks, a, n) {
          var h := GapInOneBlock(m, a, n);
        }
      }
    } else {
      forall w | it <= w < it + n ensures FreeWord(m.blocks, w) {
        assert Covers(m.blocks, it, w);
      }
      assert Gap(m.blocks, it, n);
    }
  }

  /** After `realloc` of a live block the old block is dead, whether or not there
      was a new one; there is none exactly if the size is zero or no gap was long
      enough while the old block was still taken; a new one is large enough and
      was not live before; every other live block stays as it is. */
  lemma ReallocKeeps(m: Heap, h: int, newSize: nat, m': Heap, q: Pointer)
    requires WellFormed(m) && Live(m, h) && (m', q) == Realloc(m, Word(h + 1), newSize)
    ensures Moved(m, h, newSize, m', q)
    ensures q == Null <==> newSize == 0 || !HasRoom(m.blocks, newSize)
  {
    if newSize == 0 {
      ReleaseMoves(m, h);
    } else {
      ReplaceMoves(m, h, newSize);
      FirstFails(m, newSize);
    }
  }

  /** Heap `m'` and pointer `q` are what `realloc` of the block `h` should leave. */
  ghost predicate Moved(m: Heap, h: int, newSize: nat, m': Heap, q: Pointer)
    requires WellFormed(m) && Live(m, h)
  {
    match m'
    case Heap(len, blocks, _) =>
      && WellFormed(m') && len == m.len
      && (q == Null ==> m' == Free(m, h))
      && (forall g :: Live(m', g) <==> (Live(m, g) && g != h) || q == Word(g + 1))
      && (q != Null ==>
          && q.Word? && q.index - 1 in blocks && !Live(m, q.index - 1)
          && Fits(Abs(blocks[q.index - 1]), newSize) && !Fits(Abs(blocks[q.index - 1]) - 4, newSize))
      && (forall g | Live(m, g) && g != h :: Live(m', g) && blocks[g] == m.blocks[g])
  }

  lemma ReleaseMoves(m: Heap, h: int)
    requires WellFormed(m) && Live(m, h)
    ensures Moved(m, h, 0, Free(m, h), Null)
  {
    FreeKeeps(m, h);
  }

  lemma ReplaceMoves(m: Heap, h: int, newSize: nat)
    requires WellFormed(m) && Live(m, h) && 0 < newSize
    ensures
      var (m', q) := Replace(m, h, newSize);
      Moved(m, h, newSize, m', q) && q == MallocFirst(m, newSize).1
  {
    MallocFirstKeeps(m, newSize);
    var (m1, q) := MallocFirst(m, newSize);
    ReleasedAfter(m, m1, h, q, Free(m1, h));
  }

  /** Releasing `h` after a grant `q` leaves the other live blocks and the new one. */
  lemma ReleasedAfter(m: Heap, m1: Heap, h: int, q: Pointer, m': Heap)
    requires WellFormed(m1) && Live(m, h) && Live(m1, h) && m' == Free(m1, h)
    requires q != Null ==> q.Word? && !Live(m, q.index - 1)
    requires forall g :: Live(m1, g) <==> Live(m, g) || q == Word(g + 1)
    requires forall g | Live(m, g) :: g in m1.blocks && m1.blocks[g] == m.blocks[g]
    ensures WellFormed(m') && m'.len == m1.len
    ensures forall g :: Live(m', g) <==> (Live(m, g) && g != h) || q == Word(g + 1)
    ensures forall g | Live(m, g) && g != h :: Live(m', g) && m'.blocks[g] == m.blocks[g]
    ensures q != Null ==>
              Live(m1, q.index - 1) && Live(m', q.index - 1) && m'.blocks[q.index - 1] == m1.blocks[q.index - 1]
  {
    FreeKeeps(m1, h);
    forall g | Live(m, g) && g != h ensures Live(m', g) && m'.blocks[g] == m.blocks[g] {
      assert Live(m1, g);
    }
    if q != Null {
      assert q == Word(q.index - 1 + 1);
    }
  }

  /** `realloc` of null hands out a block, or the base of the heap if no bytes
      are asked for. */
  lemma ReallocOfNull(m: Heap, newSize: nat, m': Heap, q: Pointer)
    requires WellFormed(m) && (m', q) == Realloc(m, Null, newSize)
    ensures WellFormed(m') && m'.len == m.len
    ensures newSize == 0 ==> m' == m && q == Word(0)
    ensures q == Null <==> newSize != 0 && !HasRoom(m.blocks, newSize)
    ensures q == Null ==> m' == m
    ensures newSize != 0 ==> forall g :: Live(m', g) <==> Live(m, g) || q == Word(g + 1)
    ensures q != Null && newSize != 0 ==>
              q.index - 1 in m'.blocks && !Live(m, q.index - 1) && Fits(Abs(m'.blocks[q.index - 1]), newSize)
  {
    if newSize != 0 {
      MallocFirstKeeps(m, newSize);
      FirstFails(m, newSize);
    }
  }

  /** The copy stays inside the new payload exactly when rounding the size up
      does not wrap, or nothing is granted, or the wrapped request happens to
      get a whole block two words longer than the old one. */
  lemma CopyFitsIff(m: Heap, h: int, newSize: nat)
    requires WellFormed(m) && Live(m, h) && 0 < newSize < UINT32_LIMIT
    ensures var f := FirstFit(m, 4);
            CopyFits(m, h, newSize) <==>
              newSize + 3 < UINT32_LIMIT || f == 0 || (f in m.blocks && Abs(m.blocks[h]) + 2 <= m.blocks[f] < 8)
  {
    MallocFirstKeeps(m, newSize);
    FirstFitUsable(m, WordsFor(newSize));
    assert Clear(m.blocks, h, 0) && Clear(m.blocks, h, m.len - 2);
  }

  /** A copy that does not fit: a block of four words in an otherwise empty heap. */
  lemma CopyOverruns(len: int)
    requires 16 <= len <= MAX_LEN
    ensures WellFormed(Init(len))
    ensures var m := MallocFirst(Init(len), 4).0;
            WellFormed(m) && Live(m, 2) && !CopyFits(m, 2, 0xFFFF_FFFD)
  {
    InitWellFormed(len);
    var i := Init(len);
    assert WordsFor(4) == 4 && FittingBefore(i.blocks, i.free, 1, 4) == FittingBefore(i.blocks, i.free, 0, 4) + [2];
    MallocFirstKeeps(i, 4);
    var m := MallocFirst(i, 4).0;
    assert m.free == [6];
    assert FittingBefore(m.blocks, m.free, 1, 4) == FittingBefore(m.blocks, m.free, 0, 4) + [6];
    CopyFitsIff(m, 2, 0xFFFF_FFFD);
  }

  // ---------------------------------------------------------------------
  // Releasing undoes allocating
  // ---------------------------------------------------------------------

  /** The same blocks, and the same list in perhaps another order. */
  ghost predicate SameUpToOrder(m: Heap, n: Heap) {
    m.len == n.len && m.blocks == n.blocks && multiset(m.free) == multiset(n.free)
  }

  /** The neighbours of an available block are taken, so a block carved from
      it can only merge with the rest of it. */
  lemma CarvedNeighbours(m: Heap, it: int, ints: int)
    requires WellFormed(m) && it in m.blocks && 4 <= ints <= m.blocks[it]
    requires WellFormed(Carve(m, it, ints)) && Live(Carve(m, it, ints), it)
    ensures MergedStart(Carve(m, it, ints), it) == it
    ensures MergedEnd(Carve(m, it, ints), it) == it + m.blocks[it]
  {
    assert HasLeft(m.blocks, it) && TakenRight(m.blocks, it);
    var p :| Follows(m.blocks, p, it);
    assert TakenRight(m.blocks, p);
    var q := Left(Carve(m, it, ints), it);
    assert q in m.blocks && q != it && Clear(m.blocks, p, q);
  }

  /** Releasing a block that was just handed out restores every block, and the
      list holds what it held before (perhaps in another order). */
  lemma FreeUndoesMalloc(m: Heap, bytes: nat)
    requires WellFormed(m) && 0 < bytes && Malloc(m, bytes).1 != Null
    ensures var (m', p) := Malloc(m, bytes);
            && WellFormed(m') && Live(m', p.index - 1) && SameUpToOrder(Free(m', p.index - 1), m)
  {
    var ints := WordsFor(bytes);
    var it := Malloc(m, bytes).1.index - 1;
    assert it == BestFit(m, ints);
    assert it in m.blocks && 4 <= ints <= m.blocks[it] by { BestFitUsable(m, ints); }
    assert WellFormed(Carve(m, it, ints)) && Live(Carve(m, it, ints), it) by { CarveWellFormed(m, it, ints); }
    FreeUndoesCarve(m, it, ints);
  }

  lemma FreeUndoesCarve(m: Heap, it: int, ints: int)
    requires WellFormed(m) && it in m.blocks && 4 <= ints <= m.blocks[it]
    requires WellFormed(Carve(m, it, ints)) && Live(Carve(m, it, ints), it)
    ensures SameUpToOrder(Free(Carve(m, it, ints), it), m)
  {
    var m' := Carve(m, it, ints);
    assert Free(m', it).blocks == m.blocks by {
      CarvedNeighbours(m, it, ints);
      MergeAfterCarve(m, it, ints);
    }
    assert multiset(Free(m', it).free) == multiset(m.free) by {
      FreeWellFormed(m', it);
      SameList(m, Free(m', it));
    }
  }

  /** Well-formed heaps with the same blocks list the same ones. */
  lemma SameList(m: Heap, n: Heap)
    requires WellFormed(m) && WellFormed(n) && m.blocks == n.blocks
    ensures multiset(n.free) == multiset(m.free)
  {
    forall x ensures x in m.free <==> x in n.free { assert OnList(m.free, x) <==> OnList(n.free, x); }
    SameMembers(m.free, n.free);
  }

  lemma MergeAfterCarve(m: Heap, it: int, ints: int)
    requires WellFormed(m) && it in m.blocks && 4 <= ints <= m.blocks[it]
    ensures Merge(Carve(m, it, ints).blocks, it, it + m.blocks[it]) == m.blocks
  {
    forall g | g in m.blocks && g != it ensures !(it <= g < it + m.blocks[it]) { assert Clear(m.blocks, it, g); }
  }

  lemma {:induction false} SameMembers(s: seq<int>, t: seq<int>)
    requires NoDuplicates(s) && NoDuplicates(t) && forall x :: x in s <==> x in t
    ensures multiset(s) == multiset(t)
  {
    forall x ensures multiset(s)[x] == multiset(t)[x] {
      CountOnce(s, x);
      CountOnce(t, x);
    }
  }

  lemma {:induction false} CountOnce(s: seq<int>, x: int)
    requires NoDuplicates(s)
    ensures multiset(s)[x] == if x in s then 1 else 0
  {
    if s != [] {
      assert s == [s[0]] + s[1..];
      NoDuplicatesTail(s);
      CountOnce(s[1..], x);
    }
  }

  /** With nothing live, a well-formed heap is the fresh heap. */
  lemma NothingLiveIsFresh(m: Heap)
    requires WellFormed(m) && forall h :: !Live(m, h)
    ensures m == Init(m.len)
  {
    var b := m.blocks;
    assert HasRight(m.len, b, 0);
    assert !Live(m, 2);
    assert TakenRight(b, 2);
    assert !Live(m, 2 + b[2]);
    forall h | h in b ensures h == 0 || h == 2 || h == m.len - 2 {
      assert !Live(m, h) && Clear(b, h, 2) && Clear(b, h, 0) && Clear(b, h, m.len - 2);
    }
    assert b == Init(m.len).blocks;
    forall x ensures x in m.free <==> x in [2] { assert OnList(m.free, x) <==> x in b && 0 < b[x]; }
    SameMembers(m.free, [2]);
    assert |m.free| == |multiset(m.free)| == 1;
    assert m.free == [2];
  }

  /** Release the blocks at `order`, one after the other. */
  ghost function FreeAll(m: Heap, order: seq<int>): Heap
    requires WellFormed(m) && NoDuplicates(order)
    requires forall h | h in order :: Live(m, h)
    decreases |order|
  {
    if order == [] then m
    else
      FreeKeeps(m, order[0]);
      assert order == [order[0]] + order[1..];
      NoDuplicatesTail(order);
      FreeAll(Free(m, order[0]), order[1..])
  }

  /** Releasing every live block, in whatever order, leaves one available block
      at 2 of all but the sentinels' words, alone on the list. */
  lemma {:induction false} FreeAllGivesFreshHeap(m: Heap, order: seq<int>)
    requires WellFormed(m) && NoDuplicates(order)
    requires forall h :: h in order <==> Live(m, h)
    ensures FreeAll(m, order) == Init(m.len)
    decreases |order|
  {
    if order == [] {
      NothingLiveIsFresh(m);
    } else {
      FreeKeeps(m, order[0]);
      assert order == [order[0]] + order[1..];
      NoDuplicatesTail(order);
      FreeAllGivesFreshHeap(Free(m, order[0]), order[1..]);
    }
  }
}
