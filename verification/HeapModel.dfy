/** The block structure of a boundary-tag heap as a value.

    A heap of `len` words is cut into blocks. `blocks` maps the index of each
    header to the signed size found there: negative when the block is taken,
    positive when it is available. `free` is the available list in link order.
    The classes in Heap.dfy keep such a value in step with the words of an
    array; everything that holds of all runs is proved here. */
module HeapModel {

  const UINT32_LIMIT := 0x1_0000_0000

  /** `bytes` is a 32-bit size_t and the heap has `bytes / 4` words. */
  const MAX_LEN := 0x3FFF_FFFF

  /** How many fitting blocks `malloc` looks at before it stops. */
  const SEARCH_LIMIT := 20

  datatype Heap = Heap(len: int, blocks: map<int, int>, free: seq<int>)

  /** A pointer into the heap: null, or the address of the word at `index`. */
  datatype Pointer = Null | Word(index: int)

  function Abs(x: int): nat {
    if x < 0 then -x else x
  }

  // ---------------------------------------------------------------------
  // The invariant
  // ---------------------------------------------------------------------

  /** The block at `p` ends where `h` starts. */
  ghost predicate Follows(b: map<int, int>, p: int, h: int) {
    p in b && p + Abs(b[p]) == h
  }

  /** The block at `h` is followed by a block, or ends the heap. */
  ghost predicate HasRight(len: int, b: map<int, int>, h: int)
    requires h in b
  {
    h + Abs(b[h]) == len || h + Abs(b[h]) in b
  }

  /** The block at `h` is preceded by a block, or starts the heap. */
  ghost predicate HasLeft(b: map<int, int>, h: int) {
    h == 0 || exists p :: Follows(b, p, h)
  }

  /** An available block at `h` is followed by a taken one. */
  ghost predicate TakenRight(b: map<int, int>, h: int)
    requires h in b
  {
    0 < b[h] ==> h + b[h] in b && b[h + b[h]] < 0
  }

  /** Two taken sentinels of two words, and blocks of at least four between them. */
  ghost predicate Shaped(len: int, b: map<int, int>) {
    && 8 <= len <= MAX_LEN
    && 0 in b && b[0] == -2
    && len - 2 in b && b[len - 2] == -2
    && (forall h | h in b :: 0 <= h && 2 <= Abs(b[h]) && h + Abs(b[h]) <= len)
    && (forall h | h in b :: 0 < h < len - 2 ==> 4 <= Abs(b[h]))
  }

  /** The blocks at `g` and `h` do not overlap. */
  ghost predicate Clear(b: map<int, int>, g: int, h: int)
    requires g in b && h in b
  {
    g == h || g + Abs(b[g]) <= h || h + Abs(b[h]) <= g
  }

  ghost predicate Apart(b: map<int, int>) {
    forall g, h {:trigger Clear(b, g, h)} | g in b && h in b :: Clear(b, g, h)
  }

  /** Each block touches its neighbours. The triggers, here and above, keep a
      proof from walking from block to block unasked. */
  ghost predicate Adjoined(len: int, b: map<int, int>) {
    && (forall h {:trigger HasRight(len, b, h)} | h in b :: HasRight(len, b, h))
    && (forall h {:trigger HasLeft(b, h)} | h in b :: HasLeft(b, h))
  }

  /** Blocks tile the words 0..len. */
  ghost predicate Tiled(len: int, b: map<int, int>) {
    Shaped(len, b) && Apart(b) && Adjoined(len, b)
  }

  /** No available block is followed by another one. */
  ghost predicate Coalesced(b: map<int, int>) {
    forall h {:trigger TakenRight(b, h)} | h in b :: TakenRight(b, h)
  }

  ghost predicate Differ(s: seq<int>, i: nat, j: nat)
    requires i < |s| && j < |s|
  {
    s[i] != s[j]
  }

  ghost predicate NoDuplicates(s: seq<int>) {
    forall i: nat, j: nat {:trigger Differ(s, i, j)} | i < j < |s| :: Differ(s, i, j)
  }

  ghost predicate OnList(free: seq<int>, h: int) {
    h in free
  }

  /** The available list holds each available block exactly once. */
  ghost predicate Listed(b: map<int, int>, free: seq<int>) {
    && NoDuplicates(free)
    && (forall h {:trigger OnList(free, h)} :: OnList(free, h) <==> h in b && 0 < b[h])
  }

  ghost predicate WellFormed(m: Heap) {
    match m
    case Heap(len, blocks, free) => Tiled(len, blocks) && Coalesced(blocks) && Listed(blocks, free)
  }

  /** `h` heads a block handed out to a client (the sentinels are not). */
  ghost predicate Live(m: Heap, h: int) {
    h in m.blocks && m.blocks[h] < 0 && 0 < h < m.len - 2
  }

  // ---------------------------------------------------------------------
  // Operations
  // ---------------------------------------------------------------------

  function Init(len: int): Heap {
    Heap(len, map[0 := -2, 2 := len - 4, len - 2 := -2], [2])
  }

  /** The bytes that room is made for: those asked for, unless rounding them up
      wraps around in 32 bits. */
  function Asked(bytes: nat): (asked: nat)
    ensures bytes + 3 < UINT32_LIMIT ==> asked == bytes
    ensures bytes < UINT32_LIMIT <= bytes + 3 ==> asked == 0
  {
    if (bytes + 3) % UINT32_LIMIT < 3 then 0 else (bytes + 3) % UINT32_LIMIT - 3
  }

  /** A block of `n` words has room for a request, beside its two tags, and for
      the two links it may have to hold later. */
  predicate Fits(n: int, bytes: nat) {
    4 <= n && Asked(bytes) <= 4 * (n - 2)
  }

  /** Words a request needs: its bytes rounded up (in 32-bit arithmetic), a
      header and a footer, and never fewer than four. That is the least number
      that fits. */
  function WordsFor(bytes: nat): (ints: int)
    ensures 4 <= ints && forall n: int :: Fits(n, bytes) <==> ints <= n
  {
    var ints := (bytes + 3) % UINT32_LIMIT / 4 + 2;
    if ints < 4 then 4 else ints
  }

  function Without(s: seq<int>, x: int): seq<int> {
    if s == [] then []
    else if s[0] == x then s[1..]
    else [s[0]] + Without(s[1..], x)
  }

  function SizeOf(b: map<int, int>, h: int): nat {
    if h in b then Abs(b[h]) else 0
  }

  /** Those of the first `n` members of a list whose blocks have at least `ints` words, in order. */
  function FittingBefore(b: map<int, int>, list: seq<int>, n: nat, ints: int): seq<int>
    requires n <= |list|
  {
    if n == 0 then []
    else
      var init := FittingBefore(b, list, n - 1, ints);
      if ints <= SizeOf(b, list[n - 1]) then init + [list[n - 1]] else init
  }

  function Fitting(b: map<int, int>, list: seq<int>, ints: int): seq<int> {
    FittingBefore(b, list, |list|, ints)
  }

  /** The earliest of the smallest blocks of a list; 0 if there is none. */
  function Smallest(b: map<int, int>, list: seq<int>): int {
    if list == [] then 0
    else
      var h := list[|list| - 1];
      var init := list[..|list| - 1];
      if init == [] || SizeOf(b, h) < SizeOf(b, Smallest(b, init)) then h else Smallest(b, init)
  }

  function Take(s: seq<int>, n: nat): seq<int> {
    if |s| <= n then s else s[..n]
  }

  /** The kernel's choice: smallest among the first fitting blocks. */
  function BestFit(m: Heap, ints: int): int {
    Smallest(m.blocks, Take(Fitting(m.blocks, m.free, ints), SEARCH_LIMIT))
  }

  /** The user library's choice: the first fitting block. */
  function FirstFit(m: Heap, ints: int): int {
    var fits := Fitting(m.blocks, m.free, ints);
    if fits == [] then 0 else fits[0]
  }

  /** The blocks after `ints` words of block `it` are taken; what is left
      becomes a block of its own when it is large enough to be one. */
  function CarvedBlocks(b: map<int, int>, it: int, ints: int): map<int, int>
    requires it in b
  {
    if 4 <= b[it] - ints then b[it := -ints][it + ints := b[it] - ints] else b[it := -b[it]]
  }

  /** Hand out `ints` words of the available block `it`. */
  function Carve(m: Heap, it: int, ints: int): Heap
    requires it in m.blocks
  {
    var rest := Without(m.free, it);
    m.(blocks := CarvedBlocks(m.blocks, it, ints),
       free := if 4 <= m.blocks[it] - ints then [it + ints] + rest else rest)
  }

  function Allocate(m: Heap, it: int, ints: int): (Heap, Pointer)
    requires it != 0 ==> it in m.blocks
  {
    if it == 0 then (m, Null) else (Carve(m, it, ints), Word(it + 1))
  }

  ghost function Malloc(m: Heap, bytes: nat): (Heap, Pointer)
    requires WellFormed(m)
  {
    if bytes == 0 then (m, Word(0))
    else
      BestFitUsable(m, WordsFor(bytes));
      Allocate(m, BestFit(m, WordsFor(bytes)), WordsFor(bytes))
  }

  /** The user library's `malloc`. */
  ghost function MallocFirst(m: Heap, bytes: nat): (Heap, Pointer)
    requires WellFormed(m)
  {
    if bytes == 0 then (m, Word(0))
    else
      FirstFitUsable(m, WordsFor(bytes));
      Allocate(m, FirstFit(m, WordsFor(bytes)), WordsFor(bytes))
  }

  /** The header of the block that ends where `h` starts. */
  ghost function Left(m: Heap, h: int): (p: int)
    requires WellFormed(m) && h in m.blocks && 0 < h
    ensures Follows(m.blocks, p, h) && 0 <= p
  {
    assert HasLeft(m.blocks, h);
    var p :| Follows(m.blocks, p, h);
    p
  }

  /** The header of the block that starts where `h` ends. */
  ghost function Right(m: Heap, h: int): (r: int)
    requires WellFormed(m) && h in m.blocks && h < m.len - 2
    ensures r in m.blocks && r <= m.len - 2
    ensures Follows(m.blocks, h, r)
  {
    assert HasRight(m.len, m.blocks, h) && Clear(m.blocks, h, m.len - 2);
    h + Abs(m.blocks[h])
  }

  /** First word of the block that results from releasing `h`. */
  ghost function MergedStart(m: Heap, h: int): int
    requires WellFormed(m) && Live(m, h)
  {
    if 0 < m.blocks[Left(m, h)] then Left(m, h) else h
  }

  /** First word after the block that results from releasing `h`. */
  ghost function MergedEnd(m: Heap, h: int): int
    requires WellFormed(m) && Live(m, h)
  {
    var r := Right(m, h);
    if 0 < m.blocks[r] then r + m.blocks[r] else r
  }

  /** Make one available block of the blocks that fill start..end. */
  function Merge(b: map<int, int>, start: int, end: int): map<int, int> {
    (map g | g in b && !(start <= g < end) :: b[g])[start := end - start]
  }

  /** Release the block at `h`, merging it with available neighbours. */
  ghost function Free(m: Heap, h: int): Heap
    requires WellFormed(m) && Live(m, h)
  {
    var start := MergedStart(m, h);
    m.(blocks := Merge(m.blocks, start, MergedEnd(m, h)),
       free := [start] + Without(Without(m.free, Left(m, h)), Right(m, h)))
  }

  // ---------------------------------------------------------------------
  // Lists
  // ---------------------------------------------------------------------

  lemma NoDuplicatesTail(s: seq<int>)
    requires NoDuplicates(s) && s != []
    ensures s[0] !in s[1..] && NoDuplicates(s[1..])
  {
    forall i: nat | i < |s| - 1 ensures s[0] != s[1..][i] { assert Differ(s, 0, i + 1); }
    forall i: nat, j: nat | i < j < |s| - 1 ensures Differ(s[1..], i, j) { assert Differ(s, i + 1, j + 1); }
  }

  lemma NoDuplicatesCons(x: int, s: seq<int>)
    requires NoDuplicates(s) && x !in s
    ensures NoDuplicates([x] + s)
  {
    forall i: nat, j: nat | i < j < |s| + 1 ensures Differ([x] + s, i, j) {
      assert 0 < i ==> Differ(s, i - 1, j - 1);
      assert ([x] + s)[j] == s[j - 1];
    }
  }

  lemma {:induction false} WithoutMembers(s: seq<int>, x: int)
    requires NoDuplicates(s)
    ensures NoDuplicates(Without(s, x))
    ensures forall y :: y in Without(s, x) <==> y in s && y != x
  {
    if s == [] {
    } else {
      assert s == [s[0]] + s[1..];
      NoDuplicatesTail(s);
      WithoutMembers(s[1..], x);
      if s[0] != x { NoDuplicatesCons(s[0], Without(s[1..], x)); }
    }
  }

  lemma WithoutTwice(s: seq<int>, x: int, y: int)
    requires NoDuplicates(s)
    ensures NoDuplicates(Without(Without(s, x), y))
    ensures forall z :: z in Without(Without(s, x), y) <==> z in s && z != x && z != y
  {
    WithoutMembers(s, x);
    WithoutMembers(Without(s, x), y);
  }

  /** A list without its `k`-th member. */
  function Drop(s: seq<int>, k: nat): (r: seq<int>)
    requires k < |s|
    ensures |r| == |s| - 1
    ensures forall j | 0 <= j < k :: r[j] == s[j]
    ensures forall j | k <= j < |r| :: r[j] == s[j + 1]
  {
    seq(|s| - 1, j requires 0 <= j < |s| - 1 => if j < k then s[j] else s[j + 1])
  }

  lemma {:induction false} WithoutIndex(s: seq<int>, k: nat)
    requires NoDuplicates(s) && k < |s|
    ensures Without(s, s[k]) == Drop(s, k)
  {
    if k == 0 {
    } else {
      assert Differ(s, 0, k);
      var t := s[1..];
      assert NoDuplicates(t) by { NoDuplicatesTail(s); }
      WithoutIndex(t, k - 1);
      var r := [s[0]] + Drop(t, k - 1);
      forall j | 0 <= j < |s| - 1 ensures r[j] == Drop(s, k)[j] {}
    }
  }

  lemma {:induction false} WithoutAbsent(s: seq<int>, x: int)
    requires x !in s
    ensures Without(s, x) == s
  {
    if s == [] {
    } else {
      WithoutAbsent(s[1..], x);
    }
  }

  /** `Smallest` returns a least element, and the first of them. */
  lemma {:induction false} SmallestIsEarliestLeast(b: map<int, int>, list: seq<int>) returns (k: nat)
    requires list != []
    ensures k < |list| && list[k] == Smallest(b, list)
    ensures forall j | 0 <= j < |list| :: SizeOf(b, list[k]) <= SizeOf(b, list[j])
    ensures forall j | 0 <= j < k :: SizeOf(b, list[k]) < SizeOf(b, list[j])
  {
    k := |list| - 1;
    var init, h := list[..k], list[k];
    if init != [] {
      var i := SmallestIsEarliestLeast(b, init);
      if SizeOf(b, h) >= SizeOf(b, init[i]) {
        k := i;
      }
    }
  }

  lemma {:induction false} FittingMembers(b: map<int, int>, list: seq<int>, n: nat, ints: int)
    requires n <= |list|
    ensures forall h :: h in FittingBefore(b, list, n, ints) <==> h in list[..n] && ints <= SizeOf(b, h)
  {
    if n > 0 {
      assert list[..n] == list[..n - 1] + [list[n - 1]];
      FittingMembers(b, list, n - 1, ints);
    }
  }

  /** Longer lists only add members at the end. */
  lemma {:induction false} FittingPrefix(b: map<int, int>, list: seq<int>, n: nat, m: nat, ints: int)
    requires n <= m <= |list|
    ensures FittingBefore(b, list, n, ints) <= FittingBefore(b, list, m, ints)
    decreases m
  {
    if n < m { FittingPrefix(b, list, n, m - 1, ints); }
  }

  lemma SmallestNext(b: map<int, int>, list: seq<int>, h: int)
    ensures Smallest(b, list + [h]) ==
            if list == [] || SizeOf(b, h) < SizeOf(b, Smallest(b, list)) then h else Smallest(b, list)
  {
    assert (list + [h])[..|list|] == list;
  }

  /** What the kernel's search returns, in the terms a caller sees: null iff
      nothing on the list fits; otherwise an available block that fits, none of
      the first `SEARCH_LIMIT` fitting blocks is smaller, and of those the
      ones met before it are all larger. */
  lemma BestFitIsEarliestSmallest(m: Heap, ints: int) returns (k: nat)
    requires Listed(m.blocks, m.free)
    ensures var fits := Take(Fitting(m.blocks, m.free, ints), SEARCH_LIMIT);
            && (fits == [] <==> forall h | h in m.free :: SizeOf(m.blocks, h) < ints)
            && (fits == [] ==> BestFit(m, ints) == 0)
            && (fits != [] ==>
                && k < |fits| && fits[k] == BestFit(m, ints) && fits[k] in m.free && fits[k] in m.blocks &&
                  ints <= m.blocks[fits[k]]
                && (forall j | 0 <= j < |fits| :: fits[j] in m.free && m.blocks[fits[k]] <= SizeOf(m.blocks, fits[j]))
                && (forall j | 0 <= j < k :: m.blocks[fits[k]] < SizeOf(m.blocks, fits[j])))
  {
    var all := Fitting(m.blocks, m.free, ints);
    var fits := Take(all, SEARCH_LIMIT);
    FittingMembers(m.blocks, m.free, |m.free|, ints);
    assert m.free[..|m.free|] == m.free;
    k := 0;
    if fits == [] {
      assert all == [];
      forall h | h in m.free ensures SizeOf(m.blocks, h) < ints { assert h !in all; }
    } else {
      forall h | h in fits ensures h in all && h in m.free && ints <= SizeOf(m.blocks, h) {}
      assert fits[0] in fits;
      k := SmallestIsEarliestLeast(m.blocks, fits);
      assert fits[k] in fits && OnList(m.free, fits[k]);
    }
  }

  /** `it` is 0, or an available block of at least `ints` words. */
  ghost predicate Usable(m: Heap, it: int, ints: int) {
    it != 0 ==> it in m.free && it in m.blocks && 4 <= ints <= m.blocks[it]
  }

  lemma BestFitUsable(m: Heap, ints: int)
    requires Listed(m.blocks, m.free) && 4 <= ints
    ensures Usable(m, BestFit(m, ints), ints)
  {
    var k := BestFitIsEarliestSmallest(m, ints);
  }

  lemma FirstFitUsable(m: Heap, ints: int)
    requires Listed(m.blocks, m.free) && 4 <= ints
    ensures Usable(m, FirstFit(m, ints), ints)
  {
    FittingMembers(m.blocks, m.free, |m.free|, ints);
    assert m.free[..|m.free|] == m.free;
    var fits := Fitting(m.blocks, m.free, ints);
    assert fits != [] ==> fits[0] in fits && OnList(m.free, fits[0]);
  }

  // ---------------------------------------------------------------------
  // The invariant is kept
  // ---------------------------------------------------------------------

  lemma InitWellFormed(len: int)
    requires 8 <= len <= MAX_LEN
    ensures WellFormed(Init(len))
  {
    var b := Init(len).blocks;
    assert Follows(b, 0, 2);
    assert Follows(b, 2, len - 2);
  }

  /** No block starts inside another. */
  lemma InsideIsNoHeader(b: map<int, int>, h: int, x: int)
    requires Apart(b) && h in b && h < x < h + Abs(b[h])
    ensures x !in b
  {
    assert x in b ==> Clear(b, h, x);
  }

  lemma CarveShaped(m: Heap, it: int, ints: int)
    requires WellFormed(m) && it in m.blocks && 4 <= ints <= m.blocks[it]
    ensures Shaped(m.len, Carve(m, it, ints).blocks)
    ensures Apart(Carve(m, it, ints).blocks)
    ensures 2 <= it && it + m.blocks[it] <= m.len - 2
  {
    var b, c := m.blocks, Carve(m, it, ints).blocks;
    assert Clear(b, it, 0) && Clear(b, it, m.len - 2);
    if ints < b[it] { InsideIsNoHeader(b, it, it + ints); }
    forall g, h | g in c && h in c ensures Clear(c, g, h) {
      if g in b && h in b {
        assert Clear(b, g, h);
      } else if g in b {
        assert Clear(b, g, it);
      } else if h in b {
        assert Clear(b, it, h);
      }
    }
  }

  lemma CarveAdjoined(m: Heap, it: int, ints: int)
    requires WellFormed(m) && it in m.blocks && 4 <= ints <= m.blocks[it]
    ensures Adjoined(m.len, Carve(m, it, ints).blocks)
  {
    var b := m.blocks;
    var c := CarvedBlocks(b, it, ints);
    if ints < b[it] { InsideIsNoHeader(b, it, it + ints); }
    forall h | h in c ensures HasRight(m.len, c, h) {
      assert HasRight(m.len, b, it);
      if h in b { assert HasRight(m.len, b, h); }
    }
    forall h | h in c ensures HasLeft(c, h) {
      assert h in b ==> HasLeft(b, h);
      CarvedHasLeft(b, it, ints, h);
    }
  }

  lemma CarvedHasLeft(b: map<int, int>, it: int, ints: int, h: int)
    requires it in b && 4 <= ints <= b[it] && h in CarvedBlocks(b, it, ints)
    requires (ints < b[it] ==> it + ints !in b) && (h in b ==> HasLeft(b, h))
    ensures HasLeft(CarvedBlocks(b, it, ints), h)
  {
    var c := CarvedBlocks(b, it, ints);
    if h !in b {
      assert Follows(c, it, h);
    } else if h != 0 {
      var p :| Follows(b, p, h);
      assert Follows(c, p, h) || Follows(c, it + ints, h);
    }
  }

  lemma CarveCoalesced(m: Heap, it: int, ints: int)
    requires WellFormed(m) && it in m.blocks && 4 <= ints <= m.blocks[it]
    ensures Coalesced(Carve(m, it, ints).blocks)
  {
    var b := m.blocks;
    var c := Carve(m, it, ints).blocks;
    if ints < b[it] { InsideIsNoHeader(b, it, it + ints); }
    assert TakenRight(b, it);
    forall h | h in c ensures TakenRight(c, h) {
      if h in b { assert TakenRight(b, h); }
    }
  }

  lemma CarveWellFormed(m: Heap, it: int, ints: int)
    requires WellFormed(m) && it in m.blocks && 4 <= ints <= m.blocks[it]
    ensures WellFormed(Carve(m, it, ints))
    ensures Live(Carve(m, it, ints), it)
  {
    CarveShaped(m, it, ints);
    CarveAdjoined(m, it, ints);
    CarveCoalesced(m, it, ints);
    CarveListed(m, it, ints);
  }

  lemma CarveListed(m: Heap, it: int, ints: int)
    requires WellFormed(m) && it in m.blocks && 4 <= ints <= m.blocks[it]
    ensures Listed(Carve(m, it, ints).blocks, Carve(m, it, ints).free)
  {
    var c := Carve(m, it, ints);
    WithoutMembers(m.free, it);
    if 4 <= m.blocks[it] - ints {
      InsideIsNoHeader(m.blocks, it, it + ints);
      assert !OnList(m.free, it + ints);
      NoDuplicatesCons(it + ints, Without(m.free, it));
    }
    forall g ensures OnList(c.free, g) <==> g in c.blocks && 0 < c.blocks[g] {
      assert OnList(m.free, g) <==> g in m.blocks && 0 < m.blocks[g];
    }
  }

  /** The block made by a release spans whole blocks: the released one and its
      available neighbours, with taken blocks on both sides. */
  lemma MergedSpan(m: Heap, h: int)
    requires WellFormed(m) && Live(m, h)
    ensures var start, end := MergedStart(m, h), MergedEnd(m, h);
            && 2 <= start <= h && h + Abs(m.blocks[h]) <= end <= m.len - 2
            && start in m.blocks && end in m.blocks && m.blocks[end] < 0
            && (exists p :: Follows(m.blocks, p, start) && m.blocks[p] < 0)
            && (forall g | g in m.blocks && start <= g < end ::
              g == h || (0 < m.blocks[g] && (g == Left(m, h) || g == Right(m, h))))
            && (forall g | g in m.blocks && g < start :: g + Abs(m.blocks[g]) <= start)
  {
    var b, p, r := m.blocks, Left(m, h), Right(m, h);
    assert TakenRight(b, r) && Follows(b, p, h);
    assert Clear(b, p, 0) && Clear(b, r, m.len - 2);
    if 0 < b[p] {
      var q := Left(m, p);
      assert TakenRight(b, q) && Follows(b, q, p);
    }
    forall g | g in b ensures Clear(b, g, p) && Clear(b, g, h) && Clear(b, g, r) {}
  }

  /** Blocks outside start..end lie on one side of it. */
  lemma OutsideIsAside(b: map<int, int>, start: int, end: int, g: int)
    requires Apart(b) && start in b && end in b && start < end
    requires g in b && 0 < Abs(b[g]) && !(start <= g < end)
    ensures g + Abs(b[g]) <= start || end <= g
  {
    assert Clear(b, g, start) && Clear(b, g, end);
  }

  lemma MergeShaped(len: int, b: map<int, int>, start: int, end: int)
    requires Tiled(len, b) && start in b && end in b && 2 <= start <= end - 4 && end <= len - 2
    ensures Shaped(len, Merge(b, start, end)) && Apart(Merge(b, start, end))
  {
    var c := Merge(b, start, end);
    forall g, h | g in c && h in c ensures Clear(c, g, h) {
      if g != start { OutsideIsAside(b, start, end, g); }
      if h != start { OutsideIsAside(b, start, end, h); }
      assert Clear(b, g, h);
    }
  }

  lemma MergeAdjoined(len: int, b: map<int, int>, start: int, end: int)
    requires Tiled(len, b) && start in b && end in b && 2 <= start < end <= len - 2
    ensures Adjoined(len, Merge(b, start, end))
  {
    var c := Merge(b, start, end);
    forall g | g in c ensures HasRight(len, c, g) {
      assert HasRight(len, b, g);
      if g != start { OutsideIsAside(b, start, end, g); }
    }
    forall g | g in c ensures HasLeft(c, g) {
      assert HasLeft(b, g);
      if 0 < g {
        var p :| Follows(b, p, g);
        if start <= p < end {
          assert Clear(b, p, end);
          assert Follows(c, start, g);
        } else {
          assert Follows(c, p, g);
        }
      }
    }
  }

  lemma MergeCoalesced(len: int, b: map<int, int>, start: int, end: int, q: int)
    requires Tiled(len, b) && Coalesced(b) && start in b && end in b && 2 <= start < end <= len - 2
    requires b[end] < 0 && Follows(b, q, start) && b[q] < 0
    ensures Coalesced(Merge(b, start, end))
  {
    var c := Merge(b, start, end);
    forall g | g in c ensures TakenRight(c, g) {
      assert TakenRight(b, g) && Clear(b, g, q);
      if g != start { OutsideIsAside(b, start, end, g); }
    }
  }

  lemma FreeListed(m: Heap, h: int)
    requires WellFormed(m) && Live(m, h)
    ensures Listed(Free(m, h).blocks, Free(m, h).free)
  {
    MergedSpan(m, h);
    var rest := Without(Without(m.free, Left(m, h)), Right(m, h));
    WithoutTwice(m.free, Left(m, h), Right(m, h));
    assert !OnList(m.free, h);
    NoDuplicatesCons(MergedStart(m, h), rest);
    forall g ensures OnList([MergedStart(m, h)] + rest, g) <==> g in Free(m, h).blocks && 0 < Free(m, h).blocks[g] {
      assert OnList(m.free, g) <==> g in m.blocks && 0 < m.blocks[g];
    }
  }

  lemma FreeWellFormed(m: Heap, h: int)
    requires WellFormed(m) && Live(m, h)
    ensures WellFormed(Free(m, h))
  {
    MergedSpan(m, h);
    var start, end := MergedStart(m, h), MergedEnd(m, h);
    var q :| Follows(m.blocks, q, start) && m.blocks[q] < 0;
    MergeShaped(m.len, m.blocks, start, end);
    MergeAdjoined(m.len, m.blocks, start, end);
    MergeCoalesced(m.len, m.blocks, start, end, q);
    FreeListed(m, h);
  }

  // ---------------------------------------------------------------------
  // Live blocks
  // ---------------------------------------------------------------------

  /** An allocation keeps the invariant and every live block, and makes exactly
      the returned block live, with room for at least the words asked for. */
  lemma AllocateKeeps(m: Heap, it: int, ints: int)
    requires WellFormed(m) && Usable(m, it, ints)
    ensures var (m', p) := Allocate(m, it, ints);
            && WellFormed(m') && m'.len == m.len
            && (p == Null <==> it == 0)
            && (p == Null ==> m' == m)
            && (p != Null ==> !Live(m, it) && Live(m', it) && ints <= Abs(m'.blocks[it]) < ints + 4)
            && (forall h :: Live(m', h) <==> Live(m, h) || p == Word(h + 1))
            && (forall h | Live(m, h) :: m'.blocks[h] == m.blocks[h])
  {
    if it != 0 {
      CarveWellFormed(m, it, ints);
      CarveShaped(m, it, ints);
      if ints < m.blocks[it] { InsideIsNoHeader(m.blocks, it, it + ints); }
    }
  }

  lemma MallocFirstKeeps(m: Heap, bytes: nat)
    requires WellFormed(m) && 0 < bytes
    ensures var (m', p) := MallocFirst(m, bytes);
            && WellFormed(m') && m'.len == m.len
            && (p == Null ==> m' == m)
            && (p != Null ==>
                && p.Word? && p.index - 1 in m'.blocks && !Live(m, p.index - 1) && Live(m', p.index - 1)
                && Fits(Abs(m'.blocks[p.index - 1]), bytes) && !Fits(Abs(m'.blocks[p.index - 1]) - 4, bytes))
            && (forall h :: Live(m', h) <==> Live(m, h) || p == Word(h + 1))
            && (forall h | Live(m, h) :: Live(m', h) && m'.blocks[h] == m.blocks[h])
  {
    FirstFitUsable(m, WordsFor(bytes));
    AllocateKeeps(m, FirstFit(m, WordsFor(bytes)), WordsFor(bytes));
  }

  /** The user library's `realloc` of null or a live pointer: a new block, and
      the old one released whether or not there was room. */
  ghost function Realloc(m: Heap, p: Pointer, newSize: nat): (Heap, Pointer)
    requires WellFormed(m) && (p.Word? ==> Live(m, p.index - 1))
  {
    if p == Null then MallocFirst(m, newSize)
    else if newSize == 0 then (Free(m, p.index - 1), Null)
    else
      Replace(m, p.index - 1, newSize)
  }

  ghost function Replace(m: Heap, h: int, newSize: nat): (Heap, Pointer)
    requires WellFormed(m) && Live(m, h) && 0 < newSize
  {
    MallocFirstKeeps(m, newSize);
    var (m1, q) := MallocFirst(m, newSize);
    (Free(m1, h), q)
  }

  /** The bytes `realloc` copies from the live block `h`: those asked for, or
      as many as the whole old block has words for, tags included. */
  function CopyLength(m: Heap, h: int, newSize: nat): nat
    requires Live(m, h)
  {
    if newSize > 4 * Abs(m.blocks[h]) then 4 * Abs(m.blocks[h]) else newSize
  }

  /** The copy made by `realloc`, if there is one, ends inside the payload of
      the new block. */
  ghost predicate CopyFits(m: Heap, h: int, newSize: nat)
    requires WellFormed(m) && Live(m, h) && 0 < newSize
  {
    MallocFirstKeeps(m, newSize);
    var (m1, q) := MallocFirst(m, newSize);
    q != Null ==> CopyLength(m, h, newSize) <= 4 * (Abs(m1.blocks[q.index - 1]) - 2)
  }
}
