/** Physical frames and the page tables kept in them, as a value.

    Memory is a sequence of frames of 1024 words. Every managed frame has one
    place: on the free list, in the hands of the allocator's caller, part of
    the shared low tables, or in one role of one address space. The invariant
    ties places to what the words say, in both directions. Frame numbers stand
    for page-aligned addresses; entries and links in memory are addresses. */
module FrameModel {

  const FRAME_SIZE := 4096
  const ENTRIES := 1024
  const PRIVATE := 512

  /** `n` zero words. */
  function ZeroWords(n: nat): (r: seq<nat>)
    ensures |r| == n && forall i | 0 <= i < n :: r[i] == 0
  {
    if n == 0 then [] else ZeroWords(n - 1) + [0]
  }

  type Page = s: seq<nat> | |s| == ENTRIES witness ZeroWords(ENTRIES)

  /** Managed frames are start..limit. `shared` is the directory of the low
      tables, 0 until there is one; those tables map page numbers 1..lowPages
      to themselves. The pages of the two APICs are never owned. */
  datatype Config = Config(start: nat, limit: nat, shared: nat, lowPages: nat, ioApic: nat, localApic: nat)

  datatype Place =
    | Free(index: nat)
    | Loose
    | LowDirectory
    | LowTable(index: nat)
    | Directory(ready: bool)
    | Table(dir: nat, pdi: nat)
    | Data(dir: nat, pdi: nat, pti: nat)

  /** `free` is the list from its tail to its head; `avail` the first frame never handed out. */
  datatype Frames = Frames(mem: seq<Page>, free: seq<nat>, avail: nat, place: map<nat, Place>)

  // ---------------------------------------------------------------------
  // Entries
  // ---------------------------------------------------------------------

  predicate Present(entry: nat) {
    entry % 2 == 1
  }

  function FrameOf(entry: nat): nat {
    entry / FRAME_SIZE
  }

  /** What an entry permits: 3 for the kernel, 7 for the process too. */
  function Bits(entry: nat): nat {
    entry % FRAME_SIZE
  }

  /** The entry for a frame with low bits 3 (kernel only) or 7 (user). */
  function Entry(frame: nat, user: bool): (e: nat)
    ensures Present(e) && FrameOf(e) == frame && Bits(e) == if user then 7 else 3
  {
    frame * FRAME_SIZE + if user then 7 else 3
  }

  function PageNumber(pdi: nat, pti: nat): nat {
    pdi * ENTRIES + pti
  }

  /** Low pages and the APIC pages belong to no address space. */
  predicate Special(c: Config, pdi: nat, pti: nat) {
    pdi < PRIVATE || PageNumber(pdi, pti) == c.ioApic || PageNumber(pdi, pti) == c.localApic
  }

  /** Row `i` of a directory holds a page of an APIC. */
  predicate SpecialRow(c: Config, i: nat) {
    i == c.ioApic / ENTRIES || i == c.localApic / ENTRIES
  }

  // ---------------------------------------------------------------------
  // The invariant
  // ---------------------------------------------------------------------

  ghost predicate IsDirectory(s: Frames, d: nat) {
    d in s.place && s.place[d].Directory?
  }

  /** Directory `d` has a table for `i`, and it is at `t`. */
  ghost predicate TableAt(s: Frames, d: nat, i: nat, t: nat) {
    && d < |s.mem| && t < |s.mem| && i < ENTRIES
    && Present(s.mem[d][i]) && FrameOf(s.mem[d][i]) == t
  }

  ghost predicate Sized(c: Config, s: Frames) {
    && 0 < c.start <= s.avail <= c.limit <= |s.mem| && c.limit <= PageNumber(PRIVATE, 0)
    && PageNumber(PRIVATE, 0) <= c.ioApic < PageNumber(ENTRIES, 0)
    && PageNumber(PRIVATE, 0) <= c.localApic < PageNumber(ENTRIES, 0)
    && c.ioApic != c.localApic
    && c.lowPages <= PageNumber(PRIVATE, 0) && c.shared < |s.mem|
    && (forall f: nat :: f in s.place <==> c.start <= f < s.avail)
  }

  /** What the words say about frame `f` is what its place says. */
  ghost predicate FrameOk(c: Config, s: Frames, f: nat)
    requires Sized(c, s) && f in s.place
  {
    match s.place[f]
    case Free(k) => k < |s.free| && s.free[k] == f && s.mem[f][0] == if k == 0 then 0 else s.free[k - 1] * FRAME_SIZE
    case Loose => true
    case LowDirectory => c.shared != 0 && f == c.shared
    case LowTable(i) => c.shared != 0 && i < PRIVATE && TableAt(s, c.shared, i, f)
    case Directory(_) => true
    case Table(d, i) => IsDirectory(s, d) && PRIVATE <= i < ENTRIES && TableAt(s, d, i, f)
    case Data(d, i, j) =>
      && IsDirectory(s, d) && PRIVATE <= i < ENTRIES && j < ENTRIES && !Special(c, i, j)
      && d < |s.mem| && var t := FrameOf(s.mem[d][i]);
      && TableAt(s, d, i, t) && t in s.place && s.place[t] == Table(d, i)
      && Present(s.mem[t][j]) && FrameOf(s.mem[t][j]) == f
  }

  ghost predicate ListOk(s: Frames, k: nat)
    requires k < |s.free|
  {
    s.free[k] in s.place && s.place[s.free[k]] == Free(k)
  }

  /** A directory shares the low tables and owns those of its high entries, which
      are open to the process but where there is an APIC page. */
  ghost predicate DirEntryOk(c: Config, s: Frames, d: nat, i: nat)
    requires Sized(c, s) && IsDirectory(s, d) && i < ENTRIES
  {
    if i < PRIVATE then c.shared != 0 && s.mem[d][i] == s.mem[c.shared][i]
    else Present(s.mem[d][i]) ==>
      var t := FrameOf(s.mem[d][i]);
      t in s.place && s.place[t] == Table(d, i) && Bits(s.mem[d][i]) == if SpecialRow(c, i) then 3 else 7
  }

  /** A table maps special pages to themselves, for the kernel only, and owns its
      other pages, which are open to the process. */
  ghost predicate TableEntryOk(c: Config, s: Frames, t: nat, j: nat)
    requires Sized(c, s) && t in s.place && s.place[t].Table? && j < ENTRIES
  {
    var d, i := s.place[t].dir, s.place[t].pdi;
    Present(s.mem[t][j]) ==>
      var f := FrameOf(s.mem[t][j]);
      if Special(c, i, j) then f == PageNumber(i, j) && Bits(s.mem[t][j]) == 3
      else f in s.place && s.place[f] == Data(d, i, j) && Bits(s.mem[t][j]) == 7
  }

  ghost predicate MappedAt(s: Frames, d: nat, i: nat, j: nat) {
    && d < |s.mem| && i < ENTRIES && j < ENTRIES
    && Present(s.mem[d][i]) && FrameOf(s.mem[d][i]) < |s.mem| && Present(s.mem[FrameOf(s.mem[d][i])][j])
  }

  /** A finished directory maps both APIC pages. */
  ghost predicate ApicsOk(c: Config, s: Frames, d: nat)
    requires d in s.place
  {
    s.place[d] == Directory(true) ==>
      && MappedAt(s, d, c.ioApic / ENTRIES, c.ioApic % ENTRIES)
      && MappedAt(s, d, c.localApic / ENTRIES, c.localApic % ENTRIES)
  }

  /** Some page of the low tables lies in table `i`. */
  predicate HasLow(c: Config, i: nat) {
    (if i == 0 then 1 else PageNumber(i, 0)) < c.lowPages
  }

  /** `page` is low table `i`: every low page to itself, for the kernel only, and
      page 0 unmapped. */
  ghost predicate LowPage(c: Config, page: Page, i: nat) {
    forall j: nat | j < ENTRIES ::
      page[j] == if 0 < PageNumber(i, j) < c.lowPages then PageNumber(i, j) * FRAME_SIZE + 3 else 0
  }

  /** The shared directory holds the low tables and nothing else. */
  ghost predicate SharedOk(c: Config, s: Frames, i: nat)
    requires Sized(c, s) && i < ENTRIES
  {
    c.shared != 0 ==>
      var w := s.mem[c.shared][i];
      if i < PRIVATE && HasLow(c, i) then
        && Present(w) && FrameOf(w) in s.place && s.place[FrameOf(w)] == LowTable(i) && Bits(w) == 3
        && LowPage(c, s.mem[FrameOf(w)], i)
      else w == 0
  }

  ghost predicate FramesOk(c: Config, s: Frames)
    requires Sized(c, s)
  {
    forall f: nat {:trigger FrameOk(c, s, f)} | f in s.place :: FrameOk(c, s, f)
  }

  ghost predicate ListsOk(s: Frames) {
    forall k: nat {:trigger ListOk(s, k)} | k < |s.free| :: ListOk(s, k)
  }

  ghost predicate DirectoriesOk(c: Config, s: Frames)
    requires Sized(c, s)
  {
    && (forall d: nat, i: nat {:trigger DirEntryOk(c, s, d, i)} | IsDirectory(s, d) && i < ENTRIES ::
      DirEntryOk(c, s, d, i))
    && (forall d: nat {:trigger ApicsOk(c, s, d)} | d in s.place :: ApicsOk(c, s, d))
  }

  ghost predicate TablesOk(c: Config, s: Frames)
    requires Sized(c, s)
  {
    forall t: nat, j: nat {:trigger TableEntryOk(c, s, t, j)} | t in s.place && s.place[t].Table? && j < ENTRIES ::
      TableEntryOk(c, s, t, j)
  }

  ghost predicate LowOk(c: Config, s: Frames)
    requires Sized(c, s)
  {
    && (c.shared != 0 ==> c.shared in s.place && s.place[c.shared] == LowDirectory)
    && (forall i: nat {:trigger SharedOk(c, s, i)} | i < ENTRIES :: SharedOk(c, s, i))
  }

  ghost predicate Inv(c: Config, s: Frames) {
    match s
    case Frames(_, _, _, _) =>
      Sized(c, s) && FramesOk(c, s) && ListsOk(s) && DirectoriesOk(c, s) && TablesOk(c, s) && LowOk(c, s)
  }

  // ---------------------------------------------------------------------
  // The frame allocator
  // ---------------------------------------------------------------------

  ghost predicate Exhausted(c: Config, s: Frames) {
    s.free == [] && s.avail == c.limit
  }

  /** Take the head of the list, or else the next frame, and clear it. */
  ghost function Alloc(c: Config, s: Frames): (r: (Frames, nat))
    requires Inv(c, s) && !Exhausted(c, s)
  {
    if s.free != [] then
      var k := |s.free| - 1;
      assert ListOk(s, k);
      var f := s.free[k];
      (Frames(s.mem[f := ZeroWords(ENTRIES)], s.free[..k], s.avail, s.place[f := Loose]), f)
    else
      var f := s.avail;
      (Frames(s.mem[f := ZeroWords(ENTRIES)], s.free, f + 1, s.place[f := Loose]), f)
  }

  /** Put a frame at the head of the list, linked through its first word. */
  ghost function Dealloc(c: Config, s: Frames, f: nat): Frames
    requires Inv(c, s) && f in s.place && s.place[f] == Loose
  {
    var k := |s.free|;
    var link := if k == 0 then 0 else s.free[k - 1] * FRAME_SIZE;
    Frames(s.mem[f := s.mem[f][0 := link]], s.free + [f], s.avail, s.place[f := Free(k)])
  }
}
