/** I-nodes, directories and path lookup of the ext2 file system. */
module Ext2 {
  import opened WordBytes
  import opened BlockReads
  import opened CStrings
  import opened Sequences

  const SLASH: Byte := 47
  const NODE_BYTES := 128

  // ---------------------------------------------------------------------
  // Directories
  // ---------------------------------------------------------------------

  /** The little-endian half word. */
  function Half(lo: nat, hi: nat): nat {
    lo + 0x100 * hi
  }

  /** What a directory holds, as bytes. */
  function Data(f: Source): (d: seq<Byte>)
    requires Shaped(f)
    ensures |d| == f.Size()
  {
    Slice(f, 0, f.Size())
  }

  /** `n` members of `d` from the `o`-th on. */
  function Sub<T>(d: seq<T>, o: nat, n: nat): (s: seq<T>)
    requires o + n <= |d|
    ensures |s| == n && forall k: nat | k < n :: s[k] == d[o + k]
  {
    seq(n, k requires 0 <= k < n => d[o + k])
  }

  lemma {:induction false} DataSlice(f: Source, o: nat, n: nat)
    requires Shaped(f) && o + n <= f.Size()
    ensures Slice(f, o, n) == Sub(Data(f), o, n)
  {
    var a, b := Slice(f, o, n), Sub(Data(f), o, n);
    forall k: nat | k < n ensures a[k] == b[k] {
      SliceAt(f, o, n, k);
      SliceAt(f, 0, f.Size(), o + k);
    }
  }

  /** What the walk needs of the entry at `o`: all of it is in the directory, and
      it leads on. */
  predicate EntryFits(d: seq<Byte>, o: nat) {
    && o + 7 <= |d| && (d[o + 6] == 0 || o + 8 + d[o + 6] <= |d|)
    && Half(d[o + 4], d[o + 5]) > 0 && o + Half(d[o + 4], d[o + 5]) < WORD
  }

  /** The i-node number of the entry at `o`. */
  function InodeAt(d: seq<Byte>, o: nat): nat
    requires EntryFits(d, o)
  {
    Compose(d[o], d[o + 1], d[o + 2], d[o + 3])
  }

  /** The length of the whole entry. */
  function TotalAt(d: seq<Byte>, o: nat): (n: nat)
    requires EntryFits(d, o)
    ensures n > 0 && o + n < WORD
  {
    Half(d[o + 4], d[o + 5])
  }

  /** Its name, after the length of the name and one byte unused. */
  function NameAt(d: seq<Byte>, o: nat): seq<Byte>
    requires EntryFits(d, o)
  {
    if d[o + 6] == 0 then [] else Sub(d, o + 8, d[o + 6])
  }

  ghost predicate AreEntries(d: seq<Byte>, es: seq<nat>) {
    forall i: nat {:trigger EntryFits(d, es[i])} | i < |es| :: EntryFits(d, es[i])
  }

  /** Where the entries from `o` on are. */
  ghost function List(d: seq<Byte>, o: nat): (es: seq<nat>)
    ensures AreEntries(d, es)
    decreases WORD - o
  {
    if o >= |d| || !EntryFits(d, o) then [] else [o] + List(d, o + TotalAt(d, o))
  }

  /** The walk from `o` on reaches the end of the directory. */
  predicate Walkable(d: seq<Byte>, o: nat)
    decreases WORD - o
  {
    o >= |d| || (EntryFits(d, o) && Walkable(d, o + TotalAt(d, o)))
  }

  predicate IsDirectory(f: Source) {
    f.Inode? && f.mode / 0x1000 == 4
  }

  /** The entry at `o` has that name. */
  ghost predicate Named(d: seq<Byte>, o: nat, name: seq<Byte>)
    requires EntryFits(d, o)
  {
    Chop(NameAt(d, o)) == name
  }

  /** For each entry, whether it has that name. */
  ghost function Hits(d: seq<Byte>, es: seq<nat>, name: seq<Byte>): (hits: seq<bool>)
    requires AreEntries(d, es)
    ensures |hits| == |es| && forall i: nat | i < |es| :: hits[i] == Named(d, es[i], name)
  {
    seq(|es|, i requires 0 <= i < |es| => Named(d, es[i], name))
  }

  /** Which of the first `n` is the last that is true, or -1. */
  function LastTrue(hits: seq<bool>, n: nat): (i: int)
    requires n <= |hits|
    ensures -1 <= i < n && (i >= 0 ==> hits[i])
    ensures forall k: nat | i < k < n :: !hits[k]
  {
    if n == 0 then -1 else if hits[n - 1] then n - 1 else LastTrue(hits, n - 1)
  }

  /** The i-node of the last of the first `n` entries with that name, or 0. */
  ghost function MatchBefore(d: seq<Byte>, es: seq<nat>, n: nat, name: seq<Byte>): nat
    requires AreEntries(d, es) && n <= |es|
  {
    var i := LastTrue(Hits(d, es, name), n);
    if i < 0 then 0 else InodeAt(d, es[i])
  }

  /** ... and of all entries of the directory. */
  ghost function LastMatch(d: seq<Byte>, name: seq<Byte>): nat {
    MatchBefore(d, List(d, 0), |List(d, 0)|, name)
  }

  /** Of several entries with one name the last counts. */
  lemma LastCounts(d: seq<Byte>, name: seq<Byte>, i: nat)
    requires i < |List(d, 0)| && Named(d, List(d, 0)[i], name)
    requires forall k: nat | i < k < |List(d, 0)| :: !Named(d, List(d, 0)[k], name)
    ensures LastMatch(d, name) == InodeAt(d, List(d, 0)[i])
  {
    var hits := Hits(d, List(d, 0), name);
    assert hits[i] && LastTrue(hits, |hits|) == i;
  }

  /** Without one the result is 0. */
  lemma NoneCounts(d: seq<Byte>, name: seq<Byte>)
    requires forall k: nat | k < |List(d, 0)| :: !Named(d, List(d, 0)[k], name)
    ensures LastMatch(d, name) == 0
  {
  }

  lemma {:induction false} MatchNext(d: seq<Byte>, es: seq<nat>, n: nat, name: seq<Byte>)
    requires AreEntries(d, es) && n < |es|
    ensures MatchBefore(d, es, n + 1, name) ==
            if Named(d, es[n], name) then InodeAt(d, es[n]) else MatchBefore(d, es, n, name)
  {
  }

  /** How far a walk is: at `offset`, after the first `seen` entries; and the
      i-node found so far. */
  datatype Walk = Walk(offset: nat, seen: nat, out: nat)

  /** That is so for the directory `d`, its entries `es` and the name looked for. */
  ghost predicate Looked(d: seq<Byte>, es: seq<nat>, name: seq<Byte>, w: Walk) {
    match w
    case Walk(o, i, out) =>
      AreEntries(d, es) && i <= |es| && Walkable(d, o) && List(d, o) == es[i..] && out == MatchBefore(d, es, i, name)
  }

  lemma {:induction false} NextFits(d: seq<Byte>, es: seq<nat>, name: seq<Byte>, w: Walk)
    requires Looked(d, es, name, w) && w.offset < |d|
    ensures EntryFits(d, w.offset) && w.seen < |es| && es[w.seen] == w.offset
  {
    ListFirst(d, w.offset);
    assert es[w.seen..][0] == es[w.seen];
  }

  lemma {:induction false} LookNext(d: seq<Byte>, es: seq<nat>, name: seq<Byte>, w: Walk, next: Walk)
    requires Looked(d, es, name, w) && w.offset < |d| && w.seen < |es| && es[w.seen] == w.offset
    requires EntryFits(d, w.offset) && next.offset == w.offset + TotalAt(d, w.offset) && next.seen == w.seen + 1
    requires next.out == if Named(d, w.offset, name) then InodeAt(d, w.offset) else w.out
    ensures Looked(d, es, name, next)
  {
    ListFirst(d, w.offset);
    MatchNext(d, es, w.seen, name);
    TailOf(es, w.seen, List(d, w.offset), w.offset, List(d, next.offset));
  }

  lemma {:induction false} ListFirst(d: seq<Byte>, o: nat)
    requires o < |d| && EntryFits(d, o)
    ensures List(d, o) == [o] + List(d, o + TotalAt(d, o))
    ensures Walkable(d, o) <==> Walkable(d, o + TotalAt(d, o))
  {
  }

  // ---------------------------------------------------------------------
  // Directories as they are written
  // ---------------------------------------------------------------------

  /** Bytes `s` are an entry on the disk: i-node number and length of the entry,
      little-endian, length of the name, a byte for the kind of file, the name,
      padding. */
  ghost predicate Encodes(s: seq<Byte>, inode: nat, name: seq<Byte>) {
    && 8 + |name| <= |s| < 0x1_0000 && inode < WORD && |name| < 0x100
    && s[0] == ByteOf(inode, 0) && s[1] == ByteOf(inode, 1) && s[2] == ByteOf(inode, 2) && s[3] == ByteOf(inode, 3)
    && s[4] == |s| % 0x100 && s[5] == |s| / 0x100
    && s[6] == |name| && Sub(s, 8, |name|) == name
  }

  ghost predicate AllEncode(ss: seq<seq<Byte>>, inodes: seq<nat>, names: seq<seq<Byte>>) {
    && |ss| == |inodes| == |names|
    && forall i: nat {:trigger Encodes(ss[i], inodes[i], names[i])} | i < |ss| :: Encodes(ss[i], inodes[i], names[i])
  }

  /** One after the other, from the `i`-th on. */
  function Joined<T>(ss: seq<seq<T>>, i: nat): seq<T>
    requires i <= |ss|
    decreases |ss| - i
  {
    if i == |ss| then [] else ss[i] + Joined(ss, i + 1)
  }

  /** ... they are `d` from `o` to the end. */
  ghost predicate Laid<T>(ss: seq<seq<T>>, i: nat, d: seq<T>, o: nat)
    requires i <= |ss|
    decreases |ss| - i
  {
    if i == |ss| then o == |d|
    else o + |ss[i]| <= |d| && Sub(d, o, |ss[i]|) == ss[i] && Laid(ss, i + 1, d, o + |ss[i]|)
  }

  lemma {:induction false} JoinedIsLaid<T>(before: seq<T>, ss: seq<seq<T>>, i: nat, d: seq<T>)
    requires i <= |ss| && d == before + Joined(ss, i)
    ensures Laid(ss, i, d, |before|)
    decreases |ss| - i
  {
    if i < |ss| {
      Regroup(before, ss[i], Joined(ss, i + 1));
      assert Sub(d, |before|, |ss[i]|) == ss[i];
      JoinedIsLaid(before + ss[i], ss, i + 1, d);
    }
  }

  lemma {:induction false} EntryReadsBack(d: seq<Byte>, o: nat, s: seq<Byte>, inode: nat, name: seq<Byte>)
    requires Encodes(s, inode, name) && o + |s| <= |d| < WORD && Sub(d, o, |s|) == s
    ensures EntryFits(d, o) && InodeAt(d, o) == inode && TotalAt(d, o) == |s| && NameAt(d, o) == name
  {
    assert forall k: nat | k < 7 :: Sub(d, o, |s|)[k] == d[o + k];
    SubOfSub(d, o, s, 8, |name|);
    BytesCompose(inode);
  }

  lemma SubOfSub<T>(d: seq<T>, o: nat, s: seq<T>, i: nat, n: nat)
    requires o + |s| <= |d| && Sub(d, o, |s|) == s && i + n <= |s|
    ensures Sub(d, o + i, n) == Sub(s, i, n)
  {
    var a, b := Sub(d, o + i, n), Sub(s, i, n);
    forall k: nat | k < n ensures a[k] == b[k] { assert Sub(d, o, |s|)[i + k] == d[o + (i + k)]; }
  }

  ghost predicate ReadsBack(d: seq<Byte>, o: nat, inode: nat, name: seq<Byte>) {
    EntryFits(d, o) && InodeAt(d, o) == inode && NameAt(d, o) == name
  }

  /** The entries of a directory are those that were written, in that order. */
  lemma {:induction false} DirectoryReadsBack(ss: seq<seq<Byte>>, inodes: seq<nat>, names: seq<seq<Byte>>, d: seq<Byte>)
    requires AllEncode(ss, inodes, names) && d == Joined(ss, 0) && |d| < WORD
    ensures Walkable(d, 0) && |List(d, 0)| == |ss|
    ensures forall k: nat | k < |ss| :: ReadsBack(d, List(d, 0)[k], inodes[k], names[k])
  {
    JoinedIsLaid([], ss, 0, d);
    LaidReadsBack(ss, inodes, names, 0, d, 0);
  }

  lemma {:induction false} LaidReadsBack(ss: seq<seq<Byte>>, inodes: seq<nat>, names: seq<seq<Byte>>, i: nat,
                                         d: seq<Byte>, o: nat)
    requires AllEncode(ss, inodes, names) && i <= |ss| && Laid(ss, i, d, o) && |d| < WORD
    ensures Walkable(d, o) && |List(d, o)| == |ss| - i
    ensures forall k: nat | i <= k < |ss| :: ReadsBack(d, List(d, o)[k - i], inodes[k], names[k])
    decreases |ss| - i
  {
    if i < |ss| {
      assert Encodes(ss[i], inodes[i], names[i]);
      EntryReadsBack(d, o, ss[i], inodes[i], names[i]);
      ListFirst(d, o);
      var next := o + |ss[i]|;
      LaidReadsBack(ss, inodes, names, i + 1, d, next);
      forall k: nat | i <= k < |ss| ensures ReadsBack(d, List(d, o)[k - i], inodes[k], names[k]) {
        if k > i { assert List(d, o)[k - i] == List(d, next)[k - (i + 1)]; }
      }
    }
  }

  /** Look the name (with its terminating zero) up in a directory, entry by entry. */
  method Find(f: Source, name: seq<Byte>) returns (out: nat)
    requires Sound(f) && IsDirectory(f) && Walkable(Data(f), 0) && 0 in name
    ensures out == LastMatch(Data(f), Chop(name))
  {
    out := 0;
    var offset := 0;
    ghost var d, part := Data(f), Chop(name);
    ghost var es, w := List(d, 0), Walk(0, 0, 0);
    LookFirst(d, es, part);
    while offset < f.size
      invariant w.offset == offset && w.out == out && Looked(d, es, part, w)
      decreases WORD - offset
    {
      NextFits(d, es, part, w);
      var inode, totalSize, eq := CheckEntry(f, offset, name);
      if eq { out := inode; }
      offset := offset + totalSize;
      ghost var next := Walk(offset, w.seen + 1, out);
      LookNext(d, es, part, w, next);
      w := next;
    }
    LookedAll(d, es, part, w);
  }

  lemma {:induction false} LookFirst(d: seq<Byte>, es: seq<nat>, name: seq<Byte>)
    requires Walkable(d, 0) && es == List(d, 0)
    ensures Looked(d, es, name, Walk(0, 0, 0))
  {
  }

  lemma {:induction false} LookedAll(d: seq<Byte>, es: seq<nat>, name: seq<Byte>, w: Walk)
    requires es == List(d, 0) && Looked(d, es, name, w) && w.offset >= |d|
    ensures w.out == LastMatch(d, name)
  {
    assert |es[w.seen..]| == 0;
  }

  /** The entry at an offset, and whether it has that name (with its terminating zero). */
  method CheckEntry(f: Source, o: nat, name: seq<Byte>) returns (inode: nat, total: nat, eq: bool)
    requires Sound(f) && EntryFits(Data(f), o) && 0 in name
    ensures inode == InodeAt(Data(f), o) && total == TotalAt(Data(f), o) && eq == Named(Data(f), o, Chop(name))
  {
    var nm;
    inode, total, nm := ReadEntry(f, o);
    eq := StrEq(name, nm + [0]);
    ChopTerminated(nm);
  }

  method ReadEntry(f: Source, o: nat) returns (inode: nat, total: nat, name: seq<Byte>)
    requires Sound(f) && EntryFits(Data(f), o)
    ensures inode == InodeAt(Data(f), o) && total == TotalAt(Data(f), o) && name == NameAt(Data(f), o)
  {
    ghost var d := Data(f);
    var b := ReadBytes(f, o, 4);
    inode := Compose(b[0], b[1], b[2], b[3]);
    b := ReadBytes(f, o + 4, 2);
    total := Half(b[0], b[1]);
    b := ReadBytes(f, o + 6, 1);
    var n := b[0];
    name := [];
    if n > 0 { name := ReadBytes(f, o + 8, n); }
  }

  /** `n` bytes that are all there. */
  method ReadBytes(f: Source, o: nat, n: nat) returns (b: seq<Byte>)
    requires Sound(f) && o + n <= f.Size()
    ensures o + n <= |Data(f)| && b == Sub(Data(f), o, n)
  {
    var buffer := new Byte[n](i => 0);
    var cnt := ReadAll(f, o, n, buffer, 0);
    assert cnt == n;
    b := buffer[..];
    assert b == Slice(f, o, n);
    DataSlice(f, o, n);
  }

  // ---------------------------------------------------------------------
  // I-nodes
  // ---------------------------------------------------------------------

  /** A mounted file system; `tables` has the block of each group's i-node table. */
  datatype Fs = Fs(at: nat -> Byte, blockSize: nat, inodes: nat, blocks: nat, inodeSize: nat, perGroup: nat,
                   tables: seq<nat>)

  /** The i-node whose 128 bytes are `b`. */
  function Decode(fs: Fs, b: seq<Byte>): (f: Source)
    requires |b| == NODE_BYTES
  {
    Inode(fs.at, fs.blockSize, Word(b, 4), Word(b, 28),
          seq(DIRECT, i requires 0 <= i < DIRECT => Word(b, 40 + 4 * i)), Word(b, 88), Half(b[0], b[1]))
  }

  function Word(b: seq<Byte>, o: nat): nat
    requires o + 4 <= |b|
  {
    Compose(b[o], b[o + 1], b[o + 2], b[o + 3])
  }

  /** Group and index of i-node `n`, found by counting. */
  function Group(fs: Fs, n: nat): (nat, nat)
    requires n > 0 && fs.perGroup > 0
  {
    Split(n - 1, fs.perGroup)
  }

  function NodeAddress(fs: Fs, n: nat): nat
    requires n > 0 && fs.perGroup > 0 && Group(fs, n).0 < |fs.tables|
  {
    Start(fs.tables[Group(fs, n).0], fs.blockSize) + Start(Group(fs, n).1, fs.inodeSize)
  }

  /** I-node `n`, as it is on the disk. */
  function NodeAt(fs: Fs, n: nat): Source
    requires n > 0 && fs.perGroup > 0 && Group(fs, n).0 < |fs.tables|
  {
    Decode(fs, Slice(Ide(fs.at), NodeAddress(fs, n), NODE_BYTES))
  }

  /** The file system has a table for the group of i-node `n`, where one may be. */
  predicate InTables(fs: Fs, n: nat)
    requires n > 0 && fs.perGroup > 0
  {
    Group(fs, n).0 < |fs.tables| && fs.tables[Group(fs, n).0] <= fs.blocks
  }

  /** If there is an i-node of that number, it lies on the disk below 4 GB. */
  predicate NodeOk(fs: Fs, number: nat)
    requires fs.perGroup > 0
  {
    0 < number <= fs.inodes && InTables(fs, number) ==> NodeAddress(fs, number) + NODE_BYTES < WORD
  }

  /** A directory whose blocks can be read and whose entries lead to its end. */
  ghost predicate Searchable(f: Source) {
    Sound(f) && IsDirectory(f) && Walkable(Data(f), 0)
  }

  /** Where i-node `n` lies: in the table of its group, at its place there. */
  lemma {:induction false} NodePlace(fs: Fs, n: nat, group: nat, index: nat)
    requires n > 0 && fs.perGroup > 0 && group == (n - 1) / fs.perGroup && index == (n - 1) % fs.perGroup
    requires group < |fs.tables|
    ensures Group(fs, n).0 < |fs.tables|
    ensures NodeAddress(fs, n) == fs.tables[group] * fs.blockSize + index * fs.inodeSize
  {
    SplitIsDivMod(n - 1, fs.perGroup);
    StartIsProduct(fs.tables[group], fs.blockSize);
    StartIsProduct(index, fs.inodeSize);
  }

  /** What the fields of the i-node in bytes `b` of the disk, from `a` on, are. */
  lemma {:induction false} NodeFields(fs: Fs, a: nat, b: seq<Byte>, f: Source)
    requires b == Slice(Ide(fs.at), a, NODE_BYTES) && f == Decode(fs, b)
    ensures f.Inode? && f.at == fs.at && f.blockSize == fs.blockSize && |f.direct| == 12
    ensures f.mode == fs.at(a) + 0x100 * fs.at(a + 1) && f.size == WordAt(fs.at, a + 4)
    ensures f.sectors == WordAt(fs.at, a + 28) && f.indirect == WordAt(fs.at, a + 88)
  {
    NodeByte(fs, a, 0);
    NodeByte(fs, a, 1);
    NodeWord(fs, a, 4, b);
    NodeWord(fs, a, 28, b);
    NodeWord(fs, a, 88, b);
  }

  lemma {:induction false} NodePointer(fs: Fs, a: nat, b: seq<Byte>, f: Source, i: nat)
    requires b == Slice(Ide(fs.at), a, NODE_BYTES) && f == Decode(fs, b) && i < 12
    ensures f.Inode? && |f.direct| == 12 && f.direct[i] == WordAt(fs.at, a + 40 + 4 * i)
  {
    DirectWord(fs, b, f, i);
    NodeWord(fs, a, 40 + 4 * i, b);
  }

  lemma {:induction false} DirectWord(fs: Fs, b: seq<Byte>, f: Source, i: nat)
    requires |b| == NODE_BYTES && f == Decode(fs, b) && i < 12
    ensures f.Inode? && |f.direct| == 12 && f.direct[i] == Word(b, 40 + 4 * i)
  {
  }

  lemma {:induction false} NodeWord(fs: Fs, a: nat, k: nat, b: seq<Byte>)
    requires k + 4 <= NODE_BYTES && b == Slice(Ide(fs.at), a, NODE_BYTES)
    ensures Word(b, k) == WordAt(fs.at, a + k)
  {
    NodeByte(fs, a, k);
    NodeByte(fs, a, k + 1);
    NodeByte(fs, a, k + 2);
    NodeByte(fs, a, k + 3);
  }

  lemma {:induction false} NodeByte(fs: Fs, a: nat, k: nat)
    requires k < NODE_BYTES
    ensures Slice(Ide(fs.at), a, NODE_BYTES)[k] == fs.at(a + k)
  {
    SliceAt(Ide(fs.at), a, NODE_BYTES, k);
    DiskByte(fs.at, a + k);
  }

  /** Different i-nodes of one group do not overlap. */
  lemma NodesApart(fs: Fs, n: nat, m: nat)
    requires 0 < n < m && fs.perGroup > 0 && fs.inodeSize >= NODE_BYTES
    requires Group(fs, m).0 < |fs.tables| && Group(fs, n).0 == Group(fs, m).0
    ensures NodeAddress(fs, n) + NODE_BYTES <= NodeAddress(fs, m)
  {
    SplitOrder(n - 1, m - 1, fs.perGroup);
    StartOrder(Group(fs, n).1, Group(fs, m).1, fs.inodeSize);
  }

  lemma {:induction false} SplitOrder(k: nat, l: nat, block: nat)
    requires block > 0 && k < l && Split(k, block).0 == Split(l, block).0
    ensures Split(k, block).1 < Split(l, block).1
    decreases l
  {
    if k >= block { SplitOrder(k - block, l - block, block); }
  }

  lemma {:induction false} StartOrder(m: nat, n: nat, size: nat)
    requires m < n
    ensures Start(m, size) + size <= Start(n, size)
    decreases n
  {
    if m < n - 1 { StartOrder(m, n - 1, size); }
  }

  datatype Lookup = Found(node: Source) | Missing | Panic

  /** I-node `number`; a number out of range, or of a group with no table, is a panic. */
  function NodeOf(fs: Fs, number: nat): Lookup
    requires fs.perGroup > 0
  {
    if 0 < number <= fs.inodes && InTables(fs, number) then Found(NodeAt(fs, number)) else Panic
  }

  method GetNode(fs: Fs, number: nat) returns (r: Lookup)
    requires fs.perGroup > 0 && NodeOk(fs, number)
    ensures r == NodeOf(fs, number)
  {
    if number == 0 || number > fs.inodes || !InTables(fs, number) { return Panic; }
    var nodeOffset := NodeOffset(fs, number);
    var node := ReadNode(fs, nodeOffset);
    r := Found(node);
  }

  function NodeOffset(fs: Fs, n: nat): (a: nat)
    requires n > 0 && fs.perGroup > 0 && Group(fs, n).0 < |fs.tables| && NodeAddress(fs, n) < WORD
    ensures a == NodeAddress(fs, n)
  {
    var (groupIndex, indexInGroup) := DivMod(n - 1, fs.perGroup);
    (Product(fs.tables[groupIndex], fs.blockSize) + Product(indexInGroup, fs.inodeSize)) % WORD
  }

  method ReadNode(fs: Fs, nodeOffset: nat) returns (f: Source)
    requires nodeOffset + NODE_BYTES < WORD
    ensures f == Decode(fs, Slice(Ide(fs.at), nodeOffset, NODE_BYTES))
  {
    var buffer := new Byte[NODE_BYTES](i => 0);
    var cnt := ReadAll(Ide(fs.at), nodeOffset, NODE_BYTES, buffer, 0);
    assert buffer[..] == Slice(Ide(fs.at), nodeOffset, NODE_BYTES);
    f := Decode(fs, buffer[..]);
  }

  // ---------------------------------------------------------------------
  // Paths
  // ---------------------------------------------------------------------

  /** Where the part at `i` ends: at the next slash, or at the end. */
  function PartEnd(p: seq<Byte>, i: nat): (e: nat)
    requires i <= |p|
    ensures i <= e <= |p| && (forall k: nat | i <= k < e :: p[k] != SLASH) && (e < |p| ==> p[e] == SLASH)
    decreases |p| - i
  {
    if i == |p| || p[i] == SLASH then i else PartEnd(p, i + 1)
  }

  /** The parts between slashes, from `i` on; any number of slashes separates. */
  function PartsFrom(p: seq<Byte>, i: nat): seq<seq<Byte>>
    requires i <= |p|
    decreases |p| - i
  {
    if i == |p| then []
    else if p[i] == SLASH then PartsFrom(p, i + 1)
    else [p[i..PartEnd(p, i)]] + PartsFrom(p, PartEnd(p, i))
  }

  function Parts(p: seq<Byte>): seq<seq<Byte>> {
    PartsFrom(p, 0)
  }

  /** What looking one part up reads is fit to be read: the directory, and the
      i-node it names. Nothing is asked of any other i-node of the disk. */
  ghost predicate StepOk(fs: Fs, current: Source, part: seq<Byte>)
    requires fs.perGroup > 0
  {
    |part| <= 256 && IsDirectory(current) ==>
      Searchable(current) && NodeOk(fs, LastMatch(Data(current), part))
  }

  /** One part: the i-node of that name in the directory. */
  ghost function Enter(fs: Fs, current: Source, part: seq<Byte>): Lookup
    requires fs.perGroup > 0 && StepOk(fs, current, part)
  {
    if |part| > 256 || !IsDirectory(current) then Panic
    else
      var number := LastMatch(Data(current), part);
      if number == 0 then Missing else NodeOf(fs, number)
  }

  /** Looking up a name that is too long, or in what is no directory, is a panic. */
  lemma EnterPanics(fs: Fs, current: Source, part: seq<Byte>)
    requires fs.perGroup > 0 && StepOk(fs, current, part) && (|part| > 256 || !IsDirectory(current))
    ensures Enter(fs, current, part) == Panic
  {
  }

  /** Without an entry of that name there is nothing there. */
  lemma EnterMisses(fs: Fs, current: Source, part: seq<Byte>, d: seq<Byte>)
    requires fs.perGroup > 0 && StepOk(fs, current, part) && |part| <= 256 && IsDirectory(current)
    requires d == Data(current) && forall k: nat | k < |List(d, 0)| :: !Named(d, List(d, 0)[k], part)
    ensures Enter(fs, current, part) == Missing
  {
    NoneCounts(d, part);
  }

  /** Otherwise it is the i-node of the last such entry, if that is in range and its
      group has a table. */
  lemma EnterFinds(fs: Fs, current: Source, part: seq<Byte>, d: seq<Byte>, i: nat, n: nat)
    requires fs.perGroup > 0 && StepOk(fs, current, part) && |part| <= 256 && IsDirectory(current)
    requires d == Data(current) && i < |List(d, 0)| && Named(d, List(d, 0)[i], part)
    requires forall k: nat | i < k < |List(d, 0)| :: !Named(d, List(d, 0)[k], part)
    requires n == InodeAt(d, List(d, 0)[i]) && n > 0
    ensures Enter(fs, current, part) == if n <= fs.inodes && InTables(fs, n) then Found(NodeAt(fs, n)) else Panic
  {
    LastCounts(d, part, i);
  }

  /** So is what following the parts reads. */
  ghost predicate PathOk(fs: Fs, current: Source, parts: seq<seq<Byte>>)
    requires fs.perGroup > 0
    decreases |parts|
  {
    parts == [] ||
    (StepOk(fs, current, parts[0]) &&
     (Enter(fs, current, parts[0]).Found? ==> PathOk(fs, Enter(fs, current, parts[0]).node, parts[1..])))
  }

  /** Follow the parts from directory to directory. */
  ghost function Resolve(fs: Fs, current: Source, parts: seq<seq<Byte>>): Lookup
    requires fs.perGroup > 0 && PathOk(fs, current, parts)
    decreases |parts|
  {
    if parts == [] then Found(current)
    else
      match Enter(fs, current, parts[0])
      case Found(f) => Resolve(fs, f, parts[1..])
      case r => r
  }

  /** No parts lead nowhere else, and one part where entering it leads. */
  lemma ResolveOne(fs: Fs, current: Source, part: seq<Byte>)
    requires fs.perGroup > 0 && StepOk(fs, current, part)
    ensures PathOk(fs, current, []) && Resolve(fs, current, []) == Found(current)
    ensures PathOk(fs, current, [part]) && Resolve(fs, current, [part]) == Enter(fs, current, part)
  {
    assert [part][1..] == [];
  }

  /** A path can be followed in two stretches, the second from where the first
      ended, if it found a node. */
  lemma {:induction false} ResolveJoin(fs: Fs, current: Source, a: seq<seq<Byte>>, b: seq<seq<Byte>>)
    requires fs.perGroup > 0 && PathOk(fs, current, a + b)
    ensures PathOk(fs, current, a)
    ensures
      match Resolve(fs, current, a)
      case Found(f) => PathOk(fs, f, b) && Resolve(fs, current, a + b) == Resolve(fs, f, b)
      case r => Resolve(fs, current, a + b) == r
    decreases |a|
  {
    if a == [] {
      assert a + b == b;
    } else {
      assert (a + b)[1..] == a[1..] + b;
      match Enter(fs, current, a[0])
      case Found(f) => ResolveJoin(fs, f, a[1..], b);
      case _ =>
    }
  }

  /** Every i-node there may be lies below 4 GB, and every directory is searchable. */
  ghost predicate FsOk(fs: Fs) {
    fs.perGroup > 0 && forall n: nat {:trigger NodeOk(fs, n)} ::
      NodeOk(fs, n) && (NodeOf(fs, n).Found? && IsDirectory(NodeOf(fs, n).node) ==> Searchable(NodeOf(fs, n).node))
  }

  /** On such a disk every path can be followed from every directory. */
  lemma {:induction false} EveryPathOk(fs: Fs, current: Source, parts: seq<seq<Byte>>)
    requires FsOk(fs) && (IsDirectory(current) ==> Searchable(current))
    ensures PathOk(fs, current, parts)
    decreases |parts|
  {
    if parts != [] {
      if IsDirectory(current) { assert NodeOk(fs, LastMatch(Data(current), parts[0])); }
      if StepOk(fs, current, parts[0]) && Enter(fs, current, parts[0]).Found? {
        EveryPathOk(fs, Enter(fs, current, parts[0]).node, parts[1..]);
      }
    }
  }

  /** The node at a path (with its terminating zero), starting from `start`. */
  method FindPath(fs: Fs, start: Source, path: seq<Byte>) returns (r: Lookup)
    requires fs.perGroup > 0 && 0 in path && PathOk(fs, start, Parts(Chop(path)))
    ensures r == Resolve(fs, start, Parts(Chop(path)))
  {
    ghost var p := Chop(path);
    ChopSpells(path);
    var current := start;
    var idx := 0;
    while true
      invariant idx <= |p| && PathOk(fs, current, PartsFrom(p, idx))
      invariant Resolve(fs, start, Parts(p)) == Resolve(fs, current, PartsFrom(p, idx))
      decreases |p| - idx
    {
      idx := SkipSlashes(path, idx, p);
      if path[idx] == 0 { return Found(current); }
      var ok, part, next := TakePart(path, idx, p);
      if !ok { return Panic; }
      ChopInside(path, p, idx, next);
      var node := EnterPart(fs, current, part);
      if !node.Found? { return node; }
      current := node.node;
      idx := next;
    }
  }

  /** Look one part up and read its i-node. */
  method EnterPart(fs: Fs, current: Source, part: seq<Byte>) returns (r: Lookup)
    requires fs.perGroup > 0 && StepOk(fs, current, part) && |part| <= 256 && 0 !in part
    ensures r == Enter(fs, current, part)
  {
    if !IsDirectory(current) { return Panic; }
    var number := Find(current, part + [0]);
    ChopWhole(part);
    if number == 0 { return Missing; }
    r := GetNode(fs, number);
  }

  method SkipSlashes(path: seq<Byte>, from: nat, ghost p: seq<Byte>) returns (idx: nat)
    requires Spells(path, p) && from <= |p|
    ensures from <= idx <= |p| && PartsFrom(p, from) == PartsFrom(p, idx)
    ensures path[idx] != SLASH && (path[idx] == 0 <==> idx == |p|)
  {
    idx := from;
    while path[idx] == SLASH
      invariant from <= idx <= |p| && PartsFrom(p, from) == PartsFrom(p, idx)
      decreases |p| - idx
    {
      idx := idx + 1;
    }
  }

  /** The next part, if it fits the buffer of 256 bytes. */
  method TakePart(path: seq<Byte>, from: nat, ghost p: seq<Byte>) returns (ok: bool, part: seq<Byte>, idx: nat)
    requires Spells(path, p) && from < |p| && path[from] != SLASH
    ensures ok <==> PartEnd(p, from) - from <= 256
    ensures ok ==> idx == PartEnd(p, from) && from < idx && part == p[from..idx]
  {
    idx := from;
    part := [];
    while path[idx] != 0 && path[idx] != SLASH
      invariant from <= idx <= |p| && part == p[from..idx] && idx - from <= 256
      invariant PartEnd(p, from) == PartEnd(p, idx)
      decreases |p| - idx
    {
      if idx - from == 256 { return false, [], idx; }
      assert p[from..idx + 1] == p[from..idx] + [path[idx]];
      part := part + [path[idx]];
      idx := idx + 1;
    }
    ok := true;
  }

  /** A name that may be part of a path. */
  predicate IsPart(part: seq<Byte>) {
    part != [] && SLASH !in part
  }

  /** The path that names the parts. */
  function Spell(parts: seq<seq<Byte>>): seq<Byte> {
    if parts == [] then [] else [SLASH] + parts[0] + Spell(parts[1..])
  }

  /** A path has just the parts it was made of. */
  lemma {:induction false} PartsReadBack(parts: seq<seq<Byte>>)
    requires forall part | part in parts :: IsPart(part)
    ensures Parts(Spell(parts)) == parts
    decreases |parts|
  {
    if parts != [] {
      assert IsPart(parts[0]) by { assert parts[0] in parts; }
      var p, rest := Spell(parts), Spell(parts[1..]);
      var e := 1 + |parts[0]|;
      assert p == ([SLASH] + parts[0]) + rest && p[0] == SLASH && p[1] == parts[0][0];
      assert forall k: nat | 1 <= k < e :: p[k] == parts[0][k - 1];
      PartEndIs(p, 1, e);
      assert p[1..e] == parts[0];
      PartsShift([SLASH] + parts[0], rest, p, 0);
      PartsReadBack(parts[1..]);
      assert PartsFrom(p, 0) == PartsFrom(p, 1);
    }
  }

  /** Parts are never empty and hold no slash. */
  lemma {:induction false} PartsAreParts(p: seq<Byte>, i: nat)
    requires i <= |p|
    ensures forall part | part in PartsFrom(p, i) :: IsPart(part)
    decreases |p| - i
  {
    if i == |p| {
    } else if p[i] == SLASH {
      PartsAreParts(p, i + 1);
    } else {
      PartsAreParts(p, PartEnd(p, i));
    }
  }

  /** Joining paths with a slash joins their parts. */
  lemma PartsJoin(p: seq<Byte>, q: seq<Byte>)
    ensures Parts(p + [SLASH] + q) == Parts(p) + Parts(q)
  {
    PartsJoinFrom(p, q, p + [SLASH] + q, 0);
  }

  lemma {:induction false} PartsJoinFrom(p: seq<Byte>, q: seq<Byte>, pq: seq<Byte>, i: nat)
    requires i <= |p| && pq == p + [SLASH] + q
    ensures PartsFrom(pq, i) == PartsFrom(p, i) + PartsFrom(q, 0)
    decreases |p| - i
  {
    if i == |p| {
      PartsShift(p + [SLASH], q, pq, 0);
    } else if p[i] == SLASH {
      PartsJoinFrom(p, q, pq, i + 1);
    } else {
      var e := PartEnd(p, i);
      PartEndIs(pq, i, e);
      assert pq[i..e] == p[i..e];
      PartsJoinFrom(p, q, pq, e);
    }
  }

  /** The parts of `q` are the same after other bytes. */
  lemma {:induction false} PartsShift(before: seq<Byte>, q: seq<Byte>, all: seq<Byte>, i: nat)
    requires i <= |q| && all == before + q
    ensures PartsFrom(all, |before| + i) == PartsFrom(q, i)
    decreases |q| - i
  {
    if i == |q| {
    } else if q[i] == SLASH {
      PartsShift(before, q, all, i + 1);
    } else {
      var e := PartEnd(q, i);
      PartEndIs(all, |before| + i, |before| + e);
      assert all[|before| + i..|before| + e] == q[i..e];
      PartsShift(before, q, all, e);
    }
  }

  lemma {:induction false} PartEndIs(p: seq<Byte>, i: nat, e: nat)
    requires i <= e <= |p| && (forall k: nat | i <= k < e :: p[k] != SLASH) && (e < |p| ==> p[e] == SLASH)
    ensures PartEnd(p, i) == e
    decreases e - i
  {
    if i < e { PartEndIs(p, i + 1, e); }
  }

  /** Looking up `p/q` is looking `p` up and then `q` from there. */
  lemma PathJoin(fs: Fs, start: Source, p: seq<Byte>, q: seq<Byte>)
    requires fs.perGroup > 0 && PathOk(fs, start, Parts(p + [SLASH] + q))
    ensures PathOk(fs, start, Parts(p))
    ensures
      match Resolve(fs, start, Parts(p))
      case Found(f) => PathOk(fs, f, Parts(q)) && Resolve(fs, start, Parts(p + [SLASH] + q)) == Resolve(fs, f, Parts(q))
      case r => Resolve(fs, start, Parts(p + [SLASH] + q)) == r
  {
    PartsJoin(p, q);
    ResolveJoin(fs, start, Parts(p), Parts(q));
  }
}
