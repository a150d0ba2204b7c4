/** Reading bytes through layers of blocks: a disk of 512-byte sectors, and on
    it the files of a file system with larger blocks. */
module BlockReads {
  import opened WordBytes

  const SECTOR := 512
  const DIRECT := 12

  /** What a device or an i-node reads from: `at` gives each byte of the disk.
      The disk claims to be of the largest 32-bit size. */
  datatype Source =
    | Ide(at: nat -> Byte)
    | Inode(at: nat -> Byte, blockSize: nat, size: nat, sectors: nat, direct: seq<nat>, indirect: nat, mode: nat)
  {
    function Block(): nat {
      if Ide? then SECTOR else blockSize
    }

    function Size(): nat {
      if Ide? then WORD - 1 else size
    }

    /** Only an i-node reads from another layer. */
    function Layer(): nat {
      if Ide? then 0 else 1
    }
  }

  // ---------------------------------------------------------------------
  // What is to be read
  // ---------------------------------------------------------------------

  /** Block number and offset in the block of byte `k`, found by counting. */
  function Split(k: nat, block: nat): (p: (nat, nat))
    requires block > 0
    ensures p.1 < block
    decreases k
  {
    if k < block then (0, k) else var p := Split(k - block, block); (p.0 + 1, p.1)
  }

  /** The byte where block `n` starts, found by counting. */
  function Start(n: nat, block: nat): nat {
    if n == 0 then 0 else Start(n - 1, block) + block
  }

  /** The little-endian word at `a`. */
  function WordAt(at: nat -> Byte, a: nat): nat {
    Compose(at(a), at(a + 1), at(a + 2), at(a + 3))
  }

  /** The disk block that holds block `i` of a file. */
  function BlockOf(f: Source, i: nat): nat
    requires f.Inode? && |f.direct| == DIRECT
  {
    if i < DIRECT then f.direct[i] else WordAt(f.at, Start(f.indirect, f.blockSize) + (i - DIRECT) * 4)
  }

  /** Where on the disk block `i` starts. */
  function Base(f: Source, i: nat): nat
    requires Shaped(f)
  {
    if f.Ide? then i * SECTOR else Start(BlockOf(f, i), f.blockSize)
  }

  predicate Shaped(f: Source) {
    f.Inode? ==> f.blockSize >= SECTOR && f.size < WORD && |f.direct| == DIRECT
  }

  /** Byte `k` of a source: at its offset in its block. */
  function Content(f: Source, k: nat): Byte
    requires Shaped(f)
  {
    f.at(Base(f, Split(k, f.Block()).0) + Split(k, f.Block()).1)
  }

  function Slice(f: Source, offset: nat, n: nat): (s: seq<Byte>)
    requires Shaped(f)
    ensures |s| == n
    decreases n
  {
    if n == 0 then [] else Slice(f, offset, n - 1) + [Content(f, offset + n - 1)]
  }

  /** The bytes of block `i`. */
  function WholeBlock(f: Source, i: nat): (s: seq<Byte>)
    requires Shaped(f)
    ensures |s| == f.Block()
  {
    Bytes(f.at, Base(f, i), f.Block())
  }

  function Bytes(at: nat -> Byte, a: nat, n: nat): (s: seq<Byte>)
    ensures |s| == n
    decreases n
  {
    if n == 0 then [] else Bytes(at, a, n - 1) + [at(a + n - 1)]
  }

  lemma {:induction false} SliceAt(f: Source, offset: nat, n: nat, k: nat)
    requires Shaped(f) && k < n
    ensures Slice(f, offset, n)[k] == Content(f, offset + k)
    decreases n
  {
    if k < n - 1 { SliceAt(f, offset, n - 1, k); }
  }

  lemma {:induction false} BytesAt(at: nat -> Byte, a: nat, n: nat, k: nat)
    requires k < n
    ensures Bytes(at, a, n)[k] == at(a + k)
    decreases n
  {
    if k < n - 1 { BytesAt(at, a, n - 1, k); }
  }

  lemma {:induction false} SliceJoin(f: Source, offset: nat, m: nat, n: nat)
    requires Shaped(f)
    ensures Slice(f, offset, m) + Slice(f, offset + m, n) == Slice(f, offset, m + n)
    decreases n
  {
    if n > 0 { SliceJoin(f, offset, m, n - 1); }
  }

  function Blocks(f: Source): nat
    requires f.Block() > 0
  {
    Split(f.Size() + f.Block() - 1, f.Block()).0
  }

  /** Block `i` of the file is on the disk below 4 GB. */
  ghost predicate Mapped(f: Source, i: nat)
    requires f.Inode? && Shaped(f)
  {
    Base(f, i) + f.blockSize < WORD
  }

  /** The file fits its direct and single-indirect pointers, its sector count
      and the disk. */
  ghost predicate Sound(f: Source) {
    Shaped(f) && (f.Inode? ==>
      && Blocks(f) <= Split(f.sectors, f.blockSize / SECTOR).0
      && Blocks(f) <= DIRECT + f.blockSize / 4
      && (Blocks(f) > DIRECT ==> Start(f.indirect, f.blockSize) + f.blockSize < WORD)
      && (forall i: nat {:trigger Mapped(f, i)} | i < Blocks(f) :: Mapped(f, i)))
  }

  // ---------------------------------------------------------------------
  // Arithmetic of blocks
  // ---------------------------------------------------------------------

  /** Counting gives what division gives. */
  lemma {:induction false} SplitIsDivMod(k: nat, block: nat)
    requires block > 0
    ensures Split(k, block) == (k / block, k % block)
    decreases k
  {
    if k >= block {
      SplitIsDivMod(k - block, block);
      NextDiv(k - block, block);
    } else {
      SmallDiv(k, block);
    }
  }

  lemma {:induction false} StartIsProduct(n: nat, block: nat)
    ensures Start(n, block) == n * block
  {
    if n > 0 { StartIsProduct(n - 1, block); }
  }

  function DivMod(k: nat, block: nat): (p: (nat, nat))
    requires block > 0
    ensures p == Split(k, block)
  {
    SplitIsDivMod(k, block);
    (k / block, k % block)
  }

  function Product(n: nat, block: nat): (p: nat)
    ensures p == Start(n, block)
  {
    StartIsProduct(n, block);
    n * block
  }

  lemma SmallDiv(k: nat, block: nat)
    requires k < block
    ensures k / block == 0 && k % block == k
  {
  }

  lemma NextDiv(k: nat, block: nat)
    requires block > 0
    ensures (k + block) / block == k / block + 1 && (k + block) % block == k % block
  {
    var q, r := k / block, k % block;
    Unique((k + block) / block, (k + block) % block, q + 1, r, block);
  }

  lemma Unique(p: nat, r: nat, q: nat, s: nat, block: nat)
    requires r < block && s < block && p * block + r == q * block + s
    ensures p == q && r == s
  {
    if p < q { EarlierBlock(p, r, q, block); }
    if q < p { EarlierBlock(q, s, p, block); }
  }

  lemma {:induction false} EarlierBlock(q: nat, r: nat, p: nat, block: nat)
    requires r < block && q < p
    ensures q * block + r < p * block
    decreases p
  {
    assert p * block == (p - 1) * block + block;
    if q < p - 1 { EarlierBlock(q, r, p - 1, block); }
  }

  /** Within a block, offsets add up. */
  lemma {:induction false} InBlock(offset: nat, block: nat, k: nat)
    requires block > 0 && Split(offset, block).1 + k < block
    ensures Split(offset + k, block) == (Split(offset, block).0, Split(offset, block).1 + k)
    decreases offset
  {
    if offset >= block { InBlock(offset - block, block, k); }
  }

  /** A byte below `size` is in one of the blocks that `size` bytes take. */
  lemma {:induction false} BlockInFile(k: nat, size: nat, block: nat)
    requires block > 0 && k < size
    ensures Split(k, block).0 < Split(size + block - 1, block).0
    decreases k
  {
    if k >= block {
      BlockInFile(k - block, size - block, block);
    } else {
      assert Split(size + block - 1, block).0 == Split(size - 1, block).0 + 1;
    }
  }

  lemma ContentInBlock(f: Source, offset: nat, k: nat, q: nat, r: nat, base: nat)
    requires Shaped(f) && (q, r) == Split(offset, f.Block()) && r + k < f.Block() && base == Base(f, q)
    ensures Content(f, offset + k) == f.at(base + r + k)
  {
    InBlock(offset, f.Block(), k);
  }

  /** The bytes from `offset` on within one block. */
  lemma {:induction false} SliceOfBlock(f: Source, offset: nat, n: nat, q: nat, r: nat)
    requires Shaped(f) && (q, r) == Split(offset, f.Block()) && r + n <= f.Block()
    ensures WholeBlock(f, q)[r..r + n] == Slice(f, offset, n)
  {
    var w, s := WholeBlock(f, q)[r..r + n], Slice(f, offset, n);
    forall k: nat | k < n ensures w[k] == s[k] { ByteOfBlock(f, offset, n, q, r, k); }
  }

  lemma {:induction false} ByteOfBlock(f: Source, offset: nat, n: nat, q: nat, r: nat, k: nat)
    requires Shaped(f) && (q, r) == Split(offset, f.Block()) && r + n <= f.Block() && k < n
    ensures WholeBlock(f, q)[r + k] == Slice(f, offset, n)[k]
  {
    ContentInBlock(f, offset, k, q, r, Base(f, q));
    BytesAt(f.at, Base(f, q), f.Block(), r + k);
    SliceAt(f, offset, n, k);
  }

  function Least(a: int, b: int): int {
    if a <= b then a else b
  }

  /** The part of one block that a read from `offset` takes. */
  lemma OneBlock(f: Source, offset: nat, n: nat, q: nat, r: nat, actual: nat)
    requires Shaped(f) && offset < f.Size() && n <= f.Size() - offset && (q, r) == Split(offset, f.Block())
    requires actual == Least(n, f.Block() - r)
    ensures q < Blocks(f) && r < f.Block() && r + actual <= f.Block() && actual <= n && (n > 0 ==> actual > 0)
    ensures WholeBlock(f, q)[r..r + actual] == Slice(f, offset, actual)
    ensures actual == f.Block() ==> WholeBlock(f, q) == Slice(f, offset, actual)
  {
    BlockInFile(offset, f.Size(), f.Block());
    SliceOfBlock(f, offset, actual, q, r);
  }

  lemma DiskByte(at: nat -> Byte, a: nat)
    ensures Content(Ide(at), a) == at(a)
  {
    SplitIsDivMod(a, SECTOR);
  }

  /** The pointer to block `index` lies in the indirect block, below 4 GB. */
  lemma PointerInBlock(f: Source, index: nat)
    requires f.Inode? && Sound(f) && DIRECT <= index < Blocks(f)
    ensures
      var a := Start(f.indirect, f.blockSize) + (index - DIRECT) * 4;
      a % WORD == a && a + 4 < WORD && BlockOf(f, index) ==
        Compose(Content(Ide(f.at), a), Content(Ide(f.at), a + 1), Content(Ide(f.at), a + 2), Content(Ide(f.at), a + 3))
  {
    var a := Start(f.indirect, f.blockSize) + (index - DIRECT) * 4;
    DiskByte(f.at, a);
    DiskByte(f.at, a + 1);
    DiskByte(f.at, a + 2);
    DiskByte(f.at, a + 3);
  }

  lemma {:induction false} SliceOfDisk(at: nat -> Byte, a: nat, n: nat)
    ensures Slice(Ide(at), a, n) == Bytes(at, a, n)
    decreases n
  {
    if n > 0 {
      SliceOfDisk(at, a, n - 1);
      DiskByte(at, a + n - 1);
    }
  }

  /** A block of a file is a stretch of the disk below 4 GB. */
  lemma BlockOnDisk(f: Source, i: nat, b: nat)
    requires f.Inode? && Sound(f) && i < Blocks(f) && b == BlockOf(f, i)
    ensures Start(b, f.blockSize) % WORD == Start(b, f.blockSize) && Start(b, f.blockSize) + f.blockSize < WORD
    ensures Slice(Ide(f.at), Start(b, f.blockSize), f.blockSize) == WholeBlock(f, i)
  {
    assert Mapped(f, i);
    var a := Start(b, f.blockSize);
    SliceOfDisk(f.at, a, f.blockSize);
  }

  /** Where byte `k` of a file is on the disk: in the blocks that the 12 direct
      pointers name, and after those in the blocks whose numbers are the
      little-endian words of the indirect block, in order. */
  lemma ContentByBlocks(f: Source, k: nat)
    requires f.Inode? && Shaped(f)
    ensures var index, inBlock := k / f.blockSize, k % f.blockSize;
      if index < 12 then Content(f, k) == f.at(f.direct[index] * f.blockSize + inBlock)
      else
        var p := f.indirect * f.blockSize + 4 * (index - 12);
        var block := f.at(p) + 0x100 * f.at(p + 1) + 0x1_0000 * f.at(p + 2) + 0x100_0000 * f.at(p + 3);
        Content(f, k) == f.at(block * f.blockSize + inBlock)
  {
    SplitIsDivMod(k, f.blockSize);
    StartIsProduct(BlockOf(f, k / f.blockSize), f.blockSize);
    StartIsProduct(f.indirect, f.blockSize);
  }

  // ---------------------------------------------------------------------
  // The readers
  // ---------------------------------------------------------------------

  /** A buffer got the bytes `s` at `pos` and is otherwise as it was. */
  ghost predicate Filled(was: seq<Byte>, now: seq<Byte>, pos: nat, s: seq<Byte>) {
    && |now| == |was| && pos + |s| <= |was|
    && forall k: nat {:trigger now[k]} | k < |now| :: now[k] == if pos <= k < pos + |s| then s[k - pos] else was[k]
  }

  lemma FilledTwice(first: seq<Byte>, was: seq<Byte>, now: seq<Byte>, pos: nat, a: seq<Byte>, b: seq<Byte>)
    requires Filled(first, was, pos, a) && Filled(was, now, pos + |a|, b)
    ensures Filled(first, now, pos, a + b)
  {
    forall k: nat | k < |now|
      ensures now[k] == if pos <= k < pos + |a + b| then (a + b)[k - pos] else first[k]
    {
      assert k < pos + |a| ==> now[k] == was[k];
    }
  }

  lemma ReadOn(f: Source, offset: nat, total: nat, cnt: nat, first: seq<Byte>, was: seq<Byte>, now: seq<Byte>, pos: nat)
    requires Shaped(f) && Filled(first, was, pos, Slice(f, offset, total))
    requires Filled(was, now, pos + total, Slice(f, offset + total, cnt))
    ensures Filled(first, now, pos, Slice(f, offset, total + cnt))
  {
    FilledTwice(first, was, now, pos, Slice(f, offset, total), Slice(f, offset + total, cnt));
    SliceJoin(f, offset, total, cnt);
  }

  /** The library's memcpy. */
  method Copy(temp: array<Byte>, from: nat, n: nat, buffer: array<Byte>, pos: nat)
    requires temp != buffer && from + n <= temp.Length && pos + n <= buffer.Length
    modifies buffer
    ensures Filled(old(buffer[..]), buffer[..], pos, temp[from..from + n])
  {
    forall k | 0 <= k < n { buffer[pos + k] := temp[from + k]; }
  }

  /** Block `index`: a sector of the disk, or the disk block that the file's
      map names, read through the disk's own reader. */
  method ReadBlock(f: Source, index: nat, buffer: array<Byte>, pos: nat)
    requires Sound(f) && index < Blocks(f) && pos + f.Block() <= buffer.Length
    modifies buffer
    ensures Filled(old(buffer[..]), buffer[..], pos, WholeBlock(f, index))
    decreases f.Layer(), 0
  {
    if f.Ide? {
      forall k: nat | k < SECTOR ensures WholeBlock(f, index)[k] == f.at(index * SECTOR + k) {
        BytesAt(f.at, index * SECTOR, SECTOR, k);
      }
      forall k | 0 <= k < SECTOR { buffer[pos + k] := f.at(index * SECTOR + k); }
    } else {
      ReadMapped(f, index, buffer, pos);
    }
  }

  /** The case of a file. */
  method ReadMapped(f: Source, index: nat, buffer: array<Byte>, pos: nat)
    requires f.Inode? && Sound(f) && index < Blocks(f) && pos + f.blockSize <= buffer.Length
    modifies buffer
    ensures Filled(old(buffer[..]), buffer[..], pos, WholeBlock(f, index))
    decreases f.Layer(), -1
  {
    var blockIndex := if index < DIRECT then f.direct[index] else 0;
    if index >= DIRECT {
      PointerInBlock(f, index);
      blockIndex := ReadWord(Ide(f.at), (Product(f.indirect, f.blockSize) + (index - DIRECT) * 4) % WORD);
    }
    assert blockIndex == BlockOf(f, index);
    BlockOnDisk(f, index, blockIndex);
    var cnt := ReadAll(Ide(f.at), Product(blockIndex, f.blockSize) % WORD, f.blockSize, buffer, pos);
    assert cnt == f.blockSize;
  }

  /** Up to `desired` bytes from `offset` on, all from one block. */
  method Read(f: Source, offset: nat, desired: nat, buffer: array<Byte>, pos: nat) returns (cnt: int)
    requires Sound(f) && offset < WORD && desired < WORD && pos + desired <= buffer.Length
    modifies buffer
    ensures offset > f.Size() ==> cnt == -1 && buffer[..] == old(buffer[..])
    ensures offset == f.Size() ==> cnt == 0 && buffer[..] == old(buffer[..])
    ensures offset < f.Size() ==>
              cnt == Least(Least(desired, f.Size() - offset), f.Block() - Split(offset, f.Block()).1)
    ensures offset < f.Size() && desired > 0 ==> 0 < cnt <= desired && offset + cnt <= f.Size()
    ensures offset < f.Size() && desired > 0 ==> Filled(old(buffer[..]), buffer[..], pos, Slice(f, offset, cnt))
    decreases f.Layer(), 2
  {
    var sz := f.Size();
    if offset > sz { return -1; }
    if offset == sz { return 0; }
    var n := Least(desired, sz - offset);
    var blockSize := f.Block();
    var (blockNumber, offsetInBlock) := DivMod(offset, blockSize);
    var actual := Least(n, blockSize - offsetInBlock);
    OneBlock(f, offset, n, blockNumber, offsetInBlock, actual);
    ReadPart(f, blockNumber, offsetInBlock, actual, buffer, pos);
    cnt := actual;
  }

  /** `actual` bytes of one block: in place if that is all of it, and through a
      block of its own otherwise. */
  method ReadPart(f: Source, blockNumber: nat, offsetInBlock: nat, actual: nat, buffer: array<Byte>, pos: nat)
    requires Sound(f) && blockNumber < Blocks(f) && offsetInBlock + actual <= f.Block() && pos + actual <= buffer.Length
    modifies buffer
    ensures Filled(old(buffer[..]), buffer[..], pos, WholeBlock(f, blockNumber)[offsetInBlock..offsetInBlock + actual])
    decreases f.Layer(), 1
  {
    var blockSize := f.Block();
    if actual == blockSize {
      ReadBlock(f, blockNumber, buffer, pos);
      assert WholeBlock(f, blockNumber)[0..actual] == WholeBlock(f, blockNumber);
    } else {
      var temp := new Byte[blockSize](i => 0);
      ReadBlock(f, blockNumber, temp, 0);
      assert temp[..] == WholeBlock(f, blockNumber);
      Copy(temp, offsetInBlock, actual, buffer, pos);
    }
  }

  /** Exactly the bytes from `offset` to the lesser of `offset + n` and the end. */
  method ReadAll(f: Source, offset: nat, n: nat, buffer: array<Byte>, pos: nat) returns (total: int)
    requires Sound(f) && offset < WORD && n < WORD && pos + n <= buffer.Length
    modifies buffer
    ensures total == -1 <==> n > 0 && offset > f.Size()
    ensures total == -1 ==> buffer[..] == old(buffer[..])
    ensures total != -1 ==> total == if n == 0 then 0 else if n < f.Size() - offset then n else f.Size() - offset
    ensures total != -1 ==> Filled(old(buffer[..]), buffer[..], pos, Slice(f, offset, total))
    decreases f.Layer(), 3
  {
    total := 0;
    var o, left, p := offset, n, pos;
    while left > 0
      invariant 0 <= total <= n && total + left == n && o == offset + total && p == pos + total
      invariant total > 0 ==> o <= f.Size()
      invariant Filled(old(buffer[..]), buffer[..], pos, Slice(f, offset, total))
      decreases left
    {
      ghost var was := buffer[..];
      var cnt := Read(f, o, left, buffer, p);
      if cnt < 0 { return cnt; }
      if cnt == 0 { return total; }
      ReadOn(f, offset, total, cnt, old(buffer[..]), was, buffer[..], pos);
      total := total + cnt;
      o := o + cnt;
      left := left - cnt;
      p := p + cnt;
    }
  }

  /** A 32-bit value. */
  method ReadWord(f: Source, offset: nat) returns (w: nat)
    requires Sound(f) && offset + 4 <= f.Size()
    ensures w == Compose(Content(f, offset), Content(f, offset + 1), Content(f, offset + 2), Content(f, offset + 3))
    decreases f.Layer(), 4
  {
    var b := new Byte[4](i => 0);
    var cnt := ReadAll(f, offset, 4, b, 0);
    assert cnt == 4;
    assert b[..] == Slice(f, offset, 4);
    SliceAt(f, offset, 4, 0);
    SliceAt(f, offset, 4, 1);
    SliceAt(f, offset, 4, 2);
    SliceAt(f, offset, 4, 3);
    assert b[0] == b[..][0] && b[1] == b[..][1] && b[2] == b[..][2] && b[3] == b[..][3];
    w := Compose(b[0], b[1], b[2], b[3]);
  }
}
