/** The byte pipe: a ring of 1024 bytes with two counting semaphores, each
    operation under a lock of its own. */
module Pipes {
  import opened Queues
  import opened Semaphores
  import opened BoundedBuffers

  const SIZE := 1024

  class Pipe {
    const buffer: array<char>
    var readIndex: nat
    var writeIndex: nat
    var count: nat
    const readSem: Semaphore
    const writeSem: Semaphore
    ghost var written: seq<char>
    ghost var taken: seq<char>

    /** Holds whenever the lock is free, and before each turn of the loops. */
    ghost predicate Valid()
      reads this, buffer, readSem, writeSem, readSem.waiting, writeSem.waiting
      reads readSem.waiting.line.joined, writeSem.waiting.line.joined
    {
      && buffer.Length == SIZE && readIndex < SIZE && count <= SIZE
      && writeIndex == (readIndex + count) % SIZE
      && readSem != writeSem && readSem.waiting != writeSem.waiting
      && readSem.Valid() && readSem.View() == Sem(count, Line([], 0))
      && writeSem.Valid() && writeSem.View() == Sem(SIZE - count, Line([], 0))
      && written == taken + Contents(buffer[..], readIndex, count)
    }

    ghost function Repr(): set<object>
      reads this
    {
      {this, buffer, readSem, writeSem, readSem.waiting, writeSem.waiting}
    }

    constructor ()
      ensures Valid() && written == taken == [] && fresh(Repr())
    {
      buffer := new char[SIZE];
      readIndex, writeIndex, count := 0, 0, 0;
      written, taken := [], [];
      readSem := new Semaphore(0);
      writeSem := new Semaphore(SIZE);
    }

    /** One byte in, with one token from the free bytes to the stored ones. The
        token is there: taking it never blocks, which would be for ever, as the
        lock is held. */
    method WriteByte(b: char)
      requires Valid() && count < SIZE
      modifies Repr()
      ensures Valid() && taken == old(taken) && written == old(written) + [b] && count == old(count) + 1
    {
      ghost var was := buffer[..];
      var down := writeSem.TryDown();
      assert down;
      buffer[writeIndex] := b;
      Stored(was, readIndex, count, writeIndex, b, buffer[..]);
      count := count + 1;
      writeIndex := (writeIndex + 1) % SIZE;
      var next := readSem.Up();
      written := written + [b];
    }

    /** One byte out. */
    method ReadByte() returns (b: char)
      requires Valid() && count > 0
      modifies Repr()
      ensures Valid() && written == old(written) && taken == old(taken) + [b] && count == old(count) - 1
    {
      GetContents(buffer[..], readIndex, count);
      MovedIndex(readIndex, count);
      var down := readSem.TryDown();
      assert down;
      b := buffer[readIndex];
      count := count - 1;
      readIndex := (readIndex + 1) % SIZE;
      var next := writeSem.Up();
      taken := taken + [b];
    }

    /** Appends as much of the data as there is room for. */
    method Write(data: seq<char>, size: int) returns (bytesWritten: nat)
      requires Valid() && size <= |data|
      modifies Repr()
      ensures Valid() && taken == old(taken)
      ensures bytesWritten == if size < 0 then 0 else if size < SIZE - old(count) then size else SIZE - old(count)
      ensures written == old(written) + data[..bytesWritten] && count == old(count) + bytesWritten
    {
      bytesWritten := 0;
      while bytesWritten < size && count < SIZE
        invariant Valid() && bytesWritten <= |data| && (bytesWritten <= size || bytesWritten == 0) &&
                  taken == old(taken)
        invariant written == old(written) + data[..bytesWritten] && count == old(count) + bytesWritten
        decreases size - bytesWritten
      {
        WriteByte(data[bytesWritten]);
        bytesWritten := bytesWritten + 1;
      }
    }

    /** Removes as many bytes as there are and fit. */
    method Read(data: array<char>, size: int) returns (bytesRead: nat)
      requires Valid() && size <= data.Length && data != buffer
      modifies Repr(), data
      ensures Valid() && written == old(written)
      ensures bytesRead == if size < 0 then 0 else if size < old(count) then size else old(count)
      ensures bytesRead <= data.Length && taken == old(taken) + data[..bytesRead] && count == old(count) - bytesRead
      ensures data[bytesRead..] == old(data[..])[bytesRead..]
    {
      bytesRead := 0;
      while bytesRead < size && count > 0
        invariant Valid() && bytesRead <= data.Length && (bytesRead <= size || bytesRead == 0) &&
                  written == old(written)
        invariant taken == old(taken) + data[..bytesRead] && count == old(count) - bytesRead
        invariant data[bytesRead..] == old(data[..])[bytesRead..]
        decreases size - bytesRead
      {
        data[bytesRead] := ReadByte();
        bytesRead := bytesRead + 1;
      }
    }
  }

  /** A byte stored at the write index is the last of the contents. */
  lemma Stored(was: seq<char>, head: nat, n: nat, w: nat, b: char, now: seq<char>)
    requires |was| == SIZE && head < SIZE && n < SIZE && w == (head + n) % SIZE && now == was[w := b]
    ensures Contents(now, head, n + 1) == Contents(was, head, n) + [b]
    ensures (w + 1) % SIZE == (head + n + 1) % SIZE
  {
    PutContents(was, head, n, b);
  }

  lemma MovedIndex(head: nat, n: nat)
    requires head < SIZE && 0 < n <= SIZE
    ensures ((head + 1) % SIZE + (n - 1)) % SIZE == (head + n) % SIZE
  {
  }
}
