/** The ring inside the bounded buffer. */
module BoundedBuffers {
  const WORD := 0x1_0000_0000
  const HALF := 0x8000_0000

  /** The slot where the next item goes, in 32-bit arithmetic. */
  function Slot(head: nat, n: nat, size: nat): nat
    requires size > 0
  {
    ((head + n) % WORD) % size
  }

  /** The items from `head` on, around the end. */
  ghost function Contents<T>(data: seq<T>, head: nat, n: nat): (c: seq<T>)
    requires 0 < |data|
    ensures |c| == n
  {
    seq(n, k requires 0 <= k < n => data[(head + k) % |data|])
  }

  lemma Wrap(a: nat, size: nat)
    requires a < 2 * size
    ensures a % size == if a < size then a else a - size
  {
    assert a < size || a == size + (a - size);
  }

  /** The word arithmetic picks the slot after the last item for every fill of
      the buffer exactly when the size is at most 2^31. */
  lemma SlotExactIff(size: nat)
    requires 0 < size < WORD
    ensures
      (forall head: nat, n: nat {:trigger Slot(head, n, size)} | head < size && n < size ::
         Slot(head, n, size) == (head + n) % size) <==> size <= HALF
  {
    if size <= HALF {
      forall head: nat, n: nat | head < size && n < size ensures Slot(head, n, size) == (head + n) % size {
      }
    } else {
      SlotWrong(size);
    }
  }

  /** In a larger one the last item of a ring whose head is at its end goes astray. */
  lemma SlotWrong(size: nat)
    requires HALF < size < WORD
    ensures Slot(size - 1, size - 1, size) != (size - 1 + (size - 1)) % size
  {
    var a := size - 1 + (size - 1);
    Wrap(a, size);
    Wrap(a, WORD);
    Wrap(a - WORD, size);
  }

  lemma PutContents<T>(data: seq<T>, head: nat, n: nat, t: T)
    requires head < |data| <= HALF && n < |data|
    ensures Slot(head, n, |data|) < |data|
    ensures Contents(data[Slot(head, n, |data|) := t], head, n + 1) == Contents(data, head, n) + [t]
  {
    var s := Slot(head, n, |data|);
    var after := Contents(data[s := t], head, n + 1);
    Wrap(head + n, |data|);
    forall k: nat | k < n + 1 ensures after[k] == (Contents(data, head, n) + [t])[k] {
      Wrap(head + k, |data|);
    }
  }

  lemma GetContents<T>(data: seq<T>, head: nat, n: nat)
    requires head < |data| && 0 < n <= |data|
    ensures Contents(data, head, n) == [data[head]] + Contents(data, (head + 1) % |data|, n - 1)
  {
    var rest := Contents(data, (head + 1) % |data|, n - 1);
    Wrap(head + 1, |data|);
    Wrap(head, |data|);
    forall k: nat | k < n - 1 ensures rest[k] == Contents(data, head, n)[k + 1] {
      Wrap(head + k + 1, |data|);
      Wrap((head + 1) % |data| + k, |data|);
    }
  }

  /** What a put or a get does while it holds the lock. */
  class Ring<T(0)> {
    const data: array<T>
    var head: nat
    var n: nat

    ghost predicate Valid()
      reads this
    {
      0 < data.Length <= HALF && head < data.Length && n <= data.Length
    }

    ghost function Items(): seq<T>
      reads this, data
      requires Valid()
    {
      Contents(data[..], head, n)
    }

    constructor (size: nat)
      requires 0 < size <= HALF
      ensures Valid() && data.Length == size && Items() == [] && fresh(data)
    {
      data := new T[size];
      head, n := 0, 0;
    }

    method Put(t: T)
      requires Valid() && n < data.Length
      modifies this, data
      ensures Valid() && Items() == old(Items()) + [t]
    {
      PutContents(data[..], head, n, t);
      var slot := ((head + n) % WORD) % data.Length;
      data[slot] := t;
      assert data[..] == old(data[..])[slot := t];
      n := n + 1;
    }

    method Get() returns (out: T)
      requires Valid() && n > 0
      modifies this
      ensures Valid() && old(Items()) == [out] + Items()
    {
      GetContents(data[..], head, n);
      out := data[head];
      head := (head + 1) % data.Length;
      n := n - 1;
    }
  }
}
