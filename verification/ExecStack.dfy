/** The stack that exec builds for a new program: its strings, the table of
    pointers to them, the address of the table, and the count. */
module ExecStack {
  import opened WordBytes
  import opened CStrings

  const TOP := 0xefff_e000

  // ---------------------------------------------------------------------
  // The stack as bytes: the last one is just below TOP
  // ---------------------------------------------------------------------

  /** The address of the first byte. */
  function Low(m: seq<Byte>): int {
    TOP - |m|
  }

  predicate Holds(m: seq<Byte>, a: int, n: nat) {
    Low(m) <= a && a + n <= TOP
  }

  function ByteAtAddress(m: seq<Byte>, a: int): Byte
    requires Holds(m, a, 1)
  {
    m[a - Low(m)]
  }

  function WordAtAddress(m: seq<Byte>, a: int): nat
    requires Holds(m, a, 4)
  {
    Compose(ByteAtAddress(m, a), ByteAtAddress(m, a + 1), ByteAtAddress(m, a + 2), ByteAtAddress(m, a + 3))
  }

  /** At `a` there are the bytes of `s`, and then a zero. */
  ghost predicate StringAt(m: seq<Byte>, a: int, s: seq<Byte>) {
    && Holds(m, a, |s| + 1) && ByteAtAddress(m, a + |s|) == 0
    && forall k: nat {:trigger s[k]} | k < |s| :: ByteAtAddress(m, a + k) == s[k]
  }

  /** From `from` on, nothing changed. */
  ghost predicate KeptFrom(m: seq<Byte>, m': seq<Byte>, from: int) {
    |m'| == |m| && forall a: int {:trigger ByteAtAddress(m', a)} | from <= a && Holds(m, a, 1) ::
      ByteAtAddress(m', a) == ByteAtAddress(m, a)
  }

  /** Below `to`, nothing changed. */
  ghost predicate KeptBelow(m: seq<Byte>, m': seq<Byte>, to: int) {
    |m'| == |m| && forall a: int {:trigger ByteAtAddress(m', a)} | a < to && Holds(m, a, 1) ::
      ByteAtAddress(m', a) == ByteAtAddress(m, a)
  }

  lemma StringStays(m: seq<Byte>, m': seq<Byte>, from: int, a: int, s: seq<Byte>)
    requires KeptFrom(m, m', from) && from <= a && StringAt(m, a, s)
    ensures StringAt(m', a, s)
  {
    forall k: nat | k < |s| ensures ByteAtAddress(m', a + k) == s[k] { assert ByteAtAddress(m, a + k) == s[k]; }
  }

  lemma WordStays(m: seq<Byte>, m': seq<Byte>, from: int, a: int)
    requires KeptFrom(m, m', from) && from <= a && Holds(m, a, 4)
    ensures WordAtAddress(m', a) == WordAtAddress(m, a)
  {
  }

  // ---------------------------------------------------------------------
  // Sizes
  // ---------------------------------------------------------------------

  /** Words for a string with its terminating zero, and at least one byte more. */
  function PaddedWords(s: seq<Byte>): (n: nat)
    ensures |s| + 2 <= 4 * n <= |s| + 5
  {
    (|s| + 1) / 4 + 1
  }

  /** Words for the strings from number `i` on. */
  function Depth(argv: seq<seq<Byte>>, i: nat): nat
    requires i <= |argv|
    decreases |argv| - i
  {
    if i == |argv| then 0 else PaddedWords(Chop(argv[i])) + Depth(argv, i + 1)
  }

  /** Where string `i` goes. */
  function Address(argv: seq<seq<Byte>>, i: nat): int
    requires i <= |argv|
  {
    TOP - 4 * Depth(argv, i)
  }

  /** Bytes for everything. */
  function Needed(argv: seq<seq<Byte>>): nat {
    4 * Depth(argv, 0) + 4 + 4 * |argv| + 8
  }

  /** Each argument is a string, with as much memory behind it as is copied. */
  ghost predicate Arguments(argv: seq<seq<Byte>>) {
    forall i: nat {:trigger argv[i]} | i < |argv| :: 0 in argv[i] && 4 * PaddedWords(Chop(argv[i])) <= |argv[i]|
  }

  // ---------------------------------------------------------------------
  // What a program finds
  // ---------------------------------------------------------------------

  ghost predicate ArgumentAt(m: seq<Byte>, table: int, argv: seq<seq<Byte>>, i: nat)
    requires i < |argv|
  {
    && Holds(m, table + 4 * i, 4)
    && var a := WordAtAddress(m, table + 4 * i);
    && StringAt(m, a, Chop(argv[i]))
    && table + 4 * |argv| + 4 <= a && a == Address(argv, i)
  }

  /** Count, table and strings as the program's entry expects them at `sp`. */
  ghost predicate Readable(m: seq<Byte>, sp: int, argv: seq<seq<Byte>>) {
    && Holds(m, sp, 12 + 4 * |argv|)
    && WordAtAddress(m, sp) == |argv| && WordAtAddress(m, sp + 4) == sp + 8
    && WordAtAddress(m, sp + 8 + 4 * |argv|) == 0
    && forall i: nat {:trigger ArgumentAt(m, sp + 8, argv, i)} | i < |argv| :: ArgumentAt(m, sp + 8, argv, i)
  }

  /** Every string starts on a word. */
  lemma AddressAligned(argv: seq<seq<Byte>>, i: nat)
    requires i <= |argv|
    ensures Address(argv, i) % 4 == 0
  {
    assert TOP == 4 * (TOP / 4);
  }

  /** And so does the stack pointer. */
  lemma StackAligned(argv: seq<seq<Byte>>)
    ensures (TOP - Needed(argv)) % 4 == 0
  {
    AddressAligned(argv, 0);
  }

  /** The regions of different strings do not meet. */
  lemma {:induction false} StringsApart(argv: seq<seq<Byte>>, i: nat, j: nat)
    requires i < j < |argv|
    ensures Address(argv, i) + |Chop(argv[i])| + 1 < Address(argv, j)
    decreases j
  {
    if i < j - 1 { StringsApart(argv, i, j - 1); }
  }

  lemma StoredWord(m: seq<Byte>, m': seq<Byte>, a: int, b0: Byte, b1: Byte, b2: Byte, b3: Byte)
    requires Holds(m, a, 4)
    requires m' == m[a - Low(m) := b0][a - Low(m) + 1 := b1][a - Low(m) + 2 := b2][a - Low(m) + 3 := b3]
    ensures |m'| == |m| && WordAtAddress(m', a) == Compose(b0, b1, b2, b3) && KeptFrom(m, m', a + 4) &&
            KeptBelow(m, m', a)
  {
  }

  lemma Halves(w: nat)
    ensures w / 0x1_0000 == w / 0x100 / 0x100
  {
    var q := w / 0x100;
    assert w == 0x1_0000 * (q / 0x100) + (0x100 * (q % 0x100) + w % 0x100);
  }

  lemma Quarters(w: nat)
    ensures w / 0x100_0000 == w / 0x1_0000 / 0x100
  {
    var q := w / 0x1_0000;
    assert w == 0x100_0000 * (q / 0x100) + (0x1_0000 * (q % 0x100) + w % 0x1_0000);
  }

  lemma LowBytes(w: nat)
    requires w < WORD
    ensures ByteOf(w, 0) == w % 0x100 && ByteOf(w, 1) == w / 0x100 % 0x100 && ByteOf(w, 2) == w / 0x1_0000 % 0x100
  {
    assert w % WORD == w;
  }

  lemma HighByte(w: nat)
    requires w < WORD
    ensures ByteOf(w, 3) == w / 0x100_0000
  {
    var h := w / 0x100_0000;
    assert w % WORD == w;
    assert h < 0x100;
    assert h % 0x100 == h;
  }

  lemma BytesMakeWord(w: nat)
    requires w < WORD
    ensures Compose(ByteOf(w, 0), ByteOf(w, 1), ByteOf(w, 2), ByteOf(w, 3)) == w
  {
    LowBytes(w);
    HighByte(w);
    Halves(w);
    Quarters(w);
    var q1, q2, q3 := w / 0x100, w / 0x1_0000, w / 0x100_0000;
    assert w == 0x100 * q1 + w % 0x100;
    assert q1 == 0x100 * q2 + q1 % 0x100;
    assert q2 == 0x100 * q3 + q2 % 0x100;
  }

  // ---------------------------------------------------------------------
  // Building it
  // ---------------------------------------------------------------------

  /** Strings from number `i` on are in place. */
  ghost predicate StringsFrom(m: seq<Byte>, argv: seq<seq<Byte>>, i: nat)
    requires i <= |argv|
  {
    forall j: nat {:trigger StringAt(m, Address(argv, j), Chop(argv[j]))} | i <= j < |argv| ::
      StringAt(m, Address(argv, j), Chop(argv[j]))
  }

  ghost predicate PointerAt(m: seq<Byte>, table: int, argv: seq<seq<Byte>>, i: nat)
    requires i < |argv|
  {
    Holds(m, table + 4 * i, 4) && WordAtAddress(m, table + 4 * i) == Address(argv, i)
  }

  /** Pointers from number `i` on are in the table, and the zero behind them. */
  ghost predicate PointersFrom(m: seq<Byte>, table: int, argv: seq<seq<Byte>>, i: nat)
    requires i <= |argv|
  {
    && Holds(m, table + 4 * |argv|, 4) && WordAtAddress(m, table + 4 * |argv|) == 0
    && forall j: nat {:trigger PointerAt(m, table, argv, j)} | i <= j < |argv| :: PointerAt(m, table, argv, j)
  }

  lemma PointersStay(m: seq<Byte>, m': seq<Byte>, table: int, argv: seq<seq<Byte>>, i: nat)
    requires i < |argv| && PointersFrom(m, table, argv, i + 1) && KeptFrom(m, m', table + 4 * i + 4) &&
             PointerAt(m', table, argv, i)
    ensures PointersFrom(m', table, argv, i)
  {
    WordStays(m, m', table + 4 * i + 4, table + 4 * |argv|);
    forall j: nat | i <= j < |argv| ensures PointerAt(m', table, argv, j) {
      if j > i {
        assert PointerAt(m, table, argv, j);
        WordStays(m, m', table + 4 * i + 4, table + 4 * j);
      }
    }
  }

  lemma {:induction false} DepthWithin(argv: seq<seq<Byte>>, i: nat)
    requires i <= |argv|
    ensures Depth(argv, i) <= Depth(argv, 0)
    decreases i
  {
    if i > 0 { DepthWithin(argv, i - 1); }
  }

  /** Writing below the strings keeps them. */
  lemma StringsStay(m: seq<Byte>, m': seq<Byte>, argv: seq<seq<Byte>>, i: nat)
    requires i <= |argv| && StringsFrom(m, argv, i) && KeptFrom(m, m', Address(argv, i))
    ensures StringsFrom(m', argv, i)
  {
    forall j: nat | i <= j < |argv| ensures StringAt(m', Address(argv, j), Chop(argv[j])) {
      AddressesRise(argv, i, j);
      StringStays(m, m', Address(argv, i), Address(argv, j), Chop(argv[j]));
    }
  }

  /** String `i` went below the others. */
  lemma StringsNext(first: seq<Byte>, m: seq<Byte>, m': seq<Byte>, argv: seq<seq<Byte>>, i: nat)
    requires i < |argv| && StringsFrom(m, argv, i + 1) && KeptBelow(first, m, Address(argv, i + 1))
    requires StringAt(m', Address(argv, i), Chop(argv[i]))
    requires KeptFrom(m, m', Address(argv, i + 1)) && KeptBelow(m, m', Address(argv, i))
    ensures StringsFrom(m', argv, i) && KeptBelow(first, m', Address(argv, i))
  {
    StringsStay(m, m', argv, i + 1);
    forall a: int | a < Address(argv, i) && Holds(first, a, 1) ensures ByteAtAddress(m', a) == ByteAtAddress(first, a) {
      assert ByteAtAddress(m, a) == ByteAtAddress(first, a);
    }
  }

  lemma {:induction false} AddressesRise(argv: seq<seq<Byte>>, i: nat, j: nat)
    requires i <= j <= |argv|
    ensures Address(argv, i) <= Address(argv, j)
    decreases j
  {
    if i < j { AddressesRise(argv, i, j - 1); }
  }

  class Stack {
    const bytes: array<Byte>

    constructor (bytes: array<Byte>)
      requires bytes.Length <= TOP
      ensures this.bytes == bytes
    {
      this.bytes := bytes;
    }

    method StoreWord(a: int, w: nat)
      requires bytes.Length <= TOP && Holds(bytes[..], a, 4) && w < WORD
      modifies bytes
      ensures WordAtAddress(bytes[..], a) == w
      ensures KeptFrom(old(bytes[..]), bytes[..], a + 4) && KeptBelow(old(bytes[..]), bytes[..], a)
    {
      ghost var m := bytes[..];
      var at := a - (TOP - bytes.Length);
      bytes[at] := ByteOf(w, 0);
      bytes[at + 1] := ByteOf(w, 1);
      bytes[at + 2] := ByteOf(w, 2);
      bytes[at + 3] := ByteOf(w, 3);
      StoredWord(m, bytes[..], a, ByteOf(w, 0), ByteOf(w, 1), ByteOf(w, 2), ByteOf(w, 3));
      BytesMakeWord(w);
    }

    /** Copy the first `n` bytes behind an argument pointer. */
    method StoreBytes(a: int, s: seq<Byte>, n: nat)
      requires bytes.Length <= TOP && Holds(bytes[..], a, n) && n <= |s| && 0 in s && |Chop(s)| < n
      modifies bytes
      ensures StringAt(bytes[..], a, Chop(s))
      ensures KeptFrom(old(bytes[..]), bytes[..], a + n) && KeptBelow(old(bytes[..]), bytes[..], a)
    {
      ghost var m := bytes[..];
      var at := a - (TOP - bytes.Length);
      forall k | 0 <= k < n { bytes[at + k] := s[k]; }
      ChopIs(s);
      forall k: nat | k < |Chop(s)| ensures ByteAtAddress(bytes[..], a + k) == Chop(s)[k] {}
    }

    /** A string's length with its zero, made up to whole words by one to four bytes. */
    method PaddedSize(s: seq<Byte>) returns (size: nat)
      requires 0 in s
      ensures size == 4 * PaddedWords(Chop(s))
    {
      var len := StrLen(s);
      size := len + 1;
      size := size + (4 - size % 4);
    }

    /** One string, just below the ones after it. */
    method PushString(argv: seq<seq<Byte>>, i: nat, above: int, ghost first: seq<Byte>) returns (sp: int)
      requires bytes.Length <= TOP && Arguments(argv) && Needed(argv) <= bytes.Length && i < |argv| &&
               above == Address(argv, i + 1)
      requires StringsFrom(bytes[..], argv, i + 1) && KeptBelow(first, bytes[..], Address(argv, i + 1))
      modifies bytes
      ensures sp == Address(argv, i) && StringsFrom(bytes[..], argv, i) && KeptBelow(first, bytes[..], sp)
    {
      ghost var m := bytes[..];
      var size := PaddedSize(argv[i]);
      sp := above - size;
      DepthWithin(argv, i);
      StoreBytes(sp, argv[i], size);
      StringsNext(first, m, bytes[..], argv, i);
    }

    /** Strings from the last to the first, each at the next lower address. */
    method PushStrings(argv: seq<seq<Byte>>) returns (sp: int, addresses: array<int>)
      requires bytes.Length <= TOP && Arguments(argv) && Needed(argv) <= bytes.Length
      modifies bytes
      ensures fresh(addresses) && addresses.Length == |argv| && sp == Address(argv, 0)
      ensures forall i: nat | i < |argv| :: addresses[i] == Address(argv, i)
      ensures StringsFrom(bytes[..], argv, 0) && KeptBelow(old(bytes[..]), bytes[..], sp)
    {
      ghost var first := bytes[..];
      sp := TOP;
      addresses := new int[|argv|];
      var num: nat := |argv|;
      while num > 0
        invariant num <= |argv| && sp == Address(argv, num) && addresses.Length == |argv| && fresh(addresses)
        invariant forall i: nat | num <= i < |argv| :: addresses[i] == Address(argv, i)
        invariant StringsFrom(bytes[..], argv, num) && KeptBelow(first, bytes[..], sp)
      {
        sp := PushString(argv, num - 1, sp, first);
        addresses[num - 1] := sp;
        num := num - 1;
      }
    }

    /** The zero word, then the pointers from the last to the first. */
    method PushTable(argv: seq<seq<Byte>>, top: int, addresses: array<int>) returns (sp: int)
      requires bytes.Length <= TOP && Arguments(argv) && Needed(argv) <= bytes.Length && top == Address(argv, 0)
      requires addresses.Length == |argv| && (forall i: nat | i < |argv| :: addresses[i] == Address(argv, i)) &&
               StringsFrom(bytes[..], argv, 0)
      modifies bytes
      ensures sp == top - 4 - 4 * |argv| && StringsFrom(bytes[..], argv, 0) && KeptBelow(old(bytes[..]), bytes[..], sp)
      ensures PointersFrom(bytes[..], sp, argv, 0)
    {
      ghost var first := bytes[..];
      ghost var table := top - 4 - 4 * |argv|;
      sp := top - 4;
      StoreWord(sp, 0);
      StringsStay(first, bytes[..], argv, 0);
      var i := |argv| - 1;
      while i >= 0
        invariant -1 <= i < |argv| && sp == table + 4 * (i + 1)
        invariant StringsFrom(bytes[..], argv, 0) && KeptBelow(first, bytes[..], sp)
        invariant PointersFrom(bytes[..], table, argv, i + 1)
      {
        sp := sp - 4;
        ghost var m := bytes[..];
        DepthWithin(argv, i);
        StoreWord(sp, addresses[i]);
        StringsStay(m, bytes[..], argv, 0);
        PointersStay(m, bytes[..], table, argv, i);
        i := i - 1;
      }
    }

    /** The whole stack; the program starts at the result. */
    method Build(argv: seq<seq<Byte>>) returns (sp: int)
      requires bytes.Length <= TOP && Arguments(argv) && Needed(argv) <= bytes.Length
      modifies bytes
      ensures sp == TOP - Needed(argv) && Readable(bytes[..], sp, argv)
      ensures KeptBelow(old(bytes[..]), bytes[..], sp)
    {
      ghost var first := bytes[..];
      var addresses;
      sp, addresses := PushStrings(argv);
      ghost var m0 := bytes[..];
      sp := PushTable(argv, sp, addresses);
      BelowTwice(first, m0, bytes[..], sp);
      sp := PushHead(argv, sp, first);
    }

    /** The address of the table, and the count. */
    method PushHead(argv: seq<seq<Byte>>, table: int, ghost first: seq<Byte>) returns (sp: int)
      requires bytes.Length <= TOP && Arguments(argv) && Needed(argv) <= bytes.Length && table == TOP - Needed(argv) + 8
      requires StringsFrom(bytes[..], argv, 0) && PointersFrom(bytes[..], table, argv, 0) &&
               KeptBelow(first, bytes[..], table)
      modifies bytes
      ensures sp == TOP - Needed(argv) && Readable(bytes[..], sp, argv) && KeptBelow(first, bytes[..], sp)
    {
      ghost var m := bytes[..];
      sp := table - 4;
      StoreWord(sp, sp + 4);
      ghost var m1 := bytes[..];
      BelowTwice(first, m, m1, sp);
      sp := sp - 4;
      StoreWord(sp, |argv|);
      BelowTwice(first, m1, bytes[..], sp);
      BuiltReadable(m, m1, bytes[..], table, argv);
    }
  }

  lemma BelowTwice(m: seq<Byte>, m1: seq<Byte>, m2: seq<Byte>, to: int)
    requires exists to1: int :: to <= to1 && KeptBelow(m, m1, to1)
    requires KeptBelow(m1, m2, to)
    ensures KeptBelow(m, m2, to)
  {
    forall a: int | a < to && Holds(m, a, 1) ensures ByteAtAddress(m2, a) == ByteAtAddress(m, a) {
      assert ByteAtAddress(m1, a) == ByteAtAddress(m, a);
    }
  }

  lemma BuiltReadable(m: seq<Byte>, m1: seq<Byte>, m2: seq<Byte>, table: int, argv: seq<seq<Byte>>)
    requires Arguments(argv) && |m| <= TOP && Needed(argv) <= |m| && table == Address(argv, 0) - 4 - 4 * |argv|
    requires StringsFrom(m, argv, 0) && PointersFrom(m, table, argv, 0)
    requires KeptFrom(m, m1, table) && WordAtAddress(m1, table - 4) == table
    requires KeptFrom(m1, m2, table - 4) && WordAtAddress(m2, table - 8) == |argv|
    ensures Readable(m2, table - 8, argv)
  {
    WordStays(m1, m2, table - 4, table - 4);
    KeptTwice(m, m1, m2, table);
    WordStays(m, m2, table, table + 4 * |argv|);
    forall i: nat | i < |argv| ensures ArgumentAt(m2, table, argv, i) {
      ArgumentReady(m, m2, table, argv, i);
    }
  }

  lemma ArgumentReady(m: seq<Byte>, m2: seq<Byte>, table: int, argv: seq<seq<Byte>>, i: nat)
    requires i < |argv| && |m| <= TOP && table == Address(argv, 0) - 4 - 4 * |argv|
    requires StringsFrom(m, argv, 0) && PointersFrom(m, table, argv, 0) && KeptFrom(m, m2, table)
    ensures ArgumentAt(m2, table, argv, i)
  {
    assert PointerAt(m, table, argv, i);
    WordStays(m, m2, table, table + 4 * i);
    AddressesRise(argv, 0, i);
    StringStays(m, m2, table, Address(argv, i), Chop(argv[i]));
  }

  lemma KeptTwice(m: seq<Byte>, m1: seq<Byte>, m2: seq<Byte>, from: int)
    requires KeptFrom(m, m1, from) && KeptFrom(m1, m2, from - 4)
    ensures KeptFrom(m, m2, from)
  {
    forall a: int | from <= a && Holds(m, a, 1) ensures ByteAtAddress(m2, a) == ByteAtAddress(m, a) {
      assert ByteAtAddress(m1, a) == ByteAtAddress(m, a);
    }
  }
}
