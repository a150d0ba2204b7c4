/** Memory as words and as bytes: the little-endian bytes of 32-bit words, and
    a copy of bytes between word-aligned places. */
module WordBytes {

  const WORD := 0x1_0000_0000

  type Byte = b: nat | b < 0x100

  /** 256 to the power `k`, for the bytes of a word. */
  function Weight(k: nat): nat
    requires k <= 4
  {
    if k == 0 then 1 else if k == 1 then 0x100 else if k == 2 then 0x1_0000 else if k == 3 then 0x100_0000 else WORD
  }

  /** The `k`-th byte in memory of a word (any integer stands for its residue). */
  function ByteOf(w: int, k: nat): nat
    requires k < 4
  {
    w % WORD / Weight(k) % 0x100
  }

  /** The byte at byte address `a`. */
  function ByteAt(w: seq<int>, a: nat): nat
    requires a / 4 < |w|
  {
    ByteOf(w[a / 4], a % 4)
  }

  /** The word with the given bytes. */
  function Compose(b0: nat, b1: nat, b2: nat, b3: nat): int {
    b0 + 0x100 * b1 + 0x1_0000 * b2 + 0x100_0000 * b3
  }

  /** `dst` with its first `r` bytes replaced by those of `src`. */
  function FirstBytes(dst: int, src: int, r: nat): int
    requires r < 4
  {
    Compose(ByteOf(if 0 < r then src else dst, 0), ByteOf(if 1 < r then src else dst, 1),
            ByteOf(if 2 < r then src else dst, 2), ByteOf(dst, 3))
  }

  lemma ComposeBytes(b0: nat, b1: nat, b2: nat, b3: nat)
    requires b0 < 0x100 && b1 < 0x100 && b2 < 0x100 && b3 < 0x100
    ensures ByteOf(Compose(b0, b1, b2, b3), 0) == b0 && ByteOf(Compose(b0, b1, b2, b3), 1) == b1
    ensures ByteOf(Compose(b0, b1, b2, b3), 2) == b2 && ByteOf(Compose(b0, b1, b2, b3), 3) == b3
  {
    var x := Compose(b0, b1, b2, b3);
    assert x % WORD == x;
    assert x / 0x100 == b1 + 0x100 * b2 + 0x1_0000 * b3;
    assert x / 0x1_0000 == b2 + 0x100 * b3;
    assert x / 0x100_0000 == b3;
  }

  /** A word is made of its bytes. */
  lemma BytesCompose(w: nat)
    requires w < WORD
    ensures Compose(ByteOf(w, 0), ByteOf(w, 1), ByteOf(w, 2), ByteOf(w, 3)) == w
  {
    assert w % WORD == w;
    Digit(w);
    Digit(w / 0x100);
    Digit(w / 0x1_0000);
    assert w / 0x100 / 0x100 == w / 0x1_0000 by { Twice(w, w / 0x1_0000); }
    assert w / 0x1_0000 / 0x100 == w / 0x100_0000 by { Thrice(w, w / 0x100_0000); }
  }

  lemma Digit(x: nat)
    ensures x == 0x100 * (x / 0x100) + x % 0x100
  {
  }

  lemma Twice(x: nat, q: nat)
    requires 0x1_0000 * q <= x < 0x1_0000 * q + 0x1_0000
    ensures x / 0x100 / 0x100 == q
  {
  }

  lemma Thrice(x: nat, q: nat)
    requires 0x100_0000 * q <= x < 0x100_0000 * q + 0x100_0000
    ensures x / 0x1_0000 / 0x100 == q
  {
  }

  lemma FirstBytesAt(dst: int, src: int, r: nat, k: nat)
    requires r < 4 && k < 4
    ensures ByteOf(FirstBytes(dst, src, r), k) == if k < r then ByteOf(src, k) else ByteOf(dst, k)
  {
    ComposeBytes(ByteOf(if 0 < r then src else dst, 0), ByteOf(if 1 < r then src else dst, 1),
                 ByteOf(if 2 < r then src else dst, 2), ByteOf(dst, 3));
  }

  /** `w'` is `w` after copying `n` bytes from word `src` to word `dst`. */
  ghost predicate Copied(w: seq<int>, w': seq<int>, dst: nat, src: nat, n: nat) {
    && |w| == |w'|
    && dst + (n + 3) / 4 <= |w| && src + (n + 3) / 4 <= |w|
    && (forall a: nat | 4 * dst <= a < 4 * dst + n :: ByteAt(w', a) == ByteAt(w, a - 4 * dst + 4 * src))
    && (forall a: nat | a / 4 < |w| && !(4 * dst <= a < 4 * dst + n) :: ByteAt(w', a) == ByteAt(w, a))
    && (forall j | 0 <= j < |w| && !(dst <= j < dst + (n + 3) / 4) :: w'[j] == w[j])
  }

  /** The `i`-th byte after word `dst` of `w'` is the `i`-th after word `src` of `w`. */
  ghost predicate SameByte(w: seq<int>, w': seq<int>, src: int, dst: int, i: nat) {
    && 0 <= src && 0 <= dst
    && (4 * dst + i) / 4 < |w'| && (4 * src + i) / 4 < |w|
    && ByteAt(w', 4 * dst + i) == ByteAt(w, 4 * src + i)
  }

  /** The first `n` bytes, or `limit` of them if that is fewer, agree. */
  ghost predicate SameBytes(w: seq<int>, w': seq<int>, src: int, dst: int, n: int, limit: int) {
    forall i: nat | i < n && i < limit :: SameByte(w, w', src, dst, i)
  }

  /** `memcpy` between word-aligned places that do not overlap: whole words,
      then the bytes of the last one. */
  method CopyBytes(words: array<int>, dst: nat, src: nat, n: nat)
    requires dst + (n + 3) / 4 <= words.Length && src + (n + 3) / 4 <= words.Length
    requires dst + (n + 3) / 4 <= src || src + (n + 3) / 4 <= dst
    modifies words
    ensures Copied(old(words[..]), words[..], dst, src, n)
  {
    ghost var w := words[..];
    var j := 0;
    while j < n / 4
      invariant 0 <= j <= n / 4
      invariant forall i | dst <= i < dst + j :: words[i] == w[i - dst + src]
      invariant forall i | 0 <= i < words.Length && !(dst <= i < dst + j) :: words[i] == w[i]
    {
      words[dst + j] := words[src + j];
      j := j + 1;
    }
    if n % 4 != 0 {
      words[dst + j] := FirstBytes(words[dst + j], words[src + j], n % 4);
    }
    WordsCopied(w, words[..], dst, src, n);
  }

  lemma WordsCopied(w: seq<int>, w': seq<int>, dst: nat, src: nat, n: nat)
    requires |w| == |w'| && dst + (n + 3) / 4 <= |w| && src + (n + 3) / 4 <= |w|
    requires forall i | dst <= i < dst + n / 4 :: w'[i] == w[i - dst + src]
    requires n % 4 != 0 ==> w'[dst + n / 4] == FirstBytes(w[dst + n / 4], w[src + n / 4], n % 4)
    requires forall j | 0 <= j < |w| && !(dst <= j < dst + (n + 3) / 4) :: w'[j] == w[j]
    ensures Copied(w, w', dst, src, n)
  {
    forall a: nat | 4 * dst <= a < 4 * dst + n ensures ByteAt(w', a) == ByteAt(w, a - 4 * dst + 4 * src) {
      CopiedByte(w, w', dst, src, n, a);
    }
    forall a: nat | a / 4 < |w| && !(4 * dst <= a < 4 * dst + n) ensures ByteAt(w', a) == ByteAt(w, a) {
      OtherByte(w, w', dst, src, n, a);
    }
  }

  lemma CopiedByte(w: seq<int>, w': seq<int>, dst: nat, src: nat, n: nat, a: nat)
    requires |w| == |w'| && dst + (n + 3) / 4 <= |w| && src + (n + 3) / 4 <= |w|
    requires forall i | dst <= i < dst + n / 4 :: w'[i] == w[i - dst + src]
    requires n % 4 != 0 ==> w'[dst + n / 4] == FirstBytes(w[dst + n / 4], w[src + n / 4], n % 4)
    requires 4 * dst <= a < 4 * dst + n
    ensures ByteAt(w', a) == ByteAt(w, a - 4 * dst + 4 * src)
  {
    var c := a - 4 * dst + 4 * src;
    assert c / 4 == a / 4 - dst + src && c % 4 == a % 4;
    if a / 4 == dst + n / 4 {
      FirstBytesAt(w[dst + n / 4], w[src + n / 4], n % 4, a % 4);
    }
  }

  lemma OtherByte(w: seq<int>, w': seq<int>, dst: nat, src: nat, n: nat, a: nat)
    requires |w| == |w'| && dst + (n + 3) / 4 <= |w| && src + (n + 3) / 4 <= |w|
    requires n % 4 != 0 ==> w'[dst + n / 4] == FirstBytes(w[dst + n / 4], w[src + n / 4], n % 4)
    requires forall j | 0 <= j < |w| && !(dst <= j < dst + (n + 3) / 4) :: w'[j] == w[j]
    requires a / 4 < |w| && !(4 * dst <= a < 4 * dst + n)
    ensures ByteAt(w', a) == ByteAt(w, a)
  {
    if a / 4 == dst + n / 4 && n % 4 != 0 {
      FirstBytesAt(w[dst + n / 4], w[src + n / 4], n % 4, a % 4);
    } else {
      assert !(dst <= a / 4 < dst + (n + 3) / 4);
    }
  }
}
