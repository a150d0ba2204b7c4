/** The generator of two multiply-with-carry halves. */
module RandomNumbers {
  const WORD := 0x1_0000_0000
  const HALF := 0x1_0000
  const A_Z := 36969
  const A_W := 18000

  predicate IsFactor(a: nat) {
    a == A_Z || a == A_W
  }

  /** The modulus of a half: 65536 a - 1. */
  function Modulus(a: nat): (m: nat)
    requires IsFactor(a)
    ensures m == (if a == A_Z then 0x9068_ffff else 0x464f_ffff)
  {
    a * HALF - 1
  }

  /** One step of a half: a times the low part plus the carry above it. */
  function Advance(a: nat, s: nat): (r: nat)
    requires IsFactor(a) && s < WORD
    ensures r < WORD
  {
    a * (s % HALF) + s / HALF
  }

  /** The step back. */
  function Back(a: nat, s: nat): nat
    requires IsFactor(a)
  {
    if a == A_Z then s % A_Z * HALF + s / A_Z else s % A_W * HALF + s / A_W
  }

  /** Multiplying a step by 65536 gives the state back, modulo 65536 a - 1. */
  lemma Law(a: nat, s: nat)
    requires IsFactor(a) && s < WORD
    ensures HALF * Advance(a, s) == s + Modulus(a) * (s % HALF)
  {
    assert s == HALF * (s / HALF) + s % HALF;
  }

  /** Within 1..m-1 a step can be taken back, and stays within. */
  lemma AdvanceThenBack(a: nat, s: nat)
    requires IsFactor(a) && 0 < s < Modulus(a)
    ensures 0 < Advance(a, s) < Modulus(a) && Back(a, Advance(a, s)) == s
  {
    var lo, hi := s % HALF, s / HALF;
    assert s == HALF * hi + lo && hi < a;
    if a == A_Z {
      assert (A_Z * lo + hi) / A_Z == lo && (A_Z * lo + hi) % A_Z == hi;
    } else {
      assert (A_W * lo + hi) / A_W == lo && (A_W * lo + hi) % A_W == hi;
    }
  }

  lemma BackThenAdvance(a: nat, s: nat)
    requires IsFactor(a) && 0 < s < Modulus(a)
    ensures 0 < Back(a, s) < Modulus(a) && Advance(a, Back(a, s)) == s
  {
    if a == A_Z {
      var lo, hi := s / A_Z, s % A_Z;
      assert lo < HALF && (hi * HALF + lo) % HALF == lo && (hi * HALF + lo) / HALF == hi;
    } else {
      var lo, hi := s / A_W, s % A_W;
      assert lo < HALF && (hi * HALF + lo) % HALF == lo && (hi * HALF + lo) / HALF == hi;
    }
  }

  /** A half is stuck exactly at 0 and at its modulus. */
  lemma Stuck(a: nat, s: nat)
    requires IsFactor(a) && s < WORD
    ensures Advance(a, s) == s <==> s == 0 || s == Modulus(a)
  {
    var lo, hi := s % HALF, s / HALF;
    assert s == HALF * hi + lo;
    if a * lo + hi == s {
      assert (a - 1) * lo == (HALF - 1) * hi;
      LowPart(a, lo, hi);
    }
  }

  /** As a - 1 and 65535 have no common factor, the low part is 0 or 65535. */
  lemma LowPart(a: nat, lo: nat, hi: nat)
    requires IsFactor(a) && lo < HALF && (a - 1) * lo == (HALF - 1) * hi
    ensures lo == 0 || lo == HALF - 1
  {
    var k := if a == A_Z then -3643 * hi + 2055 * lo else 18704 * hi + -5137 * lo;
    assert lo == (HALF - 1) * k;
  }

  /** A multiple of the modulus below 2^32. */
  predicate Bad(a: nat, s: nat)
    requires IsFactor(a)
  {
    s == 0 || s == Modulus(a) || (a == A_W && (s == 0x8c9f_fffe || s == 0xd2ef_fffd))
  }

  lemma BadIsMultiple(a: nat, s: nat)
    requires IsFactor(a) && s < WORD
    ensures Bad(a, s) <==> s % Modulus(a) == 0
  {
    if a == A_Z {
      assert s % 0x9068_ffff == 0 <==> Bad(a, s);
    } else {
      assert s % 0x464f_ffff == 0 <==> Bad(a, s);
    }
  }

  /** A step keeps a bad state bad, and a good one good. */
  lemma GoodStays(a: nat, s: nat)
    requires IsFactor(a) && s < WORD
    ensures Bad(a, Advance(a, s)) <==> Bad(a, s)
  {
    Law(a, s);
    if Bad(a, Advance(a, s)) {
      var m := Modulus(a);
      var k := if Advance(a, s) == 0 then 0 else 1;
      assert Advance(a, s) == m * k;
      SmallMultiple(a, s, HALF * k - s % HALF);
    }
  }

  lemma SmallMultiple(a: nat, s: nat, j: int)
    requires IsFactor(a) && s < WORD && s == Modulus(a) * j
    ensures Bad(a, s)
  {
  }

  // ---------------------------------------------------------------------
  // The generator
  // ---------------------------------------------------------------------

  /** The low half of `z` above, and `w` added, in 32 bits. */
  function Combined(z: nat, w: nat): (r: nat)
    ensures r < WORD
  {
    (z * HALF % WORD + w) % WORD
  }

  /** The low half is that of `w`, and the high half the low half of `z` and the
      high half of `w` together. */
  lemma CombinedHalves(z: nat, w: nat)
    requires z < WORD && w < WORD
    ensures Combined(z, w) % HALF == w % HALF
    ensures Combined(z, w) / HALF == (z + w / HALF) % HALF
  {
    var lo, hi := w % HALF, w / HALF;
    var s := (z + hi) % HALF;
    assert w == HALF * hi + lo;
    ShiftedLow(z);
    assert z * HALF % WORD + w == HALF * (z % HALF + hi) + lo;
    assert (z % HALF + hi) % HALF == s;
    LowHalf(z % HALF + hi, lo);
  }

  lemma ShiftedLow(z: nat)
    ensures z * HALF % WORD == HALF * (z % HALF)
  {
    assert z == HALF * (z / HALF) + z % HALF;
    assert z * HALF == WORD * (z / HALF) + HALF * (z % HALF);
  }

  lemma LowHalf(x: nat, lo: nat)
    requires lo < HALF
    ensures (HALF * x + lo) % WORD == HALF * (x % HALF) + lo
  {
    assert x == HALF * (x / HALF) + x % HALF;
    assert HALF * x + lo == WORD * (x / HALF) + (HALF * (x % HALF) + lo);
  }

  class Random {
    var w: nat
    var z: nat

    ghost predicate Valid()
      reads this
    {
      w < WORD && z < WORD
    }

    /** The first half starts good on every seed but two, the second on every seed. */
    constructor (seed: nat)
      requires seed < WORD
      ensures Valid() && !Bad(A_Z, z)
      ensures Bad(A_W, w) <==> seed == 0x8c9f_fffe || seed == 0xd2ef_fffd
      ensures w == if seed == 0 || seed == 0x464f_ffff then seed + 1 else seed
      ensures z == var c := 0xffff_ffff - seed; if c == 0 || c == 0x9068_ffff then c + 1 else c
    {
      w := seed;
      z := WORD - 1 - seed;
      new;
      if w == 0 || w == 0x464f_ffff { w := w + 1; }
      if z == 0 || z == 0x9068_ffff { z := z + 1; }
    }

    method Next() returns (res: nat)
      requires Valid()
      modifies this
      ensures Valid() && z == Advance(A_Z, old(z)) && w == Advance(A_W, old(w))
      ensures res == Combined(z, w)
      ensures res % 0x1_0000 == w % 0x1_0000 && res / 0x1_0000 == (z + w / 0x1_0000) % 0x1_0000
      ensures (Bad(A_Z, z) <==> old(Bad(A_Z, z))) && (Bad(A_W, w) <==> old(Bad(A_W, w)))
    {
      GoodStays(A_Z, z);
      GoodStays(A_W, w);
      z := 36969 * (z % HALF) + z / HALF;
      w := 18000 * (w % HALF) + w / HALF;
      res := Combined(z, w);
      CombinedHalves(z, w);
    }
  }

  /** The state after `n` steps. */
  function Steps(a: nat, s: nat, n: nat): (r: nat)
    requires IsFactor(a) && s < WORD
    ensures r < WORD
  {
    if n == 0 then s else Advance(a, Steps(a, s, n - 1))
  }

  /** A half that starts good is never stuck, however far it runs; one that
      starts bad stands still after its first step. */
  lemma {:induction false} NeverStuck(a: nat, s: nat, n: nat)
    requires IsFactor(a) && s < WORD
    ensures Bad(a, Steps(a, s, n)) <==> Bad(a, s)
    ensures Bad(a, s) <==> s % Modulus(a) == 0
    ensures !Bad(a, s) ==> Steps(a, s, n + 1) != Steps(a, s, n)
    ensures Bad(a, s) ==> Steps(a, s, n + 2) == Steps(a, s, n + 1)
  {
    if n > 0 { NeverStuck(a, s, n - 1); } else { GoodStays(a, s); }
    BadIsMultiple(a, s);
    var t := Steps(a, s, n);
    if n > 0 { GoodStays(a, Steps(a, s, n - 1)); }
    Stuck(a, t);
    Stuck(a, Advance(a, t));
  }
}
