/** Strings that end at the first zero byte. */
module CStrings {
  import opened WordBytes

  /** Where the first zero from `i` on is, or the end. */
  function ZeroFrom(s: seq<Byte>, i: nat): (e: nat)
    requires i <= |s|
    ensures i <= e <= |s|
    decreases |s| - i
  {
    if i == |s| || s[i] == 0 then i else ZeroFrom(s, i + 1)
  }

  /** The bytes before the first zero. */
  function Chop(s: seq<Byte>): (r: seq<Byte>)
    ensures |r| <= |s|
  {
    s[..ZeroFrom(s, 0)]
  }

  lemma {:induction false} ZeroFromIs(s: seq<Byte>, i: nat)
    requires i <= |s|
    ensures forall k: nat | i <= k < ZeroFrom(s, i) :: s[k] != 0
    ensures ZeroFrom(s, i) < |s| ==> s[ZeroFrom(s, i)] == 0
    decreases |s| - i
  {
    if i < |s| && s[i] != 0 { ZeroFromIs(s, i + 1); }
  }

  /** They are a prefix without a zero, up to a zero if there is one. */
  lemma {:induction false} ChopIs(s: seq<Byte>)
    ensures Chop(s) <= s && 0 !in Chop(s)
    ensures 0 in s ==> |Chop(s)| < |s| && s[|Chop(s)|] == 0
  {
    ZeroFromIs(s, 0);
  }

  lemma {:induction false} ChopAt(s: seq<Byte>, i: nat)
    requires i <= |s| && (i < |s| ==> s[i] == 0) && forall k: nat | k < i :: s[k] != 0
    ensures Chop(s) == s[..i]
  {
    ZeroFromIs(s, 0);
    assert ZeroFrom(s, 0) >= i;
  }

  /** The first `i` bytes are no terminator. */
  predicate Open(s: seq<Byte>, i: nat) {
    i <= |s| && forall k: nat | k < i :: s[k] != 0
  }

  lemma ChopOpen(s: seq<Byte>, i: nat)
    requires 0 in s && Open(s, i) && i < |s|
    ensures i <= |Chop(s)| && Chop(s)[..i] == s[..i]
    ensures s[i] == 0 ==> Chop(s) == s[..i]
    ensures s[i] != 0 ==> i < |Chop(s)| && Chop(s)[i] == s[i]
  {
    ChopIs(s);
    if s[i] == 0 { ChopAt(s, i); }
  }

  lemma OpenInside(s: seq<Byte>, i: nat)
    requires 0 in s && Open(s, i)
    ensures i < |s|
  {
  }

  /** Byte by byte up to the first difference or the end of both. */
  method StrEq(a: seq<Byte>, b: seq<Byte>) returns (eq: bool)
    requires 0 in a && 0 in b
    ensures eq <==> Chop(a) == Chop(b)
  {
    var i := 0;
    OpenInside(a, 0);
    OpenInside(b, 0);
    while true
      invariant Open(a, i) && Open(b, i) && a[..i] == b[..i] && i < |a| && i < |b|
      decreases |a| - i
    {
      var x, y := a[i], b[i];
      ChopOpen(a, i);
      ChopOpen(b, i);
      if x != y { return false; }
      if x == 0 { return true; }
      assert a[..i + 1] == a[..i] + [x] && b[..i + 1] == b[..i] + [y];
      i := i + 1;
      OpenInside(a, i);
      OpenInside(b, i);
    }
  }

  lemma {:induction false} ChopTerminated(s: seq<Byte>)
    ensures Chop(s + [0]) == Chop(s)
  {
    var e, t := ZeroFrom(s, 0), s + [0];
    ZeroFromIs(s, 0);
    assert t[..e] == s[..e];
    ChopAt(t, e);
  }

  lemma {:induction false} ChopWhole(s: seq<Byte>)
    requires 0 !in s
    ensures Chop(s + [0]) == s
  {
    var t := s + [0];
    assert t[..|s|] == s;
    ChopAt(t, |s|);
  }

  /** `path` spells `p` and then ends. */
  ghost predicate Spells(path: seq<Byte>, p: seq<Byte>) {
    && |p| < |path| && path[|p|] == 0
    && forall k: nat {:trigger path[k]} | k < |p| :: path[k] == p[k] && path[k] != 0
  }

  lemma ChopSpells(path: seq<Byte>)
    requires 0 in path
    ensures Spells(path, Chop(path))
  {
    ChopIs(path);
  }

  lemma ChopInside(path: seq<Byte>, p: seq<Byte>, i: nat, j: nat)
    requires Spells(path, p) && i <= j <= |p|
    ensures 0 !in p[i..j]
  {
    forall k: nat | k < j - i ensures p[i..j][k] != 0 { assert path[i + k] == p[i + k]; }
  }

  method StrLen(s: seq<Byte>) returns (n: nat)
    requires 0 in s
    ensures n == |Chop(s)|
  {
    n := 0;
    OpenInside(s, 0);
    while s[n] != 0
      invariant Open(s, n) && n < |s|
      decreases |s| - n
    {
      n := n + 1;
      OpenInside(s, n);
    }
    ChopOpen(s, n);
  }
}
