/** Facts about sequences that proofs ask for by name. */
module Sequences {

  lemma Regroup<T>(a: seq<T>, b: seq<T>, c: seq<T>)
    ensures a + (b + c) == (a + b) + c
  {
  }

  lemma SplitFirst<T>(s: seq<T>, i: nat)
    requires i < |s|
    ensures s[i..] == [s[i]] + s[i + 1..]
  {
  }

  lemma TailOf<T>(s: seq<T>, i: nat, whole: seq<T>, x: T, rest: seq<T>)
    requires i < |s| && whole == s[i..] && whole == [x] + rest
    ensures x == s[i] && rest == s[i + 1..]
  {
    assert whole[0] == x && whole[1..] == rest;
  }
}
