/** What the format reader's variables mean in each of its states, in terms of
    the grammar. */
module FormatStates {
  import opened IntFormat
  import opened FormatGrammar

  datatype State = Default | InFlags | InMin | InDot | InMax | InMod | InConv | Done

  /** States left before the conversion, for termination. */
  function Left(s: State): nat {
    match s
    case Default => 7
    case InFlags => 6
    case InMin => 5
    case InDot => 4
    case InMax => 3
    case InMod => 2
    case InConv => 1
    case Done => 0
  }

  /** In the conversion that starts after the percent sign at `p - 1`, with
      arguments from `a0` on, the reader is at `k`. */
  ghost predicate At(f: seq<char>, args: nat -> Arg, p: nat, a0: nat, state: State, k: nat, flags: Flags, min: int,
                     max: int, a: nat)
    requires p <= |f|
  {
    var e := FlagEnd(f, p);
    var (width, w) := Width(f, e);
    var (precision, q) := Precision(f, w);
    match state
    case InFlags => p <= k <= e && flags == FlagsOf(f[p..k]) && min == 0 && max == -1 && a == a0
    case InMin =>
      e <= k <= DigitEnd(f, e) && flags == FlagsOf(f[p..e]) && min == Read(f[e..k], 10) && max == -1 && a == a0
    case InDot =>
      k == w && flags == FlagsOf(f[p..e]) && min == Value(width, args, a0, 0) && max == -1 && a == a0 + Taken(width)
    case InMax =>
      && w < |f| && f[w] == '.' && w + 1 <= k <= DigitEnd(f, w + 1)
      && flags == FlagsOf(f[p..e]) && min == Value(width, args, a0, 0) && a == a0 + Taken(width)
      && max == if k == w + 1 then -1 else Read(f[w + 1..k], 10)
    case InMod =>
      && k == q && flags == FlagsOf(f[p..e]) && min == Value(width, args, a0, 0)
      && max == Value(precision, args, a0 + Taken(width), -1) && a == a0 + Taken(width) + Taken(precision)
    case InConv =>
      && k == ModifierEnd(f, q) && flags == FlagsOf(f[p..e]) && min == Value(width, args, a0, 0)
      && max == Value(precision, args, a0 + Taken(width), -1) && a == a0 + Taken(width) + Taken(precision)
    case _ => false
  }

  lemma {:induction false} FlagEndFrom(f: seq<char>, p: nat, k: nat)
    requires p <= k <= |f| && k <= FlagEnd(f, p)
    ensures FlagEnd(f, k) == FlagEnd(f, p)
    decreases k - p
  {
    if p < k { FlagEndFrom(f, p + 1, k); }
  }

  lemma {:induction false} DigitEndFrom(f: seq<char>, p: nat, k: nat)
    requires p <= k <= |f| && k <= DigitEnd(f, p)
    ensures DigitEnd(f, k) == DigitEnd(f, p)
    decreases k - p
  {
    if p < k { DigitEndFrom(f, p + 1, k); }
  }

  function AddFlag(fl: Flags, c: char): Flags {
    if c == '-' then fl.(minus := true) else if c == '+' then fl.(plus := true)
    else if c == ' ' then fl.(space := true) else if c == '0' then fl.(zero := true) else fl
  }

  lemma FlagsGrow(run: seq<char>, c: char)
    ensures FlagsOf(run + [c]) == AddFlag(FlagsOf(run), c)
  {
  }

  lemma FlagStep(f: seq<char>, args: nat -> Arg, p: nat, a0: nat, k: nat, flags: Flags, min: int, max: int, a: nat)
    requires p <= |f| && k < |f| && At(f, args, p, a0, InFlags, k, flags, min, max, a)
    ensures IsFlag(f[k]) ==> At(f, args, p, a0, InFlags, k + 1, AddFlag(flags, f[k]), min, max, a)
    ensures !IsFlag(f[k]) ==> At(f, args, p, a0, InMin, k, flags, min, max, a)
  {
    FlagEndFrom(f, p, k);
    if IsFlag(f[k]) {
      assert f[p..k + 1] == f[p..k] + [f[k]];
      FlagsGrow(f[p..k], f[k]);
    }
  }

  lemma ReadGrow(f: seq<char>, e: nat, k: nat)
    requires e <= k < |f| && IsDigit(f[k])
    ensures Read(f[e..k + 1], 10) == 10 * Read(f[e..k], 10) + (f[k] - '0') as int
  {
    assert f[e..k + 1][..k - e] == f[e..k];
  }

  lemma MinStep(f: seq<char>, args: nat -> Arg, p: nat, a0: nat, k: nat, flags: Flags, min: int, max: int, a: nat)
    requires p <= |f| && k < |f| && At(f, args, p, a0, InMin, k, flags, min, max, a)
    ensures IsDigit(f[k]) ==> At(f, args, p, a0, InMin, k + 1, flags, 10 * min + (f[k] - '0') as int, max, a)
    ensures f[k] == '*' ==> At(f, args, p, a0, InDot, k + 1, flags, Signed(args(a).word), max, a + 1)
    ensures !IsDigit(f[k]) && f[k] != '*' ==> At(f, args, p, a0, InDot, k, flags, min, max, a)
  {
    DigitEndFrom(f, FlagEnd(f, p), k);
    if IsDigit(f[k]) { ReadGrow(f, FlagEnd(f, p), k); }
  }

  lemma DotStep(f: seq<char>, args: nat -> Arg, p: nat, a0: nat, k: nat, flags: Flags, min: int, max: int, a: nat)
    requires p <= |f| && k < |f| && At(f, args, p, a0, InDot, k, flags, min, max, a)
    ensures f[k] == '.' ==> At(f, args, p, a0, InMax, k + 1, flags, min, max, a)
    ensures f[k] != '.' ==> At(f, args, p, a0, InMod, k, flags, min, max, a)
  {
  }

  lemma MaxStep(f: seq<char>, args: nat -> Arg, p: nat, a0: nat, k: nat, flags: Flags, min: int, max: int, a: nat)
    requires p <= |f| && k < |f| && At(f, args, p, a0, InMax, k, flags, min, max, a)
    ensures IsDigit(f[k]) ==> At(f, args, p, a0, InMax, k + 1, flags, min, 10 * Max(max, 0) + (f[k] - '0') as int, a)
    ensures f[k] == '*' ==> At(f, args, p, a0, InMod, k + 1, flags, min, Signed(args(a).word), a + 1)
    ensures !IsDigit(f[k]) && f[k] != '*' ==> At(f, args, p, a0, InMod, k, flags, min, max, a)
  {
    if IsDigit(f[k]) {
      MaxDigit(f, args, p, a0, k, flags, min, max, a);
    } else {
      DigitEndFrom(f, Width(f, FlagEnd(f, p)).1 + 1, k);
    }
  }

  lemma MaxDigit(f: seq<char>, args: nat -> Arg, p: nat, a0: nat, k: nat, flags: Flags, min: int, max: int, a: nat)
    requires p <= |f| && k < |f| && At(f, args, p, a0, InMax, k, flags, min, max, a) && IsDigit(f[k])
    ensures At(f, args, p, a0, InMax, k + 1, flags, min, 10 * Max(max, 0) + (f[k] - '0') as int, a)
  {
    var w := Width(f, FlagEnd(f, p)).1;
    DigitEndFrom(f, w + 1, k);
    ReadGrow(f, w + 1, k);
    if k == w + 1 { assert f[w + 1..k] == []; }
  }

  lemma ModStep(f: seq<char>, args: nat -> Arg, p: nat, a0: nat, k: nat, flags: Flags, min: int, max: int, a: nat)
    requires p <= |f| && k < |f| && At(f, args, p, a0, InMod, k, flags, min, max, a)
    ensures At(f, args, p, a0, InConv, if IsModifier(f[k]) then k + 1 else k, flags, min, max, a)
  {
  }

  /** A format that ends inside a conversion: nothing more to print. */
  lemma EndsInside(f: seq<char>, args: nat -> Arg, p: nat, a0: nat, state: State, flags: Flags, min: int, max: int,
                   a: nat)
    requires p <= |f| && At(f, args, p, a0, state, |f|, flags, min, max, a)
    ensures ConversionAt(f, p) == None
  {
  }

  /** What is left to print from item position `k` on. */
  ghost function Rest(f: seq<char>, k: nat, show: (Item, nat) -> seq<char>, a: nat, len: nat, maxlen: nat): seq<char>
    requires k <= |f|
  {
    Cut(Texts(Parse(f, k), show, a), len, maxlen)
  }

  lemma {:induction false} RestPlain(f: seq<char>, k: nat, show: (Item, nat) -> seq<char>, a: nat, len: nat,
                                     maxlen: nat)
    requires k < |f| && f[k] != '%' && len < maxlen && show(Plain(f[k]), a) == [f[k]]
    ensures Rest(f, k, show, a, len, maxlen) == [f[k]] + Rest(f, k + 1, show, a, len + 1, maxlen)
  {
    RestNext(Plain(f[k]), Parse(f, k + 1), show, a, len, maxlen, a, [f[k]]);
  }

  lemma {:induction false} RestConversion(f: seq<char>, p: nat, show: (Item, nat) -> seq<char>, a0: nat, len: nat,
                                          maxlen: nat, item: Item, next: nat, a: nat, t: seq<char>)
    requires 0 < p <= |f| && f[p - 1] == '%' && len < maxlen && ConversionAt(f, p) == Got((item, next))
    requires t == show(item, a0) && a == a0 + ItemArgs(item)
    ensures Rest(f, p - 1, show, a0, len, maxlen) == t + Rest(f, next, show, a, len + |t|, maxlen)
  {
    assert Parse(f, p - 1) == [item] + Parse(f, next);
    RestNext(item, Parse(f, next), show, a0, len, maxlen, a, t);
  }

  lemma {:induction false} RestNext(i: Item, rest: seq<Item>, show: (Item, nat) -> seq<char>, a0: nat, len: nat,
                                    maxlen: nat, a: nat, t: seq<char>)
    requires len < maxlen && t == show(i, a0) && a == a0 + ItemArgs(i)
    ensures Cut(Texts([i] + rest, show, a0), len, maxlen) == t + Cut(Texts(rest, show, a), len + |t|, maxlen)
  {
    TextsCons(i, rest, show, a0);
    CutCons(t, Texts(rest, show, a), len, maxlen);
  }

  lemma {:induction false} TextsCons(i: Item, rest: seq<Item>, show: (Item, nat) -> seq<char>, a: nat)
    ensures Texts([i] + rest, show, a) == [show(i, a)] + Texts(rest, show, a + ItemArgs(i))
  {
    assert ([i] + rest)[1..] == rest;
  }

  lemma {:induction false} CutCons(t: seq<char>, texts: seq<seq<char>>, len: nat, maxlen: nat)
    requires len < maxlen
    ensures Cut([t] + texts, len, maxlen) == t + Cut(texts, len + |t|, maxlen)
  {
    assert ([t] + texts)[1..] == texts;
  }

  /** No item is left, or no room. */
  lemma {:induction false} RestNothing(f: seq<char>, k: nat, show: (Item, nat) -> seq<char>, a: nat, len: nat,
                                       maxlen: nat)
    requires k <= |f|
    requires k == |f| || len >= maxlen || (f[k] == '%' && ConversionAt(f, k + 1) == None)
    ensures Rest(f, k, show, a, len, maxlen) == []
  {
  }

  /** At the conversion character the whole conversion is known. */
  lemma ConversionKnown(f: seq<char>, args: nat -> Arg, p: nat, a0: nat, convert: Convert, k: nat, flags: Flags,
                        min: int, max: int, a: nat) returns (item: Item)
    requires 0 < p <= |f| && k < |f| && At(f, args, p, a0, InConv, k, flags, min, max, a)
    ensures ConversionAt(f, p) == Got((item, k + 1)) && item.Conversion? && item.conv == f[k]
    ensures a0 + ItemArgs(item) == a + if TakesArgument(f[k]) then 1 else 0
    ensures Shower(args, convert)(item, a0) == convert(f[k], args(a), min, max, flags)
  {
    item := ConversionAt(f, p).value.0;
  }

  lemma ConversionSupported(f: seq<char>, p: nat, k: nat, item: Item)
    requires 0 < p <= |f| && k < |f| && f[p - 1] == '%' && ConversionAt(f, p) == Got((item, k + 1)) &&
             item.Conversion? && item.conv == f[k]
    requires Supported(Parse(f, p - 1))
    ensures !Unsupported(f[k]) && Supported(Parse(f, k + 1))
  {
    SupportedNext(item, Parse(f, k + 1));
  }

  lemma SupportedNext(i: Item, rest: seq<Item>)
    requires Supported([i] + rest)
    ensures (i.Conversion? ==> !Unsupported(i.conv)) && Supported(rest)
  {
    var all := [i] + rest;
    assert all[0] == i;
    forall j: nat | j < |rest| ensures rest[j].Conversion? ==> !Unsupported(rest[j].conv) {
      assert rest[j] == all[j + 1];
    }
  }

  lemma SupportedPlain(f: seq<char>, k: nat)
    requires k < |f| && f[k] != '%' && Supported(Parse(f, k))
    ensures Supported(Parse(f, k + 1))
  {
    SupportedNext(Plain(f[k]), Parse(f, k + 1));
  }
}
