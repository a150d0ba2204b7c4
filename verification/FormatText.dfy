/** Format strings written from their items, and that they parse back. */
module FormatText {
  import opened IntFormat
  import opened FormatGrammar
  import opened Sequences

  // ---------------------------------------------------------------------
  // Writing items
  // ---------------------------------------------------------------------

  function FlagText(f: Flags): seq<char> {
    (if f.minus then "-" else "") + (if f.plus then "+" else "") + (if f.space then " " else "")
    + (if f.zero then "0" else "")
  }

  function WidthText(w: Number): seq<char> {
    match w
    case Absent => ""
    case Literal(n) => if n == 0 then "" else Digits(n, 10, false)
    case Star => "*"
  }

  function PrecisionText(p: Number): seq<char> {
    match p
    case Absent => ""
    case Literal(n) => "." + Digits(n, 10, false)
    case Star => ".*"
  }

  /** The last character of a conversion is none that could go on with it. */
  predicate EndsConversion(c: char) {
    !IsFlag(c) && !IsDigit(c) && !IsModifier(c) && c != '*' && c != '.'
  }

  predicate Writable(i: Item) {
    match i
    case Plain(c) => c != '%'
    case Conversion(f, w, _, conv) => !f.up && !f.unsigned && !w.Absent? && EndsConversion(conv)
  }

  function ItemSpelled(i: Item): seq<char> {
    match i
    case Plain(c) => [c]
    case Conversion(f, w, p, conv) => "%" + FlagText(f) + WidthText(w) + PrecisionText(p) + [conv]
  }

  function Spelled(items: seq<Item>, i: nat): seq<char>
    requires i <= |items|
    decreases |items| - i
  {
    if i == |items| then [] else ItemSpelled(items[i]) + Spelled(items, i + 1)
  }

  // ---------------------------------------------------------------------
  // Reading them
  // ---------------------------------------------------------------------

  /** `text` stands at `p` in the format. */
  ghost predicate StandsAt(f: seq<char>, p: nat, text: seq<char>) {
    p + |text| <= |f| && forall k: nat | k < |text| :: f[p + k] == text[k]
  }

  lemma StandsIndex(f: seq<char>, p: nat, text: seq<char>, k: nat)
    requires StandsAt(f, p, text) && k < |text|
    ensures f[p + k] == text[k]
  {
  }

  lemma StandsSlice(f: seq<char>, p: nat, text: seq<char>)
    requires StandsAt(f, p, text)
    ensures f[p..p + |text|] == text
  {
  }

  lemma StandsSplit(f: seq<char>, p: nat, a: seq<char>, b: seq<char>)
    requires StandsAt(f, p, a + b)
    ensures StandsAt(f, p, a) && StandsAt(f, p + |a|, b)
  {
    forall k: nat | k < |a| ensures f[p + k] == a[k] { assert (a + b)[k] == a[k]; }
    forall k: nat | k < |b| ensures f[p + |a| + k] == b[k] { assert (a + b)[|a| + k] == b[k]; }
  }

  lemma DigitsStand(f: seq<char>, p: nat, text: seq<char>)
    requires StandsAt(f, p, text) && forall k: nat | k < |text| :: IsDigit(text[k])
    ensures forall i: nat | p <= i < p + |text| :: IsDigit(f[i])
  {
    forall i: nat | p <= i < p + |text| ensures IsDigit(f[i]) { StandsIndex(f, p, text, i - p); }
  }

  lemma FlagsStand(f: seq<char>, p: nat, text: seq<char>)
    requires StandsAt(f, p, text) && forall k: nat | k < |text| :: IsFlag(text[k])
    ensures forall i: nat | p <= i < p + |text| :: IsFlag(f[i])
  {
    forall i: nat | p <= i < p + |text| ensures IsFlag(f[i]) { StandsIndex(f, p, text, i - p); }
  }

  lemma {:induction false} FlagEndIs(f: seq<char>, k: nat, e: nat)
    requires k <= e <= |f| && (forall i: nat | k <= i < e :: IsFlag(f[i])) && (e < |f| ==> !IsFlag(f[e]))
    ensures FlagEnd(f, k) == e
    decreases e - k
  {
    if k < e { FlagEndIs(f, k + 1, e); }
  }

  lemma {:induction false} DigitEndIs(f: seq<char>, k: nat, e: nat)
    requires k <= e <= |f| && (forall i: nat | k <= i < e :: IsDigit(f[i])) && (e < |f| ==> !IsDigit(f[e]))
    ensures DigitEnd(f, k) == e
    decreases e - k
  {
    if k < e { DigitEndIs(f, k + 1, e); }
  }

  lemma {:induction false} DecimalDigits(n: nat)
    ensures forall k: nat | k < |Digits(n, 10, false)| :: IsDigit(Digits(n, 10, false)[k])
    decreases n
  {
    if n >= 10 { DecimalDigits(n / 10); }
  }

  lemma FlagsReadBack(f: Flags)
    requires !f.up && !f.unsigned
    ensures FlagsOf(FlagText(f)) == f && forall k: nat | k < |FlagText(f)| :: IsFlag(FlagText(f)[k])
  {
    var a, b, c, d := if f.minus then "-" else "", if f.plus then "+" else "", if f.space then " " else "",
                      if f.zero then "0" else "";
    forall ch: char ensures ch in a + b + c + d <==> ch in a || ch in b || ch in c || ch in d {}
  }

  /** What follows the flags is not one of them. */
  lemma {:induction false} WidthStarts(w: Number)
    ensures WidthText(w) != [] ==> !IsFlag(WidthText(w)[0])
  {
    if w.Literal? && w.n > 0 {
      NoLeadingZero(w.n, 10, false);
      DecimalDigits(w.n);
    }
  }

  lemma {:induction false} WidthReadsBack(f: seq<char>, p: nat, w: Number)
    requires StandsAt(f, p, WidthText(w)) && !w.Absent? && p + |WidthText(w)| < |f|
    requires !IsDigit(f[p + |WidthText(w)|]) && f[p + |WidthText(w)|] != '*'
    ensures Width(f, p) == (w, p + |WidthText(w)|)
  {
    var t := WidthText(w);
    if w.Star? {
      StandsIndex(f, p, t, 0);
      DigitEndIs(f, p, p);
    } else {
      DecimalDigits(w.n);
      DigitsStand(f, p, t);
      DigitEndIs(f, p, p + |t|);
      StandsSlice(f, p, t);
      DigitsReadBack(w.n, 10, false);
    }
  }

  lemma {:induction false} PrecisionReadsBack(f: seq<char>, p: nat, n: Number)
    requires StandsAt(f, p, PrecisionText(n)) && p + |PrecisionText(n)| < |f|
    requires EndsConversion(f[p + |PrecisionText(n)|])
    ensures Precision(f, p) == (n, p + |PrecisionText(n)|)
  {
    var t := PrecisionText(n);
    if n.Star? {
      StandsIndex(f, p, t, 0);
      StandsIndex(f, p, t, 1);
      DigitEndIs(f, p + 1, p + 1);
    } else if n.Literal? {
      PrecisionLiteral(f, p, n.n, Digits(n.n, 10, false));
    }
  }

  lemma {:induction false} PrecisionLiteral(f: seq<char>, p: nat, n: nat, d: seq<char>)
    requires d == Digits(n, 10, false) && StandsAt(f, p, "." + d) && p + 1 + |d| < |f|
    requires EndsConversion(f[p + 1 + |d|])
    ensures Precision(f, p) == (Literal(n), p + 1 + |d|)
  {
    StandsSplit(f, p, ".", d);
    StandsIndex(f, p, ".", 0);
    DecimalDigits(n);
    DigitsStand(f, p + 1, d);
    DigitEndIs(f, p + 1, p + 1 + |d|);
    StandsSlice(f, p + 1, d);
    DigitsReadBack(n, 10, false);
  }

  /** A conversion that stands in the format is read back. */
  lemma {:induction false} ConversionReadsBack(f: seq<char>, p: nat, i: Item)
    requires i.Conversion? && Writable(i) && StandsAt(f, p, ItemSpelled(i))
    ensures f[p] == '%' && ConversionAt(f, p + 1) == Got((i, p + |ItemSpelled(i)|))
  {
    var a, b, c := FlagText(i.flags), WidthText(i.width), PrecisionText(i.precision);
    assert ItemSpelled(i) == "%" + a + b + c + [i.conv];
    PartsStand(f, p, a, b, c, i.conv);
    ConversionStands(f, p + 1, i, a, b, c);
  }

  lemma {:induction false} ConversionStands(f: seq<char>, p: nat, i: Item, a: seq<char>, b: seq<char>, c: seq<char>)
    requires i.Conversion? && Writable(i)
    requires a == FlagText(i.flags) && b == WidthText(i.width) && c == PrecisionText(i.precision)
    requires StandsAt(f, p, a) && StandsAt(f, p + |a|, b) && StandsAt(f, p + |a| + |b|, c)
    requires StandsAt(f, p + |a| + |b| + |c|, [i.conv])
    ensures ConversionAt(f, p) == Got((i, p + |a| + |b| + |c| + 1))
  {
    var q := p + |a|;
    After(f, q, b, c, i);
    FlagsStandBack(f, p, i.flags, a);
    assert Width(f, q) == (i.width, q + |b|) by { WidthReadsBack(f, q, i.width); }
    assert Precision(f, q + |b|) == (i.precision, q + |b| + |c|) by { PrecisionReadsBack(f, q + |b|, i.precision); }
    ConversionIs(f, p, q, i.flags, i.width, q + |b|, i.precision, q + |b| + |c|);
  }

  lemma {:induction false} FlagsStandBack(f: seq<char>, p: nat, flags: Flags, a: seq<char>)
    requires !flags.up && !flags.unsigned && a == FlagText(flags) && StandsAt(f, p, a)
    requires p + |a| < |f| && !IsFlag(f[p + |a|])
    ensures FlagEnd(f, p) == p + |a| && FlagsOf(f[p..p + |a|]) == flags
  {
    FlagsReadBack(flags);
    FlagsStand(f, p, a);
    FlagEndIs(f, p, p + |a|);
    StandsSlice(f, p, a);
  }

  lemma {:induction false} ConversionIs(f: seq<char>, p: nat, q: nat, flags: Flags, w: Number, x: nat, n: Number,
                                        y: nat)
    requires p <= q <= x <= y < |f| && FlagEnd(f, p) == q && FlagsOf(f[p..q]) == flags
    requires Width(f, q) == (w, x) && Precision(f, x) == (n, y) && !IsModifier(f[y])
    ensures ConversionAt(f, p) == Got((Conversion(flags, w, n, f[y]), y + 1))
  {
  }

  lemma PartsStand(f: seq<char>, p: nat, a: seq<char>, b: seq<char>, c: seq<char>, conv: char)
    requires StandsAt(f, p, "%" + a + b + c + [conv])
    ensures f[p] == '%' && StandsAt(f, p + 1, a) && StandsAt(f, p + 1 + |a|, b)
    ensures StandsAt(f, p + 1 + |a| + |b|, c) && StandsAt(f, p + 1 + |a| + |b| + |c|, [conv])
  {
    StandsSplit(f, p, "%" + a + b + c, [conv]);
    StandsSplit(f, p, "%" + a + b, c);
    StandsSplit(f, p, "%" + a, b);
    StandsSplit(f, p, "%", a);
    StandsIndex(f, p, "%", 0);
  }

  /** What comes after flags, width and precision. */
  lemma {:induction false} After(f: seq<char>, q: nat, b: seq<char>, c: seq<char>, i: Item)
    requires i.Conversion? && Writable(i) && b == WidthText(i.width) && c == PrecisionText(i.precision)
    requires StandsAt(f, q, b) && StandsAt(f, q + |b|, c) && StandsAt(f, q + |b| + |c|, [i.conv])
    ensures q + |b| + |c| < |f| && f[q + |b| + |c|] == i.conv
    ensures !IsDigit(f[q + |b|]) && f[q + |b|] != '*' && !IsFlag(f[q])
  {
    WidthStarts(i.width);
    StandsIndex(f, q + |b| + |c|, [i.conv], 0);
    if c != [] { StandsIndex(f, q + |b|, c, 0); }
    if b != [] { StandsIndex(f, q, b, 0); }
  }

  /** The items from the `i`-th on stand at `o`, up to the end of the format. */
  ghost predicate ItemsAt(items: seq<Item>, i: nat, f: seq<char>, o: nat)
    requires i <= |items|
    decreases |items| - i
  {
    if i == |items| then o == |f|
    else StandsAt(f, o, ItemSpelled(items[i])) && ItemsAt(items, i + 1, f, o + |ItemSpelled(items[i])|)
  }

  lemma {:induction false} SpelledStands(before: seq<char>, items: seq<Item>, i: nat, f: seq<char>)
    requires i <= |items| && f == before + Spelled(items, i)
    ensures ItemsAt(items, i, f, |before|)
    decreases |items| - i
  {
    if i < |items| {
      var s, rest := ItemSpelled(items[i]), Spelled(items, i + 1);
      Regroup(before, s, rest);
      Middle(before, s, rest, f);
      SpelledStands(before + s, items, i + 1, f);
    }
  }

  lemma Middle(a: seq<char>, b: seq<char>, c: seq<char>, f: seq<char>)
    requires f == a + b + c
    ensures StandsAt(f, |a|, b)
  {
  }

  lemma {:induction false} ItemsReadBack(items: seq<Item>, i: nat, f: seq<char>, o: nat)
    requires i <= |items| && (forall k: nat | k < |items| :: Writable(items[k])) && ItemsAt(items, i, f, o) && o <= |f|
    ensures Parse(f, o) == items[i..]
    decreases |items| - i
  {
    if i < |items| {
      var next := o + |ItemSpelled(items[i])|;
      ItemsReadBack(items, i + 1, f, next);
      ParseNext(items[i], f, o, next);
      SplitFirst(items, i);
    }
  }

  lemma {:induction false} ParseNext(i: Item, f: seq<char>, o: nat, next: nat)
    requires Writable(i) && StandsAt(f, o, ItemSpelled(i)) && next == o + |ItemSpelled(i)| <= |f|
    ensures Parse(f, o) == [i] + Parse(f, next)
  {
    if i.Conversion? {
      assert f[o] == '%' && ConversionAt(f, o + 1) == Got((i, next)) by { ConversionReadsBack(f, o, i); }
    } else {
      assert f[o] == i.c by { StandsIndex(f, o, [i.c], 0); }
    }
  }

  /** Parsing what was written gives the items back, for all flags, widths and
      precisions. */
  lemma ParseReadsBack(items: seq<Item>)
    requires forall k: nat | k < |items| :: Writable(items[k])
    ensures Parse(Spelled(items, 0), 0) == items
  {
    var f := Spelled(items, 0);
    assert f == [] + f;
    SpelledStands([], items, 0, f);
    ItemsReadBack(items, 0, f, 0);
  }
}
