/** Format strings as a grammar: what they are made of and what each part prints. */
module FormatGrammar {
  import opened IntFormat

  type Word32 = w: nat | w < WORD

  datatype Text = Null | Some(chars: seq<char>)

  /** An argument: its word and, where that is a pointer, the string there. */
  datatype Arg = Arg(word: Word32, text: Text)

  datatype Number = Absent | Literal(n: nat) | Star

  datatype Item = Plain(c: char) | Conversion(flags: Flags, width: Number, precision: Number, conv: char)

  datatype Option<T> = None | Got(value: T)

  // ---------------------------------------------------------------------
  // Parsing
  // ---------------------------------------------------------------------

  predicate IsFlag(c: char) {
    c == '-' || c == '+' || c == ' ' || c == '#' || c == '0'
  }

  predicate IsDigit(c: char) {
    '0' <= c <= '9'
  }

  predicate IsModifier(c: char) {
    c == 'h' || c == 'l' || c == 'L'
  }

  /** The character at `k`, or the terminating zero. */
  function CharAt(f: seq<char>, k: nat): char {
    if k < |f| then f[k] else '\0'
  }

  function FlagEnd(f: seq<char>, k: nat): (e: nat)
    requires k <= |f|
    ensures k <= e <= |f|
    decreases |f| - k
  {
    if k < |f| && IsFlag(f[k]) then FlagEnd(f, k + 1) else k
  }

  function DigitEnd(f: seq<char>, k: nat): (e: nat)
    requires k <= |f|
    ensures k <= e <= |f|
    decreases |f| - k
  {
    if k < |f| && IsDigit(f[k]) then DigitEnd(f, k + 1) else k
  }

  function FlagsOf(run: seq<char>): Flags {
    Flags('-' in run, '+' in run, ' ' in run, '0' in run, false, false)
  }

  function Width(f: seq<char>, k: nat): (r: (Number, nat))
    requires k <= |f|
    ensures k <= r.1 <= |f|
  {
    var e := DigitEnd(f, k);
    if CharAt(f, e) == '*' && e < |f| then (Star, e + 1) else (Literal(Read(f[k..e], 10)), e)
  }

  function Precision(f: seq<char>, k: nat): (r: (Number, nat))
    requires k <= |f|
    ensures k <= r.1 <= |f|
  {
    if k < |f| && f[k] == '.' then
      var e := DigitEnd(f, k + 1);
      if CharAt(f, e) == '*' && e < |f| then (Star, e + 1)
      else (if e == k + 1 then Absent else Literal(Read(f[k + 1..e], 10)), e)
    else (Absent, k)
  }

  function ModifierEnd(f: seq<char>, k: nat): (e: nat)
    requires k <= |f|
    ensures k <= e <= |f|
  {
    if k < |f| && IsModifier(f[k]) then k + 1 else k
  }

  /** The conversion after the percent sign at `p - 1`, and where it ends; none
      if the format ends first. */
  function ConversionAt(f: seq<char>, p: nat): (r: Option<(Item, nat)>)
    requires p <= |f|
    ensures r.Got? ==> p < r.value.1 <= |f| && r.value.0.Conversion?
  {
    var e := FlagEnd(f, p);
    var (width, w) := Width(f, e);
    var (precision, q) := Precision(f, w);
    var c := ModifierEnd(f, q);
    if c < |f| then Got((Conversion(FlagsOf(f[p..e]), width, precision, f[c]), c + 1)) else None
  }

  function Parse(f: seq<char>, k: nat): seq<Item>
    requires k <= |f|
    decreases |f| - k
  {
    if k == |f| then []
    else if f[k] != '%' then [Plain(f[k])] + Parse(f, k + 1)
    else
      match ConversionAt(f, k + 1)
      case Got(r) => [r.0] + Parse(f, r.1)
      case None => []
  }

  // ---------------------------------------------------------------------
  // Meaning
  // ---------------------------------------------------------------------

  function Signed(w: Word32): int {
    if w >= HALF then w - WORD else w
  }

  function Value(n: Number, args: nat -> Arg, a: nat, absent: int): int {
    match n
    case Absent => absent
    case Literal(v) => v
    case Star => Signed(args(a).word)
  }

  function Taken(n: Number): nat {
    if n.Star? then 1 else 0
  }

  function Least(a: int, b: int): int {
    if a <= b then a else b
  }

  function Shown(t: Text): seq<char> {
    if t.Null? then "<NULL>" else t.chars
  }

  /** A string padded to `min`, of which no more than `max` characters are printed,
      padding included. */
  function StringField(s: seq<char>, min: int, max: int, minus: bool): seq<char> {
    var pad := Max(min - |s|, 0);
    var m := Max(max, 0);
    if minus then
      var body := s[..Least(|s|, m)];
      body + Repeat(' ', Least(pad, m - |body|))
    else
      var blanks := Least(pad, m);
      Repeat(' ', blanks) + s[..Least(|s|, m - blanks)]
  }

  /** What conversion `conv` prints of argument `v`. */
  function Converted(conv: char, v: Arg, min: int, max: int, f: Flags, maxlen: nat): seq<char> {
    if conv == 'd' || conv == 'i' then Field(Signed(v.word), 10, min, max, f)
    else if conv == 'o' then Field(Signed(v.word), 8, min, max, f.(unsigned := true))
    else if conv == 'u' then Field(Signed(v.word), 10, min, max, f.(unsigned := true))
    else if conv == 'x' then Field(Signed(v.word), 16, min, max, f.(unsigned := true))
    else if conv == 'X' then Field(Signed(v.word), 16, min, max, f.(unsigned := true, up := true))
    else if conv == 'p' then Field(Signed(v.word), 16, min, max, f)
    else if conv == 'c' then [(v.word % 0x100) as char]
    else if conv == 's' then StringField(Shown(v.text), min, if max < 0 then maxlen else max, f.minus)
    else if conv == '%' then "%"
    else []
  }

  predicate TakesArgument(conv: char) {
    conv in "diouxXpcs"
  }

  /** Conversions with a floating-point argument, a store through a pointer, or `%w`. */
  predicate Unsupported(conv: char) {
    conv in "fEeGgnw"
  }

  /** How conversions print their arguments. */
  type Convert = (char, Arg, int, int, Flags) -> seq<char>

  function Converter(maxlen: nat): Convert {
    (conv: char, v: Arg, min: int, max: int, f: Flags) => Converted(conv, v, min, max, f, maxlen)
  }

  function ItemText(i: Item, args: nat -> Arg, a: nat, convert: Convert): seq<char> {
    match i
    case Plain(c) => [c]
    case Conversion(f, w, p, conv) =>
      convert(conv, args(a + Taken(w) + Taken(p)), Value(w, args, a, 0), Value(p, args, a + Taken(w), -1), f)
  }

  function ItemArgs(i: Item): nat {
    match i
    case Plain(_) => 0
    case Conversion(_, w, p, conv) => Taken(w) + Taken(p) + if TakesArgument(conv) then 1 else 0
  }

  /** How to print an item with arguments from a given one on. */
  function Shower(args: nat -> Arg, convert: Convert): (Item, nat) -> seq<char> {
    (i: Item, a: nat) => ItemText(i, args, a, convert)
  }

  /** What each item prints. */
  function Texts(items: seq<Item>, show: (Item, nat) -> seq<char>, a: nat): seq<seq<char>>
    decreases |items|
  {
    if items == [] then [] else [show(items[0], a)] + Texts(items[1..], show, a + ItemArgs(items[0]))
  }

  /** One after the other, until `maxlen` characters are out. */
  function Cut(texts: seq<seq<char>>, len: nat, maxlen: nat): seq<char>
    decreases |texts|
  {
    if texts == [] || len >= maxlen then []
    else texts[0] + Cut(texts[1..], len + |texts[0]|, maxlen)
  }

  function Join(texts: seq<seq<char>>): seq<char>
    decreases |texts|
  {
    if texts == [] then [] else texts[0] + Join(texts[1..])
  }

  /** Below `maxlen` the output is just the concatenation of all texts. */
  lemma {:induction false} CutIsJoin(texts: seq<seq<char>>, len: nat, maxlen: nat)
    requires len + |Join(texts)| < maxlen
    ensures Cut(texts, len, maxlen) == Join(texts)
    decreases |texts|
  {
    if texts != [] { CutIsJoin(texts[1..], len + |texts[0]|, maxlen); }
  }

  /** In any case whole texts are printed, one after the other, until `maxlen`
      characters are out or no text is left. */
  lemma {:induction false} CutStops(texts: seq<seq<char>>, len: nat, maxlen: nat) returns (n: nat)
    ensures n <= |texts| && Cut(texts, len, maxlen) == Join(texts[..n])
    ensures n < |texts| ==> len + |Join(texts[..n])| >= maxlen
    ensures forall k: nat | k < n :: len + |Join(texts[..k])| < maxlen
    decreases |texts|
  {
    n := 0;
    assert texts[..0] == [];
    if texts != [] && len < maxlen {
      var m := CutStops(texts[1..], len + |texts[0]|, maxlen);
      n := m + 1;
      JoinFirst(texts, n);
      forall k: nat | k < n ensures len + |Join(texts[..k])| < maxlen {
        if k > 0 { JoinFirst(texts, k); }
      }
    }
  }

  lemma {:induction false} JoinFirst(texts: seq<seq<char>>, k: nat)
    requires 0 < k <= |texts|
    ensures Join(texts[..k]) == texts[0] + Join(texts[1..][..k - 1])
  {
    assert texts[..k][1..] == texts[1..][..k - 1];
  }

  /** All conversions are supported. */
  predicate Supported(items: seq<Item>) {
    forall i: nat | i < |items| :: items[i].Conversion? ==> !Unsupported(items[i].conv)
  }

  // ---------------------------------------------------------------------
  // What conversions mean
  // ---------------------------------------------------------------------

  /** The base a number is printed in. */
  function BaseOf(conv: char): nat {
    match conv
    case 'o' => 8
    case 'x' => 16
    case 'X' => 16
    case 'p' => 16
    case _ => 10
  }

  lemma {:induction false} SignedResidue(w: Word32)
    ensures Signed(w) % WORD == w
  {
  }

  /** Read in its base, what an integer conversion prints is the argument: as a
      signed value for d, i and p, as an unsigned one for u, o, x and X. */
  lemma {:induction false} ConvertedReadsBack(conv: char, v: Arg, min: int, max: int, f: Flags, maxlen: nat)
    requires conv in "diuoxXp" && !f.unsigned
    ensures Decode(Converted(conv, v, min, max, f, maxlen), BaseOf(conv)) ==
            if conv in "dip" then Signed(v.word) else v.word
  {
    var g := f.(unsigned := true);
    SignedResidue(v.word);
    if conv in "dip" {
      FieldReadsBack(Signed(v.word), BaseOf(conv), min, max, f);
    } else if conv == 'X' {
      FieldReadsBack(Signed(v.word), BaseOf(conv), min, max, g.(up := true));
    } else {
      FieldReadsBack(Signed(v.word), BaseOf(conv), min, max, g);
    }
  }

  /** What the other conversions print: the low byte as a character; the string, or
      what stands for a null one, up to the precision; a percent sign; nothing. */
  lemma ConvertedText(conv: char, v: Arg, min: int, max: int, f: Flags, maxlen: nat)
    ensures conv == 'c' ==> Converted(conv, v, min, max, f, maxlen) == [(v.word % 256) as char]
    ensures conv == 's' ==>
              Converted(conv, v, min, max, f, maxlen) ==
              StringField(if v.text == Null then "<NULL>" else v.text.chars, min,
                          if max < 0 then maxlen else max, f.minus)
    ensures conv == '%' ==> Converted(conv, v, min, max, f, maxlen) == "%"
    ensures conv !in "diuoxXpcs%" ==> Converted(conv, v, min, max, f, maxlen) == ""
    ensures TakesArgument(conv) <==> conv in "cdiopsuxX"
  {
  }

  /** A letter among the digits is small for x and p, and a capital for X. */
  lemma {:induction false} ConvertedCase(conv: char, v: Arg, min: int, max: int, f: Flags, maxlen: nat)
    requires conv in "xXp" && !f.up
    ensures OneCase(Converted(conv, v, min, max, f, maxlen), conv == 'X')
  {
    if conv == 'p' {
      FieldCase(Signed(v.word), 16, min, max, f);
    } else if conv == 'x' {
      FieldCase(Signed(v.word), 16, min, max, f.(unsigned := true));
    } else {
      FieldCase(Signed(v.word), 16, min, max, f.(unsigned := true, up := true));
    }
  }

  /** A string that fits is padded to the width, on the left, or on the right with
      the minus flag; one that does not is cut, padding first. */
  lemma {:induction false} StringFieldShape(s: seq<char>, min: int, max: int, minus: bool)
    ensures |StringField(s, min, max, minus)| == Least(Max(min, |s|), Max(max, 0))
    ensures Max(min, |s|) <= max ==>
              StringField(s, min, max, minus) ==
              if minus then s + Repeat(' ', min - |s|) else Repeat(' ', min - |s|) + s
  {
    if Max(min, |s|) <= max {
      assert s[..|s|] == s;
      assert min <= |s| ==> Repeat(' ', min - |s|) == [];
    }
  }
}
