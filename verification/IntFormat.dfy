/** What a formatted integer looks like, and that it reads back. */
module IntFormat {
  const WORD := 0x1_0000_0000
  const HALF := 0x8000_0000

  datatype Flags = Flags(minus: bool, plus: bool, space: bool, zero: bool, up: bool, unsigned: bool)

  predicate IsBase(base: nat) {
    base == 8 || base == 10 || base == 16
  }

  function Max(a: int, b: int): int {
    if a >= b then a else b
  }

  // ---------------------------------------------------------------------
  // Digits
  // ---------------------------------------------------------------------

  const LOWER := "0123456789abcdef"
  const UPPER := "0123456789ABCDEF"

  function DigitChar(d: nat, up: bool): char
    requires d < 16
  {
    if up then UPPER[d] else LOWER[d]
  }

  function DigitValue(c: char): nat {
    if '0' <= c <= '9' then (c - '0') as nat
    else if 'a' <= c <= 'f' then (c - 'a') as nat + 10
    else if 'A' <= c <= 'F' then (c - 'A') as nat + 10
    else 0
  }

  lemma DigitReadsBack(d: nat, up: bool)
    requires d < 16
    ensures DigitValue(DigitChar(d, up)) == d
    ensures DigitChar(d, up) != ' ' && DigitChar(d, up) != '-' && DigitChar(d, up) != '+'
  {
  }

  /** Quotient and remainder for the three bases. */
  function Quotient(n: nat, base: nat): nat
    requires IsBase(base)
  {
    if base == 8 then n / 8 else if base == 10 then n / 10 else n / 16
  }

  function Remainder(n: nat, base: nat): (r: nat)
    requires IsBase(base)
    ensures r < base && r < 16
  {
    if base == 8 then n % 8 else if base == 10 then n % 10 else n % 16
  }

  /** The digits of `n`, most significant first, at least one. */
  function Digits(n: nat, base: nat, up: bool): (s: seq<char>)
    requires IsBase(base)
    ensures |s| > 0
    decreases n
  {
    if n < base then [DigitChar(n, up)]
    else Digits(Quotient(n, base), base, up) + [DigitChar(Remainder(n, base), up)]
  }

  /** The number that a string of digits stands for. */
  function Read(s: seq<char>, base: nat): nat {
    if s == [] then 0 else Read(s[..|s| - 1], base) * base + DigitValue(s[|s| - 1])
  }

  function Pow8(k: nat): nat {
    if k == 0 then 1 else 8 * Pow8(k - 1)
  }

  /** Below 8^k there are at most k digits. */
  lemma {:induction false} DigitsShort(n: nat, base: nat, up: bool, k: nat)
    requires IsBase(base) && n < Pow8(k) && k > 0
    ensures |Digits(n, base, up)| <= k
    decreases n
  {
    if n >= base { DigitsShort(Quotient(n, base), base, up, k - 1); }
  }

  lemma WordDigits(n: nat, base: nat, up: bool)
    requires IsBase(base) && n < WORD
    ensures |Digits(n, base, up)| <= 11
  {
    assert Pow8(11) == 8 * 8 * 8 * 8 * 8 * 8 * 8 * 8 * 8 * 8 * 8;
    DigitsShort(n, base, up, 11);
  }

  lemma {:induction false} DigitsReadBack(n: nat, base: nat, up: bool)
    requires IsBase(base)
    ensures Read(Digits(n, base, up), base) == n
    ensures NoBlanks(Digits(n, base, up))
    decreases n
  {
    if n < base {
      DigitReadsBack(n, up);
      assert Digits(n, base, up)[..0] == [];
    } else {
      var q, r := Quotient(n, base), Remainder(n, base);
      DigitsReadBack(q, base, up);
      DigitReadsBack(r, up);
      var s := Digits(n, base, up);
      assert s[..|s| - 1] == Digits(q, base, up);
      assert q * base + r == n;
    }
  }

  predicate NoBlanks(s: seq<char>) {
    forall i: nat | i < |s| :: s[i] != ' ' && s[i] != '-' && s[i] != '+'
  }

  // ---------------------------------------------------------------------
  // A field
  // ---------------------------------------------------------------------

  function Repeat(c: char, n: int): (s: seq<char>)
    ensures |s| == if n < 0 then 0 else n
    ensures forall i: nat | i < |s| :: s[i] == c
  {
    if n <= 0 then [] else Repeat(c, n - 1) + [c]
  }

  function Sign(value: int, f: Flags): seq<char> {
    if f.unsigned then [] else if value < 0 then "-" else if f.plus then "+" else if f.space then " " else []
  }

  /** What the digits show: the value as unsigned, or its magnitude. */
  function Magnitude(value: int, f: Flags): nat {
    if f.unsigned then value % WORD else if value < 0 then -value else value
  }

  /** Zeros before the digits, and blanks before or after all. */
  function ZeroPad(digits: nat, sign: nat, min: int, precision: int, f: Flags): int {
    var p := Max(precision, 0);
    var blanks := Max(min - Max(p, digits) - sign, 0);
    if f.zero then Max(Max(p - digits, 0), blanks) else Max(p - digits, 0)
  }

  function BlankPad(digits: nat, sign: nat, min: int, precision: int, f: Flags): int {
    if f.zero then 0 else Max(min - Max(Max(precision, 0), digits) - sign, 0)
  }

  /** The field: blanks, sign, zeros, digits; or the blanks at the end. */
  function Field(value: int, base: nat, min: int, precision: int, f: Flags): seq<char>
    requires IsBase(base)
  {
    var digits := Digits(Magnitude(value, f), base, f.up);
    var sign := Sign(value, f);
    var blanks := BlankPad(|digits|, |sign|, min, precision, f);
    var core := sign + Repeat('0', ZeroPad(|digits|, |sign|, min, precision, f)) + digits;
    if f.minus then core + Repeat(' ', blanks) else Repeat(' ', blanks) + core
  }

  /** Without the zero flag the width is the lesser only of what is asked. */
  lemma FieldWidth(value: int, base: nat, min: int, precision: int, f: Flags)
    requires IsBase(base) && !f.zero
    ensures |Field(value, base, min, precision, f)|
         == Max(min, Max(precision, |Digits(Magnitude(value, f), base, f.up)|) + |Sign(value, f)|)
  {
  }

  // ---------------------------------------------------------------------
  // Reading a field back
  // ---------------------------------------------------------------------

  function SkipBlanks(s: seq<char>): seq<char> {
    if s != [] && s[0] == ' ' then SkipBlanks(s[1..]) else s
  }

  function DropBlanks(s: seq<char>): seq<char> {
    if s != [] && s[|s| - 1] == ' ' then DropBlanks(s[..|s| - 1]) else s
  }

  /** Strip the blanks, take the sign, and read the digits. */
  function Decode(s: seq<char>, base: nat): int {
    var t := DropBlanks(SkipBlanks(s));
    if t != [] && t[0] == '-' then 0 - Read(t[1..], base)
    else if t != [] && t[0] == '+' then Read(t[1..], base)
    else Read(t, base)
  }

  lemma {:induction false} SkipRepeat(n: int, s: seq<char>)
    requires s != [] && s[0] != ' '
    ensures SkipBlanks(Repeat(' ', n) + s) == s
    decreases n
  {
    if n <= 0 {
      assert Repeat(' ', n) + s == s;
    } else {
      assert (Repeat(' ', n) + s)[1..] == Repeat(' ', n - 1) + s;
      SkipRepeat(n - 1, s);
    }
  }

  lemma {:induction false} DropRepeat(s: seq<char>, n: int)
    requires s != [] && s[|s| - 1] != ' '
    ensures DropBlanks(s + Repeat(' ', n)) == s
    decreases n
  {
    if n <= 0 {
      assert s + Repeat(' ', n) == s;
    } else {
      var t := s + Repeat(' ', n);
      assert t[..|t| - 1] == s + Repeat(' ', n - 1);
      DropRepeat(s, n - 1);
    }
  }

  lemma {:induction false} ReadZeros(n: int, s: seq<char>, base: nat)
    ensures Read(Repeat('0', n) + s, base) == Read(s, base)
    decreases |s|, n
  {
    var t := Repeat('0', n) + s;
    if s != [] {
      assert t[..|t| - 1] == Repeat('0', n) + s[..|s| - 1];
      ReadZeros(n, s[..|s| - 1], base);
    } else if n > 0 {
      assert t[..|t| - 1] == Repeat('0', n - 1) + [];
      ReadZeros(n - 1, [], base);
    }
  }

  /** Blanks around what begins and ends with something else go away. */
  lemma Stripped(a: int, core: seq<char>, b: int)
    requires core != [] && core[0] != ' ' && core[|core| - 1] != ' '
    ensures DropBlanks(SkipBlanks(Repeat(' ', a) + core + Repeat(' ', b))) == core
  {
    assert Repeat(' ', a) + core + Repeat(' ', b) == Repeat(' ', a) + (core + Repeat(' ', b));
    SkipRepeat(a, core + Repeat(' ', b));
    DropRepeat(core, b);
  }

  /** Zeros and digits: no blank or sign at either end, and the same number. */
  predicate IsBody(body: seq<char>, n: nat, base: nat) {
    body != [] && body[|body| - 1] != ' ' && body[0] != ' ' && body[0] != '-' && body[0] != '+' && Read(body, base) == n
  }

  lemma BodyIs(n: nat, base: nat, up: bool, zeros: int)
    requires IsBase(base)
    ensures IsBody(Repeat('0', zeros) + Digits(n, base, up), n, base)
  {
    var digits := Digits(n, base, up);
    DigitsReadBack(n, base, up);
    ReadZeros(zeros, digits, base);
    var body := Repeat('0', zeros) + digits;
    assert body[|body| - 1] == digits[|digits| - 1];
    assert body[0] == if zeros > 0 then '0' else digits[0];
  }

  lemma DecodeCore(before: int, sign: seq<char>, body: seq<char>, after: int, n: nat, base: nat)
    requires IsBody(body, n, base) && (sign == [] || sign == "-" || sign == "+")
    ensures Decode(Repeat(' ', before) + (sign + body) + Repeat(' ', after), base) == if sign == "-" then 0 - n else n
  {
    var core := sign + body;
    assert core[|core| - 1] == body[|body| - 1];
    Stripped(before, core, after);
    if sign == [] { assert core == body; } else { assert core[1..] == body; }
  }

  lemma FieldParts(value: int, base: nat, min: int, precision: int, f: Flags)
    returns (before: int, sign: seq<char>, body: seq<char>, after: int)
    requires IsBase(base)
    ensures IsBody(body, Magnitude(value, f), base) && (sign == [] || sign == "-" || sign == "+")
    ensures sign == "-" <==> !f.unsigned && value < 0
    ensures Field(value, base, min, precision, f) == Repeat(' ', before) + (sign + body) + Repeat(' ', after)
  {
    var digits := Digits(Magnitude(value, f), base, f.up);
    var s := Sign(value, f);
    var blanks := BlankPad(|digits|, |s|, min, precision, f);
    var zeros := ZeroPad(|digits|, |s|, min, precision, f);
    body := Repeat('0', zeros) + digits;
    BodyIs(Magnitude(value, f), base, f.up, zeros);
    assert s + Repeat('0', zeros) + digits == s + body;
    FieldIs(Field(value, base, min, precision, f), s, body, blanks, f.minus);
    before := (if f.minus then 0 else blanks) + (if s == " " then 1 else 0);
    sign := if s == " " then [] else s;
    after := if f.minus then blanks else 0;
  }

  /** Every field reads back to its value, or to its value as unsigned. */
  lemma FieldReadsBack(value: int, base: nat, min: int, precision: int, f: Flags)
    requires IsBase(base)
    ensures Decode(Field(value, base, min, precision, f), base) == if f.unsigned then value % WORD else value
  {
    var before, sign, body, after := FieldParts(value, base, min, precision, f);
    DecodeCore(before, sign, body, after, Magnitude(value, f), base);
  }

  lemma FieldIs(field: seq<char>, sign: seq<char>, body: seq<char>, blanks: int, minus: bool)
    requires blanks >= 0 && |sign| <= 1
    requires field == if minus then sign + body + Repeat(' ', blanks) else Repeat(' ', blanks) + (sign + body)
    ensures field == Repeat(' ', (if minus then 0 else blanks) + (if sign == " " then 1 else 0))
                     + ((if sign == " " then [] else sign) + body) + Repeat(' ', if minus then blanks else 0)
  {
  }

  // ---------------------------------------------------------------------
  // What a field looks like
  // ---------------------------------------------------------------------

  lemma {:induction false} NoLeadingZero(n: nat, base: nat, up: bool)
    requires IsBase(base)
    ensures n > 0 ==> Digits(n, base, up)[0] != '0'
    ensures n == 0 ==> Digits(n, base, up) == "0"
    decreases n
  {
    if n >= base {
      NoLeadingZero(Quotient(n, base), base, up);
      assert Quotient(n, base) > 0;
    }
  }

  /** Letters are of one case. */
  predicate OneCase(s: seq<char>, up: bool) {
    forall k: nat | k < |s| :: if up then !('a' <= s[k] <= 'f') else !('A' <= s[k] <= 'F')
  }

  lemma {:induction false} DigitsCase(n: nat, base: nat, up: bool)
    requires IsBase(base)
    ensures OneCase(Digits(n, base, up), up)
    decreases n
  {
    if n < base {
      DigitCase(n, up);
    } else {
      DigitsCase(Quotient(n, base), base, up);
      DigitCase(Remainder(n, base), up);
      CaseJoin(Digits(Quotient(n, base), base, up), [DigitChar(Remainder(n, base), up)], up);
    }
  }

  lemma DigitCase(d: nat, up: bool)
    requires d < 16
    ensures OneCase([DigitChar(d, up)], up)
  {
  }

  lemma CaseJoin(a: seq<char>, b: seq<char>, up: bool)
    requires OneCase(a, up) && OneCase(b, up)
    ensures OneCase(a + b, up)
  {
  }

  /** The parts of a field: blanks on one side only, and none with the zero flag;
      the sign that is asked for; zeros up to the precision, or with the zero flag
      up to the width; the digits without leading zeros, letters of one case. */
  lemma {:induction false} FieldLayout(value: int, base: nat, min: int, precision: int, f: Flags)
    returns (before: nat, sign: seq<char>, zeros: nat, digits: seq<char>, after: nat)
    requires IsBase(base)
    ensures Field(value, base, min, precision, f) ==
            Repeat(' ', before) + sign + Repeat('0', zeros) + digits + Repeat(' ', after)
    ensures if f.minus then before == 0 else after == 0
    ensures f.zero ==> before == 0 && after == 0
    ensures sign == if f.unsigned then "" else if value < 0 then "-" else if f.plus then "+"
                    else if f.space then " " else ""
    ensures Read(digits, base) == if f.unsigned then value % WORD else if value < 0 then -value else value
    ensures |digits| > 0 && (|digits| > 1 ==> digits[0] != '0') && OneCase(digits, f.up)
    ensures
      var shown := Max(precision, |digits|);
      if f.zero then zeros == Max(shown - |digits|, min - shown - |sign|)
      else zeros + |digits| == shown && before + |sign| + shown + after == Max(min, |sign| + shown)
  {
    digits := Digits(Magnitude(value, f), base, f.up);
    sign := Sign(value, f);
    zeros := Max(ZeroPad(|digits|, |sign|, min, precision, f), 0);
    var blanks := BlankPad(|digits|, |sign|, min, precision, f);
    before := if f.minus then 0 else blanks;
    after := if f.minus then blanks else 0;
    DigitsReadBack(Magnitude(value, f), base, f.up);
    NoLeadingZero(Magnitude(value, f), base, f.up);
    DigitsCase(Magnitude(value, f), base, f.up);
    assert [] + sign == sign;
    assert sign + Repeat('0', zeros) + digits + [] == sign + Repeat('0', zeros) + digits;
    FieldOrder(Repeat(' ', blanks), sign, Repeat('0', zeros), digits);
  }

  lemma FieldOrder(blanks: seq<char>, sign: seq<char>, zeros: seq<char>, digits: seq<char>)
    ensures blanks + (sign + zeros + digits) == blanks + sign + zeros + digits + []
    ensures sign + zeros + digits + blanks == [] + sign + zeros + digits + blanks
  {
  }

  lemma {:induction false} FieldCase(value: int, base: nat, min: int, precision: int, f: Flags)
    requires IsBase(base)
    ensures OneCase(Field(value, base, min, precision, f), f.up)
  {
    var before, sign, zeros, digits, after := FieldLayout(value, base, min, precision, f);
    var a, b, c := Repeat(' ', before), Repeat('0', zeros), Repeat(' ', after);
    CaseJoin(a, sign, f.up);
    CaseJoin(a + sign, b, f.up);
    CaseJoin(a + sign + b, digits, f.up);
    CaseJoin(a + sign + b + digits, c, f.up);
  }
}
