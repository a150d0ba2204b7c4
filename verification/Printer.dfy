/** The formatter: integers and strings into an output stream, and the state
    machine that reads a format string. */
module Printer {
  import opened IntFormat
  import opened FormatGrammar
  import opened FormatStates
  import opened Sequences

  function Reverse(s: seq<char>): (r: seq<char>)
    ensures |r| == |s|
  {
    if s == [] then [] else [s[|s| - 1]] + Reverse(s[..|s| - 1])
  }

  const NO_FLAGS := Flags(false, false, false, false, false, false)

  class Output {
    var text: seq<char>
    var currlen: nat

    constructor ()
      ensures text == [] && currlen == 0
    {
      text, currlen := [], 0;
    }

    /** `t` has been printed since the state `was`. */
    twostate predicate Printed(t: seq<char>)
      reads this
    {
      text == old(text) + t && currlen == old(currlen) + |t|
    }

    method Outch(c: char)
      modifies this
      ensures Printed([c])
    {
      currlen := currlen + 1;
      text := text + [c];
    }

    /** The same character, `n` times. */
    method Pad(c: char, n: int)
      modifies this
      ensures Printed(Repeat(c, n))
    {
      var i := 0;
      while i < n
        invariant 0 <= i && (i <= n || i == 0) && Printed(Repeat(c, i))
      {
        Outch(c);
        i := i + 1;
      }
      if n < 0 { assert Repeat(c, n) == Repeat(c, 0); }
    }

    // -------------------------------------------------------------------
    // Integers
    // -------------------------------------------------------------------

    /** The digits, least significant first; the limit of 20 places is never met. */
    method Convert(value: nat, base: nat, caps: bool) returns (convert: array<char>, place: int)
      requires IsBase(base) && value < WORD
      ensures fresh(convert) && convert.Length == 20 && 0 <= place < 20
      ensures Reverse(convert[..place]) == Digits(value, base, caps) && |Digits(value, base, caps)| == place
    {
      convert := new char[20](i => '\0');
      WordDigits(value, base, caps);
      var uvalue := value;
      place := 0;
      while true
        invariant 0 <= place < 19 && convert.Length == 20
        invariant ToWrite(value, base, caps, uvalue, convert[..place])
        decreases uvalue
      {
        ghost var before := convert[..place];
        convert[place] := DigitChar(Remainder(uvalue, base), caps);
        assert convert[..place + 1] == before + [DigitChar(Remainder(uvalue, base), caps)];
        NextPlace(value, uvalue, base, caps, before, convert[..place + 1]);
        place := place + 1;
        uvalue := Quotient(uvalue, base);
        if uvalue == 0 || place >= 20 { break; }
      }
      if place == 20 { place := place - 1; }
      convert[place] := '\0';
    }

    method FmtInt(value: int, base: nat, min: int, precision: int, flags: Flags)
      requires IsBase(base) && -HALF <= value < HALF
      modifies this
      ensures Printed(Field(value, base, min, precision, flags))
    {
      var max := if precision < 0 then 0 else precision;
      var signvalue, uvalue := SignOf(value, flags);
      var convert, place := Convert(uvalue, base, flags.up);
      var spadlen, zpadlen := Pads(place, |signvalue|, min, max, flags);
      ghost var was := text;
      Emit(spadlen, signvalue, zpadlen, convert, place);
      SamePads(place, |signvalue|, min, precision, max, flags);
      FieldInOrder(value, base, min, precision, flags, was, spadlen, signvalue, zpadlen,
        Digits(uvalue, base, flags.up), text);
    }

    /** The sign to print, and the magnitude or the value as unsigned. */
    method SignOf(value: int, flags: Flags) returns (signvalue: seq<char>, uvalue: nat)
      requires -HALF <= value < HALF
      ensures signvalue == Sign(value, flags) && |signvalue| <= 1 && uvalue == Magnitude(value, flags) && uvalue < WORD
    {
      signvalue := [];
      uvalue := value % WORD;
      if !flags.unsigned {
        if value < 0 {
          signvalue := "-";
          uvalue := -value;
        } else if flags.plus {
          signvalue := "+";
        } else if flags.space {
          signvalue := " ";
        }
      }
    }

    /** Blanks, sign, zeros, digits, and blanks at the end where `spadlen` is negative. */
    method Emit(spadlen: int, signvalue: seq<char>, zpadlen: nat, convert: array<char>, place: nat)
      requires place <= convert.Length && |signvalue| <= 1
      modifies this
      ensures Printed(Repeat(' ', spadlen) + signvalue + Repeat('0', zpadlen) + Reverse(convert[..place])
              + Repeat(' ', -spadlen))
    {
      ghost var was := text;
      Pad(' ', spadlen);
      if signvalue != [] { Outch(signvalue[0]); }
      assert text == was + Repeat(' ', spadlen) + signvalue;
      Pad('0', zpadlen);
      ghost var before := text;
      EmitBackwards(convert, place);
      Pad(' ', -spadlen);
      InOrder(was, Repeat(' ', spadlen), signvalue, Repeat('0', zpadlen), before, Reverse(convert[..place]),
        Repeat(' ', -spadlen), text);
    }

    /** How many blanks go before (or, negative, after) and how many zeros. */
    method Pads(place: nat, sign: nat, min: int, max: nat, flags: Flags) returns (spadlen: int, zpadlen: nat)
      ensures zpadlen == ZeroPad(place, sign, min, max, flags)
      ensures spadlen == if flags.minus then -BlankPad(place, sign, min, max, flags)
              else BlankPad(place, sign, min, max, flags)
    {
      var zeros := max - place;
      spadlen := min - Max(max, place) - sign;
      if zeros < 0 { zeros := 0; }
      if spadlen < 0 { spadlen := 0; }
      if flags.zero {
        zeros := Max(zeros, spadlen);
        spadlen := 0;
      }
      if flags.minus { spadlen := -spadlen; }
      zpadlen := zeros;
    }

    /** The converted digits, the last one first. */
    method EmitBackwards(convert: array<char>, from: nat)
      requires from <= convert.Length
      modifies this
      ensures Printed(Reverse(convert[..from]))
    {
      var place := from;
      while place > 0
        invariant 0 <= place <= from
        invariant text + Reverse(convert[..place]) == old(text) + Reverse(convert[..from])
        invariant currlen + place == old(currlen) + from
      {
        place := place - 1;
        assert convert[..place + 1][..place] == convert[..place];
        Outch(convert[place]);
      }
    }

    // -------------------------------------------------------------------
    // Strings
    // -------------------------------------------------------------------

    method FmtStr(value: Text, flags: Flags, min: int, max: int)
      modifies this
      ensures Printed(StringField(Shown(value), min, max, flags.minus))
    {
      var s := Shown(value);
      var padlen := min - |s|;
      if padlen < 0 { padlen := 0; }
      if flags.minus { padlen := -padlen; }
      ghost var was := text;
      var cnt := Blanks(padlen, 0, max);
      cnt := Chars(s, cnt, max);
      ghost var n := Max(Least(|s|, max - Max(Least(padlen, max), 0)), 0);
      assert text == was + Repeat(' ', Least(padlen, max)) + s[..n];
      cnt := Blanks(-padlen, cnt, max);
      StringInOrder(s, min, max, flags.minus, was, padlen, n, text);
    }

    /** `padlen` blanks, if positive, while fewer than `max` characters are out. */
    method Blanks(padlen: int, cnt: nat, max: int) returns (cnt': nat)
      modifies this
      ensures Printed(Repeat(' ', Least(padlen, max - cnt)))
      ensures cnt' == cnt + Max(Least(padlen, max - cnt), 0)
    {
      cnt' := cnt;
      var left := padlen;
      while left > 0 && cnt' < max
        invariant cnt <= cnt' && (cnt' == cnt || cnt' <= max) && left == padlen - (cnt' - cnt) &&
                  (cnt' == cnt || left >= 0)
        invariant Printed(Repeat(' ', cnt' - cnt))
        decreases left
      {
        Outch(' ');
        left := left - 1;
        cnt' := cnt' + 1;
      }
      if Least(padlen, max - cnt) < 0 { assert Repeat(' ', Least(padlen, max - cnt)) == Repeat(' ', 0); }
    }

    /** The string, while fewer than `max` characters are out. */
    method Chars(s: seq<char>, cnt: nat, max: int) returns (cnt': nat)
      modifies this
      ensures
        var n := Max(Least(|s|, max - cnt), 0);
        Printed(s[..n]) && cnt' == cnt + n
    {
      cnt' := cnt;
      var i := 0;
      while i < |s| && cnt' < max
        invariant 0 <= i <= |s| && cnt' == cnt + i && (i == 0 || cnt' <= max) && Printed(s[..i])
      {
        Outch(s[i]);
        i := i + 1;
        cnt' := cnt' + 1;
      }
    }

    // -------------------------------------------------------------------
    // The format reader
    // -------------------------------------------------------------------

    /** Print one argument as its conversion says; returns the next argument. */
    method Convert1(conv: char, flags: Flags, min: int, precision: int, args: nat -> Arg, a: nat, maxlen: nat)
      returns (next: nat)
      requires !Unsupported(conv)
      modifies this
      ensures Printed(Converter(maxlen)(conv, args(a), min, precision, flags))
      ensures next == a + if TakesArgument(conv) then 1 else 0
    {
      next := a + if conv in "diouxXpcs" then 1 else 0;
      var value := Signed(args(a).word);
      if conv == 'd' || conv == 'i' {
        FmtInt(value, 10, min, precision, flags);
      } else if conv == 'o' {
        FmtInt(value, 8, min, precision, flags.(unsigned := true));
      } else if conv == 'u' {
        FmtInt(value, 10, min, precision, flags.(unsigned := true));
      } else if conv == 'X' {
        FmtInt(value, 16, min, precision, flags.(unsigned := true, up := true));
      } else if conv == 'x' {
        FmtInt(value, 16, min, precision, flags.(unsigned := true));
      } else if conv == 'c' {
        Outch((args(a).word % 0x100) as char);
      } else if conv == 's' {
        FmtStr(args(a).text, flags, min, if precision < 0 then maxlen else precision);
      } else if conv == 'p' {
        FmtInt(value, 16, min, precision, flags);
      } else if conv == '%' {
        Outch(conv);
      }
    }

    /** One character, or one state, of a conversion before its last character. */
    method Scan(f: seq<char>, args: nat -> Arg, ghost p: nat, ghost a0: nat, state: State, k: nat, flags: Flags,
                min: int, max: int, a: nat)
      returns (state': State, k': nat, flags': Flags, min': int, max': int, a': nat)
      requires p <= |f| && k < |f| && At(f, args, p, a0, state, k, flags, min, max, a) && state != InConv
      ensures At(f, args, p, a0, state', k', flags', min', max', a') && k <= k' <= |f|
      ensures k' > k || Left(state') < Left(state)
    {
      state', k', flags', min', max', a' := state, k, flags, min, max, a;
      var ch := f[k];
      match state {
        case InFlags =>
          FlagStep(f, args, p, a0, k, flags, min, max, a);
          if IsFlag(ch) {
            flags' := AddFlag(flags, ch);
            k' := k + 1;
          } else {
            state' := InMin;
          }
        case InMin =>
          MinStep(f, args, p, a0, k, flags, min, max, a);
          if IsDigit(ch) {
            min' := 10 * min + (ch - '0') as int;
            k' := k + 1;
          } else if ch == '*' {
            min' := Signed(args(a).word);
            a', k', state' := a + 1, k + 1, InDot;
          } else {
            state' := InDot;
          }
        case InDot =>
          DotStep(f, args, p, a0, k, flags, min, max, a);
          if ch == '.' {
            k', state' := k + 1, InMax;
          } else {
            state' := InMod;
          }
        case InMax =>
          MaxStep(f, args, p, a0, k, flags, min, max, a);
          if IsDigit(ch) {
            if max < 0 { max' := 0; }
            max' := 10 * max' + (ch - '0') as int;
            k' := k + 1;
          } else if ch == '*' {
            max' := Signed(args(a).word);
            a', k', state' := a + 1, k + 1, InMod;
          } else {
            state' := InMod;
          }
        case InMod =>
          ModStep(f, args, p, a0, k, flags, min, max, a);
          if IsModifier(ch) { k' := k + 1; }
          state' := InConv;
      }
    }

    /** A character outside conversions. */
    method PlainStep(f: seq<char>, k: nat, args: nat -> Arg, ghost convert: Convert, a: nat, maxlen: nat,
                     ghost total: seq<char>)
      requires k < |f| && f[k] != '%' && currlen < maxlen
      requires Reading(f, args, convert, 0, 0, Default, k, NO_FLAGS, 0, -1, a, currlen, maxlen, text, total)
      modifies this
      ensures Reading(f, args, convert, 0, 0, Default, k + 1, NO_FLAGS, 0, -1, a, currlen, maxlen, text, total)
    {
      PrintPlain(f, k, args, convert, a, currlen, maxlen, text, total);
      Outch(f[k]);
    }

    /** The last character of a conversion. */
    method ConversionStep(f: seq<char>, args: nat -> Arg, ghost p: nat, ghost a0: nat, k: nat, flags: Flags, min: int,
                          max: int, a: nat, maxlen: nat, ghost convert: Convert, ghost total: seq<char>)
      returns (next: nat)
      requires convert == Converter(maxlen) && k < |f| && currlen < maxlen
      requires InConversion(f, args, p, a0, InConv, k, flags, min, max, a)
      requires ToPrint(f, p - 1, Shower(args, convert), a0, currlen, maxlen, text, total)
      modifies this
      ensures ToPrint(f, k + 1, Shower(args, convert), next, currlen, maxlen, text, total)
    {
      ghost var was, len := text, currlen;
      var item := Printable(f, args, p, a0, len, maxlen, k, flags, min, max, a, convert, was, total);
      next := Convert1(f[k], flags, min, max, args, a, maxlen);
      ghost var t := convert(f[k], args(a), min, max, flags);
      PrintNext(f, p, a0, len, maxlen, Shower(args, convert), k, item, next, t, was, total, text, currlen);
    }

    method ScanStep(f: seq<char>, args: nat -> Arg, ghost convert: Convert, ghost p: nat, ghost a0: nat, state: State,
                    k: nat, flags: Flags, min: int, max: int, a: nat, maxlen: nat, ghost total: seq<char>)
      returns (state': State, k': nat, flags': Flags, min': int, max': int, a': nat)
      requires k < |f| && state != InConv && state != Default && state != Done
      requires Reading(f, args, convert, p, a0, state, k, flags, min, max, a, currlen, maxlen, text, total)
      ensures k <= k' <= |f| && (k' > k || Left(state') < Left(state)) && state' != Default && state' != Done
      ensures Reading(f, args, convert, p, a0, state', k', flags', min', max', a', currlen, maxlen, text, total)
    {
      state', k', flags', min', max', a' := Scan(f, args, p, a0, state, k, flags, min, max, a);
    }

    /** One turn of the loop below: a character, or one state nearer to the
        conversion. */
    method Turn(f: seq<char>, args: nat -> Arg, ghost convert: Convert, ghost p: nat, ghost a0: nat, state: State,
                k: nat, flags: Flags, min: int, max: int, a: nat, maxlen: nat, ghost total: seq<char>)
      returns (state': State, k': nat, flags': Flags, min': int, max': int, a': nat, ghost p': nat, ghost a0': nat)
      requires convert == Converter(maxlen) && k < |f| && currlen < maxlen && state != Done &&
               Between(state, flags, min, max, p, a0)
      requires Reading(f, args, convert, p, a0, state, k, flags, min, max, a, currlen, maxlen, text, total)
      modifies this
      ensures k <= k' <= |f| && (k' > k || Left(state') < Left(state)) && state' != Done &&
              Between(state', flags', min', max', p', a0')
      ensures Reading(f, args, convert, p', a0', state', k', flags', min', max', a', currlen, maxlen, text, total)
    {
      state', k', flags', min', max', a', p', a0' := state, k, flags, min, max, a, p, a0;
      match state {
        case Default =>
          if f[k] == '%' {
            Enter(f, args, convert, k, a, currlen, maxlen, text, total);
            state', p', a0' := InFlags, k + 1, a;
          } else {
            PlainStep(f, k, args, convert, a, maxlen, total);
          }
          k' := k + 1;
        case InConv =>
          a' := ConversionStep(f, args, p, a0, k, flags, min, max, a, maxlen, convert, total);
          Resume(f, k + 1, args, convert, a', currlen, maxlen, text, total);
          k' := k + 1;
          state', flags', min', max', p', a0' := Default, NO_FLAGS, 0, -1, 0, 0;
        case _ =>
          state', k', flags', min', max', a' :=
            ScanStep(f, args, convert, p, a0, state, k, flags, min, max, a, maxlen, total);
      }
    }

    /** Print the arguments as the format says. */
    method Dopr(maxlen: nat, format: seq<char>, args: nat -> Arg)
      requires CString(format) && Supported(Parse(format, 0))
      modifies this
      ensures text == old(text) + Cut(Texts(Parse(format, 0), Shower(args, Converter(maxlen)), 0), 0, maxlen)
    {
      ghost var convert := Converter(maxlen);
      ghost var total := old(text) + Rest(format, 0, Shower(args, convert), 0, 0, maxlen);
      var state, flags, min, max := Default, NO_FLAGS, 0, -1;
      currlen := 0;
      var k: nat, a: nat := 0, 0;
      ghost var p: nat, a0: nat := 0, 0;
      while state != Done
        invariant k <= |format| && Between(state, flags, min, max, p, a0)
        invariant Reading(format, args, convert, p, a0, state, k, flags, min, max, a, currlen, maxlen, text, total)
        decreases |format| - k, Left(state)
      {
        CharEnds(format, k);
        if CharAt(format, k) == '\0' || currlen >= maxlen {
          Stop(format, args, convert, p, a0, state, k, flags, min, max, a, currlen, maxlen, text, total);
          state := Done;
        } else {
          state, k, flags, min, max, a, p, a0 :=
            Turn(format, args, convert, p, a0, state, k, flags, min, max, a, maxlen, total);
        }
      }
    }
  }

  /** What is printed and what is left from item position `k` on make up the total. */
  ghost predicate ToPrint(f: seq<char>, k: nat, show: (Item, nat) -> seq<char>, a: nat, len: nat, maxlen: nat,
                          text: seq<char>, total: seq<char>)
    requires k <= |f|
  {
    Supported(Parse(f, k)) && text + Rest(f, k, show, a, len, maxlen) == total
  }

  ghost predicate InConversion(f: seq<char>, args: nat -> Arg, p: nat, a0: nat, state: State, k: nat, flags: Flags,
                               min: int, max: int, a: nat) {
    0 < p <= k <= |f| && f[p - 1] == '%' && At(f, args, p, a0, state, k, flags, min, max, a)
  }

  ghost predicate Reading(f: seq<char>, args: nat -> Arg, convert: Convert, p: nat, a0: nat, state: State, k: nat,
                          flags: Flags, min: int, max: int, a: nat, len: nat, maxlen: nat, text: seq<char>,
                            total: seq<char>)
    requires k <= |f|
  {
    match state
    case Default => ToPrint(f, k, Shower(args, convert), a, len, maxlen, text, total)
    case Done => text == total
    case _ =>
      InConversion(f, args, p, a0, state, k, flags, min, max, a) &&
      ToPrint(f, p - 1, Shower(args, convert), a0, len, maxlen, text, total)
  }

  /** Between conversions the variables are as they were at first. */
  ghost predicate Between(state: State, flags: Flags, min: int, max: int, p: nat, a0: nat) {
    state == Default ==> flags == NO_FLAGS && min == 0 && max == -1 && p == 0 && a0 == 0
  }

  /** A percent sign. */
  lemma Enter(f: seq<char>, args: nat -> Arg, convert: Convert, k: nat, a: nat, len: nat, maxlen: nat, text: seq<char>,
              total: seq<char>)
    requires k < |f| && f[k] == '%' &&
             Reading(f, args, convert, 0, 0, Default, k, NO_FLAGS, 0, -1, a, len, maxlen, text, total)
    ensures Reading(f, args, convert, k + 1, a, InFlags, k + 1, NO_FLAGS, 0, -1, a, len, maxlen, text, total)
  {
    assert f[k + 1..k + 1] == [];
  }

  /** A format string without its terminating zero. */
  predicate CString(f: seq<char>) {
    forall k: nat | k < |f| :: f[k] != '\0'
  }

  lemma CharEnds(f: seq<char>, k: nat)
    requires CString(f)
    ensures CharAt(f, k) == '\0' <==> k >= |f|
  {
  }

  /** At the end of the format or of the room everything is printed. */
  lemma Stop(f: seq<char>, args: nat -> Arg, convert: Convert, p: nat, a0: nat, state: State, k: nat, flags: Flags,
             min: int, max: int, a: nat, len: nat, maxlen: nat, text: seq<char>, total: seq<char>)
    requires k <= |f| && (k == |f| || len >= maxlen) &&
             Reading(f, args, convert, p, a0, state, k, flags, min, max, a, len, maxlen, text, total)
    ensures text == total
  {
    match state
    case Default => RestNothing(f, k, Shower(args, convert), a, len, maxlen);
    case Done =>
    case _ =>
      if k == |f| { EndsInside(f, args, p, a0, state, flags, min, max, a); }
      RestNothing(f, p - 1, Shower(args, convert), a0, len, maxlen);
  }

  lemma PrintPlain(f: seq<char>, k: nat, args: nat -> Arg, convert: Convert, a: nat, len: nat, maxlen: nat,
                   text: seq<char>, total: seq<char>)
    requires k < |f| && f[k] != '%' && len < maxlen && ToPrint(f, k, Shower(args, convert), a, len, maxlen, text, total)
    ensures ToPrint(f, k + 1, Shower(args, convert), a, len + 1, maxlen, text + [f[k]], total)
  {
    SupportedPlain(f, k);
    RestPlain(f, k, Shower(args, convert), a, len, maxlen);
  }

  /** Between conversions. */
  lemma Resume(f: seq<char>, k: nat, args: nat -> Arg, convert: Convert, a: nat, len: nat, maxlen: nat,
               text: seq<char>, total: seq<char>)
    requires k <= |f| && ToPrint(f, k, Shower(args, convert), a, len, maxlen, text, total)
    ensures Reading(f, args, convert, 0, 0, Default, k, NO_FLAGS, 0, -1, a, len, maxlen, text, total)
  {
  }

  /** At its last character a conversion is one that is supported, and what it
      prints is known. */
  lemma Printable(f: seq<char>, args: nat -> Arg, p: nat, a0: nat, len: nat, maxlen: nat, k: nat, flags: Flags,
                  min: int, max: int, a: nat, convert: Convert, text: seq<char>, total: seq<char>) returns (item: Item)
    requires k < |f| && InConversion(f, args, p, a0, InConv, k, flags, min, max, a)
    requires ToPrint(f, p - 1, Shower(args, convert), a0, len, maxlen, text, total)
    ensures !Unsupported(f[k]) && ConversionAt(f, p) == Got((item, k + 1)) && item.Conversion? && item.conv == f[k]
    ensures a0 + ItemArgs(item) == a + if TakesArgument(f[k]) then 1 else 0
    ensures Shower(args, convert)(item, a0) == convert(f[k], args(a), min, max, flags)
  {
    item := ConversionKnown(f, args, p, a0, convert, k, flags, min, max, a);
    ConversionSupported(f, p, k, item);
  }

  /** Printing a conversion leaves what comes after it. */
  lemma PrintNext(f: seq<char>, p: nat, a0: nat, len: nat, maxlen: nat, show: (Item, nat) -> seq<char>, k: nat,
                  item: Item, a: nat, t: seq<char>, text: seq<char>, total: seq<char>, text': seq<char>, len': nat)
    requires 0 < p <= |f| && k < |f| && f[p - 1] == '%' && len < maxlen && ConversionAt(f, p) == Got((item, k + 1))
    requires item.Conversion? && item.conv == f[k] && t == show(item, a0) && a == a0 + ItemArgs(item)
    requires ToPrint(f, p - 1, show, a0, len, maxlen, text, total) && text' == text + t && len' == len + |t|
    ensures ToPrint(f, k + 1, show, a, len', maxlen, text', total)
  {
    ConversionSupported(f, p, k, item);
    RestConversion(f, p, show, a0, len, maxlen, item, k + 1, a, t);
    Regroup(text, t, Rest(f, k + 1, show, a, len', maxlen));
  }

  lemma SamePads(digits: nat, sign: nat, min: int, precision: int, max: nat, f: Flags)
    requires max == if precision < 0 then 0 else precision
    ensures ZeroPad(digits, sign, min, max, f) == ZeroPad(digits, sign, min, precision, f)
    ensures BlankPad(digits, sign, min, max, f) == BlankPad(digits, sign, min, precision, f)
  {
  }

  lemma FieldInOrder(value: int, base: nat, min: int, precision: int, f: Flags, was: seq<char>, spad: int,
                     sign: seq<char>, zpad: nat, digits: seq<char>, now: seq<char>)
    requires IsBase(base) && sign == Sign(value, f) && digits == Digits(Magnitude(value, f), base, f.up)
    requires zpad == ZeroPad(|digits|, |sign|, min, precision, f)
    requires spad == if f.minus then -BlankPad(|digits|, |sign|, min, precision, f)
             else BlankPad(|digits|, |sign|, min, precision, f)
    requires now == was + (Repeat(' ', spad) + sign + Repeat('0', zpad) + digits + Repeat(' ', -spad))
    ensures now == was + Field(value, base, min, precision, f)
    ensures |Repeat(' ', spad) + sign + Repeat('0', zpad) + digits + Repeat(' ', -spad)| ==
            |Field(value, base, min, precision, f)|
  {
    var blanks := BlankPad(|digits|, |sign|, min, precision, f);
    var zeros := Repeat('0', zpad);
    if f.minus {
      Blankless(spad);
      Behind(sign, zeros, digits, Repeat(' ', blanks));
    } else {
      Blankless(-spad);
      Ahead(Repeat(' ', blanks), sign, zeros, digits);
    }
  }

  lemma Behind(a: seq<char>, b: seq<char>, c: seq<char>, d: seq<char>)
    ensures [] + a + b + c + d == (a + b + c) + d
  {
  }

  lemma Ahead(a: seq<char>, b: seq<char>, c: seq<char>, d: seq<char>)
    ensures a + b + c + d + [] == a + (b + c + d)
  {
  }

  lemma InOrder(was: seq<char>, a: seq<char>, b: seq<char>, c: seq<char>, m: seq<char>, d: seq<char>, e: seq<char>,
                now: seq<char>)
    requires m == was + a + b + c && now == m + d + e
    ensures now == was + (a + b + c + d + e) && |now| == |was| + |a| + |b| + |c| + |d| + |e|
  {
  }

  lemma StringInOrder(s: seq<char>, min: int, max: int, minus: bool, was: seq<char>, padlen: int, n: nat,
                      now: seq<char>)
    requires padlen == if minus then -Max(min - |s|, 0) else Max(min - |s|, 0)
    requires n == Max(Least(|s|, max - Max(Least(padlen, max), 0)), 0)
    requires now == was + Repeat(' ', Least(padlen, max)) + s[..n]
             + Repeat(' ', Least(-padlen, max - Max(Least(padlen, max), 0) - n))
    ensures now == was + StringField(s, min, max, minus)
  {
    var f := StringField(s, min, max, minus);
    var m := Max(max, 0);
    if minus {
      Blankless(Least(padlen, max));
      assert n == Least(|s|, m);
      Clipped(Least(-padlen, max - n), Least(-padlen, m - n));
      assert f == s[..n] + Repeat(' ', Least(-padlen, m - n));
    } else {
      Clipped(Least(padlen, max), Least(padlen, m));
      assert n == Least(|s|, m - Least(padlen, m));
      Blankless(Least(-padlen, max - Max(Least(padlen, max), 0) - n));
      assert f == Repeat(' ', Least(padlen, m)) + s[..n];
    }
  }

  lemma Blankless(n: int)
    requires n <= 0
    ensures Repeat(' ', n) == []
  {
  }

  lemma Clipped(a: int, b: int)
    requires a == b || (a <= 0 && b <= 0)
    ensures Repeat(' ', a) == Repeat(' ', b)
  {
  }

  lemma SmallQuotient(u: nat, base: nat)
    requires IsBase(base)
    ensures u < base <==> Quotient(u, base) == 0
    ensures u < base ==> Remainder(u, base) == u
  {
  }

  /** The digits of `u` and those written, least significant first, are all digits. */
  ghost predicate ToWrite(value: nat, base: nat, up: bool, u: nat, written: seq<char>)
    requires IsBase(base)
  {
    Digits(value, base, up) == Digits(u, base, up) + Reverse(written)
  }

  lemma NextPlace(value: nat, u: nat, base: nat, up: bool, before: seq<char>, after: seq<char>)
    requires IsBase(base) && after == before + [DigitChar(Remainder(u, base), up)]
    requires ToWrite(value, base, up, u, before)
    ensures |after| <= |Digits(value, base, up)|
    ensures if Quotient(u, base) == 0 then Digits(value, base, up) == Reverse(after)
            else Quotient(u, base) < u && |after| < |Digits(value, base, up)| &&
                 ToWrite(value, base, up, Quotient(u, base), after)
  {
    var c := DigitChar(Remainder(u, base), up);
    var d := HighDigits(u, base, up);
    MoveDigit(Digits(value, base, up), d, c, Digits(u, base, up), before, after);
  }

  /** The digits before the last one, if there are any. */
  lemma HighDigits(u: nat, base: nat, up: bool) returns (d: seq<char>)
    requires IsBase(base)
    ensures Quotient(u, base) < u || u == 0
    ensures if Quotient(u, base) == 0 then d == [] else d == Digits(Quotient(u, base), base, up) && |d| > 0
    ensures Digits(u, base, up) == d + [DigitChar(Remainder(u, base), up)]
  {
    SmallQuotient(u, base);
    d := if Quotient(u, base) == 0 then [] else Digits(Quotient(u, base), base, up);
  }

  /** Writing the last digit down. */
  lemma MoveDigit(all: seq<char>, d: seq<char>, c: char, left: seq<char>, before: seq<char>, after: seq<char>)
    requires all == left + Reverse(before) && left == d + [c] && after == before + [c]
    ensures all == d + Reverse(after) && (d == [] ==> all == Reverse(after))
  {
    assert Reverse(after) == [c] + Reverse(before) by { assert after[..|after| - 1] == before; }
    Regroup(d, [c], Reverse(before));
    assert [] + Reverse(after) == Reverse(after);
  }
}
