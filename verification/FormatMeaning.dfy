/** What a directive of a format string means and what its field looks like (lib/bsp/printf.c), without the functions
    that the interpreter is specified by. */
module FormatMeaning {
  import opened Numerals
  import opened Fields
  import opened Format

  // ----- reading a directive -----

  predicate IsFlag(ch: char) { ch == '-' || ch == '0' || ch == '#' }

  /** fmt[at..end] is the maximal run of flags. */
  predicate FlagRun(fmt: string, at: nat, end: nat) {
    && at <= end <= |fmt| && (forall i :: at <= i < end ==> IsFlag(fmt[i])) && !IsFlag(CharAt(fmt, end))
  }

  /** Where a width or a precision comes from. */
  datatype Amount = Absent | FromArgument(n: int) | Numeral(n: int)

  /** fmt[at..end] is an asterisk, or the maximal run of what the printer takes for decimal digits, or nothing. */
  predicate AmountAt(fmt: string, at: nat, end: nat, args: seq<Arg>, arg: nat, a: Amount) {
    && at <= end <= |fmt|
    && var ch := CharAt(fmt, at);
       if ch == '*' then
         end == at + 1 && a == FromArgument(ToInt32(WordArg(args, arg)))
       else if '0' <= ch <= '9' then
         && (forall i :: at <= i < end ==> Accepts(fmt[i], 10)) && !Accepts(CharAt(fmt, end), 10)
         && a == Numeral(ToInt32(TextValue(fmt[at..end], 10) % TWO32))
       else
         end == at && a == Absent
  }

  function Stars(a: Amount): nat { if a.FromArgument? then 1 else 0 }

  /** A directive: flags, width, and a precision behind a period. */
  datatype Parts = Parts(flags: nat, width: nat, prec: nat, wide: Amount, precise: Amount)

  predicate IsParted(fmt: string, at: nat, args: seq<Arg>, arg: nat, x: Parts) {
    && FlagRun(fmt, at, x.flags)
    && AmountAt(fmt, x.flags, x.width, args, arg, x.wide)
    && (if CharAt(fmt, x.width) == '.' then AmountAt(fmt, x.width + 1, x.prec, args, arg + Stars(x.wide), x.precise)
        else x.prec == x.width && x.precise == Absent)
  }

  lemma {:induction false} FlagsMeaning(fmt: string, at: nat, p: Param)
    requires at <= |fmt|
    ensures var c := Flags(fmt, at, p);
            && FlagRun(fmt, at, c.at) && c.arg == 0
            && var given := fmt[at..c.at];
               var left := p.alignLeft || '-' in given;
               c.p == p.(alignLeft := left, alt := p.alt || '#' in given, lz := (p.lz || '0' in given) && !left)
    decreases |fmt| - at
  {
    var ch := CharAt(fmt, at);
    if IsFlag(ch) {
      var q := if ch == '-' then p.(alignLeft := true) else if ch == '0' then p.(lz := true) else p.(alt := true);
      FlagsMeaning(fmt, at + 1, q);
      var c := Flags(fmt, at, p);
      assert fmt[at..c.at] == [ch] + fmt[at + 1..c.at];
    } else {
      assert fmt[at..at] == "";
    }
  }

  lemma NulIsNotAccepted()
    ensures !Accepts('\0', 10)
  {
  }

  lemma WidthMeaning(fmt: string, c: Cursor, args: seq<Arg>) returns (a: Amount)
    requires c.at <= |fmt|
    ensures var r := Width(fmt, c, args);
            && AmountAt(fmt, c.at, r.at, args, c.arg, a) && r.arg == c.arg + Stars(a)
            && r.p == match a
               case Absent => c.p
               case FromArgument(n) => if n < 0 then c.p.(alignLeft := true, width := -n) else c.p.(width := n)
               case Numeral(n) => c.p.(width := n)
  {
    hide TextValue, ToInt32, Run, Accepts;
    NulIsNotAccepted();
    var ch := CharAt(fmt, c.at);
    a := if ch == '*' then FromArgument(ToInt32(WordArg(args, c.arg)))
         else if IsDigit(ch) then Numeral(ReadInt(fmt, c.at)) else Absent;
  }

  lemma PrecisionMeaning(fmt: string, c: Cursor, args: seq<Arg>) returns (a: Amount)
    requires c.at <= |fmt|
    ensures var r := Precision(fmt, c, args);
            && r.arg == c.arg + Stars(a)
            && (if CharAt(fmt, c.at) == '.' then AmountAt(fmt, c.at + 1, r.at, args, c.arg, a) else r.at == c.at && a == Absent)
            && r.p == if CharAt(fmt, c.at) != '.' then c.p
                      else match a
                        case Absent => c.p.(prec := 0)
                        case FromArgument(n) => c.p.(prec := if n < 0 then -1 else n)
                        case Numeral(n) => c.p.(prec := n)
  {
    hide TextValue, ToInt32, Run, Accepts;
    NulIsNotAccepted();
    var ch := CharAt(fmt, c.at + 1);
    a := if CharAt(fmt, c.at) != '.' then Absent
         else if ch == '*' then FromArgument(ToInt32(WordArg(args, c.arg)))
         else if IsDigit(ch) then Numeral(ReadInt(fmt, c.at + 1)) else Absent;
  }

  lemma LengthMeaning(fmt: string, at: nat)
    requires at <= |fmt|
    ensures var long := CharAt(fmt, at) == 'z' || CharAt(fmt, at) == 'l';
            LengthEnd(fmt, at) == at + (if !long then 0
                                        else if CharAt(fmt, at) == 'l' && CharAt(fmt, at + 1) == 'l' then 2 else 1)
  {
  }

  /** What the interpreter reads between '%' and the conversion character. */
  lemma DirectiveMeaning(fmt: string, at: nat, args: seq<Arg>, arg: nat) returns (x: Parts)
    requires at <= |fmt|
    ensures IsParted(fmt, at, args, arg, x)
    ensures var d, given := Parse(fmt, at, args, arg), fmt[at..x.flags];
            && (d.p.alt <==> '#' in given)
            && (d.p.alignLeft <==> '-' in given || (x.wide.FromArgument? && x.wide.n < 0))
            && (d.p.lz <==> '0' in given && '-' !in given && d.p.prec < 0)
            && d.p.width == (match x.wide case Absent => 0 case FromArgument(n) => Magnitude(n) case Numeral(n) => n)
            && d.p.prec == (if CharAt(fmt, x.width) != '.' then -1
                            else match x.precise
                              case Absent => 0
                              case FromArgument(n) => if n < 0 then -1 else n
                              case Numeral(n) => n)
            && !d.p.uc && !d.p.negative
            && (d.long <==> CharAt(fmt, x.prec) == 'z' || CharAt(fmt, x.prec) == 'l')
            && d.at == x.prec + (if !d.long then 0
                                 else if CharAt(fmt, x.prec) == 'l' && CharAt(fmt, x.prec + 1) == 'l' then 2 else 1)
            && d.arg == arg + Stars(x.wide) + Stars(x.precise)
  {
    hide ToInt32, AmountAt, FlagRun, Parse, Flags, Width, Precision, LengthEnd;
    FlagsMeaning(fmt, at, PLAIN);
    var f := Flags(fmt, at, PLAIN).(arg := arg);
    var wide := WidthMeaning(fmt, f, args);
    var w := Width(fmt, f, args);
    var precise := PrecisionMeaning(fmt, w, args);
    var r := Precision(fmt, w, args);
    LengthMeaning(fmt, r.at);
    ParseIs(fmt, at, args, arg);
    x := Parts(f.at, w.at, r.at, wide, precise);
    var given := fmt[at..f.at];
    Composed('-' in given, '0' in given, '#' in given, wide, CharAt(fmt, w.at) == '.', precise);
  }

  lemma ParseIs(fmt: string, at: nat, args: seq<Arg>, arg: nat)
    requires at <= |fmt|
    ensures var r := Precision(fmt, Width(fmt, Flags(fmt, at, PLAIN).(arg := arg), args), args);
            Parse(fmt, at, args, arg)
            == Directive(Settled(r).p, LengthEnd(fmt, r.at) > r.at, LengthEnd(fmt, r.at), r.arg)
  {
    hide Flags, Width, Precision, LengthEnd;
  }

  function Flagged(left: bool, zero: bool, alt: bool): Param {
    PLAIN.(alignLeft := left, alt := alt, lz := zero && !left)
  }

  function Widened(p: Param, a: Amount): Param {
    match a
    case Absent => p
    case FromArgument(n) => if n < 0 then p.(alignLeft := true, width := -n) else p.(width := n)
    case Numeral(n) => p.(width := n)
  }

  function Precise(p: Param, dot: bool, a: Amount): Param {
    if !dot then p
    else match a
      case Absent => p.(prec := 0)
      case FromArgument(n) => p.(prec := if n < 0 then -1 else n)
      case Numeral(n) => p.(prec := n)
  }

  /** The parameters after flags, width, precision and the rule that a precision switches zero filling off. */
  lemma Composed(left: bool, zero: bool, alt: bool, wide: Amount, dot: bool, precise: Amount)
    ensures var r := Precise(Widened(Flagged(left, zero, alt), wide), dot, precise);
            var p := if r.prec >= 0 then r.(lz := false) else r;
            && p.alt == alt && p.alignLeft == (left || (wide.FromArgument? && wide.n < 0))
            && p.lz == (zero && !left && p.prec < 0)
            && p.width == (match wide case Absent => 0 case FromArgument(n) => Magnitude(n) case Numeral(n) => n)
            && p.prec == (if !dot then -1
                          else match precise
                            case Absent => 0
                            case FromArgument(n) => if n < 0 then -1 else n
                            case Numeral(n) => n)
            && !p.uc && !p.negative
  {
  }

  // ----- fields -----

  /** A field: head (sign and prefix), `zeros` zeros and the text, filled up to the width on the left with spaces, or
      behind the head with zeros, or on the right with spaces. */
  predicate IsField(out: string, left: bool, zeroFill: bool, width: int, head: string, zeros: nat, text: string) {
    var n := Max(width - |head| - zeros - |text|, 0);
    out == if zeroFill then head + Repeat('0', zeros + n) + text
           else if left then head + Repeat('0', zeros) + text + Repeat(' ', n)
           else Repeat(' ', n) + head + Repeat('0', zeros) + text
  }

  function Head(negative: bool, prefix: string): string { (if negative then "-" else "") + prefix }

  lemma RepeatSum(c: char, m: int, n: int)
    ensures Repeat(c, Max(m, 0) + Max(n, 0)) == Repeat(c, m) + Repeat(c, n)
    ensures Repeat(c, Max(m, 0)) == Repeat(c, m)
  {
  }

  lemma LayoutIsField(p: Param, text: string)
    requires CString(text) == text
    ensures IsField(Layout(p, text), p.alignLeft, p.lz, p.width,
                    Head(p.negative, if p.alt && p.base == 16 then (if p.uc then "0X" else "0x")
                                     else if p.alt && p.base == 8 then "0" else ""),
                    Max(p.prec - |text|, 0), text)
  {
    hide *;
    var pad, fill := Pad(p, text), p.prec - |text|;
    var head := Sign(p) + Prefix(p);
    HeadAndPad(p, text);
    FieldPieces(p, head, pad, fill, text);
    FieldShape(Layout(p, text), p.alignLeft, p.lz, p.width, head, fill, pad, text);
  }

  lemma HeadAndPad(p: Param, text: string)
    ensures Sign(p) + Prefix(p) == Head(p.negative, if p.alt && p.base == 16 then (if p.uc then "0X" else "0x")
                                                    else if p.alt && p.base == 8 then "0" else "")
    ensures Pad(p, text) == p.width - |Sign(p) + Prefix(p)| - Max(p.prec - |text|, 0) - |text|
  {
  }

  lemma FieldShape(out: string, left: bool, zeroFill: bool, width: int, head: string, fill: int, pad: int, text: string)
    requires pad == width - |head| - Max(fill, 0) - |text|
    requires out == if zeroFill then head + (Repeat('0', fill) + Repeat('0', pad)) + text
                    else if left then head + Repeat('0', fill) + text + Repeat(' ', pad)
                    else Repeat(' ', pad) + head + Repeat('0', fill) + text
    ensures IsField(out, left, zeroFill, width, head, Max(fill, 0), text)
  {
    RepeatSum('0', fill, pad);
    RepeatSum(' ', pad, 0);
    hide Repeat;
  }

  lemma FieldPieces(p: Param, head: string, pad: int, fill: int, text: string)
    requires head == Sign(p) + Prefix(p) && pad == Pad(p, text) && fill == p.prec - |text| && CString(text) == text
    ensures Layout(p, text)
         == if p.lz then head + (Repeat('0', fill) + Repeat('0', pad)) + text
            else if p.alignLeft then head + Repeat('0', fill) + text + Repeat(' ', pad)
            else Repeat(' ', pad) + head + Repeat('0', fill) + text
  {
    hide Sign, Prefix, Pad, CString, Repeat;
    var z, s := Repeat('0', pad), Repeat(' ', pad);
    assert "" + head == head && "" + head + Repeat('0', fill) == head + Repeat('0', fill);
    if p.lz {
      assert head + Repeat('0', fill) + z + text + "" == head + (Repeat('0', fill) + z) + text;
    } else if p.alignLeft {
      assert head + Repeat('0', fill) + "" + text + s == head + Repeat('0', fill) + text + s;
    } else {
      assert s + head + Repeat('0', fill) + "" + text + "" == s + head + Repeat('0', fill) + text;
    }
  }

  // ----- conversions -----

  predicate IsNumber(conv: char) {
    conv == 'd' || conv == 'i' || conv == 'u' || conv == 'x' || conv == 'X' || conv == 'o' || conv == 'p'
  }

  /** The number that a conversion prints. */
  function NumberOf(d: Directive, conv: char, args: seq<Arg>): int {
    if conv == 'd' || conv == 'i' then SignedArg(args, d.arg, d.long)
    else Unsigned(args, d.arg, if conv == 'p' then true else if conv == 'o' then false else d.long)
  }

  /** The number is the argument, reduced to the values of its type: %d and %i take an int or a long, %o an unsigned
      int, %p an unsigned long and the others an unsigned int or long. */
  lemma ArgumentMeaning(d: Directive, conv: char, args: seq<Arg>)
    ensures var n, long := NumberOf(d, conv, args), if conv == 'p' then true else d.long && conv != 'o';
            if conv == 'd' || conv == 'i' then
              if d.long then
                -0x8000_0000_0000_0000 <= n < 0x8000_0000_0000_0000
                && (n - WordArg(args, d.arg)) % 0x1_0000_0000_0000_0000 == 0
              else -0x8000_0000 <= n < 0x8000_0000 && (n - WordArg(args, d.arg)) % 0x1_0000_0000 == 0
            else if long then
              0 <= n < 0x1_0000_0000_0000_0000 && (n - WordArg(args, d.arg)) % 0x1_0000_0000_0000_0000 == 0
            else 0 <= n < 0x1_0000_0000 && (n - WordArg(args, d.arg)) % 0x1_0000_0000 == 0
  {
    hide WordArg;
    var w := WordArg(args, d.arg);
    Reduced32(w, w % TWO32);
    Reduced64(w, w % TWO64);
    Reduced32(w, w % TWO32 - TWO32);
    Reduced64(w, w % TWO64 - TWO64);
  }

  lemma Reduced32(w: int, n: int)
    requires n == w % TWO32 || n == w % TWO32 - TWO32
    ensures (n - w) % TWO32 == 0
  {
  }

  lemma Reduced64(w: int, n: int)
    requires n == w % TWO64 || n == w % TWO64 - TWO64
    ensures (n - w) % TWO64 == 0
  {
  }

  function BaseOf(conv: char): nat {
    if conv == 'x' || conv == 'X' || conv == 'p' then 16 else if conv == 'o' then 8 else 10
  }

  function PrefixOf(conv: char, alt: bool): string {
    if conv == 'p' || (conv == 'x' && alt) then "0x"
    else if conv == 'X' && alt then "0X" else if conv == 'o' && alt then "0" else ""
  }

  /** The digits: a canonical numeral in lower case, or in upper case for %X, and nothing for 0 with precision 0. */
  predicate IsNumeral(s: string, n: nat, base: nat, prec: int, upper: bool)
    requires base >= 2
  {
    if n == 0 && prec == 0 then s == ""
    else
      |s| > 0 && TextValue(s, base) == n && (|s| > 1 ==> s[0] != '0') && InCase(s, upper)
  }

  lemma DigitCharCase(d: nat, uc: bool)
    requires d < 16
    ensures var c := DigitChar(d, uc); '0' <= c <= '9' || (if uc then 'A' <= c <= 'F' else 'a' <= c <= 'f')
    ensures DigitChar(d, uc) == '0' <==> d == 0
  {
  }

  lemma PrintedIsNumeral(n: nat, prec: int, base: nat, uc: bool)
    requires 2 <= base <= 16
    ensures IsNumeral(Printed(n, prec, base, uc), n, base, prec, uc)
  {
    PrintedIsPlain(n, prec, base, uc);
    DigitsAreCanonical(n, base);
    var ds := Digits(n, base);
    hide Digits, TextValue, DigitChar, Plain, CString, Value;
    CharsCase(ds, uc);
    hide Chars;
  }

  predicate InCase(s: string, upper: bool) {
    forall i :: 0 <= i < |s| ==> '0' <= s[i] <= '9' || (if upper then 'A' <= s[i] <= 'F' else 'a' <= s[i] <= 'f')
  }

  lemma CharsCase(ds: seq<nat>, uc: bool)
    requires ds != [] && forall i :: 0 <= i < |ds| ==> ds[i] < 16
    ensures InCase(Chars(ds, uc), uc) && (Chars(ds, uc)[0] == '0' <==> ds[0] == 0)
  {
    forall i | 0 <= i < |ds|
      ensures var c := DigitChar(ds[i], uc); '0' <= c <= '9' || (if uc then 'A' <= c <= 'F' else 'a' <= c <= 'f')
      ensures DigitChar(ds[i], uc) == '0' <==> ds[i] == 0
    {
      DigitCharCase(ds[i], uc);
    }
  }

  /** A numeric conversion prints a field with its sign, its prefix and its digits. */
  lemma NumberMeaning(d: Directive, conv: char, args: seq<Arg>, base: nat) returns (digits: string)
    requires IsNumber(conv) && !d.p.negative && !d.p.uc
    ensures var c, n := Convert(d, conv, args, base), NumberOf(d, conv, args);
            var prec := if d.p.prec < 0 then 1 else d.p.prec;
            && c.used == 1 && c.base == BaseOf(conv)
            && IsNumeral(digits, Magnitude(n), BaseOf(conv), prec, conv == 'X')
            && IsField(c.text, d.p.alignLeft, d.p.lz, d.p.width, Head(n < 0, PrefixOf(conv, d.p.alt)),
                       Max(prec - |digits|, 0), digits)
  {
    hide IsField, IsNumeral, Layout, CString, Printed;
    var n := NumberOf(d, conv, args);
    var prec := if d.p.prec < 0 then 1 else d.p.prec;
    var p := d.p.(base := BaseOf(conv), negative := n < 0, prec := prec, uc := conv == 'X',
                  alt := d.p.alt || conv == 'p');
    digits := Printed(Magnitude(n), prec, BaseOf(conv), conv == 'X');
    PrintedIsPlain(Magnitude(n), prec, BaseOf(conv), conv == 'X');
    PrintedIsNumeral(Magnitude(n), prec, BaseOf(conv), conv == 'X');
    LayoutIsField(p, digits);
    ConvertIsLayout(d, conv, args, base, p, digits);
  }

  lemma ConvertIsLayout(d: Directive, conv: char, args: seq<Arg>, base: nat, p: Param, digits: string)
    requires IsNumber(conv) && !d.p.negative && !d.p.uc
    requires var n := NumberOf(d, conv, args);
             var prec := if d.p.prec < 0 then 1 else d.p.prec;
             && p == d.p.(base := BaseOf(conv), negative := n < 0, prec := prec, uc := conv == 'X',
                          alt := d.p.alt || conv == 'p')
             && digits == Printed(Magnitude(n), prec, BaseOf(conv), conv == 'X')
    ensures var c := Convert(d, conv, args, base);
            c.text == Layout(p, digits) && c.used == 1 && c.base == BaseOf(conv)
    ensures PrefixOf(conv, d.p.alt)
         == if p.alt && p.base == 16 then (if p.uc then "0X" else "0x") else if p.alt && p.base == 8 then "0" else ""
  {
    hide Layout, Printed, SignedArg, Unsigned;
  }

  /** The part of a string argument that is printed: up to its NUL and as far as the precision goes, which for none is
      2^32 - 1. */
  predicate IsCut(cut: string, text: string, prec: int) {
    && |cut| <= |text| && cut == text[..|cut|] && '\0' !in cut && |cut| <= prec % TWO32
    && (|cut| == prec % TWO32 || CharAt(text, |cut|) == '\0')
  }

  /** %s prints the cut string as a field. */
  lemma TextMeaning(d: Directive, args: seq<Arg>, base: nat) returns (cut: string)
    requires !d.p.negative && !d.p.uc
    ensures IsCut(cut, TextArg(args, d.arg), d.p.prec)
    ensures var c := Convert(d, 's', args, base);
            && c.used == 1 && c.base == base
            && IsField(c.text, d.p.alignLeft, d.p.lz, d.p.width,
                       if d.p.alt && base == 16 then "0x" else if d.p.alt && base == 8 then "0" else "", 0, cut)
  {
    var text := TextArg(args, d.arg);
    cut := Prefixed(text, d.p.prec);
    EndsAtNul(text);
    Uncut(text, cut);
    var p := d.p.(prec := -1, base := base);
    LayoutIsField(p, cut);
    assert Head(p.negative, "0x") == "0x" && Head(p.negative, "0") == "0" && Head(p.negative, "") == "";
    hide Layout, IsField, CString, Head;
    ConvertText(d, args, base, p, cut);
  }

  lemma ConvertText(d: Directive, args: seq<Arg>, base: nat, p: Param, cut: string)
    requires p == d.p.(prec := -1, base := base) && cut == Prefixed(TextArg(args, d.arg), d.p.prec)
    ensures Convert(d, 's', args, base) == Converted(Layout(p, cut), 1, base)
  {
    hide Layout, Prefixed;
  }

  /** %c prints one character, the low byte of its argument, %% a percent sign, and anything else nothing. */
  lemma CharMeaning(d: Directive, conv: char, args: seq<Arg>, base: nat)
    ensures var c := Convert(d, 'c', args, base);
            && c.used == 1 && c.base == base && |c.text| == 1 && c.text[0] as int == WordArg(args, d.arg) % 256
    ensures Convert(d, '%', args, base) == Converted("%", 0, base)
    ensures !IsNumber(conv) && conv != 'c' && conv != 's' && conv != '%' ==>
              Convert(d, conv, args, base) == Converted("", 0, base)
  {
    hide Layout, Prefixed, Numeric;
  }

  lemma {:induction false} NoNul(s: string)
    requires '\0' !in s
    ensures CString(s) == s
  {
    if s != "" { NoNul(s[1..]); }
  }

  lemma Uncut(text: string, cut: string)
    requires |cut| <= |CString(text)| && cut == CString(text)[..|cut|]
    ensures CString(cut) == cut && '\0' !in cut
  {
    NoNul(cut);
  }

  // ----- two examples -----

  /** "%08x" of 26. */
  lemma ZeroPaddedExample(base: nat)
    ensures Format.Format("%08x", 0, [Word(26)], 0, base) == "0000001a"
  {
    var fmt, args := "%08x", [Word(26)];
    ExampleParsed(args);
    var d := Parse(fmt, 1, args, 0);
    hide Parse;
    var digits := NumberMeaning(d, 'x', args, base);
    NumberOfExample(d);
    TwentySix(digits);
    EightWide(Convert(d, 'x', args, base).text, digits);
    hide Convert;
    assert Format.Format(fmt, 4, args, 1, 16) == "";
    assert "0000001a" + "" == "0000001a";
  }

  lemma NumberOfExample(d: Directive)
    requires d.arg == 0 && !d.long
    ensures NumberOf(d, 'x', [Word(26)]) == 26
  {
  }

  lemma EightWide(out: string, digits: string)
    requires digits == "1a" && IsField(out, false, true, 8, Head(false, ""), 0, digits)
    ensures out == "0000001a"
  {
    assert Head(false, "") == "";
    assert Repeat('0', 6) == "000000";
  }

  lemma ExampleParsed(args: seq<Arg>)
    ensures var d := Parse("%08x", 1, args, 0);
            && d.p.lz && !d.p.alt && !d.p.alignLeft && d.p.width == 8 && d.p.prec == -1 && !d.p.uc && !d.p.negative
            && !d.long && d.at == 3 && d.arg == 0
  {
    var fmt := "%08x";
    var x := DirectiveMeaning(fmt, 1, args, 0);
    hide Parse, TextValue, ToInt32;
    FlagEnds(fmt, 1, x.flags, 2);
    assert fmt[1..2] == "0";
    assert Accepts(fmt[2], 10) && !Accepts(fmt[3], 10);
    assert x.width == 3;
    OneDigit(fmt, 2);
  }

  lemma FlagEnds(fmt: string, at: nat, end: nat, e: nat)
    requires FlagRun(fmt, at, end) && FlagRun(fmt, at, e)
    ensures end == e
  {
  }

  lemma OneDigit(fmt: string, at: nat)
    requires at < |fmt| && fmt[at] == '8'
    ensures TextValue(fmt[at..at + 1], 10) % TWO32 == 8 && ToInt32(8) == 8
  {
    assert fmt[at..at + 1] == "8" && "8"[..0] == "";
    assert TextValue("8", 10) == TextValue("", 10) * 10 + A2d('8');
  }

  /** The last digit and the rest of a numeral. */
  lemma LastDigit(s: string) returns (t: string, d: int)
    requires s != "" && InCase(s, false)
    ensures t == s[..|s| - 1] && InCase(t, false) && d == A2d(s[|s| - 1]) && 0 <= d < 16
    ensures TextValue(s, 16) == TextValue(t, 16) * 16 + d
  {
    t, d := s[..|s| - 1], A2d(s[|s| - 1]);
  }

  lemma {:induction false} Positive(s: string)
    requires InCase(s, false) && (s != "" ==> s[0] != '0')
    ensures TextValue(s, 16) >= 0 && (s != "" ==> TextValue(s, 16) >= 1)
  {
    if s != "" {
      var t, d := LastDigit(s);
      if |s| > 1 {
        assert t[0] == s[0];
        Positive(t);
      }
    }
  }

  lemma TwentySix(s: string)
    requires IsNumeral(s, 26, 16, 1, false)
    ensures s == "1a"
  {
    var t, a := LastDigit(s);
    assert t != "" ==> t[0] == s[0];
    Positive(t);
    assert TextValue(t, 16) == 1 && a == 10;
    var u, b := LastDigit(t);
    assert u != "" ==> u[0] == t[0];
    Positive(u);
    assert u == "" && b == 1;
    assert s == [t[0]] + [s[1]];
  }
}
