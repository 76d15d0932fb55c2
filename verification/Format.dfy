/** The format interpreter and the two string printers (lib/bsp/printf.c).

    `Format` says what a format string and its arguments print, without mentioning a destination.
    `TfpFormat` walks the string as the C code does and puts exactly those characters into any sink, so
    the bounded and the unbounded printer can be compared through it. */
module Format {
  import opened Numerals
  import opened Fields

  /** Variadic arguments, already split into the machine words and strings that va_arg fetches.  A
      fetch of the wrong kind or beyond the end, which C leaves undefined, yields 0 or "". */
  datatype Arg = Word(bits: nat) | Text(text: string)

  function WordArg(args: seq<Arg>, i: nat): nat {
    if i < |args| && args[i].Word? then args[i].bits else 0
  }

  function TextArg(args: seq<Arg>, i: nat): string {
    if i < |args| && args[i].Text? then args[i].text else ""
  }

  const TWO31 := 0x8000_0000
  const TWO32 := 0x1_0000_0000
  const TWO63 := 0x8000_0000_0000_0000
  const TWO64 := 0x1_0000_0000_0000_0000

  function ToInt32(n: int): int {
    var r := n % TWO32;
    if r >= TWO31 then r - TWO32 else r
  }

  /** va_arg of an unsigned or signed integer of 32 or 64 bits. */
  function Unsigned(args: seq<Arg>, i: nat, long: bool): nat {
    if long then WordArg(args, i) % TWO64 else WordArg(args, i) % TWO32
  }

  function SignedArg(args: seq<Arg>, i: nat, long: bool): int {
    if !long then ToInt32(WordArg(args, i))
    else
      var r := WordArg(args, i) % TWO64;
      if r >= TWO63 then r - TWO64 else r
  }

  function Magnitude(n: int): nat { if n < 0 then -n else n }

  function Bits(long: bool): nat { if long then 64 else 32 }

  lemma ArgsInRange(args: seq<Arg>, i: nat, long: bool)
    ensures Unsigned(args, i, long) < Limit(Bits(long))
    ensures Magnitude(SignedArg(args, i, long)) < Limit(Bits(long))
  {
    LimitValues();
  }

  const PLAIN := Param(false, false, false, false, 0, -1, false, 0)

  predicate IsDigit(ch: char) { '0' <= ch <= '9' }

  // ----- the grammar of a directive -----

  datatype Cursor = Cursor(p: Param, at: nat, arg: nat)

  function Flags(fmt: string, at: nat, p: Param): (r: Cursor)
    requires at <= |fmt|
    ensures at <= r.at <= |fmt|
    decreases |fmt| - at
  {
    match CharAt(fmt, at)
    case '-' => Flags(fmt, at + 1, p.(alignLeft := true))
    case '0' => Flags(fmt, at + 1, p.(lz := true))
    case '#' => Flags(fmt, at + 1, p.(alt := true))
    case _ => Cursor(if p.alignLeft then p.(lz := false) else p, at, 0)
  }

  /** The value that a2u reads at a position, as the int it is stored in. */
  function ReadInt(fmt: string, at: nat): int
    requires at <= |fmt|
  {
    ToInt32(TextValue(fmt[at..at + Run(fmt, at, 10)], 10) % TWO32)
  }

  function Width(fmt: string, c: Cursor, args: seq<Arg>): (r: Cursor)
    requires c.at <= |fmt|
    ensures c.at <= r.at <= |fmt|
  {
    var ch := CharAt(fmt, c.at);
    if ch == '*' then
      var w := ToInt32(WordArg(args, c.arg));
      Cursor(if w < 0 then c.p.(alignLeft := true, width := -w) else c.p.(width := w), c.at + 1, c.arg + 1)
    else if IsDigit(ch) then
      c.(p := c.p.(width := ReadInt(fmt, c.at)), at := c.at + Run(fmt, c.at, 10))
    else c
  }

  function Precision(fmt: string, c: Cursor, args: seq<Arg>): (r: Cursor)
    requires c.at <= |fmt|
    ensures c.at <= r.at <= |fmt|
  {
    if CharAt(fmt, c.at) != '.' then c
    else
      var ch := CharAt(fmt, c.at + 1);
      if ch == '*' then
        var prec := ToInt32(WordArg(args, c.arg));
        Cursor(c.p.(prec := if prec < 0 then -1 else prec), c.at + 2, c.arg + 1)
      else if IsDigit(ch) then
        c.(p := c.p.(prec := ReadInt(fmt, c.at + 1)), at := c.at + 1 + Run(fmt, c.at + 1, 10))
      else c.(p := c.p.(prec := 0), at := c.at + 1)
  }

  /** A precision switches zero padding off. */
  function Settled(c: Cursor): Cursor {
    if c.p.prec >= 0 then c.(p := c.p.(lz := false)) else c
  }

  /** The length modifiers z, l and ll all mean 64 bits here. */
  function LengthEnd(fmt: string, at: nat): (r: nat)
    requires at <= |fmt|
    ensures at <= r <= |fmt|
  {
    if CharAt(fmt, at) == 'z' then at + 1
    else if CharAt(fmt, at) == 'l' then (if CharAt(fmt, at + 1) == 'l' then at + 2 else at + 1)
    else at
  }

  datatype Directive = Directive(p: Param, long: bool, at: nat, arg: nat)

  /** Everything between '%' and the conversion character, which is at `at`. */
  function Parse(fmt: string, at: nat, args: seq<Arg>, arg: nat): (d: Directive)
    requires at <= |fmt|
    ensures at <= d.at <= |fmt|
  {
    var c := Settled(Precision(fmt, Width(fmt, Flags(fmt, at, PLAIN).(arg := arg), args), args));
    Directive(c.p, LengthEnd(fmt, c.at) > c.at, LengthEnd(fmt, c.at), c.arg)
  }

  // ----- the conversions -----

  /** What one conversion prints, how many arguments it takes, and the number base it leaves behind
      (`struct param` is not cleared between directives, so %#s sees the base of the last number). */
  datatype Converted = Converted(text: string, used: nat, base: nat)

  function Numeric(p: Param, base: nat, negative: bool, num: nat): (text: string)
    requires 2 <= base <= 16
  {
    var q := p.(base := base, negative := negative, prec := if p.prec < 0 then 1 else p.prec);
    Layout(q, Printed(num, q.prec, base, q.uc))
  }

  /** %s prints at most as many characters as the precision, read as an unsigned int, allows. */
  function Prefixed(text: string, prec: int): string {
    CString(text)[..Min(|CString(text)|, prec % TWO32)]
  }

  function Convert(d: Directive, conv: char, args: seq<Arg>, base: nat): Converted {
    match conv
    case 'u' => Converted(Numeric(d.p, 10, false, Unsigned(args, d.arg, d.long)), 1, 10)
    case 'd' =>
      var n := SignedArg(args, d.arg, d.long);
      Converted(Numeric(d.p, 10, n < 0, Magnitude(n)), 1, 10)
    case 'i' =>
      var n := SignedArg(args, d.arg, d.long);
      Converted(Numeric(d.p, 10, n < 0, Magnitude(n)), 1, 10)
    case 'p' => Converted(Numeric(d.p.(alt := true), 16, false, Unsigned(args, d.arg, true)), 1, 16)
    case 'x' => Converted(Numeric(d.p, 16, false, Unsigned(args, d.arg, d.long)), 1, 16)
    case 'X' => Converted(Numeric(d.p.(uc := true), 16, false, Unsigned(args, d.arg, d.long)), 1, 16)
    case 'o' => Converted(Numeric(d.p, 8, false, Unsigned(args, d.arg, false)), 1, 8)
    case 'c' => Converted([(WordArg(args, d.arg) % 256) as char], 1, base)
    case 's' =>
      Converted(Layout(d.p.(prec := -1, base := base), Prefixed(TextArg(args, d.arg), d.p.prec)), 1, base)
    case '%' => Converted("%", 0, base)
    case _ => Converted("", 0, base)
  }

  /** What the format string from `at` on prints. */
  function Format(fmt: string, at: nat, args: seq<Arg>, arg: nat, base: nat): string
    requires at <= |fmt|
    decreases |fmt| - at
  {
    if CharAt(fmt, at) == '\0' then ""
    else if fmt[at] != '%' then [fmt[at]] + Format(fmt, at + 1, args, arg, base)
    else
      var d := Parse(fmt, at + 1, args, arg);
      if CharAt(fmt, d.at) == '\0' then ""
      else
        var c := Convert(d, fmt[d.at], args, base);
        c.text + Format(fmt, d.at + 1, args, d.arg + c.used, c.base)
  }

  // ----- the interpreter -----

  method ScanFlags(fmt: string, at: nat) returns (p: Param, next: nat)
    requires at <= |fmt|
    ensures Cursor(p, next, 0) == Flags(fmt, at, PLAIN)
  {
    p, next := PLAIN, at;
    while CharAt(fmt, next) == '-' || CharAt(fmt, next) == '0' || CharAt(fmt, next) == '#'
      invariant next <= |fmt| && Flags(fmt, next, p) == Flags(fmt, at, PLAIN)
      decreases |fmt| - next
    {
      match CharAt(fmt, next) {
        case '-' => p := p.(alignLeft := true);
        case '0' => p := p.(lz := true);
        case _ => p := p.(alt := true);
      }
      next := next + 1;
    }
    if p.alignLeft { p := p.(lz := false); }
  }

  method ScanWidth(fmt: string, c: Cursor, args: seq<Arg>) returns (r: Cursor)
    requires c.at <= |fmt|
    ensures r == Width(fmt, c, args)
  {
    var p, at, i := c.p, c.at, c.arg;
    var ch := CharAt(fmt, at);
    if ch == '*' {
      at := at + 1;
      p := p.(width := ToInt32(WordArg(args, i)));
      i := i + 1;
      if p.width < 0 { p := p.(alignLeft := true, width := -p.width); }
    } else if IsDigit(ch) {
      var width;
      width, at := A2u(fmt, at, 10);
      p := p.(width := ToInt32(width));
    }
    r := Cursor(p, at, i);
  }

  method ScanPrecision(fmt: string, c: Cursor, args: seq<Arg>) returns (r: Cursor)
    requires c.at <= |fmt|
    ensures r == Precision(fmt, c, args)
  {
    var p, at, i := c.p, c.at, c.arg;
    if CharAt(fmt, at) == '.' {
      at := at + 1;
      var ch := CharAt(fmt, at);
      if ch == '*' {
        at := at + 1;
        var prec := ToInt32(WordArg(args, i));
        i := i + 1;
        p := p.(prec := if prec < 0 then -1 else prec);
      } else if IsDigit(ch) {
        var prec;
        prec, at := A2u(fmt, at, 10);
        p := p.(prec := ToInt32(prec));
      } else {
        p := p.(prec := 0);
      }
    }
    r := Cursor(p, at, i);
  }

  /** From the character after '%' to the conversion character. */
  method ScanDirective(fmt: string, start: nat, args: seq<Arg>, arg: nat) returns (d: Directive)
    requires start <= |fmt|
    ensures d == Parse(fmt, start, args, arg)
  {
    hide Flags;
    hide Width;
    hide Precision;
    var p, at := ScanFlags(fmt, start);
    var c := ScanWidth(fmt, Cursor(p, at, arg), args);
    c := ScanPrecision(fmt, c, args);
    if c.p.prec >= 0 { c := c.(p := c.p.(lz := false)); }
    at := c.at;
    var long := false;
    var ch := CharAt(fmt, at);
    if ch == 'z' {
      at, long := at + 1, true;
    } else if ch == 'l' {
      at, long := at + 1, true;
      if CharAt(fmt, at) == 'l' { at := at + 1; }
    }
    d := Directive(c.p, long, at, c.arg);
  }

  method PutNumber(sink: Sink, p: Param, base: nat, negative: bool, num: nat, bits: nat)
    requires Dispatched(base, bits) && num < Limit(bits)
    requires sink.Valid() && sink.Room(|Numeric(p, base, negative, num)|)
    modifies sink, sink.dest
    ensures sink.Valid() && sink.trace == old(sink.trace) + Numeric(p, base, negative, num)
  {
    var q := p.(base := base, negative := negative);
    if q.prec < 0 { q := q.(prec := 1); }
    var bf := new char[BF_MAX];
    var len := Ulli2a(num, q.prec, base, q.uc, bits, bf);
    Putchw(sink, q, bf[..len]);
  }

  lemma EndsAtNul(text: string)
    ensures CharAt(text, |CString(text)|) == '\0'
  {
  }

  /** The length of a string argument under a precision that counts down as an unsigned int. */
  method BoundedLength(text: string, prec: int) returns (len: nat)
    ensures len <= |text| && text[..len] == Prefixed(text, prec)
  {
    var left := prec % TWO32;
    len := 0;
    while left != 0 && CharAt(text, len) != '\0'
      invariant len <= |CString(text)| && left >= 0 && len + left == prec % TWO32
      decreases left
    {
      EndsAtNul(text);
      left := left - 1;
      len := len + 1;
    }
  }

  /** The switch on the conversion character. */
  method PutConversion(sink: Sink, d: Directive, conv: char, args: seq<Arg>, base: nat) returns (used: nat, base': nat)
    requires sink.Valid() && sink.Room(|Convert(d, conv, args, base).text|)
    modifies sink, sink.dest
    ensures sink.Valid() && sink.trace == old(sink.trace) + Convert(d, conv, args, base).text
    ensures used == Convert(d, conv, args, base).used && base' == Convert(d, conv, args, base).base
  {
    hide Sink.Valid;
    hide Numeric;
    hide Layout;
    used, base' := 1, base;
    ArgsInRange(args, d.arg, d.long);
    ArgsInRange(args, d.arg, true);
    ArgsInRange(args, d.arg, false);
    match conv {
      case 'u' =>
        base' := 10;
        PutNumber(sink, d.p, 10, false, Unsigned(args, d.arg, d.long), Bits(d.long));
      case 'd' =>
        base' := 10;
        var n := SignedArg(args, d.arg, d.long);
        PutNumber(sink, d.p, 10, n < 0, Magnitude(n), Bits(d.long));
      case 'i' =>
        base' := 10;
        var n := SignedArg(args, d.arg, d.long);
        PutNumber(sink, d.p, 10, n < 0, Magnitude(n), Bits(d.long));
      case 'p' =>
        base' := 16;
        PutNumber(sink, d.p.(alt := true), 16, false, Unsigned(args, d.arg, true), 64);
      case 'x' =>
        base' := 16;
        PutNumber(sink, d.p, 16, false, Unsigned(args, d.arg, d.long), Bits(d.long));
      case 'X' =>
        base' := 16;
        PutNumber(sink, d.p.(uc := true), 16, false, Unsigned(args, d.arg, d.long), Bits(d.long));
      case 'o' =>
        base' := 8;
        PutNumber(sink, d.p, 8, false, Unsigned(args, d.arg, false), 32);
      case 'c' => sink.Putf((WordArg(args, d.arg) % 256) as char);
      case 's' =>
        var text := TextArg(args, d.arg);
        var len := BoundedLength(text, d.p.prec);
        Putchw(sink, d.p.(prec := -1, base := base), text[..len]);
      case '%' =>
        sink.Putf('%');
        used := 0;
      case _ =>
        used := 0;
    }
  }

  /** tfp_format.  `base` is what the uninitialised field of `struct param` happens to hold. */
  method TfpFormat(sink: Sink, fmt: string, args: seq<Arg>, base: nat)
    requires sink.Valid() && sink.Room(|Format(fmt, 0, args, 0, base)|)
    modifies sink, sink.dest
    ensures sink.Valid() && sink.trace == old(sink.trace) + Format(fmt, 0, args, 0, base)
  {
    hide Sink.Valid;
    hide Parse;
    hide Convert;
    var at: nat, i: nat, b: nat := 0, 0, base;
    ghost var all, t0 := Format(fmt, 0, args, 0, base), sink.trace;
    while CharAt(fmt, at) != '\0'
      invariant at <= |fmt| && sink.Valid()
      invariant sink.trace + Format(fmt, at, args, i, b) == t0 + all
      decreases |fmt| - at
    {
      ghost var t := sink.trace;
      if fmt[at] != '%' {
        ghost var rest := Format(fmt, at + 1, args, i, b);
        assert t + ([fmt[at]] + rest) == t + [fmt[at]] + rest;
        sink.Putf(fmt[at]);
        at := at + 1;
      } else {
        var d := ScanDirective(fmt, at + 1, args, i);
        if CharAt(fmt, d.at) == '\0' { return; }
        ghost var c := Convert(d, fmt[d.at], args, b);
        ghost var rest := Format(fmt, d.at + 1, args, d.arg + c.used, c.base);
        assert t + (c.text + rest) == t + c.text + rest;
        var used;
        used, b := PutConversion(sink, d, fmt[d.at], args, b);
        at, i := d.at + 1, d.arg + used;
      }
    }
  }

  /** tfp_vsnprintf: the result counts all characters, the buffer holds as many of them as fit and a
      NUL, and nothing else in it changes.  Size 0 touches nothing. */
  method Vsnprintf(str: array<char>, size: nat, fmt: string, args: seq<Arg>, base: nat) returns (r: nat)
    requires size <= str.Length
    modifies str
    ensures var text := Format(fmt, 0, args, 0, base);
            if size < 1 then r == 0 && str[..] == old(str[..])
            else
              var n := Min(|text|, size - 1);
              r == |text| && str[..n] == text[..n] && str[n] == '\0' && str[n + 1..] == old(str[n + 1..])
  {
    hide Format;
    if size < 1 { return 0; }
    var data := new Sink(str, true, size - 1);
    TfpFormat(data, fmt, args, base);
    r := data.numChars;
    ghost var n := Min(r, size - 1);
    ghost var was := old(str[..]);
    ghost var text := data.trace;
    assert str[..n] == text[..n] && str[n..] == was[n..];
    if data.numChars < data.capacity {
      str[data.numChars] := '\0';
    } else {
      str[data.capacity] := '\0';
    }
    assert str[n + 1..] == was[n..][1..];
    assert was[n + 1..] == was[n..][1..];
    assert str[..n] == text[..n];
  }

  /** tfp_vsprintf, given a buffer that is large enough. */
  method Vsprintf(str: array<char>, fmt: string, args: seq<Arg>, base: nat) returns (r: nat)
    requires |Format(fmt, 0, args, 0, base)| < str.Length
    modifies str
    ensures var text := Format(fmt, 0, args, 0, base);
            r == |text| && str[..r] == text && str[r] == '\0' && str[r + 1..] == old(str[r + 1..])
  {
    hide Format;
    var data := new Sink(str, false, str.Length);
    TfpFormat(data, fmt, args, base);
    r := data.numChars;
    ghost var was := old(str[..]);
    assert str[..r] == data.trace && str[r..] == was[r..];
    str[r] := '\0';
    assert str[r + 1..] == was[r..][1..];
    assert was[r + 1..] == was[r..][1..];
  }

  /** Bounded printing refines unbounded printing: both printers, run on the same format and arguments,
      return the same count, and the bounded buffer is the first min(count, size - 1) characters of the
      unbounded one followed by NUL. */
  method BoundedRefinesUnbounded(big: array<char>, small: array<char>, size: nat, fmt: string, args: seq<Arg>, base: nat)
    returns (full: nat, cut: nat)
    requires big != small && 1 <= size <= small.Length && |Format(fmt, 0, args, 0, base)| < big.Length
    modifies big, small
    ensures cut == full < big.Length
    ensures var n := Min(full, size - 1);
            small[..n] == big[..n] && small[n] == '\0' && small[size..] == old(small[size..])
  {
    full := Vsprintf(big, fmt, args, base);
    cut := Vsnprintf(small, size, fmt, args, base);
    ghost var n := Min(full, size - 1);
    assert small[size..] == small[n + 1..][size - n - 1..];
    assert old(small[size..]) == old(small[n + 1..])[size - n - 1..];
  }

  // ----- what a whole call prints -----

  /** A format without conversions and without NUL prints itself. */
  lemma {:induction false} PlainTextPrintsItself(fmt: string, at: nat, args: seq<Arg>, arg: nat, base: nat)
    requires at <= |fmt| && '%' !in fmt && '\0' !in fmt
    ensures Format(fmt, at, args, arg, base) == fmt[at..]
    decreases |fmt| - at
  {
    if at < |fmt| {
      PlainTextPrintsItself(fmt, at + 1, args, arg, base);
      assert fmt[at..] == [fmt[at]] + fmt[at + 1..];
    }
  }

  /** A single %d, %i, %u, %x, %X, %o or %p with any flags, width, precision and length modifier prints a
      field that reads back as the argument. */
  lemma ConversionReadsBack(d: Directive, conv: char, args: seq<Arg>, base: nat)
    requires !d.p.negative
    ensures var text := Convert(d, conv, args, base).text;
            && (conv == 'd' || conv == 'i' ==> Interpret(text, 10, false) == SignedArg(args, d.arg, d.long))
            && (conv == 'u' ==> Interpret(text, 10, false) == Unsigned(args, d.arg, d.long))
            && (conv == 'x' || conv == 'X' ==> Interpret(text, 16, d.p.alt) == Unsigned(args, d.arg, d.long))
            && (conv == 'p' ==> Interpret(text, 16, true) == Unsigned(args, d.arg, true))
            && (conv == 'o' ==> Interpret(text, 8, false) == Unsigned(args, d.arg, false))
  {
    hide Layout;
    hide Interpret;
    hide Printed;
    match conv
    case 'u' => NumericReadsBack(d.p, 10, false, Unsigned(args, d.arg, d.long));
    case 'd' => NumericReadsBack(d.p, 10, SignedArg(args, d.arg, d.long) < 0, Magnitude(SignedArg(args, d.arg, d.long)));
    case 'i' => NumericReadsBack(d.p, 10, SignedArg(args, d.arg, d.long) < 0, Magnitude(SignedArg(args, d.arg, d.long)));
    case 'p' => NumericReadsBack(d.p.(alt := true), 16, false, Unsigned(args, d.arg, true));
    case 'x' => NumericReadsBack(d.p, 16, false, Unsigned(args, d.arg, d.long));
    case 'X' => NumericReadsBack(d.p.(uc := true), 16, false, Unsigned(args, d.arg, d.long));
    case 'o' => NumericReadsBack(d.p, 8, false, Unsigned(args, d.arg, false));
    case _ =>
  }

  lemma NumericReadsBack(p: Param, base: nat, negative: bool, num: nat)
    requires base == 8 || base == 10 || base == 16
    ensures Interpret(Numeric(p, base, negative, num), base, p.alt && base == 16) == Signed(negative, num)
  {
    hide Layout;
    hide Interpret;
    hide Printed;
    FieldReadsBack(p.(base := base, negative := negative, prec := if p.prec < 0 then 1 else p.prec), num);
  }
}
