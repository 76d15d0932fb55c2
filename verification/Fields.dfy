/** Output sinks and padded fields of the printer (lib/bsp/printf.c). */
module Fields {
  import opened Numerals

  function Min(a: int, b: int): int { if a < b then a else b }
  function Max(a: int, b: int): int { if a < b then b else a }

  /** The destination of one formatting call, written through one of the two `putf` callbacks:
      `_vsnprintf_putcf` when `bounded`, `_vsprintf_putcf` otherwise.  `trace` records every character
      that was put, whether or not it was stored. */
  class Sink {
    const dest: array<char>
    const bounded: bool
    const capacity: nat
    var numChars: nat
    ghost var trace: string
    ghost const before: seq<char>

    ghost predicate Valid()
      reads this, dest
    {
      && numChars == |trace| && |before| == dest.Length && capacity <= dest.Length
      && (!bounded ==> numChars <= capacity)
      && var n := Min(numChars, capacity);
         dest[..n] == trace[..n] && dest[n..] == before[n..]
    }

    /** An unbounded destination must have room for what is still to come; a bounded one need not. */
    ghost predicate Room(n: nat)
      reads this
    {
      !bounded ==> |trace| + n <= capacity
    }

    constructor (dest: array<char>, bounded: bool, capacity: nat)
      requires capacity <= dest.Length
      ensures Valid() && trace == "" && this.dest == dest && this.bounded == bounded && this.capacity == capacity
      ensures before == dest[..]
    {
      this.dest, this.bounded, this.capacity := dest, bounded, capacity;
      numChars, trace := 0, "";
      before := dest[..];
    }

    method Putf(c: char)
      requires Valid() && Room(1)
      modifies this, dest
      ensures Valid() && trace == old(trace) + [c]
    {
      if bounded {
        if numChars < capacity { dest[numChars] := c; }
      } else {
        dest[numChars] := c;
      }
      numChars := numChars + 1;
      trace := trace + [c];
      assert bounded && old(numChars) >= capacity ==> trace[..capacity] == old(trace)[..capacity];
    }
  }

  // ----- the layout of a field -----

  /** struct param without the digit buffer; `negative` stands for sign == '-'. */
  datatype Param = Param(lz: bool, alt: bool, uc: bool, alignLeft: bool, width: int, prec: int, negative: bool, base: nat)

  function Repeat(c: char, n: int): (s: string)
    ensures |s| == Max(n, 0) && forall i :: 0 <= i < |s| ==> s[i] == c
  {
    seq(Max(n, 0), _ => c)
  }

  /** The characters of the buffer up to a NUL. */
  function CString(text: string): (s: string)
    ensures |s| <= |text| && s == text[..|s|] && (|s| < |text| ==> text[|s|] == '\0')
    ensures '\0' !in s
  {
    if text == "" || text[0] == '\0' then ""
    else
      var rest := CString(text[1..]);
      assert [text[0]] + rest == text[..|rest| + 1];
      [text[0]] + rest
  }

  function Sign(p: Param): string { if p.negative then "-" else "" }

  function Prefix(p: Param): string {
    if p.alt && p.base == 16 then (if p.uc then "0X" else "0x") else if p.alt && p.base == 8 then "0" else ""
  }

  /** What is left of the width after sign, prefix, precision zeros and text. */
  function Pad(p: Param, text: string): int {
    p.width - |text| - |Sign(p)| - |Prefix(p)| - Max(p.prec - |text|, 0)
  }

  /** Sign, prefix, zeros and digits, without the padding spaces. */
  function Core(p: Param, text: string): string {
    (Sign(p) + Prefix(p)) + Repeat('0', p.prec - |text|) + ZeroPad(p, Pad(p, text)) + CString(text)
  }

  function LeftPad(p: Param, width: int): string {
    if !p.lz && !p.alignLeft then Repeat(' ', width) else ""
  }

  function ZeroPad(p: Param, width: int): string {
    if p.lz then Repeat('0', width) else ""
  }

  function RightPad(p: Param, width: int): string {
    if !p.lz && p.alignLeft then Repeat(' ', width) else ""
  }

  /** Everything of a field that comes before the text. */
  function Front(p: Param, width: int, prec: int): string {
    LeftPad(p, width) + (Sign(p) + Prefix(p)) + Repeat('0', prec) + ZeroPad(p, width)
  }

  function Layout(p: Param, text: string): string {
    Front(p, Pad(p, text), p.prec - |text|) + CString(text) + RightPad(p, Pad(p, text))
  }

  /** A field is as long as its width asks, or as its contents need. */
  lemma LayoutLength(p: Param, text: string)
    requires CString(text) == text
    ensures |Layout(p, text)| == Max(p.width, |Sign(p)| + |Prefix(p)| + Max(p.prec, |text|))
  {
  }

  method PutRepeat(sink: Sink, c: char, n: int)
    requires sink.Valid() && sink.Room(|Repeat(c, n)|)
    modifies sink, sink.dest
    ensures sink.Valid() && sink.trace == old(sink.trace) + Repeat(c, n)
  {
    var left := n;
    while left > 0
      invariant sink.Valid() && left <= n && (n > 0 ==> left >= 0)
      invariant sink.trace == old(sink.trace) + Repeat(c, n - Max(left, 0) - Min(n, 0))
    {
      sink.Putf(c);
      left := left - 1;
      assert Repeat(c, n - left - 1) + [c] == Repeat(c, n - left);
    }
  }

  method PutString(sink: Sink, text: string)
    requires sink.Valid() && sink.Room(|CString(text)|)
    modifies sink, sink.dest
    ensures sink.Valid() && sink.trace == old(sink.trace) + CString(text)
  {
    var i := 0;
    while i < |text| && text[i] != '\0'
      invariant i <= |CString(text)|
      invariant sink.Valid() && sink.trace == old(sink.trace) + CString(text)[..i]
    {
      assert i < |CString(text)| && CString(text)[i] == text[i];
      sink.Putf(text[i]);
      assert CString(text)[..i] + [text[i]] == CString(text)[..i + 1];
      i := i + 1;
    }
    assert i == |CString(text)|;
    assert CString(text)[..i] == CString(text);
  }

  method PutSign(sink: Sink, p: Param)
    requires sink.Valid() && sink.Room(|Sign(p) + Prefix(p)|)
    modifies sink, sink.dest
    ensures sink.Valid() && sink.trace == old(sink.trace) + (Sign(p) + Prefix(p))
  {
    if p.negative { sink.Putf('-'); }
    assert sink.trace == old(sink.trace) + Sign(p);
    if p.alt && p.base == 16 {
      sink.Putf('0');
      sink.Putf(if p.uc then 'X' else 'x');
    } else if p.alt && p.base == 8 {
      sink.Putf('0');
    }
  }

  method PutFront(sink: Sink, p: Param, width: int, prec: int)
    requires sink.Valid() && sink.Room(|Front(p, width, prec)|)
    modifies sink, sink.dest
    ensures sink.Valid() && sink.trace == old(sink.trace) + Front(p, width, prec)
  {
    hide Sign;
    hide Prefix;
    hide Sink.Valid;
    ghost var head, fill := Sign(p) + Prefix(p), Repeat('0', prec);
    ghost var t0 := sink.trace;
    if !p.lz && !p.alignLeft { PutRepeat(sink, ' ', width); } else { assert t0 + LeftPad(p, width) == t0; }
    PutSign(sink, p);
    PutRepeat(sink, '0', prec);
    ghost var t2 := t0 + LeftPad(p, width) + head + fill;
    if p.lz { PutRepeat(sink, '0', width); } else { assert t2 + ZeroPad(p, width) == t2; }
    assert t2 + ZeroPad(p, width) == t0 + (LeftPad(p, width) + head + fill + ZeroPad(p, width));
  }

  method PutField(sink: Sink, p: Param, text: string, width: int, prec: int)
    requires sink.Valid() && sink.Room(|Front(p, width, prec) + CString(text) + RightPad(p, width)|)
    modifies sink, sink.dest
    ensures sink.Valid()
    ensures sink.trace == old(sink.trace) + (Front(p, width, prec) + CString(text) + RightPad(p, width))
  {
    hide Sink.Valid;
    hide Front;
    hide CString;
    ghost var front, body := Front(p, width, prec), CString(text);
    ghost var t0 := sink.trace;
    PutFront(sink, p, width, prec);
    PutString(sink, text);
    ghost var t1 := t0 + front + body;
    if !p.lz && p.alignLeft { PutRepeat(sink, ' ', width); } else { assert t1 + RightPad(p, width) == t1; }
    assert t1 + RightPad(p, width) == t0 + (front + body + RightPad(p, width));
  }

  /** putchw: the counts of filling characters are worked out first and then counted down. */
  method Putchw(sink: Sink, p: Param, text: string)
    requires sink.Valid() && sink.Room(|Layout(p, text)|)
    modifies sink, sink.dest
    ensures sink.Valid() && sink.trace == old(sink.trace) + Layout(p, text)
  {
    var width, prec := p.width - |text|, p.prec - |text|;
    if p.negative { width := width - 1; }
    if p.alt && p.base == 16 { width := width - 2; } else if p.alt && p.base == 8 { width := width - 1; }
    if prec > 0 { width := width - prec; }
    assert width == Pad(p, text);
    PutField(sink, p, text, width, prec);
  }

  // ----- reading a field back -----

  function TrimLeft(s: string): string {
    if s != "" && s[0] == ' ' then TrimLeft(s[1..]) else s
  }

  function TrimRight(s: string): string {
    if s != "" && s[|s| - 1] == ' ' then TrimRight(s[..|s| - 1]) else s
  }

  /** The number a reader sees in a field: spaces stripped, a minus sign and the hexadecimal prefix
      recognised, the rest read as digits. */
  function Interpret(field: string, base: nat, hexPrefix: bool): int {
    InterpretTrimmed(TrimRight(TrimLeft(field)), base, hexPrefix)
  }

  function InterpretTrimmed(s: string, base: nat, hexPrefix: bool): int {
    var negative := s != "" && s[0] == '-';
    var t := if negative then s[1..] else s;
    var u := if hexPrefix && |t| >= 2 then t[2..] else t;
    if negative then -TextValue(u, base) else TextValue(u, base)
  }

  /** Neither a space nor a minus sign. */
  predicate Plain(s: string) { forall i :: 0 <= i < |s| ==> s[i] != ' ' && s[i] != '-' }

  lemma PlainConcat(a: string, b: string)
    requires Plain(a) && Plain(b)
    ensures Plain(a + b)
  {
  }

  lemma NoSpacesSigned(p: Param, t: string)
    requires Plain(t)
    ensures NoSpaces(Sign(p) + t)
  {
  }

  lemma PlainPieces(p: Param, n: int, w: int)
    ensures Plain(Repeat('0', n)) && Plain(ZeroPad(p, w)) && Plain(Prefix(p))
  {
  }

  predicate NoSpaces(s: string) { forall i :: 0 <= i < |s| ==> s[i] != ' ' }

  lemma {:induction false} TrimLeftPadding(n: int, core: string)
    requires core == "" || core[0] != ' '
    ensures TrimLeft(Repeat(' ', n) + core) == core
  {
    if n > 0 {
      assert (Repeat(' ', n) + core)[1..] == Repeat(' ', n - 1) + core;
      TrimLeftPadding(n - 1, core);
    } else {
      assert Repeat(' ', n) + core == core;
    }
  }

  lemma {:induction false} TrimRightPadding(n: int, core: string)
    requires core == "" || core[|core| - 1] != ' '
    ensures TrimRight(core + Repeat(' ', n)) == core
  {
    if n > 0 {
      assert (core + Repeat(' ', n))[..|core| + n - 1] == core + Repeat(' ', n - 1);
      TrimRightPadding(n - 1, core);
    } else {
      assert core + Repeat(' ', n) == core;
    }
  }

  lemma Concat6(l: string, h: string, f: string, z: string, c: string, r: string)
    ensures l + h + f + z + c + r == l + (h + f + z + c + r)
  {
  }

  lemma PaddedCore(p: Param, text: string)
    ensures Layout(p, text) == LeftPad(p, Pad(p, text)) + (Core(p, text) + RightPad(p, Pad(p, text)))
  {
    hide Sign;
    hide Prefix;
    hide Pad;
    hide CString;
    hide LeftPad;
    hide RightPad;
    hide ZeroPad;
    var w := Pad(p, text);
    Concat6(LeftPad(p, w), Sign(p) + Prefix(p), Repeat('0', p.prec - |text|), ZeroPad(p, w), CString(text), RightPad(p, w));
  }

  lemma TrimmedLayout(p: Param, text: string)
    requires NoSpaces(Core(p, text))
    ensures TrimRight(TrimLeft(Layout(p, text))) == Core(p, text)
  {
    PaddedCore(p, text);
    hide Layout;
    hide Core;
    var core, w := Core(p, text), Pad(p, text);
    hide Pad;
    if RightPad(p, w) == "" {
      assert core + RightPad(p, w) == core;
      TrimLeftSpaces(LeftPad(p, w), core);
      TrimRightPadding(0, core);
      assert core + Repeat(' ', 0) == core;
    } else {
      assert LeftPad(p, w) + (core + RightPad(p, w)) == core + RightPad(p, w);
      if core == "" {
        assert core + RightPad(p, w) == RightPad(p, w) + core;
        TrimLeftSpaces(RightPad(p, w), core);
      } else {
        TrimRightPadding(w, core);
      }
    }
  }

  lemma TrimLeftSpaces(spaces: string, core: string)
    requires forall i :: 0 <= i < |spaces| ==> spaces[i] == ' '
    requires core == "" || core[0] != ' '
    ensures TrimLeft(spaces + core) == core
  {
    assert spaces == Repeat(' ', |spaces|);
    TrimLeftPadding(|spaces|, core);
  }

  lemma {:induction false} LeadingZeros(n: int, text: string, base: nat)
    ensures TextValue(Repeat('0', n) + text, base) == TextValue(text, base)
  {
    var s := Repeat('0', n) + text;
    if text != "" {
      assert s[..|s| - 1] == Repeat('0', n) + text[..|text| - 1];
      LeadingZeros(n, text[..|text| - 1], base);
    } else if n > 0 {
      assert s[..|s| - 1] == Repeat('0', n - 1) + "";
      LeadingZeros(n - 1, "", base);
    }
  }

  lemma DigitCharIsPlain(d: nat, uc: bool)
    requires d < 16
    ensures var c := DigitChar(d, uc); c != ' ' && c != '-' && c != '\0'
  {
  }

  lemma PrintedIsPlain(num: nat, prec: int, base: nat, uc: bool)
    requires 2 <= base <= 16
    ensures var text := Printed(num, prec, base, uc);
            && Plain(text) && '\0' !in text
            && CString(text) == text && TextValue(text, base) == num
  {
    DigitsAreCanonical(num, base);
    var ds, text := Digits(num, base), Printed(num, prec, base, uc);
    forall i | 0 <= i < |text| ensures text[i] != ' ' && text[i] != '-' && text[i] != '\0' {
      DigitCharIsPlain(ds[i], uc);
    }
    CharsValue(ds, base, uc);
  }

  function Signed(negative: bool, num: int): int { if negative then -num else num }

  lemma Concat4(s: string, a: string, b: string, c: string)
    ensures s + a + b + c == s + (a + (b + c))
  {
  }

  lemma CoreSplit(p: Param, text: string)
    requires CString(text) == text
    ensures Core(p, text) ==
            (Sign(p) + Prefix(p)) + (Repeat('0', p.prec - |text|) + (ZeroPad(p, Pad(p, text)) + text))
  {
    hide CString;
    hide Sign;
    hide Prefix;
    hide Pad;
    hide ZeroPad;
    Concat4(Sign(p) + Prefix(p), Repeat('0', p.prec - |text|), ZeroPad(p, Pad(p, text)), text);
  }

  lemma PaddedDigits(a: int, zeros: string, text: string, base: nat)
    requires forall i :: 0 <= i < |zeros| ==> zeros[i] == '0'
    ensures TextValue(Repeat('0', a) + (zeros + text), base) == TextValue(text, base)
  {
    LeadingZeros(a, zeros + text, base);
    assert zeros == Repeat('0', |zeros|);
    LeadingZeros(|zeros|, text, base);
  }

  lemma AllZeros(p: Param, w: int)
    ensures forall i :: 0 <= i < |ZeroPad(p, w)| ==> ZeroPad(p, w)[i] == '0'
  {
  }

  /** The core of a number's field is sign, prefix and then only digits worth the number. */
  lemma CoreOfNumber(p: Param, num: nat) returns (digits: string)
    requires p.base == 8 || p.base == 10 || p.base == 16
    ensures Core(p, Printed(num, p.prec, p.base, p.uc)) == (Sign(p) + Prefix(p)) + digits
    ensures TextValue(digits, p.base) == num
    ensures Plain(digits)
  {
    var text := Printed(num, p.prec, p.base, p.uc);
    PrintedIsPlain(num, p.prec, p.base, p.uc);
    hide Printed;
    hide CString;
    hide Core;
    hide TextValue;
    hide Plain;
    hide ZeroPad;
    CoreSplit(p, text);
    PlainPieces(p, p.prec - |text|, Pad(p, text));
    PlainConcat(ZeroPad(p, Pad(p, text)), text);
    PlainConcat(Repeat('0', p.prec - |text|), ZeroPad(p, Pad(p, text)) + text);
    AllZeros(p, Pad(p, text));
    PaddedDigits(p.prec - |text|, ZeroPad(p, Pad(p, text)), text, p.base);
    digits := Repeat('0', p.prec - |text|) + (ZeroPad(p, Pad(p, text)) + text);
  }

  /** With the octal prefix counted as a leading zero and the hexadecimal one dropped, the digits remain. */
  lemma PrefixDropped(p: Param, digits: string)
    ensures var t := Prefix(p) + digits;
            && (p.alt && p.base == 16 ==> |t| >= 2 && t[2..] == digits)
            && (!(p.alt && p.base == 16) ==> TextValue(t, p.base) == TextValue(digits, p.base))
  {
    var t := Prefix(p) + digits;
    if p.alt && p.base == 16 {
      assert t[2..] == digits;
    } else if p.alt && p.base == 8 {
      assert t == Repeat('0', 1) + digits;
      LeadingZeros(1, digits, p.base);
    } else {
      assert t == digits;
    }
  }

  lemma InterpretSigned(negative: bool, t: string, s: string, base: nat, hexPrefix: bool)
    requires s == (if negative then "-" else "") + t && (t != "" ==> t[0] != '-')
    ensures var u := if hexPrefix && |t| >= 2 then t[2..] else t;
            InterpretTrimmed(s, base, hexPrefix) == Signed(negative, TextValue(u, base))
  {
    if negative { assert s[1..] == t; } else { assert s == t; }
  }

  /** Whatever the flags, width and precision, the field of a number reads back as that number with its
      sign: the padding never changes the value. */
  lemma FieldReadsBack(p: Param, num: nat)
    requires p.base == 8 || p.base == 10 || p.base == 16
    ensures Interpret(Layout(p, Printed(num, p.prec, p.base, p.uc)), p.base, p.alt && p.base == 16)
            == Signed(p.negative, num)
  {
    var text := Printed(num, p.prec, p.base, p.uc);
    var digits := CoreOfNumber(p, num);
    hide Printed;
    hide Layout;
    hide Core;
    hide InterpretTrimmed;
    hide TextValue;
    var t := Prefix(p) + digits;
    Concat3(Sign(p), Prefix(p), digits);
    PlainPieces(p, 0, 0);
    PlainConcat(Prefix(p), digits);
    NoSpacesSigned(p, t);
    assert t != "" ==> t[0] != '-';
    hide Plain;
    hide NoSpaces;
    TrimmedLayout(p, text);
    PrefixDropped(p, digits);
    InterpretSigned(p.negative, t, Core(p, text), p.base, p.alt && p.base == 16);
  }

  lemma Concat3(a: string, b: string, c: string)
    ensures a + b + c == a + (b + c)
  {
  }
}
