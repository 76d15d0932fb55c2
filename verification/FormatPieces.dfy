/** Formats put together from pieces: text and directives (lib/bsp/printf.c).  Each piece prints what it prints by
    itself, with the arguments that those before it have left. */
module FormatPieces {
  import opened Numerals
  import opened Fields
  import opened Format
  import opened FormatMeaning

  // ----- the same characters at different places -----

  predicate Same(u: string, i: nat, v: string, j: nat, k: nat) { CharAt(u, i + k) == CharAt(v, j + k) }

  /** From i on u has the n characters that v has from j on; the end of a string counts as a NUL. */
  predicate Agree(u: string, i: nat, v: string, j: nat, n: nat) {
    i + n <= |u| + 1 && j + n <= |v| + 1 && forall k :: 0 <= k < n ==> Same(u, i, v, j, k)
  }

  function Moved(c: Cursor, i: nat, j: nat): Cursor
    requires c.at >= j
  {
    c.(at := i + (c.at - j))
  }

  lemma {:induction false} RunSame(u: string, i: nat, v: string, j: nat, n: nat, p: nat, base: nat)
    requires Agree(u, i, v, j, n) && j + p <= |v| && i + p <= |u| && p + Run(v, j + p, base) < n
    ensures Run(u, i + p, base) == Run(v, j + p, base)
    decreases n - p
  {
    assert Same(u, i, v, j, p);
    if j + p < |v| && Accepts(v[j + p], base) {
      RunSame(u, i, v, j, n, p + 1, base);
    }
  }

  lemma {:induction false} SliceSame(u: string, i: nat, v: string, j: nat, n: nat, p: nat, k: nat)
    requires Agree(u, i, v, j, n) && p + k < n
    ensures u[i + p..i + p + k] == v[j + p..j + p + k]
  {
    if k > 0 {
      SliceSame(u, i, v, j, n, p, k - 1);
      assert Same(u, i, v, j, p + k - 1);
      assert u[i + p..i + p + k] == u[i + p..i + p + k - 1] + [u[i + p + k - 1]];
      assert v[j + p..j + p + k] == v[j + p..j + p + k - 1] + [v[j + p + k - 1]];
    }
  }

  lemma ReadIntSame(u: string, i: nat, v: string, j: nat, n: nat, p: nat)
    requires Agree(u, i, v, j, n) && j + p <= |v| && i + p <= |u| && p + Run(v, j + p, 10) < n
    ensures Run(u, i + p, 10) == Run(v, j + p, 10) && ReadInt(u, i + p) == ReadInt(v, j + p)
  {
    hide Run, Agree;
    RunSame(u, i, v, j, n, p, 10);
    SliceSame(u, i, v, j, n, p, Run(v, j + p, 10));
  }

  lemma {:induction false} FlagsSame(u: string, i: nat, v: string, j: nat, n: nat, p: nat, q: Param)
    requires Agree(u, i, v, j, n) && j + p <= |v| && i + p <= |u| && Flags(v, j + p, q).at < j + n
    ensures Flags(u, i + p, q) == Moved(Flags(v, j + p, q), i, j)
    decreases n - p
  {
    var ch := CharAt(v, j + p);
    assert Same(u, i, v, j, p);
    if IsFlag(ch) {
      var q' := if ch == '-' then q.(alignLeft := true) else if ch == '0' then q.(lz := true) else q.(alt := true);
      FlagsSame(u, i, v, j, n, p + 1, q');
    }
  }

  lemma WidthSame(u: string, i: nat, v: string, j: nat, n: nat, c: Cursor, args: seq<Arg>)
    requires Agree(u, i, v, j, n) && j <= c.at <= |v| && i + (c.at - j) <= |u| && Width(v, c, args).at < j + n
    ensures Width(u, Moved(c, i, j), args) == Moved(Width(v, c, args), i, j)
  {
    hide Run, ReadInt, ToInt32;
    var p := c.at - j;
    assert Same(u, i, v, j, p);
    if IsDigit(CharAt(v, c.at)) {
      hide Agree;
      ReadIntSame(u, i, v, j, n, p);
    }
  }

  lemma PrecisionSame(u: string, i: nat, v: string, j: nat, n: nat, c: Cursor, args: seq<Arg>)
    requires Agree(u, i, v, j, n) && j <= c.at <= |v| && i + (c.at - j) <= |u| && Precision(v, c, args).at < j + n
    ensures Precision(u, Moved(c, i, j), args) == Moved(Precision(v, c, args), i, j)
  {
    hide Run, ReadInt, ToInt32;
    var p := c.at - j;
    assert Same(u, i, v, j, p);
    if CharAt(v, c.at) == '.' {
      assert Same(u, i, v, j, p + 1);
      if IsDigit(CharAt(v, c.at + 1)) {
        hide Agree;
        ReadIntSame(u, i, v, j, n, p + 1);
      }
    }
  }

  lemma LengthSame(u: string, i: nat, v: string, j: nat, n: nat, p: nat)
    requires Agree(u, i, v, j, n) && j + p <= |v| && i + p <= |u| && LengthEnd(v, j + p) < j + n
    ensures LengthEnd(u, i + p) - i == LengthEnd(v, j + p) - j
  {
    assert Same(u, i, v, j, p);
    if p + 1 < n {
      assert Same(u, i, v, j, p + 1);
    }
  }

  /** A directive is read the same wherever it stands. */
  lemma ParseSame(u: string, i: nat, v: string, j: nat, n: nat, p: nat, args: seq<Arg>, arg: nat)
    requires Agree(u, i, v, j, n) && j + p <= |v| && i + p <= |u| && Parse(v, j + p, args, arg).at < j + n
    ensures var d := Parse(v, j + p, args, arg); Parse(u, i + p, args, arg) == d.(at := i + (d.at - j))
  {
    hide Flags, Width, Precision, LengthEnd, Same;
    var f := Flags(v, j + p, PLAIN).(arg := arg);
    var w := Width(v, f, args);
    var r := Precision(v, w, args);
    ParseIs(v, j + p, args, arg);
    ParseIs(u, i + p, args, arg);
    hide Parse;
    FlagsSame(u, i, v, j, n, p, PLAIN);
    WidthSame(u, i, v, j, n, f, args);
    PrecisionSame(u, i, v, j, n, w, args);
    LengthSame(u, i, v, j, n, r.at - j);
  }

  lemma Behind(f: string, g: string)
    ensures Agree(f + g, |f|, g, 0, |g| + 1)
  {
  }

  lemma ConvertIgnoresPlace(d: Directive, at: nat, conv: char, args: seq<Arg>, base: nat)
    ensures Convert(d.(at := at), conv, args, base) == Convert(d, conv, args, base)
  {
    hide Numeric, Prefixed, Layout, Unsigned, SignedArg;
  }

  /** What is printed from a place on depends on the rest of the format alone. */
  lemma {:induction false} RestOfFormat(f: string, g: string, p: nat, args: seq<Arg>, arg: nat, base: nat)
    requires p <= |g|
    ensures Format.Format(f + g, |f| + p, args, arg, base) == Format.Format(g, p, args, arg, base)
    decreases |g| - p
  {
    hide Parse, Convert;
    var u := f + g;
    Behind(f, g);
    assert Same(u, |f|, g, 0, p);
    if p < |g| && g[p] != '\0' {
      if g[p] != '%' {
        RestOfFormat(f, g, p + 1, args, arg, base);
      } else {
        var d := Parse(g, p + 1, args, arg);
        ParseSame(u, |f|, g, 0, |g| + 1, p + 1, args, arg);
        var e := Parse(u, |f| + p + 1, args, arg);
        assert e == d.(at := |f| + d.at);
        assert Same(u, |f|, g, 0, d.at);
        if d.at < |g| && g[d.at] != '\0' {
          var c := Convert(d, g[d.at], args, base);
          RestOfFormat(f, g, d.at + 1, args, d.arg + c.used, c.base);
          ConvertIgnoresPlace(d, e.at, g[d.at], args, base);
        }
      }
    }
  }

  // ----- pieces -----

  /** Text that contains neither a percent sign nor a NUL. */
  predicate IsText(f: string) { '%' !in f && '\0' !in f }

  /** A directive from its percent sign to its conversion character. */
  predicate IsDirective(f: string) {
    |f| >= 2 && f[0] == '%' && f[|f| - 1] != '\0' && Parse(f, 1, [], 0).at == |f| - 1
  }

  predicate IsPiece(f: string) { IsText(f) || IsDirective(f) }

  predicate TakesArgument(conv: char) { IsNumber(conv) || conv == 'c' || conv == 's' }

  function Asterisks(s: string): nat {
    if s == "" then 0 else Asterisks(s[..|s| - 1]) + (if s[|s| - 1] == '*' then 1 else 0)
  }

  /** The arguments a piece takes: one for each asterisk before the conversion character and one for most
      conversions. */
  function ArgumentsOf(f: string): nat {
    if f == "" || f[0] != '%' then 0
    else Asterisks(f[..|f| - 1]) + if TakesArgument(f[|f| - 1]) then 1 else 0
  }

  /** The base that a numeric conversion leaves behind for %#s. */
  function BaseAfter(f: string, base: nat): nat {
    if f == "" || f[0] != '%' || !IsNumber(f[|f| - 1]) then base else BaseOf(f[|f| - 1])
  }

  lemma {:induction false} NoAsterisks(s: string)
    requires '*' !in s
    ensures Asterisks(s) == 0
  {
    if s != "" { NoAsterisks(s[..|s| - 1]); }
  }

  lemma {:induction false} AsterisksSum(a: string, b: string)
    ensures Asterisks(a + b) == Asterisks(a) + Asterisks(b)
  {
    if b == "" {
      assert a + b == a;
    } else {
      assert (a + b)[..|a + b| - 1] == a + b[..|b| - 1];
      AsterisksSum(a, b[..|b| - 1]);
    }
  }

  /** A width or a precision has an asterisk exactly if it comes from an argument. */
  lemma AmountAsterisks(fmt: string, at: nat, end: nat, args: seq<Arg>, arg: nat, a: Amount)
    requires AmountAt(fmt, at, end, args, arg, a)
    ensures Asterisks(fmt[at..end]) == Stars(a)
  {
    hide TextValue, ToInt32;
    if CharAt(fmt, at) == '*' {
      assert fmt[at..end] == "" + "*";
      AsterisksSum("", "*");
    } else {
      assert '*' !in fmt[at..end];
      NoAsterisks(fmt[at..end]);
    }
  }

  lemma FlagAsterisks(fmt: string, at: nat, end: nat)
    requires FlagRun(fmt, at, end)
    ensures Asterisks(fmt[at..end]) == 0
  {
    assert '*' !in fmt[at..end];
    NoAsterisks(fmt[at..end]);
  }

  lemma AsterisksCut(f: string, a: nat, b: nat, c: nat)
    requires a <= b <= c <= |f|
    ensures Asterisks(f[a..c]) == Asterisks(f[a..b]) + Asterisks(f[b..c])
  {
    assert f[a..c] == f[a..b] + f[b..c];
    AsterisksSum(f[a..b], f[b..c]);
  }

  lemma WidthPlace(f: string, c: Cursor, e: Cursor, args: seq<Arg>)
    requires c.at == e.at <= |f|
    ensures Width(f, c, args).at == Width(f, e, []).at
  {
    hide Run, ReadInt, ToInt32, WordArg;
  }

  lemma PrecisionPlace(f: string, c: Cursor, e: Cursor, args: seq<Arg>)
    requires c.at == e.at <= |f|
    ensures Precision(f, c, args).at == Precision(f, e, []).at
  {
    hide Run, ReadInt, ToInt32, WordArg;
  }

  /** Where a directive ends does not depend on the arguments. */
  lemma ParsePlace(f: string, at: nat, args: seq<Arg>, arg: nat)
    requires at <= |f|
    ensures Parse(f, at, args, arg).at == Parse(f, at, [], 0).at
  {
    ParseIs(f, at, args, arg);
    ParseIs(f, at, [], 0);
    hide Parse, Flags, Width, Precision, LengthEnd;
    var c := Flags(f, at, PLAIN);
    WidthPlace(f, c.(arg := arg), c.(arg := 0), args);
    PrecisionPlace(f, Width(f, c.(arg := arg), args), Width(f, c.(arg := 0), []), args);
  }

  lemma OneAsterisk(f: string, k: nat)
    requires k < |f|
    ensures Asterisks(f[k..k + 1]) == if f[k] == '*' then 1 else 0
  {
    assert f[k..k + 1][..0] == "";
  }

  lemma NoneAsterisk(f: string, k: nat)
    requires k <= |f|
    ensures Asterisks(f[k..k]) == 0
  {
    assert f[k..k] == "";
  }

  /** A length modifier. */
  lemma EndAsterisks(f: string, k: nat, end: nat)
    requires k <= end < |f|
    requires var ch := CharAt(f, k);
             end == k + (if ch == 'l' && CharAt(f, k + 1) == 'l' then 2 else if ch == 'l' || ch == 'z' then 1 else 0)
    ensures Asterisks(f[k..end]) == 0
  {
    hide Asterisks;
    NoneAsterisk(f, end);
    if end > k {
      OneAsterisk(f, k);
      AsterisksCut(f, k, k + 1, end);
    }
    if end > k + 1 {
      OneAsterisk(f, k + 1);
    }
  }

  lemma PartedInOrder(f: string, args: seq<Arg>, arg: nat, x: Parts)
    requires f != "" && IsParted(f, 1, args, arg, x)
    ensures 1 <= x.flags <= x.width <= x.prec <= |f|
  {
    hide TextValue, ToInt32, Accepts, IsFlag;
  }

  lemma PartAsterisks(f: string, args: seq<Arg>, arg: nat, x: Parts)
    requires f != "" && f[0] == '%' && IsParted(f, 1, args, arg, x)
    ensures 1 <= x.flags <= x.width <= x.prec <= |f|
    ensures Asterisks(f[..x.prec]) == Stars(x.wide) + Stars(x.precise)
  {
    PartedInOrder(f, args, arg, x);
    hide AmountAt, FlagRun;
    FlagAsterisks(f, 1, x.flags);
    AmountAsterisks(f, x.flags, x.width, args, arg, x.wide);
    BehindPeriod(f, args, arg, x);
    assert f[..x.prec] == f[0..x.prec] && '*' !in f[0..1];
    NoAsterisks(f[0..1]);
    AsterisksCut(f, 0, 1, x.prec);
    AsterisksCut(f, 1, x.flags, x.prec);
    AsterisksCut(f, x.flags, x.width, x.prec);
  }

  lemma BehindPeriod(f: string, args: seq<Arg>, arg: nat, x: Parts)
    requires IsParted(f, 1, args, arg, x) && x.width <= x.prec <= |f|
    ensures Asterisks(f[x.width..x.prec]) == Stars(x.precise)
  {
    if CharAt(f, x.width) == '.' {
      PeriodInside(f, args, arg, x);
      hide AmountAt, FlagRun;
      AmountAsterisks(f, x.width + 1, x.prec, args, arg + Stars(x.wide), x.precise);
      assert '*' !in f[x.width..x.width + 1];
      NoAsterisks(f[x.width..x.width + 1]);
      AsterisksCut(f, x.width, x.width + 1, x.prec);
    } else {
      NoAsterisks(f[x.width..x.prec]);
    }
  }

  lemma PeriodInside(f: string, args: seq<Arg>, arg: nat, x: Parts)
    requires IsParted(f, 1, args, arg, x) && CharAt(f, x.width) == '.'
    ensures x.width + 1 <= x.prec
  {
    hide TextValue, ToInt32, Accepts, IsFlag;
  }

  /** How many arguments the interpreter has taken when it reaches the conversion character. */
  lemma AsterisksAreTaken(f: string, args: seq<Arg>, arg: nat)
    requires IsDirective(f)
    ensures var d := Parse(f, 1, args, arg); d.at == |f| - 1 && d.arg == arg + Asterisks(f[..|f| - 1])
  {
    hide *;
    Ends(f);
    ParsePlace(f, 1, args, arg);
    var x := DirectiveMeaning(f, 1, args, arg);
    PartAsterisks(f, args, arg, x);
    EndAsterisks(f, x.prec, |f| - 1);
    AsterisksCut(f, 0, x.prec, |f| - 1);
    assert f[0..x.prec] == f[..x.prec] && f[0..|f| - 1] == f[..|f| - 1];
  }

  /** What a conversion takes and leaves. */
  lemma ConvertTakes(d: Directive, conv: char, args: seq<Arg>, base: nat)
    ensures var c := Convert(d, conv, args, base);
            && c.used == (if TakesArgument(conv) then 1 else 0)
            && c.base == if IsNumber(conv) then BaseOf(conv) else base
  {
    hide Numeric, Prefixed, Layout, Unsigned, SignedArg;
  }

  // ----- a piece in front -----

  lemma {:induction false} TextFrom(f: string, g: string, p: nat, args: seq<Arg>, arg: nat, base: nat)
    requires IsText(f) && p <= |f|
    ensures Format.Format(f + g, p, args, arg, base) == f[p..] + Format.Format(f + g, |f|, args, arg, base)
    decreases |f| - p
  {
    hide Parse, Convert;
    if p < |f| {
      TextFrom(f, g, p + 1, args, arg, base);
      assert (f + g)[p] == f[p] && f[p] in f;
      assert f[p..] == [f[p]] + f[p + 1..];
    } else {
      assert f[p..] == "";
    }
  }

  lemma TextFirst(f: string, g: string, args: seq<Arg>, arg: nat, base: nat)
    requires IsText(f)
    ensures Format.Format(f + g, 0, args, arg, base) == f + Format.Format(g, 0, args, arg, base)
  {
    hide IsText;
    TextFrom(f, g, 0, args, arg, base);
    RestOfFormat(f, g, 0, args, arg, base);
    assert f[0..] == f;
  }

  lemma Front(f: string, g: string)
    ensures Agree(f + g, 0, f, 0, |f|)
  {
    forall k | 0 <= k < |f|
      ensures Same(f + g, 0, f, 0, k)
    {
    }
  }

  lemma DirectiveFirst(f: string, g: string, args: seq<Arg>, arg: nat, base: nat)
    requires IsDirective(f)
    ensures var c := Convert(Parse(f, 1, args, arg), f[|f| - 1], args, base);
            Format.Format(f + g, 0, args, arg, base)
            == c.text + Format.Format(g, 0, args, arg + ArgumentsOf(f), BaseAfter(f, base))
  {
    hide *;
    Ends(f);
    var d := Parse(f, 1, args, arg);
    AsterisksAreTaken(f, args, arg);
    StillDirective(f, g, args, arg);
    ConvertTakes(d, f[|f| - 1], args, base);
    FirstDirective(f + g, args, arg, base);
    RestOfFormat(f, g, 0, args, arg + ArgumentsOf(f), BaseAfter(f, base));
    Taken(f, base);
  }

  lemma Ends(f: string)
    requires IsDirective(f)
    ensures |f| >= 2 && f[0] == '%' && f[|f| - 1] != '\0' && Parse(f, 1, [], 0).at == |f| - 1
  {
    hide Parse;
  }

  lemma Taken(f: string, base: nat)
    requires |f| >= 2 && f[0] == '%'
    ensures ArgumentsOf(f) == Asterisks(f[..|f| - 1]) + if TakesArgument(f[|f| - 1]) then 1 else 0
    ensures BaseAfter(f, base) == if IsNumber(f[|f| - 1]) then BaseOf(f[|f| - 1]) else base
  {
    hide TakesArgument, Asterisks;
  }

  /** A directive with something behind it is read as it is by itself. */
  lemma StillDirective(f: string, g: string, args: seq<Arg>, arg: nat)
    requires f != "" && Parse(f, 1, args, arg).at == |f| - 1 && f[|f| - 1] != '\0'
    ensures Parse(f + g, 1, args, arg) == Parse(f, 1, args, arg)
    ensures (f + g)[0] == f[0] && (f + g)[|f| - 1] == f[|f| - 1] && CharAt(f + g, |f| - 1) == f[|f| - 1]
  {
    hide Parse, Same;
    Front(f, g);
    ParseSame(f + g, 0, f, 0, |f|, 1, args, arg);
  }

  lemma FirstDirective(u: string, args: seq<Arg>, arg: nat, base: nat)
    requires u != "" && u[0] == '%' && CharAt(u, Parse(u, 1, args, arg).at) != '\0'
    ensures var d := Parse(u, 1, args, arg);
            var c := Convert(d, u[d.at], args, base);
            Format.Format(u, 0, args, arg, base) == c.text + Format.Format(u, d.at + 1, args, d.arg + c.used, c.base)
  {
    hide Parse, Convert;
  }

  /** A piece prints what it prints by itself, and what follows it goes on with the arguments and the base it leaves. */
  lemma PieceFirst(f: string, g: string, args: seq<Arg>, arg: nat, base: nat)
    requires IsPiece(f)
    ensures Format.Format(f + g, 0, args, arg, base)
         == Format.Format(f, 0, args, arg, base)
            + Format.Format(g, 0, args, arg + ArgumentsOf(f), BaseAfter(f, base))
  {
    hide *;
    PieceIs(f);
    Nothing(args, arg + ArgumentsOf(f), BaseAfter(f, base));
    assert f + "" == f;
    if IsDirective(f) {
      DirectiveFirst(f, g, args, arg, base);
      DirectiveFirst(f, "", args, arg, base);
    } else {
      TextFirst(f, g, args, arg, base);
      TextFirst(f, "", args, arg, base);
      TakesNothing(f, base);
    }
  }

  lemma PieceIs(f: string)
    requires IsPiece(f)
    ensures IsText(f) || IsDirective(f)
  {
    hide IsText, IsDirective;
  }

  lemma Nothing(args: seq<Arg>, arg: nat, base: nat)
    ensures Format.Format("", 0, args, arg, base) == ""
  {
  }

  lemma TakesNothing(f: string, base: nat)
    requires IsText(f)
    ensures ArgumentsOf(f) == 0 && BaseAfter(f, base) == base
  {
    hide Asterisks, TakesArgument;
  }

  // ----- all pieces -----

  function Flat(pieces: seq<string>): string { if pieces == [] then "" else pieces[0] + Flat(pieces[1..]) }

  function PrintedOneByOne(pieces: seq<string>, args: seq<Arg>, arg: nat, base: nat): string {
    if pieces == [] then ""
    else
      var f := pieces[0];
      Format.Format(f, 0, args, arg, base)
      + PrintedOneByOne(pieces[1..], args, arg + ArgumentsOf(f), BaseAfter(f, base))
  }

  /** A format is printed piece by piece, and the arguments are taken in order: as many for each directive as it has
      asterisks and conversions that need one. */
  lemma {:induction false} FormatOfPieces(pieces: seq<string>, args: seq<Arg>, arg: nat, base: nat)
    requires forall f :: f in pieces ==> IsPiece(f)
    ensures Format.Format(Flat(pieces), 0, args, arg, base) == PrintedOneByOne(pieces, args, arg, base)
  {
    if pieces != [] {
      var f := pieces[0];
      hide Format.Format, IsPiece, ArgumentsOf, BaseAfter;
      PieceFirst(f, Flat(pieces[1..]), args, arg, base);
      FormatOfPieces(pieces[1..], args, arg + ArgumentsOf(f), BaseAfter(f, base));
    }
  }
}
