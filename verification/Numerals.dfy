/** Digit generation and number parsing of the printer (lib/bsp/printf.c). */
module Numerals {

  function Pow(b: nat, e: nat): nat {
    if e == 0 then 1 else b * Pow(b, e - 1)
  }

  /** Number of values of an unsigned type with this many bits. */
  function Limit(bits: nat): nat { Pow(2, bits) }

  // ----- division -----

  lemma DivEquation(n: nat, base: nat)
    requires base >= 1
    ensures n == (n / base) * base + n % base && n % base < base
  {
  }

  lemma ProductMonotone(a: nat, b: nat, c: nat)
    requires a <= b
    ensures a * c <= b * c
  {
  }

  lemma DivLess(n: nat, base: nat)
    requires base >= 2 && n >= base
    ensures 1 <= n / base < n
  {
    var q := n / base;
    DivEquation(n, base);
    if q >= n {
      ProductMonotone(n, q, base);
      ProductMonotone(2, base, n);
    }
  }

  lemma DivMod(q: nat, base: nat, r: nat)
    requires r < base
    ensures (q * base + r) / base == q && (q * base + r) % base == r
  {
    var x := q * base + r;
    var p := x / base;
    DivEquation(x, base);
    if p > q {
      ProductMonotone(q + 1, p, base);
    } else if p < q {
      ProductMonotone(p + 1, q, base);
    }
  }

  // ----- numerals as digit sequences, most significant first -----

  function Value(ds: seq<nat>, base: nat): nat {
    if ds == [] then 0 else Value(ds[..|ds| - 1], base) * base + ds[|ds| - 1]
  }

  predicate Canonical(ds: seq<nat>, base: nat) {
    && ds != [] && (forall i :: 0 <= i < |ds| ==> ds[i] < base)
    && (|ds| > 1 ==> ds[0] != 0)
  }

  function Digits(n: nat, base: nat): (ds: seq<nat>)
    requires base >= 2
  {
    if n < base then [n]
    else
      DivLess(n, base);
      DivEquation(n, base);
      Digits(n / base, base) + [n % base]
  }

  /** `Digits` is the canonical numeral: in range, without leading zero, and worth n. */
  lemma {:induction false} DigitsAreCanonical(n: nat, base: nat)
    requires base >= 2
    ensures Canonical(Digits(n, base), base) && Value(Digits(n, base), base) == n
    ensures n >= 1 ==> Digits(n, base)[0] != 0
  {
    if n < base {
      assert Digits(n, base)[..0] == [];
    } else {
      DivLess(n, base);
      DivEquation(n, base);
      DigitsAreCanonical(n / base, base);
      var ds := Digits(n, base);
      assert ds[..|ds| - 1] == Digits(n / base, base);
      assert ds[0] == Digits(n / base, base)[0];
    }
  }

  lemma {:induction false} CanonicalPositive(ds: seq<nat>, base: nat)
    requires base >= 2 && Canonical(ds, base) && ds[0] != 0
    ensures Value(ds, base) >= 1
    ensures |ds| > 1 ==> Value(ds, base) >= base
  {
    if |ds| > 1 {
      var front := ds[..|ds| - 1];
      assert front[0] == ds[0];
      CanonicalPositive(front, base);
      assert Value(front, base) * base >= base;
    } else {
      assert ds[..0] == [];
    }
  }

  /** Each number has one canonical numeral. */
  lemma {:induction false} CanonicalIsUnique(ds: seq<nat>, base: nat)
    requires base >= 2 && Canonical(ds, base)
    ensures ds == Digits(Value(ds, base), base)
  {
    var n := |ds| - 1;
    if n == 0 {
      assert ds[..0] == [];
      assert ds == [ds[0]];
    } else {
      var front := ds[..n];
      assert front[0] == ds[0];
      CanonicalIsUnique(front, base);
      CanonicalPositive(ds, base);
      DivMod(Value(front, base), base, ds[n]);
      assert ds == front + [ds[n]];
    }
  }

  // ----- characters -----

  function DigitChar(d: nat, uc: bool): char
    requires d < 16
  {
    if d < 10 then '0' + d as char else (if uc then 'A' else 'a') + (d - 10) as char
  }

  function Chars(ds: seq<nat>, uc: bool): (s: string)
    requires forall i :: 0 <= i < |ds| ==> ds[i] < 16
    ensures |s| == |ds| && forall i :: 0 <= i < |ds| ==> s[i] == DigitChar(ds[i], uc)
  {
    seq(|ds|, i requires 0 <= i < |ds| => DigitChar(ds[i], uc))
  }

  /** The text of a number: nothing at all for 0 with precision 0. */
  function Printed(num: nat, prec: int, base: nat, uc: bool): string
    requires 2 <= base <= 16
  {
    DigitsAreCanonical(num, base);
    if prec == 0 && num == 0 then "" else Chars(Digits(num, base), uc)
  }

  // ----- powers -----

  lemma {:induction false} PowPositive(b: nat, e: nat)
    requires b >= 1
    ensures Pow(b, e) >= 1
  {
    if e > 0 { PowPositive(b, e - 1); }
  }

  lemma {:induction false} PowGrows(b: nat, e: nat, f: nat)
    requires b >= 1 && e <= f
    ensures Pow(b, e) <= Pow(b, f)
    decreases f
  {
    if e < f {
      PowGrows(b, e, f - 1);
      PowPositive(b, f - 1);
      assert b * Pow(b, f - 1) >= Pow(b, f - 1);
    }
  }

  /** The buffer of 20 characters is enough for every conversion tfp_format dispatches: 64 bits in
      base 10 or 16, 32 bits in base 8. */
  predicate Dispatched(base: nat, bits: nat) {
    ((base == 10 || base == 16) && (bits == 32 || bits == 64)) || (base == 8 && bits == 32)
  }

  const BF_MAX := 20

  lemma PowSquares(b: nat)
    ensures Pow(b, 2) == b * b && Pow(b, 3) == b * (b * b)
    ensures Pow(b, 4) == (b * b) * (b * b)
  {
    assert Pow(b, 1) == b;
    assert Pow(b, 2) == b * Pow(b, 1);
    assert Pow(b, 3) == b * Pow(b, 2);
    assert Pow(b, 4) == b * Pow(b, 3);
  }

  lemma {:induction false} PowAdd(b: nat, e: nat, f: nat)
    ensures Pow(b, e + f) == Pow(b, e) * Pow(b, f)
  {
    if e > 0 {
      PowAdd(b, e - 1, f);
      assert Pow(b, e + f) == b * Pow(b, e - 1 + f);
      assert b * (Pow(b, e - 1) * Pow(b, f)) == (b * Pow(b, e - 1)) * Pow(b, f);
    }
  }

  lemma LimitValues()
    ensures Limit(32) == 0x1_0000_0000 && Limit(64) == 0x1_0000_0000_0000_0000
  {
    PowSquares(2);
    PowAdd(2, 4, 4); PowAdd(2, 8, 8); PowAdd(2, 16, 16); PowAdd(2, 32, 32);
  }

  lemma BufferSuffices(base: nat, bits: nat)
    requires Dispatched(base, bits)
    ensures Limit(bits) <= Pow(base, BF_MAX)
  {
    LimitValues();
    PowSquares(base);
    PowAdd(base, 4, 4); PowAdd(base, 8, 8); PowAdd(base, 16, 4);
    PowGrows(base, 16, 20);
  }

  lemma PowZero(b: nat)
    ensures Pow(b, 0) == 1
  {
  }

  lemma PowNext(b: nat, e: nat)
    ensures Pow(b, e + 1) == Pow(b, e) * b
  {
  }

  /** The first loop: the greatest power of the base that num covers.  The multiplication is done modulo
      the type's range, and it never wraps. */
  method LeadingPower(num: nat, base: nat, bits: nat) returns (d: nat, ghost e: nat)
    requires Dispatched(base, bits) && num < Limit(bits)
    ensures d == Pow(base, e) && d >= 1 && (num >= 1 ==> d <= num) && num < d * base
    ensures e < BF_MAX && (num == 0 ==> d == 1)
  {
    hide Pow;
    d, e := 1, 0;
    PowZero(base);
    while num / d >= base
      invariant d == Pow(base, e) && d >= 1 && (e > 0 ==> d <= num) && (e == 0 ==> d == 1)
      decreases num - d
    {
      NextPower(num, d, base);
      PowNext(base, e);
      NoWrap(d * base, Limit(bits));
      d := (d * base) % Limit(bits);
      e := e + 1;
    }
    BufferSuffices(base, bits);
    ExponentBound(base, e, num, Limit(bits));
    LeadingUnit(num, d, base);
  }

  /** The digits emitted so far, and the rest of the number that is still to be split. */
  ghost predicate Split(number: nat, base: nat, ds: seq<nat>, unit: nat, num: nat) {
    number == Value(ds, base) * unit + num && num < unit
  }

  lemma SplitStart(number: nat, base: nat, d: nat) returns (unit: nat)
    requires number < d * base
    ensures unit == d * base && Split(number, base, [], unit, number)
  {
    unit := d * base;
    assert 0 * unit == 0;
  }

  lemma SplitNext(number: nat, base: nat, ds: seq<nat>, unit: nat, d: nat, num: nat)
    requires d >= 1 && unit == d * base && Split(number, base, ds, unit, num)
    ensures 0 <= num / d < base && Split(number, base, ds + [num / d], d, num % d)
    ensures num >= d ==> num / d >= 1
  {
    SplitDigit(number, Value(ds, base), num, d, base);
    assert (ds + [num / d])[..|ds|] == ds;
  }

  lemma SplitDone(number: nat, base: nat, ds: seq<nat>, num: nat)
    requires base >= 2 && Split(number, base, ds, 1, num) && Canonical(ds, base)
    ensures ds == Digits(number, base)
  {
    CanonicalIsUnique(ds, base);
  }

  /** ulli2a, uli2a and ui2a, which differ only in the width of the number: the buffer receives the
      canonical numeral, and nothing at all for 0 with precision 0. */
  method Ulli2a(number: nat, prec: int, base: nat, uc: bool, bits: nat, bf: array<char>) returns (len: nat)
    requires Dispatched(base, bits) && number < Limit(bits) && bf.Length == BF_MAX
    modifies bf
    ensures len <= BF_MAX && bf[..len] == Printed(number, prec, base, uc)
  {
    hide Pow;
    hide Value;
    hide Split;
    hide Digits;
    if prec == 0 && number == 0 { return 0; }
    var d, e := LeadingPower(number, base, bits);
    var num: nat := number;
    len := 0;
    ghost var ds: seq<nat> := [];
    ghost var unit := SplitStart(number, base, d);
    while d != 0
      invariant len == |ds| && len + (if d == 0 then 0 else e + 1) <= BF_MAX
      invariant if d == 0 then unit == 1 && ds != [] else d == Pow(base, e) && unit == d * base
      invariant Split(number, base, ds, unit, num)
      invariant forall i :: 0 <= i < |ds| ==> ds[i] < base
      invariant ds == [] ==> num == number && (number >= 1 ==> d <= num) && (number == 0 ==> d == 1)
      invariant ds != [] ==> (if number == 0 then |ds| == 1 && d == 0 else ds[0] != 0)
      invariant forall i :: 0 <= i < len ==> bf[i] == DigitChar(ds[i], uc)
      decreases d
    {
      SplitNext(number, base, ds, unit, d, num);
      SmallerPower(base, e, d);
      var dgt: nat := num / d;
      num := num % d;
      unit := d;
      d := d / base;
      ds := ds + [dgt];
      bf[len] := DigitChar(dgt, uc);
      len := len + 1;
      if d != 0 { e := e - 1; }
    }
    SplitDone(number, base, ds, num);
    assert bf[..len] == Chars(ds, uc);
  }

  lemma SmallerPower(base: nat, e: nat, d: nat)
    requires base >= 2 && d == Pow(base, e) && d >= 1
    ensures if d == 1 then d / base == 0 else e > 0 && d / base == Pow(base, e - 1) && d == (d / base) * base && 1 <= d / base < d
  {
    if d > 1 {
      PowerStep(base, e, d);
      ProductMonotone(2, base, d / base);
    }
  }

  lemma NextPower(num: nat, d: nat, base: nat)
    requires d >= 1 && base >= 2 && num / d >= base
    ensures d < d * base <= num
  {
    assert (num / d) * d <= num;
    assert base * d <= (num / d) * d;
    assert d * base >= d * 2;
  }

  lemma NoWrap(x: nat, limit: nat)
    requires x < limit
    ensures x % limit == x
  {
  }

  lemma ExponentBound(base: nat, e: nat, num: nat, limit: nat)
    requires base >= 2 && (e > 0 ==> Pow(base, e) <= num) && num < limit <= Pow(base, BF_MAX)
    ensures e < BF_MAX
  {
    if e >= BF_MAX { PowGrows(base, BF_MAX, e); }
  }

  lemma LeadingUnit(num: nat, d: nat, base: nat)
    requires d >= 1 && num / d < base
    ensures num < d * base
  {
    assert num < (num / d + 1) * d;
    assert (num / d + 1) * d <= base * d;
  }

  lemma SplitDigit(number: nat, high: nat, num: nat, d: nat, base: nat)
    requires d >= 1 && num < d * base && number == high * (d * base) + num
    ensures num / d < base && number == (high * base + num / d) * d + num % d && num % d < d
    ensures num >= d ==> num / d >= 1
  {
    assert num == (num / d) * d + num % d;
    if num / d >= base {
      ProductMonotone(base, num / d, d);
    }
    assert high * (d * base) == (high * base) * d;
  }

  lemma PowerStep(base: nat, e: nat, d: nat)
    requires base >= 2 && d == Pow(base, e) && d > 1
    ensures e > 0 && d / base == Pow(base, e - 1) && d == (d / base) * base && d / base >= 1
  {
    PowPositive(base, e - 1);
    DivMod(Pow(base, e - 1), base, 0);
  }

  // ----- parsing -----

  function A2d(ch: char): int {
    if '0' <= ch <= '9' then ch as int - '0' as int
    else if 'a' <= ch <= 'f' then ch as int - 'a' as int + 10
    else if 'A' <= ch <= 'F' then ch as int - 'A' as int + 10
    else -1
  }

  /** The test in a2u: a digit equal to the base still counts. */
  predicate Accepts(ch: char, base: nat) { 0 <= A2d(ch) <= base }

  /** For the bases of the printer: all digits of hexadecimal numerals and no other characters, but for octal and
      decimal ones the digit above the greatest as well. */
  lemma AcceptedCharacters(ch: char)
    ensures Accepts(ch, 16) <==> '0' <= ch <= '9' || 'a' <= ch <= 'f' || 'A' <= ch <= 'F'
    ensures Accepts(ch, 10) <==> '0' <= ch <= '9' || ch == 'a' || ch == 'A'
    ensures Accepts(ch, 8) <==> '0' <= ch <= '8'
  {
  }

  /** How many characters from `at` on a2u consumes. */
  function Run(text: string, at: nat, base: nat): (k: nat)
    requires at <= |text|
    ensures at + k <= |text|
    ensures forall i :: at <= i < at + k ==> Accepts(text[i], base)
    ensures at + k < |text| ==> !Accepts(text[at + k], base)
    decreases |text| - at
  {
    if at == |text| || !Accepts(text[at], base) then 0 else 1 + Run(text, at + 1, base)
  }

  function TextValue(text: string, base: nat): int {
    if text == "" then 0 else TextValue(text[..|text| - 1], base) * base + A2d(text[|text| - 1])
  }

  /** The character at a position of a NUL-terminated string. */
  function CharAt(text: string, at: nat): char {
    if at < |text| then text[at] else '\0'
  }

  lemma RunUnique(text: string, at: nat, base: nat, k: nat)
    requires at + k <= |text|
    requires forall i :: at <= i < at + k ==> Accepts(text[i], base)
    requires at + k < |text| ==> !Accepts(text[at + k], base)
    ensures Run(text, at, base) == k
  {
    var r := Run(text, at, base);
  }

  /** a2u, started on the character at `at`: it consumes exactly the maximal run of accepted characters
      and returns their value in unsigned 32-bit arithmetic and the position of the next character. */
  method A2u(text: string, at: nat, base: nat) returns (num: nat, next: nat)
    requires at < |text|
    ensures next == at + Run(text, at, base)
    ensures num as int == TextValue(text[at..next], base) % 0x1_0000_0000
  {
    num, next := 0, at;
    var digit := A2d(CharAt(text, next));
    while digit >= 0
      invariant at <= next <= |text| && digit == A2d(CharAt(text, next))
      invariant forall i :: at <= i < next ==> Accepts(text[i], base)
      invariant num as int == TextValue(text[at..next], base) % 0x1_0000_0000
      decreases |text| - next
    {
      if digit > base { break; }
      assert text[at..next + 1][..next - at] == text[at..next];
      WrapStep(TextValue(text[at..next], base), base, digit);
      num := (num * base + digit) % 0x1_0000_0000;
      next := next + 1;
      digit := A2d(CharAt(text, next));
    }
    RunUnique(text, at, base, next - at);
  }

  lemma WrapStep(v: int, base: nat, digit: nat)
    ensures ((v % 0x1_0000_0000) * base + digit) % 0x1_0000_0000 == (v * base + digit) % 0x1_0000_0000
  {
    var m := 0x1_0000_0000;
    var q := v / m;
    assert v * base + digit == (v % m) * base + digit + m * (q * base) by {
      assert v == q * m + v % m;
      assert (q * m) * base == m * (q * base);
    }
    ModShift((v % m) * base + digit, q * base);
  }

  lemma ModShift(x: int, k: int)
    ensures (x + 0x1_0000_0000 * k) % 0x1_0000_0000 == x % 0x1_0000_0000
  {
  }

  lemma CharWorth(d: nat, uc: bool)
    requires d < 16
    ensures A2d(DigitChar(d, uc)) == d
  {
  }

  lemma {:induction false} CharsValue(ds: seq<nat>, base: nat, uc: bool)
    requires base <= 16 && forall i :: 0 <= i < |ds| ==> ds[i] < base
    ensures TextValue(Chars(ds, uc), base) == Value(ds, base)
    ensures forall i :: 0 <= i < |ds| ==> A2d(Chars(ds, uc)[i]) == ds[i]
  {
    forall i | 0 <= i < |ds| ensures A2d(Chars(ds, uc)[i]) == ds[i] {
      CharWorth(ds[i], uc);
    }
    if ds != [] {
      CharsValue(ds[..|ds| - 1], base, uc);
      assert Chars(ds, uc)[..|ds| - 1] == Chars(ds[..|ds| - 1], uc);
    }
  }

  /** Reading back: a2u on the numeral of an unsigned int, followed by any text, stops exactly after the
      numeral if and only if the next character is not accepted, and then it returns the number. */
  lemma ReadBack(num: nat, base: nat, uc: bool, rest: string)
    requires 2 <= base <= 16 && num < 0x1_0000_0000
    ensures var text := Printed(num, 1, base, uc) + rest;
            var k := |Printed(num, 1, base, uc)|;
            && k >= 1
            && (Run(text, 0, base) == k <==> (rest == "" || !Accepts(rest[0], base)))
            && TextValue(text[0..k], base) % 0x1_0000_0000 == num
  {
    hide TextValue, Printed, Run, Accepts, A2d;
    var shown := Printed(num, 1, base, uc);
    NumeralIsAccepted(num, base, uc);
    var text := shown + rest;
    assert text[0..|shown|] == shown;
    assert forall i :: 0 <= i < |shown| ==> text[i] == shown[i];
    if rest == "" || !Accepts(rest[0], base) {
      RunUnique(text, 0, base, |shown|);
    } else {
      assert text[|shown|] == rest[0];
    }
  }

  lemma NumeralIsAccepted(num: nat, base: nat, uc: bool)
    requires 2 <= base <= 16
    ensures var shown := Printed(num, 1, base, uc);
            && |shown| >= 1 && TextValue(shown, base) == num
            && forall i :: 0 <= i < |shown| ==> Accepts(shown[i], base)
  {
    hide TextValue, Value, Digits, A2d;
    var ds := Digits(num, base);
    DigitsAreCanonical(num, base);
    CharsValue(ds, base, uc);
  }
}
