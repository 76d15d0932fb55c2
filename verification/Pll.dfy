/** The PLL divider search and the PLL registers (lib/drivers/sysctl.c).

    `double` is idealised as `real`; `rint` (ties to even), `floor` and `ceil` are exact. */
module Pll {
  import opened Options

  const VCO_MIN := 350000000.0
  const VCO_MAX := 1750000000.0
  const REF_MIN := 13671900.0
  const REF_MAX := 1750000000.0
  const NR_MAX := 16
  const NF_MAX := 64
  const NO_MAX := 16
  const TERR := 0.015625
  const TINY := 0.0000000000000001
  const FREQ_MAX := 1750000000

  function Abs(x: real): real { if x < 0.0 then -x else x }

  function Grown(x: real): real { x * 1.000001 }

  function Shrunk(x: real): real { x * 0.999999 }

  function Rint(x: real): int {
    var f := x.Floor;
    var d := x - f as real;
    if d < 0.5 || (d == 0.5 && f % 2 == 0) then f else f + 1
  }

  function Ceil(x: real): int { -(-x).Floor }

  function Min(a: int, b: int): int { if a < b then a else b }

  /** The greatest d in 1..k that divides nr. */
  function GreatestDivisor(nr: int, k: int): (d: int)
    requires nr >= 1 && k >= 1
    ensures 1 <= d <= k && nr % d == 0
    ensures forall e :: d < e <= k ==> nr % e != 0
  {
    if k == 1 || nr % k == 0 then k else GreatestDivisor(nr, k - 1)
  }

  /** Dividers for the registers, and the relative error they leave. */
  datatype Dividers = Dividers(nrx: int, nfx: int, no: int, err: real)

  /** `widened` marks a candidate whose nf was multiplied, which only the first acceptance may take. */
  datatype Candidate = Candidate(d: Dividers, widened: bool)

  predicate Inputs(fin: int, freq: int) {
    fin > 0 && 1 <= freq <= FREQ_MAX
  }

  function Ratio(fin: int, freq: int): real
    requires Inputs(fin, freq)
  {
    freq as real / fin as real
  }

  function Vco(fin: int, d: Dividers): real
    requires d.nrx != 0
  {
    fin as real / d.nrx as real * d.nfx as real
  }

  /** What a candidate must satisfy to be written into the registers. */
  predicate Fits(fin: int, d: Dividers) {
    && 1 <= d.nrx <= NR_MAX && 1 <= d.nfx <= NF_MAX && 1 <= d.no <= NO_MAX
    && VCO_MIN <= Vco(fin, d) <= VCO_MAX
    && fin as real / d.nrx as real >= REF_MIN
  }

  /** The dividers produce the ratio nfi / nr, the best one for this nfi, with relative error `err`. */
  ghost predicate Produces(fin: int, freq: int, d: Dividers, nfi: int, nr: int)
    requires Inputs(fin, freq)
  {
    && nr >= 1 && nfi >= 1 && nr == Rint(nfi as real / Ratio(fin, freq))
    && d.nfx * nr == nfi * (d.nrx * d.no)
    && d.err == 1.0 - (nfi as real / nr as real) / Ratio(fin, freq)
  }

  /** How one numerator nfi with its rounded denominator nr is spread over the three dividers. */
  function Spread(freq: int, nfi: int, nr: int, err: real): Candidate
    requires 1 <= freq <= FREQ_MAX && nr >= 1 && 1 <= nfi < NF_MAX
  {
    var top := (VCO_MAX / freq as real).Floor;
    var cap := Min(top, NO_MAX);
    var wide := NF_MAX / nfi;
    var no := if cap >= 1 then GreatestDivisor(nr, cap) else 1;
    var nor := Min(cap / no, wide);
    var noe := Ceil(VCO_MIN / freq as real);
    if (no * nor < top / 2 || no * nor < noe) && no * nor < wide then
      var no' := Min(Min(wide, NO_MAX), top);
      Candidate(Dividers(nr, nfi * no', no', err), no' > 1)
    else
      Candidate(Dividers(nr / no, nfi * nor, no * nor, err), nor > 1)
  }

  /** The candidate of one value of nfi, if the tests that do not depend on earlier acceptances pass. */
  function CandidateFor(fin: int, freq: int, nfi: int): Option<Candidate>
    requires Inputs(fin, freq) && 0 <= nfi < NF_MAX
  {
    var nr := Rint(nfi as real / Ratio(fin, freq));
    if nr < 1 || nfi < 1 || fin as real / nr as real > REF_MAX then None
    else
      var err := 1.0 - (nfi as real / nr as real) / Ratio(fin, freq);
      var c := Spread(freq, nfi, nr, err);
      if Fits(fin, c.d) then Some(c) else None
  }

  /** Is `c` taken, after the acceptances `prev`? */
  predicate Improves(prev: seq<Dividers>, c: Candidate) {
    var err := Abs(c.d.err);
    var merr := if prev == [] then TERR else Abs(prev[|prev| - 1].err);
    && (err < Grown(merr) || err < TINY)
    && (err < Shrunk(merr) || c.d.no > (if prev == [] then 0 else prev[|prev| - 1].no))
    && (prev != [] ==> !c.widened && c.d.nrx <= prev[|prev| - 1].nrx)
  }

  /** All acceptances for numerators lo..hi-1, in order. */
  function Accepted(fin: int, freq: int, lo: int, hi: int): seq<Dividers>
    requires Inputs(fin, freq) && 0 <= lo && hi <= NF_MAX
    decreases hi - lo
  {
    if hi <= lo then []
    else
      var prev := Accepted(fin, freq, lo, hi - 1);
      match CandidateFor(fin, freq, hi - 1)
      case Some(c) => if Improves(prev, c) then prev + [c.d] else prev
      case None => prev
  }

  // ----- arithmetic -----

  lemma RatioPositive(fin: int, freq: int)
    requires Inputs(fin, freq)
    ensures Ratio(fin, freq) > 0.0 && Ratio(fin, freq) * fin as real == freq as real
  {
  }

  lemma TopAtLeastOne(freq: int)
    requires 1 <= freq <= FREQ_MAX
    ensures VCO_MAX / freq as real >= 1.0 && (VCO_MAX / freq as real).Floor >= 1
  {
    var x := VCO_MAX / freq as real;
    assert (x - 1.0) * freq as real == VCO_MAX - freq as real;
  }

  lemma QuotientAtLeastOne(a: int, b: int)
    requires 1 <= b <= a
    ensures a / b >= 1 && (a / b) * b <= a
  {
  }

  lemma ProductMonotone(a: int, b: int, c: int)
    requires a >= 0 && b <= c
    ensures a * b <= a * c
  {
  }

  lemma ProductInRange(nfi: int, k: int)
    requires 1 <= nfi < NF_MAX && 1 <= k <= NF_MAX / nfi
    ensures 1 <= nfi * k <= NF_MAX
  {
    QuotientAtLeastOne(NF_MAX, nfi);
    ProductMonotone(nfi, k, NF_MAX / nfi);
    ProductMonotone(nfi, 1, k);
  }

  /** Dividing nr exactly and multiplying nf and no by the same factor keeps the ratio. */
  lemma NarrowKeepsRatio(nfi: int, nr: int, no: int, nor: int, cap: int)
    requires no >= 1 && nr >= 1 && nr % no == 0 && 1 <= nor <= cap / no
    ensures nfi * nor * nr == nfi * ((nr / no) * (no * nor))
    ensures nr / no >= 1 && 1 <= no * nor <= cap
  {
    var q := nr / no;
    assert nr == q * no;
    assert q >= 1 by { if q <= 0 { ProductMonotone(no, q, 0); } }
    assert nfi * nor * nr == nfi * (nor * (q * no));
    assert nor * (q * no) == q * (no * nor);
    ProductMonotone(no, nor, cap / no);
    ProductMonotone(no, 1, nor);
  }

  predicate Proportional(d: Dividers, nfi: int, nr: int) {
    && d.nfx * nr == nfi * (d.nrx * d.no)
    && d.nrx >= 1 && 1 <= d.nfx <= NF_MAX && 1 <= d.no <= NO_MAX
  }

  lemma WideKeepsRatio(nfi: int, nr: int, no: int, err: real)
    requires nr >= 1 && 1 <= nfi < NF_MAX && 1 <= no <= NO_MAX && no <= NF_MAX / nfi
    ensures Proportional(Dividers(nr, nfi * no, no, err), nfi, nr)
  {
    ProductInRange(nfi, no);
    assert nfi * no * nr == nfi * (nr * no);
  }

  /** Both ways of spreading keep the ratio: nfx / (nrx * no) is nfi / nr. */
  lemma SpreadKeepsRatio(freq: int, nfi: int, nr: int, err: real)
    requires 1 <= freq <= FREQ_MAX && nr >= 1 && 1 <= nfi < NF_MAX
    ensures var d := Spread(freq, nfi, nr, err).d;
            Proportional(d, nfi, nr) && d.err == err
  {
    hide Proportional;
    hide GreatestDivisor;
    TopAtLeastOne(freq);
    var top := (VCO_MAX / freq as real).Floor;
    var cap := Min(top, NO_MAX);
    var wide := NF_MAX / nfi;
    QuotientAtLeastOne(NF_MAX, nfi);
    var no := GreatestDivisor(nr, cap);
    QuotientAtLeastOne(cap, no);
    var nor := Min(cap / no, wide);
    NarrowIsProportional(nfi, nr, no, nor, cap, err);
    WideKeepsRatio(nfi, nr, Min(Min(wide, NO_MAX), top), err);
  }

  lemma NarrowIsProportional(nfi: int, nr: int, no: int, nor: int, cap: int, err: real)
    requires no >= 1 && nr >= 1 && nr % no == 0 && 1 <= nor <= cap / no
    requires cap <= NO_MAX && 1 <= nfi < NF_MAX && nor <= NF_MAX / nfi
    ensures Proportional(Dividers(nr / no, nfi * nor, no * nor, err), nfi, nr)
  {
    NarrowKeepsRatio(nfi, nr, no, nor, cap);
    ProductInRange(nfi, nor);
  }

  lemma CandidateIsSound(fin: int, freq: int, nfi: int)
    requires Inputs(fin, freq) && 0 <= nfi < NF_MAX && CandidateFor(fin, freq, nfi).Some?
    ensures var d := CandidateFor(fin, freq, nfi).value.d;
            Fits(fin, d) && exists nr :: Produces(fin, freq, d, nfi, nr)
  {
    var nr := Rint(nfi as real / Ratio(fin, freq));
    var err := 1.0 - (nfi as real / nr as real) / Ratio(fin, freq);
    SpreadKeepsRatio(freq, nfi, nr, err);
    assert Produces(fin, freq, CandidateFor(fin, freq, nfi).value.d, nfi, nr);
  }

  // ----- what the search promises -----

  ghost predicate Sound(fin: int, freq: int, d: Dividers)
    requires Inputs(fin, freq)
  {
    Fits(fin, d) && exists nfi, nr :: Produces(fin, freq, d, nfi, nr)
  }

  /** Every acceptance fits the registers and the VCO and reference limits, and produces its ratio. */
  lemma {:induction false} AcceptedAreSound(fin: int, freq: int, lo: int, hi: int)
    requires Inputs(fin, freq) && 0 <= lo && hi <= NF_MAX
    ensures forall i :: 0 <= i < |Accepted(fin, freq, lo, hi)| ==> Sound(fin, freq, Accepted(fin, freq, lo, hi)[i])
    decreases hi - lo
  {
    if lo < hi {
      AcceptedAreSound(fin, freq, lo, hi - 1);
      if CandidateFor(fin, freq, hi - 1).Some? {
        CandidateIsSound(fin, freq, hi - 1);
      }
    }
  }

  /** The reference divider does not grow, and the error grows at most by one part in a million (or
      stays below 1e-16); an error that is not clearly smaller buys a larger output divider. */
  predicate Tightens(a: Dividers, b: Dividers) {
    && b.nrx <= a.nrx
    && (Abs(b.err) < Grown(Abs(a.err)) || Abs(b.err) < TINY)
    && (Abs(b.err) < Shrunk(Abs(a.err)) || b.no > a.no)
  }

  predicate TightChain(acc: seq<Dividers>) {
    forall i, j :: 0 <= i < |acc| && j == i + 1 && j < |acc| ==> Tightens(acc[i], acc[j])
  }

  lemma ChainGrows(prev: seq<Dividers>, c: Candidate)
    requires TightChain(prev) && Improves(prev, c)
    ensures TightChain(prev + [c.d])
  {
    var acc := prev + [c.d];
    forall i, j | 0 <= i < |acc| && j == i + 1 && j < |acc| ensures Tightens(acc[i], acc[j]) {
      if j < |prev| {
        assert acc[i] == prev[i] && acc[j] == prev[j];
      }
    }
  }

  /** Each acceptance tightens the one before it. */
  lemma {:induction false} AcceptancesTighten(fin: int, freq: int, lo: int, hi: int)
    requires Inputs(fin, freq) && 0 <= lo && hi <= NF_MAX
    ensures TightChain(Accepted(fin, freq, lo, hi))
    decreases hi - lo
  {
    hide CandidateFor;
    hide Improves;
    hide TightChain;
    if lo < hi {
      AcceptancesTighten(fin, freq, lo, hi - 1);
      var prev, c := Accepted(fin, freq, lo, hi - 1), CandidateFor(fin, freq, hi - 1);
      if c.Some? && Improves(prev, c.value) {
        ChainGrows(prev, c.value);
      }
    } else {
      EmptyChain();
    }
  }

  lemma EmptyChain()
    ensures TightChain([])
  {
  }

  /** The first acceptance needs only a candidate whose error is below the tolerance. */
  predicate Eligible(fin: int, freq: int, nfi: int)
    requires Inputs(fin, freq) && 0 <= nfi < NF_MAX
  {
    CandidateFor(fin, freq, nfi).Some? && Abs(CandidateFor(fin, freq, nfi).value.d.err) < Grown(TERR)
  }

  /** The search comes back empty-handed exactly when no numerator offers an eligible candidate. */
  lemma {:induction false} FoundIffEligible(fin: int, freq: int, lo: int, hi: int)
    requires Inputs(fin, freq) && 0 <= lo && hi <= NF_MAX
    ensures Accepted(fin, freq, lo, hi) == [] <==> forall nfi :: lo <= nfi < hi ==> !Eligible(fin, freq, nfi)
    decreases hi - lo
  {
    hide CandidateFor;
    if lo < hi {
      FoundIffEligible(fin, freq, lo, hi - 1);
      var prev, c := Accepted(fin, freq, lo, hi - 1), CandidateFor(fin, freq, hi - 1);
      if c.Some? {
        CandidateIsSound(fin, freq, hi - 1);
        if prev == [] {
          assert Improves(prev, c.value) <==> Eligible(fin, freq, hi - 1);
        }
      }
    }
  }

  /** The output frequency of sound dividers, which is what the registers are read back as. */
  function Output(fin: int, d: Dividers): real
    requires d.nrx != 0 && d.no != 0
  {
    fin as real / d.nrx as real * d.nfx as real / d.no as real
  }

  /** The frequency fin * nfi / nr is the requested one times 1 - err. */
  lemma ErrorMeaning(fin: int, freq: int, nfi: int, nr: int) returns (q: real)
    requires Inputs(fin, freq) && nr >= 1
    ensures q == (nfi as real / nr as real) / Ratio(fin, freq)
    ensures freq as real * q == fin as real * (nfi as real / nr as real)
  {
    var a, v := nfi as real / nr as real, Ratio(fin, freq);
    RatioPositive(fin, freq);
    q := a / v;
    assert q * v == a;
    assert freq as real * q == fin as real * (v * q);
  }

  lemma DividersMeaning(fin: int, d: Dividers, nfi: int, nr: int)
    requires d.nrx >= 1 && d.no >= 1 && nr >= 1 && d.nfx * nr == nfi * (d.nrx * d.no)
    ensures Output(fin, d) == fin as real * (nfi as real / nr as real)
  {
    var f, x, n, o, i, r := fin as real, d.nfx as real, d.nrx as real, d.no as real, nfi as real, nr as real;
    assert x * r == i * (n * o) by {
      assert (d.nfx * nr) as real == x * r;
      assert (d.nrx * d.no) as real == n * o;
      assert (nfi * (d.nrx * d.no)) as real == i * (n * o);
    }
    var q := f / n * x / o;
    var p := f * (i / r);
    assert q * o == f / n * x;
    assert q * o * n == f * x by { assert f / n * n == f; }
    assert p * r == f * i by { assert i / r * r == i; }
    assert q * (n * o) * r == f * (x * r);
    assert f * (x * r) == p * r * (n * o) by { assert f * (i * (n * o)) == f * i * (n * o); }
    assert (q - p) * (r * (n * o)) == 0.0;
    assert r * (n * o) > 0.0;
  }

  lemma RelativeError(f: real, q: real, err: real, out: real)
    requires f > 0.0 && out == f * q && err == 1.0 - q
    ensures out - f == -(f * err) && Abs(out - f) == f * Abs(err)
  {
    assert f * err == f - out;
  }

  lemma VcoOverSixteen(v: real, no: real, out: real)
    requires out * no == v >= VCO_MIN && 1.0 <= no <= 16.0
    ensures out >= VCO_MIN / 16.0
  {
    assert out >= 0.0;
    assert out * (16.0 - no) >= 0.0;
  }

  lemma OutputError(fin: int, freq: int, d: Dividers) returns (off: real)
    requires Inputs(fin, freq) && Sound(fin, freq, d)
    ensures off == freq as real * Abs(d.err)
    ensures Abs(Output(fin, d) - freq as real) == off
    ensures Output(fin, d) >= VCO_MIN / 16.0
  {
    hide Rint;
    hide Output;
    hide Fits;
    hide Abs;
    FitsInFields(fin, d);
    var nfi, nr :| Produces(fin, freq, d, nfi, nr);
    var q := ErrorMeaning(fin, freq, nfi, nr);
    DividersMeaning(fin, d, nfi, nr);
    RelativeError(freq as real, q, d.err, Output(fin, d));
    off := freq as real * Abs(d.err);
    OutputVco(fin, d);
  }

  lemma OutputVco(fin: int, d: Dividers)
    requires Fits(fin, d)
    ensures Output(fin, d) >= VCO_MIN / 16.0
  {
    var v, out := Vco(fin, d), Output(fin, d);
    assert out * d.no as real == v;
    VcoOverSixteen(v, d.no as real, out);
  }

  /** Only the last acceptance matters for the next one. */
  lemma ImprovesLast(acc: seq<Dividers>, c: Candidate)
    requires acc != []
    ensures Improves(acc, c) == Improves([acc[|acc| - 1]], c)
  {
  }

  /** The search loop.  It returns the last acceptance, unless there is none or its error is not
      clearly below the tolerance. */
  method Search(fin: int, freq: int) returns (result: Option<Dividers>)
    requires Inputs(fin, freq)
    ensures var acc := Accepted(fin, freq, Ratio(fin, freq).Floor, NF_MAX);
            result == if acc != [] && Abs(acc[|acc| - 1].err) < Shrunk(TERR) then Some(acc[|acc| - 1]) else None
    ensures result.Some? ==> Sound(fin, freq, result.value) && Abs(result.value.err) < Shrunk(TERR)
    ensures (forall nfi :: Ratio(fin, freq).Floor <= nfi < NF_MAX ==> !Eligible(fin, freq, nfi)) ==> result == None
  {
    hide CandidateFor;
    hide Improves;
    hide Abs;
    hide Shrunk;
    hide Sound;
    hide Eligible;
    RatioPositive(fin, freq);
    var val := Ratio(fin, freq);
    var lo := val.Floor;
    var merr, found := TERR, false;
    var best := Dividers(0, 0, 0, 0.0);
    ghost var acc: seq<Dividers> := [];
    var nfi := lo;
    while nfi < NF_MAX
      invariant 0 <= lo <= nfi && (nfi <= NF_MAX || nfi == lo)
      invariant nfi <= NF_MAX ==> acc == Accepted(fin, freq, lo, nfi)
      invariant nfi > NF_MAX ==> acc == []
      invariant found <==> acc != []
      invariant merr == if found then Abs(best.err) else TERR
      invariant found ==> best == acc[|acc| - 1]
      invariant !found ==> best.no == 0
      decreases NF_MAX - nfi
    {
      var c := Try(fin, freq, nfi, merr, found, best);
      ghost var offer := CandidateFor(fin, freq, nfi);
      if found && offer.Some? { ImprovesLast(acc, offer.value); }
      if c.Some? {
        found, best, merr := true, c.value, Abs(c.value.err);
        acc := acc + [c.value];
      }
      nfi := nfi + 1;
    }
    assert acc == Accepted(fin, freq, lo, NF_MAX);
    AcceptedAreSound(fin, freq, lo, NF_MAX);
    FoundIffEligible(fin, freq, lo, NF_MAX);
    if !found || Abs(best.err) >= Shrunk(TERR) {
      return None;
    }
    return Some(best);
  }

  /** The inner loop: the divider the search tries first. */
  method FindDivisor(nr: int, cap: int) returns (no: int)
    requires nr >= 1 && cap >= 1
    ensures no == GreatestDivisor(nr, cap)
  {
    no := cap;
    while no > 1
      invariant 1 <= no <= cap && GreatestDivisor(nr, no) == GreatestDivisor(nr, cap)
    {
      if nr / no >= 1 && nr % no == 0 { break; }
      no := no - 1;
    }
  }

  /** The two ways of spreading, with the test that picks one.  `skip` is a `continue`. */
  method Choose(freq: int, nfi: int, nr: int, err: real, found: bool) returns (d: Dividers, skip: bool)
    requires 1 <= freq <= FREQ_MAX && nr >= 1 && 1 <= nfi < NF_MAX
    ensures skip == (found && Spread(freq, nfi, nr, err).widened)
    ensures !skip ==> d == Spread(freq, nfi, nr, err).d
  {
    TopAtLeastOne(freq);
    var nrx, nfx := nr, nfi;
    var top := (VCO_MAX / freq as real).Floor;
    var cap := if top > NO_MAX then NO_MAX else top;
    var no := FindDivisor(nr, cap);
    var nor := cap / no;
    var nore := NF_MAX / nfi;
    if nor > nore { nor := nore; }
    var noe := Ceil(VCO_MIN / freq as real);
    d := Dividers(nrx, nfx, no, err);
    var product := no * nor;
    if (product < top / 2 || product < noe) && product < NF_MAX / nfi {
      no := NF_MAX / nfi;
      if no > NO_MAX { no := NO_MAX; }
      if no > top { no := top; }
      nfx := nfx * no;
      if no > 1 && found { return d, true; }
    } else {
      NoIsCapped(cap, no, nor);
      nrx := nrx / no;
      nfx := nfx * nor;
      no := no * nor;
      if no > NO_MAX { assert false; }
      if nor > 1 && found { return d, true; }
    }
    return Dividers(nrx, nfx, no, err), false;
  }

  lemma NoIsCapped(cap: int, no: int, nor: int)
    requires 1 <= no <= cap && nor <= cap / no
    ensures no * nor <= cap
  {
    QuotientAtLeastOne(cap, no);
    ProductMonotone(no, nor, cap / no);
  }

  /** The loop body: each early return is one `continue`. */
  method Try(fin: int, freq: int, nfi: int, merr: real, found: bool, best: Dividers) returns (taken: Option<Dividers>)
    requires Inputs(fin, freq) && 0 <= nfi < NF_MAX
    requires merr == if found then Abs(best.err) else TERR
    requires !found ==> best.no == 0
    ensures var c := CandidateFor(fin, freq, nfi);
            taken == if c.Some? && Improves(if found then [best] else [], c.value) then Some(c.value.d) else None
  {
    hide Spread;
    hide Rint;
    hide Abs;
    hide Grown;
    hide Shrunk;
    hide Fits;
    hide Ratio;
    taken := None;
    RatioPositive(fin, freq);
    var val := Ratio(fin, freq);
    var nr := Rint(nfi as real / val);
    if nr < 1 { return; }
    RoundedZero(val, nfi);
    if fin as real / nr as real > REF_MAX { return; }
    var err := 1.0 - (nfi as real / nr as real) / val;
    SpreadKeepsRatio(freq, nfi, nr, err);
    if !(Abs(err) < Grown(merr) || Abs(err) < TINY) { return; }
    var d, skip := Choose(freq, nfi, nr, err, found);
    if skip { return; }
    var fits := InLimits(fin, d);
    if !fits { return; }
    if !(Abs(err) < Shrunk(merr) || d.no > best.no) { return; }
    if found && d.nrx > best.nrx { return; }
    taken := Some(d);
  }

  /** The register, VCO and reference tests. */
  method InLimits(fin: int, d: Dividers) returns (ok: bool)
    requires d.nrx >= 1 && 1 <= d.nfx <= NF_MAX && 1 <= d.no <= NO_MAX
    ensures ok == Fits(fin, d)
  {
    var nb := if d.nfx < 1 then 1 else d.nfx;
    if nb > NF_MAX { assert false; }
    var fvco := Vco(fin, d);
    if fvco < VCO_MIN { return false; }
    if fvco > VCO_MAX { return false; }
    if fin as real / d.nrx as real < REF_MIN { return false; }
    if d.nrx > NR_MAX { return false; }
    return true;
  }

  lemma RoundedZero(val: real, nfi: int)
    requires val > 0.0 && nfi >= 0
    ensures Rint(nfi as real / val) >= 1 ==> nfi >= 1
  {
    if nfi == 0 {
      assert nfi as real / val == 0.0;
    }
  }

  // ----- the registers -----

  datatype PllRegister = PllRegister(clkr: nat, clkf: nat, clkod: nat, bwadj: nat)

  /** The registers hold the divider minus one, in 4, 6, 4 and 6 bits. */
  predicate FieldsFit(r: PllRegister) {
    r.clkr < 16 && r.clkf < 64 && r.clkod < 16 && r.bwadj < 64
  }

  const IN0_FREQ := 26000000

  /** Clock sources are numbered IN0 = 0, PLL0 = 1, PLL1 = 2; the PLL2 input select uses the same
      three numbers. */
  class Sysctl {
    var pll: seq<PllRegister>
    var ckinSel2: nat

    ghost predicate Valid()
      reads this
    {
      |pll| == 3 && forall i :: 0 <= i < 3 ==> FieldsFit(pll[i])
    }

    constructor ()
      ensures Valid()
    {
      pll := seq(3, _ => PllRegister(0, 0, 0, 0));
      ckinSel2 := 0;
    }

    function RegisterOutput(freqIn: nat, r: PllRegister): int {
      Output(freqIn, Dividers(r.clkr + 1, r.clkf + 1, r.clkod + 1, 0.0)).Floor
    }

    /** sysctl_pll_get_freq for a PLL that is fed by IN0. */
    function FreqFromIn0(which: nat): (f: int)
      requires Valid() && which < 3
      reads this
      ensures f >= 0
    {
      RegisterNonNegative(IN0_FREQ, pll[which]);
      RegisterOutput(IN0_FREQ, pll[which])
    }

    lemma RegisterNonNegative(freqIn: nat, r: PllRegister)
      ensures RegisterOutput(freqIn, r) >= 0
    {
      var x := freqIn as real / (r.clkr + 1) as real;
      assert x * (r.clkr + 1) as real == freqIn as real;
      assert x >= 0.0;
      var y := x * (r.clkf + 1) as real;
      assert y >= 0.0;
      var z := y / (r.clkod + 1) as real;
      assert z * (r.clkod + 1) as real == y;
      assert z >= 0.0;
    }

    function SourceFreq(source: nat): (f: int)
      requires Valid()
      reads this
      ensures f >= 0
    {
      match source
      case 0 => IN0_FREQ
      case 1 => FreqFromIn0(0)
      case 2 => FreqFromIn0(1)
      case _ => 0
    }

    function GetFreq(which: nat): int
      requires Valid()
      reads this
    {
      if which >= 3 then 0
      else if which < 2 then FreqFromIn0(which)
      else if ckinSel2 < 3 then RegisterOutput(SourceFreq(ckinSel2), pll[2])
      else 0
    }

    /** The input frequency that a request is computed for, or 0 if the source is refused. */
    function RequestInput(which: nat, source: nat): (f: int)
      requires Valid()
      reads this
      ensures f >= 0
    {
      if which < 2 then (if source == 0 then IN0_FREQ else 0)
      else if which == 2 && source < 3 then SourceFreq(source)
      else 0
    }

    /** The two first PLLs are fed by the 26 MHz oscillator alone.  The third may be fed by it or by one of the others:
        a request for it is computed for the frequency that is read back for that one, and so is its own read-back. */
    lemma Feeds(which: nat, source: nat)
      requires Valid()
      ensures which < 2 ==> RequestInput(which, source) == if source == 0 then 26000000 else 0
      ensures which == 2 ==>
                && (source == 0 ==> RequestInput(which, source) == 26000000)
                && (source == 1 ==> RequestInput(which, source) == GetFreq(0))
                && (source == 2 ==> RequestInput(which, source) == GetFreq(1))
      ensures which >= 3 || (which == 2 && source >= 3) ==> RequestInput(which, source) == 0
      ensures which < 2 ==> GetFreq(which) == RegisterOutput(26000000, pll[which])
      ensures which == 2 && ckinSel2 < 3 ==> GetFreq(which) == RegisterOutput(RequestInput(which, ckinSel2), pll[which])
      ensures which >= 3 || (which == 2 && ckinSel2 >= 3) ==> GetFreq(which) == 0
    {
    }

    /** The first switch of sysctl_pll_source_set_freq. */
    method InputFor(which: nat, source: nat) returns (fin: int)
      requires Valid() && which < 3
      ensures fin == RequestInput(which, source)
    {
      fin := 0;
      if which < 2 {
        if source != 0 { return 0; }
        fin := IN0_FREQ;
      } else if source < 3 {
        fin := SourceFreq(source);
      }
    }

    /** sysctl_pll_source_set_freq.  A refusal returns 0 and leaves every register alone.  Otherwise
        only the addressed PLL changes, its fields fit, and the frequency that is read back and
        returned is positive and within freq / 64 + 1 of the request. */
    method SetFreq(which: nat, source: nat, freq: int) returns (r: int)
      requires Valid() && 1 <= freq <= FREQ_MAX
      modifies this
      ensures Valid()
      ensures r == 0 ==> pll == old(pll) && ckinSel2 == old(ckinSel2)
      ensures r != 0 ==>
        && which < 3 && r == GetFreq(which) && r >= 21875000
        && Abs(r as real - freq as real) < freq as real / 64.0 + 1.0
        && (forall i :: 0 <= i < 3 && i != which ==> pll[i] == old(pll[i]))
        && (which == 2 ==> ckinSel2 == source) && (which != 2 ==> ckinSel2 == old(ckinSel2))
      ensures r != 0 ==>
        var fin := old(RequestInput(which, source));
        var reg := pll[which];
        && fin > 0
        && Fits(fin, Dividers(reg.clkr + 1, reg.clkf + 1, reg.clkod + 1, 0.0)) && reg.bwadj == reg.clkf
        && var acc := Accepted(fin, freq, Ratio(fin, freq).Floor, NF_MAX);
           acc != [] && acc[|acc| - 1] == Dividers(reg.clkr + 1, reg.clkf + 1, reg.clkod + 1, acc[|acc| - 1].err)
      ensures r == 0 <==>
        var fin := old(RequestInput(which, source));
        fin == 0 ||
        var acc := Accepted(fin, freq, Ratio(fin, freq).Floor, NF_MAX);
        acc == [] || Abs(acc[|acc| - 1].err) >= Shrunk(TERR)
    {
      hide Accepted;
      hide Fits;
      hide Output;
      hide Abs;
      hide Grown;
      hide Shrunk;
      hide Ratio;
      if which >= 3 { return 0; }
      var fin := InputFor(which, source);
      if fin == 0 { return 0; }
      var found := Search(fin, freq);
      if found == None { return 0; }
      var d := found.value;
      FitsInFields(fin, d);
      ghost var off := OutputError(fin, freq, d);
      var nb := if d.nfx < 1 then 1 else d.nfx;
      pll := pll[which := PllRegister(d.nrx - 1, d.nfx - 1, d.no - 1, nb - 1)];
      if which == 2 { ckinSel2 := source; }
      r := GetFreq(which);
      ReadBack(freq, Output(fin, d), d.err, off);
    }
  }

  lemma FitsInFields(fin: int, d: Dividers)
    requires Fits(fin, d)
    ensures 1 <= d.nrx <= 16 && 1 <= d.nfx <= 64 && 1 <= d.no <= 16
    ensures Fits(fin, Dividers(d.nrx, d.nfx, d.no, 0.0))
    ensures Output(fin, d) == Output(fin, Dividers(d.nrx, d.nfx, d.no, 0.0))
  {
    VcoIgnoresError(fin, d);
    hide Vco;
  }

  lemma VcoIgnoresError(fin: int, d: Dividers)
    requires d.nrx != 0
    ensures Vco(fin, d) == Vco(fin, Dividers(d.nrx, d.nfx, d.no, 0.0))
  {
  }

  lemma BelowOneSixtyFourth(f: real, e: real, y: real)
    requires f > 0.0 && e < 0.015625 && y == f * e
    ensures y < f / 64.0
  {
    var d := 0.015625 - e;
    assert f * d > 0.0;
    assert f * d == f * 0.015625 - y;
  }

  lemma ReadBack(freq: int, out: real, err: real, off: real)
    requires 1 <= freq <= FREQ_MAX && Abs(err) < Shrunk(TERR)
    requires off == freq as real * Abs(err) && Abs(out - freq as real) == off && out >= VCO_MIN / 16.0
    ensures Abs(out.Floor as real - freq as real) < freq as real / 64.0 + 1.0
    ensures out.Floor >= 21875000
  {
    BelowOneSixtyFourth(freq as real, Abs(err), off);
    assert out.Floor as real <= out < out.Floor as real + 1.0;
  }
}
