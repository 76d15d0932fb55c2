/** Which requests the PLL search grants (lib/drivers/sysctl.c), in terms of the dividers that each numerator offers
    and without the functions that the search is specified by. */
module PllOffers {
  import opened Pll
  import opened Options

  // ----- what a numerator offers -----

  /** The integer nearest to x, an even one on a tie. */
  predicate Nearest(n: int, x: real) {
    n as real - 0.5 <= x <= n as real + 0.5 && (x == n as real - 0.5 || x == n as real + 0.5 ==> n % 2 == 0)
  }

  ghost predicate GreatestWithin(no: int, nr: int, cap: int) {
    1 <= no <= cap && nr % no == 0 && forall e :: no < e <= cap ==> nr % e != 0
  }

  /** The dividers for nfi / nr, given the greatest divisor no of nr within the cap: nr is divided by it and both other
      dividers grow together as far as they may; unless that leaves the VCO too slow or less than half as fast as it
      may be, and the whole product can grow further. */
  predicate Chosen(freq: int, nfi: int, nr: int, no: int, d: Dividers)
    requires 1 <= freq <= FREQ_MAX && 1 <= nfi && no >= 1
  {
    var top, most := 1750000000 / freq, 64 / nfi;
    var k := Min(Min(top, 16) / no, most);
    if (no * k < top / 2 || no * k * freq < 350000000) && no * k < most then
      d.nrx == nr && d.no == Min(Min(most, 16), top) && d.nfx == nfi * d.no
    else
      d.nrx == nr / no && d.no == no * k && d.nfx == nfi * k
  }

  lemma ChosenIsUnique(freq: int, nfi: int, nr: int, no: int, d: Dividers, e: Dividers)
    requires 1 <= freq <= FREQ_MAX && 1 <= nfi && no >= 1
    requires Chosen(freq, nfi, nr, no, d) && Chosen(freq, nfi, nr, no, e) && d.err == e.err
    ensures d == e
  {
  }

  /** The dividers are in the range of their registers, the VCO runs between 350 and 1750 MHz, and its reference is at
      least 13.6719 MHz. */
  predicate Within(fin: int, d: Dividers) {
    && 1 <= d.nrx <= 16 && 1 <= d.nfx <= 64 && 1 <= d.no <= 16
    && 350000000 * d.nrx <= fin * d.nfx <= 1750000000 * d.nrx && 13671900 * d.nrx <= fin
  }

  /** nfi offers d, with the denominator nr nearest to nfi / (freq / fin) and the divisor no of nr. */
  ghost predicate OffersWith(fin: int, freq: int, nfi: int, nr: int, no: int, d: Dividers)
    requires Inputs(fin, freq)
  {
    && 1 <= nfi < 64 && nr >= 1 && Nearest(nr, nfi as real / Ratio(fin, freq))
    && fin <= 1750000000 * nr
    && d.err == 1.0 - (nfi as real / nr as real) / Ratio(fin, freq)
    && GreatestWithin(no, nr, Min(1750000000 / freq, 16)) && Chosen(freq, nfi, nr, no, d)
    && Within(fin, d)
  }

  ghost predicate Offers(fin: int, freq: int, nfi: int, d: Dividers)
    requires Inputs(fin, freq)
  {
    exists nr, no :: OffersWith(fin, freq, nfi, nr, no, d)
  }

  lemma NearestIsRint(n: int, x: real)
    ensures Nearest(n, x) <==> n == Rint(x)
  {
  }

  lemma TopIsQuotient(freq: int)
    requires 1 <= freq <= FREQ_MAX
    ensures (VCO_MAX / freq as real).Floor == 1750000000 / freq >= 1
  {
    TopAtLeastOne(freq);
    DivMod(1750000000, freq);
    FloorQuotient(1750000000, freq, 1750000000 / freq, 1750000000 % freq);
  }

  lemma DivMod(n: int, f: int)
    requires f >= 1
    ensures n == n / f * f + n % f && 0 <= n % f < f
  {
  }

  lemma FloorQuotient(n: int, f: int, q: int, r: int)
    requires f >= 1 && 0 <= r < f && n == q * f + r
    ensures (n as real / f as real).Floor == q
  {
    var x, g := n as real / f as real, f as real;
    assert x * g == n as real;
    RealProduct(q, f, q * f);
    Distribute(x, q as real, g);
    UnitInterval(x - q as real, g, r as real);
  }

  lemma Distribute(x: real, a: real, g: real)
    ensures (x - a) * g == x * g - a * g
  {
  }

  lemma UnitInterval(d: real, g: real, r: real)
    requires g > 0.0 && 0.0 <= r < g && d * g == r
    ensures 0.0 <= d < 1.0
  {
    if d < 0.0 { Larger(0.0, d, g); }
    if d >= 1.0 { NotSmaller(d, 1.0, g); }
  }

  lemma RealProduct(a: int, b: int, p: int)
    requires p == a * b
    ensures p as real == a as real * b as real
  {
  }

  lemma Larger(a: real, b: real, f: real)
    requires f > 0.0 && a > b
    ensures a * f > b * f
  {
    assert (a - b) * f > 0.0;
  }

  lemma NotSmaller(a: real, b: real, f: real)
    requires f > 0.0 && a >= b
    ensures a * f >= b * f
  {
    assert (a - b) * f >= 0.0;
  }

  /** A real quotient against a bound, in whole numbers. */
  lemma QuotientAtLeast(n: int, m: int, k: int, bound: int)
    requires m >= 1
    ensures bound as real <= n as real / m as real * k as real <==> bound * m <= n * k
  {
    var q, f := n as real / m as real, m as real;
    var x := q * k as real;
    assert q * f == n as real;
    Reorder(q, k as real, f, n as real);
    RealProduct(n, k, n * k);
    RealProduct(bound, m, bound * m);
    CompareProducts(bound as real, x, f);
  }

  lemma QuotientAtMost(n: int, m: int, k: int, bound: int)
    requires m >= 1
    ensures n as real / m as real * k as real <= bound as real <==> n * k <= bound * m
  {
    var q, f := n as real / m as real, m as real;
    var x := q * k as real;
    assert q * f == n as real;
    Reorder(q, k as real, f, n as real);
    RealProduct(n, k, n * k);
    RealProduct(bound, m, bound * m);
    CompareProducts(x, bound as real, f);
  }

  lemma Reorder(q: real, k: real, f: real, n: real)
    requires q * f == n
    ensures q * k * f == n * k
  {
  }

  lemma CompareProducts(a: real, b: real, f: real)
    requires f > 0.0
    ensures a <= b <==> a * f <= b * f
  {
    if a > b { Larger(a, b, f); } else { NotSmaller(b, a, f); }
  }

  lemma WithinIsFits(fin: int, d: Dividers)
    ensures Within(fin, d) <==> Fits(fin, d)
  {
    if d.nrx >= 1 {
      QuotientAtLeast(fin, d.nrx, d.nfx, 350000000);
      QuotientAtMost(fin, d.nrx, d.nfx, 1750000000);
      QuotientAtLeast(fin, d.nrx, 1, 13671900);
      assert fin as real / d.nrx as real * 1.0 == fin as real / d.nrx as real;
    }
  }

  lemma ReferenceLimit(fin: int, nr: int)
    requires nr >= 1
    ensures fin as real / nr as real <= REF_MAX <==> fin <= 1750000000 * nr
  {
    QuotientAtMost(fin, nr, 1, 1750000000);
    assert fin as real / nr as real * 1.0 == fin as real / nr as real;
  }

  /** p < ceil(VCO_MIN / freq) in whole numbers. */
  lemma BelowCeiling(p: int, freq: int)
    requires freq >= 1
    ensures p < Ceil(VCO_MIN / freq as real) <==> p * freq < 350000000
  {
    var x := VCO_MIN / freq as real;
    assert x * freq as real == 350000000.0;
    RealProduct(p, freq, p * freq);
    if p as real < x {
      Larger(x, p as real, freq as real);
    } else {
      NotSmaller(p as real, x, freq as real);
    }
  }

  lemma GreatestIsUnique(no: int, nr: int, cap: int)
    requires nr >= 1 && cap >= 1
    ensures GreatestWithin(no, nr, cap) <==> no == GreatestDivisor(nr, cap)
  {
    var g := GreatestDivisor(nr, cap);
  }

  /** The dividers and the mark that the search works with. */
  lemma SpreadIsOffer(fin: int, freq: int, nfi: int, nr: int, no: int, err: real)
    requires Inputs(fin, freq) && 1 <= nfi < 64 && nr >= 1
    requires no == GreatestDivisor(nr, Min(1750000000 / freq, 16))  && 1750000000 / freq >= 1
    ensures var d := Spread(freq, nfi, nr, err).d;
            d.err == err && Chosen(freq, nfi, nr, no, d)
  {
    TopIsQuotient(freq);
    hide Ceil, GreatestDivisor;
    var cap := Min(1750000000 / freq, 16);
    BelowCeiling(no * Min(cap / no, 64 / nfi), freq);
  }

  /** An offer is exactly what the search considers for its numerator. */
  lemma OfferIsCandidate(fin: int, freq: int, nfi: int, d: Dividers)
    requires Inputs(fin, freq) && 0 <= nfi < 64
    ensures Offers(fin, freq, nfi, d) <==> CandidateFor(fin, freq, nfi).Some? && CandidateFor(fin, freq, nfi).value.d == d
  {
    hide Fits, Within, Spread, Rint, Nearest, GreatestWithin, GreatestDivisor, Chosen;
    var x := nfi as real / Ratio(fin, freq);
    var nr := Rint(x);
    TopIsQuotient(freq);
    var cap := Min(1750000000 / freq, 16);
    if nr >= 1 && nfi >= 1 {
      var err := 1.0 - (nfi as real / nr as real) / Ratio(fin, freq);
      var no := GreatestDivisor(nr, cap);
      NearestIsRint(nr, x);
      GreatestIsUnique(no, nr, cap);
      SpreadIsOffer(fin, freq, nfi, nr, no, err);
      var c := CandidateFor(fin, freq, nfi);
      ReferenceLimit(fin, nr);
      WithinIsFits(fin, Spread(freq, nfi, nr, err).d);
      if c.Some? { assert OffersWith(fin, freq, nfi, nr, no, c.value.d); }
    }
    if Offers(fin, freq, nfi, d) {
      var m, n :| OffersWith(fin, freq, nfi, m, n, d);
      NearestIsRint(m, x);
      GreatestIsUnique(n, m, cap);
      ChosenIsUnique(freq, nfi, m, n, d, Spread(freq, nfi, m, d.err).d);
    }
  }

  // ----- the search in terms of offers -----

  /** The least error, as the search compares, that a first acceptance may not have: one part in a million above 1/64. */
  const LIMIT := 0.015625 * 1.000001

  /** One part in ten thousand below the tolerance. */
  const SAFE := 0.015625 * 0.9999

  lemma Tolerances()
    ensures LIMIT == Grown(TERR) && SAFE < Shrunk(TERR)
  {
  }

  /** Numerators are tried from the integer part of the ratio on. */
  predicate Tried(fin: int, freq: int, nfi: int)
    requires Inputs(fin, freq)
  {
    Ratio(fin, freq).Floor <= nfi < 64
  }

  lemma RatioFloor(fin: int, freq: int)
    requires Inputs(fin, freq)
    ensures Ratio(fin, freq).Floor >= 0
  {
    RatioPositive(fin, freq);
  }

  // ----- one turn of the search -----

  /** The search prefers the offer d of nfi to what it holds: the numerator has not been multiplied, the reference
      divider is no greater, and the error is less by more than a millionth, or hardly greater with a greater output
      divider. */
  predicate Beats(d: Dividers, nfi: int, held: Dividers) {
    && d.nfx == nfi && d.nrx <= held.nrx
    && (|| Abs(d.err) < 0.999999 * Abs(held.err)
        || (d.no > held.no && (Abs(d.err) < 1.000001 * Abs(held.err) || Abs(d.err) < 0.0000000000000001)))
  }

  lemma Multiplied(nfi: int, k: int)
    requires nfi >= 1 && nfi * k >= 1
    ensures k > 1 <==> nfi * k != nfi
  {
    assert k >= 1;
    if k > 1 { assert nfi * k == nfi + nfi * (k - 1); }
  }

  lemma SpreadMark(freq: int, nfi: int, nr: int, err: real)
    requires 1 <= freq <= FREQ_MAX && nr >= 1 && 1 <= nfi < NF_MAX && Spread(freq, nfi, nr, err).d.nfx >= 1
    ensures var c := Spread(freq, nfi, nr, err); c.widened <==> c.d.nfx != nfi
  {
    hide GreatestDivisor, Ceil, Min;
    var c := Spread(freq, nfi, nr, err);
    var k :| c.d.nfx == nfi * k && (c.widened <==> k > 1);
    hide Spread;
    Multiplied(nfi, k);
  }

  /** A candidate is marked when its numerator has been multiplied. */
  lemma MarkMeansMultiplied(fin: int, freq: int, nfi: int)
    requires Inputs(fin, freq) && 0 <= nfi < 64
    ensures var c := CandidateFor(fin, freq, nfi);
            c.Some? ==> c.value.d.no >= 1 && (c.value.widened <==> c.value.d.nfx != nfi)
  {
    hide Ratio, Rint, Vco, Spread;
    RatioPositive(fin, freq);
    if CandidateFor(fin, freq, nfi).Some? {
      var nr := Rint(nfi as real / Ratio(fin, freq));
      SpreadMark(freq, nfi, nr, 1.0 - (nfi as real / nr as real) / Ratio(fin, freq));
    }
  }

  lemma ShrunkBelowGrown(x: real)
    requires x >= 0.0
    ensures Shrunk(x) <= Grown(x)
  {
  }

  lemma ImprovesIffBeats(prev: seq<Dividers>, c: Candidate, nfi: int)
    requires c.widened <==> c.d.nfx != nfi
    requires c.d.no >= 1
    ensures prev == [] ==> (Improves(prev, c) <==> Abs(c.d.err) < LIMIT)
    ensures prev != [] ==> (Improves(prev, c) <==> Beats(c.d, nfi, prev[|prev| - 1]))
  {
    Tolerances();
    if prev != [] {
      ShrunkBelowGrown(Abs(prev[|prev| - 1].err));
    }
  }

  /** What the search holds after each numerator: the first offer within the limit, and then what it held before unless
      the numerator offers dividers that beat it. */
  lemma SearchTurn(fin: int, freq: int, nfi: int)
    requires Inputs(fin, freq) && Tried(fin, freq, nfi) && Ratio(fin, freq).Floor >= 0
    ensures var before := Accepted(fin, freq, Ratio(fin, freq).Floor, nfi);
            var after := Accepted(fin, freq, Ratio(fin, freq).Floor, nfi + 1);
            && (forall d :: Offers(fin, freq, nfi, d) ==>
                  after == if (if before == [] then Abs(d.err) < LIMIT else Beats(d, nfi, before[|before| - 1]))
                           then before + [d] else before)
            && ((forall d :: !Offers(fin, freq, nfi, d)) ==> after == before)
  {
    hide CandidateFor, Improves, Beats, Offers, Abs;
    var before := Accepted(fin, freq, Ratio(fin, freq).Floor, nfi);
    var c := CandidateFor(fin, freq, nfi);
    if c.Some? {
      MarkMeansMultiplied(fin, freq, nfi);
      ImprovesIffBeats(before, c.value, nfi);
      OfferIsCandidate(fin, freq, nfi, c.value.d);
    }
    forall d
      ensures Offers(fin, freq, nfi, d) <==> c.Some? && c.value.d == d
    {
      OfferIsCandidate(fin, freq, nfi, d);
    }
  }

  // ----- which requests are granted -----

  /** No numerator that has been tried before hi offers dividers within the limit. */
  ghost predicate NoneBefore(fin: int, freq: int, hi: int)
    requires Inputs(fin, freq)
  {
    forall m, e :: Tried(fin, freq, m) && m < hi && Offers(fin, freq, m, e) ==> Abs(e.err) >= LIMIT
  }

  /** Without an offer within the limit nothing is accepted. */
  lemma NothingAccepted(fin: int, freq: int, hi: int)
    requires Inputs(fin, freq) && hi <= NF_MAX && NoneBefore(fin, freq, hi) && Ratio(fin, freq).Floor >= 0
    ensures Accepted(fin, freq, Ratio(fin, freq).Floor, hi) == []
  {
    hide CandidateFor, Offers, Abs, Grown;
    var lo := Ratio(fin, freq).Floor;
    FoundIffEligible(fin, freq, lo, hi);
    Tolerances();
    forall m | lo <= m < hi
      ensures !Eligible(fin, freq, m)
    {
      if CandidateFor(fin, freq, m).Some? {
        var e := CandidateFor(fin, freq, m).value.d;
        OfferIsCandidate(fin, freq, m, e);
        assert Tried(fin, freq, m);
      }
    }
  }

  /** The first acceptance. */
  lemma FirstAccepted(fin: int, freq: int, nfi: int, d: Dividers)
    requires Inputs(fin, freq) && Tried(fin, freq, nfi) && Ratio(fin, freq).Floor >= 0
    requires Offers(fin, freq, nfi, d) && Abs(d.err) < LIMIT && NoneBefore(fin, freq, nfi)
    ensures Accepted(fin, freq, Ratio(fin, freq).Floor, nfi + 1) == [d]
  {
    hide CandidateFor, NoneBefore, Abs, Grown;
    OfferIsCandidate(fin, freq, nfi, d);
    NothingAccepted(fin, freq, nfi);
    Tolerances();
    OfferedNo(fin, freq, nfi, d);
  }

  lemma OfferedNo(fin: int, freq: int, nfi: int, d: Dividers)
    requires Inputs(fin, freq) && Offers(fin, freq, nfi, d)
    ensures d.no >= 1
  {
    hide Nearest, GreatestWithin, Chosen, Vco;
  }

  /** What the error of the last acceptance may have grown to, k numerators after one below SAFE. */
  function Bound(k: nat): real { SAFE + k as real * 0.00000002 }

  /** An acceptance below SAFE is never lost: later ones are not much worse. */
  lemma {:induction false} StaysBelow(fin: int, freq: int, lo: int, from: int, hi: int)
    requires Inputs(fin, freq) && 0 <= lo <= from <= hi <= NF_MAX && Accepted(fin, freq, lo, from) != []
    requires var acc := Accepted(fin, freq, lo, from); Abs(acc[|acc| - 1].err) <= SAFE
    ensures var acc := Accepted(fin, freq, lo, hi); acc != [] && Abs(acc[|acc| - 1].err) <= Bound(hi - from)
    decreases hi - from
  {
    hide CandidateFor, Abs;
    if from < hi {
      StaysBelow(fin, freq, lo, from, hi - 1);
    }
  }

  /** The first numerator that offers dividers within the limit decides: if its error is below SAFE, the search
      succeeds. */
  lemma FirstOfferSucceeds(fin: int, freq: int, nfi: int, d: Dividers)
    requires Inputs(fin, freq) && Tried(fin, freq, nfi)
    requires Offers(fin, freq, nfi, d) && Abs(d.err) < SAFE && NoneBefore(fin, freq, nfi)
    ensures var acc := Accepted(fin, freq, Ratio(fin, freq).Floor, NF_MAX);
            acc != [] && Abs(acc[|acc| - 1].err) < Shrunk(TERR)
  {
    hide Offers, NoneBefore, Abs;
    RatioFloor(fin, freq);
    Tolerances();
    FirstAccepted(fin, freq, nfi, d);
    StaysBelow(fin, freq, Ratio(fin, freq).Floor, nfi + 1, NF_MAX);
  }

  /** The first of the numerators from m on that offers dividers within the limit. */
  lemma {:induction false} FirstOffer(fin: int, freq: int, m: int, nfi: int, d: Dividers) returns (n: int, e: Dividers)
    requires Inputs(fin, freq) && Tried(fin, freq, m) && m <= nfi && NoneBefore(fin, freq, m)
    requires Tried(fin, freq, nfi) && Offers(fin, freq, nfi, d) && Abs(d.err) < LIMIT
    ensures Tried(fin, freq, n) && Offers(fin, freq, n, e) && Abs(e.err) < LIMIT && NoneBefore(fin, freq, n)
    decreases nfi - m
  {
    hide Offers, Abs;
    if e' :| Offers(fin, freq, m, e') && Abs(e'.err) < LIMIT {
      n, e := m, e';
    } else {
      n, e := FirstOffer(fin, freq, m + 1, nfi, d);
    }
  }

  /** No first offer has an error within one part in ten thousand of the tolerance. */
  ghost predicate ClearCut(fin: int, freq: int)
    requires Inputs(fin, freq)
  {
    forall n, e :: Tried(fin, freq, n) && Offers(fin, freq, n, e) && NoneBefore(fin, freq, n) ==>
      Abs(e.err) < SAFE || Abs(e.err) >= LIMIT
  }

  ghost predicate Granted(fin: int, freq: int)
    requires Inputs(fin, freq) && Ratio(fin, freq).Floor >= 0
  {
    var acc := Accepted(fin, freq, Ratio(fin, freq).Floor, NF_MAX);
    acc != [] && Abs(acc[|acc| - 1].err) < Shrunk(TERR)
  }

  ghost predicate Offered(fin: int, freq: int)
    requires Inputs(fin, freq)
  {
    exists nfi, d :: Tried(fin, freq, nfi) && Offers(fin, freq, nfi, d) && Abs(d.err) < TERR
  }

  lemma OfferedIsGranted(fin: int, freq: int)
    requires Inputs(fin, freq) && ClearCut(fin, freq) && Offered(fin, freq)
    ensures Ratio(fin, freq).Floor >= 0 && Granted(fin, freq)
  {
    RatioFloor(fin, freq);
    hide Offers, Abs, Accepted, Ratio;
    var nfi, d :| Tried(fin, freq, nfi) && Offers(fin, freq, nfi, d) && Abs(d.err) < TERR;
    var n, e := FirstOffer(fin, freq, Ratio(fin, freq).Floor, nfi, d);
    hide NoneBefore;
    FirstOfferSucceeds(fin, freq, n, e);
  }

  lemma GrantedIsOffered(fin: int, freq: int)
    requires Inputs(fin, freq) && Ratio(fin, freq).Floor >= 0 && Granted(fin, freq)
    ensures Offered(fin, freq)
  {
    hide Offers, Abs, Accepted, Ratio;
    var acc := Accepted(fin, freq, Ratio(fin, freq).Floor, NF_MAX);
    var n := AcceptedIsOffered(fin, freq, Ratio(fin, freq).Floor, NF_MAX);
    assert Tried(fin, freq, n) && Offers(fin, freq, n, acc[|acc| - 1]);
  }

  /** Unless the first offer is at the edge of the tolerance, the search succeeds if and only if some numerator offers
      dividers with an error below the tolerance; without one it never does. */
  lemma GrantedIffOffered(fin: int, freq: int)
    requires Inputs(fin, freq)
    ensures Ratio(fin, freq).Floor >= 0
    ensures Granted(fin, freq) ==> Offered(fin, freq)
    ensures ClearCut(fin, freq) ==> (Granted(fin, freq) <==> Offered(fin, freq))
  {
    RatioFloor(fin, freq);
    hide Granted, Offered, ClearCut, Ratio;
    if Granted(fin, freq) { GrantedIsOffered(fin, freq); }
    if ClearCut(fin, freq) && Offered(fin, freq) { OfferedIsGranted(fin, freq); }
  }

  /** sysctl_pll_source_set_freq, in terms of what the numerators offer. */
  method SetFreq(ctl: Sysctl, which: nat, source: nat, freq: int) returns (r: int)
    requires ctl.Valid() && 1 <= freq <= FREQ_MAX
    modifies ctl
    ensures ctl.Valid()
    ensures var fin := old(ctl.RequestInput(which, source));
            if fin == 0 then r == 0
            else
              && (r != 0 ==> Offered(fin, freq))
              && (ClearCut(fin, freq) ==> (r != 0 <==> Offered(fin, freq)))
  {
    hide Offered, ClearCut, Accepted, Fits, Output, Abs, Shrunk;
    ghost var fin := ctl.RequestInput(which, source);
    r := ctl.SetFreq(which, source, freq);
    if fin != 0 { GrantedIffOffered(fin, freq); }
  }

  /** The last acceptance is some numerator's offer. */
  lemma {:induction false} AcceptedIsOffered(fin: int, freq: int, lo: int, hi: int) returns (n: int)
    requires Inputs(fin, freq) && 0 <= lo && hi <= NF_MAX && Accepted(fin, freq, lo, hi) != []
    ensures lo <= n < hi
    ensures var acc := Accepted(fin, freq, lo, hi); Offers(fin, freq, n, acc[|acc| - 1])
    decreases hi - lo
  {
    hide Offers, CandidateFor, Improves;
    var acc, prev := Accepted(fin, freq, lo, hi), Accepted(fin, freq, lo, hi - 1);
    var c := CandidateFor(fin, freq, hi - 1);
    if c.Some? && Improves(prev, c.value) {
      n := hi - 1;
      OfferIsCandidate(fin, freq, n, c.value.d);
    } else {
      n := AcceptedIsOffered(fin, freq, lo, hi - 1);
    }
  }

  // ----- a request that is granted -----

  /** 806 MHz from the 26 MHz oscillator: the ratio is 31. */
  lemma RatioOf806()
    ensures Inputs(26000000, 806000000) && Ratio(26000000, 806000000) == 31.0
  {
  }

  lemma First806()
    ensures Accepted(26000000, 806000000, 31, 32) == [Dividers(1, 62, 2, 0.0)]
  {
    var d := Dividers(1, 62, 2, 0.0);
    RatioOf806();
    assert 2 % 2 == 0 && 1 % 2 == 1;
    assert GreatestWithin(1, 1, 2);
    assert OffersWith(26000000, 806000000, 31, 1, 1, d);
    assert NoneBefore(26000000, 806000000, 31);
    FirstAccepted(26000000, 806000000, 31, d);
  }

  /** No later numerator is both as exact and better. */
  lemma NotBetterThanExact(nfi: int, c: Candidate)
    requires 32 <= nfi < 64 && CandidateFor(26000000, 806000000, nfi) == Some(c)
    ensures !Improves([Dividers(1, 62, 2, 0.0)], c)
  {
    RatioOf806();
    hide Spread, Fits;
    var x := nfi as real / 31.0;
    var nr := Rint(x);
    assert 1 <= nr <= 2;
    var err := 1.0 - (nfi as real / nr as real) / 31.0;
    SpreadKeepsRatio(806000000, nfi, nr, err);
    assert c.d.err == err;
    if nfi == 62 {
      assert nr == 2 && err == 0.0;
      SixtyTwo();
    } else if nr == 1 {
      assert Abs(err) >= 1.0 / 31.0;
    } else {
      assert Abs(err) >= 1.0 / 62.0;
    }
  }

  lemma SixtyTwo()
    ensures Spread(806000000, 62, 2, 0.0).d.no == 2
  {
    TopIsQuotient(806000000);
    assert GreatestWithin(2, 2, 2);
    GreatestIsUnique(2, 2, 2);
  }

  lemma {:induction false} Accepted806(hi: int)
    requires 32 <= hi <= 64
    ensures Accepted(26000000, 806000000, 31, hi) == [Dividers(1, 62, 2, 0.0)]
    decreases hi
  {
    hide CandidateFor, Improves;
    if hi == 32 {
      First806();
    } else {
      Accepted806(hi - 1);
      var c := CandidateFor(26000000, 806000000, hi - 1);
      if c.Some? { NotBetterThanExact(hi - 1, c.value); }
    }
  }

  /** The request is granted, with reference divider 1, multiplier 62 and output divider 2. */
  method Set806(ctl: Sysctl) returns (r: int)
    requires ctl.Valid()
    modifies ctl
    ensures r == 806000000 && ctl.Valid() && ctl.pll[0] == PllRegister(0, 61, 1, 61)
  {
    hide Accepted, Fits;
    RatioOf806();
    Accepted806(64);
    r := ctl.SetFreq(0, 0, 806000000);
  }

  // ----- a request at the edge -----

  const EDGE := 1056507936

  /** From 65 MHz, numerator 16 is off by a hair less than 1/64. */
  lemma EdgeRatio()
    ensures Inputs(65000000, EDGE) && Ratio(65000000, EDGE) == 1056507936.0 / 65000000.0
    ensures Ratio(65000000, EDGE).Floor == 16
  {
  }

  lemma EdgeFirst()
    ensures var err := 1.0 - 16.0 / Ratio(65000000, EDGE);
            && 0.0156249 < err < LIMIT && err >= Shrunk(TERR)
            && Accepted(65000000, EDGE, 16, 17) == [Dividers(1, 16, 1, err)]
  {
    EdgeRatio();
    var err := 1.0 - 16.0 / Ratio(65000000, EDGE);
    var d := Dividers(1, 16, 1, err);
    assert GreatestWithin(1, 1, 1);
    assert OffersWith(65000000, EDGE, 16, 1, 1, d);
    assert NoneBefore(65000000, EDGE, 16);
    FirstAccepted(65000000, EDGE, 16, d);
  }

  /** With a cap of one the reference divider is the denominator, so that only denominator 1 may follow. */
  lemma EdgeBlocks(nfi: int, c: Candidate, first: Dividers)
    requires 17 <= nfi < 64 && CandidateFor(65000000, EDGE, nfi) == Some(c)
    requires first.nrx == 1 && first.no == 1 && 0.0156249 < first.err < LIMIT
    ensures !Improves([first], c)
  {
    EdgeRatio();
    hide Fits;
    var x := nfi as real / Ratio(65000000, EDGE);
    var nr := Rint(x);
    var err := 1.0 - (nfi as real / nr as real) / Ratio(65000000, EDGE);
    EdgeSpread(nfi, nr, err);
    hide Spread;
    if nr == 1 {
      assert x <= 1.5;
      assert err <= 1.0 - 17.0 / Ratio(65000000, EDGE);
    }
  }

  lemma EdgeSpread(nfi: int, nr: int, err: real)
    requires 1 <= nfi < 64 && nr >= 1
    ensures var c := Spread(EDGE, nfi, nr, err); c.d.nrx == nr && c.d.err == err
  {
    TopIsQuotient(EDGE);
    assert GreatestDivisor(nr, 1) == 1;
    assert 64 / nfi >= 1;
  }

  lemma {:induction false} EdgeAccepted(hi: int)
    requires 17 <= hi <= 64
    ensures var err := 1.0 - 16.0 / Ratio(65000000, EDGE);
            && err >= Shrunk(TERR) && 0.0156249 < err < LIMIT
            && Accepted(65000000, EDGE, 16, hi) == [Dividers(1, 16, 1, err)]
    decreases hi
  {
    hide CandidateFor, Improves;
    EdgeFirst();
    if hi > 17 {
      EdgeAccepted(hi - 1);
      var c := CandidateFor(65000000, EDGE, hi - 1);
      if c.Some? {
        EdgeBlocks(hi - 1, c.value, Dividers(1, 16, 1, 1.0 - 16.0 / Ratio(65000000, EDGE)));
      }
    }
  }

  /** Numerator 49 offers dividers 3, 49 and 1, with a third of that error. */
  lemma EdgeOffer() returns (d: Dividers)
    ensures d.nrx == 3 && d.nfx == 49 && d.no == 1
    ensures Inputs(65000000, EDGE) && Offers(65000000, EDGE, 49, d) && Abs(d.err) < 0.005
  {
    EdgeRatio();
    d := Dividers(3, 49, 1, 1.0 - (49.0 / 3.0) / Ratio(65000000, EDGE));
    assert 3 % 1 == 0;
    assert GreatestWithin(1, 3, 1);
    assert OffersWith(65000000, EDGE, 49, 3, 1, d);
  }

  /** The request is refused all the same: with PLL0 at 65 MHz, PLL2 cannot be set to it. */
  method RefusedAtTheEdge(ctl: Sysctl) returns (r: int)
    requires ctl.Valid() && ctl.pll[0] == PllRegister(0, 34, 13, 34)
    modifies ctl
    ensures r == 0 && Offered(65000000, EDGE)
  {
    hide Accepted, Fits;
    EdgeRatio();
    EdgeAccepted(64);
    ghost var d := EdgeOffer();
    assert Tried(65000000, EDGE, 49);
    assert ctl.RequestInput(2, 1) == 65000000;
    hide Offers;
    r := ctl.SetFreq(2, 1, EDGE);
  }
}
