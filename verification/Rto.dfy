/**
 The retransmission timeout estimate, a variant of section 2 of RFC 6298 whose gains
 depend on how much the sample changed. Times are reals; only the resulting timeout
 is a whole number of nanoseconds.
 */
module Rto {
  const INITIAL_RTO := 1_000_000_000

  datatype Estimate = Estimate(srtt: real, rttvar: real, rtt: real, rto: int)

  const INITIAL: Estimate := Estimate(0.0, 0.0, 0.0, INITIAL_RTO)

  function Abs(x: real): real {
    if x < 0.0 then -x else x
  }

  function Max(x: real, y: real): real {
    if x < y then y else x
  }

  /** Conversion to an integer rounds toward zero. */
  function Truncate(x: real): int {
    if x < 0.0 then -(-x).Floor else x.Floor
  }

  /** The relative change of the sample, at most 1. */
  function Change(previous: real, sample: real): real
    requires previous != 0.0
  {
    var c := Abs((sample - previous) / previous);
    if c > 1.0 then 1.0 else c
  }

  function Mix(gain: real, old': real, new': real): real {
    (1.0 - gain) * old' + gain * new'
  }

  function Updated(e: Estimate, sample: real): Estimate
    requires e.srtt == 0.0 || e.rtt != 0.0
  {
    if e.srtt == 0.0 then
      Estimate(sample, sample / 2.0, sample, Truncate(sample + 4.0 * (sample / 2.0)))
    else
      var c := Change(e.rtt, sample);
      var srtt := Mix(0.125 * (1.0 + c), e.srtt, sample);
      var rttvar := Mix(0.25 * (1.0 - c), e.rttvar, Abs(srtt - sample));
      Estimate(srtt, rttvar, sample, Truncate(srtt + 4.0 * rttvar))
  }

  /** All samples lie in [lo, hi]; samples carry a constant of 100 ms, so lo > 0. */
  ghost predicate Within(samples: seq<real>, lo: real, hi: real) {
    0.0 < lo && forall i :: 0 <= i < |samples| ==> lo <= samples[i] <= hi
  }

  ghost predicate Bounded(e: Estimate, lo: real, hi: real) {
    && lo <= e.srtt <= hi && lo <= e.rtt <= hi
    && 0.0 <= e.rttvar <= Max(hi / 2.0, hi - lo)
    && lo.Floor <= e.rto <= (5.0 * hi).Floor
  }

  lemma ProductIsNonnegative(x: real, y: real)
    requires x >= 0.0 && y >= 0.0
    ensures x * y >= 0.0
  {
  }

  lemma MixStaysBetween(gain: real, a: real, b: real, lo: real, hi: real)
    requires 0.0 <= gain <= 1.0 && lo <= a <= hi && lo <= b <= hi
    ensures lo <= Mix(gain, a, b) <= hi
  {
    ProductIsNonnegative(1.0 - gain, a - lo);
    ProductIsNonnegative(gain, b - lo);
    ProductIsNonnegative(1.0 - gain, hi - a);
    ProductIsNonnegative(gain, hi - b);
    assert Mix(gain, a, b) - lo == (1.0 - gain) * (a - lo) + gain * (b - lo);
    assert hi - Mix(gain, a, b) == (1.0 - gain) * (hi - a) + gain * (hi - b);
  }

  lemma ChangeIsAFraction(previous: real, sample: real)
    requires previous != 0.0
    ensures 0.0 <= Change(previous, sample) <= 1.0
  {
  }

  lemma FloorIsMonotone(x: real, y: real)
    requires x <= y
    ensures x.Floor <= y.Floor
  {
  }

  lemma RtoInBounds(srtt: real, rttvar: real, lo: real, hi: real)
    requires 0.0 < lo <= srtt <= hi && 0.0 <= rttvar <= Max(hi / 2.0, hi - lo)
    ensures lo.Floor <= Truncate(srtt + 4.0 * rttvar) <= (5.0 * hi).Floor
  {
    FloorIsMonotone(lo, srtt + 4.0 * rttvar);
    FloorIsMonotone(srtt + 4.0 * rttvar, 5.0 * hi);
  }

  lemma UpdateIsBounded(e: Estimate, sample: real, lo: real, hi: real)
    requires 0.0 < lo <= sample <= hi
    requires e.srtt == 0.0 || Bounded(e, lo, hi)
    ensures Bounded(Updated(e, sample), lo, hi)
  {
    var next := Updated(e, sample);
    if e.srtt != 0.0 {
      var c := Change(e.rtt, sample);
      ChangeIsAFraction(e.rtt, sample);
      MixStaysBetween(0.125 * (1.0 + c), e.srtt, sample, lo, hi);
      MixStaysBetween(0.25 * (1.0 - c), e.rttvar, Abs(next.srtt - sample), 0.0, Max(hi / 2.0, hi - lo));
    }
    RtoInBounds(next.srtt, next.rttvar, lo, hi);
  }

  /** The estimate after all samples. No division in it is by zero. */
  ghost function Estimated(samples: seq<real>, lo: real, hi: real): (e: Estimate)
    requires Within(samples, lo, hi)
    ensures samples != [] ==> Bounded(e, lo, hi)
    ensures samples == [] ==> e == INITIAL && e.rto == 1_000_000_000
  {
    if samples == [] then INITIAL
    else
      var before := Estimated(samples[..|samples| - 1], lo, hi);
      UpdateIsBounded(before, samples[|samples| - 1], lo, hi);
      Updated(before, samples[|samples| - 1])
  }

  // ----- constant samples

  function Power(x: real, n: nat): real {
    if n == 0 then 1.0 else x * Power(x, n - 1)
  }

  ghost predicate Constant(samples: seq<real>, c: real) {
    forall i :: 0 <= i < |samples| ==> samples[i] == c
  }

  lemma {:induction false} PowerIsPositive(x: real, n: nat)
    requires x > 0.0
    ensures Power(x, n) > 0.0
  {
    if n > 0 { PowerIsPositive(x, n - 1); }
  }

  lemma TimesThreeQuarters(c: real, p: real)
    ensures 0.75 * (c / 2.0 * p) == c / 2.0 * (0.75 * p)
    ensures c + 4.0 * (c / 2.0 * p) == c + 2.0 * c * p
  {
    assert c / 2.0 * p == c * p / 2.0;
  }

  /** The estimate for a constant round trip of which a part `p` of the first doubt is left. */
  function Settling(c: real, p: real): Estimate {
    Estimate(c, c / 2.0 * p, c, (c + 2.0 * c * p).Floor)
  }

  lemma ConstantStep(c: real, p: real)
    requires c > 0.0 && p > 0.0
    ensures Updated(Settling(c, p), c) == Settling(c, 0.75 * p)
  {
    assert (c - c) / c == 0.0;
    TimesThreeQuarters(c, p);
    TimesThreeQuarters(c, 0.75 * p);
    ProductIsNonnegative(c, 0.75 * p);
    assert Mix(0.25, c / 2.0 * p, 0.0) == 0.75 * (c / 2.0 * p);
    assert Mix(0.125, c, c) == c;
  }

  lemma FirstSample(c: real)
    requires c > 0.0
    ensures Updated(INITIAL, c) == Settling(c, 1.0)
  {
    assert c + 4.0 * (c / 2.0) == c + 2.0 * c * 1.0 && c / 2.0 == c / 2.0 * 1.0;
  }

  /** For a constant round trip the timeout decays to it: the n-th is c + 2c(3/4)^(n-1). */
  lemma {:induction false} ConstantSamples(samples: seq<real>, c: real)
    requires samples != [] && c > 0.0 && Constant(samples, c)
    ensures Within(samples, c, c)
    ensures Estimated(samples, c, c) == Settling(c, Power(0.75, |samples| - 1))
  {
    hide Updated, Settling;
    var before := samples[..|samples| - 1];
    FirstSample(c);
    if |samples| == 1 {
      assert before == [];
    } else {
      ConstantSamples(before, c);
      PowerIsPositive(0.75, |samples| - 2);
      ConstantStep(c, Power(0.75, |samples| - 2));
    }
  }

  // ----- how the gains follow the change of the sample

  /** How far the sample is from the one before, relative to that one. */
  ghost predicate Differs(previous: real, sample: real, share: real) {
    sample - previous == share * previous || previous - sample == share * previous
  }

  lemma ChangeIsShare(previous: real, sample: real, share: real)
    requires previous > 0.0 && share >= 0.0 && Differs(previous, sample, share)
    ensures Change(previous, sample) == if share > 1.0 then 1.0 else share
  {
    if sample - previous == share * previous {
      assert (sample - previous) / previous == share;
    } else {
      assert sample - previous == -share * previous;
      assert (sample - previous) / previous == -share;
    }
  }

  /** The more a sample differs from the one before, up to twice or nothing of it, the more
      it moves the mean, from an eighth to a quarter of the way, and the less it moves the
      variance, from a quarter of the way to nothing. */
  lemma GainsFollowChange(e: Estimate, sample: real, share: real)
    requires e.srtt != 0.0 && e.rtt > 0.0 && share >= 0.0 && Differs(e.rtt, sample, share)
    ensures var next := Updated(e, sample);
      var c := if share > 1.0 then 1.0 else share;
      && next.srtt - e.srtt == (1.0 + c) / 8.0 * (sample - e.srtt)
      && next.rttvar - e.rttvar == (1.0 - c) / 4.0 * ((if next.srtt < sample then sample - next.srtt else next.srtt - sample) - e.rttvar)
      && next.rtt == sample
      && (next.srtt + 4.0 * next.rttvar >= 0.0 ==> next.rto == (next.srtt + 4.0 * next.rttvar).Floor)
  {
    ChangeIsShare(e.rtt, sample, share);
  }

  /** A sample like the one before. */
  lemma UnchangedSample(e: Estimate, sample: real)
    requires e.srtt != 0.0 && e.rtt > 0.0 && sample == e.rtt
    ensures var next := Updated(e, sample);
      && next.srtt == 7.0 / 8.0 * e.srtt + sample / 8.0
      && next.rttvar == 3.0 / 4.0 * e.rttvar + (if next.srtt < sample then sample - next.srtt else next.srtt - sample) / 4.0
  {
    GainsFollowChange(e, sample, 0.0);
  }

  lemma AtLeastOnce(x: real, y: real) returns (share: real)
    requires x >= y > 0.0
    ensures share >= 1.0 && x == share * y
  {
    share := x / y;
    assert share < 1.0 ==> share * y < y by {
      if share < 1.0 { assert (1.0 - share) * y > 0.0; }
    }
  }

  /** A sample at least twice the one before, or none of it. */
  lemma DoubledSample(e: Estimate, sample: real)
    requires e.srtt != 0.0 && e.rtt > 0.0 && (sample >= 2.0 * e.rtt || sample <= 0.0)
    ensures var next := Updated(e, sample);
      next.srtt == 3.0 / 4.0 * e.srtt + sample / 4.0 && next.rttvar == e.rttvar
  {
    var share := AtLeastOnce(if sample >= 2.0 * e.rtt then sample - e.rtt else e.rtt - sample, e.rtt);
    GainsFollowChange(e, sample, share);
  }

  /** The part of the way that the mean moves. */
  lemma Moved(e: Estimate, sample: real, share: real) returns (part: real)
    requires e.srtt != 0.0 && e.rtt > 0.0 && share >= 0.0 && Differs(e.rtt, sample, share)
    ensures part == (1.0 + if share > 1.0 then 1.0 else share) / 8.0
    ensures Updated(e, sample).srtt - e.srtt == part * (sample - e.srtt)
  {
    GainsFollowChange(e, sample, share);
    part := (1.0 + if share > 1.0 then 1.0 else share) / 8.0;
  }

  lemma BiggerPart(gap: real, p: real, q: real, x: real, y: real)
    requires 0.0 <= p <= q <= 1.0 && x == p * gap && y == q * gap
    ensures Abs(x) <= Abs(y) && Abs(x - gap) >= Abs(y - gap)
  {
    var size := Abs(gap);
    ProductIsNonnegative(p, size);
    ProductIsNonnegative(q - p, size);
    ProductIsNonnegative(1.0 - q, size);
    assert q * size == p * size + (q - p) * size && size == q * size + (1.0 - q) * size;
    if gap < 0.0 {
      assert p * -gap == -(p * gap) && q * -gap == -(q * gap);
    }
  }

  /** The weight of a sample rises with its change. */
  lemma BiggerChangeWeighsMore(e: Estimate, f: Estimate, sample: real, less: real, more: real)
    requires e.srtt == f.srtt != 0.0 && e.rtt > 0.0 && f.rtt > 0.0 && 0.0 <= less <= more
    requires Differs(e.rtt, sample, less) && Differs(f.rtt, sample, more)
    ensures Abs(Updated(e, sample).srtt - e.srtt) <= Abs(Updated(f, sample).srtt - f.srtt)
    ensures Abs(Updated(e, sample).srtt - sample) >= Abs(Updated(f, sample).srtt - sample)
  {
    hide Updated, Differs, Abs;
    var p := Moved(e, sample, less);
    var q := Moved(f, sample, more);
    BiggerPart(sample - e.srtt, p, q, Updated(e, sample).srtt - e.srtt, Updated(f, sample).srtt - f.srtt);
  }

  // ----- the fields that are updated

  class Estimator {
    var srtt: real
    var rttvar: real
    var rtt: real
    var rto: int

    constructor ()
      ensures Value() == INITIAL
    {
      srtt, rttvar, rtt, rto := 0.0, 0.0, 0.0, INITIAL_RTO;
    }

    function Value(): Estimate
      reads this
    {
      Estimate(srtt, rttvar, rtt, rto)
    }

    method UpdateRTO(sample: real)
      requires srtt == 0.0 || rtt != 0.0
      modifies this
      ensures Value() == Updated(old(Value()), sample)
    {
      if srtt == 0.0 {
        srtt := sample;
        rttvar := sample / 2.0;
      } else {
        var rttrc := Abs((sample - rtt) / rtt);
        if rttrc > 1.0 {
          rttrc := 1.0;
        }
        var srttFactor := 0.125 * (1.0 + rttrc);
        var rttvarFactor := 0.25 * (1.0 - rttrc);
        srtt := Mix(srttFactor, srtt, sample);
        rttvar := Mix(rttvarFactor, rttvar, Abs(srtt - sample));
      }
      rto := Truncate(srtt + 4.0 * rttvar);
      rtt := sample;
    }
  }
}
