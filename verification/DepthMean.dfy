/** What depth fusion averages, and what its confidence says. */
module DepthMean {
  import opened Reals
  import opened DepthFusion

  function Total(s: seq<real>): (t: real) {
    if |s| == 0 then 0.0 else Total(s[..|s| - 1]) + s[|s| - 1]
  }

  /** The estimates within reach of the median, with their repeats. */
  ghost predicate AreClose(ks: seq<real>, es: seq<real>, med: real, reach: real) {
    forall e :: multiset(ks)[e] == if Abs(e - med) <= reach then multiset(es)[e] else 0
  }

  lemma {:induction false} CloseOnes(es: seq<real>, med: real, reach: real) returns (ks: seq<real>)
    ensures AreClose(ks, es, med, reach) && |ks| == Inliers(es, med, reach) && Total(ks) == Sum(es, med, reach)
  {
    var n := |es| - 1;
    ks := [];
    if n >= 0 {
      ks := CloseOnes(es[..n], med, reach);
      assert es == es[..n] + [es[n]];
      if Abs(es[n] - med) <= reach {
        var ls := ks + [es[n]];
        assert ls[..|ls| - 1] == ks;
        ks := ls;
      }
    }
  }

  /** The fused depth of at least one estimate: the mean of those within a multiple of the median deviation,
      taken as at least 0.01, from the median; the median if there are none; kept within 0.3 and 120. */
  lemma FusedIsMean(es: seq<real>, mult: real) returns (med: real, dev: real, ks: seq<real>)
    requires |es| > 0
    ensures IsMiddle(es, med) && IsMiddle(Deviations(es, med), dev)
    ensures AreClose(ks, es, med, mult * if dev < 0.01 then 0.01 else dev)
    ensures var mean := if |ks| == 0 then med else Total(ks) / |ks| as real;
            Fused(es, mult) == if mean < 0.3 then 0.3 else if mean > 120.0 then 120.0 else mean
  {
    hide *;
    med := Median(es);
    MedianIsMiddle(es);
    dev := Median(Deviations(es, med));
    MedianIsMiddle(Deviations(es, med));
    ks := CloseOnes(es, med, mult * Mad(es));
    FusedIs(es, mult);
    UnclampedIs(es, mult);
    MadFloor(es);
    MeanAndClamp(Total(ks), |ks|, med);
  }

  lemma MadFloor(es: seq<real>)
    ensures var dev := Median(Deviations(es, Median(es))); Mad(es) == if dev < 0.01 then 0.01 else dev
  {
    hide Median;
  }

  lemma MeanAndClamp(sum: real, n: nat, med: real)
    ensures var mean := if n == 0 then med else sum / n as real;
            Clamp(Mean(sum, n, med)) == if mean < 0.3 then 0.3 else if mean > 120.0 then 120.0 else mean
  {
  }

  /** Without an estimate the depth is the largest there is, with no confidence in it. */
  lemma NoEstimate(mult: real)
    ensures Fused([], mult) == 120.0 && Confidence([]) == 0.0
  {
  }

  /** What the confidence lacks of 1 is the median deviation as a share of the median, up to three
      quarters of it. */
  lemma ConfidenceMeans(es: seq<real>)
    requires |es| > 0 && Median(es) > 0.0
    ensures var conf, med, mad := Confidence(es), Median(es), Mad(es);
            && 0.25 <= conf <= 1.0
            && (1.0 - conf) * (med + 0.01) == if mad < 0.75 * (med + 0.01) then mad else 0.75 * (med + 0.01)
  {
    MadPositive(es);
    hide Median;
    hide Mad;
    ConfidenceIs(Mad(es), Median(es));
    hide ConfidenceOf;
  }

  lemma ConfidenceIs(mad: real, med: real)
    requires med > 0.0 && mad >= 0.0
    ensures var conf := ConfidenceOf(mad, med);
            && 0.25 <= conf <= 1.0
            && (1.0 - conf) * (med + 0.01) == if mad < 0.75 * (med + 0.01) then mad else 0.75 * (med + 0.01)
  {
    var ratio, d := mad / (med + 0.01), med + 0.01;
    assert ratio * d == mad;
    assert ratio >= 0.0;
    if ratio >= 0.75 { assert ratio * d >= 0.75 * d; } else { assert ratio * d < 0.75 * d; }
  }
}
