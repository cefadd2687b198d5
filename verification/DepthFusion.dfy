/** Robust fusion of depth estimates (src/spatial_engine.c): a median by partial selection sort,
    then the mean of what lies within a multiple of the median absolute deviation. A minority of
    estimates, however wrong, moves the result only so far. */
module DepthFusion {
  import opened Reals

  const MIN_DEPTH := 0.3
  const MAX_DEPTH := 120.0
  const MAD_FLOOR := 0.01
  const MIN_CONFIDENCE := 0.25

  // ---- the median ----

  /** The index of the least entry from `i` up to `n`, the first of several. */
  function MinFrom(s: seq<real>, i: nat, n: nat): (m: nat)
    requires i < n <= |s|
    ensures i <= m < n
    ensures forall k :: i <= k < n ==> s[m] <= s[k]
    decreases n
  {
    if n == i + 1 then i
    else
      var m := MinFrom(s, i, n - 1);
      if s[n - 1] < s[m] then n - 1 else m
  }

  function Swap(s: seq<real>, i: nat, j: nat): (t: seq<real>)
    requires i < |s| && j < |s|
    ensures |t| == |s|
    ensures forall k :: 0 <= k < |s| ==> t[k] == if k == i then s[j] else if k == j then s[i] else s[k]
  {
    s[i := s[j]][j := s[i]]
  }

  /** The first `n` places filled by selection. */
  function Selected(s: seq<real>, n: nat): (t: seq<real>)
    requires n <= |s|
    ensures |t| == |s|
  {
    if n == 0 then s
    else
      var t := Selected(s, n - 1);
      Swap(t, n - 1, MinFrom(t, n - 1, |t|))
  }

  function Median(s: seq<real>): (r: real)
  {
    if |s| == 0 then 0.0 else if |s| == 1 then s[0] else Selected(s, |s| / 2 + 1)[|s| / 2]
  }

  function Less(s: seq<real>, v: real): (c: nat)
    ensures c <= |s|
  {
    if |s| == 0 then 0 else Less(s[..|s| - 1], v) + if s[|s| - 1] < v then 1 else 0
  }

  function AtMost(s: seq<real>, v: real): (c: nat)
    ensures c <= |s|
  {
    if |s| == 0 then 0 else AtMost(s[..|s| - 1], v) + if s[|s| - 1] <= v then 1 else 0
  }

  /** Changing one entry changes the counts by what it was and what it is. */
  lemma {:induction false} CountsUpdated(s: seq<real>, i: nat, x: real, v: real)
    requires i < |s|
    ensures Less(s[i := x], v) + (if s[i] < v then 1 else 0) == Less(s, v) + if x < v then 1 else 0
    ensures AtMost(s[i := x], v) + (if s[i] <= v then 1 else 0) == AtMost(s, v) + if x <= v then 1 else 0
    decreases |s|
  {
    var n := |s| - 1;
    if i < n {
      CountsUpdated(s[..n], i, x, v);
      assert s[i := x][..n] == s[..n][i := x];
    } else {
      assert s[i := x][..n] == s[..n];
    }
  }

  lemma SwapCounts(s: seq<real>, i: nat, j: nat, v: real)
    requires i < |s| && j < |s|
    ensures Less(Swap(s, i, j), v) == Less(s, v) && AtMost(Swap(s, i, j), v) == AtMost(s, v)
  {
    CountsUpdated(s, i, s[j], v);
    CountsUpdated(s[i := s[j]], j, s[i], v);
    if i == j { assert s[i := s[j]] == s; }
    hide Less;
    hide AtMost;
  }

  /** Places below `n` hold the least entries in order. */
  ghost predicate Front(t: seq<real>, n: nat) {
    n <= |t| && forall a, b :: 0 <= a < n && a <= b < |t| ==> t[a] <= t[b]
  }

  lemma SwapFront(t: seq<real>, n: nat)
    requires Front(t, n) && n < |t|
    ensures Front(Swap(t, n, MinFrom(t, n, |t|)), n + 1)
  {
    hide MinFrom;
  }

  lemma SwapMultiset(t: seq<real>, i: nat, j: nat)
    requires i < |t| && j < |t|
    ensures multiset(Swap(t, i, j)) == multiset(t)
  {
  }

  lemma {:induction false} SelectedFront(s: seq<real>, n: nat)
    requires n <= |s|
    ensures Front(Selected(s, n), n) && multiset(Selected(s, n)) == multiset(s)
  {
    hide MinFrom;
    hide Swap;
    hide Front;
    if n == 0 {
      FrontEmpty(s);
    } else {
      SelectedFront(s, n - 1);
      var t := Selected(s, n - 1);
      hide Selected;
      SwapFront(t, n - 1);
      SwapMultiset(t, n - 1, MinFrom(t, n - 1, |t|));
      SelectedStep(s, n);
    }
  }

  lemma FrontEmpty(s: seq<real>)
    ensures Front(s, 0)
  {
  }

  lemma SelectedStep(s: seq<real>, n: nat)
    requires 0 < n <= |s|
    ensures var t := Selected(s, n - 1); Selected(s, n) == Swap(t, n - 1, MinFrom(t, n - 1, |t|))
  {
    hide MinFrom;
    hide Swap;
  }

  lemma {:induction false} SelectedCounts(s: seq<real>, n: nat, v: real)
    requires n <= |s|
    ensures Less(Selected(s, n), v) == Less(s, v) && AtMost(Selected(s, n), v) == AtMost(s, v)
  {
    hide MinFrom;
    hide Swap;
    hide Less;
    hide AtMost;
    if n > 0 {
      SelectedCounts(s, n - 1, v);
      var t := Selected(s, n - 1);
      SelectedStep(s, n);
      hide Selected;
      SwapCounts(t, n - 1, MinFrom(t, n - 1, |t|), v);
    }
  }

  lemma {:induction false} LessWithin(s: seq<real>, k: nat, v: real)
    requires k <= |s| && forall i :: k <= i < |s| ==> s[i] >= v
    ensures Less(s, v) <= k
    decreases |s|
  {
    if |s| > k { LessWithin(s[..|s| - 1], k, v); }
  }

  lemma {:induction false} AtMostBeyond(s: seq<real>, k: nat, v: real)
    requires k <= |s| && forall i :: 0 <= i < k ==> s[i] <= v
    ensures AtMost(s, v) >= k
    decreases |s|
  {
    if |s| > 0 { AtMostBeyond(s[..|s| - 1], if k == |s| then k - 1 else k, v); }
  }

  /** The floor(n/2)-th order statistic: at most n/2 entries are smaller, and more than n/2 are no
      larger. */
  ghost predicate IsMiddle(s: seq<real>, v: real) {
    v in s && Less(s, v) <= |s| / 2 < AtMost(s, v)
  }

  lemma FrontMiddle(t: seq<real>, k: nat)
    requires k < |t| && Front(t, k + 1)
    ensures Less(t, t[k]) <= k < AtMost(t, t[k])
  {
    hide Less;
    hide AtMost;
    LessWithin(t, k, t[k]);
    AtMostBeyond(t, k + 1, t[k]);
  }

  lemma MedianIs(s: seq<real>)
    requires |s| > 1
    ensures Median(s) == Selected(s, |s| / 2 + 1)[|s| / 2]
  {
    hide Selected;
  }

  lemma SelectedIn(s: seq<real>, n: nat, k: nat)
    requires n <= |s| && k < |s|
    ensures Selected(s, n)[k] in s
  {
    SelectedFront(s, n);
    assert Selected(s, n)[k] in multiset(Selected(s, n));
    hide Selected;
  }

  lemma MakeMiddle(s: seq<real>, v: real)
    requires v in s && Less(s, v) <= |s| / 2 < AtMost(s, v)
    ensures IsMiddle(s, v)
  {
    hide Less;
    hide AtMost;
  }

  lemma OneIsMiddle(s: seq<real>)
    requires |s| == 1
    ensures IsMiddle(s, Median(s))
  {
    assert s[..0] == [];
  }

  lemma MedianIsMiddle(s: seq<real>)
    requires |s| > 0
    ensures IsMiddle(s, Median(s))
  {
    hide *;
    if |s| == 1 {
      OneIsMiddle(s);
    } else {
      var k := |s| / 2;
      MedianIs(s);
      SelectedFront(s, k + 1);
      SelectedCounts(s, k + 1, Median(s));
      FrontMiddle(Selected(s, k + 1), k);
      SelectedIn(s, k + 1, k);
      MakeMiddle(s, Median(s));
    }
  }

  lemma MiddleFacts(s: seq<real>, v: real)
    requires IsMiddle(s, v)
    ensures v in s && Less(s, v) <= |s| / 2 < AtMost(s, v)
  {
    hide Less;
    hide AtMost;
  }

  // ---- fusion ----

  function Deviations(es: seq<real>, med: real): (ds: seq<real>)
    ensures |ds| == |es| && forall i :: 0 <= i < |es| ==> ds[i] == Abs(es[i] - med)
  {
    seq(|es|, i requires 0 <= i < |es| => Abs(es[i] - med))
  }

  function Mad(es: seq<real>): (r: real) {
    var m := Median(Deviations(es, Median(es)));
    if m < MAD_FLOOR then MAD_FLOOR else m
  }

  function Sum(es: seq<real>, med: real, reach: real): (r: real) {
    if |es| == 0 then 0.0
    else
      var e := es[|es| - 1];
      Sum(es[..|es| - 1], med, reach) + if Abs(e - med) <= reach then e else 0.0
  }

  function Inliers(es: seq<real>, med: real, reach: real): (c: nat) {
    if |es| == 0 then 0
    else Inliers(es[..|es| - 1], med, reach) + if Abs(es[|es| - 1] - med) <= reach then 1 else 0
  }

  function Clamp(x: real): (r: real) {
    if x < MIN_DEPTH then MIN_DEPTH else if x > MAX_DEPTH then MAX_DEPTH else x
  }

  function Mean(sum: real, n: nat, med: real): (r: real) {
    if n > 0 then sum / n as real else med
  }

  function Unclamped(es: seq<real>, mult: real): (r: real) {
    var med := Median(es);
    var reach := mult * Mad(es);
    Mean(Sum(es, med, reach), Inliers(es, med, reach), med)
  }

  function Fused(es: seq<real>, mult: real): (r: real) {
    if |es| == 0 then MAX_DEPTH else Clamp(Unclamped(es, mult))
  }

  function ConfidenceOf(mad: real, med: real): (r: real)
    requires med > 0.0
  {
    var ratio := mad / (med + 0.01);
    var conf := 1.0 - if ratio < 0.75 then ratio else 0.75;
    if conf > MIN_CONFIDENCE then conf else MIN_CONFIDENCE
  }

  function Confidence(es: seq<real>): (r: real)
    requires |es| > 0 ==> Median(es) > 0.0
  {
    if |es| == 0 then 0.0 else ConfidenceOf(Mad(es), Median(es))
  }

  // ---- the majority argument ----

  /** How many estimates lie within delta of d. */
  function Near(es: seq<real>, d: real, delta: real): (c: nat)
    ensures c <= |es|
  {
    if |es| == 0 then 0 else Near(es[..|es| - 1], d, delta) + if Abs(es[|es| - 1] - d) <= delta then 1 else 0
  }

  lemma {:induction false} NearBelow(es: seq<real>, d: real, delta: real, v: real)
    requires d + delta < v
    ensures Near(es, d, delta) <= Less(es, v)
  {
    if |es| > 0 { NearBelow(es[..|es| - 1], d, delta, v); }
  }

  lemma {:induction false} NearAbove(es: seq<real>, d: real, delta: real, v: real)
    requires v < d - delta
    ensures Near(es, d, delta) + AtMost(es, v) <= |es|
  {
    if |es| > 0 { NearAbove(es[..|es| - 1], d, delta, v); }
  }

  /** A strict majority pins the median. */
  lemma MedianNear(es: seq<real>, d: real, delta: real)
    requires |es| > 0 && 2 * Near(es, d, delta) > |es|
    ensures Abs(Median(es) - d) <= delta
  {
    var med := Median(es);
    MedianIsMiddle(es);
    hide Median;
    hide Near;
    hide Less;
    hide AtMost;
    if med > d + delta { NearBelow(es, d, delta, med); }
    if med < d - delta { NearAbove(es, d, delta, med); }
  }

  lemma {:induction false} NearDeviations(es: seq<real>, d: real, delta: real, med: real)
    requires Abs(med - d) <= delta
    ensures Near(es, d, delta) <= AtMost(Deviations(es, med), 2.0 * delta)
  {
    if |es| > 0 {
      NearDeviations(es[..|es| - 1], d, delta, med);
      assert Deviations(es, med)[..|es| - 1] == Deviations(es[..|es| - 1], med);
    }
  }

  lemma {:induction false} AtMostLess(s: seq<real>, u: real, v: real)
    requires u < v
    ensures AtMost(s, u) <= Less(s, v)
  {
    if |s| > 0 { AtMostLess(s[..|s| - 1], u, v); }
  }

  /** And it bounds the median deviation. */
  lemma MadNear(es: seq<real>, d: real, delta: real)
    requires |es| > 0 && 2 * Near(es, d, delta) > |es|
    ensures Mad(es) <= Spread(delta)
  {
    hide *;
    var med := Median(es);
    var ds := Deviations(es, med);
    MedianNear(es, d, delta);
    NearDeviations(es, d, delta, med);
    MedianIsMiddle(ds);
    MiddleFacts(ds, Median(ds));
    if Median(ds) > 2.0 * delta { AtMostLess(ds, 2.0 * delta, Median(ds)); }
    MadIs(es, delta);
  }

  lemma MadIs(es: seq<real>, delta: real)
    requires Median(Deviations(es, Median(es))) <= 2.0 * delta
    ensures Mad(es) <= Spread(delta)
  {
    hide Median;
    hide Deviations;
  }

  function Times(n: nat, x: real): (r: real) {
    n as real * x
  }

  lemma TimesStep(n: nat, x: real)
    ensures Times(n + 1, x) == Times(n, x) + x && Times(0, x) == 0.0
  {
    assert (n + 1) as real == n as real + 1.0;
  }

  lemma {:induction false} SumNear(es: seq<real>, med: real, reach: real)
    ensures var n := Inliers(es, med, reach);
            Times(n, med - reach) <= Sum(es, med, reach) <= Times(n, med + reach)
  {
    hide Times;
    if |es| == 0 {
      TimesStep(0, med - reach);
      TimesStep(0, med + reach);
    } else {
      SumNear(es[..|es| - 1], med, reach);
      var n := Inliers(es[..|es| - 1], med, reach);
      TimesStep(n, med - reach);
      TimesStep(n, med + reach);
    }
  }

  lemma AverageNear(sum: real, n: nat, lo: real, hi: real)
    requires n > 0 && Times(n, lo) <= sum <= Times(n, hi)
    ensures lo <= sum / n as real <= hi
  {
    var r := n as real;
    var a := sum / r;
    assert r * a == sum;
    assert a < lo ==> r * a < r * lo;
    assert a > hi ==> r * a > r * hi;
  }

  lemma ReachBound(mult: real, mad: real, bound: real)
    requires mult >= 0.0 && mad <= bound
    ensures mult * mad <= mult * bound
  {
  }

  lemma ReachPositive(mult: real, mad: real)
    requires mult >= 0.0 && mad >= 0.0
    ensures mult * mad >= 0.0
  {
  }

  lemma UnclampedIs(es: seq<real>, mult: real)
    ensures var med, reach := Median(es), mult * Mad(es);
            Unclamped(es, mult) == Mean(Sum(es, med, reach), Inliers(es, med, reach), med)
  {
    hide Median;
    hide Mad;
    hide Sum;
    hide Inliers;
    hide Mean;
  }

  lemma MeanNear(es: seq<real>, med: real, reach: real)
    requires reach >= 0.0
    ensures Abs(Mean(Sum(es, med, reach), Inliers(es, med, reach), med) - med) <= reach
  {
    var n := Inliers(es, med, reach);
    SumNear(es, med, reach);
    hide Sum;
    hide Inliers;
    hide Times;
    if n > 0 { AverageNear(Sum(es, med, reach), n, med - reach, med + reach); }
  }

  lemma MadPositive(es: seq<real>)
    ensures Mad(es) >= 0.01
  {
    hide Median;
  }

  lemma UnclampedNear(es: seq<real>, mult: real)
    requires |es| > 0 && mult >= 0.0
    ensures Abs(Unclamped(es, mult) - Median(es)) <= mult * Mad(es)
  {
    hide *;
    MadPositive(es);
    ReachPositive(mult, Mad(es));
    MeanNear(es, Median(es), mult * Mad(es));
    UnclampedIs(es, mult);
  }

  function Spread(delta: real): (r: real) {
    if 2.0 * delta > MAD_FLOOR then 2.0 * delta else MAD_FLOOR
  }

  lemma ClampNear(x: real, m: real, d: real, a: real, b: real, c: real)
    requires 0.3 <= d <= 120.0 && Abs(x - m) <= a && Abs(m - d) <= b && a <= c
    ensures Abs(Clamp(x) - d) <= b + c
  {
  }

  lemma FusedIs(es: seq<real>, mult: real)
    requires |es| > 0
    ensures Fused(es, mult) == Clamp(Unclamped(es, mult))
  {
    hide Unclamped;
    hide Clamp;
  }

  /** Robustness: when a strict majority of the estimates lies within delta of a true depth in the
      admitted range, the fused depth is within delta + mult * max(2 delta, 0.01) of it. */
  lemma FusedNear(es: seq<real>, mult: real, d: real, delta: real)
    requires |es| > 0 && mult >= 0.0 && 0.3 <= d <= 120.0
    requires 2 * Near(es, d, delta) > |es|
    ensures Abs(Fused(es, mult) - d) <= delta + mult * Spread(delta)
  {
    hide *;
    FusedIs(es, mult);
    MedianNear(es, d, delta);
    MadNear(es, d, delta);
    UnclampedNear(es, mult);
    ReachBound(mult, Mad(es), Spread(delta));
    ClampNear(Unclamped(es, mult), Median(es), d, mult * Mad(es), delta, mult * Spread(delta));
  }

  lemma {:induction false} InliersCount(es: seq<real>, med: real, v: real, reach: real)
    requires v <= reach
    ensures Inliers(es, med, reach) >= AtMost(Deviations(es, med), v)
  {
    if |es| > 0 {
      InliersCount(es[..|es| - 1], med, v, reach);
      assert Deviations(es, med)[..|es| - 1] == Deviations(es[..|es| - 1], med);
    }
  }

  lemma MultAtLeastOne(mult: real, mad: real)
    requires mult >= 1.0 && mad >= 0.0
    ensures mult * mad >= mad
  {
  }

  /** With a multiplier of at least one, more than half of the estimates are kept. */
  lemma MostAreInliers(es: seq<real>, mult: real)
    requires |es| > 0 && mult >= 1.0
    ensures Inliers(es, Median(es), mult * Mad(es)) >= |es| / 2 + 1
  {
    var med := Median(es);
    var ds := Deviations(es, med);
    MedianIsMiddle(ds);
    MultAtLeastOne(mult, Mad(es));
    assert Median(ds) <= Mad(es);
    hide Median;
    hide Mad;
    hide Inliers;
    hide AtMost;
    hide Less;
    InliersCount(es, med, Median(ds), mult * Mad(es));
  }

  // ---- in place ----

  method MinIndex(arr: array<real>, i: nat, n: nat) returns (min: nat)
    requires i < n <= arr.Length
    ensures min == MinFrom(arr[..n], i, n)
  {
    min := i;
    for j := i + 1 to n
      invariant i <= min < j && min == MinFrom(arr[..n], i, j)
    {
      if arr[j] < arr[min] { min := j; }
    }
  }

  method Exchange(arr: array<real>, i: nat, j: nat, n: nat)
    requires i < n <= arr.Length && j < n
    modifies arr
    ensures arr[..n] == Swap(old(arr[..n]), i, j) && arr[n..] == old(arr[n..])
  {
    arr[i], arr[j] := arr[j], arr[i];
  }

  method QuickMedian(arr: array<real>, n: nat) returns (m: real)
    requires n <= arr.Length
    modifies arr
    ensures m == Median(old(arr[..n]))
    ensures n > 1 ==> arr[..n] == Selected(old(arr[..n]), n / 2 + 1)
    ensures multiset(arr[..n]) == multiset(old(arr[..n])) && arr[n..] == old(arr[n..])
  {
    hide Swap;
    hide MinFrom;
    hide Front;
    if n == 0 { return 0.0; }
    if n == 1 { return arr[0]; }
    ghost var s := arr[..n];
    hide Median;
    MedianIs(s);
    for i := 0 to n / 2 + 1
      invariant arr[..n] == Selected(s, i) && arr[n..] == old(arr[n..])
    {
      hide Selected;
      SelectedStep(s, i + 1);
      var min := MinIndex(arr, i, n);
      Exchange(arr, i, min, n);
    }
    SelectedFront(s, n / 2 + 1);
    m := arr[n / 2];
  }

  /** The last loop: inliers added up and counted. */
  method AddInliers(es: seq<real>, med: real, threshold: real) returns (sum: real, inliers: nat)
    ensures sum == Sum(es, med, threshold) && inliers == Inliers(es, med, threshold)
  {
    sum, inliers := 0.0, 0;
    for i := 0 to |es|
      invariant sum == Sum(es[..i], med, threshold) && inliers == Inliers(es[..i], med, threshold)
    {
      assert es[..i + 1][..i] == es[..i];
      if Abs(es[i] - med) <= threshold {
        sum := sum + es[i];
        inliers := inliers + 1;
      }
    }
    assert es[..|es|] == es;
  }

  method Medians(es: seq<real>) returns (med: real, mad: real)
    ensures med == Median(es) && mad == Mad(es)
  {
    hide Median;
    var sorted := new real[|es|](i requires 0 <= i < |es| => es[i]);
    assert sorted[..|es|] == es;
    med := QuickMedian(sorted, |es|);
    var dev := new real[|es|](i requires 0 <= i < |es| => Abs(es[i] - med));
    assert dev[..|es|] == Deviations(es, med);
    mad := QuickMedian(dev, |es|);
    if mad < MAD_FLOOR { mad := MAD_FLOOR; }
  }

  lemma RatioPositive(a: real, b: real)
    requires a >= 0.0 && b > 0.0
    ensures a / b >= 0.0
  {
    var r := a / b;
    assert r * b == a;
    assert r < 0.0 ==> r * b < 0.0;
  }

  method Score(mad: real, med: real) returns (conf: real)
    requires med > 0.0
    ensures conf == ConfidenceOf(mad, med)
    ensures mad >= 0.0 ==> MIN_CONFIDENCE <= conf <= 1.0
  {
    var ratio := mad / (med + 0.01);
    if mad >= 0.0 { RatioPositive(mad, med + 0.01); }
    conf := 1.0 - if ratio < 0.75 then ratio else 0.75;
    if conf < MIN_CONFIDENCE { conf := MIN_CONFIDENCE; }
  }

  lemma MedianPositive(es: seq<real>)
    requires |es| > 0 && forall e :: e in es ==> e > 0.0
    ensures Median(es) > 0.0
  {
    hide Median;
    hide IsMiddle;
    MedianIsMiddle(es);
    MiddleFacts(es, Median(es));
  }

  lemma UnclampedFrom(es: seq<real>, mult: real, med: real, mad: real, reach: real, sum: real, n: nat)
    requires med == Median(es) && mad == Mad(es) && reach == mult * mad
    requires sum == Sum(es, med, reach) && n == Inliers(es, med, reach)
    ensures Unclamped(es, mult) == Mean(sum, n, med)
  {
    hide Median;
    hide Mad;
    hide Sum;
    hide Inliers;
    hide Mean;
  }

  /** The fusion, from the estimates collected to depth and confidence. */
  method Fuse(es: seq<real>, mult: real) returns (fused: real, conf: real)
    requires forall e :: e in es ==> e > 0.0
    ensures |es| > 0 ==> Median(es) > 0.0
    ensures fused == Fused(es, mult) && conf == Confidence(es)
    ensures MIN_DEPTH <= fused <= MAX_DEPTH
  {
    hide Median;
    hide Mad;
    hide Sum;
    hide Inliers;
    hide Mean;
    hide ConfidenceOf;
    hide Unclamped;
    if |es| == 0 { return MAX_DEPTH, 0.0; }
    MedianPositive(es);
    var med, mad := Medians(es);
    var threshold := mult * mad;
    var sum, inliers := AddInliers(es, med, threshold);
    UnclampedFrom(es, mult, med, mad, threshold, sum, inliers);
    fused := Clamp(Mean(sum, inliers, med));
    conf := Score(mad, med);
  }
}
