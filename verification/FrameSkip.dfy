/** Adaptive frame skipping: the frame differencing controller (src/frame_diff.c) and the pipeline
    that reuses its last result while a scene stands still (src/inference_pipeline.c). */
module FrameSkip {
  import opened Bytes

  const MIN_CELL_SIZE := 8
  const STATIC_RATIO := 0.05

  datatype Activity = Static | LowMotion | Active

  datatype Config = Config(gridW: nat, gridH: nat, cellThreshold: real, changeThreshold: real,
                           adaptive: bool, maxStatic: int, maxLow: int, forceEvery: int)

  /** The controller's state; `reference` is the size of the reference frame. */
  datatype Diff = Diff(cfg: Config, reference: Option<(nat, nat)>, skips: nat, skipped: nat, processed: nat,
                       ratio: real, activity: Activity)

  ghost predicate ValidConfig(c: Config) {
    c.gridW > 0 && c.gridH > 0
  }

  function Fresh(c: Config): (r: Diff) {
    Diff(c, None, 0, 0, 0, 1.0, Active)
  }

  function Changed(mads: seq<real>, threshold: real): (n: nat)
    ensures n <= |mads|
  {
    if |mads| == 0 then 0 else Changed(mads[..|mads| - 1], threshold) + if mads[|mads| - 1] > threshold then 1 else 0
  }

  /** The comparison of a frame with the reference: the mean absolute difference of each cell of the
      grid, and of the whole frame. */
  datatype Comparison = Comparison(cells: seq<real>, whole: real)

  /** A frame without pixels is not compared: the last comparison stands. */
  function Compared(d: Diff, w: nat, h: nat, c: Comparison): (r: Diff)
    requires ValidConfig(d.cfg)
  {
    if w == 0 || h == 0 then d
    else if d.reference != Some((w, h)) then d.(ratio := 1.0, activity := Active)
    else if w / d.cfg.gridW < MIN_CELL_SIZE || h / d.cfg.gridH < MIN_CELL_SIZE then
      var r := if c.whole > d.cfg.cellThreshold then 1.0 else 0.0;
      d.(ratio := r, activity := if r > d.cfg.changeThreshold then Active else Static)
    else
      var r := if |c.cells| > 0 then Changed(c.cells, d.cfg.cellThreshold) as real / |c.cells| as real else 1.0;
      d.(ratio := r,
         activity := if r < STATIC_RATIO then Static else if r < d.cfg.changeThreshold then LowMotion else Active)
  }

  function Budget(d: Diff): (r: int) {
    match d.activity case Static => d.cfg.maxStatic case LowMotion => d.cfg.maxLow case Active => 0
  }

  predicate Forced(d: Diff) {
    var total := d.processed + d.skipped;
    d.cfg.forceEvery > 0 && total > 0 && total % d.cfg.forceEvery == 0
  }

  predicate ShouldProcess(d: Diff) {
    d.reference.None? || Forced(d) || d.activity.Active? || d.ratio >= d.cfg.changeThreshold ||
    !d.cfg.adaptive || d.skips >= Budget(d)
  }

  // ---- the pipeline ----

  /** What inference yields for a frame. */
  datatype Result<D, P, F, A> = Result(detections: seq<D>, poses: seq<P>, faces: seq<F>, action: Option<A>)

  datatype Pipeline<D, P, F, A> = Pipeline(enabled: bool, diff: Diff, last: Option<Result<D, P, F, A>>)

  /** One frame: its size, its comparison with the reference, what inference would find, whether the
      reference buffer can be had, and the latest action of the asynchronous recogniser. */
  datatype Frame<D, P, F, A> = Frame(w: nat, h: nat, comparison: Comparison, inferred: Result<D, P, F, A>, allocOk: bool,
                                     latest: Option<Option<A>>)

  function WithReference(d: Diff, w: nat, h: nat, allocOk: bool): (r: Diff) {
    if w == 0 || h == 0 then d
    else if d.reference == Some((w, h)) || allocOk then d.(reference := Some((w, h)))
    else d
  }

  /** A processed frame becomes the reference. */
  function Processed<D, P, F, A>(p: Pipeline<D, P, F, A>, f: Frame<D, P, F, A>): (r: Pipeline<D, P, F, A>) {
    if !p.enabled then p
    else
      var d := WithReference(p.diff, f.w, f.h, f.allocOk);
      p.(diff := d.(skips := 0, processed := d.processed + 1), last := Some(f.inferred))
  }

  predicate Skips<D, P, F, A>(p: Pipeline<D, P, F, A>, f: Frame<D, P, F, A>)
    requires ValidConfig(p.diff.cfg)
  {
    p.enabled && p.last.Some? && !ShouldProcess(Compared(p.diff, f.w, f.h, f.comparison))
  }

  /** A skipped frame shows the last result; the action may be newer. */
  function Reused<D, P, F, A>(last: Result<D, P, F, A>, latest: Option<Option<A>>): (r: Result<D, P, F, A>) {
    if |last.poses| > 0 && latest.Some? then last.(action := latest.value) else last
  }

  function Stepped<D, P, F, A>(p: Pipeline<D, P, F, A>, f: Frame<D, P, F, A>): (r: (Pipeline<D, P, F, A>, Result<D, P, F, A>))
    requires ValidConfig(p.diff.cfg)
    ensures r.0.enabled == p.enabled && r.0.diff.cfg == p.diff.cfg
  {
    var d := if p.enabled && p.last.Some? then Compared(p.diff, f.w, f.h, f.comparison) else p.diff;
    if Skips(p, f) then (p.(diff := d.(skips := d.skips + 1, skipped := d.skipped + 1)), Reused(p.last.value, f.latest))
    else (Processed(p.(diff := d), f), f.inferred)
  }

  function Reset<D, P, F, A>(p: Pipeline<D, P, F, A>): (r: Pipeline<D, P, F, A>) {
    p.(diff := p.diff.(reference := None, skips := 0, ratio := 1.0, activity := Active, skipped := 0, processed := 0), last := None)
  }

  // ---- bounds over every history ----

  datatype Event<D, P, F, A> = Arrives(f: Frame<D, P, F, A>) | ResetAll

  /** The pipeline after a history, with the frames skipped in a row up to now and the last result
      that inference produced since a reset. */
  datatype Trace<D, P, F, A> = Trace(p: Pipeline<D, P, F, A>, inARow: nat, recent: Option<Result<D, P, F, A>>)

  function Next<D, P, F, A>(t: Trace<D, P, F, A>, e: Event<D, P, F, A>): (r: Trace<D, P, F, A>)
    requires ValidConfig(t.p.diff.cfg)
    ensures r.p.diff.cfg == t.p.diff.cfg
  {
    match e
    case Arrives(f) =>
      if Skips(t.p, f) then Trace(Stepped(t.p, f).0, t.inARow + 1, t.recent)
      else Trace(Stepped(t.p, f).0, 0, Some(f.inferred))
    case ResetAll => Trace(Reset(t.p), 0, None)
  }

  function After<D, P, F, A>(c: Config, enabled: bool, es: seq<Event<D, P, F, A>>): (t: Trace<D, P, F, A>)
    requires ValidConfig(c)
    ensures t.p.diff.cfg == c
  {
    if |es| == 0 then Trace(Pipeline(enabled, Fresh(c), None), 0, None)
    else Next(After(c, enabled, es[..|es| - 1]), es[|es| - 1])
  }

  function Max(a: int, b: int): (r: int) {
    if a > b then a else b
  }

  /** The most frames that may be skipped in a row. */
  function Bound(c: Config): (r: int) {
    var budget := Max(Max(c.maxStatic, c.maxLow), 0);
    if !c.adaptive then 0
    else if c.forceEvery > 0 && c.forceEvery - 1 < budget then c.forceEvery - 1
    else budget
  }

  ghost predicate Kept<D(!new), P(!new), F(!new), A(!new)>(t: Trace<D, P, F, A>) {
    var d, c := t.p.diff, t.p.diff.cfg;
    && t.inARow == d.skips
    && (t.p.last.Some? ==> t.p.last == t.recent && d.processed > 0)
    && (d.skips > 0 ==> c.adaptive && d.skips <= Max(c.maxStatic, c.maxLow))
    && (c.forceEvery > 0 && d.processed + d.skipped > 0 ==> d.skips <= (d.processed + d.skipped - 1) % c.forceEvery)
    && (d.processed + d.skipped == 0 ==> d.skips == 0)
  }

  lemma NextRemainder(total: nat, every: nat)
    requires every > 0 && total > 0 && total % every != 0
    ensures total % every == (total - 1) % every + 1
  {
    var q, r := (total - 1) / every, (total - 1) % every;
    assert total - 1 == q * every + r;
    if r + 1 < every {
      Quotient(total, every, q, r + 1);
    } else {
      assert (q + 1) * every == q * every + every;
      Quotient(total, every, q + 1, 0);
    }
  }

  lemma SkipKept<D(!new), P(!new), F(!new), A(!new)>(t: Trace<D, P, F, A>, f: Frame<D, P, F, A>)
    requires Kept(t) && ValidConfig(t.p.diff.cfg) && Skips(t.p, f)
    ensures Kept(Next(t, Arrives(f)))
  {
    var d := Compared(t.p.diff, f.w, f.h, f.comparison);
    assert !ShouldProcess(d);
    var total := d.processed + d.skipped;
    if d.cfg.forceEvery > 0 { NextRemainder(total, d.cfg.forceEvery); }
    hide Changed;
  }

  lemma ProcessKept<D(!new), P(!new), F(!new), A(!new)>(t: Trace<D, P, F, A>, f: Frame<D, P, F, A>)
    requires Kept(t) && ValidConfig(t.p.diff.cfg) && !Skips(t.p, f) && t.p.enabled
    ensures Kept(Next(t, Arrives(f)))
  {
    hide Changed;
    hide ShouldProcess;
  }

  /** Over every sequence of frames and resets: the run of skipped frames never exceeds its bound,
      and the cached result is that of the frame processed most recently. */
  lemma {:induction false} RunKept<D(!new), P(!new), F(!new), A(!new)>(c: Config, es: seq<Event<D, P, F, A>>)
    requires ValidConfig(c)
    ensures Kept(After(c, true, es)) && After(c, true, es).p.enabled
    decreases |es|
  {
    hide Kept;
    hide Skips;
    if |es| == 0 {
      StartKept<D, P, F, A>(c);
      assert es == [];
    } else {
      var t := After(c, true, es[..|es| - 1]);
      RunKept(c, es[..|es| - 1]);
      match es[|es| - 1]
      case Arrives(f) => if Skips(t.p, f) { SkipKept(t, f); } else { ProcessKept(t, f); }
      case ResetAll => ResetKept(t);
    }
  }

  lemma StartKept<D(!new), P(!new), F(!new), A(!new)>(c: Config)
    requires ValidConfig(c)
    ensures Kept(After<D, P, F, A>(c, true, []))
  {
  }

  lemma ResetKept<D(!new), P(!new), F(!new), A(!new)>(t: Trace<D, P, F, A>)
    requires Kept(t) && ValidConfig(t.p.diff.cfg)
    ensures Kept(Next(t, ResetAll))
  {
  }

  lemma BoundHolds<D(!new), P(!new), F(!new), A(!new)>(t: Trace<D, P, F, A>)
    requires Kept(t)
    ensures t.inARow <= Bound(t.p.diff.cfg)
  {
    var total, every := t.p.diff.processed + t.p.diff.skipped, t.p.diff.cfg.forceEvery;
    if every > 0 && total > 0 { assert (total - 1) % every < every; }
  }

  /** The number of consecutive skips is bounded by min(max(max_static, max_low), force - 1), and
      each skipped frame shows the detections, poses and faces of the most recent processed one. */
  lemma SkippingBounded<D(!new), P(!new), F(!new), A(!new)>(c: Config, es: seq<Event<D, P, F, A>>, f: Frame<D, P, F, A>)
    requires ValidConfig(c)
    ensures var t := After(c, true, es);
            && t.inARow <= Bound(c)
            && (Skips(t.p, f) ==>
                  && t.inARow < Bound(c) && t.recent.Some?
                  && var out := Stepped(t.p, f).1;
                     out.detections == t.recent.value.detections && out.poses == t.recent.value.poses && out.faces == t.recent.value.faces)
  {
    var t := After(c, true, es);
    RunKept(c, es);
    BoundHolds(t);
    if Skips(t.p, f) {
      SkipKept(t, f);
      BoundHolds(Next(t, Arrives(f)));
      SkippedShows(t, f);
    }
    hide *;
  }

  lemma SkippedShows<D(!new), P(!new), F(!new), A(!new)>(t: Trace<D, P, F, A>, f: Frame<D, P, F, A>)
    requires Kept(t) && ValidConfig(t.p.diff.cfg) && Skips(t.p, f)
    ensures t.recent.Some? && Next(t, Arrives(f)).inARow == t.inARow + 1
    ensures var out := Stepped(t.p, f).1;
            out.detections == t.recent.value.detections && out.poses == t.recent.value.poses && out.faces == t.recent.value.faces
  {
    hide Compared;
    hide ShouldProcess;
  }

  lemma RatioBelow(n: nat, m: nat, t: real)
    requires m > 0 && n as real / m as real < t
    ensures n as real < t * m as real
  {
    var r := n as real / m as real;
    assert r * m as real == n as real;
    assert r * m as real < t * m as real;
  }

  /** A skipped frame with pixels has the size of the reference, and fewer of its cells changed than the change
      threshold says: with a threshold of at most one, a frame that differs in that share of its
      cells, or as a whole when it is too small for the grid, is never skipped. */
  lemma SkippedIsSimilar<D, P, F, A>(p: Pipeline<D, P, F, A>, f: Frame<D, P, F, A>)
    requires ValidConfig(p.diff.cfg) && Skips(p, f) && f.w > 0 && f.h > 0
    ensures var c := p.diff.cfg;
            && p.diff.reference == Some((f.w, f.h))
            && (if f.w / c.gridW < MIN_CELL_SIZE || f.h / c.gridH < MIN_CELL_SIZE then
                  f.comparison.whole > c.cellThreshold ==> c.changeThreshold > 1.0
                else if |f.comparison.cells| > 0 then
                  Changed(f.comparison.cells, c.cellThreshold) as real < c.changeThreshold * |f.comparison.cells| as real
                else c.changeThreshold > 1.0)
  {
    var d := Compared(p.diff, f.w, f.h, f.comparison);
    assert d.ratio < p.diff.cfg.changeThreshold;
    var n, m := Changed(f.comparison.cells, p.diff.cfg.cellThreshold), |f.comparison.cells|;
    hide Changed;
    if m > 0 && n as real / m as real < p.diff.cfg.changeThreshold { RatioBelow(n, m, p.diff.cfg.changeThreshold); }
  }

  // ---- the objects ----

  class FrameDiff {
    const cfg: Config
    var reference: Option<(nat, nat)>
    var skips: nat
    var skipped: nat
    var processed: nat
    var ratio: real
    var activity: Activity

    function State(): (r: Diff)
      reads this
    {
      Diff(cfg, reference, skips, skipped, processed, ratio, activity)
    }

    constructor (cfg: Config)
      ensures State() == Fresh(cfg)
    {
      this.cfg := cfg;
      reference, skips, skipped, processed, ratio, activity := None, 0, 0, 0, 1.0, Active;
    }

    method Reset()
      modifies this
      ensures State() == old(State()).(reference := None, skips := 0, ratio := 1.0, activity := Active, skipped := 0, processed := 0)
    {
      reference, skips, ratio, activity, skipped, processed := None, 0, 1.0, Active, 0, 0;
    }

    method SetReference(w: nat, h: nat, allocOk: bool)
      modifies this`reference
      ensures State() == WithReference(old(State()), w, h, allocOk)
    {
      if w == 0 || h == 0 { return; }
      if reference != Some((w, h)) {
        if !allocOk { return; }
      }
      reference := Some((w, h));
    }

    method Compute(w: nat, h: nat, c: Comparison)
      requires ValidConfig(cfg)
      modifies this`ratio, this`activity
      ensures State() == Compared(old(State()), w, h, c)
    {
      if w == 0 || h == 0 { return; }
      if reference.None? || reference != Some((w, h)) {
        ratio, activity := 1.0, Active;
        return;
      }
      if w / cfg.gridW < MIN_CELL_SIZE || h / cfg.gridH < MIN_CELL_SIZE {
        ratio := if c.whole > cfg.cellThreshold then 1.0 else 0.0;
        activity := if ratio > cfg.changeThreshold then Active else Static;
        return;
      }
      var changed := 0;
      for i := 0 to |c.cells|
        invariant changed == Changed(c.cells[..i], cfg.cellThreshold)
      {
        assert c.cells[..i + 1][..i] == c.cells[..i];
        if c.cells[i] > cfg.cellThreshold { changed := changed + 1; }
      }
      assert c.cells[..|c.cells|] == c.cells;
      ratio := if |c.cells| > 0 then changed as real / |c.cells| as real else 1.0;
      if ratio < STATIC_RATIO {
        activity := Static;
      } else if ratio < cfg.changeThreshold {
        activity := LowMotion;
      } else {
        activity := Active;
      }
    }

    method MustProcess() returns (b: bool)
      ensures b <==> ShouldProcess(State())
    {
      if reference.None? { return true; }
      var total := processed + skipped;
      if cfg.forceEvery > 0 && total > 0 && total % cfg.forceEvery == 0 { return true; }
      if activity.Active? { return true; }
      if ratio >= cfg.changeThreshold { return true; }
      if cfg.adaptive {
        var maxSkip := match activity case Static => cfg.maxStatic case LowMotion => cfg.maxLow case Active => 0;
        if skips < maxSkip { return false; }
      }
      return true;
    }

    method MarkProcessed()
      modifies this`skips, this`processed
      ensures skips == 0 && processed == old(processed) + 1
    {
      skips, processed := 0, processed + 1;
    }

    method MarkSkipped()
      modifies this`skips, this`skipped
      ensures skips == old(skips) + 1 && skipped == old(skipped) + 1
    {
      skips, skipped := skips + 1, skipped + 1;
    }
  }

  class InferencePipeline<D, P, F, A> {
    const enabled: bool
    const diff: FrameDiff
    var last: Option<Result<D, P, F, A>>

    function State(): (r: Pipeline<D, P, F, A>)
      reads this, diff
    {
      Pipeline(enabled, diff.State(), last)
    }

    constructor (enabled: bool, cfg: Config)
      ensures fresh(diff) && State() == Pipeline(enabled, Fresh(cfg), None)
    {
      this.enabled := enabled;
      diff := new FrameDiff(cfg);
      last := None;
    }

    method ProcessFrame(f: Frame<D, P, F, A>) returns (out: Result<D, P, F, A>)
      requires ValidConfig(diff.cfg)
      modifies this, diff
      ensures (State(), out) == Stepped(old(State()), f)
    {
      hide Compared;
      hide ShouldProcess;
      if enabled && last.Some? {
        diff.Compute(f.w, f.h, f.comparison);
        var must := diff.MustProcess();
        if !must {
          out := last.value;
          if |out.poses| > 0 && f.latest.Some? { out := out.(action := f.latest.value); }
          diff.MarkSkipped();
          return;
        }
      }
      out := f.inferred;
      if enabled {
        diff.SetReference(f.w, f.h, f.allocOk);
        diff.MarkProcessed();
        last := Some(out);
      }
    }

    method ResetPipeline()
      modifies this, diff
      ensures State() == Reset(old(State()))
    {
      diff.Reset();
      last := None;
    }
  }
}
