/** Which frames the pipeline skips, exactly, and what is counted over a run. */
module FrameDecision {
  import opened Bytes
  import opened FrameSkip

  /** The cells that changed. */
  ghost function ChangedCells(cells: seq<real>, threshold: real): (s: set<nat>) {
    set i: nat | i < |cells| && cells[i] > threshold
  }

  lemma {:induction false} ChangedIs(cells: seq<real>, threshold: real)
    ensures Changed(cells, threshold) == |ChangedCells(cells, threshold)|
  {
    var n := |cells| - 1;
    if n < 0 {
      assert ChangedCells(cells, threshold) == {};
    } else {
      ChangedIs(cells[..n], threshold);
      var s, t := ChangedCells(cells[..n], threshold), ChangedCells(cells, threshold);
      assert t == if cells[n] > threshold then s + {n} else s;
    }
  }

  /** Too small for a grid of cells of eight pixels. */
  predicate Small(c: Config, w: nat, h: nat)
    requires ValidConfig(c)
  {
    w / c.gridW < 8 || h / c.gridH < 8
  }

  /** How much of a frame changed: the share of its cells, or all or nothing for a small one. */
  ghost function Share(c: Config, w: nat, h: nat, x: Comparison): (r: real)
    requires ValidConfig(c)
  {
    if Small(c, w, h) then if x.whole > c.cellThreshold then 1.0 else 0.0
    else if |x.cells| == 0 then 1.0
    else |ChangedCells(x.cells, c.cellThreshold)| as real / |x.cells| as real
  }

  /** How many frames in a row may be skipped at this share of change. */
  ghost function Allowance(c: Config, w: nat, h: nat, x: Comparison): (r: int)
    requires ValidConfig(c)
  {
    if Small(c, w, h) || Share(c, w, h, x) < 0.05 then c.maxStatic else c.maxLow
  }

  lemma ComparedIs(d: Diff, w: nat, h: nat, x: Comparison)
    requires ValidConfig(d.cfg) && d.reference == Some((w, h)) && w > 0 && h > 0
    ensures var r := Compared(d, w, h, x);
            && r.ratio == Share(d.cfg, w, h, x)
            && (r.ratio < d.cfg.changeThreshold ==> !r.activity.Active? && Budget(r) == Allowance(d.cfg, w, h, x))
            && r == d.(ratio := r.ratio, activity := r.activity)
  {
    ChangedIs(x.cells, d.cfg.cellThreshold);
    hide Changed;
    hide ChangedCells;
  }

  /** What a comparison concludes: another size is all change; otherwise the activity goes by the share. */
  lemma ActivityMeans(d: Diff, w: nat, h: nat, x: Comparison)
    requires ValidConfig(d.cfg) && w > 0 && h > 0
    ensures var r, share := Compared(d, w, h, x), Share(d.cfg, w, h, x);
            if d.reference != Some((w, h)) then r.ratio == 1.0 && r.activity.Active?
            else
              && r.ratio == share
              && (r.activity.Active? <==>
                    if Small(d.cfg, w, h) then share > d.cfg.changeThreshold else share >= 0.05 && share >= d.cfg.changeThreshold)
              && (r.activity.LowMotion? <==> !Small(d.cfg, w, h) && 0.05 <= share < d.cfg.changeThreshold)
  {
    ChangedIs(x.cells, d.cfg.cellThreshold);
    hide Changed;
    hide ChangedCells;
  }

  /** A frame with pixels is skipped exactly when skipping is on, a result is at hand, the frame has the size of the
      reference, less of it changed than the change threshold, the allowance for that much change is not
      used up, and the frame is not one of those to be processed by count. */
  lemma SkipsExactly<D, P, F, A>(p: Pipeline<D, P, F, A>, f: Frame<D, P, F, A>)
    requires ValidConfig(p.diff.cfg) && f.w > 0 && f.h > 0
    ensures var c, total := p.diff.cfg, p.diff.processed + p.diff.skipped;
            Skips(p, f) <==>
              && p.enabled && p.last.Some? && p.diff.reference == Some((f.w, f.h)) && c.adaptive
              && Share(c, f.w, f.h, f.comparison) < c.changeThreshold
              && p.diff.skips < Allowance(c, f.w, f.h, f.comparison)
              && !(c.forceEvery > 0 && total > 0 && total % c.forceEvery == 0)
  {
    if p.diff.reference == Some((f.w, f.h)) {
      ComparedIs(p.diff, f.w, f.h, f.comparison);
      hide Compared;
      hide Budget;
      hide Share;
      hide Allowance;
    }
  }

  /** A frame without pixels goes by the comparison made last. */
  lemma EmptyFrame<D, P, F, A>(p: Pipeline<D, P, F, A>, f: Frame<D, P, F, A>)
    requires ValidConfig(p.diff.cfg) && (f.w == 0 || f.h == 0)
    ensures var d, c, total := p.diff, p.diff.cfg, p.diff.processed + p.diff.skipped;
            Skips(p, f) <==>
              && p.enabled && p.last.Some? && d.reference.Some? && c.adaptive && d.ratio < c.changeThreshold
              && ((d.activity.Static? && d.skips < c.maxStatic) || (d.activity.LowMotion? && d.skips < c.maxLow))
              && !(c.forceEvery > 0 && total > 0 && total % c.forceEvery == 0)
  {
  }

  // ---- what is counted ----

  /** Frames since the last reset. */
  function FramesSince<D, P, F, A>(es: seq<Event<D, P, F, A>>): (n: nat) {
    if |es| == 0 || es[|es| - 1].ResetAll? then 0 else FramesSince(es[..|es| - 1]) + 1
  }

  lemma NextCounts<D(!new), P(!new), F(!new), A(!new)>(t: Trace<D, P, F, A>, e: Event<D, P, F, A>)
    requires ValidConfig(t.p.diff.cfg) && t.p.enabled && t.p.diff.skips == t.inARow
    ensures var u := Next(t, e);
            && u.p.enabled && u.p.diff.skips == u.inARow
            && u.p.diff.processed + u.p.diff.skipped == if e.ResetAll? then 0 else t.p.diff.processed + t.p.diff.skipped + 1
  {
    hide ShouldProcess;
    hide Changed;
  }

  /** Over every run the controller counts the frames since the last reset, and those skipped in a row. */
  lemma {:induction false} RunCounts<D(!new), P(!new), F(!new), A(!new)>(c: Config, es: seq<Event<D, P, F, A>>)
    requires ValidConfig(c)
    ensures var t := After(c, true, es);
            t.p.enabled && t.p.diff.processed + t.p.diff.skipped == FramesSince(es) && t.p.diff.skips == t.inARow
    decreases |es|
  {
    if |es| > 0 {
      RunCounts(c, es[..|es| - 1]);
      hide Next;
      NextCounts(After(c, true, es[..|es| - 1]), es[|es| - 1]);
    }
  }

  /** A processed frame is the reference from then on, unless it has no pixels or no buffer of its size
      could be had; its result is the cached one. A skipped frame changes neither and shows the cached
      result, with the action that is newest. */
  lemma WhatStays<D(!new), P(!new), F(!new), A(!new)>(p: Pipeline<D, P, F, A>, f: Frame<D, P, F, A>)
    requires ValidConfig(p.diff.cfg)
    ensures var (q, out) := Stepped(p, f);
            && (Skips(p, f) ==>
                  && q.diff.reference == p.diff.reference && q.last == p.last && p.last.Some?
                  && out == p.last.value.(action := if |p.last.value.poses| > 0 && f.latest.Some? then f.latest.value
                                                    else p.last.value.action))
            && (!Skips(p, f) ==>
                  && out == f.inferred
                  && (p.enabled ==>
                        && q.last == Some(f.inferred)
                        && q.diff.reference ==
                           if f.w > 0 && f.h > 0 && (f.allocOk || p.diff.reference == Some((f.w, f.h))) then Some((f.w, f.h))
                           else p.diff.reference)
                  && (!p.enabled ==> q == p))
  {
    hide ShouldProcess;
    hide Changed;
  }
}
