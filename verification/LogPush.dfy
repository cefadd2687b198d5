/** What becomes of a log call (src/logger.c): registered, pushed or dropped, written. */
module LogPush {
  import opened LogRing
  import opened LogShutdown

  // ---- one push on its own ----

  /** With the read index loaded, a push gives up exactly when 4095 entries were waiting then. If not,
      three sub-steps end it with the entry accepted behind the others. */
  lemma PushEnds(q: Ring)
    requires RingKept(q) && q.push.LoadedR?
    ensures if |q.accepted| == q.push.seen + 4095 then Pushed(q) == q.(push := Idle)
            else
              var p := Pushed(Pushed(Pushed(q)));
              && !Pushed(q).push.Idle? && !Pushed(Pushed(q)).push.Idle?
              && p.push.Idle? && p.accepted == q.accepted + [q.push.e]
              && p.read == q.read && p.r == q.r && p.out == q.out && p.owned
  {
    FullMeans(q);
    HoldsSize(q.slots, q.accepted, q.read);
    hide Holds;
  }

  /** A whole push with nothing in between: it leaves no trace on a ring with 4095 entries waiting, and
      appends its entry to any other. */
  lemma PushAlone(q: Ring, e: Entry)
    requires RingKept(q) && q.owned && q.push.Idle?
    ensures var p := Pushed(Pushed(Started(q, e)));
            if |q.accepted| - q.read == 4095 then p == q
            else
              var t := Pushed(Pushed(p));
              t.push.Idle? && t.accepted == q.accepted + [e] && t.read == q.read && t.r == q.r && t.out == q.out && t.owned
  {
    var s := Started(q, e);
    StartedKept(q, e);
    PushedKept(s);
    hide RingKept;
    PushEnds(Pushed(s));
  }

  // ---- pushes in a run ----

  ghost predicate Starts(s: Logger, step: Step, i: nat) {
    |s.rings| == MAX_THREADS && i < MAX_THREADS && step.PushStart? && step.i == i && s.rings[i].owned && s.rings[i].push.Idle?
  }

  ghost predicate Loads(s: Logger, t: Logger, i: nat) {
    |s.rings| == |t.rings| == MAX_THREADS && i < MAX_THREADS && s.rings[i].push.LoadedW? && t.rings[i].push.LoadedR?
  }

  /** Other steps leave a push alone. */
  lemma Bystander(s: Logger, step: Step, i: nat)
    requires Kept(s) && i < MAX_THREADS && !s.rings[i].push.Idle? && step != PushOn(i)
    ensures var t := After(s, step);
            |t.rings| == MAX_THREADS && t.rings[i].push == s.rings[i].push && t.rings[i].accepted == s.rings[i].accepted
  {
    assert RingKept(s.rings[i]);
    hide RingKept;
    hide WriterKept;
  }

  lemma OnePush(s: Logger, i: nat)
    requires Kept(s) && i < MAX_THREADS
    ensures var t := After(s, PushOn(i));
            && |t.rings| == MAX_THREADS && t.rings[i] == Pushed(s.rings[i])
            && t.drops == s.drops + if Drops(s.rings[i]) then 1 else 0
  {
    hide Pushed;
    hide Drops;
  }

  /** How far a push of `e` has come that began on `accepted` and loaded the read index when `read`
      entries had been read. */
  ghost predicate Underway(q: Ring, e: Entry, accepted: seq<Entry>, read: nat) {
    && q.accepted == accepted && !q.push.Idle? && q.push.e == e
    && (q.push.LoadedR? ==> q.push.seen == read)
    && (q.push.Copying? || q.push.Copied? ==> |accepted| != read + 4095)
  }

  lemma UnderwayStep(q: Ring, e: Entry, accepted: seq<Entry>, read: nat)
    requires RingKept(q) && Underway(q, e, accepted, read)
    ensures var p := Pushed(q);
            && (q.push.LoadedW? ==> p.push.LoadedR? && Underway(p, e, accepted, q.read))
            && (!q.push.LoadedW? && !p.push.Idle? ==> !p.push.LoadedW? && Underway(p, e, accepted, read))
            && (p.push.Idle? ==>
                  if |accepted| == read + 4095 then p.accepted == accepted && Drops(q)
                  else p.accepted == accepted + [e] && !Drops(q))
  {
    if q.push.LoadedR? { FullMeans(q); }
    hide Holds;
  }

  lemma StepRun(run: seq<Logger>, steps: seq<Step>, k: nat)
    requires Run(run, steps) && k < |steps|
    ensures Kept(run[k]) && Kept(run[k + 1]) && run[k + 1] == After(run[k], steps[k])
  {
    hide Kept;
    hide After;
    RunKept(run, steps, k);
    RunKept(run, steps, k + 1);
  }

  lemma RingOf(s: Logger, i: nat)
    requires Kept(s) && i < MAX_THREADS
    ensures |s.rings| == MAX_THREADS && RingKept(s.rings[i])
  {
  }

  lemma FreshPush(s: Logger, step: Step, i: nat)
    requires Starts(s, step, i)
    ensures var q := After(s, step).rings[i]; q.push.LoadedW? && q.push.e == step.e && q.accepted == s.rings[i].accepted
  {
  }

  ghost predicate Finishing(run: seq<Logger>, i: nat, a: nat, c: nat)
    requires a < c <= |run|
  {
    i < MAX_THREADS && forall j :: a < j < c ==> |run[j].rings| == MAX_THREADS && !run[j].rings[i].push.Idle?
  }

  /** A push begun at `a`, before and after it loads the read index at `b`. */
  ghost predicate Begun(run: seq<Logger>, i: nat, e: Entry, a: nat, b: nat, k: nat)
    requires a < k < |run|
  {
    && |run[a].rings| == |run[k].rings| == MAX_THREADS && i < MAX_THREADS
    && var was, q := run[a].rings[i].accepted, run[k].rings[i];
      if q.push.LoadedW? then b == a && q.push.e == e && q.accepted == was
      else a < b < k && Loads(run[b], run[b + 1], i) && run[b].rings[i].accepted == was && Underway(q, e, was, run[b].rings[i].read)
  }

  lemma BegunStep(run: seq<Logger>, steps: seq<Step>, i: nat, e: Entry, a: nat, b: nat, k: nat) returns (b': nat)
    requires Run(run, steps) && a < k && k + 1 < |run| && Begun(run, i, e, a, b, k)
    requires !run[k].rings[i].push.Idle?
    ensures Kept(run[k + 1]) && |run[k + 1].rings| == MAX_THREADS
    ensures !run[k + 1].rings[i].push.Idle? ==> Begun(run, i, e, a, b', k + 1)
    ensures run[k + 1].rings[i].push.Idle? ==>
              && b' == b && a < b < k && Loads(run[b], run[b + 1], i) && run[b].rings[i].accepted == run[a].rings[i].accepted
              && steps[k] == PushOn(i)
              && var was := run[a].rings[i].accepted;
                if |was| == run[b].rings[i].read + 4095
                then run[k + 1].rings[i].accepted == was && run[k + 1].drops == run[k].drops + 1
                else run[k + 1].rings[i].accepted == was + [e] && run[k + 1].drops == run[k].drops
  {
    b' := b;
    StepRun(run, steps, k);
    hide Run;
    var s, q, was := run[k], run[k].rings[i], run[a].rings[i].accepted;
    RingOf(s, i);
    RingOf(run[k + 1], i);
    hide Kept;
    if steps[k] == PushOn(i) {
      OnePush(s, i);
      hide After;
      if q.push.LoadedW? {
        b' := k;
      } else {
        UnderwayStep(q, e, was, run[b].rings[i].read);
        hide Pushed;
        hide Drops;
      }
    } else {
      Bystander(s, steps[k], i);
      hide After;
    }
    hide RingKept;
  }

  lemma FinishingAt(run: seq<Logger>, i: nat, a: nat, c: nat, k: nat)
    requires a < k < c <= |run| && Finishing(run, i, a, c)
    ensures i < MAX_THREADS && |run[k].rings| == MAX_THREADS && !run[k].rings[i].push.Idle? && Finishing(run, i, a, k + 1)
  {
  }

  lemma FirstBegun(run: seq<Logger>, steps: seq<Step>, i: nat, a: nat)
    requires Run(run, steps) && a + 1 < |run| && Starts(run[a], steps[a], i)
    ensures Begun(run, i, steps[a].e, a, a, a + 1)
  {
    StepRun(run, steps, a);
    hide Run;
    RingOf(run[a + 1], i);
    hide Kept;
    FreshPush(run[a], steps[a], i);
    hide After;
  }

  lemma {:induction false} BegunAt(run: seq<Logger>, steps: seq<Step>, i: nat, e: Entry, a: nat, k: nat) returns (b: nat)
    requires Run(run, steps) && |run| == |steps| + 1 && a < k < |run| && Finishing(run, i, a, k + 1)
    requires Begun(run, i, e, a, a, a + 1)
    ensures Begun(run, i, e, a, b, k)
    decreases k
  {
    hide *;
    if k == a + 1 {
      b := a;
    } else {
      FinishingAt(run, i, a, k + 1, k - 1);
      FinishingAt(run, i, a, k + 1, k);
      b := BegunAt(run, steps, i, e, a, k - 1);
      b := BegunStep(run, steps, i, e, a, b, k - 1);
    }
  }

  /** Every push that ends, over every interleaving. Begun at `a` and ended at `c`, it loaded the read
      index once between, at `b`. If 4095 entries were waiting on its ring at that moment it is
      counted as dropped and leaves nothing; otherwise its entry stands behind those accepted before. */
  lemma PushFate(run: seq<Logger>, steps: seq<Step>, i: nat, a: nat, c: nat) returns (b: nat)
    requires Run(run, steps) && a + 1 < c < |run| && Starts(run[a], steps[a], i) && Finishing(run, i, a, c)
    requires |run[c].rings| == MAX_THREADS && run[c].rings[i].push.Idle?
    ensures a < b < c && |run[a].rings| == |run[b].rings| == MAX_THREADS && Loads(run[b], run[b + 1], i)
    ensures run[b].rings[i].read <= |run[b].rings[i].accepted|
    ensures if |run[b].rings[i].accepted| - run[b].rings[i].read == 4095
            then run[c].rings[i].accepted == run[a].rings[i].accepted && run[c].drops == run[c - 1].drops + 1
            else run[c].rings[i].accepted == run[a].rings[i].accepted + [steps[a].e] && run[c].drops == run[c - 1].drops
  {
    RunSize(run, steps);
    assert steps[a].PushStart?;
    hide *;
    FinishingAt(run, i, a, c, c - 1);
    FirstBegun(run, steps, i, a);
    b := BegunAt(run, steps, i, steps[a].e, a, c - 1);
    b := BegunStep(run, steps, i, steps[a].e, a, b, c - 1);
    StepRun(run, steps, a);
    RingOf(run[a], i);
    StepRun(run, steps, b);
    RingOf(run[b], i);
    RingFacts(run[b].rings[i]);
  }

  lemma RunSize(run: seq<Logger>, steps: seq<Step>)
    requires Run(run, steps)
    ensures |run| == |steps| + 1
  {
  }

  // ---- every push is accounted for ----

  function Accepted(qs: seq<Ring>): (n: nat) {
    if |qs| == 0 then 0 else Accepted(qs[..|qs| - 1]) + |qs[|qs| - 1].accepted|
  }

  function Pushing(qs: seq<Ring>): (n: nat) {
    if |qs| == 0 then 0 else Pushing(qs[..|qs| - 1]) + if qs[|qs| - 1].push.Idle? then 0 else 1
  }

  lemma {:induction false} OneRingCounts(qs: seq<Ring>, i: nat, q: Ring)
    requires i < |qs|
    ensures Accepted(qs[i := q]) + |qs[i].accepted| == Accepted(qs) + |q.accepted|
    ensures Pushing(qs[i := q]) + (if qs[i].push.Idle? then 0 else 1) == Pushing(qs) + if q.push.Idle? then 0 else 1
  {
    var n := |qs| - 1;
    if i == n {
      assert qs[i := q][..n] == qs[..n];
    } else {
      assert qs[i := q][..n] == qs[..n][i := q];
      OneRingCounts(qs[..n], i, q);
    }
  }

  /** How many pushes have begun. */
  ghost function Calls(run: seq<Logger>, steps: seq<Step>, n: nat): (m: nat)
    requires n <= |steps| && n <= |run|
  {
    if n == 0 then 0
    else Calls(run, steps, n - 1) + if steps[n - 1].PushStart? && Starts(run[n - 1], steps[n - 1], steps[n - 1].i) then 1 else 0
  }

  ghost predicate Balanced(s: Logger, calls: nat) {
    Accepted(s.rings) + s.drops + Pushing(s.rings) == calls
  }

  lemma StepBalance(s: Logger, step: Step, calls: nat)
    requires Kept(s) && Balanced(s, calls)
    ensures Balanced(After(s, step), calls + if step.PushStart? && Starts(s, step, step.i) then 1 else 0)
  {
    hide RingKept;
    hide WriterKept;
    match step
    case Register =>
      if !s.reg.Free? { OneRingCounts(s.rings, s.reg.i, Registered(s).rings[s.reg.i]); }
    case PushStart(i, e) =>
      if i < MAX_THREADS { OneRingCounts(s.rings, i, Started(s.rings[i], e)); }
    case PushOn(i) =>
      if i < MAX_THREADS {
        OneRingCounts(s.rings, i, Pushed(s.rings[i]));
        RingOf(s, i);
        PushBalance(s.rings[i]);
        hide Pushed;
        hide Drops;
      }
    case Shutdown =>
    case Write =>
      if s.writer.Reading? || s.writer.Emitted? { OneRingCounts(s.rings, s.writer.ri, Written(s).rings[s.writer.ri]); }
  }

  lemma PushBalance(q: Ring)
    requires RingKept(q)
    ensures var p := Pushed(q);
            |p.accepted| + (if Drops(q) then 1 else 0) + (if p.push.Idle? then 0 else 1)
            == |q.accepted| + if q.push.Idle? then 0 else 1
  {
    hide Holds;
  }

  lemma NoneCounted(n: nat)
    ensures Accepted(seq(n, _ => UNUSED)) == 0 && Pushing(seq(n, _ => UNUSED)) == 0
    decreases n
  {
    if n > 0 {
      assert seq(n, _ => UNUSED)[..n - 1] == seq(n - 1, _ => UNUSED);
      NoneCounted(n - 1);
    }
  }

  /** Conservation over every interleaving: every log call that reached a ring has been accepted, has
      been counted as dropped, or is still being made. */
  lemma {:induction false} EveryCallCounted(run: seq<Logger>, steps: seq<Step>, n: nat)
    requires Run(run, steps) && n < |run|
    ensures Accepted(run[n].rings) + run[n].drops + Pushing(run[n].rings) == Calls(run, steps, n)
  {
    RunSize(run, steps);
    if n == 0 {
      NoneCounted(MAX_THREADS);
    } else {
      EveryCallCounted(run, steps, n - 1);
      hide Accepted;
      hide Pushing;
      StepRun(run, steps, n - 1);
      hide Run;
      hide Kept;
      hide After;
      hide Starts;
      StepBalance(run[n - 1], steps[n - 1], Calls(run, steps, n - 1));
    }
  }

  // ---- registration ----

  /** Five sub-steps under the mutex, with nothing in between. */
  function RegisteredFully(s: Logger): (r: Logger)
    requires |s.rings| == MAX_THREADS
  {
    Registered(Registered(Registered(Registered(Registered(s)))))
  }

  /** A thread gets the next ring, empty and of 4096 whole slots, as long as fewer than 16 are in use; no
      other ring is touched. */
  lemma RegistrationEnds(s: Logger)
    requires Kept(s) && s.reg.Free?
    ensures var t := RegisteredFully(s);
            if s.nrings < 16 then
              && t.nrings == s.nrings + 1 && t.reg.Free? && |t.rings| == |s.rings| == 16
              && (var q := t.rings[s.nrings];
                  q.owned && q.push.Idle? && q.w == q.r == 0 && q.accepted == [] && q.out == [] && |q.slots| == 4096)
              && (forall i :: 0 <= i < 16 && i != s.nrings ==> t.rings[i] == s.rings[i])
              && t.writer == s.writer && t.running == s.running && t.drops == s.drops
            else t == s
  {
    if s.nrings < 16 {
      assert RingKept(s.rings[s.nrings]) && WriterKept(s.rings[s.nrings], s.nrings, s.writer);
      assert !s.rings[s.nrings].owned;
      hide Holds;
    }
  }

  // ---- a pass of the writer ----

  /** How many entries each ring had accepted. */
  function Marks(s: Logger): (a: seq<nat>)
    ensures |a| == |s.rings|
  {
    seq(|s.rings|, i requires 0 <= i < |s.rings| => |s.rings[i].accepted|)
  }

  /** The marked entries of the rings from `lo` up to `hi` have been read. */
  ghost predicate Cleared(s: Logger, marks: seq<nat>, lo: nat, hi: nat)
    requires |s.rings| == |marks| == MAX_THREADS
  {
    forall j :: lo <= j < hi && j < MAX_THREADS ==> s.rings[j].read >= marks[j]
  }

  /** In a pass begun when the rings stood at the marks, or after it. */
  ghost predicate Passing(s: Logger, marks: seq<nat>) {
    && |s.rings| == |marks| == MAX_THREADS
    && (forall j :: 0 <= j < MAX_THREADS ==> marks[j] <= |s.rings[j].accepted|)
    && Cleared(s, marks, s.nrings, MAX_THREADS)
    && (Cleared(s, marks, 0, MAX_THREADS) ||
        (!s.writer.Check? && !s.writer.Done? && Cleared(s, marks, 0, s.writer.ri) &&
         (s.writer.HasW? && s.writer.ri < MAX_THREADS ==> s.writer.seenW >= marks[s.writer.ri])))
  }

  /** Neither what was accepted nor what was read is ever taken back. */
  lemma Onward(s: Logger, step: Step)
    requires Kept(s)
    ensures var t := After(s, step);
            |t.rings| == |s.rings| == MAX_THREADS && t.nrings >= s.nrings &&
            forall j :: 0 <= j < MAX_THREADS ==> s.rings[j].accepted <= t.rings[j].accepted && s.rings[j].read <= t.rings[j].read
  {
    hide RingKept;
    hide WriterKept;
  }

  lemma StillCleared(s: Logger, t: Logger, marks: seq<nat>, lo: nat, hi: nat)
    requires |s.rings| == |t.rings| == |marks| == MAX_THREADS && Cleared(s, marks, lo, hi)
    requires forall j :: 0 <= j < MAX_THREADS ==> s.rings[j].read <= t.rings[j].read
    ensures Cleared(t, marks, lo, hi)
  {
  }

  lemma PassingStep(s: Logger, step: Step, marks: seq<nat>)
    requires Kept(s) && Passing(s, marks)
    ensures Passing(After(s, step), marks)
  {
    var t := After(s, step);
    Onward(s, step);
    StillCleared(s, t, marks, s.nrings, MAX_THREADS);
    if Cleared(s, marks, 0, MAX_THREADS) {
      StillCleared(s, t, marks, 0, MAX_THREADS);
    } else {
      StillCleared(s, t, marks, 0, s.writer.ri);
      if step.Write? {
        WriterPasses(s, marks);
      } else {
        assert t.writer == s.writer;
      }
    }
    hide Kept;
    hide After;
  }

  lemma WriterPasses(s: Logger, marks: seq<nat>)
    requires Kept(s) && Passing(s, marks) && !Cleared(s, marks, 0, MAX_THREADS)
    ensures var t := Written(s);
            && !t.writer.Check? && !t.writer.Done? && |t.rings| == MAX_THREADS && Cleared(t, marks, 0, t.writer.ri)
            && (t.writer.HasW? && t.writer.ri < MAX_THREADS ==> t.writer.seenW >= marks[t.writer.ri])
  {
    if s.writer.HasW? && s.writer.r == s.writer.w {
      var q := s.rings[s.writer.ri];
      RingOf(s, s.writer.ri);
      assert WriterKept(q, s.writer.ri, s.writer);
      SeenAll(q, s.writer);
    }
    hide RingKept;
    hide WriterKept;
  }

  /** Equal indices: everything seen has been read. */
  lemma SeenAll(q: Ring, writer: Writer)
    requires RingKept(q) && writer.HasW? && WriterKept(q, writer.ri, writer) && writer.r == writer.w
    ensures q.read == writer.seenW
  {
    SameSlot(q.read, writer.seenW);
  }

  lemma PassingStarts(s: Logger)
    requires Kept(s) && s.writer.Scan? && s.writer.ri == 0
    ensures Passing(s, Marks(s))
  {
    UnusedEmpty(s);
    hide RingKept;
    hide WriterKept;
  }

  lemma {:induction false} PassingAt(run: seq<Logger>, steps: seq<Step>, n: nat, m: nat)
    requires Run(run, steps) && |run| == |steps| + 1 && n <= m < |run| && run[n].writer.Scan? && run[n].writer.ri == 0
    ensures Kept(run[m]) && Passing(run[m], Marks(run[n]))
    decreases m
  {
    hide *;
    RunKept(run, steps, m);
    if m == n {
      PassingStarts(run[n]);
    } else {
      PassingAt(run, steps, n, m - 1);
      StepRun(run, steps, m - 1);
      PassingStep(run[m - 1], steps[m - 1], Marks(run[n]));
    }
  }

  lemma {:induction false} AcceptedGrows(run: seq<Logger>, steps: seq<Step>, n: nat, m: nat, i: nat)
    requires Run(run, steps) && |run| == |steps| + 1 && n <= m < |run| && i < MAX_THREADS
    ensures |run[n].rings| == |run[m].rings| == MAX_THREADS && run[n].rings[i].accepted <= run[m].rings[i].accepted
    decreases m
  {
    hide *;
    RunKept(run, steps, m);
    RingOf(run[m], i);
    if n < m {
      AcceptedGrows(run, steps, n, m - 1, i);
      StepRun(run, steps, m - 1);
      Onward(run[m - 1], steps[m - 1]);
    }
  }

  /** No entry waits for the next pass, over every interleaving: what had been accepted on any ring when
      the writer began a pass has been written, in order, when it is back at the head of its loop. */
  lemma PassEmits(run: seq<Logger>, steps: seq<Step>, n: nat, m: nat, i: nat)
    requires Run(run, steps) && n < m < |run| && i < MAX_THREADS
    requires run[n].writer.Scan? && run[n].writer.ri == 0 && (run[m].writer.Check? || run[m].writer.Done?)
    ensures |run[n].rings| == |run[m].rings| == MAX_THREADS
    ensures Wholes(run[n].rings[i].accepted) <= run[m].rings[i].out
  {
    PassingAt(run, steps, n, m);
    AcceptedGrows(run, steps, n, m, i);
    hide Run;
    var q := run[m].rings[i];
    assert RingKept(q) && WriterKept(q, i, run[m].writer);
    assert q.read >= |run[n].rings[i].accepted|;
    hide Kept;
    hide RingKept;
  }

  /** The writer stays in its main loop until shutdown has been asked for. */
  lemma {:induction false} NeverStopsEarly(run: seq<Logger>, steps: seq<Step>, n: nat)
    requires Run(run, steps) && n < |run| && InDrain(run[n].writer)
    ensures !run[n].running && exists k :: 0 <= k < n && steps[k] == Shutdown
  {
    if n > 0 {
      var s := run[n - 1];
      assert run[n] == After(s, steps[n - 1]);
      if InDrain(s.writer) {
        NeverStopsEarly(run, steps, n - 1);
      } else {
        Asked(run, steps, n - 1);
      }
      hide Run;
    }
  }

  lemma {:induction false} Asked(run: seq<Logger>, steps: seq<Step>, n: nat)
    requires Run(run, steps) && n < |run|
    ensures run[n].running <==> forall k :: 0 <= k < n ==> steps[k] != Shutdown
  {
    if n > 0 {
      Asked(run, steps, n - 1);
      assert run[n] == After(run[n - 1], steps[n - 1]);
      hide Run;
    }
  }
}
