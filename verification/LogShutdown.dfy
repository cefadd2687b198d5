/** How the logger ends (src/logger.c): the final drain returns, and loses an entry only to a push
    that comes too late. */
module LogShutdown {
  import opened LogRing

  /** The logger is shutting down and no thread is pushing or registering. */
  ghost predicate Quiet(s: Logger) {
    !s.running && s.reg.Free? && forall q :: q in s.rings ==> q.push.Idle?
  }

  predicate InDrain(w: Writer) {
    w.Done? || (!w.Check? && w.drain)
  }

  function Stage(w: Writer): (n: nat) {
    if w.Check? then 1 else if InDrain(w) then 0 else 2
  }

  function RingsLeft(w: Writer): (n: nat) {
    if w.Check? || w.Done? || w.ri > MAX_THREADS then 0 else MAX_THREADS + 1 - w.ri
  }

  function Waiting(s: Logger): (n: nat) {
    if s.writer.Check? || s.writer.Done? || s.writer.ri >= |s.rings| then 0
    else
      var q := s.rings[s.writer.ri];
      if q.read <= |q.accepted| then |q.accepted| - q.read else 0
  }

  function Phase(w: Writer): (n: nat) {
    match w
    case Check => 0
    case Scan(_, _) => 5
    case AtRing(_, _) => 4
    case HasR(_, _, _) => 3
    case HasW(_, _, _, _, _) => 2
    case Reading(_, _, _) => 1
    case Emitted(_, _, _) => 0
    case Done => 0
  }

  /** The drain has passed ring `j`, or is about to: it found its indices equal. */
  predicate Passed(s: Logger, j: nat) {
    InDrain(s.writer) &&
    (s.writer.Done? || j < s.writer.ri || j >= s.nrings || (s.writer.HasW? && s.writer.r == s.writer.w && j == s.writer.ri))
  }

  /** No entry waits on a ring that the drain has passed. */
  ghost predicate NothingLeftBehind(s: Logger) {
    |s.rings| == MAX_THREADS && forall j :: 0 <= j < MAX_THREADS && Passed(s, j) ==> s.rings[j].read == |s.rings[j].accepted|
  }

  lemma UnusedEmpty(s: Logger)
    requires Kept(s)
    ensures forall j :: s.nrings <= j < MAX_THREADS ==> s.rings[j].accepted == [] && s.rings[j].read == 0
  {
    forall j | s.nrings <= j < MAX_THREADS ensures s.rings[j].accepted == [] && s.rings[j].read == 0 {
      assert RingKept(s.rings[j]);
      assert !s.rings[j].owned;
      hide Holds;
    }
  }

  lemma WrittenQuiet(s: Logger)
    requires Kept(s) && Quiet(s)
    ensures Quiet(Written(s)) && |Written(s).rings| == MAX_THREADS && Written(s).nrings == s.nrings
    ensures forall i :: 0 <= i < MAX_THREADS ==> Written(s).rings[i].accepted == s.rings[i].accepted
  {
    hide RingKept;
    hide WriterKept;
  }

  lemma EmptyWhenEqual(q: Ring, r: nat, w: nat)
    requires RingKept(q) && r == q.r && w == |q.accepted| % RING_ENTRIES && r == w
    ensures q.read == |q.accepted|
  {
    SameSlot(q.read, |q.accepted|);
  }

  /** While an entry of ring `ri` is put out, no other ring changes. */
  lemma ReadingLeaves(s: Logger)
    requires Kept(s) && (s.writer.Reading? || s.writer.Emitted?)
    ensures NothingLeftBehind(Written(s)) <==> NothingLeftBehind(s)
  {
    UnusedEmpty(s);
    var ri, t := s.writer.ri, Written(s);
    assert |s.rings| == MAX_THREADS && WriterKept(s.rings[ri], ri, s.writer);
    assert ri < s.nrings;
    hide RingKept;
    hide WriterKept;
    hide RegKept;
    assert forall j :: 0 <= j < MAX_THREADS && j != ri ==> t.rings[j] == s.rings[j] && (Passed(t, j) <==> Passed(s, j));
    assert !Passed(s, ri) && !Passed(t, ri);
    hide Written;
    hide Passed;
  }

  lemma StepLeaves(s: Logger)
    requires Kept(s)
    ensures NothingLeftBehind(Written(s)) <==> NothingLeftBehind(s)
  {
    UnusedEmpty(s);
    match s.writer
    case HasR(d, ri, r) =>
      assert RingKept(s.rings[ri]) && WriterKept(s.rings[ri], ri, s.writer);
      if d && r == s.rings[ri].w { EmptyWhenEqual(s.rings[ri], r, s.rings[ri].w); }
      hide RingKept;
      hide WriterKept;
    case Reading(d, ri, r) => ReadingLeaves(s);
    case Emitted(d, ri, r) => ReadingLeaves(s);
    case _ =>
      hide RingKept;
      hide WriterKept;
  }

  /** Each writer step makes progress. */
  lemma Progress(s: Logger)
    requires Kept(s) && Quiet(s) && !s.writer.Done?
    ensures var t := Written(s);
            Stage(t.writer) < Stage(s.writer) || (Stage(t.writer) == Stage(s.writer) &&
            (RingsLeft(t.writer) < RingsLeft(s.writer) || (RingsLeft(t.writer) == RingsLeft(s.writer) &&
            (Waiting(t) < Waiting(s) || (Waiting(t) == Waiting(s) && Phase(t.writer) < Phase(s.writer))))))
  {
    hide RingKept;
    if s.writer.Reading? || s.writer.Emitted? {
      assert WriterKept(s.rings[s.writer.ri], s.writer.ri, s.writer);
      if s.writer.Reading? { ReadSlot(s.rings[s.writer.ri]); RingFacts(s.rings[s.writer.ri]); }
    }
    hide WriterKept;
  }

  /** The writer left to itself until it returns. */
  ghost function Finish(s: Logger): (t: Logger)
    requires Kept(s) && Quiet(s)
    decreases Stage(s.writer), RingsLeft(s.writer), Waiting(s), Phase(s.writer)
  {
    if s.writer.Done? then s
    else
      StepKept(s, Write);
      WrittenQuiet(s);
      Progress(s);
      Finish(Written(s))
  }

  /** The output is everything that these rings had accepted. */
  ghost predicate AllOut(s: Logger, rings: seq<Ring>) {
    && |s.rings| == MAX_THREADS == |rings|
    && forall i :: 0 <= i < MAX_THREADS ==> s.rings[i].out == Wholes(rings[i].accepted)
  }

  lemma DoneOut(s: Logger)
    requires Kept(s) && s.writer.Done?
    ensures AllOut(s, s.rings) <==> NothingLeftBehind(s)
  {
    hide RingKept;
    assert |s.rings| == MAX_THREADS;
    forall i | 0 <= i < MAX_THREADS
      ensures s.rings[i].out == Wholes(s.rings[i].accepted) <==> s.rings[i].read == |s.rings[i].accepted|
    {
      assert WriterKept(s.rings[i], i, s.writer);
      assert s.rings[i].accepted[..|s.rings[i].accepted|] == s.rings[i].accepted;
    }
    hide WriterKept;
    hide Wholes;
  }

  lemma SameAccepted(s: Logger, t: Logger, u: Logger)
    requires |t.rings| == |s.rings| == MAX_THREADS && forall i :: 0 <= i < MAX_THREADS ==> t.rings[i].accepted == s.rings[i].accepted
    ensures AllOut(u, t.rings) <==> AllOut(u, s.rings)
  {
    hide Wholes;
  }

  lemma WriteIs(s: Logger)
    requires Kept(s)
    ensures |s.rings| == MAX_THREADS && After(s, Write) == Written(s)
  {
    hide Written;
  }

  lemma FinishDone(s: Logger)
    requires Kept(s) && Quiet(s) && s.writer.Done?
    ensures Finish(s) == s
  {
    hide Kept;
    hide Quiet;
  }

  lemma KeptSize(s: Logger)
    requires Kept(s)
    ensures |s.rings| == MAX_THREADS
  {
  }

  lemma {:induction false} FinishDrains(s: Logger)
    requires Kept(s) && Quiet(s)
    ensures var t := Finish(s); t.writer.Done? && (AllOut(t, s.rings) <==> NothingLeftBehind(s))
    decreases Stage(s.writer), RingsLeft(s.writer), Waiting(s), Phase(s.writer)
  {
    hide *;
    if s.writer.Done? {
      DoneOut(s);
      FinishDone(s);
    } else {
      WriteIs(s);
      StepKept(s, Write);
      WrittenQuiet(s);
      Progress(s);
      StepLeaves(s);
      KeptSize(s);
      SameAccepted(s, Written(s), Finish(Written(s)));
      FinishDrains(Written(s));
      FinishStep(s);
    }
  }

  lemma FinishStep(s: Logger)
    requires Kept(s) && Quiet(s) && !s.writer.Done? && Kept(Written(s)) && Quiet(Written(s))
    ensures Finish(s) == Finish(Written(s))
  {
    hide Written;
    hide Kept;
    hide Quiet;
  }

  lemma BeforeDrain(s: Logger)
    requires Kept(s) && !InDrain(s.writer)
    ensures NothingLeftBehind(s)
  {
  }

  // ---- late pushes ----

  /** The step publishes an entry on a ring that the drain has passed. */
  predicate Late(s: Logger, step: Step) {
    |s.rings| == MAX_THREADS && step.PushOn? && step.i < MAX_THREADS && s.rings[step.i].push.Copied? && Passed(s, step.i)
  }

  lemma RegisterLeaves(s: Logger)
    requires Kept(s)
    ensures NothingLeftBehind(Registered(s)) <==> NothingLeftBehind(s)
  {
    UnusedEmpty(s);
    var t := Registered(s);
    hide RingKept;
    hide WriterKept;
    assert forall j :: 0 <= j < MAX_THREADS ==> t.rings[j].read == s.rings[j].read && t.rings[j].accepted == s.rings[j].accepted;
    assert forall j :: 0 <= j < MAX_THREADS && j < s.nrings ==> (Passed(t, j) <==> Passed(s, j));
    hide Registered;
    hide Passed;
  }

  lemma OnLeaves(s: Logger, i: nat)
    requires Kept(s) && i < MAX_THREADS
    ensures NothingLeftBehind(After(s, PushOn(i))) <==> NothingLeftBehind(s) && !Late(s, PushOn(i))
  {
    var q, t := s.rings[i], After(s, PushOn(i));
    assert RingKept(q);
    hide RingKept;
    hide WriterKept;
    RingFacts(q);
    assert forall j :: 0 <= j < MAX_THREADS ==> (Passed(t, j) <==> Passed(s, j)) && t.rings[j].read == s.rings[j].read;
    assert forall j :: 0 <= j < MAX_THREADS && j != i ==> t.rings[j] == s.rings[j];
    assert t.rings[i].accepted == if q.push.Copied? then q.accepted + [q.push.e] else q.accepted;
    hide After;
    hide Passed;
  }

  lemma StartLeaves(s: Logger, i: nat, e: Entry)
    requires Kept(s) && i < MAX_THREADS
    ensures NothingLeftBehind(After(s, PushStart(i, e))) <==> NothingLeftBehind(s)
  {
    hide RingKept;
    hide WriterKept;
    var t := After(s, PushStart(i, e));
    assert forall j :: 0 <= j < MAX_THREADS ==>
      (Passed(t, j) <==> Passed(s, j)) && t.rings[j].read == s.rings[j].read && t.rings[j].accepted == s.rings[j].accepted;
    hide After;
    hide Passed;
  }

  /** An entry is left behind by a late push and by nothing else, and stays so. */
  lemma AnyStepLeaves(s: Logger, step: Step)
    requires Kept(s)
    ensures |s.rings| == MAX_THREADS
    ensures NothingLeftBehind(After(s, step)) <==> NothingLeftBehind(s) && !Late(s, step)
  {
    hide Kept;
    hide NothingLeftBehind;
    KeptSize(s);
    match step
    case Register => RegisterLeaves(s);
    case PushStart(i, e) => if i < MAX_THREADS { StartLeaves(s, i, e); }
    case PushOn(i) => if i < MAX_THREADS { OnLeaves(s, i); }
    case Shutdown => ShutdownLeaves(s);
    case Write => StepLeaves(s);
  }

  lemma ShutdownLeaves(s: Logger)
    ensures NothingLeftBehind(s.(running := false)) <==> NothingLeftBehind(s)
  {
    var t := s.(running := false);
    assert forall j: nat :: Passed(t, j) <==> Passed(s, j);
    hide Passed;
  }

  /** Over every run: some entry has been left behind if and only if some push came too late. */
  lemma {:induction false} LeftBehindIffLate(run: seq<Logger>, steps: seq<Step>, n: nat)
    requires Run(run, steps) && n < |run|
    ensures NothingLeftBehind(run[n]) <==> forall k :: 0 <= k < n ==> !Late(run[k], steps[k])
  {
    hide Late;
    hide NothingLeftBehind;
    hide After;
    RunKept(run, steps, n);
    if n == 0 {
      BeforeDrain(run[0]);
      hide Kept;
    } else {
      RunKept(run, steps, n - 1);
      hide Kept;
      LeftBehindIffLate(run, steps, n - 1);
      AnyStepLeaves(run[n - 1], steps[n - 1]);
    }
  }

  /** Once shutdown is asked for and the producers have stopped, the writer returns after finitely many
      steps; then every accepted entry is out if and only if no push published its entry on a ring
      that the final drain had already passed. */
  lemma ShutdownEmitsAll(run: seq<Logger>, steps: seq<Step>, n: nat)
    requires Run(run, steps) && n < |run| && Quiet(run[n])
    ensures Kept(run[n])
    ensures var t := Finish(run[n]);
            t.writer.Done? && (AllOut(t, run[n].rings) <==> forall k :: 0 <= k < n ==> !Late(run[k], steps[k]))
  {
    RunKept(run, steps, n);
    hide *;
    FinishDrains(run[n]);
    LeftBehindIffLate(run, steps, n);
  }

  // ---- a run that loses an entry ----

  function Only(q: Ring): (rings: seq<Ring>)
    ensures |rings| == MAX_THREADS && rings[0] == q
  {
    [q] + seq(MAX_THREADS - 1, _ => UNUSED)
  }

  lemma OnlySet(q: Ring, p: Ring)
    ensures Only(q)[0 := p] == Only(p)
  {
  }

  function Blanks(): (slots: seq<Cell>)
    ensures |slots| == RING_ENTRIES
  {
    seq(RING_ENTRIES, _ => Whole(BLANK))
  }

  /** Ring 0 in state `k` of the run below. */
  function LateRing(k: nat, e: Entry): (r: Ring) {
    var q := Ring(Blanks(), 0, 0, true, Idle, [], 0, []);
    if k < 2 then UNUSED
    else if k < 5 then q.(owned := false)
    else if k < 12 then q
    else if k == 12 then q.(push := LoadedW(e, 0))
    else if k == 13 then q.(push := LoadedR(e, 0, 0, 0))
    else if k == 14 then q.(push := Copying(e, 0), slots := Blanks()[0 := Torn])
    else if k == 15 then q.(push := Copied(e, 0), slots := Blanks()[0 := Whole(e)])
    else q.(slots := Blanks()[0 := Whole(e)], w := 1, accepted := [e])
  }

  /** A thread registers; the logger shuts down and its drain finds the ring empty; then the thread
      pushes an entry. */
  function LateState(k: nat, e: Entry): (r: Logger) {
    Logger(Only(LateRing(k, e)), if k == 0 then 0 else 1,
           if k == 1 then Counted(0) else if k == 2 then Allocated(0) else if k == 3 then WZeroed(0)
           else if k == 4 then RZeroed(0) else Free,
           k < 6,
           if k < 7 then Check else if k == 7 then Scan(true, 0) else if k == 8 then AtRing(true, 0)
           else if k == 9 then HasR(true, 0, 0) else if k == 10 then HasW(true, 0, 0, 0, 0) else Scan(true, 1),
           0)
  }

  function LateStep(k: nat, e: Entry): (r: Step) {
    if k < 5 then Register else if k == 5 then Shutdown else if k < 11 then Write
    else if k == 11 then PushStart(0, e) else PushOn(0)
  }

  lemma LateGoes(k: nat, e: Entry)
    requires k < 16
    ensures After(LateState(k, e), LateStep(k, e)) == LateState(k + 1, e)
  {
    OnlySet(LateRing(k, e), LateRing(k + 1, e));
    hide Only;
    if k == 1 { BlanksAllocated(LateState(k, e), LateRing(2, e)); }
    hide Blanks;
    assert Blanks()[0 := Torn][0 := Whole(e)] == Blanks()[0 := Whole(e)];
    assert [] + [e] == [e];
  }

  lemma BlanksAllocated(s: Logger, q: Ring)
    requires |s.rings| == MAX_THREADS && s.rings[0] == UNUSED && s.reg == Counted(0) && q == UNUSED.(slots := Blanks())
    ensures After(s, Register) == s.(reg := Allocated(0), rings := s.rings[0 := q])
  {
    assert After(s, Register).rings[0].slots == q.slots;
  }

  /** A run that loses an accepted entry: its last step is the late push. */
  lemma LateEntryLost(e: Entry) returns (run: seq<Logger>, steps: seq<Step>)
    ensures Run(run, steps) && |steps| == 16 && Late(run[15], steps[15])
    ensures Quiet(run[16]) && run[16].rings[0].accepted == [e]
    ensures Kept(run[16]) && !AllOut(Finish(run[16]), run[16].rings)
  {
    run, steps := seq(17, k requires 0 <= k < 17 => LateState(k, e)), seq(16, k requires 0 <= k < 16 => LateStep(k, e));
    LateEnds(e);
    hide LateState;
    hide LateStep;
    hide Initial;
    forall k | 0 <= k < 16 ensures |run[k].rings| == MAX_THREADS && run[k + 1] == After(run[k], steps[k]) {
      LateGoes(k, e);
      LateSize(k, e);
    }
    hide After;
    hide Late;
    hide Quiet;
    ShutdownEmitsAll(run, steps, 16);
    assert Late(run[15], steps[15]);
    hide *;
  }

  lemma LateSize(k: nat, e: Entry)
    ensures |LateState(k, e).rings| == MAX_THREADS
  {
  }

  lemma LateEnds(e: Entry)
    ensures LateState(0, e) == Initial()
    ensures Late(LateState(15, e), LateStep(15, e)) && Quiet(LateState(16, e)) && LateState(16, e).rings[0].accepted == [e]
  {
    assert Only(UNUSED) == seq(MAX_THREADS, _ => UNUSED);
    hide Blanks;
  }
}
