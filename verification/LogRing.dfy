/** The logger's rings (src/logger.c): one producer each, one writer for all. Every access to shared
    memory is a step, copying an entry is two, and steps interleave in any order. */
module LogRing {
  const RING_ENTRIES := 4096
  const MAX_THREADS := 16

  datatype Entry = Entry(tsUs: int, threadHash: nat, frame: nat, level: int, name: string, msg: string)

  /** A slot is torn while an entry is being copied into it. */
  datatype Cell = Torn | Whole(e: Entry)

  const BLANK := Entry(0, 0, 0, 0, "", "")

  /** Where a push stands; `seen` is how many entries had been read when the read index was
      loaded. */
  datatype Push =
    | Idle
    | LoadedW(e: Entry, w: nat)
    | LoadedR(e: Entry, w: nat, r: nat, seen: nat)
    | Copying(e: Entry, w: nat)
    | Copied(e: Entry, w: nat)

  /** A ring with its history: the entries accepted, how many the writer is done with, and
      what it has put out. No slots before it is allocated. */
  datatype Ring = Ring(slots: seq<Cell>, w: nat, r: nat, owned: bool, push: Push,
                       accepted: seq<Entry>, read: nat, out: seq<Cell>)

  datatype Registration = Free | Counted(i: nat) | Allocated(i: nat) | WZeroed(i: nat) | RZeroed(i: nat)

  /** Where the writer stands: in the main loop or in the final drain. */
  datatype Writer =
    | Check
    | Scan(drain: bool, ri: nat)
    | AtRing(drain: bool, ri: nat)
    | HasR(drain: bool, ri: nat, r: nat)
    | HasW(drain: bool, ri: nat, r: nat, w: nat, seenW: nat)
    | Reading(drain: bool, ri: nat, r: nat)
    | Emitted(drain: bool, ri: nat, r: nat)
    | Done

  datatype Logger = Logger(rings: seq<Ring>, nrings: nat, reg: Registration, running: bool, writer: Writer, drops: nat)

  const UNUSED := Ring([], 0, 0, false, Idle, [], 0, [])

  datatype Step =
    | Register                    // the next sub-step of the registration under the mutex
    | PushStart(i: nat, e: Entry) // a thread that owns ring i begins a push
    | PushOn(i: nat)              // the next sub-step of the push on ring i
    | Shutdown
    | Write                       // the writer's next sub-step

  function Next(i: nat): (n: nat) {
    (i + 1) % RING_ENTRIES
  }

  // ---- registration ----

  function Registered(s: Logger): (r: Logger)
    requires |s.rings| == MAX_THREADS
  {
    match s.reg
    case Free => if s.nrings < MAX_THREADS then s.(reg := Counted(s.nrings), nrings := s.nrings + 1) else s
    case Counted(i) =>
      if i < MAX_THREADS
      then s.(reg := Allocated(i), rings := s.rings[i := s.rings[i].(slots := seq(RING_ENTRIES, _ => Whole(BLANK)))])
      else s
    case Allocated(i) =>
      if i < MAX_THREADS then s.(reg := WZeroed(i), rings := s.rings[i := s.rings[i].(w := 0)]) else s
    case WZeroed(i) =>
      if i < MAX_THREADS then s.(reg := RZeroed(i), rings := s.rings[i := s.rings[i].(r := 0)]) else s
    case RZeroed(i) =>
      if i < MAX_THREADS then s.(reg := Free, rings := s.rings[i := s.rings[i].(owned := true)]) else s
  }

  // ---- push ----

  function Started(q: Ring, e: Entry): (r: Ring) {
    if q.owned && q.push.Idle? then q.(push := LoadedW(e, q.w)) else q
  }

  predicate Full(w: nat, r: nat) {
    Next(w) == r
  }

  function Pushed(q: Ring): (r: Ring) {
    match q.push
    case Idle => q
    case LoadedW(e, w) => q.(push := LoadedR(e, w, q.r, q.read))
    case LoadedR(e, w, r, _) =>
      if Full(w, r) then q.(push := Idle)
      else if w < |q.slots| then q.(push := Copying(e, w), slots := q.slots[w := Torn])
      else q
    case Copying(e, w) => if w < |q.slots| then q.(push := Copied(e, w), slots := q.slots[w := Whole(e)]) else q
    case Copied(e, w) => q.(push := Idle, w := Next(w), accepted := q.accepted + [e])
  }

  predicate Drops(q: Ring) {
    q.push.LoadedR? && Full(q.push.w, q.push.r)
  }

  // ---- the writer ----

  function Written(s: Logger): (r: Logger)
    requires |s.rings| == MAX_THREADS
  {
    match s.writer
    case Check => s.(writer := Scan(!s.running, 0))
    case Scan(d, ri) => s.(writer := if ri < s.nrings then AtRing(d, ri) else if d then Done else Check)
    case AtRing(d, ri) => if ri < MAX_THREADS then s.(writer := HasR(d, ri, s.rings[ri].r)) else s
    case HasR(d, ri, r) =>
      if ri < MAX_THREADS then s.(writer := HasW(d, ri, r, s.rings[ri].w, |s.rings[ri].accepted|)) else s
    case HasW(d, ri, r, w, _) => s.(writer := if r == w then Scan(d, ri + 1) else Reading(d, ri, r))
    case Reading(d, ri, r) =>
      if ri < MAX_THREADS && r < |s.rings[ri].slots| then
        var q := s.rings[ri];
        s.(writer := Emitted(d, ri, r), rings := s.rings[ri := q.(out := q.out + [q.slots[r]])])
      else s
    case Emitted(d, ri, r) =>
      if ri < MAX_THREADS then
        var q := s.rings[ri];
        s.(writer := AtRing(d, ri), rings := s.rings[ri := q.(r := Next(r), read := q.read + 1)])
      else s
    case Done => s
  }

  function After(s: Logger, step: Step): (r: Logger)
    requires |s.rings| == MAX_THREADS
  {
    match step
    case Register => Registered(s)
    case PushStart(i, e) => if i < MAX_THREADS then s.(rings := s.rings[i := Started(s.rings[i], e)]) else s
    case PushOn(i) =>
      if i < MAX_THREADS
      then s.(rings := s.rings[i := Pushed(s.rings[i])], drops := s.drops + if Drops(s.rings[i]) then 1 else 0)
      else s
    case Shutdown => s.(running := false)
    case Write => Written(s)
  }

  // ---- the invariant ----

  function Wholes(es: seq<Entry>): (cs: seq<Cell>)
    ensures |cs| == |es| && forall k :: 0 <= k < |es| ==> cs[k] == Whole(es[k])
  {
    seq(|es|, k requires 0 <= k < |es| => Whole(es[k]))
  }

  /** Slots between the two indices hold the entries not yet read. */
  ghost predicate Holds(slots: seq<Cell>, accepted: seq<Entry>, read: nat) {
    |slots| == RING_ENTRIES &&
    forall k :: read <= k < |accepted| ==> slots[k % RING_ENTRIES] == Whole(accepted[k])
  }

  ghost predicate PushKept(q: Ring) {
    match q.push
    case Idle => true
    case LoadedW(e, w) => w == q.w
    case LoadedR(e, w, r, seen) =>
      w == q.w && r == seen % RING_ENTRIES && seen <= q.read && |q.accepted| < seen + RING_ENTRIES
    case Copying(e, w) => w == q.w && |q.accepted| + 1 < q.read + RING_ENTRIES
    case Copied(e, w) => w == q.w && |q.accepted| + 1 < q.read + RING_ENTRIES && w < |q.slots| && q.slots[w] == Whole(e)
  }

  ghost predicate RingKept(q: Ring) {
    && q.read <= |q.accepted| < q.read + RING_ENTRIES
    && q.w == |q.accepted| % RING_ENTRIES && q.r == q.read % RING_ENTRIES
    && (!q.owned ==> q.push.Idle? && q.accepted == [])
    && (q.owned || q.slots != [] ==> Holds(q.slots, q.accepted, q.read))
    && PushKept(q)
  }

  /** The writer's view of ring `i`. */
  ghost predicate WriterKept(q: Ring, i: nat, writer: Writer) {
    q.read <= |q.accepted| &&
    if writer.Check? || writer.Done? || writer.ri != i then q.out == Wholes(q.accepted[..q.read])
    else match writer
      case Scan(_, _) => q.out == Wholes(q.accepted[..q.read])
      case AtRing(_, _) => q.out == Wholes(q.accepted[..q.read])
      case HasR(_, _, r) => r == q.r && q.out == Wholes(q.accepted[..q.read])
      case HasW(_, _, r, w, seenW) =>
        && r == q.r && w == seenW % RING_ENTRIES && q.read <= seenW <= |q.accepted|
        && q.out == Wholes(q.accepted[..q.read])
      case Reading(_, _, r) => r == q.r && q.read < |q.accepted| && q.out == Wholes(q.accepted[..q.read])
      case Emitted(_, _, r) => r == q.r && q.read < |q.accepted| && q.out == Wholes(q.accepted[..q.read + 1])
  }

  /** Which rings the counter and the registration under way allow to be in use. */
  ghost predicate RegKept(s: Logger)
    requires |s.rings| == MAX_THREADS
  {
    && s.nrings <= MAX_THREADS
    && (forall i :: 0 <= i < MAX_THREADS ==> (s.rings[i].owned ==> i < s.nrings))
    && (!s.reg.Free? ==> s.reg.i + 1 == s.nrings && !s.rings[s.reg.i].owned)
    && (s.reg.Allocated? || s.reg.WZeroed? || s.reg.RZeroed? ==> s.rings[s.reg.i].slots != [])
    && (s.writer.Scan? ==> s.writer.ri <= s.nrings)
    && (!s.writer.Check? && !s.writer.Done? && !s.writer.Scan? ==> s.writer.ri < s.nrings)
  }

  ghost predicate Kept(s: Logger) {
    && |s.rings| == MAX_THREADS
    && (forall i :: 0 <= i < MAX_THREADS ==> RingKept(s.rings[i]) && WriterKept(s.rings[i], i, s.writer))
    && RegKept(s)
  }

  // ---- one ring ----

  lemma SameSlot(a: nat, b: nat)
    requires a <= b < a + RING_ENTRIES && a % RING_ENTRIES == b % RING_ENTRIES
    ensures a == b
  {
  }

  lemma NextSlot(a: nat)
    ensures Next(a % RING_ENTRIES) == (a + 1) % RING_ENTRIES
  {
  }

  /** A push gives up exactly when 4095 entries were waiting as it loaded the read index. */
  lemma FullMeans(q: Ring)
    requires RingKept(q) && q.push.LoadedR?
    ensures Full(q.push.w, q.push.r) <==> |q.accepted| == q.push.seen + RING_ENTRIES - 1
  {
    var seen, W := q.push.seen, |q.accepted|;
    NextSlot(W);
    if Full(q.push.w, q.push.r) && W + 1 < seen + RING_ENTRIES { SameSlot(seen, W + 1); }
  }

  /** Writing the slot at the write index leaves the unread ones alone. */
  lemma OtherSlots(slots: seq<Cell>, accepted: seq<Entry>, read: nat, c: Cell)
    requires Holds(slots, accepted, read) && |accepted| < read + RING_ENTRIES
    ensures Holds(slots[|accepted| % RING_ENTRIES := c], accepted, read)
  {
    var w := |accepted| % RING_ENTRIES;
    forall k | read <= k < |accepted| ensures slots[w := c][k % RING_ENTRIES] == Whole(accepted[k]) {
      if k % RING_ENTRIES == w { SameSlot(k, |accepted|); }
    }
  }

  lemma OneMoreHeld(slots: seq<Cell>, accepted: seq<Entry>, read: nat, e: Entry)
    requires Holds(slots, accepted, read) && slots[|accepted| % RING_ENTRIES] == Whole(e)
    ensures Holds(slots, accepted + [e], read)
  {
    forall k | read <= k < |accepted + [e]| ensures slots[k % RING_ENTRIES] == Whole((accepted + [e])[k]) { }
  }

  lemma StartedKept(q: Ring, e: Entry)
    requires RingKept(q)
    ensures RingKept(Started(q, e))
  {
  }

  lemma PushedKept(q: Ring)
    requires RingKept(q)
    ensures RingKept(Pushed(q))
  {
    hide Holds;
    match q.push
    case Idle =>
    case LoadedW(e, w) =>
    case LoadedR(e, w, r, seen) =>
      FullMeans(q);
      HoldsSize(q.slots, q.accepted, q.read);
      OtherSlots(q.slots, q.accepted, q.read, Torn);
    case Copying(e, w) =>
      HoldsSize(q.slots, q.accepted, q.read);
      OtherSlots(q.slots, q.accepted, q.read, Whole(e));
    case Copied(e, w) =>
      HoldsSize(q.slots, q.accepted, q.read);
      NextSlot(|q.accepted|);
      OneMoreHeld(q.slots, q.accepted, q.read, e);
  }

  lemma HoldsSize(slots: seq<Cell>, accepted: seq<Entry>, read: nat)
    requires Holds(slots, accepted, read)
    ensures |slots| == RING_ENTRIES
  {
  }

  lemma PushedSeen(q: Ring, i: nat, writer: Writer)
    requires RingKept(q) && WriterKept(q, i, writer)
    ensures WriterKept(Pushed(q), i, writer)
  {
    var p := Pushed(q);
    assert p.read == q.read && p.out == q.out && p.r == q.r;
    assert p.accepted[..q.read] == q.accepted[..q.read];
    if q.read < |q.accepted| { assert p.accepted[..q.read + 1] == q.accepted[..q.read + 1]; }
  }

  // ---- the writer on one ring ----

  lemma OutTaken(q: Ring)
    requires q.read < |q.accepted| && q.out == Wholes(q.accepted[..q.read])
    ensures q.out + [Whole(q.accepted[q.read])] == Wholes(q.accepted[..q.read + 1])
  {
  }

  /** The slot being read is whole and holds the next entry. */
  lemma ReadSlot(q: Ring)
    requires RingKept(q) && q.read < |q.accepted|
    ensures q.owned && |q.slots| == RING_ENTRIES && q.slots[q.r] == Whole(q.accepted[q.read])
  {
  }

  lemma StillHolds(slots: seq<Cell>, accepted: seq<Entry>, read: nat)
    requires Holds(slots, accepted, read)
    ensures Holds(slots, accepted, read + 1)
  {
  }

  lemma AdvancedKept(q: Ring)
    requires RingKept(q) && q.read < |q.accepted|
    ensures RingKept(q.(r := Next(q.r), read := q.read + 1))
  {
    NextSlot(q.read);
    StillHolds(q.slots, q.accepted, q.read);
    hide Holds;
  }

  /** Unequal indices mean that an entry is waiting. */
  lemma UnequalWaiting(read: nat, seenW: nat, W: nat, r: nat, w: nat)
    requires r == read % RING_ENTRIES && w == seenW % RING_ENTRIES && read <= seenW <= W && r != w
    ensures read < W
  {
  }

  ghost predicate WrittenKept(s: Logger, i: nat)
    requires |s.rings| == MAX_THREADS && i < MAX_THREADS
  {
    var t := Written(s);
    |t.rings| == MAX_THREADS && RingKept(t.rings[i]) && WriterKept(t.rings[i], i, t.writer)
  }

  lemma WrittenRing(s: Logger, i: nat)
    requires Kept(s) && i < MAX_THREADS
    ensures |s.rings| == MAX_THREADS && WrittenKept(s, i)
  {
    assert |s.rings| == MAX_THREADS && RingKept(s.rings[i]) && WriterKept(s.rings[i], i, s.writer);
    hide *;
    match s.writer
    case HasW(d, ri, r, w, seenW) => WrittenHasW(s, i);
    case Reading(d, ri, r) => WrittenReading(s, i);
    case Emitted(d, ri, r) => WrittenEmitted(s, i);
    case _ => WrittenElse(s, i);
  }

  lemma WrittenHasW(s: Logger, i: nat)
    requires |s.rings| == MAX_THREADS && i < MAX_THREADS && s.writer.HasW?
    requires RingKept(s.rings[i]) && WriterKept(s.rings[i], i, s.writer)
    ensures WrittenKept(s, i)
  {
    var q := s.rings[i];
    RingFacts(q);
    hide RingKept;
    if s.writer.ri == i && s.writer.r != s.writer.w { UnequalWaiting(q.read, s.writer.seenW, |q.accepted|, s.writer.r, s.writer.w); }
  }

  lemma WrittenReading(s: Logger, i: nat)
    requires |s.rings| == MAX_THREADS && i < MAX_THREADS && s.writer.Reading?
    requires RingKept(s.rings[i]) && WriterKept(s.rings[i], i, s.writer)
    ensures WrittenKept(s, i)
  {
    var q := s.rings[i];
    RingFacts(q);
    hide RingKept;
    if s.writer.ri == i {
      ReadSlot(q);
      OutTaken(q);
      OutFree(q, q.out + [q.slots[s.writer.r]]);
    }
    hide Wholes;
  }

  lemma WrittenEmitted(s: Logger, i: nat)
    requires |s.rings| == MAX_THREADS && i < MAX_THREADS && s.writer.Emitted?
    requires RingKept(s.rings[i]) && WriterKept(s.rings[i], i, s.writer)
    ensures WrittenKept(s, i)
  {
    var q := s.rings[i];
    RingFacts(q);
    hide RingKept;
    if s.writer.ri == i { AdvancedKept(q); }
    hide Wholes;
  }

  lemma WrittenElse(s: Logger, i: nat)
    requires |s.rings| == MAX_THREADS && i < MAX_THREADS && !s.writer.HasW? && !s.writer.Reading? && !s.writer.Emitted?
    requires RingKept(s.rings[i]) && WriterKept(s.rings[i], i, s.writer)
    ensures WrittenKept(s, i)
  {
    RingFacts(s.rings[i]);
    hide RingKept;
    hide Wholes;
  }

  lemma RingFacts(q: Ring)
    requires RingKept(q)
    ensures q.read <= |q.accepted| && q.r == q.read % RING_ENTRIES && q.w == |q.accepted| % RING_ENTRIES
  {
  }

  lemma OutFree(q: Ring, out: seq<Cell>)
    requires RingKept(q)
    ensures RingKept(q.(out := out))
  {
  }

  lemma WrittenReg(s: Logger)
    requires Kept(s)
    ensures RegKept(Written(s))
  {
    hide RingKept;
    hide WriterKept;
  }

  // ---- registration ----

  lemma RegisteredRing(s: Logger, i: nat)
    requires Kept(s) && i < MAX_THREADS
    ensures var t := Registered(s);
            |t.rings| == MAX_THREADS && RingKept(t.rings[i]) && WriterKept(t.rings[i], i, t.writer)
  {
    var q := s.rings[i];
    assert RingKept(q) && WriterKept(q, i, s.writer);
    if !s.reg.Free? && s.reg.i == i { UnownedKept(q, i, s.writer); }
    hide RingKept;
    hide WriterKept;
  }

  /** Registration touches only a ring that no thread owns: its indices are zero already. */
  lemma UnownedKept(q: Ring, i: nat, writer: Writer)
    requires RingKept(q) && !q.owned && WriterKept(q, i, writer)
    ensures var a := q.(slots := seq(RING_ENTRIES, _ => Whole(BLANK))); RingKept(a) && WriterKept(a, i, writer)
    ensures q.(w := 0) == q && q.(r := 0) == q
    ensures q.slots != [] ==> var o := q.(owned := true); RingKept(o) && WriterKept(o, i, writer)
  {
  }

  lemma RegisteredReg(s: Logger)
    requires Kept(s)
    ensures RegKept(Registered(s))
  {
    hide RingKept;
    hide WriterKept;
  }

  // ---- steps and runs ----

  lemma OneRing(s: Logger, i: nat, p: Ring)
    requires Kept(s) && i < MAX_THREADS
    requires RingKept(p) && WriterKept(p, i, s.writer) && p.owned == s.rings[i].owned && |p.slots| == |s.rings[i].slots|
    ensures Kept(s.(rings := s.rings[i := p]))
  {
    hide RingKept;
    hide WriterKept;
  }

  lemma StepKept(s: Logger, step: Step)
    requires Kept(s)
    ensures Kept(After(s, step))
  {
    hide RingKept;
    hide WriterKept;
    hide Written;
    hide Registered;
    hide RegKept;
    hide Pushed;
    hide Started;
    match step
    case Register =>
      RegisteredSize(s);
      forall i | 0 <= i < MAX_THREADS
        ensures RingKept(Registered(s).rings[i]) && WriterKept(Registered(s).rings[i], i, Registered(s).writer)
      {
        RegisteredRing(s, i);
      }
      RegisteredReg(s);
    case PushStart(i, e) =>
      if i < MAX_THREADS {
        StartedKept(s.rings[i], e);
        StartedSeen(s.rings[i], e, i, s.writer);
        OneRing(s, i, Started(s.rings[i], e));
      }
    case PushOn(i) =>
      if i < MAX_THREADS {
        PushedKept(s.rings[i]);
        PushedSeen(s.rings[i], i, s.writer);
        PushedShape(s.rings[i]);
        OneRing(s, i, Pushed(s.rings[i]));
        DropsFree(s.(rings := s.rings[i := Pushed(s.rings[i])]), s.drops + if Drops(s.rings[i]) then 1 else 0);
      }
    case Shutdown => RunningFree(s);
    case Write =>
      forall i | 0 <= i < MAX_THREADS
        ensures |Written(s).rings| == MAX_THREADS && RingKept(Written(s).rings[i]) && WriterKept(Written(s).rings[i], i, Written(s).writer)
      {
        WrittenRing(s, i);
      }
      assert |Written(s).rings| == MAX_THREADS by { WrittenRing(s, 0); }
      WrittenReg(s);
  }

  lemma RegisteredSize(s: Logger)
    requires |s.rings| == MAX_THREADS
    ensures |Registered(s).rings| == MAX_THREADS
  {
  }

  lemma StartedSeen(q: Ring, e: Entry, i: nat, writer: Writer)
    requires RingKept(q) && WriterKept(q, i, writer)
    ensures var p := Started(q, e); WriterKept(p, i, writer) && p.owned == q.owned && p.slots == q.slots
  {
  }

  lemma PushedShape(q: Ring)
    ensures Pushed(q).owned == q.owned && |Pushed(q).slots| == |q.slots|
  {
  }

  lemma DropsFree(s: Logger, drops: nat)
    requires Kept(s)
    ensures Kept(s.(drops := drops))
  {
    hide RingKept;
    hide WriterKept;
  }

  lemma RunningFree(s: Logger)
    requires Kept(s)
    ensures Kept(s.(running := false))
  {
    hide RingKept;
    hide WriterKept;
    assert RegKept(s);
    assert RegKept(s.(running := false));
  }

  /** After log_init: no ring in use, the writer about to look. */
  function Initial(): (r: Logger) {
    Logger(seq(MAX_THREADS, _ => UNUSED), 0, Free, true, Check, 0)
  }

  ghost predicate Run(run: seq<Logger>, steps: seq<Step>) {
    && |run| == |steps| + 1 && run[0] == Initial()
    && forall i :: 0 <= i < |steps| ==> |run[i].rings| == MAX_THREADS && run[i + 1] == After(run[i], steps[i])
  }

  lemma {:induction false} RunKept(run: seq<Logger>, steps: seq<Step>, i: nat)
    requires Run(run, steps) && i < |run|
    ensures Kept(run[i])
  {
    hide After;
    if i == 0 {
      assert Wholes([]) == [];
    } else {
      hide Kept;
      RunKept(run, steps, i - 1);
      StepKept(run[i - 1], steps[i - 1]);
    }
  }

  /** Slot `r` holds `e` whole and is not being filled. */
  predicate HoldsSlot(q: Ring, r: nat, e: Entry) {
    && |q.slots| == RING_ENTRIES && r < RING_ENTRIES && q.slots[r] == Whole(e)
    && (q.push.Copying? || q.push.Copied? ==> q.push.w != r)
  }

  /** Safety over every interleaving. On each ring the output is a prefix of the entries accepted
      there, in order, each once and none torn; the slot that the writer holds, until it advances
      the read index, is not the slot being filled; and a ring is neither read nor filled before
      it is allocated. */
  lemma RingSafety(run: seq<Logger>, steps: seq<Step>, n: nat, i: nat)
    requires Run(run, steps) && n < |run| && i < MAX_THREADS
    ensures |run[n].rings| == MAX_THREADS
    ensures var q, writer := run[n].rings[i], run[n].writer;
            && q.out <= Wholes(q.accepted)
            && (writer.Reading? && writer.ri == i ==> |q.out| < |q.accepted| && HoldsSlot(q, writer.r, q.accepted[|q.out|]))
            && (writer.Emitted? && writer.ri == i ==>
                  0 < |q.out| <= |q.accepted| && HoldsSlot(q, writer.r, q.accepted[|q.out| - 1]))
            && (q.push.Copying? || q.push.Copied? ==> |q.slots| == RING_ENTRIES && q.push.w < RING_ENTRIES)
  {
    RunKept(run, steps, n);
    hide Run;
    var q, writer := run[n].rings[i], run[n].writer;
    assert RingKept(q) && WriterKept(q, i, writer);
    hide Kept;
    RingSafe(q, i, writer);
  }

  lemma RingSafe(q: Ring, i: nat, writer: Writer)
    requires RingKept(q) && WriterKept(q, i, writer)
    ensures q.out <= Wholes(q.accepted)
    ensures writer.Reading? && writer.ri == i ==> |q.out| < |q.accepted| && HoldsSlot(q, writer.r, q.accepted[|q.out|])
    ensures writer.Emitted? && writer.ri == i ==>
              0 < |q.out| <= |q.accepted| && HoldsSlot(q, writer.r, q.accepted[|q.out| - 1])
    ensures q.push.Copying? || q.push.Copied? ==> |q.slots| == RING_ENTRIES && q.push.w < RING_ENTRIES
  {
    if q.read < |q.accepted| { ReadSlot(q); }
    hide Holds;
    if (writer.Reading? || writer.Emitted?) && writer.ri == i && (q.push.Copying? || q.push.Copied?) && q.push.w == writer.r {
      SameSlot(q.read, |q.accepted|);
    }
    if q.push.Copying? || q.push.Copied? { HoldsSize(q.slots, q.accepted, q.read); }
  }
}
