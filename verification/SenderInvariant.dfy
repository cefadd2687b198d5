/** What the sender keeps over all its runs: one shared frame, and blocks numbered on. */
module SenderInvariant {
  import opened Bytes
  import opened CoapOptions
  import opened CoapServerWire
  import opened StreamFrames
  import opened StreamServer

  const TAGS := 0x100_0000

  /** What a slot was sent since its registration under message ID `start`. */
  datatype Log = Log(start: nat, sent: seq<Datagram>)
  datatype Sender = Sender(server: Server, captured: seq<bytes>, logs: seq<Log>)
  datatype SenderStep =
    | Tick(now: nat, cap: Capture)
    | Register(ip: nat, port: nat, token: bytes, msgId: nat, at: nat)
    | Prune(at: nat, timeout: nat)
    | StopAll

  const SWITCHED_ON := Sender(Server([IDLE, IDLE], 0, []), [], [Log(0, []), Log(0, [])])

  /** What the environment may do: a 32-bit clock, 16-bit message IDs, tokens of at most 8 octets,
      frames and captures that a 24-bit tag and size can tell apart. */
  ghost predicate Allowed(m: Sender, step: SenderStep) {
    match step
    case Tick(now, cap) => now < CLOCK && (cap.Captured? ==> |cap.frame| < TAGS) && |m.captured| + 1 < TAGS
    case Register(_, _, token, msgId, at) => |token| <= 8 && msgId < IDS && at < CLOCK
    case Prune(at, _) => at < CLOCK
    case StopAll => true
  }

  /** What one slot is sent in a tick. */
  ghost function SlotSends(s: Server, now: nat, cap: Capture, i: nat): (r: seq<Datagram>)
    requires WellKept(s) && (cap.Captured? ==> |cap.frame| < TAGS) && i < |s.streams|
  {
    Burst(s.streams[i], s.buffer, now) +
    if TakesFrame(s, now, cap) then
      var cs := ServedAll(s.streams, now);
      ServedQuiet(s, now);
      LaunchedServable(cs, cap.frame, NextETag(s.etag), now);
      Burst(Launched(cs, |cap.frame|, NextETag(s.etag), now)[i], cap.frame, now)
    else []
  }

  ghost function Logged(l: Log, sends: seq<Datagram>): (r: Log) {
    l.(sent := l.sent + sends)
  }

  ghost function After(m: Sender, step: SenderStep): (r: Sender)
    requires WellKept(m.server) && |m.logs| == MAX_CLIENTS && Allowed(m, step)
  {
    var s := m.server;
    match step
    case Tick(now, cap) =>
      Sender(Ticked(s, now, cap),
             if TakesFrame(s, now, cap) then m.captured + [cap.frame] else m.captured,
             seq(MAX_CLIENTS, i requires 0 <= i < MAX_CLIENTS => Logged(m.logs[i], SlotSends(s, now, cap, i))))
    case Register(ip, port, token, msgId, at) =>
      m.(server := Registered(s, ip, port, token, msgId, at),
         logs := m.logs[SlotFor(s.streams, ip, port).0 := Log(msgId, [])])
    case Prune(at, timeout) => m.(server := Pruned(s, at, timeout))
    case StopAll => m.(server := Stopped(s))
  }

  // ---- the invariant ----

  /** In the middle of the frame captured last. */
  ghost predicate MidFrame(c: Client, captured: seq<bytes>, buffer: bytes) {
    && |captured| > 0 && buffer == captured[|captured| - 1] && 0 < |buffer| < TAGS
    && c.tx.hasData && c.tx.etag == |captured| && c.tx.frameLen == |buffer|
    && c.tx.szx == DEFAULT_SZX && c.tx.nextBlock < TotalBlocks(c)
  }

  function IdOf(d: Datagram): (n: nat) {
    if |d.data| >= 4 then d.data[2] as int * 256 + d.data[3] as int else 0
  }

  ghost predicate Consecutive(sent: seq<Datagram>, start: nat) {
    forall k :: 0 <= k < |sent| ==> IdOf(sent[k]) == (start + k) % IDS
  }

  /** The message ID of the next block. */
  function Cursor(c: Client): (n: nat) {
    (c.msgId + if c.tx.inProgress then c.tx.nextBlock else 0) % IDS
  }

  ghost predicate SentTo(sent: seq<Datagram>, ip: nat, port: nat) {
    forall d :: d in sent ==> d.ip == ip && d.port == port
  }

  ghost predicate Numbered(c: Client, l: Log) {
    c.active ==> Consecutive(l.sent, l.start) && Cursor(c) == (l.start + |l.sent|) % IDS && SentTo(l.sent, c.ip, c.port)
  }

  ghost predicate SlotKept(c: Client, l: Log, captured: seq<bytes>, buffer: bytes) {
    && (c.tx.inProgress ==> MidFrame(c, captured, buffer))
    && Numbered(c, l)
  }

  ghost predicate SenderKept(m: Sender) {
    && WellKept(m.server)
    && m.server.etag == |m.captured| < TAGS
    && |m.logs| == MAX_CLIENTS
    && forall i :: 0 <= i < MAX_CLIENTS ==> SlotKept(m.server.streams[i], m.logs[i], m.captured, m.server.buffer)
  }

  // ---- message IDs ----

  lemma ModAdd(a: nat, b: nat)
    ensures (a % IDS + b) % IDS == (a + b) % IDS
  {
    var y := a % IDS + b;
    assert a + b == y + IDS * (a / IDS);
  }

  lemma ResponseId(r: Reply)
    requires ValidReply(r)
    ensures var p := Response(MAX_PACKET, r); |p| >= 4 && p[2] as int * 256 + p[3] as int == r.msgId
  {
    hide ReplyOptions;
    hide PayloadPart;
    assert ReplyHead(r)[2] == U16(r.msgId)[0] && ReplyHead(r)[3] == U16(r.msgId)[1];
  }

  ghost function BlockDatagram(c: Client, buffer: bytes, num: nat): (r: Datagram)
    requires Servable(c, buffer) && c.tx.inProgress && num * SzxBlockSize(c.tx.szx) < c.tx.frameLen
  {
    Datagram(c.ip, c.port, Response(MAX_PACKET, BlockReply(c, buffer, num)))
  }

  lemma BlockStarts(c: Client, num: nat)
    requires c.tx.frameLen > 0 && num < TotalBlocks(c)
    ensures num * SzxBlockSize(c.tx.szx) < c.tx.frameLen
  {
    BlockInside(num, c.tx.frameLen, SzxBlockSize(c.tx.szx));
  }

  lemma SentBlockIs(c: Client, buffer: bytes, num: nat)
    requires Servable(c, buffer) && c.tx.inProgress && c.tx.frameLen > 0 && num < TotalBlocks(c)
    ensures num * SzxBlockSize(c.tx.szx) < c.tx.frameLen
    ensures SentBlock(c, buffer, num) == [BlockDatagram(c, buffer, num)]
    ensures var d := BlockDatagram(c, buffer, num); IdOf(d) == (c.msgId + num) % IDS && d.ip == c.ip && d.port == c.port
  {
    BlockStarts(c, num);
    ResponseId(BlockReply(c, buffer, num));
    hide Response;
    hide SzxBlockSize;
  }

  /** One datagram per block, in order. */
  lemma {:induction false} SentBlocksIds(c: Client, buffer: bytes, lo: nat, hi: nat)
    requires Servable(c, buffer) && c.tx.inProgress && c.tx.frameLen > 0 && lo <= hi <= TotalBlocks(c)
    ensures var ds := SentBlocks(c, buffer, lo, hi);
            && |ds| == hi - lo
            && Consecutive(ds, c.msgId + lo) && SentTo(ds, c.ip, c.port)
    decreases hi
  {
    hide BlockDatagram;
    hide IdOf;
    hide SentBlock;
    hide TotalBlocks;
    hide SzxBlockSize;
    if lo < hi {
      SentBlocksIds(c, buffer, lo, hi - 1);
      SentBlockIs(c, buffer, hi - 1);
    }
  }

  lemma Renumbered(ds: seq<Datagram>, start: nat)
    requires Consecutive(ds, start)
    ensures Consecutive(ds, start % IDS)
  {
    hide IdOf;
    forall k: nat | k < |ds| ensures IdOf(ds[k]) == (start % IDS + k) % IDS { ModAdd(start, k); }
  }

  lemma AwakeBurst(c: Client, buffer: bytes, now: nat)
    requires Servable(c, buffer) && c.tx.hasData && c.tx.frameLen > 0 && c.tx.nextBlock < TotalBlocks(c) && !Resting(c, now)
    ensures c.tx.inProgress && c.tx.nextBlock <= BurstEnd(c) <= TotalBlocks(c)
    ensures Burst(c, buffer, now) == SentBlocks(c, buffer, c.tx.nextBlock, BurstEnd(c))
  {
    hide Elapsed;
    BurstEndBound(c);
    hide BurstEnd;
    hide TotalBlocks;
    hide SentBlocks;
  }

  lemma BurstIds(c: Client, buffer: bytes, now: nat)
    requires Servable(c, buffer) && c.tx.hasData && c.tx.frameLen > 0 && c.tx.nextBlock < TotalBlocks(c) && !Resting(c, now)
    ensures var ds := Burst(c, buffer, now);
            && c.tx.nextBlock <= BurstEnd(c) && |ds| == BurstEnd(c) - c.tx.nextBlock
            && Consecutive(ds, c.msgId + c.tx.nextBlock) && SentTo(ds, c.ip, c.port)
  {
    hide *;
    AwakeBurst(c, buffer, now);
    SentBlocksIds(c, buffer, c.tx.nextBlock, BurstEnd(c));
  }

  lemma BurstEndBound(c: Client)
    requires c.tx.nextBlock < TotalBlocks(c)
    ensures c.tx.nextBlock < BurstEnd(c) <= TotalBlocks(c)
  {
  }

  lemma ServedCursor(c: Client, captured: seq<bytes>, buffer: bytes, now: nat)
    requires Servable(c, buffer) && c.tx.inProgress && MidFrame(c, captured, buffer) && !Resting(c, now)
    ensures var d := Served(c, now);
            && Cursor(d) == (Cursor(c) + (BurstEnd(c) - c.tx.nextBlock)) % IDS
            && (d.tx.inProgress ==> MidFrame(d, captured, buffer))
  {
    hide SzxBlockSize;
    hide NumBlocks;
    ModAdd(c.msgId + c.tx.nextBlock, BurstEnd(c) - c.tx.nextBlock);
    ModAdd(c.msgId + TotalBlocks(c), 0);
  }

  lemma BurstNumbered(c: Client, captured: seq<bytes>, buffer: bytes, now: nat)
    requires Servable(c, buffer) && (c.tx.inProgress ==> MidFrame(c, captured, buffer))
    ensures var ds := Burst(c, buffer, now);
            var d := Served(c, now);
            && Consecutive(ds, Cursor(c)) && SentTo(ds, c.ip, c.port)
            && Cursor(d) == (Cursor(c) + |ds|) % IDS
            && (d.tx.inProgress ==> MidFrame(d, captured, buffer))
            && d.active == c.active && d.ip == c.ip && d.port == c.port
  {
    hide SentBlocks;
    hide BurstEnd;
    hide TotalBlocks;
    if Resting(c, now) {
      ModAdd(c.msgId + if c.tx.inProgress then c.tx.nextBlock else 0, 0);
    } else {
      BurstIds(c, buffer, now);
      ServedCursor(c, captured, buffer, now);
      Renumbered(Burst(c, buffer, now), c.msgId + c.tx.nextBlock);
      assert Cursor(c) == (c.msgId + c.tx.nextBlock) % IDS;
      hide Cursor;
      hide MidFrame;
      hide Consecutive;
      hide SentTo;
      hide Burst;
    }
  }

  lemma Extends(sent: seq<Datagram>, more: seq<Datagram>, start: nat, cursor: nat)
    requires Consecutive(sent, start) && Consecutive(more, cursor) && cursor == (start + |sent|) % IDS
    ensures Consecutive(sent + more, start)
    ensures (cursor + |more|) % IDS == (start + |sent + more|) % IDS
  {
    hide IdOf;
    forall k | 0 <= k < |sent + more| ensures IdOf((sent + more)[k]) == (start + k) % IDS {
      if k >= |sent| {
        ModAdd(start + |sent|, k - |sent|);
        assert (sent + more)[k] == more[k - |sent|];
      }
    }
    ModAdd(start + |sent|, |more|);
  }

  /** One slot through a burst. */
  lemma BurstKeeps(c: Client, l: Log, captured: seq<bytes>, buffer: bytes, now: nat)
    requires Servable(c, buffer) && SlotKept(c, l, captured, buffer)
    ensures SlotKept(Served(c, now), Logged(l, Burst(c, buffer, now)), captured, buffer)
  {
    BurstNumbered(c, captured, buffer, now);
    hide MidFrame;
    hide Burst;
    hide Served;
    hide Consecutive;
    hide Cursor;
    if c.active { Extends(l.sent, Burst(c, buffer, now), l.start, Cursor(c)); }
  }

  /** A slot between frames may change frame. */
  lemma LaunchKeeps(c: Client, l: Log, captured: seq<bytes>, frame: bytes, now: nat)
    requires Numbered(c, l) && !c.tx.inProgress && 0 < |frame| < TAGS
    ensures SlotKept(if Due(c, now) then Started(c, |frame|, |captured| + 1) else c, l, captured + [frame], frame)
  {
    NumBlocksBounds(|frame|, SzxBlockSize(DEFAULT_SZX));
    hide SzxBlockSize;
  }

  /** A slot through the first loop. */
  lemma FirstBurst(m: Sender, now: nat, i: nat)
    requires SenderKept(m) && i < MAX_CLIENTS
    ensures var s := m.server;
            SlotKept(ServedAll(s.streams, now)[i], Logged(m.logs[i], Burst(s.streams[i], s.buffer, now)), m.captured, s.buffer)
  {
    var c := m.server.streams[i];
    assert c in m.server.streams;
    assert SlotKept(c, m.logs[i], m.captured, m.server.buffer);
    hide SlotKept;
    hide Burst;
    hide Served;
    BurstKeeps(c, m.logs[i], m.captured, m.server.buffer, now);
  }

  /** A slot through the second loop. */
  lemma SecondBurst(cs: seq<Client>, l: Log, captured: seq<bytes>, frame: bytes, now: nat, i: nat)
    requires Quiet(cs) && i < |cs| && Numbered(cs[i], l) && 0 < |frame| < TAGS && |captured| + 1 < TAGS
    ensures var ls := Launched(cs, |frame|, |captured| + 1, now);
            (LaunchedServable(cs, frame, |captured| + 1, now);
             SlotKept(ServedAll(ls, now)[i], Logged(l, Burst(ls[i], frame, now)), captured + [frame], frame))
  {
    hide Burst;
    hide Served;
    hide MidFrame;
    assert cs[i] in cs && !cs[i].tx.inProgress;
    LaunchKeeps(cs[i], l, captured, frame, now);
    hide Numbered;
    var ls := Launched(cs, |frame|, |captured| + 1, now);
    LaunchedServable(cs, frame, |captured| + 1, now);
    assert ls[i] in ls;
    hide Servable;
    BurstKeeps(ls[i], l, captured + [frame], frame, now);
  }

  lemma QuietIdle(c: Client, l: Log, captured: seq<bytes>, buffer: bytes, captured': seq<bytes>, buffer': bytes)
    requires SlotKept(c, l, captured, buffer) && !c.tx.inProgress
    ensures SlotKept(c, l, captured', buffer')
  {
  }

  lemma PlainTick(m: Sender, now: nat, cap: Capture, i: nat)
    requires SenderKept(m) && Allowed(m, Tick(now, cap)) && i < MAX_CLIENTS && !TakesFrame(m.server, now, cap)
    ensures var s, t := m.server, After(m, Tick(now, cap));
            && t.server.streams == ServedAll(s.streams, now)
            && t.logs[i] == Logged(m.logs[i], Burst(s.streams[i], s.buffer, now))
            && t.captured == m.captured
            && (t.server.buffer == s.buffer || AsksForFrame(s, now))
            && t.server.etag == s.etag
  {
    hide ServedAll;
    hide AnyDue;
    hide MidTransfer;
    hide Burst;
    Concat(Burst(m.server.streams[i], m.server.buffer, now), [], []);
  }

  lemma FrameTick(m: Sender, now: nat, cap: Capture)
    requires SenderKept(m) && Allowed(m, Tick(now, cap)) && TakesFrame(m.server, now, cap)
    ensures var s, t := m.server, After(m, Tick(now, cap));
            var cs := ServedAll(s.streams, now);
            && Quiet(cs) && NextETag(s.etag) == |m.captured| + 1
            && t.server == Server(ServedAll(Launched(cs, |cap.frame|, |m.captured| + 1, now), now), |m.captured| + 1, cap.frame)
            && t.captured == m.captured + [cap.frame]
  {
    hide WellKept;
    hide SlotKept;
    hide ServedAll;
    hide AnyDue;
    hide MidTransfer;
    hide Launched;
    hide Quiet;
    hide SlotSends;
    ServedQuiet(m.server, now);
  }

  lemma FrameTickLog(m: Sender, now: nat, cap: Capture, i: nat)
    requires SenderKept(m) && Allowed(m, Tick(now, cap)) && i < MAX_CLIENTS && TakesFrame(m.server, now, cap)
    requires NextETag(m.server.etag) == |m.captured| + 1 && Quiet(ServedAll(m.server.streams, now))
    ensures var s, t := m.server, After(m, Tick(now, cap));
            var cs := ServedAll(s.streams, now);
            var ls := Launched(cs, |cap.frame|, |m.captured| + 1, now);
            && (LaunchedServable(cs, cap.frame, |m.captured| + 1, now);
                t.logs[i] == Logged(Logged(m.logs[i], Burst(s.streams[i], s.buffer, now)), Burst(ls[i], cap.frame, now)))
  {
    var s := m.server;
    var cs := ServedAll(s.streams, now);
    LaunchedServable(cs, cap.frame, |m.captured| + 1, now);
    hide WellKept;
    hide SlotKept;
    hide ServedAll;
    hide AsksForFrame;
    hide NextETag;
    hide Burst;
    hide Launched;
    hide Quiet;
    hide Ticked;
    hide Servable;
    Concat(m.logs[i].sent, Burst(s.streams[i], s.buffer, now), Burst(Launched(cs, |cap.frame|, |m.captured| + 1, now)[i], cap.frame, now));
  }

  lemma TickSlot(m: Sender, now: nat, cap: Capture, i: nat)
    requires SenderKept(m) && Allowed(m, Tick(now, cap)) && i < MAX_CLIENTS
    ensures var t := After(m, Tick(now, cap));
            |t.server.streams| == MAX_CLIENTS && SlotKept(t.server.streams[i], t.logs[i], t.captured, t.server.buffer)
  {
    hide ServedAll;
    hide Burst;
    hide Launched;
    hide Numbered;
    hide After;
    hide SlotKept;
    var s := m.server;
    FirstBurst(m, now, i);
    var cs := ServedAll(s.streams, now);
    var l := Logged(m.logs[i], Burst(s.streams[i], s.buffer, now));
    if TakesFrame(s, now, cap) {
      FrameTick(m, now, cap);
      FrameTickLog(m, now, cap, i);
      SlotNumbered(cs[i], l, m.captured, s.buffer);
      hide Quiet;
      SecondBurst(cs, l, m.captured, cap.frame, now, i);
    } else {
      PlainTick(m, now, cap, i);
      if AsksForFrame(s, now) {
        ServedQuiet(s, now);
        assert cs[i] in cs && !cs[i].tx.inProgress;
        QuietIdle(cs[i], l, m.captured, s.buffer, m.captured, After(m, Tick(now, cap)).server.buffer);
      }
    }
  }

  lemma SlotNumbered(c: Client, l: Log, captured: seq<bytes>, buffer: bytes)
    requires SlotKept(c, l, captured, buffer)
    ensures Numbered(c, l)
  {
  }

  lemma FrameTickWellKept(m: Sender, now: nat, cap: Capture)
    requires SenderKept(m) && Allowed(m, Tick(now, cap)) && TakesFrame(m.server, now, cap)
    ensures WellKept(After(m, Tick(now, cap)).server)
  {
    var s := m.server;
    hide ServedAll;
    hide Launched;
    hide Burst;
    hide After;
    ServedWellKept(s, now);
    FrameTick(m, now, cap);
    hide SenderKept;
    hide Quiet;
    hide Servable;
    hide AsksForFrame;
    var cs := ServedAll(s.streams, now);
    LaunchedWellKept(cs, cap.frame, |m.captured| + 1, now);
    hide WellKept;
    ServedWellKept(Server(Launched(cs, |cap.frame|, |m.captured| + 1, now), |m.captured| + 1, cap.frame), now);
  }

  lemma PlainTickWellKept(m: Sender, now: nat, cap: Capture)
    requires SenderKept(m) && Allowed(m, Tick(now, cap)) && !TakesFrame(m.server, now, cap)
    ensures WellKept(After(m, Tick(now, cap)).server)
  {
    var s := m.server;
    hide ServedAll;
    hide Burst;
    hide After;
    ServedWellKept(s, now);
    PlainTick(m, now, cap, 0);
    hide SenderKept;
    if AsksForFrame(s, now) {
      ServedQuiet(s, now);
      QuietServable(ServedAll(s.streams, now), After(m, Tick(now, cap)).server.buffer);
    }
    hide AsksForFrame;
    hide Quiet;
    hide Servable;
  }

  lemma QuietServable(cs: seq<Client>, buffer: bytes)
    requires Quiet(cs)
    ensures forall c :: c in cs ==> Servable(c, buffer)
  {
  }

  lemma LaunchedWellKept(cs: seq<Client>, frame: bytes, etag: nat, now: nat)
    requires |cs| == MAX_CLIENTS && Quiet(cs) && 0 < |frame| < TAGS && etag < TAGS
    requires forall c :: c in cs ==> c.lastReqMs < CLOCK
    ensures WellKept(Server(Launched(cs, |frame|, etag, now), etag, frame))
  {
    LaunchedServable(cs, frame, etag, now);
    var ls := Launched(cs, |frame|, etag, now);
    forall c | c in ls ensures c.lastReqMs < CLOCK && !c.busy && (c.active || !c.tx.inProgress) {
      var i :| 0 <= i < |ls| && ls[i] == c;
      assert cs[i] in cs;
    }
  }

  lemma TickKeeps(m: Sender, now: nat, cap: Capture)
    requires SenderKept(m) && Allowed(m, Tick(now, cap))
    ensures SenderKept(After(m, Tick(now, cap)))
  {
    if TakesFrame(m.server, now, cap) {
      FrameTickWellKept(m, now, cap);
      FrameTick(m, now, cap);
    } else {
      PlainTickWellKept(m, now, cap);
      PlainTick(m, now, cap, 0);
    }
    forall i | 0 <= i < MAX_CLIENTS
      ensures var t := After(m, Tick(now, cap)); SlotKept(t.server.streams[i], t.logs[i], t.captured, t.server.buffer)
    {
      TickSlot(m, now, cap, i);
    }
    hide Ticked;
    hide WellKept;
    hide SlotKept;
    hide SlotSends;
    hide TakesFrame;
  }

  lemma DeactivatedKept(c: Client, l: Log, captured: seq<bytes>, buffer: bytes)
    ensures SlotKept(Deactivated(c), l, captured, buffer)
  {
  }

  lemma SubscribedKept(c: Client, renew: bool, ip: nat, port: nat, token: bytes, msgId: nat, at: nat, captured: seq<bytes>, buffer: bytes)
    requires msgId < IDS
    ensures SlotKept(Subscribed(c, renew, ip, port, token, msgId, at), Log(msgId, []), captured, buffer)
  {
  }

  lemma OtherStepKeeps(m: Sender, step: SenderStep)
    requires SenderKept(m) && Allowed(m, step) && !step.Tick?
    ensures SenderKept(After(m, step))
  {
    var t := After(m, step);
    var cs := m.server.streams;
    assert cs[0] in cs && cs[1] in cs;
    match step {
      case Register(ip, port, token, msgId, at) =>
        var (j, renew) := SlotFor(cs, ip, port);
        SubscribedKept(cs[j], renew, ip, port, token, msgId, at, m.captured, m.server.buffer);
        hide SlotFor;
        hide SlotKept;
        assert t.server.streams == cs[j := Subscribed(cs[j], renew, ip, port, token, msgId, at)];
      case Prune(at, timeout) =>
        DeactivatedKept(cs[0], m.logs[0], m.captured, m.server.buffer);
        DeactivatedKept(cs[1], m.logs[1], m.captured, m.server.buffer);
        hide SlotKept;
      case StopAll =>
        DeactivatedKept(cs[0], m.logs[0], m.captured, m.server.buffer);
        DeactivatedKept(cs[1], m.logs[1], m.captured, m.server.buffer);
        hide SlotKept;
    }
  }

  lemma StepKeeps(m: Sender, step: SenderStep)
    requires SenderKept(m) && Allowed(m, step)
    ensures SenderKept(After(m, step))
  {
    hide SenderKept;
    hide After;
    if step.Tick? { TickKeeps(m, step.now, step.cap); } else { OtherStepKeeps(m, step); }
  }

  // ---- whole runs ----

  /** A run of the sender from power-up. A server out of order is not given a meaning; the
      theorems below show that none occurs. */
  ghost predicate SenderRun(run: seq<Sender>, steps: seq<SenderStep>) {
    && |run| == |steps| + 1 && run[0] == SWITCHED_ON
    && forall i :: 0 <= i < |steps| ==> Goes(run[i], steps[i], run[i + 1])
  }

  ghost predicate Goes(m: Sender, step: SenderStep, t: Sender) {
    && Allowed(m, step)
    && (WellKept(m.server) && |m.logs| == MAX_CLIENTS ==> t == After(m, step))
  }

  lemma StartKept()
    ensures SenderKept(SWITCHED_ON)
  {
  }

  /** Over every run: each client in a transfer has the latest frame, tagged with its number,
      in the buffer shared by all; and what a client was sent since its registration bears
      consecutive message IDs modulo 2^16, across frame boundaries. */
  lemma {:induction false} SenderRunKeeps(run: seq<Sender>, steps: seq<SenderStep>, i: nat)
    requires SenderRun(run, steps) && i < |run|
    ensures SenderKept(run[i])
  {
    hide SenderKept;
    hide Allowed;
    if i == 0 {
      StartKept();
    } else {
      SenderRunKeeps(run, steps, i - 1);
      assert Goes(run[i - 1], steps[i - 1], run[i]);
      StepKeeps(run[i - 1], steps[i - 1]);
      WellKeptOf(run[i - 1]);
      hide After;
    }
  }

  lemma WellKeptOf(m: Sender)
    requires SenderKept(m)
    ensures WellKept(m.server) && |m.logs| == MAX_CLIENTS
  {
  }

  /** The camera is asked for a frame, which goes into the shared buffer, only in a tick that has
      already sent every client in a transfer all that it still lacked. */
  lemma AllSentBeforeRecapture(m: Sender, now: nat, cap: Capture, i: nat)
    requires SenderKept(m) && Allowed(m, Tick(now, cap)) && i < MAX_CLIENTS
    requires AsksForFrame(m.server, now)
    requires m.server.streams[i].tx.inProgress
    ensures var c := m.server.streams[i];
            && c.tx.etag == |m.captured| && m.server.buffer == m.captured[|m.captured| - 1]
            && c.tx.nextBlock < TotalBlocks(c)
            && Burst(c, m.server.buffer, now) == SentBlocks(c, m.server.buffer, c.tx.nextBlock, TotalBlocks(c))
  {
    var c := m.server.streams[i];
    assert SlotKept(c, m.logs[i], m.captured, m.server.buffer);
    assert c in m.server.streams;
    var cs := ServedAll(m.server.streams, now);
    assert cs[i] == Served(c, now);
    hide SentBlocks;
    hide TotalBlocks;
  }

  /** And the buffer changes in no other step. */
  lemma BufferStays(m: Sender, step: SenderStep)
    requires SenderKept(m) && Allowed(m, step) && (step.Tick? ==> !AsksForFrame(m.server, step.now))
    ensures After(m, step).server.buffer == m.server.buffer
  {
  }
}
