/** What the camera's ticks do for a due client, from its first burst to its last. */
module StreamTicks {
  import opened Bytes
  import opened CoapOptions
  import opened CoapServerWire
  import opened StreamFrames
  import opened StreamServer
  import opened SenderInvariant
  import opened StreamSchedule

  // ---- the blocks of a frame, apart from any transfer ----

  /** Block `k` of a frame for a client, non-confirmable, 2.05, of format image/jpeg: 1024 octets of it, or
      what is left. */
  ghost function FrameBlock(c: Client, frame: bytes, etag: nat, k: nat): (r: Reply)
    requires k * 1024 < |frame| < 0x1_0000_0000 && |c.token| <= 8 && etag < 0x1_0000_0000
    ensures ValidReply(r)
  {
    var end := Least((k + 1) * 1024, |frame|);
    Reply(1, 69, (c.msgId + k) % 65536, c.token, etag, 22, Some(BlockField(k, end < |frame|, 6)), |frame|, frame[k * 1024..end])
  }

  function BlocksOf(frame: bytes): (n: nat) {
    (|frame| + 1023) / 1024
  }

  lemma BlockThere(frame: bytes, k: nat)
    requires k < BlocksOf(frame)
    ensures k * 1024 < |frame|
  {
  }

  /** Blocks `lo` up to `hi` of a frame on their way to a client. */
  ghost function FrameSent(c: Client, frame: bytes, etag: nat, lo: nat, hi: nat): (ds: seq<Datagram>)
    requires lo <= hi <= BlocksOf(frame) && |frame| < 0x1_0000_0000 && |c.token| <= 8 && etag < 0x1_0000_0000
    ensures |ds| == hi - lo
  {
    seq(hi - lo, j requires 0 <= j < hi - lo =>
      BlockThere(frame, lo + j);
      Datagram(c.ip, c.port, Response(MAX_PACKET, FrameBlock(c, frame, etag, lo + j))))
  }

  /** The client is being sent the frame under the tag, numbered on from `c`. */
  ghost predicate Carries(d: Client, c: Client, frame: bytes, etag: nat) {
    && d.ip == c.ip && d.port == c.port && d.token == c.token && d.msgId == c.msgId && |c.token| <= 8
    && d.tx.inProgress && d.tx.etag == etag < 0x1_0000_0000 && d.tx.szx == DEFAULT_SZX
    && d.tx.frameLen == |frame| < 0x1_0000_0000
  }

  lemma BlockIs(d: Client, c: Client, frame: bytes, etag: nat, k: nat)
    requires Carries(d, c, frame, etag) && k < BlocksOf(frame)
    ensures k * 1024 < |frame|
    ensures Servable(d, frame)
    ensures SentBlock(d, frame, k) == [Datagram(c.ip, c.port, Response(MAX_PACKET, FrameBlock(c, frame, etag, k)))]
  {
    BlockThere(frame, k);
    DefaultSize();
    hide BlockSize;
    hide Response;
    hide SzxBlockSize;
    assert BlockReply(d, frame, k) == FrameBlock(c, frame, etag, k);
  }

  lemma {:induction false} BlocksAre(d: Client, c: Client, frame: bytes, etag: nat, lo: nat, hi: nat)
    requires Carries(d, c, frame, etag) && lo <= hi <= BlocksOf(frame)
    ensures Servable(d, frame) && SentBlocks(d, frame, lo, hi) == FrameSent(c, frame, etag, lo, hi)
    decreases hi
  {
    hide SentBlock;
    hide Response;
    hide FrameBlock;
    hide BlocksOf;
    if lo < hi {
      BlocksAre(d, c, frame, etag, lo, hi - 1);
      BlockIs(d, c, frame, etag, hi - 1);
    }
  }

  lemma TotalIs(d: Client, c: Client, frame: bytes, etag: nat)
    requires Carries(d, c, frame, etag) && |frame| > 0
    ensures TotalBlocks(d) == BlocksOf(frame) > 0
  {
    DefaultSize();
    hide SzxBlockSize;
    hide BlockSize;
  }

  // ---- the tick that takes a frame ----

  /** Active, and the last frame ended at least 28 ms ago. */
  predicate Ready(c: Client, now: nat) {
    c.active && (now - c.tx.lastFrameMs) % 0x1_0000_0000 >= 28
  }

  /** After the first loop no active client is in a transfer. */
  predicate NoneBusy(cs: seq<Client>, now: nat) {
    forall c :: c in cs ==> !(Served(c, now).active && Served(c, now).tx.inProgress)
  }

  predicate SomeReady(cs: seq<Client>, now: nat) {
    exists c :: c in cs && Ready(Served(c, now), now)
  }

  /** A tick takes the frame it is offered exactly when, after the first loop, no active client is in a
      transfer and some client is ready for a frame. A capture that fails leaves the ETag, but not the
      buffer the camera has written to. */
  lemma TickDecides(s: Server, now: nat, frame: bytes)
    requires |s.streams| == MAX_CLIENTS && |frame| > 0
    ensures TakesFrame(s, now, Captured(frame)) <==> NoneBusy(s.streams, now) && SomeReady(s.streams, now)
    ensures !TakesFrame(s, now, Captured(frame)) ==> Ticked(s, now, Captured(frame)).etag == s.etag
    ensures Ticked(s, now, Captured([])).etag == s.etag && forall left :: Ticked(s, now, Failed(left)).etag == s.etag
    ensures NoneBusy(s.streams, now) && SomeReady(s.streams, now) ==>
              Ticked(s, now, Captured([])).buffer == [] && forall left :: Ticked(s, now, Failed(left)).buffer == left
  {
    var a, b := s.streams[0], s.streams[1];
    var cs := ServedAll(s.streams, now);
    assert cs == [Served(a, now), Served(b, now)];
    assert s.streams == [a, b];
    hide Served;
    assert MidTransfer(cs) <==> (cs[0].active && cs[0].tx.inProgress) || (cs[1].active && cs[1].tx.inProgress);
    assert AnyDue(cs, now) <==> Due(cs[0], now) || Due(cs[1], now);
  }

  /** One client of the last loop: left alone, or put on the fresh frame. */
  lemma LaunchedSlot(cs: seq<Client>, frame: bytes, etag: nat, now: nat, i: nat)
    requires Quiet(cs) && i < |cs| && 0 < |frame| < 0x1_0000_0000 && etag < 0x1_0000_0000
    ensures var c, d := cs[i], Launched(cs, |frame|, etag, now)[i];
            && Servable(d, frame) && !(c.active && c.tx.inProgress) && !c.tx.inProgress
            && (if Ready(c, now) then Carries(d, c, frame, etag) && UnderWay(d) && d.tx.nextBlock == 0 && d.tx.lastBlockMs == 0
                else d == c)
            && ServedAll(Launched(cs, |frame|, etag, now), now)[i] == Served(d, now)
  {
    var ls := Launched(cs, |frame|, etag, now);
    assert cs[i] in cs && ls[i] in ls;
    LaunchedServable(cs, frame, etag, now);
    FreshTotal(|frame|);
    hide TotalBlocks;
    hide Served;
  }

  /** A slot in a tick that takes a frame: left alone, or put on the fresh frame as `d`, and served. */
  lemma SlotTick(m: Sender, now: nat, cap: Capture, i: nat) returns (d: Client)
    requires SenderKept(m) && Allowed(m, Tick(now, cap)) && TakesFrame(m.server, now, cap) && i < MAX_CLIENTS
    ensures WellKept(m.server) && |m.server.streams| == |m.logs| == MAX_CLIENTS
    ensures Servable(m.server.streams[i], m.server.buffer) && Servable(d, cap.frame)
    ensures var s, t := m.server, After(m, Tick(now, cap));
            var c, etag := Served(s.streams[i], now), |m.captured| + 1;
            && |t.server.streams| == |t.logs| == MAX_CLIENTS
            && t.server.etag == etag && t.server.buffer == cap.frame && t.captured == m.captured + [cap.frame]
            && t.server.streams[i] == Served(d, now)
            && t.logs[i] == Logged(Logged(m.logs[i], Burst(s.streams[i], s.buffer, now)), Burst(d, cap.frame, now))
            && !c.tx.inProgress
            && (if Ready(c, now) then Carries(d, c, cap.frame, etag) && UnderWay(d) && d.tx.nextBlock == 0 && d.tx.lastBlockMs == 0
                else d == c)
  {
    Sizes(m, now, cap, i);
    hide *;
    var s, frame, etag := m.server, cap.frame, |m.captured| + 1;
    var cs := ServedAll(s.streams, now);
    FrameTick(m, now, cap);
    FrameTickLog(m, now, cap, i);
    LaunchedSlot(cs, frame, etag, now, i);
    d := Launched(cs, |frame|, etag, now)[i];
  }

  lemma Sizes(m: Sender, now: nat, cap: Capture, i: nat)
    requires SenderKept(m) && Allowed(m, Tick(now, cap)) && TakesFrame(m.server, now, cap) && i < MAX_CLIENTS
    ensures WellKept(m.server) && |m.server.streams| == |m.logs| == MAX_CLIENTS && |After(m, Tick(now, cap)).logs| == MAX_CLIENTS
    ensures Servable(m.server.streams[i], m.server.buffer) && |ServedAll(m.server.streams, now)| == MAX_CLIENTS
    ensures ServedAll(m.server.streams, now)[i] == Served(m.server.streams[i], now)
    ensures 0 < |cap.frame| < 0x1_0000_0000 && |m.captured| + 1 < 0x1_0000_0000
    ensures |After(m, Tick(now, cap)).server.streams| == MAX_CLIENTS
  {
    assert m.server.streams[i] in m.server.streams;
    hide Served;
    hide SlotKept;
    hide SlotSends;
    hide MidTransfer;
    hide AnyDue;
  }

  lemma FreshTotal(len: nat)
    requires len > 0
    ensures forall c: Client :: c.tx.frameLen == len ==> TotalBlocks(c) > 0
  {
    forall c: Client | c.tx.frameLen == len ensures TotalBlocks(c) > 0 { NumBlocksBounds(len, SzxBlockSize(c.tx.szx)); }
    hide SzxBlockSize;
  }

  lemma LastRound(c: Client, now: nat)
    requires UnderWay(c) && Elapsed(now, c.tx.lastBlockMs) >= BLOCK_GAP_MS && BurstEnd(c) == TotalBlocks(c)
    ensures var d := Served(c, now);
            && !d.tx.inProgress && d.tx.lastFrameMs == now && d.msgId == (c.msgId + TotalBlocks(c)) % 65536
            && d.active && d.ip == c.ip && d.port == c.port && d.token == c.token
  {
    hide TotalBlocks;
    hide BurstEnd;
  }

  lemma NoBurstYet(c: Client, buffer: bytes, now: nat)
    requires Servable(c, buffer) && Elapsed(now, c.tx.lastBlockMs) < BLOCK_GAP_MS
    ensures Served(c, now) == c && Burst(c, buffer, now) == []
  {
  }

  /** The first burst of the frame: at most six blocks, and none if the block gap has not passed. */
  function FirstBlocks(frame: bytes, now: nat): (n: nat)
    ensures n <= BlocksOf(frame)
  {
    if now == 0 then 0 else Least(6, BlocksOf(frame))
  }

  /** Where the client stands after it. */
  ghost predicate StandsAt(d: Client, c: Client, frame: bytes, etag: nat, n: nat, now: nat) {
    && d.active
    && if n < BlocksOf(frame) then Carries(d, c, frame, etag) && UnderWay(d) && d.tx.nextBlock == n
       else
         && !d.tx.inProgress && d.tx.lastFrameMs == now && d.msgId == (c.msgId + BlocksOf(frame)) % 65536
         && d.ip == c.ip && d.port == c.port && d.token == c.token
  }

  /** The burst of a client that has just been put on a frame. */
  lemma FirstRound(d: Client, c: Client, frame: bytes, etag: nat, now: nat)
    requires Carries(d, c, frame, etag) && UnderWay(d) && d.tx.nextBlock == 0 && d.tx.lastBlockMs == 0 && |frame| > 0 && now < CLOCK
    ensures Servable(d, frame)
    ensures Burst(d, frame, now) == FrameSent(c, frame, etag, 0, FirstBlocks(frame, now))
    ensures StandsAt(Served(d, now), c, frame, etag, FirstBlocks(frame, now), now)
    ensures now > 0 && Served(d, now).tx.inProgress ==> Served(d, now).tx.lastBlockMs == now
  {
    TotalIs(d, c, frame, etag);
    assert Elapsed(now, 0) == now;
    assert Servable(d, frame);
    if now == 0 {
      NoBurstYet(d, frame, now);
      assert FrameSent(c, frame, etag, 0, 0) == [];
    } else {
      LaterRound(d, c, frame, etag, now);
    }
    hide *;
  }

  /** A burst of a client on a frame, from wherever it stands. */
  lemma LaterRound(d: Client, c: Client, frame: bytes, etag: nat, now: nat)
    requires Carries(d, c, frame, etag) && UnderWay(d) && |frame| > 0 && Elapsed(now, d.tx.lastBlockMs) >= BLOCK_GAP_MS
    ensures Servable(d, frame) && d.tx.nextBlock < BlocksOf(frame)
    ensures var n := Least(d.tx.nextBlock + 6, BlocksOf(frame));
            && d.tx.nextBlock <= n
            && Burst(d, frame, now) == FrameSent(c, frame, etag, d.tx.nextBlock, n)
            && StandsAt(Served(d, now), c, frame, etag, n, now)
            && (n < BlocksOf(frame) ==> Served(d, now).tx.lastBlockMs == now)
  {
    hide *;
    CarriesServable(d, c, frame, etag);
    TotalIs(d, c, frame, etag);
    UnderWayIs(d);
    OneRound(d, frame, now);
    Tempo();
    BlocksAre(d, c, frame, etag, d.tx.nextBlock, BurstEnd(d));
    if BurstEnd(d) == TotalBlocks(d) {
      LastRound(d, now);
      Finished(Served(d, now), d, c, frame, etag, BurstEnd(d), now);
    } else {
      Moved(Served(d, now), d, c, frame, etag, BurstEnd(d), now);
    }
  }

  lemma Tempo()
    ensures BLOCKS_PER_TICK == 6 && BLOCK_GAP_MS == 1
    ensures forall a: nat, b: nat :: Least(a, b) <= b
  {
  }

  lemma CarriesServable(d: Client, c: Client, frame: bytes, etag: nat)
    requires Carries(d, c, frame, etag)
    ensures Servable(d, frame) && d.tx.inProgress
  {
  }

  lemma UnderWayIs(d: Client)
    requires UnderWay(d)
    ensures d.tx.nextBlock < TotalBlocks(d)
  {
  }

  lemma Finished(e: Client, d: Client, c: Client, frame: bytes, etag: nat, n: nat, now: nat)
    requires Carries(d, c, frame, etag) && n == BlocksOf(frame)
    requires !e.tx.inProgress && e.tx.lastFrameMs == now && e.msgId == (d.msgId + BlocksOf(frame)) % 65536
    requires e.active && e.ip == d.ip && e.port == d.port && e.token == d.token
    ensures StandsAt(e, c, frame, etag, n, now)
  {
    hide BlocksOf;
  }

  lemma Moved(e: Client, d: Client, c: Client, frame: bytes, etag: nat, n: nat, now: nat)
    requires Carries(d, c, frame, etag) && n < BlocksOf(frame)
    requires e == d.(tx := d.tx.(nextBlock := n, lastBlockMs := now)) && UnderWay(e)
    ensures StandsAt(e, c, frame, etag, n, now) && e.tx.lastBlockMs == now
  {
    hide BlocksOf;
    hide TotalBlocks;
  }

  /** A tick that takes a frame. It has a new ETag and the buffer from then on. Every client that is
      ready for it, once the first loop has served it, is started: at a time that the block gap allows
      it is sent blocks 0 to 5, or all there are, of that frame under that ETag, numbered on from its
      message ID; it then stands behind them, or has finished at that time. Any other client is left
      as the first loop left it and is sent nothing more. */
  lemma TickStarts(m: Sender, now: nat, cap: Capture, i: nat)
    requires SenderKept(m) && Allowed(m, Tick(now, cap)) && TakesFrame(m.server, now, cap) && i < MAX_CLIENTS
    ensures WellKept(m.server) && |m.server.streams| == |m.logs| == MAX_CLIENTS && Servable(m.server.streams[i], m.server.buffer)
    ensures var s, t := m.server, After(m, Tick(now, cap));
            var c, frame, etag, n := Served(s.streams[i], now), cap.frame, |m.captured| + 1, FirstBlocks(cap.frame, now);
            var before := m.logs[i].sent + Burst(s.streams[i], s.buffer, now);
            && |t.server.streams| == |t.logs| == MAX_CLIENTS && |frame| < 0x1_0000_0000 && etag < 0x1_0000_0000
            && t.server.etag == etag && t.server.buffer == frame && t.captured == m.captured + [frame]
            && (Ready(c, now) ==>
                  && |c.token| <= 8
                  && t.logs[i].sent == before + FrameSent(c, frame, etag, 0, n)
                  && StandsAt(t.server.streams[i], c, frame, etag, n, now))
            && (!Ready(c, now) ==> t.logs[i].sent == before && t.server.streams[i] == c)
  {
    AllowedTick(m, now, cap);
    hide *;
    Sizes(m, now, cap, i);
    var d := SlotTick(m, now, cap, i);
    var s := m.server;
    var c := Served(s.streams[i], now);
    LoggedTwice(m.logs[i], Burst(s.streams[i], s.buffer, now), Burst(d, cap.frame, now));
    if Ready(c, now) {
      CarriesToken(d, c, cap.frame, |m.captured| + 1);
      FirstRound(d, c, cap.frame, |m.captured| + 1, now);
    } else {
      RestingIsStill(c, cap.frame, now);
      Concat(m.logs[i].sent + Burst(s.streams[i], s.buffer, now), [], []);
    }
  }

  lemma AllowedTick(m: Sender, now: nat, cap: Capture)
    requires Allowed(m, Tick(now, cap))
    ensures now < CLOCK
  {
  }

  lemma CarriesToken(d: Client, c: Client, frame: bytes, etag: nat)
    requires Carries(d, c, frame, etag)
    ensures |c.token| <= 8
  {
  }

  lemma LoggedTwice(l: Log, a: seq<Datagram>, b: seq<Datagram>)
    ensures Logged(Logged(l, a), b).sent == l.sent + a + b
  {
  }

  // ---- the ticks after it ----

  /** Slot `i` has been sent blocks 0 up to `n` of a frame that has more. */
  ghost predicate OnFrame(m: Sender, i: nat, c: Client, frame: bytes, etag: nat, n: nat, before: seq<Datagram>) {
    && |m.server.streams| == |m.logs| == MAX_CLIENTS && i < MAX_CLIENTS && m.server.buffer == frame && |frame| > 0
    && n < BlocksOf(frame) && |frame| < 0x1_0000_0000 && |c.token| <= 8 && etag < 0x1_0000_0000
    && m.server.streams[i].active && Carries(m.server.streams[i], c, frame, etag) && UnderWay(m.server.streams[i])
    && m.server.streams[i].tx.nextBlock == n
    && m.logs[i].sent == before + FrameSent(c, frame, etag, 0, n)
  }

  lemma SentJoin(c: Client, frame: bytes, etag: nat, n: nat, k: nat)
    requires n <= k <= BlocksOf(frame) && |frame| < 0x1_0000_0000 && |c.token| <= 8 && etag < 0x1_0000_0000
    ensures FrameSent(c, frame, etag, 0, n) + FrameSent(c, frame, etag, n, k) == FrameSent(c, frame, etag, 0, k)
  {
    hide Response;
    hide FrameBlock;
    hide BlocksOf;
  }

  /** While a client is still in a transfer after its burst, the tick goes no further. */
  lemma BusyTick(m: Sender, now: nat, cap: Capture, i: nat)
    requires SenderKept(m) && Allowed(m, Tick(now, cap)) && i < MAX_CLIENTS
    requires |m.server.streams| == MAX_CLIENTS && WellKept(m.server) && |m.logs| == MAX_CLIENTS
    requires Served(m.server.streams[i], now).active && Served(m.server.streams[i], now).tx.inProgress
    ensures var s, t := m.server, After(m, Tick(now, cap));
            && Servable(s.streams[i], s.buffer) && |t.server.streams| == |t.logs| == MAX_CLIENTS
            && t.server.streams[i] == Served(s.streams[i], now) && t.server.buffer == s.buffer
            && t.logs[i].sent == m.logs[i].sent + Burst(s.streams[i], s.buffer, now)
  {
    var s := m.server;
    assert s.streams[i] in s.streams;
    var cs := ServedAll(s.streams, now);
    assert cs[i] == Served(s.streams[i], now);
    assert MidTransfer(cs);
    PlainTick(m, now, cap, i);
    assert |After(m, Tick(now, cap)).logs| == MAX_CLIENTS;
    hide Served;
    hide Burst;
    hide SenderKept;
    hide MidTransfer;
    hide SlotSends;
  }

  /** Whatever a tick does, the first loop's burst has been sent by its end. */
  lemma AnyTick(m: Sender, now: nat, cap: Capture, i: nat)
    requires SenderKept(m) && Allowed(m, Tick(now, cap)) && i < MAX_CLIENTS
    requires |m.server.streams| == MAX_CLIENTS && WellKept(m.server) && |m.logs| == MAX_CLIENTS
    ensures var s, t := m.server, After(m, Tick(now, cap));
            && Servable(s.streams[i], s.buffer) && |t.logs| == MAX_CLIENTS
            && m.logs[i].sent + Burst(s.streams[i], s.buffer, now) <= t.logs[i].sent
  {
    var s := m.server;
    assert s.streams[i] in s.streams;
    assert After(m, Tick(now, cap)).logs[i] == Logged(m.logs[i], SlotSends(s, now, cap, i));
    hide Burst;
    hide SenderKept;
    hide TakesFrame;
    hide Launched;
    hide ServedAll;
    hide After;
    assert Burst(s.streams[i], s.buffer, now) <= SlotSends(s, now, cap, i);
    hide SlotSends;
  }

  /** One more tick for a client on a frame. */
  lemma NextTick(m: Sender, now: nat, cap: Capture, i: nat, c: Client, frame: bytes, etag: nat, n: nat, before: seq<Datagram>)
    requires SenderKept(m) && Allowed(m, Tick(now, cap)) && OnFrame(m, i, c, frame, etag, n, before)
    requires WellKept(m.server) && |m.logs| == MAX_CLIENTS && i < |m.server.streams| == MAX_CLIENTS
    requires Elapsed(now, m.server.streams[i].tx.lastBlockMs) >= BLOCK_GAP_MS
    ensures n < BlocksOf(frame) && |frame| < 0x1_0000_0000 && |c.token| <= 8 && etag < 0x1_0000_0000
    ensures var t, k := After(m, Tick(now, cap)), Least(n + 6, BlocksOf(frame));
            && |t.logs| == MAX_CLIENTS
            && before + FrameSent(c, frame, etag, 0, k) <= t.logs[i].sent
            && (k < BlocksOf(frame) ==>
                  OnFrame(t, i, c, frame, etag, k, before) && t.server.streams[i].tx.lastBlockMs == now)
  {
    OnFrameIs(m, i, c, frame, etag, n, before);
    hide *;
    var d := m.server.streams[i];
    var k := Least(n + 6, BlocksOf(frame));
    Tempo();
    LaterRound(d, c, frame, etag, now);
    SentJoin(c, frame, etag, n, k);
    Concat(before, FrameSent(c, frame, etag, 0, n), FrameSent(c, frame, etag, n, k));
    AnyTick(m, now, cap, i);
    if k < BlocksOf(frame) {
      StandsIs(Served(d, now), c, frame, etag, k, now);
      BusyTick(m, now, cap, i);
      MakeOnFrame(After(m, Tick(now, cap)), i, c, frame, etag, k, before);
    }
  }

  lemma OnFrameIs(m: Sender, i: nat, c: Client, frame: bytes, etag: nat, n: nat, before: seq<Datagram>)
    requires OnFrame(m, i, c, frame, etag, n, before)
    ensures |m.server.streams| == |m.logs| == MAX_CLIENTS && i < MAX_CLIENTS && m.server.buffer == frame && |frame| > 0
    ensures n < BlocksOf(frame) && |frame| < 0x1_0000_0000 && |c.token| <= 8 && etag < 0x1_0000_0000
    ensures Carries(m.server.streams[i], c, frame, etag) && UnderWay(m.server.streams[i]) && m.server.streams[i].tx.nextBlock == n
    ensures m.logs[i].sent == before + FrameSent(c, frame, etag, 0, n)
  {
  }

  lemma MakeOnFrame(m: Sender, i: nat, c: Client, frame: bytes, etag: nat, n: nat, before: seq<Datagram>)
    requires |m.server.streams| == |m.logs| == MAX_CLIENTS && i < MAX_CLIENTS && m.server.buffer == frame && |frame| > 0
    requires n < BlocksOf(frame) && |frame| < 0x1_0000_0000 && |c.token| <= 8 && etag < 0x1_0000_0000
    requires m.server.streams[i].active && Carries(m.server.streams[i], c, frame, etag) && UnderWay(m.server.streams[i])
    requires m.server.streams[i].tx.nextBlock == n && m.logs[i].sent == before + FrameSent(c, frame, etag, 0, n)
    ensures OnFrame(m, i, c, frame, etag, n, before)
  {
  }

  lemma StandsIs(d: Client, c: Client, frame: bytes, etag: nat, n: nat, now: nat)
    requires StandsAt(d, c, frame, etag, n, now) && n < BlocksOf(frame)
    ensures d.active && Carries(d, c, frame, etag) && UnderWay(d) && d.tx.nextBlock == n && d.tx.inProgress
  {
  }

  /** A stretch of a run in which nothing but ticks happens, at least the block gap apart. */
  ghost predicate Ticks(run: seq<Sender>, steps: seq<SenderStep>) {
    && |run| == |steps| + 1 && SenderKept(run[0])
    && (forall k :: 0 <= k < |steps| ==> steps[k].Tick? && Goes(run[k], steps[k], run[k + 1]))
    && (forall k :: 0 < k < |steps| ==> Elapsed(steps[k].now, steps[k - 1].now) >= BLOCK_GAP_MS)
  }

  lemma EarlierTicks(run: seq<Sender>, steps: seq<SenderStep>, n: nat)
    requires Ticks(run, steps) && 0 < n <= |steps|
    ensures |run| == |steps| + 1 && Ticks(run[..n], steps[..n - 1])
    ensures steps[n - 1].Tick? && Goes(run[n - 1], steps[n - 1], run[n])
    ensures n > 1 ==> steps[n - 2].Tick? && Elapsed(steps[n - 1].now, steps[n - 2].now) >= BLOCK_GAP_MS
  {
    hide SenderKept;
    hide Goes;
  }

  lemma TickGoes(m: Sender, step: SenderStep, t: Sender)
    requires SenderKept(m) && Goes(m, step, t)
    ensures Allowed(m, step) && WellKept(m.server) && |m.logs| == |m.server.streams| == MAX_CLIENTS && t == After(m, step) && SenderKept(t)
  {
    WellKeptOf(m);
    StepKeeps(m, step);
    hide SenderKept;
    hide After;
    hide Allowed;
  }

  lemma {:induction false} TicksKept(run: seq<Sender>, steps: seq<SenderStep>, n: nat)
    requires Ticks(run, steps) && n < |run|
    ensures SenderKept(run[n])
  {
    if n > 0 {
      TicksKept(run, steps, n - 1);
      EarlierTicks(run, steps, n);
      hide *;
      TickGoes(run[n - 1], steps[n - 1], run[n]);
    }
  }

  /** What slot `i` has been sent after the tick that takes the frame and the ones that follow. */
  ghost predicate SentSoFar(m: Sender, i: nat, c: Client, frame: bytes, etag: nat, reach: nat, before: seq<Datagram>, now: nat) {
    && i < |m.logs| && |frame| < 0x1_0000_0000 && |c.token| <= 8 && etag < 0x1_0000_0000
    && before + FrameSent(c, frame, etag, 0, Least(reach, BlocksOf(frame))) <= m.logs[i].sent
    && (reach < BlocksOf(frame) ==>
          OnFrame(m, i, c, frame, etag, reach, before) && i < |m.server.streams| && m.server.streams[i].tx.lastBlockMs == now)
  }

  lemma FirstSoFar(m: Sender, now: nat, cap: Capture, i: nat)
    requires SenderKept(m) && Allowed(m, Tick(now, cap)) && TakesFrame(m.server, now, cap) && i < MAX_CLIENTS && now > 0
    requires |m.server.streams| == |m.logs| == MAX_CLIENTS && WellKept(m.server) && Servable(m.server.streams[i], m.server.buffer)
    requires Ready(Served(m.server.streams[i], now), now)
    ensures SentSoFar(After(m, Tick(now, cap)), i, Served(m.server.streams[i], now), cap.frame, |m.captured| + 1, 6,
                      m.logs[i].sent + Burst(m.server.streams[i], m.server.buffer, now), now)
  {
    TickStarts(m, now, cap, i);
    var c, d := Served(m.server.streams[i], now), After(m, Tick(now, cap)).server.streams[i];
    var frame, etag, n := cap.frame, |m.captured| + 1, FirstBlocks(cap.frame, now);
    if n < BlocksOf(frame) {
      StandsIs(d, c, frame, etag, n, now);
      StartedAt(m, now, cap, i);
    }
    hide After;
    hide Served;
    hide Burst;
    hide Carries;
    hide UnderWay;
    hide FrameSent;
    hide StandsAt;
    hide SenderKept;
    hide Servable;
  }

  lemma StartedAt(m: Sender, now: nat, cap: Capture, i: nat)
    requires SenderKept(m) && Allowed(m, Tick(now, cap)) && TakesFrame(m.server, now, cap) && i < MAX_CLIENTS && now > 0
    requires |m.server.streams| == |m.logs| == MAX_CLIENTS && WellKept(m.server)
    requires Ready(Served(m.server.streams[i], now), now)
    ensures var t := After(m, Tick(now, cap));
            |t.server.streams| == MAX_CLIENTS && (t.server.streams[i].tx.inProgress ==> t.server.streams[i].tx.lastBlockMs == now)
  {
    AllowedTick(m, now, cap);
    hide *;
    Sizes(m, now, cap, i);
    var d := SlotTick(m, now, cap, i);
    FirstRound(d, Served(m.server.streams[i], now), cap.frame, |m.captured| + 1, now);
  }

  lemma NextSoFar(m: Sender, now: nat, last: nat, cap: Capture, i: nat, c: Client, frame: bytes, etag: nat, reach: nat,
                  before: seq<Datagram>)
    requires SenderKept(m) && Allowed(m, Tick(now, cap)) && WellKept(m.server) && |m.logs| == |m.server.streams| == MAX_CLIENTS
    requires i < MAX_CLIENTS && SentSoFar(m, i, c, frame, etag, reach, before, last) && Elapsed(now, last) >= BLOCK_GAP_MS
    ensures SentSoFar(After(m, Tick(now, cap)), i, c, frame, etag, reach + 6, before, now)
  {
    AnyTick(m, now, cap, i);
    if reach < BlocksOf(frame) {
      NextTick(m, now, cap, i, c, frame, etag, reach, before);
    }
    hide After;
    hide OnFrame;
    hide FrameSent;
    hide SenderKept;
    hide Burst;
  }

  lemma CapturedIs(s: Server, now: nat, cap: Capture)
    requires TakesFrame(s, now, cap)
    ensures cap.Captured?
  {
  }

  /** From the first block to the last. Once a tick, at a time other than 0, has taken a frame, a client
      that was ready for it is sent the frame's blocks, in order, each once, six at every tick, until it
      has them all; nothing else comes between, whatever captures the ticks are offered. */
  lemma {:induction false} FrameByTicks(run: seq<Sender>, steps: seq<SenderStep>, i: nat)
    requires Ticks(run, steps) && |steps| > 0 && |run| == |steps| + 1 && i < MAX_CLIENTS
    requires steps[0].Tick? && TakesFrame(run[0].server, steps[0].now, steps[0].cap) && steps[0].now > 0
    requires |run[0].server.streams| == |run[0].logs| == MAX_CLIENTS && WellKept(run[0].server)
    requires Servable(run[0].server.streams[i], run[0].server.buffer)
    requires Ready(Served(run[0].server.streams[i], steps[0].now), steps[0].now)
    ensures steps[|steps| - 1].Tick?
    ensures var m, now, frame := run[0], steps[0].now, steps[0].cap.frame;
            SentSoFar(run[|steps|], i, Served(m.server.streams[i], now), frame, |m.captured| + 1, 6 * |steps|,
                      m.logs[i].sent + Burst(m.server.streams[i], m.server.buffer, now), steps[|steps| - 1].now)
    decreases |steps|
  {
    hide *;
    CapturedIs(run[0].server, steps[0].now, steps[0].cap);
    var n := |steps|;
    EarlierTicks(run, steps, n);
    TicksKept(run, steps, n - 1);
    TicksKept(run, steps, 0);
    var m, now := run[0], steps[0].now;
    TickGoes(run[n - 1], steps[n - 1], run[n]);
    if n == 1 {
      FirstSoFar(m, now, steps[0].cap, i);
    } else {
      FrameByTicks(run[..n], steps[..n - 1], i);
      NextSoFar(run[n - 1], steps[n - 1].now, steps[n - 2].now, steps[n - 1].cap, i, Served(m.server.streams[i], now),
                steps[0].cap.frame, |m.captured| + 1, 6 * (n - 1),
                m.logs[i].sent + Burst(m.server.streams[i], m.server.buffer, now));
    }
  }

  // ---- the logs and what is really sent ----

  /** The datagrams that go to a host. */
  ghost function To(ds: seq<Datagram>, ip: nat): (es: seq<Datagram>) {
    if |ds| == 0 then []
    else
      var d := ds[|ds| - 1];
      To(ds[..|ds| - 1], ip) + if d.ip == ip then [d] else []
  }

  lemma {:induction false} ToJoin(a: seq<Datagram>, b: seq<Datagram>, ip: nat)
    ensures To(a + b, ip) == To(a, ip) + To(b, ip)
    decreases |b|
  {
    var n := |b| - 1;
    if n < 0 {
      assert a + b == a;
    } else {
      var ds := a + b;
      assert ds[..|ds| - 1] == a + b[..n] && ds[|ds| - 1] == b[n];
      ToJoin(a, b[..n], ip);
    }
  }

  ghost predicate AllTo(ds: seq<Datagram>, ip: nat) {
    forall d :: d in ds ==> d.ip == ip
  }

  lemma {:induction false} ToOne(ds: seq<Datagram>, from: nat, ip: nat)
    requires AllTo(ds, from)
    ensures To(ds, ip) == if from == ip then ds else []
  {
    if |ds| > 0 { ToOne(ds[..|ds| - 1], from, ip); }
  }

  lemma {:induction false} BlocksTo(c: Client, buffer: bytes, lo: nat, hi: nat)
    requires Servable(c, buffer) && c.tx.inProgress && lo <= hi
    ensures AllTo(SentBlocks(c, buffer, lo, hi), c.ip)
    decreases hi
  {
    hide Response;
    hide BlockReply;
    if lo < hi { BlocksTo(c, buffer, lo, hi - 1); }
  }

  lemma BurstTo(c: Client, buffer: bytes, now: nat)
    requires Servable(c, buffer)
    ensures AllTo(Burst(c, buffer, now), c.ip) && (!c.active ==> Burst(c, buffer, now) == [])
  {
    if !Resting(c, now) && c.tx.hasData && c.tx.frameLen > 0 {
      assert c.tx.nextBlock <= BurstEnd(c);
      BlocksTo(c, buffer, c.tx.nextBlock, BurstEnd(c));
    }
    hide SentBlocks;
    hide BurstEnd;
  }

  /** What slot `j` contributes to a burst of both, as host `ip` sees it. */
  lemma SlotTo(c: Client, buffer: bytes, now: nat, ip: nat, own: bool)
    requires Servable(c, buffer) && (own ==> c.ip == ip) && (!own ==> !c.active || c.ip != ip)
    ensures To(Burst(c, buffer, now), ip) == if own then Burst(c, buffer, now) else []
  {
    BurstTo(c, buffer, now);
    hide Burst;
    ToOne(Burst(c, buffer, now), c.ip, ip);
  }

  lemma TwoTo(cs: seq<Client>, buffer: bytes, now: nat, i: nat)
    requires |cs| == MAX_CLIENTS && i < MAX_CLIENTS && forall c :: c in cs ==> Servable(c, buffer)
    requires OneStreamPerHost(cs) && cs[i].active
    ensures To(Bursts(cs, buffer, now, MAX_CLIENTS), cs[i].ip) == Burst(cs[i], buffer, now)
  {
    var a, b := Burst(cs[0], buffer, now), Burst(cs[1], buffer, now);
    assert cs[0] in cs && cs[1] in cs;
    assert Bursts(cs, buffer, now, 0) == [] && Bursts(cs, buffer, now, 1) == [] + a;
    Concat(a, [], []);
    assert Bursts(cs, buffer, now, 2) == a + b;
    SlotTo(cs[0], buffer, now, cs[i].ip, i == 0);
    SlotTo(cs[1], buffer, now, cs[i].ip, i == 1);
    ToJoin(a, b, cs[i].ip);
    Concat(b, [], []);
    hide Burst;
    hide To;
    hide Servable;
  }

  lemma SameHost(cs: seq<Client>, now: nat, len: nat, etag: nat)
    requires |cs| == MAX_CLIENTS && OneStreamPerHost(cs)
    ensures var ds := ServedAll(cs, now);
            var ls := Launched(ds, len, etag, now);
            && |ds| == |ls| == MAX_CLIENTS && OneStreamPerHost(ds) && OneStreamPerHost(ls)
            && forall i :: 0 <= i < MAX_CLIENTS ==> ls[i].ip == cs[i].ip && ls[i].active == cs[i].active
  {
    hide TotalBlocks;
    hide BurstEnd;
    hide Resting;
    var ds := ServedAll(cs, now);
    SameHosts(cs, ds);
    SameHosts(ds, Launched(ds, len, etag, now));
  }

  /** What a tick sends to a host is what its slot's log is extended by. */
  lemma HostSends(m: Sender, now: nat, cap: Capture, i: nat)
    requires SenderKept(m) && Allowed(m, Tick(now, cap)) && OneStreamPerHost(m.server.streams)
    requires |m.server.streams| == |m.logs| == MAX_CLIENTS && WellKept(m.server) && i < MAX_CLIENTS && m.server.streams[i].active
    requires cap.Captured? ==> |cap.frame| < 0x1_0000_0000
    ensures var t := After(m, Tick(now, cap));
            |t.logs| == MAX_CLIENTS &&
            t.logs[i].sent == m.logs[i].sent + To(TickSends(m.server, now, cap), m.server.streams[i].ip)
  {
    var s := m.server;
    var ip := s.streams[i].ip;
    TwoTo(s.streams, s.buffer, now, i);
    var first := Bursts(s.streams, s.buffer, now, MAX_CLIENTS);
    if TakesFrame(s, now, cap) {
      var cs, etag := ServedAll(s.streams, now), NextETag(s.etag);
      ServedWellKept(s, now);
      ServedQuiet(s, now);
      LaunchedServable(cs, cap.frame, etag, now);
      SameHost(s.streams, now, |cap.frame|, etag);
      var ls := Launched(cs, |cap.frame|, etag, now);
      TwoTo(ls, cap.frame, now, i);
      ToJoin(first, LaunchBursts(cs, cap.frame, etag, now), ip);
      assert TickSends(s, now, cap) == first + LaunchBursts(cs, cap.frame, etag, now);
    } else {
      Concat(first, [], []);
      Concat(Burst(s.streams[i], s.buffer, now), [], []);
      assert TickSends(s, now, cap) == first;
    }
    hide Bursts;
    hide Burst;
    hide To;
    hide Launched;
    hide ServedAll;
    hide SenderKept;
    hide TakesFrame;
    hide Quiet;
    hide Servable;
  }

  /** No second burst in the same millisecond. */
  lemma BurstOnce(c: Client, buffer: bytes, now: nat)
    requires Servable(c, buffer)
    ensures var d := Served(c, now);
            Servable(d, buffer) && Burst(d, buffer, now) == [] && Served(d, now) == d
  {
    hide SentBlocks;
    hide TotalBlocks;
    hide BurstEnd;
    ServedStaysServable(c, buffer, now);
  }

  // ---- from subscription to expiry ----

  /** A new subscriber gets its first frame from the first tick, at 28 ms or later on the clock, that finds
      no other transfer going on and a frame to take: blocks 0 to 5, or all there are, with its token, to its
      address, numbered from the message ID it asked for. */
  lemma SubscriberServed(m: Sender, ip: nat, port: nat, token: bytes, msgId: nat, at: nat, now: nat, frame: bytes)
    requires SenderKept(m) && Allowed(m, Register(ip, port, token, msgId, at))
    requires WellKept(m.server) && |m.logs| == |m.server.streams| == MAX_CLIENTS
    requires 28 <= now < CLOCK && 0 < |frame| < TAGS && |m.captured| + 1 < TAGS
    requires NoneBusy(m.server.streams, now)
    ensures var u := After(m, Register(ip, port, token, msgId, at));
            && WellKept(u.server) && |u.logs| == |u.server.streams| == MAX_CLIENTS && Allowed(u, Tick(now, Captured(frame)))
            && var t, i := After(u, Tick(now, Captured(frame))), SlotFor(m.server.streams, ip, port).0;
              var c := u.server.streams[i];
              && i < |t.logs| && c.ip == ip && c.port == port && c.token == token && c.msgId == msgId && |token| <= 8
              && t.logs[i] == Log(msgId, FrameSent(c, frame, |m.captured| + 1, 0, Least(6, BlocksOf(frame))))
  {
    hide *;
    Newcomer(m, ip, port, token, msgId, at);
    var u := After(m, Register(ip, port, token, msgId, at));
    var i := SlotFor(m.server.streams, ip, port).0;
    var c := u.server.streams[i];
    NewcomerReady(c, u.server.buffer, now);
    CaptureAllowed(u, now, frame);
    NobodyBusy(m.server.streams, u.server.streams, c, now);
    IsReady(u.server.streams, m.server.streams, c, now);
    TickDecides(u.server, now, frame);
    TickStarts(u, now, Captured(frame), i);
    LogOf(u, now, Captured(frame), i);
    SixFirst(frame, now);
    Concat(FrameSent(c, frame, |m.captured| + 1, 0, Least(6, BlocksOf(frame))), [], []);
  }

  ghost predicate OneNew(ds: seq<Client>, cs: seq<Client>, c: Client) {
    c in ds && forall d :: d in ds ==> d == c || d in cs
  }

  lemma Newcomer(m: Sender, ip: nat, port: nat, token: bytes, msgId: nat, at: nat)
    requires SenderKept(m) && Allowed(m, Register(ip, port, token, msgId, at))
    requires WellKept(m.server) && |m.logs| == |m.server.streams| == MAX_CLIENTS
    ensures var u, i := After(m, Register(ip, port, token, msgId, at)), SlotFor(m.server.streams, ip, port).0;
            && SenderKept(u) && WellKept(u.server) && |u.logs| == |u.server.streams| == MAX_CLIENTS && i < MAX_CLIENTS == 2
            && u.captured == m.captured && u.logs[i] == Log(msgId, []) && |token| <= 8
            && var c := u.server.streams[i];
              && OneNew(u.server.streams, m.server.streams, c) && Servable(c, u.server.buffer)
              && c.active && c.ip == ip && c.port == port && c.token == token && c.msgId == msgId
              && !c.tx.inProgress && c.tx.lastFrameMs == 0
  {
    var u := After(m, Register(ip, port, token, msgId, at));
    StepKeeps(m, Register(ip, port, token, msgId, at));
    WellKeptOf(u);
    hide SlotFor;
    hide SenderKept;
  }

  lemma NewcomerReady(c: Client, buffer: bytes, now: nat)
    requires Servable(c, buffer) && c.active && !c.tx.inProgress && c.tx.lastFrameMs == 0 && 28 <= now < CLOCK
    ensures Ready(c, now) && Served(c, now) == c && Burst(c, buffer, now) == []
  {
    RestingIsStill(c, buffer, now);
    hide Served;
    hide Burst;
  }

  lemma CaptureAllowed(m: Sender, now: nat, frame: bytes)
    requires now < CLOCK && |frame| < TAGS && |m.captured| + 1 < TAGS
    ensures Allowed(m, Tick(now, Captured(frame))) && |frame| < 0x1_0000_0000
  {
  }

  lemma NobodyBusy(cs: seq<Client>, ds: seq<Client>, c: Client, now: nat)
    requires NoneBusy(cs, now) && Served(c, now) == c && !c.tx.inProgress && OneNew(ds, cs, c)
    ensures NoneBusy(ds, now)
  {
    hide Served;
  }

  lemma IsReady(ds: seq<Client>, cs: seq<Client>, c: Client, now: nat)
    requires OneNew(ds, cs, c) && Served(c, now) == c && Ready(c, now)
    ensures SomeReady(ds, now)
  {
    hide Served;
    hide Ready;
  }

  lemma SixFirst(frame: bytes, now: nat)
    requires now > 0
    ensures FirstBlocks(frame, now) == Least(6, BlocksOf(frame))
  {
  }

  lemma LogOf(m: Sender, now: nat, cap: Capture, i: nat)
    requires WellKept(m.server) && |m.logs| == MAX_CLIENTS && Allowed(m, Tick(now, cap)) && i < MAX_CLIENTS
    ensures var t := After(m, Tick(now, cap)); |t.logs| == MAX_CLIENTS && t.logs[i].start == m.logs[i].start
  {
    hide SlotSends;
    hide Ticked;
    hide TakesFrame;
  }

  /** The prune leaves a client alone that asked for something at `heard`. */
  predicate Spares(step: SenderStep, heard: nat) {
    step.Prune? ==> heard == 0 || (step.at - heard) % 0x1_0000_0000 <= step.timeout
  }

  /** Slot `i` is taken by no subscription of the steps. */
  ghost predicate Untaken(run: seq<Sender>, steps: seq<SenderStep>, i: nat)
    requires |run| == |steps| + 1
  {
    forall k :: 0 <= k < |steps| && steps[k].Register? && |run[k].server.streams| > 0 ==>
      SlotFor(run[k].server.streams, steps[k].ip, steps[k].port).0 != i
  }

  lemma KeptRequest(m: Sender, step: SenderStep, i: nat)
    requires WellKept(m.server) && |m.logs| == |m.server.streams| == MAX_CLIENTS && Allowed(m, step) && i < MAX_CLIENTS
    requires step.Register? ==> SlotFor(m.server.streams, step.ip, step.port).0 != i
    ensures var c, t := m.server.streams[i], After(m, step).server;
            && |t.streams| == MAX_CLIENTS
            && (t.streams[i].active <==> c.active && step != StopAll && Spares(step, c.lastReqMs))
            && (t.streams[i].active ==> t.streams[i].lastReqMs == c.lastReqMs)
  {
    hide TotalBlocks;
    hide BurstEnd;
    hide Resting;
    hide SlotFor;
    hide SlotSends;
  }

  /** A run from a subscription on. */
  ghost predicate FromSubscription(run: seq<Sender>, steps: seq<SenderStep>) {
    && |run| == |steps| + 1 && |steps| > 0 && SenderKept(run[0]) && steps[0].Register?
    && forall k :: 0 <= k < |steps| ==> Goes(run[k], steps[k], run[k + 1])
  }

  lemma {:induction false} SubscriptionKept(run: seq<Sender>, steps: seq<SenderStep>, n: nat)
    requires FromSubscription(run, steps) && n < |run|
    ensures SenderKept(run[n]) && WellKept(run[n].server) && |run[n].logs| == |run[n].server.streams| == MAX_CLIENTS
    ensures n < |steps| ==> Allowed(run[n], steps[n]) && run[n + 1] == After(run[n], steps[n])
  {
    hide SenderKept;
    hide Goes;
    if n > 0 {
      SubscriptionKept(run, steps, n - 1);
      TickGoes(run[n - 1], steps[n - 1], run[n]);
    }
    if n < |steps| { TickGoes(run[n], steps[n], run[n + 1]); }
    WellKeptOf(run[n]);
  }

  lemma Subscribes(m: Sender, ip: nat, port: nat, token: bytes, msgId: nat, at: nat)
    requires WellKept(m.server) && |m.logs| == |m.server.streams| == MAX_CLIENTS && Allowed(m, Register(ip, port, token, msgId, at))
    ensures var i := SlotFor(m.server.streams, ip, port).0;
            var c := After(m, Register(ip, port, token, msgId, at)).server.streams[i];
            c.active && c.lastReqMs == at
  {
    hide SlotFor;
  }

  /** Over every run from a subscription, until its slot is taken again: the client stays exactly until
      all streams are stopped, or a prune comes more than its timeout after the subscription on the
      32-bit clock. A subscription made at time 0 is never pruned. */
  lemma {:induction false} StaysUntilIdle(run: seq<Sender>, steps: seq<SenderStep>, n: nat)
    requires FromSubscription(run, steps) && |run| == |steps| + 1 && |steps| > 0 && steps[0].Register? && 0 < n < |run|
    requires |run[0].server.streams| == MAX_CLIENTS
    requires Untaken(run[1..], steps[1..], SlotFor(run[0].server.streams, steps[0].ip, steps[0].port).0)
    ensures var i, at := SlotFor(run[0].server.streams, steps[0].ip, steps[0].port).0, steps[0].at;
            && |run[n].server.streams| == MAX_CLIENTS && i < MAX_CLIENTS
            && (run[n].server.streams[i].active <==> forall k :: 0 < k < n ==> steps[k] != StopAll && Spares(steps[k], at))
            && (run[n].server.streams[i].active ==> run[n].server.streams[i].lastReqMs == at)
  {
    SubscriptionKept(run, steps, n - 1);
    SubscriptionKept(run, steps, n);
    var i := SlotFor(run[0].server.streams, steps[0].ip, steps[0].port).0;
    hide FromSubscription;
    hide SenderKept;
    if n == 1 {
      Subscribes(run[0], steps[0].ip, steps[0].port, steps[0].token, steps[0].msgId, steps[0].at);
    } else {
      StaysUntilIdle(run, steps, n - 1);
      assert run[1..][n - 2] == run[n - 1] && steps[1..][n - 2] == steps[n - 1];
      hide SlotFor;
      hide WellKept;
      hide Allowed;
      hide After;
      KeptRequest(run[n - 1], steps[n - 1], i);
    }
  }
}
