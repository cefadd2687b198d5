/** The video link end to end: the camera's server, a network that may drop, duplicate and
    reorder datagrams and hand any of them to anyone, and both receivers. */
module StreamSystem {
  import opened Bytes
  import opened CoapOptions
  import opened CoapServerWire
  import opened CoapReceiverWire
  import opened CoapRoundTrip
  import opened StreamFrames
  import opened StreamServer
  import opened SenderInvariant
  import opened Block2Assembly
  import opened Block2Completion
  import opened CoapReceiver
  import J = JpegAssembler
  import JC = JpegCompletion

  /** `net` holds every datagram ever sent; `shown` what the K1's consumer was handed, `seen` what
      the Python client returned. */
  datatype System = System(sender: Sender, net: set<Datagram>, k1: Receiver, shown: seq<bytes>,
                           py: J.Partial, seen: seq<bytes>)

  datatype Step =
    | Send(step: SenderStep)
    | Answer(ip: nat, port: nat, reply: Reply)
    | Arrive(d: Datagram, now: real, grown: Option<byte>, mallocOk: bool)
    | ArrivePy(d: Datagram, token: bytes, now: real, later: real)
    | TimeOut(now: real)
    | Reconnect
    | Take

  /** Acknowledgements, sensor readings, servo and error replies: anything without a block. */
  ghost predicate PlainReply(r: Reply) {
    Representable(r) && r.block.None? && r.etag == 0
  }

  ghost predicate Possible(s: System, step: Step) {
    match step
    case Send(a) => Allowed(s.sender, a)
    case Answer(_, _, r) => PlainReply(r)
    case Arrive(d, _, _, _) => d in s.net
    case ArrivePy(d, _, _, _) => d in s.net
    case _ => true
  }

  ghost function SentIn(m: Sender, step: SenderStep): (r: seq<Datagram>)
    requires WellKept(m.server) && Allowed(m, step)
  {
    match step
    case Tick(now, cap) => TickSends(m.server, now, cap)
    case _ => []
  }

  ghost predicate InOrder(s: System) {
    WellKept(s.sender.server) && |s.sender.logs| == MAX_CLIENTS && Fits(s.k1.assembly)
  }

  function Showing(fs: seq<bytes>, f: Option<bytes>): (r: seq<bytes>) {
    if f.Some? then fs + [f.value] else fs
  }

  function Returned(f: J.Feed): (r: Option<bytes>) {
    if f.Frame? then Some(f.jpg) else None
  }

  ghost function Next(s: System, step: Step): (r: System)
    requires InOrder(s) && Possible(s, step)
  {
    match step
    case Send(a) => s.(sender := After(s.sender, a), net := s.net + set d | d in SentIn(s.sender, a))
    case Answer(ip, port, r) => s.(net := s.net + {Datagram(ip, port, Response(MAX_PACKET, r))})
    case Arrive(d, now, grown, mallocOk) => s.(k1 := Processed(s.k1, d.data, now, grown, mallocOk))
    case ArrivePy(d, token, now, later) =>
      var (py, f) := J.FeedPacket(s.py, token, d.data, now, later);
      s.(py := py, seen := Showing(s.seen, Returned(f)))
    case TimeOut(now) => s.(k1 := TimedOut(s.k1, now))
    case Reconnect => s.(k1 := s.k1.(assembly := Reset(s.k1.assembly)))
    case Take =>
      var (k1, f) := Taken(s.k1);
      s.(k1 := k1, shown := Showing(s.shown, f))
  }

  // ---- the invariant ----

  /** A response that carries a block of a captured frame. */
  ghost predicate FrameReply(r: Reply, captured: seq<bytes>) {
    && ValidReply(r) && r.block.Some? && 1 <= r.etag <= |captured|
    && IsBlock(Received(r), captured[r.etag - 1], r.etag, DEFAULT_SZX)
  }

  ghost predicate Carries(d: Datagram, r: Reply, captured: seq<bytes>) {
    && Representable(r) && d.data == Response(MAX_PACKET, r)
    && (r.block.None? || FrameReply(r, captured))
  }

  ghost predicate Genuine(d: Datagram, captured: seq<bytes>) {
    exists r :: Carries(d, r, captured)
  }

  ghost predicate AllGenuine(ds: set<Datagram>, captured: seq<bytes>) {
    forall d :: d in ds ==> Genuine(d, captured)
  }

  ghost predicate AssemblyKept(a: Assembly, captured: seq<bytes>) {
    && Fits(a)
    && (a.active ==> 1 <= a.etag <= |captured| && Collecting(a, captured[a.etag - 1], DEFAULT_SZX))
  }

  ghost predicate ReceiverKept(s: Receiver, captured: seq<bytes>) {
    AssemblyKept(s.assembly, captured) && (s.jpeg.Some? ==> s.jpeg.value in captured)
  }

  ghost predicate PartialKept(a: J.Partial, captured: seq<bytes>) {
    a.etag.Some? ==> 1 <= a.etag.value <= |captured| && JC.Holding(a, captured[a.etag.value - 1], DEFAULT_SZX)
  }

  ghost predicate Kept(s: System) {
    var captured := s.sender.captured;
    && SenderKept(s.sender)
    && AllGenuine(s.net, captured)
    && ReceiverKept(s.k1, captured)
    && (forall f :: f in s.shown ==> f in captured)
    && PartialKept(s.py, captured)
    && (forall f :: f in s.seen ==> f in captured)
  }

  // ---- what is sent is genuine ----

  lemma BlockReplyFacts(c: Client, captured: seq<bytes>, buffer: bytes, num: nat)
    requires Servable(c, buffer) && c.tx.inProgress && MidFrame(c, captured, buffer) && |captured| < TAGS
    requires num < TotalBlocks(c) && num * SzxBlockSize(c.tx.szx) < c.tx.frameLen
    ensures var r := BlockReply(c, buffer, num);
            && Representable(r) && |r.payload| <= 1024 && r.block.Some? && r.etag == |captured|
            && r.block.value.num == num < NumBlocks(|buffer|, BlockSize(DEFAULT_SZX))
            && r.block.value.szx == DEFAULT_SZX && r.total == |buffer|
            && (r.block.value.more <==> num + 1 < NumBlocks(|buffer|, BlockSize(DEFAULT_SZX)))
            && r.payload == BlockOf(buffer, num, BlockSize(DEFAULT_SZX))
  {
    DefaultSize();
    BlockInside(num, |buffer|, 1024);
    hide NumBlocks;
  }

  lemma WholePayload(r: Reply)
    requires ValidReply(r) && |r.payload| <= 1024
    ensures CarriedPayload(r) == r.payload
  {
    hide ReplyOptions;
  }

  lemma BlockReplyGenuine(c: Client, captured: seq<bytes>, buffer: bytes, num: nat)
    requires Servable(c, buffer) && c.tx.inProgress && MidFrame(c, captured, buffer) && |captured| < TAGS
    requires num < TotalBlocks(c) && num * SzxBlockSize(c.tx.szx) < c.tx.frameLen
    ensures var r := BlockReply(c, buffer, num); Representable(r) && FrameReply(r, captured)
  {
    BlockReplyFacts(c, captured, buffer, num);
    var r := BlockReply(c, buffer, num);
    hide BlockReply;
    WholePayload(r);
    hide CarriedPayload;
    hide BlockOf;
    hide NumBlocks;
    hide BlockSize;
  }

  lemma SentBlockGenuine(c: Client, captured: seq<bytes>, buffer: bytes, num: nat)
    requires Servable(c, buffer) && c.tx.inProgress && MidFrame(c, captured, buffer) && |captured| < TAGS
    requires num < TotalBlocks(c)
    ensures forall d :: d in SentBlock(c, buffer, num) ==> Genuine(d, captured)
  {
    BlockStarts(c, num);
    BlockReplyGenuine(c, captured, buffer, num);
    hide FrameReply;
    hide Representable;
    hide BlockReply;
    hide Response;
    hide TotalBlocks;
    hide SzxBlockSize;
    var r := BlockReply(c, buffer, num);
    assert Carries(Datagram(c.ip, c.port, Response(MAX_PACKET, r)), r, captured);
  }

  lemma {:induction false} SentBlocksGenuine(c: Client, captured: seq<bytes>, buffer: bytes, lo: nat, hi: nat)
    requires Servable(c, buffer) && c.tx.inProgress && MidFrame(c, captured, buffer) && |captured| < TAGS
    requires lo <= hi <= TotalBlocks(c)
    ensures forall d :: d in SentBlocks(c, buffer, lo, hi) ==> Genuine(d, captured)
    decreases hi
  {
    hide Genuine;
    hide SentBlock;
    hide TotalBlocks;
    if lo < hi {
      SentBlocksGenuine(c, captured, buffer, lo, hi - 1);
      SentBlockGenuine(c, captured, buffer, hi - 1);
    }
  }

  lemma BurstGenuine(c: Client, captured: seq<bytes>, buffer: bytes, now: nat)
    requires Servable(c, buffer) && (c.tx.inProgress ==> MidFrame(c, captured, buffer)) && |captured| < TAGS
    ensures forall d :: d in Burst(c, buffer, now) ==> Genuine(d, captured)
  {
    hide Genuine;
    hide SentBlocks;
    hide TotalBlocks;
    if !Resting(c, now) {
      BurstEndBound(c);
      hide BurstEnd;
      SentBlocksGenuine(c, captured, buffer, c.tx.nextBlock, BurstEnd(c));
    }
  }

  ghost predicate MidFrames(cs: seq<Client>, captured: seq<bytes>, buffer: bytes) {
    forall c :: c in cs ==> Servable(c, buffer) && (c.tx.inProgress ==> MidFrame(c, captured, buffer))
  }

  lemma {:induction false} BurstsGenuine(cs: seq<Client>, captured: seq<bytes>, buffer: bytes, now: nat, n: nat)
    requires n <= |cs| && MidFrames(cs, captured, buffer) && |captured| < TAGS
    ensures forall d :: d in Bursts(cs, buffer, now, n) ==> Genuine(d, captured)
  {
    hide Genuine;
    hide Burst;
    hide MidFrame;
    hide Servable;
    if n > 0 {
      assert cs[n - 1] in cs;
      BurstsGenuine(cs, captured, buffer, now, n - 1);
      BurstGenuine(cs[n - 1], captured, buffer, now);
    }
  }

  lemma LaunchedMidFrames(cs: seq<Client>, captured: seq<bytes>, frame: bytes, now: nat)
    requires Quiet(cs) && 0 < |frame| < TAGS && |captured| + 1 < TAGS
    ensures MidFrames(Launched(cs, |frame|, |captured| + 1, now), captured + [frame], frame)
  {
    var ls := Launched(cs, |frame|, |captured| + 1, now);
    LaunchedServable(cs, frame, |captured| + 1, now);
    hide Servable;
    hide MidFrame;
    forall c | c in ls ensures c.tx.inProgress ==> MidFrame(c, captured + [frame], frame) {
      var i :| 0 <= i < |ls| && ls[i] == c;
      assert cs[i] in cs;
      if Due(cs[i], now) { StartedMidFrame(cs[i], captured, frame); }
    }
  }

  lemma StartedMidFrame(c: Client, captured: seq<bytes>, frame: bytes)
    requires 0 < |frame| < TAGS
    ensures MidFrame(Started(c, |frame|, |captured| + 1), captured + [frame], frame)
  {
    NumBlocksBounds(|frame|, SzxBlockSize(DEFAULT_SZX));
    hide SzxBlockSize;
  }

  lemma SenderMidFrames(m: Sender)
    requires SenderKept(m)
    ensures MidFrames(m.server.streams, m.captured, m.server.buffer)
  {
    var cs := m.server.streams;
    hide MidFrame;
    hide Servable;
    forall c | c in cs ensures c.tx.inProgress ==> MidFrame(c, m.captured, m.server.buffer) {
      var i :| 0 <= i < |cs| && cs[i] == c;
      assert SlotKept(cs[i], m.logs[i], m.captured, m.server.buffer);
    }
  }

  lemma StillGenuine(d: Datagram, captured: seq<bytes>, frame: bytes)
    requires Genuine(d, captured)
    ensures Genuine(d, captured + [frame])
  {
    hide Representable;
    hide IsBlock;
    hide Response;
    hide Received;
    var r :| Carries(d, r, captured);
    assert Carries(d, r, captured + [frame]);
  }

  lemma LaunchGenuine(cs: seq<Client>, captured: seq<bytes>, frame: bytes, now: nat)
    requires Quiet(cs) && 0 < |frame| < TAGS && |captured| + 1 < TAGS
    ensures forall d :: d in LaunchBursts(cs, frame, |captured| + 1, now) ==> Genuine(d, captured + [frame])
  {
    hide Genuine;
    hide Bursts;
    hide MidFrames;
    var ls := Launched(cs, |frame|, |captured| + 1, now);
    LaunchedMidFrames(cs, captured, frame, now);
    LaunchedServable(cs, frame, |captured| + 1, now);
    hide Launched;
    hide Quiet;
    hide Servable;
    BurstsGenuine(ls, captured + [frame], frame, now, |ls|);
  }

  lemma FirstGenuine(m: Sender, now: nat, captured: seq<bytes>)
    requires SenderKept(m) && m.captured <= captured && |captured| <= |m.captured| + 1
    ensures forall d :: d in Bursts(m.server.streams, m.server.buffer, now, MAX_CLIENTS) ==> Genuine(d, captured)
  {
    hide Genuine;
    hide Bursts;
    hide MidFrames;
    SenderMidFrames(m);
    BurstsGenuine(m.server.streams, m.captured, m.server.buffer, now, MAX_CLIENTS);
    hide SenderKept;
    if captured != m.captured {
      assert captured == m.captured + [captured[|m.captured|]];
      forall d | d in Bursts(m.server.streams, m.server.buffer, now, MAX_CLIENTS) ensures Genuine(d, captured) {
        StillGenuine(d, m.captured, captured[|m.captured|]);
      }
    }
  }

  lemma ReadyToLaunch(m: Sender, now: nat, cap: Capture)
    requires SenderKept(m) && Allowed(m, Tick(now, cap)) && TakesFrame(m.server, now, cap)
    ensures Quiet(ServedAll(m.server.streams, now)) && NextETag(m.server.etag) == |m.captured| + 1 < TAGS
    ensures cap.Captured? && 0 < |cap.frame| < TAGS
  {
    hide ServedAll;
    hide WellKept;
    hide SlotKept;
    hide Quiet;
    hide AnyDue;
    hide MidTransfer;
    ServedQuiet(m.server, now);
  }

  lemma LaterGenuine(m: Sender, now: nat, cap: Capture)
    requires SenderKept(m) && Allowed(m, Tick(now, cap)) && TakesFrame(m.server, now, cap)
    ensures Quiet(ServedAll(m.server.streams, now)) && NextETag(m.server.etag) == |m.captured| + 1 < TAGS
    ensures forall d :: d in LaunchBursts(ServedAll(m.server.streams, now), cap.frame, |m.captured| + 1, now) ==>
              Genuine(d, m.captured + [cap.frame])
  {
    hide *;
    ReadyToLaunch(m, now, cap);
    LaunchGenuine(ServedAll(m.server.streams, now), m.captured, cap.frame, now);
  }

  lemma TickGenuine(m: Sender, now: nat, cap: Capture)
    requires SenderKept(m) && Allowed(m, Tick(now, cap))
    ensures var captured := if TakesFrame(m.server, now, cap) then m.captured + [cap.frame] else m.captured;
            forall d :: d in TickSends(m.server, now, cap) ==> Genuine(d, captured)
  {
    hide Genuine;
    hide Bursts;
    hide ServedAll;
    hide LaunchBursts;
    hide AsksForFrame;
    hide WellKept;
    hide SlotKept;
    hide Quiet;
    hide NextETag;
    if TakesFrame(m.server, now, cap) {
      FirstGenuine(m, now, m.captured + [cap.frame]);
      LaterGenuine(m, now, cap);
    } else {
      FirstGenuine(m, now, m.captured);
    }
  }

  // ---- what arrives ----

  /** What the K1's parser and the Python parser make of a genuine datagram. */
  lemma GenuineRead(d: Datagram, captured: seq<bytes>) returns (r: Reply)
    requires Genuine(d, captured)
    ensures ValidReply(r) && Representable(r) && (r.block.None? || FrameReply(r, captured))
    ensures ParseResponse(d.data) == Some(Received(r))
    ensures d.data == Response(MAX_PACKET, r)
  {
    hide FrameReply;
    hide Response;
    hide Received;
    hide ParseResponse;
    r :| Carries(d, r, captured);
    ResponseRoundTrip(r);
  }

  lemma PresentBlock(r: Reply)
    requires ValidReply(r)
    ensures OPT_BLOCK2 in Received(r).present <==> r.block.Some?
    ensures Received(r).etag == r.etag
  {
    hide CarriedPayload;
  }

  lemma FrameReplyIs(r: Reply, captured: seq<bytes>)
    requires FrameReply(r, captured)
    ensures ValidReply(r) && 1 <= Received(r).etag <= |captured|
    ensures IsBlock(Received(r), captured[Received(r).etag - 1], Received(r).etag, DEFAULT_SZX)
  {
    PresentBlock(r);
    hide Received;
    hide IsBlock;
  }

  /** A block fed to the assembler. */
  lemma AddKept(a: Assembly, r: CoapResponse, captured: seq<bytes>, now: real, grown: Option<byte>)
    requires AssemblyKept(a, captured)
    requires 1 <= r.etag <= |captured| && IsBlock(r, captured[r.etag - 1], r.etag, DEFAULT_SZX)
    ensures var (b, out) := AddBlock(a, r, now, grown);
            && AssemblyKept(b, captured)
            && (out == Complete ==> b.totalSize <= |b.data| && b.data[..b.totalSize] in captured)
  {
    hide IsBlock;
    hide AddBlock;
    hide Collecting;
    AddBlockFits(a, r, now, grown);
    AddBlockSafe(a, r, captured[r.etag - 1], DEFAULT_SZX, now, grown);
  }

  lemma ProcessedKept(s: Receiver, captured: seq<bytes>, data: bytes, r: CoapResponse, now: real, grown: Option<byte>, mallocOk: bool)
    requires ReceiverKept(s, captured) && ParseResponse(data) == Some(r)
    requires IsStream(r) ==> 1 <= r.etag <= |captured| && IsBlock(r, captured[r.etag - 1], r.etag, DEFAULT_SZX)
    ensures ReceiverKept(Processed(s, data, now, grown, mallocOk), captured)
  {
    hide ParseResponse;
    hide IsBlock;
    hide AddBlock;
    hide Collecting;
    hide IsStream;
    hide StartsJpeg;
    if IsStream(r) { AddKept(s.assembly, r, captured, now, grown); }
  }

  lemma NotStream(r: Reply)
    requires ValidReply(r) && r.block.None?
    ensures !IsStream(Received(r))
  {
    PresentBlock(r);
    hide Received;
  }

  lemma KeptFits(s: Receiver, captured: seq<bytes>)
    requires ReceiverKept(s, captured)
    ensures Fits(s.assembly)
  {
  }

  lemma ArriveKept(s: Receiver, captured: seq<bytes>, d: Datagram, now: real, grown: Option<byte>, mallocOk: bool)
    requires ReceiverKept(s, captured) && Genuine(d, captured)
    ensures Fits(s.assembly) && ReceiverKept(Processed(s, d.data, now, grown, mallocOk), captured)
  {
    hide *;
    KeptFits(s, captured);
    var reply := GenuineRead(d, captured);
    if reply.block.None? { NotStream(reply); } else { FrameReplyIs(reply, captured); }
    ProcessedKept(s, captured, d.data, Received(reply), now, grown, mallocOk);
  }

  lemma PyBlock(r: Reply, captured: seq<bytes>)
    requires Representable(r) && FrameReply(r, captured)
    ensures r.etag != 0 && r.total > 0 && Received(r).size2 == r.total && Received(r).payload == CarriedPayload(r)
    ensures var b := Received(r); b.num == r.block.value.num && b.more == r.block.value.more && b.szx == r.block.value.szx
  {
    hide CarriedPayload;
    hide BlockOf;
    hide NumBlocks;
  }

  /** The Python parser sees the block that the K1's parser sees. */
  lemma PyFeed(a: J.Partial, r: Reply, captured: seq<bytes>, token: bytes, now: real, later: real)
    requires Representable(r) && FrameReply(r, captured)
    ensures var a1 := if a.startedAt != 0.0 && now - a.startedAt > J.FRAME_STALE then J.EMPTY else a;
            J.FeedPacket(a, token, Response(MAX_PACKET, r), now, later) ==
            if r.token != token then (a1, J.NoFrame) else JC.FedBlock(a1, Received(r), later)
  {
    PyBlock(r, captured);
    PresentBlock(r);
    JC.PacketRoundTrip(r);
    Block2RoundTrip(r.block.value);
    hide FrameReply;
    hide Response;
    hide Received;
    hide CarriedPayload;
    hide Block2Value;
    hide BigEndian;
    hide J.ParsePacket;
    hide J.FeedBlock;
    hide J.WithFields;
  }

  lemma PyPlain(a: J.Partial, r: Reply, token: bytes, now: real, later: real)
    requires Representable(r) && r.block.None?
    ensures var (b, f) := J.FeedPacket(a, token, Response(MAX_PACKET, r), now, later);
            (b == a || b == J.EMPTY) && f == J.NoFrame
  {
    JC.PacketRoundTrip(r);
    hide Response;
    hide CarriedPayload;
    hide J.ParsePacket;
    hide J.WithFields;
  }

  lemma FedKept(a: J.Partial, r: CoapResponse, captured: seq<bytes>, later: real)
    requires 1 <= r.etag <= |captured| && IsBlock(r, captured[r.etag - 1], r.etag, DEFAULT_SZX)
    requires PartialKept(a, captured)
    ensures var (b, f) := JC.FedBlock(a, r, later);
            PartialKept(b, captured) && !f.Raises? && (f.Frame? ==> f.jpg in captured)
  {
    hide IsBlock;
    hide JC.FedBlock;
    hide JC.Holding;
    JC.FeedBlockSafe(a, r, captured[r.etag - 1], DEFAULT_SZX, later);
  }

  lemma ArrivePyKept(a: J.Partial, captured: seq<bytes>, d: Datagram, token: bytes, now: real, later: real)
    requires PartialKept(a, captured) && Genuine(d, captured)
    ensures var (b, f) := J.FeedPacket(a, token, d.data, now, later);
            PartialKept(b, captured) && !f.Raises? && (f.Frame? ==> f.jpg in captured)
  {
    hide Genuine;
    hide Representable;
    hide Response;
    hide Received;
    hide FrameReply;
    hide ValidReply;
    hide J.FeedPacket;
    hide JC.FedBlock;
    hide JC.Holding;
    hide ParseResponse;
    var r := GenuineRead(d, captured);
    if r.block.None? {
      PyPlain(a, r, token, now, later);
    } else {
      PyFeed(a, r, captured, token, now, later);
      var a1 := if a.startedAt != 0.0 && now - a.startedAt > J.FRAME_STALE then J.EMPTY else a;
      hide PartialKept;
      assert PartialKept(a1, captured) by { EmptyKept(captured); }
      EmptyKept(captured);
      if r.token == token {
        FrameReplyIs(r, captured);
        FedKept(a1, Received(r), captured, later);
      }
    }
  }

  lemma EmptyKept(captured: seq<bytes>)
    ensures PartialKept(J.EMPTY, captured)
  {
  }

  // ---- steps and runs ----

  /** A new capture changes nothing for what is under way. */
  lemma CapturedMore(s: System, captured: seq<bytes>)
    requires s.sender.captured <= captured
    requires AssemblyKept(s.k1.assembly, s.sender.captured) && PartialKept(s.py, s.sender.captured)
    ensures AssemblyKept(s.k1.assembly, captured) && PartialKept(s.py, captured)
    ensures forall f :: f in s.sender.captured ==> f in captured
  {
    hide Collecting;
    hide JC.Holding;
    hide Fits;
  }

  lemma NetMore(net: set<Datagram>, captured: seq<bytes>, captured': seq<bytes>)
    requires AllGenuine(net, captured) && captured <= captured' && |captured'| <= |captured| + 1
    ensures AllGenuine(net, captured')
  {
    hide Genuine;
    if captured != captured' {
      assert captured' == captured + [captured'[|captured|]];
      forall d | d in net ensures Genuine(d, captured') { StillGenuine(d, captured, captured'[|captured|]); }
    }
  }

  lemma AfterCaptured(m: Sender, step: SenderStep)
    requires SenderKept(m) && Allowed(m, step)
    ensures var c := After(m, step).captured; m.captured <= c && |c| <= |m.captured| + 1
    ensures forall d :: d in SentIn(m, step) ==> Genuine(d, After(m, step).captured)
  {
    hide Genuine;
    hide TickSends;
    hide SlotSends;
    hide Ticked;
    hide Registered;
    hide SlotFor;
    hide Pruned;
    hide Stopped;
    hide SenderKept;
    hide TakesFrame;
    if step.Tick? { TickGenuine(m, step.now, step.cap); }
  }

  lemma SendKept(s: System, step: SenderStep)
    requires Kept(s) && Allowed(s.sender, step) && InOrder(s)
    ensures Kept(Next(s, Send(step)))
  {
    hide SenderKept;
    hide Allowed;
    hide AssemblyKept;
    hide PartialKept;
    hide Genuine;
    hide After;
    hide SentIn;
    hide WellKept;
    StepKeeps(s.sender, step);
    AfterCaptured(s.sender, step);
    var captured := After(s.sender, step).captured;
    CapturedMore(s, captured);
    NetMore(s.net, s.sender.captured, captured);
  }

  lemma AnswerKept(s: System, ip: nat, port: nat, r: Reply)
    requires Kept(s) && PlainReply(r) && InOrder(s)
    ensures Kept(Next(s, Answer(ip, port, r)))
  {
    hide SenderKept;
    hide AssemblyKept;
    hide PartialKept;
    assert ValidReply(r);
    hide Representable;
    hide Response;
    hide WellKept;
    var d := Datagram(ip, port, Response(MAX_PACKET, r));
    assert Carries(d, r, s.sender.captured);
    hide Carries;
  }

  lemma ReceiverStepKept(s: System, step: Step)
    requires Kept(s) && Possible(s, step) && InOrder(s) && !step.Send? && !step.Answer?
    ensures Kept(Next(s, step))
  {
    hide SenderKept;
    hide Genuine;
    hide PlainReply;
    hide J.FeedPacket;
    hide JC.Holding;
    hide Processed;
    hide Collecting;
    hide WellKept;
    match step
    case Arrive(d, now, grown, mallocOk) =>
      ArriveKept(s.k1, s.sender.captured, d, now, grown, mallocOk);
    case ArrivePy(d, token, now, later) =>
      ArrivePyKept(s.py, s.sender.captured, d, token, now, later);
    case _ =>
  }

  lemma StepKept(s: System, step: Step)
    requires Kept(s) && Possible(s, step) && InOrder(s)
    ensures Kept(Next(s, step))
  {
    hide Kept;
    hide InOrder;
    hide Next;
    match step
    case Send(a) => SendKept(s, a);
    case Answer(ip, port, r) => AnswerKept(s, ip, port, r);
    case _ => ReceiverStepKept(s, step);
  }

  lemma KeptInOrder(s: System)
    requires Kept(s)
    ensures InOrder(s)
  {
  }

  ghost predicate Starting(s: System) {
    && s.sender == SWITCHED_ON && s.net == {} && s.shown == [] && s.seen == [] && s.py == J.EMPTY
    && !s.k1.assembly.active && s.k1.jpeg == None
  }

  /** A run of the whole link. A state out of order is not given a meaning; none occurs. */
  ghost predicate Run(run: seq<System>, steps: seq<Step>) {
    && |run| == |steps| + 1 && Starting(run[0])
    && forall i :: 0 <= i < |steps| ==> Moves(run[i], steps[i], run[i + 1])
  }

  ghost predicate Moves(s: System, step: Step, t: System) {
    Possible(s, step) && (InOrder(s) ==> t == Next(s, step))
  }

  lemma StartKept(s: System)
    requires Starting(s)
    ensures Kept(s)
  {
    SenderInvariant.StartKept();
    hide SenderKept;
  }

  lemma {:induction false} RunKept(run: seq<System>, steps: seq<Step>, i: nat)
    requires Run(run, steps) && i < |run|
    ensures Kept(run[i]) && InOrder(run[i])
  {
    hide Kept;
    hide InOrder;
    hide Next;
    hide Possible;
    if i == 0 {
      StartKept(run[0]);
    } else {
      RunKept(run, steps, i - 1);
      assert Moves(run[i - 1], steps[i - 1], run[i]);
      StepKept(run[i - 1], steps[i - 1]);
    }
    KeptInOrder(run[i]);
  }

  /** End-to-end safety. However ticks, registrations, prunes, answers, arrivals, time-outs and
      reconnects interleave, and whatever the network loses, repeats or reorders: every JPEG that
      the K1 publishes or hands over, and every JPEG that the Python client returns, is byte for
      byte a frame the camera captured, and the Python client never raises. */
  lemma StreamSafety(run: seq<System>, steps: seq<Step>, i: nat)
    requires Run(run, steps) && i < |run|
    ensures forall f :: f in run[i].shown ==> f in run[i].sender.captured
    ensures run[i].k1.jpeg.Some? ==> run[i].k1.jpeg.value in run[i].sender.captured
    ensures forall f :: f in run[i].seen ==> f in run[i].sender.captured
    ensures i < |steps| && steps[i].ArrivePy? ==>
              !J.FeedPacket(run[i].py, steps[i].token, steps[i].d.data, steps[i].now, steps[i].later).1.Raises?
  {
    RunKept(run, steps, i);
    hide SenderKept;
    hide AssemblyKept;
    hide PartialKept;
    hide Genuine;
    hide InOrder;
    hide J.FeedPacket;
    if i < |steps| && steps[i].ArrivePy? {
      assert Moves(run[i], steps[i], run[i + 1]);
      ArrivePyKept(run[i].py, run[i].sender.captured, steps[i].d, steps[i].token, steps[i].now, steps[i].later);
    }
  }
}
