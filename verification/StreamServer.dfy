/** The camera's stream server (receive/coap_server.h): two clients share one captured
    frame, each with its own progress through the blocks. */
module StreamServer {
  import opened Bytes
  import opened CoapOptions
  import opened CoapServerWire
  import opened StreamFrames

  const MAX_CLIENTS := 2
  const FRAME_GAP_MS := 28
  const BLOCK_GAP_MS := 1
  const BLOCKS_PER_TICK := 6
  const DEFAULT_SZX := 6
  const FMT_JPEG: byte := 22
  const CLOCK := 0x1_0000_0000
  const IDS := 0x1_0000

  datatype Tx = Tx(inProgress: bool, hasData: bool, frameLen: nat, nextBlock: nat, etag: nat, szx: nat,
                   lastBlockMs: nat, lastFrameMs: nat)
  datatype Client = Client(active: bool, busy: bool, ip: nat, port: nat, token: bytes, msgId: nat,
                           lastReqMs: nat, tx: Tx)
  datatype Server = Server(streams: seq<Client>, etag: nat, buffer: bytes)
  datatype Datagram = Datagram(ip: nat, port: nat, data: bytes)

  /** What the camera delivers into the shared buffer; a failed capture may leave anything there. */
  datatype Capture = Failed(left: bytes) | Captured(frame: bytes)

  /** Milliseconds between two readings of the 32-bit clock. */
  function Elapsed(now: nat, since: nat): (n: nat) {
    (now - since) % CLOCK
  }

  function SzxBlockSize(szx: nat): (b: nat)
    ensures b > 0
  {
    BlockSize(if szx > 6 then 6 else szx)
  }

  lemma DefaultSize()
    ensures BlockSize(DEFAULT_SZX) == SzxBlockSize(DEFAULT_SZX) == 1024
  {
    assert BlockSize(2) == 64;
    assert BlockSize(4) == 256;
  }

  function EmptyTx(): (r: Tx) {
    Tx(false, false, 0, 0, 0, DEFAULT_SZX, 0, 0)
  }

  const IDLE := Client(false, false, 0, 0, [], 0, 0, Tx(false, false, 0, 0, 0, 0, 0, 0))

  function Deactivated(c: Client): (r: Client) {
    c.(active := false, busy := false, tx := EmptyTx())
  }

  /** The client can be served out of the shared buffer. */
  ghost predicate Servable(c: Client, buffer: bytes) {
    && |c.token| <= 8
    && c.tx.etag < 0x1_0000_0000
    && (c.tx.inProgress ==> c.tx.frameLen <= |buffer| && c.tx.frameLen < 0x1_0000_0000)
  }

  // ---- blocks ----

  /** One block of the transfer; nothing when it lies beyond the frame. */
  ghost function BlockReply(c: Client, buffer: bytes, num: nat): (r: Reply)
    requires Servable(c, buffer) && c.tx.inProgress && num * SzxBlockSize(c.tx.szx) < c.tx.frameLen
    ensures ValidReply(r)
  {
    var size := SzxBlockSize(c.tx.szx);
    var offset := num * size;
    var len := if c.tx.frameLen - offset > size then size else c.tx.frameLen - offset;
    Reply(TYPE_NON, CODE_CONTENT, (c.msgId + num) % IDS, c.token, c.tx.etag, FMT_JPEG,
          Some(BlockField(num, offset + len < c.tx.frameLen, c.tx.szx)), c.tx.frameLen, buffer[offset..offset + len])
  }

  ghost function SentBlock(c: Client, buffer: bytes, num: nat): (r: seq<Datagram>)
    requires Servable(c, buffer) && c.tx.inProgress
  {
    if num * SzxBlockSize(c.tx.szx) >= c.tx.frameLen then []
    else [Datagram(c.ip, c.port, Response(MAX_PACKET, BlockReply(c, buffer, num)))]
  }

  ghost function SentBlocks(c: Client, buffer: bytes, lo: nat, hi: nat): (r: seq<Datagram>)
    requires Servable(c, buffer) && c.tx.inProgress && lo <= hi
    decreases hi
  {
    if lo == hi then [] else SentBlocks(c, buffer, lo, hi - 1) + SentBlock(c, buffer, hi - 1)
  }

  function TotalBlocks(c: Client): (n: nat) {
    NumBlocks(c.tx.frameLen, SzxBlockSize(c.tx.szx))
  }

  /** Not served now: not in a transfer, or within the gap between bursts. */
  predicate Resting(c: Client, now: nat) {
    !c.active || !c.tx.inProgress || c.busy || Elapsed(now, c.tx.lastBlockMs) < BLOCK_GAP_MS
  }

  function BurstEnd(c: Client): (n: nat) {
    var total := TotalBlocks(c);
    if c.tx.nextBlock >= total then c.tx.nextBlock
    else if c.tx.nextBlock + BLOCKS_PER_TICK < total then c.tx.nextBlock + BLOCKS_PER_TICK else total
  }

  /** The client after its burst. */
  function Served(c: Client, now: nat): (r: Client) {
    if Resting(c, now) then c
    else if !c.tx.hasData || c.tx.frameLen == 0 then c.(tx := c.tx.(inProgress := false))
    else
      var total, end := TotalBlocks(c), BurstEnd(c);
      var d := c.(tx := c.tx.(nextBlock := end, lastBlockMs := now));
      if end < total then d
      else d.(msgId := (c.msgId + total) % IDS, tx := d.tx.(inProgress := false, lastFrameMs := now))
  }

  ghost function Burst(c: Client, buffer: bytes, now: nat): (r: seq<Datagram>)
    requires Servable(c, buffer)
  {
    if Resting(c, now) || !c.tx.hasData || c.tx.frameLen == 0 then []
    else SentBlocks(c, buffer, c.tx.nextBlock, BurstEnd(c))
  }

  /** The busy flag does not show in what is sent. */
  lemma BusyIsSilent(c: Client, buffer: bytes)
    requires Servable(c, buffer) && c.tx.inProgress
    ensures var b := c.(busy := true);
            && Servable(b, buffer) && TotalBlocks(b) == TotalBlocks(c) && BurstEnd(b) == BurstEnd(c)
            && c.tx.nextBlock <= BurstEnd(c)
            && SentBlocks(b, buffer, c.tx.nextBlock, BurstEnd(c)) == SentBlocks(c, buffer, c.tx.nextBlock, BurstEnd(c))
  {
    hide Response;
    BusyBlocks(c, buffer, c.tx.nextBlock, BurstEnd(c));
  }

  lemma BusyBlock(c: Client, buffer: bytes, num: nat)
    requires Servable(c, buffer) && c.tx.inProgress
    ensures SentBlock(c.(busy := true), buffer, num) == SentBlock(c, buffer, num)
  {
    hide Response;
    hide SzxBlockSize;
    if num * SzxBlockSize(c.tx.szx) < c.tx.frameLen {
      assert BlockReply(c.(busy := true), buffer, num) == BlockReply(c, buffer, num);
    }
  }

  lemma {:induction false} BusyBlocks(c: Client, buffer: bytes, lo: nat, hi: nat)
    requires Servable(c, buffer) && c.tx.inProgress && lo <= hi
    ensures SentBlocks(c.(busy := true), buffer, lo, hi) == SentBlocks(c, buffer, lo, hi)
    decreases hi
  {
    hide SentBlock;
    if lo < hi {
      BusyBlocks(c, buffer, lo, hi - 1);
      BusyBlock(c, buffer, hi - 1);
    }
  }

  lemma RestingIsStill(c: Client, buffer: bytes, now: nat)
    requires Servable(c, buffer) && !c.tx.inProgress
    ensures Served(c, now) == c && Burst(c, buffer, now) == []
  {
  }

  // ---- one tick ----

  function ServedAll(cs: seq<Client>, now: nat): (r: seq<Client>)
    ensures |r| == |cs|
  {
    seq(|cs|, i requires 0 <= i < |cs| => Served(cs[i], now))
  }

  ghost function Bursts(cs: seq<Client>, buffer: bytes, now: nat, n: nat): (r: seq<Datagram>)
    requires n <= |cs| && forall c :: c in cs ==> Servable(c, buffer)
  {
    if n == 0 then [] else Bursts(cs, buffer, now, n - 1) + Burst(cs[n - 1], buffer, now)
  }

  predicate MidTransfer(cs: seq<Client>) {
    exists i :: 0 <= i < |cs| && cs[i].active && cs[i].tx.inProgress
  }

  predicate Due(c: Client, now: nat) {
    c.active && Elapsed(now, c.tx.lastFrameMs) >= FRAME_GAP_MS
  }

  predicate AnyDue(cs: seq<Client>, now: nat) {
    exists i :: 0 <= i < |cs| && Due(cs[i], now)
  }

  function Started(c: Client, len: nat, etag: nat): (r: Client) {
    c.(tx := c.tx.(hasData := true, frameLen := len, nextBlock := 0, etag := etag, szx := DEFAULT_SZX,
                   inProgress := true, lastBlockMs := 0))
  }

  function Launched(cs: seq<Client>, len: nat, etag: nat, now: nat): (r: seq<Client>)
    ensures |r| == |cs|
  {
    seq(|cs|, i requires 0 <= i < |cs| => if Due(cs[i], now) then Started(cs[i], len, etag) else cs[i])
  }

  /** Does this tick go as far as asking the camera for a frame? */
  predicate AsksForFrame(s: Server, now: nat) {
    var cs := ServedAll(s.streams, now);
    !MidTransfer(cs) && AnyDue(cs, now)
  }

  function NextETag(etag: nat): (n: nat) {
    (etag + 1) % 0x1_0000_0000
  }

  function Ticked(s: Server, now: nat, cap: Capture): (r: Server) {
    var cs := ServedAll(s.streams, now);
    if !AsksForFrame(s, now) then s.(streams := cs)
    else match cap
      case Failed(left) => s.(streams := cs, buffer := left)
      case Captured(frame) =>
        if |frame| == 0 then s.(streams := cs, buffer := frame)
        else
          var etag := NextETag(s.etag);
          Server(ServedAll(Launched(cs, |frame|, etag, now), now), etag, frame)
  }

  predicate TakesFrame(s: Server, now: nat, cap: Capture) {
    AsksForFrame(s, now) && cap.Captured? && |cap.frame| > 0
  }

  ghost predicate AllServable(s: Server) {
    && |s.streams| == MAX_CLIENTS
    && forall c :: c in s.streams ==> Servable(c, s.buffer)
  }

  lemma ServedStaysServable(c: Client, buffer: bytes, now: nat)
    requires Servable(c, buffer)
    ensures Servable(Served(c, now), buffer)
  {
  }

  /** No client is in a transfer. */
  ghost predicate Quiet(cs: seq<Client>) {
    && !MidTransfer(cs)
    && forall c :: c in cs ==> !c.busy && |c.token| <= 8 && c.tx.etag < 0x1_0000_0000 && (c.active || !c.tx.inProgress)
  }

  lemma LaunchedServable(cs: seq<Client>, frame: bytes, etag: nat, now: nat)
    requires |frame| < 0x1_0000_0000 && etag < 0x1_0000_0000 && Quiet(cs)
    ensures forall c :: c in Launched(cs, |frame|, etag, now) ==> Servable(c, frame)
  {
    var ls := Launched(cs, |frame|, etag, now);
    forall c | c in ls ensures Servable(c, frame) {
      var i :| 0 <= i < |ls| && ls[i] == c;
      assert cs[i] in cs;
    }
  }

  /** What the clients that start on a fresh frame are sent at once. */
  /** One slot of the last loop. */
  lemma LaunchedAt(cs: seq<Client>, frame: bytes, etag: nat, now: nat, i: nat)
    requires |frame| < 0x1_0000_0000 && etag < 0x1_0000_0000 && Quiet(cs) && i < |cs|
    ensures var d := Launched(cs, |frame|, etag, now)[i];
            && Servable(d, frame) && d == (if Due(cs[i], now) then Started(cs[i], |frame|, etag) else cs[i])
            && (!Due(cs[i], now) ==> Served(d, now) == d && Burst(d, frame, now) == [])
  {
    var ls := Launched(cs, |frame|, etag, now);
    LaunchedServable(cs, frame, etag, now);
    assert cs[i] in cs && ls[i] in ls;
    if !Due(cs[i], now) { RestingIsStill(cs[i], frame, now); }
    hide Served;
    hide Burst;
  }

  ghost function LaunchBursts(cs: seq<Client>, frame: bytes, etag: nat, now: nat): (r: seq<Datagram>)
    requires |frame| < 0x1_0000_0000 && etag < 0x1_0000_0000 && Quiet(cs)
  {
    LaunchedServable(cs, frame, etag, now);
    var ls := Launched(cs, |frame|, etag, now);
    Bursts(ls, frame, now, |ls|)
  }

  /** Slots as the server keeps them between calls. */
  ghost predicate WellKept(s: Server) {
    && AllServable(s)
    && s.etag < 0x1_0000_0000
    && forall c :: c in s.streams ==> c.lastReqMs < CLOCK && !c.busy && (c.active || !c.tx.inProgress)
  }

  lemma ServedWellKept(s: Server, now: nat)
    requires WellKept(s)
    ensures WellKept(s.(streams := ServedAll(s.streams, now)))
  {
    var cs := ServedAll(s.streams, now);
    forall c | c in cs ensures Servable(c, s.buffer) && c.lastReqMs < CLOCK && !c.busy && (c.active || !c.tx.inProgress) {
      var i :| 0 <= i < |cs| && cs[i] == c;
      assert s.streams[i] in s.streams;
      ServedStaysServable(s.streams[i], s.buffer, now);
    }
  }

  lemma ServedQuiet(s: Server, now: nat)
    requires WellKept(s) && !MidTransfer(ServedAll(s.streams, now))
    ensures Quiet(ServedAll(s.streams, now))
  {
    ServedWellKept(s, now);
  }

  /** Everything one tick sends: the first loop's bursts, then those of a fresh frame. */
  ghost function TickSends(s: Server, now: nat, cap: Capture): (r: seq<Datagram>)
    requires WellKept(s) && (cap.Captured? ==> |cap.frame| < 0x1_0000_0000)
  {
    Bursts(s.streams, s.buffer, now, MAX_CLIENTS) +
    if TakesFrame(s, now, cap) then
      ServedWellKept(s, now);
      LaunchBursts(ServedAll(s.streams, now), cap.frame, NextETag(s.etag), now)
    else []
  }

  // ---- registration and expiry ----

  function FindByAddr(cs: seq<Client>, ip: nat, port: nat, i: nat): (r: nat)
    requires i <= |cs|
    ensures i <= r <= |cs|
    decreases |cs| - i
  {
    if i == |cs| || (cs[i].active && cs[i].ip == ip && cs[i].port == port) then i else FindByAddr(cs, ip, port, i + 1)
  }

  function FindByIp(cs: seq<Client>, ip: nat, i: nat): (r: nat)
    requires i <= |cs|
    ensures i <= r <= |cs|
    decreases |cs| - i
  {
    if i == |cs| || (cs[i].active && cs[i].ip == ip) then i else FindByIp(cs, ip, i + 1)
  }

  function FindFree(cs: seq<Client>, i: nat): (r: nat)
    requires i <= |cs|
    ensures i <= r <= |cs|
    decreases |cs| - i
  {
    if i == |cs| || !cs[i].active then i else FindFree(cs, i + 1)
  }

  function Oldest(cs: seq<Client>, n: nat): (r: nat)
    requires 0 < n <= |cs|
    ensures r < n
  {
    if n == 1 then 0
    else
      var o := Oldest(cs, n - 1);
      if cs[n - 1].lastReqMs < cs[o].lastReqMs then n - 1 else o
  }

  /** The slot a subscription takes, and whether it renews the transfer state there. */
  function SlotFor(cs: seq<Client>, ip: nat, port: nat): (r: (nat, bool))
    requires |cs| > 0
    ensures r.0 < |cs|
  {
    var a := FindByAddr(cs, ip, port, 0);
    if a < |cs| then (a, true)
    else
      var b := FindByIp(cs, ip, 0);
      if b < |cs| then (b, false)
      else
        var f := FindFree(cs, 0);
        if f < |cs| then (f, false) else (Oldest(cs, |cs|), false)
  }

  function Subscribed(c: Client, renew: bool, ip: nat, port: nat, token: bytes, msgId: nat, now: nat): (r: Client) {
    Client(true, false, ip, port, token, msgId, now,
           if renew then c.tx.(inProgress := false, lastFrameMs := 0, lastBlockMs := 0) else EmptyTx())
  }

  function Registered(s: Server, ip: nat, port: nat, token: bytes, msgId: nat, now: nat): (r: Server)
    requires |s.streams| > 0
  {
    var (i, renew) := SlotFor(s.streams, ip, port);
    s.(streams := s.streams[i := Subscribed(s.streams[i], renew, ip, port, token, msgId, now)])
  }

  predicate Expired(c: Client, now: nat, timeout: nat) {
    c.active && c.lastReqMs != 0 && Elapsed(now, c.lastReqMs) > timeout
  }

  function Pruned(s: Server, now: nat, timeout: nat): (r: Server) {
    s.(streams := seq(|s.streams|, i requires 0 <= i < |s.streams| =>
         if Expired(s.streams[i], now, timeout) then Deactivated(s.streams[i]) else s.streams[i]))
  }

  function Stopped(s: Server): (r: Server) {
    s.(streams := seq(|s.streams|, i requires 0 <= i < |s.streams| => Deactivated(s.streams[i])))
  }

  // ---- the server object ----

  class CoapServer {
    const streams: array<Client>
    var etag: nat
    var buffer: bytes
    var sent: seq<Datagram>

    ghost function State(): (r: Server)
      reads this, streams
    {
      Server(streams[..], etag, buffer)
    }

    constructor ()
      ensures fresh(streams) && streams.Length == MAX_CLIENTS
      ensures State() == Server([IDLE, IDLE], 0, []) && sent == []
    {
      streams := new Client[MAX_CLIENTS](_ => IDLE);
      etag, buffer, sent := 0, [], [];
    }

    /** The packet is built in a buffer of its own and handed to the socket. */
    method SendBlock(c: Client, num: nat)
      requires Servable(c, buffer) && c.tx.inProgress
      modifies this`sent
      ensures sent == old(sent) + SentBlock(c, buffer, num)
    {
      hide Response;
      hide SzxBlockSize;
      var size := SzxBlockSize(c.tx.szx);
      var offset := num * size;
      if offset >= c.tx.frameLen { return; }
      var remaining := c.tx.frameLen - offset;
      var len := if remaining > size then size else remaining;
      var more := offset + len < c.tx.frameLen;
      var r := Reply(TYPE_NON, CODE_CONTENT, (c.msgId + num) % IDS, c.token, c.tx.etag, FMT_JPEG,
                     Some(BlockField(num, more, c.tx.szx)), c.tx.frameLen, buffer[offset..offset + len]);
      assert r == BlockReply(c, buffer, num);
      hide BlockReply;
      var tx := new byte[MAX_PACKET](_ => 0);
      var n := BuildResponse(tx, MAX_PACKET, r);
      if n <= 0 { return; }
      sent := sent + [Datagram(c.ip, c.port, tx[..n])];
    }

    /** Up to six blocks from where the transfer stands. */
    method SendBurst(i: nat, c: Client, total: nat) returns (next: nat)
      requires i < streams.Length && streams[i] == c && Servable(c, buffer) && c.tx.inProgress
      requires total == TotalBlocks(c)
      modifies this`sent, streams
      ensures next == BurstEnd(c)
      ensures streams[..] == old(streams[..])[i := c.(tx := c.tx.(nextBlock := next))]
      ensures sent == old(sent) + SentBlocks(c, buffer, c.tx.nextBlock, next)
    {
      hide SentBlock;
      hide TotalBlocks;
      var n := 0;
      next := c.tx.nextBlock;
      Concat(sent, [], []);
      while n < BLOCKS_PER_TICK && next < total
        invariant n <= BLOCKS_PER_TICK && next == c.tx.nextBlock + n
        invariant n > 0 ==> next <= total
        invariant streams[..] == old(streams[..])[i := c.(tx := c.tx.(nextBlock := next))]
        invariant sent == old(sent) + SentBlocks(c, buffer, c.tx.nextBlock, next)
        invariant etag == old(etag) && buffer == old(buffer)
        decreases BLOCKS_PER_TICK - n
      {
        Concat(old(sent), SentBlocks(c, buffer, c.tx.nextBlock, next), SentBlock(c, buffer, next));
        SendBlock(c, next);
        next := next + 1;
        streams[i] := c.(tx := c.tx.(nextBlock := next));
        n := n + 1;
      }
    }

    method ServiceClientBlocks(i: nat, now: nat)
      requires i < streams.Length && Servable(streams[i], buffer) && !streams[i].busy
      modifies this`sent, streams
      ensures streams[..] == old(streams[..])[i := Served(old(streams[i]), now)]
      ensures sent == old(sent) + Burst(old(streams[i]), buffer, now)
    {
      hide SentBlocks;
      hide BurstEnd;
      var c := streams[i];
      Concat(sent, [], []);
      assert streams[..] == streams[..][i := c];
      if !c.active || !c.tx.inProgress || c.busy { return; }
      if Elapsed(now, c.tx.lastBlockMs) < BLOCK_GAP_MS { return; }
      if !c.tx.hasData || c.tx.frameLen == 0 {
        streams[i] := c.(tx := c.tx.(inProgress := false));
        return;
      }
      streams[i] := c.(busy := true);
      BusyIsSilent(c, buffer);
      var total := NumBlocks(c.tx.frameLen, SzxBlockSize(c.tx.szx));
      var next := SendBurst(i, c.(busy := true), total);
      var d := streams[i].(tx := c.tx.(nextBlock := next, lastBlockMs := now));
      if next >= total {
        d := d.(msgId := (c.msgId + total) % IDS, tx := d.tx.(inProgress := false, lastFrameMs := now));
      }
      streams[i] := d.(busy := false);
    }

    /** The first loop: every client in a transfer gets its burst. */
    method ServiceAll(now: nat)
      requires streams.Length == MAX_CLIENTS && WellKept(State())
      modifies this`sent, streams
      ensures streams[..] == ServedAll(old(streams[..]), now)
      ensures sent == old(sent) + Bursts(old(streams[..]), buffer, now, MAX_CLIENTS)
    {
      ghost var cs := streams[..];
      for i := 0 to MAX_CLIENTS
        invariant forall j :: 0 <= j < MAX_CLIENTS ==> streams[j] == if j < i then Served(cs[j], now) else cs[j]
        invariant sent == old(sent) + Bursts(cs, buffer, now, i)
        invariant etag == old(etag) && buffer == old(buffer)
      {
        assert cs[i] in cs;
        ServiceClientBlocks(i, now);
        Concat(old(sent), Bursts(cs, buffer, now, i), Burst(cs[i], buffer, now));
      }
      assert streams[..] == ServedAll(cs, now);
    }

    /** The last loop: every client that is due starts on the fresh frame and gets its burst. */
    method LaunchAll(now: nat)
      requires streams.Length == MAX_CLIENTS && etag < 0x1_0000_0000 && 0 < |buffer| < 0x1_0000_0000
      requires Quiet(streams[..])
      modifies this`sent, streams
      ensures streams[..] == ServedAll(Launched(old(streams[..]), |buffer|, etag, now), now)
      ensures sent == old(sent) + LaunchBursts(old(streams[..]), buffer, etag, now)
    {
      hide Burst;
      hide Served;
      ghost var cs := streams[..];
      LaunchedServable(cs, buffer, etag, now);
      hide Launched;
      hide Servable;
      hide Quiet;
      ghost var ls := Launched(cs, |buffer|, etag, now);
      for i := 0 to MAX_CLIENTS
        invariant forall j :: 0 <= j < MAX_CLIENTS ==> streams[j] == if j < i then Served(ls[j], now) else cs[j]
        invariant sent == old(sent) + Bursts(ls, buffer, now, i)
        invariant etag == old(etag) && buffer == old(buffer)
      {
        LaunchedAt(cs, buffer, etag, now, i);
        if streams[i].active {
          if Elapsed(now, streams[i].tx.lastFrameMs) >= FRAME_GAP_MS {
            streams[i] := Started(streams[i], |buffer|, etag);
            ServiceClientBlocks(i, now);
          }
        }
        Concat(old(sent), Bursts(ls, buffer, now, i), Burst(ls[i], buffer, now));
        Concat(old(sent), Bursts(ls, buffer, now, i), []);
      }
      assert streams[..] == ServedAll(ls, now);
    }

    method AnyInProgress() returns (b: bool)
      ensures b <==> MidTransfer(streams[..])
    {
      for i := 0 to streams.Length
        invariant !MidTransfer(streams[..i])
      {
        if streams[i].active && streams[i].tx.inProgress {
          assert streams[..][i].active;
          return true;
        }
        assert streams[..i + 1] == streams[..i] + [streams[i]];
      }
      assert streams[..] == streams[..streams.Length];
      b := false;
    }

    method NeedsCapture(now: nat) returns (b: bool)
      ensures b <==> AnyDue(streams[..], now)
    {
      for i := 0 to streams.Length
        invariant !AnyDue(streams[..i], now)
      {
        if streams[i].active {
          if Elapsed(now, streams[i].tx.lastFrameMs) >= FRAME_GAP_MS {
            assert Due(streams[..][i], now);
            return true;
          }
        }
        assert streams[..i + 1] == streams[..i] + [streams[i]];
      }
      assert streams[..] == streams[..streams.Length];
      b := false;
    }

    method TickStream(now: nat, cap: Capture)
      requires streams.Length == MAX_CLIENTS && WellKept(State())
      requires cap.Captured? ==> |cap.frame| < 0x1_0000_0000
      modifies this, streams
      ensures State() == Ticked(old(State()), now, cap)
      ensures sent == old(sent) + TickSends(old(State()), now, cap)
    {
      hide Bursts;
      hide Served;
      hide ServedAll;
      hide LaunchBursts;
      hide Launched;
      hide Servable;
      hide MidTransfer;
      hide AnyDue;
      ghost var s := State();
      Concat(sent, Bursts(s.streams, buffer, now, MAX_CLIENTS), []);
      ServiceAll(now);
      ServedWellKept(s, now);
      var busy := AnyInProgress();
      if busy { return; }
      var need := NeedsCapture(now);
      if !need { return; }
      match cap {
        case Failed(left) =>
          buffer := left;
        case Captured(frame) =>
          buffer := frame;
          if |frame| == 0 { return; }
          etag := NextETag(etag);
          ServedQuiet(s, now);
          LaunchAll(now);
          Concat(old(sent), Bursts(s.streams, s.buffer, now, MAX_CLIENTS), LaunchBursts(ServedAll(s.streams, now), frame, etag, now));
      }
    }

    // ---- registration and expiry ----

    method Find(ip: nat, port: nat) returns (idx: nat, renew: bool)
      requires streams.Length > 0
      ensures (idx, renew) == SlotFor(streams[..], ip, port)
    {
      ghost var cs := streams[..];
      idx := 0;
      while idx < streams.Length
        invariant idx <= streams.Length && FindByAddr(cs, ip, port, 0) == FindByAddr(cs, ip, port, idx)
      {
        if streams[idx].active && streams[idx].ip == ip && streams[idx].port == port { return idx, true; }
        idx := idx + 1;
      }
      idx := 0;
      while idx < streams.Length
        invariant idx <= streams.Length && FindByIp(cs, ip, 0) == FindByIp(cs, ip, idx)
      {
        if streams[idx].active && streams[idx].ip == ip { return idx, false; }
        idx := idx + 1;
      }
      idx := 0;
      while idx < streams.Length
        invariant idx <= streams.Length && FindFree(cs, 0) == FindFree(cs, idx)
      {
        if !streams[idx].active { return idx, false; }
        idx := idx + 1;
      }
      var oldest := 0;
      for i := 1 to streams.Length
        invariant oldest == Oldest(cs, i)
      {
        if streams[i].lastReqMs < streams[oldest].lastReqMs { oldest := i; }
      }
      return oldest, false;
    }

    method RegisterStream(ip: nat, port: nat, token: bytes, msgId: nat, now: nat)
      requires streams.Length == MAX_CLIENTS
      modifies streams
      ensures State() == Registered(old(State()), ip, port, token, msgId, now)
    {
      var idx, renew := Find(ip, port);
      var c := streams[idx];
      if !renew { c := c.(tx := EmptyTx()); }
      c := c.(active := true, busy := false, ip := ip, port := port, token := token, msgId := msgId, lastReqMs := now);
      if renew { c := c.(tx := c.tx.(inProgress := false, lastFrameMs := 0, lastBlockMs := 0)); }
      streams[idx] := c;
    }

    method PruneStaleStreams(now: nat, timeout: nat)
      requires streams.Length == MAX_CLIENTS
      requires now < CLOCK && forall c :: c in streams[..] ==> c.lastReqMs < CLOCK
      modifies streams
      ensures State() == Pruned(old(State()), now, timeout)
    {
      ghost var s := State();
      for i := 0 to streams.Length
        invariant forall j :: 0 <= j < streams.Length ==>
                    streams[j] == if j < i then Pruned(s, now, timeout).streams[j] else s.streams[j]
      {
        var c := streams[i];
        assert s.streams[i] in s.streams;
        if c.active && c.lastReqMs != 0 {
          var idle := if now >= c.lastReqMs then now - c.lastReqMs else 0xFFFF_FFFF - c.lastReqMs + now + 1;
          if idle > timeout {
            streams[i] := c.(active := false, busy := false, tx := EmptyTx());
          }
        }
      }
      assert streams[..] == Pruned(s, now, timeout).streams;
    }

    method StopAllStreams()
      requires streams.Length == MAX_CLIENTS
      modifies streams
      ensures State() == Stopped(old(State()))
    {
      ghost var s := State();
      for i := 0 to streams.Length
        invariant forall j :: 0 <= j < streams.Length ==>
                    streams[j] == if j < i then Deactivated(s.streams[j]) else s.streams[j]
      {
        streams[i] := streams[i].(active := false, busy := false, tx := EmptyTx());
      }
      assert streams[..] == Stopped(s).streams;
    }
  }
}
