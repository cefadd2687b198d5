/** A camera frame, cut into datagrams, at both clients: when it comes out again. */
module StreamDelivery {
  import opened Bytes
  import opened CoapOptions
  import opened CoapServerWire
  import opened CoapReceiverWire
  import opened CoapRoundTrip
  import opened StreamFrames
  import opened StreamServer
  import opened SenderInvariant
  import opened Block2Assembly
  import opened Block2Completion
  import opened CoapReceiver
  import opened StreamSystem

  /** A client in the middle of the latest frame. */
  ghost predicate Streaming(c: Client, captured: seq<bytes>, buffer: bytes) {
    Servable(c, buffer) && c.tx.inProgress && MidFrame(c, captured, buffer) && |captured| < TAGS
  }

  /** The K1 in the middle of a JPEG of up to 128 KiB. */
  ghost predicate Sending(c: Client, captured: seq<bytes>, buffer: bytes) {
    Streaming(c, captured, buffer) && c.token == STREAM_TOKEN && StartsJpeg(buffer, |buffer|)
  }

  ghost function BlockData(c: Client, captured: seq<bytes>, buffer: bytes, k: nat): (s: bytes)
    requires Streaming(c, captured, buffer) && k < TotalBlocks(c)
  {
    BlockStarts(c, k);
    Response(MAX_PACKET, BlockReply(c, buffer, k))
  }

  /** The blocks that a client is sent are these, in order. */
  lemma {:induction false} SentInOrder(c: Client, captured: seq<bytes>, buffer: bytes, lo: nat, hi: nat)
    requires Streaming(c, captured, buffer) && lo <= hi <= TotalBlocks(c)
    ensures var ds := SentBlocks(c, buffer, lo, hi);
            |ds| == hi - lo && forall k :: lo <= k < hi ==> ds[k - lo] == Datagram(c.ip, c.port, BlockData(c, captured, buffer, k))
    decreases hi
  {
    hide Response;
    hide BlockReply;
    hide TotalBlocks;
    if lo < hi {
      SentInOrder(c, captured, buffer, lo, hi - 1);
      BlockStarts(c, hi - 1);
      SentLast(c, captured, buffer, hi - 1);
    }
  }

  lemma SentLast(c: Client, captured: seq<bytes>, buffer: bytes, k: nat)
    requires Streaming(c, captured, buffer) && k < TotalBlocks(c)
    ensures SentBlock(c, buffer, k) == [Datagram(c.ip, c.port, BlockData(c, captured, buffer, k))]
  {
    BlockStarts(c, k);
    hide Response;
    hide BlockReply;
    hide SzxBlockSize;
    hide TotalBlocks;
  }

  /** What the K1 reads out of one of these datagrams. */
  lemma BlockRead(c: Client, captured: seq<bytes>, buffer: bytes, k: nat) returns (r: CoapResponse)
    requires Sending(c, captured, buffer) && k < TotalBlocks(c)
    ensures ParseResponse(BlockData(c, captured, buffer, k)) == Some(r) && IsStream(r)
    ensures IsBlock(r, buffer, |captured|, DEFAULT_SZX) && r.num == k && r.etag == |captured|
  {
    BlockStarts(c, k);
    var q := BlockReply(c, buffer, k);
    r := Received(q);
    assert q.token == STREAM_TOKEN;
    hide TotalBlocks;
    BlockReplyFacts(c, captured, buffer, k);
    hide BlockReply;
    hide NumBlocks;
    hide BlockOf;
    hide Response;
    hide ParseResponse;
    WholePayload(q);
    ResponseRoundTrip(q);
  }

  // ---- arrivals at the K1 ----

  datatype Arrival = Arrival(num: nat, now: real, grown: Option<byte>)

  ghost predicate Blocks(arr: seq<Arrival>, total: nat) {
    forall a :: a in arr ==> a.num < total
  }

  /** The K1 after these blocks of the frame have come in, nothing else between them. */
  ghost function Absorbed(s: Receiver, c: Client, captured: seq<bytes>, buffer: bytes, arr: seq<Arrival>): (r: Receiver)
    requires Fits(s.assembly) && Sending(c, captured, buffer) && Blocks(arr, TotalBlocks(c))
    decreases |arr|
  {
    if |arr| == 0 then s
    else
      var a := arr[0];
      Absorbed(Processed(s, BlockData(c, captured, buffer, a.num), a.now, a.grown, true), c, captured, buffer, arr[1..])
  }

  ghost function Arrived(arr: seq<Arrival>): (r: set<nat>)
    ensures forall k :: k in r <==> exists i :: 0 <= i < |arr| && arr[i].num == k
  {
    set i | 0 <= i < |arr| :: arr[i].num
  }

  ghost function All(f: bytes): (r: set<nat>) {
    Range(NumBlocks(|f|, BlockSize(DEFAULT_SZX)))
  }

  ghost predicate Under(s: Receiver, f: bytes, etag: nat, seen: set<nat>) {
    Progress(s.assembly, f, etag, DEFAULT_SZX, seen) && Fits(s.assembly)
  }

  ghost predicate Few(f: bytes) {
    NumBlocks(|f|, BlockSize(DEFAULT_SZX)) <= MAX_BLOCKS
  }

  lemma UnderIs(s: Receiver, f: bytes, etag: nat, seen: set<nat>)
    requires Under(s, f, etag, seen)
    ensures Progress(s.assembly, f, etag, DEFAULT_SZX, seen) && Fits(s.assembly)
    ensures seen == All(f) ==> |f| <= |s.assembly.data| && s.assembly.totalSize == |f| && s.assembly.data[..|f|] == f
  {
    hide NumBlocks;
    hide Collecting;
  }

  /** What a packet with a block does to the K1. */
  lemma ProcessedIs(s: Receiver, data: bytes, r: CoapResponse, now: real, grown: Option<byte>)
    requires Fits(s.assembly) && ParseResponse(data) == Some(r) && IsStream(r)
    ensures var (b, out) := AddBlock(s.assembly, r, now, grown);
            var t := Processed(s, data, now, grown, true);
            && Fits(b) && Fits(t.assembly) && (out == Complete ==> b.totalSize <= |b.data|)
            && t == if out == Complete then Published(s.(assembly := b), true) else s.(assembly := b)
  {
    AddBlockFits(s.assembly, r, now, grown);
    hide AddBlock;
    hide ParseResponse;
    hide Published;
  }

  lemma PublishedIs(s: Receiver, f: bytes)
    requires |f| == s.assembly.totalSize <= |s.assembly.data| && s.assembly.data[..|f|] == f && StartsJpeg(f, |f|)
    ensures Published(s, true) == s.(jpeg := Some(f), frameIndex := s.frameIndex + 1)
  {
    assert s.assembly.data[0] == f[0] && s.assembly.data[1] == f[1];
  }

  ghost function Shown(s: Receiver, f: bytes, finished: bool): (r: Receiver) {
    if finished then s.(jpeg := Some(f), frameIndex := s.frameIndex + 1) else s
  }

  /** The same consumer's side, whatever the assemblies. */
  ghost predicate Alike(t: Receiver, s: Receiver) {
    t.jpeg == s.jpeg && t.frameIndex == s.frameIndex
  }

  /** One later block. */
  lemma LaterArrives(s: Receiver, data: bytes, r: CoapResponse, f: bytes, etag: nat, seen: set<nat>, now: real, grown: Option<byte>)
    requires Few(f) && StartsJpeg(f, |f|) && Under(s, f, etag, seen)
    requires ParseResponse(data) == Some(r) && IsStream(r) && IsBlock(r, f, etag, DEFAULT_SZX) && r.num > 0
    ensures Fits(s.assembly)
    ensures var t := Processed(s, data, now, grown, true);
            Under(t, f, etag, seen + {r.num}) && Alike(t, Shown(s, f, seen != All(f) && seen + {r.num} == All(f)))
  {
    hide ParseResponse;
    hide Processed;
    hide AddBlock;
    hide IsBlock;
    hide Progress;
    hide Published;
    hide StartsJpeg;
    hide Fits;
    hide NumBlocks;
    hide IsStream;
    UnderIs(s, f, etag, seen);
    ProgressStep(s.assembly, r, f, etag, DEFAULT_SZX, seen, now, grown);
    ProcessedIs(s, data, r, now, grown);
    Step(s, f, etag, seen + {r.num}, AddBlock(s.assembly, r, now, grown));
  }

  /** Publishing a finished frame. */
  lemma Step(s: Receiver, f: bytes, etag: nat, seen: set<nat>, added: (Assembly, Outcome))
    requires StartsJpeg(f, |f|) && Progress(added.0, f, etag, DEFAULT_SZX, seen) && Fits(added.0)
    requires added.1 == Complete ==> seen == All(f)
    ensures added.1 == Complete ==> added.0.totalSize <= |added.0.data|
    ensures var t := if added.1 == Complete then Published(s.(assembly := added.0), true) else s.(assembly := added.0);
            Under(t, f, etag, seen) && Alike(t, Shown(s, f, added.1 == Complete))
  {
    hide Progress;
    hide Published;
    hide StartsJpeg;
    hide Fits;
    var b := s.(assembly := added.0);
    UnderIs(b, f, etag, seen);
    if added.1 == Complete { PublishedIs(b, f); }
  }

  lemma AbsorbedIs(s: Receiver, c: Client, captured: seq<bytes>, buffer: bytes, arr: seq<Arrival>)
    requires Fits(s.assembly) && Sending(c, captured, buffer) && Blocks(arr, TotalBlocks(c)) && |arr| > 0
    ensures arr[0].num < TotalBlocks(c) && Blocks(arr[1..], TotalBlocks(c))
    ensures var t := Processed(s, BlockData(c, captured, buffer, arr[0].num), arr[0].now, arr[0].grown, true);
            Absorbed(s, c, captured, buffer, arr) == Absorbed(t, c, captured, buffer, arr[1..])
  {
    assert arr[0] in arr;
    hide Processed;
    hide BlockData;
    hide Sending;
    hide TotalBlocks;
  }

  lemma ArrivedStep(arr: seq<Arrival>, seen: set<nat>)
    ensures |arr| > 0 ==> seen + Arrived(arr) == seen + {arr[0].num} + Arrived(arr[1..])
    ensures |arr| == 0 ==> seen + Arrived(arr) == seen
  {
    if |arr| > 0 {
      assert forall k :: k in Arrived(arr) ==> k == arr[0].num || k in Arrived(arr[1..]) by {
        forall k | k in Arrived(arr) ensures k == arr[0].num || k in Arrived(arr[1..]) {
          var i :| 0 <= i < |arr| && arr[i].num == k;
          if i > 0 { assert arr[1..][i - 1].num == k; }
        }
      }
      forall k | k in Arrived(arr[1..]) ensures k in Arrived(arr) {
        var i :| 0 <= i < |arr[1..]| && arr[1..][i].num == k;
        assert arr[i + 1].num == k;
      }
    }
  }

  lemma InRange(arr: seq<Arrival>, total: nat)
    requires Blocks(arr, total)
    ensures Arrived(arr) <= Range(total)
  {
    forall k | k in Arrived(arr) ensures k in Range(total) {
      var i :| 0 <= i < |arr| && arr[i].num == k;
      assert arr[i] in arr;
    }
  }

  lemma TotalIs(c: Client, captured: seq<bytes>, buffer: bytes)
    requires Sending(c, captured, buffer)
    ensures Streaming(c, captured, buffer) && All(buffer) == Range(TotalBlocks(c)) && StartsJpeg(buffer, |buffer|) && Few(buffer) && 0 < TotalBlocks(c)
  {
    DefaultSize();
    assert |buffer| <= 128 * 1024;
    NumBlocksBounds(|buffer|, 1024);
  }

  /** Later blocks, one after the other. */
  lemma {:induction false} LaterAbsorbed(s: Receiver, c: Client, captured: seq<bytes>, buffer: bytes, arr: seq<Arrival>, seen: set<nat>)
    requires Sending(c, captured, buffer) && Blocks(arr, TotalBlocks(c)) && forall a :: a in arr ==> a.num > 0
    requires Under(s, buffer, |captured|, seen) && seen <= All(buffer)
    ensures Fits(s.assembly)
    ensures var t := Absorbed(s, c, captured, buffer, arr);
            Under(t, buffer, |captured|, seen + Arrived(arr)) &&
            Alike(t, Shown(s, buffer, seen != All(buffer) && seen + Arrived(arr) == All(buffer)))
    decreases |arr|
  {
    hide *;
    UnderIs(s, buffer, |captured|, seen);
    ArrivedStep(arr, seen);
    TotalIs(c, captured, buffer);
    if |arr| == 0 {
      AbsorbedNone(s, c, captured, buffer, arr);
    } else {
      AbsorbedIs(s, c, captured, buffer, arr);
      var a := arr[0];
      assert a in arr;
      var data := BlockData(c, captured, buffer, a.num);
      var r := BlockRead(c, captured, buffer, a.num);
      LaterArrives(s, data, r, buffer, |captured|, seen, a.now, a.grown);
      var t := Processed(s, data, a.now, a.grown, true);
      InRange(arr, TotalBlocks(c));
      ArrivedHas(arr, 0);
      LaterAbsorbed(t, c, captured, buffer, arr[1..], seen + {a.num});
      ShownTwice(s, t, Absorbed(t, c, captured, buffer, arr[1..]), buffer, seen, seen + {a.num}, seen + Arrived(arr), All(buffer));
    }
  }

  lemma ArrivedHas(arr: seq<Arrival>, i: nat)
    requires i < |arr|
    ensures arr[i].num in Arrived(arr)
  {
  }

  lemma AbsorbedNone(s: Receiver, c: Client, captured: seq<bytes>, buffer: bytes, arr: seq<Arrival>)
    requires Fits(s.assembly) && Sending(c, captured, buffer) && Blocks(arr, TotalBlocks(c)) && |arr| == 0
    ensures Absorbed(s, c, captured, buffer, arr) == s && Alike(s, Shown(s, buffer, false))
  {
  }

  /** The frame is shown once, when the last block comes. */
  lemma ShownTwice(s: Receiver, t: Receiver, u: Receiver, f: bytes, seen: set<nat>, seen1: set<nat>, seen2: set<nat>, all: set<nat>)
    requires seen <= seen1 <= seen2 <= all
    requires Alike(t, Shown(s, f, seen != all && seen1 == all)) && Alike(u, Shown(t, f, seen1 != all && seen2 == all))
    ensures Alike(u, Shown(s, f, seen != all && seen2 == all))
  {
  }

  /** Block 0 starts the frame. */
  lemma FirstArrives(s: Receiver, data: bytes, r: CoapResponse, f: bytes, etag: nat, now: real, grown: Option<byte>)
    requires Few(f) && StartsJpeg(f, |f|) && |f| <= |s.assembly.data| && Fits(s.assembly)
    requires ParseResponse(data) == Some(r) && IsStream(r) && IsBlock(r, f, etag, DEFAULT_SZX) && r.etag == etag && r.num == 0
    ensures var t := Processed(s, data, now, grown, true);
            Under(t, f, etag, {0}) && Alike(t, Shown(s, f, {0} == All(f)))
  {
    hide ParseResponse;
    hide Processed;
    hide AddBlock;
    hide IsBlock;
    hide Progress;
    hide Published;
    hide StartsJpeg;
    hide Fits;
    hide NumBlocks;
    hide IsStream;
    StartsFrame(s.assembly, r, f, DEFAULT_SZX, now, grown);
    OneBlock(NumBlocks(|f|, BlockSize(DEFAULT_SZX)));
    ProcessedIs(s, data, r, now, grown);
    Step(s, f, etag, {0}, AddBlock(s.assembly, r, now, grown));
  }

  /** End-to-end delivery. Whatever the K1 held before: once block 0 of a JPEG of up to 128 KiB has
      come, let blocks of it come in any order with any repeats. The K1 publishes the frame, once, if
      and only if every block came. */
  lemma FrameDelivered(s: Receiver, c: Client, captured: seq<bytes>, buffer: bytes, first: Arrival, rest: seq<Arrival>)
    requires Sending(c, captured, buffer) && Fits(s.assembly) && |s.assembly.data| >= FRAME_BUF_CAPACITY
    requires first.num == 0 && Blocks([first] + rest, TotalBlocks(c)) && forall a :: a in rest ==> a.num > 0
    ensures var t := Absorbed(s, c, captured, buffer, [first] + rest);
            if forall k: nat :: k < TotalBlocks(c) ==> k in Arrived([first] + rest)
            then t.jpeg == Some(buffer) && t.frameIndex == s.frameIndex + 1
            else t.jpeg == s.jpeg && t.frameIndex == s.frameIndex
  {
    hide *;
    var arr := [first] + rest;
    FirstAndRest(first, rest);
    BufferFits(c, captured, buffer);
    TotalIs(c, captured, buffer);
    AbsorbedIs(s, c, captured, buffer, arr);
    var data := BlockData(c, captured, buffer, 0);
    var r := BlockRead(c, captured, buffer, 0);
    FirstArrives(s, data, r, buffer, |captured|, first.now, first.grown);
    var t := Processed(s, data, first.now, first.grown, true);
    InRange(arr, TotalBlocks(c));
    ArrivedHas(arr, 0);
    LaterAbsorbed(t, c, captured, buffer, rest, {0});
    ArrivedStep(arr, {});
    var u := Absorbed(t, c, captured, buffer, rest);
    ShownTwice(s, t, u, buffer, {}, {0}, Arrived(arr), All(buffer));
    Verdict(s, u, buffer, Arrived(arr), TotalBlocks(c));
  }

  /** And from there to the consumer: of a frame whose blocks have all come, the consumer gets one
      below 131072 octets at once; one of exactly that length stays, and it never gets it. */
  lemma TakenIffShorter(s: Receiver, c: Client, captured: seq<bytes>, buffer: bytes, first: Arrival, rest: seq<Arrival>)
    requires Sending(c, captured, buffer) && Fits(s.assembly) && |s.assembly.data| >= FRAME_BUF_CAPACITY
    requires first.num == 0 && Blocks([first] + rest, TotalBlocks(c)) && forall a :: a in rest ==> a.num > 0
    requires forall k: nat :: k < TotalBlocks(c) ==> k in Arrived([first] + rest)
    ensures var t := Absorbed(s, c, captured, buffer, [first] + rest);
            && t.jpeg == Some(buffer)
            && (Taken(t).1 == Some(buffer) <==> |buffer| < FRAME_MAX_JPEG_LEN)
            && (|buffer| == FRAME_MAX_JPEG_LEN ==> Taken(t) == (t, None))
  {
    FrameDelivered(s, c, captured, buffer, first, rest);
    BufferFits(c, captured, buffer);
    hide Absorbed;
    hide Sending;
    hide TotalBlocks;
    hide Arrived;
  }

  lemma FirstAndRest(first: Arrival, rest: seq<Arrival>)
    ensures var arr := [first] + rest; |arr| > 0 && arr[0] == first && arr[1..] == rest
  {
  }

  lemma BufferFits(c: Client, captured: seq<bytes>, buffer: bytes)
    requires Sending(c, captured, buffer)
    ensures 0 < |buffer| <= FRAME_BUF_CAPACITY == FRAME_MAX_JPEG_LEN
  {
  }

  lemma Verdict(s: Receiver, u: Receiver, f: bytes, came: set<nat>, total: nat)
    requires came <= Range(total) && total > 0 && Alike(u, Shown(s, f, {} != Range(total) && came == Range(total)))
    ensures if forall k: nat :: k < total ==> k in came then u.jpeg == Some(f) && u.frameIndex == s.frameIndex + 1
            else u.jpeg == s.jpeg && u.frameIndex == s.frameIndex
  {
    assert 0 in Range(total);
  }

  // ---- arrivals at the Python client ----

  datatype PyArrival = PyArrival(num: nat, now: real, later: real)

  ghost predicate PyBlocks(arr: seq<PyArrival>, total: nat) {
    forall a :: a in arr ==> 0 < a.num < total
  }

  /** What the Python client returns for these blocks, one after the other. */
  ghost function PyAbsorbed(a: J.Partial, c: Client, captured: seq<bytes>, buffer: bytes, arr: seq<PyArrival>): (outs: seq<J.Feed>)
    requires Streaming(c, captured, buffer) && PyBlocks(arr, TotalBlocks(c))
    ensures |outs| == |arr|
    decreases |arr|
  {
    if |arr| == 0 then []
    else
      assert arr[0] in arr;
      var (b, out) := J.FeedPacket(a, c.token, BlockData(c, captured, buffer, arr[0].num), arr[0].now, arr[0].later);
      [out] + PyAbsorbed(b, c, captured, buffer, arr[1..])
  }

  ghost function Responses(c: Client, captured: seq<bytes>, buffer: bytes, arr: seq<PyArrival>): (rs: seq<CoapResponse>)
    requires Streaming(c, captured, buffer) && PyBlocks(arr, TotalBlocks(c))
    ensures |rs| == |arr|
  {
    seq(|arr|, i requires 0 <= i < |arr| => assert arr[i] in arr; BlockResponse(c, captured, buffer, arr[i].num))
  }

  ghost function BlockResponse(c: Client, captured: seq<bytes>, buffer: bytes, k: nat): (r: CoapResponse)
    requires Streaming(c, captured, buffer) && k < TotalBlocks(c)
  {
    BlockStarts(c, k);
    Received(BlockReply(c, buffer, k))
  }

  lemma BlockResponseIs(c: Client, captured: seq<bytes>, buffer: bytes, k: nat)
    requires Streaming(c, captured, buffer) && k < TotalBlocks(c)
    ensures var r := BlockResponse(c, captured, buffer, k);
            IsBlock(r, buffer, |captured|, DEFAULT_SZX) && r.num == k && r.etag == |captured|
  {
    BlockStarts(c, k);
    var q := BlockReply(c, buffer, k);
    hide TotalBlocks;
    BlockReplyFacts(c, captured, buffer, k);
    hide BlockReply;
    hide NumBlocks;
    hide BlockOf;
    hide Response;
    WholePayload(q);
  }

  lemma BlockNumber(c: Client, captured: seq<bytes>, buffer: bytes, k: nat)
    requires Streaming(c, captured, buffer) && k < TotalBlocks(c)
    ensures BlockResponse(c, captured, buffer, k).num == k
  {
    hide *;
    BlockResponseIs(c, captured, buffer, k);
  }

  /** A datagram; a frame that has gone stale is dropped first. */
  lemma PyArrives(a: J.Partial, c: Client, captured: seq<bytes>, buffer: bytes, k: nat, now: real, later: real)
    requires Streaming(c, captured, buffer) && k < TotalBlocks(c)
    ensures J.FeedPacket(a, c.token, BlockData(c, captured, buffer, k), now, later) ==
            JC.FedBlock(if a.startedAt != 0.0 && now - a.startedAt > J.FRAME_STALE then J.EMPTY else a,
                        BlockResponse(c, captured, buffer, k), later)
  {
    BlockStarts(c, k);
    BlockReplyGenuine(c, captured, buffer, k);
    hide TotalBlocks;
    var q := BlockReply(c, buffer, k);
    assert q.token == c.token;
    hide BlockReply;
    hide Response;
    hide Received;
    PyFeed(a, q, captured, c.token, now, later);
    hide J.FeedPacket;
    hide JC.FedBlock;
  }

  /** A later block leaves the starting time, or nothing at all. */
  lemma LaterKeepsTime(a: J.Partial, r: CoapResponse, later: real, later': real)
    requires r.num > 0
    ensures JC.FedBlock(a, r, later) == JC.FedBlock(a, r, later')
    ensures var b := JC.FedBlock(a, r, later).0; b.startedAt == a.startedAt || b.startedAt == 0.0
  {
  }

  lemma RestBlocks(arr: seq<PyArrival>, total: nat)
    requires PyBlocks(arr, total) && |arr| > 0
    ensures 0 < arr[0].num < total && PyBlocks(arr[1..], total)
  {
    assert arr[0] in arr;
  }

  lemma FirstResponse(c: Client, captured: seq<bytes>, buffer: bytes, arr: seq<PyArrival>)
    requires Streaming(c, captured, buffer) && PyBlocks(arr, TotalBlocks(c)) && |arr| > 0
    requires arr[0].num < TotalBlocks(c) && PyBlocks(arr[1..], TotalBlocks(c))
    ensures Responses(c, captured, buffer, arr)[0] == BlockResponse(c, captured, buffer, arr[0].num)
    ensures Responses(c, captured, buffer, arr)[1..] == Responses(c, captured, buffer, arr[1..])
  {
    hide Streaming;
    hide TotalBlocks;
    hide BlockResponse;
    hide PyBlocks;
  }

  lemma FirstAbsorbed(a: J.Partial, c: Client, captured: seq<bytes>, buffer: bytes, arr: seq<PyArrival>)
    requires Streaming(c, captured, buffer) && PyBlocks(arr, TotalBlocks(c)) && |arr| > 0
    requires arr[0].num < TotalBlocks(c) && PyBlocks(arr[1..], TotalBlocks(c))
    ensures var (b, out) := J.FeedPacket(a, c.token, BlockData(c, captured, buffer, arr[0].num), arr[0].now, arr[0].later);
            PyAbsorbed(a, c, captured, buffer, arr) == [out] + PyAbsorbed(b, c, captured, buffer, arr[1..])
  {
    hide Streaming;
    hide TotalBlocks;
    hide BlockData;
    hide J.FeedPacket;
  }

  lemma PyStep(a: J.Partial, c: Client, captured: seq<bytes>, buffer: bytes, arr: seq<PyArrival>, later: real)
    requires Streaming(c, captured, buffer) && PyBlocks(arr, TotalBlocks(c)) && |arr| > 0
    requires a.startedAt == 0.0 || arr[0].now - a.startedAt <= J.FRAME_STALE
    ensures PyBlocks(arr[1..], TotalBlocks(c))
    ensures var rs := Responses(c, captured, buffer, arr);
            var (b, out) := JC.FedBlock(a, rs[0], later);
            && PyAbsorbed(a, c, captured, buffer, arr) == [out] + PyAbsorbed(b, c, captured, buffer, arr[1..])
            && rs[1..] == Responses(c, captured, buffer, arr[1..])
            && (b.startedAt == a.startedAt || b.startedAt == 0.0)
  {
    hide *;
    RestBlocks(arr, TotalBlocks(c));
    FirstResponse(c, captured, buffer, arr);
    var k := arr[0].num;
    PyArrives(a, c, captured, buffer, k, arr[0].now, arr[0].later);
    BlockNumber(c, captured, buffer, k);
    LaterKeepsTime(a, BlockResponse(c, captured, buffer, k), arr[0].later, later);
    FirstAbsorbed(a, c, captured, buffer, arr);
  }

  lemma FedFirst(a: J.Partial, rs: seq<CoapResponse>, later: real)
    requires |rs| > 0
    ensures JC.FedBlocks(a, rs, later).1 == [JC.FedBlock(a, rs[0], later).1] + JC.FedBlocks(JC.FedBlock(a, rs[0], later).0, rs[1..], later).1
  {
    hide JC.FedBlock;
  }

  lemma FedNone(a: J.Partial, rs: seq<CoapResponse>, later: real)
    requires |rs| == 0
    ensures JC.FedBlocks(a, rs, later).1 == []
  {
  }

  /** While nothing goes stale, feeding datagrams is feeding their blocks. */
  lemma {:induction false} PyAbsorbedIs(a: J.Partial, c: Client, captured: seq<bytes>, buffer: bytes, arr: seq<PyArrival>, later: real)
    requires Streaming(c, captured, buffer) && PyBlocks(arr, TotalBlocks(c))
    requires a.startedAt == 0.0 || forall x :: x in arr ==> x.now - a.startedAt <= J.FRAME_STALE
    ensures PyAbsorbed(a, c, captured, buffer, arr) == JC.FedBlocks(a, Responses(c, captured, buffer, arr), later).1
    decreases |arr|
  {
    hide *;
    var rs := Responses(c, captured, buffer, arr);
    if |arr| == 0 {
      FedNone(a, rs, later);
    } else {
      assert arr[0] in arr && forall x :: x in arr[1..] ==> x in arr;
      PyStep(a, c, captured, buffer, arr, later);
      FedFirst(a, rs, later);
      PyAbsorbedIs(JC.FedBlock(a, rs[0], later).0, c, captured, buffer, arr[1..], later);
    }
  }

  lemma ResponsesLater(c: Client, captured: seq<bytes>, buffer: bytes, arr: seq<PyArrival>)
    requires Streaming(c, captured, buffer) && PyBlocks(arr, TotalBlocks(c))
    ensures var rs := Responses(c, captured, buffer, arr);
            JC.AllLater(rs, buffer, |captured|, DEFAULT_SZX) && forall i :: 0 <= i < |arr| ==> rs[i].num == arr[i].num
  {
    var rs := Responses(c, captured, buffer, arr);
    forall i | 0 <= i < |arr|
      ensures LaterBlock(rs[i], buffer, |captured|, DEFAULT_SZX) && rs[i].num == arr[i].num
    {
      assert arr[i] in arr;
      BlockResponseIs(c, captured, buffer, arr[i].num);
    }
    hide Streaming;
    hide LaterBlock;
    hide BlockResponse;
  }

  /** The arrival at `i` is the final block, and every other block but 0 has arrived before it. */
  ghost predicate FinalArrival(arr: seq<PyArrival>, total: nat, i: nat)
    requires i < |arr|
  {
    arr[i].num + 1 == total && forall k: nat :: 0 < k < total - 1 ==> Earlier(arr, i, k)
  }

  ghost predicate Earlier(arr: seq<PyArrival>, i: nat, k: nat)
    requires i <= |arr|
  {
    exists j: nat :: j < i && arr[j].num == k
  }

  lemma FinalArrivalIs(arr: seq<PyArrival>, rs: seq<CoapResponse>, total: nat, i: nat)
    requires |rs| == |arr| && i < |arr| && forall j :: 0 <= j < |arr| ==> rs[j].num == arr[j].num
    ensures JC.FinalAfterAll(rs, total, i) <==> FinalArrival(arr, total, i)
  {
    forall k: nat ensures JC.CameBefore(rs, i, k) <==> Earlier(arr, i, k) {
      if j: nat :| j < i && rs[j].num == k { assert arr[j].num == k; }
      if j: nat :| j < i && arr[j].num == k { assert rs[j].num == k; }
    }
    hide JC.CameBefore;
    hide Earlier;
  }

  /** Block 0 starts over, whatever came before it. */
  lemma ZeroStartsOver(a: J.Partial, b: J.Partial, r: CoapResponse, later: real)
    requires r.num == 0
    ensures JC.FedBlock(a, r, later) == JC.FedBlock(b, r, later)
    ensures var c := JC.FedBlock(a, r, later).0; c.startedAt == later || c.startedAt == 0.0
  {
  }

  lemma PyStarts(a: J.Partial, c: Client, captured: seq<bytes>, buffer: bytes, first: PyArrival)
    requires Streaming(c, captured, buffer) && first.num == 0
    ensures DEFAULT_SZX == 6 && 0 < TotalBlocks(c) == NumBlocks(|buffer|, BlockSize(DEFAULT_SZX))
    ensures var (b, out) := J.FeedPacket(a, c.token, BlockData(c, captured, buffer, 0), first.now, first.later);
            && (b, out) == JC.FedBlock(a, BlockResponse(c, captured, buffer, 0), first.later)
            && (b.startedAt == first.later || b.startedAt == 0.0)
  {
    NumBlocksBounds(|buffer|, SzxBlockSize(DEFAULT_SZX));
    PyArrives(a, c, captured, buffer, 0, first.now, first.later);
    BlockNumber(c, captured, buffer, 0);
    ZeroStartsOver(a, J.EMPTY, BlockResponse(c, captured, buffer, 0), first.later);
    hide BlockResponse;
    hide BlockData;
    hide J.FeedPacket;
    hide JC.FedBlock;
    hide NumBlocks;
  }

  /** What the client may give back for block 0 and for the blocks after it. */
  ghost predicate GivesBack(out: J.Feed, outs: seq<J.Feed>, f: bytes, whole: bool) {
    && (forall i, j :: 0 <= i < |outs| && 0 <= j < |outs| && outs[i].Frame? && outs[j].Frame? ==> i == j)
    && (forall i :: 0 <= i < |outs| ==> outs[i] == J.NoFrame || outs[i] == J.Frame(f))
    && (out == J.Frame(f) || J.Frame(f) in outs <==> whole)
  }

  /** End-to-end return. Once block 0 of a JPEG has reached the Python client, in any state of it, let
      blocks of it come within four seconds, in any order with any repeats: the client returns the
      frame, once, if and only if it is one block or some arrival of the final block comes after
      every other block. */
  lemma FrameReturned(a: J.Partial, c: Client, captured: seq<bytes>, buffer: bytes, first: PyArrival, rest: seq<PyArrival>)
    requires Streaming(c, captured, buffer) && J.IsJpeg(buffer) && first.num == 0 && PyBlocks(rest, TotalBlocks(c))
    requires first.later == 0.0 || forall x :: x in rest ==> x.now - first.later <= J.FRAME_STALE
    ensures 0 < TotalBlocks(c)
    ensures var (b, out) := J.FeedPacket(a, c.token, BlockData(c, captured, buffer, 0), first.now, first.later);
            var outs := PyAbsorbed(b, c, captured, buffer, rest);
            && (out == J.Frame(buffer) <==> TotalBlocks(c) == 1)
            && GivesBack(out, outs, buffer,
                         TotalBlocks(c) == 1 || exists i: nat :: i < |rest| && FinalArrival(rest, TotalBlocks(c), i))
  {
    hide *;
    PyStarts(a, c, captured, buffer, first);
    var r0 := BlockResponse(c, captured, buffer, 0);
    var rs := Responses(c, captured, buffer, rest);
    var b := JC.FedBlock(a, r0, first.later).0;
    BlockResponseIs(c, captured, buffer, 0);
    ResponsesLater(c, captured, buffer, rest);
    PyAbsorbedIs(b, c, captured, buffer, rest, first.later);
    forall i: nat | i < |rest| ensures JC.FinalAfterAll(rs, TotalBlocks(c), i) <==> FinalArrival(rest, TotalBlocks(c), i) {
      FinalArrivalIs(rest, rs, TotalBlocks(c), i);
    }
    JC.ReturnedIffFinalAfterAll(a, r0, rs, buffer, DEFAULT_SZX, first.later);
    GivenBack(JC.FedBlock(a, r0, first.later).1, JC.FedBlocks(b, rs, first.later).1, buffer,
              TotalBlocks(c) == 1 || exists i: nat :: i < |rest| && FinalArrival(rest, TotalBlocks(c), i));
  }

  lemma GivenBack(out: J.Feed, outs: seq<J.Feed>, f: bytes, whole: bool)
    requires forall i :: 0 <= i < |outs| ==> outs[i] == J.NoFrame || (outs[i] == J.Frame(f) && out == J.NoFrame)
    requires forall i, j :: 0 <= i < |outs| && 0 <= j < |outs| && outs[i] == J.Frame(f) && outs[j] == J.Frame(f) ==> i == j
    requires out == J.Frame(f) || J.Frame(f) in outs <==> whole
    ensures GivesBack(out, outs, f, whole)
  {
  }
}
