/** The Python client's reassembler meets the same specification as the K1's: the frames it
    returns are the camera's. It completes on the final block only. */
module JpegCompletion {
  import opened Bytes
  import opened CoapOptions
  import opened CoapServerWire
  import opened CoapReceiverWire
  import opened CoapRoundTrip
  import opened StreamFrames
  import opened Block2Completion
  import opened JpegAssembler

  // ---- what the loose parser makes of a response ----

  /** The options of a block response, as the Python side looks them up. */
  ghost predicate BlockOptionsRead(opts: map<nat, bytes>, etag: nat, block: BlockField, total: nat) {
    && OPT_BLOCK2 in opts && BigEndian(opts[OPT_BLOCK2]) == Block2Value(block)
    && OptionValue(opts, OPT_ETAG) == Some(etag)
    && OptionValue(opts, OPT_SIZE2) == Some(total)
  }

  lemma BlockFieldsMap(m: map<nat, bytes>, b: BlockField, total: nat)
    requires total > 0
    ensures WithFields(m, BlockFields(Some(b), total)) ==
            m[OPT_BLOCK2 := UintOctets(Block2Value(b))][OPT_SIZE2 := UintOctets(total)]
  {
    hide UintOctets;
    hide Block2Value;
    var v := UintOctets(Block2Value(b));
    var more := [Field(OPT_SIZE2, UintOctets(total))];
    WithFirst(m, Field(OPT_BLOCK2, v), more);
    Concat(more, [], []);
    WithFirst(m[OPT_BLOCK2 := v], Field(OPT_SIZE2, UintOctets(total)), []);
  }

  lemma OptionsMap(r: Reply)
    ensures var m: map<nat, bytes> := if r.etag != 0 then map[OPT_ETAG := UintOctets(r.etag)] else map[];
            WithFields(map[], ReplyFields(r)) ==
            WithFields(m[OPT_CONTENT_FMT := UintOctets(r.format)], BlockFields(r.block, r.total))
  {
    hide UintOctets;
    hide BlockFields;
    hide WithFields;
    var m: map<nat, bytes> := map[];
    if r.etag != 0 {
      WithFirst(m, Field(OPT_ETAG, UintOctets(r.etag)), FormatFields(r));
      m := m[OPT_ETAG := UintOctets(r.etag)];
      assert m == map[OPT_ETAG := UintOctets(r.etag)];
    }
    WithFirst(m, Field(OPT_CONTENT_FMT, UintOctets(r.format)), BlockFields(r.block, r.total));
  }

  lemma FieldsMap(r: Reply)
    requires Representable(r)
    ensures var opts := WithFields(map[], ReplyFields(r));
            && (r.block.None? ==> OPT_BLOCK2 !in opts)
            && (r.block.Some? && r.etag != 0 && r.total > 0 ==> BlockOptionsRead(opts, r.etag, r.block.value, r.total))
  {
    hide UintOctets;
    OptionsMap(r);
    hide ReplyFields;
    if r.block.Some? && r.etag != 0 && r.total > 0 {
      UintOctetsValue(r.etag);
      UintOctetsValue(r.total);
      Block2RoundTrip(r.block.value);
      UintOctetsValue(Block2Value(r.block.value));
      hide BigEndian;
      hide Block2Value;
      hide WithFields;
      BlockFieldsMap(map[OPT_ETAG := UintOctets(r.etag)][OPT_CONTENT_FMT := UintOctets(r.format)], r.block.value, r.total);
    }
  }

  lemma PacketBody(data: bytes, token: bytes, body: bytes, fields: seq<Field>, payload: bytes)
    requires |token| <= 8 && 4 + |token| <= |data| && data[0] % 16 == |token|
    requires data[4..4 + |token|] == token && data[4 + |token|..] == body
    requires Decode(body, 0) == Some(Decoded(fields, payload))
    ensures ParsePacket(data) == Packet(token, WithFields(map[], fields), payload)
  {
    hide Decode;
    hide ParseLoosely;
    hide WithFields;
    ParsesAlike(body, 0, token, map[]);
    assert data[4..][..|token|] == token;
  }

  lemma CarriedIs(r: Reply)
    requires Representable(r)
    ensures Payload(PayloadPart(r.payload, MAX_PACKET - |ReplyHead(r)| - |ReplyOptions(r)|)) == CarriedPayload(r)
  {
    hide ReplyHead;
    hide ReplyOptions;
  }

  /** The Python parser finds in a response the same token, block, ETag, size and payload
      as the K1's parser does. */
  lemma PacketRoundTrip(r: Reply)
    requires Representable(r)
    ensures var p := ParsePacket(Response(MAX_PACKET, r));
            && p == Packet(r.token, WithFields(map[], ReplyFields(r)), CarriedPayload(r))
            && (r.block.None? ==> OPT_BLOCK2 !in p.opts)
            && (r.block.Some? && r.etag != 0 && r.total > 0 ==> BlockOptionsRead(p.opts, r.etag, r.block.value, r.total))
  {
    var rest := PayloadPart(r.payload, MAX_PACKET - |ReplyHead(r)| - |ReplyOptions(r)|);
    CarriedIs(r);
    ReplyLayout(r);
    FieldsMap(r);
    assert Representable(r) && ValidReply(r);
    hide *;
    ReplyDecoded(r, rest);
    PacketBody(Response(MAX_PACKET, r), r.token, ReplyOptions(r) + rest, ReplyFields(r), Payload(rest));
  }

  // ---- reassembly ----

  /** Part of the way through frame `f`. */
  ghost predicate Holding(a: Partial, f: bytes, szx: nat) {
    var size := BlockSize(szx);
    && |f| > 0 && a.szx == szx && a.total == Some(|f|)
    && forall k :: k in a.blocks ==> k < NumBlocks(|f|, size) && a.blocks[k] == BlockOf(f, k, size)
  }

  lemma Glue(f: bytes, i: nat, size: nat)
    requires size > 0 && |f| > 0 && i < NumBlocks(|f|, size)
    ensures 0 <= i * size < |f|
    ensures f[..i * size] + BlockOf(f, i, size) == f[..BlockEnd(i, |f|, size)]
    ensures BlockEnd(i, |f|, size) == if i + 1 < NumBlocks(|f|, size) then (i + 1) * size else |f|
  {
    BlockInside(i, |f|, size);
    assert (i + 1) * size == i * size + size;
  }

  lemma {:induction false} JoinedPrefix(blocks: map<nat, bytes>, f: bytes, size: nat, i: nat)
    requires size > 0 && |f| > 0 && i <= NumBlocks(|f|, size)
    requires forall k: nat :: k < i ==> k in blocks && blocks[k] == BlockOf(f, k, size)
    ensures Joined(blocks, i) == Some(if i < NumBlocks(|f|, size) then (BlockInside(i, |f|, size); f[..i * size]) else f)
  {
    NumBlocksBounds(|f|, size);
    if i > 0 {
      JoinedPrefix(blocks, f, size, i - 1);
      Glue(f, i - 1, size);
      assert f[..|f|] == f;
      hide BlockOf;
      hide NumBlocks;
    }
  }

  lemma ConcludedFrame(a: Partial, f: bytes, szx: nat)
    requires Holding(a, f, szx)
    ensures var n := NumBlocks(|f|, BlockSize(szx));
            Concluded(a) == if a.blocks.Keys == Range(n) then (EMPTY, if IsJpeg(f) then Frame(f) else NoFrame)
                            else (a, NoFrame)
  {
    var size := BlockSize(szx);
    var n := NumBlocks(|f|, size);
    CountCovers(a.blocks.Keys, n);
    assert |a.blocks.Keys| == |a.blocks|;
    if a.blocks.Keys == Range(n) {
      NumBlocksBounds(|f|, size);
      JoinedPrefix(a.blocks, f, size, n);
    }
    hide Joined;
    hide NumBlocks;
    hide BlockSize;
  }

  ghost function FiledBlock(a: Partial, r: CoapResponse, later: real): (s: Option<Partial>) {
    Filed(a, r.num, r.szx, Some(r.etag), Some(r.size2), r.payload, later)
  }

  lemma FiledHolds(a: Partial, r: CoapResponse, f: bytes, szx: nat, later: real)
    requires IsBlock(r, f, r.etag, szx)
    requires a.etag == Some(r.etag) ==> Holding(a, f, szx)
    requires FiledBlock(a, r, later).Some?
    ensures var b := FiledBlock(a, r, later).value;
            && Holding(b, f, szx) && b.etag == Some(r.etag)
            && b.blocks.Keys == (if r.num == 0 then {} else a.blocks.Keys) + {r.num}
  {
    hide NumBlocks;
    hide BlockOf;
    hide BlockSize;
  }

  ghost function FedBlock(a: Partial, r: CoapResponse, later: real): (s: (Partial, Feed)) {
    FeedBlock(a, r.num, r.more, r.szx, Some(r.etag), Some(r.size2), r.payload, later)
  }

  /** One block of frame `f`, fed to an assembler that is empty, on another frame, or part of the
      way through `f`: it returns the frame exactly when this is the final block and no other
      is missing, and it never raises. */
  lemma FeedBlockExact(a: Partial, r: CoapResponse, f: bytes, szx: nat, later: real)
    requires IsBlock(r, f, r.etag, szx)
    requires a.etag == Some(r.etag) ==> Holding(a, f, szx)
    ensures var (b, out) := FedBlock(a, r, later);
            var had := if r.num == 0 then {} else a.blocks.Keys;
            && (out == Frame(f) <==>
                  && (r.num == 0 || a.etag == Some(r.etag))
                  && !r.more && had + {r.num} == Range(NumBlocks(|f|, BlockSize(szx))) && IsJpeg(f))
            && (out == NoFrame || out == Frame(f))
            && (b == a || b == EMPTY || (b.etag == Some(r.etag) && Holding(b, f, szx)))
  {
    hide Holding;
    hide IsBlock;
    hide Concluded;
    hide NumBlocks;
    hide Range;
    hide BlockSize;
    if FiledBlock(a, r, later).Some? {
      FiledHolds(a, r, f, szx, later);
      ConcludedFrame(FiledBlock(a, r, later).value, f, szx);
    }
  }

  lemma FeedBlockSafe(a: Partial, r: CoapResponse, f: bytes, szx: nat, later: real)
    requires IsBlock(r, f, r.etag, szx)
    requires a.etag == Some(r.etag) ==> Holding(a, f, szx)
    ensures var (b, out) := FedBlock(a, r, later);
            && (out == NoFrame || out == Frame(f))
            && (b == a || b == EMPTY || (b.etag == Some(r.etag) && Holding(b, f, szx)))
  {
    hide *;
    FeedBlockExact(a, r, f, szx, later);
  }

  // ---- any order ----

  ghost function FedBlocks(a: Partial, rs: seq<CoapResponse>, later: real): (r: (Partial, seq<Feed>))
    ensures |r.1| == |rs|
    decreases |rs|
  {
    if |rs| == 0 then (a, [])
    else
      var (b, out) := FedBlock(a, rs[0], later);
      var (c, outs) := FedBlocks(b, rs[1..], later);
      (c, [out] + outs)
  }

  /** Part of the way through the frame with these blocks, or through with it. */
  ghost predicate Going(a: Partial, f: bytes, etag: nat, szx: nat, seen: set<nat>, finished: bool) {
    if finished then a == EMPTY else a.etag == Some(etag) && Holding(a, f, szx) && a.blocks.Keys == seen
  }

  ghost predicate AllSeen(seen: set<nat>, f: bytes, szx: nat) {
    seen == Range(NumBlocks(|f|, BlockSize(szx)))
  }

  lemma GoingStep(a: Partial, r: CoapResponse, f: bytes, etag: nat, szx: nat, seen: set<nat>, finished: bool, later: real)
    requires LaterBlock(r, f, etag, szx) && IsJpeg(f) && Going(a, f, etag, szx, seen, finished)
    ensures var (b, out) := FedBlock(a, r, later);
            var now := !finished && !r.more && AllSeen(seen + {r.num}, f, szx);
            out == (if now then Frame(f) else NoFrame) && Going(b, f, etag, szx, seen + {r.num}, finished || now)
  {
    hide Holding;
    hide Concluded;
    hide NumBlocks;
    hide Range;
    hide BlockSize;
    hide BlockOf;
    if !finished {
      FiledHolds(a, r, f, szx, later);
      ConcludedFrame(FiledBlock(a, r, later).value, f, szx);
    }
  }

  /** The final block arrives at `i` with no other missing, and did not before. */
  ghost predicate FinalLast(seen: set<nat>, rs: seq<CoapResponse>, f: bytes, szx: nat, i: nat)
    requires i < |rs|
  {
    !rs[i].more && AllSeen(Seen(seen, rs, i + 1), f, szx)
  }

  ghost predicate FirstFinal(seen: set<nat>, rs: seq<CoapResponse>, f: bytes, szx: nat, i: nat)
    requires i < |rs|
  {
    FinalLast(seen, rs, f, szx, i) && forall j: nat :: j < i ==> !FinalLast(seen, rs, f, szx, j)
  }

  lemma FinalTail(seen: set<nat>, rs: seq<CoapResponse>, f: bytes, szx: nat, i: nat)
    requires 0 < i < |rs|
    ensures FinalLast(seen, rs, f, szx, i) <==> FinalLast(seen + {rs[0].num}, rs[1..], f, szx, i - 1)
  {
    SeenTail(seen, rs, i + 1);
    hide Seen;
    hide AllSeen;
  }

  lemma FinalHead(seen: set<nat>, rs: seq<CoapResponse>, f: bytes, szx: nat)
    requires |rs| > 0
    ensures FinalLast(seen, rs, f, szx, 0) <==> !rs[0].more && AllSeen(seen + {rs[0].num}, f, szx)
  {
    assert Seen(seen, rs, 1) == seen + {rs[0].num};
    hide AllSeen;
  }

  ghost predicate AllLater(rs: seq<CoapResponse>, f: bytes, etag: nat, szx: nat) {
    forall r :: r in rs ==> LaterBlock(r, f, etag, szx)
  }

  lemma FedStep(a: Partial, rs: seq<CoapResponse>, f: bytes, etag: nat, szx: nat, later: real)
    requires AllLater(rs, f, etag, szx) && |rs| > 0
    ensures LaterBlock(rs[0], f, etag, szx) && AllLater(rs[1..], f, etag, szx)
    ensures var (b, out) := FedBlock(a, rs[0], later);
            var outs, more := FedBlocks(a, rs, later).1, FedBlocks(b, rs[1..], later).1;
            |outs| == |rs| == |more| + 1 && outs[0] == out && forall i :: 0 < i < |rs| ==> outs[i] == more[i - 1]
  {
    hide FedBlock;
    hide LaterBlock;
    assert rs[0] in rs;
  }

  lemma {:induction false} FedGoing(a: Partial, rs: seq<CoapResponse>, f: bytes, etag: nat, szx: nat, seen: set<nat>, finished: bool, later: real, i: nat)
    requires AllLater(rs, f, etag, szx) && IsJpeg(f) && Going(a, f, etag, szx, seen, finished) && i < |rs|
    ensures FedBlocks(a, rs, later).1[i] == if !finished && FirstFinal(seen, rs, f, szx, i) then Frame(f) else NoFrame
    decreases |rs|
  {
    hide *;
    var (b, out) := FedBlock(a, rs[0], later);
    FedStep(a, rs, f, etag, szx, later);
    GoingStep(a, rs[0], f, etag, szx, seen, finished, later);
    FinalHead(seen, rs, f, szx);
    FirstHead(seen, rs, f, szx);
    if i > 0 {
      FirstTail(seen, rs, f, szx, i);
      FedGoing(b, rs[1..], f, etag, szx, seen + {rs[0].num}, finished || FinalLast(seen, rs, f, szx, 0), later, i - 1);
    }
  }

  lemma FirstHead(seen: set<nat>, rs: seq<CoapResponse>, f: bytes, szx: nat)
    requires |rs| > 0
    ensures FirstFinal(seen, rs, f, szx, 0) <==> FinalLast(seen, rs, f, szx, 0)
  {
    hide FinalLast;
  }

  lemma FirstTail(seen: set<nat>, rs: seq<CoapResponse>, f: bytes, szx: nat, i: nat)
    requires 0 < i < |rs|
    ensures FirstFinal(seen, rs, f, szx, i) <==>
            !FinalLast(seen, rs, f, szx, 0) && FirstFinal(seen + {rs[0].num}, rs[1..], f, szx, i - 1)
  {
    var tail := seen + {rs[0].num};
    forall j: nat | 0 < j <= i ensures FinalLast(seen, rs, f, szx, j) <==> FinalLast(tail, rs[1..], f, szx, j - 1) {
      FinalTail(seen, rs, f, szx, j);
    }
    hide FinalLast;
    if FirstFinal(seen, rs, f, szx, i) {
      forall j: nat | j < i - 1 ensures !FinalLast(tail, rs[1..], f, szx, j) {
        assert !FinalLast(seen, rs, f, szx, j + 1);
      }
    }
    if !FinalLast(seen, rs, f, szx, 0) && FirstFinal(tail, rs[1..], f, szx, i - 1) {
      forall j: nat | j < i ensures !FinalLast(seen, rs, f, szx, j) {
        if j > 0 { assert !FinalLast(tail, rs[1..], f, szx, j - 1); }
      }
    }
  }

  // ---- the whole frame ----

  ghost predicate CameBefore(rs: seq<CoapResponse>, i: nat, k: nat)
    requires i <= |rs|
  {
    exists j: nat :: j < i && rs[j].num == k
  }

  /** Packet `i` is the final block, and every other block has come before it. */
  ghost predicate FinalAfterAll(rs: seq<CoapResponse>, n: nat, i: nat)
    requires i < |rs|
  {
    rs[i].num + 1 == n && forall k: nat :: 0 < k < n - 1 ==> CameBefore(rs, i, k)
  }

  lemma LaterFacts(rs: seq<CoapResponse>, f: bytes, etag: nat, szx: nat, j: nat)
    requires AllLater(rs, f, etag, szx) && j < |rs|
    ensures var n := NumBlocks(|f|, BlockSize(szx)); 0 < rs[j].num < n && (rs[j].more <==> rs[j].num + 1 < n)
  {
    assert rs[j] in rs;
    hide NumBlocks;
    hide BlockSize;
    hide BlockOf;
  }

  lemma InSeen(rs: seq<CoapResponse>, i: nat, k: nat)
    requires i <= |rs|
    ensures k in Seen({0}, rs, i) <==> k == 0 || CameBefore(rs, i, k)
  {
  }

  lemma BeforeFinal(rs: seq<CoapResponse>, i: nat, k: nat)
    requires i < |rs| && k != rs[i].num
    ensures CameBefore(rs, i + 1, k) <==> CameBefore(rs, i, k)
  {
    if CameBefore(rs, i + 1, k) {
      var j: nat :| j < i + 1 && rs[j].num == k;
      assert j < i;
    }
    if CameBefore(rs, i, k) {
      var j: nat :| j < i && rs[j].num == k;
      assert j < i + 1;
    }
  }

  lemma SeenCovers(rs: seq<CoapResponse>, n: nat, i: nat)
    requires i < |rs| && (forall j: nat :: j < |rs| ==> 0 < rs[j].num < n) && rs[i].num + 1 == n
    ensures Seen({0}, rs, i + 1) == Range(n) <==> FinalAfterAll(rs, n, i)
  {
    var s := Seen({0}, rs, i + 1);
    assert CameBefore(rs, i + 1, n - 1) by { assert i < i + 1; }
    forall k: nat ensures k in s <==> k == 0 || CameBefore(rs, i + 1, k) { InSeen(rs, i + 1, k); }
    forall k: nat | CameBefore(rs, i + 1, k) ensures k in Range(n) {
      var j: nat :| j < i + 1 && rs[j].num == k;
    }
    forall k: nat | 0 < k < n - 1 ensures CameBefore(rs, i + 1, k) <==> CameBefore(rs, i, k) { BeforeFinal(rs, i, k); }
    hide Seen;
    hide CameBefore;
    assert s <= Range(n);
    if s == Range(n) {
      forall k: nat | 0 < k < n - 1 ensures CameBefore(rs, i, k) { assert k in s; }
    }
    if FinalAfterAll(rs, n, i) {
      forall k: nat | k < n ensures k in s { if 0 < k < n - 1 { assert CameBefore(rs, i, k); } }
    }
  }

  lemma FinalMeans(rs: seq<CoapResponse>, f: bytes, etag: nat, szx: nat, i: nat)
    requires AllLater(rs, f, etag, szx) && i < |rs|
    ensures FinalLast({0}, rs, f, szx, i) <==> FinalAfterAll(rs, NumBlocks(|f|, BlockSize(szx)), i)
  {
    var n := NumBlocks(|f|, BlockSize(szx));
    forall j: nat | j < |rs| ensures 0 < rs[j].num < n && (rs[j].more <==> rs[j].num + 1 < n) { LaterFacts(rs, f, etag, szx, j); }
    hide AllLater;
    hide NumBlocks;
    hide BlockSize;
    hide Seen;
    hide Range;
    if rs[i].num + 1 == n { SeenCovers(rs, n, i); }
  }

  lemma FirstOf(rs: seq<CoapResponse>, f: bytes, szx: nat, i: nat) returns (j: nat)
    requires i < |rs| && FinalLast({0}, rs, f, szx, i)
    ensures j <= i && FirstFinal({0}, rs, f, szx, j)
  {
    hide FinalLast;
    j := 0;
    while !FinalLast({0}, rs, f, szx, j)
      invariant j <= i && forall k: nat :: k < j ==> !FinalLast({0}, rs, f, szx, k)
      decreases i - j
    {
      j := j + 1;
    }
  }

  /** Block 0 starts the frame, whatever was under way. */
  lemma FirstBlock(a: Partial, r0: CoapResponse, f: bytes, szx: nat, later: real)
    requires IsBlock(r0, f, r0.etag, szx) && r0.num == 0 && IsJpeg(f)
    ensures var (b, out) := FedBlock(a, r0, later);
            var one := NumBlocks(|f|, BlockSize(szx)) == 1;
            out == (if one then Frame(f) else NoFrame) && Going(b, f, r0.etag, szx, {0}, one)
  {
    assert FedBlock(a, r0, later) == FedBlock(EMPTY, r0, later);
    OneBlock(NumBlocks(|f|, BlockSize(szx)));
    var n := NumBlocks(|f|, BlockSize(szx));
    assert r0.more <==> 1 < n;
    assert n > 0;
    hide NumBlocks;
    hide BlockOf;
    hide BlockSize;
    hide Holding;
    hide Concluded;
    FiledHolds(EMPTY, r0, f, szx, later);
    ConcludedFrame(FiledBlock(EMPTY, r0, later).value, f, szx);
    assert {} + {0} == {0};
  }

  /** The Python client over a whole frame. Once block 0 of a JPEG has come, let blocks of it come in
      any order with any repeats: the frame is returned at most once, and it is returned if and only
      if it is one block or some arrival of the final block comes after every other block. Nothing
      else is returned. */
  lemma ReturnedIffFinalAfterAll(a: Partial, r0: CoapResponse, rs: seq<CoapResponse>, f: bytes, szx: nat, later: real)
    requires IsBlock(r0, f, r0.etag, szx) && r0.num == 0 && AllLater(rs, f, r0.etag, szx) && IsJpeg(f)
    ensures var (b, out0) := FedBlock(a, r0, later);
            var outs := FedBlocks(b, rs, later).1;
            var n := NumBlocks(|f|, BlockSize(szx));
            && out0 == (if n == 1 then Frame(f) else NoFrame)
            && (forall i :: 0 <= i < |rs| ==> outs[i] == NoFrame || (outs[i] == Frame(f) && out0 == NoFrame))
            && (forall i, j :: 0 <= i < |rs| && 0 <= j < |rs| && outs[i] == Frame(f) && outs[j] == Frame(f) ==> i == j)
            && (out0 == Frame(f) || Frame(f) in outs <==> n == 1 || exists i: nat :: i < |rs| && FinalAfterAll(rs, n, i))
  {
    hide *;
    var (b, out0) := FedBlock(a, r0, later);
    var outs := FedBlocks(b, rs, later).1;
    var n := NumBlocks(|f|, BlockSize(szx));
    FirstBlock(a, r0, f, szx, later);
    forall i: nat | i < |rs| ensures outs[i] == if n != 1 && FirstFinal({0}, rs, f, szx, i) then Frame(f) else NoFrame {
      FedGoing(b, rs, f, r0.etag, szx, {0}, n == 1, later, i);
    }
    forall i: nat, j: nat | i < |rs| && j < |rs| && FirstFinal({0}, rs, f, szx, i) && FirstFinal({0}, rs, f, szx, j) ensures i == j {
      FirstOnce(rs, f, szx, i, j);
    }
    forall i: nat | i < |rs| ensures FinalLast({0}, rs, f, szx, i) <==> FinalAfterAll(rs, n, i) {
      FinalMeans(rs, f, r0.etag, szx, i);
    }
    forall i: nat | i < |rs| && FirstFinal({0}, rs, f, szx, i) ensures FinalLast({0}, rs, f, szx, i) {
      FirstOnce(rs, f, szx, i, i);
    }
    if i: nat :| i < |rs| && FinalAfterAll(rs, n, i) {
      var j := FirstOf(rs, f, szx, i);
      assert n != 1 ==> outs[j] == Frame(f);
    }
  }

  lemma FirstOnce(rs: seq<CoapResponse>, f: bytes, szx: nat, i: nat, j: nat)
    requires i < |rs| && j < |rs| && FirstFinal({0}, rs, f, szx, i) && FirstFinal({0}, rs, f, szx, j)
    ensures i == j && FinalLast({0}, rs, f, szx, i)
  {
    hide FinalLast;
  }

  /** The smallest loss: of a frame in three blocks the final one overtakes the middle one. Every block
      has come, and the frame is not returned; the K1 would publish it. */
  lemma FinalOvertakes(a: Partial, r0: CoapResponse, r1: CoapResponse, r2: CoapResponse, f: bytes, szx: nat, later: real)
    requires NumBlocks(|f|, BlockSize(szx)) == 3 && IsJpeg(f)
    requires IsBlock(r0, f, r0.etag, szx) && IsBlock(r1, f, r0.etag, szx) && IsBlock(r2, f, r0.etag, szx)
    requires r0.num == 0 && r1.num == 1 && r2.num == 2
    ensures var (b, out0) := FedBlock(a, r0, later); out0 == NoFrame && FedBlocks(b, [r2, r1], later).1 == [NoFrame, NoFrame]
    ensures AllSeen(Seen({0}, [r2, r1], 2), f, szx)
  {
    var rs := [r2, r1];
    SeenThree(rs);
    MakeLater(r1, r2, f, r0.etag, szx);
    hide *;
    FinalLate(rs);
    ReturnedIffFinalAfterAll(a, r0, rs, f, szx, later);
    var (b, out0) := FedBlock(a, r0, later);
    var outs := FedBlocks(b, rs, later).1;
    assert outs[0] in outs && outs[1] in outs;
    assert outs == [outs[0], outs[1]];
  }

  lemma SeenThree(rs: seq<CoapResponse>)
    requires |rs| == 2 && rs[0].num == 2 && rs[1].num == 1
    ensures Seen({0}, rs, 2) == Range(3)
  {
    assert forall k: nat :: k in Seen({0}, rs, 2) <==> k == 0 || k == rs[0].num || k == rs[1].num;
    hide Seen;
  }

  lemma MakeLater(r1: CoapResponse, r2: CoapResponse, f: bytes, etag: nat, szx: nat)
    requires IsBlock(r1, f, etag, szx) && IsBlock(r2, f, etag, szx) && r1.num > 0 && r2.num > 0
    ensures AllLater([r2, r1], f, etag, szx)
  {
    hide IsBlock;
  }

  lemma FinalLate(rs: seq<CoapResponse>)
    requires |rs| == 2 && rs[0].num == 2 && rs[1].num == 1
    ensures forall i: nat :: i < |rs| ==> !FinalAfterAll(rs, 3, i)
  {
    assert !CameBefore(rs, 0, 1);
  }
}
