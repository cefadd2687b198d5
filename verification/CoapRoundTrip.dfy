/** What one end writes the other end reads back: responses from camera to K1, requests
    from K1 to camera. */
module CoapRoundTrip {
  import opened Bytes
  import opened CoapOptions
  import opened CoapServerWire
  import opened CoapReceiverWire

  // ---- responses ----

  ghost predicate Representable(r: Reply) {
    && ValidReply(r)
    && r.etag < 0x100_0000
    && r.total < 0x100_0000
    && (r.block.Some? ==> r.block.value.num < 0x10_0000 && r.block.value.szx < 8)
  }

  /** The payload as the packet buffer has room for it. */
  ghost function CarriedPayload(r: Reply): (p: bytes)
    requires ValidReply(r)
  {
    var room := MAX_PACKET - |ReplyHead(r)| - |ReplyOptions(r)| - 1;
    if |r.payload| > room then r.payload[..room] else r.payload
  }

  ghost function Received(r: Reply): (s: CoapResponse)
    requires ValidReply(r)
  {
    CoapResponse(
      r.token,
      (if r.etag != 0 then {OPT_ETAG} else {}) + {OPT_CONTENT_FMT} +
      (if r.block.Some? then {OPT_BLOCK2} + (if r.total > 0 then {OPT_SIZE2} else {}) else {}),
      r.etag,
      if r.block.Some? then r.block.value.num else 0,
      r.block.Some? && r.block.value.more,
      if r.block.Some? then r.block.value.szx else 0,
      if r.block.Some? then r.total else 0,
      r.format,
      CarriedPayload(r))
  }

  lemma Block2RoundTrip(b: BlockField)
    requires b.num < 0x10_0000 && b.szx < 8
    ensures var v := Block2Value(b);
            v < 0x100_0000 && v / 16 == b.num && (v / 8 % 2 == 1 <==> b.more) && v % 8 == b.szx
  {
    var low := (if b.more then 8 else 0) + b.szx;
    assert b.num * 16 % 0x1_0000_0000 == b.num * 16;
    assert Block2Value(b) == 16 * b.num + low;
    assert low / 8 == if b.more then 1 else 0;
    assert (16 * b.num + low) / 8 == 2 * b.num + low / 8;
  }

  /** The options that a response carries, as number and value. */
  function BlockFields(block: Option<BlockField>, total: nat): (r: seq<Field>) {
    match block
    case None => []
    case Some(b) =>
      [Field(OPT_BLOCK2, UintOctets(Block2Value(b)))] +
      if total > 0 then [Field(OPT_SIZE2, UintOctets(total))] else []
  }

  function FormatFields(r: Reply): (s: seq<Field>) {
    [Field(OPT_CONTENT_FMT, UintOctets(r.format))] + BlockFields(r.block, r.total)
  }

  function ReplyFields(r: Reply): (s: seq<Field>) {
    if r.etag != 0 then [Field(OPT_ETAG, UintOctets(r.etag))] + FormatFields(r) else FormatFields(r)
  }

  lemma BlockOptionsEncoded(block: Option<BlockField>, total: nat)
    ensures Encodable(OPT_CONTENT_FMT, BlockFields(block, total))
    ensures Encode(OPT_CONTENT_FMT, BlockFields(block, total)) == BlockOptions(block, total)
  {
    hide UintOctets;
    match block
    case None =>
    case Some(b) =>
      if total > 0 {
        EncodeCons(OPT_BLOCK2, Field(OPT_SIZE2, UintOctets(total)), []);
        Concat(EncodedOption(OPT_SIZE2 - OPT_BLOCK2, UintOctets(total)), [], []);
        Concat([Field(OPT_SIZE2, UintOctets(total))], [], []);
        EncodeCons(OPT_CONTENT_FMT, Field(OPT_BLOCK2, UintOctets(Block2Value(b))), [Field(OPT_SIZE2, UintOctets(total))]);
      } else {
        EncodeCons(OPT_CONTENT_FMT, Field(OPT_BLOCK2, UintOctets(Block2Value(b))), []);
      }
  }

  lemma ReplyOptionsEncoded(r: Reply)
    ensures Encodable(0, ReplyFields(r))
    ensures Encode(0, ReplyFields(r)) == ReplyOptions(r)
  {
    hide UintOctets;
    BlockOptionsEncoded(r.block, r.total);
    var prev := if r.etag != 0 then OPT_ETAG else 0;
    var o2 := UintOption(prev, OPT_CONTENT_FMT, r.format);
    EncodeCons(prev, Field(OPT_CONTENT_FMT, UintOctets(r.format)), BlockFields(r.block, r.total));
    Concat(ETagOption(r.etag), o2, BlockOptions(r.block, r.total));
    Concat(o2, BlockOptions(r.block, r.total), []);
    if r.etag != 0 {
      EncodeCons(0, Field(OPT_ETAG, UintOctets(r.etag)), FormatFields(r));
    } else {
      Concat(o2, [], []);
    }
  }

  lemma FieldsCons(r: CoapResponse, f: Field, fields: seq<Field>)
    ensures ApplyFields(r, [f] + fields) == ApplyFields(ApplyOption(r, f.num, f.val), fields)
  {
    hide ApplyOption;
    assert ([f] + fields)[1..] == fields;
  }

  /** What each option does to the response being filled. */
  lemma ApplyKnown(r: CoapResponse, v: nat)
    requires v < 0x100_0000
    ensures ApplyOption(r, OPT_ETAG, UintOctets(v)) == r.(present := r.present + {OPT_ETAG}, etag := v)
    ensures ApplyOption(r, OPT_SIZE2, UintOctets(v)) == r.(present := r.present + {OPT_SIZE2}, size2 := v)
    ensures v < 256 ==> ApplyOption(r, OPT_CONTENT_FMT, UintOctets(v)) == r.(present := r.present + {OPT_CONTENT_FMT}, format := v)
    ensures ApplyOption(r, OPT_BLOCK2, UintOctets(v)) ==
            r.(present := r.present + {OPT_BLOCK2}, num := v / 16, more := v / 8 % 2 == 1, szx := v % 8)
  {
    UintOctetsValue(v);
    hide BigEndian;
  }

  function WithBlock(p: CoapResponse, block: Option<BlockField>, total: nat): (r: CoapResponse) {
    match block
    case None => p
    case Some(b) =>
      var q := p.(present := p.present + {OPT_BLOCK2}, num := b.num, more := b.more, szx := b.szx);
      if total > 0 then q.(present := q.present + {OPT_SIZE2}, size2 := total) else q
  }

  lemma ReceivedBlock(p: CoapResponse, block: Option<BlockField>, total: nat)
    requires total < 0x100_0000
    requires block.Some? ==> block.value.num < 0x10_0000 && block.value.szx < 8
    ensures ApplyFields(p, BlockFields(block, total)) == WithBlock(p, block, total)
  {
    hide UintOctets;
    hide ApplyOption;
    if block.Some? {
      var b := block.value;
      Block2RoundTrip(b);
      hide Block2Value;
      var more := if total > 0 then [Field(OPT_SIZE2, UintOctets(total))] else [];
      FieldsCons(p, Field(OPT_BLOCK2, UintOctets(Block2Value(b))), more);
      ApplyKnown(p, Block2Value(b));
      var q := ApplyOption(p, OPT_BLOCK2, UintOctets(Block2Value(b)));
      if total > 0 {
        Concat(more, [], []);
        FieldsCons(q, Field(OPT_SIZE2, UintOctets(total)), []);
        ApplyKnown(q, total);
      }
    }
  }

  lemma ReceivedFields(r: Reply)
    requires Representable(r)
    ensures ApplyFields(EmptyResponse(r.token), ReplyFields(r)).(payload := CarriedPayload(r)) == Received(r)
  {
    hide UintOctets;
    hide ApplyOption;
    hide BlockFields;
    hide ApplyFields;
    var p := EmptyResponse(r.token);
    if r.etag != 0 {
      FieldsCons(p, Field(OPT_ETAG, UintOctets(r.etag)), FormatFields(r));
      ApplyKnown(p, r.etag);
      p := ApplyOption(p, OPT_ETAG, UintOctets(r.etag));
    }
    FieldsCons(p, Field(OPT_CONTENT_FMT, UintOctets(r.format)), BlockFields(r.block, r.total));
    ApplyKnown(p, r.format);
    p := ApplyOption(p, OPT_CONTENT_FMT, UintOctets(r.format));
    ReceivedBlock(p, r.block, r.total);
  }

  /** The packet taken apart: its header octets, then options and payload. */
  lemma ReplyLayout(r: Reply)
    requires ValidReply(r)
    ensures var data := Response(MAX_PACKET, r);
            var n := |r.token|;
            && 4 + n <= |data|
            && data[0] % 16 == n
            && data[4..4 + n] == r.token
            && data[4 + n..] == ReplyOptions(r) + PayloadPart(r.payload, MAX_PACKET - |ReplyHead(r)| - |ReplyOptions(r)|)
  {
    hide UintOption;
    hide BlockOptions;
    hide ETagOption;
    hide PayloadPart;
    var head, opts := ReplyHead(r), ReplyOptions(r);
    var rest := PayloadPart(r.payload, MAX_PACKET - |head| - |opts|);
    assert |head + opts| == |head| + |opts|;
    Concat(head, opts, rest);
    assert head[4..4 + |r.token|] == r.token;
    assert head[0] == 16 * (4 + r.typ % 4) + |r.token|;
  }

  lemma ResponseBody(data: bytes, token: bytes, body: bytes, fields: seq<Field>, payload: bytes)
    requires |token| <= 8 && 4 + |token| <= |data| && data[0] % 16 == |token|
    requires data[4..4 + |token|] == token && data[4 + |token|..] == body
    requires Decode(body, 0) == Some(Decoded(fields, payload))
    ensures ParseResponse(data) == Some(ApplyFields(EmptyResponse(token), fields).(payload := payload))
  {
    hide Decode;
    hide ApplyFields;
  }

  lemma ReplyDecoded(r: Reply, rest: bytes)
    requires rest == [] || rest[0] == 0xFF
    ensures Decode(ReplyOptions(r) + rest, 0) == Some(Decoded(ReplyFields(r), Payload(rest)))
  {
    ReplyOptionsEncoded(r);
    hide Decode;
    hide ReplyOptions;
    hide ReplyFields;
    hide Encode;
    DecodeEncoded(0, ReplyFields(r), rest);
  }

  /** A response read back by the K1 receiver is the response the camera built: token,
      ETag, Content-Format, Block2 number, more flag and size exponent, Size2 and payload. */
  lemma ResponseRoundTrip(r: Reply)
    requires Representable(r)
    ensures ParseResponse(Response(MAX_PACKET, r)) == Some(Received(r))
  {
    var rest := PayloadPart(r.payload, MAX_PACKET - |ReplyHead(r)| - |ReplyOptions(r)|);
    assert Payload(rest) == CarriedPayload(r);
    ReplyLayout(r);
    ReceivedFields(r);
    hide Response;
    hide ReplyOptions;
    hide ReplyFields;
    hide ApplyFields;
    hide Decode;
    hide ParseResponse;
    hide Received;
    hide CarriedPayload;
    ReplyDecoded(r, rest);
    ResponseBody(Response(MAX_PACKET, r), r.token, ReplyOptions(r) + rest, ReplyFields(r), Payload(rest));
  }

  // ---- requests ----

  /** Segments joined on to a path with slashes between them. */
  function JoinOnto(uri: bytes, segs: seq<bytes>): (u: bytes)
    decreases |segs|
  {
    if |segs| == 0 then uri
    else JoinOnto(if uri == [] then segs[0] else uri + [SLASH] + segs[0], segs[1..])
  }

  ghost predicate NoNul(s: bytes) {
    forall i :: 0 <= i < |s| ==> s[i] != 0
  }

  lemma {:induction false} CStringOfText(s: bytes)
    requires NoNul(s)
    ensures CString(s) == s
  {
    if |s| > 0 {
      CStringOfText(s[1..]);
      assert s == [s[0]] + s[1..];
    }
  }

  lemma {:induction false} JoinGrows(uri: bytes, segs: seq<bytes>)
    requires forall x :: x in segs ==> 0 < |x|
    ensures |JoinOnto(uri, segs)| >= |uri|
    ensures segs != [] ==> |JoinOnto(uri, segs)| > |uri|
    decreases |segs|
  {
    if |segs| > 0 {
      JoinGrows(if uri == [] then segs[0] else uri + [SLASH] + segs[0], segs[1..]);
    }
  }

  lemma {:induction false} JoinSplit(uri: bytes, a: seq<bytes>, b: seq<bytes>)
    ensures JoinOnto(uri, a + b) == JoinOnto(JoinOnto(uri, a), b)
    decreases |a|
  {
    if |a| == 0 {
      assert a + b == b;
    } else {
      assert (a + b)[1..] == a[1..] + b;
      JoinSplit(if uri == [] then a[0] else uri + [SLASH] + a[0], a[1..], b);
    }
  }

  /** Reading the Uri-Path options rebuilds the joined path while it fits the buffer. */
  lemma {:induction false} TakeUriFields(segs: seq<bytes>, q: Request)
    requires forall x :: x in segs ==> 0 < |x| < SEGMENT_SIZE && NoNul(x)
    requires NoNul(q.uri) && |q.uri| < URI_SIZE && |JoinOnto(q.uri, segs)| < URI_SIZE
    ensures ApplyRequestFields(q, UriFields(segs)) == q.(uri := JoinOnto(q.uri, segs))
    decreases |segs|
  {
    hide AppendSegment;
    if |segs| > 0 {
      var seg := segs[0];
      assert seg in segs;
      var u := if q.uri == [] then seg else q.uri + [SLASH] + seg;
      JoinGrows(u, segs[1..]);
      AppendFits(q.uri, seg);
      assert NoNul(u);
      assert UriFields(segs)[1..] == UriFields(segs[1..]);
      TakeUriFields(segs[1..], q.(uri := u));
    }
  }

  lemma AppendFits(uri: bytes, seg: bytes)
    requires NoNul(uri) && NoNul(seg) && |uri| < URI_SIZE && |seg| > 0
    requires uri != [] ==> |uri| + 1 + |seg| < URI_SIZE
    requires |seg| < URI_SIZE
    ensures AppendSegment(uri, seg) == if uri == [] then seg else uri + [SLASH] + seg
  {
    var base := if uri != [] then uri + [SLASH] else uri;
    assert seg[..|seg|] == seg;
    CStringOfText(base + seg);
    if uri == [] { assert base + seg == seg; }
  }

  lemma {:induction false} PiecesText(s: bytes, cur: bytes, limit: nat)
    requires NoNul(s) && NoNul(cur)
    ensures forall x :: x in Pieces(s, cur, limit) ==> NoNul(x)
    decreases |s|
  {
    if |s| > 0 {
      PiecesText(s[1..], if s[0] == SLASH then [] else cur + [s[0]], limit);
    }
  }

  lemma RequestBody(data: bytes, token: bytes, body: bytes, q: Request, fields: seq<Field>, payload: bytes)
    requires |data| >= 8 && data[0] == 0x44 && data[4..8] == token && data[8..] == body
    requires q == Request(TYPE_CON, data[1], data[2] as int * 256 + data[3] as int, token, [], None)
    requires Decode(body, 0) == Some(Decoded(fields, payload))
    ensures ParseRequest(data) == Some((ApplyRequestFields(q, fields), payload))
  {
    hide Decode;
    hide ApplyRequestFields;
  }

  lemma UriDecoded(segs: seq<bytes>, payload: bytes)
    requires forall x :: x in segs ==> |x| < SEGMENT_SIZE
    ensures Decode(UriOptions(segs) + PayloadTail(payload), 0) == Some(Decoded(UriFields(segs), payload))
  {
    UriEncodable(segs, 0);
    assert Payload(PayloadTail(payload)) == payload;
    hide Decode;
    hide Encode;
    hide UriFields;
    DecodeEncoded(0, UriFields(segs), PayloadTail(payload));
  }

  lemma {:induction false} OnlyUri(segs: seq<bytes>, q: Request)
    requires |q.uri| < URI_SIZE
    ensures ApplyRequestFields(q, UriFields(segs)).(uri := q.uri) == q
    decreases |segs|
  {
    if |segs| > 0 {
      assert UriFields(segs)[1..] == UriFields(segs[1..]);
      OnlyUri(segs[1..], q.(uri := AppendSegment(q.uri, segs[0])));
      hide AppendSegment;
    }
  }

  /** A built request parses; only the path may differ from what was put in. */
  lemma RequestParses(code: byte, path: bytes, msgId: nat, token: bytes, payload: bytes)
    requires msgId < 0x1_0000 && |token| == 4 && !OnlySlashes(path)
    requires 8 + |UriOptions(Segments(path))| + |PayloadTail(payload)| <= MAX_PACKET
    ensures ParseRequest(RequestPacket(code, path, msgId, token, payload, MAX_PACKET)) ==
            Some((ApplyRequestFields(Request(TYPE_CON, code, msgId, token, [], None), UriFields(Segments(path))), payload))
  {
    var segs := Segments(path);
    SegmentsSized(path);
    hide Segments;
    hide Pieces;
    hide ParseRequest;
    hide UriOptions;
    hide UriFields;
    hide ApplyRequestFields;
    hide Decode;
    var opts, tail := UriOptions(segs), PayloadTail(payload);
    var data := RequestPacket(code, path, msgId, token, payload, MAX_PACKET);
    RequestLayout([0x44, code], msgId, token, opts, tail, data);
    var q := Request(TYPE_CON, code, msgId, token, [], None);
    UriDecoded(segs, payload);
    RequestBody(data, token, opts + tail, q, UriFields(segs), payload);
  }

  /** The camera reads back what the K1 built, as long as the joined segments fit 31 octets. */
  lemma RequestRoundTrip(code: byte, path: bytes, msgId: nat, token: bytes, payload: bytes)
    requires msgId < 0x1_0000 && |token| == 4 && NoNul(path)
    requires !OnlySlashes(path)
    requires |JoinOnto([], Segments(path))| < URI_SIZE
    requires 8 + |UriOptions(Segments(path))| + |PayloadTail(payload)| <= MAX_PACKET
    ensures ParseRequest(RequestPacket(code, path, msgId, token, payload, MAX_PACKET)) ==
            Some((Request(TYPE_CON, code, msgId, token, JoinOnto([], Segments(path)), None), payload))
  {
    hide *;
    SegmentsSized(path);
    RequestParses(code, path, msgId, token, payload);
    TakeSegments(code, path, msgId, token);
  }

  lemma SegmentsSized(path: bytes)
    ensures |Segments(path)| <= MAX_SEGMENTS && MAX_PACKET == 1400 && URI_SIZE == 32 && TYPE_CON == 0
    ensures forall x :: x in Segments(path) ==> 0 < |x| < SEGMENT_SIZE
  {
    hide Pieces;
  }

  lemma SegmentsText(path: bytes)
    requires NoNul(path)
    ensures forall x :: x in Segments(path) ==> 0 < |x| < SEGMENT_SIZE && NoNul(x)
  {
    PiecesText(path, [], SEGMENT_SIZE);
    hide Pieces;
  }

  lemma TakeSegments(code: byte, path: bytes, msgId: nat, token: bytes)
    requires NoNul(path) && |JoinOnto([], Segments(path))| < URI_SIZE
    ensures var q := Request(TYPE_CON, code, msgId, token, [], None);
            ApplyRequestFields(q, UriFields(Segments(path))) == q.(uri := JoinOnto([], Segments(path)))
  {
    SegmentsText(path);
    hide Segments;
    TakeUriFields(Segments(path), Request(TYPE_CON, code, msgId, token, [], None));
    hide ApplyRequestFields;
    hide UriFields;
    hide JoinOnto;
  }

  lemma RequestLayout(head: bytes, msgId: nat, token: bytes, opts: bytes, tail: bytes, data: bytes)
    requires |head| == 2 && msgId < 0x1_0000 && |token| == 4
    requires data == head + U16(msgId) + token + opts + tail
    ensures |data| >= 8 && data[0] == head[0] && data[1] == head[1]
    ensures data[2] as int * 256 + data[3] as int == msgId
    ensures data[4..8] == token && data[8..] == opts + tail
  {
    var h := head + U16(msgId) + token;
    Concat(h, opts, tail);
    assert h[2] == U16(msgId)[0] && h[3] == U16(msgId)[1];
    assert h[4..8] == token;
  }

  /** All the segments of a path that are not empty, however many and however long. */
  ghost function AllSegments(path: bytes): (r: seq<bytes>) {
    Pieces(path, [], |path| + 1)
  }

  lemma {:induction false} PiecesLimit(s: bytes, cur: bytes, limit: nat, limit': nat)
    requires limit <= limit'
    requires forall x :: x in Pieces(s, cur, limit') ==> |x| < limit
    ensures Pieces(s, cur, limit) == Pieces(s, cur, limit')
    decreases |s|
  {
    if |s| == 0 {
      assert |cur| > 0 && |cur| < limit' ==> cur in Pieces(s, cur, limit');
    } else if s[0] == SLASH {
      var more := Pieces(s[1..], [], limit');
      assert Pieces(s, cur, limit') == Piece(cur, limit') + more;
      assert forall x :: x in more ==> x in Pieces(s, cur, limit');
      assert 0 < |cur| < limit' ==> Pieces(s, cur, limit')[0] == cur;
      PiecesLimit(s[1..], [], limit, limit');
    } else {
      PiecesLimit(s[1..], cur + [s[0]], limit, limit');
    }
  }

  lemma {:induction false} PiecesShort(s: bytes, cur: bytes, limit: nat)
    ensures forall x :: x in Pieces(s, cur, limit) ==> |x| <= |cur| + |s|
    decreases |s|
  {
    if |s| > 0 {
      PiecesShort(s[1..], if s[0] == SLASH then [] else cur + [s[0]], limit);
    }
  }

  lemma {:induction false} SegmentsShort(uri: bytes, segs: seq<bytes>)
    requires forall x :: x in segs ==> 0 < |x|
    ensures forall x :: x in segs ==> |x| <= |JoinOnto(uri, segs)|
    decreases |segs|
  {
    if |segs| > 0 {
      var u := if uri == [] then segs[0] else uri + [SLASH] + segs[0];
      JoinGrows(u, segs[1..]);
      SegmentsShort(u, segs[1..]);
      forall x | x in segs ensures |x| <= |JoinOnto(uri, segs)| {
        if x != segs[0] { assert x in segs[1..]; }
      }
    }
  }

  lemma KeptSegments(path: bytes)
    requires |JoinOnto([], AllSegments(path))| < URI_SIZE
    ensures Segments(path) == FirstFour(AllSegments(path))
    ensures |JoinOnto([], Segments(path))| < URI_SIZE
    ensures JoinOnto([], Segments(path)) == JoinOnto([], AllSegments(path)) <==> |AllSegments(path)| <= MAX_SEGMENTS
  {
    var all := AllSegments(path);
    SegmentsShort([], all);
    PiecesShort(path, [], SEGMENT_SIZE);
    if |path| + 1 >= SEGMENT_SIZE {
      PiecesLimit(path, [], SEGMENT_SIZE, |path| + 1);
    } else {
      PiecesLimit(path, [], |path| + 1, SEGMENT_SIZE);
    }
    hide Pieces;
    hide JoinOnto;
    if |all| > MAX_SEGMENTS {
      assert all == all[..MAX_SEGMENTS] + all[MAX_SEGMENTS..];
      JoinSplit([], all[..MAX_SEGMENTS], all[MAX_SEGMENTS..]);
      JoinGrows([], all);
      JoinGrows(JoinOnto([], all[..MAX_SEGMENTS]), all[MAX_SEGMENTS..]);
    }
  }

  /** Whatever the path, header, token and payload arrive. The camera sees all its segments joined if and
      only if there are at most four of them, as the scanner drops the fifth and later, and the join
      is below the 32 octets of the camera's buffer. */
  lemma PathArrivesIff(code: byte, path: bytes, msgId: nat, token: bytes, payload: bytes)
    requires msgId < 0x1_0000 && |token| == 4 && NoNul(path) && !OnlySlashes(path)
    requires 8 + |UriOptions(Segments(path))| + |PayloadTail(payload)| <= MAX_PACKET
    ensures var q := ParseRequest(RequestPacket(code, path, msgId, token, payload, MAX_PACKET));
            var all := AllSegments(path);
            && q.Some? && q.value.1 == payload
            && q.value.0.(uri := []) == Request(TYPE_CON, code, msgId, token, [], None)
            && (q.value.0.uri == JoinOnto([], all) <==> |all| <= MAX_SEGMENTS && |JoinOnto([], all)| < URI_SIZE)
  {
    hide *;
    SegmentsSized(path);
    RequestParses(code, path, msgId, token, payload);
    OnlyUri(Segments(path), Request(TYPE_CON, code, msgId, token, [], None));
    UriBound(Segments(path), Request(TYPE_CON, code, msgId, token, [], None));
    if |JoinOnto([], AllSegments(path))| < URI_SIZE {
      KeptSegments(path);
      RequestRoundTrip(code, path, msgId, token, payload);
    }
  }

  lemma UriBound(segs: seq<bytes>, q: Request)
    requires |q.uri| < URI_SIZE
    ensures |ApplyRequestFields(q, UriFields(segs)).uri| < URI_SIZE
  {
    hide UriFields;
  }

  lemma StepPieces(s: bytes, cur: bytes, limit: nat)
    requires |s| > 0
    ensures Pieces(s, cur, limit) ==
            if s[0] == SLASH then Piece(cur, limit) + Pieces(s[1..], [], limit) else Pieces(s[1..], cur + [s[0]], limit)
  {
  }

  lemma LastPiece(c: byte, limit: nat)
    requires c != SLASH && limit >= 2
    ensures Pieces([c], [], limit) == [[c]]
  {
    assert [] + [c] == [c];
    assert Pieces([c][1..], [c], limit) == [[c]];
  }

  lemma OneCharPiece(c: byte, s: bytes, limit: nat)
    requires c != SLASH && limit >= 2
    ensures Pieces([c, SLASH] + s, [], limit) == [[c]] + Pieces(s, [], limit)
  {
    var t := [c, SLASH] + s;
    assert t[1..][1..] == s;
    assert [] + [c] == [c];
    hide Pieces;
    StepPieces(t, [], limit);
    StepPieces(t[1..], [c], limit);
  }

  /** The five segments of "a/b/c/d/e", of which the scanner keeps four. */
  lemma FifthSegmentLost()
    ensures var path := [97, SLASH] + ([98, SLASH] + ([99, SLASH] + ([100, SLASH] + [101])));
            Segments(path) == [[97], [98], [99], [100]] && AllSegments(path) == [[97], [98], [99], [100], [101]]
  {
    FivePieces(SEGMENT_SIZE);
    FivePieces(10);
    hide Pieces;
  }

  lemma FivePieces(limit: nat)
    requires limit >= 2
    ensures var path := [97, SLASH] + ([98, SLASH] + ([99, SLASH] + ([100, SLASH] + [101])));
            Pieces(path, [], limit) == [[97], [98], [99], [100], [101]]
  {
    hide Pieces;
    LastPiece(101, limit);
    OneCharPiece(100, [101], limit);
    OneCharPiece(99, [100, SLASH] + [101], limit);
    OneCharPiece(98, [99, SLASH] + ([100, SLASH] + [101]), limit);
    OneCharPiece(97, [98, SLASH] + ([99, SLASH] + ([100, SLASH] + [101])), limit);
  }

  // ---- octets on the wire ----

  lemma {:induction false} OnePiece(s: bytes, cur: bytes, limit: nat)
    requires SLASH !in s
    ensures Pieces(s, cur, limit) == Piece(cur + s, limit)
    decreases |s|
  {
    if |s| == 0 {
      assert cur + s == cur;
    } else {
      StepPieces(s, cur, limit);
      OnePiece(s[1..], cur + [s[0]], limit);
      assert cur + [s[0]] + s[1..] == cur + s;
    }
  }

  lemma OneSegment(seg: bytes)
    requires 0 < |seg| < SEGMENT_SIZE && SLASH !in seg
    ensures Segments([SLASH] + seg) == [seg] && !OnlySlashes([SLASH] + seg)
    ensures UriOptions([seg]) == (if |seg| <= 12 then [0xB0 + |seg|] else [0xBD, |seg| - 13]) + seg
  {
    OneName(seg);
    OneUri(seg);
    hide *;
  }

  lemma OneName(seg: bytes)
    requires 0 < |seg| < SEGMENT_SIZE && SLASH !in seg
    ensures Segments([SLASH] + seg) == [seg] && !OnlySlashes([SLASH] + seg)
  {
    var path := [SLASH] + seg;
    assert path[1..] == seg && path[1] == seg[0];
    StepPieces(path, [], SEGMENT_SIZE);
    OnePiece(seg, [], SEGMENT_SIZE);
    assert [] + seg == seg;
    hide Pieces;
  }

  lemma OneUri(seg: bytes)
    requires 0 < |seg| < SEGMENT_SIZE
    ensures UriOptions([seg]) == (if |seg| <= 12 then [0xB0 + |seg|] else [0xBD, |seg| - 13]) + seg
  {
    UriEncodable([seg], 0);
    assert [seg][1..] == [];
  }

  /** The octets of a request for a resource with a name of up to 31 characters: version 1,
      confirmable, a token of four; the name as the one Uri-Path option, number 11. */
  lemma RequestOctets(code: byte, seg: bytes, msgId: nat, token: bytes, payload: bytes)
    requires msgId < 0x1_0000 && |token| == 4 && 0 < |seg| < SEGMENT_SIZE && SLASH !in seg && |payload| <= 1200
    ensures RequestPacket(code, [SLASH] + seg, msgId, token, payload, MAX_PACKET) ==
            [0x44, code, msgId / 256, msgId % 256] + token + ((if |seg| <= 12 then [0xB0 + |seg|] else [0xBD, |seg| - 13]) + seg)
            + (if |payload| > 0 then [0xFF] + payload else [])
  {
    OneSegment(seg);
    hide UriOptions;
    hide Segments;
    hide OnlySlashes;
    assert [0x44, code] + U16(msgId) == [0x44, code, msgId / 256, msgId % 256];
  }

  /** An option whose number is `delta` above the one before, with a number as its value. */
  function NumberOption(delta: nat, v: nat): (o: bytes)
    requires delta <= 12
  {
    [delta * 16 + |UintOctets(v)|] + UintOctets(v)
  }

  function BlockNumber(b: BlockField): (v: nat) {
    b.num * 16 + (if b.more then 8 else 0) + b.szx
  }

  /** The octets of a block of the stream: version 1, type NON, code 2.05; ETag 4, Content-Format 12
      (image/jpeg), Block2 23 and Size2 28, numbers in as few octets as they need. */
  lemma BlockOctets(r: Reply)
    requires Representable(r) && r.typ == TYPE_NON && r.code == 0x45 && r.format == 22
    requires r.etag > 0 && r.block.Some? && r.total > 0 && 0 < |r.payload| <= 1024
    ensures Response(MAX_PACKET, r) ==
            [0x50 + |r.token|, 0x45, r.msgId / 256, r.msgId % 256] + r.token
            + (NumberOption(4, r.etag) + [0x81, 22] + NumberOption(11, BlockNumber(r.block.value)) + NumberOption(5, r.total))
            + ([0xFF] + r.payload)
  {
    hide Encode;
    assert ReplyHead(r) == [0x50 + |r.token|, 0x45, r.msgId / 256, r.msgId % 256] + r.token;
    BlockOptionOctets(r);
    hide ReplyOptions;
    hide ReplyHead;
    hide NumberOption;
  }

  lemma BlockOptionOctets(r: Reply)
    requires Representable(r) && r.format == 22 && r.etag > 0 && r.block.Some? && r.total > 0
    ensures ReplyOptions(r) ==
            NumberOption(4, r.etag) + [0x81, 22] + NumberOption(11, BlockNumber(r.block.value)) + NumberOption(5, r.total)
  {
    assert Block2Value(r.block.value) == BlockNumber(r.block.value);
    NumberOptionIs(0, OPT_ETAG, r.etag);
    NumberOptionIs(OPT_ETAG, OPT_CONTENT_FMT, 22);
    NumberOptionIs(OPT_CONTENT_FMT, OPT_BLOCK2, BlockNumber(r.block.value));
    NumberOptionIs(OPT_BLOCK2, OPT_SIZE2, r.total);
    assert NumberOption(8, 22) == [0x81, 22];
    hide UintOption;
    hide NumberOption;
    hide Block2Value;
  }

  lemma NumberOptionIs(prev: nat, num: nat, v: nat)
    requires prev <= num <= prev + 12
    ensures UintOption(prev, num, v) == NumberOption(num - prev, v)
  {
    hide UintOctets;
  }
}
