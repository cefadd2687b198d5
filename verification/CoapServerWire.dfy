/** What the camera puts on the wire and takes off it (receive/coap_server.h):
    responses written into a packet buffer, requests read with a cursor. Each routine on the
    buffer is shown to write exactly the octets of a function, and the parser to agree with a
    recursive one on every packet, malformed ones included. */
module CoapServerWire {
  import opened Bytes
  import opened CoapOptions

  const URI_SIZE := 32

  datatype BlockField = BlockField(num: nat, more: bool, szx: nat)

  datatype Reply = Reply(typ: nat, code: byte, msgId: nat, token: bytes, etag: nat, format: byte,
                         block: Option<BlockField>, total: nat, payload: bytes)

  predicate ValidReply(r: Reply) {
    r.msgId < 0x1_0000 && |r.token| <= 8 && r.etag < 0x1_0000_0000 && r.total < 0x1_0000_0000
  }

  // ---- responses, as octet strings ----

  /** One, two or three octets; a value above 24 bits loses its top octet. */
  function UintOctets(v: nat): (s: bytes)
    ensures 1 <= |s| <= 3
  {
    if v <= 255 then [v]
    else if v <= 65535 then [v / 256, v % 256]
    else [v / 65536 % 256, v / 256 % 256, v % 256]
  }

  lemma Positions(v: nat)
    ensures v < 0x1_0000 ==> v / 256 * 256 + v % 256 == v
    ensures v < 0x100_0000 ==> v / 65536 % 256 * 65536 + v / 256 % 256 * 256 + v % 256 == v
  {
  }

  lemma UintOctetsValue(v: nat)
    requires v < 0x100_0000
    ensures BigEndian(UintOctets(v)) == v
    ensures |UintOctets(v)| == if v < 0x100 then 1 else if v < 0x1_0000 then 2 else 3
  {
    Positions(v);
    hide BigEndian;
    BigEndianSmall(UintOctets(v));
  }

  /** The whole option, empty when the encoder gives up. */
  function UintOption(prev: nat, num: nat, v: nat): (o: bytes)
    requires prev <= num
    ensures num - prev <= 12 ==> 2 <= |o| <= 4
  {
    if OptionHead(num - prev, |UintOctets(v)|).Some?
    then EncodedOption(num - prev, UintOctets(v)) else []
  }

  /** The Block2 value of section 2.2 of RFC 7959, computed in 32 bits. */
  function Block2Value(b: BlockField): (v: nat)
  {
    b.num * 16 % 0x1_0000_0000 + (if b.more then 8 else 0) + b.szx % 8
  }

  function ETagOption(etag: nat): (s: bytes) {
    if etag != 0 then UintOption(0, OPT_ETAG, etag) else []
  }

  function BlockOptions(block: Option<BlockField>, total: nat): (s: bytes) {
    match block
    case None => []
    case Some(b) =>
      UintOption(OPT_CONTENT_FMT, OPT_BLOCK2, Block2Value(b)) +
      if total > 0 then UintOption(OPT_BLOCK2, OPT_SIZE2, total) else []
  }

  function ReplyOptions(r: Reply): (o: bytes)
    ensures |o| <= 16
  {
    ETagOption(r.etag) +
    UintOption(if r.etag != 0 then OPT_ETAG else 0, OPT_CONTENT_FMT, r.format) +
    BlockOptions(r.block, r.total)
  }

  function ReplyHead(r: Reply): (h: bytes)
    requires ValidReply(r)
    ensures |h| == 4 + |r.token|
  {
    [64 + r.typ % 4 * 16 + |r.token|, r.code] + U16(r.msgId) + r.token
  }

  /** The payload is cut to what is left of the buffer behind its marker. */
  function PayloadPart(payload: bytes, room: int): (p: bytes)
    requires room >= 1 || |payload| == 0
  {
    if |payload| == 0 then []
    else [0xFF] + if 1 + |payload| > room then payload[..room - 1] else payload
  }

  /** Head, options and payload marker fit the buffer, which the routine does not check beyond its
      first line; 32 octets are always enough. */
  predicate Roomy(outMax: nat, r: Reply)
    requires ValidReply(r)
  {
    outMax < 16 || outMax >= 32 ||
    |ReplyHead(r)| + |ReplyOptions(r)| + (if |r.payload| > 0 then 1 else 0) <= outMax
  }

  /** The packet; empty means that none is sent. */
  ghost function Response(outMax: nat, r: Reply): (p: bytes)
    requires ValidReply(r) && Roomy(outMax, r)
    ensures outMax >= 32 ==> |p| >= 4
  {
    if outMax < 16 then []
    else
      var prefix := ReplyHead(r) + ReplyOptions(r);
      prefix + PayloadPart(r.payload, outMax - |prefix|)
  }

  // ---- the buffer routines ----

  method Copy(out: array<byte>, at: nat, s: bytes)
    requires at + |s| <= out.Length
    modifies out
    ensures out[..at + |s|] == old(out[..at]) + s && out[at + |s|..] == old(out[at + |s|..])
  {
    forall i | 0 <= i < |s| { out[at + i] := s[i]; }
  }

  method EncodeUintOption(out: array<byte>, at: nat, prev: nat, num: nat, v: nat) returns (n: nat)
    requires prev <= num && at + |UintOption(prev, num, v)| <= out.Length
    modifies out
    ensures n == |UintOption(prev, num, v)|
    ensures out[..at + n] == old(out[..at]) + UintOption(prev, num, v)
  {
    var delta := num - prev;
    var val: bytes;
    if v <= 255 {
      val := [v];
    } else if v <= 65535 {
      val := [v / 256, v % 256];
    } else {
      val := [v / 65536 % 256, v / 256 % 256, v % 256];
    }
    var head: bytes;
    if delta <= 12 && |val| <= 12 {
      head := [delta * 16 + |val|];
    } else if delta <= 255 && |val| <= 12 {
      head := [13 * 16 + |val|, delta - 13];
    } else {
      return 0;
    }
    assert head + val == UintOption(prev, num, v);
    hide UintOption;
    Copy(out, at, head + val);
    n := |head| + |val|;
  }

  /** An option written behind what `sofar` says is there already. */
  method AppendUintOption(out: array<byte>, at: nat, prev: nat, num: nat, v: nat, ghost base: bytes, ghost sofar: bytes)
    returns (pos: nat)
    requires prev < num <= prev + 12 && at + |UintOption(prev, num, v)| <= out.Length
    requires out[..at] == base + sofar
    modifies out
    ensures at < pos == at + |UintOption(prev, num, v)|
    ensures out[..pos] == base + (sofar + UintOption(prev, num, v))
  {
    var n := EncodeUintOption(out, at, prev, num, v);
    Concat(base, sofar, UintOption(prev, num, v));
    pos := at + n;
  }

  method WriteETagAndFormat(out: array<byte>, at: nat, r: Reply) returns (pos: nat)
    requires ValidReply(r)
    requires at + |ETagOption(r.etag) + UintOption(if r.etag != 0 then OPT_ETAG else 0, OPT_CONTENT_FMT, r.format)| <= out.Length
    modifies out
    ensures at <= pos == at + |ETagOption(r.etag) + UintOption(if r.etag != 0 then OPT_ETAG else 0, OPT_CONTENT_FMT, r.format)|
    ensures out[..pos] == old(out[..at]) +
      (ETagOption(r.etag) + UintOption(if r.etag != 0 then OPT_ETAG else 0, OPT_CONTENT_FMT, r.format))
  {
    ghost var base := out[..at];
    pos := at;
    var prev := 0;
    Concat(base, [], []);
    if r.etag != 0 {
      pos := AppendUintOption(out, pos, prev, OPT_ETAG, r.etag, base, []);
      prev := OPT_ETAG;
    }
    assert [] + ETagOption(r.etag) == ETagOption(r.etag);
    pos := AppendUintOption(out, pos, prev, OPT_CONTENT_FMT, r.format, base, ETagOption(r.etag));
  }

  method WriteBlockOptions(out: array<byte>, at: nat, r: Reply) returns (pos: nat)
    requires ValidReply(r) && at + |BlockOptions(r.block, r.total)| <= out.Length
    modifies out
    ensures at <= pos == at + |BlockOptions(r.block, r.total)|
    ensures out[..pos] == old(out[..at]) + BlockOptions(r.block, r.total)
  {
    ghost var base := out[..at];
    pos := at;
    Concat(base, [], []);
    if r.block.Some? {
      ghost var o3 := UintOption(OPT_CONTENT_FMT, OPT_BLOCK2, Block2Value(r.block.value));
      pos := AppendUintOption(out, pos, OPT_CONTENT_FMT, OPT_BLOCK2, Block2Value(r.block.value), base, []);
      assert [] + o3 == o3;
      if r.total > 0 {
        pos := AppendUintOption(out, pos, OPT_BLOCK2, OPT_SIZE2, r.total, base, o3);
      } else {
        Concat(o3, [], []);
      }
    }
  }

  method WritePayload(out: array<byte>, at: nat, payload: bytes, outMax: nat) returns (pos: nat)
    requires at <= outMax <= out.Length && (|payload| > 0 ==> at < outMax)
    modifies out
    ensures at <= pos <= outMax
    ensures out[..pos] == old(out[..at]) + PayloadPart(payload, outMax - at)
  {
    pos := at;
    if |payload| > 0 {
      var send := payload;
      if pos + 1 + |send| > outMax {
        send := send[..outMax - pos - 1];
      }
      Copy(out, pos, [0xFF] + send);
      pos := pos + 1 + |send|;
    }
  }

  method WriteHead(out: array<byte>, r: Reply) returns (pos: nat)
    requires ValidReply(r) && |ReplyHead(r)| <= out.Length
    modifies out
    ensures pos == |ReplyHead(r)| && out[..pos] == ReplyHead(r)
  {
    var head := [64 + r.typ % 4 * 16 + |r.token|, r.code] + U16(r.msgId) + r.token;
    Copy(out, 0, head);
    pos := |head|;
  }

  lemma RoomFor(outMax: nat, r: Reply)
    requires ValidReply(r) && Roomy(outMax, r) && outMax >= 16
    ensures |ReplyHead(r)| + |ReplyOptions(r)| + (if |r.payload| > 0 then 1 else 0) <= outMax
  {
    hide ReplyHead;
    hide ReplyOptions;
  }

  lemma OptionParts(r: Reply)
    ensures ReplyOptions(r) ==
            ETagOption(r.etag) + UintOption(if r.etag != 0 then OPT_ETAG else 0, OPT_CONTENT_FMT, r.format) + BlockOptions(r.block, r.total)
  {
    hide UintOption;
  }

  method BuildResponse(out: array<byte>, outMax: nat, r: Reply) returns (pos: nat)
    requires ValidReply(r) && Roomy(outMax, r) && outMax <= out.Length
    modifies out
    ensures pos <= outMax
    ensures out[..pos] == Response(outMax, r)
  {
    hide ReplyHead;
    hide UintOption;
    hide ETagOption;
    hide BlockOptions;
    hide PayloadPart;
    hide ReplyOptions;
    if outMax < 16 { return 0; }
    RoomFor(outMax, r);
    OptionParts(r);
    var p0 := WriteHead(out, r);
    var p1 := WriteETagAndFormat(out, p0, r);
    ghost var o1 := ETagOption(r.etag) + UintOption(if r.etag != 0 then OPT_ETAG else 0, OPT_CONTENT_FMT, r.format);
    var p2 := WriteBlockOptions(out, p1, r);
    Concat(ReplyHead(r), o1, BlockOptions(r.block, r.total));
    pos := WritePayload(out, p2, r.payload, outMax);
  }

  // ---- requests ----

  datatype Request = Request(typ: nat, code: byte, msgId: nat, token: bytes, uri: bytes,
                             block: Option<(nat, nat)>)

  /** What a C string holds: everything before the first NUL. */
  function CString(s: bytes): (c: bytes)
    ensures |c| <= |s|
  {
    if |s| == 0 || s[0] == 0 then [] else [s[0]] + CString(s[1..])
  }

  /** One Uri-Path segment joined on, in a buffer of 32 octets with its terminator. */
  function AppendSegment(uri: bytes, val: bytes): (u: bytes)
    requires |uri| < URI_SIZE
    ensures |u| < URI_SIZE
  {
    var base := if uri != [] && |uri| + 1 < URI_SIZE then uri + ['/' as int] else uri;
    var copy := if |base| + |val| >= URI_SIZE then URI_SIZE - |base| - 1 else |val|;
    CString(base + val[..copy])
  }

  function ApplyRequestOption(r: Request, opt: nat, val: bytes): (r': Request)
    requires |r.uri| < URI_SIZE
    ensures |r'.uri| < URI_SIZE
  {
    if opt == OPT_URI_PATH then r.(uri := AppendSegment(r.uri, val))
    else if opt == OPT_BLOCK2 && |val| >= 1 then
      var v := BigEndian(val) % 0x1_0000_0000;
      r.(block := Some((v / 16, v % 8)))
    else r
  }

  function ApplyRequestFields(r: Request, fields: seq<Field>): (r': Request)
    requires |r.uri| < URI_SIZE
    ensures |r'.uri| < URI_SIZE
    decreases |fields|
  {
    if |fields| == 0 then r
    else ApplyRequestFields(ApplyRequestOption(r, fields[0].num, fields[0].val), fields[1..])
  }

  function RequestOptions(s: bytes, opt: nat, r: Request): (q: Option<(Request, bytes)>)
    requires |r.uri| < URI_SIZE
  {
    match Decode(s, opt)
    case None => None
    case Some(d) => Some((ApplyRequestFields(r, d.fields), d.payload))
  }

  function ParseRequest(data: bytes): (q: Option<(Request, bytes)>)
  {
    if |data| < 4 then None
    else
      var tkl := data[0] % 16;
      if data[0] / 64 != 1 || tkl > 8 || 4 + tkl > |data| then None
      else
        var r := Request(data[0] / 16 % 4, data[1], data[2] as int * 256 + data[3] as int, data[4..4 + tkl], [], None);
        RequestOptions(data[4 + tkl..], 0, r)
  }

  method StoreRequestOption(req: Request, opt: nat, data: bytes, start: nat, olen: nat) returns (r: Request)
    requires start + olen <= |data| && |req.uri| < URI_SIZE
    ensures r == ApplyRequestOption(req, opt, data[start..start + olen])
  {
    r := req;
    if opt == OPT_URI_PATH {
      r := req.(uri := AppendSegment(req.uri, data[start..start + olen]));
    } else if opt == OPT_BLOCK2 && olen >= 1 {
      var v := UintAt(data, start, olen);
      r := req.(block := Some((v / 16, v % 8)));
    }
  }

  lemma OneRequestOption(s: bytes, opt: nat, r: Request, delta: nat, val: bytes, rest: bytes)
    requires |s| > 0 && s[0] != 0xFF && ReadOption(s) == Read(delta, val, rest) && |r.uri| < URI_SIZE
    ensures RequestOptions(s, opt, r) == RequestOptions(rest, opt + delta, ApplyRequestOption(r, opt + delta, val))
  {
    DecodeStep(s, opt, delta, val, rest);
    hide Decode;
    hide ReadOption;
    hide ApplyRequestOption;
    var d := Decode(rest, opt + delta);
    if d.Some? {
      assert ([Field(opt + delta, val)] + d.value.fields)[1..] == d.value.fields;
    }
  }

  /** The loop body: one option consumed, or the packet refused. */
  method TakeRequestOption(data: bytes, pos: nat, opt: nat, req: Request)
    returns (ok: bool, pos': nat, opt': nat, req': Request)
    requires pos < |data| && data[pos] != 0xFF && |req.uri| < URI_SIZE
    ensures |req'.uri| < URI_SIZE
    ensures ok ==> pos < pos' <= |data| &&
                   RequestOptions(data[pos..], opt, req) == RequestOptions(data[pos'..], opt', req')
    ensures !ok ==> RequestOptions(data[pos..], opt, req) == None
  {
    hide ReadOption;
    hide ApplyRequestOption;
    hide ApplyRequestFields;
    pos', opt', req' := pos, opt, req;
    var delta, at, olen;
    ok, delta, at, olen := NextOption(data, pos);
    if ok {
      hide RequestOptions;
      OneRequestOption(data[pos..], opt, req, delta, data[at..at + olen], data[at + olen..]);
      opt' := opt + delta;
      req' := StoreRequestOption(req, opt', data, at, olen);
      pos' := at + olen;
    }
  }

  method ParseRequestOptions(data: bytes, start: nat, init: Request) returns (q: Option<(Request, bytes)>)
    requires start <= |data| && |init.uri| < URI_SIZE
    ensures q == RequestOptions(data[start..], 0, init)
  {
    hide ReadOption;
    var req, opt, pos := init, 0, start;
    while pos < |data|
      invariant pos <= |data| && |req.uri| < URI_SIZE
      invariant RequestOptions(data[start..], 0, init) == RequestOptions(data[pos..], opt, req)
      decreases |data| - pos
    {
      if data[pos] == 0xFF {
        assert data[pos..][1..] == data[pos + 1..];
        return Some((req, data[pos + 1..]));
      }
      var ok;
      ok, pos, opt, req := TakeRequestOption(data, pos, opt, req);
      if !ok { return None; }
    }
    return Some((req, []));
  }

  method ParseRequestPacket(data: bytes) returns (q: Option<(Request, bytes)>)
    ensures q == ParseRequest(data)
  {
    hide RequestOptions;
    if |data| < 4 { return None; }
    var tkl := data[0] % 16;
    if data[0] / 64 != 1 { return None; }
    if tkl > 8 { return None; }
    var ok, token := ReadToken(data, tkl);
    if !ok { return None; }
    var req := Request(data[0] / 16 % 4, data[1], data[2] as int * 256 + data[3] as int, token, [], None);
    q := ParseRequestOptions(data, 4 + tkl, req);
  }
}
