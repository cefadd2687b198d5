/** What the K1 side puts on the wire and takes off it (src/coap_receiver.c):
    GET and PUT requests built from a path, responses read with a cursor. */
module CoapReceiverWire {
  import opened Bytes
  import opened CoapOptions

  const STREAM_TOKEN: bytes := [0xCA, 0xFE, 0xBA, 0xBE]

  datatype CoapResponse = CoapResponse(
    token: bytes, present: set<nat>, etag: nat, num: nat, more: bool, szx: nat,
    size2: nat, format: nat, payload: bytes)

  function EmptyResponse(token: bytes): (r: CoapResponse) {
    CoapResponse(token, {}, 0, 0, false, 0, 0, 0, [])
  }

  // ---- responses ----

  function ApplyOption(r: CoapResponse, opt: nat, val: bytes): (r': CoapResponse)
    ensures r'.token == r.token && r'.payload == r.payload && r'.present == r.present + {opt}
  {
    var p := r.(present := r.present + {opt});
    if opt == OPT_ETAG && 1 <= |val| <= 4 then p.(etag := BigEndian(val))
    else if opt == OPT_BLOCK2 && |val| >= 1 then
      var v := BigEndian(val) % 0x1_0000_0000;
      p.(num := v / 16, more := v / 8 % 2 == 1, szx := v % 8)
    else if opt == OPT_SIZE2 && 1 <= |val| <= 4 then p.(size2 := BigEndian(val))
    else if opt == OPT_CONTENT_FMT && |val| >= 1 then p.(format := val[0])
    else p
  }

  function ApplyFields(r: CoapResponse, fields: seq<Field>): (r': CoapResponse)
    ensures r'.token == r.token && r'.payload == r.payload
    decreases |fields|
  {
    if |fields| == 0 then r
    else ApplyFields(ApplyOption(r, fields[0].num, fields[0].val), fields[1..])
  }

  function ResponseOptions(s: bytes, opt: nat, r: CoapResponse): (q: Option<CoapResponse>)
  {
    match Decode(s, opt)
    case None => None
    case Some(d) => Some(ApplyFields(r, d.fields).(payload := d.payload))
  }

  function ParseResponse(data: bytes): (q: Option<CoapResponse>)
  {
    if |data| < 4 then None
    else
      var tkl := data[0] % 16;
      if tkl > 8 || 4 + tkl > |data| then None
      else ResponseOptions(data[4 + tkl..], 0, EmptyResponse(data[4..4 + tkl]))
  }

  method StoreOption(resp: CoapResponse, opt: nat, data: bytes, start: nat, olen: nat) returns (r: CoapResponse)
    requires start + olen <= |data|
    ensures r == ApplyOption(resp, opt, data[start..start + olen])
  {
    ghost var val := data[start..start + olen];
    r := resp.(present := resp.present + {opt});
    var v := UintAt(data, start, olen);
    if olen <= 4 { BigEndianBound(val); }
    if opt == OPT_ETAG && 1 <= olen <= 4 {
      r := r.(etag := v);
    } else if opt == OPT_BLOCK2 && olen >= 1 {
      r := r.(num := v / 16, more := v / 8 % 2 == 1, szx := v % 8);
    } else if opt == OPT_SIZE2 && 1 <= olen <= 4 {
      r := r.(size2 := v);
    } else if opt == OPT_CONTENT_FMT && olen >= 1 {
      r := r.(format := data[start]);
    }
  }

  lemma OneOption(s: bytes, opt: nat, r: CoapResponse, delta: nat, val: bytes, rest: bytes)
    requires |s| > 0 && s[0] != 0xFF && ReadOption(s) == Read(delta, val, rest)
    ensures ResponseOptions(s, opt, r) == ResponseOptions(rest, opt + delta, ApplyOption(r, opt + delta, val))
  {
    DecodeStep(s, opt, delta, val, rest);
    hide Decode;
    hide ReadOption;
    hide ApplyOption;
    var d := Decode(rest, opt + delta);
    if d.Some? {
      assert ([Field(opt + delta, val)] + d.value.fields)[1..] == d.value.fields;
    }
  }

  /** The loop body: one option consumed, or the packet refused. */
  method TakeOption(data: bytes, pos: nat, opt: nat, resp: CoapResponse)
    returns (ok: bool, pos': nat, opt': nat, resp': CoapResponse)
    requires pos < |data| && data[pos] != 0xFF
    ensures ok ==> pos < pos' <= |data| &&
                   ResponseOptions(data[pos..], opt, resp) == ResponseOptions(data[pos'..], opt', resp')
    ensures !ok ==> ResponseOptions(data[pos..], opt, resp) == None
  {
    hide ReadOption;
    hide ApplyOption;
    hide ApplyFields;
    pos', opt', resp' := pos, opt, resp;
    var delta, at, olen;
    ok, delta, at, olen := NextOption(data, pos);
    if ok {
      hide ResponseOptions;
      OneOption(data[pos..], opt, resp, delta, data[at..at + olen], data[at + olen..]);
      opt' := opt + delta;
      resp' := StoreOption(resp, opt', data, at, olen);
      pos' := at + olen;
    }
  }

  method ParseOptions(data: bytes, start: nat, init: CoapResponse) returns (q: Option<CoapResponse>)
    requires start <= |data| && init.payload == []
    ensures q == ResponseOptions(data[start..], 0, init)
  {
    hide ReadOption;
    var resp, opt, pos := init, 0, start;
    while pos < |data|
      invariant pos <= |data|
      invariant ResponseOptions(data[start..], 0, init) == ResponseOptions(data[pos..], opt, resp)
      decreases |data| - pos
    {
      if data[pos] == 0xFF {
        assert data[pos..][1..] == data[pos + 1..];
        return Some(resp.(payload := data[pos + 1..]));
      }
      var ok;
      ok, pos, opt, resp := TakeOption(data, pos, opt, resp);
      if !ok { return None; }
    }
    return Some(resp.(payload := []));
  }

  method ParseResponsePacket(data: bytes) returns (q: Option<CoapResponse>)
    ensures q == ParseResponse(data)
  {
    hide ResponseOptions;
    if |data| < 4 { return None; }
    var tkl := data[0] % 16;
    if tkl > 8 { return None; }
    var ok, token := ReadToken(data, tkl);
    if !ok { return None; }
    q := ParseOptions(data, 4 + tkl, EmptyResponse(token));
  }

  // ---- requests ----

  const SLASH: byte := 47
  const MAX_SEGMENTS := 4
  const SEGMENT_SIZE := 32

  function Piece(cur: bytes, limit: nat): (r: seq<bytes>) {
    if 0 < |cur| < limit then [cur] else []
  }

  /** The pieces of a path between slashes that are not empty and shorter than `limit`;
      `cur` is the piece under way. */
  function Pieces(s: bytes, cur: bytes, limit: nat): (p: seq<bytes>)
    ensures forall x :: x in p ==> 0 < |x| < limit
    decreases |s|
  {
    if |s| == 0 then Piece(cur, limit)
    else if s[0] == SLASH then Piece(cur, limit) + Pieces(s[1..], [], limit)
    else Pieces(s[1..], cur + [s[0]], limit)
  }

  function FirstFour(p: seq<bytes>): (r: seq<bytes>) {
    if |p| > MAX_SEGMENTS then p[..MAX_SEGMENTS] else p
  }

  /** What the scanner keeps of a path. */
  function Segments(path: bytes): (p: seq<bytes>) {
    FirstFour(Pieces(path, [], SEGMENT_SIZE))
  }

  function UriFields(segs: seq<bytes>): (f: seq<Field>)
    ensures |f| == |segs|
  {
    seq(|segs|, i requires 0 <= i < |segs| => Field(OPT_URI_PATH, segs[i]))
  }

  lemma {:induction false} UriEncodable(segs: seq<bytes>, prev: nat)
    requires prev == 0 || prev == OPT_URI_PATH
    requires forall x :: x in segs ==> |x| < SEGMENT_SIZE
    ensures Encodable(prev, UriFields(segs))
    ensures |Encode(prev, UriFields(segs))| <= 33 * |segs|
    ensures |segs| > 0 ==> UriFields(segs)[1..] == UriFields(segs[1..])
    ensures |segs| > 0 ==>
              Encode(prev, UriFields(segs)) == EncodedOption(OPT_URI_PATH - prev, segs[0]) + Encode(OPT_URI_PATH, UriFields(segs[1..]))
    decreases |segs|
  {
    if |segs| > 0 {
      assert UriFields(segs)[1..] == UriFields(segs[1..]);
      UriEncodable(segs[1..], OPT_URI_PATH);
    }
  }

  ghost function UriOptions(segs: seq<bytes>): (o: bytes)
    requires forall x :: x in segs ==> |x| < SEGMENT_SIZE
    ensures |o| <= 33 * |segs|
  {
    UriEncodable(segs, 0);
    Encode(0, UriFields(segs))
  }

  ghost predicate OnlySlashes(path: bytes) {
    forall i :: 0 <= i < |path| ==> path[i] == SLASH
  }

  /** A confirmable request with a four-octet token; empty means that none is built. */
  ghost function RequestPacket(code: byte, path: bytes, msgId: nat, token: bytes, payload: bytes, outMax: nat): (s: bytes)
    requires msgId < 0x1_0000 && |token| == 4
  {
    var packet := [0x44, code] + U16(msgId) + token + UriOptions(Segments(path)) + PayloadTail(payload);
    if OnlySlashes(path) || |packet| > outMax then [] else packet
  }

  method SkipSlashes(path: bytes) returns (p: nat)
    ensures p <= |path| && (p == |path| <==> OnlySlashes(path))
    ensures Pieces(path, [], SEGMENT_SIZE) == Pieces(path[p..], [], SEGMENT_SIZE)
  {
    p := 0;
    assert path[0..] == path;
    while p < |path| && path[p] == SLASH
      invariant p <= |path| && forall i :: 0 <= i < p ==> path[i] == SLASH
      invariant Pieces(path, [], SEGMENT_SIZE) == Pieces(path[p..], [], SEGMENT_SIZE)
    {
      assert path[p..][1..] == path[p + 1..];
      p := p + 1;
    }
  }

  /** One step of the scanner at position `p` of the piece that began at `start`. */
  lemma ScanStep(path: bytes, start: nat, p: nat)
    requires start <= p < |path|
    ensures path[p] != SLASH ==>
              Pieces(path[p..], path[start..p], SEGMENT_SIZE) == Pieces(path[p + 1..], path[start..p + 1], SEGMENT_SIZE)
    ensures path[p] == SLASH ==>
              Pieces(path[p..], path[start..p], SEGMENT_SIZE) ==
              Piece(path[start..p], SEGMENT_SIZE) + Pieces(path[p + 1..], path[p + 1..p + 1], SEGMENT_SIZE)
  {
    assert path[p..][1..] == path[p + 1..];
    assert path[start..p] + [path[p]] == path[start..p + 1];
    assert path[p + 1..p + 1] == [];
  }

  lemma FirstFourOf(segs: seq<bytes>, left: seq<bytes>)
    requires |segs| <= MAX_SEGMENTS
    requires left == [] || |segs| == MAX_SEGMENTS
    ensures FirstFour(segs + left) == segs
  {
    Concat(segs, [], left);
  }

  /** The scanner: leading slashes skipped, then at most four pieces cut out. */
  method ScanPath(path: bytes) returns (found: bool, segs: seq<bytes>)
    ensures found <==> !OnlySlashes(path)
    ensures found ==> segs == Segments(path)
  {
    segs := [];
    var p := SkipSlashes(path);
    if p == |path| { return false, []; }
    found := true;
    var start := p;
    ghost var goal := Pieces(path, [], SEGMENT_SIZE);
    assert path[start..p] == [];
    ghost var left := Pieces(path[p..], path[start..p], SEGMENT_SIZE);
    while p < |path| && |segs| < MAX_SEGMENTS
      invariant start <= p <= |path| && |segs| <= MAX_SEGMENTS
      invariant left == Pieces(path[p..], path[start..p], SEGMENT_SIZE)
      invariant goal == segs + left
      invariant |segs| == MAX_SEGMENTS ==> start == p
    {
      ScanStep(path, start, p);
      if path[p] == SLASH {
        var piece := path[start..p];
        left := Pieces(path[p + 1..], path[p + 1..p + 1], SEGMENT_SIZE);
        Concat(segs, Piece(piece, SEGMENT_SIZE), left);
        if 0 < |piece| < SEGMENT_SIZE { segs := segs + [piece]; } else { Concat(segs, [], []); }
        start := p + 1;
      }
      p := p + 1;
    }
    if start < |path| {
      var piece := path[start..p];
      if 0 < |piece| < SEGMENT_SIZE {
        segs := segs + [piece];
        left := [];
      }
    }
    FirstFourOf(segs, left);
  }

  /** The option buffer, filled segment by segment. */
  method BuildUriOptions(segs: seq<bytes>) returns (opts: bytes)
    requires forall x :: x in segs ==> |x| < SEGMENT_SIZE
    ensures opts == UriOptions(segs)
  {
    opts := [];
    var prev := 0;
    assert segs[0..] == segs;
    UriEncodable(segs, 0);
    Concat(UriOptions(segs), [], []);
    for i := 0 to |segs|
      invariant prev == 0 || prev == OPT_URI_PATH
      invariant Encodable(prev, UriFields(segs[i..]))
      invariant UriOptions(segs) == opts + Encode(prev, UriFields(segs[i..]))
    {
      hide OptionHead;
      UriEncodable(segs[i..], prev);
      UriEncodable(segs[i + 1..], OPT_URI_PATH);
      assert segs[i..][1..] == segs[i + 1..];
      var option := EncodedOption(OPT_URI_PATH - prev, segs[i]);
      Concat(opts, option, Encode(OPT_URI_PATH, UriFields(segs[i + 1..])));
      opts := opts + option;
      prev := OPT_URI_PATH;
    }
    Concat(opts, [], []);
  }

  /** Both request builders; a GET carries no payload. */
  method BuildRequest(code: byte, path: bytes, msgId: nat, token: bytes, payload: bytes, outMax: nat) returns (packet: bytes)
    requires msgId < 0x1_0000 && |token| == 4
    ensures packet == RequestPacket(code, path, msgId, token, payload, outMax)
  {
    var found, segs := ScanPath(path);
    if !found { return []; }
    var opts := BuildUriOptions(segs);
    if 8 > outMax { return []; }
    packet := [0x44, code] + U16(msgId) + token;
    if |packet| + |opts| > outMax { return []; }
    packet := packet + opts;
    if |payload| > 0 {
      if |packet| + 1 + |payload| > outMax { return []; }
      packet := packet + ([0xFF] + payload);
    }
  }
}
