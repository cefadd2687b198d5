/** The Python client's receiver (receive/ov-imu-pwm.py): a parser without bounds checks and
    a reassembler that completes only on the final block. */
module JpegAssembler {
  import opened Bytes
  import opened CoapOptions
  import opened CoapReceiverWire
  import opened StreamFrames

  // ---- parse_packet ----

  /** Python's slice, which stops at the end of the string. */
  function SliceTo(s: bytes, n: nat): (t: bytes) { if n <= |s| then s[..n] else s }
  function SliceFrom(s: bytes, n: nat): (t: bytes) { if n <= |s| then s[n..] else [] }

  /** One option; an index past the end raises, an over-long value is cut. */
  function ReadLoosely(s: bytes): (r: OptionRead)
    requires |s| > 0
    ensures r.Read? ==> |r.rest| < |s|
  {
    var d, l := s[0] / 16, s[0] % 16;
    var i := 1 + ExtensionLength(d);
    var at := i + ExtensionLength(l);
    if at > |s| then Malformed
    else
      var tail := SliceFrom(s, at);
      Read(Extended(d, s, 1), SliceTo(tail, Extended(l, s, i)), SliceFrom(tail, Extended(l, s, i)))
  }

  datatype Packet = Raised | Packet(token: bytes, opts: map<nat, bytes>, payload: bytes)

  function ParseLoosely(s: bytes, opt: nat, token: bytes, opts: map<nat, bytes>): (r: Packet)
    decreases |s|
  {
    if |s| == 0 then Packet(token, opts, [])
    else if s[0] == 0xFF then Packet(token, opts, s[1..])
    else match ReadLoosely(s)
      case Malformed => Raised
      case Read(delta, val, rest) => ParseLoosely(rest, opt + delta, token, opts[opt + delta := val])
  }

  function ParsePacket(data: bytes): (r: Packet) {
    if |data| == 0 then Raised
    else
      var tkl := data[0] % 16;
      ParseLoosely(SliceFrom(data, 4 + tkl), 0, SliceTo(SliceFrom(data, 4), tkl), map[])
  }

  function WithFields(opts: map<nat, bytes>, fields: seq<Field>): (r: map<nat, bytes>)
    decreases |fields|
  {
    if |fields| == 0 then opts else WithFields(opts[fields[0].num := fields[0].val], fields[1..])
  }

  lemma ReadsAlike(s: bytes)
    requires |s| > 0 && ReadOption(s).Read?
    ensures ReadLoosely(s) == ReadOption(s)
  {
    var d, l := s[0] / 16, s[0] % 16;
    var at := 1 + ExtensionLength(d) + ExtensionLength(l);
    var end := at + Extended(l, s, 1 + ExtensionLength(d));
    assert s[at..][..end - at] == s[at..end];
    assert s[at..][end - at..] == s[end..];
  }

  lemma OneLoosely(s: bytes, opt: nat, token: bytes, opts: map<nat, bytes>, delta: nat, val: bytes, rest: bytes)
    requires |s| > 0 && s[0] != 0xFF && ReadLoosely(s) == Read(delta, val, rest)
    ensures ParseLoosely(s, opt, token, opts) == ParseLoosely(rest, opt + delta, token, opts[opt + delta := val])
  {
    hide ReadLoosely;
  }

  lemma AcceptedReads(s: bytes, opt: nat)
    requires |s| > 0 && s[0] != 0xFF && Decode(s, opt).Some?
    ensures ReadOption(s).Read?
  {
    hide ReadOption;
  }

  /** One option consumed by both parsers. */
  lemma StepAlike(s: bytes, opt: nat, token: bytes, opts: map<nat, bytes>) returns (f: Field, rest: bytes)
    requires |s| > 0 && s[0] != 0xFF && Decode(s, opt).Some?
    ensures |rest| < |s| && Decode(s, opt) == Prepend(f, Decode(rest, f.num))
    ensures ParseLoosely(s, opt, token, opts) == ParseLoosely(rest, f.num, token, opts[f.num := f.val])
  {
    hide Decode;
    hide ParseLoosely;
    AcceptedReads(s, opt);
    ReadsAlike(s);
    hide ReadLoosely;
    var r := ReadOption(s);
    hide ReadOption;
    f, rest := Field(opt + r.delta, r.val), r.rest;
    DecodeStep(s, opt, r.delta, r.val, rest);
    OneLoosely(s, opt, token, opts, r.delta, r.val, rest);
  }

  lemma EndAlike(s: bytes, opt: nat, token: bytes, opts: map<nat, bytes>)
    requires |s| == 0 || s[0] == 0xFF
    ensures Decode(s, opt) == Some(Decoded([], if |s| == 0 then [] else s[1..]))
    ensures ParseLoosely(s, opt, token, opts) == Packet(token, opts, if |s| == 0 then [] else s[1..])
  {
    hide ReadOption;
    hide ReadLoosely;
  }

  lemma WithFirst(opts: map<nat, bytes>, f: Field, fields: seq<Field>)
    ensures WithFields(opts, [f] + fields) == WithFields(opts[f.num := f.val], fields)
  {
    assert ([f] + fields)[1..] == fields;
  }

  /** On every option list that the strict parsers accept the loose one finds the same options
      and payload. */
  lemma {:induction false} ParsesAlike(s: bytes, opt: nat, token: bytes, opts: map<nat, bytes>)
    requires Decode(s, opt).Some?
    ensures ParseLoosely(s, opt, token, opts) ==
            Packet(token, WithFields(opts, Decode(s, opt).value.fields), Decode(s, opt).value.payload)
    decreases |s|
  {
    hide Decode;
    hide ParseLoosely;
    if |s| == 0 || s[0] == 0xFF {
      EndAlike(s, opt, token, opts);
    } else {
      hide WithFields;
      var f, rest := StepAlike(s, opt, token, opts);
      ParsesAlike(rest, f.num, token, opts[f.num := f.val]);
      WithFirst(opts, f, Decode(rest, f.num).value.fields);
    }
  }

  // ---- JpegStreamAssembler ----

  datatype Partial = Partial(blocks: map<nat, bytes>, etag: Option<nat>, total: Option<nat>, szx: nat, startedAt: real)
  datatype Feed = NoFrame | Frame(jpg: bytes) | Raises

  const FRAME_STALE := 4.0
  const EMPTY := Partial(map[], None, None, 6, 0.0)

  /** Blocks 0 to n-1 one behind the other; None when one is missing (a KeyError). */
  function Joined(blocks: map<nat, bytes>, n: nat): (r: Option<bytes>) {
    if n == 0 then Some([])
    else if n - 1 !in blocks then None
    else match Joined(blocks, n - 1) case None => None case Some(s) => Some(s + blocks[n - 1])
  }

  /** Blocks with numbers below n in ascending order. */
  function JoinedBelow(blocks: map<nat, bytes>, n: nat): (s: bytes) {
    if n == 0 then [] else JoinedBelow(blocks, n - 1) + if n - 1 in blocks then blocks[n - 1] else []
  }

  ghost function KeyBound(keys: set<nat>): (n: nat)
    ensures forall k :: k in keys ==> k < n
  {
    if keys == {} then 0
    else
      var k :| k in keys;
      var n := KeyBound(keys - {k});
      assert forall j :: j in keys ==> j == k || j in keys - {k};
      if k < n then n else k + 1
  }

  function OptionValue(opts: map<nat, bytes>, num: nat): (r: Option<nat>) {
    if num in opts then Some(BigEndian(opts[num])) else None
  }

  /** The block filed: the start of a frame, or one more of the frame under way. */
  function Filed(a: Partial, num: nat, szx: nat, etag: Option<nat>, total: Option<nat>, chunk: bytes, later: real): (r: Option<Partial>) {
    if num == 0 then Some(Partial(map[0 := chunk], etag, total, szx, later))
    else if a.etag.Some? && (etag.None? || etag == a.etag) then Some(a.(blocks := a.blocks[num := chunk]))
    else None
  }

  predicate IsJpeg(jpg: bytes) {
    |jpg| >= 2 && jpg[0] == 0xFF && jpg[1] == 0xD8
  }

  /** The final block is here: a frame, or not yet, or given up. */
  ghost function Concluded(a: Partial): (r: (Partial, Feed)) {
    var size := BlockSize(a.szx);
    match a.total
    case Some(total) =>
      var need := NumBlocks(total, size);
      if |a.blocks| < need then (a, NoFrame)
      else (match Joined(a.blocks, need)
            case None => (a, Raises)
            case Some(jpg) => (EMPTY, if |jpg| == total && IsJpeg(jpg) then Frame(jpg) else NoFrame))
    case None =>
      var jpg := JoinedBelow(a.blocks, KeyBound(a.blocks.Keys));
      (EMPTY, if IsJpeg(jpg) then Frame(jpg) else NoFrame)
  }

  ghost function FeedBlock(a: Partial, num: nat, more: bool, szx: nat, etag: Option<nat>, total: Option<nat>,
                           chunk: bytes, later: real): (r: (Partial, Feed)) {
    match Filed(a, num, szx, etag, total, chunk, later)
    case None => (a, NoFrame)
    case Some(b) => if more then (b, NoFrame) else Concluded(b)
  }

  ghost function FeedPacket(a: Partial, token: bytes, data: bytes, now: real, later: real): (r: (Partial, Feed)) {
    var a1 := if a.startedAt != 0.0 && now - a.startedAt > FRAME_STALE then EMPTY else a;
    match ParsePacket(data)
    case Raised => (a1, Raises)
    case Packet(tok, opts, chunk) =>
      if tok != token || OPT_BLOCK2 !in opts then (a1, NoFrame)
      else
        var n := BigEndian(opts[OPT_BLOCK2]);
        FeedBlock(a1, n / 16, n / 8 % 2 == 1, n % 8, OptionValue(opts, OPT_ETAG), OptionValue(opts, OPT_SIZE2), chunk, later)
  }

  class JpegStreamAssembler {
    const token: bytes
    var blocks: map<nat, bytes>
    var etag: Option<nat>
    var total: Option<nat>
    var szx: nat
    var startedAt: real

    ghost function State(): (r: Partial)
      reads this
    {
      Partial(blocks, etag, total, szx, startedAt)
    }

    constructor (token: bytes)
      ensures State() == EMPTY && this.token == token
    {
      this.token := token;
      blocks, etag, total, szx, startedAt := map[], None, None, 6, 0.0;
    }

    method Reset()
      modifies this
      ensures State() == EMPTY
    {
      blocks, etag, total, szx, startedAt := map[], None, None, 6, 0.0;
    }

    method JoinNeeded(need: nat) returns (jpg: Option<bytes>)
      ensures jpg == Joined(blocks, need)
    {
      var s := [];
      for i := 0 to need
        invariant Joined(blocks, i) == Some(s)
      {
        if i !in blocks {
          MissingStays(blocks, i + 1, need);
          return None;
        }
        s := s + blocks[i];
      }
      jpg := Some(s);
    }

    method JoinSorted() returns (jpg: bytes)
      ensures jpg == JoinedBelow(blocks, KeyBound(blocks.Keys))
    {
      var bound, keys := 0, blocks.Keys;
      while keys != {}
        invariant keys <= blocks.Keys && forall k :: k in blocks.Keys ==> k in keys || k < bound
        decreases |keys|
      {
        var k :| k in keys;
        if k >= bound { bound := k + 1; }
        keys := keys - {k};
      }
      jpg := [];
      for i := 0 to bound
        invariant jpg == JoinedBelow(blocks, i)
      {
        Concat(jpg, [], []);
        if i in blocks { jpg := jpg + blocks[i]; }
      }
      EnoughBelow(blocks, bound, KeyBound(blocks.Keys));
    }

    method Conclude() returns (r: Feed)
      modifies this
      ensures (State(), r) == Concluded(old(State()))
    {
      var jpg;
      if total.Some? {
        var need := NumBlocks(total.value, BlockSize(szx));
        if |blocks| < need { return NoFrame; }
        var joined := JoinNeeded(need);
        if joined.None? { return Raises; }
        jpg := joined.value;
        if |jpg| != total.value {
          Reset();
          return NoFrame;
        }
      } else {
        jpg := JoinSorted();
      }
      Reset();
      r := if IsJpeg(jpg) then Frame(jpg) else NoFrame;
    }

    method FeedData(data: bytes, now: real, later: real) returns (r: Feed)
      modifies this
      ensures (State(), r) == FeedPacket(old(State()), token, data, now, later)
    {
      hide Concluded;
      hide ParsePacket;
      hide BlockSize;
      if startedAt != 0.0 && now - startedAt > FRAME_STALE { Reset(); }
      var p := ParsePacket(data);
      if p.Raised? { return Raises; }
      if p.token != token || OPT_BLOCK2 !in p.opts { return NoFrame; }
      var n := BigEndian(p.opts[OPT_BLOCK2]);
      var num, more := n / 16, n / 8 % 2 == 1;
      var tag := OptionValue(p.opts, OPT_ETAG);
      if num == 0 {
        blocks, etag, total, szx, startedAt := map[0 := p.payload], tag, OptionValue(p.opts, OPT_SIZE2), n % 8, later;
      } else if etag.Some? && (tag.None? || tag == etag) {
        blocks := blocks[num := p.payload];
      } else {
        return NoFrame;
      }
      if more && |p.payload| != BlockSize(szx) { return NoFrame; }
      if more { return NoFrame; }
      r := Conclude();
    }
  }

  lemma {:induction false} MissingStays(blocks: map<nat, bytes>, i: nat, n: nat)
    requires i <= n && Joined(blocks, i).None?
    ensures Joined(blocks, n).None?
    decreases n
  {
    if i < n { MissingStays(blocks, i, n - 1); }
  }

  lemma {:induction false} EnoughBelow(blocks: map<nat, bytes>, n: nat, m: nat)
    requires forall k :: k in blocks.Keys ==> k < n && k < m
    ensures JoinedBelow(blocks, n) == JoinedBelow(blocks, m)
    decreases n + m
  {
    if n < m {
      EnoughBelow(blocks, n, m - 1);
      assert JoinedBelow(blocks, m) == JoinedBelow(blocks, m - 1);
    } else if m < n {
      EnoughBelow(blocks, n - 1, m);
      assert JoinedBelow(blocks, n) == JoinedBelow(blocks, n - 1);
    }
  }
}
