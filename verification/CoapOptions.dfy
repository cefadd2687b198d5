/** The CoAP option format (section 3.1 of RFC 7252): the encoder that both programs
    write out by hand, and the header decoder that the receiver and the server share
    line for line. Options stand in ascending order and hold the distance to the number before;
    distances and lengths above 12 take an extension octet. */
module CoapOptions {
  import opened Bytes

  const OPT_ETAG := 4
  const OPT_URI_PATH := 11
  const OPT_CONTENT_FMT := 12
  const OPT_BLOCK2 := 23
  const OPT_SIZE2 := 28

  const TYPE_CON := 0
  const TYPE_NON := 1
  const CODE_CONTENT: byte := 0x45
  const MAX_PACKET := 1400

  /** The option delta and length in front of the value. No long (two-octet) extension
      is supported, and delta and length may not both need an extension. */
  function OptionHead(delta: nat, len: nat): (h: Option<bytes>)
  {
    if delta <= 12 && len <= 12 then Some([delta * 16 + len])
    else if delta <= 12 && len <= 255 then Some([delta * 16 + 13, len - 13])
    else if delta <= 255 && len <= 12 then Some([13 * 16 + len, delta - 13])
    else None
  }

  function EncodedOption(delta: nat, val: bytes): (o: bytes)
    requires OptionHead(delta, |val|).Some?
  {
    OptionHead(delta, |val|).value + val
  }

  /** Octets that extend a nibble, and the number that a nibble with its extension at `i` denotes. */
  function ExtensionLength(nibble: nat): (n: nat) {
    if nibble == 13 then 1 else if nibble == 14 then 2 else 0
  }

  function Extended(nibble: nat, s: bytes, i: nat): (n: nat)
    requires i + ExtensionLength(nibble) <= |s|
  {
    if nibble == 13 then s[i] as int + 13
    else if nibble == 14 then s[i] as int * 256 + s[i + 1] as int + 269
    else nibble
  }

  datatype OptionRead = Malformed | Read(delta: nat, val: bytes, rest: bytes)

  /** Reads the option at the front of `s`, whose first octet is not the payload marker. */
  function ReadOption(s: bytes): (r: OptionRead)
    requires |s| > 0
    ensures r.Read? ==> |r.rest| + |r.val| < |s|
  {
    var d, l := s[0] / 16, s[0] % 16;
    var i := 1 + ExtensionLength(d);
    var at := i + ExtensionLength(l);
    if d == 15 || l == 15 || at > |s| then Malformed
    else
      var end := at + Extended(l, s, i);
      if end > |s| then Malformed else Read(Extended(d, s, 1), s[at..end], s[end..])
  }

  /** Reading undoes encoding, whatever follows the option, and an option never looks
      like the payload marker. */
  lemma ReadEncoded(delta: nat, val: bytes, rest: bytes)
    requires OptionHead(delta, |val|).Some?
    ensures var s := EncodedOption(delta, val) + rest;
            s[0] != 0xFF && ReadOption(s) == Read(delta, val, rest)
  {
    var s := EncodedOption(delta, val) + rest;
    var n := |OptionHead(delta, |val|).value|;
    assert s[n..n + |val|] == val;
    assert s[n + |val|..] == rest;
  }

  /** The encoder takes an option if delta and length fit an octet and at most one of them needs an
      extension, and then spends an extension octet only where it is needed. */
  lemma EncodesIff(delta: nat, len: nat)
    ensures OptionHead(delta, len).Some? <==> delta <= 255 && len <= 255 && (delta <= 12 || len <= 12)
    ensures OptionHead(delta, len).Some? ==> |OptionHead(delta, len).value| == if delta <= 12 && len <= 12 then 1 else 2
  {
  }

  // ---- option lists ----

  datatype Field = Field(num: nat, val: bytes)
  datatype Decoded = Decoded(fields: seq<Field>, payload: bytes)

  /** All options behind number `opt`, then the payload; None for a malformed packet. */
  function Decode(s: bytes, opt: nat): (d: Option<Decoded>)
    decreases |s|
  {
    if |s| == 0 then Some(Decoded([], []))
    else if s[0] == 0xFF then Some(Decoded([], s[1..]))
    else match ReadOption(s)
      case Malformed => None
      case Read(delta, val, rest) => Prepend(Field(opt + delta, val), Decode(rest, opt + delta))
  }

  function Prepend(f: Field, d: Option<Decoded>): (r: Option<Decoded>) {
    if d.None? then None else Some(d.value.(fields := [f] + d.value.fields))
  }

  lemma DecodeStep(s: bytes, opt: nat, delta: nat, val: bytes, rest: bytes)
    requires |s| > 0 && s[0] != 0xFF && ReadOption(s) == Read(delta, val, rest)
    ensures Decode(s, opt) == Prepend(Field(opt + delta, val), Decode(rest, opt + delta))
  {
    hide ReadOption;
  }

  /** Options in ascending order whose heads the encoders can write. */
  ghost predicate Encodable(prev: nat, fields: seq<Field>)
    decreases |fields|
  {
    |fields| == 0 ||
    (&& prev <= fields[0].num
     && OptionHead(fields[0].num - prev, |fields[0].val|).Some?
     && Encodable(fields[0].num, fields[1..]))
  }

  ghost function Encode(prev: nat, fields: seq<Field>): (o: bytes)
    requires Encodable(prev, fields)
    decreases |fields|
  {
    if |fields| == 0 then []
    else EncodedOption(fields[0].num - prev, fields[0].val) + Encode(fields[0].num, fields[1..])
  }

  lemma EncodeCons(prev: nat, f: Field, fields: seq<Field>)
    requires prev <= f.num && OptionHead(f.num - prev, |f.val|).Some? && Encodable(f.num, fields)
    ensures Encodable(prev, [f] + fields)
    ensures Encode(prev, [f] + fields) == EncodedOption(f.num - prev, f.val) + Encode(f.num, fields)
  {
    assert ([f] + fields)[1..] == fields;
  }

  function PayloadTail(payload: bytes): (s: bytes) {
    if |payload| > 0 then [0xFF] + payload else []
  }

  lemma DecodeOne(prev: nat, f: Field, rest: bytes)
    requires prev <= f.num && OptionHead(f.num - prev, |f.val|).Some?
    ensures Decode(EncodedOption(f.num - prev, f.val) + rest, prev) == Prepend(f, Decode(rest, f.num))
  {
    hide ReadOption;
    hide Decode;
    var s := EncodedOption(f.num - prev, f.val) + rest;
    ReadEncoded(f.num - prev, f.val, rest);
    DecodeStep(s, prev, f.num - prev, f.val, rest);
  }

  ghost function Payload(tail: bytes): (s: bytes) {
    if tail == [] then [] else tail[1..]
  }

  lemma EncodeFirst(prev: nat, fields: seq<Field>, tail: bytes)
    requires |fields| > 0 && Encodable(prev, fields)
    ensures Encode(prev, fields) + tail ==
            EncodedOption(fields[0].num - prev, fields[0].val) + (Encode(fields[0].num, fields[1..]) + tail)
  {
    Concat(EncodedOption(fields[0].num - prev, fields[0].val), Encode(fields[0].num, fields[1..]), tail);
  }

  lemma DecodeFirst(prev: nat, fields: seq<Field>, tail: bytes)
    requires |fields| > 0 && Encodable(prev, fields)
    ensures Decode(Encode(prev, fields) + tail, prev) ==
            Prepend(fields[0], Decode(Encode(fields[0].num, fields[1..]) + tail, fields[0].num))
  {
    hide Decode;
    var f := fields[0];
    EncodeFirst(prev, fields, tail);
    DecodeOne(prev, f, Encode(f.num, fields[1..]) + tail);
  }

  /** Decoding an encoded option list gives back the list and the payload behind it. */
  lemma {:induction false} DecodeEncoded(prev: nat, fields: seq<Field>, tail: bytes)
    requires Encodable(prev, fields)
    requires tail == [] || tail[0] == 0xFF
    ensures Decode(Encode(prev, fields) + tail, prev) == Some(Decoded(fields, Payload(tail)))
    decreases |fields|
  {
    if |fields| == 0 {
      Concat(tail, [], []);
    } else {
      hide Decode;
      DecodeEncoded(fields[0].num, fields[1..], tail);
      assert [fields[0]] + fields[1..] == fields;
      DecodeFirst(prev, fields, tail);
    }
  }

  // ---- the cursor forms ----

  /** A nibble with its extension at the cursor. */
  method ExtendNibble(data: bytes, pos: nat, nibble: nat) returns (ok: bool, v: nat, next: nat)
    requires pos <= |data| && nibble < 16
    ensures next == pos + ExtensionLength(nibble)
    ensures ok <==> nibble != 15 && next <= |data|
    ensures ok ==> v == Extended(nibble, data, pos)
  {
    ok, v, next := true, nibble, pos;
    if nibble == 13 {
      next := pos + 1;
      if pos >= |data| { ok := false; return; }
      v := data[pos] as int + 13;
    } else if nibble == 14 {
      next := pos + 2;
      if pos + 1 >= |data| { ok := false; return; }
      v := data[pos] as int * 256 + data[pos + 1] as int + 269;
    } else if nibble == 15 {
      ok := false;
    }
  }

  /** Both parsers' loop body up to the option value. */
  method NextOption(data: bytes, pos: nat) returns (ok: bool, delta: nat, start: nat, olen: nat)
    requires pos < |data|
    ensures ok <==> ReadOption(data[pos..]).Read?
    ensures ok ==> pos < start && start + olen <= |data| &&
                   ReadOption(data[pos..]) == Read(delta, data[start..start + olen], data[start + olen..])
  {
    start, olen := 0, 0;
    var at := pos + 1;
    ok, delta, at := ExtendNibble(data, at, data[pos] / 16);
    if !ok { return; }
    ok, olen, start := ExtendNibble(data, at, data[pos] % 16);
    if !ok { return; }
    if start + olen > |data| { ok := false; return; }
    Slices(data, pos, start, start + olen);
  }

  lemma Remainder(y: nat, d: nat, r: nat)
    requires y == d * 0x1_0000_0000 + r && r < 0x1_0000_0000
    ensures y % 0x1_0000_0000 == r
  {
  }

  lemma ShiftIn(x: nat, b: byte)
    ensures (x % 0x1_0000_0000 * 256 + b as int) % 0x1_0000_0000 == (x * 256 + b as int) % 0x1_0000_0000
  {
    var q, r := x / 0x1_0000_0000, x % 0x1_0000_0000;
    var t := r * 256 + b as int;
    Remainder(x * 256 + b as int, t / 0x1_0000_0000 + 256 * q, t % 0x1_0000_0000);
  }

  /** An option value accumulated in 32 bits. */
  method UintAt(data: bytes, start: nat, olen: nat) returns (v: nat)
    requires start + olen <= |data|
    ensures v == BigEndian(data[start..start + olen]) % 0x1_0000_0000
  {
    v := 0;
    for i := 0 to olen
      invariant v == BigEndian(data[start..start + i]) % 0x1_0000_0000
    {
      var s := data[start..start + i + 1];
      assert s[..|s| - 1] == data[start..start + i];
      ShiftIn(BigEndian(data[start..start + i]), data[start + i]);
      v := (v * 256 + data[start + i] as int) % 0x1_0000_0000;
    }
  }

  /** The token behind the four header octets, copied octet by octet. */
  method ReadToken(data: bytes, tkl: nat) returns (ok: bool, token: bytes)
    requires |data| >= 4
    ensures ok <==> 4 + tkl <= |data|
    ensures ok ==> token == data[4..4 + tkl]
  {
    token := [];
    var pos := 4;
    for i := 0 to tkl
      invariant pos == 4 + i <= |data| && token == data[4..4 + i]
    {
      if pos >= |data| { return false, []; }
      token := token + [data[pos]];
      pos := pos + 1;
    }
    ok := true;
  }
}
