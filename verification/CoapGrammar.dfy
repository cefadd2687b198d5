/** Which octets are CoAP packets to the two parsers, and what they read in them. */
module CoapGrammar {
  import opened Bytes
  import opened CoapOptions
  import opened CoapServerWire
  import opened CoapReceiverWire

  // ---- options as section 3.1 of RFC 7252 writes them ----

  /** Nibble `n` with extension octets `ext` stands for `v`. */
  ghost predicate Stands(n: nat, ext: bytes, v: nat) {
    (n <= 12 && ext == [] && v == n) ||
    (n == 13 && |ext| == 1 && v == 13 + ext[0] as int) ||
    (n == 14 && |ext| == 2 && v == 269 + ext[0] as int * 256 + ext[1] as int)
  }

  /** The octets of an option: both nibbles, both extensions, the value. */
  ghost predicate OptionOctets(s: bytes, delta: nat, val: bytes, dn: nat, de: bytes, ln: nat, le: bytes) {
    Stands(dn, de, delta) && Stands(ln, le, |val|) && s == [dn * 16 + ln] + de + le + val
  }

  ghost predicate IsOption(s: bytes, delta: nat, val: bytes) {
    exists dn: nat, de: bytes, ln: nat, le: bytes :: OptionOctets(s, delta, val, dn, de, ln, le)
  }

  lemma Layout(h: byte, de: bytes, le: bytes, val: bytes, rest: bytes)
    ensures var s, i := [h] + de + le + val + rest, 1 + |de|;
            var at := i + |le|;
            && |s| == at + |val| + |rest| && s[0] == h && s[at..at + |val|] == val && s[at + |val|..] == rest
            && (forall k :: 0 <= k < |de| ==> s[1 + k] == de[k]) && (forall k :: 0 <= k < |le| ==> s[i + k] == le[k])
  {
    var s, i := [h] + de + le + val + rest, 1 + |de|;
    var at := i + |le|;
    assert s[at..at + |val|] == val && s[at + |val|..] == rest;
  }

  lemma Nibbles(dn: nat, ln: nat)
    requires dn < 15 && ln < 15
    ensures var h := dn * 16 + ln; h < 255 && h / 16 == dn && h % 16 == ln
  {
  }

  lemma StandsBelow(n: nat, ext: bytes, v: nat)
    requires Stands(n, ext, v)
    ensures n < 15
  {
  }

  lemma NibbleReads(n: nat, ext: bytes, v: nat, s: bytes, i: nat)
    requires Stands(n, ext, v) && i + |ext| <= |s| && forall k :: 0 <= k < |ext| ==> s[i + k] == ext[k]
    ensures n < 15 && ExtensionLength(n) == |ext| && Extended(n, s, i) == v
  {
    if |ext| > 0 { assert s[i + 0] == ext[0]; }
    if |ext| > 1 { assert s[i + 1] == ext[1]; }
  }

  /** Whatever is written like this is read like this. */
  lemma OptionReads(delta: nat, val: bytes, dn: nat, de: bytes, ln: nat, le: bytes, rest: bytes)
    requires Stands(dn, de, delta) && Stands(ln, le, |val|)
    ensures var s := [dn * 16 + ln] + de + le + val + rest;
            s[0] != 0xFF && ReadOption(s) == Read(delta, val, rest)
  {
    hide *;
    StandsBelow(dn, de, delta);
    StandsBelow(ln, le, |val|);
    Nibbles(dn, ln);
    var s := [dn * 16 + ln] + de + le + val + rest;
    Layout(dn * 16 + ln, de, le, val, rest);
    NibbleReads(dn, de, delta, s, 1);
    NibbleReads(ln, le, |val|, s, 1 + |de|);
    var i := 1 + |de|;
    var at := i + |le|;
    assert s[at..at + |val|] == val && s[at + |val|..] == rest;
    ReadAt(s, dn, ln, i, at, delta, |val|);
  }

  lemma ReadAt(s: bytes, dn: nat, ln: nat, i: nat, at: nat, delta: nat, len: nat)
    requires |s| > 0 && s[0] / 16 == dn < 15 && s[0] % 16 == ln < 15
    requires i == 1 + ExtensionLength(dn) && at == i + ExtensionLength(ln) && at + len <= |s|
    requires Extended(dn, s, 1) == delta && Extended(ln, s, i) == len
    ensures ReadOption(s) == Read(delta, s[at..at + len], s[at + len..])
  {
    hide Extended;
    hide ExtensionLength;
  }

  /** Whatever is read has been written like this. */
  lemma ReadIsOption(s: bytes)
    requires |s| > 0 && ReadOption(s).Read?
    ensures var r := ReadOption(s);
            var front := s[..|s| - |r.rest|];
            |r.rest| <= |s| && IsOption(front, r.delta, r.val) && s == front + r.rest
  {
    var d: nat, l: nat := s[0] / 16, s[0] % 16;
    var i := 1 + ExtensionLength(d);
    var at := i + ExtensionLength(l);
    var r := ReadOption(s);
    var end := |s| - |r.rest|;
    assert end == at + |r.val| && s[at..end] == r.val;
    assert s[..end] == [d * 16 + l] + s[1..i] + s[i..at] + r.val;
    assert OptionOctets(s[..end], r.delta, r.val, d, s[1..i], l, s[i..at]);
  }

  // ---- what follows the token ----

  /** Options in ascending order, then nothing, or the payload marker and the payload. */
  ghost predicate IsOptions(s: bytes, prev: nat, fields: seq<Field>, payload: bytes)
    decreases |fields|
  {
    if |fields| == 0 then (s == [] && payload == []) || s == [0xFF] + payload
    else prev <= fields[0].num && exists n: nat :: n <= |s| && FirstOption(s, prev, fields, payload, n)
  }

  /** The first option ends at `n`. */
  ghost predicate FirstOption(s: bytes, prev: nat, fields: seq<Field>, payload: bytes, n: nat)
    requires |fields| > 0 && prev <= fields[0].num && n <= |s|
    decreases |fields|, 0
  {
    IsOption(s[..n], fields[0].num - prev, fields[0].val) && IsOptions(s[n..], fields[0].num, fields[1..], payload)
  }

  lemma OptionFirst(s: bytes, n: nat, delta: nat, val: bytes)
    requires n <= |s| && IsOption(s[..n], delta, val)
    ensures |s| > 0 && s[0] != 0xFF && ReadOption(s) == Read(delta, val, s[n..])
  {
    var dn: nat, de: bytes, ln: nat, le: bytes :| OptionOctets(s[..n], delta, val, dn, de, ln, le);
    OptionReads(delta, val, dn, de, ln, le, s[n..]);
    assert s == s[..n] + s[n..];
    hide ReadOption;
  }

  lemma {:induction false} WrittenDecodes(s: bytes, prev: nat, fields: seq<Field>, payload: bytes)
    requires IsOptions(s, prev, fields, payload)
    ensures Decode(s, prev) == Some(Decoded(fields, payload))
    decreases |fields|
  {
    hide ReadOption;
    hide IsOption;
    if |fields| > 0 {
      var n: nat :| n <= |s| && FirstOption(s, prev, fields, payload, n);
      OptionFirst(s, n, fields[0].num - prev, fields[0].val);
      WrittenDecodes(s[n..], fields[0].num, fields[1..], payload);
      assert [Field(fields[0].num, fields[0].val)] + fields[1..] == fields;
      DecodeStep(s, prev, fields[0].num - prev, fields[0].val, s[n..]);
      hide Decode;
    } else if s != [] {
      assert s[1..] == payload;
    }
  }

  lemma {:induction false} DecodedWritten(s: bytes, prev: nat)
    requires Decode(s, prev).Some?
    ensures var d := Decode(s, prev).value; IsOptions(s, prev, d.fields, d.payload)
    decreases |s|
  {
    hide *;
    var d := Decode(s, prev).value;
    if |s| > 0 && s[0] != 0xFF {
      var r := ReadOption(s);
      DecodeReads(s, prev);
      ReadIsOption(s);
      DecodedWritten(r.rest, prev + r.delta);
      MakeOptions(s, prev, r.delta, r.val, r.rest, Decode(r.rest, prev + r.delta).value.fields, d.payload);
    } else {
      NoOptions(s, prev);
    }
  }

  lemma DecodeReads(s: bytes, prev: nat)
    requires |s| > 0 && s[0] != 0xFF && Decode(s, prev).Some?
    ensures ReadOption(s).Read? && |ReadOption(s).rest| < |s|
    ensures var r := ReadOption(s);
            var d := Decode(r.rest, prev + r.delta);
            d.Some? && Decode(s, prev) == Some(Decoded([Field(prev + r.delta, r.val)] + d.value.fields, d.value.payload))
  {
    hide ReadOption;
  }

  lemma NoOptions(s: bytes, prev: nat)
    requires |s| == 0 || s[0] == 0xFF
    ensures Decode(s, prev).Some? && IsOptions(s, prev, Decode(s, prev).value.fields, Decode(s, prev).value.payload)
  {
    if |s| > 0 { assert s == [0xFF] + s[1..]; }
  }

  lemma MakeOptions(s: bytes, prev: nat, delta: nat, val: bytes, rest: bytes, fields: seq<Field>, payload: bytes)
    requires |rest| <= |s| && s == s[..|s| - |rest|] + rest && IsOption(s[..|s| - |rest|], delta, val)
    requires IsOptions(rest, prev + delta, fields, payload)
    ensures IsOptions(s, prev, [Field(prev + delta, val)] + fields, payload)
  {
    hide IsOption;
    var n, all := |s| - |rest|, [Field(prev + delta, val)] + fields;
    assert s[n..] == rest && all[1..] == fields;
    assert FirstOption(s, prev, all, payload, n);
  }

  /** The decoder finds exactly the options and the payload that have been written. */
  lemma DecodeIff(s: bytes, prev: nat, fields: seq<Field>, payload: bytes)
    ensures Decode(s, prev) == Some(Decoded(fields, payload)) <==> IsOptions(s, prev, fields, payload)
  {
    hide Decode;
    hide IsOptions;
    if Decode(s, prev).Some? { DecodedWritten(s, prev); }
    if IsOptions(s, prev, fields, payload) { WrittenDecodes(s, prev, fields, payload); }
  }

  // ---- packets ----

  /** Four octets, as many of token as the low nibble of the first says, eight at most, and options. */
  ghost predicate IsPacket(data: bytes, token: bytes, fields: seq<Field>, payload: bytes) {
    && |token| <= 8 && 4 + |token| <= |data| && data[0] % 16 == |token| && data[4..4 + |token|] == token
    && IsOptions(data[4 + |token|..], 0, fields, payload)
  }

  /** The server takes exactly the packets of version 1: type, code, message ID, token and payload as they
      stand there, the rest from the options in order. */
  lemma RequestIff(data: bytes)
    ensures ParseRequest(data).Some? <==>
              |data| > 0 && data[0] / 64 == 1 && exists token, fields, payload :: IsPacket(data, token, fields, payload)
    ensures forall token, fields, payload :: IsPacket(data, token, fields, payload) && data[0] / 64 == 1 ==>
              ParseRequest(data) ==
              Some((ApplyRequestFields(Request(data[0] / 16 % 4, data[1], data[2] as int * 256 + data[3] as int, token, [], None), fields),
                    payload))
  {
    hide IsOptions;
    hide Decode;
    hide ApplyRequestFields;
    forall token, fields, payload | IsPacket(data, token, fields, payload)
      ensures Decode(data[4 + |token|..], 0) == Some(Decoded(fields, payload))
    {
      DecodeIff(data[4 + |token|..], 0, fields, payload);
    }
    if ParseRequest(data).Some? {
      var tkl := data[0] % 16;
      DecodedWritten(data[4 + tkl..], 0);
      var d := Decode(data[4 + tkl..], 0).value;
      assert IsPacket(data, data[4..4 + tkl], d.fields, d.payload);
    }
  }

  /** The K1 takes exactly the packets, of whatever version. */
  lemma ResponseIff(data: bytes)
    ensures ParseResponse(data).Some? <==> exists token, fields, payload :: IsPacket(data, token, fields, payload)
    ensures forall token, fields, payload :: IsPacket(data, token, fields, payload) ==>
              ParseResponse(data) ==
              Some(ApplyFields(CoapResponse(token, {}, 0, 0, false, 0, 0, 0, []), fields).(payload := payload))
  {
    hide IsOptions;
    hide Decode;
    hide ApplyFields;
    forall token, fields, payload | IsPacket(data, token, fields, payload)
      ensures Decode(data[4 + |token|..], 0) == Some(Decoded(fields, payload))
    {
      DecodeIff(data[4 + |token|..], 0, fields, payload);
    }
    if ParseResponse(data).Some? {
      var tkl := data[0] % 16;
      DecodedWritten(data[4 + tkl..], 0);
      var d := Decode(data[4 + tkl..], 0).value;
      assert IsPacket(data, data[4..4 + tkl], d.fields, d.payload);
    }
  }

  // ---- what the options say ----

  /** An option of this number with a value of at least one octet, and at most four if it is short. */
  predicate Counts(f: Field, num: nat, short: bool) {
    f.num == num && 1 <= |f.val| && (short ==> |f.val| <= 4)
  }

  /** The value of the last of them. */
  ghost function Winner(fields: seq<Field>, num: nat, short: bool): (v: Option<bytes>)
    ensures v.Some? ==> |v.value| > 0
    decreases |fields|
  {
    if |fields| == 0 then None
    else
      var v := Winner(fields[1..], num, short);
      if v.Some? then v else if Counts(fields[0], num, short) then Some(fields[0].val) else None
  }

  ghost predicate NoneFrom(fields: seq<Field>, i: nat, num: nat, short: bool) {
    forall j :: i <= j < |fields| ==> !Counts(fields[j], num, short)
  }

  /** No later option counts. */
  lemma {:induction false} WinnerIsLast(fields: seq<Field>, num: nat, short: bool) returns (i: nat)
    ensures Winner(fields, num, short).None? <==> NoneFrom(fields, 0, num, short)
    ensures Winner(fields, num, short).Some? ==>
              i < |fields| && Counts(fields[i], num, short) && Winner(fields, num, short) == Some(fields[i].val)
              && NoneFrom(fields, i + 1, num, short)
    decreases |fields|
  {
    i := 0;
    if |fields| > 0 {
      var k := WinnerIsLast(fields[1..], num, short);
      assert forall j :: 1 <= j < |fields| ==> fields[j] == fields[1..][j - 1];
      if Winner(fields[1..], num, short).Some? { i := k + 1; }
      hide Counts;
    }
  }

  /** What the K1 reads: numbers from the last short ETag and Size2, block number, more flag and size
      exponent from the last Block2 modulo 2^32, the first octet of the last Content-Format. */
  ghost predicate Says(r: CoapResponse, r0: CoapResponse, fields: seq<Field>) {
    && r.etag == (match Winner(fields, 4, true) case None => r0.etag case Some(v) => BigEndian(v))
    && r.size2 == (match Winner(fields, 28, true) case None => r0.size2 case Some(v) => BigEndian(v))
    && r.format == (match Winner(fields, 12, false) case None => r0.format case Some(v) => v[0])
    && match Winner(fields, 23, false)
       case None => r.num == r0.num && r.more == r0.more && r.szx == r0.szx
       case Some(v) =>
         var b := BigEndian(v) % 0x1_0000_0000;
         r.num == b / 16 && r.more == (b / 8 % 2 == 1) && r.szx == b % 8
  }

  /** The options of a response, in any order of numbers and with any repeats. */
  lemma {:induction false} FieldsSay(r0: CoapResponse, fields: seq<Field>)
    ensures Says(ApplyFields(r0, fields), r0, fields)
    ensures forall n :: n in ApplyFields(r0, fields).present <==> n in r0.present || exists i :: 0 <= i < |fields| && fields[i].num == n
    decreases |fields|
  {
    if |fields| > 0 {
      var r1 := ApplyOption(r0, fields[0].num, fields[0].val);
      FieldsSay(r1, fields[1..]);
      OneSays(r0, fields[0]);
      PresentMore(ApplyFields(r0, fields).present, r0.present, fields);
      hide ApplyOption;
      hide Counts;
      hide BigEndian;
    }
  }

  lemma OneSays(r0: CoapResponse, f: Field)
    ensures var r := ApplyOption(r0, f.num, f.val);
            && r.etag == (if Counts(f, 4, true) then BigEndian(f.val) else r0.etag)
            && r.size2 == (if Counts(f, 28, true) then BigEndian(f.val) else r0.size2)
            && r.format == (if Counts(f, 12, false) then f.val[0] else r0.format)
            && if Counts(f, 23, false) then
                 var b := BigEndian(f.val) % 0x1_0000_0000;
                 r.num == b / 16 && r.more == (b / 8 % 2 == 1) && r.szx == b % 8
               else r.num == r0.num && r.more == r0.more && r.szx == r0.szx
  {
    hide BigEndian;
  }

  lemma PresentMore(present: set<nat>, before: set<nat>, fields: seq<Field>)
    requires |fields| > 0
    requires forall n :: n in present <==> n in before + {fields[0].num} || exists i :: 0 <= i < |fields[1..]| && fields[1..][i].num == n
    ensures forall n :: n in present <==> n in before || exists i :: 0 <= i < |fields| && fields[i].num == n
  {
    forall n ensures n in present <==> n in before || exists i :: 0 <= i < |fields| && fields[i].num == n {
      if i :| 0 <= i < |fields[1..]| && fields[1..][i].num == n { assert fields[i + 1].num == n; }
      if i :| 0 <= i < |fields| && fields[i].num == n {
        if i > 0 { assert fields[1..][i - 1].num == n; }
      }
    }
  }

  /** What the server reads: block number and size exponent from the last Block2 modulo 2^32, the path
      from the Uri-Path options, nothing else. */
  lemma {:induction false} RequestFieldsSay(r0: Request, fields: seq<Field>)
    requires |r0.uri| < URI_SIZE
    ensures var r := ApplyRequestFields(r0, fields);
            && r == r0.(uri := r.uri, block := r.block)
            && r.uri == PathOf(r0.uri, fields)
            && r.block == match Winner(fields, 23, false)
                          case None => r0.block
                          case Some(v) => Some((BigEndian(v) % 0x1_0000_0000 / 16, BigEndian(v) % 8))
    decreases |fields|
  {
    if |fields| > 0 {
      RequestFieldsSay(ApplyRequestOption(r0, fields[0].num, fields[0].val), fields[1..]);
      if Counts(fields[0], 23, false) { LowBits(BigEndian(fields[0].val)); }
      hide AppendSegment;
      hide BigEndian;
    }
  }

  lemma LowBits(v: nat)
    ensures v % 0x1_0000_0000 % 8 == v % 8
  {
    var q, r := v / 0x1_0000_0000, v % 0x1_0000_0000;
    Quotient(v, 8, q * 0x2000_0000 + r / 8, r % 8);
  }

  lemma {:induction false} CStringIs(s: bytes)
    ensures var c := CString(s); c <= s && 0 !in c && (c == s || s[|c|] == 0)
    decreases |s|
  {
    if |s| > 0 && s[0] != 0 { CStringIs(s[1..]); }
  }

  /** A segment joined onto a path: with a slash between if there is room for one, and then as much as there is
      before a NUL, of 31 octets in all. */
  lemma SegmentJoins(uri: bytes, val: bytes)
    requires |uri| < URI_SIZE && 0 !in uri
    ensures var u, whole := AppendSegment(uri, val), (if uri != [] && |uri| <= 30 then uri + [47] else uri) + val;
            && u <= whole && |u| <= 31 && 0 !in u
            && (u == whole || |u| == 31 || whole[|u|] == 0)
  {
    var whole := (if uri != [] && |uri| <= 30 then uri + [47] else uri) + val;
    var cut := if |whole| > 31 then whole[..31] else whole;
    var base := if uri != [] && |uri| <= 30 then uri + [47] else uri;
    var copy := if |base| + |val| >= URI_SIZE then URI_SIZE - |base| - 1 else |val|;
    assert base + val[..copy] == cut;
    assert AppendSegment(uri, val) == CString(base + val[..copy]);
    CStringIs(cut);
    hide CString;
  }

  /** The path from the Uri-Path options, joined one after the other. */
  ghost function PathOf(uri: bytes, fields: seq<Field>): (u: bytes)
    requires |uri| < URI_SIZE
    ensures |u| < URI_SIZE
    decreases |fields|
  {
    if |fields| == 0 then uri
    else PathOf(if fields[0].num == 11 then AppendSegment(uri, fields[0].val) else uri, fields[1..])
  }
}
