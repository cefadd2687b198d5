/** Base64 (section 4 of RFC 4648) as the thumbnails are encoded (src/utils.c), with a decoder
    that accepts canonical encodings only: groups of four characters from the alphabet, padding
    in the last group, and no bits set that the octets do not need. */
module Base64 {
  import opened Bytes

  const PAD: byte := 61

  /** The alphabet. */
  function Char(v: nat): (c: byte)
    requires v < 64
  {
    if v < 26 then 65 + v else if v < 52 then 71 + v else if v < 62 then v - 4 else if v == 62 then 43 else 47
  }

  function CharValue(c: byte): (v: Option<nat>)
    ensures v.Some? ==> v.value < 64
  {
    if 65 <= c <= 90 then Some(c - 65)
    else if 97 <= c <= 122 then Some(c - 71)
    else if 48 <= c <= 57 then Some(c + 4)
    else if c == 43 then Some(62)
    else if c == 47 then Some(63)
    else None
  }

  /** Up to three octets as a 24-bit number, missing ones as zero. */
  function Triple(s: bytes): (t: nat)
    requires |s| > 0
    ensures t < 0x100_0000
  {
    s[0] as int * 65536 + (if |s| > 1 then s[1] as int * 256 else 0) + if |s| > 2 then s[2] as int else 0
  }

  /** The four characters for the first three octets. */
  function Quad(s: bytes): (q: bytes)
    requires |s| > 0
    ensures |q| == 4
  {
    var t := Triple(s);
    [Char(t / 262144), Char(t / 4096 % 64),
     if |s| > 1 then Char(t / 64 % 64) else PAD,
     if |s| > 2 then Char(t % 64) else PAD]
  }

  function Encode(s: bytes): (e: bytes)
    ensures |e| == (|s| + 2) / 3 * 4
    decreases |s|
  {
    if |s| == 0 then [] else if |s| <= 3 then Quad(s) else Quad(s) + Encode(s[3..])
  }

  /** The octets of one group of four; `last` when padding may occur. */
  function Ungroup(q: bytes, last: bool): (r: Option<bytes>)
    requires |q| == 4
  {
    match (CharValue(q[0]), CharValue(q[1]), CharValue(q[2]), CharValue(q[3]))
    case (Some(a), Some(b), Some(c), Some(d)) =>
      var t := a * 262144 + b * 4096 + c * 64 + d;
      Some([t / 65536 % 256, t / 256 % 256, t % 256])
    case (Some(a), Some(b), Some(c), None) =>
      var t := a * 4096 + b * 64 + c;
      if last && q[3] == PAD && t % 4 == 0 then Some([t / 1024 % 256, t / 4 % 256]) else None
    case (Some(a), Some(b), None, None) =>
      var t := a * 64 + b;
      if last && q[2] == PAD && q[3] == PAD && t % 16 == 0 then Some([t / 16 % 256]) else None
    case _ => None
  }

  function Decode(e: bytes): (s: Option<bytes>)
    decreases |e|
  {
    if |e| == 0 then Some([])
    else if |e| < 4 then None
    else match (Ungroup(e[..4], |e| == 4), Decode(e[4..]))
      case (Some(a), Some(b)) => Some(a + b)
      case _ => None
  }

  lemma CharRoundTrip(v: nat)
    requires v < 64
    ensures CharValue(Char(v)) == Some(v) && Char(v) != PAD
  {
  }

  lemma CharBack(c: byte)
    requires CharValue(c).Some?
    ensures Char(CharValue(c).value) == c && c != PAD
  {
  }

  /** The four sextets of three octets. */
  lemma Sextets(a: int, b: int, c: int)
    requires 0 <= a < 256 && 0 <= b < 256 && 0 <= c < 256
    ensures var t := a * 65536 + b * 256 + c;
            && t / 262144 == a / 4 && t / 4096 % 64 == a % 4 * 16 + b / 16
            && t / 64 % 64 == b % 16 * 4 + c / 64 && t % 64 == c % 64
  {
    var t := a * 65536 + b * 256 + c;
    Quotient(t, 262144, a / 4, a % 4 * 65536 + b * 256 + c);
    Quotient(t, 4096, a * 16 + b / 16, b % 16 * 256 + c);
    Quotient(a * 16 + b / 16, 64, a / 4, a % 4 * 16 + b / 16);
    Quotient(t, 64, a * 1024 + b * 4 + c / 64, c % 64);
    Quotient(a * 1024 + b * 4 + c / 64, 64, a * 16 + b / 16, b % 16 * 4 + c / 64);
  }

  /** The octets of four, three and two sextets, in terms of quotients and remainders. */
  lemma Digits3(a1: nat, a0: nat, b1: nat, b0: nat, c1: nat, c0: nat, u: nat)
    requires a1 < 64 && a0 < 4 && b1 < 16 && b0 < 16 && c1 < 4 && c0 < 64
    requires u == a1 * 262144 + (a0 * 16 + b1) * 4096 + (b0 * 4 + c1) * 64 + c0
    ensures u / 65536 % 256 == a1 * 4 + a0 && u / 256 % 256 == b1 * 16 + b0 && u % 256 == c1 * 64 + c0
  {
    Quotient(u, 65536, a1 * 4 + a0, (b1 * 16 + b0) * 256 + c1 * 64 + c0);
    Quotient(u, 256, (a1 * 4 + a0) * 256 + b1 * 16 + b0, c1 * 64 + c0);
    Quotient((a1 * 4 + a0) * 256 + b1 * 16 + b0, 256, a1 * 4 + a0, b1 * 16 + b0);
    Quotient(a1 * 4 + a0, 256, 0, a1 * 4 + a0);
  }

  lemma Digits2(a1: nat, a0: nat, b1: nat, b0: nat, u: nat)
    requires a1 < 64 && a0 < 4 && b1 < 16 && b0 < 16
    requires u == a1 * 4096 + (a0 * 16 + b1) * 64 + b0 * 4
    ensures u % 4 == 0 && u / 1024 % 256 == a1 * 4 + a0 && u / 4 % 256 == b1 * 16 + b0
  {
    Quotient(u, 1024, a1 * 4 + a0, (b1 * 16 + b0) * 4);
    Quotient(u, 4, (a1 * 4 + a0) * 256 + b1 * 16 + b0, 0);
    Quotient((a1 * 4 + a0) * 256 + b1 * 16 + b0, 256, a1 * 4 + a0, b1 * 16 + b0);
    Quotient(a1 * 4 + a0, 256, 0, a1 * 4 + a0);
  }

  lemma Digits1(a1: nat, a0: nat, u: nat)
    requires a1 < 64 && a0 < 4 && u == a1 * 64 + a0 * 16
    ensures u % 16 == 0 && u / 16 % 256 == a1 * 4 + a0
  {
    Quotient(u, 16, a1 * 4 + a0, 0);
    Quotient(a1 * 4 + a0, 256, 0, a1 * 4 + a0);
  }

  lemma Octets3(a: int, b: int, c: int)
    requires 0 <= a < 256 && 0 <= b < 256 && 0 <= c < 256
    ensures var u := a / 4 * 262144 + (a % 4 * 16 + b / 16) * 4096 + (b % 16 * 4 + c / 64) * 64 + c % 64;
            u / 65536 % 256 == a && u / 256 % 256 == b && u % 256 == c
  {
    Digits3(a / 4, a % 4, b / 16, b % 16, c / 64, c % 64,
            a / 4 * 262144 + (a % 4 * 16 + b / 16) * 4096 + (b % 16 * 4 + c / 64) * 64 + c % 64);
  }

  lemma Octets2(a: int, b: int)
    requires 0 <= a < 256 && 0 <= b < 256
    ensures var u := a / 4 * 4096 + (a % 4 * 16 + b / 16) * 64 + b % 16 * 4;
            u % 4 == 0 && u / 1024 % 256 == a && u / 4 % 256 == b
  {
    Digits2(a / 4, a % 4, b / 16, b % 16, a / 4 * 4096 + (a % 4 * 16 + b / 16) * 64 + b % 16 * 4);
  }

  lemma Octets1(a: int)
    requires 0 <= a < 256
    ensures var u := a / 4 * 64 + a % 4 * 16; u % 16 == 0 && u / 16 % 256 == a
  {
    Digits1(a / 4, a % 4, a / 4 * 64 + a % 4 * 16);
  }

  /** The characters that stand for one, two and three octets. */
  function Chars3(a: byte, b: byte, c: byte): (q: bytes)
    ensures |q| == 4
  {
    [Char(a / 4), Char(a % 4 * 16 + b / 16), Char(b % 16 * 4 + c / 64), Char(c % 64)]
  }

  function Chars2(a: byte, b: byte): (q: bytes)
    ensures |q| == 4
  {
    [Char(a / 4), Char(a % 4 * 16 + b / 16), Char(b % 16 * 4), PAD]
  }

  function Chars1(a: byte): (q: bytes)
    ensures |q| == 4
  {
    [Char(a / 4), Char(a % 4 * 16), PAD, PAD]
  }

  lemma QuadIs(s: bytes)
    requires |s| > 0
    ensures Quad(s) == if |s| == 1 then Chars1(s[0]) else if |s| == 2 then Chars2(s[0], s[1]) else Chars3(s[0], s[1], s[2])
  {
    var a, b, c := s[0] as int, if |s| > 1 then s[1] as int else 0, if |s| > 2 then s[2] as int else 0;
    Sextets(a, b, c);
    hide Char;
  }

  lemma Ungroup3(a: byte, b: byte, c: byte, last: bool)
    ensures Ungroup(Chars3(a, b, c), last) == Some([a, b, c])
  {
    CharRoundTrip(a / 4);
    CharRoundTrip(a % 4 * 16 + b / 16);
    CharRoundTrip(b % 16 * 4 + c / 64);
    CharRoundTrip(c % 64);
    hide Char;
    hide CharValue;
    Octets3(a, b, c);
  }

  lemma Ungroup2(a: byte, b: byte)
    ensures Ungroup(Chars2(a, b), true) == Some([a, b])
  {
    CharRoundTrip(a / 4);
    CharRoundTrip(a % 4 * 16 + b / 16);
    CharRoundTrip(b % 16 * 4);
    assert CharValue(PAD) == None;
    hide Char;
    hide CharValue;
    Octets2(a, b);
  }

  lemma Ungroup1(a: byte)
    ensures Ungroup(Chars1(a), true) == Some([a])
  {
    CharRoundTrip(a / 4);
    CharRoundTrip(a % 4 * 16);
    assert CharValue(PAD) == None;
    hide Char;
    hide CharValue;
    Octets1(a);
  }

  lemma QuadRoundTrip(s: bytes, last: bool)
    requires |s| > 0 && (|s| < 3 ==> last)
    ensures Ungroup(Quad(s), last) == Some(if |s| > 3 then s[..3] else s)
  {
    hide *;
    QuadIs(s);
    if |s| >= 3 {
      Ungroup3(s[0], s[1], s[2], last);
      assert [s[0], s[1], s[2]] == s[..3];
      if |s| == 3 { assert s[..3] == s; }
    } else if |s| == 2 {
      Ungroup2(s[0], s[1]);
      assert [s[0], s[1]] == s;
    } else {
      Ungroup1(s[0]);
      assert [s[0]] == s;
    }
  }

  /** Decoding an encoding gives back the octets. */
  lemma {:induction false} DecodeEncoded(s: bytes)
    ensures Decode(Encode(s)) == Some(s)
    decreases |s|
  {
    hide Quad;
    hide Ungroup;
    if |s| > 0 {
      QuadRoundTrip(s, |s| <= 3);
      var e := Encode(s);
      assert e[..4] == Quad(s);
      if |s| > 3 {
        DecodeEncoded(s[3..]);
        assert e[4..] == Encode(s[3..]);
        assert s[..3] + s[3..] == s;
      } else {
        assert e[4..] == [];
        assert s + [] == s;
      }
    }
  }

  // ---- and back ----

  /** The four sextets three octets are made of. */
  ghost predicate Sextets3(x: nat, y: nat, z: nat, a: nat, b: nat, c: nat, d: nat) {
    x / 4 == a && x % 4 * 16 + y / 16 == b && y % 16 * 4 + z / 64 == c && z % 64 == d
  }

  lemma Back3(a: nat, b: nat, c: nat, d: nat)
    requires a < 64 && b < 64 && c < 64 && d < 64
    ensures var t := a * 262144 + b * 4096 + c * 64 + d;
            Sextets3(t / 65536 % 256, t / 256 % 256, t % 256, a, b, c, d)
  {
    var b1, b0, c1, c0 := b / 16, b % 16, c / 4, c % 4;
    Digits3(a, b1, b0, c1, c0, d, a * 262144 + b * 4096 + c * 64 + d);
    Quotient(a * 4 + b1, 4, a, b1);
    Quotient(b0 * 16 + c1, 16, b0, c1);
    Quotient(c0 * 64 + d, 64, c0, d);
  }

  lemma Back2(a: nat, b: nat, c: nat)
    requires a < 64 && b < 64 && c < 64 && (a * 4096 + b * 64 + c) % 4 == 0
    ensures var t := a * 4096 + b * 64 + c;
            var x, y := t / 1024 % 256, t / 4 % 256;
            x / 4 == a && x % 4 * 16 + y / 16 == b && y % 16 * 4 == c
  {
    assert c % 4 == 0;
    var b1, b0, c1 := b / 16, b % 16, c / 4;
    Digits2(a, b1, b0, c1, a * 4096 + b * 64 + c);
    Quotient(a * 4 + b1, 4, a, b1);
    Quotient(b0 * 16 + c1, 16, b0, c1);
  }

  lemma Back1(a: nat, b: nat)
    requires a < 64 && b < 64 && (a * 64 + b) % 16 == 0
    ensures var x := (a * 64 + b) / 16 % 256; x / 4 == a && x % 4 * 16 == b
  {
    assert b % 16 == 0;
    Quotient(a * 64 + b, 16, a * 4 + b / 16, 0);
    Quotient(a * 4 + b / 16, 4, a, b / 16);
  }

  lemma Chars3Is(s: bytes, a: nat, b: nat, c: nat, d: nat)
    requires |s| == 3 && a < 64 && b < 64 && c < 64 && d < 64 && Sextets3(s[0], s[1], s[2], a, b, c, d)
    ensures Quad(s) == [Char(a), Char(b), Char(c), Char(d)]
  {
    hide Quad;
    hide Char;
    QuadIs(s);
  }

  lemma QuadBack3(q: bytes, last: bool, s: bytes)
    requires |q| == 4 && Ungroup(q, last) == Some(s) && |s| == 3
    ensures Quad(s) == q
  {
    hide CharValue;
    hide Quad;
    hide Char;
    CharBack(q[0]);
    CharBack(q[1]);
    CharBack(q[2]);
    CharBack(q[3]);
    hide Sextets3;
    Back3(CharValue(q[0]).value, CharValue(q[1]).value, CharValue(q[2]).value, CharValue(q[3]).value);
    Chars3Is(s, CharValue(q[0]).value, CharValue(q[1]).value, CharValue(q[2]).value, CharValue(q[3]).value);
  }

  lemma QuadBack2(q: bytes, last: bool, s: bytes)
    requires |q| == 4 && Ungroup(q, last) == Some(s) && |s| == 2
    ensures last && Quad(s) == q
  {
    QuadIs(s);
    CharBack(q[0]);
    CharBack(q[1]);
    CharBack(q[2]);
    hide Quad;
    hide Char;
    hide CharValue;
    Back2(CharValue(q[0]).value, CharValue(q[1]).value, CharValue(q[2]).value);
  }

  lemma QuadBack1(q: bytes, last: bool, s: bytes)
    requires |q| == 4 && Ungroup(q, last) == Some(s) && |s| == 1
    ensures last && Quad(s) == q
  {
    QuadIs(s);
    CharBack(q[0]);
    CharBack(q[1]);
    hide Quad;
    hide Char;
    hide CharValue;
    Back1(CharValue(q[0]).value, CharValue(q[1]).value);
  }

  lemma UngroupSize(q: bytes, last: bool)
    requires |q| == 4 && Ungroup(q, last).Some?
    ensures 1 <= |Ungroup(q, last).value| <= 3
  {
    hide CharValue;
  }

  lemma QuadBack(q: bytes, last: bool)
    requires |q| == 4 && Ungroup(q, last).Some?
    ensures var s := Ungroup(q, last).value;
            1 <= |s| <= 3 && (|s| < 3 ==> last) && Quad(s) == q
  {
    hide *;
    var s := Ungroup(q, last).value;
    UngroupSize(q, last);
    if |s| == 3 {
      QuadBack3(q, last, s);
    } else if |s| == 2 {
      QuadBack2(q, last, s);
    } else {
      QuadBack1(q, last, s);
    }
  }

  /** Whatever decodes is the encoding of what it decodes to: every octet string has one encoding
      and the decoder accepts no other. */
  lemma {:induction false} EncodeDecoded(e: bytes)
    requires Decode(e).Some?
    ensures Encode(Decode(e).value) == e
    decreases |e|
  {
    hide Quad;
    hide Ungroup;
    if |e| > 0 {
      var a, b := Ungroup(e[..4], |e| == 4).value, Decode(e[4..]).value;
      QuadBack(e[..4], |e| == 4);
      EncodeDecoded(e[4..]);
      assert e[..4] + e[4..] == e;
      if |e| == 4 {
        assert b == [] && a + b == a;
      } else {
        assert |a| == 3 && (a + b)[3..] == b;
        QuadPrefix(a, b);
      }
    }
  }

  lemma QuadPrefix(a: bytes, b: bytes)
    requires |a| == 3
    ensures Quad(a + b) == Quad(a)
  {
  }

  /** The test vectors of section 10 of RFC 4648: f, fo, foo, foob, fooba, foobar. They tie alphabet and
      padding to the standard, which the round trips alone do not. */
  lemma Vectors()
    ensures Encode([]) == []
    ensures Encode([102]) == [90, 103, 61, 61]
    ensures Encode([102, 111]) == [90, 109, 56, 61]
    ensures Encode([102, 111, 111]) == [90, 109, 57, 118]
    ensures Encode([102, 111, 111, 98]) == [90, 109, 57, 118, 89, 103, 61, 61]
    ensures Encode([102, 111, 111, 98, 97]) == [90, 109, 57, 118, 89, 109, 69, 61]
    ensures Encode([102, 111, 111, 98, 97, 114]) == [90, 109, 57, 118, 89, 109, 70, 121]
  {
    var foo: bytes := [102, 111, 111];
    assert foo + [98] == [102, 111, 111, 98] && foo + [98, 97] == [102, 111, 111, 98, 97];
    assert foo + [98, 97, 114] == [102, 111, 111, 98, 97, 114];
    hide *;
    EncodeEmpty();
    ShortQuads();
    LongQuads();
    OneGroup([102]);
    OneGroup([102, 111]);
    OneGroup(foo);
    TwoGroups(foo, [98]);
    TwoGroups(foo, [98, 97]);
    TwoGroups(foo, [98, 97, 114]);
  }

  lemma OneGroup(a: bytes)
    requires 0 < |a| <= 3
    ensures Encode(a) == Quad(a)
  {
    hide Quad;
  }

  lemma ShortQuads()
    ensures Quad([102]) == [90, 103, 61, 61] && Quad([102, 111]) == [90, 109, 56, 61]
    ensures Quad([98]) == [89, 103, 61, 61] && Quad([98, 97]) == [89, 109, 69, 61]
  {
    hide Quad;
    QuadIs([102]);
    QuadIs([102, 111]);
    QuadIs([98]);
    QuadIs([98, 97]);
  }

  lemma LongQuads()
    ensures Quad([102, 111, 111]) == [90, 109, 57, 118] && Quad([98, 97, 114]) == [89, 109, 70, 121]
  {
    hide Quad;
    QuadIs([102, 111, 111]);
    QuadIs([98, 97, 114]);
  }

  lemma TwoGroups(a: bytes, b: bytes)
    requires |a| == 3 && 0 < |b| <= 3
    ensures Encode(a + b) == Quad(a) + Quad(b)
  {
    QuadPrefix(a, b);
    assert (a + b)[3..] == b;
    hide Quad;
  }

  // ---- the buffer routine ----

  /** What is in the buffer: as much of the encoding as fits in front of the terminator. */
  function Fitting(e: bytes, outLen: nat): (p: bytes)
    requires outLen >= 1
    ensures p <= e && |p| < outLen
  {
    if |e| < outLen then e else e[..outLen - 1]
  }

  /** One group further along in the encoding. */
  lemma EncodeStep(data: bytes, i: nat, e: bytes, idx: nat)
    requires i < |data| && idx <= |e| && e[idx..] == Encode(data[i..])
    ensures idx + 4 <= |e| && e[..idx] + Quad(data[i..]) <= e
    ensures e[idx + 4..] == if i + 3 <= |data| then Encode(data[i + 3..]) else []
  {
    var rest := data[i..];
    var q := Quad(rest);
    hide Quad;
    if |rest| > 3 {
      assert rest[3..] == data[i + 3..];
      assert e[idx..] == q + Encode(data[i + 3..]);
    } else {
      assert e[idx..] == q;
      if i + 3 == |data| { assert data[i + 3..] == []; }
    }
    assert e[idx + 4..] == e[idx..][4..];
    assert e[idx..idx + 4] == e[idx..][..4] == q;
  }

  /** Writes the four characters of a group until the buffer is full. */
  method PutQuad(out: array<byte>, at: nat, outLen: nat, q: bytes, ghost done: bytes, ghost e: bytes) returns (full: bool, next: nat)
    requires |q| == 4 && 1 <= outLen <= out.Length && at < outLen
    requires out[..at] == done && done + q <= e
    modifies out
    ensures at <= next < outLen && next <= |e| && out[..next] == e[..next]
    ensures full ==> next == outLen - 1 && out[next] == 0 && |e| >= outLen
    ensures !full ==> next == at + 4
    ensures forall k :: outLen <= k < out.Length ==> out[k] == old(out[k])
  {
    next := at;
    for j := 0 to 4
      invariant next == at + j < outLen && out[..next] == e[..next]
      invariant forall k :: outLen <= k < out.Length ==> out[k] == old(out[k])
    {
      assert e[at + j] == q[j];
      if next >= outLen - 1 {
        out[next] := 0;
        return true, next;
      }
      out[next] := q[j];
      next := next + 1;
    }
    full := false;
  }

  /** The result is -1, or the number of characters: the encoding, or as much of it as fits, then NUL;
      nothing beyond `outLen` is touched. */
  method Base64Encode(data: bytes, out: array<byte>, outLen: int) returns (n: int)
    requires outLen <= out.Length
    modifies out
    ensures outLen < 1 ==> n == -1 && out[..] == old(out[..])
    ensures outLen >= 1 ==> n == |Fitting(Encode(data), outLen)| < outLen && out[..n] == Fitting(Encode(data), outLen) && out[n] == 0
    ensures outLen >= 1 ==> forall k :: outLen <= k < out.Length ==> out[k] == old(out[k])
  {
    hide Quad;
    hide Encode;
    if outLen < 1 { return -1; }
    ghost var e := Encode(data);
    var i, idx := 0, 0;
    assert data[0..] == data && [] + e == e;
    EncodeEmpty();
    while i < |data|
      invariant 0 <= idx < outLen
      invariant idx <= |e| && out[..idx] == e[..idx]
      invariant e[idx..] == if i <= |data| then Encode(data[i..]) else []
      invariant forall k :: outLen <= k < out.Length ==> out[k] == old(out[k])
      decreases |data| - i
    {
      hide *;
      EncodeStep(data, i, e, idx);
      var full;
      full, idx := PutQuad(out, idx, outLen, Quad(data[i..]), e[..idx], e);
      if full {
        FittingIs(e, outLen);
        return idx;
      }
      i := i + 3;
    }
    if i == |data| { assert data[i..] == []; }
    out[idx] := 0;
    n := idx;
    FittingIs(e, outLen);
  }

  lemma FittingIs(e: bytes, outLen: nat)
    requires outLen >= 1
    ensures Fitting(e, outLen) == if |e| < outLen then e[..|e|] else e[..outLen - 1]
  {
    assert e[..|e|] == e;
  }

  lemma EncodeEmpty()
    ensures Encode([]) == []
  {
  }

  /** With the buffer the gallery allocates nothing is cut, and what is there decodes to the data. */
  lemma GallerySizing(data: bytes)
    ensures Fitting(Encode(data), (|data| + 2) / 3 * 4 + 1) == Encode(data)
    ensures Decode(Fitting(Encode(data), (|data| + 2) / 3 * 4 + 1)) == Some(data)
  {
    DecodeEncoded(data);
  }
}
