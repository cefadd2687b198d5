/** Octets, optional values and network-byte-order integers, as both ends of the
    CoAP link use them. An octet is an integer from 0 to 255; strings of them are sequences. An
    unsigned integer in network byte order has its most significant octet first. The lemmas at the
    end are the few facts about concatenation, slices and division that the other modules call
    by name where the verifier's own view of sequences and products is hidden. */
module Bytes {
  type byte = b: int | 0 <= b < 256
  type bytes = seq<byte>

  datatype Option<+T> = None | Some(value: T)

  /** The unsigned integer that a string of octets denotes, most significant octet first. */
  function BigEndian(s: bytes): (n: nat)
    decreases |s|
  {
    if |s| == 0 then 0 else BigEndian(s[..|s| - 1]) * 256 + s[|s| - 1]
  }

  /** The two octets of a 16-bit field. */
  function U16(v: nat): (s: bytes)
    requires v < 0x1_0000
    ensures |s| == 2 && s[0] as int * 256 + s[1] as int == v
  {
    [v / 256, v % 256]
  }

  lemma BigEndianSmall(s: bytes)
    requires 1 <= |s| <= 3
    ensures |s| == 1 ==> BigEndian(s) == s[0]
    ensures |s| == 2 ==> BigEndian(s) == s[0] as int * 256 + s[1] as int
    ensures |s| == 3 ==> BigEndian(s) == s[0] as int * 65536 + s[1] as int * 256 + s[2] as int
  {
    var t := s[..|s| - 1];
    if |s| >= 2 {
      assert t[|t| - 1] == s[|s| - 2];
      if |s| == 3 {
        var u := t[..|t| - 1];
        assert u[0] == s[0];
      }
    }
  }

  lemma BigEndianBound(s: bytes)
    requires |s| <= 4
    ensures BigEndian(s) < 0x1_0000_0000
    ensures |s| <= 3 ==> BigEndian(s) < 0x100_0000
    ensures |s| <= 2 ==> BigEndian(s) < 0x1_0000
    ensures |s| <= 1 ==> BigEndian(s) < 0x100
  {
    if |s| > 0 {
      BigEndianBound(s[..|s| - 1]);
    }
  }

  lemma Concat<T>(a: seq<T>, b: seq<T>, c: seq<T>)
    ensures (a + b) + c == a + (b + c) && a + [] == a && [] + a == a
  {
  }

  lemma Slices<T>(s: seq<T>, pos: nat, a: nat, b: nat)
    requires pos <= a <= b <= |s|
    ensures s[pos..][a - pos..b - pos] == s[a..b] && s[pos..][b - pos..] == s[b..]
  {
  }

  lemma Grows(a: nat, b: nat, d: nat)
    requires a <= b
    ensures a * d <= b * d
  {
    assert (b - a) * d >= 0;
  }

  /** Quotient and remainder are what they multiply back to. */
  lemma Quotient(t: nat, d: nat, q: nat, r: nat)
    requires d > 0 && t == q * d + r && r < d
    ensures t / d == q && t % d == r
  {
    var q0 := t / d;
    assert t == q0 * d + t % d;
    assert (q0 + 1) * d == q0 * d + d && (q + 1) * d == q * d + d;
    if q0 < q {
      Grows(q0 + 1, q, d);
    } else if q0 > q {
      Grows(q + 1, q0, d);
    }
  }
}
