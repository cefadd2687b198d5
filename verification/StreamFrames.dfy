/** A frame cut into blocks of equal size (section 2.2 of RFC 7959): the vocabulary that
    the sender and both reassemblers share. */
module StreamFrames {
  import opened Bytes
  import opened CoapReceiverWire

  function BlockSize(szx: nat): (b: nat)
    ensures b >= 16
  {
    if szx == 0 then 16 else 2 * BlockSize(szx - 1)
  }

  function NumBlocks(len: nat, size: nat): (n: nat)
    requires size > 0
  {
    (len + size - 1) / size
  }

  lemma NumBlocksBounds(len: nat, size: nat)
    requires len > 0 && size > 0
    ensures var n := NumBlocks(len, size); n > 0 && (n - 1) * size < len <= n * size
  {
    var y := len + size - 1;
    var n := y / size;
    assert y == size * n + y % size;
    assert size * n == n * size;
    assert (n - 1) * size == n * size - size;
  }

  lemma Monotone(k: nat, j: nat, size: nat)
    requires k < j
    ensures k * size + size <= j * size
  {
    assert (j - k - 1) * size >= 0;
    assert j * size == k * size + size + (j - k - 1) * size;
  }

  /** Block `k` lies inside the frame. */
  lemma BlockInside(k: nat, len: nat, size: nat)
    requires len > 0 && size > 0 && k < NumBlocks(len, size)
    ensures 0 <= k * size < len
    ensures k + 1 < NumBlocks(len, size) ==> k * size + size < len
    ensures k + 1 == NumBlocks(len, size) ==> k * size + size >= len
  {
    NumBlocksBounds(len, size);
    var n := NumBlocks(len, size);
    if k + 1 < n {
      Monotone(k, n - 1, size);
    } else {
      assert (k + 1) * size == k * size + size;
    }
  }

  function BlockEnd(k: nat, len: nat, size: nat): (n: nat) {
    if k * size + size <= len then k * size + size else len
  }

  function BlockOf(f: bytes, k: nat, size: nat): (b: bytes)
    requires size > 0 && |f| > 0 && k < NumBlocks(|f|, size)
    ensures 0 < |b| <= size
    ensures |b| == BlockEnd(k, |f|, size) - k * size
  {
    BlockInside(k, |f|, size);
    f[k * size..BlockEnd(k, |f|, size)]
  }

  /** A response that carries one block of frame `f`, tagged `etag`. */
  ghost predicate IsBlock(r: CoapResponse, f: bytes, etag: nat, szx: nat) {
    var size := BlockSize(szx);
    && |f| > 0
    && r.num < NumBlocks(|f|, size)
    && r.etag == etag && r.szx == szx && r.size2 == |f|
    && (r.more <==> r.num + 1 < NumBlocks(|f|, size))
    && r.payload == BlockOf(f, r.num, size)
  }

  /** Buffer `g` holds block `k` of frame `f` in its place. */
  ghost predicate HoldsBlock(g: bytes, f: bytes, k: nat, size: nat)
    requires size > 0 && |f| > 0
  {
    && k < NumBlocks(|f|, size)
    && BlockEnd(k, |f|, size) <= |g|
    && (BlockInside(k, |f|, size); g[k * size..BlockEnd(k, |f|, size)] == BlockOf(f, k, size))
  }

  lemma BlockHoldsByte(g: bytes, f: bytes, size: nat, i: nat, k: nat)
    requires size > 0 && i < |f| <= |g| && k * size <= i < k * size + size
    requires HoldsBlock(g, f, k, size)
    ensures g[i] == f[i]
  {
    BlockInside(k, |f|, size);
    var b := BlockOf(f, k, size);
    var end := BlockEnd(k, |f|, size);
    assert g[k * size..end] == b;
    assert b[i - k * size] == f[i];
    assert g[k * size..end][i - k * size] == g[i];
  }

  lemma BlockIndex(i: nat, len: nat, size: nat) returns (k: nat)
    requires size > 0 && i < len
    ensures k < NumBlocks(len, size) && k * size <= i < k * size + size
  {
    k := i / size;
    assert i == size * k + i % size;
    assert size * k == k * size;
    NumBlocksBounds(len, size);
    var n := NumBlocks(len, size);
    if k > n { Monotone(n, k, size); }
  }

  /** Every byte of a frame lies in one of its blocks. */
  lemma BlocksCover(f: bytes, g: bytes, size: nat)
    requires size > 0 && 0 < |f| <= |g|
    requires forall k: nat :: k < NumBlocks(|f|, size) ==> HoldsBlock(g, f, k, size)
    ensures g[..|f|] == f
  {
    forall i | 0 <= i < |f| ensures g[i] == f[i] {
      var k := BlockIndex(i, |f|, size);
      BlockHoldsByte(g, f, size, i, k);
    }
  }
}
