/** What the reassembler guarantees: the bytes it announces are the frame's, and a frame
    completes exactly when its last missing block arrives, in whatever order. */
module Block2Completion {
  import opened Bytes
  import opened CoapReceiverWire
  import opened StreamFrames
  import opened Block2Assembly

  ghost function Range(n: nat): (s: set<nat>)
    ensures forall i: nat :: i in s <==> i < n
  {
    if n == 0 then {} else Range(n - 1) + {n - 1}
  }

  lemma {:induction false} RangeSize(n: nat)
    ensures |Range(n)| == n
  {
    if n > 0 {
      RangeSize(n - 1);
    }
  }

  /** Counting suffices: n distinct numbers below n are all of them. */
  lemma CountCovers(s: set<nat>, n: nat)
    requires s <= Range(n)
    ensures |s| <= n && (|s| >= n <==> s == Range(n))
  {
    RangeSize(n);
    var rest := Range(n) - s;
    assert Range(n) == s + rest;
    assert |Range(n)| == |s| + |rest|;
  }

  /** The buffer holds all the blocks in the set. */
  ghost predicate AllHeld(data: bytes, f: bytes, blocks: set<nat>, size: nat)
    requires size > 0 && |f| > 0
  {
    forall k :: k in blocks ==> k < MAX_BLOCKS && HoldsBlock(data, f, k, size)
  }

  /** The assembler is part of the way through frame `f`. */
  ghost predicate Collecting(a: Assembly, f: bytes, szx: nat) {
    var size := BlockSize(szx);
    && |f| > 0
    && a.active
    && a.totalSize == |f|
    && a.received == |a.blocks|
    && AllHeld(a.data, f, a.blocks, size)
    && (a.finalSeen <==> NumBlocks(|f|, size) - 1 in a.blocks)
    && (a.finalSeen ==> a.totalBlocks == NumBlocks(|f|, size))
  }

  lemma BlocksInRange(a: Assembly, f: bytes, szx: nat)
    requires Collecting(a, f, szx)
    ensures a.blocks <= Range(NumBlocks(|f|, BlockSize(szx)))
  {
  }

  /** Placing one block leaves the others where they are. */
  lemma PlaceHolds(data: bytes, f: bytes, j: nat, size: nat, at: nat)
    requires size > 0 && |f| > 0 && j < NumBlocks(|f|, size) && BlockEnd(j, |f|, size) <= |data|
    requires at == j * size
    ensures var d := Place(data, at, BlockOf(f, j, size));
            && HoldsBlock(d, f, j, size)
            && forall k: nat :: k != j && HoldsBlock(data, f, k, size) ==> HoldsBlock(d, f, k, size)
  {
    var b := BlockOf(f, j, size);
    var d := Place(data, at, b);
    BlockInside(j, |f|, size);
    assert d[at..BlockEnd(j, |f|, size)] == b;
    forall k: nat | k != j && HoldsBlock(data, f, k, size) ensures HoldsBlock(d, f, k, size) {
      BlockInside(k, |f|, size);
      if k < j { Monotone(k, j, size); } else { Monotone(j, k, size); }
      assert d[k * size..BlockEnd(k, |f|, size)] == data[k * size..BlockEnd(k, |f|, size)];
    }
  }

  lemma FullPayload(r: CoapResponse, f: bytes, etag: nat, szx: nat)
    requires IsBlock(r, f, etag, szx)
    ensures var size := BlockSize(szx);
            && r.num * size + |r.payload| == BlockEnd(r.num, |f|, size) <= |f|
            && (r.more ==> |r.payload| == size)
  {
    BlockInside(r.num, |f|, BlockSize(szx));
  }

  lemma OneMoreHeld(data: bytes, f: bytes, blocks: set<nat>, j: nat, size: nat, at: nat)
    requires size > 0 && |f| > 0 && AllHeld(data, f, blocks, size)
    requires j < MAX_BLOCKS && j < NumBlocks(|f|, size) && BlockEnd(j, |f|, size) <= |data|
    requires at == j * size
    ensures AllHeld(Place(data, at, BlockOf(f, j, size)), f, blocks + {j}, size)
  {
    PlaceHolds(data, f, j, size, at);
    hide HoldsBlock;
  }

  /** Storing a block that was missing keeps the picture of the frame. */
  lemma StoreKeeps(a: Assembly, r: CoapResponse, f: bytes, szx: nat)
    requires Collecting(a, f, szx) && IsBlock(r, f, a.etag, szx)
    requires r.num < MAX_BLOCKS && r.num !in a.blocks
    requires r.num * BlockSize(szx) + |r.payload| <= |a.data|
    ensures Collecting(Store(a, r), f, szx) && Store(a, r).etag == a.etag
  {
    hide AllHeld;
    hide BlockOf;
    hide BlockEnd;
    hide NumBlocks;
    hide BlockSize;
    hide Place;
    var size := BlockSize(szx);
    FullPayload(r, f, a.etag, szx);
    OneMoreHeld(a.data, f, a.blocks, r.num, size, r.num * size);
  }

  /** All blocks there: the buffer is the frame. */
  lemma AllBlocksThere(a: Assembly, f: bytes, szx: nat)
    requires Collecting(a, f, szx)
    ensures a.blocks <= Range(NumBlocks(|f|, BlockSize(szx)))
    ensures a.finalSeen && a.received >= a.totalBlocks <==> a.blocks == Range(NumBlocks(|f|, BlockSize(szx)))
    ensures a.blocks == Range(NumBlocks(|f|, BlockSize(szx))) ==> |f| <= |a.data| && a.data[..|f|] == f
  {
    var size := BlockSize(szx);
    var n := NumBlocks(|f|, size);
    NumBlocksBounds(|f|, size);
    BlocksInRange(a, f, szx);
    CountCovers(a.blocks, n);
    if a.blocks == Range(n) {
      assert n - 1 in a.blocks;
      BlockInside(n - 1, |f|, size);
      assert BlockEnd(n - 1, |f|, size) == |f|;
      hide HoldsBlock;
      BlocksCover(f, a.data, size);
    }
  }

  /** One block of the open frame: stored, completing the frame, or not counted. */
  lemma AcceptBlock(a: Assembly, r: CoapResponse, f: bytes, szx: nat)
    requires Collecting(a, f, szx) && IsBlock(r, f, a.etag, szx)
    ensures var (b, out) := Accept(a, r);
            var all := Range(NumBlocks(|f|, BlockSize(szx)));
            && (out == Stored ==> Collecting(b, f, szx) && b.etag == a.etag && b.blocks == a.blocks + {r.num} != all)
            && (out == Ignored ==> b == a || !b.active)
            && (out == Complete ==>
                  && !b.active && a.blocks + {r.num} == all
                  && b.totalSize == |f| <= |b.data| && b.data[..|f|] == f)
  {
    FullPayload(r, f, a.etag, szx);
    hide Collecting;
    hide IsBlock;
    hide NumBlocks;
    assert a.active by { CollectingActive(a, f, szx); }
    if !Refused(a, r) && r.num * BlockSize(r.szx) + |r.payload| <= |a.data| {
      IsBlockSize(r, f, a.etag, szx);
      StoreKeeps(a, r, f, szx);
      AllBlocksThere(Store(a, r), f, szx);
      CollectingActive(Store(a, r), f, szx);
    }
  }

  lemma CollectingActive(a: Assembly, f: bytes, szx: nat)
    requires Collecting(a, f, szx)
    ensures a.active && a.totalSize == |f| > 0
  {
  }

  lemma IsBlockSize(r: CoapResponse, f: bytes, etag: nat, szx: nat)
    requires IsBlock(r, f, etag, szx)
    ensures r.szx == szx && r.etag == etag && r.size2 == |f| > 0 && r.num < NumBlocks(|f|, BlockSize(szx))
  {
  }

  /** In a buffer that is large enough the outcome depends on the block numbers alone. */
  lemma AcceptDecided(a: Assembly, r: CoapResponse, f: bytes, szx: nat)
    requires Collecting(a, f, szx) && IsBlock(r, f, a.etag, szx)
    requires NumBlocks(|f|, BlockSize(szx)) <= MAX_BLOCKS && |f| <= |a.data|
    ensures var (b, out) := Accept(a, r);
            var all := Range(NumBlocks(|f|, BlockSize(szx)));
            && out == (if r.num in a.blocks then Ignored else if a.blocks + {r.num} == all then Complete else Stored)
            && (r.num in a.blocks ==> b == a)
            && |b.data| == |a.data|
  {
    FullPayload(r, f, a.etag, szx);
    IsBlockSize(r, f, a.etag, szx);
    CollectingActive(a, f, szx);
    hide Collecting;
    hide IsBlock;
    hide NumBlocks;
    if r.num !in a.blocks {
      StoreKeeps(a, r, f, szx);
      AllBlocksThere(Store(a, r), f, szx);
    }
  }

  // ---- whole packets ----

  lemma OpenCollects(a: Assembly, r: CoapResponse, f: bytes, szx: nat, now: real, more: Option<byte>)
    requires IsBlock(r, f, r.etag, szx) && Open(a, r, now, more).Some?
    ensures var b := Open(a, r, now, more).value;
            Collecting(b, f, szx) && b.etag == r.etag && b.blocks == {} && |b.data| >= |a.data|
  {
    NumBlocksBounds(|f|, BlockSize(szx));
  }

  /** Safety of one packet: whatever the assembler held before, a frame it announces is
      the frame whose ETag the packet carries, and the frame left open is that frame. */
  lemma AddBlockSafe(a: Assembly, r: CoapResponse, f: bytes, szx: nat, now: real, more: Option<byte>)
    requires r.etag != 0 && IsBlock(r, f, r.etag, szx)
    requires a.active && a.etag == r.etag ==> Collecting(a, f, szx)
    ensures var (b, out) := AddBlock(a, r, now, more);
            && (out == Complete ==> !b.active && b.totalSize == |f| <= |b.data| && b.data[..|f|] == f)
            && (b.active ==> b.etag == r.etag && Collecting(b, f, szx))
  {
    hide Collecting;
    hide IsBlock;
    hide Store;
    if OpensFrame(a, r) {
      if Open(a, r, now, more).Some? {
        OpenCollects(a, r, f, szx, now, more);
        hide Open;
        AcceptBlock(Open(a, r, now, more).value, r, f, szx);
      }
    } else if a.active {
      AcceptBlock(a, r, f, szx);
    }
  }

  lemma TooManyForMap(a: Assembly, r: CoapResponse, f: bytes, szx: nat)
    requires Collecting(a, f, szx) && IsBlock(r, f, a.etag, szx) && NumBlocks(|f|, BlockSize(szx)) > MAX_BLOCKS
    ensures Accept(a, r).1 != Complete
  {
    AcceptBlock(a, r, f, szx);
    assert MAX_BLOCKS in Range(NumBlocks(|f|, BlockSize(szx))) && MAX_BLOCKS !in a.blocks;
    hide Store;
    hide IsBlock;
    hide Range;
  }

  /** A frame of more than 128 blocks never completes: the bitmap has no room for its last ones. */
  lemma NeverBeyondMap(a: Assembly, r: CoapResponse, f: bytes, szx: nat, now: real, more: Option<byte>)
    requires IsBlock(r, f, r.etag, szx) && NumBlocks(|f|, BlockSize(szx)) > MAX_BLOCKS
    requires r.etag != 0 && (a.active && a.etag == r.etag ==> Collecting(a, f, szx))
    ensures AddBlock(a, r, now, more).1 != Complete
  {
    hide Collecting;
    hide IsBlock;
    hide Accept;
    if OpensFrame(a, r) {
      if Open(a, r, now, more).Some? {
        OpenCollects(a, r, f, szx, now, more);
        hide Open;
        TooManyForMap(Open(a, r, now, more).value, r, f, szx);
      }
    } else if a.active {
      TooManyForMap(a, r, f, szx);
    } else {
      assert Accept(a, r) == (a, Ignored) by { InactiveIgnores(a, r); }
    }
  }

  lemma InactiveIgnores(a: Assembly, r: CoapResponse)
    requires !a.active
    ensures Accept(a, r) == (a, Ignored)
  {
  }

  // ---- any order ----

  function Feed(a: Assembly, rs: seq<CoapResponse>, now: real, more: Option<byte>): (r: (Assembly, seq<Outcome>))
    ensures |r.1| == |rs|
    decreases |rs|
  {
    if |rs| == 0 then (a, [])
    else
      var (b, out) := AddBlock(a, rs[0], now, more);
      var (c, outs) := Feed(b, rs[1..], now, more);
      (c, [out] + outs)
  }

  /** The block numbers there after `i` packets, given those there before. */
  ghost function Seen(seen: set<nat>, rs: seq<CoapResponse>, i: nat): (s: set<nat>)
    requires i <= |rs|
  {
    seen + set j: nat | j < i :: rs[j].num
  }

  /** Packet `i` is the one after which all blocks are there. */
  ghost predicate BringsLast(seen: set<nat>, rs: seq<CoapResponse>, all: set<nat>, i: nat)
    requires i < |rs|
  {
    Seen(seen, rs, i) != all && Seen(seen, rs, i + 1) == all
  }

  lemma SeenTail(seen: set<nat>, rs: seq<CoapResponse>, i: nat)
    requires 0 < i <= |rs|
    ensures Seen(seen, rs, i) == Seen(seen + {rs[0].num}, rs[1..], i - 1)
  {
    var s, t := Seen(seen, rs, i), Seen(seen + {rs[0].num}, rs[1..], i - 1);
    forall x | x in s ensures x in t {
      if x !in seen {
        var j: nat :| j < i && rs[j].num == x;
        if j > 0 { assert rs[1..][j - 1].num == x; }
      }
    }
    forall x | x in t ensures x in s {
      if x !in seen + {rs[0].num} {
        var j: nat :| j < i - 1 && rs[1..][j].num == x;
        assert rs[j + 1].num == x;
      }
    }
  }

  /** Either the frame is open with exactly the blocks seen, or it is finished. */
  ghost predicate Progress(a: Assembly, f: bytes, etag: nat, szx: nat, seen: set<nat>) {
    var all := Range(NumBlocks(|f|, BlockSize(szx)));
    && |f| <= |a.data|
    && if seen == all then !a.active && a.totalSize == |f| && a.data[..|f|] == f
       else a.etag == etag && Collecting(a, f, szx) && a.blocks == seen
  }

  ghost predicate LaterBlock(r: CoapResponse, f: bytes, etag: nat, szx: nat) {
    IsBlock(r, f, etag, szx) && r.num > 0
  }

  lemma ProgressStep(a: Assembly, r: CoapResponse, f: bytes, etag: nat, szx: nat, seen: set<nat>, now: real, more: Option<byte>)
    requires NumBlocks(|f|, BlockSize(szx)) <= MAX_BLOCKS
    requires Progress(a, f, etag, szx, seen) && LaterBlock(r, f, etag, szx)
    ensures var (b, out) := AddBlock(a, r, now, more);
            var all := Range(NumBlocks(|f|, BlockSize(szx)));
            && Progress(b, f, etag, szx, seen + {r.num})
            && (out == Complete <==> seen != all && seen + {r.num} == all)
  {
    hide IsBlock;
    hide Store;
    hide HoldsBlock;
    hide AllHeld;
    var n := NumBlocks(|f|, BlockSize(szx));
    IsBlockSize(r, f, etag, szx);
    hide NumBlocks;
    if seen == Range(n) {
      assert seen + {r.num} == seen;
    } else {
      hide Collecting;
      CollectingActive(a, f, szx);
      AcceptDecided(a, r, f, szx);
      AcceptBlock(a, r, f, szx);
      if r.num in seen { assert seen + {r.num} == seen; }
    }
  }

  lemma {:induction false} FeedProgress(a: Assembly, rs: seq<CoapResponse>, f: bytes, etag: nat, szx: nat, seen: set<nat>, now: real, more: Option<byte>)
    requires NumBlocks(|f|, BlockSize(szx)) <= MAX_BLOCKS
    requires Progress(a, f, etag, szx, seen)
    requires forall r :: r in rs ==> LaterBlock(r, f, etag, szx)
    ensures var (b, outs) := Feed(a, rs, now, more);
            var all := Range(NumBlocks(|f|, BlockSize(szx)));
            && Progress(b, f, etag, szx, Seen(seen, rs, |rs|))
            && forall i: nat :: i < |rs| ==> (outs[i] == Complete <==> BringsLast(seen, rs, all, i))
    decreases |rs|
  {
    hide Progress;
    hide LaterBlock;
    hide AddBlock;
    if |rs| == 0 {
      assert Seen(seen, rs, 0) == seen;
    } else {
      var all := Range(NumBlocks(|f|, BlockSize(szx)));
      assert rs[0] in rs;
      ProgressStep(a, rs[0], f, etag, szx, seen, now, more);
      var b := AddBlock(a, rs[0], now, more).0;
      var seen' := seen + {rs[0].num};
      FeedProgress(b, rs[1..], f, etag, szx, seen', now, more);
      var outs, outs' := Feed(a, rs, now, more).1, Feed(b, rs[1..], now, more).1;
      assert outs == [AddBlock(a, rs[0], now, more).1] + outs';
      SeenTail(seen, rs, |rs|);
      assert Seen(seen, rs, 0) == seen;
      forall i: nat | i < |rs|
        ensures outs[i] == Complete <==> BringsLast(seen, rs, all, i)
      {
        SeenTail(seen, rs, i + 1);
        if i > 0 {
          SeenTail(seen, rs, i);
          assert outs[i] == outs'[i - 1];
          assert outs'[i - 1] == Complete <==> BringsLast(seen', rs[1..], all, i - 1);
        } else {
          assert Seen(seen', rs[1..], 0) == seen';
        }
      }
    }
  }

  lemma SeenGrows(seen: set<nat>, rs: seq<CoapResponse>, i: nat, j: nat)
    requires i <= j <= |rs|
    ensures Seen(seen, rs, i) <= Seen(seen, rs, j)
  {
  }

  /** Nothing is added once all blocks are there. */
  lemma SeenAll(rs: seq<CoapResponse>, i: nat, f: bytes, etag: nat, szx: nat)
    requires forall r :: r in rs ==> LaterBlock(r, f, etag, szx)
    requires i <= |rs| && Seen({0}, rs, i) == Range(NumBlocks(|f|, BlockSize(szx)))
    ensures Seen({0}, rs, |rs|) == Seen({0}, rs, i)
  {
    var n := NumBlocks(|f|, BlockSize(szx));
    SeenGrows({0}, rs, i, |rs|);
    assert 0 in Seen({0}, rs, i);
    hide Seen;
    forall x | x in Seen({0}, rs, |rs|) ensures x in Range(n) {
      if x != 0 {
        var j := SeenIndex(rs, |rs|, x);
        assert rs[j] in rs;
      }
    }
  }

  lemma SeenIndex(rs: seq<CoapResponse>, i: nat, x: nat) returns (j: nat)
    requires i <= |rs| && x in Seen({0}, rs, i) && x != 0
    ensures j < i && rs[j].num == x
  {
    j :| j < i && rs[j].num == x;
  }

  lemma FirstComplete(seen: set<nat>, rs: seq<CoapResponse>, all: set<nat>, m: nat) returns (i: nat)
    requires m <= |rs| && seen != all && Seen(seen, rs, m) == all
    ensures i < m && BringsLast(seen, rs, all, i)
  {
    assert Seen(seen, rs, 0) == seen;
    i := m - 1;
    while Seen(seen, rs, i) == all
      invariant i < m && Seen(seen, rs, i + 1) == all
      decreases i
    {
      assert i > 0;
      i := i - 1;
    }
  }

  lemma StartsFrame(a: Assembly, r0: CoapResponse, f: bytes, szx: nat, now: real, more: Option<byte>)
    requires IsBlock(r0, f, r0.etag, szx) && r0.num == 0
    requires NumBlocks(|f|, BlockSize(szx)) <= MAX_BLOCKS && |f| <= |a.data|
    ensures var (b, out) := AddBlock(a, r0, now, more);
            && Progress(b, f, r0.etag, szx, {0})
            && out == if NumBlocks(|f|, BlockSize(szx)) == 1 then Complete else Stored
  {
    var n := NumBlocks(|f|, BlockSize(szx));
    NumBlocksBounds(|f|, BlockSize(szx));
    IsBlockSize(r0, f, r0.etag, szx);
    assert Open(a, r0, now, more).Some?;
    OpenCollects(a, r0, f, szx, now, more);
    hide Open;
    hide Collecting;
    hide IsBlock;
    hide NumBlocks;
    hide Store;
    var b := Open(a, r0, now, more).value;
    AcceptDecided(b, r0, f, szx);
    AcceptBlock(b, r0, f, szx);
    assert {0} == Range(1);
    assert n != 1 ==> 1 in Range(n);
    assert b.blocks + {r0.num} == {0};
  }

  /** Completion happens at one packet at most. */
  lemma CompletesOnce(rs: seq<CoapResponse>, outs: seq<Outcome>, all: set<nat>, i: nat, j: nat)
    requires |outs| == |rs| && i < |rs| && j < |rs| && outs[i] == Complete && outs[j] == Complete
    requires ReportsLastMissing(rs, outs, all)
    requires Seen({0}, rs, |rs|) == all
    ensures i == j
  {
    assert BringsLast({0}, rs, all, i) && BringsLast({0}, rs, all, j);
    if i < j {
      SeenGrows({0}, rs, i + 1, j);
      SeenGrows({0}, rs, j, |rs|);
    } else if j < i {
      SeenGrows({0}, rs, j + 1, i);
      SeenGrows({0}, rs, i, |rs|);
    }
  }

  /** The assembler reports completion at index `i` of the packets after block 0 exactly when
      that packet brings the last missing block. */
  ghost predicate ReportsLastMissing(rs: seq<CoapResponse>, outs: seq<Outcome>, all: set<nat>) {
    && |outs| == |rs|
    && forall i: nat :: i < |rs| ==> (outs[i] == Complete <==> BringsLast({0}, rs, all, i))
  }

  lemma ReportFacts(rs: seq<CoapResponse>, outs: seq<Outcome>, f: bytes, etag: nat, szx: nat)
    requires forall r :: r in rs ==> LaterBlock(r, f, etag, szx)
    requires ReportsLastMissing(rs, outs, Range(NumBlocks(|f|, BlockSize(szx))))
    ensures var all := Range(NumBlocks(|f|, BlockSize(szx)));
            && (forall i: nat, j: nat :: i < |rs| && j < |rs| && outs[i] == Complete && outs[j] == Complete ==> i == j)
            && ({0} == all || Complete in outs <==> Seen({0}, rs, |rs|) == all)
  {
    var all := Range(NumBlocks(|f|, BlockSize(szx)));
    hide Range;
    hide LaterBlock;
    assert Seen({0}, rs, 0) == {0};
    hide Seen;
    forall i: nat, j: nat | i < |rs| && j < |rs| && outs[i] == Complete && outs[j] == Complete ensures i == j {
      assert BringsLast({0}, rs, all, i);
      SeenAll(rs, i + 1, f, etag, szx);
      CompletesOnce(rs, outs, all, i, j);
    }
    if Seen({0}, rs, |rs|) == all && {0} != all {
      var i := FirstComplete({0}, rs, all, |rs|);
      assert outs[i] == Complete;
    }
    if Complete in outs {
      var i: nat :| i < |outs| && outs[i] == Complete;
      assert BringsLast({0}, rs, all, i);
      SeenAll(rs, i + 1, f, etag, szx);
    }
    if {0} == all { SeenAll(rs, 0, f, etag, szx); }
  }

  lemma OneBlock(n: nat)
    ensures {0} == Range(n) <==> n == 1
  {
    assert {0} == Range(1);
    RangeSize(n);
    RangeSize(1);
  }

  /** Any-order completion. Once block 0 of a frame of at most 128 blocks has arrived, feed the
      other blocks in any order with any repeats: the assembler reports completion exactly at
      the packet that brings the last missing block, at most once, and at some point if and
      only if every block came; the buffer then holds the frame. */
  lemma AnyOrderCompletion(a: Assembly, r0: CoapResponse, rs: seq<CoapResponse>, f: bytes, szx: nat, now: real, more: Option<byte>)
    requires IsBlock(r0, f, r0.etag, szx) && r0.num == 0
    requires forall r :: r in rs ==> LaterBlock(r, f, r0.etag, szx)
    requires NumBlocks(|f|, BlockSize(szx)) <= MAX_BLOCKS && |f| <= |a.data|
    ensures var (b, out0) := AddBlock(a, r0, now, more);
            var (c, outs) := Feed(b, rs, now, more);
            var all := Range(NumBlocks(|f|, BlockSize(szx)));
            && (out0 == Complete <==> {0} == all)
            && ReportsLastMissing(rs, outs, all)
            && (forall i: nat, j: nat :: i < |rs| && j < |rs| && outs[i] == Complete && outs[j] == Complete ==> i == j)
            && (out0 == Complete || Complete in outs <==> Seen({0}, rs, |rs|) == all)
            && (Seen({0}, rs, |rs|) == all ==> c.totalSize == |f| <= |c.data| && c.data[..|f|] == f)
  {
    StartsFrame(a, r0, f, szx, now, more);
    OneBlock(NumBlocks(|f|, BlockSize(szx)));
    hide AddBlock;
    hide LaterBlock;
    hide IsBlock;
    hide NumBlocks;
    hide Range;
    hide Seen;
    hide Feed;
    hide BlockSize;
    hide HoldsBlock;
    hide AllHeld;
    hide Collecting;
    var b := AddBlock(a, r0, now, more).0;
    FeedProgress(b, rs, f, r0.etag, szx, {0}, now, more);
    ReportFacts(rs, Feed(b, rs, now, more).1, f, r0.etag, szx);
    hide ReportsLastMissing;
  }
}
