/** Reassembly of a frame from Block2 blocks in any order (src/coap_receiver.c). */
module Block2Assembly {
  import opened Bytes
  import opened CoapReceiverWire
  import opened StreamFrames

  const FRAME_BUF_CAPACITY := 131072
  const MAX_BLOCKS := 128
  const MAP_WORDS := 4

  datatype Assembly = Assembly(
    etag: nat, totalSize: nat, szx: nat, totalBlocks: nat, received: nat,
    blocks: set<nat>, data: bytes, startTime: real, active: bool, finalSeen: bool)

  datatype Outcome = Ignored | Stored | Complete

  function Reset(a: Assembly): (r: Assembly) {
    Assembly(0, 0, a.szx, 0, 0, {}, a.data, 0.0, false, false)
  }

  /** Does this block open a new frame? */
  predicate OpensFrame(a: Assembly, r: CoapResponse) {
    r.num == 0 || (a.active && r.etag != 0 && r.etag != a.etag)
  }

  /** The frame opened, its buffer grown when Size2 exceeds it. `more` is the filling of
      the memory that a successful reallocation adds; None means that it failed. */
  function Open(a: Assembly, r: CoapResponse, now: real, more: Option<byte>): (s: Option<Assembly>) {
    var b := Assembly(r.etag, r.size2, r.szx, 0, 0, {}, a.data, now, true, false);
    if r.size2 <= |a.data| then Some(b)
    else if more.None? then None
    else Some(b.(data := a.data + seq(r.size2 + 4096 - |a.data|, _ => more.value)))
  }

  function Place(data: bytes, at: nat, s: bytes): (d: bytes)
    requires at + |s| <= |data|
    ensures |d| == |data|
  {
    data[..at] + s + data[at + |s|..]
  }

  /** Wrong frame, out of range, already there, or short although more is to come. */
  predicate Refused(a: Assembly, r: CoapResponse) {
    !a.active || (r.etag != 0 && r.etag != a.etag) || r.num >= MAX_BLOCKS || r.num in a.blocks ||
    (r.more && |r.payload| != BlockSize(r.szx))
  }

  function Store(a: Assembly, r: CoapResponse): (s: Assembly)
    requires r.num * BlockSize(r.szx) + |r.payload| <= |a.data|
  {
    var at := r.num * BlockSize(r.szx);
    var b := a.(data := Place(a.data, at, r.payload), blocks := a.blocks + {r.num}, received := a.received + 1);
    if r.more then b
    else b.(finalSeen := true, totalBlocks := r.num + 1,
            totalSize := if b.totalSize == 0 then at + |r.payload| else b.totalSize)
  }

  /** The block's bookkeeping in the open frame. */
  function Accept(a: Assembly, r: CoapResponse): (s: (Assembly, Outcome)) {
    if Refused(a, r) then (a, Ignored)
    else if r.num * BlockSize(r.szx) + |r.payload| > |a.data| then (Reset(a), Ignored)
    else
      var b := Store(a, r);
      if b.finalSeen && b.received >= b.totalBlocks then (b.(active := false), Complete) else (b, Stored)
  }

  function AddBlock(a: Assembly, r: CoapResponse, now: real, more: Option<byte>): (s: (Assembly, Outcome)) {
    if OpensFrame(a, r) then
      match Open(a, r, now, more)
      case None => (Reset(a.(szx := r.szx)), Ignored)
      case Some(b) => Accept(b, r)
    else Accept(a, r)
  }

  // ---- the assembler itself, updated in place ----

  function Mask(i: nat): (r: bv32)
    requires i < 32
  {
    1 << i
  }

  lemma SetOneBit(w: bv32, i: nat, j: nat)
    requires i < 32 && j < 32
    ensures ((w | Mask(i)) & Mask(j)) != 0 <==> i == j || (w & Mask(j)) != 0
    ensures (0 as bv32) & Mask(i) == 0
  {
  }

  class Assembler {
    var etag: nat
    var totalSize: nat
    var szx: nat
    var totalBlocks: nat
    var received: nat
    const blockMap: array<bv32>
    var data: array<byte>
    var startTime: real
    var active: bool
    var finalSeen: bool

    ghost predicate Valid()
      reads this
    {
      blockMap.Length == MAP_WORDS && blockMap as object != data
    }

    predicate Test(idx: nat)
      requires blockMap.Length == MAP_WORDS && idx < MAX_BLOCKS
      reads blockMap
    {
      (blockMap[idx / 32] & Mask(idx % 32)) != 0
    }

    ghost function Received(): (r: set<nat>)
      requires blockMap.Length == MAP_WORDS
      reads blockMap
    {
      set i: nat | i < MAX_BLOCKS && Test(i)
    }

    ghost function State(): (r: Assembly)
      requires Valid()
      reads this, blockMap, data
    {
      Assembly(etag, totalSize, szx, totalBlocks, received, Received(), data[..], startTime, active, finalSeen)
    }

    constructor ()
      ensures Valid() && fresh(blockMap) && fresh(data)
      ensures !active && data.Length == FRAME_BUF_CAPACITY && Received() == {}
    {
      etag, totalSize, szx, totalBlocks, received := 0, 0, 6, 0, 0;
      startTime, active, finalSeen := 0.0, false, false;
      blockMap := new bv32[MAP_WORDS](_ => 0);
      data := new byte[FRAME_BUF_CAPACITY](_ => 0);
      new;
      forall i: nat | i < MAX_BLOCKS ensures !Test(i) { SetOneBit(0, i % 32, i % 32); }
    }

    method ResetInPlace()
      requires Valid()
      modifies this, blockMap
      ensures Valid() && data == old(data)
      ensures State() == Reset(old(State()))
    {
      etag, totalSize, totalBlocks, received := 0, 0, 0, 0;
      forall i | 0 <= i < MAP_WORDS { blockMap[i] := 0; }
      startTime, active, finalSeen := 0.0, false, false;
      forall i: nat | i < MAX_BLOCKS ensures !Test(i) { SetOneBit(0, i % 32, i % 32); }
      assert Received() == {};
    }

    method Mark(idx: nat)
      requires Valid() && idx < MAX_BLOCKS
      modifies blockMap
      ensures Received() == old(Received()) + {idx}
    {
      ghost var was := blockMap[idx / 32];
      blockMap[idx / 32] := blockMap[idx / 32] | Mask(idx % 32);
      forall i: nat | i < MAX_BLOCKS ensures Test(i) <==> i == idx || old(Test(i)) {
        SetOneBit(was, idx % 32, i % 32);
      }
    }

    method Grow(size: nat, fill: byte)
      requires Valid() && size > data.Length
      modifies this`data
      ensures Valid() && fresh(data)
      ensures data[..] == old(data[..]) + seq(size - old(data.Length), _ => fill)
    {
      var was := data[..];
      data := new byte[size](i => if 0 <= i < |was| then was[i] else fill);
    }

    /** Opening a frame; false when the buffer could not grow. */
    method OpenInPlace(r: CoapResponse, now: real, more: Option<byte>) returns (ok: bool)
      requires Valid()
      modifies this, blockMap
      ensures Valid() && (data == old(data) || fresh(data))
      ensures ok <==> Open(old(State()), r, now, more).Some?
      ensures State() == if ok then Open(old(State()), r, now, more).value else Reset(old(State()).(szx := r.szx))
    {
      ResetInPlace();
      etag := r.etag;
      totalSize := r.size2;
      szx := r.szx;
      startTime := now;
      active := true;
      finalSeen := false;
      if totalSize > data.Length {
        if more.None? {
          ResetInPlace();
          return false;
        }
        Grow(totalSize + 4096, more.value);
      }
      ok := true;
    }

    method StoreBlock(offset: nat, r: CoapResponse)
      requires Valid() && r.num < MAX_BLOCKS && offset + |r.payload| <= data.Length
      modifies this`received, blockMap, data
      ensures Valid()
      ensures var a := old(State());
              State() == a.(data := Place(a.data, offset, r.payload), blocks := a.blocks + {r.num}, received := a.received + 1)
    {
      forall i | 0 <= i < |r.payload| { data[offset + i] := r.payload[i]; }
      assert data[..] == Place(old(data[..]), offset, r.payload);
      assert Received() == old(Received());
      Mark(r.num);
      received := received + 1;
    }

    method AcceptInPlace(r: CoapResponse) returns (out: Outcome)
      requires Valid()
      modifies this, blockMap, data
      ensures Valid() && data == old(data)
      ensures (State(), out) == Accept(old(State()), r)
    {
      var size := BlockSize(r.szx);
      if !active { return Ignored; }
      if r.etag != 0 && r.etag != etag { return Ignored; }
      if r.num >= MAX_BLOCKS { return Ignored; }
      if Test(r.num) { return Ignored; }
      if r.more && |r.payload| != size { return Ignored; }
      var offset := r.num * size;
      if offset + |r.payload| > data.Length {
        ResetInPlace();
        return Ignored;
      }
      StoreBlock(offset, r);
      if !r.more {
        finalSeen := true;
        totalBlocks := r.num + 1;
        if totalSize == 0 { totalSize := offset + |r.payload|; }
      }
      if finalSeen {
        if received >= totalBlocks {
          active := false;
          out := Complete;
          return;
        }
      }
      return Stored;
    }

    method Add(r: CoapResponse, now: real, more: Option<byte>) returns (out: Outcome)
      requires Valid()
      modifies this, blockMap, data
      ensures Valid() && (data == old(data) || fresh(data))
      ensures (State(), out) == AddBlock(old(State()), r, now, more)
    {
      var newFrame := r.num == 0;
      if !newFrame && active && r.etag != 0 && r.etag != etag { newFrame := true; }
      if newFrame {
        var ok := OpenInPlace(r, now, more);
        if !ok { return Ignored; }
      }
      out := AcceptInPlace(r);
    }
  }
}
