/** What becomes of any block at all, whatever the assembler holds. */
module Block2Rules {
  import opened Bytes
  import opened CoapReceiverWire
  import opened StreamFrames
  import opened Block2Assembly

  /** Block 0, or a block under another ETag than that of the frame under way, begins a frame. */
  predicate Begins(a: Assembly, r: CoapResponse) {
    r.num == 0 || (a.active && r.etag != 0 && r.etag != a.etag)
  }

  /** A frame that is announced larger than the buffer needs memory. */
  predicate NoMemory(a: Assembly, r: CoapResponse, more: Option<byte>) {
    Begins(a, r) && r.size2 > |a.data| && more.None?
  }

  /** The buffer a block goes to, grown to 4096 octets more than announced where it was too small. */
  function Room(a: Assembly, r: CoapResponse): (n: nat) {
    if Begins(a, r) && r.size2 > |a.data| then r.size2 + 4096 else |a.data|
  }

  /** The block belongs to the frame it begins or to the one under way, is new there, has a place in the
      bitmap, and is whole unless it is the last. */
  ghost predicate Belongs(a: Assembly, r: CoapResponse) {
    && (Begins(a, r) || (a.active && (r.etag == 0 || r.etag == a.etag) && r.num !in a.blocks))
    && r.num < 128
    && (r.more ==> |r.payload| == BlockSize(r.szx))
  }

  /** Where the block goes in the buffer. */
  function Offset(r: CoapResponse): (n: nat) {
    r.num * BlockSize(r.szx)
  }

  /** A block is ignored exactly when there is no memory for its frame, it does not belong, or it reaches
      beyond the buffer. In the first and the last case no frame is under way any more; a block that does
      not belong changes nothing, but for the frame it begins. */
  lemma IgnoredIff(a: Assembly, r: CoapResponse, now: real, more: Option<byte>)
    ensures var (b, out) := AddBlock(a, r, now, more);
            && (out == Ignored <==> NoMemory(a, r, more) || !Belongs(a, r) || Offset(r) + |r.payload| > Room(a, r))
            && (NoMemory(a, r, more) ==> !b.active && b.data == a.data && b.blocks == {})
            && (!NoMemory(a, r, more) && Belongs(a, r) && Offset(r) + |r.payload| > Room(a, r) ==> !b.active && b.blocks == {})
            && (!Begins(a, r) && !Belongs(a, r) ==> b == a)
            && (Begins(a, r) && !NoMemory(a, r, more) && !Belongs(a, r) ==> b.active && b.etag == r.etag && b.blocks == {})
  {
    hide BlockSize;
    hide Place;
  }

  /** A block that is not ignored lies in its place, and everything else in the buffer is as it was. */
  lemma StoredWhere(a: Assembly, r: CoapResponse, now: real, more: Option<byte>)
    requires AddBlock(a, r, now, more).1 != Ignored
    ensures var b := AddBlock(a, r, now, more).0;
            var at, end := Offset(r), Offset(r) + |r.payload|;
            && |b.data| == Room(a, r) && end <= |b.data|
            && b.data[at..end] == r.payload
            && (forall i :: 0 <= i < |a.data| && !(at <= i < end) ==> b.data[i] == a.data[i])
  {
    var base := if Begins(a, r) then Open(a, r, now, more).value else a;
    assert AddBlock(a, r, now, more) == Accept(base, r);
    assert |base.data| == Room(a, r) && a.data <= base.data;
    hide AddBlock;
    hide Open;
    hide BlockSize;
  }

  /** The frame then has one more block, under its ETag. The last block says how many there are, and how long
      the frame is if nobody said so before. */
  lemma StoredCounts(a: Assembly, r: CoapResponse, now: real, more: Option<byte>)
    requires AddBlock(a, r, now, more).1 != Ignored
    ensures var b := AddBlock(a, r, now, more).0;
            && b.blocks == (if Begins(a, r) then {} else a.blocks) + {r.num}
            && b.received == (if Begins(a, r) then 0 else a.received) + 1
            && b.etag == (if Begins(a, r) then r.etag else a.etag)
            && (b.finalSeen <==> !r.more || (!Begins(a, r) && a.finalSeen))
            && b.totalBlocks == (if !r.more then r.num + 1 else if Begins(a, r) then 0 else a.totalBlocks)
            && var said := if Begins(a, r) then r.size2 else a.totalSize;
              b.totalSize == (if !r.more && said == 0 then Offset(r) + |r.payload| else said)
  {
    hide BlockSize;
    hide Place;
  }

  /** A frame is complete exactly when its last block has been seen and as many blocks are there as that
      says; until then it is under way. */
  lemma CompleteWhen(a: Assembly, r: CoapResponse, now: real, more: Option<byte>)
    requires AddBlock(a, r, now, more).1 != Ignored
    ensures var (b, out) := AddBlock(a, r, now, more);
            && (out == Complete <==> b.finalSeen && b.received >= b.totalBlocks)
            && (b.active <==> out == Stored)
  {
    hide BlockSize;
    hide Place;
  }
}
