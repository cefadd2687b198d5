/** The K1's receiving end (src/coap_receiver.c): a packet of the video stream goes into the
    assembler, a finished frame is published, and the consumer takes it from there. */
module CoapReceiver {
  import opened Bytes
  import opened CoapOptions
  import opened CoapReceiverWire
  import opened StreamFrames
  import opened Block2Assembly

  const FRAME_MAX_JPEG_LEN := 131072
  const FRAME_TIMEOUT_MS := 4000.0

  datatype Receiver = Receiver(assembly: Assembly, jpeg: Option<bytes>, frameIndex: nat)

  /** The frame under way fits the buffer. */
  ghost predicate Fits(a: Assembly) {
    a.active ==> a.totalSize <= |a.data|
  }

  predicate StartsJpeg(data: bytes, len: nat)
    requires len <= |data|
  {
    2 <= len <= FRAME_MAX_JPEG_LEN && data[0] == 0xFF && data[1] == 0xD8
  }

  /** A finished frame is copied out; a failed allocation loses it and the one before. */
  function Published(s: Receiver, mallocOk: bool): (r: Receiver)
    requires s.assembly.totalSize <= |s.assembly.data|
  {
    var a := s.assembly;
    if !StartsJpeg(a.data, a.totalSize) then s
    else if mallocOk then s.(jpeg := Some(a.data[..a.totalSize]), frameIndex := s.frameIndex + 1)
    else s.(jpeg := None)
  }

  /** Whatever arrives, the frame stays within the buffer, and so does the copy of a finished one. */
  lemma AddBlockFits(a: Assembly, r: CoapResponse, now: real, grown: Option<byte>)
    requires Fits(a)
    ensures var (b, out) := AddBlock(a, r, now, grown);
            Fits(b) && (out == Complete ==> b.totalSize <= |b.data|)
  {
    if OpensFrame(a, r) && Open(a, r, now, grown).Some? {
      AcceptFits(Open(a, r, now, grown).value, r);
    } else if !OpensFrame(a, r) {
      AcceptFits(a, r);
    }
  }

  lemma AcceptFits(a: Assembly, r: CoapResponse)
    requires Fits(a)
    ensures var (b, out) := Accept(a, r);
            Fits(b) && (out == Complete ==> b.totalSize <= |b.data|)
  {
    hide Place;
    hide BlockSize;
  }

  predicate IsStream(r: CoapResponse) {
    r.token == STREAM_TOKEN && OPT_BLOCK2 in r.present
  }

  function Processed(s: Receiver, data: bytes, now: real, grown: Option<byte>, mallocOk: bool): (t: Receiver)
    requires Fits(s.assembly)
    ensures Fits(t.assembly)
  {
    match ParseResponse(data)
    case None => s
    case Some(r) =>
      if !IsStream(r) then s
      else
        AddBlockFits(s.assembly, r, now, grown);
        var (b, out) := AddBlock(s.assembly, r, now, grown);
        var t := s.(assembly := b);
        if out == Complete then Published(t, mallocOk) else t
  }

  /** A packet that is malformed, has another token or no Block2 option leaves the K1 as it is. */
  lemma OtherPackets(s: Receiver, data: bytes, now: real, grown: Option<byte>, mallocOk: bool)
    requires Fits(s.assembly)
    requires ParseResponse(data).Some? ==>
               ParseResponse(data).value.token != [0xCA, 0xFE, 0xBA, 0xBE] || 23 !in ParseResponse(data).value.present
    ensures Processed(s, data, now, grown, mallocOk) == s
  {
    hide ParseResponse;
    hide AddBlock;
  }

  /** What a block of the stream does to the picture on show. Only one that completes a frame, and a frame
      that starts like a JPEG and is no longer than 131072 octets, does anything: with memory for the copy
      the frame is shown and counted, without it nothing is shown any more. */
  lemma PictureChanges(s: Receiver, data: bytes, now: real, grown: Option<byte>, mallocOk: bool)
    requires Fits(s.assembly) && ParseResponse(data).Some? && IsStream(ParseResponse(data).value)
    ensures var (b, out) := AddBlock(s.assembly, ParseResponse(data).value, now, grown);
            var t := Processed(s, data, now, grown, mallocOk);
            && t.assembly == b && (out == Complete ==> b.totalSize <= |b.data|)
            && (if out == Complete && 2 <= b.totalSize <= 131072 && b.data[0] == 255 && b.data[1] == 216 then
                  if mallocOk then t.jpeg == Some(b.data[..b.totalSize]) && t.frameIndex == s.frameIndex + 1
                  else t.jpeg == None && t.frameIndex == s.frameIndex
                else t.jpeg == s.jpeg && t.frameIndex == s.frameIndex)
  {
    AddBlockFits(s.assembly, ParseResponse(data).value, now, grown);
    hide ParseResponse;
    hide AddBlock;
  }

  function TimedOut(s: Receiver, now: real): (r: Receiver) {
    if s.assembly.active && now - s.assembly.startTime > FRAME_TIMEOUT_MS then s.(assembly := Reset(s.assembly)) else s
  }

  /** The consumer's side. */
  function Taken(s: Receiver): (r: (Receiver, Option<bytes>)) {
    match s.jpeg
    case None => (s, None)
    case Some(f) => if 0 < |f| < FRAME_MAX_JPEG_LEN then (s.(jpeg := None), Some(f)) else (s, None)
  }

  /** The limits disagree: publishing admits FRAME_MAX_JPEG_LEN octets, handing over does not.
      A published frame reaches the consumer exactly when it is shorter. */
  lemma HandedOverIffShorter(s: Receiver)
    requires s.assembly.totalSize <= |s.assembly.data| && StartsJpeg(s.assembly.data, s.assembly.totalSize)
    ensures var n := s.assembly.totalSize;
            var (t, f) := Taken(Published(s, true));
            && (f == Some(s.assembly.data[..n]) <==> n < FRAME_MAX_JPEG_LEN)
            && (n == FRAME_MAX_JPEG_LEN ==> f == None && Taken(t) == (t, None))
  {
  }

  class K1Receiver {
    const assembly: Assembler
    var jpeg: Option<bytes>
    var frameIndex: nat

    ghost predicate Valid()
      reads this, assembly
    {
      assembly.Valid()
    }

    ghost function State(): (r: Receiver)
      requires Valid()
      reads this, assembly, assembly.blockMap, assembly.data
    {
      Receiver(assembly.State(), jpeg, frameIndex)
    }

    constructor ()
      ensures Valid() && fresh(assembly) && fresh(assembly.blockMap) && fresh(assembly.data)
      ensures !State().assembly.active && State().jpeg == None && Fits(State().assembly)
    {
      assembly := new Assembler();
      jpeg, frameIndex := None, 0;
    }

    method Publish(mallocOk: bool)
      requires Valid() && assembly.totalSize <= assembly.data.Length
      modifies this
      ensures State() == Published(old(State()), mallocOk)
    {
      var len := assembly.totalSize;
      if len < 2 || len > FRAME_MAX_JPEG_LEN || assembly.data[0] != 0xFF || assembly.data[1] != 0xD8 { return; }
      jpeg := None;
      if mallocOk {
        jpeg := Some(assembly.data[..len]);
        frameIndex := frameIndex + 1;
        assert assembly.data[..][..len] == assembly.data[..len];
      }
    }

    method ProcessCoapPacket(data: bytes, now: real, grown: Option<byte>, mallocOk: bool)
      requires Valid() && Fits(State().assembly)
      modifies this, assembly, assembly.blockMap, assembly.data
      ensures Valid() && (assembly.data == old(assembly.data) || fresh(assembly.data))
      ensures State() == Processed(old(State()), data, now, grown, mallocOk)
    {
      hide AddBlock;
      hide ParseResponse;
      hide Published;
      var r := ParseResponsePacket(data);
      if r.None? { return; }
      if r.value.token == STREAM_TOKEN && OPT_BLOCK2 in r.value.present {
        AddBlockFits(assembly.State(), r.value, now, grown);
        var out := assembly.Add(r.value, now, grown);
        if out == Complete { Publish(mallocOk); }
      }
    }

    method CheckTimeout(now: real)
      requires Valid()
      modifies assembly, assembly.blockMap
      ensures Valid() && assembly.data == old(assembly.data)
      ensures State() == TimedOut(old(State()), now)
    {
      if assembly.active && now - assembly.startTime > FRAME_TIMEOUT_MS { assembly.ResetInPlace(); }
    }

    method GetLatestFrame() returns (frame: Option<bytes>)
      requires Valid()
      modifies this
      ensures Valid() && (State(), frame) == Taken(old(State()))
    {
      frame := None;
      if jpeg.Some? && 0 < |jpeg.value| < FRAME_MAX_JPEG_LEN {
        frame := jpeg;
        jpeg := None;
      }
    }
  }
}
