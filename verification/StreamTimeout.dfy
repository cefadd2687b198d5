/** Frames and the four-second timeout on the K1: packets and checks in any order. */
module StreamTimeout {
  import opened Bytes
  import opened CoapOptions
  import opened CoapServerWire
  import opened CoapReceiverWire
  import opened StreamFrames
  import opened StreamServer
  import opened SenderInvariant
  import opened Block2Assembly
  import opened Block2Completion
  import opened CoapReceiver
  import opened StreamDelivery

  // ---- any packets ----

  /** What happens to the K1: a datagram comes in, or the loop checks for an overdue frame. */
  datatype Input = Packet(data: bytes, now: real, grown: Option<byte>, mallocOk: bool) | Check(at: real)

  ghost function Next(s: Receiver, x: Input): (t: Receiver)
    requires Fits(s.assembly)
    ensures Fits(t.assembly)
  {
    match x
    case Packet(data, now, grown, mallocOk) => Processed(s, data, now, grown, mallocOk)
    case Check(at) => TimedOut(s, at)
  }

  ghost function Fed(s: Receiver, xs: seq<Input>): (t: Receiver)
    requires Fits(s.assembly)
    ensures Fits(t.assembly)
  {
    if |xs| == 0 then s else Next(Fed(s, xs[..|xs| - 1]), xs[|xs| - 1])
  }

  /** A packet of the stream that starts a frame: block 0, or another ETag than that of the frame under way. */
  ghost predicate BeginsFrame(s: Receiver, x: Input) {
    x.Packet? && ParseResponse(x.data).Some? &&
    var r := ParseResponse(x.data).value;
    IsStream(r) && (r.num == 0 || (s.assembly.active && r.etag != 0 && r.etag != s.assembly.etag))
  }

  ghost predicate Since(a: Assembly, t: real) {
    a.active ==> a.startTime == t
  }

  lemma AcceptSince(a: Assembly, r: CoapResponse, t: real)
    requires Since(a, t)
    ensures Since(Accept(a, r).0, t)
  {
    hide Place;
    hide BlockSize;
  }

  lemma AddSince(a: Assembly, r: CoapResponse, now: real, more: Option<byte>, t: real)
    requires if OpensFrame(a, r) then t == now else Since(a, t)
    ensures Since(AddBlock(a, r, now, more).0, t)
  {
    hide Accept;
    if OpensFrame(a, r) && Open(a, r, now, more).Some? {
      AcceptSince(Open(a, r, now, more).value, r, t);
    } else if !OpensFrame(a, r) {
      AcceptSince(a, r, t);
    }
  }

  lemma NextSince(s: Receiver, x: Input, t: real)
    requires Fits(s.assembly)
    requires if BeginsFrame(s, x) then t == x.now else Since(s.assembly, t)
    ensures Since(Next(s, x).assembly, t)
  {
    hide ParseResponse;
    hide AddBlock;
    if x.Packet? && ParseResponse(x.data).Some? && IsStream(ParseResponse(x.data).value) {
      AddSince(s.assembly, ParseResponse(x.data).value, x.now, x.grown, t);
    }
  }

  ghost predicate NoneStarts(s: Receiver, first: Input, later: seq<Input>)
    requires Fits(s.assembly)
  {
    forall n: nat :: n < |later| ==> !StartsAt(s, first, later, n)
  }

  ghost predicate StartsAt(s: Receiver, first: Input, later: seq<Input>, n: nat)
    requires Fits(s.assembly) && n < |later|
  {
    BeginsFrame(Fed(s, [first] + later[..n]), later[n])
  }

  lemma SameStart(s: Receiver, first: Input, later: seq<Input>, n: nat, k: nat)
    requires Fits(s.assembly) && n < k <= |later|
    ensures StartsAt(s, first, later[..k], n) <==> StartsAt(s, first, later, n)
  {
    assert later[..k][..n] == later[..n];
    hide BeginsFrame;
    hide Fed;
  }

  lemma {:induction false} StillSince(s: Receiver, first: Input, later: seq<Input>)
    requires Fits(s.assembly) && BeginsFrame(s, first) && NoneStarts(s, first, later)
    ensures Since(Fed(s, [first] + later).assembly, first.now)
    decreases |later|
  {
    hide *;
    BeginsPacket(s, first);
    LastFed(s, first, later);
    if |later| == 0 {
      NextSince(s, first, first.now);
    } else {
      var k := |later| - 1;
      NoneStartsBefore(s, first, later);
      StillSince(s, first, later[..k]);
      NextSince(Fed(s, [first] + later[..k]), later[k], first.now);
    }
  }

  lemma BeginsPacket(s: Receiver, x: Input)
    requires BeginsFrame(s, x)
    ensures x.Packet?
  {
  }

  lemma FedOnce(s: Receiver, xs: seq<Input>)
    requires Fits(s.assembly) && |xs| > 0
    ensures Fed(s, []) == s
    ensures var k := |xs| - 1; Fed(s, xs) == Next(Fed(s, xs[..k]), xs[k])
  {
    hide Next;
  }

  lemma LastFed(s: Receiver, first: Input, later: seq<Input>)
    requires Fits(s.assembly)
    ensures |later| == 0 ==> Fed(s, [first] + later) == Next(s, first)
    ensures |later| > 0 ==>
              var k := |later| - 1;
              Fed(s, [first] + later) == Next(Fed(s, [first] + later[..k]), later[k])
  {
    hide *;
    var xs := [first] + later;
    FedOnce(s, xs);
    if |later| == 0 {
      assert xs[..0] == [];
    } else {
      assert xs[..|xs| - 1] == [first] + later[..|later| - 1];
    }
  }

  lemma NoneStartsBefore(s: Receiver, first: Input, later: seq<Input>)
    requires Fits(s.assembly) && NoneStarts(s, first, later) && |later| > 0
    ensures var k := |later| - 1;
            NoneStarts(s, first, later[..k]) && !BeginsFrame(Fed(s, [first] + later[..k]), later[k])
  {
    hide BeginsFrame;
    hide Fed;
    var k := |later| - 1;
    assert !StartsAt(s, first, later, k);
    forall n: nat | n < k ensures !StartsAt(s, first, later[..k], n) { SameStart(s, first, later, n, k); }
    hide StartsAt;
  }

  /** A frame that a packet started at one time, and that has not been finished or given up after any
      packets and checks since, is dropped by a check at another time if and only if more than
      four seconds lie between the two; otherwise the check changes nothing. */
  lemma DroppedIffOverdue(s: Receiver, first: Input, later: seq<Input>, at: real)
    requires Fits(s.assembly) && BeginsFrame(s, first) && NoneStarts(s, first, later)
    requires Fed(s, [first] + later).assembly.active
    ensures var t := Fed(s, [first] + later);
            var u := TimedOut(t, at);
            && (u.assembly.active <==> at - first.now <= 4000.0)
            && (u.assembly.active ==> u == t)
            && u.jpeg == t.jpeg && u.frameIndex == t.frameIndex
  {
    StillSince(s, first, later);
    hide Fed;
    hide NoneStarts;
    hide BeginsFrame;
  }

  // ---- the blocks of one frame ----

  /** A block of the frame comes in, or the loop checks. */
  datatype Event = Came(num: nat, now: real, grown: Option<byte>, mallocOk: bool) | Checked(at: real)

  /** Block 0 first; after it any blocks, in any order with any repeats, and any checks. */
  ghost predicate Eventful(evs: seq<Event>, total: nat) {
    && |evs| > 0 && evs[0].Came? && evs[0].num == 0 && total > 0
    && forall i :: 0 < i < |evs| && evs[i].Came? ==> 0 < evs[i].num < total
  }

  ghost function Received(c: Client, captured: seq<bytes>, buffer: bytes, e: Event): (x: Input)
    requires Sending(c, captured, buffer) && (e.Came? ==> e.num < TotalBlocks(c))
  {
    match e
    case Came(num, now, grown, mallocOk) => Packet(BlockData(c, captured, buffer, num), now, grown, mallocOk)
    case Checked(at) => Check(at)
  }

  /** The K1 after these events. */
  ghost function Watched(s: Receiver, c: Client, captured: seq<bytes>, buffer: bytes, evs: seq<Event>): (t: Receiver)
    requires Fits(s.assembly) && Sending(c, captured, buffer) && Eventful(evs, TotalBlocks(c))
    ensures Fits(t.assembly)
  {
    if |evs| == 1 then Next(s, Received(c, captured, buffer, evs[0]))
    else
      assert Eventful(evs[..|evs| - 1], TotalBlocks(c));
      Next(Watched(s, c, captured, buffer, evs[..|evs| - 1]), Received(c, captured, buffer, evs[|evs| - 1]))
  }

  /** Every block is among the first `n` events. */
  ghost predicate Whole(evs: seq<Event>, n: nat, total: nat)
    requires n <= |evs|
  {
    forall k: nat :: k < total ==> Has(evs, n, k)
  }

  ghost predicate Has(evs: seq<Event>, n: nat, k: nat)
    requires n <= |evs|
  {
    exists i :: 0 <= i < n && evs[i].Came? && evs[i].num == k
  }

  /** A check more than four seconds after block 0 finds blocks missing. */
  ghost predicate CutShort(evs: seq<Event>, n: nat, total: nat)
    requires |evs| > 0 && evs[0].Came? && n <= |evs|
  {
    exists i :: 0 <= i < n && evs[i].Checked? && evs[i].at - evs[0].now > 4000.0 && !Whole(evs, i, total)
  }

  /** The last missing block comes, and no check has cut the frame short before. */
  ghost predicate Finishes(evs: seq<Event>, i: nat, total: nat)
    requires |evs| > 0 && evs[0].Came? && i < |evs|
  {
    Whole(evs, i + 1, total) && !Whole(evs, i, total) && !CutShort(evs, i, total)
  }

  // ---- the phases of a frame ----

  /** The blocks gathered; or over: cut short, or finished with or without memory for the copy. */
  datatype Phase = Gathering(seen: set<nat>) | Over(finished: Option<bool>)

  ghost function PhaseAfter(evs: seq<Event>, total: nat): (p: Phase)
    requires |evs| > 0 && evs[0].Came?
  {
    var p := if |evs| == 1 then Gathering({}) else PhaseAfter(evs[..|evs| - 1], total);
    match (p, evs[|evs| - 1])
    case (Over(_), _) => p
    case (Gathering(seen), Came(num, _, _, mallocOk)) =>
      if seen + {num} == Range(total) then Over(Some(mallocOk)) else Gathering(seen + {num})
    case (Gathering(seen), Checked(at)) => if at - evs[0].now > 4000.0 then Over(None) else p
  }

  ghost predicate InPhase(t: Receiver, s: Receiver, f: bytes, etag: nat, since: real, p: Phase) {
    match p
    case Gathering(seen) =>
      Under(t, f, etag, seen) && seen <= All(f) && seen != All(f) && Since(t.assembly, since) && Alike(t, s)
    case Over(None) => !t.assembly.active && Alike(t, s)
    case Over(Some(mallocOk)) => !t.assembly.active && Finished(t, s, f, mallocOk)
  }

  /** The frame is published; without memory for the copy it is lost, and so is the one before it. */
  ghost predicate Finished(t: Receiver, s: Receiver, f: bytes, mallocOk: bool) {
    if mallocOk then t.jpeg == Some(f) && t.frameIndex == s.frameIndex + 1 else t.jpeg == None && t.frameIndex == s.frameIndex
  }

  /** Nothing under way: later blocks and checks change nothing. */
  lemma IdleStays(t: Receiver, x: Input, r: CoapResponse)
    requires Fits(t.assembly) && !t.assembly.active
    requires x.Packet? ==> ParseResponse(x.data) == Some(r) && r.num > 0
    ensures Next(t, x) == t
  {
    hide ParseResponse;
  }

  lemma CheckedPhase(t: Receiver, s: Receiver, f: bytes, etag: nat, since: real, seen: set<nat>, at: real)
    requires Fits(t.assembly) && InPhase(t, s, f, etag, since, Gathering(seen))
    ensures InPhase(Next(t, Check(at)), s, f, etag, since, if at - since > 4000.0 then Over(None) else Gathering(seen))
  {
    hide NumBlocks;
    hide AllHeld;
  }

  lemma PublishedEither(s: Receiver, f: bytes, mallocOk: bool)
    requires |f| == s.assembly.totalSize <= |s.assembly.data| && s.assembly.data[..|f|] == f && StartsJpeg(f, |f|)
    ensures var t := Published(s, mallocOk); t.assembly == s.assembly && Finished(t, s, f, mallocOk)
  {
    assert s.assembly.data[0] == f[0] && s.assembly.data[1] == f[1];
  }

  lemma NextIs(s: Receiver, data: bytes, r: CoapResponse, now: real, grown: Option<byte>, mallocOk: bool)
    requires Fits(s.assembly) && ParseResponse(data) == Some(r) && IsStream(r)
    ensures var (b, out) := AddBlock(s.assembly, r, now, grown);
            && Fits(b) && (out == Complete ==> b.totalSize <= |b.data|)
            && Next(s, Packet(data, now, grown, mallocOk)) ==
               if out == Complete then Published(s.(assembly := b), mallocOk) else s.(assembly := b)
  {
    AddBlockFits(s.assembly, r, now, grown);
    hide AddBlock;
    hide ParseResponse;
    hide Published;
  }

  ghost function Gathered(f: bytes, seen: set<nat>, mallocOk: bool): (p: Phase) {
    if seen == All(f) then Over(Some(mallocOk)) else Gathering(seen)
  }

  /** What a block added to the assembler means for the receiver. */
  lemma AddedPhase(t: Receiver, s: Receiver, f: bytes, etag: nat, since: real, seen: set<nat>, added: (Assembly, Outcome), mallocOk: bool)
    requires StartsJpeg(f, |f|) && Progress(added.0, f, etag, DEFAULT_SZX, seen) && Fits(added.0) && Since(added.0, since)
    requires Alike(t, s) && seen <= All(f) && (added.1 == Complete <==> seen == All(f))
    ensures added.1 == Complete ==> added.0.totalSize <= |added.0.data|
    ensures InPhase(if added.1 == Complete then Published(t.(assembly := added.0), mallocOk) else t.(assembly := added.0),
                    s, f, etag, since, Gathered(f, seen, mallocOk))
  {
    hide Published;
    hide StartsJpeg;
    hide Fits;
    var u := t.(assembly := added.0);
    assert Under(u, f, etag, seen) by { hide Progress; }
    UnderIs(u, f, etag, seen);
    if added.1 == Complete {
      assert !added.0.active;
      PublishedEither(u, f, mallocOk);
    }
    hide Collecting;
    hide NumBlocks;
  }

  lemma NotAnother(t: Receiver, f: bytes, etag: nat, seen: set<nat>, r: CoapResponse)
    requires Under(t, f, etag, seen) && seen != All(f) && IsBlock(r, f, etag, DEFAULT_SZX) && r.num > 0
    ensures !OpensFrame(t.assembly, r)
  {
    hide NumBlocks;
    hide BlockOf;
    hide Collecting;
  }

  lemma BlockInAll(r: CoapResponse, f: bytes, etag: nat)
    requires IsBlock(r, f, etag, DEFAULT_SZX)
    ensures r.num in All(f)
  {
    hide NumBlocks;
    hide BlockOf;
  }

  lemma GatheringIs(t: Receiver, s: Receiver, f: bytes, etag: nat, since: real, seen: set<nat>)
    requires InPhase(t, s, f, etag, since, Gathering(seen))
    ensures Progress(t.assembly, f, etag, DEFAULT_SZX, seen) && Fits(t.assembly)
    ensures Under(t, f, etag, seen) && Since(t.assembly, since) && Alike(t, s) && seen <= All(f) && seen != All(f)
  {
    hide Progress;
    hide All;
  }

  lemma FewIs(f: bytes)
    requires Few(f)
    ensures NumBlocks(|f|, BlockSize(DEFAULT_SZX)) <= MAX_BLOCKS && All(f) == Range(NumBlocks(|f|, BlockSize(DEFAULT_SZX)))
  {
    hide NumBlocks;
  }

  lemma LaterIs(r: CoapResponse, f: bytes, etag: nat)
    requires IsBlock(r, f, etag, DEFAULT_SZX) && r.num > 0
    ensures LaterBlock(r, f, etag, DEFAULT_SZX)
  {
    hide IsBlock;
  }

  /** One later block. */
  lemma LaterPhase(t: Receiver, s: Receiver, f: bytes, etag: nat, since: real, seen: set<nat>, data: bytes, r: CoapResponse,
                   now: real, grown: Option<byte>, mallocOk: bool)
    requires Few(f) && StartsJpeg(f, |f|) && InPhase(t, s, f, etag, since, Gathering(seen)) && Fits(t.assembly)
    requires ParseResponse(data) == Some(r) && IsStream(r) && IsBlock(r, f, etag, DEFAULT_SZX) && r.num > 0
    ensures InPhase(Next(t, Packet(data, now, grown, mallocOk)), s, f, etag, since, Gathered(f, seen + {r.num}, mallocOk))
  {
    NotAnother(t, f, etag, seen, r);
    BlockInAll(r, f, etag);
    hide *;
    GatheringIs(t, s, f, etag, since, seen);
    FewIs(f);
    LaterIs(r, f, etag);
    ProgressStep(t.assembly, r, f, etag, DEFAULT_SZX, seen, now, grown);
    AddSince(t.assembly, r, now, grown, since);
    NextIs(t, data, r, now, grown, mallocOk);
    AddedPhase(t, s, f, etag, since, seen + {r.num}, AddBlock(t.assembly, r, now, grown), mallocOk);
  }

  /** Block 0, whatever the K1 held before. */
  lemma FirstPhase(s: Receiver, f: bytes, etag: nat, data: bytes, r: CoapResponse, now: real, grown: Option<byte>, mallocOk: bool)
    requires Few(f) && StartsJpeg(f, |f|) && |f| <= |s.assembly.data| && Fits(s.assembly)
    requires ParseResponse(data) == Some(r) && IsStream(r) && IsBlock(r, f, etag, DEFAULT_SZX) && r.etag == etag && r.num == 0
    ensures InPhase(Next(s, Packet(data, now, grown, mallocOk)), s, f, etag, now, Gathered(f, {0}, mallocOk))
  {
    BlockInAll(r, f, etag);
    hide *;
    FewIs(f);
    StartsFrame(s.assembly, r, f, DEFAULT_SZX, now, grown);
    OneBlock(NumBlocks(|f|, BlockSize(DEFAULT_SZX)));
    ZeroOpens(s.assembly, r);
    AddSince(s.assembly, r, now, grown, now);
    NextIs(s, data, r, now, grown, mallocOk);
    SameAlike(s);
    AddedPhase(s, s, f, etag, now, {0}, AddBlock(s.assembly, r, now, grown), mallocOk);
  }

  lemma ZeroOpens(a: Assembly, r: CoapResponse)
    requires r.num == 0
    ensures OpensFrame(a, r)
  {
  }

  lemma SameAlike(s: Receiver)
    ensures Alike(s, s)
  {
  }

  lemma EarlierEvents(evs: seq<Event>, total: nat)
    requires Eventful(evs, total) && |evs| > 1
    ensures var es := evs[..|evs| - 1]; Eventful(es, total) && es[0] == evs[0]
    ensures var e := evs[|evs| - 1]; e.Came? ==> 0 < e.num < total
  {
  }

  lemma WatchedIs(s: Receiver, c: Client, captured: seq<bytes>, buffer: bytes, evs: seq<Event>)
    requires Fits(s.assembly) && Sending(c, captured, buffer) && Eventful(evs, TotalBlocks(c))
    ensures |evs| == 1 ==>
              && 0 < TotalBlocks(c) && evs[0].Came? && evs[0].num == 0
              && Watched(s, c, captured, buffer, evs) == Next(s, Received(c, captured, buffer, evs[0]))
    ensures |evs| > 1 ==>
              var e := evs[|evs| - 1];
              && Eventful(evs[..|evs| - 1], TotalBlocks(c)) && (e.Came? ==> 0 < e.num < TotalBlocks(c))
              && Watched(s, c, captured, buffer, evs) ==
                 Next(Watched(s, c, captured, buffer, evs[..|evs| - 1]), Received(c, captured, buffer, e))
  {
    if |evs| > 1 { EarlierEvents(evs, TotalBlocks(c)); }
    hide Next;
    hide Received;
    hide Sending;
    hide TotalBlocks;
  }

  lemma ReceivedIs(c: Client, captured: seq<bytes>, buffer: bytes, e: Event)
    requires Sending(c, captured, buffer) && (e.Came? ==> e.num < TotalBlocks(c))
    ensures Streaming(c, captured, buffer)
    ensures match e
            case Came(num, now, grown, mallocOk) =>
              Received(c, captured, buffer, e) == Packet(BlockData(c, captured, buffer, num), now, grown, mallocOk)
            case Checked(at) => Received(c, captured, buffer, e) == Check(at)
  {
    hide Streaming;
    hide BlockData;
    hide TotalBlocks;
  }

  lemma PhaseStep(evs: seq<Event>, total: nat, f: bytes)
    requires |evs| > 0 && evs[0].Came? && All(f) == Range(total)
    ensures |evs| == 1 ==> PhaseAfter(evs, total) == Gathered(f, {evs[0].num}, evs[0].mallocOk)
    ensures |evs| > 1 ==>
              var p, e := PhaseAfter(evs[..|evs| - 1], total), evs[|evs| - 1];
              PhaseAfter(evs, total) ==
              match p
              case Over(_) => p
              case Gathering(seen) =>
                match e
                case Came(num, _, _, mallocOk) => Gathered(f, seen + {num}, mallocOk)
                case Checked(at) => if at - evs[0].now > 4000.0 then Over(None) else p
  {
    hide All;
    hide Range;
    if |evs| == 1 { assert {} + {evs[0].num} == {evs[0].num}; }
  }

  /** The K1 goes through the phases of the frame. */
  lemma {:induction false} WatchedPhase(s: Receiver, c: Client, captured: seq<bytes>, buffer: bytes, evs: seq<Event>)
    requires Fits(s.assembly) && |s.assembly.data| >= FRAME_BUF_CAPACITY && Sending(c, captured, buffer)
    requires Eventful(evs, TotalBlocks(c)) && |evs| > 0 && evs[0].Came?
    ensures InPhase(Watched(s, c, captured, buffer, evs), s, buffer, |captured|, evs[0].now, PhaseAfter(evs, TotalBlocks(c)))
    decreases |evs|
  {
    hide *;
    TotalIs(c, captured, buffer);
    BufferFits(c, captured, buffer);
    WatchedIs(s, c, captured, buffer, evs);
    PhaseStep(evs, TotalBlocks(c), buffer);
    var e := evs[|evs| - 1];
    ReceivedIs(c, captured, buffer, e);
    if |evs| == 1 {
      var r := BlockRead(c, captured, buffer, 0);
      FirstPhase(s, buffer, |captured|, BlockData(c, captured, buffer, 0), r, e.now, e.grown, e.mallocOk);
    } else {
      var es := evs[..|evs| - 1];
      EarlierEvents(evs, TotalBlocks(c));
      WatchedPhase(s, c, captured, buffer, es);
      EventPhase(Watched(s, c, captured, buffer, es), s, c, captured, buffer, evs[0].now, PhaseAfter(es, TotalBlocks(c)), e);
    }
  }

  /** One event after block 0. */
  lemma EventPhase(t: Receiver, s: Receiver, c: Client, captured: seq<bytes>, buffer: bytes, since: real, p: Phase, e: Event)
    requires Fits(t.assembly) && Sending(c, captured, buffer) && InPhase(t, s, buffer, |captured|, since, p)
    requires e.Came? ==> 0 < e.num < TotalBlocks(c)
    ensures InPhase(Next(t, Received(c, captured, buffer, e)), s, buffer, |captured|, since,
                    match p
                    case Over(_) => p
                    case Gathering(seen) =>
                      match e
                      case Came(num, _, _, mallocOk) => Gathered(buffer, seen + {num}, mallocOk)
                      case Checked(at) => if at - since > 4000.0 then Over(None) else p)
  {
    hide *;
    TotalIs(c, captured, buffer);
    ReceivedIs(c, captured, buffer, e);
    match e
    case Came(num, now, grown, mallocOk) =>
      var r := BlockRead(c, captured, buffer, num);
      if p.Over? {
        OverIs(t, s, buffer, |captured|, since, p);
        IdleStays(t, Received(c, captured, buffer, e), r);
      } else {
        LaterPhase(t, s, buffer, |captured|, since, p.seen, BlockData(c, captured, buffer, num), r, now, grown, mallocOk);
      }
    case Checked(at) =>
      if p.Over? {
        OverIs(t, s, buffer, |captured|, since, p);
        IdleStays(t, Check(at), EmptyResponse([]));
      } else {
        CheckedPhase(t, s, buffer, |captured|, since, p.seen, at);
      }
  }

  lemma OverIs(t: Receiver, s: Receiver, f: bytes, etag: nat, since: real, p: Phase)
    requires InPhase(t, s, f, etag, since, p) && p.Over?
    ensures !t.assembly.active
  {
  }

  // ---- when a frame is finished ----

  lemma SameBefore(evs: seq<Event>, total: nat, i: nat)
    requires |evs| > 1 && evs[0].Came? && i < |evs|
    ensures var es := evs[..|evs| - 1];
            && (Whole(evs, i, total) <==> Whole(es, i, total)) && (CutShort(evs, i, total) <==> CutShort(es, i, total))
            && (i + 1 < |evs| ==> (Finishes(evs, i, total) <==> Finishes(es, i, total)))
  {
    var es := evs[..|evs| - 1];
    forall j, k: nat | 0 <= j < |evs| ensures Has(evs, j, k) <==> Has(es, j, k) { HasBefore(evs, j, k); }
    hide Has;
    assert forall j :: 0 <= j < |evs| ==> (Whole(evs, j, total) <==> Whole(es, j, total));
    hide Whole;
    assert forall j :: 0 <= j < |evs| ==> (CutShort(evs, j, total) <==> CutShort(es, j, total));
  }

  lemma HasBefore(evs: seq<Event>, j: nat, k: nat)
    requires |evs| > 0 && j < |evs|
    ensures Has(evs, j, k) <==> Has(evs[..|evs| - 1], j, k)
  {
    var es := evs[..|evs| - 1];
    assert forall i :: 0 <= i < j ==> es[i] == evs[i];
    if Has(es, j, k) {
      var i :| 0 <= i < j && es[i].Came? && es[i].num == k;
      assert evs[i].Came? && evs[i].num == k;
    }
  }

  lemma OneMoreHas(evs: seq<Event>, k: nat)
    requires |evs| > 0
    ensures var n := |evs| - 1;
            Has(evs, n + 1, k) <==> Has(evs, n, k) || (evs[n].Came? && evs[n].num == k)
  {
  }

  ghost predicate GatheredAre(evs: seq<Event>, n: nat, seen: set<nat>)
    requires n <= |evs|
  {
    forall k: nat :: k in seen <==> Has(evs, n, k)
  }

  lemma WholeIs(evs: seq<Event>, n: nat, seen: set<nat>, total: nat)
    requires n <= |evs| && GatheredAre(evs, n, seen) && seen <= Range(total)
    ensures Whole(evs, n, total) <==> seen == Range(total)
  {
    hide Has;
  }

  lemma WholeStays(evs: seq<Event>, i: nat, j: nat, total: nat)
    requires i <= j <= |evs| && Whole(evs, i, total)
    ensures Whole(evs, j, total)
  {
    forall k: nat | k < total ensures Has(evs, j, k) { assert Has(evs, i, k); }
  }

  lemma CutStays(evs: seq<Event>, i: nat, j: nat, total: nat)
    requires |evs| > 0 && evs[0].Came? && i <= j <= |evs| && CutShort(evs, i, total)
    ensures CutShort(evs, j, total)
  {
  }

  /** At most one event finishes the frame. */
  lemma FinishesOnce(evs: seq<Event>, i: nat, j: nat, total: nat)
    requires |evs| > 0 && evs[0].Came? && i < |evs| && j < |evs| && Finishes(evs, i, total) && Finishes(evs, j, total)
    ensures i == j
  {
    hide Whole;
    hide CutShort;
    if i < j { WholeStays(evs, i + 1, j, total); }
    if j < i { WholeStays(evs, j + 1, i, total); }
  }

  ghost predicate NoneFinishes(evs: seq<Event>, total: nat)
    requires |evs| > 0 && evs[0].Came?
  {
    forall i: nat :: i < |evs| ==> !Finishes(evs, i, total)
  }

  ghost predicate Meant(evs: seq<Event>, total: nat, p: Phase)
    requires |evs| > 0 && evs[0].Came?
  {
    match p
    case Gathering(seen) =>
      && GatheredAre(evs, |evs|, seen) && seen <= Range(total)
      && !Whole(evs, |evs|, total) && !CutShort(evs, |evs|, total) && NoneFinishes(evs, total)
    case Over(None) => CutShort(evs, |evs|, total) && NoneFinishes(evs, total)
    case Over(Some(mallocOk)) =>
      && Whole(evs, |evs|, total)
      && exists i: nat :: i < |evs| && Finishes(evs, i, total) && evs[i].Came? && evs[i].mallocOk == mallocOk
  }

  lemma MeantGathered(evs: seq<Event>, total: nat, f: bytes, seen: set<nat>, n: nat)
    requires |evs| == n + 1 && evs[0].Came? && total > 0 && All(f) == Range(total) && evs[n].Came? && evs[n].num < total
    requires GatheredAre(evs, n, seen) && seen <= Range(total) && !Whole(evs, n, total) && !CutShort(evs, n, total)
    requires forall i: nat :: i < n ==> !Finishes(evs, i, total)
    ensures Meant(evs, total, Gathered(f, seen + {evs[n].num}, evs[n].mallocOk))
  {
    var now := seen + {evs[n].num};
    forall k: nat ensures k in now <==> Has(evs, n + 1, k) { OneMoreHas(evs, k); }
    hide Has;
    WholeIs(evs, n + 1, now, total);
    NotCut(evs, n, total);
    hide Whole;
    hide CutShort;
    hide All;
    hide Range;
    if now == Range(total) { assert Finishes(evs, n, total); }
  }

  lemma NotCut(evs: seq<Event>, n: nat, total: nat)
    requires |evs| == n + 1 && evs[0].Came? && !CutShort(evs, n, total)
    requires evs[n].Checked? ==> evs[n].at - evs[0].now <= 4000.0
    ensures !CutShort(evs, n + 1, total)
  {
    hide Whole;
  }

  lemma MeantChecked(evs: seq<Event>, total: nat, seen: set<nat>, n: nat)
    requires |evs| == n + 1 && evs[0].Came? && evs[n].Checked?
    requires GatheredAre(evs, n, seen) && seen <= Range(total) && !Whole(evs, n, total) && !CutShort(evs, n, total)
    requires forall i: nat :: i < n ==> !Finishes(evs, i, total)
    ensures Meant(evs, total, if evs[n].at - evs[0].now > 4000.0 then Over(None) else Gathering(seen))
  {
    forall k: nat ensures Has(evs, n + 1, k) <==> Has(evs, n, k) { OneMoreHas(evs, k); }
    hide Has;
    assert !Whole(evs, n + 1, total);
    assert !Finishes(evs, n, total);
    if evs[n].at - evs[0].now > 4000.0 {
      assert CutShort(evs, n + 1, total);
    } else {
      NotCut(evs, n, total);
    }
    hide Whole;
    hide CutShort;
    hide Finishes;
  }

  lemma MeantOver(evs: seq<Event>, total: nat, p: Phase, n: nat)
    requires |evs| == n + 1 && n > 0 && evs[0].Came? && p.Over? && Meant(evs[..n], total, p)
    ensures Meant(evs, total, p)
  {
    forall i: nat | i <= n
      ensures (Whole(evs, i, total) <==> Whole(evs[..n], i, total)) && (CutShort(evs, i, total) <==> CutShort(evs[..n], i, total))
      ensures i < n ==> (Finishes(evs, i, total) <==> Finishes(evs[..n], i, total))
    {
      SameBefore(evs, total, i);
    }
    if p.finished.None? {
      CutStays(evs, n, n + 1, total);
      assert !Finishes(evs, n, total);
    } else {
      WholeStays(evs, n, n + 1, total);
      var i: nat :| i < n && Finishes(evs[..n], i, total) && evs[..n][i].Came? && evs[..n][i].mallocOk == p.finished.value;
      assert Finishes(evs, i, total) && evs[i] == evs[..n][i];
    }
    hide Whole;
    hide CutShort;
    hide Finishes;
  }

  lemma {:induction false} PhaseMeaning(evs: seq<Event>, total: nat, f: bytes)
    requires Eventful(evs, total) && |evs| > 0 && evs[0].Came? && All(f) == Range(total)
    ensures Meant(evs, total, PhaseAfter(evs, total))
    decreases |evs|
  {
    hide *;
    var n := |evs| - 1;
    PhaseStep(evs, total, f);
    if n == 0 {
      NothingYet(evs, total);
      MeantGathered(evs, total, f, {}, 0);
      OneSet(evs[0].num);
    } else {
      EarlierEvents(evs, total);
      PhaseMeaning(evs[..n], total, f);
      var p := PhaseAfter(evs[..n], total);
      if p.Over? {
        MeantOver(evs, total, p, n);
      } else {
        MeantBefore(evs, total, p.seen, n);
        if evs[n].Came? { MeantGathered(evs, total, f, p.seen, n); } else { MeantChecked(evs, total, p.seen, n); }
      }
    }
  }

  lemma OneSet(k: nat)
    ensures {} + {k} == {k}
  {
  }

  lemma NothingYet(evs: seq<Event>, total: nat)
    requires Eventful(evs, total)
    ensures total > 0 && evs[0].num == 0
    ensures GatheredAre(evs, 0, {}) && {} <= Range(total) && !Whole(evs, 0, total) && !CutShort(evs, 0, total)
  {
    assert !Has(evs, 0, 0);
  }

  lemma MeantBefore(evs: seq<Event>, total: nat, seen: set<nat>, n: nat)
    requires |evs| == n + 1 && n > 0 && evs[0].Came? && Meant(evs[..n], total, Gathering(seen))
    ensures GatheredAre(evs, n, seen) && seen <= Range(total) && !Whole(evs, n, total) && !CutShort(evs, n, total)
    ensures forall i: nat :: i < n ==> !Finishes(evs, i, total)
  {
    forall k: nat ensures Has(evs, n, k) <==> Has(evs[..n], n, k) { HasBefore(evs, n, k); }
    hide Has;
    SameBefore(evs, total, n);
    forall i: nat | i < n ensures !Finishes(evs, i, total) { SameBefore(evs, total, i); }
    hide Whole;
    hide CutShort;
  }

  /** End-to-end delivery against the clock. Whatever the K1 held before: let block 0 of a JPEG of up to
      128 KiB come, then blocks of it in any order with any repeats, and checks for an overdue frame
      anywhere between them. The K1 publishes the frame, once, if and only if every block came before
      any check more than four seconds after block 0; it is the last missing block that decides whether
      there was memory for it. */
  lemma DeliveredInTime(s: Receiver, c: Client, captured: seq<bytes>, buffer: bytes, evs: seq<Event>)
    requires Fits(s.assembly) && |s.assembly.data| >= FRAME_BUF_CAPACITY && Sending(c, captured, buffer)
    requires Eventful(evs, TotalBlocks(c)) && |evs| > 0 && evs[0].Came?
    ensures var t, total := Watched(s, c, captured, buffer, evs), TotalBlocks(c);
            && (forall i: nat :: i < |evs| && Finishes(evs, i, total) ==> evs[i].Came? && Finished(t, s, buffer, evs[i].mallocOk))
            && (NoneFinishes(evs, total) ==> t.jpeg == s.jpeg && t.frameIndex == s.frameIndex)
  {
    var t, total := Watched(s, c, captured, buffer, evs), TotalBlocks(c);
    var p := PhaseAfter(evs, total);
    TotalIs(c, captured, buffer);
    WatchedPhase(s, c, captured, buffer, evs);
    PhaseMeaning(evs, total, buffer);
    forall i: nat, j: nat | i < |evs| && j < |evs| && Finishes(evs, i, total) && Finishes(evs, j, total) ensures i == j {
      FinishesOnce(evs, i, j, total);
    }
    hide Watched;
    hide Sending;
    hide TotalBlocks;
    hide PhaseAfter;
    hide Finishes;
    hide Whole;
    hide CutShort;
    hide Finished;
    hide Under;
  }
}
