/** Frames and the four seconds after which the Python client drops one. */
module StreamStale {
  import opened Bytes
  import opened CoapOptions
  import opened CoapServerWire
  import opened CoapReceiverWire
  import opened StreamFrames
  import opened StreamServer
  import opened SenderInvariant
  import opened StreamDelivery
  import J = JpegAssembler
  import JC = JpegCompletion

  /** Empty, or begun at this time. */
  ghost predicate Since(a: J.Partial, begun: real) {
    a == J.EMPTY || a.startedAt == begun
  }

  lemma LaterSince(a: J.Partial, r: CoapResponse, later: real, begun: real)
    requires r.num > 0 && Since(a, begun)
    ensures Since(JC.FedBlock(a, r, later).0, begun)
    ensures a == J.EMPTY ==> JC.FedBlock(a, r, later) == (J.EMPTY, J.NoFrame)
  {
  }

  lemma ZeroSince(a: J.Partial, r: CoapResponse, later: real)
    requires r.num == 0
    ensures Since(JC.FedBlock(a, r, later).0, later)
  {
  }

  /** One datagram of a block. */
  ghost function Fed(a: J.Partial, c: Client, captured: seq<bytes>, buffer: bytes, x: PyArrival): (r: (J.Partial, J.Feed))
    requires Streaming(c, captured, buffer) && x.num < TotalBlocks(c)
  {
    J.FeedPacket(a, c.token, BlockData(c, captured, buffer, x.num), x.now, x.later)
  }

  lemma OneArrival(a: J.Partial, c: Client, captured: seq<bytes>, buffer: bytes, arr: seq<PyArrival>, begun: real)
    requires Streaming(c, captured, buffer) && PyBlocks(arr, TotalBlocks(c)) && |arr| > 0 && Since(a, begun)
    ensures PyBlocks(arr[1..], TotalBlocks(c)) && arr[0].num < TotalBlocks(c)
    ensures var (b, out) := Fed(a, c, captured, buffer, arr[0]);
            && Since(b, begun)
            && PyAbsorbed(a, c, captured, buffer, arr) == [out] + PyAbsorbed(b, c, captured, buffer, arr[1..])
            && (a == J.EMPTY || (begun != 0.0 && arr[0].now - begun > 4.0) ==> b == J.EMPTY && out == J.NoFrame)
  {
    hide *;
    RestBlocks(arr, TotalBlocks(c));
    FirstAbsorbed(a, c, captured, buffer, arr);
    FedIs(a, c, captured, buffer, arr[0]);
    PyArrives(a, c, captured, buffer, arr[0].num, arr[0].now, arr[0].later);
    var a1 := if a.startedAt != 0.0 && arr[0].now - a.startedAt > J.FRAME_STALE then J.EMPTY else a;
    StaleIs(a, a1, arr[0].now, begun);
    BlockNumber(c, captured, buffer, arr[0].num);
    LaterSince(a1, BlockResponse(c, captured, buffer, arr[0].num), arr[0].later, begun);
  }

  lemma FedIs(a: J.Partial, c: Client, captured: seq<bytes>, buffer: bytes, x: PyArrival)
    requires Streaming(c, captured, buffer) && x.num < TotalBlocks(c)
    ensures Fed(a, c, captured, buffer, x) == J.FeedPacket(a, c.token, BlockData(c, captured, buffer, x.num), x.now, x.later)
  {
  }

  lemma StaleIs(a: J.Partial, a1: J.Partial, now: real, begun: real)
    requires Since(a, begun) && a1 == if a.startedAt != 0.0 && now - a.startedAt > J.FRAME_STALE then J.EMPTY else a
    ensures Since(a1, begun)
    ensures a == J.EMPTY || (begun != 0.0 && now - begun > 4.0) ==> a1 == J.EMPTY
  {
  }

  ghost predicate Silent(outs: seq<J.Feed>) {
    forall i :: 0 <= i < |outs| ==> outs[i] == J.NoFrame
  }

  /** Once empty, the client returns nothing more of this frame. */
  lemma {:induction false} EmptySilent(c: Client, captured: seq<bytes>, buffer: bytes, arr: seq<PyArrival>)
    requires Streaming(c, captured, buffer) && PyBlocks(arr, TotalBlocks(c))
    ensures Silent(PyAbsorbed(J.EMPTY, c, captured, buffer, arr))
    decreases |arr|
  {
    if |arr| > 0 {
      assert Since(J.EMPTY, 0.0);
      OneArrival(J.EMPTY, c, captured, buffer, arr, 0.0);
      EmptySilent(c, captured, buffer, arr[1..]);
      hide PyAbsorbed;
      hide Streaming;
      hide PyBlocks;
      hide TotalBlocks;
    }
  }

  lemma LateSilent(a: J.Partial, c: Client, captured: seq<bytes>, buffer: bytes, arr: seq<PyArrival>, begun: real)
    requires Streaming(c, captured, buffer) && PyBlocks(arr, TotalBlocks(c)) && Since(a, begun)
    requires |arr| > 0 && begun != 0.0 && arr[0].now - begun > 4.0
    ensures Silent(PyAbsorbed(a, c, captured, buffer, arr))
  {
    OneArrival(a, c, captured, buffer, arr, begun);
    EmptySilent(c, captured, buffer, arr[1..]);
    hide PyAbsorbed;
    hide Streaming;
    hide PyBlocks;
    hide TotalBlocks;
  }

  lemma SubBlocks(arr: seq<PyArrival>, total: nat, m: nat)
    requires PyBlocks(arr, total) && m <= |arr|
    ensures PyBlocks(arr[..m], total) && PyBlocks(arr[m..], total)
  {
  }

  /** What comes back for a sequence of arrivals comes back for its parts, one after the other. */
  lemma {:induction false} InTwo(a: J.Partial, c: Client, captured: seq<bytes>, buffer: bytes, arr: seq<PyArrival>, m: nat, begun: real)
    returns (b: J.Partial)
    requires Streaming(c, captured, buffer) && PyBlocks(arr, TotalBlocks(c)) && m <= |arr| && Since(a, begun)
    ensures Since(b, begun) && PyBlocks(arr[..m], TotalBlocks(c)) && PyBlocks(arr[m..], TotalBlocks(c))
    ensures PyAbsorbed(a, c, captured, buffer, arr) ==
            PyAbsorbed(a, c, captured, buffer, arr[..m]) + PyAbsorbed(b, c, captured, buffer, arr[m..])
    decreases m
  {
    hide *;
    SubBlocks(arr, TotalBlocks(c), m);
    if m == 0 {
      b := a;
      assert arr[..0] == [] && arr[0..] == arr;
      Concat<J.Feed>([], PyAbsorbed(a, c, captured, buffer, arr), []);
      NoneBack(a, c, captured, buffer, arr[..0]);
    } else {
      OneArrival(a, c, captured, buffer, arr, begun);
      OneArrival(a, c, captured, buffer, arr[..m], begun);
      var (a1, out) := Fed(a, c, captured, buffer, arr[0]);
      assert arr[1..][..m - 1] == arr[..m][1..] && arr[1..][m - 1..] == arr[m..];
      b := InTwo(a1, c, captured, buffer, arr[1..], m - 1, begun);
      Concat([out], PyAbsorbed(a1, c, captured, buffer, arr[..m][1..]), PyAbsorbed(b, c, captured, buffer, arr[m..]));
    }
  }

  lemma NoneBack(a: J.Partial, c: Client, captured: seq<bytes>, buffer: bytes, arr: seq<PyArrival>)
    requires Streaming(c, captured, buffer) && PyBlocks(arr, TotalBlocks(c)) && |arr| == 0
    ensures PyAbsorbed(a, c, captured, buffer, arr) == []
  {
  }

  /** The arrival comes more than four seconds after the client had block 0. What began at time 0 never
      grows old. */
  ghost predicate Late(x: PyArrival, begun: real) {
    begun != 0.0 && x.now - begun > 4.0
  }

  /** The final block arrives after every other one, and nothing up to it is late. */
  ghost predicate InTime(arr: seq<PyArrival>, total: nat, i: nat, begun: real) {
    i < |arr| && FinalArrival(arr, total, i) && forall j :: 0 <= j <= i ==> !Late(arr[j], begun)
  }

  lemma FirstLate(arr: seq<PyArrival>, begun: real) returns (m: nat)
    ensures m <= |arr| && (m < |arr| ==> Late(arr[m], begun)) && forall j :: 0 <= j < m ==> !Late(arr[j], begun)
  {
    m := 0;
    while m < |arr| && !Late(arr[m], begun)
      invariant m <= |arr| && forall j :: 0 <= j < m ==> !Late(arr[j], begun)
    {
      m := m + 1;
    }
  }

  lemma SameFinal(arr: seq<PyArrival>, total: nat, m: nat, begun: real)
    requires m <= |arr| && (m < |arr| ==> Late(arr[m], begun)) && forall j :: 0 <= j < m ==> !Late(arr[j], begun)
    ensures (exists i: nat :: i < m && FinalArrival(arr[..m], total, i)) <==> exists i: nat :: InTime(arr, total, i, begun)
  {
    forall i: nat | i < m ensures FinalArrival(arr[..m], total, i) <==> FinalArrival(arr, total, i) {
      forall k: nat ensures Earlier(arr[..m], i, k) <==> Earlier(arr, i, k) { SameEarlier(arr, m, i, k); }
      hide Earlier;
    }
    hide FinalArrival;
    hide Late;
    if i: nat :| InTime(arr, total, i, begun) { assert i < m; }
    if i: nat :| i < m && FinalArrival(arr[..m], total, i) { assert InTime(arr, total, i, begun); }
  }

  lemma SameEarlier(arr: seq<PyArrival>, m: nat, i: nat, k: nat)
    requires i < m <= |arr|
    ensures Earlier(arr[..m], i, k) <==> Earlier(arr, i, k)
  {
    if j: nat :| j < i && arr[j].num == k { assert arr[..m][j].num == k; }
    if j: nat :| j < i && arr[..m][j].num == k { assert arr[j].num == k; }
  }

  lemma BackAndSilent(out: J.Feed, front: seq<J.Feed>, back: seq<J.Feed>, f: bytes, whole: bool)
    requires GivesBack(out, front, f, whole) && Silent(back)
    ensures GivesBack(out, front + back, f, whole)
  {
    var outs := front + back;
    forall i | 0 <= i < |outs| ensures outs[i] == if i < |front| then front[i] else J.NoFrame {
      if i >= |front| { assert outs[i] == back[i - |front|]; }
    }
    if J.Frame(f) in front {
      var i :| 0 <= i < |front| && front[i] == J.Frame(f);
      assert outs[i] == J.Frame(f);
    }
  }

  /** End-to-end return against the clock. Once block 0 of a JPEG has reached the Python client, in any
      state of it, let blocks of it come at any times, in any order with any repeats: the client returns
      the frame, once, if and only if it is one block, or some arrival of the final block comes after
      every other block and no arrival up to it is more than four seconds after block 0. */
  lemma ReturnedInTime(a: J.Partial, c: Client, captured: seq<bytes>, buffer: bytes, first: PyArrival, rest: seq<PyArrival>)
    requires Streaming(c, captured, buffer) && J.IsJpeg(buffer) && first.num == 0 && PyBlocks(rest, TotalBlocks(c))
    ensures 0 < TotalBlocks(c)
    ensures var (b, out) := J.FeedPacket(a, c.token, BlockData(c, captured, buffer, 0), first.now, first.later);
            && (out == J.Frame(buffer) <==> TotalBlocks(c) == 1)
            && GivesBack(out, PyAbsorbed(b, c, captured, buffer, rest), buffer,
                    TotalBlocks(c) == 1 || exists i: nat :: InTime(rest, TotalBlocks(c), i, first.later))
  {
    hide *;
    var total := TotalBlocks(c);
    var m := FirstLate(rest, first.later);
    SubBlocks(rest, total, m);
    NotLate(rest, m, first.later);
    PyStarts(a, c, captured, buffer, first);
    BlockNumber(c, captured, buffer, 0);
    var (b, out) := J.FeedPacket(a, c.token, BlockData(c, captured, buffer, 0), first.now, first.later);
    ZeroSince(a, BlockResponse(c, captured, buffer, 0), first.later);
    FrameReturned(a, c, captured, buffer, first, rest[..m]);
    SameFinal(rest, total, m, first.later);
    var front := PyAbsorbed(b, c, captured, buffer, rest[..m]);
    var d := InTwo(b, c, captured, buffer, rest, m, first.later);
    var back := PyAbsorbed(d, c, captured, buffer, rest[m..]);
    if m < |rest| {
      LateIs(rest[m], first.later);
      LateSilent(d, c, captured, buffer, rest[m..], first.later);
    } else {
      NoneBack(d, c, captured, buffer, rest[m..]);
      SilentNone();
    }
    BackAndSilent(out, front, back, buffer, total == 1 || exists i: nat :: InTime(rest, total, i, first.later));
  }

  lemma SilentNone()
    ensures Silent([])
  {
  }

  lemma LateIs(x: PyArrival, begun: real)
    requires Late(x, begun)
    ensures begun != 0.0 && x.now - begun > 4.0
  {
  }

  lemma NotLate(arr: seq<PyArrival>, m: nat, begun: real)
    requires m <= |arr| && forall j :: 0 <= j < m ==> !Late(arr[j], begun)
    ensures begun == 0.0 || forall x :: x in arr[..m] ==> x.now - begun <= J.FRAME_STALE
  {
  }
}
