/** What subscribers can rely on (receive/coap_server.h): who gets a slot, and how many services
    it takes to send a frame. */
module StreamSchedule {
  import opened Bytes
  import opened CoapServerWire
  import opened StreamFrames
  import opened StreamServer
  import opened SenderInvariant

  // ---- slots ----

  predicate Hosts(c: Client, ip: nat) {
    c.active && c.ip == ip
  }

  lemma {:induction false} ByAddr(cs: seq<Client>, ip: nat, port: nat, i: nat)
    requires i <= |cs|
    ensures var r := FindByAddr(cs, ip, port, i);
            && (r < |cs| ==> Hosts(cs[r], ip) && cs[r].port == port)
            && forall k :: i <= k < r ==> !(Hosts(cs[k], ip) && cs[k].port == port)
    decreases |cs| - i
  {
    if i < |cs| { ByAddr(cs, ip, port, i + 1); }
  }

  lemma {:induction false} ByIp(cs: seq<Client>, ip: nat, i: nat)
    requires i <= |cs|
    ensures var r := FindByIp(cs, ip, i);
            (r < |cs| ==> Hosts(cs[r], ip)) && forall k :: i <= k < r ==> !Hosts(cs[k], ip)
    decreases |cs| - i
  {
    if i < |cs| { ByIp(cs, ip, i + 1); }
  }

  lemma {:induction false} ByFree(cs: seq<Client>, i: nat)
    requires i <= |cs|
    ensures var r := FindFree(cs, i);
            (r < |cs| ==> !cs[r].active) && forall k :: i <= k < r ==> cs[k].active
    decreases |cs| - i
  {
    if i < |cs| { ByFree(cs, i + 1); }
  }

  lemma {:induction false} OldestIs(cs: seq<Client>, n: nat)
    requires 0 < n <= |cs|
    ensures forall k :: 0 <= k < n ==> cs[Oldest(cs, n)].lastReqMs <= cs[k].lastReqMs
  {
    if n > 1 { OldestIs(cs, n - 1); }
  }

  /** A subscription renews the slot of its own address, else takes over that of its host, else a
      free one; only when all are in use by other hosts is one evicted, that with the least time
      of its last request. */
  lemma SlotMeaning(cs: seq<Client>, ip: nat, port: nat)
    requires |cs| > 0
    ensures var (i, renew) := SlotFor(cs, ip, port);
            && (renew <==> exists k :: 0 <= k < |cs| && Hosts(cs[k], ip) && cs[k].port == port)
            && (renew ==> Hosts(cs[i], ip) && cs[i].port == port)
            && ((exists k :: 0 <= k < |cs| && Hosts(cs[k], ip)) ==> Hosts(cs[i], ip))
            && (!Hosts(cs[i], ip) && (exists k :: 0 <= k < |cs| && !cs[k].active) ==> !cs[i].active)
            && (cs[i].active && !Hosts(cs[i], ip) ==> forall k :: 0 <= k < |cs| ==> cs[i].lastReqMs <= cs[k].lastReqMs)
  {
    ByAddr(cs, ip, port, 0);
    ByIp(cs, ip, 0);
    ByFree(cs, 0);
    OldestIs(cs, |cs|);
    hide FindByAddr;
    hide FindByIp;
    hide FindFree;
    hide Oldest;
  }

  /** No two streams go to the same host. */
  ghost predicate OneStreamPerHost(cs: seq<Client>) {
    forall i, j :: 0 <= i < j < |cs| && cs[i].active && cs[j].active ==> cs[i].ip != cs[j].ip
  }

  /** The new subscriber has the slot and no transfer yet, nobody else is disturbed, and no host gets
      two streams. */
  lemma RegisteredHosts(s: Server, ip: nat, port: nat, token: bytes, msgId: nat, now: nat)
    requires |s.streams| > 0 && OneStreamPerHost(s.streams)
    ensures var r := Registered(s, ip, port, token, msgId, now);
            var i := SlotFor(s.streams, ip, port).0;
            && OneStreamPerHost(r.streams)
            && Hosts(r.streams[i], ip) && r.streams[i].port == port && r.streams[i].token == token
            && !r.streams[i].tx.inProgress && (forall t: nat :: FRAME_GAP_MS <= t < CLOCK ==> Due(r.streams[i], t))
            && (forall k :: 0 <= k < |s.streams| && k != i ==> r.streams[k] == s.streams[k])
  {
    SlotMeaning(s.streams, ip, port);
    var cs := s.streams;
    var i := SlotFor(cs, ip, port).0;
    hide SlotFor;
    assert forall k :: 0 <= k < |cs| && k != i && Hosts(cs[k], ip) ==> Hosts(cs[i], ip);
    assert forall k :: 0 <= k < |cs| && k != i ==> !Hosts(cs[k], ip);
  }

  lemma SameHosts(cs: seq<Client>, ds: seq<Client>)
    requires OneStreamPerHost(cs) && |cs| == |ds|
    requires forall k :: 0 <= k < |cs| ==> ds[k].ip == cs[k].ip && (ds[k].active ==> cs[k].active)
    ensures OneStreamPerHost(ds)
  {
  }

  lemma TickHosts(s: Server, now: nat, cap: Capture)
    requires OneStreamPerHost(s.streams)
    ensures OneStreamPerHost(Ticked(s, now, cap).streams)
  {
    SameHosts(s.streams, Ticked(s, now, cap).streams);
  }

  lemma StepHosts(m: Sender, step: SenderStep)
    requires WellKept(m.server) && |m.logs| == MAX_CLIENTS && Allowed(m, step) && OneStreamPerHost(m.server.streams)
    ensures OneStreamPerHost(After(m, step).server.streams)
  {
    match step
    case Tick(now, cap) => TickHosts(m.server, now, cap); hide Ticked;
    case Register(ip, port, token, msgId, at) => RegisteredHosts(m.server, ip, port, token, msgId, at); hide Registered;
    case Prune(at, timeout) => SameHosts(m.server.streams, Pruned(m.server, at, timeout).streams);
    case StopAll => SameHosts(m.server.streams, Stopped(m.server).streams);
  }

  /** Over every run of the sender each host has one stream at most. */
  lemma {:induction false} RunHosts(run: seq<Sender>, steps: seq<SenderStep>, i: nat)
    requires SenderRun(run, steps) && i < |run|
    ensures OneStreamPerHost(run[i].server.streams)
  {
    hide OneStreamPerHost;
    if i == 0 {
      StartHosts();
    } else {
      RunHosts(run, steps, i - 1);
      SenderRunKeeps(run, steps, i - 1);
      WellKeptOf(run[i - 1]);
      assert Goes(run[i - 1], steps[i - 1], run[i]);
      hide After;
      StepHosts(run[i - 1], steps[i - 1]);
    }
  }

  lemma StartHosts()
    ensures OneStreamPerHost(SWITCHED_ON.server.streams)
  {
  }

  // ---- services ----

  /** A client served at these times, one after the other. */
  ghost function Rounds(c: Client, buffer: bytes, nows: seq<nat>): (r: (Client, seq<Datagram>))
    requires Servable(c, buffer)
    decreases |nows|
  {
    if |nows| == 0 then (c, [])
    else
      ServedStaysServable(c, buffer, nows[0]);
      var (d, ds) := Rounds(Served(c, nows[0]), buffer, nows[1..]);
      (d, Burst(c, buffer, nows[0]) + ds)
  }

  /** At least the gap between bursts lies between any two of the times. */
  predicate Spaced(since: nat, nows: seq<nat>)
    decreases |nows|
  {
    |nows| == 0 || (Elapsed(nows[0], since) >= BLOCK_GAP_MS && Spaced(nows[0], nows[1..]))
  }

  ghost predicate UnderWay(c: Client) {
    c.active && !c.busy && c.tx.inProgress && c.tx.hasData && c.tx.frameLen > 0 && c.tx.nextBlock < TotalBlocks(c)
  }

  function Least(a: nat, b: nat): (n: nat) {
    if a < b then a else b
  }

  lemma BlockOfMoved(c: Client, d: Client, buffer: bytes, num: nat)
    requires Servable(c, buffer) && c.tx.inProgress
    requires d == c.(tx := c.tx.(nextBlock := d.tx.nextBlock, lastBlockMs := d.tx.lastBlockMs))
    ensures Servable(d, buffer) && SentBlock(d, buffer, num) == SentBlock(c, buffer, num)
  {
    hide Response;
    hide SzxBlockSize;
    if num * SzxBlockSize(c.tx.szx) < c.tx.frameLen {
      assert BlockReply(d, buffer, num) == BlockReply(c, buffer, num);
    }
  }

  lemma {:induction false} BlocksOfMoved(c: Client, d: Client, buffer: bytes, lo: nat, hi: nat)
    requires Servable(c, buffer) && c.tx.inProgress && lo <= hi
    requires d == c.(tx := c.tx.(nextBlock := d.tx.nextBlock, lastBlockMs := d.tx.lastBlockMs))
    ensures Servable(d, buffer) && SentBlocks(d, buffer, lo, hi) == SentBlocks(c, buffer, lo, hi)
    decreases hi
  {
    hide SentBlock;
    if lo < hi {
      BlocksOfMoved(c, d, buffer, lo, hi - 1);
      BlockOfMoved(c, d, buffer, hi - 1);
    }
  }

  lemma {:induction false} BlocksJoin(c: Client, buffer: bytes, lo: nat, mid: nat, hi: nat)
    requires Servable(c, buffer) && c.tx.inProgress && lo <= mid <= hi
    ensures SentBlocks(c, buffer, lo, mid) + SentBlocks(c, buffer, mid, hi) == SentBlocks(c, buffer, lo, hi)
    decreases hi
  {
    hide SentBlock;
    if mid < hi {
      BlocksJoin(c, buffer, lo, mid, hi - 1);
      Concat(SentBlocks(c, buffer, lo, mid), SentBlocks(c, buffer, mid, hi - 1), SentBlock(c, buffer, hi - 1));
    }
  }

  lemma RoundsStep(c: Client, buffer: bytes, nows: seq<nat>)
    requires Servable(c, buffer) && |nows| > 0
    ensures var d := Served(c, nows[0]);
            && Servable(d, buffer)
            && Rounds(c, buffer, nows) == (Rounds(d, buffer, nows[1..]).0, Burst(c, buffer, nows[0]) + Rounds(d, buffer, nows[1..]).1)
  {
    ServedStaysServable(c, buffer, nows[0]);
    hide Served;
    hide Burst;
    hide Servable;
  }

  lemma NoRounds(c: Client, buffer: bytes)
    requires Servable(c, buffer)
    ensures Rounds(c, buffer, []) == (c, [])
  {
  }

  lemma {:induction false} NoMoreRounds(c: Client, buffer: bytes, nows: seq<nat>)
    requires Servable(c, buffer) && !c.tx.inProgress
    ensures Rounds(c, buffer, nows) == (c, [])
    decreases |nows|
  {
    hide *;
    if |nows| > 0 {
      RestingIsStill(c, buffer, nows[0]);
      RoundsStep(c, buffer, nows);
      NoMoreRounds(c, buffer, nows[1..]);
      Concat(Burst(c, buffer, nows[0]), [], []);
    } else {
      assert nows == [];
      NoRounds(c, buffer);
    }
  }

  /** One service of a client under way. */
  lemma OneRound(c: Client, buffer: bytes, now: nat)
    requires Servable(c, buffer) && UnderWay(c) && Elapsed(now, c.tx.lastBlockMs) >= BLOCK_GAP_MS
    ensures var d, total, end := Served(c, now), TotalBlocks(c), BurstEnd(c);
            && Servable(d, buffer) && c.tx.nextBlock < end == Least(c.tx.nextBlock + BLOCKS_PER_TICK, total)
            && Burst(c, buffer, now) == SentBlocks(c, buffer, c.tx.nextBlock, end)
            && (end < total ==> d == c.(tx := c.tx.(nextBlock := end, lastBlockMs := now)) && UnderWay(d) && TotalBlocks(d) == total)
            && (end == total ==> !d.tx.inProgress)
  {
    hide SentBlocks;
    ServedStaysServable(c, buffer, now);
    if BurstEnd(c) < TotalBlocks(c) {
      var d := c.(tx := c.tx.(nextBlock := BurstEnd(c), lastBlockMs := now));
      assert TotalBlocks(d) == TotalBlocks(c);
    }
  }

  lemma SpacedStep(since: nat, nows: seq<nat>)
    requires Spaced(since, nows) && |nows| > 0
    ensures Elapsed(nows[0], since) >= BLOCK_GAP_MS && Spaced(nows[0], nows[1..])
  {
  }

  /** The blocks left after one service and a number of further ones. */
  lemma ReachStep(next: nat, total: nat, end: nat, n: nat)
    requires next < total && n > 0 && end == Least(next + BLOCKS_PER_TICK, total)
    ensures end < total ==> end + BLOCKS_PER_TICK * (n - 1) == next + BLOCKS_PER_TICK * n
    ensures end == total ==> next + BLOCKS_PER_TICK * n >= total
    ensures next <= Least(next + BLOCKS_PER_TICK * n, total) && (end < total ==> end <= Least(next + BLOCKS_PER_TICK * n, total))
    ensures end <= total && (end == total ==> Least(next + BLOCKS_PER_TICK * n, total) == total)
  {
  }

  lemma StartReach(c: Client, buffer: bytes)
    requires Servable(c, buffer) && UnderWay(c)
    ensures c.tx.inProgress && c.tx.nextBlock < TotalBlocks(c)
    ensures Least(c.tx.nextBlock + BLOCKS_PER_TICK * 0, TotalBlocks(c)) == c.tx.nextBlock
    ensures SentBlocks(c, buffer, c.tx.nextBlock, c.tx.nextBlock) == []
  {
    hide TotalBlocks;
  }

  /** Served at spaced times, a client gets its remaining blocks in order, each once, six a time: the
      transfer is over exactly after as many services as that takes. */
  lemma {:induction false} WholeFrameSent(c: Client, buffer: bytes, nows: seq<nat>)
    requires Servable(c, buffer) && UnderWay(c) && Spaced(c.tx.lastBlockMs, nows)
    ensures c.tx.inProgress && c.tx.nextBlock < TotalBlocks(c)
    ensures var (d, ds) := Rounds(c, buffer, nows);
            var total, reach := TotalBlocks(c), c.tx.nextBlock + BLOCKS_PER_TICK * |nows|;
            && c.tx.nextBlock <= Least(reach, total)
            && (d.tx.inProgress <==> reach < total)
            && ds == SentBlocks(c, buffer, c.tx.nextBlock, Least(reach, total))
    decreases |nows|
  {
    hide *;
    StartReach(c, buffer);
    if |nows| == 0 {
      assert nows == [];
      NoRounds(c, buffer);
    } else {
      var d, next, total, end := Served(c, nows[0]), c.tx.nextBlock, TotalBlocks(c), BurstEnd(c);
      SpacedStep(c.tx.lastBlockMs, nows);
      OneRound(c, buffer, nows[0]);
      RoundsStep(c, buffer, nows);
      ReachStep(next, total, end, |nows|);
      if end < total {
        WholeFrameSent(d, buffer, nows[1..]);
        var stop := Least(next + BLOCKS_PER_TICK * |nows|, total);
        BlocksOfMoved(c, d, buffer, end, stop);
        BlocksJoin(c, buffer, next, end, stop);
      } else {
        NoMoreRounds(d, buffer, nows[1..]);
        Concat(Burst(c, buffer, nows[0]), [], []);
      }
    }
  }
}
