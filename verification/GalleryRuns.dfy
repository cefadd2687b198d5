/** The face gallery seen from outside: what an update records, what a prune drops. */
module GalleryRuns {
  import opened Bytes
  import opened FaceGallery

  // ---- prune ----

  /** After a prune an entry is active exactly if it was and was seen no longer ago than the time to live;
      nothing else about any entry changes. */
  lemma PruneDrops(g: Gallery, now: int, i: nat)
    requires Sized(g) && i < MAX && forall k :: 0 <= k < MAX && g.entries[k].active ==> k < g.num
    ensures var p := Pruned(g, now);
            && (p.entries[i].active <==> g.entries[i].active && now - g.entries[i].lastSeen <= g.ttlMs)
            && p.entries[i].(active := g.entries[i].active) == g.entries[i]
            && p.num == g.num && p.ttlMs == g.ttlMs
  {
    assert g.entries[i].active ==> i < g.num;
  }

  // ---- one update ----

  /** The entry as the sighting describes it: the first 31 characters of the identity, and the feature and
      box of before where the sighting has none; a thumbnail is gone if there is no new one that fits. */
  ghost predicate Shows(e: Entry, was: Entry, u: Sighting, later: int) {
    && e.trackId == u.trackId && e.similarity == u.similarity && e.hasFeature == u.hasFeature && e.lastSeen == later
    && e.identity == (if u.identity.None? then "" else if |u.identity.value| < 32 then u.identity.value else u.identity.value[..31])
    && (u.hasFeature && u.feature.Some? ==> e.feature == u.feature.value)
    && (!(u.hasFeature && u.feature.Some?) ==> e.feature == was.feature)
    && (u.bbox.Some? ==> e.bbox == u.bbox.value)
    && (u.bbox.None? ==> e.bbox == was.bbox)
    && (if u.thumb.Some? && 0 < |u.thumb.value| <= 8192 then e.thumb == u.thumb.value else e.thumb == [])
  }

  /** Entry `k` holds the identity that an update of slot `slot` brings. */
  ghost predicate Twin(g: Gallery, u: Sighting, slot: nat, k: nat) {
    && Sized(g) && k < MAX && k != slot && g.entries[k].active
    && u.identity == Some(g.entries[k].identity) && g.entries[k].identity != "" && g.entries[k].identity != "unknown"
  }

  /** Active, and seen no longer ago than the time to live. */
  predicate Fresh(e: Entry, g: Gallery, now: int) {
    e.active && now - e.lastSeen <= g.ttlMs
  }

  /** The slot of a track: its own; else the first that is not fresh; else, all being fresh, the first of
      those not seen for longest. */
  ghost predicate Chosen(g: Gallery, t: int, now: int, slot: nat)
    requires Sized(g)
  {
    slot < MAX &&
    if exists k :: 0 <= k < MAX && g.entries[k].active && g.entries[k].trackId == t
    then g.entries[slot].active && g.entries[slot].trackId == t
    else if exists k :: 0 <= k < MAX && !Fresh(g.entries[k], g, now)
    then !Fresh(g.entries[slot], g, now) && forall k :: 0 <= k < slot ==> Fresh(g.entries[k], g, now)
    else forall k :: 0 <= k < MAX ==>
           g.entries[slot].lastSeen <= g.entries[k].lastSeen && (k < slot ==> g.entries[slot].lastSeen < g.entries[k].lastSeen)
  }

  lemma {:induction false} FirstOldest(es: seq<Entry>, n: nat)
    requires 0 < n <= |es|
    ensures forall k :: 0 <= k < Oldest(es, n) ==> es[Oldest(es, n)].lastSeen < es[k].lastSeen
  {
    if n > 1 { FirstOldest(es, n - 1); }
  }

  lemma SlotChosen(g: Gallery, t: int, now: int)
    requires Kept(g)
    ensures Chosen(g, t, now, SlotFor(g, t, now))
  {
    FirstOldest(g.entries, MAX);
    hide Oldest;
    hide FindTrack;
    hide FindFree;
    assert forall k :: 0 <= k < MAX ==> (Fresh(g.entries[k], g, now) <==> Live(g.entries[k], now, g.ttlMs));
    assert forall k :: 0 <= k < MAX && g.entries[k].active ==> k < g.num;
  }

  /** What an update does, on any gallery in order: the slot chosen shows the sighting. If another active
      entry holds the known identity of the sighting, the more similar of the two stays active, the older
      on a tie; if none does, the slot is active. No other entry changes. */
  lemma UpdateRecords(g: Gallery, u: Sighting, now: int, later: int) returns (slot: nat)
    requires Kept(g) && u.trackId >= 0
    ensures slot < MAX && Chosen(g, u.trackId, now, slot)
    ensures var r := Updated(g, u, now, later);
            && |r.entries| == |g.entries| == MAX && r.ttlMs == g.ttlMs
            && Shows(r.entries[slot], g.entries[slot], u, later)
            && (forall k :: 0 <= k < MAX && k != slot && !Twin(g, u, slot, k) ==> r.entries[k] == g.entries[k])
            && (forall k: nat :: Twin(g, u, slot, k) ==>
                  if u.similarity > g.entries[k].similarity
                  then r.entries[slot].active && r.entries[k] == g.entries[k].(active := false)
                  else !r.entries[slot].active && r.entries[k] == g.entries[k])
            && ((forall k: nat :: !Twin(g, u, slot, k)) ==> r.entries[slot].active)
  {
    hide *;
    KeptSized(g);
    slot := SlotFor(g, u.trackId, now);
    SlotChosen(g, u.trackId, now);
    UpdatedIs(g, u, now, later);
    var e := Filled(g.entries[slot], u, later);
    FilledShows(g.entries[slot], u, later);
    TwinDecides(g, u, slot, if slot >= g.num then slot + 1 else g.num, e);
    ShowsStays(e, g.entries[slot], u, later);
  }

  lemma KeptSized(g: Gallery)
    requires Kept(g)
    ensures Sized(g) && |g.entries| == MAX && g.num <= MAX
  {
  }

  lemma UpdatedIs(g: Gallery, u: Sighting, now: int, later: int)
    requires Sized(g) && u.trackId >= 0
    ensures var slot := SlotFor(g, u.trackId, now);
            var num := if slot >= g.num then slot + 1 else g.num;
            && slot < |g.entries| == MAX && g.num <= num <= MAX
            && Updated(g, u, now, later) ==
               g.(entries := Deduplicated(g.entries[slot := Filled(g.entries[slot], u, later)], num, slot, u.identity), num := num)
  {
    hide SlotFor;
    hide Filled;
    hide Deduplicated;
  }

  lemma FilledShows(was: Entry, u: Sighting, later: int)
    ensures var e := Filled(was, u, later); Shows(e, was, u, later) && e.active && e.similarity == u.similarity
  {
  }

  lemma ShowsStays(e: Entry, was: Entry, u: Sighting, later: int)
    requires Shows(e, was, u, later)
    ensures Shows(e.(active := false), was, u, later)
  {
  }

  lemma OneTwin(g: Gallery, u: Sighting, slot: nat, k: nat, l: nat)
    requires Kept(g) && Twin(g, u, slot, k) && Twin(g, u, slot, l)
    ensures k == l
  {
  }

  /** Who stays when a slot has been filled. */
  lemma TwinDecides(g: Gallery, u: Sighting, slot: nat, num: nat, e: Entry)
    requires Kept(g) && slot < |g.entries| == MAX && g.num <= num <= MAX && e.active && e.similarity == u.similarity
    ensures var r := Deduplicated(g.entries[slot := e], num, slot, u.identity);
            && (r[slot] == e || r[slot] == e.(active := false))
            && (forall k :: 0 <= k < MAX && k != slot && !Twin(g, u, slot, k) ==> r[k] == g.entries[k])
            && (forall k: nat :: Twin(g, u, slot, k) ==>
                  if u.similarity > g.entries[k].similarity
                  then r[slot].active && r[k] == g.entries[k].(active := false)
                  else !r[slot].active && r[k] == g.entries[k])
            && ((forall k: nat :: !Twin(g, u, slot, k)) ==> r[slot].active)
  {
    var es := g.entries[slot := e];
    if u.identity.Some? && Known(u.identity.value) {
      var t := FindTwin(es, num, slot, u.identity.value, 0);
      hide FindTwin;
      if t < num { assert Twin(g, u, slot, t); }
      forall k: nat | Twin(g, u, slot, k) ensures k == t {
        assert g.entries[k].active ==> k < g.num;
        assert es[k] == g.entries[k];
        OneTwin(g, u, slot, k, t);
      }
    }
  }

  /** Without a track nothing happens. */
  lemma NoTrack(g: Gallery, u: Sighting, now: int, later: int)
    requires Sized(g) && u.trackId < 0
    ensures Updated(g, u, now, later) == g
  {
  }

  // ---- runs, with identities of any length ----

  /** No two active entries of one track, and all of them below the count. */
  ghost predicate Ordered(g: Gallery) {
    && Sized(g)
    && (forall i :: 0 <= i < MAX && g.entries[i].active ==> i < g.num)
    && (forall i, j :: 0 <= i < j < MAX && g.entries[i].active && g.entries[j].active ==> g.entries[i].trackId != g.entries[j].trackId)
  }

  lemma DedupOnly(es: seq<Entry>, n: nat, slot: nat, id: Option<string>)
    requires n <= |es| && slot < |es|
    ensures var r := Deduplicated(es, n, slot, id);
            forall i :: 0 <= i < |es| ==> r[i] == es[i] || r[i] == es[i].(active := false)
  {
    hide Known;
  }

  ghost predicate Marks(es: seq<Entry>, g: Gallery, t: int, later: int)
    requires Sized(g) && |es| == MAX
  {
    forall i :: 0 <= i < MAX && es[i].active ==>
      if es[i].trackId == t && t >= 0 then es[i].lastSeen == later
      else g.entries[i].active && es[i].trackId == g.entries[i].trackId && es[i].lastSeen == g.entries[i].lastSeen
  }

  lemma FilledMarks(g: Gallery, u: Sighting, now: int, later: int)
    requires Ordered(g) && u.trackId >= 0
    ensures var slot := SlotFor(g, u.trackId, now);
            var num := if slot >= g.num then slot + 1 else g.num;
            var es := g.entries[slot := Filled(g.entries[slot], u, later)];
            num <= MAX && Marks(es, g, u.trackId, later) && Ordered(g.(entries := es, num := num))
  {
    var t := FindTrack(g.entries, g.num, u.trackId, 0);
    hide FindTrack;
    hide FindFree;
    hide Oldest;
    hide Stored;
  }

  /** What an update leaves of the active entries: that of the track was seen at its end, the others are as
      they were. */
  lemma UpdatedOrdered(g: Gallery, u: Sighting, now: int, later: int)
    requires Ordered(g)
    ensures var r := Updated(g, u, now, later); Ordered(r) && Marks(r.entries, g, u.trackId, later)
  {
    hide *;
    OrderedSized(g);
    if u.trackId >= 0 {
      FilledMarks(g, u, now, later);
      UpdatedIs(g, u, now, later);
      var slot := SlotFor(g, u.trackId, now);
      var num := if slot >= g.num then slot + 1 else g.num;
      var es := g.entries[slot := Filled(g.entries[slot], u, later)];
      DedupOnly(es, num, slot, u.identity);
      FewerMarks(g, es, Deduplicated(es, num, slot, u.identity), num, u.trackId, later);
    } else {
      NoTrack(g, u, now, later);
      SameMarks(g, u.trackId, later);
    }
  }

  lemma OrderedSized(g: Gallery)
    requires Ordered(g)
    ensures Sized(g) && |g.entries| == MAX && g.num <= MAX
  {
  }

  lemma FewerMarks(g: Gallery, es: seq<Entry>, r: seq<Entry>, num: nat, t: int, later: int)
    requires Sized(g) && |es| == |r| == MAX && Ordered(g.(entries := es, num := num)) && Marks(es, g, t, later)
    requires forall i :: 0 <= i < |es| ==> r[i] == es[i] || r[i] == es[i].(active := false)
    ensures Ordered(g.(entries := r, num := num)) && Marks(r, g, t, later)
  {
  }

  lemma SameMarks(g: Gallery, t: int, later: int)
    requires Ordered(g) && t < 0
    ensures |g.entries| == MAX && Marks(g.entries, g, t, later)
  {
  }

  // ---- runs ----

  lemma {:induction false} RunOrdered(ttlSec: int, ops: seq<Op>)
    ensures Ordered(After(ttlSec, ops)) && After(ttlSec, ops).ttlMs == (if ttlSec > 0 then ttlSec else 60) * 1000
    decreases |ops|
  {
    if |ops| > 0 {
      var n := |ops| - 1;
      RunOrdered(ttlSec, ops[..n]);
      var g := After(ttlSec, ops[..n]);
      LastApplied(ttlSec, ops);
      hide After;
      match ops[n]
      case Update(u, now, later) =>
        UpdatedOrdered(g, u, now, later);
        hide Updated;
        TtlStays(g, u, now, later);
      case Prune(now) =>
    }
  }

  lemma TtlStays(g: Gallery, u: Sighting, now: int, later: int)
    requires Sized(g)
    ensures Updated(g, u, now, later).ttlMs == g.ttlMs
  {
    hide Deduplicated;
    hide SlotFor;
    hide Filled;
  }

  /** Update `k` is the last of its track. */
  ghost predicate LastSighting(ops: seq<Op>, k: nat, t: int) {
    && k < |ops| && ops[k].Update? && ops[k].u.trackId == t
    && forall j :: k < j < |ops| && ops[j].Update? ==> ops[j].u.trackId != t
  }

  /** An active entry was last seen at the last sighting of its track. */
  lemma {:induction false} SeenLast(ttlSec: int, ops: seq<Op>, i: nat) returns (k: nat)
    requires i < MAX && |After(ttlSec, ops).entries| == MAX && After(ttlSec, ops).entries[i].active
    ensures var e := After(ttlSec, ops).entries[i];
            e.trackId >= 0 && LastSighting(ops, k, e.trackId) && ops[k].later == e.lastSeen
    decreases |ops|
  {
    hide *;
    var n := |ops| - 1;
    if n < 0 {
      NobodySeen(ttlSec, ops, i);
    } else {
      var g, e := After(ttlSec, ops[..n]), After(ttlSec, ops).entries[i];
      RunOrdered(ttlSec, ops[..n]);
      OrderedSized(g);
      LastApplied(ttlSec, ops);
      AppliedIs(g, ops[n]);
      if ops[n].Update? {
        var u := ops[n].u;
        UpdatedOrdered(g, u, ops[n].now, ops[n].later);
        OrderedSized(Updated(g, u, ops[n].now, ops[n].later));
        MarksAt(Updated(g, u, ops[n].now, ops[n].later).entries, g, u.trackId, ops[n].later, i);
        if e.trackId == u.trackId && u.trackId >= 0 {
          k := n;
          LastNow(ops, e.trackId);
        } else {
          k := SeenLast(ttlSec, ops[..n], i);
          LastStill(ops, k, e.trackId);
        }
      } else {
        OrderedDrops(g, ops[n].now, i);
        k := SeenLast(ttlSec, ops[..n], i);
        LastStill(ops, k, e.trackId);
      }
    }
  }

  lemma NobodySeen(ttlSec: int, ops: seq<Op>, i: nat)
    requires |ops| == 0 && i < MAX
    ensures |After(ttlSec, ops).entries| == MAX && !After(ttlSec, ops).entries[i].active
  {
  }

  lemma AppliedIs(g: Gallery, op: Op)
    requires Sized(g)
    ensures Applied(g, op) == if op.Update? then Updated(g, op.u, op.now, op.later) else Pruned(g, op.now)
  {
  }

  lemma MarksAt(es: seq<Entry>, g: Gallery, t: int, later: int, i: nat)
    requires Sized(g) && |es| == MAX && Marks(es, g, t, later) && i < MAX && es[i].active
    ensures |g.entries| == MAX
    ensures if es[i].trackId == t && t >= 0 then es[i].lastSeen == later
            else g.entries[i].active && es[i].trackId == g.entries[i].trackId && es[i].lastSeen == g.entries[i].lastSeen
  {
  }

  lemma OrderedDrops(g: Gallery, now: int, i: nat)
    requires Ordered(g) && i < MAX
    ensures var p := Pruned(g, now);
            && |p.entries| == |g.entries| == MAX
            && (p.entries[i].active <==> g.entries[i].active && now - g.entries[i].lastSeen <= g.ttlMs)
            && p.entries[i].(active := g.entries[i].active) == g.entries[i]
  {
    PruneDrops(g, now, i);
    hide Pruned;
  }

  lemma LastNow(ops: seq<Op>, t: int)
    requires |ops| > 0 && ops[|ops| - 1].Update? && ops[|ops| - 1].u.trackId == t
    ensures LastSighting(ops, |ops| - 1, t)
  {
  }

  lemma LastStill(ops: seq<Op>, k: nat, t: int)
    requires |ops| > 0 && LastSighting(ops[..|ops| - 1], k, t) && (ops[|ops| - 1].Update? ==> ops[|ops| - 1].u.trackId != t)
    ensures LastSighting(ops, k, t) && ops[k] == ops[..|ops| - 1][k]
  {
    assert forall j :: 0 <= j < |ops| - 1 ==> ops[..|ops| - 1][j] == ops[j];
  }

  /** Over every run that ends in a prune, with identities of any length. An entry is active at the end
      exactly if it was active before and the last sighting of its track lies no longer back than the
      time to live, sixty seconds if none was given; and nothing but that changes. */
  lemma PruneRun(ttlSec: int, ops: seq<Op>, now: int, i: nat) returns (k: nat)
    requires i < MAX
    ensures var g, p := After(ttlSec, ops), After(ttlSec, ops + [Prune(now)]);
            && |g.entries| == |p.entries| == MAX
            && p.entries[i].(active := g.entries[i].active) == g.entries[i]
            && (g.entries[i].active ==> LastSighting(ops, k, g.entries[i].trackId))
            && (p.entries[i].active <==>
                  g.entries[i].active && now - ops[k].later <= (if ttlSec > 0 then ttlSec else 60) * 1000)
  {
    hide *;
    var all := ops + [Prune(now)];
    assert all[..|all| - 1] == ops;
    var g := After(ttlSec, ops);
    RunOrdered(ttlSec, ops);
    OrderedSized(g);
    LastApplied(ttlSec, all);
    AppliedIs(g, Prune(now));
    OrderedDrops(g, now, i);
    k := 0;
    if g.entries[i].active {
      k := SeenLast(ttlSec, ops, i);
      LastIs(ops, k, g.entries[i].trackId);
    }
  }

  lemma LastIs(ops: seq<Op>, k: nat, t: int)
    requires LastSighting(ops, k, t)
    ensures k < |ops| && ops[k].Update?
  {
  }
}
