/** The gallery of recently seen faces (src/face_gallery.c): at most one entry per track and per
    known identity, entries that expire, and eviction of the one not seen for longest. */
module FaceGallery {
  import opened Bytes

  const MAX := 256
  const STR_LEN := 32
  const THUMB_MAX := 8192

  datatype BBox = BBox(xMin: real, yMin: real, xMax: real, yMax: real)

  datatype Entry = Entry(trackId: int, identity: string, similarity: real, hasFeature: bool, feature: seq<real>,
                         bbox: BBox, thumb: bytes, lastSeen: int, active: bool)

  /** What an update is called with; absent arguments are None. */
  datatype Sighting = Sighting(trackId: int, identity: Option<string>, similarity: real,
                               feature: Option<seq<real>>, hasFeature: bool, bbox: Option<BBox>, thumb: Option<bytes>)

  datatype Gallery = Gallery(entries: seq<Entry>, num: nat, ttlMs: int)

  const BLANK := Entry(0, "", 0.0, false, [], BBox(0.0, 0.0, 0.0, 0.0), [], 0, false)

  function Created(ttlSec: int): (r: Gallery) {
    Gallery(seq(MAX, _ => BLANK), 0, (if ttlSec > 0 then ttlSec else 60) * 1000)
  }

  predicate Sized(g: Gallery) {
    |g.entries| == MAX && g.num <= MAX
  }

  // ---- choosing a slot ----

  function FindTrack(es: seq<Entry>, n: nat, t: int, i: nat): (r: nat)
    requires i <= n <= |es|
    ensures i <= r <= n
    ensures r < n ==> es[r].active && es[r].trackId == t
    ensures forall k :: i <= k < r ==> !(es[k].active && es[k].trackId == t)
    decreases n - i
  {
    if i == n || (es[i].active && es[i].trackId == t) then i else FindTrack(es, n, t, i + 1)
  }

  /** Active and not expired. */
  predicate Live(e: Entry, now: int, ttlMs: int) {
    e.active && now - e.lastSeen <= ttlMs
  }

  function FindFree(es: seq<Entry>, now: int, ttlMs: int, i: nat): (r: nat)
    requires i <= |es|
    ensures i <= r <= |es|
    ensures r < |es| ==> !Live(es[r], now, ttlMs)
    ensures forall k :: i <= k < r ==> Live(es[k], now, ttlMs)
    decreases |es| - i
  {
    if i == |es| || !Live(es[i], now, ttlMs) then i else FindFree(es, now, ttlMs, i + 1)
  }

  function Oldest(es: seq<Entry>, n: nat): (r: nat)
    requires 0 < n <= |es|
    ensures r < n && forall k :: 0 <= k < n ==> es[r].lastSeen <= es[k].lastSeen
  {
    if n == 1 then 0
    else
      var o := Oldest(es, n - 1);
      if es[n - 1].lastSeen < es[o].lastSeen then n - 1 else o
  }

  function SlotFor(g: Gallery, t: int, now: int): (r: nat)
    requires Sized(g)
    ensures r < MAX
  {
    var i := FindTrack(g.entries, g.num, t, 0);
    if i < g.num then i
    else
      var f := FindFree(g.entries, now, g.ttlMs, 0);
      if f < MAX then f else Oldest(g.entries, MAX)
  }

  // ---- update ----

  /** An identity as the fixed buffer holds it. */
  function Stored(id: Option<string>): (s: string)
    ensures |s| < STR_LEN
  {
    if id.None? then "" else if |id.value| < STR_LEN then id.value else id.value[..STR_LEN - 1]
  }

  predicate Known(id: string) {
    id != "" && id != "unknown"
  }

  function Filled(e: Entry, u: Sighting, later: int): (r: Entry) {
    Entry(u.trackId, Stored(u.identity), u.similarity, u.hasFeature,
          if u.hasFeature && u.feature.Some? then u.feature.value else e.feature,
          if u.bbox.Some? then u.bbox.value else e.bbox,
          if u.thumb.Some? && 0 < |u.thumb.value| <= THUMB_MAX then u.thumb.value else [],
          later, true)
  }

  /** Another active entry under this very identity. */
  function FindTwin(es: seq<Entry>, n: nat, slot: nat, id: string, i: nat): (r: nat)
    requires i <= n <= |es|
    ensures i <= r <= n
    ensures r < n ==> r != slot && es[r].active && es[r].identity == id
    ensures forall k :: i <= k < r ==> !(k != slot && es[k].active && es[k].identity == id)
    decreases n - i
  {
    if i == n || (i != slot && es[i].active && es[i].identity == id) then i else FindTwin(es, n, slot, id, i + 1)
  }

  /** Of two entries under one identity the more similar stays; the older one on a tie. */
  function Deduplicated(es: seq<Entry>, n: nat, slot: nat, id: Option<string>): (r: seq<Entry>)
    requires n <= |es| && slot < |es|
    ensures |r| == |es|
  {
    if id.None? || !Known(id.value) then es
    else
      var i := FindTwin(es, n, slot, id.value, 0);
      if i == n then es
      else if es[i].similarity >= es[slot].similarity then es[slot := es[slot].(active := false)]
      else es[i := es[i].(active := false)]
  }

  function Updated(g: Gallery, u: Sighting, now: int, later: int): (r: Gallery)
    requires Sized(g)
    ensures Sized(r)
  {
    if u.trackId < 0 then g
    else
      var slot := SlotFor(g, u.trackId, now);
      var num := if slot >= g.num then slot + 1 else g.num;
      var es := g.entries[slot := Filled(g.entries[slot], u, later)];
      g.(entries := Deduplicated(es, num, slot, u.identity), num := num)
  }

  function Pruned(g: Gallery, now: int): (r: Gallery)
    requires Sized(g)
    ensures Sized(r)
  {
    g.(entries := seq(MAX, i requires 0 <= i < MAX =>
         if i < g.num && g.entries[i].active && !Live(g.entries[i], now, g.ttlMs)
         then g.entries[i].(active := false) else g.entries[i]))
  }

  // ---- the invariant ----

  ghost predicate Kept(g: Gallery) {
    && Sized(g)
    && (forall i :: 0 <= i < MAX && g.entries[i].active ==> i < g.num)
    && (forall i, j :: 0 <= i < j < MAX && g.entries[i].active && g.entries[j].active ==>
          g.entries[i].trackId != g.entries[j].trackId)
    && (forall i, j :: 0 <= i < j < MAX && g.entries[i].active && g.entries[j].active && Known(g.entries[i].identity) ==>
          g.entries[i].identity != g.entries[j].identity)
    && (forall i :: 0 <= i < MAX ==> |g.entries[i].identity| < STR_LEN)
  }

  ghost predicate Short(u: Sighting) {
    u.identity.Some? ==> |u.identity.value| < STR_LEN
  }

  lemma CreatedKept(ttlSec: int)
    ensures Kept(Created(ttlSec))
  {
  }

  lemma PrunedKept(g: Gallery, now: int)
    requires Kept(g)
    ensures Kept(Pruned(g, now))
  {
  }

  /** The entries with one filled in: only the new one may clash, and only by identity. */
  lemma FilledApart(g: Gallery, u: Sighting, now: int, later: int)
    requires Kept(g) && u.trackId >= 0
    ensures var slot := SlotFor(g, u.trackId, now);
            var num := if slot >= g.num then slot + 1 else g.num;
            var es := g.entries[slot := Filled(g.entries[slot], u, later)];
            && num <= MAX
            && (forall i :: 0 <= i < MAX && es[i].active ==> i < num)
            && (forall i, j :: 0 <= i < j < MAX && es[i].active && es[j].active ==> es[i].trackId != es[j].trackId)
            && (forall i, j :: 0 <= i < j < MAX && i != slot && j != slot && es[i].active && es[j].active && Known(es[i].identity) ==>
                  es[i].identity != es[j].identity)
            && (forall i :: 0 <= i < MAX ==> |es[i].identity| < STR_LEN)
  {
    hide Known;
    hide FindFree;
    hide Oldest;
    hide Stored;
  }

  lemma DeduplicatedApart(es: seq<Entry>, num: nat, slot: nat, id: Option<string>)
    requires |es| == MAX && num <= MAX && slot < MAX && es[slot].active && es[slot].identity == Stored(id)
    requires id.Some? ==> |id.value| < STR_LEN
    requires forall i :: 0 <= i < MAX && es[i].active ==> i < num
    requires forall i, j :: 0 <= i < j < MAX && i != slot && j != slot && es[i].active && es[j].active && Known(es[i].identity) ==>
               es[i].identity != es[j].identity
    ensures var r := Deduplicated(es, num, slot, id);
            && (forall i, j :: 0 <= i < j < MAX && r[i].active && r[j].active && Known(r[i].identity) ==> r[i].identity != r[j].identity)
            && (forall i :: 0 <= i < MAX ==>
                  r[i].trackId == es[i].trackId && r[i].identity == es[i].identity && (r[i].active ==> es[i].active))
  {
    var r := Deduplicated(es, num, slot, id);
    if id.Some? && Known(id.value) {
      var k := FindTwin(es, num, slot, id.value, 0);
      hide FindTwin;
      forall i, j | 0 <= i < j < MAX && r[i].active && r[j].active && Known(r[i].identity) ensures r[i].identity != r[j].identity {
        if i == slot || j == slot {
          var o := if i == slot then j else i;
          assert o < num;
        }
      }
    }
  }

  /** No two active entries share a track or a known identity, and all lie below the count. */
  lemma UpdatedKept(g: Gallery, u: Sighting, now: int, later: int)
    requires Kept(g) && Short(u)
    ensures Kept(Updated(g, u, now, later))
  {
    hide *;
    UpdatedIs(g, u, now, later);
    if u.trackId >= 0 {
      var slot := SlotFor(g, u.trackId, now);
      var num := if slot >= g.num then slot + 1 else g.num;
      var es := g.entries[slot := Filled(g.entries[slot], u, later)];
      FilledApart(g, u, now, later);
      DeduplicatedApart(es, num, slot, u.identity);
      MakeKept(g.(entries := Deduplicated(es, num, slot, u.identity), num := num), es);
    }
  }

  lemma UpdatedIs(g: Gallery, u: Sighting, now: int, later: int)
    requires Kept(g) && Short(u)
    ensures Sized(g) && MAX == 256 && (u.identity.Some? ==> |u.identity.value| < STR_LEN)
    ensures u.trackId < 0 ==> Updated(g, u, now, later) == g
    ensures u.trackId >= 0 ==>
              var slot := SlotFor(g, u.trackId, now);
              var num := if slot >= g.num then slot + 1 else g.num;
              var es := g.entries[slot := Filled(g.entries[slot], u, later)];
              && |g.entries| == |es| == MAX && num <= MAX && es[slot].active && es[slot].identity == Stored(u.identity)
              && Updated(g, u, now, later) == g.(entries := Deduplicated(es, num, slot, u.identity), num := num)
  {
    hide SlotFor;
    hide Deduplicated;
    hide Stored;
  }

  /** In order, given entries from which at most some were deactivated. */
  lemma MakeKept(t: Gallery, es: seq<Entry>)
    requires |t.entries| == |es| == MAX && t.num <= MAX
    requires forall i :: 0 <= i < MAX && es[i].active ==> i < t.num
    requires forall i, j :: 0 <= i < j < MAX && es[i].active && es[j].active ==> es[i].trackId != es[j].trackId
    requires forall i :: 0 <= i < MAX ==> |es[i].identity| < STR_LEN
    requires forall i :: 0 <= i < MAX ==> t.entries[i].trackId == es[i].trackId && t.entries[i].identity == es[i].identity &&
                                          (t.entries[i].active ==> es[i].active)
    requires forall i, j :: 0 <= i < j < MAX && t.entries[i].active && t.entries[j].active && Known(t.entries[i].identity) ==>
               t.entries[i].identity != t.entries[j].identity
    ensures Kept(t)
  {
    hide Known;
  }

  lemma {:induction false} NoTwin(es: seq<Entry>, n: nat, slot: nat, id: string, i: nat)
    requires i <= n <= |es| && |id| >= STR_LEN && forall k :: 0 <= k < |es| ==> |es[k].identity| < STR_LEN
    ensures FindTwin(es, n, slot, id, i) == n
    decreases n - i
  {
    if i < n { NoTwin(es, n, slot, id, i + 1); }
  }

  /** An update keeps the gallery in order: the identity fits its buffer, or nobody else holds the
      31 characters of it that are kept. */
  predicate Fits(g: Gallery, u: Sighting, now: int)
    requires Sized(g)
  {
    u.trackId < 0 || u.identity.None? || |u.identity.value| < STR_LEN ||
    forall i :: 0 <= i < MAX && i != SlotFor(g, u.trackId, now) && g.entries[i].active ==> g.entries[i].identity != Stored(u.identity)
  }

  lemma LongIsKnown(id: string)
    requires |id| >= STR_LEN
    ensures Known(id) && Known(Stored(Some(id)))
  {
  }

  /** An identity that does not fit is compared in vain: everything stays but the new entry. */
  lemma LongUpdate(g: Gallery, u: Sighting, now: int, later: int)
    requires Kept(g) && u.trackId >= 0 && u.identity.Some? && |u.identity.value| >= STR_LEN
    ensures var slot := SlotFor(g, u.trackId, now);
            Updated(g, u, now, later) ==
            g.(entries := g.entries[slot := Filled(g.entries[slot], u, later)], num := if slot >= g.num then slot + 1 else g.num)
  {
    var slot := SlotFor(g, u.trackId, now);
    var num := if slot >= g.num then slot + 1 else g.num;
    var es := g.entries[slot := Filled(g.entries[slot], u, later)];
    hide SlotFor;
    NoTwin(es, num, slot, u.identity.value, 0);
    hide FindTwin;
    hide Known;
    hide Stored;
  }

  /** On every gallery in order: an update leaves it in order if and only if the identity is shorter
      than 32 or no other active entry holds its first 31 characters. */
  lemma KeptIffFits(g: Gallery, u: Sighting, now: int, later: int)
    requires Kept(g)
    ensures Kept(Updated(g, u, now, later)) <==> Fits(g, u, now)
  {
    if u.trackId >= 0 && u.identity.Some? && |u.identity.value| >= STR_LEN {
      LongUpdate(g, u, now, later);
      FilledApart(g, u, now, later);
      LongIsKnown(u.identity.value);
      LongKeptIff(g, u, now, later);
    } else {
      hide Kept;
      hide SlotFor;
      if u.trackId >= 0 { UpdatedKept(g, u, now, later); }
    }
  }

  lemma LongKeptIff(g: Gallery, u: Sighting, now: int, later: int)
    requires Kept(g) && u.trackId >= 0 && u.identity.Some? && |u.identity.value| >= STR_LEN
    ensures var slot := SlotFor(g, u.trackId, now);
            var t := g.(entries := g.entries[slot := Filled(g.entries[slot], u, later)], num := if slot >= g.num then slot + 1 else g.num);
            Kept(t) <==> Fits(g, u, now)
  {
    var slot, id := SlotFor(g, u.trackId, now), Stored(u.identity);
    var es := g.entries[slot := Filled(g.entries[slot], u, later)];
    FilledApart(g, u, now, later);
    LongIsKnown(u.identity.value);
    hide SlotFor;
    hide Known;
    hide Stored;
    assert es[slot].active && es[slot].identity == id && forall i :: 0 <= i < MAX && i != slot ==> es[i] == g.entries[i];
    assert forall i :: 0 <= i < slot && es[i].active && es[i].identity == id ==> Known(es[i].identity) && es[i].identity == es[slot].identity;
    hide Filled;
  }

  datatype Op = Update(u: Sighting, now: int, later: int) | Prune(now: int)

  function Applied(g: Gallery, op: Op): (r: Gallery)
    requires Sized(g)
    ensures Sized(r)
  {
    match op
    case Update(u, now, later) => Updated(g, u, now, later)
    case Prune(now) => Pruned(g, now)
  }

  function After(ttlSec: int, ops: seq<Op>): (g: Gallery)
    ensures Sized(g)
  {
    if |ops| == 0 then Created(ttlSec) else Applied(After(ttlSec, ops[..|ops| - 1]), ops[|ops| - 1])
  }

  /** Over every run of updates, with identities of up to 31 characters, and prunes. */
  lemma {:induction false} RunKept(ttlSec: int, ops: seq<Op>)
    requires forall op :: op in ops && op.Update? ==> Short(op.u)
    ensures Kept(After(ttlSec, ops))
    decreases |ops|
  {
    hide Kept;
    hide Updated;
    hide Pruned;
    if |ops| == 0 {
      CreatedKept(ttlSec);
    } else {
      var g := After(ttlSec, ops[..|ops| - 1]);
      RunKept(ttlSec, ops[..|ops| - 1]);
      match ops[|ops| - 1]
      case Update(u, now, later) =>
        assert ops[|ops| - 1] in ops;
        UpdatedKept(g, u, now, later);
      case Prune(now) => PrunedKept(g, now);
    }
  }

  predicate OpFits(g: Gallery, op: Op)
    requires Sized(g)
  {
    op.Update? ==> Fits(g, op.u, op.now)
  }

  lemma OpKept(g: Gallery, op: Op)
    requires Kept(g)
    ensures Kept(Applied(g, op)) <==> OpFits(g, op)
  {
    hide Kept;
    hide Updated;
    hide Pruned;
    hide Fits;
    match op
    case Update(u, now, later) => KeptIffFits(g, u, now, later);
    case Prune(now) => PrunedKept(g, now);
  }

  /** Over every run, with identities of any length: the gallery is in order throughout if and only if
      every update fits the gallery it meets. */
  lemma {:induction false} RunKeptIffFits(ttlSec: int, ops: seq<Op>)
    ensures (forall n :: 0 <= n <= |ops| ==> Kept(After(ttlSec, ops[..n]))) <==>
            (forall n :: 0 <= n < |ops| ==> OpFits(After(ttlSec, ops[..n]), ops[n]))
    decreases |ops|
  {
    hide *;
    var k := |ops| - 1;
    if |ops| == 0 {
      CreatedKept(ttlSec);
      NoneApplied(ttlSec, ops);
    } else {
      RunKeptIffFits(ttlSec, ops[..k]);
      assert forall n :: 0 <= n <= k ==> ops[..k][..n] == ops[..n];
      assert ops[..k + 1] == ops;
      LastApplied(ttlSec, ops);
      if Kept(After(ttlSec, ops[..k])) { OpKept(After(ttlSec, ops[..k]), ops[k]); }
    }
  }

  lemma NoneApplied(ttlSec: int, ops: seq<Op>)
    requires |ops| == 0
    ensures ops[..0] == ops && After(ttlSec, ops) == Created(ttlSec)
  {
  }

  lemma LastApplied(ttlSec: int, ops: seq<Op>)
    requires |ops| > 0
    ensures After(ttlSec, ops) == Applied(After(ttlSec, ops[..|ops| - 1]), ops[|ops| - 1])
  {
    hide Applied;
  }

  // ---- what an update achieves ----

  /** What one entry may look like afterwards: as before, or deactivated. */
  predicate AtMostDeactivated(now: Entry, was: Entry) {
    now == was || now == was.(active := false)
  }

  lemma DeduplicatedShows(es: seq<Entry>, num: nat, slot: nat, id: Option<string>)
    requires num <= |es| && slot < |es| && es[slot].active
    ensures var r := Deduplicated(es, num, slot, id);
            && (r[slot] == es[slot] ||
                exists i :: 0 <= i < |es| && i != slot && r[i].active && id == Some(r[i].identity) && r[i].similarity >= es[slot].similarity)
            && (forall i :: 0 <= i < |es| && i != slot ==> AtMostDeactivated(r[i], es[i]))
            && (forall i :: 0 <= i < |es| && i != slot && r[i] != es[i] ==> r[slot].active && id == Some(es[i].identity))
  {
    if id.Some? && Known(id.value) {
      var k := FindTwin(es, num, slot, id.value, 0);
      hide FindTwin;
      if k < num && es[k].similarity >= es[slot].similarity {
        var r := Deduplicated(es, num, slot, id);
        assert r[k] == es[k];
      }
    }
  }

  /** Afterwards the track's entry is active with the new data, or another active entry under the
      same identity is at least as similar; of the others at most an entry under that identity
      has been deactivated. */
  lemma UpdateShows(g: Gallery, u: Sighting, now: int, later: int)
    requires Sized(g) && u.trackId >= 0
    ensures var r := Updated(g, u, now, later);
            var slot := SlotFor(g, u.trackId, now);
            && (r.entries[slot] == Filled(g.entries[slot], u, later) ||
                exists i :: 0 <= i < MAX && i != slot && r.entries[i].active && u.identity == Some(r.entries[i].identity)
                            && r.entries[i].similarity >= u.similarity)
            && (forall i :: 0 <= i < MAX && i != slot ==> AtMostDeactivated(r.entries[i], g.entries[i]))
            && (forall i :: 0 <= i < MAX && i != slot && r.entries[i] != g.entries[i] ==>
                  r.entries[slot].active && u.identity == Some(g.entries[i].identity))
  {
    var slot := SlotFor(g, u.trackId, now);
    var num := if slot >= g.num then slot + 1 else g.num;
    var es := g.entries[slot := Filled(g.entries[slot], u, later)];
    hide SlotFor;
    hide Stored;
    hide Known;
    hide AtMostDeactivated;
    DeduplicatedShows(es, num, slot, u.identity);
    hide Deduplicated;
  }

  /** A live entry of another track gives way only when all 256 are live, and then it is one not
      seen for longest. */
  lemma EvictsOldestWhenFull(g: Gallery, t: int, now: int)
    requires Kept(g)
    ensures var slot := SlotFor(g, t, now);
            Live(g.entries[slot], now, g.ttlMs) && g.entries[slot].trackId != t ==>
              && (forall i :: 0 <= i < MAX ==> Live(g.entries[i], now, g.ttlMs))
              && (forall i :: 0 <= i < MAX ==> g.entries[slot].lastSeen <= g.entries[i].lastSeen)
  {
  }

  // ---- identities that do not fit ----

  lemma FirstSlot(ttlSec: int, t: int, now: int)
    ensures SlotFor(Created(ttlSec), t, now) == 0
  {
  }

  /** The smallest case. The comparison is made with the whole identity, the buffer holds 31 characters
      of it: in a new gallery two tracks under one known identity, seen one after the other, are told to
      be the same person exactly when the identity is shorter than 32. */
  lemma DedupIffShort(ttlSec: int, a: Sighting, b: Sighting, t0: int, t1: int, t2: int, t3: int)
    requires a.trackId >= 0 && b.trackId >= 0 && a.trackId != b.trackId
    requires a.identity == b.identity && a.identity.Some? && Known(a.identity.value)
    requires t2 - t1 <= Created(ttlSec).ttlMs
    ensures var g := Updated(Updated(Created(ttlSec), a, t0, t1), b, t2, t3);
            && g.entries[0].identity == g.entries[1].identity == Stored(a.identity)
            && (g.entries[0].active && g.entries[1].active <==> |a.identity.value| >= STR_LEN)
  {
    var g0 := Created(ttlSec);
    FirstSlot(ttlSec, a.trackId, t0);
    var g1 := Updated(g0, a, t0, t1);
    assert FindTwin(g0.entries[0 := Filled(BLANK, a, t1)], 1, 0, a.identity.value, 0) == 1 by {
      assert FindTwin(g0.entries[0 := Filled(BLANK, a, t1)], 1, 0, a.identity.value, 1) == 1;
    }
    assert g1.entries[0] == Filled(BLANK, a, t1) && g1.num == 1 && g1.entries[1] == BLANK;
    assert FindTrack(g1.entries, 1, b.trackId, 0) == 1 by { assert FindTrack(g1.entries, 1, b.trackId, 1) == 1; }
    assert FindFree(g1.entries, t2, g1.ttlMs, 0) == 1 by { assert FindFree(g1.entries, t2, g1.ttlMs, 1) == 1; }
    assert SlotFor(g1, b.trackId, t2) == 1;
    var es := g1.entries[1 := Filled(BLANK, b, t3)];
    if |a.identity.value| < STR_LEN {
      assert FindTwin(es, 2, 1, a.identity.value, 0) == 0;
    } else {
      assert |es[0].identity| < STR_LEN;
      assert FindTwin(es, 2, 1, a.identity.value, 2) == 2;
      assert FindTwin(es, 2, 1, a.identity.value, 1) == 2;
      assert FindTwin(es, 2, 1, a.identity.value, 0) == 2;
    }
  }

  // ---- the gallery object ----

  class Store {
    const entries: array<Entry>
    var numEntries: nat
    var ttlMs: int

    ghost predicate Valid()
      reads this
    {
      entries.Length == MAX && numEntries <= MAX
    }

    ghost function State(): (g: Gallery)
      requires Valid()
      reads this, entries
      ensures Sized(g)
    {
      Gallery(entries[..], numEntries, ttlMs)
    }

    constructor (ttlSec: int)
      ensures Valid() && fresh(entries) && State() == Created(ttlSec)
    {
      entries := new Entry[MAX](_ => BLANK);
      numEntries := 0;
      ttlMs := (if ttlSec > 0 then ttlSec else 60) * 1000;
    }

    method ChooseSlot(t: int, now: int) returns (slot: nat)
      requires Valid()
      ensures slot == SlotFor(State(), t, now)
    {
      ghost var es := entries[..];
      slot := 0;
      while slot < numEntries
        invariant slot <= numEntries && FindTrack(es, numEntries, t, 0) == FindTrack(es, numEntries, t, slot)
      {
        if entries[slot].active && entries[slot].trackId == t { return; }
        slot := slot + 1;
      }
      slot := 0;
      while slot < MAX
        invariant slot <= MAX && FindFree(es, now, ttlMs, 0) == FindFree(es, now, ttlMs, slot)
      {
        if !entries[slot].active || now - entries[slot].lastSeen > ttlMs { return; }
        slot := slot + 1;
      }
      slot := 0;
      for i := 1 to MAX
        invariant slot == Oldest(es, i)
      {
        if entries[i].lastSeen < entries[slot].lastSeen { slot := i; }
      }
    }

    method Deduplicate(slot: nat, id: string)
      requires Valid() && slot < MAX && Known(id)
      modifies entries
      ensures entries[..] == Deduplicated(old(entries[..]), numEntries, slot, Some(id))
    {
      ghost var es := entries[..];
      var i := 0;
      while i < numEntries
        invariant i <= numEntries && entries[..] == es
        invariant FindTwin(es, numEntries, slot, id, 0) == FindTwin(es, numEntries, slot, id, i)
      {
        if i != slot && entries[i].active && entries[i].identity == id {
          if entries[i].similarity >= entries[slot].similarity {
            entries[slot] := entries[slot].(active := false);
          } else {
            entries[i] := entries[i].(active := false);
          }
          return;
        }
        i := i + 1;
      }
    }

    method Update(u: Sighting, now: int, later: int)
      requires Valid()
      modifies this, entries
      ensures Valid() && State() == Updated(old(State()), u, now, later)
    {
      hide SlotFor;
      hide Stored;
      hide Known;
      if u.trackId < 0 { return; }
      var slot := ChooseSlot(u.trackId, now);
      if slot >= numEntries { numEntries := slot + 1; }
      entries[slot] := Filled(entries[slot], u, later);
      if u.identity.Some? && Known(u.identity.value) { Deduplicate(slot, u.identity.value); }
    }

    method Prune(now: int)
      requires Valid()
      modifies entries
      ensures State() == Pruned(old(State()), now)
    {
      ghost var g := State();
      for i := 0 to numEntries
        invariant numEntries == g.num && ttlMs == g.ttlMs
        invariant forall k :: 0 <= k < MAX ==> entries[k] == if k < i then Pruned(g, now).entries[k] else g.entries[k]
      {
        if entries[i].active && now - entries[i].lastSeen > ttlMs {
          entries[i] := entries[i].(active := false);
        }
      }
      assert entries[..] == Pruned(g, now).entries;
    }
  }
}
