/** What the Python client makes of a final block, whatever it holds. */
module JpegRules {
  import opened Bytes
  import opened StreamFrames
  import opened JpegAssembler

  ghost predicate Ascending(ks: seq<nat>) {
    forall i, j :: 0 <= i < j < |ks| ==> ks[i] < ks[j]
  }

  ghost predicate AllIn(ks: seq<nat>, blocks: map<nat, bytes>) {
    forall k :: k in ks ==> k in blocks
  }

  /** The blocks under these numbers, one behind the other. */
  ghost function Chained(blocks: map<nat, bytes>, ks: seq<nat>): (s: bytes)
    requires AllIn(ks, blocks)
  {
    if |ks| == 0 then [] else Chained(blocks, ks[..|ks| - 1]) + blocks[ks[|ks| - 1]]
  }

  /** The first `n` numbers. */
  function Upto(n: nat): (ks: seq<nat>)
    ensures |ks| == n && forall k: nat :: k in ks <==> k < n
  {
    if n == 0 then [] else Upto(n - 1) + [n - 1]
  }

  lemma ChainedMore(blocks: map<nat, bytes>, ks: seq<nat>, k: nat)
    requires AllIn(ks, blocks) && k in blocks
    ensures AllIn(ks + [k], blocks) && Chained(blocks, ks + [k]) == Chained(blocks, ks) + blocks[k]
  {
    assert (ks + [k])[..|ks + [k]| - 1] == ks;
  }

  lemma {:induction false} JoinedIs(blocks: map<nat, bytes>, n: nat)
    ensures Joined(blocks, n).Some? <==> AllIn(Upto(n), blocks)
    ensures AllIn(Upto(n), blocks) ==> Joined(blocks, n) == Some(Chained(blocks, Upto(n)))
    decreases n
  {
    if n > 0 {
      JoinedIs(blocks, n - 1);
      if AllIn(Upto(n - 1), blocks) && n - 1 in blocks { ChainedMore(blocks, Upto(n - 1), n - 1); }
    }
    hide Chained;
  }

  /** All block numbers below `n`, in order. */
  ghost predicate Sorted(ks: seq<nat>, blocks: map<nat, bytes>, n: nat) {
    Ascending(ks) && forall k :: k in ks <==> k in blocks && k < n
  }

  lemma SortedMore(ks: seq<nat>, blocks: map<nat, bytes>, n: nat)
    requires Sorted(ks, blocks, n)
    ensures n in blocks ==> Sorted(ks + [n], blocks, n + 1)
    ensures n !in blocks ==> Sorted(ks, blocks, n + 1)
  {
    forall i | 0 <= i < |ks| ensures ks[i] < n { assert ks[i] in ks; }
  }

  lemma SortedIn(ks: seq<nat>, blocks: map<nat, bytes>, n: nat)
    requires Sorted(ks, blocks, n)
    ensures AllIn(ks, blocks)
  {
  }

  lemma BelowStep(blocks: map<nat, bytes>, n: nat)
    ensures JoinedBelow(blocks, n + 1) == JoinedBelow(blocks, n) + if n in blocks then blocks[n] else []
    ensures JoinedBelow(blocks, 0) == [] && Sorted([], blocks, 0) && AllIn([], blocks) && Chained(blocks, []) == []
  {
  }

  lemma {:induction false} SortedIs(blocks: map<nat, bytes>, n: nat) returns (ks: seq<nat>)
    ensures Sorted(ks, blocks, n) && AllIn(ks, blocks) && JoinedBelow(blocks, n) == Chained(blocks, ks)
    decreases n
  {
    hide *;
    ks := [];
    if n == 0 {
      BelowStep(blocks, 0);
    } else {
      ks := SortedIs(blocks, n - 1);
      BelowStep(blocks, n - 1);
      SortedMore(ks, blocks, n - 1);
      if n - 1 in blocks {
        ChainedMore(blocks, ks, n - 1);
        ks := ks + [n - 1];
      } else {
        SortedIn(ks, blocks, n);
      }
    }
  }

  /** It starts like a JPEG: two octets at least, and these. */
  predicate Jpeg(s: bytes) {
    2 <= |s| && s[..2] == [255, 216]
  }

  /** With a length announced: nothing yet while there are fewer blocks than it takes; an exception if one
      of them is missing all the same; else what they make one behind the other, if it has that length and
      starts like a JPEG. The client is empty after that, whether it had a frame or not. */
  lemma AnnouncedMeans(a: Partial, total: nat)
    requires a.total == Some(total)
    ensures var size := BlockSize(a.szx);
            var need := (total + size - 1) / size;
            Concluded(a) ==
            if |a.blocks| < need then (a, NoFrame)
            else if !AllIn(Upto(need), a.blocks) then (a, Raises)
            else
              var jpg := Chained(a.blocks, Upto(need));
              (EMPTY, if |jpg| == total && Jpeg(jpg) then Frame(jpg) else NoFrame)
  {
    var size := BlockSize(a.szx);
    JoinedIs(a.blocks, (total + size - 1) / size);
    hide Joined;
    hide Upto;
    hide AllIn;
    hide Chained;
  }

  /** Without one: all the blocks there are, in ascending order, if that starts like a JPEG. */
  lemma UnannouncedMeans(a: Partial) returns (ks: seq<nat>)
    requires a.total.None?
    ensures Ascending(ks) && (forall k :: k in ks <==> k in a.blocks) && AllIn(ks, a.blocks)
    ensures var jpg := Chained(a.blocks, ks); Concluded(a) == (EMPTY, if Jpeg(jpg) then Frame(jpg) else NoFrame)
  {
    ks := SortedIs(a.blocks, KeyBound(a.blocks.Keys));
    hide JoinedBelow;
    hide Chained;
  }

  /** Block 0 begins a frame; another block counts if a frame with an ETag is under way and the block has
      the same or none; anything else changes nothing. Only a block without the more flag concludes. */
  lemma BlockMeans(a: Partial, num: nat, more: bool, szx: nat, etag: Option<nat>, total: Option<nat>, chunk: bytes, later: real)
    ensures var counts := num == 0 || (a.etag != None && (etag == None || etag == a.etag));
            var b := if num == 0 then Partial(map[0 := chunk], etag, total, szx, later)
                     else Partial(a.blocks[num := chunk], a.etag, a.total, a.szx, a.startedAt);
            FeedBlock(a, num, more, szx, etag, total, chunk, later) ==
            if !counts then (a, NoFrame) else if more then (b, NoFrame) else Concluded(b)
  {
    hide Concluded;
  }
}
