/** Which trackers psn_encoder::encode_data puts in which packet. The choice
    depends on the encoded sizes only. */
module PsnPacking {

  /** Encoded size of each tracker. A tracker with all seven fields is 104
      bytes; a packet without trackers is 28. */
  type Sizes = map<int, nat>

  const LIMIT := 1500
  const EMPTY_PACKET := 28
  const MAX_TRACKER := 104

  predicate Sized(ids: seq<int>, sizes: Sizes) {
    forall i :: 0 <= i < |ids| ==> ids[i] in sizes && sizes[ids[i]] <= MAX_TRACKER
  }

  function Total(ids: seq<int>, sizes: Sizes): nat
    requires Sized(ids, sizes)
  {
    if ids == [] then 0 else sizes[ids[0]] + Total(ids[1..], sizes)
  }

  /** How many of the leading trackers fit behind `used` bytes. */
  function Fit(ids: seq<int>, sizes: Sizes, used: nat): (n: nat)
    requires Sized(ids, sizes)
    ensures n <= |ids|
  {
    if ids == [] || used + sizes[ids[0]] > LIMIT then 0
    else 1 + Fit(ids[1..], sizes, used + sizes[ids[0]])
  }

  lemma {:induction false} FitAtLeast(ids: seq<int>, sizes: Sizes, used: nat, k: nat)
    requires Sized(ids, sizes) && k <= |ids| && used + MAX_TRACKER * k <= LIMIT
    ensures k <= Fit(ids, sizes, used)
  {
    if k > 0 {
      FitAtLeast(ids[1..], sizes, used + sizes[ids[0]], k - 1);
    }
  }

  /** The prefix chosen by Fit fits, and one tracker more would not. */
  lemma {:induction false} FitIsMaximal(ids: seq<int>, sizes: Sizes, used: nat)
    requires Sized(ids, sizes) && used <= LIMIT
    ensures var n := Fit(ids, sizes, used);
            && used + Total(ids[..n], sizes) <= LIMIT
            && (n < |ids| ==> used + Total(ids[..n + 1], sizes) > LIMIT)
  {
    if ids != [] {
      var n := Fit(ids, sizes, used);
      if used + sizes[ids[0]] > LIMIT {
        assert ids[..1][1..] == [];
      } else {
        FitIsMaximal(ids[1..], sizes, used + sizes[ids[0]]);
        assert ids[..n][1..] == ids[1..][..n - 1];
        if n < |ids| {
          assert ids[..n + 1][1..] == ids[1..][..n];
        }
      }
    }
  }

  /** The ids carried by each packet. */
  function Pack(ids: seq<int>, sizes: Sizes): (chunks: seq<seq<int>>)
    requires Sized(ids, sizes)
  {
    if ids == [] then []
    else
      FitAtLeast(ids, sizes, EMPTY_PACKET, 1);
      var n := Fit(ids, sizes, EMPTY_PACKET);
      [ids[..n]] + Pack(ids[n..], sizes)
  }

  function Flatten(chunks: seq<seq<int>>): seq<int> {
    if chunks == [] then [] else chunks[0] + Flatten(chunks[1..])
  }

  /** One packet of a greedy packing, followed by `next`. */
  predicate Full(chunk: seq<int>, next: seq<int>, sizes: Sizes) {
    && Sized(chunk, sizes) && Sized(next, sizes) && next != []
    && |chunk| >= 14
    && EMPTY_PACKET + Total(chunk + [next[0]], sizes) > LIMIT
  }

  lemma FirstIsFull(ids: seq<int>, sizes: Sizes, next: seq<int>)
    requires Sized(ids, sizes) && ids != []
    requires var n := Fit(ids, sizes, EMPTY_PACKET); n < |ids| && next != [] && next[0] == ids[n] && Sized(next, sizes)
    ensures Full(ids[..Fit(ids, sizes, EMPTY_PACKET)], next, sizes)
  {
    var n := Fit(ids, sizes, EMPTY_PACKET);
    FitAtLeast(ids, sizes, EMPTY_PACKET, if |ids| < 14 then |ids| else 14);
    FitIsMaximal(ids, sizes, EMPTY_PACKET);
    assert ids[..n + 1] == ids[..n] + [ids[n]];
  }

  /** The packets carry every id once, in order; none is empty or over 1500
      bytes; each but the last holds at least 14 trackers and has no room for
      the first tracker of its successor. */
  lemma {:induction false} PackIsGreedyPartition(ids: seq<int>, sizes: Sizes)
    requires Sized(ids, sizes)
    ensures var chunks := Pack(ids, sizes);
            && Flatten(chunks) == ids
            && (forall i :: 0 <= i < |chunks| ==>
                  chunks[i] != [] && Sized(chunks[i], sizes) && EMPTY_PACKET + Total(chunks[i], sizes) <= LIMIT)
            && (forall i, j :: 0 <= i && j == i + 1 && j < |chunks| ==> Full(chunks[i], chunks[j], sizes))
    decreases |ids|
  {
    if ids != [] {
      FitAtLeast(ids, sizes, EMPTY_PACKET, if |ids| < 14 then |ids| else 14);
      FitIsMaximal(ids, sizes, EMPTY_PACKET);
      var n := Fit(ids, sizes, EMPTY_PACKET);
      var rest := Pack(ids[n..], sizes);
      PackIsGreedyPartition(ids[n..], sizes);
      var chunks := Pack(ids, sizes);
      assert chunks == [ids[..n]] + rest && chunks[1..] == rest;
      assert Flatten(chunks) == ids;
      if rest != [] {
        assert rest[0][0] == Flatten(rest)[0] == ids[n];
        FirstIsFull(ids, sizes, rest[0]);
      }
    }
  }

  /** 3570 trackers always fit in 255 packets. */
  lemma {:induction false} PackCount(ids: seq<int>, sizes: Sizes, k: nat)
    requires Sized(ids, sizes) && |ids| <= 14 * k
    ensures |Pack(ids, sizes)| <= k
    decreases |ids|
  {
    if ids != [] {
      FitAtLeast(ids, sizes, EMPTY_PACKET, if |ids| < 14 then |ids| else 14);
      PackCount(ids[Fit(ids, sizes, EMPTY_PACKET)..], sizes, k - 1);
    }
  }

  /** Trackers of the greatest size take as many packets as they can. */
  lemma {:induction false} GreatestPack(ids: seq<int>, sizes: Sizes)
    requires Sized(ids, sizes) && forall i :: 0 <= i < |ids| ==> sizes[ids[i]] == MAX_TRACKER
    ensures |Pack(ids, sizes)| == (|ids| + 13) / 14
    decreases |ids|
  {
    if ids != [] {
      var n := Fit(ids, sizes, EMPTY_PACKET);
      GreatestFit(ids, sizes, EMPTY_PACKET, 14);
      GreatestPack(ids[n..], sizes);
    }
  }

  lemma {:induction false} GreatestFit(ids: seq<int>, sizes: Sizes, used: nat, k: nat)
    requires Sized(ids, sizes) && forall i :: 0 <= i < |ids| ==> sizes[ids[i]] == MAX_TRACKER
    requires used + MAX_TRACKER * k <= LIMIT < used + MAX_TRACKER * (k + 1)
    ensures Fit(ids, sizes, used) == if |ids| < k then |ids| else k
    decreases |ids|
  {
    if ids != [] && k > 0 { GreatestFit(ids[1..], sizes, used + MAX_TRACKER, k - 1); }
  }
}
