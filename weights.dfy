/** Relative frequencies of the tiles, with cached aggregates for entropy. */
module Weights {

  import opened Wrappers
  import opened Geometry

  /** sum(w[n]) over a weight table. */
  function Sum(ws: seq<FrequencyWeight>): int
  {
    if ws == [] then 0 else ws[0] + Sum(ws[1..])
  }

  /** A read-only weight table. The draft gives it no constructor, so the
      three fields are supplied by whoever builds the value. The cached
      sum(w[n] * log(w[n])) is a floating-point value carried as is. */
  datatype FrequencyHints = FrequencyHints(
    tileWeights: seq<FrequencyWeight>,
    sumWeight: FrequencyWeight,
    sumWeightTimesLogWeight: real)
  {
    /** w[index], or `None` (undefined) for an index outside the table. */
    function WeightForTile(index: TileIndex): (w: Option<FrequencyWeight>)
      ensures w.Some? <==> 0 <= index < |tileWeights|
      ensures w.Some? ==> w.value == tileWeights[index]
    {
      if 0 <= index < |tileWeights| then Some(tileWeights[index]) else None
    }

    /** The cached sum(w[n]). */
    function SumWeight(): (s: FrequencyWeight)
      ensures s == sumWeight
    {
      sumWeight
    }

    /** The getter as written: it answers with the weight sum, not with the
        cached sum(w[n] * log(w[n])). */
    function SumWeightTimesLogWeight(): (s: FrequencyWeight)
      ensures s == SumWeight()
    {
      sumWeight
    }

    /** The getter as its documentation describes it: the cached
        sum(w[n] * log(w[n])). */
    function CachedSumWeightTimesLogWeight(): (s: real)
      ensures s == sumWeightTimesLogWeight
    {
      sumWeightTimesLogWeight
    }

    /** The weight-sum cache agrees with the table. */
    ghost predicate SumCacheHolds()
    {
      sumWeight == Sum(tileWeights)
    }

    /** Every weight is an occurrence count, hence at least one. */
    ghost predicate WeightsAreCounts()
    {
      forall i :: 0 <= i < |tileWeights| ==> tileWeights[i] >= 1
    }
  }

  lemma {:induction false} SumAtLeastEach(ws: seq<FrequencyWeight>, i: int)
    requires forall k :: 0 <= k < |ws| ==> ws[k] >= 0
    requires 0 <= i < |ws|
    ensures ws[i] <= Sum(ws)
  {
    SumNonNegative(ws[1..]);
    if i > 0 {
      SumAtLeastEach(ws[1..], i - 1);
    }
  }

  lemma {:induction false} SumNonNegative(ws: seq<FrequencyWeight>)
    requires forall k :: 0 <= k < |ws| ==> ws[k] >= 0
    ensures Sum(ws) >= 0
  {
    if ws != [] {
      SumNonNegative(ws[1..]);
    }
  }

  lemma {:induction false} SumAtLeastLength(ws: seq<FrequencyWeight>)
    requires forall k :: 0 <= k < |ws| ==> ws[k] >= 1
    ensures Sum(ws) >= |ws|
  {
    if ws != [] {
      SumAtLeastLength(ws[1..]);
    }
  }

  /** With a consistent cache and count weights, no single tile weighs more
      than the cached total. */
  lemma WeightAtMostSumWeight(h: FrequencyHints, index: TileIndex)
    requires h.SumCacheHolds() && h.WeightsAreCounts()
    requires 0 <= index < |h.tileWeights|
    ensures h.WeightForTile(index).Some?
    ensures h.WeightForTile(index).value <= h.SumWeight()
  {
    SumAtLeastEach(h.tileWeights, index);
  }

  /** With a consistent cache and count weights, the cached total is at least
      the number of tiles (so it is positive whenever a tile exists). */
  lemma SumWeightAtLeastTileCount(h: FrequencyHints)
    requires h.SumCacheHolds() && h.WeightsAreCounts()
    ensures h.SumWeight() >= |h.tileWeights|
  {
    SumAtLeastLength(h.tileWeights);
  }

  /** The as-written getter disagrees with the cache it documents: one tile of
      weight 1 has sum(w * log(w)) = 1 * log(1) = 0 in any base, yet the getter
      answers 1. */
  lemma SumWeightTimesLogWeightIgnoresCache()
    ensures var h := FrequencyHints([1], 1, 0.0);
            h.SumCacheHolds() &&
            h.SumWeightTimesLogWeight() as real != h.CachedSumWeightTimesLogWeight()
  {
    var h := FrequencyHints([1], 1, 0.0);
    assert Sum(h.tileWeights) == 1 + Sum([]);
  }
}
