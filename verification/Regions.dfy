/** Choosing which regions of a large file to show. */
module Regions {

  /** `Math.round(a / b)` for a quotient that is not negative: the nearest integer, halves upwards. */
  function Round(a: nat, b: nat): nat
    requires b > 0
  {
    (2 * a + b) / (2 * b)
  }

  function Position(index: nat, count: nat, limit: nat): nat
    requires limit >= 2 && count > 0
  {
    Round(index * (count - 1), limit - 1)
  }

  lemma RoundIsNear(a: nat, b: nat)
    requires b > 0
    ensures 2 * b * Round(a, b) <= 2 * a + b < 2 * b * Round(a, b) + 2 * b
  {
  }

  /** With more regions than places, every place is further on than the one before. */
  lemma PositionsRise(index: nat, count: nat, limit: nat)
    requires limit >= 2 && count > limit
    ensures Position(index, count, limit) < Position(index + 1, count, limit)
  {
    var c, l := count - 1, limit - 1;
    Stretch(c, index, index + 1);
    RoundIsNear(index * c, l);
    RoundIsNear((index + 1) * c, l);
    var p, q := Position(index, count, limit), Position(index + 1, count, limit);
    assert c * index == index * c && c * (index + 1) == (index + 1) * c;
    if q <= p {
      Stretch(2 * l, q, p);
    }
  }

  lemma {:induction false} PositionsRiseFar(i: nat, j: nat, count: nat, limit: nat)
    requires limit >= 2 && count > limit && i < j
    ensures Position(i, count, limit) < Position(j, count, limit)
    decreases j
  {
    PositionsRise(j - 1, count, limit);
    if i < j - 1 {
      PositionsRiseFar(i, j - 1, count, limit);
    }
  }

  /** The first place is the first region and the last place the last. */
  lemma PositionsSpan(count: nat, limit: nat)
    requires limit >= 2 && count > 0
    ensures Position(0, count, limit) == 0 && Position(limit - 1, count, limit) == count - 1
  {
    var c, l := count - 1, limit - 1;
    assert 0 * c == 0;
    RoundIsNear(l * c, l);
    Ordered(2 * l, Round(l * c, l), c);
    assert 2 * (l * c) == (2 * l) * c;
  }

  /** Two whole multiples less than one multiple apart are the same. */
  lemma Ordered(k: nat, a: nat, b: nat)
    requires k > 0
    ensures k * a < k * b + k && k * b < k * a + k ==> a == b
  {
    if a < b {
      Stretch(k, a + 1, b);
    } else if b < a {
      Stretch(k, b + 1, a);
    }
  }

  lemma Stretch(k: nat, a: nat, b: nat)
    requires a <= b
    ensures k * a <= k * b && k * (a + 1) == k * a + k
  {
  }

  /** The regions at the rounded positions, when there are more than places; otherwise all of them. */
  predicate Chosen<T(==)>(regions: seq<T>, limit: nat, chosen: seq<T>) {
    if |regions| <= limit then chosen == regions
    else if limit <= 1 then chosen == regions[..limit]
    else
      && |chosen| == limit
      && forall i :: 0 <= i < limit ==>
           Position(i, |regions|, limit) < |regions| && chosen[i] == regions[Position(i, |regions|, limit)]
  }

  /** Exactly `limit` regions when there are more, in their order, from the first to the last. */
  method RepresentativeRegions<T(==)>(regions: seq<T>, limit: int) returns (chosen: seq<T>)
    ensures Chosen(regions, AtLeastNone(limit), chosen)
    ensures 2 <= limit < |regions| ==> chosen[0] == regions[0] && chosen[limit - 1] == regions[|regions| - 1]
  {
    if limit <= 0 {
      return [];
    }
    if |regions| <= limit {
      return regions;
    }
    if limit == 1 {
      return [regions[0]];
    }
    var selected: seq<nat> := [];
    PositionsSpan(|regions|, limit);
    for index := 0 to limit
      invariant |selected| == index
      invariant forall i :: 0 <= i < index ==> selected[i] == Position(i, |regions|, limit) < |regions|
    {
      var at := Position(index, |regions|, limit);
      if index < limit - 1 {
        PositionsRiseFar(index, limit - 1, |regions|, limit);
      }
      forall i | 0 <= i < index ensures selected[i] != at {
        PositionsRiseFar(i, index, |regions|, limit);
      }
      if at !in selected {
        selected := selected + [at];
      }
    }
    chosen := [];
    for index := 0 to |selected|
      invariant |chosen| == index
      invariant forall i :: 0 <= i < index ==> chosen[i] == regions[selected[i]]
    {
      chosen := chosen + [regions[selected[index]]];
    }
  }

  function Min(a: nat, b: nat): nat {
    if a < b then a else b
  }

  function AtLeastNone(a: int): nat {
    if a < 0 then 0 else a
  }

  /** A file's two tiers: what the seeds reach first, the rest of its exported surface in the room that is left. */
  method DescribeFile<T(==)>(reached: seq<T>, exported: seq<T>, maxPerFile: int)
    returns (regions: seq<T>, ghost split: nat)
    ensures |regions| == Min(AtLeastNone(maxPerFile), |reached| + |exported|)
    ensures split == Min(AtLeastNone(maxPerFile), |reached|)
    ensures split <= |regions| && Chosen(reached, AtLeastNone(maxPerFile), regions[..split])
            && Chosen(exported, AtLeastNone(maxPerFile) - split, regions[split..])
  {
    var limit := AtLeastNone(maxPerFile);
    var first := RepresentativeRegions(reached, limit);
    var remaining := if limit < |first| then 0 else limit - |first|;
    var second := RepresentativeRegions(exported, remaining);
    regions := first + second;
    split := |first|;
    assert regions[..split] == first && regions[split..] == second;
  }
}
