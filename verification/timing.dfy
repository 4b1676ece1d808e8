/** Inferring the dot length, the unit of Morse timing, from segment durations
    (morse_decoder.py:72-104). In International Morse timing (ITU-R M.1677-1,
    part II) a dash and the gap between letters last three units and the gap
    between words seven, so two durations 3:1, 7:1 or 7:3 apart reveal the unit. */
module Timing {
  import opened Ratios
  import opened Outcome
  import opened Signal

  /** The ratio of the longer duration to the shorter one. */
  function RelationOf(n1: pos, n2: pos): (r: Ratio)
    decreases if n1 < n2 then 1 else 0
    ensures r.den <= r.num
    ensures (r.num == n1 && r.den == n2) || (r.num == n2 && r.den == n1)
  {
    if n1 < n2 then RelationOf(n2, n1) else Ratio(n1, n2)
  }

  /** The order of the arguments does not matter, and the ratio is at least 1. */
  lemma RelationOfSymmetric(n1: pos, n2: pos)
    ensures RelationOf(n1, n2) == RelationOf(n2, n1)
    ensures 1.0 <= Value(RelationOf(n1, n2))
  {
    var r := RelationOf(n1, n2);
    QuotientAtLeast(r, 1, 1);
  }

  /** The dot length from a pair of durations `a`, `b` whose ratio is `rel`:
      3:1 and 7:1 give the shorter duration, 7:3 gives a seventh of the longer one. */
  function CalcDotLength(a: pos, b: pos, rel: Ratio): (r: Result<nat>)
    decreases if b > a then 1 else 0
    ensures ThreeUnitBand(rel) || SevenUnitBand(rel) ==> r == Ok(Min(a, b))
    ensures !ThreeUnitBand(rel) && !SevenUnitBand(rel) && SevenToThreeBand(rel) ==>
      r == Ok(Max(a, b) / 7)
    ensures !ThreeUnitBand(rel) && !SevenUnitBand(rel) && !SevenToThreeBand(rel) ==>
      r == Err(UnresolvableRatio)
    ensures r.Ok? ==> Min(a, b) / 7 <= r.value
  {
    if b > a then CalcDotLength(b, a, rel)
    else if ThreeUnitBand(rel) || SevenUnitBand(rel) then Ok(b)
    else if SevenToThreeBand(rel) then Ok(a / 7)
    else Err(UnresolvableRatio)
  }

  /** Swapping the two durations does not change the result. */
  lemma CalcDotLengthSymmetric(a: pos, b: pos, rel: Ratio)
    ensures CalcDotLength(a, b, rel) == CalcDotLength(b, a, rel)
  {
  }

  /** On ideal timing, any two different durations out of one, three and seven
      units are at least 2:1 apart and resolve to the unit. */
  lemma UnitMultiplesResolve(u: pos, k: pos, m: pos)
    requires k == 1 || k == 3 || k == 7
    requires m == 1 || m == 3 || m == 7
    requires k != m
    ensures AtLeastDouble(RelationOf(k * u, m * u))
    ensures CalcDotLength(k * u, m * u, RelationOf(k * u, m * u)) == Ok(u)
  {
    var lo := Min(k, m);
    var hi := Max(k, m);
    assert RelationOf(k * u, m * u) == Ratio(hi * u, lo * u);
    assert (7 * u) / 7 == u;
  }

  /** The pair (i, j) of segments is at least 2:1 apart. */
  predicate WidePair(segs: seq<Segment>, i: nat, j: nat)
    requires i < |segs| && j < |segs|
  {
    AtLeastDouble(RelationOf(segs[i].length, segs[j].length))
  }

  /** No pair (i', j'), i' < j', that comes before (i, j) in the nested scan order
      is wide. */
  predicate NoWidePairBefore(segs: seq<Segment>, i: nat, j: nat)
  {
    forall i', j' :: 0 <= i' < j' < |segs| && (i' < i || (i' == i && j' < j)) ==>
      !WidePair(segs, i', j')
  }

  /** (i, j) is the first wide pair in the nested scan order. */
  predicate FirstWidePair(segs: seq<Segment>, i: nat, j: nat)
  {
    i < j < |segs| && WidePair(segs, i, j) && NoWidePairBefore(segs, i, j)
  }

  /** Some pair of segments is at least 2:1 apart. */
  predicate HasWidePair(segs: seq<Segment>)
  {
    exists i, j :: 0 <= i < j < |segs| && WidePair(segs, i, j)
  }

  /** The nested scan from pair (i, j) on. */
  function ScanPairs(segs: seq<Segment>, i: nat, j: nat): (r: Result<nat>)
    requires i <= |segs| && i < j
    requires NoWidePairBefore(segs, i, j)
    decreases |segs| - i, |segs| - j
    ensures r == Err(NoValidPair) <==> !HasWidePair(segs)
    ensures r != Err(NoValidPair) ==>
      exists i': nat, j': nat :: FirstWidePair(segs, i', j') &&
        r == CalcDotLength(segs[i'].length, segs[j'].length, RelationOf(segs[i'].length, segs[j'].length))
  {
    if i >= |segs| then Err(NoValidPair)
    else if j >= |segs| then
      assert NoWidePairBefore(segs, i + 1, i + 2) by {
        forall i', j' | 0 <= i' < j' < |segs| && (i' < i + 1 || (i' == i + 1 && j' < i + 2))
          ensures !WidePair(segs, i', j')
        {
          if i' == i + 1 {
            assert false;
          }
        }
      }
      ScanPairs(segs, i + 1, i + 2)
    else if WidePair(segs, i, j) then
      var a := segs[i].length;
      var b := segs[j].length;
      assert FirstWidePair(segs, i, j);
      CalcDotLength(a, b, RelationOf(a, b))
    else
      ScanPairs(segs, i, j + 1)
  }

  /** The dot length of a segment sequence: resolved from the first pair, in
      nested scan order, whose durations are at least 2:1 apart. */
  function DotLength(segs: seq<Segment>): (r: Result<nat>)
    ensures r == Err(NoValidPair) <==> !HasWidePair(segs)
    ensures forall i: nat, j: nat :: FirstWidePair(segs, i, j) ==>
      r == CalcDotLength(segs[i].length, segs[j].length, RelationOf(segs[i].length, segs[j].length))
    ensures r != Err(DivisionByZero) && r != Err(SegmentOutOfRange)
  {
    FirstWidePairUnique(segs);
    ScanPairs(segs, 0, 1)
  }

  /** Unless no pair is wide, the dot length comes from a first wide pair. */
  lemma DotLengthFromFirstPair(segs: seq<Segment>)
    ensures DotLength(segs) != Err(NoValidPair) ==>
      exists i: nat, j: nat :: FirstWidePair(segs, i, j) &&
        DotLength(segs) == CalcDotLength(segs[i].length, segs[j].length, RelationOf(segs[i].length, segs[j].length))
  {
    assert DotLength(segs) == ScanPairs(segs, 0, 1);
  }

  /** There is at most one first wide pair. */
  lemma FirstWidePairUnique(segs: seq<Segment>)
    ensures forall i: nat, j: nat, i': nat, j': nat ::
      FirstWidePair(segs, i, j) && FirstWidePair(segs, i', j') ==> i == i' && j == j'
  {
  }

  /** With fewer than two segments, or with every duration the same, no pair is
      wide enough and the estimator fails. */
  lemma NoWidePairCases(segs: seq<Segment>)
    requires |segs| < 2 || forall k :: 0 <= k < |segs| ==> segs[k].length == segs[0].length
    ensures DotLength(segs) == Err(NoValidPair)
  {
    forall i: nat, j: nat | i < j < |segs|
      ensures !WidePair(segs, i, j)
    {
      assert segs[i].length == segs[j].length;
    }
  }

  /** The first wide pair decides, even when it falls in no band and a later
      pair would resolve: 450 samples against 100 is 4.5 units, while 300
      against 100 would give a unit of 100. */
  lemma FirstPairDecides()
    ensures CalcDotLength(100, 300, RelationOf(100, 300)) == Ok(100)
    ensures DotLength([Segment(1, 100), Segment(0, 450), Segment(1, 300)]) == Err(UnresolvableRatio)
  {
    var segs := [Segment(1, 100), Segment(0, 450), Segment(1, 300)];
    assert FirstWidePair(segs, 0, 1);
  }

  /** The nested loops of `__findDotLength` (morse_decoder.py:98-102). */
  method FindDotLength(segs: seq<Segment>) returns (r: Result<nat>)
    ensures r == DotLength(segs)
  {
    var i := 0;
    while i < |segs|
      invariant 0 <= i <= |segs|
      invariant NoWidePairBefore(segs, i, i + 1)
      decreases |segs| - i
    {
      var j := i + 1;
      while j < |segs|
        invariant i < j <= |segs|
        invariant NoWidePairBefore(segs, i, j)
        decreases |segs| - j
      {
        var rel := RelationOf(segs[i].length, segs[j].length);
        if AtLeastDouble(rel) {
          assert FirstWidePair(segs, i, j);
          return CalcDotLength(segs[i].length, segs[j].length, rel);
        }
        j := j + 1;
      }
      assert NoWidePairBefore(segs, i + 1, i + 2) by {
        forall i', j' | 0 <= i' < j' < |segs| && (i' < i + 1 || (i' == i + 1 && j' < i + 2))
          ensures !WidePair(segs, i', j')
        {
          if i' == i + 1 {
            assert false;
          }
        }
      }
      i := i + 1;
    }
    return Err(NoValidPair);
  }
}
