/** Turning each segment into a code symbol by its duration in dot lengths
    (morse_decoder.py:107-127). */
module Classifier {
  import opened Ratios
  import opened Outcome
  import opened Signal
  import opened Seqs

  /** The code alphabet: dot, dash, letter gap, word gap. */
  predicate IsCodeSymbol(c: char)
  {
    c == '.' || c == '-' || c == ' ' || c == '/'
  }

  /** A mark lasts about one unit (a dot) or about three (a dash). */
  predicate MarkFits(seg: Segment, dot: pos)
  {
    UnitBand(Ratio(seg.length, dot)) || ThreeUnitBand(Ratio(seg.length, dot))
  }

  /** The symbol for one segment: a mark gives "." or "-", or fails when it fits
      neither; a space gives " " (three units), "/" (seven units) or nothing.
      The source divides by the dot length, which fails when it is 0. */
  function ClassifySegment(seg: Segment, dot: nat): (r: Result<string>)
    ensures r.Ok? ==> |r.value| <= 1 && forall k :: 0 <= k < |r.value| ==> IsCodeSymbol(r.value[k])
    ensures r.Ok? ==> Count(r.value, '.') + Count(r.value, '-') == (if seg.level == 1 then 1 else 0)
    ensures r == Err(DivisionByZero) <==> dot == 0
    ensures r == Err(SegmentOutOfRange) <==> dot > 0 && seg.level == 1 && !MarkFits(seg, dot)
    ensures r != Err(NoValidPair) && r != Err(UnresolvableRatio)
    ensures dot > 0 && seg.level == 1 && seg.length as real / dot as real <= 1.5 ==> r == Ok(".")
    ensures dot > 0 && seg.level == 1 && 2.5 <= seg.length as real / dot as real <= 3.9 ==> r == Ok("-")
    ensures dot > 0 && seg.level == 0 && 2.5 <= seg.length as real / dot as real <= 3.9 ==> r == Ok(" ")
    ensures dot > 0 && seg.level == 0 && 6.0 <= seg.length as real / dot as real <= 7.9 ==> r == Ok("/")
    ensures (dot > 0 && seg.level == 0 && !(2.5 <= seg.length as real / dot as real <= 3.9) &&
             !(6.0 <= seg.length as real / dot as real <= 7.9)) ==> r == Ok("")
  {
    if dot == 0 then Err(DivisionByZero)
    else
      var rel := Ratio(seg.length, dot);
      BandsMatchRealComparisons(rel);
      if seg.level == 1 then
        if UnitBand(rel) then Ok(".")
        else if ThreeUnitBand(rel) then Ok("-")
        else Err(SegmentOutOfRange)
      else if UnitBand(rel) then Ok("")
      else if ThreeUnitBand(rel) then Ok(" ")
      else if SevenUnitBand(rel) then Ok("/")
      else Ok("")
  }

  /** The code string of a segment sequence: the symbols of its segments, in order,
      or the error of the first segment that cannot be classified. */
  function CodeText(segs: seq<Segment>, dot: nat): (r: Result<string>)
    ensures r.Ok? ==> |r.value| <= |segs|
    ensures r.Ok? ==> forall k :: 0 <= k < |r.value| ==> IsCodeSymbol(r.value[k])
    ensures r.Ok? ==> Count(r.value, '.') + Count(r.value, '-') == MarkCount(segs)
    ensures r == Err(DivisionByZero) <==> dot == 0 && |segs| > 0
    ensures r.Err? <==>
      (|segs| > 0 && (dot == 0 || exists k :: 0 <= k < |segs| && segs[k].level == 1 && !MarkFits(segs[k], dot)))
    ensures r != Err(NoValidPair) && r != Err(UnresolvableRatio)
  {
    if |segs| == 0 then Ok("")
    else
      var s :- ClassifySegment(segs[0], dot);
      var rest :- CodeText(segs[1..], dot);
      CountConcat(s, rest, '.');
      CountConcat(s, rest, '-');
      Ok(s + rest)
  }

  /** A result with `code` put in front of its value; errors pass through. */
  function Prefixed(code: string, r: Result<string>): Result<string>
  {
    if r.Ok? then Ok(code + r.value) else r
  }

  /** Prefixing twice is prefixing with the concatenation. */
  lemma PrefixedTwice(a: string, b: string, r: Result<string>)
    ensures Prefixed(a, Prefixed(b, r)) == Prefixed(a + b, r)
  {
    if r.Ok? {
      assert a + (b + r.value) == (a + b) + r.value;
    }
  }

  /** The code text from segment `k` on: the symbol of segment `k` in front of
      the rest, or its error. */
  lemma CodeTextStep(segs: seq<Segment>, dot: nat, k: nat)
    requires k < |segs|
    ensures ClassifySegment(segs[k], dot).Err? ==>
      CodeText(segs[k..], dot) == Err(ClassifySegment(segs[k], dot).error)
    ensures ClassifySegment(segs[k], dot).Ok? ==>
      CodeText(segs[k..], dot) == Prefixed(ClassifySegment(segs[k], dot).value, CodeText(segs[k + 1..], dot))
  {
    assert segs[k..][0] == segs[k];
    assert segs[k..][1..] == segs[k + 1..];
  }

  /** One segment's code text is its classification. */
  lemma CodeTextSingle(s: Segment, dot: nat)
    ensures CodeText([s], dot) == ClassifySegment(s, dot)
  {
    assert [s][0] == s;
    assert [s][1..] == [];
    var r := ClassifySegment(s, dot);
    if r.Ok? {
      assert r.value + "" == r.value;
    }
  }

  /** The code text of two consecutive stretches of segments: the code text of the
      first followed by that of the second, or the first error met, in order. */
  lemma {:induction false} CodeTextSplit(a: seq<Segment>, c: seq<Segment>, dot: nat)
    ensures CodeText(a + c, dot) ==
      if CodeText(a, dot).Err? then CodeText(a, dot)
      else Prefixed(CodeText(a, dot).value, CodeText(c, dot))
    decreases |a|
  {
    if |a| == 0 {
      assert a + c == c;
      var rc := CodeText(c, dot);
      if rc.Ok? {
        assert "" + rc.value == rc.value;
      }
    } else {
      assert (a + c)[0] == a[0];
      assert (a + c)[1..] == a[1..] + c;
      CodeTextSplit(a[1..], c, dot);
      var s := ClassifySegment(a[0], dot);
      var rest := CodeText(a[1..], dot);
      if s.Ok? && rest.Ok? {
        PrefixedTwice(s.value, rest.value, CodeText(c, dot));
      }
    }
  }

  /** The loop of `__calcMorseCodeText` over the segments (morse_decoder.py:109-125). */
  method CalcMorseCodeText(segs: seq<Segment>, dot: nat) returns (r: Result<string>)
    ensures r == CodeText(segs, dot)
  {
    var code := "";
    var k := 0;
    assert segs[0..] == segs;
    PrefixedTwice("", "", CodeText(segs, dot));
    assert Prefixed("", CodeText(segs, dot)) == CodeText(segs, dot) by {
      var all := CodeText(segs, dot);
      if all.Ok? {
        assert "" + all.value == all.value;
      }
    }
    while k < |segs|
      invariant 0 <= k <= |segs|
      invariant CodeText(segs, dot) == Prefixed(code, CodeText(segs[k..], dot))
      decreases |segs| - k
    {
      var sym := ClassifySegment(segs[k], dot);
      CodeTextStep(segs, dot, k);
      if sym.Err? {
        return Err(sym.error);
      }
      PrefixedTwice(code, sym.value, CodeText(segs[k + 1..], dot));
      code := code + sym.value;
      k := k + 1;
    }
    assert code + "" == code;
    return Ok(code);
  }
}
