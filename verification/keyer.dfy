/** A reference keyer: the segments that send a code string with ideal
    International Morse timing (ITU-R M.1677-1, part II) of `unit` samples per
    unit. A dot lasts one unit, a dash three, the gap inside a letter one, the
    gap between letters three and the gap between words seven. The decoder does
    not contain a keyer; it serves here as the inverse that the classifier and
    the timing-unit estimator are proved against. */
module Keyer {
  import opened Ratios
  import opened Outcome
  import opened Signal
  import opened Timing
  import opened Classifier

  predicate IsMarkSymbol(c: char)
  {
    c == '.' || c == '-'
  }

  /** A code string over the code alphabet. */
  predicate IsCode(code: string)
  {
    forall k :: 0 <= k < |code| ==> IsCodeSymbol(code[k])
  }

  /** A code string the classifier can produce from an alternating signal: no two
      separators are adjacent. */
  predicate WellFormedCode(code: string)
  {
    IsCode(code) &&
    forall k :: 0 <= k < |code| - 1 ==> IsMarkSymbol(code[k]) || IsMarkSymbol(code[k + 1])
  }

  /** The segment that keys one code symbol. */
  function Keyed(c: char, unit: pos): (seg: Segment)
    requires IsCodeSymbol(c)
    ensures seg.level == (if IsMarkSymbol(c) then 1 else 0)
  {
    match c
    case '.' => Segment(1, unit)
    case '-' => Segment(1, 3 * unit)
    case ' ' => Segment(0, 3 * unit)
    case _ => Segment(0, 7 * unit)
  }

  function Synthesize(code: string, unit: pos): (segs: seq<Segment>)
    requires IsCode(code)
    ensures |code| > 0 ==> |segs| > 0 && segs[0] == Keyed(code[0], unit)
    ensures |code| == 0 ==> segs == []
  {
    if |code| == 0 then []
    else
      var rest := Synthesize(code[1..], unit);
      if IsMarkSymbol(code[0]) && |code| > 1 && IsMarkSymbol(code[1]) then
        [Keyed(code[0], unit), Segment(0, unit)] + rest
      else [Keyed(code[0], unit)] + rest
  }

  /** The classifier reads a keyed symbol back, and reads the gap inside a letter
      as nothing. */
  lemma ClassifyKeyed(c: char, unit: pos)
    requires IsCodeSymbol(c)
    ensures ClassifySegment(Keyed(c, unit), unit) == Ok([c])
    ensures ClassifySegment(Segment(0, unit), unit) == Ok("")
  {
  }

  lemma CodeTextCons(seg: Segment, rest: seq<Segment>, dot: nat, c: string, tail: string)
    requires ClassifySegment(seg, dot) == Ok(c) && CodeText(rest, dot) == Ok(tail)
    ensures CodeText([seg] + rest, dot) == Ok(c + tail)
  {
    assert ([seg] + rest)[1..] == rest;
  }

  /** Classifying the keyed segments against the true unit gives the code back. */
  lemma {:induction false} ClassifySynthesized(code: string, unit: pos)
    requires IsCode(code)
    ensures CodeText(Synthesize(code, unit), unit) == Ok(code)
    decreases |code|
  {
    if |code| > 0 {
      var rest := Synthesize(code[1..], unit);
      ClassifySynthesized(code[1..], unit);
      ClassifyKeyed(code[0], unit);
      var head := Keyed(code[0], unit);
      if IsMarkSymbol(code[0]) && |code| > 1 && IsMarkSymbol(code[1]) {
        var gap := Segment(0, unit);
        CodeTextCons(gap, rest, unit, "", code[1..]);
        assert "" + code[1..] == code[1..];
        CodeTextCons(head, [gap] + rest, unit, [code[0]], code[1..]);
        assert [head, gap] + rest == [head] + ([gap] + rest);
      } else {
        CodeTextCons(head, rest, unit, [code[0]], code[1..]);
      }
      assert code == [code[0]] + code[1..];
    }
  }

  /** Every keyed segment lasts one, three or seven units. */
  lemma {:induction false} SynthesizedDurations(code: string, unit: pos)
    requires IsCode(code)
    ensures forall k :: 0 <= k < |Synthesize(code, unit)| ==>
      var d := Synthesize(code, unit)[k].length; d == unit || d == 3 * unit || d == 7 * unit
    decreases |code|
  {
    if |code| > 0 {
      SynthesizedDurations(code[1..], unit);
      var rest := Synthesize(code[1..], unit);
      var segs := Synthesize(code, unit);
      var m := |segs| - |rest|;
      assert segs[m..] == rest;
      forall k | m <= k < |segs|
        ensures segs[k].length == unit || segs[k].length == 3 * unit || segs[k].length == 7 * unit
      {
        assert segs[k] == rest[k - m];
      }
    }
  }

  /** Without adjacent separators the keyed segments alternate between mark and
      space. */
  lemma {:induction false} SynthesizedAlternates(code: string, unit: pos)
    requires WellFormedCode(code)
    ensures Alternating(Synthesize(code, unit))
    decreases |code|
  {
    if |code| > 1 {
      assert WellFormedCode(code[1..]);
      SynthesizedAlternates(code[1..], unit);
      var rest := Synthesize(code[1..], unit);
      var segs := Synthesize(code, unit);
      var m := |segs| - |rest|;
      assert segs[m..] == rest;
      assert IsMarkSymbol(code[0]) || IsMarkSymbol(code[1]);
      forall k | 0 <= k < |segs| - 1
        ensures segs[k].level != segs[k + 1].level
      {
        if k >= m {
          assert segs[k] == rest[k - m] && segs[k + 1] == rest[k + 1 - m];
        }
      }
    }
  }

  /** A dot of the code is keyed as a one-unit mark, a dash as a three-unit mark. */
  lemma {:induction false} SynthesizedMarks(code: string, unit: pos)
    requires IsCode(code)
    ensures '.' in code ==> Segment(1, unit) in Synthesize(code, unit)
    ensures '-' in code ==> Segment(1, 3 * unit) in Synthesize(code, unit)
    decreases |code|
  {
    if |code| > 0 {
      SynthesizedMarks(code[1..], unit);
      var rest := Synthesize(code[1..], unit);
      var segs := Synthesize(code, unit);
      var m := |segs| - |rest|;
      assert segs[m..] == rest;
      assert forall s :: s in rest ==> s in segs;
      if code[0] != '.' && '.' in code {
        assert '.' in code[1..] by {
          var k :| 0 <= k < |code| && code[k] == '.';
          assert code[1..][k - 1] == '.';
        }
      }
      if code[0] != '-' && '-' in code {
        assert '-' in code[1..] by {
          var k :| 0 <= k < |code| && code[k] == '-';
          assert code[1..][k - 1] == '-';
        }
      }
    }
  }

  /** Two keyed durations at least 2:1 apart resolve to the unit. */
  lemma KeyedPairResolves(a: pos, b: pos, unit: pos)
    requires a == unit || a == 3 * unit || a == 7 * unit
    requires b == unit || b == 3 * unit || b == 7 * unit
    requires AtLeastDouble(RelationOf(a, b))
    ensures CalcDotLength(a, b, RelationOf(a, b)) == Ok(unit)
  {
    var ka: pos := if a == unit then 1 else if a == 3 * unit then 3 else 7;
    var kb: pos := if b == unit then 1 else if b == 3 * unit then 3 else 7;
    assert a == ka * unit && b == kb * unit;
    if ka == kb {
      RelationOfSymmetric(a, b);
      assert false;
    }
    UnitMultiplesResolve(unit, ka, kb);
  }

  /** Keyed code with both a dot and a dash has two marks at least 2:1 apart. */
  lemma SynthesizedHasWidePair(code: string, unit: pos)
    requires IsCode(code) && '.' in code && '-' in code
    ensures HasWidePair(Synthesize(code, unit))
  {
    var segs := Synthesize(code, unit);
    SynthesizedMarks(code, unit);
    var p :| 0 <= p < |segs| && segs[p] == Segment(1, unit);
    var q :| 0 <= q < |segs| && segs[q] == Segment(1, 3 * unit);
    assert RelationOf(unit, 3 * unit) == RelationOf(3 * unit, unit) == Ratio(3 * unit, unit);
    if p < q {
      assert WidePair(segs, p, q);
    } else {
      assert WidePair(segs, q, p);
    }
  }

  /** The timing-unit estimator recovers the unit from any keyed code that holds
      both a dot and a dash. */
  lemma DotLengthOfSynthesized(code: string, unit: pos)
    requires IsCode(code) && '.' in code && '-' in code
    ensures DotLength(Synthesize(code, unit)) == Ok(unit)
  {
    var segs := Synthesize(code, unit);
    SynthesizedHasWidePair(code, unit);
    DotLengthFromFirstPair(segs);
    var r := DotLength(segs);
    var i: nat, j: nat :| FirstWidePair(segs, i, j) &&
      r == CalcDotLength(segs[i].length, segs[j].length, RelationOf(segs[i].length, segs[j].length));
    var a := segs[i].length;
    var b := segs[j].length;
    assert (a == unit || a == 3 * unit || a == 7 * unit) && (b == unit || b == 3 * unit || b == 7 * unit) by {
      SynthesizedDurations(code, unit);
    }
    KeyedPairResolves(a, b, unit);
  }
}
