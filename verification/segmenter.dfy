/** Cutting the binarized signal into (level, duration) segments
    (morse_decoder.py:29-50). */
module Segmenter {
  import opened Ratios
  import opened Signal
  import opened NoiseFilter
  import opened Seqs

  /** The inner loop of `__getSegmentsLengths`: the run that starts at `b[0]` has been extended
      up to (not including) `j`; keep extending while the next sample has the run's
      level or is noise. The result is where the run ends. */
  function RunEnd(b: seq<Bit>, j: nat): (e: nat)
    requires 0 < j <= |b|
    decreases |b| - j
    ensures j <= e <= |b|
    ensures forall k :: j <= k < e ==> b[k] == b[0] || IsNoise(b, b[0], k)
    ensures e < |b| ==> b[e] != b[0] && Transition(b, b[0], e)
  {
    if j < |b| && (b[j] == b[0] || IsNoise(b, b[0], j)) then RunEnd(b, j + 1)
    else
      NoiseIff(b, b[0], j);
      j
  }

  /** The partition of the signal into runs, before short runs are dropped:
      the runs cover every sample exactly once, in order; neighbouring runs have
      different levels; and a run that follows another is always longer than
      Threshold, because a level change needs Threshold samples of look-ahead. */
  function Runs(b: seq<Bit>): (runs: seq<Segment>)
    decreases |b|
    ensures SumLengths(runs) == |b|
    ensures |b| > 0 ==> |runs| > 0 && runs[0].level == b[0]
    ensures Alternating(runs)
    ensures forall k :: 0 < k < |runs| ==> runs[k].length > Threshold
  {
    if |b| == 0 then []
    else
      var n := RunEnd(b, 1);
      var rest := Runs(b[n..]);
      assert ([Segment(b[0], n)] + rest)[1..] == rest;
      assert forall k :: 0 < k < |rest| ==> ([Segment(b[0], n)] + rest)[k + 1] == rest[k];
      [Segment(b[0], n)] + rest
  }

  /** Where `Runs` cuts: the first run extends from `b[0]` over every sample of its
      level or that is noise, and ends exactly at the first real transition; the
      remaining runs are the partition of what follows that cut. */
  lemma RunsHead(b: seq<Bit>)
    requires |b| > 0
    ensures 0 < Runs(b)[0].length <= |b|
    ensures forall k :: 0 < k < Runs(b)[0].length ==> b[k] == b[0] || IsNoise(b, b[0], k)
    ensures (Runs(b)[0].length < |b| ==>
               b[Runs(b)[0].length] != b[0] && Transition(b, b[0], Runs(b)[0].length))
    ensures Runs(b)[1..] == Runs(b[Runs(b)[0].length..])
  {
    var n := RunEnd(b, 1);
    assert Runs(b) == [Segment(b[0], n)] + Runs(b[n..]);
  }

  /** The runs longer than Threshold, in order; shorter runs are dropped, not merged. */
  function LongRuns(runs: seq<Segment>): (segs: seq<Segment>)
    ensures |segs| <= |runs|
    ensures SumLengths(segs) <= SumLengths(runs)
    ensures forall k :: 0 <= k < |segs| ==> segs[k].length > Threshold && segs[k] in runs
    ensures forall k :: 0 <= k < |runs| && runs[k].length > Threshold ==> runs[k] in segs
  {
    if |runs| == 0 then []
    else
      var rest := LongRuns(runs[1..]);
      if runs[0].length > Threshold then
        assert ([runs[0]] + rest)[1..] == rest;
        [runs[0]] + rest
      else rest
  }

  /** A single run is kept exactly when it is longer than Threshold. */
  lemma LongRunsSingle(s: Segment)
    ensures LongRuns([s]) == if s.length > Threshold then [s] else []
  {
    assert [s][1..] == [];
  }

  /** Filtering distributes over concatenation: the kept runs stay in their
      chronological order, and runs on either side of a dropped one are not merged. */
  lemma {:induction false} LongRunsAppend(a: seq<Segment>, c: seq<Segment>)
    ensures LongRuns(a + c) == LongRuns(a) + LongRuns(c)
    decreases |a|
  {
    if |a| == 0 {
      assert a + c == c;
    } else {
      assert (a + c)[0] == a[0];
      assert (a + c)[1..] == a[1..] + c;
      LongRunsAppend(a[1..], c);
      if a[0].length > Threshold {
        ConcatAssoc([a[0]], LongRuns(a[1..]), LongRuns(c));
      }
    }
  }

  /** The segmenter: the long runs of the partition, in chronological order. */
  function Segments(b: seq<Bit>): (segs: seq<Segment>)
    ensures forall k :: 0 <= k < |segs| ==> segs[k].length > Threshold
    ensures SumLengths(segs) <= |b|
    ensures |b| <= Threshold ==> segs == []
    ensures segs == if |Runs(b)| > 0 && Runs(b)[0].length <= Threshold then Runs(b)[1..] else Runs(b)
  {
    var runs := Runs(b);
    if |runs| == 0 then LongRuns(runs)
    else
      LongRunsKeepsLong(runs[1..]);
      if runs[0].length > Threshold then
        LongRunsKeepsLong(runs);
        LongRuns(runs)
      else LongRuns(runs)
  }

  /** The outer loop of `__getSegmentsLengths` over the binarized samples. */
  method GetSegmentsLengths(samples: seq<int>) returns (segs: seq<Segment>)
    ensures segs == Segments(Binarize(samples))
  {
    var b := Binarize(samples);
    segs := [];
    var i := 0;
    assert b[0..] == b;
    while i < |b|
      invariant 0 <= i <= |b|
      invariant segs + Segments(b[i..]) == Segments(b)
      decreases |b| - i
    {
      var j := ScanRun(b, i);
      SegmentsStep(b, i, j);
      var emitted := if j - i > Threshold then [Segment(b[i], j - i)] else [];
      ghost var rest := Segments(b[j..]);
      assert Segments(b[i..]) == emitted + rest;
      ConcatAssoc(segs, emitted, rest);
      segs := segs + emitted;
      i := j;
    }
    assert b[i..] == [];
  }

  /** The inner loop of `__getSegmentsLengths` (morse_decoder.py:39-47): from `i`, advance while the sample equals
      `b[i]` or is noise. */
  method ScanRun(b: seq<Bit>, i: nat) returns (j: nat)
    requires i < |b|
    ensures i < j <= |b|
    ensures j - i == RunEnd(b[i..], 1)
  {
    ghost var s := b[i..];
    j := i + 1;
    while j < |b|
      invariant i < j <= |b|
      invariant RunEnd(s, j - i) == RunEnd(s, 1)
      decreases |b| - j
    {
      if b[j] == b[i] {
        assert s[j - i] == b[j];
        j := j + 1;
      } else {
        var noise := IsANoise(b, b[i], j);
        NoiseOnSuffix(b, b[i], i, j);
        if noise {
          j := j + 1;
        } else {
          break;
        }
      }
    }
  }

  /** One step of the outer loop: the run starting at `i` and ending at `j`
      contributes at most one segment, and the rest is segmented from `j`. */
  lemma SegmentsStep(b: seq<Bit>, i: nat, j: nat)
    requires i < j <= |b| && RunEnd(b[i..], 1) == j - i
    ensures Segments(b[i..]) ==
      (if j - i > Threshold then [Segment(b[i], j - i)] else []) + Segments(b[j..])
  {
    var s := b[i..];
    assert s[j - i..] == b[j..];
    var runs := Runs(s);
    assert runs == [Segment(b[i], j - i)] + Runs(b[j..]);
    assert runs[1..] == Runs(b[j..]);
  }

  /** Once the scan is within Threshold samples of the end, every remaining sample
      is noise, so the run extends to the end of the signal. */
  lemma {:induction false} RunEndInTail(b: seq<Bit>, j: nat)
    requires 0 < j <= |b| && |b| <= j + Threshold
    ensures RunEnd(b, j) == |b|
    decreases |b| - j
  {
    if j < |b| {
      TailIsNoise(b, b[0], j);
      RunEndInTail(b, j + 1);
    }
  }

  /** A run of `n` samples of level `b[0]` followed by a genuine level change (or
      the end of the signal) ends exactly at `n`. */
  lemma {:induction false} RunEndOfCleanRun(b: seq<Bit>, n: nat, j: nat)
    requires 0 < j <= n <= |b|
    requires forall k :: 0 <= k < n ==> b[k] == b[0]
    requires n < |b| ==> b[n] != b[0] && Transition(b, b[0], n)
    ensures RunEnd(b, j) == n
    decreases n - j
  {
    if j < n {
      RunEndOfCleanRun(b, n, j + 1);
    } else if n < |b| {
      NoiseIff(b, b[0], n);
    }
  }

  /** Rendering an alternating segment sequence whose segments after the first
      are longer than Threshold, and cutting it into runs, gives the segments back. */
  lemma {:induction false} RunsOfRender(segs: seq<Segment>)
    requires Alternating(segs)
    requires forall k :: 0 < k < |segs| ==> segs[k].length > Threshold
    ensures Runs(Render(segs)) == segs
    decreases |segs|
  {
    if |segs| > 0 {
      var v := segs[0].level;
      var n: nat := segs[0].length;
      var rest := segs[1..];
      var b := Render(segs);
      assert b == Repeat(v, n) + Render(rest);
      assert b[n..] == Render(rest);
      if |rest| > 0 {
        assert rest[0] == segs[1];
        var r := Render(rest);
        assert r == Repeat(rest[0].level, rest[0].length) + Render(rest[1..]);
        forall t | n < t <= n + Threshold
          ensures b[t] != v
        {
          assert b[t] == r[t - n];
        }
        assert b[n] == r[0];
      }
      RunEndOfCleanRun(b, n, 1);
      assert Alternating(rest) by {
        forall k | 0 <= k < |rest| - 1
          ensures rest[k].level != rest[k + 1].level
        {
          assert rest[k] == segs[k + 1] && rest[k + 1] == segs[k + 2];
        }
      }
      forall k | 0 < k < |rest|
        ensures rest[k].length > Threshold
      {
        assert rest[k] == segs[k + 1];
      }
      RunsOfRender(rest);
      assert segs == [Segment(v, n)] + rest;
    }
  }

  /** A clean rendering of segments longer than Threshold is segmented back into
      exactly those segments. */
  lemma SegmentsOfRender(segs: seq<Segment>)
    requires Alternating(segs)
    requires forall k :: 0 <= k < |segs| ==> segs[k].length > Threshold
    ensures Segments(Render(segs)) == segs
  {
    RunsOfRender(segs);
    LongRunsKeepsLong(segs);
  }

  lemma {:induction false} LongRunsKeepsLong(runs: seq<Segment>)
    requires forall k :: 0 <= k < |runs| ==> runs[k].length > Threshold
    ensures LongRuns(runs) == runs
    decreases |runs|
  {
    if |runs| > 0 {
      LongRunsKeepsLong(runs[1..]);
      assert runs == [runs[0]] + runs[1..];
    }
  }

  /** A blip of one opposite-level sample inside a run is absorbed: the whole
      signal is one run. */
  lemma BlipAbsorbed(v: Bit, w: Bit, before: nat, after: nat)
    requires 0 < before && 0 < after
    ensures Runs(Repeat(v, before) + [w] + Repeat(v, after)) == [Segment(v, before + 1 + after)]
  {
    var b := Repeat(v, before) + [w] + Repeat(v, after);
    assert b[0] == v;
    forall k | 1 <= k < |b|
      ensures b[k] == b[0] || IsNoise(b, b[0], k)
    {
      if k == before {
        if k + Threshold < |b| {
          HealedBlipIsNoise(b, v, k, k + 1);
        } else {
          TailIsNoise(b, v, k);
        }
      }
    }
    RunEndAbsorbs(b, 1);
    assert b[|b|..] == [];
  }

  /** When every sample from `j` on has the run's level or is noise, the run
      reaches the end of the signal. */
  lemma {:induction false} RunEndAbsorbs(b: seq<Bit>, j: nat)
    requires 0 < j <= |b|
    requires forall k :: j <= k < |b| ==> b[k] == b[0] || IsNoise(b, b[0], k)
    ensures RunEnd(b, j) == |b|
    decreases |b| - j
  {
    if j < |b| {
      RunEndAbsorbs(b, j + 1);
    }
  }
}
