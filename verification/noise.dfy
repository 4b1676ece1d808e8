/** The look-ahead test that tells a short blip of the opposite level from a real
    level change (morse_decoder.py:53-69). */
module NoiseFilter {
  import opened Signal

  /** The counting loop of `__isANoise` (morse_decoder.py:65-67): starting at sample `j` with `counter` samples
      already counted, count further samples that differ from `v`, stopping at the
      end of the signal, at a sample equal to `v`, or when the count reaches
      Threshold. */
  function NoiseCount(b: seq<Bit>, v: Bit, j: nat, counter: nat): (c: nat)
    decreases |b| - j
  {
    if j < |b| && b[j] != v && counter < Threshold then NoiseCount(b, v, j + 1, counter + 1)
    else counter
  }

  /** `b[index]` is noise with respect to the current level `v` unless the count
      started after `index` reaches Threshold. */
  predicate IsNoise(b: seq<Bit>, v: Bit, index: nat)
  {
    NoiseCount(b, v, index + 1, 0) < Threshold
  }

  /** A genuine level change at `index`: the Threshold samples after `index` all
      exist and all differ from `v`. The sample at `index` itself is not examined. */
  predicate Transition(b: seq<Bit>, v: Bit, index: nat)
  {
    index + Threshold < |b| && forall t :: index < t <= index + Threshold ==> b[t] != v
  }

  /** Sample `t` exists and differs from `v`. */
  predicate Differs(b: seq<Bit>, v: Bit, t: int)
  {
    0 <= t < |b| && b[t] != v
  }

  /** The samples at positions lo .. hi-1 all exist and all differ from `v`. */
  predicate AllDiffer(b: seq<Bit>, v: Bit, lo: nat, hi: nat)
  {
    forall t :: lo <= t < hi ==> Differs(b, v, t)
  }

  lemma {:induction false} NoiseCountReachesThreshold(b: seq<Bit>, v: Bit, j: nat, counter: nat)
    requires counter <= Threshold
    ensures NoiseCount(b, v, j, counter) <= Threshold
    ensures NoiseCount(b, v, j, counter) == Threshold <==> AllDiffer(b, v, j, j + (Threshold - counter))
    decreases |b| - j
  {
    if j < |b| && b[j] != v && counter < Threshold {
      NoiseCountReachesThreshold(b, v, j + 1, counter + 1);
      assert j + 1 + (Threshold - (counter + 1)) == j + (Threshold - counter);
      if AllDiffer(b, v, j + 1, j + (Threshold - counter)) {
        forall t | j <= t < j + (Threshold - counter)
          ensures Differs(b, v, t)
        {
          if t > j {
            assert j + 1 <= t < j + (Threshold - counter);
          }
        }
      }
    } else if counter < Threshold {
      assert !Differs(b, v, j) && j < j + (Threshold - counter);
    }
  }

  /** `IsNoise` is exactly the absence of a genuine level change. */
  lemma NoiseIff(b: seq<Bit>, v: Bit, index: nat)
    ensures IsNoise(b, v, index) <==> !Transition(b, v, index)
  {
    NoiseCountReachesThreshold(b, v, index + 1, 0);
    assert index + 1 + (Threshold - 0) == index + Threshold + 1;
    if !IsNoise(b, v, index) {
      assert AllDiffer(b, v, index + 1, index + Threshold + 1);
      assert Differs(b, v, index + Threshold);
      forall t | index < t <= index + Threshold
        ensures b[t] != v
      {
        assert Differs(b, v, t);
      }
    }
    if Transition(b, v, index) {
      forall t | index + 1 <= t < index + Threshold + 1
        ensures Differs(b, v, t)
      {
        assert index < t <= index + Threshold;
      }
      assert AllDiffer(b, v, index + 1, index + 1 + (Threshold - 0));
    }
  }

  /** The look-ahead loop of `__isANoise`, which counts at most Threshold differing samples after `index`. */
  method IsANoise(b: seq<Bit>, v: Bit, index: nat) returns (noise: bool)
    ensures noise == IsNoise(b, v, index)
    ensures noise <==> !Transition(b, v, index)
  {
    var j := index + 1;
    var counter := 0;
    while j < |b| && b[j] != v && counter < Threshold
      invariant counter <= Threshold
      invariant NoiseCount(b, v, j, counter) == NoiseCount(b, v, index + 1, 0)
      decreases |b| - j
    {
      j := j + 1;
      counter := counter + 1;
    }
    noise := counter < Threshold;
    NoiseIff(b, v, index);
  }

  /** Within the last Threshold samples the look-ahead cannot see Threshold samples,
      so every index there is reported as noise. */
  lemma TailIsNoise(b: seq<Bit>, v: Bit, index: nat)
    requires |b| <= index + Threshold
    ensures IsNoise(b, v, index)
  {
    NoiseIff(b, v, index);
  }

  /** A deviation that heals within Threshold samples is noise. */
  lemma HealedBlipIsNoise(b: seq<Bit>, v: Bit, index: nat, t: nat)
    requires index < t <= index + Threshold && t < |b| && b[t] == v
    ensures IsNoise(b, v, index)
  {
    NoiseIff(b, v, index);
  }

  /** The test looks only forward, so it gives the same answer on a suffix. */
  lemma NoiseOnSuffix(b: seq<Bit>, v: Bit, i: nat, index: nat)
    requires i <= index && i <= |b|
    ensures IsNoise(b, v, index) == IsNoise(b[i..], v, index - i)
  {
    NoiseIff(b, v, index);
    NoiseIff(b[i..], v, index - i);
    if Transition(b[i..], v, index - i) {
      forall t | index < t <= index + Threshold
        ensures b[t] != v
      {
        assert b[t] == b[i..][t - i];
      }
    }
    if Transition(b, v, index) {
      forall t | index - i < t <= index - i + Threshold
        ensures b[i..][t] != v
      {
        assert b[i..][t] == b[t + i];
      }
    }
  }
}
