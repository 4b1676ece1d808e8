/** The two-level signal and the (level, duration) segments cut from it. */
module Signal {
  import opened Ratios

  /** Runs of at most this many samples are dropped, and a level change must
      last longer than this to count as real (morse_decoder.py:26). */
  const Threshold: nat := 10

  /** A binarized sample: 1 for tone on (a mark), 0 for silence (a space). */
  type Bit = b: int | 0 <= b <= 1

  /** A run of one level lasting `length` samples. */
  datatype Segment = Segment(level: Bit, length: pos)

  /** Every nonzero sample becomes 1, an exactly-zero sample stays 0. */
  function Binarize(samples: seq<int>): (b: seq<Bit>)
  {
    seq(|samples|, k requires 0 <= k < |samples| => if samples[k] != 0 then 1 else 0)
  }

  /** Binarizing keeps the length and the position of every silent sample,
      and a signal that is already binary is left as it is. */
  lemma BinarizeFacts(samples: seq<int>, bits: seq<Bit>)
    ensures |Binarize(samples)| == |samples|
    ensures forall k :: 0 <= k < |samples| ==> (Binarize(samples)[k] == 0 <==> samples[k] == 0)
    ensures Binarize(bits) == bits
  {
  }

  /** Total number of samples covered by the segments. */
  function SumLengths(segs: seq<Segment>): nat
  {
    if |segs| == 0 then 0 else segs[0].length + SumLengths(segs[1..])
  }

  /** Number of mark segments. */
  function MarkCount(segs: seq<Segment>): nat
  {
    if |segs| == 0 then 0 else (if segs[0].level == 1 then 1 else 0) + MarkCount(segs[1..])
  }

  /** Neighbouring segments have different levels. */
  predicate Alternating(segs: seq<Segment>)
  {
    forall k :: 0 <= k < |segs| - 1 ==> segs[k].level != segs[k + 1].level
  }

  /** `n` samples of level `v`. */
  function Repeat(v: Bit, n: nat): (b: seq<Bit>)
    ensures |b| == n
    ensures forall k :: 0 <= k < n ==> b[k] == v
  {
    seq(n, k => v)
  }

  /** The clean two-level signal that holds each segment's level for its duration. */
  function Render(segs: seq<Segment>): (b: seq<Bit>)
    ensures |b| == SumLengths(segs)
  {
    if |segs| == 0 then [] else Repeat(segs[0].level, segs[0].length) + Render(segs[1..])
  }
}
