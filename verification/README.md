# Morse decoder model

A Dafny model of the decoding pipeline of `MorseCodeAnalyzer` (morse_decoder.py).
The model starts after the recording has been loaded. Each stage is a function or
method on sequences:

1. **Segmenter with noise filter** (`Signal`, `NoiseFilter`, `Segmenter`). Samples
   are binarized: nonzero becomes 1 and zero stays 0. The bits are then cut into
   (level, duration) runs. A sample of the other level is absorbed into the current
   run unless the next `Threshold` = 10 samples all exist and all differ from the
   run's level. Runs of at most 10 samples are dropped.
2. **Timing-unit estimator** (`Ratios`, `Timing`). This finds the first pair of
   segments, in nested `i < j` scan order, whose durations are at least 2:1 apart.
   It resolves the dot length from that pair's ratio band. The bands are the 1:3:7
   unit ratios of International Morse timing (ITU-R M.1677-1, part II). Each decimal
   bound (1.5, 2.5, 3.9, 6.0, 7.9, 2.0) is checked exactly by integer
   cross-multiplication, and `Ratios.BandsMatchRealComparisons` proves that each
   test equals the comparison on the exact quotient.
3. **Symbol classifier** (`Classifier`). Each segment becomes `.`, `-`, ` `, `/`
   or nothing, by its duration relative to the dot length. A mark outside the dot
   and dash bands is an error. A space outside the bands is skipped.
4. **Message decoder** (`LookupTable`, `MessageDecoder`). The code string is split
   on ` ` and `/`, and each token is looked up in the fixed Morse table. `/` adds a
   space and unknown tokens are skipped.

`Pipeline.DecodeSignal` composes the four stages, and `Pipeline.StartDecode` runs
the loop versions of the same stages. Each source loop is a `method` with loop
invariants. Each method is proved equal to a recursive specification function,
and the properties are stated on those functions.

The source has no encoder. The `Keyer` module is a reference keyer that turns a
code string into ideally timed segments. It serves as the inverse of the decoder:
classifying keyed segments gives the code back, and the estimator recovers the
unit. With `Signal.Render` it gives an end-to-end round trip,
`Pipeline.PipelineRoundTrip`.

Errors are a `Result` (module `Outcome`). The source's exceptions become:
- `NoValidPair`: no segment pair is at least 2:1 apart.
- `UnresolvableRatio`: the first such pair falls in no band.
- `SegmentOutOfRange`: a mark fits neither the dot nor the dash band.
- `DivisionByZero`: the `seg[1] / float(dotLength)` division with a zero dot
  length.

## Model

| member | source | states |
|---|---|---|
| Signal.BinarizeFacts | morse_decoder.py:35 | binarization keeps the length, maps exactly the zero samples to 0, and leaves an already binary signal unchanged |
| NoiseFilter.NoiseIff | morse_decoder.py:63-69 | a sample is noise exactly when the 10 samples after it do not all exist and all differ from the current level; the sample at `index` itself is never counted |
| NoiseFilter.IsANoise | morse_decoder.py:53-69 | the look-ahead loop returns the noise verdict, which holds iff no full 10-sample transition follows the index |
| NoiseFilter.TailIsNoise | morse_decoder.py:65-69 | any index within the last 10 positions is noise, because the look-ahead cannot reach 10 samples |
| NoiseFilter.HealedBlipIsNoise | morse_decoder.py:65-69 | if the current level comes back within the next 10 samples, the index is noise |
| NoiseFilter.NoiseCountReachesThreshold | morse_decoder.py:63-67 | the look-ahead counter never exceeds 10, and reaches 10 exactly when that many following samples exist and differ |
| Segmenter.RunEnd | morse_decoder.py:38-44 | a run ends at the first sample that differs from the run's first level and starts a full transition; every sample before it has the run's level or is noise |
| Segmenter.Runs | morse_decoder.py:36-48 | the runs partition the signal in order: their durations sum to its length, levels alternate, the first level is the first bit, and every run after the first is longer than 10 |
| Segmenter.RunsHead | morse_decoder.py:36-48 | where the partition cuts: the first run covers every sample after the first that has its level or is noise, ends exactly at the first real transition, and the remaining runs are the partition of the signal from that cut |
| Segmenter.LongRuns | morse_decoder.py:46-47 | a run is kept exactly when it is longer than 10: every kept segment is a long run, every long run is kept, and the kept runs are no more and no longer in total than the runs |
| Segmenter.Segments | morse_decoder.py:29-50 | every emitted segment is longer than 10, durations sum to at most the signal length, a signal of at most 10 samples gives no segments, and the output is the run partition in order with only its leading run dropped when that run is at most 10 samples |
| Segmenter.GetSegmentsLengths | morse_decoder.py:29-50 | the nested scan over the binarized samples yields exactly the long runs of the partition |
| Segmenter.ScanRun | morse_decoder.py:38-44 | the inner loop advances at least one sample and stops where the run ends |
| Segmenter.RunEndInTail | morse_decoder.py:39-42 | a run that reaches the last 10 samples extends to the end of the signal |
| Segmenter.RunEndAbsorbs | morse_decoder.py:39-42 | if every later sample has the run's level or is noise, the run reaches the end |
| Segmenter.BlipAbsorbed | morse_decoder.py:41-42 | one sample of the other level inside a run is absorbed: the whole stretch is a single run |
| Segmenter.LongRunsSingle | morse_decoder.py:46-47 | a single run is kept exactly when it is longer than 10 |
| Segmenter.LongRunsAppend | morse_decoder.py:46-48 | filtering distributes over concatenation, so the kept runs stay in chronological order and the runs around a dropped one are not merged |
| Segmenter.RunsOfRender | morse_decoder.py:36-48 | a clean rendering of alternating segments, all after the first longer than 10, is cut back into exactly those segments |
| Segmenter.SegmentsOfRender | morse_decoder.py:29-50 | a clean rendering of alternating segments longer than 10 is segmented back into exactly those segments |
| Segmenter.SegmentsStep | morse_decoder.py:46-48 | one outer step emits the run at `i` if it is longer than 10 and continues from its end |
| Ratios.BandsMatchRealComparisons | morse_decoder.py:86-90 | each integer band test equals the decimal comparison of the exact quotient |
| Timing.RelationOf | morse_decoder.py:72-76 | the ratio puts the larger duration over the smaller, so it is at least 1 and built from the two inputs |
| Timing.RelationOfSymmetric | morse_decoder.py:72-74 | the ratio does not depend on argument order and is at least 1 |
| Timing.CalcDotLength | morse_decoder.py:79-94 | for 3:1 or 7:1 bands the unit is the shorter duration; for the 7:3 band it is the longer duration divided by 7 (floor); any other ratio is an error; a resolved unit is at least the shorter duration over 7 |
| Timing.CalcDotLengthSymmetric | morse_decoder.py:82-83 | the result does not depend on the order of the two durations |
| Timing.UnitMultiplesResolve | morse_decoder.py:85-91 | two durations that are different multiples of 1, 3 or 7 of a unit are at least 2:1 apart and resolve to that unit |
| Timing.ScanPairs | morse_decoder.py:98-104 | scanning from a position with no earlier wide pair fails iff no wide pair exists, and otherwise returns the band result of the first wide pair |
| Timing.DotLength | morse_decoder.py:97-104 | the result is the band result of the first wide pair in nested order, later pairs are never tried, and the estimator fails with NoValidPair iff no pair is at least 2:1 apart |
| Timing.DotLengthFromFirstPair | morse_decoder.py:98-102 | whenever some pair is wide, the dot length is the band result of a first wide pair in nested scan order |
| Timing.FindDotLength | morse_decoder.py:97-104 | the nested loops compute the dot length of the first wide pair |
| Timing.FirstWidePairUnique | morse_decoder.py:98-102 | at most one pair is first in nested scan order |
| Timing.NoWidePairCases | morse_decoder.py:97-104 | fewer than two segments, or all durations equal, yield NoValidPair |
| Timing.FirstPairDecides | morse_decoder.py:100-102 | an unresolvable first wide pair is an error even when a later pair would resolve |
| Classifier.ClassifySegment | morse_decoder.py:110-125 | with q the duration over the dot length: a mark with q at most 1.5 gives `.`, a mark with q in [2.5, 3.9] gives `-`, any other mark is out of range; a space with q in [2.5, 3.9] gives ` `, in [6.0, 7.9] gives `/`, otherwise nothing; a zero dot length is the division error |
| Classifier.CodeText | morse_decoder.py:107-127 | the code has at most one symbol per segment over `.`, `-`, ` `, `/`, as many dots and dashes as mark segments, and fails exactly on a zero dot length or a mark that fits no band |
| Classifier.CodeTextSingle | morse_decoder.py:109-125 | the code text of one segment is that segment's symbol (or its error) |
| Classifier.CodeTextSplit | morse_decoder.py:109-127 | the code text of two consecutive stretches of segments is the first one's text followed by the second's, or the first error in segment order |
| Classifier.CalcMorseCodeText | morse_decoder.py:107-127 | the loop appends the symbols segment by segment and yields the classified code |
| LookupTable.TableShape | morse_decoder.py:8-16 | every key of the table is one to six dots and dashes and no value is a space |
| LookupTable.LetterKeys | morse_decoder.py:9-12 | every letter key is one of the 26 listed codes |
| LookupTable.LettersShape | morse_decoder.py:9-12 | letter keys are dot-dash tokens and letters are not spaces |
| LookupTable.DigitsShape | morse_decoder.py:12-13 | digit keys are dot-dash tokens and digits are not spaces |
| LookupTable.PunctuationShape | morse_decoder.py:14-15 | punctuation keys are dot-dash tokens and their values are not spaces |
| MessageDecoder.TokenLength | morse_decoder.py:145-147 | a token runs up to the first separator or the end of the code |
| MessageDecoder.Lookup | morse_decoder.py:149-153 | a known token gives its table value, an unknown one gives nothing |
| MessageDecoder.Decode | morse_decoder.py:130-157 | the message is no longer than the code |
| MessageDecoder.DecodeMorseMsg | morse_decoder.py:130-157 | the two-state scanner yields the decoded message |
| MessageDecoder.ScanToken | morse_decoder.py:145-147 | the token scan stops at the next separator or the end |
| MessageDecoder.DecodeAlphabet | morse_decoder.py:133-153 | every output character is a space or a table value |
| MessageDecoder.DecodeSpaces | morse_decoder.py:138-142 | for a table whose values are not spaces, the message has exactly as many spaces as the code has `/` |
| MessageDecoder.DecodeSplit | morse_decoder.py:134-142 | a separator splits decoding in two, a letter gap adds nothing and a word gap adds one space |
| MessageDecoder.DecodeToken | morse_decoder.py:145-150 | a code that is a single token decodes to its lookup |
| MessageDecoder.DecodeKey | morse_decoder.py:150 | decoding a single table key yields its value |
| MessageDecoder.DecodeUnknownToken | morse_decoder.py:151-153 | an unknown token is skipped without error |
| MessageDecoder.DecodeJoinedLetters | morse_decoder.py:133-155 | table keys joined by letter gaps decode to their values in order |
| Keyer.ClassifySynthesized | morse_decoder.py:107-127 | classifying ideally keyed segments against the true unit gives the code string back |
| Keyer.DotLengthOfSynthesized | morse_decoder.py:97-104 | the estimator recovers the true unit from any keyed code that holds both a dot and a dash |
| Pipeline.DotLengthPositive | morse_decoder.py:110 | a unit estimated from segments longer than 10 is at least 1, so the classifier's division never fails |
| Pipeline.DecodeSignal | morse_decoder.py:160-165 | the pipeline fails with NoValidPair iff no pair is 2:1 apart and never divides by zero; on success the code is over the four symbols, has a dot or dash per mark segment, and the message has a space per `/` |
| Pipeline.StartDecode | morse_decoder.py:160-165 | running the four loops in sequence computes the composed decoding |
| Pipeline.PipelineRoundTrip | morse_decoder.py:160-165 | a well-formed code holding a dot and a dash, keyed with a unit longer than 10 samples, decodes back to itself and its text |
| Pipeline.SosKeys | morse_decoder.py:10-11 | the table sends S as `...` and O as `---` |
| Pipeline.DecodeSos | morse_decoder.py:130-157 | `... --- ...` decodes to `SOS` |
| Pipeline.SevenDotsSkipped | morse_decoder.py:149-153 | seven dots are no key and decode to nothing |
| Pipeline.SosRoundTrip | morse_decoder.py:160-165 | SOS keyed at 20 samples per unit decodes to the code `... --- ...` and the text `SOS` |

## Left out

- `__init__` (morse_decoder.py:18-26) is left out: the file-existence check, reading the WAV file and the float normalization `(sig/256.0)*2 - 1` are I/O and floating point. The model starts from integer samples, and binarization is "nonzero becomes 1" as at line 35. The threshold is the constant 10 set at line 26.
- `plotSignal` and `getLookupTable` are left out: one only displays the signal and the other only returns the table.
- The two `print` calls in `startDecode` are not modelled. `Pipeline.DecodeSignal` returns the code string and the message instead.
- Raised exceptions are modelled as `Err` values of `Outcome.Result`; the exception types and messages are not modelled.
- Ratio tests use exact rational comparisons instead of IEEE-754 double division. They could differ from double rounding only for quotients within about one part in 10^15 of a band bound, i.e. for durations far beyond any recording.
- LookupTable.MorseTable is written as the union of three displays (letters, digits, punctuation) with disjoint keys instead of one literal of 48 entries. Same keys and values.
- The table has 48 entries (26 letters, 10 digits, 12 punctuation), which is what the code defines.
- MessageDecoder functions take the table as a parameter, and the pipeline always passes `MorseTable`; this keeps decoding proofs independent of the table's literal.
- MessageDecoder.Decode: its own contract states only the length bound; the alphabet, space count, splitting and lookup facts are stated by the lemmas listed above.
- The `Keyer` module is a reference construction that the source does not contain. Its lemmas are about the classifier, the estimator and the whole pipeline, not about an encoder in the source.
- Segment durations are positive integers (`pos`), as every run the segmenter cuts has at least one sample. The estimator and classifier are therefore not modelled on zero durations, which the source could only receive by being called with hand-made data.
