/** The whole decoder (morse_decoder.py:160-165): cut the signal into segments,
    estimate the timing unit, classify the segments into a code string and look
    the code up in the Morse table. */
module Pipeline {
  import opened Ratios
  import opened Outcome
  import opened Seqs
  import opened Signal
  import opened Segmenter
  import opened Timing
  import opened Classifier
  import opened LookupTable
  import opened MessageDecoder
  import opened Keyer

  /** What a successful decode yields: the code string and the plain text. */
  datatype Decoded = Decoded(code: string, message: string)

  /** A unit estimated from segments that all outlast the noise threshold is at
      least one sample, so classification never divides by zero after it. */
  lemma DotLengthPositive(segs: seq<Segment>)
    requires forall k :: 0 <= k < |segs| ==> segs[k].length > Threshold
    ensures DotLength(segs).Ok? ==> DotLength(segs).value >= 1
  {
    var r := DotLength(segs);
    DotLengthFromFirstPair(segs);
    if r.Ok? {
      var i: nat, j: nat :| FirstWidePair(segs, i, j) &&
        r == CalcDotLength(segs[i].length, segs[j].length, RelationOf(segs[i].length, segs[j].length));
      assert Min(segs[i].length, segs[j].length) >= 7;
    }
  }

  function DecodeSignal(samples: seq<int>): (r: Result<Decoded>)
    ensures r == Err(NoValidPair) <==> !HasWidePair(Segments(Binarize(samples)))
    ensures r != Err(DivisionByZero)
    ensures r.Ok? ==> forall k :: 0 <= k < |r.value.code| ==> IsCodeSymbol(r.value.code[k])
    ensures r.Ok? ==>
      Count(r.value.code, '.') + Count(r.value.code, '-') == MarkCount(Segments(Binarize(samples)))
    ensures r.Ok? ==> Count(r.value.message, ' ') == Count(r.value.code, '/')
  {
    var segs := Segments(Binarize(samples));
    DotLengthPositive(segs);
    var dot :- DotLength(segs);
    var code :- CodeText(segs, dot);
    TableShape();
    DecodeSpaces(MorseTable, code);
    Ok(Decoded(code, Decode(MorseTable, code)))
  }

  method StartDecode(samples: seq<int>) returns (r: Result<Decoded>)
    ensures r == DecodeSignal(samples)
  {
    var segs := GetSegmentsLengths(samples);
    var dot := FindDotLength(segs);
    if dot.Err? {
      return Err(dot.error);
    }
    var code := CalcMorseCodeText(segs, dot.value);
    if code.Err? {
      return Err(code.error);
    }
    var msg := DecodeMorseMsg(MorseTable, code.value);
    return Ok(Decoded(code.value, msg));
  }

  /** Keying a well-formed code that holds both a dot and a dash with a unit
      longer than the noise threshold, and decoding the clean signal, gives the
      code back together with its text. */
  lemma PipelineRoundTrip(code: string, unit: pos)
    requires unit > Threshold
    requires WellFormedCode(code) && '.' in code && '-' in code
    ensures DecodeSignal(Render(Synthesize(code, unit))) == Ok(Decoded(code, Decode(MorseTable, code)))
  {
    var segs := Synthesize(code, unit);
    var b := Render(segs);
    BinarizeFacts(b, b);
    SynthesizedAlternates(code, unit);
    SynthesizedDurations(code, unit);
    SegmentsOfRender(segs);
    DotLengthOfSynthesized(code, unit);
    ClassifySynthesized(code, unit);
  }

  lemma SosLetters()
    ensures "..." in Letters && Letters["..."] == 'S'
    ensures "---" in Letters && Letters["---"] == 'O'
  {
  }

  lemma SosNotDigitsOrPunctuation()
    ensures "..." !in Digits && "---" !in Digits
    ensures "..." !in Punctuation && "---" !in Punctuation
  {
  }

  /** The Morse table sends S as three dots and O as three dashes. */
  lemma SosKeys()
    ensures "..." in MorseTable && MorseTable["..."] == 'S'
    ensures "---" in MorseTable && MorseTable["---"] == 'O'
  {
    SosLetters();
    SosNotDigitsOrPunctuation();
  }

  /** In any well-formed table that sends S as "..." and O as "---",
      "... --- ..." decodes to "SOS". */
  lemma DecodeSosWith(table: map<string, char>)
    requires WellFormedTable(table)
    requires "..." in table && table["..."] == 'S'
    requires "---" in table && table["---"] == 'O'
    ensures Decode(table, "... --- ...") == "SOS"
  {
    var tokens := ["...", "---", "..."];
    assert JoinLetters(tokens[2..]) == "...";
    assert JoinLetters(tokens[1..]) == "---" + " " + "...";
    assert JoinLetters(tokens) == "... --- ...";
    DecodeJoinedLetters(table, tokens);
  }

  /** "... --- ..." decodes to "SOS" with the Morse table. */
  lemma DecodeSos()
    ensures Decode(MorseTable, "... --- ...") == "SOS"
  {
    SosKeys();
    TableShape();
    DecodeSosWith(MorseTable);
  }

  /** Seven dots are no key of the Morse table (its keys have at most six
      symbols), so they decode to nothing. */
  lemma SevenDotsSkipped()
    ensures Decode(MorseTable, ".......") == ""
  {
    TableShape();
    assert !IsToken(".......");
    DecodeUnknownToken(MorseTable, ".......");
  }

  /** SOS keyed at twenty samples per unit decodes to "SOS". */
  lemma SosRoundTrip()
    ensures DecodeSignal(Render(Synthesize("... --- ...", 20))) == Ok(Decoded("... --- ...", "SOS"))
  {
    var code := "... --- ...";
    assert WellFormedCode(code);
    assert code[0] == '.' && code[4] == '-';
    PipelineRoundTrip(code, 20);
    DecodeSos();
  }
}
