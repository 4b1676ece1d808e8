/** The fixed table from Morse code tokens to characters (morse_decoder.py:8-16).
    The source writes it as one dictionary literal; here it is the union of its
    letters, digits and punctuation, whose keys are disjoint. */
module LookupTable {

  const Letters: map<string, char> := map[
    ".-" := 'A', "-..." := 'B', "-.-." := 'C', "-.." := 'D', "." := 'E', "..-." := 'F', "--." := 'G',
    "...." := 'H', ".." := 'I', ".---" := 'J', "-.-" := 'K', ".-.." := 'L', "--" := 'M', "-." := 'N', "---" := 'O',
    ".--." := 'P', "--.-" := 'Q', ".-." := 'R', "..." := 'S', "-" := 'T', "..-" := 'U', "...-" := 'V', ".--" := 'W',
    "-..-" := 'X', "-.--" := 'Y', "--.." := 'Z'
  ]

  const Digits: map<string, char> := map[
    ".----" := '1', "..---" := '2', "...--" := '3', "....-" := '4',
    "....." := '5', "-...." := '6', "--..." := '7', "---.." := '8', "----." := '9', "-----" := '0'
  ]

  const Punctuation: map<string, char> := map[
    ".-.-.-" := '.', "--..--" := ',', "..--.." := '?', "-..-." := '/', ".--.-." := '@', "---..." := ':',
    "-.--.-" := ')', ".-..-." := '"', ".-.-." := '+', "-...-" := '=', "-.--." := '(', "-....-" := '-'
  ]

  const MorseTable: map<string, char> := Letters + Digits + Punctuation

  /** A token is one to six dots and dashes. */
  predicate IsToken(t: string)
  {
    1 <= |t| <= 6 && forall k :: 0 <= k < |t| ==> t[k] == '.' || t[k] == '-'
  }

  /** Every key is a token, and no character the table produces is a space. */
  predicate WellFormedTable(table: map<string, char>)
  {
    forall t :: t in table ==> IsToken(t) && table[t] != ' '
  }

  lemma TableShape()
    ensures WellFormedTable(MorseTable)
  {
    LettersShape();
    DigitsShape();
    PunctuationShape();
  }

  /** The keys of `Letters`, listed. */
  lemma LetterKeys(t: string)
    requires t in Letters
    ensures
      t == ".-" ||
      t == "-..." ||
      t == "-.-." ||
      t == "-.." ||
      t == "." ||
      t == "..-." ||
      t == "--." ||
      t == "...." ||
      t == ".." ||
      t == ".---" ||
      t == "-.-" ||
      t == ".-.." ||
      t == "--" ||
      t == "-." ||
      t == "---" ||
      t == ".--." ||
      t == "--.-" ||
      t == ".-." ||
      t == "..." ||
      t == "-" ||
      t == "..-" ||
      t == "...-" ||
      t == ".--" ||
      t == "-..-" ||
      t == "-.--" ||
      t == "--.."
  {
  }

  lemma LettersAreTokens()
    ensures forall t :: t in Letters ==> IsToken(t)
  {
    forall t | t in Letters
      ensures IsToken(t)
    {
      LetterKeys(t);
    }
  }

  lemma LettersAreNotSpace()
    ensures forall t :: t in Letters ==> Letters[t] != ' '
  {
    forall t | t in Letters
      ensures Letters[t] != ' '
    {
      LetterKeys(t);
    }
  }

  lemma LettersShape()
    ensures forall t :: t in Letters ==> IsToken(t) && Letters[t] != ' '
  {
    LettersAreTokens();
    LettersAreNotSpace();
  }

  lemma DigitsShape()
    ensures forall t :: t in Digits ==> IsToken(t) && Digits[t] != ' '
  {
    forall t | t in Digits
      ensures IsToken(t) && Digits[t] != ' '
    {
      assert
        t == ".----" ||
        t == "..---" ||
        t == "...--" ||
        t == "....-" ||
        t == "....." ||
        t == "-...." ||
        t == "--..." ||
        t == "---.." ||
        t == "----." ||
        t == "-----";
    }
  }

  lemma PunctuationShape()
    ensures forall t :: t in Punctuation ==> IsToken(t) && Punctuation[t] != ' '
  {
    forall t | t in Punctuation
      ensures IsToken(t) && Punctuation[t] != ' '
    {
      assert
        t == ".-.-.-" ||
        t == "--..--" ||
        t == "..--.." ||
        t == "-..-." ||
        t == ".--.-." ||
        t == "---..." ||
        t == "-.--.-" ||
        t == ".-..-." ||
        t == ".-.-." ||
        t == "-...-" ||
        t == "-.--." ||
        t == "-....-";
    }
  }
}
