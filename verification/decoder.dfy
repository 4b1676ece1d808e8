/** Decoding the code string into text (morse_decoder.py:130-157): a scanner
    that skips letter gaps, turns each word gap into a space, and looks every
    run of dots and dashes up in a table. The functions take the table as an
    argument; the pipeline passes the fixed table `MorseTable`. */
module MessageDecoder {
  import opened Seqs
  import opened LookupTable

  predicate IsSeparator(c: char)
  {
    c == ' ' || c == '/'
  }

  /** The length of the leading run of non-separators. */
  function TokenLength(code: string): (n: nat)
    ensures n <= |code|
    ensures forall k :: 0 <= k < n ==> !IsSeparator(code[k])
    ensures n < |code| ==> IsSeparator(code[n])
  {
    if |code| == 0 || IsSeparator(code[0]) then 0 else 1 + TokenLength(code[1..])
  }

  /** The character for a token; an unknown token contributes nothing. */
  function Lookup(table: map<string, char>, token: string): (r: string)
    ensures |r| <= 1
    ensures r != [] <==> token in table
    ensures r != [] ==> r[0] == table[token]
  {
    if token in table then [table[token]] else []
  }

  /** The decoded message: letter gaps are skipped, each word gap becomes a space,
      and each token is replaced by its table character or dropped. */
  function Decode(table: map<string, char>, code: string): (msg: string)
    decreases |code|
    ensures |msg| <= |code|
  {
    if |code| == 0 then ""
    else if code[0] == ' ' then Decode(table, code[1..])
    else if code[0] == '/' then " " + Decode(table, code[1..])
    else
      var n := 1 + TokenLength(code[1..]);
      Lookup(table, code[..n]) + Decode(table, code[n..])
  }

  /** Every character of the message is a space or a character of the table. */
  lemma {:induction false} DecodeAlphabet(table: map<string, char>, code: string)
    ensures forall k :: 0 <= k < |Decode(table, code)| ==>
      Decode(table, code)[k] == ' ' || Decode(table, code)[k] in table.Values
    decreases |code|
  {
    if |code| > 0 {
      if code[0] == ' ' || code[0] == '/' {
        DecodeAlphabet(table, code[1..]);
      } else {
        var n := 1 + TokenLength(code[1..]);
        DecodeAlphabet(table, code[n..]);
        var head := Lookup(table, code[..n]);
        var rest := Decode(table, code[n..]);
        forall k | 0 <= k < |head + rest|
          ensures (head + rest)[k] == ' ' || (head + rest)[k] in table.Values
        {
          if k >= |head| {
            assert (head + rest)[k] == rest[k - |head|];
          }
        }
      }
    }
  }

  /** With a table that produces no spaces, the message has exactly one space per
      word gap of the code. */
  lemma {:induction false} DecodeSpaces(table: map<string, char>, code: string)
    requires WellFormedTable(table)
    ensures Count(Decode(table, code), ' ') == Count(code, '/')
    decreases |code|
  {
    if |code| > 0 {
      if code[0] == ' ' {
        DecodeSpaces(table, code[1..]);
      } else if code[0] == '/' {
        DecodeSpaces(table, code[1..]);
        assert (" " + Decode(table, code[1..]))[1..] == Decode(table, code[1..]);
      } else {
        var n := 1 + TokenLength(code[1..]);
        DecodeSpaces(table, code[n..]);
        var token := code[..n];
        assert code == token + code[n..];
        CountConcat(token, code[n..], '/');
        forall k | 0 <= k < |token|
          ensures token[k] != '/'
        {
          if k > 0 {
            assert token[k] == code[1..][k - 1];
          }
        }
        CountAbsent(token, '/');
        var head := Lookup(table, token);
        CountConcat(head, Decode(table, code[n..]), ' ');
        if head != [] {
          assert head == [head[0]];
        }
      }
    }
  }

  /** The scanning loop of `__decodeMorseMsg` (morse_decoder.py:133-155). */
  method DecodeMorseMsg(table: map<string, char>, code: string) returns (msg: string)
    ensures msg == Decode(table, code)
  {
    var i := 0;
    msg := "";
    assert code[0..] == code;
    while i < |code|
      invariant 0 <= i <= |code|
      invariant msg + Decode(table, code[i..]) == Decode(table, code)
      decreases |code| - i
    {
      if code[i] == ' ' {
        assert Decode(table, code[i..]) == Decode(table, code[i + 1..]) by {
          DecodeHead(table, code, i);
        }
        i := i + 1;
        continue;
      } else if code[i] == '/' {
        assert msg + Decode(table, code[i..]) == (msg + " ") + Decode(table, code[i + 1..]) by {
          DecodeHead(table, code, i);
          ConcatAssoc(msg, " ", Decode(table, code[i + 1..]));
        }
        msg := msg + " ";
        i := i + 1;
        continue;
      }
      var j := ScanToken(code, i);
      var found := if code[i..j] in table then [table[code[i..j]]] else [];
      assert msg + Decode(table, code[i..]) == (msg + found) + Decode(table, code[j..]) by {
        DecodeTokenAt(table, code, i, j);
        ConcatAssoc(msg, found, Decode(table, code[j..]));
      }
      msg := msg + found;
      i := j;
    }
    assert msg + [] == msg;
  }

  /** Decoding the suffix from `i` when it starts with a separator. */
  lemma DecodeHead(table: map<string, char>, code: string, i: nat)
    requires i < |code| && IsSeparator(code[i])
    ensures Decode(table, code[i..]) ==
      (if code[i] == '/' then " " else "") + Decode(table, code[i + 1..])
  {
    assert code[i..][1..] == code[i + 1..];
  }

  /** Decoding the suffix from `i` when a token occupies positions i .. j-1. */
  lemma DecodeTokenAt(table: map<string, char>, code: string, i: nat, j: nat)
    requires i < j <= |code| && !IsSeparator(code[i]) && TokenLength(code[i + 1..]) == j - i - 1
    ensures Decode(table, code[i..]) == Lookup(table, code[i..j]) + Decode(table, code[j..])
  {
    var s := code[i..];
    assert s[1..] == code[i + 1..];
    assert s[..j - i] == code[i..j];
    assert s[j - i..] == code[j..];
    DecodeStep(table, s, j - i);
  }

  /** The token scan of `__decodeMorseMsg` (morse_decoder.py:146-147): the end of the token starting at `i`. */
  method ScanToken(code: string, i: nat) returns (j: nat)
    requires i < |code| && !IsSeparator(code[i])
    ensures i < j <= |code|
    ensures TokenLength(code[i + 1..]) == j - i - 1
  {
    j := i + 1;
    while j < |code| && code[j] != ' ' && code[j] != '/'
      invariant i < j <= |code|
      invariant forall k :: i < k < j ==> !IsSeparator(code[k])
      decreases |code| - j
    {
      j := j + 1;
    }
    TokenLengthIs(code[i + 1..], j - i - 1);
  }

  /** Decoding a code string that starts with a token of length `n`. */
  lemma DecodeStep(table: map<string, char>, s: string, n: nat)
    requires 0 < n <= |s| && !IsSeparator(s[0]) && TokenLength(s[1..]) == n - 1
    ensures Decode(table, s) == Lookup(table, s[..n]) + Decode(table, s[n..])
  {
  }

  /** The token length is the position of the first separator. */
  lemma TokenLengthIs(s: string, n: nat)
    requires n <= |s|
    requires forall k :: 0 <= k < n ==> !IsSeparator(s[k])
    requires n < |s| ==> IsSeparator(s[n])
    ensures TokenLength(s) == n
  {
  }

  /** A single token decodes to its table character, or to nothing when the
      table does not know it. */
  lemma DecodeToken(table: map<string, char>, t: string)
    requires |t| > 0
    requires forall k :: 0 <= k < |t| ==> !IsSeparator(t[k])
    ensures Decode(table, t) == Lookup(table, t)
  {
    TokenLengthIs(t[1..], |t| - 1);
    assert t[..|t|] == t;
    assert t[|t|..] == [];
  }

  /** Decoding any key of a well-formed table gives its character. */
  lemma DecodeKey(table: map<string, char>, t: string)
    requires WellFormedTable(table) && t in table
    ensures Decode(table, t) == [table[t]]
  {
    assert IsToken(t);
    DecodeToken(table, t);
  }

  /** An unknown token is skipped without error. */
  lemma DecodeUnknownToken(table: map<string, char>, t: string)
    requires |t| > 0 && t !in table
    requires forall k :: 0 <= k < |t| ==> !IsSeparator(t[k])
    ensures Decode(table, t) == ""
  {
    DecodeToken(table, t);
  }

  /** A separator splits the decoding: a letter gap adds nothing, a word gap adds
      one space. */
  lemma {:induction false} DecodeSplit(table: map<string, char>, x: string, c: char, y: string)
    requires IsSeparator(c)
    ensures Decode(table, x + [c] + y) ==
      Decode(table, x) + (if c == '/' then " " else "") + Decode(table, y)
    decreases |x|
  {
    var s := x + [c] + y;
    if |x| == 0 {
      assert s == [c] + y;
      assert s[1..] == y;
    } else if IsSeparator(x[0]) {
      DecodeSplit(table, x[1..], c, y);
      DecodeSplitAfterSeparator(table, x, c, y);
    } else {
      var n := 1 + TokenLength(x[1..]);
      DecodeSplit(table, x[n..], c, y);
      DecodeSplitAfterToken(table, x, c, y, n);
    }
  }

  /** The step of `DecodeSplit` where `x` starts with a separator. */
  lemma DecodeSplitAfterSeparator(table: map<string, char>, x: string, c: char, y: string)
    requires IsSeparator(c) && |x| > 0 && IsSeparator(x[0])
    requires Decode(table, x[1..] + [c] + y) ==
      Decode(table, x[1..]) + (if c == '/' then " " else "") + Decode(table, y)
    ensures Decode(table, x + [c] + y) ==
      Decode(table, x) + (if c == '/' then " " else "") + Decode(table, y)
  {
    var s := x + [c] + y;
    assert s[1..] == x[1..] + [c] + y;
    var lead: string := if x[0] == '/' then " " else "";
    assert Decode(table, s) == lead + Decode(table, s[1..]);
    assert Decode(table, x) == lead + Decode(table, x[1..]);
    ConcatAssoc(lead, Decode(table, x[1..]) + (if c == '/' then " " else ""), Decode(table, y));
    ConcatAssoc(lead, Decode(table, x[1..]), if c == '/' then " " else "");
  }

  /** The step of `DecodeSplit` where `x` starts with a token of length `n`. */
  lemma DecodeSplitAfterToken(table: map<string, char>, x: string, c: char, y: string, n: nat)
    requires IsSeparator(c) && |x| > 0 && !IsSeparator(x[0]) && n == 1 + TokenLength(x[1..])
    requires Decode(table, x[n..] + [c] + y) ==
      Decode(table, x[n..]) + (if c == '/' then " " else "") + Decode(table, y)
    ensures Decode(table, x + [c] + y) ==
      Decode(table, x) + (if c == '/' then " " else "") + Decode(table, y)
  {
    var sep: string := if c == '/' then " " else "";
    var head := Lookup(table, x[..n]);
    var mid := Decode(table, x[n..]);
    var last := Decode(table, y);
    TokenBeforeSeparator(table, x, c, y, n);
    DecodeStep(table, x, n);
    ConcatAssoc(head, mid + sep, last);
    ConcatAssoc(head, mid, sep);
  }

  /** A token at the front of `x` stays the same token when a separator follows `x`. */
  lemma TokenBeforeSeparator(table: map<string, char>, x: string, c: char, y: string, n: nat)
    requires IsSeparator(c) && |x| > 0 && !IsSeparator(x[0]) && n == 1 + TokenLength(x[1..])
    ensures Decode(table, x + [c] + y) == Lookup(table, x[..n]) + Decode(table, x[n..] + [c] + y)
  {
    var s := x + [c] + y;
    assert s[1..] == x[1..] + [c] + y;
    TokenLengthIs(s[1..], n - 1);
    assert s[..n] == x[..n];
    assert s[n..] == x[n..] + [c] + y;
    DecodeStep(table, s, n);
  }

  /** Tokens joined by letter gaps. */
  function JoinLetters(tokens: seq<string>): string
  {
    if |tokens| == 0 then ""
    else if |tokens| == 1 then tokens[0]
    else tokens[0] + " " + JoinLetters(tokens[1..])
  }

  /** Decoding keys of a well-formed table joined by letter gaps gives their
      characters, in order. */
  lemma {:induction false} DecodeJoinedLetters(table: map<string, char>, tokens: seq<string>)
    requires WellFormedTable(table)
    requires forall k :: 0 <= k < |tokens| ==> tokens[k] in table
    ensures Decode(table, JoinLetters(tokens)) ==
      seq(|tokens|, k requires 0 <= k < |tokens| => table[tokens[k]])
    decreases |tokens|
  {
    if |tokens| == 1 {
      DecodeKey(table, tokens[0]);
    } else if |tokens| > 1 {
      DecodeKey(table, tokens[0]);
      DecodeJoinedLetters(table, tokens[1..]);
      DecodeSplit(table, tokens[0], ' ', JoinLetters(tokens[1..]));
    }
  }
}
