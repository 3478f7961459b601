/**
 * parseInput: the raw command line is cut into words at spaces and newlines,
 * the way repeated `strtok_r(rest, " \n", &rest)` does, and the words are stored
 * one after another in the fixed argument array.
 */
module Tokenize {
  import opened Common

  /** The delimiter set handed to strtok_r. */
  predicate IsDelimiter(c: char) { c == ' ' || c == '\n' }

  /** What strtok_r can return as a token: non-empty and free of delimiters. */
  predicate IsWord(w: string) { |w| > 0 && forall i :: 0 <= i < |w| ==> !IsDelimiter(w[i]) }

  /** Tokenizer state after part of a line: the finished tokens and the token being read. */
  datatype Scan = Scan(done: seq<string>, word: string)

  /** Reading one more character: a delimiter ends a pending token, anything else extends it. */
  function Step(st: Scan, c: char): Scan
  {
    if IsDelimiter(c) then
      if st.word == [] then st else Scan(st.done + [st.word], [])
    else
      Scan(st.done, st.word + [c])
  }

  function ScanOf(s: string): Scan
    decreases |s|
  {
    if s == [] then Scan([], []) else Step(ScanOf(s[..|s| - 1]), s[|s| - 1])
  }

  /** End of the line: a pending token is the last one. */
  function Close(st: Scan): seq<string>
  {
    if st.word == [] then st.done else st.done + [st.word]
  }

  /** The tokens of a line, in the order strtok_r returns them. */
  function Tokens(line: string): seq<string>
  {
    Close(ScanOf(line))
  }

  /** The characters of a line that are not delimiters. */
  function Letters(s: string): string
    decreases |s|
  {
    if s == [] then []
    else Letters(s[..|s| - 1]) + (if IsDelimiter(s[|s| - 1]) then [] else [s[|s| - 1]])
  }

  /** The tokens written one after another, with nothing between them. */
  function Concat(ws: seq<string>): string
    decreases |ws|
  {
    if ws == [] then [] else Concat(ws[..|ws| - 1]) + ws[|ws| - 1]
  }

  /** Words separated by single spaces: a line as a user would type it. */
  function Join(ws: seq<string>): string
    decreases |ws|
  {
    if |ws| == 0 then []
    else if |ws| == 1 then ws[0]
    else Join(ws[..|ws| - 1]) + " " + ws[|ws| - 1]
  }

  ghost predicate ScanIsClean(st: Scan)
  {
    && (forall k :: 0 <= k < |st.done| ==> IsWord(st.done[k]))
    && (forall i :: 0 <= i < |st.word| ==> !IsDelimiter(st.word[i]))
  }

  lemma {:induction false} ScanOfIsClean(s: string)
    ensures ScanIsClean(ScanOf(s))
    decreases |s|
  {
    if s != [] {
      ScanOfIsClean(s[..|s| - 1]);
    }
  }

  /** Every token is non-empty and holds no space or newline. */
  lemma TokensAreWords(line: string)
    ensures forall k :: 0 <= k < |Tokens(line)| ==> IsWord(Tokens(line)[k])
  {
    ScanOfIsClean(line);
  }

  lemma {:induction false} ScanKeepsLetters(s: string)
    ensures Concat(ScanOf(s).done) + ScanOf(s).word == Letters(s)
    decreases |s|
  {
    if s != [] {
      var st := ScanOf(s[..|s| - 1]);
      ScanKeepsLetters(s[..|s| - 1]);
      var c := s[|s| - 1];
      if IsDelimiter(c) && st.word != [] {
        var done' := st.done + [st.word];
        assert done'[..|done'| - 1] == st.done;
      }
    }
  }

  /**
   * Nothing but delimiters is lost and nothing is reordered: the tokens, written
   * one after another, are the line with its spaces and newlines taken out.
   */
  lemma TokensKeepLetters(line: string)
    ensures Concat(Tokens(line)) == Letters(line)
  {
    ScanKeepsLetters(line);
    var st := ScanOf(line);
    if st.word != [] {
      var ts := st.done + [st.word];
      assert ts[..|ts| - 1] == st.done;
    }
  }

  /** Reading a delimiter-free stretch only extends the pending token. */
  lemma {:induction false} ScanWord(p: string, w: string)
    requires forall i :: 0 <= i < |w| ==> !IsDelimiter(w[i])
    ensures ScanOf(p + w) == Scan(ScanOf(p).done, ScanOf(p).word + w)
    decreases |w|
  {
    if w == [] {
      assert p + w == p;
    } else {
      var w' := w[..|w| - 1];
      assert (p + w)[..|p + w| - 1] == p + w';
      ScanWord(p, w');
    }
  }

  lemma {:induction false} ScanOfJoin(ws: seq<string>)
    requires |ws| > 0
    requires forall k :: 0 <= k < |ws| ==> IsWord(ws[k])
    ensures ScanOf(Join(ws)) == Scan(ws[..|ws| - 1], ws[|ws| - 1])
    decreases |ws|
  {
    if |ws| == 1 {
      ScanWord([], ws[0]);
      assert [] + ws[0] == ws[0];
    } else {
      var front := ws[..|ws| - 1];
      var w := ws[|ws| - 1];
      ScanOfJoin(front);
      assert front[..|front| - 1] + [front[|front| - 1]] == front;
      var spaced := Join(front) + " ";
      assert spaced[..|spaced| - 1] == Join(front);
      assert ScanOf(spaced) == Scan(front, []);
      ScanWord(spaced, w);
    }
  }

  /** Tokenizing words joined by single spaces gives back exactly those words. */
  lemma {:induction false} TokensOfJoin(ws: seq<string>)
    requires forall k :: 0 <= k < |ws| ==> IsWord(ws[k])
    ensures Tokens(Join(ws)) == ws
  {
    if |ws| > 0 {
      ScanOfJoin(ws);
      var st := ScanOf(Join(ws));
      assert st.word == ws[|ws| - 1] != [];
      calc {
        Tokens(Join(ws));
        Close(st);
        ws[..|ws| - 1] + [ws[|ws| - 1]];
        ws;
      }
    }
  }

  /** A typed line starts with the first character of its first word. */
  lemma {:induction false} JoinStartsWithFirstWord(ws: seq<string>)
    requires |ws| > 0 && IsWord(ws[0])
    ensures |Join(ws)| >= |ws[0]| && Join(ws)[0] == ws[0][0]
    decreases |ws|
  {
    if |ws| > 1 {
      JoinStartsWithFirstWord(ws[..|ws| - 1]);
    }
  }

  /** A trailing space or newline (getline keeps the newline) adds no token. */
  lemma TokensIgnoreTrailingDelimiter(s: string, c: char)
    requires IsDelimiter(c)
    ensures Tokens(s + [c]) == Tokens(s)
  {
    assert (s + [c])[..|s|] == s;
  }

  /** Reading further never takes a token back. */
  lemma {:induction false} TokenCountGrows(s: string, i: nat)
    requires i <= |s|
    ensures |Close(ScanOf(s[..i]))| <= |Tokens(s)|
    decreases |s| - i
  {
    if i == |s| {
      assert s[..i] == s;
    } else {
      TokenCountGrows(s, i + 1);
      assert s[..i + 1][..i] == s[..i];
    }
  }

  /**
   * parseInput: stores the tokens of `input` in `charArray` from index 0 on and
   * returns how many there are. The source checks no bound, so the line must not
   * hold more than MAXARG tokens.
   */
  method ParseInput(charArray: array<string>, input: string) returns (argCount: nat)
    requires charArray.Length == MAXARG
    requires |Tokens(input)| <= MAXARG
    modifies charArray
    ensures argCount == |Tokens(input)|
    ensures charArray[..argCount] == Tokens(input)
    ensures charArray[argCount..] == old(charArray[argCount..])
  {
    argCount := 0;
    var word: string := [];
    var i := 0;
    while i < |input|
      invariant 0 <= i <= |input|
      invariant argCount <= charArray.Length
      invariant ScanOf(input[..i]) == Scan(charArray[..argCount], word)
      invariant forall j :: argCount <= j < charArray.Length ==> charArray[j] == old(charArray[j])
    {
      assert ScanOf(input[..i + 1]) == Step(ScanOf(input[..i]), input[i]) by {
        assert input[..i + 1][..i] == input[..i];
      }
      if IsDelimiter(input[i]) {
        if word != [] {
          TokenCountGrows(input, i + 1);
          ghost var stored := charArray[..argCount];
          charArray[argCount] := word;
          assert charArray[..argCount + 1] == stored + [word];
          argCount := argCount + 1;
          word := [];
        }
      } else {
        word := word + [input[i]];
      }
      i := i + 1;
    }
    assert input[..i] == input;
    if word != [] {
      ghost var stored := charArray[..argCount];
      charArray[argCount] := word;
      assert charArray[..argCount + 1] == stored + [word];
      argCount := argCount + 1;
    }
    assert charArray[argCount..] == old(charArray[argCount..]);
  }
}
