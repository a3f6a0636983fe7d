/** The syntax highlighter of the JSON code block: a hand-written lexer that
    cuts the text into typed tokens, and the colour class of each type. */
module JsonCodeBlock {
  import opened Strings

  datatype TokenKind = Punct | Str | Number | Keyword | Whitespace | Other

  datatype Token = Token(kind: TokenKind, value: string)

  // ---------------------------------------------------------------------
  // Character classes

  /** The four characters the lexer treats as whitespace. */
  predicate IsJsonSpace(c: char) {
    c == ' ' || c == '\n' || c == '\t' || c == '\r'
  }

  predicate IsNumberStart(c: char) {
    ('0' <= c <= '9') || c == '-'
  }

  predicate IsNumberChar(c: char) {
    ('0' <= c <= '9') || c == '.' || c == 'e' || c == 'E' || c == '+' || c == '-'
  }

  predicate IsPunct(c: char) {
    c == '{' || c == '}' || c == '[' || c == ']' || c == ',' || c == ':'
  }

  // ---------------------------------------------------------------------
  // The reference lexer

  /** Where a run of whitespace that continues at `j` ends. */
  function SpaceEnd(src: string, j: nat): (k: nat)
    requires j <= |src|
    ensures j <= k <= |src|
    ensures forall m :: j <= m < k ==> IsJsonSpace(src[m])
    ensures k < |src| ==> !IsJsonSpace(src[k])
    decreases |src| - j
  {
    if j < |src| && IsJsonSpace(src[j]) then SpaceEnd(src, j + 1) else j
  }

  /** Where a run of number characters that continues at `j` ends. */
  function NumberEnd(src: string, j: nat): (k: nat)
    requires j <= |src|
    ensures j <= k <= |src|
    ensures forall m :: j <= m < k ==> IsNumberChar(src[m])
    ensures k < |src| ==> !IsNumberChar(src[k])
    decreases |src| - j
  {
    if j < |src| && IsNumberChar(src[j]) then NumberEnd(src, j + 1) else j
  }

  /** Where a string whose body continues at `j` ends: just past the first
      quote that is not escaped, or at the end of the text. `escaped` says
      that the previous character was an escaping backslash. */
  function StringEnd(src: string, j: nat, escaped: bool): (k: nat)
    requires j <= |src|
    ensures j <= k <= |src|
    ensures k == |src| || (j < k && src[k - 1] == '"')
    decreases |src| - j
  {
    if j == |src| then j
    else if escaped then StringEnd(src, j + 1, false)
    else if src[j] == '\\' then StringEnd(src, j + 1, true)
    else if src[j] == '"' then j + 1
    else StringEnd(src, j + 1, false)
  }

  /** The keyword the text starts with, tried in the order true, false, null. */
  function KeywordAt(s: string): (r: string)
    ensures r == "" || r == "true" || r == "false" || r == "null"
    ensures r != "" ==> StartsWith(s, r)
    ensures StartsWith(s, "true") ==> r == "true"
    ensures StartsWith(s, "false") ==> r == "false"
    ensures StartsWith(s, "null") ==> r == "null"
  {
    assert StartsWith(s, "true") ==> s[0] == 't';
    assert StartsWith(s, "false") ==> s[0] == 'f';
    assert StartsWith(s, "null") ==> s[0] == 'n';
    if StartsWith(s, "true") then "true"
    else if StartsWith(s, "false") then "false"
    else if StartsWith(s, "null") then "null"
    else ""
  }

  /** The token that starts at position `i`: one branch of the loop body. */
  function NextToken(src: string, i: nat): (t: Token)
    requires i < |src|
    ensures 0 < |t.value| <= |src| - i
  {
    var ch := src[i];
    if IsJsonSpace(ch) then Token(Whitespace, src[i..SpaceEnd(src, i + 1)])
    else if ch == '"' then Token(Str, src[i..StringEnd(src, i + 1, false)])
    else if IsNumberStart(ch) then Token(Number, src[i..NumberEnd(src, i + 1)])
    else if IsPunct(ch) then Token(Punct, [ch])
    else
      var kw := KeywordAt(src[i..]);
      if kw != "" then
        assert src[i..][..|kw|] == kw;
        Token(Keyword, kw)
      else Token(Other, [ch])
  }

  /** The next token is the text that follows `i`. */
  lemma NextTokenSlice(src: string, i: nat)
    requires i < |src|
    ensures src[i..i + |NextToken(src, i).value|] == NextToken(src, i).value
  {
  }

  /** The tokens of the text from position `i` on. */
  function Tokenize(src: string, i: nat): seq<Token>
    requires i <= |src|
    decreases |src| - i
  {
    if i == |src| then []
    else
      var t := NextToken(src, i);
      [t] + Tokenize(src, i + |t.value|)
  }

  /** Every token takes at least one character, so there are never more
      tokens than characters left. */
  lemma {:induction false} TokenCount(src: string, i: nat)
    requires i <= |src|
    ensures |Tokenize(src, i)| <= |src| - i
    decreases |src| - i
  {
    if i < |src| {
      TokenCount(src, i + |NextToken(src, i).value|);
    }
  }

  /** The token values, concatenated. */
  function Values(ts: seq<Token>): string {
    if |ts| == 0 then "" else ts[0].value + Values(ts[1..])
  }

  // ---------------------------------------------------------------------
  // tokenizeJson

  /** `push`: appends a token unless its value is empty. */
  method Push(out: seq<Token>, kind: TokenKind, value: string) returns (r: seq<Token>)
    ensures |value| > 0 ==> r == out + [Token(kind, value)]
    ensures |value| == 0 ==> r == out
  {
    r := out;
    if |value| > 0 {
      r := r + [Token(kind, value)];
    }
  }

  /** The inner loop of the whitespace branch. */
  method ScanSpace(src: string, i: nat) returns (j: nat)
    requires i < |src|
    ensures j == SpaceEnd(src, i + 1)
  {
    j := i + 1;
    while j < |src| && (src[j] == ' ' || src[j] == '\n' || src[j] == '\t' || src[j] == '\r')
      invariant i + 1 <= j <= |src|
      invariant SpaceEnd(src, j) == SpaceEnd(src, i + 1)
      decreases |src| - j
    {
      j := j + 1;
    }
  }

  /** The inner loop of the string branch, with its `escaped` flag. */
  method ScanString(src: string, i: nat) returns (j: nat)
    requires i < |src|
    ensures j == StringEnd(src, i + 1, false)
  {
    j := i + 1;
    var escaped := false;
    while j < |src|
      invariant i + 1 <= j <= |src|
      invariant StringEnd(src, j, escaped) == StringEnd(src, i + 1, false)
      decreases |src| - j
    {
      var c := src[j];
      if escaped {
        escaped := false;
        j := j + 1;
        continue;
      }
      if c == '\\' {
        escaped := true;
        j := j + 1;
        continue;
      }
      if c == '"' {
        j := j + 1;
        break;
      }
      j := j + 1;
    }
  }

  /** The inner loop of the number branch. */
  method ScanNumber(src: string, i: nat) returns (j: nat)
    requires i < |src|
    ensures j == NumberEnd(src, i + 1)
  {
    j := i + 1;
    while j < |src|
      invariant i + 1 <= j <= |src|
      invariant NumberEnd(src, j) == NumberEnd(src, i + 1)
      decreases |src| - j
    {
      var c := src[j];
      if ('0' <= c <= '9') || c == '.' || c == 'e' || c == 'E' || c == '+' || c == '-' {
        j := j + 1;
        continue;
      }
      break;
    }
  }

  /** One iteration of the scan: the next token moves from the rest of the
      text to the output, and the output and the rest still make up all the
      tokens. */
  lemma ScanAdvances(src: string, all: seq<Token>, out0: seq<Token>, i0: nat, out: seq<Token>, i: nat)
    requires i0 < |src| && out0 + Tokenize(src, i0) == all
    requires out == out0 + [NextToken(src, i0)] && i == i0 + |NextToken(src, i0).value|
    ensures i <= |src| && out + Tokenize(src, i) == all
  {
    TokenizeUnfold(src, i0, i);
    MoveFirst(all, out0, NextToken(src, i0), Tokenize(src, i), Tokenize(src, i0), out);
  }

  /** The first token, then the tokens after it. */
  lemma TokenizeUnfold(src: string, i0: nat, i: nat)
    requires i0 < |src| && i == i0 + |NextToken(src, i0).value|
    ensures Tokenize(src, i0) == [NextToken(src, i0)] + Tokenize(src, i)
  {
  }

  /** Moving the head of the rest to the end of the output keeps their
      concatenation. */
  lemma MoveFirst(all: seq<Token>, out0: seq<Token>, t: Token, rest: seq<Token>, mid: seq<Token>, out: seq<Token>)
    requires out0 + mid == all && mid == [t] + rest && out == out0 + [t]
    ensures out + rest == all
  {
    assert out0 + ([t] + rest) == (out0 + [t]) + rest;
  }

  /** tokenizeJson: scans the text once, left to right, emitting one token
      per iteration. */
  method TokenizeJson(src: string) returns (out: seq<Token>)
    ensures out == Tokenize(src, 0)
  {
    out := [];
    var i := 0;
    while i < |src|
      invariant i <= |src|
      invariant out + Tokenize(src, i) == Tokenize(src, 0)
      decreases |src| - i
    {
      var ch := src[i];
      ghost var t := NextToken(src, i);
      ghost var out0, i0 := out, i;
      if ch == ' ' || ch == '\n' || ch == '\t' || ch == '\r' {
        var j := ScanSpace(src, i);
        assert t == Token(Whitespace, src[i..j]);
        out := Push(out, Whitespace, src[i..j]);
        i := j;
        ScanAdvances(src, Tokenize(src, 0), out0, i0, out, i);
        continue;
      }
      if ch == '"' {
        var j := ScanString(src, i);
        assert t == Token(Str, src[i..j]);
        out := Push(out, Str, src[i..j]);
        i := j;
        ScanAdvances(src, Tokenize(src, 0), out0, i0, out, i);
        continue;
      }
      if ('0' <= ch <= '9') || ch == '-' {
        var j := ScanNumber(src, i);
        assert t == Token(Number, src[i..j]);
        out := Push(out, Number, src[i..j]);
        i := j;
        ScanAdvances(src, Tokenize(src, 0), out0, i0, out, i);
        continue;
      }
      if IsPunct(ch) {
        assert t == Token(Punct, [ch]);
        out := Push(out, Punct, [ch]);
        i := i + 1;
        ScanAdvances(src, Tokenize(src, 0), out0, i0, out, i);
        continue;
      }
      var rest := src[i..];
      if StartsWith(rest, "true") || StartsWith(rest, "false") || StartsWith(rest, "null") {
        var kw := if StartsWith(rest, "true") then "true"
          else if StartsWith(rest, "false") then "false" else "null";
        assert t == Token(Keyword, kw);
        out := Push(out, Keyword, kw);
        i := i + |kw|;
        ScanAdvances(src, Tokenize(src, 0), out0, i0, out, i);
        continue;
      }
      assert t == Token(Other, [ch]);
      out := Push(out, Other, [ch]);
      i := i + 1;
      ScanAdvances(src, Tokenize(src, 0), out0, i0, out, i);
    }
  }

  // ---------------------------------------------------------------------
  // What the tokens are

  /** The tokens concatenate back to the text they were cut from. */
  lemma {:induction false} TokenizeRoundTrip(src: string, i: nat)
    requires i <= |src|
    ensures Values(Tokenize(src, i)) == src[i..]
    decreases |src| - i
  {
    if i < |src| {
      var t := NextToken(src, i);
      var k := i + |t.value|;
      TokenizeRoundTrip(src, k);
      TokenizeUnfold(src, i, k);
      ValuesCons(t, Tokenize(src, k));
      NextTokenSlice(src, i);
      SliceSplit(src, i, k);
    }
  }

  lemma ValuesCons(t: Token, rest: seq<Token>)
    ensures Values([t] + rest) == t.value + Values(rest)
  {
    assert ([t] + rest)[1..] == rest;
  }

  lemma SliceSplit(s: string, i: nat, k: nat)
    requires i <= k <= |s|
    ensures s[i..] == s[i..k] + s[k..]
  {
  }

  /** What each kind of token can hold. */
  predicate WellFormed(t: Token) {
    && |t.value| > 0
    && (t.kind == Whitespace <==> IsJsonSpace(t.value[0]))
    && match t.kind
       case Whitespace => forall m :: 0 <= m < |t.value| ==> IsJsonSpace(t.value[m])
       case Str => t.value[0] == '"'
       case Number =>
         IsNumberStart(t.value[0]) && forall m :: 0 <= m < |t.value| ==> IsNumberChar(t.value[m])
       case Punct => |t.value| == 1 && IsPunct(t.value[0])
       case Keyword => t.value == "true" || t.value == "false" || t.value == "null"
       case Other => |t.value| == 1
  }

  /** Every token the lexer emits is well formed. */
  lemma NextTokenWellFormed(src: string, i: nat)
    requires i < |src|
    ensures WellFormed(NextToken(src, i))
  {
    NextTokenFirst(src, i);
    NextTokenKind(src, i);
  }

  predicate AllWellFormed(ts: seq<Token>) {
    forall k :: 0 <= k < |ts| ==> WellFormed(ts[k])
  }

  lemma {:induction false} TokensWellFormed(src: string, i: nat)
    requires i <= |src|
    ensures AllWellFormed(Tokenize(src, i))
    decreases |src| - i
  {
    if i < |src| {
      var t := NextToken(src, i);
      var j := i + |t.value|;
      NextTokenWellFormed(src, i);
      TokensWellFormed(src, j);
      TokenizeUnfold(src, i, j);
      WellFormedCons(t, Tokenize(src, j));
    }
  }

  lemma WellFormedCons(t: Token, rest: seq<Token>)
    requires WellFormed(t) && AllWellFormed(rest)
    ensures AllWellFormed([t] + rest)
  {
    var ts := [t] + rest;
    forall k | 0 <= k < |ts| ensures WellFormed(ts[k]) {
      if k > 0 {
        assert ts[k] == rest[k - 1];
      }
    }
  }

  /** A token starts with the character at its position. */
  lemma NextTokenFirst(src: string, i: nat)
    requires i < |src|
    ensures NextToken(src, i).value[0] == src[i]
  {
    NextTokenSlice(src, i);
    assert src[i..i + |NextToken(src, i).value|][0] == src[i];
  }

  /** The token from `i` is a whitespace token exactly when the character at
      `i` is whitespace. */
  lemma NextTokenKind(src: string, i: nat)
    requires i < |src|
    ensures NextToken(src, i).kind == Whitespace <==> IsJsonSpace(src[i])
  {
  }

  /** A whitespace token stops before the next non-whitespace character. */
  lemma WhitespaceTokenEnd(src: string, i: nat)
    requires i < |src| && NextToken(src, i).kind == Whitespace
    ensures var j := i + |NextToken(src, i).value|; j == |src| || !IsJsonSpace(src[j])
  {
  }

  predicate NoAdjacentWhitespace(ts: seq<Token>) {
    forall k :: 0 <= k < |ts| - 1 ==> !(ts[k].kind == Whitespace && ts[k + 1].kind == Whitespace)
  }

  lemma NoAdjacentCons(t: Token, rest: seq<Token>)
    requires NoAdjacentWhitespace(rest)
    requires |rest| > 0 && t.kind == Whitespace ==> rest[0].kind != Whitespace
    ensures NoAdjacentWhitespace([t] + rest)
  {
    var ts := [t] + rest;
    forall k | 0 <= k < |ts| - 1 ensures !(ts[k].kind == Whitespace && ts[k + 1].kind == Whitespace) {
      if k > 0 {
        assert ts[k] == rest[k - 1] && ts[k + 1] == rest[k];
      }
    }
  }

  /** Whitespace runs are maximal: no two whitespace tokens are adjacent. */
  lemma {:induction false} WhitespaceMaximal(src: string, i: nat)
    requires i <= |src|
    ensures NoAdjacentWhitespace(Tokenize(src, i))
    decreases |src| - i
  {
    if i < |src| {
      var t := NextToken(src, i);
      var j := i + |t.value|;
      WhitespaceMaximal(src, j);
      TokenizeUnfold(src, i, j);
      if j < |src| {
        TokenizeUnfold(src, j, j + |NextToken(src, j).value|);
        NextTokenKind(src, j);
        if t.kind == Whitespace {
          WhitespaceTokenEnd(src, i);
        }
      }
      NoAdjacentCons(t, Tokenize(src, j));
    }
  }

  /** A string token ends just past a closing quote, or runs to the end of
      the text when it is never closed. */
  lemma StringTokenEnd(src: string, i: nat)
    requires i < |src| && src[i] == '"'
    ensures var k := i + |NextToken(src, i).value|;
      NextToken(src, i).kind == Str && (k == |src| || (k >= i + 2 && src[k - 1] == '"'))
  {
  }

  /** A backslash escapes the next character: a quote right after it does not
      end the string. */
  lemma EscapedQuoteContinues(src: string, j: nat)
    requires j + 1 < |src| && src[j] == '\\' && src[j + 1] == '"'
    ensures StringEnd(src, j, false) == StringEnd(src, j + 2, false)
  {
  }

  /** A keyword is matched as a prefix, even when more letters follow. */
  lemma KeywordPrefix(src: string, i: nat, k: string)
    requires k == "true" || k == "false" || k == "null"
    requires i + |k| <= |src| && src[i..i + |k|] == k
    ensures NextToken(src, i) == Token(Keyword, k)
  {
    assert src[i] == k[0];
    assert StartsWith(src[i..], k);
  }

  // ---------------------------------------------------------------------
  // classFor

  /** The colour class of a token type. */
  function ClassFor(kind: TokenKind): (r: string)
    ensures r == "" <==> kind == Whitespace
  {
    match kind
    case Str => "text-emerald-600 dark:text-emerald-400"
    case Number => "text-sky-700 dark:text-sky-400"
    case Keyword => "text-violet-700 dark:text-violet-400"
    case Punct => "text-app-muted"
    case Other => "text-red-600"
    case Whitespace => ""
  }

  /** Distinct token types get distinct classes. */
  lemma ClassForInjective(a: TokenKind, b: TokenKind)
    ensures ClassFor(a) == ClassFor(b) ==> a == b
  {
  }
}
