/** The pure helpers of the PDF tool page in the renderer: parsing the page
    ranges the user types ("1-3,5,7-9"), removing duplicate directories, and
    naming exported page images. */
module PdfToolPage {
  import opened Outcomes
  import opened Strings

  // ---------------------------------------------------------------------
  // Splitting the input text: `text.split(/[,，\s]+/g).map(trim).filter(Boolean)`

  /** An ASCII comma, a full-width comma or JS whitespace. */
  predicate IsSeparator(c: char) {
    c == ',' || c == '\U{FF0C}' || IsJsWhitespace(c)
  }

  predicate SeparatorFree(s: string) {
    forall i :: 0 <= i < |s| ==> !IsSeparator(s[i])
  }

  /** The pieces between separators, empty ones included. Splitting on runs
      of separators instead only drops empty pieces, which the filter drops
      anyway. */
  function Pieces(s: string): (r: seq<string>)
    ensures |r| >= 1
    ensures forall k :: 0 <= k < |r| ==> SeparatorFree(r[k])
  {
    if |s| == 0 then [""]
    else
      var rest := Pieces(s[1..]);
      if IsSeparator(s[0]) then [""] + rest else [[s[0]] + rest[0]] + rest[1..]
  }

  /** `x.trim()` on every piece. */
  function TrimAll(parts: seq<string>): (r: seq<string>)
    ensures |r| == |parts|
    ensures forall k :: 0 <= k < |parts| ==> r[k] == Trim(parts[k])
  {
    seq(|parts|, k requires 0 <= k < |parts| => Trim(parts[k]))
  }

  /** `.filter(Boolean)`: the non-empty strings, in order. */
  function NonEmpty(parts: seq<string>): (r: seq<string>)
    ensures forall k :: 0 <= k < |r| ==> |r[k]| > 0
    ensures forall k :: 0 <= k < |r| ==> r[k] in parts
    ensures |r| <= |parts|
  {
    if |parts| == 0 then []
    else if |parts[0]| == 0 then NonEmpty(parts[1..])
    else [parts[0]] + NonEmpty(parts[1..])
  }

  /** The raw tokens of the range text. */
  function Tokens(text: string): seq<string> {
    NonEmpty(TrimAll(Pieces(text)))
  }

  /** The text with every separator removed. */
  function RemoveSeparators(s: string): string {
    if |s| == 0 then "" else (if IsSeparator(s[0]) then "" else [s[0]]) + RemoveSeparators(s[1..])
  }

  function Concat(parts: seq<string>): string {
    if |parts| == 0 then "" else parts[0] + Concat(parts[1..])
  }

  lemma {:induction false} PiecesConcat(s: string)
    ensures Concat(Pieces(s)) == RemoveSeparators(s)
    decreases |s|
  {
    if |s| > 0 {
      var rest := Pieces(s[1..]);
      PiecesConcat(s[1..]);
      if IsSeparator(s[0]) {
        assert ([""] + rest)[1..] == rest;
      } else {
        var r := [[s[0]] + rest[0]] + rest[1..];
        assert r[1..] == rest[1..];
        assert Concat(rest) == rest[0] + Concat(rest[1..]);
      }
    }
  }

  /** A piece holds no whitespace, so trimming leaves it as it is. */
  lemma TrimSeparatorFree(p: string)
    requires SeparatorFree(p)
    ensures Trim(p) == p
  {
    if |p| > 0 {
      assert !IsJsWhitespace(p[0]);
      assert TrimStart(p) == p;
      assert !IsJsWhitespace(p[|p| - 1]);
    }
  }

  lemma TrimAllPieces(s: string)
    ensures TrimAll(Pieces(s)) == Pieces(s)
  {
    var ps := Pieces(s);
    forall k | 0 <= k < |ps| ensures Trim(ps[k]) == ps[k] {
      TrimSeparatorFree(ps[k]);
    }
  }

  lemma {:induction false} NonEmptyConcat(parts: seq<string>)
    ensures Concat(NonEmpty(parts)) == Concat(parts)
    decreases |parts|
  {
    if |parts| > 0 {
      NonEmptyConcat(parts[1..]);
      if |parts[0]| > 0 {
        assert ([parts[0]] + NonEmpty(parts[1..]))[1..] == NonEmpty(parts[1..]);
      }
    }
  }

  /** The tokens are non-empty, hold no separator, and together are exactly
      the non-separator characters of the text, in order. */
  lemma TokensProperties(text: string)
    ensures forall k :: 0 <= k < |Tokens(text)| ==> |Tokens(text)[k]| > 0 && SeparatorFree(Tokens(text)[k])
    ensures Concat(Tokens(text)) == RemoveSeparators(text)
  {
    var ps := Pieces(text);
    TrimAllPieces(text);
    var ts := NonEmpty(ps);
    assert Tokens(text) == ts;
    forall k | 0 <= k < |ts| ensures SeparatorFree(ts[k]) {
      assert ts[k] in ps;
      var j :| 0 <= j < |ps| && ps[j] == ts[k];
    }
    PiecesConcat(text);
    NonEmptyConcat(ps);
  }

  /** A text with no separator in it is a single token. */
  lemma {:induction false} SingleToken(t: string)
    requires |t| > 0 && SeparatorFree(t)
    ensures Tokens(t) == [t]
  {
    TrimAllPieces(t);
    PiecesOfSeparatorFree(t);
  }

  lemma {:induction false} PiecesOfSeparatorFree(t: string)
    requires SeparatorFree(t)
    ensures Pieces(t) == [t]
    decreases |t|
  {
    if |t| > 0 {
      PiecesOfSeparatorFree(t[1..]);
      assert t == [t[0]] + t[1..];
    }
  }

  // ---------------------------------------------------------------------
  // One token: `/^(\d+)(?:\s*-\s*(\d+))?$/`

  /** A range as the page sends it, 1-based and inclusive. */
  datatype Range = Range(start: nat, end: nat)

  /** The length of the run of digits at the start of `s`. */
  function LeadingDigits(s: string): (n: nat)
    ensures n <= |s| && AllDigits(s[..n])
    ensures n < |s| ==> !IsDigit(s[n])
  {
    if |s| == 0 || !IsDigit(s[0]) then 0
    else
      var n := LeadingDigits(s[1..]);
      assert s[..n + 1] == [s[0]] + s[1..][..n];
      n + 1
  }

  /** What the regular expression captures: the first number and, when the
      token is a range, the second. Whitespace may surround the dash. */
  function MatchToken(t: string): (m: Option<(string, Option<string>)>)
    ensures m.Some? ==> StartsWith(t, m.value.0)
    ensures m.Some? && m.value.1.Some? ==> EndsWith(t, m.value.1.value)
    ensures m.Some? && m.value.1.None? ==> m.value.0 == t
  {
    var n := LeadingDigits(t);
    if n == 0 then None
    else if n == |t| then Some((t, None))
    else
      var rest := TrimStart(t[n..]);
      if |rest| == 0 || rest[0] != '-' then None
      else
        var second := TrimStart(rest[1..]);
        if |second| > 0 && AllDigits(second) then Some((t[..n], Some(second))) else None
  }

  /** One token: skipped when it does not match or holds a page number 0;
      otherwise the smaller number starts the range. */
  function ParseToken(t: string): (r: Option<Range>)
    ensures r.Some? ==> 1 <= r.value.start <= r.value.end
  {
    match MatchToken(t)
    case None => None
    case Some((m1, m2)) =>
      LeadingDigitsMatch(t);
      RangeOf(m1, if m2.Some? then m2.value else m1)
  }

  /** The range between two captured numbers; Number() of a digit string is
      its decimal value, and a 0 at either end skips the token. */
  function RangeOf(m1: string, m2: string): (r: Option<Range>)
    requires AllDigits(m1) && AllDigits(m2)
    ensures r.Some? ==> 1 <= r.value.start <= r.value.end
  {
    var a, b := DigitsValue(m1), DigitsValue(m2);
    if a <= 0 || b <= 0 then None
    else Some(Range(if a <= b then a else b, if a <= b then b else a))
  }

  lemma LeadingDigitsMatch(t: string)
    ensures MatchToken(t).Some? ==>
      && |MatchToken(t).value.0| > 0 && AllDigits(MatchToken(t).value.0)
      && (MatchToken(t).value.1.Some? ==> |MatchToken(t).value.1.value| > 0 && AllDigits(MatchToken(t).value.1.value))
  {
    var n := LeadingDigits(t);
    if n == |t| {
      assert t[..n] == t;
    }
  }

  /** A digit string alone matches as the first number. */
  lemma MatchDigits(d: string)
    requires |d| > 0 && AllDigits(d)
    ensures MatchToken(d) == Some((d, None))
  {
    AllDigitsLeading(d);
  }

  /** Every character of `s` is one `\s` matches. */
  predicate AllWhitespace(s: string) {
    forall i :: 0 <= i < |s| ==> IsJsWhitespace(s[i])
  }

  /** An accepted range token is exactly: digits, whitespace, one dash,
      whitespace, digits, with the two digit runs as the captures. */
  lemma MatchPairShape(t: string, d1: string, d2: string) returns (w1: string, w2: string)
    requires MatchToken(t) == Some((d1, Some(d2)))
    ensures |d1| > 0 && AllDigits(d1) && |d2| > 0 && AllDigits(d2)
    ensures AllWhitespace(w1) && AllWhitespace(w2)
    ensures t == d1 + (w1 + ("-" + (w2 + d2)))
  {
    var n := MatchPairParts(t, d1, d2);
    w1, w2 := PairPartsShape(t, n, d1, d2);
  }

  lemma PairPartsShape(t: string, n: nat, d1: string, d2: string) returns (w1: string, w2: string)
    requires 0 < n < |t| && d1 == t[..n]
    requires |TrimStart(t[n..])| > 0 && TrimStart(t[n..])[0] == '-'
    requires d2 == TrimStart(TrimStart(t[n..])[1..])
    ensures AllWhitespace(w1) && AllWhitespace(w2)
    ensures t == d1 + (w1 + ("-" + (w2 + d2)))
  {
    var u := t[n..];
    var rest := TrimStart(u);
    var v := rest[1..];
    w1 := WhitespacePrefix(u);
    w2 := WhitespacePrefix(v);
    DashHead(rest);
    SplitAt(t, n);
    ConcatShape(t, d1, u, w1, rest, v, w2, d2);
  }

  lemma DashHead(rest: string)
    requires |rest| > 0 && rest[0] == '-'
    ensures rest == "-" + rest[1..]
  {
  }

  lemma SplitAt(s: string, n: nat)
    requires n <= |s|
    ensures s == s[..n] + s[n..]
  {
  }

  lemma ConcatShape(t: string, d1: string, u: string, w1: string, rest: string, v: string, w2: string, d2: string)
    requires t == d1 + u && u == w1 + rest && rest == "-" + v && v == w2 + d2
    ensures t == d1 + (w1 + ("-" + (w2 + d2)))
  {
  }

  /** How MatchToken accepts a range token: after the leading digits, a dash
      once whitespace is dropped, and after it only digits once whitespace is
      dropped. */
  lemma MatchPairParts(t: string, d1: string, d2: string) returns (n: nat)
    requires MatchToken(t) == Some((d1, Some(d2)))
    ensures 0 < n < |t| && d1 == t[..n]
    ensures |TrimStart(t[n..])| > 0 && TrimStart(t[n..])[0] == '-'
    ensures d2 == TrimStart(TrimStart(t[n..])[1..])
    ensures |d1| > 0 && AllDigits(d1) && |d2| > 0 && AllDigits(d2)
  {
    LeadingDigitsMatch(t);
    n := LeadingDigits(t);
  }

  /** The whitespace that TrimStart removes. */
  lemma WhitespacePrefix(u: string) returns (w: string)
    ensures AllWhitespace(w) && u == w + TrimStart(u)
  {
    w := u[..|u| - |TrimStart(u)|];
    assert u == u[..|u| - |TrimStart(u)|] + u[|u| - |TrimStart(u)|..];
  }

  lemma {:induction false} TrimStartOfWhitespace(w: string, s: string)
    requires AllWhitespace(w) && (|s| == 0 || !IsJsWhitespace(s[0]))
    ensures TrimStart(w + s) == s
    decreases |w|
  {
    if |w| == 0 {
      assert w + s == s;
    } else {
      assert (w + s)[0] == w[0];
      assert (w + s)[1..] == w[1..] + s;
      TrimStartOfWhitespace(w[1..], s);
    }
  }

  /** Conversely, every token of that shape is accepted with those captures. */
  lemma MatchPairOf(d1: string, w1: string, w2: string, d2: string)
    requires |d1| > 0 && AllDigits(d1) && |d2| > 0 && AllDigits(d2)
    requires AllWhitespace(w1) && AllWhitespace(w2)
    ensures MatchToken(d1 + (w1 + ("-" + (w2 + d2)))) == Some((d1, Some(d2)))
  {
    var tail := w1 + ("-" + (w2 + d2));
    var t := d1 + tail;
    assert tail[0] == if |w1| > 0 then w1[0] else '-';
    LeadingDigitsOfPrefix(d1, tail);
    assert t[|d1|..] == tail;
    assert t[..|d1|] == d1;
    TrimStartOfWhitespace(w1, "-" + (w2 + d2));
    assert ("-" + (w2 + d2))[1..] == w2 + d2;
    TrimStartOfWhitespace(w2, d2);
  }

  /** A digit string alone gives its one-page range, or is skipped when its
      value is 0; leading zeros do not matter, as for `Number`. */
  lemma ParseSingle(d: string)
    requires |d| > 0 && AllDigits(d)
    ensures ParseToken(d) == if DigitsValue(d) >= 1 then Some(Range(DigitsValue(d), DigitsValue(d))) else None
  {
    MatchDigits(d);
  }

  /** `a - b`, with any whitespace around the dash, gives the range between
      the two values in either order, or is skipped when either is 0. */
  lemma ParsePair(d1: string, w1: string, w2: string, d2: string)
    requires |d1| > 0 && AllDigits(d1) && |d2| > 0 && AllDigits(d2)
    requires AllWhitespace(w1) && AllWhitespace(w2)
    ensures var a, b := DigitsValue(d1), DigitsValue(d2);
      ParseToken(d1 + (w1 + ("-" + (w2 + d2)))) ==
        if a == 0 || b == 0 then None
        else Some(Range(if a <= b then a else b, if a <= b then b else a))
  {
    MatchPairOf(d1, w1, w2, d2);
  }

  /** A token whose first or second captured number has the value 0 is
      skipped, however many zeros it is written with. */
  lemma ParseZero(t: string, d1: string, m2: Option<string>)
    requires MatchToken(t) == Some((d1, m2))
    requires AllDigits(d1) && (m2.Some? ==> AllDigits(m2.value))
    requires DigitsValue(d1) == 0 || (m2.Some? && DigitsValue(m2.value) == 0)
    ensures ParseToken(t) == None
  {
  }

  /** A token with a character other than a digit, a dash or whitespace is
      skipped. */
  lemma ParseRejectsOtherCharacters(t: string, i: nat)
    requires i < |t| && !TokenChar(t[i])
    ensures ParseToken(t) == None
  {
    MatchedCharacters(t);
  }

  /** A token that does not begin with a digit is skipped ("-3", " 1"). */
  lemma ParseRejectsNonDigitStart(t: string)
    requires |t| > 0 && !IsDigit(t[0])
    ensures ParseToken(t) == None
  {
    assert LeadingDigits(t) == 0;
  }

  /** A token that does not end with a digit is skipped ("1-", "1 "). */
  lemma ParseRejectsNonDigitEnd(t: string)
    requires |t| > 0 && !IsDigit(t[|t| - 1])
    ensures ParseToken(t) == None
  {
    match MatchToken(t)
    case None =>
    case Some((d1, m2)) =>
      if m2.Some? {
        var w1, w2 := MatchPairShape(t, d1, m2.value);
        assert false;
      } else {
        LeadingDigitsMatch(t);
        assert false;
      }
  }

  /** A token with two dashes is skipped ("1-2-3", "1--2"). */
  lemma ParseRejectsTwoDashes(t: string, i: nat, j: nat)
    requires i < j < |t| && t[i] == '-' && t[j] == '-'
    ensures ParseToken(t) == None
  {
    match MatchToken(t)
    case None =>
    case Some((d1, m2)) =>
      if m2.Some? {
        var w1, w2 := MatchPairShape(t, d1, m2.value);
        OnlyDash(t, d1, w1, w2, m2.value, i);
        OnlyDash(t, d1, w1, w2, m2.value, j);
      } else {
        LeadingDigitsMatch(t);
        assert false;
      }
  }

  /** In digits, whitespace, '-', whitespace, digits the dash is the only one. */
  lemma OnlyDash(t: string, d1: string, w1: string, w2: string, d2: string, k: nat)
    requires AllDigits(d1) && AllDigits(d2) && AllWhitespace(w1) && AllWhitespace(w2)
    requires t == d1 + (w1 + ("-" + (w2 + d2)))
    requires k < |t|
    ensures t[k] == '-' <==> k == |d1| + |w1|
  {
    var p := |d1| + |w1|;
    if k < |d1| {
      assert t[k] == d1[k];
    } else if k < p {
      assert t[k] == w1[k - |d1|];
    } else if p < k < p + 1 + |w2| {
      assert t[k] == w2[k - p - 1];
    } else if k >= p + 1 + |w2| {
      assert t[k] == d2[k - p - 1 - |w2|];
    }
  }

  /** Leading zeros are read by value. */
  lemma ParseLeadingZerosExample()
    ensures ParseToken("007") == Some(Range(7, 7))
  {
    ParseSingle("007");
    assert DigitsValue("007") == 7 by {
      assert "007"[..2] == "00" && "00"[..1] == "0" && "0"[..0] == "";
    }
  }

  /** The larger number may come first. */
  lemma ParseReversedPairExample()
    ensures ParseToken("05" + "-" + "3") == Some(Range(3, 5))
  {
    SmallValues();
    ParsePlainPair("05", "3");
  }

  /** Whitespace may surround the dash. */
  lemma ParseSpacedPairExample()
    ensures ParseToken("2" + (" " + ("-" + (" " + "4")))) == Some(Range(2, 4))
  {
    SmallValues();
    ParsePair("2", " ", " ", "4");
  }

  /** A pair written without whitespace. */
  lemma ParsePlainPair(d1: string, d2: string)
    requires |d1| > 0 && AllDigits(d1) && |d2| > 0 && AllDigits(d2)
    ensures var a, b := DigitsValue(d1), DigitsValue(d2);
      ParseToken(d1 + "-" + d2) ==
        if a == 0 || b == 0 then None
        else Some(Range(if a <= b then a else b, if a <= b then b else a))
  {
    assert d1 + "-" + d2 == d1 + ("" + ("-" + ("" + d2)));
    ParsePair(d1, "", "", d2);
  }

  lemma SmallValues()
    ensures DigitsValue("05") == 5 && DigitsValue("3") == 3
    ensures DigitsValue("2") == 2 && DigitsValue("4") == 4
  {
    assert "05"[..1] == "0" && "0"[..0] == "";
    assert "3"[..0] == "" && "2"[..0] == "" && "4"[..0] == "";
  }

  /** A page 0 however written is skipped. */
  lemma ParseZeroExamples()
    ensures ParseToken("00") == None
    ensures ParseToken("3" + "-" + "000") == None
  {
    ParseSingle("00");
    ParsePlainPair("3", "000");
  }

  /** Misplaced or repeated dashes are skipped. */
  lemma ParseDashExamples()
    ensures ParseToken("1-2-3") == None
    ensures ParseToken("1--2") == None
    ensures ParseToken("-3") == None
    ensures ParseToken("1-") == None
  {
    ParseRejectsTwoDashes("1-2-3", 1, 3);
    ParseRejectsTwoDashes("1--2", 1, 2);
    ParseRejectsNonDigitStart("-3");
    ParseRejectsNonDigitEnd("1-");
  }

  /** A character the expression can match: a digit, a dash or whitespace. */
  predicate TokenChar(c: char) {
    IsDigit(c) || c == '-' || IsJsWhitespace(c)
  }

  predicate AllTokenChars(s: string) {
    forall i :: 0 <= i < |s| ==> TokenChar(s[i])
  }

  /** A token the expression matches is made of digits, dashes and whitespace. */
  lemma MatchedCharacters(t: string)
    ensures MatchToken(t).Some? ==> AllTokenChars(t)
  {
    var n := LeadingDigits(t);
    if MatchToken(t).Some? {
      DigitsAreTokenChars(t[..n]);
      if n < |t| {
        DashTailTokenChars(t[n..]);
        TokenCharsSplit(t, n);
      } else {
        assert t[..n] == t;
      }
    }
  }

  /** Whitespace, a dash, whitespace and digits: the optional part of the
      expression. */
  lemma DashTailTokenChars(u: string)
    requires |TrimStart(u)| > 0 && TrimStart(u)[0] == '-'
    requires AllDigits(TrimStart(TrimStart(u)[1..]))
    ensures AllTokenChars(u)
  {
    var rest := TrimStart(u);
    var v := rest[1..];
    DigitsAreTokenChars(TrimStart(v));
    TokenCharsUnderTrim(v);
    TokenCharsSplit(rest, 1);
    TokenCharsUnderTrim(u);
  }

  lemma DigitsAreTokenChars(s: string)
    requires AllDigits(s)
    ensures AllTokenChars(s)
  {
  }

  lemma TokenCharsUnderTrim(s: string)
    requires AllTokenChars(TrimStart(s))
    ensures AllTokenChars(s)
  {
    var r := TrimStart(s);
    forall i | 0 <= i < |s| ensures TokenChar(s[i]) {
      if i >= |s| - |r| {
        assert s[i] == r[i - (|s| - |r|)];
      }
    }
  }

  lemma TokenCharsSplit(s: string, n: nat)
    requires n <= |s| && AllTokenChars(s[..n]) && AllTokenChars(s[n..])
    ensures AllTokenChars(s)
  {
    forall i | 0 <= i < |s| ensures TokenChar(s[i]) {
      if i < n {
        assert s[i] == s[..n][i];
      } else {
        assert s[i] == s[n..][i - n];
      }
    }
  }

  lemma AllDigitsLeading(t: string)
    requires AllDigits(t)
    ensures LeadingDigits(t) == |t|
  {
  }

  lemma {:induction false} LeadingDigitsOfPrefix(d: string, rest: string)
    requires AllDigits(d) && (|rest| == 0 || !IsDigit(rest[0]))
    ensures LeadingDigits(d + rest) == |d|
    decreases |d|
  {
    if |d| > 0 {
      LeadingDigitsOfPrefix(d[1..], rest);
      assert (d + rest)[1..] == d[1..] + rest;
    } else {
      assert d + rest == rest;
    }
  }

  lemma TrimStartNoWhitespace(s: string)
    requires |s| > 0 && !IsJsWhitespace(s[0])
    ensures TrimStart(s) == s
  {
  }

  // ---------------------------------------------------------------------
  // parseRanges

  /** The ranges of the tokens that parse, in token order. */
  function ParsedAll(tokens: seq<string>): (r: seq<Range>)
    ensures |r| <= |tokens|
    ensures forall k :: 0 <= k < |r| ==> 1 <= r[k].start <= r[k].end
  {
    if |tokens| == 0 then []
    else
      var init := ParsedAll(tokens[..|tokens| - 1]);
      var o := ParseToken(tokens[|tokens| - 1]);
      if o.Some? then init + [o.value] else init
  }

  /** A token that parses contributes exactly its range, in place. */
  lemma ParsedAllSnoc(tokens: seq<string>, t: string)
    ensures ParsedAll(tokens + [t]) == ParsedAll(tokens) + (if ParseToken(t).Some? then [ParseToken(t).value] else [])
  {
    assert (tokens + [t])[..|tokens|] == tokens;
  }

  lemma ParsedAllPrefix(tokens: seq<string>, k: nat)
    requires k < |tokens|
    ensures ParsedAll(tokens[..k + 1]) ==
      ParsedAll(tokens[..k]) + (if ParseToken(tokens[k]).Some? then [ParseToken(tokens[k]).value] else [])
  {
    assert tokens[..k + 1][..k] == tokens[..k];
  }

  /** parseRanges: the text is split into tokens and the tokens parsed. */
  method ParseRanges(text: string) returns (ranges: seq<Range>)
    ensures ranges == ParsedAll(Tokens(text))
    ensures |ranges| <= |Tokens(text)|
    ensures forall k :: 0 <= k < |ranges| ==> 1 <= ranges[k].start <= ranges[k].end
  {
    var raw := Tokens(text);
    ranges := CollectRanges(raw);
  }

  /** The loop of parseRanges: every token is parsed in turn and the ranges
      that parse are collected. */
  method CollectRanges(raw: seq<string>) returns (ranges: seq<Range>)
    ensures ranges == ParsedAll(raw)
  {
    ranges := [];
    for k := 0 to |raw|
      invariant ranges == ParsedAll(raw[..k])
    {
      ParsedAllPrefix(raw, k);
      var m := ParseToken(raw[k]);
      if m.None? {
        continue;
      }
      ranges := ranges + [m.value];
    }
    assert raw[..|raw|] == raw;
  }

  // ---------------------------------------------------------------------
  // uniq

  /** The elements of `xs` in first-occurrence order, each once (what a JS
      Set filled in order gives back). */
  function Dedup(xs: seq<string>): (r: seq<string>)
    ensures forall x :: x in r <==> x in xs
  {
    if |xs| == 0 then []
    else
      var init := Dedup(xs[..|xs| - 1]);
      assert forall x :: x in xs <==> x in xs[..|xs| - 1] || x == xs[|xs| - 1];
      if xs[|xs| - 1] in init then init else init + [xs[|xs| - 1]]
  }

  predicate NoDuplicates(r: seq<string>) {
    forall i, j :: 0 <= i < j < |r| ==> r[i] != r[j]
  }

  /** The first position of `x` in `xs`. */
  function FirstIndex(xs: seq<string>, x: string): (i: nat)
    requires x in xs
    ensures i < |xs| && xs[i] == x && forall k :: 0 <= k < i ==> xs[k] != x
  {
    if xs[0] == x then 0 else 1 + FirstIndex(xs[1..], x)
  }

  /** uniq keeps one copy of each element, and orders the copies by where each
      element first occurs. */
  lemma {:induction false} DedupProperties(xs: seq<string>)
    ensures NoDuplicates(Dedup(xs))
    ensures forall i, j :: 0 <= i < j < |Dedup(xs)| ==>
      FirstIndex(xs, Dedup(xs)[i]) < FirstIndex(xs, Dedup(xs)[j])
  {
    if |xs| > 0 {
      var n := |xs| - 1;
      var init := xs[..n];
      DedupProperties(init);
      var d := Dedup(init);
      assert xs == init + [xs[n]];
      forall y | y in init ensures FirstIndex(xs, y) == FirstIndex(init, y) {
        FirstIndexPrefix(init, xs[n], y);
      }
      forall i | 0 <= i < |d| ensures d[i] in init && FirstIndex(xs, d[i]) < |init| {
        assert d[i] in d;
      }
      if xs[n] !in d {
        assert xs[n] !in init;
        assert forall k :: 0 <= k < n ==> xs[k] == init[k];
        assert FirstIndex(xs, xs[n]) == n;
      }
    }
  }

  lemma FirstIndexPrefix(init: seq<string>, last: string, y: string)
    requires y in init
    ensures FirstIndex(init + [last], y) == FirstIndex(init, y)
  {
    var i := FirstIndex(init, y);
    var j := FirstIndex(init + [last], y);
    assert (init + [last])[i] == y;
    assert init[j] == y || j == |init|;
  }

  /** uniq: adds every element to a Set in order and returns its contents. */
  method Uniq(list: seq<string>) returns (r: seq<string>)
    ensures r == Dedup(list)
  {
    var seen: set<string> := {};
    r := [];
    for k := 0 to |list|
      invariant r == Dedup(list[..k])
      invariant seen == set x | x in r
    {
      assert list[..k + 1][..k] == list[..k];
      if list[k] !in seen {
        seen := seen + {list[k]};
        r := r + [list[k]];
      }
    }
    assert list[..|list|] == list;
  }

  // ---------------------------------------------------------------------
  // Exported page images

  /** `page_001.png` for page 1. */
  function PageImageName(page: nat): (name: string)
    ensures StartsWith(name, "page_") && EndsWith(name, ".png") && |name| >= 12
  {
    FileNameShape("page_", PadStart(NatToString(page), 3, '0'), ".png");
    "page_" + PadStart(NatToString(page), 3, '0') + ".png"
  }

  /** Between `page_` and `.png` sit at least three digits whose value is
      the page number. */
  lemma PageImageNameDigits(page: nat)
    ensures var name := PageImageName(page);
      var digits := name[5..|name| - 4];
      |digits| >= 3 && AllDigits(digits) && DigitsValue(digits) == page
  {
    PaddedNameShape("page_", page, 3, ".png");
  }

  /** Distinct pages get distinct image names. */
  lemma PageImageNamesDistinct(a: nat, b: nat)
    ensures PageImageName(a) == PageImageName(b) ==> a == b
  {
    var pa, pb := PadStart(NatToString(a), 3, '0'), PadStart(NatToString(b), 3, '0');
    if PageImageName(a) == PageImageName(b) {
      assert |pa| == |pb| by {
        assert |PageImageName(a)| == 5 + |pa| + 4;
      }
      assert pa == PageImageName(a)[5..5 + |pa|];
      assert pb == PageImageName(b)[5..5 + |pb|];
      PaddedNumberInjective(a, b, 3);
    }
  }
}
