/** The home page's tool list, narrowed by the search box. */
module HomePage {
  import opened Strings

  /** A tool card; the route is not searched. */
  datatype Tool = Tool(id: string, title: string, description: string, route: string)

  /** The card matches a lowercased query in its title, description or id,
      each lowercased. */
  predicate Matches(t: Tool, q: string) {
    Contains(Lower(t.title), q) || Contains(Lower(t.description), q) || Contains(Lower(t.id), q)
  }

  /** `tools.filter(...)`. */
  function Filter(tools: seq<Tool>, q: string): (r: seq<Tool>)
    ensures |r| <= |tools|
    ensures forall t :: t in r <==> t in tools && Matches(t, q)
    ensures forall t :: multiset(r)[t] == if Matches(t, q) then multiset(tools)[t] else 0
  {
    assert tools != [] ==> tools == [tools[0]] + tools[1..];
    if tools == [] then [] else (if Matches(tools[0], q) then [tools[0]] else []) + Filter(tools[1..], q)
  }

  /** The `list` memo: the whole list for a blank query, else the cards
      matching the trimmed, lowercased query. */
  function FilterTools(tools: seq<Tool>, query: string): (r: seq<Tool>)
    ensures Trim(query) == [] ==> r == tools
    ensures Trim(query) != [] ==> forall t :: t in r <==> t in tools && Matches(t, Lower(Trim(query)))
    ensures Trim(query) != [] ==> forall t ::
      multiset(r)[t] == if Matches(t, Lower(Trim(query))) then multiset(tools)[t] else 0
  {
    var q := Lower(Trim(query));
    if q == [] then tools else Filter(tools, q)
  }

  /** `a` is `b` with some elements left out, in the same order. */
  predicate IsSubsequence(a: seq<Tool>, b: seq<Tool>)
    decreases |b|
  {
    a == [] || (b != [] && ((a[0] == b[0] && IsSubsequence(a[1..], b[1..])) || IsSubsequence(a, b[1..])))
  }

  /** The narrowed list keeps the cards in their original order. */
  lemma FilterToolsIsSubsequence(tools: seq<Tool>, query: string)
    ensures IsSubsequence(FilterTools(tools, query), tools)
  {
    if Trim(query) == [] {
      SubsequenceOfItself(tools);
    } else {
      FilterIsSubsequence(tools, Lower(Trim(query)));
    }
  }

  lemma {:induction false} FilterIsSubsequence(tools: seq<Tool>, q: string)
    ensures IsSubsequence(Filter(tools, q), tools)
  {
    if tools != [] {
      FilterIsSubsequence(tools[1..], q);
      if Matches(tools[0], q) {
        assert Filter(tools, q)[1..] == Filter(tools[1..], q);
      } else {
        var r := Filter(tools, q);
        assert r == Filter(tools[1..], q);
      }
    }
  }

  lemma {:induction false} SubsequenceOfItself(s: seq<Tool>)
    ensures IsSubsequence(s, s)
  {
    if s != [] {
      SubsequenceOfItself(s[1..]);
    }
  }

  /** The search ignores the query's letter case. */
  lemma QueryCaseInsensitive(tools: seq<Tool>, query: string)
    ensures FilterTools(tools, Lower(query)) == FilterTools(tools, query)
  {
    TrimOfLower(query);
    LowerIdempotent(Trim(query));
    assert |Trim(Lower(query))| == |Trim(query)|;
  }

  /** Lowercasing leaves whitespace alone, so it commutes with trimming. */
  lemma TrimOfLower(s: string)
    ensures Trim(Lower(s)) == Lower(Trim(s))
  {
    TrimStartOfLower(s);
    TrimEndOfLower(TrimStart(s));
  }

  lemma {:induction false} TrimStartOfLower(s: string)
    ensures TrimStart(Lower(s)) == Lower(TrimStart(s))
    decreases |s|
  {
    if |s| > 0 {
      assert Lower(s)[1..] == Lower(s[1..]);
      assert IsJsWhitespace(Lower(s)[0]) <==> IsJsWhitespace(s[0]);
      TrimStartOfLower(s[1..]);
    }
  }

  lemma {:induction false} TrimEndOfLower(s: string)
    ensures TrimEnd(Lower(s)) == Lower(TrimEnd(s))
    decreases |s|
  {
    if |s| > 0 {
      var n := |s| - 1;
      var l := Lower(s);
      assert IsJsWhitespace(l[n]) <==> IsJsWhitespace(s[n]);
      if IsJsWhitespace(s[n]) {
        assert l[..n] == Lower(s[..n]);
        assert TrimEnd(l) == TrimEnd(l[..n]);
        TrimEndOfLower(s[..n]);
      } else {
        assert TrimEnd(s) == s && TrimEnd(l) == l;
      }
    }
  }
}
