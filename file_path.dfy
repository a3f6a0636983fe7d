/** The renderer's string-based path helpers. Both separators are accepted:
    every backslash is read as a forward slash before the path is cut. */
module FilePath {
  import opened Strings

  /** normalizePathSeparators: every backslash becomes a forward slash. */
  function NormalizeSeparators(p: string): (r: string)
    ensures |r| == |p| && '\\' !in r
    ensures forall i :: 0 <= i < |p| ==> r[i] == (if p[i] == '\\' then '/' else p[i])
  {
    seq(|p|, i requires 0 <= i < |p| => if p[i] == '\\' then '/' else p[i])
  }

  /** Normalising twice is normalising once, and a path without backslashes
      is already normal. */
  lemma NormalizeIdempotent(p: string)
    ensures NormalizeSeparators(NormalizeSeparators(p)) == NormalizeSeparators(p)
    ensures '\\' !in p ==> NormalizeSeparators(p) == p
  {
    var n := NormalizeSeparators(p);
    assert forall i :: 0 <= i < |n| ==> n[i] != '\\';
    if '\\' !in p {
      assert forall i :: 0 <= i < |p| ==> p[i] != '\\';
    }
  }

  /** getBasename: the part after the last separator, or the whole path. */
  function Basename(p: string): (r: string)
    ensures '/' !in r && '\\' !in r
  {
    var n := NormalizeSeparators(p);
    var idx := LastIndexOf(n, '/');
    if idx >= 0 then n[idx + 1..] else n
  }

  /** getDirname: the part before the last separator, or "" when there is
      none. */
  function Dirname(p: string): (r: string)
    ensures |r| < |p| || r == ""
    ensures r == NormalizeSeparators(p)[..|r|]
    ensures '/' !in NormalizeSeparators(p) ==> r == ""
  {
    var n := NormalizeSeparators(p);
    var idx := LastIndexOf(n, '/');
    if idx >= 0 then n[..idx] else ""
  }

  /** The base name holds no separator of either kind and ends the
      normalised path. */
  lemma BasenameShape(p: string)
    ensures '/' !in Basename(p) && '\\' !in Basename(p)
    ensures EndsWith(NormalizeSeparators(p), Basename(p))
  {
    var n := NormalizeSeparators(p);
    LastIndexOfFound(n, '/');
    AfterLastIndexOf(n, '/');
  }

  /** The directory, a separator and the base name make up the normalised
      path; with no separator the base name is the whole path. */
  lemma DirnameBasename(p: string)
    ensures var n := NormalizeSeparators(p);
      if '/' in n then Dirname(p) + "/" + Basename(p) == n
      else Dirname(p) == "" && Basename(p) == n
  {
    var n := NormalizeSeparators(p);
    var idx := LastIndexOf(n, '/');
    LastIndexOfFound(n, '/');
    if idx >= 0 {
      assert n == n[..idx] + "/" + n[idx + 1..];
    }
  }

  /** getExtname: from the last dot of the base name on, or "". */
  function Extname(p: string): (r: string)
    ensures r == "" || r[0] == '.'
    ensures EndsWith(Basename(p), r)
  {
    var base := Basename(p);
    var idx := LastIndexOf(base, '.');
    if idx >= 0 then base[idx..] else ""
  }

  /** getBasenameNoExt: the base name up to its last dot. */
  function BasenameNoExt(p: string): (r: string)
    ensures StartsWith(Basename(p), r)
  {
    var base := Basename(p);
    var idx := LastIndexOf(base, '.');
    if idx >= 0 then base[..idx] else base
  }

  /** The extension is "" or starts with its only dot; it is empty exactly
      when the base name has no dot. */
  lemma ExtnameShape(p: string)
    ensures Extname(p) == "" || (Extname(p)[0] == '.' && '.' !in Extname(p)[1..])
    ensures Extname(p) == "" <==> '.' !in Basename(p)
  {
    var base := Basename(p);
    var idx := LastIndexOf(base, '.');
    LastIndexOfFound(base, '.');
    AfterLastIndexOf(base, '.');
    if idx >= 0 {
      assert Extname(p)[1..] == base[idx + 1..];
    }
  }

  /** The base name without its extension, then the extension, is the base
      name. */
  lemma BasenameSplitsAtExt(p: string)
    ensures BasenameNoExt(p) + Extname(p) == Basename(p)
  {
    var base := Basename(p);
    var idx := LastIndexOf(base, '.');
    if idx >= 0 {
      assert base == base[..idx] + base[idx..];
    }
  }

  /** Backslash and slash spellings of a path name the same file. */
  lemma SeparatorsAgree(p: string, q: string)
    requires NormalizeSeparators(p) == NormalizeSeparators(q)
    ensures Basename(p) == Basename(q) && Dirname(p) == Dirname(q) && Extname(p) == Extname(q)
  {
  }
}
