/** The SVG tool page: the size fields (optionally locked together), the
    JPEG background colour, the preview URL and the request sent to the
    main-process renderer. */
module SvgToolPage {
  import opened Outcomes
  import opened JsNumbers
  import opened Strings
  import SvgTool

  /** clampInt of this page: `min` for a non-finite value (the main process
      answers undefined instead), otherwise rounded into [min, max]. */
  function ClampInt(v: JsNumber, min: int, max: int): (r: int)
    ensures !v.IsFinite() ==> r == min
    ensures min <= max ==> min <= r <= max
    ensures v.IsFinite() && min <= Round(v.value) <= max ==> r == Round(v.value)
  {
    if !v.IsFinite() then min else ClampRound(v.value, min, max)
  }

  /** `Number(text) || 0` of a number field: NaN (and zero) read as 0. */
  function FieldValue(v: JsNumber): (r: JsNumber)
    ensures !r.NaN?
    ensures !v.NaN? ==> r == v
  {
    if v.NaN? then Finite(0.0) else v
  }

  /** The width and height fields and the 1:1 lock between them. */
  class SizeFields {
    var width: JsNumber
    var height: JsNumber
    var lockRatio: bool

    /** Both sides start at 512 and the lock starts on. */
    constructor ()
      ensures width == Finite(512.0) && height == Finite(512.0) && lockRatio
    {
      width := Finite(512.0);
      height := Finite(512.0);
      lockRatio := true;
    }

    /** Editing the width; with the lock on the height follows it. */
    method SetWidth(input: JsNumber)
      modifies this
      ensures width == FieldValue(input)
      ensures height == if old(lockRatio) then FieldValue(input) else old(height)
      ensures lockRatio == old(lockRatio)
    {
      var v := FieldValue(input);
      width := v;
      if lockRatio {
        height := v;
      }
    }

    /** Editing the height; with the lock on the width follows it. */
    method SetHeight(input: JsNumber)
      modifies this
      ensures height == FieldValue(input)
      ensures width == if old(lockRatio) then FieldValue(input) else old(width)
      ensures lockRatio == old(lockRatio)
    {
      var v := FieldValue(input);
      height := v;
      if lockRatio {
        width := v;
      }
    }

    /** Toggling the lock leaves both sides as they are. */
    method SetLockRatio(on: bool)
      modifies this
      ensures lockRatio == on && width == old(width) && height == old(height)
    {
      lockRatio := on;
    }
  }

  // ---------------------------------------------------------------------
  // The JPEG background: `parseInt(bg.slice(i, j), 16)`

  predicate IsHexDigit(c: char) {
    ('0' <= c <= '9') || ('a' <= c <= 'f') || ('A' <= c <= 'F')
  }

  function HexDigitValue(c: char): (v: nat)
    requires IsHexDigit(c)
    ensures v < 16
  {
    if '0' <= c <= '9' then c as int - '0' as int
    else if 'a' <= c <= 'f' then c as int - 'a' as int + 10
    else c as int - 'A' as int + 10
  }

  predicate AllHex(s: string) {
    forall i :: 0 <= i < |s| ==> IsHexDigit(s[i])
  }

  function HexValue(s: string): (v: nat)
    requires AllHex(s)
    ensures |s| <= 1 ==> v < 16
    ensures |s| <= 2 ==> v < 256
  {
    if |s| == 0 then 0 else HexValue(s[..|s| - 1]) * 16 + HexDigitValue(s[|s| - 1])
  }

  /** The longest prefix made of hexadecimal digits. */
  function LeadingHex(s: string): (r: string)
    ensures AllHex(r) && |r| <= |s| && r == s[..|r|]
    ensures |r| < |s| ==> !IsHexDigit(s[|r|])
  {
    if |s| > 0 && IsHexDigit(s[0]) then
      var rest := LeadingHex(s[1..]);
      assert s[..|rest| + 1] == [s[0]] + s[1..][..|rest|];
      [s[0]] + rest
    else []
  }

  /** `s.slice(a, b)` for non-negative bounds: each bound is cut to the length. */
  function Slice(s: string, a: nat, b: nat): (r: string)
    ensures |r| <= |s|
  {
    var lo := if a <= |s| then a else |s|;
    var hi := if b <= |s| then b else |s|;
    if lo <= hi then s[lo..hi] else ""
  }

  /** `parseInt(s, 16)`: leading whitespace, then an optional sign, then an
      optional `0x`/`0X`, then the longest run of hexadecimal digits; NaN
      when that run is empty. */
  function ParseHex(s: string): (r: JsNumber)
    ensures r.NaN? || r.Finite?
  {
    var t := TrimStart(s);
    var negative := |t| > 0 && t[0] == '-';
    var u := if |t| > 0 && (t[0] == '-' || t[0] == '+') then t[1..] else t;
    var w := if |u| >= 2 && u[0] == '0' && (u[1] == 'x' || u[1] == 'X') then u[2..] else u;
    var digits := LeadingHex(w);
    if digits == [] then NaN
    else if negative then Finite(-(HexValue(digits) as real))
    else Finite(HexValue(digits) as real)
  }

  /** Two hexadecimal digits parse to their value, which is a colour
      component in [0, 255]. */
  lemma ParseHexPair(p: string)
    requires |p| == 2 && AllHex(p)
    ensures ParseHex(p) == Finite(HexValue(p) as real) && 0 <= HexValue(p) <= 255
  {
    assert IsHexDigit(p[0]) && IsHexDigit(p[1]);
    assert TrimStart(p) == p;
    LeadingHexAll(p);
  }

  lemma {:induction false} LeadingHexAll(s: string)
    requires AllHex(s)
    ensures LeadingHex(s) == s
  {
    if |s| > 0 {
      LeadingHexAll(s[1..]);
    }
  }

  /** The background sent with a JPEG request. */
  function Background(jpegBg: string): (c: SvgTool.Rgb)
    ensures c.r.NaN? || c.r.Finite?
    ensures c.g.NaN? || c.g.Finite?
    ensures c.b.NaN? || c.b.Finite?
  {
    SvgTool.Rgb(ParseHex(Slice(jpegBg, 1, 3)), ParseHex(Slice(jpegBg, 3, 5)), ParseHex(Slice(jpegBg, 5, 7)))
  }

  /** A well-formed `#rrggbb` gives each component the value of its pair of
      hexadecimal digits, between 0 and 255. */
  lemma BackgroundOfHexColour(rr: string, gg: string, bb: string)
    requires |rr| == 2 && |gg| == 2 && |bb| == 2 && AllHex(rr) && AllHex(gg) && AllHex(bb)
    ensures Background("#" + rr + gg + bb) == SvgTool.Rgb(
      Finite(HexValue(rr) as real), Finite(HexValue(gg) as real), Finite(HexValue(bb) as real))
    ensures HexValue(rr) <= 255 && HexValue(gg) <= 255 && HexValue(bb) <= 255
  {
    var c := "#" + rr + gg + bb;
    assert Slice(c, 1, 3) == rr && Slice(c, 3, 5) == gg && Slice(c, 5, 7) == bb;
    ParseHexPair(rr);
    ParseHexPair(gg);
    ParseHexPair(bb);
  }

  // ---------------------------------------------------------------------
  // Preview and request

  const PreviewPrefix := "data:image/svg+xml;charset=utf-8,"

  /** previewUrl: a data URL of the trimmed text, percent-encoded by `enc`,
      or "" when there is nothing to show. */
  function PreviewUrl(svgText: string, enc: string -> string): (r: string)
    ensures r != "" <==> Trim(svgText) != "" && Contains(Trim(svgText), "<svg")
    ensures r != "" ==> r == PreviewPrefix + enc(Trim(svgText))
  {
    var s := Trim(svgText);
    if s == "" || !Contains(s, "<svg") then "" else PreviewPrefix + enc(s)
  }

  /** The page's settings when it asks for a render. */
  datatype PageState = PageState(
    svgText: string, format: SvgTool.SvgFormat, width: JsNumber, height: JsNumber, density: JsNumber, jpegBg: string)

  datatype PageError = EmptyInput

  /** renderAndExport's request: trimmed text, sides in [1, 10000], density in
      [72, 600], and a background only for JPEG. */
  function RenderRequest(st: PageState): (r: Result<SvgTool.RenderSvgArgs, PageError>)
    ensures r.Failure? <==> Trim(st.svgText) == []
    ensures r.Success? ==> r.value.svgText == Some(Trim(st.svgText)) && r.value.format == st.format
    ensures r.Success? ==> (r.value.background.Some? <==> st.format == SvgTool.Jpeg)
    ensures r.Success? && st.format == SvgTool.Jpeg ==> r.value.background == Some(Background(st.jpegBg))
    ensures r.Success? ==> r.value.width == Some(Finite(ClampInt(st.width, 1, 10000) as real))
    ensures r.Success? ==> r.value.height == Some(Finite(ClampInt(st.height, 1, 10000) as real))
    ensures r.Success? ==> r.value.density == Some(Finite(ClampInt(st.density, 72, 600) as real))
  {
    var s := Trim(st.svgText);
    if s == [] then Failure(EmptyInput)
    else
      var w := ClampInt(st.width, 1, 10000);
      var h := ClampInt(st.height, 1, 10000);
      var d := ClampInt(st.density, 72, 600);
      var bg := if st.format == SvgTool.Jpeg then Some(Background(st.jpegBg)) else None;
      Success(SvgTool.RenderSvgArgs(Some(s), st.format, Some(Finite(w as real)), Some(Finite(h as real)), bg,
        Some(Finite(d as real))))
  }

  /** A JPEG request for a well-formed `#rrggbb` background carries each
      pair's value as that colour component. */
  lemma JpegRequestOfHexColour(st: PageState, rr: string, gg: string, bb: string)
    requires Trim(st.svgText) != [] && st.format == SvgTool.Jpeg && st.jpegBg == "#" + rr + gg + bb
    requires |rr| == 2 && |gg| == 2 && |bb| == 2 && AllHex(rr) && AllHex(gg) && AllHex(bb)
    ensures RenderRequest(st).Success?
    ensures RenderRequest(st).value.background == Some(SvgTool.Rgb(
      Finite(HexValue(rr) as real), Finite(HexValue(gg) as real), Finite(HexValue(bb) as real)))
  {
    BackgroundOfHexColour(rr, gg, bb);
  }

  /** Across the two processes: the renderer keeps the page's sides and
      density as they are, always resizes, and still rejects text without an
      `<svg` tag, which the page does not check for. */
  lemma RequestReachesRenderer(st: PageState, tempRoot: string, suffix: string)
    requires RenderRequest(st).Success?
    ensures var args := RenderRequest(st).value;
      var r := SvgTool.RenderSvgToImage(args, tempRoot, suffix);
      && (r.Failure? <==> !Contains(Trim(st.svgText), "<svg"))
      && (r.Success? ==>
           && r.value.input == Trim(st.svgText)
           && r.value.density == ClampInt(st.density, 72, 600)
           && r.value.resize == Some(SvgTool.Resize(Some(ClampInt(st.width, 1, 10000)), Some(ClampInt(st.height, 1, 10000)))))
  {
    var args := RenderRequest(st).value;
    var t := Trim(st.svgText);
    TrimIdempotent(st.svgText);
    assert Trim(args.svgText.GetOr("")) == t;
    var w, h, d := ClampInt(st.width, 1, 10000), ClampInt(st.height, 1, 10000), ClampInt(st.density, 72, 600);
    SvgTool.ClampOfInteger(w, 1, 10000);
    SvgTool.ClampOfInteger(h, 1, 10000);
    SvgTool.ClampOfInteger(d, 72, 600);
  }
}
