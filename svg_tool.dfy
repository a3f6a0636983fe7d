/** The main-process SVG renderer: SVG text is rasterised by the image
    library (sharp, not modelled) at a clamped density, optionally resized,
    and encoded as PNG, WebP or JPEG into a fresh temp directory. The model
    computes what the library is asked to do and where the file goes. */
module SvgTool {
  import opened Outcomes
  import opened JsNumbers
  import opened Strings
  import opened TempPaths
  import ImageConvert

  datatype SvgFormat = Png | Jpeg | Webp

  /** Each of the three formats is the image converter's format of the same
      name, so the two services spell and name their files alike. */
  function AsImageFormat(f: SvgFormat): (g: ImageConvert.Format)
    ensures ImageConvert.FormatName(g) == match f case Png => "png" case Jpeg => "jpeg" case Webp => "webp"
  {
    match f
    case Png => ImageConvert.Png
    case Jpeg => ImageConvert.Jpeg
    case Webp => ImageConvert.Webp
  }

  /** A colour as the caller sends it; the components are passed on unchecked. */
  datatype Rgb = Rgb(r: JsNumber, g: JsNumber, b: JsNumber)

  const White := Rgb(Finite(255.0), Finite(255.0), Finite(255.0))

  datatype RenderSvgArgs = RenderSvgArgs(
    svgText: Option<string>, format: SvgFormat, width: Option<JsNumber>, height: Option<JsNumber>,
    background: Option<Rgb>, density: Option<JsNumber>)

  /** clampInt of this file: undefined for a missing or non-finite value,
      otherwise rounded into [min, max]. */
  function ClampOptional(v: Option<JsNumber>, min: int, max: int): (r: Option<int>)
    ensures r.None? <==> v.None? || !v.value.IsFinite()
    ensures r.Some? && min <= max ==> min <= r.value <= max
    ensures r.Some? && min <= Round(v.value.value) <= max ==> r.value == Round(v.value.value)
  {
    if v.None? || !v.value.IsFinite() then None else Some(ClampRound(v.value.value, min, max))
  }

  /** clampDensity: 144 dpi unless a finite density is given, then rounded
      into [72, 600]. */
  function ClampDensity(v: Option<JsNumber>): (r: int)
    ensures 72 <= r <= 600
    ensures v.None? || !v.value.IsFinite() ==> r == 144
    ensures v.Some? && v.value.IsFinite() && 72 <= Round(v.value.value) <= 600 ==> r == Round(v.value.value)
  {
    if v.None? || !v.value.IsFinite() then 144 else ClampRound(v.value.value, 72, 600)
  }

  /** An integer already in range goes through both clamps unchanged. */
  lemma ClampOfInteger(n: int, min: int, max: int)
    requires min <= n <= max
    ensures ClampOptional(Some(Finite(n as real)), min, max) == Some(n)
    ensures 72 <= n <= 600 ==> ClampDensity(Some(Finite(n as real))) == n
  {
    RoundOfInteger(n);
  }

  /** How the rasterised image is encoded. */
  datatype Encoding = PngEncoding | WebpEncoding(quality: int) | JpegEncoding(background: Rgb, quality: int)

  /** The encoder settings for a format: WebP at quality 90, JPEG at 92 on the
      given background or white. */
  function EncodingFor(format: SvgFormat, background: Option<Rgb>): (e: Encoding)
    ensures format == Png <==> e == PngEncoding
    ensures format == Webp <==> e == WebpEncoding(90)
    ensures format == Jpeg <==> e == JpegEncoding(background.GetOr(White), 92)
  {
    match format
    case Png => PngEncoding
    case Webp => WebpEncoding(90)
    case Jpeg => JpegEncoding(background.GetOr(White), 92)
  }

  /** The output file's extension, the image converter's: "jpg" for JPEG,
      the format name otherwise. */
  function Extension(format: SvgFormat): string {
    ImageConvert.Extension(AsImageFormat(format))
  }

  /** Distinct formats are written to distinct file names. */
  lemma ExtensionInjective(f: SvgFormat, g: SvgFormat)
    ensures Extension(Png) == "png" && Extension(Jpeg) == "jpg" && Extension(Webp) == "webp"
    ensures Extension(f) == Extension(g) ==> f == g
  {
  }

  /** The resize request: `fit: 'inside'` with the sides that survived clamping. */
  datatype Resize = Resize(width: Option<int>, height: Option<int>)

  datatype SvgError = EmptySvg | NoSvgTag

  /** What the renderer asks of the image library and where it writes. */
  datatype RenderPlan = RenderPlan(
    input: string, density: int, resize: Option<Resize>, encoding: Encoding, tempDir: string, outputPath: string)

  /** renderSvgToImage. `tempRoot` is the OS temp directory and `suffix` the
      random part `mkdtemp` adds; the file size the call reports comes from
      the file system and is not modelled. */
  function RenderSvgToImage(args: RenderSvgArgs, tempRoot: string, suffix: string): (r: Result<RenderPlan, SvgError>)
    ensures r.Success? ==> r.value.input == Trim(args.svgText.GetOr(""))
    ensures r.Success? ==> r.value.density == ClampDensity(args.density)
    ensures r.Success? ==> r.value.encoding == EncodingFor(args.format, args.background)
  {
    var svgText := Trim(args.svgText.GetOr(""));
    if svgText == [] then Failure(EmptySvg)
    else if !Contains(svgText, "<svg") then Failure(NoSvgTag)
    else
      var w := ClampOptional(args.width, 1, 10000);
      var h := ClampOptional(args.height, 1, 10000);
      var resize := if w.Some? || h.Some? then Some(Resize(w, h)) else None;
      var tmpDir := MkdtempPath(tempRoot, SvgPrefix, suffix);
      Success(RenderPlan(svgText, ClampDensity(args.density), resize, EncodingFor(args.format, args.background),
        tmpDir, PathJoin(tmpDir, "out." + Extension(args.format))))
  }

  /** The render fails for text that is empty or blank once trimmed, and for
      text without an `<svg` tag; otherwise it succeeds. */
  lemma RenderOutcome(args: RenderSvgArgs, tempRoot: string, suffix: string)
    ensures var r := RenderSvgToImage(args, tempRoot, suffix);
      var t := Trim(args.svgText.GetOr(""));
      && (r == Failure(EmptySvg) <==> t == [])
      && (r == Failure(NoSvgTag) <==> t != [] && !Contains(t, "<svg"))
      && (r.Success? <==> t != [] && Contains(t, "<svg"))
  {
  }

  /** A resize is requested exactly when a finite width or height was given;
      each requested side is in [1, 10000]. */
  lemma ResizeOnlyWithSize(args: RenderSvgArgs, tempRoot: string, suffix: string)
    requires RenderSvgToImage(args, tempRoot, suffix).Success?
    ensures var p := RenderSvgToImage(args, tempRoot, suffix).value;
      && (p.resize.Some? <==> (args.width.Some? && args.width.value.IsFinite()) || (args.height.Some? && args.height.value.IsFinite()))
      && (p.resize.Some? ==>
           && (p.resize.value.width.Some? ==> 1 <= p.resize.value.width.value <= 10000)
           && (p.resize.value.height.Some? ==> 1 <= p.resize.value.height.value <= 10000))
  {
  }

  /** The output is `out.<ext>` in a fresh `toolsx-svg-` directory under the
      temp root. */
  lemma OutputLocation(args: RenderSvgArgs, tempRoot: string, suffix: string)
    requires RenderSvgToImage(args, tempRoot, suffix).Success?
    ensures var p := RenderSvgToImage(args, tempRoot, suffix).value;
      && StartsWith(p.tempDir, tempRoot + "/" + SvgPrefix)
      && p.outputPath == p.tempDir + "/out." + Extension(args.format)
  {
    var p := RenderSvgToImage(args, tempRoot, suffix).value;
    assert p.outputPath == p.tempDir + "/" + ("out." + Extension(args.format));
  }
}
