/** The video-to-GIF service: a clip of the input is turned into a GIF by two
    ffmpeg passes (palette generation, then palette use). ffmpeg itself is
    not modelled; the model computes the clamped parameters, the file names
    and the two command lines. */
module VideoToGif {
  import opened Outcomes
  import opened JsNumbers
  import opened Strings
  import opened TempPaths

  /** clampSeconds: 0 for a non-finite value, otherwise never negative. */
  function ClampSeconds(v: JsNumber): (r: real)
    ensures r >= 0.0
    ensures !v.IsFinite() ==> r == 0.0
    ensures v.IsFinite() ==> r == MaxReal(0.0, v.value)
  {
    if !v.IsFinite() then 0.0 else MaxReal(0.0, v.value)
  }

  /** clampFps: 12 unless a finite rate is given, then rounded into [1, 60]. */
  function ClampFps(v: Option<JsNumber>): (r: int)
    ensures 1 <= r <= 60
    ensures v.None? || !v.value.IsFinite() ==> r == 12
    ensures v.Some? && v.value.IsFinite() && 1 <= Round(v.value.value) <= 60 ==> r == Round(v.value.value)
  {
    if v.None? || !v.value.IsFinite() then 12 else ClampRound(v.value.value, 1, 60)
  }

  /** clampWidth: 720 unless a finite width is given; then the rounded width,
      raised to at least 64 and made even by dropping one pixel. */
  function ClampWidth(v: Option<JsNumber>): (r: int)
    ensures v.None? || !v.value.IsFinite() ==> r == 720
  {
    if v.None? || !v.value.IsFinite() then 720
    else
      var n := MaxInt(64, Round(v.value.value));
      if n % 2 == 0 then n else n - 1
  }

  /** Every width handed to ffmpeg is even and at least 64, and is within one
      pixel below the rounded request. */
  lemma ClampWidthEven(v: Option<JsNumber>)
    ensures ClampWidth(v) % 2 == 0 && ClampWidth(v) >= 64
    ensures v.Some? && v.value.IsFinite() ==>
      MaxInt(64, Round(v.value.value)) - 1 <= ClampWidth(v) <= MaxInt(64, Round(v.value.value))
  {
  }

  /** An even width of at least 64 pixels is used as it is. */
  lemma ClampWidthKeepsEven(n: int)
    requires n >= 64 && n % 2 == 0
    ensures ClampWidth(Some(Finite(n as real))) == n
  {
    RoundOfInteger(n);
  }

  // ---------------------------------------------------------------------
  // The conversion

  datatype ConvertArgs = ConvertArgs(
    inputPath: string, startSeconds: JsNumber, endSeconds: JsNumber,
    fps: Option<JsNumber>, width: Option<JsNumber>, keepOriginalWidth: Option<bool>)

  datatype ConvertError = InvalidRange

  /** What the conversion runs: the clip, the output rate and width, the
      files in its own temp directory and both ffmpeg command lines. */
  datatype GifPlan = GifPlan(
    start: real, duration: real, fps: int, width: Option<int>,
    tempDir: string, palettePath: string, outPath: string,
    paletteArgs: seq<string>, useArgs: seq<string>)

  /** The output width: none when the original width is kept. */
  function OutWidth(args: ConvertArgs): (w: Option<int>)
    ensures w.None? <==> args.keepOriginalWidth == Some(true)
    ensures w.Some? ==> w.value == ClampWidth(args.width)
  {
    if args.keepOriginalWidth == Some(true) then None else Some(ClampWidth(args.width))
  }

  /** The part of both filter graphs that scales the frames, if a width is set. */
  function ScaleFilter(width: Option<int>): string {
    if width.Some? then "," + ScaleStep(width.value) else ""
  }

  function ScaleStep(w: int): string {
    "scale=" + IntToString(w) + ":-1:flags=lanczos"
  }

  /** `fps=N`, the optional scale step, then the rest of the graph. */
  function Filter(fps: nat, width: Option<int>, tail: string): string {
    "fps=" + NatToString(fps) + ScaleFilter(width) + tail
  }

  /** The first pass's filter: `fps=N[,scale=W:-1:flags=lanczos],palettegen`. */
  function PaletteFilter(fps: nat, width: Option<int>): (f: string)
    ensures EndsWith(f, ",palettegen")
  {
    var f := Filter(fps, width, ",palettegen");
    assert f[|f| - |",palettegen"|..] == ",palettegen";
    f
  }

  /** The second pass's filter graph: `fps=N[,scale=...][x];[x][1:v]paletteuse`. */
  function UseFilter(fps: nat, width: Option<int>): (f: string)
    ensures EndsWith(f, "[x];[x][1:v]paletteuse")
  {
    var f := Filter(fps, width, "[x];[x][1:v]paletteuse");
    assert f[|f| - |"[x];[x][1:v]paletteuse"|..] == "[x];[x][1:v]paletteuse";
    f
  }

  /** A rendering of a number as ffmpeg receives it (`String(n)`); the
      formatting of reals is a parameter. */
  function PaletteArgs(inputPath: string, start: real, duration: real, filter: string, palettePath: string,
                       numberText: real -> string): seq<string> {
    ["-ss", numberText(start), "-t", numberText(duration), "-i", inputPath, "-vf", filter, "-y", palettePath]
  }

  function UseArgs(inputPath: string, start: real, duration: real, palettePath: string, filter: string, outPath: string,
                   numberText: real -> string): seq<string> {
    ["-ss", numberText(start), "-t", numberText(duration), "-i", inputPath, "-i", palettePath,
     "-lavfi", filter, "-y", outPath]
  }

  /** convertVideoSegmentToGif. `tempRoot` is the OS temp directory and
      `suffix` the random part `mkdtemp` adds. */
  function ConvertVideoSegmentToGif(args: ConvertArgs, tempRoot: string, suffix: string, numberText: real -> string)
    : (r: Result<GifPlan, ConvertError>)
    ensures r.Failure? <==> ClampSeconds(args.endSeconds) <= ClampSeconds(args.startSeconds)
    ensures r.Success? ==> r.value.duration > 0.0 && r.value.start >= 0.0
    ensures r.Success? ==> r.value.fps == ClampFps(args.fps) && r.value.width == OutWidth(args)
  {
    var start := ClampSeconds(args.startSeconds);
    var end := ClampSeconds(args.endSeconds);
    if end <= start then Failure(InvalidRange)
    else
      var fps := ClampFps(args.fps);
      var width := OutWidth(args);
      var tmpDir := MkdtempPath(tempRoot, VideoToGifPrefix, suffix);
      var palettePath := PathJoin(tmpDir, "palette.png");
      var outPath := PathJoin(tmpDir, "out.gif");
      var duration := end - start;
      Success(GifPlan(start, duration, fps, width, tmpDir, palettePath, outPath,
        PaletteArgs(args.inputPath, start, duration, PaletteFilter(fps, width), palettePath, numberText),
        UseArgs(args.inputPath, start, duration, palettePath, UseFilter(fps, width), outPath, numberText)))
  }

  /** The two passes cut the same clip from the same input; the first writes
      the palette the second reads, and the second writes the GIF that is
      returned. Both files sit in the conversion's own temp directory. */
  lemma PassesAgree(args: ConvertArgs, tempRoot: string, suffix: string, numberText: real -> string)
    requires ConvertVideoSegmentToGif(args, tempRoot, suffix, numberText).Success?
    ensures var p := ConvertVideoSegmentToGif(args, tempRoot, suffix, numberText).value;
      && p.paletteArgs[..6] == p.useArgs[..6]
      && p.paletteArgs[5] == args.inputPath
      && p.paletteArgs[|p.paletteArgs| - 1] == p.palettePath && p.useArgs[7] == p.palettePath
      && p.useArgs[|p.useArgs| - 1] == p.outPath
      && p.palettePath != p.outPath
      && StartsWith(p.tempDir, tempRoot + "/" + VideoToGifPrefix)
      && p.palettePath == p.tempDir + "/palette.png" && p.outPath == p.tempDir + "/out.gif"
  {
    var p := ConvertVideoSegmentToGif(args, tempRoot, suffix, numberText).value;
    PathJoinInjective(p.tempDir, "palette.png", "out.gif");
  }

  /** Both filters start with the frame rate. They carry the scale step for
      the width when one is set, and no scale step at all otherwise. */
  lemma FiltersScaleIffWidth(fps: nat, width: Option<int>)
    ensures StartsWith(PaletteFilter(fps, width), "fps=" + NatToString(fps))
    ensures StartsWith(UseFilter(fps, width), "fps=" + NatToString(fps))
    ensures width.Some? ==>
      Contains(PaletteFilter(fps, width), ScaleStep(width.value)) && Contains(UseFilter(fps, width), ScaleStep(width.value))
    ensures width.None? ==> !Contains(PaletteFilter(fps, width), "scale=") && !Contains(UseFilter(fps, width), "scale=")
  {
    FilterShape(fps, width, ",palettegen");
    FilterShape(fps, width, "[x];[x][1:v]paletteuse");
  }

  /** The shape shared by both filters, for a tail without a 'c'. */
  lemma FilterShape(fps: nat, width: Option<int>, tail: string)
    requires 'c' !in tail
    ensures StartsWith(Filter(fps, width, tail), "fps=" + NatToString(fps))
    ensures width.Some? ==> Contains(Filter(fps, width, tail), ScaleStep(width.value))
    ensures width.None? ==> !Contains(Filter(fps, width, tail), "scale=")
  {
    var head := "fps=" + NatToString(fps);
    var mid := ScaleFilter(width);
    PrefixOfConcat(head, mid, tail);
    if width.None? {
      NatToStringDigits(fps);
      var n := NatToString(fps);
      assert 'c' !in n by {
        forall k | 0 <= k < |n| ensures n[k] != 'c' { assert IsDigit(n[k]); }
      }
      NoCharInConcat('c', "fps=", n, tail);
      assert mid == [];
      assert Filter(fps, width, tail) == "fps=" + n + tail;
      assert "scale="[1] == 'c';
      NotContainsMissingChar(Filter(fps, width, tail), "scale=", 1);
    } else {
      StepInside(head, ScaleStep(width.value), tail);
    }
  }

  lemma PrefixOfConcat(a: string, b: string, c: string)
    ensures StartsWith(a + b + c, a)
  {
    assert (a + b + c)[..|a|] == a;
  }

  lemma NoCharInConcat(x: char, a: string, b: string, c: string)
    requires x !in a && x !in b && x !in c
    ensures x !in a + b + c
  {
  }

  lemma StepInside(head: string, step: string, tail: string)
    ensures Contains(head + ("," + step) + tail, step)
  {
    assert head + ("," + step) + tail == (head + ",") + step + tail;
    ContainsMiddle(head + ",", step, tail);
  }
}
