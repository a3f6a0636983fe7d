/** The main-process crop service: the requested rectangle is clamped into
    the image, the corner radius into half the shorter side, and a rounded
    mask is applied when some corner is rounded. The image library (sharp)
    is abstract: the model computes the extraction region and the mask it
    is asked to apply. */
module ImageCrop {
  import opened Outcomes
  import opened JsNumbers
  import opened TempPaths
  import opened Strings

  /** clampInt: `min` for a non-finite value, otherwise the rounded value
      clamped into [min, max]. */
  function ClampInt(v: JsNumber, min: int, max: int): (r: int)
    ensures !v.IsFinite() ==> r == min
    ensures v.IsFinite() && min <= max ==> min <= r <= max
    ensures v.IsFinite() && min <= Round(v.value) <= max ==> r == Round(v.value)
  {
    if !v.IsFinite() then min else ClampRound(v.value, min, max)
  }

  // ---------------------------------------------------------------------
  // Corners

  /** The corner flags as the caller may send them: each one may be missing. */
  datatype PartialCorners = PartialCorners(tl: Option<bool>, tr: Option<bool>, br: Option<bool>, bl: Option<bool>)

  datatype CornerFlags = CornerFlags(tl: bool, tr: bool, br: bool, bl: bool) {
    predicate Any() { tl || tr || br || bl }
  }

  /** `corners?.c !== false`: a corner is off only when it is explicitly false. */
  function FlagOn(flag: Option<bool>): (r: bool)
    ensures !r <==> flag == Some(false)
  {
    !(flag.Some? && !flag.value)
  }

  /** normalizeCorners */
  function NormalizeCorners(corners: Option<PartialCorners>): (r: CornerFlags)
    ensures corners.None? ==> r == CornerFlags(true, true, true, true)
    ensures corners.Some? ==>
      && (!r.tl <==> corners.value.tl == Some(false))
      && (!r.tr <==> corners.value.tr == Some(false))
      && (!r.br <==> corners.value.br == Some(false))
      && (!r.bl <==> corners.value.bl == Some(false))
  {
    match corners
    case None => CornerFlags(true, true, true, true)
    case Some(c) => CornerFlags(FlagOn(c.tl), FlagOn(c.tr), FlagOn(c.br), FlagOn(c.bl))
  }

  // ---------------------------------------------------------------------
  // The rounded mask

  /** The radius of each corner of the mask. */
  datatype CornerRadii = CornerRadii(tl: int, tr: int, br: int, bl: int)

  /** The geometry buildRoundedRectSvg draws: a `w` x `h` rectangle whose
      corners have the given radii. The SVG text itself is not modelled. */
  datatype Mask = Mask(width: int, height: int, radii: CornerRadii)

  /** The largest radius for a `w` x `h` rectangle: `Math.floor(Math.min(w, h) / 2)`. */
  function MaxRadius(w: int, h: int): int {
    MinInt(w, h) / 2
  }

  function CornerRadius(on: bool, r: int): int {
    if on then r else 0
  }

  /** buildRoundedRectSvg: the size is at least 1 x 1, the radius is clamped
      to half the shorter side, and a corner gets the radius only when its
      flag is set. */
  function BuildRoundedRect(width: int, height: int, radius: int, corners: CornerFlags): (m: Mask)
    ensures m.width == MaxInt(1, width) && m.height == MaxInt(1, height)
    ensures var r := ClampInt(Finite(radius as real), 0, MaxRadius(m.width, m.height));
      && 0 <= r <= MaxRadius(m.width, m.height)
      && m.radii == CornerRadii(CornerRadius(corners.tl, r), CornerRadius(corners.tr, r),
                                CornerRadius(corners.br, r), CornerRadius(corners.bl, r))
  {
    RoundOfInteger(width);
    RoundOfInteger(height);
    var w := MaxInt(1, Round(width as real));
    var h := MaxInt(1, Round(height as real));
    var r := ClampInt(Finite(radius as real), 0, MaxRadius(w, h));
    Mask(w, h, CornerRadii(CornerRadius(corners.tl, r), CornerRadius(corners.tr, r),
                           CornerRadius(corners.br, r), CornerRadius(corners.bl, r)))
  }

  /** No corner radius exceeds half of either side of the mask. */
  lemma MaskRadiiFit(width: int, height: int, radius: int, corners: CornerFlags)
    ensures var m := BuildRoundedRect(width, height, radius, corners);
      && m.width >= 1 && m.height >= 1
      && 0 <= m.radii.tl && 2 * m.radii.tl <= m.width && 2 * m.radii.tl <= m.height
      && 0 <= m.radii.tr && 2 * m.radii.tr <= m.width && 2 * m.radii.tr <= m.height
      && 0 <= m.radii.br && 2 * m.radii.br <= m.width && 2 * m.radii.br <= m.height
      && 0 <= m.radii.bl && 2 * m.radii.bl <= m.width && 2 * m.radii.bl <= m.height
  {
  }

  // ---------------------------------------------------------------------
  // cropImage

  datatype CropRect = CropRect(x: JsNumber, y: JsNumber, width: JsNumber, height: JsNumber)

  datatype RoundArgs = RoundArgs(radius: Option<JsNumber>, corners: Option<PartialCorners>)

  datatype CropArgs = CropArgs(inputPath: string, rect: CropRect, round: Option<RoundArgs>)

  /** The image size the metadata reports; either side may be missing. */
  datatype ImageMeta = ImageMeta(width: Option<int>, height: Option<int>)

  /** The pixel region handed to `extract`. */
  datatype Region = Region(left: int, top: int, width: int, height: int)

  datatype CropError = MissingInput | UnknownSize

  /** What cropImage asks the image library for, and what it reports. */
  datatype CropResult = CropResult(
    region: Region, mask: Option<Mask>, outputPath: string, tempDir: string, width: int, height: int)

  /** The requested rectangle clamped into an `iw` x `ih` image. */
  function ClampRegion(rect: CropRect, iw: int, ih: int): (g: Region)
    ensures iw > 0 && ih > 0 ==> 0 <= g.left && 0 <= g.top && 1 <= g.width && 1 <= g.height && g.left + g.width <= iw && g.top + g.height <= ih
  {
    var x := ClampInt(rect.x, 0, iw - 1);
    var y := ClampInt(rect.y, 0, ih - 1);
    var w := ClampInt(rect.width, 1, iw - x);
    var h := ClampInt(rect.height, 1, ih - y);
    Region(x, y, w, h)
  }

  /** The clamped region lies inside the image and is at least one pixel. */
  lemma ClampRegionInside(rect: CropRect, iw: int, ih: int)
    requires iw > 0 && ih > 0
    ensures var g := ClampRegion(rect, iw, ih);
      && 0 <= g.left <= iw - 1 && 1 <= g.width && g.left + g.width <= iw
      && 0 <= g.top <= ih - 1 && 1 <= g.height && g.top + g.height <= ih
  {
  }

  /** A rectangle already inside the image, with integer coordinates, is
      kept as it is. */
  lemma ClampRegionKeepsInside(x: int, y: int, w: int, h: int, iw: int, ih: int)
    requires 0 <= x && 1 <= w && x + w <= iw && 0 <= y && 1 <= h && y + h <= ih
    ensures ClampRegion(CropRect(Finite(x as real), Finite(y as real), Finite(w as real), Finite(h as real)), iw, ih)
      == Region(x, y, w, h)
  {
    RoundOfInteger(x);
    RoundOfInteger(y);
    RoundOfInteger(w);
    RoundOfInteger(h);
  }

  /** The radius requested for the crop: `args.round?.radius ?? 0`, clamped. */
  function CropRadius(round: Option<RoundArgs>, g: Region): (r: int)
    ensures g.width >= 1 && g.height >= 1 ==> 0 <= r <= MaxRadius(g.width, g.height)
  {
    var radius := if round.Some? && round.value.radius.Some? then round.value.radius.value else Finite(0.0);
    ClampInt(radius, 0, MaxRadius(g.width, g.height))
  }

  function CropCorners(round: Option<RoundArgs>): CornerFlags {
    NormalizeCorners(if round.Some? then round.value.corners else None)
  }

  /** Whether the rounded mask is composited. */
  predicate MaskApplied(radius: int, corners: CornerFlags) {
    radius > 0 && corners.Any()
  }

  /** cropImage. `tempRoot` is the OS temp directory and `suffix` the random
      part `mkdtemp` adds. */
  function CropImage(args: CropArgs, meta: ImageMeta, tempRoot: string, suffix: string): (r: Result<CropResult, CropError>)
    ensures args.inputPath == [] <==> r == Failure(MissingInput)
    ensures r.Success? ==> r.value.width == r.value.region.width && r.value.height == r.value.region.height
  {
    if args.inputPath == [] then Failure(MissingInput)
    else
      var iw := meta.width.GetOr(0);
      var ih := meta.height.GetOr(0);
      if iw <= 0 || ih <= 0 then Failure(UnknownSize)
      else
        var g := ClampRegion(args.rect, iw, ih);
        var radius := CropRadius(args.round, g);
        var corners := CropCorners(args.round);
        var mask := if MaskApplied(radius, corners) then Some(BuildRoundedRect(g.width, g.height, radius, corners)) else None;
        var tmpDir := MkdtempPath(tempRoot, ImageCropPrefix, suffix);
        Success(CropResult(g, mask, PathJoin(tmpDir, "cropped.png"), tmpDir, g.width, g.height))
  }

  /** The call fails exactly when the path is empty or a side of the image
      is missing or not positive; otherwise the region is inside the image. */
  lemma CropImageOutcome(args: CropArgs, meta: ImageMeta, tempRoot: string, suffix: string)
    ensures var r := CropImage(args, meta, tempRoot, suffix);
      var iw, ih := meta.width.GetOr(0), meta.height.GetOr(0);
      && (r == Failure(UnknownSize) <==> args.inputPath != [] && (iw <= 0 || ih <= 0))
      && (r.Success? ==>
           var g := r.value.region;
           && 0 <= g.left && 1 <= g.width && g.left + g.width <= iw
           && 0 <= g.top && 1 <= g.height && g.top + g.height <= ih
           && StartsWith(r.value.tempDir, tempRoot + "/" + ImageCropPrefix)
           && r.value.outputPath == r.value.tempDir + "/cropped.png")
  {
    var iw, ih := meta.width.GetOr(0), meta.height.GetOr(0);
    if args.inputPath != [] && iw > 0 && ih > 0 {
      ClampRegionInside(args.rect, iw, ih);
    }
  }

  /** The mask is applied exactly when the radius is positive and some corner
      is on; it then covers the whole region with the crop's own radius. */
  lemma CropMask(args: CropArgs, meta: ImageMeta, tempRoot: string, suffix: string)
    requires CropImage(args, meta, tempRoot, suffix).Success?
    ensures var res := CropImage(args, meta, tempRoot, suffix).value;
      var radius := CropRadius(args.round, res.region);
      var corners := CropCorners(args.round);
      && (res.mask.Some? <==> radius > 0 && corners.Any())
      && (res.mask.Some? ==>
           && res.mask.value.width == res.width && res.mask.value.height == res.height
           && res.mask.value.radii == CornerRadii(CornerRadius(corners.tl, radius), CornerRadius(corners.tr, radius),
                                                  CornerRadius(corners.br, radius), CornerRadius(corners.bl, radius)))
  {
    var res := CropImage(args, meta, tempRoot, suffix).value;
    var g := res.region;
    ClampRegionInside(args.rect, meta.width.GetOr(0), meta.height.GetOr(0));
    var radius := CropRadius(args.round, g);
    RoundOfInteger(radius);
  }
}
