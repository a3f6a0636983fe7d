/** The image conversion service of the main process: fixed-parameter
    conversion and the target-size optimiser, which binary-searches the
    quality of each candidate codec and keeps the smallest result under the
    byte budget (or, failing that, the smallest one over it).

    The encoder (sharp, png-to-ico) is a parameter `size`: for each encoding
    request it gives the byte length of the buffer it would produce. Only the
    byte length takes part in any decision, so buffers are modelled by it. */
module ImageConvert {
  import opened Outcomes
  import opened JsNumbers
  import opened Strings
  import opened TempPaths

  datatype Format = Png | Jpeg | Webp | Avif | Gif | Ico

  /** The format's name as the source spells it ('png', 'jpeg', ...). */
  function FormatName(f: Format): string {
    match f
    case Png => "png"
    case Jpeg => "jpeg"
    case Webp => "webp"
    case Avif => "avif"
    case Gif => "gif"
    case Ico => "ico"
  }

  datatype Prefer = AutoSmall | KeepFormat

  /** One request to the encoder, as renderToBuffer dispatches it. */
  datatype Plan =
    | IcoPlan(sizes: seq<nat>)
    | PngPlan
    | JpegPlan(quality: int)
    | WebpPlan(quality: int)
    | GifPlan
    | AvifPlan(quality: int)

  /** The encoder: the byte length of the buffer it returns for a request. */
  type Encoder = Plan -> nat

  datatype ConvertError = IcoInputUnsupported

  datatype ConvertArgs =
    | Convert(inputPath: string, format: Format, quality: Option<JsNumber>)
    | TargetSize(inputPath: string, targetKb: JsNumber, prefer: Option<Prefer>, targetFormat: Option<Format>)

  datatype ConvertOutput = ConvertOutput(outputPath: string, format: Format, quality: Option<int>, sizeBytes: nat)

  /** The square renditions packed into an ICO file. */
  const IcoSizes: seq<nat> := [16, 32, 48, 64, 128, 256]

  const QualityMin := 20
  const QualityMax := 95
  /** The source's cap on encoder calls per codec. */
  const ProbeCap := 10

  // ---------------------------------------------------------------------
  // Clamps and policies

  /** `s` ends with `suffix` once lowercased. */
  predicate EndsWithLower(s: string, suffix: string)
    decreases |suffix|
  {
    if |suffix| == 0 then true
    else |s| > 0 && LowerChar(s[|s| - 1]) == suffix[|suffix| - 1] && EndsWithLower(s[..|s| - 1], suffix[..|suffix| - 1])
  }

  /** ICO input is recognised by the file name alone: lowercased, it ends in ".ico". */
  predicate IsIcoInput(inputPath: string)
    ensures IsIcoInput(inputPath) <==> (|inputPath| >= 4
      && LowerChar(inputPath[|inputPath| - 4]) == '.' && LowerChar(inputPath[|inputPath| - 3]) == 'i'
      && LowerChar(inputPath[|inputPath| - 2]) == 'c' && LowerChar(inputPath[|inputPath| - 1]) == 'o')
  {
    IcoSuffixChars(inputPath);
    EndsWithLower(inputPath, ".ico")
  }

  lemma IcoSuffixChars(s: string)
    ensures EndsWithLower(s, ".ico") <==> (|s| >= 4
      && LowerChar(s[|s| - 4]) == '.' && LowerChar(s[|s| - 3]) == 'i'
      && LowerChar(s[|s| - 2]) == 'c' && LowerChar(s[|s| - 1]) == 'o')
  {
    EndsWithLowerAt(s, ".ico");
    if |s| >= 4 && LowerChar(s[|s| - 4]) == '.' && LowerChar(s[|s| - 3]) == 'i'
       && LowerChar(s[|s| - 2]) == 'c' && LowerChar(s[|s| - 1]) == 'o' {
      forall i | 0 <= i < 4
        ensures LowerChar(s[|s| - 4 + i]) == ".ico"[i]
      {
        if i == 0 {} else if i == 1 {} else if i == 2 {} else {}
      }
    }
    if EndsWithLower(s, ".ico") {
      var n := |s| - 4;
      assert LowerChar(s[n + 0]) == ".ico"[0] && LowerChar(s[n + 1]) == ".ico"[1];
      assert LowerChar(s[n + 2]) == ".ico"[2] && LowerChar(s[n + 3]) == ".ico"[3];
    }
  }

  /** EndsWithLower compares the last |suffix| characters one by one. */
  lemma {:induction false} EndsWithLowerAt(s: string, suffix: string)
    ensures EndsWithLower(s, suffix) <==>
      |suffix| <= |s| && forall i :: 0 <= i < |suffix| ==> LowerChar(s[|s| - |suffix| + i]) == suffix[i]
    decreases |suffix|
  {
    if |suffix| > 0 && |s| > 0 {
      var n, m := |s|, |suffix|;
      EndsWithLowerAt(s[..n - 1], suffix[..m - 1]);
      if m <= n {
        var p := s[..n - 1];
        assert forall j :: 0 <= j < n - 1 ==> p[j] == s[j];
      }
    }
  }

  /** The test is `inputPath.toLowerCase().endsWith(suffix)`. */
  lemma EndsWithLowerIsLowerSuffix(s: string, suffix: string)
    ensures EndsWithLower(s, suffix) <==> EndsWith(Lower(s), suffix)
  {
    EndsWithLowerAt(s, suffix);
    var n, m := |s|, |suffix|;
    if m <= n {
      var t := Lower(s)[n - m..];
      assert |t| == m;
      assert forall i :: 0 <= i < m ==> t[i] == LowerChar(s[n - m + i]);
      if EndsWithLower(s, suffix) {
        assert t == suffix;
      }
    }
  }

  function ClampQuality(v: Option<JsNumber>): (r: int)
    ensures 1 <= r <= 100
    ensures (v.None? || !v.value.IsFinite()) ==> r == 80
    ensures v.Some? && v.value.IsFinite() && 1 <= Round(v.value.value) <= 100 ==> r == Round(v.value.value)
    ensures v.Some? && v.value.IsFinite() && Round(v.value.value) < 1 ==> r == 1
    ensures v.Some? && v.value.IsFinite() && Round(v.value.value) > 100 ==> r == 100
  {
    if v.None? || !v.value.IsFinite() then 80 else ClampRound(v.value.value, 1, 100)
  }

  function ClampTargetKb(v: JsNumber): (r: int)
    ensures r >= 10
    ensures !v.IsFinite() ==> r == 300
    ensures v.IsFinite() && Round(v.value) >= 10 ==> r == Round(v.value)
    ensures v.IsFinite() && Round(v.value) < 10 ==> r == 10
  {
    if !v.IsFinite() then 300 else MaxInt(10, Round(v.value))
  }

  /** The byte budget of a target-size request. */
  function TargetBytes(targetKb: JsNumber): (r: int)
    ensures r >= 10 * 1024
    ensures r % 1024 == 0
    ensures r == ClampTargetKb(targetKb) * 1024
  {
    ClampTargetKb(targetKb) * 1024
  }

  /** The codecs tried by the optimiser, in order. */
  function Candidates(prefer: Prefer, format: Option<Format>): (r: seq<Format>)
    ensures prefer == KeepFormat && format.Some? ==> r == [format.value]
    ensures !(prefer == KeepFormat && format.Some?) ==> r == [Avif, Webp, Jpeg]
    ensures |r| >= 1
  {
    if prefer == KeepFormat && format.Some? then [format.value] else [Avif, Webp, Jpeg]
  }

  /** renderToBuffer's dispatch on the format, after the quality is clamped. */
  function PlanFor(format: Format, q: int): (p: Plan)
    ensures format == Ico <==> p.IcoPlan?
    ensures p.IcoPlan? ==> p.sizes == IcoSizes
    ensures format in {Png, Gif, Ico} ==> (p == PngPlan || p == GifPlan || p.IcoPlan?)
    ensures format == Jpeg ==> p == JpegPlan(q)
    ensures format == Webp ==> p == WebpPlan(q)
    ensures format == Avif ==> p == AvifPlan(q)
  {
    match format
    case Ico => IcoPlan(IcoSizes)
    case Png => PngPlan
    case Jpeg => JpegPlan(q)
    case Webp => WebpPlan(q)
    case Gif => GifPlan
    case Avif => AvifPlan(q)
  }

  /** The size of the buffer the encoder produces for `format` at quality `q`. */
  function EncodedSize(size: Encoder, format: Format, q: int): nat {
    size(PlanFor(format, q))
  }

  /** The ICO-input guard of renderToBuffer. */
  predicate RejectsInput(inputPath: string, format: Format) {
    IsIcoInput(inputPath) && format != Ico
  }

  /** renderToBuffer: fails before any encoding for ICO input to another
      format, and otherwise encodes with the clamped quality. */
  function RenderToBuffer(inputPath: string, format: Format, quality: Option<JsNumber>, size: Encoder): (r: Result<nat, ConvertError>)
    ensures r.Failure? <==> RejectsInput(inputPath, format)
    ensures r.Success? ==> r.value == EncodedSize(size, format, ClampQuality(quality))
  {
    if RejectsInput(inputPath, format) then Failure(IcoInputUnsupported)
    else Success(EncodedSize(size, format, ClampQuality(quality)))
  }

  /** writeOutput's file extension. */
  function Extension(format: Format): (ext: string)
    ensures format == Jpeg ==> ext == "jpg"
    ensures format != Jpeg ==> ext == FormatName(format)
  {
    if format == Jpeg then "jpg" else FormatName(format)
  }

  function OutputPath(tmpDir: string, format: Format): string {
    PathJoin(tmpDir, "out." + Extension(format))
  }

  /** The quality reported by a fixed-parameter conversion. */
  function ReportedQuality(format: Format, q: int): (r: Option<int>)
    ensures r.None? <==> format in {Png, Gif, Ico}
    ensures r.Some? ==> r.value == q
  {
    if format == Png || format == Gif || format == Ico then None else Some(q)
  }

  // ---------------------------------------------------------------------
  // Quality search for one codec

  datatype Attempt = Attempt(quality: int, bytes: nat)

  /** The best under-budget and the last over-budget probe of one codec. */
  datatype Local = Local(under: Option<Attempt>, over: Option<Attempt>)

  /** An encoder call at quality `q` of the search range. */
  predicate IsProbe(format: Format, size: Encoder, a: Attempt) {
    QualityMin <= a.quality <= QualityMax && a.bytes == EncodedSize(size, format, a.quality)
  }

  /** What every completed search of one codec yields: a fitting "under"
      probe and a non-fitting "over" probe at adjacent qualities, or only one
      of them at the matching end of the range. */
  predicate SearchOutcome(format: Format, targetBytes: int, size: Encoder, l: Local) {
    && (l.under.Some? ==> IsProbe(format, size, l.under.value) && l.under.value.bytes <= targetBytes)
    && (l.over.Some? ==> IsProbe(format, size, l.over.value) && l.over.value.bytes > targetBytes)
    && (l.under.None? ==> l.over.Some? && l.over.value.quality == QualityMin)
    && (l.over.None? ==> l.under.Some? && l.under.value.quality == QualityMax)
    && (l.under.Some? && l.over.Some? ==> l.over.value.quality == l.under.value.quality + 1)
  }

  /** The encoder's output does not shrink as the quality rises. */
  ghost predicate Monotone(format: Format, size: Encoder) {
    forall q1, q2 :: QualityMin <= q1 <= q2 <= QualityMax ==> EncodedSize(size, format, q1) <= EncodedSize(size, format, q2)
  }

  /** The search's "under" result is the largest quality in range that fits. */
  ghost predicate Maximal(format: Format, targetBytes: int, size: Encoder, l: Local) {
    && (l.under.Some? ==> forall q :: l.under.value.quality < q <= QualityMax ==> EncodedSize(size, format, q) > targetBytes)
    && (l.under.None? ==> forall q :: QualityMin <= q <= QualityMax ==> EncodedSize(size, format, q) > targetBytes)
  }

  /** The most the width of the remaining range can be after `i` probes. */
  function WidthBound(i: nat): nat {
    if i == 0 then QualityMax - QualityMin + 1 else WidthBound(i - 1) / 2
  }

  lemma WidthBoundAtSeven()
    ensures WidthBound(7) == 0
  {
  }

  /** Probing the midpoint leaves at most half of the range on either side. */
  lemma Narrow(lo: int, hi: int, i: nat)
    requires lo <= hi && hi - lo + 1 <= WidthBound(i)
    ensures hi - ((lo + hi) / 2 + 1) + 1 <= WidthBound(i + 1)
    ensures ((lo + hi) / 2 - 1) - lo + 1 <= WidthBound(i + 1)
  {
  }

  /** With a monotone encoder, a search outcome holds the maximal fitting quality. */
  lemma {:induction false} OutcomeIsMaximal(format: Format, targetBytes: int, size: Encoder, l: Local)
    requires SearchOutcome(format, targetBytes, size, l)
    requires Monotone(format, size)
    ensures Maximal(format, targetBytes, size, l)
  {
    if l.over.Some? {
      var o := l.over.value;
      forall q | o.quality <= q <= QualityMax
        ensures EncodedSize(size, format, q) > targetBytes
      {
        assert EncodedSize(size, format, o.quality) <= EncodedSize(size, format, q);
      }
    }
  }

  /** The loop's state between probes: the range [lo, hi] still to search
      and the nearest probes found below and above it. */
  datatype Range = Range(lo: int, hi: int, under: Option<Attempt>, over: Option<Attempt>)

  const Initial := Range(QualityMin, QualityMax, None, None)

  /** Every probe below `lo` fits and every probe above `hi` does not; the
      nearest of each, when there is one, sits right next to the range. */
  predicate Bracketed(format: Format, targetBytes: int, size: Encoder, st: Range) {
    && QualityMin <= st.lo <= st.hi + 1 <= QualityMax + 1
    && (st.under.None? <==> st.lo == QualityMin)
    && (st.under.Some? ==> st.under.value == Attempt(st.lo - 1, EncodedSize(size, format, st.lo - 1))
                           && st.under.value.bytes <= targetBytes)
    && (st.over.None? <==> st.hi == QualityMax)
    && (st.over.Some? ==> st.over.value == Attempt(st.hi + 1, EncodedSize(size, format, st.hi + 1))
                          && st.over.value.bytes > targetBytes)
  }

  /** The loop goes on while the range is not empty. */
  predicate Open(st: Range) {
    st.lo <= st.hi
  }

  /** The probe at the midpoint of the range. */
  function MidProbe(format: Format, size: Encoder, st: Range): Attempt {
    var mid := (st.lo + st.hi) / 2;
    Attempt(mid, EncodedSize(size, format, mid))
  }

  /** One iteration of the loop: a fitting probe moves `lo` past it, any
      other moves `hi` below it. */
  function Next(format: Format, targetBytes: int, size: Encoder, st: Range): Range {
    var probe := MidProbe(format, size, st);
    if probe.bytes <= targetBytes then Range(probe.quality + 1, st.hi, Some(probe), st.over)
    else Range(st.lo, probe.quality - 1, st.under, Some(probe))
  }

  /** The loop's state after `k` iterations; once the range is empty the
      loop has stopped and the state no longer changes. */
  function After(format: Format, targetBytes: int, size: Encoder, k: nat): Range {
    if k == 0 then Initial
    else
      var st := After(format, targetBytes, size, k - 1);
      if Open(st) then Next(format, targetBytes, size, st) else st
  }

  /** The result of the search of one codec: the loop stops after ProbeCap
      iterations or as soon as the range is empty. */
  function Search(format: Format, targetBytes: int, size: Encoder): Local {
    var st := After(format, targetBytes, size, ProbeCap);
    Local(st.under, st.over)
  }

  /** One iteration keeps the state bracketed and at least halves the range. */
  lemma NextBracketed(format: Format, targetBytes: int, size: Encoder, st: Range, i: nat)
    requires Bracketed(format, targetBytes, size, st)
    requires st.lo <= st.hi && st.hi - st.lo + 1 <= WidthBound(i)
    ensures var next := Next(format, targetBytes, size, st);
      && Bracketed(format, targetBytes, size, next)
      && next.hi - next.lo + 1 <= WidthBound(i + 1)
  {
    Narrow(st.lo, st.hi, i);
  }

  /** Up to the seventh iteration every state is bracketed and the range has
      at most WidthBound(k) qualities. */
  lemma {:induction false} AfterBracketed(format: Format, targetBytes: int, size: Encoder, k: nat)
    requires k <= 7
    ensures Bracketed(format, targetBytes, size, After(format, targetBytes, size, k))
    ensures After(format, targetBytes, size, k).hi - After(format, targetBytes, size, k).lo + 1 <= WidthBound(k)
  {
    if k > 0 {
      AfterBracketed(format, targetBytes, size, k - 1);
      var st := After(format, targetBytes, size, k - 1);
      if Open(st) {
        NextBracketed(format, targetBytes, size, st, k - 1);
      }
    }
  }

  /** The nearest probes held after `k` iterations are probes the loop made. */
  lemma {:induction false} AfterNearestProbed(format: Format, targetBytes: int, size: Encoder, k: nat)
    ensures After(format, targetBytes, size, k).under.Some? ==>
      exists j :: 0 <= j < k && Open(After(format, targetBytes, size, j))
        && After(format, targetBytes, size, k).under.value == MidProbe(format, size, After(format, targetBytes, size, j))
    ensures After(format, targetBytes, size, k).over.Some? ==>
      exists j :: 0 <= j < k && Open(After(format, targetBytes, size, j))
        && After(format, targetBytes, size, k).over.value == MidProbe(format, size, After(format, targetBytes, size, j))
  {
    if k > 0 {
      AfterNearestProbed(format, targetBytes, size, k - 1);
    }
  }

  /** Once the range is empty, later iterations change nothing. */
  lemma {:induction false} AfterStable(format: Format, targetBytes: int, size: Encoder, i: nat, j: nat)
    requires i <= j && !Open(After(format, targetBytes, size, i))
    ensures After(format, targetBytes, size, j) == After(format, targetBytes, size, i)
    decreases j - i
  {
    if i < j {
      AfterStable(format, targetBytes, size, i, j - 1);
    }
  }

  /** Each iteration that replaces the nearest fitting probe replaces it by
      one of strictly higher quality, and each that replaces the nearest
      oversized probe by one of strictly lower quality. */
  lemma NearestMoveInward(format: Format, targetBytes: int, size: Encoder, k: nat)
    ensures var st, next := After(format, targetBytes, size, k), After(format, targetBytes, size, k + 1);
      st.under.Some? && next.under != st.under ==> next.under.Some? && next.under.value.quality > st.under.value.quality
    ensures var st, next := After(format, targetBytes, size, k), After(format, targetBytes, size, k + 1);
      st.over.Some? && next.over != st.over ==> next.over.Some? && next.over.value.quality < st.over.value.quality
  {
    if k < 7 {
      AfterBracketed(format, targetBytes, size, k);
    } else {
      AfterBracketed(format, targetBytes, size, 7);
      WidthBoundAtSeven();
      AfterStable(format, targetBytes, size, 7, k);
      AfterStable(format, targetBytes, size, 7, k + 1);
    }
  }

  /** A bracketed state whose range is empty holds a search outcome. */
  lemma StoppedOutcome(format: Format, targetBytes: int, size: Encoder, st: Range)
    requires Bracketed(format, targetBytes, size, st) && !Open(st)
    ensures SearchOutcome(format, targetBytes, size, Local(st.under, st.over))
  {
  }

  /** The search of one codec: its results bracket the budget at adjacent
      qualities (maximal when the encoder is monotone) and are encodings the
      loop made; the range is empty after seven iterations, so the cap of
      ten probes never cuts the search short. */
  lemma SearchCorrect(format: Format, targetBytes: int, size: Encoder)
    ensures SearchOutcome(format, targetBytes, size, Search(format, targetBytes, size))
    ensures Monotone(format, size) ==> Maximal(format, targetBytes, size, Search(format, targetBytes, size))
    ensures !Open(After(format, targetBytes, size, 7)) && 7 < ProbeCap
    ensures Search(format, targetBytes, size) == Local(After(format, targetBytes, size, 7).under, After(format, targetBytes, size, 7).over)
  {
    AfterBracketed(format, targetBytes, size, 7);
    WidthBoundAtSeven();
    var st := After(format, targetBytes, size, 7);
    StoppedOutcome(format, targetBytes, size, st);
    AfterStable(format, targetBytes, size, 7, ProbeCap);
    if Monotone(format, size) {
      OutcomeIsMaximal(format, targetBytes, size, Search(format, targetBytes, size));
    }
  }

  /** Once the loop has stopped, its state is the search result. */
  lemma SearchStops(format: Format, targetBytes: int, size: Encoder, i: nat)
    requires i <= ProbeCap && (i == ProbeCap || !Open(After(format, targetBytes, size, i)))
    ensures Search(format, targetBytes, size)
         == Local(After(format, targetBytes, size, i).under, After(format, targetBytes, size, i).over)
  {
    if i < ProbeCap {
      AfterStable(format, targetBytes, size, i, ProbeCap);
    }
  }

  /** The call `renderToBuffer(inputPath, format, mid)` of the search loop,
      at a quality already inside the search range. */
  method RenderAt(inputPath: string, format: Format, q: int, size: Encoder) returns (r: Result<nat, ConvertError>)
    requires QualityMin <= q <= QualityMax
    ensures r.Failure? <==> RejectsInput(inputPath, format)
    ensures r.Success? ==> r.value == EncodedSize(size, format, q)
  {
    RoundOfInteger(q);
    r := RenderToBuffer(inputPath, format, Some(Finite(q as real)), size);
  }

  /** The inner loop of optimizeToTargetSize for one codec. */
  method SearchCodec(inputPath: string, format: Format, targetBytes: int, size: Encoder)
    returns (r: Result<Local, ConvertError>)
    ensures r.Failure? <==> RejectsInput(inputPath, format)
    ensures r.Success? ==> r.value == Search(format, targetBytes, size)
  {
    var lo, hi := QualityMin, QualityMax;
    var under: Option<Attempt> := None;
    var over: Option<Attempt> := None;
    var i := 0;
    ghost var rejects := RejectsInput(inputPath, format);
    while i < ProbeCap && lo <= hi
      invariant 0 <= i <= ProbeCap
      invariant QualityMin <= lo && hi <= QualityMax
      invariant i == 0 ==> lo <= hi
      invariant i > 0 ==> !rejects
      invariant Range(lo, hi, under, over) == After(format, targetBytes, size, i)
      decreases ProbeCap - i
    {
      ghost var st := Range(lo, hi, under, over);
      var mid := (lo + hi) / 2;
      var buffer := RenderAt(inputPath, format, mid, size);
      if buffer.Failure? {
        r := Failure(buffer.error);
        return;
      }
      var probe := Attempt(mid, buffer.value);
      assert probe == MidProbe(format, size, st);
      if buffer.value <= targetBytes {
        under := Some(probe);
        lo := mid + 1;
      } else {
        over := Some(probe);
        hi := mid - 1;
      }
      assert Range(lo, hi, under, over) == Next(format, targetBytes, size, st) == After(format, targetBytes, size, i + 1);
      i := i + 1;
    }
    SearchStops(format, targetBytes, size, i);
    r := Success(Local(under, over));
  }

  // ---------------------------------------------------------------------
  // Choosing across codecs

  datatype Choice = Choice(format: Format, quality: int, bytes: nat)

  datatype Best = Best(under: Option<Choice>, over: Option<Choice>)

  /** One codec's contribution to bestUnder/bestOver: its under result if it
      has one, otherwise its over result; a candidate replaces the current
      best only when strictly smaller. */
  function Consider(best: Best, format: Format, l: Local): Best {
    if l.under.Some? then
      var cand := Choice(format, l.under.value.quality, l.under.value.bytes);
      if best.under.None? || cand.bytes < best.under.value.bytes then best.(under := Some(cand)) else best
    else if l.over.Some? then
      var cand := Choice(format, l.over.value.quality, l.over.value.bytes);
      if best.over.None? || cand.bytes < best.over.value.bytes then best.(over := Some(cand)) else best
    else best
  }

  /** bestUnder and bestOver after the codecs `formats`, with search results `locals`. */
  function Fold(formats: seq<Format>, locals: seq<Local>): Best
    requires |formats| == |locals|
  {
    if |locals| == 0 then Best(None, None)
    else Consider(Fold(formats[..|formats| - 1], locals[..|locals| - 1]), formats[|formats| - 1], locals[|locals| - 1])
  }

  /** Codec `j`'s under result is the smallest one, and no earlier codec's is as small. */
  ghost predicate EarliestSmallestUnder(locals: seq<Local>, j: int) {
    && 0 <= j < |locals| && locals[j].under.Some?
    && (forall k :: 0 <= k < |locals| && locals[k].under.Some? ==> locals[j].under.value.bytes <= locals[k].under.value.bytes)
    && (forall k :: 0 <= k < j && locals[k].under.Some? ==> locals[k].under.value.bytes > locals[j].under.value.bytes)
  }

  /** The same among the over results of the codecs without an under result. */
  ghost predicate EarliestSmallestOver(locals: seq<Local>, j: int) {
    && 0 <= j < |locals| && locals[j].under.None? && locals[j].over.Some?
    && (forall k :: 0 <= k < |locals| && locals[k].under.None? && locals[k].over.Some? ==>
          locals[j].over.value.bytes <= locals[k].over.value.bytes)
    && (forall k :: 0 <= k < j && locals[k].under.None? && locals[k].over.Some? ==>
          locals[k].over.value.bytes > locals[j].over.value.bytes)
  }

  /** bestUnder is the earliest smallest under result, and exists iff some codec has one. */
  lemma {:induction false} FoldUnder(formats: seq<Format>, locals: seq<Local>)
    requires |formats| == |locals|
    ensures Fold(formats, locals).under.None? <==> forall k :: 0 <= k < |locals| ==> locals[k].under.None?
    ensures Fold(formats, locals).under.Some? ==>
      exists j :: EarliestSmallestUnder(locals, j)
        && Fold(formats, locals).under.value == Choice(formats[j], locals[j].under.value.quality, locals[j].under.value.bytes)
  {
    if |locals| > 0 {
      var n := |locals| - 1;
      var fs, ls := formats[..n], locals[..n];
      FoldUnder(fs, ls);
      var prev := Fold(fs, ls);
      var l := locals[n];
      assert Fold(formats, locals) == Consider(prev, formats[n], l);
      assert forall k :: 0 <= k < n ==> ls[k] == locals[k] && fs[k] == formats[k];
      if prev.under.Some? {
        var j :| EarliestSmallestUnder(ls, j)
          && prev.under.value == Choice(fs[j], ls[j].under.value.quality, ls[j].under.value.bytes);
        if l.under.Some? && l.under.value.bytes < prev.under.value.bytes {
          assert EarliestSmallestUnder(locals, n);
        } else {
          assert EarliestSmallestUnder(locals, j);
        }
      } else if l.under.Some? {
        assert EarliestSmallestUnder(locals, n);
      }
    }
  }

  /** bestOver is the earliest smallest over result among the codecs that had
      no under result, and exists iff some such codec has one. */
  lemma {:induction false} FoldOver(formats: seq<Format>, locals: seq<Local>)
    requires |formats| == |locals|
    ensures Fold(formats, locals).over.None? <==>
      forall k :: 0 <= k < |locals| ==> locals[k].under.Some? || locals[k].over.None?
    ensures Fold(formats, locals).over.Some? ==>
      exists j :: EarliestSmallestOver(locals, j)
        && Fold(formats, locals).over.value == Choice(formats[j], locals[j].over.value.quality, locals[j].over.value.bytes)
  {
    if |locals| > 0 {
      var n := |locals| - 1;
      var fs, ls := formats[..n], locals[..n];
      FoldOver(fs, ls);
      var prev := Fold(fs, ls);
      var l := locals[n];
      assert Fold(formats, locals) == Consider(prev, formats[n], l);
      assert forall k :: 0 <= k < n ==> ls[k] == locals[k] && fs[k] == formats[k];
      if prev.over.Some? {
        var j :| EarliestSmallestOver(ls, j)
          && prev.over.value == Choice(fs[j], ls[j].over.value.quality, ls[j].over.value.bytes);
        if l.under.None? && l.over.Some? && l.over.value.bytes < prev.over.value.bytes {
          assert EarliestSmallestOver(locals, n);
        } else {
          assert EarliestSmallestOver(locals, j);
        }
      } else if l.under.None? && l.over.Some? {
        assert EarliestSmallestOver(locals, n);
      }
    }
  }

  /** The outcome of the optimiser once every codec has been searched. */
  ghost predicate ChosenFrom(formats: seq<Format>, locals: seq<Local>, c: Choice) {
    |formats| == |locals| &&
    if exists k :: 0 <= k < |locals| && locals[k].under.Some? then
      exists j :: EarliestSmallestUnder(locals, j)
        && c == Choice(formats[j], locals[j].under.value.quality, locals[j].under.value.bytes)
    else
      exists j :: EarliestSmallestOver(locals, j)
        && c == Choice(formats[j], locals[j].over.value.quality, locals[j].over.value.bytes)
  }

  /** The search results of the codecs `formats`, in order. */
  function Searched(formats: seq<Format>, targetBytes: int, size: Encoder): (r: seq<Local>)
    ensures |r| == |formats|
    ensures forall j :: 0 <= j < |formats| ==> r[j] == Search(formats[j], targetBytes, size)
  {
    if |formats| == 0 then []
    else Searched(formats[..|formats| - 1], targetBytes, size) + [Search(formats[|formats| - 1], targetBytes, size)]
  }

  /** Searching one more codec appends its result. */
  lemma SearchedStep(formats: seq<Format>, k: nat, targetBytes: int, size: Encoder)
    requires k < |formats|
    ensures Searched(formats[..k + 1], targetBytes, size) == Searched(formats[..k], targetBytes, size) + [Search(formats[k], targetBytes, size)]
  {
    assert formats[..k + 1][..k] == formats[..k];
  }

  /** Folding one more codec's result is one more Consider step. */
  lemma FoldStep(formats: seq<Format>, locals: seq<Local>, k: nat, l: Local)
    requires k < |formats| && |locals| == k
    ensures Fold(formats[..k + 1], locals + [l]) == Consider(Fold(formats[..k], locals), formats[k], l)
  {
    assert formats[..k + 1][..k] == formats[..k];
    assert (locals + [l])[..k] == locals;
  }

  /** bestUnder if there is one, otherwise bestOver. */
  function Chosen(formats: seq<Format>, locals: seq<Local>): Option<Choice>
    requires |formats| == |locals|
  {
    var best := Fold(formats, locals);
    if best.under.Some? then best.under else best.over
  }

  /** The codec and quality the optimiser settles on. */
  function Optimized(targetKb: JsNumber, prefer: Prefer, format: Option<Format>, size: Encoder): Option<Choice> {
    var candidates := Candidates(prefer, format);
    Chosen(candidates, Searched(candidates, TargetBytes(targetKb), size))
  }

  /** The file written for the chosen encoding. */
  function OptimizedOutput(c: Choice, tempRoot: string, randomSuffix: string): ConvertOutput {
    ConvertOutput(OutputPath(MkdtempPath(tempRoot, ImageConvertPrefix, randomSuffix), c.format), c.format, Some(c.quality), c.bytes)
  }

  /** The optimiser always has a result: the smallest fitting encoding if any
      codec fits (the earliest codec winning ties), otherwise the smallest
      non-fitting one; it is a buffer one of the candidate codecs encoded, and
      it fits the budget exactly when some codec fits. */
  lemma OptimizedCorrect(targetKb: JsNumber, prefer: Prefer, format: Option<Format>, size: Encoder)
    ensures var candidates := Candidates(prefer, format);
      var locals := Searched(candidates, TargetBytes(targetKb), size);
      var c := Optimized(targetKb, prefer, format, size);
      && c.Some?
      && ChosenFrom(candidates, locals, c.value)
      && c.value.format in candidates
      && IsProbe(c.value.format, size, Attempt(c.value.quality, c.value.bytes))
      && ((exists k :: 0 <= k < |locals| && locals[k].under.Some?) <==> c.value.bytes <= TargetBytes(targetKb))
  {
    var candidates := Candidates(prefer, format);
    var targetBytes := TargetBytes(targetKb);
    var locals := Searched(candidates, targetBytes, size);
    forall k | 0 <= k < |locals|
      ensures SearchOutcome(candidates[k], targetBytes, size, locals[k])
    {
      SearchCorrect(candidates[k], targetBytes, size);
    }
    FoldUnder(candidates, locals);
    FoldOver(candidates, locals);
    assert locals[0].under.Some? || locals[0].over.Some?;
  }

  /** The "no output" error of the optimiser cannot happen. */
  lemma OptimizedExists(targetKb: JsNumber, prefer: Prefer, format: Option<Format>, size: Encoder)
    ensures Optimized(targetKb, prefer, format, size).Some?
  {
    OptimizedCorrect(targetKb, prefer, format, size);
  }

  /** The loop of optimizeToTargetSize: each candidate codec is searched in
      turn and its result folded into bestUnder/bestOver; a codec that cannot
      encode the input aborts the whole loop. */
  method SearchCandidates(inputPath: string, candidates: seq<Format>, targetBytes: int, size: Encoder)
    returns (r: Result<Best, ConvertError>)
    ensures r.Failure? <==> exists c :: c in candidates && RejectsInput(inputPath, c)
    ensures r.Success? ==> r.value == Fold(candidates, Searched(candidates, targetBytes, size))
  {
    var bestUnder: Option<Choice> := None;
    var bestOver: Option<Choice> := None;
    ghost var locals: seq<Local> := [];
    for k := 0 to |candidates|
      invariant locals == Searched(candidates[..k], targetBytes, size)
      invariant Best(bestUnder, bestOver) == Fold(candidates[..k], locals)
      invariant forall m :: 0 <= m < k ==> !RejectsInput(inputPath, candidates[m])
    {
      var c := candidates[k];
      var res := SearchCodec(inputPath, c, targetBytes, size);
      if res.Failure? {
        r := Failure(res.error);
        return;
      }
      var l := res.value;
      SearchedStep(candidates, k, targetBytes, size);
      FoldStep(candidates, locals, k, l);
      ghost var before := Best(bestUnder, bestOver);
      if l.under.Some? {
        var cand := Choice(c, l.under.value.quality, l.under.value.bytes);
        if bestUnder.None? || cand.bytes < bestUnder.value.bytes {
          bestUnder := Some(cand);
        }
      } else if l.over.Some? {
        var cand := Choice(c, l.over.value.quality, l.over.value.bytes);
        if bestOver.None? || cand.bytes < bestOver.value.bytes {
          bestOver := Some(cand);
        }
      }
      assert Best(bestUnder, bestOver) == Consider(before, c, l);
      locals := locals + [l];
    }
    assert candidates[..|candidates|] == candidates;
    r := Success(Best(bestUnder, bestOver));
  }

  /** optimizeToTargetSize: the candidate codecs are searched, and the chosen
      encoding is written to a fresh temporary directory. */
  method OptimizeToTargetSize(inputPath: string, targetKb: JsNumber, prefer: Prefer, format: Option<Format>,
                              size: Encoder, tempRoot: string, randomSuffix: string)
    returns (r: Result<ConvertOutput, ConvertError>)
    ensures r.Failure? <==> exists c :: c in Candidates(prefer, format) && RejectsInput(inputPath, c)
    ensures r.Success? ==>
      Optimized(targetKb, prefer, format, size).Some?
      && r.value == OptimizedOutput(Optimized(targetKb, prefer, format, size).value, tempRoot, randomSuffix)
  {
    var targetBytes := TargetBytes(targetKb);
    var candidates := Candidates(prefer, format);
    var best := SearchCandidates(inputPath, candidates, targetBytes, size);
    if best.Failure? {
      return Failure(best.error);
    }
    var bestUnder, bestOver := best.value.under, best.value.over;
    // The "no output" error of the source cannot happen: the first codec
    // always has an under or an over result.
    OptimizedExists(targetKb, prefer, format, size);
    var chosen := if bestUnder.Some? then bestUnder else bestOver;
    assert chosen.Some?;
    var c := chosen.value;
    var tmpDir := MkdtempPath(tempRoot, ImageConvertPrefix, randomSuffix);
    r := Success(ConvertOutput(OutputPath(tmpDir, c.format), c.format, Some(c.quality), c.bytes));
  }

  /** convertImage: the target-size mode defaults to 'auto-small'; the fixed
      mode encodes once at the clamped quality. */
  method ConvertImage(args: ConvertArgs, size: Encoder, tempRoot: string, randomSuffix: string)
    returns (r: Result<ConvertOutput, ConvertError>)
    ensures args.Convert? ==>
      var q := ClampQuality(args.quality);
      if RejectsInput(args.inputPath, args.format) then r == Failure(IcoInputUnsupported)
      else r == Success(ConvertOutput(OutputPath(MkdtempPath(tempRoot, ImageConvertPrefix, randomSuffix), args.format),
                                      args.format, ReportedQuality(args.format, q), EncodedSize(size, args.format, q)))
    ensures args.TargetSize? ==>
      var cands := Candidates(args.prefer.GetOr(AutoSmall), args.targetFormat);
      && (r.Failure? <==> exists c :: c in cands && RejectsInput(args.inputPath, c))
      && (r.Success? ==>
            (Optimized(args.targetKb, args.prefer.GetOr(AutoSmall), args.targetFormat, size).Some?
             && r.value == OptimizedOutput(Optimized(args.targetKb, args.prefer.GetOr(AutoSmall), args.targetFormat, size).value,
                                           tempRoot, randomSuffix)))
  {
    if args.TargetSize? {
      var res := OptimizeToTargetSize(args.inputPath, args.targetKb, args.prefer.GetOr(AutoSmall), args.targetFormat,
                                         size, tempRoot, randomSuffix);
      return res;
    }
    var q := ClampQuality(args.quality);
    var buffer := RenderToBuffer(args.inputPath, args.format, Some(Finite(q as real)), size);
    RoundOfInteger(q);
    if buffer.Failure? {
      return Failure(buffer.error);
    }
    var tmpDir := MkdtempPath(tempRoot, ImageConvertPrefix, randomSuffix);
    r := Success(ConvertOutput(OutputPath(tmpDir, args.format), args.format, ReportedQuality(args.format, q), buffer.value));
  }
}
