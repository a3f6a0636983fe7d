/** The PDF service of the main process: merging documents, normalising
    1-based page ranges and splitting a document into one file per page or
    per range. A PDF document is modelled as its sequence of pages; loading a
    file is an abstract function from its path to its pages, and saving a
    document writes exactly its pages. */
module Pdf {
  import opened Outcomes
  import opened JsNumbers
  import opened Strings
  import opened TempPaths

  /** A page of some loaded document (which document, and where in it). */
  datatype Page = Page(source: string, index: nat)

  /** `PDFDocument.load(readFile(path))`, seen through its pages. */
  type Loader = string -> seq<Page>

  datatype PdfError = TooFewInputs | NoPages | NoValidRange

  /** A saved output document: where it is written and the pages it holds. */
  datatype OutputFile = OutputFile(path: string, pages: seq<Page>)

  // ---------------------------------------------------------------------
  // createTempDir

  datatype TempDir = TempDir(tempDir: string, dirPrefix: string)

  /** createTempDir: 'toolsx-pdf-' followed by the decimal timestamp, joined to
      the OS temp directory. The timestamp `now` (Date.now()) is a parameter. */
  function CreateTempDir(tmpdir: string, now: nat): (r: TempDir)
    ensures StartsWith(r.dirPrefix, PdfPrefix)
    ensures AllDigits(r.dirPrefix[|PdfPrefix|..]) && DigitsValue(r.dirPrefix[|PdfPrefix|..]) == now
    ensures r.tempDir == tmpdir + "/" + r.dirPrefix
  {
    NatToStringDigits(now);
    var prefix := PdfPrefix + NatToString(now);
    assert prefix[|PdfPrefix|..] == NatToString(now);
    TempDir(PathJoin(tmpdir, prefix), prefix)
  }

  // ---------------------------------------------------------------------
  // mergePdf

  /** The pages of the documents at `paths`, one document after another. */
  function AllPages(paths: seq<string>, load: Loader): seq<Page> {
    if |paths| == 0 then [] else AllPages(paths[..|paths| - 1], load) + load(paths[|paths| - 1])
  }

  /** Where document `k`'s pages start in the merged document. */
  function Offset(paths: seq<string>, load: Loader, k: nat): nat
    requires k <= |paths|
  {
    |AllPages(paths[..k], load)|
  }

  /** Page `j` of input `k` is page Offset(k) + j of the merged document: the
      merged pages are every input's pages, in input order. */
  lemma {:induction false} AllPagesAt(paths: seq<string>, load: Loader, k: nat, j: nat)
    requires k < |paths| && j < |load(paths[k])|
    ensures Offset(paths, load, k) + j < |AllPages(paths, load)|
    ensures AllPages(paths, load)[Offset(paths, load, k) + j] == load(paths[k])[j]
    decreases |paths|
  {
    var n := |paths| - 1;
    var init := paths[..n];
    if k == n {
      assert paths[..k] == init;
    } else {
      AllPagesAt(init, load, k, j);
      assert init[..k] == paths[..k];
      assert init[k] == paths[k];
    }
  }

  /** The merged document is as long as all inputs together. */
  lemma {:induction false} AllPagesAppend(a: seq<string>, b: seq<string>, load: Loader)
    ensures AllPages(a + b, load) == AllPages(a, load) + AllPages(b, load)
    decreases |b|
  {
    if |b| > 0 {
      var n := |b| - 1;
      AllPagesAppend(a, b[..n], load);
      assert (a + b)[..|a + b| - 1] == a + b[..n];
    } else {
      assert a + b == a;
    }
  }

  datatype MergeResult = MergeResult(output: OutputFile, tempDir: string)

  /** mergePdf: at least two inputs; every page of every input is copied into
      a new document, input after input, saved as merged.pdf. */
  method MergePdf(inputPaths: seq<string>, load: Loader, tmpdir: string, now: nat)
    returns (r: Result<MergeResult, PdfError>)
    ensures r.Failure? <==> |inputPaths| < 2
    ensures r.Success? ==>
      && r.value.tempDir == CreateTempDir(tmpdir, now).tempDir
      && r.value.output == OutputFile(PathJoin(r.value.tempDir, "merged.pdf"), AllPages(inputPaths, load))
  {
    if |inputPaths| < 2 {
      return Failure(TooFewInputs);
    }
    var tempDir := CreateTempDir(tmpdir, now).tempDir;
    var merged: seq<Page> := [];
    for k := 0 to |inputPaths|
      invariant merged == AllPages(inputPaths[..k], load)
    {
      var pages := load(inputPaths[k]);
      ghost var before := merged;
      for m := 0 to |pages|
        invariant merged == before + pages[..m]
      {
        merged := merged + [pages[m]];
      }
      assert pages[..|pages|] == pages;
      assert inputPaths[..k + 1][..k] == inputPaths[..k];
    }
    assert inputPaths[..|inputPaths|] == inputPaths;
    r := Success(MergeResult(OutputFile(PathJoin(tempDir, "merged.pdf"), merged), tempDir));
  }

  // ---------------------------------------------------------------------
  // normalizeRanges

  /** A range as the renderer sends it: the two ends are any JS numbers. */
  datatype RangeArg = RangeArg(start: JsNumber, end: JsNumber)

  /** A 1-based inclusive page range. */
  datatype PageRange = PageRange(start: int, end: int)

  /** `Math.max(1, Math.min(pageCount, Math.floor(v)))` */
  function ClampPage(v: JsNumber, pageCount: int): JsNumber {
    JsMax(Finite(1.0), JsMin(Finite(pageCount as real), JsFloor(v)))
  }

  /** The clamp is NaN only for NaN; otherwise it is the integer floor of a
      finite end, pageCount for +Infinity and 1 for -Infinity, raised to at
      least 1. */
  lemma ClampPageValue(v: JsNumber, pageCount: int)
    ensures v.NaN? <==> ClampPage(v, pageCount).NaN?
    ensures v.Finite? ==> ClampPage(v, pageCount) == Finite(MaxInt(1, MinInt(pageCount, v.value.Floor)) as real)
    ensures v.PosInfinity? ==> ClampPage(v, pageCount) == Finite(MaxInt(1, pageCount) as real)
    ensures v.NegInfinity? ==> ClampPage(v, pageCount) == Finite(1.0)
  {
  }

  /** The integer value of a clamped end that is not NaN. */
  function ClampedEnd(v: JsNumber, pageCount: int): (r: int)
    requires !v.NaN?
    ensures ClampPage(v, pageCount) == Finite(r as real)
  {
    ClampPageValue(v, pageCount);
    if v.Finite? then MaxInt(1, MinInt(pageCount, v.value.Floor))
    else if v.PosInfinity? then MaxInt(1, pageCount)
    else 1
  }

  /** One input range: dropped when an end is not finite after clamping,
      otherwise ordered so that start <= end. */
  function NormalizeOne(r: RangeArg, pageCount: int): (o: Option<PageRange>)
    ensures o.None? <==> r.start.NaN? || r.end.NaN?
    ensures o.Some? ==>
      var s, e := ClampedEnd(r.start, pageCount), ClampedEnd(r.end, pageCount);
      o.value == PageRange(MinInt(s, e), MaxInt(s, e))
  {
    var s, e := ClampPage(r.start, pageCount), ClampPage(r.end, pageCount);
    ClampPageValue(r.start, pageCount);
    ClampPageValue(r.end, pageCount);
    if !s.IsFinite() || !e.IsFinite() then None
    else
      var si, ei := ClampedEnd(r.start, pageCount), ClampedEnd(r.end, pageCount);
      Some(PageRange(MinInt(si, ei), MaxInt(si, ei)))
  }

  /** The surviving ranges, in input order. */
  function Normalized(ranges: seq<RangeArg>, pageCount: int): seq<PageRange> {
    if |ranges| == 0 then []
    else
      var init := Normalized(ranges[..|ranges| - 1], pageCount);
      var o := NormalizeOne(ranges[|ranges| - 1], pageCount);
      if o.Some? then init + [o.value] else init
  }

  /** The number of input ranges with no NaN end. */
  function CountFinite(ranges: seq<RangeArg>): nat {
    if |ranges| == 0 then 0
    else
      var last := ranges[|ranges| - 1];
      CountFinite(ranges[..|ranges| - 1]) + if last.start.NaN? || last.end.NaN? then 0 else 1
  }

  /** With at least one page, every normalised range lies within the
      document, and exactly the ranges with no NaN end survive: nothing is
      merged or deduplicated. */
  lemma {:induction false} NormalizedProperties(ranges: seq<RangeArg>, pageCount: int)
    ensures |Normalized(ranges, pageCount)| == CountFinite(ranges)
    ensures pageCount >= 1 ==> forall k :: 0 <= k < |Normalized(ranges, pageCount)| ==>
      1 <= Normalized(ranges, pageCount)[k].start <= Normalized(ranges, pageCount)[k].end <= pageCount
  {
    if |ranges| > 0 {
      NormalizedProperties(ranges[..|ranges| - 1], pageCount);
    }
  }

  /** Appending a range appends its normalisation, if it survives. */
  lemma NormalizedSnoc(ranges: seq<RangeArg>, r: RangeArg, pageCount: int)
    ensures Normalized(ranges + [r], pageCount) ==
      Normalized(ranges, pageCount) + (if NormalizeOne(r, pageCount).Some? then [NormalizeOne(r, pageCount).value] else [])
  {
    assert (ranges + [r])[..|ranges|] == ranges;
  }

  /** normalizeRanges: each range is clamped and ordered, in input order;
      it fails when none survives. */
  method NormalizeRanges(ranges: seq<RangeArg>, pageCount: int) returns (r: Result<seq<PageRange>, PdfError>)
    ensures r.Failure? <==> CountFinite(ranges) == 0
    ensures r.Success? ==> r.value == Normalized(ranges, pageCount)
  {
    var out: seq<PageRange> := [];
    for k := 0 to |ranges|
      invariant out == Normalized(ranges[..k], pageCount)
    {
      NormalizedSnoc(ranges[..k], ranges[k], pageCount);
      assert ranges[..k + 1] == ranges[..k] + [ranges[k]];
      var sv := ClampPage(ranges[k].start, pageCount);
      var ev := ClampPage(ranges[k].end, pageCount);
      if !sv.IsFinite() || !ev.IsFinite() {
        continue;
      }
      var s := ClampedEnd(ranges[k].start, pageCount);
      var e := ClampedEnd(ranges[k].end, pageCount);
      out := out + [PageRange(MinInt(s, e), MaxInt(s, e))];
    }
    assert ranges[..|ranges|] == ranges;
    NormalizedProperties(ranges, pageCount);
    if |out| == 0 {
      return Failure(NoValidRange);
    }
    r := Success(out);
  }

  // ---------------------------------------------------------------------
  // splitPdf

  datatype SplitArgs = SplitAll(inputPath: string) | SplitRanges(inputPath: string, ranges: seq<RangeArg>)

  datatype SplitResult = SplitResult(outputs: seq<OutputFile>, tempDir: string)

  /** `page_001.pdf`, `page_002.pdf`, ... for the 1-based page number. */
  function PageFileName(n: nat): (name: string)
    ensures StartsWith(name, "page_") && EndsWith(name, ".pdf") && |name| >= 12
  {
    FileNameShape("page_", PadStart(NatToString(n), 3, '0'), ".pdf");
    "page_" + PadStart(NatToString(n), 3, '0') + ".pdf"
  }

  /** `range_01_3-7.pdf` for the first output, holding pages 3 to 7. */
  function RangeFileName(idx: nat, range: PageRange): string
  {
    "range_" + PadStart(NatToString(idx), 2, '0') + "_" + IntToString(range.start) + "-" + IntToString(range.end) + ".pdf"
  }

  /** Every range file name starts with `range_` and ends with `.pdf`. */
  lemma RangeFileNameShape(idx: nat, range: PageRange)
    ensures StartsWith(RangeFileName(idx, range), "range_") && EndsWith(RangeFileName(idx, range), ".pdf")
  {
    FileNameShape("range_", PadStart(NatToString(idx), 2, '0') + "_" + IntToString(range.start) + "-" + IntToString(range.end), ".pdf");
  }

  /** Between `page_` and `.pdf` sit at least three digits whose value is
      the page number. */
  lemma PageFileNameDigits(n: nat)
    ensures var name := PageFileName(n);
      var digits := name[5..|name| - 4];
      |digits| >= 3 && AllDigits(digits) && DigitsValue(digits) == n
  {
    PaddedNameShape("page_", n, 3, ".pdf");
  }

  /** Distinct page numbers give distinct file names. */
  lemma PageFileNamesDistinct(a: nat, b: nat)
    ensures PageFileName(a) == PageFileName(b) ==> a == b
  {
    var pa, pb := PadStart(NatToString(a), 3, '0'), PadStart(NatToString(b), 3, '0');
    if PageFileName(a) == PageFileName(b) {
      NatToStringDigits(a);
      NatToStringDigits(b);
      PaddedNumberValue(a, 3);
      PaddedNumberValue(b, 3);
      assert |pa| == |pb| by {
        assert |PageFileName(a)| == 5 + |pa| + 4;
      }
      assert pa == PageFileName(a)[5..5 + |pa|];
      assert pb == PageFileName(b)[5..5 + |pb|];
      PaddedNumberInjective(a, b, 3);
    }
  }

  /** The 0-based page indices copied for a range: start-1 up to end-1. */
  method RangeIndices(range: PageRange) returns (indices: seq<int>)
    ensures |indices| == if range.end >= range.start then range.end - range.start + 1 else 0
    ensures forall k :: 0 <= k < |indices| ==> indices[k] == range.start - 1 + k
  {
    indices := [];
    var p := range.start;
    while p <= range.end
      invariant range.start <= p && (p <= range.end + 1 || p == range.start)
      invariant |indices| == p - range.start
      invariant forall k :: 0 <= k < |indices| ==> indices[k] == range.start - 1 + k
      decreases range.end - p
    {
      indices := indices + [p - 1];
      p := p + 1;
    }
  }

  /** What splitAll writes: file i holds page i alone. */
  function SplitAllOutputs(doc: seq<Page>, tempDir: string): seq<OutputFile> {
    seq(|doc|, i requires 0 <= i < |doc| => OutputFile(PathJoin(tempDir, PageFileName(i + 1)), [doc[i]]))
  }

  /** What range mode writes: output idx holds the pages of range idx, in order. */
  function RangeOutputs(doc: seq<Page>, ranges: seq<PageRange>, tempDir: string): seq<OutputFile>
    requires forall k :: 0 <= k < |ranges| ==> 1 <= ranges[k].start <= ranges[k].end <= |doc|
  {
    seq(|ranges|, idx requires 0 <= idx < |ranges| => RangeOutputFile(doc, ranges[idx], idx + 1, tempDir))
  }

  /** Output n of range mode: the range's pages, under its range file name. */
  function RangeOutputFile(doc: seq<Page>, range: PageRange, n: nat, tempDir: string): OutputFile
    requires 1 <= range.start <= range.end <= |doc|
  {
    OutputFile(PathJoin(tempDir, RangeFileName(n, range)), doc[range.start - 1..range.end])
  }

  /** splitAll writes one file per page, with pairwise distinct names. */
  lemma SplitAllDistinct(doc: seq<Page>, tempDir: string, i: nat, j: nat)
    requires i < |doc| && j < |doc| && i != j
    ensures |SplitAllOutputs(doc, tempDir)| == |doc|
    ensures SplitAllOutputs(doc, tempDir)[i].path != SplitAllOutputs(doc, tempDir)[j].path
  {
    var outputs := SplitAllOutputs(doc, tempDir);
    assert outputs[i].path == PathJoin(tempDir, PageFileName(i + 1));
    assert outputs[j].path == PathJoin(tempDir, PageFileName(j + 1));
    PageFilePathsDistinct(tempDir, i + 1, j + 1);
  }

  /** Distinct page numbers give distinct paths under the same directory. */
  lemma PageFilePathsDistinct(tempDir: string, a: nat, b: nat)
    requires a != b
    ensures PathJoin(tempDir, PageFileName(a)) != PathJoin(tempDir, PageFileName(b))
  {
    PageFileNamesDistinct(a, b);
    PathJoinInjective(tempDir, PageFileName(a), PageFileName(b));
  }

  /** The splitAll loop: one output file per page, in page order. */
  method SplitAllFiles(doc: seq<Page>, tempDir: string) returns (outputPaths: seq<OutputFile>)
    ensures outputPaths == SplitAllOutputs(doc, tempDir)
  {
    outputPaths := [];
    for i := 0 to |doc|
      invariant outputPaths == SplitAllOutputs(doc[..i], tempDir)
    {
      var outPath := PathJoin(tempDir, PageFileName(i + 1));
      outputPaths := outputPaths + [OutputFile(outPath, [doc[i]])];
    }
    assert doc[..|doc|] == doc;
  }

  /** Copying the pages at a range's indices copies the range's slice of the document. */
  lemma RangePagesAreSlice(doc: seq<Page>, range: PageRange, indices: seq<int>, pages: seq<Page>)
    requires 1 <= range.start <= range.end <= |doc|
    requires |indices| == range.end - range.start + 1
    requires forall k :: 0 <= k < |indices| ==> indices[k] == range.start - 1 + k
    requires |pages| == |indices| && forall k :: 0 <= k < |pages| ==> pages[k] == doc[indices[k]]
    ensures pages == doc[range.start - 1..range.end]
  {
  }

  /** The range-mode loop: one output file per range, in range order. */
  method SplitRangeFiles(doc: seq<Page>, ranges: seq<PageRange>, tempDir: string) returns (outputPaths: seq<OutputFile>)
    requires forall k :: 0 <= k < |ranges| ==> 1 <= ranges[k].start <= ranges[k].end <= |doc|
    ensures outputPaths == RangeOutputs(doc, ranges, tempDir)
  {
    outputPaths := [];
    for idx := 0 to |ranges|
      invariant |outputPaths| == idx
      invariant forall k :: 0 <= k < idx ==> outputPaths[k] == RangeOutputs(doc, ranges, tempDir)[k]
    {
      var file := WriteRangeFile(doc, ranges[idx], idx + 1, tempDir);
      outputPaths := outputPaths + [file];
    }
  }

  /** One iteration of the range-mode loop: copy pages start-1 .. end-1 of
      the source and name the file after the range's position and bounds. */
  method WriteRangeFile(doc: seq<Page>, range: PageRange, n: nat, tempDir: string) returns (file: OutputFile)
    requires 1 <= range.start <= range.end <= |doc|
    ensures file == RangeOutputFile(doc, range, n, tempDir)
  {
    var indices := RangeIndices(range);
    var pages := seq(|indices|, k requires 0 <= k < |indices| => doc[indices[k]]);
    RangePagesAreSlice(doc, range, indices, pages);
    var outPath := PathJoin(tempDir, RangeFileName(n, range));
    file := OutputFile(outPath, pages);
  }

  /** splitPdf: a document without pages is refused; splitAll writes each page
      to its own file; range mode normalises the ranges and writes one file
      per surviving range. */
  method SplitPdf(args: SplitArgs, load: Loader, tmpdir: string, now: nat) returns (r: Result<SplitResult, PdfError>)
    ensures var doc := load(args.inputPath);
      && (r.Failure? <==> |doc| == 0 || (args.SplitRanges? && CountFinite(args.ranges) == 0))
      && (r.Success? && args.SplitAll? ==>
            r.value == SplitResult(SplitAllOutputs(doc, CreateTempDir(tmpdir, now).tempDir), CreateTempDir(tmpdir, now).tempDir))
      && (r.Success? && args.SplitRanges? ==>
            (NormalizedProperties(args.ranges, |doc|);
             r.value == SplitResult(RangeOutputs(doc, Normalized(args.ranges, |doc|), CreateTempDir(tmpdir, now).tempDir),
                                    CreateTempDir(tmpdir, now).tempDir)))
  {
    var tempDir := CreateTempDir(tmpdir, now).tempDir;
    var doc := load(args.inputPath);
    var pageCount := |doc|;
    if pageCount <= 0 {
      return Failure(NoPages);
    }
    if args.SplitAll? {
      var outputPaths := SplitAllFiles(doc, tempDir);
      return Success(SplitResult(outputPaths, tempDir));
    }
    var normalized := NormalizeRanges(args.ranges, pageCount);
    if normalized.Failure? {
      return Failure(normalized.error);
    }
    NormalizedProperties(args.ranges, pageCount);
    var outputPaths := SplitRangeFiles(doc, normalized.value, tempDir);
    r := Success(SplitResult(outputPaths, tempDir));
  }
}
