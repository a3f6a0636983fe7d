# toolsX core, modelled in Dafny

toolsX is an Electron desktop toolbox. Its main process converts, crops and
renders images, turns video segments into GIFs and merges or splits PDFs. Its
renderer pages stay offline (Base64, QR, timestamps, JSON view, tool search).
This project models the logic of those tools that decides things: the clamps,
validation, naming and page-index rules, parsers, tokenizer and geometry, and
the target-size image optimiser. The libraries underneath are parameters or
are left out: sharp, pdf-lib, ffmpeg, qrcode/jsQR, electron-store, `atob`,
`btoa`, `TextEncoder`, `encodeURIComponent` and `Number()`.

One Dafny module per source file:

- `ImageConvert`: `src/main/services/imageConvert.ts`. The encoder is
  an abstract size function. The binary search over quality 20..95 is a
  `while` loop proved against a state function. The choice across codecs
  is a fold proved to pick the smallest fitting buffer, earlier codec on a tie.
- `Pdf`: `src/main/services/pdf.ts`. Documents are sequences of page ids.
- `PdfToolPage`: the page-range parser and `uniq` of the PDF page.
- `JsonCodeBlock`: the JSON highlighter's lexer, as a loop proved against a
  recursive tokenizer whose tokens concatenate back to the input.
- `FilePath`, `LocalfileUrl`: the renderer's path helpers and the
  `localfile:` URL builder.
- `ImageCrop`, `ImageCropPage`: main-process crop clamping and mask radii, and
  the page's rectangle rules for new, move and resize drags.
- `VideoToGif`, `SvgTool`, `SvgToolPage`: parameter clamps, the two ffmpeg
  command lines, the SVG render plan, and the page's locked size fields (a class).
- `TimestampConvert`, `Base64Tool`, `QrTool`, `Theme`, `UiPrefs` (a class
  over the two stored fields), `HomePage`.
- Support: `Outcomes` (Option/Result), `JsNumbers` (a JavaScript number as
  an exact real, NaN or an infinity; `Math.round`), `Strings` (JavaScript
  `trim`, ASCII `toLowerCase`, `indexOf`, `lastIndexOf`, `split`/`join`,
  `padStart`, decimal numerals), and `TempPaths` (`path.join`, and the name
  `mkdtemp` makes from a prefix and a random suffix).

A JavaScript `throw` is a `Failure` of a `Result`. `undefined` is `None`.

## Model

| member | source | states |
|---|---|---|
| ImageConvert.EndsWithLowerIsLowerSuffix | src/main/services/imageConvert.ts:32-37 | the ICO-input test holds exactly when the lower-cased path ends in `.ico` |
| ImageConvert.IsIcoInput | src/main/services/imageConvert.ts:32-37 | ICO input exactly when the last four characters, lower-cased, are `.ico` |
| ImageConvert.ClampQuality | src/main/services/imageConvert.ts:39-42 | 80 for a missing or non-finite value; otherwise round(v) brought into [1, 100], unchanged when already inside |
| ImageConvert.ClampTargetKb | src/main/services/imageConvert.ts:44-47 | 300 for a non-finite value; otherwise round(v), but at least 10 |
| ImageConvert.TargetBytes | src/main/services/imageConvert.ts:134 | the byte budget is the clamped kilobytes times 1024 |
| ImageConvert.Candidates | src/main/services/imageConvert.ts:136-139 | just the requested format for keep-format with a format; otherwise exactly avif, webp, jpeg in that order |
| ImageConvert.PlanFor | src/main/services/imageConvert.ts:87-118 | the encoder settings per format: ICO sizes 16..256, quality only for jpeg/webp/avif |
| ImageConvert.RenderToBuffer | src/main/services/imageConvert.ts:77-119 | fails exactly when the input is ICO and the target is not; otherwise the encoder's size for the format at clampQuality(quality) |
| ImageConvert.Extension | src/main/services/imageConvert.ts:121-126 | `jpg` for jpeg, the format name otherwise |
| ImageConvert.ReportedQuality | src/main/services/imageConvert.ts:198 | no quality exactly for png, gif and ico; the clamped quality for the others |
| ImageConvert.WidthBoundAtSeven | src/main/services/imageConvert.ts:145-151 | after seven halvings of [20, 95] the range is empty, so the 10-probe cap is never reached |
| ImageConvert.Narrow | src/main/services/imageConvert.ts:150-160 | whichever half a probe keeps, its width is within the next halving bound |
| ImageConvert.OutcomeIsMaximal | src/main/services/imageConvert.ts:150-161 | with a size that does not shrink as quality rises, no quality above the under result fits, and with no under result no quality in [20, 95] fits |
| ImageConvert.NextBracketed | src/main/services/imageConvert.ts:151-160 | one probe keeps the under result at lo-1 and fitting, the over result at hi+1 and over budget, and halves the range |
| ImageConvert.AfterBracketed | src/main/services/imageConvert.ts:145-161 | that bracketing holds after every number of probes |
| ImageConvert.NearestMoveInward | src/main/services/imageConvert.ts:154-160 | a probe that replaces the nearest fitting result has strictly higher quality, and one that replaces the nearest oversized result strictly lower |
| ImageConvert.AfterNearestProbed | src/main/services/imageConvert.ts:150-160 | the remembered under and over results are probes the loop actually made |
| ImageConvert.AfterStable | src/main/services/imageConvert.ts:150 | once lo > hi, further iterations change nothing |
| ImageConvert.StoppedOutcome | src/main/services/imageConvert.ts:150-161 | at exit the under result fits, the over result does not, and they are adjacent qualities (or 20 with no under, 95 with no over) |
| ImageConvert.SearchCorrect | src/main/services/imageConvert.ts:145-161 | the per-codec search ends within 7 of the 10 allowed probes with that outcome, maximal when the size is monotone |
| ImageConvert.SearchStops | src/main/services/imageConvert.ts:150 | the result is the state at the first iteration where lo > hi or the cap is reached |
| ImageConvert.RenderAt | src/main/services/imageConvert.ts:152 | one probe at an in-range quality fails exactly on ICO input, else gives the encoder's size at that quality |
| ImageConvert.SearchCodec | src/main/services/imageConvert.ts:144-161 | the inner loop fails exactly on ICO input and otherwise computes the search state function, probing only qualities in [20, 95] |
| ImageConvert.FoldUnder | src/main/services/imageConvert.ts:163-167 | there is an under result exactly when some codec found one, and it is the earliest codec's among the smallest |
| ImageConvert.FoldOver | src/main/services/imageConvert.ts:168-173 | an over result is kept only from codecs without an under result, the earliest among the smallest |
| ImageConvert.Searched | src/main/services/imageConvert.ts:144-161 | the per-codec results of the candidate loop |
| ImageConvert.SearchedStep | src/main/services/imageConvert.ts:144-174 | step lemma: one more codec appends one result |
| ImageConvert.FoldStep | src/main/services/imageConvert.ts:163-173 | step lemma: one more codec folds into the running best |
| ImageConvert.OptimizedCorrect | src/main/services/imageConvert.ts:128-177 | the chosen result is the smallest under result if one exists, else the smallest over result (earlier codec on a tie); it is a real probe of a candidate, and fits the budget exactly when some codec fit |
| ImageConvert.OptimizedExists | src/main/services/imageConvert.ts:176-177 | for a non-empty candidate list, a result exists, so the "no result" error cannot happen |
| ImageConvert.SearchCandidates | src/main/services/imageConvert.ts:141-174 | the outer loop fails exactly when some candidate rejects the input, and otherwise computes the fold over all candidates' searches |
| ImageConvert.OptimizeToTargetSize | src/main/services/imageConvert.ts:128-182 | fails exactly when some candidate rejects the input; otherwise writes the chosen result to `out.<ext>` in a fresh `toolsx-imgc-` directory |
| ImageConvert.ConvertImage | src/main/services/imageConvert.ts:184-199 | target-size mode runs the optimiser; fixed mode renders at clampQuality(q) and reports the quality rule |
| Pdf.CreateTempDir | src/main/services/pdf.ts:32-36 | `toolsx-pdf-` followed by the timestamp's digits, directly under the temp directory |
| Pdf.AllPagesAt | src/main/services/pdf.ts:51-56 | page k of the merge is the matching page of the matching input |
| Pdf.AllPagesAppend | src/main/services/pdf.ts:51-56 | merging one more document appends its pages |
| Pdf.MergePdf | src/main/services/pdf.ts:43-63 | fails exactly for fewer than two inputs; otherwise the pages are the inputs' pages in input order, written to `merged.pdf` in a fresh directory |
| Pdf.ClampPageValue | src/main/services/pdf.ts:69-70 | a NaN bound stays NaN; a finite one is floored and clamped into [1, pageCount]; +Infinity gives pageCount, -Infinity gives 1 |
| Pdf.ClampedEnd | src/main/services/pdf.ts:69-70 | a bound that is not NaN clamps to a whole page number |
| Pdf.NormalizeOne | src/main/services/pdf.ts:69-74 | a range is skipped exactly when a bound is NaN; otherwise it becomes {min, max} of its clamped bounds, so a reversed range is swapped |
| Pdf.NormalizedProperties | src/main/services/pdf.ts:65-79 | one output per input range without a NaN bound (nothing merged), each with 1 <= start <= end <= pageCount |
| Pdf.NormalizedSnoc | src/main/services/pdf.ts:68-75 | one more input range adds its normalised range at the end, or nothing, so input order is kept |
| Pdf.NormalizeRanges | src/main/services/pdf.ts:65-79 | fails exactly when every range has a NaN bound; otherwise the loop computes the normalised list |
| Pdf.PageFileNamesDistinct | src/main/services/pdf.ts:100 | `page_NNN.pdf` names are distinct for distinct pages |
| Pdf.PageFileName | src/main/services/pdf.ts:100 | the name starts with `page_`, ends with `.pdf` and is at least 12 characters long |
| Pdf.PageFileNameDigits | src/main/services/pdf.ts:100 | between `page_` and `.pdf` sit at least three decimal digits whose value is the page number |
| Pdf.RangeFileNameShape | src/main/services/pdf.ts:122 | every range file name starts with `range_` and ends with `.pdf` |
| Pdf.RangeIndices | src/main/services/pdf.ts:115-116 | a range copies indices start-1 .. end-1 in ascending order |
| Pdf.SplitAllDistinct | src/main/services/pdf.ts:94-104 | split-all writes pageCount files with pairwise distinct paths |
| Pdf.SplitAllFiles | src/main/services/pdf.ts:93-107 | the loop writes file i holding only page i, named `page_` + (i+1) padded to 3 + `.pdf` |
| Pdf.SplitRangeFiles | src/main/services/pdf.ts:111-126 | the loop writes output idx holding pages start..end in order, named `range_` + (idx+1) padded to 2 + `_start-end.pdf` |
| Pdf.WriteRangeFile | src/main/services/pdf.ts:112-124 | one iteration copies exactly pages start..end of the source, in order, into a file named `range_` + the 1-based position padded to 2 + `_start-end.pdf` under the temporary directory |
| Pdf.SplitPdf | src/main/services/pdf.ts:81-129 | fails exactly when the document has no pages or no range survives; otherwise the outputs of the chosen mode in a fresh `toolsx-pdf-` directory |
| PdfToolPage.Pieces | src/renderer/src/features/pdfTool/PdfToolPage.tsx:17 | the split at ASCII comma, full-width comma and whitespace gives separator-free pieces |
| PdfToolPage.PiecesConcat | src/renderer/src/features/pdfTool/PdfToolPage.tsx:17 | the pieces concatenate to the text with its separators removed |
| PdfToolPage.TrimAll | src/renderer/src/features/pdfTool/PdfToolPage.tsx:18 | each piece is trimmed |
| PdfToolPage.NonEmpty | src/renderer/src/features/pdfTool/PdfToolPage.tsx:19 | only non-empty pieces of the input remain |
| PdfToolPage.NonEmptyConcat | src/renderer/src/features/pdfTool/PdfToolPage.tsx:19 | dropping empty pieces keeps every character, in order |
| PdfToolPage.TrimAllPieces | src/renderer/src/features/pdfTool/PdfToolPage.tsx:17-18 | trimming the split pieces changes nothing, as they hold no whitespace |
| PdfToolPage.TokensProperties | src/renderer/src/features/pdfTool/PdfToolPage.tsx:16-19 | tokens are non-empty, hold no separator, and rejoin to the separator-free characters in order |
| PdfToolPage.SingleToken | src/renderer/src/features/pdfTool/PdfToolPage.tsx:16-19 | a separator-free text is its own single token |
| PdfToolPage.ParseToken | src/renderer/src/features/pdfTool/PdfToolPage.tsx:23-28 | an accepted token gives 1 <= start <= end |
| PdfToolPage.MatchToken | src/renderer/src/features/pdfTool/PdfToolPage.tsx:23 | the first capture begins the token and the second ends it; with no second the first is the whole token |
| PdfToolPage.MatchDigits | src/renderer/src/features/pdfTool/PdfToolPage.tsx:23 | a non-empty digit run alone is accepted as the first capture, with no second |
| PdfToolPage.MatchPairShape | src/renderer/src/features/pdfTool/PdfToolPage.tsx:23 | an accepted range token is exactly a digit run, whitespace, one `-`, whitespace and a digit run, and the two digit runs are the captures |
| PdfToolPage.MatchPairOf | src/renderer/src/features/pdfTool/PdfToolPage.tsx:23 | every token of that shape is accepted, with its two digit runs as the captures |
| PdfToolPage.ParseSingle | src/renderer/src/features/pdfTool/PdfToolPage.tsx:23-28 | a non-empty digit run gives {v, v} for its decimal value v, leading zeros included, and is skipped when v is 0 |
| PdfToolPage.ParsePair | src/renderer/src/features/pdfTool/PdfToolPage.tsx:23-28 | digits, whitespace, `-`, whitespace, digits gives {min(a, b), max(a, b)} of the two decimal values, in either order, and is skipped when either value is 0 |
| PdfToolPage.ParsePlainPair | src/renderer/src/features/pdfTool/PdfToolPage.tsx:23-28 | the same for `a-b` written without whitespace |
| PdfToolPage.ParseZero | src/renderer/src/features/pdfTool/PdfToolPage.tsx:25-27 | a matched token whose first or second captured number has the value 0, however many zeros spell it, is skipped |
| PdfToolPage.ParseRejectsOtherCharacters | src/renderer/src/features/pdfTool/PdfToolPage.tsx:23-24 | a token holding a character that is not a digit, `-` or whitespace is skipped |
| PdfToolPage.ParseRejectsNonDigitStart | src/renderer/src/features/pdfTool/PdfToolPage.tsx:23-24 | a token that does not begin with a digit is skipped |
| PdfToolPage.ParseRejectsNonDigitEnd | src/renderer/src/features/pdfTool/PdfToolPage.tsx:23-24 | a token that does not end with a digit is skipped |
| PdfToolPage.ParseRejectsTwoDashes | src/renderer/src/features/pdfTool/PdfToolPage.tsx:23-24 | a token with two dashes is skipped |
| PdfToolPage.ParseLeadingZerosExample | src/renderer/src/features/pdfTool/PdfToolPage.tsx:23-28 | `007` gives {7, 7} |
| PdfToolPage.ParseReversedPairExample | src/renderer/src/features/pdfTool/PdfToolPage.tsx:23-28 | `05-3` gives {3, 5} |
| PdfToolPage.ParseSpacedPairExample | src/renderer/src/features/pdfTool/PdfToolPage.tsx:23-28 | `2 - 4` gives {2, 4} |
| PdfToolPage.ParseZeroExamples | src/renderer/src/features/pdfTool/PdfToolPage.tsx:25-27 | `00` and `3-000` are skipped |
| PdfToolPage.ParseDashExamples | src/renderer/src/features/pdfTool/PdfToolPage.tsx:23-24 | `1-2-3`, `1--2`, `-3` and `1-` are skipped |
| PdfToolPage.ParsedAll | src/renderer/src/features/pdfTool/PdfToolPage.tsx:21-29 | at most one range per token, each with 1 <= start <= end |
| PdfToolPage.ParsedAllSnoc | src/renderer/src/features/pdfTool/PdfToolPage.tsx:22-29 | one more token appends its range or nothing, so ranges follow token order |
| PdfToolPage.CollectRanges | src/renderer/src/features/pdfTool/PdfToolPage.tsx:21-29 | the for-loop builds exactly that list |
| PdfToolPage.ParseRanges | src/renderer/src/features/pdfTool/PdfToolPage.tsx:14-32 | the parser returns the accepted ranges of the tokens, in order, at most one per token, each with 1 <= start <= end |
| PdfToolPage.Dedup | src/renderer/src/features/pdfTool/PdfToolPage.tsx:34-38 | the specification of uniq keeps the same element set |
| PdfToolPage.DedupProperties | src/renderer/src/features/pdfTool/PdfToolPage.tsx:34-38 | no duplicates, in the order of first occurrence |
| PdfToolPage.Uniq | src/renderer/src/features/pdfTool/PdfToolPage.tsx:34-38 | the loop over a seen-set computes Dedup |
| PdfToolPage.PageImageNamesDistinct | src/renderer/src/features/pdfTool/PdfToolPage.tsx:263 | `page_NNN.png` names are distinct for distinct pages |
| PdfToolPage.PageImageName | src/renderer/src/features/pdfTool/PdfToolPage.tsx:263 | the name starts with `page_`, ends with `.png` and is at least 12 characters long |
| PdfToolPage.PageImageNameDigits | src/renderer/src/features/pdfTool/PdfToolPage.tsx:263 | between `page_` and `.png` sit at least three decimal digits whose value is the page number |
| JsonCodeBlock.SpaceEnd | src/renderer/src/components/JsonCodeBlock.tsx:17-19 | the end of a maximal run of space, \n, \t, \r |
| JsonCodeBlock.NumberEnd | src/renderer/src/components/JsonCodeBlock.tsx:51-60 | the end of a maximal run of [0-9.eE+-] |
| JsonCodeBlock.StringEnd | src/renderer/src/components/JsonCodeBlock.tsx:28-45 | a string ends just after an unescaped quote, or at the end of input |
| JsonCodeBlock.KeywordAt | src/renderer/src/components/JsonCodeBlock.tsx:73-74 | `true`, `false` or `null` when the text starts with it, and nothing when it starts with none of them |
| JsonCodeBlock.NextToken | src/renderer/src/components/JsonCodeBlock.tsx:14-81 | each token is non-empty and fits in the rest of the input |
| JsonCodeBlock.NextTokenSlice | src/renderer/src/components/JsonCodeBlock.tsx:14-81 | a token's value is the input at its position |
| JsonCodeBlock.Push | src/renderer/src/components/JsonCodeBlock.tsx:9-12 | an empty value is not pushed |
| JsonCodeBlock.ScanSpace | src/renderer/src/components/JsonCodeBlock.tsx:18-19 | the scan loop reaches SpaceEnd |
| JsonCodeBlock.ScanString | src/renderer/src/components/JsonCodeBlock.tsx:26-45 | the scan loop with its escape flag reaches StringEnd |
| JsonCodeBlock.ScanNumber | src/renderer/src/components/JsonCodeBlock.tsx:52-60 | the scan loop reaches NumberEnd |
| JsonCodeBlock.TokenizeJson | src/renderer/src/components/JsonCodeBlock.tsx:5-85 | the lexer loop computes the recursive tokenizer |
| JsonCodeBlock.TokenCount | src/renderer/src/components/JsonCodeBlock.tsx:5-85 | never more tokens than characters left, since each token takes at least one |
| JsonCodeBlock.TokenizeRoundTrip | src/renderer/src/components/JsonCodeBlock.tsx:14-82 | the token values concatenate back to the input |
| JsonCodeBlock.NextTokenWellFormed | src/renderer/src/components/JsonCodeBlock.tsx:17-81 | each token's characters fit its kind: whitespace, a quote-led string, a number run, one punctuation character, a keyword, or one other character |
| JsonCodeBlock.TokensWellFormed | src/renderer/src/components/JsonCodeBlock.tsx:14-82 | every token is well formed |
| JsonCodeBlock.NextTokenFirst | src/renderer/src/components/JsonCodeBlock.tsx:15 | a token starts at the current character |
| JsonCodeBlock.NextTokenKind | src/renderer/src/components/JsonCodeBlock.tsx:17 | a token is whitespace exactly when its first character is |
| JsonCodeBlock.WhitespaceTokenEnd | src/renderer/src/components/JsonCodeBlock.tsx:19 | whitespace is followed by non-whitespace or the end |
| JsonCodeBlock.WhitespaceMaximal | src/renderer/src/components/JsonCodeBlock.tsx:17-23 | no two whitespace tokens are adjacent |
| JsonCodeBlock.StringTokenEnd | src/renderer/src/components/JsonCodeBlock.tsx:25-49 | a string token runs to a closing quote or to the end of input |
| JsonCodeBlock.EscapedQuoteContinues | src/renderer/src/components/JsonCodeBlock.tsx:30-38 | an escaped quote does not end the string |
| JsonCodeBlock.KeywordPrefix | src/renderer/src/components/JsonCodeBlock.tsx:73-77 | `true`, `false` or `null` at the position gives that keyword token, even when more letters follow |
| JsonCodeBlock.ClassFor | src/renderer/src/components/JsonCodeBlock.tsx:87-94 | the empty class exactly for whitespace |
| JsonCodeBlock.ClassForInjective | src/renderer/src/components/JsonCodeBlock.tsx:87-94 | distinct token kinds get distinct classes |
| FilePath.NormalizeSeparators | src/renderer/src/utils/filePath.ts:28-30 | every backslash becomes '/', every other character stays |
| FilePath.NormalizeIdempotent | src/renderer/src/utils/filePath.ts:28-30 | normalising twice equals once; a path without backslashes is unchanged |
| FilePath.Basename | src/renderer/src/utils/filePath.ts:4-8 | the basename holds no separator of either kind |
| FilePath.Dirname | src/renderer/src/utils/filePath.ts:22-26 | the dirname is a prefix of the normalised path, '' when there is no separator |
| FilePath.Extname | src/renderer/src/utils/filePath.ts:10-14 | the extension is '' or starts with '.', and ends the basename |
| FilePath.BasenameNoExt | src/renderer/src/utils/filePath.ts:16-20 | the name without extension begins the basename |
| FilePath.BasenameShape | src/renderer/src/utils/filePath.ts:4-8 | the basename has no separator and ends the normalised path |
| FilePath.DirnameBasename | src/renderer/src/utils/filePath.ts:4-26 | with a separator, dirname + '/' + basename is the normalised path; without one, dirname is '' and basename is the path |
| FilePath.ExtnameShape | src/renderer/src/utils/filePath.ts:10-14 | the extension is '' or a '.' with no further '.', and '' exactly when the basename has no '.' |
| FilePath.BasenameSplitsAtExt | src/renderer/src/utils/filePath.ts:10-20 | name without extension + extension = basename |
| FilePath.SeparatorsAgree | src/renderer/src/utils/filePath.ts:4-30 | paths that differ only in '\' versus '/' get the same basename, dirname and extension |
| LocalfileUrl.EncodeSegments | src/renderer/src/features/videoToGif/utils.ts:8-14 | a first segment like `C:` is kept; every other segment is encoded |
| LocalfileUrl.ToLocalfileUrl | src/renderer/src/features/videoToGif/utils.ts:1-17 | `localfile:///` followed by the encoded segments joined by '/' |
| LocalfileUrl.SegmentsPreserved | src/renderer/src/features/videoToGif/utils.ts:7-14 | if the encoder never emits '/', the URL path has exactly the encoded segments |
| LocalfileUrl.DriveKept | src/renderer/src/features/videoToGif/utils.ts:10-12 | a drive segment comes out verbatim |
| LocalfileUrl.OtherSegmentsEncoded | src/renderer/src/features/videoToGif/utils.ts:13 | every other segment is percent-encoded |
| LocalfileUrl.BackslashesAreSeparators | src/renderer/src/features/videoToGif/utils.ts:3 | backslashes and slashes give the same URL |
| ImageCrop.ClampInt | src/main/services/imageCrop.ts:37-40 | min for a non-finite value; otherwise round(v) in [min, max], unchanged when inside |
| ImageCrop.FlagOn | src/main/services/imageCrop.ts:44-47 | a corner is off only when explicitly false |
| ImageCrop.NormalizeCorners | src/main/services/imageCrop.ts:42-49 | missing corners are on; each corner is off exactly when given as false |
| ImageCrop.BuildRoundedRect | src/main/services/imageCrop.ts:51-59 | the mask is at least 1x1; the radius is clamped into [0, floor(min(w,h)/2)]; each corner gets it when its flag is set, else 0 |
| ImageCrop.MaskRadiiFit | src/main/services/imageCrop.ts:51-59 | two radii fit along each side |
| ImageCrop.ClampRegionInside | src/main/services/imageCrop.ts:96-99 | the clamped region lies inside the image and is at least 1x1 |
| ImageCrop.ClampRegion | src/main/services/imageCrop.ts:96-99 | for a non-empty image, the region lies inside it and is at least 1x1 |
| ImageCrop.ClampRegionKeepsInside | src/main/services/imageCrop.ts:96-99 | a region already inside the image is unchanged |
| ImageCrop.CropRadius | src/main/services/imageCrop.ts:101 | the radius lies in [0, floor(min(w,h)/2)] |
| ImageCrop.CropImage | src/main/services/imageCrop.ts:85-120 | fails without an input path; the result reports the clamped width and height |
| ImageCrop.CropImageOutcome | src/main/services/imageCrop.ts:86-119 | fails exactly when the size is unknown or not positive; otherwise the region is inside the image and the output is `cropped.png` in a fresh `toolsx-crop-` directory |
| ImageCrop.CropMask | src/main/services/imageCrop.ts:101-113 | the mask is applied exactly when the radius is positive and some corner is on, with the region's size and per-corner radii |
| ImageCropPage.Clamp | src/renderer/src/features/imageCrop/ImageCropPage.tsx:13-15 | in [min, max] when min <= max; unchanged inside; min below, max above |
| ImageCropPage.NormRect | src/renderer/src/features/imageCrop/ImageCropPage.tsx:17-23 | x = min(x, x+w), y likewise, sides are \|w\| and \|h\| but at least 1 |
| ImageCropPage.NormRectIdempotent | src/renderer/src/features/imageCrop/ImageCropPage.tsx:17-23 | normalising a normalised rectangle changes nothing |
| ImageCropPage.NormRectKeepsNormal | src/renderer/src/features/imageCrop/ImageCropPage.tsx:17-23 | a rectangle with sides at least 1 is unchanged |
| ImageCropPage.NewBox | src/renderer/src/features/imageCrop/ImageCropPage.tsx:192-205 | unlocked, a new box spans start and pointer with sides at least 1; locked, it is square with side max(1, max(\|dx\|, \|dy\|)) |
| ImageCropPage.NewBoxFromStart | src/renderer/src/features/imageCrop/ImageCropPage.tsx:196-200 | a locked new box keeps the start corner, on the side the pointer went, with side max(\|dx\|, \|dy\|) |
| ImageCropPage.MoveBox | src/renderer/src/features/imageCrop/ImageCropPage.tsx:207-213 | a move keeps the size and keeps a box that fits inside the image box |
| ImageCropPage.MoveBoxFreely | src/renderer/src/features/imageCrop/ImageCropPage.tsx:210-212 | a move that stays inside shifts the box by the pointer delta |
| ImageCropPage.Opposite | src/renderer/src/features/imageCrop/ImageCropPage.tsx:226-234 | the opposite handle of nw is se, of ne is sw, and back |
| ImageCropPage.OppositeInvolutive | src/renderer/src/features/imageCrop/ImageCropPage.tsx:226-234 | the opposite of the opposite is the handle itself |
| ImageCropPage.AnchorIsOppositeCorner | src/renderer/src/features/imageCrop/ImageCropPage.tsx:226-234 | a resize anchors the corner opposite the dragged handle |
| ImageCropPage.Anchor | src/renderer/src/features/imageCrop/ImageCropPage.tsx:226-234 | the anchor is the corner opposite the dragged handle |
| ImageCropPage.ClampSpan | src/renderer/src/features/imageCrop/ImageCropPage.tsx:247-252 | one axis of the resized box: inside [0, size], length at least 1, exact when the span already fits |
| ImageCropPage.SquaredUp | src/renderer/src/features/imageCrop/ImageCropPage.tsx:239-245 | the locked moving point is at distance max(\|dx\|, \|dy\|) from the anchor, on the side it went |
| ImageCropPage.MovingPoint | src/renderer/src/features/imageCrop/ImageCropPage.tsx:235-245 | unlocked, the moving point is the pointer; locked, it is the point on the pointer's side of the anchor at distance max(\|dx\|, \|dy\|) on both axes |
| ImageCropPage.ResizeBox | src/renderer/src/features/imageCrop/ImageCropPage.tsx:215-253 | the box has sides at least 1 and lies inside an image box of at least 1×1; on each axis where the span from anchor to moving point lies in the image box and is at least 1 long, the box runs exactly from the smaller to the larger of the two; a locked resize with no clamping is square with side max(\|dx\|, \|dy\|) |
| ImageCropPage.SquareResizeExample | src/renderer/src/features/imageCrop/ImageCropPage.tsx:215-253 | a locked south-east resize of a 20×20 box at (10, 10) to the pointer (50, 30) gives the 40×40 box at (10, 10) |
| ImageCropPage.FreeResizeExample | src/renderer/src/features/imageCrop/ImageCropPage.tsx:215-253 | an unlocked south-east resize of a 20×20 box at (10, 10) to the pointer (50, 50) gives the 40×40 box at (10, 10) |
| ImageCropPage.PointerMove | src/renderer/src/features/imageCrop/ImageCropPage.tsx:188-254 | the pointer is clamped to the image box, then the drag mode's rule gives the new box (a resize gives exactly ResizeBox of the base box, the handle and the clamped pointer); a move or resize without its base box or handle changes nothing |
| ImageCropPage.RoundPayload | src/renderer/src/features/imageCrop/ImageCropPage.tsx:288 | radius max(0, round(r)) in round mode and 0 in custom mode, corners passed on |
| ImageCropPage.PayloadReachesService | src/renderer/src/features/imageCrop/ImageCropPage.tsx:288 | the service sees the page's corners; custom mode never gets a mask; round mode's radius is the payload radius capped at half the shorter side |
| VideoToGif.ClampSeconds | src/main/services/videoToGif.ts:24-27 | 0 for a non-finite value, else max(0, v) |
| VideoToGif.ClampFps | src/main/services/videoToGif.ts:29-32 | 12 for a missing or non-finite value, else round(v) in [1, 60] |
| VideoToGif.ClampWidth | src/main/services/videoToGif.ts:34-39 | 720 for a missing or non-finite value |
| VideoToGif.ClampWidthEven | src/main/services/videoToGif.ts:34-39 | the width is even and at least 64, and is max(64, round(v)) or one less |
| VideoToGif.ClampWidthKeepsEven | src/main/services/videoToGif.ts:34-39 | an even width of at least 64 is kept |
| VideoToGif.OutWidth | src/main/services/videoToGif.ts:47 | keepOriginalWidth means no width, whatever width was passed |
| VideoToGif.ConvertVideoSegmentToGif | src/main/services/videoToGif.ts:41-96 | fails exactly when clamped end <= clamped start; otherwise the start is at least 0, the duration is positive, and the frame rate and width are the clamped ones |
| VideoToGif.PassesAgree | src/main/services/videoToGif.ts:67-93 | both passes cut the same segment of the same input; the second reads the palette the first writes; `palette.png` and `out.gif` are distinct files in a fresh `toolsx-v2g-` directory |
| VideoToGif.FiltersScaleIffWidth | src/main/services/videoToGif.ts:59-65 | both filters start with `fps=N` and contain the lanczos scale step exactly when a width is set |
| VideoToGif.PaletteFilter | src/main/services/videoToGif.ts:59-61 | the first pass's filter ends in `,palettegen` |
| VideoToGif.UseFilter | src/main/services/videoToGif.ts:63-65 | the second pass's filter ends in `[x];[x][1:v]paletteuse` |
| SvgTool.ClampOptional | src/main/services/svgTool.ts:36-39 | undefined for a missing or non-finite value; otherwise round(v) in [min, max] |
| SvgTool.ClampDensity | src/main/services/svgTool.ts:41-44 | 144 unless finite, then round(v) in [72, 600] |
| SvgTool.ClampOfInteger | src/main/services/svgTool.ts:36-44 | an in-range integer passes both clamps unchanged |
| SvgTool.EncodingFor | src/main/services/svgTool.ts:67-75 | PNG plain, WebP quality 90, JPEG quality 92 on the given background or white |
| SvgTool.AsImageFormat | src/main/services/svgTool.ts:78 | each SVG output format is the image converter's format of the same name |
| SvgTool.ExtensionInjective | src/main/services/svgTool.ts:78 | the extension, shared with the image converter, is `png`, `jpg` or `webp`, and distinct formats get distinct extensions |
| SvgTool.RenderSvgToImage | src/main/services/svgTool.ts:46-83 | the render plan: trimmed input, clamped density, the format's encoding |
| SvgTool.RenderOutcome | src/main/services/svgTool.ts:47-49 | blank text fails, text without `<svg` fails, everything else succeeds |
| SvgTool.ResizeOnlyWithSize | src/main/services/svgTool.ts:60-65 | a resize is requested exactly when a finite width or height is given, with sides in [1, 10000] |
| SvgTool.OutputLocation | src/main/services/svgTool.ts:77-78 | `out.<ext>` in a fresh `toolsx-svg-` directory |
| SvgToolPage.ClampInt | src/renderer/src/features/svgTool/SvgToolPage.tsx:14-17 | min for a non-finite value (the main process answers undefined instead); otherwise round(v) in [min, max] |
| SvgToolPage.FieldValue | src/renderer/src/features/svgTool/SvgToolPage.tsx:244-258 | `Number(text) \|\| 0` reads NaN as 0 |
| SvgToolPage.SizeFields.constructor | src/renderer/src/features/svgTool/SvgToolPage.tsx:39-41 | both sides start at 512 with the lock on |
| SvgToolPage.SizeFields.SetWidth | src/renderer/src/features/svgTool/SvgToolPage.tsx:243-247 | the width takes the value; the height follows only with the lock on |
| SvgToolPage.SizeFields.SetHeight | src/renderer/src/features/svgTool/SvgToolPage.tsx:257-261 | the height takes the value; the width follows only with the lock on |
| SvgToolPage.SizeFields.SetLockRatio | src/renderer/src/features/svgTool/SvgToolPage.tsx:269 | toggling the lock leaves both sides alone |
| SvgToolPage.HexValue | src/renderer/src/features/svgTool/SvgToolPage.tsx:134-136 | the value of a hex digit string: below 16 for one digit, below 256 for two |
| SvgToolPage.LeadingHex | src/renderer/src/features/svgTool/SvgToolPage.tsx:134-136 | the longest run of hex digits at the start |
| SvgToolPage.Slice | src/renderer/src/features/svgTool/SvgToolPage.tsx:134-136 | `slice(a, b)` with non-negative bounds never gives more than the text |
| SvgToolPage.ParseHex | src/renderer/src/features/svgTool/SvgToolPage.tsx:134-136 | `parseInt(s, 16)` is NaN or a finite value |
| SvgToolPage.ParseHexPair | src/renderer/src/features/svgTool/SvgToolPage.tsx:134-136 | two hex digits parse to their value, in [0, 255] |
| SvgToolPage.BackgroundOfHexColour | src/renderer/src/features/svgTool/SvgToolPage.tsx:131-138 | for `#rrggbb`, each component is its pair's value, in [0, 255] |
| SvgToolPage.Background | src/renderer/src/features/svgTool/SvgToolPage.tsx:131-138 | each component is what `parseInt(…, 16)` gives its slice: a finite number or NaN, never an infinity |
| SvgToolPage.PreviewUrl | src/renderer/src/features/svgTool/SvgToolPage.tsx:48-53 | '' unless the trimmed text is non-empty and contains `<svg`; otherwise the encoded data URL |
| SvgToolPage.RenderRequest | src/renderer/src/features/svgTool/SvgToolPage.tsx:119-147 | blank text fails; otherwise the trimmed text, the format, sides clamped into [1, 10000], density into [72, 600], and a background only for JPEG, which is `Background(jpegBg)` |
| SvgToolPage.JpegRequestOfHexColour | src/renderer/src/features/svgTool/SvgToolPage.tsx:131-138 | a JPEG request for `#rrggbb` carries each pair's value as its colour component |
| SvgToolPage.RequestReachesRenderer | src/renderer/src/features/svgTool/SvgToolPage.tsx:123-147 | the renderer keeps the page's clamped sides and density, always resizes, and rejects text without `<svg` |
| TimestampConvert.StripSign | src/renderer/src/features/timestampConvert/TimestampConvertPage.tsx:21 | at most one leading sign removed |
| TimestampConvert.StripZeros | src/renderer/src/features/timestampConvert/TimestampConvertPage.tsx:21 | every leading zero removed |
| TimestampConvert.UnitFor | src/renderer/src/features/timestampConvert/TimestampConvertPage.tsx:22 | milliseconds exactly for 12 digits or more |
| TimestampConvert.TryParseTimestamp | src/renderer/src/features/timestampConvert/TimestampConvertPage.tsx:10-24 | null exactly for blank or non-finite input; otherwise the number, in ms exactly when it has 12 digits or more |
| TimestampConvert.DigitCountIgnoresSignAndZeros | src/renderer/src/features/timestampConvert/TimestampConvertPage.tsx:21 | one sign and any leading zeros do not count as digits |
| TimestampConvert.Convert | src/renderer/src/features/timestampConvert/TimestampConvertPage.tsx:56-67 | seconds: ms = round(v*1000), s = round(v); milliseconds: ms = round(v), s = floor(v/1000) |
| TimestampConvert.ConvertRoundTrip | src/renderer/src/features/timestampConvert/TimestampConvertPage.tsx:59-60 | whole seconds to ms and back give the same seconds |
| TimestampConvert.MillisToSeconds | src/renderer/src/features/timestampConvert/TimestampConvertPage.tsx:60 | the seconds reading is the whole seconds below the milliseconds |
| TimestampConvert.FillNow | src/renderer/src/features/timestampConvert/TimestampConvertPage.tsx:69-72 | the time in ms, or floor(now/1000) for seconds |
| TimestampConvert.NatToStringLength | src/renderer/src/features/timestampConvert/TimestampConvertPage.tsx:21-22 | a positive number has more than k digits exactly when it is at least 10^k |
| TimestampConvert.DigitCountOfNumeral | src/renderer/src/features/timestampConvert/TimestampConvertPage.tsx:21 | a numeral's digit count is its length, except 0 counts none |
| TimestampConvert.FillNowParses | src/renderer/src/features/timestampConvert/TimestampConvertPage.tsx:10-72 | fillNow's text parses back to its time, read as ms exactly when it is at least 10^11 |
| TimestampConvert.NumeralParses | src/renderer/src/features/timestampConvert/TimestampConvertPage.tsx:10-24 | a decimal numeral parses to its value |
| TimestampConvert.UnitOfNumeral | src/renderer/src/features/timestampConvert/TimestampConvertPage.tsx:21-22 | a numeral is read as ms exactly when it is at least 10^11 |
| Base64Tool.RunBefore | src/renderer/src/features/base64Tool/Base64ToolPage.tsx:22 | the longest prefix without ';' |
| Base64Tool.MimeOf | src/renderer/src/features/base64Tool/Base64ToolPage.tsx:21-24 | a MIME only when the text is `data:` (any case), then that MIME (non-empty, no ';'), then `;base64,` (any case) |
| Base64Tool.MimeOfShape | src/renderer/src/features/base64Tool/Base64ToolPage.tsx:21-24 | and every text of that shape gives its MIME |
| Base64Tool.MimeAfterScheme | src/renderer/src/features/base64Tool/Base64ToolPage.tsx:22 | the part of the pattern after `data:` |
| Base64Tool.MimeOfDataUrl | src/renderer/src/features/base64Tool/Base64ToolPage.tsx:21-24 | `data:<mime>;base64,...` gives that MIME |
| Base64Tool.StripDataUrlPrefix | src/renderer/src/features/base64Tool/Base64ToolPage.tsx:26-34 | non-`data:` text gives the trimmed text and no MIME; `data:` text gives the MIME of the pattern |
| Base64Tool.StripPayload | src/renderer/src/features/base64Tool/Base64ToolPage.tsx:30-31 | with a `data:` prefix, the payload follows the first `base64,`, or is the whole trimmed text without one |
| Base64Tool.StripDataUrl | src/renderer/src/features/base64Tool/Base64ToolPage.tsx:26-34 | stripping a built data URL gives back its payload and MIME |
| Base64Tool.ImgInfo | src/renderer/src/features/base64Tool/Base64ToolPage.tsx:93-98 | nothing for blank input; otherwise the payload and the MIME, `image/png` when missing |
| Base64Tool.GuessExtTable | src/renderer/src/features/base64Tool/Base64ToolPage.tsx:43-52 | the fixed table's extension, both ICO types to `ico`, and `bin` exactly for other types |
| Base64Tool.GuessExt | src/renderer/src/features/base64Tool/Base64ToolPage.tsx:43-52 | the known types get their table entry and every other type `bin` |
| Base64Tool.DownloadName | src/renderer/src/features/base64Tool/Base64ToolPage.tsx:141 | `output.` + the extension |
| Base64Tool.BinaryString | src/renderer/src/features/base64Tool/Base64ToolPage.tsx:9 | one character per byte, with that code |
| Base64Tool.CharCodes | src/renderer/src/features/base64Tool/Base64ToolPage.tsx:16-17 | one byte per character, its code cut to 8 bits as a Uint8Array stores it |
| Base64Tool.BinaryRoundTrip | src/renderer/src/features/base64Tool/Base64ToolPage.tsx:9-17 | bytes to a binary string and back give the same bytes, and back the other way for a binary string |
| Base64Tool.EncodeBinary | src/renderer/src/features/base64Tool/Base64ToolPage.tsx:8-9 | the `bin +=` loop builds BinaryString |
| Base64Tool.DecodeBinary | src/renderer/src/features/base64Tool/Base64ToolPage.tsx:16-17 | the fill loop gives a fresh array holding CharCodes |
| Base64Tool.EncodeText | src/renderer/src/features/base64Tool/Base64ToolPage.tsx:5-11 | Base64 of the text's UTF-8 bytes |
| Base64Tool.DecodeText | src/renderer/src/features/base64Tool/Base64ToolPage.tsx:79-86 | fails exactly when `atob` rejects the trimmed text; otherwise the UTF-8 decoding of its bytes |
| Base64Tool.TextRoundTrip | src/renderer/src/features/base64Tool/Base64ToolPage.tsx:70-86 | with a Base64 codec and a UTF-8 round trip, decoding an encoded text gives it back |
| Base64Tool.TrimOfBase64 | src/renderer/src/features/base64Tool/Base64ToolPage.tsx:81 | text made only of Base64 characters is unchanged by trimming |
| Base64Tool.Base64ToBlob | src/renderer/src/features/base64Tool/Base64ToolPage.tsx:36-41 | fails exactly when `atob` rejects the payload; otherwise a blob of the decoded bytes with the MIME |
| Base64Tool.DownloadImage | src/renderer/src/features/base64Tool/Base64ToolPage.tsx:131-152 | no image for blank input, invalid Base64 for a bad payload, otherwise `output.<ext>` with the decoded bytes |
| Base64Tool.DownloadOfDataUrl | src/renderer/src/features/base64Tool/Base64ToolPage.tsx:131-152 | a data URL built from bytes downloads those bytes under its MIME's name |
| QrTool.QrGuessExtAgrees | src/renderer/src/features/qrTool/QrToolPage.tsx:33-40 | the shared types get the Base64 page's extension; every other type gets `png` |
| QrTool.QrGuessExt | src/renderer/src/features/qrTool/QrToolPage.tsx:33-40 | one of five image extensions, never `bin`; `png` exactly for types other than JPEG, WebP, GIF and SVG |
| QrTool.CopyBytes | src/renderer/src/features/qrTool/QrToolPage.tsx:25-31 | a fresh buffer with the same length and bytes |
| QrTool.QrText | src/renderer/src/features/qrTool/QrToolPage.tsx:96-97 | blank text is rejected; otherwise the trimmed text |
| QrTool.DownloadQr | src/renderer/src/features/qrTool/QrToolPage.tsx:115-136 | nothing before a code exists; invalid Base64 fails; otherwise `qrcode.<ext>` with the decoded bytes (base64ToBytes, lines 18-23) |
| QrTool.QrDownloadName | src/renderer/src/features/qrTool/QrToolPage.tsx:126 | `qrcode.` + the extension |
| QrTool.DownloadOfGeneratedCode | src/renderer/src/features/qrTool/QrToolPage.tsx:85-136 | a generated PNG data URL downloads as `qrcode.png` holding its bytes |
| Theme.ModeNameInjective | src/renderer/src/theme/theme.ts:1 | distinct modes have distinct names |
| Theme.ParseMode | src/renderer/src/theme/theme.ts:5-9 | exactly `light`, `dark` and `system` parse to their mode; anything else is system |
| Theme.SetStoredMode | src/renderer/src/theme/theme.ts:11-13 | only the theme key changes, to the mode's name |
| Theme.GetStoredMode | src/renderer/src/theme/theme.ts:5-9 | system when nothing is stored; any other mode only when the stored value is that mode's name |
| Theme.StoredModeRoundTrip | src/renderer/src/theme/theme.ts:5-13 | reading back a stored mode gives that mode |
| Theme.ModeNameParses | src/renderer/src/theme/theme.ts:5-9 | a mode's name parses to that mode |
| Theme.UnknownValueIsSystem | src/renderer/src/theme/theme.ts:5-9 | a missing or unknown stored value gives system |
| Theme.NextMode | src/renderer/src/theme/theme.ts:25-29 | system goes to light, light to dark and dark back to system, so the next mode always differs from the current one |
| Theme.CycleOfThree | src/renderer/src/theme/theme.ts:25-29 | three steps come back to the start, and the two steps before that differ |
| Theme.NextModeBijective | src/renderer/src/theme/theme.ts:25-29 | the step is injective, and three steps are the identity, so it is a bijection |
| Theme.SystemPrefersDark | src/renderer/src/theme/theme.ts:15-17 | true exactly when the media query exists and matches |
| Theme.IsDark | src/renderer/src/theme/theme.ts:19-23 | light and dark ignore the platform; system is dark exactly when the platform prefers dark |
| Theme.DarkFollowsPlatformOnlyInSystem | src/renderer/src/theme/theme.ts:19-23 | dark exactly for dark mode, or system mode on a dark-preferring platform |
| UiPrefs.ClampPct | src/main/ipc/uiPrefs.ts:18-21 | always in [0, 1]; a missing or non-finite value uses the in-range fallback; in-range numbers unchanged; below 0 gives 0 and above 1 gives 1 |
| UiPrefs.ClampPctIdempotent | src/main/ipc/uiPrefs.ts:18-21 | clamping a clamped value changes nothing |
| UiPrefs.BackButtonStore.constructor | src/main/ipc/uiPrefs.ts:10-16 | the store starts at x = 0.03, y = 0.2 |
| UiPrefs.BackButtonStore.Get | src/main/ipc/uiPrefs.ts:24-26 | returns the stored pair, each in [0, 1] |
| UiPrefs.BackButtonStore.Set | src/main/ipc/uiPrefs.ts:28-37 | stores the clamped x and y (fallbacks 0.03 and 0.2) and returns exactly the stored pair |
| HomePage.Filter | src/renderer/src/pages/HomePage.tsx:12-18 | a tool is kept exactly when it matches, and the result is no longer than the list; each matching tool occurs in the result as many times as in the list, every other tool not at all |
| HomePage.FilterTools | src/renderer/src/pages/HomePage.tsx:9-19 | a blank query gives the whole list; otherwise a tool is kept exactly when the lower-cased trimmed query is in its lower-cased title, description or id, as many times as it occurs in the list |
| HomePage.FilterToolsIsSubsequence | src/renderer/src/pages/HomePage.tsx:9-19 | the result is an order-preserving subsequence of the tool list |
| HomePage.FilterIsSubsequence | src/renderer/src/pages/HomePage.tsx:12 | filtering keeps order |
| HomePage.QueryCaseInsensitive | src/renderer/src/pages/HomePage.tsx:10-16 | a query and its lower-cased form give the same list |
| Strings.Lower | src/renderer/src/pages/HomePage.tsx:10 | `toLowerCase` on ASCII letters, other characters unchanged |
| Strings.LastIndexOf | src/renderer/src/utils/filePath.ts:6 | the last position of the character, or -1 when it is absent |
| Strings.TrimIdempotent | src/renderer/src/pages/HomePage.tsx:10 | trimming twice equals once |
| Strings.TrimEmptyIff | src/renderer/src/pages/HomePage.tsx:11 | the trimmed text is empty exactly when all characters are whitespace |
| Strings.PadStart | src/main/services/pdf.ts:100 | `padStart`: at least the width, the original at the end, fill before it |
| Strings.PaddedNumberInjective | src/main/services/pdf.ts:100 | zero-padded numerals of distinct numbers differ |
| Strings.SplitOn | src/renderer/src/features/videoToGif/utils.ts:7 | `split`: at least one part, none holding the separator |
| Strings.JoinSplit | src/renderer/src/features/videoToGif/utils.ts:7-14 | joining the parts of a split gives the text back |
| Strings.SplitJoin | src/renderer/src/features/videoToGif/utils.ts:7-14 | splitting a join of separator-free parts gives the parts back |
| JsNumbers.Round | src/main/services/imageConvert.ts:41 | `Math.round`: the integer within half of x, halves rounding up |
| JsNumbers.ClampRound | src/main/services/imageConvert.ts:41 | `Math.min(max, Math.max(min, Math.round(v)))`: in [min, max], unchanged inside |
| TempPaths.PathJoin | src/main/services/imageConvert.ts:123 | `path.join(dir, name)` is dir, '/', name |
| TempPaths.PathJoinInjective | src/main/services/pdf.ts:101 | distinct names in one directory give distinct paths |
| TempPaths.MkdtempPath | src/main/services/imageConvert.ts:179 | the directory made by `mkdtemp` starts with the temp root, '/' and the prefix |

## Left out

- The libraries this core calls are left out: sharp, png-to-ico, pdf-lib, pdfjs, canvas, qrcode, jsQR, ffmpeg and electron-store. The image encoder is a total function from an encoder plan to a byte size (or buffer). A PDF document is a sequence of page ids. electron-store is the two fields of `UiPrefs.BackButtonStore`. `localStorage` is a map.
- Encoder and file-system failures are not modelled, so every encode succeeds; `mkdtemp`, `writeFile` and `stat` are modelled only by the paths they produce. The random `mkdtemp` suffix and `Date.now()` are parameters.
- `atob`, `btoa`, `TextEncoder`, `TextDecoder` and `encodeURIComponent` are parameters. The Base64 round trip assumes a codec that inverts itself (section 4 of RFC 4648). The localfile lemma assumes an encoder that never emits '/' (section 2.1 of RFC 3986). How `TextDecoder` replaces invalid UTF-8 is not modelled.
- `Number(text)` is the parameter `numberOf` in the timestamp parser, and `String(number)` in the ffmpeg arguments is the parameter `numberText`. Doubles are exact reals, so rounding error is not modelled.
- Date formatting (TimestampConvertPage.tsx:26-35), the once-a-second clock refresh and the copy-to-clipboard buttons are UI around the parser.
- The CSS-to-natural pixel scaling of the crop rectangle (ImageCropPage.tsx:273-280) is floating-point geometry of the displayed image. The model starts from the rectangle in natural pixels.
- Also left out: the QR scan path, with its downscaling and jsQR decoding; the PDF page rendering and its scale; and the SVG mask path string built in `buildRoundedRectSvg` (the model keeps the mask's size and per-corner radii).
- React state, hooks, hover cursors, pointer capture, toasts and the file pickers are left out. The pickers include `fileToDataUrl` and the Base64 page's `onPickImage`. `parseBase64ToPreview` and its object URL are left out too; they share `base64ToBlob`, and `Base64Tool.Base64ToBlob` models that.
- `useThemeMode` effects and the `dark` class toggle on the document are left out; only the predicate is modelled.
- The temp-directory cleanup (`files.cleanupTempImages`) and its whitelist check are not part of this model.
- HomePage's tool table (`data.ts`) is a constant input, so the filter is stated for any list of tools.
- ImageConvert.OptimizeToTargetSize: the ICO guard throws from inside the search, so it aborts the whole optimisation rather than skipping one codec, and the model follows the code here. The size function is assumed monotone only in `OutcomeIsMaximal` and `SearchCorrect`; the other contracts hold for any size function.
- Pdf.MergePdf: a PDF that fails to load is not modelled.
- VideoToGif.ConvertVideoSegmentToGif: the ffmpeg run, its exit code and its stderr are not modelled, only the two argument lists.
- PdfToolPage.MatchToken: its own contract states only where the captures sit. The exact shape of an accepted token is stated in both directions by `MatchPairShape` with `MatchPairOf` for a range, and by `MatchDigits` with the single-capture ensures for a lone number.
- PdfToolPage.RangeOf: reads a captured digit run exactly with `DigitsValue` rather than through `Number()`. A run whose value is about 1.8 × 10^308 or more (the largest double plus half a unit in the last place) is read as Infinity by `Number()`, and the page skips it (PdfToolPage.tsx:27). The model makes a range from it. Values above 2^53 are not rounded to the nearest double either.
- Strings are sequences of Unicode scalar values, while JavaScript strings are UTF-16 code units. A character outside the Basic Multilingual Plane is one character here and two code units in the program. For example, it gives one "other" token of the JSON lexer here and two in the program (JsonCodeBlock.tsx:79-80). Lengths, `slice` positions and `lastIndexOf` results differ in the same way.
- TempPaths.PathJoin: a POSIX join, directory + '/' + name, without normalisation. Node's `path.join` uses '\' on Windows and normalises '..' and repeated separators. The app also runs on Windows, so its paths there are not modelled.
- Strings.Lower: only ASCII letters are lower-cased, not the full Unicode mapping of `toLowerCase`.
