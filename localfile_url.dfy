/** toLocalfileUrl: the `localfile:` URL the video page plays a local file
    through. Percent-encoding (encodeURIComponent) is a parameter. */
module LocalfileUrl {
  import opened Strings
  import FilePath

  const Scheme := "localfile:///"

  predicate IsAsciiLetter(c: char) {
    ('A' <= c <= 'Z') || ('a' <= c <= 'z')
  }

  /** `/^[A-Za-z]:$/`: a Windows drive such as "C:". */
  predicate IsDrive(seg: string) {
    |seg| == 2 && IsAsciiLetter(seg[0]) && seg[1] == ':'
  }

  /** An encoder that never emits a separator, as percent-encoding of a URI
      component does (section 2.1 of RFC 3986). */
  ghost predicate KeepsNoSlash(enc: string -> string) {
    forall s :: '/' !in enc(s)
  }

  /** The segments, each encoded except a leading drive. */
  function EncodeSegments(segs: seq<string>, enc: string -> string): (r: seq<string>)
    ensures |r| == |segs|
    ensures forall i :: 0 <= i < |segs| ==>
      r[i] == (if i == 0 && IsDrive(segs[0]) then segs[0] else enc(segs[i]))
  {
    seq(|segs|, i requires 0 <= i < |segs| => if i == 0 && IsDrive(segs[0]) then segs[0] else enc(segs[i]))
  }

  /** The path after the scheme: separators made forward, split, encoded and
      joined again. */
  function EncodedPath(filePath: string, enc: string -> string): string {
    Join(EncodeSegments(SplitOn(FilePath.NormalizeSeparators(filePath), '/'), enc), '/')
  }

  /** toLocalfileUrl */
  function ToLocalfileUrl(filePath: string, enc: string -> string): (r: string)
    ensures StartsWith(r, Scheme)
    ensures r[|Scheme|..] == EncodedPath(filePath, enc)
  {
    var body := EncodedPath(filePath, enc);
    assert (Scheme + body)[..|Scheme|] == Scheme;
    Scheme + body
  }

  /** The path segments of a file path, after normalising separators. */
  function Segments(filePath: string): seq<string> {
    SplitOn(FilePath.NormalizeSeparators(filePath), '/')
  }

  /** The URL's path has one segment per segment of the file path, in order:
      a leading drive as it is, every other segment encoded. */
  lemma SegmentsPreserved(filePath: string, enc: string -> string)
    requires KeepsNoSlash(enc)
    ensures SplitOn(EncodedPath(filePath, enc), '/') == EncodeSegments(Segments(filePath), enc)
    ensures |SplitOn(EncodedPath(filePath, enc), '/')| == |Segments(filePath)|
  {
    var segs := Segments(filePath);
    var e := EncodeSegments(segs, enc);
    forall i | 0 <= i < |e| ensures '/' !in e[i] {
      if i == 0 && IsDrive(segs[0]) {
        assert e[i] == segs[0];
      } else {
        assert e[i] == enc(segs[i]);
      }
    }
    SplitJoin(e, '/');
  }

  /** A leading drive letter is kept verbatim. */
  lemma DriveKept(filePath: string, enc: string -> string)
    requires IsDrive(Segments(filePath)[0])
    ensures EncodeSegments(Segments(filePath), enc)[0] == Segments(filePath)[0]
  {
  }

  /** Without a drive, every segment goes through the encoder. */
  lemma OtherSegmentsEncoded(filePath: string, enc: string -> string, i: nat)
    requires i < |Segments(filePath)| && (i > 0 || !IsDrive(Segments(filePath)[0]))
    ensures EncodeSegments(Segments(filePath), enc)[i] == enc(Segments(filePath)[i])
  {
  }

  /** Backslashes are separators: both spellings give the same URL. */
  lemma BackslashesAreSeparators(p: string, q: string, enc: string -> string)
    requires FilePath.NormalizeSeparators(p) == FilePath.NormalizeSeparators(q)
    ensures ToLocalfileUrl(p, enc) == ToLocalfileUrl(q, enc)
  {
  }
}
