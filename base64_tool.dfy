/** The Base64 tool page: data-URL prefixes are split off pasted text, the
    MIME type is read from the prefix, and bytes travel through "binary
    strings" (one character per byte) on their way to and from `btoa`/`atob`.
    The Base64 codec itself and UTF-8 encoding are not modelled. The QR page
    uses the same prefix split and the same decode loop. */
module Base64Tool {
  import opened Outcomes
  import opened Strings

  newtype byte = n: int | 0 <= n < 256

  // ---------------------------------------------------------------------
  // Data URLs

  const DataScheme := "data:"
  const Marker := "base64,"

  /** The length of the leading run of characters other than `c`. */
  function RunBefore(s: string, c: char): (n: nat)
    ensures n <= |s| && c !in s[..n]
    ensures n < |s| ==> s[n] == c
  {
    if |s| == 0 || s[0] == c then 0
    else
      var k := RunBefore(s[1..], c);
      assert s[..k + 1] == [s[0]] + s[1..][..k];
      k + 1
  }

  /** `/^data:([^;]+);base64,/i`: the MIME type of a data URL whose prefix
      (in any letter case) is followed by the type, a ';' and `base64,`. */
  function MimeOf(s: string): (r: Option<string>)
    ensures r.Some? ==>
      && |s| >= 5 + |r.value| + 8 && r.value != [] && ';' !in r.value
      && Lower(s[..5]) == DataScheme && s[5..5 + |r.value|] == r.value
      && Lower(s[5 + |r.value|..5 + |r.value| + 8]) == ";base64,"
  {
    if |s| < 5 || Lower(s[..5]) != DataScheme then None
    else
      var m := MimeAfterScheme(s[5..]);
      if m.Some? then
        assert s[5..][..|m.value|] == s[5..5 + |m.value|];
        assert s[5..][|m.value|..|m.value| + 8] == s[5 + |m.value|..5 + |m.value| + 8];
        m
      else m
  }

  /** The `([^;]+);base64,` part: a non-empty run without ';', then the marker. */
  function MimeAfterScheme(rest: string): (r: Option<string>)
    ensures r.Some? ==>
      && |rest| >= |r.value| + 8 && r.value != [] && ';' !in r.value
      && rest[..|r.value|] == r.value && Lower(rest[|r.value|..|r.value| + 8]) == ";base64,"
  {
    var k := RunBefore(rest, ';');
    if k == 0 || |rest| < k + 8 || Lower(rest[k..k + 8]) != ";base64," then None
    else Some(rest[..k])
  }

  /** What the split of a pasted string yields: the Base64 payload and, for
      a data URL, the MIME type if its prefix names one. */
  datatype Stripped = Stripped(base64: string, mime: Option<string>)

  /** stripDataUrlPrefix. */
  function StripDataUrlPrefix(input: string): (r: Stripped)
    ensures !StartsWith(Trim(input), DataScheme) ==> r == Stripped(Trim(input), None)
    ensures StartsWith(Trim(input), DataScheme) ==> r.mime == MimeOf(Trim(input))
  {
    var s := Trim(input);
    if StartsWith(s, DataScheme) then
      var idx := IndexOf(s, Marker);
      Stripped(if idx >= 0 then s[idx + |Marker|..] else s, MimeOf(s))
    else Stripped(s, None)
  }

  /** A data URL's payload is what follows its first `base64,`, or the whole
      trimmed text when there is none. */
  lemma StripPayload(input: string)
    requires StartsWith(Trim(input), DataScheme)
    ensures var s := Trim(input);
      var p := StripDataUrlPrefix(input).base64;
      var k := |s| - |p| - |Marker|;
      if Contains(s, Marker) then
        && 0 <= k && s[k..k + |Marker|] == Marker && s[k + |Marker|..] == p
        && forall j :: 0 <= j < k ==> !StartsWith(s[j..], Marker)
      else p == s
  {
    var s := Trim(input);
    var idx := IndexOf(s, Marker);
    if idx >= 0 {
      ContainsAt(s, Marker, idx);
    }
  }

  /** A well-formed data URL splits into its MIME type and its payload. */
  lemma StripDataUrl(mime: string, payload: string)
    requires mime != [] && ';' !in mime && !Contains(mime, Marker)
    requires payload == [] || !IsJsWhitespace(payload[|payload| - 1])
    ensures StripDataUrlPrefix(DataScheme + mime + ";" + Marker + payload) == Stripped(payload, Some(mime))
  {
    var s := DataScheme + mime + ";" + Marker + payload;
    TrimOfDataUrl(mime, payload);
    assert StartsWith(s, DataScheme) by { assert s[..5] == DataScheme; }
    FirstMarker(mime, payload);
    assert s[6 + |mime| + |Marker|..] == payload;
    MimeOfDataUrl(mime, payload);
  }

  lemma TrimOfDataUrl(mime: string, payload: string)
    requires payload == [] || !IsJsWhitespace(payload[|payload| - 1])
    ensures Trim(DataScheme + mime + ";" + Marker + payload) == DataScheme + mime + ";" + Marker + payload
  {
    var s := DataScheme + mime + ";" + Marker + payload;
    assert s[0] == 'd';
    assert TrimStart(s) == s;
    assert s[|s| - 1] == if payload == [] then ',' else payload[|payload| - 1];
  }

  lemma MimeOfDataUrl(mime: string, payload: string)
    requires mime != [] && ';' !in mime
    ensures MimeOf(DataScheme + mime + ";" + Marker + payload) == Some(mime)
  {
    var tail := ";" + Marker + payload;
    assert tail[..8] == ";base64,";
    LowerCaseLiterals();
    assert DataScheme + mime + ";" + Marker + payload == DataScheme + mime + tail;
    MimeOfShape(DataScheme, mime, tail);
  }

  lemma LowerCaseLiterals()
    ensures Lower(";base64,") == ";base64," && Lower(DataScheme) == DataScheme
  {
    assert Lower(";base64,") == ";base64,";
  }

  lemma MimeOfShape(head: string, mime: string, tail: string)
    requires |head| == 5 && Lower(head) == DataScheme
    requires mime != [] && ';' !in mime
    requires |tail| >= 8 && tail[0] == ';' && Lower(tail[..8]) == ";base64,"
    ensures MimeOf(head + mime + tail) == Some(mime)
  {
    var s := head + (mime + tail);
    assert head + mime + tail == s;
    SplitConcat(head, mime + tail);
    MimeAfterSchemeOf(mime, tail);
  }

  lemma MimeAfterSchemeOf(mime: string, tail: string)
    requires mime != [] && ';' !in mime
    requires |tail| >= 8 && tail[0] == ';' && Lower(tail[..8]) == ";base64,"
    ensures MimeAfterScheme(mime + tail) == Some(mime)
  {
    RunBeforeOf(mime, tail, ';');
    SplitConcat(mime, tail);
    assert (mime + tail)[|mime|..|mime| + 8] == tail[..8];
  }

  lemma SplitConcat(a: string, b: string)
    ensures (a + b)[..|a|] == a && (a + b)[|a|..] == b
  {
  }

  lemma {:induction false} RunBeforeOf(a: string, b: string, c: char)
    requires c !in a && |b| > 0 && b[0] == c
    ensures RunBefore(a + b, c) == |a|
  {
    if |a| > 0 {
      assert (a + b)[1..] == a[1..] + b;
      RunBeforeOf(a[1..], b, c);
    } else {
      assert a + b == b;
    }
  }

  /** In a well-formed data URL the first `base64,` is the one after the ';'. */
  lemma FirstMarker(mime: string, payload: string)
    requires ';' !in mime && !Contains(mime, Marker)
    ensures IndexOf(DataScheme + mime + ";" + Marker + payload, Marker) == 6 + |mime|
  {
    var s := DataScheme + mime + ";" + Marker + payload;
    assert s == DataScheme + mime + [';'] + (Marker + payload);
    NoEarlyMatch(DataScheme, mime, ';', Marker + payload, Marker);
    assert s[6 + |mime|..6 + |mime| + |Marker|] == Marker;
    IndexOfFirst(s, Marker, 6 + |mime|);
  }

  /** No match of `sub` starts before the separator after `mid` when `sub`
      cannot start inside `head`, lacks the separator and is not in `mid`. */
  lemma NoEarlyMatch(head: string, mid: string, sep: char, rest: string, sub: string)
    requires |sub| > 0 && sub[0] !in head && sep !in sub && !Contains(mid, sub)
    ensures forall k :: 0 <= k <= |head| + |mid| ==> !MatchAt(head + mid + [sep] + rest, sub, k)
  {
    forall k | 0 <= k <= |head| + |mid| ensures !MatchAt(head + mid + [sep] + rest, sub, k) {
      NoMatchAt(head, mid, sep, rest, sub, k);
    }
  }

  lemma NoMatchAt(head: string, mid: string, sep: char, rest: string, sub: string, k: nat)
    requires |sub| > 0 && sub[0] !in head && sep !in sub && !Contains(mid, sub)
    requires k <= |head| + |mid|
    ensures !MatchAt(head + mid + [sep] + rest, sub, k)
  {
    var s := head + mid + [sep] + rest;
    if k + |sub| <= |s| {
      var w := s[k..k + |sub|];
      if k < |head| {
        assert w[0] == head[k];
      } else if k + |sub| <= |head| + |mid| {
        assert w == mid[k - |head|..k - |head| + |sub|];
        if w == sub {
          ContainsAt(mid, sub, k - |head|);
        }
      } else {
        assert w[|head| + |mid| - k] == sep;
      }
    }
  }

  /** `sub` occurs in `s` at position `k`. */
  predicate MatchAt(s: string, sub: string, k: int) {
    0 <= k && k + |sub| <= |s| && s[k..k + |sub|] == sub
  }

  /** A match with no match before it is the one `indexOf` finds. */
  lemma IndexOfFirst(s: string, sub: string, q: nat)
    requires MatchAt(s, sub, q)
    requires forall k :: 0 <= k < q ==> !MatchAt(s, sub, k)
    ensures IndexOf(s, sub) == q
  {
    ContainsAt(s, sub, q);
    var r := IndexOf(s, sub);
    assert s[q..][..|sub|] == s[q..q + |sub|];
    assert r >= 0 ==> MatchAt(s, sub, r);
    assert 0 <= r < q ==> !MatchAt(s, sub, r);
    if r > q {
      assert StartsWith(s[q..], sub);
    }
  }

  /** The image tab's reading of the pasted text: nothing for blank text,
      otherwise the payload and the MIME type, PNG when none is named. */
  datatype ImageInfo = ImageInfo(base64: string, mime: string)

  const DefaultMime := "image/png"

  function ImgInfo(dataUrl: string): (r: Option<ImageInfo>)
    ensures r.None? <==> Trim(dataUrl) == []
    ensures r.Some? ==> r.value.base64 == StripDataUrlPrefix(dataUrl).base64
    ensures r.Some? ==> r.value.mime == StripDataUrlPrefix(dataUrl).mime.GetOr(DefaultMime)
  {
    if Trim(dataUrl) == [] then None
    else
      var st := StripDataUrlPrefix(dataUrl);
      Some(ImageInfo(st.base64, st.mime.GetOr(DefaultMime)))
  }

  // ---------------------------------------------------------------------
  // File extensions

  /** guessFileExtFromMime of this page: a fixed table, 'bin' otherwise. */
  function GuessExt(mime: string): (ext: string)
    ensures mime in ExtTable ==> ext == ExtTable[mime]
    ensures mime !in ExtTable ==> ext == "bin"
  {
    if mime == "image/jpeg" then "jpg"
    else if mime == "image/png" then "png"
    else if mime == "image/webp" then "webp"
    else if mime == "image/gif" then "gif"
    else if mime == "image/svg+xml" then "svg"
    else if mime == "image/bmp" then "bmp"
    else if mime == "image/x-icon" || mime == "image/vnd.microsoft.icon" then "ico"
    else "bin"
  }

  /** The MIME types the table knows, with the extension of each. */
  const ExtTable: map<string, string> := map[
    "image/jpeg" := "jpg", "image/png" := "png", "image/webp" := "webp", "image/gif" := "gif",
    "image/svg+xml" := "svg", "image/bmp" := "bmp",
    "image/x-icon" := "ico", "image/vnd.microsoft.icon" := "ico"]

  /** The guess is the table's entry, and 'bin' exactly for unknown types;
      both ICO types share one extension. */
  lemma GuessExtTable(mime: string)
    ensures GuessExt(mime) == if mime in ExtTable then ExtTable[mime] else "bin"
    ensures GuessExt(mime) == "bin" <==> mime !in ExtTable
    ensures GuessExt("image/x-icon") == GuessExt("image/vnd.microsoft.icon") == "ico"
  {
  }

  /** The download name of the image tab. */
  function DownloadName(mime: string): (r: string)
    ensures StartsWith(r, "output.") && r[|"output."|..] == GuessExt(mime)
  {
    var name := "output." + GuessExt(mime);
    assert name[..|"output."|] == "output.";
    name
  }

  // ---------------------------------------------------------------------
  // Binary strings

  /** The binary string of some bytes: character i has code `bytes[i]`. */
  function BinaryString(bytes: seq<byte>): (s: string)
    ensures |s| == |bytes|
    ensures forall i :: 0 <= i < |bytes| ==> s[i] as int == bytes[i] as int
  {
    seq(|bytes|, i requires 0 <= i < |bytes| => bytes[i] as int as char)
  }

  /** `bytes[i] = bin.charCodeAt(i)` into a Uint8Array keeps the low eight bits. */
  function CharCodes(bin: string): (b: seq<byte>)
    ensures |b| == |bin|
    ensures forall i :: 0 <= i < |bin| ==> b[i] as int == bin[i] as int % 256
  {
    seq(|bin|, i requires 0 <= i < |bin| => (bin[i] as int % 256) as byte)
  }

  /** A binary string holds only characters below 256, as `atob` returns. */
  predicate IsBinaryString(s: string) {
    forall i :: 0 <= i < |s| ==> s[i] as int < 256
  }

  /** Bytes survive the trip through a binary string, and a binary string
      survives the trip through bytes. */
  lemma BinaryRoundTrip(bytes: seq<byte>, bin: string)
    ensures CharCodes(BinaryString(bytes)) == bytes
    ensures IsBinaryString(BinaryString(bytes))
    ensures IsBinaryString(bin) ==> BinaryString(CharCodes(bin)) == bin
  {
    var s := BinaryString(bytes);
    assert forall i :: 0 <= i < |bytes| ==> CharCodes(s)[i] == bytes[i];
    if IsBinaryString(bin) {
      var t := BinaryString(CharCodes(bin));
      forall i | 0 <= i < |bin| ensures t[i] == bin[i] {
        assert t[i] as int == bin[i] as int;
      }
    }
  }

  /** The encode loop: `bin += String.fromCharCode(b)` for each byte. */
  method EncodeBinary(bytes: seq<byte>) returns (bin: string)
    ensures bin == BinaryString(bytes)
  {
    bin := "";
    for k := 0 to |bytes|
      invariant bin == BinaryString(bytes[..k])
    {
      bin := bin + [bytes[k] as int as char];
      assert BinaryString(bytes[..k + 1]) == BinaryString(bytes[..k]) + [bytes[k] as int as char];
    }
    assert bytes[..|bytes|] == bytes;
  }

  /** The decode loop (used by text decoding, the image blob and the QR
      download): a fresh array filled with the char codes. */
  method DecodeBinary(bin: string) returns (bytes: array<byte>)
    ensures fresh(bytes)
    ensures bytes[..] == CharCodes(bin)
  {
    bytes := new byte[|bin|];
    for i := 0 to |bin|
      invariant forall j :: 0 <= j < i ==> bytes[j] == CharCodes(bin)[j]
    {
      bytes[i] := (bin[i] as int % 256) as byte;
    }
  }

  // ---------------------------------------------------------------------
  // Text and images through the page's codec

  /** The characters `btoa` writes. */
  predicate IsBase64Char(c: char) {
    ('A' <= c <= 'Z') || ('a' <= c <= 'z') || ('0' <= c <= '9') || c == '+' || c == '/' || c == '='
  }

  /** The host's `btoa`/`atob`: `atob` answers None where it throws; every
      binary string survives the trip, and `btoa` writes only Base64
      characters. */
  ghost predicate IsBase64Codec(btoa: string -> string, atob: string -> Option<string>) {
    forall s :: IsBinaryString(s) ==>
      atob(btoa(s)) == Some(s) && forall i :: 0 <= i < |btoa(s)| ==> IsBase64Char(btoa(s)[i])
  }

  /** safeBase64EncodeText: UTF-8 bytes, a binary string, then `btoa`. */
  method EncodeText(text: string, utf8: string -> seq<byte>, btoa: string -> string) returns (r: string)
    ensures r == btoa(BinaryString(utf8(text)))
  {
    var bin := EncodeBinary(utf8(text));
    r := btoa(bin);
  }

  /** decodeText: the trimmed Base64 is decoded by `atob` (None: the page
      reports an invalid input), then its bytes decoded as UTF-8. */
  method DecodeText(textBase64: string, atob: string -> Option<string>, utf8Decode: seq<byte> -> string)
    returns (r: Option<string>)
    ensures r.None? <==> atob(Trim(textBase64)).None?
    ensures r.Some? ==> r.value == utf8Decode(CharCodes(atob(Trim(textBase64)).value))
  {
    var bin := atob(Trim(textBase64));
    if bin.None? {
      return None;
    }
    var bytes := DecodeBinary(bin.value);
    r := Some(utf8Decode(bytes[..]));
  }

  /** A text encoded by the page decodes back to itself, for a faithful codec
      and a UTF-8 decoder that inverts the encoder on it. */
  lemma TextRoundTrip(text: string, utf8: string -> seq<byte>, utf8Decode: seq<byte> -> string,
                      btoa: string -> string, atob: string -> Option<string>)
    requires IsBase64Codec(btoa, atob) && utf8Decode(utf8(text)) == text
    ensures var encoded := btoa(BinaryString(utf8(text)));
      atob(Trim(encoded)).Some? && utf8Decode(CharCodes(atob(Trim(encoded)).value)) == text
  {
    var bin := BinaryString(utf8(text));
    BinaryRoundTrip(utf8(text), "");
    var encoded := btoa(bin);
    assert forall i :: 0 <= i < |encoded| ==> IsBase64Char(encoded[i]);
    TrimOfBase64(encoded);
  }

  /** Base64 text has no whitespace to trim. */
  lemma TrimOfBase64(s: string)
    requires forall i :: 0 <= i < |s| ==> IsBase64Char(s[i])
    ensures Trim(s) == s
  {
    if |s| > 0 {
      assert !IsJsWhitespace(s[0]) && !IsJsWhitespace(s[|s| - 1]);
    }
    assert TrimStart(s) == s;
  }

  /** The image the page previews or downloads: the decoded bytes and the type. */
  datatype Blob = Blob(bytes: seq<byte>, mime: string)

  /** base64ToBlob; None where `atob` throws. */
  method Base64ToBlob(base64: string, mime: string, atob: string -> Option<string>) returns (r: Option<Blob>)
    ensures r.None? <==> atob(base64).None?
    ensures r.Some? ==> r.value == Blob(CharCodes(atob(base64).value), mime)
  {
    var bin := atob(base64);
    if bin.None? {
      return None;
    }
    var bytes := DecodeBinary(bin.value);
    r := Some(Blob(bytes[..], mime));
  }

  datatype ImageError = NoImageInput | InvalidBase64

  /** A download: the file name and its contents. */
  datatype Download = Download(name: string, blob: Blob)

  /** downloadImage: nothing to do for blank text, an error where the payload
      is not Base64, otherwise `output.<ext>` with the decoded bytes. */
  method DownloadImage(imgDataUrl: string, atob: string -> Option<string>) returns (r: Result<Download, ImageError>)
    ensures r == Failure(NoImageInput) <==> Trim(imgDataUrl) == []
    ensures r == Failure(InvalidBase64) <==> ImgInfo(imgDataUrl).Some? && atob(ImgInfo(imgDataUrl).value.base64).None?
    ensures r.Success? ==> var info := ImgInfo(imgDataUrl).value;
      r.value == Download(DownloadName(info.mime), Blob(CharCodes(atob(info.base64).value), info.mime))
  {
    var info := ImgInfo(imgDataUrl);
    if info.None? {
      return Failure(NoImageInput);
    }
    var blob := Base64ToBlob(info.value.base64, info.value.mime, atob);
    if blob.None? {
      return Failure(InvalidBase64);
    }
    r := Success(Download(DownloadName(info.value.mime), blob.value));
  }

  /** An image pasted as a data URL is downloaded under the extension of its
      own type, with the bytes its payload encodes. */
  lemma DownloadOfDataUrl(mime: string, bytes: seq<byte>, btoa: string -> string, atob: string -> Option<string>)
    requires mime != [] && ';' !in mime && !Contains(mime, Marker)
    requires IsBase64Codec(btoa, atob)
    ensures var url := DataScheme + mime + ";" + Marker + btoa(BinaryString(bytes));
      var info := ImgInfo(url);
      && info == Some(ImageInfo(btoa(BinaryString(bytes)), mime))
      && atob(info.value.base64).Some? && CharCodes(atob(info.value.base64).value) == bytes
  {
    var payload := btoa(BinaryString(bytes));
    BinaryRoundTrip(bytes, "");
    assert forall i :: 0 <= i < |payload| ==> IsBase64Char(payload[i]);
    if payload != [] {
      assert !IsJsWhitespace(payload[|payload| - 1]);
    }
    StripDataUrl(mime, payload);
    var url := DataScheme + mime + ";" + Marker + payload;
    TrimOfDataUrl(mime, payload);
    assert Trim(url) != [] by { assert |Trim(url)| == |url|; }
  }
}
