/** The QR tool page's generate-and-download path. Encoding text as a QR
    image (the `qrcode` library) and scanning one (`jsQR`) are not modelled;
    the data-URL split, the decode loop and the image reading are shared
    with the Base64 page, whose copies behave the same. */
module QrTool {
  import opened Outcomes
  import opened Strings
  import opened Base64Tool

  /** guessFileExtFromMime of this page: five known types, 'png' otherwise. */
  function QrGuessExt(mime: string): (ext: string)
    ensures ext in {"jpg", "png", "webp", "gif", "svg"}
    ensures ext == "png" <==> mime !in {"image/jpeg", "image/webp", "image/gif", "image/svg+xml"}
  {
    if mime == "image/jpeg" then "jpg"
    else if mime == "image/png" then "png"
    else if mime == "image/webp" then "webp"
    else if mime == "image/gif" then "gif"
    else if mime == "image/svg+xml" then "svg"
    else "png"
  }

  /** The types this page knows get the same extension as on the Base64
      page; every other type is saved as PNG, where the Base64 page falls
      back to 'bin' (or knows BMP and ICO). */
  lemma QrGuessExtAgrees(mime: string)
    ensures mime in {"image/jpeg", "image/png", "image/webp", "image/gif", "image/svg+xml"} ==>
      QrGuessExt(mime) == GuessExt(mime)
    ensures mime !in {"image/jpeg", "image/webp", "image/gif", "image/svg+xml"} ==> QrGuessExt(mime) == "png"
    ensures QrGuessExt(mime) != "bin" && (GuessExt(mime) != "bin" && GuessExt(mime) != "bmp" && GuessExt(mime) != "ico" ==>
      QrGuessExt(mime) == GuessExt(mime))
  {
  }

  /** bytesToArrayBuffer: a fresh buffer with the same bytes. */
  method CopyBytes(bytes: array<byte>) returns (copy: array<byte>)
    ensures fresh(copy)
    ensures copy[..] == bytes[..]
  {
    copy := new byte[bytes.Length];
    forall i | 0 <= i < bytes.Length {
      copy[i] := bytes[i];
    }
  }

  datatype QrError = EmptyText | NoQrCode | NotBase64

  /** generateQr's input check: the trimmed text, which must not be empty. */
  function QrText(genInput: string): (r: Result<string, QrError>)
    ensures r.Failure? <==> forall i :: 0 <= i < |genInput| ==> IsJsWhitespace(genInput[i])
    ensures r.Success? ==> r.value == Trim(genInput) && Trim(r.value) == r.value && r.value != []
  {
    TrimEmptyIff(genInput);
    TrimIdempotent(genInput);
    var text := Trim(genInput);
    if text == [] then Failure(EmptyText) else Success(text)
  }

  /** downloadQr: nothing to download before a code exists; otherwise
      `qrcode.<ext>` with the bytes of the code's data URL, copied into a
      fresh buffer. */
  method DownloadQr(qrDataUrl: string, atob: string -> Option<string>) returns (r: Result<Download, QrError>)
    ensures r == Failure(NoQrCode) <==> Trim(qrDataUrl) == []
    ensures r == Failure(NotBase64) <==> ImgInfo(qrDataUrl).Some? && atob(ImgInfo(qrDataUrl).value.base64).None?
    ensures r.Success? ==> var info := ImgInfo(qrDataUrl).value;
      r.value == Download(QrDownloadName(info.mime), Blob(CharCodes(atob(info.base64).value), info.mime))
  {
    var info := ImgInfo(qrDataUrl);
    if info.None? {
      return Failure(NoQrCode);
    }
    var bin := atob(info.value.base64);
    if bin.None? {
      return Failure(NotBase64);
    }
    var bytes := DecodeBinary(bin.value);
    var buffer := CopyBytes(bytes);
    r := Success(Download(QrDownloadName(info.value.mime), Blob(buffer[..], info.value.mime)));
  }

  /** The download name of the QR tab. */
  function QrDownloadName(mime: string): (r: string)
    ensures StartsWith(r, "qrcode.") && r[|"qrcode."|..] == QrGuessExt(mime)
  {
    var name := "qrcode." + QrGuessExt(mime);
    assert name[..|"qrcode."|] == "qrcode.";
    name
  }

  /** A generated code (a PNG data URL) is saved as `qrcode.png` holding the
      bytes its payload encodes. */
  lemma DownloadOfGeneratedCode(bytes: seq<byte>, btoa: string -> string, atob: string -> Option<string>)
    requires IsBase64Codec(btoa, atob)
    ensures var url := DataScheme + DefaultMime + ";" + Marker + btoa(BinaryString(bytes));
      var info := ImgInfo(url);
      && info.Some? && QrDownloadName(info.value.mime) == "qrcode.png"
      && atob(info.value.base64).Some? && CharCodes(atob(info.value.base64).value) == bytes
  {
    PngTypeIsPlain();
    DownloadOfDataUrl(DefaultMime, bytes, btoa, atob);
  }

  lemma PngTypeIsPlain()
    ensures DefaultMime != [] && ';' !in DefaultMime && !Contains(DefaultMime, Marker)
    ensures QrDownloadName(DefaultMime) == "qrcode.png"
  {
    assert Marker[0] == 'b' && 'b' !in DefaultMime;
    NotContainsMissingChar(DefaultMime, Marker, 0);
  }
}
