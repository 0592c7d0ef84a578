/** The payload-extraction step of `fileToBase64` (utils/fileUtils.ts). */
module FileUtils {
  import opened Wrappers
  import opened JsStrings

  /** A browser `File`: only its name and declared MIME type (`file.type`) matter here. */
  datatype File = File(name: string, mimeType: string)

  const ExtractFailedMessage := "Failed to extract base64 string from file."

  /** `result.split(',')[1]`, accepted only when it is a non-empty string
      (an absent element is `undefined`, which is falsy, and so is `""`). */
  function ExtractBase64(dataUrl: string): (r: Result<string, string>)
    ensures r.Success? ==> r.value != "" && ',' !in r.value
    ensures r.Failure? ==> r.error == ExtractFailedMessage
  {
    var parts := Split(dataUrl, ',');
    if |parts| > 1 && parts[1] != "" then Success(parts[1]) else Failure(ExtractFailedMessage)
  }

  /** The whole promise of `fileToBase64`: the reader either produced a data URL, which is
      then cut, or failed; its `onerror` rejects with a `ProgressEvent`, which carries no
      `message`, written here as the empty message. */
  function FileToBase64(readResult: Option<string>): (r: Result<string, string>)
    ensures r.Success? <==>
              readResult.Some? && SecondSegment(readResult.value).Some? && SecondSegment(readResult.value).value != ""
    ensures r.Success? ==> r.value == SecondSegment(readResult.value).value && ',' !in r.value
    ensures r.Failure? ==> r.error == if readResult.None? then "" else ExtractFailedMessage
  {
    match readResult
    case None => Failure("")
    case Some(dataUrl) =>
      ExtractIsSecondSegment(dataUrl);
      ExtractBase64(dataUrl)
  }

  /** Reference definition, written with positions instead of `split`: the text strictly
      after the first comma, up to the next comma or the end; absent without a comma. */
  function SecondSegment(s: string): Option<string> {
    var i := IndexOf(s, ',');
    if i < 0 then None
    else
      var rest := s[i + 1..];
      var j := IndexOf(rest, ',');
      Some(if j < 0 then rest else rest[..j])
  }

  /** The extraction resolves with exactly the second comma-separated segment when that
      segment exists and is non-empty, and rejects otherwise. */
  lemma ExtractIsSecondSegment(s: string)
    ensures SecondSegment(s).Some? && SecondSegment(s).value != "" ==>
              ExtractBase64(s) == Success(SecondSegment(s).value)
    ensures SecondSegment(s).None? || SecondSegment(s).value == "" ==>
              ExtractBase64(s) == Failure(ExtractFailedMessage)
  {
    var i := IndexOf(s, ',');
    if i < 0 {
      SplitNoSeparator(s, ',');
    } else {
      var rest := s[i + 1..];
      assert s == s[..i] + [','] + rest;
      SplitAtFirst(s[..i], rest, ',');
      var j := IndexOf(rest, ',');
      var segment := if j < 0 then rest else rest[..j];
      assert SecondSegment(s) == Some(segment);
      SecondPiece(rest, j);
      assert Split(s, ',')[1] == segment;
    }
  }

  /** The first piece of `rest` is the text before its first comma. */
  lemma SecondPiece(rest: string, j: int)
    requires j == IndexOf(rest, ',')
    ensures Split(rest, ',')[0] == if j < 0 then rest else rest[..j]
  {
    if j < 0 {
      SplitNoSeparator(rest, ',');
    } else {
      assert rest == rest[..j] + [','] + rest[j + 1..];
      SplitAtFirst(rest[..j], rest[j + 1..], ',');
    }
  }

  /** A data URL without a comma is always rejected. */
  lemma NoCommaRejected(s: string)
    requires ',' !in s
    ensures ExtractBase64(s) == Failure(ExtractFailedMessage)
  {
    SplitNoSeparator(s, ',');
  }

  /** The documented example: a JPEG data URL yields the text after its comma. */
  lemma JpegDataUrlExample()
    ensures ExtractBase64("data:image/jpeg;base64,LzlqLzRBQ...") == Success("LzlqLzRBQ...")
  {
    var header, payload := "data:image/jpeg;base64", "LzlqLzRBQ...";
    var url := header + [','] + payload;
    assert url == "data:image/jpeg;base64,LzlqLzRBQ...";
    assert ',' !in header && ',' !in payload;
    SplitAtFirst(header, payload, ',');
    SplitNoSeparator(payload, ',');
    assert Split(url, ',') == [header, payload];
  }
}
