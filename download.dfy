/** The response framing of `YouTubeDownloader.download_video`: the format
    requested from the engine, the file name, the media type and the two
    response headers, all derived from the title and container extension the
    engine reports. The chunk relay itself is transport and not modelled. */
module Download {
  import opened Common

  const DefaultFormat := "best"
  const Mp4MediaType := "video/mp4"
  const GenericMediaType := "application/octet-stream"
  const DispositionPrefix := "attachment; filename=\""
  const DownloadErrorPrefix := "Download error: "

  /** The two keys of the engine's record that the framing reads; `None`
      is an absent key, which the source reads with `info[...]` and so raises
      a KeyError. */
  datatype DownloadInfo = DownloadInfo(title: Option<string>, ext: Option<string>)

  /** Everything `download_video` decides before the first byte is relayed. */
  datatype Framing = Framing(
    format: string,
    filename: string,
    mediaType: string,
    contentDisposition: string,
    videoTitle: string)

  /** `format_id or 'best'`: an absent or empty format id asks for the best one. */
  function RequestedFormat(formatId: Option<string>): (f: string)
    ensures f != ""
    ensures formatId.Some? && formatId.value != "" ==> f == formatId.value
    ensures formatId.None? || formatId.value == "" ==> f == DefaultFormat
  {
    match formatId
    case Some(id) => if id != "" then id else DefaultFormat
    case None => DefaultFormat
  }

  function Filename(title: string, ext: string): (r: string)
  {
    title + "." + ext
  }

  /** The media type: mp4 is announced as video, anything else as bytes. */
  function MediaType(ext: Option<string>): (m: string)
    ensures m == Mp4MediaType <==> ext == Some("mp4")
    ensures m == GenericMediaType <==> ext != Some("mp4")
  {
    if ext == Some("mp4") then Mp4MediaType else GenericMediaType
  }

  function Disposition(filename: string): (r: string)
  {
    DispositionPrefix + filename + "\""
  }

  /** The text of Python's KeyError for a missing key `k`. */
  function KeyErrorText(k: string): (r: string)
  {
    "'" + k + "'"
  }

  /** `download_video` up to the construction of the streaming response:
      an engine failure or a missing title or extension is reported as a
      download error before any header is produced. */
  function Frame(formatId: Option<string>, extracted: Result<DownloadInfo>): (r: Result<Framing>)
    ensures r.Ok? <==> extracted.Ok? && extracted.value.title.Some? && extracted.value.ext.Some?
    ensures extracted.Err? ==> r == Err(DownloadErrorPrefix + extracted.message)
  {
    match extracted
    case Err(m) => Err(DownloadErrorPrefix + m)
    case Ok(info) =>
      match (info.title, info.ext)
      case (None, _) => Err(DownloadErrorPrefix + KeyErrorText("title"))
      case (Some(_), None) => Err(DownloadErrorPrefix + KeyErrorText("ext"))
      case (Some(title), Some(ext)) =>
        var name := Filename(title, ext);
        Ok(Framing(
          RequestedFormat(formatId), name, MediaType(info.ext), Disposition(name),
          match info.title case Some(t) => t case None => "video"))
  }

  /** The index of the last '.' of a name, if it has one. */
  function LastDot(s: string): (r: Option<nat>)
    ensures r.Some? ==> r.value < |s| && s[r.value] == '.'
    ensures r.Some? ==> forall i :: r.value < i < |s| ==> s[i] != '.'
    ensures r.None? ==> forall i :: 0 <= i < |s| ==> s[i] != '.'
  {
    if s == [] then None
    else if s[|s| - 1] == '.' then Some(|s| - 1)
    else LastDot(s[..|s| - 1])
  }

  /** Splits a file name into its stem and its extension at the last '.'. */
  function SplitExtension(name: string): (r: Option<(string, string)>)
  {
    match LastDot(name)
    case None => None
    case Some(k) => Some((name[..k], name[k + 1..]))
  }

  /** The file name keeps both parts: if the extension has no '.', splitting
      the name at its last '.' gives back the title and the extension. */
  lemma FilenameSplits(title: string, ext: string)
    requires forall i :: 0 <= i < |ext| ==> ext[i] != '.'
    ensures SplitExtension(Filename(title, ext)) == Some((title, ext))
  {
    var name := Filename(title, ext);
    var k := LastDot(name);
    assert name[|title|] == '.';
    assert forall i :: |title| < i < |name| ==> name[i] == ext[i - |title| - 1];
    assert k.Some? && k.value == |title|;
    assert name[..|title|] == title;
    assert name[|title| + 1..] == ext;
  }

  /** The index of the first '"' of a string, if it has one. */
  function FirstQuote(s: string): (r: Option<nat>)
    ensures r.Some? ==> r.value < |s| && s[r.value] == '"'
    ensures r.Some? ==> forall i :: 0 <= i < r.value ==> s[i] != '"'
    ensures r.None? <==> '"' !in s
  {
    if s == [] then None
    else if s[0] == '"' then Some(0)
    else match FirstQuote(s[1..])
      case None => None
      case Some(k) => Some(k + 1)
  }

  /** The file name a client reads from a Content-Disposition header: the
      quoted string after the prefix, which ends at the first '"'. */
  function DispositionFilename(h: string): (r: Option<string>)
  {
    if |h| > |DispositionPrefix| && h[..|DispositionPrefix|] == DispositionPrefix then
      var rest := h[|DispositionPrefix|..];
      match FirstQuote(rest)
      case None => None
      case Some(k) => Some(rest[..k])
    else None
  }

  /** The Content-Disposition header carries a file name without '"'
      unchanged. */
  lemma DispositionRoundTrip(filename: string)
    requires '"' !in filename
    ensures DispositionFilename(Disposition(filename)) == Some(filename)
  {
    var h := Disposition(filename);
    assert h[..|DispositionPrefix|] == DispositionPrefix;
    var rest := h[|DispositionPrefix|..];
    assert rest == filename + "\"";
    var k := FirstQuote(rest);
    assert k.Some? && k.value == |filename|;
    assert rest[..|filename|] == filename;
  }

  /** The header escapes nothing, so a '"' in the file name ends the quoted
      name early: the client reads only the part before it. */
  lemma QuoteTruncatesFilename(filename: string, k: nat)
    requires k < |filename| && filename[k] == '"'
    requires forall i :: 0 <= i < k ==> filename[i] != '"'
    ensures DispositionFilename(Disposition(filename)) == Some(filename[..k])
    ensures DispositionFilename(Disposition(filename)) != Some(filename)
  {
    var h := Disposition(filename);
    assert h[..|DispositionPrefix|] == DispositionPrefix;
    var rest := h[|DispositionPrefix|..];
    assert rest == filename + "\"";
    var q := FirstQuote(rest);
    assert rest[k] == '"';
    assert q.Some? && q.value == k;
    assert rest[..k] == filename[..k];
  }

  /** On success the framing is determined by the title and extension: the
      file name is "title.ext", the disposition names that file (and reads
      back as it when neither part holds a '"'), and the
      title header is the title itself (the "video" default is never reached,
      since an absent title has already failed the request). */
  lemma FramingContents(formatId: Option<string>, title: string, ext: string)
    ensures var r := Frame(formatId, Ok(DownloadInfo(Some(title), Some(ext))));
      && r.Ok?
      && r.value.format == RequestedFormat(formatId)
      && r.value.filename == title + "." + ext
      && r.value.contentDisposition == DispositionPrefix + title + "." + ext + "\""
      && ('"' !in title && '"' !in ext ==>
            DispositionFilename(r.value.contentDisposition) == Some(title + "." + ext))
      && r.value.videoTitle == title
      && (r.value.mediaType == Mp4MediaType <==> ext == "mp4")
  {
    var name := title + "." + ext;
    if '"' !in title && '"' !in ext {
      DispositionRoundTrip(name);
    }
  }

  /** An mp4 variant is served as video/mp4 under the name "title.mp4". */
  lemma Mp4Download(title: string)
    ensures var r := Frame(Some(DefaultFormat), Ok(DownloadInfo(Some(title), Some("mp4"))));
      && r.Ok?
      && r.value.format == "best"
      && r.value.mediaType == "video/mp4"
      && r.value.contentDisposition == "attachment; filename=\"" + title + ".mp4\""
  {
    var r := Frame(Some(DefaultFormat), Ok(DownloadInfo(Some(title), Some("mp4"))));
    assert r.value.contentDisposition == DispositionPrefix + (title + "." + "mp4") + "\"";
  }
}
