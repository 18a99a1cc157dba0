/** The metadata description of `YouTubeDownloader.get_video_info`: the record
    the extraction engine returns is reshaped into a display-ready one, and its
    format records are filtered and mapped into format descriptors. The engine
    call itself is outside the model; its outcome is the argument. */
module VideoInfo {
  import opened Common
  import opened SizeFormat

  /** One format record as the extraction engine reports it. */
  datatype RawFormat = RawFormat(
    formatId: Field<string>,
    ext: Field<string>,
    resolution: Field<string>,
    filesize: Field<int>,
    formatNote: Field<string>)

  /** One entry of the `formats` list of the description. */
  datatype FormatDescriptor = FormatDescriptor(
    formatId: Option<string>,
    ext: string,
    resolution: Option<string>,
    filesize: Option<int>,
    filesizeFmt: SizeText,
    note: Option<string>)

  /** The media record as the extraction engine reports it. */
  datatype RawInfo = RawInfo(
    id: Field<string>,
    title: Field<string>,
    thumbnail: Field<string>,
    duration: Field<real>,
    durationString: Field<string>,
    uploader: Field<string>,
    formats: Field<seq<RawFormat>>,
    webpageUrl: Field<string>,
    description: Field<string>,
    viewCount: Field<int>,
    likeCount: Field<int>)

  /** The description returned to clients; a null field is `None`. */
  datatype Info = Info(
    id: Option<string>,
    title: Option<string>,
    thumbnail: Option<string>,
    duration: Option<real>,
    durationString: Option<string>,
    uploader: Option<string>,
    formats: seq<FormatDescriptor>,
    webpageUrl: Option<string>,
    description: Option<string>,
    viewCount: Option<int>,
    likeCount: Option<int>)

  const InfoErrorPrefix := "Error getting video info: "

  /** Python's message for iterating over None, raised when the engine
      reports `formats` as null. */
  const NotIterableMessage := "'NoneType' object is not iterable"

  /** A format is kept when its `ext` is truthy: present and non-empty. */
  predicate Kept(f: RawFormat)
  {
    f.ext.Value? && f.ext.v != ""
  }

  /** The descriptor built for one kept format record. */
  function Describe(f: RawFormat): (d: FormatDescriptor)
    requires Kept(f)
    ensures d.ext == f.ext.v && d.ext != ""
    ensures d.formatId == Get(f.formatId) && d.filesize == Get(f.filesize)
    ensures d.filesizeFmt == SizeTextOf(d.filesize)
    ensures f.resolution.Missing? ==> d.resolution == Some("N/A")
    ensures f.formatNote.Missing? ==> d.note == Some("N/A")
    ensures d.resolution == GetOr(f.resolution, "N/A") && d.note == GetOr(f.formatNote, "N/A")
  {
    FormatDescriptor(
      Get(f.formatId), f.ext.v, GetOr(f.resolution, "N/A"),
      Get(f.filesize), SizeTextOf(Get(f.filesize)), GetOr(f.formatNote, "N/A"))
  }

  /** The built `formats` list: the kept records, described, in input order. */
  function Descriptors(fs: seq<RawFormat>): (ds: seq<FormatDescriptor>)
  {
    if fs == [] then []
    else (if Kept(fs[0]) then [Describe(fs[0])] else []) + Descriptors(fs[1..])
  }

  /** The number of kept records. */
  function CountKept(fs: seq<RawFormat>): (n: nat)
  {
    if fs == [] then 0 else (if Kept(fs[0]) then 1 else 0) + CountKept(fs[1..])
  }

  /** What `get_video_info` returns for what the engine reported: the engine's
      failure, or a null `formats` list, becomes an error; an absent list is
      read as empty. */
  function InfoOf(extracted: Result<RawInfo>): (r: Result<Info>)
  {
    match extracted
    case Err(m) => Err(InfoErrorPrefix + m)
    case Ok(raw) =>
      if raw.formats.Null? then Err(InfoErrorPrefix + NotIterableMessage)
      else
        var fs := if raw.formats.Missing? then [] else raw.formats.v;
        Ok(Info(Get(raw.id), Get(raw.title), Get(raw.thumbnail), Get(raw.duration),
                Get(raw.durationString), Get(raw.uploader), Descriptors(fs),
                Get(raw.webpageUrl), Get(raw.description), Get(raw.viewCount),
                Get(raw.likeCount)))
  }

  /** `get_video_info`: the loop that appends one descriptor per kept format
      record, then the description built around it. */
  method GetVideoInfo(extracted: Result<RawInfo>) returns (r: Result<Info>)
    ensures r == InfoOf(extracted)
  {
    if extracted.Err? {
      return Err(InfoErrorPrefix + extracted.message);
    }
    var raw := extracted.value;
    if raw.formats.Null? {
      return Err(InfoErrorPrefix + NotIterableMessage);
    }
    var fs := if raw.formats.Missing? then [] else raw.formats.v;
    var formats: seq<FormatDescriptor> := [];
    var i := 0;
    while i < |fs|
      invariant 0 <= i <= |fs|
      invariant formats == Descriptors(fs[..i])
    {
      var f := fs[i];
      if f.ext.Value? && f.ext.v != "" {
        var sizeFmt := FormatSize(Get(f.filesize));
        formats := formats + [FormatDescriptor(
          Get(f.formatId), f.ext.v, GetOr(f.resolution, "N/A"),
          Get(f.filesize), sizeFmt, GetOr(f.formatNote, "N/A"))];
      }
      DescriptorsSnoc(fs[..i], f);
      assert fs[..i + 1] == fs[..i] + [f];
      i := i + 1;
    }
    assert fs[..i] == fs;
    r := Ok(Info(Get(raw.id), Get(raw.title), Get(raw.thumbnail), Get(raw.duration),
                 Get(raw.durationString), Get(raw.uploader), formats,
                 Get(raw.webpageUrl), Get(raw.description), Get(raw.viewCount),
                 Get(raw.likeCount)));
  }

  /** Building descriptors distributes over concatenation of the input. */
  lemma {:induction false} DescriptorsAppend(a: seq<RawFormat>, b: seq<RawFormat>)
    ensures Descriptors(a + b) == Descriptors(a) + Descriptors(b)
  {
    if a == [] {
      assert a + b == b;
    } else {
      assert (a + b)[1..] == a[1..] + b;
      DescriptorsAppend(a[1..], b);
    }
  }

  lemma DescriptorsSnoc(a: seq<RawFormat>, f: RawFormat)
    ensures Descriptors(a + [f]) == Descriptors(a) + (if Kept(f) then [Describe(f)] else [])
  {
    DescriptorsAppend(a, [f]);
    assert [f][1..] == [];
  }

  /** The list holds one descriptor per kept record, so it is never longer
      than the input, and it is as long exactly when every record is kept. */
  lemma {:induction false} DescriptorsLength(fs: seq<RawFormat>)
    ensures |Descriptors(fs)| == CountKept(fs) <= |fs|
    ensures |Descriptors(fs)| == |fs| <==> forall i :: 0 <= i < |fs| ==> Kept(fs[i])
  {
    if fs != [] {
      DescriptorsLength(fs[1..]);
      if forall i :: 0 <= i < |fs| ==> Kept(fs[i]) {
        assert forall i :: 0 <= i < |fs[1..]| ==> Kept(fs[1..][i]) by {
          forall i | 0 <= i < |fs[1..]| ensures Kept(fs[1..][i]) {
            assert fs[1..][i] == fs[i + 1];
          }
        }
      } else if Kept(fs[0]) {
        var i :| 0 <= i < |fs| && !Kept(fs[i]);
        assert fs[1..][i - 1] == fs[i];
      }
    }
  }

  /** Every descriptor comes from a kept record, and every kept record
      contributes its descriptor: the list is exactly the kept records. */
  lemma {:induction false} DescriptorsMembership(fs: seq<RawFormat>, d: FormatDescriptor)
    ensures d in Descriptors(fs) <==> exists i :: 0 <= i < |fs| && Kept(fs[i]) && Describe(fs[i]) == d
  {
    if fs != [] {
      DescriptorsMembership(fs[1..], d);
      if exists i :: 0 <= i < |fs| && Kept(fs[i]) && Describe(fs[i]) == d {
        var i :| 0 <= i < |fs| && Kept(fs[i]) && Describe(fs[i]) == d;
        if i > 0 {
          assert fs[1..][i - 1] == fs[i];
        }
      }
      if d in Descriptors(fs[1..]) {
        var i :| 0 <= i < |fs[1..]| && Kept(fs[1..][i]) && Describe(fs[1..][i]) == d;
        assert fs[i + 1] == fs[1..][i];
      }
    }
  }

  /** Order is kept: when records i < j are both kept, the descriptor of i
      comes before the descriptor of j, at positions given by the number of
      kept records before each. */
  lemma {:induction false} DescriptorsOrder(fs: seq<RawFormat>, i: nat)
    requires i < |fs| && Kept(fs[i])
    ensures CountKept(fs[..i]) < |Descriptors(fs)|
    ensures Descriptors(fs)[CountKept(fs[..i])] == Describe(fs[i])
  {
    assert fs == fs[..i] + [fs[i]] + fs[i + 1..];
    DescriptorsAppend(fs[..i] + [fs[i]], fs[i + 1..]);
    DescriptorsSnoc(fs[..i], fs[i]);
    DescriptorsLength(fs[..i]);
  }

  /** An absent `formats` list yields an empty description list, a null one
      an error: the two are not the same to the source. */
  lemma MissingVersusNullFormats(raw: RawInfo)
    ensures raw.formats.Missing? ==> InfoOf(Ok(raw)).Ok? && InfoOf(Ok(raw)).value.formats == []
    ensures raw.formats.Null? ==> InfoOf(Ok(raw)) == Err(InfoErrorPrefix + NotIterableMessage)
  {
  }
}
