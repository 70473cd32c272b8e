/**
 * What the metadata reader reports for each selected stream
 * (doc/examples/extract_timed_metadata.c): the stream's track references
 * and its timed-metadata descriptor, sliced out of the stream's side data
 * into a tag, a URI, a configuration tag and configuration bytes.
 */
module TrackReport {
  import opened AvTypes
  import opened CStrings

  /**
   * `AVTimedMetadataInfo` as the reader accesses it: two four-byte tags,
   * the lengths of the URI region and of the configuration, and the bytes
   * that follow the fixed header (the URI region, then the configuration).
   */
  datatype TimedMetadataInfo = TimedMetadataInfo(
    metaTag: seq<uint8>, metaLength: nat, confTag: seq<uint8>, confLength: nat, trailing: seq<uint8>)

  /**
   * The side data holds the tags and every byte its lengths announce. The
   * reader never compares the lengths with the side data's size, so this
   * is its callers' obligation.
   */
  predicate WellFormed(info: TimedMetadataInfo)
  {
    |info.metaTag| == 4 && |info.confTag| == 4 && info.metaLength + info.confLength <= |info.trailing|
  }

  /** The descriptor as the reader extracts and prints it. */
  datatype Descriptor = Descriptor(trefTag: seq<uint8>, uri: seq<uint8>, confTag: seq<uint8>, conf: seq<uint8>)

  /**
   * Slicing the side data: the tags and the URI are read as C strings
   * bounded by their lengths, the configuration as raw bytes.
   */
  function Describe(info: TimedMetadataInfo): (d: Descriptor)
    requires WellFormed(info)
    ensures d.uri <= info.trailing[..info.metaLength] && 0 !in d.uri
    ensures |d.uri| < info.metaLength ==> info.trailing[|d.uri|] == 0
    ensures d.conf == info.trailing[info.metaLength .. info.metaLength + info.confLength]
    ensures d.trefTag <= info.metaTag && 0 !in d.trefTag
    ensures |d.trefTag| < 4 ==> info.metaTag[|d.trefTag|] == 0
    ensures d.confTag <= info.confTag && 0 !in d.confTag
    ensures |d.confTag| < 4 ==> info.confTag[|d.confTag|] == 0
  {
    var uriRegion := info.trailing[..info.metaLength];
    CStringProperties(uriRegion);
    CStringProperties(info.metaTag[..4]);
    CStringProperties(info.confTag[..4]);
    Descriptor(
      CString(info.metaTag[..4]),
      CString(uriRegion),
      CString(info.confTag[..4]),
      MemNDup(info.trailing[info.metaLength..], info.confLength))
  }

  /** Side data laid out from a tag, a URI, a configuration tag and configuration bytes. */
  function Layout(tag: seq<uint8>, uri: seq<uint8>, confTag: seq<uint8>, conf: seq<uint8>): TimedMetadataInfo
  {
    TimedMetadataInfo(tag, |uri|, confTag, |conf|, uri + conf)
  }

  /**
   * Slicing laid-out side data gives back the configuration bytes exactly,
   * and the URI exactly when it holds no NUL byte (a NUL cuts it short).
   */
  lemma DescribeLayout(tag: seq<uint8>, uri: seq<uint8>, confTag: seq<uint8>, conf: seq<uint8>)
    requires |tag| == 4 && |confTag| == 4
    ensures WellFormed(Layout(tag, uri, confTag, conf))
    ensures Describe(Layout(tag, uri, confTag, conf)).conf == conf
    ensures Describe(Layout(tag, uri, confTag, conf)).uri == uri <==> 0 !in uri
    ensures Describe(Layout(tag, uri, confTag, conf)).trefTag == tag <==> 0 !in tag
  {
    var info := Layout(tag, uri, confTag, conf);
    assert info.trailing[..|uri|] == uri;
    assert info.trailing[|uri|..|uri| + |conf|] == conf;
    assert tag[..4] == tag;
    CStringProperties(uri);
    CStringProperties(tag);
  }

  /** `AVTrackReferences` as the reader accesses it: the referenced track ids. */
  datatype TrackReferences = TrackReferences(tracks: seq<int>)

  /** The line the reader prints for one selected stream. */
  datatype Report =
    | NoTrackReferences
    | NoMetadataInfo
    | Describing(trackNumber: int, plural: bool, tracks: seq<int>, descriptor: Descriptor)

  /**
   * The report for the stream at `streamIndex`: missing references are
   * reported first, then missing metadata info; with both present the
   * stream's track number (its index plus one), the referenced tracks and
   * the descriptor.
   */
  function ReportFor(streamIndex: nat, trefs: Option<TrackReferences>, info: Option<TimedMetadataInfo>)
    : (r: Report)
    requires trefs.Some? && info.Some? ==> WellFormed(info.value)
    ensures r.NoTrackReferences? <==> trefs.None?
    ensures r.NoMetadataInfo? <==> trefs.Some? && info.None?
    ensures r.Describing? <==> trefs.Some? && info.Some?
    ensures r.Describing? ==>
      && r.trackNumber == streamIndex + 1
      && r.tracks == trefs.value.tracks
      && (r.plural <==> |trefs.value.tracks| > 1)
      && r.descriptor == Describe(info.value)
  {
    match (trefs, info)
    case (None, _) => NoTrackReferences
    case (Some(_), None) => NoMetadataInfo
    case (Some(t), Some(i)) => Describing(streamIndex + 1, |t.tracks| > 1, t.tracks, Describe(i))
  }
}
