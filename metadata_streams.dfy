/**
 * How the metadata reader picks its streams and routes packets
 * (doc/examples/extract_timed_metadata.c): the indices of the DATA
 * streams are written, in order, into a fixed array of
 * `MAX_METADATA_STREAMS + 1` entries ending in a `-1` sentinel, and a
 * packet goes to the decoder whose slot holds the packet's stream index.
 */
module MetadataStreams {

  const MAX_METADATA_STREAMS: nat := 10

  /** The media type of a stream's codec parameters. */
  datatype MediaType = Unknown | Video | Audio | Data | Subtitle | Attachment

  ghost predicate StrictlyIncreasing(s: seq<int>)
  {
    forall i, j :: 0 <= i < j < |s| ==> s[i] < s[j]
  }

  /** The indices of the DATA streams, in increasing order. */
  function DataStreams(types: seq<MediaType>): (r: seq<nat>)
    ensures forall k :: 0 <= k < |r| ==> r[k] < |types| && types[r[k]] == Data
    ensures forall i :: 0 <= i < |types| && types[i] == Data ==> i in r
    ensures StrictlyIncreasing(r)
  {
    if types == [] then []
    else
      var last := |types| - 1;
      DataStreams(types[..last]) + if types[last] == Data then [last] else []
  }

  /** Looking at more streams never selects fewer. */
  lemma {:induction false} DataStreamsGrow(types: seq<MediaType>, i: nat)
    requires i <= |types|
    ensures |DataStreams(types[..i])| <= |DataStreams(types)|
    decreases |types| - i
  {
    if i < |types| {
      DataStreamsGrow(types, i + 1);
      assert types[..i + 1][..i] == types[..i];
    } else {
      assert types[..i] == types;
    }
  }

  /**
   * The selection loop of `open_input_file`: append each DATA stream's
   * index and end the list with `-1`. The `assert` that caps the count
   * aborts the program once an eleventh DATA stream is met; `ok` is false
   * then and the array's contents are not specified.
   */
  method SelectMetadataStreams(types: seq<MediaType>, indices: array<int>)
    returns (ok: bool, nbMetadata: nat)
    requires indices.Length == MAX_METADATA_STREAMS + 1
    modifies indices
    ensures ok <==> |DataStreams(types)| <= MAX_METADATA_STREAMS
    ensures ok ==> nbMetadata == |DataStreams(types)|
    ensures ok ==> indices[..nbMetadata] == DataStreams(types) && indices[nbMetadata] == -1
  {
    nbMetadata := 0;
    for i := 0 to |types|
      invariant nbMetadata <= MAX_METADATA_STREAMS
      invariant nbMetadata == |DataStreams(types[..i])|
      invariant indices[..nbMetadata] == DataStreams(types[..i])
    {
      assert types[..i + 1][..i] == types[..i];
      if types[i] == Data {
        if nbMetadata >= MAX_METADATA_STREAMS {
          DataStreamsGrow(types, i + 1);
          return false, nbMetadata;
        }
        indices[nbMetadata] := i;
        nbMetadata := nbMetadata + 1;
      }
    }
    assert types[..|types|] == types;
    indices[nbMetadata] := -1;
    ok := true;
  }

  /** The slots, in order, whose stream index equals `streamIndex`. */
  function Matches(s: seq<int>, streamIndex: int): (r: seq<nat>)
    ensures forall k :: 0 <= k < |r| ==> r[k] < |s| && s[r[k]] == streamIndex
    ensures forall i :: 0 <= i < |s| && s[i] == streamIndex ==> i in r
    ensures r == [] <==> forall i :: 0 <= i < |s| ==> s[i] != streamIndex
  {
    if s == [] then []
    else
      var last := |s| - 1;
      Matches(s[..last], streamIndex) + if s[last] == streamIndex then [last] else []
  }

  /**
   * The packet loop's dispatch: walk the slots up to the `-1` sentinel and
   * hand the packet to decoder `i` whenever slot `i` holds its stream
   * index. `nbMetadata` is where the sentinel sits.
   */
  method Dispatch(indices: array<int>, streamIndex: int, ghost nbMetadata: nat)
    returns (targets: seq<nat>)
    requires nbMetadata < indices.Length && indices[nbMetadata] == -1
    requires forall j :: 0 <= j < nbMetadata ==> indices[j] >= 0
    ensures targets == Matches(indices[..nbMetadata], streamIndex)
  {
    targets := [];
    var i := 0;
    while indices[i] >= 0
      invariant 0 <= i <= nbMetadata
      invariant targets == Matches(indices[..i], streamIndex)
      decreases nbMetadata - i
    {
      assert indices[..i + 1][..i] == indices[..i];
      if streamIndex == indices[i] {
        targets := targets + [i];
      }
      i := i + 1;
    }
  }

  /**
   * Over a list of distinct, increasing indices (what the selection
   * produces), a packet goes to at most one decoder: to decoder `i`
   * exactly when slot `i` holds its stream index.
   */
  lemma {:induction false} MatchesUnique(s: seq<int>, streamIndex: int)
    requires StrictlyIncreasing(s)
    ensures |Matches(s, streamIndex)| <= 1
    ensures forall i :: 0 <= i < |s| ==> (i in Matches(s, streamIndex) <==> s[i] == streamIndex)
  {
    if s != [] {
      var last := |s| - 1;
      MatchesUnique(s[..last], streamIndex);
      if s[last] == streamIndex {
        assert forall k :: 0 <= k < last ==> s[..last][k] != streamIndex;
      }
    }
  }

  /** A packet of a selected stream goes to exactly the decoder of its slot. */
  lemma SelectedPacketRouted(types: seq<MediaType>, k: nat)
    requires k < |DataStreams(types)|
    ensures Matches(DataStreams(types), DataStreams(types)[k]) == [k]
  {
    var s := DataStreams(types);
    MatchesUnique(s, s[k]);
    var m := Matches(s, s[k]);
    assert k in m;
  }
}
