# Timed metadata in ISO base media files: track references, metadata codec, reader helpers

This project is a Dafny model of three parts of FFmpeg's timed-metadata path, with proofs about each.

- **Track-reference registry** (`libavformat/movtref.c`, `movtref.h`). Each track owns a flat array of `MOVTRef` entries. An entry holds a four-character relationship tag and the ids of the tracks it refers to; these become the `tref` box, the Track Reference Box of section 8.3.3 of ISO/IEC 14496-12. The class `MovTRef.TRefs` holds the count `nb_trefs` and the entries as a sequence. Its methods are `find`, `alloc`, `find_or_add`, `add_one_track` and `free`. The contracts of the lookup and update methods (`find`, `find_or_add`, `add_one_track`) tie the new state to the pure functions `FindIndex`, `WithTag` and `AddOne`. The contracts of `alloc` and `free` state the counts and entries directly. Lemmas about those functions prove the registry's properties:
  - tags stay distinct;
  - ids stay distinct within a tag;
  - insertion order is kept;
  - other tags are untouched;
  - adding an id is idempotent.

  A pointer to an entry (`MOVTRef *`) is modelled as the entry's index.
- **Timed-metadata passthrough codec** (`libavcodec/metaenc.c`, `metadec.c`, and the older alternative build `metacodec.c`). `AVPacket`, `AVFrame` and `AVData` are classes. The storage of a reference-counted buffer is an `array<uint8>`. Sharing a buffer means naming the same array; copying means allocating a fresh one. Whether an allocation or a new reference succeeds is a parameter of each method. The contracts state:
  - the size, the timestamps, and the share-or-copy outcome;
  - the ENOMEM path, which produces no output;
  - the released state of the output object before it is filled.

  The `EncodeThenDecode` methods prove that encoding and then decoding returns the timestamp and the payload bytes.
- **Reader helpers** (`doc/examples/extract_timed_metadata.c`), modelled without the I/O around them:
  - selecting DATA streams into the `-1`-terminated array, and routing packets to decoders;
  - `memndup` and `local_strndup`;
  - slicing the metadata descriptor into tag, URI, configuration tag and configuration bytes;
  - the per-stream report;
  - the two byte renderings used in printing. Both renderings are proved reversible.

## Model

| member | source | states |
|---|---|---|
| `MovTRef.FindIndex` | libavformat/movtref.c:29-41 | the result is the first index whose entry has the tag, and no index exactly when no entry has it |
| `MovTRef.TRefs.constructor` | libavformat/movtref.h:30-33 | a new registry has no entries and its count agrees with them |
| `MovTRef.TRefs.Find` | libavformat/movtref.c:29-41 | the early-exit scan returns the first entry carrying the tag, or none, and changes nothing |
| `MovTRef.TRefs.Alloc` | libavformat/movtref.c:43-52 | on success the list grows by exactly `n`, the first new slot (old count) is returned and existing ids are kept; on failure ENOMEM, no slot, count unchanged; other entries untouched either way |
| `MovTRef.TRefs.FindOrAdd` | libavformat/movtref.c:54-80 | a present tag returns its entry with every entry unchanged; a new tag appends exactly one entry (tag, no ids) at the old count with earlier entries unchanged; distinct tags stay distinct and the count agrees with the entries after success; failure only when the tag is new and growth fails, with ENOMEM, no entry, the array gone and the count left at its old value |
| `MovTRef.TRefs.AddOneTrack` | libavformat/movtref.c:82-107 | a find_or_add failure is returned at once, with the array gone and the count left as it was; otherwise the count agrees with the entries, success gives the `AddOne` state, and a failed id append leaves the (possibly new) entry's count and all other entries as after find_or_add |
| `MovTRef.TRefs.HasTrackId` | libavformat/movtref.c:94-98 | the early-exit scan finds the id exactly when the entry's list holds it |
| `MovTRef.TRefs.AppendTrackId` | libavformat/movtref.c:100-105 | success iff the id slot could be allocated; then the entry's list is the old one with the id appended and every other entry unchanged; on failure ENOMEM, the entry's count unchanged |
| `MovTRef.TRefs.Free` | libavformat/movtref.c:109-115 | all entries are released, the count is left as it was, so the registry is consistent afterwards only if it was empty |
| `MovTRef.WithTagProperties` | libavformat/movtref.c:54-80 | find_or_add leaves an entry for the tag, changes nothing when the tag is present, and keeps tags and id lists distinct |
| `MovTRef.WithTagKeepsOtherTags` | libavformat/movtref.c:66-79 | find_or_add leaves the id list found under every other tag unchanged |
| `MovTRef.AddOneIds` | libavformat/movtref.c:94-106 | after add_one_track the tag's list is the old list, with the id appended at the end exactly when it was absent |
| `MovTRef.AddOneKeepsOtherTags` | libavformat/movtref.c:90-106 | add_one_track never changes the id list of any other tag |
| `MovTRef.AddOneIdempotent` | libavformat/movtref.h:64-68 | adding the same id twice has the effect of adding it once |
| `MovTRef.AddOnePreservesDistinct` | libavformat/movtref.c:94-106 | add_one_track keeps tags and ids distinct, and the added id occurs exactly once in its list |
| `MovTRef.CdscScenario` | libavformat/movtref.c:82-107 | "cdsc" with ids [1, 2]: adding 2 again keeps [1, 2], adding 3 gives [1, 2, 3] |
| `AvPacketFrame.AllocCopy` | libavcodec/metaenc.c:38-42 | `av_buffer_alloc` then `memcpy`: a fresh buffer of `n` bytes equal to the source bytes |
| `AvPacketFrame.Packet.Unref` | libavcodec/metaenc.c:31 | `av_packet_unref` leaves a packet with no buffer, no data, size 0 and no timestamps |
| `AvPacketFrame.Frame.Unref` | libavcodec/metadec.c:30 | `av_frame_unref` leaves a frame with no buffer, no data, no samples and no timestamps |
| `MetaEncDec.MetaEncode` | libavcodec/metaenc.c:26-50 | success iff the allocation or reference succeeds; then size = `nb_samples`, pts = dts = frame pts, and either the frame's buffer and data pointer are shared or a fresh buffer holds identical bytes; failure is ENOMEM with the packet released and no packet reported |
| `MetaEncDec.MetaDecode` | libavcodec/metadec.c:24-51 | success iff the allocation or reference succeeds; then `nb_samples` = size, pts = pkt_pts = packet pts, pkt_dts = packet dts; a packet buffer is shared resized to the packet size (data[0] left unset), otherwise a fresh buffer pointed to by data[0] holds identical bytes; failure is ENOMEM with the frame released |
| `MetaEncDec.EncodeThenDecode` | libavcodec/metadec.c:31-47 | decoding the packet `meta_encode` produced gives the frame's pts (as pts, pkt_pts and pkt_dts), its `nb_samples` and, through `buf[0]`, identical payload bytes |
| `MetaCodecLegacy.MetaInit` | libavcodec/metacodec.c:26-29 | returns 0 and changes nothing |
| `MetaCodecLegacy.MetaEncode` | libavcodec/metacodec.c:31-47 | returns what `ff_alloc_packet2` returns; on success a fresh buffer holds the frame's bytes, size = `nb_samples`, pts = dts = frame pts, and a packet is reported only then |
| `MetaCodecLegacy.MetaDecode` | libavcodec/metacodec.c:49-66 | the old buffer is dropped; on failure ENOMEM, no buffer, timestamps as they were; on success a fresh buffer holds the packet's bytes and pts, dts come from the packet |
| `MetaCodecLegacy.EncodeThenDecode` | libavcodec/metacodec.c:38-62 | encoding then decoding with this build gives back the payload bytes and the frame pts as both timestamps |
| `MetadataStreams.DataStreams` | doc/examples/extract_timed_metadata.c:64-71 | the selected indices are strictly increasing and are exactly the indices of DATA streams |
| `MetadataStreams.SelectMetadataStreams` | doc/examples/extract_timed_metadata.c:41-71 | the run completes iff there are at most 10 DATA streams; then the array holds their indices in order followed by -1 |
| `MetadataStreams.Matches` | doc/examples/extract_timed_metadata.c:185-187 | the matching slots are exactly the slots holding the stream index, and there are none exactly when no slot holds it |
| `MetadataStreams.Dispatch` | doc/examples/extract_timed_metadata.c:185-187 | the walk up to the sentinel hands the packet to exactly the decoders whose slot holds its stream index |
| `MetadataStreams.MatchesUnique` | doc/examples/extract_timed_metadata.c:185-187 | over increasing indices a packet goes to at most one decoder, decoder `i` exactly when slot `i` holds its index |
| `MetadataStreams.SelectedPacketRouted` | doc/examples/extract_timed_metadata.c:64-71 | a packet of the k-th selected stream goes to decoder k and no other |
| `CStrings.FirstNul` | doc/examples/extract_timed_metadata.c:98-101 | the count is the index of the first NUL, or the length when there is none |
| `CStrings.CStringProperties` | doc/examples/extract_timed_metadata.c:104 | the terminated string holds no NUL, and is the whole buffer exactly when the buffer has none |
| `CStrings.MemNDup` | doc/examples/extract_timed_metadata.c:89-94 | the copy has `n` bytes equal to the first `n` source bytes |
| `CStrings.LocalStrndup` | doc/examples/extract_timed_metadata.c:96-106 | the buffer has `n + 1` bytes, copies the first `n`, has a NUL at the first-NUL index, and its string is the prefix before the first NUL among the first `n` bytes |
| `CStrings.ScanAsWrittenOutcome` | doc/examples/extract_timed_metadata.c:99-101 | with exactly `n` readable bytes, the scan as written reads out of bounds iff none of them is NUL, and otherwise agrees with the corrected scan |
| `CStrings.StrndupOverreadWitness` | doc/examples/extract_timed_metadata.c:147 | on the tag "cdsc" the scan as written reads a fifth byte; the intended scan stops at 4 |
| `CFormat.Hex2` | doc/examples/extract_timed_metadata.c:167 | a `%2x` field is two characters: the low hex digit of the byte last, and first the high digit, or a space when the byte is below 16 |
| `CFormat.ParseHex2Hex2` | doc/examples/extract_timed_metadata.c:208 | every byte's `%2x` field reads back as that byte |
| `PayloadEscape.EscapeAppend` | doc/examples/extract_timed_metadata.c:201-210 | escaping one more byte appends exactly that byte's characters |
| `PayloadEscape.EscapePayload` | doc/examples/extract_timed_metadata.c:201-210 | the printing loop produces the escaping of the bytes `buf[0]` exposes |
| `PayloadEscape.UnescapeEscape` | doc/examples/extract_timed_metadata.c:201-210 | reading the printed payload back gives exactly the payload bytes |
| `PayloadEscape.EscapeInjective` | doc/examples/extract_timed_metadata.c:201-210 | two payloads print alike iff they are the same bytes |
| `ConfigRender.RenderConfigAppend` | doc/examples/extract_timed_metadata.c:162-169 | rendering one more byte appends exactly that byte's token |
| `ConfigRender.RenderConfiguration` | doc/examples/extract_timed_metadata.c:162-169 | the printing loop produces one token per configuration byte, in order |
| `ConfigRender.ParseRenderConfig` | doc/examples/extract_timed_metadata.c:162-169 | reading the printed tokens back gives exactly the configuration bytes |
| `ConfigRender.RenderConfigLength` | doc/examples/extract_timed_metadata.c:162-169 | each byte yields a token of two or three characters |
| `TrackReport.Describe` | doc/examples/extract_timed_metadata.c:147-152 | the URI is a NUL-free prefix of the first `meta_length` bytes after the header, cut at the first NUL; the configuration is the next `conf_length` bytes; both tags are NUL-free prefixes of their four bytes, cut at the first NUL when shorter than four |
| `TrackReport.DescribeLayout` | doc/examples/extract_timed_metadata.c:147-152 | slicing laid-out side data returns the configuration exactly, and the URI (and tag) exactly when it holds no NUL |
| `TrackReport.ReportFor` | doc/examples/extract_timed_metadata.c:142-160 | missing references are reported first, then missing metadata info; with both present, the track number is the stream index plus one, "tracks" is plural iff more than one track, and the descriptor is the sliced one |

## Left out

- I/O and process plumbing in the reader are left out: opening the input, probing streams, reading packets, sending packets to and receiving frames from the decoders, `printf`, `putchar`, exit codes and tearing down the globals. The printed text is modelled as strings that functions return.
- The reader's per-frame header is not modelled: the line with track number, pts and size (doc/examples/extract_timed_metadata.c:197-200). The per-stream line's decimal numbers are not modelled either. Only the byte renderings are.
- Reference counts are left out: `av_buffer_ref`, `av_buffer_unref`, `av_packet_unref` and `av_frame_unref` are modelled by their effect on the fields. Releasing storage is not modelled.
- Allocation is left out: whether an allocation or a new reference succeeds is a parameter.
- `memndup` and `local_strndup` assume `malloc` succeeds, as the source does without checking.
- MovTRef.TRefs.FindOrAdd: when growth fails, `av_reallocp_array` frees the entry array and leaves it NULL, but `nb_trefs` keeps its old value (libavformat/movtref.c:68-70). The model reproduces this: the entries become empty and the count stays, so the registry is consistent afterwards only if it was empty. A later `ff_mov_tref_find` or `ff_mov_tref_free` on such a registry would read through NULL (libavformat/movtref.c:112-113). The model's `Find` and `Free` require a consistent registry, so that later call is outside the model.
- MovTRef.TRefs.Alloc: on failure the source frees the entry's id array but keeps `nb_track_ids` (libavformat/movtref.c:45-50). The model's id list stands for that count by its length: the length is promised, the contents are not, and the body keeps them. The same holds for a failed id append in `MovTRef.TRefs.AddOneTrack`. The values of new slots after a successful growth are not specified, because the source leaves them uninitialised.
- MovTRef.TRefs.Alloc: the source sizes id slots with `sizeof(tref->track_ids)`, the size of a pointer (libavformat/movtref.c:45). This over-allocates, which is harmless. The model tracks only the count.
- MovTRef.TRefs.FindOrAdd repeats the lookup after `ff_mov_tref_find` (libavformat/movtref.c:61-65). The model keeps the second scan, and its invariant shows the scan cannot find anything.
- Counts are unbounded. `int` overflow of `nb_trefs` and `nb_track_ids` is not modelled. `nb_samples` and packet `size` are modelled as non-negative.
- `ff_mov_map_trefs_from_src_tracks` and the rest of the registry API declared in libavformat/movenc.h:259-305 have no bodies in these files, and movenc.h is not part of this model. Its promise of "no modifications on error" is stronger than what movtref.c does. A failed `add_one_track` can leave a new empty entry behind, and a failed `find_or_add` loses the entry array.
- The code is not failure-atomic. The URI is cut at its first NUL rather than carried with an explicit length, and there is no descriptor encoder in the code. `TrackReport.Layout` is only a device for stating the slicing round trip.
- MetaEncDec.MetaEncode tests `frame->buf` (libavcodec/metaenc.c:32). That is the address of the `buf` array, which is never NULL. As written, the copy branch is unreachable, and a frame without `buf[0]` would pass NULL to `av_buffer_ref`. The model branches on whether `buf[0]` is present, which is the evident intent.
- MetaEncDec.MetaDecode, share branch: `data[0]` is never set there (libavcodec/metadec.c:31-35). The model keeps this, so `data[0]` is NULL afterwards. The new `buf[0]` exposes its storage from the start, so `EncodeThenDecode` requires a shared frame's payload to start its buffer.
- MetaCodecLegacy.MetaEncode: `ff_alloc_packet2` may also reuse a packet buffer the caller supplies. The model always uses a fresh buffer.
- The payload printer passes a plain `char` to `isprint`; for bytes from 0x80 up this is a negative value on signed-char platforms. The model uses the "C"-locale `isprint` of the unsigned byte, which is false for those bytes.
- MetadataStreams.SelectMetadataStreams: when an eleventh DATA stream is found, the model stops and reports failure, as the abort of `assert` does. With `NDEBUG` defined the source would write past the array; that case is not modelled.
- When there are no DATA streams, `open_input_file` returns a non-negative code (doc/examples/extract_timed_metadata.c:73-76). Opening the decoders (doc/examples/extract_timed_metadata.c:78-84) is I/O and is left out.
- The last `else` branch of the per-stream report (doc/examples/extract_timed_metadata.c:175-177) is unreachable, and `ReportFor` has no case for it.

## Findings

| source | as written | input that shows it | evidently intended | confidence | as-written member | corrected member |
|---|---|---|---|---|---|---|
| doc/examples/extract_timed_metadata.c:99 | `while (str[len] && len < n)` reads `str[len]` before testing `len < n`, so it reads `str[n]` when the first `n` bytes hold no NUL | `local_strndup(metadata->meta_tag, 4)` with tag "cdsc": byte 4, past the tag, is read | test `len < n` first: `while (len < n && str[len])` | high; not executed | `CStrings.StrndupOverreadWitness` | `CStrings.LocalStrndup` |
