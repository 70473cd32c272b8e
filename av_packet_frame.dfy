/**
 * The parts of `AVPacket`, `AVFrame` and `AVBufferRef` that the
 * timed-metadata codec reads and writes.
 *
 * A reference-counted buffer's storage is an `array<uint8>`: two
 * references share storage exactly when they name the same array, and a
 * copy lives in a freshly allocated one. Reference counts themselves are
 * not modelled.
 */
module AvPacketFrame {
  import opened AvTypes

  /** A data pointer: NULL, or `offset` bytes into some allocated storage. */
  datatype Ptr = Null | At(storage: array<uint8>, offset: nat)

  /**
   * `AVBufferRef`: a reference to shared storage; its data pointer is the
   * start of the storage and `size` the number of bytes it exposes.
   */
  datatype BufferRef = BufferRef(buffer: array<uint8>, size: nat)

  /** The storage a pointer points into (none for NULL). */
  function Target(p: Ptr): set<array<uint8>>
  {
    if p.At? then {p.storage} else {}
  }

  /** `n` bytes can be read starting at `p`. */
  predicate Readable(p: Ptr, n: nat)
    reads Target(p)
  {
    p.At? && p.offset + n <= p.storage.Length
  }

  /** The `n` bytes starting at `p`. */
  function Bytes(p: Ptr, n: nat): (r: seq<uint8>)
    reads Target(p)
    requires Readable(p, n)
    ensures |r| == n
  {
    p.storage[p.offset .. p.offset + n]
  }

  /** The buffer reference exposes no more bytes than its storage holds. */
  predicate RefValid(b: BufferRef)
    reads b.buffer
  {
    b.size <= b.buffer.Length
  }

  /** The bytes a buffer reference exposes: `buf->data[0 .. buf->size)`. */
  function RefBytes(b: BufferRef): (r: seq<uint8>)
    reads b.buffer
    requires RefValid(b)
    ensures |r| == b.size
  {
    b.buffer[..b.size]
  }

  /**
   * `av_buffer_alloc(n)` followed by `memcpy(buf->data, src, n)`: a fresh
   * buffer holding a copy of the `n` bytes at `src`.
   */
  method AllocCopy(src: Ptr, n: nat) returns (b: array<uint8>)
    requires Readable(src, n)
    ensures fresh(b) && b.Length == n
    ensures b[..] == Bytes(src, n)
  {
    b := new uint8[n];
    forall k | 0 <= k < n {
      b[k] := src.storage[src.offset + k];
    }
  }

  /** The fields of `AVPacket` the codec touches. */
  class Packet {
    var buf: Option<BufferRef>
    var data: Ptr
    var size: nat
    var pts: int64
    var dts: int64

    /** A packet holds no data and no timestamps: the state `av_packet_unref` leaves. */
    ghost predicate Blank()
      reads this
    {
      buf.None? && data.Null? && size == 0 && pts == AV_NOPTS_VALUE && dts == AV_NOPTS_VALUE
    }

    constructor ()
      ensures Blank()
    {
      buf, data, size := None, Null, 0;
      pts, dts := AV_NOPTS_VALUE, AV_NOPTS_VALUE;
    }

    /** `av_packet_unref`: drop the packet's buffer reference and reset its fields. */
    method Unref()
      modifies this
      ensures Blank()
    {
      buf, data, size := None, Null, 0;
      pts, dts := AV_NOPTS_VALUE, AV_NOPTS_VALUE;
    }
  }

  /** The fields of `AVFrame` the codec touches: `buf[0]`, `data[0]`, `nb_samples` and the timestamps. */
  class Frame {
    var buf0: Option<BufferRef>
    var data0: Ptr
    var nbSamples: nat
    var pts: int64
    var pktPts: int64
    var pktDts: int64

    /** A frame holds no data and no timestamps: the state `av_frame_unref` leaves. */
    ghost predicate Blank()
      reads this
    {
      && buf0.None? && data0.Null? && nbSamples == 0
      && pts == AV_NOPTS_VALUE && pktPts == AV_NOPTS_VALUE && pktDts == AV_NOPTS_VALUE
    }

    constructor ()
      ensures Blank()
    {
      buf0, data0, nbSamples := None, Null, 0;
      pts, pktPts, pktDts := AV_NOPTS_VALUE, AV_NOPTS_VALUE, AV_NOPTS_VALUE;
    }

    /** `av_frame_unref`: drop the frame's buffer references and reset its fields. */
    method Unref()
      modifies this
      ensures Blank()
    {
      buf0, data0, nbSamples := None, Null, 0;
      pts, pktPts, pktDts := AV_NOPTS_VALUE, AV_NOPTS_VALUE, AV_NOPTS_VALUE;
    }
  }
}
