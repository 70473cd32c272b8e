/**
 * The earlier build of the timed-metadata codec (metacodec.c), which
 * defines the same encoder and decoder symbols as metaenc.c and
 * metadec.c and is an alternative to them: the encoder always copies into
 * a packet allocated for it, and the decoder fills an `AVData` record.
 */
module MetaCodecLegacy {
  import opened AvTypes
  import opened AvPacketFrame

  /** The codec context; this codec keeps no private state in it. */
  class CodecContext {
    constructor () {}
  }

  /** `AVData`: a buffer reference to a decoded payload and its timestamps. */
  class AVData {
    var data: Option<BufferRef>
    var pts: int64
    var dts: int64

    constructor ()
      ensures data.None?
    {
      data := None;
      pts, dts := AV_NOPTS_VALUE, AV_NOPTS_VALUE;
    }
  }

  /** `meta_init`: nothing to set up; it changes nothing and succeeds. */
  method MetaInit(avctx: CodecContext) returns (ret: int)
    ensures ret == 0
  {
    ret := 0;
  }

  /**
   * `meta_encode` (metacodec.c): `ff_alloc_packet2` gives the packet a
   * fresh buffer of `nb_samples` bytes, the payload is copied into it and
   * the frame's timestamp becomes both packet timestamps. `allocRet` is
   * what `ff_alloc_packet2` returns: 0, or a negative error code.
   */
  method MetaEncode(avctx: CodecContext, avpkt: Packet, frame: Frame, allocRet: int)
    returns (ret: int, gotPacket: bool)
    requires allocRet <= 0
    requires Readable(frame.data0, frame.nbSamples)
    modifies avpkt
    ensures gotPacket <==> ret == 0
    ensures ret == allocRet
    ensures ret == 0 ==>
      && avpkt.size == frame.nbSamples && avpkt.pts == frame.pts && avpkt.dts == frame.pts
      && avpkt.buf.Some? && fresh(avpkt.buf.value.buffer)
      && avpkt.data == At(avpkt.buf.value.buffer, 0)
      && Readable(avpkt.data, avpkt.size)
      && Bytes(avpkt.data, avpkt.size) == Bytes(frame.data0, frame.nbSamples)
  {
    gotPacket := false;
    if allocRet < 0 {
      return allocRet, false;
    }
    var b := AllocCopy(frame.data0, frame.nbSamples);
    avpkt.buf := Some(BufferRef(b, frame.nbSamples));
    avpkt.data := At(b, 0);
    avpkt.size := frame.nbSamples;
    avpkt.pts := frame.pts;
    avpkt.dts := frame.pts;
    gotPacket := true;
    ret := 0;
  }

  /**
   * `meta_decode` (metacodec.c): drop the record's old buffer, allocate
   * one of the packet's size, take the packet's timestamps and copy the
   * payload. On allocation failure the record is left without a buffer
   * and with its old timestamps.
   */
  method MetaDecode(avctx: CodecContext, metadata: AVData, avpkt: Packet, allocOk: bool)
    returns (ret: int, gotFrame: bool)
    requires Readable(avpkt.data, avpkt.size)
    modifies metadata
    ensures gotFrame <==> ret == 0
    ensures ret == 0 <==> allocOk
    ensures ret != 0 ==>
      && ret == AVERROR(ENOMEM) && metadata.data.None?
      && metadata.pts == old(metadata.pts) && metadata.dts == old(metadata.dts)
    ensures ret == 0 ==>
      && metadata.pts == avpkt.pts && metadata.dts == avpkt.dts
      && metadata.data.Some? && fresh(metadata.data.value.buffer)
      && RefValid(metadata.data.value)
      && RefBytes(metadata.data.value) == Bytes(avpkt.data, avpkt.size)
  {
    gotFrame := false;
    metadata.data := None;
    if !allocOk {
      return AVERROR(ENOMEM), false;
    }
    var b := AllocCopy(avpkt.data, avpkt.size);
    metadata.data := Some(BufferRef(b, avpkt.size));
    metadata.dts := avpkt.dts;
    metadata.pts := avpkt.pts;
    gotFrame := true;
    ret := 0;
  }

  /**
   * Encoding then decoding with this build hands back the payload bytes
   * and the frame's timestamp as both timestamps of the record.
   */
  method EncodeThenDecode(avctx: CodecContext, frame: Frame, avpkt: Packet, out: AVData,
                          allocRet: int, decOk: bool)
    returns (ok: bool)
    requires allocRet <= 0
    requires Readable(frame.data0, frame.nbSamples)
    modifies avpkt, out
    ensures ok <==> allocRet == 0 && decOk
    ensures ok ==>
      && out.pts == frame.pts && out.dts == frame.pts
      && out.data.Some? && RefValid(out.data.value)
      && RefBytes(out.data.value) == Bytes(frame.data0, frame.nbSamples)
  {
    var ret, got := MetaEncode(avctx, avpkt, frame, allocRet);
    if ret != 0 {
      return false;
    }
    ret, got := MetaDecode(avctx, out, avpkt, decOk);
    ok := ret == 0;
  }
}
