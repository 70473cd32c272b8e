/**
 * The timed-metadata encoder and decoder: an opaque payload is carried
 * between a frame and a packet unchanged; only its size, its timestamps
 * and whether its storage is shared or copied are handled.
 */
module MetaEncDec {
  import opened AvTypes
  import opened AvPacketFrame

  /**
   * `meta_encode` (metaenc.c): frame to packet. A frame that holds a
   * buffer reference shares it with the packet; otherwise the payload is
   * copied into a fresh buffer. `allocOk` is the outcome of taking the new
   * reference or allocating the buffer.
   */
  method MetaEncode(avpkt: Packet, frame: Frame, allocOk: bool) returns (ret: int, gotPacket: bool)
    requires frame.buf0.None? ==> Readable(frame.data0, frame.nbSamples)
    modifies avpkt
    ensures gotPacket <==> ret == 0
    ensures ret == 0 <==> allocOk
    ensures ret != 0 ==> ret == AVERROR(ENOMEM) && avpkt.Blank()
    ensures ret == 0 ==>
      avpkt.size == frame.nbSamples && avpkt.pts == frame.pts && avpkt.dts == frame.pts
    ensures ret == 0 && frame.buf0.Some? ==> avpkt.buf == frame.buf0 && avpkt.data == frame.data0
    ensures ret == 0 && frame.buf0.None? ==>
      && avpkt.buf.Some? && fresh(avpkt.buf.value.buffer)
      && avpkt.buf.value.size == frame.nbSamples
      && avpkt.data == At(avpkt.buf.value.buffer, 0)
      && Readable(avpkt.data, avpkt.size)
      && Bytes(avpkt.data, avpkt.size) == Bytes(frame.data0, frame.nbSamples)
  {
    gotPacket := false;
    avpkt.Unref();
    if frame.buf0.Some? {
      if !allocOk {
        return AVERROR(ENOMEM), false;
      }
      avpkt.buf := frame.buf0;
      avpkt.data := frame.data0;
    } else {
      if !allocOk {
        return AVERROR(ENOMEM), false;
      }
      var b := AllocCopy(frame.data0, frame.nbSamples);
      avpkt.buf := Some(BufferRef(b, frame.nbSamples));
      avpkt.data := At(b, 0);
    }
    avpkt.size := frame.nbSamples;
    avpkt.pts := frame.pts;
    avpkt.dts := frame.pts;
    gotPacket := true;
    ret := 0;
  }

  /**
   * `meta_decode` (metadec.c): packet to frame. A packet that holds a
   * buffer reference shares it with the frame, resized to the packet's
   * size, and `data[0]` is left unset; otherwise the payload is copied into
   * a fresh buffer that `data[0]` points at.
   */
  method MetaDecode(metadata: Frame, avpkt: Packet, allocOk: bool) returns (ret: int, gotFrame: bool)
    requires avpkt.buf.None? ==> Readable(avpkt.data, avpkt.size)
    modifies metadata
    ensures gotFrame <==> ret == 0
    ensures ret == 0 <==> allocOk
    ensures ret != 0 ==> ret == AVERROR(ENOMEM) && metadata.Blank()
    ensures ret == 0 ==>
      && metadata.nbSamples == avpkt.size
      && metadata.pts == avpkt.pts && metadata.pktPts == avpkt.pts
      && metadata.pktDts == avpkt.dts
    ensures ret == 0 && avpkt.buf.Some? ==>
      && metadata.buf0 == Some(BufferRef(avpkt.buf.value.buffer, avpkt.size))
      && metadata.data0 == Null
    ensures ret == 0 && avpkt.buf.None? ==>
      && metadata.buf0.Some? && fresh(metadata.buf0.value.buffer)
      && metadata.buf0.value.size == avpkt.size
      && RefValid(metadata.buf0.value)
      && RefBytes(metadata.buf0.value) == Bytes(avpkt.data, avpkt.size)
      && metadata.data0 == At(metadata.buf0.value.buffer, 0)
  {
    gotFrame := false;
    metadata.Unref();
    if avpkt.buf.Some? {
      if !allocOk {
        return AVERROR(ENOMEM), false;
      }
      metadata.buf0 := Some(BufferRef(avpkt.buf.value.buffer, avpkt.size));
    } else {
      if !allocOk {
        return AVERROR(ENOMEM), false;
      }
      var b := AllocCopy(avpkt.data, avpkt.size);
      metadata.buf0 := Some(BufferRef(b, avpkt.size));
      metadata.data0 := At(b, 0);
    }
    metadata.nbSamples := avpkt.size;
    metadata.pts := avpkt.pts;
    metadata.pktPts := avpkt.pts;
    metadata.pktDts := avpkt.dts;
    gotFrame := true;
    ret := 0;
  }

  /**
   * Encoding a frame and decoding the packet gives back the timestamp,
   * the sample count and, through `buf[0]` (where a reader of decoded
   * frames looks), the payload bytes. A frame that shares its buffer must
   * have its payload at the start of that buffer, since the decoder
   * exposes the buffer from its start.
   */
  method EncodeThenDecode(frame: Frame, avpkt: Packet, out: Frame, encOk: bool, decOk: bool)
    returns (ok: bool)
    requires frame != out
    requires Readable(frame.data0, frame.nbSamples)
    requires frame.buf0.Some? ==> frame.data0 == At(frame.buf0.value.buffer, 0)
    modifies avpkt, out
    ensures ok <==> encOk && decOk
    ensures ok ==>
      && out.pts == frame.pts && out.pktPts == frame.pts && out.pktDts == frame.pts
      && out.nbSamples == frame.nbSamples
      && out.buf0.Some? && RefValid(out.buf0.value)
      && RefBytes(out.buf0.value) == Bytes(frame.data0, frame.nbSamples)
  {
    var ret, got := MetaEncode(avpkt, frame, encOk);
    if ret != 0 {
      return false;
    }
    assert avpkt.buf.Some?;
    ret, got := MetaDecode(out, avpkt, decOk);
    ok := ret == 0;
    if ok {
      var b := out.buf0.value;
      if frame.buf0.Some? {
        assert b.buffer == frame.data0.storage;
        assert b.buffer[..b.size] == Bytes(frame.data0, frame.nbSamples);
      } else {
        assert b.buffer[..b.size] == Bytes(avpkt.data, avpkt.size);
      }
    }
  }
}
