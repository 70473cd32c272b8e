/**
 * How the metadata reader prints a decoded payload
 * (doc/examples/extract_timed_metadata.c): a backslash is doubled, a
 * printable byte stands for itself and any other byte is written as
 * `\0x` followed by its `%2x` field. The rendering is reversible, which
 * `UnescapeEscape` proves.
 */
module PayloadEscape {
  import opened AvTypes
  import opened CFormat
  import opened AvPacketFrame

  const Backslash: uint8 := 0x5c

  /** The characters printed for one payload byte. */
  function EscapeByte(b: uint8): string
  {
    if b == Backslash then "\\\\"
    else if IsPrint(b) then [ByteChar(b)]
    else "\\0x" + Hex2(b)
  }

  /** The characters printed for a whole payload, byte by byte in order. */
  function Escape(bs: seq<uint8>): string
  {
    if bs == [] then [] else EscapeByte(bs[0]) + Escape(bs[1..])
  }

  /** Escaping distributes over appending one byte, as the printing loop does. */
  lemma {:induction false} EscapeAppend(bs: seq<uint8>, b: uint8)
    ensures Escape(bs + [b]) == Escape(bs) + EscapeByte(b)
  {
    if bs == [] {
      assert [] + [b] == [b];
    } else {
      assert (bs + [b])[1..] == bs[1..] + [b];
      EscapeAppend(bs[1..], b);
    }
  }

  /**
   * The loop at the end of the reader: print every byte `buf[0]->data`
   * exposes, up to `buf[0]->size`.
   */
  method EscapePayload(buf: BufferRef) returns (out: string)
    requires RefValid(buf)
    ensures out == Escape(RefBytes(buf))
  {
    out := "";
    for c := 0 to buf.size
      invariant out == Escape(buf.buffer[..c])
    {
      EscapeAppend(buf.buffer[..c], buf.buffer[c]);
      assert buf.buffer[..c + 1] == buf.buffer[..c] + [buf.buffer[c]];
      out := out + EscapeByte(buf.buffer[c]);
    }
    assert buf.buffer[..buf.size] == RefBytes(buf);
  }

  /** Reads printed payload characters back into bytes. */
  function Unescape(s: string): Option<seq<uint8>>
    decreases |s|
  {
    if s == [] then Some([])
    else if s[0] == '\\' then
      if |s| >= 2 && s[1] == '\\' then Prepend(Backslash, Unescape(s[2..]))
      else if |s| >= 5 && s[1] == '0' && s[2] == 'x' then
        match ParseHex2(s[3], s[4])
        case None => None
        case Some(b) => Prepend(b, Unescape(s[5..]))
      else None
    else
      match CharByte(s[0])
      case Some(b) => if IsPrint(b) then Prepend(b, Unescape(s[1..])) else None
      case None => None
  }

  /** Reading back one byte's characters yields that byte, whatever follows. */
  lemma UnescapeStep(b: uint8, t: string)
    ensures Unescape(EscapeByte(b) + t) == Prepend(b, Unescape(t))
  {
    var s := EscapeByte(b) + t;
    if b == Backslash {
      assert s[2..] == t;
    } else if IsPrint(b) {
      assert s[1..] == t;
      assert s[0] == ByteChar(b);
    } else {
      ParseHex2Hex2(b);
      assert s[3] == Hex2(b)[0] && s[4] == Hex2(b)[1];
      assert s[5..] == t;
    }
  }

  /** The printed payload determines the payload: reading it back gives the bytes. */
  lemma {:induction false} UnescapeEscape(bs: seq<uint8>)
    ensures Unescape(Escape(bs)) == Some(bs)
  {
    if bs != [] {
      UnescapeStep(bs[0], Escape(bs[1..]));
      UnescapeEscape(bs[1..]);
      assert [bs[0]] + bs[1..] == bs;
    }
  }

  /** So two payloads print alike only when they are the same bytes. */
  lemma EscapeInjective(a: seq<uint8>, b: seq<uint8>)
    ensures Escape(a) == Escape(b) <==> a == b
  {
    UnescapeEscape(a);
    UnescapeEscape(b);
  }
}
