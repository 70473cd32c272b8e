/**
 * How the metadata reader prints a track's configuration bytes
 * (doc/examples/extract_timed_metadata.c): one token per byte, in order,
 * each a space followed by the byte itself when it is printable and by
 * its `%2x` field otherwise. The rendering is reversible, which
 * `ParseRenderConfig` proves.
 */
module ConfigRender {
  import opened AvTypes
  import opened CFormat

  /** The token printed for one configuration byte. */
  function RenderByte(b: uint8): string
  {
    if IsPrint(b) then [' ', ByteChar(b)] else [' '] + Hex2(b)
  }

  /** The tokens printed for all configuration bytes. */
  function RenderConfig(bs: seq<uint8>): string
  {
    if bs == [] then [] else RenderByte(bs[0]) + RenderConfig(bs[1..])
  }

  /** Rendering distributes over appending one byte, as the printing loop does. */
  lemma {:induction false} RenderConfigAppend(bs: seq<uint8>, b: uint8)
    ensures RenderConfig(bs + [b]) == RenderConfig(bs) + RenderByte(b)
  {
    if bs == [] {
      assert [] + [b] == [b];
    } else {
      assert (bs + [b])[1..] == bs[1..] + [b];
      RenderConfigAppend(bs[1..], b);
    }
  }

  /** The loop that prints the configuration bytes. */
  method RenderConfiguration(conf: seq<uint8>) returns (out: string)
    ensures out == RenderConfig(conf)
  {
    out := "";
    for j := 0 to |conf|
      invariant out == RenderConfig(conf[..j])
    {
      RenderConfigAppend(conf[..j], conf[j]);
      assert conf[..j + 1] == conf[..j] + [conf[j]];
      out := out + RenderByte(conf[j]);
    }
    assert conf[..|conf|] == conf;
  }

  /**
   * Reads printed tokens back into bytes: a token is a space and one
   * character when the next token (or the end) follows at once, and a
   * space and a `%2x` field otherwise.
   */
  function ParseConfig(s: string): Option<seq<uint8>>
    decreases |s|
  {
    if s == [] then Some([])
    else if s[0] != ' ' || |s| < 2 then None
    else if |s| >= 3 && s[2] != ' ' then
      match ParseHex2(s[1], s[2])
      case None => None
      case Some(b) => Prepend(b, ParseConfig(s[3..]))
    else
      match CharByte(s[1])
      case None => None
      case Some(b) => Prepend(b, ParseConfig(s[2..]))
  }

  /** A rendering is empty or starts a token with a space. */
  lemma RenderConfigStart(bs: seq<uint8>)
    ensures RenderConfig(bs) == [] || RenderConfig(bs)[0] == ' '
  {
  }

  /** Reading back one byte's token yields that byte when a token or nothing follows. */
  lemma ParseConfigStep(b: uint8, t: string)
    requires t == [] || t[0] == ' '
    ensures ParseConfig(RenderByte(b) + t) == Prepend(b, ParseConfig(t))
  {
    var s := RenderByte(b) + t;
    if IsPrint(b) {
      assert s[1] == ByteChar(b);
      assert s[2..] == t;
    } else {
      ParseHex2Hex2(b);
      assert s[1] == Hex2(b)[0] && s[2] == Hex2(b)[1];
      assert s[3..] == t;
    }
  }

  /** The printed configuration determines the configuration bytes. */
  lemma {:induction false} ParseRenderConfig(bs: seq<uint8>)
    ensures ParseConfig(RenderConfig(bs)) == Some(bs)
  {
    if bs != [] {
      RenderConfigStart(bs[1..]);
      ParseConfigStep(bs[0], RenderConfig(bs[1..]));
      ParseRenderConfig(bs[1..]);
      assert [bs[0]] + bs[1..] == bs;
    }
  }

  /** Each byte gives one token of two or three characters. */
  lemma {:induction false} RenderConfigLength(bs: seq<uint8>)
    ensures 2 * |bs| <= |RenderConfig(bs)| <= 3 * |bs|
  {
    if bs != [] {
      RenderConfigLength(bs[1..]);
    }
  }
}
