/**
 * The pieces of C character classification and `printf` formatting that
 * the metadata reader uses to print bytes: `isprint` in the "C" locale
 * and the two-wide lower-case hexadecimal field `%2x`.
 */
module CFormat {
  import opened AvTypes

  /** `isprint` in the "C" locale: space through tilde. */
  predicate IsPrint(b: uint8)
  {
    0x20 <= b <= 0x7e
  }

  /** The character whose code is the byte's value. */
  function ByteChar(b: uint8): char
  {
    (b as int) as char
  }

  /** The byte a character stands for, when its code fits in a byte. */
  function CharByte(c: char): (r: Option<uint8>)
    ensures r.Some? ==> ByteChar(r.value) == c
  {
    if (c as int) < 0x100 then Some((c as int) as uint8) else None
  }

  /** A lower-case hexadecimal digit. */
  function HexDigit(d: nat): (c: char)
    requires d < 16
    ensures HexValue(c) == Some(d)
  {
    if d < 10 then ('0' as int + d) as char else ('a' as int + d - 10) as char
  }

  /** The value of a lower-case hexadecimal digit. */
  function HexValue(c: char): (r: Option<nat>)
    ensures r.Some? ==> r.value < 16
  {
    if '0' <= c <= '9' then Some(c as int - '0' as int)
    else if 'a' <= c <= 'f' then Some(c as int - 'a' as int + 10)
    else None
  }

  /** `printf("%2x", b)`: two lower-case hex digits, space-padded on the left. */
  function Hex2(b: uint8): (s: string)
    ensures |s| == 2 && HexValue(s[1]) == Some(b as nat % 16)
    ensures b < 16 ==> s[0] == ' '
    ensures b >= 16 ==> HexValue(s[0]) == Some(b as nat / 16)
  {
    if b < 16 then [' ', HexDigit(b as nat)]
    else [HexDigit(b as nat / 16), HexDigit(b as nat % 16)]
  }

  /** Reads back a `%2x` field. */
  function ParseHex2(c1: char, c2: char): Option<uint8>
  {
    var hi := if c1 == ' ' then Some(0) else HexValue(c1);
    var lo := HexValue(c2);
    if hi.Some? && lo.Some? then Some((hi.value * 16 + lo.value) as uint8) else None
  }

  /** Puts a byte in front of a successful parse. */
  function Prepend(b: uint8, r: Option<seq<uint8>>): Option<seq<uint8>>
  {
    match r
    case None => None
    case Some(bs) => Some([b] + bs)
  }

  /** Every byte's `%2x` field reads back as that byte. */
  lemma ParseHex2Hex2(b: uint8)
    ensures ParseHex2(Hex2(b)[0], Hex2(b)[1]) == Some(b)
  {
  }
}
