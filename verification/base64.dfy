/** Base64 encoding of section 4 of RFC 4648 (the standard alphabet, `=`
    padding), as far as the client needs it: to know which text a schematic
    file becomes when it is copied to the clipboard as code. */
module Base64 {

  type byte = b: int | 0 <= b < 256

  /** The Base64 alphabet (Table 1 of RFC 4648): `A`-`Z`, `a`-`z`, `0`-`9`, `+`, `/`. */
  function Digit(v: int): char
    requires 0 <= v < 64
  {
    if v < 26 then ('A' as int + v) as char
    else if v < 52 then ('a' as int + (v - 26)) as char
    else if v < 62 then ('0' as int + (v - 52)) as char
    else if v == 62 then '+'
    else '/'
  }

  /** Three bytes, 24 bits, as four characters of six bits each. */
  function Quantum(b0: byte, b1: byte, b2: byte): string
  {
    [Digit(b0 / 4), Digit(b0 % 4 * 16 + b1 / 16), Digit(b1 % 16 * 4 + b2 / 64), Digit(b2 % 64)]
  }

  /** The encoding of the bytes: each group of three becomes four characters,
      a final group of one or two is padded with `=`. */
  function Encode(bytes: seq<byte>): string
  {
    if |bytes| >= 3 then Quantum(bytes[0], bytes[1], bytes[2]) + Encode(bytes[3..])
    else if |bytes| == 2 then
      [Digit(bytes[0] / 4), Digit(bytes[0] % 4 * 16 + bytes[1] / 16), Digit(bytes[1] % 16 * 4), '=']
    else if |bytes| == 1 then
      [Digit(bytes[0] / 4), Digit(bytes[0] % 4 * 16), '=', '=']
    else []
  }

  /** `msc`, the first three bytes of the schematic magic, encode to `bXNj`. */
  lemma MagicQuantum()
    ensures Quantum(109, 115, 99) == "bXNj"
  {
    assert Digit(27) == 'b' && Digit(23) == 'X' && Digit(13) == 'N' && Digit(35) == 'j';
  }

  /** The first character encodes the top six bits of the first byte. */
  lemma EncodeHead(bytes: seq<byte>)
    requires |bytes| >= 1
    ensures |Encode(bytes)| >= 1 && Encode(bytes)[0] == Digit(bytes[0] / 4)
  {
  }
}
