/** One pixel of the bitmap (bitmap/src/rgb.rs): three colour components,
    their byte form and their `{:02x}` hexadecimal form. */
module RgbPixel {
  import opened Bytes

  datatype Rgb = Rgb(r: u8, g: u8, b: u8)

  /** `Rgb::new`. */
  function New(r: u8, g: u8, b: u8): (p: Rgb)
    ensures p.r == r && p.g == g && p.b == b
  {
    Rgb(r, g, b)
  }

  /** `Rgb::to_ne_bytes`: the components in declaration order. */
  function ToNeBytes(p: Rgb): (bytes: seq<u8>)
    ensures |bytes| == 3 && FromBytes(bytes) == p
  {
    [p.r, p.g, p.b]
  }

  /** The byte form of a new pixel is its components, in the order given. */
  lemma NewToNeBytes(r: u8, g: u8, b: u8)
    ensures ToNeBytes(New(r, g, b)) == [r, g, b]
  {
  }

  /** Reading the three bytes back gives the pixel. */
  function FromBytes(bytes: seq<u8>): Rgb
    requires |bytes| == 3
  {
    Rgb(bytes[0], bytes[1], bytes[2])
  }

  /** Byte form and pixel determine each other. */
  lemma BytesRoundTrip(p: Rgb, bytes: seq<u8>)
    requires |bytes| == 3
    ensures FromBytes(ToNeBytes(p)) == p
    ensures ToNeBytes(FromBytes(bytes)) == bytes
  {
  }

  /** `LowerHex for Rgb`: each component as exactly two lower-case digits. */
  function LowerHex(p: Rgb): (s: string)
    ensures |s| == 6 && AllLowerHexDigits(s)
    ensures s[0..2] == Hex2(p.r) && s[2..4] == Hex2(p.g) && s[4..6] == Hex2(p.b)
  {
    Hex2(p.r) + Hex2(p.g) + Hex2(p.b)
  }

  /** Reads a six-digit hexadecimal string as three two-digit components. */
  function ParseRgbHex(s: string): Rgb
    requires |s| == 6 && AllLowerHexDigits(s)
  {
    Hex2OfParse(s[0..2]);
    Hex2OfParse(s[2..4]);
    Hex2OfParse(s[4..6]);
    Rgb(ParseHex(s[0..2]), ParseHex(s[2..4]), ParseHex(s[4..6]))
  }

  /** Reading back the hexadecimal form gives the pixel. */
  lemma ParseLowerHex(p: Rgb)
    ensures ParseRgbHex(LowerHex(p)) == p
  {
    var s := LowerHex(p);
    ParseHex2(p.r);
    ParseHex2(p.g);
    ParseHex2(p.b);
  }

  /** Every six lower-case digits are the hexadecimal form of exactly one
      pixel. */
  lemma LowerHexOfParse(s: string)
    requires |s| == 6 && AllLowerHexDigits(s)
    ensures LowerHex(ParseRgbHex(s)) == s
  {
    Hex2OfParse(s[0..2]);
    Hex2OfParse(s[2..4]);
    Hex2OfParse(s[4..6]);
    assert s == s[0..2] + s[2..4] + s[4..6];
  }
}
