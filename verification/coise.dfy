/** The stand-alone `convert_u16` of bitmap/src/coise.rs and its one use. */
module Coise {
  import opened Bytes
  import Headers

  /** `convert_u16`: the low byte, then the high byte. */
  function ConvertU16(x: u16): (r: seq<u8>)
    ensures |r| == 2 && r[0] == x % 0x100 && r[1] == x / 0x100
    ensures r[0] as nat + 0x100 * r[1] as nat == x
  {
    [x % 0x100, (x / 0x100) % 0x100]
  }

  /** It is the same function as the file header's `convert_u16`. */
  lemma AgreesWithHeaders(x: u16)
    ensures ConvertU16(x) == Headers.ConvertU16(x)
  {
  }

  /** The value `main` converts. */
  lemma ConvertThousand()
    ensures ConvertU16(1000) == [232, 3]
  {
  }
}
