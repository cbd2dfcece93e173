/** The two headers of a BMP file (bitmap/src/headers.rs): the 14-byte file
    header with its little-endian byte encoding, the 40-byte information
    header's default values, and the hexadecimal formatting of both. */
module Headers {
  import opened Bytes
  import opened Text

  /** The number that bytes denote read least significant first. */
  function LittleEndian(bytes: seq<u8>): nat {
    if bytes == [] then 0 else bytes[0] + 0x100 * LittleEndian(bytes[1..])
  }

  /** Two bytes denote at most 0xFFFF. */
  lemma LittleEndian2(b0: u8, b1: u8)
    ensures LittleEndian([b0, b1]) == b0 + 0x100 * b1 < 0x1_0000
  {
    assert [b0, b1][1..] == [b1];
    assert [b1][1..] == [];
    assert LittleEndian([b1]) == b1;
    assert 0x100 * b1 <= 0x100 * 0xFF;
  }

  /** Four bytes denote at most 0xFFFF_FFFF. */
  lemma LittleEndian4(b0: u8, b1: u8, b2: u8, b3: u8)
    ensures LittleEndian([b0, b1, b2, b3]) == b0 + 0x100 * (b1 + 0x100 * (b2 + 0x100 * b3))
    ensures LittleEndian([b0, b1, b2, b3]) < 0x1_0000_0000
  {
    assert [b0, b1, b2, b3][1..] == [b1, b2, b3];
    assert [b1, b2, b3][1..] == [b2, b3];
    LittleEndian2(b2, b3);
    var low := b2 + 0x100 * b3;
    assert low <= 0xFFFF;
    assert b1 + 0x100 * low <= 0xFF_FFFF;
  }

  /** `x as u8` on a `u16` or `u32`: the low eight bits. */
  function AsU8(x: nat): u8 {
    x % 0x100
  }

  /** `FileHeader::convert_u16`: the low byte, then the high byte. */
  function ConvertU16(x: u16): (r: seq<u8>)
    ensures |r| == 2 && r[0] == x % 0x100 && r[1] == x / 0x100
    ensures LittleEndian(r) == x
  {
    var r := [AsU8(x), AsU8(x / 0x100)];
    LittleEndian2(r[0], r[1]);
    r
  }

  /** `FileHeader::convert_u32`: the four bytes, least significant first. */
  function ConvertU32(x: u32): (r: seq<u8>)
    ensures |r| == 4 && LittleEndian(r) == x
  {
    var r := [AsU8(x), AsU8(x / 0x100), AsU8(x / 0x1_0000), AsU8(x / 0x100_0000)];
    Shifts(x);
    LittleEndian4(r[0], r[1], r[2], r[3]);
    r
  }

  /** The shifts by 8, 16 and 24 bits each drop eight more bits of a `u32`. */
  lemma Shifts(x: u32)
    ensures AsU8(x) + 0x100 * (AsU8(x / 0x100) + 0x100 * (AsU8(x / 0x1_0000) + 0x100 * AsU8(x / 0x100_0000))) == x
  {
    var q1 := x / 0x100;
    var q2 := x / 0x1_0000;
    var q3 := x / 0x100_0000;
    assert q2 == q1 / 0x100;
    assert q3 == q2 / 0x100;
    assert q3 < 0x100;
    assert q2 == q2 % 0x100 + 0x100 * q3;
    assert q1 == q1 % 0x100 + 0x100 * q2;
    assert x == x % 0x100 + 0x100 * q1;
  }

  // ---------------------------------------------------------------------------
  // File header

  /** The BMP file header: the "BM" magic, the file size, two reserved words
      and the offset of the pixel data. */
  datatype FileHeader = FileHeader(
    fileType: u16,
    size: u32,
    reserved1: u16,
    reserved2: u16,
    startOffset: u32)

  /** Size of the encoded file header. */
  const FileHeaderSize: nat := 14

  /** `FileHeader::new`. */
  function NewFileHeader(): (h: FileHeader)
    ensures h.size == FileHeaderSize && h.reserved1 == 0 && h.reserved2 == 0
    ensures h.startOffset == FileHeaderSize + NewInformationHeader().size
  {
    FileHeader(0x4D42, 14, 0, 0, 54)
  }

  /** `FileHeader::to_ne_bytes`: the five fields encoded one after another.
      Despite the name the encoding is little-endian on every host. */
  function ToNeBytes(h: FileHeader): (r: seq<u8>)
    ensures |r| == FileHeaderSize
    ensures LittleEndian(r[0..2]) == h.fileType && LittleEndian(r[2..6]) == h.size
    ensures LittleEndian(r[6..8]) == h.reserved1 && LittleEndian(r[8..10]) == h.reserved2
    ensures LittleEndian(r[10..14]) == h.startOffset
  {
    var r := ConvertU16(h.fileType) + ConvertU32(h.size) + ConvertU16(h.reserved1)
      + ConvertU16(h.reserved2) + ConvertU32(h.startOffset);
    assert r[0..2] == ConvertU16(h.fileType);
    assert r[2..6] == ConvertU32(h.size);
    assert r[6..8] == ConvertU16(h.reserved1);
    assert r[8..10] == ConvertU16(h.reserved2);
    assert r[10..14] == ConvertU32(h.startOffset);
    r
  }

  /** The little-endian number in `bytes[lo..lo + 2]`. */
  function U16At(bytes: seq<u8>, lo: nat): u16
    requires lo + 2 <= |bytes|
  {
    LittleEndian2(bytes[lo], bytes[lo + 1]);
    assert bytes[lo..lo + 2] == [bytes[lo], bytes[lo + 1]];
    LittleEndian(bytes[lo..lo + 2])
  }

  /** The little-endian number in `bytes[lo..lo + 4]`. */
  function U32At(bytes: seq<u8>, lo: nat): u32
    requires lo + 4 <= |bytes|
  {
    LittleEndian4(bytes[lo], bytes[lo + 1], bytes[lo + 2], bytes[lo + 3]);
    assert bytes[lo..lo + 4] == [bytes[lo], bytes[lo + 1], bytes[lo + 2], bytes[lo + 3]];
    LittleEndian(bytes[lo..lo + 4])
  }

  /** Reads the five fields back from the offsets `ToNeBytes` writes them to. */
  function FromBytes(bytes: seq<u8>): FileHeader
    requires |bytes| == FileHeaderSize
  {
    FileHeader(U16At(bytes, 0), U32At(bytes, 2), U16At(bytes, 6), U16At(bytes, 8), U32At(bytes, 10))
  }

  /** Decoding the encoding recovers the header. */
  lemma FromToBytes(h: FileHeader)
    ensures FromBytes(ToNeBytes(h)) == h
  {
  }

  /** Two little-endian byte strings of equal length denoting the same number
      are equal. */
  lemma {:induction false} LittleEndianInjective(a: seq<u8>, b: seq<u8>)
    requires |a| == |b| && LittleEndian(a) == LittleEndian(b)
    ensures a == b
  {
    if a != [] {
      assert a[0] == LittleEndian(a) % 0x100 == b[0];
      assert LittleEndian(a[1..]) == LittleEndian(a) / 0x100 == LittleEndian(b[1..]);
      LittleEndianInjective(a[1..], b[1..]);
      assert a == [a[0]] + a[1..];
      assert b == [b[0]] + b[1..];
    }
  }

  /** Encoding the decoded header gives back the bytes: every 14 bytes are the
      encoding of exactly one header. */
  lemma ToFromBytes(bytes: seq<u8>)
    requires |bytes| == FileHeaderSize
    ensures ToNeBytes(FromBytes(bytes)) == bytes
  {
    var r := ToNeBytes(FromBytes(bytes));
    LittleEndianInjective(r[0..2], bytes[0..2]);
    LittleEndianInjective(r[2..6], bytes[2..6]);
    LittleEndianInjective(r[6..8], bytes[6..8]);
    LittleEndianInjective(r[8..10], bytes[8..10]);
    LittleEndianInjective(r[10..14], bytes[10..14]);
    assert r == r[0..2] + r[2..6] + r[6..8] + r[8..10] + r[10..14];
    assert bytes == bytes[0..2] + bytes[2..6] + bytes[6..8] + bytes[8..10] + bytes[10..14];
  }

  /** Different headers encode to different bytes. */
  lemma ToNeBytesInjective(h1: FileHeader, h2: FileHeader)
    ensures ToNeBytes(h1) == ToNeBytes(h2) <==> h1 == h2
  {
    if ToNeBytes(h1) == ToNeBytes(h2) {
      FromToBytes(h1);
      FromToBytes(h2);
    }
  }

  /** The default header starts with the bytes of "BM". */
  lemma NewFileHeaderMagic()
    ensures ToNeBytes(NewFileHeader())[0..2] == ['B' as u8, 'M' as u8]
  {
    var r := ToNeBytes(NewFileHeader());
    assert r[0..2] == ConvertU16(0x4D42);
  }

  // ---------------------------------------------------------------------------
  // Information header

  /** The 40-byte bitmap information header. The source spells the width
      field `widh`. */
  datatype BitmapInformationHeader = BitmapInformationHeader(
    size: u32,
    width: u32,
    height: u32,
    colorPlanes: u16,
    bitsPerPixel: u16,
    compression: u32,
    imageDataSize: u32,
    resolution: u64,
    colors: u32,
    impColors: u32)

  /** Width and height of the image the default header describes. */
  const DefaultSide: nat := 100

  /** `BitmapInformationHeader::new` as written: the image size is given as
      `24 * 10000`, the pixel count times the bits (not bytes) per pixel. */
  function NewInformationHeaderAsWritten(): (h: BitmapInformationHeader)
    ensures h.imageDataSize == h.bitsPerPixel * h.width * h.height
  {
    BitmapInformationHeader(40, 100, 100, 1, 24, 0, 24 * 10000, 40, 0, 0)
  }

  /** Uncompressed pixel data takes width times height times bytes per pixel,
      each row padded to a multiple of four bytes. */
  function RawImageSize(h: BitmapInformationHeader): nat {
    var rowBits: nat := h.width as nat * h.bitsPerPixel as nat;
    var paddedRow: nat := (rowBits / 8 + 3) / 4 * 4;
    paddedRow * h.height as nat
  }

  /** The image size written in the default header is eight times the size
      of the pixel data the header describes. */
  lemma ImageSizeAsWrittenIsInBits()
    ensures RawImageSize(NewInformationHeaderAsWritten()) == 30000
    ensures NewInformationHeaderAsWritten().imageDataSize == 8 * RawImageSize(NewInformationHeaderAsWritten())
  {
  }

  /** `BitmapInformationHeader::new` with the image size in bytes, as the
      format requires. */
  function NewInformationHeader(): (h: BitmapInformationHeader)
    ensures h.size == 40 && h.colorPlanes == 1 && h.bitsPerPixel == 24 && h.compression == 0
    ensures h.width == DefaultSide && h.height == DefaultSide
    ensures h.imageDataSize == RawImageSize(h) == DefaultSide * DefaultSide * 3
    ensures h == NewInformationHeaderAsWritten().(imageDataSize := RawImageSize(h))
  {
    BitmapInformationHeader(40, 100, 100, 1, 24, 0, 30000, 40, 0, 0)
  }

  /** The default pixel data starts right after both headers. */
  lemma StartOffsetFollowsHeaders()
    ensures NewFileHeader().startOffset == FileHeaderSize + NewInformationHeader().size
    ensures NewFileHeader().startOffset == |ToNeBytes(NewFileHeader())| + NewInformationHeader().size
  {
  }

  // ---------------------------------------------------------------------------
  // Hexadecimal formatting

  /** `LowerHex for FileHeader`: every field in `{:x}`, without separators. */
  function FileHeaderLowerHex(h: FileHeader): (r: string)
    ensures AllLowerHexDigits(r)
    ensures 5 <= |r| <= 4 + 8 + 4 + 4 + 8
  {
    LowerHexWidths(h.fileType);
    LowerHexWidths(h.size);
    LowerHexWidths(h.reserved1);
    LowerHexWidths(h.reserved2);
    LowerHexWidths(h.startOffset);
    LowerHex(h.fileType) + LowerHex(h.size) + LowerHex(h.reserved1)
      + LowerHex(h.reserved2) + LowerHex(h.startOffset)
  }

  /** Without separators, two different headers can print the same. */
  lemma FileHeaderHexAmbiguous()
    ensures FileHeader(0x1, 0x23, 0, 0, 0) != FileHeader(0x12, 0x3, 0, 0, 0)
    ensures FileHeaderLowerHex(FileHeader(0x1, 0x23, 0, 0, 0)) == FileHeaderLowerHex(FileHeader(0x12, 0x3, 0, 0, 0))
  {
    assert LowerHex(0x23) == LowerHex(2) + [LowerDigit(3)];
    assert LowerHex(0x12) == LowerHex(1) + [LowerDigit(2)];
  }

  /** `UpperHex for FileHeader` as written: it formats with `{:x}` too, so it
      prints exactly what `LowerHex` prints. */
  function FileHeaderUpperHexAsWritten(h: FileHeader): (r: string)
    ensures r == FileHeaderLowerHex(h)
  {
    LowerHex(h.fileType) + LowerHex(h.size) + LowerHex(h.reserved1)
      + LowerHex(h.reserved2) + LowerHex(h.startOffset)
  }

  /** The default header's "upper-case" form contains lower-case letters. */
  lemma UpperHexAsWrittenIsLowerCase()
    ensures FileHeaderUpperHexAsWritten(NewFileHeader()) == "4d42e0036"
    ensures HasLowerLetter(FileHeaderUpperHexAsWritten(NewFileHeader()))
  {
    assert LowerHex(0x4D4) == LowerHex(0x4D) + "4";
    assert LowerHex(0x4D) == LowerHex(0x4) + "d";
    assert LowerHex(0x4D42) == "4d42";
    assert LowerHex(54) == LowerHex(3) + "6";
    var r := FileHeaderUpperHexAsWritten(NewFileHeader());
    assert 'a' <= r[1] <= 'z';
  }

  /** `UpperHex for FileHeader` with `{:X}`: every field in upper-case digits. */
  function FileHeaderUpperHex(h: FileHeader): (r: string)
    ensures AllUpperHexDigits(r) && !HasLowerLetter(r)
    ensures MapAsciiLower(r) == FileHeaderLowerHex(h)
  {
    var a, b, c, d, e := UpperHex(h.fileType), UpperHex(h.size), UpperHex(h.reserved1),
      UpperHex(h.reserved2), UpperHex(h.startOffset);
    UpperHexLowered(h.fileType);
    UpperHexLowered(h.size);
    UpperHexLowered(h.reserved1);
    UpperHexLowered(h.reserved2);
    UpperHexLowered(h.startOffset);
    LowerConcat5(a, b, c, d, e);
    UpperConcat5(a, b, c, d, e);
    a + b + c + d + e
  }

  /** Upper-case digits contain no lower-case letter, whatever they are
      joined to. */
  lemma UpperConcat5(a: string, b: string, c: string, d: string, e: string)
    requires AllUpperHexDigits(a) && AllUpperHexDigits(b) && AllUpperHexDigits(c)
    requires AllUpperHexDigits(d) && AllUpperHexDigits(e)
    ensures AllUpperHexDigits(a + b + c + d + e) && !HasLowerLetter(a + b + c + d + e)
  {
    var r := a + b + c + d + e;
    assert AllUpperHexDigits(r);
  }

  lemma LowerConcat(a: string, b: string)
    ensures MapAsciiLower(a + b) == MapAsciiLower(a) + MapAsciiLower(b)
  {
  }

  lemma LowerConcat5(a: string, b: string, c: string, d: string, e: string)
    ensures MapAsciiLower(a + b + c + d + e)
         == MapAsciiLower(a) + MapAsciiLower(b) + MapAsciiLower(c) + MapAsciiLower(d) + MapAsciiLower(e)
  {
    LowerConcat(a, b);
    LowerConcat(a + b, c);
    LowerConcat(a + b + c, d);
    LowerConcat(a + b + c + d, e);
  }

  /** `LowerHex for BitmapInformationHeader`: every field in `{:x}`, without
      separators. */
  function InformationHeaderLowerHex(h: BitmapInformationHeader): (r: string)
    ensures AllLowerHexDigits(r)
    ensures 10 <= |r| <= 8 + 8 + 8 + 4 + 4 + 8 + 8 + 16 + 8 + 8
  {
    LowerHexWidths(h.size);
    LowerHexWidths(h.width);
    LowerHexWidths(h.height);
    LowerHexWidths(h.colorPlanes);
    LowerHexWidths(h.bitsPerPixel);
    LowerHexWidths(h.compression);
    LowerHexWidths(h.imageDataSize);
    LowerHexWidths(h.resolution);
    LowerHexWidths(h.colors);
    LowerHexWidths(h.impColors);
    LowerHex(h.size) + LowerHex(h.width) + LowerHex(h.height) + LowerHex(h.colorPlanes)
      + LowerHex(h.bitsPerPixel) + LowerHex(h.compression) + LowerHex(h.imageDataSize)
      + LowerHex(h.resolution) + LowerHex(h.colors) + LowerHex(h.impColors)
  }
}
