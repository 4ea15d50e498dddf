/**
 * Panel geometry, machine integers and the enumerations of the GDEY042T81
 * driver header: a 400 x 300 pixel panel on an SSD1683 controller, one bit
 * per pixel per plane.
 */
module Geometry {

  /** Native (rotation 0) panel size in pixels. */
  const WIDTH: int := 400
  const HEIGHT: int := 300

  /** Bytes in one framebuffer plane: one bit per pixel (WIDTH * HEIGHT / 8, see GeometryFacts). */
  const BUFFER_SIZE: int := 15000

  /** Bytes in one native row of a plane (WIDTH / 8, see GeometryFacts). */
  const BYTES_PER_ROW: int := 50

  /** Fill bytes for eight black and eight white pixels. */
  const PIX8_BLACK: bv8 := 0x00
  const PIX8_WHITE: bv8 := 0xFF

  /** Size of the scratch buffer handed to the SPI transport in one call. */
  const SPI_CHUNK: int := 3000

  type Int16 = v: int | -0x8000 <= v < 0x8000
  type Uint16 = v: int | 0 <= v < 0x1_0000

  /** Rotation in quarter turns, as the drawing base class reports it. */
  type Rotation = r: int | 0 <= r < 4

  /** Conversion of an int to int16_t (two's complement wrap-around). */
  function Wrap16(v: int): (r: Int16)
    ensures -0x8000 <= v < 0x8000 ==> r == v
    ensures (r - v) % 0x1_0000 == 0
  {
    (v + 0x8000) % 0x1_0000 - 0x8000
  }

  /** Conversion of an int to uint16_t (wrap-around modulo 2^16). */
  function U16(v: int): (r: Uint16)
    ensures 0 <= v < 0x1_0000 ==> r == v
    ensures (r - v) % 0x1_0000 == 0
  {
    v % 0x1_0000
  }

  /** A four-bit value as a byte. */
  function Nibble(n: int): (b: bv8)
    requires 0 <= n < 16
    ensures b as int == n
  {
    n as bv8
  }

  /** The byte whose high and low nibbles are given. */
  function JoinNibbles(hi: bv8, lo: bv8): (b: bv8)
    requires hi < 16 && lo < 16
    ensures b as int == 16 * hi as int + lo as int
  {
    (hi << 4) | lo
  }

  /** Conversion of an int to uint8_t, as when a wider value is passed as one data byte. */
  function Byte(v: int): (b: bv8)
    ensures b as int == v % 256
  {
    var k := v % 256;
    JoinNibbles(Nibble(k / 16), Nibble(k % 16))
  }

  /** The four refresh modes of the driver. */
  datatype RefreshMode = Full | Fast | Partial | FourGray

  /**
   * The colours the driver distinguishes. `Other` stands for every colour
   * code that is none of the four; the driver treats it as black.
   */
  datatype Color = Black | White | DarkGrey | LightGrey | Other

  predicate IsGrey(c: Color) {
    c == DarkGrey || c == LightGrey
  }

  /** Logical width and height the drawing base class reports for a rotation. */
  function LogicalWidth(rotation: Rotation): (w: int)
    ensures w == WIDTH || w == HEIGHT
    ensures rotation % 2 == 1 <==> w == HEIGHT
  {
    if rotation % 2 == 0 then WIDTH else HEIGHT
  }

  function LogicalHeight(rotation: Rotation): (h: int)
    ensures h == WIDTH || h == HEIGHT
    ensures rotation % 2 == 1 <==> h == WIDTH
  {
    if rotation % 2 == 0 then HEIGHT else WIDTH
  }

  /** The plane size follows from the geometry; a row is exactly 50 whole bytes. */
  lemma GeometryFacts()
    ensures BUFFER_SIZE == WIDTH * HEIGHT / 8
    ensures WIDTH % 8 == 0 && BYTES_PER_ROW == WIDTH / 8
    ensures BYTES_PER_ROW * HEIGHT == BUFFER_SIZE
    ensures BUFFER_SIZE % SPI_CHUNK == 0 && BUFFER_SIZE / SPI_CHUNK == 5
  {
  }

  /** The number a data byte stands for. */
  function ByteValue(b: bv8): int {
    b as int
  }

  /** A value that fits in a byte is sent unchanged. */
  lemma SmallByte(v: int)
    requires 0 <= v < 256
    ensures ByteValue(Byte(v)) == v
  {
  }

  /** The number a little-endian pair of data bytes stands for. */
  function Word(lo: bv8, hi: bv8): int {
    lo as int + 256 * hi as int
  }

  /** A 16-bit value sent as its low byte then its high byte reads back unchanged. */
  lemma LittleEndian16(v: Uint16)
    ensures Word(Byte(v % 256), Byte(v / 256)) == v
  {
  }
}
