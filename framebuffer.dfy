/**
 * The two bit-packed framebuffer planes: where drawPixel puts a pixel (byte
 * index and bit mask), which bits it writes for a colour, and the byte pair
 * fillScreen writes for a colour.  drawPixel and fillScreen disagree on two
 * points, both reproduced here: outside 4-gray mode drawPixel turns grey into
 * black and fillScreen turns it into white, and their bit pairs for dark and
 * light grey are each other's.
 */
module Framebuffer {
  import opened Wrappers
  import opened Geometry
  import opened Transform

  /** The byte of a plane that holds a pixel, and the bit of that byte. */
  datatype Target = Target(index: int, mask: bv8)

  /** Byte index of a native pixel: `x / 8 + y * WIDTH / 8`. */
  function PixelIndex(nx: int, ny: int): (i: int)
    requires InNativeBounds(nx, ny)
    ensures 0 <= i < BUFFER_SIZE
    ensures i == nx / 8 + ny * BYTES_PER_ROW
  {
    nx / 8 + ny * WIDTH / 8
  }

  /** Bit mask of a native column: `0x80 >> (x & 7)`, the leftmost pixel in the top bit. */
  function PixelMask(nx: nat): (m: bv8)
    ensures SingleBit(m)
  {
    (0x80 as bv8) >> (nx % 8)
  }

  /** A mask with exactly one bit set. */
  predicate SingleBit(m: bv8) {
    m == 0x80 || m == 0x40 || m == 0x20 || m == 0x10 || m == 0x08 || m == 0x04 || m == 0x02 || m == 0x01
  }

  /** Different columns of one byte get different single-bit masks. */
  lemma PixelMaskColumn(nx: nat)
    ensures SingleBit(PixelMask(nx))
    ensures PixelMask(nx) == 0x80 <==> nx % 8 == 0
    ensures PixelMask(nx) == 0x40 <==> nx % 8 == 1
    ensures PixelMask(nx) == 0x20 <==> nx % 8 == 2
    ensures PixelMask(nx) == 0x10 <==> nx % 8 == 3
    ensures PixelMask(nx) == 0x08 <==> nx % 8 == 4
    ensures PixelMask(nx) == 0x04 <==> nx % 8 == 5
    ensures PixelMask(nx) == 0x02 <==> nx % 8 == 6
    ensures PixelMask(nx) == 0x01 <==> nx % 8 == 7
  {
    var k := nx % 8;
    if k == 0 { assert PixelMask(nx) == 0x80; }
    else if k == 1 { assert PixelMask(nx) == 0x40; }
    else if k == 2 { assert PixelMask(nx) == 0x20; }
    else if k == 3 { assert PixelMask(nx) == 0x10; }
    else if k == 4 { assert PixelMask(nx) == 0x08; }
    else if k == 5 { assert PixelMask(nx) == 0x04; }
    else if k == 6 { assert PixelMask(nx) == 0x02; }
    else { assert PixelMask(nx) == 0x01; }
  }

  /**
   * What drawPixel addresses for a logical pixel: nothing when the pixel is
   * off the logical panel, otherwise one bit of one byte of each plane.
   */
  function PixelTarget(x: int, y: int, rotation: Rotation): (t: Option<Target>)
    ensures t.Some? <==> InLogicalBounds(x, y, rotation)
    ensures t.Some? ==> 0 <= t.value.index < BUFFER_SIZE
  {
    if !InLogicalBounds(x, y, rotation) then None
    else
      var p := PixelToNative(x, y, rotation);
      Some(Target(PixelIndex(p.0, p.1), PixelMask(p.0)))
  }

  /** No two logical pixels share a bit: the target determines the pixel. */
  lemma {:induction false} PixelTargetInjective(x1: int, y1: int, x2: int, y2: int, rotation: Rotation)
    requires PixelTarget(x1, y1, rotation).Some? && PixelTarget(x2, y2, rotation).Some?
    requires PixelTarget(x1, y1, rotation) == PixelTarget(x2, y2, rotation)
    ensures x1 == x2 && y1 == y2
  {
    var p1 := PixelToNative(x1, y1, rotation);
    var p2 := PixelToNative(x2, y2, rotation);
    PixelMaskColumn(p1.0);
    PixelMaskColumn(p2.0);
    assert p1.0 % 8 == p2.0 % 8;
    assert p1.0 / 8 + p1.1 * 50 == p2.0 / 8 + p2.1 * 50;
    assert p1.1 == p2.1;
    assert p1.0 / 8 == p2.0 / 8;
    assert p1.0 == p2.0;
    PixelToNativeInjective(x1, y1, x2, y2, rotation);
  }

  /** The colour drawPixel actually stores: greys become black outside 4-gray mode, other codes black. */
  function DrawnColor(mode: RefreshMode, c: Color): (d: Color)
    ensures d != Other
    ensures mode != FourGray ==> d == Black || d == White
    ensures c == White <==> d == White
  {
    if mode != FourGray && IsGrey(c) then Black
    else if c == Other then Black
    else c
  }

  /**
   * The bits drawPixel writes for a colour: (bit in plane 1, bit in plane 2).
   * Dark grey sets plane 1 and clears plane 2; light grey the reverse.
   */
  function PixelBits(mode: RefreshMode, c: Color): (bits: (bool, bool))
    ensures mode != FourGray ==> bits.0 == bits.1
  {
    var color := if mode != FourGray && IsGrey(c) then Black else c;
    match color
    case DarkGrey => (true, false)
    case LightGrey => (false, true)
    case White => (true, true)
    case _ => (false, false)
  }

  /** Set (`b | mask`) or clear (`b & (0xFF ^ mask)`) the masked bit of a byte. */
  function WriteBit(b: bv8, mask: bv8, on: bool): (r: bv8)
    ensures r & !mask == b & !mask
    ensures r & mask == (if on then mask else 0)
  {
    if on then b | mask else b & (0xFF ^ mask)
  }

  /** The colour a pixel shows, read back from its two bits by drawPixel's encoding. */
  function PlaneColor(b1: bv8, b2: bv8, mask: bv8): Color {
    var on1 := b1 & mask != 0;
    var on2 := b2 & mask != 0;
    if on1 && on2 then White
    else if on1 then DarkGrey
    else if on2 then LightGrey
    else Black
  }

  /** Reading a pixel back after drawPixel gives the colour drawPixel stores. */
  lemma DrawThenRead(b1: bv8, b2: bv8, mask: bv8, mode: RefreshMode, c: Color)
    requires mask != 0
    ensures var bits := PixelBits(mode, c);
      PlaneColor(WriteBit(b1, mask, bits.0), WriteBit(b2, mask, bits.1), mask) == DrawnColor(mode, c)
  {
  }

  /** The byte pair fillScreen writes to every byte of plane 1 and plane 2. */
  function FillBytes(mode: RefreshMode, c: Color): (bytes: (bv8, bv8))
    ensures mode != FourGray ==> bytes.0 == bytes.1
    ensures (c == White || (mode != FourGray && IsGrey(c))) <==> bytes == (PIX8_WHITE, PIX8_WHITE)
    ensures (c == Black || c == Other) ==> bytes == (PIX8_BLACK, PIX8_BLACK)
  {
    var color := if mode != FourGray && IsGrey(c) then White else c;
    match color
    case DarkGrey => (0x00, 0xFF)
    case LightGrey => (0xFF, 0x00)
    case White => (0xFF, 0xFF)
    case _ => (0x00, 0x00)
  }

  /**
   * The colour every pixel reads back as, with drawPixel's encoding, after
   * fillScreen: grey fills read as white outside 4-gray mode, and in 4-gray
   * mode a dark-grey fill reads as light grey and the other way round.
   */
  lemma FillThenRead(mode: RefreshMode, c: Color, mask: bv8)
    requires SingleBit(mask)
    ensures var bytes := FillBytes(mode, c);
      PlaneColor(bytes.0, bytes.1, mask) ==
        if c == White || (mode != FourGray && IsGrey(c)) then White
        else if c == DarkGrey then LightGrey
        else if c == LightGrey then DarkGrey
        else Black
  {
  }

  /** Outside 4-gray mode the two operations coerce grey in opposite directions. */
  lemma GreyCoercionOpposite(mode: RefreshMode, c: Color)
    requires mode != FourGray && IsGrey(c)
    ensures DrawnColor(mode, c) == Black
    ensures FillBytes(mode, c) == (PIX8_WHITE, PIX8_WHITE)
  {
  }
}
