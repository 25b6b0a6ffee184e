/** The metatile value: a 4x4 block of tile cells, each with a tile id, a
    palette and two flips, plus four collision quadrants held both as labels
    (the text format) and as raw bytes (the binary format). Also the shared
    result codes of the four file codecs and the attribute byte layout. */
module Metatiles {

  const MaxMetatiles: nat := 256   // MAX_NUM_METATILES
  const MetatileSize: nat := 4     // METATILE_SIZE: tiles per side
  const BlockBytes: nat := 16      // METATILE_SIZE * METATILE_SIZE cells
  const NumQuadrants: nat := 4     // NUM_QUADRANTS

  /** one byte per cell, cell (x, y) at index y * 4 + x */
  type ByteGrid = s: seq<bv8> | |s| == 16 witness seq(16, _ => 0)
  /** one flag per cell, cell (x, y) at index y * 4 + x */
  type FlagGrid = s: seq<bool> | |s| == 16 witness seq(16, _ => false)
  /** one collision label per quadrant: top-left, top-right, bottom-left, bottom-right */
  type Labels = s: seq<string> | |s| == 4 witness ["", "", "", ""]
  /** one raw collision byte per quadrant */
  type QuadrantBytes = s: seq<bv8> | |s| == 4 witness [0, 0, 0, 0]

  datatype Metatile = Metatile(
    tileIds: ByteGrid,
    palettes: ByteGrid,
    xFlips: FlagGrid,
    yFlips: FlagGrid,
    collisions: Labels,
    binCollisions: QuadrantBytes)

  /** The cleared metatile (Metatile::clear; metatile.cpp is not part of this
      model, so "cleared" is taken to be zero ids, palettes and bytes, no
      flips and empty labels). */
  const Blank: Metatile := Metatile(seq(16, _ => 0), seq(16, _ => 0), seq(16, _ => false),
                                    seq(16, _ => false), ["", "", "", ""], [0, 0, 0, 0])

  function TileId(m: Metatile, x: nat, y: nat): bv8
    requires x < MetatileSize && y < MetatileSize
  {
    m.tileIds[y * MetatileSize + x]
  }

  /** Metatileset::Result */
  datatype Result = Ok | NoGfx | BadFile | TooShort | TooLong | Null

  /** Metatileset::error_message */
  function ErrorMessage(r: Result): (msg: string)
    ensures msg != []
  {
    match r
    case Ok => "OK."
    case NoGfx => "No corresponding graphics file chosen."
    case BadFile => "Cannot open file."
    case TooShort => "The last block is incomplete."
    case TooLong => "More than 256 blocks defined."
    case Null => "No blockset file chosen."
  }

  /** Each result has its own message, so a message identifies its result. */
  lemma {:induction false} ErrorMessagesDistinct(a: Result, b: Result)
    requires a != b
    ensures ErrorMessage(a) != ErrorMessage(b)
  {
  }

  // ---------------------------------------------------------------------
  // Attribute byte: bits 0-2 and 7 palette, bit 3 tile id >= 0x80,
  // bit 5 x flip, bit 6 y flip.

  /** the byte write_attributes emits for one cell */
  function AttributeByte(palette: bv8, tileId: bv8, xFlip: bool, yFlip: bool): bv8 {
    palette | (if tileId >= 0x80 then 0x08 else 0)
            | (if xFlip then 0x20 else 0)
            | (if yFlip then 0x40 else 0)
  }

  /** what read_attributes takes from one byte */
  function DecodePalette(a: bv8): bv8 { a & 0x87 }
  function DecodeXFlip(a: bv8): bool { a & 0x20 != 0 }
  function DecodeYFlip(a: bv8): bool { a & 0x40 != 0 }

  /** Decoding a written byte: the palette comes back masked to its bits
      0-2 and 7 (the tile-id bit 3 is dropped), a set flip always comes back
      set, and a clear flip comes back clear unless the palette itself had
      that bit set. */
  lemma {:induction false} AttributeByteDecodes(palette: bv8, tileId: bv8, xFlip: bool, yFlip: bool)
    ensures DecodePalette(AttributeByte(palette, tileId, xFlip, yFlip)) == palette & 0x87
    ensures DecodeXFlip(AttributeByte(palette, tileId, xFlip, yFlip)) == (xFlip || palette & 0x20 != 0)
    ensures DecodeYFlip(AttributeByte(palette, tileId, xFlip, yFlip)) == (yFlip || palette & 0x40 != 0)
  {
  }

  /** A palette using only bits 0-2 and 7 round-trips exactly. */
  predicate PaletteFits(palette: bv8) { palette & 0x78 == 0 }

  // ---------------------------------------------------------------------
  // What each reader stores into one slot

  /** read_metatiles: the 16 bytes of a record become the tile ids, row by row */
  function WithTileIds(m: Metatile, block: ByteGrid): Metatile {
    m.(tileIds := block)
  }

  /** read_attributes: palette and flips of every cell from its byte; tile ids
      and collisions stay */
  function WithAttributes(m: Metatile, block: ByteGrid): (r: Metatile)
    ensures r.tileIds == m.tileIds && r.collisions == m.collisions && r.binCollisions == m.binCollisions
    ensures forall k :: 0 <= k < BlockBytes ==>
      r.palettes[k] == DecodePalette(block[k]) && r.xFlips[k] == DecodeXFlip(block[k]) && r.yFlips[k] == DecodeYFlip(block[k])
  {
    m.(palettes := seq(16, k requires 0 <= k < 16 => DecodePalette(block[k])),
       xFlips := seq(16, k requires 0 <= k < 16 => DecodeXFlip(block[k])),
       yFlips := seq(16, k requires 0 <= k < 16 => DecodeYFlip(block[k])))
  }

  /** write_attributes: one byte per cell, row by row */
  function AttributeBlock(m: Metatile): (b: ByteGrid)
    ensures forall k :: 0 <= k < BlockBytes ==>
      b[k] == AttributeByte(m.palettes[k], m.tileIds[k], m.xFlips[k], m.yFlips[k])
  {
    seq(16, k requires 0 <= k < 16 => AttributeByte(m.palettes[k], m.tileIds[k], m.xFlips[k], m.yFlips[k]))
  }

  /** Writing a metatile's attributes and reading them back into any slot
      restores its palettes (when they fit the byte layout) and flips. */
  lemma {:induction false} AttributeBlockRoundTrip(m: Metatile, into: Metatile)
    requires forall k :: 0 <= k < BlockBytes ==> PaletteFits(m.palettes[k])
    ensures var r := WithAttributes(into, AttributeBlock(m));
      r.palettes == m.palettes && r.xFlips == m.xFlips && r.yFlips == m.yFlips
  {
    var r := WithAttributes(into, AttributeBlock(m));
    forall k | 0 <= k < BlockBytes
      ensures r.palettes[k] == m.palettes[k] && r.xFlips[k] == m.xFlips[k] && r.yFlips[k] == m.yFlips[k]
    {
      AttributeByteDecodes(m.palettes[k], m.tileIds[k], m.xFlips[k], m.yFlips[k]);
    }
  }
}
