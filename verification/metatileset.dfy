/** The block set: 256 metatile slots of which the first `count` are in
    use, the result of the last load, and the flags the editor keeps. The
    slots are an array updated in place; every read and write runs the
    record loop of the source and is proved to compute the matching function
    of the Codecs module. */
module Metatilesets {
  import opened Text
  import opened Metatiles
  import opened Codecs
  import opened Compositing

  function Max(a: int, b: int): int { if a < b then b else a }

  /** the cell loops of write_attributes for one metatile: one attribute
      byte per cell, row by row */
  method WriteAttributeBlock(m: Metatile) returns (out: seq<bv8>)
    ensures out == AttributeBlock(m)
  {
    out := [];
    for y := 0 to MetatileSize
      invariant out == AttributeBlock(m)[..y * MetatileSize]
    {
      for x := 0 to MetatileSize
        invariant out == AttributeBlock(m)[..y * MetatileSize + x]
      {
        var k := y * MetatileSize + x;
        var a := m.palettes[k];
        a := a | (if m.tileIds[k] >= 0x80 then 0x08 else 0);
        a := a | (if m.xFlips[k] then 0x20 else 0);
        a := a | (if m.yFlips[k] then 0x40 else 0);
        assert a == AttributeBlock(m)[k];
        assert AttributeBlock(m)[..k + 1] == AttributeBlock(m)[..k] + [a];
        out := out + [a];
      }
    }
    assert AttributeBlock(m)[..16] == AttributeBlock(m);
  }

  class Metatileset {
    /** _metatiles: always all 256 slots */
    const slots: array<Metatile>
    /** _num_metatiles */
    var count: nat
    /** the number of tiles of the attached tileset; the tileset itself
        (Tileset) is not part of this model */
    var numTiles: nat
    var result: Result
    var modified: bool
    var binCollisions: bool

    /** 256 slots, at most 256 in use, and every unused slot cleared */
    ghost predicate Valid()
      reads this, slots
    {
      && slots.Length == MaxMetatiles
      && count <= MaxMetatiles
      && forall i :: count <= i < MaxMetatiles ==> slots[i] == Blank
    }

    /** Metatileset::Metatileset */
    constructor ()
      ensures Valid() && fresh(slots)
      ensures count == 0 && numTiles == 0 && result == Null && !modified && !binCollisions
      ensures forall i :: 0 <= i < MaxMetatiles ==> slots[i] == Blank
    {
      slots := new Metatile[MaxMetatiles](_ => Blank);
      count := 0;
      numTiles := 0;
      result := Null;
      modified := false;
      binCollisions := false;
    }

    /** Metatileset::clear: clears the tileset and every slot */
    method Clear()
      requires Valid()
      modifies this, slots
      ensures Valid()
      ensures count == 0 && numTiles == 0 && result == Null && !modified && !binCollisions
      ensures forall i :: 0 <= i < MaxMetatiles ==> slots[i] == Blank
    {
      numTiles := 0;
      for i := 0 to MaxMetatiles
        invariant numTiles == 0
        invariant forall k :: 0 <= k < i ==> slots[k] == Blank
      {
        slots[i] := Blank;
      }
      count := 0;
      result := Null;
      modified := false;
      binCollisions := false;
    }

    /** Stands for loading a tileset with `tiles` tiles into _tileset. */
    method UseTileset(tiles: nat)
      requires Valid()
      modifies this
      ensures Valid() && numTiles == tiles
      ensures count == old(count) && result == old(result) && modified == old(modified)
      ensures binCollisions == old(binCollisions)
    {
      numTiles := tiles;
    }

    /** Metatileset::size(n): shrinking drops the metatiles past n, growing
        adds cleared ones; the first min(n, count) keep their contents. */
    method Size(n: nat)
      requires Valid() && n <= MaxMetatiles
      modifies this, slots
      ensures Valid() && count == n && modified
      ensures forall i :: 0 <= i < Min(n, old(count)) ==> slots[i] == old(slots[i])
      ensures forall i :: Min(n, old(count)) <= i < MaxMetatiles ==> slots[i] == Blank
      ensures numTiles == old(numTiles) && result == old(result) && binCollisions == old(binCollisions)
    {
      var low, high := Min(n, count), Max(n, count);
      for i := low to high
        invariant count == old(count) && numTiles == old(numTiles) && result == old(result)
        invariant binCollisions == old(binCollisions)
        invariant forall k :: 0 <= k < MaxMetatiles ==> slots[k] == if low <= k < i then Blank else old(slots[k])
      {
        slots[i] := Blank;
      }
      count := n;
      modified := true;
    }

    /** Metatileset::print_rgb: renders a map w blocks wide and h blocks
        high into a fresh image of 32 * h rows of 32 * w pixels; `blockAt`
        is the map's block id at a position (map.cpp is not part of this
        model). Every pixel gets the colour of its tile in the metatile of
        the block under it, so the image is the map's picture and nothing
        is left unpainted. */
    method PrintRgb(w: nat, h: nat, blockAt: (nat, nat) -> bv8, tilePixel: (bv8, nat, nat) -> Rgb)
      returns (image: array3<bv8>)
      requires Valid()
      ensures fresh(image)
      ensures image.Length0 == h * BlockSide && image.Length1 == w * BlockSide && image.Length2 == NumChannels
      ensures forall Y, X, c :: 0 <= Y < image.Length0 && 0 <= X < image.Length1 && 0 <= c < NumChannels ==>
        image[Y, X, c] == Channel(ImagePixel(slots[..], blockAt, tilePixel, X, Y), c)
    {
      var bw, bh := w * BlockSide, h * BlockSide;
      image := new bv8[bh, bw, NumChannels]((_, _, _) => 0);
      for y := 0 to h
        invariant forall Y, X, c :: 0 <= Y < bh && 0 <= X < bw && 0 <= c < NumChannels ==>
          image[Y, X, c] == if Y < y * BlockSide then Channel(ImagePixel(slots[..], blockAt, tilePixel, X, Y), c) else 0
      {
        for x := 0 to w
          invariant forall Y, X, c :: 0 <= Y < bh && 0 <= X < bw && 0 <= c < NumChannels ==>
            image[Y, X, c] ==
              if Y < y * BlockSide || (Y < y * BlockSide + BlockSide && X < x * BlockSide)
              then Channel(ImagePixel(slots[..], blockAt, tilePixel, X, Y), c)
              else 0
        {
          var m := slots[blockAt(x % 256, y % 256) as nat];
          PaintBlock(image, x, y, m, tilePixel);
          forall X: nat, Y: nat | y * BlockSide <= Y < y * BlockSide + BlockSide && x * BlockSide <= X < x * BlockSide + BlockSide
            ensures ImagePixel(slots[..], blockAt, tilePixel, X, Y) == BlockPixel(m, tilePixel, X - x * BlockSide, Y - y * BlockSide)
          {
            ImagePixelInBlock(slots[..], blockAt, tilePixel, x, y, X, Y);
          }
        }
      }
    }

    /** Metatileset::read_metatiles. `file` is the file's contents, None when
        it cannot be opened. */
    method ReadMetatiles(file: Option<seq<bv8>>) returns (r: Result)
      requires Valid()
      modifies this, slots
      ensures Valid() && result == r
      ensures numTiles == old(numTiles) && modified == old(modified) && binCollisions == old(binCollisions)
      ensures old(numTiles) == 0 ==> r == NoGfx && count == old(count) && slots[..] == old(slots[..])
      ensures old(numTiles) != 0 && file.None? ==> r == BadFile && count == old(count) && slots[..] == old(slots[..])
      ensures old(numTiles) != 0 && file.Some? ==>
        Load(slots[..], count, r) == ReadTileIds(old(slots[..]), old(count), file.value)
    {
      if numTiles == 0 {
        r := NoGfx;
        result := r;
        return;
      }
      if file.None? {
        r := BadFile;
        result := r;
        return;
      }
      var data := file.value;
      ghost var start := Load(slots[..], count, Ok);
      var pos := 0;
      while pos < |data|
        invariant Valid() && pos <= |data|
        invariant numTiles == old(numTiles) && modified == old(modified) && binCollisions == old(binCollisions)
        invariant ReadTileIds(slots[..], count, data[pos..]) == ReadTileIds(start.slots, start.count, data)
        decreases |data| - pos
      {
        var c := Min(BlockBytes, |data| - pos);
        if c < BlockBytes {
          r := TooShort;
          result := r;
          return;
        }
        if count == MaxMetatiles {
          r := TooLong;
          result := r;
          return;
        }
        assert data[pos..][..BlockBytes] == data[pos..pos + BlockBytes];
        assert data[pos..][BlockBytes..] == data[pos + BlockBytes..];
        slots[count] := WithTileIds(slots[count], data[pos..pos + BlockBytes]);
        count := count + 1;
        pos := pos + BlockBytes;
      }
      r := Ok;
      result := r;
    }

    /** Metatileset::write_metatiles: the file written, None when it cannot
        be opened */
    method WriteMetatiles(canOpen: bool) returns (file: Option<seq<bv8>>)
      requires Valid()
      ensures canOpen ==> file == Some(EncodeTileIds(slots[..count]))
      ensures !canOpen ==> file == None
    {
      if !canOpen {
        return None;
      }
      var out: seq<bv8> := [];
      for i := 0 to count
        invariant out == EncodeTileIds(slots[..i])
      {
        var m := slots[i];
        for y := 0 to MetatileSize
          invariant out == EncodeTileIds(slots[..i]) + m.tileIds[..y * MetatileSize]
        {
          for x := 0 to MetatileSize
            invariant out == EncodeTileIds(slots[..i]) + m.tileIds[..y * MetatileSize + x]
          {
            out := out + [TileId(m, x, y)];
          }
        }
        assert slots[..i + 1] == slots[..i] + [m];
        EncodeTileIdsSnoc(slots[..i], m);
      }
      return Some(out);
    }

    /** Metatileset::read_attributes */
    method ReadAttributes(file: Option<seq<bv8>>) returns (r: Result)
      requires Valid()
      modifies this, slots
      ensures Valid() && result == r && count == old(count)
      ensures numTiles == old(numTiles) && modified == old(modified) && binCollisions == old(binCollisions)
      ensures old(numTiles) == 0 ==> r == NoGfx && slots[..] == old(slots[..])
      ensures old(numTiles) != 0 && file.None? ==> r == BadFile && slots[..] == old(slots[..])
      ensures old(numTiles) != 0 && file.Some? ==>
        Load(slots[..], count, r) == Codecs.ReadAttributes(old(slots[..]), count, 0, file.value)
    {
      if numTiles == 0 {
        r := NoGfx;
        result := r;
        return;
      }
      if file.None? {
        r := BadFile;
        result := r;
        return;
      }
      var data := file.value;
      ghost var start := slots[..];
      var pos, i := 0, 0;
      while pos < |data|
        invariant Valid() && pos <= |data| && i <= count && count == old(count)
        invariant numTiles == old(numTiles) && modified == old(modified) && binCollisions == old(binCollisions)
        invariant Codecs.ReadAttributes(slots[..], count, i, data[pos..]) == Codecs.ReadAttributes(start, count, 0, data)
        decreases |data| - pos
      {
        var c := Min(BlockBytes, |data| - pos);
        if c < BlockBytes {
          r := TooShort;
          result := r;
          return;
        }
        if i >= count {
          r := TooLong;
          result := r;
          return;
        }
        assert data[pos..][..BlockBytes] == data[pos..pos + BlockBytes];
        assert data[pos..][BlockBytes..] == data[pos + BlockBytes..];
        slots[i] := WithAttributes(slots[i], data[pos..pos + BlockBytes]);
        i := i + 1;
        pos := pos + BlockBytes;
      }
      r := Ok;
      result := r;
    }

    /** Metatileset::write_attributes */
    method WriteAttributes(canOpen: bool) returns (file: Option<seq<bv8>>)
      requires Valid()
      ensures canOpen ==> file == Some(EncodeAttributes(slots[..count]))
      ensures !canOpen ==> file == None
    {
      if !canOpen {
        return None;
      }
      var out: seq<bv8> := [];
      for i := 0 to count
        invariant out == EncodeAttributes(slots[..i])
      {
        var m := slots[i];
        var block := WriteAttributeBlock(m);
        out := out + block;
        assert slots[..i + 1] == slots[..i] + [m];
        EncodeAttributesSnoc(slots[..i], m);
      }
      return Some(out);
    }

    /** the body of the line loop of read_asm_collisions: a line that
        starts with `tilecoll` once trimmed gives its labels to slot i */
    method ScanLineInto(line: string, i: nat) returns (stored: bool)
      requires Valid() && i < count
      modifies slots
      ensures Valid()
      ensures stored == LineRecord(line).Some?
      ensures slots[..] == if stored
        then old(slots[..])[i := old(slots[i]).(collisions := LineRecord(line).value)]
        else old(slots[..])
    {
      var t := Trim(line);
      stored := StartsWith(t, Tilecoll);
      if stored {
        slots[i] := slots[i].(collisions := ParseTilecoll(t));
      }
    }

    /** the line loop of read_asm_collisions */
    method StoreAsmCollisions(lines: seq<string>)
      requires Valid()
      modifies slots
      ensures Valid()
      ensures slots[..] == Codecs.ReadAsmCollisions(old(slots[..]), count, 0, lines)
    {
      ghost var target := Codecs.ReadAsmCollisions(slots[..], count, 0, lines);
      var pos, i := 0, 0;
      while pos < |lines| && i < count
        invariant Valid() && pos <= |lines| && i <= count
        invariant StoreLabels(slots[..], count, i, Records(lines, pos)) == target
        decreases |lines| - pos
      {
        ScanLine(slots[..], count, i, lines, pos);
        var stored := ScanLineInto(lines[pos], i);
        i := if stored then i + 1 else i;
        pos := pos + 1;
      }
    }

    /** Metatileset::read_asm_collisions: `file` is the file's lines. Stores
        into used slots only (see the findings for the count == 0 case). */
    method ReadAsmCollisions(file: Option<seq<string>>) returns (r: Result)
      requires Valid()
      modifies this, slots
      ensures Valid() && result == r && count == old(count)
      ensures numTiles == old(numTiles) && modified == old(modified)
      ensures old(numTiles) == 0 ==> r == NoGfx && slots[..] == old(slots[..]) && binCollisions == old(binCollisions)
      ensures old(numTiles) != 0 && file.None? ==>
        r == BadFile && slots[..] == old(slots[..]) && binCollisions == old(binCollisions)
      ensures old(numTiles) != 0 && file.Some? ==>
        r == Ok && !binCollisions && slots[..] == Codecs.ReadAsmCollisions(old(slots[..]), count, 0, file.value)
    {
      if numTiles == 0 {
        r := NoGfx;
        result := r;
        return;
      }
      if file.None? {
        r := BadFile;
        result := r;
        return;
      }
      StoreAsmCollisions(file.value);
      binCollisions := false;
      r := Ok;
      result := r;
    }

    /** Metatileset::write_asm_collisions: the lines written */
    method WriteAsmCollisions(canOpen: bool) returns (file: Option<seq<string>>)
      requires Valid()
      ensures canOpen ==> file == Some(EncodeAsmCollisions(slots[..count]))
      ensures !canOpen ==> file == None
    {
      if !canOpen {
        return None;
      }
      var out: seq<string> := [];
      for i := 0 to count
        invariant out == EncodeAsmCollisions(slots[..i])
      {
        out := out + [TilecollLine(slots[i], i)];
      }
      return Some(out);
    }

    /** Metatileset::read_bin_collisions. Stores into used slots only (see the
        findings for the count == 0 case). */
    method ReadBinCollisions(file: Option<seq<bv8>>) returns (r: Result)
      requires Valid()
      modifies this, slots
      ensures Valid() && result == r && count == old(count)
      ensures numTiles == old(numTiles) && modified == old(modified)
      ensures old(numTiles) == 0 ==> r == NoGfx && slots[..] == old(slots[..]) && binCollisions == old(binCollisions)
      ensures old(numTiles) != 0 && file.None? ==>
        r == BadFile && slots[..] == old(slots[..]) && binCollisions == old(binCollisions)
      ensures old(numTiles) != 0 && file.Some? ==>
        && Load(slots[..], count, r) == Codecs.ReadBinCollisions(old(slots[..]), count, 0, file.value)
        && binCollisions == (r == Ok || old(binCollisions))
    {
      if numTiles == 0 {
        r := NoGfx;
        result := r;
        return;
      }
      if file.None? {
        r := BadFile;
        result := r;
        return;
      }
      var data := file.value;
      ghost var start := slots[..];
      var pos, i := 0, 0;
      while pos < |data| && i < count
        invariant Valid() && pos <= |data| && i <= count && count == old(count)
        invariant numTiles == old(numTiles) && modified == old(modified) && binCollisions == old(binCollisions)
        invariant Codecs.ReadBinCollisions(slots[..], count, i, data[pos..]) == Codecs.ReadBinCollisions(start, count, 0, data)
        decreases |data| - pos
      {
        var c := Min(NumQuadrants, |data| - pos);
        if c < NumQuadrants {
          r := TooShort;
          result := r;
          return;
        }
        assert data[pos..][..NumQuadrants] == data[pos..pos + NumQuadrants];
        assert data[pos..][NumQuadrants..] == data[pos + NumQuadrants..];
        slots[i] := slots[i].(binCollisions := data[pos..pos + NumQuadrants]);
        i := i + 1;
        pos := pos + NumQuadrants;
      }
      binCollisions := true;
      r := Ok;
      result := r;
    }

    /** Metatileset::write_bin_collisions */
    method WriteBinCollisions(canOpen: bool) returns (file: Option<seq<bv8>>)
      requires Valid()
      ensures canOpen ==> file == Some(EncodeBinCollisions(slots[..count]))
      ensures !canOpen ==> file == None
    {
      if !canOpen {
        return None;
      }
      var out: seq<bv8> := [];
      for i := 0 to count
        invariant out == EncodeBinCollisions(slots[..i])
      {
        var m := slots[i];
        assert slots[..i + 1] == slots[..i] + [m];
        EncodeBinCollisionsSnoc(slots[..i], m);
        out := out + m.binCollisions;
      }
      return Some(out);
    }
  }
}
