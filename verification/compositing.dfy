/** Rendering a map to an RGB image (Metatileset::print_rgb). Every block
    of the map is a metatile of 4x4 tiles of 8x8 pixels, so block (x, y)
    covers the 32x32 pixels from column 32 * x and row 32 * y. The image is
    a buffer of rows of pixels of three channels; it is modelled as a
    three-dimensional array indexed [row, column, channel], and the lemma
    SourceOffsetIsRowMajor shows that the source's flat offsets are exactly
    the row-major positions of those cells. The tile graphics are the
    function `tilePixel`, standing for the tileset's tile (or roof tile) of
    an id and its pixel under the day palette. */
module Compositing {
  import opened Metatiles

  const TileSize: nat := 8     // TILE_SIZE
  const NumChannels: nat := 3  // NUM_CHANNELS
  const BlockSide: nat := 32   // METATILE_SIZE * TILE_SIZE pixels

  datatype Rgb = Rgb(r: bv8, g: bv8, b: bv8)

  /** channel c of a pixel: red, green, blue */
  function Channel(p: Rgb, c: nat): bv8
    requires c < NumChannels
  {
    if c == 0 then p.r else if c == 1 then p.g else p.b
  }

  /** the colour of pixel (dx, dy) of a metatile, counted from its top-left
      corner: pixel (dx % 8, dy % 8) of the tile of cell (dx / 8, dy / 8) */
  function BlockPixel(m: Metatile, tilePixel: (bv8, nat, nat) -> Rgb, dx: nat, dy: nat): Rgb
    requires dx < BlockSide && dy < BlockSide
  {
    tilePixel(TileId(m, dx / TileSize, dy / TileSize), dx % TileSize, dy % TileSize)
  }

  /** The colour of image pixel (X, Y): the block under it is looked up at
      its coordinates cut to a byte each, as the source casts them, and the
      slot of the block's id gives the metatile. */
  function ImagePixel(slots: seq<Metatile>, blockAt: (nat, nat) -> bv8,
                      tilePixel: (bv8, nat, nat) -> Rgb, X: nat, Y: nat): Rgb
    requires |slots| == MaxMetatiles
  {
    var id := blockAt((X / BlockSide) % 256, (Y / BlockSide) % 256);
    BlockPixel(slots[id as nat], tilePixel, X % BlockSide, Y % BlockSide)
  }

  /** A pixel of tile (tx, ty) of a block is the pixel of that tile at its
      offset inside the tile. */
  lemma {:induction false} BlockPixelInTile(m: Metatile, tilePixel: (bv8, nat, nat) -> Rgb, tx: nat, ty: nat, dx: nat, dy: nat)
    requires tx < MetatileSize && ty < MetatileSize
    requires tx * TileSize <= dx < tx * TileSize + TileSize
    requires ty * TileSize <= dy < ty * TileSize + TileSize
    ensures BlockPixel(m, tilePixel, dx, dy) == tilePixel(TileId(m, tx, ty), dx - tx * TileSize, dy - ty * TileSize)
  {
    assert dx / TileSize == tx && dx % TileSize == dx - tx * TileSize;
    assert dy / TileSize == ty && dy % TileSize == dy - ty * TileSize;
  }

  /** A pixel of the square of block (x, y) is the pixel of that block's
      metatile at its offset inside the square. */
  lemma {:induction false} ImagePixelInBlock(slots: seq<Metatile>, blockAt: (nat, nat) -> bv8, tilePixel: (bv8, nat, nat) -> Rgb,
                          x: nat, y: nat, X: nat, Y: nat)
    requires |slots| == MaxMetatiles
    requires x * BlockSide <= X < x * BlockSide + BlockSide
    requires y * BlockSide <= Y < y * BlockSide + BlockSide
    ensures ImagePixel(slots, blockAt, tilePixel, X, Y) ==
      BlockPixel(slots[blockAt(x % 256, y % 256) as nat], tilePixel, X - x * BlockSide, Y - y * BlockSide)
  {
    assert X / BlockSide == x && X % BlockSide == X - x * BlockSide;
    assert Y / BlockSide == y && Y % BlockSide == Y - y * BlockSide;
  }

  /** BlockPixelInTile for every pixel of tile (tx, ty) */
  lemma {:induction false} TilePixels(m: Metatile, tilePixel: (bv8, nat, nat) -> Rgb, tx: nat, ty: nat)
    requires tx < MetatileSize && ty < MetatileSize
    ensures forall dx: nat, dy: nat ::
      tx * TileSize <= dx < tx * TileSize + TileSize && ty * TileSize <= dy < ty * TileSize + TileSize ==>
      BlockPixel(m, tilePixel, dx, dy) == tilePixel(TileId(m, tx, ty), dx - tx * TileSize, dy - ty * TileSize)
  {
    forall dx: nat, dy: nat | tx * TileSize <= dx < tx * TileSize + TileSize && ty * TileSize <= dy < ty * TileSize + TileSize
      ensures BlockPixel(m, tilePixel, dx, dy) == tilePixel(TileId(m, tx, ty), dx - tx * TileSize, dy - ty * TileSize)
    {
      BlockPixelInTile(m, tilePixel, tx, ty, dx, dy);
    }
  }

  /** Paints the 8x8 tile `tid` with its top-left pixel at column X0, row
      Y0, and leaves every other pixel as it was. */
  method PaintTile(buf: array3<bv8>, X0: nat, Y0: nat, tid: bv8, tilePixel: (bv8, nat, nat) -> Rgb)
    requires Y0 + TileSize <= buf.Length0 && X0 + TileSize <= buf.Length1 && buf.Length2 == NumChannels
    modifies buf
    ensures forall Y, X, c :: 0 <= Y < buf.Length0 && 0 <= X < buf.Length1 && 0 <= c < NumChannels ==>
      buf[Y, X, c] ==
        if Y0 <= Y < Y0 + TileSize && X0 <= X < X0 + TileSize
        then Channel(tilePixel(tid, X - X0, Y - Y0), c)
        else old(buf[Y, X, c])
  {
    for py := 0 to TileSize
      invariant forall Y, X, c :: 0 <= Y < buf.Length0 && 0 <= X < buf.Length1 && 0 <= c < NumChannels ==>
        buf[Y, X, c] ==
          if Y0 <= Y < Y0 + py && X0 <= X < X0 + TileSize
          then Channel(tilePixel(tid, X - X0, Y - Y0), c)
          else old(buf[Y, X, c])
    {
      for px := 0 to TileSize
        invariant forall Y, X, c :: 0 <= Y < buf.Length0 && 0 <= X < buf.Length1 && 0 <= c < NumChannels ==>
          buf[Y, X, c] ==
            if (Y0 <= Y < Y0 + py && X0 <= X < X0 + TileSize) || (Y == Y0 + py && X0 <= X < X0 + px)
            then Channel(tilePixel(tid, X - X0, Y - Y0), c)
            else old(buf[Y, X, c])
      {
        var rgb := tilePixel(tid, px, py);
        buf[Y0 + py, X0 + px, 0] := rgb.r;
        buf[Y0 + py, X0 + px, 1] := rgb.g;
        buf[Y0 + py, X0 + px, 2] := rgb.b;
      }
    }
  }

  /** Paints metatile m as block (x, y): its 32x32 square gets the
      metatile's pixels and every other pixel stays as it was. */
  method PaintBlock(buf: array3<bv8>, x: nat, y: nat, m: Metatile, tilePixel: (bv8, nat, nat) -> Rgb)
    requires y * BlockSide + BlockSide <= buf.Length0 && x * BlockSide + BlockSide <= buf.Length1
    requires buf.Length2 == NumChannels
    modifies buf
    ensures forall Y, X, c :: 0 <= Y < buf.Length0 && 0 <= X < buf.Length1 && 0 <= c < NumChannels ==>
      buf[Y, X, c] ==
        if y * BlockSide <= Y < y * BlockSide + BlockSide && x * BlockSide <= X < x * BlockSide + BlockSide
        then Channel(BlockPixel(m, tilePixel, X - x * BlockSide, Y - y * BlockSide), c)
        else old(buf[Y, X, c])
  {
    var X0, Y0 := x * BlockSide, y * BlockSide;
    for ty := 0 to MetatileSize
      invariant forall Y, X, c :: 0 <= Y < buf.Length0 && 0 <= X < buf.Length1 && 0 <= c < NumChannels ==>
        buf[Y, X, c] ==
          if Y0 <= Y < Y0 + ty * TileSize && X0 <= X < X0 + BlockSide
          then Channel(BlockPixel(m, tilePixel, X - X0, Y - Y0), c)
          else old(buf[Y, X, c])
    {
      for tx := 0 to MetatileSize
        invariant forall Y, X, c :: 0 <= Y < buf.Length0 && 0 <= X < buf.Length1 && 0 <= c < NumChannels ==>
          buf[Y, X, c] ==
            if (Y0 <= Y < Y0 + ty * TileSize && X0 <= X < X0 + BlockSide)
               || (Y0 + ty * TileSize <= Y < Y0 + ty * TileSize + TileSize && X0 <= X < X0 + tx * TileSize)
            then Channel(BlockPixel(m, tilePixel, X - X0, Y - Y0), c)
            else old(buf[Y, X, c])
      {
        var Xt, Yt := X0 + tx * TileSize, Y0 + ty * TileSize;
        PaintTile(buf, Xt, Yt, TileId(m, tx, ty), tilePixel);
        TilePixels(m, tilePixel, tx, ty);
      }
    }
  }

  /** The flat offset the source computes for channel c of pixel (px, py)
      of tile (tx, ty) of block (x, y), in an image bw pixels wide. */
  function SourceOffset(bw: nat, x: nat, y: nat, tx: nat, ty: nat, px: nat, py: nat, c: nat): nat {
    var o := ((y * MetatileSize + ty) * bw + x * MetatileSize + tx) * TileSize * NumChannels;
    o + (py * bw + px) * NumChannels + c
  }

  /** the row-major position of cell [Y, X, c] in rows of bw pixels */
  function RowMajor(bw: nat, X: nat, Y: nat, c: nat): nat {
    (Y * bw + X) * NumChannels + c
  }

  /** The source's offset for a pixel of a tile of a block is the row-major
      position of the image pixel it stands for, at column
      (x * 4 + tx) * 8 + px and row (y * 4 + ty) * 8 + py. */
  lemma {:induction false} SourceOffsetIsRowMajor(bw: nat, x: nat, y: nat, tx: nat, ty: nat, px: nat, py: nat, c: nat)
    ensures SourceOffset(bw, x, y, tx, ty, px, py, c) ==
      RowMajor(bw, (x * MetatileSize + tx) * TileSize + px, (y * MetatileSize + ty) * TileSize + py, c)
  {
    var r, k := y * MetatileSize + ty, x * MetatileSize + tx;
    calc {
      SourceOffset(bw, x, y, tx, ty, px, py, c);
      (r * bw + k) * 24 + (py * bw + px) * 3 + c;
      { assert (r * bw + k) * 24 == r * bw * 24 + k * 24; }
      r * bw * 24 + k * 24 + py * bw * 3 + px * 3 + c;
      { assert ((r * 8 + py) * bw) * 3 == r * bw * 24 + py * bw * 3; }
      ((r * 8 + py) * bw + k * 8 + px) * 3 + c;
      RowMajor(bw, k * TileSize + px, r * TileSize + py, c);
    }
  }

  /** q rows of d and a remainder stay below n rows when q < n */
  lemma {:induction false} RowsBelow(d: nat, q: nat, r: nat, n: nat)
    requires r < d && q < n
    ensures q * d + r < n * d
  {
    assert q * d + r < (q + 1) * d;
    assert (q + 1) * d <= n * d;
  }

  /** a quotient and remainder determine the number they come from */
  lemma {:induction false} QuotientRemainderUnique(d: nat, q1: nat, r1: nat, q2: nat, r2: nat)
    requires r1 < d && r2 < d && q1 * d + r1 == q2 * d + r2
    ensures q1 == q2 && r1 == r2
  {
    if q1 < q2 {
      RowsBelow(d, q1, r1, q2);
    } else if q2 < q1 {
      RowsBelow(d, q2, r2, q1);
    }
  }

  /** Every pixel and channel of an image bw pixels wide and bh high has a
      row-major position below bw * bh * 3, and distinct ones have distinct
      positions: no write of the source lands outside the buffer or on
      another pixel's bytes. */
  lemma {:induction false} RowMajorInjective(bw: nat, bh: nat, X1: nat, Y1: nat, c1: nat, X2: nat, Y2: nat, c2: nat)
    requires X1 < bw && X2 < bw && Y1 < bh && Y2 < bh && c1 < NumChannels && c2 < NumChannels
    ensures RowMajor(bw, X1, Y1, c1) < bw * bh * NumChannels
    ensures RowMajor(bw, X1, Y1, c1) == RowMajor(bw, X2, Y2, c2) ==> X1 == X2 && Y1 == Y2 && c1 == c2
  {
    var p1, p2 := Y1 * bw + X1, Y2 * bw + X2;
    RowsBelow(bw, Y1, X1, bh);
    RowsBelow(NumChannels, p1, c1, bh * bw);
    assert bh * bw * NumChannels == bw * bh * NumChannels;
    if RowMajor(bw, X1, Y1, c1) == RowMajor(bw, X2, Y2, c2) {
      QuotientRemainderUnique(NumChannels, p1, c1, p2, c2);
      QuotientRemainderUnique(bw, Y1, X1, Y2, X2);
    }
  }
}
