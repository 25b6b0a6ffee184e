/** The four headerless metatile file formats, as functions of the slot
    contents. Each reader is a function from the slots, the live count and
    the file's contents (bytes, or lines for the text format) to the new
    slots, count and result, following the read loop of the source step by
    step; each writer is the file it produces. The class in metatileset.dfy
    runs the loops and is proved to compute these functions; the lemmas here
    state what the formats promise. */
module Codecs {
  import opened Text
  import opened Metatiles

  datatype Load = Load(slots: seq<Metatile>, count: nat, result: Result)

  function Min(a: int, b: int): int { if a < b then a else b }

  // ---------------------------------------------------------------------
  // Flat files of fixed-size records

  /** records of `size` bytes written one after another */
  function Concat(blocks: seq<seq<bv8>>, size: nat): (data: seq<bv8>)
    requires forall j :: 0 <= j < |blocks| ==> |blocks[j]| == size
    ensures |data| == size * |blocks|
  {
    if blocks == [] then []
    else Concat(blocks[..|blocks| - 1], size) + blocks[|blocks| - 1]
  }

  /** record j of a file of `size`-byte records */
  function Record(data: seq<bv8>, size: nat, j: nat): (r: seq<bv8>)
    requires size * j + size <= |data|
    ensures |r| == size
  {
    data[size * j .. size * j + size]
  }

  /** Dropping the first record moves every later record one place down. */
  lemma {:induction false} RecordShift(data: seq<bv8>, size: nat, j: nat)
    requires size * (j + 1) + size <= |data|
    ensures size <= |data| && size * j + size <= |data[size..]|
    ensures Record(data[size..], size, j) == Record(data, size, j + 1)
  {
    assert size * (j + 1) == size * j + size;
  }

  /** Record j of a concatenation is block j. */
  lemma {:induction false} ConcatRecord(blocks: seq<seq<bv8>>, size: nat, j: nat)
    requires forall k :: 0 <= k < |blocks| ==> |blocks[k]| == size
    requires j < |blocks|
    ensures size * j + size <= |Concat(blocks, size)|
    ensures Record(Concat(blocks, size), size, j) == blocks[j]
    decreases |blocks|
  {
    var n := |blocks|;
    var init := blocks[..n - 1];
    assert size * (n - 1) + size == size * n;
    if j == n - 1 {
      assert |Concat(init, size)| == size * j;
    } else {
      ConcatRecord(init, size, j);
      assert size * j + size <= size * (n - 1) by {
        assert j + 1 <= n - 1;
        MulMonotone(size, j + 1, n - 1);
      }
      assert Concat(blocks, size) == Concat(init, size) + blocks[n - 1];
    }
  }

  lemma {:induction false} MulMonotone(a: nat, b: nat, c: nat)
    requires b <= c
    ensures a * b <= a * c
  {
  }

  /** Writing one more record appends it to the file. */
  lemma {:induction false} ConcatSnoc(blocks: seq<seq<bv8>>, b: seq<bv8>, size: nat)
    requires forall k :: 0 <= k < |blocks| ==> |blocks[k]| == size
    requires |b| == size
    ensures Concat(blocks + [b], size) == Concat(blocks, size) + b
  {
    assert (blocks + [b])[..|blocks|] == blocks;
  }

  // ---------------------------------------------------------------------
  // Tile-id grid: 16 bytes per metatile

  /** read_metatiles from the given state: every full record fills the slot
      after the last used one; a trailing partial record is TooShort; a full
      record with all 256 slots used is TooLong. */
  function ReadTileIds(slots: seq<Metatile>, count: nat, data: seq<bv8>): (l: Load)
    requires |slots| == MaxMetatiles && count <= MaxMetatiles
    ensures |l.slots| == MaxMetatiles && count <= l.count <= MaxMetatiles
    decreases |data|
  {
    if |data| == 0 then Load(slots, count, Ok)
    else if |data| < BlockBytes then Load(slots, count, TooShort)
    else if count == MaxMetatiles then Load(slots, count, TooLong)
    else ReadTileIds(slots[count := WithTileIds(slots[count], data[..BlockBytes])], count + 1, data[BlockBytes..])
  }

  /** The number of records read_metatiles stores: every full record, up to
      the 256-slot limit. */
  function TileIdsRead(count: nat, n: nat): nat
    requires count <= MaxMetatiles
  {
    Min(n / BlockBytes, MaxMetatiles - count)
  }

  /** The result of reading `n` bytes of tile ids when `count` slots are used. */
  function TileIdsResult(count: nat, n: nat): Result {
    if n / BlockBytes > MaxMetatiles - count then TooLong
    else if n % BlockBytes != 0 then TooShort
    else Ok
  }

  /** read_metatiles raises the count by one per record stored, and reports a
      trailing partial record or records beyond the 256th. */
  lemma {:induction false} ReadTileIdsCount(slots: seq<Metatile>, count: nat, data: seq<bv8>)
    requires |slots| == MaxMetatiles && count <= MaxMetatiles
    ensures var l := ReadTileIds(slots, count, data);
      l.count == count + TileIdsRead(count, |data|) && l.result == TileIdsResult(count, |data|)
    decreases |data|
  {
    if |data| >= BlockBytes && count < MaxMetatiles {
      ReadTileIdsCount(slots[count := WithTileIds(slots[count], data[..BlockBytes])], count + 1, data[BlockBytes..]);
    }
  }

  /** read_metatiles changes no slot outside the ones it stores into. */
  lemma {:induction false} ReadTileIdsKeeps(slots: seq<Metatile>, count: nat, data: seq<bv8>, k: nat)
    requires |slots| == MaxMetatiles && count <= MaxMetatiles && k < MaxMetatiles
    requires !(count <= k < count + TileIdsRead(count, |data|))
    ensures ReadTileIds(slots, count, data).slots[k] == slots[k]
    decreases |data|
  {
    if |data| >= BlockBytes && count < MaxMetatiles {
      ReadTileIdsKeeps(slots[count := WithTileIds(slots[count], data[..BlockBytes])], count + 1, data[BlockBytes..], k);
    }
  }

  /** read_metatiles appends: record j becomes the tile ids of slot count + j,
      row by row. */
  lemma {:induction false} ReadTileIdsStores(slots: seq<Metatile>, count: nat, data: seq<bv8>, k: nat)
    requires |slots| == MaxMetatiles && count <= MaxMetatiles
    requires count <= k < count + TileIdsRead(count, |data|)
    ensures BlockBytes * (k - count) + BlockBytes <= |data|
    ensures ReadTileIds(slots, count, data).slots[k] == WithTileIds(slots[k], Record(data, BlockBytes, k - count))
    decreases |data|
  {
    var next := slots[count := WithTileIds(slots[count], data[..BlockBytes])];
    var rest := data[BlockBytes..];
    if k == count {
      ReadTileIdsKeeps(next, count + 1, rest, k);
    } else {
      ReadTileIdsStores(next, count + 1, rest, k);
      RecordShift(data, BlockBytes, k - count - 1);
    }
  }

  function TileIdBlocks(ms: seq<Metatile>): (blocks: seq<seq<bv8>>)
    ensures |blocks| == |ms| && forall j :: 0 <= j < |ms| ==> blocks[j] == ms[j].tileIds
  {
    seq(|ms|, j requires 0 <= j < |ms| => ms[j].tileIds)
  }

  /** write_metatiles: the tile ids of each used slot, slot after slot, row
      by row within a slot */
  function EncodeTileIds(ms: seq<Metatile>): (data: seq<bv8>)
    ensures |data| == BlockBytes * |ms|
  {
    Concat(TileIdBlocks(ms), BlockBytes)
  }

  lemma {:induction false} EncodeTileIdsSnoc(ms: seq<Metatile>, m: Metatile)
    ensures EncodeTileIds(ms + [m]) == EncodeTileIds(ms) + m.tileIds
  {
    assert TileIdBlocks(ms + [m]) == TileIdBlocks(ms) + [m.tileIds];
    ConcatSnoc(TileIdBlocks(ms), m.tileIds, BlockBytes);
  }

  /** Byte 16 * j + y * 4 + x of the tile-id file is tile (x, y) of slot j. */
  lemma {:induction false} TileIdsLayout(ms: seq<Metatile>, j: nat, x: nat, y: nat)
    requires j < |ms| && x < MetatileSize && y < MetatileSize
    ensures EncodeTileIds(ms)[16 * j + 4 * y + x] == TileId(ms[j], x, y)
  {
    ConcatRecord(TileIdBlocks(ms), BlockBytes, j);
    assert Record(EncodeTileIds(ms), 16, j)[4 * y + x] == EncodeTileIds(ms)[16 * j + 4 * y + x];
  }

  /** Reading what write_metatiles wrote, after `count` used slots, restores
      every tile id, raises the count by the number of metatiles written and
      changes no other slot. */
  lemma {:induction false} TileIdsRoundTrip(slots: seq<Metatile>, count: nat, ms: seq<Metatile>)
    requires |slots| == MaxMetatiles && count + |ms| <= MaxMetatiles
    ensures var l := ReadTileIds(slots, count, EncodeTileIds(ms));
      && l.result == Ok && l.count == count + |ms|
      && (forall j :: 0 <= j < |ms| ==> l.slots[count + j] == slots[count + j].(tileIds := ms[j].tileIds))
      && (forall k :: 0 <= k < MaxMetatiles && !(count <= k < count + |ms|) ==> l.slots[k] == slots[k])
  {
    var data := EncodeTileIds(ms);
    var l := ReadTileIds(slots, count, data);
    assert TileIdsRead(count, |data|) == |ms|;
    ReadTileIdsCount(slots, count, data);
    forall j | 0 <= j < |ms| ensures l.slots[count + j] == slots[count + j].(tileIds := ms[j].tileIds) {
      ReadTileIdsStores(slots, count, data, count + j);
      ConcatRecord(TileIdBlocks(ms), BlockBytes, j);
    }
    forall k | 0 <= k < MaxMetatiles && !(count <= k < count + |ms|) ensures l.slots[k] == slots[k] {
      ReadTileIdsKeeps(slots, count, data, k);
    }
  }

  // ---------------------------------------------------------------------
  // Attributes: 16 bytes per metatile

  /** read_attributes from slot `i` on: every full record sets the palettes
      and flips of the next slot; a trailing partial record is TooShort; a
      full record beyond the used slots is TooLong. The count never changes. */
  function ReadAttributes(slots: seq<Metatile>, count: nat, i: nat, data: seq<bv8>): (l: Load)
    requires |slots| == MaxMetatiles && i <= count <= MaxMetatiles
    ensures |l.slots| == MaxMetatiles && l.count == count
    decreases |data|
  {
    if |data| == 0 then Load(slots, count, Ok)
    else if |data| < BlockBytes then Load(slots, count, TooShort)
    else if i >= count then Load(slots, count, TooLong)
    else ReadAttributes(slots[i := WithAttributes(slots[i], data[..BlockBytes])], count, i + 1, data[BlockBytes..])
  }

  /** The number of records read_attributes stores from slot i on: every
      full record, up to the last used slot. */
  function AttributesRead(count: nat, i: nat, n: nat): nat
    requires i <= count
  {
    Min(n / BlockBytes, count - i)
  }

  /** The result of reading `n` bytes of attributes with `free` used slots
      left to fill. */
  function AttributesResult(free: nat, n: nat): Result {
    if n / BlockBytes > free then TooLong
    else if n % BlockBytes != 0 then TooShort
    else Ok
  }

  /** read_attributes reports more full records than used slots as TooLong
      and a trailing partial record as TooShort. */
  lemma {:induction false} ReadAttributesResult(slots: seq<Metatile>, count: nat, i: nat, data: seq<bv8>)
    requires |slots| == MaxMetatiles && i <= count <= MaxMetatiles
    ensures ReadAttributes(slots, count, i, data).result == AttributesResult(count - i, |data|)
    decreases |data|
  {
    if |data| >= BlockBytes && i < count {
      ReadAttributesResult(slots[i := WithAttributes(slots[i], data[..BlockBytes])], count, i + 1, data[BlockBytes..]);
    }
  }

  /** read_attributes changes no slot outside the ones it stores into. */
  lemma {:induction false} ReadAttributesKeeps(slots: seq<Metatile>, count: nat, i: nat, data: seq<bv8>, k: nat)
    requires |slots| == MaxMetatiles && i <= count <= MaxMetatiles && k < MaxMetatiles
    requires !(i <= k < i + AttributesRead(count, i, |data|))
    ensures ReadAttributes(slots, count, i, data).slots[k] == slots[k]
    decreases |data|
  {
    if |data| >= BlockBytes && i < count {
      ReadAttributesKeeps(slots[i := WithAttributes(slots[i], data[..BlockBytes])], count, i + 1, data[BlockBytes..], k);
    }
  }

  /** read_attributes: record j sets the palettes and flips of slot i + j. */
  lemma {:induction false} ReadAttributesStores(slots: seq<Metatile>, count: nat, i: nat, data: seq<bv8>, k: nat)
    requires |slots| == MaxMetatiles && i <= count <= MaxMetatiles
    requires i <= k < i + AttributesRead(count, i, |data|)
    ensures BlockBytes * (k - i) + BlockBytes <= |data|
    ensures ReadAttributes(slots, count, i, data).slots[k] == WithAttributes(slots[k], Record(data, BlockBytes, k - i))
    decreases |data|
  {
    var next := slots[i := WithAttributes(slots[i], data[..BlockBytes])];
    var rest := data[BlockBytes..];
    if k == i {
      ReadAttributesKeeps(next, count, i + 1, rest, k);
    } else {
      ReadAttributesStores(next, count, i + 1, rest, k);
      RecordShift(data, BlockBytes, k - i - 1);
    }
  }

  function AttributeBlocks(ms: seq<Metatile>): (blocks: seq<seq<bv8>>)
    ensures |blocks| == |ms| && forall j :: 0 <= j < |ms| ==> blocks[j] == AttributeBlock(ms[j])
  {
    seq(|ms|, j requires 0 <= j < |ms| => AttributeBlock(ms[j]))
  }

  /** write_attributes: one attribute byte per cell, slot after slot */
  function EncodeAttributes(ms: seq<Metatile>): (data: seq<bv8>)
    ensures |data| == BlockBytes * |ms|
  {
    Concat(AttributeBlocks(ms), BlockBytes)
  }

  lemma {:induction false} EncodeAttributesSnoc(ms: seq<Metatile>, m: Metatile)
    ensures EncodeAttributes(ms + [m]) == EncodeAttributes(ms) + AttributeBlock(m)
  {
    assert AttributeBlocks(ms + [m]) == AttributeBlocks(ms) + [AttributeBlock(m)];
    ConcatSnoc(AttributeBlocks(ms), AttributeBlock(m), BlockBytes);
  }

  /** Reading written attributes into a set with at least as many used slots
      restores every palette (when it fits the byte layout) and every flip,
      and leaves the tile ids and collisions of every slot alone. */
  lemma {:induction false} AttributesRoundTrip(slots: seq<Metatile>, count: nat, ms: seq<Metatile>)
    requires |slots| == MaxMetatiles && |ms| <= count <= MaxMetatiles
    requires forall j, k :: 0 <= j < |ms| && 0 <= k < BlockBytes ==> PaletteFits(ms[j].palettes[k])
    ensures var l := ReadAttributes(slots, count, 0, EncodeAttributes(ms));
      && l.result == Ok && l.count == count
      && (forall j :: 0 <= j < |ms| ==>
            l.slots[j].palettes == ms[j].palettes && l.slots[j].xFlips == ms[j].xFlips && l.slots[j].yFlips == ms[j].yFlips
            && l.slots[j].tileIds == slots[j].tileIds && l.slots[j].collisions == slots[j].collisions)
      && (forall j :: |ms| <= j < MaxMetatiles ==> l.slots[j] == slots[j])
  {
    var data := EncodeAttributes(ms);
    var l := ReadAttributes(slots, count, 0, data);
    assert AttributesRead(count, 0, |data|) == |ms|;
    ReadAttributesResult(slots, count, 0, data);
    forall j | 0 <= j < |ms|
      ensures l.slots[j].palettes == ms[j].palettes && l.slots[j].xFlips == ms[j].xFlips && l.slots[j].yFlips == ms[j].yFlips
      ensures l.slots[j].tileIds == slots[j].tileIds && l.slots[j].collisions == slots[j].collisions
    {
      ReadAttributesStores(slots, count, 0, data, j);
      ConcatRecord(AttributeBlocks(ms), BlockBytes, j);
      AttributeBlockRoundTrip(ms[j], slots[j]);
    }
    forall j | |ms| <= j < MaxMetatiles ensures l.slots[j] == slots[j] {
      ReadAttributesKeeps(slots, count, 0, data, j);
    }
  }

  // ---------------------------------------------------------------------
  // Text collisions: one `tilecoll` line per metatile

  const Tilecoll: string := "tilecoll"

  /** the labels of a trimmed `tilecoll` line: the directive and the
      character after it are erased, then three labels end at ',' and the
      fourth at ';', each trimmed */
  function ParseTilecoll(line: string): Labels {
    TilecollFields(Drop(line, |Tilecoll| + 1))
  }

  /** the four labels after the directive: three end at ',' and the last
      at ';' */
  function TilecollFields(rest: string): (labels: seq<string>)
    ensures |labels| == NumQuadrants
  {
    var r1 := SplitOnce(rest, ',');
    var r2 := SplitOnce(r1.1, ',');
    var r3 := SplitOnce(r2.1, ',');
    var r4 := SplitOnce(r3.1, ';');
    [Trim(r1.0), Trim(r2.0), Trim(r3.0), Trim(r4.0)]
  }

  /** what the reader takes from one line: the labels of a line that starts
      with `tilecoll` once trimmed, nothing from any other line */
  function LineRecord(line: string): Option<Labels> {
    var t := Trim(line);
    if StartsWith(t, Tilecoll) then Some(ParseTilecoll(t)) else None
  }

  /** what the reader takes from each line, in order */
  function LineRecords(lines: seq<string>): (recs: seq<Option<Labels>>)
    ensures |recs| == |lines|
  {
    seq(|lines|, j requires 0 <= j < |lines| => LineRecord(lines[j]))
  }

  /** the labels of the records from `pos` on, in order, passing over the
      entries that carry none */
  function Collect(recs: seq<Option<Labels>>, pos: nat): (labels: seq<Labels>)
    requires pos <= |recs|
    ensures |labels| <= |recs| - pos
    decreases |recs| - pos
  {
    if pos == |recs| then []
    else (match recs[pos] case Some(l) => [l] case None => []) + Collect(recs, pos + 1)
  }

  /** the labels of every `tilecoll` line from `pos` on, in order; every
      other line is skipped */
  function Records(lines: seq<string>, pos: nat): (records: seq<Labels>)
    requires pos <= |lines|
    ensures |records| <= |lines| - pos
  {
    Collect(LineRecords(lines), pos)
  }

  /** stores one record per slot from slot `i` on, stopping once slot
      count - 1 has been filled (see the findings for the count == 0 case) */
  function StoreLabels(slots: seq<Metatile>, count: nat, i: nat, records: seq<Labels>): (r: seq<Metatile>)
    requires |slots| == MaxMetatiles && i <= count <= MaxMetatiles
    ensures |r| == MaxMetatiles
    decreases |records|
  {
    if i == count || records == [] then slots
    else StoreLabels(slots[i := slots[i].(collisions := records[0])], count, i + 1, records[1..])
  }

  /** read_asm_collisions from slot `i` on: the lines are scanned in order and
      the labels of each `tilecoll` line go to the next slot, until the used
      slots are filled. Since parsing a line changes nothing, this is storing
      the records of all `tilecoll` lines in turn. */
  function ReadAsmCollisions(slots: seq<Metatile>, count: nat, i: nat, lines: seq<string>): (r: seq<Metatile>)
    requires |slots| == MaxMetatiles && i <= count <= MaxMetatiles
  {
    StoreLabels(slots, count, i, Records(lines, 0))
  }

  /** Storing one more record fills slot i and moves on to slot i + 1. */
  lemma {:induction false} StoreLabelsStep(slots: seq<Metatile>, count: nat, i: nat, labels: Labels, rest: seq<Labels>)
    requires |slots| == MaxMetatiles && i < count <= MaxMetatiles
    ensures StoreLabels(slots, count, i, [labels] + rest) ==
      StoreLabels(slots[i := slots[i].(collisions := labels)], count, i + 1, rest)
  {
    assert ([labels] + rest)[0] == labels && ([labels] + rest)[1..] == rest;
  }

  /** One line of the scan: a `tilecoll` line fills slot i, any other
      line is skipped. */
  lemma {:induction false} ScanLine(slots: seq<Metatile>, count: nat, i: nat, lines: seq<string>, pos: nat)
    requires |slots| == MaxMetatiles && i < count <= MaxMetatiles && pos < |lines|
    ensures var rec := LineRecord(lines[pos]);
      StoreLabels(slots, count, i, Records(lines, pos)) ==
        if rec.Some?
        then StoreLabels(slots[i := slots[i].(collisions := rec.value)], count, i + 1, Records(lines, pos + 1))
        else StoreLabels(slots, count, i, Records(lines, pos + 1))
  {
    var rec := LineRecord(lines[pos]);
    var rest := Records(lines, pos + 1);
    if rec.Some? {
      assert Records(lines, pos) == [rec.value] + rest;
      StoreLabelsStep(slots, count, i, rec.value, rest);
    } else {
      assert Records(lines, pos) == [] + rest == rest;
    }
  }

  /** read_asm_collisions: the j-th `tilecoll` line sets the labels of slot
      i + j, only while there are used slots left, and nothing else changes. */
  lemma {:induction false} StoreLabelsOutcome(slots: seq<Metatile>, count: nat, i: nat, records: seq<Labels>)
    requires |slots| == MaxMetatiles && i <= count <= MaxMetatiles
    ensures var r := StoreLabels(slots, count, i, records);
      var read := Min(|records|, count - i);
      && |r| == MaxMetatiles
      && (forall k :: 0 <= k < MaxMetatiles && !(i <= k < i + read) ==> r[k] == slots[k])
      && (forall k :: i <= k < i + read ==> r[k] == slots[k].(collisions := records[k - i]))
    decreases |records|
  {
    if i < count && records != [] {
      StoreLabelsOutcome(slots[i := slots[i].(collisions := records[0])], count, i + 1, records[1..]);
    }
  }

  /** write_asm_collisions, one line per used slot (without its newline):
      tab, `tilecoll`, the four labels separated by ", ", then " ; " and the
      slot number as two hex digits */
  function TilecollLine(m: Metatile, i: nat): string
    requires i < MaxMetatiles
  {
    "\ttilecoll " + m.collisions[0] + ", " + m.collisions[1] + ", " + m.collisions[2] + ", " + m.collisions[3]
      + " ; " + Hex2(i)
  }

  function EncodeAsmCollisions(ms: seq<Metatile>): (lines: seq<string>)
    requires |ms| <= MaxMetatiles
    ensures |lines| == |ms|
  {
    seq(|ms|, i requires 0 <= i < |ms| => TilecollLine(ms[i], i))
  }

  /** a label the text format can carry: no separator inside, no line
      break (it would split the written line) and no NUL (`%s` stops at it),
      and no white space at either end */
  predicate PlainLabel(l: string) {
    ',' !in l && ';' !in l && '\n' !in l && '\0' !in l && Trimmed(l)
  }

  /** A plain label survives the white space the writer puts around it. */
  lemma {:induction false} SpacedLabel(l: string)
    requires PlainLabel(l)
    ensures Trim(l) == l && Trim([' '] + l) == l && Trim(([' '] + l) + [' ']) == l
    ensures ',' !in [' '] + l && ';' !in ([' '] + l) + [' ']
  {
    assert Trim(l) == l by {
      TrimPadded([], l, []);
      assert [] + l + [] == l;
    }
    assert Trim([' '] + l) == l by {
      TrimPadded([' '], l, []);
      assert [' '] + l + [] == [' '] + l;
    }
    assert Trim(([' '] + l) + [' ']) == l by {
      TrimPadded([' '], l, [' ']);
    }
  }

  /** the text after `tilecoll ` on a written line, grouped so that each
      separator begins the rest of the line */
  function FieldText(c: Labels, h: string): string {
    c[0] + ([','] + (([' '] + c[1]) + ([','] + (([' '] + c[2]) + ([','] + ((([' '] + c[3]) + [' ']) + ([';'] + ([' '] + h))))))))
  }

  lemma {:induction false} TilecollLineShape(m: Metatile, i: nat)
    requires i < MaxMetatiles
    ensures TilecollLine(m, i) == "\t" + (Tilecoll + [' '] + FieldText(m.collisions, Hex2(i))) + ""
  {
  }

  /** The text after the directive splits back into the four labels. */
  lemma {:induction false} FieldsRoundTrip(c: Labels, h: string)
    requires forall q :: 0 <= q < NumQuadrants ==> PlainLabel(c[q])
    ensures TilecollFields(FieldText(c, h)) == c
  {
    assert c == [c[0], c[1], c[2], c[3]];
    var r3 := (([' '] + c[3]) + [' ']) + ([';'] + ([' '] + h));
    var r2 := ([' '] + c[2]) + ([','] + r3);
    var r1 := ([' '] + c[1]) + ([','] + r2);
    SpacedLabel(c[0]);
    SpacedLabel(c[1]);
    SpacedLabel(c[2]);
    SpacedLabel(c[3]);
    var p1 := SplitOnce(FieldText(c, h), ',');
    SplitOnceAt(c[0], ',', r1);
    var p2 := SplitOnce(p1.1, ',');
    SplitOnceAt([' '] + c[1], ',', r2);
    var p3 := SplitOnce(p2.1, ',');
    SplitOnceAt([' '] + c[2], ',', r3);
    var p4 := SplitOnce(p3.1, ';');
    SplitOnceAt(([' '] + c[3]) + [' '], ';', [' '] + h);
    assert TilecollFields(FieldText(c, h)) == [Trim(p1.0), Trim(p2.0), Trim(p3.0), Trim(p4.0)];
  }

  /** A written `tilecoll` line is read back as a `tilecoll` line carrying
      the same four labels. */
  lemma {:induction false} TilecollLineRoundTrip(m: Metatile, i: nat)
    requires i < MaxMetatiles
    requires forall q :: 0 <= q < NumQuadrants ==> PlainLabel(m.collisions[q])
    ensures LineRecord(TilecollLine(m, i)) == Some(m.collisions)
  {
    var body := FieldText(m.collisions, Hex2(i));
    var s := Tilecoll + [' '] + body;
    TilecollLineShape(m, i);
    assert s[|s| - 1] == Hex2(i)[1];
    TrimPadded("\t", s, "");
    assert s[..|Tilecoll|] == Tilecoll;
    assert Drop(s, |Tilecoll| + 1) == body;
    FieldsRoundTrip(m.collisions, Hex2(i));
  }

  /** the labels of each metatile, in order */
  function CollisionLabels(ms: seq<Metatile>): (labels: seq<Labels>)
    ensures |labels| == |ms| && forall j :: 0 <= j < |ms| ==> labels[j] == ms[j].collisions
  {
    seq(|ms|, j requires 0 <= j < |ms| => ms[j].collisions)
  }

  /** Every line is a `tilecoll` line, line j carrying `labels[j]`. */
  predicate TilecollLines(lines: seq<string>, labels: seq<Labels>) {
    && |lines| == |labels|
    && forall j :: 0 <= j < |lines| ==>
         LineRecord(lines[j]) == Some(labels[j])
  }

  /** The written lines are all `tilecoll` lines, carrying the labels of the
      metatiles in order. */
  lemma {:induction false} EncodedTilecollLines(ms: seq<Metatile>)
    requires |ms| <= MaxMetatiles
    requires forall j, q :: 0 <= j < |ms| && 0 <= q < NumQuadrants ==> PlainLabel(ms[j].collisions[q])
    ensures TilecollLines(EncodeAsmCollisions(ms), CollisionLabels(ms))
  {
    var lines := EncodeAsmCollisions(ms);
    forall j | 0 <= j < |lines|
      ensures LineRecord(lines[j]) == Some(CollisionLabels(ms)[j])
    {
      TilecollLineRoundTrip(ms[j], j);
    }
  }

  /** When every entry carries a record, they are collected in order. */
  lemma {:induction false} CollectAll(recs: seq<Option<Labels>>, pos: nat, labels: seq<Labels>)
    requires |recs| == |labels| && pos <= |recs|
    requires forall j :: 0 <= j < |recs| ==> recs[j] == Some(labels[j])
    ensures Collect(recs, pos) == labels[pos..]
    decreases |recs| - pos
  {
    if pos < |recs| {
      CollectAll(recs, pos + 1, labels);
      assert labels[pos..] == [labels[pos]] + labels[pos + 1..];
    }
  }

  /** The records of the written lines are the labels of the metatiles, in
      order. */
  lemma {:induction false} AsmCollisionsRecords(ms: seq<Metatile>)
    requires |ms| <= MaxMetatiles
    requires forall j, q :: 0 <= j < |ms| && 0 <= q < NumQuadrants ==> PlainLabel(ms[j].collisions[q])
    ensures Records(EncodeAsmCollisions(ms), 0) == CollisionLabels(ms)
  {
    EncodedTilecollLines(ms);
    CollectAll(LineRecords(EncodeAsmCollisions(ms)), 0, CollisionLabels(ms));
    assert CollisionLabels(ms)[0..] == CollisionLabels(ms);
  }

  /** Reading what write_asm_collisions wrote into a set with at least as
      many used slots restores every label of every written metatile. */
  lemma {:induction false} AsmCollisionsRoundTrip(slots: seq<Metatile>, count: nat, ms: seq<Metatile>)
    requires |slots| == MaxMetatiles && |ms| <= count <= MaxMetatiles
    requires forall j, q :: 0 <= j < |ms| && 0 <= q < NumQuadrants ==> PlainLabel(ms[j].collisions[q])
    ensures var r := ReadAsmCollisions(slots, count, 0, EncodeAsmCollisions(ms));
      && (forall j :: 0 <= j < |ms| ==> r[j] == slots[j].(collisions := ms[j].collisions))
      && (forall j :: |ms| <= j < MaxMetatiles ==> r[j] == slots[j])
  {
    var labels := CollisionLabels(ms);
    AsmCollisionsRecords(ms);
    assert ReadAsmCollisions(slots, count, 0, EncodeAsmCollisions(ms)) == StoreLabels(slots, count, 0, labels);
    StoreLabelsOutcome(slots, count, 0, labels);
    assert Min(|labels|, count) == |ms|;
  }

  // ---------------------------------------------------------------------
  // Binary collisions: 4 bytes per metatile

  /** read_bin_collisions from slot `i` on: every full 4-byte record sets the
      raw collision bytes of the next slot, stopping once slot count - 1 has
      been filled (further bytes are ignored); a trailing partial record
      before that is TooShort. There is no TooLong. */
  function ReadBinCollisions(slots: seq<Metatile>, count: nat, i: nat, data: seq<bv8>): (l: Load)
    requires |slots| == MaxMetatiles && i <= count <= MaxMetatiles
    ensures |l.slots| == MaxMetatiles && l.count == count && l.result != TooLong
    decreases |data|
  {
    if i == count || |data| == 0 then Load(slots, count, Ok)
    else if |data| < NumQuadrants then Load(slots, count, TooShort)
    else ReadBinCollisions(slots[i := slots[i].(binCollisions := data[..NumQuadrants])], count, i + 1, data[NumQuadrants..])
  }

  /** The number of records read_bin_collisions stores from slot i on: every
      full record, up to the last used slot. */
  function BinCollisionsRead(count: nat, i: nat, n: nat): nat
    requires i <= count
  {
    Min(n / NumQuadrants, count - i)
  }

  /** read_bin_collisions: only a partial record met before the used slots are
      filled is an error; bytes after that are ignored. */
  lemma {:induction false} ReadBinCollisionsResult(slots: seq<Metatile>, count: nat, i: nat, data: seq<bv8>)
    requires |slots| == MaxMetatiles && i <= count <= MaxMetatiles
    ensures ReadBinCollisions(slots, count, i, data).result ==
      if |data| / NumQuadrants < count - i && |data| % NumQuadrants != 0 then TooShort else Ok
    decreases |data|
  {
    if i < count && |data| >= NumQuadrants {
      ReadBinCollisionsResult(slots[i := slots[i].(binCollisions := data[..NumQuadrants])], count, i + 1, data[NumQuadrants..]);
    }
  }

  /** read_bin_collisions changes no slot outside the ones it stores into. */
  lemma {:induction false} ReadBinCollisionsKeeps(slots: seq<Metatile>, count: nat, i: nat, data: seq<bv8>, k: nat)
    requires |slots| == MaxMetatiles && i <= count <= MaxMetatiles && k < MaxMetatiles
    requires !(i <= k < i + BinCollisionsRead(count, i, |data|))
    ensures ReadBinCollisions(slots, count, i, data).slots[k] == slots[k]
    decreases |data|
  {
    if i < count && |data| >= NumQuadrants {
      ReadBinCollisionsKeeps(slots[i := slots[i].(binCollisions := data[..NumQuadrants])], count, i + 1, data[NumQuadrants..], k);
    }
  }

  /** read_bin_collisions: record j becomes the collision bytes of slot i + j. */
  lemma {:induction false} ReadBinCollisionsStores(slots: seq<Metatile>, count: nat, i: nat, data: seq<bv8>, k: nat)
    requires |slots| == MaxMetatiles && i <= count <= MaxMetatiles
    requires i <= k < i + BinCollisionsRead(count, i, |data|)
    ensures NumQuadrants * (k - i) + NumQuadrants <= |data|
    ensures ReadBinCollisions(slots, count, i, data).slots[k] ==
      slots[k].(binCollisions := Record(data, NumQuadrants, k - i))
    decreases |data|
  {
    var next := slots[i := slots[i].(binCollisions := data[..NumQuadrants])];
    var rest := data[NumQuadrants..];
    if k == i {
      ReadBinCollisionsKeeps(next, count, i + 1, rest, k);
    } else {
      ReadBinCollisionsStores(next, count, i + 1, rest, k);
      RecordShift(data, NumQuadrants, k - i - 1);
    }
  }

  function BinCollisionBlocks(ms: seq<Metatile>): (blocks: seq<seq<bv8>>)
    ensures |blocks| == |ms| && forall j :: 0 <= j < |ms| ==> blocks[j] == ms[j].binCollisions
  {
    seq(|ms|, j requires 0 <= j < |ms| => ms[j].binCollisions)
  }

  /** write_bin_collisions: the four raw bytes of each used slot */
  function EncodeBinCollisions(ms: seq<Metatile>): (data: seq<bv8>)
    ensures |data| == NumQuadrants * |ms|
  {
    Concat(BinCollisionBlocks(ms), NumQuadrants)
  }

  lemma {:induction false} EncodeBinCollisionsSnoc(ms: seq<Metatile>, m: Metatile)
    ensures EncodeBinCollisions(ms + [m]) == EncodeBinCollisions(ms) + m.binCollisions
  {
    assert BinCollisionBlocks(ms + [m]) == BinCollisionBlocks(ms) + [m.binCollisions];
    ConcatSnoc(BinCollisionBlocks(ms), m.binCollisions, NumQuadrants);
  }

  /** Reading written binary collisions into a set with at least as many used
      slots restores every collision byte and touches nothing else. */
  lemma {:induction false} BinCollisionsRoundTrip(slots: seq<Metatile>, count: nat, ms: seq<Metatile>)
    requires |slots| == MaxMetatiles && |ms| <= count <= MaxMetatiles
    ensures var l := ReadBinCollisions(slots, count, 0, EncodeBinCollisions(ms));
      && l.result == Ok
      && (forall j :: 0 <= j < |ms| ==> l.slots[j] == slots[j].(binCollisions := ms[j].binCollisions))
      && (forall j :: |ms| <= j < MaxMetatiles ==> l.slots[j] == slots[j])
  {
    var data := EncodeBinCollisions(ms);
    var l := ReadBinCollisions(slots, count, 0, data);
    assert BinCollisionsRead(count, 0, |data|) == |ms|;
    ReadBinCollisionsResult(slots, count, 0, data);
    forall j | 0 <= j < |ms| ensures l.slots[j] == slots[j].(binCollisions := ms[j].binCollisions) {
      ReadBinCollisionsStores(slots, count, 0, data, j);
      ConcatRecord(BinCollisionBlocks(ms), NumQuadrants, j);
    }
    forall j | |ms| <= j < MaxMetatiles ensures l.slots[j] == slots[j] {
      ReadBinCollisionsKeeps(slots, count, 0, data, j);
    }
  }

  // ---------------------------------------------------------------------
  // The collision loops as written, for a set with no used slots

  /** The slots the source's two collision loops store into, record after
      record: record j goes to slot i + j and the loop stops after the record
      that makes `++i == count`. With count == 0 that test never succeeds. */
  function SlotsWrittenAsWritten(count: nat, i: nat, records: nat): seq<nat>
    decreases records
  {
    if records == 0 then []
    else [i] + (if i + 1 == count then [] else SlotsWrittenAsWritten(count, i + 1, records - 1))
  }

  /** the slots i, i + 1, ..., i + n - 1 */
  function Run(i: nat, n: nat): (r: seq<nat>)
    ensures |r| == n && forall j :: 0 <= j < n ==> r[j] == i + j
    decreases n
  {
    if n == 0 then [] else [i] + Run(i + 1, n - 1)
  }

  /** With no used slots the as-written loops store record j into slot i + j
      for every record in the file. */
  lemma {:induction false} AsWrittenWithoutCount(i: nat, records: nat)
    ensures SlotsWrittenAsWritten(0, i, records) == Run(i, records)
    decreases records
  {
    if records > 0 {
      AsWrittenWithoutCount(i + 1, records - 1);
    }
  }

  /** So a file of 257 records read into a set with count == 0 is stored into
      slot 256, one past the 256-slot array. */
  lemma {:induction false} CountZeroOverrun()
    ensures |SlotsWrittenAsWritten(0, 0, 257)| == 257
    ensures SlotsWrittenAsWritten(0, 0, 257)[256] == MaxMetatiles
  {
    AsWrittenWithoutCount(0, 257);
  }

  /** With at least one used slot the as-written loops store exactly into the
      slots the model's readers use: slots i, i + 1, ... below count. */
  lemma {:induction false} AsWrittenWithCount(count: nat, i: nat, records: nat)
    requires i < count
    ensures SlotsWrittenAsWritten(count, i, records) == Run(i, Min(records, count - i))
    decreases records
  {
    if records > 0 && i + 1 < count {
      AsWrittenWithCount(count, i + 1, records - 1);
    }
  }
}
