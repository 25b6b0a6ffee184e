# polished-map metatile core, modelled in Dafny

polished-map is an editor for the block maps of Game Boy Pokémon
disassembly projects. This project models its core:

- the block set (`Metatileset`): 256 metatile slots, of which the first
  `count` are in use;
- the four on-disk formats the block set reads and writes:
  - tile ids (`*_metatiles.bin`, `*.bst`);
  - attribute bytes;
  - assembly `tilecoll` collision lines;
  - binary collision bytes;
- the rendering of a map into an RGB image;
- the guesses the map-options dialog makes from a `.blk` file name and the
  project's assembly files:
  - the map constant and the map size;
  - the tileset, the tileset names, and the tileset menu;
- the anchor grid of the resize dialog;
- the project-file path resolvers of `Config`.

The modules follow the source:

| module | file | contents |
|---|---|---|
| `Text` | `text.dfy` | the string helpers the source relies on: trimming, `getline` with a delimiter, `>>` of a word, an int or a char, `%02d` and `%02x` |
| `Metatiles` | `metatile.dfy` | the metatile value, the load result and its messages, and the attribute-byte encoding |
| `Codecs` | `codecs.dfy` | each reader and writer as a function on sequences, with round trips and the bounds of what a read touches |
| `Metatilesets` | `metatileset.dfy` | `class Metatileset`; its methods run the source's loops over an `array` of slots and are proved to compute the `Codecs` functions |
| `Compositing` | `compositing.dfy` | `print_rgb`'s painting loops over an `array3` image |
| `MapNames` | `map_names.dfy` | `guess_map_constant` and `guess_map_size` |
| `Tilesets` | `tilesets.dfy` | `guess_map_tileset`, `guess_tileset_names`, `add_tileset`, `original_name` and the tileset file extensions |
| `Anchors` | `anchors.dfy` | the resize dialog's anchor buttons |
| `Paths` | `paths.dfy` | `Config`'s path resolvers and `project_path_from_blk_path` |

The environment is passed in as parameters:

- A file is passed in as its contents: `Option<seq<bv8>>` or
  `Option<seq<string>>`, where `None` means the file cannot be opened.
- A writer returns what it would write. Its `canOpen` flag stands for
  whether the output file could be opened.
- `file_exists` is a predicate `present` on paths.
- The map's block ids (`blockAt`) and the tileset's pixels (`tilePixel`)
  are functions.

## Model

| member | source | states |
|---|---|---|
| Metatiles.ErrorMessage | src/metatileset.cpp:263-280 | every load result has a non-empty message |
| Metatiles.ErrorMessagesDistinct | src/metatileset.cpp:263-280 | different results have different messages |
| Metatiles.AttributeByteDecodes | src/metatileset.cpp:152-158 | decoding a written attribute byte gives back the palette masked with 0x87 and both flip flags; a clear flip reads back set only if the palette had that bit |
| Metatiles.WithAttributes | src/metatileset.cpp:149-158 | reading an attribute record changes only palettes and flips, each cell decoded from its own byte |
| Metatiles.AttributeBlock | src/metatileset.cpp:172-177 | each cell's byte is the palette or-ed with 0x08 for tile ids from 0x80, 0x20 for x-flip and 0x40 for y-flip |
| Metatiles.AttributeBlockRoundTrip | src/metatileset.cpp:152-177 | for palettes without bits 3-6, reading back a written attribute record restores palettes and both flips exactly |
| Codecs.ReadTileIds | src/metatileset.cpp:103-114 | a read keeps 256 slots and never lowers the count or raises it past 256 |
| Codecs.ReadTileIdsCount | src/metatileset.cpp:103-117 | the count grows by the whole records that fit; the result is TOO_LONG when more records than free slots are present, else TOO_SHORT for a partial last record, else OK |
| Codecs.ReadTileIdsKeeps | src/metatileset.cpp:107-113 | slots outside the appended range are untouched |
| Codecs.ReadTileIdsStores | src/metatileset.cpp:108-113 | the k-th appended slot takes its tile ids from the k-th 16-byte record |
| Codecs.EncodeTileIds | src/metatileset.cpp:123-131 | 16 bytes are written per used metatile |
| Codecs.TileIdsLayout | src/metatileset.cpp:125-128 | byte 16 j + 4 y + x of the file is tile (x, y) of metatile j |
| Codecs.TileIdsRoundTrip | src/metatileset.cpp:96-134 | reading a written tile-id file into free slots succeeds, appends exactly those metatiles' tile ids and changes nothing else |
| Codecs.ReadAttributes | src/metatileset.cpp:143-161 | an attribute read keeps the count and all 256 slots |
| Codecs.ReadAttributesResult | src/metatileset.cpp:144-164 | TOO_LONG when more records than used slots remain, else TOO_SHORT for a partial record, else OK |
| Codecs.ReadAttributesKeeps | src/metatileset.cpp:148-158 | slots beyond the records read are untouched |
| Codecs.ReadAttributesStores | src/metatileset.cpp:149-158 | slot k takes its attributes from record k |
| Codecs.EncodeAttributes | src/metatileset.cpp:170-181 | 16 bytes are written per used metatile |
| Codecs.AttributesRoundTrip | src/metatileset.cpp:136-184 | reading written attributes succeeds and restores palettes and flips of the written metatiles; tile ids, collisions and the other slots stay |
| Codecs.TilecollFields | src/metatileset.cpp:199-204 | a `tilecoll` line always yields four labels |
| Codecs.Records | src/metatileset.cpp:193-198 | the lines yield at most one record each |
| Codecs.StoreLabelsOutcome | src/metatileset.cpp:192-210 | record j goes to slot j for the first min(records, count) records; every other slot is unchanged |
| Codecs.EncodeAsmCollisions | src/metatileset.cpp:242-247 | one line is written per used metatile |
| Codecs.TilecollLineRoundTrip | src/metatileset.cpp:194-246 | a written `tilecoll` line parses back to the metatile's four labels, given labels without `,`, `;`, a line break, a NUL or blanks at either end |
| Codecs.AsmCollisionsRoundTrip | src/metatileset.cpp:186-250 | for labels of that kind, reading written collision lines restores every written metatile's labels and leaves the other slots alone |
| Codecs.ReadBinCollisions | src/metatileset.cpp:222-236 | a binary collision read keeps the count and never reports TOO_LONG |
| Codecs.ReadBinCollisionsResult | src/metatileset.cpp:222-236 | TOO_SHORT exactly when a partial record is reached before the used slots are filled |
| Codecs.ReadBinCollisionsKeeps | src/metatileset.cpp:228-231 | slots beyond the records read are untouched |
| Codecs.ReadBinCollisionsStores | src/metatileset.cpp:228-231 | slot k takes its four collision bytes from record k |
| Codecs.EncodeBinCollisions | src/metatileset.cpp:255-258 | 4 bytes are written per used metatile |
| Codecs.BinCollisionsRoundTrip | src/metatileset.cpp:216-261 | reading written binary collisions succeeds, restores them and leaves the other slots alone |
| Codecs.AsWrittenWithoutCount | src/metatileset.cpp:192-210 | with no used slots, the loops as written store record j into slot j for every record in the file |
| Codecs.CountZeroOverrun | src/metatileset.cpp:226-232 | so the 257th record of a file read with count 0 is stored into slot 256, past the array |
| Codecs.AsWrittenWithCount | src/metatileset.cpp:192-210 | with at least one used slot, the loops as written store into exactly the slots the corrected model uses |
| Metatilesets.WriteAttributeBlock | src/metatileset.cpp:172-178 | the cell loops write the attribute block of the metatile |
| Metatilesets.Metatileset.constructor | src/metatileset.cpp:11-16 | a new set has 256 cleared slots, none used, result NULL and no flags |
| Metatilesets.Metatileset.Clear | src/metatileset.cpp:25-34 | clear empties every slot, drops the tileset and resets count, result and flags |
| Metatilesets.Metatileset.Size | src/metatileset.cpp:36-43 | resizing keeps the first min(n, count) slots, clears the rest and marks the set modified |
| Metatilesets.Metatileset.PrintRgb | src/metatileset.cpp:67-94 | every pixel of the fresh h*32 by w*32 image gets the colour of its tile in the metatile of the block under it |
| Metatilesets.Metatileset.ReadMetatiles | src/metatileset.cpp:96-118 | NO_GFX without a tileset and BAD_FILE for an unopenable file, both changing nothing; otherwise slots, count and result are those of `ReadTileIds` |
| Metatilesets.Metatileset.WriteMetatiles | src/metatileset.cpp:120-134 | writes the tile ids of the used metatiles, or nothing when the file cannot be opened |
| Metatilesets.Metatileset.ReadAttributes | src/metatileset.cpp:136-165 | the same guards; otherwise the result of `Codecs.ReadAttributes` |
| Metatilesets.Metatileset.WriteAttributes | src/metatileset.cpp:167-184 | writes the attribute bytes of the used metatiles |
| Metatilesets.Metatileset.ScanLineInto | src/metatileset.cpp:194-208 | a `tilecoll` line stores its labels into slot i and reports it; any other line changes nothing |
| Metatilesets.Metatileset.StoreAsmCollisions | src/metatileset.cpp:192-210 | the line loop leaves the slots `Codecs.ReadAsmCollisions` describes |
| Metatilesets.Metatileset.ReadAsmCollisions | src/metatileset.cpp:186-214 | the same guards; otherwise OK, the collision labels stored and the binary flag cleared |
| Metatilesets.Metatileset.WriteAsmCollisions | src/metatileset.cpp:239-250 | writes one `tilecoll` line per used metatile |
| Metatilesets.Metatileset.ReadBinCollisions | src/metatileset.cpp:216-237 | the same guards; otherwise the result of `Codecs.ReadBinCollisions`, and the binary flag is set when it is OK |
| Metatilesets.Metatileset.WriteBinCollisions | src/metatileset.cpp:252-261 | writes the four collision bytes of each used metatile |
| Compositing.BlockPixelInTile | src/metatileset.cpp:75-86 | pixel (dx, dy) of a block is pixel (dx mod 8, dy mod 8) of the tile at (dx div 8, dy div 8) |
| Compositing.TilePixels | src/metatileset.cpp:75-88 | the same for all pixels of one tile |
| Compositing.ImagePixelInBlock | src/metatileset.cpp:71-74 | image pixel (X, Y) in block (x, y) is the block pixel at its offset, from the metatile of the map's block id |
| Compositing.PaintTile | src/metatileset.cpp:80-87 | painting a tile sets exactly its 8x8 square to the tile's colours |
| Compositing.PaintBlock | src/metatileset.cpp:73-89 | painting a block sets exactly its 32x32 square to the metatile's pixels |
| Compositing.SourceOffsetIsRowMajor | src/metatileset.cpp:79-83 | the source's buffer offset equals the row-major index of image pixel (X, Y), channel c |
| Compositing.RowMajorInjective | src/metatileset.cpp:69-70 | row-major indices lie inside the bw*bh*3 buffer and distinct pixels or channels never share one |
| MapNames.ToConstant | src/option-dialogs.cpp:126 | a character becomes an upper-case letter, a digit or `_`; these three are kept |
| MapNames.GuessMapConstant | src/option-dialogs.cpp:128-145 | the loop builds the upper-cased first character, the converted stem up to the first `.` with underscores at word breaks, and a comma |
| MapNames.MapConstantShape | src/option-dialogs.cpp:128-145 | the constant is the capitalised first character, one or two characters from [A-Z0-9_] per stem character, and a final comma |
| MapNames.ConstantNameKept | src/option-dialogs.cpp:134-142 | a name already in constant form is kept up to its extension |
| MapNames.RouteOneConstant | src/option-dialogs.cpp:136 | "routeOne.blk" gives "ROUTE_ONE," |
| MapNames.Rt1EntranceConstant | src/option-dialogs.cpp:137 | "RT1Entrance" gives "RT1_ENTRANCE," |
| MapNames.SizeTagRoundTrip | src/option-dialogs.cpp:159-168 | "P.WxH.blk" yields the digit runs W and H, for any prefix without line breaks |
| MapNames.SizeTagNumbers | src/option-dialogs.cpp:159-168 | a file name tagged with the decimal width and height yields exactly that size |
| MapNames.DefinedSize | src/option-dialogs.cpp:208-222 | a definition gives a size only when both numbers are in 1..255 |
| MapNames.FirstDefinition | src/option-dialogs.cpp:181-206 | the position of the first line that defines the constant; no earlier line does |
| MapNames.ScanMapConstants | src/option-dialogs.cpp:180-225 | the scan stops at the first definition; the group is the number of `newgroup` lines before it |
| MapNames.DefinitionSize | src/option-dialogs.cpp:190-222 | a `map_const` line reads width then height, a `mapgroup` or `mapconst` line height then width; a size outside 1..255 gives none |
| MapNames.GuessMapSize | src/option-dialogs.cpp:147-226 | a size tag in the name decides; else without constants nothing; else the first definition of the guessed constant, with the group counted up to it |
| Tilesets.TilesetFrom | src/option-dialogs.cpp:231-237 | a tag found is a non-empty [A-Za-z0-9_-] run that ends the name after a `.` |
| Tilesets.FilenameTileset | src/option-dialogs.cpp:231-237 | a tileset taken from the name is a non-empty [A-Za-z0-9_-] run |
| Tilesets.FilenameTilesetRoundTrip | src/option-dialogs.cpp:231-237 | "P.T.blk" yields tileset T |
| Tilesets.DecodeTilesetField | src/option-dialogs.cpp:272-290 | `TILESET_X` gives x in lower case; `$h` gives the hex value in `%02d`; a decimal is padded to two digits; anything else gives "" |
| Tilesets.DecimalFieldKey | src/option-dialogs.cpp:283-287 | a decimal tileset field gives the `%02d` key of its number |
| Tilesets.HexFieldKey | src/option-dialogs.cpp:276-282 | a `$` hex field gives the `%02d` key of its number |
| Tilesets.NamedFieldKey | src/option-dialogs.cpp:272-275 | a `TILESET_` field gives the lower-cased name |
| Tilesets.FieldsRoundTrip | src/option-dialogs.cpp:264-308 | splitting comma-joined fields returns the fields |
| Tilesets.HeaderLineRoundTrip | src/option-dialogs.cpp:253-312 | a header line for the map yields its tileset, environment, lower-cased landmark and palette; one for another map yields nothing |
| Tilesets.DbLineRoundTrip | src/option-dialogs.cpp:324-337 | a `db NAME` line yields the name in lower case |
| Tilesets.ScanLines | src/option-dialogs.cpp:252-313 | a scan returns the first line that answers, and nothing when no line does |
| Tilesets.GuessMapTileset | src/option-dialogs.cpp:228-342 | a name tag decides; else with the headers file the first matching header; else the map's own header's `db` line; an unopenable file gives "" |
| Tilesets.NamedAsStep | src/option-dialogs.cpp:359-367 | adding the next `const` name keeps both dictionaries keyed exactly by "01", "02", … with their pretty and lower-case names |
| Tilesets.GuessTilesetNames | src/option-dialogs.cpp:344-371 | the n-th `const` line is keyed by `%02d` of n, as "<key>: <name>" and in lower case; an unopenable file gives empty dictionaries |
| Tilesets.TilesetExtLen | src/option-dialogs.cpp:436-439 | `.colored.png` renders are skipped; otherwise `.2bpp.lz` has length 8, `.2bpp.unique.lz` 15 and `.png` 4 |
| Tilesets.TilesetExtStrips | src/option-dialogs.cpp:373-375 | a tileset file is offered under its name without the extension |
| Tilesets.TilesetMenu.constructor | src/option-dialogs.cpp:488-504 | a new menu has no items and no original names |
| Tilesets.TilesetMenu.OriginalName | src/option-dialogs.cpp:119-123 | the original name of a pretty name, or the name itself when none is recorded |
| Tilesets.TilesetMenu.AddTileset | src/option-dialogs.cpp:373-393 | the stripped name is returned; a two-digit name with a pretty name is shown under it and maps back to it; the menu gains the item once |
| Anchors.HorizontalAnchor | src/option-dialogs.cpp:550-554 | LEFT exactly when a left-column button is down, RIGHT exactly when none of those is but a right-column one is |
| Anchors.VerticalAnchor | src/option-dialogs.cpp:556-560 | TOP exactly when a top-row button is down, BOTTOM exactly when none of those is but a bottom-row one is |
| Anchors.FirstSelected | src/option-dialogs.cpp:563-565 | the first button down at or after i |
| Anchors.Anchor | src/option-dialogs.cpp:562-567 | the first button down, or 4 when none is |
| Anchors.Only | src/option-dialogs.cpp:621 | after `setonly` exactly one button is down |
| Anchors.AnchorDecomposes | src/option-dialogs.cpp:550-567 | with at most one button down, the horizontal and vertical anchors are the column and row of the anchor |
| Anchors.OnlyAnchor | src/option-dialogs.cpp:620-626 | after pressing button a, the anchor is a, in column a mod 3 and row a div 3 |
| Anchors.AnchorLabel | src/option-dialogs.cpp:573-577 | labels the button at (x, y) when it is on the grid and no other |
| Anchors.LabelRowAt | src/option-dialogs.cpp:627-635 | a row of three labels lands on the grid buttons of that row next to x |
| Anchors.ArrowAt | src/option-dialogs.cpp:620-637 | after pressing (x, y), the button at (col, row) shows the arrow for its offset |
| Anchors.AnchorButtonArrows | src/option-dialogs.cpp:620-637 | every button shows the arrow pointing away from the anchor, and buttons two steps away show none |
| Text.Before | src/config.cpp:20-21 | the text before the first `c` (`trim_suffix` with `.`, `remove_comment` with `;`): it holds no `c`, is a prefix followed by the `c` when there is one, and is the whole string when there is none |
| Paths.ResolveIndex | src/config.cpp:81-90 | the first candidate that exists, or the last one as a last resort |
| Paths.ResolvePicksFirst | src/config.cpp:81-90 | the path chosen is a candidate; every earlier candidate is absent; it is present unless it is the last |
| Paths.TilesetPath | src/config.cpp:81-90 | `.png`, then `.2bpp`, then `.2bpp.lz` under gfx/tilesets/ |
| Paths.TilesetPngPath | src/config.cpp:92-94 | always the `.png` candidate |
| Paths.MetatilesetCandidatesDistinct | src/config.cpp:96-107 | the three block-set candidates are different paths |
| Paths.MetatilesetPath | src/config.cpp:96-107 | data/tilesets/*_metatiles.bin, then gfx/blocksets/<name>.bst, then tilesets/*_metatiles.bin |
| Paths.PaletteMapCandidatesDistinct | src/config.cpp:67-79 | the three palette-map candidates are different paths |
| Paths.PaletteMapPath | src/config.cpp:67-79 | in monochrome mode the destination is unchanged; otherwise the first palette map present |
| Paths.MapConstantsPath | src/config.cpp:109-115 | map_dimension_constants.asm, then map_constants.asm |
| Paths.MapHeadersPath | src/config.cpp:117-123 | data/maps/maps.asm, then maps/map_headers.asm |
| Paths.TilesetConstantsCandidatesDistinct | src/config.cpp:125-131 | the two tileset-constants candidates differ |
| Paths.TilesetConstantsPath | src/config.cpp:125-131 | tileset_constants.asm, then tilemap_constants.asm |
| Paths.BgTilesPalPath | src/config.cpp:133-139 | gfx/tilesets/bg_tiles.pal, then tilesets/bg.pal |
| Paths.Depth | src/config.cpp:51-54 | the depth is the number of separators minus one |
| Paths.ProjectPathFromBlkPath | src/config.cpp:47-65 | found exactly when some level among the first depth ones above the map's directory holds main.asm; the path is the nearest such level |

## Left out

- `draw_metatile` (metatileset.cpp:45-65) is not modelled. It draws on the screen through FLTK.
- The tileset itself is not part of this model. The tileset class (`_tileset`), `Tile` and the palette decoding of pixels are stand-ins:
  - `Metatileset.numTiles` stands in for `_tileset.num_tiles()`;
  - `UseTileset` stands in for loading a tileset;
  - `print_rgb` receives the tile pixels, under the day palette, as a function `tilePixel`.
- `Map` (map.cpp) is not part of this model. `print_rgb` receives the block id at a position as `blockAt`.
- Metatilesets.Metatileset.PrintRgb: the source's flat `uchar` buffer is an `array3` indexed by row, column and channel. `Compositing.SourceOffsetIsRowMajor` proves that the source's offset arithmetic is that row-major layout, and `Compositing.RowMajorInjective` proves that the layout is one-to-one.
- Metatilesets.Metatileset.PrintRgb: the `int` product `bw * bh * 3` is not bounded, because the model's integers are unbounded. For maps of at most 255 by 255 blocks that product stays below 2^31.
- File I/O is replaced by file contents passed in and written contents returned:
  - reading a file in chunks;
  - `feof`;
  - `getline` over a stream;
  - `fopen` failures.
- Writers: `fclose` errors and short writes are not modelled.
- `Metatile(i)` in the constructor: the slot's index argument is not modelled; the metatile module is not part of this model, so every slot starts `Blank`.
- `error_message`'s `default` branch is not modelled: the model's `Result` has exactly the six listed values.
- `trim`, `starts_with`, `remove_comment`, `dir_name`, `file_exists` and `file_size` live in utils.cpp, which is not part of this model. `Text` defines them from their use here:
  - blanks are ASCII whitespace;
  - `dir_name` is the optional directory;
  - `file_exists` is `present`.
- Number parsing follows `>>` and `std::stoi` on well-formed input only:
  - a failed `>>` extraction leaves 0 (the source reads an uninitialised `int`);
  - `stoi` overflow, malformed `$` hex (an exception in the source), signs and `0x` prefixes are not modelled.
- Regular expressions: `std::regex_match` is modelled for the two patterns used. As in `std::regex` over `char`, `.` excludes only `\n` and `\r`; other locale effects are not modelled.
- Names and lines are taken as sequences of characters, not of bytes. The source works on `char` bytes, so a name with non-ASCII characters gives different results: `toconstant` turns each UTF-8 byte into `_` ("café.blk" gives "CAF__," in the source and "CAF_," in `MapNames.MapConstant`).
- The assembly collision file is modelled as its sequence of lines: `EncodeAsmCollisions` returns the lines without their `\n`, and `ReadAsmCollisions` receives them split. This holds for labels without a line break; the round trips require such labels (`Codecs.PlainLabel`).
- `FL_PATH_MAX` buffer limits are not modelled. Path separators are the POSIX `/`; the Windows `DIR_SEP` is not modelled.
- MapNames.GuessMapSize:
  - the file-size label (`_map_size`) and the spinner widgets are not modelled; the size is returned;
  - an empty base name is excluded by `requires`; `guess_map_constant` reads past it in the source;
  - the lines are classified before the scan; the order of effects is the same as the source's.
- Tilesets.GuessMapTileset:
  - at option-dialogs.cpp:246 the source uses the result of `map_headers_path`, which returns nothing in config.cpp:117-123, so whether the headers file exists is a parameter `headersExist`;
  - `map_header_path` is not part of this model, so the map's own header file is passed in as `mapHeader`.
- Tilesets.TilesetMenu.AddTileset: the FLTK menu is a sequence of labels. FLTK's label interpretation in `find_index`/`add` (`/`, `&`, `_`) is not modelled, and `text_width` and the widest-name bookkeeping are left out.
- `add_roof`, the selection loop of `limit_blk_options` (option-dialogs.cpp:440-450) and all other widget layout are not modelled. They are GUI code.
- Paths.ProjectPathFromBlkPath: the contents of `project_path` after a `false` return are not stated; callers ignore them.
- `Config::get`/`set` (preferences storage) and `palette_macro` are not modelled. They hold no logic.
- Codecs.StoreLabels, Codecs.ReadBinCollisions: these are the corrected readers of the finding below, and they store only into used slots. They therefore differ from the source for every non-empty collision file read with count 0, not only for long ones:
  - one `tilecoll` line: the source stores it into slot 0, and the model stores nothing;
  - a 3-byte binary file: the source returns TOO_SHORT, and the model returns OK;
  - `Metatileset.Valid()` (every slot from `count` on is blank) holds because of this correction. The as-written half of the finding (`Codecs.SlotsWrittenAsWritten`) models the slot indices only, not the results or the stored contents.

## Findings

| source | as written | input that shows it | evidently intended | confidence | as-written member | corrected member |
|---|---|---|---|---|---|---|
| src/metatileset.cpp:209, src/metatileset.cpp:231 | the collision loops stop only when `++i == _num_metatiles`, so with no used metatiles they never stop early and index `_metatiles[i]` for every record in the file | a collision file of 257 records (asm lines or 4-byte records) read into a block set with count 0: record 257 is stored into `_metatiles[256]`, one past the 256-slot array (with count 0 even a single record is stored into slot 0, which is not in use) | store into used slots only: stop before storing when `i == _num_metatiles` | not executed | Codecs.CountZeroOverrun | Codecs.StoreLabelsOutcome |
