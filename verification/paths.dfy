/** Where the program looks for the files of a project (config.cpp). Each
    resolver formats two or three candidate paths in priority order and
    answers the first one that exists, falling back to the last one without
    checking it. The file system is the predicate `present`, and the
    directory separator is the POSIX "/". */
module Paths {
  import opened Text

  /** Config::gfx_tileset_dir */
  const GfxTilesetDir: string := "gfx/tilesets/"

  /** trim_suffix(): the name up to its first '.', e.g. "overworld.t2" gives
      "overworld" */
  function TrimSuffix(s: string): string {
    Before(s, '.')
  }

  // ---------------------------------------------------------------------
  // Choosing among candidates

  /** no candidate is listed twice */
  predicate Distinct(c: seq<string>) {
    forall i, j :: 0 <= i < j < |c| ==> c[i] != c[j]
  }

  /** The position of the answer: the first candidate that exists, or the
      last one when none of the earlier ones does. */
  function ResolveIndex(c: seq<string>, present: string -> bool): (k: nat)
    requires c != []
    ensures k < |c|
    ensures forall i :: 0 <= i < k ==> !present(c[i])
    ensures k < |c| - 1 ==> present(c[k])
    decreases |c|
  {
    if |c| == 1 || present(c[0]) then 0 else 1 + ResolveIndex(c[1..], present)
  }

  /** the answer of a resolver over the candidates `c` */
  function Resolve(c: seq<string>, present: string -> bool): string
    requires c != []
  {
    c[ResolveIndex(c, present)]
  }

  /** `path` is candidate k exactly when no candidate before k exists and k
      itself exists or is the last one: the resolver's choice, spelled out
      for every candidate. */
  predicate PicksFirst(path: string, c: seq<string>, present: string -> bool)
    requires c != []
  {
    forall k :: 0 <= k < |c| ==>
      (path == c[k] <==> (forall i :: 0 <= i < k ==> !present(c[i])) && (k == |c| - 1 || present(c[k])))
  }

  /** With distinct candidates the answer is one of them and it is the first
      existing one; in particular it is the last one exactly when none of
      the others exists. */
  lemma {:induction false} ResolvePicksFirst(c: seq<string>, present: string -> bool)
    requires c != [] && Distinct(c)
    ensures Resolve(c, present) in c
    ensures PicksFirst(Resolve(c, present), c, present)
  {
    var m := ResolveIndex(c, present);
    forall k | 0 <= k < |c|
      ensures c[m] == c[k] <==> (forall i :: 0 <= i < k ==> !present(c[i])) && (k == |c| - 1 || present(c[k]))
    {
      if k < m {
        assert c[k] != c[m];
      } else if k > m {
        assert c[m] != c[k];
        if m < |c| - 1 {
          assert present(c[m]);
        }
      }
    }
  }

  // ---------------------------------------------------------------------
  // The resolvers

  function TilesetCandidates(root: string, tileset: string): seq<string> {
    [root + GfxTilesetDir + tileset + ".png",
     root + GfxTilesetDir + tileset + ".2bpp",
     root + GfxTilesetDir + tileset + ".2bpp.lz"]
  }

  /** Config::tileset_path */
  function TilesetPath(root: string, tileset: string, present: string -> bool): (path: string)
    ensures path in TilesetCandidates(root, tileset)
    ensures PicksFirst(path, TilesetCandidates(root, tileset), present)
  {
    var c := TilesetCandidates(root, tileset);
    ResolvePicksFirst(c, present);
    Resolve(c, present)
  }

  /** Config::tileset_png_path: the first tileset candidate, unchecked */
  function TilesetPngPath(root: string, tileset: string): (path: string)
    ensures path == TilesetCandidates(root, tileset)[0]
  {
    root + GfxTilesetDir + tileset + ".png"
  }

  /** Only the second candidate uses the name cut at its first '.'. */
  function MetatilesetCandidates(root: string, tileset: string): seq<string> {
    [root + "data/tilesets/" + tileset + "_metatiles.bin",
     root + "gfx/blocksets/" + TrimSuffix(tileset) + ".bst",
     root + "tilesets/" + tileset + "_metatiles.bin"]
  }

  /** The three directories differ in their first letter. */
  lemma {:induction false} MetatilesetCandidatesDistinct(root: string, tileset: string)
    ensures Distinct(MetatilesetCandidates(root, tileset))
  {
    var c := MetatilesetCandidates(root, tileset);
    assert c[0][|root|] == 'd' && c[1][|root|] == 'g' && c[2][|root|] == 't';
  }

  /** Config::metatileset_path */
  function MetatilesetPath(root: string, tileset: string, present: string -> bool): (path: string)
    ensures path in MetatilesetCandidates(root, tileset)
    ensures PicksFirst(path, MetatilesetCandidates(root, tileset), present)
  {
    var c := MetatilesetCandidates(root, tileset);
    MetatilesetCandidatesDistinct(root, tileset);
    ResolvePicksFirst(c, present);
    Resolve(c, present)
  }

  /** Only the second candidate uses the name cut at its first '.'. */
  function PaletteMapCandidates(root: string, tileset: string): seq<string> {
    [root + GfxTilesetDir + tileset + "_palette_map.asm",
     root + "color/tilesets/" + TrimSuffix(tileset) + ".asm",
     root + "tilesets/" + tileset + "_palette_map.asm"]
  }

  lemma {:induction false} PaletteMapCandidatesDistinct(root: string, tileset: string)
    ensures Distinct(PaletteMapCandidates(root, tileset))
  {
    var c := PaletteMapCandidates(root, tileset);
    assert c[0][|root|] == 'g' && c[1][|root|] == 'c' && c[2][|root|] == 't';
  }

  /** Config::palette_map_path: in monochrome mode the destination is left as
      it was */
  function PaletteMapPath(dest: string, root: string, tileset: string, monochrome: bool,
                          present: string -> bool): (path: string)
    ensures monochrome ==> path == dest
    ensures !monochrome ==> path in PaletteMapCandidates(root, tileset)
    ensures !monochrome ==> PicksFirst(path, PaletteMapCandidates(root, tileset), present)
  {
    if monochrome then dest
    else
      var c := PaletteMapCandidates(root, tileset);
      PaletteMapCandidatesDistinct(root, tileset);
      ResolvePicksFirst(c, present);
      Resolve(c, present)
  }

  function MapConstantsCandidates(root: string): seq<string> {
    [root + "constants/map_dimension_constants.asm", root + "constants/map_constants.asm"]
  }

  /** Config::map_constants_path */
  function MapConstantsPath(root: string, present: string -> bool): (path: string)
    ensures path in MapConstantsCandidates(root)
    ensures PicksFirst(path, MapConstantsCandidates(root), present)
  {
    var c := MapConstantsCandidates(root);
    ResolvePicksFirst(c, present);
    Resolve(c, present)
  }

  function MapHeadersCandidates(root: string): seq<string> {
    [root + "data/maps/maps.asm", root + "maps/map_headers.asm"]
  }

  /** Config::map_headers_path */
  function MapHeadersPath(root: string, present: string -> bool): (path: string)
    ensures path in MapHeadersCandidates(root)
    ensures PicksFirst(path, MapHeadersCandidates(root), present)
  {
    var c := MapHeadersCandidates(root);
    ResolvePicksFirst(c, present);
    Resolve(c, present)
  }

  function TilesetConstantsCandidates(root: string): seq<string> {
    [root + "constants/tileset_constants.asm", root + "constants/tilemap_constants.asm"]
  }

  /** The two names are as long as each other and part at "tiles"/"tilem". */
  lemma {:induction false} TilesetConstantsCandidatesDistinct(root: string)
    ensures Distinct(TilesetConstantsCandidates(root))
  {
    var c := TilesetConstantsCandidates(root);
    assert c[0][|root| + 14] == 's' && c[1][|root| + 14] == 'm';
  }

  /** Config::tileset_constants_path */
  function TilesetConstantsPath(root: string, present: string -> bool): (path: string)
    ensures path in TilesetConstantsCandidates(root)
    ensures PicksFirst(path, TilesetConstantsCandidates(root), present)
  {
    var c := TilesetConstantsCandidates(root);
    TilesetConstantsCandidatesDistinct(root);
    ResolvePicksFirst(c, present);
    Resolve(c, present)
  }

  function BgTilesPalCandidates(root: string): seq<string> {
    [root + "gfx/tilesets/bg_tiles.pal", root + "tilesets/bg.pal"]
  }

  /** Config::bg_tiles_pal_path */
  function BgTilesPalPath(root: string, present: string -> bool): (path: string)
    ensures path in BgTilesPalCandidates(root)
    ensures PicksFirst(path, BgTilesPalCandidates(root), present)
  {
    var c := BgTilesPalCandidates(root);
    ResolvePicksFirst(c, present);
    Resolve(c, present)
  }

  // ---------------------------------------------------------------------
  // Finding the project directory

  predicate IsSeparator(c: char) { c == '/' || c == '\\' }

  /** the number of separators in `s` */
  function Separators(s: string): nat
    decreases |s|
  {
    if s == [] then 0
    else Separators(s[..|s| - 1]) + (if IsSeparator(s[|s| - 1]) then 1 else 0)
  }

  /** `s` written `k` times */
  function Repeat(s: string, k: nat): (r: string)
    ensures |r| == k * |s|
  {
    if k == 0 then [] else Repeat(s, k - 1) + s
  }

  /** the directory probed after `k` misses */
  function Probe(dir: string, k: nat): string {
    dir + Repeat("../", k)
  }

  /** the number of directories tried: one less than the separators in the
      blk file's directory */
  method Depth(dir: string) returns (depth: int)
    ensures depth == Separators(dir) - 1
  {
    depth := -1;
    for i := 0 to |dir|
      invariant depth == Separators(dir[..i]) - 1
    {
      assert dir[..i + 1][..i] == dir[..i];
      depth := depth + if IsSeparator(dir[i]) then 1 else 0;
    }
    assert dir[..|dir|] == dir;
  }

  /** Config::project_path_from_blk_path, given the directory of the blk
      file (None when dir_name fails): tries the directory and up to
      depth - 1 levels above it, one "../" at a time, for a main.asm. On
      success the answer is the first directory holding one. */
  method ProjectPathFromBlkPath(dir: Option<string>, present: string -> bool) returns (found: bool, path: string)
    ensures dir.None? ==> !found
    ensures dir.Some? ==>
      (found <==> exists k :: 0 <= k < Separators(dir.value) - 1 && present(Probe(dir.value, k) + "main.asm"))
    ensures found ==> (exists k :: 0 <= k < Separators(dir.value) - 1 && path == Probe(dir.value, k)
                         && present(path + "main.asm")
                         && forall j :: 0 <= j < k ==> !present(Probe(dir.value, j) + "main.asm"))
  {
    if dir.None? {
      return false, [];
    }
    var depth := Depth(dir.value);
    path := dir.value;
    var i := 0;
    while i < depth
      invariant 0 <= i && (depth < 0 || i <= depth)
      invariant path == Probe(dir.value, i)
      invariant forall j :: 0 <= j < i ==> !present(Probe(dir.value, j) + "main.asm")
      decreases depth - i
    {
      if present(path + "main.asm") {
        return true, path;
      }
      path := path + "../";
      i := i + 1;
    }
    found := false;
  }
}
