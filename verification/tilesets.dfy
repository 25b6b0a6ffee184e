/** How the new-map dialog guesses a map's tileset (option-dialogs.cpp):
    from a tag in the file name, from the map's line in the map headers
    file, or from the `db` line of the map's own header file; and how it
    names the tilesets it offers, from the tileset constants. Files are
    their lines, None when they cannot be opened. */
module Tilesets {
  import opened Text
  import opened Paths
  import opened MapNames

  // ---------------------------------------------------------------------
  // The tileset tag of a file name

  /** `\.[A-Za-z0-9_-]+` against the whole of `r` */
  predicate NameTag(r: string) {
    |r| >= 2 && r[0] == '.' && forall m :: 1 <= m < |r| ==> IsNameChar(r[m])
  }

  /** The leading `.+` is greedy and matches no line terminator: the split
      after s[..k] is tried for k from the right. */
  function TilesetFrom(s: string, k: nat): (t: Option<string>)
    requires k <= |s|
    ensures t.Some? ==> t.value != [] && (forall m :: 0 <= m < |t.value| ==> IsNameChar(t.value[m]))
                        && |t.value| + 1 < |s| && EndsWith(s, ['.'] + t.value)
    decreases k
  {
    if k == 0 then None
    else if (forall m :: 0 <= m < k ==> !IsLineTerminator(s[m])) && NameTag(s[k..]) then
      assert s[k..][1..] == s[k + 1..];
      assert s[|s| - |s[k + 1..]| - 1..] == ['.'] + s[k + 1..];
      Some(s[k + 1..])
    else TilesetFrom(s, k - 1)
  }

  /** guess_map_tileset's match of `.+\.([A-Za-z0-9_-]+)\.[Bb][Ll][Kk]`
      against the whole file name: the name it captures */
  function FilenameTileset(f: string): (t: Option<string>)
    ensures t.Some? ==> t.value != [] && forall m :: 0 <= m < |t.value| ==> IsNameChar(t.value[m])
  {
    match BlkStem(f)
    case None => None
    case Some(s) => TilesetFrom(s, |s|)
  }

  /** After the last split point only name characters follow, none of them
      a '.', so none of those splits starts a tag. */
  lemma {:induction false} NoNameTagInside(s: string, k: nat, from: nat)
    requires from <= k <= |s|
    requires forall m :: from < m < |s| ==> s[m] != '.'
    ensures TilesetFrom(s, k) == TilesetFrom(s, from)
    decreases k
  {
    if k > from {
      if k < |s| {
        assert s[k..][0] == s[k];
      }
      assert !NameTag(s[k..]);
      NoNameTagInside(s, k - 1, from);
    }
  }

  /** "<P>.<T>.blk" gives T for any prefix P without line breaks and any
      name T of letters, digits, '_' and '-'. */
  lemma {:induction false} FilenameTilesetRoundTrip(prefix: string, name: string, ext: string)
    requires prefix != [] && forall m :: 0 <= m < |prefix| ==> !IsLineTerminator(prefix[m])
    requires name != [] && forall m :: 0 <= m < |name| ==> IsNameChar(name[m])
    requires BlkExtension(ext)
    ensures FilenameTileset(prefix + "." + name + ext) == Some(name)
  {
    var s := prefix + "." + name;
    var f := s + ext;
    assert BlkStem(f) == Some(s) by {
      assert f[|f| - 4..] == ext && f[..|f| - 4] == s;
    }
    assert TilesetFrom(s, |prefix|) == Some(name) by {
      assert s[|prefix|..] == "." + name;
      assert s[..|prefix|] == prefix;
      assert s[|prefix| + 1..] == name;
    }
    forall m | |prefix| < m < |s|
      ensures s[m] != '.'
    {
      assert s[m] == name[m - |prefix| - 1];
    }
    NoNameTagInside(s, |s|, |prefix|);
  }

  // ---------------------------------------------------------------------
  // The tileset field of a map header

  const TilesetPrefix: string := "TILESET_"

  /** guess_map_tileset's reading of the tileset field: TILESET_X is the
      lower-case x, $hh the hexadecimal number in two or more decimal
      digits, a decimal number is padded to two digits, anything else is
      no tileset */
  function DecodeTilesetField(f: string): (r: string)
    ensures StartsWith(f, TilesetPrefix) ==>
      |r| == |f| - |TilesetPrefix| && forall i :: 0 <= i < |r| ==> r[i] == ToLower(f[|TilesetPrefix| + i])
    ensures !StartsWith(f, TilesetPrefix) && StartsWith(f, "$") ==>
      |r| >= 2 && AllDigits(r) && DecimalValue(r) == HexPrefixValue(f[1..])
    ensures !StartsWith(f, TilesetPrefix) && !StartsWith(f, "$") && AllDigits(f) ==>
      AllDigits(r) && DecimalValue(r) == DecimalValue(f) && (|f| == 1 ==> |r| == 2) && (|f| != 1 ==> r == f)
    ensures !StartsWith(f, TilesetPrefix) && !StartsWith(f, "$") && !AllDigits(f) ==> r == []
  {
    if StartsWith(f, TilesetPrefix) then Lower(f[|TilesetPrefix|..])
    else if StartsWith(f, "$") then Pad2(HexPrefixValue(f[1..]))
    else if AllDigits(f) then
      if |f| == 1 then
        assert DecimalValue(['0'] + f) == DecimalValue(f) by {
          assert (['0'] + f)[..1] == ['0'];
        }
        ['0'] + f
      else f
    else []
  }

  /** A tileset number written in decimal is read as its "%02d", the key
      the tileset constants give the same number. */
  lemma {:induction false} DecimalFieldKey(n: nat)
    ensures DecodeTilesetField(Decimal(n)) == Pad2(n)
  {
    var d := Decimal(n);
    assert !StartsWith(d, TilesetPrefix) by {
      if |d| >= 8 { assert d[..8][0] == d[0]; }
    }
    assert !StartsWith(d, "$") by { assert d[..1][0] == d[0]; }
    if n < 10 {
      assert d == [DigitChar(n)];
    }
  }

  /** A tileset number written as "$" and two hexadecimal digits is read as
      its "%02d". */
  lemma {:induction false} HexFieldKey(n: nat)
    requires n < 256
    ensures DecodeTilesetField("$" + Hex2(n)) == Pad2(n)
  {
    var h := Hex2(n);
    var f := "$" + h;
    assert f[0] == '$' && f[1..] == h && f[..1] == "$";
    FirstIndexAt(h, c => !IsHexDigit(c), 2);
    assert h[..2] == h && h[..1] == [h[0]] && h[..1][..0] == [];
    assert HexValue(h[..1]) == n / 16;
  }

  /** A TILESET_ constant is read as its name in lower case. */
  lemma {:induction false} NamedFieldKey(name: string)
    ensures DecodeTilesetField(TilesetPrefix + name) == Lower(name)
  {
    var f := TilesetPrefix + name;
    assert f[..|TilesetPrefix|] == TilesetPrefix && f[|TilesetPrefix|..] == name;
  }

  // ---------------------------------------------------------------------
  // Comma-separated fields

  /** `n` successive `std::getline(lss, field, ',')`, untrimmed */
  function Fields(s: string, n: nat): (fs: seq<string>)
    ensures |fs| == n
    decreases n
  {
    if n == 0 then [] else var (f, rest) := SplitOnce(s, ','); [f] + Fields(rest, n - 1)
  }

  /** the fields written with a ',' between each two */
  function Join(fs: seq<string>): string
    requires fs != []
  {
    if |fs| == 1 then fs[0] else fs[0] + ([','] + Join(fs[1..]))
  }

  /** a character none of the fields holds is in none of their joins */
  lemma {:induction false} JoinAvoids(fs: seq<string>, c: char)
    requires fs != [] && c != ',' && forall i :: 0 <= i < |fs| ==> c !in fs[i]
    ensures c !in Join(fs)
  {
    if |fs| > 1 {
      JoinAvoids(fs[1..], c);
    }
  }

  /** Joined fields without commas split back into themselves. */
  lemma {:induction false} FieldsRoundTrip(fs: seq<string>)
    requires fs != [] && forall i :: 0 <= i < |fs| ==> ',' !in fs[i]
    ensures Fields(Join(fs), |fs|) == fs
  {
    if |fs| == 1 {
      SplitOnceJoin(fs[0], ',');
    } else {
      SplitOnceAt(fs[0], ',', Join(fs[1..]));
      FieldsRoundTrip(fs[1..]);
      assert fs == [fs[0]] + fs[1..];
    }
  }

  // ---------------------------------------------------------------------
  // Map header lines

  /** what a map header line says about the map */
  datatype HeaderFields = HeaderFields(tileset: string, environment: string, landmark: string, palette: string)

  /** The reading of one line of the map headers file: a `map_header` or
      `map` line whose label is the map's name gives its tileset, its
      environment as written, its landmark in lower case and its palette
      (the seventh field); music and phone service are skipped. */
  function HeaderLine(line: string, mapName: string): Option<HeaderFields> {
    var t := Trim(RemoveComment(line));
    var (macro, rest) := ReadWord(t);
    if macro != Some("map_header") && macro != Some("map") then None
    else
      var fs := Fields(rest, 7);
      if Trim(fs[0]) != mapName then None
      else Some(HeaderFields(DecodeTilesetField(Trim(fs[1])), Trim(fs[2]), Lower(Trim(fs[3])), Trim(fs[6])))
  }

  /** A header line written as the macro and seven fields (label, tileset,
      environment, landmark, music, phone service, palette) gives back the
      decoded tileset, the environment, the lower-case landmark and the
      palette for the map it labels, and nothing for any other map. */
  lemma {:induction false} HeaderLineRoundTrip(macro: string, fs: seq<string>, mapName: string)
    requires macro == "map_header" || macro == "map"
    requires |fs| == 7 && forall i :: 0 <= i < 7 ==> ',' !in fs[i] && ';' !in fs[i]
    requires fs[0] != [] && fs[0][0] == ' '
    requires fs[6] != [] && !IsSpace(fs[6][|fs[6]| - 1])
    ensures HeaderLine(macro + Join(fs), mapName) ==
      if Trim(fs[0]) == mapName
      then Some(HeaderFields(DecodeTilesetField(Trim(fs[1])), Trim(fs[2]), Lower(Trim(fs[3])), Trim(fs[6])))
      else None
  {
    HeaderLineMacro(macro, fs);
    FieldsRoundTrip(fs);
  }

  /** such a line is clean, and its first word is the macro */
  lemma {:induction false} HeaderLineMacro(macro: string, fs: seq<string>)
    requires macro == "map_header" || macro == "map"
    requires |fs| == 7 && forall i :: 0 <= i < 7 ==> ',' !in fs[i] && ';' !in fs[i]
    requires fs[0] != [] && fs[0][0] == ' '
    requires fs[6] != [] && !IsSpace(fs[6][|fs[6]| - 1])
    ensures ReadWord(Trim(RemoveComment(macro + Join(fs)))) == (Some(macro), Join(fs))
  {
    var j := Join(fs);
    var line := macro + j;
    JoinAvoids(fs, ';');
    JoinEnds(fs);
    assert line[0] == macro[0] && line[|line| - 1] == j[|j| - 1];
    CleanLine(line);
    MacroWord(macro);
    assert IsSpace(j[0]);
    ReadWordAt(macro, j);
  }

  /** both header macros are single words */
  lemma {:induction false} MacroWord(macro: string)
    requires macro == "map_header" || macro == "map"
    ensures macro != [] && forall i :: 0 <= i < |macro| ==> !IsSpace(macro[i])
  {
  }

  /** the ends of joined fields are the ends of the first and last ones */
  lemma {:induction false} JoinEnds(fs: seq<string>)
    requires fs != [] && fs[0] != [] && fs[|fs| - 1] != []
    ensures Join(fs) != [] && Join(fs)[0] == fs[0][0]
    ensures Join(fs)[|Join(fs)| - 1] == fs[|fs| - 1][|fs[|fs| - 1]| - 1]
  {
    if |fs| > 1 {
      JoinLast(fs);
    }
  }

  lemma {:induction false} JoinLast(fs: seq<string>)
    requires |fs| > 1 && fs[|fs| - 1] != []
    ensures Join(fs) != [] && Join(fs)[|Join(fs)| - 1] == fs[|fs| - 1][|fs[|fs| - 1]| - 1]
    decreases |fs|
  {
    if |fs| > 2 {
      JoinLast(fs[1..]);
    }
  }

  /** The reading of one line of a map's own header file: a `db` line gives
      the word after `db` in lower case, or "" when there is none. */
  function DbLine(line: string): Option<string> {
    var t := Trim(RemoveComment(line));
    var (db, rest) := ReadWord(t);
    if db != Some("db") then None else Some(Lower(ReadWord(rest).0.GetOr([])))
  }

  /** "db <name>" gives the name in lower case. */
  lemma {:induction false} DbLineRoundTrip(name: string)
    requires name != [] && ';' !in name && forall i :: 0 <= i < |name| ==> !IsSpace(name[i])
    ensures DbLine("db" + ([' '] + name)) == Some(Lower(name))
  {
    var rest := [' '] + name;
    var line := "db" + rest;
    assert line[0] == 'd' && line[|line| - 1] == name[|name| - 1];
    CleanLine(line);
    ReadWordAt("db", rest);
    SpacedWord(name);
  }

  /** a line without a comment or white space at its ends reads as itself */
  lemma {:induction false} CleanLine(line: string)
    requires ';' !in line && Trimmed(line)
    ensures Trim(RemoveComment(line)) == line
  {
    SplitOnceJoin(line, ';');
    TrimmedTrim(line);
  }

  /** `>> word` of a space and a word */
  lemma {:induction false} SpacedWord(w: string)
    requires w != [] && forall i :: 0 <= i < |w| ==> !IsSpace(w[i])
    ensures ReadWord([' '] + w).0 == Some(w)
  {
    LeadingSpacesAre([' '] + w, 1);
    assert TrimLeft([' '] + w) == w == w + [];
    ReadWordAt(w, []);
  }

  /** each line read for the map */
  function HeaderRecords(lines: seq<string>, mapName: string): (recs: seq<Option<HeaderFields>>)
    ensures |recs| == |lines|
  {
    seq(|lines|, j requires 0 <= j < |lines| => HeaderLine(lines[j], mapName))
  }

  function DbRecords(lines: seq<string>): (recs: seq<Option<string>>)
    ensures |recs| == |lines|
  {
    seq(|lines|, j requires 0 <= j < |lines| => DbLine(lines[j]))
  }

  /** the first line that answers, if any */
  function FirstAnswer<T>(recs: seq<Option<T>>): Option<T> {
    var k := FirstIndex(recs, (r: Option<T>) => r.Some?);
    if k < |recs| then recs[k] else None
  }

  /** The `while (ifs.good())` loops of guess_map_tileset: the lines are
      read in order and the first one that answers ends the search. */
  method ScanLines<T>(recs: seq<Option<T>>) returns (r: Option<T>)
    ensures r == FirstAnswer(recs)
    ensures r.None? <==> forall j :: 0 <= j < |recs| ==> recs[j].None?
  {
    var i := 0;
    while i < |recs|
      invariant i <= |recs|
      invariant forall j :: 0 <= j < i ==> recs[j].None?
    {
      if recs[i].Some? {
        FirstIndexAt(recs, (r: Option<T>) => r.Some?, i);
        return recs[i];
      }
      i := i + 1;
    }
    FirstIndexAt(recs, (r: Option<T>) => r.Some?, i);
    return None;
  }

  /** Map_Options_Dialog::guess_map_tileset. `headersExist` says whether a
      map headers file was found; `headers` are its lines and `mapHeader`
      the lines of the map's own header file (None when it cannot be
      opened). A tag in the file name decides at once; otherwise the map's
      name, the base name up to its first '.', is looked up. The header
      fields come back only from the headers file. */
  method GuessMapTileset(filename: Option<string>, headersExist: bool,
                         headers: Option<seq<string>>, mapHeader: Option<seq<string>>)
    returns (tileset: string, fields: Option<HeaderFields>)
    ensures filename.None? ==> tileset == [] && fields.None?
    ensures filename.Some? && FilenameTileset(filename.value).Some? ==>
      tileset == FilenameTileset(filename.value).value && fields.None?
    ensures filename.Some? && FilenameTileset(filename.value).None? ==>
      var mapName := TrimSuffix(BaseName(filename.value));
      if headersExist then
        fields == (if headers.None? then None else FirstAnswer(HeaderRecords(headers.value, mapName)))
        && tileset == (if fields.Some? then fields.value.tileset else [])
      else
        fields.None?
        && tileset == (if mapHeader.None? then [] else FirstAnswer(DbRecords(mapHeader.value)).GetOr([]))
  {
    if filename.None? {
      return [], None;
    }
    var tag := FilenameTileset(filename.value);
    if tag.Some? {
      return tag.value, None;
    }
    var mapName := TrimSuffix(BaseName(filename.value));
    if headersExist {
      if headers.None? {
        return [], None;
      }
      fields := ScanLines(HeaderRecords(headers.value, mapName));
      tileset := if fields.Some? then fields.value.tileset else [];
    } else {
      fields := None;
      if mapHeader.None? {
        return [], None;
      }
      var name := ScanLines(DbRecords(mapHeader.value));
      tileset := name.GetOr([]);
    }
  }

  // ---------------------------------------------------------------------
  // Tileset names

  /** the tileset a line of the tileset constants names: a `const` line
      gives the next word without its TILESET_ prefix; when there is no
      next word the word stays "const" */
  function ConstToken(line: string): Option<string> {
    var (w, rest) := ReadWord(line);
    if w != Some("const") then None
    else
      var token := ReadWord(rest).0.GetOr("const");
      Some(if StartsWith(token, TilesetPrefix) then token[|TilesetPrefix|..] else token)
  }

  function ConstRecords(lines: seq<string>): (recs: seq<Option<string>>)
    ensures |recs| == |lines|
  {
    seq(|lines|, j requires 0 <= j < |lines| => ConstToken(lines[j]))
  }

  /** the names of the `const` lines, in order */
  function Answers(recs: seq<Option<string>>): seq<string> {
    if recs == [] then []
    else Answers(recs[..|recs| - 1]) + match recs[|recs| - 1] { case Some(t) => [t] case None => [] }
  }

  /** the keys "%02d" of 1 to n */
  function KeySet(n: nat): set<string> {
    set k | 1 <= k <= n :: Pad2(k)
  }

  /** the n-th name counted from 1 is keyed "%02d" of n, and there are no
      other keys */
  predicate NamedAs(pretty: map<string, string>, guessable: map<string, string>, names: seq<string>) {
    && pretty.Keys == KeySet(|names|) && guessable.Keys == KeySet(|names|)
    && forall n :: 1 <= n <= |names| ==>
         Pad2(n) in pretty && pretty[Pad2(n)] == Pad2(n) + ": " + names[n - 1]
         && Pad2(n) in guessable && guessable[Pad2(n)] == Lower(names[n - 1])
  }

  lemma {:induction false} AnswersStep(recs: seq<Option<string>>, i: nat)
    requires i < |recs|
    ensures Answers(recs[..i + 1]) == Answers(recs[..i]) + match recs[i] { case Some(t) => [t] case None => [] }
  {
    assert recs[..i + 1][..i] == recs[..i];
  }

  /** The next number's key is a new one. */
  lemma {:induction false} KeySetStep(n: nat)
    ensures Pad2(n + 1) !in KeySet(n)
    ensures KeySet(n + 1) == KeySet(n) + {Pad2(n + 1)}
  {
  }

  /** One more name is keyed by the next number, which no earlier name
      has. */
  lemma {:induction false} NamedAsStep(pretty: map<string, string>, guessable: map<string, string>, names: seq<string>, token: string)
    requires NamedAs(pretty, guessable, names)
    ensures var key := Pad2(|names| + 1);
      NamedAs(pretty[key := key + ": " + token], guessable[key := Lower(token)], names + [token])
  {
    var key := Pad2(|names| + 1);
    var names' := names + [token];
    KeySetStep(|names|);
    var pretty', guessable' := pretty[key := key + ": " + token], guessable[key := Lower(token)];
    forall n | 1 <= n <= |names'|
      ensures Pad2(n) in pretty' && pretty'[Pad2(n)] == Pad2(n) + ": " + names'[n - 1]
      ensures Pad2(n) in guessable' && guessable'[Pad2(n)] == Lower(names'[n - 1])
    {
      NamedAsEntry(pretty, guessable, names, token, n);
    }
  }

  /** the n-th entry after one more name is added */
  lemma {:induction false} NamedAsEntry(pretty: map<string, string>, guessable: map<string, string>, names: seq<string>, token: string, n: nat)
    requires NamedAs(pretty, guessable, names) && 1 <= n <= |names| + 1
    ensures var key := Pad2(|names| + 1);
      var pretty', guessable' := pretty[key := key + ": " + token], guessable[key := Lower(token)];
      Pad2(n) in pretty' && pretty'[Pad2(n)] == Pad2(n) + ": " + (names + [token])[n - 1]
      && Pad2(n) in guessable' && guessable'[Pad2(n)] == Lower((names + [token])[n - 1])
  {
    if n <= |names| {
      KeySetStep(|names|);
      assert Pad2(n) in KeySet(|names|);
      assert (names + [token])[n - 1] == names[n - 1];
    }
  }

  /** Map_Options_Dialog::guess_tileset_names, given the lines of the tileset
      constants file (None when it cannot be opened): the n-th `const` line
      is keyed "%02d" of n, with the pretty name "<key>: <name>" and the
      guessable name in lower case. */
  method GuessTilesetNames(lines: Option<seq<string>>)
    returns (pretty: map<string, string>, guessable: map<string, string>)
    ensures lines.None? ==> pretty == map[] && guessable == map[]
    ensures lines.Some? ==> NamedAs(pretty, guessable, Answers(ConstRecords(lines.value)))
  {
    pretty, guessable := map[], map[];
    if lines.None? {
      return;
    }
    var recs := ConstRecords(lines.value);
    var id := 1;
    for i := 0 to |recs|
      invariant id == |Answers(recs[..i])| + 1
      invariant NamedAs(pretty, guessable, Answers(recs[..i]))
    {
      AnswersStep(recs, i);
      if recs[i].Some? {
        var token := recs[i].value;
        var key := Pad2(id);
        NamedAsStep(pretty, guessable, Answers(recs[..i]), token);
        pretty := pretty[key := key + ": " + token];
        guessable := guessable[key := Lower(token)];
        id := id + 1;
      }
    }
    assert recs[..|recs|] == recs;
  }

  // ---------------------------------------------------------------------
  // The tileset menu

  /** the length of the extension that marks a tileset file: 0 for the
      ".colored.png" renders, which are skipped, and for other files */
  function TilesetExtLen(name: string): (n: nat)
    ensures n == 0 || n == 4 || n == 8 || n == 15
    ensures n > 0 ==> n <= |name| && !EndsWith(name, ".colored.png")
    ensures n == 8 <==> !EndsWith(name, ".colored.png") && EndsWith(name, ".2bpp.lz")
    ensures n == 15 <==> !EndsWith(name, ".colored.png") && !EndsWith(name, ".2bpp.lz") && EndsWith(name, ".2bpp.unique.lz")
    ensures n == 4 <==> !EndsWith(name, ".colored.png") && !EndsWith(name, ".2bpp.lz") && !EndsWith(name, ".2bpp.unique.lz") && EndsWith(name, ".png")
  {
    if EndsWith(name, ".colored.png") then 0
    else if EndsWith(name, ".2bpp.lz") then 8
    else if EndsWith(name, ".2bpp.unique.lz") then 15
    else if EndsWith(name, ".png") then 4
    else 0
  }

  /** A tileset file is offered under its name without the extension. */
  lemma {:induction false} TilesetExtStrips(stem: string, ext: string)
    requires ext == ".2bpp.lz" || ext == ".2bpp.unique.lz" || ext == ".png"
    requires !EndsWith(stem + ext, ".colored.png")
    ensures TilesetExtLen(stem + ext) == |ext|
    ensures (stem + ext)[..|stem + ext| - TilesetExtLen(stem + ext)] == stem
  {
    var f := stem + ext;
    assert f[|f| - |ext|..] == ext;
    if ext == ".2bpp.unique.lz" {
      assert f[|f| - 8..] == ext[|ext| - 8..];
      assert !EndsWith(f, ".2bpp.lz") by { assert f[|f| - 8..][0] != ".2bpp.lz"[0]; }
    }
    if ext == ".png" {
      assert !EndsWith(f, ".2bpp.lz") by { assert f[|f| - 1] != ".2bpp.lz"[7]; }
      assert !EndsWith(f, ".2bpp.unique.lz") by { assert f[|f| - 1] != ".2bpp.unique.lz"[14]; }
    }
    assert f[..|f| - |ext|] == stem;
  }

  /** a name of two decimal digits, as "%02d" writes small numbers */
  predicate TwoDigits(p: string) { |p| == 2 && IsDigit(p[0]) && IsDigit(p[1]) }

  /** The tileset choices of the dialog: the names in the menu, and the
      number each pretty name stands for. */
  class TilesetMenu {
    var items: seq<string>
    var originals: map<string, string>

    /** Map_Options_Dialog::initialize_content: no choices, no originals */
    constructor ()
      ensures items == [] && originals == map[]
    {
      items, originals := [], map[];
    }

    /** Map_Options_Dialog::original_name: the number a pretty name stands
        for, or the name itself */
    function OriginalName(pretty: string): (o: string)
      reads this
      ensures pretty in originals ==> o == originals[pretty]
      ensures pretty !in originals ==> o == pretty
    {
      if pretty in originals then originals[pretty] else pretty
    }

    /** Map_Options_Dialog::add_tileset: the name without its extension is
        returned; a two-digit name with a pretty name is offered under it
        and remembered as its original; a name not yet offered is added. */
    method AddTileset(t: string, extLen: nat, pretty: map<string, string>) returns (v: string)
      requires extLen <= |t|
      modifies this
      ensures v == t[..|t| - extLen]
      ensures var p := if TwoDigits(v) && v in pretty then pretty[v] else v;
        && originals == (if TwoDigits(v) && v in pretty then old(originals)[p := v] else old(originals))
        && items == (if p in old(items) then old(items) else old(items) + [p])
      ensures TwoDigits(v) && v in pretty ==> OriginalName(pretty[v]) == v
    {
      v := t[..|t| - extLen];
      var p := v;
      if TwoDigits(p) && p in pretty {
        p := pretty[v];
        originals := originals[p := v];
      }
      if p !in items {
        items := items + [p];
      }
    }
  }
}
