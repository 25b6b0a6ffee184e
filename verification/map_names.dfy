/** Guessing a map's size from its file name or from the project's map
    constants (option-dialogs.cpp): the file name's camelCase stem becomes an
    UPPER_SNAKE constant such as "ROUTE_ONE,", a "<W>x<H>" tag in the file
    name gives the size outright, and otherwise the first constants line
    that defines that constant does. */
module MapNames {
  import opened Text

  // ---------------------------------------------------------------------
  // guess_map_constant

  /** toconstant(): letters and digits in upper case, anything else '_' */
  function ToConstant(c: char): (r: char)
    ensures IsUpperOrDigit(r) || r == '_'
    ensures IsUpper(c) || IsDigit(c) || c == '_' ==> r == c
  {
    if IsAlnum(c) then ToUpper(c) else '_'
  }

  /** the characters converted after the first one: up to the next '.', so
      the extension and any tags are ignored */
  function Stem(name: string): (body: string)
    requires name != []
    ensures '.' !in body && StartsWith(name[1..], body)
  {
    Before(name[1..], '.')
  }

  /** the character compared with body[i]: the converted first character of
      the name, then the raw previous character */
  function Prev(first: char, body: string, i: nat): char
    requires i <= |body|
  {
    if i == 0 then ToConstant(first) else body[i - 1]
  }

  /** An underscore goes before body[i] after a lower-case letter followed by
      an upper-case letter or digit ("routeOne": "ROUTE_ONE"), and inside a
      run of capitals before the capital that starts a word ("RTEntrance":
      "RT_ENTRANCE"). */
  predicate Break(first: char, body: string, i: nat)
    requires i < |body|
  {
    var prev, c := Prev(first, body, i), body[i];
    (IsLower(prev) && IsUpperOrDigit(c))
    || (i < |body| - 1 && IsUpperOrDigit(prev) && IsUpper(c) && IsLower(body[i + 1]))
  }

  /** what body[i] becomes in the constant */
  function Piece(first: char, body: string, i: nat): string
    requires i < |body|
  {
    (if Break(first, body, i) then "_" else "") + [ToConstant(body[i])]
  }

  /** the pieces of body[..k] */
  function Pieces(first: char, body: string, k: nat): (r: string)
    requires k <= |body|
    ensures k <= |r| <= 2 * k
    ensures forall j :: 0 <= j < |r| ==> IsUpperOrDigit(r[j]) || r[j] == '_'
  {
    if k == 0 then [] else Pieces(first, body, k - 1) + Piece(first, body, k - 1)
  }

  /** the constant guessed for a map file name */
  function MapConstant(name: string): (r: string)
    requires name != []
  {
    [ToUpper(name[0])] + Pieces(name[0], Stem(name), |Stem(name)|) + [',']
  }

  /** guess_map_constant: the name's first character in upper case, then the
      stem character by character, then a comma. The source leaves an empty
      name undefined. */
  method GuessMapConstant(name: string) returns (constant: string)
    requires name != []
    ensures constant == MapConstant(name)
  {
    var prev := ToConstant(name[0]);
    constant := [ToUpper(name[0])];
    var body := Stem(name);
    var n := |body|;
    for i := 0 to n
      invariant constant == [ToUpper(name[0])] + Pieces(name[0], body, i)
      invariant prev == Prev(name[0], body, i)
    {
      var c := body[i];
      var underscore := if (IsLower(prev) && IsUpperOrDigit(c))
        || (i < n - 1 && IsUpperOrDigit(prev) && IsUpper(c) && IsLower(body[i + 1])) then "_" else "";
      prev := c;
      constant := constant + underscore + [ToConstant(c)];
    }
    constant := constant + [','];
  }

  /** The constant is the upper-cased first character, one or two characters
      from [A-Z0-9_] per stem character, and a final comma. */
  lemma {:induction false} MapConstantShape(name: string)
    requires name != []
    ensures var r, n := MapConstant(name), |Stem(name)|;
      n + 2 <= |r| <= 2 * n + 2 && r[0] == ToUpper(name[0]) && r[|r| - 1] == ','
      && forall j :: 1 <= j < |r| - 1 ==> IsUpperOrDigit(r[j]) || r[j] == '_'
  {
    var body := Stem(name);
    var p := Pieces(name[0], body, |body|);
    var r := MapConstant(name);
    assert r == [ToUpper(name[0])] + p + [','];
    forall j | 1 <= j < |r| - 1
      ensures IsUpperOrDigit(r[j]) || r[j] == '_'
    {
      assert r[j] == p[j - 1];
    }
  }

  /** A stem of capitals, digits and underscores after a first character
      that is not lower case needs no conversion: the constant is the name up
      to its extension, with a comma. */
  lemma {:induction false} ConstantNameKept(name: string)
    requires name != [] && !IsLower(name[0])
    requires forall j :: 0 <= j < |Stem(name)| ==> IsUpperOrDigit(Stem(name)[j]) || Stem(name)[j] == '_'
    ensures MapConstant(name) == [name[0]] + Stem(name) + [',']
  {
    var body := Stem(name);
    assert !IsLower(Prev(name[0], body, 0));
    PiecesKept(name[0], body, |body|);
  }

  lemma {:induction false} PiecesKept(first: char, body: string, k: nat)
    requires k <= |body| && !IsLower(ToConstant(first))
    requires forall j :: 0 <= j < |body| ==> IsUpperOrDigit(body[j]) || body[j] == '_'
    ensures Pieces(first, body, k) == body[..k]
  {
    if k > 0 {
      PiecesKept(first, body, k - 1);
      assert !Break(first, body, k - 1);
      assert body[..k] == body[..k - 1] + [body[k - 1]];
    }
  }

  /** the stem of a name whose first '.' comes at index k + 1 */
  lemma {:induction false} StemBeforeDot(name: string, k: nat)
    requires k + 1 < |name| && name[k + 1] == '.' && '.' !in name[1..k + 1]
    ensures Stem(name) == name[1..k + 1]
  {
    assert name[1..] == name[1..k + 1] + (['.'] + name[k + 2..]);
    SplitOnceAt(name[1..k + 1], '.', name[k + 2..]);
  }

  lemma {:induction false} RouteOnePieces(body: string)
    requires body == "outeOne"
    ensures Pieces('r', body, 7) == "OUTE_ONE"
  {
    assert Pieces('r', body, 2) == "OU";
    assert Pieces('r', body, 4) == "OUTE";
    assert Pieces('r', body, 5) == "OUTE_O";
  }

  /** the stem of a name without a '.' after its first character */
  lemma {:induction false} StemWithoutDot(name: string)
    requires name != [] && '.' !in name[1..]
    ensures Stem(name) == name[1..]
  {
    SplitOnceJoin(name[1..], '.');
  }

  /** "routeOne.blk" gives "ROUTE_ONE" and the comma */
  lemma {:induction false} RouteOneConstant(name: string)
    requires name == "routeOne.blk"
    ensures MapConstant(name) == "ROUTE_ONE,"
  {
    StemBeforeDot(name, 7);
    RouteOnePieces(name[1..8]);
    assert "ROUTE_ONE," == ['R'] + "OUTE_ONE" + [','];
  }

  lemma {:induction false} Rt1EntranceFront(body: string)
    requires body == "T1Entrance"
    ensures Pieces('R', body, 5) == "T1_ENT"
  {
    assert Piece('R', body, 0) == "T" && Piece('R', body, 1) == "1" && Piece('R', body, 2) == "_E";
    assert Piece('R', body, 3) == "N" && Piece('R', body, 4) == "T";
    assert Pieces('R', body, 1) == "T" && Pieces('R', body, 2) == "T1";
    assert Pieces('R', body, 3) == "T1_E" && Pieces('R', body, 4) == "T1_EN";
  }

  lemma {:induction false} Rt1EntrancePieces(body: string)
    requires body == "T1Entrance"
    ensures Pieces('R', body, 10) == "T1_ENTRANCE"
  {
    Rt1EntranceFront(body);
    assert Piece('R', body, 5) == "R" && Piece('R', body, 6) == "A" && Piece('R', body, 7) == "N";
    assert Piece('R', body, 8) == "C" && Piece('R', body, 9) == "E";
    assert Pieces('R', body, 6) == "T1_ENTR" && Pieces('R', body, 7) == "T1_ENTRA";
    assert Pieces('R', body, 8) == "T1_ENTRAN" && Pieces('R', body, 9) == "T1_ENTRANC";
  }

  /** "RT1Entrance" (no extension) gives "RT1_ENTRANCE" and the comma */
  lemma {:induction false} Rt1EntranceConstant(name: string)
    requires name == "RT1Entrance"
    ensures MapConstant(name) == "RT1_ENTRANCE,"
  {
    assert '.' !in name[1..];
    StemWithoutDot(name);
    Rt1EntrancePieces(name[1..]);
    assert "RT1_ENTRANCE," == ['R'] + "T1_ENTRANCE" + [','];
  }

  // ---------------------------------------------------------------------
  // The size tag of a file name

  /** characters the regular expression's `.` does not match: std::regex
      over `char` excludes only these two */
  predicate IsLineTerminator(c: char) {
    c == '\n' || c == '\r'
  }

  /** [A-Za-z0-9_-] */
  predicate IsNameChar(c: char) { IsAlnum(c) || c == '_' || c == '-' }

  /** `\.[Bb][Ll][Kk]` */
  predicate BlkExtension(s: string) {
    |s| == 4 && s[0] == '.' && ToLower(s[1]) == 'b' && ToLower(s[2]) == 'l' && ToLower(s[3]) == 'k'
  }

  /** the file name without a final ".blk" in any case */
  function BlkStem(f: string): Option<string> {
    if |f| >= 4 && BlkExtension(f[|f| - 4..]) then Some(f[..|f| - 4]) else None
  }

  /** `\.([0-9]+)x([0-9]+)(?:\.[A-Za-z0-9_-]+)?` against the whole of `r`:
      both numbers are maximal digit runs, so the match is unique */
  function SizeTag(r: string): Option<(int, int)> {
    if r == [] || r[0] != '.' then None
    else
      var t := r[1..];
      var i := FirstIndex(t, c => !IsDigit(c));
      if i == 0 || i == |t| || t[i] != 'x' then None
      else
        var u := t[i + 1..];
        var j := FirstIndex(u, c => !IsDigit(c));
        if j == 0 then None
        else if j == |u| || (u[j] == '.' && j + 1 < |u| && forall m :: j + 1 <= m < |u| ==> IsNameChar(u[m]))
        then Some((DecimalValue(t[..i]), DecimalValue(u[..j])))
        else None
  }

  /** The leading `.+` is greedy and matches no line terminator: the
      split after s[..k] is tried for k from the right. */
  function DimensionsFrom(s: string, k: nat): Option<(int, int)>
    requires k <= |s|
  {
    if k == 0 then None
    else if (forall m :: 0 <= m < k ==> !IsLineTerminator(s[m])) && SizeTag(s[k..]).Some? then SizeTag(s[k..])
    else DimensionsFrom(s, k - 1)
  }

  /** guess_map_size's match of `.+\.([0-9]+)x([0-9]+)(?:\.[A-Za-z0-9_-]+)?\.[Bb][Ll][Kk]`
      against the whole file name: the width and height it captures */
  function FilenameDimensions(f: string): Option<(int, int)> {
    match BlkStem(f)
    case None => None
    case Some(s) => DimensionsFrom(s, |s|)
  }

  /** After the last split point nothing but digits and the 'x' follow, so
      none of those splits can start a tag. */
  lemma {:induction false} NoTagInside(s: string, k: nat, from: nat)
    requires from <= k <= |s|
    requires forall m :: from < m < |s| ==> s[m] != '.'
    ensures DimensionsFrom(s, k) == DimensionsFrom(s, from)
    decreases k
  {
    if k > from {
      if k < |s| {
        assert s[k..][0] == s[k];
      }
      assert SizeTag(s[k..]).None?;
      NoTagInside(s, k - 1, from);
    }
  }

  /** predicate of the digit runs the tag is made of */
  predicate AllDigits(s: string) { forall i :: 0 <= i < |s| ==> IsDigit(s[i]) }

  /** the tag ".<W>x<H>" reads back as W by H */
  lemma {:induction false} SizeTagDigits(dw: string, dh: string)
    requires dw != [] && dh != [] && AllDigits(dw) && AllDigits(dh)
    ensures SizeTag("." + dw + "x" + dh) == Some((DecimalValue(dw) as int, DecimalValue(dh) as int))
  {
    var r := "." + dw + "x" + dh;
    var t := r[1..];
    assert t == dw + "x" + dh;
    assert t[|dw|] == 'x' && t[..|dw|] == dw;
    var notDigit := c => !IsDigit(c);
    assert forall j :: 0 <= j < |dw| ==> !notDigit(t[j]) by {
      forall j | 0 <= j < |dw| ensures !notDigit(t[j]) { assert t[j] == dw[j]; }
    }
    FirstIndexAt(t, notDigit, |dw|);
    var u := t[|dw| + 1..];
    assert u == dh;
    FirstIndexAt(u, notDigit, |dh|);
    assert u[..|dh|] == dh;
  }

  /** no '.' follows the one that starts the tag */
  lemma {:induction false} TagHasOneDot(prefix: string, dw: string, dh: string)
    requires AllDigits(dw) && AllDigits(dh)
    ensures var s := prefix + "." + dw + "x" + dh;
      forall m :: |prefix| < m < |s| ==> s[m] != '.'
  {
    var s := prefix + "." + dw + "x" + dh;
    var v := "." + dw + "x" + dh;
    assert s == prefix + v;
    forall m | |prefix| < m < |s|
      ensures s[m] != '.'
    {
      assert s[m] == v[m - |prefix|];
      if m - |prefix| <= |dw| {
        assert v[m - |prefix|] == dw[m - |prefix| - 1];
      } else if m - |prefix| > |dw| + 1 {
        assert v[m - |prefix|] == dh[m - |prefix| - |dw| - 2];
      }
    }
  }

  /** the split right after the prefix finds the tag */
  lemma {:induction false} SizeTagAfter(prefix: string, dw: string, dh: string)
    requires prefix != [] && forall m :: 0 <= m < |prefix| ==> !IsLineTerminator(prefix[m])
    requires dw != [] && dh != [] && AllDigits(dw) && AllDigits(dh)
    ensures var s := prefix + "." + dw + "x" + dh;
      DimensionsFrom(s, |prefix|) == Some((DecimalValue(dw) as int, DecimalValue(dh) as int))
  {
    var s := prefix + "." + dw + "x" + dh;
    assert s[|prefix|..] == "." + dw + "x" + dh;
    assert s[..|prefix|] == prefix;
    SizeTagDigits(dw, dh);
  }

  /** the stem "<P>.<W>x<H>": only the last split point starts a tag */
  lemma {:induction false} SizeTagStem(prefix: string, dw: string, dh: string)
    requires prefix != [] && forall m :: 0 <= m < |prefix| ==> !IsLineTerminator(prefix[m])
    requires dw != [] && dh != [] && AllDigits(dw) && AllDigits(dh)
    ensures var s := prefix + "." + dw + "x" + dh;
      DimensionsFrom(s, |s|) == Some((DecimalValue(dw) as int, DecimalValue(dh) as int))
  {
    var s := prefix + "." + dw + "x" + dh;
    SizeTagAfter(prefix, dw, dh);
    TagHasOneDot(prefix, dw, dh);
    NoTagInside(s, |s|, |prefix|);
  }

  /** "<P>.<W>x<H>.blk" gives W by H for any prefix P without line breaks
      and any digit runs W and H. */
  lemma {:induction false} SizeTagRoundTrip(prefix: string, dw: string, dh: string, ext: string)
    requires prefix != [] && forall m :: 0 <= m < |prefix| ==> !IsLineTerminator(prefix[m])
    requires dw != [] && dh != [] && AllDigits(dw) && AllDigits(dh)
    requires BlkExtension(ext)
    ensures FilenameDimensions(prefix + "." + dw + "x" + dh + ext) == Some((DecimalValue(dw) as int, DecimalValue(dh) as int))
  {
    var s := prefix + "." + dw + "x" + dh;
    var f := s + ext;
    assert BlkStem(f) == Some(s) by {
      assert f[|f| - 4..] == ext && f[..|f| - 4] == s;
    }
    SizeTagStem(prefix, dw, dh);
  }

  /** A file named "<P>.<W>x<H>.blk", with W and H written in decimal, is
      W blocks wide and H high. */
  lemma {:induction false} SizeTagNumbers(prefix: string, w: nat, h: nat, ext: string)
    requires prefix != [] && forall m :: 0 <= m < |prefix| ==> !IsLineTerminator(prefix[m])
    requires BlkExtension(ext)
    ensures FilenameDimensions(prefix + "." + Decimal(w) + "x" + Decimal(h) + ext) == Some((w, h))
  {
    SizeTagRoundTrip(prefix, Decimal(w), Decimal(h), ext);
  }

  // ---------------------------------------------------------------------
  // The constants scan

  /** how the scan reads a trimmed line: a new map group, a definition whose
      numbers come width first (map_const) or height first (mapgroup,
      mapconst) with its text after the keyword and one separator, or
      anything else */
  datatype Directive = NewGroup | Dims(widthFirst: bool, rest: string) | Skip

  function Classify(line: string): Directive {
    ClassifyTrimmed(Trim(line))
  }

  function ClassifyTrimmed(t: string): Directive {
    if StartsWith(t, "newgroup") && CharAt(t, 8) != ':' then NewGroup
    else if StartsWith(t, "map_const") then Dims(true, Drop(t, 10))
    else if StartsWith(t, "mapgroup") then Dims(false, Drop(t, 9))
    else if StartsWith(t, "mapconst") then Dims(false, Drop(t, 9))
    else Skip
  }

  /** every line of a file, classified */
  function Directives(lines: seq<string>): (ds: seq<Directive>)
    ensures |ds| == |lines|
  {
    seq(|lines|, j requires 0 <= j < |lines| => Classify(lines[j]))
  }

  /** the directive defines the constant */
  predicate Defines(d: Directive, constant: string) {
    d.Dims? && StartsWith(d.rest, constant)
  }

  /** `>> a >> comma >> b`: a failed extraction leaves 0, and so does every
      one after it */
  function ReadPair(s: string): (int, int) {
    var (a, r) := ReadInt(s);
    if a.None? then (0, 0)
    else
      var (c, r2) := ReadChar(r);
      if c.None? then (a.value, 0) else (a.value, ReadInt(r2).0.GetOr(0))
  }

  /** the size a definition gives: width and height in the keyword's order,
      accepted only when both lie in 1..255 */
  function DefinedSize(d: Directive, constant: string): (size: Option<(int, int)>)
    requires Defines(d, constant)
    ensures size.Some? ==> 1 <= size.value.0 <= 255 && 1 <= size.value.1 <= 255
  {
    var (a, b) := ReadPair(d.rest[|constant|..]);
    var (w, h) := if d.widthFirst then (a, b) else (b, a);
    if 1 <= w <= 255 && 1 <= h <= 255 then Some((w, h)) else None
  }

  /** the number of new-group lines */
  function NewGroups(ds: seq<Directive>): nat {
    if ds == [] then 0
    else NewGroups(ds[..|ds| - 1]) + if ds[|ds| - 1].NewGroup? then 1 else 0
  }

  /** one more line counts one more group when it is a new-group line */
  lemma {:induction false} NewGroupsStep(ds: seq<Directive>, i: nat)
    requires i < |ds|
    ensures NewGroups(ds[..i + 1]) == NewGroups(ds[..i]) + if ds[i].NewGroup? then 1 else 0
  {
    assert ds[..i + 1][..i] == ds[..i];
  }

  /** the position of the first definition of the constant */
  function FirstDefinition(ds: seq<Directive>, constant: string): (k: nat)
    ensures k <= |ds|
    ensures forall j :: 0 <= j < k ==> !Defines(ds[j], constant)
    ensures k < |ds| ==> Defines(ds[k], constant)
  {
    FirstIndex(ds, d => Defines(d, constant))
  }

  /** The constants scan of guess_map_size over the classified lines: the
      first definition of the constant decides, whatever its numbers; the
      group is the number of new-group lines before it. */
  method ScanMapConstants(ds: seq<Directive>, constant: string) returns (size: Option<(int, int)>, group: nat)
    ensures var k := FirstDefinition(ds, constant);
      group == NewGroups(ds[..k]) && size == if k < |ds| then DefinedSize(ds[k], constant) else None
  {
    group := 0;
    var i := 0;
    while i < |ds|
      invariant i <= |ds|
      invariant forall j :: 0 <= j < i ==> !Defines(ds[j], constant)
      invariant group == NewGroups(ds[..i])
    {
      NewGroupsStep(ds, i);
      if ds[i].NewGroup? {
        group := group + 1;
      } else if Defines(ds[i], constant) {
        FirstIndexAt(ds, d => Defines(d, constant), i);
        return DefinedSize(ds[i], constant), group;
      }
      i := i + 1;
    }
    assert ds[..i] == ds;
    FirstIndexAt(ds, d => Defines(d, constant), i);
    size := None;
  }

  /** A definition line reads its numbers in the keyword's order: a
      "map_const" line gives width then height, a "mapgroup" or "mapconst"
      line height then width; sizes outside 1..255 are refused. */
  lemma {:induction false} DefinitionSize(keyword: string, widthFirst: bool, constant: string, da: string, db: string)
    requires (keyword == "map_const" && widthFirst) || (keyword == "mapgroup" && !widthFirst)
      || (keyword == "mapconst" && !widthFirst)
    requires constant != [] && constant[|constant| - 1] == ','
    requires da != [] && AllDigits(da) && db != [] && AllDigits(db)
    ensures var d := Classify(keyword + " " + constant + " " + da + ", " + db);
      var (x, y) := (DecimalValue(da) as int, DecimalValue(db) as int);
      var (w, h) := if widthFirst then (x, y) else (y, x);
      Defines(d, constant) && DefinedSize(d, constant) == if 1 <= w <= 255 && 1 <= h <= 255 then Some((w, h)) else None
  {
    var tail := " " + da + ", " + db;
    assert keyword + " " + constant + " " + da + ", " + db == keyword + " " + constant + tail;
    DefinitionLine(keyword, widthFirst, constant, tail);
    assert (constant + tail)[|constant|..] == tail;
    ReadPairDigits(da, db);
  }

  /** the pair written as "<a>, <b>" reads back */
  lemma {:induction false} ReadPairDigits(da: string, db: string)
    requires da != [] && AllDigits(da) && db != [] && AllDigits(db)
    ensures ReadPair(" " + da + ", " + db) == (DecimalValue(da) as int, DecimalValue(db) as int)
  {
    var r2 := " " + db;
    var r := [','] + r2;
    var s := " " + da + r;
    PairText(da, db);
    ReadDigits(" ", da, r);
    ReadCharFirst(',', r2);
    ReadDigitsToEnd(" ", db);
    ReadPairOf(s, r, r2, DecimalValue(da), DecimalValue(db));
  }

  /** "<a>, <b>" as the first number, the comma and the rest */
  lemma {:induction false} PairText(da: string, db: string)
    ensures " " + da + ", " + db == " " + da + ([','] + (" " + db))
  {
    assert ", " + db == [','] + (" " + db);
  }

  /** `>> a >> comma >> b` succeeding step by step */
  lemma {:induction false} ReadPairOf(s: string, r: string, r2: string, a: int, b: int)
    requires ReadInt(s) == (Some(a), r) && ReadChar(r) == (Some(','), r2) && ReadInt(r2).0 == Some(b)
    ensures ReadPair(s) == (a, b)
  {
  }

  /** `>> n` of white space and a run of digits up to the end */
  lemma {:induction false} ReadDigitsToEnd(pre: string, d: string)
    requires forall j :: 0 <= j < |pre| ==> IsSpace(pre[j])
    requires d != [] && AllDigits(d)
    ensures ReadInt(pre + d) == (Some(DecimalValue(d) as int), [])
  {
    assert pre + d + [] == pre + d;
    ReadDigits(pre, d, []);
  }

  /** `>> n` of white space, a run of digits and then a non-digit */
  lemma {:induction false} ReadDigits(pre: string, d: string, rest: string)
    requires forall j :: 0 <= j < |pre| ==> IsSpace(pre[j])
    requires d != [] && AllDigits(d)
    requires rest == [] || !IsDigit(rest[0])
    ensures ReadInt(pre + d + rest) == (Some(DecimalValue(d) as int), rest)
  {
    var s := pre + d + rest;
    LeadingSpacesAre(s, |pre|);
    assert TrimLeft(s) == d + rest;
    ReadUnsigned(s, d, rest);
  }

  /** a definition line of the given keyword for the constant classifies as
      that keyword's definition */
  lemma {:induction false} DefinitionLine(keyword: string, widthFirst: bool, constant: string, tail: string)
    requires (keyword == "map_const" && widthFirst) || (keyword == "mapgroup" && !widthFirst)
      || (keyword == "mapconst" && !widthFirst)
    requires constant != [] && constant[|constant| - 1] == ','
    requires |tail| >= 2 && tail[0] == ' ' && IsDigit(tail[|tail| - 1])
    ensures var line := keyword + " " + constant + tail;
      Classify(line) == Dims(widthFirst, constant + tail) && Defines(Classify(line), constant)
  {
    var line := keyword + " " + constant + tail;
    assert line[0] == 'm' && line[|line| - 1] == tail[|tail| - 1];
    TrimmedTrim(line);
    assert line == keyword + [' '] + (constant + tail);
    KeywordLine(keyword, widthFirst, line, constant + tail);
    assert (constant + tail)[..|constant|] == constant;
  }

  /** a trimmed line of the keyword, one separator and the rest */
  lemma {:induction false} KeywordLine(keyword: string, widthFirst: bool, line: string, rest: string)
    requires (keyword == "map_const" && widthFirst) || (keyword == "mapgroup" && !widthFirst)
      || (keyword == "mapconst" && !widthFirst)
    requires line == keyword + [' '] + rest
    ensures ClassifyTrimmed(line) == Dims(widthFirst, rest)
  {
    assert !StartsWith(line, "newgroup") by { assert line[..8][0] != "newgroup"[0]; }
    assert line[..|keyword|] == keyword;
    if keyword == "mapconst" {
      assert !StartsWith(line, "map_const") by { assert line[..9][3] != "map_const"[3]; }
      assert !StartsWith(line, "mapgroup") by { assert line[..8][3] != "mapgroup"[3]; }
    } else if keyword == "mapgroup" {
      assert !StartsWith(line, "map_const") by { assert line[..9][3] != "map_const"[3]; }
    }
    assert line[|keyword| + 1..] == rest;
  }

  // ---------------------------------------------------------------------
  // guess_map_size

  /** Map_Options_Dialog::guess_map_size, given the contents of the map
      constants file (None when it cannot be opened): a size tag in the file
      name decides at once; otherwise the constant guessed from the file's
      base name is looked up in the constants. The group is set whenever the
      constants are scanned. */
  method GuessMapSize(filename: Option<string>, constants: Option<seq<string>>)
    returns (size: Option<(int, int)>, group: Option<nat>)
    requires filename.Some? ==> BaseName(filename.value) != []
    ensures filename.None? ==> size.None? && group.None?
    ensures filename.Some? && FilenameDimensions(filename.value).Some? ==>
      size == FilenameDimensions(filename.value) && group.None?
    ensures filename.Some? && FilenameDimensions(filename.value).None? && constants.None? ==>
      size.None? && group.None?
    ensures filename.Some? && FilenameDimensions(filename.value).None? && constants.Some? ==>
      var c := MapConstant(BaseName(filename.value));
      var ds := Directives(constants.value);
      var k := FirstDefinition(ds, c);
      group == Some(NewGroups(ds[..k])) && size == if k < |ds| then DefinedSize(ds[k], c) else None
  {
    if filename.None? {
      return None, None;
    }
    var tagged := FilenameDimensions(filename.value);
    if tagged.Some? {
      return tagged, None;
    }
    if constants.None? {
      return None, None;
    }
    var constant := GuessMapConstant(BaseName(filename.value));
    var g;
    size, g := ScanMapConstants(Directives(constants.value), constant);
    group := Some(g);
  }
}
