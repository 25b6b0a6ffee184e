/** Text and sequence helpers shared by the model: the C locale character
    classes, the string utilities the program takes from its utility file
    (trim, starts_with, ends_with, remove_comment) and the parts of the C++
    stream library the scanners rely on (getline with a delimiter, `>>` into a
    string, an int or a char), plus a generic first-match search. */
module Text {

  datatype Option<+T> = None | Some(value: T) {
    function GetOr(default: T): T {
      match this
      case Some(v) => v
      case None => default
    }
  }

  // ---------------------------------------------------------------------
  // Character classes of the "C" locale

  predicate IsLower(c: char) { 'a' <= c <= 'z' }
  predicate IsUpper(c: char) { 'A' <= c <= 'Z' }
  predicate IsDigit(c: char) { '0' <= c <= '9' }
  predicate IsAlnum(c: char) { IsLower(c) || IsUpper(c) || IsDigit(c) }
  predicate IsUpperOrDigit(c: char) { IsUpper(c) || IsDigit(c) }
  /** space, \t, \n, \v, \f, \r */
  predicate IsSpace(c: char) { c == ' ' || '\t' <= c <= '\r' }
  predicate IsHexDigit(c: char) { IsDigit(c) || 'a' <= c <= 'f' || 'A' <= c <= 'F' }

  function ToUpper(c: char): (u: char)
    ensures IsLower(c) ==> IsUpper(u)
    ensures !IsLower(c) ==> u == c
  {
    if IsLower(c) then (c as int - 32) as char else c
  }

  function ToLower(c: char): (l: char)
    ensures IsUpper(c) ==> IsLower(l)
    ensures !IsUpper(c) ==> l == c
  {
    if IsUpper(c) then (c as int + 32) as char else c
  }

  /** std::transform(..., tolower) over a whole string */
  function Lower(s: string): (r: string)
    ensures |r| == |s|
    ensures forall i :: 0 <= i < |s| ==> r[i] == ToLower(s[i])
  {
    seq(|s|, i requires 0 <= i < |s| => ToLower(s[i]))
  }

  // ---------------------------------------------------------------------
  // String utilities

  predicate StartsWith(s: string, p: string) { |p| <= |s| && s[..|p|] == p }
  predicate EndsWith(s: string, p: string) { |p| <= |s| && s[|s| - |p|..] == p }

  /** std::string::operator[] also answers at index size(), with '\0' */
  function CharAt(s: string, i: nat): char {
    if i < |s| then s[i] else '\0'
  }

  /** std::string::erase(0, n): removes at most the whole string */
  function Drop(s: string, n: nat): (r: string)
    ensures n <= |s| ==> r == s[n..]
    ensures n > |s| ==> r == []
  {
    if n <= |s| then s[n..] else []
  }

  /** the number of white-space characters `s` starts with */
  function LeadingSpaces(s: string): (k: nat)
    ensures k <= |s|
    ensures forall j :: 0 <= j < k ==> IsSpace(s[j])
    ensures k < |s| ==> !IsSpace(s[k])
    decreases |s|
  {
    if s != [] && IsSpace(s[0]) then 1 + LeadingSpaces(s[1..]) else 0
  }

  /** the number of white-space characters `s` ends with */
  function TrailingSpaces(s: string): (k: nat)
    ensures k <= |s|
    ensures forall j :: |s| - k <= j < |s| ==> IsSpace(s[j])
    ensures k < |s| ==> !IsSpace(s[|s| - 1 - k])
    decreases |s|
  {
    if s != [] && IsSpace(s[|s| - 1]) then 1 + TrailingSpaces(s[..|s| - 1]) else 0
  }

  /** The leading white space is the longest run of spaces at the front. */
  lemma {:induction false} LeadingSpacesAre(s: string, k: nat)
    requires k <= |s|
    requires forall j :: 0 <= j < k ==> IsSpace(s[j])
    requires k < |s| ==> !IsSpace(s[k])
    ensures LeadingSpaces(s) == k
  {
  }

  /** The trailing white space is the longest run of spaces at the end. */
  lemma {:induction false} TrailingSpacesAre(s: string, k: nat)
    requires k <= |s|
    requires forall j :: |s| - k <= j < |s| ==> IsSpace(s[j])
    requires k < |s| ==> !IsSpace(s[|s| - 1 - k])
    ensures TrailingSpaces(s) == k
  {
  }

  function TrimLeft(s: string): (r: string)
    ensures r == [] || !IsSpace(r[0])
  {
    s[LeadingSpaces(s)..]
  }

  function TrimRight(s: string): (r: string)
    ensures r == [] || !IsSpace(r[|r| - 1])
  {
    s[..|s| - TrailingSpaces(s)]
  }

  /** trim(): strips leading and trailing white space */
  function Trim(s: string): string {
    TrimRight(TrimLeft(s))
  }

  /** Neither end of `s` is white space: trimming leaves it alone. */
  predicate Trimmed(s: string) {
    s == [] || (!IsSpace(s[0]) && !IsSpace(s[|s| - 1]))
  }

  /** Without white space at its ends a string trims to itself. */
  lemma {:induction false} TrimmedTrim(s: string)
    requires Trimmed(s)
    ensures TrimLeft(s) == s && Trim(s) == s
  {
    LeadingSpacesAre(s, 0);
    TrailingSpacesAre(s, 0);
  }

  /** Trimming a trimmed string padded with white space gives it back. */
  lemma {:induction false} TrimPadded(pre: string, s: string, post: string)
    requires Trimmed(s)
    requires forall i :: 0 <= i < |pre| ==> IsSpace(pre[i])
    requires forall i :: 0 <= i < |post| ==> IsSpace(post[i])
    ensures Trim(pre + s + post) == s
  {
    var t := pre + s + post;
    if s == [] {
      assert t == pre + post;
      LeadingSpacesAre(t, |t|);
      assert TrimLeft(t) == [];
    } else {
      LeadingSpacesAre(t, |pre|);
      var u := TrimLeft(t);
      assert u == s + post;
      TrailingSpacesAre(u, |post|);
      assert TrimRight(u) == u[..|s|] == s;
    }
  }

  /** std::getline(stream, field, d) followed by the rest of the stream: the
      text up to the first `d`, and what follows it (all of the text and
      nothing, when `d` does not occur). Once a stream has run dry every later
      getline yields the empty string, which is SplitOnce of the empty rest. */
  function SplitOnce(s: string, d: char): (r: (string, string))
    ensures d !in r.0
    decreases |s|
  {
    if s == [] then ([], [])
    else if s[0] == d then ([], s[1..])
    else var t := SplitOnce(s[1..], d); ([s[0]] + t.0, t.1)
  }

  /** Around the first `d` the text falls apart into what comes before it
      and what follows it; without a `d` everything comes before. */
  lemma {:induction false} SplitOnceJoin(s: string, d: char)
    ensures d in s ==> s == SplitOnce(s, d).0 + [d] + SplitOnce(s, d).1
    ensures d !in s ==> SplitOnce(s, d) == (s, [])
    decreases |s|
  {
    if s == [] {
    } else if s[0] == d {
      assert s == [] + [d] + s[1..];
    } else {
      SplitOnceJoin(s[1..], d);
      var t := SplitOnce(s[1..], d);
      assert s == [s[0]] + s[1..];
      if d in s {
        assert s == ([s[0]] + t.0) + [d] + t.1;
      }
    }
  }

  /** getline stops at the first delimiter and takes the rest after it. */
  lemma {:induction false} SplitOnceAt(a: string, d: char, b: string)
    requires d !in a
    ensures SplitOnce(a + ([d] + b), d) == (a, b)
    decreases |a|
  {
    var s := a + ([d] + b);
    if a == [] {
      assert s == [d] + b && s[1..] == b;
    } else {
      assert s[0] == a[0] && s[1..] == a[1..] + ([d] + b);
      SplitOnceAt(a[1..], d, b);
      assert [a[0]] + a[1..] == a;
    }
  }

  /** the text before the first `c`: what C code gets by writing a NUL over
      the `c` that strchr finds */
  function Before(s: string, c: char): (r: string)
    ensures c !in r && StartsWith(s, r)
    ensures c in s ==> |r| < |s| && s[|r|] == c
    ensures c !in s ==> r == s
  {
    SplitOnceJoin(s, c);
    SplitOnce(s, c).0
  }

  /** remove_comment(): drops everything from the first ';' on */
  function RemoveComment(s: string): string {
    Before(s, ';')
  }

  /** fl_filename_name(): the part of a path after its last '/' */
  function BaseName(path: string): (name: string)
    ensures '/' !in name && EndsWith(path, name)
    ensures '/' in path ==> |name| < |path| && path[|path| - |name| - 1] == '/'
    decreases |path|
  {
    if path == [] || path[|path| - 1] == '/' then []
    else BaseName(path[..|path| - 1]) + [path[|path| - 1]]
  }

  /** `stream >> word` for a std::string: skips white space, then takes the
      longest run of non-space characters; None when nothing is left (the
      target string is then left as it was). Also returns the rest. */
  function ReadWord(s: string): (r: (Option<string>, string))
    ensures r.0.Some? ==> r.0.value != [] && forall i :: 0 <= i < |r.0.value| ==> !IsSpace(r.0.value[i])
  {
    var t := TrimLeft(s);
    if t == [] then (None, [])
    else
      var k := FirstIndex(t, IsSpace);
      (Some(t[..k]), t[k..])
  }

  /** `>> word` of a word followed by white space or the end */
  lemma {:induction false} ReadWordAt(w: string, rest: string)
    requires w != [] && forall i :: 0 <= i < |w| ==> !IsSpace(w[i])
    requires rest == [] || IsSpace(rest[0])
    ensures ReadWord(w + rest) == (Some(w), rest)
  {
    var s := w + rest;
    LeadingSpacesAre(s, 0);
    assert forall j :: 0 <= j < |w| ==> !IsSpace(s[j]) by {
      forall j | 0 <= j < |w| ensures !IsSpace(s[j]) { assert s[j] == w[j]; }
    }
    if rest != [] {
      assert s[|w|] == rest[0];
    }
    FirstIndexAt(s, IsSpace, |w|);
    assert s[..|w|] == w && s[|w|..] == rest;
  }

  /** `stream >> c` for a char: skips white space, then takes one character. */
  function ReadChar(s: string): (Option<char>, string) {
    var t := TrimLeft(s);
    if t == [] then (None, []) else (Some(t[0]), t[1..])
  }

  /** `>> c` with no white space in front takes the first character */
  lemma {:induction false} ReadCharFirst(c: char, rest: string)
    requires !IsSpace(c)
    ensures ReadChar([c] + rest) == (Some(c), rest)
  {
    LeadingSpacesAre([c] + rest, 0);
    assert ([c] + rest)[1..] == rest;
  }

  /** `stream >> n` for an int: skips white space, an optional sign, then at
      least one decimal digit. None when no digit follows. */
  function ReadInt(s: string): (r: (Option<int>, string)) {
    var t := TrimLeft(s);
    var neg := t != [] && t[0] == '-';
    var u := if t != [] && (t[0] == '-' || t[0] == '+') then t[1..] else t;
    var k := FirstIndex(u, c => !IsDigit(c));
    if k == 0 then (None, u)
    else
      var v: int := DecimalValue(u[..k]);
      (Some(if neg then -v else v), u[k..])
  }

  /** `>> n` of text whose white space is followed by a run of digits and
      then a non-digit: the digits' value, and the rest is left unread */
  lemma {:induction false} ReadUnsigned(s: string, d: string, rest: string)
    requires d != [] && forall j :: 0 <= j < |d| ==> IsDigit(d[j])
    requires rest == [] || !IsDigit(rest[0])
    requires TrimLeft(s) == d + rest
    ensures ReadInt(s) == (Some(DecimalValue(d) as int), rest)
  {
    var t := d + rest;
    assert t[0] == d[0];
    var notDigit := c => !IsDigit(c);
    forall j | 0 <= j < |d| ensures !notDigit(t[j]) { assert t[j] == d[j]; }
    if |d| < |t| {
      assert t[|d|] == rest[0];
    }
    FirstIndexAt(t, notDigit, |d|);
    assert t[..|d|] == d && t[|d|..] == rest;
  }

  // ---------------------------------------------------------------------
  // Numbers as text

  function DigitValue(c: char): nat requires IsDigit(c) { c as int - '0' as int }

  function DigitChar(d: nat): (c: char)
    requires d < 10
    ensures IsDigit(c) && DigitValue(c) == d
  {
    ('0' as int + d) as char
  }

  /** the value of a string of decimal digits */
  function DecimalValue(s: string): nat
    requires forall i :: 0 <= i < |s| ==> IsDigit(s[i])
  {
    if s == [] then 0 else 10 * DecimalValue(s[..|s| - 1]) + DigitValue(s[|s| - 1])
  }

  function HexDigitValue(c: char): nat
    requires IsHexDigit(c)
  {
    if IsDigit(c) then DigitValue(c)
    else if 'a' <= c <= 'f' then c as int - 'a' as int + 10
    else c as int - 'A' as int + 10
  }

  /** the value of the leading run of hexadecimal digits of `s` */
  function HexPrefixValue(s: string): nat {
    var k := FirstIndex(s, c => !IsHexDigit(c));
    HexValue(s[..k])
  }

  function HexValue(s: string): nat
    requires forall i :: 0 <= i < |s| ==> IsHexDigit(s[i])
  {
    if s == [] then 0 else 16 * HexValue(s[..|s| - 1]) + HexDigitValue(s[|s| - 1])
  }

  /** "%d" of a natural number */
  function Decimal(n: nat): (s: string)
    ensures s != [] && forall i :: 0 <= i < |s| ==> IsDigit(s[i])
    ensures DecimalValue(s) == n
    ensures n >= 10 ==> |s| >= 2
  {
    if n < 10 then [DigitChar(n)] else Decimal(n / 10) + [DigitChar(n % 10)]
  }

  /** "%02d" of a natural number */
  function Pad2(n: nat): (s: string)
    ensures |s| >= 2 && forall i :: 0 <= i < |s| ==> IsDigit(s[i])
    ensures DecimalValue(s) == n
  {
    if n < 10 then
      assert DecimalValue(['0']) == 0;
      ['0', DigitChar(n)]
    else Decimal(n)
  }

  /** "%02x" of a byte-sized number (lower-case digits) */
  function Hex2(n: nat): (s: string)
    requires n < 256
    ensures |s| == 2 && IsHexDigit(s[0]) && IsHexDigit(s[1])
  {
    [HexChar(n / 16), HexChar(n % 16)]
  }

  function HexChar(d: nat): (c: char)
    requires d < 16
    ensures IsHexDigit(c) && HexDigitValue(c) == d
  {
    if d < 10 then DigitChar(d) else ('a' as int + d - 10) as char
  }

  // ---------------------------------------------------------------------
  // First match

  /** The index of the first element satisfying `p`, or |s| when none does.
      Every "return the first candidate that ..." loop of the program is an
      instance. */
  function FirstIndex<T>(s: seq<T>, p: T -> bool): (k: nat)
    ensures k <= |s|
    ensures forall j :: 0 <= j < k ==> !p(s[j])
    ensures k < |s| ==> p(s[k])
    decreases |s|
  {
    if s == [] then 0
    else if p(s[0]) then 0
    else 1 + FirstIndex(s[1..], p)
  }

  /** The first-match conditions pin the index down. */
  lemma {:induction false} FirstIndexAt<T>(s: seq<T>, p: T -> bool, k: nat)
    requires k <= |s|
    requires forall j :: 0 <= j < k ==> !p(s[j])
    requires k < |s| ==> p(s[k])
    ensures FirstIndex(s, p) == k
  {
  }
}
