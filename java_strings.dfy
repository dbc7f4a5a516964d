/**
 * The pieces of java.lang.String and java.util.regex behaviour that the
 * printer status, matcher, CUPS and installer code relies on, written over
 * `seq<char>`: case mapping, prefix/substring search, trim, literal
 * replacement, regex splitting with the separators the code uses, and the
 * decimal rendering and parsing of integers.
 */
module JavaStrings {

  datatype Option<+T> = None | Some(value: T)

  // ---------------------------------------------------------------------
  // Case mapping (ASCII letters; see README for what is left out)

  function LowerChar(c: char): char {
    if 'A' <= c <= 'Z' then (c as int - 'A' as int + 'a' as int) as char else c
  }

  function UpperChar(c: char): char {
    if 'a' <= c <= 'z' then (c as int - 'a' as int + 'A' as int) as char else c
  }

  /** String.toLowerCase(Locale.ENGLISH) on ASCII letters. */
  function Lower(s: string): (r: string)
    ensures |r| == |s|
    ensures forall i :: 0 <= i < |s| ==> r[i] == LowerChar(s[i])
  {
    if s == [] then [] else [LowerChar(s[0])] + Lower(s[1..])
  }

  /** String.toUpperCase(Locale.ROOT) on ASCII letters. */
  function Upper(s: string): (r: string)
    ensures |r| == |s|
    ensures forall i :: 0 <= i < |s| ==> r[i] == UpperChar(s[i])
  {
    if s == [] then [] else [UpperChar(s[0])] + Upper(s[1..])
  }

  lemma LowerIdempotent(s: string)
    ensures Lower(Lower(s)) == Lower(s)
  {
    assert forall i :: 0 <= i < |s| ==> LowerChar(LowerChar(s[i])) == LowerChar(s[i]);
  }

  lemma UpperIdempotent(s: string)
    ensures Upper(Upper(s)) == Upper(s)
  {
    assert forall i :: 0 <= i < |s| ==> UpperChar(UpperChar(s[i])) == UpperChar(s[i]);
  }

  // ---------------------------------------------------------------------
  // Prefixes and occurrences

  predicate StartsWith(s: string, p: string) {
    |p| <= |s| && s[..|p|] == p
  }

  predicate EndsWith(s: string, p: string) {
    |p| <= |s| && s[|s| - |p|..] == p
  }

  predicate OccursAt(s: string, p: string, i: nat) {
    i + |p| <= |s| && s[i..i + |p|] == p
  }

  /** The first index at or after `from` where `p` occurs in `s`, or -1. */
  function IndexOfFrom(s: string, p: string, from: nat): (r: int)
    requires from <= |s|
    decreases |s| - from
    ensures r == -1 || from <= r
    ensures r >= 0 ==> OccursAt(s, p, r)
    ensures r == -1 ==> forall j: nat :: from <= j ==> !OccursAt(s, p, j)
    ensures forall j: nat :: from <= j < r ==> !OccursAt(s, p, j)
  {
    if from + |p| > |s| then -1
    else if s[from..from + |p|] == p then from
    else IndexOfFrom(s, p, from + 1)
  }

  /** String.indexOf(String). */
  function IndexOf(s: string, p: string): (r: int)
    ensures -1 <= r && (r >= 0 ==> OccursAt(s, p, r))
    ensures r == -1 <==> forall j: nat :: !OccursAt(s, p, j)
    ensures forall j: nat :: j < r ==> !OccursAt(s, p, j)
  {
    IndexOfFrom(s, p, 0)
  }

  /** String.contains(CharSequence). */
  predicate Contains(s: string, p: string) {
    IndexOf(s, p) >= 0
  }

  /** String.lastIndexOf(char): the last index holding `c`, or -1. */
  function LastIndexOfChar(s: string, c: char): (r: int)
    ensures -1 <= r < |s|
    ensures r >= 0 ==> s[r] == c
    ensures forall j :: r < j < |s| ==> s[j] != c
  {
    if s == [] then -1
    else if s[|s| - 1] == c then |s| - 1
    else LastIndexOfChar(s[..|s| - 1], c)
  }

  // ---------------------------------------------------------------------
  // Trimming

  /** Characters that String.trim() removes: every code point up to U+0020. */
  predicate IsTrimmed(c: char) { c <= ' ' }

  predicate AllTrimmed(s: string) {
    forall i :: 0 <= i < |s| ==> IsTrimmed(s[i])
  }

  function TrimStart(s: string): (r: string)
    ensures |r| <= |s| && r == s[|s| - |r|..]
    ensures AllTrimmed(s[..|s| - |r|])
    ensures r == [] || !IsTrimmed(r[0])
  {
    if s != [] && IsTrimmed(s[0]) then
      var t := s[1..];
      var r := TrimStart(t);
      var m := |t| - |r|;
      assert t[m..] == s[m + 1..];
      assert s[..m + 1] == [s[0]] + t[..m];
      TrimmedCons(s[0], t[..m]);
      r
    else s
  }

  function TrimEnd(s: string): (r: string)
    ensures |r| <= |s| && r == s[..|r|]
    ensures AllTrimmed(s[|r|..])
    ensures r == [] || !IsTrimmed(r[|r| - 1])
  {
    if s != [] && IsTrimmed(s[|s| - 1]) then
      var init := s[..|s| - 1];
      var r := TrimEnd(init);
      assert s[|r|..] == init[|r|..] + [s[|s| - 1]];
      r
    else s
  }

  lemma TrimmedCons(c: char, t: string)
    requires IsTrimmed(c) && AllTrimmed(t)
    ensures AllTrimmed([c] + t)
  {
    forall i | 0 < i <= |t|
      ensures IsTrimmed(([c] + t)[i])
    {
      assert ([c] + t)[i] == t[i - 1];
    }
  }

  /** String.trim(). */
  function Trim(s: string): (r: string)
    ensures r == [] <==> AllTrimmed(s)
    ensures r != [] ==> !IsTrimmed(r[0]) && !IsTrimmed(r[|r| - 1])
    ensures |r| <= |s|
  {
    var a := TrimStart(s);
    var r := TrimEnd(a);
    TrimParts(s, a, r);
    r
  }

  /** Stripping both ends leaves nothing exactly when every character is trimmed. */
  lemma TrimParts(s: string, a: string, r: string)
    requires |a| <= |s| && a == s[|s| - |a|..] && AllTrimmed(s[..|s| - |a|])
    requires a == [] || !IsTrimmed(a[0])
    requires |r| <= |a| && r == a[..|r|] && AllTrimmed(a[|r|..])
    requires r == [] || !IsTrimmed(r[|r| - 1])
    ensures r == [] <==> AllTrimmed(s)
    ensures r != [] ==> !IsTrimmed(r[0]) && !IsTrimmed(r[|r| - 1])
    ensures |r| <= |s|
  {
    var k := |s| - |a|;
    if r == [] {
      assert a == [];
      assert s[..k] == s;
    } else {
      var j := k + |r| - 1;
      assert r[0] == a[0];
      assert r[|r| - 1] == a[|r| - 1];
      assert a[|r| - 1] == s[j];
      assert !IsTrimmed(s[j]);
    }
  }

  // ---------------------------------------------------------------------
  // Literal replacement (String.replace(CharSequence, CharSequence))

  /** Replaces every occurrence of `pat`, scanning left to right without overlap. */
  function Replace(s: string, pat: string, rep: string): (r: string)
    requires |pat| > 0
    decreases |s|
  {
    if |s| < |pat| then s
    else if s[..|pat|] == pat then rep + Replace(s[|pat|..], pat, rep)
    else [s[0]] + Replace(s[1..], pat, rep)
  }

  // ---------------------------------------------------------------------
  // Regex splitting (String.split(regex) with the regexes the code uses)

  predicate IsRegexSpace(c: char) {
    c == ' ' || c == '\t' || c == '\n' || c == '\U{000B}' || c == '\U{000C}' || c == '\r'
  }

  predicate IsWordChar(c: char) {
    ('a' <= c <= 'z') || ('A' <= c <= 'Z') || ('0' <= c <= '9') || c == '_'
  }

  /** The separators the repository splits on. */
  datatype Separator =
    | PrinterBlock        // [\r\n]printer
    | LineBreak           // \r?\n
    | Spaces              // \s+
    | NonWord             // \W
    | Literal(pat: string)

  function RunOfSpaces(s: string, i: nat): (n: nat)
    requires i <= |s|
    ensures i + n <= |s|
    ensures forall j :: i <= j < i + n ==> IsRegexSpace(s[j])
    decreases |s| - i
  {
    if i < |s| && IsRegexSpace(s[i]) then 1 + RunOfSpaces(s, i + 1) else 0
  }

  /** Length of the separator match starting at `i`, or 0 when there is none. */
  function MatchAt(sep: Separator, s: string, i: nat): (n: nat)
    requires i < |s|
    ensures i + n <= |s|
  {
    match sep
    case PrinterBlock =>
      if (s[i] == '\r' || s[i] == '\n') && OccursAt(s, "printer ", i + 1) then 9 else 0
    case LineBreak =>
      if s[i] == '\n' then 1
      else if s[i] == '\r' && i + 1 < |s| && s[i + 1] == '\n' then 2
      else 0
    case Spaces => RunOfSpaces(s, i)
    case NonWord => if IsWordChar(s[i]) then 0 else 1
    case Literal(pat) => if OccursAt(s, pat, i) then |pat| else 0
  }

  /** Position and length of the first separator match at or after `from`; length 0 if none. */
  function FindSep(sep: Separator, s: string, from: nat): (r: (nat, nat))
    requires from <= |s|
    decreases |s| - from
    ensures from <= r.0 <= |s| && r.0 + r.1 <= |s|
    ensures r.1 == 0 ==> r.0 == |s|
    ensures r.1 > 0 ==> MatchAt(sep, s, r.0) == r.1
    ensures forall j :: from <= j < r.0 ==> MatchAt(sep, s, j) == 0
  {
    if from == |s| then (|s|, 0)
    else if MatchAt(sep, s, from) > 0 then (from, MatchAt(sep, s, from))
    else FindSep(sep, s, from + 1)
  }

  /** The pieces between successive leftmost separator matches (nothing dropped yet). */
  function Pieces(sep: Separator, s: string): (r: seq<string>)
    decreases |s|
    ensures |r| >= 1
  {
    var f := FindSep(sep, s, 0);
    if f.1 == 0 then [s] else [s[..f.0]] + Pieces(sep, s[f.0 + f.1..])
  }

  function DropTrailingEmpty(ps: seq<string>): (r: seq<string>)
    ensures |r| <= |ps| && r == ps[..|r|]
    ensures r == [] || r[|r| - 1] != ""
    ensures forall k :: |r| <= k < |ps| ==> ps[k] == ""
  {
    if ps == [] || ps[|ps| - 1] != "" then ps else DropTrailingEmpty(ps[..|ps| - 1])
  }

  /** String.split(regex): the input itself when nothing matches, else the pieces without trailing empty ones. */
  function Split(sep: Separator, s: string): seq<string> {
    var ps := Pieces(sep, s);
    if |ps| == 1 then [s] else DropTrailingEmpty(ps)
  }

  /** The characters a match of the separator can consist of. */
  predicate CharOfSep(sep: Separator, c: char) {
    match sep
    case PrinterBlock => c in "\r\nprinter "
    case LineBreak => c == '\r' || c == '\n'
    case Spaces => IsRegexSpace(c)
    case NonWord => !IsWordChar(c)
    case Literal(pat) => c in pat
  }

  lemma MatchChars(sep: Separator, s: string, i: nat)
    requires i < |s| && MatchAt(sep, s, i) > 0
    ensures forall j :: i <= j < i + MatchAt(sep, s, i) ==> CharOfSep(sep, s[j])
  {
    match sep
    case PrinterBlock =>
      forall j | i + 1 <= j < i + 9
        ensures s[j] in "\r\nprinter "
      {
        assert s[i + 1..i + 9] == "printer ";
        assert s[j] == "printer "[j - i - 1];
      }
    case LineBreak =>
    case Spaces =>
    case NonWord =>
    case Literal(pat) =>
      forall j | i <= j < i + |pat|
        ensures s[j] in pat
      {
        assert s[i..i + |pat|] == pat;
        assert s[j] == pat[j - i];
      }
  }

  predicate AllEmpty(ps: seq<string>) {
    forall k :: 0 <= k < |ps| ==> ps[k] == ""
  }

  /** When every piece is empty, the input is made of separator characters only. */
  lemma {:induction false} AllEmptyPieces(sep: Separator, s: string)
    requires AllEmpty(Pieces(sep, s))
    ensures forall j :: 0 <= j < |s| ==> CharOfSep(sep, s[j])
    decreases |s|
  {
    var f := FindSep(sep, s, 0);
    if f.1 > 0 {
      var rest := s[f.1..];
      EmptyPiecesRest(sep, s, f);
      assert MatchAt(sep, s, 0) == f.1;
      MatchChars(sep, s, 0);
      AllEmptyPieces(sep, rest);
      SepCharsJoin(sep, s, f.1);
    } else {
      assert Pieces(sep, s) == [s];
      assert Pieces(sep, s)[0] == s == "";
    }
  }

  /** When every piece is empty and a separator matches, it matches at 0 and the rest splits into empty pieces. */
  lemma EmptyPiecesRest(sep: Separator, s: string, f: (nat, nat))
    requires f == FindSep(sep, s, 0) && f.1 > 0
    requires AllEmpty(Pieces(sep, s))
    ensures f.0 == 0 && AllEmpty(Pieces(sep, s[f.1..]))
  {
    PiecesCons(sep, s, f);
    EmptyTail(s[..f.0], Pieces(sep, s[f.0 + f.1..]));
  }

  /** A split that finds a separator yields the text before it, then the pieces of what follows. */
  lemma PiecesCons(sep: Separator, s: string, f: (nat, nat))
    requires f == FindSep(sep, s, 0) && f.1 > 0
    ensures Pieces(sep, s) == [s[..f.0]] + Pieces(sep, s[f.0 + f.1..])
  {
  }

  lemma EmptyTail(head: string, tail: seq<string>)
    requires AllEmpty([head] + tail)
    ensures head == "" && AllEmpty(tail)
  {
    var ps := [head] + tail;
    assert ps[0] == head;
    forall k | 0 <= k < |tail|
      ensures tail[k] == ""
    {
      assert tail[k] == ps[k + 1];
    }
  }

  /** Separator characters up to `n`, then separator characters after it, cover the whole string. */
  lemma SepCharsJoin(sep: Separator, s: string, n: nat)
    requires n <= |s|
    requires forall j :: 0 <= j < n ==> CharOfSep(sep, s[j])
    requires forall j :: 0 <= j < |s[n..]| ==> CharOfSep(sep, s[n..][j])
    ensures forall j :: 0 <= j < |s| ==> CharOfSep(sep, s[j])
  {
    forall j | n <= j < |s|
      ensures CharOfSep(sep, s[j])
    {
      assert s[j] == s[n..][j - n];
    }
  }

  /** Splitting a string that holds a character no separator match can hold yields at least one piece. */
  lemma SplitNonEmpty(sep: Separator, s: string, i: nat)
    requires i < |s| && !CharOfSep(sep, s[i])
    ensures Split(sep, s) != []
  {
    var ps := Pieces(sep, s);
    if |ps| != 1 && DropTrailingEmpty(ps) == [] {
      AllEmptyPieces(sep, s);
    }
  }

  /** The first piece of a split is the text before the first separator match. */
  lemma SplitHead(sep: Separator, s: string)
    requires Split(sep, s) != []
    ensures Split(sep, s)[0] == s[..FindSep(sep, s, 0).0]
  {
    var ps := Pieces(sep, s);
    var f := FindSep(sep, s, 0);
    if |ps| == 1 {
      assert f.1 == 0;
      assert s[..f.0] == s;
    } else {
      assert f.1 > 0;
      assert ps[0] == s[..f.0];
    }
  }

  function JoinWith(ps: seq<string>, glue: string): string {
    if ps == [] then "" else if |ps| == 1 then ps[0] else ps[0] + glue + JoinWith(ps[1..], glue)
  }

  /** Splitting on a literal loses nothing: joining the pieces with it rebuilds the input. */
  lemma {:induction false} JoinPieces(s: string, pat: string)
    requires |pat| > 0
    ensures JoinWith(Pieces(Literal(pat), s), pat) == s
    decreases |s|
  {
    var f := FindSep(Literal(pat), s, 0);
    if f.1 > 0 {
      var rest := s[f.0 + f.1..];
      var ps := Pieces(Literal(pat), rest);
      var all := [s[..f.0]] + ps;
      assert Pieces(Literal(pat), s) == all;
      assert all[1..] == ps;
      assert JoinWith(all, pat) == s[..f.0] + pat + JoinWith(ps, pat);
      JoinPieces(rest, pat);
      assert f.1 == |pat| && OccursAt(s, pat, f.0);
      JoinAround(s, f.0, pat);
    } else {
      assert Pieces(Literal(pat), s) == [s];
    }
  }

  /** A string is its prefix, an occurrence of `pat` at the cut and the rest. */
  lemma JoinAround(s: string, i: nat, pat: string)
    requires OccursAt(s, pat, i)
    ensures s == s[..i] + pat + s[i + |pat|..]
  {
    assert s[i..i + |pat|] == pat;
    assert s == s[..i] + s[i..i + |pat|] + s[i + |pat|..];
  }

  // ---------------------------------------------------------------------
  // Decimal numbers

  predicate IsDigit(c: char) { '0' <= c <= '9' }

  predicate AllDigits(s: string) {
    forall i :: 0 <= i < |s| ==> IsDigit(s[i])
  }

  /** The characters of `s` that are ASCII digits, in order (replaceAll("\\D+", "")). */
  function OnlyDigits(s: string): (r: string)
    ensures AllDigits(r)
    ensures |r| <= |s|
  {
    if s == [] then []
    else (if IsDigit(s[0]) then [s[0]] else []) + OnlyDigits(s[1..])
  }

  function DigitsValue(s: string): nat
    requires AllDigits(s)
  {
    if s == [] then 0 else 10 * DigitsValue(s[..|s| - 1]) + (s[|s| - 1] as int - '0' as int)
  }

  function DigitChar(d: nat): (c: char)
    requires d < 10
    ensures IsDigit(c) && c as int - '0' as int == d
  {
    ('0' as int + d) as char
  }

  /** Decimal rendering of a natural number, as Integer.toString. */
  function NatToString(n: nat): (r: string)
    ensures r != [] && AllDigits(r)
  {
    if n < 10 then [DigitChar(n)] else NatToString(n / 10) + [DigitChar(n % 10)]
  }

  /** Decimal rendering of an int, as Java's string concatenation does it. */
  function IntToString(i: int): string {
    if i < 0 then "-" + NatToString(-i) else NatToString(i)
  }

  /** Reading back the rendering of `n` gives `n`. */
  lemma {:induction false} NatToStringRoundTrip(n: nat)
    ensures DigitsValue(NatToString(n)) == n
  {
    if n >= 10 {
      NatToStringRoundTrip(n / 10);
      var s := NatToString(n);
      assert s[..|s| - 1] == NatToString(n / 10);
    }
  }

  const MaxInt: nat := 0x7FFF_FFFF

  /** Integer.parseInt on a string of ASCII digits: None for the NumberFormatException cases. */
  function ParseInt(digits: string): (r: Option<nat>)
    requires AllDigits(digits)
    ensures r.Some? <==> digits != [] && DigitsValue(digits) <= MaxInt
    ensures r.Some? ==> r.value == DigitsValue(digits)
  {
    if digits == [] || DigitsValue(digits) > MaxInt then None else Some(DigitsValue(digits))
  }
}
