/**
 * The string operations the source takes from JavaScript: `trim`,
 * `split`, `filter(Boolean)`, `join`, `toLowerCase` and `includes`.
 * Whitespace and case are restricted to ASCII.
 */
module Text {
  import Seqs

  /** The ASCII part of JavaScript's whitespace class: space, tab, LF, VT, FF, CR. */
  predicate IsWhitespace(c: char) {
    c == ' ' || c == '\t' || c == '\n' || c == '\U{000B}' || c == '\U{000C}' || c == '\r'
  }

  /** A string that `trim()` turns into the empty string. */
  predicate IsBlank(s: string) {
    forall i :: 0 <= i < |s| ==> IsWhitespace(s[i])
  }

  function TrimStart(s: string): (r: string)
    ensures |r| <= |s| && r == s[|s| - |r|..]
    ensures r == [] || !IsWhitespace(r[0])
    ensures IsBlank(s[..|s| - |r|])
  {
    if s != [] && IsWhitespace(s[0]) then
      var r := TrimStart(s[1..]);
      TrimStartStep(s, r);
      r
    else s
  }

  /** Dropping one leading whitespace character before trimming the rest. */
  lemma TrimStartStep(s: string, r: string)
    requires s != [] && IsWhitespace(s[0])
    requires |r| <= |s| - 1 && r == s[1..][|s| - 1 - |r|..] && IsBlank(s[1..][..|s| - 1 - |r|])
    ensures r == s[|s| - |r|..] && IsBlank(s[..|s| - |r|])
  {
    var t := s[..|s| - |r|];
    forall i | 0 <= i < |t| ensures IsWhitespace(t[i]) {
      if i > 0 {
        assert t[i] == s[1..][..|s| - 1 - |r|][i - 1];
      }
    }
  }

  function TrimEnd(s: string): (r: string)
    ensures |r| <= |s| && r == s[..|r|]
    ensures r == [] || !IsWhitespace(r[|r| - 1])
    ensures IsBlank(s[|r|..])
  {
    if s != [] && IsWhitespace(s[|s| - 1]) then TrimEnd(s[..|s| - 1]) else s
  }

  /** `String.prototype.trim`. */
  function Trim(s: string): string {
    TrimEnd(TrimStart(s))
  }

  /** A trimmed string starts and ends with non-whitespace, and is empty exactly for blank strings. */
  lemma TrimCorrect(s: string)
    ensures Trim(s) == [] || (!IsWhitespace(Trim(s)[0]) && !IsWhitespace(Trim(s)[|Trim(s)| - 1]))
    ensures Trim(s) == [] <==> IsBlank(s)
  {
    var a := TrimStart(s);
    var b := TrimEnd(a);
    assert Trim(s) == b;
    if b != [] {
      assert b[0] == a[0];
    }
    if b == [] {
      assert a == a[|b|..];
      assert s == s[..|s| - |a|] + a;
      BlankConcat(s[..|s| - |a|], a);
    }
  }

  lemma BlankConcat(x: string, y: string)
    requires IsBlank(x) && IsBlank(y)
    ensures IsBlank(x + y)
  {
    forall i | 0 <= i < |x + y| ensures IsWhitespace((x + y)[i]) {
      if i < |x| {
        assert (x + y)[i] == x[i];
      } else {
        assert (x + y)[i] == y[i - |x|];
      }
    }
  }

  /** Every character of `Trim(s)` occurs in `s`. */
  lemma TrimChars(s: string)
    ensures forall c :: c in Trim(s) ==> c in s
  {
    var a := TrimStart(s);
    var b := TrimEnd(a);
    forall c | c in b ensures c in s {
      var k :| 0 <= k < |b| && b[k] == c;
      assert a[k] == c;
      assert s[|s| - |a| + k] == c;
    }
  }

  /**
   * `s.split(sep)` where `isSep` picks the separator characters: the maximal
   * separator-free pieces, empty ones included, so there is always one more
   * piece than there are separators.
   */
  function Split(s: string, isSep: char -> bool): (r: seq<string>)
    ensures |r| >= 1
    ensures forall i, j :: 0 <= i < |r| && 0 <= j < |r[i]| ==> !isSep(r[i][j])
  {
    if s == [] then [""]
    else
      var rest := Split(s[1..], isSep);
      if isSep(s[0]) then [""] + rest
      else [[s[0]] + rest[0]] + rest[1..]
  }

  /** A separator-free piece followed by a separator splits off as exactly that piece. */
  lemma {:induction false} SplitPiece(piece: string, c: char, rest: string, isSep: char -> bool)
    requires isSep(c)
    requires forall j :: 0 <= j < |piece| ==> !isSep(piece[j])
    ensures Split(piece + [c] + rest, isSep) == [piece] + Split(rest, isSep)
  {
    var s := piece + [c] + rest;
    if piece == [] {
      assert s == [c] + rest;
      assert s[1..] == rest;
    } else {
      assert s[1..] == piece[1..] + [c] + rest;
      SplitPiece(piece[1..], c, rest, isSep);
      assert [piece[0]] + piece[1..] == piece;
    }
  }

  predicate NonEmpty(s: string) {
    s != ""
  }

  /** `pieces.filter(Boolean)`: the non-empty strings, in order. */
  function DropEmpty(pieces: seq<string>): (r: seq<string>)
    ensures forall i :: 0 <= i < |r| ==> r[i] != ""
  {
    Seqs.Filter(pieces, NonEmpty)
  }

  /** Whitespace-separated words: `s.split(/\s+/).filter(Boolean)`. */
  function Words(s: string): (r: seq<string>)
    ensures forall i :: 0 <= i < |r| ==> r[i] != "" && forall j :: 0 <= j < |r[i]| ==> !IsWhitespace(r[i][j])
  {
    var pieces := Split(s, IsWhitespace);
    var r := DropEmpty(pieces);
    assert forall i :: 0 <= i < |r| ==> r[i] in pieces;
    r
  }

  /** `parts.join(sep)`. */
  function Join(parts: seq<string>, sep: string): string {
    if |parts| == 0 then ""
    else if |parts| == 1 then parts[0]
    else parts[0] + sep + Join(parts[1..], sep)
  }

  function LowerChar(c: char): char {
    if 'A' <= c <= 'Z' then (c as int + 32) as char else c
  }

  /** `toLowerCase`, ASCII letters only. */
  function Lower(s: string): (r: string)
    ensures |r| == |s|
    ensures forall i :: 0 <= i < |s| ==> r[i] == LowerChar(s[i])
  {
    seq(|s|, i requires 0 <= i < |s| => LowerChar(s[i]))
  }

  predicate IsComma(c: char) {
    c == ','
  }

  /** A tag as a comma list can carry it: non-empty, no comma, no whitespace at either end. */
  predicate IsCleanTag(t: string) {
    && t != ""
    && (forall j :: 0 <= j < |t| ==> t[j] != ',')
    && !IsWhitespace(t[0]) && !IsWhitespace(t[|t| - 1])
  }

  /** `pieces.map(p => p.trim()).filter(Boolean)`. */
  function TrimmedNonEmpty(pieces: seq<string>): (r: seq<string>)
    ensures |r| <= |pieces|
  {
    if pieces == [] then []
    else
      var t := Trim(pieces[0]);
      (if t == "" then [] else [t]) + TrimmedNonEmpty(pieces[1..])
  }

  /** `s.split(",").map(t => t.trim()).filter(Boolean)`: the comma list parser of the CLI and the HTTP API. */
  function CommaList(s: string): seq<string> {
    TrimmedNonEmpty(Split(s, IsComma))
  }

  /** Splitting a string of commas and whitespace at its commas gives blank pieces only. */
  lemma {:induction false} SplitSeparators(s: string)
    requires forall i :: 0 <= i < |s| ==> IsComma(s[i]) || IsWhitespace(s[i])
    ensures forall k :: 0 <= k < |Split(s, IsComma)| ==> IsBlank(Split(s, IsComma)[k])
  {
    if s != [] {
      SplitSeparators(s[1..]);
    }
  }

  /** Blank pieces leave nothing after trimming and dropping empties. */
  lemma {:induction false} TrimmedNonEmptyBlank(pieces: seq<string>)
    requires forall k :: 0 <= k < |pieces| ==> IsBlank(pieces[k])
    ensures TrimmedNonEmpty(pieces) == []
  {
    if pieces != [] {
      TrimCorrect(pieces[0]);
      TrimmedNonEmptyBlank(pieces[1..]);
    }
  }

  /** A list made only of commas and whitespace holds no entry. */
  lemma CommaListOfSeparators(s: string)
    requires forall i :: 0 <= i < |s| ==> IsComma(s[i]) || IsWhitespace(s[i])
    ensures CommaList(s) == []
  {
    SplitSeparators(s);
    TrimmedNonEmptyBlank(Split(s, IsComma));
  }

  /** Trimming a comma-free piece that is not blank gives a clean tag. */
  lemma TrimmedPieceClean(piece: string)
    requires forall j :: 0 <= j < |piece| ==> piece[j] != ','
    requires Trim(piece) != ""
    ensures IsCleanTag(Trim(piece))
  {
    var t := Trim(piece);
    TrimCorrect(piece);
    TrimChars(piece);
    forall j | 0 <= j < |t| ensures t[j] != ',' {
      assert t[j] in t;
    }
  }

  /** Every element of a parsed comma list is a clean tag. */
  lemma {:induction false} TrimmedNonEmptyClean(pieces: seq<string>)
    requires forall i, j :: 0 <= i < |pieces| && 0 <= j < |pieces[i]| ==> pieces[i][j] != ','
    ensures forall i :: 0 <= i < |TrimmedNonEmpty(pieces)| ==> IsCleanTag(TrimmedNonEmpty(pieces)[i])
  {
    if pieces != [] {
      var rest := TrimmedNonEmpty(pieces[1..]);
      TrimmedNonEmptyClean(pieces[1..]);
      var t := Trim(pieces[0]);
      var head := if t == "" then [] else [t];
      if t != "" {
        TrimmedPieceClean(pieces[0]);
      }
      assert TrimmedNonEmpty(pieces) == head + rest;
      assert forall i :: 0 <= i < |head| ==> IsCleanTag(head[i]);
    }
  }

  lemma CommaListClean(s: string)
    ensures forall i :: 0 <= i < |CommaList(s)| ==> IsCleanTag(CommaList(s)[i])
  {
    TrimmedNonEmptyClean(Split(s, IsComma));
  }

  /** A string without separators is a single piece. */
  lemma {:induction false} SplitWhole(s: string, isSep: char -> bool)
    requires forall j :: 0 <= j < |s| ==> !isSep(s[j])
    ensures Split(s, isSep) == [s]
  {
    if s != [] {
      SplitWhole(s[1..], isSep);
      assert [s[0]] + s[1..] == s;
    }
  }

  /** Trimming a string without whitespace at either end changes nothing. */
  lemma TrimClean(t: string)
    requires t != [] && !IsWhitespace(t[0]) && !IsWhitespace(t[|t| - 1])
    ensures Trim(t) == t
  {
  }

  lemma TrimmedNonEmptyCons(t: string, rest: seq<string>)
    requires IsCleanTag(t)
    ensures TrimmedNonEmpty([t] + rest) == [t] + TrimmedNonEmpty(rest)
  {
    TrimClean(t);
    assert ([t] + rest)[1..] == rest;
  }

  lemma CommaListEmpty()
    ensures CommaList("") == []
  {
    assert Split("", IsComma) == [""];
    assert Trim("") == "";
    assert [""][1..] == [];
  }

  lemma CommaListSingle(t: string)
    requires IsCleanTag(t)
    ensures CommaList(t) == [t]
  {
    SplitWhole(t, IsComma);
    TrimmedNonEmptyCons(t, []);
    assert [t] + [] == [t];
  }

  lemma CommaListCons(t: string, rest: string)
    requires IsCleanTag(t)
    ensures CommaList(t + [','] + rest) == [t] + CommaList(rest)
  {
    SplitPiece(t, ',', rest, IsComma);
    TrimmedNonEmptyCons(t, Split(rest, IsComma));
  }

  /** Joining clean tags with commas and parsing the result gives the tags back. */
  lemma {:induction false} CommaListJoin(tags: seq<string>)
    requires forall i :: 0 <= i < |tags| ==> IsCleanTag(tags[i])
    ensures CommaList(Join(tags, ",")) == tags
  {
    if tags == [] {
      CommaListEmpty();
    } else if |tags| == 1 {
      CommaListSingle(tags[0]);
    } else {
      var rest := Join(tags[1..], ",");
      assert Join(tags, ",") == tags[0] + [','] + rest;
      calc {
        CommaList(Join(tags, ","));
        == { CommaListCons(tags[0], rest); }
        [tags[0]] + CommaList(rest);
        == { CommaListJoin(tags[1..]); }
        [tags[0]] + tags[1..];
        ==
        tags;
      }
    }
  }

  /** `s.includes(t)`: `t` occurs in `s` as a contiguous piece. */
  predicate Contains(s: string, t: string)
    decreases |s|
  {
    (|t| <= |s| && s[..|t|] == t) || (s != [] && Contains(s[1..], t))
  }
}
