/** Pet::Parse: cutting a string at a delimiter by repeated search in `str + delimiter`. */
module Splitter {

  predicate OccursAt(s: string, d: string, i: nat) {
    i + |d| <= |s| && s[i..i + |d|] == d
  }

  ghost predicate Contains(s: string, d: string) {
    exists i :: OccursAt(s, d, i)
  }

  /** std::string::find: the first occurrence, or -1 for npos. */
  function Find(s: string, d: string): (r: int)
    ensures -1 <= r
    ensures r >= 0 ==> OccursAt(s, d, r) && forall j :: 0 <= j < r ==> !OccursAt(s, d, j)
    ensures r == -1 ==> forall j :: 0 <= j ==> !OccursAt(s, d, j)
  {
    FindFrom(s, d, 0)
  }

  function FindFrom(s: string, d: string, i: nat): (r: int)
    ensures r == -1 || r >= i
    ensures r >= 0 ==> OccursAt(s, d, r) && forall j :: i <= j < r ==> !OccursAt(s, d, j)
    ensures r == -1 ==> forall j :: i <= j ==> !OccursAt(s, d, j)
    decreases |s| - i
  {
    if i + |d| > |s| then -1
    else if OccursAt(s, d, i) then i
    else FindFrom(s, d, i + 1)
  }

  /** The pieces the loop collects from a remaining text, and what it leaves behind when no delimiter is found any more. */
  function Pieces(strs: string, d: string): seq<string>
    requires d != ""
    decreases |strs|
  {
    var pos := Find(strs, d);
    if pos < 0 then [] else [strs[..pos]] + Pieces(strs[pos + |d|..], d)
  }

  function Leftover(strs: string, d: string): string
    requires d != ""
    decreases |strs|
  {
    var pos := Find(strs, d);
    if pos < 0 then strs else Leftover(strs[pos + |d|..], d)
  }

  function Join(pieces: seq<string>, d: string): string {
    if pieces == [] then ""
    else if |pieces| == 1 then pieces[0]
    else pieces[0] + d + Join(pieces[1..], d)
  }

  /** Parse. With an empty delimiter the search always succeeds at 0 and nothing is ever removed: the source loops
      for good on every string longer than one character. */
  method Parse(str: string, delimiter: string) returns (res: seq<string>)
    requires |str| > 1 ==> delimiter != ""
    ensures |str| <= 1 ==> res == []
    ensures |str| > 1 ==> res == Pieces(str + delimiter, delimiter)
  {
    res := [];
    if |str| <= 1 {
      return;
    }
    var strs := str + delimiter;
    var pos := Find(strs, delimiter);
    while pos != -1
      invariant pos == Find(strs, delimiter)
      invariant Pieces(str + delimiter, delimiter) == res + Pieces(strs, delimiter)
      decreases |strs|
    {
      res := res + [strs[..pos]];
      strs := strs[pos + |delimiter|..];
      pos := Find(strs, delimiter);
    }
  }

  lemma EmptyDelimiterNeverAdvances(strs: string)
    ensures Find(strs, "") == 0 && strs[Find(strs, "") + |""|..] == strs
  {
    assert OccursAt(strs, "", 0);
  }

  // ----- Nothing is lost -----

  /** Every character is in a piece, a delimiter or the leftover. */
  lemma {:induction false} PiecesKeepText(strs: string, d: string)
    requires d != ""
    ensures var ps := Pieces(strs, d);
            if ps == [] then Leftover(strs, d) == strs else strs == Join(ps, d) + d + Leftover(strs, d)
    decreases |strs|
  {
    hide Find;
    var pos := Find(strs, d);
    if pos >= 0 {
      var rest := strs[pos + |d|..];
      PiecesKeepText(rest, d);
      assert strs == strs[..pos] + d + rest;
      var ps := Pieces(rest, d);
      assert ([strs[..pos]] + ps)[1..] == ps;
    }
  }

  lemma {:induction false} PiecesAreFree(strs: string, d: string)
    requires d != ""
    ensures forall k :: 0 <= k < |Pieces(strs, d)| ==> !Contains(Pieces(strs, d)[k], d)
    ensures !Contains(Leftover(strs, d), d)
    decreases |strs|
  {
    var pos := Find(strs, d);
    if pos >= 0 {
      PiecesAreFree(strs[pos + |d|..], d);
      FrontIsFree(strs, d, pos);
    }
  }

  lemma FrontIsFree(strs: string, d: string, pos: nat)
    requires d != "" && pos <= |strs| && forall j :: 0 <= j < pos ==> !OccursAt(strs, d, j)
    ensures !Contains(strs[..pos], d)
  {
    forall i: nat ensures !OccursAt(strs[..pos], d, i) {
      if i + |d| <= pos {
        assert strs[..pos][i..i + |d|] == strs[i..i + |d|];
        assert !OccursAt(strs, d, i);
      }
    }
  }

  // ----- When the appended delimiter is found where it was put -----

  /** `m` is a period of `d`: the delimiter overlaps itself when shifted by m. */
  predicate Overlaps(d: string, m: nat) {
    0 < m < |d| && d[m..] == d[..|d| - m]
  }

  ghost predicate Borderless(d: string) {
    forall m: nat :: !Overlaps(d, m)
  }

  /** What follows the last delimiter of a string, cut from the left. */
  function LastPart(str: string, d: string): string
    requires d != ""
  {
    Leftover(str, d)
  }

  /** The last part ends with the start of a delimiter that the appended one completes too early. */
  ghost predicate Straddles(part: string, d: string) {
    exists m: nat :: StraddlesAt(part, d, m)
  }

  ghost predicate StraddlesAt(part: string, d: string, m: nat) {
    Overlaps(d, m) && m <= |part| && part[|part| - m..] == d[..m]
  }

  lemma OccurrenceInFront(s: string, t: string, d: string, i: nat)
    requires i + |d| <= |s|
    ensures OccursAt(s + t, d, i) == OccursAt(s, d, i)
  {
    assert (s + t)[i..i + |d|] == s[i..i + |d|];
  }

  /** A string without the delimiter, followed by it: the first match is the appended one unless it straddles. */
  lemma FirstMatch(s: string, d: string)
    requires d != "" && Find(s, d) == -1
    ensures 0 <= Find(s + d, d) <= |s| < Find(s + d, d) + |d|
    ensures Find(s + d, d) == |s| <==> !Straddles(s, d)
  {
    hide Find, Overlaps;
    var f := Find(s + d, d);
    assert (s + d)[|s|..|s| + |d|] == d;
    assert OccursAt(s + d, d, |s|);
    forall i | 0 <= i < |s| ensures OccursAt(s + d, d, i) ==> StraddlesAt(s, d, |s| - i) {
      Straddling(s, d, i);
    }
    forall m: nat | StraddlesAt(s, d, m) ensures OccursAt(s + d, d, |s| - m) {
      StraddlingBack(s, d, m);
    }
    if f < |s| {
      assert StraddlesAt(s, d, |s| - f);
      PositivePeriod(d, |s| - f);
    }
    if m: nat :| StraddlesAt(s, d, m) {
      PositivePeriod(d, m);
      assert OccursAt(s + d, d, |s| - m);
    }
  }

  lemma PositivePeriod(d: string, m: nat)
    requires Overlaps(d, m)
    ensures 0 < m < |d|
  {
  }

  lemma Straddling(s: string, d: string, i: nat)
    requires d != "" && Find(s, d) == -1 && i < |s|
    ensures OccursAt(s + d, d, i) ==> StraddlesAt(s, d, |s| - i)
  {
    hide Find;
    var m := |s| - i;
    if i + |d| <= |s| {
      OccurrenceInFront(s, d, d, i);
    } else {
      if OccursAt(s + d, d, i) {
        var w := (s + d)[i..i + |d|];
        assert w == s[i..] + d[..|d| - m];
        assert d[..m] == w[..m] == s[i..];
        assert d[m..] == w[m..] == d[..|d| - m];
      }
    }
  }

  lemma StraddlingBack(s: string, d: string, m: nat)
    requires StraddlesAt(s, d, m)
    ensures OccursAt(s + d, d, |s| - m)
  {
    var i := |s| - m;
    var w := (s + d)[i..i + |d|];
    assert w == s[i..] + d[..|d| - m];
    assert d == d[..m] + d[m..];
  }

  /** Matches inside the string itself are found first, in the same places. */
  lemma SameMatch(s: string, d: string)
    requires d != "" && Find(s, d) >= 0
    ensures Find(s + d, d) == Find(s, d)
  {
    hide Find;
    var p, f := Find(s, d), Find(s + d, d);
    OccurrenceInFront(s, d, d, p);
    assert OccursAt(s + d, d, p);
    forall j | 0 <= j < p ensures !OccursAt(s + d, d, j) {
      OccurrenceInFront(s, d, d, j);
    }
  }

  /** The leftover after the whole loop is empty exactly when the last part does not straddle. */
  lemma {:induction false} LeftoverEmpty(s: string, d: string)
    requires d != ""
    ensures Leftover(s + d, d) == "" <==> !Straddles(LastPart(s, d), d)
    decreases |s|
  {
    hide Find, Straddles;
    var p := Find(s, d);
    if p >= 0 {
      SameMatch(s, d);
      var rest := s[p + |d|..];
      assert (s + d)[p + |d|..] == rest + d;
      LeftoverEmpty(rest, d);
    } else {
      FirstMatch(s, d);
      var f := Find(s + d, d);
      var rest := (s + d)[f + |d|..];
      ShortHasNone(rest, d);
    }
  }

  lemma ShortHasNone(s: string, d: string)
    requires d != ""
    ensures |s| < |d| ==> Find(s, d) == -1 && Leftover(s, d) == s
  {
  }

  /** For every string longer than one character and every non-empty delimiter: no piece contains the delimiter, and
      joining the pieces gives the string back if and only if its last part does not straddle the appended delimiter. */
  lemma ParseIsLossless(str: string, d: string)
    requires |str| > 1 && d != ""
    ensures forall k :: 0 <= k < |Pieces(str + d, d)| ==> !Contains(Pieces(str + d, d)[k], d)
    ensures Join(Pieces(str + d, d), d) == str <==> !Straddles(LastPart(str, d), d)
  {
    hide Pieces, Leftover, Join, Straddles;
    PiecesAreFree(str + d, d);
    PiecesKeepText(str + d, d);
    LeftoverEmpty(str, d);
    SomePiece(str, d);
    var joined, left := Join(Pieces(str + d, d), d), Leftover(str + d, d);
    assert str + d == joined + d + left;
    if joined == str {
      assert |left| == 0;
    }
    if left == "" {
      assert (str + d)[..|str|] == str && (joined + d + left)[..|str|] == joined;
    }
  }

  lemma SomePiece(s: string, d: string)
    requires d != ""
    ensures Pieces(s + d, d) != []
  {
    assert (s + d)[|s|..|s| + |d|] == d;
    assert OccursAt(s + d, d, |s|);
  }

  /** The delimiters that are safe for every string are exactly those without a border. */
  lemma BorderlessIsSafe(d: string)
    requires d != ""
    ensures Borderless(d) <==> forall str: string :: |str| > 1 ==> Join(Pieces(str + d, d), d) == str
  {
    hide Pieces, Join, LastPart;
    if Borderless(d) {
      forall str: string | |str| > 1 ensures Join(Pieces(str + d, d), d) == str {
        ParseIsLossless(str, d);
      }
    } else {
      var m: nat :| Overlaps(d, m);
      var str := BadString(d, m);
      ParseIsLossless(str, d);
      assert |str| > 1 && Join(Pieces(str + d, d), d) != str;
    }
  }

  /** A string that a bordered delimiter does not give back. */
  lemma BadString(d: string, m: nat) returns (str: string)
    requires Overlaps(d, m)
    ensures |str| > 1 && d != "" && Straddles(LastPart(str, d), d)
  {
    var x: char := if d[0] == 'x' then 'y' else 'x';
    str := [x] + d[..m];
    assert |d| <= |str| ==> str[0..|d|][0] == x;
    assert forall i: nat :: i > 0 ==> !OccursAt(str, d, i);
    assert Find(str, d) == -1;
    assert LastPart(str, d) == str;
    assert str[|str| - m..] == d[..m];
    assert StraddlesAt(str, d, m);
  }

  /** The other way round: pieces free of a borderless delimiter, joined, are found again. */
  lemma {:induction false} ParseJoined(pieces: seq<string>, d: string)
    requires d != "" && Borderless(d) && pieces != []
    requires forall k :: 0 <= k < |pieces| ==> Find(pieces[k], d) == -1
    ensures Pieces(Join(pieces, d) + d, d) == pieces
    decreases |pieces|
  {
    hide Find, Overlaps;
    var first := pieces[0];
    FirstMatch(first, d);
    if |pieces| == 1 {
      var rest := (first + d)[|first| + |d|..];
      assert rest == "";
      ShortHasNone(rest, d);
      assert (first + d)[..|first|] == first;
    } else {
      var more := Join(pieces[1..], d) + d;
      var s := first + d + more;
      assert Join(pieces, d) + d == s;
      FirstMatchAhead(first, d, more);
      assert s[..|first|] == first && s[|first| + |d|..] == more;
      ParseJoined(pieces[1..], d);
      assert pieces == [first] + pieces[1..];
    }
  }

  lemma FirstMatchAhead(first: string, d: string, more: string)
    requires d != "" && Find(first + d, d) == |first|
    ensures Find(first + d + more, d) == |first|
  {
    hide Find;
    var s, f := first + d + more, Find(first + d + more, d);
    OccurrenceInFront(first + d, more, d, |first|);
    assert OccursAt(s, d, |first|);
    forall j | 0 <= j < |first| ensures !OccursAt(s, d, j) {
      OccurrenceInFront(first + d, more, d, j);
    }
  }
}
