/** Reading blank-separated words, as operator>> of a stringstream does, and the C locale's tolower. */
module Words {
  import opened Decimal

  predicate Blank(s: string) {
    forall i :: 0 <= i < |s| ==> IsSpace(s[i])
  }

  predicate IsWord(s: string) {
    s != [] && forall i :: 0 <= i < |s| ==> !IsSpace(s[i])
  }

  function WordLength(s: string): (n: nat)
    ensures n <= |s| && (forall i :: 0 <= i < n ==> !IsSpace(s[i])) && (n < |s| ==> IsSpace(s[n]))
  {
    if s == [] || IsSpace(s[0]) then 0 else 1 + WordLength(s[1..])
  }

  /** One extraction: the next word, empty at the end, and what follows it. */
  function NextWord(s: string): string {
    SkipSpace(s)[..WordLength(SkipSpace(s))]
  }

  function AfterWord(s: string): (t: string)
    ensures NextWord(s) != [] ==> |t| < |s|
  {
    SkipSpace(s)[WordLength(SkipSpace(s))..]
  }

  /** All words of a text. */
  function Tokens(s: string): (ts: seq<string>)
    ensures forall i :: 0 <= i < |ts| ==> ts[i] != []
    decreases |s|
  {
    if NextWord(s) == [] then [] else [NextWord(s)] + Tokens(AfterWord(s))
  }

  /** Words laid out with any white space: gaps[i] stands before words[i]. */
  function Spaced(words: seq<string>, gaps: seq<string>, tail: string): string
    requires |gaps| == |words|
  {
    if words == [] then tail else gaps[0] + words[0] + Spaced(words[1..], gaps[1..], tail)
  }

  /** Only the first gap may be missing. */
  predicate Separating(gaps: seq<string>) {
    && (forall i :: 0 <= i < |gaps| ==> Blank(gaps[i]))
    && (forall i :: 0 < i < |gaps| ==> gaps[i] != [])
  }

  /** Any layout will do: gaps of spaces, tabs, line ends, vertical tabs and form feeds, of any length but the first at
      least 1; a word is anything without those. */
  lemma LayoutMeans(gaps: seq<string>, w: string)
    ensures Separating(gaps) <==>
              && (forall i, k :: 0 <= i < |gaps| && 0 <= k < |gaps[i]| ==>
                    gaps[i][k] in [' ', '\t', '\n', 11 as char, 12 as char, '\r'])
              && (forall i :: 0 < i < |gaps| ==> gaps[i] != [])
    ensures Blank(w) <==> forall k :: 0 <= k < |w| ==> w[k] in [' ', '\t', '\n', 11 as char, 12 as char, '\r']
    ensures IsWord(w) <==> w != [] && forall k :: 0 <= k < |w| ==> w[k] !in [' ', '\t', '\n', 11 as char, 12 as char, '\r']
  {
    hide IsSpace;
    forall c: char ensures IsSpace(c) <==> c in [' ', '\t', '\n', 11 as char, 12 as char, '\r'] {
      SpaceIsTable(c);
    }
    if forall i, k :: 0 <= i < |gaps| && 0 <= k < |gaps[i]| ==> gaps[i][k] in [' ', '\t', '\n', 11 as char, 12 as char, '\r'] {
      forall i | 0 <= i < |gaps| ensures Blank(gaps[i]) {
      }
    }
  }

  lemma {:induction false} WordLengthOf(w: string, s: string)
    requires forall i :: 0 <= i < |w| ==> !IsSpace(w[i])
    requires s == [] || IsSpace(s[0])
    ensures WordLength(w + s) == |w|
  {
    if w == [] {
      assert w + s == s;
    } else {
      assert (w + s)[1..] == w[1..] + s;
      WordLengthOf(w[1..], s);
    }
  }

  lemma ReadWord(gap: string, w: string, s: string)
    requires Blank(gap) && IsWord(w) && (s == [] || IsSpace(s[0]))
    ensures NextWord(gap + w + s) == w && AfterWord(gap + w + s) == s
  {
    assert gap + w + s == gap + (w + s);
    SkipSpaces(gap, w + s);
    WordLengthOf(w, s);
    assert (w + s)[..|w|] == w && (w + s)[|w|..] == s;
  }

  /** However the words are laid out, they are read back one by one. */
  lemma {:induction false} TokensOfSpaced(words: seq<string>, gaps: seq<string>, tail: string)
    requires |gaps| == |words| && Separating(gaps) && Blank(tail)
    requires forall i :: 0 <= i < |words| ==> IsWord(words[i])
    ensures Tokens(Spaced(words, gaps, tail)) == words
  {
    if words == [] {
      SkipSpaces(tail, []);
      assert tail + [] == tail;
    } else {
      var rest := Spaced(words[1..], gaps[1..], tail);
      TokensOfSpaced(words[1..], gaps[1..], tail);
      if |words| > 1 {
        assert rest[0] == gaps[1][0];
      }
      ReadWord(gaps[0], words[0], rest);
      assert words == [words[0]] + words[1..];
    }
  }

  // ----- Lower case -----

  function LowerChar(c: char): (d: char)
    ensures IsSpace(d) == IsSpace(c)
  {
    if 'A' <= c <= 'Z' then (c as int + 32) as char else c
  }

  function Lower(s: string): (t: string)
    ensures |t| == |s| && forall i :: 0 <= i < |s| ==> t[i] == LowerChar(s[i])
  {
    if s == [] then [] else [LowerChar(s[0])] + Lower(s[1..])
  }

  function LowerAll(ws: seq<string>): (r: seq<string>)
    ensures |r| == |ws| && forall i :: 0 <= i < |ws| ==> r[i] == Lower(ws[i])
  {
    if ws == [] then [] else [Lower(ws[0])] + LowerAll(ws[1..])
  }

  const UPPER: string := "ABCDEFGHIJKLMNOPQRSTUVWXYZ"
  const LOWER: string := "abcdefghijklmnopqrstuvwxyz"

  lemma Alphabets()
    ensures |UPPER| == |LOWER| == 26
    ensures forall k :: 0 <= k < 26 ==> UPPER[k] as int == 'A' as int + k && LOWER[k] as int == 'a' as int + k
  {
  }

  /** tolower, letter by letter; every other character stays as it is. */
  lemma LowerMeans(c: char)
    ensures forall k :: 0 <= k < 26 ==> LowerChar(UPPER[k]) == LOWER[k]
    ensures c !in UPPER ==> LowerChar(c) == c
  {
    hide UPPER, LOWER;
    Alphabets();
    if 'A' <= c <= 'Z' {
      assert UPPER[c as int - 'A' as int] == c;
    }
  }

  /** The same letter, upper or lower case, or the same character. */
  predicate SameLetter(c: char, d: char) {
    c == d || exists k :: 0 <= k < 26 && (c == UPPER[k] || c == LOWER[k]) && (d == UPPER[k] || d == LOWER[k])
  }

  predicate SameButCase(a: string, b: string) {
    |a| == |b| && forall i :: 0 <= i < |a| ==> SameLetter(a[i], b[i])
  }

  predicate NoCapitals(s: string) {
    forall i :: 0 <= i < |s| ==> s[i] !in UPPER
  }

  lemma LowerIsNoCapital(k: nat)
    requires k < 26
    ensures LOWER[k] !in UPPER
  {
    hide UPPER, LOWER;
    Alphabets();
  }

  lemma LowerKeeps(s: string)
    requires NoCapitals(s)
    ensures Lower(s) == s
  {
    forall i | 0 <= i < |s| ensures LowerChar(s[i]) == s[i] {
      LowerMeans(s[i]);
    }
  }

  /** Case does not matter once a text has been lowered. */
  lemma LowerIgnoresCase(a: string, b: string)
    requires SameButCase(a, b)
    ensures Lower(a) == Lower(b)
  {
    hide LowerChar;
    forall i | 0 <= i < |a| ensures LowerChar(a[i]) == LowerChar(b[i]) {
      LowerSameLetter(a[i], b[i]);
    }
  }

  lemma LowerSameLetter(c: char, d: char)
    requires SameLetter(c, d)
    ensures LowerChar(c) == LowerChar(d)
  {
    hide LowerChar, UPPER, LOWER;
    Alphabets();
    LowerMeans(c);
    LowerMeans(d);
    if c != d {
      var k :| 0 <= k < 26 && (c == UPPER[k] || c == LOWER[k]) && (d == UPPER[k] || d == LOWER[k]);
      LowerIsNoCapital(k);
      LowerMeans(LOWER[k]);
    }
  }

  lemma LowerConcat(a: string, b: string)
    ensures Lower(a + b) == Lower(a) + Lower(b)
  {
  }

  /** Lowering a laid-out text lowers its words and keeps its gaps. */
  lemma {:induction false} LowerSpaced(words: seq<string>, gaps: seq<string>, tail: string)
    requires |gaps| == |words| && Separating(gaps) && Blank(tail)
    ensures Lower(Spaced(words, gaps, tail)) == Spaced(LowerAll(words), gaps, tail)
  {
    if words == [] {
      assert Lower(tail) == tail;
    } else {
      LowerSpaced(words[1..], gaps[1..], tail);
      LowerConcat(gaps[0] + words[0], Spaced(words[1..], gaps[1..], tail));
      LowerConcat(gaps[0], words[0]);
      assert Blank(gaps[0]);
      assert Lower(gaps[0]) == gaps[0];
      assert LowerAll(words)[1..] == LowerAll(words[1..]);
    }
  }
}
