/** The little SQL that generated statements are made of, and how MySQL reads it in its default mode:
    commas outside quotes separate, user variables are written @_n, values are literals. */
module SqlText {
  import opened Endian
  import opened Options
  import opened Decimal

  datatype SqlValue = Null | Int(n: int) | Str(s: string) | Bin(bytes: seq<Byte>)

  // ----- Hexadecimal -----

  function HexDigit(d: nat): (c: char)
    requires d < 16
    ensures IsHex(c) && HexValue(c) == d && c != '\'' && c != ',' && c != '\0' && c != ' ' && c != '@'
  {
    if d < 10 then Digit(d) else ('a' as int + d - 10) as char
  }

  predicate IsHex(c: char) { IsDigit(c) || 'a' <= c <= 'f' }

  function HexValue(c: char): (d: nat)
    requires IsHex(c)
    ensures d < 16
  {
    if IsDigit(c) then DigitValue(c) else c as int - 'a' as int + 10
  }

  /** "%02x" of every byte. */
  function Hex(bytes: seq<Byte>): (s: string)
    ensures |s| == 2 * |bytes|
    ensures forall i :: 0 <= i < |s| ==> IsHex(s[i]) && s[i] != '\'' && s[i] != ',' && s[i] != '\0' && s[i] != ' ' && s[i] != '@'
  {
    if bytes == [] then [] else Hex(bytes[..|bytes| - 1]) + HexByte(bytes[|bytes| - 1])
  }

  function HexByte(b: Byte): string {
    [HexDigit(b / 16), HexDigit(b % 16)]
  }

  function UnHex(s: string): seq<Byte>
    requires |s| % 2 == 0 && forall i :: 0 <= i < |s| ==> IsHex(s[i])
  {
    if s == [] then []
    else UnHex(s[..|s| - 2]) + [16 * HexValue(s[|s| - 2]) + HexValue(s[|s| - 1])]
  }

  lemma HexDigitIsTable(d: nat)
    requires d < 16
    ensures HexDigit(d) == "0123456789abcdef"[d]
  {
  }

  /** "%02x": the high digit of every byte, then the low one, byte after byte. */
  lemma {:induction false} HexAt(bytes: seq<Byte>, i: nat)
    requires i < |bytes|
    ensures Hex(bytes)[2 * i] == "0123456789abcdef"[bytes[i] / 16]
    ensures Hex(bytes)[2 * i + 1] == "0123456789abcdef"[bytes[i] % 16]
  {
    if i < |bytes| - 1 {
      HexAt(bytes[..|bytes| - 1], i);
    } else {
      HexDigitIsTable(bytes[i] / 16);
      HexDigitIsTable(bytes[i] % 16);
    }
  }

  /** The hex text of a blob decodes to its bytes. */
  lemma {:induction false} HexRoundTrip(bytes: seq<Byte>)
    ensures UnHex(Hex(bytes)) == bytes
  {
    if bytes != [] {
      var s := Hex(bytes);
      HexRoundTrip(bytes[..|bytes| - 1]);
      assert s[..|s| - 2] == Hex(bytes[..|bytes| - 1]);
      assert bytes == bytes[..|bytes| - 1] + [bytes[|bytes| - 1]];
    }
  }

  // ----- Literals -----

  /** The character an escape sequence stands for; \% and \_ keep their backslash, see Unquote. */
  function Escape(c: char): char {
    match c
    case '0' => 0 as char
    case 'b' => 8 as char
    case 't' => '\t'
    case 'n' => '\n'
    case 'r' => '\r'
    case 'Z' => 26 as char
    case _ => c
  }

  /** MySQL's escape sequences. */
  lemma EscapeIsTable(c: char)
    ensures Escape('n') == '\n' && Escape('t') == '\t' && Escape('r') == '\r' && Escape('0') == '\0'
    ensures Escape('b') as int == 8 && Escape('Z') as int == 26
    ensures c !in "ntr0bZ" ==> Escape(c) == c
  {
    if c !in "ntr0bZ" {
      assert forall i :: 0 <= i < 6 ==> "ntr0bZ"[i] != c;
    }
  }

  predicate Wildcard(c: char) { c == '%' || c == '_' }

  /** The string a literal denotes, from behind its opening quote: a doubled quote is a quote, and the closing
      quote must be the last character. */
  function Unquote(t: string): Option<string> {
    if t == [] then None
    else if t[0] == '\'' then
      if |t| == 1 then Some([])
      else if t[1] == '\'' then Onto(['\''], Unquote(t[2..]))
      else None
    else if t[0] == '\\' then
      if |t| == 1 then None
      else Onto(if Wildcard(t[1]) then t[..2] else [Escape(t[1])], Unquote(t[2..]))
    else Onto(t[..1], Unquote(t[1..]))
  }

  function Onto(front: string, rest: Option<string>): Option<string> {
    if rest.None? then None else Some(front + rest.value)
  }

  /** Strings that mean themselves between quotes: no quote, and a backslash only before % or _. */
  predicate Verbatim(s: string) {
    s == [] ||
    if s[0] == '\\' then |s| > 1 && Wildcard(s[1]) && Verbatim(s[2..])
    else s[0] != '\'' && Verbatim(s[1..])
  }

  predicate Special(c: char) { c == '\'' || c == '\\' }

  predicate IsInteger(t: string) {
    var digits := if t != [] && t[0] == '-' then t[1..] else t;
    digits != [] && AllDigits(digits)
  }

  /** A bare 0x is no number but a name. */
  function ReadLiteral(t: string): Option<SqlValue> {
    if t == "null" then Some(Null)
    else if |t| >= 2 && t[..2] == "0x" then
      if |t| > 2 && |t| % 2 == 0 && (forall i :: 2 <= i < |t| ==> IsHex(t[i])) then Some(Bin(UnHex(t[2..]))) else None
    else if t != [] && t[0] == '\'' then
      var s := Unquote(t[1..]);
      if s.None? then None else Some(Str(s.value))
    else if IsInteger(t) then Some(Int(ReadInt(t)))
    else None
  }

  lemma ReadsHex(bytes: seq<Byte>)
    ensures ReadLiteral("0x" + Hex(bytes)) == if bytes == [] then None else Some(Bin(bytes))
  {
    hide Hex, UnHex;
    var t := "0x" + Hex(bytes);
    assert t[..2] == "0x" && t[2..] == Hex(bytes);
    HexRoundTrip(bytes);
    assert t[0] == '0' && |t| % 2 == 0;
    forall i | 2 <= i < |t| ensures IsHex(t[i]) {
      assert t[i] == Hex(bytes)[i - 2];
    }
  }

  lemma {:induction false} UnquoteVerbatim(s: string)
    requires Verbatim(s)
    ensures Unquote(s + "'") == Some(s)
  {
    var t := s + "'";
    if s != [] {
      var k := if s[0] == '\\' then 2 else 1;
      assert t[k..] == s[k..] + "'" && t[..k] == s[..k];
      UnquoteVerbatim(s[k..]);
      assert s == s[..k] + s[k..];
    }
  }

  /** The other way round: whatever part of the text behind the string is taken into the literal, it does not denote
      the string unless the string is verbatim. `tail` is what follows the printed literal. */
  lemma {:induction false} UnquoteNeedsVerbatim(s: string, tail: string, t: string)
    requires t <= s + "'" + tail && (tail == [] || tail[0] == ',') && Unquote(t) == Some(s)
    ensures Verbatim(s)
    decreases |s|
  {
    hide Unquote;
    if s != [] {
      UnquoteShortens(t);
      Behind(s, tail, t);
      if Special(s[0]) && !(s[0] == '\\' && Wildcard(t[1])) {
        SpecialStart(s, t);
      } else {
        var k := OrdinaryStart(s, t);
        assert s + "'" + tail == s[..k] + (s[k..] + "'" + tail);
        UnquoteNeedsVerbatim(s[k..], tail, t[k..]);
      }
    }
  }

  lemma Behind(s: string, tail: string, t: string)
    requires t <= s + "'" + tail && (tail == [] || tail[0] == ',') && |s| < |t|
    ensures s == t[..|s|] && (|s| + 1 < |t| ==> t[|s| + 1] == ',')
  {
    var full := s + "'" + tail;
    assert |s| + 1 < |t| ==> t[|s| + 1] == full[|s| + 1] == tail[0];
  }

  lemma OrdinaryStart(s: string, t: string) returns (k: nat)
    requires 0 < |s| < |t| && s == t[..|s|] && Unquote(t) == Some(s)
    requires Special(s[0]) ==> s[0] == '\\' && Wildcard(t[1])
    ensures k == if s[0] == '\\' then 2 else 1
    ensures k <= |s| && (k == 2 ==> Wildcard(s[1])) && Unquote(t[k..]) == Some(s[k..])
  {
    assert t[0] == s[0];
    k := if s[0] == '\\' then 2 else 1;
    assert Unquote(t[k..]).value == s[k..];
  }

  lemma SpecialStart(s: string, t: string)
    requires 0 < |s| < |t| && s == t[..|s|] && Unquote(t) == Some(s)
    requires Special(s[0]) && !(s[0] == '\\' && Wildcard(t[1]))
    ensures |t| == 2 * |s| + 1 && forall i :: 0 <= i < |t| ==> Special(t[i])
  {
    assert t[0] == s[0];
    assert Unquote(t[2..]) == Some(s[1..]);
    assert t[1] == s[0];
    Runaway(s, t, 1);
  }

  lemma {:induction false} UnquoteShortens(t: string)
    requires Unquote(t).Some?
    ensures |Unquote(t).value| < |t|
  {
    if Special(t[0]) && |t| > 1 {
      UnquoteShortens(t[2..]);
    } else if |t| > 1 {
      UnquoteShortens(t[1..]);
    }
  }

  lemma UnquoteEmpty(t: string)
    requires Unquote(t) == Some([])
    ensures t == "'"
  {
  }

  /** Once the first `k` characters of the string have cost two characters each, so do all others, and every character
      taken is a quote or a backslash. */
  lemma {:induction false} Runaway(s: string, t: string, k: nat)
    requires 1 <= k <= |s| <= |t| && s == t[..|s|]
    requires 2 * k <= |t| && Unquote(t[2 * k..]) == Some(s[k..])
    requires forall i :: 0 <= i < 2 * k ==> Special(t[i])
    ensures |t| == 2 * |s| + 1 && forall i :: 0 <= i < |t| ==> Special(t[i])
    decreases |s| - k
  {
    var rest := t[2 * k..];
    if k == |s| {
      assert s[k..] == [];
      UnquoteEmpty(rest);
      assert t == t[..2 * k] + rest;
    } else {
      assert s[k] == t[k] && Special(s[k]);
      assert rest[0] == t[2 * k] && Special(rest[0]);
      assert k + 1 < |s| ==> s[k + 1] == t[k + 1] && Special(t[k + 1]);
      assert rest[0] == '\\' ==> !Wildcard(rest[1]);
      assert rest[1] == t[2 * k + 1] && Special(rest[1]);
      assert rest[2..] == t[2 * (k + 1)..] && s[k..][1..] == s[k + 1..];
      Runaway(s, t, k + 1);
    }
  }

  lemma ReadsString(s: string)
    requires Verbatim(s)
    ensures ReadLiteral("'" + s + "'") == Some(Str(s))
  {
    hide Unquote, Verbatim;
    var t := "'" + s + "'";
    assert t[1..] == s + "'" && t[0] == '\'';
    UnquoteVerbatim(s);
  }

  lemma StringNeedsVerbatim(s: string, tail: string, t: string)
    requires t <= "'" + s + "'" + tail && (tail == [] || tail[0] == ',') && ReadLiteral(t) == Some(Str(s))
    ensures Verbatim(s)
  {
    hide Unquote, Verbatim, UnHex, ReadInt;
    var full := "'" + s + "'" + tail;
    assert t != [] && t[0] == full[0] == '\'';
    assert full[1..] == s + "'" + tail && t[1..] <= full[1..];
    UnquoteNeedsVerbatim(s, tail, t[1..]);
  }

  lemma ReadsInteger(n: int)
    ensures ReadLiteral(ToString(n)) == Some(Int(n))
  {
    hide ReadInt, Digits, UnHex;
    var t := ToString(n);
    ReadBack(n, []);
    assert t + [] == t;
    assert IsDigit(t[|t| - 1]) && (t[0] == '-' || IsDigit(t[0]));
    if n < 0 {
      assert t[1..] == Digits(-n);
    }
    assert |t| >= 2 ==> IsDigit(t[1]);
    assert |t| >= 2 ==> t[..2][1] == t[1] && "0x"[1] == 'x';
  }

  // ----- Lists -----

  /** Scanning from outside (or inside) quotes: no top-level comma, and the quotes are closed at the end. */
  predicate Closed(s: string, quoted: bool) {
    if s == [] then !quoted
    else if quoted && s[0] == '\\' then |s| > 1 && Closed(s[2..], true)
    else if s[0] == '\'' then Closed(s[1..], !quoted)
    else (quoted || s[0] != ',') && Closed(s[1..], quoted)
  }

  /** The position of the first top-level comma, or the end. */
  function Cut(s: string, quoted: bool): (k: nat)
    ensures k <= |s|
  {
    if s == [] || (s[0] == ',' && !quoted) then 0
    else if quoted && s[0] == '\\' && |s| > 1 then 2 + Cut(s[2..], true)
    else 1 + Cut(s[1..], if s[0] == '\'' then !quoted else quoted)
  }

  function Split(s: string): (items: seq<string>)
    ensures items != []
    decreases |s|
  {
    var k := Cut(s, false);
    if k == |s| then [s] else [s[..k]] + Split(s[k + 1..])
  }

  function Join(items: seq<string>): string {
    if items == [] then ""
    else if |items| == 1 then items[0]
    else items[0] + "," + Join(items[1..])
  }

  lemma {:induction false} CutAt(a: string, quoted: bool, b: string)
    requires Closed(a, quoted) && (b == [] || b[0] == ',')
    ensures Cut(a + b, quoted) == |a|
    decreases a
  {
    if a == [] {
      assert a + b == b;
    } else {
      var k := if quoted && a[0] == '\\' then 2 else 1;
      assert (a + b)[k..] == a[k..] + b;
      CutAt(a[k..], if a[0] == '\'' then !quoted else quoted, b);
    }
  }

  lemma {:induction false} JoinSnoc(items: seq<string>, last: string)
    requires items != []
    ensures Join(items + [last]) == Join(items) + "," + last
    decreases |items|
  {
    if |items| == 1 {
      assert (items + [last])[1..] == [last];
    } else {
      assert (items + [last])[1..] == items[1..] + [last];
      JoinSnoc(items[1..], last);
      assert items[0] + "," + (Join(items[1..]) + "," + last) == items[0] + "," + Join(items[1..]) + "," + last;
    }
  }

  lemma SplitFirst(a: string, rest: string)
    requires Closed(a, false)
    ensures Split(a + "," + rest) == [a] + Split(rest)
  {
    hide Closed, Cut;
    CutAt(a, false, "," + rest);
    var s := a + "," + rest;
    assert s == a + ("," + rest);
    assert s[..|a|] == a && s[|a| + 1..] == rest;
  }

  lemma SplitSingle(a: string)
    requires Closed(a, false)
    ensures Split(a) == [a]
  {
    CutAt(a, false, "");
    assert a + "" == a;
  }

  /** Closed items joined by commas are found again. */
  lemma {:induction false} SplitJoin(items: seq<string>)
    requires items != [] && forall i :: 0 <= i < |items| ==> Closed(items[i], false)
    ensures Split(Join(items)) == items
    decreases |items|
  {
    hide Closed, Split;
    if |items| == 1 {
      SplitSingle(items[0]);
    } else {
      SplitJoin(items[1..]);
      SplitFirst(items[0], Join(items[1..]));
      assert items == [items[0]] + items[1..];
    }
  }

  lemma {:induction false} CutSkips(bare: string, s: string)
    requires '\'' !in bare && ',' !in bare
    ensures Cut(bare + s, false) == |bare| + Cut(s, false)
    decreases bare
  {
    if bare == [] {
      assert bare + s == s;
    } else {
      assert (bare + s)[1..] == bare[1..] + s;
      CutSkips(bare[1..], s);
    }
  }

  /** The piece in front of the first top-level comma. */
  function Piece(s: string): string {
    s[..Cut(s, false)]
  }

  /** Behind closed items the next piece starts where its item starts. */
  lemma {:induction false} SplitNext(items: seq<string>, m: nat) returns (tail: string)
    requires m < |items| && forall i :: 0 <= i < m ==> Closed(items[i], false)
    ensures tail == [] || tail[0] == ','
    ensures m < |Split(Join(items))| && Split(Join(items))[m] == Piece(items[m] + tail)
    decreases m
  {
    hide Closed, Cut;
    var rest := items[1..];
    if m == 0 {
      var text := Join(items);
      tail := if |items| == 1 then "" else "," + Join(rest);
      assert text == items[0] + tail;
    } else {
      SplitFirst(items[0], Join(rest));
      tail := SplitNext(rest, m - 1);
    }
  }

  lemma {:induction false} ClosedConcat(a: string, b: string)
    requires Closed(a, false) && Closed(b, false)
    ensures Closed(a + b, false)
  {
    ClosedConcatAt(a, false, b);
  }

  lemma {:induction false} ClosedConcatAt(a: string, quoted: bool, b: string)
    requires Closed(a, quoted) && Closed(b, false)
    ensures Closed(a + b, quoted)
    decreases a
  {
    if a == [] {
      assert a + b == b;
    } else {
      var k := if quoted && a[0] == '\\' then 2 else 1;
      assert (a + b)[k..] == a[k..] + b;
      ClosedConcatAt(a[k..], if a[0] == '\'' then !quoted else quoted, b);
    }
  }

  /** Text without quotes and commas is closed. */
  lemma {:induction false} BareIsClosed(s: string)
    requires '\'' !in s && ',' !in s
    ensures Closed(s, false)
  {
    if s != [] {
      BareIsClosed(s[1..]);
    }
  }

  lemma QuotedIsClosed(s: string)
    requires Verbatim(s)
    ensures Closed("'" + s + "'", false)
  {
    assert ("'" + s + "'")[1..] == s + "'";
    QuotedTail(s);
  }

  lemma {:induction false} QuotedTail(s: string)
    requires Verbatim(s)
    ensures Closed(s + "'", true)
  {
    if s == [] {
      assert (s + "'")[1..] == [];
    } else {
      var k := if s[0] == '\\' then 2 else 1;
      assert (s + "'")[k..] == s[k..] + "'";
      QuotedTail(s[k..]);
    }
  }

  // ----- Assignments, arguments, columns -----

  function Unspaced(s: string): string {
    if s != [] && s[0] == ' ' then s[1..] else s
  }

  function Variable(i: nat): string {
    "@_" + Digits(i)
  }

  /** The number of a user variable at the head of a text, and what follows it. */
  predicate StartsVariable(s: string) {
    |s| >= 3 && s[..2] == "@_" && IsDigit(s[2])
  }

  function VariableNumber(s: string): nat
    requires StartsVariable(s)
  {
    Value(s[2..][..LeadingDigits(s[2..])])
  }

  function AfterVariable(s: string): string
    requires StartsVariable(s)
  {
    s[2..][LeadingDigits(s[2..])..]
  }

  datatype Assign = Assign(index: nat, value: SqlValue)

  function ReadAssign(item: string): Option<Assign> {
    var s := Unspaced(item);
    if !StartsVariable(s) then None
    else
      var after := AfterVariable(s);
      if |after| < 3 || after[..3] != " = " then None
      else
        var v := ReadLiteral(after[3..]);
        if v.None? then None else Some(Assign(VariableNumber(s), v.value))
  }

  datatype Arg = UserVariable(index: nat) | Literal(value: SqlValue)

  function ReadArg(item: string): Option<Arg> {
    var s := Unspaced(item);
    if StartsVariable(s) then
      if AfterVariable(s) == [] then Some(UserVariable(VariableNumber(s))) else None
    else
      var v := ReadLiteral(s);
      if v.None? then None else Some(Literal(v.value))
  }

  lemma ReadsVariable(i: nat, tail: string)
    requires tail == [] || !IsDigit(tail[0])
    ensures var s := Variable(i) + tail;
            StartsVariable(s) && VariableNumber(s) == i && AfterVariable(s) == tail
  {
    hide Digits, Value;
    var s := Variable(i) + tail;
    assert s[..2] == "@_" && s[2..] == Digits(i) + tail;
    assert IsDigit(Digits(i)[0]);
    ReadDigits(i, tail);
    LeadingDigitsOf(Digits(i), tail);
  }

  lemma ReadsAssign(i: nat, text: string, space: bool)
    ensures ReadAssign((if space then " " else "") + Variable(i) + " = " + text)
         == if ReadLiteral(text).None? then None else Some(Assign(i, ReadLiteral(text).value))
  {
    hide ReadLiteral, Digits, Value, LeadingDigits;
    var item := (if space then " " else "") + Variable(i) + " = " + text;
    var s := Variable(i) + (" = " + text);
    assert Variable(i)[0] == '@';
    assert item == (if space then " " else "") + s;
    assert Unspaced(item) == s;
    ReadsVariable(i, " = " + text);
    assert (" = " + text)[..3] == " = " && (" = " + text)[3..] == text;
  }

  /** All or nothing. */
  function ReadAssigns(items: seq<string>): Option<seq<Assign>> {
    if items == [] then Some([])
    else
      var front, last := ReadAssigns(items[..|items| - 1]), ReadAssign(items[|items| - 1]);
      if front.None? || last.None? then None else Some(front.value + [last.value])
  }

  function ReadArgs(items: seq<string>): Option<seq<Arg>> {
    if items == [] then Some([])
    else
      var front, last := ReadArgs(items[..|items| - 1]), ReadArg(items[|items| - 1]);
      if front.None? || last.None? then None else Some(front.value + [last.value])
  }

  lemma {:induction false} ReadAssignsEach(items: seq<string>, k: nat)
    requires ReadAssigns(items).Some? && k < |items|
    ensures |ReadAssigns(items).value| == |items| && ReadAssign(items[k]) == Some(ReadAssigns(items).value[k])
  {
    hide ReadAssign;
    if k < |items| - 1 {
      ReadAssignsEach(items[..|items| - 1], k);
    } else if k > 0 {
      ReadAssignsEach(items[..|items| - 1], 0);
    }
  }

  lemma {:induction false} ReadArgsEach(items: seq<string>, k: nat)
    requires ReadArgs(items).Some? && k < |items|
    ensures |ReadArgs(items).value| == |items| && ReadArg(items[k]) == Some(ReadArgs(items).value[k])
  {
    hide ReadArg;
    if k < |items| - 1 {
      ReadArgsEach(items[..|items| - 1], k);
    } else if k > 0 {
      ReadArgsEach(items[..|items| - 1], 0);
    }
  }

  function DropPrefix(prefix: string, s: string): Option<string> {
    if prefix <= s then Some(s[|prefix|..]) else None
  }

  /** A `set` statement: the assignments it makes, in order. */
  function ReadSet(text: string): Option<seq<Assign>> {
    var body := DropPrefix("set", text);
    if body.None? then None else ReadAssigns(Split(body.value))
  }

  /** The argument list between the parentheses of a `call`. */
  function ReadCall(proc: string, text: string): Option<seq<Arg>> {
    var head := "call " + proc + " ( ";
    if head <= text && |head| + 2 <= |text| && text[|text| - 2..] == " )" then
      var inner := text[|head|..|text| - 2];
      if inner == "" then Some([]) else ReadArgs(Split(inner))
    else None
  }

  /** The columns a `select` asks for; all are user variables. */
  function ReadSelect(text: string): Option<seq<Arg>> {
    var body := DropPrefix("select ", text);
    if body.None? then None else ReadArgs(Split(body.value))
  }
}
