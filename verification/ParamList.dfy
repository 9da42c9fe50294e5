/** The parameter list of a stored procedure: what ProcedureHelper::Prepare makes of its words. */
module ParamList {
  import opened Endian
  import opened Options
  import opened Decimal
  import opened Words

  const MAX_PARAM_COUNT: nat := 10

  datatype Direction = In | Out | InOut

  /** The enum_field_types that occur: `Unset` is what Clear leaves, `Unknown` is -1. */
  datatype SqlType = Unset | Long | LongLong | Text | Blob | Unknown

  /** What a boost::any may hold here: nothing, an int, an int64_t, a char* (which may be null), or a void* to
      some bytes (to none if it is null). */
  datatype AnyValue = Nothing | Int32(n: int) | Int64(n: int) | NullString | CString(s: string) | Pointer(bytes: seq<Byte>)

  datatype SqlParam = SqlParam(direction: Direction, typ: SqlType, lens: nat, bindValue: AnyValue)

  const CLEARED: SqlParam := SqlParam(In, Unset, 0, Nothing)

  // ----- Type names -----

  /** operator[] of a std::string, which may also read the terminating NUL. */
  function CharAt(s: string, i: nat): char {
    if i < |s| then s[i] else '\0'
  }

  function GetMySqlType(s: string): SqlType {
    match CharAt(s, 0)
    case 'b' =>
      (match CharAt(s, 1)
       case 'l' => if s == "blob" then Blob else Unknown
       case 'i' => if s == "bigint" then LongLong else Unknown
       case _ => Unknown)
    case 'i' => if s == "int" then Long else Unknown
    case 'c' => if s == "char" then Text else Unknown
    case 'v' => if s == "varchar" then Text else Unknown
    case _ => Unknown
  }

  const TYPE_NAMES: map<string, SqlType> :=
    map["blob" := Blob, "bigint" := LongLong, "int" := Long, "char" := Text, "varchar" := Text]

  /** The nested switch is a plain table look-up. */
  lemma GetMySqlTypeIsTable(s: string)
    ensures GetMySqlType(s) == if s in TYPE_NAMES then TYPE_NAMES[s] else Unknown
    ensures GetMySqlType(s)
         == if s == "int" then Long else if s == "bigint" then LongLong else if s == "char" || s == "varchar" then Text
            else if s == "blob" then Blob else Unknown
  {
  }

  // ----- The three-state parser -----

  /** The parser between two words; `part` is whichPart. */
  datatype Parser = Parser(part: nat, total: nat, ins: nat, outs: nat, inouts: nat, params: seq<SqlParam>) {
    predicate Valid() { part <= 2 && total <= MAX_PARAM_COUNT == |params| }
  }

  /** After a word: the parser goes on, or the type was unknown (return -3), or std::string::at threw,
      or the code did something undefined: wrote past `parameters` or gave atoi a number too large. */
  datatype Fed = Ok(p: Parser) | BadType(p: Parser) | Threw | Undefined

  function FeedDirection(p: Parser, word: string): Parser
    requires p.Valid() && p.total < MAX_PARAM_COUNT
  {
    var dir := if word == "out" then Out else if word == "inout" then InOut else In;
    var q := p.(params := p.params[p.total := p.params[p.total].(direction := dir)],
                part := if word == "in" || word == "out" || word == "inout" then 1 else 2);
    match dir
    case In => q.(ins := p.ins + 1)
    case Out => q.(outs := p.outs + 1)
    case InOut => q.(inouts := p.inouts + 1)
  }

  function FirstOf(c: char, s: string): (i: nat)
    ensures i <= |s| && c !in s[..i] && (i < |s| ==> s[i] == c)
  {
    if s == [] || s[0] == c then 0 else 1 + FirstOf(c, s[1..])
  }

  function FeedType(p: Parser, word: string): Fed
    requires p.Valid() && p.total < MAX_PARAM_COUNT && word != []
  {
    var last := if word[|word| - 1] == ',' then |word| - 1 else |word|;
    if last == 0 then Threw
    else if word[last - 1] == ')' then
      var open := FirstOf('(', word);
      if open == |word| then SetType(p, p.params[p.total].lens, word)
      else
        match Ato(word[open + 1..], 32)
        case OutOfRange => Undefined
        case Converted(n) => SetType(p, n % 0x1_0000_0000_0000_0000, word[..open]) // int to size_t
    else SetType(p, p.params[p.total].lens, word[..last])
  }

  function SetType(p: Parser, lens: nat, name: string): Fed
    requires p.Valid() && p.total < MAX_PARAM_COUNT
  {
    var typ := GetMySqlType(name);
    var q := p.(params := p.params[p.total := p.params[p.total].(lens := lens, typ := typ)]);
    if typ.Unknown? then BadType(q) else Ok(q.(total := p.total + 1, part := 0))
  }

  function Feed(p: Parser, word: string): (f: Fed)
    requires p.Valid() && word != []
    ensures f.Ok? || f.BadType? ==> f.p.Valid()
  {
    if p.part == 1 then Ok(p.(part := 2))
    else if p.total >= MAX_PARAM_COUNT then Undefined
    else if p.part == 0 then Ok(FeedDirection(p, word))
    else FeedType(p, word)
  }

  ghost predicate Wordy(words: seq<string>) {
    forall i :: 0 <= i < |words| ==> words[i] != []
  }

  /** The whole loop of Prepare. */
  ghost function FeedAll(p: Parser, words: seq<string>): (f: Fed)
    requires p.Valid() && Wordy(words)
    ensures f.Ok? || f.BadType? ==> f.p.Valid()
    decreases words
  {
    if words == [] then Ok(p)
    else
      var f := Feed(p, words[0]);
      if f.Ok? then FeedAll(f.p, words[1..]) else f
  }

  lemma {:induction false} FeedAppend(p: Parser, a: seq<string>, b: seq<string>)
    requires p.Valid() && Wordy(a) && Wordy(b)
    ensures FeedAll(p, a + b) == var f := FeedAll(p, a); if f.Ok? then FeedAll(f.p, b) else f
    decreases a
  {
    hide Feed;
    if a == [] {
      assert a + b == b;
    } else {
      assert (a + b)[1..] == a[1..] + b;
      var f := Feed(p, a[0]);
      if f.Ok? {
        FeedAppend(f.p, a[1..], b);
      }
    }
  }

  // ----- The counters -----

  function Tally(params: seq<SqlParam>, d: Direction): nat {
    if params == [] then 0
    else Tally(params[..|params| - 1], d) + if params[|params| - 1].direction == d then 1 else 0
  }

  lemma {:induction false} TallyTotal(params: seq<SqlParam>)
    ensures Tally(params, In) + Tally(params, Out) + Tally(params, InOut) == |params|
  {
    if params != [] {
      TallyTotal(params[..|params| - 1]);
    }
  }

  lemma TallyPrefix(params: seq<SqlParam>, k: nat, d: Direction)
    requires k < |params|
    ensures Tally(params[..k + 1], d) == Tally(params[..k], d) + if params[k].direction == d then 1 else 0
  {
    assert params[..k + 1][..k] == params[..k];
  }

  /** How many parameters have their direction already. */
  function Started(p: Parser): nat {
    p.total + if p.part == 0 then 0 else 1
  }

  ghost predicate Counted(p: Parser) {
    && p.Valid() && Started(p) <= MAX_PARAM_COUNT
    && var front := p.params[..Started(p)];
       p.ins == Tally(front, In) && p.outs == Tally(front, Out) && p.inouts == Tally(front, InOut)
  }

  lemma {:induction false} TallySame(a: seq<SqlParam>, b: seq<SqlParam>, d: Direction)
    requires |a| == |b| && forall i :: 0 <= i < |a| ==> a[i].direction == b[i].direction
    ensures Tally(a, d) == Tally(b, d)
  {
    if a != [] {
      TallySame(a[..|a| - 1], b[..|b| - 1], d);
    }
  }

  lemma FeedDirectionCounted(p: Parser, word: string)
    requires Counted(p) && p.part == 0 && p.total < MAX_PARAM_COUNT
    ensures Counted(FeedDirection(p, word))
  {
    var q := FeedDirection(p, word);
    var k := p.total;
    forall d: Direction ensures Tally(q.params[..k + 1], d) == Tally(p.params[..k], d) + if q.params[k].direction == d then 1 else 0 {
      assert q.params[..k] == p.params[..k];
      TallyPrefix(q.params, k, d);
    }
  }

  lemma SetTypeCounted(p: Parser, lens: nat, name: string)
    requires Counted(p) && p.part == 2 && p.total < MAX_PARAM_COUNT
    ensures SetType(p, lens, name).Ok? ==> Counted(SetType(p, lens, name).p)
  {
    hide GetMySqlType, Tally;
    var f := SetType(p, lens, name);
    if f.Ok? {
      var k := p.total + 1;
      TallySame(f.p.params[..k], p.params[..k], In);
      TallySame(f.p.params[..k], p.params[..k], Out);
      TallySame(f.p.params[..k], p.params[..k], InOut);
    }
  }

  lemma FeedCounted(p: Parser, word: string)
    requires Counted(p) && word != []
    ensures Feed(p, word).Ok? ==> Counted(Feed(p, word).p)
  {
    hide SetType, FeedDirection, Tally, Ato;
    if p.part == 0 && p.total < MAX_PARAM_COUNT {
      FeedDirectionCounted(p, word);
    } else if p.part == 2 && p.total < MAX_PARAM_COUNT {
      FeedTypeCounted(p, word);
    }
  }

  lemma FeedTypeCounted(p: Parser, word: string)
    requires Counted(p) && p.part == 2 && p.total < MAX_PARAM_COUNT && word != []
    ensures FeedType(p, word).Ok? ==> Counted(FeedType(p, word).p)
  {
    hide SetType, Tally, Ato;
    var last := if word[|word| - 1] == ',' then |word| - 1 else |word|;
    if last > 0 {
      if word[last - 1] == ')' {
        var open := FirstOf('(', word);
        if open == |word| {
          SetTypeCounted(p, p.params[p.total].lens, word);
        } else {
          var n := Ato(word[open + 1..], 32);
          if n.Converted? {
            SetTypeCounted(p, n.value % 0x1_0000_0000_0000_0000, word[..open]);
          }
        }
      } else {
        SetTypeCounted(p, p.params[p.total].lens, word[..last]);
      }
    }
  }

  /** Whatever the text, after every word the three counters are the numbers of parameters of each direction;
      between two parameters they add up to totalCount. */
  lemma {:induction false} CountersAgree(p: Parser, words: seq<string>)
    requires Counted(p) && Wordy(words)
    ensures var f := FeedAll(p, words);
            f.Ok? ==> Counted(f.p) && (f.p.part == 0 ==> f.p.ins + f.p.outs + f.p.inouts == f.p.total)
    decreases words
  {
    hide Feed, Tally;
    if words == [] {
      TallyTotal(p.params[..Started(p)]);
    } else {
      FeedCounted(p, words[0]);
      var f := Feed(p, words[0]);
      if f.Ok? {
        CountersAgree(f.p, words[1..]);
      }
    }
  }

  // ----- Printed lists -----

  /** One declared parameter as a person writes it: the direction may be left out (empty), and all words
      may mix upper and lower case. */
  datatype Decl = Decl(dir: string, name: string, typ: string, len: Option<nat>)

  predicate IsDirection(s: string) {
    s == "in" || s == "out" || s == "inout"
  }

  /** The documented shape: an optional direction, a name, a supported type with an optional length. */
  predicate Shaped(d: Decl) {
    (d.dir == "" || IsDirection(Lower(d.dir))) && IsWord(d.name) && Lower(d.typ) in TYPE_NAMES
  }

  /** Without a direction, the name reads like one. */
  predicate Misread(d: Decl) {
    d.dir == "" && IsDirection(Lower(d.name))
  }

  /** What the parser understands: the length is an int, and the name cannot be taken for a direction. */
  predicate WellFormed(d: Decl) {
    Shaped(d) && !Misread(d) && (d.len.Some? ==> d.len.value < 0x8000_0000)
  }

  function DirectionOf(d: Decl): Direction {
    if Lower(d.dir) == "out" then Out else if Lower(d.dir) == "inout" then InOut else In
  }

  function LengthText(d: Decl): string {
    if d.len.Some? then "(" + Digits(d.len.value) + ")" else ""
  }

  /** The words of a declaration; all but the last declaration end in a comma. */
  function TypeWord(d: Decl, comma: bool): string {
    d.typ + LengthText(d) + if comma then "," else ""
  }

  function DeclWords(d: Decl, comma: bool): seq<string> {
    (if d.dir == "" then [] else [d.dir]) + [d.name, TypeWord(d, comma)]
  }

  function ListWords(ds: seq<Decl>): seq<string> {
    if ds == [] then [] else DeclWords(ds[0], |ds| > 1) + ListWords(ds[1..])
  }

  /** What the declaration means. */
  function Meaning(d: Decl, before: SqlParam): SqlParam
    requires WellFormed(d)
  {
    SqlParam(DirectionOf(d), TYPE_NAMES[Lower(d.typ)], if d.len.Some? then d.len.value else before.lens, before.bindValue)
  }

  function Declared(p: Parser, d: Decl): Parser
    requires p.Valid() && p.total < MAX_PARAM_COUNT && WellFormed(d)
  {
    var q := p.(total := p.total + 1, params := p.params[p.total := Meaning(d, p.params[p.total])]);
    match DirectionOf(d)
    case In => q.(ins := p.ins + 1)
    case Out => q.(outs := p.outs + 1)
    case InOut => q.(inouts := p.inouts + 1)
  }

  predicate Letters(s: string) {
    s != [] && forall i :: 0 <= i < |s| ==> 'a' <= s[i] <= 'z'
  }

  lemma TypeNamesAreLetters(s: string)
    requires s in TYPE_NAMES
    ensures Letters(s)
  {
    assert Letters("blob") && Letters("bigint") && Letters("int") && Letters("char") && Letters("varchar");
  }

  lemma LowerLetters(s: string)
    requires Letters(Lower(s))
    ensures IsWord(s)
  {
    forall i | 0 <= i < |s| ensures !IsSpace(s[i]) {
      assert 'a' <= Lower(s)[i];
    }
  }

  lemma FirstOfAt(c: char, a: string, b: string)
    requires c !in a
    ensures FirstOf(c, a + [c] + b) == |a|
  {
    assert (a + [c] + b)[|a|] == c;
  }

  lemma LowerKeepsDigits(s: string)
    requires AllDigits(s)
    ensures Lower(s) == s
  {
  }

  lemma LowerTypeWord(d: Decl, comma: bool)
    ensures Lower(TypeWord(d, comma)) == Lower(d.typ) + LengthText(d) + if comma then "," else ""
  {
    LowerConcat(d.typ + LengthText(d), if comma then "," else "");
    LowerConcat(d.typ, LengthText(d));
    assert Lower(",") == "," && Lower("") == "";
    if d.len.Some? {
      LowerConcat("(" + Digits(d.len.value), ")");
      LowerConcat("(", Digits(d.len.value));
      LowerKeepsDigits(Digits(d.len.value));
      assert Lower("(") == "(" && Lower(")") == ")";
    }
  }

  lemma FeedPlainType(p: Parser, name: string, comma: bool)
    requires p.Valid() && p.total < MAX_PARAM_COUNT && Letters(name)
    ensures FeedType(p, name + if comma then "," else "") == SetType(p, p.params[p.total].lens, name)
  {
    hide SetType;
    var word := name + if comma then "," else "";
    assert word[..|name|] == name;
    assert word[|name| - 1] == name[|name| - 1];
  }

  lemma ToStringOfNat(n: nat)
    ensures ToString(n) == Digits(n)
  {
  }

  lemma FeedSizedType(p: Parser, name: string, n: nat, comma: bool)
    requires p.Valid() && p.total < MAX_PARAM_COUNT && Letters(name)
    ensures FeedType(p, name + ("(" + Digits(n) + ")") + if comma then "," else "")
         == if n < 0x8000_0000 then SetType(p, n, name) else Undefined
  {
    hide SetType, Digits, ReadInt, FirstOf, ToString;
    var tail := ")" + if comma then "," else "";
    var word := name + ("(" + Digits(n) + ")") + if comma then "," else "";
    assert word == name + ['('] + (Digits(n) + tail);
    FirstOfAt('(', name, Digits(n) + tail);
    assert word[|name| + 1..] == Digits(n) + tail;
    ReadBack(n, tail);
    assert word[..|name|] == name;
    ToStringOfNat(n);
    var last := if comma then |word| - 1 else |word|;
    assert word[last - 1] == ')';
  }

  lemma FeedTypeWord(p: Parser, d: Decl, comma: bool)
    requires p.Valid() && p.total < MAX_PARAM_COUNT && WellFormed(d) && p.part == 2
    ensures var word := Lower(TypeWord(d, comma));
            var lens := if d.len.Some? then d.len.value else p.params[p.total].lens;
            word != [] && FeedType(p, word) == SetType(p, lens, Lower(d.typ))
  {
    hide SetType, FeedType, Digits;
    LowerTypeWord(d, comma);
    TypeNamesAreLetters(Lower(d.typ));
    if d.len.Some? {
      FeedSizedType(p, Lower(d.typ), d.len.value, comma);
    } else {
      FeedPlainType(p, Lower(d.typ), comma);
      assert Lower(d.typ) + "" == Lower(d.typ);
    }
  }

  lemma SetTypeDeclares(p: Parser, q: Parser, d: Decl)
    requires p.Valid() && p.total < MAX_PARAM_COUNT && p.part == 0 && WellFormed(d)
    requires q == FeedDirection(p, if d.dir == "" then Lower(d.name) else Lower(d.dir)).(part := 2)
    ensures SetType(q, if d.len.Some? then d.len.value else p.params[p.total].lens, Lower(d.typ)) == Ok(Declared(p, d))
  {
    GetMySqlTypeIsTable(Lower(d.typ));
    hide GetMySqlType;
    assert Lower("") == "";
  }

  lemma {:induction false} FeedThree(p: Parser, a: string, b: string, c: string)
    requires p.Valid() && a != [] && b != [] && c != []
    ensures FeedAll(p, [a, b, c]) == var f := Feed(p, a); if !f.Ok? then f
                                     else var g := Feed(f.p, b); if !g.Ok? then g else Feed(g.p, c)
  {
    hide Feed;
    assert [a, b, c][1..] == [b, c] && [b, c][1..] == [c] && [c][1..] == [];
    var f := Feed(p, a);
    if f.Ok? {
      assert FeedAll(f.p, [b, c]) == var g := Feed(f.p, b); if g.Ok? then FeedAll(g.p, [c]) else g;
      var g := Feed(f.p, b);
      if g.Ok? {
        FeedOne(g.p, c);
      }
    }
  }

  lemma FeedOne(p: Parser, a: string)
    requires p.Valid() && a != []
    ensures FeedAll(p, [a]) == Feed(p, a)
  {
    hide Feed;
    assert [a][1..] == [];
  }

  lemma FeedTwo(p: Parser, a: string, b: string)
    requires p.Valid() && a != [] && b != []
    ensures FeedAll(p, [a, b]) == var f := Feed(p, a); if f.Ok? then Feed(f.p, b) else f
  {
    hide Feed;
    assert [a, b][1..] == [b];
    var f := Feed(p, a);
    if f.Ok? {
      FeedOne(f.p, b);
    }
  }

  /** The words of one declaration move the parser one parameter on. */
  lemma FeedDecl(p: Parser, d: Decl, comma: bool)
    requires p.Valid() && p.total < MAX_PARAM_COUNT && p.part == 0 && WellFormed(d)
    ensures Wordy(LowerAll(DeclWords(d, comma)))
    ensures FeedAll(p, LowerAll(DeclWords(d, comma))) == Ok(Declared(p, d))
  {
    hide FeedType, SetType, FeedAll, Lower, GetMySqlType, TypeWord, Declared;
    var name, typ := Lower(d.name), Lower(TypeWord(d, comma));
    if d.dir == "" {
      var q := FeedDirection(p, name);
      FeedTypeWord(q, d, comma);
      assert LowerAll(DeclWords(d, comma)) == [name, typ];
      FeedTwo(p, name, typ);
      SetTypeDeclares(p, q, d);
    } else {
      var dir := Lower(d.dir);
      var q := FeedDirection(p, dir);
      FeedTypeWord(q.(part := 2), d, comma);
      assert LowerAll(DeclWords(d, comma)) == [dir, name, typ];
      FeedThree(p, dir, name, typ);
      SetTypeDeclares(p, q.(part := 2), d);
    }
  }

  lemma {:induction false} LowerAllAppend(a: seq<string>, b: seq<string>)
    ensures LowerAll(a + b) == LowerAll(a) + LowerAll(b)
  {
  }

  ghost predicate AllShaped(ds: seq<Decl>) {
    forall i :: 0 <= i < |ds| ==> Shaped(ds[i])
  }

  ghost predicate AllWellFormed(ds: seq<Decl>) {
    forall i :: 0 <= i < |ds| ==> WellFormed(ds[i])
  }

  ghost function ListDeclared(p: Parser, ds: seq<Decl>): Parser
    requires p.Valid() && p.total + |ds| <= MAX_PARAM_COUNT && AllWellFormed(ds)
    decreases ds
  {
    if ds == [] then p else ListDeclared(Declared(p, ds[0]), ds[1..])
  }

  lemma {:induction false} FeedList(p: Parser, ds: seq<Decl>)
    requires p.Valid() && p.part == 0 && p.total + |ds| <= MAX_PARAM_COUNT && AllWellFormed(ds)
    ensures Wordy(LowerAll(ListWords(ds)))
    ensures FeedAll(p, LowerAll(ListWords(ds))) == Ok(ListDeclared(p, ds))
    decreases ds
  {
    hide DeclWords, Lower, WellFormed, Feed;
    if ds != [] {
      var first, rest := DeclWords(ds[0], |ds| > 1), ListWords(ds[1..]);
      FeedDecl(p, ds[0], |ds| > 1);
      FeedList(Declared(p, ds[0]), ds[1..]);
      LowerAllAppend(first, rest);
      FeedAppend(p, LowerAll(first), LowerAll(rest));
    }
  }

  lemma {:induction false} ListDeclaredMeans(p: Parser, ds: seq<Decl>)
    requires p.Valid() && p.part == 0 && p.total + |ds| <= MAX_PARAM_COUNT && AllWellFormed(ds)
    ensures var q := ListDeclared(p, ds);
            && q.Valid() && q.part == 0 && q.total == p.total + |ds|
            && (forall i :: 0 <= i < |ds| ==> q.params[p.total + i] == Meaning(ds[i], p.params[p.total + i]))
            && (forall i :: 0 <= i < p.total ==> q.params[i] == p.params[i])
    decreases ds
  {
    hide WellFormed, Meaning, DirectionOf, Lower;
    if ds != [] {
      var next := Declared(p, ds[0]);
      ListDeclaredMeans(next, ds[1..]);
      var q := ListDeclared(p, ds);
      forall i | 0 <= i < |ds| ensures q.params[p.total + i] == Meaning(ds[i], p.params[p.total + i]) {
        if i > 0 {
          assert q.params[next.total + (i - 1)] == Meaning(ds[1..][i - 1], next.params[next.total + (i - 1)]);
        } else {
          assert q.params[p.total] == next.params[p.total];
        }
      }
    }
  }

  lemma {:induction false} ListWordsAreWords(ds: seq<Decl>)
    requires AllShaped(ds)
    ensures forall i :: 0 <= i < |ListWords(ds)| ==> IsWord(ListWords(ds)[i])
  {
    hide DeclWords, Shaped;
    if ds != [] {
      ListWordsAreWords(ds[1..]);
      DeclWordsAreWords(ds[0], |ds| > 1);
    }
  }

  lemma DeclWordsAreWords(d: Decl, comma: bool)
    requires Shaped(d)
    ensures forall i :: 0 <= i < |DeclWords(d, comma)| ==> IsWord(DeclWords(d, comma)[i])
  {
    hide Digits;
    TypeNamesAreLetters(Lower(d.typ));
    LowerLetters(d.typ);
    if d.dir != "" {
      assert Letters("in") && Letters("out") && Letters("inout");
      LowerLetters(d.dir);
    }
    TypeWordIsWord(d, comma);
  }

  lemma TypeWordIsWord(d: Decl, comma: bool)
    requires IsWord(d.typ)
    ensures IsWord(TypeWord(d, comma))
  {
    hide Digits;
    assert d.len.Some? ==> forall c :: c in Digits(d.len.value) ==> IsDigit(c);
  }

  lemma LowerIsWord(s: string)
    requires IsWord(s)
    ensures IsWord(Lower(s))
  {
  }

  ghost function Start(): (p: Parser)
    ensures Counted(p) && p.part == 0 && p.total == 0
    ensures forall i :: 0 <= i < MAX_PARAM_COUNT ==> p.params[i] == CLEARED
  {
    Parser(0, 0, 0, 0, 0, seq(MAX_PARAM_COUNT, _ => CLEARED))
  }

  /** The words of a list in the documented shape, however it is laid out. */
  lemma ListTokens(ds: seq<Decl>, gaps: seq<string>, tail: string)
    requires AllShaped(ds) && |gaps| == |ListWords(ds)| && Separating(gaps) && Blank(tail)
    ensures Wordy(LowerAll(ListWords(ds)))
    ensures Tokens(Lower(Spaced(ListWords(ds), gaps, tail))) == LowerAll(ListWords(ds))
  {
    hide Tokens, Lower, Spaced, ListWords, Shaped;
    var words := ListWords(ds);
    ListWordsAreWords(ds);
    LowerSpaced(words, gaps, tail);
    forall i | 0 <= i < |words| ensures IsWord(LowerAll(words)[i]) {
      LowerIsWord(words[i]);
    }
    TokensOfSpaced(LowerAll(words), gaps, tail);
  }

  /** Print and parse: a list of at most ten declarations, in any case and with any white space between the words,
      gives back its directions, types and lengths, in order, and the right counters. */
  lemma PrepareReadsList(ds: seq<Decl>, gaps: seq<string>, tail: string)
    requires |ds| <= MAX_PARAM_COUNT && AllWellFormed(ds)
    requires |gaps| == |ListWords(ds)| && Separating(gaps) && Blank(tail)
    ensures var f := FeedAll(Start(), Tokens(Lower(Spaced(ListWords(ds), gaps, tail))));
            && f.Ok? && f.p.part == 0 && f.p.total == |ds|
            && (forall i :: 0 <= i < |ds| ==> f.p.params[i] == Meaning(ds[i], CLEARED))
            && f.p.ins == Tally(f.p.params[..|ds|], In)
            && f.p.outs == Tally(f.p.params[..|ds|], Out)
            && f.p.inouts == Tally(f.p.params[..|ds|], InOut)
  {
    hide Tokens, Lower, Spaced, ListWords, WellFormed, Meaning, Tally, ListDeclared, FeedAll;
    assert AllShaped(ds) by {
      forall i | 0 <= i < |ds| ensures Shaped(ds[i]) {
        assert WellFormed(ds[i]);
        WellFormedIsShaped(ds[i]);
      }
    }
    ListTokens(ds, gaps, tail);
    FeedList(Start(), ds);
    ListDeclaredMeans(Start(), ds);
    CountersAgree(Start(), LowerAll(ListWords(ds)));
  }

  lemma WellFormedIsShaped(d: Decl)
    requires WellFormed(d)
    ensures Shaped(d)
  {
  }

  // ----- Lists that are misread -----

  lemma TypeWordIsNoDirection(d: Decl, comma: bool)
    requires Shaped(d)
    ensures Lower(TypeWord(d, comma)) != [] && !IsDirection(Lower(TypeWord(d, comma)))
  {
    hide Digits, Lower;
    LowerTypeWord(d, comma);
    var typ, word := Lower(d.typ), Lower(TypeWord(d, comma));
    assert typ == "blob" || typ == "bigint" || typ == "int" || typ == "char" || typ == "varchar";
    assert |typ| >= 3 && word[0] == typ[0] && word[2] == typ[2];
    assert typ[0] != 'o' && (typ[0] == 'i' ==> typ[2] == 't');
  }

  /** A parser that expects a type where a declaration starts: a direction is no type, and a name that passes for
      one leaves the type to be taken for a name without a direction. */
  lemma DerailedDecl(p: Parser, d: Decl, comma: bool)
    requires p.Valid() && p.part == 2 && Shaped(d)
    ensures Wordy(LowerAll(DeclWords(d, comma)))
    ensures var f := FeedAll(p, LowerAll(DeclWords(d, comma))); f.Ok? ==> f.p.part == 2
  {
    hide FeedAll, Lower, TypeWord, Ato, FirstOf;
    var name, typ := Lower(d.name), Lower(TypeWord(d, comma));
    TypeWordIsNoDirection(d, comma);
    if d.dir == "" {
      assert LowerAll(DeclWords(d, comma)) == [name, typ];
      FeedTwo(p, name, typ);
    } else {
      var dir := Lower(d.dir);
      assert LowerAll(DeclWords(d, comma)) == [dir, name, typ];
      FeedThree(p, dir, name, typ);
      DirectionIsNoType(p, dir);
    }
  }

  lemma DirectionIsNoType(p: Parser, word: string)
    requires p.Valid() && p.part == 2 && IsDirection(word)
    ensures !Feed(p, word).Ok?
  {
    assert word[..|word|] == word;
  }

  lemma {:induction false} Derailed(p: Parser, ds: seq<Decl>)
    requires p.Valid() && p.part == 2 && AllShaped(ds)
    ensures Wordy(LowerAll(ListWords(ds)))
    ensures var f := FeedAll(p, LowerAll(ListWords(ds))); f.Ok? ==> f.p.part == 2
    decreases ds
  {
    hide DeclWords, Lower, Shaped, Feed;
    if ds != [] {
      var first, rest := DeclWords(ds[0], |ds| > 1), ListWords(ds[1..]);
      DerailedDecl(p, ds[0], |ds| > 1);
      var f := FeedAll(p, LowerAll(first));
      Derailed(if f.Ok? then f.p else p, ds[1..]);
      LowerAllAppend(first, rest);
      FeedAppend(p, LowerAll(first), LowerAll(rest));
    }
  }

  /** A declaration that is not well formed, or one too many, stops the parser or derails it. */
  lemma BadDecl(p: Parser, d: Decl, comma: bool)
    requires p.Valid() && p.part == 0 && Shaped(d) && (WellFormed(d) ==> p.total == MAX_PARAM_COUNT)
    ensures Wordy(LowerAll(DeclWords(d, comma)))
    ensures var f := FeedAll(p, LowerAll(DeclWords(d, comma))); f.Ok? ==> f.p.part == 2
  {
    hide FeedAll, Lower, TypeWord, FeedType, GetMySqlType;
    var name, typ := Lower(d.name), Lower(TypeWord(d, comma));
    TypeWordIsNoDirection(d, comma);
    if d.dir == "" {
      assert LowerAll(DeclWords(d, comma)) == [name, typ];
      FeedTwo(p, name, typ);
    } else {
      assert LowerAll(DeclWords(d, comma)) == [Lower(d.dir), name, typ];
      FeedThree(p, Lower(d.dir), name, typ);
    }
    if p.total < MAX_PARAM_COUNT && !Misread(d) {
      var q := FeedDirection(p, if d.dir == "" then name else Lower(d.dir));
      LongTypeIsUndefined(q.(part := 2), d, comma);
    }
  }

  lemma LongTypeIsUndefined(p: Parser, d: Decl, comma: bool)
    requires p.Valid() && p.total < MAX_PARAM_COUNT && Shaped(d) && d.len.Some? && d.len.value >= 0x8000_0000
    ensures Lower(TypeWord(d, comma)) != [] && FeedType(p, Lower(TypeWord(d, comma))) == Undefined
  {
    hide SetType, FeedType, Digits, Lower;
    LowerTypeWord(d, comma);
    TypeNamesAreLetters(Lower(d.typ));
    FeedSizedType(p, Lower(d.typ), d.len.value, comma);
  }

  lemma FeedNothing(p: Parser)
    requires p.Valid()
    ensures LowerAll([]) == [] && FeedAll(p, []) == Ok(p)
  {
  }

  lemma {:induction false} FeedListExactly(p: Parser, ds: seq<Decl>)
    requires p.Valid() && p.part == 0 && AllShaped(ds)
    ensures Wordy(LowerAll(ListWords(ds)))
    ensures var f := FeedAll(p, LowerAll(ListWords(ds)));
            f.Ok? && f.p.part == 0 <==> p.total + |ds| <= MAX_PARAM_COUNT && AllWellFormed(ds)
    decreases ds
  {
    hide DeclWords, Lower, Shaped, WellFormed, Feed, Declared, LowerAll, FeedAll;
    if ds == [] {
      FeedNothing(p);
    } else {
      var d, comma := ds[0], |ds| > 1;
      var first, rest := DeclWords(d, comma), ListWords(ds[1..]);
      if p.total < MAX_PARAM_COUNT && WellFormed(d) {
        FeedDecl(p, d, comma);
        DeclaredNext(p, d);
        FeedListExactly(Declared(p, d), ds[1..]);
      } else {
        BadDecl(p, d, comma);
        var f := FeedAll(p, LowerAll(first));
        Derailed(if f.Ok? then f.p else p.(part := 2), ds[1..]);
      }
      LowerAllAppend(first, rest);
      FeedAppend(p, LowerAll(first), LowerAll(rest));
    }
  }

  lemma DeclaredNext(p: Parser, d: Decl)
    requires p.Valid() && p.part == 0 && p.total < MAX_PARAM_COUNT && WellFormed(d)
    ensures Declared(p, d).Valid() && Declared(p, d).part == 0 && Declared(p, d).total == p.total + 1
  {
  }

  /** For every list in the documented shape, of any length and layout: the parser gets to its end between two
      parameters, with one parameter per declaration, if and only if there are at most ten declarations, every length
      is an int, and no declaration without a direction has a name that reads like one. */
  lemma PrepareReadsExactly(ds: seq<Decl>, gaps: seq<string>, tail: string)
    requires AllShaped(ds) && |gaps| == |ListWords(ds)| && Separating(gaps) && Blank(tail)
    ensures var f := FeedAll(Start(), Tokens(Lower(Spaced(ListWords(ds), gaps, tail))));
            f.Ok? && f.p.part == 0 && f.p.total == |ds| <==> |ds| <= MAX_PARAM_COUNT && AllWellFormed(ds)
  {
    hide Tokens, Lower, Spaced, ListWords, Shaped, WellFormed, FeedAll;
    ListTokens(ds, gaps, tail);
    FeedListExactly(Start(), ds);
    if |ds| <= MAX_PARAM_COUNT && AllWellFormed(ds) {
      PrepareReadsList(ds, gaps, tail);
    }
  }

  // ----- Upper and lower case -----

  /** A declaration written without capitals, word for word. */
  predicate InLowerCase(d: Decl) {
    && d.dir in ["", "in", "out", "inout"] && d.typ in ["int", "bigint", "char", "varchar", "blob"]
    && IsWord(d.name) && NoCapitals(d.name)
  }

  lemma LowerCaseIsShaped(d: Decl)
    requires InLowerCase(d)
    ensures Shaped(d) && Lower(d.dir) == d.dir && Lower(d.name) == d.name && Lower(d.typ) == d.typ
  {
    hide UPPER, Lower;
    Alphabets();
    assert NoCapitals(d.dir) && NoCapitals(d.typ);
    LowerKeeps(d.dir);
    LowerKeeps(d.name);
    LowerKeeps(d.typ);
  }

  /** What a text says when it is, but for upper and lower case, a list of declarations laid out with any white space.
      It is parsed to its end, one parameter per declaration, if and only if there are at most ten, every length is an
      int, and no declaration without a direction is named like one; and then every parameter has the direction, type
      and length that were written, IN and 0 where nothing was. */
  lemma PrepareReadsAnyCase(text: string, ds: seq<Decl>, gaps: seq<string>, tail: string)
    requires forall i :: 0 <= i < |ds| ==> InLowerCase(ds[i])
    requires |gaps| == |ListWords(ds)| && Separating(gaps) && Blank(tail)
    requires SameButCase(text, Spaced(ListWords(ds), gaps, tail))
    ensures var f := FeedAll(Start(), Tokens(Lower(text)));
            && (f.Ok? && f.p.part == 0 && f.p.total == |ds| <==>
                  && |ds| <= 10
                  && forall i :: 0 <= i < |ds| ==>
                       && (ds[i].dir == "" ==> ds[i].name !in ["in", "out", "inout"])
                       && (ds[i].len.Some? ==> ds[i].len.value <= 2147483647))
            && (f.Ok? && f.p.part == 0 && f.p.total == |ds| ==>
                  forall i :: 0 <= i < |ds| ==> i < |f.p.params| && AsWritten(ds[i], f.p.params[i]))
  {
    hide Tokens, Lower, Spaced, ListWords, FeedAll, SameButCase;
    LowerIgnoresCase(text, Spaced(ListWords(ds), gaps, tail));
    forall i | 0 <= i < |ds|
      ensures Shaped(ds[i])
      ensures WellFormed(ds[i]) <==> && (ds[i].dir == "" ==> ds[i].name !in ["in", "out", "inout"])
                                     && (ds[i].len.Some? ==> ds[i].len.value <= 2147483647)
      ensures WellFormed(ds[i]) ==> AsWritten(ds[i], Meaning(ds[i], CLEARED))
    {
      LowerCaseIsShaped(ds[i]);
    }
    PrepareReadsExactly(ds, gaps, tail);
    if |ds| <= MAX_PARAM_COUNT && AllWellFormed(ds) {
      PrepareReadsList(ds, gaps, tail);
    }
  }

  /** Direction, type and length as written, and no value yet. */
  predicate AsWritten(d: Decl, p: SqlParam) {
    && p.direction == (if d.dir == "out" then Out else if d.dir == "inout" then InOut else In)
    && p.typ == (if d.typ == "int" then Long else if d.typ == "bigint" then LongLong else if d.typ == "blob" then Blob else Text)
    && p.lens == (if d.len.Some? then d.len.value else 0)
    && p.bindValue == Nothing
  }

  // ----- Types that are not supported -----

  /** As documented, but for the type: some other name. */
  predicate Unsupported(d: Decl) {
    && (d.dir == "" || IsDirection(Lower(d.dir))) && IsWord(d.name) && !Misread(d)
    && Letters(Lower(d.typ)) && Lower(d.typ) !in ["int", "bigint", "char", "varchar", "blob"]
    && (d.len.Some? ==> d.len.value <= 2147483647)
  }

  lemma UnsupportedDecl(p: Parser, d: Decl, comma: bool)
    requires p.Valid() && p.part == 0 && p.total < MAX_PARAM_COUNT && Unsupported(d)
    ensures Wordy(LowerAll(DeclWords(d, comma)))
    ensures FeedAll(p, LowerAll(DeclWords(d, comma))).BadType?
  {
    hide FeedType, FeedAll, Lower, GetMySqlType, TypeWord;
    var name, typ := Lower(d.name), Lower(TypeWord(d, comma));
    var q := FeedDirection(p, if d.dir == "" then name else Lower(d.dir)).(part := 2);
    UnsupportedType(q, d, comma);
    if d.dir == "" {
      assert LowerAll(DeclWords(d, comma)) == [name, typ];
      FeedTwo(p, name, typ);
    } else {
      assert LowerAll(DeclWords(d, comma)) == [Lower(d.dir), name, typ];
      FeedThree(p, Lower(d.dir), name, typ);
    }
  }

  lemma UnsupportedType(p: Parser, d: Decl, comma: bool)
    requires p.Valid() && p.total < MAX_PARAM_COUNT && Unsupported(d)
    ensures Lower(TypeWord(d, comma)) != [] && FeedType(p, Lower(TypeWord(d, comma))).BadType?
  {
    hide FeedType, Digits, Lower;
    LowerTypeWord(d, comma);
    var name := Lower(d.typ);
    GetMySqlTypeIsTable(name);
    if d.len.Some? {
      FeedSizedType(p, name, d.len.value, comma);
    } else {
      FeedPlainType(p, name, comma);
      assert name + "" == name;
    }
  }

  /** Wherever it stands among the first ten declarations, an unsupported type is refused, whatever follows it. */
  lemma {:induction false} UnsupportedTypeIsRefused(p: Parser, ds: seq<Decl>, k: nat)
    requires p.Valid() && p.part == 0 && k < |ds| && p.total + k < MAX_PARAM_COUNT
    requires (forall i :: 0 <= i < k ==> WellFormed(ds[i])) && Unsupported(ds[k])
    requires Wordy(LowerAll(ListWords(ds)))
    ensures FeedAll(p, LowerAll(ListWords(ds))).BadType?
    decreases k
  {
    hide DeclWords, Lower, WellFormed, Unsupported, Feed, Declared;
    var first, rest := DeclWords(ds[0], |ds| > 1), ListWords(ds[1..]);
    LowerAllAppend(first, rest);
    assert LowerAll(ListWords(ds)) == LowerAll(first) + LowerAll(rest);
    WordyParts(LowerAll(first), LowerAll(rest));
    if k == 0 {
      UnsupportedDecl(p, ds[0], |ds| > 1);
    } else {
      FeedDecl(p, ds[0], |ds| > 1);
      DeclaredNext(p, ds[0]);
      UnsupportedTypeIsRefused(Declared(p, ds[0]), ds[1..], k - 1);
    }
    FeedAppend(p, LowerAll(first), LowerAll(rest));
  }

  lemma WordyParts(a: seq<string>, b: seq<string>)
    requires Wordy(a + b)
    ensures Wordy(a) && Wordy(b)
  {
    forall i | 0 <= i < |a| ensures a[i] != [] {
      assert (a + b)[i] == a[i];
    }
    forall i | 0 <= i < |b| ensures b[i] != [] {
      assert (a + b)[|a| + i] == b[i];
    }
  }

  /** A comma on its own where a type is due makes at(-1) throw. */
  lemma StrayComma(p: Parser)
    requires p.Valid() && p.part == 2 && p.total < MAX_PARAM_COUNT
    ensures Feed(p, ",") == Threw
  {
  }
}
