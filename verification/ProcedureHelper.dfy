/** ProcedureHelper: prepares a stored procedure call from the procedure's parameter list, builds its SQL in
    a fixed buffer, runs it and binds the results. The database is a parameter: it answers what it likes. */
module ProcedureHelper {
  import opened Endian
  import opened Options
  import opened Decimal
  import opened Words
  import opened ParamList
  import opened SqlText
  import opened QueryText

  const BUFFER_SIZE: nat := 0xFA00

  /** What the query for the parameter list brought. */
  datatype Lookup = QueryFailed | NoRows | FetchFailed | Found(text: string)

  /** How a call ends: with a return code, with a C++ exception, or outside what the language defines. */
  datatype Outcome = Returned(code: int) | Raised | Lost

  /** The database's side of Execute: return codes, number of result rows, and the row; a column may be NULL. */
  datatype Answers = Answers(setCode: int, callCode: int, selectCode: int, rows: int, fetchCode: int, row: seq<Option<string>>)

  // ----- Values -----

  datatype Rendered = Rendered(s: string) | BadAnyCast

  /** AnyValueToString; the empty string is its error result. */
  function AnyValueToString(p: SqlParam): Rendered {
    match p.typ
    case Long => if p.bindValue.Int32? then Rendered(ToString(p.bindValue.n)) else BadAnyCast
    case LongLong => if p.bindValue.Int64? then Rendered(ToString(p.bindValue.n)) else BadAnyCast
    case Text => if p.bindValue.CString? then Rendered("'" + p.bindValue.s + "'") else BadAnyCast
    case _ => Rendered("")
  }

  /** Which C type int64_t names: atoll returns a long long, and any_cast wants the very type. */
  datatype Platform = Int64IsLong | Int64IsLongLong

  /** What SqlValueToAny does: it stores a value; any_cast throws; or atoi is given a null pointer or a number out
      of range, which is undefined. */
  datatype Conversion = Stored(p: SqlParam) | BadCast | NoNumber

  /** SqlValueToAny. The blob branch asks for a void* in an any made from a char*, which any_cast refuses. */
  function SqlValueToAny(p: SqlParam, value: Option<string>, platform: Platform): Conversion {
    match p.typ
    case Long =>
      if value.None? || Ato(value.value, 32).OutOfRange? then NoNumber
      else Stored(p.(bindValue := Int32(Ato(value.value, 32).value)))
    case LongLong =>
      if value.None? || Ato(value.value, 64).OutOfRange? then NoNumber
      else if platform.Int64IsLong? then BadCast
      else Stored(p.(bindValue := Int64(Ato(value.value, 64).value)))
    case Text => Stored(p.(bindValue := if value.None? then NullString else CString(UpToNul(value.value))))
    case Blob => BadCast
    case _ => Stored(p)
  }

  /** Every int that went out as decimal text comes back as the same int; every int64_t does so exactly where
      int64_t is long long, and elsewhere the conversion throws. */
  lemma IntegersSurvive(p: SqlParam, platform: Platform)
    requires p.typ.Long? || p.typ.LongLong?
    requires Bindable(p) && !p.direction.Out?
    ensures AnyValueToString(p).Rendered?
    ensures var back := SqlValueToAny(p, Some(AnyValueToString(p).s), platform);
            if p.typ.Long? || platform.Int64IsLongLong? then back == Stored(p) else back == BadCast
  {
    hide Ato, ToString;
    Decimal.RoundTrip(p.bindValue.n, if p.typ.Long? then 32 else 64);
  }

  /** Whatever the parameter held before, a column with the text of a number stores that number, if it is in range. */
  lemma NumberIsStored(p: SqlParam, n: int, platform: Platform)
    ensures var c := SqlValueToAny(p, Some(ToString(n)), platform);
            && (p.typ.Long? ==>
                  c == if -2147483648 <= n <= 2147483647 then Stored(p.(bindValue := Int32(n))) else NoNumber)
            && (p.typ.LongLong? ==>
                  c == if !(-9223372036854775808 <= n <= 9223372036854775807) then NoNumber
                       else if platform.Int64IsLongLong? then Stored(p.(bindValue := Int64(n))) else BadCast)
    ensures p.typ.Long? || p.typ.LongLong? ==> SqlValueToAny(p, None, platform) == NoNumber
  {
    hide Ato, ToString;
    Decimal.RoundTrip(n, 32);
    Decimal.RoundTrip(n, 64);
  }

  /** A string parameter gets the text of the column up to a NUL, or the null pointer; a blob never gets anything. */
  lemma TextIsStored(p: SqlParam, s: string, tail: string, platform: Platform)
    requires '\0' !in s && (tail == [] || tail[0] == '\0')
    ensures p.typ.Text? ==> SqlValueToAny(p, Some(s + tail), platform) == Stored(p.(bindValue := CString(s)))
    ensures p.typ.Text? ==> SqlValueToAny(p, None, platform) == Stored(p.(bindValue := NullString))
    ensures p.typ.Blob? ==> SqlValueToAny(p, Some(s + tail), platform) == SqlValueToAny(p, None, platform) == BadCast
  {
    UpToNulAt(s, tail);
  }

  /** What a parameter holds once a column has been stored in it, whatever it held before: the number the text spells,
      the string, or the null pointer for NULL; direction, type and length stay. */
  ghost predicate HoldsResult(before: SqlParam, value: Option<string>, after: SqlParam) {
    && after == before.(bindValue := after.bindValue)
    && (before.typ.Long? ==> forall n :: value == Some(ToString(n)) ==> after.bindValue == Int32(n))
    && (before.typ.LongLong? ==> forall n :: value == Some(ToString(n)) ==> after.bindValue == Int64(n))
    && (before.typ.Text? && value.Some? && '\0' !in value.value ==> after.bindValue == CString(value.value))
    && (before.typ.Text? && value.None? ==> after.bindValue == NullString)
    && !before.typ.Blob?
  }

  lemma StoredHolds(p: SqlParam, value: Option<string>, platform: Platform)
    ensures var c := SqlValueToAny(p, value, platform); c.Stored? ==> HoldsResult(p, value, c.p)
  {
    hide Ato, ToString, UpToNul;
    var c := SqlValueToAny(p, value, platform);
    if c.Stored? {
      forall n | value == Some(ToString(n))
        ensures p.typ.Long? ==> c.p.bindValue == Int32(n)
        ensures p.typ.LongLong? ==> c.p.bindValue == Int64(n)
      {
        NumberIsStored(p, n, platform);
      }
      if value.Some? && '\0' !in value.value {
        TextIsStored(p, value.value, "", platform);
        assert value.value + "" == value.value;
      }
    }
  }

  /** How the final loop of Execute ends, from column `j` on. */
  function BindOutcome(ps: Params, first: nat, n: nat, j: nat, row: seq<Option<string>>, platform: Platform): Outcome
    requires j <= n && first + n <= |ps|
    decreases n - j
  {
    if j == n then Returned(0)
    else if j >= |row| then Lost
    else
      match SqlValueToAny(ps[first + j], row[j], platform)
      case Stored(_) => BindOutcome(ps, first, n, j + 1, row, platform)
      case BadCast => Raised
      case NoNumber => Lost
  }

  /** A column that can be bound, said of its text alone. */
  predicate Binds(typ: SqlType, value: Option<string>, platform: Platform) {
    match typ
    case Long => value.Some? && Ato(value.value, 32).Converted?
    case LongLong => value.Some? && Ato(value.value, 64).Converted? && platform.Int64IsLongLong?
    case Blob => false
    case _ => true
  }

  /** Results can be bound if and only if there are enough columns, each integer is there and in range, no parameter
      in the bound range is a blob, and none is a bigint where int64_t is long. */
  lemma {:induction false} BindingSucceeds(ps: Params, first: nat, n: nat, j: nat, row: seq<Option<string>>, platform: Platform)
    requires j <= n && first + n <= |ps|
    ensures BindOutcome(ps, first, n, j, row, platform) == Returned(0)
        <==> (j < n ==> n <= |row|) && forall k :: j <= k < n ==> Binds(ps[first + k].typ, row[k], platform)
    decreases n - j
  {
    hide Ato;
    if j < n && j < |row| && Binds(ps[first + j].typ, row[j], platform) {
      BindingSucceeds(ps, first, n, j + 1, row, platform);
    }
  }

  /** A column whose conversion throws: any blob, and a number for a bigint where int64_t is long. */
  predicate Throws(typ: SqlType, value: Option<string>, platform: Platform) {
    || typ.Blob?
    || (typ.LongLong? && value.Some? && Ato(value.value, 64).Converted? && platform.Int64IsLong?)
  }

  /** Otherwise the first column that cannot be bound decides: an exception if its conversion throws, and undefined
      behaviour if it is missing or no number. */
  lemma {:induction false} BindingFails(ps: Params, first: nat, n: nat, j: nat, k: nat, row: seq<Option<string>>, platform: Platform)
    requires j <= k < n && first + n <= |ps| && k <= |row|
    requires forall i :: j <= i < k ==> Binds(ps[first + i].typ, row[i], platform)
    requires k < |row| ==> !Binds(ps[first + k].typ, row[k], platform)
    ensures BindOutcome(ps, first, n, j, row, platform)
         == if k < |row| && Throws(ps[first + k].typ, row[k], platform) then Raised else Lost
    decreases k - j
  {
    hide Ato;
    if j < k {
      BindingFails(ps, first, n, j + 1, k, row, platform);
    }
  }

  // ----- The statements -----

  lemma LiteralHasNoNul(p: SqlParam)
    requires Bindable(p) && !p.direction.Out? && !p.typ.Blob?
    ensures '\0' !in LiteralText(p)
    ensures AnyValueToString(p) == Rendered(LiteralText(p)) && LiteralText(p) != ""
  {
    hide Digits;
    if !p.typ.Text? {
      var n := p.bindValue.n;
      assert forall c :: c in ToString(n) ==> IsDigit(c) || c == '-';
    }
  }

  lemma SetItemHasNoNul(p: SqlParam, i: nat)
    requires Bindable(p) && NeedsVariable(p)
    ensures '\0' !in SetItem(p, i)
  {
    hide Digits, LiteralText, Hex;
    assert forall c :: c in Digits(i) ==> IsDigit(c);
    if p.direction.InOut? && !p.typ.Blob? {
      LiteralHasNoNul(p);
    }
  }

  /** No NUL inside the `set` text, so the C string in the buffer is the whole of it. */
  lemma {:induction false} SetTextHasNoNul(ps: Params, n: nat)
    requires n <= |ps| && AllBindable(ps[..n])
    ensures '\0' !in SetText(ps, n)
  {
    hide SetItem;
    if n > 0 {
      assert AllBindable(ps[..n - 1]) && ps[..n][n - 1] == ps[n - 1];
      SetTextHasNoNul(ps, n - 1);
      if NeedsVariable(ps[n - 1]) {
        SetItemHasNoNul(ps[n - 1], n - 1);
      }
    }
  }

  lemma {:induction false} SetTextGrows(ps: Params, m: nat, n: nat)
    requires m <= n <= |ps| && AllBindable(ps[..n])
    ensures AllBindable(ps[..m]) && |SetText(ps, m)| <= |SetText(ps, n)|
  {
    hide SetItem;
    if m < n {
      assert AllBindable(ps[..n - 1]) && ps[..n][n - 1] == ps[n - 1];
      SetTextGrows(ps, m, n - 1);
    }
  }

  function Separated(text: string): string {
    if text == "" then "set" else text + ","
  }

  lemma HexSnoc(bytes: seq<Byte>, n: nat)
    requires n < |bytes|
    ensures Hex(bytes[..n + 1]) == Hex(bytes[..n]) + HexByte(bytes[n]) && |HexByte(bytes[n])| == 2
  {
    assert bytes[..n + 1][..n] == bytes[..n];
  }

  lemma InBlobItem(before: string, p: SqlParam, i: nat)
    requires Bindable(p) && p.direction.In? && p.typ.Blob?
    ensures before + (Variable(i) + " = 0x") + HexText(p) == before + SetItem(p, i)
    ensures |SetItem(p, i)| == |Variable(i) + " = 0x"| + 2 * p.lens
  {
    hide Variable, Hex;
    assert " = 0x" == " = " + "0x";
    assert (Variable(i) + " = 0x") + HexText(p) == SetItem(p, i);
  }

  /** How Execute stops at a parameter it cannot render: any_cast throws, an unsupported type returns -1, and
      a null string or too short a blob (or a value no C variable can hold) is undefined. */
  function Fault(p: SqlParam): Outcome
    requires !Bindable(p)
  {
    match p.typ
    case Long => if p.bindValue.Int32? then Lost else Raised
    case LongLong => if p.bindValue.Int64? then Lost else Raised
    case Text => if p.bindValue.CString? || p.bindValue.NullString? then Lost else Raised
    case Blob => if p.bindValue.Pointer? then Lost else Raised
    case _ => Returned(-1)
  }

  /** A parameter stops Execute exactly where AnyValueToString or the blob's any_cast does, provided its value is one
      a C variable can hold. */
  lemma FaultMeans(p: SqlParam)
    requires !p.direction.Out? && Representable(p)
    ensures !p.typ.Blob? ==>
              && (Bindable(p) <==> AnyValueToString(p).Rendered? && AnyValueToString(p).s != "")
              && (!Bindable(p) ==> Fault(p) == if AnyValueToString(p).BadAnyCast? then Raised else Returned(-1))
    ensures p.typ.Blob? ==>
              && (Bindable(p) <==> p.bindValue.Pointer? && p.lens <= |p.bindValue.bytes|)
              && (!Bindable(p) ==> Fault(p) == if p.bindValue.Pointer? then Lost else Raised)
  {
    hide Digits;
  }

  /** An int in 32 bits, an int64_t in 64, a string that is not null and ends at its NUL. */
  predicate Representable(p: SqlParam) {
    match p.bindValue
    case Int32(n) => -2147483648 <= n <= 2147483647
    case Int64(n) => -9223372036854775808 <= n <= 9223372036854775807
    case CString(s) => '\0' !in s
    case NullString => !p.typ.Text?
    case _ => true
  }

  datatype Built = Built(len: nat, call: string, select: string) | Stopped(outcome: Outcome)

  /** Why building stopped early: at the first parameter that cannot be rendered, or because the `set` text of the
      parameters before runs past the buffer. */
  ghost predicate StopsWith(ps: Params, o: Outcome) {
    || (exists i :: 0 <= i < |ps| && AllBindable(ps[..i]) && !Bindable(ps[i]) && o == Fault(ps[i]))
    || (o.Lost? && exists k :: 0 <= k <= |ps| && AllBindable(ps[..k]) && |SetText(ps, k)| >= BUFFER_SIZE)
  }

  lemma BindableSnoc(ps: Params, i: nat)
    requires i < |ps| && AllBindable(ps[..i]) && Bindable(ps[i])
    ensures AllBindable(ps[..i + 1])
  {
    assert ps[..i + 1] == ps[..i] + [ps[i]];
  }

  lemma SetTextSnoc(ps: Params, i: nat)
    requires i < |ps| && AllBindable(ps[..i]) && Bindable(ps[i])
    ensures AllBindable(ps[..i + 1])
    ensures SetText(ps, i + 1) == if NeedsVariable(ps[i]) then Separated(SetText(ps, i)) + SetItem(ps[i], i) else SetText(ps, i)
  {
    hide SetItem;
    BindableSnoc(ps, i);
  }

  lemma ArgsTextSnoc(ps: Params, i: nat)
    requires i < |ps| && AllBindable(ps[..i]) && Bindable(ps[i])
    ensures AllBindable(ps[..i + 1])
    ensures ArgsText(ps, i + 1) == ArgsText(ps, i) + (if i == 0 then "" else ", ") + ArgText(ps[i], i)
  {
    hide ArgText;
    BindableSnoc(ps, i);
  }

  function UpToNul(s: string): string {
    if s == [] || s[0] == '\0' then [] else [s[0]] + UpToNul(s[1..])
  }

  lemma {:induction false} UpToNulAt(a: string, b: string)
    requires '\0' !in a && (b == [] || b[0] == '\0')
    ensures UpToNul(a + b) == a
  {
    if a == [] {
      assert a + b == b;
    } else {
      assert (a + b)[1..] == a[1..] + b;
      UpToNulAt(a[1..], b);
      assert a == [a[0]] + a[1..];
    }
  }

  class Helper {
    var strProc: string
    var strArgs: string
    var totalCount: nat
    var inCount: nat
    var outCount: nat
    var inoutCount: nat
    var parameters: array<SqlParam>
    var buffer: array<char>        // PrepareBuffer

    ghost predicate Valid()
      reads this
    {
      parameters.Length == MAX_PARAM_COUNT && buffer.Length == BUFFER_SIZE && totalCount <= MAX_PARAM_COUNT
    }

    ghost function View(part: nat): (p: Parser)
      reads this, parameters
    {
      Parser(part, totalCount, inCount, outCount, inoutCount, parameters[..])
    }

    /** What Clear leaves, and what Prepare expects to find. */
    ghost predicate Cleared()
      reads this, parameters
    {
      Valid() && strProc == "" && strArgs == "" && View(0) == Start()
    }

    constructor ()
      ensures Cleared() && fresh(parameters) && fresh(buffer)
    {
      parameters := new SqlParam[MAX_PARAM_COUNT](_ => CLEARED);
      buffer := new char[BUFFER_SIZE](_ => '\0');
      strProc, strArgs, totalCount, inCount, outCount, inoutCount := "", "", 0, 0, 0, 0;
      new;
      assert parameters[..] == Start().params;
    }

    method Clear()
      requires Valid()
      modifies this`strProc, this`strArgs, this`totalCount, this`inCount, this`outCount, this`inoutCount, parameters
      ensures Cleared()
    {
      strProc, strArgs, totalCount, inCount, outCount, inoutCount := "", "", 0, 0, 0, 0;
      for i := 0 to parameters.Length
        modifies parameters
        invariant forall k :: 0 <= k < i ==> parameters[k] == CLEARED
      {
        parameters[i] := CLEARED;
      }
      assert parameters[..] == Start().params;
    }

    method SetParam(k: nat, p: SqlParam)
      requires k < parameters.Length
      modifies parameters
      ensures parameters[..] == old(parameters[..])[k := p]
    {
      parameters[k] := p;
    }

    /** case 0 of the switch in Prepare. */
    method TakeDirection(word: string) returns (next: nat)
      requires Valid() && totalCount < MAX_PARAM_COUNT
      modifies this`inCount, this`outCount, this`inoutCount, parameters
      ensures Valid() && View(next) == FeedDirection(old(View(0)), word)
    {
      var p := parameters[totalCount];
      next := 1;
      if word == "in" {
        inCount := inCount + 1;
        SetParam(totalCount, p.(direction := In));
      } else if word == "out" {
        outCount := outCount + 1;
        SetParam(totalCount, p.(direction := Out));
      } else if word == "inout" {
        inoutCount := inoutCount + 1;
        SetParam(totalCount, p.(direction := InOut));
      } else {
        inCount := inCount + 1;
        SetParam(totalCount, p.(direction := In));
        next := 2;
      }
    }

    method StoreType(lens: nat, name: string) returns (known: bool)
      requires Valid() && totalCount < MAX_PARAM_COUNT
      modifies this`totalCount, parameters
      ensures Valid()
      ensures SetType(old(View(2)), lens, name) == if known then Ok(View(0)) else BadType(View(2))
    {
      hide GetMySqlType;
      var typ := GetMySqlType(name);
      SetParam(totalCount, parameters[totalCount].(lens := lens, typ := typ));
      known := !typ.Unknown?;
      if known {
        totalCount := totalCount + 1;
      }
    }

    /** case 2 of the switch in Prepare. */
    method TakeType(word: string) returns (stop: Option<Outcome>)
      requires Valid() && totalCount < MAX_PARAM_COUNT && word != []
      modifies this`totalCount, parameters
      ensures Valid()
      ensures match FeedType(old(View(2)), word)
              case Ok(p) => stop == None && View(0) == p
              case BadType(p) => stop == Some(Returned(-3)) && View(2) == p
              case Threw => stop == Some(Raised)
              case Undefined => stop == Some(Lost)
    {
      hide SetType, Ato, FirstOf;
      var last := |word|;
      if word[last - 1] == ',' {
        last := last - 1;
      }
      if last == 0 {
        return Some(Raised);
      }
      var lens, name := parameters[totalCount].lens, word[..last];
      if word[last - 1] == ')' {
        var open := FirstOf('(', word);
        if open < |word| {
          var n := Ato(word[open + 1..], 32);
          if n.OutOfRange? {
            return Some(Lost);
          }
          lens, name := n.value % 0x1_0000_0000_0000_0000, word[..open];
        } else {
          name := word;
        }
      }
      var known := StoreType(lens, name);
      stop := if known then None else Some(Returned(-3));
    }

    /** One round of the switch in Prepare, on the word just read. */
    method Take(part: nat, word: string) returns (next: nat, stop: Option<Outcome>)
      requires Valid() && part <= 2 && word != []
      modifies this`totalCount, this`inCount, this`outCount, this`inoutCount, parameters
      ensures Valid()
      ensures match Feed(old(View(part)), word)
              case Ok(p) => stop == None && View(next) == p
              case BadType(p) => stop == Some(Returned(-3)) && View(part) == p
              case Threw => stop == Some(Raised)
              case Undefined => stop == Some(Lost)
    {
      hide FeedDirection, FeedType;
      next, stop := part, None;
      if part == 1 {
        next := 2;
      } else if totalCount >= MAX_PARAM_COUNT {
        stop := Some(Lost);
      } else if part == 0 {
        next := TakeDirection(word);
      } else {
        stop := TakeType(word);
        next := 0;
      }
    }

    /** Prepare: fetches the parameter list, lowers it and feeds it word by word to the three-state switch. */
    method Prepare(procName: string, lookup: Lookup) returns (r: Outcome)
      requires Valid()
      modifies this`strProc, this`strArgs, this`totalCount, this`inCount, this`outCount, this`inoutCount, parameters
      ensures Valid() && strProc == procName && strArgs == if lookup.Found? then Lower(lookup.text) else old(strArgs)
      ensures lookup.QueryFailed? ==> r == Returned(-4) && View(0) == old(View(0))
      ensures lookup.NoRows? ==> r == Returned(-1) && View(0) == old(View(0))
      ensures lookup.FetchFailed? ==> r == Returned(-2) && View(0) == old(View(0))
      ensures lookup.Found? ==>
                match FeedAll(old(View(0)), Tokens(Lower(lookup.text)))
                case Ok(p) => r == Returned(0) && View(p.part) == p
                case BadType(p) => r == Returned(-3) && View(p.part) == p
                case Threw => r == Raised
                case Undefined => r == Lost
    {
      hide Feed, Lower, NextWord, AfterWord;
      strProc := procName;
      match lookup {
        case QueryFailed => return Returned(-4);
        case NoRows => return Returned(-1);
        case FetchFailed => return Returned(-2);
        case Found(text) =>
          strArgs := Lower(text);
      }
      ghost var start, words := View(0), Tokens(strArgs);
      var part := 0;
      var word, rest := NextWord(strArgs), AfterWord(strArgs);
      ghost var left := words;
      while word != ""
        modifies this`totalCount, this`inCount, this`outCount, this`inoutCount, parameters
        invariant Valid() && part <= 2 && Wordy(left)
        invariant left == if word == "" then [] else [word] + Tokens(rest)
        invariant FeedAll(View(part), left) == FeedAll(start, words)
        decreases |left|
      {
        ghost var before := View(part);
        assert left[0] == word && left[1..] == Tokens(rest);
        var next, stop := Take(part, word);
        if stop.Some? {
          return stop.value;
        }
        part := next;
        left := left[1..];
        word, rest := NextWord(rest), AfterWord(rest);
      }
      r := Returned(0);
    }

    // ----- Writing into PrepareBuffer -----

    /** memcpy of a text behind the first `at` characters, or with `nul` also its terminator, as sprintf does.
        Writing past the end is undefined: then `fits` is false. */
    method Append(at: nat, text: string, nul: bool) returns (next: nat, fits: bool)
      requires Valid() && at <= BUFFER_SIZE
      modifies buffer
      ensures fits <==> at + |text| + (if nul then 1 else 0) <= BUFFER_SIZE
      ensures next == at + |text|
      ensures fits ==> buffer[..next] == old(buffer[..at]) + text
    {
      next, fits := at + |text|, at + |text| + (if nul then 1 else 0) <= BUFFER_SIZE;
      if !fits {
        return;
      }
      for k := 0 to |text|
        invariant forall m :: 0 <= m < at ==> buffer[m] == old(buffer[m])
        invariant forall m :: at <= m < at + k ==> buffer[m] == text[m - at]
      {
        buffer[at + k] := text[k];
      }
      if nul {
        buffer[at + |text|] := '\0';
      }
    }

    /** The "%02x" loop: every sprintf writes two digits and a NUL the next one overwrites. */
    method AppendHex(at: nat, bytes: seq<Byte>, len: nat) returns (next: nat, fits: bool)
      requires Valid() && len <= |bytes| && at <= BUFFER_SIZE
      modifies buffer
      ensures fits <==> len == 0 || at + 2 * len + 1 <= BUFFER_SIZE
      ensures next == at + 2 * len
      ensures fits ==> buffer[..next] == old(buffer[..at]) + Hex(bytes[..len])
    {
      hide Hex, HexByte;
      next, fits := at + 2 * len, true;
      ghost var before := buffer[..at];
      assert before + Hex(bytes[..0]) == before;
      for n := 0 to len
        invariant at + 2 * n <= BUFFER_SIZE && (n == 0 || at + 2 * n + 1 <= BUFFER_SIZE)
        invariant buffer[..at + 2 * n] == before + Hex(bytes[..n])
      {
        HexSnoc(bytes, n);
        var here: nat;
        here, fits := Append(at + 2 * n, HexByte(bytes[n]), true);
        if !fits {
          return;
        }
        assert before + Hex(bytes[..n]) + HexByte(bytes[n]) == before + (Hex(bytes[..n]) + HexByte(bytes[n]));
      }
    }

    /** The separator before an item: a comma, or the four-byte store that leaves "set" and a NUL. */
    method Separate(idx: nat) returns (next: nat, fits: bool)
      requires Valid() && idx <= BUFFER_SIZE
      modifies buffer
      ensures fits <==> idx < BUFFER_SIZE
      ensures fits ==> next <= BUFFER_SIZE && buffer[..next] == Separated(old(buffer[..idx]))
    {
      if idx != 0 {
        next, fits := Append(idx, ",", false);
      } else {
        next, fits := Append(0, "set", true);
      }
    }

    method AddInBlob(p: SqlParam, i: nat, idx: nat) returns (next: nat, fits: bool)
      requires Valid() && idx <= BUFFER_SIZE && Bindable(p) && p.direction.In? && p.typ.Blob?
      modifies buffer
      ensures next == idx + |SetItem(p, i)|
      ensures fits ==> next <= BUFFER_SIZE && buffer[..next] == old(buffer[..idx]) + SetItem(p, i)
      ensures !fits ==> next >= BUFFER_SIZE
    {
      hide Hex, Variable;
      var name := Variable(i) + " = 0x";
      ghost var before := buffer[..idx];
      next, fits := Append(idx, name, false);
      if fits {
        next, fits := AppendHex(next, p.bindValue.bytes, p.lens);
      } else {
        next := next + 2 * p.lens;
      }
      InBlobItem(before, p, i);
    }

    method AddInOut(p: SqlParam, i: nat, idx: nat) returns (next: nat, fits: bool)
      requires Valid() && idx <= BUFFER_SIZE && Bindable(p) && p.direction.InOut?
      modifies buffer
      ensures next == idx + |SetItem(p, i)|
      ensures fits ==> next <= BUFFER_SIZE && buffer[..next] == old(buffer[..idx]) + SetItem(p, i)
      ensures !fits ==> next >= BUFFER_SIZE
    {
      hide Hex, Variable, LiteralText;
      if !p.typ.Blob? {
        LiteralHasNoNul(p);
        next, fits := Append(idx, " " + Variable(i) + " = " + AnyValueToString(p).s, true);
      } else {
        next, fits := AppendHex(idx, p.bindValue.bytes, p.lens);
      }
    }

    method AddOut(p: SqlParam, i: nat, idx: nat) returns (next: nat, fits: bool)
      requires Valid() && idx <= BUFFER_SIZE && Bindable(p) && p.direction.Out?
      modifies buffer
      ensures next == idx + |SetItem(p, i)|
      ensures fits ==> next <= BUFFER_SIZE && buffer[..next] == old(buffer[..idx]) + SetItem(p, i)
      ensures !fits ==> next >= BUFFER_SIZE
    {
      hide Variable;
      var text := " " + Variable(i) + " = null";
      next, fits := Append(idx, text, true);
      assert text == SetItem(p, i);
    }

    /** What parameter `i` adds to the `set` text. */
    method AddSetItem(p: SqlParam, i: nat, idx: nat) returns (next: nat, fits: bool)
      requires Valid() && idx <= BUFFER_SIZE && Bindable(p) && NeedsVariable(p)
      modifies buffer
      ensures var after := Separated(old(buffer[..idx])) + SetItem(p, i);
              && (fits ==> next == |after| <= BUFFER_SIZE && buffer[..next] == after)
              && (!fits ==> |after| >= BUFFER_SIZE)
    {
      hide SetItem;
      next, fits := Separate(idx);
      if fits {
        match p.direction
        case In => next, fits := AddInBlob(p, i, next);
        case Out => next, fits := AddOut(p, i, next);
        case InOut => next, fits := AddInOut(p, i, next);
      }
    }

    /** The loop of Execute over the parameters. */
    method BuildTexts() returns (b: Built)
      requires Valid()
      modifies buffer
      ensures var ps := parameters[..totalCount];
              match b
              case Built(len, call, select) =>
                && AllBindable(ps) && ps[..|ps|] == ps
                && len == |SetText(ps, |ps|)| <= BUFFER_SIZE && buffer[..len] == SetText(ps, |ps|)
                && call == CallText(strProc, ps) && select == SelectText(ps, |ps|)
              case Stopped(o) => StopsWith(ps, o)
    {
      hide SetText, ArgsText, SetItem, Variable, LiteralText, Fault, Bindable, Hex;
      ghost var ps := parameters[..totalCount];
      var idx, args, select := 0, "", "";
      Beginning(ps);
      for i := 0 to totalCount
        modifies buffer
        invariant AllBindable(ps[..i])
        invariant idx == |SetText(ps, i)| <= BUFFER_SIZE && buffer[..idx] == SetText(ps, i)
        invariant args == ArgsText(ps, i) && select == SelectText(ps, i)
      {
        var p := parameters[i];
        assert p == ps[i];
        if i != 0 {
          args := args + ", ";
        }
        if !Bindable(p) {
          if NeedsVariable(p) && idx == BUFFER_SIZE {
            return Stopped(Lost); // the separator comes first
          }
          return Stopped(Fault(p));
        }
        SetTextSnoc(ps, i);
        ArgsTextSnoc(ps, i);
        if NeedsVariable(p) {
          var fits: bool;
          idx, fits := AddSetItem(p, i, idx);
          if !fits {
            return Stopped(Lost);
          }
          args := args + Variable(i);
        } else {
          LiteralHasNoNul(p);
          NotOut(p);
          args := args + AnyValueToString(p).s;
        }
        if !p.direction.In? {
          select := (if select == "" then "select " else select + ", ") + Variable(i);
        }
      }
      assert ps[..|ps|] == ps;
      b := Built(idx, "call " + strProc + " ( " + args + " )", select);
    }

    /** The final loop of Execute: column j goes to parameter inCount + j. */
    method BindResults(row: seq<Option<string>>, platform: Platform) returns (r: Outcome)
      requires Valid() && inCount + outCount + inoutCount <= MAX_PARAM_COUNT
      modifies parameters
      ensures Valid()
      ensures r == BindOutcome(old(parameters[..]), inCount, outCount + inoutCount, 0, row, platform)
      ensures r == Returned(0) ==>
                BoundTo(old(parameters[..]), inCount, outCount + inoutCount, row, platform, parameters[..])
    {
      hide SqlValueToAny;
      ghost var before, n := parameters[..], outCount + inoutCount;
      for j := 0 to outCount + inoutCount
        modifies parameters
        invariant j <= |row| && BoundTo(before, inCount, j, row, platform, parameters[..])
        invariant BindOutcome(before, inCount, n, 0, row, platform) == BindOutcome(before, inCount, n, j, row, platform)
      {
        if j >= |row| {
          return Lost;
        }
        assert parameters[inCount + j] == before[inCount + j];
        match SqlValueToAny(parameters[inCount + j], row[j], platform) {
          case Stored(p) => SetParam(inCount + j, p);
          case BadCast => return Raised;
          case NoNumber => return Lost;
        }
      }
      r := Returned(0);
    }

    /** Execute: sends the `set`, the `call` and the `select`, each only if the one before succeeded. */
    method Execute(db: Answers, platform: Platform) returns (r: Outcome, sent: seq<string>)
      requires Valid() && inCount + outCount + inoutCount <= MAX_PARAM_COUNT
      modifies buffer, parameters
      ensures Valid()
      ensures var ps := old(parameters[..totalCount]);
              if AllBindable(ps) then
                var bound := BindOutcome(old(parameters[..]), inCount, outCount + inoutCount, 0, db.row, platform);
                ps[..|ps|] == ps && Follows(strProc, ps, db, bound, r, sent)
              else sent == [] && StopsWith(ps, r)
      // On success every result column has been converted into its parameter and nothing else has changed.
      ensures r == Returned(0) ==>
                if SelectText(old(parameters[..totalCount]), totalCount) == "" then parameters[..] == old(parameters[..])
                else BoundTo(old(parameters[..]), inCount, outCount + inoutCount, db.row, platform, parameters[..])
      // Once results are bound the buffer is wiped.
      ensures r == Returned(0) && SelectText(old(parameters[..totalCount]), totalCount) != "" ==>
                forall k :: 0 <= k < buffer.Length ==> buffer[k] == '\0'
    {
      hide SetText, CallText, SelectText, Bindable, Fault, UpToNul, BoundTo, BindOutcome;
      ghost var ps := parameters[..totalCount];
      var b := BuildTexts();
      if b.Stopped? {
        StoppedMeans(ps, b.outcome);
        return b.outcome, [];
      }
      sent := [];
      if b.len != 0 {
        if b.len > BUFFER_SIZE - 20 {
          return Returned(-1), [];
        }
        buffer[b.len] := '\0';
        SetTextHasNoNul(ps, |ps|);
        UpToNulAt(buffer[..b.len], buffer[b.len..]);
        assert buffer[..b.len] + buffer[b.len..] == buffer[..];
        sent := [UpToNul(buffer[..])];
        if db.setCode != 0 {
          return Returned(db.setCode), sent;
        }
      }
      sent := sent + [b.call];
      if db.callCode != 0 {
        return Returned(db.callCode), sent;
      }
      if b.select == "" {
        return Returned(0), sent;
      }
      sent := sent + [b.select];
      if db.selectCode != 0 {
        return Returned(db.selectCode), sent;
      }
      if db.rows != 1 {
        return Returned(-1), sent;
      }
      if db.fetchCode != 0 {
        return Returned(db.fetchCode), sent;
      }
      r := BindResults(db.row, platform);
      if r != Returned(0) {
        return;
      }
      ghost var bound := parameters[..];
      forall i | 0 <= i < buffer.Length {
        buffer[i] := '\0';
      }
      assert parameters[..] == bound; // r is 0: the source falls off the end here
    }

    /** MyQuery::ExecuteProcedure: prepare, bind the arguments, execute, clear. Whatever code a step returns,
        the helper is left as clean as it was found, so the next call parses from scratch. */
    method ExecuteProcedure(sentence: string, args: seq<AnyValue>, lookup: Lookup, db: Answers, platform: Platform)
      returns (r: Outcome, sent: seq<string>, seen: Option<Params>)
      requires Cleared()
      modifies this`strProc, this`strArgs, this`totalCount, this`inCount, this`outCount, this`inoutCount, parameters, buffer
      ensures Valid() && (r.Returned? ==> Cleared())
      ensures Executed(sentence, lookup, args, db, platform, r, sent, seen)
    {
      hide FeedAll, Tokens, Lower, AllBindable, Follows, Counted, Tally, BindOutcome, BoundTo, StopsWith, SelectText;
      sent, seen := [], None;
      r := Prepare(sentence, lookup);
      if r != Returned(0) {
        if r.Returned? {
          Clear();
        }
        return;
      }
      FoundCounts(lookup);
      ghost var f := FeedAll(Start(), Tokens(Lower(lookup.text)));
      if |args| > MAX_PARAM_COUNT {
        return Lost, [], None;
      }
      for k := 0 to |args|
        modifies parameters
        invariant parameters[..] == WithArgs(f.p.params, args[..k])
      {
        SetParam(k, parameters[k].(bindValue := args[k]));
      }
      assert args[..|args|] == args;
      assert parameters[..totalCount] == WithArgs(f.p.params, args)[..f.p.total];
      assert parameters[..] == WithArgs(f.p.params, args);
      r, sent := Execute(db, platform);
      if r == Returned(0) {
        seen := Some(parameters[..]);
      }
      if r.Returned? {
        Clear();
      }
    }
  }

  /** The parameters after the arguments have been bound, first come first served. */
  ghost function WithArgs(params: Params, args: seq<AnyValue>): (after: Params)
    requires |args| <= |params|
    ensures |after| == |params|
  {
    seq(|params|, i requires 0 <= i < |params| => if i < |args| then params[i].(bindValue := args[i]) else params[i])
  }

  lemma FoundCounts(lookup: Lookup)
    requires lookup.Found? && FeedAll(Start(), Tokens(Lower(lookup.text))).Ok?
    ensures var p := FeedAll(Start(), Tokens(Lower(lookup.text))).p;
            p.total <= MAX_PARAM_COUNT == |p.params| && p.ins + p.outs + p.inouts <= MAX_PARAM_COUNT
  {
    hide FeedAll, Tokens, Lower, Tally;
    CountersAgree(Start(), Tokens(Lower(lookup.text)));
    var p := FeedAll(Start(), Tokens(Lower(lookup.text))).p;
    TallyTotal(p.params[..Started(p)]);
  }

  /** The first `n` columns have been bound from parameter `first` on; the other parameters are as before. */
  ghost predicate BoundTo(before: Params, first: nat, n: nat, row: seq<Option<string>>, platform: Platform, after: Params) {
    && first + n <= |before| == |after| && n <= |row|
    && (forall j :: 0 <= j < n ==> SqlValueToAny(before[first + j], row[j], platform) == Stored(after[first + j]))
    && (forall i :: 0 <= i < |before| && !(first <= i < first + n) ==> after[i] == before[i])
  }

  /** What ExecuteProcedure achieves: the statements sent, how it ends, and what the callback sees. The callback runs
      exactly on success. */
  ghost predicate Executed(sentence: string, lookup: Lookup, args: seq<AnyValue>, db: Answers, platform: Platform,
                           r: Outcome, sent: seq<string>, seen: Option<Params>)
  {
    && (seen.Some? <==> r == Returned(0))
    && match lookup
       case QueryFailed => r == Returned(-4) && sent == []
       case NoRows => r == Returned(-1) && sent == []
       case FetchFailed => r == Returned(-2) && sent == []
       case Found(text) =>
         match FeedAll(Start(), Tokens(Lower(text)))
         case BadType(_) => r == Returned(-3) && sent == []
         case Threw => r == Raised && sent == []
         case Undefined => r == Lost && sent == []
         case Ok(p) =>
           if |args| > MAX_PARAM_COUNT then r == Lost && sent == []
           else Ran(sentence, p, args, db, platform, r, sent, seen)
  }

  /** The same once the parameter list is parsed. */
  ghost predicate Ran(sentence: string, p: Parser, args: seq<AnyValue>, db: Answers, platform: Platform,
                      r: Outcome, sent: seq<string>, seen: Option<Params>)
    requires p.Valid() && |args| <= MAX_PARAM_COUNT
  {
    var all, n := WithArgs(p.params, args), p.outs + p.inouts;
    var ps := all[..p.total];
    && p.ins + n <= |all|
    && (if AllBindable(ps) then
          var bound := BindOutcome(all, p.ins, n, 0, db.row, platform);
          ps[..|ps|] == ps && Follows(sentence, ps, db, bound, r, sent)
        else sent == [] && StopsWith(ps, r))
    && (seen.Some? ==>
          if SelectText(ps, p.total) == "" then seen.value == all
          else BoundTo(all, p.ins, n, db.row, platform, seen.value))
  }

  /** If some parameter cannot be rendered, nothing is sent, and the first such parameter decides how the call ends, the
      `set` text before it permitting. */
  lemma FirstFaultDecides(proc: string, p: Parser, args: seq<AnyValue>, db: Answers, platform: Platform,
                          r: Outcome, sent: seq<string>, seen: Option<Params>, i: nat)
    requires p.Valid() && |args| <= MAX_PARAM_COUNT && Ran(proc, p, args, db, platform, r, sent, seen)
    requires i < p.total && AllBindable(WithArgs(p.params, args)[..p.total][..i]) && !Bindable(WithArgs(p.params, args)[i])
    ensures sent == []
    ensures |SetText(WithArgs(p.params, args)[..p.total], i)| < BUFFER_SIZE ==> r == Fault(WithArgs(p.params, args)[i])
  {
    hide SetText, Bindable, Fault, Follows, BindOutcome, BoundTo, SelectText, WithArgs;
    var ps := WithArgs(p.params, args)[..p.total];
    assert !AllBindable(ps) by {
      assert ps[i] == WithArgs(p.params, args)[i];
    }
    FirstFault(ps, r, i);
  }

  lemma FirstFault(ps: Params, o: Outcome, i: nat)
    requires StopsWith(ps, o) && i < |ps| && AllBindable(ps[..i]) && !Bindable(ps[i])
    ensures |SetText(ps, i)| < BUFFER_SIZE ==> o == Fault(ps[i])
  {
    hide SetText, Bindable, Fault;
    if k :| 0 <= k < |ps| && AllBindable(ps[..k]) && !Bindable(ps[k]) && o == Fault(ps[k]) {
      NotBeyond(ps, i, k);
      NotBeyond(ps, k, i);
    } else {
      var k :| 0 <= k <= |ps| && AllBindable(ps[..k]) && |SetText(ps, k)| >= BUFFER_SIZE;
      NotBeyond(ps, i, k);
      SetTextGrows(ps, k, i);
    }
  }

  lemma NotBeyond(ps: Params, i: nat, k: nat)
    requires i < |ps| && k <= |ps| && !Bindable(ps[i]) && AllBindable(ps[..k])
    ensures k <= i
  {
    hide Bindable;
    assert forall j :: 0 <= j < k ==> ps[..k][j] == ps[j];
  }

  /** Between two parameters the code's counters are those of the parameters it is about to call with. */
  lemma CountersMatch(p: Parser, args: seq<AnyValue>)
    requires Counted(p) && p.part == 0 && |args| <= MAX_PARAM_COUNT
    ensures var ps := WithArgs(p.params, args)[..p.total];
            p.ins == Tally(ps, In) && p.outs + p.inouts == |OutIndices(ps, |ps|)|
  {
    hide Tally, OutIndices;
    var front, ps := p.params[..p.total], WithArgs(p.params, args)[..p.total];
    TallySame(front, ps, In);
    TallyTotal(front);
    OutIndicesExact(ps, |ps|);
    assert ps[..|ps|] == ps;
  }

  /** With every IN parameter in front, the output parameters are those from inCount on. */
  lemma OutsFollowIns(p: Parser, args: seq<AnyValue>)
    requires Counted(p) && p.part == 0 && |args| <= MAX_PARAM_COUNT && InsFirst(WithArgs(p.params, args)[..p.total])
    ensures var ps := WithArgs(p.params, args)[..p.total];
            var outs := OutIndices(ps, |ps|);
            && p.ins + |outs| == |ps| == p.total && |outs| == p.outs + p.inouts
            && (forall j :: 0 <= j < |outs| ==> outs[j] == p.ins + j)
            && (forall i :: p.ins <= i < |ps| ==> !ps[i].direction.In?)
  {
    hide OutIndices, Tally, InsFirst;
    var ps := WithArgs(p.params, args)[..p.total];
    var outs := OutIndices(ps, |ps|);
    CountersMatch(p, args);
    BindingReachesItsParameter(ps);
    OutIndicesExact(ps, |ps|);
    assert ps[..|ps|] == ps;
    forall i | p.ins <= i < |ps| ensures !ps[i].direction.In? {
      assert outs[i - p.ins] == i;
    }
  }

  /** Each result is in the parameter its column stands for, and the IN parameters are as they were. */
  ghost predicate Delivers(ps: Params, row: seq<Option<string>>, after: Params) {
    var outs := OutIndices(ps, |ps|);
    && |ps| <= |after| && |outs| <= |row|
    && (forall j :: 0 <= j < |outs| ==> outs[j] < |ps| && HoldsResult(ps[outs[j]], row[j], after[outs[j]]))
    && (forall i :: 0 <= i < |ps| && ps[i].direction.In? ==> after[i] == ps[i])
  }

  /** With every IN parameter in front, each result column is stored in the very parameter the `select` named,
      and the IN parameters stay as they are: of the code's own counters, after every parse that ends between two
      parameters. */
  lemma ResultsReachTheirParameters(p: Parser, args: seq<AnyValue>, row: seq<Option<string>>, platform: Platform, after: Params)
    requires Counted(p) && p.part == 0 && |args| <= MAX_PARAM_COUNT && InsFirst(WithArgs(p.params, args)[..p.total])
    requires BoundTo(WithArgs(p.params, args), p.ins, p.outs + p.inouts, row, platform, after)
    ensures Delivers(WithArgs(p.params, args)[..p.total], row, after)
  {
    hide OutIndices, SqlValueToAny, InsFirst, Tally, HoldsResult;
    OutsFollowIns(p, args);
    var ps := WithArgs(p.params, args)[..p.total];
    var outs := OutIndices(ps, |ps|);
    forall j | 0 <= j < |outs| ensures HoldsResult(ps[outs[j]], row[j], after[outs[j]]) {
      StoredHolds(ps[outs[j]], row[j], platform);
    }
  }

  // ----- From a parameter list to the callback -----

  /** The parameters a caller has in mind: as written in the declarations, with the arguments given. */
  ghost predicate Wanted(ds: seq<Decl>, args: seq<AnyValue>, ps: Params) {
    && |ps| == |ds|
    && forall i :: 0 <= i < |ds| ==>
         && AsWritten(ds[i], ps[i].(bindValue := Nothing))
         && ps[i].bindValue == if i < |args| then args[i] else Nothing
  }

  /** The declarations of a list that is parsed as intended. */
  ghost predicate Declarations(ds: seq<Decl>) {
    && |ds| <= 10
    && forall i :: 0 <= i < |ds| ==>
         && InLowerCase(ds[i])
         && (ds[i].dir == "" ==> ds[i].name !in ["in", "out", "inout"])
         && (ds[i].len.Some? ==> ds[i].len.value <= 2147483647)
  }

  lemma WantedIsParsed(text: string, ds: seq<Decl>, gaps: seq<string>, tail: string, args: seq<AnyValue>, ps: Params)
    requires Declarations(ds) && |args| <= MAX_PARAM_COUNT && Wanted(ds, args, ps)
    requires |gaps| == |ListWords(ds)| && Separating(gaps) && Blank(tail)
    requires SameButCase(text, Spaced(ListWords(ds), gaps, tail))
    ensures var f := FeedAll(Start(), Tokens(Lower(text)));
            f.Ok? && Counted(f.p) && f.p.part == 0 && WithArgs(f.p.params, args)[..f.p.total] == ps
  {
    hide Tokens, Lower, Spaced, ListWords, Tally, FeedAll, InLowerCase, SameButCase;
    PrepareReadsAnyCase(text, ds, gaps, tail);
    CountersAgree(Start(), Tokens(Lower(text)));
    var p := FeedAll(Start(), Tokens(Lower(text))).p;
    forall i | 0 <= i < |ds| ensures WithArgs(p.params, args)[i] == ps[i] {
      SameAsWritten(ds[i], p.params[i], ps[i].(bindValue := Nothing));
    }
  }

  lemma SameAsWritten(d: Decl, p: SqlParam, q: SqlParam)
    requires AsWritten(d, p) && AsWritten(d, q)
    ensures p == q
  {
  }

  /** Every column can be bound. */
  ghost predicate RowBinds(ps: Params, row: seq<Option<string>>, platform: Platform) {
    var outs := OutIndices(ps, |ps|);
    |outs| <= |row| && forall j :: 0 <= j < |outs| ==> outs[j] < |ps| && Binds(ps[outs[j]].typ, row[j], platform)
  }

  lemma BindingOfOuts(p: Parser, args: seq<AnyValue>, row: seq<Option<string>>, platform: Platform)
    requires Counted(p) && p.part == 0 && |args| <= MAX_PARAM_COUNT && InsFirst(WithArgs(p.params, args)[..p.total])
    ensures p.ins + p.outs + p.inouts <= |WithArgs(p.params, args)|
    ensures BindOutcome(WithArgs(p.params, args), p.ins, p.outs + p.inouts, 0, row, platform) == Returned(0)
        <==> RowBinds(WithArgs(p.params, args)[..p.total], row, platform)
  {
    hide OutIndices, Tally, Binds, InsFirst, BindOutcome;
    var all := WithArgs(p.params, args);
    var outs := OutIndices(all[..p.total], p.total);
    OutsFollowIns(p, args);
    BindingSucceeds(all, p.ins, |outs|, 0, row, platform);
    assert forall j :: 0 <= j < |outs| ==> all[..p.total][outs[j]] == all[p.ins + j];
  }

  /** How a call goes, told by what the database does with the statements it is sent, one after the other, and by what
      it answers. The procedure is called once, with the bound values, and the results are asked for after that;
      whatever is refused is the last thing sent and its code is returned. */
  ghost predicate Proceeds(proc: string, ps: Params, db: Answers, platform: Platform, r: Outcome, sent: seq<string>, vars: Variables)
    requires AllBindable(ps) && ps[..|ps|] == ps
  {
    var told := Play(proc, sent, vars);
    var called := Called(Inputs(ps));
    var hasSet := exists i :: 0 <= i < |ps| && (!ps[i].direction.In? || ps[i].typ.Blob?);
    var hasOut := exists i :: 0 <= i < |ps| && !ps[i].direction.In?;
    if |SetText(ps, |ps|)| > 0xFA00 - 20 then
      told == Some([]) && (r == Returned(-1) || (r.Lost? && |SetText(ps, |ps|)| >= 0xFA00))
    else if hasSet && db.setCode != 0 then told == Some([]) && r == Returned(db.setCode)
    else if db.callCode != 0 then told == Some([called]) && r == Returned(db.callCode)
    else if !hasOut then told == Some([called]) && r == Returned(0)
    else
      && told == Some([called, Queried(Columns(ps, |ps|))])
      && if db.selectCode != 0 then r == Returned(db.selectCode)
         else if db.rows != 1 then r == Returned(-1)
         else if db.fetchCode != 0 then r == Returned(db.fetchCode)
         else r == Returned(0) <==> RowBinds(ps, db.row, platform)
  }

  /** The statements, read one after the other, mean what was asked for. */
  lemma StatementsMean(proc: string, ps: Params, vars: Variables)
    requires AllBindable(ps) && ps[..|ps|] == ps && forall i :: 0 <= i < |ps| ==> SetSafe(ps[i]) && CallSafe(ps[i])
    ensures var assign, call, select := SetText(ps, |ps|), CallText(proc, ps), SelectText(ps, |ps|);
            var before := if assign == "" then [] else [assign];
            && Play(proc, before, vars) == Some([])
            && Play(proc, before + [call], vars) == Some([Called(Inputs(ps))])
            && (select != "" ==>
                  Play(proc, before + [call, select], vars) == Some([Called(Inputs(ps)), Queried(Columns(ps, |ps|))]))
  {
    hide Play, ReadSet, ReadCall, ReadSelect, SetText, CallText, SelectText, Inputs, Columns, After, Passed, SetSafe, CallSafe;
    var assign, call, select := SetText(ps, |ps|), CallText(proc, ps), SelectText(ps, |ps|);
    SetStarts(ps);
    PassesInputs(proc, ps, vars);
    var assigns := (if assign == "" then Some([]) else ReadSet(assign)).value;
    var vars' := After(vars, assigns);
    CallAndSelect(proc, ps, vars');
    PlayNone(proc, vars');
    PlayNone(proc, vars);
    if assign == "" {
      AfterNothing(vars);
      assert [] + [call] == [call] && [] + [call, select] == [call, select];
    } else {
      PlaySet(proc, assign, [], vars);
      PlaySet(proc, assign, [call], vars);
      PlaySet(proc, assign, [call, select], vars);
      assert [assign] + [] == [assign];
    }
  }

  lemma AfterNothing(vars: Variables)
    ensures After(vars, []) == vars
  {
  }

  lemma CallAndSelect(proc: string, ps: Params, vars: Variables)
    requires AllBindable(ps) && ps[..|ps|] == ps && ReadCall(proc, CallText(proc, ps)).Some?
    ensures var call, select := CallText(proc, ps), SelectText(ps, |ps|);
            var called := Called(Passed(ReadCall(proc, call).value, vars));
            && Play(proc, [call], vars) == Some([called])
            && (select != "" ==> Play(proc, [call, select], vars) == Some([called, Queried(Columns(ps, |ps|))]))
  {
    hide Play, ReadCall, ReadSelect, CallText, SelectText, Columns, Passed;
    var call, select := CallText(proc, ps), SelectText(ps, |ps|);
    var called, queried := Called(Passed(ReadCall(proc, call).value, vars)), Queried(Columns(ps, |ps|));
    CallStarts(proc, ps);
    SelectReadsBack(ps);
    PlayNone(proc, vars);
    PlayCall(proc, call, [], vars);
    assert [call] + [] == [call] && [called] + [] == [called];
    if select != "" {
      SelectStarts(ps);
      PlaySelect(proc, select, vars);
      PlayCall(proc, call, [select], vars);
      assert [call] + [select] == [call, select] && [called] + [queried] == [called, queried];
    }
  }

  lemma CallStarts(proc: string, ps: Params)
    requires AllBindable(ps) && ps[..|ps|] == ps
    ensures "call " <= CallText(proc, ps)
  {
    hide ArgsText;
    assert CallText(proc, ps)[..5] == "call ";
  }

  lemma SetStarts(ps: Params)
    requires AllBindable(ps) && ps[..|ps|] == ps
    ensures SetText(ps, |ps|) != "" ==> "set" <= SetText(ps, |ps|)
  {
    hide SetItems, SetText, Join;
    SetTextIsList(ps, |ps|);
  }

  lemma SelectStarts(ps: Params)
    ensures SelectText(ps, |ps|) != "" ==> "select " <= SelectText(ps, |ps|)
  {
    hide SelectItems, SelectText, Join;
    SelectTextIsList(ps, |ps|);
  }

  lemma {:induction false} SomeSet(ps: Params, n: nat)
    requires n <= |ps| && AllBindable(ps[..n])
    ensures SetText(ps, n) != "" <==> exists i :: 0 <= i < n && (!ps[i].direction.In? || ps[i].typ.Blob?)
  {
    hide SetItem;
    if n > 0 {
      assert AllBindable(ps[..n - 1]) && ps[..n][n - 1] == ps[n - 1];
      SomeSet(ps, n - 1);
    }
  }

  lemma {:induction false} SomeSelect(ps: Params, n: nat)
    requires n <= |ps|
    ensures SelectText(ps, n) != "" <==> exists i :: 0 <= i < n && !ps[i].direction.In?
  {
    hide Variable;
    if n > 0 {
      SomeSelect(ps, n - 1);
    }
  }

  lemma CallProceeds(proc: string, p: Parser, args: seq<AnyValue>, db: Answers, platform: Platform,
                     r: Outcome, sent: seq<string>, seen: Option<Params>, vars: Variables)
    requires Counted(p) && p.part == 0 && |args| <= MAX_PARAM_COUNT
    requires AllBindable(WithArgs(p.params, args)[..p.total]) && InsFirst(WithArgs(p.params, args)[..p.total])
    requires forall i :: 0 <= i < p.total ==> SetSafe(WithArgs(p.params, args)[i]) && CallSafe(WithArgs(p.params, args)[i])
    requires Ran(proc, p, args, db, platform, r, sent, seen)
    ensures var ps := WithArgs(p.params, args)[..p.total];
            ps[..|ps|] == ps && Proceeds(proc, ps, db, platform, r, sent, vars)
  {
    hide SetText, SelectText, CallText, BindOutcome, InsFirst, RowBinds, BoundTo, Play, Inputs, Columns, SetSafe, CallSafe,
         AllBindable, WithArgs;
    BindingOfOuts(p, args, db.row, platform);
    var ps := WithArgs(p.params, args)[..p.total];
    StatementsMean(proc, ps, vars);
    SomeSet(ps, |ps|);
    SomeSelect(ps, |ps|);
    PlayNone(proc, vars);
  }

  lemma CallDelivers(proc: string, p: Parser, args: seq<AnyValue>, db: Answers, platform: Platform,
                     r: Outcome, sent: seq<string>, seen: Option<Params>)
    requires Counted(p) && p.part == 0 && |args| <= MAX_PARAM_COUNT && InsFirst(WithArgs(p.params, args)[..p.total])
    requires Ran(proc, p, args, db, platform, r, sent, seen) && seen.Some?
    ensures Delivers(WithArgs(p.params, args)[..p.total], db.row, seen.value)
  {
    hide SelectText, OutIndices, BindOutcome, InsFirst, BoundTo, Follows, StopsWith, AllBindable, HoldsResult, Tally;
    var all := WithArgs(p.params, args);
    var ps := all[..p.total];
    if SelectText(ps, p.total) == "" {
      SelectReadsBack(ps);
    } else {
      ResultsReachTheirParameters(p, args, db.row, platform, seen.value);
    }
  }

  /** What a whole call means, from the parameter list to the callback. For declarations in any case and layout, IN
      parameters first, and arguments that can be rendered and mean themselves in SQL: the database, doing what it is
      told statement by statement, calls the procedure once with exactly the bound values, whatever its session
      variables held before, and is asked for the results after that; and on success the callback sees each result in
      the parameter it belongs to and every IN parameter untouched. */
  lemma ProcedureCall(proc: string, text: string, ds: seq<Decl>, gaps: seq<string>, tail: string, args: seq<AnyValue>,
                      ps: Params, db: Answers, platform: Platform, r: Outcome, sent: seq<string>, seen: Option<Params>,
                      vars: Variables)
    requires Declarations(ds) && |args| <= MAX_PARAM_COUNT && Wanted(ds, args, ps)
    requires |gaps| == |ListWords(ds)| && Separating(gaps) && Blank(tail)
    requires SameButCase(text, Spaced(ListWords(ds), gaps, tail))
    requires AllBindable(ps) && InsFirst(ps) && forall i :: 0 <= i < |ps| ==> SetSafe(ps[i]) && CallSafe(ps[i])
    requires Executed(proc, Found(text), args, db, platform, r, sent, seen)
    ensures ps[..|ps|] == ps && Proceeds(proc, ps, db, platform, r, sent, vars)
    ensures (seen.Some? <==> r == Returned(0)) && (seen.Some? ==> Delivers(ps, db.row, seen.value))
  {
    hide Tokens, Lower, Spaced, ListWords, FeedAll, Counted, Ran, AllBindable, InsFirst, Delivers, Proceeds, SetSafe, CallSafe,
         SameButCase, Wanted, Declarations;
    WantedIsParsed(text, ds, gaps, tail, args, ps);
    var p := FeedAll(Start(), Tokens(Lower(text))).p;
    forall i | 0 <= i < p.total ensures SetSafe(WithArgs(p.params, args)[i]) && CallSafe(WithArgs(p.params, args)[i]) {
      assert WithArgs(p.params, args)[i] == ps[i];
    }
    CallProceeds(proc, p, args, db, platform, r, sent, seen, vars);
    if seen.Some? {
      CallDelivers(proc, p, args, db, platform, r, sent, seen);
    }
  }

  /** What is sent and returned when every parameter can be rendered; `bound` is how binding the results ends. */
  ghost predicate Follows(proc: string, ps: Params, db: Answers, bound: Outcome, r: Outcome, sent: seq<string>)
    requires AllBindable(ps) && ps[..|ps|] == ps
  {
    var assign, call, select := SetText(ps, |ps|), CallText(proc, ps), SelectText(ps, |ps|);
    var before := if assign == "" then [] else [assign];
    if |assign| > BUFFER_SIZE - 20 then sent == [] && (r == Returned(-1) || (r.Lost? && |assign| >= BUFFER_SIZE))
    else if assign != "" && db.setCode != 0 then sent == [assign] && r == Returned(db.setCode)
    else if db.callCode != 0 then sent == before + [call] && r == Returned(db.callCode)
    else if select == "" then sent == before + [call] && r == Returned(0)
    else
      && sent == before + [call, select]
      && r == if db.selectCode != 0 then Returned(db.selectCode)
              else if db.rows != 1 then Returned(-1)
              else if db.fetchCode != 0 then Returned(db.fetchCode)
              else bound
  }

  lemma StoppedMeans(ps: Params, o: Outcome)
    requires StopsWith(ps, o)
    ensures o != Returned(0)
    ensures AllBindable(ps) ==> ps[..|ps|] == ps && o.Lost? && |SetText(ps, |ps|)| >= BUFFER_SIZE
  {
    hide SetText;
    if AllBindable(ps) {
      assert ps[..|ps|] == ps;
      var k :| 0 <= k <= |ps| && AllBindable(ps[..k]) && |SetText(ps, k)| >= BUFFER_SIZE;
      SetTextGrows(ps, k, |ps|);
    }
  }

  lemma NotOut(p: SqlParam)
    requires !NeedsVariable(p)
    ensures p.direction.In? && !p.typ.Blob?
  {
  }

  lemma Beginning(ps: Params)
    ensures AllBindable(ps[..0]) && SetText(ps, 0) == "" && ArgsText(ps, 0) == ""
  {
  }
}
