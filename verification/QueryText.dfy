/** The three statements ProcedureHelper::Execute generates, and what a database reads in them. */
module QueryText {
  import opened Endian
  import opened Options
  import opened Decimal
  import opened ParamList
  import opened SqlText

  type Params = seq<SqlParam>

  /** The bound value is of the kind any_cast expects, and a blob has the announced bytes.
      OUT parameters are not read. */
  predicate Bindable(p: SqlParam) {
    p.direction.Out? ||
    match p.typ
    case Long => p.bindValue.Int32? && Fits(p.bindValue.n, 32)
    case LongLong => p.bindValue.Int64? && Fits(p.bindValue.n, 64)
    case Text => p.bindValue.CString? && '\0' !in p.bindValue.s
    case Blob => p.bindValue.Pointer? && p.lens <= |p.bindValue.bytes|
    case Unset => false
    case Unknown => false
  }

  ghost predicate AllBindable(ps: Params) {
    forall i :: 0 <= i < |ps| ==> Bindable(ps[i])
  }

  /** What the procedure should receive for the parameter. */
  function Input(p: SqlParam): SqlValue
    requires Bindable(p)
  {
    if p.direction.Out? then Null
    else
      match p.typ
      case Long => Int(p.bindValue.n)
      case LongLong => Int(p.bindValue.n)
      case Text => Str(p.bindValue.s)
      case Blob => Bin(p.bindValue.bytes[..p.lens])
  }

  /** AnyValueToString, where it does not fail. */
  function LiteralText(p: SqlParam): string
    requires Bindable(p) && !p.direction.Out? && !p.typ.Blob?
  {
    if p.typ.Text? then "'" + p.bindValue.s + "'" else ToString(p.bindValue.n)
  }

  function HexText(p: SqlParam): string
    requires Bindable(p) && !p.direction.Out? && p.typ.Blob?
  {
    Hex(p.bindValue.bytes[..p.lens])
  }

  /** Parameters passed through a user variable. */
  predicate NeedsVariable(p: SqlParam) {
    !p.direction.In? || p.typ.Blob?
  }

  predicate InOutBlob(p: SqlParam) {
    p.direction.InOut? && p.typ.Blob?
  }

  predicate EmptyInBlob(p: SqlParam) {
    p.direction.In? && p.typ.Blob? && p.lens == 0
  }

  // ----- The text, as the code builds it -----

  /** What one parameter adds to the `set` statement. The INOUT blob branch writes no variable name. */
  function SetItem(p: SqlParam, i: nat): string
    requires Bindable(p) && NeedsVariable(p)
  {
    match p.direction
    case In => "" + Variable(i) + " = " + ("0x" + HexText(p))
    case Out => " " + Variable(i) + " = " + "null"
    case InOut => if p.typ.Blob? then HexText(p) else " " + Variable(i) + " = " + LiteralText(p)
  }

  function SetText(ps: Params, n: nat): string
    requires n <= |ps| && AllBindable(ps[..n])
  {
    if n == 0 then ""
    else
      assert AllBindable(ps[..n - 1]) && ps[..n][n - 1] == ps[n - 1];
      var t, p := SetText(ps, n - 1), ps[n - 1];
      if NeedsVariable(p) then (if t == "" then "set" else t + ",") + SetItem(p, n - 1) else t
  }

  function ArgText(p: SqlParam, i: nat): string
    requires Bindable(p)
  {
    if NeedsVariable(p) then Variable(i) else LiteralText(p)
  }

  function ArgsText(ps: Params, n: nat): string
    requires n <= |ps| && AllBindable(ps[..n])
  {
    if n == 0 then ""
    else
      assert AllBindable(ps[..n - 1]) && ps[..n][n - 1] == ps[n - 1];
      ArgsText(ps, n - 1) + (if n == 1 then "" else ", ") + ArgText(ps[n - 1], n - 1)
  }

  function CallText(proc: string, ps: Params): string
    requires AllBindable(ps)
  {
    assert ps[..|ps|] == ps;
    "call " + proc + " ( " + ArgsText(ps, |ps|) + " )"
  }

  function SelectText(ps: Params, n: nat): string
    requires n <= |ps|
  {
    if n == 0 then ""
    else
      var t := SelectText(ps, n - 1);
      if ps[n - 1].direction.In? then t
      else (if t == "" then "select " else t + ", ") + Variable(n - 1)
  }

  /** The items of the `set` statement, literally. */
  lemma SetItemText(p: SqlParam, i: nat)
    requires Bindable(p) && NeedsVariable(p)
    ensures p.direction.In? ==> SetItem(p, i) == "@_" + Digits(i) + " = 0x" + Hex(p.bindValue.bytes[..p.lens])
    ensures p.direction.Out? ==> SetItem(p, i) == " @_" + Digits(i) + " = null"
    ensures p.direction.InOut? && p.typ.Text? ==> SetItem(p, i) == " @_" + Digits(i) + " = '" + p.bindValue.s + "'"
    ensures p.direction.InOut? && (p.typ.Long? || p.typ.LongLong?) ==>
              SetItem(p, i) == " @_" + Digits(i) + " = " + ToString(p.bindValue.n)
    ensures InOutBlob(p) ==> SetItem(p, i) == Hex(p.bindValue.bytes[..p.lens])
  {
    hide Digits, Hex, ToString;
  }

  // ----- The same statements as lists -----

  function SetItems(ps: Params, n: nat): seq<string>
    requires n <= |ps| && AllBindable(ps[..n])
  {
    if n == 0 then []
    else
      assert AllBindable(ps[..n - 1]) && ps[..n][n - 1] == ps[n - 1];
      SetItems(ps, n - 1) + if NeedsVariable(ps[n - 1]) then [SetItem(ps[n - 1], n - 1)] else []
  }

  function Assigns(ps: Params, n: nat): seq<Assign>
    requires n <= |ps| && AllBindable(ps[..n])
  {
    if n == 0 then []
    else
      assert AllBindable(ps[..n - 1]) && ps[..n][n - 1] == ps[n - 1];
      Assigns(ps, n - 1) + if NeedsVariable(ps[n - 1]) then [Assign(n - 1, Input(ps[n - 1]))] else []
  }

  function ArgItems(ps: Params, n: nat): (items: seq<string>)
    requires n <= |ps| && AllBindable(ps[..n])
    ensures |items| == n
  {
    if n == 0 then []
    else
      assert AllBindable(ps[..n - 1]) && ps[..n][n - 1] == ps[n - 1];
      ArgItems(ps, n - 1) + [(if n == 1 then "" else " ") + ArgText(ps[n - 1], n - 1)]
  }

  function Arguments(ps: Params, n: nat): (args: seq<Arg>)
    requires n <= |ps| && AllBindable(ps[..n])
    ensures |args| == n
  {
    if n == 0 then []
    else
      assert AllBindable(ps[..n - 1]) && ps[..n][n - 1] == ps[n - 1];
      Arguments(ps, n - 1) + [if NeedsVariable(ps[n - 1]) then UserVariable(n - 1) else Literal(Input(ps[n - 1]))]
  }

  /** The OUT and INOUT parameters. */
  function OutIndices(ps: Params, n: nat): seq<nat>
    requires n <= |ps|
  {
    if n == 0 then [] else OutIndices(ps, n - 1) + if ps[n - 1].direction.In? then [] else [n - 1]
  }

  function SelectItems(ps: Params, n: nat): seq<string>
    requires n <= |ps|
  {
    if n == 0 then []
    else
      var front := SelectItems(ps, n - 1);
      if ps[n - 1].direction.In? then front
      else front + [(if front == [] then "" else " ") + Variable(n - 1)]
  }

  function Columns(ps: Params, n: nat): seq<Arg>
    requires n <= |ps|
  {
    if n == 0 then [] else Columns(ps, n - 1) + if ps[n - 1].direction.In? then [] else [UserVariable(n - 1)]
  }

  // ----- Text and list agree -----

  lemma {:induction false} SetTextIsList(ps: Params, n: nat)
    requires n <= |ps| && AllBindable(ps[..n])
    ensures var items := SetItems(ps, n);
            SetText(ps, n) == if items == [] then "" else "set" + Join(items)
  {
    hide SetItem, Join;
    if n > 0 {
      assert AllBindable(ps[..n - 1]) && ps[..n][n - 1] == ps[n - 1];
      SetTextIsList(ps, n - 1);
      if NeedsVariable(ps[n - 1]) {
        var items, item := SetItems(ps, n - 1), SetItem(ps[n - 1], n - 1);
        if items == [] {
          JoinOne(item);
          assert [] + [item] == [item];
        } else {
          JoinSnoc(items, item);
          assert "set" + Join(items) + "," + item == "set" + (Join(items) + "," + item);
        }
      } else {
        assert SetItems(ps, n) == SetItems(ps, n - 1);
      }
    }
  }

  lemma JoinOne(item: string)
    ensures Join([item]) == item
  {
  }

  lemma {:induction false} ArgsTextIsList(ps: Params, n: nat)
    requires n <= |ps| && AllBindable(ps[..n])
    ensures ArgsText(ps, n) == Join(ArgItems(ps, n))
  {
    hide ArgText, Join;
    if n == 0 {
      JoinNone();
    } else {
      assert AllBindable(ps[..n - 1]) && ps[..n][n - 1] == ps[n - 1];
      ArgsTextIsList(ps, n - 1);
      var items, text := ArgItems(ps, n - 1), ArgText(ps[n - 1], n - 1);
      if n == 1 {
        JoinOne("" + text);
        JoinNone();
        assert "" + "" + text == "" + text && ArgItems(ps, n) == ["" + text];
      } else {
        JoinSnoc(items, " " + text);
        assert Join(items) + ", " + text == Join(items) + "," + (" " + text);
      }
    }
  }

  lemma JoinNone()
    ensures Join([]) == ""
  {
  }

  lemma Reassociate(a: string, b: string, c: string)
    ensures a + b + ", " + c == a + (b + "," + (" " + c))
  {
  }

  lemma {:induction false} SelectTextIsList(ps: Params, n: nat)
    requires n <= |ps|
    ensures var items := SelectItems(ps, n);
            SelectText(ps, n) == if items == [] then "" else "select " + Join(items)
  {
    hide Join, Variable;
    if n > 0 {
      SelectTextIsList(ps, n - 1);
      if !ps[n - 1].direction.In? {
        var items, text := SelectItems(ps, n - 1), Variable(n - 1);
        if items == [] {
          JoinOne("" + text);
          assert "select " + ("" + text) == "select " + text && SelectItems(ps, n) == ["" + text];
        } else {
          JoinSnoc(items, " " + text);
          Reassociate("select ", Join(items), text);
        }
      }
    }
  }

  // ----- Reading the `set` statement -----

  /** What keeps the `set` statement readable: no INOUT blob, no IN blob of length 0 (the length a blob declared
      without one has), and no INOUT string that would need escaping. */
  predicate SetSafe(p: SqlParam) {
    && !InOutBlob(p) && !EmptyInBlob(p)
    && (p.direction.InOut? && p.bindValue.CString? ==> Verbatim(p.bindValue.s))
  }

  lemma DigitsAreBare(n: nat)
    ensures Closed(Digits(n), false)
  {
    hide Digits, Closed;
    assert forall c :: c in Digits(n) ==> IsDigit(c);
    BareIsClosed(Digits(n));
  }

  lemma IntegersAreBare(n: int)
    ensures Closed(ToString(n), false)
  {
    hide Digits, Closed;
    assert forall c :: c in ToString(n) ==> IsDigit(c) || c == '-';
    BareIsClosed(ToString(n));
  }

  lemma HexIsBare(bytes: seq<Byte>)
    ensures Closed(Hex(bytes), false) && Closed("0x" + Hex(bytes), false)
  {
    hide Hex, Closed;
    BareIsClosed(Hex(bytes));
    BareIsClosed("0x" + Hex(bytes));
  }

  lemma VariableIsClosed(i: nat)
    ensures Closed(Variable(i), false)
  {
    hide Digits, Closed;
    BareIsClosed("@_");
    DigitsAreBare(i);
    ClosedConcat("@_", Digits(i));
  }

  lemma AssignIsClosed(i: nat, text: string, space: bool)
    requires Closed(text, false)
    ensures Closed((if space then " " else "") + Variable(i) + " = " + text, false)
  {
    hide Variable, Closed;
    var sp := if space then " " else "";
    BareIsClosed(sp);
    VariableIsClosed(i);
    ClosedConcat(sp, Variable(i));
    BareIsClosed(" = ");
    ClosedConcat(sp + Variable(i), " = ");
    ClosedConcat(sp + Variable(i) + " = ", text);
  }

  lemma LiteralIsClosed(p: SqlParam)
    requires Bindable(p) && !p.direction.Out? && !p.typ.Blob?
    requires p.bindValue.CString? ==> Verbatim(p.bindValue.s)
    ensures Closed(LiteralText(p), false)
  {
    hide Closed, ToString;
    if p.typ.Text? {
      QuotedIsClosed(p.bindValue.s);
    } else {
      IntegersAreBare(p.bindValue.n);
    }
  }

  lemma LiteralReads(p: SqlParam)
    requires Bindable(p) && !p.direction.Out? && !p.typ.Blob?
    requires p.bindValue.CString? ==> Verbatim(p.bindValue.s)
    ensures ReadLiteral(LiteralText(p)) == Some(Input(p))
  {
    hide ToString, ReadLiteral;
    if p.typ.Text? {
      ReadsString(p.bindValue.s);
    } else {
      ReadsInteger(p.bindValue.n);
    }
  }

  /** An item is closed unless an INOUT string opens a quote. */
  lemma SetItemIsClosed(p: SqlParam, i: nat)
    requires Bindable(p) && NeedsVariable(p)
    requires p.direction.InOut? && p.bindValue.CString? ==> Verbatim(p.bindValue.s)
    ensures Closed(SetItem(p, i), false)
  {
    hide Closed, Variable, LiteralText;
    match p.direction
    case In =>
      HexIsBare(p.bindValue.bytes[..p.lens]);
      AssignIsClosed(i, "0x" + HexText(p), false);
    case Out =>
      BareIsClosed("null");
      AssignIsClosed(i, "null", true);
    case InOut =>
      if p.typ.Blob? {
        HexIsBare(p.bindValue.bytes[..p.lens]);
      } else {
        LiteralIsClosed(p);
        AssignIsClosed(i, LiteralText(p), true);
      }
  }

  lemma SetItemReads(p: SqlParam, i: nat)
    requires Bindable(p) && NeedsVariable(p) && SetSafe(p)
    ensures ReadAssign(SetItem(p, i)) == Some(Assign(i, Input(p)))
  {
    hide ReadAssign, Variable, LiteralText, ReadLiteral;
    match p.direction
    case In =>
      ReadsHex(p.bindValue.bytes[..p.lens]);
      ReadsAssign(i, "0x" + HexText(p), false);
    case Out =>
      ReadsNull();
      ReadsAssign(i, "null", true);
    case InOut =>
      LiteralReads(p);
      ReadsAssign(i, LiteralText(p), true);
  }

  lemma ReadsNull()
    ensures ReadLiteral("null") == Some(Null)
  {
  }

  lemma InOutBlobFails(p: SqlParam, i: nat)
    requires Bindable(p) && InOutBlob(p)
    ensures ReadAssign(SetItem(p, i)).None?
  {
    hide Hex, ReadLiteral;
    var s := SetItem(p, i);
    assert s == HexText(p);
    assert s != [] ==> s[0] != ' ' && s[0] != '@';
    assert Unspaced(s) == s;
    assert |s| >= 2 ==> s[..2][0] == s[0];
  }

  /** The item of an IN blob of length 0 ends in a bare 0x. */
  lemma EmptyInBlobFails(p: SqlParam, i: nat)
    requires Bindable(p) && EmptyInBlob(p)
    ensures ReadAssign(SetItem(p, i)).None?
  {
    hide ReadLiteral, ReadAssign, Variable;
    assert p.bindValue.bytes[..p.lens] == [];
    ReadsHex([]);
    ReadsAssign(i, "0x" + HexText(p), false);
  }

  /** An INOUT string that is not verbatim: whatever follows its item, the string is not read back. */
  lemma UnsafeStringFails(p: SqlParam, i: nat, tail: string)
    requires Bindable(p) && p.direction.InOut? && p.typ.Text? && !Verbatim(p.bindValue.s)
    requires tail == [] || tail[0] == ','
    ensures ReadAssign(Piece(SetItem(p, i) + tail)) != Some(Assign(i, Input(p)))
  {
    hide ReadLiteral, ReadAssign, Digits, Cut, Verbatim;
    var s := p.bindValue.s;
    var head, lit := " " + Variable(i) + " = ", "'" + s + "'" + tail;
    assert SetItem(p, i) + tail == head + lit;
    assert forall c :: c in Digits(i) ==> IsDigit(c);
    CutSkips(head, lit);
    assert Piece(head + lit) == head + Piece(lit);
    ReadsAssign(i, Piece(lit), true);
    if ReadLiteral(Piece(lit)) == Some(Str(s)) {
      StringNeedsVerbatim(s, tail, Piece(lit));
    }
  }

  lemma UnsafeItemFails(p: SqlParam, i: nat, tail: string)
    requires Bindable(p) && NeedsVariable(p) && !SetSafe(p)
    requires tail == [] || tail[0] == ','
    ensures ReadAssign(Piece(SetItem(p, i) + tail)) != Some(Assign(i, Input(p)))
  {
    hide ReadAssign, Cut, Closed, SetItem, Verbatim;
    if InOutBlob(p) || EmptyInBlob(p) {
      SetItemIsClosed(p, i);
      CutAt(SetItem(p, i), false, tail);
      assert Piece(SetItem(p, i) + tail) == SetItem(p, i);
      if InOutBlob(p) {
        InOutBlobFails(p, i);
      } else {
        EmptyInBlobFails(p, i);
      }
    } else {
      UnsafeStringFails(p, i, tail);
    }
  }

  lemma {:induction false} SetItemsRead(ps: Params, n: nat)
    requires n <= |ps| && AllBindable(ps[..n]) && forall i :: 0 <= i < n ==> SetSafe(ps[i])
    ensures ReadAssigns(SetItems(ps, n)) == Some(Assigns(ps, n))
  {
    hide ReadAssign, SetItem, Input;
    if n > 0 {
      assert AllBindable(ps[..n - 1]) && ps[..n][n - 1] == ps[n - 1];
      SetItemsRead(ps, n - 1);
      var p := ps[n - 1];
      var items := SetItems(ps, n);
      if NeedsVariable(p) {
        assert items[..|items| - 1] == SetItems(ps, n - 1);
        SetItemReads(p, n - 1);
      } else {
        assert items == SetItems(ps, n - 1);
        assert Assigns(ps, n) == Assigns(ps, n - 1);
      }
    }
  }

  lemma {:induction false} SetItemsClosed(ps: Params, n: nat)
    requires n <= |ps| && AllBindable(ps[..n])
    requires forall i :: 0 <= i < n ==> SetSafe(ps[i])
    ensures forall k :: 0 <= k < |SetItems(ps, n)| ==> Closed(SetItems(ps, n)[k], false)
  {
    hide SetItem, Closed;
    if n > 0 {
      assert AllBindable(ps[..n - 1]) && ps[..n][n - 1] == ps[n - 1];
      SetItemsClosed(ps, n - 1);
      if NeedsVariable(ps[n - 1]) {
        SetItemIsClosed(ps[n - 1], n - 1);
      }
    }
  }

  /** The first parameter that is not safe, and where its item stands; the items before it are closed. */
  lemma {:induction false} FirstUnsafe(ps: Params, n: nat) returns (i: nat, m: nat)
    requires n <= |ps| && AllBindable(ps[..n]) && exists k :: 0 <= k < n && !SetSafe(ps[k])
    ensures i < n && Bindable(ps[i]) && NeedsVariable(ps[i]) && !SetSafe(ps[i])
    ensures m < |SetItems(ps, n)| == |Assigns(ps, n)|
    ensures SetItems(ps, n)[m] == SetItem(ps[i], i) && Assigns(ps, n)[m] == Assign(i, Input(ps[i]))
    ensures forall k :: 0 <= k < m ==> Closed(SetItems(ps, n)[k], false)
  {
    hide SetItem, Input, Closed, Verbatim;
    assert AllBindable(ps[..n - 1]) && ps[..n][n - 1] == ps[n - 1];
    SameCount(ps, n - 1);
    if exists k :: 0 <= k < n - 1 && !SetSafe(ps[k]) {
      i, m := FirstUnsafe(ps, n - 1);
    } else {
      i, m := n - 1, |SetItems(ps, n - 1)|;
      SetItemsClosed(ps, n - 1);
    }
  }

  lemma {:induction false} SameCount(ps: Params, n: nat)
    requires n <= |ps| && AllBindable(ps[..n])
    ensures |SetItems(ps, n)| == |Assigns(ps, n)|
  {
    hide SetItem, Input;
    if n > 0 {
      assert AllBindable(ps[..n - 1]) && ps[..n][n - 1] == ps[n - 1];
      SameCount(ps, n - 1);
    }
  }

  /** The database reads in the `set` statement exactly the intended assignments if and only if every parameter
      is safe: no INOUT blob, no empty IN blob, no INOUT string that would need escaping. */
  lemma SetReadsBack(ps: Params)
    requires AllBindable(ps) && SetText(ps, |ps|) != ""
    ensures ps[..|ps|] == ps
    ensures ReadSet(SetText(ps, |ps|)) == Some(Assigns(ps, |ps|)) <==> forall i :: 0 <= i < |ps| ==> SetSafe(ps[i])
  {
    hide SetText, ReadAssigns, ReadAssign, Split, Join, SetItems, SetItem, Assigns, SetSafe, Piece, Closed, Input;
    var n := |ps|;
    assert ps[..n] == ps;
    SetTextIsList(ps, n);
    var items := SetItems(ps, n);
    var text := SetText(ps, n);
    assert "set" <= text && text[3..] == Join(items);
    if forall i :: 0 <= i < n ==> SetSafe(ps[i]) {
      SetItemsRead(ps, n);
      SetItemsClosed(ps, n);
      SplitJoin(items);
    } else {
      var i, m := FirstUnsafe(ps, n);
      var tail := SplitNext(items, m);
      UnsafeItemFails(ps[i], i, tail);
      if ReadAssigns(Split(Join(items))).Some? {
        ReadAssignsEach(Split(Join(items)), m);
      }
    }
  }

  // ----- Reading the `call` statement -----

  /** What keeps the argument list readable: no IN string that would need escaping. */
  predicate CallSafe(p: SqlParam) {
    p.direction.In? && p.bindValue.CString? ==> Verbatim(p.bindValue.s)
  }

  lemma ReadsVariableArg(i: nat, space: bool)
    ensures ReadArg((if space then " " else "") + Variable(i)) == Some(UserVariable(i))
  {
    hide Digits, ReadLiteral, Value;
    var item := (if space then " " else "") + Variable(i);
    assert Variable(i)[0] == '@';
    assert Unspaced(item) == Variable(i);
    assert Variable(i) + "" == Variable(i);
    ReadsVariable(i, "");
  }

  lemma LiteralStart(p: SqlParam)
    requires Bindable(p) && !p.direction.Out? && !p.typ.Blob?
    ensures LiteralText(p) != [] && LiteralText(p)[0] != ' ' && LiteralText(p)[0] != '@'
  {
    hide Digits;
    if !p.typ.Text? {
      var t := ToString(p.bindValue.n);
      assert t[0] == '-' || IsDigit(t[0]);
    }
  }

  lemma ReadsLiteralArg(p: SqlParam, space: bool)
    requires Bindable(p) && !p.direction.Out? && !p.typ.Blob?
    requires p.bindValue.CString? ==> Verbatim(p.bindValue.s)
    ensures ReadArg((if space then " " else "") + LiteralText(p)) == Some(Literal(Input(p)))
  {
    hide LiteralText, ReadLiteral;
    LiteralStart(p);
    LiteralReads(p);
    var t := LiteralText(p);
    var item := (if space then " " else "") + t;
    assert Unspaced(item) == t;
    assert |t| >= 2 ==> t[..2][0] == t[0];
  }

  lemma {:induction false} ArgItemsRead(ps: Params, n: nat)
    requires n <= |ps| && AllBindable(ps[..n]) && forall i :: 0 <= i < n ==> CallSafe(ps[i])
    ensures ReadArgs(ArgItems(ps, n)) == Some(Arguments(ps, n))
  {
    hide ReadArg, Variable, LiteralText, Input;
    if n > 0 {
      assert AllBindable(ps[..n - 1]) && ps[..n][n - 1] == ps[n - 1];
      ArgItemsRead(ps, n - 1);
      var p, items := ps[n - 1], ArgItems(ps, n);
      assert items[..|items| - 1] == ArgItems(ps, n - 1);
      if NeedsVariable(p) {
        ReadsVariableArg(n - 1, n != 1);
      } else {
        ReadsLiteralArg(p, n != 1);
      }
    }
  }

  lemma {:induction false} ArgItemsClosed(ps: Params, n: nat)
    requires n <= |ps| && AllBindable(ps[..n]) && forall i :: 0 <= i < n ==> CallSafe(ps[i])
    ensures forall k :: 0 <= k < n ==> Closed(ArgItems(ps, n)[k], false)
  {
    hide Closed, Variable, LiteralText;
    if n > 0 {
      assert AllBindable(ps[..n - 1]) && ps[..n][n - 1] == ps[n - 1];
      ArgItemsClosed(ps, n - 1);
      var p, sp := ps[n - 1], if n == 1 then "" else " ";
      BareIsClosed(sp);
      if NeedsVariable(p) {
        VariableIsClosed(n - 1);
      } else {
        LiteralIsClosed(p);
      }
      ClosedConcat(sp, ArgText(p, n - 1));
    }
  }

  /** An IN string that is not verbatim: whatever follows its item, the string is not read back. */
  lemma UnsafeArgFails(s: string, space: bool, tail: string)
    requires !Verbatim(s) && (tail == [] || tail[0] == ',')
    ensures ReadArg(Piece((if space then " " else "") + ("'" + s + "'") + tail)) != Some(Literal(Str(s)))
  {
    hide ReadLiteral, Cut, Verbatim;
    var sp, lit := if space then " " else "", "'" + s + "'" + tail;
    assert sp + ("'" + s + "'") + tail == sp + lit;
    CutSkips(sp, lit);
    assert Piece(sp + lit) == sp + Piece(lit);
    assert Piece(lit) != [] ==> Piece(lit)[0] == '\'';
    assert Unspaced(sp + Piece(lit)) == Piece(lit);
    if ReadLiteral(Piece(lit)) == Some(Str(s)) {
      StringNeedsVerbatim(s, tail, Piece(lit));
    }
  }

  lemma {:induction false} ArgItemAt(ps: Params, n: nat, i: nat)
    requires i < n <= |ps| && AllBindable(ps[..n])
    ensures Bindable(ps[i]) && ArgItems(ps, n)[i] == (if i == 0 then "" else " ") + ArgText(ps[i], i)
    ensures AllBindable(ps[..i]) && ArgItems(ps, n)[..i] == ArgItems(ps, i)
  {
    hide ArgText;
    assert AllBindable(ps[..n - 1]) && ps[..n][n - 1] == ps[n - 1];
    if i < n - 1 {
      ArgItemAt(ps, n - 1, i);
    }
  }

  lemma UnsafeCallFails(ps: Params, n: nat, i: nat)
    requires i < n <= |ps| && AllBindable(ps[..n])
    requires !CallSafe(ps[i]) && forall k :: 0 <= k < i ==> CallSafe(ps[k])
    ensures ReadArgs(Split(Join(ArgItems(ps, n)))) != Some(Arguments(ps, n))
  {
    hide ReadArgs, ReadArg, Split, Join, ArgItems, Arguments, Closed, Piece, Verbatim;
    var items := ArgItems(ps, n);
    ArgItemAt(ps, n, i);
    ArgumentAt(ps, n, i);
    ArgItemsClosed(ps, i);
    assert forall k :: 0 <= k < i ==> items[k] == items[..i][k];
    var tail := SplitNext(items, i);
    UnsafeArgFails(ps[i].bindValue.s, i != 0, tail);
    if ReadArgs(Split(Join(items))).Some? {
      ReadArgsEach(Split(Join(items)), i);
    }
  }

  lemma {:induction false} FirstUnsafeCall(ps: Params, n: nat) returns (i: nat)
    requires n <= |ps| && exists k :: 0 <= k < n && !CallSafe(ps[k])
    ensures i < n && !CallSafe(ps[i]) && forall k :: 0 <= k < i ==> CallSafe(ps[k])
  {
    hide CallSafe;
    if exists k :: 0 <= k < n - 1 && !CallSafe(ps[k]) {
      i := FirstUnsafeCall(ps, n - 1);
    } else {
      i := n - 1;
    }
  }

  lemma {:induction false} ArgumentAt(ps: Params, n: nat, i: nat)
    requires i < n <= |ps| && AllBindable(ps[..n])
    ensures Bindable(ps[i])
    ensures Arguments(ps, n)[i] == if NeedsVariable(ps[i]) then UserVariable(i) else Literal(Input(ps[i]))
  {
    hide Input;
    assert AllBindable(ps[..n - 1]) && ps[..n][n - 1] == ps[n - 1];
    if i < n - 1 {
      ArgumentAt(ps, n - 1, i);
    }
  }

  lemma {:induction false} ArgsNotEmpty(ps: Params, n: nat)
    requires 0 < n <= |ps| && AllBindable(ps[..n])
    ensures ArgsText(ps, n) != ""
  {
    hide LiteralText, Digits;
    assert AllBindable(ps[..n - 1]) && ps[..n][n - 1] == ps[n - 1];
    if !NeedsVariable(ps[n - 1]) {
      LiteralStart(ps[n - 1]);
    }
  }

  lemma CallFrame(proc: string, inner: string)
    ensures ReadCall(proc, "call " + proc + " ( " + inner + " )") == if inner == "" then Some([]) else ReadArgs(Split(inner))
  {
    hide ReadArgs, Split;
    var head := "call " + proc + " ( ";
    var text := "call " + proc + " ( " + inner + " )";
    assert text == head + inner + " )";
    assert text[|head|..|text| - 2] == inner && text[|text| - 2..] == " )";
  }

  /** The database reads in the `call` one argument per parameter, in order, literal or variable as intended,
      if and only if no IN string needs escaping. */
  lemma CallReadsBack(proc: string, ps: Params)
    requires AllBindable(ps)
    ensures ps[..|ps|] == ps
    ensures ReadCall(proc, CallText(proc, ps)) == Some(Arguments(ps, |ps|)) <==> forall i :: 0 <= i < |ps| ==> CallSafe(ps[i])
  {
    hide ReadCall, ReadArgs, Split, ArgItems, ArgsText, Arguments, CallSafe, Join, Closed;
    var n := |ps|;
    assert ps[..n] == ps;
    CallFrame(proc, ArgsText(ps, n));
    ArgsTextIsList(ps, n);
    var items := ArgItems(ps, n);
    if n > 0 {
      ArgsNotEmpty(ps, n);
      if exists i :: 0 <= i < n && !CallSafe(ps[i]) {
        var i := FirstUnsafeCall(ps, n);
        UnsafeCallFails(ps, n, i);
      } else {
        ArgItemsRead(ps, n);
        ArgItemsClosed(ps, n);
        SplitJoin(items);
      }
    } else {
      JoinNone();
    }
  }

  // ----- Reading the `select` statement -----

  lemma {:induction false} SelectItemsRead(ps: Params, n: nat)
    requires n <= |ps|
    ensures ReadArgs(SelectItems(ps, n)) == Some(Columns(ps, n))
  {
    hide ReadArg, Variable;
    if n > 0 {
      SelectItemsRead(ps, n - 1);
      if !ps[n - 1].direction.In? {
        var front, items := SelectItems(ps, n - 1), SelectItems(ps, n);
        ReadsVariableArg(n - 1, front != []);
        ReadArgsSnoc(front, items[|items| - 1]);
      } else {
        assert Columns(ps, n) == Columns(ps, n - 1);
      }
    }
  }

  lemma ReadArgsSnoc(items: seq<string>, item: string)
    ensures ReadArgs(items + [item]) == var front, last := ReadArgs(items), ReadArg(item);
                                        if front.None? || last.None? then None else Some(front.value + [last.value])
  {
    hide ReadArg;
    assert (items + [item])[..|items|] == items;
  }

  lemma {:induction false} SelectItemsClosed(ps: Params, n: nat)
    requires n <= |ps|
    ensures forall k :: 0 <= k < |SelectItems(ps, n)| ==> Closed(SelectItems(ps, n)[k], false)
  {
    hide Variable, Closed;
    if n > 0 {
      SelectItemsClosed(ps, n - 1);
      if !ps[n - 1].direction.In? {
        var sp := if SelectItems(ps, n - 1) == [] then "" else " ";
        BareIsClosed(sp);
        VariableIsClosed(n - 1);
        ClosedConcat(sp, Variable(n - 1));
      }
    }
  }

  lemma {:induction false} ColumnsAreOutIndices(ps: Params, n: nat)
    requires n <= |ps|
    ensures |Columns(ps, n)| == |OutIndices(ps, n)|
    ensures forall k :: 0 <= k < |Columns(ps, n)| ==> Columns(ps, n)[k] == UserVariable(OutIndices(ps, n)[k])
  {
    if n > 0 {
      ColumnsAreOutIndices(ps, n - 1);
    }
  }

  /** OutIndices lists exactly the OUT and INOUT parameters, in ascending order, each once. */
  lemma OutIndicesExact(ps: Params, n: nat)
    requires n <= |ps|
    ensures forall k :: 0 <= k < |OutIndices(ps, n)| ==> OutIndices(ps, n)[k] < n && !ps[OutIndices(ps, n)[k]].direction.In?
    ensures forall j, k :: 0 <= j < k < |OutIndices(ps, n)| ==> OutIndices(ps, n)[j] < OutIndices(ps, n)[k]
    ensures forall i :: 0 <= i < n && !ps[i].direction.In? ==> i in OutIndices(ps, n)
    ensures |OutIndices(ps, n)| + Tally(ps[..n], In) == n
  {
    hide OutIndices, Tally;
    OutIndicesAscend(ps, n);
    OutIndicesCount(ps, n);
    forall i | 0 <= i < n && !ps[i].direction.In? ensures i in OutIndices(ps, n) {
      OutIndicesHave(ps, n, i);
    }
  }

  lemma {:induction false} OutIndicesAscend(ps: Params, n: nat)
    requires n <= |ps|
    ensures forall k :: 0 <= k < |OutIndices(ps, n)| ==> OutIndices(ps, n)[k] < n && !ps[OutIndices(ps, n)[k]].direction.In?
    ensures forall j, k :: 0 <= j < k < |OutIndices(ps, n)| ==> OutIndices(ps, n)[j] < OutIndices(ps, n)[k]
  {
    if n > 0 {
      OutIndicesAscend(ps, n - 1);
    }
  }

  lemma {:induction false} OutIndicesCount(ps: Params, n: nat)
    requires n <= |ps|
    ensures |OutIndices(ps, n)| + Tally(ps[..n], In) == n
  {
    if n > 0 {
      OutIndicesCount(ps, n - 1);
      TallyPrefix(ps, n - 1, In);
    }
  }

  lemma {:induction false} OutIndicesHave(ps: Params, n: nat, i: nat)
    requires i < n <= |ps| && !ps[i].direction.In?
    ensures i in OutIndices(ps, n)
  {
    if i < n - 1 {
      OutIndicesHave(ps, n - 1, i);
    }
  }

  /** The `select` asks for the user variables of exactly the OUT and INOUT parameters, in ascending order. */
  lemma SelectReadsBack(ps: Params)
    ensures var text := SelectText(ps, |ps|);
            if text == "" then OutIndices(ps, |ps|) == [] else ReadSelect(text) == Some(Columns(ps, |ps|))
  {
    hide ReadArgs, Split, Join, SelectItems, SelectText, Columns, OutIndices, Closed;
    var n := |ps|;
    SelectTextIsList(ps, n);
    SelectItemsRead(ps, n);
    SelectItemsClosed(ps, n);
    ColumnsAreOutIndices(ps, n);
    var items := SelectItems(ps, n);
    if items == [] {
      ReadNoArgs();
    } else {
      SplitJoin(items);
      var text := SelectText(ps, n);
      assert "select " <= text && text[7..] == Join(items);
    }
  }

  lemma ReadNoArgs()
    ensures ReadArgs([]) == Some([])
  {
  }

  // ----- The meaning -----

  /** User variables after a `set`; one never assigned is NULL. */
  function ValueOf(assigns: seq<Assign>, index: nat): SqlValue {
    if assigns == [] then Null
    else
      var last := assigns[|assigns| - 1];
      if last.index == index then last.value else ValueOf(assigns[..|assigns| - 1], index)
  }

  function TimesAssigned(assigns: seq<Assign>, index: nat): nat {
    if assigns == [] then 0
    else TimesAssigned(assigns[..|assigns| - 1], index) + if assigns[|assigns| - 1].index == index then 1 else 0
  }

  function Evaluate(arg: Arg, assigns: seq<Assign>): SqlValue {
    match arg
    case UserVariable(i) => ValueOf(assigns, i)
    case Literal(v) => v
  }

  lemma {:induction false} AssignedOnce(ps: Params, n: nat, i: nat)
    requires n <= |ps| && AllBindable(ps[..n])
    ensures TimesAssigned(Assigns(ps, n), i) == if i < n && NeedsVariable(ps[i]) then 1 else 0
    ensures i < n && NeedsVariable(ps[i]) ==> Bindable(ps[i]) && ValueOf(Assigns(ps, n), i) == Input(ps[i])
  {
    hide Input;
    if n > 0 {
      assert AllBindable(ps[..n - 1]) && ps[..n][n - 1] == ps[n - 1];
      AssignedOnce(ps, n - 1, i);
      var assigns := Assigns(ps, n);
      if NeedsVariable(ps[n - 1]) {
        assert assigns[..|assigns| - 1] == Assigns(ps, n - 1);
      } else {
        assert assigns == Assigns(ps, n - 1);
      }
    }
  }

  /** Meaning preserved. When every statement is readable, the arguments of the `call`, evaluated after the `set`,
      are exactly the bound values of the parameters, in order, with NULL for OUT parameters; and every variable
      a `call` argument uses is assigned exactly once. */
  lemma CallReceivesInputs(proc: string, ps: Params)
    requires AllBindable(ps) && forall i :: 0 <= i < |ps| ==> SetSafe(ps[i]) && CallSafe(ps[i])
    ensures var args := ReadCall(proc, CallText(proc, ps));
            var assigns := if SetText(ps, |ps|) == "" then Some([]) else ReadSet(SetText(ps, |ps|));
            && args.Some? && assigns.Some? && |args.value| == |ps|
            && forall i :: 0 <= i < |ps| ==>
                 && Evaluate(args.value[i], assigns.value) == Input(ps[i])
                 && (args.value[i].UserVariable? ==> TimesAssigned(assigns.value, args.value[i].index) == 1)
  {
    hide ReadCall, ReadSet, Arguments, SetText, ValueOf, TimesAssigned, Input, SetSafe, CallSafe;
    var n := |ps|;
    assert ps[..n] == ps;
    CallReadsBack(proc, ps);
    if SetText(ps, n) == "" {
      NoSetNoAssigns(ps, n);
    } else {
      SetReadsBack(ps);
    }
    forall i | 0 <= i < n
      ensures Evaluate(Arguments(ps, n)[i], Assigns(ps, n)) == Input(ps[i])
      ensures Arguments(ps, n)[i].UserVariable? ==> TimesAssigned(Assigns(ps, n), Arguments(ps, n)[i].index) == 1
    {
      ArgumentAt(ps, n, i);
      AssignedOnce(ps, n, i);
    }
  }

  lemma {:induction false} NoSetNoAssigns(ps: Params, n: nat)
    requires n <= |ps| && AllBindable(ps[..n]) && SetText(ps, n) == ""
    ensures Assigns(ps, n) == []
  {
    hide SetItem;
    if n > 0 {
      assert AllBindable(ps[..n - 1]) && ps[..n][n - 1] == ps[n - 1];
      if !NeedsVariable(ps[n - 1]) {
        NoSetNoAssigns(ps, n - 1);
      }
    }
  }

  // ----- What a database does with the statements it is sent -----

  /** The user variables of a session; one that is not there is NULL. */
  type Variables = map<nat, SqlValue>

  /** What the procedure sees of a session: it is called with values, and variables are asked for. */
  datatype Request = Called(values: seq<SqlValue>) | Queried(columns: seq<Arg>)

  function Holding(vars: Variables, index: nat): SqlValue {
    if index in vars then vars[index] else Null
  }

  function Passed(args: seq<Arg>, vars: Variables): (values: seq<SqlValue>)
    ensures |values| == |args|
  {
    seq(|args|, i requires 0 <= i < |args| => if args[i].Literal? then args[i].value else Holding(vars, args[i].index))
  }

  function After(vars: Variables, assigns: seq<Assign>): Variables {
    if assigns == [] then vars
    else After(vars, assigns[..|assigns| - 1])[assigns[|assigns| - 1].index := assigns[|assigns| - 1].value]
  }

  /** Statement by statement, from the first to the last: a `set` changes the variables of the session, a `call`
      passes the values its arguments have at that moment. None if a statement is not understood. */
  function Play(proc: string, statements: seq<string>, vars: Variables): Option<seq<Request>> {
    if statements == [] then Some([])
    else if "set" <= statements[0] then
      var assigns := ReadSet(statements[0]);
      if assigns.None? then None else Play(proc, statements[1..], After(vars, assigns.value))
    else if "call " <= statements[0] then
      var args, more := ReadCall(proc, statements[0]), Play(proc, statements[1..], vars);
      if args.None? || more.None? then None else Some([Called(Passed(args.value, vars))] + more.value)
    else
      var columns, more := ReadSelect(statements[0]), Play(proc, statements[1..], vars);
      if columns.None? || more.None? then None else Some([Queried(columns.value)] + more.value)
  }

  /** The values the parameters are meant to have on entry. */
  function Inputs(ps: Params): (values: seq<SqlValue>)
    requires forall i :: 0 <= i < |ps| ==> Bindable(ps[i])
    ensures |values| == |ps| && forall i :: 0 <= i < |ps| ==> values[i] == Input(ps[i])
  {
    seq(|ps|, i requires 0 <= i < |ps| => Input(ps[i]))
  }

  /** Assigned variables have their new value; what a session held before does not matter. */
  lemma {:induction false} AfterAssigns(vars: Variables, assigns: seq<Assign>, index: nat)
    requires TimesAssigned(assigns, index) > 0
    ensures Holding(After(vars, assigns), index) == ValueOf(assigns, index)
  {
    var last := assigns[|assigns| - 1];
    if last.index != index {
      AfterAssigns(vars, assigns[..|assigns| - 1], index);
    }
  }

  /** The procedure is passed exactly the bound values, whatever the variables of the session held before. */
  lemma PassesInputs(proc: string, ps: Params, vars: Variables)
    requires AllBindable(ps) && forall i :: 0 <= i < |ps| ==> SetSafe(ps[i]) && CallSafe(ps[i])
    ensures ps[..|ps|] == ps
    ensures var args := ReadCall(proc, CallText(proc, ps));
            var assigns := if SetText(ps, |ps|) == "" then Some([]) else ReadSet(SetText(ps, |ps|));
            args.Some? && assigns.Some? && Passed(args.value, After(vars, assigns.value)) == Inputs(ps)
  {
    hide ReadCall, ReadSet, SetText, CallText, Input, SetSafe, CallSafe, After, TimesAssigned, ValueOf, Holding;
    assert ps[..|ps|] == ps;
    CallReceivesInputs(proc, ps);
    var args := ReadCall(proc, CallText(proc, ps)).value;
    var assigns := (if SetText(ps, |ps|) == "" then Some([]) else ReadSet(SetText(ps, |ps|))).value;
    forall i | 0 <= i < |ps| ensures Passed(args, After(vars, assigns))[i] == Input(ps[i]) {
      if args[i].UserVariable? {
        AfterAssigns(vars, assigns, args[i].index);
      }
    }
  }

  lemma PlayNone(proc: string, vars: Variables)
    ensures Play(proc, [], vars) == Some([])
  {
  }

  lemma PlaySet(proc: string, text: string, more: seq<string>, vars: Variables)
    requires "set" <= text && ReadSet(text).Some?
    ensures Play(proc, [text] + more, vars) == Play(proc, more, After(vars, ReadSet(text).value))
  {
    hide ReadSet, After;
    assert ([text] + more)[1..] == more;
  }

  lemma PlayCall(proc: string, text: string, more: seq<string>, vars: Variables)
    requires "call " <= text && ReadCall(proc, text).Some? && Play(proc, more, vars).Some?
    ensures Play(proc, [text] + more, vars) == Some([Called(Passed(ReadCall(proc, text).value, vars))] + Play(proc, more, vars).value)
  {
    hide ReadCall, Passed;
    assert ([text] + more)[1..] == more;
    assert text[0] == 'c';
  }

  lemma PlaySelect(proc: string, text: string, vars: Variables)
    requires "select " <= text && ReadSelect(text).Some?
    ensures Play(proc, [text], vars) == Some([Queried(ReadSelect(text).value)])
  {
    hide ReadSelect;
    assert [text][1..] == [];
    assert text[0] == 's' && text[2] == "select "[2] == 'l';
    assert !("set" <= text) && !("call " <= text);
    PlayNone(proc, vars);
    assert [Queried(ReadSelect(text).value)] + [] == [Queried(ReadSelect(text).value)];
  }

  // ----- Binding results -----

  ghost predicate InsFirst(ps: Params) {
    forall a, b :: 0 <= a < |ps| && 0 <= b < |ps| && ps[a].direction.In? && !ps[b].direction.In? ==> a < b
  }

  /** Result column j goes to parameter inCount + j. That is the parameter the column stands for, for every column,
      if and only if every IN parameter comes before every OUT and INOUT parameter. */
  lemma BindingReachesItsParameter(ps: Params)
    ensures (forall j :: 0 <= j < |OutIndices(ps, |ps|)| ==> OutIndices(ps, |ps|)[j] == Tally(ps, In) + j) <==> InsFirst(ps)
  {
    hide OutIndices, Tally;
    var n := |ps|;
    assert ps[..n] == ps;
    if InsFirst(ps) {
      InsFirstAligned(ps, n);
    }
    if forall j :: 0 <= j < |OutIndices(ps, n)| ==> OutIndices(ps, n)[j] == Tally(ps, In) + j {
      AlignedInsFirst(ps);
    }
  }

  lemma AlignedInsFirst(ps: Params)
    requires forall j :: 0 <= j < |OutIndices(ps, |ps|)| ==> OutIndices(ps, |ps|)[j] == Tally(ps, In) + j
    ensures InsFirst(ps)
  {
    hide OutIndices, Tally;
    var n := |ps|;
    var outs, ins := OutIndices(ps, n), Tally(ps, In);
    OutIndicesExact(ps, n);
    assert ps[..n] == ps;
    forall k | ins <= k < n ensures !ps[k].direction.In? {
      assert outs[k - ins] == k;
    }
    forall k | 0 <= k < n && !ps[k].direction.In? ensures ins <= k {
      assert k in outs;
    }
  }

  lemma {:induction false} NoOutsBefore(ps: Params, n: nat)
    requires n < |ps| && InsFirst(ps) && ps[n].direction.In?
    ensures OutIndices(ps, n) == []
  {
    if n > 0 {
      assert ps[n - 1].direction.In?;
      NoOutsBefore(ps, n - 1);
    }
  }

  lemma {:induction false} InsFirstAligned(ps: Params, n: nat)
    requires n <= |ps| && InsFirst(ps)
    ensures forall j :: 0 <= j < |OutIndices(ps, n)| ==> OutIndices(ps, n)[j] == Tally(ps[..n], In) + j
  {
    hide Tally;
    if n > 0 {
      if ps[n - 1].direction.In? {
        NoOutsBefore(ps, n - 1);
      } else {
        InsFirstAligned(ps, n - 1);
        TallyPrefix(ps, n - 1, In);
        OutIndicesExact(ps, n - 1);
      }
    }
  }
}
