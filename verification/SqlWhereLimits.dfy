/** Around the main theorem on where-maps: the strings themselves, and maps whose conditions come out
    differently from what their entries say. */
module SqlWhereLimits {
  import opened Common
  import opened Text
  import opened Sql
  import opened SqlBuild
  import opened SqlWhere

  // ----- the strings

  function ShowAll(ts: seq<Sql.Text>): (r: seq<string>)
    ensures |r| == |ts|
  {
    if ts == [] then [] else [Show(ts[0])] + ShowAll(ts[1..])
  }

  lemma {:induction false} ShowAppend(a: Sql.Text, b: Sql.Text)
    ensures Show(a + b) == Show(a) + Show(b)
  {
    hide ShowLex;
    if a == [] {
      NothingAdded(b);
      NothingAdded(Show(b));
    } else {
      TailOfSum(a, b);
      ShowAppend(a[1..], b);
      Assoc(ShowLex(a[0]), Show(a[1..]), Show(b));
    }
  }

  lemma ShowOne(l: Lex)
    ensures Show([l]) == ShowLex(l)
  {
    assert Show([l]) == ShowLex(l) + Show([]);
  }

  lemma {:induction false} ShowJoin(ts: seq<Sql.Text>, c: Lex)
    ensures Show(JoinLex(ts, c)) == Join(ShowAll(ts), ShowLex(c))
  {
    if |ts| == 1 {
    } else if |ts| > 1 {
      ShowJoin(ts[1..], c);
      ShowAppend(ts[0] + [c], JoinLex(ts[1..], c));
      ShowAppend(ts[0], [c]);
      ShowOne(c);
      assert ShowAll(ts)[1..] == ShowAll(ts[1..]);
    }
  }

  /** The string of a group is strings.Join of the strings of its conditions, in parentheses. */
  lemma ShowGroup(ps: seq<Piece>, c: Lex)
    requires ps != []
    ensures Show(Group(ps, c).text) == "(" + Join(ShowAll(Texts(ps)), ShowLex(c)) + ")"
  {
    var inner := JoinLex(Texts(ps), c);
    ShowJoin(Texts(ps), c);
    ShowAppend([Open] + inner, [Close]);
    ShowAppend([Open], inner);
    ShowOne(Open);
    ShowOne(Close);
  }

  /** strings.Repeat("?,", n) without its last comma. */
  function MarkString(n: nat): string {
    if n == 0 then "" else if n == 1 then "?" else "?," + MarkString(n - 1)
  }

  lemma {:induction false} ShowMarks(n: nat)
    ensures Show(MarkList(n)) == MarkString(n)
  {
    if n == 1 {
      ShowOne(Mark);
    } else if n > 1 {
      ShowMarks(n - 1);
      ShowMarkComma();
      var first: Sql.Text := [Mark, Comma];
      ShowAppend(first, MarkList(n - 1));
    }
  }

  lemma ShowMarkComma()
    ensures Show([Mark, Comma]) == "?,"
  {
    ShowOne(Comma);
    var t: Sql.Text := [Mark, Comma];
    assert t[1..] == [Comma];
    assert "?" + "," == "?,";
  }

  /** The string of an IN condition. */
  lemma ShowIn(f: string, vs: seq<Val>)
    ensures Show(ListPiece(f, In, vs).text) == f + " IN (" + MarkString(|vs|) + ")"
  {
    hide *;
    var open: Sql.Text := [Name(f), Op(In), Open];
    var marks := MarkList(|vs|);
    ListPieceIs(f, vs);
    ShowOpen(f);
    ShowClose();
    ShowMarks(|vs|);
    ShowAppend(open + marks, [Close]);
    ShowAppend(open, marks);
  }

  lemma ListPieceIs(f: string, vs: seq<Val>)
    ensures ListPiece(f, In, vs).text == [Name(f), Op(In), Open] + MarkList(|vs|) + [Close]
  {
  }

  lemma ShowClose()
    ensures Show([Close]) == ")"
  {
    ShowOne(Close);
  }

  lemma ShowOpen(f: string)
    ensures Show([Name(f), Op(In), Open]) == f + " IN ("
  {
    var t: Sql.Text := [Name(f), Op(In), Open];
    assert t[1..] == [Op(In), Open] && t[1..][1..] == [Open];
    ShowOne(Open);
    assert Show([Op(In), Open]) == " IN " + "(" == " IN (";
  }

  // ----- one entry

  /** One entry under an ordinary key. */
  predicate Single(e: Entry, ignore: set<string>, op: Operator, field: string) {
    e.key !in ignore && !IsOr(e) && Normalise(e.key, e.val) == Normal(op, field) && Sliced(op, Some(e.val))
  }

  lemma SingleIs(e: Entry, ignore: set<string>, op: Operator, field: string)
    requires Single(e, ignore, op, field)
    ensures var es := [e];
      && Consistent(es, ignore) && Valid(es, ignore)
      && HasCondition(es, ignore) == !PassedOver(op, e.val)
      && Legible(es, ignore) == (PassedOver(op, e.val) || Usable(op, e.val))
  {
    hide Normalise, Sliced, Usable;
    var es := [e];
    assert es[1..] == [] && !HasCondition([], ignore) && Legible([], ignore) && Valid([], ignore);
    assert forall x <- es :: x == e;
    assert PairsAlike(es, ignore);
    assert EntryConsistent(e, ignore) && AllConsistent([], ignore) && AllConsistent(es, ignore);
    assert PutsCondition(e, ignore) == !PassedOver(op, e.val);
    assert HasCondition(es, ignore) == PutsCondition(e, ignore);
  }

  /** An entry puts no text exactly when its operator is null and its value is no NullType. */
  lemma NoTextIffPassedOver(e: Entry, ignore: set<string>, op: Operator, field: string)
    requires Single(e, ignore, op, field)
    ensures var r := GetConditions([e], ignore);
      r.Ok? && (WhereOf(r.cs).text == [] <==> op == OpNull && !e.val.Null?)
  {
    SingleIs(e, ignore, op, field);
    WhereMeansTheMap([e], ignore, t => true);
    hide GetConditions, WhereOf, Consistent, Valid, HasCondition, Legible, Single;
  }

  /** An empty list for IN, or other than two values for BETWEEN, is accepted and has as many placeholders
      as values, but its text cannot be read as a test on any row. */
  lemma UnusableValueIsUnreadable(e: Entry, ignore: set<string>, op: Operator, field: string, row: Row)
    requires Single(e, ignore, op, field) && !Usable(op, e.val)
    ensures var r := GetConditions([e], ignore);
      r.Ok? && ReadOperand(WhereOf(r.cs).text, WhereOf(r.cs).vals, row) == None
  {
    SingleIs(e, ignore, op, field);
    WhereMeansTheMap([e], ignore, row);
    hide GetConditions, WhereOf, Consistent, Valid, HasCondition, Legible, Single, ReadOperand;
  }

  /** Such an entry. */
  lemma EmptyListIsUnreadable(row: Row)
    ensures var r := GetConditions([Entry("a", Slice([]))], IGNORED);
      r.Ok? && ReadOperand(WhereOf(r.cs).text, WhereOf(r.cs).vals, row) == None
  {
    var e := Entry("a", Slice([]));
    assert Normalise("a", Slice([])) == Normal(OpIn, "a") by {
      assert TrimSpaces("a") == "a" && SpaceAt("a", 0) == 1;
      assert "in"[1..] == "n" && "n"[1..] == "" && ToLower("n") == "n" && ToLower("in") == "in";
    }
    assert !IsOr(e) && Single(e, IGNORED, OpIn, "a");
    hide Single, GetConditions, WhereOf, ReadOperand, IGNORED;
    UnusableValueIsUnreadable(e, IGNORED, OpIn, "a", row);
  }
}
