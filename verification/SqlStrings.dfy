/** The SQL strings of BuildWhere, spelled out: for every operator word of a key the words of the condition. */
module SqlStrings {
  import opened Common
  import opened StringOrder
  import opened Sql
  import opened SqlBuild
  import opened SqlWhere
  import opened SqlWhereCode
  import opened SqlWhereLimits
  import Text

  // ----- keys

  /** A field as it stands in a key: no space in it, and not taken for an _or. */
  predicate PlainField(f: string) { f != "" && ' ' !in f && !("_or" <= f) }

  lemma {:induction false} SpaceFound(f: string, t: string, i: nat)
    requires ' ' !in f && i <= |f|
    ensures SpaceAt(f + " " + t, i) == |f|
    decreases |f| - i
  {
    var k := f + " " + t;
    if i < |f| {
      assert k[i] == f[i];
      SpaceFound(f, t, i + 1);
    } else {
      assert k[|f|] == ' ';
    }
  }

  lemma {:induction false} NoSpaceFound(t: string, i: nat)
    requires ' ' !in t && i <= |t|
    ensures SpaceAt(t, i) == |t|
    decreases |t| - i
  {
    if i < |t| {
      NoSpaceFound(t, i + 1);
    }
  }

  lemma NothingTrimmed(s: string)
    requires s != "" && s[0] != ' ' && s[|s| - 1] != ' '
    ensures TrimSpaces(s) == s
  {
  }

  /** An operator word: one word, or two words with one space between them. */
  predicate IsWord(t: string) {
    && t != "" && t[0] != ' ' && t[|t| - 1] != ' ' && RemoveInnerSpace(t) == t && ToLower(t) == t
  }

  lemma KeySplits(f: string, t: string, v: Val)
    requires PlainField(f) && IsWord(t)
    ensures SplitKey(f + " " + t, v) == Some((f, t))
  {
    var k := f + " " + t;
    assert k[0] == f[0] && k[|k| - 1] == t[|t| - 1];
    assert f[0] in f;
    NothingTrimmed(k);
    NothingTrimmed(t);
    SpaceFound(f, t, 0);
    assert k[..|f|] == f && k[|f| + 1..] == t;
    hide TrimSpaces, SpaceAt, RemoveInnerSpace;
  }

  lemma KeyIsField(f: string, t: string, v: Val, op: Operator)
    requires PlainField(f) && IsWord(t) && OperatorOf(t) == Some(op)
    ensures var e := Entry(f + " " + t, v);
      && e.key !in IGNORED && !IsOr(e)
      && Normalise(e.key, v) == Normal(if v.Null? then OpNull else op, f)
  {
    KeySplits(f, t, v);
    var k := f + " " + t;
    assert k[|f|] == ' ' && ' ' in k;
    NotIgnored(k);
    if "_or" <= k {
      OrIsField(f, t);
    }
    hide SplitKey, OperatorOf, ToLower, IGNORED;
  }

  lemma NotIgnored(k: string)
    requires ' ' in k
    ensures k !in IGNORED
  {
    assert ' ' !in "_orderby" && ' ' !in "_groupby" && ' ' !in "_having" && ' ' !in "_limit" && ' ' !in "_lockMode";
  }

  lemma OrIsField(f: string, t: string)
    requires ' ' !in f && "_or" <= f + " " + t
    ensures "_or" <= f
  {
    var k := f + " " + t;
    assert k[|f|] == ' ' && k[..|f|] == f;
    assert k[0] == '_' && k[1] == 'o' && k[2] == 'r';
    assert |f| >= 3;
  }

  // ----- one condition

  lemma OneKey(f: string)
    ensures SortedKeys({f}) == [f]
  {
    var ks := SortedKeys({f});
    assert ks[0] in ks;
    assert |ks| == 1;
  }

  lemma {:induction false} FromNone(s: FieldSet, ops: seq<Operator>)
    requires forall op <- ops :: op !in s
    ensures FromSet(s, ops) == Ok([])
  {
    if ops != [] {
      FromNone(s, ops[1..]);
    }
  }

  lemma {:induction false} FromOne(op: Operator, m: map<string, Val>, ops: seq<Operator>, i: nat)
    requires i < |ops| && ops[i] == op && forall j | 0 <= j < |ops| && j != i :: ops[j] != op
    requires WantsSlice(op) ==> forall f <- m :: AsSlice(m[f]).Some?
    ensures FromSet(map[op := m], ops) == Ok([Fields(op, m)])
    decreases i
  {
    hide AsSlice, WantsSlice;
    var s := map[op := m];
    if i == 0 {
      FromNone(s, ops[1..]);
      NothingAdded([Fields(op, m)]);
    } else {
      assert ops[0] != op;
      FromOne(op, m, ops[1..], i - 1);
    }
  }

  lemma PositionsDiffer(op: Operator)
    ensures Position(op) < |OP_ORDER| && OP_ORDER[Position(op)] == op
    ensures forall j | 0 <= j < |OP_ORDER| && j != Position(op) :: OP_ORDER[j] != op
  {
    var all := OP_ORDER;
    forall j | 0 <= j < |all|
      ensures Position(all[j]) == j
    {
    }
  }

  lemma OneEntryScans(e: Entry, op: Operator, f: string)
    requires Single(e, IGNORED, op, f)
    ensures GetConditions([e], IGNORED) == Ok([Fields(op, map[f := e.val])])
  {
    var s: FieldSet := map[op := map[f := e.val]];
    assert Add(map[], op, f, e.val) == s;
    OneScan(e, op, f);
    PositionsDiffer(op);
    FromOne(op, map[f := e.val], OP_ORDER, Position(op));
    hide FromSet, Scan, OP_ORDER, IGNORED, Add;
    NothingAdded([Fields(op, map[f := e.val])]);
  }

  lemma OneScan(e: Entry, op: Operator, f: string)
    requires Single(e, IGNORED, op, f)
    ensures Scan([e], IGNORED, map[], []) == Scanned(Add(map[], op, f, e.val), [])
  {
    hide Normalise, IGNORED, Add;
    assert [e][1..] == [];
    NothingTells(IGNORED, Add(map[], op, f, e.val), [], t => true);
  }

  /** One entry makes its condition, in parentheses behind a space. */
  lemma OneEntryBuilt(e: Entry, op: Operator, f: string)
    requires Single(e, IGNORED, op, f) && !PassedOver(op, e.val)
    ensures var p := FieldPiece(op, f, e.val);
      Built([e]) == Where(" (" + Show(p.text) + ")", p.vals)
  {
    var m, p := map[f := e.val], FieldPiece(op, f, e.val);
    OneEntryScans(e, op, f);
    OnePieces(op, f, e.val);
    OneGroup(p);
    hide GetConditions, FieldPiece, AllPieces, Show, Group, IGNORED;
    var w := WhereOf([Fields(op, m)]);
    assert w == Group([p], And);
  }

  lemma OnePieces(op: Operator, f: string, v: Val)
    requires !PassedOver(op, v)
    ensures AllPieces([Fields(op, map[f := v])]) == [FieldPiece(op, f, v)]
  {
    hide FieldPiece;
    var m, c := map[f := v], Fields(op, map[f := v]);
    OneKey(f);
    assert m.Keys == {f};
    assert [f][1..] == [] && KeyPieces(op, [], m) == [];
    assert KeyPieces(op, [f], m) == FieldPieces(op, f, v) + [];
    NothingAdded([FieldPiece(op, f, v)]);
    assert AllPieces([c]) == Pieces(c) + AllPieces([]);
  }

  lemma OneGroup(p: Piece)
    ensures Group([p], And).text != [] && Group([p], And).vals == p.vals
    ensures " " + Show(Group([p], And).text) == " (" + Show(p.text) + ")"
  {
    assert Texts([p]) == [p.text] && [p][1..] == [] && Vals([p]) == p.vals + [];
    NothingAdded(p.vals);
    ShowAppend([Open] + p.text, [Close]);
    ShowAppend([Open], p.text);
    ShowOne(Open);
    ShowOne(Close);
    hide Show;
    assert " " + ("(" + Show(p.text) + ")") == " (" + Show(p.text) + ")";
  }

  lemma WordBuilt(f: string, t: string, v: Val, op: Operator)
    requires PlainField(f) && IsWord(t) && OperatorOf(t) == Some(op) && !v.Null? && op != OpNull
    requires Sliced(op, Some(v))
    ensures var p := FieldPiece(op, f, v);
      Built([Entry(f + " " + t, v)]) == Where(" (" + Show(p.text) + ")", p.vals)
  {
    hide Normalise, IGNORED, OperatorOf, IsWord, PlainField, Sliced, FieldPiece, Show, Built;
    KeyIsField(f, t, v, op);
    OneEntryBuilt(Entry(f + " " + t, v), op, f);
  }

  // ----- the words

  lemma OneWord(t: string)
    requires t != "" && ' ' !in t && NoCapital(t)
    ensures IsWord(t)
  {
    AlreadyLower(t);
    NoSpaceFound(t, 0);
    assert t[0] in t && t[|t| - 1] in t;
    hide ToLower;
  }

  predicate NoCapital(t: string) { forall i | 0 <= i < |t| :: !('A' <= t[i] <= 'Z') }

  lemma {:induction false} AlreadyLower(t: string)
    requires NoCapital(t)
    ensures ToLower(t) == t
  {
    if t != "" {
      AlreadyLower(t[1..]);
    }
  }

  lemma TwoWords(a: string, b: string)
    requires a != "" && ' ' !in a && b != "" && ' ' !in b && NoCapital(a + " " + b)
    ensures IsWord(a + " " + b)
  {
    var t := a + " " + b;
    AlreadyLower(t);
    SpaceFound(a, b, 0);
    assert a[0] in a && b[|b| - 1] in b && b[0] in b;
    assert t[|a| + 1] == b[0] != ' ';
    assert LastOfRun(t, |a|) == |a|;
    assert t[..|a|] + t[|a|..] == t;
    hide ToLower, SpaceAt, LastOfRun;
  }

  lemma ShowFirst(l: Lex, t: Sql.Text)
    ensures Show([l] + t) == ShowLex(l) + Show(t)
  {
    hide ShowLex;
    TailAfter(l, t);
  }

  lemma ShowNames(f: string, sym: Sym)
    ensures ShowLex(Name(f)) == f && ShowLex(Op(sym)) == ShowSym(sym)
  {
    hide ShowSym;
  }

  lemma ShowTwo(f: string, sym: Sym, l: Lex)
    ensures Show([Name(f), Op(sym), l]) == f + ShowSym(sym) + ShowLex(l)
  {
    hide *;
    assert [Op(sym)] + [l] == [Op(sym), l] && [Name(f)] + [Op(sym), l] == [Name(f), Op(sym), l];
    ShowFirst(Name(f), [Op(sym), l]);
    ShowFirst(Op(sym), [l]);
    ShowOne(l);
    ShowNames(f, sym);
    Assoc(f, ShowSym(sym), ShowLex(l));
  }

  lemma EqWord()
    ensures IsWord("=") && OperatorOf("=") == Some(OpEq)
  {
    OneWord("=");
    hide IsWord;
  }

  lemma NeWord()
    ensures IsWord("!=") && OperatorOf("!=") == Some(OpNe1)
  {
    OneWord("!=");
    hide IsWord;
  }

  lemma Ne2Word()
    ensures IsWord("<>") && OperatorOf("<>") == Some(OpNe2)
  {
    OneWord("<>");
    hide IsWord;
  }

  lemma GtWord()
    ensures IsWord(">") && OperatorOf(">") == Some(OpGt)
  {
    OneWord(">");
    hide IsWord;
  }

  lemma GteWord()
    ensures IsWord(">=") && OperatorOf(">=") == Some(OpGte)
  {
    OneWord(">=");
    hide IsWord;
  }

  lemma LtWord()
    ensures IsWord("<") && OperatorOf("<") == Some(OpLt)
  {
    OneWord("<");
    hide IsWord;
  }

  lemma LteWord()
    ensures IsWord("<=") && OperatorOf("<=") == Some(OpLte)
  {
    OneWord("<=");
    hide IsWord;
  }

  lemma LikeWord()
    ensures IsWord("like") && OperatorOf("like") == Some(OpLike)
  {
    OneWord("like");
    hide IsWord;
  }

  lemma Like2Word()
    ensures IsWord("like2") && OperatorOf("like2") == Some(OpLikePercent)
  {
    OneWord("like2");
    hide IsWord;
  }

  lemma InWord()
    ensures IsWord("in") && OperatorOf("in") == Some(OpIn)
  {
    OneWord("in");
    hide IsWord;
  }

  lemma BetweenWord()
    ensures IsWord("between") && OperatorOf("between") == Some(OpBetween)
  {
    OneWord("between");
    hide IsWord;
  }

  lemma NullWord()
    ensures IsWord("null") && OperatorOf("null") == Some(OpNull)
  {
    OneWord("null");
    hide IsWord;
  }

  lemma NotLikeJoined()
    ensures "not" + " " + "like" == "not like"
  {
  }

  lemma NotLikeNamed()
    ensures OperatorOf("not like") == Some(OpNotLike)
  {
  }

  lemma NotLikeCapitals()
    ensures NoCapital("not like")
  {
  }

  lemma NotLikeWord()
    ensures IsWord("not like") && OperatorOf("not like") == Some(OpNotLike)
  {
    NotLikeJoined();
    NotLikeNamed();
    NotLikeCapitals();
    hide NoCapital, OperatorOf, IsWord;
    TwoWords("not", "like");
  }

  lemma NotInJoined()
    ensures "not" + " " + "in" == "not in"
  {
  }

  lemma NotInNamed()
    ensures OperatorOf("not in") == Some(OpNotIn)
  {
  }

  lemma NotInCapitals()
    ensures NoCapital("not in")
  {
  }

  lemma NotInWord()
    ensures IsWord("not in") && OperatorOf("not in") == Some(OpNotIn)
  {
    NotInJoined();
    NotInNamed();
    NotInCapitals();
    hide NoCapital, OperatorOf, IsWord;
    TwoWords("not", "in");
  }

  lemma NotBetweenJoined()
    ensures "not" + " " + "between" == "not between"
  {
  }

  lemma NotBetweenNamed()
    ensures OperatorOf("not between") == Some(OpNotBetween)
  {
  }

  lemma NotBetweenCapitals()
    ensures NoCapital("not between")
  {
  }

  lemma NotBetweenWord()
    ensures IsWord("not between") && OperatorOf("not between") == Some(OpNotBetween)
  {
    NotBetweenJoined();
    NotBetweenNamed();
    NotBetweenCapitals();
    hide NoCapital, OperatorOf, IsWord;
    TwoWords("not", "between");
  }

  // ----- the strings

  lemma ThreeBuilt(f: string, t: string, v: Val, op: Operator, sym: Sym, l: Lex, vals: seq<Val>)
    requires PlainField(f) && IsWord(t) && OperatorOf(t) == Some(op) && !v.Null? && op != OpNull
    requires Sliced(op, Some(v)) && FieldPiece(op, f, v) == Piece([Name(f), Op(sym), l], vals)
    ensures Built([Entry(f + " " + t, v)]) == Where(" (" + (f + ShowSym(sym) + ShowLex(l)) + ")", vals)
  {
    hide *;
    WordBuilt(f, t, v, op);
    ShowTwo(f, sym, l);
  }

  /** A comparison comes out as it is written. */
  lemma CompareOne(f: string, t: string, v: Val, op: Operator, sym: Sym)
    requires PlainField(f) && IsWord(t) && OperatorOf(t) == Some(op) && !v.Raw? && !v.Null? && op != OpNull
    requires FieldPiece(op, f, v) == Piece([Name(f), Op(sym), Mark], [v]) && ShowSym(sym) == t && Sliced(op, Some(v))
    ensures Built([Entry(f + " " + t, v)]) == Where(" (" + (f + t + "?") + ")", [v])
  {
    hide *;
    ThreeBuilt(f, t, v, op, sym, Mark, [v]);
    MarkShown();
  }

  lemma MarkShown()
    ensures ShowLex(Mark) == "?"
  {
  }

  /** The six comparisons. */
  lemma CompareString(f: string, t: string, v: Val)
    requires PlainField(f) && t in {"=", "!=", ">", ">=", "<", "<="} && !v.Raw? && !v.Null?
    ensures Built([Entry(f + " " + t, v)]) == Where(" (" + (f + t + "?") + ")", [v])
  {
    hide Built, IsWord, PlainField, OperatorOf;
    if t == "=" {
      EqWord();
      CompareOne(f, t, v, OpEq, Equal);
    } else if t == "!=" {
      NeWord();
      CompareOne(f, t, v, OpNe1, NotEqual);
    } else if t == ">" {
      GtWord();
      CompareOne(f, t, v, OpGt, Sym.Greater);
    } else if t == ">=" {
      GteWord();
      CompareOne(f, t, v, OpGte, GreaterEq);
    } else if t == "<" {
      LtWord();
      CompareOne(f, t, v, OpLt, Sym.Less);
    } else {
      LteWord();
      CompareOne(f, t, v, OpLte, LessEq);
    }
  }

  /** Raw SQL stands in the text, without a placeholder. */
  lemma RawString(f: string, sql: string)
    requires PlainField(f)
    ensures Built([Entry(f + " " + "=", Raw(sql))]) == Where(" (" + (f + "=" + sql) + ")", [])
  {
    EqWord();
    hide Built, IsWord, PlainField, OperatorOf;
    ThreeBuilt(f, "=", Raw(sql), OpEq, Equal, RawSql(sql), []);
  }

  /** <> is written !=. */
  lemma NotEqualString(f: string, v: Val)
    requires PlainField(f) && !v.Raw? && !v.Null?
    ensures Built([Entry(f + " " + "<>", v)]) == Where(" (" + (f + "!=" + "?") + ")", [v])
  {
    Ne2Word();
    hide Built, IsWord, PlainField, OperatorOf;
    ThreeBuilt(f, "<>", v, OpNe2, NotEqual, Mark, [v]);
  }

  lemma LikeString(f: string, v: Val)
    requires PlainField(f) && !v.Null?
    ensures Built([Entry(f + " " + "like", v)]) == Where(" (" + (f + " LIKE " + "?") + ")", [v])
  {
    LikeWord();
    hide Built, IsWord, PlainField, OperatorOf;
    ThreeBuilt(f, "like", v, OpLike, Like, Mark, [v]);
  }

  /** like2 puts the value between percent signs. */
  lemma LikePercentString(f: string, v: Val)
    requires PlainField(f) && !v.Null?
    ensures Built([Entry(f + " " + "like2", v)]) == Where(" (" + (f + " LIKE " + "?") + ")", [Percent(v)])
  {
    Like2Word();
    hide Built, IsWord, PlainField, OperatorOf;
    ThreeBuilt(f, "like2", v, OpLikePercent, Like, Mark, [Percent(v)]);
  }

  lemma NotLikeString(f: string, v: Val)
    requires PlainField(f) && !v.Null?
    ensures Built([Entry(f + " " + "not like", v)]) == Where(" (" + (f + " NOT LIKE " + "?") + ")", [v])
  {
    NotLikeWord();
    hide Built, IsWord, PlainField, OperatorOf;
    ThreeBuilt(f, "not like", v, OpNotLike, NotLike, Mark, [v]);
  }

  lemma ListIs(f: string, sym: Sym, vs: seq<Val>)
    ensures ListPiece(f, sym, vs) == Piece([Name(f), Op(sym), Open] + MarkList(|vs|) + [Close], vs)
    ensures ShowLex(Open) == "("
  {
  }

  lemma SliceIsSliced(op: Operator, vs: seq<Val>)
    ensures Sliced(op, Some(Slice(vs)))
  {
  }

  lemma ShowList(f: string, sym: Sym, vs: seq<Val>)
    ensures Show(ListPiece(f, sym, vs).text) == f + ShowSym(sym) + "(" + MarkString(|vs|) + ")"
  {
    hide *;
    var open: Sql.Text := [Name(f), Op(sym), Open];
    ListIs(f, sym, vs);
    ShowTwo(f, sym, Open);
    ShowClose();
    ShowMarks(|vs|);
    ShowAppend(open + MarkList(|vs|), [Close]);
    ShowAppend(open, MarkList(|vs|));
  }

  /** A list has one mark for each of its elements. */
  lemma ListBuilt(f: string, t: string, vs: seq<Val>, op: Operator, sym: Sym)
    requires PlainField(f) && IsWord(t) && OperatorOf(t) == Some(op) && op in {OpIn, OpNotIn}
    requires FieldPiece(op, f, Slice(vs)) == ListPiece(f, sym, vs)
    ensures Built([Entry(f + " " + t, Slice(vs))])
      == Where(" (" + (f + ShowSym(sym) + "(" + MarkString(|vs|) + ")") + ")", vs)
  {
    hide *;
    SliceIsSliced(op, vs);
    ListIs(f, sym, vs);
    WordBuilt(f, t, Slice(vs), op);
    ShowList(f, sym, vs);
  }

  lemma InIs(f: string, vs: seq<Val>)
    ensures FieldPiece(OpIn, f, Slice(vs)) == ListPiece(f, In, vs) && ShowSym(In) == " IN "
  {
    hide ListPiece;
  }

  lemma InString(f: string, vs: seq<Val>)
    requires PlainField(f)
    ensures Built([Entry(f + " " + "in", Slice(vs))])
      == Where(" (" + (f + " IN " + "(" + MarkString(|vs|) + ")") + ")", vs)
  {
    hide *;
    InWord();
    InIs(f, vs);
    ListBuilt(f, "in", vs, OpIn, In);
  }

  lemma NotInIs(f: string, vs: seq<Val>)
    ensures FieldPiece(OpNotIn, f, Slice(vs)) == ListPiece(f, NotIn, vs) && ShowSym(NotIn) == " NOT IN "
  {
    hide ListPiece;
  }

  lemma NotInString(f: string, vs: seq<Val>)
    requires PlainField(f)
    ensures Built([Entry(f + " " + "not in", Slice(vs))])
      == Where(" (" + (f + " NOT IN " + "(" + MarkString(|vs|) + ")") + ")", vs)
  {
    hide *;
    NotInWord();
    NotInIs(f, vs);
    ListBuilt(f, "not in", vs, OpNotIn, NotIn);
  }

  lemma BetweenIs(f: string, sym: Sym)
    ensures [Open, Name(f), Op(sym), Mark, And, Mark, Close] == [Open] + ([Name(f), Op(sym), Mark] + [And, Mark, Close])
    ensures ShowLex(Open) == "("
  {
  }

  lemma ShowBetween(f: string, sym: Sym)
    ensures Show([Open, Name(f), Op(sym), Mark, And, Mark, Close]) == "(" + (f + ShowSym(sym) + "?" + " AND ?)")
  {
    hide *;
    var front: Sql.Text := [Name(f), Op(sym), Mark];
    var back: Sql.Text := [And, Mark, Close];
    BetweenIs(f, sym);
    ShowAppend([Open], front + back);
    ShowAppend(front, back);
    ShowTwo(f, sym, Mark);
    MarkShown();
    ShowOne(Open);
    ShowBack();
  }

  lemma ShowBack()
    ensures Show([And, Mark, Close]) == " AND ?)"
  {
    var t: Sql.Text := [And, Mark, Close];
    assert t[1..] == [Mark, Close] && t[1..][1..] == [Close];
    ShowOne(Close);
    assert Show([Mark, Close]) == "?" + ")" == "?)";
  }

  lemma BetweenBuilt(f: string, t: string, v: Val, w: Val, op: Operator, sym: Sym)
    requires PlainField(f) && IsWord(t) && OperatorOf(t) == Some(op) && op in {OpBetween, OpNotBetween}
    requires FieldPiece(op, f, Slice([v, w])) == Piece([Open, Name(f), Op(sym), Mark, And, Mark, Close], [v, w])
    ensures Built([Entry(f + " " + t, Slice([v, w]))])
      == Where(" (" + ("(" + (f + ShowSym(sym) + "?" + " AND ?)")) + ")", [v, w])
  {
    assert Sliced(op, Some(Slice([v, w])));
    hide *;
    WordBuilt(f, t, Slice([v, w]), op);
    ShowBetween(f, sym);
  }

  lemma BetweenString(f: string, v: Val, w: Val)
    requires PlainField(f)
    ensures Built([Entry(f + " " + "between", Slice([v, w]))])
      == Where(" (" + ("(" + (f + " BETWEEN " + "?" + " AND ?)")) + ")", [v, w])
  {
    BetweenWord();
    hide Built, IsWord, PlainField, OperatorOf;
    BetweenBuilt(f, "between", v, w, OpBetween, Between);
  }

  lemma NotBetweenString(f: string, v: Val, w: Val)
    requires PlainField(f)
    ensures Built([Entry(f + " " + "not between", Slice([v, w]))])
      == Where(" (" + ("(" + (f + " NOT BETWEEN " + "?" + " AND ?)")) + ")", [v, w])
  {
    NotBetweenWord();
    hide Built, IsWord, PlainField, OperatorOf;
    BetweenBuilt(f, "not between", v, w, OpNotBetween, NotBetween);
  }

  lemma ShowNull(f: string, sym: Sym)
    ensures Show([Name(f), Op(sym)]) == f + ShowSym(sym)
  {
    assert [Name(f), Op(sym)][1..] == [Op(sym)];
    ShowOne(Op(sym));
    hide ShowSym;
  }

  lemma NullBuilt(f: string, t: string, isNull: bool, op: Operator)
    requires PlainField(f) && IsWord(t) && OperatorOf(t) == Some(op)
    ensures Built([Entry(f + " " + t, Null(isNull))])
      == Where(" (" + (f + ShowSym(if isNull then IsNull else IsNotNull)) + ")", [])
  {
    var v, sym := Null(isNull), if isNull then IsNull else IsNotNull;
    assert FieldPiece(OpNull, f, v) == Piece([Name(f), Op(sym)], []) && Sliced(OpNull, Some(v));
    KeyIsField(f, t, v, op);
    hide Built, IsWord, PlainField, OperatorOf, ShowSym, Show, FieldPiece, Normalise, IGNORED;
    OneEntryBuilt(Entry(f + " " + t, v), OpNull, f);
    ShowNull(f, sym);
  }

  lemma NullString(f: string, isNull: bool)
    requires PlainField(f)
    ensures Built([Entry(f + " " + "null", Null(isNull))])
      == Where(" (" + (f + if isNull then " IS NULL" else " IS NOT NULL") + ")", [])
  {
    NullWord();
    hide Built, IsWord, PlainField, OperatorOf;
    NullBuilt(f, "null", isNull, OpNull);
  }

  /** A NullType overrides the operator word. */
  lemma NullOverrides(f: string, isNull: bool)
    requires PlainField(f)
    ensures Built([Entry(f + " " + "=", Null(isNull))])
      == Where(" (" + (f + if isNull then " IS NULL" else " IS NOT NULL") + ")", [])
  {
    EqWord();
    hide Built, IsWord, PlainField, OperatorOf;
    NullBuilt(f, "=", isNull, OpEq);
  }

  lemma ConnectorsShown()
    ensures ShowLex(And) == " AND " && ShowLex(Or) == " OR "
  {
  }

  /** The two connectors. */
  lemma GroupStrings(ps: seq<Piece>)
    requires ps != []
    ensures Show(Group(ps, And).text) == "(" + Text.Join(ShowAll(Texts(ps)), " AND ") + ")"
    ensures Show(Group(ps, Or).text) == "(" + Text.Join(ShowAll(Texts(ps)), " OR ") + ")"
  {
    hide *;
    ConnectorsShown();
    ShowGroup(ps, And);
    ShowGroup(ps, Or);
  }

  // ----- two conditions

  lemma {:induction false} FromTwo(s: FieldSet, a: Operator, b: Operator, ops: seq<Operator>, i: nat, j: nat)
    requires i < j < |ops| && ops[i] == a && ops[j] == b && s.Keys == {a, b}
    requires forall k | 0 <= k < |ops| && k != i :: ops[k] != a
    requires forall k | 0 <= k < |ops| && k != j :: ops[k] != b
    requires forall op <- s :: WantsSlice(op) ==> forall f <- s[op] :: AsSlice(s[op][f]).Some?
    ensures FromSet(s, ops) == Ok([Fields(a, s[a]), Fields(b, s[b])])
    decreases i
  {
    hide AsSlice, WantsSlice;
    if i == 0 {
      FromLater(s, b, ops[1..], j - 1);
    } else {
      assert ops[0] != a && ops[0] != b;
      FromTwo(s, a, b, ops[1..], i - 1, j - 1);
    }
  }

  lemma {:induction false} FromLater(s: FieldSet, b: Operator, ops: seq<Operator>, j: nat)
    requires j < |ops| && ops[j] == b && b in s && forall k | 0 <= k < |ops| && k != j :: ops[k] !in s
    requires WantsSlice(b) ==> forall f <- s[b] :: AsSlice(s[b][f]).Some?
    ensures FromSet(s, ops) == Ok([Fields(b, s[b])])
    decreases j
  {
    hide AsSlice, WantsSlice;
    if j == 0 {
      FromNone(s, ops[1..]);
      NothingAdded([Fields(b, s[b])]);
    } else {
      FromLater(s, b, ops[1..], j - 1);
    }
  }

  lemma ScanSingle(e: Entry, rest: seq<Entry>, s: FieldSet, op: Operator, f: string)
    requires Single(e, IGNORED, op, f)
    ensures Scan([e] + rest, IGNORED, s, []) == Scan(rest, IGNORED, Add(s, op, f, e.val), [])
  {
    hide Normalise, IGNORED, Add, Branches;
    TailAfter(e, rest);
  }

  lemma TwoScan(d: Entry, e: Entry, a: Operator, f: string, b: Operator, g: string)
    requires Single(d, IGNORED, a, f) && Single(e, IGNORED, b, g)
    ensures Scan([d, e], IGNORED, map[], []) == Scanned(Add(Add(map[], a, f, d.val), b, g, e.val), [])
  {
    hide *;
    var s := Add(Add(map[], a, f, d.val), b, g, e.val);
    assert [d] + [e] == [d, e];
    NothingAdded([e]);
    ScanSingle(d, [e], map[], a, f);
    ScanSingle(e, [], Add(map[], a, f, d.val), b, g);
    NothingTells(IGNORED, s, [], t => true);
  }

  function TwoFields(a: Operator, f: string, v: Val, b: Operator, g: string, w: Val): FieldSet {
    map[a := map[f := v], b := map[g := w]]
  }

  lemma TwoAdded(a: Operator, f: string, v: Val, b: Operator, g: string, w: Val)
    requires a != b
    ensures Add(Add(map[], a, f, v), b, g, w) == TwoFields(a, f, v, b, g, w)
    ensures Add(Add(map[], b, g, w), a, f, v) == TwoFields(a, f, v, b, g, w)
  {
  }

  lemma TwoFrom(a: Operator, f: string, v: Val, b: Operator, g: string, w: Val)
    requires Position(a) < Position(b) && Sliced(a, Some(v)) && Sliced(b, Some(w))
    ensures FromSet(TwoFields(a, f, v, b, g, w), OP_ORDER) == Ok([Fields(a, map[f := v]), Fields(b, map[g := w])])
  {
    PositionsDiffer(a);
    PositionsDiffer(b);
    hide OP_ORDER, FromSet, AsSlice, WantsSlice, Position;
    FromTwo(TwoFields(a, f, v, b, g, w), a, b, OP_ORDER, Position(a), Position(b));
  }

  lemma TwoConditions(es: seq<Entry>, d: Entry, e: Entry, a: Operator, f: string, b: Operator, g: string)
    requires Single(d, IGNORED, a, f) && Single(e, IGNORED, b, g) && Position(a) < Position(b)
    requires es == [d, e] || es == [e, d]
    ensures GetConditions(es, IGNORED) == Ok([Fields(a, map[f := d.val]), Fields(b, map[g := e.val])])
  {
    TwoScan(d, e, a, f, b, g);
    TwoScan(e, d, b, g, a, f);
    TwoAdded(a, f, d.val, b, g, e.val);
    TwoFrom(a, f, d.val, b, g, e.val);
    hide FromSet, Scan, OP_ORDER, IGNORED, Add, TwoFields, Normalise;
    NothingAdded([Fields(a, map[f := d.val]), Fields(b, map[g := e.val])]);
  }

  lemma TwoPieces(a: Operator, f: string, v: Val, b: Operator, g: string, w: Val)
    requires !PassedOver(a, v) && !PassedOver(b, w)
    ensures AllPieces([Fields(a, map[f := v]), Fields(b, map[g := w])]) == [FieldPiece(a, f, v), FieldPiece(b, g, w)]
  {
    OnePieces(a, f, v);
    OnePieces(b, g, w);
    hide FieldPiece, Pieces;
    var c, d := Fields(a, map[f := v]), Fields(b, map[g := w]);
    assert [c, d][1..] == [d] && [c][1..] == [];
    assert AllPieces([c]) == Pieces(c) + AllPieces([]);
    NothingAdded(Pieces(c));
  }

  lemma TwoGroup(p: Piece, q: Piece)
    ensures Group([p, q], And).text != [] && Group([p, q], And).vals == p.vals + q.vals
    ensures Show(Group([p, q], And).text) == "(" + (Show(p.text) + " AND " + Show(q.text)) + ")"
  {
    GroupStrings([p, q]);
    hide Show;
    assert [p, q][1..] == [q] && [q][1..] == [];
    assert Vals([q]) == q.vals + [] && Texts([q]) == [q.text];
    NothingAdded(q.vals);
    var ss := ShowAll(Texts([p, q]));
    assert ss == [Show(p.text), Show(q.text)] && ss[1..] == [Show(q.text)];
  }

  /** Two conditions under different operators come in the order of the operators, whichever entry the map
      gives first. */
  lemma TwoBuilt(es: seq<Entry>, d: Entry, e: Entry, a: Operator, f: string, b: Operator, g: string)
    requires Single(d, IGNORED, a, f) && Single(e, IGNORED, b, g) && Position(a) < Position(b)
    requires !PassedOver(a, d.val) && !PassedOver(b, e.val) && (es == [d, e] || es == [e, d])
    ensures var (p, q) := (FieldPiece(a, f, d.val), FieldPiece(b, g, e.val));
      Built(es) == Where(" " + ("(" + (Show(p.text) + " AND " + Show(q.text)) + ")"), p.vals + q.vals)
  {
    var p, q := FieldPiece(a, f, d.val), FieldPiece(b, g, e.val);
    TwoConditions(es, d, e, a, f, b, g);
    TwoPieces(a, f, d.val, b, g, e.val);
    TwoGroup(p, q);
    hide GetConditions, FieldPiece, AllPieces, Show, Group, IGNORED;
    assert WhereOf([Fields(a, map[f := d.val]), Fields(b, map[g := e.val])]) == Group([p, q], And);
  }

  lemma TwoCompared(f: string, t: string, v: Val, a: Operator, x: Sym,
      g: string, u: string, w: Val, b: Operator, y: Sym)
    requires PlainField(f) && IsWord(t) && OperatorOf(t) == Some(a) && !v.Null? && Sliced(a, Some(v)) && a != OpNull
    requires PlainField(g) && IsWord(u) && OperatorOf(u) == Some(b) && !w.Null? && Sliced(b, Some(w)) && b != OpNull
    requires Position(a) < Position(b) && FieldPiece(a, f, v) == Piece([Name(f), Op(x), Mark], [v])
    requires FieldPiece(b, g, w) == Piece([Name(g), Op(y), Mark], [w])
    ensures var (d, e) := (Entry(f + " " + t, v), Entry(g + " " + u, w));
      var sql := " " + ("(" + ((f + ShowSym(x) + "?") + " AND " + (g + ShowSym(y) + "?")) + ")");
      Built([d, e]) == Built([e, d]) == Where(sql, [v, w])
  {
    hide *;
    var d, e := Entry(f + " " + t, v), Entry(g + " " + u, w);
    SingleKey(f, t, v, a);
    SingleKey(g, u, w, b);
    NotPassedOver(a, v);
    NotPassedOver(b, w);
    TwoBuilt([d, e], d, e, a, f, b, g);
    TwoBuilt([e, d], d, e, a, f, b, g);
    ShowTwo(f, x, Mark);
    ShowTwo(g, y, Mark);
    MarkShown();
  }

  /** Equality comes before a comparison by size. */
  lemma EqualityFirst(f: string, v: Val, g: string, w: Val)
    requires PlainField(f) && PlainField(g) && !v.Raw? && !v.Null? && !w.Raw? && !w.Null?
    ensures var (d, e) := (Entry(f + " " + "=", v), Entry(g + " " + ">", w));
      var sql := " " + ("(" + ((f + "=" + "?") + " AND " + (g + ">" + "?")) + ")");
      Built([d, e]) == Built([e, d]) == Where(sql, [v, w])
  {
    EqWord();
    GtWord();
    hide Built, PlainField, IsWord, OperatorOf;
    TwoCompared(f, "=", v, OpEq, Equal, g, ">", w, OpGt, Sym.Greater);
  }

  lemma SingleKey(f: string, t: string, v: Val, op: Operator)
    requires PlainField(f) && IsWord(t) && OperatorOf(t) == Some(op) && !v.Null? && Sliced(op, Some(v))
    ensures Single(Entry(f + " " + t, v), IGNORED, op, f)
  {
    KeyIsField(f, t, v, op);
    hide Normalise, IGNORED;
  }

  lemma NotPassedOver(op: Operator, v: Val)
    ensures op != OpNull ==> !PassedOver(op, v)
  {
  }

  /** A key without an operator word means equality, or IN for a list. */
  lemma BareKey(f: string, v: Val)
    requires PlainField(f) && f !in IGNORED && !v.Raw? && !v.Null? && !v.Maps?
    ensures !v.Slice? ==> Built([Entry(f, v)]) == Where(" (" + (f + "=" + "?") + ")", [v])
    ensures v.Slice? ==>
      Built([Entry(f, v)]) == Where(" (" + (f + " IN " + "(" + MarkString(|v.vs|) + ")") + ")", v.vs)
  {
    BareKeyIs(f, v);
    if v.Slice? {
      OneEntryBuilt(Entry(f, v), OpIn, f);
      InIs(f, v.vs);
      ListIs(f, In, v.vs);
      ShowList(f, In, v.vs);
    } else {
      OneEntryBuilt(Entry(f, v), OpEq, f);
      assert FieldPiece(OpEq, f, v) == Piece([Name(f), Op(Equal), Mark], [v]);
      ShowTwo(f, Equal, Mark);
      MarkShown();
    }
    hide Built, Single, ListPiece, Show, MarkString, PlainField, IGNORED;
  }

  lemma BareKeyIs(f: string, v: Val)
    requires PlainField(f) && f !in IGNORED && !v.Null? && !v.Maps?
    ensures Single(Entry(f, v), IGNORED, if v.Slice? then OpIn else OpEq, f)
  {
    assert f[0] in f && f[|f| - 1] in f;
    NothingTrimmed(f);
    NoSpaceFound(f, 0);
    InWord();
    EqWord();
    hide TrimSpaces, SpaceAt, RemoveInnerSpace, IGNORED;
  }

  /** Operator words are read without regard to case. */
  lemma CapitalWord()
    ensures ToLower("NOT LIKE") == "not like"
  {
    LowerAppend("NOT ", "LIKE");
    assert "NOT " + "LIKE" == "NOT LIKE" && "not " + "like" == "not like";
    FirstLower();
    SecondLower();
  }

  lemma {:induction false} LowerAppend(a: string, b: string)
    ensures ToLower(a + b) == ToLower(a) + ToLower(b)
  {
    if a == "" {
      NothingAdded(b);
      NothingAdded(ToLower(b));
    } else {
      TailOfSum(a, b);
      LowerAppend(a[1..], b);
    }
  }

  lemma FirstLower()
    ensures ToLower("NOT ") == "not "
  {
    assert "NOT "[1..] == "OT " && "OT "[1..] == "T " && "T "[1..] == " " && " "[1..] == "";
    assert ToLower(" ") == " ";
    assert ToLower("T ") == "t ";
    assert ToLower("OT ") == "ot ";
  }

  lemma SecondLower()
    ensures ToLower("LIKE") == "like"
  {
    assert "LIKE"[1..] == "IKE" && "IKE"[1..] == "KE" && "KE"[1..] == "E" && "E"[1..] == "";
    assert ToLower("E") == "e";
    assert ToLower("KE") == "ke";
    assert ToLower("IKE") == "ike";
  }

  // ----- keys without a condition, and refusals

  lemma NothingBuilt(e: Entry)
    requires e.key in IGNORED
    ensures Built([e]) == Where("", [])
  {
    assert [e][1..] == [];
    assert Scan([], IGNORED, map[], []) == Scanned(map[], []);
    assert Scan([e], IGNORED, map[], []) == Scanned(map[], []);
    FromNone(map[], OP_ORDER);
    hide OP_ORDER, FromSet, Scan, IGNORED;
    NothingAdded<Comparable>([]);
  }

  /** The keys of other clauses add nothing. */
  lemma OtherClauses(key: string, v: Val)
    requires key in {"_orderby", "_groupby", "_having", "_limit", "_lockMode"}
    ensures Built([Entry(key, v)]) == Where("", [])
  {
    NothingBuilt(Entry(key, v));
  }

  lemma Refusal(e: Entry, x: Error)
    requires e.key !in IGNORED && !IsOr(e) && Normalise(e.key, e.val) == Bad(x)
    ensures Built([e]) == Refused(x)
  {
    hide Normalise, IGNORED, OP_ORDER;
    assert Scan([e], IGNORED, map[], []) == Failed(x);
  }

  lemma {:induction false} AllTrimmed(s: string)
    requires forall c <- s :: c == ' '
    ensures TrimSpaces(s) == ""
  {
    if s != "" {
      assert s[0] in s && forall c <- s[1..] :: c in s;
      AllTrimmed(s[1..]);
    }
  }

  /** A key of nothing but spaces is refused. */
  lemma EmptyKeyRefused(key: string, v: Val)
    requires forall c <- key :: c == ' '
    ensures Built([Entry(key, v)]) == Refused(EmptyKey)
  {
    AllTrimmed(key);
    assert key != "" ==> key[0] in key;
    assert '_' !in key;
    assert key !in IGNORED by {
      assert "_orderby"[0] == '_' && "_groupby"[0] == '_' && "_having"[0] == '_';
      assert "_limit"[0] == '_' && "_lockMode"[0] == '_';
    }
    assert !IsOr(Entry(key, v));
    hide IGNORED, TrimSpaces, Built;
    Refusal(Entry(key, v), EmptyKey);
  }

  /** So is an operator word that is none of the fifteen ... */
  lemma UnknownWordRefused(f: string, t: string, v: Val)
    requires PlainField(f) && IsWord(t)
    requires t !in {"=", "!=", "<>", "in", "not in", ">", ">=", "<", "<=", "like", "like2", "not like", "between",
                    "not between", "null"}
    ensures Built([Entry(f + " " + t, v)]) == Refused(UnsupportedOperator)
  {
    KeySplits(f, t, v);
    var k := f + " " + t;
    assert k[|f|] == ' ' && ' ' in k;
    NotIgnored(k);
    if "_or" <= k {
      OrIsField(f, t);
    }
    assert OperatorOf(t) == None;
    hide SplitKey, OperatorOf, ToLower, IGNORED, Built;
    Refusal(Entry(k, v), UnsupportedOperator);
  }

  /** ... an alternative that is no list of maps ... */
  lemma OrValueRefused(key: string, v: Val)
    requires "_or" <= key && !v.Maps?
    requires key !in {"_orderby", "_groupby", "_having", "_limit", "_lockMode"}
    ensures Built([Entry(key, v)]) == Refused(OrValueType)
  {
    hide Normalise, OP_ORDER;
    assert Scan([Entry(key, v)], IGNORED, map[], []) == Failed(OrValueType);
  }

  lemma {:induction false} FromRefused(op: Operator, m: map<string, Val>, ops: seq<Operator>, i: nat)
    requires i < |ops| && ops[i] == op && forall j | 0 <= j < i :: ops[j] != op
    requires WantsSlice(op) && exists f <- m :: AsSlice(m[f]).None?
    ensures FromSet(map[op := m], ops) == Conditions.Err(NotASlice)
    decreases i
  {
    hide AsSlice, WantsSlice;
    if i > 0 {
      assert ops[0] != op;
      FromRefused(op, m, ops[1..], i - 1);
    }
  }

  lemma FieldScans(e: Entry, op: Operator, f: string)
    requires e.key !in IGNORED && !IsOr(e) && Normalise(e.key, e.val) == Normal(op, f)
    ensures Scan([e], IGNORED, map[], []) == Scanned(map[op := map[f := e.val]], [])
  {
    hide Normalise, IGNORED;
    assert [e][1..] == [];
    assert Scan([], IGNORED, map[op := map[f := e.val]], []) == Scanned(map[op := map[f := e.val]], []);
  }

  lemma SetRefused(op: Operator, f: string, v: Val)
    requires WantsSlice(op) && !v.Slice? && !v.Maps?
    ensures FromSet(map[op := map[f := v]], OP_ORDER) == Conditions.Err(NotASlice)
  {
    var m := map[f := v];
    assert f in m && AsSlice(v).None?;
    PositionsDiffer(op);
    hide FromSet, WantsSlice, AsSlice, OP_ORDER;
    FromRefused(op, m, OP_ORDER, Position(op));
  }

  lemma NoSliceRefused(f: string, t: string, v: Val, op: Operator)
    requires PlainField(f) && IsWord(t) && OperatorOf(t) == Some(op) && WantsSlice(op)
    requires !v.Slice? && !v.Maps? && !v.Null?
    ensures Built([Entry(f + " " + t, v)]) == Refused(NotASlice)
  {
    hide Scan, FromSet, Normalise, IsOr, IGNORED, OP_ORDER, IsWord, PlainField, OperatorOf, WantsSlice;
    KeyIsField(f, t, v, op);
    FieldScans(Entry(f + " " + t, v), op, f);
    SetRefused(op, f, v);
  }

  /** ... and a list operator with something that is no list. */
  lemma ListWordRefused(f: string, t: string, v: Val)
    requires PlainField(f) && t in {"in", "not in", "between", "not between"} && !v.Slice? && !v.Maps? && !v.Null?
    ensures Built([Entry(f + " " + t, v)]) == Refused(NotASlice)
  {
    hide Built, IsWord, PlainField, OperatorOf;
    if t == "in" {
      InWord();
      NoSliceRefused(f, t, v, OpIn);
    } else if t == "not in" {
      NotInWord();
      NoSliceRefused(f, t, v, OpNotIn);
    } else if t == "between" {
      BetweenWord();
      NoSliceRefused(f, t, v, OpBetween);
    } else {
      NotBetweenWord();
      NoSliceRefused(f, t, v, OpNotBetween);
    }
  }

  // ----- loose spacing

  predicate AllSpaces(s: string) { forall c <- s :: c == ' ' }

  lemma SpacesRest(s: string)
    requires s != "" && AllSpaces(s)
    ensures s == " " + s[1..] && AllSpaces(s[1..])
    ensures s[0] == ' ' && s[|s| - 1] == ' ' && AllSpaces(s[..|s| - 1])
  {
    FirstAndRest(s);
    var init := s[..|s| - 1];
    assert s[0] in s && s[|s| - 1] in s;
    assert forall c <- s[1..] :: c in s;
    forall c <- init
      ensures c == ' '
    {
      assert c in s;
    }
  }

  lemma {:induction false} TrimLead(a: string, k: string)
    requires AllSpaces(a)
    ensures TrimSpaces(a + k) == TrimSpaces(k)
    decreases |a|
  {
    if a == "" {
      NothingAdded(k);
    } else {
      SpacesRest(a);
      TailOfSum(a, k);
      TrimLead(a[1..], k);
    }
  }

  lemma {:induction false} TrimTail(k: string, b: string)
    requires AllSpaces(b) && k != "" && k[0] != ' ' && k[|k| - 1] != ' '
    ensures TrimSpaces(k + b) == k
    decreases |b|
  {
    if b == "" {
      NothingAdded(k);
      NothingTrimmed(k);
    } else {
      SpacesRest(b);
      var s := k + b;
      assert s[0] == k[0] && s[|s| - 1] == ' ' && s[..|s| - 1] == k + b[..|b| - 1];
      TrimTail(k, b[..|b| - 1]);
    }
  }

  lemma {:induction false} RunIs(s: string, i: nat, j: nat)
    requires i <= j < |s| && (forall k | i <= k <= j :: s[k] == ' ') && (j + 1 < |s| ==> s[j + 1] != ' ')
    ensures LastOfRun(s, i) == j
    decreases j - i
  {
    if i < j {
      RunIs(s, i + 1, j);
    }
  }

  lemma InnerSpace(x: string, c: string, y: string)
    requires ' ' !in x && ' ' !in y && y != "" && c != "" && AllSpaces(c)
    ensures RemoveInnerSpace(x + c + y) == x + " " + y
  {
    var s := x + c + y;
    SpacesRest(c);
    assert s == x + " " + (c[1..] + y);
    SpaceFound(x, c[1..] + y, 0);
    var j := |x| + |c| - 1;
    forall k | |x| <= k <= j
      ensures s[k] == ' '
    {
      assert s[k] == c[k - |x|] && c[k - |x|] in c;
    }
    assert s[j + 1] == y[0] && y[0] in y;
    RunIs(s, |x|, j);
    assert s[..|x|] == x && s[j..] == " " + y;
    assert x + (" " + y) == x + " " + y;
    hide LastOfRun, SpaceAt;
  }

  lemma Ends(a: string, b: string, c: string)
    requires a != "" && c != ""
    ensures var s := a + b + c; s != "" && s[0] == a[0] && s[|s| - 1] == c[|c| - 1]
  {
  }

  /** No space at either end. */
  predicate Tight(s: string) { s != "" && s[0] != ' ' && s[|s| - 1] != ' ' }

  lemma NoSpaceIsTight(s: string)
    requires s != "" && ' ' !in s
    ensures Tight(s)
  {
    assert s[0] in s && s[|s| - 1] in s;
  }

  lemma AfterSpace(f: string, rest: string)
    ensures var k := f + " " + rest; |f| < |k| && k[..|f|] == f && k[|f| + 1..] == rest
  {
  }

  lemma TightSplits(f: string, rest: string, op: string, v: Val)
    requires f != "" && ' ' !in f && Tight(f + " " + rest) && TrimSpaces(rest) == op
    ensures SplitKey(f + " " + rest, v) == Some((f, RemoveInnerSpace(op)))
  {
    var k := f + " " + rest;
    NothingTrimmed(k);
    SpaceFound(f, rest, 0);
    AfterSpace(f, rest);
    hide TrimSpaces, SpaceAt, RemoveInnerSpace;
  }

  lemma PaddedSplits(a: string, k: string, d: string, v: Val)
    requires AllSpaces(a) && AllSpaces(d) && Tight(k)
    ensures SplitKey(a + (k + d), v) == SplitKey(k, v)
  {
    TrimLead(a, k + d);
    TrimTail(k, d);
    NothingTrimmed(k);
    hide TrimSpaces, SpaceAt, RemoveInnerSpace;
  }

  /** A field, some spaces, and an operator of two words with some spaces between them. */
  function Spaced(f: string, b: string, x: string, c: string, y: string): string { f + b + (x + c + y) }

  lemma SpacedIs(f: string, b: string, x: string, c: string, y: string)
    requires b != "" && AllSpaces(b) && f != "" && ' ' !in f && x != "" && y != "" && ' ' !in x && ' ' !in y
    ensures Spaced(f, b, x, c, y) == f + " " + (b[1..] + (x + c + y))
    ensures Tight(Spaced(f, b, x, c, y)) && Tight(x + c + y)
  {
    SpacesRest(b);
    NoSpaceIsTight(f);
    NoSpaceIsTight(x);
    NoSpaceIsTight(y);
    Ends(x, c, y);
    Ends(f, b, x + c + y);
    hide AllSpaces;
    Assoc(f, " ", b[1..]);
    Assoc(f + " ", b[1..], x + c + y);
  }

  lemma SpacedSplits(f: string, b: string, x: string, c: string, y: string, v: Val)
    requires AllSpaces(b) && AllSpaces(c) && b != "" && c != "" && f != "" && ' ' !in f
    requires x != "" && ' ' !in x && y != "" && ' ' !in y
    ensures SplitKey(Spaced(f, b, x, c, y), v) == Some((f, x + " " + y))
  {
    hide *;
    SpacedIs(f, b, x, c, y);
    SpacesRest(b);
    var op := x + c + y;
    TrimLead(b[1..], op);
    TightIsTrimmed(op);
    InnerSpace(x, c, y);
    TightSplits(f, b[1..] + op, op, v);
  }

  lemma TightIsTrimmed(s: string)
    requires Tight(s)
    ensures TrimSpaces(s) == s
  {
    NothingTrimmed(s);
    hide TrimSpaces;
  }

  lemma SameKeyBuilt(d: Entry, e: Entry)
    requires d.key !in IGNORED && e.key !in IGNORED && !IsOr(d) && !IsOr(e) && d.val == e.val
    requires SplitKey(d.key, d.val) == SplitKey(e.key, e.val)
    ensures Built([d]) == Built([e])
  {
    assert Scan([d], IGNORED, map[], []) == Scan([e], IGNORED, map[], []) by {
      assert [d][1..] == [] && [e][1..] == [];
      hide SplitKey, IGNORED, OperatorOf, ToLower, Add;
      assert Normalise(d.key, d.val) == Normalise(e.key, e.val);
    }
    hide Scan, IGNORED, OP_ORDER, FromSet, SplitKey;
  }

  lemma PlainKey(k: string, f: string, rest: string)
    requires PlainField(f) && k == f + " " + rest
    ensures k !in IGNORED && !("_or" <= k)
  {
    assert k[|f|] == ' ' && ' ' in k;
    NotIgnored(k);
    if "_or" <= k {
      OrIsField(f, rest);
    }
    hide IGNORED;
  }

  lemma PaddedKey(a: string, k: string, d: string, f: string, rest: string)
    requires AllSpaces(a) && PlainField(f) && k == f + " " + rest
    ensures a + (k + d) !in IGNORED && !("_or" <= a + (k + d))
  {
    hide IGNORED;
    if a == "" {
      NothingAdded(k + d);
      Assoc(f + " ", rest, d);
      PlainKey(k + d, f, rest + d);
    } else {
      SpacesRest(a);
      TailOfSum(a, k + d);
      assert (a + (k + d))[0] in a + (k + d);
      NotIgnored(a + (k + d));
    }
  }

  /** A key may have spaces around it, between field and operator, and between the words of the operator: the SQL
      is the same. */
  lemma LooseKey(a: string, f: string, b: string, x: string, c: string, y: string, d: string, v: Val)
    requires AllSpaces(a) && AllSpaces(b) && AllSpaces(c) && AllSpaces(d) && b != "" && c != ""
    requires PlainField(f) && x != "" && ' ' !in x && y != "" && ' ' !in y
    ensures Built([Entry(a + (Spaced(f, b, x, c, y) + d), v)]) == Built([Entry(Spaced(f, " ", x, " ", y), v)])
  {
    hide IGNORED, Built, SplitKey, Spaced, Tight;
    var key, plain := Spaced(f, b, x, c, y), Spaced(f, " ", x, " ", y);
    SpacedIs(f, b, x, c, y);
    SpacedIs(f, " ", x, " ", y);
    SpacedSplits(f, b, x, c, y, v);
    SpacedSplits(f, " ", x, " ", y, v);
    PaddedSplits(a, key, d, v);
    PaddedKey(a, key, d, f, b[1..] + (x + c + y));
    PlainKey(plain, f, " "[1..] + (x + " " + y));
    SameKeyBuilt(Entry(a + (key + d), v), Entry(plain, v));
  }
}
