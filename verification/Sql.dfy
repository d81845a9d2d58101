/** Where-conditions as lexemes and bound values, and how a database reads them: an operand is a
    test on a field or a parenthesised list of operands with one connector; every placeholder takes
    the next bound value. This reading is the reference that the builder is proved against. */
module Sql {
  import opened Common

  /** The values of a where-map. Percent(v) is a value formatted between two percent signs. */
  datatype Val =
    | Num(n: int)
    | Str(s: string)
    | Raw(sql: string)
    | Null(isNull: bool)
    | Slice(vs: seq<Val>)
    | Maps(ms: seq<Branch>)
    | OneMap(m: Branch)
    | Percent(v: Val)

  datatype Branch = NilMap | Branch(entries: seq<Entry>)

  datatype Entry = Entry(key: string, val: Val)

  datatype Sym = Equal | NotEqual | Less | LessEq | Greater | GreaterEq | Like | NotLike
    | In | NotIn | Between | NotBetween | IsNull | IsNotNull

  datatype Lex = Name(f: string) | Op(sym: Sym) | RawSql(sql: string) | Mark | Open | Close | Comma | And | Or

  type Text = seq<Lex>

  function ShowSym(sym: Sym): string {
    match sym
    case Equal => "="
    case NotEqual => "!="
    case Less => "<"
    case LessEq => "<="
    case Greater => ">"
    case GreaterEq => ">="
    case Like => " LIKE "
    case NotLike => " NOT LIKE "
    case In => " IN "
    case NotIn => " NOT IN "
    case Between => " BETWEEN "
    case NotBetween => " NOT BETWEEN "
    case IsNull => " IS NULL"
    case IsNotNull => " IS NOT NULL"
  }

  function ShowLex(l: Lex): string {
    match l
    case Name(f) => f
    case Op(sym) => ShowSym(sym)
    case RawSql(sql) => sql
    case Mark => "?"
    case Open => "("
    case Close => ")"
    case Comma => ","
    case And => " AND "
    case Or => " OR "
  }

  /** The SQL string. */
  function Show(t: Text): string {
    if t == [] then "" else ShowLex(t[0]) + Show(t[1..])
  }

  /** A test of one field of a row. */
  datatype Test = Test(field: string, sym: Sym, operands: seq<Val>)

  /** A row decides every test. */
  type Row = Test -> bool

  datatype Reading = Reading(truth: bool, rest: Text, left: seq<Val>)

  datatype Marks = Marks(operands: seq<Val>, rest: Text, left: seq<Val>)

  /** Placeholders separated by commas, then a closing parenthesis. */
  function ReadMarks(t: Text, vs: seq<Val>): (r: Option<Marks>)
    ensures r.Some? ==> |r.value.rest| < |t|
    decreases |t|
  {
    if |t| < 2 || t[0] != Mark || vs == [] then None
    else if t[1] == Close then Some(Marks([vs[0]], t[2..], vs[1..]))
    else if t[1] == Comma then
      match ReadMarks(t[2..], vs[1..])
      case None => None
      case Some(m) => Some(Marks([vs[0]] + m.operands, m.rest, m.left))
    else None
  }

  /** What follows the name of a field. */
  function ReadTest(f: string, t: Text, vs: seq<Val>, row: Row): (r: Option<Reading>)
    ensures r.Some? ==> |r.value.rest| < |t|
  {
    if t == [] || !t[0].Op? then None
    else
      var sym := t[0].sym;
      if sym.IsNull? || sym.IsNotNull? then Some(Reading(row(Test(f, sym, [])), t[1..], vs))
      else if sym.Between? || sym.NotBetween? || |t| < 2 then None
      else if sym.In? || sym.NotIn? then
        if t[1] != Open then None
        else
          match ReadMarks(t[2..], vs)
          case None => None
          case Some(m) => Some(Reading(row(Test(f, sym, m.operands)), m.rest, m.left))
      else if t[1].RawSql? then Some(Reading(row(Test(f, sym, [Raw(t[1].sql)])), t[2..], vs))
      else if t[1] == Mark && vs != [] then Some(Reading(row(Test(f, sym, [vs[0]])), t[2..], vs[1..]))
      else None
  }

  predicate StartsBetween(t: Text) {
    |t| >= 3 && t[0] == Open && t[1].Name? && t[2].Op? && (t[2].sym.Between? || t[2].sym.NotBetween?)
  }

  function ReadBetween(t: Text, vs: seq<Val>, row: Row): (r: Option<Reading>)
    requires StartsBetween(t)
    ensures r.Some? ==> |r.value.rest| < |t|
  {
    if |t| >= 7 && t[3..7] == [Mark, And, Mark, Close] && |vs| >= 2
    then Some(Reading(row(Test(t[1].f, t[2].sym, vs[..2])), t[7..], vs[2..]))
    else None
  }

  function ReadOperand(t: Text, vs: seq<Val>, row: Row): (r: Option<Reading>)
    ensures r.Some? ==> |r.value.rest| < |t|
    decreases |t|, 0
  {
    if t == [] then None
    else if t[0].Name? then ReadTest(t[0].f, t[1..], vs, row)
    else if StartsBetween(t) then ReadBetween(t, vs, row)
    else if t[0] == Open then ReadList(t[1..], vs, None, row)
    else None
  }

  function Connect(c: Lex, a: bool, b: bool): bool { if c == And then a && b else a || b }

  /** Operands up to the closing parenthesis, all connected the same way. */
  function ReadList(t: Text, vs: seq<Val>, conn: Option<Lex>, row: Row): (r: Option<Reading>)
    ensures r.Some? ==> |r.value.rest| < |t|
    decreases |t|, 1
  {
    match ReadOperand(t, vs, row)
    case None => None
    case Some(first) =>
      if first.rest == [] then None
      else
        var c := first.rest[0];
        if c == Close then Some(first.(rest := first.rest[1..]))
        else if (c == And || c == Or) && (conn.None? || conn.value == c) then
          match ReadList(first.rest[1..], first.left, Some(c), row)
          case None => None
          case Some(more) => Some(more.(truth := Connect(c, first.truth, more.truth)))
        else None
  }

  // ----- joining

  function JoinLex(ts: seq<Text>, c: Lex): Text {
    if ts == [] then [] else if |ts| == 1 then ts[0] else ts[0] + [c] + JoinLex(ts[1..], c)
  }

  /** A condition with the values its placeholders take. */
  datatype Piece = Piece(text: Text, vals: seq<Val>)

  function Texts(ps: seq<Piece>): (r: seq<Text>)
    ensures |r| == |ps|
  {
    if ps == [] then [] else [ps[0].text] + Texts(ps[1..])
  }

  function Vals(ps: seq<Piece>): seq<Val> {
    if ps == [] then [] else ps[0].vals + Vals(ps[1..])
  }

  /** The truth of connected operands; None when one of them cannot be read. */
  function Fold(c: Lex, os: seq<Option<bool>>): Option<bool> {
    if os == [] then None
    else if |os| == 1 then os[0]
    else
      var more := Fold(c, os[1..]);
      if os[0].Some? && more.Some? then Some(Connect(c, os[0].value, more.value)) else None
  }

  /** Whatever follows it, the piece is read as an operand with truth b. */
  ghost predicate Means(p: Piece, b: bool, row: Row) {
    forall rest: Text, left: seq<Val> ::
      ReadOperand(p.text + rest, p.vals + left, row) == Some(Reading(b, rest, left))
  }

  /** What may follow an operand. */
  predicate Ends(rest: Text) { rest == [] || rest[0] in [And, Or, Close] }

  /** Not the start of a BETWEEN. */
  predicate Plain(t: Text) { |t| >= 2 && t[0].Name? && t[1].Op? ==> !t[1].sym.Between? && !t[1].sym.NotBetween? }

  /** Wherever it stands as an operand, the piece is not read. */
  ghost predicate Fails(p: Piece, row: Row) {
    Plain(p.text) &&
    forall rest: Text, left: seq<Val> | Ends(rest) :: ReadOperand(p.text + rest, p.vals + left, row) == None
  }

  ghost predicate Reads(p: Piece, o: Option<bool>, row: Row) {
    match o
    case Some(b) => Means(p, b, row)
    case None => Fails(p, row)
  }

  ghost predicate AllRead(ps: seq<Piece>, os: seq<Option<bool>>, row: Row) {
    |ps| == |os| && (ps != [] ==> Reads(ps[0], os[0], row) && AllRead(ps[1..], os[1..], row))
  }

  lemma {:induction false} AllReadAppend(a: seq<Piece>, x: seq<Option<bool>>, b: seq<Piece>, y: seq<Option<bool>>,
      row: Row)
    requires AllRead(a, x, row) && AllRead(b, y, row)
    ensures AllRead(a + b, x + y, row)
  {
    hide Reads;
    if a == [] {
      assert a + b == b && x + y == y;
    } else {
      assert (a + b)[1..] == a[1..] + b && (x + y)[1..] == x[1..] + y;
      AllReadAppend(a[1..], x[1..], b, y, row);
    }
  }

  function AsReading(o: Option<bool>, rest: Text, left: seq<Val>): Option<Reading> {
    match o
    case Some(b) => Some(Reading(b, rest, left))
    case None => None
  }

  lemma ListTurn(first: Text, more: Text, firstVals: seq<Val>, moreVals: seq<Val>, c: Lex, conn: Option<Lex>,
      b: bool, row: Row)
    requires Means(Piece(first, firstVals), b, row)
    requires (c == And || c == Or) && (conn.None? || conn.value == c)
    ensures ReadList(first + ([c] + more), firstVals + moreVals, conn, row) ==
      match ReadList(more, moreVals, Some(c), row)
      case None => None
      case Some(r) => Some(r.(truth := Connect(c, b, r.truth)))
  {
    assert ReadOperand(first + ([c] + more), firstVals + moreVals, row) == Some(Reading(b, [c] + more, moreVals));
    assert ([c] + more)[1..] == more;
  }

  lemma ListEnd(last: Text, vals: seq<Val>, rest: Text, left: seq<Val>, conn: Option<Lex>, b: bool, row: Row)
    requires Means(Piece(last, vals), b, row)
    ensures ReadList(last + ([Close] + rest), vals + left, conn, row) == Some(Reading(b, rest, left))
  {
    assert ReadOperand(last + ([Close] + rest), vals + left, row) == Some(Reading(b, [Close] + rest, left));
    assert ([Close] + rest)[1..] == rest;
  }

  lemma ListFails(first: Text, vals: seq<Val>, rest: Text, left: seq<Val>, conn: Option<Lex>, row: Row)
    requires Fails(Piece(first, vals), row) && Ends(rest)
    ensures ReadList(first + rest, vals + left, conn, row) == None
  {
    assert ReadOperand(first + rest, vals + left, row) == None;
  }

  lemma {:induction false} ListReads(ps: seq<Piece>, os: seq<Option<bool>>, c: Lex, conn: Option<Lex>, rest: Text,
      left: seq<Val>, row: Row)
    requires ps != [] && AllRead(ps, os, row)
    requires (c == And || c == Or) && (conn.None? || conn.value == c)
    ensures ReadList(JoinLex(Texts(ps), c) + ([Close] + rest), Vals(ps) + left, conn, row)
      == AsReading(Fold(c, os), rest, left)
    decreases |ps|
  {
    hide Means, Fails, ReadList;
    var p := ps[0];
    assert p == Piece(p.text, p.vals);
    if |ps| == 1 {
      assert Vals(ps) == p.vals + [] == p.vals;
      assert JoinLex(Texts(ps), c) == p.text;
      if os[0].Some? {
        ListEnd(p.text, p.vals, rest, left, conn, os[0].value, row);
      } else {
        ListFails(p.text, p.vals, [Close] + rest, left, conn, row);
      }
    } else {
      var joined := JoinLex(Texts(ps[1..]), c);
      var more := joined + ([Close] + rest);
      var moreVals := Vals(ps[1..]) + left;
      ListReads(ps[1..], os[1..], c, Some(c), rest, left, row);
      if os[0].Some? {
        ListTurn(p.text, more, p.vals, moreVals, c, conn, os[0].value, row);
      } else {
        ListFails(p.text, p.vals, [c] + more, moreVals, conn, row);
      }
      Assoc(p.vals, Vals(ps[1..]), left);
      assert Texts(ps)[1..] == Texts(ps[1..]);
      JoinedThenRest(p.text, c, joined, [Close] + rest);
    }
  }

  lemma JoinedThenRest(first: Text, c: Lex, joined: Text, rest: Text)
    ensures (first + [c] + joined) + rest == first + ([c] + (joined + rest))
  {
  }

  /** whereConnector's output: pieces in parentheses, with one connector. */
  function Group(ps: seq<Piece>, c: Lex): Piece {
    if ps == [] then Piece([], []) else Piece([Open] + JoinLex(Texts(ps), c) + [Close], Vals(ps))
  }

  lemma MeaningIsPlain(p: Piece, b: bool, row: Row)
    requires Means(p, b, row)
    ensures p.text != [] && Plain(p.text) && (|p.text| == 1 ==> !p.text[0].Name?)
  {
    assert p.text + [] == p.text && p.vals + [] == p.vals;
    assert ReadOperand(p.text + [], p.vals + [], row) == Some(Reading(b, [], []));
  }

  lemma OpenReads(t: Text, vs: seq<Val>, row: Row)
    requires t != [] && t[0] == Open && !StartsBetween(t)
    ensures ReadOperand(t, vs, row) == ReadList(t[1..], vs, None, row)
  {
  }

  lemma GroupOpens(ps: seq<Piece>, c: Lex, rest: Text)
    requires ps != [] && Plain(ps[0].text) && (c == And || c == Or)
    ensures var whole := Group(ps, c).text + rest;
      && whole != [] && whole[0] == Open && !StartsBetween(whole)
      && whole[1..] == JoinLex(Texts(ps), c) + ([Close] + rest)
      && Group(ps, c).vals == Vals(ps)
  {
    var first := ps[0].text;
    var inner := JoinLex(Texts(ps), c);
    assert first <= inner;
    var whole := [Open] + inner + [Close] + rest;
    assert whole == [Open] + (inner + ([Close] + rest));
  }

  /** A group of pieces is read as their connection, and is not read when one of them is not, or when
      there is none. */
  lemma GroupReads(ps: seq<Piece>, os: seq<Option<bool>>, c: Lex, row: Row)
    requires AllRead(ps, os, row) && (c == And || c == Or)
    ensures Reads(Group(ps, c), Fold(c, os), row)
  {
    if ps == [] {
      assert Group(ps, c).text == [];
      return;
    }
    if os[0].Some? {
      MeaningIsPlain(ps[0], os[0].value, row);
    }
    assert Plain(ps[0].text);
    var g := Group(ps, c);
    assert Plain(g.text);
    hide *;
    forall rest: Text, left: seq<Val>
      ensures ReadOperand(g.text + rest, g.vals + left, row) == AsReading(Fold(c, os), rest, left)
    {
      ListReads(ps, os, c, None, rest, left, row);
      GroupOpens(ps, c, rest);
      OpenReads(g.text + rest, g.vals + left, row);
    }
    ByDefinition(g, Fold(c, os), row);
  }

  lemma ByDefinition(p: Piece, o: Option<bool>, row: Row)
    requires Plain(p.text)
    requires forall rest: Text, left: seq<Val> ::
      ReadOperand(p.text + rest, p.vals + left, row) == AsReading(o, rest, left)
    ensures Reads(p, o, row)
  {
    hide ReadOperand, Plain;
  }
}
