/** The Build methods and whereConnector of pkg/xsql/builder/dao.go: conditions to text and values. */
module SqlBuild {
  import opened Common
  import opened StringOrder
  import opened Sql

  datatype Operator = OpEq | OpIn | OpNe1 | OpNe2 | OpNotIn | OpGt | OpGte | OpLt | OpLte
    | OpLike | OpLikePercent | OpNotLike | OpBetween | OpNotBetween | OpNull

  datatype Comparable =
    | Fields(op: Operator, m: map<string, Val>)
    | NestWhere(cs: seq<Comparable>)
    | OrWhere(cs: seq<Comparable>)

  /** convertInterfaceToMap: the elements of a slice. */
  function AsSlice(v: Val): Option<seq<Val>> {
    match v
    case Slice(vs) => Some(vs)
    case Maps(ms) => Some(seq(|ms|, i requires 0 <= i < |ms| => OneMap(ms[i])))
    case _ => None
  }

  function Elements(v: Val): seq<Val> {
    match AsSlice(v)
    case Some(vs) => vs
    case None => []
  }

  // ----- what a condition means

  /** The test that an operator, a field and a value stand for. */
  function TestOf(op: Operator, f: string, v: Val): Test {
    match op
    case OpEq => Test(f, Equal, [v])
    case OpNe1 => Test(f, NotEqual, [v])
    case OpNe2 => Test(f, NotEqual, [v])
    case OpGt => Test(f, Sym.Greater, [v])
    case OpGte => Test(f, GreaterEq, [v])
    case OpLt => Test(f, Sym.Less, [v])
    case OpLte => Test(f, LessEq, [v])
    case OpLike => Test(f, Like, [v])
    case OpLikePercent => Test(f, Like, [Percent(v)])
    case OpNotLike => Test(f, NotLike, [v])
    case OpIn => Test(f, In, Elements(v))
    case OpNotIn => Test(f, NotIn, Elements(v))
    case OpBetween => Test(f, Between, Elements(v))
    case OpNotBetween => Test(f, NotBetween, Elements(v))
    case OpNull => Test(f, if v == Null(true) then IsNull else IsNotNull, [])
  }

  /** What the operator asks of its value for the condition to come out as SQL. */
  predicate Usable(op: Operator, v: Val) {
    match op
    case OpIn => Elements(v) != []
    case OpNotIn => Elements(v) != []
    case OpBetween => |Elements(v)| == 2
    case OpNotBetween => |Elements(v)| == 2
    case _ => true
  }

  /** The operator null only takes a NullType; anything else is passed over. */
  predicate PassedOver(op: Operator, v: Val) { op == OpNull && !v.Null? }

  // ----- what is built

  /** "?,?,?" for n values. */
  function MarkList(n: nat): Text {
    if n == 0 then [] else if n == 1 then [Mark] else [Mark, Comma] + MarkList(n - 1)
  }

  /** One field of a comparison built by build: raw SQL goes into the text. */
  function ComparePiece(f: string, sym: Sym, v: Val): Piece {
    if v.Raw? then Piece([Name(f), Op(sym), RawSql(v.sql)], []) else Piece([Name(f), Op(sym), Mark], [v])
  }

  function ListPiece(f: string, sym: Sym, vs: seq<Val>): Piece {
    Piece([Name(f), Op(sym), Open] + MarkList(|vs|) + [Close], vs)
  }

  /** Other than two values leave the bare name of the field, and no values. */
  function BetweenPiece(f: string, sym: Sym, vs: seq<Val>): Piece {
    if |vs| != 2 then Piece([Name(f)], []) else Piece([Open, Name(f), Op(sym), Mark, And, Mark, Close], vs)
  }

  function FieldPiece(op: Operator, f: string, v: Val): Piece {
    match op
    case OpEq => ComparePiece(f, Equal, v)
    case OpNe1 => ComparePiece(f, NotEqual, v)
    case OpNe2 => ComparePiece(f, NotEqual, v)
    case OpGt => ComparePiece(f, Sym.Greater, v)
    case OpGte => ComparePiece(f, GreaterEq, v)
    case OpLt => ComparePiece(f, Sym.Less, v)
    case OpLte => ComparePiece(f, LessEq, v)
    case OpLike => Piece([Name(f), Op(Like), Mark], [v])
    case OpLikePercent => Piece([Name(f), Op(Like), Mark], [Percent(v)])
    case OpNotLike => Piece([Name(f), Op(NotLike), Mark], [v])
    case OpIn => ListPiece(f, In, Elements(v))
    case OpNotIn => ListPiece(f, NotIn, Elements(v))
    case OpBetween => BetweenPiece(f, Between, Elements(v))
    case OpNotBetween => BetweenPiece(f, NotBetween, Elements(v))
    case OpNull => Piece([Name(f), Op(if v == Null(true) then IsNull else IsNotNull)], [])
  }

  function FieldPieces(op: Operator, f: string, v: Val): seq<Piece> {
    if PassedOver(op, v) then [] else [FieldPiece(op, f, v)]
  }

  function KeyPieces(op: Operator, ks: seq<string>, m: map<string, Val>): seq<Piece>
    requires forall k <- ks :: k in m
  {
    if ks == [] then [] else FieldPieces(op, ks[0], m[ks[0]]) + KeyPieces(op, ks[1..], m)
  }

  /** The conditions of one Comparable, each with its values. */
  function Pieces(c: Comparable): seq<Piece>
    decreases c, 0
  {
    match c
    case Fields(op, m) => KeyPieces(op, SortedKeys(m.Keys), m)
    case NestWhere(cs) => [Group(AllPieces(cs), And)]
    case OrWhere(cs) => [Group(AllPieces(cs), Or)]
  }

  function AllPieces(cs: seq<Comparable>): seq<Piece>
    decreases cs, 1
  {
    if cs == [] then [] else Pieces(cs[0]) + AllPieces(cs[1..])
  }

  // ----- reading it back

  /** How each piece of a field reads. */
  function FieldStatus(op: Operator, f: string, v: Val, row: Row): seq<Option<bool>> {
    if PassedOver(op, v) then []
    else if Usable(op, v) then [Some(row(TestOf(op, f, v)))]
    else [None]
  }

  function KeyStatus(op: Operator, ks: seq<string>, m: map<string, Val>, row: Row): seq<Option<bool>>
    requires forall k <- ks :: k in m
  {
    if ks == [] then [] else FieldStatus(op, ks[0], m[ks[0]], row) + KeyStatus(op, ks[1..], m, row)
  }

  function Statuses(c: Comparable, row: Row): seq<Option<bool>>
    decreases c, 0
  {
    match c
    case Fields(op, m) => KeyStatus(op, SortedKeys(m.Keys), m, row)
    case NestWhere(cs) => [Fold(And, AllStatuses(cs, row))]
    case OrWhere(cs) => [Fold(Or, AllStatuses(cs, row))]
  }

  function AllStatuses(cs: seq<Comparable>, row: Row): seq<Option<bool>>
    decreases cs, 1
  {
    if cs == [] then [] else Statuses(cs[0], row) + AllStatuses(cs[1..], row)
  }

  predicate IsComparison(sym: Sym) { sym in {Equal, NotEqual, Sym.Less, LessEq, Sym.Greater, GreaterEq, Like, NotLike} }

  lemma MarkReads(f: string, sym: Sym, v: Val, row: Row)
    requires IsComparison(sym)
    ensures Reads(Piece([Name(f), Op(sym), Mark], [v]), Some(row(Test(f, sym, [v]))), row)
  {
    forall rest: Text, left: seq<Val>
      ensures ReadOperand([Name(f), Op(sym), Mark] + rest, [v] + left, row)
        == Some(Reading(row(Test(f, sym, [v])), rest, left))
    {
      var t := [Name(f), Op(sym), Mark] + rest;
      assert t[1..][2..] == rest && ([v] + left)[1..] == left;
    }
  }

  lemma RawReads(f: string, sym: Sym, sql: string, row: Row)
    requires IsComparison(sym)
    ensures Reads(Piece([Name(f), Op(sym), RawSql(sql)], []), Some(row(Test(f, sym, [Raw(sql)]))), row)
  {
    var p := Piece([Name(f), Op(sym), RawSql(sql)], []);
    forall rest: Text, left: seq<Val>
      ensures ReadOperand(p.text + rest, p.vals + left, row) == Some(Reading(row(Test(f, sym, [Raw(sql)])), rest, left))
    {
      var t := p.text + rest;
      assert t[1..][2..] == rest && [] + left == left;
    }
  }

  lemma {:induction false} MarksRead(vs: seq<Val>, rest: Text, left: seq<Val>)
    requires vs != []
    ensures ReadMarks(MarkList(|vs|) + ([Close] + rest), vs + left) == Some(Marks(vs, rest, left))
  {
    var t := MarkList(|vs|) + ([Close] + rest);
    if |vs| == 1 {
      assert t == [Mark, Close] + rest && (vs + left)[1..] == left && vs == [vs[0]];
    } else {
      var more := MarkList(|vs| - 1) + ([Close] + rest);
      assert t == [Mark, Comma] + more;
      assert t[2..] == more && (vs + left)[1..] == vs[1..] + left;
      MarksRead(vs[1..], rest, left);
      assert vs == [vs[0]] + vs[1..];
    }
  }

  lemma ListReadsAsTest(f: string, sym: Sym, vs: seq<Val>, row: Row)
    requires sym.In? || sym.NotIn?
    ensures Reads(ListPiece(f, sym, vs), if vs == [] then None else Some(row(Test(f, sym, vs))), row)
  {
    var p := ListPiece(f, sym, vs);
    assert Plain(p.text);
    var o := if vs == [] then None else Some(row(Test(f, sym, vs)));
    forall rest: Text, left: seq<Val>
      ensures ReadOperand(p.text + rest, p.vals + left, row) == AsReading(o, rest, left)
    {
      var inner := MarkList(|vs|) + ([Close] + rest);
      var t := p.text + rest;
      assert t == [Name(f), Op(sym), Open] + inner;
      assert t[1..][2..] == inner;
      if vs != [] {
        MarksRead(vs, rest, left);
      } else {
        assert inner[0] == Close;
      }
    }
    ByDefinition(p, o, row);
  }

  lemma BetweenReads(f: string, sym: Sym, vs: seq<Val>, row: Row)
    requires sym.Between? || sym.NotBetween?
    ensures Reads(BetweenPiece(f, sym, vs), if |vs| == 2 then Some(row(Test(f, sym, vs))) else None, row)
  {
    var p := BetweenPiece(f, sym, vs);
    assert Plain(p.text);
    if |vs| != 2 {
      forall rest: Text, left: seq<Val> | Ends(rest)
        ensures ReadOperand(p.text + rest, p.vals + left, row) == None
      {
        assert (p.text + rest)[1..] == rest;
      }
    } else {
      forall rest: Text, left: seq<Val>
        ensures ReadOperand(p.text + rest, p.vals + left, row) == Some(Reading(row(Test(f, sym, vs)), rest, left))
      {
        var t := p.text + rest;
        assert t[3..7] == [Mark, And, Mark, Close] && t[7..] == rest;
        assert (vs + left)[..2] == vs && (vs + left)[2..] == left;
      }
    }
  }

  lemma NullReads(f: string, sym: Sym, row: Row)
    requires sym.IsNull? || sym.IsNotNull?
    ensures Reads(Piece([Name(f), Op(sym)], []), Some(row(Test(f, sym, []))), row)
  {
    var p := Piece([Name(f), Op(sym)], []);
    forall rest: Text, left: seq<Val>
      ensures ReadOperand(p.text + rest, p.vals + left, row) == Some(Reading(row(Test(f, sym, [])), rest, left))
    {
      var t := p.text + rest;
      assert t[1..][1..] == rest && [] + left == left;
    }
  }

  lemma CompareReads(f: string, sym: Sym, v: Val, row: Row)
    requires IsComparison(sym)
    ensures Reads(ComparePiece(f, sym, v), Some(row(Test(f, sym, [v]))), row)
  {
    hide Reads;
    if v.Raw? {
      RawReads(f, sym, v.sql, row);
    } else {
      MarkReads(f, sym, v, row);
    }
  }

  lemma FieldReads(op: Operator, f: string, v: Val, row: Row)
    ensures Reads(FieldPiece(op, f, v), if Usable(op, v) then Some(row(TestOf(op, f, v))) else None, row)
  {
    hide Reads, BetweenPiece, ListPiece, ComparePiece, Elements;
    match op
    case OpEq => CompareReads(f, Equal, v, row);
    case OpNe1 => CompareReads(f, NotEqual, v, row);
    case OpNe2 => CompareReads(f, NotEqual, v, row);
    case OpGt => CompareReads(f, Sym.Greater, v, row);
    case OpGte => CompareReads(f, GreaterEq, v, row);
    case OpLt => CompareReads(f, Sym.Less, v, row);
    case OpLte => CompareReads(f, LessEq, v, row);
    case OpLike => MarkReads(f, Like, v, row);
    case OpLikePercent => MarkReads(f, Like, Percent(v), row);
    case OpNotLike => MarkReads(f, NotLike, v, row);
    case OpIn => ListReadsAsTest(f, In, Elements(v), row);
    case OpNotIn => ListReadsAsTest(f, NotIn, Elements(v), row);
    case OpBetween => BetweenReads(f, Between, Elements(v), row);
    case OpNotBetween => BetweenReads(f, NotBetween, Elements(v), row);
    case OpNull => NullReads(f, if v == Null(true) then IsNull else IsNotNull, row);
  }

  lemma {:induction false} KeysRead(op: Operator, ks: seq<string>, m: map<string, Val>, row: Row)
    requires forall k <- ks :: k in m
    ensures AllRead(KeyPieces(op, ks, m), KeyStatus(op, ks, m, row), row)
  {
    if ks != [] {
      FieldReads(op, ks[0], m[ks[0]], row);
      hide Reads, FieldPiece, TestOf, Usable;
      KeysRead(op, ks[1..], m, row);
      var ps, os := FieldPieces(op, ks[0], m[ks[0]]), FieldStatus(op, ks[0], m[ks[0]], row);
      assert AllRead(ps, os, row) by {
        if ps != [] {
          assert AllRead(ps[1..], os[1..], row);
        }
      }
      AllReadAppend(ps, os, KeyPieces(op, ks[1..], m), KeyStatus(op, ks[1..], m, row), row);
    }
  }

  /** Every condition that is built reads as its status says. */
  lemma {:induction false} ComparableReads(c: Comparable, row: Row)
    ensures AllRead(Pieces(c), Statuses(c, row), row)
    decreases c, 0
  {
    hide Reads, Fold, Group;
    match c
    case Fields(op, m) =>
      KeysRead(op, SortedKeys(m.Keys), m, row);
    case NestWhere(cs) =>
      AllComparablesRead(cs, row);
      GroupReads(AllPieces(cs), AllStatuses(cs, row), And, row);
      assert AllRead([], [], row);
    case OrWhere(cs) =>
      AllComparablesRead(cs, row);
      GroupReads(AllPieces(cs), AllStatuses(cs, row), Or, row);
      assert AllRead([], [], row);
  }

  lemma {:induction false} AllComparablesRead(cs: seq<Comparable>, row: Row)
    ensures AllRead(AllPieces(cs), AllStatuses(cs, row), row)
    decreases cs, 1
  {
    if cs != [] {
      hide Reads, Pieces, Statuses;
      ComparableReads(cs[0], row);
      AllComparablesRead(cs[1..], row);
      AllReadAppend(Pieces(cs[0]), Statuses(cs[0], row), AllPieces(cs[1..]), AllStatuses(cs[1..], row), row);
    }
  }

  // ----- placeholders and values

  function CountMarks(t: Text): nat {
    if t == [] then 0 else (if t[0] == Mark then 1 else 0) + CountMarks(t[1..])
  }

  lemma {:induction false} CountAppend(a: Text, b: Text)
    ensures CountMarks(a + b) == CountMarks(a) + CountMarks(b)
  {
    if a == [] {
      assert a + b == b;
    } else {
      assert (a + b)[1..] == a[1..] + b;
      CountAppend(a[1..], b);
    }
  }

  lemma {:induction false} MarkListCount(n: nat)
    ensures CountMarks(MarkList(n)) == n
  {
    if n == 1 {
      assert CountMarks([Mark]) == 1;
    } else if n > 1 {
      MarkListCount(n - 1);
      var t := MarkList(n);
      assert t[1..][0] == Comma && t[1..][1..] == MarkList(n - 1);
    }
  }

  predicate Aligned(p: Piece) { CountMarks(p.text) == |p.vals| }

  predicate AllAligned(ps: seq<Piece>) { ps == [] || (Aligned(ps[0]) && AllAligned(ps[1..])) }

  lemma FieldAligned(op: Operator, f: string, v: Val)
    ensures Aligned(FieldPiece(op, f, v))
  {
    ListAligned(f, if op == OpIn then In else NotIn, Elements(v));
    BetweenAligned(f, if op == OpBetween then Between else NotBetween, Elements(v));
    var p := FieldPiece(op, f, v);
    if op !in {OpIn, OpNotIn, OpBetween, OpNotBetween} {
      assert 2 <= |p.text| <= 3 && !p.text[0].Mark? && !p.text[1].Mark?;
      CountThree(p.text);
    }
    hide Aligned, CountMarks, ListPiece, BetweenPiece;
  }

  lemma CountThree(t: Text)
    requires 2 <= |t| <= 3 && t[0] != Mark && t[1] != Mark
    ensures CountMarks(t) == if |t| == 3 && t[2] == Mark then 1 else 0
  {
    assert CountMarks(t[2..]) == if |t| == 3 && t[2] == Mark then 1 else 0;
    NextTail(t, 1);
  }

  lemma ListAligned(f: string, sym: Sym, vs: seq<Val>)
    ensures Aligned(ListPiece(f, sym, vs))
  {
    MarkListCount(|vs|);
    var open: Text := [Name(f), Op(sym), Open];
    CountAppend(open + MarkList(|vs|), [Close]);
    CountAppend(open, MarkList(|vs|));
    CountThree(open);
    CountNone();
  }

  lemma CountNone()
    ensures CountMarks([Close]) == 0
  {
  }

  lemma BetweenAligned(f: string, sym: Sym, vs: seq<Val>)
    ensures Aligned(BetweenPiece(f, sym, vs))
  {
    CountSmall(BetweenPiece(f, sym, vs).text);
    hide CountMarks;
  }

  /** Unrolls the count of a text of at most seven lexemes. */
  lemma CountSmall(t: Text)
    requires |t| <= 7
    ensures CountMarks(t) == (if |t| > 0 && t[0] == Mark then 1 else 0) + (if |t| > 1 && t[1] == Mark then 1 else 0)
      + (if |t| > 2 && t[2] == Mark then 1 else 0) + (if |t| > 3 && t[3] == Mark then 1 else 0)
      + (if |t| > 4 && t[4] == Mark then 1 else 0) + (if |t| > 5 && t[5] == Mark then 1 else 0)
      + (if |t| > 6 && t[6] == Mark then 1 else 0)
  {
  }

  lemma {:induction false} AlignedAppend(a: seq<Piece>, b: seq<Piece>)
    requires AllAligned(a) && AllAligned(b)
    ensures AllAligned(a + b)
  {
    if a == [] {
      assert a + b == b;
    } else {
      assert (a + b)[1..] == a[1..] + b;
      hide Aligned;
      AlignedAppend(a[1..], b);
    }
  }

  lemma {:induction false} JoinAligned(ps: seq<Piece>, c: Lex)
    requires AllAligned(ps) && c != Mark
    ensures CountMarks(JoinLex(Texts(ps), c)) == |Vals(ps)|
  {
    if |ps| == 1 {
      assert Vals(ps) == ps[0].vals + [] && Vals(ps[1..]) == [];
    } else if |ps| > 1 {
      JoinAligned(ps[1..], c);
      assert Texts(ps)[1..] == Texts(ps[1..]);
      CountAppend(ps[0].text + [c], JoinLex(Texts(ps[1..]), c));
      CountAppend(ps[0].text, [c]);
      CountSmall([c]);
    }
  }

  lemma GroupAligned(ps: seq<Piece>, c: Lex)
    requires AllAligned(ps) && c != Mark
    ensures Aligned(Group(ps, c))
  {
    if ps != [] {
      JoinAligned(ps, c);
      var inner := JoinLex(Texts(ps), c);
      CountAppend([Open] + inner, [Close]);
      CountAppend([Open], inner);
      CountSmall([Open]);
      CountSmall([Close]);
    }
  }

  lemma {:induction false} KeysAligned(op: Operator, ks: seq<string>, m: map<string, Val>)
    requires forall k <- ks :: k in m
    ensures AllAligned(KeyPieces(op, ks, m))
  {
    if ks != [] {
      FieldAligned(op, ks[0], m[ks[0]]);
      hide Aligned, FieldPiece;
      KeysAligned(op, ks[1..], m);
      AlignedAppend(FieldPieces(op, ks[0], m[ks[0]]), KeyPieces(op, ks[1..], m));
    }
  }

  /** Whatever the values, the text of every condition has as many placeholders as it has values. */
  lemma {:induction false} PiecesAligned(c: Comparable)
    ensures AllAligned(Pieces(c))
    decreases c, 0
  {
    hide Group, Aligned;
    match c
    case Fields(op, m) => KeysAligned(op, SortedKeys(m.Keys), m);
    case NestWhere(cs) => AllPiecesAligned(cs); GroupAligned(AllPieces(cs), And);
    case OrWhere(cs) => AllPiecesAligned(cs); GroupAligned(AllPieces(cs), Or);
  }

  lemma {:induction false} AllPiecesAligned(cs: seq<Comparable>)
    ensures AllAligned(AllPieces(cs))
    decreases cs, 1
  {
    if cs != [] {
      hide Aligned, Pieces;
      PiecesAligned(cs[0]);
      AllPiecesAligned(cs[1..]);
      AlignedAppend(Pieces(cs[0]), AllPieces(cs[1..]));
    }
  }

  // ----- the methods

  /** The loop that build, the LIKE types, In, NotIn and betweenBuilder have in common: the sorted
      field names are overwritten one by one by their conditions. */
  method BuildFields(op: Operator, m: map<string, Val>) returns (cond: seq<Text>, vals: seq<Val>)
    requires op != OpNull
    ensures var ps := Pieces(Fields(op, m)); cond == Texts(ps) && vals == Vals(ps)
  {
    if |m| == 0 {
      assert m.Keys == {};
      return [], [];
    }
    cond, vals := OverwriteKeys(op, SortedKeys(m.Keys), m);
  }

  method OverwriteKeys(op: Operator, keys: seq<string>, m: map<string, Val>) returns (cond: seq<Text>, vals: seq<Val>)
    requires op != OpNull && forall k <- keys :: k in m
    ensures cond == Texts(KeyPieces(op, keys, m)) && vals == Vals(KeyPieces(op, keys, m))
  {
    hide *;
    cond := Names(keys);
    vals := [];
    var j := 0;
    Whole(keys);
    Whole(cond);
    NothingAdded(Texts(KeyPieces(op, keys, m)));
    NothingAdded(Vals(KeyPieces(op, keys, m)));
    while j < |keys|
      invariant 0 <= j <= |keys| == |cond|
      invariant cond[..j] + Texts(KeyPieces(op, keys[j..], m)) == Texts(KeyPieces(op, keys, m))
      invariant vals + Vals(KeyPieces(op, keys[j..], m)) == Vals(KeyPieces(op, keys, m))
    {
      KeyPiecesAt(op, keys, j, m);
      var text, more := BuildField(op, keys[j], m[keys[j]]);
      Assoc(cond[..j], [text], Texts(KeyPieces(op, keys[j + 1..], m)));
      Assoc(vals, more, Vals(KeyPieces(op, keys[j + 1..], m)));
      PrefixUpdated(cond, j, text);
      cond := cond[j := text];
      vals := vals + more;
      j := j + 1;
    }
    NoKeyPieces(op, m);
    Whole(cond);
    NothingAdded(cond);
    NothingAdded(vals);
  }

  lemma NoKeyPieces(op: Operator, m: map<string, Val>)
    ensures Texts(KeyPieces(op, [], m)) == [] && Vals(KeyPieces(op, [], m)) == []
  {
  }

  function Names(keys: seq<string>): (r: seq<Text>)
    ensures |r| == |keys|
  {
    if keys == [] then [] else [[Name(keys[0])]] + Names(keys[1..])
  }

  lemma KeyPiecesAt(op: Operator, ks: seq<string>, j: nat, m: map<string, Val>)
    requires (forall k <- ks :: k in m) && j < |ks|
    ensures var p := FieldPiece(op, ks[j], m[ks[j]]);
      var over := PassedOver(op, m[ks[j]]);
      && Texts(KeyPieces(op, ks[j..], m)) == (if over then [] else [p.text]) + Texts(KeyPieces(op, ks[j + 1..], m))
      && Vals(KeyPieces(op, ks[j..], m)) == (if over then [] else p.vals) + Vals(KeyPieces(op, ks[j + 1..], m))
    ensures op != OpNull ==> !PassedOver(op, m[ks[j]])
    ensures op == OpNull ==> PassedOver(op, m[ks[j]]) == !m[ks[j]].Null?
  {
    assert ks[j..][1..] == ks[j + 1..];
    hide FieldPiece;
    var ps := FieldPieces(op, ks[j], m[ks[j]]);
    TextsAppend(ps, KeyPieces(op, ks[j + 1..], m));
    assert ps != [] ==> Vals(ps) == ps[0].vals + [] && ps[1..] == [];
  }

  /** What the loop makes of one field and its value. */
  method BuildField(op: Operator, f: string, v: Val) returns (text: Text, more: seq<Val>)
    requires op != OpNull
    ensures Piece(text, more) == FieldPiece(op, f, v)
  {
    match op {
      case OpIn => text := BuildIn(f, In, Elements(v)); more := Elements(v);
      case OpNotIn => text := BuildIn(f, NotIn, Elements(v)); more := Elements(v);
      case OpBetween => text, more := BuildBetween(f, Between, Elements(v));
      case OpNotBetween => text, more := BuildBetween(f, NotBetween, Elements(v));
      case OpLike => text, more := [Name(f), Op(Like), Mark], [v];
      case OpLikePercent => text, more := [Name(f), Op(Like), Mark], [Percent(v)];
      case OpNotLike => text, more := [Name(f), Op(NotLike), Mark], [v];
      case OpEq => text, more := BuildCompare(f, Equal, v);
      case OpNe1 => text, more := BuildCompare(f, NotEqual, v);
      case OpNe2 => text, more := BuildCompare(f, NotEqual, v);
      case OpGt => text, more := BuildCompare(f, Sym.Greater, v);
      case OpGte => text, more := BuildCompare(f, GreaterEq, v);
      case OpLt => text, more := BuildCompare(f, Sym.Less, v);
      case OpLte => text, more := BuildCompare(f, LessEq, v);
    }
  }

  method BuildCompare(f: string, sym: Sym, v: Val) returns (text: Text, more: seq<Val>)
    ensures Piece(text, more) == ComparePiece(f, sym, v)
  {
    if v.Raw? {
      return [Name(f), Op(sym), RawSql(v.sql)], [];
    }
    text, more := [Name(f), Op(sym), Mark], [v];
  }

  /** buildIn and buildNotIn: a mark for every value, the last comma trimmed. */
  method BuildIn(f: string, sym: Sym, vs: seq<Val>) returns (text: Text)
    ensures text == ListPiece(f, sym, vs).text
  {
    var marks: Text := [];
    for i := 0 to |vs|
      invariant marks == if i == 0 then [] else MarkList(i) + [Comma]
    {
      MarkListPush(i);
      marks := marks + [Mark, Comma];
    }
    if marks != [] {
      marks := marks[..|marks| - 1];
    }
    text := [Name(f), Op(sym), Open] + marks + [Close];
  }

  lemma {:induction false} MarkListPush(n: nat)
    ensures MarkList(n + 1) == (if n == 0 then [] else MarkList(n) + [Comma]) + [Mark]
  {
    if n > 1 {
      MarkListPush(n - 1);
    }
  }

  method BuildBetween(f: string, sym: Sym, vs: seq<Val>) returns (text: Text, more: seq<Val>)
    ensures Piece(text, more) == BetweenPiece(f, sym, vs)
  {
    text, more := [Name(f)], [];
    if |vs| != 2 {
      return;
    }
    text, more := [Open, Name(f), Op(sym), Mark, And, Mark, Close], vs;
  }

  /** nullCompareble.Build: values that are not a NullType are passed over. */
  method BuildNull(m: map<string, Val>) returns (cond: seq<Text>, vals: seq<Val>)
    ensures var ps := Pieces(Fields(OpNull, m)); cond == Texts(ps) && vals == Vals(ps)
  {
    cond, vals := [], [];
    if |m| == 0 {
      assert m.Keys == {};
      return;
    }
    cond, vals := CollectNulls(SortedKeys(m.Keys), m);
  }

  method CollectNulls(keys: seq<string>, m: map<string, Val>) returns (cond: seq<Text>, vals: seq<Val>)
    requires forall k <- keys :: k in m
    ensures cond == Texts(KeyPieces(OpNull, keys, m)) && vals == Vals(KeyPieces(OpNull, keys, m))
  {
    cond, vals := [], [];
    var j := 0;
    assert keys[0..] == keys && KeyPieces(OpNull, keys[|keys|..], m) == [] && Texts([]) == [] && Vals([]) == [];
    while j < |keys|
      invariant 0 <= j <= |keys|
      invariant cond + Texts(KeyPieces(OpNull, keys[j..], m)) == Texts(KeyPieces(OpNull, keys, m))
      invariant vals + Vals(KeyPieces(OpNull, keys[j..], m)) == Vals(KeyPieces(OpNull, keys, m))
    {
      var v := m[keys[j]];
      KeyPiecesAt(OpNull, keys, j, m);
      hide *;
      if v.Null? {
        var text := BuildNullTest(keys[j], v);
        Assoc(cond, [text], Texts(KeyPieces(OpNull, keys[j + 1..], m)));
        cond := cond + [text];
      }
      assert [] + Texts(KeyPieces(OpNull, keys[j + 1..], m)) == Texts(KeyPieces(OpNull, keys[j + 1..], m));
      assert [] + Vals(KeyPieces(OpNull, keys[j + 1..], m)) == Vals(KeyPieces(OpNull, keys[j + 1..], m));
      j := j + 1;
    }
    assert cond + [] == cond && vals + [] == vals;
  }

  method BuildNullTest(f: string, v: Val) returns (text: Text)
    requires v.Null?
    ensures Piece(text, []) == FieldPiece(OpNull, f, v)
  {
    text := [Name(f), Op(if v == Null(true) then IsNull else IsNotNull)];
  }

  /** Build of each Comparable. */
  method Build(c: Comparable) returns (cond: seq<Text>, vals: seq<Val>)
    ensures cond == Texts(Pieces(c)) && vals == Vals(Pieces(c))
    decreases c, 0
  {
    match c {
      case Fields(op, m) =>
        if op == OpNull {
          cond, vals := BuildNull(m);
        } else {
          cond, vals := BuildFields(op, m);
        }
      case NestWhere(cs) =>
        var text, more := WhereConnector(And, cs);
        cond, vals := [text], more;
        assert Vals([Group(AllPieces(cs), And)]) == more + [];
      case OrWhere(cs) =>
        var text, more := WhereConnector(Or, cs);
        cond, vals := [text], more;
        assert Vals([Group(AllPieces(cs), Or)]) == more + [];
    }
  }

  method WhereConnector(c: Lex, conditions: seq<Comparable>) returns (text: Text, values: seq<Val>)
    ensures Piece(text, values) == Group(AllPieces(conditions), c)
    decreases conditions, 1
  {
    if |conditions| == 0 {
      return [], [];
    }
    var where_: seq<Text> := [];
    values := [];
    var i := 0;
    assert conditions[0..] == conditions;
    while i < |conditions|
      invariant 0 <= i <= |conditions|
      invariant where_ + Texts(AllPieces(conditions[i..])) == Texts(AllPieces(conditions))
      invariant values + Vals(AllPieces(conditions[i..])) == Vals(AllPieces(conditions))
    {
      AllPiecesAt(conditions, i);
      hide *;
      var cons, vals := Build(conditions[i]);
      Assoc(where_, cons, Texts(AllPieces(conditions[i + 1..])));
      Assoc(values, vals, Vals(AllPieces(conditions[i + 1..])));
      where_ := where_ + cons;
      values := values + vals;
      i := i + 1;
    }
    assert AllPieces(conditions[i..]) == [];
    assert where_ + [] == where_ && values + [] == values;
    assert where_ == Texts(AllPieces(conditions)) && values == Vals(AllPieces(conditions));
    if |where_| == 0 {
      return [], [];
    }
    text := [Open] + JoinLex(where_, c) + [Close];
  }

  lemma {:induction false} TextsAppend(a: seq<Piece>, b: seq<Piece>)
    ensures Texts(a + b) == Texts(a) + Texts(b) && Vals(a + b) == Vals(a) + Vals(b)
  {
    if a == [] {
      assert a + b == b;
    } else {
      assert (a + b)[1..] == a[1..] + b;
      TextsAppend(a[1..], b);
      Assoc(a[0].vals, Vals(a[1..]), Vals(b));
    }
  }

  lemma AllPiecesAt(cs: seq<Comparable>, i: nat)
    requires i < |cs|
    ensures Texts(AllPieces(cs[i..])) == Texts(Pieces(cs[i])) + Texts(AllPieces(cs[i + 1..]))
    ensures Vals(AllPieces(cs[i..])) == Vals(Pieces(cs[i])) + Vals(AllPieces(cs[i + 1..]))
  {
    assert cs[i..][1..] == cs[i + 1..];
    assert AllPieces(cs[i..]) == Pieces(cs[i]) + AllPieces(cs[i + 1..]);
    TextsAppend(Pieces(cs[i]), AllPieces(cs[i + 1..]));
  }
}
