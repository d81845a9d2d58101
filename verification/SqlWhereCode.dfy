/** The loops of pkg/xsql/builder/sql_where.go, proved against SqlWhere. */
module SqlWhereCode {
  import opened Common
  import opened Sql
  import opened SqlBuild
  import opened SqlWhere

  function Prepend(cs: seq<Comparable>, r: Conditions): Conditions {
    match r
    case Err(e) => Err(e)
    case Ok(more) => Ok(cs + more)
  }

  lemma PrependTwice(a: seq<Comparable>, b: seq<Comparable>, r: Conditions)
    ensures Prepend(a + b, r) == Prepend(a, Prepend(b, r))
  {
    if r.Ok? {
      Assoc(a, b, r.cs);
    }
  }

  /** convertWhereMapToWhereMapSlice. */
  method ConvertWhereMap(m: map<string, Val>) returns (r: Option<map<string, seq<Val>>>)
    ensures r.None? <==> exists f <- m :: AsSlice(m[f]).None?
    ensures r.Some? ==> r.value == map f <- m :: Elements(m[f])
  {
    var result: map<string, seq<Val>> := map[];
    var left := m.Keys;
    hide AsSlice;
    while left != {}
      invariant left <= m.Keys && forall f | f in m && f !in left :: AsSlice(m[f]).Some?
      invariant result == map f <- m.Keys - left :: Elements(m[f])
      decreases |left|
    {
      var key :| key in left;
      var vals := AsSlice(m[key]);
      if vals.None? {
        return None;
      }
      result := result[key := vals.value];
      left := left - {key};
    }
    r := Some(result);
  }

  lemma FromSetFrom(s: FieldSet, ops: seq<Operator>, i: nat)
    requires i < |ops|
    ensures var (op, rest) := (ops[i], FromSet(s, ops[i + 1..]));
      && (op !in s ==> FromSet(s, ops[i..]) == rest)
      && (op in s ==>
            FromSet(s, ops[i..]) ==
              if WantsSlice(op) && exists f <- s[op] :: AsSlice(s[op][f]).None? then Err(NotASlice)
              else Prepend([Fields(op, s[op])], rest))
  {
    assert ops[i..][1..] == ops[i + 1..];
    hide AsSlice, WantsSlice;
  }

  /** buildWhereCondition. */
  method BuildWhereCondition(wms: WhereMapSet) returns (r: Conditions)
    ensures r == FromSet(wms.fields, OP_ORDER)
  {
    var cpArr: seq<Comparable> := [];
    var s, ops := wms.fields, OP_ORDER;
    var i := 0;
    assert ops[0..] == ops;
    hide AsSlice, WantsSlice, OP_ORDER, FromSet;
    while i < |ops|
      invariant 0 <= i <= |ops|
      invariant FromSet(s, ops) == Prepend(cpArr, FromSet(s, ops[i..]))
    {
      var operator := ops[i];
      FromSetFrom(s, ops, i);
      i := i + 1;
      if operator !in s {
        continue;
      }
      if WantsSlice(operator) {
        var whereMap := ConvertWhereMap(s[operator]);
        if whereMap.None? {
          return Err(NotASlice);
        }
      }
      PrependTwice(cpArr, [Fields(operator, s[operator])], FromSet(s, ops[i..]));
      cpArr := cpArr + [Fields(operator, s[operator])];
    }
    assert ops[i..] == [];
    assert cpArr + [] == cpArr;
    r := Ok(cpArr);
  }

  /** The loop over the branches of an _or. */
  method OrBranches(ms: seq<Branch>, ignore: set<string>) returns (r: Conditions)
    ensures r == Branches(ms, ignore)
    decreases ms, 0
  {
    var orWhereComparable: seq<Comparable> := [];
    var i := 0;
    assert ms[0..] == ms;
    while i < |ms|
      invariant 0 <= i <= |ms|
      invariant Branches(ms, ignore) == Prepend(orWhereComparable, Branches(ms[i..], ignore))
    {
      var orWhere := ms[i];
      assert ms[i..][1..] == ms[i + 1..];
      i := i + 1;
      if orWhere.NilMap? {
        continue;
      }
      var nested := GetWhereConditions(orWhere.entries, ignore);
      if nested.Err? {
        return nested;
      }
      PrependTwice(orWhereComparable, [NestWhere(nested.cs)], Branches(ms[i..], ignore));
      orWhereComparable := orWhereComparable + [NestWhere(nested.cs)];
    }
    assert ms[i..] == [];
    assert orWhereComparable + [] == orWhereComparable;
    r := Ok(orWhereComparable);
  }

  lemma ScanFrom(entries: seq<Entry>, i: nat, ignore: set<string>, s: FieldSet, done: seq<Comparable>)
    requires i < |entries|
    ensures var (e, rest) := (entries[i], entries[i + 1..]);
      var r := Scan(entries[i..], ignore, s, done);
      && (e.key in ignore ==> r == Scan(rest, ignore, s, done))
      && (e.key !in ignore && IsOr(e) && !e.val.Maps? ==> r == Failed(OrValueType))
      && (e.key !in ignore && IsOr(e) && e.val.Maps? ==>
            var b := Branches(e.val.ms, ignore);
            r == if b.Err? then Failed(b.e) else Scan(rest, ignore, s, done + [OrWhere(b.cs)]))
      && (e.key !in ignore && !IsOr(e) ==>
            var n := Normalise(e.key, e.val);
            r == if n.Bad? then Failed(n.e) else Scan(rest, ignore, Add(s, n.op, n.field, e.val), done))
  {
    hide Normalise, Branches, Add;
    assert entries[i..][1..] == entries[i + 1..];
  }

  /** The loop over the entries of a map. */
  method ScanEntries(where_: seq<Entry>, ignore: set<string>, wms: WhereMapSet) returns (r: Conditions)
    modifies wms
    ensures Scan(where_, ignore, old(wms.fields), []) == if r.Err? then Failed(r.e) else Scanned(wms.fields, r.cs)
    decreases where_, 1
  {
    var comparables: seq<Comparable> := [];
    var i := 0;
    assert where_[0..] == where_;
    hide Normalise, Scan;
    ghost var s := wms.fields;
    while i < |where_|
      invariant 0 <= i <= |where_|
      invariant Scan(where_, ignore, s, []) == Scan(where_[i..], ignore, wms.fields, comparables)
    {
      var e := where_[i];
      ScanFrom(where_, i, ignore, wms.fields, comparables);
      i := i + 1;
      if e.key in ignore {
        continue;
      }
      if IsOr(e) {
        if !e.val.Maps? {
          return Err(OrValueType);
        }
        var branches := OrBranches(e.val.ms, ignore);
        if branches.Err? {
          return branches;
        }
        comparables := comparables + [OrWhere(branches.cs)];
        continue;
      }
      var n := Normalise(e.key, e.val);
      if n.Bad? {
        return Err(n.e);
      }
      wms.AddField(n.op, n.field, e.val);
    }
    assert where_[i..] == [];
    ScannedAll(ignore, wms.fields, comparables);
    r := Ok(comparables);
  }

  lemma ScannedAll(ignore: set<string>, s: FieldSet, done: seq<Comparable>)
    ensures Scan([], ignore, s, done) == Scanned(s, done)
  {
  }

  method GetWhereConditions(where_: seq<Entry>, ignore: set<string>) returns (r: Conditions)
    ensures r == GetConditions(where_, ignore)
    decreases where_, 2
  {
    if |where_| == 0 {
      assert FromSet(map[], OP_ORDER) == Ok([]) by { EmptySet(OP_ORDER); }
      return Ok([]);
    }
    var wms := new WhereMapSet();
    var comparables := ScanEntries(where_, ignore, wms);
    if comparables.Err? {
      return comparables;
    }
    var more := BuildWhereCondition(wms);
    if more.Err? {
      return more;
    }
    r := Ok(comparables.cs + more.cs);
  }

  lemma {:induction false} EmptySet(ops: seq<Operator>)
    ensures FromSet(map[], ops) == Ok([])
  {
    if ops != [] {
      EmptySet(ops[1..]);
    }
  }

  datatype Where = Where(sql: string, vals: seq<Val>) | Refused(e: Error)

  /** The string, with a leading space when there is a condition, and the values. */
  function Built(whereReq: seq<Entry>): Where {
    match GetConditions(whereReq, IGNORED)
    case Err(e) => Refused(e)
    case Ok(cs) =>
      var w := WhereOf(cs);
      Where(if w.text == [] then "" else " " + Show(w.text), w.vals)
  }

  method BuildWhere(whereReq: seq<Entry>) returns (r: Where)
    ensures r == Built(whereReq)
  {
    hide Show, GetConditions, AllPieces, JoinLex;
    var conditions := GetWhereConditions(whereReq, IGNORED);
    if conditions.Err? {
      return Refused(conditions.e);
    }
    if |conditions.cs| == 0 {
      assert AllPieces([]) == [] by { NoPieces(); }
      return Where("", []);
    }
    var text, vals := WhereConnector(And, conditions.cs);
    if text == [] {
      return Where("", vals);
    }
    r := Where(" " + Show(text), vals);
  }

  lemma NoPieces()
    ensures AllPieces([]) == []
  {
  }
}
