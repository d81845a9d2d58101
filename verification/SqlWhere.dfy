/** getWhereConditions of pkg/xsql/builder/sql_where.go: a nested where-map to conditions, and what
    the text built from them means. A map is the sequence of its entries in iteration order. */
module SqlWhere {
  import opened Common
  import opened StringOrder
  import opened Sql
  import opened SqlBuild

  const IGNORED := {"_orderby", "_groupby", "_having", "_limit", "_lockMode"}

  const OP_ORDER := [OpEq, OpIn, OpNe1, OpNe2, OpNotIn, OpGt, OpGte, OpLt, OpLte, OpLike, OpLikePercent, OpNotLike,
                     OpBetween, OpNotBetween, OpNull]

  datatype Error = EmptyKey | UnsupportedOperator | OrValueType | NotASlice

  // ----- keys

  function TrimSpaces(s: string): string {
    if s != "" && s[0] == ' ' then TrimSpaces(s[1..])
    else if s != "" && s[|s| - 1] == ' ' then TrimSpaces(s[..|s| - 1])
    else s
  }

  /** strings.IndexByte for a space; |s| stands for not found. */
  function SpaceAt(s: string, i: nat): (at: nat)
    requires i <= |s|
    ensures i <= at <= |s|
    decreases |s| - i
  {
    if i == |s| || s[i] == ' ' then i else SpaceAt(s, i + 1)
  }

  function LastOfRun(s: string, i: nat): (last: nat)
    requires i < |s|
    ensures i <= last < |s|
    decreases |s| - i
  {
    if i + 1 < |s| && s[i + 1] == ' ' then LastOfRun(s, i + 1) else i
  }

  function RemoveInnerSpace(op: string): string {
    var first := SpaceAt(op, 0);
    if first == |op| then op else op[..first] + op[LastOfRun(op, first)..]
  }

  function ToLower(s: string): string {
    if s == "" then "" else [if 'A' <= s[0] <= 'Z' then s[0] + 32 as char else s[0]] + ToLower(s[1..])
  }

  function SplitKey(key: string, val: Val): Option<(string, string)> {
    var k := TrimSpaces(key);
    if k == "" then None
    else
      var at := SpaceAt(k, 0);
      if at == |k| then Some((k, if val.Slice? || val.Maps? then "in" else "="))
      else Some((k[..at], RemoveInnerSpace(TrimSpaces(k[at + 1..]))))
  }

  function OperatorOf(s: string): Option<Operator> {
    match s
    case "=" => Some(OpEq)
    case "!=" => Some(OpNe1)
    case "<>" => Some(OpNe2)
    case "in" => Some(OpIn)
    case "not in" => Some(OpNotIn)
    case ">" => Some(OpGt)
    case ">=" => Some(OpGte)
    case "<" => Some(OpLt)
    case "<=" => Some(OpLte)
    case "like" => Some(OpLike)
    case "like2" => Some(OpLikePercent)
    case "not like" => Some(OpNotLike)
    case "between" => Some(OpBetween)
    case "not between" => Some(OpNotBetween)
    case "null" => Some(OpNull)
    case _ => None
  }

  datatype Normal = Normal(op: Operator, field: string) | Bad(e: Error)

  /** The field and operator of an entry; a NullType value overrides the operator. */
  function Normalise(key: string, val: Val): Normal {
    match SplitKey(key, val)
    case None => Bad(EmptyKey)
    case Some((field, opText)) =>
      match OperatorOf(ToLower(opText))
      case None => Bad(UnsupportedOperator)
      case Some(op) => Normal(if val.Null? then OpNull else op, field)
  }

  // ----- collecting the conditions

  /** For each operator its fields and their values. */
  type FieldSet = map<Operator, map<string, Val>>

  function Add(s: FieldSet, op: Operator, field: string, val: Val): FieldSet {
    s[op := (if op in s then s[op] else map[])[field := val]]
  }

  class WhereMapSet {
    var fields: FieldSet

    constructor ()
      ensures fields == map[]
    {
      fields := map[];
    }

    method AddField(op: Operator, field: string, val: Val)
      modifies this
      ensures fields == Add(old(fields), op, field, val)
    {
      if op !in fields {
        fields := fields[op := map[]];
      }
      fields := fields[op := fields[op][field := val]];
    }
  }

  datatype Conditions = Ok(cs: seq<Comparable>) | Err(e: Error)

  datatype Scanned = Scanned(s: FieldSet, done: seq<Comparable>) | Failed(e: Error)

  predicate IsOr(e: Entry) { "_or" <= e.key }

  function GetConditions(entries: seq<Entry>, ignore: set<string>): Conditions
    decreases entries, 2
  {
    match Scan(entries, ignore, map[], [])
    case Failed(e) => Err(e)
    case Scanned(s, done) =>
      match FromSet(s, OP_ORDER)
      case Err(e) => Err(e)
      case Ok(cs) => Ok(done + cs)
  }

  /** The loop over the entries. */
  function Scan(entries: seq<Entry>, ignore: set<string>, s: FieldSet, done: seq<Comparable>): Scanned
    decreases entries, 1
  {
    if entries == [] then Scanned(s, done)
    else
      var e, rest := entries[0], entries[1..];
      if e.key in ignore then Scan(rest, ignore, s, done)
      else if IsOr(e) then
        if !e.val.Maps? then Failed(OrValueType)
        else
          match Branches(e.val.ms, ignore)
          case Err(x) => Failed(x)
          case Ok(cs) => Scan(rest, ignore, s, done + [OrWhere(cs)])
      else
        match Normalise(e.key, e.val)
        case Bad(x) => Failed(x)
        case Normal(op, field) => Scan(rest, ignore, Add(s, op, field, e.val), done)
  }

  /** The loop over the branches of an _or. */
  function Branches(ms: seq<Branch>, ignore: set<string>): Conditions
    decreases ms, 0
  {
    if ms == [] then Ok([])
    else if ms[0].NilMap? then Branches(ms[1..], ignore)
    else
      match GetConditions(ms[0].entries, ignore)
      case Err(e) => Err(e)
      case Ok(cs) =>
        match Branches(ms[1..], ignore)
        case Err(e) => Err(e)
        case Ok(more) => Ok([NestWhere(cs)] + more)
  }

  predicate WantsSlice(op: Operator) { op in {OpIn, OpNotIn, OpBetween, OpNotBetween} }

  /** buildWhereCondition. */
  function FromSet(s: FieldSet, ops: seq<Operator>): Conditions {
    if ops == [] then Ok([])
    else if ops[0] !in s then FromSet(s, ops[1..])
    else if WantsSlice(ops[0]) && exists f <- s[ops[0]] :: AsSlice(s[ops[0]][f]).None? then Err(NotASlice)
    else
      match FromSet(s, ops[1..])
      case Err(e) => Err(e)
      case Ok(cs) => Ok([Fields(ops[0], s[ops[0]])] + cs)
  }

  // ----- what a where-map means

  /** The entries are tests, all of which must hold; an _or entry holds when one of its branches does.
      A null operator whose value is not a NullType is passed over. */
  function Meaning(entries: seq<Entry>, ignore: set<string>, row: Row): bool
    decreases entries, 1
  {
    entries != [] ==>
      && EntryMeaning(entries[0], ignore, row)
      && Meaning(entries[1..], ignore, row)
  }

  function EntryMeaning(e: Entry, ignore: set<string>, row: Row): bool
    decreases e, 0
  {
    if e.key in ignore then true
    else if IsOr(e) then e.val.Maps? && AnyBranch(e.val.ms, ignore, row)
    else
      match Normalise(e.key, e.val)
      case Bad(_) => false
      case Normal(op, field) => PassedOver(op, e.val) || (Usable(op, e.val) && row(TestOf(op, field, e.val)))
  }

  function AnyBranch(ms: seq<Branch>, ignore: set<string>, row: Row): bool
    decreases ms, 0
  {
    ms != [] && ((ms[0].Branch? && Meaning(ms[0].entries, ignore, row)) || AnyBranch(ms[1..], ignore, row))
  }

  /** Some entry puts a condition. */
  predicate HasCondition(entries: seq<Entry>, ignore: set<string>) {
    entries != [] && (PutsCondition(entries[0], ignore) || HasCondition(entries[1..], ignore))
  }

  predicate PutsCondition(e: Entry, ignore: set<string>) {
    && e.key !in ignore
    && (IsOr(e) || match Normalise(e.key, e.val)
                   case Bad(_) => true
                   case Normal(op, _) => !PassedOver(op, e.val))
  }

  /** What the caller owes: IN lists that are not empty, two values for BETWEEN, at least one branch
      for every _or, and a condition in every branch. */
  predicate Legible(entries: seq<Entry>, ignore: set<string>)
    decreases entries, 1
  {
    entries != [] ==>
      && EntryLegible(entries[0], ignore)
      && Legible(entries[1..], ignore)
  }

  predicate EntryLegible(e: Entry, ignore: set<string>)
    decreases e, 0
  {
    if e.key in ignore then true
    else if IsOr(e) then e.val.Maps? && HasBranch(e.val.ms) && BranchesLegible(e.val.ms, ignore)
    else
      match Normalise(e.key, e.val)
      case Bad(_) => false
      case Normal(op, _) => PassedOver(op, e.val) || Usable(op, e.val)
  }

  predicate HasBranch(ms: seq<Branch>) { ms != [] && (ms[0].Branch? || HasBranch(ms[1..])) }

  predicate BranchesLegible(ms: seq<Branch>, ignore: set<string>)
    decreases ms, 0
  {
    ms != [] ==>
      && (ms[0].Branch? ==> HasCondition(ms[0].entries, ignore) && Legible(ms[0].entries, ignore))
      && BranchesLegible(ms[1..], ignore)
  }

  /** The operator and field of an entry that is neither ignored nor an _or nor refused. */
  function KeyOf(e: Entry, ignore: set<string>): Option<(Operator, string)> {
    if e.key in ignore || IsOr(e) then None
    else
      match Normalise(e.key, e.val)
      case Bad(_) => None
      case Normal(op, field) => Some((op, field))
  }

  /** What an operator makes of a value: nothing, no readable condition, or a test of the field. */
  datatype Status = Over | Unusable | Tests(t: Test)

  function StatusOf(op: Operator, f: string, v: Val): Status {
    if PassedOver(op, v) then Over else if Usable(op, v) then Tests(TestOf(op, f, v)) else Unusable
  }

  predicate Sliced(op: Operator, o: Option<Val>) { o.Some? && WantsSlice(op) ==> AsSlice(o.value).Some? }

  /** For the operator and field the two values come to the same. */
  predicate SaysSame(op: Operator, f: string, v: Val, w: Val) {
    StatusOf(op, f, v) == StatusOf(op, f, w) && Sliced(op, Some(v)) == Sliced(op, Some(w))
  }

  predicate Alike(a: Entry, b: Entry, ignore: set<string>) {
    match KeyOf(a, ignore)
    case None => true
    case Some((op, f)) => KeyOf(b, ignore) == Some((op, f)) ==> SaysSame(op, f, a.val, b.val)
  }

  /** Any two entries with the same operator and field say the same. */
  predicate PairsAlike(entries: seq<Entry>, ignore: set<string>) {
    forall a, b | a in entries && b in entries :: Alike(a, b, ignore)
  }

  /** The pairs are alike in this map and in every map inside an _or, at every depth. */
  predicate Consistent(entries: seq<Entry>, ignore: set<string>)
    decreases entries, 2
  {
    PairsAlike(entries, ignore) && AllConsistent(entries, ignore)
  }

  predicate AllConsistent(entries: seq<Entry>, ignore: set<string>)
    decreases entries, 1
  {
    entries != [] ==> EntryConsistent(entries[0], ignore) && AllConsistent(entries[1..], ignore)
  }

  predicate EntryConsistent(e: Entry, ignore: set<string>)
    decreases e, 0
  {
    e.key !in ignore && IsOr(e) && e.val.Maps? ==> BranchesConsistent(e.val.ms, ignore)
  }

  predicate BranchesConsistent(ms: seq<Branch>, ignore: set<string>)
    decreases ms, 0
  {
    ms != [] ==>
      && (ms[0].Branch? ==> Consistent(ms[0].entries, ignore))
      && BranchesConsistent(ms[1..], ignore)
  }

  // ----- statuses joined by one connector

  predicate Clean(os: seq<Option<bool>>) { os == [] || (os[0].Some? && Clean(os[1..])) }

  function Conj(os: seq<Option<bool>>): bool { os == [] || (os[0] == Some(true) && Conj(os[1..])) }

  function Disj(os: seq<Option<bool>>): bool { os != [] && (os[0] == Some(true) || Disj(os[1..])) }

  lemma {:induction false} FoldIs(os: seq<Option<bool>>)
    ensures Fold(And, os) == if os != [] && Clean(os) then Some(Conj(os)) else None
    ensures Fold(Or, os) == if os != [] && Clean(os) then Some(Disj(os)) else None
  {
    if |os| == 1 {
      assert Clean(os[1..]) && Conj(os[1..]) && !Disj(os[1..]);
      match os[0]
      case None =>
      case Some(b) =>
        assert Conj(os) == b && Disj(os) == b;
    } else if |os| > 1 {
      FoldIs(os[1..]);
      assert Clean(os) == (os[0].Some? && Clean(os[1..]));
    }
  }

  lemma {:induction false} CleanAppend(a: seq<Option<bool>>, b: seq<Option<bool>>)
    ensures Clean(a + b) == (Clean(a) && Clean(b))
    ensures Conj(a + b) == (Conj(a) && Conj(b)) && Disj(a + b) == (Disj(a) || Disj(b))
  {
    if a == [] {
      assert a + b == b;
    } else {
      assert (a + b)[1..] == a[1..] + b;
      CleanAppend(a[1..], b);
    }
  }

  lemma {:induction false} StatusesAppend(a: seq<Comparable>, b: seq<Comparable>, row: Row)
    ensures AllStatuses(a + b, row) == AllStatuses(a, row) + AllStatuses(b, row)
  {
    hide Statuses;
    if a == [] {
      assert a + b == b;
    } else {
      assert (a + b)[1..] == a[1..] + b && (a + b)[0] == a[0];
      StatusesAppend(a[1..], b, row);
      Assoc(Statuses(a[0], row), AllStatuses(a[1..], row), AllStatuses(b, row));
    }
  }

  // ----- the field set

  function Lookup(s: FieldSet, op: Operator, f: string): Option<Val> {
    if op in s && f in s[op] then Some(s[op][f]) else None
  }

  predicate Good(op: Operator, o: Option<Val>) { o.Some? ==> PassedOver(op, o.value) || Usable(op, o.value) }

  predicate Holds(op: Operator, f: string, o: Option<Val>, row: Row) {
    o.Some? ==> PassedOver(op, o.value) || (Usable(op, o.value) && row(TestOf(op, f, o.value)))
  }

  predicate Puts(op: Operator, o: Option<Val>) { o.Some? && !PassedOver(op, o.value) }

  ghost predicate OpUsable(s: FieldSet, op: Operator) { forall f :: Good(op, Lookup(s, op, f)) }

  ghost predicate OpTruth(s: FieldSet, op: Operator, row: Row) { forall f :: Holds(op, f, Lookup(s, op, f), row) }

  ghost predicate OpPuts(s: FieldSet, op: Operator) { exists f :: Puts(op, Lookup(s, op, f)) }

  ghost predicate SetUsable(s: FieldSet) { forall op, f :: Good(op, Lookup(s, op, f)) }

  ghost predicate SetTruth(s: FieldSet, row: Row) { forall op, f :: Holds(op, f, Lookup(s, op, f), row) }

  ghost predicate SetPuts(s: FieldSet) { exists op, f :: Puts(op, Lookup(s, op, f)) }

  /** For the operator and field of each entry the set holds nothing, or a value that says the same. */
  predicate FitsSet(s: FieldSet, entries: seq<Entry>, ignore: set<string>) {
    forall e <- entries :: Fits(s, e, ignore)
  }

  predicate Fits(s: FieldSet, e: Entry, ignore: set<string>) {
    match KeyOf(e, ignore)
    case None => true
    case Some((op, f)) => NewOrSame(s, op, f, e.val)
  }

  /** The set holds nothing for the field, or a value that says the same. */
  predicate NewOrSame(s: FieldSet, op: Operator, f: string, v: Val) {
    Lookup(s, op, f).Some? ==> SaysSame(op, f, Lookup(s, op, f).value, v)
  }

  lemma SameIsSame(op: Operator, f: string, v: Val, w: Val, row: Row)
    requires SaysSame(op, f, v, w)
    ensures Good(op, Some(v)) == Good(op, Some(w)) && Puts(op, Some(v)) == Puts(op, Some(w))
    ensures Holds(op, f, Some(v), row) == Holds(op, f, Some(w), row)
    ensures Sliced(op, Some(v)) == Sliced(op, Some(w))
  {
    hide Usable, TestOf, PassedOver, Sliced;
  }

  lemma EmptyFits(entries: seq<Entry>, ignore: set<string>)
    ensures FitsSet(map[], entries, ignore)
  {
    hide KeyOf;
  }

  lemma LookupAdd(s: FieldSet, op: Operator, field: string, v: Val)
    ensures forall o, f ::
      Lookup(Add(s, op, field, v), o, f) == if o == op && f == field then Some(v) else Lookup(s, o, f)
  {
  }

  /** Going on to the next entry, past one that leaves the set alone. */
  lemma FitsRest(s: FieldSet, entries: seq<Entry>, ignore: set<string>)
    requires entries != [] && Consistent(entries, ignore) && FitsSet(s, entries, ignore)
    ensures EntryConsistent(entries[0], ignore) && Consistent(entries[1..], ignore) && FitsSet(s, entries[1..], ignore)
  {
    assert forall e :: e in entries[1..] ==> e in entries;
    hide Alike, Fits;
  }

  /** ... and past one that is added to it. */
  lemma FitsAfterAdd(s: FieldSet, entries: seq<Entry>, ignore: set<string>, op: Operator, field: string)
    requires entries != [] && Consistent(entries, ignore) && FitsSet(s, entries, ignore)
    requires KeyOf(entries[0], ignore) == Some((op, field))
    ensures NewOrSame(s, op, field, entries[0].val)
    ensures FitsSet(Add(s, op, field, entries[0].val), entries[1..], ignore)
  {
    var e := entries[0];
    var t := Add(s, op, field, e.val);
    assert Fits(s, e, ignore);
    LookupAdd(s, op, field, e.val);
    hide Add, Lookup, KeyOf, SaysSame;
    forall x | x in entries[1..]
      ensures Fits(t, x, ignore)
    {
      assert x in entries && e in entries;
      assert Alike(e, x, ignore) && Fits(s, x, ignore);
    }
  }

  /** Adding a field that is new, or whose value says the same already, adds its condition. */
  lemma AddIs(s: FieldSet, op: Operator, field: string, v: Val, row: Row)
    requires NewOrSame(s, op, field, v)
    ensures var t := Add(s, op, field, v);
      && SetUsable(t) == (SetUsable(s) && Good(op, Some(v)))
      && SetTruth(t, row) == (SetTruth(s, row) && Holds(op, field, Some(v), row))
      && SetPuts(t) == (SetPuts(s) || Puts(op, Some(v)))
  {
    var o := Lookup(s, op, field);
    if o.Some? {
      SameIsSame(op, field, o.value, v, row);
    }
    hide *;
    LookupAdd(s, op, field, v);
    var t := Add(s, op, field, v);
    AddUsable(s, t, op, field, v);
    AddTruth(s, t, op, field, v, row);
    AddPuts(s, t, op, field, v);
  }

  lemma AddUsable(s: FieldSet, t: FieldSet, op: Operator, field: string, v: Val)
    requires forall o, f :: Lookup(t, o, f) == if o == op && f == field then Some(v) else Lookup(s, o, f)
    requires Lookup(s, op, field).None? || Good(op, Lookup(s, op, field)) == Good(op, Some(v))
    ensures SetUsable(t) == (SetUsable(s) && Good(op, Some(v)))
  {
    assert Good(op, None);
    hide Lookup, Good;
    assert Lookup(t, op, field) == Some(v);
    if SetUsable(t) {
      forall o, f
        ensures Good(o, Lookup(s, o, f))
      {
        assert Good(o, Lookup(t, o, f));
      }
    }
  }

  lemma AddTruth(s: FieldSet, t: FieldSet, op: Operator, field: string, v: Val, row: Row)
    requires forall o, f :: Lookup(t, o, f) == if o == op && f == field then Some(v) else Lookup(s, o, f)
    requires Lookup(s, op, field).None? || Holds(op, field, Lookup(s, op, field), row) == Holds(op, field, Some(v), row)
    ensures SetTruth(t, row) == (SetTruth(s, row) && Holds(op, field, Some(v), row))
  {
    assert Holds(op, field, None, row);
    hide Lookup, Holds;
    assert Lookup(t, op, field) == Some(v);
    if SetTruth(t, row) {
      forall o, f
        ensures Holds(o, f, Lookup(s, o, f), row)
      {
        assert Holds(o, f, Lookup(t, o, f), row);
      }
    }
  }

  lemma AddPuts(s: FieldSet, t: FieldSet, op: Operator, field: string, v: Val)
    requires forall o, f :: Lookup(t, o, f) == if o == op && f == field then Some(v) else Lookup(s, o, f)
    requires Lookup(s, op, field).None? || Puts(op, Lookup(s, op, field)) == Puts(op, Some(v))
    ensures SetPuts(t) == (SetPuts(s) || Puts(op, Some(v)))
  {
    PutsStay(s, t, op, field, v);
    hide Lookup, Puts;
    if SetPuts(t) {
      var o, f :| Puts(o, Lookup(t, o, f));
      if o != op || f != field {
        assert Puts(o, Lookup(s, o, f));
      }
    }
  }

  lemma PutsStay(s: FieldSet, t: FieldSet, op: Operator, field: string, v: Val)
    requires forall o, f :: Lookup(t, o, f) == if o == op && f == field then Some(v) else Lookup(s, o, f)
    requires Lookup(s, op, field).None? || Puts(op, Lookup(s, op, field)) == Puts(op, Some(v))
    ensures SetPuts(s) || Puts(op, Some(v)) ==> SetPuts(t)
  {
    assert !Puts(op, None);
    hide Lookup, Puts;
    if Puts(op, Some(v)) {
      assert Puts(op, Lookup(t, op, field));
    } else if SetPuts(s) {
      var o, f :| Puts(o, Lookup(s, o, f));
      assert Puts(o, Lookup(t, o, f));
    }
  }

  lemma {:induction false} KeyStatusIs(op: Operator, ks: seq<string>, m: map<string, Val>, row: Row)
    requires forall k <- ks :: k in m
    ensures var os := KeyStatus(op, ks, m, row);
      && Clean(os) == (forall k <- ks :: Good(op, Some(m[k])))
      && (Clean(os) ==> Conj(os) == (forall k <- ks :: Holds(op, k, Some(m[k]), row)))
      && (os != []) == (exists k <- ks :: Puts(op, Some(m[k])))
  {
    if ks != [] {
      KeyStatusIs(op, ks[1..], m, row);
      var first := FieldStatus(op, ks[0], m[ks[0]], row);
      FieldStatusIs(op, ks[0], m[ks[0]], row);
      CleanAppend(first, KeyStatus(op, ks[1..], m, row));
      assert forall k :: k in ks <==> k == ks[0] || k in ks[1..];
      hide FieldStatus, Good, Holds, Puts, Clean, Conj;
    }
  }

  lemma FieldStatusIs(op: Operator, f: string, v: Val, row: Row)
    ensures var os := FieldStatus(op, f, v, row);
      && Clean(os) == Good(op, Some(v))
      && (Clean(os) ==> Conj(os) == Holds(op, f, Some(v), row))
      && (os != []) == Puts(op, Some(v))
  {
    hide Usable, TestOf, PassedOver;
    var os := FieldStatus(op, f, v, row);
    if os != [] {
      assert os[1..] == [] && Clean(os[1..]) && Conj(os[1..]);
    }
  }

  lemma FieldsAre(s: FieldSet, op: Operator, row: Row)
    requires op in s
    ensures var os := Statuses(Fields(op, s[op]), row);
      && Clean(os) == OpUsable(s, op)
      && (Clean(os) ==> Conj(os) == OpTruth(s, op, row))
      && (os != []) == OpPuts(s, op)
  {
    var m := s[op];
    var ks := SortedKeys(m.Keys);
    KeyStatusIs(op, ks, m, row);
    LookupsAre(s, op, ks, m, row);
  }

  lemma LookupsAre(s: FieldSet, op: Operator, ks: seq<string>, m: map<string, Val>, row: Row)
    requires op in s && s[op] == m && forall k :: k in ks <==> k in m
    ensures OpUsable(s, op) == forall k <- ks :: Good(op, Some(m[k]))
    ensures OpTruth(s, op, row) == forall k <- ks :: Holds(op, k, Some(m[k]), row)
    ensures OpPuts(s, op) == exists k <- ks :: Puts(op, Some(m[k]))
  {
    LookupsGood(s, op, ks, m);
    LookupsHold(s, op, ks, m, row);
    LookupsPut(s, op, ks, m);
    hide *;
  }

  lemma LookupsGood(s: FieldSet, op: Operator, ks: seq<string>, m: map<string, Val>)
    requires op in s && s[op] == m && forall k :: k in ks <==> k in m
    ensures OpUsable(s, op) == forall k <- ks :: Good(op, Some(m[k]))
  {
    assert Good(op, None);
    hide Good;
    assert forall k | k in m :: Lookup(s, op, k) == Some(m[k]);
    if OpUsable(s, op) {
      forall k <- ks
        ensures Good(op, Some(m[k]))
      {
        assert Good(op, Lookup(s, op, k));
      }
    }
  }

  lemma LookupsHold(s: FieldSet, op: Operator, ks: seq<string>, m: map<string, Val>, row: Row)
    requires op in s && s[op] == m && forall k :: k in ks <==> k in m
    ensures OpTruth(s, op, row) == forall k <- ks :: Holds(op, k, Some(m[k]), row)
  {
    assert forall f :: Holds(op, f, None, row);
    hide Holds;
    assert forall k | k in m :: Lookup(s, op, k) == Some(m[k]);
    if OpTruth(s, op, row) {
      forall k <- ks
        ensures Holds(op, k, Some(m[k]), row)
      {
        assert Holds(op, k, Lookup(s, op, k), row);
      }
    }
  }

  lemma LookupsPut(s: FieldSet, op: Operator, ks: seq<string>, m: map<string, Val>)
    requires op in s && s[op] == m && forall k :: k in ks <==> k in m
    ensures OpPuts(s, op) == exists k <- ks :: Puts(op, Some(m[k]))
  {
    assert !Puts(op, None);
    hide Puts;
    assert forall k | k in m :: Lookup(s, op, k) == Some(m[k]);
    if exists k <- ks :: Puts(op, Some(m[k])) {
      var k :| k in ks && Puts(op, Some(m[k]));
      assert Puts(op, Lookup(s, op, k));
    }
  }

  lemma AbsentIs(s: FieldSet, op: Operator, row: Row)
    requires op !in s
    ensures OpUsable(s, op) && OpTruth(s, op, row) && !OpPuts(s, op)
  {
  }

  lemma {:induction false} FromSetIs(s: FieldSet, ops: seq<Operator>, row: Row)
    requires FromSet(s, ops).Ok?
    ensures var os := AllStatuses(FromSet(s, ops).cs, row);
      && Clean(os) == (forall op <- ops :: OpUsable(s, op))
      && (Clean(os) ==> Conj(os) == (forall op <- ops :: OpTruth(s, op, row)))
      && (os != []) == (exists op <- ops :: OpPuts(s, op))
  {
    if ops != [] {
      FromSetIs(s, ops[1..], row);
      assert forall op :: op in ops <==> op == ops[0] || op in ops[1..];
      var rest := FromSet(s, ops[1..]).cs;
      if ops[0] !in s {
        AbsentIs(s, ops[0], row);
      } else {
        var c := Fields(ops[0], s[ops[0]]);
        assert FromSet(s, ops).cs == [c] + rest;
        FieldsAre(s, ops[0], row);
        StatusesAppend([c], rest, row);
        OneStatus(c, row);
        CleanAppend(Statuses(c, row), AllStatuses(rest, row));
      }
    }
  }

  lemma OneStatus(c: Comparable, row: Row)
    ensures AllStatuses([c], row) == Statuses(c, row)
  {
    hide Statuses;
    assert AllStatuses([c], row) == Statuses(c, row) + AllStatuses([], row);
  }

  /** The operators in order cover the field set. */
  lemma WholeSetIs(s: FieldSet, row: Row)
    requires FromSet(s, OP_ORDER).Ok?
    ensures var os := AllStatuses(FromSet(s, OP_ORDER).cs, row);
      && Clean(os) == SetUsable(s)
      && (Clean(os) ==> Conj(os) == SetTruth(s, row))
      && (os != []) == SetPuts(s)
  {
    var all := OP_ORDER;
    FromSetIs(s, all, row);
    AllOperators();
    SetIsByOperators(s, all, row);
  }

  lemma AllOperators()
    ensures forall op: Operator :: op in OP_ORDER
  {
    var all := OP_ORDER;
    forall op: Operator
      ensures op in all
    {
      assert all[Position(op)] == op;
    }
  }

  lemma SetIsByOperators(s: FieldSet, all: seq<Operator>, row: Row)
    requires forall op: Operator :: op in all
    ensures SetUsable(s) == forall op <- all :: OpUsable(s, op)
    ensures SetTruth(s, row) == forall op <- all :: OpTruth(s, op, row)
    ensures SetPuts(s) == exists op <- all :: OpPuts(s, op)
  {
    hide Lookup, Good, Holds, Puts;
    if SetPuts(s) {
      var op, f :| Puts(op, Lookup(s, op, f));
      assert op in all && OpPuts(s, op);
    }
    if forall op <- all :: OpUsable(s, op) {
      forall op: Operator, f: string
        ensures Good(op, Lookup(s, op, f))
      {
        assert op in all && OpUsable(s, op);
      }
    }
    if forall op <- all :: OpTruth(s, op, row) {
      forall op: Operator, f: string
        ensures Holds(op, f, Lookup(s, op, f), row)
      {
        assert op in all && OpTruth(s, op, row);
      }
    }
  }

  function Position(op: Operator): nat {
    match op
    case OpEq => 0
    case OpIn => 1
    case OpNe1 => 2
    case OpNe2 => 3
    case OpNotIn => 4
    case OpGt => 5
    case OpGte => 6
    case OpLt => 7
    case OpLte => 8
    case OpLike => 9
    case OpLikePercent => 10
    case OpNotLike => 11
    case OpBetween => 12
    case OpNotBetween => 13
    case OpNull => 14
  }

  // ----- the theorem

  /** What the scan has collected so far: statuses of the _or conditions and the field set. */
  ghost predicate Tells(s: FieldSet, done: seq<Comparable>, clean: bool, truth: bool, puts: bool, row: Row) {
    var os := AllStatuses(done, row);
    && (Clean(os) && SetUsable(s)) == clean
    && (clean ==> (Conj(os) && SetTruth(s, row)) == truth)
    && (os != [] || SetPuts(s)) == puts
  }

  lemma {:induction false} ScanTells(entries: seq<Entry>, ignore: set<string>,
      s: FieldSet, done: seq<Comparable>, clean: bool, truth: bool, puts: bool, row: Row)
    requires Scan(entries, ignore, s, done).Scanned?
    requires Consistent(entries, ignore) && FitsSet(s, entries, ignore)
    requires Tells(s, done, clean, truth, puts, row)
    ensures var r := Scan(entries, ignore, s, done);
      Tells(r.s, r.done, clean && Legible(entries, ignore), truth && Meaning(entries, ignore, row),
            puts || HasCondition(entries, ignore), row)
    decreases entries, 1
  {
    hide *;
    if entries == [] {
      NothingTells(ignore, s, done, row);
    } else {
      var e, rest := entries[0], entries[1..];
      FitsRest(s, entries, ignore);
      ScanTurn(entries, ignore, s, done);
      FirstTells(entries, ignore, row);
      if e.key in ignore {
        ScanTells(rest, ignore, s, done, clean, truth, puts, row);
      } else if IsOr(e) {
        var cs := Branches(e.val.ms, ignore).cs;
        var legible := HasBranch(e.val.ms) && BranchesLegible(e.val.ms, ignore);
        var meaning := AnyBranch(e.val.ms, ignore, row);
        OrIsConsistent(e, ignore);
        BranchesTell(e.val.ms, ignore, row);
        OrTells(s, done, cs, clean, truth, puts, legible, meaning, row);
        ScanTells(rest, ignore, s, done + [OrWhere(cs)], clean && legible, truth && meaning, true, row);
      } else {
        var n := Normalise(e.key, e.val);
        FitsAfterAdd(s, entries, ignore, n.op, n.field);
        FieldTells(s, done, n.op, n.field, e.val, clean, truth, puts, row);
        ScanTells(rest, ignore, Add(s, n.op, n.field, e.val), done,
                  clean && Good(n.op, Some(e.val)), truth && Holds(n.op, n.field, Some(e.val), row),
                  puts || Puts(n.op, Some(e.val)), row);
      }
    }
  }

  lemma NothingTells(ignore: set<string>, s: FieldSet, done: seq<Comparable>, row: Row)
    ensures Scan([], ignore, s, done) == Scanned(s, done)
    ensures Legible([], ignore) && Meaning([], ignore, row) && !HasCondition([], ignore)
  {
  }

  /** Where the scan goes from the first entry, if it does not fail. */
  lemma ScanTurn(entries: seq<Entry>, ignore: set<string>, s: FieldSet, done: seq<Comparable>)
    requires entries != [] && Scan(entries, ignore, s, done).Scanned?
    ensures var (e, rest, r) := (entries[0], entries[1..], Scan(entries, ignore, s, done));
      if e.key in ignore then r == Scan(rest, ignore, s, done)
      else if IsOr(e) then
        && e.val.Maps? && Branches(e.val.ms, ignore).Ok?
        && r == Scan(rest, ignore, s, done + [OrWhere(Branches(e.val.ms, ignore).cs)])
      else
        var n := Normalise(e.key, e.val);
        && n.Normal? && KeyOf(e, ignore) == Some((n.op, n.field))
        && r == Scan(rest, ignore, Add(s, n.op, n.field, e.val), done)
  {
    hide Branches, Normalise, Add;
  }

  /** What the first entry asks, means and puts. */
  lemma FirstTells(entries: seq<Entry>, ignore: set<string>, row: Row)
    requires entries != []
    ensures var (e, rest) := (entries[0], entries[1..]);
      var (legible, meaning, puts) := (EntryLegible(e, ignore), EntryMeaning(e, ignore, row), PutsCondition(e, ignore));
      && Legible(entries, ignore) == (legible && Legible(rest, ignore))
      && Meaning(entries, ignore, row) == (meaning && Meaning(rest, ignore, row))
      && HasCondition(entries, ignore) == (puts || HasCondition(rest, ignore))
      && if e.key in ignore then legible && meaning && !puts
         else if IsOr(e) then
           e.val.Maps? ==>
             && legible == (HasBranch(e.val.ms) && BranchesLegible(e.val.ms, ignore))
             && meaning == AnyBranch(e.val.ms, ignore, row) && puts
         else
           var n := Normalise(e.key, e.val);
           n.Normal? ==>
             && legible == Good(n.op, Some(e.val)) && meaning == Holds(n.op, n.field, Some(e.val), row)
             && puts == Puts(n.op, Some(e.val))
  {
    hide Normalise, HasBranch, BranchesLegible, AnyBranch, Usable, TestOf;
  }

  lemma OrIsConsistent(e: Entry, ignore: set<string>)
    requires EntryConsistent(e, ignore) && e.key !in ignore && IsOr(e) && e.val.Maps?
    ensures BranchesConsistent(e.val.ms, ignore)
  {
  }

  /** A field adds its condition to what has been collected. */
  lemma FieldTells(s: FieldSet, done: seq<Comparable>, op: Operator, field: string, v: Val,
      clean: bool, truth: bool, puts: bool, row: Row)
    requires Tells(s, done, clean, truth, puts, row) && NewOrSame(s, op, field, v)
    ensures Tells(Add(s, op, field, v), done, clean && Good(op, Some(v)), truth && Holds(op, field, Some(v), row),
                  puts || Puts(op, Some(v)), row)
  {
    AddIs(s, op, field, v, row);
    hide Add, Good, Holds, Puts, SetUsable, SetTruth, SetPuts;
  }

  /** An _or condition is one more status: the disjunction of its branches. */
  lemma OrTells(s: FieldSet, done: seq<Comparable>, cs: seq<Comparable>, clean: bool, truth: bool, puts: bool,
      legible: bool, meaning: bool, row: Row)
    requires Tells(s, done, clean, truth, puts, row)
    requires Fold(Or, AllStatuses(cs, row)) == if legible then Some(meaning) else None
    ensures Tells(s, done + [OrWhere(cs)], clean && legible, truth && meaning, true, row)
  {
    var c := OrWhere(cs);
    StatusesAppend(done, [c], row);
    OneStatus(c, row);
    CleanAppend(AllStatuses(done, row), Statuses(c, row));
    var one := [Fold(Or, AllStatuses(cs, row))];
    assert Statuses(c, row) == one;
    assert one[1..] == [];
    hide SetUsable, SetTruth, SetPuts, Fold, AllStatuses;
  }

  /** The branches of an _or, when there is one, are read as their disjunction. */
  lemma {:induction false} BranchesTell(ms: seq<Branch>, ignore: set<string>, row: Row)
    requires Branches(ms, ignore).Ok? && BranchesConsistent(ms, ignore)
    ensures var os := AllStatuses(Branches(ms, ignore).cs, row);
      && (os != []) == HasBranch(ms)
      && Clean(os) == BranchesLegible(ms, ignore)
      && (Clean(os) ==> Disj(os) == AnyBranch(ms, ignore, row))
      && Fold(Or, os) == if HasBranch(ms) && BranchesLegible(ms, ignore) then Some(AnyBranch(ms, ignore, row)) else None
    decreases ms, 0
  {
    FoldIs(AllStatuses(Branches(ms, ignore).cs, row));
    if ms == [] {
    } else if ms[0].NilMap? {
      BranchesTell(ms[1..], ignore, row);
    } else {
      var entries := ms[0].entries;
      var c := NestWhere(GetConditions(entries, ignore).cs);
      var more := Branches(ms[1..], ignore).cs;
      ConditionsTell(entries, ignore, row);
      BranchesTell(ms[1..], ignore, row);
      assert Branches(ms, ignore).cs == [c] + more;
      StatusesAppend([c], more, row);
      OneStatus(c, row);
      CleanAppend(Statuses(c, row), AllStatuses(more, row));
      var one := Statuses(c, row);
      assert one == [Fold(And, AllStatuses(GetConditions(entries, ignore).cs, row))] && one[1..] == [];
    }
  }

  /** The conditions of a map, joined by AND, are read as its meaning exactly when it is legible and
      puts a condition at all. */
  lemma {:induction false} ConditionsTell(entries: seq<Entry>, ignore: set<string>, row: Row)
    requires GetConditions(entries, ignore).Ok? && Consistent(entries, ignore)
    ensures var os := AllStatuses(GetConditions(entries, ignore).cs, row);
      && (os != []) == HasCondition(entries, ignore)
      && (os == [] ==> Legible(entries, ignore) && Meaning(entries, ignore, row))
      && Fold(And, os) == if HasCondition(entries, ignore) && Legible(entries, ignore)
                          then Some(Meaning(entries, ignore, row)) else None
    decreases entries, 2
  {
    EmptyTells(row);
    EmptyFits(entries, ignore);
    ScanTells(entries, ignore, map[], [], true, true, false, row);
    var r := Scan(entries, ignore, map[], []);
    var cs := FromSet(r.s, OP_ORDER).cs;
    assert GetConditions(entries, ignore).cs == r.done + cs;
    WholeSetIs(r.s, row);
    StatusesAppend(r.done, cs, row);
    CleanAppend(AllStatuses(r.done, row), AllStatuses(cs, row));
    FoldIs(AllStatuses(r.done + cs, row));
    hide AllStatuses, FromSet, SetUsable, SetTruth, SetPuts, Scan, Fold, Legible, Meaning, HasCondition;
  }

  lemma EmptyTells(row: Row)
    ensures Tells(map[], [], true, true, false, row)
  {
    assert forall op, f :: Lookup(map[], op, f) == None;
  }

  // ----- when it is refused

  ghost predicate SetSliced(s: FieldSet) { forall op, f :: Sliced(op, Lookup(s, op, f)) }

  /** Keys that name a field and a known operator, slices where the operator wants one, and lists of
      maps under _or, at every level. */
  predicate Valid(entries: seq<Entry>, ignore: set<string>)
    decreases entries, 1
  {
    entries != [] ==> EntryValid(entries[0], ignore) && Valid(entries[1..], ignore)
  }

  predicate EntryValid(e: Entry, ignore: set<string>)
    decreases e, 0
  {
    if e.key in ignore then true
    else if IsOr(e) then e.val.Maps? && BranchesValid(e.val.ms, ignore)
    else
      match Normalise(e.key, e.val)
      case Bad(_) => false
      case Normal(op, _) => Sliced(op, Some(e.val))
  }

  predicate BranchesValid(ms: seq<Branch>, ignore: set<string>)
    decreases ms, 0
  {
    ms != [] ==> (ms[0].Branch? ==> Valid(ms[0].entries, ignore)) && BranchesValid(ms[1..], ignore)
  }

  lemma {:induction false} ScanValid(entries: seq<Entry>, ignore: set<string>,
      s: FieldSet, done: seq<Comparable>)
    requires Consistent(entries, ignore) && FitsSet(s, entries, ignore)
    ensures var r := Scan(entries, ignore, s, done);
      (r.Scanned? && SetSliced(r.s)) == (Valid(entries, ignore) && SetSliced(s))
    decreases entries, 1
  {
    hide FitsSet, Consistent, SetSliced, Add, Lookup, AsSlice, WantsSlice;
    if entries != [] {
      var e, rest := entries[0], entries[1..];
      FitsRest(s, entries, ignore);
      if e.key in ignore {
        ScanValid(rest, ignore, s, done);
      } else if IsOr(e) {
        if e.val.Maps? {
          BranchesAreValid(e.val.ms, ignore);
          if BranchesValid(e.val.ms, ignore) {
            ScanValid(rest, ignore, s, done + [OrWhere(Branches(e.val.ms, ignore).cs)]);
          }
        }
      } else {
        var n := Normalise(e.key, e.val);
        if n.Normal? {
          FitsAfterAdd(s, entries, ignore, n.op, n.field);
          AddSliced(s, n.op, n.field, e.val);
          ScanValid(rest, ignore, Add(s, n.op, n.field, e.val), done);
        }
      }
    }
  }

  lemma AddSliced(s: FieldSet, op: Operator, field: string, v: Val)
    requires NewOrSame(s, op, field, v)
    ensures var t := Add(s, op, field, v);
      SetSliced(t) == (SetSliced(s) && Sliced(op, Some(v)))
  {
    LookupAdd(s, op, field, v);
    var t := Add(s, op, field, v);
    assert Sliced(op, None);
    hide Add, Lookup, Sliced, StatusOf;
    assert Lookup(t, op, field) == Some(v);
    if SetSliced(t) {
      forall o, f
        ensures Sliced(o, Lookup(s, o, f))
      {
        assert Sliced(o, Lookup(t, o, f));
      }
    }
  }

  lemma {:induction false} BranchesAreValid(ms: seq<Branch>, ignore: set<string>)
    requires BranchesConsistent(ms, ignore)
    ensures Branches(ms, ignore).Ok? == BranchesValid(ms, ignore)
    decreases ms, 0
  {
    if ms != [] {
      BranchesAreValid(ms[1..], ignore);
      if ms[0].Branch? {
        ConditionsAreValid(ms[0].entries, ignore);
      }
    }
  }

  lemma {:induction false} FromSetValid(s: FieldSet, ops: seq<Operator>)
    ensures FromSet(s, ops).Ok? == forall op <- ops, f :: Sliced(op, Lookup(s, op, f))
  {
    if ops != [] {
      FromSetValid(s, ops[1..]);
      assert forall op :: op in ops <==> op == ops[0] || op in ops[1..];
      OpSliced(s, ops[0]);
      hide Sliced, Lookup, WantsSlice;
    }
  }

  lemma OpSliced(s: FieldSet, op: Operator)
    ensures (op in s && WantsSlice(op) && exists f <- s[op] :: AsSlice(s[op][f]).None?)
      == exists f :: !Sliced(op, Lookup(s, op, f))
  {
    hide AsSlice;
    if op in s && WantsSlice(op) && exists f <- s[op] :: AsSlice(s[op][f]).None? {
      var f :| f in s[op] && AsSlice(s[op][f]).None?;
      assert !Sliced(op, Lookup(s, op, f));
    }
  }

  /** Conditions are built exactly for valid maps; everything else is an error. */
  lemma {:induction false} ConditionsAreValid(entries: seq<Entry>, ignore: set<string>)
    requires Consistent(entries, ignore)
    ensures GetConditions(entries, ignore).Ok? == Valid(entries, ignore)
    decreases entries, 2
  {
    assert SetSliced(map[]) by {
      assert forall op, f :: Lookup(map[], op, f) == None;
    }
    EmptyFits(entries, ignore);
    ScanValid(entries, ignore, map[], []);
    var r := Scan(entries, ignore, map[], []);
    if r.Scanned? {
      FromSetValid(r.s, OP_ORDER);
      AllOperators();
    }
  }

  // ----- BuildWhere

  /** The text and the values, or an error; no text when nothing puts a condition. */
  function WhereOf(cs: seq<Comparable>): Piece { Group(AllPieces(cs), And) }

  /** For every where-map in which entries for one operator and field say the same, at every depth,
      whatever its iteration order, and every row: conditions come out exactly for valid maps; there are
      as many placeholders as values; without a condition there is no text and the meaning is true; and
      otherwise the text with its values is read as the meaning of the map, up to the last lexeme and
      value, exactly when the map is legible; when it is not, the text is not a list of tests. */
  lemma WhereMeansTheMap(entries: seq<Entry>, ignore: set<string>, row: Row)
    requires Consistent(entries, ignore)
    ensures var r := GetConditions(entries, ignore);
      && (r.Ok? <==> Valid(entries, ignore))
      && (r.Ok? ==>
            var w := WhereOf(r.cs);
            && CountMarks(w.text) == |w.vals|
            && (!HasCondition(entries, ignore) <==> w.text == [])
            && (!HasCondition(entries, ignore) ==> w == Piece([], []) && Meaning(entries, ignore, row))
            && (HasCondition(entries, ignore) ==>
                  ReadOperand(w.text, w.vals, row) ==
                    if Legible(entries, ignore) then Some(Reading(Meaning(entries, ignore, row), [], [])) else None))
  {
    ConditionsAreValid(entries, ignore);
    var r := GetConditions(entries, ignore);
    if r.Ok? {
      ConditionsTell(entries, ignore, row);
      ConditionsRead(r.cs, row);
    }
    hide AllStatuses, Fold, Legible, Meaning, HasCondition, Valid, Consistent, GetConditions, ReadOperand, WhereOf;
  }

  /** Conditions as text: placeholders match values, and what is read is the fold of their statuses. */
  lemma ConditionsRead(cs: seq<Comparable>, row: Row)
    ensures var (w, os) := (WhereOf(cs), AllStatuses(cs, row));
      && CountMarks(w.text) == |w.vals|
      && (os == [] <==> w.text == []) && (os == [] ==> w == Piece([], []))
      && ReadOperand(w.text, w.vals, row) == AsReading(Fold(And, os), [], [])
  {
    var ps, os := AllPieces(cs), AllStatuses(cs, row);
    AllComparablesRead(cs, row);
    AllPiecesAligned(cs);
    GroupAligned(ps, And);
    GroupReads(ps, os, And, row);
    WholeReads(Group(ps, And), Fold(And, os), row);
    assert |ps| == |os|;
  }

  lemma WholeReads(p: Piece, o: Option<bool>, row: Row)
    requires Reads(p, o, row)
    ensures ReadOperand(p.text, p.vals, row) == AsReading(o, [], [])
  {
    assert p.text + [] == p.text && p.vals + [] == p.vals;
    assert Ends([]);
    assert ReadOperand(p.text + [], p.vals + [], row) == AsReading(o, [], []);
  }
}
