/** Which maps are read alike in every iteration order, when they hold no _or: for each operator and field all
    entries come to the same test, or some operator and field has only values it cannot use. */
module SqlWhereAlike {
  import opened Common
  import opened Sql
  import opened SqlBuild
  import opened SqlWhere
  import opened SqlWhereOrder

  /** What the text of a map says of a row: true without a condition, nothing when it cannot be read. */
  function ReadsAs(es: seq<Entry>, ignore: set<string>, row: Row): Option<bool> {
    match GetConditions(es, ignore)
    case Err(_) => None
    case Ok(cs) =>
      var w := WhereOf(cs);
      if w.text == [] then Some(true)
      else
        match ReadOperand(w.text, w.vals, row)
        case None => None
        case Some(r) => Some(r.truth)
  }

  /** No entry is an _or. */
  predicate Flat(es: seq<Entry>, ignore: set<string>) { forall e <- es :: e.key in ignore || !IsOr(e) }

  predicate EachValid(es: seq<Entry>, ignore: set<string>) { forall e <- es :: EntryValid(e, ignore) }

  // ----- reading a map without _or

  lemma {:induction false} FlatScan(es: seq<Entry>, ignore: set<string>, s: FieldSet, done: seq<Comparable>)
    requires Flat(es, ignore) && Scan(es, ignore, s, done).Scanned?
    ensures Scan(es, ignore, s, done).done == done
    decreases |es|
  {
    if es == [] {
      NothingTells(ignore, s, done, t => true);
    } else {
      ScanTurn(es, ignore, s, done);
      var e, rest := es[0], es[1..];
      assert e in es && Flat(rest, ignore);
      hide Scan, Normalise, Branches;
      if e.key in ignore {
        FlatScan(rest, ignore, s, done);
      } else {
        var n := Normalise(e.key, e.val);
        FlatScan(rest, ignore, Add(s, n.op, n.field, e.val), done);
      }
    }
  }

  lemma EntryCollects(e: Entry, ignore: set<string>)
    requires EntryValid(e, ignore) && (e.key in ignore || !IsOr(e))
    ensures Collects(e, ignore)
    ensures KeyOf(e, ignore).Some? ==> Sliced(KeyOf(e, ignore).value.0, Some(e.val))
  {
    hide Branches;
  }

  /** Every order is accepted, whatever value wins. */
  lemma FlatIsAccepted(es: seq<Entry>, ignore: set<string>)
    requires Flat(es, ignore) && EachValid(es, ignore)
    ensures AllCollect(es, ignore)
    ensures GetConditions(es, ignore) == FromSet(FieldsOf(es, ignore), OP_ORDER)
    ensures GetConditions(es, ignore).Ok?
  {
    forall e <- es
      ensures Collects(e, ignore)
      ensures KeyOf(e, ignore).Some? ==> Sliced(KeyOf(e, ignore).value.0, Some(e.val))
    {
      EntryCollects(e, ignore);
    }
    AllCollectIsScanned(es, ignore);
    FlatScan(es, ignore, map[], []);
    var s := FieldsOf(es, ignore);
    forall op, f
      ensures Sliced(op, Lookup(s, op, f))
    {
      FieldsAreLast(es, ignore, op, f);
      LastValueIs(es, ignore, op, f);
    }
    FromSetValid(s, OP_ORDER);
    NothingAddedTo(FromSet(s, OP_ORDER));
    hide FromSet, Scan;
  }

  lemma NothingAddedTo(r: Conditions)
    ensures r.Ok? ==> Ok([] + r.cs) == r
  {
  }

  /** What a field set is read as. */
  ghost function SetReads(s: FieldSet, row: Row): Option<bool> {
    if SetUsable(s) then Some(SetTruth(s, row)) else None
  }

  /** What conditions with these readings are read as. */
  function FoldRead(os: seq<Option<bool>>): Option<bool> { if Clean(os) then Some(Conj(os)) else None }

  lemma WhereReads(cs: seq<Comparable>, row: Row)
    ensures var w := WhereOf(cs);
      FoldRead(AllStatuses(cs, row))
        == if w.text == [] then Some(true)
           else
             match ReadOperand(w.text, w.vals, row)
             case None => None
             case Some(r) => Some(r.truth)
  {
    var os := AllStatuses(cs, row);
    assert Clean([]) && Conj([]);
    hide AllStatuses, WhereOf, ReadOperand, Fold, Clean, Conj, CountMarks;
    ConditionsRead(cs, row);
    FoldIs(os);
  }

  lemma SetReadsIs(s: FieldSet, row: Row)
    requires FromSet(s, OP_ORDER).Ok?
    ensures FoldRead(AllStatuses(FromSet(s, OP_ORDER).cs, row)) == SetReads(s, row)
  {
    hide AllStatuses, FromSet, SetUsable, SetTruth, SetPuts, Clean, Conj;
    WholeSetIs(s, row);
  }

  lemma FlatReads(es: seq<Entry>, ignore: set<string>, row: Row)
    requires Flat(es, ignore) && EachValid(es, ignore)
    ensures ReadsAs(es, ignore, row) == SetReads(FieldsOf(es, ignore), row)
  {
    hide AllStatuses, WhereOf, FromSet, SetReads, GetConditions, ReadOperand, FieldsOf, FoldRead, Flat, EachValid,
      AllCollect;
    FlatIsAccepted(es, ignore);
    var s := FieldsOf(es, ignore);
    WhereReads(FromSet(s, OP_ORDER).cs, row);
    SetReadsIs(s, row);
  }

  // ----- orders that are read alike

  lemma AlikeLast(a: seq<Entry>, b: seq<Entry>, ignore: set<string>, op: Operator, f: string, row: Row)
    requires PairsAlike(a, ignore) && multiset(a) == multiset(b)
    ensures var (v, w) := (LastValue(a, ignore, op, f), LastValue(b, ignore, op, f));
      Good(op, v) == Good(op, w) && Holds(op, f, v, row) == Holds(op, f, w, row)
  {
    SameElements(a, b);
    LastValueIs(a, ignore, op, f);
    LastValueIs(b, ignore, op, f);
    hide LastValue, KeyOf, SaysSame, Good, Holds;
    if LastValue(a, ignore, op, f).Some? {
      var x :| x in a && KeyOf(x, ignore) == Some((op, f)) && LastValue(a, ignore, op, f) == Some(x.val);
      var y :| y in b && KeyOf(y, ignore) == Some((op, f)) && LastValue(b, ignore, op, f) == Some(y.val);
      assert Alike(x, y, ignore);
      SameIsSame(op, f, x.val, y.val, row);
    }
  }

  lemma AlikeReads(a: seq<Entry>, b: seq<Entry>, ignore: set<string>, row: Row)
    requires AllCollect(a, ignore) && AllCollect(b, ignore) && PairsAlike(a, ignore) && multiset(a) == multiset(b)
    ensures SetReads(FieldsOf(a, ignore), row) == SetReads(FieldsOf(b, ignore), row)
  {
    var s, t := FieldsOf(a, ignore), FieldsOf(b, ignore);
    hide Good, Holds, FieldsOf, Lookup, LastValue, PairsAlike, AllCollect;
    forall op, f
      ensures Good(op, Lookup(s, op, f)) == Good(op, Lookup(t, op, f))
      ensures Holds(op, f, Lookup(s, op, f), row) == Holds(op, f, Lookup(t, op, f), row)
    {
      FieldsAreLast(a, ignore, op, f);
      FieldsAreLast(b, ignore, op, f);
      AlikeLast(a, b, ignore, op, f, row);
    }
  }

  /** The entry names the field with the operator, which cannot use its value. */
  predicate Spoils(e: Entry, ignore: set<string>) {
    match KeyOf(e, ignore)
    case None => false
    case Some((op, f)) => StatusOf(op, f, e.val) == Unusable
  }

  /** All entries for some operator and field have values that it cannot use. */
  ghost predicate SomeFieldSpoilt(es: seq<Entry>, ignore: set<string>) {
    exists x <- es :: KeyOf(x, ignore).Some?
      && forall y <- es :: KeyOf(y, ignore) == KeyOf(x, ignore) ==> Spoils(y, ignore)
  }

  lemma SpoiltIsUnreadable(a: seq<Entry>, b: seq<Entry>, ignore: set<string>, row: Row)
    requires AllCollect(b, ignore) && SomeFieldSpoilt(a, ignore) && multiset(a) == multiset(b)
    ensures SetReads(FieldsOf(b, ignore), row) == None
  {
    SameElements(a, b);
    var x :| x in a && KeyOf(x, ignore).Some?
      && forall y <- a :: KeyOf(y, ignore) == KeyOf(x, ignore) ==> Spoils(y, ignore);
    var (op, f) := KeyOf(x, ignore).value;
    FieldsAreLast(b, ignore, op, f);
    LastValueIs(b, ignore, op, f);
    hide KeyOf, FieldsOf, LastValue, Lookup;
    assert !Good(op, Lookup(FieldsOf(b, ignore), op, f));
  }

  // ----- orders that are not

  /** The other operator that makes the same tests of a field, if there is one. */
  function Partner(op: Operator): Operator {
    match op
    case OpNe1 => OpNe2
    case OpNe2 => OpNe1
    case OpLike => OpLikePercent
    case OpLikePercent => OpLike
    case _ => op
  }

  lemma SameTest(op: Operator, f: string, v: Val, o: Operator, g: string, w: Val)
    requires TestOf(op, f, v) == TestOf(o, g, w)
    ensures g == f && (o == op || o == Partner(op))
  {
    hide Elements;
  }

  /** The row on which one test fails and all others hold. */
  function Failing(t: Test): Row { x => x != t }

  /** Where the test fails, the set is false because of some field with that test. */
  lemma FailingField(s: FieldSet, t: Test) returns (o: Operator, g: string)
    requires SetUsable(s) && !SetTruth(s, Failing(t))
    ensures Lookup(s, o, g).Some? && StatusOf(o, g, Lookup(s, o, g).value) == Tests(t)
  {
    o, g :| !Holds(o, g, Lookup(s, o, g), Failing(t));
    assert Good(o, Lookup(s, o, g));
    hide Usable, TestOf, PassedOver;
  }

  lemma FalseOnFailing(s: FieldSet, op: Operator, f: string, t: Test)
    requires Lookup(s, op, f).Some? && StatusOf(op, f, Lookup(s, op, f).value) == Tests(t)
    ensures !SetTruth(s, Failing(t))
  {
    assert !Holds(op, f, Lookup(s, op, f), Failing(t));
  }

  /** The two sets differ only at one operator and field, and nothing else spoils them. */
  ghost predicate DifferAt(s: FieldSet, t: FieldSet, op: Operator, f: string, v: Val, w: Val) {
    && Lookup(s, op, f) == Some(v) && Lookup(t, op, f) == Some(w)
    && forall o, g | o != op || g != f :: Lookup(s, o, g) == Lookup(t, o, g) && Good(o, Lookup(s, o, g))
  }

  lemma UsableAt(s: FieldSet, t: FieldSet, op: Operator, f: string, v: Val, w: Val)
    requires DifferAt(s, t, op, f, v, w)
    ensures SetUsable(s) <==> StatusOf(op, f, v) != Unusable
    ensures SetUsable(t) <==> StatusOf(op, f, w) != Unusable
  {
    assert Good(op, Lookup(s, op, f)) <==> StatusOf(op, f, v) != Unusable;
    assert Good(op, Lookup(t, op, f)) <==> StatusOf(op, f, w) != Unusable;
    hide Good, Lookup, StatusOf;
    assert SetUsable(s) <==> Good(op, Lookup(s, op, f));
    assert SetUsable(t) <==> Good(op, Lookup(t, op, f));
  }

  /** A test that only one of them makes of the field tells the sets apart, unless the partner of the
      operator makes it too. */
  lemma TestTells(s: FieldSet, t: FieldSet, op: Operator, f: string, v: Val, w: Val, x: Test)
    requires DifferAt(s, t, op, f, v, w) && SetUsable(s) && SetUsable(t)
    requires StatusOf(op, f, v) == Tests(x) && StatusOf(op, f, w) != Tests(x)
    ensures SetReads(s, Failing(x)) == Some(false)
    ensures SetReads(t, Failing(x)) == Some(true)
      || (Partner(op) != op && Lookup(t, Partner(op), f).Some?
          && StatusOf(Partner(op), f, Lookup(t, Partner(op), f).value) == Tests(x))
  {
    FalseOnFailing(s, op, f, x);
    if !SetTruth(t, Failing(x)) {
      var o, g := FailingField(t, x);
      SameTest(op, f, v, o, g, Lookup(t, o, g).value);
    }
    hide SetUsable, SetTruth;
  }

  lemma DifferBack(s: FieldSet, t: FieldSet, op: Operator, f: string, v: Val, w: Val)
    requires DifferAt(s, t, op, f, v, w)
    ensures DifferAt(t, s, op, f, w, v)
  {
    hide Good, Lookup;
  }

  /** Two statuses of one field are told apart by some row. */
  lemma StatusTells(s: FieldSet, t: FieldSet, op: Operator, f: string, v: Val, w: Val) returns (row: Row)
    requires DifferAt(s, t, op, f, v, w) && StatusOf(op, f, v) != StatusOf(op, f, w)
    ensures SetReads(s, row) != SetReads(t, row)
  {
    var x, y := StatusOf(op, f, v), StatusOf(op, f, w);
    UsableAt(s, t, op, f, v, w);
    DifferBack(s, t, op, f, v, w);
    OverIsNull(op, f, v);
    OverIsNull(op, f, w);
    hide SetUsable, SetTruth, StatusOf;
    if x == Unusable || y == Unusable {
      row := _ => true;
    } else if x.Tests? {
      TestTells(s, t, op, f, v, w, x.t);
      row := Failing(x.t);
      if SetReads(t, row) != Some(true) {
        assert y.Tests?;
        TestTells(t, s, op, f, w, v, y.t);
        row := Failing(y.t);
      }
    } else {
      TestTells(t, s, op, f, w, v, y.t);
      row := Failing(y.t);
    }
  }

  lemma OverIsNull(op: Operator, f: string, v: Val)
    ensures StatusOf(op, f, v) == Over ==> Partner(op) == op
  {
  }

  // ----- an order for every choice

  /** The entries that spoil, or those that do not. */
  function Picked(es: seq<Entry>, ignore: set<string>, spoiling: bool): seq<Entry> {
    if es == [] then []
    else (if Spoils(es[0], ignore) == spoiling then [es[0]] else []) + Picked(es[1..], ignore, spoiling)
  }

  lemma {:induction false} PickedIs(es: seq<Entry>, ignore: set<string>, spoiling: bool)
    ensures forall e :: e in Picked(es, ignore, spoiling) <==> e in es && Spoils(e, ignore) == spoiling
  {
    hide Spoils;
    if es != [] {
      PickedIs(es[1..], ignore, spoiling);
      assert forall x :: x in es <==> x == es[0] || x in es[1..];
    }
  }

  lemma {:induction false} PickedAll(es: seq<Entry>, ignore: set<string>)
    ensures multiset(Picked(es, ignore, true)) + multiset(Picked(es, ignore, false)) == multiset(es)
  {
    hide Spoils;
    if es != [] {
      PickedAll(es[1..], ignore);
      assert es == [es[0]] + es[1..];
    }
  }

  lemma {:induction false} LastValueAppend(a: seq<Entry>, b: seq<Entry>, ignore: set<string>, op: Operator, f: string)
    ensures var later := LastValue(b, ignore, op, f);
      LastValue(a + b, ignore, op, f) == if later.Some? then later else LastValue(a, ignore, op, f)
  {
    hide KeyOf;
    if a == [] {
      NothingAdded(b);
    } else {
      TailOfSum(a, b);
      LastValueAppend(a[1..], b, ignore, op, f);
    }
  }

  lemma LastValueOfOne(e: Entry, ignore: set<string>, op: Operator, f: string)
    ensures LastValue([e], ignore, op, f) == if KeyOf(e, ignore) == Some((op, f)) then Some(e.val) else None
  {
    hide KeyOf;
    assert LastValue([e][1..], ignore, op, f) == None;
  }

  /** Putting an entry last makes its value win, and leaves the other fields alone. */
  lemma LastValueMoved(es: seq<Entry>, i: nat, ignore: set<string>, op: Operator, f: string)
    requires i < |es|
    ensures LastValue(Without(es, i) + [es[i]], ignore, op, f) ==
      if KeyOf(es[i], ignore) == Some((op, f)) then Some(es[i].val) else LastValue(es, ignore, op, f)
  {
    hide KeyOf, LastValue;
    var a, e, b := es[..i], es[i], es[i + 1..];
    LastValueAppend(a + b, [e], ignore, op, f);
    LastValueAppend(a, b, ignore, op, f);
    LastValueAppend(a + [e], b, ignore, op, f);
    LastValueAppend(a, [e], ignore, op, f);
    LastValueOfOne(e, ignore, op, f);
    assert a + [e] + b == es;
  }

  /** The order with spoiling entries first: where a field has another entry, that one wins. */
  lemma UsableLast(es: seq<Entry>, ignore: set<string>) returns (u: seq<Entry>)
    requires !SomeFieldSpoilt(es, ignore)
    ensures multiset(u) == multiset(es)
    ensures forall op, f :: Good(op, LastValue(u, ignore, op, f))
  {
    var bad, good := Picked(es, ignore, true), Picked(es, ignore, false);
    u := bad + good;
    PickedAll(es, ignore);
    PickedIs(es, ignore, true);
    PickedIs(es, ignore, false);
    forall op, f
      ensures Good(op, LastValue(u, ignore, op, f))
    {
      LastIsGood(es, bad, good, ignore, op, f);
    }
  }

  lemma LastIsGood(es: seq<Entry>, bad: seq<Entry>, good: seq<Entry>, ignore: set<string>, op: Operator, f: string)
    requires !SomeFieldSpoilt(es, ignore)
    requires forall e :: e in bad <==> e in es && Spoils(e, ignore)
    requires forall e :: e in good <==> e in es && !Spoils(e, ignore)
    ensures Good(op, LastValue(bad + good, ignore, op, f))
  {
    LastValueAppend(bad, good, ignore, op, f);
    LastValueIs(bad, ignore, op, f);
    LastValueIs(good, ignore, op, f);
    hide LastValue, KeyOf, SomeFieldSpoilt;
    if LastValue(bad, ignore, op, f).Some? {
      var x :| x in bad && KeyOf(x, ignore) == Some((op, f));
      var y := Unspoilt(es, x, ignore);
      assert y in good && KeyOf(y, ignore) == Some((op, f));
    }
  }

  lemma Unspoilt(es: seq<Entry>, x: Entry, ignore: set<string>) returns (y: Entry)
    requires !SomeFieldSpoilt(es, ignore) && x in es && KeyOf(x, ignore).Some?
    ensures y in es && KeyOf(y, ignore) == KeyOf(x, ignore) && !Spoils(y, ignore)
  {
    hide KeyOf, Spoils;
    y :| y in es && KeyOf(y, ignore) == KeyOf(x, ignore) && !Spoils(y, ignore);
  }

  /** An entry put last in an order of all the others. */
  lemma Moved(a: seq<Entry>, u: seq<Entry>, x: Entry, ignore: set<string>) returns (i: nat)
    requires multiset(u) == multiset(a) && x in a && Flat(a, ignore) && EachValid(a, ignore)
    ensures i < |u| && u[i] == x
    ensures var p := Without(u, i) + [x];
      multiset(p) == multiset(a) && Flat(p, ignore) && EachValid(p, ignore)
  {
    SameElements(a, u);
    i :| 0 <= i < |u| && u[i] == x;
    WithoutOne(u, i);
    SameElements(a, Without(u, i) + [x]);
  }

  /** Two entries for one field that do not say the same, each last in an order of its own. */
  lemma DisagreeingReadDiffer(a: seq<Entry>, ignore: set<string>, x: Entry, y: Entry)
    returns (p: seq<Entry>, q: seq<Entry>, row: Row)
    requires EachValid(a, ignore) && Flat(a, ignore) && !SomeFieldSpoilt(a, ignore)
    requires x in a && y in a && !Alike(x, y, ignore)
    ensures multiset(p) == multiset(a) && multiset(q) == multiset(a)
    ensures ReadsAs(p, ignore, row) != ReadsAs(q, ignore, row)
  {
    hide *;
    KeysMeet(x, y, ignore, a);
    var (op, f) := KeyOf(x, ignore).value;
    var u := UsableLast(a, ignore);
    var i := Moved(a, u, x, ignore);
    var j := Moved(a, u, y, ignore);
    p, q := Without(u, i) + [x], Without(u, j) + [y];
    MovedDiffer(u, i, j, ignore, op, f);
    row := StatusTells(FieldsOf(p, ignore), FieldsOf(q, ignore), op, f, x.val, y.val);
    FlatReads(p, ignore, row);
    FlatReads(q, ignore, row);
  }

  lemma KeysMeet(x: Entry, y: Entry, ignore: set<string>, a: seq<Entry>)
    requires !Alike(x, y, ignore) && x in a && y in a && EachValid(a, ignore) && Flat(a, ignore)
    ensures KeyOf(x, ignore).Some? && KeyOf(y, ignore) == KeyOf(x, ignore)
    ensures var (op, f) := KeyOf(x, ignore).value; StatusOf(op, f, x.val) != StatusOf(op, f, y.val)
  {
    EntryCollects(x, ignore);
    EntryCollects(y, ignore);
    hide StatusOf, KeyOf;
  }

  lemma MovedLookup(u: seq<Entry>, i: nat, ignore: set<string>, op: Operator, f: string, o: Operator, g: string)
    requires i < |u| && KeyOf(u[i], ignore) == Some((op, f))
    requires Flat(Without(u, i) + [u[i]], ignore) && EachValid(Without(u, i) + [u[i]], ignore)
    ensures Lookup(FieldsOf(Without(u, i) + [u[i]], ignore), o, g)
         == if o == op && g == f then Some(u[i].val) else LastValue(u, ignore, o, g)
  {
    hide *;
    FlatIsAccepted(Without(u, i) + [u[i]], ignore);
    FieldsAreLast(Without(u, i) + [u[i]], ignore, o, g);
    LastValueMoved(u, i, ignore, o, g);
  }

  lemma MovedDiffer(u: seq<Entry>, i: nat, j: nat, ignore: set<string>, op: Operator, f: string)
    requires i < |u| && j < |u| && KeyOf(u[i], ignore) == KeyOf(u[j], ignore) == Some((op, f))
    requires Flat(Without(u, i) + [u[i]], ignore) && EachValid(Without(u, i) + [u[i]], ignore)
    requires Flat(Without(u, j) + [u[j]], ignore) && EachValid(Without(u, j) + [u[j]], ignore)
    requires forall o, g :: Good(o, LastValue(u, ignore, o, g))
    ensures DifferAt(FieldsOf(Without(u, i) + [u[i]], ignore), FieldsOf(Without(u, j) + [u[j]], ignore),
                     op, f, u[i].val, u[j].val)
  {
    hide Good, Lookup, LastValue, KeyOf, FieldsOf, EachValid, Flat, Without;
    var s, t := FieldsOf(Without(u, i) + [u[i]], ignore), FieldsOf(Without(u, j) + [u[j]], ignore);
    forall o, g
      ensures Lookup(s, o, g) == if o == op && g == f then Some(u[i].val) else LastValue(u, ignore, o, g)
      ensures Lookup(t, o, g) == if o == op && g == f then Some(u[j].val) else LastValue(u, ignore, o, g)
    {
      MovedLookup(u, i, ignore, op, f, o, g);
      MovedLookup(u, j, ignore, op, f, o, g);
    }
  }

  /** For every accepted map without _or: all its iteration orders are read alike on every row if and only if
      entries for one operator and field say the same, or some operator and field has only values that it
      cannot use, so that nothing can be read in any order. */
  lemma ReadAlikeIff(a: seq<Entry>, ignore: set<string>)
    requires Flat(a, ignore) && EachValid(a, ignore)
    ensures (forall b, row | multiset(b) == multiset(a) :: ReadsAs(b, ignore, row) == ReadsAs(a, ignore, row))
      <==> PairsAlike(a, ignore) || SomeFieldSpoilt(a, ignore)
  {
    if PairsAlike(a, ignore) || SomeFieldSpoilt(a, ignore) {
      forall b, row | multiset(b) == multiset(a)
        ensures ReadsAs(b, ignore, row) == ReadsAs(a, ignore, row)
      {
        OrdersReadAlike(a, b, ignore, row);
      }
    } else {
      var x, y :| x in a && y in a && !Alike(x, y, ignore);
      var p, q, row := DisagreeingReadDiffer(a, ignore, x, y);
    }
  }

  lemma OrdersReadAlike(a: seq<Entry>, b: seq<Entry>, ignore: set<string>, row: Row)
    requires Flat(a, ignore) && EachValid(a, ignore) && multiset(b) == multiset(a)
    requires PairsAlike(a, ignore) || SomeFieldSpoilt(a, ignore)
    ensures ReadsAs(b, ignore, row) == ReadsAs(a, ignore, row)
  {
    SameElements(a, b);
    assert Flat(b, ignore) && EachValid(b, ignore);
    FlatIsAccepted(a, ignore);
    FlatIsAccepted(b, ignore);
    FlatReads(a, ignore, row);
    FlatReads(b, ignore, row);
    if PairsAlike(a, ignore) {
      AlikeReads(a, b, ignore, row);
    } else {
      SpoiltIsUnreadable(a, a, ignore, row);
      SpoiltIsUnreadable(a, b, ignore, row);
    }
    hide *;
  }
}
