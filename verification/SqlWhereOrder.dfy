/** Where-maps and their iteration order: two listings of one map, at every depth, are read alike; and the
    fields collected are the same for every listing exactly when entries for one field agree. */
module SqlWhereOrder {
  import opened Common
  import opened Sql
  import opened SqlBuild
  import opened SqlWhere

  function Without(es: seq<Entry>, i: nat): seq<Entry>
    requires i < |es|
  {
    es[..i] + es[i + 1..]
  }

  // ----- listings of one map

  /** b lists the entries of a in another order, and so do the maps inside every _or. */
  predicate SameMap(a: seq<Entry>, b: seq<Entry>, ignore: set<string>)
    decreases a, 1
  {
    if a == [] then b == []
    else exists i | 0 <= i < |b| :: SameEntry(a[0], b[i], ignore) && SameMap(a[1..], Without(b, i), ignore)
  }

  predicate SameEntry(x: Entry, y: Entry, ignore: set<string>)
    decreases x, 0
  {
    && x.key == y.key
    && if x.key !in ignore && IsOr(x) && x.val.Maps? && y.val.Maps? then SameBranches(x.val.ms, y.val.ms, ignore)
       else x.val == y.val
  }

  predicate SameBranches(ms: seq<Branch>, ns: seq<Branch>, ignore: set<string>)
    decreases ms, 0
  {
    if ms == [] then ns == []
    else
      && ns != []
      && (if ms[0].Branch? && ns[0].Branch? then SameMap(ms[0].entries, ns[0].entries, ignore) else ms[0] == ns[0])
      && SameBranches(ms[1..], ns[1..], ignore)
  }

  lemma {:induction false} SameMapReflexive(a: seq<Entry>, ignore: set<string>)
    ensures SameMap(a, a, ignore)
    decreases a, 1
  {
    if a != [] {
      SameEntryReflexive(a[0], ignore);
      SameMapReflexive(a[1..], ignore);
      assert Without(a, 0) == a[1..];
    }
  }

  lemma {:induction false} SameEntryReflexive(x: Entry, ignore: set<string>)
    ensures SameEntry(x, x, ignore)
    decreases x, 0
  {
    if x.val.Maps? {
      SameBranchesReflexive(x.val.ms, ignore);
    }
  }

  lemma {:induction false} SameBranchesReflexive(ms: seq<Branch>, ignore: set<string>)
    ensures SameBranches(ms, ms, ignore)
    decreases ms, 0
  {
    if ms != [] {
      SameBranchesReflexive(ms[1..], ignore);
      if ms[0].Branch? {
        SameMapReflexive(ms[0].entries, ignore);
      }
    }
  }

  lemma WithoutOne(es: seq<Entry>, i: nat)
    requires i < |es|
    ensures multiset(Without(es, i)) == multiset(es) - multiset{es[i]}
  {
    assert es == es[..i] + [es[i]] + es[i + 1..];
  }

  /** Every permutation of the entries lists the same map. */
  lemma {:induction false} PermutationIsSameMap(a: seq<Entry>, b: seq<Entry>, ignore: set<string>)
    requires multiset(a) == multiset(b)
    ensures SameMap(a, b, ignore)
    decreases |a|
  {
    if a == [] {
      assert |b| == |multiset(b)| == |multiset(a)|;
    } else {
      assert a[0] in multiset(b);
      var i :| 0 <= i < |b| && b[i] == a[0];
      WithoutOne(a, 0);
      WithoutOne(b, i);
      assert Without(a, 0) == a[1..];
      SameEntryReflexive(a[0], ignore);
      PermutationIsSameMap(a[1..], Without(b, i), ignore);
    }
  }

  /** What is asked of all entries can be asked of one and of the others. */
  lemma {:induction false} OneAndTheOthers(es: seq<Entry>, i: nat, ignore: set<string>, row: Row)
    requires i < |es|
    ensures var e, rest := es[i], Without(es, i);
      && Meaning(es, ignore, row) == (EntryMeaning(e, ignore, row) && Meaning(rest, ignore, row))
      && Legible(es, ignore) == (EntryLegible(e, ignore) && Legible(rest, ignore))
      && HasCondition(es, ignore) == (PutsCondition(e, ignore) || HasCondition(rest, ignore))
      && Valid(es, ignore) == (EntryValid(e, ignore) && Valid(rest, ignore))
      && AllConsistent(es, ignore) == (EntryConsistent(e, ignore) && AllConsistent(rest, ignore))
  {
    hide EntryMeaning, EntryLegible, PutsCondition, EntryValid, EntryConsistent;
    if i == 0 {
      assert Without(es, i) == es[1..];
    } else {
      OneAndTheOthers(es[1..], i - 1, ignore, row);
      assert Without(es, i)[0] == es[0];
      assert Without(es, i)[1..] == Without(es[1..], i - 1);
    }
  }

  lemma OthersAndOne(es: seq<Entry>, i: nat)
    requires i < |es|
    ensures forall e :: e in es <==> e == es[i] || e in Without(es, i)
  {
    assert es == es[..i] + [es[i]] + es[i + 1..];
  }

  /** The two entries say the same about the same field. */
  predicate Twin(x: Entry, y: Entry, ignore: set<string>) {
    KeyOf(x, ignore) == KeyOf(y, ignore) && (KeyOf(x, ignore).Some? ==> x.val == y.val)
  }

  predicate HasTwins(a: seq<Entry>, b: seq<Entry>, ignore: set<string>) {
    forall x <- a :: exists y <- b :: Twin(x, y, ignore)
  }

  lemma {:induction false} SameMapHasTwins(a: seq<Entry>, b: seq<Entry>, ignore: set<string>)
    requires SameMap(a, b, ignore)
    ensures HasTwins(a, b, ignore) && HasTwins(b, a, ignore)
    decreases |a|
  {
    if a != [] {
      var i :| 0 <= i < |b| && SameEntry(a[0], b[i], ignore) && SameMap(a[1..], Without(b, i), ignore);
      SameMapHasTwins(a[1..], Without(b, i), ignore);
      assert Twin(a[0], b[i], ignore) && Twin(b[i], a[0], ignore);
      OthersAndOne(b, i);
      assert forall e :: e in a <==> e == a[0] || e in a[1..];
      hide Twin, SameMap, SameEntry;
    }
  }

  lemma TwinsAlike(a: seq<Entry>, b: seq<Entry>, ignore: set<string>)
    requires PairsAlike(a, ignore) && HasTwins(b, a, ignore)
    ensures PairsAlike(b, ignore)
  {
    hide KeyOf, SaysSame;
    forall x, y | x in b && y in b
      ensures Alike(x, y, ignore)
    {
      var v :| v in a && Twin(x, v, ignore);
      var w :| w in a && Twin(y, w, ignore);
      assert Alike(v, w, ignore);
    }
  }

  /** Whatever is said of a where-map does not depend on the listing. */
  lemma {:induction false} SameMapAlike(a: seq<Entry>, b: seq<Entry>, ignore: set<string>, row: Row)
    requires SameMap(a, b, ignore)
    ensures Meaning(a, ignore, row) == Meaning(b, ignore, row) && Legible(a, ignore) == Legible(b, ignore)
    ensures HasCondition(a, ignore) == HasCondition(b, ignore) && Valid(a, ignore) == Valid(b, ignore)
    ensures AllConsistent(a, ignore) == AllConsistent(b, ignore)
    decreases a, 1
  {
    if a != [] {
      var i :| 0 <= i < |b| && SameEntry(a[0], b[i], ignore) && SameMap(a[1..], Without(b, i), ignore);
      SameEntryAlike(a[0], b[i], ignore, row);
      SameMapAlike(a[1..], Without(b, i), ignore, row);
      OneAndTheOthers(b, i, ignore, row);
      hide EntryMeaning, EntryLegible, PutsCondition, EntryValid, EntryConsistent, SameMap, SameEntry;
    }
  }

  lemma SameMapConsistent(a: seq<Entry>, b: seq<Entry>, ignore: set<string>)
    requires SameMap(a, b, ignore)
    ensures Consistent(a, ignore) == Consistent(b, ignore)
    decreases a, 2
  {
    SameMapAlike(a, b, ignore, t => true);
    SameMapHasTwins(a, b, ignore);
    if PairsAlike(a, ignore) {
      TwinsAlike(a, b, ignore);
    }
    if PairsAlike(b, ignore) {
      TwinsAlike(b, a, ignore);
    }
    hide PairsAlike, AllConsistent;
  }

  lemma {:induction false} SameEntryAlike(x: Entry, y: Entry, ignore: set<string>, row: Row)
    requires SameEntry(x, y, ignore)
    ensures EntryMeaning(x, ignore, row) == EntryMeaning(y, ignore, row)
    ensures EntryLegible(x, ignore) == EntryLegible(y, ignore)
    ensures PutsCondition(x, ignore) == PutsCondition(y, ignore) && EntryValid(x, ignore) == EntryValid(y, ignore)
    ensures EntryConsistent(x, ignore) == EntryConsistent(y, ignore)
    decreases x, 0
  {
    if x.key !in ignore && IsOr(x) && x.val.Maps? && y.val.Maps? {
      SameBranchesAlike(x.val.ms, y.val.ms, ignore, row);
    } else {
      assert x == y;
    }
  }

  lemma {:induction false} SameBranchesAlike(ms: seq<Branch>, ns: seq<Branch>, ignore: set<string>, row: Row)
    requires SameBranches(ms, ns, ignore)
    ensures AnyBranch(ms, ignore, row) == AnyBranch(ns, ignore, row) && HasBranch(ms) == HasBranch(ns)
    ensures BranchesLegible(ms, ignore) == BranchesLegible(ns, ignore)
    ensures BranchesValid(ms, ignore) == BranchesValid(ns, ignore)
    ensures BranchesConsistent(ms, ignore) == BranchesConsistent(ns, ignore)
    decreases ms, 0
  {
    if ms != [] {
      SameBranchesAlike(ms[1..], ns[1..], ignore, row);
      if ms[0].Branch? && ns[0].Branch? {
        SameMapAlike(ms[0].entries, ns[0].entries, ignore, row);
        SameMapConsistent(ms[0].entries, ns[0].entries, ignore);
      }
    }
  }

  /** Two listings of one map, different at any depth, whose entries agree: if one gives conditions, so does
      the other, and both are read alike on every row. */
  lemma OrderDoesNotMatter(a: seq<Entry>, b: seq<Entry>, ignore: set<string>, row: Row)
    requires SameMap(a, b, ignore) && Consistent(a, ignore) && Valid(a, ignore)
    ensures var v, w := GetConditions(a, ignore), GetConditions(b, ignore);
      && v.Ok? && w.Ok?
      && ReadOperand(WhereOf(v.cs).text, WhereOf(v.cs).vals, row)
        == ReadOperand(WhereOf(w.cs).text, WhereOf(w.cs).vals, row)
  {
    SameMapAlike(a, b, ignore, row);
    SameMapConsistent(a, b, ignore);
    WhereMeansTheMap(a, ignore, row);
    WhereMeansTheMap(b, ignore, row);
    hide *;
  }

  // ----- the fields collected

  predicate Agree(a: Entry, b: Entry, ignore: set<string>) {
    KeyOf(a, ignore).Some? && KeyOf(a, ignore) == KeyOf(b, ignore) ==> a.val == b.val
  }

  /** Any two entries with the same operator and field carry the same value. */
  predicate PairsAgree(entries: seq<Entry>, ignore: set<string>) {
    forall a, b | a in entries && b in entries :: Agree(a, b, ignore)
  }

  /** What the loop over the entries collects under operators and fields. */
  function FieldsOf(es: seq<Entry>, ignore: set<string>): FieldSet {
    match Scan(es, ignore, map[], [])
    case Scanned(s, _) => s
    case Failed(_) => map[]
  }

  /** The value of the last entry for an operator and field. */
  function LastValue(es: seq<Entry>, ignore: set<string>, op: Operator, f: string): Option<Val> {
    if es == [] then None
    else
      var later := LastValue(es[1..], ignore, op, f);
      if later.Some? then later
      else if KeyOf(es[0], ignore) == Some((op, f)) then Some(es[0].val)
      else None
  }

  function Latest(s: FieldSet, last: Option<Val>, op: Operator, f: string): Option<Val> {
    if last.Some? then last else Lookup(s, op, f)
  }

  /** The entry does not stop the loop. */
  predicate Collects(e: Entry, ignore: set<string>) {
    e.key in ignore ||
    if IsOr(e) then e.val.Maps? && Branches(e.val.ms, ignore).Ok? else Normalise(e.key, e.val).Normal?
  }

  predicate AllCollect(es: seq<Entry>, ignore: set<string>) { forall e <- es :: Collects(e, ignore) }

  /** No operator stands without fields. */
  predicate NoneEmpty(s: FieldSet) { forall op <- s :: s[op] != map[] }

  lemma CollectRest(es: seq<Entry>, ignore: set<string>)
    requires es != []
    ensures AllCollect(es, ignore) <==> Collects(es[0], ignore) && AllCollect(es[1..], ignore)
  {
    hide Collects;
    assert forall x :: x in es <==> x == es[0] || x in es[1..];
  }

  lemma AddKeepsNoneEmpty(s: FieldSet, op: Operator, field: string, v: Val)
    requires NoneEmpty(s)
    ensures NoneEmpty(Add(s, op, field, v))
  {
    assert field in Add(s, op, field, v)[op];
  }

  lemma {:induction false} ScanCollects(es: seq<Entry>, ignore: set<string>, s: FieldSet, done: seq<Comparable>,
      op: Operator, f: string)
    requires NoneEmpty(s)
    ensures var r := Scan(es, ignore, s, done);
      && (r.Scanned? <==> AllCollect(es, ignore))
      && (r.Scanned? ==> NoneEmpty(r.s) && Lookup(r.s, op, f) == Latest(s, LastValue(es, ignore, op, f), op, f))
    decreases |es|
  {
    hide NoneEmpty, Add, Lookup, AllCollect, Branches, Normalise;
    if es == [] {
      assert AllCollect(es, ignore) by { NothingCollects(ignore); }
    } else {
      var e, rest := es[0], es[1..];
      CollectRest(es, ignore);
      if e.key in ignore {
        ScanCollects(rest, ignore, s, done, op, f);
      } else if IsOr(e) {
        if Collects(e, ignore) {
          ScanCollects(rest, ignore, s, done + [OrWhere(Branches(e.val.ms, ignore).cs)], op, f);
        }
      } else if Collects(e, ignore) {
        var n := Normalise(e.key, e.val);
        AddKeepsNoneEmpty(s, n.op, n.field, e.val);
        LookupAdd(s, n.op, n.field, e.val);
        ScanCollects(rest, ignore, Add(s, n.op, n.field, e.val), done, op, f);
      }
    }
  }

  lemma NothingCollects(ignore: set<string>)
    ensures AllCollect([], ignore)
  {
  }

  lemma SameLookups(s: FieldSet, t: FieldSet)
    requires NoneEmpty(s) && NoneEmpty(t) && forall op, f :: Lookup(s, op, f) == Lookup(t, op, f)
    ensures s == t
  {
    forall op
      ensures op in s <==> op in t
    {
      if op in s {
        var f :| f in s[op];
        assert Lookup(s, op, f).Some?;
      }
      if op in t {
        var f :| f in t[op];
        assert Lookup(t, op, f).Some?;
      }
    }
    forall op | op in s
      ensures s[op] == t[op]
    {
      forall f
        ensures f in s[op] <==> f in t[op]
        ensures f in s[op] ==> s[op][f] == t[op][f]
      {
        assert Lookup(s, op, f) == Lookup(t, op, f);
      }
    }
  }

  lemma FieldsAreLast(es: seq<Entry>, ignore: set<string>, op: Operator, f: string)
    requires AllCollect(es, ignore)
    ensures NoneEmpty(FieldsOf(es, ignore)) && Lookup(FieldsOf(es, ignore), op, f) == LastValue(es, ignore, op, f)
  {
    ScanCollects(es, ignore, map[], [], op, f);
  }

  lemma {:induction false} LastValueIs(es: seq<Entry>, ignore: set<string>, op: Operator, f: string)
    ensures match LastValue(es, ignore, op, f)
      case Some(v) => exists e <- es :: KeyOf(e, ignore) == Some((op, f)) && e.val == v
      case None => forall e <- es :: KeyOf(e, ignore) != Some((op, f))
  {
    hide KeyOf;
    if es != [] {
      LastValueIs(es[1..], ignore, op, f);
      assert forall x :: x in es <==> x == es[0] || x in es[1..];
    }
  }

  lemma {:induction false} LastValueOfLast(es: seq<Entry>, e: Entry, ignore: set<string>, op: Operator, f: string)
    requires KeyOf(e, ignore) == Some((op, f))
    ensures LastValue(es + [e], ignore, op, f) == Some(e.val)
  {
    hide KeyOf;
    if es == [] {
      assert es + [e] == [e] && [e][1..] == [];
    } else {
      assert (es + [e])[1..] == es[1..] + [e];
      LastValueOfLast(es[1..], e, ignore, op, f);
    }
  }

  lemma MovedLast(es: seq<Entry>, e: Entry) returns (p: seq<Entry>)
    requires e in es
    ensures multiset(p + [e]) == multiset(es)
  {
    var i :| 0 <= i < |es| && es[i] == e;
    p := Without(es, i);
    WithoutOne(es, i);
  }

  lemma SameElements(a: seq<Entry>, b: seq<Entry>)
    requires multiset(a) == multiset(b)
    ensures forall e :: e in a <==> e in b
  {
    forall e
      ensures e in a <==> e in b
    {
      assert e in a <==> e in multiset(a);
      assert e in b <==> e in multiset(b);
    }
  }

  lemma AgreeingOrdersAlike(a: seq<Entry>, b: seq<Entry>, ignore: set<string>)
    requires AllCollect(a, ignore) && PairsAgree(a, ignore) && multiset(a) == multiset(b)
    ensures FieldsOf(b, ignore) == FieldsOf(a, ignore)
  {
    SameElements(a, b);
    assert AllCollect(b, ignore);
    hide Collects, KeyOf, FieldsOf, Lookup, NoneEmpty;
    forall op, f
      ensures Lookup(FieldsOf(a, ignore), op, f) == Lookup(FieldsOf(b, ignore), op, f)
      ensures NoneEmpty(FieldsOf(a, ignore)) && NoneEmpty(FieldsOf(b, ignore))
    {
      FieldsAreLast(a, ignore, op, f);
      FieldsAreLast(b, ignore, op, f);
      LastValueIs(a, ignore, op, f);
      LastValueIs(b, ignore, op, f);
      hide LastValue;
      if LastValue(a, ignore, op, f).Some? {
        var x :| x in a && KeyOf(x, ignore) == Some((op, f)) && LastValue(a, ignore, op, f) == Some(x.val);
        var y :| y in b && KeyOf(y, ignore) == Some((op, f)) && LastValue(b, ignore, op, f) == Some(y.val);
        assert Agree(x, y, ignore);
      }
    }
    assert NoneEmpty(FieldsOf(a, ignore)) by { FieldsAreLast(a, ignore, OpEq, ""); }
    assert NoneEmpty(FieldsOf(b, ignore)) by { FieldsAreLast(b, ignore, OpEq, ""); }
    SameLookups(FieldsOf(a, ignore), FieldsOf(b, ignore));
  }

  /** For every map whose entries are collected: all iteration orders collect the same fields if and only if
      any two entries with the same operator and field carry the same value. */
  lemma OrderFreeIffPairsAgree(a: seq<Entry>, ignore: set<string>)
    requires Scan(a, ignore, map[], []).Scanned?
    ensures (forall b | multiset(b) == multiset(a) :: FieldsOf(b, ignore) == FieldsOf(a, ignore))
      <==> PairsAgree(a, ignore)
  {
    AllCollectIsScanned(a, ignore);
    if PairsAgree(a, ignore) {
      forall b | multiset(b) == multiset(a)
        ensures FieldsOf(b, ignore) == FieldsOf(a, ignore)
      {
        AgreeingOrdersAlike(a, b, ignore);
      }
    } else {
      var x, y :| x in a && y in a && !Agree(x, y, ignore);
      DisagreeingOrdersDiffer(a, x, y, ignore);
    }
  }

  lemma DisagreeingOrdersDiffer(a: seq<Entry>, x: Entry, y: Entry, ignore: set<string>)
    requires AllCollect(a, ignore) && x in a && y in a && !Agree(x, y, ignore)
    ensures exists b :: multiset(b) == multiset(a) && FieldsOf(b, ignore) != FieldsOf(a, ignore)
  {
    var (op, f) := KeyOf(x, ignore).value;
    var p := MovedLast(a, x);
    var q := MovedLast(a, y);
    SameElements(a, p + [x]);
    SameElements(a, q + [y]);
    hide Collects, KeyOf, FieldsOf, Lookup, NoneEmpty;
    FieldsAreLast(p + [x], ignore, op, f);
    FieldsAreLast(q + [y], ignore, op, f);
    LastValueOfLast(p, x, ignore, op, f);
    LastValueOfLast(q, y, ignore, op, f);
    assert FieldsOf(p + [x], ignore) != FieldsOf(q + [y], ignore);
  }

  /** The entries are collected exactly when none of them stops the loop. */
  lemma AllCollectIsScanned(es: seq<Entry>, ignore: set<string>)
    ensures Scan(es, ignore, map[], []).Scanned? <==> AllCollect(es, ignore)
  {
    ScanCollects(es, ignore, map[], [], OpEq, "");
  }

  /** Such a map: the keys "a" and "a =" name the same field and operator. */
  lemma ClashDependsOnOrder(v: int, w: int)
    requires v != w
    ensures var clash := [Entry("a", Num(v)), Entry("a =", Num(w))];
      exists b :: multiset(b) == multiset(clash) && FieldsOf(b, IGNORED) != FieldsOf(clash, IGNORED)
  {
    var x, y := Entry("a", Num(v)), Entry("a =", Num(w));
    PlainKey(Num(v));
    KeyWithEq(Num(w));
    assert !IsOr(x) && !IsOr(y) && x.key !in IGNORED && y.key !in IGNORED;
    var clash := [x, y];
    assert KeyOf(x, IGNORED) == KeyOf(y, IGNORED) == Some((OpEq, "a"));
    assert Collects(x, IGNORED) && Collects(y, IGNORED);
    assert forall e <- clash :: e == x || e == y;
    assert AllCollect(clash, IGNORED) && !Agree(x, y, IGNORED);
    hide *;
    assert x in clash && y in clash;
    DisagreeingOrdersDiffer(clash, x, y, IGNORED);
  }

  lemma PlainKey(v: Val)
    requires !v.Slice? && !v.Maps? && !v.Null?
    ensures Normalise("a", v) == Normal(OpEq, "a")
  {
    assert TrimSpaces("a") == "a" && SpaceAt("a", 0) == 1;
    assert "="[1..] == "" && ToLower("=") == "=";
  }

  lemma KeyWithEq(v: Val)
    requires !v.Null?
    ensures Normalise("a =", v) == Normal(OpEq, "a")
  {
    assert TrimSpaces("a =") == "a =" && SpaceAt("a =", 0) == 1;
    assert "a ="[2..] == "=" && TrimSpaces("=") == "=" && SpaceAt("=", 1) == 1 && RemoveInnerSpace("=") == "=";
    assert "="[1..] == "" && ToLower("=") == "=";
  }
}
