/** The weighted edit distance of pkg/xphp2go/string.go, computed there with two swapped rows. */
module Levenshtein {

  type Bytes = seq<bv8>

  const MAX_LEN: nat := 255

  datatype Costs = Costs(ins: int, rep: int, del: int)

  /** An alignment reads both strings from left to right; Pair sets one byte against one byte. */
  datatype Op = Insert | Delete | Pair

  /** ops lines up exactly the first i bytes of one string with the first j of the other. */
  predicate Aligns(ops: seq<Op>, i: nat, j: nat)
    decreases |ops|
  {
    if ops == [] then i == 0 && j == 0
    else
      var rest := ops[..|ops| - 1];
      match ops[|ops| - 1]
      case Insert => j > 0 && Aligns(rest, i, j - 1)
      case Delete => i > 0 && Aligns(rest, i - 1, j)
      case Pair => i > 0 && j > 0 && Aligns(rest, i - 1, j - 1)
  }

  function PairCost(x: bv8, y: bv8, c: Costs): int { if x == y then 0 else c.rep }

  function Cost(a: Bytes, b: Bytes, c: Costs, ops: seq<Op>, i: nat, j: nat): int
    requires i <= |a| && j <= |b| && Aligns(ops, i, j)
    decreases |ops|
  {
    if ops == [] then 0
    else
      var rest := ops[..|ops| - 1];
      match ops[|ops| - 1]
      case Insert => Cost(a, b, c, rest, i, j - 1) + c.ins
      case Delete => Cost(a, b, c, rest, i - 1, j) + c.del
      case Pair => Cost(a, b, c, rest, i - 1, j - 1) + (if a[i - 1] == b[j - 1] then 0 else c.rep)
  }

  function Min(x: int, y: int): int { if y < x then y else x }

  /** Entry (i, j) of the full table. */
  function Table(a: Bytes, b: Bytes, c: Costs, i: nat, j: nat): int
    requires i <= |a| && j <= |b|
  {
    if i == 0 && j == 0 then 0
    else if i == 0 then Table(a, b, c, 0, j - 1) + c.ins
    else if j == 0 then Table(a, b, c, i - 1, 0) + c.del
    else
      Min(Min(Table(a, b, c, i - 1, j - 1) + PairCost(a[i - 1], b[j - 1], c),
              Table(a, b, c, i - 1, j) + c.del),
          Table(a, b, c, i, j - 1) + c.ins)
  }

  /** r is the least cost of lining up the first i bytes of a with the first j bytes of b. */
  ghost predicate IsLeastCost(a: Bytes, b: Bytes, c: Costs, i: nat, j: nat, r: int)
    requires i <= |a| && j <= |b|
  {
    && (forall ops | Aligns(ops, i, j) :: r <= Cost(a, b, c, ops, i, j))
    && (exists ops :: Aligns(ops, i, j) && Cost(a, b, c, ops, i, j) == r)
  }

  lemma {:induction false} TableIsLowerBound(a: Bytes, b: Bytes, c: Costs, ops: seq<Op>, i: nat, j: nat)
    requires i <= |a| && j <= |b| && Aligns(ops, i, j)
    ensures Table(a, b, c, i, j) <= Cost(a, b, c, ops, i, j)
    decreases |ops|
  {
    if ops != [] {
      var rest := ops[..|ops| - 1];
      match ops[|ops| - 1]
      case Insert =>
        TableIsLowerBound(a, b, c, rest, i, j - 1);
      case Delete =>
        TableIsLowerBound(a, b, c, rest, i - 1, j);
      case Pair =>
        TableIsLowerBound(a, b, c, rest, i - 1, j - 1);
    }
  }

  lemma TableEntry(a: Bytes, b: Bytes, c: Costs, i: nat, j: nat)
    requires i <= |a| && j <= |b|
    ensures Table(a, b, c, i, j) ==
      if i == 0 && j == 0 then 0
      else if i == 0 then Table(a, b, c, 0, j - 1) + c.ins
      else if j == 0 then Table(a, b, c, i - 1, 0) + c.del
      else Min(Min(Table(a, b, c, i - 1, j - 1) + PairCost(a[i - 1], b[j - 1], c), Table(a, b, c, i - 1, j) + c.del),
               Table(a, b, c, i, j - 1) + c.ins)
  {
  }

  lemma InsertLast(a: Bytes, b: Bytes, c: Costs, rest: seq<Op>, i: nat, j: nat)
    requires i <= |a| && 0 < j <= |b| && Aligns(rest, i, j - 1)
    ensures Aligns(rest + [Insert], i, j)
    ensures Cost(a, b, c, rest + [Insert], i, j) == Cost(a, b, c, rest, i, j - 1) + c.ins
  {
    var ops := rest + [Insert];
    assert ops[..|ops| - 1] == rest;
  }

  lemma DeleteLast(a: Bytes, b: Bytes, c: Costs, rest: seq<Op>, i: nat, j: nat)
    requires 0 < i <= |a| && j <= |b| && Aligns(rest, i - 1, j)
    ensures Aligns(rest + [Delete], i, j)
    ensures Cost(a, b, c, rest + [Delete], i, j) == Cost(a, b, c, rest, i - 1, j) + c.del
  {
    var ops := rest + [Delete];
    assert ops[..|ops| - 1] == rest;
  }

  lemma PairLast(a: Bytes, b: Bytes, c: Costs, rest: seq<Op>, i: nat, j: nat)
    requires 0 < i <= |a| && 0 < j <= |b| && Aligns(rest, i - 1, j - 1)
    ensures Aligns(rest + [Pair], i, j)
    ensures Cost(a, b, c, rest + [Pair], i, j)
         == Cost(a, b, c, rest, i - 1, j - 1) + PairCost(a[i - 1], b[j - 1], c)
  {
    var ops := rest + [Pair];
    assert ops[..|ops| - 1] == rest;
  }

  lemma NothingAligned(a: Bytes, b: Bytes, c: Costs)
    ensures Aligns([], 0, 0) && Cost(a, b, c, [], 0, 0) == 0
  {
  }

  lemma {:induction false} TableIsAttained(a: Bytes, b: Bytes, c: Costs, i: nat, j: nat) returns (ops: seq<Op>)
    requires i <= |a| && j <= |b|
    ensures Aligns(ops, i, j) && Cost(a, b, c, ops, i, j) == Table(a, b, c, i, j)
    decreases i + j
  {
    hide Aligns, Cost, Table, PairCost;
    TableEntry(a, b, c, i, j);
    var t := Table(a, b, c, i, j);
    if i == 0 && j == 0 {
      NothingAligned(a, b, c);
      ops := [];
    } else if i > 0 && j > 0 && t == Table(a, b, c, i - 1, j - 1) + PairCost(a[i - 1], b[j - 1], c) {
      var rest := TableIsAttained(a, b, c, i - 1, j - 1);
      PairLast(a, b, c, rest, i, j);
      ops := rest + [Pair];
    } else if i > 0 && t == Table(a, b, c, i - 1, j) + c.del {
      var rest := TableIsAttained(a, b, c, i - 1, j);
      DeleteLast(a, b, c, rest, i, j);
      ops := rest + [Delete];
    } else {
      var rest := TableIsAttained(a, b, c, i, j - 1);
      InsertLast(a, b, c, rest, i, j);
      ops := rest + [Insert];
    }
  }

  /** The table holds least costs, for every choice of costs, negative ones included. */
  lemma TableIsLeastCost(a: Bytes, b: Bytes, c: Costs, i: nat, j: nat)
    requires i <= |a| && j <= |b|
    ensures IsLeastCost(a, b, c, i, j, Table(a, b, c, i, j))
  {
    var ops := TableIsAttained(a, b, c, i, j);
    forall ops | Aligns(ops, i, j)
      ensures Table(a, b, c, i, j) <= Cost(a, b, c, ops, i, j)
    {
      TableIsLowerBound(a, b, c, ops, i, j);
    }
  }

  lemma {:induction false} TopEntry(a: Bytes, b: Bytes, c: Costs, j: nat)
    requires j <= |b|
    ensures Table(a, b, c, 0, j) == j * c.ins
  {
    if j > 0 {
      TopEntry(a, b, c, j - 1);
    }
  }

  lemma {:induction false} LeftColumn(a: Bytes, b: Bytes, c: Costs, i: nat)
    requires i <= |a|
    ensures Table(a, b, c, i, 0) == i * c.del
  {
    if i > 0 {
      LeftColumn(a, b, c, i - 1);
    }
  }

  /** Row i of the full table. */
  ghost function Row(a: Bytes, b: Bytes, c: Costs, i: nat): (row: seq<int>)
    requires i <= |a|
    ensures |row| == |b| + 1
  {
    seq(|b| + 1, j requires 0 <= j <= |b| => Table(a, b, c, i, j))
  }

  lemma RowCell(a: Bytes, b: Bytes, c: Costs, i: nat, j: nat)
    requires i < |a| && j < |b|
    ensures Row(a, b, c, i + 1)[0] == Row(a, b, c, i)[0] + c.del
    ensures Row(a, b, c, i + 1)[j + 1]
         == Min(Min(Row(a, b, c, i)[j] + PairCost(a[i], b[j], c), Row(a, b, c, i)[j + 1] + c.del),
                Row(a, b, c, i + 1)[j] + c.ins)
  {
  }

  lemma TopRow(a: Bytes, b: Bytes, c: Costs, j: nat)
    requires j <= |b|
    ensures Row(a, b, c, 0)[j] == j * c.ins
  {
    TopEntry(a, b, c, j);
  }

  /** One cell from the three around it. */
  method Cell(diagonal: int, above: int, left: int, x: bv8, y: bv8, c: Costs) returns (c0: int)
    ensures c0 == Min(Min(diagonal + PairCost(x, y, c), above + c.del), left + c.ins)
  {
    if x == y {
      c0 := diagonal;
    } else {
      c0 := diagonal + c.rep;
    }
    var c1 := above + c.del;
    if c1 < c0 {
      c0 := c1;
    }
    var c2 := left + c.ins;
    if c2 < c0 {
      c0 := c2;
    }
  }

  /** The two rows p1 and p2 swap after every byte of str1: before round i1, p1 is row i1. */
  method LastEntry(str1: Bytes, str2: Bytes, c: Costs) returns (c0: int)
    requires str1 != [] && str2 != []
    ensures c0 == Row(str1, str2, c, |str1|)[|str2|]
  {
    hide Row, Min, PairCost;
    var l1, l2 := |str1|, |str2|;
    var p1 := new int[l2 + 1];
    var p2 := new int[l2 + 1];
    for i2 := 0 to l2 + 1
      invariant p1[..i2] == Row(str1, str2, c, 0)[..i2]
    {
      TopRow(str1, str2, c, i2);
      p1[i2] := i2 * c.ins;
    }
    for i1 := 0 to l1
      invariant p1 != p2 && p1.Length == p2.Length == l2 + 1 && fresh(p1) && fresh(p2)
      invariant p1[..] == Row(str1, str2, c, i1)
    {
      ghost var row, next := Row(str1, str2, c, i1), Row(str1, str2, c, i1 + 1);
      RowCell(str1, str2, c, i1, 0);
      p2[0] := p1[0] + c.del;
      for i2 := 0 to l2
        invariant p1[..] == row
        invariant p2[..i2 + 1] == next[..i2 + 1]
      {
        RowCell(str1, str2, c, i1, i2);
        assert p2[i2] == p2[..i2 + 1][i2];
        c0 := Cell(p1[i2], p1[i2 + 1], p2[i2], str1[i1], str2[i2], c);
        p2[i2 + 1] := c0;
      }
      p1, p2 := p2, p1;
    }
    c0 := p1[l2];
  }

  /** The least cost over all alignments of two strings of at most 255 bytes; -1 when both are
      non-empty and one is longer. */
  method Levenshtein(str1: Bytes, str2: Bytes, costIns: int, costRep: int, costDel: int) returns (r: int)
    ensures (|str1| <= 255 && |str2| <= 255) || |str1| == 0 || |str2| == 0
        ==> IsLeastCost(str1, str2, Costs(costIns, costRep, costDel), |str1|, |str2|, r)
    ensures |str1| > 0 && |str2| > 0 && (|str1| > 255 || |str2| > 255) ==> r == -1
  {
    var c := Costs(costIns, costRep, costDel);
    TableIsLeastCost(str1, str2, c, |str1|, |str2|);
    if |str1| == 0 {
      TopEntry(str1, str2, c, |str2|);
      return |str2| * costIns;
    }
    if |str2| == 0 {
      LeftColumn(str1, str2, c, |str1|);
      return |str1| * costDel;
    }
    if |str1| > MAX_LEN || |str2| > MAX_LEN {
      return -1;
    }
    r := LastEntry(str1, str2, c);
  }

  // ----- the distance as a distance

  function Distance(a: Bytes, b: Bytes, c: Costs): int { Table(a, b, c, |a|, |b|) }

  lemma {:induction false} TableTransposed(a: Bytes, b: Bytes, c: Costs, i: nat, j: nat)
    requires i <= |a| && j <= |b|
    ensures Table(b, a, Costs(c.del, c.rep, c.ins), j, i) == Table(a, b, c, i, j)
    decreases i + j
  {
    hide Table;
    var c' := Costs(c.del, c.rep, c.ins);
    TableEntry(a, b, c, i, j);
    TableEntry(b, a, c', j, i);
    if i > 0 { TableTransposed(a, b, c, i - 1, j); }
    if j > 0 { TableTransposed(a, b, c, i, j - 1); }
    if i > 0 && j > 0 { TableTransposed(a, b, c, i - 1, j - 1); }
  }

  /** Turning one string into the other costs what the way back costs with insertion and
      deletion exchanged. */
  lemma DistanceReversed(a: Bytes, b: Bytes, c: Costs)
    ensures Distance(b, a, Costs(c.del, c.rep, c.ins)) == Distance(a, b, c)
  {
    TableTransposed(a, b, c, |a|, |b|);
  }

  lemma {:induction false} TableStep(a: Bytes, b: Bytes, c: Costs, i: nat, j: nat)
    requires i <= |a| && j <= |b|
    ensures i > 0 ==> Table(a, b, c, i, j) <= Table(a, b, c, i - 1, j) + c.del
    ensures j > 0 ==> Table(a, b, c, i, j) <= Table(a, b, c, i, j - 1) + c.ins
    ensures i > 0 && j > 0 ==> Table(a, b, c, i, j) <= Table(a, b, c, i - 1, j - 1) + PairCost(a[i - 1], b[j - 1], c)
  {
  }

  /** Some operation comes last in a cheapest alignment. */
  ghost predicate EndsWith(a: Bytes, b: Bytes, c: Costs, i: nat, j: nat, op: Op)
    requires i <= |a| && j <= |b|
  {
    match op
    case Insert => j > 0 && Table(a, b, c, i, j) == Table(a, b, c, i, j - 1) + c.ins
    case Delete => i > 0 && Table(a, b, c, i, j) == Table(a, b, c, i - 1, j) + c.del
    case Pair =>
      i > 0 && j > 0 && Table(a, b, c, i, j) == Table(a, b, c, i - 1, j - 1) + PairCost(a[i - 1], b[j - 1], c)
  }

  /** Against the empty string: all bytes inserted, or all deleted. */
  lemma {:induction false} EmptyCosts(a: Bytes, b: Bytes, c: Costs, i: nat)
    ensures i <= |b| ==> Table(a, b, c, 0, i) == i * c.ins
    ensures i <= |a| ==> Table(a, b, c, i, 0) == i * c.del
  {
    if i > 0 {
      EmptyCosts(a, b, c, i - 1);
    }
  }

  lemma LastOp(a: Bytes, b: Bytes, c: Costs, i: nat, j: nat) returns (op: Op)
    requires i <= |a| && j <= |b| && i + j > 0
    ensures EndsWith(a, b, c, i, j, op)
  {
    op := if j > 0 && Table(a, b, c, i, j) == Table(a, b, c, i, j - 1) + c.ins then Insert
          else if i > 0 && Table(a, b, c, i, j) == Table(a, b, c, i - 1, j) + c.del then Delete
          else Pair;
  }

  lemma {:induction false} TableTriangle(x: Bytes, y: Bytes, z: Bytes, c: Costs, i: nat, j: nat, k: nat)
    requires i <= |x| && j <= |y| && k <= |z|
    requires c.rep >= 0 && c.ins + c.del >= 0
    ensures Table(x, z, c, i, k) <= Table(x, y, c, i, j) + Table(y, z, c, j, k)
    decreases i + j + k
  {
    hide Table;
    if i + j > 0 && j + k > 0 {
      var p := LastOp(x, y, c, i, j);
      var q := LastOp(y, z, c, j, k);
      TableStep(x, z, c, i, k);
      if p.Delete? {
        TableTriangle(x, y, z, c, i - 1, j, k);
      } else if q.Insert? {
        TableTriangle(x, y, z, c, i, j, k - 1);
      } else {
        // The last byte of y is inserted or paired on the way there, and deleted or paired on the way on.
        var i', k' := if p.Insert? then i else i - 1, if q.Delete? then k else k - 1;
        TableTriangle(x, y, z, c, i', j - 1, k');
      }
    } else {
      TopEntry(x, z, c, k);
      TopEntry(y, z, c, k);
      LeftColumn(x, z, c, i);
      LeftColumn(x, y, c, i);
    }
  }

  /** Going through a third string is never cheaper. */
  lemma TriangleInequality(x: Bytes, y: Bytes, z: Bytes, c: Costs)
    requires c.rep >= 0 && c.ins + c.del >= 0
    ensures Distance(x, z, c) <= Distance(x, y, c) + Distance(y, z, c)
  {
    TableTriangle(x, y, z, c, |x|, |y|, |z|);
  }
}
