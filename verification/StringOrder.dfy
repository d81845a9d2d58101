/** The lexicographic order of strings, and the keys of a map in that order. */
module StringOrder {

  predicate Less(a: string, b: string) {
    b != [] && (a == [] || a[0] < b[0] || (a[0] == b[0] && Less(a[1..], b[1..])))
  }

  lemma {:induction false} Total(a: string, b: string)
    ensures a == b || Less(a, b) || Less(b, a)
  {
    if a != [] && b != [] && a[0] == b[0] {
      Total(a[1..], b[1..]);
      assert a == [a[0]] + a[1..] && b == [b[0]] + b[1..];
    }
  }

  lemma {:induction false} Asymmetric(a: string, b: string)
    requires Less(a, b)
    ensures !Less(b, a) && a != b
  {
    if a != [] && a[0] == b[0] {
      Asymmetric(a[1..], b[1..]);
    }
  }

  lemma {:induction false} Transitive(a: string, b: string, c: string)
    requires Less(a, b) && Less(b, c)
    ensures Less(a, c)
  {
    if a != [] && a[0] == b[0] == c[0] {
      Transitive(a[1..], b[1..], c[1..]);
    }
  }

  /** At k the strings part: they agree before it, and there a ends or has the smaller rune. */
  ghost predicate PartsAt(a: string, b: string, k: nat) {
    k <= |a| && k < |b| && a[..k] == b[..k] && (k == |a| || a[k] < b[k])
  }

  /** The lower string ends first, or has the smaller rune where the two first differ. */
  lemma {:induction false} LessIs(a: string, b: string)
    ensures Less(a, b) <==> exists k :: PartsAt(a, b, k)
    decreases |a|
  {
    if Less(a, b) {
      var k := LessParts(a, b);
    }
    forall k | PartsAt(a, b, k)
      ensures Less(a, b)
    {
      PartsLess(a, b, k);
    }
  }

  lemma {:induction false} LessParts(a: string, b: string) returns (k: nat)
    requires Less(a, b)
    ensures PartsAt(a, b, k)
  {
    k := 0;
    if a != [] && a[0] == b[0] {
      var n := LessParts(a[1..], b[1..]);
      k := n + 1;
      assert a[..k] == [a[0]] + a[1..][..n] && b[..k] == [b[0]] + b[1..][..n];
    }
  }

  lemma {:induction false} PartsLess(a: string, b: string, k: nat)
    requires PartsAt(a, b, k)
    ensures Less(a, b)
    decreases k
  {
    if k > 0 {
      assert a[0] == a[..k][0] && b[0] == b[..k][0];
      assert a[1..][..k - 1] == a[..k][1..] && b[1..][..k - 1] == b[..k][1..];
      PartsLess(a[1..], b[1..], k - 1);
    }
  }

  predicate IsLeast(x: string, s: set<string>) { x in s && forall y <- s :: y == x || Less(x, y) }

  lemma {:induction false} LeastExists(s: set<string>) returns (x: string)
    requires s != {}
    ensures IsLeast(x, s)
    decreases |s|
  {
    x :| x in s;
    var rest := s - {x};
    if rest != {} {
      var y := LeastExists(rest);
      Total(x, y);
      if Less(y, x) {
        x := y;
      } else {
        forall z <- s | z != x
          ensures Less(x, z)
        {
          if z != y {
            Transitive(x, y, z);
          }
        }
      }
    }
  }

  lemma LeastIsUnique(x: string, y: string, s: set<string>)
    requires IsLeast(x, s) && IsLeast(y, s)
    ensures x == y
  {
    if x != y {
      Asymmetric(x, y);
    }
  }

  function Least(s: set<string>): (x: string)
    requires s != {}
    ensures IsLeast(x, s)
  {
    assert exists x :: x in s && IsLeast(x, s) by { var x := LeastExists(s); assert x in s && IsLeast(x, s); }
    assert forall x, y | x in s && IsLeast(x, s) && y in s && IsLeast(y, s) :: x == y by {
      forall x, y | IsLeast(x, s) && IsLeast(y, s) ensures x == y { LeastIsUnique(x, y, s); }
    }
    var x :| x in s && IsLeast(x, s);
    x
  }

  /** The keys of a map, collected in any order and sorted by sort.Strings: each once, in order. */
  function SortedKeys(s: set<string>): (ks: seq<string>)
    ensures |ks| == |s| && forall k :: k in ks <==> k in s
    ensures forall i, j | 0 <= i < j < |ks| :: Less(ks[i], ks[j])
    decreases |s|
  {
    if s == {} then [] else var x := Least(s); [x] + SortedKeys(s - {x})
  }
}
