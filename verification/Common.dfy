/** What several components need: optional values, and facts about sequences. */
module Common {
  datatype Option<T> = None | Some(value: T)

  lemma Assoc<T>(a: seq<T>, b: seq<T>, c: seq<T>)
    ensures a + b + c == a + (b + c)
  {
  }

  lemma Whole<T>(s: seq<T>)
    ensures s[0..] == s && s[..|s|] == s && s[|s|..] == [] && s[..0] == []
  {
  }

  lemma NothingAdded<T>(s: seq<T>)
    ensures s + [] == s && [] + s == s
  {
  }

  lemma ToTheEnd<T>(s: seq<T>, i: nat)
    requires i <= |s|
    ensures s[i..|s|] == s[i..]
  {
  }

  lemma NextTail<T>(s: seq<T>, i: nat)
    requires i < |s|
    ensures s[i..] != [] && s[i..][0] == s[i] && s[i..][1..] == s[i + 1..]
  {
  }

  lemma SliceOfTail<T>(s: seq<T>, i: nat, k: nat)
    requires i + k <= |s|
    ensures s[i..][..k] == s[i..i + k]
  {
  }

  lemma TailOfTail<T>(s: seq<T>, i: nat, k: nat)
    requires i + k <= |s|
    ensures s[i..][k..] == s[i + k..]
  {
  }

  lemma TailOfSlice<T>(s: seq<T>, i: nat, end: nat, m: nat)
    requires i + m <= end <= |s|
    ensures s[i..end][m..] == s[i + m..end]
  {
  }

  lemma PrefixOfSlice<T>(s: seq<T>, i: nat, end: nat, k: nat)
    requires i + k <= end <= |s|
    ensures s[i..end][..k] == s[i..i + k]
  {
  }

  lemma TailOfPrefix<T>(s: seq<T>, end: nat, m: nat)
    requires m <= end <= |s|
    ensures s[..end][m..] == s[m..end]
  {
  }

  lemma PrefixAndMore<T>(s: seq<T>, a: nat, b: nat)
    requires a <= b <= |s|
    ensures s[..a] + s[a..b] == s[..b]
  {
  }

  lemma SliceAndMore<T>(s: seq<T>, a: nat, b: nat, c: nat)
    requires a <= b <= c <= |s|
    ensures s[a..b] + s[b..c] == s[a..c]
  {
  }

  lemma OneMore<T>(s: seq<T>, i: nat)
    requires i < |s|
    ensures s[..i] + [s[i]] == s[..i + 1]
  {
  }

  lemma FirstAndRest<T>(s: seq<T>)
    requires s != []
    ensures s == [s[0]] + s[1..]
  {
  }

  lemma CutAt<T>(s: seq<T>, k: nat)
    requires k <= |s|
    ensures s == s[..k] + s[k..]
  {
  }

  lemma TailAfter<T>(x: T, s: seq<T>)
    ensures ([x] + s)[0] == x && ([x] + s)[1..] == s
  {
  }

  lemma TailOfSum<T>(a: seq<T>, b: seq<T>)
    requires a != []
    ensures (a + b)[0] == a[0] && (a + b)[1..] == a[1..] + b
  {
  }

  lemma PrefixUpdated<T>(s: seq<T>, i: nat, x: T)
    requires i < |s|
    ensures s[i := x][..i + 1] == s[..i] + [x]
  {
  }

  lemma SlicesOfSum<T>(s: seq<T>, at: nat, a: seq<T>, b: seq<T>)
    requires at + |a| + |b| <= |s| && s[at..at + |a| + |b|] == a + b
    ensures s[at..at + |a|] == a && s[at + |a|..at + |a| + |b|] == b
  {
    var whole := a + b;
    assert whole[..|a|] == a && whole[|a|..] == b;
    PrefixOfSlice(s, at, at + |whole|, |a|);
    TailOfSlice(s, at, at + |whole|, |a|);
  }
}
