/** Strings as sequences of runes, and the Go string functions that the splitters use. */
module Text {
  import opened Common

  /** unicode.IsSpace. */
  predicate IsSpace(c: char) {
    || c in {'\t', '\n', '\U{0B}', '\U{0C}', '\r', ' ', '\U{85}', '\U{A0}', '\U{1680}'}
    || '\U{2000}' <= c <= '\U{200A}'
    || c in {'\U{2028}', '\U{2029}', '\U{202F}', '\U{205F}', '\U{3000}'}
  }

  /** strings.TrimSpace(s) == "". */
  predicate Blank(s: string) { forall c <- s :: IsSpace(c) }

  function TrimLeft(s: string): (r: string)
    ensures |r| <= |s| && r == s[|s| - |r|..]
    ensures r == "" || !IsSpace(r[0])
  {
    if s != "" && IsSpace(s[0]) then TrimLeft(s[1..]) else s
  }

  function TrimRight(s: string): (r: string)
    ensures |r| <= |s| && r == s[..|r|]
    ensures r == "" || !IsSpace(r[|r| - 1])
  {
    if s != "" && IsSpace(s[|s| - 1]) then TrimRight(s[..|s| - 1]) else s
  }

  function TrimSpace(s: string): (r: string)
    ensures |r| <= |s|
  {
    TrimRight(TrimLeft(s))
  }

  function Concat(ss: seq<string>): string {
    if ss == [] then "" else ss[0] + Concat(ss[1..])
  }

  /** strings.Join. */
  function Join(ss: seq<string>, sep: string): string {
    if ss == [] then "" else if |ss| == 1 then ss[0] else ss[0] + sep + Join(ss[1..], sep)
  }

  /** Where sep first occurs in s at or after i; |s| when it does not. */
  function IndexFrom(s: string, sep: string, i: nat): (at: nat)
    requires i <= |s| && sep != ""
    ensures i <= at <= |s|
    ensures at < |s| ==> at + |sep| <= |s| && s[at..at + |sep|] == sep
    decreases |s| - i
  {
    if i + |sep| > |s| then |s|
    else if s[i..i + |sep|] == sep then i
    else IndexFrom(s, sep, i + 1)
  }

  /** strings.Split for a non-empty separator. */
  function Split(s: string, sep: string): (parts: seq<string>)
    requires sep != ""
    ensures parts != []
    decreases |s|
  {
    var at := IndexFrom(s, sep, 0);
    if at == |s| then [s] else [s[..at]] + Split(s[at + |sep|..], sep)
  }

  // ----- what survives when white space and some separator runes do not matter

  function Essence(s: string, drop: set<char>): string {
    if s == "" then ""
    else (if IsSpace(s[0]) || s[0] in drop then "" else [s[0]]) + Essence(s[1..], drop)
  }

  /** Nothing in s survives. */
  predicate Dropped(s: string, drop: set<char>) {
    forall c <- s :: IsSpace(c) || c in drop
  }

  lemma {:induction false} EssenceAppend(a: string, b: string, drop: set<char>)
    ensures Essence(a + b, drop) == Essence(a, drop) + Essence(b, drop)
  {
    if a == "" {
      assert a + b == b;
    } else {
      assert (a + b)[1..] == a[1..] + b;
      EssenceAppend(a[1..], b, drop);
    }
  }

  lemma {:induction false} DroppedHasNoEssence(s: string, drop: set<char>)
    requires Dropped(s, drop)
    ensures Essence(s, drop) == ""
  {
    if s != "" {
      DroppedHasNoEssence(s[1..], drop);
    }
  }

  lemma {:induction false} EssenceTrimLeft(s: string, drop: set<char>)
    ensures Essence(TrimLeft(s), drop) == Essence(s, drop)
  {
    if s != "" && IsSpace(s[0]) {
      EssenceTrimLeft(s[1..], drop);
    }
  }

  lemma {:induction false} EssenceTrimRight(s: string, drop: set<char>)
    ensures Essence(TrimRight(s), drop) == Essence(s, drop)
  {
    if s != "" && IsSpace(s[|s| - 1]) {
      EssenceTrimRight(s[..|s| - 1], drop);
      assert s == s[..|s| - 1] + [s[|s| - 1]];
      EssenceAppend(s[..|s| - 1], [s[|s| - 1]], drop);
      DroppedHasNoEssence([s[|s| - 1]], drop);
    }
  }

  lemma EssenceTrim(s: string, drop: set<char>)
    ensures Essence(TrimSpace(s), drop) == Essence(s, drop)
  {
    EssenceTrimLeft(s, drop);
    EssenceTrimRight(TrimLeft(s), drop);
  }

  lemma {:induction false} ConcatAppend(a: seq<string>, b: seq<string>)
    ensures Concat(a + b) == Concat(a) + Concat(b)
  {
    if a == [] {
      assert a + b == b;
    } else {
      assert (a + b)[1..] == a[1..] + b;
      ConcatAppend(a[1..], b);
    }
  }

  /** strings.Join undoes strings.Split. */
  lemma {:induction false} JoinSplit(s: string, sep: string)
    requires sep != ""
    ensures Join(Split(s, sep), sep) == s
    decreases |s|
  {
    var at := IndexFrom(s, sep, 0);
    if at < |s| {
      var tail := s[at + |sep|..];
      JoinSplit(tail, sep);
      JoinFirst(s[..at], Split(tail, sep), sep);
      hide IndexFrom, Join;
      PrefixAndMore(s, at, at + |sep|);
      CutAt(s, at + |sep|);
    }
  }

  lemma JoinFirst(first: string, rest: seq<string>, sep: string)
    requires rest != []
    ensures Join([first] + rest, sep) == first + sep + Join(rest, sep)
  {
    TailAfter(first, rest);
  }

  /** Joining with runes that do not matter keeps what matters. */
  lemma {:induction false} EssenceJoin(ss: seq<string>, sep: string, drop: set<char>)
    requires Dropped(sep, drop)
    ensures Essence(Join(ss, sep), drop) == Essence(Concat(ss), drop)
  {
    if |ss| == 1 {
      assert Concat(ss[1..]) == "" && ss[0] + "" == ss[0];
    } else if |ss| > 1 {
      EssenceJoin(ss[1..], sep, drop);
      EssenceAppend(ss[0] + sep, Join(ss[1..], sep), drop);
      EssenceAppend(ss[0], sep, drop);
      EssenceAppend(ss[0], Concat(ss[1..]), drop);
      DroppedHasNoEssence(sep, drop);
    }
  }

  lemma EmptyIsBlank()
    ensures Blank("")
  {
  }

  lemma BlankFirst(s: string)
    requires s != ""
    ensures Blank(s) <==> IsSpace(s[0]) && Blank(s[1..])
  {
    hide IsSpace;
    assert s == [s[0]] + s[1..];
  }

  lemma {:induction false} TrimLeftEmpty(s: string)
    ensures TrimLeft(s) == "" <==> Blank(s)
  {
    if s != "" {
      BlankFirst(s);
      hide IsSpace, Blank;
      TrimLeftEmpty(s[1..]);
    }
  }

  /** Blank is what strings.TrimSpace leaves nothing of. */
  lemma TrimSpaceEmpty(s: string)
    ensures TrimSpace(s) == "" <==> Blank(s)
  {
    TrimLeftEmpty(s);
    var l := TrimLeft(s);
    if l != "" {
      TrimRightKeepsFirst(l);
    }
  }

  lemma {:induction false} TrimRightKeepsFirst(s: string)
    requires s != "" && !IsSpace(s[0])
    ensures TrimRight(s) != ""
  {
    if IsSpace(s[|s| - 1]) {
      TrimRightKeepsFirst(s[..|s| - 1]);
    }
  }

  lemma {:induction false} TrimmedFirst(s: string)
    requires TrimRight(s) != ""
    ensures TrimRight(s)[0] == s[0]
  {
  }

  /** Neither begins nor ends with white space. */
  predicate Solid(w: string) { w != "" && !IsSpace(w[0]) && !IsSpace(w[|w| - 1]) }

  lemma SolidIsNotBlank(w: string)
    requires Solid(w)
    ensures !Blank(w)
  {
    assert w[0] in w;
  }

  lemma {:induction false} Trimmed(s: string)
    requires s == "" || Solid(s)
    ensures TrimSpace(s) == s
  {
  }

  /** Nothing is left to trim. */
  lemma TrimmedTwice(s: string)
    ensures TrimSpace(TrimSpace(s)) == TrimSpace(s)
  {
    var l := TrimLeft(s);
    if TrimRight(l) != "" {
      TrimmedFirst(l);
    }
    Trimmed(TrimSpace(s));
  }

  // ----- lines

  /** strings.ReplaceAll(text, "\r\n", "\n"). */
  function Unix(text: string): string
    decreases |text|
  {
    if text == "" then ""
    else if |text| >= 2 && text[0] == '\r' && text[1] == '\n' then "\n" + Unix(text[2..])
    else [text[0]] + Unix(text[1..])
  }

  function InputLines(text: string): seq<string> { Split(Unix(text), "\n") }

  /** The lines are the whole text. */
  lemma LinesAreText(text: string)
    ensures Join(InputLines(text), "\n") == Unix(text)
  {
    JoinSplit(Unix(text), "\n");
  }

  /** A line that opens or closes a code block. */
  predicate IsFence(line: string) { "```" <= TrimSpace(line) }
}
