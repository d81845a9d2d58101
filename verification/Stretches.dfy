/** What a list of separators leaves of a text: its atoms, which no separator cuts any further, and its words,
    the stretches between runes of separators. */
module Stretches {
  import opened Common
  import opened Text

  /** The text split at every separator in turn. */
  function Atoms(text: string, separators: seq<string>): (atoms: seq<string>)
    decreases |separators|, 0
  {
    if separators == [] then [text]
    else if separators[0] == "" then Atoms(text, separators[1..])
    else AtomsOfAll(Split(text, separators[0]), separators[1..])
  }

  function AtomsOfAll(parts: seq<string>, separators: seq<string>): seq<string>
    decreases |separators|, 1, |parts|
  {
    if parts == [] then [] else Atoms(parts[0], separators) + AtomsOfAll(parts[1..], separators)
  }

  // ----- stretches of a text

  /** The string w occurs whole in the text. */
  ghost predicate Holds(text: string, w: string) {
    exists before: string, after: string :: text == before + w + after
  }

  lemma HoldsItself(w: string)
    ensures Holds(w, w)
  {
    NothingAdded(w);
    assert w == "" + w + "";
  }

  lemma HoldsWithin(a: string, b: string, c: string, w: string)
    requires Holds(b, w)
    ensures Holds(a + b + c, w)
  {
    var before, after :| b == before + w + after;
    assert a + b + c == (a + before) + w + (after + c);
  }

  lemma HoldsFurther(text: string, part: string, w: string)
    requires Holds(text, part) && Holds(part, w)
    ensures Holds(text, w)
  {
    var before, after :| text == before + part + after;
    HoldsWithin(before, part, after, w);
  }

  lemma HeldIsShorter(text: string, w: string)
    requires Holds(text, w)
    ensures |w| <= |text|
    ensures Blank(text) ==> Blank(w)
  {
    var before, after :| text == before + w + after;
    hide IsSpace;
    forall k | 0 <= k < |w|
      ensures w[k] in text
    {
      assert text[|before| + k] == w[k];
    }
  }

  lemma {:induction false} PartIsHeld(text: string, sep: string, part: string)
    requires sep != "" && part in Split(text, sep)
    ensures Holds(text, part)
    decreases |text|
  {
    var at := IndexFrom(text, sep, 0);
    hide IndexFrom, Holds;
    if at == |text| {
      HoldsItself(text);
    } else {
      CutAt(text, at);
      CutAt(text, at + |sep|);
      if part == text[..at] {
        HoldsItself(part);
        HoldsWithin("", part, text[at..], part);
        NothingAdded(part);
      } else {
        var tail := text[at + |sep|..];
        PartIsHeld(tail, sep, part);
        HoldsWithin(text[..at + |sep|], tail, "", part);
        NothingAdded(text);
      }
    }
  }

  /** An atom is a stretch of the text. */
  lemma {:induction false} AtomIsHeld(text: string, separators: seq<string>, w: string)
    requires w in Atoms(text, separators)
    ensures Holds(text, w)
    decreases |separators|
  {
    hide Split, Holds;
    if separators == [] {
      HoldsItself(text);
    } else if separators[0] == "" {
      AtomIsHeld(text, separators[1..], w);
    } else {
      var part := AtomIsOfPart(Split(text, separators[0]), separators[1..], w);
      PartIsHeld(text, separators[0], part);
      AtomIsHeld(part, separators[1..], w);
      HoldsFurther(text, part, w);
    }
  }

  lemma {:induction false} AtomIsOfPart(parts: seq<string>, separators: seq<string>, w: string)
    returns (part: string)
    requires w in AtomsOfAll(parts, separators)
    ensures part in parts && w in Atoms(part, separators)
    decreases |parts|
  {
    hide Atoms;
    if w in Atoms(parts[0], separators) {
      part := parts[0];
    } else {
      part := AtomIsOfPart(parts[1..], separators, w);
    }
  }

  lemma {:induction false} JoinHolds(ss: seq<string>, sep: string, s: string, w: string)
    requires s in ss && Holds(s, w)
    ensures Holds(Join(ss, sep), w)
    decreases |ss|
  {
    hide Holds;
    if |ss| == 1 {
    } else if s == ss[0] {
      HoldsWithin("", s, sep + Join(ss[1..], sep), w);
      assert "" + s + (sep + Join(ss[1..], sep)) == s + sep + Join(ss[1..], sep);
    } else {
      JoinHolds(ss[1..], sep, s, w);
      HoldsWithin(ss[0] + sep, Join(ss[1..], sep), "", w);
      NothingAdded(ss[0] + sep + Join(ss[1..], sep));
    }
  }

  // ----- stretches between separators of one rune

  predicate EndsAtSeparator(s: string, separators: seq<string>) { s == "" || [s[|s| - 1]] in separators }

  predicate StartsAtSeparator(s: string, separators: seq<string>) { s == "" || [s[0]] in separators }

  lemma {:induction false} FirstOccurrence(s: string, sep: string, i: nat, k: nat)
    requires sep != "" && i <= |s| && i <= k < IndexFrom(s, sep, i) && k + |sep| <= |s|
    ensures s[k..k + |sep|] != sep
    decreases |s| - i
  {
    if i < k {
      FirstOccurrence(s, sep, i + 1, k);
    }
  }

  lemma RuneOfOccurrence(s: string, sep: string, at: nat, k: nat)
    requires at <= k < at + |sep| <= |s| && s[at..at + |sep|] == sep
    ensures s[k] in sep
  {
    assert s[k] == sep[k - at];
  }

  lemma RuneOfMiddle(before: string, w: string, after: string, k: nat)
    requires |before| <= k < |before| + |w|
    ensures (before + w + after)[k] in w
  {
    assert (before + w + after)[k] == w[k - |before|];
  }

  lemma OccurrenceAvoids(before: string, w: string, after: string, sep: string, at: nat)
    requires w != "" && at + |sep| <= |before + w + after| && (before + w + after)[at..at + |sep|] == sep
    requires sep != "" && forall c <- w :: c !in sep
    ensures at + |sep| <= |before| || |before| + |w| <= at
  {
    var s := before + w + after;
    var k := if at < |before| then |before| else at;
    if |before| < at + |sep| && at < |before| + |w| {
      RuneOfOccurrence(s, sep, at, k);
      RuneOfMiddle(before, w, after, k);
      assert false;
    }
  }

  lemma CutBefore(before: string, w: string, after: string, k: nat)
    requires k <= |before|
    ensures (before + w + after)[k..] == before[k..] + w + after
  {
  }

  lemma CutBehind(before: string, w: string, after: string, k: nat)
    requires k <= |after|
    ensures (before + w + after)[..|before| + |w| + k] == before + w + after[..k]
  {
  }

  lemma SplitIs(s: string, sep: string)
    requires sep != "" && IndexFrom(s, sep, 0) < |s|
    ensures var at := IndexFrom(s, sep, 0); Split(s, sep) == [s[..at]] + Split(s[at + |sep|..], sep)
  {
    hide IndexFrom;
  }

  lemma InSum(ss: seq<string>, x: string, more: seq<string>)
    requires ss == [x] + more
    ensures x in ss
    ensures forall p <- more :: p in ss
  {
    assert ss[0] == x;
    forall k | 0 <= k < |more|
      ensures more[k] in ss
    {
      assert ss[k + 1] == more[k];
    }
  }

  lemma FirstPart(s: string, sep: string)
    requires sep != ""
    ensures s[..IndexFrom(s, sep, 0)] in Split(s, sep)
  {
    Whole(s);
    hide IndexFrom;
    assert Split(s, sep)[0] == s[..IndexFrom(s, sep, 0)];
  }

  lemma LaterPart(s: string, sep: string, p: string)
    requires sep != "" && IndexFrom(s, sep, 0) < |s|
    requires p in Split(s[IndexFrom(s, sep, 0) + |sep|..], sep)
    ensures p in Split(s, sep)
  {
    SplitIs(s, sep);
    hide *;
    var at := IndexFrom(s, sep, 0);
    InSum(Split(s, sep), s[..at], Split(s[at + |sep|..], sep));
  }

  /** A stretch without runes of the separator lies within one part, with nothing or the same runes at its
      ends. */
  lemma {:induction false} SplitAround(before: string, w: string, after: string, sep: string)
    returns (b: string, a: string)
    requires w != "" && sep != "" && forall c <- w :: c !in sep
    ensures b + w + a in Split(before + w + after, sep)
    ensures b == "" || (before != "" && b[|b| - 1] == before[|before| - 1] && (|sep| == 1 ==> [b[|b| - 1]] != sep))
    ensures a == "" || (after != "" && a[0] == after[0] && (|sep| == 1 ==> [a[0]] != sep))
    decreases |before|
  {
    hide Split, IndexFrom;
    var s := before + w + after;
    var at := IndexFrom(s, sep, 0);
    if at < |s| {
      OccurrenceAvoids(before, w, after, sep, at);
    }
    if at + |sep| <= |before| {
      CutBefore(before, w, after, at + |sep|);
      b, a := SplitAround(before[at + |sep|..], w, after, sep);
      LaterPart(s, sep, b + w + a);
    } else {
      var k := at - |before| - |w|;
      b, a := before, after[..k];
      CutBehind(before, w, after, k);
      FirstPart(s, sep);
      if |sep| == 1 {
        NotAtRune(s, sep, |before| - 1);
        if k > 0 {
          NotAtRune(s, sep, |before| + |w|);
        }
      }
    }
  }

  lemma NotAtRune(s: string, sep: string, k: int)
    requires |sep| == 1 && k < |s|
    ensures 0 <= k < IndexFrom(s, sep, 0) ==> [s[k]] != sep
  {
    if 0 <= k < IndexFrom(s, sep, 0) {
      FirstOccurrence(s, sep, 0, k);
      assert s[k..k + 1] == [s[k]];
    }
  }

  lemma {:induction false} PartGivesAtoms(parts: seq<string>, separators: seq<string>, part: string, w: string)
    requires part in parts && w in Atoms(part, separators)
    ensures w in AtomsOfAll(parts, separators)
    decreases |parts|
  {
    hide Atoms;
    if part != parts[0] {
      PartGivesAtoms(parts[1..], separators, part, w);
    }
  }

  /** A stretch without runes of separators that lies between separators of one rune is an atom. */
  lemma {:induction false} StretchIsAtom(before: string, w: string, after: string, separators: seq<string>)
    requires w != "" && forall sep <- separators :: forall c <- w :: c !in sep
    requires EndsAtSeparator(before, separators) && StartsAtSeparator(after, separators)
    ensures w in Atoms(before + w + after, separators)
    decreases |separators|
  {
    hide Split;
    if separators == [] {
      NothingAdded(w);
      NothingAdded(w + "");
    } else {
      var sep, rest := separators[0], separators[1..];
      FirstAndRest(separators);
      assert separators[0] in separators && forall r <- rest :: r in separators;
      if sep == "" {
        StretchIsAtom(before, w, after, rest);
      } else {
        var b, a := SplitAround(before, w, after, sep);
        StretchIsAtom(b, w, a, rest);
        PartGivesAtoms(Split(before + w + after, sep), rest, b + w + a, w);
      }
    }
  }

  // ----- words

  function Word(w: string): seq<string> { if Blank(w) then [] else [w] }

  /** The stretches of s between the runes of d that are not blank, the first one beginning with `begun`. */
  function WordsFrom(begun: string, s: string, d: set<char>): seq<string>
    decreases |s|
  {
    if s == "" then Word(begun)
    else if s[0] in d then Word(begun) + WordsFrom("", s[1..], d)
    else WordsFrom(begun + [s[0]], s[1..], d)
  }

  function Words(s: string, d: set<char>): seq<string> { WordsFrom("", s, d) }

  function WordsOf(ss: seq<string>, d: set<char>): seq<string> {
    if ss == [] then [] else Words(ss[0], d) + WordsOf(ss[1..], d)
  }

  lemma NoWord()
    ensures Word("") == []
  {
  }

  lemma WordsStep(begun: string, s: string, d: set<char>)
    ensures s == "" ==> WordsFrom(begun, s, d) == Word(begun)
    ensures s != "" && s[0] in d ==> WordsFrom(begun, s, d) == Word(begun) + WordsFrom("", s[1..], d)
    ensures s != "" && s[0] !in d ==> WordsFrom(begun, s, d) == WordsFrom(begun + [s[0]], s[1..], d)
  {
  }

  /** A separator ends a word. */
  lemma {:induction false} WordsAcross(begun: string, a: string, sep: string, b: string, d: set<char>)
    requires sep != "" && (forall c <- sep :: c in d)
    ensures WordsFrom(begun, a + sep + b, d) == WordsFrom(begun, a, d) + Words(b, d)
    decreases |a| + |sep|
  {
    var s := a + sep + b;
    WordsStep(begun, s, d);
    WordsStep(begun, a, d);
    hide WordsFrom, Word;
    if a != "" {
      assert s[0] == a[0] && s[1..] == a[1..] + sep + b;
      WordsAcross(if a[0] in d then "" else begun + [a[0]], a[1..], sep, b, d);
      if a[0] in d {
        Assoc(Word(begun), WordsFrom("", a[1..], d), Words(b, d));
      }
    } else {
      assert s[0] == sep[0] && s[1..] == "" + sep[1..] + b;
      if |sep| == 1 {
        assert s[1..] == b;
      } else {
        WordsAcross("", "", sep[1..], b, d);
        WordsStep("", "", d);
        NoWord();
        NothingAdded(Words(b, d));
      }
    }
  }

  lemma {:induction false} WordsOfSum(a: seq<string>, b: seq<string>, d: set<char>)
    ensures WordsOf(a + b, d) == WordsOf(a, d) + WordsOf(b, d)
  {
    hide Words;
    if a == [] {
      NothingAdded(b);
    } else {
      TailOfSum(a, b);
      WordsOfSum(a[1..], b, d);
      Assoc(Words(a[0], d), WordsOf(a[1..], d), WordsOf(b, d));
    }
  }

  lemma WordsOfOne(s: string, d: set<char>)
    ensures WordsOf([s], d) == Words(s, d)
  {
    hide Words;
    NothingAdded(Words(s, d));
  }

  /** The words of strings joined by a separator are their words. */
  lemma {:induction false} WordsOfJoin(ss: seq<string>, sep: string, d: set<char>)
    requires sep != "" && (forall c <- sep :: c in d)
    ensures Words(Join(ss, sep), d) == WordsOf(ss, d)
  {
    if ss == [] {
      NoWord();
    } else if |ss| == 1 {
      WordsOfOne(ss[0], d);
      assert ss == [ss[0]];
    } else {
      WordsAcross("", ss[0], sep, Join(ss[1..], sep), d);
      WordsOfJoin(ss[1..], sep, d);
    }
  }

  lemma BlankMore(begun: string, c: char)
    requires Blank(begun) && IsSpace(c)
    ensures Blank(begun + [c])
  {
    hide IsSpace;
  }

  /** White space and separators hold no words. */
  lemma {:induction false} DroppedHasNoWords(begun: string, s: string, d: set<char>)
    requires Blank(begun) && Dropped(s, d)
    ensures WordsFrom(begun, s, d) == []
    decreases |s|
  {
    if s != "" {
      hide Blank, IsSpace;
      NoWord();
      assert s[0] in s && forall c <- s[1..] :: c in s;
      if s[0] in d {
        DroppedHasNoWords("", s[1..], d);
      } else {
        BlankMore(begun, s[0]);
        DroppedHasNoWords(begun + [s[0]], s[1..], d);
      }
    }
  }

  /** All runes of separators are in d. */
  ghost predicate Covers(d: set<char>, separators: seq<string>) {
    forall sep <- separators :: forall c <- sep :: c in d
  }

  lemma CoversFirst(d: set<char>, separators: seq<string>)
    requires Covers(d, separators) && separators != []
    ensures (forall c <- separators[0] :: c in d) && Covers(d, separators[1..])
  {
    assert separators[0] in separators && forall sep <- separators[1..] :: sep in separators;
  }

  /** The words of a text are the words of its atoms. */
  lemma {:induction false} WordsOfAtoms(text: string, separators: seq<string>, d: set<char>)
    requires Covers(d, separators)
    ensures WordsOf(Atoms(text, separators), d) == Words(text, d)
    decreases |separators|, 0
  {
    hide Split, Words, WordsOf, Join;
    if separators == [] {
      WordsOfOne(text, d);
    } else {
      var sep, rest := separators[0], separators[1..];
      CoversFirst(d, separators);
      if sep == "" {
        WordsOfAtoms(text, rest, d);
      } else {
        WordsOfAllAtoms(Split(text, sep), rest, d);
        WordsOfJoin(Split(text, sep), sep, d);
        JoinSplit(text, sep);
      }
    }
  }

  lemma {:induction false} WordsOfAllAtoms(parts: seq<string>, separators: seq<string>, d: set<char>)
    requires Covers(d, separators)
    ensures WordsOf(AtomsOfAll(parts, separators), d) == WordsOf(parts, d)
    decreases |separators|, 1, |parts|
  {
    hide Atoms, Words;
    if parts != [] {
      WordsOfAtoms(parts[0], separators, d);
      WordsOfAllAtoms(parts[1..], separators, d);
      WordsOfSum(Atoms(parts[0], separators), AtomsOfAll(parts[1..], separators), d);
    }
  }
}
