/** recursiveSplit cuts by runes only as a last resort: atoms that fit stay whole, and the words of the chunks
    are the words of the text, in order. */
module RecursiveCharacterAtoms {
  import opened Common
  import opened Text
  import opened Stretches
  import opened RecursiveCharacter
  import opened RecursiveCharacterProofs

  // ----- atoms stay whole

  lemma {:induction false} RefineTakes(parts: seq<string>, separators: seq<string>, n: int, part: string)
    requires part in parts && !Blank(part)
    ensures |part| <= n ==> part in Refine(parts, separators, n)
    ensures |part| > n ==> forall c <- RecursiveSplit(part, separators, n) :: c in Refine(parts, separators, n)
    decreases |parts|
  {
    hide RecursiveSplit, Blank;
    if part != parts[0] {
      RefineTakes(parts[1..], separators, n, part);
    }
  }

  lemma {:induction false} MergeHolds(parts: seq<string>, sep: string, n: int, part: string, w: string)
    returns (c: string)
    requires n > 0 && Sized(parts, n) && part in parts && Holds(part, w)
    ensures c in MergeParts(parts, sep, n) && Holds(c, w)
    decreases |parts|
  {
    BlockIsMaximal(parts, sep, n);
    hide *;
    var k := BlockSize(parts, sep, n);
    CutAt(parts, k);
    if part in parts[..k] {
      c := Join(parts[..k], sep);
      JoinHolds(parts[..k], sep, part, w);
    } else {
      SizedSuffix(parts, n, k);
      c := MergeHolds(parts[k..], sep, n, part, w);
    }
  }

  lemma OnePart(text: string, sep: string)
    requires sep != "" && |Split(text, sep)| == 1
    ensures Split(text, sep) == [text]
  {
    JoinSplit(text, sep);
  }

  lemma {:induction false} AtomsOfOne(text: string, separators: seq<string>)
    ensures AtomsOfAll([text], separators) == Atoms(text, separators)
  {
    hide Atoms;
    NothingAdded(Atoms(text, separators));
  }

  /** An atom that is not blank and fits occurs whole in one chunk. */
  lemma {:induction false} AtomStaysWhole(text: string, separators: seq<string>, n: int, w: string)
    returns (c: string)
    requires n > 0 && w in Atoms(text, separators) && !Blank(w) && |w| <= n
    ensures c in RecursiveSplit(text, separators, n) && Holds(c, w)
    decreases |separators|
  {
    hide Split, Holds, Blank, Refine, MergeParts;
    if |text| <= n {
      AtomIsHeld(text, separators, w);
      assert text != "" by {
        HeldIsShorter(text, w);
        EmptyIsBlank();
      }
      return text;
    }
    var sep, rest := separators[0], separators[1..];
    if sep == "" {
      c := AtomStaysWhole(text, rest, n, w);
      return;
    }
    var parts := Split(text, sep);
    var part := AtomIsOfPart(parts, rest, w);
    if |parts| == 1 {
      OnePart(text, sep);
      c := AtomStaysWhole(text, rest, n, w);
      return;
    }
    AtomIsHeld(part, rest, w);
    HeldIsShorter(part, w);
    RefineTakes(parts, rest, n, part);
    var whole := part;
    if |part| > n {
      whole := AtomStaysWhole(part, rest, n, w);
    }
    RefineIsSized(parts, rest, n);
    c := MergeHolds(Refine(parts, rest, n), sep, n, whole, w);
  }

  /** Cutting by runes is the last resort: a stretch of the text that fits, is not blank, holds no rune of a
      separator and lies between separators of one rune (or ends of the text) occurs whole in one chunk. */
  lemma StretchStaysWhole(before: string, w: string, after: string, separators: seq<string>, n: int)
    returns (c: string)
    requires |w| <= n && !Blank(w) && forall sep <- separators :: forall r <- w :: r !in sep
    requires EndsAtSeparator(before, separators) && StartsAtSeparator(after, separators)
    ensures c in RecursiveSplit(before + w + after, separators, n) && Holds(c, w)
  {
    EmptyIsBlank();
    hide *;
    StretchIsAtom(before, w, after, separators);
    c := AtomStaysWhole(before + w + after, separators, n, w);
  }

  // ----- no word is lost, divided or moved

  /** The words of atoms that are cut by runes where they do not fit. */
  function WordsOfPieces(atoms: seq<string>, n: int, d: set<char>): seq<string> {
    if atoms == [] then [] else PieceWords(atoms[0], n, d) + WordsOfPieces(atoms[1..], n, d)
  }

  function PieceWords(atom: string, n: int, d: set<char>): seq<string> {
    if |atom| <= n then Words(atom, d) else WordsOf(HardSplit(atom, n), d)
  }

  lemma {:induction false} PiecesOfSum(a: seq<string>, b: seq<string>, n: int, d: set<char>)
    ensures WordsOfPieces(a + b, n, d) == WordsOfPieces(a, n, d) + WordsOfPieces(b, n, d)
  {
    hide PieceWords;
    if a == [] {
      NothingAdded(b);
    } else {
      TailOfSum(a, b);
      PiecesOfSum(a[1..], b, n, d);
      Assoc(PieceWords(a[0], n, d), WordsOfPieces(a[1..], n, d), WordsOfPieces(b, n, d));
    }
  }

  lemma {:induction false} PiecesThatFit(atoms: seq<string>, n: int, d: set<char>)
    requires forall a <- atoms :: |a| <= n || Blank(a)
    ensures WordsOfPieces(atoms, n, d) == WordsOf(atoms, d)
  {
    hide Words, Blank, HardSplit;
    if atoms != [] {
      if |atoms[0]| > n {
        BlankHasNoPieces(atoms[0], n, d);
      }
      PiecesThatFit(atoms[1..], n, d);
    }
  }

  lemma BlankHasNoPieces(s: string, n: int, d: set<char>)
    requires Blank(s)
    ensures WordsOf(HardSplit(s, n), d) == [] && Words(s, d) == []
  {
    DroppedHasNoPieces(s, n, d);
  }

  lemma DroppedPart(s: string, a: string, d: set<char>)
    requires Dropped(s, d) && Holds(s, a)
    ensures Dropped(a, d)
  {
    hide IsSpace;
    var before, after :| s == before + a + after;
    forall k | 0 <= k < |a|
      ensures a[k] in s
    {
      assert s[|before| + k] == a[k];
    }
  }

  lemma {:induction false} DroppedHasNoPieces(s: string, n: int, d: set<char>)
    requires Dropped(s, d)
    ensures WordsOf(HardSplit(s, n), d) == [] && Words(s, d) == []
    decreases |s|
  {
    NoWords(s, d);
    hide Words, Dropped;
    if s != "" && n > 0 {
      if |s| <= n {
        WordsOfOne(s, d);
      } else {
        CutAt(s, n);
        HalvesDropped(s[..n], s[n..], d);
        NoWords(s[..n], d);
        DroppedHasNoPieces(s[n..], n, d);
        WordsOfSum([s[..n]], HardSplit(s[n..], n), d);
        WordsOfOne(s[..n], d);
      }
    }
  }

  lemma HalvesDropped(a: string, b: string, d: set<char>)
    requires Dropped(a + b, d)
    ensures Dropped(a, d) && Dropped(b, d)
  {
    hide IsSpace;
    assert forall c <- a :: c in a + b;
    assert forall c <- b :: c in a + b;
  }

  lemma NoWords(s: string, d: set<char>)
    requires Dropped(s, d)
    ensures Words(s, d) == []
  {
    DroppedHasNoWords("", s, d);
  }

  lemma {:induction false} DroppedAtoms(atoms: seq<string>, n: int, d: set<char>)
    requires forall a <- atoms :: Dropped(a, d)
    ensures WordsOfPieces(atoms, n, d) == []
  {
    hide Words, HardSplit, Dropped;
    if atoms != [] {
      DroppedHasNoPieces(atoms[0], n, d);
      DroppedAtoms(atoms[1..], n, d);
    }
  }

  lemma DroppedText(text: string, separators: seq<string>, n: int, d: set<char>)
    requires Dropped(text, d)
    ensures WordsOfPieces(Atoms(text, separators), n, d) == []
  {
    hide *;
    forall a <- Atoms(text, separators)
      ensures Dropped(a, d)
    {
      AtomIsHeld(text, separators, a);
      DroppedPart(text, a, d);
    }
    DroppedAtoms(Atoms(text, separators), n, d);
  }

  lemma {:induction false} AtomsOfShort(text: string, separators: seq<string>, n: int, d: set<char>)
    requires Covers(d, separators) && |text| <= n
    ensures WordsOfPieces(Atoms(text, separators), n, d) == Words(text, d)
  {
    hide *;
    forall a <- Atoms(text, separators)
      ensures |a| <= n || Blank(a)
    {
      AtomIsHeld(text, separators, a);
      HeldIsShorter(text, a);
    }
    PiecesThatFit(Atoms(text, separators), n, d);
    WordsOfAtoms(text, separators, d);
  }

  lemma {:induction false} WordsOfMerge(parts: seq<string>, sep: string, n: int, d: set<char>)
    requires n > 0 && Sized(parts, n) && sep != "" && (forall c <- sep :: c in d)
    ensures WordsOf(MergeParts(parts, sep, n), d) == WordsOf(parts, d)
    decreases |parts|
  {
    hide *;
    if parts == [] {
      NothingMerged(sep, n);
    } else {
      BlockIsMaximal(parts, sep, n);
      var k := BlockSize(parts, sep, n);
      var chunk, rest := Join(parts[..k], sep), parts[k..];
      SizedSuffix(parts, n, k);
      WordsOfMerge(rest, sep, n, d);
      WordsOfJoin(parts[..k], sep, d);
      WordsOfOne(chunk, d);
      WordsOfSum([chunk], MergeParts(rest, sep, n), d);
      WordsOfSum(parts[..k], rest, d);
      CutAt(parts, k);
    }
  }

  lemma AllBlankIsDropped(parts: seq<string>, sep: string, d: set<char>)
    requires !SomeNotBlank(parts) && (forall c <- sep :: c in d)
    ensures Dropped(Join(parts, sep), d)
  {
    forall k | 0 <= k < |parts|
      ensures Blank(parts[k])
    {
    }
    JoinDropped(parts, sep, d);
  }

  lemma {:induction false} JoinDropped(parts: seq<string>, sep: string, d: set<char>)
    requires (forall p <- parts :: Blank(p)) && (forall c <- sep :: c in d)
    ensures Dropped(Join(parts, sep), d)
  {
    hide IsSpace;
    if parts != [] {
      assert parts[0] in parts && forall p <- parts[1..] :: p in parts;
      BlankIsDropped(parts[0], d);
      JoinDropped(parts[1..], sep, d);
    }
  }

  /** The words of the chunks are the words of the atoms in order, and only an atom that does not fit is cut. */
  lemma {:induction false} WordsOfSplit(text: string, separators: seq<string>, n: int, d: set<char>)
    requires n > 0 && Covers(d, separators)
    ensures WordsOf(RecursiveSplit(text, separators, n), d) == WordsOfPieces(Atoms(text, separators), n, d)
    decreases |separators|, 0
  {
    hide Split, Refine, MergeParts, HardSplit, Words, WordsOf, Covers, WordsOfPieces, AtomsOfAll, Dropped,
      SomeNotBlank;
    if |text| <= n {
      AtomsOfShort(text, separators, n, d);
      WordsOfShort(text, d);
    } else if separators == [] {
      PiecesOfOne(text, n, d);
    } else {
      var sep, rest := separators[0], separators[1..];
      CoversFirst(d, separators);
      WordsOfSplit(text, rest, n, d);
      if sep != "" {
        var parts := Split(text, sep);
        if |parts| == 1 {
          OnePart(text, sep);
          AtomsOfOne(text, rest);
        } else {
          var refined := Refine(parts, rest, n);
          WordsOfRefine(parts, rest, n, d);
          RefineIsSized(parts, rest, n);
          WordsOfMerge(refined, sep, n, d);
          if MergeParts(refined, sep, n) == [] {
            NothingLeft(parts, rest, sep, n);
            JoinSplit(text, sep);
            AllBlankIsDropped(parts, sep, d);
            DroppedText(text, rest, n, d);
            WordsOfNothing(d);
          }
        }
      }
    }
  }

  lemma WordsOfNothing(d: set<char>)
    ensures WordsOf([], d) == []
  {
  }

  lemma WordsOfShort(text: string, d: set<char>)
    ensures WordsOf(if text == "" then [] else [text], d) == Words(text, d)
  {
    if text == "" {
      NoWord();
    } else {
      WordsOfOne(text, d);
    }
  }

  lemma PiecesOfOne(text: string, n: int, d: set<char>)
    requires |text| > n
    ensures WordsOfPieces([text], n, d) == WordsOf(HardSplit(text, n), d)
  {
    hide WordsOf, HardSplit;
    NothingAdded(WordsOf(HardSplit(text, n), d));
  }

  /** Nothing is merged only from blank parts. */
  lemma NothingLeft(parts: seq<string>, separators: seq<string>, sep: string, n: int)
    requires n > 0 && MergeParts(Refine(parts, separators, n), sep, n) == []
    ensures !SomeNotBlank(parts)
  {
    hide MergeParts, Refine;
    RefineSurvives(parts, separators, n);
    if SomeNotBlank(parts) {
      MergeSurvives(Refine(parts, separators, n), sep, n);
    }
  }

  lemma {:induction false} WordsOfRefine(parts: seq<string>, separators: seq<string>, n: int, d: set<char>)
    requires n > 0 && Covers(d, separators)
    ensures WordsOf(Refine(parts, separators, n), d) == WordsOfPieces(AtomsOfAll(parts, separators), n, d)
    decreases |separators|, 1, |parts|
  {
    hide RecursiveSplit, Atoms, Words, WordsOf, WordsOfPieces, Covers, Dropped, Blank;
    if parts == [] {
      WordsOfNothing(d);
      NoPieces(n, d);
    } else {
      var p, rest := parts[0], parts[1..];
      WordsOfRefine(rest, separators, n, d);
      PiecesOfSum(Atoms(p, separators), AtomsOfAll(rest, separators), n, d);
      if Blank(p) {
        NothingAdded(Refine(rest, separators, n));
        NothingAdded(WordsOf(Refine(rest, separators, n), d));
        BlankIsDropped(p, d);
        DroppedText(p, separators, n, d);
      } else if |p| > n {
        WordsOfSplit(p, separators, n, d);
        WordsOfSum(RecursiveSplit(p, separators, n), Refine(rest, separators, n), d);
      } else {
        AtomsOfShort(p, separators, n, d);
        WordsOfOne(p, d);
        WordsOfSum([p], Refine(rest, separators, n), d);
      }
    }
  }

  lemma NoPieces(n: int, d: set<char>)
    ensures WordsOfPieces([], n, d) == []
  {
  }

  lemma BlankIsDropped(s: string, d: set<char>)
    requires Blank(s)
    ensures Dropped(s, d)
  {
  }

  /** If every atom fits, the chunks hold exactly the words of the text, in order and each of them whole. */
  lemma WordsAreNeverCut(text: string, separators: seq<string>, n: int, d: set<char>)
    requires n > 0 && Covers(d, separators)
    requires forall a <- Atoms(text, separators) :: |a| <= n || Blank(a)
    ensures WordsOf(RecursiveSplit(text, separators, n), d) == Words(text, d)
  {
    hide *;
    WordsOfSplit(text, separators, n, d);
    PiecesThatFit(Atoms(text, separators), n, d);
    WordsOfAtoms(text, separators, d);
  }
}
