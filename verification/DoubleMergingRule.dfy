/** Phase 1 of double merging judged by its groups: who may stand together, and who may be parted. */
module DoubleMergingRule {
  import opened Common
  import opened Text
  import opened RecursiveCharacterProofs
  import opened Sentences
  import opened DoubleMerging
  import opened DoubleMergingProofs

  /** What phase 1 puts into groups: a sentence, or a piece of an over-long one. */
  datatype Unit = Unit(text: string, piece: bool)

  function TextsOf(g: seq<Unit>): Group { if g == [] then [] else [g[0].text] + TextsOf(g[1..]) }

  function SentenceUnits(parts: Group): seq<Unit> {
    if parts == [] then [] else [Unit(parts[0], false)] + SentenceUnits(parts[1..])
  }

  function PieceUnits(pieces: seq<string>): seq<Unit> {
    if pieces == [] then [] else [Unit(pieces[0], true)] + PieceUnits(pieces[1..])
  }

  /** The units of the sentences, in order. */
  function UnitsIn(sentences: seq<string>, s: Settings): seq<Unit> {
    if sentences == [] then []
    else
      (if Blank(sentences[0]) then []
       else if |sentences[0]| > s.max then PieceUnits(Pieces(sentences[0], s))
       else [Unit(sentences[0], false)])
      + UnitsIn(sentences[1..], s)
  }

  // ----- the rule

  /** The sentence x may join the sentences in parts: it fits, and it is similar enough to the only one of
      them, or to the last two, or they are together below the minimum. */
  predicate MayJoin(parts: Group, x: string, s: Settings)
    requires parts != []
  {
    var chunk := Join(parts, s.sep);
    && |chunk| + |s.sep| + |x| <= s.max
    && (|chunk| < s.min
        || if |parts| == 1 then s.similarity(parts[0], x) >= s.initial
           else s.similarity(Join(parts[|parts| - 2..], s.sep), x) > s.appending)
  }

  /** Every sentence of the group was one to join those before it; a piece stands alone. */
  predicate WellJoined(g: seq<Unit>, s: Settings) {
    |g| >= 2 ==>
      var k := |g| - 1;
      && !g[k].piece && !g[k - 1].piece
      && MayJoin(TextsOf(g[..k]), g[k].text, s) && WellJoined(g[..k], s)
  }

  /** A sentence that begins a group behind another one was not one to join it. */
  predicate Parted(g: seq<Unit>, h: seq<Unit>, s: Settings)
    requires g != [] && h != []
  {
    g[|g| - 1].piece || h[0].piece || !MayJoin(TextsOf(g), h[0].text, s)
  }

  predicate Justified(gs: seq<seq<Unit>>, s: Settings) {
    gs != [] ==>
      var k := |gs| - 1;
      && gs[k] != [] && WellJoined(gs[k], s) && Justified(gs[..k], s)
      && (k > 0 ==> gs[k - 1] != [] && Parted(gs[k - 1], gs[k], s))
  }

  function ChunksOf(gs: seq<seq<Unit>>, sep: string): seq<string> {
    if gs == [] then [] else [Join(TextsOf(gs[0]), sep)] + ChunksOf(gs[1..], sep)
  }

  // ----- the scan keeps the rule

  /** What the scan remembers of its open chunk. */
  predicate Recalls(p: Scan, s: Settings) {
    && p.chunk == Join(p.parts, s.sep)
    && (p.chunk == "" <==> p.parts == [])
    && (p.parts != [] ==> (p.single <==> |p.parts| == 1))
    && (|p.parts| >= 2 ==> p.last == Join(p.parts[|p.parts| - 2..], s.sep))
    && (p.parts != [] ==> !Blank(p.chunk))
  }

  lemma JoinOne(x: string, sep: string)
    ensures Join([x], sep) == x
  {
  }

  lemma LastTwoIs(parts: Group, sep: string)
    requires |parts| >= 2
    ensures LastTwo(parts, sep) == Join(parts[|parts| - 2..], sep)
  {
    hide Join;
  }

  /** What the scan tests for an open chunk and a sentence that is neither blank nor over-long. */
  predicate Joins(p: Scan, x: string, s: Settings) {
    && |p.chunk| + |s.sep| + |x| <= s.max
    && (|p.chunk| < s.min
        || if p.single then s.similarity(p.chunk, x) >= s.initial else s.similarity(p.last, x) > s.appending)
  }

  lemma TurnIs(p: Scan, x: string, s: Settings)
    requires p.chunk != "" && !Blank(x) && |x| <= s.max
    ensures Turn(p, x, s) ==
      if !Joins(p, x, s) then Scan(p.done + [p.chunk], x, [x], true, x)
      else if p.single then
        Scan(p.done, Join([p.chunk, x], s.sep), [p.chunk, x], false, LastTwo([p.chunk, x], s.sep))
      else Scan(p.done, p.chunk + s.sep + x, p.parts + [x], false, LastTwo(p.parts + [x], s.sep))
  {
    hide Join, Blank, LastTwo;
  }

  lemma RuleIs(p: Scan, x: string, s: Settings)
    requires Recalls(p, s) && p.parts != []
    ensures MayJoin(p.parts, x, s) == Joins(p, x, s)
    ensures p.single ==> p.parts == [p.chunk]
  {
    if |p.parts| == 1 {
      JoinOne(p.parts[0], s.sep);
      assert p.parts == [p.parts[0]];
    }
    hide Join, Blank;
  }

  lemma JoinedRecalls(done: seq<string>, parts: Group, x: string, s: Settings)
    requires parts != [] && !Blank(x)
    ensures Join(parts + [x], s.sep) == Join(parts, s.sep) + s.sep + x
    ensures Recalls(Scan(done, Join(parts + [x], s.sep), parts + [x], false, LastTwo(parts + [x], s.sep)), s)
  {
    JoinPush(parts, x, s.sep);
    LastTwoIs(parts + [x], s.sep);
    BlankAppend(Join(parts, s.sep) + s.sep, x);
    assert x != "";
    hide Join, Blank, LastTwo;
  }

  lemma FreshRecalls(done: seq<string>, x: string, s: Settings)
    requires !Blank(x)
    ensures Recalls(Scan(done, x, [x], true, x), s)
  {
    JoinOne(x, s.sep);
    assert x != "";
    hide Join, Blank;
  }

  /** A sentence that fits a chunk joins the open chunk exactly by the rule. */
  lemma TurnFollowsRule(p: Scan, x: string, s: Settings)
    requires Recalls(p, s) && p.parts != [] && !Blank(x) && |x| <= s.max
    ensures var q := Turn(p, x, s);
      && Recalls(q, s)
      && if MayJoin(p.parts, x, s) then q.done == p.done && q.parts == p.parts + [x]
         else q.done == p.done + [p.chunk] && q.parts == [x]
  {
    assert p.chunk != "" && p.chunk == Join(p.parts, s.sep);
    TurnIs(p, x, s);
    RuleIs(p, x, s);
    assert p.single ==> p.parts + [x] == [p.chunk, x];
    hide *;
    if Joins(p, x, s) {
      JoinedRecalls(p.done, p.parts, x, s);
    } else {
      FreshRecalls(p.done + [p.chunk], x, s);
    }
  }

  // ----- groups of units

  lemma {:induction false} TextsOfWhole(parts: Group)
    ensures TextsOf(SentenceUnits(parts)) == parts && |SentenceUnits(parts)| == |parts|
    ensures forall u <- SentenceUnits(parts) :: !u.piece
  {
    if parts != [] {
      TextsOfWhole(parts[1..]);
      FirstAndRest(parts);
    }
  }

  lemma {:induction false} WholePush(parts: Group, x: string)
    ensures SentenceUnits(parts + [x]) == SentenceUnits(parts) + [Unit(x, false)]
  {
    if parts != [] {
      TailOfSum(parts, [x]);
      WholePush(parts[1..], x);
    } else {
      assert [x][1..] == [] && [] + [x] == [x];
    }
  }

  lemma {:induction false} ChunksAppend(a: seq<seq<Unit>>, b: seq<seq<Unit>>, sep: string)
    ensures ChunksOf(a + b, sep) == ChunksOf(a, sep) + ChunksOf(b, sep)
  {
    hide Join;
    if a == [] {
      NothingAdded(b);
      NothingAdded(ChunksOf(b, sep));
    } else {
      TailOfSum(a, b);
      ChunksAppend(a[1..], b, sep);
    }
  }

  lemma OneChunk(g: seq<Unit>, sep: string)
    ensures ChunksOf([g], sep) == [Join(TextsOf(g), sep)]
  {
    assert [g][1..] == [];
    hide Join, TextsOf;
  }

  lemma OneGroup(g: seq<Unit>)
    ensures Flatten([g]) == g
  {
    FlattenOne(g);
  }

  /** The open chunk as a group, if there is one. */
  function Open(p: Scan): seq<seq<Unit>> { if p.parts == [] then [] else [SentenceUnits(p.parts)] }

  /** The groups put out so far and the open one keep the rule; without an open one the last unit is a piece,
      if there is any. */
  predicate Ruled(gs: seq<seq<Unit>>, p: Scan, s: Settings) {
    && Recalls(p, s) && ChunksOf(gs, s.sep) == p.done
    && Justified(gs + Open(p), s)
    && (p.parts == [] && gs != [] ==> gs[|gs| - 1] != [] && gs[|gs| - 1][|gs[|gs| - 1]| - 1].piece)
  }

  lemma JustifiedPush(gs: seq<seq<Unit>>, g: seq<Unit>, s: Settings)
    ensures Justified(gs + [g], s) <==>
      && g != [] && WellJoined(g, s) && Justified(gs, s)
      && (gs != [] ==> gs[|gs| - 1] != [] && Parted(gs[|gs| - 1], g, s))
  {
    assert (gs + [g])[..|gs|] == gs;
    hide WellJoined, Parted;
  }

  lemma SingleJoined(u: Unit, s: Settings)
    ensures WellJoined([u], s)
  {
  }

  lemma WellJoinedPush(parts: Group, x: string, s: Settings)
    requires parts != [] && WellJoined(SentenceUnits(parts), s) && MayJoin(parts, x, s)
    ensures WellJoined(SentenceUnits(parts + [x]), s)
  {
    WholePush(parts, x);
    TextsOfWhole(parts);
    var g, u := SentenceUnits(parts), Unit(x, false);
    assert (g + [u])[..|g|] == g;
    assert g[|g| - 1] in g;
    hide MayJoin, SentenceUnits, TextsOf;
  }

  function PieceGroups(pieces: seq<string>): seq<seq<Unit>> {
    if pieces == [] then [] else [[Unit(pieces[0], true)]] + PieceGroups(pieces[1..])
  }

  lemma {:induction false} PieceGroupsAre(pieces: seq<string>, sep: string)
    ensures ChunksOf(PieceGroups(pieces), sep) == pieces && Flatten(PieceGroups(pieces)) == PieceUnits(pieces)
    ensures |PieceGroups(pieces)| == |pieces|
  {
    if pieces != [] {
      PieceGroupsAre(pieces[1..], sep);
      FirstAndRest(pieces);
      var u := Unit(pieces[0], true);
      TailAfter([u], PieceGroups(pieces[1..]));
      assert TextsOf([u]) == [u.text] by { assert [u][1..] == []; }
      JoinOne(u.text, sep);
    }
  }

  predicate LastIsPiece(gs: seq<seq<Unit>>) {
    gs != [] ==> gs[|gs| - 1] != [] && gs[|gs| - 1][|gs[|gs| - 1]| - 1].piece
  }

  lemma JustifiedLast(gs: seq<seq<Unit>>, s: Settings)
    requires Justified(gs, s) && gs != []
    ensures gs[|gs| - 1] != []
  {
  }

  lemma {:induction false} PiecesKeepRule(gs: seq<seq<Unit>>, pieces: seq<string>, s: Settings)
    requires Justified(gs, s)
    ensures Justified(gs + PieceGroups(pieces), s)
    ensures pieces != [] ==> LastIsPiece(gs + PieceGroups(pieces))
    decreases |pieces|
  {
    if pieces == [] {
      NothingAdded(gs);
    } else {
      var g := [Unit(pieces[0], true)];
      SingleJoined(g[0], s);
      if gs != [] {
        JustifiedLast(gs, s);
      }
      JustifiedPush(gs, g, s);
      PiecesKeepRule(gs + [g], pieces[1..], s);
      Assoc(gs, [g], PieceGroups(pieces[1..]));
      hide Justified;
      if pieces[1..] == [] {
        assert PieceGroups([]) == [];
        assert gs + PieceGroups(pieces) == gs + [g];
      }
    }
  }

  lemma UnitsInOne(sentence: string, s: Settings)
    ensures UnitsIn([sentence], s) ==
      if Blank(sentence) then []
      else if |sentence| > s.max then PieceUnits(Pieces(sentence, s)) else [Unit(sentence, false)]
  {
    hide Pieces, Blank, PieceUnits;
    assert [sentence][1..] == [] && UnitsIn([], s) == [];
  }

  lemma FinishedIs(p: Scan, s: Settings)
    requires Recalls(p, s)
    ensures Finished(p) == p.done + ChunksOf(Open(p), s.sep)
  {
    assert Blank("");
    if p.parts == [] {
      NothingAdded(p.done);
    } else {
      TextsOfWhole(p.parts);
      OneChunk(SentenceUnits(p.parts), s.sep);
    }
    hide Blank, Join, SentenceUnits;
  }

  lemma LongTurn(gs: seq<seq<Unit>>, p: Scan, x: string, s: Settings) returns (after: seq<seq<Unit>>)
    requires Ruled(gs, p, s) && !Blank(x) && |x| > s.max > 0
    ensures Ruled(after, Turn(p, x, s), s) && Turn(p, x, s).parts == []
    ensures Flatten(after) == Flatten(gs + Open(p)) + PieceUnits(Pieces(x, s))
  {
    var pieces := Pieces(x, s);
    LongSentenceHasPieces(x, s.max);
    FinishedIs(p, s);
    assert Turn(p, x, s) == Scan(Finished(p) + pieces, "", [], true, "");
    assert Recalls(Turn(p, x, s), s);
    hide Pieces, Finished, Turn, Blank, Justified, Recalls, Open, ChunksOf, SentenceUnits;
    var before := gs + Open(p);
    after := before + PieceGroups(pieces);
    ChunksAppend(gs, Open(p), s.sep);
    ChunksAppend(before, PieceGroups(pieces), s.sep);
    PieceGroupsAre(pieces, s.sep);
    FlattenAppend(before, PieceGroups(pieces));
    PiecesKeepRule(before, pieces, s);
    LongEnds(after, p, pieces, x, s);
  }

  lemma LongEnds(after: seq<seq<Unit>>, p: Scan, pieces: seq<string>, x: string, s: Settings)
    requires Turn(p, x, s) == Scan(Finished(p) + pieces, "", [], true, "") && Recalls(Turn(p, x, s), s)
    requires ChunksOf(after, s.sep) == Finished(p) + pieces && Justified(after, s) && LastIsPiece(after)
    ensures Ruled(after, Turn(p, x, s), s)
  {
    NothingAdded(after);
    hide Turn, Finished, Recalls, Justified, ChunksOf;
  }

  lemma FirstTurn(gs: seq<seq<Unit>>, p: Scan, x: string, s: Settings)
    requires Ruled(gs, p, s) && !Blank(x) && |x| <= s.max && p.parts == []
    ensures Ruled(gs, Turn(p, x, s), s)
    ensures Flatten(gs + Open(Turn(p, x, s))) == Flatten(gs + Open(p)) + [Unit(x, false)]
  {
    var q := Turn(p, x, s);
    assert q == Scan(p.done, x, [x], true, x);
    FreshRecalls(p.done, x, s);
    var g := [Unit(x, false)];
    WholeOne(x);
    SingleJoined(g[0], s);
    NothingAdded(gs);
    JustifiedPush(gs, g, s);
    FlattenAppend(gs, [g]);
    OneGroup(g);
    hide Turn, Justified, Recalls, ChunksOf, Flatten, SentenceUnits, Join, Blank;
  }

  lemma WholeOne(x: string)
    ensures SentenceUnits([x]) == [Unit(x, false)]
  {
    assert [x][1..] == [];
  }

  lemma WholeFirst(parts: Group)
    requires parts != []
    ensures |SentenceUnits(parts)| == |parts| && SentenceUnits(parts)[0] == Unit(parts[0], false)
  {
    TextsOfWhole(parts);
  }

  lemma JoinTurn(gs: seq<seq<Unit>>, p: Scan, x: string, s: Settings)
    requires Ruled(gs, p, s) && !Blank(x) && |x| <= s.max && p.parts != [] && MayJoin(p.parts, x, s)
    ensures Ruled(gs, Turn(p, x, s), s)
    ensures Flatten(gs + Open(Turn(p, x, s))) == Flatten(gs + Open(p)) + [Unit(x, false)]
  {
    TurnFollowsRule(p, x, s);
    var q := Turn(p, x, s);
    var g, h := SentenceUnits(p.parts), SentenceUnits(p.parts + [x]);
    JustifiedPush(gs, g, s);
    JustifiedPush(gs, h, s);
    WellJoinedPush(p.parts, x, s);
    WholeFirst(p.parts);
    WholeFirst(p.parts + [x]);
    WholePush(p.parts, x);
    FlattenAppend(gs, [g]);
    FlattenAppend(gs, [h]);
    OneGroup(g);
    OneGroup(h);
    Assoc(Flatten(gs), g, [Unit(x, false)]);
    hide Turn, Justified, Recalls, ChunksOf, Flatten, SentenceUnits, Join, Blank, MayJoin, WellJoined, TextsOf;
  }

  lemma PartTurn(gs: seq<seq<Unit>>, p: Scan, x: string, s: Settings) returns (after: seq<seq<Unit>>)
    requires Ruled(gs, p, s) && !Blank(x) && |x| <= s.max && p.parts != [] && !MayJoin(p.parts, x, s)
    ensures Ruled(after, Turn(p, x, s), s)
    ensures Flatten(after + Open(Turn(p, x, s))) == Flatten(gs + Open(p)) + [Unit(x, false)]
  {
    TurnFollowsRule(p, x, s);
    var q := Turn(p, x, s);
    var g, h := SentenceUnits(p.parts), [Unit(x, false)];
    after := gs + [g];
    WholeOne(x);
    SingleJoined(h[0], s);
    TextsOfWhole(p.parts);
    JustifiedPush(after, h, s);
    ChunksAppend(gs, [g], s.sep);
    OneChunk(g, s.sep);
    FlattenAppend(after, [h]);
    OneGroup(h);
    assert p.chunk == Join(p.parts, s.sep);
    hide Turn, Justified, Recalls, ChunksOf, Flatten, SentenceUnits, Join, Blank, MayJoin, WellJoined, TextsOf;
  }

  /** One sentence keeps the rule and adds its units. */
  lemma TurnKeepsRule(gs: seq<seq<Unit>>, p: Scan, x: string, s: Settings) returns (after: seq<seq<Unit>>)
    requires Ruled(gs, p, s) && s.max > 0
    ensures Ruled(after, Turn(p, x, s), s)
    ensures Flatten(after + Open(Turn(p, x, s))) == Flatten(gs + Open(p)) + UnitsIn([x], s)
  {
    UnitsInOne(x, s);
    after := gs;
    if Blank(x) {
      assert Turn(p, x, s) == p;
      NothingAdded(Flatten(gs + Open(p)));
    } else if |x| > s.max {
      after := LongTurn(gs, p, x, s);
      NothingAdded(after);
    } else if p.parts == [] {
      FirstTurn(gs, p, x, s);
    } else if MayJoin(p.parts, x, s) {
      JoinTurn(gs, p, x, s);
    } else {
      after := PartTurn(gs, p, x, s);
    }
    hide Ruled, Turn, Flatten, SentenceUnits, UnitsIn, PieceUnits, Pieces;
  }

  lemma UnitsInFirst(sentences: seq<string>, s: Settings)
    requires sentences != []
    ensures UnitsIn(sentences, s) == UnitsIn([sentences[0]], s) + UnitsIn(sentences[1..], s)
  {
    UnitsInOne(sentences[0], s);
    hide Pieces, Blank, PieceUnits;
  }

  lemma {:induction false} ScanKeepsRule(gs: seq<seq<Unit>>, p: Scan, rest: seq<string>, s: Settings)
    returns (after: seq<seq<Unit>>)
    requires Ruled(gs, p, s) && s.max > 0
    ensures var q := Scanned(p, rest, s);
      Ruled(after, q, s) && Flatten(after + Open(q)) == Flatten(gs + Open(p)) + UnitsIn(rest, s)
    decreases |rest|
  {
    hide Ruled, Turn, Flatten, Open;
    if rest == [] {
      after := gs;
      NothingAdded(Flatten(gs + Open(p)));
    } else {
      UnitsInFirst(rest, s);
      var middle := TurnKeepsRule(gs, p, rest[0], s);
      after := ScanKeepsRule(middle, Turn(p, rest[0], s), rest[1..], s);
      Assoc(Flatten(gs + Open(p)), UnitsIn([rest[0]], s), UnitsIn(rest[1..], s));
    }
  }

  /** Phase 1, when the first sentence is not blank: its chunks are the joined groups of the units of the
      sentences in order, and the rule decides every place between two of them. Two sentences stand in one
      group only where the rule lets the second join, and are parted only where it does not. */
  lemma Phase1IsJustified(sentences: seq<string>, s: Settings) returns (gs: seq<seq<Unit>>)
    requires sentences != [] && !Blank(sentences[0]) && s.max > 0
    ensures ChunksOf(gs, s.sep) == InitialChunks(sentences, s)
    ensures Flatten(gs) == [Unit(sentences[0], false)] + UnitsIn(sentences[1..], s)
    ensures Justified(gs, s)
  {
    var p := FirstScan(sentences[0]);
    StartIsRuled(sentences[0], s);
    var closed := ScanKeepsRule([], p, sentences[1..], s);
    var q := Scanned(p, sentences[1..], s);
    gs := closed + Open(q);
    FinishedIs(q, s);
    ChunksAppend(closed, Open(q), s.sep);
    hide Scanned, Finished, Open, ChunksOf, Flatten, UnitsIn, Justified;
  }

  lemma StartIsRuled(x: string, s: Settings)
    requires !Blank(x)
    ensures Ruled([], FirstScan(x), s)
    ensures Flatten([] + Open(FirstScan(x))) == [Unit(x, false)]
  {
    FreshRecalls([], x, s);
    WholeOne(x);
    SingleJoined(Unit(x, false), s);
    var g := [Unit(x, false)];
    JustifiedPush([], g, s);
    OneGroup(g);
    assert [] + [g] == [g];
    hide Recalls, WellJoined, SentenceUnits;
  }

  // ----- both phases on two sentences

  /** The defaults: a chunk size of 500 where none is given, no minimum below zero, and a lookahead of one chunk
      or two. */
  lemma SettingsAre(s: Settings, chunkSize: int, maxChunkSize: int, minChunkSize: int, mergingRange: int)
    ensures var r := Normalised(s, chunkSize, maxChunkSize, minChunkSize, mergingRange);
      && (maxChunkSize > 0 ==> r.max == maxChunkSize)
      && (maxChunkSize <= 0 && chunkSize > 0 ==> r.max == chunkSize)
      && (maxChunkSize <= 0 && chunkSize <= 0 ==> r.max == 500)
      && (minChunkSize >= 0 ==> r.min == minChunkSize) && (minChunkSize <= 0 ==> r.min == 0)
      && (mergingRange >= 2 ==> r.range == 2) && (mergingRange < 2 ==> r.range == 1)
      && r == s.(max := r.max, min := r.min, range := r.range)
  {
  }

  lemma SolidSum(a: string, b: string, c: string)
    requires Solid(a) && Solid(c)
    ensures Solid(a + b + c)
  {
    var s := a + b + c;
    assert s[0] == a[0] && s[|s| - 1] == c[|c| - 1];
  }

  lemma FinalOne(m: string, n: int)
    requires Solid(m) && (n > 0 ==> |m| <= n)
    ensures FinalPiece(m, n) == [m]
  {
    Trimmed(m);
  }

  lemma FinalTwo(a: string, b: string, n: int)
    requires Solid(a) && Solid(b) && (n > 0 ==> |a| <= n && |b| <= n)
    ensures FinalChunks([a], n) == [a]
    ensures FinalChunks([a, b], n) == [a, b]
  {
    FinalOne(a, n);
    FinalOne(b, n);
    hide FinalPiece;
    assert [a, b][1..] == [b] && [b][1..] == [] && [a][1..] == [];
    assert FinalChunks([], n) == [];
  }

  lemma InitialTwo(a: string, b: string, s: Settings)
    requires !Blank(a) && !Blank(b) && |b| <= s.max
    ensures InitialChunks([a, b], s)
         == if |a| + |s.sep| + |b| <= s.max && (s.similarity(a, b) >= s.initial || |a| < s.min)
            then [a + s.sep + b] else [a, b]
  {
    EmptyIsBlank();
    var p := FirstScan(a);
    var q := Turn(p, b, s);
    assert [a, b][1..] == [b] && [b][1..] == [];
    assert Scanned(q, [], s) == q && Scanned(p, [b], s) == q;
    assert [a, b] == [a] + [b];
    JoinFirst(a, [b], s.sep);
    JoinedIsNotBlank(a, b, s.sep);
    hide Blank, Join, Pieces;
  }

  lemma JoinedIsNotBlank(a: string, b: string, sep: string)
    requires !Blank(a)
    ensures !Blank(a + sep + b)
  {
    BlankAppend(a + sep, b);
    BlankAppend(a, sep);
  }

  lemma MergedTwo(a: string, b: string, s: Settings)
    requires b != ""
    ensures MergedFrom(a, [b], s)
         == if |a| + |s.sep| + |b| <= s.max && (|a| < s.min || s.similarity(a, b) > s.merging)
            then [a + s.sep + b] else [a, b]
  {
    assert [b][1..] == [];
    OneMerged(b, s);
    OneMerged(a + s.sep + b, s);
    assert GlueAll(a, [b], 1, s) == Glue(a, b, s) by {
      assert GlueAll(a, [b], 0, s) == a;
    }
    hide GlueAll;
  }

  /** Two sentences become one chunk exactly when they fit together and the first is below the minimum, or they
      are similar enough for one of the phases. */
  lemma TwoSentences(a: string, b: string, s: Settings, chunkSize: int)
    requires Solid(a) && Solid(b) && |a| <= s.max && |b| <= s.max && (chunkSize > 0 ==> s.max <= chunkSize)
    ensures var together := |a| + |s.sep| + |b| <= s.max
        && (|a| < s.min || s.similarity(a, b) >= s.initial || s.similarity(a, b) > s.merging);
      DoubleMerged([a, b], s, chunkSize) == Chunks(if together then [a + s.sep + b] else [a, b])
  {
    SolidIsNotBlank(a);
    SolidIsNotBlank(b);
    hide *;
    InitialTwo(a, b, s);
    var c := a + s.sep + b;
    if |c| <= s.max && (s.similarity(a, b) >= s.initial || |a| < s.min) {
      OneMerged(c, s);
      TwoMerged([a, b], [c], s, chunkSize);
    } else {
      MergedTwo(a, b, s);
      TwoMerged([a, b], [a, b], s, chunkSize);
    }
    FinalTwo(a, b, chunkSize);
    if |c| <= s.max {
      SolidSum(a, s.sep, b);
      FinalTwo(c, a, chunkSize);
    }
  }

  lemma OneMerged(c: string, s: Settings)
    ensures MergedFrom(c, [], s) == [c]
  {
  }

  lemma TwoMerged(sentences: seq<string>, initial: seq<string>, s: Settings, chunkSize: int)
    requires sentences != [] && InitialChunks(sentences, s) == initial && initial != []
    ensures |initial| == 1 ==>
      DoubleMerged(sentences, s, chunkSize) == Chunks(FinalChunks(MergedFrom(initial[0], [], s), chunkSize))
    ensures |initial| == 2 ==>
      DoubleMerged(sentences, s, chunkSize)
        == Chunks(FinalChunks(MergedFrom(initial[0], [initial[1]], s), chunkSize))
  {
    hide InitialChunks, MergedFrom, FinalChunks;
    if |initial| == 1 {
      assert initial[1..] == [];
    } else if |initial| == 2 {
      assert initial[1..] == [initial[1]];
    }
  }
}
