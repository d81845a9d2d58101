/** wordwrap of pkg/xphp2go/string.go, on bytes. */
module Wordwrap {
  import opened Common

  type Bytes = seq<bv8>

  const SPACE: bv8 := 0x20

  /** The two panics: an empty break string, and cutting lines of width zero. */
  datatype Result = Wrapped(text: Bytes) | EmptyBreakPanic | ZeroWidthPanic

  /** What ends a line of the output: a break string that was in the input, a space that became a
      break, a break put between two bytes, or the end of the text. */
  datatype Ending = Kept | Replaced | Inserted | Final

  datatype Piece = Piece(line: Bytes, end: Ending)

  /** The fixed parameters of one call. */
  datatype Wrapper = Wrapper(s: Bytes, br: Bytes, width: nat, cut: bool) {

    predicate Valid() { br != [] && (cut ==> width > 0) }

    /** A break string in the input is respected, except at the very end of the text. */
    predicate BreakAt(c: nat) { c + |br| < |s| && s[c..c + |br|] == br }

    /** The last space strictly between b and c, or b if there is none. */
    function LastSpace(b: nat, c: nat): (k: nat)
      requires b <= c <= |s|
      ensures b <= k && (k == b || (k < c && s[k] == SPACE))
      ensures forall i | k < i < c :: s[i] != SPACE
      decreases c
    {
      if c <= b + 1 then b
      else if s[c - 1] == SPACE then c - 1
      else LastSpace(b, c - 1)
    }

    /** A line that starts at b is ended when the scan reaches c. */
    predicate Stops(b: nat, c: nat)
      requires b <= c <= |s|
    {
      || c == |s|
      || BreakAt(c)
      || (c - b >= width && (s[c] == SPACE || cut || LastSpace(b, c) > b))
    }

    function Stop(b: nat, c: nat): (e: nat)
      requires b <= c <= |s|
      ensures c <= e <= |s| && Stops(b, e)
      ensures forall k | c <= k < e :: !Stops(b, k)
      decreases |s| - c
    {
      if Stops(b, c) then c else Stop(b, c + 1)
    }

    /** The line that starts at b, and where the next one starts. */
    function Line(b: nat): (r: (Piece, nat))
      requires Valid() && b < |s|
      ensures b < r.1 <= |s|
    {
      var c := Stop(b, b);
      var sp := LastSpace(b, c);
      if c == |s| then (Piece(s[b..], Final), c)
      else if BreakAt(c) then (Piece(s[b..c], Kept), c + |br|)
      else if s[c] == SPACE then (Piece(s[b..c], Replaced), c + 1)
      else if sp > b then (Piece(s[b..sp], Replaced), sp + 1)
      else (Piece(s[b..c], Inserted), c)
    }

    function Pieces(b: nat): seq<Piece>
      requires Valid() && b <= |s|
      decreases |s| - b
    {
      if b == |s| then [] else var (piece, next) := Line(b); [piece] + Pieces(next)
    }
  }

  /** The output: every line but the final one is followed by the break string. */
  function Render(pieces: seq<Piece>, br: Bytes): Bytes {
    if pieces == [] then []
    else pieces[0].line + (if pieces[0].end.Final? then [] else br) + Render(pieces[1..], br)
  }

  /** What stood in the input after a line that ended so. */
  function Gap(end: Ending, br: Bytes): Bytes {
    match end
    case Kept => br
    case Replaced => [SPACE]
    case _ => []
  }

  /** The input that the pieces came from. */
  function Restore(pieces: seq<Piece>, br: Bytes): Bytes {
    if pieces == [] then [] else pieces[0].line + Gap(pieces[0].end, br) + Restore(pieces[1..], br)
  }

  function Wrap(s: Bytes, br: Bytes, width: nat, cut: bool): Bytes
    requires br != [] && (cut ==> width > 0)
  {
    Render(Wrapper(s, br, width, cut).Pieces(0), br)
  }

  lemma SlicesJoin(s: Bytes, b: nat, e: nat, n: nat)
    requires b <= e <= n <= |s|
    ensures s[b..] == s[b..e] + s[e..n] + s[n..]
  {
  }

  lemma LineRestores(w: Wrapper, b: nat)
    requires w.Valid() && b < |w.s|
    ensures var (piece, next) := w.Line(b);
      w.s[b..] == piece.line + Gap(piece.end, w.br) + w.s[next..]
  {
    hide w.Line, Gap;
    var (piece, next) := w.Line(b);
    LineIsSlice(w, b);
    SlicesJoin(w.s, b, b + |piece.line|, next);
  }

  /** Where the line that starts at b ends. */
  function LineEnd(w: Wrapper, b: nat): (e: nat)
    requires w.Valid() && b < |w.s|
    ensures b <= e <= |w.s|
  {
    var c := w.Stop(b, b);
    var sp := w.LastSpace(b, c);
    if c < |w.s| && !w.BreakAt(c) && w.s[c] != SPACE && sp > b then sp else c
  }

  lemma LineEndsThere(w: Wrapper, b: nat)
    requires w.Valid() && b < |w.s|
    ensures var (piece, next) := w.Line(b);
      var e := LineEnd(w, b);
      e <= next && piece.line == w.s[b..e] && Gap(piece.end, w.br) == w.s[e..next]
  {
    hide w.Stop, w.LastSpace, w.BreakAt;
    var c := w.Stop(b, b);
    LineIs(w, b);
    GapIs(w.br);
    SliceIs(w.s, b, c);
    if c < |w.s| && !w.BreakAt(c) && w.Line(b).0.end.Replaced? {
      ReplacedIsSlice(w.s, b, LineEnd(w, b));
    }
  }

  lemma LineIsSlice(w: Wrapper, b: nat)
    requires w.Valid() && b < |w.s|
    ensures var (piece, next) := w.Line(b);
      var e := b + |piece.line|;
      e <= next && piece.line == w.s[b..e] && Gap(piece.end, w.br) == w.s[e..next]
  {
    LineEndsThere(w, b);
    hide *;
  }

  lemma SliceIs(s: Bytes, b: nat, c: nat)
    requires b <= c <= |s|
    ensures |s[b..c]| == c - b && s[b..|s|] == s[b..] && s[c..c] == []
  {
  }

  lemma ReplacedIsSlice(s: Bytes, b: nat, e: nat)
    requires b <= e < |s| && s[e] == SPACE
    ensures |s[b..e]| == e - b && s[e..e + 1] == [SPACE]
  {
  }

  lemma GapIs(br: Bytes)
    ensures Gap(Kept, br) == br && Gap(Replaced, br) == [SPACE] && Gap(Inserted, br) == Gap(Final, br) == []
  {
  }

  lemma LineIs(w: Wrapper, b: nat)
    requires w.Valid() && b < |w.s|
    ensures var c := w.Stop(b, b);
      var sp := w.LastSpace(b, c);
      && (sp == b || (b < sp < c && w.s[sp] == SPACE))
      && (w.BreakAt(c) ==> c + |w.br| < |w.s| && w.s[c..c + |w.br|] == w.br)
      && w.Line(b) ==
        if c == |w.s| then (Piece(w.s[b..], Final), c)
        else if w.BreakAt(c) then (Piece(w.s[b..c], Kept), c + |w.br|)
        else if w.s[c] == SPACE then (Piece(w.s[b..c], Replaced), c + 1)
        else if sp > b then (Piece(w.s[b..sp], Replaced), sp + 1)
        else (Piece(w.s[b..c], Inserted), c)
  {
    hide w.Stop, w.LastSpace;
  }

  lemma Tail(s: Bytes, b: nat)
    requires b <= |s|
    ensures s[b..|s|] == s[b..]
  {
  }

  /** Nothing is lost or moved: the input and the output are the same lines, joined by what each
      line ended with in the input and by the break string in the output. */
  lemma {:induction false} PiecesRestoreInput(w: Wrapper, b: nat)
    requires w.Valid() && b <= |w.s|
    ensures Restore(w.Pieces(b), w.br) == w.s[b..]
    decreases |w.s| - b
  {
    if b < |w.s| {
      LineRestores(w, b);
      PiecesRestoreInput(w, w.Line(b).1);
    }
  }

  /** No line is longer than the width when cutting is on; otherwise an over-long line is a single
      word: it has no space after its first byte. */
  ghost predicate Fits(p: Piece, width: nat, cut: bool) {
    |p.line| <= width || (!cut && forall k | 0 < k < |p.line| :: p.line[k] != SPACE)
  }

  /** The scan runs past the width only over a word that may not be cut. */
  lemma LongLineIsOneWord(w: Wrapper, b: nat)
    requires w.Valid() && b < |w.s| && w.Stop(b, b) - b > w.width
    ensures !w.cut && forall k | b < k < w.Stop(b, b) :: w.s[k] != SPACE
  {
    hide w.Stop, w.LastSpace;
    var last := w.Stop(b, b) - 1;
    assert !w.Stops(b, last);
    assert w.LastSpace(b, last) == b;
  }

  lemma LineFits(w: Wrapper, b: nat)
    requires w.Valid() && b < |w.s|
    ensures Fits(w.Line(b).0, w.width, w.cut)
  {
    hide w.Stop, w.LastSpace;
    var c := w.Stop(b, b);
    if c - b > w.width {
      LongLineIsOneWord(w, b);
      assert !(b < w.LastSpace(b, c));
    }
  }

  lemma {:induction false} LinesFit(w: Wrapper, b: nat)
    requires w.Valid() && b <= |w.s|
    ensures forall p <- w.Pieces(b) :: Fits(p, w.width, w.cut)
    decreases |w.s| - b
  {
    if b < |w.s| {
      LineFits(w, b);
      LinesFit(w, w.Line(b).1);
    }
  }

  /** The whole call: the output is a rendering of lines that all fit and that restore the input. */
  lemma WrapIsFaithful(s: Bytes, br: Bytes, width: nat, cut: bool)
    requires br != [] && (cut ==> width > 0)
    ensures var pieces := Wrapper(s, br, width, cut).Pieces(0);
      && Wrap(s, br, width, cut) == Render(pieces, br)
      && Restore(pieces, br) == s
      && (forall p <- pieces :: Fits(p, width, cut))
  {
    var w := Wrapper(s, br, width, cut);
    PiecesRestoreInput(w, 0);
    LinesFit(w, 0);
    assert s[0..] == s;
  }

  function JoinLines(lines: seq<Bytes>, br: Bytes): Bytes {
    if lines == [] then [] else if |lines| == 1 then lines[0] else lines[0] + br + JoinLines(lines[1..], br)
  }

  /** The lines of the output: those of the pieces, and an empty one behind a break at the very end. */
  function OutputLines(pieces: seq<Piece>): seq<Bytes> {
    if pieces == [] then [[]]
    else if pieces[0].end.Final? then [pieces[0].line]
    else [pieces[0].line] + OutputLines(pieces[1..])
  }

  lemma {:induction false} OutputFrom(w: Wrapper, b: nat)
    requires w.Valid() && b <= |w.s|
    ensures Render(w.Pieces(b), w.br) == JoinLines(OutputLines(w.Pieces(b)), w.br)
    decreases |w.s| - b
  {
    if b < |w.s| {
      var (piece, next) := w.Line(b);
      var later := w.Pieces(next);
      TailAfter(piece, later);
      if piece.end.Final? {
        FinalIsLast(w, b);
        NothingAdded(piece.line);
      } else {
        OutputFrom(w, next);
        TailAfter(piece.line, OutputLines(later));
      }
    }
  }

  lemma FinalIsLast(w: Wrapper, b: nat)
    requires w.Valid() && b < |w.s| && w.Line(b).0.end.Final?
    ensures w.Pieces(w.Line(b).1) == []
  {
  }

  /** The output is its lines with the break string between them. */
  lemma OutputIsLinesJoined(s: Bytes, br: Bytes, width: nat, cut: bool)
    requires br != [] && (cut ==> width > 0)
    ensures Wrap(s, br, width, cut) == JoinLines(OutputLines(Wrapper(s, br, width, cut).Pieces(0)), br)
  {
    OutputFrom(Wrapper(s, br, width, cut), 0);
  }

  /** A break is made only where it is needed. After a line that gave up a space, the word that
      follows would not have fitted: up to one past the width there is no further space, break
      string or end of the text. A line is cut inside a word only at exactly the width, and only
      if it has no space to give up. */
  lemma BreaksAreNeeded(w: Wrapper, b: nat)
    requires w.Valid() && b < |w.s|
    ensures var (piece, next) := w.Line(b);
      var e := b + |piece.line|;
      && (piece.end.Replaced? ==>
            b + w.width < |w.s| && forall k | e < k <= b + w.width :: w.s[k] != SPACE && !w.BreakAt(k))
      && (piece.end.Inserted? ==> |piece.line| == w.width && forall k | b < k < e :: w.s[k] != SPACE)
  {
    hide w.Stop, w.LastSpace;
    var c := w.Stop(b, b);
    var sp := w.LastSpace(b, c);
    var (piece, next) := w.Line(b);
    if c < |w.s| && !w.BreakAt(c) {
      assert c - b >= w.width;
      if c - b > w.width {
        LongLineIsOneWord(w, b);
      }
      forall k | b + |piece.line| < k <= b + w.width
        ensures piece.end.Replaced? ==> w.s[k] != SPACE && !w.BreakAt(k)
      {
        if k < c {
          assert !w.Stops(b, k);
        }
      }
    }
  }

  // ----- the scan

  lemma {:induction false} SkipTo(w: Wrapper, b: nat, c: nat, d: nat)
    requires b <= c <= d <= |w.s|
    requires forall k | c <= k < d :: !w.Stops(b, k)
    ensures w.Stop(b, c) == w.Stop(b, d)
    decreases d - c
  {
    if c < d {
      SkipTo(w, b, c + 1, d);
    }
  }

  /** Ending a line early restarts the scan without looking back. */
  lemma Restart(w: Wrapper, b: nat, n: nat, c: nat)
    requires b < n <= c < |w.s| && c - n < w.width
    requires w.Stop(b, b) >= c && !w.BreakAt(c)
    ensures w.Stop(n, n) == w.Stop(n, c + 1)
  {
    forall k | n <= k < c + 1
      ensures !w.Stops(n, k)
    {
      if k < c {
        assert !w.Stops(b, k);
      }
    }
    SkipTo(w, n, n, c + 1);
  }

  lemma TakeLine(w: Wrapper, ns: Bytes, b: nat)
    requires w.Valid() && b < |w.s|
    ensures var (piece, next) := w.Line(b);
      ns + Render(w.Pieces(b), w.br)
        == ns + (piece.line + if piece.end.Final? then [] else w.br) + Render(w.Pieces(next), w.br)
  {
    hide w.Line;
  }

  /** ns = append(ns, s[i:j]...). */
  function Copy(ns: Bytes, s: Bytes, i: nat, j: nat): Bytes
    requires i <= j <= |s|
  {
    ns + s[i..j]
  }

  /** ... then the break string. */
  function Emit(ns: Bytes, s: Bytes, i: nat, j: nat, br: Bytes): Bytes
    requires i <= j <= |s|
  {
    ns + (s[i..j] + br)
  }

  lemma CopyBreak(ns: Bytes, s: Bytes, b: nat, c: nat, br: Bytes)
    requires b <= c && c + |br| <= |s| && s[c..c + |br|] == br
    ensures Copy(ns, s, b, c + |br|) == ns + (s[b..c] + br)
  {
    assert s[b..c + |br|] == s[b..c] + s[c..c + |br|];
  }

  /** The state of the scan: ns is the output for the text before b, nothing ends the line that
      starts at b before c, and sp is the last space in between if it lies beyond b. */
  ghost predicate Scanned(w: Wrapper, ns: Bytes, b: nat, sp: nat, c: nat)
    requires w.Valid() && b <= c <= |w.s|
  {
    && sp <= c
    && Render(w.Pieces(0), w.br) == ns + Render(w.Pieces(b), w.br)
    && w.Stop(b, b) == w.Stop(b, c)
    && w.LastSpace(b, c) == (if sp > b then sp else b)
    && (sp > b || w.cut ==> c - b <= w.width)
  }

  lemma LineIsKept(w: Wrapper, b: nat, c: nat)
    requires w.Valid() && b <= c < |w.s| && w.BreakAt(c) && w.Stop(b, b) == w.Stop(b, c)
    ensures c + |w.br| <= |w.s| && w.Line(b) == (Piece(w.s[b..c], Kept), c + |w.br|)
  {
    assert w.Stop(b, b) == c;
    hide w.Stop, w.LastSpace;
  }

  lemma KeptRenders(w: Wrapper, ns: Bytes, b: nat, c: nat)
    requires w.Valid() && b <= c < |w.s| && w.BreakAt(c) && w.Stop(b, b) == w.Stop(b, c)
    ensures c + |w.br| <= |w.s|
    ensures ns + Render(w.Pieces(b), w.br)
         == Copy(ns, w.s, b, c + |w.br|) + Render(w.Pieces(c + |w.br|), w.br)
  {
    hide *;
    LineIsKept(w, b, c);
    TakeLine(w, ns, b);
    BreakIs(w, c);
    CopyBreak(ns, w.s, b, c, w.br);
    EndingIs();
  }

  lemma BreakIs(w: Wrapper, c: nat)
    requires w.BreakAt(c)
    ensures c + |w.br| < |w.s| && w.s[c..c + |w.br|] == w.br
  {
  }

  lemma EndingIs()
    ensures !Kept.Final? && !Replaced.Final? && !Inserted.Final?
  {
  }

  /** What Scanned says of the output and of where the line ends. */
  lemma ScannedIs(w: Wrapper, ns: Bytes, b: nat, sp: nat, c: nat)
    requires w.Valid() && b <= c <= |w.s| && Scanned(w, ns, b, sp, c)
    ensures Render(w.Pieces(0), w.br) == ns + Render(w.Pieces(b), w.br) && w.Stop(b, b) == w.Stop(b, c)
  {
    hide Render, w.Pieces, w.Stop, w.LastSpace;
  }

  /** A fresh line at n. */
  lemma ScannedFresh(w: Wrapper, ns: Bytes, n: nat)
    requires w.Valid() && n <= |w.s| && Render(w.Pieces(0), w.br) == ns + Render(w.Pieces(n), w.br)
    ensures Scanned(w, ns, n, n, n)
  {
    FreshLine(w, n);
    hide Render, w.Pieces, w.Stop, w.LastSpace;
  }

  lemma AtKeptBreak(w: Wrapper, ns: Bytes, b: nat, sp: nat, c: nat, ns': Bytes, b': nat, sp': nat, c': nat)
    requires w.Valid() && b <= c <= |w.s| && Scanned(w, ns, b, sp, c) && c < |w.s| && w.BreakAt(c)
    requires c + |w.br| <= |w.s| && ns' == Copy(ns, w.s, b, c + |w.br|)
    requires b' == c + |w.br| && sp' == c + |w.br| && c' == c + |w.br|
    ensures b' <= c' <= |w.s| && Scanned(w, ns', b', sp', c')
  {
    hide *;
    ScannedIs(w, ns, b, sp, c);
    KeptRenders(w, ns, b, c);
    ScannedFresh(w, ns', b');
  }

  lemma FreshLine(w: Wrapper, b: nat)
    requires b <= |w.s|
    ensures w.LastSpace(b, b) == b
  {
  }

  lemma AtSpaceInFullLine(w: Wrapper, ns: Bytes, b: nat, sp: nat, c: nat, ns': Bytes, b': nat, sp': nat, c': nat)
    requires w.Valid() && b <= c <= |w.s| && Scanned(w, ns, b, sp, c) && c < |w.s| && !w.BreakAt(c)
    requires w.s[c] == SPACE && c - b >= w.width
    requires ns' == Emit(ns, w.s, b, c, w.br)
    requires b' == c + 1 && sp' == c && c' == c + 1
    ensures b' <= c' <= |w.s| && Scanned(w, ns', b', sp', c')
  {
    hide Render, w.Pieces;
    assert w.Line(b) == (Piece(w.s[b..c], Replaced), c + 1);
    TakeLine(w, ns, b);
  }

  lemma AtSpace(w: Wrapper, ns: Bytes, b: nat, sp: nat, c: nat, ns': Bytes, b': nat, sp': nat, c': nat)
    requires w.Valid() && b <= c <= |w.s| && Scanned(w, ns, b, sp, c) && c < |w.s| && !w.BreakAt(c)
    requires w.s[c] == SPACE && c - b < w.width
    requires ns' == ns
    requires b' == b && sp' == c && c' == c + 1
    ensures b' <= c' <= |w.s| && Scanned(w, ns', b', sp', c')
  {
    hide Render, w.Pieces;
  }

  lemma AtCut(w: Wrapper, ns: Bytes, b: nat, sp: nat, c: nat, ns': Bytes, b': nat, sp': nat, c': nat)
    requires w.Valid() && b <= c <= |w.s| && Scanned(w, ns, b, sp, c) && c < |w.s| && !w.BreakAt(c)
    requires w.s[c] != SPACE && c - b >= w.width && w.cut && b >= sp
    requires ns' == Emit(ns, w.s, b, c, w.br)
    requires b' == c && sp' == c && c' == c + 1
    ensures b' <= c' <= |w.s| && Scanned(w, ns', b', sp', c')
  {
    hide Render, w.Pieces;
    assert w.Line(b) == (Piece(w.s[b..c], Inserted), c);
    TakeLine(w, ns, b);
  }

  lemma AtWordBreak(w: Wrapper, ns: Bytes, b: nat, sp: nat, c: nat, ns': Bytes, b': nat, sp': nat, c': nat)
    requires w.Valid() && b <= c <= |w.s| && Scanned(w, ns, b, sp, c) && c < |w.s| && !w.BreakAt(c)
    requires w.s[c] != SPACE && c - b >= w.width && b < sp
    requires ns' == Emit(ns, w.s, b, sp, w.br)
    requires b' == sp + 1 && sp' == sp + 1 && c' == c + 1
    ensures b' <= c' <= |w.s| && Scanned(w, ns', b', sp', c')
  {
    hide Render, w.Pieces;
    assert w.Line(b) == (Piece(w.s[b..sp], Replaced), sp + 1);
    TakeLine(w, ns, b);
    Restart(w, b, sp + 1, c);
    assert w.LastSpace(sp + 1, c + 1) == sp + 1;
  }

  lemma AtOther(w: Wrapper, ns: Bytes, b: nat, sp: nat, c: nat, ns': Bytes, b': nat, sp': nat, c': nat)
    requires w.Valid() && b <= c <= |w.s| && Scanned(w, ns, b, sp, c) && c < |w.s| && !w.BreakAt(c)
    requires w.s[c] != SPACE && (c - b >= w.width ==> !w.cut && b >= sp)
    requires ns' == ns
    requires b' == b && sp' == sp && c' == c + 1
    ensures b' <= c' <= |w.s| && Scanned(w, ns', b', sp', c')
  {
    hide Render, w.Pieces;
  }

  /** The test of the source: first byte first, then the whole break string. */
  predicate Matches(str: Bytes, br: Bytes, c: nat)
    requires br != [] && c < |str|
  {
    str[c] == br[0] && c + |br| < |str| && str[c..c + |br|] == br
  }

  lemma MatchesIsBreakAt(w: Wrapper, c: nat)
    requires w.Valid() && c < |w.s|
    ensures Matches(w.s, w.br, c) <==> w.BreakAt(c)
    ensures w.BreakAt(c) ==> c + |w.br| < |w.s|
  {
    if w.BreakAt(c) {
      assert w.s[c] == w.s[c..c + |w.br|][0];
    }
  }

  lemma ScanStarts(w: Wrapper)
    requires w.Valid()
    ensures Scanned(w, [], 0, 0, 0)
  {
  }

  lemma ScanEnds(w: Wrapper, ns: Bytes, b: nat, sp: nat)
    requires w.Valid() && b <= |w.s| && Scanned(w, ns, b, sp, |w.s|)
    ensures Wrap(w.s, w.br, w.width, w.cut) == if b < |w.s| then Copy(ns, w.s, b, |w.s|) else ns
  {
    if b < |w.s| {
      Tail(w.s, b);
      assert w.Line(b) == (Piece(w.s[b..], Final), |w.s|);
      TakeLine(w, ns, b);
    }
    hide w.Line, w.Stop, w.LastSpace;
  }

  /** The branches of the loop for a byte inside a word. */
  method InsideWord(w: Wrapper, out: Bytes, b: nat, sp: nat, c: nat)
      returns (ns: Bytes, laststart: nat, lastspace: nat)
    requires w.Valid() && b <= c < |w.s| && Scanned(w, out, b, sp, c)
    requires !w.BreakAt(c) && w.s[c] != SPACE
    ensures laststart <= c + 1 && Scanned(w, ns, laststart, lastspace, c + 1)
  {
    ns, laststart, lastspace := out, b, sp;
    if c - laststart >= w.width && w.cut && laststart >= lastspace {
      ns := Emit(ns, w.s, laststart, c, w.br);
      laststart := c;
      lastspace := c;
      AtCut(w, out, b, sp, c, ns, laststart, lastspace, c + 1);
    } else if c - laststart >= w.width && laststart < lastspace {
      ns := Emit(ns, w.s, laststart, lastspace, w.br);
      lastspace := lastspace + 1;
      laststart := lastspace;
      AtWordBreak(w, out, b, sp, c, ns, laststart, lastspace, c + 1);
    } else {
      AtOther(w, out, b, sp, c, ns, laststart, lastspace, c + 1);
    }
  }

  /** The body of the loop over current. */
  method Turn(w: Wrapper, out: Bytes, b: nat, sp: nat, c: nat)
      returns (ns: Bytes, laststart: nat, lastspace: nat, current: nat)
    requires w.Valid() && b <= c < |w.s| && Scanned(w, out, b, sp, c)
    ensures laststart <= current <= |w.s| && c < current && Scanned(w, ns, laststart, lastspace, current)
  {
    MatchesIsBreakAt(w, c);
    ns, laststart, lastspace, current := out, b, sp, c;
    if Matches(w.s, w.br, c) {
      ns := Copy(ns, w.s, laststart, current + |w.br|);
      current := current + |w.br| - 1;
      lastspace := current + 1;
      laststart := lastspace;
      AtKeptBreak(w, out, b, sp, c, ns, laststart, lastspace, current + 1);
    } else if w.s[current] == SPACE {
      if current - laststart >= w.width {
        ns := Emit(ns, w.s, laststart, current, w.br);
        laststart := current + 1;
        AtSpaceInFullLine(w, out, b, sp, c, ns, laststart, current, current + 1);
      } else {
        AtSpace(w, out, b, sp, c, ns, laststart, current, current + 1);
      }
      lastspace := current;
    } else {
      ns, laststart, lastspace := InsideWord(w, ns, laststart, lastspace, current);
    }
    current := current + 1;
  }

  method WrapLines(w: Wrapper) returns (ns: Bytes)
    requires w.Valid()
    ensures ns == Wrap(w.s, w.br, w.width, w.cut)
  {
    hide *;
    var current: nat, laststart: nat, lastspace: nat := 0, 0, 0;
    ns := [];
    ScanStarts(w);
    while current < |w.s|
      invariant laststart <= current <= |w.s| && Scanned(w, ns, laststart, lastspace, current)
    {
      ns, laststart, lastspace, current := Turn(w, ns, laststart, lastspace, current);
    }
    ScanEnds(w, ns, laststart, lastspace);
    if laststart != current {
      ns := Copy(ns, w.s, laststart, current);
    }
  }

  const INT_LIMIT: nat := 0x8000_0000_0000_0000

  /** int(width): negative from 2 to the 63 on. */
  function LineLength(width: nat): int
    requires width < 2 * INT_LIMIT
  {
    if width < INT_LIMIT then width else width - 2 * INT_LIMIT
  }

  /** A negative line length is always reached, as zero is. */
  method Wordwrap(str: Bytes, width: nat, br: Bytes, cut: bool) returns (r: Result)
    requires width < 2 * INT_LIMIT && (cut ==> width < INT_LIMIT)
    ensures r == if str == [] then Wrapped([])
                 else if br == [] then EmptyBreakPanic
                 else if width == 0 && cut then ZeroWidthPanic
                 else Wrapped(Wrap(str, br, if width < INT_LIMIT then width else 0, cut))
  {
    var linelen := LineLength(width);
    if |str| == 0 {
      return Wrapped([]);
    }
    if |br| == 0 {
      return EmptyBreakPanic;
    }
    if linelen == 0 && cut {
      return ZeroWidthPanic;
    }
    var ns := WrapLines(Wrapper(str, br, if linelen < 0 then 0 else linelen, cut));
    r := Wrapped(ns);
  }
}
