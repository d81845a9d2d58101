/** Where the sentences of splitIntoSentencesPreserveNewlinesWithCodeBlocks end: at end marks, and never inside a
    heading, a list item or a code block. */
module SentenceMarks {
  import opened Common
  import opened Text
  import opened RecursiveCharacterProofs
  import opened Sentences
  import opened SentenceSplit

  /** No end mark, except as the last rune before the newline. */
  predicate OneMark(s: string) {
    forall k | 0 <= k < |s| && s[k] in ".!?;。！？；" :: k == |s| - 1 || (k == |s| - 2 && s[|s| - 1] == '\n')
  }

  predicate EndsAtMark(s: string) { s != "" && s[|s| - 1] in ".!?;。！？；" }

  predicate NoMark(s: string) { forall c <- s :: c !in ".!?;。！？；" }

  /** Every sentence but the last ends at its only end mark. */
  predicate CutAtMarks(ss: seq<string>) {
    ss != [] ==> OneMark(ss[0]) && (|ss| > 1 ==> EndsAtMark(ss[0])) && CutAtMarks(ss[1..])
  }

  lemma MarkIs(c: char)
    ensures IsEndMark(c) <==> c in ".!?;。！？；"
    ensures IsEndMark(c) ==> !IsSpace(c)
  {
  }

  lemma FlushAtMark(cur: string, c: char, newline: bool)
    requires NoMark(cur) && c in ".!?;。！？；"
    ensures var now := cur + [c];
      var s := if newline then now + "\n" else now;
      Flushed(now, newline) == [s] && OneMark(s) && (!newline ==> EndsAtMark(s))
  {
    MarkIs(c);
    hide IsEndMark, IsSpace;
    var now := cur + [c];
    assert now[|cur|] == c;
    assert c in now;
    forall k | 0 <= k < |cur|
      ensures now[k] !in ".!?;。！？；"
    {
      assert now[k] == cur[k];
    }
  }

  lemma FlushAtEnd(cur: string)
    requires NoMark(cur)
    ensures CutAtMarks(Flushed(cur, true))
    ensures Concat(Flushed(cur, true)) == if Blank(cur) then "" else cur + "\n"
  {
    hide IsSpace;
    if !Blank(cur) {
      ConcatOne(cur + "\n");
      forall k | 0 <= k < |cur|
        ensures (cur + "\n")[k] !in ".!?;。！？；"
      {
        assert cur[k] in cur;
      }
    }
  }

  /** What the strings make together is s with a newline, or s without white space at its end. */
  predicate Makes(made: string, s: string) { made == s + "\n" || (made <= s && Blank(s[|made|..])) }

  lemma MakesBehind(first: string, made: string, s: string)
    requires Makes(made, s)
    ensures Makes(first + made, first + s)
  {
    hide Blank;
    if made == s + "\n" {
      Assoc(first, s, "\n");
    } else {
      assert (first + s)[|first + made|..] == s[|made|..];
    }
  }

  lemma LastMakes(cur: string)
    ensures Makes(if Blank(cur) then "" else cur + "\n", cur)
  {
    Whole(cur);
    hide IsSpace;
  }

  lemma FirstCut(s: string, more: seq<string>)
    requires OneMark(s) && (more != [] ==> EndsAtMark(s)) && CutAtMarks(more)
    ensures CutAtMarks([s] + more) && Concat([s] + more) == s + Concat(more)
  {
    TailAfter(s, more);
  }

  lemma OneMoreRune(cur: string, c: char)
    requires NoMark(cur) && c !in ".!?;。！？；"
    ensures NoMark(cur + [c])
  {
  }

  lemma NothingMore()
    ensures LineSentences("", "") == [] && Makes("", "") && CutAtMarks([]) && Concat([]) == ""
  {
  }

  lemma {:induction false} CutsFrom(cur: string, rest: string)
    requires NoMark(cur)
    ensures CutAtMarks(LineSentences(cur, rest))
    ensures Makes(Concat(LineSentences(cur, rest)), cur + rest)
    decreases |rest|
  {
    hide OneMark, EndsAtMark, NoMark, CutAtMarks, Makes, Concat, Flushed, IsEndMark, IsSpace, Blank;
    if rest == "" {
      NothingAdded(cur);
      FlushAtEnd(cur);
      LastMakes(cur);
    } else {
      var c, more := rest[0], rest[1..];
      var now, later := cur + [c], LineSentences("", more);
      FirstAndRest(rest);
      Assoc(cur, [c], more);
      MarkIs(c);
      if IsEndMark(c) {
        FlushAtMark(cur, c, |rest| == 1);
        EmptyHasNoMark();
        CutsFrom("", more);
        NothingAdded(more);
        NothingMore();
        if |rest| == 1 {
          FirstCut(now + "\n", later);
          NothingAdded(now);
          NothingAdded(now + "\n");
          WithNewline(now);
        } else {
          FirstCut(now, later);
          MakesBehind(now, Concat(later), more);
        }
      } else {
        OneMoreRune(cur, c);
        CutsFrom(now, more);
      }
    }
  }

  lemma WithNewline(s: string)
    ensures Makes(s + "\n", s)
  {
  }

  lemma EmptyHasNoMark()
    ensures NoMark("")
  {
  }

  /** The sentences of a line are the line cut behind every end mark, with a newline or without white space at
      its end. */
  lemma LineIsCutAtMarks(line: string)
    ensures CutAtMarks(LineSentences("", line))
    ensures Makes(Concat(LineSentences("", line)), line)
  {
    EmptyHasNoMark();
    hide *;
    CutsFrom("", line);
    NothingAdded(line);
  }

  // ----- what is never cut

  predicate AllDigits(s: string) { forall c <- s :: '0' <= c <= '9' }

  /** A bullet, or a number with a dot or a parenthesis. */
  ghost predicate ListItem(t: string) {
    || "- " <= t || "* " <= t
    || exists k :: 0 < k < |t| && AllDigits(t[..k]) && t[k] in ".)"
  }

  lemma {:induction false} DigitsAre(s: string)
    ensures AllDigits(s[..Digits(s)])
    ensures forall k | 0 <= k < Digits(s) :: IsDigit(s[k])
  {
    if s != "" && IsDigit(s[0]) {
      DigitsAre(s[1..]);
      var n := Digits(s[1..]);
      assert s[..n + 1] == [s[0]] + s[1..][..n];
    }
  }

  lemma {:induction false} NoMoreDigits(s: string, k: nat)
    requires k <= |s| && AllDigits(s[..k])
    ensures k <= Digits(s)
    decreases k
  {
    if k > 0 {
      var tail := s[1..][..k - 1];
      assert s[..k] == [s[0]] + tail;
      assert s[0] in s[..k] && forall c <- tail :: c in [s[0]] + tail;
      NoMoreDigits(s[1..], k - 1);
    }
  }

  lemma ListIs(t: string)
    ensures IsListLine(t) <==> ListItem(t)
  {
    DigitsAre(t);
    forall k | 0 < k < |t| && AllDigits(t[..k]) && t[k] in ".)"
      ensures k == Digits(t)
    {
      NoMoreDigits(t, k);
    }
  }

  ghost predicate Fence(line: string) { "```" <= TrimSpace(line) }

  /** A heading or a list item. */
  ghost predicate OwnLine(line: string) { "#" <= TrimSpace(line) || ListItem(TrimSpace(line)) }

  /** Outside code blocks, a heading or a list item is a sentence whole, and a line of prose is cut at its end
      marks. */
  lemma LineOutsideCode(line: string, rest: seq<string>)
    requires !Fence(line) && !Blank(line)
    ensures SentencesOfLines([line] + rest, false, [])
         == (if OwnLine(line) then [line + "\n"] else LineSentences("", line)) + SentencesOfLines(rest, false, [])
  {
    LineAdds(line, rest, false, []);
    ListIs(TrimSpace(line));
    TrimmedTwice(line);
    hide TrimSpace, IsListLine, ListItem, LineSentences, SentencesOfLines, Blank;
  }

  lemma {:induction false} CodeGoesOn(code: seq<string>, body: seq<string>, rest: seq<string>)
    requires forall line <- body :: !Fence(line)
    ensures SentencesOfLines(body + rest, true, code) == SentencesOfLines(rest, true, code + body)
    decreases |body|
  {
    hide TrimSpace, SentencesOfLines;
    if body == [] {
      NothingAdded(code);
      NothingAdded(rest);
    } else {
      var line, more := body[0], body[1..];
      FirstAndRest(body);
      Assoc([line], more, rest);
      Assoc(code, [line], more);
      assert line in body;
      LineAdds(line, more + rest, true, code);
      CodeGoesOn(code + [line], more, rest);
    }
  }

  lemma CodeOpens(open: string, body: seq<string>, rest: seq<string>)
    requires Fence(open) && forall line <- body :: !Fence(line)
    ensures SentencesOfLines([open] + body + rest, false, []) == SentencesOfLines(rest, true, [open] + body)
  {
    hide *;
    Assoc([open], body, rest);
    FenceStarts(open, body + rest);
    CodeGoesOn([open], body, rest);
  }

  lemma FenceStarts(open: string, rest: seq<string>)
    requires Fence(open)
    ensures SentencesOfLines([open] + rest, false, []) == SentencesOfLines(rest, true, [open])
  {
    hide TrimSpace, SentencesOfLines;
    LineAdds(open, rest, false, []);
    NothingAdded([open]);
  }

  /** A code block is one sentence, fences and all ... */
  lemma CodeBlockIsOneSentence(open: string, body: seq<string>, close: string, rest: seq<string>)
    requires Fence(open) && Fence(close) && forall line <- body :: !Fence(line)
    ensures SentencesOfLines([open] + body + ([close] + rest), false, [])
         == [Join([open] + body + [close], "\n") + "\n"] + SentencesOfLines(rest, false, [])
  {
    CodeOpens(open, body, [close] + rest);
    LineAdds(close, rest, true, [open] + body);
    hide TrimSpace, SentencesOfLines, Join;
  }

  /** ... and one that is never closed reaches to the end of the text. */
  lemma OpenBlockIsOneSentence(open: string, body: seq<string>)
    requires Fence(open) && forall line <- body :: !Fence(line)
    ensures SentencesOfLines([open] + body, false, []) == [Join([open] + body, "\n") + "\n"]
  {
    CodeOpens(open, body, []);
    OpenBlock(true, [open] + body);
    hide *;
    NothingAdded([open] + body);
  }
}
