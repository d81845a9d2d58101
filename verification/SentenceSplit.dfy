/** splitIntoSentencesPreserveNewlinesWithCodeBlocks of aipkg/rag/split/semantic.go: where the sentences of
    both semantic modes come from. */
module SentenceSplit {
  import opened Common
  import opened Text
  import opened RecursiveCharacterProofs
  import opened Sentences

  predicate IsEndMark(c: char) { c in {'.', '!', '?', '。', '！', '？', ';', '；'} }

  predicate IsDigit(c: char) { '0' <= c <= '9' }

  /** How many digits s starts with. */
  function Digits(s: string): (n: nat)
    ensures n <= |s|
  {
    if s == "" || !IsDigit(s[0]) then 0 else 1 + Digits(s[1..])
  }

  predicate IsListLine(t: string) {
    || "- " <= t || "* " <= t
    || (Digits(t) > 0 && Digits(t) < |t| && t[Digits(t)] in {'.', ')'})
  }

  // ----- the sentences

  /** flushCur: what has been gathered, unless it is blank. */
  function Flushed(cur: string, newline: bool): seq<string> {
    if Blank(cur) then [] else [if newline then cur + "\n" else cur]
  }

  /** The sentences of a line of prose; cur is what has been gathered since the last end mark. */
  function LineSentences(cur: string, rest: string): seq<string>
    decreases |rest|
  {
    if rest == "" then Flushed(cur, true)
    else
      var now := cur + [rest[0]];
      if IsEndMark(rest[0]) then Flushed(now, |rest| == 1) + LineSentences("", rest[1..])
      else LineSentences(now, rest[1..])
  }

  function CodeSentence(code: seq<string>): string { Join(code, "\n") + "\n" }

  /** The sentences of the lines; code holds the lines of the code block that is open, if any. */
  function SentencesOfLines(lines: seq<string>, inCode: bool, code: seq<string>): seq<string>
    decreases |lines|
  {
    if lines == [] then if inCode && code != [] then [CodeSentence(code)] else []
    else
      var line, rest := lines[0], lines[1..];
      if IsFence(line) then
        if inCode then [CodeSentence(code + [line])] + SentencesOfLines(rest, false, [])
        else SentencesOfLines(rest, true, code + [line])
      else if inCode then SentencesOfLines(rest, true, code + [line])
      else if Blank(line) then SentencesOfLines(rest, false, code)
      else if IsMarkdownHeadingLine(TrimSpace(line)) || IsListLine(TrimSpace(line)) then
        [line + "\n"] + SentencesOfLines(rest, false, code)
      else LineSentences("", line) + SentencesOfLines(rest, false, code)
  }

  function SentencesOf(text: string): seq<string> { SentencesOfLines(InputLines(text), false, []) }

  // ----- the loops

  method Flush(cur: string, withNewline: bool) returns (out: seq<string>)
    ensures out == Flushed(cur, withNewline)
  {
    TrimSpaceEmpty(cur);
    if TrimSpace(cur) == "" {
      return [];
    }
    if withNewline {
      out := [cur + "\n"];
    } else {
      out := [cur];
    }
  }

  lemma LineFrom(out: seq<string>, cur: string, line: string, idx: nat)
    requires idx < |line|
    ensures var now := cur + [line[idx]];
      out + LineSentences(cur, line[idx..]) ==
        if IsEndMark(line[idx]) then out + Flushed(now, idx == |line| - 1) + LineSentences("", line[idx + 1..])
        else out + LineSentences(now, line[idx + 1..])
  {
    hide Flushed, IsEndMark;
    assert line[idx..][1..] == line[idx + 1..];
  }

  /** The loop over the runes of a line. */
  method SplitLine(line: string) returns (out: seq<string>)
    ensures out == LineSentences("", line)
  {
    out := [];
    var cur := "";
    assert line[0..] == line;
    hide Flushed, IsEndMark;
    var idx := 0;
    while idx < |line|
      invariant 0 <= idx <= |line| && LineSentences("", line) == out + LineSentences(cur, line[idx..])
    {
      LineFrom(out, cur, line, idx);
      var r := line[idx];
      cur := cur + [r];
      if IsEndMark(r) {
        var more := Flush(cur, idx == |line| - 1);
        out := out + more;
        cur := "";
      }
      idx := idx + 1;
    }
    var last := Flush(cur, true);
    assert line[idx..] == "";
    out := out + last;
  }

  lemma LineAdds(line: string, rest: seq<string>, inCode: bool, code: seq<string>)
    ensures SentencesOfLines([line] + rest, inCode, code) ==
      if IsFence(line) then
        if inCode then [CodeSentence(code + [line])] + SentencesOfLines(rest, false, [])
        else SentencesOfLines(rest, true, code + [line])
      else if inCode then SentencesOfLines(rest, true, code + [line])
      else if Blank(line) then SentencesOfLines(rest, false, code)
      else if IsMarkdownHeadingLine(TrimSpace(line)) || IsListLine(TrimSpace(line)) then
        [line + "\n"] + SentencesOfLines(rest, false, code)
      else LineSentences("", line) + SentencesOfLines(rest, false, code)
  {
    assert ([line] + rest)[1..] == rest;
    hide IsFence, Blank, IsMarkdownHeadingLine, IsListLine, TrimSpace, CodeSentence, LineSentences;
  }

  /** What one line adds to the sentences, and the code block after it. */
  method SplitOne(line: string, inCode: bool, codeBuf: seq<string>, ghost rest: seq<string>)
    returns (more: seq<string>, nowInCode: bool, nowCodeBuf: seq<string>)
    ensures SentencesOfLines([line] + rest, inCode, codeBuf) == more + SentencesOfLines(rest, nowInCode, nowCodeBuf)
  {
    LineAdds(line, rest, inCode, codeBuf);
    hide *;
    more, nowInCode, nowCodeBuf := [], inCode, codeBuf;
    if IsFence(line) {
      nowCodeBuf := nowCodeBuf + [line];
      nowInCode := !inCode;
      if inCode {
        more := [CodeSentence(nowCodeBuf)];
        nowCodeBuf := [];
      }
      return;
    }
    if inCode {
      nowCodeBuf := nowCodeBuf + [line];
      return;
    }
    var trimmed := TrimSpace(line);
    TrimSpaceEmpty(line);
    if trimmed == "" {
      return;
    }
    if IsMarkdownHeadingLine(trimmed) || IsListLine(trimmed) {
      more := [line + "\n"];
      return;
    }
    more := SplitLine(line);
  }

  lemma FirstOfLines(lines: seq<string>, i: nat, inCode: bool, code: seq<string>)
    requires i < |lines|
    ensures SentencesOfLines(lines[i..], inCode, code) == SentencesOfLines([lines[i]] + lines[i + 1..], inCode, code)
  {
    assert lines[i..] == [lines[i]] + lines[i + 1..];
    hide SentencesOfLines;
  }

  /** The loop over the lines; between lines nothing is gathered in cur. */
  method SplitLines(lines: seq<string>) returns (out: seq<string>, inCode: bool, codeBuf: seq<string>)
    ensures SentencesOfLines(lines, false, []) == out + SentencesOfLines([], inCode, codeBuf)
  {
    hide *;
    out, inCode, codeBuf := [], false, [];
    assert lines[0..] == lines;
    var i := 0;
    while i < |lines|
      invariant 0 <= i <= |lines|
      invariant SentencesOfLines(lines, false, []) == out + SentencesOfLines(lines[i..], inCode, codeBuf)
    {
      FirstOfLines(lines, i, inCode, codeBuf);
      var more;
      more, inCode, codeBuf := SplitOne(lines[i], inCode, codeBuf, lines[i + 1..]);
      Assoc(out, more, SentencesOfLines(lines[i + 1..], inCode, codeBuf));
      out := out + more;
      i := i + 1;
    }
    assert lines[i..] == [];
  }

  /** splitIntoSentencesPreserveNewlinesWithCodeBlocks. */
  method SplitIntoSentences(text: string) returns (out: seq<string>)
    ensures out == SentencesOf(text)
  {
    hide SentencesOfLines, Split, Unix, Join;
    var inCode, codeBuf;
    out, inCode, codeBuf := SplitLines(Split(Unix(text), "\n"));
    OpenBlock(inCode, codeBuf);
    if inCode && |codeBuf| > 0 {
      out := out + [Join(codeBuf, "\n") + "\n"];
    }
  }

  lemma OpenBlock(inCode: bool, code: seq<string>)
    ensures SentencesOfLines([], inCode, code) == if inCode && code != [] then [Join(code, "\n") + "\n"] else []
  {
  }

  // ----- none is blank

  predicate NoneBlank(ss: seq<string>) { forall k | 0 <= k < |ss| :: !Blank(ss[k]) }

  lemma NoneBlankAppend(a: seq<string>, b: seq<string>)
    requires NoneBlank(a) && NoneBlank(b)
    ensures NoneBlank(a + b)
  {
  }

  lemma FlushedIsNotBlank(cur: string, newline: bool)
    ensures NoneBlank(Flushed(cur, newline))
  {
    BlankAppend(cur, "\n");
  }

  lemma {:induction false} LineSentencesAreNotBlank(cur: string, rest: string)
    ensures NoneBlank(LineSentences(cur, rest))
    decreases |rest|
  {
    hide Flushed, NoneBlank;
    if rest == "" {
      FlushedIsNotBlank(cur, true);
    } else {
      var now := cur + [rest[0]];
      if IsEndMark(rest[0]) {
        FlushedIsNotBlank(now, |rest| == 1);
        LineSentencesAreNotBlank("", rest[1..]);
        NoneBlankAppend(Flushed(now, |rest| == 1), LineSentences("", rest[1..]));
      } else {
        LineSentencesAreNotBlank(now, rest[1..]);
      }
    }
  }

  lemma FenceIsNotBlank(line: string)
    requires IsFence(line)
    ensures !Blank(line)
  {
    TrimSpaceEmpty(line);
  }

  lemma CodeIsNotBlank(code: seq<string>)
    requires code != [] && !Blank(code[0])
    ensures !Blank(CodeSentence(code))
  {
    SomeFirst(code);
    JoinNotBlank(code, "\n");
    BlankAppend(Join(code, "\n"), "\n");
  }

  /** An open code block begins with its fence. */
  predicate Opened(inCode: bool, code: seq<string>) { if inCode then code != [] && !Blank(code[0]) else code == [] }

  lemma {:induction false} LinesSentencesAreNotBlank(lines: seq<string>, inCode: bool, code: seq<string>)
    requires Opened(inCode, code)
    ensures NoneBlank(SentencesOfLines(lines, inCode, code))
    decreases |lines|
  {
    hide Blank, IsFence, IsMarkdownHeadingLine, IsListLine, CodeSentence, LineSentences, TrimSpace;
    if lines == [] {
      if inCode {
        CodeIsNotBlank(code);
      }
    } else {
      var line, rest := lines[0], lines[1..];
      if IsFence(line) {
        FenceIsNotBlank(line);
        if inCode {
          CodeIsNotBlank(code + [line]);
          LinesSentencesAreNotBlank(rest, false, []);
        } else {
          LinesSentencesAreNotBlank(rest, true, code + [line]);
        }
      } else if inCode {
        LinesSentencesAreNotBlank(rest, true, code + [line]);
      } else {
        LinesSentencesAreNotBlank(rest, false, code);
        if !Blank(line) {
          BlankAppend(line, "\n");
          LineSentencesAreNotBlank("", line);
        }
      }
    }
  }

  /** No sentence is blank. */
  lemma SentencesAreNotBlank(text: string)
    ensures NoneBlank(SentencesOf(text))
  {
    LinesSentencesAreNotBlank(InputLines(text), false, []);
  }

  // ----- nothing of substance is lost

  lemma NewlineIsDropped(s: string, drop: set<char>)
    ensures Essence(s + "\n", drop) == Essence(s, drop)
  {
    EssenceAppend(s, "\n", drop);
    DroppedHasNoEssence("\n", drop);
  }

  lemma FlushedKeepsEssence(cur: string, newline: bool, drop: set<char>)
    ensures Essence(Concat(Flushed(cur, newline)), drop) == Essence(cur, drop)
  {
    if Blank(cur) {
      DroppedHasNoEssence(cur, drop);
    } else {
      NewlineIsDropped(cur, drop);
      ConcatOne(if newline then cur + "\n" else cur);
    }
  }

  lemma {:induction false} LineSentencesKeepEssence(cur: string, rest: string, drop: set<char>)
    ensures Essence(Concat(LineSentences(cur, rest)), drop) == Essence(cur + rest, drop)
    decreases |rest|
  {
    hide Flushed, Essence, Concat, IsEndMark;
    if rest == "" {
      FlushedKeepsEssence(cur, true, drop);
      assert cur + rest == cur;
    } else {
      var now, more := cur + [rest[0]], rest[1..];
      assert now + more == cur + rest;
      if IsEndMark(rest[0]) {
        FlushedKeepsEssence(now, |rest| == 1, drop);
        LineSentencesKeepEssence("", more, drop);
        EssenceConcat(Flushed(now, |rest| == 1), LineSentences("", more), drop);
        EssenceAppend(now, more, drop);
        assert "" + more == more;
      } else {
        LineSentencesKeepEssence(now, more, drop);
      }
    }
  }

  lemma CodeKeepsEssence(code: seq<string>, drop: set<char>)
    ensures Essence(Concat([CodeSentence(code)]), drop) == Essence(Concat(code), drop)
  {
    ConcatOne(CodeSentence(code));
    NewlineIsDropped(Join(code, "\n"), drop);
    assert Dropped("\n", drop);
    EssenceJoin(code, "\n", drop);
  }

  lemma LineKeepsEssence(line: string, drop: set<char>)
    ensures Essence(Concat([line + "\n"]), drop) == Essence(line, drop)
  {
    ConcatOne(line + "\n");
    NewlineIsDropped(line, drop);
  }

  lemma {:induction false} LinesKeepEssence(lines: seq<string>, inCode: bool, code: seq<string>, drop: set<char>)
    requires Opened(inCode, code)
    ensures Essence(Concat(SentencesOfLines(lines, inCode, code)), drop) == Essence(Concat(code + lines), drop)
    decreases |lines|
  {
    hide Blank, IsFence, IsMarkdownHeadingLine, IsListLine, CodeSentence, LineSentences, TrimSpace, Essence, Concat;
    if lines == [] {
      assert code + lines == code;
      CodeKeepsEssence(code, drop);
    } else {
      var line, rest := lines[0], lines[1..];
      assert code + lines == (code + [line]) + rest;
      FirstLine(lines, drop);
      if IsFence(line) {
        FenceIsNotBlank(line);
        if inCode {
          LinesKeepEssence(rest, false, [], drop);
          CodeKeepsEssence(code + [line], drop);
          EssenceConcat([CodeSentence(code + [line])], SentencesOfLines(rest, false, []), drop);
          EssenceConcat(code + [line], rest, drop);
          assert [] + rest == rest;
        } else {
          LinesKeepEssence(rest, true, code + [line], drop);
        }
      } else if inCode {
        LinesKeepEssence(rest, true, code + [line], drop);
      } else {
        LinesKeepEssence(rest, false, code, drop);
        assert code + rest == rest && code + lines == lines;
        if Blank(line) {
          BlankLineIsNothing(line, drop);
        } else if IsMarkdownHeadingLine(TrimSpace(line)) || IsListLine(TrimSpace(line)) {
          LineKeepsEssence(line, drop);
          EssenceConcat([line + "\n"], SentencesOfLines(rest, false, code), drop);
        } else {
          LineSentencesKeepEssence("", line, drop);
          assert "" + line == line;
          EssenceConcat(LineSentences("", line), SentencesOfLines(rest, false, code), drop);
        }
      }
    }
  }

  lemma FirstLine(lines: seq<string>, drop: set<char>)
    requires lines != []
    ensures Essence(Concat(lines), drop) == Essence(lines[0], drop) + Essence(Concat(lines[1..]), drop)
  {
    EssenceAppend(lines[0], Concat(lines[1..]), drop);
  }

  lemma BlankLineIsNothing(line: string, drop: set<char>)
    requires Blank(line)
    ensures Essence(line, drop) == ""
  {
    DroppedHasNoEssence(line, drop);
  }

  lemma {:induction false} UnixKeepsEssence(text: string, drop: set<char>)
    ensures Essence(Unix(text), drop) == Essence(text, drop)
    decreases |text|
  {
    if text == "" {
    } else if |text| >= 2 && text[0] == '\r' && text[1] == '\n' {
      UnixKeepsEssence(text[2..], drop);
      EssenceAppend("\n", Unix(text[2..]), drop);
      EssenceAppend(text[..2], text[2..], drop);
      assert text == text[..2] + text[2..];
      DroppedHasNoEssence(text[..2], drop);
      DroppedHasNoEssence("\n", drop);
    } else {
      UnixKeepsEssence(text[1..], drop);
      EssenceAppend([text[0]], Unix(text[1..]), drop);
      EssenceAppend([text[0]], text[1..], drop);
      assert text == [text[0]] + text[1..];
    }
  }

  lemma LinesHoldEssence(text: string, drop: set<char>)
    ensures Essence(Concat(InputLines(text)), drop) == Essence(text, drop)
  {
    assert Dropped("\n", drop);
    EssenceJoin(InputLines(text), "\n", drop);
    LinesAreText(text);
    UnixKeepsEssence(text, drop);
    hide *;
  }

  /** The sentences hold every rune of the text that is not white space, in order. */
  lemma SentencesKeepEssence(text: string, drop: set<char>)
    ensures Essence(Concat(SentencesOf(text)), drop) == Essence(text, drop)
  {
    hide SentencesOfLines, InputLines, Essence, Concat;
    var lines := InputLines(text);
    LinesKeepEssence(lines, false, [], drop);
    assert [] + lines == lines;
    LinesHoldEssence(text, drop);
  }

  // ----- a text of one sentence

  /** A line of prose without end marks. */
  predicate PlainLine(text: string) {
    && (forall c <- text :: c !in {'\r', '\n'} && !IsEndMark(c))
    && !Blank(text) && !IsFence(text) && !IsMarkdownHeadingLine(TrimSpace(text)) && !IsListLine(TrimSpace(text))
  }

  lemma {:induction false} NoReturnIsUnix(text: string)
    requires '\r' !in text
    ensures Unix(text) == text
    decreases |text|
  {
    if text != "" {
      NoReturnIsUnix(text[1..]);
    }
  }

  lemma {:induction false} NoNewlineFrom(text: string, i: nat)
    requires '\n' !in text && i <= |text|
    ensures IndexFrom(text, "\n", i) == |text|
    decreases |text| - i
  {
    if i < |text| {
      assert text[i..i + 1][0] == text[i];
      NoNewlineFrom(text, i + 1);
    }
  }

  lemma {:induction false} NoEndMark(cur: string, rest: string)
    requires forall c <- rest :: !IsEndMark(c)
    ensures LineSentences(cur, rest) == Flushed(cur + rest, true)
    decreases |rest|
  {
    hide Flushed, IsEndMark;
    if rest == "" {
      assert cur + rest == cur;
    } else {
      NoEndMark(cur + [rest[0]], rest[1..]);
      assert cur + [rest[0]] + rest[1..] == cur + rest;
    }
  }

  lemma OneProseLine(line: string)
    requires !IsFence(line) && !Blank(line) && !IsMarkdownHeadingLine(TrimSpace(line)) && !IsListLine(TrimSpace(line))
    ensures SentencesOfLines([line], false, []) == LineSentences("", line)
  {
    hide TrimSpace, IsListLine, Blank, LineSentences, IsFence, IsMarkdownHeadingLine;
    assert SentencesOfLines([], false, []) == [];
    assert [line][1..] == [];
  }

  /** Such a text is one sentence. */
  lemma PlainLineIsOneSentence(text: string)
    requires PlainLine(text)
    ensures SentencesOf(text) == [text + "\n"]
  {
    NoReturnIsUnix(text);
    NoNewlineFrom(text, 0);
    NoEndMark("", text);
    OneProseLine(text);
    hide TrimSpace, IsListLine, Blank, Unix, IndexFrom, LineSentences, IsFence, IsMarkdownHeadingLine, SentencesOfLines;
    assert "" + text == text;
    assert InputLines(text) == [text];
  }
}
