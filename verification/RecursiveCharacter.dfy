/** Splitting by a list of separators with greedy re-merging:
    aipkg/rag/split/recursive_character.go, and the overlap of aipkg/rag/split/util.go. */
module RecursiveCharacter {
  import opened Common
  import opened Text

  // ----- the functions

  /** hardSplitByRunes. */
  function HardSplit(text: string, n: int): seq<string>
    decreases |text|
  {
    if text == "" || n <= 0 then []
    else if |text| <= n then [text]
    else [text[..n]] + HardSplit(text[n..], n)
  }

  /** How many of the parts a block takes in when it already holds `taken` of them with `size` runes:
      separators count between parts, and a block of size zero takes anything. */
  function Extend(parts: seq<string>, sepLen: nat, n: int, taken: nat, size: nat): (k: nat)
    requires taken <= |parts|
    ensures taken <= k <= |parts|
    ensures taken == size == 0 && parts != [] ==> k > 0
    decreases |parts| - taken
  {
    if taken == |parts| then taken
    else
      var add := |parts[taken]| + if taken > 0 then sepLen else 0;
      if size + add > n && size > 0 then taken else Extend(parts, sepLen, n, taken + 1, size + add)
  }

  function BlockSize(parts: seq<string>, sep: string, n: int): (k: nat)
    ensures k <= |parts| && (parts != [] ==> k > 0)
  {
    Extend(parts, |sep|, n, 0, 0)
  }

  /** What one block contributes to the chunks. */
  function BlockChunks(block: seq<string>, sep: string, n: int): seq<string> {
    if |block| == 1 && |block[0]| > n then HardSplit(block[0], n)
    else if Join(block, sep) == "" then []
    else [Join(block, sep)]
  }

  /** mergeParts. */
  function MergeParts(parts: seq<string>, sep: string, n: int): seq<string> {
    if parts == [] then []
    else if n <= 0 then [Join(parts, sep)]
    else
      var k := BlockSize(parts, sep, n);
      BlockChunks(parts[..k], sep, n) + MergeParts(parts[k..], sep, n)
  }

  /** recursiveSplit. */
  function RecursiveSplit(text: string, separators: seq<string>, n: int): seq<string>
    decreases |separators|, 0
  {
    if text == "" then []
    else if n <= 0 || |text| <= n then [text]
    else if separators == [] then HardSplit(text, n)
    else
      var sep := separators[0];
      var parts := if sep == "" then [text] else Split(text, sep);
      if |parts| == 1 then RecursiveSplit(text, separators[1..], n)
      else
        var merged := MergeParts(Refine(parts, separators[1..], n), sep, n);
        if merged == [] then RecursiveSplit(text, separators[1..], n) else merged
  }

  /** The non-blank parts, over-long ones split by the remaining separators. */
  function Refine(parts: seq<string>, separators: seq<string>, n: int): seq<string>
    decreases |separators|, 1, |parts|
  {
    if parts == [] then []
    else
      (if Blank(parts[0]) then []
       else if |parts[0]| > n then RecursiveSplit(parts[0], separators, n)
       else [parts[0]])
      + Refine(parts[1..], separators, n)
  }

  // ----- the loops

  lemma HardSplitFrom(text: string, n: int, i: nat)
    requires i < |text| && n > 0
    ensures HardSplit(text[i..], n)
         == if i + n < |text| then [text[i..i + n]] + HardSplit(text[i + n..], n) else [text[i..]]
  {
    if i + n < |text| {
      assert text[i..][..n] == text[i..i + n];
      assert text[i..][n..] == text[i + n..];
    }
  }

  method HardSplitByRunes(text: string, n: int) returns (out: seq<string>)
    ensures out == HardSplit(text, n)
  {
    if text == "" || n <= 0 {
      return [];
    }
    if |text| <= n {
      return [text];
    }
    hide *;
    out := [];
    var i := 0;
    Whole(text);
    NothingAdded(HardSplit(text, n));
    while i < |text|
      invariant 0 <= i
      invariant HardSplit(text, n) == if i < |text| then out + HardSplit(text[i..], n) else out
      decreases |text| - i
    {
      var end := i + n;
      if end > |text| {
        end := |text|;
      }
      HardSplitFrom(text, n, i);
      ToTheEnd(text, i);
      if i + n < |text| {
        Assoc(out, [text[i..end]], HardSplit(text[i + n..], n));
      }
      out := out + [text[i..end]];
      i := i + n;
    }
  }

  lemma ExtendFrom(parts: seq<string>, sepLen: nat, n: int, i: nat, j: nat, size: nat)
    requires i <= j <= |parts|
    ensures Extend(parts[i..], sepLen, n, j - i, size)
         == if j == |parts| then j - i
            else
              var add := |parts[j]| + if j > i then sepLen else 0;
              if size + add > n && size > 0 then j - i else Extend(parts[i..], sepLen, n, j + 1 - i, size + add)
  {
  }

  lemma MergeFrom(parts: seq<string>, sep: string, n: int, i: nat, next: nat, chunks: seq<string>)
    requires i < |parts| && n > 0 && next == i + BlockSize(parts[i..], sep, n)
    ensures next <= |parts|
    ensures chunks + MergeParts(parts[i..], sep, n)
         == chunks + BlockChunks(parts[i..next], sep, n) + MergeParts(parts[next..], sep, n)
  {
    hide BlockChunks, Extend;
    assert parts[i..][..next - i] == parts[i..next];
    assert parts[i..][next - i..] == parts[next..];
  }

  /** The inner loop of mergeParts: the parts of the block that starts at i. */
  method TakeBlock(parts: seq<string>, sep: string, n: int, i: nat) returns (builder: seq<string>)
    requires i < |parts|
    ensures |builder| == BlockSize(parts[i..], sep, n)
    ensures i + |builder| <= |parts| && builder == parts[i..i + |builder|]
  {
    hide Extend;
    builder := [];
    var currentSize := 0;
    var j := i;
    while j < |parts|
      invariant i <= j <= |parts| && builder == parts[i..j] && currentSize >= 0
      invariant Extend(parts[i..], |sep|, n, j - i, currentSize) == BlockSize(parts[i..], sep, n)
    {
      ExtendFrom(parts, |sep|, n, i, j, currentSize);
      var p := parts[j];
      var addSize := |p|;
      if |builder| > 0 && sep != "" {
        addSize := addSize + |sep|;
      }
      if currentSize + addSize > n && currentSize > 0 {
        return;
      }
      builder := builder + [p];
      currentSize := currentSize + addSize;
      j := j + 1;
    }
    ExtendFrom(parts, |sep|, n, i, j, currentSize);
  }

  method EmitBlock(builder: seq<string>, sep: string, n: int) returns (chunks: seq<string>)
    ensures chunks == BlockChunks(builder, sep, n)
  {
    if |builder| == 1 && |builder[0]| > n {
      chunks := HardSplitByRunes(builder[0], n);
    } else {
      var chunk := Join(builder, sep);
      chunks := [];
      if chunk != "" {
        chunks := [chunk];
      }
    }
  }

  method Merge(parts: seq<string>, sep: string, n: int) returns (chunks: seq<string>)
    ensures chunks == MergeParts(parts, sep, n)
  {
    if |parts| == 0 {
      return [];
    }
    if n <= 0 {
      return [Join(parts, sep)];
    }
    hide MergeParts, BlockChunks, Join, Extend;
    chunks := [];
    var i := 0;
    assert parts[0..] == parts;
    while i < |parts|
      invariant 0 <= i <= |parts|
      invariant MergeParts(parts, sep, n) == chunks + MergeParts(parts[i..], sep, n)
    {
      var builder := TakeBlock(parts, sep, n, i);
      ghost var next := i + |builder|;
      MergeFrom(parts, sep, n, i, next, chunks);
      var more := EmitBlock(builder, sep, n);
      chunks := chunks + more;
      i := i + |builder|;
    }
    assert parts[i..] == [];
    MergeNothing(sep, n);
  }

  lemma MergeNothing(sep: string, n: int)
    ensures MergeParts([], sep, n) == []
  {
  }

  lemma RefineFrom(parts: seq<string>, separators: seq<string>, n: int, i: nat)
    requires i < |parts|
    ensures Refine(parts[i..], separators, n)
         == (if Blank(parts[i]) then []
             else if |parts[i]| > n then RecursiveSplit(parts[i], separators, n)
             else [parts[i]])
            + Refine(parts[i + 1..], separators, n)
  {
    assert parts[i..][1..] == parts[i + 1..];
  }

  lemma RefineNothing(separators: seq<string>, n: int)
    ensures Refine([], separators, n) == []
  {
  }

  method SplitText(text: string, separators: seq<string>, n: int) returns (chunks: seq<string>)
    ensures chunks == RecursiveSplit(text, separators, n)
    decreases |separators|, 0
  {
    if text == "" {
      return [];
    }
    if n <= 0 {
      return [text];
    }
    if |text| <= n {
      return [text];
    }
    if |separators| == 0 {
      chunks := HardSplitByRunes(text, n);
      return;
    }
    var sep := separators[0];
    var parts: seq<string>;
    if sep == "" {
      parts := [text];
    } else {
      parts := Split(text, sep);
    }
    if |parts| == 1 {
      chunks := SplitText(text, separators[1..], n);
      return;
    }
    var refined := RefineParts(parts, separators[1..], n);
    var merged := Merge(refined, sep, n);
    if |merged| == 0 {
      chunks := SplitText(text, separators[1..], n);
    } else {
      chunks := merged;
    }
  }

  /** The loop of recursiveSplit that builds `refined`. */
  method RefineParts(parts: seq<string>, separators: seq<string>, n: int) returns (refined: seq<string>)
    ensures refined == Refine(parts, separators, n)
    decreases |separators|, 1
  {
    hide Refine, RecursiveSplit;
    refined := [];
    var i := 0;
    assert parts[0..] == parts;
    while i < |parts|
      invariant 0 <= i <= |parts|
      invariant Refine(parts, separators, n) == refined + Refine(parts[i..], separators, n)
    {
      RefineFrom(parts, separators, n, i);
      var p := parts[i];
      if !Blank(p) {
        if |p| > n {
          var sub := SplitText(p, separators, n);
          refined := refined + sub;
        } else {
          refined := refined + [p];
        }
      }
      i := i + 1;
    }
    assert parts[i..] == [];
    RefineNothing(separators, n);
  }
}
