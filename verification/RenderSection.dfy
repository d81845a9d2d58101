/** renderSection: the text of a section and its subsections, and why it loses only white space. */
module RenderSection {
  import opened Common
  import opened Text
  import opened HeadingTree
  import opened SectionNodes

  /** The regular expression for lines of white space, which in Go is the ASCII kind. */
  predicate SpaceLine(s: string) { forall c <- s :: c in {'\t', '\n', '\U{0C}', '\r', ' '} }

  function Direct(content: seq<string>): string {
    var direct := TrimSpace(Join(content, "\n"));
    if direct != "" && !SpaceLine(direct) then "\n" + direct else ""
  }

  function Part(rendered: string): string {
    var text := TrimSpace(rendered);
    if text == "" then "" else "\n\n" + text
  }

  function Render(t: Tree): string
    decreases t
  {
    if !t.hasHeading then "" else TrimSpace(t.heading + Direct(t.content) + RenderAll(t.children))
  }

  function RenderAll(ts: seq<Tree>): string
    decreases ts
  {
    if ts == [] then "" else Part(Render(ts[0])) + RenderAll(ts[1..])
  }

  lemma RenderFrom(b: string, ts: seq<Tree>, i: nat)
    requires i < |ts|
    ensures b + RenderAll(ts[i..]) == b + Part(Render(ts[i])) + RenderAll(ts[i + 1..])
  {
    hide Render, Part;
    assert ts[i..][1..] == ts[i + 1..];
  }

  /** The heading and the text directly below it. */
  method RenderOpening(heading: string, content: seq<string>) returns (b: string)
    ensures b == heading + Direct(content)
  {
    b := heading;
    var direct := TrimSpace(Join(content, "\n"));
    hide TrimSpace, Join, SpaceLine;
    if direct != "" && !SpaceLine(direct) {
      b := b + "\n";
      b := b + direct;
      Assoc(heading, "\n", direct);
    }
  }

  /** renderSection on the nodes that show t. */
  method RenderNode(sec: SectionNode, ghost t: Tree, ghost repr: set<SectionNode>) returns (r: string)
    requires Shows(sec, t, repr)
    ensures r == Render(t)
    decreases t
  {
    if !sec.hasHeading {
      return "";
    }
    var b := RenderOpening(sec.heading, sec.content);
    ghost var whole := t.heading + Direct(t.content) + RenderAll(t.children);
    assert Render(t) == TrimSpace(whole);
    assert t.children[0..] == t.children;
    assert |sec.children| == |t.children|;
    assert t.children[|t.children|..] == [] && RenderAll([]) == "";
    hide *;
    var i := 0;
    while i < |sec.children|
      invariant 0 <= i <= |sec.children|
      invariant b + RenderAll(t.children[i..]) == whole
    {
      RenderFrom(b, t.children, i);
      var childText := RenderChild(sec, t, repr, i);
      b := b + childText;
      i := i + 1;
    }
    assert b + "" == b;
    r := TrimSpace(b);
  }

  /** What the loop writes for one child. */
  method RenderChild(sec: SectionNode, ghost t: Tree, ghost repr: set<SectionNode>, i: nat) returns (r: string)
    requires Shows(sec, t, repr) && i < |sec.children|
    ensures i < |t.children| && r == Part(Render(t.children[i]))
    decreases t, 0
  {
    var childText := RenderNode(sec.children[i], t.children[i], repr);
    childText := TrimSpace(childText);
    if childText == "" {
      return "";
    }
    r := "\n\n" + childText;
  }

  // ----- what it keeps

  function Texts(items: seq<Item>): seq<string> {
    if items == [] then []
    else [match items[0] case Line(text) => text case Head(h) => h.text] + Texts(items[1..])
  }

  lemma {:induction false} TextsAppend(a: seq<Item>, b: seq<Item>)
    ensures Texts(a + b) == Texts(a) + Texts(b)
  {
    if a == [] {
      assert a + b == b;
    } else {
      assert (a + b)[1..] == a[1..] + b;
      TextsAppend(a[1..], b);
    }
  }

  lemma {:induction false} TextsOfLines(content: seq<string>)
    ensures Texts(Lines(content)) == content
  {
    if content != [] {
      TextsOfLines(content[1..]);
      assert content == [content[0]] + content[1..];
    }
  }

  function Kept(items: seq<Item>): string { Essence(Concat(Texts(items)), {}) }

  lemma KeptAppend(a: seq<Item>, b: seq<Item>)
    ensures Kept(a + b) == Kept(a) + Kept(b)
  {
    TextsAppend(a, b);
    ConcatAppend(Texts(a), Texts(b));
    EssenceAppend(Concat(Texts(a)), Concat(Texts(b)), {});
  }

  lemma DirectKeeps(content: seq<string>)
    ensures Essence(Direct(content), {}) == Kept(Lines(content))
  {
    var joined := Join(content, "\n");
    TextsOfLines(content);
    assert Dropped("\n", {});
    EssenceJoin(content, "\n", {});
    EssenceTrim(joined, {});
    var direct := TrimSpace(joined);
    EssenceAppend("\n", direct, {});
    DroppedHasNoEssence("\n", {});
    if SpaceLine(direct) {
      DroppedHasNoEssence(direct, {});
    }
  }

  lemma PartKeeps(rendered: string)
    ensures Essence(Part(rendered), {}) == Essence(rendered, {})
  {
    EssenceTrim(rendered, {});
    assert Dropped("\n\n", {});
    DroppedHasNoEssence("\n\n", {});
    EssenceAppend("\n\n", TrimSpace(rendered), {});
  }

  lemma KeptHead(h: Heading)
    ensures Kept([Head(h)]) == Essence(h.text, {})
  {
    assert Texts([Head(h)]) == [h.text];
    assert Concat([h.text]) == h.text + "" == h.text;
  }

  /** The subsections as text, but for those that render to nothing. */
  function Rendered(ts: seq<Tree>): seq<string>
    decreases ts
  {
    if ts == [] then [] else (if Render(ts[0]) == "" then [] else [Render(ts[0])]) + Rendered(ts[1..])
  }

  /** The heading, and below it the lines directly under it unless they are blank. */
  function Opening(t: Tree): string {
    if Blank(Join(t.content, "\n")) then t.heading else t.heading + "\n" + TrimSpace(Join(t.content, "\n"))
  }

  lemma TrimmedIsNoSpaceLine(s: string)
    requires TrimSpace(s) != ""
    ensures !SpaceLine(TrimSpace(s))
  {
    var l := TrimLeft(s);
    TrimmedFirst(l);
    assert TrimSpace(s)[0] in TrimSpace(s);
  }

  lemma OpeningIs(t: Tree)
    ensures t.heading + Direct(t.content) == Opening(t)
  {
    var s := Join(t.content, "\n");
    TrimSpaceEmpty(s);
    if TrimSpace(s) != "" {
      TrimmedIsNoSpaceLine(s);
      hide *;
      Assoc(t.heading, "\n", TrimSpace(s));
    }
    NothingAdded(t.heading);
  }

  lemma RenderedIsTrimmed(t: Tree)
    ensures TrimSpace(Render(t)) == Render(t)
  {
    if t.hasHeading {
      TrimmedTwice(t.heading + Direct(t.content) + RenderAll(t.children));
    }
  }

  lemma {:induction false} RenderAllIsJoin(first: string, ts: seq<Tree>)
    ensures first + RenderAll(ts) == Join([first] + Rendered(ts), "\n\n")
    decreases ts
  {
    hide Render, TrimSpace;
    if ts == [] {
      NothingAdded(first);
    } else {
      RenderedIsTrimmed(ts[0]);
      var r := Render(ts[0]);
      var more := Rendered(ts[1..]);
      if r == "" {
        NothingAdded(RenderAll(ts[1..]));
        NothingAdded(more);
        RenderAllIsJoin(first, ts[1..]);
      } else {
        RenderAllIsJoin(r, ts[1..]);
        JoinFirst(first, [r] + more, "\n\n");
        Assoc(first, "\n\n" + r, RenderAll(ts[1..]));
        Assoc("\n\n", r, RenderAll(ts[1..]));
        Assoc(first, "\n\n", r + RenderAll(ts[1..]));
      }
    }
  }

  /** A section is its opening and its subsections with a blank line between them, trimmed. */
  lemma RenderIsJoin(t: Tree)
    requires t.hasHeading
    ensures Render(t) == TrimSpace(Join([Opening(t)] + Rendered(t.children), "\n\n"))
  {
    OpeningIs(t);
    RenderAllIsJoin(Opening(t), t.children);
    hide RenderAll, Opening, Direct, Join, TrimSpace;
  }

  /** A rendered section holds every rune of its heading, its lines and its subsections that is not
      white space, in the order of the document. */
  lemma {:induction false} RenderKeeps(t: Tree)
    requires t.hasHeading && Under(t.depth, t.children)
    ensures Essence(Render(t), {}) == Kept(Preorder(t))
    decreases t
  {
    var h := Heading(t.depth, t.title, t.heading);
    var lines, below := Lines(t.content), PreorderAll(t.children);
    RenderAllKeeps(t.depth, t.children);
    assert Preorder(t) == [Head(h)] + lines + below;
    var whole := t.heading + Direct(t.content) + RenderAll(t.children);
    assert Render(t) == TrimSpace(whole);
    hide *;
    EssenceTrim(whole, {});
    EssenceAppend(t.heading + Direct(t.content), RenderAll(t.children), {});
    EssenceAppend(t.heading, Direct(t.content), {});
    DirectKeeps(t.content);
    KeptHead(h);
    KeptAppend([Head(h)] + lines, below);
    KeptAppend([Head(h)], lines);
  }

  lemma {:induction false} RenderAllKeeps(d: int, ts: seq<Tree>)
    requires Under(d, ts)
    ensures Essence(RenderAll(ts), {}) == Kept(PreorderAll(ts))
    decreases ts
  {
    if ts != [] {
      RenderKeeps(ts[0]);
      RenderAllKeeps(d, ts[1..]);
      PartKeeps(Render(ts[0]));
      EssenceAppend(Part(Render(ts[0])), RenderAll(ts[1..]), {});
      KeptAppend(Preorder(ts[0]), PreorderAll(ts[1..]));
    }
  }
}
