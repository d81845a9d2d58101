/** The heading tree of a document: which lines are headings, the tree that the node stack builds
    from them, and why that tree is the right one. The stack is mirrored by a spine of values. */
module HeadingTree {
  import opened Common
  import opened Text

  datatype Heading = Heading(depth: int, title: string, text: string)

  /** The regular expressions: what each captures from a trimmed line. */
  datatype Patterns = Patterns(
    markdown: string -> Option<(int, string)>,
    arabic3: string -> Option<string>,
    arabic2: string -> Option<string>, chinese2: string -> Option<string>,
    arabic1: string -> Option<string>, chinese1: string -> Option<string>)

  function Numbered(t: string, maxDepth: int, p: Patterns): Option<Heading> {
    if maxDepth >= 3 && p.arabic3(t).Some? then Some(Heading(3, TrimSpace(p.arabic3(t).value), t))
    else if maxDepth >= 2 && p.arabic2(t).Some? then Some(Heading(2, TrimSpace(p.arabic2(t).value), t))
    else if maxDepth >= 2 && p.chinese2(t).Some? then Some(Heading(2, TrimSpace(p.chinese2(t).value), t))
    else if maxDepth >= 1 && p.arabic1(t).Some? then Some(Heading(1, TrimSpace(p.arabic1(t).value), t))
    else if maxDepth >= 1 && p.chinese1(t).Some? then Some(Heading(1, TrimSpace(p.chinese1(t).value), t))
    else None
  }

  /** parseHeadingLine. */
  function ParseHeadingLine(line: string, maxDepth: int, markdownOnly: bool, p: Patterns): (r: Option<Heading>)
    ensures r.Some? ==> 1 <= r.value.depth <= maxDepth && r.value.text == TrimSpace(line) && r.value.text != ""
  {
    var t := TrimSpace(line);
    if t == "" then None
    else if p.markdown(t).Some? then
      var (d, title) := p.markdown(t).value;
      if d <= 0 || d > maxDepth then None else Some(Heading(d, title, t))
    else if markdownOnly then None
    else Numbered(t, maxDepth, p)
  }

  /** Some numbering of depth d captures t. */
  predicate NumberedAt(p: Patterns, t: string, d: int) {
    || (d == 3 && p.arabic3(t).Some?)
    || (d == 2 && (p.arabic2(t).Some? || p.chinese2(t).Some?))
    || (d == 1 && (p.arabic1(t).Some? || p.chinese1(t).Some?))
  }

  /** What the numbering of depth d captures, Arabic figures before Chinese ones. */
  function Captured(p: Patterns, t: string, d: int): string
    requires NumberedAt(p, t, d)
  {
    var first := if d == 3 then p.arabic3(t) else if d == 2 then p.arabic2(t) else p.arabic1(t);
    if first.Some? then first.value else if d == 2 then p.chinese2(t).value else p.chinese1(t).value
  }

  /** A markdown heading counts with its own depth and title; otherwise the deepest numbering within the limit
      tells depth and title, unless only markdown headings count. */
  lemma DeepestNumberWins(line: string, maxDepth: int, markdownOnly: bool, p: Patterns)
    requires TrimSpace(line) != ""
    ensures var t := TrimSpace(line);
      var r := ParseHeadingLine(line, maxDepth, markdownOnly, p);
      if p.markdown(t).Some? then
        var (d, title) := p.markdown(t).value;
        r == if 1 <= d <= maxDepth then Some(Heading(d, title, t)) else None
      else
        && (r.Some? <==> !markdownOnly && exists d | 1 <= d <= maxDepth :: NumberedAt(p, t, d))
        && (r.Some? ==>
              var d := r.value.depth;
              && 1 <= d <= maxDepth && NumberedAt(p, t, d)
              && r.value == Heading(d, TrimSpace(Captured(p, t, d)), t)
              && forall k | d < k <= maxDepth :: !NumberedAt(p, t, k))
  {
    var t := TrimSpace(line);
    hide TrimSpace;
    if p.markdown(t).None? && !markdownOnly && Numbered(t, maxDepth, p).Some? {
      assert NumberedAt(p, t, Numbered(t, maxDepth, p).value.depth);
    }
  }

  /** Whether the line after a line is in a code block. */
  predicate Toggled(line: string, inCode: bool) { if IsFence(line) then !inCode else inCode }

  /** Whether a markdown heading occurs outside fences. */
  function HasMarkdown(lines: seq<string>, inCode: bool, p: Patterns): bool {
    if lines == [] then false
    else if IsFence(lines[0]) then HasMarkdown(lines[1..], !inCode, p)
    else (!inCode && p.markdown(TrimSpace(lines[0])).Some?) || HasMarkdown(lines[1..], inCode, p)
  }

  /** What a line is for the tree. */
  datatype Item = Line(text: string) | Head(h: Heading)

  function ItemOf(line: string, inCode: bool, maxDepth: int, only: bool, p: Patterns): Item {
    if IsFence(line) || inCode then Line(line)
    else
      match ParseHeadingLine(line, maxDepth, only, p)
      case Some(h) => Head(h)
      case None => Line(line)
  }

  function ItemsFrom(lines: seq<string>, inCode: bool, maxDepth: int, only: bool, p: Patterns): (items: seq<Item>)
    ensures |items| == |lines|
  {
    if lines == [] then []
    else
      [ItemOf(lines[0], inCode, maxDepth, only, p)]
      + ItemsFrom(lines[1..], Toggled(lines[0], inCode), maxDepth, only, p)
  }

  function Items(lines: seq<string>, maxDepth: int, p: Patterns): (items: seq<Item>)
    ensures |items| == |lines|
  {
    ItemsFrom(lines, false, maxDepth, HasMarkdown(lines, false, p), p)
  }

  // ----- trees

  datatype Tree = Tree(depth: int, title: string, heading: string, hasHeading: bool, content: seq<string>,
      children: seq<Tree>)

  function Lines(content: seq<string>): (items: seq<Item>) {
    if content == [] then [] else [Line(content[0])] + Lines(content[1..])
  }

  /** The preorder walk: heading, content, children. */
  function Preorder(t: Tree): seq<Item>
    decreases t
  {
    (if t.hasHeading then [Head(Heading(t.depth, t.title, t.heading))] else [])
    + Lines(t.content) + PreorderAll(t.children)
  }

  function PreorderAll(ts: seq<Tree>): seq<Item>
    decreases ts
  {
    if ts == [] then [] else Preorder(ts[0]) + PreorderAll(ts[1..])
  }

  /** The nodes on the stack, each without the child that is above it on the stack. */
  datatype Spine = Root(t: Tree) | Below(up: Spine, t: Tree)

  function Height(sp: Spine): nat {
    match sp
    case Root(_) => 0
    case Below(up, _) => 1 + Height(up)
  }

  function SetTop(sp: Spine, t: Tree): (r: Spine)
    ensures Height(r) == Height(sp) && r.t == t
  {
    match sp
    case Root(_) => Root(t)
    case Below(up, _) => Below(up, t)
  }

  function AddChild(sp: Spine, c: Tree): (r: Spine)
    ensures Height(r) == Height(sp)
  {
    SetTop(sp, sp.t.(children := sp.t.children + [c]))
  }

  function AddLine(sp: Spine, line: string): Spine {
    SetTop(sp, sp.t.(content := sp.t.content + [line]))
  }

  /** The stack without the nodes of depth d or more. */
  function Popped(sp: Spine, d: int): Spine
    decreases Height(sp)
  {
    match sp
    case Root(_) => sp
    case Below(up, t) => if t.depth >= d then Popped(AddChild(up, t), d) else sp
  }

  function NodeOf(h: Heading): Tree { Tree(h.depth, h.title, h.text, true, [], []) }

  function Step(sp: Spine, item: Item): Spine {
    match item
    case Line(text) => AddLine(sp, text)
    case Head(h) => Below(Popped(sp, h.depth), NodeOf(h))
  }

  function Run(sp: Spine, items: seq<Item>): Spine
    decreases |items|
  {
    if items == [] then sp else Run(Step(sp, items[0]), items[1..])
  }

  function Collapse(sp: Spine): Tree
    decreases Height(sp)
  {
    match sp
    case Root(t) => t
    case Below(up, t) => Collapse(AddChild(up, t))
  }

  const EMPTY_ROOT := Tree(0, "", "", false, [], [])

  /** What parseHeadingTree returns. */
  function TreeOf(items: seq<Item>): Tree { Collapse(Run(Root(EMPTY_ROOT), items)) }

  // ----- the walk gives back the input

  lemma {:induction false} PreorderAllAppend(a: seq<Tree>, b: seq<Tree>)
    ensures PreorderAll(a + b) == PreorderAll(a) + PreorderAll(b)
  {
    if a == [] {
      assert a + b == b;
    } else {
      assert (a + b)[1..] == a[1..] + b;
      PreorderAllAppend(a[1..], b);
      Assoc(Preorder(a[0]), PreorderAll(a[1..]), PreorderAll(b));
    }
  }

  lemma {:induction false} LinesAppend(a: seq<string>, line: string)
    ensures Lines(a + [line]) == Lines(a) + [Line(line)]
  {
    if a == [] {
      assert a + [line] == [line];
    } else {
      assert (a + [line])[1..] == a[1..] + [line];
      LinesAppend(a[1..], line);
    }
  }

  function Trail(sp: Spine): seq<Item> {
    match sp
    case Root(t) => Preorder(t)
    case Below(up, t) => Trail(up) + Preorder(t)
  }

  lemma AddChildTrail(sp: Spine, c: Tree)
    ensures Trail(AddChild(sp, c)) == Trail(sp) + Preorder(c)
  {
    WalkOfPush(sp.t, c);
    hide Preorder;
    if sp.Below? {
      Assoc(Trail(sp.up), Preorder(sp.t), Preorder(c));
    }
  }

  lemma WalkOfPush(t: Tree, c: Tree)
    ensures Preorder(t.(children := t.children + [c])) == Preorder(t) + Preorder(c)
  {
    assert PreorderAll([c]) == Preorder(c) + PreorderAll([]);
    PreorderAllAppend(t.children, [c]);
    hide PreorderAll, Lines;
    var head := if t.hasHeading then [Head(Heading(t.depth, t.title, t.heading))] else [];
    Assoc(head + Lines(t.content), PreorderAll(t.children), Preorder(c));
  }

  lemma WalkOfLine(t: Tree, line: string)
    requires t.children == []
    ensures Preorder(t.(content := t.content + [line])) == Preorder(t) + [Line(line)]
  {
    LinesAppend(t.content, line);
    hide Lines;
    var head := if t.hasHeading then [Head(Heading(t.depth, t.title, t.heading))] else [];
    Assoc(head, Lines(t.content), [Line(line)]);
  }

  lemma {:induction false} PoppedTrail(sp: Spine, d: int)
    ensures Trail(Popped(sp, d)) == Trail(sp)
    decreases Height(sp)
  {
    if sp.Below? && sp.t.depth >= d {
      AddChildTrail(sp.up, sp.t);
      PoppedTrail(AddChild(sp.up, sp.t), d);
    }
  }

  lemma {:induction false} CollapseTrail(sp: Spine)
    ensures Preorder(Collapse(sp)) == Trail(sp)
    decreases Height(sp)
  {
    if sp.Below? {
      AddChildTrail(sp.up, sp.t);
      CollapseTrail(AddChild(sp.up, sp.t));
    }
  }

  lemma StepTrail(sp: Spine, item: Item)
    requires sp.t.children == []
    ensures Step(sp, item).t.children == [] && Trail(Step(sp, item)) == Trail(sp) + [item]
  {
    match item
    case Line(text) =>
      WalkOfLine(sp.t, text);
      hide Preorder;
      if sp.Below? {
        Assoc(Trail(sp.up), Preorder(sp.t), [item]);
      }
    case Head(h) =>
      PoppedTrail(sp, h.depth);
      assert Preorder(NodeOf(h)) == [item];
  }

  lemma {:induction false} RunTrail(sp: Spine, items: seq<Item>)
    requires sp.t.children == []
    ensures Trail(Run(sp, items)) == Trail(sp) + items
    decreases |items|
  {
    if items != [] {
      StepTrail(sp, items[0]);
      hide Step, Trail;
      RunTrail(Step(sp, items[0]), items[1..]);
      assert items == [items[0]] + items[1..];
    }
  }

  /** A preorder walk of the tree meets every line of the input once, in order. */
  lemma WalkIsInput(items: seq<Item>)
    ensures Preorder(TreeOf(items)) == items
  {
    RunTrail(Root(EMPTY_ROOT), items);
    CollapseTrail(Run(Root(EMPTY_ROOT), items));
    assert Preorder(EMPTY_ROOT) == [];
  }

  /** Line k is a fence or lies after an odd number of fences (an even one when inCode). */
  predicate InFence(lines: seq<string>, inCode: bool, k: nat)
    requires k < |lines|
  {
    if k == 0 then IsFence(lines[0]) || inCode
    else InFence(lines[1..], Toggled(lines[0], inCode), k - 1)
  }

  /** Some line outside fences is a markdown heading. */
  ghost predicate SomeMarkdown(lines: seq<string>, inCode: bool, p: Patterns) {
    exists j :: 0 <= j < |lines| && !InFence(lines, inCode, j) && p.markdown(TrimSpace(lines[j])).Some?
  }

  lemma {:induction false} HasMarkdownIs(lines: seq<string>, inCode: bool, p: Patterns)
    ensures HasMarkdown(lines, inCode, p) == SomeMarkdown(lines, inCode, p)
  {
    if lines != [] {
      var now := Toggled(lines[0], inCode);
      HasMarkdownIs(lines[1..], now, p);
      hide IsFence, TrimSpace;
      if SomeMarkdown(lines[1..], now, p) {
        var j :| 0 <= j < |lines[1..]| && !InFence(lines[1..], now, j) && p.markdown(TrimSpace(lines[1..][j])).Some?;
        assert !InFence(lines, inCode, j + 1);
      }
      if SomeMarkdown(lines, inCode, p) {
        var j :| 0 <= j < |lines| && !InFence(lines, inCode, j) && p.markdown(TrimSpace(lines[j])).Some?;
        if j > 0 {
          assert !InFence(lines[1..], now, j - 1) && lines[1..][j - 1] == lines[j];
        }
      }
    }
  }

  lemma FenceItem(line: string, inCode: bool, maxDepth: int, only: bool, p: Patterns)
    ensures ItemOf(line, inCode, maxDepth, only, p) == ItemOf(line, IsFence(line) || inCode, maxDepth, only, p)
  {
    hide IsFence, ParseHeadingLine;
  }

  lemma {:induction false} ItemAt(lines: seq<string>, inCode: bool, maxDepth: int, only: bool, p: Patterns, k: nat)
    requires k < |lines|
    ensures var item := ItemsFrom(lines, inCode, maxDepth, only, p)[k];
      item == ItemOf(lines[k], InFence(lines, inCode, k), maxDepth, only, p)
    decreases k
  {
    hide IsFence, Toggled, ItemOf;
    if k == 0 {
      FenceItem(lines[0], inCode, maxDepth, only, p);
    } else {
      ItemAt(lines[1..], Toggled(lines[0], inCode), maxDepth, only, p, k - 1);
    }
  }

  /** Line k of the input is a heading exactly when it lies outside fences and parses as one, only markdown
      headings counting when there is one outside fences anywhere; otherwise it is content as it is. */
  lemma ItemsAreLines(lines: seq<string>, maxDepth: int, p: Patterns, k: nat)
    requires k < |lines|
    ensures var h := ParseHeadingLine(lines[k], maxDepth, SomeMarkdown(lines, false, p), p);
      Items(lines, maxDepth, p)[k] ==
        if InFence(lines, false, k) || h.None? then Line(lines[k]) else Head(h.value)
  {
    var only := HasMarkdown(lines, false, p);
    ItemAt(lines, false, maxDepth, only, p, k);
    HasMarkdownIs(lines, false, p);
    if IsFence(lines[k]) {
      FencesAreInFence(lines, false, k);
    }
    hide ParseHeadingLine, IsFence, InFence, HasMarkdown, SomeMarkdown;
  }

  lemma {:induction false} FencesAreInFence(lines: seq<string>, inCode: bool, k: nat)
    requires k < |lines| && IsFence(lines[k])
    ensures InFence(lines, inCode, k)
    decreases k
  {
    hide IsFence, Toggled;
    if k > 0 {
      FencesAreInFence(lines[1..], Toggled(lines[0], inCode), k - 1);
    }
  }

  // ----- the links are right

  /** A forest below a node of depth d: every tree has a heading and is deeper than d, no tree is
      deeper than the one before it (or it would belong to that one), and so on below. */
  predicate Under(d: int, ts: seq<Tree>)
    decreases ts
  {
    ts != [] ==>
      && ts[0].hasHeading
      && ts[0].depth > d
      && Under(ts[0].depth, ts[0].children)
      && (|ts| > 1 ==> ts[1].depth <= ts[0].depth)
      && Under(d, ts[1..])
  }

  /** c may follow the trees so far. */
  predicate MayFollow(d: int, ts: seq<Tree>, c: Tree) {
    && c.hasHeading
    && c.depth > d
    && Under(c.depth, c.children)
    && (ts != [] ==> ts[|ts| - 1].depth >= c.depth)
  }

  lemma {:induction false} UnderPush(d: int, ts: seq<Tree>, c: Tree)
    requires Under(d, ts) && MayFollow(d, ts, c)
    ensures Under(d, ts + [c])
  {
    if ts == [] {
      assert ts + [c] == [c];
      assert Under(d, [c][1..]);
    } else {
      var all := ts + [c];
      assert all[1..] == ts[1..] + [c];
      UnderPush(d, ts[1..], c);
    }
  }

  predicate Proper(sp: Spine) {
    && Under(sp.t.depth, sp.t.children)
    && match sp
       case Root(t) => t.depth == 0
       case Below(up, t) => Proper(up) && MayFollow(up.t.depth, up.t.children, t)
  }

  lemma AddChildProper(sp: Spine, c: Tree)
    requires Proper(sp) && MayFollow(sp.t.depth, sp.t.children, c)
    ensures Proper(AddChild(sp, c))
  {
    UnderPush(sp.t.depth, sp.t.children, c);
    hide Under;
  }

  /** Popping stops at a shallower node, whose last child, if any, is at least as deep as d. */
  lemma {:induction false} PoppedProper(sp: Spine, d: int)
    requires Proper(sp) && d > 0
    requires sp.t.children != [] ==> sp.t.children[|sp.t.children| - 1].depth >= d
    ensures var q := Popped(sp, d);
      && Proper(q) && q.t.depth < d
      && (q.t.children != [] ==> q.t.children[|q.t.children| - 1].depth >= d)
    decreases Height(sp)
  {
    if sp.Below? && sp.t.depth >= d {
      AddChildProper(sp.up, sp.t);
      PoppedProper(AddChild(sp.up, sp.t), d);
    }
  }

  predicate ItemOk(item: Item) { item.Head? ==> item.h.depth > 0 }

  predicate AllOk(items: seq<Item>) { items == [] || (ItemOk(items[0]) && AllOk(items[1..])) }

  lemma StepProper(sp: Spine, item: Item)
    requires Proper(sp) && sp.t.children == [] && ItemOk(item)
    ensures Proper(Step(sp, item)) && Step(sp, item).t.children == []
  {
    if item.Head? {
      PoppedProper(sp, item.h.depth);
    }
  }

  lemma {:induction false} RunProper(sp: Spine, items: seq<Item>)
    requires Proper(sp) && sp.t.children == [] && AllOk(items)
    ensures Proper(Run(sp, items))
    decreases |items|
  {
    if items != [] {
      StepProper(sp, items[0]);
      hide Step, Proper;
      RunProper(Step(sp, items[0]), items[1..]);
    }
  }

  lemma {:induction false} CollapseProper(sp: Spine)
    requires Proper(sp)
    ensures Collapse(sp).depth == 0 && Under(0, Collapse(sp).children)
    decreases Height(sp)
  {
    if sp.Below? {
      AddChildProper(sp.up, sp.t);
      CollapseProper(AddChild(sp.up, sp.t));
    }
  }

  /** The depths of the headings, in order. */
  function HeadDepths(items: seq<Item>): seq<int> {
    if items == [] then []
    else (if items[0].Head? then [items[0].h.depth] else []) + HeadDepths(items[1..])
  }

  /** The depths in a forest, in preorder. */
  function Depths(ts: seq<Tree>): seq<int> {
    if ts == [] then [] else [ts[0].depth] + Depths(ts[0].children) + Depths(ts[1..])
  }

  /** j is the last position before i that holds something smaller than position i. */
  predicate NearestSmaller(ds: seq<int>, i: nat, j: nat)
    requires i < |ds|
  {
    j < i && ds[j] < ds[i] && forall k | j < k < i :: ds[k] >= ds[i]
  }

  /** Number the forest in preorder from at on: every node of depth ds[i], i its number, hangs below
      the nearest earlier node that is shallower; the trees of ts hang below node p. */
  predicate Linked(ds: seq<int>, ts: seq<Tree>, p: nat, at: nat)
    requires at + |Depths(ts)| <= |ds|
    decreases ts
  {
    ts != [] ==>
      && NearestSmaller(ds, at, p)
      && Linked(ds, ts[0].children, at, at + 1)
      && Linked(ds, ts[1..], p, at + 1 + |Depths(ts[0].children)|)
  }

  predicate AtLeast(ds: seq<int>, from: nat, to: nat, d: int)
    requires to <= |ds|
  {
    forall k | from <= k < to :: ds[k] >= d
  }

  lemma {:induction false} DepthsUnder(d: int, ts: seq<Tree>)
    requires Under(d, ts)
    ensures forall k | 0 <= k < |Depths(ts)| :: Depths(ts)[k] > d
    decreases ts
  {
    if ts != [] {
      DepthsUnder(ts[0].depth, ts[0].children);
      DepthsUnder(d, ts[1..]);
    }
  }

  /** The depths of ts stand in ds from at on. */
  predicate StandsAt(ds: seq<int>, ts: seq<Tree>, at: nat) {
    at + |Depths(ts)| <= |ds| && ds[at..at + |Depths(ts)|] == Depths(ts)
  }

  lemma SplitStand(ds: seq<int>, ts: seq<Tree>, at: nat)
    requires ts != [] && StandsAt(ds, ts, at)
    ensures ds[at] == ts[0].depth && StandsAt(ds, ts[0].children, at + 1)
    ensures StandsAt(ds, ts[1..], at + 1 + |Depths(ts[0].children)|)
  {
    SlicesOfThree(ds, at, ts[0].depth, Depths(ts[0].children), Depths(ts[1..]));
  }

  lemma SlicesOfThree(ds: seq<int>, at: nat, d: int, inner: seq<int>, outer: seq<int>)
    requires at + 1 + |inner| + |outer| <= |ds| && ds[at..at + 1 + |inner| + |outer|] == [d] + inner + outer
    ensures ds[at] == d && ds[at + 1..at + 1 + |inner|] == inner
    ensures ds[at + 1 + |inner|..at + 1 + |inner| + |outer|] == outer
  {
    SlicesOfSum(ds, at, [d] + inner, outer);
    SlicesOfSum(ds, at, [d], inner);
    assert ds[at..at + 1][0] == ds[at];
  }

  lemma LinkedIs(ds: seq<int>, ts: seq<Tree>, p: nat, at: nat)
    requires ts != [] && StandsAt(ds, ts, at)
    ensures var later := at + 1 + |Depths(ts[0].children)|;
      && StandsAt(ds, ts[0].children, at + 1) && StandsAt(ds, ts[1..], later)
      && (NearestSmaller(ds, at, p) && Linked(ds, ts[0].children, at, at + 1) && Linked(ds, ts[1..], p, later)
          ==> Linked(ds, ts, p, at))
  {
    SplitStand(ds, ts, at);
    hide NearestSmaller;
  }

  lemma UnderIs(d: int, ts: seq<Tree>)
    requires ts != [] && Under(d, ts)
    ensures Under(ts[0].depth, ts[0].children) && Under(d, ts[1..])
  {
  }

  lemma NothingLinked(ds: seq<int>, p: nat, at: nat)
    requires StandsAt(ds, [], at)
    ensures at + |Depths([])| <= |ds| && Linked(ds, [], p, at)
  {
  }

  lemma {:induction false} ForestIsLinked(ds: seq<int>, ts: seq<Tree>, p: nat, at: nat)
    requires p < at && StandsAt(ds, ts, at) && Under(ds[p], ts)
    requires ts != [] ==> AtLeast(ds, p + 1, at, ts[0].depth)
    ensures Linked(ds, ts, p, at)
    decreases ts
  {
    hide *;
    if ts == [] {
      NothingLinked(ds, p, at);
    } else {
      var t := ts[0];
      SplitStand(ds, ts, at);
      UnderIs(ds[p], ts);
      NextMayFollow(ds, ts, p, at);
      LinkedIs(ds, ts, p, at);
      ForestIsLinked(ds, t.children, at, at + 1);
      ForestIsLinked(ds, ts[1..], p, at + 1 + |Depths(t.children)|);
    }
  }

  lemma NextMayFollow(ds: seq<int>, ts: seq<Tree>, p: nat, at: nat)
    requires ts != [] && p < at && StandsAt(ds, ts, at) && Under(ds[p], ts)
    requires AtLeast(ds, p + 1, at, ts[0].depth)
    ensures var later := at + 1 + |Depths(ts[0].children)|;
      && later <= |ds|
      && NearestSmaller(ds, at, p)
      && (ts[0].children != [] ==> AtLeast(ds, at + 1, at + 1, ts[0].children[0].depth))
      && (ts[1..] != [] ==> AtLeast(ds, p + 1, later, ts[1].depth))
  {
    var t := ts[0];
    var inner := Depths(t.children);
    SplitStand(ds, ts, at);
    DepthsUnder(t.depth, t.children);
    assert ds[at + 1..at + 1 + |inner|] == inner;
    forall k | at + 1 <= k < at + 1 + |inner|
      ensures ds[k] > t.depth
    {
      assert ds[k] == inner[k - at - 1];
    }
  }

  lemma {:induction false} HeadDepthsAppend(a: seq<Item>, b: seq<Item>)
    ensures HeadDepths(a + b) == HeadDepths(a) + HeadDepths(b)
  {
    if a == [] {
      assert a + b == b;
    } else {
      assert (a + b)[1..] == a[1..] + b;
      HeadDepthsAppend(a[1..], b);
      var first := if a[0].Head? then [a[0].h.depth] else [];
      Assoc(first, HeadDepths(a[1..]), HeadDepths(b));
    }
  }

  lemma {:induction false} LinesHaveNoDepths(content: seq<string>)
    ensures HeadDepths(Lines(content)) == []
  {
    if content != [] {
      LinesHaveNoDepths(content[1..]);
    }
  }

  lemma {:induction false} DepthsOfWalk(d: int, ts: seq<Tree>)
    requires Under(d, ts)
    ensures HeadDepths(PreorderAll(ts)) == Depths(ts)
    decreases ts
  {
    if ts != [] {
      var t := ts[0];
      DepthsOfWalk(t.depth, t.children);
      DepthsOfWalk(d, ts[1..]);
      HeadDepthsAppend(Preorder(t), PreorderAll(ts[1..]));
      DepthsOfOne(t);
    }
  }

  lemma DepthsOfOne(t: Tree)
    ensures HeadDepths(Preorder(t)) == (if t.hasHeading then [t.depth] else []) + HeadDepths(PreorderAll(t.children))
  {
    hide PreorderAll, Lines;
    var head := if t.hasHeading then [Head(Heading(t.depth, t.title, t.heading))] else [];
    assert HeadDepths(head) == if t.hasHeading then [t.depth] else [];
    hide HeadDepths;
    HeadDepthsAppend(head + Lines(t.content), PreorderAll(t.children));
    HeadDepthsAppend(head, Lines(t.content));
    LinesHaveNoDepths(t.content);
  }

  lemma TreeIsProper(items: seq<Item>)
    requires AllOk(items)
    ensures var t := TreeOf(items); t.depth == 0 && !t.hasHeading && Under(0, t.children)
  {
    RunProper(Root(EMPTY_ROOT), items);
    CollapseProper(Run(Root(EMPTY_ROOT), items));
    RootStays(Root(EMPTY_ROOT), items);
  }

  /** The tree is exact: with the root as node 0 of depth 0 and the headings numbered from 1 in
      order, every heading hangs below the nearest earlier node of strictly smaller depth. */
  lemma ParentIsNearestShallower(items: seq<Item>)
    requires AllOk(items)
    ensures var t := TreeOf(items);
      Depths(t.children) == HeadDepths(items) && Linked([0] + HeadDepths(items), t.children, 0, 1)
  {
    var t := TreeOf(items);
    TreeIsProper(items);
    WalkIsInput(items);
    DepthsOfWalk(0, t.children);
    DepthsOfOne(t);
    var ds := [0] + Depths(t.children);
    assert ds[1..1 + |Depths(t.children)|] == Depths(t.children);
    assert StandsAt(ds, t.children, 1);
    assert t.children != [] ==> AtLeast(ds, 1, 1, t.children[0].depth);
    hide *;
    assert HeadDepths(items) == Depths(t.children) && ds == [0] + HeadDepths(items);
    assert ds[0] == 0;
    ForestIsLinked(ds, t.children, 0, 1);
  }

  function Bottom(sp: Spine): Tree {
    match sp
    case Root(t) => t
    case Below(up, _) => Bottom(up)
  }

  lemma {:induction false} PoppedBottom(sp: Spine, d: int)
    ensures Bottom(Popped(sp, d)).hasHeading == Bottom(sp).hasHeading
    decreases Height(sp)
  {
    if sp.Below? && sp.t.depth >= d {
      PoppedBottom(AddChild(sp.up, sp.t), d);
    }
  }

  lemma {:induction false} CollapseBottom(sp: Spine)
    ensures Collapse(sp).hasHeading == Bottom(sp).hasHeading
    decreases Height(sp)
  {
    if sp.Below? {
      CollapseBottom(AddChild(sp.up, sp.t));
    }
  }

  lemma {:induction false} RootStays(sp: Spine, items: seq<Item>)
    ensures Collapse(Run(sp, items)).hasHeading == Bottom(sp).hasHeading
    decreases |items|
  {
    if items == [] {
      CollapseBottom(sp);
    } else {
      if items[0].Head? {
        PoppedBottom(sp, items[0].h.depth);
      }
      RootStays(Step(sp, items[0]), items[1..]);
    }
  }

  lemma ItemIsOk(line: string, inCode: bool, maxDepth: int, only: bool, p: Patterns)
    ensures var item := ItemOf(line, inCode, maxDepth, only, p);
      item.Head? ==> item.h.depth >= 1
  {
    hide ParseHeadingLine, IsFence;
  }

  lemma {:induction false} ItemsAreOk(lines: seq<string>, inCode: bool, maxDepth: int, only: bool, p: Patterns)
    ensures AllOk(ItemsFrom(lines, inCode, maxDepth, only, p))
  {
    if lines != [] {
      ItemIsOk(lines[0], inCode, maxDepth, only, p);
      hide ItemOf, Toggled;
      ItemsAreOk(lines[1..], Toggled(lines[0], inCode), maxDepth, only, p);
    }
  }

  /** For every document: a preorder walk of its heading tree gives back its lines in order, and each
      heading hangs below the nearest earlier heading of strictly smaller depth, or the root. */
  lemma HeadingTreeIsExact(text: string, maxDepth: int, p: Patterns)
    ensures var lines := InputLines(text);
      var items := Items(lines, maxDepth, p);
      var t := TreeOf(items);
      && Join(lines, "\n") == Unix(text)
      && Preorder(t) == items
      && Depths(t.children) == HeadDepths(items)
      && Linked([0] + HeadDepths(items), t.children, 0, 1)
  {
    var lines := InputLines(text);
    var items := Items(lines, maxDepth, p);
    LinesAreText(text);
    ItemsAreOk(lines, false, maxDepth, HasMarkdown(lines, false, p), p);
    WalkIsInput(items);
    ParentIsNearestShallower(items);
  }
}
