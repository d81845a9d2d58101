/** parseHeadingTree on the heap: nodes that are appended to while they are on the stack. */
module SectionNodes {
  import opened Common
  import opened Text
  import opened HeadingTree

  class SectionNode {
    var depth: int
    var title: string
    var heading: string
    var hasHeading: bool
    var content: seq<string>
    var children: seq<SectionNode>

    constructor (depth: int, title: string, heading: string, hasHeading: bool)
      ensures this.depth == depth && this.title == title && this.heading == heading && this.hasHeading == hasHeading
      ensures content == [] && children == []
    {
      this.depth, this.title, this.heading, this.hasHeading := depth, title, heading, hasHeading;
      content, children := [], [];
    }
  }

  predicate SameFields(n: SectionNode, t: Tree)
    reads n
  {
    && n.depth == t.depth && n.title == t.title && n.heading == t.heading && n.hasHeading == t.hasHeading
    && n.content == t.content
  }

  /** The nodes below n, all in repr, make up the tree t. */
  ghost predicate Shows(n: SectionNode, t: Tree, repr: set<SectionNode>)
    reads repr
    decreases t
  {
    && n in repr
    && SameFields(n, t)
    && |n.children| == |t.children|
    && forall k | 0 <= k < |t.children| :: Shows(n.children[k], t.children[k], repr)
  }

  lemma {:induction false} ShowsMore(n: SectionNode, t: Tree, repr: set<SectionNode>, more: set<SectionNode>)
    requires Shows(n, t, repr) && repr <= more
    ensures Shows(n, t, more)
    decreases t
  {
    forall k | 0 <= k < |t.children|
      ensures Shows(n.children[k], t.children[k], more)
    {
      ShowsMore(n.children[k], t.children[k], repr, more);
    }
  }

  /** A node on the stack: what it holds, then the child above it on the stack, if any. */
  ghost predicate Level(n: SectionNode, t: Tree, above: seq<SectionNode>, closed: set<SectionNode>)
    reads n, closed
  {
    && SameFields(n, t)
    && |n.children| == |t.children| + |above|
    && n.children[|t.children|..] == above
    && forall k | 0 <= k < |t.children| :: Shows(n.children[k], t.children[k], closed)
  }

  lemma LevelMore(n: SectionNode, t: Tree, above: seq<SectionNode>, closed: set<SectionNode>, more: set<SectionNode>)
    requires Level(n, t, above, closed) && closed <= more
    ensures Level(n, t, above, more)
  {
    forall k | 0 <= k < |t.children|
      ensures Shows(n.children[k], t.children[k], more)
    {
      ShowsMore(n.children[k], t.children[k], closed, more);
    }
  }

  /** The stack of nodes shows the spine; closed holds the nodes that have been popped. */
  ghost predicate Holds(stack: seq<SectionNode>, sp: Spine, above: seq<SectionNode>, closed: set<SectionNode>)
    reads stack, closed
    decreases sp
  {
    && stack != []
    && Level(stack[|stack| - 1], sp.t, above, closed)
    && match sp
       case Root(_) => |stack| == 1
       case Below(up, _) => |stack| > 1 && Holds(stack[..|stack| - 1], up, [stack[|stack| - 1]], closed)
  }

  lemma {:induction false} HoldsMore(stack: seq<SectionNode>, sp: Spine, above: seq<SectionNode>,
      closed: set<SectionNode>, more: set<SectionNode>)
    requires Holds(stack, sp, above, closed) && closed <= more
    ensures Holds(stack, sp, above, more)
    decreases sp
  {
    LevelMore(stack[|stack| - 1], sp.t, above, closed, more);
    hide Level;
    if sp.Below? {
      HoldsMore(stack[..|stack| - 1], sp.up, [stack[|stack| - 1]], closed, more);
    }
  }

  /** The stack nodes are distinct and none has been popped. */
  ghost predicate Apart(stack: seq<SectionNode>, closed: set<SectionNode>) {
    && (forall i, j | 0 <= i < j < |stack| :: stack[i] != stack[j])
    && (forall i | 0 <= i < |stack| :: stack[i] !in closed)
  }

  /** Taking the top off the stack closes it. */
  lemma PopHolds(stack: seq<SectionNode>, sp: Spine, closed: set<SectionNode>)
    requires sp.Below? && Holds(stack, sp, [], closed) && Apart(stack, closed)
    ensures var top := stack[|stack| - 1];
      var rest := stack[..|stack| - 1];
      && Holds(rest, AddChild(sp.up, sp.t), [], closed + {top})
      && Apart(rest, closed + {top})
  {
    var top := stack[|stack| - 1];
    var rest := stack[..|stack| - 1];
    var more := closed + {top};
    LevelMore(top, sp.t, [], closed, more);
    assert Shows(top, sp.t, more);
    HoldsMore(rest, sp.up, [top], closed, more);
    ChildClosed(rest[|rest| - 1], sp.up.t, sp.t, top, more);
    hide Level, Shows;
    if sp.up.Below? {
      assert Holds(rest[..|rest| - 1], sp.up.up, [rest[|rest| - 1]], more);
    }
  }

  lemma ChildClosed(n: SectionNode, t: Tree, c: Tree, child: SectionNode, closed: set<SectionNode>)
    requires Level(n, t, [child], closed) && Shows(child, c, closed)
    ensures Level(n, t.(children := t.children + [c]), [], closed)
  {
    var all: seq<Tree> := t.children + [c];
    assert n.children[|t.children|] == n.children[|t.children|..][0] == child;
    forall k | 0 <= k < |all|
      ensures Shows(n.children[k], all[k], closed)
    {
    }
  }

  function Top(stack: seq<SectionNode>): SectionNode
    requires stack != []
  {
    stack[|stack| - 1]
  }

  /** stack[len(stack)-1].content = append(..., line). */
  method AppendLine(stack: seq<SectionNode>, line: string, ghost sp: Spine, ghost closed: set<SectionNode>)
    requires Holds(stack, sp, [], closed) && Apart(stack, closed)
    modifies Top(stack)`content
    ensures Holds(stack, AddLine(sp, line), [], closed)
  {
    var top := stack[|stack| - 1];
    ghost var rest := stack[..|stack| - 1];
    assert top !in rest && top !in closed;
    top.content := top.content + [line];
  }

  /** The loop that pops every node of depth d or more; the root is never popped. */
  method PopTo(stack: seq<SectionNode>, d: int, ghost sp: Spine, ghost closed: set<SectionNode>)
    returns (rest: seq<SectionNode>, ghost popped: set<SectionNode>)
    requires Holds(stack, sp, [], closed) && Apart(stack, closed) && d > 0 && RootDepth(sp) == 0
    ensures rest != [] && Holds(rest, Popped(sp, d), [], popped) && Apart(rest, popped)
    ensures rest <= stack && closed <= popped && forall n | n in popped :: n in closed || n in stack
  {
    rest, popped := stack, closed;
    ghost var left := sp;
    while |rest| > 0 && rest[|rest| - 1].depth >= d
      invariant Holds(rest, left, [], popped) && Apart(rest, popped) && RootDepth(left) == 0
      invariant Popped(left, d) == Popped(sp, d)
      invariant rest <= stack && closed <= popped && forall n | n in popped :: n in closed || n in stack
      decreases |rest|
    {
      PopHolds(rest, left, popped);
      popped := popped + {rest[|rest| - 1]};
      left := AddChild(left.up, left.t);
      rest := rest[..|rest| - 1];
    }
  }

  function RootDepth(sp: Spine): int {
    match sp
    case Root(t) => t.depth
    case Below(up, _) => RootDepth(up)
  }

  /** A heading opens a node: a new last child of the node on top, and the new top. */
  method OpenNode(stack: seq<SectionNode>, h: Heading, ghost sp: Spine, ghost closed: set<SectionNode>)
    returns (grown: seq<SectionNode>)
    requires Holds(stack, sp, [], closed) && Apart(stack, closed)
    modifies Top(stack)`children
    ensures |grown| == |stack| + 1 && grown[..|stack|] == stack && fresh(Top(grown))
    ensures Holds(grown, Below(sp, NodeOf(h)), [], closed) && Apart(grown, closed)
  {
    var parent := stack[|stack| - 1];
    var node := new SectionNode(h.depth, h.title, h.text, true);
    ghost var rest := stack[..|stack| - 1];
    assert parent !in rest && parent !in closed;
    assert sp.Below? ==> Holds(rest, sp.up, [parent], closed);
    parent.children := parent.children + [node];
    grown := stack + [node];
    assert Level(parent, sp.t, [node], closed);
    assert Holds(stack, sp, [node], closed);
    assert grown[..|grown| - 1] == stack;
  }

  /** What is left on the stack at the end shows the collapsed spine. */
  lemma {:induction false} CloseAll(stack: seq<SectionNode>, sp: Spine, closed: set<SectionNode>)
    requires Holds(stack, sp, [], closed) && Apart(stack, closed)
    ensures Shows(stack[0], Collapse(sp), closed + set n | n in stack)
    decreases |stack|
  {
    var all := closed + set n | n in stack;
    if sp.Root? {
      LevelMore(stack[0], sp.t, [], closed, all);
    } else {
      var top := stack[|stack| - 1];
      var rest := stack[..|stack| - 1];
      PopHolds(stack, sp, closed);
      CloseAll(rest, AddChild(sp.up, sp.t), closed + {top});
      assert stack == rest + [top];
      assert all == closed + {top} + set n | n in rest;
    }
  }

  lemma {:induction false} PoppedRoot(sp: Spine, d: int)
    ensures RootDepth(Popped(sp, d)) == RootDepth(sp)
    decreases Height(sp)
  {
    if sp.Below? && sp.t.depth >= d {
      PoppedRoot(AddChild(sp.up, sp.t), d);
    }
  }

  /** The first loop: does a markdown heading occur outside fences. */
  method FindMarkdown(lines: seq<string>, p: Patterns) returns (found: bool)
    ensures found == HasMarkdown(lines, false, p)
  {
    var inCode := false;
    found := false;
    var i := 0;
    assert lines[0..] == lines;
    while i < |lines|
      invariant 0 <= i <= |lines| && !found
      invariant HasMarkdown(lines, false, p) == HasMarkdown(lines[i..], inCode, p)
    {
      var line := lines[i];
      assert lines[i..][1..] == lines[i + 1..];
      i := i + 1;
      if IsFence(line) {
        inCode := !inCode;
        continue;
      }
      if inCode {
        continue;
      }
      if p.markdown(TrimSpace(line)).Some? {
        found := true;
        break;
      }
    }
  }

  /** One turn of the main loop. */
  method TakeLine(stack: seq<SectionNode>, line: string, inCode: bool, maxDepth: int, only: bool, p: Patterns,
      ghost sp: Spine, ghost closed: set<SectionNode>)
    returns (next: seq<SectionNode>, nextInCode: bool, ghost popped: set<SectionNode>)
    requires Holds(stack, sp, [], closed) && Apart(stack, closed) && RootDepth(sp) == 0
    modifies stack
    ensures Holds(next, Step(sp, ItemOf(line, inCode, maxDepth, only, p)), [], popped) && Apart(next, popped)
    ensures nextInCode == (if IsFence(line) then !inCode else inCode)
    ensures RootDepth(Step(sp, ItemOf(line, inCode, maxDepth, only, p))) == 0 && next[0] == stack[0]
    ensures forall n | n in next || n in popped :: n in stack || n in closed || fresh(n)
  {
    hide TrimSpace;
    next, nextInCode, popped := stack, inCode, closed;
    if IsFence(line) {
      nextInCode := !inCode;
      AppendLine(stack, line, sp, closed);
      return;
    }
    if inCode {
      AppendLine(stack, line, sp, closed);
      return;
    }
    var heading := ParseHeadingLine(line, maxDepth, only, p);
    if heading.Some? {
      var h := heading.value;
      PoppedRoot(sp, h.depth);
      next, popped := PopTo(stack, h.depth, sp, closed);
      assert forall n | n in next :: n in stack;
      next := OpenNode(next, h, Popped(sp, h.depth), popped);
    } else {
      AppendLine(stack, line, sp, closed);
    }
  }

  lemma ItemsAt(lines: seq<string>, i: nat, inCode: bool, maxDepth: int, only: bool, p: Patterns, sp: Spine)
    requires i < |lines|
    ensures var after := if IsFence(lines[i]) then !inCode else inCode;
      Run(sp, ItemsFrom(lines[i..], inCode, maxDepth, only, p))
        == Run(Step(sp, ItemOf(lines[i], inCode, maxDepth, only, p)),
               ItemsFrom(lines[i + 1..], after, maxDepth, only, p))
  {
    hide ItemOf, IsFence, Step;
    assert lines[i..][1..] == lines[i + 1..];
    var after := if IsFence(lines[i]) then !inCode else inCode;
    var items := ItemsFrom(lines[i..], inCode, maxDepth, only, p);
    assert items == [ItemOf(lines[i], inCode, maxDepth, only, p)] + ItemsFrom(lines[i + 1..], after, maxDepth, only, p);
  }

  /** parseHeadingTree. */
  method ParseHeadingTree(text: string, maxDepth: int, p: Patterns)
    returns (root: SectionNode, ghost repr: set<SectionNode>)
    ensures fresh(repr) && Shows(root, TreeOf(Items(InputLines(text), maxDepth, p)), repr)
  {
    var lines := Split(Unix(text), "\n");
    root, repr := ReadLines(lines, maxDepth, p);
  }

  /** The two loops over the lines. */
  method ReadLines(lines: seq<string>, maxDepth: int, p: Patterns)
    returns (root: SectionNode, ghost repr: set<SectionNode>)
    ensures fresh(repr) && Shows(root, TreeOf(Items(lines, maxDepth, p)), repr)
  {
    root := new SectionNode(0, "", "", false);
    var only := FindMarkdown(lines, p);
    var stack := [root];
    var inCode := false;
    ghost var sp, closed := Root(EMPTY_ROOT), {};
    assert lines[0..] == lines;
    var i := 0;
    assert Level(root, EMPTY_ROOT, [], closed);
    while i < |lines|
      invariant 0 <= i <= |lines|
      invariant Holds(stack, sp, [], closed) && Apart(stack, closed) && RootDepth(sp) == 0 && stack[0] == root
      invariant fresh(set n | n in stack || n in closed)
      invariant Run(sp, ItemsFrom(lines[i..], inCode, maxDepth, only, p))
             == Run(Root(EMPTY_ROOT), ItemsFrom(lines, false, maxDepth, only, p))
    {
      ItemsAt(lines, i, inCode, maxDepth, only, p, sp);
      hide *;
      ghost var item := ItemOf(lines[i], inCode, maxDepth, only, p);
      stack, inCode, closed := TakeLine(stack, lines[i], inCode, maxDepth, only, p, sp, closed);
      sp := Step(sp, item);
      i := i + 1;
    }
    CloseAll(stack, sp, closed);
    repr := closed + set n | n in stack;
  }
}
