/**
 The renderer object (src/virtual_dom/renderer.rs): it owns the root, writes to the terminal's buffer
 and flushes it; a flush that fails delivers any part of the buffer from its start.  Applying patches
 is proved against the functions of `Patching`; rendering is proved against what the terminal ends up
 showing.
 */
module Rendering {
  import opened Basics
  import opened VirtualDom
  import opened TreeDiff
  import opened Terminal
  import opened Patching

  // ----- what a tree shows ------------------------------------------------------------------------

  /** The text of a tree in order; a "text" element shows its content and none of its children. */
  function Shown(node: VNode): string
    decreases node, 1
  {
    match node
    case Text(text) => text
    case Element(e) =>
      if e.tag == "text" then (if CONTENT in e.props then e.props[CONTENT] else "") else ShownAll(e.children)
  }

  function ShownAll(nodes: seq<VNode>): string
    decreases nodes, 0
  {
    if nodes == [] then "" else Shown(nodes[0]) + ShownAll(nodes[1..])
  }

  /** The same with the look of each character. */
  function ShownCells(node: VNode): seq<Cell>
    decreases node, 1
  {
    match node
    case Text(text) => Cells(text, PLAIN)
    case Element(e) =>
      if e.tag == "text" then
        (if CONTENT in e.props then Cells(e.props[CONTENT], Styled(e.styles.Keys, e.styles, PLAIN)) else [])
      else ShownCellsAll(e.children)
  }

  function ShownCellsAll(nodes: seq<VNode>): seq<Cell>
    decreases nodes, 0
  {
    if nodes == [] then [] else ShownCells(nodes[0]) + ShownCellsAll(nodes[1..])
  }

  /** No ESC in the text that is shown. */
  predicate Quiet(node: VNode) { ESCAPE !in Shown(node) }

  predicate NamedTree(node: VNode) {
    match node
    case Text(_) => true
    case Element(e) => if e.tag == "text" then Named(e.styles) else NamedTrees(e.children)
  }

  predicate NamedTrees(nodes: seq<VNode>) { forall i :: 0 <= i < |nodes| ==> NamedTree(nodes[i]) }

  function Glyphs(cells: seq<Cell>): (r: string)
    ensures |r| == |cells|
  {
    seq(|cells|, i requires 0 <= i < |cells| => cells[i].glyph)
  }

  predicate Clean(s: Screen) { s.mode == Ground && s.look == PLAIN }

  const RESET := Code("0")

  /** A styled text between a clean screen and the closing reset. */
  lemma FeedStyled(s: Screen, order: seq<string>, styles: Attrs, content: string)
    requires Clean(s) && IsOrder(order, styles) && ESCAPE !in content
    ensures var t := FeedAll(s, Codes(order, styles) + (content + RESET));
            && Clean(t)
            && t.cells == s.cells + Cells(content, Effects(order, styles, PLAIN))
            && (Named(styles) ==> Effects(order, styles, PLAIN) == Styled(styles.Keys, styles, PLAIN))
  {
    FeedSplit(s, Codes(order, styles), content + RESET);
    FeedCodes(s, order, styles);
    var styled := s.(look := Effects(order, styles, PLAIN));
    FeedSplit(styled, content, RESET);
    FeedText(styled, content);
    FeedCode1(styled.(cells := styled.cells + Cells(content, styled.look)), '0');
    if Named(styles) {
      NamedOrderFree(s, order, styles);
    }
  }

  lemma {:induction false} ShownPart(nodes: seq<VNode>, i: nat)
    requires i < |nodes|
    ensures ESCAPE !in ShownAll(nodes) ==> ESCAPE !in Shown(nodes[i])
  {
    if i > 0 {
      ShownPart(nodes[1..], i - 1);
    }
  }

  const ERASE := [ESCAPE, '[', '2', 'J']
  const HOME := [ESCAPE, '[', '1', ';', '1', 'H']
  const CLEAR := ERASE + HOME

  /** What two lists of nodes show is shown side by side, in their order. */
  lemma {:induction false} ShownSplit(a: seq<VNode>, b: seq<VNode>)
    ensures ShownAll(a + b) == ShownAll(a) + ShownAll(b)
    ensures ShownCellsAll(a + b) == ShownCellsAll(a) + ShownCellsAll(b)
    decreases |a|
  {
    if a == [] {
      assert a + b == b && "" + ShownAll(b) == ShownAll(b) && [] + ShownCellsAll(b) == ShownCellsAll(b);
    } else {
      assert (a + b)[0] == a[0] && (a + b)[1..] == a[1..] + b;
      ShownSplit(a[1..], b);
      assert Shown(a[0]) + (ShownAll(a[1..]) + ShownAll(b)) == Shown(a[0]) + ShownAll(a[1..]) + ShownAll(b);
      assert ShownCells(a[0]) + (ShownCellsAll(a[1..]) + ShownCellsAll(b))
          == ShownCells(a[0]) + ShownCellsAll(a[1..]) + ShownCellsAll(b);
    }
  }

  /** A text shows itself; a "text" element the value of its "content" and none of its children; any other
      element its children. */
  lemma ShownKinds(node: VNode, e: VElement, content: string)
    ensures ShownAll([node]) == Shown(node) && ShownAll([]) == ""
    ensures Shown(Text(content)) == content
    ensures e.tag == "text" && "content" in e.props ==> Shown(Element(e)) == e.props["content"]
    ensures e.tag == "text" && "content" !in e.props ==> Shown(Element(e)) == ""
    ensures e.tag != "text" ==> Shown(Element(e)) == ShownAll(e.children)
  {
    assert [node][1..] == [] && Shown(node) + "" == Shown(node);
  }

  /** A tree has named colours throughout when each text element it shows has. */
  lemma NamedKinds(node: VNode)
    ensures node.Text? ==> NamedTree(node)
    ensures node.Element? && node.elem.tag == "text" ==>
      (NamedTree(node) <==> forall key :: key in node.elem.styles ==> !Resets(key, node.elem.styles[key]))
    ensures node.Element? && node.elem.tag != "text" ==>
      (NamedTree(node) <==> forall i :: 0 <= i < |node.elem.children| ==> NamedTree(node.elem.children[i]))
  {
  }

  /** The sequences the renderer adds to a text and clears the screen with. */
  lemma FixedSequences()
    ensures RESET == ['\U{1B}', '[', '0', 'm']
    ensures CLEAR == ['\U{1B}', '[', '2', 'J', '\U{1B}', '[', '1', ';', '1', 'H']
  {
  }

  lemma FeedErase(s: Screen)
    requires s.mode == Ground
    ensures FeedAll(s, ERASE) == s.(cells := [])
  {
    assert ERASE == [ESCAPE, '['] + (['2'] + ['J']);
    FeedIntroducer(s, ['2'] + ['J']);
    assert [0][0 := 2] == [2];
    FeedArguments(s.(mode := Sequence([0])), '2', [2], ['J']);
    FeedOne(s.(mode := Sequence([2])), 'J');
  }

  lemma FeedHome(s: Screen)
    requires s.mode == Ground
    ensures FeedAll(s, HOME) == s
  {
    assert HOME == [ESCAPE, '['] + (['1'] + ([';'] + (['1'] + ['H'])));
    FeedIntroducer(s, ['1'] + ([';'] + (['1'] + ['H'])));
    assert [0][0 := 1] == [1] && [1] + [0] == [1, 0] && [1, 0][1 := 1] == [1, 1];
    FeedArguments(s.(mode := Sequence([0])), '1', [1], [';'] + (['1'] + ['H']));
    FeedArguments(s.(mode := Sequence([1])), ';', [1, 0], ['1'] + ['H']);
    FeedArguments(s.(mode := Sequence([1, 0])), '1', [1, 1], ['H']);
    FeedOne(s.(mode := Sequence([1, 1])), 'H');
  }

  /** The clear sequence empties the screen and leaves the look alone. */
  lemma FeedClear(s: Screen)
    requires s.mode == Ground
    ensures FeedAll(s, CLEAR) == s.(cells := [])
  {
    FeedSplit(s, ERASE, HOME);
    FeedErase(s);
    FeedHome(s.(cells := []));
  }

  lemma FeedArguments(s: Screen, c: char, arguments: seq<nat>, rest: string)
    requires Feed(s, c) == s.(mode := Sequence(arguments))
    ensures FeedAll(s, [c] + rest) == FeedAll(s.(mode := Sequence(arguments)), rest)
  {
    FeedSplit(s, [c], rest);
    FeedOne(s, c);
  }

  /** From screen `s`, writing `text` led to `t`; `ok` says that all of it was delivered, and then the
      screen is clean again.  With named styles the cells are exactly `cells`. */
  ghost predicate Rendered(s: Screen, t: Screen, ok: bool, text: string, cells: seq<Cell>, named: bool) {
    PartShown(s, t, text) && (ok ==> WholeShown(s, t, text, cells, named))
  }

  predicate PartShown(s: Screen, t: Screen, text: string) {
    s.cells <= t.cells && Glyphs(t.cells) <= Glyphs(s.cells) + text
  }

  predicate WholeShown(s: Screen, t: Screen, text: string, cells: seq<Cell>, named: bool) {
    Clean(t) && Glyphs(t.cells) == Glyphs(s.cells) + text && (named ==> t.cells == s.cells + cells)
  }

  /** Of `text`, a part from its start has reached the terminal, and all of it when `ok`. */
  ghost predicate Delivered(s: Screen, text: string, t: Screen, rest: string, ok: bool) {
    && (exists n: nat :: n <= |text| && t == FeedAll(s, text[..n]) && rest == text[n..])
    && (ok ==> t == FeedAll(s, text) && rest == "")
  }

  // ----- what a part of the output shows -------------------------------------------------------------

  /** Only a `J` can take cells off the screen. */
  lemma {:induction false} CellsStay(s: Screen, text: string)
    requires 'J' !in text
    ensures s.cells <= FeedAll(s, text).cells
    decreases |text|
  {
    if text != "" {
      assert text[0] != 'J';
      CellsStay(Feed(s, text[0]), text[1..]);
    }
  }

  lemma EntryPlain(key: string, value: string)
    ensures 'J' !in EntryCode(key, value)
  {
  }

  lemma {:induction false} CodesPlain(order: seq<string>, styles: Attrs)
    requires forall key :: key in order ==> key in styles
    ensures 'J' !in Codes(order, styles)
  {
    if order != [] {
      var key := order[|order| - 1];
      CodesPlain(order[..|order| - 1], styles);
      EntryPlain(key, styles[key]);
    }
  }

  /** A part of some codes shows nothing. */
  lemma CodesPart(s: Screen, codes: string, n: nat)
    requires n <= |codes| && 'J' !in codes && FeedAll(s, codes).cells == s.cells
    ensures FeedAll(s, codes[..n]).cells == s.cells
  {
    assert codes == codes[..n] + codes[n..];
    FeedSplit(s, codes[..n], codes[n..]);
    CellsStay(s, codes[..n]);
    CellsStay(FeedAll(s, codes[..n]), codes[n..]);
  }

  lemma TextPart(s: Screen, text: string, n: nat)
    requires s.mode == Ground && ESCAPE !in text && n <= |text|
    ensures PartShown(s, FeedAll(s, text[..n]), text)
  {
    FeedText(s, text[..n]);
    var t := FeedAll(s, text[..n]);
    assert Glyphs(t.cells) == Glyphs(s.cells) + text[..n];
    assert Glyphs(s.cells) + text == Glyphs(s.cells) + text[..n] + text[n..];
  }

  lemma ResetPart(s: Screen, n: nat)
    requires s.mode == Ground && n <= |RESET|
    ensures FeedAll(s, RESET[..n]).cells == s.cells
  {
    FeedCode1(s, '0');
    CodesPart(s, RESET, n);
  }

  /** A part of a text and the closing reset shows a part of the text. */
  lemma ContentPart(s: Screen, content: string, n: nat)
    requires s.mode == Ground && ESCAPE !in content && n <= |content + RESET|
    ensures PartShown(s, FeedAll(s, (content + RESET)[..n]), content)
  {
    if n <= |content| {
      assert (content + RESET)[..n] == content[..n];
      TextPart(s, content, n);
    } else {
      var k := n - |content|;
      assert (content + RESET)[..n] == content + RESET[..k];
      FeedSplit(s, content, RESET[..k]);
      FeedText(s, content);
      var v := FeedAll(s, content);
      ResetPart(v, k);
      assert Glyphs(v.cells) == Glyphs(s.cells) + content;
    }
  }

  /** A part of a styled text shows a part of the text. */
  lemma StyledPart(s: Screen, order: seq<string>, styles: Attrs, content: string, n: nat)
    requires Clean(s) && IsOrder(order, styles) && ESCAPE !in content
    requires n <= |Codes(order, styles) + (content + RESET)|
    ensures PartShown(s, FeedAll(s, (Codes(order, styles) + (content + RESET))[..n]), content)
  {
    var codes, rest := Codes(order, styles), content + RESET;
    CodesPlain(order, styles);
    FeedCodes(s, order, styles);
    if n <= |codes| {
      assert (codes + rest)[..n] == codes[..n];
      CodesPart(s, codes, n);
      assert Glyphs(s.cells) <= Glyphs(s.cells) + content;
    } else {
      var k := n - |codes|;
      assert (codes + rest)[..n] == codes + rest[..k];
      FeedSplit(s, codes, rest[..k]);
      ContentPart(FeedAll(s, codes), content, k);
    }
  }

  lemma StyledWhole(s: Screen, order: seq<string>, styles: Attrs, content: string)
    requires Clean(s) && IsOrder(order, styles) && ESCAPE !in content
    ensures WholeShown(s, FeedAll(s, Codes(order, styles) + (content + RESET)), content,
                       Cells(content, Styled(styles.Keys, styles, PLAIN)), Named(styles))
  {
    FeedStyled(s, order, styles, content);
    var whole := FeedAll(s, Codes(order, styles) + (content + RESET));
    assert Glyphs(whole.cells) == Glyphs(s.cells) + content;
  }

  lemma TextWhole(s: Screen, text: string, named: bool)
    requires Clean(s) && ESCAPE !in text
    ensures WholeShown(s, FeedAll(s, text), text, Cells(text, PLAIN), named)
  {
    FeedText(s, text);
    assert Glyphs(FeedAll(s, text).cells) == Glyphs(s.cells) + text;
  }

  lemma DeliveredPart(s: Screen, text: string, t: Screen, rest: string, ok: bool) returns (n: nat)
    requires Delivered(s, text, t, rest, ok)
    ensures n <= |text| && t == FeedAll(s, text[..n])
  {
    n :| n <= |text| && t == FeedAll(s, text[..n]) && rest == text[n..];
  }

  lemma StyledRendered(s: Screen, order: seq<string>, styles: Attrs, content: string, t: Screen, rest: string, ok: bool)
    requires Clean(s) && IsOrder(order, styles) && ESCAPE !in content
    requires Delivered(s, Codes(order, styles) + (content + RESET), t, rest, ok)
    ensures Rendered(s, t, ok, content, Cells(content, Styled(styles.Keys, styles, PLAIN)), Named(styles))
  {
    var n := DeliveredPart(s, Codes(order, styles) + (content + RESET), t, rest, ok);
    StyledPart(s, order, styles, content, n);
    StyledWhole(s, order, styles, content);
  }

  lemma TextRendered(s: Screen, text: string, t: Screen, rest: string, ok: bool, named: bool)
    requires Clean(s) && ESCAPE !in text && Delivered(s, text, t, rest, ok)
    ensures Rendered(s, t, ok, text, Cells(text, PLAIN), named)
  {
    var n := DeliveredPart(s, text, t, rest, ok);
    TextPart(s, text, n);
    TextWhole(s, text, named);
  }

  lemma RenderedThen(s: Screen, t: Screen, u: Screen, ok: bool, a: string, b: string, c: seq<Cell>, d: seq<Cell>, named: bool)
    requires Rendered(s, t, true, a, c, named) && Rendered(t, u, ok, b, d, named)
    ensures Rendered(s, u, ok, a + b, c + d, named)
  {
    assert Glyphs(s.cells) + (a + b) == Glyphs(s.cells) + a + b;
    assert s.cells + (c + d) == s.cells + c + d;
  }

  lemma RenderedMore(s: Screen, t: Screen, a: string, b: string, c: seq<Cell>, d: seq<Cell>, named: bool)
    requires Rendered(s, t, false, a, c, named)
    ensures Rendered(s, t, false, a + b, d, named)
  {
    assert Glyphs(s.cells) + (a + b) == Glyphs(s.cells) + a + b;
  }

  lemma ShownFrom(nodes: seq<VNode>, i: nat, done: string, cells: seq<Cell>)
    requires i < |nodes|
    ensures done + ShownAll(nodes[i..]) == done + Shown(nodes[i]) + ShownAll(nodes[i + 1..])
    ensures cells + ShownCellsAll(nodes[i..]) == cells + ShownCells(nodes[i]) + ShownCellsAll(nodes[i + 1..])
    ensures FlushesAll(nodes[i..]) == Flushes(nodes[i]) + FlushesAll(nodes[i + 1..])
  {
    assert nodes[i..][1..] == nodes[i + 1..];
  }

  lemma ChildRendered(s: Screen, t: Screen, u: Screen, ok: bool, nodes: seq<VNode>, i: nat,
                      done: string, cells: seq<Cell>, named: bool)
    requires i < |nodes|
    requires Rendered(s, t, true, done, cells, named)
    requires Rendered(t, u, ok, Shown(nodes[i]), ShownCells(nodes[i]), named)
    requires done + ShownAll(nodes[i..]) == ShownAll(nodes)
    ensures Rendered(s, u, ok, done + Shown(nodes[i]), cells + ShownCells(nodes[i]), named)
    ensures !ok ==> Rendered(s, u, false, ShownAll(nodes), ShownCellsAll(nodes), named)
  {
    RenderedThen(s, t, u, ok, done, Shown(nodes[i]), cells, ShownCells(nodes[i]), named);
    ShownFrom(nodes, i, done, cells);
    if !ok {
      RenderedMore(s, u, done + Shown(nodes[i]), ShownAll(nodes[i + 1..]), cells + ShownCells(nodes[i]),
                   ShownCellsAll(nodes), named);
    }
  }

  // ----- the object -------------------------------------------------------------------------------

  class Renderer {
    var root: VNode
    /** The terminal, and what is written but has not reached it. */
    var screen: Screen
    var pending: string
    /** Outcomes of the flushes to come. */
    var plan: Plan

    constructor (root: VNode, plan: Plan)
      ensures this.root == root && this.plan == plan && screen == Screen(Ground, PLAIN, []) && pending == ""
    {
      this.root, this.plan, screen, pending := root, plan, Screen(Ground, PLAIN, []), "";
    }

    method Print(text: string)
      modifies this`pending
      ensures pending == old(pending) + text
    {
      pending := pending + text;
    }

    method FlushOutput() returns (ok: bool)
      modifies this`screen, this`pending, this`plan
      ensures (ok, plan) == Flush(old(plan), 1)
      ensures Delivered(old(screen), old(pending), screen, pending, ok)
    {
      ok := true;
      if plan != [] {
        ok := plan[0];
        plan := plan[1..];
      }
      var n := |pending|;
      if !ok {
        n :| 0 <= n <= |pending|;
      }
      assert pending[..|pending|] == pending;
      screen, pending := FeedAll(screen, pending[..n]), pending[n..];
    }

    method RenderText(text: string) returns (ok: bool)
      modifies this`screen, this`pending, this`plan
      ensures (ok, plan) == Flush(old(plan), 1)
      ensures Delivered(old(screen), old(pending) + text, screen, pending, ok)
    {
      Print(text);
      ok := FlushOutput();
    }

    method ClearScreen() returns (ok: bool)
      modifies this`screen, this`pending, this`plan
      ensures (ok, plan) == Flush(old(plan), 1)
      ensures Delivered(old(screen), old(pending) + CLEAR, screen, pending, ok)
    {
      Print(CLEAR);
      ok := FlushOutput();
    }

    /** Nothing is left from before, and the terminal is clean. */
    predicate Settled()
      reads this`screen, this`pending
    {
      Clean(screen) && pending == ""
    }

    /** From a settled terminal, rendering shows the tree's text in order and leaves the terminal settled;
        when a flush fails on the way, it has shown a part of the text from its start. */
    method RenderNode(node: VNode) returns (ok: bool)
      modifies this`screen, this`pending, this`plan
      ensures (ok, plan) == Flush(old(plan), Flushes(node))
      ensures old(Settled()) && Quiet(node) ==>
                && (ok ==> Settled())
                && Rendered(old(screen), screen, ok, Shown(node), ShownCells(node), NamedTree(node))
      decreases node, 2
    {
      match node
      case Text(text) =>
        ghost var settled := Settled() && Quiet(node);
        assert pending == "" ==> pending + text == text;
        ok := RenderText(text);
        if settled {
          TextRendered(old(screen), text, screen, pending, ok, true);
        }
      case Element(e) =>
        ok := RenderElement(e);
    }

    method RenderElement(e: VElement) returns (ok: bool)
      modifies this`screen, this`pending, this`plan
      ensures (ok, plan) == Flush(old(plan), Flushes(Element(e)))
      ensures old(Settled()) && Quiet(Element(e)) ==>
                && (ok ==> Settled())
                && Rendered(old(screen), screen, ok, Shown(Element(e)), ShownCells(Element(e)), NamedTree(Element(e)))
      decreases Element(e), 1
    {
      if e.tag == "text" {
        ok := RenderTextElement(e);
      } else {
        ok := RenderNodes(e.children);
      }
    }

    method RenderTextElement(e: VElement) returns (ok: bool)
      requires e.tag == "text"
      modifies this`screen, this`pending, this`plan
      ensures (ok, plan) == Flush(old(plan), Flushes(Element(e)))
      ensures old(Settled()) && Quiet(Element(e)) ==>
                && (ok ==> Settled())
                && Rendered(old(screen), screen, ok, Shown(Element(e)), ShownCells(Element(e)), NamedTree(Element(e)))
    {
      var codes := ApplyStyles(e.styles);
      ghost var order :| IsOrder(order, e.styles) && codes == Codes(order, e.styles);
      ok := true;
      if CONTENT in e.props {
        var content := e.props[CONTENT];
        ghost var settled := Settled() && Quiet(Element(e));
        assert pending == "" ==> pending + (codes + (content + RESET)) == codes + (content + RESET);
        Print(codes + (content + RESET));
        ok := FlushOutput();
        if settled {
          StyledRendered(old(screen), order, e.styles, content, screen, pending, ok);
        }
      }
    }

    /** The children in order, up to the first failure. */
    method RenderNodes(nodes: seq<VNode>) returns (ok: bool)
      modifies this`screen, this`pending, this`plan
      ensures (ok, plan) == Flush(old(plan), FlushesAll(nodes))
      ensures old(Settled()) && ESCAPE !in ShownAll(nodes) ==>
                && (ok ==> Settled())
                && Rendered(old(screen), screen, ok, ShownAll(nodes), ShownCellsAll(nodes), NamedTrees(nodes))
      decreases nodes, 0
    {
      ghost var shows, named := Settled() && ESCAPE !in ShownAll(nodes), NamedTrees(nodes);
      ghost var done, shown := "", [];
      assert nodes[0..] == nodes;
      ok := true;
      for i := 0 to |nodes|
        invariant ok
        invariant Flush(old(plan), FlushesAll(nodes)) == Flush(plan, FlushesAll(nodes[i..]))
        invariant done + ShownAll(nodes[i..]) == ShownAll(nodes)
        invariant shown + ShownCellsAll(nodes[i..]) == ShownCellsAll(nodes)
        invariant shows ==> Settled() && Rendered(old(screen), screen, true, done, shown, named)
      {
        ghost var mid := screen;
        ShownPart(nodes, i);
        ShownFrom(nodes, i, done, shown);
        FlushSplit(plan, Flushes(nodes[i]), FlushesAll(nodes[i + 1..]));
        ok := RenderNode(nodes[i]);
        if shows {
          assert Rendered(mid, screen, ok, Shown(nodes[i]), ShownCells(nodes[i]), named);
          ChildRendered(old(screen), mid, screen, ok, nodes, i, done, shown, named);
        }
        done, shown := done + Shown(nodes[i]), shown + ShownCells(nodes[i]);
        if !ok {
          return;
        }
      }
      assert nodes[|nodes|..] == [];
    }

    /** `render_all`: what stood on the screen is gone and the root's text is there. */
    method RenderAll() returns (ok: bool)
      modifies this`screen, this`pending, this`plan
      ensures (ok, plan) == Flush(old(plan), 1 + Flushes(root))
      ensures ok && old(Settled()) && Quiet(root) ==>
        && Settled() && Glyphs(screen.cells) == Shown(root)
        && (NamedTree(root) ==> screen.cells == ShownCells(root))
    {
      FlushSplit(plan, 1, Flushes(root));
      if Settled() {
        FeedClear(screen);
        assert pending + CLEAR == CLEAR;
      }
      ok := ClearScreen();
      if ok {
        ok := RenderNode(root);
        assert Glyphs([]) == "" && "" + Shown(root) == Shown(root) && [] + ShownCells(root) == ShownCells(root);
      }
    }

    // ----- patches --------------------------------------------------------------------------------

    method UpdateTextPatch(newText: string) returns (error: Option<RenderError>)
      modifies this
      ensures Outcome(root, plan, error) == ApplyPatch(UpdateText(newText), old(root), old(plan))
    {
      FlushSplit(plan, 1, 1);
      var ok := ClearScreen();
      if !ok { return Some(Io); }
      ok := RenderText(newText);
      if !ok { return Some(Io); }
      if root.Element? {
        root := Element(root.elem.(props := root.elem.props[CONTENT := newText]));
      } else {
        return Some(TextNode);
      }
      return None;
    }

    method UpdatePropsPatch(props: Attrs) returns (error: Option<RenderError>)
      modifies this
      ensures Outcome(root, plan, error) == ApplyPatch(UpdateProps(props), old(root), old(plan))
    {
      if root.Text? { return Some(TextNode); }
      InsertProps(props);
      PrintProps(props);
      var ok := FlushOutput();
      error := Failure(ok);
    }

    method InsertProps(props: Attrs)
      requires root.Element?
      modifies this`root
      ensures root == Element(old(root).elem.(props := old(root).elem.props + props))
    {
      var elem := root.elem;
      ghost var before := elem.props;
      var keys := props.Keys;
      while keys != {}
        invariant keys <= props.Keys && elem == old(root).elem.(props := elem.props)
        invariant elem.props == before + map key | key in props && key !in keys :: props[key]
        decreases keys
      {
        var key :| key in keys;
        elem := elem.(props := elem.props[key := props[key]]);
        keys := keys - {key};
      }
      assert (map key | key in props :: props[key]) == props;
      root := Element(elem);
    }

    method PrintProps(props: Attrs)
      modifies this`pending
    {
      var keys := props.Keys;
      while keys != {}
        decreases keys
      {
        var key :| key in keys;
        Print(key + ": " + props[key] + "\n");
        keys := keys - {key};
      }
    }

    method AppendChildPatch(child: VNode) returns (error: Option<RenderError>)
      modifies this
      ensures Outcome(root, plan, error) == ApplyPatch(AppendChild(child), old(root), old(plan))
    {
      var ok := RenderNode(child);
      if !ok { return Some(Io); }
      if root.Text? { return Some(TextNode); }
      root := Element(root.elem.(children := root.elem.children + [child]));
      return None;
    }

    method RemoveChildPatch(index: nat) returns (error: Option<RenderError>)
      requires index < 0x1_0000_0000
      modifies this
      ensures Outcome(root, plan, error) == ApplyPatch(RemoveChild(index), old(root), old(plan))
    {
      if root.Text? { return Some(TextNode); }
      if index >= |root.elem.children| { return Some(OutOfBounds); }
      root := Element(root.elem.(children := root.elem.children[..index] + root.elem.children[index + 1..]));
      FlushSplit(plan, 1, Flushes(root));
      var ok := ClearScreen();
      if !ok { return Some(Io); }
      ok := RenderNode(root);
      error := Failure(ok);
    }

    method ApplyOne(patch: Patch) returns (error: Option<RenderError>)
      modifies this
      ensures Outcome(root, plan, error) == ApplyPatch(patch, old(root), old(plan))
    {
      error := None;
      match patch {
        case Replace(node) =>
          root := node;
          var ok := RenderNode(node);
          error := Failure(ok);
        case UpdateProps(props) => error := UpdatePropsPatch(props);
        case AppendChild(child) => error := AppendChildPatch(child);
        case RemoveChild(index) => error := RemoveChildPatch(Index32(index));
        case UpdateText(text) => error := UpdateTextPatch(text);
        case NoPatch =>
      }
    }

    /** `apply_patches`: one by one, up to the first error. */
    method ApplyPatches(patches: seq<Patch>) returns (error: Option<RenderError>)
      modifies this
      ensures Outcome(root, plan, error) == ApplyAll(patches, old(root), old(plan))
    {
      error := None;
      assert patches[0..] == patches;
      for i := 0 to |patches|
        invariant error == None
        invariant ApplyAll(patches, old(root), old(plan)) == ApplyAll(patches[i..], root, plan)
      {
        assert patches[i..][1..] == patches[i + 1..];
        error := ApplyOne(patches[i]);
        if error.Some? {
          return;
        }
      }
    }

    /** `render`: whatever the patches made of the root, success leaves exactly the new tree. */
    method Render(newRoot: VNode) returns (error: Option<RenderError>)
      modifies this
      ensures var o := ApplyAll(Diff(old(root), newRoot), old(root), old(plan));
              error == o.error && plan == o.plan && root == if error == None then newRoot else o.root
    {
      var current := root;
      var patches := DiffNodes(current, newRoot);
      error := ApplyPatches(patches);
      if error == None {
        root := newRoot;
      }
    }
  }
}
