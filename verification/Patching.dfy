/**
 Applying patches to the renderer's root (src/virtual_dom/renderer.rs).  Every write to the terminal
 is flushed and a flush may fail; `plan` gives the outcome of the flushes to come (past its end they
 succeed), so a statement over every plan covers every failure.
 */
module Patching {
  import opened Basics
  import opened VirtualDom
  import opened TreeDiff

  type Plan = seq<bool>

  datatype RenderError = Io | TextNode | OutOfBounds

  datatype Outcome = Outcome(root: VNode, plan: Plan, error: Option<RenderError>)

  /** `n` flushes in a row, given up at the first failure. */
  function Flush(plan: Plan, n: nat): (bool, Plan)
    decreases n
  {
    if n == 0 then (true, plan)
    else if plan == [] then (true, [])
    else if plan[0] then Flush(plan[1..], n - 1)
    else (false, plan[1..])
  }

  predicate Faultless(plan: Plan) { forall i :: 0 <= i < |plan| ==> plan[i] }

  /** How often rendering a node flushes. */
  function Flushes(node: VNode): nat
    decreases node, 1
  {
    match node
    case Text(_) => 1
    case Element(e) =>
      if e.tag == "text" then (if CONTENT in e.props then 1 else 0) else FlushesAll(e.children)
  }

  function FlushesAll(nodes: seq<VNode>): nat
    decreases nodes, 0
  {
    if nodes == [] then 0 else Flushes(nodes[0]) + FlushesAll(nodes[1..])
  }

  // ----- applying patches -------------------------------------------------------------------------

  function Failure(ok: bool): Option<RenderError> { if ok then None else Some(Io) }

  /** A child index is cut to 32 bits on its way to `remove_child`. */
  function Index32(index: nat): nat { index % 0x1_0000_0000 }

  /** One patch; every patch works on the root. */
  function ApplyPatch(patch: Patch, root: VNode, plan: Plan): Outcome {
    match patch
    case Replace(node) =>
      var (ok, rest) := Flush(plan, Flushes(node));
      Outcome(node, rest, Failure(ok))
    case UpdateProps(props) =>
      if root.Text? then Outcome(root, plan, Some(TextNode))
      else
        var (ok, rest) := Flush(plan, 1);
        Outcome(Element(root.elem.(props := root.elem.props + props)), rest, Failure(ok))
    case AppendChild(child) =>
      var (ok, rest) := Flush(plan, Flushes(child));
      if !ok then Outcome(root, rest, Some(Io))
      else if root.Text? then Outcome(root, rest, Some(TextNode))
      else Outcome(Element(root.elem.(children := root.elem.children + [child])), rest, None)
    case RemoveChild(index) =>
      if root.Text? then Outcome(root, plan, Some(TextNode))
      else if Index32(index) >= |root.elem.children| then Outcome(root, plan, Some(OutOfBounds))
      else
        var k := Index32(index);
        var shrunk := Element(root.elem.(children := root.elem.children[..k] + root.elem.children[k + 1..]));
        var (ok, rest) := Flush(plan, 1 + Flushes(shrunk));
        Outcome(shrunk, rest, Failure(ok))
    case UpdateText(text) =>
      var (ok, rest) := Flush(plan, 2);
      if !ok then Outcome(root, rest, Some(Io))
      else if root.Text? then Outcome(root, rest, Some(TextNode))
      else Outcome(Element(root.elem.(props := root.elem.props[CONTENT := text])), rest, None)
    case NoPatch => Outcome(root, plan, None)
  }

  /** Patches in order, given up at the first error; what was done stays done. */
  function ApplyAll(patches: seq<Patch>, root: VNode, plan: Plan): Outcome
    decreases |patches|
  {
    if patches == [] then Outcome(root, plan, None)
    else
      var o := ApplyPatch(patches[0], root, plan);
      if o.error.Some? then o else ApplyAll(patches[1..], o.root, o.plan)
  }

  lemma {:induction false} FlushSplit(plan: Plan, m: nat, n: nat)
    ensures var (ok, rest) := Flush(plan, m);
            Flush(plan, m + n) == if ok then Flush(rest, n) else (false, rest)
    decreases m
  {
    if m > 0 && plan != [] && plan[0] {
      FlushSplit(plan[1..], m - 1, n);
    } else if m > 0 && plan == [] {
      FlushSplit([], m - 1, n);
    }
  }

  /** A text and a content are flushed once each, anything else is flushed as its children are. */
  lemma FlushCounts(text: string, e: VElement)
    ensures Flushes(Text(text)) == 1
    ensures e.tag == "text" ==> Flushes(Element(e)) == if "content" in e.props then 1 else 0
    ensures e.tag != "text" ==> Flushes(Element(e)) == FlushesAll(e.children)
    ensures FlushesAll([]) == 0
  {
  }

  lemma {:induction false} FlushesSplit(a: seq<VNode>, b: seq<VNode>)
    ensures FlushesAll(a + b) == FlushesAll(a) + FlushesAll(b)
    ensures forall node :: FlushesAll([node]) == Flushes(node)
    decreases |a|
  {
    forall node ensures FlushesAll([node]) == Flushes(node) {
      assert [node][1..] == [];
    }
    if a == [] {
      assert a + b == b;
    } else {
      assert (a + b)[1..] == a[1..] + b;
      FlushesSplit(a[1..], b);
    }
  }

  lemma {:induction false} FlushFaultless(plan: Plan, n: nat)
    requires Faultless(plan)
    ensures Flush(plan, n).0 && Faultless(Flush(plan, n).1)
    decreases n
  {
    if n > 0 && plan != [] {
      assert Faultless(plan[1..]);
      FlushFaultless(plan[1..], n - 1);
    }
  }

  lemma {:induction false} ApplySplit(a: seq<Patch>, b: seq<Patch>, root: VNode, plan: Plan)
    ensures var o := ApplyAll(a, root, plan);
            ApplyAll(a + b, root, plan) == if o.error.Some? then o else ApplyAll(b, o.root, o.plan)
    decreases |a|
  {
    if a == [] {
      assert a + b == b;
    } else {
      assert (a + b)[1..] == a[1..] + b;
      var o := ApplyPatch(a[0], root, plan);
      ApplySplit(a[1..], b, o.root, o.plan);
    }
  }

  // ----- what applying a diff comes to ----------------------------------------------------------

  /** `patches` bring `root` to `target`; only a failing flush can stop them. */
  ghost predicate Brings(patches: seq<Patch>, root: VNode, target: VNode) {
    forall plan :: var o := ApplyAll(patches, root, plan);
      && (o.error == None || o.error == Some(Io))
      && (o.error == None ==> o.root == target)
      && (Faultless(plan) ==> o.error == None && Faultless(o.plan))
  }

  lemma BringsThen(a: seq<Patch>, b: seq<Patch>, root: VNode, mid: VNode, target: VNode)
    requires Brings(a, root, mid) && Brings(b, mid, target)
    ensures Brings(a + b, root, target)
  {
    forall plan ensures
      var o := ApplyAll(a + b, root, plan);
      && (o.error == None || o.error == Some(Io))
      && (o.error == None ==> o.root == target)
      && (Faultless(plan) ==> o.error == None && Faultless(o.plan))
    {
      ApplySplit(a, b, root, plan);
      var o := ApplyAll(a, root, plan);
      if o.error == None {
        assert o.root == mid;
        var p := ApplyAll(b, mid, o.plan);
      }
    }
  }

  lemma BringsOne(patch: Patch, root: VNode, target: VNode)
    requires forall plan :: var o := ApplyPatch(patch, root, plan);
      && (o.error == None || o.error == Some(Io))
      && (o.error == None ==> o.root == target)
      && (Faultless(plan) ==> o.error == None && Faultless(o.plan))
    ensures Brings([patch], root, target)
  {
    forall plan ensures
      var o := ApplyAll([patch], root, plan);
      && (o.error == None || o.error == Some(Io))
      && (o.error == None ==> o.root == target)
      && (Faultless(plan) ==> o.error == None && Faultless(o.plan))
    {
      var o := ApplyPatch(patch, root, plan);
      assert [patch][1..] == [];
      assert ApplyAll([patch], root, plan) == if o.error.Some? then o else ApplyAll([], o.root, o.plan);
    }
  }

  lemma BringsNothing(root: VNode)
    ensures Brings([], root, root)
  {
  }

  lemma ReplaceBrings(node: VNode, root: VNode)
    ensures Brings([Replace(node)], root, node)
  {
    forall plan ensures Faultless(plan) ==> Flush(plan, Flushes(node)).0 && Faultless(Flush(plan, Flushes(node)).1) {
      if Faultless(plan) {
        FlushFaultless(plan, Flushes(node));
      }
    }
    BringsOne(Replace(node), root, node);
  }

  function WithProps(e: VElement, props: Attrs): VNode { Element(e.(props := props)) }

  lemma UpdatePropsBrings(props: Attrs, e: VElement)
    ensures Brings([UpdateProps(props)], Element(e), WithProps(e, e.props + props))
  {
    forall plan ensures Faultless(plan) ==> Flush(plan, 1).0 && Faultless(Flush(plan, 1).1) {
      if Faultless(plan) {
        FlushFaultless(plan, 1);
      }
    }
    BringsOne(UpdateProps(props), Element(e), WithProps(e, e.props + props));
  }

  lemma UpdateTextBrings(text: string, e: VElement)
    ensures Brings([UpdateText(text)], Element(e), WithProps(e, e.props[CONTENT := text]))
  {
    forall plan ensures Faultless(plan) ==> Flush(plan, 2).0 && Faultless(Flush(plan, 2).1) {
      if Faultless(plan) {
        FlushFaultless(plan, 2);
      }
    }
    BringsOne(UpdateText(text), Element(e), WithProps(e, e.props[CONTENT := text]));
  }

  function WithChildren(e: VElement, children: seq<VNode>): VNode { Element(e.(children := children)) }

  lemma AppendBrings(child: VNode, e: VElement)
    ensures Brings([AppendChild(child)], Element(e), WithChildren(e, e.children + [child]))
  {
    forall plan ensures Faultless(plan) ==> Flush(plan, Flushes(child)).0 && Faultless(Flush(plan, Flushes(child)).1) {
      if Faultless(plan) {
        FlushFaultless(plan, Flushes(child));
      }
    }
    BringsOne(AppendChild(child), Element(e), WithChildren(e, e.children + [child]));
  }

  lemma {:induction false} AppendsBring(news: seq<VNode>, e: VElement)
    ensures Brings(Appends(news), Element(e), WithChildren(e, e.children + news))
    decreases |news|
  {
    if news == [] {
      assert e.children + news == e.children;
      BringsNothing(Element(e));
    } else {
      var more := e.(children := e.children + [news[0]]);
      AppendBrings(news[0], e);
      AppendsBring(news[1..], more);
      assert e.children + [news[0]] + news[1..] == e.children + news;
      assert Appends(news) == [AppendChild(news[0])] + Appends(news[1..]);
      BringsThen([AppendChild(news[0])], Appends(news[1..]), Element(e), Element(more), WithChildren(e, e.children + news));
    }
  }

  lemma RemoveLastBrings(e: VElement)
    requires 0 < |e.children| <= 0x1_0000_0000
    ensures var n := |e.children| - 1;
            Brings([RemoveChild(n)], Element(e), WithChildren(e, e.children[..n]))
  {
    var n := |e.children| - 1;
    var shrunk := WithChildren(e, e.children[..n]);
    assert e.children[..n] + e.children[n + 1..] == e.children[..n];
    forall plan ensures Faultless(plan) ==>
      Flush(plan, 1 + Flushes(shrunk)).0 && Faultless(Flush(plan, 1 + Flushes(shrunk)).1)
    {
      if Faultless(plan) {
        FlushFaultless(plan, 1 + Flushes(shrunk));
      }
    }
    BringsOne(RemoveChild(n), Element(e), shrunk);
  }

  /** Removals from right to left stay in bounds and cut the tail off. */
  lemma {:induction false} RemovalsBring(from: nat, e: VElement)
    requires |e.children| <= 0x1_0000_0000
    ensures Brings(Removals(from, |e.children|), Element(e),
                   WithChildren(e, if from < |e.children| then e.children[..from] else e.children))
    decreases |e.children|
  {
    if from >= |e.children| {
      BringsNothing(Element(e));
    } else {
      var n := |e.children| - 1;
      var fewer := e.(children := e.children[..n]);
      RemoveLastBrings(e);
      RemovalsBring(from, fewer);
      assert (if from < n then e.children[..n][..from] else e.children[..n]) == e.children[..from];
      assert Removals(from, n + 1) == [RemoveChild(n)] + Removals(from, n);
      BringsThen([RemoveChild(n)], Removals(from, n), Element(e), Element(fewer), WithChildren(e, e.children[..from]));
    }
  }

  // ----- patches that only touch the props --------------------------------------------------------

  predicate PropOnly(p: Patch) { p.UpdateProps? || p.UpdateText? || p.NoPatch? }

  ghost predicate PropsOnly(patches: seq<Patch>) { forall i :: 0 <= i < |patches| ==> PropOnly(patches[i]) }

  /** Nodes of the same shape differ only by prop and text patches. */
  lemma {:induction false} SameShapeDiff(a: VNode, b: VNode)
    requires SameShape(a, b)
    ensures PropsOnly(Diff(a, b))
    decreases a, 1
  {
    if a != b {
      DiffComplete(a, b);
      if a.Element? {
        SameShapeOverlap(a.elem.children, b.elem.children);
        assert Shorter(a.elem.children, b.elem.children) == |b.elem.children|;
        assert Appends(b.elem.children[|b.elem.children|..]) == [];
      }
    }
  }

  lemma {:induction false} SameShapeOverlap(a: seq<VNode>, b: seq<VNode>)
    requires SameShapes(a, b)
    ensures PropsOnly(DiffOverlap(a, b))
    decreases a, 0
  {
    if a != [] && b != [] {
      SameShapeDiff(a[0], b[0]);
      SameShapeOverlap(a[1..], b[1..]);
    }
  }

  function PropStep(p: Patch, props: Attrs): Attrs {
    if p.UpdateProps? then props + p.props
    else if p.UpdateText? then props[CONTENT := p.text]
    else props
  }

  /** The props after a list of such patches. */
  function PropsAfter(patches: seq<Patch>, props: Attrs): Attrs
    decreases |patches|
  {
    if patches == [] then props else PropsAfter(patches[1..], PropStep(patches[0], props))
  }

  lemma PropStepBrings(p: Patch, e: VElement)
    requires PropOnly(p)
    ensures Brings([p], Element(e), WithProps(e, PropStep(p, e.props)))
  {
    match p {
      case UpdateProps(props) => UpdatePropsBrings(props, e);
      case UpdateText(text) => UpdateTextBrings(text, e);
      case NoPatch => BringsOne(NoPatch, Element(e), Element(e));
    }
  }

  lemma {:induction false} PropsOnlyBring(patches: seq<Patch>, e: VElement)
    requires PropsOnly(patches)
    ensures Brings(patches, Element(e), WithProps(e, PropsAfter(patches, e.props)))
    decreases |patches|
  {
    if patches == [] {
      BringsNothing(Element(e));
    } else {
      var (p, rest) := (patches[0], patches[1..]);
      var mid := e.(props := PropStep(p, e.props));
      var target := WithProps(e, PropsAfter(patches, e.props));
      PropStepBrings(p, e);
      PropsOnlyBring(rest, mid);
      assert WithProps(mid, PropsAfter(rest, mid.props)) == target;
      assert patches == [p] + rest;
      BringsThen([p], rest, Element(e), Element(mid), target);
    }
  }

  /** The props patches of the element itself. */
  function OwnPatches(a: VElement, b: VElement): seq<Patch> {
    PropPatch(a.props, b.props) + PropPatch(a.styles, b.styles)
  }

  function DiffedProps(a: VElement, b: VElement): Attrs {
    PropsAfter(OwnPatches(a, b) + DiffOverlap(a.children, b.children), a.props)
  }

  function DiffedChildren(a: seq<VNode>, b: seq<VNode>): seq<VNode> {
    a[..Shorter(a, b)] + b[Shorter(a, b)..]
  }

  lemma TailsBring(e: VElement, b: seq<VNode>)
    requires |e.children| <= 0x1_0000_0000
    ensures Brings(Appends(b[Shorter(e.children, b)..]) + Removals(|b|, |e.children|), Element(e),
                   WithChildren(e, DiffedChildren(e.children, b)))
  {
    var m := Shorter(e.children, b);
    var appends, removals := Appends(b[m..]), Removals(|b|, |e.children|);
    if |e.children| <= |b| {
      AppendsBring(b[m..], e);
      assert removals == [] && appends + removals == appends;
      assert e.children[..m] == e.children;
    } else {
      RemovalsBring(|b|, e);
      assert appends == [] && appends + removals == removals;
      assert DiffedChildren(e.children, b) == e.children[..m];
    }
  }

  /** The patches that touch the root's props: its own and those of its children. */
  function PropPatches(a: VElement, b: VElement): seq<Patch> {
    OwnPatches(a, b) + DiffOverlap(a.children, b.children)
  }

  function TailPatches(a: seq<VNode>, b: seq<VNode>): seq<Patch> {
    Appends(b[Shorter(a, b)..]) + Removals(|b|, |a|)
  }

  lemma DiffParts(a: VElement, b: VElement)
    requires a.tag == b.tag && a != b
    ensures Diff(Element(a), Element(b)) == PropPatches(a, b) + TailPatches(a.children, b.children)
  {
    DiffComplete(Element(a), Element(b));
    var overlap, tails := DiffOverlap(a.children, b.children), TailPatches(a.children, b.children);
    assert RawDiff(Element(a), Element(b)) == OwnPatches(a, b) + (overlap + tails);
    assert OwnPatches(a, b) + (overlap + tails) == OwnPatches(a, b) + overlap + tails;
  }

  lemma PropPatchesOnly(a: VElement, b: VElement)
    requires SameShapes(a.children, b.children)
    ensures PropsOnly(PropPatches(a, b))
  {
    SameShapeOverlap(a.children, b.children);
  }

  /** Where the diff of same-tag elements leads: the styles stay, the tail of the children is exchanged,
      and prop changes of every depth land on the element's own props. */
  function Applied(a: VElement, b: VElement): VElement {
    VElement(a.tag, DiffedProps(a, b), a.styles, DiffedChildren(a.children, b.children))
  }

  /** Where the diff of two elements leads when their overlapping children have the same shapes. */
  lemma DiffBrings(a: VElement, b: VElement)
    requires a.tag == b.tag && SameShapes(a.children, b.children) && |a.children| <= 0x1_0000_0000
    requires a != b
    ensures Brings(Diff(Element(a), Element(b)), Element(a), Element(Applied(a, b)))
  {
    var props, tails := PropPatches(a, b), TailPatches(a.children, b.children);
    var e1 := a.(props := DiffedProps(a, b));
    PropPatchesOnly(a, b);
    PropsOnlyBring(props, a);
    TailsBring(e1, b.children);
    DiffParts(a, b);
    BringsThen(props, tails, Element(a), Element(e1), WithChildren(e1, DiffedChildren(a.children, b.children)));
  }

  lemma PropsAfterOwn(a: VElement, b: VElement)
    ensures PropsAfter(OwnPatches(a, b), a.props) == a.props + PropChanges(a.props, b.props) + PropChanges(a.styles, b.styles)
  {
    var p, q := PropPatch(a.props, b.props), PropPatch(a.styles, b.styles);
    var d, f := PropChanges(a.props, b.props), PropChanges(a.styles, b.styles);
    assert a.props + map[] == a.props && a.props + d + map[] == a.props + d;
    assert p == [] ==> p + q == q;
    assert q == [] ==> p + q == p;
    assert PropsAfter([UpdateProps(f)], a.props + d) == a.props + d + f by { assert [UpdateProps(f)][1..] == []; }
    assert PropsAfter([UpdateProps(d)], a.props) == a.props + d by { assert [UpdateProps(d)][1..] == []; }
    assert p != [] ==> (p + q)[1..] == q;
  }

  /** The prop diff carries one map over to another exactly when it removes no key. */
  lemma OverlayExactly(a: Attrs, b: Attrs)
    ensures a + PropChanges(a, b) == b <==> a.Keys <= b.Keys
  {
    PropChangesExact(a, b);
    var r := a + PropChanges(a, b);
    assert r.Keys == a.Keys + b.Keys;
    forall key | key in b ensures r[key] == b[key] {
      assert key in PropChanges(a, b) || (key in a && a[key] == b[key]);
    }
  }

  predicate OverlapEqual(a: seq<VNode>, b: seq<VNode>) {
    a[..Shorter(a, b)] == b[..Shorter(a, b)]
  }

  /** Equal overlapping children add nothing to the diff. */
  lemma EqualOverlapProps(a: VElement, b: VElement)
    requires OverlapEqual(a.children, b.children)
    ensures DiffedProps(a, b) == a.props + PropChanges(a.props, b.props) + PropChanges(a.styles, b.styles)
  {
    var m := Shorter(a.children, b.children);
    assert forall i :: 0 <= i < m ==> a.children[..m][i] == a.children[i] && b.children[..m][i] == b.children[i];
    OverlapComplete(a.children, b.children);
    assert OwnPatches(a, b) + [] == OwnPatches(a, b);
    PropsAfterOwn(a, b);
  }

  lemma DiffedChildrenExactly(a: seq<VNode>, b: seq<VNode>)
    ensures DiffedChildren(a, b) == b <==> OverlapEqual(a, b)
  {
    var m := Shorter(a, b);
    assert b == b[..m] + b[m..];
    assert DiffedChildren(a, b)[..m] == a[..m];
  }

  lemma AppliedExactly(a: VElement, b: VElement)
    requires a.tag == b.tag
    ensures Applied(a, b) == b
       <==> OverlapEqual(a.children, b.children) && a.styles == b.styles && a.props.Keys <= b.props.Keys
  {
    DiffedChildrenExactly(a.children, b.children);
    if OverlapEqual(a.children, b.children) && a.styles == b.styles {
      EqualOverlapProps(a, b);
      PropChangesExact(a.styles, b.styles);
      OverlayExactly(a.props, b.props);
      assert a.props + PropChanges(a.props, b.props) + map[] == a.props + PropChanges(a.props, b.props);
    }
  }
}
