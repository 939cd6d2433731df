/**
 When applying a diff brings the new tree (src/virtual_dom/diff.rs, src/virtual_dom/renderer.rs).  A
 patch for a nested node carries no path and works on the root.  What comes of that is settled by
 counting: a nested replacement leaves too few large children, and nested appends and removals that
 do not balance leave too few or too many.
 */
module DiffLaws {
  import opened Basics
  import opened VirtualDom
  import opened TreeDiff
  import opened Patching

  // ----- sizes ------------------------------------------------------------------------------------

  /** The number of nodes. */
  function Size(node: VNode): nat
    decreases node, 1
  {
    match node
    case Text(_) => 1
    case Element(e) => 1 + SizeAll(e.children)
  }

  function SizeAll(nodes: seq<VNode>): nat
    decreases nodes, 0
  {
    if nodes == [] then 0 else Size(nodes[0]) + SizeAll(nodes[1..])
  }

  lemma {:induction false} PartSize(nodes: seq<VNode>, i: nat)
    requires i < |nodes|
    ensures Size(nodes[i]) <= SizeAll(nodes)
  {
    if i > 0 {
      PartSize(nodes[1..], i - 1);
    }
  }

  function Kids(root: VNode): seq<VNode> { if root.Text? then [] else root.elem.children }

  /** How many nodes have at least `m` nodes below and including them. */
  function Big(nodes: seq<VNode>, m: nat): nat {
    if nodes == [] then 0 else (if Size(nodes[0]) >= m then 1 else 0) + Big(nodes[1..], m)
  }

  lemma {:induction false} BigSplit(a: seq<VNode>, b: seq<VNode>, m: nat)
    ensures Big(a + b, m) == Big(a, m) + Big(b, m)
  {
    if a == [] {
      assert a + b == b;
    } else {
      assert (a + b)[1..] == a[1..] + b;
      BigSplit(a[1..], b, m);
    }
  }

  lemma {:induction false} NoneBig(nodes: seq<VNode>, m: nat)
    requires forall i :: 0 <= i < |nodes| ==> Size(nodes[i]) < m
    ensures Big(nodes, m) == 0
  {
    if nodes != [] {
      NoneBig(nodes[1..], m);
    }
  }

  lemma {:induction false} SomeBig(nodes: seq<VNode>, i: nat, m: nat)
    requires i < |nodes| && Size(nodes[i]) >= m
    ensures Big(nodes, m) > 0
  {
    if i > 0 {
      SomeBig(nodes[1..], i - 1, m);
    }
  }

  /** The kids of a node are smaller than the node. */
  lemma KidsSmaller(node: VNode)
    ensures Big(Kids(node), Size(node)) == 0
    ensures forall i :: 0 <= i < |Kids(node)| ==> Size(Kids(node)[i]) < Size(node)
  {
    forall i | 0 <= i < |Kids(node)| ensures Size(Kids(node)[i]) < Size(node) {
      PartSize(Kids(node), i);
    }
    NoneBig(Kids(node), Size(node));
  }

  lemma {:induction false} BigMonotone(nodes: seq<VNode>, m: nat, n: nat)
    requires m <= n
    ensures Big(nodes, n) <= Big(nodes, m)
  {
    if nodes != [] {
      BigMonotone(nodes[1..], m, n);
    }
  }

  function Largest(nodes: seq<VNode>): nat {
    if nodes == [] then 0
    else
      var rest := Largest(nodes[1..]);
      if Size(nodes[0]) > rest then Size(nodes[0]) else rest
  }

  lemma {:induction false} LargestBounds(nodes: seq<VNode>)
    ensures forall i :: 0 <= i < |nodes| ==> Size(nodes[i]) <= Largest(nodes)
    ensures nodes != [] ==> Big(nodes, Largest(nodes)) > 0
  {
    if nodes != [] {
      LargestBounds(nodes[1..]);
      assert Size(nodes[0]) > 0;
    }
  }

  // ----- what nested patches bring ------------------------------------------------------------------

  /** A patch brings no node larger than `m` to the root, and appends only smaller ones. */
  predicate Fits(p: Patch, m: nat) {
    && (p.Replace? ==> Size(p.node) <= m)
    && (p.AppendChild? ==> Size(p.child) < m)
  }

  ghost predicate AllFit(patches: seq<Patch>, m: nat) { forall i :: 0 <= i < |patches| ==> Fits(patches[i], m) }

  ghost predicate HasReplace(patches: seq<Patch>) { exists i :: 0 <= i < |patches| && patches[i].Replace? }

  lemma ReplaceSplit(a: seq<Patch>, b: seq<Patch>)
    ensures HasReplace(a + b) <==> HasReplace(a) || HasReplace(b)
  {
    if HasReplace(a) {
      var i :| 0 <= i < |a| && a[i].Replace?;
      assert (a + b)[i].Replace?;
    }
    if HasReplace(b) {
      var i :| 0 <= i < |b| && b[i].Replace?;
      assert (a + b)[|a| + i].Replace?;
    }
  }

  lemma TailsFit(a: seq<VNode>, b: seq<VNode>, m: nat)
    requires forall i :: 0 <= i < |b| ==> Size(b[i]) < m
    ensures AllFit(TailPatches(a, b), m)
  {
  }

  /** The patches between two nodes bring nothing larger than the new node. */
  lemma {:induction false} DiffFits(a: VNode, b: VNode)
    ensures AllFit(Diff(a, b), Size(b))
    decreases a, 1
  {
    if a.Element? && b.Element? && a.elem.tag == b.elem.tag && a != b {
      var (x, y) := (a.elem, b.elem);
      KidsSmaller(b);
      OverlapFits(x.children, y.children, Size(b));
      TailsFit(x.children, y.children, Size(b));
      DiffParts(x, y);
    } else if a.Text? && b.Text? && a != b {
      assert Diff(a, b) == [UpdateText(b.content)];
    } else if a != b {
      assert Diff(a, b) == [Replace(b)];
    }
  }

  lemma {:induction false} OverlapFits(olds: seq<VNode>, news: seq<VNode>, m: nat)
    requires forall i :: 0 <= i < |olds| && i < |news| ==> Size(news[i]) <= m
    ensures AllFit(DiffOverlap(olds, news), m)
    decreases olds, 0
  {
    if olds != [] && news != [] {
      DiffFits(olds[0], news[0]);
      OverlapFits(olds[1..], news[1..], m);
    }
  }

  lemma RemovedBig(nodes: seq<VNode>, k: nat, m: nat)
    requires k < |nodes|
    ensures Big(nodes[..k] + nodes[k + 1..], m) <= Big(nodes, m)
  {
    assert nodes == nodes[..k] + ([nodes[k]] + nodes[k + 1..]);
    BigSplit(nodes[..k], [nodes[k]] + nodes[k + 1..], m);
    BigSplit([nodes[k]], nodes[k + 1..], m);
    BigSplit(nodes[..k], nodes[k + 1..], m);
  }

  /** The root's children after a patch. */
  function KidsAfter(p: Patch, kids: seq<VNode>): seq<VNode> {
    match p
    case Replace(node) => Kids(node)
    case AppendChild(child) => kids + [child]
    case RemoveChild(index) =>
      var k := Index32(index); if k < |kids| then kids[..k] + kids[k + 1..] else kids
    case _ => kids
  }

  lemma ApplyKids(p: Patch, root: VNode, plan: Plan)
    requires ApplyPatch(p, root, plan).error == None
    ensures Kids(ApplyPatch(p, root, plan).root) == KidsAfter(p, Kids(root))
  {
  }

  /** A fitting patch gives the root no large child, and a replacement leaves it none. */
  lemma KidsFit(p: Patch, kids: seq<VNode>, m: nat)
    requires Fits(p, m)
    ensures Big(KidsAfter(p, kids), m) <= Big(kids, m) && (p.Replace? ==> Big(KidsAfter(p, kids), m) == 0)
  {
    if p.Replace? {
      KidsSmaller(p.node);
      BigMonotone(Kids(p.node), Size(p.node), m);
    } else if p.AppendChild? {
      BigSplit(kids, [p.child], m);
      assert [p.child][1..] == [];
    } else if p.RemoveChild? && Index32(p.index) < |kids| {
      RemovedBig(kids, Index32(p.index), m);
    }
  }

  lemma {:induction false} ApplyAllFit(patches: seq<Patch>, root: VNode, plan: Plan, m: nat)
    requires AllFit(patches, m) && ApplyAll(patches, root, plan).error == None
    ensures var kids := Kids(ApplyAll(patches, root, plan).root);
            Big(kids, m) <= Big(Kids(root), m) && (HasReplace(patches) ==> Big(kids, m) == 0)
    decreases |patches|
  {
    if patches != [] {
      var o := ApplyPatch(patches[0], root, plan);
      assert AllFit(patches[1..], m);
      ApplyKids(patches[0], root, plan);
      KidsFit(patches[0], Kids(root), m);
      ApplyAllFit(patches[1..], o.root, o.plan, m);
      ReplaceSplit([patches[0]], patches[1..]);
      assert [patches[0]] + patches[1..] == patches;
      assert HasReplace([patches[0]]) ==> patches[0].Replace?;
    }
  }

  lemma {:induction false} AppendsBig(news: seq<VNode>, root: VNode, plan: Plan, m: nat)
    requires ApplyAll(Appends(news), root, plan).error == None
    ensures Big(Kids(ApplyAll(Appends(news), root, plan).root), m) <= Big(Kids(root), m) + Big(news, m)
    decreases |news|
  {
    if news != [] {
      var o := ApplyPatch(AppendChild(news[0]), root, plan);
      assert Appends(news)[0] == AppendChild(news[0]) && Appends(news)[1..] == Appends(news[1..]);
      AppendsBig(news[1..], o.root, o.plan, m);
      BigSplit(Kids(root), [news[0]], m);
      assert [news[0]][1..] == [];
    }
  }

  lemma TailsBig(a: seq<VNode>, b: seq<VNode>, root: VNode, plan: Plan, m: nat)
    requires ApplyAll(TailPatches(a, b), root, plan).error == None
    ensures Big(Kids(ApplyAll(TailPatches(a, b), root, plan).root), m) <= Big(Kids(root), m) + Big(b[Shorter(a, b)..], m)
  {
    var appends, removals := Appends(b[Shorter(a, b)..]), Removals(|b|, |a|);
    ApplySplit(appends, removals, root, plan);
    var o := ApplyAll(appends, root, plan);
    AppendsBig(b[Shorter(a, b)..], root, plan, m);
    ApplyAllFit(removals, o.root, o.plan, m);
  }

  /** A nested replacement, at whatever depth and whatever else changes: the outcome is never the new
      tree.  None of the children it leaves is as large as the largest overlapping one of the new
      tree, and the rest of the diff does not make up for that. */
  lemma ReplaceMisses(a: VElement, b: VElement, plan: Plan)
    requires a.tag == b.tag && HasReplace(DiffOverlap(a.children, b.children))
    ensures var o := ApplyAll(Diff(Element(a), Element(b)), Element(a), plan);
            o.error == None ==> o.root != Element(b)
  {
    var o := ApplyAll(Diff(Element(a), Element(b)), Element(a), plan);
    OverlapDiffers(a, b);
    if o.error == None {
      FewBig(a, b, plan, o, LargestOverlap(a.children, b.children));
      TooFew(o.root, a.children, b);
    }
  }

  /** The size of the largest overlapping child of the new tree. */
  function LargestOverlap(a: seq<VNode>, b: seq<VNode>): nat { Largest(b[..Shorter(a, b)]) }

  lemma TooFew(root: VNode, olds: seq<VNode>, b: VElement)
    requires Shorter(olds, b.children) > 0
    requires Big(Kids(root), LargestOverlap(olds, b.children))
          <= Big(b.children[Shorter(olds, b.children)..], LargestOverlap(olds, b.children))
    ensures root != Element(b)
  {
    var (s, m) := (Shorter(olds, b.children), LargestOverlap(olds, b.children));
    LargestBounds(b.children[..s]);
    BigSplit(b.children[..s], b.children[s..], m);
    assert b.children == b.children[..s] + b.children[s..];
  }

  /** After a nested replacement, no more children are large than the tail of the new tree has. */
  lemma FewBig(a: VElement, b: VElement, plan: Plan, o: Outcome, m: nat)
    requires a.tag == b.tag && a != b && HasReplace(DiffOverlap(a.children, b.children))
    requires m == LargestOverlap(a.children, b.children)
    requires o == ApplyAll(Diff(Element(a), Element(b)), Element(a), plan) && o.error == None
    ensures Big(Kids(o.root), m) <= Big(b.children[Shorter(a.children, b.children)..], m)
  {
    var head, overlap := OwnPatches(a, b), DiffOverlap(a.children, b.children);
    var tails := TailPatches(a.children, b.children);
    DiffParts(a, b);
    InThree(head, overlap, tails, Element(a), plan);
    var o1 := ApplyAll(head, Element(a), plan);
    var o2 := ApplyAll(overlap, o1.root, o1.plan);
    OverlapLargest(a.children, b.children);
    ApplyAllFit(overlap, o1.root, o1.plan, m);
    TailsBig(a.children, b.children, o2.root, o2.plan, m);
  }

  lemma InThree(a: seq<Patch>, b: seq<Patch>, c: seq<Patch>, root: VNode, plan: Plan)
    requires ApplyAll(a + b + c, root, plan).error == None
    ensures var o1 := ApplyAll(a, root, plan);
            var o2 := ApplyAll(b, o1.root, o1.plan);
            && o1.error == None && o2.error == None
            && ApplyAll(a + b + c, root, plan) == ApplyAll(c, o2.root, o2.plan)
  {
    ApplySplit(a + b, c, root, plan);
    ApplySplit(a, b, root, plan);
  }

  lemma OverlapLargest(a: seq<VNode>, b: seq<VNode>)
    ensures AllFit(DiffOverlap(a, b), LargestOverlap(a, b))
  {
    LargestBounds(b[..Shorter(a, b)]);
    OverlapFits(a, b, LargestOverlap(a, b));
  }

  /** A patch between overlapping children means that there are some, and that they differ. */
  lemma OverlapDiffers(a: VElement, b: VElement)
    requires DiffOverlap(a.children, b.children) != []
    ensures Shorter(a.children, b.children) > 0 && a != b && !OverlapEqual(a.children, b.children)
  {
    OverlapComplete(a.children, b.children);
    var s := Shorter(a.children, b.children);
    var i :| 0 <= i < |a.children| && i < |b.children| && a.children[i] != b.children[i];
    assert a.children[..s][i] != b.children[..s][i];
  }

  // ----- without a replacement ------------------------------------------------------------------------

  /** By how much a list of patches changes the number of children. */
  function Growth(patches: seq<Patch>): int {
    if patches == [] then 0
    else (if patches[0].AppendChild? then 1 else if patches[0].RemoveChild? then -1 else 0) + Growth(patches[1..])
  }

  lemma {:induction false} GrowthSplit(a: seq<Patch>, b: seq<Patch>)
    ensures Growth(a + b) == Growth(a) + Growth(b)
  {
    if a == [] {
      assert a + b == b;
    } else {
      assert (a + b)[1..] == a[1..] + b;
      GrowthSplit(a[1..], b);
    }
  }

  lemma {:induction false} GrowthOfAppends(news: seq<VNode>)
    ensures Growth(Appends(news)) == |news|
    decreases |news|
  {
    if news != [] {
      assert Appends(news)[1..] == Appends(news[1..]);
      GrowthOfAppends(news[1..]);
    }
  }

  lemma {:induction false} GrowthOfRemovals(from: nat, end: nat)
    ensures Growth(Removals(from, end)) == -|Removals(from, end)|
    decreases end
  {
    if from < end {
      assert Removals(from, end)[1..] == Removals(from, end - 1);
      GrowthOfRemovals(from, end - 1);
    }
  }

  lemma GrowthOfTails(a: seq<VNode>, b: seq<VNode>)
    ensures Growth(TailPatches(a, b)) == |b| - |a|
  {
    GrowthSplit(Appends(b[Shorter(a, b)..]), Removals(|b|, |a|));
    GrowthOfAppends(b[Shorter(a, b)..]);
    GrowthOfRemovals(|b|, |a|);
  }

  /** Without a replacement the root stays an element of the same tag and styles, the patches add up in
      its props, and its children become as many as were appended and not removed. */
  lemma {:induction false} WithoutReplace(patches: seq<Patch>, e: VElement, plan: Plan)
    requires !HasReplace(patches) && ApplyAll(patches, Element(e), plan).error == None
    ensures var root := ApplyAll(patches, Element(e), plan).root;
            && root.Element? && root.elem.tag == e.tag && root.elem.styles == e.styles
            && root.elem.props == PropsAfter(patches, e.props)
            && |root.elem.children| == |e.children| + Growth(patches)
    decreases |patches|
  {
    if patches != [] {
      var o := ApplyPatch(patches[0], Element(e), plan);
      assert !patches[0].Replace?;
      ReplaceSplit([patches[0]], patches[1..]);
      assert [patches[0]] + patches[1..] == patches;
      WithoutReplace(patches[1..], o.root.elem, o.plan);
    }
  }

  lemma {:induction false} PropsAfterKeys(patches: seq<Patch>, props: Attrs)
    ensures props.Keys <= PropsAfter(patches, props).Keys
    decreases |patches|
  {
    if patches != [] {
      PropsAfterKeys(patches[1..], PropStep(patches[0], props));
    }
  }

  lemma {:induction false} PropsAfterTails(patches: seq<Patch>, tails: seq<Patch>, props: Attrs)
    requires forall i :: 0 <= i < |tails| ==> tails[i].AppendChild? || tails[i].RemoveChild?
    ensures PropsAfter(patches + tails, props) == PropsAfter(patches, props)
    decreases |patches| + |tails|
  {
    if patches != [] {
      assert (patches + tails)[1..] == patches[1..] + tails;
      PropsAfterTails(patches[1..], tails, PropStep(patches[0], props));
    } else if tails != [] {
      assert patches + tails == tails && [] + tails[1..] == tails[1..];
      PropsAfterTails([], tails[1..], props);
    } else {
      assert patches + tails == [];
    }
  }

  lemma OwnPlain(a: VElement, b: VElement)
    ensures !HasReplace(OwnPatches(a, b)) && Growth(OwnPatches(a, b)) == 0
  {
    GrowthSplit(PropPatch(a.props, b.props), PropPatch(a.styles, b.styles));
    ReplaceSplit(PropPatch(a.props, b.props), PropPatch(a.styles, b.styles));
  }

  lemma TailsPlain(a: seq<VNode>, b: seq<VNode>)
    ensures !HasReplace(TailPatches(a, b)) && Growth(TailPatches(a, b)) == |b| - |a|
  {
    GrowthOfTails(a, b);
    ReplaceSplit(Appends(b[Shorter(a, b)..]), Removals(|b|, |a|));
  }

  lemma Around(own: seq<Patch>, overlap: seq<Patch>, tails: seq<Patch>)
    requires !HasReplace(own) && !HasReplace(overlap) && !HasReplace(tails) && Growth(own) == 0
    ensures !HasReplace(own + overlap + tails) && Growth(own + overlap + tails) == Growth(overlap) + Growth(tails)
  {
    ReplaceSplit(own + overlap, tails);
    ReplaceSplit(own, overlap);
    GrowthSplit(own + overlap, tails);
    GrowthSplit(own, overlap);
  }

  lemma NoReplaceAround(a: VElement, b: VElement)
    requires !HasReplace(DiffOverlap(a.children, b.children))
    ensures !HasReplace(PropPatches(a, b) + TailPatches(a.children, b.children))
    ensures Growth(PropPatches(a, b) + TailPatches(a.children, b.children))
         == |b.children| - |a.children| + Growth(DiffOverlap(a.children, b.children))
  {
    OwnPlain(a, b);
    TailsPlain(a.children, b.children);
    Around(OwnPatches(a, b), DiffOverlap(a.children, b.children), TailPatches(a.children, b.children));
  }

  /** What every success needs, for all trees of one tag and every plan: no nested replacement, nested
      appends and removals in balance, the styles equal, no prop removed, and no nested prop change
      that shows in the root's props. */
  lemma SuccessNeeds(a: VElement, b: VElement, plan: Plan)
    requires a.tag == b.tag
    requires var o := ApplyAll(Diff(Element(a), Element(b)), Element(a), plan); o.error == None && o.root == Element(b)
    ensures !HasReplace(DiffOverlap(a.children, b.children)) && Growth(DiffOverlap(a.children, b.children)) == 0
    ensures a.styles == b.styles && a.props.Keys <= b.props.Keys && DiffedProps(a, b) == b.props
  {
    var overlap, tails := DiffOverlap(a.children, b.children), TailPatches(a.children, b.children);
    if HasReplace(overlap) {
      ReplaceMisses(a, b, plan);
    } else if a != b {
      DiffParts(a, b);
      NoReplaceAround(a, b);
      WithoutReplace(PropPatches(a, b) + tails, a, plan);
      PropsAfterTails(PropPatches(a, b), tails, a.props);
      PropsAfterKeys(PropPatches(a, b), a.props);
    } else {
      OverlapComplete(a.children, b.children);
      EqualOverlapProps(a, b);
      PropChangesExact(a.props, b.props);
      PropChangesExact(a.styles, b.styles);
      assert a.props + map[] + map[] == a.props;
    }
  }

  // ----- the law ----------------------------------------------------------------------------------------

  /** `patches` never bring `root` to `target`. */
  ghost predicate Misses(patches: seq<Patch>, root: VNode, target: VNode) {
    forall plan :: var o := ApplyAll(patches, root, plan); o.error == None ==> o.root != target
  }

  /** Overlapping children and styles are equal already, and no prop is removed. */
  predicate Agreeable(a: VElement, b: VElement) {
    OverlapEqual(a.children, b.children) && a.styles == b.styles && a.props.Keys <= b.props.Keys
  }

  /** Nested appends and removals balance, with no nested replacement beside them and some node whose
      shape changes: all that the law leaves open. */
  ghost predicate Balanced(a: VElement, b: VElement) {
    && !SameShapes(a.children, b.children)
    && !HasReplace(DiffOverlap(a.children, b.children)) && Growth(DiffOverlap(a.children, b.children)) == 0
  }

  /** The law of applying a diff to an element of the same tag.  When it is agreeable, the patches bring
      the new tree, and only a failing flush can stop them; otherwise they never do, unless nested
      changes of shape happen to balance.  Where the overlapping children have the same shapes, the
      outcome is `Applied`. */
  lemma ApplyDiffLaw(a: VElement, b: VElement)
    requires a.tag == b.tag && |a.children| <= 0x1_0000_0000
    ensures Agreeable(a, b) ==> Brings(Diff(Element(a), Element(b)), Element(a), Element(b))
    ensures !Agreeable(a, b) ==> Misses(Diff(Element(a), Element(b)), Element(a), Element(b)) || Balanced(a, b)
    ensures SameShapes(a.children, b.children) ==>
      Brings(Diff(Element(a), Element(b)), Element(a), Element(Applied(a, b)))
  {
    if Agreeable(a, b) {
      assert forall i :: 0 <= i < Shorter(a.children, b.children) ==>
        a.children[i] == a.children[..Shorter(a.children, b.children)][i]
        && b.children[i] == b.children[..Shorter(a.children, b.children)][i];
      EqualOverlap(a.children, b.children);
    }
    AppliedExactly(a, b);
    if SameShapes(a.children, b.children) {
      SameShapesBring(a, b);
      if !Agreeable(a, b) {
        BringsElsewhere(Diff(Element(a), Element(b)), Element(a), Element(Applied(a, b)), Element(b));
      }
    } else if !Balanced(a, b) {
      forall plan ensures var o := ApplyAll(Diff(Element(a), Element(b)), Element(a), plan);
        o.error == None ==> o.root != Element(b)
      {
        var o := ApplyAll(Diff(Element(a), Element(b)), Element(a), plan);
        if o.error == None && o.root == Element(b) {
          SuccessNeeds(a, b, plan);
        }
      }
    }
  }

  /** So on all but balanced changes of shape, applying the diff works if and only if it is agreeable. */
  lemma ApplyDiffExactly(a: VElement, b: VElement)
    requires a.tag == b.tag && |a.children| <= 0x1_0000_0000 && !Balanced(a, b)
    ensures Brings(Diff(Element(a), Element(b)), Element(a), Element(b)) <==> Agreeable(a, b)
  {
    ApplyDiffLaw(a, b);
    if Misses(Diff(Element(a), Element(b)), Element(a), Element(b)) {
      assert Faultless([]);
      assert ApplyAll(Diff(Element(a), Element(b)), Element(a), []).error == None ==>
          ApplyAll(Diff(Element(a), Element(b)), Element(a), []).root != Element(b);
    }
  }

  lemma SameShapesBring(a: VElement, b: VElement)
    requires a.tag == b.tag && SameShapes(a.children, b.children) && |a.children| <= 0x1_0000_0000
    ensures Brings(Diff(Element(a), Element(b)), Element(a), Element(Applied(a, b)))
  {
    if a == b {
      AppliedExactly(a, b);
      BringsOne(NoPatch, Element(a), Element(a));
    } else {
      DiffBrings(a, b);
    }
  }

  lemma BringsElsewhere(patches: seq<Patch>, root: VNode, target: VNode, other: VNode)
    requires Brings(patches, root, target) && target != other
    ensures Misses(patches, root, other)
  {
  }

  /** A node of another kind or tag always replaces the root, whatever comes of the flush. */
  lemma ReplaceLaw(a: VNode, b: VNode, plan: Plan)
    requires a.Text? != b.Text? || (a.Element? && b.Element? && a.elem.tag != b.elem.tag)
    ensures ApplyAll(Diff(a, b), a, plan).root == b && Brings(Diff(a, b), a, b)
  {
    assert Diff(a, b) == [Replace(b)] && [Replace(b)][1..] == [];
    ReplaceBrings(b, a);
  }

  /** Two texts differ by one patch; on an element it sets the content to the new text. */
  lemma TextBrings(a: string, b: string, e: VElement)
    requires a != b
    ensures |Diff(Text(a), Text(b))| == 1
    ensures Brings(Diff(Text(a), Text(b)), Element(e), WithProps(e, e.props["content" := b]))
  {
    assert Diff(Text(a), Text(b)) == [UpdateText(b)];
    UpdateTextBrings(b, e);
  }

  lemma {:induction false} OverlapOfOne(olds: seq<VNode>, i: nat, node: VNode)
    requires i < |olds| && olds[i] != node
    ensures DiffOverlap(olds, olds[i := node]) == Diff(olds[i], node)
    decreases |olds|
  {
    var news := olds[i := node];
    if i == 0 {
      assert news[1..] == olds[1..];
      OverlapComplete(olds[1..], news[1..]);
      assert Diff(olds[0], node) + [] == Diff(olds[0], node);
    } else {
      assert news[1..] == olds[1..][i - 1 := node] && news[0] == olds[0];
      OverlapOfOne(olds[1..], i - 1, node);
    }
  }

  /** A text that changes below an element lands in the element's own content: the child keeps its old
      text. */
  lemma NestedText(a: VElement, i: nat, text: string)
    requires i < |a.children| && a.children[i].Text? && a.children[i] != Text(text)
    ensures var b := a.(children := a.children[i := Text(text)]);
            Brings(Diff(Element(a), Element(b)), Element(a), WithProps(a, a.props["content" := text]))
  {
    var b := a.(children := a.children[i := Text(text)]);
    var (before, overlap) := (a.children[i].content, DiffOverlap(a.children, b.children));
    assert b.children[i] == Text(text);
    PropChangesExact(a.props, b.props);
    PropChangesExact(a.styles, b.styles);
    OverlapOfOne(a.children, i, Text(text));
    DiffParts(a, b);
    assert TailPatches(a.children, b.children) == [];
    assert [] + [] + overlap + [] == overlap;
    TextBrings(before, text, a);
  }

  /** A text root is never updated: the patch for it is refused. */
  lemma TextLaw(a: string, b: string, plan: Plan)
    requires a != b
    ensures var o := ApplyAll(Diff(Text(a), Text(b)), Text(a), plan);
            o.root == Text(a) && o.error.Some? && (Faultless(plan) ==> o.error == Some(TextNode))
  {
    assert Diff(Text(a), Text(b)) == [UpdateText(b)] && [UpdateText(b)][1..] == [];
    if Faultless(plan) {
      FlushFaultless(plan, 2);
    }
  }

  /** A text root refuses every patch that needs an element; only a replacement changes it. */
  lemma TextRootRefuses(p: Patch, text: string, plan: Plan)
    requires !p.Replace? && !p.NoPatch?
    ensures var o := ApplyPatch(p, Text(text), plan);
            o.root == Text(text) && o.error.Some? && (Faultless(plan) ==> o.error == Some(TextNode))
  {
    if Faultless(plan) {
      FlushFaultless(plan, 2);
      if p.AppendChild? {
        FlushFaultless(plan, Flushes(p.child));
      }
    }
  }

  /** A removal beyond the last child is refused and changes nothing. */
  lemma RemovalRefused(e: VElement, index: nat, plan: Plan)
    requires |e.children| <= index < 0x1_0000_0000
    ensures ApplyPatch(RemoveChild(index), Element(e), plan) == Outcome(Element(e), plan, Some(OutOfBounds))
  {
  }

  /** A new content is written after two flushes, one for the cleared screen and one for the text; if either
      fails it is not written. */
  lemma ContentNeedsTwoFlushes(e: VElement, text: string, plan: Plan)
    requires |plan| >= 2
    ensures ApplyPatch(UpdateText(text), Element(e), plan)
         == if !plan[0] then Outcome(Element(e), plan[1..], Some(Io))
            else if !plan[1] then Outcome(Element(e), plan[2..], Some(Io))
            else Outcome(WithProps(e, e.props["content" := text]), plan[2..], None)
  {
    assert plan[1..][1..] == plan[2..];
    assert Flush(plan[1..], 1) == (plan[1], plan[2..]);
  }

  /** What the very next flush failing leaves: props and children removed are changed already, an appended
      child and a new content are not there. */
  lemma FailedFlush(e: VElement, p: Patch, plan: Plan)
    requires !p.NoPatch? && plan != [] && !plan[0]
    requires p.Replace? ==> Flushes(p.node) > 0
    requires p.AppendChild? ==> Flushes(p.child) > 0
    requires p.RemoveChild? ==> p.index < |e.children| <= 0x1_0000_0000
    ensures var o := ApplyPatch(p, Element(e), plan);
            && o.error == Some(Io) && o.plan == plan[1..]
            && (p.Replace? ==> o.root == p.node)
            && (p.UpdateProps? ==> o.root == WithProps(e, e.props + p.props))
            && (p.RemoveChild? ==> o.root == WithChildren(e, e.children[..p.index] + e.children[p.index + 1..]))
            && (p.AppendChild? || p.UpdateText? ==> o.root == Element(e))
  {
  }

  /** The plainest nested replacement: an only child that changes its kind or tag takes the place of the
      whole tree. */
  lemma NestedReplace(a: VElement, b: VElement)
    requires a == b.(children := a.children) && |a.children| == |b.children| == 1
    requires var (x, y) := (a.children[0], b.children[0]);
             x.Text? != y.Text? || (x.Element? && y.Element? && x.elem.tag != y.elem.tag)
    ensures Brings(Diff(Element(a), Element(b)), Element(a), b.children[0])
    ensures b.children[0] != Element(b)
  {
    var (x, y) := (a.children[0], b.children[0]);
    assert a.children == [x] && b.children == [y];
    assert x != y && Diff(x, y) == [Replace(y)];
    PropChangesExact(a.props, b.props);
    PropChangesExact(a.styles, b.styles);
    DiffParts(a, b);
    assert DiffOverlap([x][1..], [y][1..]) == [];
    assert DiffOverlap(a.children, b.children) == [Replace(y)] + [] == [Replace(y)];
    assert b.children[1..] == [] && TailPatches(a.children, b.children) == [];
    assert Diff(Element(a), Element(b)) == [Replace(y)];
    ReplaceBrings(y, Element(a));
    assert [Replace(y)][0].Replace? && Faultless([]);
    ReplaceMisses(a, b, []);
  }

  /** The law stops at balanced changes of shape: such patches hit the root and may still, by accident,
      come out right. */
  lemma NestedAccident(e: VElement, x: VElement)
    requires x.children == []
    ensures var y := x.(children := [Element(x)]);
            var (a, b) := (e.(children := [Element(x), Element(y)]), e.(children := [Element(y), Element(x)]));
            Balanced(a, b) && Brings(Diff(Element(a), Element(b)), Element(a), Element(b))
  {
    var (ex, y) := (Element(x), x.(children := [Element(x)]));
    var ey := Element(y);
    var (a, b) := (e.(children := [ex, ey]), e.(children := [ey, ex]));
    PropChangesExact(x.props, x.props);
    PropChangesExact(x.styles, x.styles);
    PropChangesExact(e.props, e.props);
    PropChangesExact(e.styles, e.styles);
    assert |x.children| != |y.children|;
    DiffParts(x, y);
    assert Appends(y.children[0..]) == [AppendChild(ex)];
    assert Diff(ex, ey) == [AppendChild(ex)];
    DiffParts(y, x);
    assert Removals(0, 1) == [RemoveChild(0)] && Appends(x.children[0..]) == [];
    assert Diff(ey, ex) == [RemoveChild(0)];
    TwoPairs(ex, ey, ey, ex);
    DiffParts(a, b);
    assert TailPatches(a.children, b.children) == [];
    assert Diff(Element(a), Element(b)) == [AppendChild(ex)] + [RemoveChild(0)];
    var three := e.(children := [ex, ey, ex]);
    AppendBrings(ex, a);
    assert a.children + [ex] == three.children;
    RemoveFirstBrings(three);
    assert three.children[1..] == b.children;
    BringsThen([AppendChild(ex)], [RemoveChild(0)], Element(a), Element(three), Element(b));
    assert Faultless([]) && !SameShape(ex, ey);
    SuccessNeeds(a, b, []);
  }

  lemma TwoPairs(a: VNode, b: VNode, c: VNode, d: VNode)
    requires a != c && b != d
    ensures DiffOverlap([a, b], [c, d]) == Diff(a, c) + Diff(b, d)
  {
    assert [a, b][1..] == [b] && [c, d][1..] == [d] && [b][1..] == [] && [d][1..] == [];
    assert DiffOverlap([b], [d]) == Diff(b, d) + DiffOverlap([b][1..], [d][1..]) == Diff(b, d);
  }

  lemma RemoveFirstBrings(e: VElement)
    requires 0 < |e.children|
    ensures Brings([RemoveChild(0)], Element(e), WithChildren(e, e.children[1..]))
  {
    var shrunk := WithChildren(e, e.children[1..]);
    assert e.children[..0] + e.children[1..] == e.children[1..];
    forall plan ensures Faultless(plan) ==>
      Flush(plan, 1 + Flushes(shrunk)).0 && Faultless(Flush(plan, 1 + Flushes(shrunk)).1)
    {
      if Faultless(plan) {
        FlushFaultless(plan, 1 + Flushes(shrunk));
      }
    }
    BringsOne(RemoveChild(0), Element(e), shrunk);
  }

  /** For any number of children the removals stay in bounds, though beyond 2^32 they may hit others: what
      they leave has the right length. */
  lemma {:induction false} RemovalsInBounds(from: nat, e: VElement, plan: Plan)
    ensures var o := ApplyAll(Removals(from, |e.children|), Element(e), plan);
            && (o.error == None || o.error == Some(Io))
            && (o.error == None ==> |Kids(o.root)| == if from < |e.children| then from else |e.children|)
    decreases |e.children|
  {
    if from < |e.children| {
      var n := |e.children| - 1;
      assert Removals(from, n + 1)[0] == RemoveChild(n) && Removals(from, n + 1)[1..] == Removals(from, n);
      var o := ApplyPatch(RemoveChild(n), Element(e), plan);
      if o.error == None {
        assert o.root.Element? && |o.root.elem.children| == n;
        RemovalsInBounds(from, o.root.elem, o.plan);
      }
    }
  }

  /** Beyond 2^32 children the index is cut and the first child goes instead of the last. */
  lemma CutIndex(e: VElement, plan: Plan)
    requires |e.children| == 0x1_0000_0001
    ensures ApplyPatch(RemoveChild(|e.children| - 1), Element(e), plan).root == WithChildren(e, e.children[1..])
  {
    assert e.children[..0] + e.children[1..] == e.children[1..];
  }
}
