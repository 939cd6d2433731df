/**
 The tree diff (src/virtual_dom/diff.rs).  A patch carries no path: patches for a child stand in
 the same flat list as those for its parent.
 */
module TreeDiff {
  import opened VirtualDom

  datatype Patch =
    | Replace(node: VNode)
    | UpdateProps(props: Attrs)
    | AppendChild(child: VNode)
    | RemoveChild(index: nat)
    | UpdateText(text: string)
    | NoPatch

  // ----- what a diff is -----------------------------------------------------------------------

  predicate Disagree(before: Attrs, after: Attrs, key: string) {
    !(key in before && key in after && before[key] == after[key]) && (key in before || key in after)
  }

  /** New values of the keys on which two maps disagree; a removed key becomes the empty string. */
  function PropChanges(before: Attrs, after: Attrs): Attrs {
    map key | key in before.Keys + after.Keys && Disagree(before, after, key) :: if key in after then after[key] else ""
  }

  function PropPatch(before: Attrs, after: Attrs): seq<Patch> {
    if PropChanges(before, after) == map[] then [] else [UpdateProps(PropChanges(before, after))]
  }

  function Appends(news: seq<VNode>): (r: seq<Patch>)
    ensures |r| == |news|
  {
    seq(|news|, i requires 0 <= i < |news| => AppendChild(news[i]))
  }

  /** Removal of the children `from..to`, right to left. */
  function Removals(from: nat, to: nat): (r: seq<Patch>)
    ensures |r| == if from < to then to - from else 0
  {
    seq(if from < to then to - from else 0, i requires 0 <= i < to - from => RemoveChild(to - 1 - i))
  }

  /** Without the no-ops, unless that is all there is. */
  function Retained(patches: seq<Patch>): seq<Patch> {
    if |patches| > 1 then Real(patches) else patches
  }

  function Real(patches: seq<Patch>): seq<Patch> {
    if patches == [] then [] else (if patches[0].NoPatch? then [] else [patches[0]]) + Real(patches[1..])
  }

  function Diff(before: VNode, after: VNode): seq<Patch>
    decreases before, 1
  {
    if before == after then [NoPatch] else Retained(RawDiff(before, after))
  }

  function RawDiff(before: VNode, after: VNode): seq<Patch>
    decreases before, 0
  {
    match (before, after)
    case (Text(a), Text(b)) => if a == b then [] else [UpdateText(b)]
    case (Element(a), Element(b)) =>
      if a.tag != b.tag then [Replace(after)]
      else PropPatch(a.props, b.props) + PropPatch(a.styles, b.styles) + DiffChildren(a.children, b.children)
    case _ => [Replace(after)]
  }

  function Shorter(a: seq<VNode>, b: seq<VNode>): nat {
    if |a| <= |b| then |a| else |b|
  }

  function DiffChildren(olds: seq<VNode>, news: seq<VNode>): seq<Patch>
    decreases olds, 1
  {
    DiffOverlap(olds, news) + (Appends(news[Shorter(olds, news)..]) + Removals(|news|, |olds|))
  }

  /** The patches of the pairs that differ, as far as both lists go. */
  function DiffOverlap(olds: seq<VNode>, news: seq<VNode>): seq<Patch>
    decreases olds, 0
  {
    if olds == [] || news == [] then []
    else (if olds[0] == news[0] then [] else Diff(olds[0], news[0])) + DiffOverlap(olds[1..], news[1..])
  }

  // ----- completeness ---------------------------------------------------------------------------

  /** The prop diff names exactly the keys on which the maps disagree, so it is empty only for equal maps. */
  lemma PropChangesExact(before: Attrs, after: Attrs)
    ensures forall key :: key in PropChanges(before, after) <==> Disagree(before, after, key)
    ensures forall key :: key in PropChanges(before, after) ==> PropChanges(before, after)[key] == if key in after then after[key] else ""
    ensures PropChanges(before, after) == map[] <==> before == after
  {
    if PropChanges(before, after) == map[] {
      forall key | key in before.Keys + after.Keys
        ensures key in before && key in after && before[key] == after[key]
      {
        assert key !in PropChanges(before, after);
      }
    }
  }

  ghost predicate NoNops(patches: seq<Patch>) { forall p :: p in patches ==> !p.NoPatch? }

  lemma {:induction false} RealKeeps(patches: seq<Patch>)
    requires NoNops(patches)
    ensures Real(patches) == patches
  {
    if patches != [] {
      RealKeeps(patches[1..]);
    }
  }

  /** A difference always leaves a patch, at every depth a real one, so retaining removes nothing. */
  lemma {:induction false} DiffComplete(before: VNode, after: VNode)
    ensures Diff(before, after) == [NoPatch] <==> before == after
    ensures before != after ==> Diff(before, after) != [] && NoNops(Diff(before, after)) && Diff(before, after) == RawDiff(before, after)
    decreases before, 1
  {
    if before != after {
      if before.Element? && after.Element? && before.elem.tag == after.elem.tag {
        var (a, b) := (before.elem, after.elem);
        PropChangesExact(a.props, b.props);
        PropChangesExact(a.styles, b.styles);
        ChildrenComplete(a.children, b.children);
      }
      RealKeeps(RawDiff(before, after));
    }
  }

  lemma {:induction false} ChildrenComplete(olds: seq<VNode>, news: seq<VNode>)
    ensures NoNops(DiffChildren(olds, news))
    ensures DiffChildren(olds, news) == [] <==> olds == news
    decreases olds, 1
  {
    OverlapComplete(olds, news);
  }

  lemma {:induction false} OverlapComplete(olds: seq<VNode>, news: seq<VNode>)
    ensures NoNops(DiffOverlap(olds, news))
    ensures DiffOverlap(olds, news) == [] <==> forall i :: 0 <= i < |olds| && i < |news| ==> olds[i] == news[i]
    decreases olds, 0
  {
    if olds != [] && news != [] {
      DiffComplete(olds[0], news[0]);
      OverlapComplete(olds[1..], news[1..]);
      if DiffOverlap(olds, news) == [] {
        forall i | 0 <= i < |olds| && i < |news|
          ensures olds[i] == news[i]
        {
          if i > 0 {
            assert olds[1..][i - 1] == news[1..][i - 1];
          }
        }
      } else if olds[0] == news[0] {
        var i :| 0 <= i < |olds[1..]| && i < |news[1..]| && olds[1..][i] != news[1..][i];
        assert olds[i + 1] != news[i + 1];
      }
    }
  }

  // ----- what a patch carries -------------------------------------------------------------------

  /** `node` is somewhere in `tree`. */
  ghost predicate HasNode(tree: VNode, node: VNode)
    decreases tree
  {
    node == tree || (tree.Element? && exists i :: 0 <= i < |tree.elem.children| && HasNode(tree.elem.children[i], node))
  }

  /** A patch brings text and nodes of the new tree only. */
  ghost predicate FromTree(p: Patch, tree: VNode) {
    && (p.UpdateText? ==> HasNode(tree, Text(p.text)))
    && (p.Replace? ==> HasNode(tree, p.node))
    && (p.AppendChild? ==> HasNode(tree, p.child))
  }

  lemma FromPart(p: Patch, tree: VElement, i: nat)
    requires i < |tree.children| && FromTree(p, tree.children[i])
    ensures FromTree(p, Element(tree))
  {
  }

  lemma FromAppends(p: Patch, tree: VElement, m: nat)
    requires m <= |tree.children| && p in Appends(tree.children[m..])
    ensures FromTree(p, Element(tree))
  {
    var i :| 0 <= i < |tree.children[m..]| && p == AppendChild(tree.children[m..][i]);
    assert tree.children[m + i] == p.child && HasNode(tree.children[m + i], p.child);
  }

  /** For all trees: whatever a patch of their diff carries is a node, or the text of a node, of the new
      tree. */
  lemma {:induction false} DiffFromNew(a: VNode, b: VNode, p: Patch)
    requires p in Diff(a, b)
    ensures FromTree(p, b)
    decreases a, 1
  {
    if a == b {
      assert p == NoPatch;
    } else {
      DiffComplete(a, b);
      if a.Element? && b.Element? && a.elem.tag == b.elem.tag {
        var (x, y) := (a.elem.children, b.elem.children);
        if p in DiffOverlap(x, y) {
          OverlapFromNew(x, y, p, b.elem, 0);
        } else if p in Appends(y[Shorter(x, y)..]) {
          FromAppends(p, b.elem, Shorter(x, y));
        } else {
          assert p.UpdateProps? || p.RemoveChild?;
        }
      }
    }
  }

  lemma {:induction false} OverlapFromNew(olds: seq<VNode>, news: seq<VNode>, p: Patch, tree: VElement, k: nat)
    requires p in DiffOverlap(olds, news) && k <= |tree.children| && news == tree.children[k..]
    ensures FromTree(p, Element(tree))
    decreases olds, 0
  {
    if p in Diff(olds[0], news[0]) && olds[0] != news[0] {
      DiffFromNew(olds[0], news[0], p);
      FromPart(p, tree, k);
    } else {
      OverlapFromNew(olds[1..], news[1..], p, tree, k + 1);
    }
  }

  // ----- the algorithm ----------------------------------------------------------------------------

  method DiffNodes(before: VNode, after: VNode) returns (patches: seq<Patch>)
    ensures patches == Diff(before, after)
    decreases before, 3
  {
    patches := [];
    if before == after {
      patches := patches + [NoPatch];
      return;
    }
    match (before, after) {
      case (Text(a), Text(b)) =>
        if a != b {
          patches := patches + [UpdateText(b)];
        }
      case (Element(a), Element(b)) =>
        if a.tag != b.tag {
          patches := patches + [Replace(after)];
        } else {
          patches := DiffElements(a, b);
        }
      case _ =>
        patches := patches + [Replace(after)];
    }
    if |patches| > 1 {
      patches := Real(patches);
    }
  }

  /** Props, styles and children of elements of one tag. */
  method DiffElements(a: VElement, b: VElement) returns (patches: seq<Patch>)
    requires a.tag == b.tag
    ensures patches == RawDiff(Element(a), Element(b))
    decreases Element(a), 2
  {
    patches := [];
    var propPatches := DiffProps(a.props, b.props);
    if propPatches != map[] {
      patches := patches + [UpdateProps(propPatches)];
    }
    assert patches == PropPatch(a.props, b.props);
    var stylePatches := DiffProps(a.styles, b.styles);
    if stylePatches != map[] {
      patches := patches + [UpdateProps(stylePatches)];
    }
    assert patches == PropPatch(a.props, b.props) + PropPatch(a.styles, b.styles);
    var childPatches := DiffChildNodes(a.children, b.children);
    patches := patches + childPatches;
  }

  method DiffProps(before: Attrs, after: Attrs) returns (patches: Attrs)
    ensures patches == PropChanges(before, after)
  {
    patches := map[];
    var keys := after.Keys;
    while keys != {}
      invariant keys <= after.Keys
      invariant forall key :: key in patches <==> key in after && key !in keys && Disagree(before, after, key)
      invariant forall key :: key in patches ==> patches[key] == after[key]
      decreases keys
    {
      var key :| key in keys;
      if key in before {
        if before[key] != after[key] {
          patches := patches[key := after[key]];
        }
      } else {
        patches := patches[key := after[key]];
      }
      keys := keys - {key};
    }
    keys := before.Keys;
    while keys != {}
      invariant keys <= before.Keys
      invariant forall key :: key in patches <==> (key in after || key !in keys) && Disagree(before, after, key)
      invariant forall key :: key in patches ==> patches[key] == if key in after then after[key] else ""
      decreases keys
    {
      var key :| key in keys;
      if key !in after {
        patches := patches[key := ""];
      }
      keys := keys - {key};
    }
    PropChangesExact(before, after);
  }

  lemma OverlapStep(olds: seq<VNode>, news: seq<VNode>, i: nat)
    requires i < |olds| && i < |news|
    ensures DiffOverlap(olds[i..], news[i..])
         == (if olds[i] == news[i] then [] else Diff(olds[i], news[i])) + DiffOverlap(olds[i + 1..], news[i + 1..])
  {
    assert olds[i..][1..] == olds[i + 1..] && news[i..][1..] == news[i + 1..];
  }

  method DiffChildNodes(olds: seq<VNode>, news: seq<VNode>) returns (patches: seq<Patch>)
    ensures patches == DiffChildren(olds, news)
    decreases olds, 1
  {
    var overlap := DiffOverlapping(olds, news);
    var tails := DiffTails(olds, news, Shorter(olds, news));
    patches := overlap + tails;
  }

  /** The loop over the overlap. */
  method DiffOverlapping(olds: seq<VNode>, news: seq<VNode>) returns (patches: seq<Patch>)
    ensures patches == DiffOverlap(olds, news)
    decreases olds, 0
  {
    patches := [];
    var i := 0;
    ghost var rest := DiffOverlap(olds[0..], news[0..]);
    assert olds[0..] == olds && news[0..] == news;
    while i < |olds| && i < |news|
      invariant i <= |olds| && i <= |news|
      invariant rest == DiffOverlap(olds[i..], news[i..])
      invariant patches + rest == DiffOverlap(olds, news)
    {
      OverlapStep(olds, news, i);
      ghost var tail := DiffOverlap(olds[i + 1..], news[i + 1..]);
      if olds[i] != news[i] {
        var childPatches := DiffNodes(olds[i], news[i]);
        assert patches + (childPatches + tail) == (patches + childPatches) + tail;
        patches := patches + childPatches;
      } else {
        assert rest == tail;
      }
      rest := tail;
      i := i + 1;
    }
    assert rest == [] && patches + [] == patches;
  }

  /** The two loops over what lies beyond the overlap. */
  method DiffTails(olds: seq<VNode>, news: seq<VNode>, m: nat) returns (patches: seq<Patch>)
    requires m == Shorter(olds, news)
    ensures patches == Appends(news[m..]) + Removals(|news|, |olds|)
  {
    patches := [];
    var i := m;
    while i < |news|
      invariant m <= i <= |news|
      invariant patches == Appends(news[m..i])
    {
      patches := patches + [AppendChild(news[i])];
      i := i + 1;
    }
    assert news[m..i] == news[m..];
    ghost var appended := patches;
    var j := |olds|;
    while j > i
      invariant i == |news| && 0 <= j <= |olds| && (i <= |olds| ==> i <= j) && (i > |olds| ==> j == |olds|)
      invariant patches == appended + Removals(j, |olds|)
    {
      j := j - 1;
      patches := patches + [RemoveChild(j)];
    }
  }
}
