/** The virtual DOM tree (src/virtual_dom/mod.rs). */
module VirtualDom {
  type Attrs = map<string, string>

  datatype VNode = Text(content: string) | Element(elem: VElement)

  datatype VElement = VElement(tag: string, props: Attrs, styles: Attrs, children: seq<VNode>)

  const CONTENT := "content"

  /** The same kinds, tags and numbers of children all the way down. */
  predicate SameShape(a: VNode, b: VNode) {
    match (a, b)
    case (Text(_), Text(_)) => true
    case (Element(x), Element(y)) => x.tag == y.tag && |x.children| == |y.children| && SameShapes(x.children, y.children)
    case _ => false
  }

  /** Pairwise the same shape, as far as both lists go. */
  predicate SameShapes(a: seq<VNode>, b: seq<VNode>) {
    a == [] || b == [] || (SameShape(a[0], b[0]) && SameShapes(a[1..], b[1..]))
  }

  lemma {:induction false} SameShapeReflexive(a: VNode)
    ensures SameShape(a, a)
  {
    if a.Element? {
      SameShapesReflexive(a.elem.children);
    }
  }

  lemma {:induction false} SameShapesReflexive(a: seq<VNode>)
    ensures SameShapes(a, a)
  {
    if a != [] {
      SameShapeReflexive(a[0]);
      SameShapesReflexive(a[1..]);
    }
  }

  /** Lists that agree as far as both go have the same shapes there. */
  lemma {:induction false} EqualOverlap(a: seq<VNode>, b: seq<VNode>)
    requires forall i :: 0 <= i < |a| && i < |b| ==> a[i] == b[i]
    ensures SameShapes(a, b)
  {
    if a != [] && b != [] {
      SameShapeReflexive(a[0]);
      EqualOverlap(a[1..], b[1..]);
    }
  }
}
