/**
 The PTY renderer (src/pty/pty_renderer.rs): it diffs each new screen text against a cached tree and
 applies the patches to the renderer's root.  The question is when cache and root agree.
 `render` returns early on an error and keeps the old cache; `handle_output` logs it and goes on.
 Bytes are taken as already decoded to text.
 */
module PtyRendering {
  import opened Basics
  import opened VirtualDom
  import opened TreeDiff
  import opened Terminal
  import opened Patching
  import opened Rendering

  function ContentNode(content: string): VNode { Element(VElement("text", map[CONTENT := content], map[], [])) }

  const BLANK := Element(VElement("root", map[], map[], []))

  datatype Call = Render(content: string) | HandleOutput(content: string)

  datatype View = View(cached: VNode, root: VNode, plan: Plan)

  datatype Reply = Reply(after: View, error: Option<RenderError>)

  /** One call; `process_and_send` does what `render` does. */
  function Serve(v: View, call: Call): Reply {
    var next := ContentNode(call.content);
    var o := ApplyAll(Diff(v.cached, next), v.root, v.plan);
    Reply(View(if call.HandleOutput? || o.error == None then next else v.cached, o.root, o.plan), o.error)
  }

  function ServeAll(v: View, calls: seq<Call>): View
    decreases |calls|
  {
    if calls == [] then v else ServeAll(Serve(v, calls[0]).after, calls[1..])
  }

  /** Whether a run loses the agreement of cache and root, told from the contents, the flushes to come and
      the last text that was accepted.  A call for another text than that changes the root and uses up one
      flush; only a `render` whose flush fails then forgets to update the cache.  The last such call
      decides. */
  predicate Lost(accepted: Option<string>, calls: seq<Call>, plan: Plan, before: bool)
    decreases |calls|
  {
    if calls == [] then before
    else if accepted == Some(calls[0].content) then Lost(accepted, calls[1..], plan, before)
    else
      var (ok, rest) := Flush(plan, 1);
      if calls[0].Render? && !ok then Lost(accepted, calls[1..], rest, true)
      else Lost(Some(calls[0].content), calls[1..], rest, false)
  }

  function CachedFor(accepted: Option<string>): VNode {
    if accepted.Some? then ContentNode(accepted.value) else BLANK
  }

  ghost predicate Reached(v: View) {
    || (v.cached == BLANK && (v.root == BLANK || exists c :: v.root == ContentNode(c)))
    || exists p, c :: v.cached == ContentNode(p) && v.root == ContentNode(c)
  }

  lemma ContentNodesDiffer(p: string, c: string)
    ensures ContentNode(p) == ContentNode(c) <==> p == c
    ensures ContentNode(p) != BLANK
  {
    assert map[CONTENT := p][CONTENT] == p && map[CONTENT := c][CONTENT] == c;
    assert "text" != "root";
  }

  /** The tree for a screen text shows exactly that text, unstyled; before the first one nothing is shown. */
  lemma ContentShown(content: string)
    ensures Shown(ContentNode(content)) == content && ShownCells(ContentNode(content)) == Cells(content, PLAIN)
    ensures Shown(BLANK) == ""
    ensures ContentNode(content) == Element(VElement("text", map["content" := content], map[], []))
    ensures BLANK == Element(VElement("root", map[], map[], []))
  {
    assert map["content" := content]["content"] == content;
    assert Styled({}, map[], PLAIN) == PLAIN;
  }

  /** A new text for a cached text patches the content of the root. */
  lemma TextDiff(p: string, c: string)
    requires p != c
    ensures Diff(ContentNode(p), ContentNode(c)) == [UpdateProps(map[CONTENT := c])]
  {
    ContentNodesDiffer(p, c);
    var (a, b) := (ContentNode(p).elem, ContentNode(c).elem);
    DiffComplete(ContentNode(p), ContentNode(c));
    PropChangesExact(a.styles, b.styles);
    PropChangesExact(a.props, b.props);
    assert PropChanges(a.props, b.props) == map[CONTENT := c];
    assert DiffChildren([], []) == [] + (Appends([]) + Removals(0, 0)) == [];
  }

  lemma ApplyOne(patch: Patch, root: VNode, plan: Plan)
    ensures ApplyAll([patch], root, plan) == ApplyPatch(patch, root, plan)
  {
    assert [patch][1..] == [];
  }

  /** The root after its new text was written, with one flush. */
  function Written(content: string, plan: Plan): Outcome {
    var (ok, rest) := Flush(plan, 1);
    Outcome(ContentNode(content), rest, Failure(ok))
  }

  lemma OverwriteContent(c: string, content: string, plan: Plan)
    ensures ApplyPatch(UpdateProps(map[CONTENT := content]), ContentNode(c), plan) == Written(content, plan)
  {
    assert map[CONTENT := c] + map[CONTENT := content] == map[CONTENT := content];
  }

  lemma FirstText(content: string, root: VNode, plan: Plan)
    ensures ApplyAll(Diff(BLANK, ContentNode(content)), root, plan) == Written(content, plan)
  {
    ContentNodesDiffer(content, content);
    assert Diff(BLANK, ContentNode(content)) == [Replace(ContentNode(content))];
    ApplyOne(Replace(ContentNode(content)), root, plan);
    assert CONTENT in map[CONTENT := content] && Flushes(ContentNode(content)) == 1;
  }

  /** What applying the patches of one call comes to from a reached state. */
  lemma PatchesOfCall(v: View, content: string)
    requires Reached(v)
    ensures ApplyAll(Diff(v.cached, ContentNode(content)), v.root, v.plan)
         == if v.cached == ContentNode(content) then Outcome(v.root, v.plan, None) else Written(content, v.plan)
  {
    ContentNodesDiffer(content, content);
    if v.cached == BLANK {
      FirstText(content, v.root, v.plan);
    } else {
      var p, c :| v.cached == ContentNode(p) && v.root == ContentNode(c);
      ContentNodesDiffer(p, content);
      if p == content {
        ApplyOne(NoPatch, v.root, v.plan);
      } else {
        TextDiff(p, content);
        ApplyOne(UpdateProps(map[CONTENT := content]), v.root, v.plan);
        OverwriteContent(c, content, v.plan);
      }
    }
  }

  /** What one call does from a reached state. */
  lemma ServeReached(v: View, call: Call)
    requires Reached(v)
    ensures var r := Serve(v, call);
            var next := ContentNode(call.content);
            && Reached(r.after)
            && (v.cached == next ==> r.error == None && r.after == v)
            && (v.cached != next ==>
                  r.after.root == next && r.error == Failure(Flush(v.plan, 1).0) && r.after.plan == Flush(v.plan, 1).1
                  && r.after.cached == if call.Render? && r.error.Some? then v.cached else next)
            && (Faultless(v.plan) ==> r.error == None && Faultless(r.after.plan))
  {
    PatchesOfCall(v, call.content);
    if Faultless(v.plan) {
      FlushFaultless(v.plan, 1);
    }
  }

  /** For every run and every flush failure: cache and root agree exactly when the last call that asked
      for another text was no failed `render`. */
  lemma {:induction false} AgreementExactly(v: View, accepted: Option<string>, calls: seq<Call>, before: bool)
    requires Reached(v) && v.cached == CachedFor(accepted) && (v.cached == v.root <==> !before)
    ensures var w := ServeAll(v, calls); w.cached == w.root <==> !Lost(accepted, calls, v.plan, before)
    decreases |calls|
  {
    if calls != [] {
      var (r, content) := (Serve(v, calls[0]), calls[0].content);
      ServeReached(v, calls[0]);
      if accepted.Some? {
        ContentNodesDiffer(accepted.value, content);
      }
      ContentNodesDiffer(content, content);
      if accepted == Some(content) {
        AgreementExactly(r.after, accepted, calls[1..], before);
      } else if calls[0].Render? && r.error.Some? {
        AgreementExactly(r.after, accepted, calls[1..], true);
      } else {
        AgreementExactly(r.after, Some(content), calls[1..], false);
      }
    }
  }

  function Start(plan: Plan): View { View(BLANK, BLANK, plan) }

  lemma {:induction false} NeverLost(accepted: Option<string>, calls: seq<Call>, plan: Plan)
    requires forall i :: 0 <= i < |calls| ==> calls[i].HandleOutput?
    ensures !Lost(accepted, calls, plan, false)
    decreases |calls|
  {
    if calls != [] {
      if accepted == Some(calls[0].content) {
        NeverLost(accepted, calls[1..], plan);
      } else {
        NeverLost(Some(calls[0].content), calls[1..], Flush(plan, 1).1);
      }
    }
  }

  /** With `handle_output` alone cache and root agree after every run, whatever the flushes do. */
  lemma {:induction false} HandleOutputAgrees(plan: Plan, calls: seq<Call>)
    requires forall i :: 0 <= i < |calls| ==> calls[i].HandleOutput?
    ensures var w := ServeAll(Start(plan), calls); w.cached == w.root
  {
    AgreementExactly(Start(plan), None, calls, false);
    NeverLost(None, calls, plan);
  }

  lemma {:induction false} FaultlessNeverLost(accepted: Option<string>, calls: seq<Call>, plan: Plan)
    requires Faultless(plan)
    ensures !Lost(accepted, calls, plan, false)
    decreases |calls|
  {
    if calls != [] {
      FlushFaultless(plan, 1);
      if accepted == Some(calls[0].content) {
        FaultlessNeverLost(accepted, calls[1..], plan);
      } else {
        FaultlessNeverLost(Some(calls[0].content), calls[1..], Flush(plan, 1).1);
      }
    }
  }

  lemma {:induction false} FaultlessSucceeds(v: View, calls: seq<Call>, n: nat)
    requires Reached(v) && Faultless(v.plan) && n < |calls|
    ensures Serve(ServeAll(v, calls[..n]), calls[n]).error == None
    decreases n
  {
    ServeReached(v, calls[0]);
    if n > 0 {
      FaultlessSucceeds(Serve(v, calls[0]).after, calls[1..], n - 1);
      assert calls[..n][0] == calls[0] && calls[..n][1..] == calls[1..][..n - 1];
    }
  }

  /** Without a failing flush every run keeps them in agreement, and every call succeeds. */
  lemma {:induction false} FaultlessAgrees(plan: Plan, calls: seq<Call>)
    requires Faultless(plan)
    ensures var w := ServeAll(Start(plan), calls); w.cached == w.root
    ensures forall n :: 0 <= n < |calls| ==> Serve(ServeAll(Start(plan), calls[..n]), calls[n]).error == None
  {
    AgreementExactly(Start(plan), None, calls, false);
    FaultlessNeverLost(None, calls, plan);
    forall n | 0 <= n < |calls| ensures Serve(ServeAll(Start(plan), calls[..n]), calls[n]).error == None {
      FaultlessSucceeds(Start(plan), calls, n);
    }
  }

  /** Three renders, the second with a failing flush: the third reports success, yet the root shows the
      second text while the cache holds the first. */
  lemma RenderCanDisagree(a: string, b: string)
    requires a != b
    ensures var v2 := ServeAll(Start([true, false]), [Render(a), Render(b)]);
            var r := Serve(v2, Render(a));
            r.error == None && r.after.cached == ContentNode(a) && r.after.root == ContentNode(b)
  {
    var v0 := Start([true, false]);
    ContentNodesDiffer(a, b);
    PatchesOfCall(v0, a);
    assert [true, false][1..] == [false] && [false][1..] == [];
    assert Flush([true, false], 1) == Flush([false], 0) == (true, [false]);
    assert Flush([false], 1) == (false, []);
    var v1 := Serve(v0, Render(a)).after;
    assert v1 == View(ContentNode(a), ContentNode(a), [false]);
    PatchesOfCall(v1, b);
    var v2 := Serve(v1, Render(b)).after;
    assert v2 == View(ContentNode(a), ContentNode(b), []);
    PatchesOfCall(v2, a);
    assert [Render(a), Render(b)][1..] == [Render(b)] && [Render(b)][1..] == [];
    assert ServeAll(v1, [Render(b)]) == v2;
  }

  class PtyRenderer {
    const renderer: Renderer
    var prevVdom: VNode

    function State(): View
      reads this, renderer
    {
      View(prevVdom, renderer.root, renderer.plan)
    }

    constructor (plan: Plan)
      ensures fresh(renderer) && State() == Start(plan)
    {
      renderer := new Renderer(BLANK, plan);
      prevVdom := BLANK;
    }

    method RenderText(content: string) returns (error: Option<RenderError>)
      modifies this, renderer
      ensures Reply(State(), error) == Serve(old(State()), Render(content))
    {
      var newVdom := ContentNode(content);
      var patches := DiffNodes(prevVdom, newVdom);
      error := renderer.ApplyPatches(patches);
      if error.Some? {
        return;
      }
      prevVdom := newVdom;
    }

    method HandleOutputText(content: string)
      modifies this, renderer
      ensures State() == Serve(old(State()), HandleOutput(content)).after
    {
      var newVdom := ContentNode(content);
      var patches := DiffNodes(prevVdom, newVdom);
      var error := renderer.ApplyPatches(patches);
      prevVdom := newVdom;
    }
  }
}
