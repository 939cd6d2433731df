/**
 The session table of the multiplexer (src/pty/multiplexer.rs): sessions by id, and their output
 buffers.  A session refers to its buffer by a handle, as clones of a session share one
 lock-protected buffer; a buffer outlives its session as long as someone may still append to it.
 */
module SessionTable {
  import opened Basics

  type Bytes = seq<byte>

  /** Handle of an output buffer: its place in `outputs`. */
  type Handle = nat

  datatype Session = Session(streamId: nat, input: Bytes, output: Handle)

  datatype Table = Table(sessions: map<nat, Session>, outputs: seq<Bytes>)

  /** Ids are unsigned 32-bit numbers. */
  const LIMIT := 0x1_0000_0000

  ghost predicate Valid(t: Table) {
    && (forall id :: id in t.sessions ==> t.sessions[id].streamId == id && t.sessions[id].output < |t.outputs|)
    && (forall i, j :: i in t.sessions && j in t.sessions && t.sessions[i].output == t.sessions[j].output ==> i == j)
  }

  /** The output of a session; nothing when there is no such session. */
  function OutputOf(t: Table, id: nat): Bytes {
    if id in t.sessions && t.sessions[id].output < |t.outputs| then t.outputs[t.sessions[id].output] else []
  }

  function Live(t: Table): set<Handle> { set id | id in t.sessions :: t.sessions[id].output }

  // ----- ids --------------------------------------------------------------------------------------

  predicate IsMax(m: nat, s: set<nat>) { m in s && forall k :: k in s ==> k <= m }

  lemma MaxOfTwo(s: set<nat>, x: nat, m: nat)
    requires x in s && IsMax(m, s - {x})
    ensures IsMax(if x <= m then m else x, s)
  {
    forall k | k in s ensures k <= if x <= m then m else x {
      assert k == x || k in s - {x};
    }
  }

  lemma {:induction false} MaxExists(s: set<nat>)
    requires s != {}
    ensures exists m :: IsMax(m, s)
    decreases |s|
  {
    var x :| x in s;
    var rest := s - {x};
    if rest == {} {
      assert s == {x};
      assert IsMax(x, s);
    } else {
      assert |rest| < |s|;
      MaxExists(rest);
      var m :| IsMax(m, rest);
      MaxOfTwo(s, x, m);
    }
  }

  function Max(s: set<nat>): (m: nat)
    requires s != {}
    ensures IsMax(m, s)
  {
    MaxExists(s);
    var m :| IsMax(m, s);
    m
  }

  /** One more than the largest id, in 32 bits; 1 for an empty table. */
  function NextId(sessions: map<nat, Session>): nat {
    if sessions == map[] then 1 else (Max(sessions.Keys) + 1) % LIMIT
  }

  /** Below the limit a new id exceeds every live one, so inserting it overwrites nothing. */
  lemma NextIdFresh(sessions: map<nat, Session>, bound: nat)
    requires forall id :: id in sessions ==> id <= bound
    requires bound + 1 < LIMIT
    ensures NextId(sessions) <= bound + 1
    ensures forall id :: id in sessions ==> id < NextId(sessions)
  {
    if sessions != map[] {
      assert sessions.Keys != {};
    }
  }

  // ----- single operations --------------------------------------------------------------------------

  /** A new session with the given contents, under id `id`. */
  function Insert(t: Table, id: nat, input: Bytes, output: Bytes): Table {
    Table(t.sessions[id := Session(id, input, |t.outputs|)], t.outputs + [output])
  }

  function Create(t: Table): Table { Insert(t, NextId(t.sessions), [], []) }

  function Send(t: Table, id: nat, data: Bytes): Table {
    if id in t.sessions then t.(sessions := t.sessions[id := t.sessions[id].(input := t.sessions[id].input + data)]) else t
  }

  function Broadcast(t: Table, data: Bytes): Table {
    t.(sessions := map id | id in t.sessions :: t.sessions[id].(input := t.sessions[id].input + data))
  }

  function Remove(t: Table, id: nat): Table { t.(sessions := t.sessions - {id}) }

  function AppendTo(t: Table, h: Handle, data: Bytes): Table
    requires h < |t.outputs|
  {
    t.(outputs := t.outputs[h := t.outputs[h] + data])
  }

  function Clear(t: Table, h: Handle): Table
    requires h < |t.outputs|
  {
    t.(outputs := t.outputs[h := []])
  }

  /** A chunk at the end of every live buffer. */
  function Dispatch(t: Table, data: Bytes): Table {
    t.(outputs := seq(|t.outputs|, h requires 0 <= h < |t.outputs| => if h in Live(t) then t.outputs[h] + data else t.outputs[h]))
  }

  // ----- split ----------------------------------------------------------------------------------------

  /** Both halves get sessions of their own, under the given ids; the split session goes. */
  function SplitAs(t: Table, id: nat, first: nat, second: nat): Table
    requires id in t.sessions
  {
    var (input, output) := (t.sessions[id].input, OutputOf(t, id));
    var (m, n) := (|input| / 2, |output| / 2);
    Remove(Insert(Insert(t, first, input[..m], output[..n]), second, input[m..], output[n..]), id)
  }

  function Split(t: Table, id: nat): Table
    requires id in t.sessions
  {
    SplitAs(t, id, NextId(t.sessions), (NextId(t.sessions) + 1) % LIMIT)
  }

  // ----- merge ----------------------------------------------------------------------------------------

  /** The listed sessions leave the table; those that were there, in list order. */
  function Collect(t: Table, ids: seq<nat>): (Table, seq<Session>)
    decreases |ids|
  {
    if ids == [] then (t, [])
    else if ids[0] in t.sessions then
      var (u, found) := Collect(Remove(t, ids[0]), ids[1..]);
      (u, [t.sessions[ids[0]]] + found)
    else Collect(t, ids[1..])
  }

  /** The outputs of `found` appended to `target` one after the other, up to the first that is the
      target itself: there the lock held on it is awaited. */
  function Splice(t: Table, target: Handle, found: seq<Session>): Table
    requires target < |t.outputs|
    decreases |found|
  {
    if found == [] || found[0].output == target || found[0].output >= |t.outputs| then t
    else Splice(AppendTo(t, target, t.outputs[found[0].output]), target, found[1..])
  }

  /** The outputs of the listed sessions that are live, in list order. */
  function LiveOutputs(t: Table, ids: seq<nat>): Bytes
    decreases |ids|
  {
    if ids == [] then []
    else OutputOf(t, ids[0]) + LiveOutputs(t, ids[1..])
  }

  ghost predicate Distinct(ids: seq<nat>) { forall i, j :: 0 <= i < j < |ids| ==> ids[i] != ids[j] }

  /** Collecting removes exactly the listed ids and keeps the rest as it was. */
  lemma {:induction false} CollectRemoves(t: Table, ids: seq<nat>)
    ensures var (u, found) := Collect(t, ids);
            && u.outputs == t.outputs
            && u.sessions == t.sessions - (set id | id in ids)
            && forall s :: s in found ==> exists id :: id in ids && id in t.sessions && t.sessions[id] == s
    decreases |ids|
  {
    if ids != [] {
      var rest := if ids[0] in t.sessions then Remove(t, ids[0]) else t;
      CollectRemoves(rest, ids[1..]);
      assert (set id | id in ids) == {ids[0]} + (set id | id in ids[1..]);
    }
  }

  /** The buffers of `found`, one after the other. */
  function OutputsOf(t: Table, found: seq<Session>): Bytes
    decreases |found|
  {
    if found == [] then []
    else (if found[0].output < |t.outputs| then t.outputs[found[0].output] else []) + OutputsOf(t, found[1..])
  }

  lemma AppendTwice(t: Table, h: Handle, a: Bytes, b: Bytes)
    requires h < |t.outputs|
    ensures AppendTo(AppendTo(t, h, a), h, b) == AppendTo(t, h, a + b)
  {
    assert t.outputs[h] + a + b == t.outputs[h] + (a + b);
  }

  lemma {:induction false} OutputsOfKept(t: Table, h: Handle, data: Bytes, found: seq<Session>)
    requires h < |t.outputs| && forall s :: s in found ==> s.output != h
    ensures OutputsOf(AppendTo(t, h, data), found) == OutputsOf(t, found)
    decreases |found|
  {
    if found != [] {
      assert found[0] in found;
      OutputsOfKept(t, h, data, found[1..]);
    }
  }

  /** Splicing buffers other than the target appends them in order and touches nothing else. */
  lemma {:induction false} SpliceAppends(t: Table, target: Handle, found: seq<Session>)
    requires target < |t.outputs| && forall s :: s in found ==> s.output != target && s.output < |t.outputs|
    ensures Splice(t, target, found) == AppendTo(t, target, OutputsOf(t, found))
    decreases |found|
  {
    if found == [] {
      assert t.outputs[target] + [] == t.outputs[target];
      assert t.outputs[target := t.outputs[target]] == t.outputs;
    } else {
      assert found[0] in found;
      var data := t.outputs[found[0].output];
      SpliceAppends(AppendTo(t, target, data), target, found[1..]);
      OutputsOfKept(t, target, data, found[1..]);
      AppendTwice(t, target, data, OutputsOf(t, found[1..]));
    }
  }

  /** What distinct ids collect are the live outputs, in list order. */
  lemma {:induction false} CollectedOutputs(t: Table, ids: seq<nat>)
    requires Valid(t) && Distinct(ids)
    ensures OutputsOf(t, Collect(t, ids).1) == LiveOutputs(t, ids)
    decreases |ids|
  {
    if ids != [] {
      var rest := ids[1..];
      assert Distinct(rest);
      if ids[0] in t.sessions {
        CollectedOutputs(Remove(t, ids[0]), rest);
        SameOutputs(Remove(t, ids[0]), t, Collect(Remove(t, ids[0]), rest).1);
        LiveOutputsRemove(t, ids[0], rest);
      } else {
        CollectedOutputs(t, rest);
      }
    }
  }

  lemma {:induction false} SameOutputs(t: Table, u: Table, found: seq<Session>)
    requires t.outputs == u.outputs
    ensures OutputsOf(t, found) == OutputsOf(u, found)
    decreases |found|
  {
    if found != [] {
      SameOutputs(t, u, found[1..]);
    }
  }

  lemma {:induction false} LiveOutputsRemove(t: Table, id: nat, ids: seq<nat>)
    requires id !in ids
    ensures LiveOutputs(Remove(t, id), ids) == LiveOutputs(t, ids)
    decreases |ids|
  {
    if ids != [] {
      assert ids[0] in ids;
      LiveOutputsRemove(t, id, ids[1..]);
    }
  }

  /** Where the merge stands when it has appended everything. */
  function Merged(t: Table, ids: seq<nat>): Table
    requires ids != [] && ids[0] in t.sessions && t.sessions[ids[0]].output < |t.outputs|
  {
    var (u, found) := Collect(t, ids[1..]);
    if t.sessions[ids[0]].output < |u.outputs| then Splice(u, t.sessions[ids[0]].output, found) else u
  }

  /** Distinct ids: the primary's output gains the live listed outputs in list order, exactly the other
      listed ids leave the table, missing ones are skipped, and everything else is as before. */
  lemma MergeEffect(t: Table, ids: seq<nat>)
    requires Valid(t) && Distinct(ids) && ids != [] && ids[0] in t.sessions
    ensures var (u, target) := (Merged(t, ids), t.sessions[ids[0]].output);
            && u.sessions == t.sessions - (set id | id in ids[1..])
            && u.outputs == t.outputs[target := t.outputs[target] + LiveOutputs(t, ids[1..])]
  {
    var rest := ids[1..];
    var target := t.sessions[ids[0]].output;
    CollectRemoves(t, rest);
    var (u, found) := Collect(t, rest);
    forall s | s in found ensures s.output != target && s.output < |t.outputs| {
      var id :| id in rest && id in t.sessions && t.sessions[id] == s;
      var k :| 0 <= k < |rest| && rest[k] == id;
      assert ids[k + 1] == id;
    }
    SpliceAppends(u, target, found);
    SameOutputs(t, u, found);
    CollectedOutputs(t, rest);
  }

  /** The other sessions and their outputs are as before. */
  ghost predicate SameElsewhere(t: Table, u: Table, ids: set<nat>) {
    forall k :: k in t.sessions && k !in ids ==>
      k in u.sessions && u.sessions[k] == t.sessions[k] && OutputOf(u, k) == OutputOf(t, k)
  }

  lemma SameThen(t: Table, u: Table, v: Table, a: set<nat>, b: set<nat>)
    requires SameElsewhere(t, u, a) && SameElsewhere(u, v, b)
    ensures SameElsewhere(t, v, a + b)
  {
  }

  lemma InsertFresh(t: Table, id: nat, input: Bytes, output: Bytes)
    requires Valid(t) && id !in t.sessions
    ensures var u := Insert(t, id, input, output);
            && Valid(u) && u.sessions.Keys == t.sessions.Keys + {id}
            && u.sessions[id] == Session(id, input, |t.outputs|) && OutputOf(u, id) == output
            && SameElsewhere(t, u, {})
  {
  }

  lemma RemoveKeeps(t: Table, id: nat)
    requires Valid(t)
    ensures var u := Remove(t, id);
            && Valid(u) && u.sessions.Keys == t.sessions.Keys - {id} && SameElsewhere(t, u, {id})
  {
  }

  lemma AppendToOutputs(t: Table, id: nat, data: Bytes)
    requires Valid(t) && id in t.sessions
    ensures var u := AppendTo(t, t.sessions[id].output, data);
            && Valid(u) && OutputOf(u, id) == OutputOf(t, id) + data && SameElsewhere(t, u, {id})
  {
  }

  /** What a split makes of the two new sessions. */
  ghost predicate SplitInto(t: Table, u: Table, id: nat, first: nat, second: nat) {
    && id in t.sessions && first in u.sessions && second in u.sessions
    && u.sessions.Keys == t.sessions.Keys - {id} + {first, second}
    && OutputOf(u, first) == OutputOf(t, id)[..|OutputOf(t, id)| / 2]
    && OutputOf(u, first) + OutputOf(u, second) == OutputOf(t, id)
    && u.sessions[first].input == t.sessions[id].input[..|t.sessions[id].input| / 2]
    && u.sessions[first].input + u.sessions[second].input == t.sessions[id].input
  }

  lemma Halved(t: Table, id: nat, first: nat, second: nat, in1: Bytes, in2: Bytes, out1: Bytes, out2: Bytes)
    requires Valid(t) && id in t.sessions && first != second && first !in t.sessions && second !in t.sessions
    ensures var u := Remove(Insert(Insert(t, first, in1, out1), second, in2, out2), id);
            && Valid(u) && u.sessions.Keys == t.sessions.Keys - {id} + {first, second}
            && OutputOf(u, first) == out1 && OutputOf(u, second) == out2
            && u.sessions[first].input == in1 && u.sessions[second].input == in2
            && SameElsewhere(t, u, {id})
  {
    var t2 := Insert(Insert(t, first, in1, out1), second, in2, out2);
    BothInserted(t, first, second, in1, in2, out1, out2);
    RemoveKeeps(t2, id);
    SameThen(t, t2, Remove(t2, id), {}, {id});
    assert {} + {id} == {id};
  }

  lemma BothInserted(t: Table, first: nat, second: nat, in1: Bytes, in2: Bytes, out1: Bytes, out2: Bytes)
    requires Valid(t) && first != second && first !in t.sessions && second !in t.sessions
    ensures var u := Insert(Insert(t, first, in1, out1), second, in2, out2);
            && Valid(u) && u.sessions.Keys == t.sessions.Keys + {first, second}
            && OutputOf(u, first) == out1 && OutputOf(u, second) == out2
            && u.sessions[first].input == in1 && u.sessions[second].input == in2
            && SameElsewhere(t, u, {})
  {
    var t1 := Insert(t, first, in1, out1);
    InsertFresh(t, first, in1, out1);
    InsertFresh(t1, second, in2, out2);
    SameThen(t, t1, Insert(t1, second, in2, out2), {}, {});
  }

  /** The two new sessions share out the old one's input and output; all others are untouched. */
  lemma SplitEffect(t: Table, id: nat, first: nat, second: nat)
    requires Valid(t) && id in t.sessions && first != second && first !in t.sessions && second !in t.sessions
    ensures var u := SplitAs(t, id, first, second);
            Valid(u) && SplitInto(t, u, id, first, second) && SameElsewhere(t, u, {id})
  {
    var (input, output) := (t.sessions[id].input, OutputOf(t, id));
    var (m, n) := (|input| / 2, |output| / 2);
    assert output[..n] + output[n..] == output && input[..m] + input[m..] == input;
    Halved(t, id, first, second, input[..m], input[m..], output[..n], output[n..]);
  }

  /** Below the limit a split gets two ids that were not in use. */
  lemma SplitIdsFresh(t: Table)
    requires t.sessions != map[] && forall k :: k in t.sessions ==> k + 2 < LIMIT
    ensures var first := NextId(t.sessions);
            && first !in t.sessions && first + 1 !in t.sessions && (first + 1) % LIMIT == first + 1
  {
    assert t.sessions.Keys != {};
    NextIdFresh(t.sessions, Max(t.sessions.Keys));
  }

  lemma MergeTwo(t: Table, first: nat, second: nat)
    requires Valid(t) && first in t.sessions && second in t.sessions && first != second
    ensures Merged(t, [first, second]) == Remove(AppendTo(t, t.sessions[first].output, OutputOf(t, second)), second)
  {
    var ids := [first, second];
    MergeEffect(t, ids);
    assert ids[1..] == [second] && (set k | k in ids[1..]) == {second};
    assert [second][1..] == [];
    assert LiveOutputs(t, [second]) == OutputOf(t, second) + LiveOutputs(t, []) == OutputOf(t, second);
  }

  /** Merging the two results of a split brings the output back; the other sessions are untouched.  The
      input is not restored: the merge drops the second half of it. */
  lemma SplitThenMerge(t: Table, id: nat, first: nat, second: nat)
    requires Valid(t) && id in t.sessions && first != second && first !in t.sessions && second !in t.sessions
    ensures var u := SplitAs(t, id, first, second);
            first in u.sessions && second in u.sessions && Valid(u)
    ensures var w := Merged(SplitAs(t, id, first, second), [first, second]);
            && w.sessions.Keys == t.sessions.Keys - {id} + {first}
            && OutputOf(w, first) == OutputOf(t, id)
            && w.sessions[first].input == t.sessions[id].input[..|t.sessions[id].input| / 2]
            && SameElsewhere(t, w, {id})
  {
    SplitEffect(t, id, first, second);
    var u := SplitAs(t, id, first, second);
    MergeTwo(u, first, second);
    var v := AppendTo(u, u.sessions[first].output, OutputOf(u, second));
    AppendToOutputs(u, first, OutputOf(u, second));
    RemoveKeeps(v, second);
  }
}
