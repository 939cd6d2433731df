/**
 What single operations of the multiplexer do to the sessions, told from the sessions themselves
 (src/pty/multiplexer.rs): who has which id, input and output before and after.
 */
module SessionSteps {
  import opened Basics
  import opened SessionTable
  import opened SessionMachine
  import opened Delivery

  /** Nothing but the table and the buffers' histories has moved. */
  predicate OnlyTable(m: Machine, n: Machine) {
    && n.readers == m.readers && n.chunks == m.chunks && n.snapshots == m.snapshots
    && n.command == m.command && n.creates == m.creates && n.splits == m.splits
  }

  /** `t` and its extension by exactly some data. */
  predicate Extends(before: Bytes, after: Bytes, data: Bytes) {
    |after| == |before| + |data| && after[..|before|] == before && after[|before|..] == data
  }

  /** A drain takes all a buffer holds, once: it is empty afterwards, its bytes are the last drained, and
      nothing else has changed. */
  lemma DrainTakesAll(m: Machine, id: nat)
    requires Inv(m) && m.command == Ready && id in m.table.sessions
    ensures var (n, h) := (Next(m, DrainSession(id)), m.table.sessions[id].output);
            && |n.table.outputs| == |m.table.outputs| && |n.history| == |m.history|
            && n.table.outputs[h] == []
            && Extends(m.history[h].drained, n.history[h].drained, m.table.outputs[h])
            && n.history[h].start == m.history[h].start && n.history[h].log == m.history[h].log
            && n.table.sessions == m.table.sessions && OnlyTable(m, n)
            && forall g :: 0 <= g < |m.table.outputs| && g != h ==>
                 n.table.outputs[g] == m.table.outputs[g] && n.history[g] == m.history[g]
  {
  }

  lemma DrainUnknown(m: Machine, id: nat)
    requires m.command == Ready && id !in m.table.sessions
    ensures Next(m, DrainSession(id)) == m
  {
  }

  /** So the next drain meets only what was appended in between: nothing, if nothing was. */
  lemma DrainTwice(m: Machine, id: nat)
    requires Inv(m) && m.command == Ready && id in m.table.sessions
    ensures Enabled(Next(m, DrainSession(id)), DrainSession(id))
    ensures Next(Next(m, DrainSession(id)), DrainSession(id)) == Next(m, DrainSession(id))
  {
    var n := Next(m, DrainSession(id));
    DrainTakesAll(m, id);
    StepKeeps(m, DrainSession(id));
    var o := Next(n, DrainSession(id));
    DrainTakesAll(n, id);
    assert o.table.outputs == n.table.outputs && o.history == n.history;
  }

  /** Exactly the removed id is gone; buffers stay, as someone may still append to them. */
  lemma RemoveTakesOne(m: Machine, id: nat)
    requires m.command == Ready
    ensures var n := Next(m, RemoveSession(id));
            && n.table.outputs == m.table.outputs && n.history == m.history && OnlyTable(m, n)
            && id !in n.table.sessions
            && forall k :: k != id ==>
                 (k in n.table.sessions <==> k in m.table.sessions)
                 && (k in m.table.sessions ==> n.table.sessions[k] == m.table.sessions[k])
  {
  }

  lemma CloseTakesAll(m: Machine)
    requires m.command == Ready
    ensures var n := Next(m, CloseAll);
            && n.table.outputs == m.table.outputs && n.history == m.history && OnlyTable(m, n)
            && forall k :: k !in n.table.sessions
  {
  }

  /** Only the addressed session's input is longer, by the new data at its end. */
  lemma SendReachesOne(m: Machine, id: nat, data: Bytes)
    requires m.command == Ready && id in m.table.sessions
    ensures var n := Next(m, SendTo(id, data));
            && n.table.outputs == m.table.outputs && n.history == m.history && OnlyTable(m, n)
            && n.table.sessions.Keys == m.table.sessions.Keys
            && Extends(m.table.sessions[id].input, n.table.sessions[id].input, data)
            && n.table.sessions[id].streamId == m.table.sessions[id].streamId
            && n.table.sessions[id].output == m.table.sessions[id].output
            && forall k :: k in m.table.sessions && k != id ==> n.table.sessions[k] == m.table.sessions[k]
  {
  }

  lemma SendUnknown(m: Machine, id: nat, data: Bytes)
    requires m.command == Ready && id !in m.table.sessions
    ensures Next(m, SendTo(id, data)) == m
  {
  }

  lemma BroadcastReachesAll(m: Machine, data: Bytes)
    requires m.command == Ready
    ensures var n := Next(m, BroadcastAll(data));
            && n.table.outputs == m.table.outputs && n.history == m.history && OnlyTable(m, n)
            && n.table.sessions.Keys == m.table.sessions.Keys
            && forall k :: k in m.table.sessions ==>
                 && Extends(m.table.sessions[k].input, n.table.sessions[k].input, data)
                 && n.table.sessions[k].streamId == m.table.sessions[k].streamId
                 && n.table.sessions[k].output == m.table.sessions[k].output
  {
  }

  /** The id of a new session: 1 in an empty table, otherwise one more than the largest, in 32 bits. */
  lemma NewId(sessions: map<nat, Session>)
    ensures sessions == map[] ==> NextId(sessions) == 1
    ensures sessions != map[] ==>
      exists id :: id in sessions && (forall k :: k in sessions ==> k <= id)
        && NextId(sessions) == if id < 0xFFFF_FFFF then id + 1 else (id + 1) % 0x1_0000_0000
  {
    if sessions != map[] {
      var id := Max(sessions.Keys);
      assert id in sessions;
    }
  }

  /** A created session is empty, under that id, with a buffer nobody else has; all others stay. */
  lemma CreateAddsOne(m: Machine)
    requires Inv(m) && m.command == Ready && NextId(m.table.sessions) !in m.table.sessions
    ensures var (n, id) := (Next(m, CreateSession), NextId(m.table.sessions));
            && n.table.sessions.Keys == m.table.sessions.Keys + {id}
            && n.table.sessions[id] == Session(id, [], |m.table.outputs|)
            && n.table.outputs == m.table.outputs + [[]] && n.history == m.history + [History([], [], [])]
            && (forall k :: k in m.table.sessions ==>
                  n.table.sessions[k] == m.table.sessions[k] && n.table.sessions[k].output != |m.table.outputs|)
            && n.creates == m.creates + 1 && n.splits == m.splits && n.command == Ready
            && n.readers == m.readers && n.chunks == m.chunks && n.snapshots == m.snapshots
  {
  }

  /** A read marks its chunk for every session's buffer, and for no other. */
  lemma ReadMarksAll(m: Machine, r: nat, chunk: Bytes)
    requires Inv(m) && Enabled(m, Read(r, chunk))
    ensures var n := Next(m, Read(r, chunk));
            && n.table == m.table && n.history == m.history && n.command == m.command
            && |n.chunks| == |m.chunks| + 1 && n.chunks[|m.chunks|] == chunk
            && (forall id :: id in m.table.sessions ==> Pending(n, |m.chunks|, m.table.sessions[id].output))
            && (forall h :: Pending(n, |m.chunks|, h) ==>
                  exists id :: id in m.table.sessions && m.table.sessions[id].output == h)
  {
    ReadPending(m, r, chunk);
  }

  /** An append puts the whole chunk at the end of one buffer, for the waiting reader, and nothing else. */
  lemma AppendAddsChunk(m: Machine, r: nat, h: Handle)
    requires Inv(m) && Enabled(m, Append(r, h))
    ensures var (n, k) := (Next(m, Append(r, h)), m.readers[r].chunk);
            && k < |m.chunks| && h < |m.table.outputs| && |n.table.outputs| == |m.table.outputs|
            && Extends(m.table.outputs[h], n.table.outputs[h], m.chunks[k])
            && (forall g :: 0 <= g < |m.table.outputs| && g != h ==> n.table.outputs[g] == m.table.outputs[g])
            && n.table.sessions == m.table.sessions && n.command == m.command
            && !(r in n.readers && h in n.readers[r].pending)
  {
    AppendShape(m, r, h);
  }

  /** A merge that holds the primary's lock keeps every reader from that buffer, and only from that. */
  lemma LockKeepsReadersOut(m: Machine, r: nat, h: Handle)
    requires m.command.MergeHolding? && r in m.readers && h in m.readers[r].pending
    ensures Enabled(m, Append(r, h)) <==> h != m.command.clone.output
  {
  }

  /** While a command is under way no other begins, and without one readers always get on; a reader without
      a chunk under way may read at any time. */
  lemma CommandsAreSerial(m: Machine, id: nat, data: Bytes, ids: seq<nat>)
    ensures m.command != Ready ==>
      && !Enabled(m, CreateSession) && !Enabled(m, SendTo(id, data)) && !Enabled(m, BroadcastAll(data))
      && !Enabled(m, DrainSession(id)) && !Enabled(m, RemoveSession(id)) && !Enabled(m, CloseAll)
      && !Enabled(m, BeginSplit(id)) && !Enabled(m, BeginMerge(ids))
    ensures m.command == Ready ==>
      forall r, h :: r in m.readers && h in m.readers[r].pending ==> Enabled(m, Append(r, h))
    ensures data != [] ==> forall r: nat :: r !in m.readers <==> Enabled(m, Read(r, data))
  {
  }

  /** A dispatched chunk is at the end of every session's output; inputs and ids stay. */
  lemma DispatchReachesAll(t: Table, data: Bytes)
    requires Valid(t)
    ensures var u := Dispatch(t, data);
            && u.sessions == t.sessions
            && forall id :: id in t.sessions ==> Extends(OutputOf(t, id), OutputOf(u, id), data)
  {
    forall id | id in t.sessions ensures Extends(OutputOf(t, id), OutputOf(Dispatch(t, data), id), data) {
      assert t.sessions[id].output in Live(t);
    }
  }

  /** A read of a session returns its output and empties it; all other outputs stay. */
  lemma ClearEmpties(t: Table, id: nat)
    requires Valid(t) && id in t.sessions
    ensures var u := Clear(t, t.sessions[id].output);
            && u.sessions == t.sessions && OutputOf(u, id) == []
            && forall k :: k in t.sessions && k != id ==> OutputOf(u, k) == OutputOf(t, k)
  {
  }

  /** A split measures the middle of the output as it is at that moment. */
  lemma MeasureIsHalf(m: Machine)
    requires m.command.SplitMeasure? && m.command.clone.output < |m.table.outputs|
    ensures var (n, size) := (AdvanceCommand(m), |m.table.outputs[m.command.clone.output]|);
            n.command.SplitFirst? && 2 * n.command.half <= size <= 2 * n.command.half + 1
  {
  }

  lemma LiveOutputOfOne(t: Table, id: nat)
    ensures LiveOutputs(t, [id]) == OutputOf(t, id)
  {
    assert [id][1..] == [] && OutputOf(t, id) + [] == OutputOf(t, id);
  }

  /** The outputs a merge appends come in the order of its list, one after the other. */
  lemma {:induction false} LiveOutputsInOrder(t: Table, a: seq<nat>, b: seq<nat>)
    ensures LiveOutputs(t, a + b) == LiveOutputs(t, a) + LiveOutputs(t, b)
    decreases |a|
  {
    if a == [] {
      assert a + b == b && [] + LiveOutputs(t, b) == LiveOutputs(t, b);
    } else {
      assert (a + b)[0] == a[0] && (a + b)[1..] == a[1..] + b;
      LiveOutputsInOrder(t, a[1..], b);
      assert OutputOf(t, a[0]) + (LiveOutputs(t, a[1..]) + LiveOutputs(t, b))
          == OutputOf(t, a[0]) + LiveOutputs(t, a[1..]) + LiveOutputs(t, b);
    }
  }
}
