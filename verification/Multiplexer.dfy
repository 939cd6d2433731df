/**
 The multiplexer object (src/pty/multiplexer.rs).  Its methods are proved against the functions of
 `SessionTable`; each is what one command does when nothing interrupts it.  Whether a write to the PTY
 succeeds is a parameter.
 */
module Multiplexer {
  import opened Basics
  import opened SessionTable

  datatype MultiplexerError = NotFound | NoIds | WriteFailed | ReadFailed

  /** `SelfWait`: the merge awaits a lock it holds, so the call never returns. */
  datatype MergeOutcome = Done | Refused(error: MultiplexerError) | SelfWait

  datatype PtyRead = Data(bytes: Bytes) | WouldBlock | Failed

  /** The ids in a list of sessions. */
  function Listed(r: seq<(nat, Bytes)>): set<nat> { set i | 0 <= i < |r| :: r[i].0 }

  lemma ListedMore(r: seq<(nat, Bytes)>, x: (nat, Bytes))
    ensures Listed(r + [x]) == Listed(r) + {x.0}
  {
    var more := r + [x];
    forall id | id in Listed(r) + {x.0} ensures id in Listed(more) {
      if id in Listed(r) {
        var i :| 0 <= i < |r| && r[i].0 == id;
        assert more[i].0 == id;
      } else {
        assert more[|r|].0 == id;
      }
    }
  }

  class PtyMultiplexer {
    var sessions: map<nat, Session>
    /** The output buffers, by handle. */
    var outputs: seq<Bytes>
    /** What was written to the PTY process. */
    var written: Bytes

    function View(): Table
      reads this
    {
      Table(sessions, outputs)
    }

    constructor ()
      ensures View() == Table(map[], []) && Valid(View()) && written == []
    {
      sessions, outputs, written := map[], [], [];
    }

    method FreeId() returns (id: nat)
      ensures id == NextId(sessions)
    {
      if sessions == map[] {
        return 1;
      }
      var keys := sessions.Keys;
      assert sessions.Keys != {};
      var max :| max in keys;
      keys := keys - {max};
      while keys != {}
        invariant keys <= sessions.Keys && max in sessions
        invariant forall k :: k in sessions && k !in keys ==> k <= max
        decreases keys
      {
        var key :| key in keys;
        if key > max {
          max := key;
        }
        keys := keys - {key};
      }
      assert max == Max(sessions.Keys);
      id := (max + 1) % LIMIT;
    }

    /** `DashMap::insert` of a session with a buffer of its own. */
    method InsertSession(id: nat, input: Bytes, output: Bytes)
      modifies this`sessions, this`outputs
      ensures View() == Insert(old(View()), id, input, output)
    {
      sessions := sessions[id := Session(id, input, |outputs|)];
      outputs := outputs + [output];
    }

    method CreateSession() returns (id: nat)
      requires Valid(View())
      modifies this
      ensures View() == Create(old(View())) && Valid(View()) && id == NextId(old(sessions)) && written == old(written)
    {
      id := FreeId();
      InsertSession(id, [], []);
    }

    method WriteData(data: Bytes, writes: bool) returns (r: Result<(), MultiplexerError>)
      modifies this`written
      ensures r == (if writes then Ok(()) else Err(WriteFailed)) && written == old(written) + if writes then data else []
    {
      if writes {
        written := written + data;
        return Ok(());
      }
      return Err(WriteFailed);
    }

    /** The input is logged before the write is tried. */
    method SendToSession(id: nat, data: Bytes, writes: bool) returns (r: Result<(), MultiplexerError>)
      requires Valid(View())
      modifies this
      ensures View() == Send(old(View()), id, data) && Valid(View())
      ensures r == if id !in old(sessions) then Err(NotFound) else if writes then Ok(()) else Err(WriteFailed)
      ensures written == old(written) + if r.Ok? then data else []
    {
      if id in sessions {
        sessions := sessions[id := sessions[id].(input := sessions[id].input + data)];
        r := WriteData(data, writes);
      } else {
        r := Err(NotFound);
      }
    }

    method BroadcastData(data: Bytes, writes: bool) returns (r: Result<(), MultiplexerError>)
      requires Valid(View())
      modifies this
      ensures View() == Broadcast(old(View()), data) && Valid(View())
      ensures r == (if writes then Ok(()) else Err(WriteFailed)) && written == old(written) + if writes then data else []
    {
      var keys := sessions.Keys;
      while keys != {}
        invariant keys <= sessions.Keys == old(sessions).Keys && outputs == old(outputs) && written == old(written)
        invariant forall id :: id in sessions ==>
          sessions[id] == if id in keys then old(sessions)[id] else old(sessions)[id].(input := old(sessions)[id].input + data)
        decreases keys
      {
        var id :| id in keys;
        sessions := sessions[id := sessions[id].(input := sessions[id].input + data)];
        keys := keys - {id};
      }
      r := WriteData(data, writes);
    }

    /** Everything the buffer holds is returned, and it is empty afterwards. */
    method ReadFromSession(id: nat) returns (r: Result<Bytes, MultiplexerError>)
      requires Valid(View())
      modifies this`outputs
      ensures Valid(View()) && r == if id in sessions then Ok(OutputOf(old(View()), id)) else Err(NotFound)
      ensures View() == if id in sessions then Clear(old(View()), sessions[id].output) else old(View())
    {
      if id in sessions {
        var data := outputs[sessions[id].output];
        outputs := outputs[sessions[id].output := []];
        r := Ok(data);
      } else {
        r := Err(NotFound);
      }
    }

    /** Every session once, with its output; nothing is drained. */
    method ReadAllSessions() returns (r: seq<(nat, Bytes)>)
      requires Valid(View())
      ensures forall i, j :: 0 <= i < j < |r| ==> r[i].0 != r[j].0
      ensures forall i :: 0 <= i < |r| ==> r[i].0 in sessions && r[i].1 == OutputOf(View(), r[i].0)
      ensures forall id :: id in sessions ==> exists i :: 0 <= i < |r| && r[i].0 == id
    {
      r := [];
      var keys := sessions.Keys;
      while keys != {}
        invariant keys <= sessions.Keys && Listed(r) == sessions.Keys - keys
        invariant forall i, j :: 0 <= i < j < |r| ==> r[i].0 != r[j].0
        invariant forall i :: 0 <= i < |r| ==> r[i].0 in sessions && r[i].1 == OutputOf(View(), r[i].0)
        decreases keys
      {
        var id :| id in keys;
        assert id !in Listed(r);
        ListedMore(r, (id, outputs[sessions[id].output]));
        r := r + [(id, outputs[sessions[id].output])];
        keys := keys - {id};
      }
      assert Listed(r) == sessions.Keys;
      assert forall id :: id in sessions ==> id in Listed(r);
    }

    method RemoveSession(id: nat) returns (r: Result<(), MultiplexerError>)
      requires Valid(View())
      modifies this`sessions
      ensures View() == Remove(old(View()), id) && Valid(View()) && r == if id in old(sessions) then Ok(()) else Err(NotFound)
    {
      if id in sessions {
        sessions := sessions - {id};
        r := Ok(());
      } else {
        assert sessions - {id} == sessions;
        r := Err(NotFound);
      }
    }

    method CloseAllSessions()
      modifies this`sessions
      ensures sessions == map[]
    {
      sessions := map[];
    }

    /** For every table and every list of ids the merge is refused or never returns; where it hangs, the
        listed sessions are gone and their outputs appended, up to a repeated primary. */
    method MergeSessions(ids: seq<nat>) returns (o: MergeOutcome)
      requires Valid(View())
      modifies this
      ensures o == if ids == [] then Refused(NoIds) else if ids[0] !in old(sessions) then Refused(NotFound) else SelfWait
      ensures View() == if o == SelfWait then Merged(old(View()), ids) else old(View())
    {
      if ids == [] {
        return Refused(NoIds);
      }
      var primaryId := ids[0];
      if primaryId !in sessions {
        return Refused(NotFound);
      }
      var primary := sessions[primaryId];
      ghost var entry := View();
      var toMerge := CollectSessions(ids[1..]);
      CollectRemoves(entry, ids[1..]);
      ghost var collected := View();
      var held: set<Handle> := {};
      var i := 0;
      assert toMerge[0..] == toMerge;
      while i < |toMerge|
        invariant 0 <= i <= |toMerge| && held == {} && sessions == collected.sessions && |outputs| == |collected.outputs|
        invariant Splice(View(), primary.output, toMerge[i..]) == Splice(collected, primary.output, toMerge)
        invariant forall k :: 0 <= k < i ==> toMerge[k].output != primary.output
      {
        assert toMerge[i..][1..] == toMerge[i + 1..];
        held := {primary.output};
        if toMerge[i].output in held {
          return SelfWait;
        }
        assert toMerge[i] in toMerge;
        outputs := outputs[primary.output := outputs[primary.output] + outputs[toMerge[i].output]];
        held := {};
        i := i + 1;
      }
      assert toMerge[i..] == [];
      PrimaryStays(entry, ids, toMerge);
      if primaryId in sessions {
        sessions := sessions[primaryId := sessions[primaryId].(input := primary.input)];
        held := {sessions[primaryId].output};
        o := CopyBuffer(sessions[primaryId].output, primary.output, held);
        return;
      }
      return Done;
    }

    /** One buffer becomes a copy of another, whose lock is taken while `held` are held. */
    method CopyBuffer(target: Handle, source: Handle, held: set<Handle>) returns (o: MergeOutcome)
      requires target < |outputs| && source < |outputs|
      modifies this`outputs
      ensures o == if source in held then SelfWait else Done
      ensures outputs == if source in held then old(outputs) else old(outputs)[target := old(outputs)[source]]
    {
      if source in held {
        return SelfWait;
      }
      outputs := outputs[target := outputs[source]];
      return Done;
    }

    /** The listed sessions are taken out of the table, in order. */
    method CollectSessions(ids: seq<nat>) returns (found: seq<Session>)
      modifies this`sessions
      ensures (View(), found) == Collect(old(View()), ids)
    {
      found := [];
      assert ids[0..] == ids && [] + Collect(View(), ids).1 == Collect(View(), ids).1;
      for i := 0 to |ids|
        invariant outputs == old(outputs)
        invariant Collect(View(), ids[i..]).0 == Collect(old(View()), ids).0
        invariant found + Collect(View(), ids[i..]).1 == Collect(old(View()), ids).1
      {
        assert ids[i..][1..] == ids[i + 1..];
        if ids[i] in sessions {
          ghost var rest := Collect(Remove(View(), ids[i]), ids[i + 1..]).1;
          assert found + ([sessions[ids[i]]] + rest) == found + [sessions[ids[i]]] + rest;
          found := found + [sessions[ids[i]]];
          sessions := sessions - {ids[i]};
        }
      }
      assert ids[|ids|..] == [] && found + [] == found;
    }

    method SplitSession(id: nat) returns (r: Result<(nat, nat), MultiplexerError>)
      requires Valid(View())
      modifies this
      ensures r == if id !in old(sessions) then Err(NotFound)
                   else Ok((NextId(old(sessions)), (NextId(old(sessions)) + 1) % LIMIT))
      ensures View() == if r.Ok? then Split(old(View()), id) else old(View())
    {
      if id !in sessions {
        return Err(NotFound);
      }
      var clone := sessions[id];
      var inputHalf := |clone.input| / 2;
      var outputHalf := |outputs[clone.output]| / 2;
      var input1, input2 := clone.input[..inputHalf], clone.input[inputHalf..];
      var output1 := outputs[clone.output][..outputHalf];
      var output2 := outputs[clone.output][outputHalf..];
      var first := FreeId();
      InsertSession(first, input1, output1);
      var second := (first + 1) % LIMIT;
      InsertSession(second, input2, output2);
      sessions := sessions - {id};
      return Ok((first, second));
    }

    /** A chunk goes to every buffer of the snapshot, in whatever order their locks are had. */
    method DispatchOutput(data: Bytes)
      requires Valid(View())
      modifies this`outputs
      ensures View() == Dispatch(old(View()), data) && Valid(View())
    {
      var pending := set id | id in sessions :: sessions[id].output;
      ghost var live := Live(View());
      while pending != {}
        invariant pending <= live && |outputs| == |old(outputs)|
        invariant forall h :: 0 <= h < |outputs| ==>
          outputs[h] == if h in live && h !in pending then old(outputs)[h] + data else old(outputs)[h]
        decreases pending
      {
        var h :| h in pending;
        outputs := outputs[h := outputs[h] + data];
        pending := pending - {h};
      }
    }

    /** `read_and_dispatch`: only a read that brings bytes is dispatched. */
    method ReadAndDispatch(read: PtyRead) returns (r: Result<(), MultiplexerError>)
      requires Valid(View())
      modifies this`outputs
      ensures Valid(View()) && r == if read.Failed? then Err(ReadFailed) else Ok(())
      ensures View() == if read.Data? && read.bytes != [] then Dispatch(old(View()), read.bytes) else old(View())
    {
      match read
      case Data(bytes) =>
        if bytes != [] {
          DispatchOutput(bytes);
        }
        r := Ok(());
      case WouldBlock => r := Ok(());
      case Failed => r := Err(ReadFailed);
    }
  }

  /** When none of the collected sessions is the primary's own, the primary is still in the table. */
  lemma PrimaryStays(t: Table, ids: seq<nat>, found: seq<Session>)
    requires Valid(t) && ids != [] && ids[0] in t.sessions && found == Collect(t, ids[1..]).1
    requires forall k :: 0 <= k < |found| ==> found[k].output != t.sessions[ids[0]].output
    ensures var u := Collect(t, ids[1..]).0; ids[0] in u.sessions && u.sessions[ids[0]] == t.sessions[ids[0]]
  {
    CollectRemoves(t, ids[1..]);
    if ids[0] in ids[1..] {
      CollectFinds(t, ids[1..], ids[0]);
    }
  }

  lemma {:induction false} CollectFinds(t: Table, ids: seq<nat>, id: nat)
    requires id in ids && id in t.sessions
    ensures t.sessions[id] in Collect(t, ids).1
    decreases |ids|
  {
    if ids[0] != id {
      CollectFinds(if ids[0] in t.sessions then Remove(t, ids[0]) else t, ids[1..], id);
    }
  }
}
