/**
 Theorems about whole runs of the session machine: order and completeness of delivery, the split
 under interleaving, the merge that never returns, and the session ids.
 */
module Runs {
  import opened Basics
  import opened SessionTable
  import opened SessionMachine
  import opened Delivery

  // ----- delivery with one reader -----------------------------------------------------------------

  /** The chunks of a log, in the order they were appended. */
  function ChunkIds(log: seq<Piece>): seq<nat> {
    if log == [] then []
    else ChunkIds(log[..|log| - 1]) + (if log[|log| - 1].Chunk? then [log[|log| - 1].index] else [])
  }

  /** The first `n` chunks, in the order they were read, whose snapshot held the buffer and whose append
      has run. */
  function DeliveredTo(m: Machine, h: Handle, n: nat): seq<nat>
    requires n <= |m.snapshots|
  {
    if n == 0 then []
    else DeliveredTo(m, h, n - 1) + (if h in m.snapshots[n - 1] && !Pending(m, n - 1, h) then [n - 1] else [])
  }

  function ChunkBytes(ids: seq<nat>, chunks: seq<Bytes>): Bytes {
    if ids == [] then []
    else ChunkBytes(ids[..|ids| - 1], chunks) + (if ids[|ids| - 1] < |chunks| then chunks[ids[|ids| - 1]] else [])
  }

  ghost predicate OneReader(m: Machine, r: nat) {
    m.readers.Keys <= {r} && (r in m.readers ==> m.readers[r].chunk == |m.chunks| - 1)
  }

  ghost predicate InOrder(m: Machine) {
    && |m.snapshots| == |m.chunks|
    && forall h :: 0 <= h < |m.history| ==> ChunkIds(m.history[h].log) == DeliveredTo(m, h, |m.chunks|)
  }

  lemma {:induction false} DeliveredSame(m: Machine, n: Machine, h: Handle, k: nat)
    requires k <= |m.snapshots| && k <= |n.snapshots|
    requires forall i: nat :: i < k ==> m.snapshots[i] == n.snapshots[i] && Pending(m, i, h) == Pending(n, i, h)
    ensures DeliveredTo(m, h, k) == DeliveredTo(n, h, k)
  {
    if k > 0 {
      DeliveredSame(m, n, h, k - 1);
    }
  }

  lemma {:induction false} DeliveredNone(m: Machine, h: Handle, k: nat)
    requires k <= |m.snapshots| && forall i :: 0 <= i < k ==> h !in m.snapshots[i]
    ensures DeliveredTo(m, h, k) == []
  {
    if k > 0 {
      DeliveredNone(m, h, k - 1);
    }
  }

  lemma ChunkIdsMore(log: seq<Piece>, p: Piece)
    ensures ChunkIds(log + [p]) == ChunkIds(log) + if p.Chunk? then [p.index] else []
  {
    assert (log + [p])[..|log|] == log;
  }

  /** Steps that leave readers and chunks alone and log no chunk. */
  ghost predicate NoChunkLogged(m: Machine, n: Machine) {
    && n.chunks == m.chunks && n.snapshots == m.snapshots && n.readers == m.readers
    && |m.history| <= |n.history|
    && (forall h :: 0 <= h < |m.history| ==> ChunkIds(n.history[h].log) == ChunkIds(m.history[h].log))
    && (forall h :: |m.history| <= h < |n.history| ==> n.history[h].log == [])
  }

  lemma NoChunkInOrder(m: Machine, n: Machine, r: nat)
    requires Shape(m) && OneReader(m, r) && InOrder(m) && NoChunkLogged(m, n)
    ensures OneReader(n, r) && InOrder(n)
  {
    forall h | 0 <= h < |n.history| ensures ChunkIds(n.history[h].log) == DeliveredTo(n, h, |n.chunks|) {
      assert forall i: nat :: Pending(m, i, h) == Pending(n, i, h);
      DeliveredSame(m, n, h, |n.chunks|);
      if h >= |m.history| {
        DeliveredNone(m, h, |m.chunks|);
      }
    }
  }

  lemma AppendAt(m: Machine, r: nat, h: Handle, g: Handle)
    requires Shape(m) && OneReader(m, r) && InOrder(m) && Enabled(m, Append(r, h)) && g < |m.history|
    ensures var n := Next(m, Append(r, h));
            |n.history| == |m.history| && |n.snapshots| == |n.chunks| == |m.chunks|
            && ChunkIds(n.history[g].log) == DeliveredTo(n, g, |n.chunks|)
  {
    var n := Next(m, Append(r, h));
    var c := |m.chunks| - 1;
    AppendPending(m, r, h);
    ChunkIdsMore(m.history[h].log, Chunk(c));
    DeliveredSame(m, n, g, c);
    assert DeliveredTo(n, g, c + 1) == DeliveredTo(n, g, c) + (if g in m.snapshots[c] && !Pending(n, c, g) then [c] else []);
    assert DeliveredTo(m, g, c + 1) == DeliveredTo(m, g, c) + (if g in m.snapshots[c] && !Pending(m, c, g) then [c] else []);
  }

  lemma AppendInOrder(m: Machine, r: nat, h: Handle)
    requires Shape(m) && OneReader(m, r) && InOrder(m) && Enabled(m, Append(r, h))
    ensures OneReader(Next(m, Append(r, h)), r) && InOrder(Next(m, Append(r, h)))
  {
    var n := Next(m, Append(r, h));
    AppendAt(m, r, h, h);
    forall g | 0 <= g < |n.history| ensures ChunkIds(n.history[g].log) == DeliveredTo(n, g, |n.chunks|) {
      AppendAt(m, r, h, g);
    }
  }

  lemma ReadInOrder(m: Machine, r: nat, chunk: Bytes)
    requires Shape(m) && OneReader(m, r) && InOrder(m) && Enabled(m, Read(r, chunk))
    ensures OneReader(Next(m, Read(r, chunk)), r) && InOrder(Next(m, Read(r, chunk)))
  {
    var n := Next(m, Read(r, chunk));
    ReadPending(m, r, chunk);
    forall g | 0 <= g < |n.history| ensures ChunkIds(n.history[g].log) == DeliveredTo(n, g, |n.chunks|) {
      DeliveredSame(m, n, g, |m.chunks|);
    }
  }

  lemma SpliceLogsNoChunk(m: Machine, h: Handle, bytes: Bytes, command: Command)
    ensures NoChunkLogged(m, Extended(m, h, Spliced(bytes), bytes).(command := command))
  {
    if h < |m.history| {
      ChunkIdsMore(m.history[h].log, Spliced(bytes));
    }
  }

  lemma AdvanceLogsNoChunk(m: Machine)
    ensures NoChunkLogged(m, AdvanceCommand(m))
  {
    if m.command.MergeHolding? && m.command.found != [] {
      var (primary, clone, found) := (m.command.primary, m.command.clone, m.command.found);
      SpliceLogsNoChunk(m, clone.output, OutputAt(m, found[0].output), MergeLoop(primary, clone, found[1..]));
    }
  }

  lemma CommandLogsNoChunk(m: Machine, a: Action)
    requires Enabled(m, a) && !a.Read? && !a.Append?
    ensures NoChunkLogged(m, Next(m, a))
  {
    if a.Advance? {
      AdvanceLogsNoChunk(m);
    }
  }

  lemma StepInOrder(m: Machine, a: Action, r: nat)
    requires Inv(m) && OneReader(m, r) && InOrder(m) && Enabled(m, a) && (a.Read? ==> a.reader == r)
    ensures OneReader(Next(m, a), r) && InOrder(Next(m, a))
  {
    match a {
      case Append(q, h) => AppendInOrder(m, r, h);
      case Read(q, chunk) => ReadInOrder(m, r, chunk);
      case _ =>
        CommandLogsNoChunk(m, a);
        NoChunkInOrder(m, Next(m, a), r);
    }
  }

  ghost predicate ReadsBy(run: seq<Action>, r: nat) { forall i :: 0 <= i < |run| && run[i].Read? ==> run[i].reader == r }

  lemma {:induction false} RunInOrder(m: Machine, run: seq<Action>, r: nat)
    requires Inv(m) && OneReader(m, r) && InOrder(m) && ReadsBy(run, r) && Exec(m, run).Some?
    ensures InOrder(Exec(m, run).value)
    decreases |run|
  {
    if run != [] {
      StepInOrder(m, run[0], r);
      StepKeeps(m, run[0]);
      assert ReadsBy(run[1..], r);
      RunInOrder(Next(m, run[0]), run[1..], r);
    }
  }

  ghost predicate Unspliced(m: Machine) {
    && (forall h, p :: 0 <= h < |m.history| && p in m.history[h].log ==> p.Chunk?)
    && !m.command.MergeCollect? && !m.command.MergeLoop? && !m.command.MergeHolding? && !m.command.MergeFinal?
  }

  lemma {:induction false} RunUnspliced(m: Machine, run: seq<Action>)
    requires Unspliced(m) && Exec(m, run).Some? && forall i :: 0 <= i < |run| ==> !run[i].BeginMerge?
    ensures Unspliced(Exec(m, run).value)
    decreases |run|
  {
    if run != [] {
      assert !run[0].BeginMerge?;
      RunUnspliced(Next(m, run[0]), run[1..]);
    }
  }

  lemma {:induction false} ContentOfChunks(log: seq<Piece>, chunks: seq<Bytes>)
    requires forall p :: p in log ==> p.Chunk?
    ensures Content(log, chunks) == ChunkBytes(ChunkIds(log), chunks)
  {
    if log != [] {
      var ids := ChunkIds(log[..|log| - 1]);
      var k := log[|log| - 1].index;
      assert log[|log| - 1] in log;
      ContentOfChunks(log[..|log| - 1], chunks);
      assert (ids + [k])[..|ids|] == ids;
    }
  }

  /** One reader, no merge, any interleaving with everything else: what a buffer ever held, drained or
      still there, is what it started with followed by exactly the chunks whose snapshot contained it and
      whose append has run, in the order they were read. */
  lemma OneReaderDelivery(run: seq<Action>, r: nat, m: Machine, h: Handle)
    requires Exec(INITIAL, run) == Some(m) && ReadsBy(run, r) && h < |m.table.outputs|
    requires forall i :: 0 <= i < |run| ==> !run[i].BeginMerge?
    ensures |m.history| == |m.table.outputs| && |m.snapshots| == |m.chunks|
    ensures m.history[h].drained + m.table.outputs[h]
         == m.history[h].start + ChunkBytes(DeliveredTo(m, h, |m.chunks|), m.chunks)
  {
    RunKeeps(INITIAL, run);
    RunInOrder(INITIAL, run, r);
    RunUnspliced(INITIAL, run);
    ContentOfChunks(m.history[h].log, m.chunks);
  }

  // ----- several readers --------------------------------------------------------------------------

  lemma {:induction false} CountChunk(log: seq<Piece>, k: nat)
    ensures multiset(ChunkIds(log))[k] == multiset(log)[Chunk(k)]
  {
    if log != [] {
      var init := log[..|log| - 1];
      CountChunk(init, k);
      assert log == init + [log[|log| - 1]];
    }
  }

  /** Any number of readers: once no append is outstanding, two buffers that were in the same snapshots
      hold the same chunks, each exactly once; only their order may differ. */
  lemma EqualShares(m: Machine, h: Handle, g: Handle)
    requires Reachable(m) && m.readers == map[] && h < |m.table.outputs| && g < |m.table.outputs|
    requires forall k :: 0 <= k < |m.snapshots| ==> (h in m.snapshots[k] <==> g in m.snapshots[k])
    ensures |m.history| == |m.table.outputs| && |m.snapshots| == |m.chunks|
    ensures multiset(ChunkIds(m.history[h].log)) == multiset(ChunkIds(m.history[g].log))
    ensures forall k :: 0 <= k < |m.chunks| ==>
      multiset(ChunkIds(m.history[h].log))[k] == if h in m.snapshots[k] then 1 else 0
  {
    ReachableInv(m);
    forall k: nat
      ensures multiset(ChunkIds(m.history[h].log))[k] == multiset(ChunkIds(m.history[g].log))[k]
      ensures k < |m.chunks| ==> multiset(ChunkIds(m.history[h].log))[k] == if h in m.snapshots[k] then 1 else 0
    {
      CountChunk(m.history[h].log, k);
      CountChunk(m.history[g].log, k);
      if k < |m.chunks| {
        assert !Pending(m, k, h) && !Pending(m, k, g);
      } else {
        UnknownChunk(m.history[h].log, |m.chunks|, k);
        UnknownChunk(m.history[g].log, |m.chunks|, k);
      }
    }
  }

  lemma UnknownChunk(log: seq<Piece>, n: nat, k: nat)
    requires KnownChunks(log, n) && n <= k
    ensures multiset(log)[Chunk(k)] == 0
  {
    assert Chunk(k) !in log;
    assert Chunk(k) !in multiset(log);
  }

  /** What a reader still has to append. */
  function LeftOf(m: Machine, r: nat): set<Handle> { if r in m.readers then m.readers[r].pending else {} }

  /** Part of a chunk's appends have run since the table was `t`. */
  ghost predicate PartlyDispatched(m: Machine, t: Table, r: nat, data: Bytes) {
    && m.table.sessions == t.sessions && |m.history| == |m.table.outputs| == |t.outputs|
    && LeftOf(m, r) <= Live(t)
    && (r in m.readers ==> m.readers[r].chunk < |m.chunks| && m.chunks[m.readers[r].chunk] == data)
    && forall h :: 0 <= h < |t.outputs| ==>
         m.table.outputs[h] == if h in Live(t) && h !in LeftOf(m, r) then t.outputs[h] + data else t.outputs[h]
  }

  lemma {:induction false} DispatchRest(m: Machine, t: Table, r: nat, data: Bytes, run: seq<Action>, n: Machine)
    requires PartlyDispatched(m, t, r, data) && Exec(m, run) == Some(n) && LeftOf(n, r) == {}
    requires forall i :: 0 <= i < |run| ==> run[i].Append? && run[i].reader == r
    ensures n.table == Dispatch(t, data)
    decreases |run|
  {
    if run == [] {
      assert n.table.outputs == Dispatch(t, data).outputs;
    } else {
      assert run[0].Append? && run[0].reader == r;
      DispatchRest(Next(m, run[0]), t, r, data, run[1..], n);
    }
  }

  /** Uninterrupted, a reader's steps make of the table what `Dispatch` says, whatever their order. */
  lemma {:induction false} DispatchAlone(m: Machine, r: nat, chunk: Bytes, run: seq<Action>, n: Machine)
    requires Reachable(m) && Enabled(m, Read(r, chunk)) && Exec(Next(m, Read(r, chunk)), run) == Some(n)
    requires forall i :: 0 <= i < |run| ==> run[i].Append? && run[i].reader == r
    requires r !in n.readers
    ensures n.table == Dispatch(m.table, chunk)
  {
    ReachableInv(m);
    DispatchRest(Next(m, Read(r, chunk)), m.table, r, chunk, run, n);
  }

  // ----- split under interleaving -------------------------------------------------------------------

  /** No run makes a split slice out of range. */
  lemma SplitInRange(m: Machine)
    requires Reachable(m)
    ensures m.command != Panicked
  {
    ReachableInv(m);
  }

  /** A drain between the captures, which only the serial command loop rules out, would. */
  lemma ForeignDrainPanics(m: Machine)
    requires m.command.SplitFirst? && m.command.half > 0
    requires |m.history| == |m.table.outputs| && m.command.clone.output < |m.table.outputs|
    ensures AdvanceCommand(DrainedAt(m, m.command.clone.output)).command == Panicked
  {
  }

  function AdvancesLeft(c: Command): nat {
    if c.SplitInsertFirst? then 2 else if c.SplitInsertSecond? then 1 else 0
  }

  function CountAdvance(run: seq<Action>): nat
    decreases |run|
  {
    if run == [] then 0 else (if run[0].Advance? then 1 else 0) + CountAdvance(run[1..])
  }

  /** A session of the table owns buffer `h`, which started with these bytes. */
  ghost predicate Owns(m: Machine, id: nat, h: Handle, start: Bytes) {
    id in m.table.sessions && m.table.sessions[id].output == h && h < |m.history| && m.history[h].start == start
  }

  /** The two halves on their way into the table; their buffers are the ones from `k` on. */
  ghost predicate SplitCarries(m: Machine, k: nat, one: Bytes, two: Bytes) {
    match m.command
    case SplitInsertFirst(_, _, first, second) => |m.history| == k && first == one && second == two
    case SplitInsertSecond(_, _, firstId, second) => |m.history| == k + 1 && Owns(m, firstId, k, one) && second == two
    case SplitRemove(_) => |m.history| == k + 2 && exists id: nat :: Owns(m, id, k, one) && Owns(m, (id + 1) % LIMIT, k + 1, two)
    case _ => false
  }

  lemma SplitCarriesAdvance(m: Machine, k: nat, one: Bytes, two: Bytes)
    requires Shape(m) && SplitCarries(m, k, one, two) && !m.command.SplitRemove?
    ensures SplitCarries(AdvanceCommand(m), k, one, two)
    ensures AdvancesLeft(AdvanceCommand(m).command) == AdvancesLeft(m.command) - 1
  {
    var n := AdvanceCommand(m);
    if m.command.SplitInsertFirst? {
      assert Owns(n, n.command.firstId, k, one);
    } else {
      var id := m.command.firstId;
      assert Owns(n, id, k, one) && Owns(n, (id + 1) % LIMIT, k + 1, two);
    }
  }

  lemma SplitCarriesRead(m: Machine, a: Action, k: nat, one: Bytes, two: Bytes)
    requires Shape(m) && Enabled(m, a) && SplitCarries(m, k, one, two) && !a.Advance?
    ensures SplitCarries(Next(m, a), k, one, two) && Next(m, a).command == m.command
  {
    var n := Next(m, a);
    assert forall id: nat, h: Handle, start :: Owns(m, id, h, start) ==> Owns(n, id, h, start);
  }

  lemma {:induction false} SplitArrives(m: Machine, run: seq<Action>, k: nat, one: Bytes, two: Bytes)
    requires Inv(m) && SplitCarries(m, k, one, two) && Exec(m, run).Some? && CountAdvance(run) == AdvancesLeft(m.command)
    ensures SplitCarries(Exec(m, run).value, k, one, two) && AdvancesLeft(Exec(m, run).value.command) == 0
    decreases |run|
  {
    if run != [] {
      if run[0].Advance? {
        SplitCarriesAdvance(m, k, one, two);
      } else {
        SplitCarriesRead(m, run[0], k, one, two);
      }
      StepKeeps(m, run[0]);
      SplitArrives(Next(m, run[0]), run[1..], k, one, two);
    }
  }

  /** Whatever appends fall between a split's captures and after them, two sessions with consecutive ids
      own buffers that started with halves which together are the old output at the last capture. */
  lemma {:induction false} SplitConserves(m: Machine, run: seq<Action>)
    requires Reachable(m) && m.command.SplitSecond? && Exec(m, [Advance] + run).Some? && CountAdvance(run) == 2
    ensures var (n, whole) := (Exec(m, [Advance] + run).value, OutputAt(m, m.command.clone.output));
            var (k, half) := (|m.history|, m.command.half);
            && n.command.SplitRemove? && half <= |whole|
            && exists id: nat :: Owns(n, id, k, whole[..half]) && Owns(n, (id + 1) % LIMIT, k + 1, whole[half..])
  {
    ReachableInv(m);
    var whole := OutputAt(m, m.command.clone.output);
    assert ([Advance] + run)[0] == Advance && ([Advance] + run)[1..] == run;
    StepKeeps(m, Advance);
    SplitArrives(Next(m, Advance), run, |m.history|, m.command.first, whole[m.command.half..]);
  }

  // ----- what a split loses ------------------------------------------------------------------------------

  /** What a step appends to a buffer. */
  function AppendedBy(m: Machine, a: Action, h: Handle): seq<Piece> {
    if a.Append? && a.handle == h && a.reader in m.readers then [Chunk(m.readers[a.reader].chunk)] else []
  }

  /** What the readers append to a buffer in a run. */
  function AppendedTo(m: Machine, run: seq<Action>, h: Handle): seq<Piece>
    decreases |run|
  {
    if run == [] || !Enabled(m, run[0]) then []
    else AppendedBy(m, run[0], h) + AppendedTo(Next(m, run[0]), run[1..], h)
  }

  predicate Inserting(c: Command) { c.SplitInsertFirst? || c.SplitInsertSecond? || c.SplitRemove? }

  /** A split on its way, seen from the buffer it leaves behind. */
  ghost predicate Leaving(m: Machine, id: nat, h: Handle) {
    Inserting(m.command) && m.command.id == id && h < |m.history| && OnlyOwner(m.table, id, h)
  }

  /** One buffer has gained some pieces, and no reader's chunk or snapshot was rewritten. */
  ghost predicate Gained(m: Machine, n: Machine, h: Handle, pieces: seq<Piece>) {
    && h < |m.history| && h < |n.history|
    && n.history[h].log == m.history[h].log + pieces
    && n.history[h].start == m.history[h].start && n.history[h].drained == m.history[h].drained
    && m.chunks <= n.chunks && m.snapshots <= n.snapshots
  }

  lemma GainedThen(m: Machine, n: Machine, o: Machine, h: Handle, p: seq<Piece>, q: seq<Piece>)
    requires Gained(m, n, h, p) && Gained(n, o, h, q)
    ensures Gained(m, o, h, p + q)
  {
    assert m.history[h].log + p + q == m.history[h].log + (p + q);
  }

  lemma LeavingStep(m: Machine, a: Action, id: nat, h: Handle)
    requires Inv(m) && Leaving(m, id, h) && Enabled(m, a) && (a.Advance? ==> !m.command.SplitRemove?)
    ensures Leaving(Next(m, a), id, h) && Gained(m, Next(m, a), h, AppendedBy(m, a, h))
  {
    if a.Append? {
      AppendShape(m, a.reader, a.handle);
    }
    assert m.history[h].log + [] == m.history[h].log;
  }

  /** Until the removal the old buffer gains what the readers append to it. */
  lemma {:induction false} LeavingRun(m: Machine, run: seq<Action>, id: nat, h: Handle)
    requires Inv(m) && Leaving(m, id, h) && Exec(m, run).Some? && CountAdvance(run) == AdvancesLeft(m.command)
    ensures Leaving(Exec(m, run).value, id, h) && Gained(m, Exec(m, run).value, h, AppendedTo(m, run, h))
    decreases |run|
  {
    if run == [] {
      assert m.history[h].log + [] == m.history[h].log;
    } else {
      var x := Next(m, run[0]);
      LeavingStep(m, run[0], id, h);
      StepKeeps(m, run[0]);
      AdvancesStep(m, run[0]);
      LeavingRun(x, run[1..], id, h);
      GainedThen(m, x, Exec(x, run[1..]).value, h, AppendedBy(m, run[0], h), AppendedTo(x, run[1..], h));
    }
  }

  lemma AdvancesStep(m: Machine, a: Action)
    requires Inserting(m.command) && Enabled(m, a) && (a.Advance? ==> !m.command.SplitRemove?)
    ensures AdvancesLeft(Next(m, a).command) == AdvancesLeft(m.command) - if a.Advance? then 1 else 0
  {
  }

  /** A buffer that no session has, and no command has at hand. */
  ghost predicate Orphan(m: Machine, h: Handle) {
    && h < |m.table.outputs| && h !in Live(m.table)
    && match m.command
       case SplitMeasure(_, clone) => clone.output != h
       case SplitFirst(_, clone, _) => clone.output != h
       case SplitSecond(_, clone, _, _) => clone.output != h
       case MergeCollect(_, clone, _, found) => clone.output != h && forall s :: s in found ==> s.output != h
       case MergeLoop(_, clone, found) => clone.output != h && forall s :: s in found ==> s.output != h
       case MergeHolding(_, clone, found) => clone.output != h && forall s :: s in found ==> s.output != h
       case MergeFinal(held, _) => held != h
       case _ => true
  }

  lemma OrphanInserted(m: Machine, h: Handle, id: nat, input: Bytes, output: Bytes)
    requires Shape(m) && h < |m.table.outputs| && h !in Live(m.table)
    ensures var n := Inserted(m, id, input, output);
            && h !in Live(n.table) && n.table.outputs[h] == m.table.outputs[h] && n.history[h] == m.history[h]
  {
  }

  lemma OrphanSplits(m: Machine, h: Handle)
    requires Shape(m) && Orphan(m, h)
    requires !m.command.MergeCollect? && !m.command.MergeLoop? && !m.command.MergeHolding? && !m.command.MergeFinal?
    ensures var n := AdvanceCommand(m);
            Orphan(n, h) && n.table.outputs[h] == m.table.outputs[h] && n.history[h] == m.history[h]
  {
    match m.command {
      case SplitInsertFirst(id, clone, first, second) =>
        OrphanInserted(m, h, NextId(m.table.sessions), clone.input[..|clone.input| / 2], first);
      case SplitInsertSecond(id, clone, firstId, second) =>
        OrphanInserted(m, h, (firstId + 1) % LIMIT, clone.input[|clone.input| / 2..], second);
      case _ =>
    }
  }

  lemma OrphanMerges(m: Machine, h: Handle)
    requires Shape(m) && Orphan(m, h)
    requires m.command.MergeCollect? || m.command.MergeLoop? || m.command.MergeHolding? || m.command.MergeFinal?
    ensures var n := AdvanceCommand(m);
            Orphan(n, h) && n.table.outputs[h] == m.table.outputs[h] && n.history[h] == m.history[h]
  {
    if m.command.MergeHolding? && m.command.found != [] {
      assert forall s :: s in m.command.found[1..] ==> s in m.command.found;
    }
  }

  lemma OrphanAdvance(m: Machine, h: Handle)
    requires Shape(m) && Orphan(m, h)
    ensures var n := AdvanceCommand(m);
            Orphan(n, h) && n.table.outputs[h] == m.table.outputs[h] && n.history[h] == m.history[h]
  {
    if m.command.MergeCollect? || m.command.MergeLoop? || m.command.MergeHolding? || m.command.MergeFinal? {
      OrphanMerges(m, h);
    } else {
      OrphanSplits(m, h);
    }
  }

  /** Nothing has left a buffer. */
  ghost predicate OnlyGrows(m: Machine, n: Machine, h: Handle) {
    && h < |m.table.outputs| && h < |n.table.outputs| && m.table.outputs[h] <= n.table.outputs[h]
    && h < |m.history| && h < |n.history| && n.history[h].drained == m.history[h].drained
  }

  lemma OrphanStep(m: Machine, h: Handle, a: Action)
    requires Shape(m) && Orphan(m, h) && Enabled(m, a)
    ensures Orphan(Next(m, a), h) && OnlyGrows(m, Next(m, a), h)
  {
    if a.Advance? {
      OrphanAdvance(m, h);
    } else if a.CreateSession? {
      OrphanInserted(m, h, NextId(m.table.sessions), [], []);
    } else if a.Append? {
      AppendShape(m, a.reader, a.handle);
    }
  }

  /** What is in an orphaned buffer stays there for ever: no session has it, nothing drains it and no
      merge moves it. */
  lemma {:induction false} OrphanNeverRead(m: Machine, h: Handle, run: seq<Action>)
    requires Inv(m) && Orphan(m, h) && Exec(m, run).Some?
    ensures Orphan(Exec(m, run).value, h) && OnlyGrows(m, Exec(m, run).value, h)
    decreases |run|
  {
    if run != [] {
      OrphanStep(m, h, run[0]);
      StepKeeps(m, run[0]);
      OrphanNeverRead(Next(m, run[0]), h, run[1..]);
    }
  }

  lemma OldHandles(m: Machine, j: nat, g: Handle)
    requires Inv(m) && j < |m.chunks| && g >= |m.table.outputs|
    ensures g !in m.snapshots[j]
  {
  }

  lemma CountedOnce(m: Machine, g: Handle, j: nat)
    requires Inv(m) && g < |m.history| && j < |m.chunks|
    ensures Chunk(j) in m.history[g].log <==> g in m.snapshots[j] && !Pending(m, j, g)
  {
    assert Chunk(j) in m.history[g].log <==> multiset(m.history[g].log)[Chunk(j)] > 0;
  }

  /** A split from its last capture to just before the removal. */
  lemma SplitEnds(m: Machine, run: seq<Action>, last: Machine)
    requires Inv(m) && m.command.SplitSecond? && Exec(m, [Advance] + run) == Some(last) && CountAdvance(run) == 2
    ensures var (id, h) := (m.command.id, m.command.clone.output);
            && Inv(last) && last.command == SplitRemove(id) && Leaving(last, id, h)
            && |last.history| == |m.history| + 2 && Gained(m, last, h, AppendedTo(AdvanceCommand(m), run, h))
  {
    var (id, h, whole) := (m.command.id, m.command.clone.output, OutputAt(m, m.command.clone.output));
    var start := AdvanceCommand(m);
    assert ([Advance] + run)[0] == Advance && ([Advance] + run)[1..] == run;
    StepKeeps(m, Advance);
    SplitArrives(start, run, |m.history|, m.command.first, whole[m.command.half..]);
    LeavingRun(start, run, id, h);
    RunKeeps(start, run);
    assert m.history[h].log + [] == m.history[h].log;
    GainedThen(m, start, last, h, [], AppendedTo(start, run, h));
    assert [] + AppendedTo(start, run, h) == AppendedTo(start, run, h);
  }

  lemma RemovalOrphans(m: Machine, id: nat, h: Handle)
    requires Inv(m) && m.command == SplitRemove(id) && Leaving(m, id, h)
    ensures var n := AdvanceCommand(m);
            && Inv(n) && Orphan(n, h)
            && n.history == m.history && n.chunks == m.chunks && n.snapshots == m.snapshots
  {
    StepKeeps(m, Advance);
  }

  /** The two new buffers hold exactly the chunks whose snapshots held them and whose appends have run;
      none of the chunks read before the last capture, at `m`, is among them. */
  ghost predicate NewBuffers(m: Machine, n: Machine) {
    && |n.history| == |m.history| + 2 && |n.snapshots| == |n.chunks|
    && (forall j, g :: |m.history| <= g < |n.history| && 0 <= j < |n.chunks| ==>
          (Chunk(j) in n.history[g].log <==> g in n.snapshots[j] && !Pending(n, j, g)))
    && (forall j, g :: |m.history| <= g < |n.history| && 0 <= j < |m.chunks| ==> Chunk(j) !in n.history[g].log)
  }

  lemma NewBuffersHold(m: Machine, n: Machine)
    requires Inv(m) && Inv(n) && |n.history| == |m.history| + 2 && m.chunks <= n.chunks && m.snapshots <= n.snapshots
    ensures NewBuffers(m, n)
  {
    forall j, g | |m.history| <= g < |n.history| && 0 <= j < |n.chunks|
      ensures Chunk(j) in n.history[g].log <==> g in n.snapshots[j] && !Pending(n, j, g)
      ensures j < |m.chunks| ==> Chunk(j) !in n.history[g].log
    {
      CountedOnce(n, g, j);
      if j < |m.chunks| {
        OldHandles(m, j, g);
        assert n.snapshots[j] == m.snapshots[j];
      }
    }
  }

  /** What a split loses.  After the removal the old buffer is an orphan.  What it holds beyond the output
      at the last capture is what the readers appended to it since.  Of that, a chunk is in one of the
      two new buffers if and only if its snapshot held that buffer as well and its append has run; no
      chunk read before the capture is. */
  lemma {:induction false} SplitLoses(m: Machine, run: seq<Action>, last: Machine, n: Machine)
    requires Reachable(m) && m.command.SplitSecond? && Exec(m, [Advance] + run) == Some(last) && CountAdvance(run) == 2
    requires n == AdvanceCommand(last)
    ensures Enabled(last, Advance) && n.command == Ready && Orphan(n, m.command.clone.output)
    ensures Gained(m, n, m.command.clone.output, AppendedTo(AdvanceCommand(m), run, m.command.clone.output))
    ensures NewBuffers(m, n)
  {
    ReachableInv(m);
    SplitEnds(m, run, last);
    RemovalOrphans(last, m.command.id, m.command.clone.output);
    NewBuffersHold(m, n);
  }

  const THREE := [Advance, Advance, Advance]

  lemma ThreeAdvances(m: Machine, m1: Machine, m2: Machine, m3: Machine)
    requires Enabled(m, Advance) && AdvanceCommand(m) == m1
    requires Enabled(m1, Advance) && AdvanceCommand(m1) == m2
    requires Enabled(m2, Advance) && AdvanceCommand(m2) == m3
    ensures Exec(m, THREE) == Some(m3)
  {
    assert THREE[0] == Advance && THREE[1..] == [Advance, Advance];
    assert [Advance, Advance][1..] == [Advance] && [Advance][1..] == [];
    assert Exec(m3, []) == Some(m3);
    assert Exec(m2, [Advance]) == Exec(m3, []);
    assert Exec(m1, [Advance, Advance]) == Exec(m2, [Advance]);
  }

  lemma Chain(m: Machine, a: seq<Action>, mid: Machine, b: seq<Action>, n: Machine)
    requires Exec(m, a) == Some(mid) && Exec(mid, b) == Some(n)
    ensures Exec(m, a + b) == Some(n)
  {
    ExecSplit(m, a, b);
  }

  /** Up to the insertions a split only measures and copies. */
  lemma {:induction false} SplitCaptures(m: Machine, id: nat, s: Session, output: Bytes) returns (n: Machine)
    requires Inv(m) && m.command == Ready
    requires id in m.table.sessions && s == m.table.sessions[id] && output == OutputOf(m.table, id)
    ensures n == m.(splits := m.splits + 1,
                    command := SplitInsertFirst(id, s, output[..|output| / 2], output[|output| / 2..]))
    ensures Exec(m, [BeginSplit(id)] + THREE) == Some(n)
  {
    var half := |output| / 2;
    var m0 := m.(splits := m.splits + 1, command := SplitMeasure(id, s));
    var m1 := m0.(command := SplitFirst(id, s, half));
    var m2 := m0.(command := SplitSecond(id, s, half, output[..half]));
    n := m0.(command := SplitInsertFirst(id, s, output[..half], output[half..]));
    ThreeAdvances(m0, m1, m2, n);
    OneStep(m, BeginSplit(id), THREE);
  }

  lemma SplitInserts(m: Machine, id: nat, s: Session, first: nat, o1: Bytes, o2: Bytes)
    returns (n: Machine)
    requires m.command == SplitInsertFirst(id, s, o1, o2) && first == NextId(m.table.sessions)
    ensures var (i1, i2) := (s.input[..|s.input| / 2], s.input[|s.input| / 2..]);
            && Exec(m, THREE) == Some(n) && n.command == Ready
            && n.table == Remove(Insert(Insert(m.table, first, i1, o1), (first + 1) % LIMIT, i2, o2), id)
  {
    var (i1, i2) := (s.input[..|s.input| / 2], s.input[|s.input| / 2..]);
    var m1 := Inserted(m, first, i1, o1).(command := SplitInsertSecond(id, s, first, o2));
    var m2 := Inserted(m1, (first + 1) % LIMIT, i2, o2).(command := SplitRemove(id));
    n := m2.(table := Remove(m2.table, id), command := Ready);
    ThreeAdvances(m, m1, m2, n);
  }

  lemma SplitUnfolds(t: Table, id: nat, s: Session, output: Bytes, first: nat)
    requires id in t.sessions && s == t.sessions[id] && output == OutputOf(t, id) && first == NextId(t.sessions)
    ensures Split(t, id) == Remove(Insert(Insert(t, first, s.input[..|s.input| / 2], output[..|output| / 2]),
                                          (first + 1) % LIMIT, s.input[|s.input| / 2..], output[|output| / 2..]), id)
  {
  }

  /** Uninterrupted, the steps of a split make of the table what `Split` says. */
  lemma SplitAlone(m: Machine, id: nat) returns (n: Machine)
    requires Inv(m) && m.command == Ready && id in m.table.sessions
    ensures Exec(m, [BeginSplit(id)] + THREE + THREE) == Some(n)
    ensures n.table == Split(m.table, id) && n.command == Ready
  {
    var (s, output, first) := (m.table.sessions[id], OutputOf(m.table, id), NextId(m.table.sessions));
    SplitUnfolds(m.table, id, s, output, first);
    var mid := SplitCaptures(m, id, s, output);
    n := SplitInserts(mid, id, s, first, output[..|output| / 2], output[|output| / 2..]);
    var prefix := [BeginSplit(id)] + THREE;
    Chain(m, prefix, mid, THREE, n);
  }

  lemma OneStep(m: Machine, a: Action, rest: seq<Action>)
    requires Enabled(m, a)
    ensures Exec(m, [a] + rest) == Exec(Next(m, a), rest)
  {
    assert ([a] + rest)[1..] == rest;
  }

  // ----- the merge that never returns -----------------------------------------------------------------

  ghost predicate Meets(t: Table, primary: nat, clone: Session, found: seq<Session>) {
    || (primary in t.sessions && t.sessions[primary].output == clone.output)
    || exists i :: 0 <= i < |found| && found[i].output == clone.output
  }

  /** A merge on its way to the lock it holds. */
  ghost predicate Stuck(m: Machine) {
    match m.command
    case MergeCollect(primary, clone, _, found) => Meets(m.table, primary, clone, found)
    case MergeLoop(primary, clone, found) => Meets(m.table, primary, clone, found)
    case MergeHolding(primary, clone, found) => found != [] && Meets(m.table, primary, clone, found)
    case MergeFinal(held, awaited) => held == awaited
    case _ => false
  }

  lemma MeetsRest(t: Table, primary: nat, clone: Session, found: seq<Session>)
    requires found != [] && found[0].output != clone.output && Meets(t, primary, clone, found)
    ensures Meets(t, primary, clone, found[1..])
  {
    if i :| 0 <= i < |found| && found[i].output == clone.output {
      assert found[1..][i - 1] == found[i];
    }
  }

  lemma MeetsCollected(t: Table, primary: nat, clone: Session, found: seq<Session>, id: nat)
    requires id in t.sessions && Meets(t, primary, clone, found)
    ensures Meets(Remove(t, id), primary, clone, found + [t.sessions[id]])
  {
    var more := found + [t.sessions[id]];
    if i :| 0 <= i < |found| && found[i].output == clone.output {
      assert more[i].output == clone.output;
    } else if id == primary {
      assert more[|found|].output == clone.output;
    }
  }

  /** The two places where the merge waits for the lock it holds. */
  lemma SelfWaits(c: Command)
    ensures c.MergeHolding? && c.found != [] && c.found[0].output == c.clone.output ==> Awaited(c) * Held(c) != {}
    ensures c.MergeFinal? && c.held == c.awaited ==> Awaited(c) * Held(c) != {}
  {
    if c.MergeHolding? && c.found != [] && c.found[0].output == c.clone.output {
      assert c.clone.output in Awaited(c) * Held(c);
    } else if c.MergeFinal? && c.held == c.awaited {
      assert c.held in Awaited(c) * Held(c);
    }
  }

  lemma StuckStep(m: Machine, a: Action)
    requires Stuck(m) && Enabled(m, a)
    ensures Stuck(Next(m, a)) && (a.Advance? || a.Read? || a.Append?)
  {
    SelfWaits(m.command);
    if a.Advance? {
      match m.command {
        case MergeCollect(primary, clone, rest, found) =>
          if rest != [] && rest[0] in m.table.sessions {
            MeetsCollected(m.table, primary, clone, found, rest[0]);
          }
        case MergeLoop(primary, clone, found) =>
        case MergeHolding(primary, clone, found) =>
          MeetsRest(m.table, primary, clone, found);
        case MergeFinal(held, awaited) =>
      }
    }
  }

  /** A merge with a live primary never ends: in every continuation the command loop is still in it, and
      nothing but the merge itself and the readers ever runs. */
  lemma {:induction false} MergeNeverReturns(m: Machine, run: seq<Action>)
    requires Stuck(m) && Exec(m, run).Some?
    ensures Stuck(Exec(m, run).value) && Exec(m, run).value.command != Ready
    ensures forall i :: 0 <= i < |run| ==> run[i].Advance? || run[i].Read? || run[i].Append?
    decreases |run|
  {
    if run != [] {
      StuckStep(m, run[0]);
      MergeNeverReturns(Next(m, run[0]), run[1..]);
      forall i | 0 <= i < |run| ensures run[i].Advance? || run[i].Read? || run[i].Append? {
        if i > 0 {
          assert run[i] == run[1..][i - 1];
        }
      }
    }
  }

  lemma MergeBegins(m: Machine, ids: seq<nat>)
    requires m.command == Ready && ids != [] && ids[0] in m.table.sessions
    ensures Stuck(Next(m, BeginMerge(ids)))
  {
  }

  /** What is still to come of a merge. */
  function StepsToWait(c: Command): nat {
    match c
    case MergeCollect(_, _, rest, found) => 3 * |rest| + 2 * |found| + 3
    case MergeLoop(_, _, found) => 2 * |found| + 2
    case MergeHolding(_, _, found) => 2 * |found| + 1
    case _ => 0
  }

  /** The outputs when the merge waits: everything before the repeated buffer has been appended. */
  function SettledOutputs(m: Machine): seq<Bytes> {
    match m.command
    case MergeCollect(_, clone, rest, found) =>
      var (t, more) := Collect(m.table, rest);
      if clone.output < |t.outputs| then Splice(t, clone.output, found + more).outputs else t.outputs
    case MergeLoop(_, clone, found) =>
      if clone.output < |m.table.outputs| then Splice(m.table, clone.output, found).outputs else m.table.outputs
    case MergeHolding(_, clone, found) =>
      if clone.output < |m.table.outputs| then Splice(m.table, clone.output, found).outputs else m.table.outputs
    case _ => m.table.outputs
  }

  lemma {:induction false} SpliceIgnoresSessions(t: Table, u: Table, target: Handle, found: seq<Session>)
    requires t.outputs == u.outputs && target < |t.outputs|
    ensures Splice(t, target, found).outputs == Splice(u, target, found).outputs
    decreases |found|
  {
    if found != [] && found[0].output != target && found[0].output < |t.outputs| {
      SpliceIgnoresSessions(AppendTo(t, target, t.outputs[found[0].output]), AppendTo(u, target, u.outputs[found[0].output]),
                            target, found[1..]);
    }
  }

  /** The sessions when the merge waits: the listed ones have left. */
  function SettledSessions(m: Machine): map<nat, Session> {
    match m.command
    case MergeCollect(_, _, rest, _) => Collect(m.table, rest).0.sessions
    case _ => m.table.sessions
  }

  /** Writing the primary's input back is no change. */
  lemma SessionsStep(m: Machine)
    requires Shape(m) && Stuck(m) && Enabled(m, Advance)
    ensures SettledSessions(Next(m, Advance)) == SettledSessions(m)
  {
    if m.command.MergeLoop? && m.command.found == [] && m.command.primary in m.table.sessions {
      var s := m.table.sessions[m.command.primary];
      assert m.table.sessions[m.command.primary := s.(input := m.command.clone.input)] == m.table.sessions;
    }
  }

  lemma SettledStep(m: Machine)
    requires Shape(m) && Stuck(m) && Enabled(m, Advance)
    ensures SettledOutputs(Next(m, Advance)) == SettledOutputs(m)
    ensures StepsToWait(Next(m, Advance).command) < StepsToWait(m.command)
  {
    SelfWaits(m.command);
    match m.command {
      case MergeCollect(primary, clone, rest, found) =>
        if rest == [] {
          assert found + [] == found;
        } else if rest[0] in m.table.sessions {
          var s := m.table.sessions[rest[0]];
          var more := Collect(Remove(m.table, rest[0]), rest[1..]).1;
          assert found + ([s] + more) == found + [s] + more;
        }
      case MergeLoop(primary, clone, found) =>
      case MergeHolding(primary, clone, found) =>
      case MergeFinal(held, awaited) =>
    }
  }

  /** Left alone, the merge runs into the lock it holds, with all outputs up to there appended. */
  lemma {:induction false} MergeReachesSelfWait(m: Machine) returns (run: seq<Action>)
    requires Inv(m) && Stuck(m)
    ensures forall a :: a in run ==> a == Advance
    ensures Exec(m, run).Some? && WaitsForItself(Exec(m, run).value)
    ensures Exec(m, run).value.table == Table(SettledSessions(m), SettledOutputs(m))
    decreases StepsToWait(m.command)
  {
    if WaitsForItself(m) {
      run := [];
    } else {
      SettledStep(m);
      SessionsStep(m);
      StuckStep(m, Advance);
      StepKeeps(m, Advance);
      var rest := MergeReachesSelfWait(Next(m, Advance));
      run := [Advance] + rest;
      OneStep(m, Advance, rest);
    }
  }

  /** Uninterrupted, a merge makes of the table what `Merged` says and waits there for ever. */
  lemma MergeAlone(m: Machine, ids: seq<nat>) returns (run: seq<Action>)
    requires Inv(m) && m.command == Ready && ids != [] && ids[0] in m.table.sessions
    ensures Exec(m, [BeginMerge(ids)] + run).Some?
    ensures var n := Exec(m, [BeginMerge(ids)] + run).value;
            WaitsForItself(n) && n.table == Merged(m.table, ids)
  {
    var start := Next(m, BeginMerge(ids));
    MergeBegins(m, ids);
    StepKeeps(m, BeginMerge(ids));
    run := MergeReachesSelfWait(start);
    OneStep(m, BeginMerge(ids), run);
    var (t, more) := Collect(m.table, ids[1..]);
    CollectRemoves(m.table, ids[1..]);
    assert [] + more == more;
    SpliceKeepsSessions(t, m.table.sessions[ids[0]].output, more);
  }

  lemma {:induction false} SpliceKeepsSessions(t: Table, target: Handle, found: seq<Session>)
    requires target < |t.outputs|
    ensures Splice(t, target, found).sessions == t.sessions
    decreases |found|
  {
    if found != [] && found[0].output != target && found[0].output < |t.outputs| {
      SpliceKeepsSessions(AppendTo(t, target, t.outputs[found[0].output]), target, found[1..]);
    }
  }

  // ----- session ids --------------------------------------------------------------------------------

  /** How many of the two insertions of a split are still to come. */
  function Owed(c: Command): nat {
    if c.SplitMeasure? || c.SplitFirst? || c.SplitSecond? || c.SplitInsertFirst? then 2
    else if c.SplitInsertSecond? then 1
    else 0
  }

  function Issued(m: Machine): int { m.creates + 2 * m.splits - Owed(m.command) }

  ghost predicate IdsBounded(m: Machine) {
    && Owed(m.command) <= 2 * m.splits
    && (m.creates + 2 * m.splits < LIMIT ==>
          && (forall id :: id in m.table.sessions ==> id <= Issued(m))
          && (m.command.SplitInsertSecond? ==>
                m.command.firstId <= Issued(m) && forall id :: id in m.table.sessions ==> id <= m.command.firstId))
  }

  /** The id the next step would insert, if it is one that inserts. */
  function InsertedId(m: Machine, a: Action): Option<nat> {
    if a.CreateSession? then Some(NextId(m.table.sessions))
    else if a.Advance? && m.command.SplitInsertFirst? then Some(NextId(m.table.sessions))
    else if a.Advance? && m.command.SplitInsertSecond? then Some((m.command.firstId + 1) % LIMIT)
    else None
  }

  lemma InsertsAbove(m: Machine, a: Action)
    requires Enabled(m, a) && IdsBounded(m) && InsertedId(m, a).Some?
    requires var n := Next(m, a); n.creates + 2 * n.splits < LIMIT
    ensures var (n, id) := (Next(m, a), InsertedId(m, a).value);
            && n.table.sessions.Keys == m.table.sessions.Keys + {id} && id <= Issued(n)
            && forall k :: k in m.table.sessions ==> k < id
  {
    if !m.command.SplitInsertSecond? {
      NextIdFresh(m.table.sessions, Issued(m));
    }
  }

  lemma IdsBoundedStep(m: Machine, a: Action)
    requires Enabled(m, a) && IdsBounded(m)
    ensures IdsBounded(Next(m, a))
  {
    if InsertedId(m, a).Some? {
      IdsBoundedInsert(m, a);
    } else {
      IdsBoundedOther(m, a);
    }
  }

  lemma IdsBoundedInsert(m: Machine, a: Action)
    requires Enabled(m, a) && IdsBounded(m) && InsertedId(m, a).Some?
    ensures IdsBounded(Next(m, a))
  {
    var n := Next(m, a);
    if n.creates + 2 * n.splits < LIMIT {
      InsertsAbove(m, a);
    }
  }

  lemma IdsBoundedOther(m: Machine, a: Action)
    requires Enabled(m, a) && IdsBounded(m) && InsertedId(m, a) == None
    ensures IdsBounded(Next(m, a))
  {
    KeysShrink(m, a);
    if a.Advance? {
      OwedShrinks(m);
    }
  }

  lemma OwedShrinks(m: Machine)
    ensures Owed(AdvanceCommand(m).command) <= Owed(m.command)
    ensures var n := AdvanceCommand(m); n.creates == m.creates && n.splits == m.splits
    ensures AdvanceCommand(m).command.SplitInsertSecond? ==> m.command.SplitInsertFirst?
  {
  }

  lemma KeysShrink(m: Machine, a: Action)
    requires Enabled(m, a) && InsertedId(m, a) == None
    ensures Next(m, a).table.sessions.Keys <= m.table.sessions.Keys
  {
    if a.Advance? {
      AdvanceKeysShrink(m);
    }
  }

  lemma AdvanceKeysShrink(m: Machine)
    requires !m.command.SplitInsertFirst? && !m.command.SplitInsertSecond?
    ensures AdvanceCommand(m).table.sessions.Keys <= m.table.sessions.Keys
  {
  }

  lemma {:induction false} RunIdsBounded(m: Machine, run: seq<Action>)
    requires IdsBounded(m) && Exec(m, run).Some?
    ensures IdsBounded(Exec(m, run).value)
    decreases |run|
  {
    if run != [] {
      IdsBoundedStep(m, run[0]);
      RunIdsBounded(Next(m, run[0]), run[1..]);
    }
  }

  /** Over every run that creates and splits fewer than 2^32 ids' worth: every key is its session's own
      id, and none exceeds one per create and two per split. */
  lemma IdsOverRuns(m: Machine)
    requires Reachable(m) && m.creates + 2 * m.splits < LIMIT
    ensures forall id :: id in m.table.sessions ==>
      m.table.sessions[id].streamId == id && id <= m.creates + 2 * m.splits
  {
    ReachableInv(m);
    var run :| Exec(INITIAL, run) == Some(m);
    RunIdsBounded(INITIAL, run);
  }

  /** No insertion overwrites a session: its id is above every id in the table. */
  lemma InsertsOverwriteNothing(m: Machine, a: Action)
    requires Reachable(m) && Enabled(m, a) && InsertedId(m, a).Some?
    requires var n := Next(m, a); n.creates + 2 * n.splits < LIMIT
    ensures Next(m, a).table.sessions.Keys == m.table.sessions.Keys + {InsertedId(m, a).value}
    ensures forall k :: k in m.table.sessions ==>
      k < InsertedId(m, a).value && Next(m, a).table.sessions[k] == m.table.sessions[k]
  {
    var run :| Exec(INITIAL, run) == Some(m);
    RunIdsBounded(INITIAL, run);
    InsertsAbove(m, a);
  }
}
