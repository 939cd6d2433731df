/**
 What every interleaved run of the session machine keeps: each byte a reader appended is delivered
 exactly once, in whole chunks, whatever drains, splits, merges and removals come in between.
 */
module Delivery {
  import opened Basics
  import opened SessionTable
  import opened SessionMachine

  // ----- the invariant ----------------------------------------------------------------------------

  predicate Pending(m: Machine, k: nat, h: Handle) {
    exists r :: r in m.readers && m.readers[r].chunk == k && h in m.readers[r].pending
  }

  ghost predicate ReadersShape(m: Machine) {
    && |m.snapshots| == |m.chunks|
    && (forall k, h :: 0 <= k < |m.snapshots| && h in m.snapshots[k] ==> h < |m.table.outputs|)
    && (forall r :: r in m.readers ==> m.readers[r].chunk < |m.chunks| && m.readers[r].pending <= m.snapshots[m.readers[r].chunk])
    && (forall r, q :: r in m.readers && q in m.readers && r != q ==> m.readers[r].chunk != m.readers[q].chunk)
  }

  /** The merge's copy of the primary is still what the table has. */
  ghost predicate MergeShape(m: Machine, primary: nat, clone: Session, found: seq<Session>) {
    && clone.output < |m.table.outputs|
    && (forall i :: 0 <= i < |found| ==> found[i].output < |m.table.outputs|)
    && (primary in m.table.sessions ==> m.table.sessions[primary] == clone)
  }

  /** No other session has this buffer. */
  ghost predicate OnlyOwner(t: Table, id: nat, h: Handle) {
    forall i :: i in t.sessions && t.sessions[i].output == h ==> i == id
  }

  ghost predicate CommandShape(m: Machine) {
    match m.command
    case SplitMeasure(id, clone) => clone.output < |m.table.outputs| && OnlyOwner(m.table, id, clone.output)
    case SplitFirst(id, clone, half) =>
      && clone.output < |m.table.outputs| && OnlyOwner(m.table, id, clone.output)
      && half <= |m.table.outputs[clone.output]|
    case SplitSecond(id, clone, half, first) =>
      && clone.output < |m.table.outputs| && OnlyOwner(m.table, id, clone.output)
      && half <= |m.table.outputs[clone.output]| && first == m.table.outputs[clone.output][..half]
    case MergeCollect(primary, clone, _, found) => MergeShape(m, primary, clone, found)
    case MergeLoop(primary, clone, found) => MergeShape(m, primary, clone, found)
    case MergeHolding(primary, clone, found) => MergeShape(m, primary, clone, found)
    case MergeFinal(held, awaited) => held == awaited
    case Panicked => false
    case _ => true
  }

  ghost predicate Shape(m: Machine) {
    Valid(m.table) && |m.history| == |m.table.outputs| && ReadersShape(m) && CommandShape(m)
  }

  function PieceBytes(p: Piece, chunks: seq<Bytes>): Bytes {
    match p
    case Chunk(k) => if k < |chunks| then chunks[k] else []
    case Spliced(bytes) => bytes
  }

  function Content(log: seq<Piece>, chunks: seq<Bytes>): Bytes {
    if log == [] then [] else Content(log[..|log| - 1], chunks) + PieceBytes(log[|log| - 1], chunks)
  }

  ghost predicate KnownChunks(log: seq<Piece>, n: nat) {
    forall p :: p in log && p.Chunk? ==> p.index < n
  }

  /** Nothing is lost and nothing doubled: what was drained and what is still there is what the buffer
      started with and what was appended since, in the order of appending. */
  ghost predicate Conserved(m: Machine) {
    forall h :: 0 <= h < |m.table.outputs| && h < |m.history| ==>
      m.history[h].start + Content(m.history[h].log, m.chunks) == m.history[h].drained + m.table.outputs[h]
  }

  /** A chunk is in a buffer's log once when its snapshot held the buffer and its append has run, and
      otherwise not at all. */
  ghost predicate ExactlyOnce(m: Machine) {
    && (forall h :: 0 <= h < |m.history| ==> KnownChunks(m.history[h].log, |m.chunks|))
    && (forall h, k :: 0 <= h < |m.history| && 0 <= k < |m.chunks| && k < |m.snapshots| ==>
          multiset(m.history[h].log)[Chunk(k)] == if h in m.snapshots[k] && !Pending(m, k, h) then 1 else 0)
  }

  ghost predicate Inv(m: Machine) { Shape(m) && Conserved(m) && ExactlyOnce(m) }

  // ----- steps that leave the buffers alone ----------------------------------------------------------

  ghost predicate SameBuffers(m: Machine, n: Machine) {
    && n.table.outputs == m.table.outputs && n.history == m.history
    && n.chunks == m.chunks && n.snapshots == m.snapshots && n.readers == m.readers
  }

  lemma SameBuffersKeep(m: Machine, n: Machine)
    requires Inv(m) && SameBuffers(m, n) && Valid(n.table) && CommandShape(n)
    ensures Inv(n)
  {
    assert forall k, h :: Pending(n, k, h) == Pending(m, k, h);
  }

  // ----- a new buffer ---------------------------------------------------------------------------------

  lemma InsertedKeeps(m: Machine, n: Machine, id: nat, input: Bytes, output: Bytes)
    requires Inv(m)
    requires var p := Inserted(m, id, input, output); n.table == p.table && n.history == p.history
    requires n.chunks == m.chunks && n.snapshots == m.snapshots && n.readers == m.readers
    requires CommandShape(n)
    ensures Inv(n)
  {
    assert forall k, h :: Pending(n, k, h) == Pending(m, k, h);
    var h := |m.history|;
    assert n.history[h] == History(output, [], []);
    assert output + Content([], m.chunks) == output == [] + output;
    forall k | 0 <= k < |m.chunks| ensures h !in m.snapshots[k] {}
  }

  // ----- one buffer drained or extended -----------------------------------------------------------------

  lemma DrainedKeeps(m: Machine, h: Handle)
    requires Inv(m) && m.command == Ready && h < |m.table.outputs|
    ensures Inv(DrainedAt(m, h))
  {
    var n := DrainedAt(m, h);
    assert forall k, g :: Pending(n, k, g) == Pending(m, k, g);
    var (b, c) := (m.history[h], n.history[h]);
    assert c.drained + n.table.outputs[h] == b.drained + m.table.outputs[h];
  }

  lemma ContentMore(log: seq<Piece>, p: Piece, chunks: seq<Bytes>)
    ensures Content(log + [p], chunks) == Content(log, chunks) + PieceBytes(p, chunks)
  {
    assert (log + [p])[..|log|] == log;
  }

  lemma ExtendedConserves(m: Machine, h: Handle, piece: Piece)
    requires |m.history| == |m.table.outputs| && Conserved(m) && h < |m.table.outputs|
    ensures Conserved(Extended(m, h, piece, PieceBytes(piece, m.chunks)))
  {
    var bytes := PieceBytes(piece, m.chunks);
    var b := m.history[h];
    ContentMore(b.log, piece, m.chunks);
    assert b.start + (Content(b.log, m.chunks) + bytes) == b.start + Content(b.log, m.chunks) + bytes;
    assert b.drained + m.table.outputs[h] + bytes == b.drained + (m.table.outputs[h] + bytes);
  }

  /** Appending keeps what a split has already measured or taken. */
  lemma ExtendedKeepsCommand(m: Machine, h: Handle, piece: Piece, bytes: Bytes)
    requires CommandShape(m) && |m.history| == |m.table.outputs| && h < |m.table.outputs|
    ensures CommandShape(Extended(m, h, piece, bytes))
  {
    var n := Extended(m, h, piece, bytes);
    assert forall g :: 0 <= g < |m.table.outputs| ==> m.table.outputs[g] <= n.table.outputs[g];
  }

  lemma SplicedOnce(m: Machine, h: Handle, bytes: Bytes)
    requires |m.snapshots| == |m.chunks| && |m.history| == |m.table.outputs| && ExactlyOnce(m) && h < |m.table.outputs|
    ensures ExactlyOnce(Extended(m, h, Spliced(bytes), bytes))
  {
    var n := Extended(m, h, Spliced(bytes), bytes);
    assert forall k, g :: Pending(n, k, g) == Pending(m, k, g);
    forall g, k | 0 <= g < |n.history| && 0 <= k < |n.chunks|
      ensures multiset(n.history[g].log)[Chunk(k)] == multiset(m.history[g].log)[Chunk(k)]
    {
    }
  }

  lemma CommandKeeps(m: Machine, command: Command)
    requires Valid(m.table) && |m.history| == |m.table.outputs| && ReadersShape(m) && Conserved(m) && ExactlyOnce(m)
    requires CommandShape(m.(command := command))
    ensures Inv(m.(command := command))
  {
    var n := m.(command := command);
    assert forall k, h :: Pending(n, k, h) == Pending(m, k, h);
  }

  lemma SplicedKeeps(m: Machine, h: Handle, bytes: Bytes, command: Command)
    requires Inv(m) && h < |m.table.outputs|
    requires CommandShape(Extended(m, h, Spliced(bytes), bytes).(command := command))
    ensures Inv(Extended(m, h, Spliced(bytes), bytes).(command := command))
  {
    SplicedOnce(m, h, bytes);
    ExtendedConserves(m, h, Spliced(bytes));
    CommandKeeps(Extended(m, h, Spliced(bytes), bytes), command);
  }

  // ----- reader steps -------------------------------------------------------------------------------

  lemma AppendPending(m: Machine, r: nat, h: Handle)
    requires Shape(m) && Enabled(m, Append(r, h))
    ensures var (n, c) := (Next(m, Append(r, h)), m.readers[r].chunk);
            && (forall k, g :: (k != c || g != h) ==> Pending(n, k, g) == Pending(m, k, g))
            && Pending(m, c, h) && !Pending(n, c, h)
  {
    var n := Next(m, Append(r, h));
    var c := m.readers[r].chunk;
    forall k, g | Pending(m, k, g) && (k != c || g != h) ensures Pending(n, k, g) {
      var q :| q in m.readers && m.readers[q].chunk == k && g in m.readers[q].pending;
      if q == r {
        assert g in m.readers[r].pending - {h};
        assert n.readers[r] == Reader(c, m.readers[r].pending - {h});
      } else {
        assert q in n.readers && n.readers[q] == m.readers[q];
      }
    }
  }

  lemma AppendShape(m: Machine, r: nat, h: Handle)
    requires Shape(m) && Enabled(m, Append(r, h))
    ensures h < |m.table.outputs| && Shape(Next(m, Append(r, h)))
  {
    var c := m.readers[r].chunk;
    assert h in m.snapshots[c];
    ExtendedKeepsCommand(m, h, Chunk(c), m.chunks[c]);
  }

  lemma LogMore(log: seq<Piece>, c: nat, k: nat)
    ensures multiset(log + [Chunk(c)])[Chunk(k)] == multiset(log)[Chunk(k)] + if k == c then 1 else 0
  {
  }

  /** The logs of one append: the reader's chunk at the end of one of them. */
  lemma AppendLogs(m: Machine, r: nat, h: Handle, g: Handle)
    requires Shape(m) && Enabled(m, Append(r, h)) && g < |m.history|
    ensures var n := Next(m, Append(r, h));
            && |n.history| == |m.history| && n.chunks == m.chunks && n.snapshots == m.snapshots
            && n.history[g].log == m.history[g].log + if g == h then [Chunk(m.readers[r].chunk)] else []
  {
    assert h in m.snapshots[m.readers[r].chunk];
  }

  /** What one append leaves of a chunk's count, from the facts alone. */
  lemma OnceAfter(m: Machine, n: Machine, c: nat, h: Handle, g: Handle, k: nat)
    requires ExactlyOnce(m) && g < |m.history| == |n.history| && k < |m.chunks| && k < |m.snapshots|
    requires n.history[g].log == m.history[g].log + if g == h then [Chunk(c)] else []
    requires (k != c || g != h) ==> Pending(n, k, g) == Pending(m, k, g)
    requires Pending(m, c, h) && !Pending(n, c, h)
    requires k == c && g == h ==> h in m.snapshots[c]
    ensures multiset(n.history[g].log)[Chunk(k)] == if g in m.snapshots[k] && !Pending(n, k, g) then 1 else 0
  {
    assert m.history[g].log + [] == m.history[g].log;
    LogMore(m.history[g].log, c, k);
  }

  lemma KnownAfter(log: seq<Piece>, c: nat, n: nat)
    requires KnownChunks(log, n) && c < n
    ensures KnownChunks(log + [Chunk(c)], n) && KnownChunks(log + [], n)
  {
  }

  lemma AppendOnce(m: Machine, r: nat, h: Handle)
    requires Shape(m) && ExactlyOnce(m) && Enabled(m, Append(r, h))
    ensures ExactlyOnce(Next(m, Append(r, h)))
  {
    var (n, c) := (Next(m, Append(r, h)), m.readers[r].chunk);
    assert h in m.snapshots[c];
    AppendPending(m, r, h);
    AppendLogs(m, r, h, h);
    forall g | 0 <= g < |n.history| ensures KnownChunks(n.history[g].log, |n.chunks|) {
      AppendLogs(m, r, h, g);
      KnownAfter(m.history[g].log, c, |m.chunks|);
    }
    forall g, k | 0 <= g < |n.history| && 0 <= k < |n.chunks|
      ensures multiset(n.history[g].log)[Chunk(k)] == if g in n.snapshots[k] && !Pending(n, k, g) then 1 else 0
    {
      AppendLogs(m, r, h, g);
      OnceAfter(m, n, c, h, g, k);
    }
  }

  lemma AppendKeeps(m: Machine, r: nat, h: Handle)
    requires Inv(m) && Enabled(m, Append(r, h))
    ensures Inv(Next(m, Append(r, h)))
  {
    AppendShape(m, r, h);
    AppendOnce(m, r, h);
    ExtendedConserves(m, h, Chunk(m.readers[r].chunk));
  }

  lemma {:induction false} ContentStable(log: seq<Piece>, chunks: seq<Bytes>, chunk: Bytes)
    requires KnownChunks(log, |chunks|)
    ensures Content(log, chunks + [chunk]) == Content(log, chunks)
  {
    if log != [] {
      assert log[|log| - 1] in log;
      ContentStable(log[..|log| - 1], chunks, chunk);
    }
  }

  lemma ReadPending(m: Machine, r: nat, chunk: Bytes)
    requires Shape(m) && Enabled(m, Read(r, chunk))
    ensures var n := Next(m, Read(r, chunk));
            && (forall k: nat, h :: k < |m.chunks| ==> Pending(n, k, h) == Pending(m, k, h))
            && (forall h :: Pending(n, |m.chunks|, h) <==> h in Live(m.table))
  {
    var n := Next(m, Read(r, chunk));
    forall k: nat, h | k < |m.chunks| && Pending(m, k, h) ensures Pending(n, k, h) {
      var q :| q in m.readers && m.readers[q].chunk == k && h in m.readers[q].pending;
      assert q in n.readers && n.readers[q] == m.readers[q];
    }
    forall h | h in Live(m.table) ensures Pending(n, |m.chunks|, h) {
      assert r in n.readers && n.readers[r].chunk == |m.chunks| && h in n.readers[r].pending;
    }
  }

  lemma NotYetLogged(log: seq<Piece>, n: nat)
    requires KnownChunks(log, n)
    ensures multiset(log)[Chunk(n)] == 0
  {
    assert Chunk(n) !in log;
    assert Chunk(n) !in multiset(log);
  }

  lemma ReadConserves(m: Machine, r: nat, chunk: Bytes)
    requires Conserved(m) && ExactlyOnce(m) && Enabled(m, Read(r, chunk))
    ensures Conserved(Next(m, Read(r, chunk)))
  {
    forall h | 0 <= h < |m.history|
      ensures Content(m.history[h].log, m.chunks + [chunk]) == Content(m.history[h].log, m.chunks)
    {
      ContentStable(m.history[h].log, m.chunks, chunk);
    }
  }

  lemma ReadOnce(m: Machine, r: nat, chunk: Bytes)
    requires Shape(m) && ExactlyOnce(m) && Enabled(m, Read(r, chunk))
    ensures ExactlyOnce(Next(m, Read(r, chunk)))
  {
    ReadPending(m, r, chunk);
    forall h | 0 <= h < |m.history| ensures multiset(m.history[h].log)[Chunk(|m.chunks|)] == 0 {
      NotYetLogged(m.history[h].log, |m.chunks|);
    }
  }

  lemma ReadKeeps(m: Machine, r: nat, chunk: Bytes)
    requires Inv(m) && Enabled(m, Read(r, chunk))
    ensures Inv(Next(m, Read(r, chunk)))
  {
    ReadConserves(m, r, chunk);
    ReadOnce(m, r, chunk);
  }

  // ----- all steps ----------------------------------------------------------------------------------

  lemma SplitAdvances(m: Machine)
    requires Inv(m) && (m.command.SplitMeasure? || m.command.SplitFirst? || m.command.SplitSecond? || m.command.SplitRemove?)
    ensures Inv(AdvanceCommand(m))
  {
    SameBuffersKeep(m, AdvanceCommand(m));
  }

  lemma InsertAdvances(m: Machine)
    requires Inv(m) && (m.command.SplitInsertFirst? || m.command.SplitInsertSecond?)
    ensures Inv(AdvanceCommand(m))
  {
    var n := AdvanceCommand(m);
    if m.command.SplitInsertFirst? {
      InsertedKeeps(m, n, NextId(m.table.sessions), m.command.clone.input[..|m.command.clone.input| / 2], m.command.first);
    } else {
      InsertedKeeps(m, n, (m.command.firstId + 1) % LIMIT, m.command.clone.input[|m.command.clone.input| / 2..], m.command.second);
    }
  }

  lemma CollectAdvances(m: Machine)
    requires Inv(m) && m.command.MergeCollect?
    ensures Inv(AdvanceCommand(m))
  {
    SameBuffersKeep(m, AdvanceCommand(m));
  }

  lemma LoopAdvances(m: Machine)
    requires Inv(m) && m.command.MergeLoop?
    ensures Inv(AdvanceCommand(m))
  {
    SameBuffersKeep(m, AdvanceCommand(m));
  }

  lemma HoldingAdvances(m: Machine)
    requires Inv(m) && m.command.MergeHolding?
    ensures Inv(AdvanceCommand(m))
  {
    var (primary, clone, found) := (m.command.primary, m.command.clone, m.command.found);
    if found == [] {
      SameBuffersKeep(m, AdvanceCommand(m));
    } else {
      SplicedKeeps(m, clone.output, OutputAt(m, found[0].output), MergeLoop(primary, clone, found[1..]));
    }
  }

  /** The merge's last step waits for the lock it holds. */
  lemma FinalWaits(m: Machine)
    requires CommandShape(m) && m.command.MergeFinal?
    ensures WaitsForItself(m)
  {
    assert m.command.held in Awaited(m.command) * Held(m.command);
  }

  lemma AdvanceKeeps(m: Machine)
    requires Inv(m) && Enabled(m, Advance)
    ensures Inv(AdvanceCommand(m))
  {
    match m.command {
      case SplitInsertFirst(_, _, _, _) => InsertAdvances(m);
      case SplitInsertSecond(_, _, _, _) => InsertAdvances(m);
      case MergeCollect(_, _, _, _) => CollectAdvances(m);
      case MergeLoop(_, _, _) => LoopAdvances(m);
      case MergeHolding(_, _, _) => HoldingAdvances(m);
      case MergeFinal(_, _) => FinalWaits(m);
      case _ => SplitAdvances(m);
    }
  }

  lemma SessionStepKeeps(m: Machine, a: Action)
    requires Inv(m) && m.command == Ready
    requires a.SendTo? || a.BroadcastAll? || a.RemoveSession? || a.CloseAll? || a.BeginSplit? || a.BeginMerge?
    ensures Inv(Next(m, a))
  {
    SameBuffersKeep(m, Next(m, a));
  }

  /** Every step of every task keeps the invariant. */
  lemma StepKeeps(m: Machine, a: Action)
    requires Inv(m) && Enabled(m, a)
    ensures Inv(Next(m, a))
  {
    match a {
      case CreateSession => InsertedKeeps(m, Next(m, a), NextId(m.table.sessions), [], []);
      case DrainSession(id) => if id in m.table.sessions { DrainedKeeps(m, m.table.sessions[id].output); }
      case Advance => AdvanceKeeps(m);
      case Read(r, chunk) => ReadKeeps(m, r, chunk);
      case Append(r, h) => AppendKeeps(m, r, h);
      case _ => SessionStepKeeps(m, a);
    }
  }

  lemma {:induction false} RunKeeps(m: Machine, run: seq<Action>)
    requires Inv(m) && Exec(m, run).Some?
    ensures Inv(Exec(m, run).value)
    decreases |run|
  {
    if run != [] {
      StepKeeps(m, run[0]);
      RunKeeps(Next(m, run[0]), run[1..]);
    }
  }

  /** The states the machine can get into. */
  ghost predicate Reachable(m: Machine) { exists run :: Exec(INITIAL, run) == Some(m) }

  lemma ReachableInv(m: Machine)
    requires Reachable(m)
    ensures Inv(m)
  {
    var run :| Exec(INITIAL, run) == Some(m);
    RunKeeps(INITIAL, run);
  }
}
