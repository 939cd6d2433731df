/**
 The multiplexer as concurrent steps (src/pty/multiplexer.rs, src/pty/handle.rs).  Any number of
 background readers each snapshot the live buffers, then append the chunk they read to every buffer
 of the snapshot, one lock at a time; meanwhile a serial command loop creates, drains, splits, merges
 and removes sessions.  Each lock acquisition and each table operation is one atomic step, and the
 steps of different tasks interleave freely.

 `history`, `chunks`, `snapshots`, `creates` and `splits` record the run; no step depends on them.
 */
module SessionMachine {
  import opened Basics
  import opened SessionTable

  /** What was appended to a buffer: a chunk by its number, or bytes a merge brought. */
  datatype Piece = Chunk(index: nat) | Spliced(bytes: Bytes)

  datatype History = History(start: Bytes, drained: Bytes, log: seq<Piece>)

  /** A reader at work on a chunk; a reader that is not in the map is between chunks. */
  datatype Reader = Reader(chunk: nat, pending: set<Handle>)

  /** Where the command loop stands. */
  datatype Command =
    | Ready
    | SplitMeasure(id: nat, clone: Session)
    | SplitFirst(id: nat, clone: Session, half: nat)
    | SplitSecond(id: nat, clone: Session, half: nat, first: Bytes)
    | SplitInsertFirst(id: nat, clone: Session, first: Bytes, second: Bytes)
    | SplitInsertSecond(id: nat, clone: Session, firstId: nat, second: Bytes)
    | SplitRemove(id: nat)
    | MergeCollect(primary: nat, clone: Session, rest: seq<nat>, found: seq<Session>)
    | MergeLoop(primary: nat, clone: Session, found: seq<Session>)
    | MergeHolding(primary: nat, clone: Session, found: seq<Session>)
    | MergeFinal(held: Handle, awaited: Handle)
    | Panicked

  datatype Machine = Machine(table: Table, history: seq<History>, readers: map<nat, Reader>,
                             chunks: seq<Bytes>, snapshots: seq<set<Handle>>, command: Command,
                             creates: nat, splits: nat)

  const INITIAL := Machine(Table(map[], []), [], map[], [], [], Ready, 0, 0)

  datatype Action =
    | CreateSession
    | SendTo(id: nat, data: Bytes)
    | BroadcastAll(data: Bytes)
    | DrainSession(id: nat)
    | RemoveSession(id: nat)
    | CloseAll
    | BeginSplit(id: nat)
    | BeginMerge(ids: seq<nat>)
    | Advance
    | Read(reader: nat, chunk: Bytes)
    | Append(reader: nat, handle: Handle)

  // ----- the effects ------------------------------------------------------------------------------

  function Inserted(m: Machine, id: nat, input: Bytes, output: Bytes): Machine {
    m.(table := Insert(m.table, id, input, output), history := m.history + [History(output, [], [])])
  }

  function DrainedAt(m: Machine, h: Handle): Machine {
    if h < |m.table.outputs| && h < |m.history| then
      m.(table := Clear(m.table, h),
         history := m.history[h := m.history[h].(drained := m.history[h].drained + m.table.outputs[h])])
    else m
  }

  /** `bytes` at the end of a buffer, recorded as `piece`. */
  function Extended(m: Machine, h: Handle, piece: Piece, bytes: Bytes): Machine {
    if h < |m.table.outputs| && h < |m.history| then
      m.(table := AppendTo(m.table, h, bytes), history := m.history[h := m.history[h].(log := m.history[h].log + [piece])])
    else m
  }

  function OutputAt(m: Machine, h: Handle): Bytes { if h < |m.table.outputs| then m.table.outputs[h] else [] }

  /** The locks the command loop holds between two steps. */
  function Held(command: Command): set<Handle> {
    match command
    case MergeHolding(_, clone, _) => {clone.output}
    case MergeFinal(held, _) => {held}
    case _ => {}
  }

  /** The lock it waits for while holding others. */
  function Awaited(command: Command): set<Handle> {
    match command
    case MergeHolding(_, _, found) => if found == [] then {} else {found[0].output}
    case MergeFinal(_, awaited) => {awaited}
    case _ => {}
  }

  predicate WaitsForItself(m: Machine) { Awaited(m.command) * Held(m.command) != {} }

  /** The next step of a command that takes several. */
  function AdvanceCommand(m: Machine): Machine {
    match m.command
    case SplitMeasure(id, clone) => m.(command := SplitFirst(id, clone, |OutputAt(m, clone.output)| / 2))
    case SplitFirst(id, clone, half) =>
      var output := OutputAt(m, clone.output);
      m.(command := if half <= |output| then SplitSecond(id, clone, half, output[..half]) else Panicked)
    case SplitSecond(id, clone, half, first) =>
      var output := OutputAt(m, clone.output);
      m.(command := if half <= |output| then SplitInsertFirst(id, clone, first, output[half..]) else Panicked)
    case SplitInsertFirst(id, clone, first, second) =>
      var n := NextId(m.table.sessions);
      Inserted(m, n, clone.input[..|clone.input| / 2], first).(command := SplitInsertSecond(id, clone, n, second))
    case SplitInsertSecond(id, clone, firstId, second) =>
      Inserted(m, (firstId + 1) % LIMIT, clone.input[|clone.input| / 2..], second).(command := SplitRemove(id))
    case SplitRemove(id) => m.(table := Remove(m.table, id), command := Ready)
    case MergeCollect(primary, clone, rest, found) =>
      if rest == [] then m.(command := MergeLoop(primary, clone, found))
      else if rest[0] in m.table.sessions then
        m.(table := Remove(m.table, rest[0]),
           command := MergeCollect(primary, clone, rest[1..], found + [m.table.sessions[rest[0]]]))
      else m.(command := MergeCollect(primary, clone, rest[1..], found))
    case MergeLoop(primary, clone, found) =>
      if found != [] then m.(command := MergeHolding(primary, clone, found))
      else if primary in m.table.sessions then
        var s := m.table.sessions[primary];
        m.(table := m.table.(sessions := m.table.sessions[primary := s.(input := clone.input)]),
           command := MergeFinal(s.output, clone.output))
      else m.(command := Ready)
    case MergeHolding(primary, clone, found) =>
      if found == [] then m.(command := MergeLoop(primary, clone, found))
      else
        var bytes := OutputAt(m, found[0].output);
        Extended(m, clone.output, Spliced(bytes), bytes).(command := MergeLoop(primary, clone, found[1..]))
    case MergeFinal(held, awaited) =>
      if held < |m.table.outputs| then
        m.(table := m.table.(outputs := m.table.outputs[held := OutputAt(m, awaited)]), command := Ready)
      else m.(command := Ready)
    case Ready => m
    case Panicked => m
  }

  // ----- the steps --------------------------------------------------------------------------------

  predicate Enabled(m: Machine, a: Action) {
    match a
    case Advance => m.command != Ready && m.command != Panicked && !WaitsForItself(m)
    case Read(r, chunk) => r !in m.readers && chunk != []
    case Append(r, h) => r in m.readers && h in m.readers[r].pending && h !in Held(m.command)
    case _ => m.command == Ready
  }

  function Next(m: Machine, a: Action): Machine
    requires Enabled(m, a)
  {
    match a
    case CreateSession => Inserted(m, NextId(m.table.sessions), [], []).(creates := m.creates + 1)
    case SendTo(id, data) => m.(table := Send(m.table, id, data))
    case BroadcastAll(data) => m.(table := Broadcast(m.table, data))
    case DrainSession(id) => if id in m.table.sessions then DrainedAt(m, m.table.sessions[id].output) else m
    case RemoveSession(id) => m.(table := Remove(m.table, id))
    case CloseAll => m.(table := m.table.(sessions := map[]))
    case BeginSplit(id) =>
      if id in m.table.sessions then m.(command := SplitMeasure(id, m.table.sessions[id]), splits := m.splits + 1) else m
    case BeginMerge(ids) =>
      if ids != [] && ids[0] in m.table.sessions then
        m.(command := MergeCollect(ids[0], m.table.sessions[ids[0]], ids[1..], []))
      else m
    case Advance => AdvanceCommand(m)
    case Read(r, chunk) =>
      var live := Live(m.table);
      m.(chunks := m.chunks + [chunk], snapshots := m.snapshots + [live],
         readers := if live == {} then m.readers else m.readers[r := Reader(|m.chunks|, live)])
    case Append(r, h) =>
      var k := m.readers[r].chunk;
      var pending := m.readers[r].pending - {h};
      Extended(m, h, Chunk(k), if k < |m.chunks| then m.chunks[k] else [])
        .(readers := if pending == {} then m.readers - {r} else m.readers[r := Reader(k, pending)])
  }

  /** The state after a run; none when some step was not enabled. */
  function Exec(m: Machine, run: seq<Action>): Option<Machine>
    decreases |run|
  {
    if run == [] then Some(m)
    else if !Enabled(m, run[0]) then None
    else Exec(Next(m, run[0]), run[1..])
  }

  lemma {:induction false} ExecSplit(m: Machine, a: seq<Action>, b: seq<Action>)
    requires Exec(m, a).Some?
    ensures Exec(m, a + b) == Exec(Exec(m, a).value, b)
    decreases |a|
  {
    if a == [] {
      assert a + b == b;
    } else {
      assert (a + b)[1..] == a[1..] + b;
      ExecSplit(Next(m, a[0]), a[1..], b);
    }
  }
}
