/**
 The command loop and its client (src/pty/command_handler.rs, src/pty/handle.rs).  Commands wait in a
 bounded queue; one loop takes them in order, works on the process it owns until a command takes the
 process away, and answers each on its own one-shot channel.  The multiplexer writes through a copy of
 the process of its own, which nothing takes away.  A client closing or resizing the PTY escalates to a
 forced kill when that fails or takes too long.  What the operating system answers, and when a client's
 patience ends, is left open.
 */
module CommandLoop {
  import opened Basics

  datatype Command =
    | Write | Read | Resize | Execute | KillProcess(signal: int) | WaitPid(options: int) | CloseMasterFd
    | ReadAll | SetEnv | ChangeShell | Status | SetLogLevel
    | Close | ForceKill | ShutdownPty
    | Broadcast | ReadFromSession | ReadAllSessions | MergeSessions | SplitSession | ListSessions
    | CreateSession | RemoveSession | CloseAllSessions | SendToSession

  const SIGKILL := 9
  const SIGTERM := 15
  const WNOHANG := 1

  /** What the loop does to the process, through the handler's copy of it or through the multiplexer's. */
  datatype Call = Kill(signal: int) | Wait(options: int) | CloseFd | Use(command: Command)

  datatype Kind = Success | Data | Failure

  datatype Answer = Answer(ticket: nat, command: Command, kind: Kind)

  datatype Mode = Running | Stopped | Hung

  /** How the operation behind a command goes.  The multiplexer may refuse it, as for a session that does
      not exist; only a merge can hang, and no merge works. */
  datatype Outcome = Works | Fails | Refused | Hangs

  /** The loop's own state; `process` says whether the handler still has its copy of the process. */
  datatype Server = Server(process: bool, calls: seq<Call>, answers: seq<Answer>, mode: Mode)

  predicate Takes(c: Command) { c.Close? || c.ForceKill? || c.ShutdownPty? }

  predicate ForSessions(c: Command) {
    c.Broadcast? || c.ReadFromSession? || c.ReadAllSessions? || c.MergeSessions? || c.SplitSession? || c.ListSessions?
    || c.CreateSession? || c.RemoveSession? || c.CloseAllSessions? || c.SendToSession?
  }

  predicate Possible(c: Command, o: Outcome) {
    match o
    case Works => !c.MergeSessions?
    case Fails => !c.MergeSessions?
    case Refused => ForSessions(c) && !c.Broadcast?
    case Hangs => c.MergeSessions?
  }

  /** The session commands that write to the process. */
  predicate Writes(c: Command) { c.Broadcast? || c.SendToSession? }

  /** Such a command writes whether or not the handler still has its process, unless it is refused. */
  function SessionWrite(c: Command, o: Outcome): seq<Call> {
    if Writes(c) && !o.Refused? then [Use(c)] else []
  }

  function KindOf(c: Command, o: Outcome): Kind {
    if o != Works then Failure else if c.Read? || c.ReadAll? then Data else Success
  }

  /** The calls that end the process. */
  function Ending(c: Command): seq<Call> {
    if c.ForceKill? then [Kill(SIGKILL), Wait(0), CloseFd] else [Kill(SIGTERM), Wait(WNOHANG), CloseFd]
  }

  function Reply(s: Server, ticket: nat, c: Command, kind: Kind): Server {
    s.(answers := s.answers + [Answer(ticket, c, kind)])
  }

  /** One command through the loop. */
  function Serve(s: Server, ticket: nat, c: Command, o: Outcome): Server {
    if ForSessions(c) then
      if o.Hangs? then s.(mode := Hung) else Reply(s.(calls := s.calls + SessionWrite(c, o)), ticket, c, KindOf(c, o))
    else if Takes(c) then
      var t := if s.process
               then Reply(s.(process := false, calls := s.calls + Ending(c)), ticket, c, KindOf(c, o))
               else Reply(s, ticket, c, if c.ForceKill? then Failure else Success);
      if c.ShutdownPty? then t.(mode := Stopped) else t
    else if s.process then
      var call := match c case KillProcess(signal) => Kill(signal) case WaitPid(options) => Wait(options)
                          case CloseMasterFd => CloseFd case _ => Use(c);
      Reply(s.(calls := s.calls + [call]), ticket, c, KindOf(c, o))
    else Reply(s, ticket, c, Failure)
  }

  // ----- the system -----------------------------------------------------------------------------

  datatype Message = Message(ticket: nat, command: Command)

  /** The operations of a client that escalate to a forced kill. */
  predicate Escalates(op: Command) { op.Close? || op.Resize? }

  /** Where a client's call of `PtyHandle::close` or `resize` stands. */
  datatype Client =
    | Outside
    | AwaitReply(op: Command, first: nat)
    | AwaitKill(op: Command, first: nat, kill: nat)
    | Returned(op: Command, ok: bool, ticket: Option<nat>, killTicket: Option<nat>)

  datatype System = System(server: Server, queue: seq<Message>, issued: nat, dropped: set<nat>, client: Client)

  const CAPACITY := 100

  const START := System(Server(true, [], [], Running), [], 0, {}, Outside)

  datatype Action =
    | Submit(command: Command)      // any other client
    | ServeNext(outcome: Outcome)
    | Call(op: Command)
    | TakeReply
    | RunOutOfPatience

  /** The answer that arrived on a ticket's channel. */
  function AnswerOf(answers: seq<Answer>, ticket: nat): Option<Kind> {
    if answers == [] then None
    else if answers[|answers| - 1].ticket == ticket then Some(answers[|answers| - 1].kind)
    else AnswerOf(answers[..|answers| - 1], ticket)
  }

  /** Sending fails when the loop is gone, and blocks while the queue is full. */
  predicate CanSend(s: System) { s.server.mode == Stopped || |s.queue| < CAPACITY }

  function Enqueued(s: System, c: Command): System {
    s.(queue := s.queue + [Message(s.issued, c)], issued := s.issued + 1)
  }

  /** `force_kill`, called when the operation failed or took too long. */
  function Escalated(s: System, op: Command, first: nat): System {
    if s.server.mode == Stopped then s.(client := Returned(op, false, Some(first), None))
    else Enqueued(s, ForceKill).(client := AwaitKill(op, first, s.issued))
  }

  predicate Arrived(s: System, ticket: nat) { AnswerOf(s.server.answers, ticket).Some? || ticket in s.dropped }

  predicate Enabled(s: System, a: Action) {
    match a
    case Submit(_) => s.server.mode != Stopped && |s.queue| < CAPACITY
    case ServeNext(o) => s.server.mode == Running && s.queue != [] && Possible(s.queue[0].command, o)
    case Call(op) => s.client.Outside? && Escalates(op) && CanSend(s)
    case TakeReply =>
      || (s.client.AwaitReply? && Arrived(s, s.client.first)
          && (AnswerOf(s.server.answers, s.client.first) == Some(Failure) ==> CanSend(s)))
      || (s.client.AwaitKill? && Arrived(s, s.client.kill))
    case RunOutOfPatience => (s.client.AwaitReply? && CanSend(s)) || s.client.AwaitKill?
  }

  function Next(s: System, a: Action): System
    requires Enabled(s, a)
  {
    match a
    case Submit(c) => Enqueued(s, c)
    case ServeNext(o) =>
      var (m, rest) := (s.queue[0], s.queue[1..]);
      var server := Serve(s.server, m.ticket, m.command, o);
      if server.mode == Stopped then
        s.(server := server, queue := [], dropped := s.dropped + set i | 0 <= i < |rest| :: rest[i].ticket)
      else s.(server := server, queue := rest)
    case Call(op) =>
      if s.server.mode == Stopped then s.(client := Returned(op, false, None, None))
      else Enqueued(s, op).(client := AwaitReply(op, s.issued))
    case TakeReply =>
      var (op, first) := (s.client.op, s.client.first);
      if s.client.AwaitReply? then
        match AnswerOf(s.server.answers, first)
        case Some(Success) => s.(client := Returned(op, true, Some(first), None))
        case Some(Failure) => Escalated(s, op, first)
        case _ => s.(client := Returned(op, false, Some(first), None))
      else
        var killed := AnswerOf(s.server.answers, s.client.kill) == Some(Success);
        s.(client := Returned(op, killed, Some(first), Some(s.client.kill)))
    case RunOutOfPatience =>
      var (op, first) := (s.client.op, s.client.first);
      if s.client.AwaitReply? then Escalated(s, op, first)
      else s.(client := Returned(op, false, Some(first), Some(s.client.kill)))
  }

  function Exec(s: System, run: seq<Action>): Option<System>
    decreases |run|
  {
    if run == [] then Some(s)
    else if !Enabled(s, run[0]) then None
    else Exec(Next(s, run[0]), run[1..])
  }

  // ----- invariants -----------------------------------------------------------------------------

  /** Answers in the order of their tickets, none left out; the rest waits in the queue. */
  ghost predicate Fifo(s: System) {
    && (forall i :: 0 <= i < |s.server.answers| ==> s.server.answers[i].ticket == i)
    && (s.server.mode == Running ==>
          && |s.server.answers| + |s.queue| == s.issued
          && forall i :: 0 <= i < |s.queue| ==> s.queue[i].ticket == |s.server.answers| + i)
    && (s.server.mode == Stopped ==>
          && 0 < |s.server.answers| <= s.issued && s.queue == []
          && forall k :: k in s.dropped ==> |s.server.answers| <= k)
    && (s.server.mode == Hung ==>
          && |s.server.answers| + 1 + |s.queue| == s.issued
          && forall i :: 0 <= i < |s.queue| ==> s.queue[i].ticket == |s.server.answers| + 1 + i)
    && (s.server.mode != Stopped ==> s.dropped == {})
  }

  /** From `k` on the process was signalled, waited for and closed, as the command that took it does: a
      forced kill sends 9 and waits for the end, the others send 15 and do not wait.  All later calls are
      the writes of session commands. */
  predicate EndedAt(calls: seq<Call>, k: nat, c: Command) {
    && k + 3 <= |calls|
    && calls[k] == (if c == ForceKill then Kill(9) else Kill(15))
    && calls[k + 1] == (if c == ForceKill then Wait(0) else Wait(1))
    && calls[k + 2] == CloseFd
    && forall i :: k + 3 <= i < |calls| ==> calls[i].Use? && Writes(calls[i].command)
  }

  ghost predicate EndedBy(calls: seq<Call>, c: Command) { exists k: nat :: EndedAt(calls, k, c) }

  ghost predicate Ended(calls: seq<Call>) { exists c :: Takes(c) && EndedBy(calls, c) }

  /** The first answer to a command that took the process. */
  predicate FirstTaker(answers: seq<Answer>, i: nat) {
    && i < |answers| && Takes(answers[i].command)
    && forall j :: 0 <= j < i ==> !Takes(answers[j].command)
  }

  ghost predicate EndedRight(answers: seq<Answer>, calls: seq<Call>) {
    forall i: nat :: FirstTaker(answers, i) ==> EndedBy(calls, answers[i].command)
  }

  predicate Taken(answers: seq<Answer>) { exists i :: 0 <= i < |answers| && Takes(answers[i].command) }

  /** After an answer to a command that took the process, the answers to others are settled. */
  predicate Settled(answers: seq<Answer>) {
    forall i, j :: 0 <= i < j < |answers| && Takes(answers[i].command) ==> Refuses(answers[j])
  }

  /** How a command for the process is answered once it is gone. */
  predicate Refuses(a: Answer) {
    ForSessions(a.command) || a.kind == if a.command.Close? || a.command.ShutdownPty? then Success else Failure
  }

  predicate ShutDown(answers: seq<Answer>) { answers != [] && answers[|answers| - 1].command.ShutdownPty? }

  /** The process is gone exactly when some command has taken it; it was ended then, and only session
      commands have written to it since. */
  ghost predicate Lifecycle(s: Server) {
    && (s.process <==> !Taken(s.answers))
    && EndedRight(s.answers, s.calls)
    && (s.mode == Stopped <==> ShutDown(s.answers))
    && (forall i :: 0 <= i < |s.answers| - 1 ==> !s.answers[i].command.ShutdownPty?)
    && Settled(s.answers)
  }

  /** A ticket stands for a command, wherever it is. */
  ghost predicate Carries(s: System, ticket: nat, c: Command) {
    && ticket < s.issued
    && (ticket < |s.server.answers| ==> s.server.answers[ticket].command == c)
    && (forall i :: 0 <= i < |s.queue| && s.queue[i].ticket == ticket ==> s.queue[i].command == c)
    && (s.server.mode == Hung ==> ticket != |s.server.answers|)
  }

  ghost predicate AnsweredWell(s: System, op: Command, ticket: Option<nat>) {
    && ticket.Some? && ticket.value < |s.server.answers|
    && s.server.answers[ticket.value] == Answer(ticket.value, op, Success)
  }

  /** What a client's success means: the operation itself was answered with success and no kill was
      tried, or else a resize was followed by a kill that succeeded. */
  ghost predicate Earned(s: System, op: Command, ticket: Option<nat>, killTicket: Option<nat>) {
    || (killTicket == None && AnsweredWell(s, op, ticket))
    || (op.Resize? && AnsweredWell(s, ForceKill, killTicket))
  }

  ghost predicate ClientState(s: System) {
    match s.client
    case Outside => true
    case AwaitReply(op, first) => Escalates(op) && Carries(s, first, op)
    case AwaitKill(op, first, kill) =>
      Escalates(op) && first < kill && Carries(s, first, op) && Carries(s, kill, ForceKill)
    case Returned(op, ok, ticket, killTicket) => Escalates(op) && (ok ==> Earned(s, op, ticket, killTicket))
  }

  ghost predicate Inv(s: System) { Fifo(s) && Lifecycle(s.server) && ClientState(s) }

  lemma {:induction false} AnswerAt(answers: seq<Answer>, ticket: nat)
    requires forall i :: 0 <= i < |answers| ==> answers[i].ticket == i
    ensures AnswerOf(answers, ticket) == if ticket < |answers| then Some(answers[ticket].kind) else None
  {
    if answers != [] {
      AnswerAt(answers[..|answers| - 1], ticket);
    }
  }

  lemma TakenSplit(answers: seq<Answer>, a: Answer)
    ensures Taken(answers + [a]) <==> Taken(answers) || Takes(a.command)
  {
    var both := answers + [a];
    if Taken(answers) {
      var i :| 0 <= i < |answers| && Takes(answers[i].command);
      assert both[i] == answers[i];
    }
    if Takes(a.command) {
      assert both[|answers|] == a;
    }
  }

  lemma SettledSplit(answers: seq<Answer>, a: Answer)
    requires Settled(answers) && (Taken(answers) ==> Refuses(a))
    ensures Settled(answers + [a])
  {
  }

  /** What serving a command that comes to its reply does. */
  lemma ServeAdds(s: Server, c: Command, o: Outcome) returns (a: Answer)
    requires s.mode == Running && Serve(s, |s.answers|, c, o).mode != Hung
    ensures a.command == c && (!s.process ==> Refuses(a))
    ensures var t := Serve(s, |s.answers|, c, o);
      && t.answers == s.answers + [a]
      && (t.process <==> s.process && !Takes(c))
      && (!s.process ==> t.calls == s.calls + if ForSessions(c) then SessionWrite(c, o) else [])
      && (s.process && Takes(c) ==> t.calls == s.calls + Ending(c))
      && (t.mode == Stopped <==> c.ShutdownPty?)
  {
    a := Serve(s, |s.answers|, c, o).answers[|s.answers|];
  }

  lemma EndedMore(calls: seq<Call>, taker: Command, c: Command, o: Outcome)
    requires EndedBy(calls, taker)
    ensures EndedBy(calls + SessionWrite(c, o), taker) && EndedBy(calls + [], taker)
  {
    var k: nat :| EndedAt(calls, k, taker);
    assert calls + [] == calls;
    assert EndedAt(calls + SessionWrite(c, o), k, taker);
  }

  lemma EndedNow(calls: seq<Call>, c: Command)
    requires Takes(c)
    ensures EndedBy(calls + Ending(c), c)
  {
    assert EndedAt(calls + Ending(c), |calls|, c);
  }

  lemma {:induction false} TakenFirst(answers: seq<Answer>)
    ensures Taken(answers) ==> exists i: nat :: FirstTaker(answers, i)
    decreases |answers|
  {
    if answers != [] {
      var init := answers[..|answers| - 1];
      TakenFirst(init);
      if Taken(init) {
        var i: nat :| FirstTaker(init, i);
        assert FirstTaker(answers, i);
      } else if Taken(answers) {
        assert forall j :: 0 <= j < |init| ==> init[j] == answers[j];
        assert FirstTaker(answers, |answers| - 1);
      }
    }
  }

  lemma FirstTakerMore(answers: seq<Answer>, a: Answer, i: nat)
    requires FirstTaker(answers + [a], i)
    ensures FirstTaker(answers, i) || (i == |answers| && !Taken(answers) && Takes(a.command))
  {
    assert forall j :: 0 <= j < |answers| ==> (answers + [a])[j] == answers[j];
  }

  lemma ServeLifecycle(s: Server, c: Command, o: Outcome)
    requires Lifecycle(s) && s.mode == Running
    ensures Lifecycle(Serve(s, |s.answers|, c, o))
  {
    if Serve(s, |s.answers|, c, o).mode != Hung {
      var a := ServeAdds(s, c, o);
      LifecycleMore(s, Serve(s, |s.answers|, c, o), a, o);
    }
  }

  /** What an answered command leaves of the lifecycle, from the facts alone. */
  lemma LifecycleMore(s: Server, t: Server, a: Answer, o: Outcome)
    requires Lifecycle(s) && s.mode == Running && t.mode != Hung
    requires t.answers == s.answers + [a] && (!s.process ==> Refuses(a))
    requires t.process <==> s.process && !Takes(a.command)
    requires !s.process ==> t.calls == s.calls + if ForSessions(a.command) then SessionWrite(a.command, o) else []
    requires s.process && Takes(a.command) ==> t.calls == s.calls + Ending(a.command)
    requires t.mode == Stopped <==> a.command.ShutdownPty?
    ensures Lifecycle(t)
  {
    TakenSplit(s.answers, a);
    SettledSplit(s.answers, a);
    ShutdownLast(s.answers, a);
    EndingMore(s, t, a, o);
  }

  lemma ShutdownLast(answers: seq<Answer>, a: Answer)
    requires !ShutDown(answers) && forall i :: 0 <= i < |answers| - 1 ==> !answers[i].command.ShutdownPty?
    ensures ShutDown(answers + [a]) <==> a.command.ShutdownPty?
    ensures forall i :: 0 <= i < |answers| ==> !(answers + [a])[i].command.ShutdownPty?
  {
  }

  lemma EndingMore(s: Server, t: Server, a: Answer, o: Outcome)
    requires (s.process <==> !Taken(s.answers)) && EndedRight(s.answers, s.calls)
    requires t.answers == s.answers + [a]
    requires !s.process ==> t.calls == s.calls + if ForSessions(a.command) then SessionWrite(a.command, o) else []
    requires s.process && Takes(a.command) ==> t.calls == s.calls + Ending(a.command)
    ensures EndedRight(t.answers, t.calls)
  {
    if Taken(s.answers) {
      EndedStays(s.answers, s.calls, a, a.command, o);
    } else if Takes(a.command) {
      EndedFresh(s.answers, s.calls, a);
    } else {
      NotEnded(s.answers, a, t.calls);
    }
  }

  lemma EndedStays(answers: seq<Answer>, calls: seq<Call>, a: Answer, c: Command, o: Outcome)
    requires Taken(answers) && EndedRight(answers, calls)
    ensures EndedRight(answers + [a], calls + if ForSessions(c) then SessionWrite(c, o) else [])
  {
    forall i: nat | FirstTaker(answers + [a], i)
      ensures EndedBy(calls + if ForSessions(c) then SessionWrite(c, o) else [], (answers + [a])[i].command)
    {
      FirstTakerMore(answers, a, i);
      assert (answers + [a])[i] == answers[i];
      EndedMore(calls, answers[i].command, c, o);
    }
  }

  lemma EndedFresh(answers: seq<Answer>, calls: seq<Call>, a: Answer)
    requires !Taken(answers) && Takes(a.command)
    ensures EndedRight(answers + [a], calls + Ending(a.command))
  {
    forall i: nat | FirstTaker(answers + [a], i)
      ensures EndedBy(calls + Ending(a.command), (answers + [a])[i].command)
    {
      FirstTakerMore(answers, a, i);
      EndedNow(calls, a.command);
    }
  }

  lemma NotEnded(answers: seq<Answer>, a: Answer, calls: seq<Call>)
    requires !Taken(answers) && !Takes(a.command)
    ensures EndedRight(answers + [a], calls)
  {
    forall i: nat ensures !FirstTaker(answers + [a], i) {
      if FirstTaker(answers + [a], i) {
        FirstTakerMore(answers, a, i);
      }
    }
  }

  lemma ServeFifo(s: System, o: Outcome)
    requires Fifo(s) && Enabled(s, ServeNext(o))
    ensures Fifo(Next(s, ServeNext(o)))
  {
    var (m, rest) := (s.queue[0], s.queue[1..]);
    assert m.ticket == |s.server.answers|;
    assert forall i :: 0 <= i < |rest| ==> rest[i] == s.queue[i + 1];
  }

  lemma ServeCarries(s: System, o: Outcome, ticket: nat, c: Command)
    requires Fifo(s) && Enabled(s, ServeNext(o)) && Carries(s, ticket, c) && !c.MergeSessions?
    ensures Carries(Next(s, ServeNext(o)), ticket, c)
  {
    var n := Next(s, ServeNext(o));
    assert forall i :: 0 <= i < |s.queue| - 1 ==> s.queue[1..][i] == s.queue[i + 1];
    assert s.queue[0].ticket == |s.server.answers|;
    assert forall i :: 0 <= i < |s.server.answers| ==> n.server.answers[i] == s.server.answers[i];
  }

  lemma ServeClient(s: System, o: Outcome)
    requires Fifo(s) && ClientState(s) && Enabled(s, ServeNext(o))
    ensures ClientState(Next(s, ServeNext(o)))
  {
    if s.client.AwaitReply? {
      ServeCarries(s, o, s.client.first, s.client.op);
    } else if s.client.AwaitKill? {
      ServeCarries(s, o, s.client.first, s.client.op);
      ServeCarries(s, o, s.client.kill, ForceKill);
    } else if s.client.Returned? {
      var n := Next(s, ServeNext(o));
      assert forall i :: 0 <= i < |s.server.answers| ==> n.server.answers[i] == s.server.answers[i];
    }
  }

  lemma EnqueuedKeeps(s: System, c: Command)
    requires Fifo(s) && s.server.mode != Stopped
    ensures Fifo(Enqueued(s, c)) && Carries(Enqueued(s, c), s.issued, c)
    ensures forall ticket: nat, d :: Carries(s, ticket, d) ==> Carries(Enqueued(s, c), ticket, d)
  {
  }

  lemma EscalatedKeeps(s: System)
    requires Inv(s) && s.client.AwaitReply? && CanSend(s)
    ensures Inv(Escalated(s, s.client.op, s.client.first))
  {
    if s.server.mode != Stopped {
      EnqueuedKeeps(s, ForceKill);
    }
  }

  /** A forced kill that is answered with success was the first command to take the process. */
  lemma KillIsFirst(s: System, i: nat, kill: nat)
    requires Lifecycle(s.server) && i < kill < |s.server.answers| && Takes(s.server.answers[i].command)
    requires s.server.answers[kill].command == ForceKill
    ensures s.server.answers[kill].kind == Failure
  {
    assert Refuses(s.server.answers[kill]);
  }

  /** A forced kill answered after a close fails: the close has taken the process. */
  lemma KillAfterClose(s: System, close: nat, kill: nat)
    requires Fifo(s) && Lifecycle(s.server) && close < kill && Carries(s, close, Close) && Carries(s, kill, ForceKill)
    ensures AnswerOf(s.server.answers, kill).Some? ==> AnswerOf(s.server.answers, kill) == Some(Failure)
  {
    AnswerAt(s.server.answers, kill);
    if kill < |s.server.answers| {
      KillIsFirst(s, close, kill);
    }
  }

  lemma ServeKeeps(s: System, o: Outcome)
    requires Inv(s) && Enabled(s, ServeNext(o))
    ensures Inv(Next(s, ServeNext(o)))
  {
    ServeFifo(s, o);
    ServeLifecycle(s.server, s.queue[0].command, o);
    ServeClient(s, o);
  }

  /** An operation that is answered: success ends it well, failure escalates. */
  lemma ReplyKeeps(s: System)
    requires Inv(s) && s.client.AwaitReply? && Enabled(s, TakeReply)
    ensures Inv(Next(s, TakeReply))
  {
    var (op, first) := (s.client.op, s.client.first);
    AnswerAt(s.server.answers, first);
    if AnswerOf(s.server.answers, first) == Some(Failure) {
      EscalatedKeeps(s);
    } else if AnswerOf(s.server.answers, first) == Some(Success) {
      assert AnsweredWell(s, op, Some(first));
    } else {
      assert !Next(s, TakeReply).client.ok;
    }
  }

  lemma KillReplyKeeps(s: System)
    requires Inv(s) && s.client.AwaitKill? && Enabled(s, TakeReply)
    ensures Inv(Next(s, TakeReply))
  {
    AnswerAt(s.server.answers, s.client.kill);
    if s.client.op.Close? {
      KillAfterClose(s, s.client.first, s.client.kill);
      assert !Next(s, TakeReply).client.ok;
    } else if AnswerOf(s.server.answers, s.client.kill) == Some(Success) {
      assert AnsweredWell(s, ForceKill, Some(s.client.kill));
    }
  }

  lemma SubmitKeeps(s: System, c: Command)
    requires Inv(s) && s.server.mode != Stopped
    ensures Inv(Enqueued(s, c)) && Carries(Enqueued(s, c), s.issued, c)
  {
    EnqueuedKeeps(s, c);
  }

  lemma StepKeeps(s: System, a: Action)
    requires Inv(s) && Enabled(s, a)
    ensures Inv(Next(s, a))
  {
    if a.Submit? {
      SubmitKeeps(s, a.command);
    } else if a.ServeNext? {
      ServeKeeps(s, a.outcome);
    } else if a.Call? {
      if s.server.mode != Stopped {
        SubmitKeeps(s, a.op);
      }
    } else if a.TakeReply? {
      if s.client.AwaitReply? {
        ReplyKeeps(s);
      } else {
        KillReplyKeeps(s);
      }
    } else if s.client.AwaitReply? {
      EscalatedKeeps(s);
    }
  }

  lemma {:induction false} RunKeeps(s: System, run: seq<Action>)
    requires Inv(s) && Exec(s, run).Some?
    ensures Inv(Exec(s, run).value)
    decreases |run|
  {
    if run != [] {
      StepKeeps(s, run[0]);
      RunKeeps(Next(s, run[0]), run[1..]);
    }
  }

  ghost predicate Reachable(s: System) { exists run :: Exec(START, run) == Some(s) }

  lemma ReachableInv(s: System)
    requires Reachable(s)
    ensures Inv(s)
  {
    var run :| Exec(START, run) == Some(s);
    RunKeeps(START, run);
  }

  // ----- theorems -------------------------------------------------------------------------------

  /** Every run: the tickets are answered in the order they were issued, each once and none skipped; a
      shutdown is the last to be answered; a hung merge leaves its own ticket and all later ones open. */
  lemma AnsweredInOrder(s: System)
    requires Reachable(s)
    ensures forall i :: 0 <= i < |s.server.answers| ==> s.server.answers[i].ticket == i
    ensures |s.server.answers| <= s.issued
    ensures s.server.mode == Running ==> |s.queue| == s.issued - |s.server.answers|
    ensures forall i :: 0 <= i < |s.server.answers| && s.server.answers[i].command.ShutdownPty? ==>
      i == |s.server.answers| - 1 && s.server.mode == Stopped && s.queue == []
  {
    ReachableInv(s);
  }

  /** A stopped or hung loop answers nothing more, whatever is still sent. */
  lemma {:induction false} SilentForever(s: System, run: seq<Action>)
    requires s.server.mode != Running && Exec(s, run).Some?
    ensures Exec(s, run).value.server == s.server
    decreases |run|
  {
    if run != [] {
      SilentForever(Next(s, run[0]), run[1..]);
    }
  }

  /** The writes of the session commands served in a run, in order. */
  function SessionWrites(s: System, run: seq<Action>): seq<Call>
    decreases |run|
  {
    if run == [] || !Enabled(s, run[0]) then []
    else
      (if run[0].ServeNext? then SessionWrite(s.queue[0].command, run[0].outcome) else [])
      + SessionWrites(Next(s, run[0]), run[1..])
  }

  lemma GoneStep(s: System, a: Action)
    requires !s.server.process && Enabled(s, a)
    ensures var n := Next(s, a);
            && !n.server.process
            && n.server.calls == s.server.calls + if a.ServeNext? then SessionWrite(s.queue[0].command, a.outcome) else []
  {
  }

  /** Once taken, the process never comes back to the handler, and all that still reaches it are the
      writes of the session commands served, every one of them. */
  lemma {:induction false} ProcessGoneForever(s: System, run: seq<Action>)
    requires !s.server.process && Exec(s, run).Some?
    ensures !Exec(s, run).value.server.process
    ensures Exec(s, run).value.server.calls == s.server.calls + SessionWrites(s, run)
    decreases |run|
  {
    if run == [] {
      assert s.server.calls + [] == s.server.calls;
    } else {
      GoneStep(s, run[0]);
      ProcessGoneForever(Next(s, run[0]), run[1..]);
      var write := if run[0].ServeNext? then SessionWrite(s.queue[0].command, run[0].outcome) else [];
      var rest := SessionWrites(Next(s, run[0]), run[1..]);
      assert s.server.calls + write + rest == s.server.calls + (write + rest);
    }
  }

  /** After a command that took the process, every command that goes through the handler's copy of it is
      refused, except that closing and shutting down again report success; so a forced kill behind a
      close always fails.  The process was ended, and since then only session commands wrote to it. */
  lemma RefusedAfterTaking(s: System, i: nat, j: nat)
    requires Reachable(s) && i < j < |s.server.answers|
    requires Takes(s.server.answers[i].command) && !ForSessions(s.server.answers[j].command)
    ensures !s.server.process && Ended(s.server.calls)
    ensures s.server.answers[j].kind
         == if s.server.answers[j].command.Close? || s.server.answers[j].command.ShutdownPty? then Success else Failure
  {
    ReachableInv(s);
    assert Taken(s.server.answers);
    TakenFirst(s.server.answers);
    var k: nat :| FirstTaker(s.server.answers, k);
    assert Takes(s.server.answers[k].command);
  }

  /** In every run the first command answered that takes the process decides how it is ended: signal 15, a
      wait that does not block and the close for a close or a shutdown, signal 9, a wait for the end and
      the close for a forced kill.  After these three calls come only writes of session commands. */
  lemma FirstTakerEnds(s: System, i: nat) returns (k: nat)
    requires Reachable(s) && FirstTaker(s.server.answers, i)
    ensures !s.server.process && k + 3 <= |s.server.calls|
    ensures s.server.answers[i].command.ForceKill? ==> s.server.calls[k..k + 3] == [Kill(9), Wait(0), CloseFd]
    ensures !s.server.answers[i].command.ForceKill? ==> s.server.calls[k..k + 3] == [Kill(15), Wait(1), CloseFd]
    ensures forall j :: k + 3 <= j < |s.server.calls| ==> s.server.calls[j] in {Use(Broadcast), Use(SendToSession)}
  {
    ReachableInv(s);
    assert Taken(s.server.answers);
    k :| EndedAt(s.server.calls, k, s.server.answers[i].command);
    var three := s.server.calls[k..k + 3];
    assert three == [three[0], three[1], three[2]];
  }

  /** With its process present, a command that does not take it makes one call, its own: a kill with its
      own signal, a wait with its own options, the close of the terminal, or what the command asks for. */
  lemma OwnCall(s: Server, ticket: nat, c: Command, o: Outcome) returns (call: Call)
    requires s.process && !ForSessions(c) && c !in {Close, ForceKill, ShutdownPty}
    ensures Serve(s, ticket, c, o).calls == s.calls + [call] && Serve(s, ticket, c, o).process
    ensures forall signal :: c == KillProcess(signal) ==> call == Kill(signal)
    ensures forall options :: c == WaitPid(options) ==> call == Wait(options)
    ensures c == CloseMasterFd ==> call == CloseFd
    ensures !c.KillProcess? && !c.WaitPid? && !c.CloseMasterFd? ==> call == Use(c)
  {
    call := match c
      case KillProcess(signal) => Kill(signal)
      case WaitPid(options) => Wait(options)
      case CloseMasterFd => CloseFd
      case _ => Use(c);
  }

  /** How each kind of command is answered: a working read with data, any other working command with
      success, and without the process only closing and shutting down succeed.  The ticket is the one
      that was served, and exactly the three taking commands leave no process. */
  lemma OneReply(s: Server, ticket: nat, c: Command, o: Outcome) returns (a: Answer)
    requires !o.Hangs?
    ensures Serve(s, ticket, c, o).answers == s.answers + [a] && a.ticket == ticket && a.command == c
    ensures ForSessions(c) ==> a.kind == if o.Works? then Success else Failure
    ensures !ForSessions(c) && s.process && o.Works? ==> a.kind == if c in {Read, ReadAll} then Data else Success
    ensures !ForSessions(c) && s.process && !o.Works? ==> a.kind == Failure
    ensures !ForSessions(c) && !s.process ==> a.kind == if c in {Close, ShutdownPty} then Success else Failure
    ensures Serve(s, ticket, c, o).process <==> s.process && c !in {Close, ForceKill, ShutdownPty}
    ensures Serve(s, ticket, c, o).mode == if c == ShutdownPty then Stopped else s.mode
  {
    a := Answer(ticket, c, Serve(s, ticket, c, o).answers[|s.answers|].kind);
  }

  /** Which working commands are answered alike with the process and without it: those for sessions, and
      closing and shutting down. */
  lemma WhoNeedsProcess(s: Server, ticket: nat, c: Command)
    ensures Serve(s.(process := false), ticket, c, Works).answers == Serve(s.(process := true), ticket, c, Works).answers
       <==> c in {Close, ShutdownPty, Broadcast, ReadFromSession, ReadAllSessions, MergeSessions, SplitSession,
                  ListSessions, CreateSession, RemoveSession, CloseAllSessions, SendToSession}
  {
    var a := OneReply(s.(process := false), ticket, c, Works);
    var b := OneReply(s.(process := true), ticket, c, Works);
    assert (s.answers + [a])[|s.answers|] == a && (s.answers + [b])[|s.answers|] == b;
  }

  /** Exactly a broadcast and a send to a session reach the process beside the handler, each unless the
      multiplexer refuses it. */
  lemma SessionReach(s: Server, ticket: nat, c: Command, o: Outcome)
    requires ForSessions(c) && !o.Hangs?
    ensures Serve(s, ticket, c, o).calls
         == if c in {Broadcast, SendToSession} && !o.Refused? then s.calls + [Use(c)] else s.calls
  {
    assert s.calls + [] == s.calls;
  }

  /** What a waiting client makes of its reply: success ends the operation well, failure sends a forced kill
      behind everything that waits, or gives up when the loop is gone, and a reply that will not come is
      an error. */
  lemma ReplyDecides(s: System)
    requires Inv(s) && s.client.AwaitReply? && Enabled(s, TakeReply)
    ensures var (n, op, first) := (Next(s, TakeReply), s.client.op, s.client.first);
            if first < |s.server.answers| && s.server.answers[first].kind == Success then
              n == s.(client := Returned(op, true, Some(first), None))
            else if first < |s.server.answers| && s.server.answers[first].kind == Failure && s.server.mode != Stopped then
              n == s.(queue := s.queue + [Message(s.issued, ForceKill)], issued := s.issued + 1,
                      client := AwaitKill(op, first, s.issued))
            else n == s.(client := Returned(op, false, Some(first), None))
  {
    AnswerAt(s.server.answers, s.client.first);
  }

  /** And of the answer to its kill: the operation reports what the kill reports. */
  lemma KillDecides(s: System)
    requires Inv(s) && s.client.AwaitKill? && Enabled(s, TakeReply)
    ensures var (n, kill) := (Next(s, TakeReply), s.client.kill);
            n == s.(client := Returned(s.client.op, kill < |s.server.answers| && s.server.answers[kill].kind == Success,
                                       Some(s.client.first), Some(kill)))
  {
    AnswerAt(s.server.answers, s.client.kill);
  }

  /** A client whose patience ends sends a forced kill behind everything that waits, unless the loop is gone;
      if it was the kill it waited for, it gives up. */
  lemma PatienceDecides(s: System)
    requires Enabled(s, RunOutOfPatience)
    ensures var n := Next(s, RunOutOfPatience);
            if s.client.AwaitKill? then
              n == s.(client := Returned(s.client.op, false, Some(s.client.first), Some(s.client.kill)))
            else if s.server.mode == Stopped then
              n == s.(client := Returned(s.client.op, false, Some(s.client.first), None))
            else
              n == s.(queue := s.queue + [Message(s.issued, ForceKill)], issued := s.issued + 1,
                      client := AwaitKill(s.client.op, s.client.first, s.issued))
  {
  }

  /** A call sends its command behind everything that waits; with the loop gone it is an error at once. */
  lemma CallSends(s: System, op: Command)
    requires Enabled(s, Call(op))
    ensures var n := Next(s, Call(op));
            if s.server.mode == Stopped then n == s.(client := Returned(op, false, None, None))
            else n == s.(queue := s.queue + [Message(s.issued, op)], issued := s.issued + 1, client := AwaitReply(op, s.issued))
  {
  }

  /** A running loop with work goes on, however the operation turns out; a client's wait ends with the answer
      to its ticket, or when the ticket was dropped, and not before. */
  lemma NobodyIsStuck(s: System, o: Outcome)
    requires Inv(s)
    ensures s.server.mode == Running && s.queue != [] && Possible(s.queue[0].command, o) ==> Enabled(s, ServeNext(o))
    ensures s.server.mode != Running ==> !Enabled(s, ServeNext(o))
    ensures s.client.AwaitKill? ==>
      (Enabled(s, TakeReply) <==> s.client.kill < |s.server.answers| || s.client.kill in s.dropped)
    ensures s.client.AwaitReply? && (s.server.mode == Stopped || |s.queue| < 100) ==>
      (Enabled(s, TakeReply) <==> s.client.first < |s.server.answers| || s.client.first in s.dropped)
  {
    if s.client.AwaitKill? {
      AnswerAt(s.server.answers, s.client.kill);
    } else if s.client.AwaitReply? {
      AnswerAt(s.server.answers, s.client.first);
    }
  }

  /** The loop serves the command that waits longest; a shutdown drops all that wait behind it, whose
      replies then never come. */
  lemma ServesFirst(s: System, o: Outcome)
    requires Inv(s) && Enabled(s, ServeNext(o))
    ensures var (n, m) := (Next(s, ServeNext(o)), s.queue[0]);
            && n.server == Serve(s.server, m.ticket, m.command, o) && n.client == s.client && n.issued == s.issued
            && (m.command != ShutdownPty ==> n.queue == s.queue[1..] && n.dropped == s.dropped)
            && (m.command == ShutdownPty ==>
                  n.queue == [] && forall i :: 1 <= i < |s.queue| ==> s.queue[i].ticket in n.dropped)
  {
    var n := Next(s, ServeNext(o));
    if s.queue[0].command == ShutdownPty {
      forall i | 1 <= i < |s.queue| ensures s.queue[i].ticket in n.dropped {
        assert s.queue[1..][i - 1] == s.queue[i];
      }
    }
  }

  /** A hundred commands may wait; the next sender has to, unless the loop is gone, and then it fails. */
  lemma QueueBound(s: System, c: Command)
    ensures Enabled(s, Submit(c)) <==> s.server.mode != Stopped && |s.queue| < 100
    ensures s.client.Outside? && c in {Close, Resize} ==>
      (Enabled(s, Call(c)) <==> s.server.mode == Stopped || |s.queue| < 100)
  {
  }

  /** `close` reports success only when the close command itself was answered with success before the
      client lost patience: escalating to a kill never turns a failed close into a success. */
  lemma CloseSucceedsOnlyInTime(s: System)
    requires Reachable(s) && s.client.Returned? && s.client.op == Close && s.client.ok
    ensures s.client.killTicket == None && AnsweredWell(s, Close, s.client.ticket)
  {
    ReachableInv(s);
  }

  /** `resize` reports success when the PTY was resized in time, and also when it was not and the kill
      that followed ended the process: then that kill was the first command to take it. */
  lemma ResizeSucceedsOrKills(s: System)
    requires Reachable(s) && s.client.Returned? && s.client.op == Resize && s.client.ok
    ensures
      || (s.client.killTicket == None && AnsweredWell(s, Resize, s.client.ticket))
      || (&& AnsweredWell(s, ForceKill, s.client.killTicket)
          && (forall i :: 0 <= i < s.client.killTicket.value ==> !Takes(s.server.answers[i].command))
          && !s.server.process && Ended(s.server.calls))
  {
    ReachableInv(s);
    if AnsweredWell(s, ForceKill, s.client.killTicket) {
      var kill := s.client.killTicket.value;
      assert Takes(s.server.answers[kill].command);
      forall i | 0 <= i < kill ensures !Takes(s.server.answers[i].command) {
        if Takes(s.server.answers[i].command) {
          KillIsFirst(s, i, kill);
        }
      }
    }
  }

  const FAILED := Answer(0, Resize, Failure)

  /** The client waits for the kill after its resize has failed. */
  const KILLING := System(Server(true, [Use(Resize)], [FAILED], Running), [Message(1, ForceKill)], 2, {},
                          AwaitKill(Resize, 0, 1))

  lemma ResizeFails()
    ensures Exec(START, [Call(Resize), ServeNext(Fails), TakeReply]) == Some(KILLING)
  {
    var s1 := START.(queue := [Message(0, Resize)], issued := 1, client := AwaitReply(Resize, 0));
    var s2 := s1.(queue := [], server := KILLING.server);
    assert Next(START, Call(Resize)) == s1;
    assert s1.queue[1..] == [] && Next(s1, ServeNext(Fails)) == s2;
    assert [FAILED][..0] == [] && AnswerOf([FAILED], 0) == Some(Failure);
    assert Next(s2, TakeReply) == KILLING;
    assert Exec(KILLING, []) == Some(KILLING);
    Before(s2, TakeReply, []);
    Before(s1, ServeNext(Fails), [TakeReply]);
    Before(START, Call(Resize), [ServeNext(Fails), TakeReply]);
  }

  lemma KillWorks() returns (s: System)
    ensures Exec(KILLING, [ServeNext(Works), TakeReply]) == Some(s)
    ensures s.client == Returned(Resize, true, Some(0), Some(1))
    ensures s.server == Server(false, [Use(Resize)] + Ending(ForceKill), [FAILED, Answer(1, ForceKill, Success)], Running)
  {
    var answers := [FAILED, Answer(1, ForceKill, Success)];
    var s1 := KILLING.(queue := [], server := Server(false, [Use(Resize)] + Ending(ForceKill), answers, Running));
    assert KILLING.queue[1..] == [] && [FAILED] + [Answer(1, ForceKill, Success)] == answers;
    assert Next(KILLING, ServeNext(Works)) == s1;
    assert AnswerOf(answers, 1) == Some(Success);
    s := Next(s1, TakeReply);
    assert Exec(s, []) == Some(s);
    Before(s1, TakeReply, []);
    Before(KILLING, ServeNext(Works), [TakeReply]);
  }

  /** And so it goes: a resize that fails, the kill that follows, and the success that is reported. */
  lemma ResizeKills() returns (s: System)
    ensures Exec(START, [Call(Resize), ServeNext(Fails), TakeReply] + [ServeNext(Works), TakeReply]) == Some(s)
    ensures s.client == Returned(Resize, true, Some(0), Some(1))
    ensures s.server == Server(false, [Use(Resize)] + Ending(ForceKill), [FAILED, Answer(1, ForceKill, Success)], Running)
  {
    ResizeFails();
    s := KillWorks();
    ExecSplit(START, [Call(Resize), ServeNext(Fails), TakeReply], [ServeNext(Works), TakeReply]);
  }

  lemma {:induction false} ExecSplit(s: System, a: seq<Action>, b: seq<Action>)
    requires Exec(s, a).Some?
    ensures Exec(s, a + b) == Exec(Exec(s, a).value, b)
    decreases |a|
  {
    if a == [] {
      assert a + b == b;
    } else {
      assert (a + b)[1..] == a[1..] + b;
      ExecSplit(Next(s, a[0]), a[1..], b);
    }
  }

  lemma Before(s: System, a: Action, run: seq<Action>)
    requires Enabled(s, a)
    ensures Exec(s, [a] + run) == Exec(Next(s, a), run)
  {
    assert ([a] + run)[1..] == run;
  }

  predicate GivenUp(c: Client) { (c.AwaitKill? && c.op.Close?) || (c.Returned? && !c.ok) }

  lemma GivenUpStays(s: System, a: Action)
    requires Inv(s) && GivenUp(s.client) && Enabled(s, a)
    ensures GivenUp(Next(s, a).client)
  {
    if s.client.AwaitKill? {
      KillAfterClose(s, s.client.first, s.client.kill);
    }
  }

  /** Once a close has escalated, no continuation makes it succeed. */
  lemma {:induction false} EscalationNeverSucceeds(s: System, run: seq<Action>)
    requires Inv(s) && GivenUp(s.client) && Exec(s, run).Some?
    ensures GivenUp(Exec(s, run).value.client)
    decreases |run|
  {
    if run != [] {
      GivenUpStays(s, run[0]);
      StepKeeps(s, run[0]);
      EscalationNeverSucceeds(Next(s, run[0]), run[1..]);
    }
  }

  // ----- the handler ------------------------------------------------------------------------------

  /** The loop over a queue; `outcomes` says how each operation goes. */
  function ServeAll(s: Server, queue: seq<Message>, outcomes: seq<Outcome>): Server
    requires |outcomes| == |queue|
    decreases |queue|
  {
    if queue == [] || s.mode != Running then s
    else ServeAll(Serve(s, queue[0].ticket, queue[0].command, outcomes[0]), queue[1..], outcomes[1..])
  }

  /** The loop over a queue is a run of the system: its steps serve the queue from the front, and it ends
      with the queue served, or earlier at a shutdown or in a merge that hangs. */
  lemma {:induction false} ServeAllIsRun(s: System, outcomes: seq<Outcome>) returns (run: seq<Action>, t: System)
    requires |outcomes| == |s.queue| && forall i :: 0 <= i < |outcomes| ==> Possible(s.queue[i].command, outcomes[i])
    ensures Exec(s, run) == Some(t) && t.server == ServeAll(s.server, s.queue, outcomes)
    ensures |run| <= |outcomes| && forall i :: 0 <= i < |run| ==> run[i] == ServeNext(outcomes[i])
    ensures t.server.mode == Running ==> |run| == |outcomes| && t.queue == []
    decreases |s.queue|
  {
    if s.queue == [] || s.server.mode != Running {
      run, t := [], s;
    } else {
      var n := Next(s, ServeNext(outcomes[0]));
      if n.server.mode == Running {
        var more, u := ServeAllIsRun(n, outcomes[1..]);
        run, t := [ServeNext(outcomes[0])] + more, u;
        Before(s, ServeNext(outcomes[0]), more);
      } else {
        run, t := [ServeNext(outcomes[0])], n;
        assert Exec(n, []) == Some(n);
        Before(s, ServeNext(outcomes[0]), []);
      }
    }
  }

  /** A hang answers nothing and ends the loop's work; only a merge can hang, and a merge never works. */
  lemma HangsUnanswered(s: Server, ticket: nat, c: Command, o: Outcome)
    requires Possible(c, o)
    ensures o.Hangs? ==> c == MergeSessions && Serve(s, ticket, c, o) == s.(mode := Hung)
    ensures c == MergeSessions ==> !o.Works? && !o.Fails?
  {
  }

  class CommandHandler {
    /** Whether the handler still has its copy of the process. */
    var process: bool
    var calls: seq<Call>
    var answers: seq<Answer>
    var mode: Mode

    function State(): Server
      reads this
    {
      Server(process, calls, answers, mode)
    }

    constructor ()
      ensures State() == START.server
    {
      process, calls, answers, mode := true, [], [], Running;
    }

    method Send(ticket: nat, c: Command, kind: Kind)
      modifies this`answers
      ensures State() == Reply(old(State()), ticket, c, kind)
    {
      answers := answers + [Answer(ticket, c, kind)];
    }

    /** Signal, wait and close, whose last result decides; the first two are only logged. */
    method EndProcess(signal: int, options: int, o: Outcome) returns (kind: Kind)
      requires process
      modifies this`process, this`calls
      ensures !process && calls == old(calls) + [Kill(signal), Wait(options), CloseFd]
      ensures kind == if o == Works then Success else Failure
    {
      process := false;
      calls := calls + [Kill(signal)];
      calls := calls + [Wait(options)];
      calls := calls + [CloseFd];
      kind := if o == Works then Success else Failure;
    }

    method HandleClose(ticket: nat, o: Outcome)
      modifies this
      ensures State() == Serve(old(State()), ticket, Close, o)
    {
      var kind := Success;
      if process {
        kind := EndProcess(SIGTERM, WNOHANG, o);
      }
      Send(ticket, Close, kind);
    }

    method HandleForceKill(ticket: nat, o: Outcome)
      modifies this
      ensures State() == Serve(old(State()), ticket, ForceKill, o)
    {
      var kind := Failure;
      if process {
        kind := EndProcess(SIGKILL, 0, o);
      }
      Send(ticket, ForceKill, kind);
    }

    method HandleShutdownPty(ticket: nat, o: Outcome)
      modifies this
      ensures State() == Serve(old(State()), ticket, ShutdownPty, o).(mode := mode) && mode == old(mode)
    {
      var kind := Success;
      if process {
        kind := EndProcess(SIGTERM, WNOHANG, o);
      }
      Send(ticket, ShutdownPty, kind);
    }

    /** The commands that use the process without taking it. */
    method HandleProcessCommand(ticket: nat, c: Command, o: Outcome)
      requires !Takes(c) && !ForSessions(c)
      modifies this
      ensures State() == Serve(old(State()), ticket, c, o)
    {
      if process {
        if c.KillProcess? {
          calls := calls + [Kill(c.signal)];
        } else if c.WaitPid? {
          calls := calls + [Wait(c.options)];
        } else if c.CloseMasterFd? {
          calls := calls + [CloseFd];
        } else {
          calls := calls + [Use(c)];
        }
        Send(ticket, c, KindOf(c, o));
      } else {
        Send(ticket, c, Failure);
      }
    }

    /** The commands for the multiplexer, which writes to the process for some of them; a merge that hangs
        never comes to its reply. */
    method HandleSessionCommand(ticket: nat, c: Command, o: Outcome)
      requires ForSessions(c)
      modifies this
      ensures State() == Serve(old(State()), ticket, c, o)
    {
      if o.Hangs? {
        mode := Hung;
        return;
      }
      if Writes(c) && !o.Refused? {
        calls := calls + [Use(c)];
      }
      Send(ticket, c, KindOf(c, o));
    }

    /** `handle_commands`: one command after the other, until a shutdown. */
    method HandleCommands(queue: seq<Message>, outcomes: seq<Outcome>)
      requires |outcomes| == |queue| && mode == Running
      modifies this
      ensures State() == ServeAll(old(State()), queue, outcomes)
    {
      assert queue[0..] == queue && outcomes[0..] == outcomes;
      for i := 0 to |queue|
        invariant mode == Running
        invariant ServeAll(old(State()), queue, outcomes) == ServeAll(State(), queue[i..], outcomes[i..])
      {
        assert queue[i..][1..] == queue[i + 1..] && outcomes[i..][1..] == outcomes[i + 1..];
        var (ticket, c) := (queue[i].ticket, queue[i].command);
        if c.Close? {
          HandleClose(ticket, outcomes[i]);
        } else if c.ForceKill? {
          HandleForceKill(ticket, outcomes[i]);
        } else if c.ShutdownPty? {
          HandleShutdownPty(ticket, outcomes[i]);
          mode := Stopped;
          return;
        } else if ForSessions(c) {
          HandleSessionCommand(ticket, c, outcomes[i]);
          if mode == Hung {
            return;
          }
        } else {
          HandleProcessCommand(ticket, c, outcomes[i]);
        }
      }
    }
  }
}
