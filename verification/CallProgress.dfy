/** Why a call of the executor comes back: its default timeout is never switched off, so the reply
    comes; then the child is gone and what the pipes hold can only shrink. */
module CallProgress {
  import opened Bits
  import opened Executor
  import opened ForkServer
  import opened Framing
  import opened Prelude
  import opened Progress

  const TIMEOUT_US: nat := 20 * 1000

  /** A call waits for a reply the daemon has not written yet, respectively has. */
  predicate Pending(s: Session)
  {
    s.pc.Polling? && |s.world.written| == |s.outcomes|
  }

  predicate Answered(s: Session)
  {
    s.pc.Polling? && |s.world.written| == |s.outcomes| + 1
  }

  /** Moves that bring the end of the call nearer: first what brings the reply nearer, reading the
      command included; then taking the reply and the output, and the empty wait that ends the call. */
  predicate UsefulMove(s: Session, m: Move)
  {
    match m
    case Environment(step) =>
      Pending(s) && (Useful(s.world, step) || step.DaemonReads? || step.DaemonDispatches?)
    case PollReply => true
    case PollStdout(_) => Answered(s)
    case PollStderr(_) => Answered(s)
    case PollNothing => true
    case _ => false
  }

  /** Room for useful moves before the reply. */
  function MeasureOf(w: World): nat
  {
    match w.pc
    case ReadingCommand(got) => 2 * w.settings.timeoutUs + 9 + 2 * |w.toDaemon| + |got|
    case _ => Measure(w)
  }

  /** Room for useful moves after it. */
  function Left(s: Session): nat
    requires s.pc.Polling?
  {
    |s.world.stdout| + |s.world.stderr| + (if s.pc.drain then 1 else 2)
  }

  // ----- what the executor's script means for the daemon -----

  lemma {:induction false} ScriptBytes(cs: seq<Command>)
    requires InScript(cs)
    ensures |EncodeAll(cs)| == 4 * |cs|
  {
    if cs != [] {
      ScriptBytes(cs[..|cs| - 1]);
    }
  }

  lemma SamePrefix(a: seq<Byte>, x: seq<Byte>, b: seq<Byte>, y: seq<Byte>)
    requires a + x == b + y && |a| == |b|
    ensures a == b
  {
    assert (a + x)[..|a|] == a && (b + y)[..|b|] == b;
  }

  /** Bytes that start with a timeout's header do not encode a command of the script. */
  lemma HeaderOfFirst(c: Command, rest: seq<Byte>, tail: seq<Byte>)
    requires c == ReadStdin || c == Execute
    ensures Encode(c) + rest != ToLE(SET_TIMEOUT_CODE, 4) + tail
  {
    assert Encode(c) == ToLE(c.Code(), 4) + [] == ToLE(c.Code(), 4);
    Pow256Values();
    FromToLE(c.Code(), 4);
    FromToLE(SET_TIMEOUT_CODE, 4);
    hide ToLE, FromLE, Encode;
    if Encode(c) + rest == ToLE(SET_TIMEOUT_CODE, 4) + tail {
      SamePrefix(Encode(c), rest, ToLE(SET_TIMEOUT_CODE, 4), tail);
    }
  }

  predicate InScript(cs: seq<Command>)
  {
    forall i :: 0 <= i < |cs| ==> cs[i] == ReadStdin || cs[i] == Execute
  }

  lemma NoTimeoutHeader(cs: seq<Command>, tail: seq<Byte>)
    requires InScript(cs)
    ensures EncodeAll(cs) != ToLE(SET_TIMEOUT_CODE, 4) + tail
  {
    if cs != [] {
      assert [cs[0]] + cs[1..] == cs;
      EncodeAllCons(cs[0], cs[1..]);
      hide EncodeAll, Encode, ToLE;
      HeaderOfFirst(cs[0], EncodeAll(cs[1..]), tail);
    }
  }

  lemma ScriptInScript(calls: nat, d: nat)
    requires d <= calls + 1
    ensures |Script(calls)| == calls + 1 && InScript(Script(calls)[d..])
  {
  }

  /** The daemon never reads a payload, and has just the bytes of the commands it has not seen. */
  lemma DaemonReadsScript(w: World, calls: nat)
    requires FramingOk(w) && w.sent == Script(calls)
    ensures |w.done| <= calls + 1 && w.done == Script(calls)[..|w.done|]
    ensures !w.pc.ReadingTimeout?
    ensures w.pc.ReadingCommand? ==> |w.pc.got| <= 4 && |w.pc.got| + |w.toDaemon| == 4 * (calls + 1 - |w.done|)
  {
    var rest := w.sent[|w.done|..];
    assert |Script(calls)| == calls + 1;
    ScriptInScript(calls, |w.done|);
    ScriptBytes(rest);
    assert w.pc.ReadingTimeout? ==> EncodeAll(rest) == ToLE(SET_TIMEOUT_CODE, 4) + w.pc.got + w.toDaemon;
    hide EncodeAll, ToLE;
    if w.pc.ReadingTimeout? {
      Associative(ToLE(SET_TIMEOUT_CODE, 4), w.pc.got, w.toDaemon);
      NoTimeoutHeader(rest, w.pc.got + w.toDaemon);
    }
  }

  // ----- before the reply -----

  /** Steps of the daemon's side that count as useful moves. */
  predicate UsefulStep(w: World, step: Step)
  {
    Useful(w, step) || step.DaemonReads? || step.DaemonDispatches?
  }

  lemma ReadMeasure(w: World, n: nat)
    requires Enabled(w, DaemonReads(n)) && w.pc.ReadingCommand?
    ensures MeasureOf(Next(w, DaemonReads(n))) + 1 <= MeasureOf(w) && Next(w, DaemonReads(n)).written == w.written
  {
  }

  lemma HeaderEffect(w: World)
    requires Enabled(w, DaemonDispatches) && w.pc.ReadingCommand?
    ensures var w' := Next(w, DaemonDispatches);
            && |w.pc.got| == 4 && w'.sent == w.sent && w'.written == w.written && w'.toDaemon == w.toDaemon
            && (w'.pc.ReadingTimeout? ||
                ((w'.pc == Forking || w'.pc == ReadingCommand([])) && w'.settings.timeoutUs == w.settings.timeoutUs))
  {
    hide FromLE;
  }

  lemma HeaderMeasure(w: World, w': World)
    requires w.pc.ReadingCommand? && |w.pc.got| == 4 && w'.toDaemon == w.toDaemon
    requires (w'.pc == Forking || w'.pc == ReadingCommand([])) && w'.settings.timeoutUs == w.settings.timeoutUs
    ensures MeasureOf(w') + 1 <= MeasureOf(w)
  {
  }

  lemma DispatchMeasure(w: World, calls: nat)
    requires Inv(w, EXECUTOR_ID) && w.sent == Script(calls) && Enabled(w, DaemonDispatches) && w.pc.ReadingCommand?
    ensures var w' := Next(w, DaemonDispatches);
            MeasureOf(w') + 1 <= MeasureOf(w) && w'.written == w.written
  {
    hide *;
    var w' := Next(w, DaemonDispatches);
    StepKeepsInv(w, EXECUTOR_ID, DaemonDispatches);
    HeaderEffect(w);
    InvFraming(w');
    DaemonReadsScript(w', calls);
    HeaderMeasure(w, w');
  }

  lemma InvFraming(w: World)
    requires Inv(w, EXECUTOR_ID)
    ensures FramingOk(w)
  {
  }

  lemma QuietWhileReading(w: World, step: Step)
    requires Enabled(w, step) && w.pc.ReadingCommand? && Quiet(step)
    ensures MeasureOf(Next(w, step)) == MeasureOf(w) && Next(w, step).written == w.written && !Useful(w, step)
  {
    hide Next, Enabled;
    QuietSteps(w, step);
  }

  lemma WhileReading(w: World, step: Step)
    requires Enabled(w, step) && w.pc.ReadingCommand? && !step.ClientSends?
    ensures step.DaemonReads? || step.DaemonDispatches? || Quiet(step)
    ensures step.DaemonReads? || step.DaemonDispatches? ==> !Useful(w, step)
  {
  }

  lemma WhileExecuting(w: World, step: Step)
    requires Inv(w, EXECUTOR_ID) && Enabled(w, step) && Executing(w.pc) && !step.DaemonReplies?
    ensures !step.DaemonReads? && !step.DaemonDispatches? && Next(w, step).written == w.written
    ensures MeasureOf(Next(w, step)) + (if Useful(w, step) then 1 else 0) <= MeasureOf(w)
  {
    StepMeasure(w, EXECUTOR_ID, step);
    hide Inv, Next, Measure, Useful;
  }

  /** Until the reply, nothing moves it away and useful steps bring it nearer. */
  lemma PendingStep(w: World, calls: nat, step: Step)
    requires Inv(w, EXECUTOR_ID) && w.sent == Script(calls)
    requires Enabled(w, step) && !step.ClientSends? && !step.DaemonReplies?
    ensures Next(w, step).written == w.written
    ensures MeasureOf(Next(w, step)) + (if UsefulStep(w, step) then 1 else 0) <= MeasureOf(w)
  {
    assert FramingOk(w);
    DaemonReadsScript(w, calls);
    hide Inv, Next, Enabled, Useful, MeasureOf, Script;
    if w.pc.ReadingCommand? {
      WhileReading(w, step);
      if step.DaemonReads? {
        ReadMeasure(w, step.count);
      } else if step.DaemonDispatches? {
        DispatchMeasure(w, calls);
      } else {
        QuietWhileReading(w, step);
      }
    } else {
      WhileExecuting(w, step);
    }
  }

  /** With a reply outstanding the daemon has something to do. */
  lemma PendingHasStep(w: World, calls: nat)
    requires Inv(w, EXECUTOR_ID) && w.sent == Script(calls) && |w.written| < calls
    ensures exists step :: Enabled(w, step) && UsefulStep(w, step) && !step.ClientSends?
  {
    hide *;
    InvFraming(w);
    DaemonReadsScript(w, calls);
    if w.pc.ReadingCommand? {
      CommandsAreLeft(w, calls);
      ReadingHasStep(w);
    } else {
      TimeoutIsOn(w, calls);
      NotReading(w);
      UsefulStepOrStuck(w, EXECUTOR_ID);
      var step :| Enabled(w, step) && Useful(w, step);
      UsefulIsTheirs(w, step);
    }
  }

  lemma ReadingHasStep(w: World)
    requires w.pc.ReadingCommand? && |w.pc.got| <= 4 && |w.pc.got| + |w.toDaemon| >= 4
    ensures exists step :: Enabled(w, step) && UsefulStep(w, step) && !step.ClientSends?
  {
    var step := if |w.pc.got| == 4 then DaemonDispatches else DaemonReads(1);
    assert Enabled(w, step) && UsefulStep(w, step);
  }

  lemma TimeoutIsOn(w: World, calls: nat)
    requires Inv(w, EXECUTOR_ID) && w.sent == Script(calls)
    ensures w.settings.timeoutUs > 0
  {
    assert FramingOk(w) && w.settings == Fold(DefaultSettings(EXECUTOR_ID), w.done);
    hide *;
    DaemonReadsScript(w, calls);
    ScriptExecutions(calls, |w.done|);
  }

  lemma NotReading(w: World)
    requires !w.pc.ReadingCommand? && !w.pc.ReadingTimeout?
    ensures Executing(w.pc)
  {
  }

  lemma UsefulIsTheirs(w: World, step: Step)
    requires Useful(w, step)
    ensures UsefulStep(w, step) && !step.ClientSends?
  {
  }

  lemma CommandsAreLeft(w: World, calls: nat)
    requires Inv(w, EXECUTOR_ID) && w.sent == Script(calls) && |w.written| < calls && w.pc.ReadingCommand?
    ensures |w.done| < calls + 1
  {
    DaemonReadsScript(w, calls);
    DaemonProgress(w, calls);
    ScriptExecutions(calls, |w.done|);
    hide FramingOk, PidsOk, TimerOk, EndsOk, Fold, Executions, Script;
  }

  lemma PendingReplies(s: Session)
    requires Pending(s) && ReplyOk(s.pc, |s.outcomes|, s.world.replies, s.world.written)
    ensures s.pc.Polling? && !s.pc.drain && s.world.replies == [] && |s.world.written| == |s.outcomes|
  {
  }

  lemma EnvironmentMove(s: Session, step: Step)
    requires Pending(s) && Possible(s, Environment(step))
    ensures Enabled(s.world, step) && !step.ClientSends?
    ensures Do(s, Environment(step)) == s.(world := Next(s.world, step))
    ensures UsefulMove(s, Environment(step)) == UsefulStep(s.world, step)
  {
    hide Enabled, Next, Useful;
  }

  lemma PendingCases(s: Session, m: Move)
    requires Possible(s, m) && s.pc.Polling? && !s.pc.drain && s.world.replies == []
    ensures m.Environment? || m.PollStdout? || m.PollStderr? || (m.PollInterrupted? && Do(s, m) == s)
    ensures !m.Environment? && |s.world.written| == |s.outcomes| ==> !UsefulMove(s, m)
  {
    hide Enabled, Next, Useful;
  }

  lemma StillPending(s: Session, s': Session)
    requires Pending(s) && s'.pc.Polling? && s'.world.written == s.world.written && s'.outcomes == s.outcomes
    ensures Pending(s')
  {
  }

  /** One move of a call whose reply is outstanding. */
  lemma PendingMove(s: Session, m: Move)
    requires SessionInv(s) && Pending(s) && Possible(s, m) && m != Environment(DaemonReplies)
    ensures Pending(Do(s, m)) && Do(s, m).outcomes == s.outcomes
    ensures MeasureOf(Do(s, m).world) + (if UsefulMove(s, m) then 1 else 0) <= MeasureOf(s.world)
  {
    hide *;
    var calls, s' := |s.outcomes| + 1, Do(s, m);
    PendingFacts(s);
    PendingCases(s, m);
    if m.Environment? {
      EnvironmentMove(s, m.step);
      PendingStep(s.world, calls, m.step);
      StillPending(s, s');
    } else if m.PollStdout? || m.PollStderr? {
      DoTakeOutput(s, m);
      PendingStep(s.world, calls, ClientTakesOutput(m.PollStdout?, m.count));
      StillPending(s, s');
    }
  }

  lemma PendingFacts(s: Session)
    requires SessionInv(s) && Pending(s)
    ensures s.pc.Polling? && !s.pc.drain && s.world.replies == [] && |s.world.written| == |s.outcomes|
    ensures Inv(s.world, EXECUTOR_ID) && s.world.sent == Script(|s.outcomes| + 1)
  {
    hide *;
    Disassemble(s);
    PendingReplies(s);
  }

  lemma PendingHasMove(s: Session)
    requires SessionInv(s) && Pending(s)
    ensures exists m :: Possible(s, m) && UsefulMove(s, m)
  {
    hide *;
    PendingFacts(s);
    PendingHasStep(s.world, |s.outcomes| + 1);
    var step :| Enabled(s.world, step) && UsefulStep(s.world, step) && !step.ClientSends?;
    StepIsMove(s, step);
    assert Possible(s, Environment(step)) && UsefulMove(s, Environment(step));
  }

  lemma StepIsMove(s: Session, step: Step)
    requires Pending(s) && Enabled(s.world, step) && UsefulStep(s.world, step) && !step.ClientSends?
    ensures Possible(s, Environment(step)) && UsefulMove(s, Environment(step))
  {
    hide Enabled;
  }

  /** When a call's command has been sent, at most two commands are still to be read. */
  lemma CallStartsPending(s: Session)
    requires SessionInv(s) && Possible(s, SendExecute)
    ensures SessionInv(Do(s, SendExecute)) && Pending(Do(s, SendExecute))
    ensures Do(s, SendExecute).world.written == s.world.written
    ensures MeasureOf(Do(s, SendExecute).world) <= 2 * TIMEOUT_US + 25
  {
    hide *;
    var t, n := Do(s, SendExecute), |s.outcomes|;
    SendKeeps(s);
    DoSend(s);
    SendEffect(s.world);
    Disassemble(s);
    BeforeSend(s);
    SendLeavesDaemon(s.world);
    Disassemble(t);
    StartMeasure(t.world, n);
    StartsPending(s, t);
  }

  lemma StartsPending(s: Session, t: Session)
    requires t.pc == Polling(false, None, [], []) && |t.world.written| == |t.outcomes|
    ensures Pending(t)
  {
  }

  lemma BeforeSend(s: Session)
    requires SessionInv(s) && s.pc.Truncated?
    ensures |s.world.written| == |s.outcomes| == |s.world.executions| && s.world.pc.ReadingCommand?
  {
    assert |s.world.written| == |s.outcomes|;
    assert FramingOk(s.world) && s.world.sent == Script(|s.outcomes|);
    hide *;
    Disassemble(s);
    DaemonIdle(s.world, |s.outcomes|);
  }

  lemma DaemonIdle(w: World, calls: nat)
    requires Inv(w, EXECUTOR_ID) && w.sent == Script(calls) && |w.written| == calls
    ensures |w.executions| == calls && w.pc.ReadingCommand?
  {
    DaemonReadsScript(w, calls);
    DaemonProgress(w, calls);
    hide Inv, Script;
  }

  lemma SendLeavesDaemon(w: World)
    requires Enabled(w, ClientSends(Execute))
    ensures Next(w, ClientSends(Execute)).pc == w.pc
  {
  }

  lemma StartMeasure(w: World, n: nat)
    requires Inv(w, EXECUTOR_ID) && w.sent == Script(n + 1)
    requires w.pc.ReadingCommand? && |w.executions| == n
    ensures MeasureOf(w) <= 2 * TIMEOUT_US + 25
  {
    DaemonReadsScript(w, n + 1);
    ScriptExecutions(n + 1, |w.done|);
    hide FramingOk, PidsOk, TimerOk, EndsOk, Fold, Executions, Script;
  }

  // ----- after the reply -----

  lemma AnsweredFacts(s: Session)
    requires SessionInv(s) && Answered(s)
    ensures s.pc.Polling? && s.world.procs == map[] && s.world.pc.ReadingCommand?
    ensures if s.pc.drain then s.world.replies == [] else |s.world.replies| == 1
  {
    hide *;
    Disassemble(s);
    AnsweredReplies(s);
    DaemonIdle(s.world, |s.outcomes| + 1);
    NoChild(s.world, |s.outcomes| + 1);
  }

  lemma AnsweredReplies(s: Session)
    requires Answered(s) && ReplyOk(s.pc, |s.outcomes|, s.world.replies, s.world.written)
    ensures s.pc.Polling? && |s.world.written| == |s.outcomes| + 1
    ensures if s.pc.drain then s.world.replies == [] else |s.world.replies| == 1
  {
  }

  lemma NoChild(w: World, calls: nat)
    requires Inv(w, EXECUTOR_ID) && w.sent == Script(calls) && w.pc.ReadingCommand?
    ensures w.procs == map[]
  {
    DaemonProgress(w, calls);
    hide Inv, Script;
  }

  lemma WithoutChild(w: World, step: Step)
    requires w.procs == map[] && w.pc.ReadingCommand? && Enabled(w, step)
    requires !step.ClientSends? && !step.ClientTakesReply? && !step.ClientTakesOutput?
    ensures Silent(step)
  {
  }

  lemma AnsweredEnvironment(s: Session, step: Step)
    requires Answered(s) && s.world.procs == map[] && s.world.pc.ReadingCommand? && Possible(s, Environment(step))
    ensures Enabled(s.world, step) && Silent(step) && !UsefulMove(s, Environment(step))
    ensures Do(s, Environment(step)) == s.(world := Next(s.world, step))
  {
    hide Enabled, Next, Useful, Silent;
    WithoutChild(s.world, step);
  }

  lemma StillAnswered(s: Session, s': Session)
    requires Answered(s) && s'.pc.Polling? && s'.outcomes == s.outcomes && s'.world.written == s.world.written
    ensures Answered(s')
  {
  }

  lemma FinalMoves(s: Session, m: Move)
    requires s.pc.Polling? && Possible(s, m)
    ensures m.Environment? || m.PollStdout? || m.PollStderr? || m.PollReply? || m.PollNothing? ||
            (m.PollInterrupted? && Do(s, m) == s && !UsefulMove(s, m))
    ensures m.PollNothing? ==> |Do(s, m).outcomes| == |s.outcomes| + 1
  {
    hide Enabled, Next, Useful;
  }

  lemma LeftOf(s: Session)
    requires s.pc.Polling?
    ensures Left(s) == |s.world.stdout| + |s.world.stderr| + (if s.pc.drain then 1 else 2)
  {
  }

  lemma TakesSome(s: Session, m: Move)
    requires Possible(s, m) && (m.PollStdout? || m.PollStderr?)
    ensures m.count > 0
  {
  }

  /** One move of a call whose reply has been written. */
  lemma AnsweredMove(s: Session, m: Move)
    requires SessionInv(s) && Answered(s) && Possible(s, m)
    ensures m.PollNothing? ==> |Do(s, m).outcomes| == |s.outcomes| + 1
    ensures !m.PollNothing? ==>
              && Do(s, m).outcomes == s.outcomes && Answered(Do(s, m)) && s.pc.Polling? && Do(s, m).pc.Polling?
              && Left(Do(s, m)) + (if UsefulMove(s, m) then 1 else 0) <= Left(s)
  {
    hide *;
    var s' := Do(s, m);
    AnsweredFacts(s);
    FinalMoves(s, m);
    LeftOf(s);
    if m.Environment? {
      AnsweredEnvironment(s, m.step);
      SilentEffect(s.world, m.step);
      StillAnswered(s, s');
      LeftOf(s');
    } else if m.PollStdout? || m.PollStderr? {
      DoTakeOutput(s, m);
      TakesSome(s, m);
      TakeOutputEffect(s.world, m.PollStdout?, m.count);
      StillAnswered(s, s');
      LeftOf(s');
    } else if m.PollReply? {
      DoTakeReply(s);
      TakeReplyEffect(s.world);
      StillAnswered(s, s');
      LeftOf(s');
    }
  }

  lemma AnsweredHasMove(s: Session)
    requires SessionInv(s) && Answered(s)
    ensures exists m :: Possible(s, m) && UsefulMove(s, m)
  {
    AnsweredFacts(s);
    hide SessionInv, Enabled, Next, Useful;
    var m :=
      if !s.pc.drain then PollReply
      else if s.world.stdout != [] then PollStdout(1)
      else if s.world.stderr != [] then PollStderr(1)
      else PollNothing;
    assert Possible(s, m) && UsefulMove(s, m);
  }

  // ----- whole runs -----

  function UsefulMoves(s: Session, moves: seq<Move>): nat
    requires Play(s, moves).Some?
  {
    if moves == [] then 0
    else
      var u := Play(s, moves[..|moves| - 1]).value;
      UsefulMoves(s, moves[..|moves| - 1]) + (if UsefulMove(u, moves[|moves| - 1]) then 1 else 0)
  }

  lemma MoveOnlyAdds(s: Session, m: Move)
    requires Possible(s, m)
    ensures |s.world.written| <= |Do(s, m).world.written| && |s.outcomes| <= |Do(s, m).outcomes|
    ensures m == Environment(DaemonReplies) ==> |Do(s, m).world.written| == |s.world.written| + 1
  {
    hide Next, Enabled;
    match m
    case Environment(step) => WrittenStep(s.world, step);
    case SendExecute => WrittenStep(s.world, ClientSends(Execute));
    case PollStdout(n) => WrittenStep(s.world, ClientTakesOutput(true, n));
    case PollStderr(n) => WrittenStep(s.world, ClientTakesOutput(false, n));
    case PollReply => WrittenStep(s.world, ClientTakesReply);
    case _ =>
  }

  lemma {:induction false} PendingRun(s: Session, moves: seq<Move>)
    requires SessionInv(s) && Pending(s) && Play(s, moves).Some?
    ensures var u := Play(s, moves).value;
            && SessionInv(u) && |s.world.written| <= |u.world.written|
            && (|u.world.written| == |s.world.written| ==>
                  Pending(u) && UsefulMoves(s, moves) + MeasureOf(u.world) <= MeasureOf(s.world))
  {
    hide SessionInv, Possible, Do, Pending, MeasureOf, UsefulMove;
    if moves != [] {
      var before, m := moves[..|moves| - 1], moves[|moves| - 1];
      PendingRun(s, before);
      var u := Play(s, before).value;
      MoveKeepsInv(u, m);
      MoveOnlyAdds(u, m);
      if |Do(u, m).world.written| == |s.world.written| {
        PendingMove(u, m);
      }
    }
  }

  lemma {:induction false} AnsweredRun(s: Session, moves: seq<Move>)
    requires SessionInv(s) && Answered(s) && Play(s, moves).Some?
    ensures var u := Play(s, moves).value;
            && SessionInv(u) && s.pc.Polling? && |s.outcomes| <= |u.outcomes|
            && (|u.outcomes| == |s.outcomes| ==>
                  Answered(u) && u.pc.Polling? && UsefulMoves(s, moves) + Left(u) <= Left(s))
  {
    hide SessionInv, Possible, Do, Left, UsefulMove;
    if moves != [] {
      var before, m := moves[..|moves| - 1], moves[|moves| - 1];
      AnsweredRun(s, before);
      var u := Play(s, before).value;
      MoveKeepsInv(u, m);
      MoveOnlyAdds(u, m);
      if |Do(u, m).outcomes| == |s.outcomes| {
        AnsweredMove(u, m);
      }
    }
  }

  /** Liveness of a call, first half: from the sending of its command, whatever the child does,
      at most 2 * 20000 + 25 useful moves are made before its
      reply is written, and until then another one is possible. */
  lemma ReplyArrives(s: Session, moves: seq<Move>)
    requires SessionInv(s) && Possible(s, SendExecute) && Play(Do(s, SendExecute), moves).Some?
    ensures var t := Do(s, SendExecute);
            var u := Play(t, moves).value;
            |u.world.written| == |s.world.written| ==>
              UsefulMoves(t, moves) <= 2 * TIMEOUT_US + 25 && exists m :: Possible(u, m) && UsefulMove(u, m)
  {
    hide *;
    var t := Do(s, SendExecute);
    CallStartsPending(s);
    PendingRun(t, moves);
    var u := Play(t, moves).value;
    if |u.world.written| == |s.world.written| {
      PendingHasMove(u);
    }
  }

  /** Second half: once its reply is written, at most one useful move per byte in the pipes and two
      more are made before the call returns, and until then another one is possible. */
  lemma CallReturns(s: Session, moves: seq<Move>)
    requires SessionInv(s) && Answered(s) && Play(s, moves).Some?
    ensures var u := Play(s, moves).value;
            |u.outcomes| == |s.outcomes| ==>
              && UsefulMoves(s, moves) <= |s.world.stdout| + |s.world.stderr| + 2
              && exists m :: Possible(u, m) && UsefulMove(u, m)
  {
    hide *;
    AnsweredRun(s, moves);
    LeftOf(s);
    var u := Play(s, moves).value;
    if |u.outcomes| == |s.outcomes| {
      AnsweredHasMove(u);
    }
  }

  /** In particular a call under way never hangs: in every reachable state it has a useful move. */
  lemma CallNeverHangs(oldFile: seq<Byte>, moves: seq<Move>)
    requires Play(Start(oldFile), moves).Some?
    ensures var s := Play(Start(oldFile), moves).value;
            s.pc.Polling? ==> (Pending(s) || Answered(s)) && exists m :: Possible(s, m) && UsefulMove(s, m)
  {
    hide *;
    AlwaysSessionInv(oldFile, moves);
    var s := Play(Start(oldFile), moves).value;
    if s.pc.Polling? {
      Disassemble(s);
      PendingOrAnswered(s);
      if Pending(s) {
        PendingHasMove(s);
      } else {
        AnsweredHasMove(s);
      }
    }
  }

  lemma PendingOrAnswered(s: Session)
    requires s.pc.Polling? && ReplyOk(s.pc, |s.outcomes|, s.world.replies, s.world.written)
    ensures Pending(s) || Answered(s)
  {
  }
}
